/** The attendance receiver of DataBeacon/BLE/GestorAsistenciaBLEReceptor.kt:
    a scanner that waits for two strong readings of the classroom beacon,
    then the check-in that records the attendance in the database.

    The receiver object is a class whose fields the callbacks update in
    place. What it emits on its shared flow is the field `emitted`; the
    calls it makes on the Bluetooth scanner are the field `scanner`. The
    check-in coroutine is a chain of awaited database calls, flattened into
    the function `CheckIn` over the outcome of each await. */
module Receiver {
  import opened Wrappers
  import opened Models
  import opened Text
  import opened BeaconPayload
  import Collections
  import Conexion

  const TargetDeviceMac := "DD:34:02:09:C2:6C"
  const RssiThreshold := -70
  const RequiredDetections := 2

  const BluetoothOffMessage := "Bluetooth apagado"
  const LocationOffMessage := "Debes activar la ubicación del dispositivo para escanear beacons."
  const TimeoutMessage := "No se detectó el beacon de asistencia."

  /** A call on the Bluetooth LE scanner: a scan filtered by device address,
      or stopping it. */
  datatype ScannerCall = StartScan(filterAddress: string) | StopScan

  /** A scan result counts as a detection when it comes from the target
      device (address compared ignoring case), is at least as strong as the
      threshold, and carries a record the receiver's parser accepts. */
  predicate Counts(address: string, rssi: int, record: Option<seq<int8>>) {
    EqualsIgnoreCase(address, TargetDeviceMac) && rssi >= RssiThreshold
    && record.Some? && ReceiverParse(record.value).Some?
  }

  /** The scanner calls of a receiver that was never misused: starts and
      stops alternate, beginning with a start, and every start filters on
      the target address. */
  ghost predicate Alternating(calls: seq<ScannerCall>) {
    forall i | 0 <= i < |calls| :: calls[i] == (if i % 2 == 0 then StartScan(TargetDeviceMac) else StopScan)
  }

  class BeaconReceiver {
    const horarioActivo: Horario
    var isScanning: bool
    var detectionCount: nat
    var emitted: seq<Recurso<AsistenciaUsuario>>
    var scanner: seq<ScannerCall>

    /** The scan is running exactly when the last scanner call started it,
        and the receiver never starts a scan that is already running nor
        stops one that is not. */
    ghost predicate Valid()
      reads this
    {
      Alternating(scanner) && (isScanning <==> |scanner| % 2 == 1)
    }

    constructor(activo: Horario)
      ensures Valid()
      ensures horarioActivo == activo && !isScanning && detectionCount == 0
      ensures emitted == [] && scanner == []
    {
      horarioActivo := activo;
      isScanning := false;
      detectionCount := 0;
      emitted := [];
      scanner := [];
    }

    /** `disconnect`: stops the scan if it is running; otherwise nothing. */
    method Disconnect()
      requires Valid()
      modifies this
      ensures Valid()
      ensures !isScanning
      ensures scanner == old(scanner) + (if old(isScanning) then [StopScan] else [])
      ensures detectionCount == old(detectionCount) && emitted == old(emitted)
    {
      if isScanning {
        scanner := scanner + [StopScan];
        isScanning := false;
      }
    }

    /** `startReceiving`: refuses with an error when Bluetooth or location
        is off; otherwise stops any running scan, resets the detection
        count, announces the scan and starts it filtered on the target. */
    method StartReceiving(bluetoothOn: bool, locationOn: bool)
      requires Valid()
      modifies this
      ensures Valid()
      ensures !bluetoothOn ==>
                emitted == old(emitted) + [Error(BluetoothOffMessage)]
                && isScanning == old(isScanning) && detectionCount == old(detectionCount) && scanner == old(scanner)
      ensures bluetoothOn && !locationOn ==>
                emitted == old(emitted) + [Error(LocationOffMessage)]
                && isScanning == old(isScanning) && detectionCount == old(detectionCount) && scanner == old(scanner)
      ensures bluetoothOn && locationOn ==>
                emitted == old(emitted) + [Loading(Some("Iniciando scan iBeacon…"))]
                && isScanning && detectionCount == 0
                && scanner == old(scanner) + (if old(isScanning) then [StopScan] else []) + [StartScan(TargetDeviceMac)]
    {
      if !bluetoothOn {
        emitted := emitted + [Error(BluetoothOffMessage)];
        return;
      }
      if !locationOn {
        emitted := emitted + [Error(LocationOffMessage)];
        return;
      }
      Disconnect();
      detectionCount := 0;
      emitted := emitted + [Loading(Some("Iniciando scan iBeacon…"))];
      scanner := scanner + [StartScan(TargetDeviceMac)];
      isScanning := true;
    }

    /** The delayed coroutine `startReceiving` launches: when it fires and
        the scan is still running, the scan stops and an error is emitted. */
    method OnTimeout()
      requires Valid()
      modifies this
      ensures Valid()
      ensures !old(isScanning) ==> unchanged(this)
      ensures old(isScanning) ==>
                !isScanning && scanner == old(scanner) + [StopScan]
                && emitted == old(emitted) + [Error(TimeoutMessage)]
                && detectionCount == old(detectionCount)
    {
      if isScanning {
        Disconnect();
        emitted := emitted + [Error(TimeoutMessage)];
      }
    }

    /** `onScanResult`. A result that does not count changes nothing. The
        first counted result only raises the count; a later one raises it,
        stops the scan, announces the confirmation and hands the decoded
        beacon to the check-in (`checkIn`). */
    method OnScanResult(address: string, rssi: int, record: Option<seq<int8>>) returns (checkIn: Option<IBeacon>)
      requires Valid()
      modifies this
      ensures Valid()
      ensures !Counts(address, rssi, record) ==> checkIn == None && unchanged(this)
      ensures Counts(address, rssi, record) ==> detectionCount == old(detectionCount) + 1
      ensures Counts(address, rssi, record) && old(detectionCount) < RequiredDetections - 1 ==>
                checkIn == None && isScanning == old(isScanning) && scanner == old(scanner) && emitted == old(emitted)
      ensures Counts(address, rssi, record) && old(detectionCount) >= RequiredDetections - 1 ==>
                checkIn == ReceiverParse(record.value) && checkIn.Some?
                && !isScanning && scanner == old(scanner) + (if old(isScanning) then [StopScan] else [])
                && emitted == old(emitted) + [Loading(Some("Confirmando asistencia…"))]
    {
      checkIn := None;
      if EqualsIgnoreCase(address, TargetDeviceMac) && rssi >= RssiThreshold && record.Some? {
        var beacon := ReceiverParse(record.value);
        if beacon.Some? {
          if detectionCount < RequiredDetections - 1 {
            detectionCount := detectionCount + 1;
          } else {
            detectionCount := detectionCount + 1;
            Disconnect();
            emitted := emitted + [Loading(Some("Confirmando asistencia…"))];
            checkIn := beacon;
          }
        }
      }
    }

    /** `onScanFailed`: reports the error code. */
    method OnScanFailed(errorCode: int)
      requires Valid()
      modifies this
      ensures Valid()
      ensures emitted == old(emitted) + [Error("Scan fallido: " + IntText(errorCode))]
      ensures isScanning == old(isScanning) && detectionCount == old(detectionCount) && scanner == old(scanner)
    {
      emitted := emitted + [Error("Scan fallido: " + IntText(errorCode))];
    }

    /** The check-in coroutine running to its end: its emissions follow
        those of the receiver. */
    method CompleteCheckIn(env: CheckInEnv)
      requires Valid()
      modifies this
      ensures Valid()
      ensures emitted == old(emitted) + CheckIn(horarioActivo, env).emitted
      ensures isScanning == old(isScanning) && detectionCount == old(detectionCount) && scanner == old(scanner)
    {
      emitted := emitted + CheckIn(horarioActivo, env).emitted;
    }
  }

  /** A fresh receiver started with Bluetooth and location on confirms on
      the second counted result and not before: the first returns no
      beacon, the second returns the beacon its record decodes to. */
  method ConfirmsOnSecondDetection(activo: Horario, address: string, rssi: int, first: seq<int8>, second: seq<int8>)
    returns (afterFirst: Option<IBeacon>, afterSecond: Option<IBeacon>, scanning: bool)
    requires Counts(address, rssi, Some(first)) && Counts(address, rssi, Some(second))
    ensures afterFirst == None
    ensures afterSecond == ReceiverParse(second) && afterSecond.Some?
    ensures !scanning
  {
    var receiver := new BeaconReceiver(activo);
    receiver.StartReceiving(true, true);
    afterFirst := receiver.OnScanResult(address, rssi, Some(first));
    afterSecond := receiver.OnScanResult(address, rssi, Some(second));
    scanning := receiver.isScanning;
  }

  /** Starting again resets the count: a confirmation needs two fresh
      counted results after every start, whatever happened before. */
  method RestartNeedsTwoDetections(receiver: BeaconReceiver, address: string, rssi: int, record: seq<int8>)
    returns (afterFirst: Option<IBeacon>)
    requires receiver.Valid()
    requires Counts(address, rssi, Some(record))
    modifies receiver
    ensures afterFirst == None
  {
    receiver.StartReceiving(true, true);
    afterFirst := receiver.OnScanResult(address, rssi, Some(record));
  }

  // ---------------------------------------------------------------------
  // checkInUserWithBeacon
  // ---------------------------------------------------------------------

  /** The outcome of one awaited call: its value, or the exception it threw
      with its (possibly null) localized message. */
  datatype Await<T> = Returned(value: T) | Raised(message: Option<string>)

  /** What the check-in learns from the outside world, one field per await
      (or per value the code takes from the platform):
      - `signedIn`: whether there is a current Firebase user;
      - `usuario`: the `users/<uid>` read, `None` when it does not convert;
      - `uuidText`: the beacon UUID in its textual form;
      - `beaconQuery`: the children of the `beacons` query on `uuid`, each
        `None` when it does not convert to a `Beacon`;
      - `newBeaconKeyHash`: the hash of the pushed key of a new beacon;
      - `lastAsistencia`: the `asistencia_id` of each child of the
        `asistencia` query, `None` when absent; a value that is not a
        number makes `getValue` throw, which reaches the same `catch` as a
        failed query and so is the `Raised` case;
      - `asistenciaKey`: the pushed key of the new attendance;
      - `fecha`, `hora`: the Lima date and time of the check-in;
      - `semana`: the stored weekly counter, `None` when absent;
      - the `...Write` fields: the outcome of each `setValue`. */
  datatype CheckInEnv = CheckInEnv(
    signedIn: bool,
    usuario: Await<Option<Usuario>>,
    uuidText: string,
    beaconQuery: Await<seq<Option<Beacon>>>,
    newBeaconKeyHash: int,
    beaconWrite: Await<()>,
    lastAsistencia: Await<seq<Option<int>>>,
    asistenciaKey: string,
    asistenciaWrite: Await<()>,
    fecha: string,
    hora: string,
    asistenciaUsuarioWrite: Await<()>,
    semana: Await<Option<int>>,
    semanaWrite: Await<()>)

  /** A completed database write of the check-in. */
  datatype CheckInWrite =
    | PutBeacon(beacon: Beacon)
    | PutAsistencia(key: string, asistencia: Asistencia)
    | PutAsistenciaUsuario(usuarioId: int, key: string, registro: AsistenciaUsuario)
    | PutSemana(usuarioId: int, horarioId: int, semana: int)

  datatype CheckInOutcome = CheckInOutcome(emitted: seq<Recurso<AsistenciaUsuario>>, writes: seq<CheckInWrite>)

  const NoSessionMessage := "No session"
  const UsuarioNoEncontrado := "Usuario no encontrado"
  const UnexpectedMessage := "Error inesperado"

  /** The `catch` block: the exception's message, or a fixed text. */
  function Failure(message: Option<string>, writes: seq<CheckInWrite>): CheckInOutcome {
    CheckInOutcome([Error(message.GetOr(UnexpectedMessage))], writes)
  }

  /** The beacon the attendance refers to: the first query result, or a new
      beacon named after the UUID (written first). A first result that does
      not convert fails the `!!` with a message-less exception. */
  function ResolveBeacon(env: CheckInEnv): (Await<Beacon>, seq<CheckInWrite>) {
    match env.beaconQuery
    case Raised(m) => (Raised(m), [])
    case Returned(children) =>
      if |children| > 0 then
        (if children[0].Some? then Returned(children[0].value) else Raised(None), [])
      else
        var nuevo := Beacon(env.newBeaconKeyHash, "Beacon " + env.uuidText, env.uuidText);
        match env.beaconWrite
        case Raised(m) => (Raised(m), [])
        case Returned(_) => (Returned(nuevo), [PutBeacon(nuevo)])
  }

  /** The attendance record the check-in writes. */
  function NewAsistencia(activo: Horario, env: CheckInEnv, beacon: Beacon, ids: seq<Option<int>>): Asistencia {
    Asistencia(Collections.NextId(ids), beacon.beaconsId, env.uuidText, activo.idModalidad,
               activo.idHorario, true, beacon.descripcion, Conexion.ToString(Conexion.Connected))
  }

  /** `checkInUserWithBeacon`: what it emits and which writes complete. */
  function CheckIn(activo: Horario, env: CheckInEnv): CheckInOutcome {
    if !env.signedIn then CheckInOutcome([Error(NoSessionMessage)], [])
    else
      match env.usuario
      case Raised(m) => Failure(m, [])
      case Returned(None) => CheckInOutcome([Error(UsuarioNoEncontrado)], [])
      case Returned(Some(u)) =>
        var (beacon, w0) := ResolveBeacon(env);
        match beacon
        case Raised(m) => Failure(m, w0)
        case Returned(b) =>
          match env.lastAsistencia
          case Raised(m) => Failure(m, w0)
          case Returned(ids) =>
            var a := NewAsistencia(activo, env, b, ids);
            match env.asistenciaWrite
            case Raised(m) => Failure(m, w0)
            case Returned(_) =>
              var w1 := w0 + [PutAsistencia(env.asistenciaKey, a)];
              var registro := AsistenciaUsuario(u, a, env.fecha, env.hora);
              match env.asistenciaUsuarioWrite
              case Raised(m) => Failure(m, w1)
              case Returned(_) =>
                var w2 := w1 + [PutAsistenciaUsuario(u.usuarioId, env.asistenciaKey, registro)];
                match env.semana
                case Raised(m) => Failure(m, w2)
                case Returned(s) =>
                  match env.semanaWrite
                  case Raised(m) => Failure(m, w2)
                  case Returned(_) =>
                    CheckInOutcome([Success(registro), Idle], w2 + [PutSemana(u.usuarioId, activo.idHorario, s.GetOr(0) + 1)])
  }

  /** Every await of the check-in returned, the user converted, and a
      found beacon converted. */
  predicate Completes(env: CheckInEnv) {
    env.signedIn && env.usuario.Returned? && env.usuario.value.Some?
    && env.beaconQuery.Returned?
    && (if |env.beaconQuery.value| > 0 then env.beaconQuery.value[0].Some? else env.beaconWrite.Returned?)
    && env.lastAsistencia.Returned? && env.asistenciaWrite.Returned?
    && env.asistenciaUsuarioWrite.Returned? && env.semana.Returned? && env.semanaWrite.Returned?
  }

  /** A check-in ends in exactly one of two ways: a single error, or the
      registered attendance followed by `Idle`; it succeeds exactly when
      every await completes. */
  lemma CheckInEnds(activo: Horario, env: CheckInEnv)
    ensures var o := CheckIn(activo, env);
            (|o.emitted| == 1 && o.emitted[0].Error?) || (|o.emitted| == 2 && o.emitted[0].Success? && o.emitted[1] == Idle)
    ensures CheckIn(activo, env).emitted[0].Success? <==> Completes(env)
  {
  }

  /** A successful check-in records the attendance the way the code builds
      it: the next attendance id after every stored one (1 when none), the
      beacon found by UUID or else a new one named after it, the active
      slot's modality and id, present and connected; the attendance, the
      user's copy under the same key, and the weekly counter one above the
      stored value (0 when absent), in that order. */
  lemma CheckInRecords(activo: Horario, env: CheckInEnv)
    requires Completes(env)
    ensures var o := CheckIn(activo, env);
            var u := env.usuario.value.value;
            var a := o.emitted[0].data.asistencia;
            var ids := env.lastAsistencia.value;
            && o.emitted[0].data == AsistenciaUsuario(u, a, env.fecha, env.hora)
            && (forall k | 0 <= k < |ids| && ids[k].Some? :: ids[k].value < a.asistenciaId)
            && (Collections.Present(ids) == [] ==> a.asistenciaId == 1)
            && a.beaconUuid == env.uuidText
            && a.modalidadId == activo.idModalidad && a.horarioId == activo.idHorario
            && a.estado && a.conexion == "Connected"
            && o.writes[|o.writes| - 3..] ==
               [PutAsistencia(env.asistenciaKey, a),
                PutAsistenciaUsuario(u.usuarioId, env.asistenciaKey, o.emitted[0].data),
                PutSemana(u.usuarioId, activo.idHorario, env.semana.value.GetOr(0) + 1)]
  {
    var ids := env.lastAsistencia.value;
    var r := Collections.NextId(ids);
    forall k | 0 <= k < |ids| && ids[k].Some? ensures ids[k].value < r {
      assert ids[k] in ids;
    }
    if Collections.Present(ids) == [] {
      forall k | 0 <= k < |ids| ensures ids[k].None? {
        if ids[k].Some? {
          PresentKeeps(ids, k);
        }
      }
    }
  }

  /** Each present id survives `mapNotNull`. */
  lemma {:induction false} PresentKeeps(ids: seq<Option<int>>, k: int)
    requires 0 <= k < |ids| && ids[k].Some?
    ensures ids[k].value in Collections.Present(ids)
  {
    if k > 0 {
      PresentKeeps(ids[1..], k - 1);
      assert ids == [ids[0]] + ids[1..];
    }
  }

  /** A known beacon is reused and nothing is written for it; an unknown
      UUID gets a new beacon, written before the attendance, whose id is
      the hash of its key and whose description names the UUID. */
  lemma CheckInBeacon(activo: Horario, env: CheckInEnv)
    requires Completes(env)
    ensures var o := CheckIn(activo, env);
            var a := o.emitted[0].data.asistencia;
            var children := env.beaconQuery.value;
            && (|children| > 0 ==>
                  a.beaconsId == children[0].value.beaconsId && a.descripcion == children[0].value.descripcion
                  && |o.writes| == 3)
            && (|children| == 0 ==>
                  a.beaconsId == env.newBeaconKeyHash && a.descripcion == "Beacon " + env.uuidText
                  && |o.writes| == 4 && o.writes[0] == PutBeacon(Beacon(a.beaconsId, a.descripcion, env.uuidText)))
  {
  }

  /** Writes happen in order: a user's copy of an attendance is only ever
      written after the attendance itself under the same key, and a failed
      check-in never advances the weekly counter. */
  lemma CheckInWritesInOrder(activo: Horario, env: CheckInEnv)
    ensures var o := CheckIn(activo, env);
            forall i | 0 <= i < |o.writes| && o.writes[i].PutAsistenciaUsuario? ::
              i > 0 && o.writes[i - 1].PutAsistencia? && o.writes[i - 1].key == o.writes[i].key
    ensures var o := CheckIn(activo, env);
            o.emitted[0].Error? ==> forall i | 0 <= i < |o.writes| :: !o.writes[i].PutSemana?
  {
  }
}

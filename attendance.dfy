/** AsistenciaViewModel.kt: the view model that starts the attendance
    receiver and collects what it emits. A `Success` looks up the teacher's
    slot for the current weekday and pedagogical hour, allocates the next
    attendance id and stores the attendance under it.

    The view model is a class whose fields the collector updates. The
    Firebase reads of the success handler are inputs (`Fetch`), and its
    writes are recorded in the field `writes`. */
module Attendance {
  import opened Wrappers
  import opened Models
  import opened BeaconPayload
  import Collections
  import Lobby
  import Receiver

  // ---------------------------------------------------------------------
  // The success handler
  // ---------------------------------------------------------------------

  /** The slots stored under `horario_usuario/<user>`: the `horario` child
      of each assignment that has one (`mapNotNull`), converted. */
  function Slots(nodes: seq<AssignmentNode>): (r: seq<Horario>)
    ensures |r| <= |nodes|
    ensures forall n | n in nodes && n.horario.Some? :: ToHorario(n.horario.value) in r
    ensures forall h | h in r :: exists n | n in nodes && n.horario.Some? :: h == ToHorario(n.horario.value)
  {
    if nodes == [] then []
    else
      var rest := Slots(nodes[1..]);
      assert forall n | n in nodes[1..] :: n in nodes;
      assert forall n | n in nodes :: n == nodes[0] || n in nodes[1..];
      if nodes[0].horario.Some? then [ToHorario(nodes[0].horario.value)] + rest else rest
  }

  /** `mapNotNull` keeps the assignment order: the slots of two runs of
      assignments are the slots of the first run, then those of the second. */
  lemma {:induction false} SlotsConcat(a: seq<AssignmentNode>, b: seq<AssignmentNode>)
    ensures Slots(a + b) == Slots(a) + Slots(b)
  {
    if a != [] {
      assert (a + b)[1..] == a[1..] + b;
      SlotsConcat(a[1..], b);
    } else {
      assert a + b == b;
    }
  }

  /** Each assignment contributes its own converted slot, or nothing. */
  lemma SlotsOne(n: AssignmentNode)
    ensures Slots([n]) == if n.horario.Some? then [ToHorario(n.horario.value)] else []
  {
    assert [n][1..] == [];
  }

  /** The slot being taught on day `dia` at block `hora`. */
  predicate Matches(h: Horario, dia: string, hora: int) {
    h.dia == dia && hora in h.horas
  }

  /** `firstOrNull { it.dia == dia && it.horas.contains(hora) }`. */
  function SlotActual(hs: seq<Horario>, dia: string, hora: int): Option<Horario> {
    if hs == [] then None
    else if Matches(hs[0], dia, hora) then Some(hs[0])
    else SlotActual(hs[1..], dia, hora)
  }

  /** The lookup returns the first matching slot, and nothing only when no
      slot matches. */
  lemma {:induction false} SlotActualMeans(hs: seq<Horario>, dia: string, hora: int)
    ensures SlotActual(hs, dia, hora).None? <==> forall k | 0 <= k < |hs| :: !Matches(hs[k], dia, hora)
    ensures SlotActual(hs, dia, hora).Some? ==>
              exists k | 0 <= k < |hs| :: hs[k] == SlotActual(hs, dia, hora).value && Matches(hs[k], dia, hora)
                                          && forall m | 0 <= m < k :: !Matches(hs[m], dia, hora)
  {
    if hs != [] && !Matches(hs[0], dia, hora) {
      SlotActualMeans(hs[1..], dia, hora);
      if SlotActual(hs, dia, hora).Some? {
        var k :| 0 <= k < |hs[1..]| && hs[1..][k] == SlotActual(hs, dia, hora).value && Matches(hs[1..][k], dia, hora)
                 && forall m | 0 <= m < k :: !Matches(hs[1..][m], dia, hora);
        assert hs[k + 1] == hs[1..][k];
        assert forall m | 1 <= m < k + 1 :: hs[m] == hs[1..][m - 1];
      } else {
        assert forall k | 1 <= k < |hs| :: hs[k] == hs[1..][k - 1];
      }
    } else if hs != [] {
      assert hs[0] == SlotActual(hs, dia, hora).value;
    }
  }

  /** Assignment `k` holds a slot that matches, and no earlier assignment
      holds one that does. */
  predicate FirstMatchingAssignment(nodes: seq<AssignmentNode>, dia: string, hora: int, k: int) {
    && 0 <= k < |nodes| && nodes[k].horario.Some?
    && Matches(ToHorario(nodes[k].horario.value), dia, hora)
    && forall m | 0 <= m < k && nodes[m].horario.Some? :: !Matches(ToHorario(nodes[m].horario.value), dia, hora)
  }

  /** The current slot is that of the first assignment, in stored order,
      whose slot matches; none exactly when no assignment's slot matches. */
  lemma {:induction false} SlotActualFirstAssignment(nodes: seq<AssignmentNode>, dia: string, hora: int)
    ensures SlotActual(Slots(nodes), dia, hora).None? <==>
              forall k | 0 <= k < |nodes| && nodes[k].horario.Some? :: !Matches(ToHorario(nodes[k].horario.value), dia, hora)
    ensures SlotActual(Slots(nodes), dia, hora).Some? ==>
              exists k :: FirstMatchingAssignment(nodes, dia, hora, k)
                          && SlotActual(Slots(nodes), dia, hora).value == ToHorario(nodes[k].horario.value)
  {
    if nodes != [] {
      var rest := Slots(nodes[1..]);
      SlotActualFirstAssignment(nodes[1..], dia, hora);
      var head := nodes[0];
      if head.horario.Some? && Matches(ToHorario(head.horario.value), dia, hora) {
        assert Slots(nodes)[0] == ToHorario(head.horario.value);
        assert FirstMatchingAssignment(nodes, dia, hora, 0);
      } else {
        SlotActualSkipsHead(nodes, dia, hora);
        if SlotActual(rest, dia, hora).Some? {
          var k :| FirstMatchingAssignment(nodes[1..], dia, hora, k)
                   && SlotActual(rest, dia, hora).value == ToHorario(nodes[1..][k].horario.value);
          assert FirstMatchingAssignment(nodes, dia, hora, k + 1) by {
            forall m | 1 <= m < k + 1 ensures nodes[m] == nodes[1..][m - 1] {}
          }
        } else {
          forall k | 0 <= k < |nodes| && nodes[k].horario.Some?
            ensures !Matches(ToHorario(nodes[k].horario.value), dia, hora)
          {
            if k > 0 { assert nodes[k] == nodes[1..][k - 1]; }
          }
        }
      }
    }
  }

  /** An assignment without a matching slot does not affect the lookup. */
  lemma SlotActualSkipsHead(nodes: seq<AssignmentNode>, dia: string, hora: int)
    requires nodes != [] && !(nodes[0].horario.Some? && Matches(ToHorario(nodes[0].horario.value), dia, hora))
    ensures SlotActual(Slots(nodes), dia, hora) == SlotActual(Slots(nodes[1..]), dia, hora)
  {
    if nodes[0].horario.Some? {
      assert Slots(nodes)[1..] == Slots(nodes[1..]);
    }
  }

  const Registrada := "Asistencia registrada correctamente"
  const FueraDeHorario := "DEBUG: Asistencia fuera de horario"

  /** The attendance stored for a received one: the new id, the received
      beacon and connection, and the matched slot's modality and id with the
      success text, or zeros with the out-of-schedule text. */
  function BuildAsistencia(nuevoId: int, recibida: Asistencia, slot: Option<Horario>): (a: Asistencia)
    ensures a.asistenciaId == nuevoId && a.estado
    ensures a.beaconsId == recibida.beaconsId && a.beaconUuid == recibida.beaconUuid && a.conexion == recibida.conexion
    ensures slot.Some? ==>
              a.modalidadId == slot.value.idModalidad && a.horarioId == slot.value.idHorario && a.descripcion == Registrada
    ensures slot.None? ==> a.modalidadId == 0 && a.horarioId == 0 && a.descripcion == FueraDeHorario
  {
    match slot
    case Some(h) =>
      Asistencia(nuevoId, recibida.beaconsId, recibida.beaconUuid, h.idModalidad, h.idHorario, true, Registrada, recibida.conexion)
    case None =>
      Asistencia(nuevoId, recibida.beaconsId, recibida.beaconUuid, 0, 0, true, FueraDeHorario, recibida.conexion)
  }

  /** `obtenerNuevoIdAsistencia`: one past the largest nested
      `asistencia/asistencia_id` (1 when there is none), or null when the
      read fails. */
  function NuevoIdAsistencia(ids: Fetch<seq<Option<int>>>): (r: Option<int>)
    ensures ids.FetchFailed? <==> r.None?
    ensures ids.Fetched? ==> forall v | Some(v) in ids.snapshot :: v < r.value
    ensures ids.Fetched? && (forall k | 0 <= k < |ids.snapshot| :: ids.snapshot[k].None?) ==> r == Some(1)
    ensures ids.Fetched? && (exists v :: Some(v) in ids.snapshot) ==> Some(r.value - 1) in ids.snapshot
  {
    match ids
    case FetchFailed => None
    case Fetched(snapshot) => Some(Collections.NextId(snapshot))
  }

  /** A write of the success handler: the same record under
      `asistencia_usuario/<user>/<id>` and under `asistencia/<id>`. */
  datatype VmWrite =
    | SetAsistenciaUsuario(usuarioId: int, id: int, registro: AsistenciaUsuario)
    | SetAsistencia(id: int, registro: AsistenciaUsuario)

  /** What the success handler reads: the current weekday and hour of day,
      the teacher's assignments, the stored attendance ids, and the
      formatted date and time. */
  datatype SuccessInputs = SuccessInputs(
    weekday: int,
    hourOfDay: int,
    horarios: Fetch<seq<AssignmentNode>>,
    ids: Fetch<seq<Option<int>>>,
    fecha: string,
    horaTexto: string)

  /** What the success handler does: a pop-up, or the two writes and the
      record it publishes. */
  datatype SuccessOutcome = SuccessOutcome(popup: Option<string>, writes: seq<VmWrite>, registro: Option<AsistenciaUsuario>)

  const ErrorHorario := "⚠️ Error al verificar horario."
  const ErrorId := "⚠️ No se pudo generar ID de asistencia."

  /** The `is Recurso.Success` branch after the receiver has been
      disconnected. */
  function RegistrarExito(usuario: Usuario, recibida: AsistenciaUsuario, inputs: SuccessInputs): SuccessOutcome {
    match inputs.horarios
    case FetchFailed => SuccessOutcome(Some(ErrorHorario), [], None)
    case Fetched(nodes) =>
      var slot := SlotActual(Slots(nodes), Lobby.DiaNombre(inputs.weekday), Lobby.HoraPedagogica(inputs.hourOfDay));
      match NuevoIdAsistencia(inputs.ids)
      case None => SuccessOutcome(Some(ErrorId), [], None)
      case Some(nuevoId) =>
        var registro := AsistenciaUsuario(usuario, BuildAsistencia(nuevoId, recibida.asistencia, slot), inputs.fecha, inputs.horaTexto);
        SuccessOutcome(None, [SetAsistenciaUsuario(usuario.usuarioId, nuevoId, registro), SetAsistencia(nuevoId, registro)], Some(registro))
  }

  /** A failed read writes nothing; otherwise the record is written twice
      under a fresh id, for the signed-in user, with the slot taught now
      (if any) and the received beacon. */
  lemma RegistrarExitoMeans(usuario: Usuario, recibida: AsistenciaUsuario, inputs: SuccessInputs)
    ensures var o := RegistrarExito(usuario, recibida, inputs);
            (inputs.horarios.FetchFailed? || inputs.ids.FetchFailed?) <==> (o.writes == [] && o.popup.Some? && o.registro.None?)
    ensures var o := RegistrarExito(usuario, recibida, inputs);
            o.registro.Some? ==>
              var r := o.registro.value;
              var slot := SlotActual(Slots(inputs.horarios.snapshot), Lobby.DiaNombre(inputs.weekday), Lobby.HoraPedagogica(inputs.hourOfDay));
              && r.usuario == usuario && r.fechaRegistro == inputs.fecha && r.horaRegistro == inputs.horaTexto
              && (forall v | Some(v) in inputs.ids.snapshot :: v < r.asistencia.asistenciaId)
              && r.asistencia.beaconsId == recibida.asistencia.beaconsId
              && (slot.Some? <==> r.asistencia.descripcion == Registrada)
              && (slot.Some? ==> r.asistencia.horarioId == slot.value.idHorario)
              && o.writes == [SetAsistenciaUsuario(usuario.usuarioId, r.asistencia.asistenciaId, r),
                              SetAsistencia(r.asistencia.asistenciaId, r)]
  {
  }

  // ---------------------------------------------------------------------
  // The collector and its guard
  // ---------------------------------------------------------------------

  /** A resource after which the collector stops handling: the end of an
      attempt, successful or not. */
  predicate Terminal(r: Recurso<AsistenciaUsuario>) {
    r.Success? || r.Error?
  }

  predicate AnyTerminal(rs: seq<Recurso<AsistenciaUsuario>>) {
    exists i | 0 <= i < |rs| :: Terminal(rs[i])
  }

  /** The resources the collector handles, with the guard set only by a
      terminal resource: every resource up to and including the first
      terminal one. */
  function Dispatched(rs: seq<Recurso<AsistenciaUsuario>>): seq<Recurso<AsistenciaUsuario>> {
    if rs == [] then []
    else
      var init := rs[..|rs| - 1];
      if AnyTerminal(init) then Dispatched(init) else Dispatched(init) + [rs[|rs| - 1]]
  }

  /** The resources handled as written: `yaRegistrado` is set by the first
      resource, whatever it is, so only that one is handled. */
  function DispatchedAsWritten(rs: seq<Recurso<AsistenciaUsuario>>): seq<Recurso<AsistenciaUsuario>> {
    if rs == [] then [] else rs[..1]
  }

  /** The corrected guard handles a prefix of the resources: everything
      before the first terminal resource, then that resource, and nothing
      after it. */
  lemma {:induction false} DispatchedMeans(rs: seq<Recurso<AsistenciaUsuario>>)
    ensures |Dispatched(rs)| <= |rs| && Dispatched(rs) == rs[..|Dispatched(rs)|]
    ensures rs != [] ==> Dispatched(rs) != []
    ensures forall i | 0 <= i < |Dispatched(rs)| - 1 :: !Terminal(rs[i])
    ensures AnyTerminal(rs) ==> Terminal(rs[|Dispatched(rs)| - 1])
    ensures !AnyTerminal(rs) ==> Dispatched(rs) == rs
  {
    if rs != [] {
      var init := rs[..|rs| - 1];
      DispatchedMeans(init);
      assert forall i | 0 <= i < |init| :: init[i] == rs[i];
      if AnyTerminal(init) {
        var i :| 0 <= i < |init| && Terminal(init[i]);
        assert Terminal(rs[i]);
        assert Dispatched(rs) == Dispatched(init);
        assert init[..|Dispatched(init)|] == rs[..|Dispatched(init)|];
      } else {
        assert Dispatched(init) == init;
        assert Dispatched(rs) == rs;
        forall i | 0 <= i < |rs| - 1 ensures !Terminal(rs[i]) {
          assert rs[i] == init[i];
        }
      }
    }
  }

  /** The corrected guard stops right after the first terminal resource. */
  lemma DispatchedUpToFirstTerminal(rs: seq<Recurso<AsistenciaUsuario>>, t: int)
    requires 0 <= t < |rs| && Terminal(rs[t]) && forall i | 0 <= i < t :: !Terminal(rs[i])
    ensures Dispatched(rs) == rs[..t + 1]
  {
    DispatchedMeans(rs);
    assert AnyTerminal(rs);
    var n := |Dispatched(rs)|;
    assert Terminal(rs[n - 1]);
    assert n - 1 == t;
  }

  /** As written, a `Loading` in front of the outcome hides it: the
      `Success` is never handled; with the corrected guard it is. */
  lemma LoadingHidesOutcome(rs: seq<Recurso<AsistenciaUsuario>>)
    requires |rs| >= 2 && rs[0].Loading? && rs[1].Success?
    ensures forall i | 0 <= i < |DispatchedAsWritten(rs)| :: !DispatchedAsWritten(rs)[i].Success?
    ensures Dispatched(rs) == rs[..2] && rs[1] in Dispatched(rs)
  {
    DispatchedUpToFirstTerminal(rs, 1);
  }

  /** The receiver always announces its scan before anything else: after a
      successful start, two counted results and a completed check-in, the
      receiver has emitted two `Loading`s, the registered attendance and
      `Idle`. */
  method ConfirmedSession(activo: Horario, address: string, rssi: int, first: seq<int8>, second: seq<int8>, env: Receiver.CheckInEnv)
    returns (emitted: seq<Recurso<AsistenciaUsuario>>)
    requires Receiver.Counts(address, rssi, Some(first)) && Receiver.Counts(address, rssi, Some(second))
    requires Receiver.Completes(env)
    ensures |emitted| == 4 && emitted[0].Loading? && emitted[1].Loading? && emitted[2].Success? && emitted[3] == Idle
  {
    var receptor := new Receiver.BeaconReceiver(activo);
    receptor.StartReceiving(true, true);
    var uno := receptor.OnScanResult(address, rssi, Some(first));
    var dos := receptor.OnScanResult(address, rssi, Some(second));
    Receiver.CheckInEnds(activo, env);
    receptor.CompleteCheckIn(env);
    emitted := receptor.emitted;
  }

  /** So, as written, the view model never registers an attendance the
      receiver confirms: of such a session it handles only the first
      `Loading`. With the corrected guard it handles the `Success`. */
  lemma ConfirmedSessionLost(emitted: seq<Recurso<AsistenciaUsuario>>)
    requires |emitted| == 4 && emitted[0].Loading? && emitted[1].Loading? && emitted[2].Success? && emitted[3] == Idle
    ensures DispatchedAsWritten(emitted) == [emitted[0]]
    ensures emitted[2] in Dispatched(emitted)
  {
    DispatchedUpToFirstTerminal(emitted, 2);
  }


  /** The view model's state. */
  class AsistenciaViewModel {
    const usuario: Usuario
    var inProgress: bool
    var popup: Option<string>
    var ultimaAsistencia: Option<AsistenciaUsuario>
    var estadoRegistro: Recurso<AsistenciaUsuario>
    var yaRegistrado: bool
    var disconnects: nat
    var writes: seq<VmWrite>
    ghost var handled: seq<Recurso<AsistenciaUsuario>>

    constructor(usuario: Usuario)
      ensures this.usuario == usuario && !inProgress && popup.None? && ultimaAsistencia.None?
      ensures estadoRegistro == Idle && !yaRegistrado && disconnects == 0 && writes == [] && handled == []
    {
      this.usuario := usuario;
      inProgress := false;
      popup := None;
      ultimaAsistencia := None;
      estadoRegistro := Idle;
      yaRegistrado := false;
      disconnects := 0;
      writes := [];
      handled := [];
    }

    /** `registrarAsistencia` before the first resource: the guard starts
        open (the receiver's `startReceiving` is modelled in `Receiver`). */
    method RegistrarAsistencia()
      modifies this
      ensures !yaRegistrado && handled == []
      ensures inProgress == old(inProgress) && popup == old(popup) && ultimaAsistencia == old(ultimaAsistencia)
      ensures estadoRegistro == old(estadoRegistro) && disconnects == old(disconnects) && writes == old(writes)
    {
      yaRegistrado := false;
      handled := [];
    }

    /** One collected resource, with the corrected guard: once a terminal
        resource has been handled, nothing more is. `Loading` marks the
        view model busy; `Error` clears it, shows the message and
        disconnects; `Success` clears it, disconnects and registers the
        attendance; `Idle` clears it. */
    method Collect(recurso: Recurso<AsistenciaUsuario>, inputs: SuccessInputs)
      modifies this
      ensures old(yaRegistrado) ==> unchanged(this)
      ensures !old(yaRegistrado) ==>
                yaRegistrado == Terminal(recurso) && handled == old(handled) + [recurso]
                && inProgress == recurso.Loading?
                && disconnects == old(disconnects) + (if Terminal(recurso) then 1 else 0)
      ensures !old(yaRegistrado) && recurso.Error? ==>
                popup == Some("Error: " + recurso.errorMessage) && writes == old(writes)
                && ultimaAsistencia == old(ultimaAsistencia) && estadoRegistro == old(estadoRegistro)
      ensures !old(yaRegistrado) && recurso.Success? ==>
                var o := RegistrarExito(usuario, recurso.data, inputs);
                && writes == old(writes) + o.writes
                && popup == (if o.popup.Some? then o.popup else old(popup))
                && ultimaAsistencia == (if o.registro.Some? then o.registro else old(ultimaAsistencia))
                && estadoRegistro == (if o.registro.Some? then Success(o.registro.value) else old(estadoRegistro))
      ensures !old(yaRegistrado) && (recurso.Loading? || recurso.Idle?) ==>
                popup == old(popup) && writes == old(writes)
                && ultimaAsistencia == old(ultimaAsistencia) && estadoRegistro == old(estadoRegistro)
    {
      if yaRegistrado {
        return;
      }
      yaRegistrado := Terminal(recurso);
      handled := handled + [recurso];
      match recurso {
        case Loading(_) =>
          inProgress := true;
        case Error(mensaje) =>
          inProgress := false;
          popup := Some("Error: " + mensaje);
          disconnects := disconnects + 1;
        case Success(data) =>
          inProgress := false;
          disconnects := disconnects + 1;
          var o := RegistrarExito(usuario, data, inputs);
          if o.popup.Some? {
            popup := o.popup;
          }
          writes := writes + o.writes;
          if o.registro.Some? {
            ultimaAsistencia := o.registro;
            estadoRegistro := Success(o.registro.value);
          }
        case Idle =>
          inProgress := false;
      }
    }
  }

  /** Collecting a whole stream of resources handles exactly the corrected
      prefix, and the view model ends busy only when that prefix ends in a
      `Loading`. */
  method CollectStream(usuario: Usuario, rs: seq<Recurso<AsistenciaUsuario>>, inputs: SuccessInputs)
    returns (ghost handled: seq<Recurso<AsistenciaUsuario>>, registrado: bool, busy: bool)
    ensures handled == Dispatched(rs)
    ensures registrado <==> AnyTerminal(rs)
    ensures busy <==> handled != [] && handled[|handled| - 1].Loading?
  {
    var vm := new AsistenciaViewModel(usuario);
    vm.RegistrarAsistencia();
    handled := [];
    for k := 0 to |rs|
      invariant vm.handled == handled == Dispatched(rs[..k])
      invariant vm.yaRegistrado <==> AnyTerminal(rs[..k])
      invariant vm.inProgress <==> handled != [] && handled[|handled| - 1].Loading?
    {
      assert rs[..k + 1][..k] == rs[..k];
      assert AnyTerminal(rs[..k + 1]) <==> AnyTerminal(rs[..k]) || Terminal(rs[k]) by {
        assert forall i | 0 <= i < k :: rs[..k + 1][i] == rs[..k][i];
        if AnyTerminal(rs[..k + 1]) {
          var i :| 0 <= i < k + 1 && Terminal(rs[..k + 1][i]);
          if i < k {
            assert Terminal(rs[..k][i]);
          }
        }
        if Terminal(rs[k]) {
          assert Terminal(rs[..k + 1][k]);
        }
      }
      vm.Collect(rs[k], inputs);
      handled := vm.handled;
    }
    assert rs[..|rs|] == rs;
    registrado := vm.yaRegistrado;
    busy := vm.inProgress;
  }
}

/** The records the application stores in its Realtime Database
    (models/Horario.kt, models/Curso.kt, models/HorarioUsuario.kt,
    models/Usuario.kt, models/Asistencia.kt, models/AsistenciaUsuario.kt,
    util/Recurso.kt), and the shapes in which database snapshots reach the
    model. Kotlin `Int`/`Long` fields become unbounded `int`. */
module Models {
  import opened Wrappers

  /** A schedule slot: course, modality (1 virtual, 2 in person), weekday
      label, pedagogical hour blocks, classroom and section number. */
  datatype Horario = Horario(
    idHorario: int,
    idCurso: int,
    idModalidad: int,
    dia: string,
    horas: seq<int>,
    aula: string,
    grupo: int)

  datatype Curso = Curso(
    idCurso: int,
    nombre: string,
    ciclo: int,
    creditaje: int,
    grupos: int,
    codigo: string)

  datatype Usuario = Usuario(
    usuarioId: int,
    uTipo: string,
    uNombres: string,
    uApellidos: string,
    cu: string,
    uContrasena: string,
    uNroTelefonico: string,
    notificacion: bool)

  /** A slot assigned to a teacher, with the academic term and the weekly
      check-in counter. */
  datatype HorarioUsuario = HorarioUsuario(
    horario: Horario,
    periodo: string,
    semana: int,
    usuario: Usuario)

  /** An attendance record, with the fields the check-in code fills
      (`beaconUuid` and `conexion` included). */
  datatype Asistencia = Asistencia(
    asistenciaId: int,
    beaconsId: int,
    beaconUuid: string,
    modalidadId: int,
    horarioId: int,
    estado: bool,
    descripcion: string,
    conexion: string)

  datatype AsistenciaUsuario = AsistenciaUsuario(
    usuario: Usuario,
    asistencia: Asistencia,
    fechaRegistro: string,
    horaRegistro: string)

  /** A beacon known to the database. */
  datatype Beacon = Beacon(beaconsId: int, descripcion: string, uuid: string)

  /** The sealed class `Recurso`: what the attendance receiver emits. */
  datatype Recurso<T> =
    | Success(data: T)
    | Error(errorMessage: string)
    | Loading(message: Option<string>)
    | Idle

  /** The six weekday labels a slot may carry. */
  const Dias: seq<string> := ["Lunes", "Martes", "Miércoles", "Jueves", "Viernes", "Sábado"]

  /** A child of `horario` (or the `horario` child of an assignment) as the
      code reads it field by field: an absent field is `None`;
      hour values that are not numbers are already dropped. */
  datatype SlotNode = SlotNode(
    idHorario: Option<int>,
    idCurso: Option<int>,
    idModalidad: Option<int>,
    dia: Option<string>,
    horas: seq<int>,
    aula: Option<string>,
    grupo: Option<int>)

  /** `getValue(Horario::class.java)`: absent fields take the defaults of
      the data class. */
  function ToHorario(n: SlotNode): (h: Horario)
    ensures n.idHorario.Some? ==> h.idHorario == n.idHorario.value
    ensures n.idHorario.None? ==> h.idHorario == 0
    ensures n.idCurso.Some? ==> h.idCurso == n.idCurso.value
    ensures n.idCurso.None? ==> h.idCurso == 0
    ensures n.idModalidad.Some? ==> h.idModalidad == n.idModalidad.value
    ensures n.idModalidad.None? ==> h.idModalidad == 0
    ensures n.dia.Some? ==> h.dia == n.dia.value
    ensures n.dia.None? ==> h.dia == ""
    ensures h.horas == n.horas
    ensures n.aula.Some? ==> h.aula == n.aula.value
    ensures n.aula.None? ==> h.aula == ""
    ensures n.grupo.Some? ==> h.grupo == n.grupo.value
    ensures n.grupo.None? ==> h.grupo == 0
  {
    Horario(n.idHorario.GetOr(0), n.idCurso.GetOr(0), n.idModalidad.GetOr(0),
            n.dia.GetOr(""), n.horas, n.aula.GetOr(""), n.grupo.GetOr(0))
  }

  /** A child of `horario_usuario/<user>`: its `horario` child, if any. */
  datatype AssignmentNode = AssignmentNode(horario: Option<SlotNode>)

  /** A child of `curso`: its key and each field as stored (`None` when
      the child is absent). */
  datatype CourseNode = CourseNode(
    key: string,
    idCurso: Option<int>,
    nombre: Option<string>,
    ciclo: Option<int>,
    creditaje: Option<int>,
    grupos: Option<int>,
    codigo: Option<string>)

  /** `getValue(Curso::class.java)`: absent fields take the defaults of
      the data class. */
  function ToCurso(n: CourseNode): (c: Curso)
    ensures n.idCurso.Some? ==> c.idCurso == n.idCurso.value
    ensures n.idCurso.None? ==> c.idCurso == 0
    ensures n.ciclo.Some? ==> c.ciclo == n.ciclo.value
    ensures n.ciclo.None? ==> c.ciclo == 0
    ensures n.grupos.Some? ==> c.grupos == n.grupos.value
    ensures n.grupos.None? ==> c.grupos == 0
  {
    Curso(n.idCurso.GetOr(0), n.nombre.GetOr(""), n.ciclo.GetOr(0),
          n.creditaje.GetOr(0), n.grupos.GetOr(0), n.codigo.GetOr(""))
  }

  /** `existing.any { candidate.contains(it) }`: the two hour lists share
      at least one hour. */
  predicate SharesHour(existing: seq<int>, candidate: seq<int>) {
    exists h | h in existing :: h in candidate
  }

  /** The outcome of one database read: the snapshot, or the failure
      listener firing. */
  datatype Fetch<T> = Fetched(snapshot: T) | FetchFailed
}

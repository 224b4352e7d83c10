/** The schedule logic of FbViewModel.kt: the conflict check and the
    multi-path write of `guardarHorarioCompleto`, the free day/hour grid of
    `obtenerDiasYHorasDisponibles` and the course list of
    `obtenerCursosDisponiblesFiltrados`. Every database read is an input
    `Fetch`; the callback chain is one function. */
module Horarios {
  import opened Wrappers
  import opened Models
  import opened Collections

  // ---------------------------------------------------------------------
  // Reading a teacher's assignments (children of horario_usuario/<user>)
  // ---------------------------------------------------------------------

  /** `child("horario/dia").getValue(String::class.java)`. */
  function AssignmentDia(a: AssignmentNode): Option<string> {
    if a.horario.Some? then a.horario.value.dia else None
  }

  /** `child("horario/horas")`, numbers only. */
  function AssignmentHoras(a: AssignmentNode): seq<int> {
    if a.horario.Some? then a.horario.value.horas else []
  }

  /** `child("horario/id_curso").getValue(Int::class.java)`. */
  function AssignmentCurso(a: AssignmentNode): Option<int> {
    if a.horario.Some? then a.horario.value.idCurso else None
  }

  // ---------------------------------------------------------------------
  // guardarHorarioCompleto: the conflict checks
  // ---------------------------------------------------------------------

  /** An existing slot of the teacher double-books the candidate: same day
      (an absent day reads as "") and at least one shared hour. */
  predicate TeacherClash(a: AssignmentNode, h: Horario) {
    AssignmentDia(a).GetOr("") == h.dia && SharesHour(AssignmentHoras(a), h.horas)
  }

  predicate TeacherConflict(asignaciones: seq<AssignmentNode>, h: Horario) {
    exists i | 0 <= i < |asignaciones| :: TeacherClash(asignaciones[i], h)
  }

  /** The scan over the teacher's slots with a flag and `break`. */
  method FindTeacherConflict(asignaciones: seq<AssignmentNode>, h: Horario) returns (conflicto: bool)
    ensures conflicto <==> exists i | 0 <= i < |asignaciones| ::
              AssignmentDia(asignaciones[i]).GetOr("") == h.dia
              && SharesHour(AssignmentHoras(asignaciones[i]), h.horas)
  {
    conflicto := false;
    var i := 0;
    while i < |asignaciones|
      invariant 0 <= i <= |asignaciones|
      invariant forall k | 0 <= k < i :: !TeacherClash(asignaciones[k], h)
    {
      var diaExistente := AssignmentDia(asignaciones[i]).GetOr("");
      if diaExistente == h.dia {
        var horasExistentes := AssignmentHoras(asignaciones[i]);
        if exists x | x in horasExistentes :: x in h.horas {
          conflicto := true;
          assert TeacherClash(asignaciones[i], h);
          return;
        }
      }
      i := i + 1;
    }
  }

  /** A slot of the global table puts course `c` in conflict with the
      candidate: same day, a shared hour, and a course other than the
      candidate's own (sections of one course may overlap). */
  predicate CourseClash(n: SlotNode, h: Horario, c: int) {
    n.dia == Some(h.dia) && SharesHour(n.horas, h.horas) && n.idCurso == Some(c) && c != h.idCurso
  }

  predicate InConflict(slots: seq<SlotNode>, h: Horario, c: int) {
    exists i | 0 <= i < |slots| :: CourseClash(slots[i], h, c)
  }

  predicate AnyCourseClash(slots: seq<SlotNode>, h: Horario) {
    exists i | 0 <= i < |slots| :: slots[i].idCurso.Some? && CourseClash(slots[i], h, slots[i].idCurso.value)
  }

  /** The loop that fills `cursosConflicto`. */
  method CollectConflictingCourses(slots: seq<SlotNode>, h: Horario) returns (cursosConflicto: set<int>)
    ensures forall c :: c in cursosConflicto <==> InConflict(slots, h, c)
    ensures cursosConflicto == {} <==> !AnyCourseClash(slots, h)
  {
    cursosConflicto := {};
    ghost var ultimo := 0;
    var i := 0;
    while i < |slots|
      invariant 0 <= i <= |slots|
      invariant forall c :: c in cursosConflicto <==> exists k | 0 <= k < i :: CourseClash(slots[k], h, c)
      invariant cursosConflicto != {} ==>
                  0 <= ultimo < i && slots[ultimo].idCurso.Some?
                  && CourseClash(slots[ultimo], h, slots[ultimo].idCurso.value)
    {
      var n := slots[i];
      if n.dia.Some? && n.dia.value == h.dia
         && (exists x | x in n.horas :: x in h.horas)
         && n.idCurso.Some? && n.idCurso.value != h.idCurso
      {
        cursosConflicto := cursosConflicto + {n.idCurso.value};
        ultimo := i;
      }
      i := i + 1;
    }
    if cursosConflicto == {} {
      forall k | 0 <= k < |slots| && slots[k].idCurso.Some?
        ensures !CourseClash(slots[k], h, slots[k].idCurso.value)
      {
        assert slots[k].idCurso.value !in cursosConflicto;
      }
    } else {
      assert 0 <= ultimo < |slots|;
    }
  }

  /** `cursosSnap.children.any { … }`: a course node whose id is in the
      conflict set has the candidate course's cycle. */
  predicate CycleClash(slots: seq<SlotNode>, courses: seq<CourseNode>, h: Horario, ciclo: int) {
    exists j | 0 <= j < |courses| ::
      courses[j].idCurso.Some? && courses[j].ciclo == Some(ciclo)
      && InConflict(slots, h, courses[j].idCurso.value)
  }

  // ---------------------------------------------------------------------
  // guardarHorarioCompleto: the outcome
  // ---------------------------------------------------------------------

  const CruceMessage := "Existe cruce con otro curso del mismo ciclo o en el horario del docente"
  const Periodo := "2025-1"

  /** One path of the multi-path `updateChildren` call. */
  datatype Write =
    | PutHorario(idHorario: int, horario: Horario)                          // horario/<id>
    | PutAsignacion(idUsuario: int, idHorario: int, asignacion: HorarioUsuario) // horario_usuario/<user>/<id>
    | PutGrupos(cursoKey: string, grupos: int)                              // curso/<key>/grupos

  /** What `onResult` receives, and what the database applied. */
  datatype SaveOutcome = SaveOutcome(success: bool, message: string, writes: seq<Write>)

  /** The reads `guardarHorarioCompleto` makes, in order. */
  datatype SaveReads = SaveReads(
    curso: Fetch<seq<CourseNode>>,         // curso where id_curso == the slot's course
    docente: Fetch<seq<AssignmentNode>>,   // horario_usuario/<user>
    horarios: Fetch<seq<SlotNode>>,        // horario
    cursos: Fetch<seq<CourseNode>>,        // curso (read only when some course clashes)
    ultimoHorario: Fetch<seq<SlotNode>>,   // horario ordered by id_horario, last one
    usuario: Fetch<seq<Option<Usuario>>>,  // users where usuario_id == the user, first one
    commitSucceeds: bool)                  // updateChildren completes successfully

  function Rejected(message: string): SaveOutcome {
    SaveOutcome(false, message, [])
  }

  function IdsHorario(nodes: seq<SlotNode>): (ids: seq<Option<int>>)
    ensures |ids| == |nodes|
    ensures forall i | 0 <= i < |nodes| :: ids[i] == nodes[i].idHorario
  {
    if nodes == [] then [] else [nodes[0].idHorario] + IdsHorario(nodes[1..])
  }

  /** The slot as stored: next sequential id and the next section number. */
  function SlotToStore(h: Horario, ultimo: seq<SlotNode>, curso: Curso): Horario {
    h.(idHorario := NextId(IdsHorario(ultimo)), grupo := curso.grupos + 1)
  }

  /** `guardarNuevoHorario`. */
  function Store(idUsuario: int, h: Horario, curso: Curso, cursoKey: string, r: SaveReads): SaveOutcome {
    match r.ultimoHorario
    case FetchFailed => Rejected("Error al generar nuevo id_horario")
    case Fetched(ultimo) =>
      var nuevo := SlotToStore(h, ultimo, curso);
      match r.usuario
      case FetchFailed => Rejected("Error al recuperar datos del usuario")
      case Fetched(users) =>
        if users == [] then Rejected("Usuario no encontrado")
        else if users[0].None? then Rejected("Error al convertir usuario")
        else
          var asignacion := HorarioUsuario(nuevo, Periodo, 0, users[0].value);
          if r.commitSucceeds then
            SaveOutcome(true, "Horario guardado",
              [PutHorario(nuevo.idHorario, nuevo),
               PutAsignacion(idUsuario, nuevo.idHorario, asignacion),
               PutGrupos(cursoKey, curso.grupos + 1)])
          else Rejected("Error al guardar")
  }

  /** `guardarHorarioCompleto` flattened into one function of its reads. */
  function Save(idUsuario: int, h: Horario, r: SaveReads): SaveOutcome {
    match r.curso
    case FetchFailed => Rejected("Error al obtener curso")
    case Fetched(found) =>
      if found == [] then Rejected("Curso no encontrado")
      else
        var cursoSel := ToCurso(found[0]);
        match r.docente
        case FetchFailed => Rejected("Error al verificar horario del docente")
        case Fetched(asignaciones) =>
          if TeacherConflict(asignaciones, h) then Rejected(CruceMessage)
          else
            match r.horarios
            case FetchFailed => Rejected("Error al verificar horarios globales")
            case Fetched(slots) =>
              if !AnyCourseClash(slots, h) then Store(idUsuario, h, cursoSel, found[0].key, r)
              else
                match r.cursos
                case FetchFailed => Rejected("Error al verificar cursos")
                case Fetched(courses) =>
                  if CycleClash(slots, courses, h, cursoSel.ciclo) then Rejected(CruceMessage)
                  else Store(idUsuario, h, cursoSel, found[0].key, r)
  }

  /** The save as the source runs it, with its loops. */
  method GuardarHorarioCompleto(idUsuario: int, h: Horario, r: SaveReads) returns (outcome: SaveOutcome)
    ensures outcome == Save(idUsuario, h, r)
  {
    if r.curso.FetchFailed? { return Rejected("Error al obtener curso"); }
    var found := r.curso.snapshot;
    if found == [] { return Rejected("Curso no encontrado"); }
    var cursoSel := ToCurso(found[0]);
    if r.docente.FetchFailed? { return Rejected("Error al verificar horario del docente"); }
    var conflictoDocente := FindTeacherConflict(r.docente.snapshot, h);
    if conflictoDocente { return Rejected(CruceMessage); }
    if r.horarios.FetchFailed? { return Rejected("Error al verificar horarios globales"); }
    var cursosConflicto := CollectConflictingCourses(r.horarios.snapshot, h);
    if cursosConflicto != {} {
      if r.cursos.FetchFailed? { return Rejected("Error al verificar cursos"); }
      var courses := r.cursos.snapshot;
      var conflictoCiclo := exists j | 0 <= j < |courses| ::
        courses[j].idCurso.Some? && courses[j].ciclo == Some(cursoSel.ciclo)
        && courses[j].idCurso.value in cursosConflicto;
      if conflictoCiclo { return Rejected(CruceMessage); }
    }
    outcome := Store(idUsuario, h, cursoSel, found[0].key, r);
  }

  // ---------------------------------------------------------------------
  // What a save guarantees
  // ---------------------------------------------------------------------

  /** A save is rejected with the crossing message whenever one of the
      teacher's slots shares the candidate's day and an hour. */
  lemma TeacherClashRejects(idUsuario: int, h: Horario, r: SaveReads, i: int)
    requires r.curso.Fetched? && r.curso.snapshot != []
    requires r.docente.Fetched? && 0 <= i < |r.docente.snapshot|
    requires AssignmentDia(r.docente.snapshot[i]).GetOr("") == h.dia
    requires SharesHour(AssignmentHoras(r.docente.snapshot[i]), h.horas)
    ensures Save(idUsuario, h, r) == SaveOutcome(false, CruceMessage, [])
  {
    assert TeacherClash(r.docente.snapshot[i], h);
  }

  /** A save is rejected when a slot of a different course on the same day
      shares an hour and that course has the candidate course's cycle. */
  lemma CycleClashRejects(idUsuario: int, h: Horario, r: SaveReads, i: int, j: int)
    requires r.curso.Fetched? && r.curso.snapshot != []
    requires r.docente.Fetched? && !TeacherConflict(r.docente.snapshot, h)
    requires r.horarios.Fetched? && 0 <= i < |r.horarios.snapshot|
    requires r.cursos.Fetched? && 0 <= j < |r.cursos.snapshot|
    requires r.cursos.snapshot[j].idCurso.Some?
    requires r.cursos.snapshot[j].ciclo == Some(ToCurso(r.curso.snapshot[0]).ciclo)
    requires CourseClash(r.horarios.snapshot[i], h, r.cursos.snapshot[j].idCurso.value)
    ensures Save(idUsuario, h, r) == SaveOutcome(false, CruceMessage, [])
  {
    var slots := r.horarios.snapshot;
    assert slots[i].idCurso.Some? && CourseClash(slots[i], h, slots[i].idCurso.value);
    assert InConflict(slots, h, r.cursos.snapshot[j].idCurso.value);
  }

  /** An accepted save: the course was found, the teacher is free, no
      other course of the same cycle clashes, and exactly three paths are
      written (the slot with the next id and the next section, the
      teacher's assignment for term 2025-1 at week 0, the course's
      section count). */
  lemma AcceptedSaveMeans(idUsuario: int, h: Horario, r: SaveReads)
    requires Save(idUsuario, h, r).success
    ensures r.curso.Fetched? && r.curso.snapshot != []
    ensures r.docente.Fetched? && !TeacherConflict(r.docente.snapshot, h)
    ensures r.horarios.Fetched?
    ensures AnyCourseClash(r.horarios.snapshot, h) ==>
              r.cursos.Fetched?
              && !CycleClash(r.horarios.snapshot, r.cursos.snapshot, h, ToCurso(r.curso.snapshot[0]).ciclo)
    ensures r.ultimoHorario.Fetched? && r.usuario.Fetched?
    ensures r.usuario.snapshot != [] && r.usuario.snapshot[0].Some? && r.commitSucceeds
    ensures
      var curso := ToCurso(r.curso.snapshot[0]);
      var nuevo := h.(idHorario := NextId(IdsHorario(r.ultimoHorario.snapshot)), grupo := curso.grupos + 1);
      Save(idUsuario, h, r).writes ==
        [PutHorario(nuevo.idHorario, nuevo),
         PutAsignacion(idUsuario, nuevo.idHorario,
           HorarioUsuario(nuevo, "2025-1", 0, r.usuario.snapshot[0].value)),
         PutGrupos(r.curso.snapshot[0].key, curso.grupos + 1)]
    ensures Save(idUsuario, h, r).message == "Horario guardado"
  {
  }

  /** A course node with an id and a cycle but no name: the course list
      leaves it out, yet a save of that course goes ahead with the stored
      cycle and the data class's default section count. */
  lemma PartialCourseNode(idUsuario: int, h: Horario, r: SaveReads)
    requires r.curso == Fetched([CourseNode("c5", Some(5), None, Some(3), None, None, None)])
    ensures CoursePairs(r.curso.snapshot) == []
    ensures Save(idUsuario, h, r).message != "Curso no encontrado"
    ensures Save(idUsuario, h, r).success ==> PutGrupos("c5", 1) in Save(idUsuario, h, r).writes
    ensures ToCurso(r.curso.snapshot[0]).ciclo == 3
  {
    FoundCourseNotMissing(idUsuario, h, r);
    if Save(idUsuario, h, r).success {
      AcceptedSaveMeans(idUsuario, h, r);
    }
  }

  /** "Curso no encontrado" answers exactly the query that finds no course
      node: any node found, whatever fields it holds, lets the save go on. */
  lemma FoundCourseNotMissing(idUsuario: int, h: Horario, r: SaveReads)
    requires r.curso.Fetched?
    ensures Save(idUsuario, h, r).message == "Curso no encontrado" <==> r.curso.snapshot == []
  {
    if r.curso.snapshot != [] {
      var found := r.curso.snapshot;
      var outcome := Store(idUsuario, h, ToCurso(found[0]), found[0].key, r);
      assert outcome.message != "Curso no encontrado";
    }
  }

  /** Every failed save writes nothing. */
  lemma FailedSaveWritesNothing(idUsuario: int, h: Horario, r: SaveReads)
    ensures !Save(idUsuario, h, r).success ==> Save(idUsuario, h, r).writes == []
    ensures Save(idUsuario, h, r).success ==> |Save(idUsuario, h, r).writes| == 3
  {
    if r.curso.Fetched? && r.curso.snapshot != [] {
      var found := r.curso.snapshot;
      FailedStoreWritesNothing(idUsuario, h, ToCurso(found[0]), found[0].key, r);
    }
  }

  lemma FailedStoreWritesNothing(idUsuario: int, h: Horario, curso: Curso, cursoKey: string, r: SaveReads)
    ensures !Store(idUsuario, h, curso, cursoKey, r).success ==> Store(idUsuario, h, curso, cursoKey, r).writes == []
    ensures Store(idUsuario, h, curso, cursoKey, r).success ==> |Store(idUsuario, h, curso, cursoKey, r).writes| == 3
  {
  }

  /** The id `guardarNuevoHorario` allocates is above every id of the
      last-slot snapshot, and 1 when the snapshot holds no id. */
  lemma NextSlotId(ultimo: seq<SlotNode>)
    ensures forall n | n in ultimo && n.idHorario.Some? :: n.idHorario.value < NextId(IdsHorario(ultimo))
    ensures (forall n | n in ultimo :: n.idHorario.None?) ==> NextId(IdsHorario(ultimo)) == 1
  {
    var ids := IdsHorario(ultimo);
    forall n | n in ultimo && n.idHorario.Some?
      ensures n.idHorario.value < NextId(ids)
    {
      var k :| 0 <= k < |ultimo| && ultimo[k] == n;
      assert ids[k] == Some(n.idHorario.value);
    }
    if forall n | n in ultimo :: n.idHorario.None? {
      forall k | 0 <= k < |ids| ensures ids[k].None? {
        assert ultimo[k] in ultimo;
      }
    }
  }

  /** Slots of the candidate's own course never cause a rejection: adding
      any number of them to the global table changes nothing. */
  lemma {:induction false} OwnCourseSlotsIgnored(idUsuario: int, h: Horario, r: SaveReads, extra: seq<SlotNode>)
    requires r.horarios.Fetched?
    requires forall n | n in extra :: n.idCurso == Some(h.idCurso)
    ensures Save(idUsuario, h, r.(horarios := Fetched(r.horarios.snapshot + extra))) == Save(idUsuario, h, r)
  {
    var slots := r.horarios.snapshot;
    var all := slots + extra;
    forall c ensures InConflict(all, h, c) <==> InConflict(slots, h, c) {
      if InConflict(all, h, c) {
        forall k | |slots| <= k < |all| ensures !CourseClash(all[k], h, c) {
          assert all[k] in extra;
        }
        var i :| 0 <= i < |all| && CourseClash(all[i], h, c);
        assert slots[i] == all[i];
      }
      if InConflict(slots, h, c) {
        var i :| 0 <= i < |slots| && CourseClash(slots[i], h, c);
        assert all[i] == slots[i];
      }
    }
    assert AnyCourseClash(all, h) <==> AnyCourseClash(slots, h) by {
      if AnyCourseClash(all, h) {
        var i :| 0 <= i < |all| && all[i].idCurso.Some? && CourseClash(all[i], h, all[i].idCurso.value);
        assert InConflict(slots, h, all[i].idCurso.value);
      }
      if AnyCourseClash(slots, h) {
        var i :| 0 <= i < |slots| && slots[i].idCurso.Some? && CourseClash(slots[i], h, slots[i].idCurso.value);
        assert all[i] == slots[i];
      }
    }
  }

  // ---------------------------------------------------------------------
  // The invariants the checks maintain (the teacher is never double-booked;
  // overlapping slots of different courses have different cycles)
  // ---------------------------------------------------------------------

  /** The assignment node written for a stored slot. */
  function AssignmentOf(h: Horario): AssignmentNode {
    AssignmentNode(Some(SlotNodeOf(h)))
  }

  function SlotNodeOf(h: Horario): SlotNode {
    SlotNode(Some(h.idHorario), Some(h.idCurso), Some(h.idModalidad), Some(h.dia), h.horas, Some(h.aula), Some(h.grupo))
  }

  predicate DoubleBooked(a: AssignmentNode, b: AssignmentNode) {
    AssignmentDia(a).GetOr("") == AssignmentDia(b).GetOr("") && SharesHour(AssignmentHoras(a), AssignmentHoras(b))
  }

  /** No two distinct slots of the teacher share a day and an hour. */
  predicate TeacherConflictFree(asignaciones: seq<AssignmentNode>) {
    forall i, j | 0 <= i < |asignaciones| && 0 <= j < |asignaciones| && i != j ::
      !DoubleBooked(asignaciones[i], asignaciones[j])
  }

  /** An accepted save keeps the teacher's schedule free of double
      bookings. */
  lemma {:induction false} SaveKeepsTeacherConflictFree(idUsuario: int, h: Horario, r: SaveReads)
    requires Save(idUsuario, h, r).success
    requires r.docente.Fetched? && TeacherConflictFree(r.docente.snapshot)
    ensures |Save(idUsuario, h, r).writes| == 3
            && TeacherConflictFree(r.docente.snapshot + [AssignmentOf(Save(idUsuario, h, r).writes[0].horario)])
  {
    AcceptedSaveMeans(idUsuario, h, r);
    var old_ := r.docente.snapshot;
    var nuevo := Save(idUsuario, h, r).writes[0].horario;
    var all := old_ + [AssignmentOf(nuevo)];
    var n := |old_|;
    assert AssignmentDia(all[n]).GetOr("") == h.dia && AssignmentHoras(all[n]) == h.horas;
    forall i, j | 0 <= i < |all| && 0 <= j < |all| && i != j
      ensures !DoubleBooked(all[i], all[j])
    {
      if i < n && j < n {
        assert !DoubleBooked(old_[i], old_[j]);
      } else if i < n {
        assert !TeacherClash(old_[i], h);
      } else {
        assert !TeacherClash(old_[j], h);
        assert all[j] == old_[j];
      }
    }
  }

  /** Course ids `c` and `d` have a common cycle in the course table. */
  predicate SameCycle(courses: seq<CourseNode>, c: int, d: int) {
    exists p, q | 0 <= p < |courses| && 0 <= q < |courses| ::
      courses[p].idCurso == Some(c) && courses[q].idCurso == Some(d)
      && courses[p].ciclo.Some? && courses[p].ciclo == courses[q].ciclo
  }

  /** Slots `a` and `b` overlap and belong to different courses of one cycle. */
  predicate CycleCrossing(courses: seq<CourseNode>, a: SlotNode, b: SlotNode) {
    a.dia.Some? && a.dia == b.dia && SharesHour(a.horas, b.horas)
    && a.idCurso.Some? && b.idCurso.Some? && a.idCurso != b.idCurso
    && SameCycle(courses, a.idCurso.value, b.idCurso.value)
  }

  predicate CycleConsistent(slots: seq<SlotNode>, courses: seq<CourseNode>) {
    forall i, j | 0 <= i < |slots| && 0 <= j < |slots| :: !CycleCrossing(courses, slots[i], slots[j])
  }

  /** A crossing between a stored slot and the candidate's new slot is a
      cycle clash the check sees. */
  lemma CrossingNewSlotClashes(slots: seq<SlotNode>, courses: seq<CourseNode>, h: Horario, ciclo: int, k: int, nuevo: SlotNode)
    requires 0 <= k < |slots|
    requires nuevo.dia == Some(h.dia) && nuevo.horas == h.horas && nuevo.idCurso == Some(h.idCurso)
    requires forall p | 0 <= p < |courses| && courses[p].idCurso == Some(h.idCurso) && courses[p].ciclo.Some? ::
               courses[p].ciclo.value == ciclo
    ensures CycleCrossing(courses, slots[k], nuevo) || CycleCrossing(courses, nuevo, slots[k]) ==>
              AnyCourseClash(slots, h) && CycleClash(slots, courses, h, ciclo)
  {
    var s := slots[k];
    if CycleCrossing(courses, s, nuevo) || CycleCrossing(courses, nuevo, s) {
      var c := s.idCurso.value;
      assert SharesHour(s.horas, h.horas) by {
        if !CycleCrossing(courses, s, nuevo) {
          var x :| x in nuevo.horas && x in s.horas;
        }
      }
      assert CourseClash(s, h, c);
      assert InConflict(slots, h, c);
      var p, q :| 0 <= p < |courses| && 0 <= q < |courses|
        && ((courses[p].idCurso == Some(c) && courses[q].idCurso == Some(h.idCurso))
            || (courses[p].idCurso == Some(h.idCurso) && courses[q].idCurso == Some(c)))
        && courses[p].ciclo.Some? && courses[p].ciclo == courses[q].ciclo;
      var j := if courses[p].idCurso == Some(c) then p else q;
      assert courses[j].ciclo == Some(ciclo);
    }
  }

  /** An accepted save keeps the global table cycle-consistent, provided
      the course table gives the candidate's course the cycle the check
      used. */
  lemma {:induction false} SaveKeepsCycleConsistent(idUsuario: int, h: Horario, r: SaveReads, courses: seq<CourseNode>)
    requires Save(idUsuario, h, r).success
    requires r.horarios.Fetched? && CycleConsistent(r.horarios.snapshot, courses)
    requires AnyCourseClash(r.horarios.snapshot, h) ==> r.cursos == Fetched(courses)
    requires r.curso.Fetched? && r.curso.snapshot != []
    requires forall p | 0 <= p < |courses| && courses[p].idCurso == Some(h.idCurso) && courses[p].ciclo.Some? ::
               courses[p].ciclo.value == ToCurso(r.curso.snapshot[0]).ciclo
    ensures |Save(idUsuario, h, r).writes| == 3
    ensures CycleConsistent(r.horarios.snapshot + [SlotNodeOf(Save(idUsuario, h, r).writes[0].horario)], courses)
  {
    AcceptedSaveMeans(idUsuario, h, r);
    var slots := r.horarios.snapshot;
    var ciclo := ToCurso(r.curso.snapshot[0]).ciclo;
    var nuevo := SlotNodeOf(Save(idUsuario, h, r).writes[0].horario);
    assert nuevo.dia == Some(h.dia) && nuevo.horas == h.horas && nuevo.idCurso == Some(h.idCurso);
    var all := slots + [nuevo];
    // a crossing between an old slot of course c and the new slot
    forall k | 0 <= k < |slots| {
      CrossingNewSlotClashes(slots, courses, h, ciclo, k, nuevo);
    }
    forall i, j | 0 <= i < |all| && 0 <= j < |all| ensures !CycleCrossing(courses, all[i], all[j]) {
      if i < |slots| && j < |slots| {
        assert all[i] == slots[i] && all[j] == slots[j];
      } else if i < |slots| {
        assert all[j] == nuevo;
      } else if j < |slots| {
        assert all[i] == nuevo;
      }
    }
  }

  // ---------------------------------------------------------------------
  // obtenerDiasYHorasDisponibles
  // ---------------------------------------------------------------------

  /** The hours other courses use on `dia`, in the order the loop adds
      them (slots without a course or a day are skipped). */
  function CourseBusy(slots: seq<SlotNode>, idCurso: int, dia: string): seq<int> {
    if slots == [] then []
    else
      var n := slots[|slots| - 1];
      CourseBusy(slots[..|slots| - 1], idCurso, dia)
      + (if n.idCurso.Some? && n.dia == Some(dia) && n.idCurso.value != idCurso then n.horas else [])
  }

  /** The hours the teacher's own slots use on `dia`. */
  function TeacherBusy(asignaciones: seq<AssignmentNode>, dia: string): seq<int> {
    if asignaciones == [] then []
    else
      var a := asignaciones[|asignaciones| - 1];
      TeacherBusy(asignaciones[..|asignaciones| - 1], dia)
      + (if AssignmentDia(a) == Some(dia) then AssignmentHoras(a) else [])
  }

  /** `(from..7).toList() - busy.toSet()`. */
  function FreeHoursFrom(from: int, busy: seq<int>): seq<int>
    decreases 8 - from
  {
    if from > 7 then []
    else if from in busy then FreeHoursFrom(from + 1, busy)
    else [from] + FreeHoursFrom(from + 1, busy)
  }

  function FreeHours(busy: seq<int>): seq<int> {
    FreeHoursFrom(1, busy)
  }

  /** The free list holds exactly the hours of 1..7 not in `busy`, strictly
      ascending. */
  lemma {:induction false} FreeHoursFromMeans(from: int, busy: seq<int>)
    requires from >= 1
    ensures forall h :: h in FreeHoursFrom(from, busy) <==> from <= h <= 7 && h !in busy
    ensures forall i, j | 0 <= i < j < |FreeHoursFrom(from, busy)| ::
              FreeHoursFrom(from, busy)[i] < FreeHoursFrom(from, busy)[j]
    decreases 8 - from
  {
    if from <= 7 {
      FreeHoursFromMeans(from + 1, busy);
      var rest := FreeHoursFrom(from + 1, busy);
      if from !in busy {
        var r := FreeHoursFrom(from, busy);
        assert r == [from] + rest;
        forall i, j | 0 <= i < j < |r| ensures r[i] < r[j] {
          assert r[j] == rest[j - 1];
          if i > 0 { assert r[i] == rest[i - 1]; } else { assert rest[j - 1] in rest; }
        }
      }
    }
  }

  lemma {:induction false} CourseBusyMeans(slots: seq<SlotNode>, idCurso: int, dia: string, h: int)
    ensures h in CourseBusy(slots, idCurso, dia) <==>
              exists i | 0 <= i < |slots| ::
                slots[i].idCurso.Some? && slots[i].idCurso.value != idCurso
                && slots[i].dia == Some(dia) && h in slots[i].horas
  {
    if slots != [] {
      var init := slots[..|slots| - 1];
      CourseBusyMeans(init, idCurso, dia, h);
      forall i | 0 <= i < |init| ensures init[i] == slots[i] { }
    }
  }

  lemma {:induction false} TeacherBusyMeans(asignaciones: seq<AssignmentNode>, dia: string, h: int)
    ensures h in TeacherBusy(asignaciones, dia) <==>
              exists i | 0 <= i < |asignaciones| ::
                AssignmentDia(asignaciones[i]) == Some(dia) && h in AssignmentHoras(asignaciones[i])
  {
    if asignaciones != [] {
      var init := asignaciones[..|asignaciones| - 1];
      TeacherBusyMeans(init, dia, h);
      forall i | 0 <= i < |init| ensures init[i] == asignaciones[i] { }
    }
  }

  /** The free grid: the six weekdays, each with the ascending hours 1..7
      used neither by another course's slot nor by the teacher on that
      day. */
  lemma FreeGridMeans(slots: seq<SlotNode>, asignaciones: seq<AssignmentNode>, idCurso: int, dia: string, h: int)
    ensures var free := FreeHours(CourseBusy(slots, idCurso, dia) + TeacherBusy(asignaciones, dia));
      && (h in free <==>
           1 <= h <= 7
           && (forall i | 0 <= i < |slots| ::
                 !(slots[i].idCurso.Some? && slots[i].idCurso.value != idCurso
                   && slots[i].dia == Some(dia) && h in slots[i].horas))
           && (forall i | 0 <= i < |asignaciones| ::
                 !(AssignmentDia(asignaciones[i]) == Some(dia) && h in AssignmentHoras(asignaciones[i]))))
      && (forall i, j | 0 <= i < j < |free| :: free[i] < free[j])
  {
    FreeHoursFromMeans(1, CourseBusy(slots, idCurso, dia) + TeacherBusy(asignaciones, dia));
    CourseBusyMeans(slots, idCurso, dia, h);
    TeacherBusyMeans(asignaciones, dia, h);
  }

  function Lookup(m: map<string, seq<int>>, dia: string): seq<int> {
    if dia in m then m[dia] else []
  }

  /** The first loop: `ocupadasPorCurso`, the hours other courses use,
      per day. */
  method OcupadasPorCurso(slots: seq<SlotNode>, idCurso: int) returns (ocupadas: map<string, seq<int>>)
    ensures forall d :: Lookup(ocupadas, d) == CourseBusy(slots, idCurso, d)
  {
    ocupadas := map[];
    var i := 0;
    while i < |slots|
      invariant 0 <= i <= |slots|
      invariant forall d :: Lookup(ocupadas, d) == CourseBusy(slots[..i], idCurso, d)
    {
      var n := slots[i];
      assert slots[..i + 1][..i] == slots[..i];
      if n.idCurso.Some? && n.dia.Some? && n.idCurso.value != idCurso {
        ocupadas := ocupadas[n.dia.value := Lookup(ocupadas, n.dia.value) + n.horas];
      }
      i := i + 1;
    }
    assert slots[..i] == slots;
  }

  /** The second loop: `ocupadasPorUsuario`, the teacher's own hours, per
      day. */
  method OcupadasPorUsuario(asignaciones: seq<AssignmentNode>) returns (ocupadas: map<string, seq<int>>)
    ensures forall d :: Lookup(ocupadas, d) == TeacherBusy(asignaciones, d)
  {
    ocupadas := map[];
    var i := 0;
    while i < |asignaciones|
      invariant 0 <= i <= |asignaciones|
      invariant forall d :: Lookup(ocupadas, d) == TeacherBusy(asignaciones[..i], d)
    {
      var a := asignaciones[i];
      assert asignaciones[..i + 1][..i] == asignaciones[..i];
      if AssignmentDia(a).Some? {
        var dia := AssignmentDia(a).value;
        ocupadas := ocupadas[dia := Lookup(ocupadas, dia) + AssignmentHoras(a)];
      }
      i := i + 1;
    }
    assert asignaciones[..i] == asignaciones;
  }

  /** `obtenerDiasYHorasDisponibles`: nothing when either read fails,
      otherwise the six weekdays, each with its free hours. */
  method DiasYHorasDisponibles(idCurso: int, horarios: Fetch<seq<SlotNode>>, docente: Fetch<seq<AssignmentNode>>)
    returns (resultado: map<string, seq<int>>)
    ensures horarios.FetchFailed? || docente.FetchFailed? ==> resultado == map[]
    ensures horarios.Fetched? && docente.Fetched? ==>
              (forall d :: d in resultado <==> d in Dias)
              && forall d | d in Dias ::
                   d in resultado
                   && resultado[d] == FreeHours(CourseBusy(horarios.snapshot, idCurso, d) + TeacherBusy(docente.snapshot, d))
  {
    if horarios.FetchFailed? || docente.FetchFailed? { return map[]; }
    var porCurso := OcupadasPorCurso(horarios.snapshot, idCurso);
    var porUsuario := OcupadasPorUsuario(docente.snapshot);
    resultado := map[];
    var i := 0;
    while i < |Dias|
      invariant 0 <= i <= |Dias|
      invariant forall d :: d in resultado <==> d in Dias[..i]
      invariant forall d | d in resultado :: resultado[d] == FreeHours(Lookup(porCurso, d) + Lookup(porUsuario, d))
    {
      assert Dias[..i + 1] == Dias[..i] + [Dias[i]];
      resultado := resultado[Dias[i] := FreeHours(Lookup(porCurso, Dias[i]) + Lookup(porUsuario, Dias[i]))];
      i := i + 1;
    }
    assert Dias[..i] == Dias;
  }

  // ---------------------------------------------------------------------
  // obtenerCursosDisponiblesFiltrados
  // ---------------------------------------------------------------------

  /** `mapNotNull { id to nombre }` over the course table. */
  function CoursePairs(nodes: seq<CourseNode>): (r: seq<(int, string)>)
    ensures forall p :: p in r <==> exists i | 0 <= i < |nodes| ::
              nodes[i].idCurso.Some? && nodes[i].nombre.Some?
              && p == (nodes[i].idCurso.value, nodes[i].nombre.value)
  {
    if nodes == [] then []
    else
      (if nodes[0].idCurso.Some? && nodes[0].nombre.Some? then [(nodes[0].idCurso.value, nodes[0].nombre.value)] else [])
      + CoursePairs(nodes[1..])
  }

  /** The pairs keep the table's order: the pairs of two runs of nodes are
      those of the first run, then those of the second. */
  lemma {:induction false} CoursePairsConcat(a: seq<CourseNode>, b: seq<CourseNode>)
    ensures CoursePairs(a + b) == CoursePairs(a) + CoursePairs(b)
  {
    if a != [] {
      assert (a + b)[1..] == a[1..] + b;
      CoursePairsConcat(a[1..], b);
    } else {
      assert a + b == b;
    }
  }

  /** The course ids the teacher already has slots of. */
  function AssignedCourses(asignaciones: seq<AssignmentNode>): set<int> {
    set i | 0 <= i < |asignaciones| && AssignmentCurso(asignaciones[i]).Some? :: AssignmentCurso(asignaciones[i]).value
  }

  /** `filterNot { taken.contains(it.first) }`. */
  function DropAssigned(pairs: seq<(int, string)>, taken: set<int>): (r: seq<(int, string)>)
    ensures forall p :: p in r <==> p in pairs && p.0 !in taken
  {
    if pairs == [] then []
    else (if pairs[0].0 in taken then [] else [pairs[0]]) + DropAssigned(pairs[1..], taken)
  }

  lemma {:induction false} DropAssignedKeepsOrder(pairs: seq<(int, string)>, taken: set<int>)
    ensures IsSubsequence(DropAssigned(pairs, taken), pairs)
  {
    if pairs != [] {
      DropAssignedKeepsOrder(pairs[1..], taken);
      var rest := DropAssigned(pairs[1..], taken);
      SubsequenceCons(rest, pairs[1..], pairs[0]);
      assert [pairs[0]] + pairs[1..] == pairs;
      if pairs[0].0 !in taken {
        var r := [pairs[0]] + rest;
        assert r[0] == pairs[0] && r[1..] == rest;
        assert DropAssigned(pairs, taken) == r;
      } else {
        assert DropAssigned(pairs, taken) == rest;
      }
    }
  }

  /** `obtenerCursosDisponiblesFiltrados`: an empty list when the course
      read fails, every course when the assignment read fails. */
  function CursosDisponibles(cursos: Fetch<seq<CourseNode>>, docente: Fetch<seq<AssignmentNode>>): seq<(int, string)> {
    match cursos
    case FetchFailed => []
    case Fetched(nodes) =>
      match docente
      case FetchFailed => CoursePairs(nodes)
      case Fetched(asignaciones) => DropAssigned(CoursePairs(nodes), AssignedCourses(asignaciones))
  }

  /** The available courses keep the table's order and drop exactly the
      courses the teacher already teaches. */
  lemma CursosDisponiblesMeans(cursos: Fetch<seq<CourseNode>>, docente: Fetch<seq<AssignmentNode>>)
    ensures cursos.FetchFailed? ==> CursosDisponibles(cursos, docente) == []
    ensures cursos.Fetched? && docente.FetchFailed? ==>
              CursosDisponibles(cursos, docente) == CoursePairs(cursos.snapshot)
    ensures cursos.Fetched? && docente.Fetched? ==>
              IsSubsequence(CursosDisponibles(cursos, docente), CoursePairs(cursos.snapshot))
              && forall p :: p in CursosDisponibles(cursos, docente) <==>
                   p in CoursePairs(cursos.snapshot)
                   && forall i | 0 <= i < |docente.snapshot| :: AssignmentCurso(docente.snapshot[i]) != Some(p.0)
  {
    if cursos.Fetched? && docente.Fetched? {
      DropAssignedKeepsOrder(CoursePairs(cursos.snapshot), AssignedCourses(docente.snapshot));
    }
  }
}

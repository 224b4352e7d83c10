/** The schedule-entry form of auth/CargarHorarioScreen.kt. Its remembered
    state variables become the fields of `FormularioHorario`; each click
    handler and each database callback becomes a method. A `LaunchedEffect`
    runs again only when one of its keys changed, and the effects triggered
    by one event run in declaration order against the state the event left.
    A database request is counted in a `pedidos…` field and its callback is
    a method that needs one outstanding request. */
module CargarHorario {
  import opened Wrappers
  import opened Models
  import opened Text
  import Collections
  import Timetable

  const Presencial := "Presencial"
  const Virtual := "Virtual"

  /** The ids of `todasHoras`: the seven pedagogical blocks. */
  const TodasHoras: seq<int> := [1, 2, 3, 4, 5, 6, 7]

  /** Kotlin's `list - element`: drops the first occurrence, if any. */
  function QuitarPrimero(s: seq<int>, x: int): (r: seq<int>)
    ensures x !in s ==> r == s
    ensures x in s ==> |r| == |s| - 1
  {
    if s == [] then []
    else if s[0] == x then s[1..]
    else [s[0]] + QuitarPrimero(s[1..], x)
  }

  /** Removing `x` keeps every other value, keeps the order, and on a
      duplicate-free list leaves no `x` behind. */
  lemma {:induction false} QuitarPrimeroMeans(s: seq<int>, x: int)
    ensures forall y :: y != x ==> (y in QuitarPrimero(s, x) <==> y in s)
    ensures Collections.IsSubsequence(QuitarPrimero(s, x), s)
    ensures Collections.NoDuplicates(s) ==>
              x !in QuitarPrimero(s, x) && Collections.NoDuplicates(QuitarPrimero(s, x))
  {
    if s != [] {
      QuitarPrimeroMeans(s[1..], x);
      var r := QuitarPrimero(s, x);
      if s[0] == x {
        Collections.SubsequenceReflexive(s[1..]);
        Collections.SubsequenceCons(s[1..], s[1..], x);
        assert [x] + s[1..] == s;
        if Collections.NoDuplicates(s) {
          forall k | 0 <= k < |s[1..]| ensures s[1..][k] != x {
            assert s[1..][k] == s[k + 1];
          }
        }
      } else {
        var t := QuitarPrimero(s[1..], x);
        assert r == [s[0]] + t;
        assert r[1..] == t;
        assert forall y :: y in r <==> y == s[0] || y in t;
        if Collections.NoDuplicates(s) {
          assert Collections.NoDuplicates(s[1..]);
          assert s[0] !in s[1..];
        }
      }
    }
  }

  /** The hour button's `onClick`: a selected hour is removed, any other
      hour is appended. */
  function Alternar(s: seq<int>, id: int): seq<int> {
    if id in s then QuitarPrimero(s, id) else s + [id]
  }

  /** Tapping an hour flips exactly that hour's membership, so a
      duplicate-free selection stays duplicate-free; the selection always
      changes. */
  lemma AlternarMeans(s: seq<int>, id: int)
    requires Collections.NoDuplicates(s)
    ensures Collections.NoDuplicates(Alternar(s, id))
    ensures forall x :: x in Alternar(s, id) <==> if x == id then id !in s else x in s
    ensures Alternar(s, id) != s
  {
    QuitarPrimeroMeans(s, id);
    if id !in s {
      assert (s + [id])[|s|] == id;
    }
  }

  /** Tapping an unselected hour twice restores the selection. */
  lemma AlternarTwice(s: seq<int>, id: int)
    requires id !in s
    ensures Alternar(Alternar(s, id), id) == s
  {
    QuitarPrimeroAppended(s, id);
  }

  lemma {:induction false} QuitarPrimeroAppended(s: seq<int>, id: int)
    requires id !in s
    ensures QuitarPrimero(s + [id], id) == s
  {
    if s != [] {
      assert (s + [id])[1..] == s[1..] + [id];
      QuitarPrimeroAppended(s[1..], id);
      assert s == [s[0]] + s[1..];
    }
  }

  /** `todasHoras.filter { mapa[dia]?.contains(it.first) == true }`, on the
      hour ids. */
  function FiltrarHoras(hs: seq<int>, mapa: map<string, seq<int>>, dia: string): (r: seq<int>)
    ensures forall h :: h in r ==> h in hs
  {
    if hs == [] then []
    else (if dia in mapa && hs[0] in mapa[dia] then [hs[0]] else []) + FiltrarHoras(hs[1..], mapa, dia)
  }

  function HorasDelDia(mapa: map<string, seq<int>>, dia: string): seq<int> {
    FiltrarHoras(TodasHoras, mapa, dia)
  }

  lemma {:induction false} FiltrarHorasMeans(hs: seq<int>, mapa: map<string, seq<int>>, dia: string)
    requires Timetable.StrictlyAscending(hs)
    ensures Timetable.StrictlyAscending(FiltrarHoras(hs, mapa, dia))
    ensures forall h :: h in FiltrarHoras(hs, mapa, dia) <==> h in hs && dia in mapa && h in mapa[dia]
  {
    FiltrarHorasAscending(hs, mapa, dia);
    FiltrarHorasMembers(hs, mapa, dia);
  }

  lemma {:induction false} FiltrarHorasAscending(hs: seq<int>, mapa: map<string, seq<int>>, dia: string)
    requires Timetable.StrictlyAscending(hs)
    ensures Timetable.StrictlyAscending(FiltrarHoras(hs, mapa, dia))
  {
    if hs != [] {
      assert Timetable.StrictlyAscending(hs[1..]);
      FiltrarHorasAscending(hs[1..], mapa, dia);
      var t := FiltrarHoras(hs[1..], mapa, dia);
      forall h | h in t ensures hs[0] < h {
        var k :| 0 <= k < |hs[1..]| && hs[1..][k] == h;
        assert hs[k + 1] == h;
      }
      if dia in mapa && hs[0] in mapa[dia] {
        var r := [hs[0]] + t;
        assert FiltrarHoras(hs, mapa, dia) == r;
        forall i, j | 0 <= i < j < |r| ensures r[i] < r[j] {
          assert r[j] == t[j - 1];
          if i > 0 {
            assert r[i] == t[i - 1];
          } else {
            assert t[j - 1] in t;
          }
        }
      } else {
        assert FiltrarHoras(hs, mapa, dia) == t;
      }
    }
  }

  lemma {:induction false} FiltrarHorasMembers(hs: seq<int>, mapa: map<string, seq<int>>, dia: string)
    ensures forall h :: h in FiltrarHoras(hs, mapa, dia) <==> h in hs && dia in mapa && h in mapa[dia]
  {
    if hs != [] {
      FiltrarHorasMembers(hs[1..], mapa, dia);
      assert forall h :: h in hs <==> h == hs[0] || h in hs[1..];
    }
  }

  /** Choosing a day offers exactly that day's free hours, in the 1..7
      order, and nothing outside 1..7. */
  lemma HorasDelDiaMeans(mapa: map<string, seq<int>>, dia: string)
    ensures Timetable.StrictlyAscending(HorasDelDia(mapa, dia))
    ensures forall h :: h in HorasDelDia(mapa, dia) <==> 1 <= h <= 7 && dia in mapa && h in mapa[dia]
  {
    FiltrarHorasMeans(TodasHoras, mapa, dia);
  }

  /** The course menu: `cursosDisponibles.filter { it.second.contains(filtroCurso, true) }`. */
  function Visibles(cursos: seq<(int, string)>, filtro: string): seq<(int, string)> {
    if cursos == [] then []
    else (if ContainsIgnoreCase(cursos[0].1, filtro) then [cursos[0]] else []) + Visibles(cursos[1..], filtro)
  }

  /** The menu shows exactly the courses whose name contains the filter,
      ignoring case, in their original order; an empty filter shows all. */
  lemma {:induction false} VisiblesMeans(cursos: seq<(int, string)>, filtro: string)
    ensures forall c :: c in Visibles(cursos, filtro) <==> c in cursos && ContainsIgnoreCase(c.1, filtro)
    ensures Collections.IsSubsequence(Visibles(cursos, filtro), cursos)
    ensures filtro == "" ==> Visibles(cursos, filtro) == cursos
  {
    if cursos != [] {
      VisiblesMeans(cursos[1..], filtro);
      var t := Visibles(cursos[1..], filtro);
      assert forall c :: c in cursos <==> c == cursos[0] || c in cursos[1..];
      assert [cursos[0]] + cursos[1..] == cursos;
      if ContainsIgnoreCase(cursos[0].1, filtro) {
        var r := [cursos[0]] + t;
        assert r[0] == cursos[0] && r[1..] == t;
        assert Collections.IsSubsequence(r, cursos);
      } else {
        Collections.SubsequenceCons(t, cursos[1..], cursos[0]);
        assert Visibles(cursos, filtro) == t;
      }
      if filtro == "" {
        assert OccursIgnoreCaseAt(cursos[0].1, "", 0);
      }
    }
  }

  /** The `Horario` the save button builds; `aula` only in person. */
  function ConstruirHorario(modalidad: string, idCurso: int, dia: string, horas: seq<int>, aula: string): Horario {
    Horario(0, idCurso, if modalidad == Presencial then 2 else 1, dia, horas,
            if modalidad == Presencial then aula else "", 0)
  }

  /** The save button's `enabled`. */
  predicate GuardarHabilitado(modalidad: string, curso: Option<(int, string)>, dia: string, horas: seq<int>, aula: string) {
    modalidad != "" && curso.Some? && dia != "" && horas != [] && (modalidad == Virtual || aula != "")
  }

  /** A slot saved from an enabled form: modality 2 exactly in person, a
      classroom exactly in person, a day, the selected hours unchanged, and
      identifier and section left to the database (0). */
  lemma SlotFromForm(modalidad: string, curso: Option<(int, string)>, dia: string, horas: seq<int>, aula: string)
    requires modalidad == "" || modalidad == Presencial || modalidad == Virtual
    requires GuardarHabilitado(modalidad, curso, dia, horas, aula)
    ensures var h := ConstruirHorario(modalidad, curso.value.0, dia, horas, aula);
            (h.idModalidad == 2 <==> modalidad == Presencial)
            && (h.idModalidad == 1 <==> modalidad == Virtual)
            && (h.aula != "" <==> modalidad == Presencial)
            && h.dia != "" && h.horas == horas && |h.horas| >= 1
            && h.idHorario == 0 && h.grupo == 0 && h.idCurso == curso.value.0
  {
  }

  /** The hours of a slot saved from the form split into disjoint runs of
      consecutive blocks that cover them exactly, as the timetable draws
      them. */
  lemma SavedHoursGroup(horas: seq<int>)
    requires Collections.NoDuplicates(horas) && forall h | h in horas :: 1 <= h <= 7
    ensures var runs := Timetable.Runs(Timetable.SortInts(horas));
            Timetable.Separated(runs)
            && (forall k | 0 <= k < |runs| :: 1 <= runs[k].0 <= runs[k].1 <= 7)
            && forall h :: Timetable.Covered(runs, h) <==> h in horas
  {
    Timetable.SlotRuns(horas);
    var runs := Timetable.Runs(Timetable.SortInts(horas));
    forall k | 0 <= k < |runs| ensures 1 <= runs[k].0 <= runs[k].1 <= 7 {
      assert Timetable.InRun(runs[k], runs[k].0) && Timetable.InRun(runs[k], runs[k].1);
      assert runs[k].0 in horas && runs[k].1 in horas;
    }
  }

  predicate PideAulas(modalidad: string, dia: string, horas: seq<int>) {
    modalidad == Presencial && dia != "" && horas != []
  }

  class FormularioHorario {
    var modalidad: string
    var cursoSeleccionado: Option<(int, string)>
    var filtroCurso: string
    var cursosDisponibles: seq<(int, string)>
    var diaSeleccionado: string
    var diasDisponibles: seq<string>
    var mapaDisponibilidad: map<string, seq<int>>
    var horasDisponibles: seq<int>
    var horasSeleccionadas: seq<int>
    var aulaSeleccionada: string
    var aulasDisponibles: seq<string>
    /** Outstanding course, availability, classroom and save requests. */
    var pedidosCursos: nat
    var pedidosDisponibilidad: nat
    var pedidosAulas: nat
    var pedidosGuardado: nat
    /** The slots handed to `guardarHorarioCompleto`, in order. */
    var guardados: seq<Horario>

    /** The hour selection is duplicate-free and within 1..7, the offered
        hours are within 1..7, and a classroom is chosen only in person. */
    ghost predicate Valid()
      reads this
    {
      Hours() && (aulaSeleccionada != "" ==> modalidad == Presencial)
    }

    /** `Valid` without the classroom clause, which holds again once
        `resetearCampos` has cleared the classroom. */
    ghost predicate Hours()
      reads this
    {
      (modalidad == "" || modalidad == Presencial || modalidad == Virtual)
      && Collections.NoDuplicates(horasSeleccionadas)
      && (forall h | h in horasSeleccionadas :: 1 <= h <= 7)
      && (forall h | h in horasDisponibles :: 1 <= h <= 7)
    }

    /** The classroom effect ran: a request when in person with a day and
        hours, otherwise the classroom list and choice are cleared. */
    ghost predicate AulasTrasEfecto(pedidos0: nat, aulas0: seq<string>, aula0: string)
      reads this
    {
      if PideAulas(modalidad, diaSeleccionado, horasSeleccionadas)
      then pedidosAulas == pedidos0 + 1 && aulasDisponibles == aulas0 && aulaSeleccionada == aula0
      else pedidosAulas == pedidos0 && aulasDisponibles == [] && aulaSeleccionada == ""
    }

    constructor()
      ensures Valid()
      ensures modalidad == "" && cursoSeleccionado == None && filtroCurso == "" && cursosDisponibles == []
      ensures diaSeleccionado == "" && diasDisponibles == [] && mapaDisponibilidad == map[]
      ensures horasDisponibles == TodasHoras && horasSeleccionadas == []
      ensures aulaSeleccionada == "" && aulasDisponibles == []
      ensures pedidosCursos == 0 && pedidosDisponibilidad == 0 && pedidosAulas == 0 && pedidosGuardado == 0
      ensures guardados == []
    {
      modalidad := "";
      cursoSeleccionado := None;
      filtroCurso := "";
      cursosDisponibles := [];
      diaSeleccionado := "";
      diasDisponibles := [];
      mapaDisponibilidad := map[];
      horasDisponibles := TodasHoras;
      horasSeleccionadas := [];
      aulaSeleccionada := "";
      aulasDisponibles := [];
      pedidosCursos := 0;
      pedidosDisponibilidad := 0;
      pedidosAulas := 0;
      pedidosGuardado := 0;
      guardados := [];
    }

    /** `resetearCampos`: clears every choice and list below the modality
        and offers all seven hours again; the modality, the availability
        map, the classroom list and the requests are untouched. */
    method ResetearCampos()
      requires Hours()
      modifies this`cursoSeleccionado, this`filtroCurso, this`diaSeleccionado, this`horasSeleccionadas
      modifies this`aulaSeleccionada, this`cursosDisponibles, this`diasDisponibles, this`horasDisponibles
      ensures Valid()
      ensures cursoSeleccionado == None && filtroCurso == "" && diaSeleccionado == ""
      ensures horasSeleccionadas == [] && aulaSeleccionada == ""
      ensures cursosDisponibles == [] && diasDisponibles == [] && horasDisponibles == TodasHoras
    {
      cursoSeleccionado := None;
      filtroCurso := "";
      diaSeleccionado := "";
      horasSeleccionadas := [];
      aulaSeleccionada := "";
      cursosDisponibles := [];
      diasDisponibles := [];
      horasDisponibles := TodasHoras;
    }

    /** The `LaunchedEffect(modalidad, diaSeleccionado, horasSeleccionadas)`
        body. */
    method EfectoAulas()
      requires Valid()
      modifies this
      ensures Valid()
      ensures AulasTrasEfecto(old(pedidosAulas), old(aulasDisponibles), old(aulaSeleccionada))
      ensures modalidad == old(modalidad) && cursoSeleccionado == old(cursoSeleccionado)
      ensures filtroCurso == old(filtroCurso) && cursosDisponibles == old(cursosDisponibles)
      ensures diaSeleccionado == old(diaSeleccionado) && diasDisponibles == old(diasDisponibles)
      ensures mapaDisponibilidad == old(mapaDisponibilidad) && horasDisponibles == old(horasDisponibles)
      ensures horasSeleccionadas == old(horasSeleccionadas) && guardados == old(guardados)
      ensures pedidosCursos == old(pedidosCursos) && pedidosDisponibilidad == old(pedidosDisponibilidad)
      ensures pedidosGuardado == old(pedidosGuardado)
    {
      if PideAulas(modalidad, diaSeleccionado, horasSeleccionadas) {
        pedidosAulas := pedidosAulas + 1;
      } else {
        aulasDisponibles := [];
        aulaSeleccionada := "";
      }
    }

    /** The modality menu as written: the modality is set and the fields
        reset, but the course request is keyed on the modality and so is
        not repeated when the same modality is chosen again. */
    method ElegirModalidadAsWritten(tipo: string)
      requires Valid() && (tipo == Presencial || tipo == Virtual)
      modifies this
      ensures Valid()
      ensures modalidad == tipo && cursoSeleccionado == None && filtroCurso == "" && diaSeleccionado == ""
      ensures horasSeleccionadas == [] && aulaSeleccionada == ""
      ensures cursosDisponibles == [] && diasDisponibles == [] && horasDisponibles == TodasHoras
      ensures pedidosCursos == old(pedidosCursos) + (if tipo != old(modalidad) then 1 else 0)
      ensures tipo != old(modalidad) || old(diaSeleccionado) != "" || old(horasSeleccionadas) != [] ==>
                aulasDisponibles == []
      ensures tipo == old(modalidad) && old(diaSeleccionado) == "" && old(horasSeleccionadas) == [] ==>
                aulasDisponibles == old(aulasDisponibles)
      ensures mapaDisponibilidad == old(mapaDisponibilidad) && guardados == old(guardados)
      ensures pedidosDisponibilidad == old(pedidosDisponibilidad) && pedidosAulas == old(pedidosAulas)
      ensures pedidosGuardado == old(pedidosGuardado)
    {
      var m0, d0, h0 := modalidad, diaSeleccionado, horasSeleccionadas;
      modalidad := tipo;
      ResetearCampos();
      if modalidad != m0 && modalidad != "" {
        pedidosCursos := pedidosCursos + 1;
      }
      if (modalidad, diaSeleccionado, horasSeleccionadas) != (m0, d0, h0) {
        EfectoAulas();
      }
    }

    /** The modality menu with the course request issued on every choice,
        so the list that the reset empties is always fetched again. */
    method ElegirModalidad(tipo: string)
      requires Valid() && (tipo == Presencial || tipo == Virtual)
      modifies this
      ensures Valid()
      ensures modalidad == tipo && cursoSeleccionado == None && filtroCurso == "" && diaSeleccionado == ""
      ensures horasSeleccionadas == [] && aulaSeleccionada == ""
      ensures cursosDisponibles == [] && diasDisponibles == [] && horasDisponibles == TodasHoras
      ensures pedidosCursos == old(pedidosCursos) + 1
      ensures tipo != old(modalidad) || old(diaSeleccionado) != "" || old(horasSeleccionadas) != [] ==>
                aulasDisponibles == []
      ensures tipo == old(modalidad) && old(diaSeleccionado) == "" && old(horasSeleccionadas) == [] ==>
                aulasDisponibles == old(aulasDisponibles)
      ensures mapaDisponibilidad == old(mapaDisponibilidad) && guardados == old(guardados)
      ensures pedidosDisponibilidad == old(pedidosDisponibilidad) && pedidosAulas == old(pedidosAulas)
      ensures pedidosGuardado == old(pedidosGuardado)
    {
      var m0, d0, h0 := modalidad, diaSeleccionado, horasSeleccionadas;
      modalidad := tipo;
      ResetearCampos();
      pedidosCursos := pedidosCursos + 1;
      if (modalidad, diaSeleccionado, horasSeleccionadas) != (m0, d0, h0) {
        EfectoAulas();
      }
    }

    /** The course list arrives. */
    method RecibirCursos(lista: seq<(int, string)>)
      requires Valid() && pedidosCursos > 0
      modifies this
      ensures Valid()
      ensures cursosDisponibles == lista && pedidosCursos == old(pedidosCursos) - 1
      ensures modalidad == old(modalidad) && cursoSeleccionado == old(cursoSeleccionado)
      ensures filtroCurso == old(filtroCurso) && diaSeleccionado == old(diaSeleccionado)
      ensures diasDisponibles == old(diasDisponibles) && mapaDisponibilidad == old(mapaDisponibilidad)
      ensures horasDisponibles == old(horasDisponibles) && horasSeleccionadas == old(horasSeleccionadas)
      ensures aulaSeleccionada == old(aulaSeleccionada) && aulasDisponibles == old(aulasDisponibles)
      ensures pedidosDisponibilidad == old(pedidosDisponibilidad) && pedidosAulas == old(pedidosAulas)
      ensures pedidosGuardado == old(pedidosGuardado) && guardados == old(guardados)
    {
      cursosDisponibles := lista;
      pedidosCursos := pedidosCursos - 1;
    }

    /** Typing in the course field: accepted only once a modality is set. */
    method EscribirFiltro(texto: string)
      requires Valid()
      modifies this
      ensures Valid()
      ensures filtroCurso == if old(modalidad) != "" then texto else old(filtroCurso)
      ensures modalidad == old(modalidad) && cursoSeleccionado == old(cursoSeleccionado)
      ensures cursosDisponibles == old(cursosDisponibles) && diaSeleccionado == old(diaSeleccionado)
      ensures diasDisponibles == old(diasDisponibles) && mapaDisponibilidad == old(mapaDisponibilidad)
      ensures horasDisponibles == old(horasDisponibles) && horasSeleccionadas == old(horasSeleccionadas)
      ensures aulaSeleccionada == old(aulaSeleccionada) && aulasDisponibles == old(aulasDisponibles)
      ensures pedidosCursos == old(pedidosCursos) && pedidosDisponibilidad == old(pedidosDisponibilidad)
      ensures pedidosAulas == old(pedidosAulas) && pedidosGuardado == old(pedidosGuardado)
      ensures guardados == old(guardados)
    {
      if modalidad != "" {
        filtroCurso := texto;
      }
    }

    /** Picking a course from the menu: the field shows its name and, when
        the course changed, its free days and hours are requested. */
    method ElegirCurso(id: int, nombre: string)
      requires Valid() && (id, nombre) in Visibles(cursosDisponibles, filtroCurso)
      modifies this
      ensures Valid()
      ensures cursoSeleccionado == Some((id, nombre)) && filtroCurso == nombre
      ensures pedidosDisponibilidad ==
                old(pedidosDisponibilidad) + (if old(cursoSeleccionado) != Some((id, nombre)) then 1 else 0)
      ensures modalidad == old(modalidad) && cursosDisponibles == old(cursosDisponibles)
      ensures diaSeleccionado == old(diaSeleccionado) && diasDisponibles == old(diasDisponibles)
      ensures mapaDisponibilidad == old(mapaDisponibilidad) && horasDisponibles == old(horasDisponibles)
      ensures horasSeleccionadas == old(horasSeleccionadas) && aulaSeleccionada == old(aulaSeleccionada)
      ensures aulasDisponibles == old(aulasDisponibles) && pedidosCursos == old(pedidosCursos)
      ensures pedidosAulas == old(pedidosAulas) && pedidosGuardado == old(pedidosGuardado)
      ensures guardados == old(guardados)
    {
      var antes := cursoSeleccionado;
      cursoSeleccionado := Some((id, nombre));
      filtroCurso := nombre;
      if cursoSeleccionado != antes {
        pedidosDisponibilidad := pedidosDisponibilidad + 1;
      }
    }

    /** The free days and hours of the chosen course arrive, with the
        map's keys in order; when a day is already chosen its hours are
        offered at once. */
    method RecibirDisponibilidad(mapa: map<string, seq<int>>, claves: seq<string>)
      requires Valid() && pedidosDisponibilidad > 0
      requires forall k :: k in claves <==> k in mapa
      modifies this
      ensures Valid()
      ensures mapaDisponibilidad == mapa && diasDisponibles == claves
      ensures pedidosDisponibilidad == old(pedidosDisponibilidad) - 1
      ensures horasDisponibles ==
                if old(diaSeleccionado) != "" then HorasDelDia(mapa, old(diaSeleccionado)) else old(horasDisponibles)
      ensures modalidad == old(modalidad) && cursoSeleccionado == old(cursoSeleccionado)
      ensures filtroCurso == old(filtroCurso) && cursosDisponibles == old(cursosDisponibles)
      ensures diaSeleccionado == old(diaSeleccionado) && horasSeleccionadas == old(horasSeleccionadas)
      ensures aulaSeleccionada == old(aulaSeleccionada) && aulasDisponibles == old(aulasDisponibles)
      ensures pedidosCursos == old(pedidosCursos) && pedidosAulas == old(pedidosAulas)
      ensures pedidosGuardado == old(pedidosGuardado) && guardados == old(guardados)
    {
      pedidosDisponibilidad := pedidosDisponibilidad - 1;
      mapaDisponibilidad := mapa;
      diasDisponibles := claves;
      if diaSeleccionado != "" {
        HorasDelDiaMeans(mapa, diaSeleccionado);
        horasDisponibles := HorasDelDia(mapa, diaSeleccionado);
      }
    }

    /** Picking a day: when it changed, its free hours replace the offered
        hours and the hour selection is emptied, which also clears the
        classroom. */
    method ElegirDia(dia: string)
      requires Valid() && dia in diasDisponibles
      modifies this
      ensures Valid()
      ensures diaSeleccionado == dia
      ensures dia != old(diaSeleccionado) && dia != "" ==>
                horasDisponibles == HorasDelDia(mapaDisponibilidad, dia) && horasSeleccionadas == []
      ensures dia == old(diaSeleccionado) || dia == "" ==>
                horasDisponibles == old(horasDisponibles) && horasSeleccionadas == old(horasSeleccionadas)
      ensures dia != old(diaSeleccionado) ==> AulasTrasEfecto(old(pedidosAulas), old(aulasDisponibles), old(aulaSeleccionada))
      ensures dia == old(diaSeleccionado) ==>
                aulasDisponibles == old(aulasDisponibles) && aulaSeleccionada == old(aulaSeleccionada)
                && pedidosAulas == old(pedidosAulas)
      ensures modalidad == old(modalidad) && cursoSeleccionado == old(cursoSeleccionado)
      ensures filtroCurso == old(filtroCurso) && cursosDisponibles == old(cursosDisponibles)
      ensures diasDisponibles == old(diasDisponibles) && mapaDisponibilidad == old(mapaDisponibilidad)
      ensures pedidosCursos == old(pedidosCursos) && pedidosDisponibilidad == old(pedidosDisponibilidad)
      ensures pedidosGuardado == old(pedidosGuardado) && guardados == old(guardados)
    {
      var antes := diaSeleccionado;
      diaSeleccionado := dia;
      if dia != antes {
        if dia != "" {
          HorasDelDiaMeans(mapaDisponibilidad, dia);
          horasDisponibles := HorasDelDia(mapaDisponibilidad, dia);
          horasSeleccionadas := [];
        }
        EfectoAulas();
      }
    }

    /** Tapping an offered hour once a day is chosen: the hour is toggled,
        and since the selection always changes the classroom effect runs. */
    method AlternarHora(id: int)
      requires Valid() && id in horasDisponibles && diaSeleccionado != ""
      modifies this
      ensures Valid()
      ensures horasSeleccionadas == Alternar(old(horasSeleccionadas), id)
      ensures AulasTrasEfecto(old(pedidosAulas), old(aulasDisponibles), old(aulaSeleccionada))
      ensures modalidad == old(modalidad) && cursoSeleccionado == old(cursoSeleccionado)
      ensures filtroCurso == old(filtroCurso) && cursosDisponibles == old(cursosDisponibles)
      ensures diaSeleccionado == old(diaSeleccionado) && diasDisponibles == old(diasDisponibles)
      ensures mapaDisponibilidad == old(mapaDisponibilidad) && horasDisponibles == old(horasDisponibles)
      ensures pedidosCursos == old(pedidosCursos) && pedidosDisponibilidad == old(pedidosDisponibilidad)
      ensures pedidosGuardado == old(pedidosGuardado) && guardados == old(guardados)
    {
      var antes := horasSeleccionadas;
      AlternarMeans(horasSeleccionadas, id);
      horasSeleccionadas := Alternar(horasSeleccionadas, id);
      if horasSeleccionadas != antes {
        EfectoAulas();
      }
    }

    /** The free classrooms arrive. */
    method RecibirAulas(lista: seq<string>)
      requires Valid() && pedidosAulas > 0
      modifies this
      ensures Valid()
      ensures aulasDisponibles == lista && pedidosAulas == old(pedidosAulas) - 1
      ensures modalidad == old(modalidad) && cursoSeleccionado == old(cursoSeleccionado)
      ensures filtroCurso == old(filtroCurso) && cursosDisponibles == old(cursosDisponibles)
      ensures diaSeleccionado == old(diaSeleccionado) && diasDisponibles == old(diasDisponibles)
      ensures mapaDisponibilidad == old(mapaDisponibilidad) && horasDisponibles == old(horasDisponibles)
      ensures horasSeleccionadas == old(horasSeleccionadas) && aulaSeleccionada == old(aulaSeleccionada)
      ensures pedidosCursos == old(pedidosCursos) && pedidosDisponibilidad == old(pedidosDisponibilidad)
      ensures pedidosGuardado == old(pedidosGuardado) && guardados == old(guardados)
    {
      aulasDisponibles := lista;
      pedidosAulas := pedidosAulas - 1;
    }

    /** Picking a classroom; the field exists only in person. */
    method ElegirAula(aula: string)
      requires Valid() && modalidad == Presencial && aula in aulasDisponibles
      modifies this
      ensures Valid()
      ensures aulaSeleccionada == aula
      ensures modalidad == old(modalidad) && cursoSeleccionado == old(cursoSeleccionado)
      ensures filtroCurso == old(filtroCurso) && cursosDisponibles == old(cursosDisponibles)
      ensures diaSeleccionado == old(diaSeleccionado) && diasDisponibles == old(diasDisponibles)
      ensures mapaDisponibilidad == old(mapaDisponibilidad) && horasDisponibles == old(horasDisponibles)
      ensures horasSeleccionadas == old(horasSeleccionadas) && aulasDisponibles == old(aulasDisponibles)
      ensures pedidosCursos == old(pedidosCursos) && pedidosDisponibilidad == old(pedidosDisponibilidad)
      ensures pedidosAulas == old(pedidosAulas) && pedidosGuardado == old(pedidosGuardado)
      ensures guardados == old(guardados)
    {
      aulaSeleccionada := aula;
    }

    /** The enabled save button: the built slot is sent, and its hours are
        the duplicate-free selection within 1..7. */
    method Guardar() returns (horario: Horario)
      requires Valid()
      requires GuardarHabilitado(modalidad, cursoSeleccionado, diaSeleccionado, horasSeleccionadas, aulaSeleccionada)
      modifies this
      ensures Valid()
      ensures horario == ConstruirHorario(old(modalidad), old(cursoSeleccionado).value.0, old(diaSeleccionado),
                                          old(horasSeleccionadas), old(aulaSeleccionada))
      ensures Collections.NoDuplicates(horario.horas) && horario.horas != []
      ensures forall h | h in horario.horas :: 1 <= h <= 7
      ensures guardados == old(guardados) + [horario] && pedidosGuardado == old(pedidosGuardado) + 1
      ensures modalidad == old(modalidad) && cursoSeleccionado == old(cursoSeleccionado)
      ensures filtroCurso == old(filtroCurso) && cursosDisponibles == old(cursosDisponibles)
      ensures diaSeleccionado == old(diaSeleccionado) && diasDisponibles == old(diasDisponibles)
      ensures mapaDisponibilidad == old(mapaDisponibilidad) && horasDisponibles == old(horasDisponibles)
      ensures horasSeleccionadas == old(horasSeleccionadas) && aulaSeleccionada == old(aulaSeleccionada)
      ensures aulasDisponibles == old(aulasDisponibles) && pedidosCursos == old(pedidosCursos)
      ensures pedidosDisponibilidad == old(pedidosDisponibilidad) && pedidosAulas == old(pedidosAulas)
    {
      var curso := cursoSeleccionado.value;
      horario := ConstruirHorario(modalidad, curso.0, diaSeleccionado, horasSeleccionadas, aulaSeleccionada);
      guardados := guardados + [horario];
      pedidosGuardado := pedidosGuardado + 1;
    }

    /** The save result: on success the modality is cleared too and the
        fields are reset; on failure nothing changes. */
    method RecibirGuardado(exito: bool)
      requires Valid() && pedidosGuardado > 0
      modifies this
      ensures Valid()
      ensures pedidosGuardado == old(pedidosGuardado) - 1 && guardados == old(guardados)
      ensures exito ==> modalidad == "" && cursoSeleccionado == None && filtroCurso == ""
                        && diaSeleccionado == "" && horasSeleccionadas == [] && aulaSeleccionada == ""
                        && cursosDisponibles == [] && diasDisponibles == [] && horasDisponibles == TodasHoras
      ensures exito && (old(modalidad) != "" || old(diaSeleccionado) != "" || old(horasSeleccionadas) != []) ==>
                aulasDisponibles == []
      ensures exito && old(modalidad) == "" && old(diaSeleccionado) == "" && old(horasSeleccionadas) == [] ==>
                aulasDisponibles == old(aulasDisponibles)
      ensures !exito ==> modalidad == old(modalidad) && cursoSeleccionado == old(cursoSeleccionado)
                         && filtroCurso == old(filtroCurso) && diaSeleccionado == old(diaSeleccionado)
                         && horasSeleccionadas == old(horasSeleccionadas)
                         && aulaSeleccionada == old(aulaSeleccionada) && cursosDisponibles == old(cursosDisponibles)
                         && diasDisponibles == old(diasDisponibles) && horasDisponibles == old(horasDisponibles)
                         && aulasDisponibles == old(aulasDisponibles)
      ensures mapaDisponibilidad == old(mapaDisponibilidad) && pedidosCursos == old(pedidosCursos)
      ensures pedidosDisponibilidad == old(pedidosDisponibilidad) && pedidosAulas == old(pedidosAulas)
    {
      pedidosGuardado := pedidosGuardado - 1;
      if exito {
        var m0, d0, h0 := modalidad, diaSeleccionado, horasSeleccionadas;
        modalidad := "";
        ResetearCampos();
        if (modalidad, diaSeleccionado, horasSeleccionadas) != (m0, d0, h0) {
          EfectoAulas();
        }
      }
    }
  }

  /** As written, choosing the modality that is already set empties the
      course list and requests nothing: with the first list delivered, the
      form is left with a modality, no courses and no request that could
      bring them back. */
  method ReselectingEmptiesCourses(lista: seq<(int, string)>)
    returns (antes: seq<(int, string)>, despues: seq<(int, string)>, pendientes: nat, modalidad: string)
    requires lista != []
    ensures antes == lista && despues == [] && pendientes == 0 && modalidad == Presencial
  {
    var form := new FormularioHorario();
    form.ElegirModalidadAsWritten(Presencial);
    form.RecibirCursos(lista);
    antes := form.cursosDisponibles;
    form.ElegirModalidadAsWritten(Presencial);
    despues, pendientes, modalidad := form.cursosDisponibles, form.pedidosCursos, form.modalidad;
  }

  /** With the request issued on every choice, the same sequence leaves a
      request outstanding, and its answer restores the course list. */
  method ReselectingRefetchesCourses(lista: seq<(int, string)>)
    returns (pendientes: nat, despues: seq<(int, string)>)
    ensures pendientes == 1 && despues == lista
  {
    var form := new FormularioHorario();
    form.ElegirModalidad(Presencial);
    form.RecibirCursos(lista);
    form.ElegirModalidad(Presencial);
    pendientes := form.pedidosCursos;
    form.RecibirCursos(lista);
    despues := form.cursosDisponibles;
  }
}

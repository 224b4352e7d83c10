/** The clock helpers of auth/LobbyScreen.kt (and their identical copies at
    the end of AsistenciaViewModel.kt): the Spanish name of a
    `Calendar.DAY_OF_WEEK`, the pedagogical block of an hour of the day,
    the inverse day-name mapping, and the `(weekday, hour)` pairs the lobby
    builds from a teacher's slots for the class reminders. The current
    time is an input: a weekday number and an hour of the day. */
module Lobby {
  import opened Wrappers
  import opened Models

  // java.util.Calendar day-of-week constants.
  const Sunday := 1
  const Monday := 2
  const Tuesday := 3
  const Wednesday := 4
  const Thursday := 5
  const Friday := 6
  const Saturday := 7

  const Desconocido := "Desconocido"

  /** `obtenerDiaActual`. */
  function DiaNombre(dia: int): string {
    if dia == Monday then "Lunes"
    else if dia == Tuesday then "Martes"
    else if dia == Wednesday then "Miércoles"
    else if dia == Thursday then "Jueves"
    else if dia == Friday then "Viernes"
    else if dia == Saturday then "Sábado"
    else if dia == Sunday then "Domingo"
    else Desconocido
  }

  /** The `when (horario.dia)` of the reminder loop: the Calendar constant
      of a day name; `None` skips the slot (`continue`). */
  function DiaSemana(nombre: string): Option<int> {
    if nombre == "Lunes" then Some(Monday)
    else if nombre == "Martes" then Some(Tuesday)
    else if nombre == "Miércoles" then Some(Wednesday)
    else if nombre == "Jueves" then Some(Thursday)
    else if nombre == "Viernes" then Some(Friday)
    else if nombre == "Sábado" then Some(Saturday)
    else if nombre == "Domingo" then Some(Sunday)
    else None
  }

  /** The two mappings are inverse: every Calendar day has a name that
      maps back to it, every recognised name maps to a day whose name it
      is, and only the seven names are recognised. */
  lemma DayNamesInverse(dia: int, nombre: string)
    ensures Sunday <= dia <= Saturday ==> DiaSemana(DiaNombre(dia)) == Some(dia)
    ensures DiaSemana(nombre).Some? ==>
              Sunday <= DiaSemana(nombre).value <= Saturday && DiaNombre(DiaSemana(nombre).value) == nombre
    ensures !(Sunday <= dia <= Saturday) ==> DiaNombre(dia) == Desconocido
    ensures DiaSemana(Desconocido) == None
  {
  }

  /** The six slot weekdays are Monday to Saturday, in order. */
  lemma SlotDaysAreWeekdays()
    ensures forall k | 0 <= k < |Dias| :: DiaSemana(Dias[k]) == Some(Monday + k)
  {
  }

  /** `obtenerHoraPedagogicaActual`: hours 8-9 are block 1, 10-11 block 2,
      and so on up to 20-21, block 7; any other hour is -1. */
  function HoraPedagogica(hora: int): int {
    if 8 <= hora <= 9 then 1
    else if 10 <= hora <= 11 then 2
    else if 12 <= hora <= 13 then 3
    else if 14 <= hora <= 15 then 4
    else if 16 <= hora <= 17 then 5
    else if 18 <= hora <= 19 then 6
    else if 20 <= hora <= 21 then 7
    else -1
  }

  /** Each block is exactly two clock hours, `(h - 8) / 2 + 1` for the
      teaching hours 8..21; the blocks run 1..7; outside, -1. */
  lemma HoraPedagogicaMeans(hora: int)
    ensures 8 <= hora <= 21 ==> HoraPedagogica(hora) == (hora - 8) / 2 + 1 && 1 <= HoraPedagogica(hora) <= 7
    ensures !(8 <= hora <= 21) ==> HoraPedagogica(hora) == -1
    ensures forall b | 1 <= b <= 7 :: HoraPedagogica(hora) == b <==> 2 * b + 6 <= hora <= 2 * b + 7
  {
  }

  /** The reminder pairs of one slot: its Calendar day with each of its
      hours, in order. */
  function SlotPairs(h: Horario): seq<(int, int)> {
    match DiaSemana(h.dia)
    case None => []
    case Some(d) => seq(|h.horas|, k requires 0 <= k < |h.horas| => (d, h.horas[k]))
  }

  /** The pairs of a list of slots: slot order, then hour order. */
  function DiasHorasOf(hs: seq<Horario>): seq<(int, int)> {
    if hs == [] then [] else DiasHorasOf(hs[..|hs| - 1]) + SlotPairs(hs[|hs| - 1])
  }

  /** The nested loops that fill `diasHoras`. */
  method DiasHoras(lista: seq<Horario>) returns (diasHoras: seq<(int, int)>)
    ensures diasHoras == DiasHorasOf(lista)
  {
    diasHoras := [];
    for j := 0 to |lista|
      invariant diasHoras == DiasHorasOf(lista[..j])
    {
      var horario := lista[j];
      assert lista[..j + 1][..j] == lista[..j];
      var diaSemana := DiaSemana(horario.dia);
      if diaSemana.Some? {
        ghost var antes := diasHoras;
        for k := 0 to |horario.horas|
          invariant diasHoras == antes + seq(k, m requires 0 <= m < k => (diaSemana.value, horario.horas[m]))
        {
          diasHoras := diasHoras + [(diaSemana.value, horario.horas[k])];
        }
      }
    }
    assert lista[..|lista|] == lista;
  }

  /** One pair per hour of each slot with a recognised day, and a pair is
      listed exactly when some such slot has that day and hour. */
  lemma {:induction false} DiasHorasMeans(hs: seq<Horario>)
    ensures |DiasHorasOf(hs)| == Recognised(hs)
    ensures forall d, x :: (d, x) in DiasHorasOf(hs) <==>
              exists j | 0 <= j < |hs| :: DiaSemana(hs[j].dia) == Some(d) && x in hs[j].horas
  {
    if hs != [] {
      var init := hs[..|hs| - 1];
      var h := hs[|hs| - 1];
      DiasHorasMeans(init);
      forall d, x ensures (d, x) in DiasHorasOf(hs) <==>
                          exists j | 0 <= j < |hs| :: DiaSemana(hs[j].dia) == Some(d) && x in hs[j].horas
      {
        if (d, x) in SlotPairs(h) {
          var k :| 0 <= k < |SlotPairs(h)| && SlotPairs(h)[k] == (d, x);
          assert h.horas[k] == x;
          assert hs[|hs| - 1] == h;
        }
        if DiaSemana(h.dia) == Some(d) && x in h.horas {
          var k :| 0 <= k < |h.horas| && h.horas[k] == x;
          assert SlotPairs(h)[k] == (d, x);
        }
        if exists j | 0 <= j < |init| :: DiaSemana(init[j].dia) == Some(d) && x in init[j].horas {
          var j :| 0 <= j < |init| && DiaSemana(init[j].dia) == Some(d) && x in init[j].horas;
          assert hs[j] == init[j];
        }
        if exists j | 0 <= j < |hs| :: DiaSemana(hs[j].dia) == Some(d) && x in hs[j].horas {
          var j :| 0 <= j < |hs| && DiaSemana(hs[j].dia) == Some(d) && x in hs[j].horas;
          if j < |hs| - 1 {
            assert init[j] == hs[j];
          }
        }
      }
    }
  }

  /** The number of hours of the slots whose day is recognised. */
  function Recognised(hs: seq<Horario>): nat {
    if hs == [] then 0
    else Recognised(hs[..|hs| - 1]) + (if DiaSemana(hs[|hs| - 1].dia).Some? then |hs[|hs| - 1].horas| else 0)
  }
}

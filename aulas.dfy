/** The classroom side of FbViewModel.kt: the generated room catalogue of
    `generarAulasFacultad` and the free-room list of
    `obtenerAulasDisponibles`. */
module Aulas {
  import opened Wrappers
  import opened Models
  import opened Text
  import Collections

  // ---------------------------------------------------------------------
  // generarAulasFacultad
  // ---------------------------------------------------------------------

  lemma ThreeDigitDecimal(n: nat)
    requires 100 <= n < 1000
    ensures Decimal(n) == [DigitChar(n / 100), DigitChar(n / 10 % 10), DigitChar(n % 10)]
  {
    assert Decimal(n / 10) == [DigitChar(n / 100), DigitChar(n / 10 % 10)];
  }

  const Sufijos: seq<string> := ["", "-NP"]
  const Pisos := 3
  const AulasPorPiso := 14

  /** Room `num` of floor `piso` with the given suffix: `"${piso*100+num}$sufijo"`. */
  function Label(piso: nat, num: nat, sufijo: string): string {
    Decimal(piso * 100 + num) + sufijo
  }

  /** The k-th label the nested loops append: suffix-major, then floor,
      then room number. */
  function LabelAt(k: nat): string
    requires k < |Sufijos| * Pisos * AulasPorPiso
  {
    Label(k % 42 / 14 + 1, k % 14 + 1, Sufijos[k / 42])
  }

  function Catalogue(): (c: seq<string>)
    ensures |c| == 84
  {
    seq(84, k requires 0 <= k < 84 => LabelAt(k))
  }

  /** `generarAulasFacultad`, with its three nested loops. */
  method GenerarAulasFacultad() returns (aulas: seq<string>)
    ensures aulas == Catalogue()
  {
    aulas := [];
    var s := 0;
    while s < |Sufijos|
      invariant 0 <= s <= |Sufijos|
      invariant aulas == seq(s * 42, k requires 0 <= k < s * 42 => LabelAt(k))
    {
      var piso := 1;
      while piso <= Pisos
        invariant 1 <= piso <= Pisos + 1
        invariant aulas == seq(s * 42 + (piso - 1) * 14, k requires 0 <= k < s * 42 + (piso - 1) * 14 => LabelAt(k))
      {
        var num := 1;
        while num <= AulasPorPiso
          invariant 1 <= num <= AulasPorPiso + 1
          invariant aulas == seq(s * 42 + (piso - 1) * 14 + num - 1,
                                 k requires 0 <= k < s * 42 + (piso - 1) * 14 + num - 1 => LabelAt(k))
        {
          PartsPosition(s, piso, num);
          aulas := aulas + [Label(piso, num, Sufijos[s])];
          num := num + 1;
        }
        piso := piso + 1;
      }
      s := s + 1;
    }
  }

  /** The catalogue holds exactly the rooms 101..114, 201..214 and
      301..314, each once without a suffix and once with "-NP". */
  lemma CatalogueMembers(a: string)
    ensures a in Catalogue() <==>
              exists piso, num, s | 1 <= piso <= 3 && 1 <= num <= 14 && 0 <= s < 2 :: a == Label(piso, num, Sufijos[s])
  {
    var c := Catalogue();
    if a in c {
      var k :| 0 <= k < 84 && c[k] == a;
      PositionParts(k);
      assert a == Label(k % 42 / 14 + 1, k % 14 + 1, Sufijos[k / 42]);
    }
    if exists piso, num, s | 1 <= piso <= 3 && 1 <= num <= 14 && 0 <= s < 2 :: a == Label(piso, num, Sufijos[s]) {
      var piso, num, s :| 1 <= piso <= 3 && 1 <= num <= 14 && 0 <= s < 2 && a == Label(piso, num, Sufijos[s]);
      var k := s * 42 + (piso - 1) * 14 + num - 1;
      PartsPosition(s, piso, num);
      assert c[k] == LabelAt(k);
    }
  }

  /** The floor, room and suffix of a catalogue position are in range. */
  lemma PositionParts(k: int)
    requires 0 <= k < 84
    ensures 1 <= k % 42 / 14 + 1 <= 3 && 1 <= k % 14 + 1 <= 14 && 0 <= k / 42 < 2
  {
  }

  /** The position of floor `piso`, room `num` and suffix `s` decodes back
      to them. */
  lemma PartsPosition(s: int, piso: int, num: int)
    requires 0 <= s < 2 && 1 <= piso <= 3 && 1 <= num <= 14
    ensures var k := s * 42 + (piso - 1) * 14 + num - 1;
            0 <= k < 84 && k % 42 / 14 + 1 == piso && k % 14 + 1 == num && k / 42 == s
  {
  }

  /** A label spelled out: floor digit, two room digits, suffix. */
  lemma LabelSpelled(piso: nat, num: nat, sufijo: string)
    requires 1 <= piso <= 9 && num < 100
    ensures Label(piso, num, sufijo) == [DigitChar(piso), DigitChar(num / 10), DigitChar(num % 10)] + sufijo
  {
    var n := piso * 100 + num;
    assert n / 100 == piso;
    assert n / 10 % 10 == num / 10;
    assert n % 10 == num % 10;
    ThreeDigitDecimal(n);
  }

  function DigitValue(c: char): int {
    c as int - '0' as int
  }

  /** Reads a catalogue label back to its position: the suffix from the
      length, then floor and room from the three digits. */
  function LabelIndex(l: string): int {
    if |l| < 3 then -1
    else (if |l| == 3 then 0 else 42) + (DigitValue(l[0]) - 1) * 14 + DigitValue(l[1]) * 10 + DigitValue(l[2]) - 1
  }

  lemma LabelAtDecodes(k: nat)
    requires k < 84
    ensures LabelIndex(LabelAt(k)) == k
  {
    var piso, num, s := k % 42 / 14 + 1, k % 14 + 1, k / 42;
    PositionParts(k);
    PositionRebuilt(k);
    LabelSpelled(piso, num, Sufijos[s]);
    var l := LabelAt(k);
    assert DigitValue(l[0]) == piso && DigitValue(l[1]) == num / 10 && DigitValue(l[2]) == num % 10;
    assert |l| == 3 <==> s == 0;
    assert num / 10 * 10 + num % 10 == num;
  }

  lemma PositionRebuilt(k: int)
    requires 0 <= k < 84
    ensures k == k / 42 * 42 + (k % 42 / 14) * 14 + k % 14
  {
    assert k == k / 42 * 42 + k % 42;
    assert k % 42 == k % 42 / 14 * 14 + k % 42 % 14;
    assert k % 42 % 14 == k % 14;
  }

  /** The 84 labels are pairwise distinct. */
  lemma CatalogueDistinct()
    ensures forall i, j | 0 <= i < j < 84 :: Catalogue()[i] != Catalogue()[j]
  {
    forall k | 0 <= k < 84 ensures LabelIndex(Catalogue()[k]) == k {
      LabelAtDecodes(k);
    }
  }

  // ---------------------------------------------------------------------
  // Sorting (`List<String>.sorted()`)
  // ---------------------------------------------------------------------

  predicate SortedStrings(s: seq<string>) {
    forall i, j | 0 <= i < j < |s| :: StrLe(s[i], s[j])
  }

  function Insert(x: string, s: seq<string>): (r: seq<string>)
    ensures multiset(r) == multiset(s) + multiset{x}
  {
    if s == [] then [x]
    else
      assert s == [s[0]] + s[1..];
      if StrLe(x, s[0]) then [x] + s
      else [s[0]] + Insert(x, s[1..])
  }

  function SortStrings(s: seq<string>): (r: seq<string>)
    ensures multiset(r) == multiset(s)
  {
    if s == [] then []
    else
      assert s == [s[0]] + s[1..];
      Insert(s[0], SortStrings(s[1..]))
  }

  lemma {:induction false} InsertSorted(x: string, s: seq<string>)
    requires SortedStrings(s)
    ensures SortedStrings(Insert(x, s))
  {
    if s != [] {
      var r := Insert(x, s);
      if StrLe(x, s[0]) {
        forall j | 1 <= j < |r| ensures StrLe(x, r[j]) {
          if j > 1 { StrLeTransitive(x, s[0], s[j - 1]); }
        }
      } else {
        StrLeTotal(x, s[0]);
        InsertSorted(x, s[1..]);
        var t := Insert(x, s[1..]);
        InsertKeepsLowerBound(x, s[1..], s[0]);
        assert r == [s[0]] + t;
        forall i, j | 0 <= i < j < |r| ensures StrLe(r[i], r[j]) {
          assert r[j] == t[j - 1];
          if i > 0 { assert r[i] == t[i - 1]; }
        }
      }
    }
  }

  /** A lower bound of `x` and of every element of `s` bounds every
      element of `Insert(x, s)`. */
  lemma InsertKeepsLowerBound(x: string, s: seq<string>, y: string)
    requires StrLe(y, x) && forall j | 0 <= j < |s| :: StrLe(y, s[j])
    ensures forall j | 0 <= j < |Insert(x, s)| :: StrLe(y, Insert(x, s)[j])
  {
    var t := Insert(x, s);
    forall j | 0 <= j < |t| ensures StrLe(y, t[j]) {
      assert t[j] in multiset(t);
      if t[j] != x {
        assert t[j] in multiset(s);
        var m :| 0 <= m < |s| && s[m] == t[j];
      }
    }
  }

  /** `sorted()`: the result is ordered and a permutation of the input. */
  lemma {:induction false} SortStringsSorted(s: seq<string>)
    ensures SortedStrings(SortStrings(s))
  {
    if s != [] {
      SortStringsSorted(s[1..]);
      InsertSorted(s[0], SortStrings(s[1..]));
    }
  }

  // ---------------------------------------------------------------------
  // obtenerAulasDisponibles
  // ---------------------------------------------------------------------

  /** A slot occupies its room at the requested time: it has a non-blank
      room, the same day, and shares an hour. */
  predicate Occupies(n: SlotNode, dia: string, horas: seq<int>) {
    n.aula.Some? && !IsBlank(n.aula.value) && n.dia == Some(dia) && SharesHour(n.horas, horas)
  }

  function Usados(slots: seq<SlotNode>, dia: string, horas: seq<int>): set<string> {
    set i | 0 <= i < |slots| && Occupies(slots[i], dia, horas) :: slots[i].aula.value
  }

  /** `list - set`: keeps the order of the elements not in the set. */
  function Without(xs: seq<string>, used: set<string>): (r: seq<string>)
    ensures forall a :: a in r <==> a in xs && a !in used
    ensures multiset(r) <= multiset(xs)
  {
    if xs == [] then []
    else
      assert xs == [xs[0]] + xs[1..];
      (if xs[0] in used then [] else [xs[0]]) + Without(xs[1..], used)
  }

  /** `obtenerAulasDisponibles`: the sorted catalogue minus the occupied
      rooms; the empty list when the slot read fails. */
  function AulasDisponibles(horarios: Fetch<seq<SlotNode>>, dia: string, horas: seq<int>): seq<string> {
    match horarios
    case FetchFailed => []
    case Fetched(slots) => SortStrings(Without(Catalogue(), Usados(slots, dia, horas)))
  }

  /** The free rooms are sorted, listed once each, drawn from the
      catalogue, and are exactly the catalogue rooms no slot on that day
      and hour occupies. */
  lemma AulasDisponiblesMeans(horarios: Fetch<seq<SlotNode>>, dia: string, horas: seq<int>)
    ensures horarios.FetchFailed? ==> AulasDisponibles(horarios, dia, horas) == []
    ensures SortedStrings(AulasDisponibles(horarios, dia, horas))
    ensures forall i, j | 0 <= i < j < |AulasDisponibles(horarios, dia, horas)| ::
              AulasDisponibles(horarios, dia, horas)[i] != AulasDisponibles(horarios, dia, horas)[j]
    ensures horarios.Fetched? ==>
              forall a :: a in AulasDisponibles(horarios, dia, horas) <==>
                a in Catalogue()
                && forall k | 0 <= k < |horarios.snapshot| :: !(Occupies(horarios.snapshot[k], dia, horas) && horarios.snapshot[k].aula == Some(a))
  {
    if horarios.Fetched? {
      var slots := horarios.snapshot;
      var used := Usados(slots, dia, horas);
      var w := Without(Catalogue(), used);
      var r := SortStrings(w);
      SortStringsSorted(w);
      CatalogueDistinct();
      DistinctWithin(r, Catalogue());
      SameMembers(r, w);
    }
  }

  /** A sequence whose elements all come, without repetition, from a
      duplicate-free one has no duplicates either. */
  lemma DistinctWithin(r: seq<string>, c: seq<string>)
    requires multiset(r) <= multiset(c)
    requires forall i, j | 0 <= i < j < |c| :: c[i] != c[j]
    ensures forall i, j | 0 <= i < j < |r| :: r[i] != r[j]
  {
    forall a ensures multiset(r)[a] <= 1 {
      Collections.CountAtMostOne(c, a);
    }
    forall i, j | 0 <= i < j < |r| ensures r[i] != r[j] {
      if r[i] == r[j] {
        Collections.TwoPositionsCount(r, i, j);
      }
    }
  }

  lemma SameMembers(r: seq<string>, w: seq<string>)
    requires multiset(r) == multiset(w)
    ensures forall a :: a in r <==> a in w
  {
    forall a ensures a in r <==> a in w {
      assert a in r <==> a in multiset(r);
      assert a in w <==> a in multiset(w);
    }
  }
}

/** The weekly timetable of auth/VerHorariosScreen.kt: the colour assigned
    to each course section, the grouping of a slot's hours into runs of
    consecutive blocks (`TablaHorario`'s `bloques`), and the row cursor
    that lays out one weekday column of 14 one-hour rows. */
module Timetable {
  import opened Wrappers
  import opened Models
  import Collections

  // ---------------------------------------------------------------------
  // Sorting (`List<Int>.sorted()`)
  // ---------------------------------------------------------------------

  predicate Ascending(s: seq<int>) {
    forall i, j | 0 <= i < j < |s| :: s[i] <= s[j]
  }

  predicate StrictlyAscending(s: seq<int>) {
    forall i, j | 0 <= i < j < |s| :: s[i] < s[j]
  }

  function InsertInt(x: int, s: seq<int>): (r: seq<int>)
    ensures multiset(r) == multiset(s) + multiset{x}
  {
    if s == [] then [x]
    else
      assert s == [s[0]] + s[1..];
      if x <= s[0] then [x] + s
      else [s[0]] + InsertInt(x, s[1..])
  }

  function SortInts(s: seq<int>): (r: seq<int>)
    ensures multiset(r) == multiset(s)
  {
    if s == [] then []
    else
      assert s == [s[0]] + s[1..];
      InsertInt(s[0], SortInts(s[1..]))
  }

  /** Putting a value no larger than the head in front keeps a list
      ascending. */
  lemma ConsAscending(x: int, s: seq<int>)
    requires Ascending(s) && (s == [] || x <= s[0])
    ensures Ascending([x] + s)
  {
    var r := [x] + s;
    forall i, j | 0 <= i < j < |r| ensures r[i] <= r[j] {
      assert r[j] == s[j - 1];
      if i > 0 {
        assert r[i] == s[i - 1];
      }
    }
  }

  lemma {:induction false} InsertIntAscending(x: int, s: seq<int>)
    requires Ascending(s)
    ensures Ascending(InsertInt(x, s))
  {
    if s != [] {
      if x <= s[0] {
        ConsAscending(x, s);
      } else {
        InsertIntAscending(x, s[1..]);
        var t := InsertInt(x, s[1..]);
        assert t[0] in multiset(t);
        if t[0] != x {
          assert t[0] in multiset(s[1..]);
          assert t[0] in s[1..];
        }
        ConsAscending(s[0], t);
      }
    }
  }

  /** `sorted()`: ordered and a permutation of the input. */
  lemma {:induction false} SortIntsAscending(s: seq<int>)
    ensures Ascending(SortInts(s))
  {
    if s != [] {
      SortIntsAscending(s[1..]);
      InsertIntAscending(s[0], SortInts(s[1..]));
    }
  }

  /** Sorting duplicate-free hours gives a strictly ascending list with the
      same elements. */
  lemma SortedHours(horas: seq<int>)
    requires Collections.NoDuplicates(horas)
    ensures StrictlyAscending(SortInts(horas))
    ensures forall h :: h in SortInts(horas) <==> h in horas
  {
    var s := SortInts(horas);
    SortIntsAscending(horas);
    Collections.PermutationKeepsNoDuplicates(horas, s);
    forall h ensures h in s <==> h in horas {
      assert h in s <==> h in multiset(s);
      assert h in horas <==> h in multiset(horas);
    }
  }

  // ---------------------------------------------------------------------
  // Runs of consecutive hours
  // ---------------------------------------------------------------------

  /** The runs the loop closes from index `i` on, with the open run
      `inicio..fin`: an hour one past `fin` extends the run, any other hour
      closes it and opens a new one. */
  function RunsFrom(s: seq<int>, i: nat, inicio: int, fin: int): seq<(int, int)>
    requires i <= |s|
    decreases |s| - i
  {
    if i == |s| then [(inicio, fin)]
    else if s[i] == fin + 1 then RunsFrom(s, i + 1, inicio, s[i])
    else [(inicio, fin)] + RunsFrom(s, i + 1, s[i], s[i])
  }

  /** The runs of a sorted hour list; none for an empty list. */
  function Runs(s: seq<int>): seq<(int, int)> {
    if s == [] then [] else RunsFrom(s, 1, s[0], s[0])
  }

  /** The inner loop of `TablaHorario` for one slot. */
  method GroupRuns(horas: seq<int>) returns (runs: seq<(int, int)>)
    ensures runs == Runs(SortInts(horas))
  {
    var s := SortInts(horas);
    if |s| == 0 {
      return [];
    }
    var inicio, fin := s[0], s[0];
    runs := [];
    for i := 1 to |s|
      invariant runs + RunsFrom(s, i, inicio, fin) == Runs(s)
    {
      if s[i] == fin + 1 {
        fin := s[i];
      } else {
        runs := runs + [(inicio, fin)];
        inicio := s[i];
        fin := s[i];
      }
    }
    runs := runs + [(inicio, fin)];
  }

  predicate InRun(r: (int, int), h: int) {
    r.0 <= h <= r.1
  }

  /** Hour `h` lies in one of the runs. */
  predicate Covered(runs: seq<(int, int)>, h: int) {
    exists k | 0 <= k < |runs| :: InRun(runs[k], h)
  }

  /** Every run is non-empty, and each ends at least two before the next
      one starts: consecutive runs neither overlap nor touch. */
  predicate Separated(runs: seq<(int, int)>) {
    (forall k | 0 <= k < |runs| :: runs[k].0 <= runs[k].1)
    && forall k | 0 <= k < |runs| - 1 :: runs[k].1 + 1 < runs[k + 1].0
  }

  /** Every run has its start before its end, whatever the input. */
  lemma {:induction false} RunsFromOrdered(s: seq<int>, i: nat, inicio: int, fin: int)
    requires i <= |s| && inicio <= fin
    ensures forall k | 0 <= k < |RunsFrom(s, i, inicio, fin)| ::
              RunsFrom(s, i, inicio, fin)[k].0 <= RunsFrom(s, i, inicio, fin)[k].1
    decreases |s| - i
  {
    if i < |s| {
      if s[i] == fin + 1 {
        RunsFromOrdered(s, i + 1, inicio, s[i]);
      } else {
        RunsFromOrdered(s, i + 1, s[i], s[i]);
      }
    }
  }

  lemma {:induction false} RunsFromMeans(s: seq<int>, i: nat, inicio: int, fin: int)
    requires StrictlyAscending(s) && 1 <= i <= |s| && inicio <= fin == s[i - 1]
    ensures var r := RunsFrom(s, i, inicio, fin);
            |r| >= 1 && r[0].0 == inicio && Separated(r)
            && forall h :: Covered(r, h) <==> (inicio <= h <= fin || h in s[i..])
    decreases |s| - i
  {
    var r := RunsFrom(s, i, inicio, fin);
    if i == |s| {
      forall h ensures Covered(r, h) <==> inicio <= h <= fin {
        if inicio <= h <= fin {
          assert InRun(r[0], h);
        }
      }
    } else {
      assert s[i..] == [s[i]] + s[i + 1..];
      if s[i] == fin + 1 {
        RunsFromMeans(s, i + 1, inicio, s[i]);
      } else {
        RunsFromMeans(s, i + 1, s[i], s[i]);
        var t := RunsFrom(s, i + 1, s[i], s[i]);
        assert r == [(inicio, fin)] + t;
        forall h ensures Covered(r, h) <==> (inicio <= h <= fin || Covered(t, h)) {
          if Covered(r, h) {
            var k :| 0 <= k < |r| && InRun(r[k], h);
            if k > 0 {
              assert InRun(t[k - 1], h);
            }
          }
          if Covered(t, h) {
            var k :| 0 <= k < |t| && InRun(t[k], h);
            assert InRun(r[k + 1], h);
          }
          if inicio <= h <= fin {
            assert InRun(r[0], h);
          }
        }
      }
    }
  }

  /** For strictly ascending hours, the runs are separated (so pairwise
      disjoint and maximal) and together cover exactly the hours. */
  lemma RunsMeans(s: seq<int>)
    requires StrictlyAscending(s)
    ensures Separated(Runs(s))
    ensures forall h :: Covered(Runs(s), h) <==> h in s
  {
    if s != [] {
      RunsFromMeans(s, 1, s[0], s[0]);
      assert s == [s[0]] + s[1..];
    }
  }

  /** Separated runs are pairwise disjoint, in ascending order. */
  lemma {:induction false} SeparatedDisjoint(runs: seq<(int, int)>, k: int, l: int)
    requires Separated(runs) && 0 <= k < l < |runs|
    ensures runs[k].1 + 1 < runs[l].0
    decreases l - k
  {
    if l > k + 1 {
      SeparatedDisjoint(runs, k, l - 1);
    }
  }

  /** A slot with duplicate-free hours is split into maximal runs of
      consecutive hours, ascending, pairwise disjoint, whose union is the
      slot's hour set. */
  lemma SlotRuns(horas: seq<int>)
    requires Collections.NoDuplicates(horas)
    ensures var runs := Runs(SortInts(horas));
            Separated(runs)
            && (forall k, l | 0 <= k < l < |runs| :: runs[k].1 + 1 < runs[l].0)
            && forall h :: Covered(runs, h) <==> h in horas
  {
    SortedHours(horas);
    var runs := Runs(SortInts(horas));
    RunsMeans(SortInts(horas));
    forall k, l | 0 <= k < l < |runs| ensures runs[k].1 + 1 < runs[l].0 {
      SeparatedDisjoint(runs, k, l);
    }
  }

  // ---------------------------------------------------------------------
  // Blocks per weekday
  // ---------------------------------------------------------------------

  /** `Triple(inicio, fin, horario)`. */
  datatype Block = Block(inicio: int, fin: int, horario: Horario)

  /** `bloques[dia]?.add(Triple(inicio, fin, horario))` for each run. */
  function BlocksOf(runs: seq<(int, int)>, h: Horario): seq<Block> {
    seq(|runs|, k requires 0 <= k < |runs| => Block(runs[k].0, runs[k].1, h))
  }

  function SlotBlocks(h: Horario): seq<Block> {
    BlocksOf(Runs(SortInts(h.horas)), h)
  }

  /** The blocks of weekday `d`, slot by slot in list order. */
  function DayBlocks(hs: seq<Horario>, d: string): seq<Block> {
    if hs == [] then []
    else
      var h := hs[|hs| - 1];
      DayBlocks(hs[..|hs| - 1], d) + (if h.dia == d then SlotBlocks(h) else [])
  }

  /** `bloques` after the outer loop: one list per weekday label. */
  function Bloques(hs: seq<Horario>): map<string, seq<Block>> {
    map d | d in Dias :: DayBlocks(hs, d)
  }

  /** Appending a slot extends the list of its day, if its day has one. */
  lemma BloquesSnoc(hs: seq<Horario>, h: Horario)
    ensures h.dia in Dias ==> Bloques(hs + [h]) == Bloques(hs)[h.dia := Bloques(hs)[h.dia] + SlotBlocks(h)]
    ensures h.dia !in Dias ==> Bloques(hs + [h]) == Bloques(hs)
    ensures h.dia in Bloques(hs) <==> h.dia in Dias
  {
    var hs' := hs + [h];
    assert hs'[..|hs'| - 1] == hs;
    forall d | d in Dias
      ensures DayBlocks(hs', d) == DayBlocks(hs, d) + (if h.dia == d then SlotBlocks(h) else [])
    {
    }
    if h.dia in Dias {
      var m := Bloques(hs)[h.dia := Bloques(hs)[h.dia] + SlotBlocks(h)];
      assert forall d :: d in m <==> d in Dias;
      assert forall d | d in m :: m[d] == DayBlocks(hs', d);
    } else {
      assert forall d | d in Dias :: DayBlocks(hs', d) == DayBlocks(hs, d);
    }
  }

  /** The outer loop of `TablaHorario`: slots of a day outside the six
      weekday labels have no list and are skipped. */
  method AgruparBloques(horarios: seq<Horario>) returns (bloques: map<string, seq<Block>>)
    ensures bloques == Bloques(horarios)
  {
    bloques := map d | d in Dias :: [];
    assert bloques == Bloques([]);
    for j := 0 to |horarios|
      invariant bloques == Bloques(horarios[..j])
    {
      var horario := horarios[j];
      var runs := GroupRuns(horario.horas);
      assert horarios[..j + 1] == horarios[..j] + [horario];
      BloquesSnoc(horarios[..j], horario);
      if horario.dia in bloques {
        bloques := bloques[horario.dia := bloques[horario.dia] + BlocksOf(runs, horario)];
      }
    }
    assert horarios[..|horarios|] == horarios;
  }

  /** A block belongs to a slot: it is one of the runs of its hours. */
  predicate RunOf(b: Block) {
    (b.inicio, b.fin) in Runs(SortInts(b.horario.horas))
  }

  lemma SlotBlocksMeans(h: Horario, b: Block)
    ensures b in SlotBlocks(h) <==> b.horario == h && RunOf(b)
  {
    var runs := Runs(SortInts(h.horas));
    if b.horario == h && RunOf(b) {
      var k :| 0 <= k < |runs| && runs[k] == (b.inicio, b.fin);
      assert SlotBlocks(h)[k] == b;
    }
  }

  lemma {:induction false} DayBlocksMeans(hs: seq<Horario>, d: string, b: Block)
    ensures b in DayBlocks(hs, d) <==> b.horario in hs && b.horario.dia == d && RunOf(b)
  {
    if hs != [] {
      var init := hs[..|hs| - 1];
      DayBlocksMeans(init, d, b);
      SlotBlocksMeans(hs[|hs| - 1], b);
      assert hs == init + [hs[|hs| - 1]];
    }
  }

  /** The block table has exactly the six weekday keys; a block listed
      under a day is a run of a slot on that day, and every run of every
      slot on a weekday is listed under it. A slot with no hours or a day
      outside the six labels contributes nothing. Every block starts no
      later than it ends. */
  lemma BloquesMeans(hs: seq<Horario>)
    ensures forall d :: d in Bloques(hs) <==> d in Dias
    ensures forall d, b | d in Dias ::
              b in Bloques(hs)[d] <==> b.horario in hs && b.horario.dia == d && RunOf(b)
    ensures forall d, b | d in Dias && b in Bloques(hs)[d] :: b.inicio <= b.fin
  {
    forall d, b | d in Dias
      ensures b in Bloques(hs)[d] <==> b.horario in hs && b.horario.dia == d && RunOf(b)
    {
      DayBlocksMeans(hs, d, b);
    }
    forall d, b | d in Dias && b in Bloques(hs)[d] ensures b.inicio <= b.fin {
      DayBlocksMeans(hs, d, b);
      var s := SortInts(b.horario.horas);
      if s != [] {
        RunsFromOrdered(s, 1, s[0], s[0]);
      }
    }
  }

  // ---------------------------------------------------------------------
  // The row cursor
  // ---------------------------------------------------------------------

  /** One drawn cell of a weekday column: a block starting at row `fila`,
      or an empty one-hour row. */
  datatype Cell = Drawn(fila: int, block: Block) | Blank(fila: int)

  /** `b` is the block at position `k` of the list, it starts at `hora`,
      and no earlier block of the list does. */
  predicate FirstStartingAt(blocks: seq<Block>, hora: int, b: Block, k: int) {
    0 <= k < |blocks| && blocks[k] == b && b.inicio == hora
    && forall m | 0 <= m < k :: blocks[m].inicio != hora
  }

  /** `b` is the first block of the list that starts at `hora`. */
  predicate IsFirstStart(blocks: seq<Block>, hora: int, b: Block) {
    exists k | 0 <= k < |blocks| :: FirstStartingAt(blocks, hora, b, k)
  }

  /** `find { it.first == hora }`: the first block starting at `hora`. */
  function Find(blocks: seq<Block>, hora: int): (r: Option<Block>)
    ensures r.Some? ==> IsFirstStart(blocks, hora, r.value)
    ensures r.None? ==> forall b | b in blocks :: b.inicio != hora
  {
    if blocks == [] then None
    else if blocks[0].inicio == hora then
      assert FirstStartingAt(blocks, hora, blocks[0], 0);
      Some(blocks[0])
    else
      var r := Find(blocks[1..], hora);
      if r.Some? then
        var k :| FirstStartingAt(blocks[1..], hora, r.value, k);
        assert FirstStartingAt(blocks, hora, r.value, k + 1);
        r
      else r
  }

  /** Rows a block takes: two per pedagogical hour. */
  function Span(b: Block): int {
    2 * (b.fin - b.inicio + 1)
  }

  function CellSpan(c: Cell): int {
    if c.Drawn? then Span(c.block) else 1
  }

  predicate Ordered(blocks: seq<Block>) {
    forall b | b in blocks :: b.inicio <= b.fin
  }

  /** The cells the `while (fila <= 14)` loop draws from row `fila` on. */
  function Layout(blocks: seq<Block>, fila: int): seq<Cell>
    requires Ordered(blocks)
    decreases 15 - fila
  {
    if fila > 14 then []
    else
      match Find(blocks, (fila + 1) / 2)
      case Some(b) => [Drawn(fila, b)] + Layout(blocks, fila + Span(b))
      case None => [Blank(fila)] + Layout(blocks, fila + 1)
  }

  /** The column loop. It ends because every block spans at least two
      rows. */
  method DibujarColumna(blocks: seq<Block>) returns (cells: seq<Cell>)
    requires Ordered(blocks)
    ensures cells == Layout(blocks, 1)
  {
    cells := [];
    var fila := 1;
    while fila <= 14
      invariant cells + Layout(blocks, fila) == Layout(blocks, 1)
      decreases 15 - fila
    {
      var bloque := Find(blocks, (fila + 1) / 2);
      if bloque.Some? {
        cells := cells + [Drawn(fila, bloque.value)];
        fila := fila + Span(bloque.value);
      } else {
        cells := cells + [Blank(fila)];
        fila := fila + 1;
      }
    }
  }

  /** The layout tiles rows `fila`..14: the first cell starts at `fila`,
      each cell starts where the previous one ends, and the last one
      reaches past row 14. A drawn cell shows the first block of the day's
      list that starts at the cell's pedagogical hour; a blank row is left
      only where no block of the day starts at that hour. */
  lemma LayoutMeans(blocks: seq<Block>, fila: int)
    requires Ordered(blocks) && 1 <= fila <= 14
    ensures var cells := Layout(blocks, fila);
            && |cells| >= 1 && cells[0].fila == fila
            && (forall k | 0 <= k < |cells| - 1 :: cells[k + 1].fila == cells[k].fila + CellSpan(cells[k]))
            && cells[|cells| - 1].fila <= 14 < cells[|cells| - 1].fila + CellSpan(cells[|cells| - 1])
            && (forall k | 0 <= k < |cells| && cells[k].Drawn? ::
                  IsFirstStart(blocks, (cells[k].fila + 1) / 2, cells[k].block))
            && (forall k | 0 <= k < |cells| && cells[k].Blank? ::
                  forall b | b in blocks :: b.inicio != (cells[k].fila + 1) / 2)
  {
    LayoutTiles(blocks, fila);
    LayoutCells(blocks, fila);
  }

  /** The tiling half of `LayoutMeans`. */
  lemma {:induction false} LayoutTiles(blocks: seq<Block>, fila: int)
    requires Ordered(blocks) && 1 <= fila <= 14
    ensures var cells := Layout(blocks, fila);
            && |cells| >= 1 && cells[0].fila == fila
            && (forall k | 0 <= k < |cells| - 1 :: cells[k + 1].fila == cells[k].fila + CellSpan(cells[k]))
            && cells[|cells| - 1].fila <= 14 < cells[|cells| - 1].fila + CellSpan(cells[|cells| - 1])
    decreases 15 - fila
  {
    var cells := Layout(blocks, fila);
    var hit := Find(blocks, (fila + 1) / 2);
    var c := if hit.Some? then Drawn(fila, hit.value) else Blank(fila);
    var next := fila + CellSpan(c);
    var rest := Layout(blocks, next);
    assert cells == [c] + rest;
    if next <= 14 {
      LayoutTiles(blocks, next);
      assert forall k | 1 <= k < |cells| :: cells[k] == rest[k - 1];
    } else {
      assert rest == [];
    }
  }

  /** A drawn cell shows the first block starting at its hour; a blank
      one stands where no block starts. */
  predicate CellShows(blocks: seq<Block>, c: Cell) {
    && (c.Drawn? ==> IsFirstStart(blocks, (c.fila + 1) / 2, c.block))
    && (c.Blank? ==> forall b | b in blocks :: b.inicio != (c.fila + 1) / 2)
  }

  /** The contents half of `LayoutMeans`. */
  lemma {:induction false} LayoutCells(blocks: seq<Block>, fila: int)
    requires Ordered(blocks)
    ensures forall k | 0 <= k < |Layout(blocks, fila)| :: CellShows(blocks, Layout(blocks, fila)[k])
    decreases 15 - fila
  {
    if fila <= 14 {
      var cells := Layout(blocks, fila);
      var hit := Find(blocks, (fila + 1) / 2);
      var c := if hit.Some? then Drawn(fila, hit.value) else Blank(fila);
      var rest := Layout(blocks, fila + CellSpan(c));
      assert cells == [c] + rest;
      LayoutCells(blocks, fila + CellSpan(c));
      assert CellShows(blocks, c);
      forall k | 1 <= k < |cells| ensures CellShows(blocks, cells[k]) {
        assert cells[k] == rest[k - 1];
      }
    }
  }

  /** A day with no blocks is drawn as 14 empty rows. */
  lemma EmptyDay()
    ensures Layout([], 1) == seq(14, k requires 0 <= k < 14 => Blank(k + 1))
  {
    EmptyRowsFrom(1);
  }

  lemma {:induction false} EmptyRowsFrom(fila: int)
    requires 1 <= fila <= 15
    ensures Layout([], fila) == seq(15 - fila, k requires 0 <= k < 15 - fila => Blank(fila + k))
    decreases 15 - fila
  {
    if fila <= 14 {
      EmptyRowsFrom(fila + 1);
    }
  }

  /** `cells` is the column drawn for `blocks`. */
  predicate DrawnColumn(cells: seq<Cell>, blocks: seq<Block>) {
    Ordered(blocks) && cells == Layout(blocks, 1)
  }

  /** Every weekday's blocks can be drawn. */
  lemma DayOrdered(hs: seq<Horario>, d: string)
    requires d in Dias
    ensures d in Bloques(hs) && Ordered(Bloques(hs)[d])
  {
    BloquesMeans(hs);
  }

  /** `TablaHorario`: the block table, then one column per weekday. */
  method TablaHorario(horarios: seq<Horario>) returns (columnas: seq<seq<Cell>>)
    ensures |columnas| == |Dias|
    ensures forall k | 0 <= k < |Dias| :: DrawnColumn(columnas[k], Bloques(horarios)[Dias[k]])
  {
    var bloques := AgruparBloques(horarios);
    columnas := [];
    for k := 0 to |Dias|
      invariant |columnas| == k
      invariant forall m | 0 <= m < k :: DrawnColumn(columnas[m], bloques[Dias[m]])
    {
      DayOrdered(horarios, Dias[k]);
      var columna := DibujarColumna(bloques[Dias[k]]);
      columnas := columnas + [columna];
    }
  }

  // ---------------------------------------------------------------------
  // Colours per course section
  // ---------------------------------------------------------------------

  const NumColores := 7

  function Pairs(hs: seq<Horario>): seq<(int, int)> {
    seq(|hs|, i requires 0 <= i < |hs| => (hs[i].idCurso, hs[i].grupo))
  }

  /** The colour-map key of a (course, section) pair. */
  function Clave(p: (int, int)): int {
    p.0 * 100 + p.1
  }

  /** The colour map after the first `|ps|` pairs: pair `i` sets its key to
      colour `i mod 7`, later pairs overwriting earlier ones. */
  function Colores(ps: seq<(int, int)>): map<int, int> {
    if ps == [] then map[]
    else Colores(ps[..|ps| - 1])[Clave(ps[|ps| - 1]) := (|ps| - 1) % NumColores]
  }

  /** The `forEachIndexed` loop over the distinct pairs. */
  method AsignarColores(horarios: seq<Horario>) returns (colores: map<int, int>)
    ensures colores == Colores(Collections.Distinct(Pairs(horarios)))
  {
    var claves := Collections.Distinct(Pairs(horarios));
    colores := map[];
    for i := 0 to |claves|
      invariant colores == Colores(claves[..i])
    {
      assert claves[..i + 1][..i] == claves[..i];
      colores := colores[Clave(claves[i]) := i % NumColores];
    }
    assert claves[..|claves|] == claves;
  }

  /** The keys are those of the pairs; each value is a palette index; a
      pair whose key no later pair shares keeps the colour of its position. */
  lemma {:induction false} ColoresMeans(ps: seq<(int, int)>)
    ensures forall c :: c in Colores(ps) <==> exists i | 0 <= i < |ps| :: Clave(ps[i]) == c
    ensures forall c | c in Colores(ps) :: 0 <= Colores(ps)[c] < NumColores
    ensures forall i | 0 <= i < |ps| && (forall j | i < j < |ps| :: Clave(ps[j]) != Clave(ps[i])) ::
              Colores(ps)[Clave(ps[i])] == i % NumColores
  {
    if ps != [] {
      var init := ps[..|ps| - 1];
      ColoresMeans(init);
      forall c ensures c in Colores(ps) <==> exists i | 0 <= i < |ps| :: Clave(ps[i]) == c {
        if c in Colores(init) {
          var i :| 0 <= i < |init| && Clave(init[i]) == c;
          assert ps[i] == init[i];
        }
        if exists i | 0 <= i < |ps| :: Clave(ps[i]) == c {
          var i :| 0 <= i < |ps| && Clave(ps[i]) == c;
          if i < |ps| - 1 {
            assert init[i] == ps[i];
          }
        }
      }
      forall i | 0 <= i < |ps| && (forall j | i < j < |ps| :: Clave(ps[j]) != Clave(ps[i]))
        ensures Colores(ps)[Clave(ps[i])] == i % NumColores
      {
        if i < |ps| - 1 {
          assert init[i] == ps[i];
          assert forall j | i < j < |init| :: init[j] == ps[j];
        }
      }
    }
  }

  /** Keys of pairs with a section number below 100 identify the pair. */
  lemma ClaveInjective(p: (int, int), q: (int, int))
    requires 0 <= p.1 < 100 && 0 <= q.1 < 100
    ensures Clave(p) == Clave(q) ==> p == q
  {
    if Clave(p) == Clave(q) {
      assert (p.0 - q.0) * 100 == q.1 - p.1;
    }
  }

  /** With section numbers in 0..99, the i-th distinct (course, section)
      pair, in order of first appearance, gets colour `i mod 7`, and every
      section shown has a colour. */
  lemma ColoursByPosition(horarios: seq<Horario>)
    requires forall h | h in horarios :: 0 <= h.grupo < 100
    ensures var d := Collections.Distinct(Pairs(horarios));
            && (forall i | 0 <= i < |d| :: Clave(d[i]) in Colores(d) && Colores(d)[Clave(d[i])] == i % NumColores)
            && forall h | h in horarios :: Clave((h.idCurso, h.grupo)) in Colores(d)
  {
    var ps := Pairs(horarios);
    var d := Collections.Distinct(ps);
    ColoresMeans(d);
    forall p | p in d ensures 0 <= p.1 < 100 {
      var i :| 0 <= i < |ps| && ps[i] == p;
      assert horarios[i] in horarios;
    }
    forall i, j | 0 <= i < j < |d| ensures Clave(d[j]) != Clave(d[i]) {
      ClaveInjective(d[i], d[j]);
    }
    forall h | h in horarios ensures Clave((h.idCurso, h.grupo)) in Colores(d) {
      var i :| 0 <= i < |horarios| && horarios[i] == h;
      assert ps[i] == (h.idCurso, h.grupo);
      assert ps[i] in d;
      var k :| 0 <= k < |d| && d[k] == ps[i];
      assert Clave(d[k]) == Clave((h.idCurso, h.grupo));
    }
  }
}

/** The printer: turns the rows of a matrix into the CSX byte stream.

    The ghost field `units` is the list of units written so far; `Valid` says the
    bytes are exactly those units.  `MakeCsx` promises that the units visit the
    cells of the matrix in order and that the values follow in the same order. */
module CsxPrinter {
  import opened Orders
  import opened Matrix
  import opened Products
  import opened Seqs
  import opened RowCodec
  import opened MatrixCodec
  import Reorder
  import opened SpmMatrix
  import opened Encoding
  import opened Ctl

  datatype PatInfo = PatInfo(flag: nat, npatterns: nat, nr: nat)

  datatype Option<+T> = None | Some(value: T)

  /** The finished matrix.  `table` is the dispatch table that the generated code
      is built from: which pattern each flag stands for. */
  datatype Csx = Csx(nnz: nat, nrows: nat, rowStart: nat, ctl: seq<byte>, values: seq<real>,
                     full: bool, rowJmps: bool, table: map<nat, int>)

  // ----- What may be printed

  function PatternParam(p: Pattern): nat {
    match p
    case DeltaRLE(_, delta, _) => delta
    case BlockRLE(_, otherDim, _) => otherDim
  }

  function PatternId(p: Pattern): int {
    p.order.Code() * PID_OFFSET + PatternParam(p)
  }

  /** The printer's own assertions: unit size, pattern parameter, column deltas. */
  ghost predicate PrintableRow(full: bool, row: seq<Elem>) {
    && (forall e :: e in row && e.Pat? ==> e.p.size <= SIZE_MAX && PatternParam(e.p) < PID_OFFSET)
    && (forall j :: 0 < j < |row| ==> row[j].x - row[j - 1].x < 0x1_0000_0000)
    && (full ==> forall e :: e in row ==> e.x <= 0x1_0000_0000)
  }

  // ----- Places and values of cells

  function Ats(es: seq<Entry>): (r: seq<Coord>)
    ensures |r| == |es| && forall i {:trigger r[i]} :: 0 <= i < |es| ==> r[i] == es[i].at
  {
    seq(|es|, i requires 0 <= i < |es| => es[i].at)
  }

  function Vals(es: seq<Entry>): (r: seq<real>)
    ensures |r| == |es| && forall i {:trigger r[i]} :: 0 <= i < |es| ==> r[i] == es[i].val
  {
    seq(|es|, i requires 0 <= i < |es| => es[i].val)
  }

  lemma AtsConcat(a: seq<Entry>, b: seq<Entry>)
    ensures Ats(a + b) == Ats(a) + Ats(b) && Vals(a + b) == Vals(a) + Vals(b)
  {
  }

  /** Columns of one row as cells. */
  function ColumnsAt(row: int, xs: seq<int>): (r: seq<Coord>)
    ensures |r| == |xs| && forall i {:trigger r[i]} :: 0 <= i < |xs| ==> r[i] == Coord(row + 1, xs[i])
  {
    seq(|xs|, i requires 0 <= i < |xs| => Coord(row + 1, xs[i]))
  }

  // ----- Delta units

  /** Differences of a stretch, the first from x0. */
  ghost predicate DiffsOf(xs: seq<int>, x0: int, ds: seq<nat>) {
    && |ds| == |xs|
    && forall i {:trigger ds[i]} :: 0 <= i < |xs| ==> ds[i] == xs[i] - (if i == 0 then x0 else xs[i - 1])
  }

  method DeltaEncodeFrom(xs: seq<int>, x0: int) returns (ds: seq<nat>)
    requires Increasing(xs) && (xs != [] ==> x0 <= xs[0])
    ensures DiffsOf(xs, x0, ds)
  {
    ds := [];
    var prev := x0;
    var i := 0;
    while i < |xs|
      invariant 0 <= i <= |xs| && |ds| == i
      invariant prev == if i == 0 then x0 else xs[i - 1]
      invariant forall j :: 0 <= j < i ==> ds[j] == xs[j] - (if j == 0 then x0 else xs[j - 1])
    {
      ds := ds + [xs[i] - prev];
      prev := xs[i];
      i := i + 1;
    }
  }

  method MaxElement(ds: seq<nat>) returns (max: nat)
    ensures forall i :: 0 <= i < |ds| ==> ds[i] <= max
    ensures max == 0 || max in ds
  {
    max := 0;
    var i := 0;
    while i < |ds|
      invariant 0 <= i <= |ds|
      invariant forall j :: 0 <= j < i ==> ds[j] <= max
      invariant max == 0 || max in ds
    {
      if ds[i] > max {
        max := ds[i];
      }
      i := i + 1;
    }
  }

  lemma {:induction false} DiffSum(xs: seq<int>, x0: int, ds: seq<nat>, k: nat)
    requires DiffsOf(xs, x0, ds) && k < |xs|
    ensures SumOf(ds[1..k + 1]) == xs[k] - xs[0]
  {
    if k == 0 {
      assert ds[1..1] == [];
    } else {
      DiffSum(xs, x0, ds, k - 1);
      assert ds[1..k + 1][..k - 1] == ds[1..k];
    }
  }

  /** A delta unit visits exactly the columns it was made from. */
  lemma {:induction false} DeltaPlacesAre(row: int, xs: seq<int>, x0: int, ds: seq<nat>, k: nat)
    requires DiffsOf(xs, x0, ds) && k < |xs|
    ensures DeltaPlaces(row, xs[0] - 1, ds[1..k + 1]) == ColumnsAt(row, xs[..k + 1])
  {
    if k == 0 {
      assert ds[1..1] == [];
    } else {
      DeltaPlacesAre(row, xs, x0, ds, k - 1);
      DiffSum(xs, x0, ds, k);
      assert ds[1..k + 1][..k - 1] == ds[1..k];
      assert ColumnsAt(row, xs[..k + 1]) == ColumnsAt(row, xs[..k]) + [Coord(row + 1, xs[k])];
    }
  }

  // ----- The ids of a matrix

  /** The widest step between neighbours. */
  function WidestStep(xs: seq<int>): (r: nat) {
    if |xs| <= 1 then 0
    else
      var n := |xs| - 1;
      var rest, step := WidestStep(xs[..n]), xs[n] - xs[n - 1];
      if step > rest then step else rest
  }

  /** The id of the delta unit of a stretch: 8 times the bytes of its widest step. */
  function StretchId(xs: seq<int>): int {
    8 * DeltaBytes(WidestStep(xs))
  }

  /** Every step between neighbours fits w bytes. */
  predicate StepsFit(xs: seq<int>, w: nat) {
    forall j :: 0 < j < |xs| ==> xs[j] - xs[j - 1] < Pow256(w)
  }

  /** The id stands for the narrowest of the widths 1, 2 and 4 that every step fits. */
  predicate Narrowest(xs: seq<int>, id: int) {
    id in {8, 16, 32} && StepsFit(xs, id / 8) && forall w: nat :: w < id / 8 && w in {1, 2, 4} ==> !StepsFit(xs, w)
  }

  /** No step is wider, and one is as wide. */
  ghost predicate IsWidest(xs: seq<int>, m: nat) {
    && (forall j :: 0 < j < |xs| ==> Step(xs, j) <= m)
    && (m > 0 ==> exists j :: 0 < j < |xs| && Step(xs, j) == m)
  }

  function Step(xs: seq<int>, j: nat): int
    requires 0 < j < |xs|
  {
    xs[j] - xs[j - 1]
  }

  lemma {:induction false} WidestIs(xs: seq<int>)
    ensures IsWidest(xs, WidestStep(xs))
  {
    hide IsWidest;
    if |xs| > 1 {
      WidestIs(xs[..|xs| - 1]);
      WidestMore(xs, WidestStep(xs[..|xs| - 1]));
    } else {
      NoStep(xs);
    }
  }

  lemma NoStep(xs: seq<int>)
    requires |xs| <= 1
    ensures IsWidest(xs, 0)
  {
  }

  lemma WidestMore(xs: seq<int>, m: nat)
    requires |xs| > 1 && IsWidest(xs[..|xs| - 1], m)
    ensures var step := xs[|xs| - 1] - xs[|xs| - 2]; IsWidest(xs, if step > m then step else m)
  {
    var n := |xs| - 1;
    SameSteps(xs, n);
    assert Step(xs, n) == xs[n] - xs[n - 1];
    hide Step;
    if Step(xs, n) <= m && m > 0 {
      var j :| 0 < j < n && Step(xs[..n], j) == m;
      assert Step(xs, j) == m;
    }
  }

  lemma SameSteps(xs: seq<int>, n: nat)
    requires n <= |xs|
    ensures forall j {:trigger Step(xs, j)} {:trigger Step(xs[..n], j)} :: 0 < j < n ==> Step(xs[..n], j) == Step(xs, j)
  {
  }

  lemma StretchIdNarrowest(xs: seq<int>)
    requires forall j :: 0 < j < |xs| ==> xs[j] - xs[j - 1] < 0x1_0000_0000
    ensures Narrowest(xs, StretchId(xs))
  {
    hide IsWidest, Pow256, WidestStep, DeltaBytes, StepsFit;
    var m := WidestStep(xs);
    WidestIs(xs);
    WidestBelow(xs, m, 0x1_0000_0000);
    DeltaBytesFit(m);
    WidestFits(xs, m, DeltaBytes(m));
    forall w: nat | w < DeltaBytes(m) && w in {1, 2, 4}
      ensures !StepsFit(xs, w)
    {
      WidestFits(xs, m, w);
    }
  }

  lemma WidestBelow(xs: seq<int>, m: nat, n: nat)
    requires IsWidest(xs, m) && n >= 1 && forall j :: 0 < j < |xs| ==> xs[j] - xs[j - 1] < n
    ensures m < n
  {
    if m > 0 {
      var j :| 0 < j < |xs| && Step(xs, j) == m;
    }
  }

  lemma WidestFits(xs: seq<int>, m: nat, w: nat)
    requires IsWidest(xs, m)
    ensures StepsFit(xs, w) <==> m < Pow256(w)
  {
    hide Pow256;
    if StepsFit(xs, w) {
      WidestBelow(xs, m, Pow256(w));
    } else {
      var j :| 0 < j < |xs| && xs[j] - xs[j - 1] >= Pow256(w);
      assert Step(xs, j) <= m;
    }
  }

  /** There is only one such id. */
  lemma OneNarrowest(xs: seq<int>, a: int, b: int)
    requires Narrowest(xs, a) && Narrowest(xs, b)
    ensures a == b
  {
    hide StepsFit;
    assert a / 8 in {1, 2, 4} && b / 8 in {1, 2, 4};
  }

  /** What becomes a unit: some single elements, by their columns, or a pattern. */
  datatype Head = Plain(xs: seq<int>) | Shaped(p: Pattern)
  {
    function Id(): int {
      if Plain? then StretchId(xs) else PatternId(p)
    }

    function Size(): nat {
      if Plain? then |xs| else p.size
    }

    function Marked(): Mark {
      Mark(Id(), Size())
    }
  }

  /** The id and the size of a unit. */
  datatype Mark = Mark(id: int, size: nat)

  function Waiting(xs: seq<int>): seq<Head> {
    if xs == [] then [] else [Plain(xs)]
  }

  /** The units that some elements of a row become, when the columns xs of the elements
      before them wait to be printed: a pattern is a unit of its own, and a stretch of
      single elements ends at 255. */
  function SpanHeads(es: seq<Elem>, xs: seq<int>): seq<Head>
    decreases |es|
  {
    if es == [] then Waiting(xs)
    else if es[0].Pat? then Waiting(xs) + [Shaped(es[0].p)] + SpanHeads(es[1..], [])
    else if |xs| == SIZE_MAX then Waiting(xs) + SpanHeads(es[1..], [es[0].x])
    else SpanHeads(es[1..], xs + [es[0].x])
  }

  /** The ids that some units take. */
  function IdsOf(hs: seq<Head>): set<int> {
    set h | h in hs :: h.Id()
  }

  function SpanIds(es: seq<Elem>, xs: seq<int>): set<int> {
    IdsOf(SpanHeads(es, xs))
  }

  lemma IdsConcat(a: seq<Head>, b: seq<Head>)
    ensures IdsOf(a + b) == IdsOf(a) + IdsOf(b)
  {
  }

  function MarksFor(hs: seq<Head>): (r: seq<Mark>)
    ensures |r| == |hs| && forall i {:trigger r[i]} :: 0 <= i < |hs| ==> r[i] == hs[i].Marked()
  {
    seq(|hs|, i requires 0 <= i < |hs| => hs[i].Marked())
  }

  function MarksOf(us: seq<Unit>): (r: seq<Mark>)
    ensures |r| == |us| && forall i {:trigger r[i]} :: 0 <= i < |us| ==> r[i] == Mark(us[i].id, us[i].size)
  {
    seq(|us|, i requires 0 <= i < |us| => Mark(us[i].id, us[i].size))
  }

  /** A unit moves down more than one row. */
  ghost predicate SomeJump(us: seq<Unit>) {
    exists i :: 0 <= i < |us| && us[i].jump > 1
  }

  lemma JumpSnoc(us: seq<Unit>, u: Unit)
    ensures SomeJump(us + [u]) <==> SomeJump(us) || u.jump > 1
  {
    assert (us + [u])[|us|] == u;
    if SomeJump(us) {
      var i :| 0 <= i < |us| && us[i].jump > 1;
      assert (us + [u])[i] == us[i];
    }
  }

  lemma MarksConcat(a: seq<Head>, b: seq<Head>)
    ensures MarksFor(a + b) == MarksFor(a) + MarksFor(b)
  {
  }

  lemma MarksSnoc(us: seq<Unit>, u: Unit)
    ensures MarksOf(us + [u]) == MarksOf(us) + [Mark(u.id, u.size)]
  {
  }

  /** How many elements at the front of a row start left of a column. */
  function LeftOf(row: seq<Elem>, side: nat): (s: nat)
    ensures s <= |row|
  {
    if row == [] || row[0].x >= side + 1 then 0 else 1 + LeftOf(row[1..], side)
  }

  /** The ids that a row takes; a unit never spans the column `side`. */
  function RowIds(row: seq<Elem>, side: nat): set<int> {
    SpanIds(row[..LeftOf(row, side)], []) + SpanIds(row[LeftOf(row, side)..], [])
  }

  /** The units that a row and a matrix become. */
  function RowHeads(row: seq<Elem>, side: nat): seq<Head> {
    SpanHeads(row[..LeftOf(row, side)], []) + SpanHeads(row[LeftOf(row, side)..], [])
  }

  function MatrixHeads(rows: Rows, side: nat): seq<Head> {
    if rows == [] then [] else MatrixHeads(rows[..|rows| - 1], side) + RowHeads(rows[|rows| - 1], side)
  }

  /** The ids that a matrix takes: the kinds of its patterns and the widths of its delta
      units. */
  function MatrixIds(rows: Rows, side: nat): set<int> {
    if rows == [] then {} else MatrixIds(rows[..|rows| - 1], side) + RowIds(rows[|rows| - 1], side)
  }

  /** The ids that a matrix takes fit the flag byte. */
  ghost predicate FlagsFit(rows: Rows, side: nat) {
    |MatrixIds(rows, side)| <= PATTERNS_MAX + 1
  }

  lemma {:induction false} WidestStepIs(xs: seq<int>, x0: int, ds: seq<nat>, max: nat)
    requires DiffsOf(xs, x0, ds) && xs != [] && (max == 0 || max in ds[1..])
    requires forall i :: 0 <= i < |ds[1..]| ==> ds[1..][i] <= max
    ensures WidestStep(xs) == max
  {
    WidestStepBounds(xs, x0, ds);
    if max != 0 {
      var i :| 0 <= i < |ds[1..]| && ds[1..][i] == max;
      assert ds[i + 1] == max;
    }
    if WidestStep(xs) != 0 {
      var j :| 0 < j < |ds| && ds[j] == WidestStep(xs);
      assert ds[1..][j - 1] == ds[j];
    }
  }

  lemma {:induction false} WidestStepBounds(xs: seq<int>, x0: int, ds: seq<nat>)
    requires DiffsOf(xs, x0, ds)
    ensures forall j :: 0 < j < |ds| ==> ds[j] <= WidestStep(xs)
    ensures WidestStep(xs) == 0 || exists j :: 0 < j < |ds| && ds[j] == WidestStep(xs)
  {
    var n := |xs| - 1;
    if n >= 1 {
      assert ds[n] == xs[n] - xs[n - 1];
      WidestStepBounds(xs[..n], x0, ds[..n]);
      if WidestStep(xs) == WidestStep(xs[..n]) != 0 {
        var j :| 0 < j < |ds[..n]| && ds[..n][j] == WidestStep(xs[..n]);
        assert ds[j] == WidestStep(xs);
      }
    }
  }

  lemma SpanIdsStep(es: seq<Elem>, xs: seq<int>)
    ensures var waiting := if xs == [] then {} else {StretchId(xs)};
            SpanIds(es, xs) == if es == [] then waiting
                               else if es[0].Pat? then waiting + {PatternId(es[0].p)} + SpanIds(es[1..], [])
                               else if |xs| == SIZE_MAX then waiting + SpanIds(es[1..], [es[0].x])
                               else SpanIds(es[1..], xs + [es[0].x])
  {
    hide StretchId, IdsOf;
    OneHead(Plain(xs));
    IdsConcat([], []);
    if es != [] {
      if es[0].Pat? {
        OneHead(Shaped(es[0].p));
        IdsConcat(Waiting(xs), [Shaped(es[0].p)]);
        IdsConcat(Waiting(xs) + [Shaped(es[0].p)], SpanHeads(es[1..], []));
      } else {
        IdsConcat(Waiting(xs), SpanHeads(es[1..], [es[0].x]));
      }
    }
    NoIdsTaken();
  }

  lemma NoIdsTaken()
    ensures IdsOf([]) == {}
  {
  }

  lemma HeadsFlush(es: seq<Elem>, xs: seq<int>)
    requires xs != [] && (es == [] || es[0].Pat? || |xs| == SIZE_MAX)
    ensures SpanHeads(es, xs) == [Plain(xs)] + SpanHeads(es, [])
  {
    if es == [] {
      NilRight([Plain(xs)]);
    } else if es[0].Single? {
      assert [] + [es[0].x] == [es[0].x];
    } else {
      NilLeft([Shaped(es[0].p)]);
      Assoc([Plain(xs)], [Shaped(es[0].p)], SpanHeads(es[1..], []));
    }
  }

  /** A stretch that waits ends here. */
  lemma SpanFlush(row: seq<Elem>, j: nat, hi: nat, xs: seq<int>)
    requires j <= hi <= |row| && xs != [] && (j == hi || row[j].Pat? || |xs| == SIZE_MAX)
    ensures SpanHeads(row[j..hi], xs) == [Plain(xs)] + SpanHeads(row[j..hi], [])
    ensures SpanIds(row[j..hi], xs) == {StretchId(xs)} + SpanIds(row[j..hi], [])
    ensures MarksFor(SpanHeads(row[j..hi], xs)) == [Mark(StretchId(xs), |xs|)] + MarksFor(SpanHeads(row[j..hi], []))
  {
    hide StretchId, IdsOf, MarksFor, SpanHeads;
    HeadsFlush(row[j..hi], xs);
    IdsConcat([Plain(xs)], SpanHeads(row[j..hi], []));
    MarksConcat([Plain(xs)], SpanHeads(row[j..hi], []));
    OneHead(Plain(xs));
  }

  lemma OneHead(h: Head)
    ensures IdsOf([h]) == {h.Id()} && MarksFor([h]) == [Mark(h.Id(), h.Size())]
  {
  }

  lemma SpanNext(row: seq<Elem>, j: nat, hi: nat, xs: seq<int>)
    requires j < hi <= |row|
    ensures row[j].Pat? && xs == [] ==>
              && SpanIds(row[j..hi], xs) == {PatternId(row[j].p)} + SpanIds(row[j + 1..hi], [])
              && MarksFor(SpanHeads(row[j..hi], xs)) == [Mark(PatternId(row[j].p), row[j].p.size)]
                   + MarksFor(SpanHeads(row[j + 1..hi], []))
    ensures row[j].Single? && |xs| < SIZE_MAX ==>
              && SpanHeads(row[j..hi], xs) == SpanHeads(row[j + 1..hi], xs + [row[j].x])
              && SpanIds(row[j..hi], xs) == SpanIds(row[j + 1..hi], xs + [row[j].x])
  {
    hide StretchId, IdsOf, MarksFor;
    assert row[j..hi][1..] == row[j + 1..hi];
    if row[j].Pat? && xs == [] {
      assert [] + [Shaped(row[j].p)] == [Shaped(row[j].p)];
      IdsConcat([Shaped(row[j].p)], SpanHeads(row[j + 1..hi], []));
      MarksConcat([Shaped(row[j].p)], SpanHeads(row[j + 1..hi], []));
      OneHead(Shaped(row[j].p));
    }
  }

  lemma SpanEnd(row: seq<Elem>, hi: nat, xs: seq<int>)
    requires hi <= |row|
    ensures SpanHeads(row[hi..hi], xs) == Waiting(xs) && (xs == [] ==> SpanIds(row[hi..hi], xs) == {})
    ensures xs == [] ==> MarksFor(SpanHeads(row[hi..hi], xs)) == []
  {
  }

  lemma {:induction false} LeftIs(row: seq<Elem>, side: nat, s: nat)
    requires s <= |row| && (forall j :: 0 <= j < s ==> row[j].x < side + 1) && (s < |row| ==> row[s].x >= side + 1)
    ensures LeftOf(row, side) == s
  {
    if s > 0 {
      var rest := row[1..];
      forall j | 0 <= j < s - 1
        ensures rest[j].x < side + 1
      {
        assert rest[j] == row[j + 1];
      }
      LeftIs(rest, side, s - 1);
    }
  }

  lemma LeftOfIs(row: seq<Elem>, side: nat, s: nat)
    requires s <= |row| && (forall j :: 0 <= j < s ==> row[j].x < side + 1) && (s < |row| ==> row[s].x >= side + 1)
    ensures LeftOf(row, side) == s
    ensures RowIds(row, side) == SpanIds(row[0..s], []) + SpanIds(row[s..|row|], [])
    ensures MarksFor(RowHeads(row, side)) == MarksFor(SpanHeads(row[0..s], [])) + MarksFor(SpanHeads(row[s..|row|], []))
  {
    hide SpanIds, SpanHeads, MarksFor;
    MarksConcat(SpanHeads(row[..s], []), SpanHeads(row[s..], []));
    LeftIs(row, side, s);
    assert row[0..s] == row[..s] && row[s..|row|] == row[s..];
  }

  lemma MatrixIdsSnoc(rows: Rows, i: nat, side: nat)
    requires i < |rows|
    ensures MatrixIds(rows[..i + 1], side) == MatrixIds(rows[..i], side) + RowIds(rows[i], side)
    ensures MarksFor(MatrixHeads(rows[..i + 1], side)) == MarksFor(MatrixHeads(rows[..i], side))
         + MarksFor(RowHeads(rows[i], side))
  {
    hide MarksFor, RowHeads, RowIds;
    assert rows[..i + 1][..i] == rows[..i];
    MarksConcat(MatrixHeads(rows[..i], side), RowHeads(rows[i], side));
  }

  // ----- Pattern units

  function PatternUnit(p: Pattern, flag: nat, jump: nat, ucol: nat): Unit {
    Unit(flag, jump, ucol, p.size, PatternId(p), [])
  }

  lemma PatternUnitGood(full: bool, p: Pattern, flag: nat, jump: nat, ucol: nat)
    requires p.Good() && p.size <= SIZE_MAX && PatternParam(p) < PID_OFFSET && (full ==> ucol < Pow256(4))
    ensures var u := PatternUnit(p, flag, jump, ucol);
            GoodUnit(full, u) && !u.IsDelta() && u.Type() == p.order && u.Param() == PatternParam(p)
            && StepOf(u) == p.Step() && CountOf(u) == p.size
  {
    OfCodeInverts(p.order);
    assert p.order.Code() >= 1;
  }

  /** A pattern unit visits the pattern's cells. */
  lemma PatternUnitPlaces(d: Dims, y: int, e: Elem, u: Unit)
    requires e.Pat? && GoodElem(Horizontal, d, Coo(y, e))
    requires !u.IsDelta() && u.Type() == e.p.order && StepOf(u) == e.p.Step() && CountOf(u) == e.p.size
    ensures UnitPlaces(u, Cursor(y - 1, e.x - 1)) == Ats(ElemCells(Horizontal, d, Coo(y, e)))
  {
    hide Map, UnitCell;
    var cells := ElemCells(Horizontal, d, Coo(y, e));
    assert RMap(Horizontal, d, Coord(y, e.x)) == Coord(y, e.x);
    forall k | 0 <= k < e.p.size
      ensures cells[k].at == UnitCell(e.p.order, Coord(y, e.x), k, e.p.Step())
    {
      StepLandsOnUnitCell(e.p.order, d, Coord(y, e.x), k, e.p.Step());
    }
  }

  // ----- The printer

  class CsxManager {
    var patterns: map<int, PatInfo>
    var flagAvail: nat
    var rowJmps: bool
    var fullColumnIndices: bool
    var values: seq<real>
    var ctl: seq<byte>
    var lastCol: int
    var newRow: bool
    var emptyRows: nat
    ghost var units: seq<Unit>
    ghost const side: nat

    constructor (full: bool, ghost split: nat)
      ensures Valid() && units == [] && values == [] && fullColumnIndices == full && side == split
      ensures !newRow && emptyRows == 0 && fresh(this) && patterns == map[]
    {
      patterns := map[];
      flagAvail := 0;
      rowJmps := false;
      fullColumnIndices := full;
      values := [];
      ctl := [];
      lastCol := 0;
      newRow := false;
      emptyRows := 0;
      units := [];
      side := split;
    }

    /** Flags are handed out in order, one a pattern. */
    ghost predicate FlagsOk()
      reads this`patterns, this`flagAvail, this`units
    {
      && |patterns| == flagAvail
      && (forall id :: id in patterns ==> patterns[id].flag < flagAvail)
      && (forall a, b :: a in patterns && b in patterns && a != b ==> patterns[a].flag != patterns[b].flag)
      && (forall i :: 0 <= i < |units| ==> units[i].id in patterns && patterns[units[i].id].flag == units[i].flag)
    }

    ghost predicate Valid()
      reads this`patterns, this`flagAvail, this`units, this`ctl, this`fullColumnIndices, this`rowJmps
    {
      && FlagsOk()
      && ctl == Emit(fullColumnIndices, units)
      && (forall i :: 0 <= i < |units| ==> GoodUnit(fullColumnIndices, units[i]))
      && (rowJmps <==> SomeJump(units))
      && Sided(fullColumnIndices, units, side) && Forward(fullColumnIndices, units)
    }

    /** How many rows the next unit moves down. */
    function Jump(): nat
      reads this`newRow, this`emptyRows
    {
      if newRow then emptyRows + 1 else 0
    }

    /** The printer is at row i, with `lastCol` where the decoder's column will be. */
    ghost predicate At(i: nat)
      reads this`newRow, this`emptyRows, this`lastCol, this`units, this`fullColumnIndices
    {
      && (!newRow ==> emptyRows == 0)
      && CursorAfter(fullColumnIndices, units).row + Jump() == i
      && (if newRow then lastCol == 1 else lastCol - 1 == CursorAfter(fullColumnIndices, units).col)
    }

    method GetFlag(id: int, nnz: nat) returns (flag: nat)
      requires Valid()
      modifies this`patterns, this`flagAvail
      ensures Valid() && id in patterns && flag == patterns[id].flag
      ensures patterns.Keys == old(patterns.Keys) + {id}
      ensures forall k :: k in old(patterns) ==> patterns[k].flag == old(patterns)[k].flag
      ensures if id in old(patterns) then flagAvail == old(flagAvail)
              else flag == old(flagAvail) && flagAvail == old(flagAvail) + 1
    {
      hide Emit, GoodUnit, Sided, Forward;
      if id !in patterns {
        flag := flagAvail;
        flagAvail := flagAvail + 1;
        patterns := patterns[id := PatInfo(flag, 1, nnz)];
      } else {
        flag := patterns[id].flag;
        patterns := patterns[id := PatInfo(flag, patterns[id].npatterns + 1, patterns[id].nr + nnz)];
        assert patterns.Keys == old(patterns.Keys);
      }
    }

    method DaPutUl(v: nat)
      modifies this`ctl
      ensures ctl == old(ctl) + PutUl(v)
    {
      var val := v;
      assert ctl + PutUl(val) == old(ctl) + PutUl(v);
      while val >= 128
        invariant ctl + PutUl(val) == old(ctl) + PutUl(v)
        decreases val
      {
        ghost var rest := PutUl(val / 128);
        Assoc(ctl, [(val % 128 + 128) as byte], rest);
        ctl := ctl + [val % 128 + 128];
        val := val / 128;
      }
      ctl := ctl + [val];
    }

    /** Marks the unit whose flags are at `flags` as starting a new row. */
    method UpdateNewRow(flags: nat)
      requires flags < |ctl|
      modifies this`ctl, this`newRow, this`emptyRows, this`rowJmps
      ensures !newRow
      ensures old(newRow) ==> emptyRows == 0
      ensures !old(newRow) ==> emptyRows == old(emptyRows)
      ensures rowJmps == (old(rowJmps) || old(Jump()) > 1)
      ensures var j := old(Jump());
              var b := old(ctl)[flags];
              var b' := if j > 0 then SetNr(b) else b;
              var b'' := if j > 1 then SetRjmp(b') else b';
              ctl == old(ctl)[flags := b''] + (if j > 1 then PutUl(j) else [])
    {
      if !newRow {
        NilRight(ctl);
        assert ctl[flags := ctl[flags]] == ctl;
        return;
      }
      ctl := ctl[flags := SetNr(ctl[flags])];
      newRow := false;
      if emptyRows != 0 {
        ctl := ctl[flags := SetRjmp(ctl[flags])];
        DaPutUl(emptyRows + 1);
        emptyRows := 0;
        rowJmps := true;
      } else {
        NilRight(ctl);
      }
    }

    /** Flags, size and row jump of a unit. */
    method PutHead(u: Unit)
      requires u.jump == Jump()
      modifies this`ctl, this`newRow, this`emptyRows, this`rowJmps
      ensures ctl == old(ctl) + HeadBytes(u)
      ensures !newRow
      ensures old(newRow) ==> emptyRows == 0
      ensures !old(newRow) ==> emptyRows == old(emptyRows)
      ensures rowJmps == (old(rowJmps) || old(Jump()) > 1)
    {
      var flags := |ctl|;
      ctl := ctl + [u.flag % 256, u.size % 256];
      ghost var j := Jump();
      UpdateNewRow(flags);
      assert (old(ctl) + [u.flag % 256, u.size % 256])[flags := FlagByte(u)] == old(ctl) + [FlagByte(u), u.size % 256];
      Assoc(old(ctl), [FlagByte(u), u.size % 256], if j > 1 then PutUl(j) else []);
    }

    method PutCol(u: Unit)
      modifies this`ctl
      ensures ctl == old(ctl) + ColBytes(fullColumnIndices, u)
    {
      if fullColumnIndices {
        ctl := ctl + PutLE(u.ucol, 4);
      } else {
        DaPutUl(u.ucol);
      }
    }

    /** Aligned deltas. */
    method PutTail(u: Unit)
      requires u.Width() >= 1
      modifies this`ctl
      ensures ctl == old(ctl) + TailBytes(|old(ctl)|, u)
    {
      if |u.deltas| > 0 {
        ctl := ctl + Zeros(Pad(|ctl|, u.Width()));
        ghost var padded := ctl;
        var i := 0;
        assert PutAll(u.deltas[..0], u.Width()) == [];
        NilRight(ctl);
        while i < |u.deltas|
          invariant 0 <= i <= |u.deltas|
          invariant ctl == padded + PutAll(u.deltas[..i], u.Width())
        {
          assert u.deltas[..i] + [u.deltas[i]] == u.deltas[..i + 1];
          Assoc(padded, PutAll(u.deltas[..i], u.Width()), PutLE(u.deltas[i], u.Width()));
          ctl := ctl + PutLE(u.deltas[i], u.Width());
          i := i + 1;
        }
        Whole(u.deltas);
        Assoc(old(ctl), Zeros(Pad(|old(ctl)|, u.Width())), PutAll(u.deltas, u.Width()));
      } else {
        NilRight(ctl);
      }
    }

    /** Writes one unit. */
    method PutUnit(u: Unit)
      requires Valid() && (!newRow ==> emptyRows == 0)
      requires u.jump == Jump() && GoodUnit(fullColumnIndices, u)
      requires u.id in patterns && u.flag == patterns[u.id].flag
      requires u.IsDelta() ==> u.Width() >= 1
      requires UnitSided(u, StartAt(fullColumnIndices, CursorAfter(fullColumnIndices, units), u), side)
      requires UnitForward(fullColumnIndices, u, CursorAfter(fullColumnIndices, units))
      modifies this`ctl, this`newRow, this`emptyRows, this`rowJmps, this`units
      ensures Valid() && units == old(units) + [u] && !newRow && emptyRows == 0
    {
      hide Emit, HeadBytes, ColBytes, TailBytes, GoodUnit, Sided, UnitSided, CursorAfter, StartAt, Forward,
           UnitForward, SomeJump;
      ghost var before := ctl;
      PutHead(u);
      PutCol(u);
      if u.IsDelta() {
        PutTail(u);
      } else {
        NoTail(|ctl|, u, fullColumnIndices);
        NilRight(ctl);
      }
      units := units + [u];
      EmitSnoc(fullColumnIndices, old(units), u);
      SidedSnoc(fullColumnIndices, old(units), u, side);
      ForwardSnoc(fullColumnIndices, old(units), u);
      JumpSnoc(old(units), u);
      assert ctl == EmitUnit(fullColumnIndices, before, u);
    }

    /** The delta unit of a stretch of row i, with its flag. */
    method MakeDeltaUnit(xs: seq<int>, ghost i: nat) returns (u: Unit)
      requires Valid() && 1 <= |xs| <= SIZE_MAX && Increasing(xs) && 1 <= lastCol <= xs[0]
      requires forall j :: 0 < j < |xs| ==> xs[j] - xs[j - 1] < 0x1_0000_0000
      requires fullColumnIndices ==> xs[0] <= 0x1_0000_0000
      modifies this`patterns, this`flagAvail
      ensures Valid() && u.id in patterns && u.flag == patterns[u.id].flag
      ensures GoodUnit(fullColumnIndices, u) && u.IsDelta() && u.Width() >= 1
      ensures u.jump == Jump() && u.ucol == if fullColumnIndices then xs[0] - 1 else xs[0] - lastCol
      ensures UnitPlaces(u, Cursor(i, xs[0] - 1)) == ColumnsAt(i, xs)
      ensures EndAt(u, Cursor(i, xs[0] - 1)) == Cursor(i, xs[|xs| - 1] - 1)
      ensures patterns.Keys == old(patterns.Keys) + {StretchId(xs)} && u.id == StretchId(xs) && u.size == |xs|
    {
      hide DeltaPlaces, SumOf, Increasing, GoodUnit, Emit, FlagsOk, Sided, Forward;
      var ds := DeltaEncodeFrom(xs, lastCol);
      assert ds[0] == xs[0] - lastCol;
      var max := MaxElement(ds[1..]);
      WidestStepIs(xs, lastCol, ds, max);
      var id := 8 * DeltaBytes(max);
      var flag := GetFlag(id, |xs|);
      u := Unit(flag, Jump(), if fullColumnIndices then xs[0] - 1 else ds[0], |xs|, id, ds[1..]);
      DeltaUnitGood(fullColumnIndices, u, max);
      DeltaPlacesAre(i, xs, lastCol, ds, |xs| - 1);
      DiffSum(xs, lastCol, ds, |xs| - 1);
      assert ds[1..|xs|] == ds[1..] && xs[..|xs|] == xs;
    }

    /** A stretch of single elements of row i becomes one delta unit. */
    method AddXs(xs: seq<int>, ghost i: nat)
      requires Valid() && At(i)
      requires 1 <= |xs| <= SIZE_MAX && Increasing(xs) && 1 <= lastCol <= xs[0]
      requires forall j :: 0 < j < |xs| ==> xs[j] - xs[j - 1] < 0x1_0000_0000
      requires fullColumnIndices ==> xs[0] <= 0x1_0000_0000
      requires forall j :: 0 <= j < |xs| ==> (xs[j] - 1 < side <==> xs[0] - 1 < side)
      modifies this`patterns, this`flagAvail, this`ctl, this`newRow, this`emptyRows, this`rowJmps, this`units, this`lastCol
      ensures Valid() && At(i) && !newRow && lastCol == xs[|xs| - 1]
      ensures StreamPlaces(fullColumnIndices, units) == old(StreamPlaces(fullColumnIndices, units)) + ColumnsAt(i, xs)
      ensures patterns.Keys == old(patterns.Keys) + {StretchId(xs)}
      ensures MarksOf(units) == old(MarksOf(units)) + [Mark(StretchId(xs), |xs|)] && Narrowest(xs, StretchId(xs))
    {
      hide Emit, CursorAfter, StreamPlaces, Increasing, GoodUnit, UnitPlaces, EndAt, StartAt, FlagsOk, Valid,
           StretchId, Narrowest, MarksOf;
      StretchIdNarrowest(xs);
      var u := MakeDeltaUnit(xs, i);
      StreamSnoc(fullColumnIndices, units, u);
      StartsAt(fullColumnIndices, CursorAfter(fullColumnIndices, units), u, i, lastCol, xs[0]);
      MarksSnoc(units, u);
      PutUnit(u);
      lastCol := xs[|xs| - 1];
    }

    /** The unit of a pattern of row i, with its flag. */
    method MakePatternUnit(e: Elem, ghost d: Dims, ghost i: nat) returns (u: Unit)
      requires Valid() && e.Pat? && GoodElem(Horizontal, d, Coo(i + 1, e)) && 1 <= lastCol <= e.x
      requires e.p.size <= SIZE_MAX && PatternParam(e.p) < PID_OFFSET
      requires fullColumnIndices ==> e.x <= 0x1_0000_0000
      modifies this`patterns, this`flagAvail
      ensures Valid() && u.id in patterns && u.flag == patterns[u.id].flag
      ensures GoodUnit(fullColumnIndices, u) && !u.IsDelta()
      ensures u.jump == Jump() && u.ucol == if fullColumnIndices then e.x - 1 else e.x - lastCol
      ensures UnitPlaces(u, Cursor(i, e.x - 1)) == Ats(ElemCells(Horizontal, d, Coo(i + 1, e)))
      ensures EndAt(u, Cursor(i, e.x - 1)) == Cursor(i, LastX(Horizontal, e) - 1)
      ensures patterns.Keys == old(patterns.Keys) + {PatternId(e.p)} && u.id == PatternId(e.p) && u.size == e.p.size
    {
      hide GoodUnit, ElemCells, UnitPlaces, EndAt, Emit, FlagsOk, Sided, Forward;
      var flag := GetFlag(PatternId(e.p), e.p.size);
      u := PatternUnit(e.p, flag, Jump(), if fullColumnIndices then e.x - 1 else e.x - lastCol);
      FourBytes();
      PatternUnitGood(fullColumnIndices, e.p, flag, Jump(), u.ucol);
      PatternUnitPlaces(d, i + 1, e, u);
      PatternEnd(e, u, i);
    }

    /** A pattern of row i becomes one unit. */
    method AddPattern(e: Elem, ghost d: Dims, ghost i: nat)
      requires Valid() && At(i)
      requires e.Pat? && GoodElem(Horizontal, d, Coo(i + 1, e)) && 1 <= lastCol <= e.x
      requires e.p.size <= SIZE_MAX && PatternParam(e.p) < PID_OFFSET
      requires fullColumnIndices ==> e.x <= 0x1_0000_0000
      requires ElemSided(d, i + 1, e, side)
      modifies this`patterns, this`flagAvail, this`ctl, this`newRow, this`emptyRows, this`rowJmps, this`units, this`lastCol
      ensures Valid() && At(i) && !newRow && lastCol == LastX(Horizontal, e)
      ensures StreamPlaces(fullColumnIndices, units)
           == old(StreamPlaces(fullColumnIndices, units)) + Ats(ElemCells(Horizontal, d, Coo(i + 1, e)))
      ensures patterns.Keys == old(patterns.Keys) + {PatternId(e.p)}
      ensures MarksOf(units) == old(MarksOf(units)) + [Mark(PatternId(e.p), e.p.size)]
    {
      hide Emit, CursorAfter, StreamPlaces, GoodUnit, ElemCells, UnitPlaces, EndAt, StartAt, LastX, GoodElem, FlagsOk,
           Valid, MarksOf;
      var u := MakePatternUnit(e, d, i);
      StreamSnoc(fullColumnIndices, units, u);
      StartsAt(fullColumnIndices, CursorAfter(fullColumnIndices, units), u, i, lastCol, e.x);
      MarksSnoc(units, u);
      PutUnit(u);
      PatternLast(d, i + 1, e);
      lastCol := ColIncreaseJmp(e.p, e.x);
    }

    /** Prints the elements lo..hi of row i: single elements are gathered into
        units of at most 255, a pattern is a unit of its own. */
    method DoElems(row: seq<Elem>, lo: nat, hi: nat, ghost d: Dims, ghost i: nat)
      requires Valid() && At(i) && lo <= hi <= |row|
      requires RowValid(Horizontal, d, i + 1, row) && PrintableRow(fullColumnIndices, row)
      requires 1 <= lastCol && (lo < hi ==> lastCol <= row[lo].x)
      requires SideRange(d, i + 1, row, lo, hi, side)
      modifies this`patterns, this`flagAvail, this`ctl, this`newRow, this`emptyRows, this`rowJmps, this`units, this`lastCol,
               this`values
      ensures Valid() && At(i)
      ensures patterns.Keys == old(patterns.Keys) + SpanIds(row[lo..hi], [])
      ensures MarksOf(units) == old(MarksOf(units)) + MarksFor(SpanHeads(row[lo..hi], []))
      ensures lo < hi ==> !newRow && lastCol == LastX(Horizontal, row[hi - 1])
      ensures lo == hi ==> newRow == old(newRow) && lastCol == old(lastCol) && emptyRows == old(emptyRows)
      ensures StreamPlaces(fullColumnIndices, units)
           == old(StreamPlaces(fullColumnIndices, units)) + Ats(RowCells(Horizontal, d, i + 1, row[lo..hi]))
      ensures values == old(values) + Vals(RowCells(Horizontal, d, i + 1, row[lo..hi]))
    {
      hide Valid, At, StreamPlaces, RowCells, RowValid, GoodElem, ElemCells, LastX, PrintableRow, ElemSided,
           Increasing, Pending, SideRange, SpanIds, SpanHeads,
           MarksOf, MarksFor;
      ghost var base, vbase := StreamPlaces(fullColumnIndices, units), values;
      ghost var ids := patterns.Keys + SpanIds(row[lo..hi], []);
      ghost var marks := MarksOf(units) + MarksFor(SpanHeads(row[lo..hi], []));
      var xs := [];
      var j := lo;
      NoCells(d, i + 1, row, lo);
      NilRight(base);
      NilRight(vbase);
      PendingNone(row, lo);
      assert ColumnsAt(i, []) == [];
      while j < hi
        invariant lo <= j <= hi
        invariant Loop(row, lo, hi, j, xs, d, i, base, vbase, ids, marks)
        invariant j == lo ==> newRow == old(newRow) && lastCol == old(lastCol) && emptyRows == old(emptyRows)
      {
        if row[j].Pat? {
          OnePattern(row, lo, hi, j, xs, d, i, base, vbase, ids, marks);
          xs := [];
        } else {
          xs := OneSingle(row, lo, hi, j, xs, d, i, base, vbase, ids, marks);
        }
        j := j + 1;
      }
      if |xs| > 0 {
        Flush(row, lo, hi, j, xs, d, i, base, vbase, ids, marks);
      }
      SpanEnd(row, hi, []);
      assert ColumnsAt(i, []) == [];
      NilRight(StreamPlaces(fullColumnIndices, units));
      NilRight(MarksOf(units));
    }

    /** Between rows: the next unit, if row i has one, starts row i. */
    ghost predicate BeforeRow(i: nat)
      reads this`newRow, this`emptyRows, this`units, this`fullColumnIndices
    {
      && (!newRow ==> emptyRows == 0 && units == [])
      && CursorAfter(fullColumnIndices, units).row + Jump() == i
    }

    method DoRow(row: seq<Elem>, ghost d: Dims, ghost i: nat)
      requires Valid() && BeforeRow(i) && row != []
      requires RowValid(Horizontal, d, i + 1, row) && PrintableRow(fullColumnIndices, row)
      requires forall e :: e in row ==> ElemSided(d, i + 1, e, side) && e.x - 1 >= side
      modifies this`patterns, this`flagAvail, this`ctl, this`newRow, this`emptyRows, this`rowJmps, this`units, this`lastCol,
               this`values
      ensures Valid() && At(i) && !newRow
      ensures StreamPlaces(fullColumnIndices, units)
           == old(StreamPlaces(fullColumnIndices, units)) + Ats(RowCells(Horizontal, d, i + 1, row))
      ensures values == old(values) + Vals(RowCells(Horizontal, d, i + 1, row))
      ensures patterns.Keys == old(patterns.Keys) + RowIds(row, side)
      ensures MarksOf(units) == old(MarksOf(units)) + MarksFor(RowHeads(row, side))
    {
      hide Valid, StreamPlaces, RowCells, RowValid, PrintableRow, ElemSided, SideRange, LastX, SpanIds, SpanHeads,
           MarksOf, MarksFor,
           RowHeads;
      lastCol := 1;
      FirstX(d, i + 1, row);
      SideAll(d, i + 1, row, side);
      assert row[0..|row|] == row;
      assert row[0] in row;
      LeftOfIs(row, side, 0);
      SpanEnd(row, 0, []);
      NilLeft(MarksFor(SpanHeads(row[0..|row|], [])));
      DoElems(row, 0, |row|, d, i);
    }

    /** The symmetric variant: a unit never spans the column where the rows of
        this part begin. */
    method DoSymRow(row: seq<Elem>, rowStart: nat, ghost d: Dims, ghost i: nat)
      requires Valid() && BeforeRow(i) && row != [] && rowStart == side
      requires RowValid(Horizontal, d, i + 1, row) && PrintableRow(fullColumnIndices, row)
      requires forall e :: e in row ==> ElemSided(d, i + 1, e, side)
      modifies this`patterns, this`flagAvail, this`ctl, this`newRow, this`emptyRows, this`rowJmps, this`units, this`lastCol,
               this`values
      ensures Valid() && At(i) && !newRow
      ensures StreamPlaces(fullColumnIndices, units)
           == old(StreamPlaces(fullColumnIndices, units)) + Ats(RowCells(Horizontal, d, i + 1, row))
      ensures values == old(values) + Vals(RowCells(Horizontal, d, i + 1, row))
      ensures patterns.Keys == old(patterns.Keys) + RowIds(row, side)
      ensures MarksOf(units) == old(MarksOf(units)) + MarksFor(RowHeads(row, side))
    {
      hide Valid, StreamPlaces, RowCells, RowValid, PrintableRow, ElemSided, SpanIds, RowIds, LeftOf, SideRange,
           LastX, SpanHeads, MarksOf,
           MarksFor, RowHeads;
      ghost var base, vbase := StreamPlaces(fullColumnIndices, units), values;
      lastCol := 1;
      var s := 0;
      while s < |row| && row[s].x < rowStart + 1
        invariant 0 <= s <= |row| && forall j :: 0 <= j < s ==> row[j].x < rowStart + 1
      {
        s := s + 1;
      }
      SymSplit(fullColumnIndices, d, i + 1, row, s, side);
      Assoc(MarksOf(units), MarksFor(SpanHeads(row[0..s], [])), MarksFor(SpanHeads(row[s..|row|], [])));
      DoElems(row, 0, s, d, i);
      DoElems(row, s, |row|, d, i);
      ghost var a, b := RowCells(Horizontal, d, i + 1, row[0..s]), RowCells(Horizontal, d, i + 1, row[s..|row|]);
      Assoc(base, Ats(a), Ats(b));
      Assoc(vbase, Vals(a), Vals(b));
    }

    /** One row: an empty row only adds to the next row jump. */
    method PrintRow(row: seq<Elem>, rowStart: nat, symmetric: bool, ghost d: Dims, ghost i: nat)
      requires Valid() && BeforeRow(i)
      requires RowValid(Horizontal, d, i + 1, row) && PrintableRow(fullColumnIndices, row)
      requires side == if symmetric then rowStart else 0
      requires symmetric ==> forall e :: e in row ==> ElemSided(d, i + 1, e, side)
      modifies this`patterns, this`flagAvail, this`ctl, this`newRow, this`emptyRows, this`rowJmps, this`units, this`lastCol,
               this`values
      ensures Valid() && BeforeRow(i + 1)
      ensures StreamPlaces(fullColumnIndices, units)
           == old(StreamPlaces(fullColumnIndices, units)) + Ats(RowCells(Horizontal, d, i + 1, row))
      ensures values == old(values) + Vals(RowCells(Horizontal, d, i + 1, row))
      ensures patterns.Keys == old(patterns.Keys) + RowIds(row, side)
      ensures MarksOf(units) == old(MarksOf(units)) + MarksFor(RowHeads(row, side))
    {
      hide Valid, StreamPlaces, RowCells, PrintableRow, RowIds, RowValid, ElemSided, MarksOf, MarksFor, RowHeads;
      if |row| == 0 {
        EmptyRow(d, i + 1);
        assert MarksFor(RowHeads(row, side)) == [] by { NoIds(side); }
        NilRight(MarksOf(units));
        assert RowIds(row, side) == {} by { NoIds(side); }
        NilRight(StreamPlaces(fullColumnIndices, units));
        NilRight(values);
        if !newRow {
          newRow := true;
        } else {
          emptyRows := emptyRows + 1;
        }
        return;
      }
      if !symmetric {
        RowNoSplit(d, i + 1, row);
        DoRow(row, d, i);
      } else {
        DoSymRow(row, rowStart, d, i);
      }
      newRow := true;
    }

    /** Prints all rows.  At most 64 pattern ids fit the flag byte; there is a matrix
        exactly when the rows do not take more. */
    method MakeCsx(spm: Spm, rowStart: nat, symmetric: bool) returns (csx: Option<Csx>, ghost us: seq<Unit>)
      requires Valid() && units == [] && values == [] && !newRow && emptyRows == 0 && patterns == map[]
      requires spm.Valid() && RowsWell(spm.dims, spm.rows) && spm.order == Horizontal
      requires forall i :: 0 <= i < |spm.rows| ==> PrintableRow(fullColumnIndices, spm.rows[i])
      requires side == if symmetric then rowStart else 0
      requires symmetric ==> RowsSided(spm.dims, spm.rows, rowStart)
      modifies this
      ensures csx.Some? ==> Represents(csx.value, us, spm.dims, spm.rows, side)
      ensures csx.Some? ==> csx.value.full == old(fullColumnIndices) && csx.value.rowStart == rowStart
      ensures csx.Some? <==> FlagsFit(spm.rows, side)
    {
      hide Valid, RowsWell, RowsSided, PrintableRow, Printed, BeforeRow, Spm.Valid, FlagsFit, MatrixIds;
      StartsPrinting(spm.dims);
      PrintRows(spm, rowStart, symmetric);
      us := units;
      FlagCount(spm.dims, spm.rows);
      if flagAvail <= PATTERNS_MAX + 1 {
        NoClash();
        csx := Some(Csx(|values|, spm.dims.rows, rowStart, ctl, values, fullColumnIndices, rowJmps, TableOf(patterns)));
        Finished(csx.value, spm.dims, spm.rows);
      } else {
        csx := None;
      }
    }

    /** The rows have been printed: their cells and values in order, the units they are cut
        into, and the ids they take. */
    ghost predicate Printed(d: Dims, rows: Rows)
      reads this`units, this`values, this`patterns, this`fullColumnIndices
    {
      && StreamPlaces(fullColumnIndices, units) == Ats(Cells(Horizontal, d, rows))
      && values == Vals(Cells(Horizontal, d, rows))
      && patterns.Keys == MatrixIds(rows, side) && MarksOf(units) == MarksFor(MatrixHeads(rows, side))
    }

    lemma StartsPrinting(d: Dims)
      requires units == [] && values == [] && !newRow && emptyRows == 0 && patterns == map[]
      ensures Printed(d, []) && BeforeRow(0)
    {
      hide StreamPlaces, Cells;
      NothingYet(fullColumnIndices, d);
      NoIds(side);
    }

    method PrintRows(spm: Spm, rowStart: nat, symmetric: bool)
      requires Valid() && BeforeRow(0) && Printed(spm.dims, [])
      requires spm.Valid() && RowsWell(spm.dims, spm.rows)
      requires forall i :: 0 <= i < |spm.rows| ==> PrintableRow(fullColumnIndices, spm.rows[i])
      requires side == if symmetric then rowStart else 0
      requires symmetric ==> RowsSided(spm.dims, spm.rows, rowStart)
      modifies this
      ensures Valid() && Printed(spm.dims, spm.rows) && fullColumnIndices == old(fullColumnIndices)
    {
      hide Valid, RowsWell, RowsSided, PrintableRow, Printed, BeforeRow;
      var i := 0;
      assert spm.rows[..0] == [];
      while i < spm.NrRows()
        invariant 0 <= i <= |spm.rows|
        invariant Valid() && BeforeRow(i) && fullColumnIndices == old(fullColumnIndices)
             && Printed(spm.dims, spm.rows[..i])
      {
        PrintNext(spm.Row(i), rowStart, symmetric, spm.dims, spm.rows, i);
        i := i + 1;
      }
      assert spm.rows[..i] == spm.rows;
    }

    method PrintNext(row: seq<Elem>, rowStart: nat, symmetric: bool, ghost d: Dims, ghost rows: Rows, ghost i: nat)
      requires Valid() && i < |rows| && row == rows[i] && BeforeRow(i) && Printed(d, rows[..i])
      requires RowsWell(d, rows) && PrintableRow(fullColumnIndices, row)
      requires side == if symmetric then rowStart else 0
      requires symmetric ==> RowsSided(d, rows, rowStart)
      modifies this`patterns, this`flagAvail, this`ctl, this`newRow, this`emptyRows, this`rowJmps, this`units, this`lastCol,
               this`values
      ensures Valid() && BeforeRow(i + 1) && Printed(d, rows[..i + 1])
    {
      hide Valid, Cells, StreamPlaces, RowCells, PrintableRow, RowIds, RowValid, ElemSided, CursorAfter, MarksOf,
           MarksFor, MatrixHeads, RowHeads,
           MatrixIds, BeforeRow;
      CellsSnoc(d, rows, i);
      MatrixIdsSnoc(rows, i, side);
      PrintRow(row, rowStart, symmetric, d, i);
    }

    lemma FlagCount(d: Dims, rows: Rows)
      requires Valid() && Printed(d, rows)
      ensures flagAvail <= PATTERNS_MAX + 1 <==> FlagsFit(rows, side)
    {
      hide StreamPlaces, Cells, MarksOf, MarksFor, MatrixHeads, MatrixIds, Emit, GoodUnit, Sided, Forward;
      assert |patterns| == |patterns.Keys|;
    }

    lemma NoClash()
      requires Valid()
      ensures forall a, b :: a in patterns && b in patterns && a != b ==> patterns[a].flag != patterns[b].flag
    {
    }

    lemma Finished(csx: Csx, d: Dims, rows: Rows)
      requires Valid() && flagAvail <= PATTERNS_MAX + 1
      requires forall a, b :: a in patterns && b in patterns && a != b ==> patterns[a].flag != patterns[b].flag
      requires csx == Csx(|values|, d.rows, csx.rowStart, ctl, values, fullColumnIndices, rowJmps, TableOf(patterns))
      requires Printed(d, rows)
      ensures Represents(csx, units, d, rows, side)
    {
      hide StreamPlaces, Cells, GoodUnit, Emit, Sided, Forward, MarksOf, MarksFor, MatrixHeads, MatrixIds;
    }

    /** The state of the loop over a row before element j: `xs` waits to be printed. */
    ghost predicate Loop(row: seq<Elem>, lo: nat, hi: nat, j: nat, xs: seq<int>, d: Dims, i: nat, base: seq<Coord>,
                         vbase: seq<real>,
                         ids: set<int>, marks: seq<Mark>)
      requires lo <= j <= hi <= |row|
      reads this
    {
      && Valid() && At(i)
      && Pending(row, j, xs) && |xs| <= SIZE_MAX && |xs| <= j - lo
      && 1 <= lastCol && (xs != [] ==> lastCol <= xs[0])
      && (xs == [] && j < |row| && j > lo ==> lastCol <= row[j].x)
      && (j > lo && xs == [] ==> !newRow && lastCol == LastX(Horizontal, row[j - 1]))
      && StreamPlaces(fullColumnIndices, units) + ColumnsAt(i, xs)
           == base + Ats(RowCells(Horizontal, d, i + 1, row[lo..j]))
      && values == vbase + Vals(RowCells(Horizontal, d, i + 1, row[lo..j]))
      && patterns.Keys + SpanIds(row[j..hi], xs) == ids
      && MarksOf(units) + MarksFor(SpanHeads(row[j..hi], xs)) == marks
    }

    /** Prints the waiting stretch. */
    method Flush(row: seq<Elem>, lo: nat, hi: nat, j: nat, xs: seq<int>, ghost d: Dims, ghost i: nat,
                 ghost base: seq<Coord>, ghost vbase: seq<real>, ghost ids: set<int>, ghost marks: seq<Mark>)
      requires lo <= j <= hi <= |row| && xs != [] && (j == hi || row[j].Pat? || |xs| == SIZE_MAX)
      requires Loop(row, lo, hi, j, xs, d, i, base, vbase, ids, marks)
      requires RowValid(Horizontal, d, i + 1, row) && PrintableRow(fullColumnIndices, row)
      requires SideRange(d, i + 1, row, lo, hi, side)
      modifies this`patterns, this`flagAvail, this`ctl, this`newRow, this`emptyRows, this`rowJmps, this`units, this`lastCol
      ensures Loop(row, lo, hi, j, [], d, i, base, vbase, ids, marks)
    {
      hide Valid, At, StreamPlaces, RowCells, RowValid, LastX, PrintableRow, Increasing, Pending, SideRange, SpanIds,
           SpanHeads, MarksOf, MarksFor;
      SpanFlush(row, j, hi, xs);
      Assoc(MarksOf(units), [Mark(StretchId(xs), |xs|)], MarksFor(SpanHeads(row[j..hi], [])));
      FlushOk(fullColumnIndices, d, i + 1, row, lo, hi, j, xs, side);
      AddXs(xs, i);
      PendingNone(row, j);
      assert ColumnsAt(i, []) == [];
      NilRight(StreamPlaces(fullColumnIndices, units));
    }

    method OnePattern(row: seq<Elem>, lo: nat, hi: nat, j: nat, xs: seq<int>, ghost d: Dims, ghost i: nat,
                      ghost base: seq<Coord>, ghost vbase: seq<real>, ghost ids: set<int>, ghost marks: seq<Mark>)
      requires lo <= j < hi <= |row| && row[j].Pat? && Loop(row, lo, hi, j, xs, d, i, base, vbase, ids, marks)
      requires RowValid(Horizontal, d, i + 1, row) && PrintableRow(fullColumnIndices, row)
      requires lastCol <= row[lo].x || j > lo
      requires SideRange(d, i + 1, row, lo, hi, side)
      modifies this`patterns, this`flagAvail, this`ctl, this`newRow, this`emptyRows, this`rowJmps, this`units, this`lastCol,
               this`values
      ensures Loop(row, lo, hi, j + 1, [], d, i, base, vbase, ids, marks)
    {
      hide Valid, At, StreamPlaces, RowCells, RowValid, GoodElem, ElemCells, LastX, PrintableRow, ElemSided,
           Increasing, Pending, SideRange, SpanIds, SpanHeads, MarksOf, MarksFor;
      var e := row[j];
      SpanNext(row, j, hi, []);
      if |xs| != 0 {
        Flush(row, lo, hi, j, xs, d, i, base, vbase, ids, marks);
      }
      RowElem(fullColumnIndices, d, i + 1, row, j);
      SideOf(d, i + 1, row, lo, hi, side, j);
      MoreCells(d, i + 1, row, lo, j);
      ghost var cells := ElemCells(Horizontal, d, Coo(i + 1, e));
      Assoc(base, Ats(RowCells(Horizontal, d, i + 1, row[lo..j])), Ats(cells));
      Assoc(vbase, Vals(RowCells(Horizontal, d, i + 1, row[lo..j])), Vals(cells));
      assert ColumnsAt(i, []) == [];
      NilRight(StreamPlaces(fullColumnIndices, units));
      Assoc(MarksOf(units), [Mark(PatternId(e.p), e.p.size)], MarksFor(SpanHeads(row[j + 1..hi], [])));
      AddPattern(e, d, i);
      NilRight(StreamPlaces(fullColumnIndices, units));
      PatternVals(d, i + 1, e);
      PendingNone(row, j + 1);
      values := values + e.vals;
    }

    method OneSingle(row: seq<Elem>, lo: nat, hi: nat, j: nat, xs: seq<int>, ghost d: Dims, ghost i: nat,
                     ghost base: seq<Coord>, ghost vbase: seq<real>, ghost ids: set<int>, ghost marks: seq<Mark>)
      returns (ys: seq<int>)
      requires lo <= j < hi <= |row| && row[j].Single? && Loop(row, lo, hi, j, xs, d, i, base, vbase, ids, marks)
      requires RowValid(Horizontal, d, i + 1, row) && PrintableRow(fullColumnIndices, row)
      requires lastCol <= row[lo].x || j > lo
      requires SideRange(d, i + 1, row, lo, hi, side)
      modifies this`patterns, this`flagAvail, this`ctl, this`newRow, this`emptyRows, this`rowJmps, this`units, this`lastCol,
               this`values
      ensures Loop(row, lo, hi, j + 1, ys, d, i, base, vbase, ids, marks) && ys != []
    {
      hide Valid, At, StreamPlaces, RowCells, RowValid, GoodElem, ElemCells, LastX, PrintableRow, Increasing, Pending,
           SideRange, SpanIds, SpanHeads, MarksOf, MarksFor;
      var e := row[j];
      ys := xs;
      if |ys| == SIZE_MAX {
        Flush(row, lo, hi, j, ys, d, i, base, vbase, ids, marks);
        ys := [];
      }
      SpanNext(row, j, hi, ys);
      RowElem(fullColumnIndices, d, i + 1, row, j);
      MoreCells(d, i + 1, row, lo, j);
      ghost var cells := ElemCells(Horizontal, d, Coo(i + 1, e));
      Assoc(base, Ats(RowCells(Horizontal, d, i + 1, row[lo..j])), Ats(cells));
      Assoc(vbase, Vals(RowCells(Horizontal, d, i + 1, row[lo..j])), Vals(cells));
      SingleCell(d, i, e, ys);
      Assoc(StreamPlaces(fullColumnIndices, units), ColumnsAt(i, ys), Ats(cells));
      PendingMore(row, j, ys);
      ys := ys + [e.x];
      values := values + [e.val];
    }
  }

  // ----- The whole matrix

  /** The dispatch table: the pattern id of each flag. */
  function TableOf(patterns: map<int, PatInfo>): map<nat, int>
    requires forall a, b :: a in patterns && b in patterns && a != b ==> patterns[a].flag != patterns[b].flag
  {
    map id | id in patterns :: patterns[id].flag := id
  }

  /** A finished matrix stands for some rows: its bytes are units whose flags the
      table knows, visiting the cells in the order of the values. */
  ghost predicate Represents(csx: Csx, us: seq<Unit>, d: Dims, rows: Rows, side: nat) {
    && csx.nrows == d.rows
    && csx.ctl == Emit(csx.full, us)
    && StreamPlaces(csx.full, us) == Ats(Cells(Horizontal, d, rows))
    && csx.values == Vals(Cells(Horizontal, d, rows)) && csx.nnz == |csx.values|
    && MarksOf(us) == MarksFor(MatrixHeads(rows, side))
    && Sided(csx.full, us, side) && Forward(csx.full, us)
    && (csx.rowJmps <==> SomeJump(us))
    && UnitsKnown(csx, us)
  }

  ghost predicate UnitsKnown(csx: Csx, us: seq<Unit>) {
    forall i :: 0 <= i < |us| ==>
      && GoodUnit(csx.full, us[i])
      && us[i].flag <= PATTERNS_MAX && us[i].flag in csx.table && csx.table[us[i].flag] == us[i].id
      && (!csx.rowJmps ==> us[i].jump <= 1)
  }

  /** Every row is well formed.  Empty rows at the end do no harm here. */
  ghost predicate RowsWell(d: Dims, rows: Rows) {
    forall i {:trigger rows[i]} :: 0 <= i < |rows| ==> RowValid(Horizontal, d, i + 1, rows[i])
  }

  lemma ValidRowsWell(d: Dims, rows: Rows)
    requires Encoding.Valid(Horizontal, d, rows)
    ensures RowsWell(d, rows)
  {
    hide Encoding.Valid, RowValid;
    forall i | 0 <= i < |rows|
      ensures RowValid(Horizontal, d, i + 1, rows[i])
    {
      RowsValid(Horizontal, d, rows, i + 1);
    }
  }

  lemma CellsSnoc(d: Dims, rows: Rows, i: nat)
    requires i < |rows|
    ensures var before, more := Cells(Horizontal, d, rows[..i]), RowCells(Horizontal, d, i + 1, rows[i]);
            && Cells(Horizontal, d, rows[..i + 1]) == before + more
            && Ats(before + more) == Ats(before) + Ats(more)
            && Vals(before + more) == Vals(before) + Vals(more)
  {
    hide PointCells;
    assert rows[..i] + [rows[i]] == rows[..i + 1];
    Reorder.PointsSnocRow(rows[..i], rows[i]);
    PointCellsConcat(Horizontal, d, Points(rows[..i]), RowPoints(i + 1, rows[i]));
    AtsConcat(Cells(Horizontal, d, rows[..i]), RowCells(Horizontal, d, i + 1, rows[i]));
  }

  ghost predicate RowsSided(d: Dims, rows: Rows, side: nat) {
    forall i, e :: 0 <= i < |rows| && e in rows[i] ==> ElemSided(d, i + 1, e, side)
  }

  lemma SplitCells(d: Dims, y: int, row: seq<Elem>, s: nat)
    requires s <= |row|
    ensures RowCells(Horizontal, d, y, row) == RowCells(Horizontal, d, y, row[0..s])
         + RowCells(Horizontal, d, y, row[s..|row|])
  {
    assert row[0..s] + row[s..|row|] == row;
    RowPointsConcat(y, row[0..s], row[s..|row|]);
    PointCellsConcat(Horizontal, d, RowPoints(y, row[0..s]), RowPoints(y, row[s..|row|]));
  }

  lemma FirstX(d: Dims, y: int, row: seq<Elem>)
    requires row != [] && RowValid(Horizontal, d, y, row)
    ensures row[0].x >= 1
  {
    hide GoodElem;
  }

  lemma NothingYet(full: bool, d: Dims)
    ensures StreamPlaces(full, []) == Ats(Cells(Horizontal, d, [])) && Vals(Cells(Horizontal, d, [])) == []
    ensures CursorAfter(full, []).row == 0
  {
  }

  lemma EmptyRow(d: Dims, y: int)
    ensures RowCells(Horizontal, d, y, []) == [] && Ats([]) == [] && Vals([]) == []
  {
  }

  lemma NoIds(side: nat)
    ensures RowIds([], side) == {} && MatrixIds([], side) == {}
    ensures MarksFor(RowHeads([], side)) == [] && MarksFor(MatrixHeads([], side)) == []
  {
    assert SpanHeads([], []) == [];
  }

  lemma RowNoSplit(d: Dims, y: int, row: seq<Elem>)
    requires RowValid(Horizontal, d, y, row)
    ensures forall e :: e in row ==> ElemSided(d, y, e, 0) && e.x - 1 >= 0
  {
    hide GoodElem, ElemSided;
    forall e | e in row
      ensures ElemSided(d, y, e, 0) && e.x - 1 >= 0
    {
      NoSplit(d, y, e);
    }
  }

  /** Every element lies right of column 0. */
  lemma NoSplit(d: Dims, y: int, e: Elem)
    requires GoodElem(Horizontal, d, Coo(y, e))
    ensures ElemSided(d, y, e, 0) && e.x - 1 >= 0
  {
    hide Map;
    ElemFacts(Horizontal, d, Coo(y, e));
    var cells := ElemCells(Horizontal, d, Coo(y, e));
    forall c | c in cells
      ensures c.at.x >= 1
    {
      CellInBounds(Horizontal, d, Coo(y, e), c);
    }
  }

  /** The cells of a well-formed element lie in the matrix. */
  lemma CellInBounds(o: Order, d: Dims, q: Coo, c: Entry)
    requires GoodElem(o, d, q) && c in ElemCells(o, d, q)
    ensures InBounds(d, c.at)
  {
    hide Map, RMap;
  }

  /** The elements of a row that start left of the split come first. */
  lemma SplitPoint(d: Dims, y: int, row: seq<Elem>, s: nat, split: nat)
    requires RowSorted(row) && s <= |row| && forall e :: e in row ==> ElemSided(d, y, e, split)
    requires forall j :: 0 <= j < s ==> row[j].x < split + 1
    requires s < |row| ==> row[s].x >= split + 1
    ensures SideRange(d, y, row, 0, s, split) && SideRange(d, y, row, s, |row|, split)
  {
    hide ElemSided;
  }

  /** What the two stretches of a row that is cut at s are. */
  lemma SymSplit(full: bool, d: Dims, y: int, row: seq<Elem>, s: nat, split: nat)
    requires RowValid(Horizontal, d, y, row) && PrintableRow(full, row) && row != [] && s <= |row|
    requires forall e :: e in row ==> ElemSided(d, y, e, split)
    requires (forall j :: 0 <= j < s ==> row[j].x < split + 1) && (s < |row| ==> row[s].x >= split + 1)
    ensures SideRange(d, y, row, 0, s, split) && SideRange(d, y, row, s, |row|, split)
    ensures row[0].x >= 1 && (0 < s < |row| ==> LastX(Horizontal, row[s - 1]) < row[s].x)
         && (s > 0 ==> LastX(Horizontal, row[s - 1]) >= 1)
    ensures RowIds(row, split) == SpanIds(row[0..s], []) + SpanIds(row[s..|row|], [])
    ensures MarksFor(RowHeads(row, split)) == MarksFor(SpanHeads(row[0..s], []))
         + MarksFor(SpanHeads(row[s..|row|], []))
    ensures var all, a, b := RowCells(Horizontal, d, y, row), RowCells(Horizontal, d, y,
                                                                       row[0..s]), RowCells(Horizontal, d, y,
                                                                             row[s..|row|]);
            Ats(all) == Ats(a) + Ats(b) && Vals(all) == Vals(a) + Vals(b)
  {
    hide RowCells, RowValid, PrintableRow, ElemSided, SpanIds, RowIds, LeftOf, SideRange, LastX, SpanHeads, MarksFor,
         RowHeads;
    RowValidSorted(Horizontal, d, y, row);
    SplitPoint(d, y, row, s, split);
    SplitCells(d, y, row, s);
    FirstX(d, y, row);
    if 0 < s {
      RowElem(full, d, y, row, s - 1);
    }
    LeftOfIs(row, split, s);
    AtsConcat(RowCells(Horizontal, d, y, row[0..s]), RowCells(Horizontal, d, y, row[s..|row|]));
  }

  lemma PendingNone(row: seq<Elem>, j: nat)
    requires j <= |row|
    ensures Pending(row, j, [])
  {
  }

  lemma PendingMore(row: seq<Elem>, j: nat, xs: seq<int>)
    requires j < |row| && row[j].Single? && Pending(row, j, xs)
    ensures Pending(row, j + 1, xs + [row[j].x])
  {
  }

  /** The elements lo..hi lie on one side of a column, cells and all. */
  ghost predicate SideRange(d: Dims, y: int, row: seq<Elem>, lo: nat, hi: nat, side: nat)
    requires lo <= hi <= |row|
  {
    forall j :: lo <= j < hi ==> ElemSided(d, y, row[j], side) && (row[j].x - 1 < side <==> row[lo].x - 1 < side)
  }

  lemma SideOf(d: Dims, y: int, row: seq<Elem>, lo: nat, hi: nat, side: nat, j: nat)
    requires lo <= j < hi <= |row| && SideRange(d, y, row, lo, hi, side)
    ensures ElemSided(d, y, row[j], side) && (row[j].x - 1 < side <==> row[lo].x - 1 < side)
  {
    hide ElemSided;
  }

  lemma SideAll(d: Dims, y: int, row: seq<Elem>, side: nat)
    requires forall e :: e in row ==> ElemSided(d, y, e, side) && e.x - 1 >= side
    ensures SideRange(d, y, row, 0, |row|, side)
  {
    hide ElemSided;
    forall j | 0 <= j < |row|
      ensures ElemSided(d, y, row[j], side) && row[j].x - 1 >= side
    {
      assert row[j] in row;
    }
  }

  /** The columns of the last few elements of the prefix, all single. */
  ghost predicate Pending(row: seq<Elem>, j: nat, xs: seq<int>) {
    && |xs| <= j <= |row|
    && forall k {:trigger row[k]} :: j - |xs| <= k < j ==> row[k].Single? && row[k].x == xs[k - (j - |xs|)]
  }

  lemma NoCells(d: Dims, y: int, row: seq<Elem>, lo: nat)
    requires lo <= |row|
    ensures RowCells(Horizontal, d, y, row[lo..lo]) == []
  {
    assert row[lo..lo] == [];
    assert RowPoints(y, row[lo..lo]) == [];
  }

  lemma MoreCells(d: Dims, y: int, row: seq<Elem>, lo: nat, j: nat)
    requires lo <= j < |row|
    ensures var before, cells := RowCells(Horizontal, d, y, row[lo..j]), ElemCells(Horizontal, d, Coo(y, row[j]));
            && RowCells(Horizontal, d, y, row[lo..j + 1]) == before + cells
            && Ats(before + cells) == Ats(before) + Ats(cells)
            && Vals(before + cells) == Vals(before) + Vals(cells)
  {
    hide ElemCells;
    assert row[lo..j] + [row[j]] == row[lo..j + 1];
    Reorder.RowPointsSnoc(y, row[lo..j], row[j]);
    PointCellsSnoc(Horizontal, d, RowPoints(y, row[lo..j]), Coo(y, row[j]));
    AtsConcat(RowCells(Horizontal, d, y, row[lo..j]), ElemCells(Horizontal, d, Coo(y, row[j])));
  }

  /** What the loop relies on about one element. */
  lemma RowElem(full: bool, d: Dims, y: int, row: seq<Elem>, j: nat)
    requires j < |row| && RowValid(Horizontal, d, y, row) && PrintableRow(full, row)
    ensures GoodElem(Horizontal, d, Coo(y, row[j])) && row[j].x >= 1
    ensures row[j].Pat? ==> row[j].p.size <= SIZE_MAX && PatternParam(row[j].p) < PID_OFFSET
    ensures full ==> row[j].x <= 0x1_0000_0000
    ensures j + 1 < |row| ==> LastX(Horizontal, row[j]) < row[j + 1].x
    ensures row[j].x <= LastX(Horizontal, row[j])
    ensures row[j].Single? ==> LastX(Horizontal, row[j]) == row[j].x
    ensures j > 0 ==> LastX(Horizontal, row[j - 1]) < row[j].x
  {
    hide GoodElem, LastX, RowSorted;
    OpenedSpan(Horizontal, row[j]);
    if row[j].Single? {
      PlainLast(Horizontal, row[j]);
    }
  }

  lemma FlushOk(full: bool, d: Dims, y: int, row: seq<Elem>, lo: nat, hi: nat, j: nat, xs: seq<int>, side: nat)
    requires lo <= j <= hi <= |row| && RowValid(Horizontal, d, y, row) && PrintableRow(full, row)
    requires Pending(row, j, xs) && 1 <= |xs| <= j - lo
    requires SideRange(d, y, row, lo, hi, side)
    ensures Increasing(xs)
    ensures forall k :: 0 < k < |xs| ==> xs[k] - xs[k - 1] < 0x1_0000_0000
    ensures full ==> xs[0] <= 0x1_0000_0000
    ensures forall k :: 0 <= k < |xs| ==> (xs[k] - 1 < side <==> xs[0] - 1 < side)
    ensures 1 <= xs[|xs| - 1] == row[j - 1].x == LastX(Horizontal, row[j - 1])
    ensures j < |row| ==> xs[|xs| - 1] < row[j].x
  {
    hide GoodElem, LastX, RowTight, WellSized, SideRange;
    assert row[j - 1].Single? && row[j - 1].x == xs[|xs| - 1];
    PlainLast(Horizontal, row[j - 1]);
    assert row[j - |xs|] in row;
    forall k | 0 < k < |xs|
      ensures xs[k] - xs[k - 1] < 0x1_0000_0000
    {
      assert row[j - |xs| + k].x == xs[k];
      assert row[j - |xs| + k - 1].x == xs[k - 1];
    }
    forall a, b | 0 <= a < b < |xs|
      ensures xs[a] < xs[b]
    {
      assert row[j - |xs| + a].x == xs[a] && row[j - |xs| + b].x == xs[b];
    }
    forall k | 0 <= k < |xs|
      ensures xs[k] - 1 < side <==> xs[0] - 1 < side
    {
      SideOf(d, y, row, lo, hi, side, j - |xs| + k);
      SideOf(d, y, row, lo, hi, side, j - |xs|);
      assert row[j - |xs| + k].x == xs[k];
    }
  }

  lemma PatternVals(d: Dims, y: int, e: Elem)
    requires e.Pat?
    ensures Vals(ElemCells(Horizontal, d, Coo(y, e))) == e.vals
  {
    hide Map, RMap;
  }

  lemma SingleCell(d: Dims, i: int, e: Elem, xs: seq<int>)
    requires e.Single?
    ensures Ats(ElemCells(Horizontal, d, Coo(i + 1, e))) == [Coord(i + 1, e.x)]
    ensures Vals(ElemCells(Horizontal, d, Coo(i + 1, e))) == [e.val]
    ensures ColumnsAt(i, xs + [e.x]) == ColumnsAt(i, xs) + [Coord(i + 1, e.x)]
    ensures ColumnsAt(i, []) == []
  {
  }

  /** All cells of an element are on the same side of a column as its anchor. */
  ghost predicate ElemSided(d: Dims, y: int, e: Elem, side: nat) {
    forall c :: c in ElemCells(Horizontal, d, Coo(y, e)) ==> (c.at.x - 1 < side <==> e.x - 1 < side)
  }

  /** A unit starts at the column of its first element. */
  lemma StartsAt(full: bool, cur: Cursor, u: Unit, i: int, lastCol: int, x: int)
    requires cur.row + u.jump == i
    requires u.jump == 0 ==> lastCol - 1 == cur.col
    requires u.jump > 0 ==> lastCol == 1
    requires u.ucol == if full then x - 1 else x - lastCol
    ensures StartAt(full, cur, u) == Cursor(i, x - 1)
  {
  }

  /** The last column of a pattern, on rows in the horizontal order. */
  function ColIncreaseJmp(p: Pattern, x: int): int {
    if p.order == Horizontal then x + Times(p.Step(), p.size - 1) else x
  }

  lemma PatternEnd(e: Elem, u: Unit, i: int)
    requires e.Pat? && |e.vals| == e.p.size && e.p.Good()
    requires !u.IsDelta() && u.Type() == e.p.order && u.Param() == PatternParam(e.p) && u.size == e.p.size
    ensures EndAt(u, Cursor(i, e.x - 1)) == Cursor(i, LastX(Horizontal, e) - 1)
  {
  }

  lemma PatternLast(d: Dims, y: int, e: Elem)
    requires e.Pat? && GoodElem(Horizontal, d, Coo(y, e))
    ensures ColIncreaseJmp(e.p, e.x) == LastX(Horizontal, e)
  {
  }

  lemma FourBytes()
    ensures Pow256(4) == 0x1_0000_0000
  {
    assert Pow256(1) == 256;
    assert Pow256(2) == 65536;
    assert Pow256(3) == 0x100_0000;
  }

  lemma NoTail(pos: nat, u: Unit, full: bool)
    requires GoodUnit(full, u) && !u.IsDelta()
    ensures TailBytes(pos, u) == []
  {
  }

  lemma DeltaUnitGood(full: bool, u: Unit, max: nat)
    requires 1 <= u.size <= SIZE_MAX && |u.deltas| == u.size - 1 && max < 0x1_0000_0000
    requires u.id == 8 * DeltaBytes(max) && forall i :: 0 <= i < |u.deltas| ==> u.deltas[i] <= max
    requires full ==> u.ucol < 0x1_0000_0000
    requires u.deltas == [] ==> max == 0
    ensures GoodUnit(full, u) && u.IsDelta() && u.Width() == DeltaBytes(max) && u.id in {8, 16, 32}
  {
    FourBytes();
    DeltaBytesFit(max);
  }
}

/** Loading a matrix in parts, one a thread.

    The input is the list of elements in row order.  `LoadMt` promises that the parts
    are consecutive stretches of it that never divide a row, that their rows follow one
    another without gap, and how many elements each takes.  `MultiplyParts` runs every
    part through encoder, printer and kernel and promises the product of the matrix. */
module Load {
  import opened Orders
  import opened Matrix
  import opened Products
  import opened Reorder
  import opened SpmMatrix
  import opened Encoding
  import opened CsxPrinter
  import opened CsxKernel
  import opened Drle
  import opened Spmv

  ghost predicate InRowOrder(points: seq<Coo>) {
    forall i, j :: 0 <= i < j < |points| ==> points[i].y <= points[j].y
  }

  ghost predicate FromRow(points: seq<Coo>, at: nat, first: int) {
    forall i :: at <= i < |points| ==> points[i].y >= first
  }

  /** The stretch at..to: it ends where the elements end, or at the first new row with
      enough elements before it. */
  ghost predicate Stops(points: seq<Coo>, at: nat, to: nat, limit: nat) {
    && at <= to <= |points|
    && (to < |points| ==> limit > 0 && to - at >= limit && points[to - 1].y < points[to].y)
    && forall k :: at < k < to && points[k - 1].y < points[k].y && limit > 0 ==> k - at < limit
  }

  /** Fills one part with the elements from `at` on, at least `limit` of them unless there
      are fewer; only a new row can end it. */
  method SetElems(points: seq<Coo>, at: nat, first: int, limit: nat, cols: nat) returns (spm: Spm, to: nat)
    requires at <= |points| && InRowOrder(points) && FromRow(points, at, first)
    ensures Stops(points, at, to, limit)
    ensures fresh(spm) && spm.Valid() && spm.order == Horizontal && spm.rows == BuildRows(points[at..to], first)
    ensures spm.dims == Dims(|spm.rows|, cols)
  {
    hide Flat, Ptrs, AddPoint, BuildRows, Padded, AddToLast, Canonical, Builder.Valid;
    BuildNone(first);
    PadFirst();
    var bld := new Builder();
    var rowPrev := first;
    to := at;
    assert points[at..at] == [];
    while to < |points|
      invariant at <= to <= |points| && bld.Valid() && fresh(bld) && |bld.elems| == to - at
      invariant rowPrev == if to == at then first else points[to - 1].y
      invariant |BuildRows(points[at..to], first)| == if to == at then 0 else rowPrev - first + 1
      invariant bld.rows == Padded(BuildRows(points[at..to], first), rowPrev - first + 1)
      invariant forall k :: at < k < to && points[k - 1].y < points[k].y && limit > 0 ==> k - at < limit
      decreases |points| - to
    {
      var row := points[to].y;
      if row != rowPrev {
        if limit != 0 && |bld.elems| >= limit {
          break;
        }
        bld.NewRow(row - rowPrev);
        PadMore(BuildRows(points[at..to], first), rowPrev - first + 1, row - rowPrev);
        rowPrev := row;
      }
      OneMore(points, at, to, first);
      bld.AllocElem(points[to].e);
      PadNothing(BuildRows(points[at..to + 1], first));
      to := to + 1;
    }
    LastRowFilled(points[at..to], first);
    BuiltRows(BuildRows(points[at..to], first), bld.rows);
    ghost var rows := BuildRows(points[at..to], first);
    var es, ptr := bld.Finalize();
    spm := new Spm(es, ptr, Horizontal, Dims(|ptr| - 1, cols), rows);
  }

  lemma OneMore(points: seq<Coo>, at: nat, to: nat, first: int)
    requires at <= to < |points| && points[to].y >= first
    requires |BuildRows(points[at..to], first)| <= points[to].y - first + 1
    ensures BuildRows(points[at..to + 1], first)
         == AddToLast(Padded(BuildRows(points[at..to], first), points[to].y - first + 1), points[to].e)
    ensures |BuildRows(points[at..to + 1], first)| == points[to].y - first + 1
  {
    hide BuildRows, Padded, AddToLast;
    var tail := points[at..];
    assert tail[..to - at] == points[at..to] && tail[..to - at + 1] == points[at..to + 1];
    BuildOneMore(tail, to - at, first);
  }

  /** The rows of a part that was given its share of what was left for `ways` threads. */
  ghost predicate PartRowsAre(rows: Rows, points: seq<Coo>, at: nat, to: nat, start: nat, next: nat, ways: nat) {
    && at <= |points| && ways >= 1 && Stops(points, at, to, Quot(|points| - at, ways))
    && rows == BuildRows(points[at..to], start + 1) && next == start + |rows|
  }

  ghost predicate PartLoaded(spm: Spm, points: seq<Coo>, at: nat, to: nat, start: nat, next: nat, ways: nat, cols: nat)
    reads spm
  {
    && PartRowsAre(spm.rows, points, at, to, start, next, ways)
    && spm.Valid() && spm.order == Horizontal && spm.dims == Dims(|spm.rows|, cols)
  }

  /** Divides the elements among nr parts. */
  method LoadMt(points: seq<Coo>, cols: nat, nr: nat) returns (parts: seq<Spm>, starts: seq<nat>, ghost cuts: seq<nat>)
    requires nr >= 1 && InRowOrder(points) && FromRow(points, 0, 1)
    ensures |parts| == nr && |starts| == |cuts| == nr + 1 && starts[0] == cuts[0] == 0 && cuts[nr] == |points|
    ensures forall i {:trigger parts[i]} :: 0 <= i < nr ==>
              PartLoaded(parts[i], points, cuts[i], cuts[i + 1], starts[i], starts[i + 1], nr - i, cols)
    ensures (forall i :: 0 <= i < nr ==> fresh(parts[i])) && forall i, j :: 0 <= i < j < nr ==> parts[i] != parts[j]
  {
    hide Stops, BuildRows, Spm.Valid, FromRow, Quot;
    parts, starts, cuts := [], [0], [0];
    var cnt, rowStart := 0, 0;
    var i := 0;
    while i < nr
      invariant 0 <= i <= nr && |parts| == i && |starts| == |cuts| == i + 1 && starts[0] == cuts[0] == 0
      invariant cnt == cuts[i] <= |points| && rowStart == starts[i] && (i == nr ==> cnt == |points|)
      invariant FromRow(points, cnt, rowStart + 1)
      invariant forall j {:trigger parts[j]} :: 0 <= j < i ==>
                  PartLoaded(parts[j], points, cuts[j], cuts[j + 1], starts[j], starts[j + 1], nr - j, cols)
      invariant (forall j :: 0 <= j < i ==> fresh(parts[j])) && forall j, k :: 0 <= j < k < i ==> parts[j] != parts[k]
    {
      var limit := Quot(|points| - cnt, nr - i);
      var spm, to := SetElems(points, cnt, rowStart + 1, limit, cols);
      NextPart(points, cnt, to, rowStart, limit);
      StopsIn(points, cnt, to, limit);
      if i + 1 == nr {
        LastTakesAll(points, cnt, to, limit);
      }
      parts, starts, cuts := parts + [spm], starts + [rowStart + spm.NrRows()], cuts + [to];
      rowStart := rowStart + spm.NrRows();
      cnt := to;
      i := i + 1;
    }
  }

  /** What is left begins behind the rows of the part. */
  lemma NextPart(points: seq<Coo>, at: nat, to: nat, start: nat, limit: nat)
    requires at <= |points| && InRowOrder(points) && FromRow(points, at, start + 1) && Stops(points, at, to, limit)
    ensures FromRow(points, to, start + |BuildRows(points[at..to], start + 1)| + 1)
  {
    hide BuildRows;
    BuildLength(points[at..to], start + 1);
  }

  /** The last part's limit is all that is left. */
  lemma LastTakesAll(points: seq<Coo>, at: nat, to: nat, limit: nat)
    requires at <= |points| && Stops(points, at, to, limit) && limit == Quot(|points| - at, 1)
    ensures to == |points|
  {
  }

  // ----- What the parts are

  /** Elements renumbered so that row start + 1 is row 1. */
  function Down(points: seq<Coo>, start: int): (r: seq<Coo>)
    ensures |r| == |points| && forall i {:trigger r[i]} :: 0 <= i < |points| ==> r[i] == Coo(points[i].y - start, points[i].e)
  {
    seq(|points|, i requires 0 <= i < |points| => Coo(points[i].y - start, points[i].e))
  }

  lemma {:induction false} BuildDown(points: seq<Coo>, first: int)
    ensures BuildRows(points, first) == BuildRows(Down(points, first - 1), 1)
  {
    hide AddPoint;
    if points != [] {
      var n := |points| - 1;
      BuildDown(points[..n], first);
      assert Down(points, first - 1)[..n] == Down(points[..n], first - 1);
      AddDown(BuildRows(points[..n], first), points[n], first);
    }
  }

  lemma AddDown(rows: Rows, c: Coo, first: int)
    ensures AddPoint(rows, c, first) == AddPoint(rows, Coo(c.y - (first - 1), c.e), 1)
  {
  }

  /** The elements of a part, back at their places, are its stretch of the input. */
  lemma PartIsStretch(points: seq<Coo>, at: nat, to: nat, start: nat, limit: nat)
    requires at <= |points| && InRowOrder(points) && FromRow(points, at, start + 1) && Stops(points, at, to, limit)
    ensures Points(BuildRows(points[at..to], start + 1)) == Down(points[at..to], start)
    ensures Canonical(BuildRows(points[at..to], start + 1))
  {
    hide BuildRows, Points;
    BuildDown(points[at..to], start + 1);
    PointsBuild(Down(points[at..to], start));
  }

  /** A part with a positive limit holds fewer elements than the limit and its last row
      together. */
  lemma PartSize(points: seq<Coo>, at: nat, to: nat, limit: nat, lastRow: nat)
    requires InRowOrder(points) && Stops(points, at, to, limit) && limit > 0 && at < to
    requires at <= lastRow < to && (lastRow > at ==> points[lastRow - 1].y < points[lastRow].y)
    requires forall k :: lastRow <= k < to ==> points[k].y == points[to - 1].y
    ensures to - at < limit + (to - lastRow)
  {
  }

  /** A part is empty only when nothing was left for it. */
  lemma EmptyPart(points: seq<Coo>, at: nat, to: nat, limit: nat)
    requires Stops(points, at, to, limit)
    ensures at == to <==> at == |points|
  {
  }

  // ----- Parts as matrices

  /** The input of a matrix with the given columns: single elements, strictly in order. */
  ghost predicate Input(points: seq<Coo>, cols: nat) {
    && Sorted(points)
    && forall i :: 0 <= i < |points| ==> points[i].e.Single? && points[i].y >= 1 && 1 <= points[i].e.x <= cols
  }

  lemma InputOrder(points: seq<Coo>, cols: nat)
    requires Input(points, cols)
    ensures InRowOrder(points) && FromRow(points, 0, 1)
  {
    forall i, j | 0 <= i < j < |points|
      ensures points[i].y <= points[j].y
    {
      assert Less(points[i].At(), points[j].At());
    }
  }

  /** Every part is a matrix the encoder accepts. */
  lemma PartValid(points: seq<Coo>, cols: nat, at: nat, to: nat, start: nat, limit: nat)
    requires Input(points, cols) && at <= |points| && FromRow(points, at, start + 1) && Stops(points, at, to, limit)
    ensures var rows := BuildRows(points[at..to], start + 1);
            Valid(Horizontal, Dims(|rows|, cols), rows) && forall c :: c in Points(rows) ==> c.e.Single?
  {
    hide BuildRows, Points, Canonical, Less;
    InputOrder(points, cols);
    PartIsStretch(points, at, to, start, limit);
    var rows, ps := BuildRows(points[at..to], start + 1), Down(points[at..to], start);
    StretchSorted(points, at, to, start);
    forall i | 0 <= i < |ps|
      ensures ps[i].e.Single? && GoodElem(Horizontal, Dims(|rows|, cols), ps[i])
    {
      assert ps[i].e == points[at + i].e && points[at + i].y >= start + 1;
      PointsRange(rows);
    }
  }

  lemma StretchSorted(points: seq<Coo>, at: nat, to: nat, start: nat)
    requires Sorted(points) && at <= to <= |points|
    ensures Sorted(Down(points[at..to], start))
  {
    var ps := Down(points[at..to], start);
    forall i, j | 0 <= i < j < |ps|
      ensures Less(ps[i].At(), ps[j].At())
    {
      assert Less(points[at + i].At(), points[at + j].At());
    }
  }

  // ----- The product

  /** The matrix as a list of entries. */
  function EntriesOf(points: seq<Coo>): (r: seq<Entry>)
    requires forall i :: 0 <= i < |points| ==> points[i].e.Single?
    ensures |r| == |points|
    ensures forall i {:trigger r[i]} :: 0 <= i < |points| ==> r[i] == Entry(points[i].At(), points[i].e.val)
  {
    seq(|points|, i requires 0 <= i < |points| => Entry(points[i].At(), points[i].e.val))
  }

  /** The product with the matrix of a list, of n rows. */
  function TimesList(points: seq<Coo>, n: nat): seq<real> -> seq<real>
    requires forall k :: 0 <= k < |points| ==> points[k].e.Single?
  {
    (x: seq<real>) => seq(n, p requires 0 <= p < n => RowProduct(EntriesOf(points), x, p + 1))
  }

  lemma {:induction false} SingleCells(d: Dims, ps: seq<Coo>)
    requires forall i :: 0 <= i < |ps| ==> ps[i].e.Single?
    ensures PointCells(Horizontal, d, ps) == EntriesOf(ps)
  {
    if ps != [] {
      var n := |ps| - 1;
      SingleCells(d, ps[..n]);
      assert EntriesOf(ps) == EntriesOf(ps[..n]) + [Entry(ps[n].At(), ps[n].e.val)];
    }
  }

  /** A row of a part has the same product as the row of the matrix. */
  lemma {:induction false} DownProduct(points: seq<Coo>, start: int, x: seq<real>, i: int)
    requires forall k :: 0 <= k < |points| ==> points[k].e.Single?
    ensures RowProduct(EntriesOf(Down(points, start)), x, i - start) == RowProduct(EntriesOf(points), x, i)
  {
    if points != [] {
      var n := |points| - 1;
      DownProduct(points[..n], start, x, i);
      assert EntriesOf(points)[..n] == EntriesOf(points[..n]);
      assert EntriesOf(Down(points, start))[..n] == EntriesOf(Down(points[..n], start));
    }
  }

  /** The rows of other stretches add nothing. */
  lemma OnlyStretch(points: seq<Coo>, at: nat, to: nat, x: seq<real>, i: int)
    requires at <= to <= |points| && (forall k :: 0 <= k < |points| ==> points[k].e.Single?)
    requires (forall k :: 0 <= k < at ==> points[k].y != i) && forall k :: to <= k < |points| ==> points[k].y != i
    ensures RowProduct(EntriesOf(points), x, i) == RowProduct(EntriesOf(points[at..to]), x, i)
  {
    hide Sum, RowTerm;
    var a, b, c := EntriesOf(points[..at]), EntriesOf(points[at..to]), EntriesOf(points[to..]);
    assert EntriesOf(points) == (a + b) + c;
    SumConcat(a + b, c, RowTerm(i, x));
    SumConcat(a, b, RowTerm(i, x));
    NoTerm(a, i, x);
    NoTerm(c, i, x);
  }

  /** Rows start..next are those of the elements at..to. */
  lemma PartRows(points: seq<Coo>, at: nat, to: nat, start: nat, next: nat, limit: nat)
    requires at <= |points| && InRowOrder(points) && FromRow(points, at, start + 1) && Stops(points, at, to, limit)
    requires next == start + |BuildRows(points[at..to], start + 1)|
    ensures forall k :: at <= k < to ==> start < points[k].y <= next
    ensures forall k :: to <= k < |points| ==> points[k].y > next
  {
    hide BuildRows;
    NextPart(points, at, to, start, limit);
    BuildLength(points[at..to], start + 1);
    forall k | at <= k < to
      ensures start < points[k].y <= next
    {
      assert points[at..to][k - at] == points[k] && points[at..to][to - at - 1] == points[to - 1];
    }
  }

  /** The rows of all parts of one input, as `LoadMt` leaves them. */
  ghost predicate Divided(points: seq<Coo>, cols: nat, rowss: seq<Rows>, starts: seq<nat>, cuts: seq<nat>) {
    && Input(points, cols) && |starts| == |cuts| == |rowss| + 1 && starts[0] == cuts[0] == 0
         && cuts[|rowss|] == |points|
    && forall i {:trigger rowss[i]} :: 0 <= i < |rowss| ==>
         PartRowsAre(rowss[i], points, cuts[i], cuts[i + 1], starts[i], starts[i + 1], |rowss| - i)
  }

  /** Where part i begins: no element before it is in its rows, none behind it either. */
  lemma PartBegins(points: seq<Coo>, cols: nat, rowss: seq<Rows>, starts: seq<nat>, cuts: seq<nat>, i: nat)
    requires Divided(points, cols, rowss, starts, cuts) && i <= |rowss|
    ensures cuts[i] <= |points| && FromRow(points, cuts[i], starts[i] + 1)
    ensures forall k :: 0 <= k < cuts[i] ==> points[k].y <= starts[i]
    decreases i
  {
    hide Input, BuildRows, Stops;
    InputOrder(points, cols);
    if i > 0 {
      PartBegins(points, cols, rowss, starts, cuts, i - 1);
      assert PartRowsAre(rowss[i - 1], points, cuts[i - 1], cuts[i], starts[i - 1], starts[i], |rowss| - (i - 1));
      StopsIn(points, cuts[i - 1], cuts[i], Quot(|points| - cuts[i - 1], |rowss| - (i - 1)));
      PartRows(points, cuts[i - 1], cuts[i], starts[i - 1], starts[i], Quot(|points| - cuts[i - 1], |rowss| - (i - 1)));
    }
  }

  lemma StopsIn(points: seq<Coo>, at: nat, to: nat, limit: nat)
    requires Stops(points, at, to, limit)
    ensures at <= to <= |points|
  {
  }

  /** Part i: a matrix for the encoder, with elements unless nothing was left for it. */
  lemma PartIs(points: seq<Coo>, cols: nat, rowss: seq<Rows>, starts: seq<nat>, cuts: seq<nat>, i: nat)
    requires Divided(points, cols, rowss, starts, cuts) && i < |rowss|
    ensures Valid(Horizontal, Dims(|rowss[i]|, cols), rowss[i]) && SmallPatterns(Points(rowss[i]))
    ensures starts[i + 1] == starts[i] + |rowss[i]|
    ensures cuts[i] < |points| ==> Cells(Horizontal, Dims(|rowss[i]|, cols), rowss[i]) != []
  {
    hide BuildRows, Points, Stops, Valid;
    InputOrder(points, cols);
    PartBegins(points, cols, rowss, starts, cuts, i);
    var at, to, limit := cuts[i], cuts[i + 1], Quot(|points| - cuts[i], |rowss| - i);
    assert PartRowsAre(rowss[i], points, at, to, starts[i], starts[i + 1], |rowss| - i);
    StopsIn(points, at, to, limit);
    EmptyPart(points, at, to, limit);
    PartValid(points, cols, at, to, starts[i], limit);
    PartIsStretch(points, at, to, starts[i], limit);
    SingleCells(Dims(|rowss[i]|, cols), Down(points[at..to], starts[i]));
  }

  /** Row j of the product of part i is row j of the product of the matrix. */
  lemma PartProductIs(points: seq<Coo>, cols: nat, rowss: seq<Rows>, starts: seq<nat>, cuts: seq<nat>, i: nat,
                      x: seq<real>, j: nat)
    requires Divided(points, cols, rowss, starts, cuts) && i < |rowss| && starts[i] <= j < starts[i + 1]
    ensures forall k :: 0 <= k < |points| ==> points[k].e.Single?
    ensures RowProduct(Cells(Horizontal, Dims(|rowss[i]|, cols), rowss[i]), x, j - starts[i] + 1)
         == RowProduct(EntriesOf(points), x, j + 1)
  {
    hide RowProduct, BuildRows, Points, Stops;
    PartBegins(points, cols, rowss, starts, cuts, i);
    InputOrder(points, cols);
    var at, to, limit := cuts[i], cuts[i + 1], Quot(|points| - cuts[i], |rowss| - i);
    assert PartRowsAre(rowss[i], points, at, to, starts[i], starts[i + 1], |rowss| - i);
    StopsIn(points, at, to, limit);
    PartRows(points, at, to, starts[i], starts[i + 1], limit);
    PartIsStretch(points, at, to, starts[i], limit);
    OnlyStretch(points, at, to, x, j + 1);
    DownProduct(points[at..to], starts[i], x, j + 1);
    SingleCells(Dims(|rowss[i]|, cols), Down(points[at..to], starts[i]));
  }

  /** The rows of a part hold the product of the matrix. */
  ghost predicate RowsRight(y: seq<real>, points: seq<Coo>, x: seq<real>, start: nat, next: nat)
  {
    && next <= |y| && (forall k :: 0 <= k < |points| ==> points[k].e.Single?)
    && forall j :: start <= j < next ==> y[j] == RowProduct(EntriesOf(points), x, j + 1)
  }

  /** The rows of a part are as they were. */
  ghost predicate RowsSame(y: seq<real>, y0: seq<real>, start: nat, next: nat) {
    next <= |y| == |y0| && forall j :: start <= j < next ==> y[j] == y0[j]
  }

  /** What is to be encoded: types with or without given deltas, and whether blocks are
      split. */
  datatype Wish = Wish(xforms: seq<nat>, deltas: Option<seq<seq<nat>>>, splitBlocks: bool)
  {
    /** The settings of the library. */
    function Settings(): Params {
      Params(4, 254, 0.05, splitBlocks, false, false)
    }

    /** The encoder makes `to` of the rows of a part. */
    ghost predicate Encodes(from: Rows, cols: nat, nonzeros: nat, to: Rows) {
      MatrixEncoded(Settings(), nonzeros, Dims(|from|, cols), xforms, deltas, from, to)
    }
  }

  /** What became of a part: it was encoded, and its rows hold the product when its ids
      fit, and what they held before otherwise. */
  ghost predicate PartDone(part: Spm, rows: Rows, cols: nat, nonzeros: nat, wish: Wish, y: seq<real>, y0: seq<real>,
                           points: seq<Coo>,
                           x: seq<real>, start: nat, next: nat)
    reads part
  {
    && part.Valid() && part.order == Horizontal && Prepared(Dims(|rows|, cols), rows, part.rows)
    && wish.Encodes(rows, cols, nonzeros, part.rows)
    && if FlagsFit(part.rows, 0) then RowsRight(y, points, x, start, next) else RowsSame(y, y0, start, next)
  }

  /** Every part is encoded, printed and multiplied: y becomes the product of the matrix
      that was loaded, exactly when the ids of every part fit the flag byte.  A part needs
      an element, as the kernel runs at least one unit. */
  method MultiplyParts(parts: seq<Spm>, starts: seq<nat>, nonzeros: seq<nat>, xforms: seq<nat>,
                       deltas: Option<seq<seq<nat>>>,
                       splitBlocks: bool, full: bool, x: seq<real>, y: array<real>,
                       ghost points: seq<Coo>, ghost cols: nat, ghost rowss: seq<Rows>, ghost cuts: seq<nat>)
    returns (ok: bool)
    requires |parts| == |rowss| == |nonzeros| && Divided(points, cols, rowss, starts, cuts)
    requires forall i {:trigger parts[i]} :: 0 <= i < |parts| ==>
               parts[i].Valid() && parts[i].order == Horizontal && parts[i].rows == rowss[i]
                    && parts[i].dims == Dims(|rowss[i]|, cols)
    requires forall i, j :: 0 <= i < j < |parts| ==> parts[i] != parts[j]
    requires forall i :: 0 <= i < |parts| ==> cuts[i] < |points|
    requires starts[|parts|] <= y.Length && cols <= |x| && cols <= 0x1_0000_0000
    requires deltas.Some? ==>
               && |deltas.value| == |xforms|
               && forall i :: 0 <= i < |xforms| ==>
                    && (xforms[i] == 0 || Encodable(xforms[i]))
                    && Chosen(Params(4, 254, 0.05, splitBlocks, false, false).For(xforms[i], deltas.value[i]))
                    && forall j :: 0 <= j < |deltas.value[i]| ==> deltas.value[i][j] >= 1
    modifies y, set s | s in parts
    ensures ok <==> forall i {:trigger parts[i]} :: 0 <= i < |parts| ==> FlagsFit(parts[i].rows, 0)
    ensures forall i {:trigger parts[i]} :: 0 <= i < |parts| ==>
              PartDone(parts[i], rowss[i], cols, nonzeros[i], Wish(xforms, deltas, splitBlocks), y[..], old(y[..]), points, x, starts[i],
                       starts[i + 1])
    ensures forall j :: starts[|parts|] <= j < y.Length ==> y[j] == old(y[j])
  {
    hide Spm.Valid, Divided, Chosen, RowProduct, Valid, SmallPatterns, Cells, RowsRight, FlagsFit, Prepared, RowsSame,
         MatrixEncoded;
    ok := true;
    var i := 0;
    ghost var wish := Wish(xforms, deltas, splitBlocks);
    ghost var first := y[..];
    StartsAscend(points, cols, rowss, starts, cuts);
    while i < |parts|
      invariant 0 <= i <= |parts|
      invariant forall k {:trigger parts[k]} :: i <= k < |parts| ==>
                  parts[k].Valid() && parts[k].order == Horizontal && parts[k].rows == rowss[k]
                       && parts[k].dims == Dims(|rowss[k]|, cols)
      invariant forall k {:trigger parts[k]} :: 0 <= k < i ==>
                  PartDone(parts[k], rowss[k], cols, nonzeros[k], wish, y[..], first, points, x, starts[k], starts[k + 1])
      invariant ok <==> forall k {:trigger parts[k]} :: 0 <= k < i ==> FlagsFit(parts[k].rows, 0)
      invariant forall j :: starts[i] <= j < y.Length ==> y[j] == old(y[j])
    {
      PartIs(points, cols, rowss, starts, cuts, i);
      ghost var y0, d := y[..], parts[i].dims;
      var done := PrepareAndMultiply(parts[i], nonzeros[i], starts[i], xforms, deltas, splitBlocks, full, x, y);
      ok := ok && done;
      if done {
        PartRight(points, cols, rowss, starts, cuts, i, x, y[..]);
      } else {
        StillSame(first, y[..], starts[i], starts[i + 1]);
      }
      forall k | 0 <= k < i
        ensures PartDone(parts[k], rowss[k], cols, nonzeros[k], wish, y[..], first, points, x, starts[k], starts[k + 1])
      {
        StillDone(parts[k], rowss[k], cols, nonzeros[k], wish, y0, y[..], first, points, x, starts[k], starts[k + 1],
                  starts[i]);
      }
      i := i + 1;
    }
  }

  lemma StartsAscend(points: seq<Coo>, cols: nat, rowss: seq<Rows>, starts: seq<nat>, cuts: seq<nat>)
    requires Divided(points, cols, rowss, starts, cuts)
    ensures |starts| == |rowss| + 1 && forall i, j :: 0 <= i <= j <= |rowss| ==> starts[i] <= starts[j]
  {
    hide Stops, BuildRows, Input;
    forall i | 0 <= i < |rowss|
      ensures starts[i] <= starts[i + 1]
    {
      assert PartRowsAre(rowss[i], points, cuts[i], cuts[i + 1], starts[i], starts[i + 1], |rowss| - i);
    }
    StepsAscend(starts, |rowss|);
  }

  lemma {:induction false} StepsAscend(starts: seq<nat>, n: nat)
    requires n < |starts| && forall i :: 0 <= i < |starts| - 1 ==> starts[i] <= starts[i + 1]
    ensures forall i, j :: 0 <= i <= j <= n ==> starts[i] <= starts[j]
  {
    if n > 0 {
      StepsAscend(starts, n - 1);
      assert starts[n - 1] <= starts[n];
    }
  }

  lemma PartRight(points: seq<Coo>, cols: nat, rowss: seq<Rows>, starts: seq<nat>, cuts: seq<nat>, i: nat,
                  x: seq<real>, y: seq<real>)
    requires Divided(points, cols, rowss, starts, cuts) && i < |rowss| && starts[i + 1] == starts[i] + |rowss[i]| <= |y|
    requires forall j :: starts[i] <= j < starts[i + 1] ==>
               y[j] == RowProduct(Cells(Horizontal, Dims(|rowss[i]|, cols), rowss[i]), x, j - starts[i] + 1)
    ensures RowsRight(y, points, x, starts[i], starts[i + 1])
  {
    hide RowProduct, Cells, PartRowsAre, Sorted;
    forall j | starts[i] <= j < starts[i + 1]
      ensures y[j] == RowProduct(EntriesOf(points), x, j + 1)
    {
      PartProductIs(points, cols, rowss, starts, cuts, i, x, j);
    }
  }

  lemma StillSame(y0: seq<real>, y: seq<real>, start: nat, next: nat)
    requires next <= |y| == |y0| && forall j :: start <= j < next ==> y[j] == y0[j]
    ensures RowsSame(y, y0, start, next)
  {
  }

  lemma StillDone(part: Spm, rows: Rows, cols: nat, nonzeros: nat, wish: Wish, y: seq<real>, y': seq<real>,
                  y0: seq<real>, points: seq<Coo>,
                  x: seq<real>, start: nat, next: nat, at: nat)
    requires PartDone(part, rows, cols, nonzeros, wish, y, y0, points, x, start, next)
    requires |y'| == |y| && next <= at && forall j :: 0 <= j < at && j < |y| ==> y'[j] == y[j]
    ensures PartDone(part, rows, cols, nonzeros, wish, y', y0, points, x, start, next)
  {
    hide RowProduct, FlagsFit, Prepared, Spm.Valid, MatrixEncoded;
  }

  // ----- From the list of elements to the product

  /** The parts cover rows 0..starts[k]. */
  lemma {:induction false} AllRowsRight(y: seq<real>, points: seq<Coo>, x: seq<real>, starts: seq<nat>, k: nat)
    requires k < |starts| && starts[0] == 0 && starts[k] <= |y| && forall i :: 0 <= i < |points| ==> points[i].e.Single?
    requires forall i {:trigger starts[i + 1]} :: 0 <= i < k ==> RowsRight(y, points, x, starts[i], starts[i + 1])
    ensures forall j :: 0 <= j < starts[k] ==> y[j] == RowProduct(EntriesOf(points), x, j + 1)
  {
    hide RowProduct;
    if k > 0 {
      var i := k - 1;
      assert RowsRight(y, points, x, starts[i], starts[i + 1]);
      if i > 0 {
        var j := i - 1;
        assert RowsRight(y, points, x, starts[j], starts[j + 1]);
      }
      AllRowsRight(y, points, x, starts, k - 1);
    }
  }

  /** Every part got an element. */
  ghost predicate NoneEmpty(points: seq<Coo>, cuts: seq<nat>, nr: nat)
    requires nr <= |cuts|
  {
    forall i :: 0 <= i < nr ==> cuts[i] < |points|
  }

  /** Loads a list of elements into nr parts, encodes, prints and multiplies each.  y is
      the product of the list with x exactly when every part got an element and the ids of
      every part fit the flag byte; a part whose ids do not fit leaves its rows as they
      were, and nothing is multiplied when some part is empty. */
  method LoadAndMultiply(points: seq<Coo>, cols: nat, nr: nat, xforms: seq<nat>, deltas: Option<seq<seq<nat>>>,
                         splitBlocks: bool, full: bool, x: seq<real>, y: array<real>)
    returns (ok: bool, parts: seq<Spm>, ghost rowss: seq<Rows>, ghost starts: seq<nat>, ghost cuts: seq<nat>)
    requires nr >= 1 && Input(points, cols) && cols <= |x| && cols <= 0x1_0000_0000
    requires forall k :: 0 <= k < |points| ==> points[k].y <= y.Length
    requires deltas.Some? ==>
               && |deltas.value| == |xforms|
               && forall i :: 0 <= i < |xforms| ==>
                    && (xforms[i] == 0 || Encodable(xforms[i]))
                    && Chosen(Params(4, 254, 0.05, splitBlocks, false, false).For(xforms[i], deltas.value[i]))
                    && forall j :: 0 <= j < |deltas.value[i]| ==> deltas.value[i][j] >= 1
    modifies y
    ensures |parts| == |rowss| == nr && Divided(points, cols, rowss, starts, cuts)
    ensures |starts| == |cuts| == nr + 1 && starts[0] == 0
         && starts[nr] <= y.Length && forall k :: 0 <= k < |points| ==> points[k].y <= starts[nr]
    ensures ok <==> NoneEmpty(points, cuts, nr) && forall i {:trigger parts[i]} :: 0 <= i < nr ==> FlagsFit(parts[i].rows, 0)
    ensures NoneEmpty(points, cuts, nr) ==> forall i {:trigger parts[i]} :: 0 <= i < nr ==>
              PartDone(parts[i], rowss[i], cols, |Flat(rowss[i])|, Wish(xforms, deltas, splitBlocks), y[..], old(y[..]), points, x,
                       starts[i], starts[i + 1])
    ensures !NoneEmpty(points, cuts, nr) ==> y[..] == old(y[..])
    ensures ok ==> forall j :: 0 <= j < starts[nr] ==> y[j] == RowProduct(EntriesOf(points), x, j + 1)
    ensures forall j :: starts[nr] <= j < y.Length ==> y[j] == old(y[j])
  {
    hide Spm.Valid, Divided, Chosen, RowProduct, FlagsFit, Prepared, RowsSame, RowsRight, BuildRows, Input, PartRowsAre,
         PartDone, InRowOrder, FromRow, EntriesOf;
    InputOrder(points, cols);
    var begins;
    parts, begins, cuts := LoadMt(points, cols, nr);
    starts := begins;
    rowss := RowsOf(parts);
    LoadedIsDivided(points, cols, rowss, starts, cuts);
    LastStart(points, cols, rowss, starts, cuts, y.Length);
    var nonzeros;
    nonzeros, ok := Sizes(parts);
    PartSizes(parts, rowss, nonzeros);
    forall i | 0 <= i < nr
      ensures |rowss[i]| > 0 <==> cuts[i] < |points|
    {
      NoRows(points, cols, rowss, starts, cuts, i);
    }
    assert ok <==> NoneEmpty(points, cuts, nr);
    assert y[..] == old(y[..]);
    if ok {
      ok := MultiplyParts(parts, begins, nonzeros, xforms, deltas, splitBlocks, full, x, y, points, cols, rowss, cuts);
      if ok {
        PartsRight(parts, rowss, cols, nonzeros, Wish(xforms, deltas, splitBlocks), y[..], old(y[..]), points, x,
                   starts);
        AllRowsRight(y[..], points, x, starts, nr);
      }
    }
  }

  /** How many elements each part has, and whether all have rows. */
  method Sizes(parts: seq<Spm>) returns (nonzeros: seq<nat>, filled: bool)
    requires forall i :: 0 <= i < |parts| ==> parts[i].Valid()
    ensures |nonzeros| == |parts| && forall i :: 0 <= i < |parts| ==> nonzeros[i] == |parts[i].elems|
    ensures filled <==> forall i :: 0 <= i < |parts| ==> |parts[i].rows| > 0
  {
    hide Spm.Valid;
    nonzeros, filled := [], true;
    var i := 0;
    while i < |parts|
      invariant 0 <= i <= |parts|
      invariant |nonzeros| == i && forall k :: 0 <= k < i ==> nonzeros[k] == |parts[k].elems|
      invariant filled <==> forall k :: 0 <= k < i ==> |parts[k].rows| > 0
    {
      filled := filled && parts[i].NrRows() > 0;
      nonzeros := nonzeros + [|parts[i].elems|];
      i := i + 1;
    }
  }

  lemma PartSizes(parts: seq<Spm>, rowss: seq<Rows>, nonzeros: seq<nat>)
    requires |parts| == |rowss| == |nonzeros|
    requires forall i :: 0 <= i < |parts| ==> parts[i].Valid() && rowss[i] == parts[i].rows && nonzeros[i] == |parts[i].elems|
    ensures forall i :: 0 <= i < |parts| ==> nonzeros[i] == |Flat(rowss[i])|
  {
    hide Flat, Ptrs;
  }

  /** The rows of all parts. */
  ghost function RowsOf(parts: seq<Spm>): (r: seq<Rows>)
    reads set s | s in parts
    ensures |r| == |parts| && forall i {:trigger r[i]} :: 0 <= i < |parts| ==> r[i] == parts[i].rows
  {
    seq(|parts|, i requires 0 <= i < |parts| reads set s | s in parts => parts[i].rows)
  }

  lemma LoadedIsDivided(points: seq<Coo>, cols: nat, rowss: seq<Rows>, starts: seq<nat>, cuts: seq<nat>)
    requires Input(points, cols) && |starts| == |cuts| == |rowss| + 1 && starts[0] == cuts[0] == 0
         && cuts[|rowss|] == |points|
    requires forall i {:trigger rowss[i]} :: 0 <= i < |rowss| ==>
               PartRowsAre(rowss[i], points, cuts[i], cuts[i + 1], starts[i], starts[i + 1], |rowss| - i)
    ensures Divided(points, cols, rowss, starts, cuts)
  {
    hide PartRowsAre, Input;
  }

  /** The parts end at the last row that has an element. */
  lemma LastStart(points: seq<Coo>, cols: nat, rowss: seq<Rows>, starts: seq<nat>, cuts: seq<nat>, n: nat)
    requires Divided(points, cols, rowss, starts, cuts) && forall k :: 0 <= k < |points| ==> points[k].y <= n
    ensures starts[|rowss|] <= n && forall k :: 0 <= k < |points| ==> points[k].y <= starts[|rowss|]
    ensures forall k :: 0 <= k < |points| ==> points[k].e.Single?
  {
    hide PartRowsAre;
    PartBegins(points, cols, rowss, starts, cuts, |rowss|);
    StartsInside(points, cols, rowss, starts, cuts, |rowss|, n);
  }

  lemma {:induction false} StartsInside(points: seq<Coo>, cols: nat, rowss: seq<Rows>, starts: seq<nat>, cuts: seq<nat>,
                                        i: nat, n: nat)
    requires Divided(points, cols, rowss, starts, cuts) && i <= |rowss| && forall k :: 0 <= k < |points| ==> points[k].y <= n
    ensures starts[i] <= n
  {
    hide BuildRows, Stops, Input, InRowOrder;
    if i > 0 {
      StartsInside(points, cols, rowss, starts, cuts, i - 1, n);
      assert PartRowsAre(rowss[i - 1], points, cuts[i - 1], cuts[i], starts[i - 1], starts[i], |rowss| - (i - 1));
      PartBegins(points, cols, rowss, starts, cuts, i - 1);
      InputOrder(points, cols);
      StopsIn(points, cuts[i - 1], cuts[i], Quot(|points| - cuts[i - 1], |rowss| - (i - 1)));
      BuildLength(points[cuts[i - 1]..cuts[i]], starts[i - 1] + 1);
    }
  }

  /** A part without rows begins where the input ends. */
  lemma NoRows(points: seq<Coo>, cols: nat, rowss: seq<Rows>, starts: seq<nat>, cuts: seq<nat>, i: nat)
    requires Divided(points, cols, rowss, starts, cuts) && i < |rowss|
    ensures |rowss[i]| > 0 <==> cuts[i] < |points|
  {
    hide BuildRows, Input, InRowOrder, Stops;
    assert PartRowsAre(rowss[i], points, cuts[i], cuts[i + 1], starts[i], starts[i + 1], |rowss| - i);
    var limit := Quot(|points| - cuts[i], |rowss| - i);
    PartBegins(points, cols, rowss, starts, cuts, i);
    InputOrder(points, cols);
    StopsIn(points, cuts[i], cuts[i + 1], limit);
    EmptyPart(points, cuts[i], cuts[i + 1], limit);
    BuildLength(points[cuts[i]..cuts[i + 1]], starts[i] + 1);
  }

  lemma PartsRight(parts: seq<Spm>, rowss: seq<Rows>, cols: nat, nonzeros: seq<nat>, wish: Wish, y: seq<real>,
                   y0: seq<real>, points: seq<Coo>,
                   x: seq<real>, starts: seq<nat>)
    requires |parts| == |rowss| == |nonzeros| && |starts| == |parts| + 1
    requires forall i {:trigger parts[i]} :: 0 <= i < |parts| ==>
               PartDone(parts[i], rowss[i], cols, nonzeros[i], wish, y, y0, points, x, starts[i], starts[i + 1])
                    && FlagsFit(parts[i].rows, 0)
    ensures forall i {:trigger starts[i + 1]} :: 0 <= i < |parts| ==> RowsRight(y, points, x, starts[i], starts[i + 1])
  {
    hide RowsRight, FlagsFit, Prepared, Spm.Valid, MatrixEncoded;
    forall i {:trigger starts[i + 1]} | 0 <= i < |parts|
      ensures RowsRight(y, points, x, starts[i], starts[i + 1])
    {
      assert PartDone(parts[i], rowss[i], cols, nonzeros[i], wish, y, y0, points, x, starts[i], starts[i + 1]);
    }
  }
}

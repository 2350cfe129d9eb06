/** The whole path of one thread: encode the matrix, print it, multiply with it.

    `PrepareAndMultiply` promises the product of the matrix as it was loaded. */
module Spmv {
  import opened Orders
  import opened Matrix
  import opened Products
  import Reorder
  import opened RowCodec
  import opened RowShape
  import opened MatrixCodec
  import opened SpmMatrix
  import opened Encoding
  import opened Ctl
  import opened CsxPrinter
  import opened CsxKernel
  import opened Drle

  // ----- Every pattern the encoder makes can be printed

  ghost predicate SmallElem(e: Elem) {
    e.Pat? ==> e.p.size <= SIZE_MAX && PatternParam(e.p) < PID_OFFSET
  }

  ghost predicate SmallPatterns(ps: seq<Coo>) {
    forall c :: c in ps ==> SmallElem(c.e)
  }

  lemma NewSmall(c: Config, e: Elem)
    requires c.Good() && Chosen(c) && c.max <= SIZE_MAX && e.Pat? && GoodOut(c, e)
    ensures SmallElem(e)
  {
    if c.order.Align() != 0 {
      MulMono(1, c.order.Align(), e.p.otherDim);
      if c.splitBlocks {
        var i :| 0 <= i < |c.deltas| && c.deltas[i] == e.p.otherDim;
        assert Times(c.deltas[i], c.order.Align()) <= c.max;
      }
    }
  }

  lemma EncodedSmall(c: Config, d: Dims, rows: Rows)
    requires c.Good() && Chosen(c) && c.max <= SIZE_MAX && Valid(c.order, d, rows) && SmallPatterns(Points(rows))
    ensures SmallPatterns(Points(EncodedRows(c, rows)))
  {
    hide Points, EncodedRows, EncodedRow, Valid, RowValid, GoodElem, SmallElem, GoodOut, Chosen, Opened;
    forall q | q in Points(EncodedRows(c, rows))
      ensures SmallElem(q.e)
    {
      EncodedElem(c, d, rows, q);
      if q.e in rows[q.y - 1] {
        PointsMember(rows, q);
      } else {
        NewSmall(c, q.e);
      }
    }
  }

  lemma TransformSmall(from: Order, to: Order, d: Dims, rows: Rows)
    requires Reorder.Good(from, d, rows) && SmallPatterns(Points(rows))
    ensures SmallPatterns(Points(Reorder.Transformed(from, to, d, rows)))
  {
    hide Points, Reorder.Transformed, Reorder.Good, Reorder.MovePoint, GoodElem;
    if from == to {
      Reorder.SameOrder(from, d, rows);
    } else {
      forall c | c in Points(Reorder.Transformed(from, to, d, rows))
        ensures SmallElem(c.e)
      {
        var p := TransformMember(from, to, d, rows, c);
        SamePattern(from, to, d, p);
      }
    }
  }

  lemma EncodeSmall(c: Config, o: Order, d: Dims, rows: Rows)
    requires c.Good() && Chosen(c) && c.max <= SIZE_MAX && Valid(o, d, rows) && SmallPatterns(Points(rows))
    ensures SmallPatterns(Points(Encode(c, o, d, rows)))
  {
    hide Points, Reorder.Transformed, SmallPatterns, EncodedRows, Chosen, Valid, Reorder.Good;
    var there := Reorder.Transformed(o, c.order, d, rows);
    GoodWhenValid(o, d, rows);
    TransformSmall(o, c.order, d, rows);
    TransformValid(o, c.order, d, rows);
    EncodedSmall(c, d, there);
    EncodedRowsValid(c, d, there);
    GoodWhenValid(c.order, d, EncodedRows(c, there));
    TransformSmall(c.order, o, d, EncodedRows(c, there));
  }

  ghost predicate AllChosen(cs: seq<Config>) {
    forall i :: 0 <= i < |cs| ==> cs[i].Good() && Chosen(cs[i]) && cs[i].max <= SIZE_MAX
  }

  lemma {:induction false} EncodeManySmall(cs: seq<Config>, o: Order, d: Dims, rows: Rows)
    requires AllChosen(cs) && Valid(o, d, rows) && SmallPatterns(Points(rows))
    ensures SmallPatterns(Points(EncodeMany(cs, o, d, rows)))
  {
    hide Points, SmallPatterns, Chosen, Valid, Encode;
    if cs != [] {
      var n := |cs| - 1;
      EncodeManySmall(cs[..n], o, d, rows);
      EncodeManyKeepsMeaning(cs[..n], o, d, rows);
      EncodeSmall(cs[n], o, d, EncodeMany(cs[..n], o, d, rows));
    }
  }

  lemma RowPrintable(full: bool, d: Dims, rows: Rows, i: nat)
    requires Valid(Horizontal, d, rows) && SmallPatterns(Points(rows)) && d.cols <= 0x1_0000_0000 && i < |rows|
    ensures PrintableRow(full, rows[i])
  {
    hide Points, Valid, RowTight, WellSized;
    var row := rows[i];
    RowsValid(Horizontal, d, rows, i + 1);
    forall e | e in row
      ensures 1 <= e.x <= d.cols && SmallElem(e)
    {
      PointsMember(rows, Coo(i + 1, e));
      assert GoodElem(Horizontal, d, Coo(i + 1, e));
    }
    forall j | 0 < j < |row|
      ensures row[j].x - row[j - 1].x < 0x1_0000_0000
    {
      assert row[j] in row && row[j - 1] in row;
    }
  }

  // ----- The cells are in the matrix, and there are some

  lemma {:induction false} PointCellsInBounds(o: Order, d: Dims, ps: seq<Coo>)
    requires GoodPoints(o, d, ps)
    ensures forall e :: e in PointCells(o, d, ps) ==> InBounds(d, e.at)
  {
    hide GoodElem, ElemCells;
    if ps != [] {
      var n := |ps| - 1;
      PointCellsInBounds(o, d, ps[..n]);
      forall e | e in ElemCells(o, d, ps[n])
        ensures InBounds(d, e.at)
      {
        CellInBounds(o, d, ps[n], e);
      }
    }
  }

  lemma SomeUnit(csx: Csx, us: seq<Unit>, d: Dims, rows: Rows, side: nat)
    requires Represents(csx, us, d, rows, side) && Cells(Horizontal, d, rows) != []
    ensures us != []
  {
    hide Cells;
  }

  /** Two matrices with the same cells have the same products. */
  lemma SameProducts(a: seq<Entry>, b: seq<Entry>, x: seq<real>)
    requires multiset(a) == multiset(b)
    ensures forall i :: RowProduct(a, x, i) == RowProduct(b, x, i)
  {
    hide Sum, RowTerm;
    forall i
      ensures RowProduct(a, x, i) == RowProduct(b, x, i)
    {
      SumPerm(a, b, RowTerm(i, x));
    }
  }

  lemma SameSize<T>(a: seq<T>, b: seq<T>)
    requires multiset(a) == multiset(b)
    ensures |a| == |b|
  {
    assert |multiset(a)| == |a| && |multiset(b)| == |b|;
  }

  // ----- One thread

  /** What the encoder leaves behind: a valid matrix that can be printed, with the
      cells of the matrix it started from. */
  ghost predicate Prepared(d: Dims, rows0: Rows, rows: Rows) {
    && Valid(Horizontal, d, rows)
    && SmallPatterns(Points(rows))
    && multiset(Cells(Horizontal, d, rows)) == multiset(Cells(Horizontal, d, rows0))
  }

  lemma RunPrepared(cs: seq<Config>, d: Dims, rows0: Rows)
    requires AllChosen(cs) && Valid(Horizontal, d, rows0) && SmallPatterns(Points(rows0))
    ensures Prepared(d, rows0, EncodeMany(cs, Horizontal, d, rows0))
  {
    hide Valid, SmallPatterns, Cells, EncodeMany, Chosen;
    EncodeManyKeepsMeaning(cs, Horizontal, d, rows0);
    EncodeManySmall(cs, Horizontal, d, rows0);
  }

  /** The types that are not to be considered. */
  function Unlisted(p: Params, xforms: seq<nat>): set<nat> {
    set t | t in ALL_TYPES && (p.AlwaysIgnored(t) || t !in xforms)
  }

  /** The encodings cs, one after the other, made `rows` of `rows0`: with given deltas they
      are the listed types in order, each with the deltas listed for it so far; without,
      they are the greedy run over the listed types. */
  ghost predicate EncodedAs(p: Params, nonzeros: nat, d: Dims, xforms: seq<nat>, deltas: Option<seq<seq<nat>>>,
                            cs: seq<Config>,
                            rows0: Rows, rows: Rows)
    requires p.max >= 1
  {
    && GoodConfigs(cs) && rows == EncodeMany(cs, Horizontal, d, rows0)
    && (deltas.Some? ==> |deltas.value| == |xforms| && Serial(p, map[], cs, xforms, deltas.value, 0))
    && (deltas.None? ==> GreedyDone(p, nonzeros, d, rows0, Unlisted(p, xforms), cs))
  }

  /** What the encoder makes of a matrix. */
  ghost predicate MatrixEncoded(p: Params, nonzeros: nat, d: Dims, xforms: seq<nat>, deltas: Option<seq<seq<nat>>>,
                                rows0: Rows, rows: Rows)
    requires p.max >= 1
  {
    exists cs :: EncodedAs(p, nonzeros, d, xforms, deltas, cs, rows0, rows)
  }

  /** There is only one result. */
  lemma OneEncoding(p: Params, nonzeros: nat, d: Dims, xforms: seq<nat>, deltas: Option<seq<seq<nat>>>, rows0: Rows,
                    a: Rows, b: Rows)
    requires p.max >= 1 && MatrixEncoded(p, nonzeros, d, xforms, deltas, rows0, a)
    requires MatrixEncoded(p, nonzeros, d, xforms, deltas, rows0, b)
    ensures a == b
  {
    hide Serial, GreedyDone, EncodeMany, Unlisted;
    var cs :| EncodedAs(p, nonzeros, d, xforms, deltas, cs, rows0, a);
    var ds :| EncodedAs(p, nonzeros, d, xforms, deltas, ds, rows0, b);
    if deltas.Some? {
      OneSerial(p, map[], cs, ds, xforms, deltas.value, 0);
    } else {
      OneGreedyRun(p, nonzeros, d, rows0, Unlisted(p, xforms), cs, ds);
    }
  }

  /** Encodes the matrix: to the given types with the given deltas, or to the types
      that gain most among those given. */
  method EncodeMatrix(spm: Spm, p: Params, nonzeros: nat, xforms: seq<nat>, deltas: Option<seq<seq<nat>>>)
    returns (ghost cs: seq<Config>)
    requires spm.Valid() && Valid(Horizontal, spm.dims, spm.rows) && SmallPatterns(Points(spm.rows))
         && spm.order == Horizontal
    requires p.min >= 1 && 8 <= p.max <= SIZE_MAX
    requires deltas.Some? ==>
               && |deltas.value| == |xforms|
               && forall i :: 0 <= i < |xforms| ==>
                    && (xforms[i] == 0 || Encodable(xforms[i])) && Chosen(p.For(xforms[i], deltas.value[i]))
                    && forall j :: 0 <= j < |deltas.value[i]| ==> deltas.value[i][j] >= 1
    modifies spm
    ensures spm.Valid() && spm.order == Horizontal && Prepared(spm.dims, old(spm.rows), spm.rows)
    ensures EncodedAs(p, nonzeros, spm.dims, xforms, deltas, cs, old(spm.rows), spm.rows)
  {
    hide Valid, Spm.Valid, EncodeMany, Chosen, SmallPatterns, Prepared, Serial, GreedyDone, Greedy, Unlisted,
         Params.AlwaysIgnored;
    var mg := new DrleManager(spm, p, nonzeros);
    assert mg.DeltasFit() by { NoDeltas(mg); }
    mg.IgnoreAll();
    NoneRemoved(p);
    var i := 0;
    while i < |xforms|
      invariant 0 <= i <= |xforms| && mg.Valid() && fresh(mg) && mg.spm == spm && mg.params == p
      invariant spm.rows == old(spm.rows) && spm.order == Horizontal && mg.DeltasFit() && mg.stats == map[]
           && mg.deltas == map[]
      invariant mg.nonzeros == nonzeros && mg.ignore == Unlisted(p, xforms[..i])
    {
      OneRemoved(p, xforms, i);
      mg.RemoveIgnore(xforms[i]);
      i := i + 1;
    }
    assert xforms[..i] == xforms;
    if deltas.Some? {
      cs := mg.EncodeSerial(xforms, deltas.value);
      NoStatsNoBest(mg);
    } else {
      cs := mg.EncodeAll();
    }
    RunPrepared(cs, spm.dims, old(spm.rows));
  }

  lemma NoneRemoved(p: Params)
    ensures Unlisted(p, []) == ALL_TYPES
  {
    hide Params.AlwaysIgnored;
  }

  lemma OneRemoved(p: Params, xforms: seq<nat>, i: nat)
    requires i < |xforms|
    ensures Unlisted(p, xforms[..i + 1])
         == if p.AlwaysIgnored(xforms[i]) then Unlisted(p, xforms[..i]) else Unlisted(p, xforms[..i]) - {xforms[i]}
  {
    hide Params.AlwaysIgnored;
    assert xforms[..i + 1] == xforms[..i] + [xforms[i]];
  }

  lemma NoStatsNoBest(mg: DrleManager)
    requires mg.stats == map[]
    ensures forall b :: mg.IsBest(b) ==> b == 0
  {
  }

  lemma NoDeltas(mg: DrleManager)
    requires mg.deltas == map[]
    ensures mg.DeltasFit()
  {
  }

  /** Prints the encoded matrix. */
  method PrintMatrix(spm: Spm, rowStart: nat, full: bool, ghost rows0: Rows) returns (csx: Option<Csx>,
        ghost us: seq<Unit>)
    requires spm.Valid() && spm.order == Horizontal && Prepared(spm.dims, rows0, spm.rows)
         && spm.dims.cols <= 0x1_0000_0000
    ensures csx.Some? ==> Represents(csx.value, us, spm.dims, spm.rows, 0) && csx.value.rowStart == rowStart
    ensures csx.Some? <==> FlagsFit(spm.rows, 0)
  {
    hide Spm.Valid, Valid, SmallPatterns, PrintableRow, FlagsFit, Represents, Cells, RowsWell;
    forall i | 0 <= i < |spm.rows|
      ensures PrintableRow(full, spm.rows[i])
    {
      RowPrintable(full, spm.dims, spm.rows, i);
    }
    ValidRowsWell(spm.dims, spm.rows);
    var mg := new CsxManager(full, 0);
    csx, us := mg.MakeCsx(spm, rowStart, false);
  }

  /** The kinds of patterns of a matrix. */
  function PatternIds(rows: Rows): set<int> {
    set i, e | 0 <= i < |rows| && e in rows[i] && e.Pat? :: PatternId(e.p)
  }

  /** With at most 61 kinds of patterns the ids always fit: there are three widths. */
  lemma FewPatternsFit(rows: Rows, side: nat)
    requires forall i, e :: 0 <= i < |rows| && e in rows[i] ==> 1 <= e.x <= 0x1_0000_0000
    requires |PatternIds(rows)| <= 61
    ensures FlagsFit(rows, side)
  {
    hide MatrixIds;
    IdsWithin(rows, side);
    IdCount(MatrixIds(rows, side), PatternIds(rows));
  }

  lemma {:induction false} IdsWithin(rows: Rows, side: nat)
    requires forall i, e :: 0 <= i < |rows| && e in rows[i] ==> 1 <= e.x <= 0x1_0000_0000
    ensures MatrixIds(rows, side) <= {8, 16, 32} + PatternIds(rows)
  {
    hide SpanIds;
    if rows != [] {
      var n := |rows| - 1;
      var row := rows[n];
      IdsWithin(rows[..n], side);
      SpanIdsWithin(row[..LeftOf(row, side)], []);
      SpanIdsWithin(row[LeftOf(row, side)..], []);
      assert forall e :: e in row && e.Pat? ==> PatternId(e.p) in PatternIds(rows);
    }
  }

  lemma {:induction false} SpanIdsWithin(es: seq<Elem>, xs: seq<int>)
    requires forall e :: e in es ==> 1 <= e.x <= 0x1_0000_0000
    requires forall k :: 0 <= k < |xs| ==> 1 <= xs[k] <= 0x1_0000_0000
    ensures SpanIds(es, xs) <= {8, 16, 32} + set e | e in es && e.Pat? :: PatternId(e.p)
    decreases |es|
  {
    hide StretchId, SpanIds, SpanHeads, IdsOf;
    StretchIdIs(xs);
    SpanIdsStep(es, xs);
    if es != [] {
      SpanIdsWithin(es[1..], if es[0].Pat? then [] else if |xs| == SIZE_MAX then [es[0].x] else xs + [es[0].x]);
    }
  }

  lemma {:induction false} StretchIdIs(xs: seq<int>)
    requires forall k :: 0 <= k < |xs| ==> 1 <= xs[k] <= 0x1_0000_0000
    ensures WidestStep(xs) < 0x1_0000_0000 && StretchId(xs) in {8, 16, 32}
  {
    if |xs| > 1 {
      StretchIdIs(xs[..|xs| - 1]);
    }
  }

  /** Three ids are the delta units'; the others are patterns'. */
  lemma IdCount(keys: set<int>, ids: set<int>)
    requires keys <= {8, 16, 32} + ids
    ensures |keys| <= 3 + |ids|
  {
    SubsetSize(keys, {8, 16, 32} + ids);
    assert {8, 16, 32} + ids == {8, 16, 32} + (ids - {8, 16, 32});
    SubsetSize(ids - {8, 16, 32}, ids);
  }

  /** Encodes, prints and multiplies: y holds the product of the matrix as it was
      loaded on the rows of this part, and is unchanged elsewhere.  That is so exactly
      when the ids of the encoded matrix fit the flag byte. */
  method PrepareAndMultiply(spm: Spm, nonzeros: nat, rowStart: nat, xforms: seq<nat>, deltas: Option<seq<seq<nat>>>,
                            splitBlocks: bool,
                            full: bool, x: seq<real>, y: array<real>)
    returns (ok: bool)
    requires spm.Valid() && Valid(Horizontal, spm.dims, spm.rows) && SmallPatterns(Points(spm.rows))
         && spm.order == Horizontal
    requires Cells(Horizontal, spm.dims, spm.rows) != [] && spm.dims.cols <= 0x1_0000_0000
    requires rowStart + spm.dims.rows <= y.Length && spm.dims.cols <= |x|
    requires deltas.Some? ==>
               && |deltas.value| == |xforms|
               && forall i :: 0 <= i < |xforms| ==>
                    && (xforms[i] == 0 || Encodable(xforms[i]))
                    && Chosen(Params(4, 254, 0.05, splitBlocks, false, false).For(xforms[i], deltas.value[i]))
                    && forall j :: 0 <= j < |deltas.value[i]| ==> deltas.value[i][j] >= 1
    modifies spm, y
    ensures ok ==> forall j :: rowStart <= j < rowStart + spm.dims.rows ==>
              y[j] == RowProduct(Cells(Horizontal, spm.dims, old(spm.rows)), x, j - rowStart + 1)
    ensures forall j :: 0 <= j < y.Length && !(ok && rowStart <= j < rowStart + spm.dims.rows) ==> y[j] == old(y[j])
    ensures ok <==> FlagsFit(spm.rows, 0)
    ensures spm.Valid() && spm.order == Horizontal && Prepared(spm.dims, old(spm.rows), spm.rows)
    ensures MatrixEncoded(Params(4, 254, 0.05, splitBlocks, false, false),
                          nonzeros, spm.dims, xforms, deltas, old(spm.rows), spm.rows)
  {
    hide Spm.Valid, Valid, SmallPatterns, Cells, Represents, Chosen, RowProduct, Prepared, FlagsFit, EncodedAs;
    ghost var rows0, d := spm.rows, spm.dims;
    ghost var cs := EncodeMatrix(spm, Params(4, 254, 0.05, splitBlocks, false, false), nonzeros, xforms, deltas);
    PreparedParts(d, rows0, spm.rows);
    ghost var us;
    var csx;
    csx, us := PrintMatrix(spm, rowStart, full, rows0);
    ok := csx.Some?;
    if ok {
      RowCount(csx.value, us, d, spm.rows);
      SomeUnit(csx.value, us, d, spm.rows, 0);
      var pos, v := Multiply(csx.value, x, y, us, d, spm.rows, 0);
      SameProducts(Cells(Horizontal, d, spm.rows), Cells(Horizontal, d, rows0), x);
    }
  }

  lemma RowCount(csx: Csx, us: seq<Unit>, d: Dims, rows: Rows)
    requires Represents(csx, us, d, rows, 0)
    ensures csx.nrows == d.rows
  {
  }

  lemma PreparedParts(d: Dims, rows0: Rows, rows: Rows)
    requires Prepared(d, rows0, rows) && Cells(Horizontal, d, rows0) != []
    ensures multiset(Cells(Horizontal, d, rows)) == multiset(Cells(Horizontal, d, rows0))
    ensures Cells(Horizontal, d, rows) != []
    ensures forall e :: e in Cells(Horizontal, d, rows) ==> InBounds(d, e.at)
  {
    hide SmallPatterns, GoodPoints, Tight, PointCells, Points;
    SameSize(Cells(Horizontal, d, rows), Cells(Horizontal, d, rows0));
    PointCellsInBounds(Horizontal, d, Points(rows));
  }
}

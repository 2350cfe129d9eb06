/** A type with a gain is worth encoding: every encoding that the manager picks leaves
    strictly fewer elements to store.

    `PickPays` leads from the statistics of a type to a pattern that its encoding makes;
    `GreedyShrinks` is the whole run. */
module Shrinking {
  import opened Orders
  import opened Matrix
  import opened Products
  import opened Seqs
  import Reorder
  import opened RowCodec
  import opened RowShape
  import opened MatrixCodec
  import opened SpmMatrix
  import opened Encoding
  import opened DrleStats
  import opened BlockColumns
  import opened RowFull
  import opened BlockFull
  import opened EncodedFull
  import opened StatsCount
  import opened RowStatistics
  import opened Drle

  /** A pattern of two elements or more. */
  ghost predicate Big(c: Config, e: Elem) {
    e.Pat? && e.p.order == c.order && |e.vals| >= 2
  }

  ghost predicate HasPattern(c: Config, out: seq<Elem>) {
    exists e: Elem :: e in out && Big(c, e)
  }

  // ----- A recorded run makes a pattern

  lemma {:induction false} PatternStays(c: Config, xs: seq<int>, vs: seq<real>, rles: seq<Rle>, k: nat, m: nat, e: Elem)
    requires c.Good() && k <= m <= |rles| && e in LinearRuns(c, xs, vs, rles, k).out && e.Pat?
    ensures e in LinearRuns(c, xs, vs, rles, m).out
    decreases m
  {
    hide LinearStep;
    if k < m {
      PatternStays(c, xs, vs, rles, k, m - 1, e);
      StepKeeps(c, xs, vs, LinearRuns(c, xs, vs, rles, m - 1), rles[m - 1], e);
    }
  }

  lemma StepKeeps(c: Config, xs: seq<int>, vs: seq<real>, s: State, r: Rle, e: Elem)
    requires c.Good() && e in s.out && e.Pat?
    ensures e in LinearStep(c, xs, vs, s, r).out
  {
    hide EncodeRun, Singles, Segment, SegStart;
    if Absorbed(c, s) == 1 {
      assert s.out == s.out[..|s.out| - 1] + [s.out[|s.out| - 1]];
    }
  }

  /** Where there is a pattern there is one of two elements or more: the first one of its
      run. */
  lemma {:induction false} BigToo(c: Config, xs: seq<int>, vs: seq<real>, rles: seq<Rle>, k: nat,
                                  e0: Elem) returns (e: Elem)
    requires c.Good() && c.max >= 2 && Increasing(xs) && |xs| == |vs| && Tiles(rles, Deltas(xs)) && k <= |rles|
    requires e0 in LinearRuns(c, xs, vs, rles, k).out && e0.Pat?
    ensures e in LinearRuns(c, xs, vs, rles, k).out && Big(c, e)
  {
    hide Tiles, Deltas, LinearStep, Increasing, StateOk, RunAt, Big;
    var s, r := LinearRuns(c, xs, vs, rles, k - 1), rles[k - 1];
    LinearRunsOk(c, xs, vs, rles, k - 1);
    TilesAt(rles, Deltas(xs), k - 1);
    if e0 in s.out {
      e := BigToo(c, xs, vs, rles, k - 1, e0);
      BigIsPattern(c, e);
      StepKeeps(c, xs, vs, s, r, e);
    } else {
      NewPattern(c, xs, vs, s, r, e0);
      e := StepMakes(c, xs, vs, s, r);
    }
  }

  lemma BigIsPattern(c: Config, e: Elem)
    requires Big(c, e)
    ensures e.Pat?
  {
  }

  /** A step makes a pattern only of a run that is encoded and long enough. */
  lemma NewPattern(c: Config, xs: seq<int>, vs: seq<real>, s: State, r: Rle, e: Elem)
    requires c.Good() && StateOk(c.order, s, xs, vs) && Increasing(xs) && RunAt(Deltas(xs), s.vi, r)
    requires e in LinearStep(c, xs, vs, s, r).out && e.Pat? && e !in s.out
    ensures Taken(c, r) && r.freq >= 2 && r.freq + Absorbed(c, s) >= c.min
  {
    hide Deltas, Expand, Zip, Singles;
    BackFits(c.order, xs, vs, s, r);
    var back := Absorbed(c, s);
    SegmentPairs(xs, vs, s, r, back);
    SegmentPairs(xs, vs, s, r, 0);
    SinglesOnly(SegStart(xs, s, r, 0), r.val, Segment(vs, s, r, 0));
    if Taken(c, r) {
      SinglesOnly(SegStart(xs, s, r, back), r.val, Segment(vs, s, r, back));
    }
  }

  /** The run that is recorded, or one before it, makes a pattern. */
  lemma RunMakes(c: Config, xs: seq<int>, vs: seq<real>, rles: seq<Rle>, k: nat) returns (e: Elem)
    requires c.Good() && c.max >= 2 && Increasing(xs) && |xs| == |vs| && Tiles(rles, Deltas(xs)) && k < |rles|
    requires Recorded(c, rles, k) && rles[k].val >= 0 && rles[k].val in c.deltas
    ensures e in LinearRuns(c, xs, vs, rles, |rles|).out && Big(c, e)
  {
    hide Tiles, Deltas, LinearStep, Increasing, StateOk, RunAt, TakesBefore, Big;
    var s, r := LinearRuns(c, xs, vs, rles, k), rles[k];
    LinearRunsOk(c, xs, vs, rles, k);
    TilesAt(rles, Deltas(xs), k);
    if k > 0 {
      SomeBefore(xs, rles, k);
      SomeOutput(c.order, s, xs, vs);
    }
    OneOrNone(c, rles, k);
    if Absorbed(c, s) == 0 && TakesBefore(c, rles, k) {
      e := BigToo(c, xs, vs, rles, k, s.out[|s.out| - 1]);
      BigIsPattern(c, e);
      PatternStays(c, xs, vs, rles, k, |rles|, e);
    } else {
      e := StepMakes(c, xs, vs, s, r);
      BigIsPattern(c, e);
      PatternStays(c, xs, vs, rles, k + 1, |rles|, e);
    }
  }

  lemma OneOrNone(c: Config, rles: seq<Rle>, k: nat)
    requires k < |rles|
    ensures TakesBefore(c, rles, k) ==> !c.numa && k > 0 && Elements(c, rles, k) == rles[k].freq + 1
    ensures !TakesBefore(c, rles, k) ==> Elements(c, rles, k) == rles[k].freq
  {
  }

  lemma SomeBefore(xs: seq<int>, rles: seq<Rle>, k: nat)
    requires Tiles(rles, Deltas(xs)) && 0 < k < |rles|
    ensures Offset(rles, k) > 0
  {
    hide Tiles, Deltas;
    TilesAt(rles, Deltas(xs), k - 1);
  }

  /** A run that is long enough with the element it takes back begins with a pattern. */
  lemma StepMakes(c: Config, xs: seq<int>, vs: seq<real>, s: State, r: Rle) returns (e: Elem)
    requires c.Good() && StateOk(c.order, s, xs, vs) && Increasing(xs) && RunAt(Deltas(xs), s.vi, r)
    requires Taken(c, r) && r.freq >= 2 && r.freq + Absorbed(c, s) >= c.min && c.max >= 2
    ensures e in LinearStep(c, xs, vs, s, r).out && Big(c, e)
  {
    hide Deltas, EncodeRun, Expand, Zip, Singles;
    BackFits(c.order, xs, vs, s, r);
    var back := Absorbed(c, s);
    SegmentPairs(xs, vs, s, r, back);
    e := FirstPattern(c, SegStart(xs, s, r, back), r.val, Segment(vs, s, r, back));
  }

  lemma SomeOutput(o: Order, s: State, xs: seq<int>, vs: seq<real>)
    requires StateOk(o, s, xs, vs) && s.vi > 0
    ensures s.out != []
  {
  }

  lemma FirstPattern(c: Config, start: int, step: nat, vs: seq<real>) returns (e: Elem)
    requires c.Good() && |vs| >= c.min && |vs| >= 2 && c.max >= 2
    ensures e in EncodeRun(c, start, step, vs) && Big(c, e)
  {
    e := EncodeRun(c, start, step, vs)[0];
  }

  lemma {:induction false} SomeRecorded(c: Config, rles: seq<Rle>, m: nat, d: nat) returns (k: nat)
    requires m <= |rles| && c.max >= 1 && RunsCount(c, rles, m, d).np >= 1
    ensures k < m && rles[k].val == d && Recorded(c, rles, k)
  {
    hide Recorded, Elements, PatternsFor;
    if rles[m - 1].val == d && Recorded(c, rles, m - 1) {
      k := m - 1;
    } else {
      k := SomeRecorded(c, rles, m - 1, d);
    }
  }

  /** The settings without deltas record the same runs. */
  lemma {:induction false} SameRecorded(c: Config, b: Config, rles: seq<Rle>, k: nat)
    requires k < |rles| && c.min == b.min && c.numa == b.numa
    ensures Recorded(c, rles, k) <==> Recorded(b, rles, k)
    ensures Elements(c, rles, k) == Elements(b, rles, k)
  {
    if k > 0 {
      SameRecorded(c, b, rles, k - 1);
    }
    assert TakesBefore(c, rles, k) <==> TakesBefore(b, rles, k);
    assert Elements(c, rles, k) == Elements(b, rles, k);
  }

  // ----- A stretch that is counted gets a pattern

  lemma LinearMakes(c: Config, b: Config, xs: seq<int>, vs: seq<real>, d: nat) returns (e: Elem)
    requires c.Good() && c.max >= 2 && Increasing(xs) && |xs| == |vs| && xs != [] && c.order.Align() == 0
    requires b.order == c.order && b.min == c.min && b.numa == c.numa && b.max >= 1 && d in c.deltas
    requires StretchCount(b, xs, d).np >= 1
    ensures e in Encoded(c, xs, vs) && Big(c, e)
  {
    hide Tiles, Deltas, RunLengths, Increasing, Recorded, LinearRuns, RunsCount, Big;
    var rles := RunLengths(Deltas(xs));
    RunsTile(Deltas(xs));
    var k := SomeRecorded(b, rles, |rles|, d);
    SameRecorded(c, b, rles, k);
    e := RunMakes(c, xs, vs, rles, k);
  }

  lemma BlockMakes(c: Config, b: Config, xs: seq<int>, vs: seq<real>, w: nat) returns (e: Elem)
    requires c.Good() && Increasing(xs) && |xs| == |vs| && xs != [] && c.order.Align() != 0
    requires b.order == c.order && b.max >= 1 && StretchCount(b, xs, w).np >= 1
    requires if c.splitBlocks then exists d :: d in c.deltas && d <= w else w in c.deltas
    ensures e in Encoded(c, xs, vs) && e.Pat?
  {
    hide Encoded, Increasing, MaxBlocks, IsBlock;
    assert BlockPlaces(c.order.Align(), xs, w) != {} && w >= 2;
    var x :| x in BlockPlaces(c.order.Align(), xs, w);
    if c.splitBlocks {
      var d :| d in c.deltas && d <= w;
      e := SplitMade(c, xs, vs, x, w, 0, d);
    } else {
      OneWidth(c, w);
      e := EqualMade(c, xs, vs, x, w, 0);
      BlockIsPattern(c, e, x + Times(Scale(0, Width(c, w)), c.order.Align()), Width(c, w));
    }
  }

  lemma OneWidth(c: Config, w: nat)
    requires c.order.Align() != 0
    ensures Scale(1, Width(c, w)) <= w
  {
  }

  lemma BlockIsPattern(c: Config, e: Elem, x: int, width: nat)
    requires IsBlock(c, e, x, width)
    ensures e.Pat?
  {
  }

  /** Blocks of two elements or more: of two rows at least, or of two columns. */
  ghost predicate BigBlocks(c: Config) {
    c.order.Align() == 1 ==> c.max >= 2 && forall d :: d in c.deltas ==> d >= 2
  }

  lemma BlockIsBig(c: Config, xs: seq<int>, vs: seq<real>, e: Elem)
    requires c.Good() && c.order.Align() != 0 && BigBlocks(c) && Increasing(xs) && |xs| == |vs| && xs != []
    requires e in Encoded(c, xs, vs) && e.Pat?
    ensures Big(c, e)
  {
    hide Encoded, Increasing;
    var out := Encoded(c, xs, vs);
    EncodedGood(c, xs, vs);
    var j :| 0 <= j < |out| && out[j] == e;
    assert GoodOut(c, out[j]);
    if !c.splitBlocks {
      var x, w, b := EqualOnly(c, xs, vs, e);
      WideEnough(c, w);
    }
    BlockAtLeast(c.order.Align(), e.p.otherDim);
  }

  lemma BlockAtLeast(a: nat, dim: nat)
    requires a >= 1 && dim >= 1 && (a == 1 ==> dim >= 2)
    ensures a * dim >= 2
  {
    if a >= 2 {
      MulMono(1, dim, a);
    }
  }

  lemma WideEnough(c: Config, w: nat)
    requires c.Good() && c.order.Align() != 0 && !c.splitBlocks && w >= 2 && (c.order.Align() == 1 ==> c.max >= 2)
    ensures Width(c, w) >= 1 && (c.order.Align() == 1 ==> Width(c, w) >= 2)
  {
    WidthPositive(c, w);
    if c.order.Align() == 1 {
      assert Quot(c.max, 1) == c.max;
    }
  }

  // ----- Fewer elements

  /** Every element opens to at least one, and a pattern to more. */
  lemma {:induction false} ExpandSize(c: Config, es: seq<Elem>)
    requires AllGood(c, es)
    ensures |Expand(c.order, es)| >= |es| && (HasPattern(c, es) ==> |Expand(c.order, es)| > |es|)
  {
    if es != [] {
      var n := |es| - 1;
      ExpandSize(c, es[..n]);
      assert GoodOut(c, es[n]);
      assert es == es[..n] + [es[n]];
    }
  }

  lemma StretchSize(c: Config, pending: seq<Elem>)
    requires c.Good() && AllSingle(pending) && RowSorted(pending) && PositiveXs(pending)
    ensures |EncodedStretch(c, pending)| <= |pending|
    ensures HasPattern(c, EncodedStretch(c, pending)) ==> |EncodedStretch(c, pending)| < |pending|
  {
    hide EncodedStretch, HasPattern, Expand, AllGood;
    StretchExpand(c, pending);
    ExpandSize(c, EncodedStretch(c, pending));
  }

  lemma {:induction false} ScanSize(c: Config, row: seq<Elem>)
    requires c.Good() && RowSorted(row) && PositiveXs(row)
    ensures |Scan(c, row).out| + |Scan(c, row).pending| <= |row|
  {
    hide EncodedStretch, RowSorted, PositiveXs;
    if row != [] {
      var n := |row| - 1;
      SortedPart(row, n);
      ScanSize(c, row[..n]);
      ScanPending(c, row[..n]);
      StretchSize(c, Scan(c, row[..n]).pending);
    }
  }

  /** The stretch l..r gets a pattern. */
  ghost predicate Gets(c: Config, row: seq<Elem>, l: nat, r: nat)
    requires c.Good()
  {
    StretchOf(row, l, r) && HasPattern(c, EncodedStretch(c, row[l..r]))
  }

  lemma {:induction false} ScanShrinks(c: Config, row: seq<Elem>, l: nat, r: nat, j: nat)
    requires c.Good() && RowSorted(row) && PositiveXs(row) && Gets(c, row, l, r) && r < j <= |row|
    ensures |Scan(c, row[..j]).out| + |Scan(c, row[..j]).pending| < j
  {
    hide EncodedStretch, HasPattern, RowSorted, PositiveXs, Scan;
    SortedPart(row, j - 1);
    assert row[..j][..j - 1] == row[..j - 1];
    ScanPending(c, row[..j - 1]);
    StretchSize(c, Scan(c, row[..j - 1]).pending);
    ScanStep(c, row[..j]);
    if j == r + 1 {
      assert row[..r][l..] == row[l..r];
      PendingIs(c, row[..r], l);
      ScanSize(c, row[..r]);
    } else {
      ScanShrinks(c, row, l, r, j - 1);
    }
  }

  lemma ScanStep(c: Config, row: seq<Elem>)
    requires c.Good() && row != []
    ensures var a, b, e := Scan(c, row[..|row| - 1]), Scan(c, row), row[|row| - 1];
            && (e.Single? ==> |b.out| == |a.out| && |b.pending| == |a.pending| + 1)
            && (e.Pat? ==> |b.out| == |a.out| + |EncodedStretch(c, a.pending)| + 1 && b.pending == [])
  {
    hide EncodedStretch;
  }

  /** No row grows, and one with a stretch that gets a pattern becomes shorter. */
  lemma RowSize(c: Config, row: seq<Elem>)
    requires c.Good() && RowSorted(row) && PositiveXs(row)
    ensures |EncodedRow(c, row)| <= |row|
    ensures forall l: nat, r: nat :: Gets(c, row, l, r) ==> |EncodedRow(c, row)| < |row|
  {
    hide EncodedStretch, HasPattern, RowSorted, PositiveXs, Scan;
    ScanSize(c, row);
    ScanPending(c, row);
    StretchSize(c, Scan(c, row).pending);
    forall l: nat, r: nat | Gets(c, row, l, r)
      ensures |EncodedRow(c, row)| < |row|
    {
      Whole(row);
      if r < |row| {
        ScanShrinks(c, row, l, r, |row|);
      } else {
        assert row[l..] == row[l..r];
        PendingIs(c, row, l);
      }
    }
  }

  lemma {:induction false} RowsSize(c: Config, rows: Rows, i: nat)
    requires c.Good() && forall k :: 0 <= k < |rows| ==> RowSorted(rows[k]) && PositiveXs(rows[k])
    ensures |Flat(EncodedRows(c, rows))| <= |Flat(rows)|
    ensures i < |rows| && |EncodedRow(c, rows[i])| < |rows[i]| ==> |Flat(EncodedRows(c, rows))| < |Flat(rows)|
  {
    hide EncodedRow, RowSorted, PositiveXs;
    if rows != [] {
      var n := |rows| - 1;
      RowsSize(c, rows[..n], i);
      RowSize(c, rows[n]);
      assert EncodedRows(c, rows)[..n] == EncodedRows(c, rows[..n]);
    }
  }

  /** Another order holds the same number of elements. */
  lemma TransformSize(from: Order, to: Order, d: Dims, rows: Rows)
    requires Reorder.Good(from, d, rows)
    ensures |Flat(Reorder.Transformed(from, to, d, rows))| == |Flat(rows)|
  {
    hide Flat, Points, Reorder.Transformed, Reorder.Good;
    if from == to {
      Reorder.SameOrder(from, d, rows);
    } else {
      Reorder.TransformPoints(from, to, d, rows);
      PointCount(rows);
      PointCount(Reorder.Transformed(from, to, d, rows));
      SameCount<Coo>(Points(Reorder.Transformed(from, to, d, rows)), Reorder.Moved(from, to, d, Points(rows)));
    }
  }

  lemma SameCount<T>(a: seq<T>, b: seq<T>)
    requires multiset(a) == multiset(b)
    ensures |a| == |b|
  {
    assert |multiset(a)| == |a| && |multiset(b)| == |b|;
  }

  lemma {:induction false} PointCount(rows: Rows)
    ensures |Points(rows)| == |Flat(rows)|
  {
    if rows != [] {
      var n := |rows| - 1;
      PointCount(rows[..n]);
      assert rows[..n] + [rows[n]] == rows;
      Reorder.PointsSnocRow(rows[..n], rows[n]);
    }
  }

  // ----- From an entry of the statistics to a stretch

  lemma {:induction false} EntryShare(s: Stats, e: Stat)
    requires e in s
    ensures AtLeast(ShareOf(s, e.dim), Share(e.nnz, e.np))
  {
    var init, l := s[..|s| - 1], s[|s| - 1];
    assert s == init + [l];
    if e != l {
      EntryShare(init, e);
    }
  }

  lemma StartOfStretch(row: seq<Elem>, j: nat)
    requires EndsAt(row, j)
    ensures StretchOf(row, StretchStart(row, j), j)
  {
    StartBounds(row, j);
  }

  lemma {:induction false} StartBounds(row: seq<Elem>, j: nat)
    requires j <= |row|
    ensures var l := StretchStart(row, j);
            && (forall k :: l <= k < j ==> row[k].Single?) && (l > 0 ==> row[l - 1].Pat?)
            && (j > 0 && row[j - 1].Single? ==> l < j)
  {
    if j > 0 && row[j - 1].Single? {
      StartBounds(row, j - 1);
    }
  }

  lemma {:induction false} CountedStretch(c: Config, row: seq<Elem>, j: nat, d: nat) returns (l: nat, r: nat)
    requires c.max >= 1 && j <= |row| && RowCount(c, row, j, d).np >= 1
    ensures StretchOf(row, l, r) && StretchCount(c, Xs(row[l..r]), d).np >= 1
  {
    hide StretchCount, Xs, StretchStart, StretchOf;
    if EndsAt(row, j) && StretchCount(c, Xs(row[StretchStart(row, j)..j]), d).np >= 1 {
      l, r := StretchStart(row, j), j;
      StartOfStretch(row, j);
    } else {
      l, r := CountedStretch(c, row, j - 1, d);
    }
  }

  lemma {:induction false} CountedRow(c: Config, rows: Rows, d: nat) returns (i: nat, l: nat, r: nat)
    requires c.max >= 1 && MatrixCount(c, rows, d).np >= 1
    ensures i < |rows| && StretchOf(rows[i], l, r) && StretchCount(c, Xs(rows[i][l..r]), d).np >= 1
  {
    hide StretchCount, Xs, RowCount, StretchOf;
    var n := |rows| - 1;
    if RowCount(c, rows[n], |rows[n]|, d).np >= 1 {
      i := n;
      l, r := CountedStretch(c, rows[n], |rows[n]|, d);
    } else {
      i, l, r := CountedRow(c, rows[..n], d);
    }
  }

  lemma {:induction false} SomeCut(align: nat, s: Stats, targets: seq<nat>, k: nat, d: nat) returns (i: nat)
    requires |targets| == |s| && k <= |s| && CutsCount(align, s, targets, k, d).np >= 1
    requires forall i :: 0 <= i < |s| ==> targets[i] <= s[i].dim
    ensures i < |s| && d <= s[i].dim
    decreases |s| - k
  {
    hide Scale, Quot;
    if targets[k] != 0 && CutShare(align, s[k], targets[k], d).np >= 1 {
      i := k;
    } else {
      i := SomeCut(align, s, targets, k + 1, d);
    }
  }

  /** The entry of the uncorrected statistics that an entry comes from. */
  lemma Origin(p: Params, nonzeros: nat, align: nat, o: Order, raw: Stats, cut: Stats, e: Stat) returns (w: nat)
    requires align == o.Align() && Each(raw, EntryOk(o)) && e in cut && e.np >= 1 && p.max >= 1
    requires cut == if 1 <= align <= p.max && p.splitBlocks then Corrected(raw, align, p.max, nonzeros, p.minPerc) else raw
    ensures ShareOf(raw, w).np >= 1 && (if 1 <= align <= p.max && p.splitBlocks then e.dim <= w else e.dim == w)
  {
    hide ShareOf, Corrected, Each, EntryOk, CutsCount;
    EntryShare(cut, e);
    if 1 <= align <= p.max && p.splitBlocks {
      BlockEntries(o);
      var limited, limits, targets := CorrectedExact(raw, align, p.max, nonzeros, p.minPerc);
      forall i | 0 <= i < |raw|
        ensures targets[i] <= raw[i].dim
      {
        assert IsTarget(limited, raw[i].dim, targets[i], nonzeros, p.minPerc);
      }
      var i := SomeCut(align, raw, targets, 0, e.dim);
      w := raw[i].dim;
      EachAt(raw, Blocky(align), i);
      WholePositive(align, raw[i]);
      EntryShare(raw, raw[i]);
    } else {
      w := e.dim;
    }
  }

  // ----- Every pick pays

  /** Where patterns of a single element are all there can be: blocks of one row or column
      and a size limit of 1. */
  predicate Pointless(p: Params, t: nat) {
    p.max == 1 && OfCode(t).Align() == 1
  }

  /** The encoder's settings for a type, with the dimensions its statistics keep. */
  function Kept(p: Params, nonzeros: nat, d: Dims, t: nat, rows: Rows): Config
    requires p.max >= 1
  {
    p.For(t, DimsOf(TypeStats(p, nonzeros, d, t, rows)))
  }

  /** The uncorrected statistics and the corrected ones. */
  lemma StatsParts(p: Params, nonzeros: nat, d: Dims, t: nat, rows: Rows) returns (raw: Stats, cut: Stats)
    requires p.max >= 1 && Valid(Horizontal, d, rows)
    ensures var o, there := OfCode(t), Reorder.Transformed(Horizontal, OfCode(t), d, rows);
            && raw == MatrixStats(p.For(t, []), there) && Ascending(raw) && Each(raw, EntryOk(o))
            && cut == (if 1 <= o.Align() <= p.max && p.splitBlocks then Corrected(raw, o.Align(), p.max, nonzeros, p.minPerc) else raw)
            && TypeStats(p, nonzeros, d, t, rows) == Selected(p, nonzeros, o.Align(), cut)
            && forall i :: 0 <= i < |there| ==> RowSorted(there[i]) && PositiveXs(there[i])
  {
    hide Valid, Corrected, MatrixStats, Reorder.Transformed, Selected, Each, Ascending, EntryOk, RowSorted, PositiveXs;
    var o := OfCode(t);
    var there := Reorder.Transformed(Horizontal, o, d, rows);
    TransformValid(Horizontal, o, d, rows);
    ValidRowsSorted(o, d, there);
    raw := MatrixStats(p.For(t, []), there);
    MatrixCounts(p.For(t, []), there);
    cut := if 1 <= o.Align() <= p.max && p.splitBlocks then Corrected(raw, o.Align(), p.max, nonzeros, p.minPerc) else raw;
  }

  /** The entries a type keeps hold a pattern each. */
  lemma KeptEntries(p: Params, nonzeros: nat, d: Dims, t: nat, rows: Rows)
    requires p.max >= 1 && Valid(Horizontal, d, rows)
    ensures var s := TypeStats(p, nonzeros, d, t, rows);
            forall e :: e in s ==> e.np >= 1 && e.dim >= 1 && e.dim in Kept(p, nonzeros, d, t, rows).deltas
    ensures forall i :: 0 <= i < |Kept(p, nonzeros, d, t, rows).deltas| ==> Kept(p, nonzeros, d, t, rows).deltas[i] >= 1
  {
    hide Valid, Each, Ascending, TypeStats, EntryOk, InLimit;
    var s := TypeStats(p, nonzeros, d, t, rows);
    TypeStatsOk(p, nonzeros, d, t, rows);
    forall i | 0 <= i < |s|
      ensures s[i].np >= 1 && s[i].dim in DimsOf(s)
    {
      EachAt(s, EntryOk(OfCode(t)), i);
      HasPatterns(OfCode(t), s[i]);
      assert DimsOf(s)[i] == s[i].dim;
    }
  }

  lemma HasPatterns(o: Order, e: Stat)
    requires EntryOk(o)(e)
    ensures e.np >= 1
  {
  }

  /** No entry of a block type has a single block column, unless the size limit makes it. */
  lemma NotOne(p: Params, nonzeros: nat, d: Dims, t: nat, rows: Rows, e: Stat)
    requires p.max >= 2 && Valid(Horizontal, d, rows) && OfCode(t).Align() == 1
         && e in TypeStats(p, nonzeros, d, t, rows)
    ensures e.dim >= 2
  {
    hide Valid, Corrected, MatrixStats, Reorder.Transformed, Selected, Each, Ascending, EntryOk, ShareOf, MatrixCount,
         Enough, CutsCount, TypeStats;
    KeptEntries(p, nonzeros, d, t, rows);
    var raw, cut := StatsParts(p, nonzeros, d, t, rows);
    SelectedIs(p, nonzeros, 1, cut, e);
    NoOnes(p, d, t, rows, raw);
    if e.dim == 1 {
      EntryShare(cut, e);
      if p.splitBlocks {
        BlockEntries(OfCode(t));
        var limited, limits, targets := CorrectedExact(raw, 1, p.max, nonzeros, p.minPerc);
        var i := CutToOne(1, raw, targets, 0);
        assert IsTarget(limited, raw[i].dim, targets[i], nonzeros, p.minPerc);
        var l :| l in limited && l.dim == 1;
        var k :| 0 <= k < |limited| && limited[k] == l;
        EachAt(limited, Blocky(1), k);
        WholePositive(1, l);
        EntryShare(limited, l);
        var j := CutToOne(1, raw, limits, 0);
        assert Quot(p.max, 1) == p.max;
        EachAt(raw, Blocky(1), j);
        WholePositive(1, raw[j]);
        EntryShare(raw, raw[j]);
      }
    }
  }

  lemma NoOnes(p: Params, d: Dims, t: nat, rows: Rows, raw: Stats)
    requires p.max >= 1 && OfCode(t).Align() != 0
    requires var there := Reorder.Transformed(Horizontal, OfCode(t), d, rows);
             raw == MatrixStats(p.For(t, []), there) && forall i :: 0 <= i < |there| ==> RowSorted(there[i]) && PositiveXs(there[i])
    ensures ShareOf(raw, 1).np == 0
  {
    hide MatrixStats, Reorder.Transformed, ShareOf, MatrixCount, RowSorted, PositiveXs, BlockPlaces, Xs, StretchOf;
    var there := Reorder.Transformed(Horizontal, OfCode(t), d, rows);
    MatrixExact(p.For(t, []), there, 1);
    if MatrixCount(p.For(t, []), there, 1).np >= 1 {
      var i, l, r := CountedRow(p.For(t, []), there, 1);
    }
  }

  lemma {:induction false} CutToOne(align: nat, s: Stats, targets: seq<nat>, k: nat) returns (i: nat)
    requires |targets| == |s| && k <= |s| && CutsCount(align, s, targets, k, 1).np >= 1
    ensures i < |s| && targets[i] == 1
    decreases |s| - k
  {
    hide Scale, Quot;
    if targets[k] == 1 {
      i := k;
    } else {
      i := CutToOne(align, s, targets, k + 1);
    }
  }

  /** An entry that is kept leads to a stretch that its encoding gives a pattern. */
  lemma EntryMakes(p: Params, nonzeros: nat, d: Dims, t: nat, rows: Rows, e: Stat) returns (i: nat, l: nat, r: nat)
    requires p.max >= 1 && Valid(Horizontal, d, rows) && e in TypeStats(p, nonzeros, d, t, rows)
    requires Kept(p, nonzeros, d, t, rows).Good() && !Pointless(p, t) && (OfCode(t).Align() == 0 ==> p.max >= 2)
    ensures var there := Reorder.Transformed(Horizontal, OfCode(t), d, rows);
            i < |there| && Gets(Kept(p, nonzeros, d, t, rows), there[i], l, r)
  {
    hide Valid, Corrected, MatrixStats, Reorder.Transformed, Selected, Each, Ascending, EntryOk, ShareOf, MatrixCount,
         StretchCount,
         HasPattern, RowSorted, PositiveXs, Encoded, Enough, TypeStats;
    var o, align := OfCode(t), OfCode(t).Align();
    var c, b := Kept(p, nonzeros, d, t, rows), p.For(t, []);
    var there := Reorder.Transformed(Horizontal, o, d, rows);
    KeptEntries(p, nonzeros, d, t, rows);
    var raw, cut := StatsParts(p, nonzeros, d, t, rows);
    SelectedIs(p, nonzeros, align, cut, e);
    var w := Origin(p, nonzeros, align, o, raw, cut, e);
    MatrixExact(b, there, w);
    i, l, r := CountedRow(b, there, w);
    KeptBig(p, nonzeros, d, t, rows);
    StretchGets(c, b, there[i], l, r, w, e.dim);
  }

  lemma KeptBig(p: Params, nonzeros: nat, d: Dims, t: nat, rows: Rows)
    requires p.max >= 1 && Valid(Horizontal, d, rows) && !Pointless(p, t)
    ensures BigBlocks(Kept(p, nonzeros, d, t, rows))
  {
    hide Valid, TypeStats;
    var s := TypeStats(p, nonzeros, d, t, rows);
    if OfCode(t).Align() == 1 {
      forall x | x in DimsOf(s)
        ensures x >= 2
      {
        var i :| 0 <= i < |s| && DimsOf(s)[i] == x;
        NotOne(p, nonzeros, d, t, rows, s[i]);
      }
    }
  }

  /** A stretch that is counted for w gets a pattern when w, or a narrower block, is
      listed. */
  lemma StretchGets(c: Config, b: Config, row: seq<Elem>, l: nat, r: nat, w: nat, d: nat)
    requires c.Good() && BigBlocks(c) && (c.order.Align() == 0 ==> c.max >= 2)
    requires RowSorted(row) && PositiveXs(row) && StretchOf(row, l, r)
    requires b.order == c.order && b.min == c.min && b.numa == c.numa && b.max >= 1 && d in c.deltas
    requires StretchCount(b, Xs(row[l..r]), w).np >= 1
    requires if c.order.Align() != 0 && c.splitBlocks then d <= w else d == w
    ensures Gets(c, row, l, r)
  {
    hide Encoded, StretchCount, Xs, Vs, RowSorted, PositiveXs, BigBlocks, Big;
    var xs, vs := Xs(row[l..r]), Vs(row[l..r]);
    StretchIncreases(row, l, r);
    if c.order.Align() == 0 {
      var e := LinearMakes(c, b, xs, vs, w);
      assert e in EncodedStretch(c, row[l..r]);
    } else {
      var e := BlockMakes(c, b, xs, vs, w);
      BlockIsBig(c, xs, vs, e);
      assert e in EncodedStretch(c, row[l..r]);
    }
  }

  lemma SomeEntry(s: Stats)
    requires Nnz(s) - Patterns(s) > 0
    ensures s != [] && s[0] in s
  {
  }

  /** A type with a gain, encoded with the dimensions its statistics keep, leaves strictly
      fewer elements, unless its patterns are all single elements. */
  lemma GainPays(p: Params, nonzeros: nat, d: Dims, t: nat, rows: Rows)
    requires p.max >= 1 && Valid(Horizontal, d, rows) && Gain(p, nonzeros, d, t, rows) > 0
    requires Kept(p, nonzeros, d, t, rows).Good() && !Pointless(p, t) && (OfCode(t).Align() == 0 ==> p.max >= 2)
    ensures |Flat(Encode(Kept(p, nonzeros, d, t, rows), Horizontal, d, rows))| < |Flat(rows)|
  {
    hide Valid, Reorder.Transformed, Reorder.Good, TypeStats, Flat, EncodedRow, HasPattern, RowSorted, PositiveXs,
         Nnz, Patterns;
    var o, s := OfCode(t), TypeStats(p, nonzeros, d, t, rows);
    var c := Kept(p, nonzeros, d, t, rows);
    SomeEntry(s);
    var i, l, r := EntryMakes(p, nonzeros, d, t, rows, s[0]);
    var there := Reorder.Transformed(Horizontal, o, d, rows);
    TransformValid(Horizontal, o, d, rows);
    ValidRowsSorted(o, d, there);
    RowSize(c, there[i]);
    RowsSize(c, there, i);
    EncodeSize(c, d, rows);
  }

  /** An encoded matrix has as many elements as its rows in the order of the encoding. */
  lemma EncodeSize(c: Config, d: Dims, rows: Rows)
    requires c.Good() && Valid(Horizontal, d, rows)
    ensures var there := Reorder.Transformed(Horizontal, c.order, d, rows);
            |Flat(there)| == |Flat(rows)| && |Flat(Encode(c, Horizontal, d, rows))| == |Flat(EncodedRows(c, there))|
  {
    hide Valid, Reorder.Transformed, Reorder.Good, Flat, EncodedRow;
    var there := Reorder.Transformed(Horizontal, c.order, d, rows);
    TransformValid(Horizontal, c.order, d, rows);
    EncodedRowsValid(c, d, there);
    GoodOrder(Horizontal, d, rows);
    GoodOrder(c.order, d, EncodedRows(c, there));
    TransformSize(Horizontal, c.order, d, rows);
    TransformSize(c.order, Horizontal, d, EncodedRows(c, there));
  }

  // ----- Patterns of one element

  /** As many elements as patterns. */
  predicate Even(s: Share) {
    s.nnz == s.np
  }

  lemma {:induction false} RunsEven(c: Config, rles: seq<Rle>, k: nat, d: nat)
    requires c.max == 1 && k <= |rles|
    ensures Even(RunsCount(c, rles, k, d))
  {
    hide Recorded, Elements;
    if k > 0 {
      RunsEven(c, rles, k - 1, d);
      OneEach(Elements(c, rles, k - 1));
    }
  }

  lemma OneEach(n: nat)
    ensures PatternsFor(n, 1) == n
  {
  }

  lemma {:induction false} RowEven(c: Config, row: seq<Elem>, j: nat, d: nat)
    requires c.max == 1 && c.order.Align() == 0 && j <= |row|
    ensures Even(RowCount(c, row, j, d))
  {
    hide RunsCount, RunLengths, Deltas, Xs, StretchStart;
    if j > 0 {
      RowEven(c, row, j - 1, d);
      var xs := Xs(row[StretchStart(row, j)..j]);
      if xs != [] {
        RunsEven(c, RunLengths(Deltas(xs)), |RunLengths(Deltas(xs))|, d);
      }
    }
  }

  lemma {:induction false} MatrixEven(c: Config, rows: Rows, d: nat)
    requires c.max == 1 && c.order.Align() == 0
    ensures Even(MatrixCount(c, rows, d))
  {
    hide RowCount;
    if rows != [] {
      var n := |rows| - 1;
      MatrixEven(c, rows[..n], d);
      RowEven(c, rows[n], |rows[n]|, d);
    }
  }

  /** In an ascending list an entry is all that its dimension holds. */
  lemma {:induction false} EntryIs(s: Stats, e: Stat)
    requires Ascending(s) && e in s
    ensures ShareOf(s, e.dim) == Share(e.nnz, e.np)
  {
    var init, l := s[..|s| - 1], s[|s| - 1];
    assert s == init + [l];
    if e in init {
      EntryIs(init, e);
      var k :| 0 <= k < |init| && init[k] == e;
      AscendingAt(s, k, |s| - 1);
    } else {
      BeyondLast(init, l.dim);
    }
  }

  lemma {:induction false} EvenTotals(s: Stats)
    requires forall e :: e in s ==> e.nnz == e.np
    ensures Nnz(s) == Patterns(s)
  {
    if s != [] {
      EvenTotals(s[..|s| - 1]);
    }
  }

  /** A linear type with a size limit of 1 gains nothing. */
  lemma NoLinearGain(p: Params, nonzeros: nat, d: Dims, t: nat, rows: Rows)
    requires p.max == 1 && OfCode(t).Align() == 0 && Valid(Horizontal, d, rows)
    ensures Gain(p, nonzeros, d, t, rows) == 0
  {
    hide Valid, MatrixStats, Reorder.Transformed, Selected, Each, Ascending, EntryOk, ShareOf, MatrixCount, TypeStats,
         Enough, RowSorted, PositiveXs;
    var raw, cut := StatsParts(p, nonzeros, d, t, rows);
    var s := TypeStats(p, nonzeros, d, t, rows);
    forall e | e in s
      ensures e.nnz == e.np
    {
      SelectedIs(p, nonzeros, 0, raw, e);
      EntryIs(raw, e);
      MatrixExact(p.For(t, []), Reorder.Transformed(Horizontal, OfCode(t), d, rows), e.dim);
      MatrixEven(p.For(t, []), Reorder.Transformed(Horizontal, OfCode(t), d, rows), e.dim);
    }
    EvenTotals(s);
  }

  /** Every pattern that is made has one element. */
  ghost predicate AllTiny(c: Config) {
    c.order.Align() == 1 && c.max == 1 && (c.splitBlocks ==> forall d :: d in c.deltas ==> d <= 1)
  }

  lemma TinyPattern(c: Config, e: Elem)
    requires AllTiny(c) && GoodOut(c, e) && e.Pat? && c.Good()
    ensures |e.vals| == 1
  {
  }

  lemma {:induction false} TinySize(c: Config, es: seq<Elem>)
    requires AllTiny(c) && c.Good() && AllGood(c, es)
    ensures |Expand(c.order, es)| == |es|
  {
    if es != [] {
      var n := |es| - 1;
      TinySize(c, es[..n]);
      assert GoodOut(c, es[n]);
      if es[n].Pat? {
        TinyPattern(c, es[n]);
      }
    }
  }

  lemma {:induction false} TinyScan(c: Config, row: seq<Elem>)
    requires AllTiny(c) && c.Good() && RowSorted(row) && PositiveXs(row)
    ensures |Scan(c, row).out| + |Scan(c, row).pending| == |row|
  {
    hide EncodedStretch, RowSorted, PositiveXs, Expand, AllGood;
    if row != [] {
      var n := |row| - 1;
      SortedPart(row, n);
      TinyScan(c, row[..n]);
      ScanPending(c, row[..n]);
      StretchExpand(c, Scan(c, row[..n]).pending);
      TinySize(c, EncodedStretch(c, Scan(c, row[..n]).pending));
    }
  }

  lemma {:induction false} TinyRows(c: Config, rows: Rows)
    requires AllTiny(c) && c.Good() && forall k :: 0 <= k < |rows| ==> RowSorted(rows[k]) && PositiveXs(rows[k])
    ensures |Flat(EncodedRows(c, rows))| == |Flat(rows)|
  {
    hide EncodedStretch, RowSorted, PositiveXs, Expand, AllGood, Scan;
    if rows != [] {
      var n := |rows| - 1;
      TinyRows(c, rows[..n]);
      TinyScan(c, rows[n]);
      ScanPending(c, rows[n]);
      StretchExpand(c, Scan(c, rows[n]).pending);
      TinySize(c, EncodedStretch(c, Scan(c, rows[n]).pending));
      assert EncodedRows(c, rows)[..n] == EncodedRows(c, rows[..n]);
    }
  }

  /** Blocks of one row or column and a size limit of 1: nothing becomes smaller. */
  lemma TinyKeeps(p: Params, nonzeros: nat, d: Dims, t: nat, rows: Rows)
    requires Pointless(p, t) && Valid(Horizontal, d, rows) && Kept(p, nonzeros, d, t, rows).Good()
    ensures |Flat(Encode(Kept(p, nonzeros, d, t, rows), Horizontal, d, rows))| == |Flat(rows)|
  {
    hide Valid, Reorder.Transformed, TypeStats, Flat, EncodedRow, RowSorted, PositiveXs, Each, InLimit;
    var c, s := Kept(p, nonzeros, d, t, rows), TypeStats(p, nonzeros, d, t, rows);
    TypeStatsOk(p, nonzeros, d, t, rows);
    if p.splitBlocks {
      forall x | x in DimsOf(s)
        ensures x <= 1
      {
        var i :| 0 <= i < |s| && DimsOf(s)[i] == x;
        EachAt(s, InLimit(1, 1), i);
        LimitOne(s[i]);
      }
    }
    var there := Reorder.Transformed(Horizontal, c.order, d, rows);
    TransformValid(Horizontal, c.order, d, rows);
    ValidRowsSorted(c.order, d, there);
    TinyRows(c, there);
    EncodeSize(c, d, rows);
  }

  lemma LimitOne(e: Stat)
    requires InLimit(1, 1)(e)
    ensures e.dim <= 1
  {
  }

  /** A type with a gain makes the matrix smaller exactly when its patterns can have two
      elements. */
  lemma GainPaysExactly(p: Params, nonzeros: nat, d: Dims, t: nat, rows: Rows)
    requires p.max >= 1 && Valid(Horizontal, d, rows) && Gain(p, nonzeros, d, t, rows) > 0
    requires Kept(p, nonzeros, d, t, rows).Good()
    ensures |Flat(Encode(Kept(p, nonzeros, d, t, rows), Horizontal, d, rows))| < |Flat(rows)| <==> !Pointless(p, t)
  {
    hide Valid, Gain, Flat, Encode, Kept;
    if Pointless(p, t) {
      TinyKeeps(p, nonzeros, d, t, rows);
    } else {
      if p.max == 1 && OfCode(t).Align() == 0 {
        NoLinearGain(p, nonzeros, d, t, rows);
      }
      GainPays(p, nonzeros, d, t, rows);
    }
  }

  /** Step by step the greedy run leaves fewer and fewer elements. */
  lemma {:induction false} GreedyShrinks(p: Params, nonzeros: nat, d: Dims, rows0: Rows, ignored: set<nat>,
                                         cs: seq<Config>)
    requires p.max >= 2 && Valid(Horizontal, d, rows0) && GoodConfigs(cs) && Greedy(p, nonzeros, d, rows0, ignored, cs)
    ensures |Flat(EncodeMany(cs, Horizontal, d, rows0))| + |cs| <= |Flat(rows0)|
  {
    hide Valid, Flat, Encode, IgnoredAfter, Gain, EncodableTypes, TypeStats;
    if cs != [] {
      var n := |cs| - 1;
      var before, c := EncodeMany(cs[..n], Horizontal, d, rows0), cs[n];
      GreedyPrefix(p, nonzeros, d, rows0, ignored, cs);
      GreedyShrinks(p, nonzeros, d, rows0, ignored, cs[..n]);
      EncodeManyKeepsMeaning(cs[..n], Horizontal, d, rows0);
      assert Picks(p, nonzeros, d, before, IgnoredAfter(p, nonzeros, d, rows0, ignored, cs[..n]), c);
      GainPaysExactly(p, nonzeros, d, c.order.Code(), before);
    }
  }

  lemma GreedyPrefix(p: Params, nonzeros: nat, d: Dims, rows0: Rows, ignored: set<nat>, cs: seq<Config>)
    requires p.max >= 1 && GoodConfigs(cs) && Greedy(p, nonzeros, d, rows0, ignored, cs) && cs != []
    ensures GoodConfigs(cs[..|cs| - 1]) && Greedy(p, nonzeros, d, rows0, ignored, cs[..|cs| - 1])
  {
    hide Picks, EncodeMany, IgnoredAfter;
    var init := cs[..|cs| - 1];
    forall k {:trigger init[k]} | 0 <= k < |init|
      ensures Picks(p, nonzeros, d, EncodeMany(init[..k], Horizontal, d, rows0),
                    IgnoredAfter(p, nonzeros, d, rows0, ignored, init[..k]), init[k])
    {
      assert init[..k] == cs[..k] && init[k] == cs[k];
    }
  }
}

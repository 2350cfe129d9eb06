/** Statistics of whole rows and matrices.

    `MatrixCounts` bounds what is recorded by the elements that are not yet in a pattern;
    `MatrixExact` says what is recorded for each dimension, stretch by stretch. */
module RowStatistics {
  import opened Orders
  import opened Matrix
  import opened Products
  import opened Seqs
  import opened RowCodec
  import opened MatrixCodec
  import opened DrleStats
  import opened BlockColumns
  import opened StatsCount

  // ----- Statistics of a matrix

  /** The columns of the single elements behind the last pattern. */
  function Waiting(row: seq<Elem>): seq<int> {
    if row == [] then []
    else if row[|row| - 1].Single? then Waiting(row[..|row| - 1]) + [row[|row| - 1].x]
    else []
  }

  /** The statistics when the stretches before the last pattern of a row are counted. */
  function PartStats(c: Config, stats: Stats, row: seq<Elem>): Stats
    requires c.max >= 1
  {
    if row == [] then stats
    else
      var init := row[..|row| - 1];
      if row[|row| - 1].Single? then PartStats(c, stats, init) else StretchStats(c, PartStats(c, stats, init), Waiting(init))
  }

  function RowStats(c: Config, stats: Stats, row: seq<Elem>): Stats
    requires c.max >= 1
  {
    StretchStats(c, PartStats(c, stats, row), Waiting(row))
  }

  function MatrixStats(c: Config, rows: Rows): Stats
    requires c.max >= 1
  {
    if rows == [] then [] else RowStats(c, MatrixStats(c, rows[..|rows| - 1]), rows[|rows| - 1])
  }

  /** How many elements are not yet in a pattern. */
  function SingleCount(row: seq<Elem>): nat {
    if row == [] then 0 else SingleCount(row[..|row| - 1]) + (if row[|row| - 1].Single? then 1 else 0)
  }

  function Unencoded(rows: Rows): nat {
    if rows == [] then 0 else Unencoded(rows[..|rows| - 1]) + SingleCount(rows[|rows| - 1])
  }

  /** What waits is a strictly increasing tail of the row. */
  lemma {:induction false} WaitingOk(row: seq<Elem>)
    requires RowSorted(row) && PositiveXs(row)
    ensures Increasing(Waiting(row))
    ensures Waiting(row) != [] ==> Waiting(row)[|Waiting(row)| - 1] == row[|row| - 1].x
    ensures |Waiting(row)| <= |row|
  {
    if row != [] {
      var n := |row| - 1;
      WaitingOk(row[..n]);
    }
  }

  lemma {:induction false} PartCounts(c: Config, stats: Stats, row: seq<Elem>)
    requires c.max >= 1 && RowSorted(row) && PositiveXs(row)
    requires Ascending(stats) && Each(stats, EntryOk(c.order))
    ensures var r := PartStats(c, stats, row);
            && Ascending(r) && Each(r, EntryOk(c.order))
            && Nnz(r) + |Waiting(row)| <= Nnz(stats) + SingleCount(row)
  {
    hide StretchStats, Nnz, Each, Ascending, Increasing;
    if row != [] {
      var init := row[..|row| - 1];
      PartCounts(c, stats, init);
      WaitingOk(init);
      NeverOvercounts(c, PartStats(c, stats, init), Waiting(init));
    }
  }

  lemma {:induction false} MatrixCounts(c: Config, rows: Rows)
    requires c.max >= 1 && forall i :: 0 <= i < |rows| ==> RowSorted(rows[i]) && PositiveXs(rows[i])
    ensures var r := MatrixStats(c, rows);
            Ascending(r) && Each(r, EntryOk(c.order)) && Nnz(r) <= Unencoded(rows)
  {
    hide StretchStats, Nnz, Each, Ascending, Increasing, RowSorted, PositiveXs, PartStats, Waiting, SingleCount;
    if rows == [] {
      NoEntries(EntryOk(c.order));
    } else {
      var n := |rows| - 1;
      MatrixCounts(c, rows[..n]);
      var before := MatrixStats(c, rows[..n]);
      PartCounts(c, before, rows[n]);
      WaitingOk(rows[n]);
      NeverOvercounts(c, PartStats(c, before, rows[n]), Waiting(rows[n]));
    }
  }

  // ----- What is recorded for each dimension

  /** Where the single elements that end at position j begin. */
  function StretchStart(row: seq<Elem>, j: nat): (l: nat)
    requires j <= |row|
    ensures l <= j
  {
    if j > 0 && row[j - 1].Single? then StretchStart(row, j - 1) else j
  }

  /** A stretch of single elements ends at position j. */
  predicate EndsAt(row: seq<Elem>, j: nat) {
    0 < j <= |row| && row[j - 1].Single? && (j < |row| ==> row[j].Pat?)
  }

  /** What the stretches that end at positions 0..j add to dimension d. */
  ghost function RowCount(c: Config, row: seq<Elem>, j: nat, d: nat): Share
    requires c.max >= 1 && j <= |row|
  {
    if j == 0 then NOTHING
    else
      var rest := RowCount(c, row, j - 1, d);
      if EndsAt(row, j) then rest.Plus(StretchCount(c, Xs(row[StretchStart(row, j)..j]), d)) else rest
  }

  ghost function MatrixCount(c: Config, rows: Rows, d: nat): Share
    requires c.max >= 1
  {
    if rows == [] then NOTHING
    else MatrixCount(c, rows[..|rows| - 1], d).Plus(RowCount(c, rows[|rows| - 1], |rows[|rows| - 1]|, d))
  }

  /** What waits at position j are the columns of the stretch that ends there. */
  lemma {:induction false} WaitingIs(row: seq<Elem>, j: nat)
    requires j <= |row|
    ensures Waiting(row[..j]) == Xs(row[StretchStart(row, j)..j])
  {
    if j > 0 {
      assert row[..j][..j - 1] == row[..j - 1];
      if row[j - 1].Single? {
        WaitingIs(row, j - 1);
        var l := StretchStart(row, j);
        assert row[l..j] == row[l..j - 1] + [row[j - 1]];
      }
    }
  }

  /** The statistics with the stretch that ends at position j, if one does. */
  lemma CountStretch(c: Config, stats: Stats, row: seq<Elem>, j: nat, d: nat)
    requires c.max >= 1 && RowSorted(row) && PositiveXs(row) && j <= |row| && (j < |row| ==> row[j].Pat?)
    ensures var before := RowCount(c, row, if j == 0 then 0 else j - 1, d);
            ShareOf(StretchStats(c, stats, Waiting(row[..j])), d).Plus(before)
            == ShareOf(stats, d).Plus(RowCount(c, row, j, d))
  {
    hide *;
    SortedPart(row, j);
    WaitingOk(row[..j]);
    StretchExact(c, stats, Waiting(row[..j]), d);
    CountMore(c, row, j, d);
    var before := RowCount(c, row, if j == 0 then 0 else j - 1, d);
    PlusOrder(ShareOf(stats, d), StretchCount(c, Waiting(row[..j]), d), before);
  }

  lemma PlusOrder(a: Share, b: Share, c: Share)
    ensures a.Plus(b).Plus(c) == a.Plus(c.Plus(b))
  {
  }

  lemma CountMore(c: Config, row: seq<Elem>, j: nat, d: nat)
    requires c.max >= 1 && j <= |row| && (j < |row| ==> row[j].Pat?)
    ensures RowCount(c, row, j, d)
         == RowCount(c, row, if j == 0 then 0 else j - 1, d).Plus(StretchCount(c, Waiting(row[..j]), d))
  {
    hide *;
    if j == 0 {
      NothingEnds(c, row, d);
    } else {
      RowCountStep(c, row, j, d);
    }
    if EndsAt(row, j) {
      WaitingIs(row, j);
    } else {
      NoStretch(c, row, j, d);
      PlusNothing(RowCount(c, row, if j == 0 then 0 else j - 1, d));
    }
  }

  lemma PlusNothing(a: Share)
    ensures a.Plus(NOTHING) == a
  {
  }

  lemma NothingEnds(c: Config, row: seq<Elem>, d: nat)
    requires c.max >= 1
    ensures !EndsAt(row, 0) && RowCount(c, row, 0, d) == NOTHING
  {
  }

  lemma RowCountStep(c: Config, row: seq<Elem>, j: nat, d: nat)
    requires c.max >= 1 && 0 < j <= |row|
    ensures RowCount(c, row, j, d)
         == if EndsAt(row, j) then RowCount(c, row, j - 1, d).Plus(StretchCount(c, Xs(row[StretchStart(row, j)..j]), d))
            else RowCount(c, row, j - 1, d)
  {
    hide StretchCount, EndsAt, StretchStart, Xs;
  }

  lemma SortedPart(row: seq<Elem>, j: nat)
    requires RowSorted(row) && PositiveXs(row) && j <= |row|
    ensures RowSorted(row[..j]) && PositiveXs(row[..j])
  {
  }

  lemma NoStretch(c: Config, row: seq<Elem>, j: nat, d: nat)
    requires c.max >= 1 && j <= |row| && (j < |row| ==> row[j].Pat?) && !EndsAt(row, j)
    ensures StretchCount(c, Waiting(row[..j]), d) == NOTHING
  {
  }

  /** The stretches before position j - 1 have been counted. */
  lemma {:induction false} PartExact(c: Config, stats: Stats, row: seq<Elem>, j: nat, d: nat)
    requires c.max >= 1 && RowSorted(row) && PositiveXs(row) && j <= |row|
    ensures ShareOf(PartStats(c, stats, row[..j]), d)
         == ShareOf(stats, d).Plus(RowCount(c, row, if j == 0 then 0 else j - 1, d))
  {
    hide StretchStats, StretchCount, ShareOf, Increasing, Waiting, StretchStart;
    if j > 0 {
      assert row[..j][..j - 1] == row[..j - 1];
      PartExact(c, stats, row, j - 1, d);
      if row[j - 1].Pat? {
        CountStretch(c, PartStats(c, stats, row[..j - 1]), row, j - 1, d);
      }
    }
  }

  lemma {:induction false} MatrixExact(c: Config, rows: Rows, d: nat)
    requires c.max >= 1 && forall i :: 0 <= i < |rows| ==> RowSorted(rows[i]) && PositiveXs(rows[i])
    ensures ShareOf(MatrixStats(c, rows), d) == MatrixCount(c, rows, d)
  {
    hide StretchStats, ShareOf, PartStats, RowCount, RowSorted, PositiveXs, Waiting;
    if rows == [] {
      NothingRecorded(d);
    } else {
      var n := |rows| - 1;
      MatrixExact(c, rows[..n], d);
      var row, before := rows[n], MatrixStats(c, rows[..n]);
      PartExact(c, before, row, |row|, d);
      CountStretch(c, PartStats(c, before, row), row, |row|, d);
      Whole(row);
    }
  }

  lemma NothingRecorded(d: nat)
    ensures ShareOf([], d) == NOTHING
  {
  }

  // ----- Every long run and all whole blocks are recorded

  ghost predicate AtLeast(a: Share, b: Share) {
    a.nnz >= b.nnz && a.np >= b.np
  }

  lemma {:induction false} StartIs(row: seq<Elem>, l: nat, j: nat)
    requires l <= j <= |row| && (l > 0 ==> row[l - 1].Pat?) && forall k :: l <= k < j ==> row[k].Single?
    ensures StretchStart(row, j) == l
  {
    if j > l {
      StartIs(row, l, j - 1);
    }
  }

  lemma {:induction false} RowHasStretch(c: Config, row: seq<Elem>, l: nat, r: nat, j: nat, d: nat)
    requires c.max >= 1 && StretchOf(row, l, r) && r <= j <= |row|
    ensures AtLeast(RowCount(c, row, j, d), StretchCount(c, Xs(row[l..r]), d))
  {
    hide StretchCount, Xs;
    if j > r {
      RowHasStretch(c, row, l, r, j - 1, d);
    } else {
      forall k | l <= k < r
        ensures row[k].Single?
      {
        assert row[l..r][k - l].Single?;
      }
      StartIs(row, l, r);
    }
  }

  lemma {:induction false} MatrixHasStretch(c: Config, rows: Rows, i: nat, l: nat, r: nat, d: nat)
    requires c.max >= 1 && i < |rows| && StretchOf(rows[i], l, r)
    ensures AtLeast(MatrixCount(c, rows, d), StretchCount(c, Xs(rows[i][l..r]), d))
  {
    hide StretchCount, Xs, RowCount, StretchOf;
    var n := |rows| - 1;
    if i < n {
      MatrixHasStretch(c, rows[..n], i, l, r, d);
    } else {
      StretchInside(rows[i], l, r);
      RowHasStretch(c, rows[i], l, r, |rows[i]|, d);
    }
  }

  lemma StretchInside(row: seq<Elem>, l: nat, r: nat)
    requires StretchOf(row, l, r)
    ensures l < r <= |row|
  {
  }

  /** A linear order: n >= max(2, min) equal steps d in a stretch of single elements, no
      more of them beside, give dimension d at least n elements and a pattern. */
  lemma LongRunRecorded(c: Config, rows: Rows, i: nat, l: nat, r: nat, p: nat, n: nat, d: nat)
    requires c.max >= 1 && c.order.Align() == 0 && forall k :: 0 <= k < |rows| ==> RowSorted(rows[k]) && PositiveXs(rows[k])
    requires i < |rows| && StretchOf(rows[i], l, r) && StepRun(Xs(rows[i][l..r]), p, n, d) && n >= 2 && n >= c.min
    ensures AtLeast(ShareOf(MatrixStats(c, rows), d), Share(n, 1))
  {
    hide StretchCount, ShareOf, MatrixStats, MatrixCount, StepRun;
    MatrixExact(c, rows, d);
    MatrixHasStretch(c, rows, i, l, r, d);
    StretchIncreases(rows[i], l, r);
    LongRunCounts(c, Xs(rows[i][l..r]), p, n, d);
  }

  lemma StretchIncreases(row: seq<Elem>, l: nat, r: nat)
    requires RowSorted(row) && PositiveXs(row) && l <= r <= |row|
    ensures Increasing(Xs(row[l..r]))
  {
  }

  /** A block order: w >= 2 whole blocks side by side in a stretch give dimension w at
      least their elements and a pattern. */
  lemma BlocksRecorded(c: Config, rows: Rows, i: nat, l: nat, r: nat, x: int, w: nat)
    requires c.max >= 1 && c.order.Align() != 0 && forall k :: 0 <= k < |rows| ==> RowSorted(rows[k]) && PositiveXs(rows[k])
    requires i < |rows| && StretchOf(rows[i], l, r) && MaxBlocks(c.order.Align(), Xs(rows[i][l..r]), x, w) && w >= 2
    ensures AtLeast(ShareOf(MatrixStats(c, rows), w), Share(Scale(w, c.order.Align()), 1))
  {
    hide StretchCount, ShareOf, MatrixStats, MatrixCount, MaxBlocks;
    MatrixExact(c, rows, w);
    MatrixHasStretch(c, rows, i, l, r, w);
    StretchIncreases(rows[i], l, r);
    BlocksCount(c, Xs(rows[i][l..r]), x, w);
  }

  /** The counts determine the statistics. */
  lemma CountsDetermine(c: Config, rows: Rows, s: Stats)
    requires c.max >= 1 && forall k :: 0 <= k < |rows| ==> RowSorted(rows[k]) && PositiveXs(rows[k])
    requires Ascending(s) && Each(s, Filled()) && forall d: nat :: ShareOf(s, d) == MatrixCount(c, rows, d)
    ensures s == MatrixStats(c, rows)
  {
    hide MatrixStats, MatrixCount, ShareOf, Each, Ascending;
    MatrixCounts(c, rows);
    EachFilled(c.order, MatrixStats(c, rows));
    forall d: nat
      ensures ShareOf(s, d) == ShareOf(MatrixStats(c, rows), d)
    {
      MatrixExact(c, rows, d);
    }
    SharesDetermine(s, MatrixStats(c, rows));
  }

  lemma {:induction false} EachFilled(o: Order, s: Stats)
    requires Each(s, EntryOk(o))
    ensures Each(s, Filled())
  {
    if s != [] {
      EachFilled(o, s[..|s| - 1]);
    }
  }
}

/** Variable block length: every row is cut into runs of consecutive columns of at most
    255 elements; a run is stored as its first column and its length.

    `Multiply` agrees with the row format on every matrix without empty rows.  For an empty
    row the builder opens a run that is left for a later row: `RunsAreColumns` says that the
    runs are the columns exactly when no row is empty, `EmptyRowBreaks` is a matrix whose
    product comes out wrong, and `RightExactly` says when the product is right: exactly when
    all elements behind an empty row are in one column.  The runs are those of a builder
    whose arrays are long enough; spm_vbl.c asserts that they are. */
module Vbl {
  import opened Seqs
  import opened Products
  import opened CsrMatrix

  const BLOCK_MAX: nat := 255

  /** Columns of a run. */
  function Run(start: nat, size: nat): (r: seq<nat>)
    ensures |r| == size && forall k {:trigger r[k]} :: 0 <= k < size ==> r[k] == start + k
  {
    seq(size, k requires 0 <= k < size => start + k)
  }

  /** Columns of all runs, in order. */
  function Expand(starts: seq<nat>, sizes: seq<nat>): seq<nat>
    requires |starts| == |sizes|
  {
    if starts == [] then []
    else
      var n := |starts| - 1;
      Expand(starts[..n], sizes[..n]) + Run(starts[n], sizes[n])
  }

  lemma ExpandSnoc(starts: seq<nat>, sizes: seq<nat>, start: nat, size: nat)
    requires |starts| == |sizes|
    ensures Expand(starts + [start], sizes + [size]) == Expand(starts, sizes) + Run(start, size)
  {
    Snoc(starts, start);
    Snoc(sizes, size);
  }

  /** The last run takes one more column. */
  lemma ExpandGrow(starts: seq<nat>, sizes: seq<nat>, start: nat, size: nat)
    requires |starts| == |sizes|
    ensures Expand(starts + [start], sizes + [size + 1]) == Expand(starts + [start], sizes + [size]) + [start + size]
  {
    hide Expand, Run;
    ExpandSnoc(starts, sizes, start, size);
    ExpandSnoc(starts, sizes, start, size + 1);
    Assoc(Expand(starts, sizes), Run(start, size), [start + size]);
  }

  /** The runs before a prefix are a prefix of the columns. */
  lemma {:induction false} ExpandPrefix(starts: seq<nat>, sizes: seq<nat>, k: nat)
    requires |starts| == |sizes| && k <= |starts|
    ensures Expand(starts[..k], sizes[..k]) <= Expand(starts, sizes)
  {
    var n := |starts|;
    if k < n {
      ExpandPrefix(starts[..n - 1], sizes[..n - 1], k);
      TakeTake(starts, k, n - 1);
      TakeTake(sizes, k, n - 1);
    } else {
      Whole(starts);
      Whole(sizes);
    }
  }

  /** There are no more runs than columns. */
  lemma {:induction false} ExpandSize(starts: seq<nat>, sizes: seq<nat>)
    requires |starts| == |sizes| && forall k :: 0 <= k < |sizes| ==> sizes[k] >= 1
    ensures |Expand(starts, sizes)| >= |starts|
  {
    if starts != [] {
      var n := |starts| - 1;
      ExpandSize(starts[..n], sizes[..n]);
    }
  }

  datatype Vbl = Vbl(nrows: nat, rowPtr: seq<nat>, values: seq<real>, starts: seq<nat>, sizes: seq<nat>)

  /** The runs of the first nb blocks are the columns of the first n elements. */
  ghost predicate Covers(m: Csr, starts: seq<nat>, sizes: seq<nat>, n: nat) {
    && |starts| == |sizes| && n <= |m.colInd| && Expand(starts, sizes) == m.colInd[..n]
    && forall k :: 0 <= k < |sizes| ==> 1 <= sizes[k] <= BLOCK_MAX
  }

  /** The runs stand for the matrix, and every row begins with a run of its own:
      `first[i]` is the first run of row i. */
  ghost predicate Stands(vbl: Vbl, m: Csr, first: seq<nat>) {
    && vbl.nrows == m.nrows && vbl.rowPtr == m.rowPtr && vbl.values == m.values
    && Covers(m, vbl.starts, vbl.sizes, |m.colInd|)
    && |first| == m.nrows + 1 && first[0] == 0 && first[m.nrows] == |vbl.starts|
    && (forall i :: 0 <= i <= m.nrows ==> first[i] <= |vbl.starts|)
    && forall i {:trigger first[i]} :: 0 <= i <= m.nrows ==>
         i < |m.rowPtr| && Covers(m, vbl.starts[..first[i]], vbl.sizes[..first[i]], m.rowPtr[i])
  }

  lemma CoversNone(m: Csr)
    ensures Covers(m, [], [], 0)
  {
  }

  lemma CoversNew(m: Csr, starts: seq<nat>, sizes: seq<nat>, n: nat)
    requires Covers(m, starts, sizes, n) && n < |m.colInd|
    ensures Covers(m, starts + [m.colInd[n]], sizes + [1], n + 1)
  {
    ExpandSnoc(starts, sizes, m.colInd[n], 1);
    assert Run(m.colInd[n], 1) == [m.colInd[n]];
  }

  /** The open run, the last one, ends with the last column covered. */
  ghost predicate EndsAt(starts: seq<nat>, sizes: seq<nat>, col: nat)
    requires |starts| == |sizes|
  {
    starts != [] && sizes[|sizes| - 1] >= 1 && starts[|starts| - 1] + sizes[|sizes| - 1] == col + 1
  }

  lemma CoversGrow(m: Csr, starts: seq<nat>, sizes: seq<nat>, n: nat)
    requires Covers(m, starts, sizes, n) && 1 <= n < |m.colInd| && EndsAt(starts, sizes, m.colInd[n - 1])
    requires m.colInd[n] == m.colInd[n - 1] + 1 && sizes[|sizes| - 1] < BLOCK_MAX
    ensures Covers(m, starts, sizes[|sizes| - 1 := sizes[|sizes| - 1] + 1], n + 1)
    ensures EndsAt(starts, sizes[|sizes| - 1 := sizes[|sizes| - 1] + 1], m.colInd[n])
  {
    hide Expand;
    var k := |starts| - 1;
    ExpandGrow(starts[..k], sizes[..k], starts[k], sizes[k]);
    assert starts[..k] + [starts[k]] == starts && sizes[..k] + [sizes[k]] == sizes;
    assert sizes[..k] + [sizes[k] + 1] == sizes[k := sizes[k] + 1];
  }

  lemma EndsNew(starts: seq<nat>, sizes: seq<nat>, col: nat)
    requires |starts| == |sizes|
    ensures EndsAt(starts + [col], sizes + [1], col)
  {
  }

  ghost predicate NoEmptyRows(m: Csr) {
    m.Valid() && forall i :: 0 <= i < m.nrows ==> m.rowPtr[i] < m.rowPtr[i + 1]
  }

  // ----- What the builder makes of any matrix

  datatype Runs = Runs(starts: seq<nat>, sizes: seq<nat>)
  {
    function New(col: nat): Runs {
      Runs(starts + [col], sizes + [1])
    }

    /** One more column of a row: the open run grows, unless it ends earlier or is full. */
    function More(prev: nat, col: nat): Runs {
      if col == prev + 1 && sizes != [] && sizes[|sizes| - 1] < BLOCK_MAX
      then Runs(starts, sizes[|sizes| - 1 := sizes[|sizes| - 1] + 1])
      else New(col)
    }
  }

  /** The column that a row's first run is opened with, before it is known to have any. */
  function FirstColumn(m: Csr, i: nat): nat
    requires i < |m.rowPtr|
  {
    if m.rowPtr[i] < |m.colInd| then m.colInd[m.rowPtr[i]] else 0
  }

  /** The runs after the elements of row i before j. */
  function RowRuns(m: Csr, i: nat, j: nat, before: Runs): Runs
    requires m.Valid() && i < m.nrows && m.rowPtr[i] <= j <= m.rowPtr[i + 1]
    decreases j
  {
    if j <= m.rowPtr[i] + 1 then before.New(FirstColumn(m, i))
    else RowRuns(m, i, j - 1, before).More(m.colInd[j - 2], m.colInd[j - 1])
  }

  lemma RowRunsFirst(m: Csr, i: nat, before: Runs)
    requires m.Valid() && i < m.nrows && m.rowPtr[i] < m.rowPtr[i + 1]
    ensures m.rowPtr[i] < |m.colInd|
    ensures RowRuns(m, i, m.rowPtr[i], before) == before.New(m.colInd[m.rowPtr[i]])
         && RowRuns(m, i, m.rowPtr[i] + 1, before) == before.New(m.colInd[m.rowPtr[i]])
  {
  }

  lemma RowRunsMore(m: Csr, i: nat, j: nat, before: Runs)
    requires m.Valid() && i < m.nrows && m.rowPtr[i] < j < m.rowPtr[i + 1]
    ensures j < |m.colInd|
    ensures RowRuns(m, i, j + 1, before) == RowRuns(m, i, j, before).More(m.colInd[j - 1], m.colInd[j])
  {
  }

  /** The runs of the first i rows. */
  function AllRuns(m: Csr, i: nat): Runs
    requires m.Valid() && i <= m.nrows
  {
    if i == 0 then Runs([], []) else RowRuns(m, i - 1, m.rowPtr[i], AllRuns(m, i - 1))
  }

  function EmptyRows(m: Csr, i: nat): nat
    requires m.Valid() && i <= m.nrows
  {
    if i == 0 then 0 else EmptyRows(m, i - 1) + if m.rowPtr[i - 1] == m.rowPtr[i] then 1 else 0
  }

  /** A row takes one column at least. */
  lemma {:induction false} RowRunsSize(m: Csr, i: nat, j: nat, before: Runs)
    requires m.Valid() && i < m.nrows && m.rowPtr[i] <= j <= m.rowPtr[i + 1] && |before.starts| == |before.sizes|
    ensures var r := RowRuns(m, i, j, before);
            && |r.starts| == |r.sizes| > 0
            && |Expand(r.starts, r.sizes)|
                 == |Expand(before.starts, before.sizes)| + if j == m.rowPtr[i] then 1 else j - m.rowPtr[i]
    decreases j
  {
    hide Expand, Runs.More;
    if j <= m.rowPtr[i] + 1 {
      ExpandSnoc(before.starts, before.sizes, FirstColumn(m, i), 1);
    } else {
      RowRunsSize(m, i, j - 1, before);
      MoreSize(RowRuns(m, i, j - 1, before), m.colInd[j - 2], m.colInd[j - 1]);
    }
  }

  lemma MoreSize(r: Runs, prev: nat, col: nat)
    requires |r.starts| == |r.sizes| > 0
    ensures var s := r.More(prev, col);
            |s.starts| == |s.sizes| > 0 && |Expand(s.starts, s.sizes)| == |Expand(r.starts, r.sizes)| + 1
  {
    hide Expand;
    var k := |r.sizes| - 1;
    ExpandSnoc(r.starts, r.sizes, col, 1);
    ExpandGrow(r.starts[..k], r.sizes[..k], r.starts[k], r.sizes[k]);
    assert r.starts[..k] + [r.starts[k]] == r.starts && r.sizes[..k] + [r.sizes[k]] == r.sizes;
    assert r.sizes[..k] + [r.sizes[k] + 1] == r.sizes[k := r.sizes[k] + 1];
  }

  /** The runs hold one column too many for each empty row. */
  lemma {:induction false} AllRunsSize(m: Csr, i: nat)
    requires m.Valid() && i <= m.nrows
    ensures var r := AllRuns(m, i);
            |r.starts| == |r.sizes| && |Expand(r.starts, r.sizes)| == m.rowPtr[i] + EmptyRows(m, i)
  {
    hide RowRuns;
    if i > 0 {
      AllRunsSize(m, i - 1);
      RowRunsSize(m, i - 1, m.rowPtr[i], AllRuns(m, i - 1));
    }
  }

  lemma {:induction false} EmptyRowCounts(m: Csr, i: nat, e: nat)
    requires m.Valid() && e < i <= m.nrows && m.rowPtr[e] == m.rowPtr[e + 1]
    ensures EmptyRows(m, i) > 0
  {
    if e < i - 1 {
      EmptyRowCounts(m, i - 1, e);
    }
  }

  /** The runs are the columns exactly when no row is empty. */
  lemma RunsAreColumns(m: Csr)
    requires m.Valid()
    ensures var r := AllRuns(m, m.nrows);
            |r.starts| == |r.sizes| && (Expand(r.starts, r.sizes) == m.colInd <==> NoEmptyRows(m))
  {
    AllRunsSize(m, m.nrows);
    if NoEmptyRows(m) {
      AllRunsCover(m, m.nrows);
    } else {
      var e :| 0 <= e < m.nrows && !(m.rowPtr[e] < m.rowPtr[e + 1]);
      EmptyRowCounts(m, m.nrows, e);
    }
  }

  lemma {:induction false} RowRunsCover(m: Csr, i: nat, j: nat, before: Runs)
    requires m.Valid() && i < m.nrows && m.rowPtr[i] < j <= m.rowPtr[i + 1]
    requires Covers(m, before.starts, before.sizes, m.rowPtr[i])
    ensures var r := RowRuns(m, i, j, before);
            Covers(m, r.starts, r.sizes, j) && EndsAt(r.starts, r.sizes, m.colInd[j - 1])
    decreases j
  {
    hide Covers, EndsAt, Csr.Valid, Runs.More;
    RowInside(m, i);
    if j == m.rowPtr[i] + 1 {
      CoversNew(m, before.starts, before.sizes, j - 1);
      Small(m, before.starts, before.sizes, j - 1);
      EndsNew(before.starts, before.sizes, m.colInd[j - 1]);
    } else {
      var r := RowRuns(m, i, j - 1, before);
      RowRunsCover(m, i, j - 1, before);
      MoreCovers(m, r, j - 1);
    }
  }

  lemma MoreCovers(m: Csr, r: Runs, n: nat)
    requires 1 <= n < |m.colInd| && Covers(m, r.starts, r.sizes, n) && EndsAt(r.starts, r.sizes, m.colInd[n - 1])
    ensures var s := r.More(m.colInd[n - 1], m.colInd[n]);
            Covers(m, s.starts, s.sizes, n + 1) && EndsAt(s.starts, s.sizes, m.colInd[n])
  {
    hide Covers, EndsAt;
    Small(m, r.starts, r.sizes, n);
    OpenRun(r.starts, r.sizes, m.colInd[n - 1]);
    if m.colInd[n] == m.colInd[n - 1] + 1 && r.sizes[|r.sizes| - 1] < BLOCK_MAX {
      CoversGrow(m, r.starts, r.sizes, n);
    } else {
      CoversNew(m, r.starts, r.sizes, n);
      EndsNew(r.starts, r.sizes, m.colInd[n]);
    }
  }

  lemma OpenRun(starts: seq<nat>, sizes: seq<nat>, col: nat)
    requires |starts| == |sizes| && EndsAt(starts, sizes, col)
    ensures sizes != []
  {
  }

  lemma {:induction false} AllRunsCover(m: Csr, i: nat)
    requires m.Valid() && i <= m.nrows && forall r :: 0 <= r < i ==> m.rowPtr[r] < m.rowPtr[r + 1]
    ensures Covers(m, AllRuns(m, i).starts, AllRuns(m, i).sizes, m.rowPtr[i])
  {
    hide Covers, RowRuns;
    if i == 0 {
      CoversNone(m);
    } else {
      AllRunsCover(m, i - 1);
      RowRunsCover(m, i - 1, m.rowPtr[i], AllRuns(m, i - 1));
    }
  }

  /** A row's runs go behind the runs before it, the first one at the row's first column. */
  lemma {:induction false} RowRunsBehind(m: Csr, i: nat, j: nat, before: Runs)
    requires m.Valid() && i < m.nrows && m.rowPtr[i] <= j <= m.rowPtr[i + 1] && |before.starts| == |before.sizes|
    ensures var r := RowRuns(m, i, j, before); var n := |before.starts|;
            && |r.starts| == |r.sizes| > n && r.starts[..n] == before.starts && r.sizes[..n] == before.sizes
            && r.starts[n] == FirstColumn(m, i) && r.sizes[n] >= 1
    decreases j
  {
    hide Runs.More, FirstColumn, Csr.Valid;
    RowBounds(m, i);
    if j > m.rowPtr[i] + 1 {
      RowRunsBehind(m, i, j - 1, before);
      MoreBehind(RowRuns(m, i, j - 1, before), m.colInd[j - 2], m.colInd[j - 1], |before.starts|);
    }
  }

  lemma RowBounds(m: Csr, i: nat)
    requires m.Valid() && i < m.nrows
    ensures |m.rowPtr| == m.nrows + 1 && m.rowPtr[i] <= m.rowPtr[i + 1] <= |m.colInd|
  {
  }

  /** Runs before the open one stay. */
  lemma MoreBehind(r: Runs, prev: nat, col: nat, n: nat)
    requires |r.starts| == |r.sizes| > n && r.sizes[n] >= 1
    ensures var s := r.More(prev, col);
            && |s.starts| == |s.sizes| > n && s.starts[..n] == r.starts[..n] && s.sizes[..n] == r.sizes[..n]
            && s.starts[n] == r.starts[n] && s.sizes[n] >= 1
  {
  }

  /** The runs of the first i rows are the first of those of the first n rows. */
  lemma {:induction false} AllRunsPrefix(m: Csr, i: nat, n: nat)
    requires m.Valid() && i <= n <= m.nrows
    ensures var a, b := AllRuns(m, i), AllRuns(m, n);
            && |a.starts| == |a.sizes| <= |b.starts| == |b.sizes|
            && b.starts[..|a.starts|] == a.starts && b.sizes[..|a.starts|] == a.sizes
  {
    hide RowRuns, FirstColumn;
    if i < n {
      AllRunsPrefix(m, i, n - 1);
      RowRunsBehind(m, n - 1, m.rowPtr[n], AllRuns(m, n - 1));
      var a, b, c := AllRuns(m, i), AllRuns(m, n - 1), AllRuns(m, n);
      TakeTake(c.starts, |a.starts|, |b.starts|);
      TakeTake(c.sizes, |a.starts|, |b.starts|);
    } else if n > 0 {
      AllRunsPrefix(m, n - 1, n - 1);
      RowRunsBehind(m, n - 1, m.rowPtr[n], AllRuns(m, n - 1));
    }
  }

  /** The blocks while they are filled: the first nblocks are closed. */
  // ----- The runs of a row are as long as they can be

  /** Of the runs lo..hi each is full or ends before the next one begins. */
  ghost predicate Apart(r: Runs, lo: nat, hi: nat) {
    && |r.starts| == |r.sizes| && hi <= |r.starts|
    && forall k {:trigger r.sizes[k]} :: lo <= k && k + 1 < hi ==> r.sizes[k] == BLOCK_MAX || r.starts[k + 1] != r.starts[k] + r.sizes[k]
  }

  lemma {:induction false} RowRunsApart(m: Csr, i: nat, j: nat, before: Runs)
    requires m.Valid() && i < m.nrows && m.rowPtr[i] <= j <= m.rowPtr[i + 1] && |before.starts| == |before.sizes|
    ensures var r := RowRuns(m, i, j, before); Apart(r, |before.starts|, |r.starts|)
    ensures var r := RowRuns(m, i, j, before);
            |r.starts| == |r.sizes| > |before.starts| && r.sizes[|r.sizes| - 1] <= BLOCK_MAX
            && (m.rowPtr[i] < j ==> j <= |m.colInd| && EndsAt(r.starts, r.sizes, m.colInd[j - 1]))
    decreases j
  {
    hide Csr.Valid, Runs.More, Apart, EndsAt;
    RowBounds(m, i);
    if j <= m.rowPtr[i] + 1 {
      FirstApart(before, FirstColumn(m, i));
    } else {
      RowRunsApart(m, i, j - 1, before);
      RowAscends(m, i, j - 1);
      MoreApart(RowRuns(m, i, j - 1, before), m.colInd[j - 2], m.colInd[j - 1], |before.starts|);
    }
  }

  lemma FirstApart(before: Runs, col: nat)
    requires |before.starts| == |before.sizes|
    ensures var r := before.New(col);
            Apart(r, |before.starts|, |r.starts|) && EndsAt(r.starts, r.sizes, col)
                 && r.sizes[|r.sizes| - 1] <= BLOCK_MAX
  {
  }

  lemma MoreApart(r: Runs, prev: nat, col: nat, lo: nat)
    requires Apart(r, lo, |r.starts|) && EndsAt(r.starts, r.sizes, prev) && prev < col
         && r.sizes[|r.sizes| - 1] <= BLOCK_MAX
    ensures var s := r.More(prev, col);
            && Apart(s, lo, |s.starts|) && EndsAt(s.starts, s.sizes, col) && |s.starts| >= |r.starts|
                 && s.sizes[|s.sizes| - 1] <= BLOCK_MAX
  {
  }

  lemma {:induction false} AllRunsApart(m: Csr, i: nat, n: nat)
    requires m.Valid() && i < n <= m.nrows
    ensures |AllRuns(m, i).starts| <= |AllRuns(m, i + 1).starts|
    ensures Apart(AllRuns(m, n), |AllRuns(m, i).starts|, |AllRuns(m, i + 1).starts|)
    decreases n
  {
    hide RowRuns, Apart, Csr.Valid;
    RowBounds(m, n - 1);
    AllRunsSize(m, n - 1);
    if i == n - 1 {
      RowRunsApart(m, i, m.rowPtr[n], AllRuns(m, i));
    } else {
      AllRunsApart(m, i, n - 1);
      RowRunsBehind(m, n - 1, m.rowPtr[n], AllRuns(m, n - 1));
      StillApart(AllRuns(m, n - 1), AllRuns(m, n), |AllRuns(m, i).starts|, |AllRuns(m, i + 1).starts|);
    }
  }

  lemma StillApart(r: Runs, s: Runs, lo: nat, hi: nat)
    requires Apart(r, lo, hi) && |s.starts| == |s.sizes| >= |r.starts|
    requires s.starts[..|r.starts|] == r.starts && s.sizes[..|r.starts|] == r.sizes
    ensures Apart(s, lo, hi)
  {
    forall k {:trigger s.sizes[k]} | lo <= k && k + 1 < hi
      ensures s.sizes[k] == BLOCK_MAX || s.starts[k + 1] != s.starts[k] + s.sizes[k]
    {
      assert s.sizes[k] == r.sizes[k] && s.starts[k] == r.starts[k] && s.starts[k + 1] == r.starts[k + 1];
    }
  }

  class Builder {
    const bcolInd: array<nat>
    const bsize: array<nat>
    var nblocks: nat

    constructor (nz: nat)
      ensures bcolInd.Length == bsize.Length == nz && nblocks == 0 && fresh(bcolInd) && fresh(bsize) && bcolInd != bsize
    {
      bcolInd := new nat[nz];
      bsize := new nat[nz];
      nblocks := 0;
    }

    /** The closed blocks and the open ones. */
    ghost function Made(open: nat): Runs
      requires nblocks + open <= bcolInd.Length == bsize.Length
      reads this, bcolInd, bsize
    {
      Runs(bcolInd[..nblocks + open], bsize[..nblocks + open])
    }

    ghost predicate Room(m: Csr)
      reads this
    {
      bcolInd != bsize && bcolInd.Length == bsize.Length == |m.colInd| && nblocks <= |m.colInd|
    }

    /** Opens a block behind the closed ones. */
    method Open(m: Csr, col: nat)
      requires Room(m) && nblocks < bcolInd.Length
      modifies bcolInd, bsize
      ensures Made(1) == old(Made(0)).New(col)
    {
      ghost var before := Made(0);
      bcolInd[nblocks] := col;
      bsize[nblocks] := 1;
      assert Made(1).starts == before.starts + [col] && Made(1).sizes == before.sizes + [1];
    }

    /** One more element of a row. */
    method Add(m: Csr, colPrev: nat, col: nat)
      requires Room(m) && nblocks < bcolInd.Length && bsize[nblocks] <= BLOCK_MAX && colPrev < col
      requires |Made(1).More(colPrev, col).starts| <= |m.colInd|
      modifies this`nblocks, bcolInd, bsize
      ensures Room(m) && nblocks < bcolInd.Length && Made(1) == old(Made(1)).More(colPrev, col)
    {
      ghost var before := Made(1);
      assert before.sizes[|before.sizes| - 1] == bsize[nblocks];
      if col - colPrev == 1 {
        var newSize := bsize[nblocks] + 1;
        if newSize > BLOCK_MAX {
          bsize[nblocks] := BLOCK_MAX;
          nblocks := nblocks + 1;
          assert Made(0).sizes == before.sizes && Made(0).starts == before.starts;
          Open(m, col);
        } else {
          bsize[nblocks] := newSize;
          assert Made(1).sizes == before.sizes[|before.sizes| - 1 := newSize] && Made(1).starts == before.starts;
        }
      } else {
        nblocks := nblocks + 1;
        assert Made(0) == before;
        Open(m, col);
      }
    }

    /** Element j of row i, which is not the first one. */
    method AddNext(m: Csr, i: nat, j: nat, colPrev: nat)
      requires NoEmptyRows(m) && i < m.nrows && m.rowPtr[i] < j < m.rowPtr[i + 1] && Room(m) && nblocks < bcolInd.Length
      requires j < |m.colInd| && colPrev == m.colInd[j - 1] && Made(1) == RowRuns(m, i, j, AllRuns(m, i))
      modifies this`nblocks, bcolInd, bsize
      ensures Room(m) && nblocks < bcolInd.Length && Made(1) == RowRuns(m, i, j + 1, AllRuns(m, i))
    {
      hide NoEmptyRows, Csr.Valid, Runs.More, RowRuns, AllRuns;
      RowFilled(m, i);
      RowRunsMore(m, i, j, AllRuns(m, i));
      RowRoom(m, i, j);
      RowRoom(m, i, j + 1);
      RowAscends(m, i, j);
      assert Made(1).sizes[nblocks] == bsize[nblocks];
      Add(m, colPrev, m.colInd[j]);
    }

    /** Row i: a block is opened for its first element. */
    method AddRow(m: Csr, i: nat)
      requires NoEmptyRows(m) && i < m.nrows && Room(m) && Made(0) == AllRuns(m, i)
      modifies this`nblocks, bcolInd, bsize
      ensures Room(m) && Made(0) == AllRuns(m, i + 1)
    {
      hide NoEmptyRows, Csr.Valid, Runs.More, RowRuns;
      RowFilled(m, i);
      RowInside(m, i);
      ghost var before := AllRuns(m, i);
      assert AllRuns(m, i + 1) == RowRuns(m, i, m.rowPtr[i + 1], before);
      hide AllRuns;
      var colCurr := m.colInd[m.rowPtr[i]];
      RowRunsFirst(m, i, before);
      RowRoom(m, i, m.rowPtr[i] + 1);
      Open(m, colCurr);
      var j, colPrev := m.rowPtr[i], m.colInd[m.rowPtr[i]];
      while j < m.rowPtr[i + 1]
        invariant m.rowPtr[i] <= j <= m.rowPtr[i + 1] && Room(m) && nblocks < bcolInd.Length
        invariant colPrev == m.colInd[if j == m.rowPtr[i] then j else j - 1]
        invariant Made(1) == RowRuns(m, i, j, before)
      {
        colCurr := m.colInd[j];
        if j == m.rowPtr[i] {
          assert colCurr == colPrev;
        } else {
          AddNext(m, i, j, colPrev);
          colPrev := colCurr;
        }
        j := j + 1;
      }
      nblocks := nblocks + 1;
    }
  }

  lemma Small(m: Csr, starts: seq<nat>, sizes: seq<nat>, n: nat)
    requires Covers(m, starts, sizes, n)
    ensures |starts| == |sizes|
    ensures forall k :: 0 <= k < |sizes| ==> 1 <= sizes[k] <= BLOCK_MAX
  {
  }

  lemma RowInside(m: Csr, i: nat)
    requires m.Valid() && i < m.nrows && m.rowPtr[i] < m.rowPtr[i + 1]
    ensures |m.rowPtr| == m.nrows + 1 && m.rowPtr[i] < m.rowPtr[i + 1] <= |m.colInd|
  {
  }

  lemma RowAscends(m: Csr, i: nat, j: nat)
    requires m.Valid() && i < m.nrows && m.rowPtr[i] < j < m.rowPtr[i + 1]
    ensures j < |m.colInd| && m.colInd[j - 1] < m.colInd[j]
  {
  }

  lemma RowFilled(m: Csr, i: nat)
    requires NoEmptyRows(m) && i < m.nrows
    ensures m.Valid() && |m.rowPtr| == m.nrows + 1 && m.rowPtr[i] < m.rowPtr[i + 1]
  {
  }

  /** The runs of a row that is not empty fit the arrays, and are of the sizes allowed. */
  lemma RowRoom(m: Csr, i: nat, j: nat)
    requires NoEmptyRows(m) && i < m.nrows && m.rowPtr[i] < j <= m.rowPtr[i + 1]
    ensures var r := RowRuns(m, i, j, AllRuns(m, i));
            && |r.starts| == |r.sizes| <= j <= |m.colInd|
            && forall k :: 0 <= k < |r.sizes| ==> 1 <= r.sizes[k] <= BLOCK_MAX
  {
    hide Covers, RowRuns, AllRuns, Csr.Valid;
    var r := RowRuns(m, i, j, AllRuns(m, i));
    AllRunsCover(m, i);
    RowRunsCover(m, i, j, AllRuns(m, i));
    Small(m, r.starts, r.sizes, j);
    ExpandSize(r.starts, r.sizes);
    CoversSize(m, r.starts, r.sizes, j);
  }

  lemma CoversSize(m: Csr, starts: seq<nat>, sizes: seq<nat>, n: nat)
    requires Covers(m, starts, sizes, n)
    ensures |starts| == |sizes| && n <= |m.colInd| && |Expand(starts, sizes)| == n
  {
  }

  /** The runs stand for a matrix without empty rows. */
  lemma RunsStand(m: Csr, first: seq<nat>)
    requires NoEmptyRows(m) && |first| == m.nrows + 1
    requires forall k :: 0 <= k <= m.nrows ==> first[k] == |AllRuns(m, k).starts|
    ensures Stands(Vbl(m.nrows, m.rowPtr, m.values, AllRuns(m, m.nrows).starts, AllRuns(m, m.nrows).sizes), m, first)
  {
    hide Covers, RowRuns;
    var all := AllRuns(m, m.nrows);
    AllRunsCover(m, m.nrows);
    AllRunsPrefix(m, m.nrows, m.nrows);
    forall k | 0 <= k <= m.nrows
      ensures first[k] <= |all.starts| && Covers(m, all.starts[..first[k]], all.sizes[..first[k]], m.rowPtr[k])
    {
      AllRunsCover(m, k);
      AllRunsPrefix(m, k, m.nrows);
    }
  }

  lemma NoRuns(m: Csr)
    requires NoEmptyRows(m)
    ensures m.Valid() && AllRuns(m, 0) == Runs([], [])
  {
  }

  /** Builds the format; no more blocks than elements are ever written. */
  method InitCrs(m: Csr) returns (vbl: Vbl, ghost first: seq<nat>)
    requires NoEmptyRows(m)
    ensures Stands(vbl, m, first) && Runs(vbl.starts, vbl.sizes) == AllRuns(m, m.nrows)
    ensures forall i {:trigger first[i]} :: 0 <= i < m.nrows ==> Apart(Runs(vbl.starts, vbl.sizes), first[i], first[i + 1])
  {
    hide Csr.Valid, RowRuns, NoEmptyRows, AllRuns, Stands, Apart;
    NoRuns(m);
    var b := new Builder(|m.colInd|);
    first := [0];
    var i := 0;
    assert b.Made(0) == Runs([], []);
    while i < m.nrows
      invariant 0 <= i <= m.nrows && b.Room(m) && fresh(b) && fresh(b.bcolInd) && fresh(b.bsize)
      invariant m.Valid() && b.Made(0) == AllRuns(m, i)
      invariant |first| == i + 1 && forall k :: 0 <= k <= i ==> first[k] == |AllRuns(m, k).starts|
    {
      b.AddRow(m, i);
      first := first + [b.nblocks];
      i := i + 1;
    }
    vbl := Vbl(m.nrows, m.rowPtr, m.values, b.bcolInd[..b.nblocks], b.bsize[..b.nblocks]);
    RunsStand(m, first);
    forall k {:trigger first[k]} | 0 <= k < m.nrows
      ensures Apart(Runs(vbl.starts, vbl.sizes), first[k], first[k + 1])
    {
      AllRunsApart(m, k, m.nrows);
    }
  }

  // ----- The product

  /** Run b of the matrix: where its elements are, and that it ends with its row. */
  lemma RunAt(vbl: Vbl, m: Csr, b: nat, j: nat, e: nat, next: nat)
    requires |vbl.starts| == |vbl.sizes| && b <= |vbl.starts| && e <= |vbl.starts|
    requires Covers(m, vbl.starts[..b], vbl.sizes[..b], j) && Covers(m, vbl.starts[..e], vbl.sizes[..e], next)
    ensures j < next <==> b < e
    ensures j == next <==> b == e
    ensures b < e ==> && b < |vbl.starts| && j + vbl.sizes[b] <= next <= |m.colInd| && vbl.sizes[b] >= 1
                      && m.colInd[j..j + vbl.sizes[b]] == Run(vbl.starts[b], vbl.sizes[b])
                      && Covers(m, vbl.starts[..b + 1], vbl.sizes[..b + 1], j + vbl.sizes[b])
  {
    if b < e {
      RunInside(vbl, m, b, j, e, next);
    } else if e < b {
      RunInside(vbl, m, e, next, b, j);
    } else {
      assert |Expand(vbl.starts[..b], vbl.sizes[..b])| == j;
      assert |Expand(vbl.starts[..e], vbl.sizes[..e])| == next;
    }
  }

  lemma RunInside(vbl: Vbl, m: Csr, b: nat, j: nat, e: nat, next: nat)
    requires |vbl.starts| == |vbl.sizes| && b < e <= |vbl.starts|
    requires Covers(m, vbl.starts[..b], vbl.sizes[..b], j) && Covers(m, vbl.starts[..e], vbl.sizes[..e], next)
    ensures j + vbl.sizes[b] <= next <= |m.colInd| && vbl.sizes[b] >= 1
    ensures m.colInd[j..j + vbl.sizes[b]] == Run(vbl.starts[b], vbl.sizes[b])
    ensures Covers(m, vbl.starts[..b + 1], vbl.sizes[..b + 1], j + vbl.sizes[b])
  {
    hide Expand;
    var ss, zs := vbl.starts[..e], vbl.sizes[..e];
    ExpandSnoc(vbl.starts[..b], vbl.sizes[..b], vbl.starts[b], vbl.sizes[b]);
    assert vbl.starts[..b] + [vbl.starts[b]] == vbl.starts[..b + 1]
         && vbl.sizes[..b] + [vbl.sizes[b]] == vbl.sizes[..b + 1];
    ExpandPrefix(ss, zs, b + 1);
    assert ss[..b + 1] == vbl.starts[..b + 1] && zs[..b + 1] == vbl.sizes[..b + 1];
    var upto := Expand(vbl.starts[..b + 1], vbl.sizes[..b + 1]);
    assert upto <= m.colInd[..next] && |upto| == j + vbl.sizes[b];
    assert upto == m.colInd[..j + vbl.sizes[b]];
    SliceRight(m.colInd[..j], Run(vbl.starts[b], vbl.sizes[b]));
    assert upto == m.colInd[..j] + Run(vbl.starts[b], vbl.sizes[b]);
    assert m.colInd[j..j + vbl.sizes[b]] == upto[j..];
  }

  function At(s: seq<real>, i: nat): real {
    if i < |s| then s[i] else 0.0
  }

  /** The products of the elements k.. of a run, added to acc. */
  function RunFrom(values: seq<real>, x: seq<real>, j: nat, start: nat, k: nat, size: nat, acc: real): real
    decreases size - k
  {
    if k >= size then acc
    else RunFrom(values, x, j, start, k + 1, size, acc + Mul(At(values, j + k), At(x, start + k)))
  }

  /** What the product makes of the elements j.. of a row, with run b next: the sum, and
      the run that is next then. */
  function RowFrom(vbl: Vbl, x: seq<real>, b: nat, j: nat, end: nat, acc: real): (real, nat)
    decreases end - j
  {
    if j >= end || b >= |vbl.starts| || b >= |vbl.sizes| || vbl.sizes[b] == 0 then (acc, b)
    else RowFrom(vbl, x, b + 1, j + vbl.sizes[b], end, RunFrom(vbl.values, x, j, vbl.starts[b], 0, vbl.sizes[b], acc))
  }

  /** The first i rows of the product, whether or not the runs stand for a matrix. */
  function RowsFrom(vbl: Vbl, x: seq<real>, i: nat): (seq<real>, nat)
    requires i < |vbl.rowPtr|
  {
    if i == 0 then ([], 0)
    else
      var (ys, b) := RowsFrom(vbl, x, i - 1);
      var (yr, next) := RowFrom(vbl, x, b, vbl.rowPtr[i - 1], vbl.rowPtr[i], 0.0);
      (ys + [yr], next)
  }

  /** One run. */
  method MultiplyRun(vbl: Vbl, j: nat, start: nat, size: nat, x: seq<real>, yr0: real, ghost m: Csr,
                     ghost a: nat) returns (yr: real)
    requires m.Valid() && vbl.values == m.values && |x| >= m.ncols && a <= j && j + size <= |m.colInd|
    requires m.colInd[j..j + size] == Run(start, size)
    requires yr0 == m.Stretch(x, a, j)
    ensures yr == m.Stretch(x, a, j + size) && yr == RunFrom(vbl.values, x, j, start, 0, size, yr0)
  {
    hide Mul;
    yr := yr0;
    var k := 0;
    while k < size
      invariant 0 <= k <= size && yr == m.Stretch(x, a, j + k)
      invariant RunFrom(vbl.values, x, j, start, k, size, yr) == RunFrom(vbl.values, x, j, start, 0, size, yr0)
    {
      assert m.colInd[j..j + size][k] == m.colInd[j + k];
      yr := yr + Mul(vbl.values[j + k], x[start + k]);
      k := k + 1;
    }
  }

  /** One row; the runs go on where the row before ended. */
  method MultiplyRow(vbl: Vbl, i: nat, blockIdx0: nat, x: seq<real>, ghost m: Csr,
                     ghost first: seq<nat>) returns (yr: real, blockIdx: nat)
    requires m.Valid() && Stands(vbl, m, first) && |x| >= m.ncols && i < m.nrows && blockIdx0 == first[i]
    ensures yr == m.RowProduct(x, i) && blockIdx == first[i + 1]
    ensures (yr, blockIdx) == RowFrom(vbl, x, blockIdx0, vbl.rowPtr[i], vbl.rowPtr[i + 1], 0.0)
  {
    hide Covers, RunFrom;
    SameSize(vbl, m, |m.colInd|);
    yr := 0.0;
    var j := vbl.rowPtr[i];
    blockIdx := blockIdx0;
    while j < vbl.rowPtr[i + 1]
      invariant m.rowPtr[i] <= j <= m.rowPtr[i + 1] && blockIdx <= |vbl.starts|
      invariant Covers(m, vbl.starts[..blockIdx], vbl.sizes[..blockIdx], j)
      invariant yr == m.Stretch(x, m.rowPtr[i], j)
      invariant RowFrom(vbl, x, blockIdx, j, vbl.rowPtr[i + 1], yr)
             == RowFrom(vbl, x, blockIdx0, vbl.rowPtr[i], vbl.rowPtr[i + 1], 0.0)
    {
      RunAt(vbl, m, blockIdx, j, first[i + 1], m.rowPtr[i + 1]);
      yr := MultiplyRun(vbl, j, vbl.starts[blockIdx], vbl.sizes[blockIdx], x, yr, m, m.rowPtr[i]);
      j := j + vbl.sizes[blockIdx];
      blockIdx := blockIdx + 1;
    }
    RunAt(vbl, m, blockIdx, j, first[i + 1], m.rowPtr[i + 1]);
  }

  lemma SameSize(vbl: Vbl, m: Csr, n: nat)
    requires Covers(m, vbl.starts, vbl.sizes, n)
    ensures |vbl.starts| == |vbl.sizes|
  {
  }

  /** The product agrees with the row format. */
  method Multiply(vbl: Vbl, x: seq<real>, y: array<real>, ghost m: Csr, ghost first: seq<nat>)
    requires m.Valid() && Stands(vbl, m, first) && |x| >= m.ncols && y.Length >= m.nrows
    modifies y
    ensures forall i :: 0 <= i < m.nrows ==> y[i] == m.RowProduct(x, i)
    ensures y[..m.nrows] == RowsFrom(vbl, x, m.nrows).0
    ensures forall i :: m.nrows <= i < y.Length ==> y[i] == old(y[i])
  {
    hide Covers, RowFrom;
    var i, blockIdx := 0, 0;
    while i < vbl.nrows
      invariant 0 <= i <= m.nrows && blockIdx == first[i] && (y[..i], blockIdx) == RowsFrom(vbl, x, i)
      invariant forall k :: 0 <= k < i ==> y[k] == m.RowProduct(x, k)
      invariant forall k :: m.nrows <= k < y.Length ==> y[k] == old(y[k])
    {
      var yr;
      yr, blockIdx := MultiplyRow(vbl, i, blockIdx, x, m, first);
      y[i] := yr;
      assert y[..i + 1] == y[..i] + [yr];
      i := i + 1;
    }
  }

  // ----- An empty row

  /** Row 0 is empty, row 1 has the columns 0 and 1, row 2 has column 3. */
  ghost predicate EmptyFirst(m: Csr) {
    m == Csr(3, 4, [0, 0, 2, 3], [0, 1, 3], [1.0, 1.0, 1.0])
  }

  lemma EmptyFirstRows(m: Csr)
    requires EmptyFirst(m) && m.Valid()
    ensures RowRuns(m, 0, 0, Runs([], [])) == Runs([0], [1])
    ensures RowRuns(m, 1, 2, Runs([0], [1])) == Runs([0, 0], [1, 2])
    ensures RowRuns(m, 2, 3, Runs([0, 0], [1, 2])) == Runs([0, 0, 3], [1, 2, 1])
  {
    hide Csr.Valid;
    assert RowRuns(m, 1, 1, Runs([0], [1])) == Runs([0, 0], [1, 1]);
  }

  lemma EmptyFirstRuns(m: Csr)
    requires EmptyFirst(m) && m.Valid()
    ensures AllRuns(m, 3) == Runs([0, 0, 3], [1, 2, 1])
  {
    hide Csr.Valid, RowRuns;
    EmptyFirstRows(m);
    assert AllRuns(m, 0) == Runs([], []);
    assert AllRuns(m, 1) == Runs([0], [1]);
    assert AllRuns(m, 2) == Runs([0, 0], [1, 2]);
  }

  lemma EmptyFirstAscends(rowPtr: seq<nat>, colInd: seq<nat>)
    requires |rowPtr| == 4 && rowPtr[0] == 0 && rowPtr[1] == 0 && rowPtr[2] == 2 && rowPtr[3] == 3
    requires |colInd| == 3 && colInd[0] == 0 && colInd[1] == 1 && colInd[2] == 3
    ensures forall i, j :: 0 <= i <= j <= 3 ==> rowPtr[i] <= rowPtr[j]
    ensures forall i, k, l :: 0 <= i < 3 && rowPtr[i] <= k < l < rowPtr[i + 1] ==> colInd[k] < colInd[l]
  {
  }

  lemma EmptyFirstValid(m: Csr)
    requires EmptyFirst(m)
    ensures m.Valid() && !NoEmptyRows(m)
  {
    assert m.rowPtr[0] == m.rowPtr[1] == 0 && m.rowPtr[2] == 2 && m.rowPtr[3] == 3;
    EmptyFirstAscends(m.rowPtr, m.colInd);
  }

  lemma EmptyFirstRow(m: Csr, x: seq<real>)
    requires EmptyFirst(m) && x == [1.0, 2.0, 4.0, 8.0] && m.Valid()
    ensures m.RowProduct(x, 1) == 3.0
  {
    assert m.Stretch(x, 0, 0) == 0.0;
    assert m.Stretch(x, 0, 1) == 1.0;
    assert m.Stretch(x, 0, 2) == 3.0;
  }

  lemma EmptyFirstProduct(vbl: Vbl, x: seq<real>)
    requires vbl == Vbl(3, [0, 0, 2, 3], [1.0, 1.0, 1.0], [0, 0, 3], [1, 2, 1]) && x == [1.0, 2.0, 4.0, 8.0]
    ensures RowsFrom(vbl, x, 2) == ([0.0, 4.0], 2)
  {
    assert RunFrom(vbl.values, x, 0, 0, 1, 1, 1.0) == 1.0;
    assert RunFrom(vbl.values, x, 0, 0, 0, 1, 0.0) == 1.0;
    assert RunFrom(vbl.values, x, 1, 0, 2, 2, 4.0) == 4.0;
    assert RunFrom(vbl.values, x, 1, 0, 1, 2, 2.0) == 4.0;
    assert RunFrom(vbl.values, x, 1, 0, 0, 2, 1.0) == 4.0;
    assert RowFrom(vbl, x, 2, 3, 2, 4.0) == (4.0, 2);
    assert RowFrom(vbl, x, 1, 1, 2, 1.0) == (4.0, 2);
    assert RowFrom(vbl, x, 0, 0, 2, 0.0) == (4.0, 2);
    assert RowFrom(vbl, x, 0, 0, 0, 0.0) == (0.0, 0);
    assert [] + [0.0] == [0.0] && [0.0] + [4.0] == [0.0, 4.0];
    assert RowsFrom(vbl, x, 0) == ([], 0);
    assert RowsFrom(vbl, x, 1) == ([0.0], 0);
  }

  /** The run that row 0 opened becomes the first run of row 1: the product takes column 0
      twice, and a value of row 2. */
  lemma EmptyRowBreaks(m: Csr, vbl: Vbl, x: seq<real>)
    requires EmptyFirst(m) && x == [1.0, 2.0, 4.0, 8.0] && m.Valid()
    requires vbl == Vbl(m.nrows, m.rowPtr, m.values, AllRuns(m, 3).starts, AllRuns(m, 3).sizes)
    ensures |RowsFrom(vbl, x, 2).0| == 2 && RowsFrom(vbl, x, 2).0[1] == 4.0 && m.RowProduct(x, 1) == 3.0
  {
    hide AllRuns, Csr.Valid, Csr.RowProduct, RowsFrom, Csr.Stretch;
    EmptyFirstRuns(m);
    EmptyFirstRow(m, x);
    EmptyFirstProduct(vbl, x);
  }

  // ----- When the product is right

  /** What the builder makes of a matrix. */
  function Built(m: Csr): Vbl
    requires m.Valid()
  {
    Vbl(m.nrows, m.rowPtr, m.values, AllRuns(m, m.nrows).starts, AllRuns(m, m.nrows).sizes)
  }

  /** The first n rows of the row format's product. */
  ghost function RowsOf(m: Csr, x: seq<real>, n: nat): (ys: seq<real>)
    requires m.Valid() && n <= m.nrows && |x| >= m.ncols
    ensures |ys| == n && forall i :: 0 <= i < n ==> ys[i] == m.RowProduct(x, i)
  {
    seq(n, i requires 0 <= i < n => m.RowProduct(x, i))
  }

  /** Whatever the values are, the product is that of the row format for every x. */
  ghost predicate AlwaysRight(m: Csr)
    requires m.Valid()
  {
    forall values: seq<real>, x: seq<real> :: |values| == |m.values| && |x| == m.ncols ==>
      RowsFrom(Built(m.(values := values)), x, m.nrows).0 == RowsOf(m.(values := values), x, m.nrows)
  }

  /** All elements behind an empty row are in one column. */
  ghost predicate OneColumn(m: Csr) {
    forall e, k :: 0 <= e < m.nrows && e + 1 < |m.rowPtr| && m.rowPtr[e] == m.rowPtr[e + 1] && m.rowPtr[e] <= k < |m.colInd| ==>
      m.colInd[k] == m.colInd[m.rowPtr[e]]
  }

  /** A run that is where its elements are. */
  lemma {:induction false} RunFromIs(m: Csr, x: seq<real>, a: nat, j: nat, start: nat, k: nat, size: nat)
    requires m.Valid() && |x| >= m.ncols && a <= j && j + size <= |m.colInd| && k <= size
    requires m.colInd[j..j + size] == Run(start, size)
    ensures RunFrom(m.values, x, j, start, k, size, m.Stretch(x, a, j + k)) == m.Stretch(x, a, j + size)
    decreases size - k
  {
    hide Mul;
    if k < size {
      assert m.colInd[j..j + size][k] == m.colInd[j + k];
      RunFromIs(m, x, a, j, start, k + 1, size);
    }
  }

  /** The rest of a row whose runs are its columns. */
  lemma {:induction false} RowFromIs(vbl: Vbl, m: Csr, x: seq<real>, a: nat, b: nat, j: nat, e: nat, end: nat)
    requires m.Valid() && |x| >= m.ncols && vbl.values == m.values && a <= j <= end <= |m.colInd|
    requires |vbl.starts| == |vbl.sizes| && b <= |vbl.starts| && e <= |vbl.starts|
    requires Covers(m, vbl.starts[..b], vbl.sizes[..b], j) && Covers(m, vbl.starts[..e], vbl.sizes[..e], end)
    ensures RowFrom(vbl, x, b, j, end, m.Stretch(x, a, j)) == (m.Stretch(x, a, end), e)
    decreases end - j
  {
    hide Covers, RunFrom, Csr.Stretch;
    RunAt(vbl, m, b, j, e, end);
    if j < end {
      RunFromIs(m, x, a, j, vbl.starts[b], 0, vbl.sizes[b]);
      RowFromIs(vbl, m, x, a, b + 1, j + vbl.sizes[b], e, end);
    }
  }

  /** The rows before any empty row come out right. */
  lemma {:induction false} RowsBefore(m: Csr, x: seq<real>, i: nat)
    requires m.Valid() && |x| >= m.ncols && i <= m.nrows && forall r :: 0 <= r < i ==> m.rowPtr[r] < m.rowPtr[r + 1]
    ensures RowsFrom(Built(m), x, i) == (RowsOf(m, x, i), |AllRuns(m, i).starts|)
  {
    hide Covers, RowFrom, RowRuns, Csr.Stretch;
    if i > 0 {
      var vbl, a, b := Built(m), AllRuns(m, i - 1), AllRuns(m, i);
      RowsBefore(m, x, i - 1);
      AllRunsCover(m, i - 1);
      AllRunsCover(m, i);
      AllRunsPrefix(m, i - 1, m.nrows);
      AllRunsPrefix(m, i, m.nrows);
      NoStretch(m, x, m.rowPtr[i - 1]);
      RowFromIs(vbl, m, x, m.rowPtr[i - 1], |a.starts|, m.rowPtr[i - 1], |b.starts|, m.rowPtr[i]);
      assert RowsOf(m, x, i) == RowsOf(m, x, i - 1) + [m.RowProduct(x, i - 1)];
    }
  }

  lemma NoStretch(m: Csr, x: seq<real>, a: nat)
    requires m.Valid() && |x| >= m.ncols && a <= |m.colInd|
    ensures m.Stretch(x, a, a) == 0.0
  {
  }

  // ----- Behind an empty row

  /** Row e is the first empty one, and the elements behind it before k are in the column
      of the first of them. */
  ghost predicate Ones(m: Csr, e: nat, k: nat) {
    && m.Valid() && e < m.nrows && m.rowPtr[e] == m.rowPtr[e + 1] <= k <= |m.colInd|
    && (forall r :: 0 <= r < e ==> m.rowPtr[r] < m.rowPtr[r + 1])
    && forall l :: m.rowPtr[e] <= l < k ==> m.colInd[l] == m.colInd[m.rowPtr[e]]
  }

  lemma Ascending(m: Csr, r: nat)
    requires m.Valid() && r < m.nrows
    ensures m.rowPtr[r] <= m.rowPtr[r + 1] <= |m.colInd|
    ensures m.rowPtr[r] + 1 < m.rowPtr[r + 1] ==> m.colInd[m.rowPtr[r]] < m.colInd[m.rowPtr[r] + 1]
  {
  }

  /** Every row behind e that ends before k has one element at most. */
  lemma {:induction false} OnesCount(m: Csr, e: nat, k: nat, i: nat)
    requires Ones(m, e, k) && e < i <= m.nrows && m.rowPtr[i] <= k
    ensures m.rowPtr[e] <= m.rowPtr[i - 1] <= m.rowPtr[i] <= m.rowPtr[i - 1] + 1
    ensures m.rowPtr[i] < m.rowPtr[e] + (i - e)
  {
    if i > e + 1 {
      OnesCount(m, e, k, i - 1);
    }
    Ascending(m, i - 1);
  }

  /** The only run of row r, at its first column, is the r - e-th from run b on. */
  ghost predicate OneOf(m: Csr, runs: Runs, b: nat, e: nat, r: nat) {
    && e <= r < |m.rowPtr| && b + (r - e) < |runs.starts| == |runs.sizes|
    && runs.starts[b + (r - e)] == FirstColumn(m, r) && runs.sizes[b + (r - e)] == 1
  }

  /** Such a row has one run. */
  lemma {:induction false} OnesRuns(m: Csr, e: nat, k: nat, i: nat)
    requires Ones(m, e, k) && e <= i <= m.nrows && m.rowPtr[i] <= k
    ensures var a, b := AllRuns(m, e), AllRuns(m, i);
            && |a.starts| == |a.sizes| && |b.starts| == |b.sizes| == |a.starts| + (i - e)
            && forall r :: e <= r < i ==> OneOf(m, b, |a.starts|, e, r)
  {
    hide FirstColumn, Ones, AllRuns, Csr.Valid;
    OnesInside(m, e, k, i);
    if i == e {
      AllRunsPrefix(m, e, e);
    } else {
      OnesRuns(m, e, k, i - 1);
      OnesCount(m, e, k, i);
      OneRun(m, i);
      var a, b, c := AllRuns(m, e), AllRuns(m, i - 1), AllRuns(m, i);
      assert c.starts == b.starts + [FirstColumn(m, i - 1)] && c.sizes == b.sizes + [1];
      forall r | e <= r < i
        ensures OneOf(m, c, |a.starts|, e, r)
      {
        if r < i - 1 {
          assert OneOf(m, b, |a.starts|, e, r);
        }
      }
    }
  }

  lemma OneRun(m: Csr, i: nat)
    requires m.Valid() && 0 < i <= m.nrows && m.rowPtr[i] <= m.rowPtr[i - 1] + 1
    ensures AllRuns(m, i) == AllRuns(m, i - 1).New(FirstColumn(m, i - 1))
  {
  }

  lemma OnesInside(m: Csr, e: nat, k: nat, i: nat)
    requires Ones(m, e, k) && e <= i <= m.nrows && m.rowPtr[i] <= k
    ensures m.Valid() && |m.rowPtr| == m.nrows + 1 && (i > e ==> m.rowPtr[i - 1] <= m.rowPtr[i])
  {
  }

  lemma RowsInside(m: Csr, r: nat, i: nat)
    requires m.Valid() && r <= i <= m.nrows
    ensures m.rowPtr[r] <= m.rowPtr[i]
  {
  }

  /** The run that the element behind row e's t-th gets. */
  lemma OnesBuilt(m: Csr, e: nat, k: nat, i: nat, t: nat)
    requires Ones(m, e, k) && e < i <= m.nrows && m.rowPtr[i] <= k && t <= m.rowPtr[i] - m.rowPtr[e] && m.rowPtr[e] < k
    ensures var vbl, n := Built(m), |AllRuns(m, e).starts|;
            && |vbl.starts| == |vbl.sizes| && n + t < |vbl.starts|
            && vbl.starts[n + t] == m.colInd[m.rowPtr[e]] && vbl.sizes[n + t] == 1
  {
    hide AllRuns, FirstColumn, Ones;
    OnesInside(m, e, k, i);
    OnesRuns(m, e, k, i);
    OnesCount(m, e, k, i);
    AllRunsPrefix(m, i, m.nrows);
    var vbl, a, b := Built(m), AllRuns(m, e), AllRuns(m, i);
    RowsInside(m, e + t, i);
    OnesFirst(m, e, k, e + t);
    assert OneOf(m, b, |a.starts|, e, e + t);
    assert vbl.starts[..|b.starts|][|a.starts| + t] == FirstColumn(m, e + t);
    assert vbl.sizes[..|b.starts|][|a.starts| + t] == 1;
  }

  /** The rows that open those runs are not empty yet at k. */
  lemma OnesFirst(m: Csr, e: nat, k: nat, r: nat)
    requires Ones(m, e, k) && m.rowPtr[e] < k && e <= r < m.nrows && m.rowPtr[r] <= k && r - e <= k - m.rowPtr[e]
    ensures FirstColumn(m, r) == m.colInd[m.rowPtr[e]]
  {
    if r > e {
      OnesCount(m, e, k, r);
    }
    assert m.rowPtr[e] <= m.rowPtr[r] < |m.colInd|;
  }

  /** A row behind e that ends before k comes out right, though its run may be another
      row's. */
  lemma OnesRow(m: Csr, x: seq<real>, e: nat, k: nat, i: nat)
    requires Ones(m, e, k) && |x| >= m.ncols && e <= i < m.nrows && m.rowPtr[i + 1] <= k && m.rowPtr[e] <= m.rowPtr[i]
    ensures var n := |AllRuns(m, e).starts|;
            RowFrom(Built(m), x, n + (m.rowPtr[i] - m.rowPtr[e]), m.rowPtr[i], m.rowPtr[i + 1], 0.0)
              == (m.RowProduct(x, i), n + (m.rowPtr[i + 1] - m.rowPtr[e]))
  {
    hide AllRuns, Csr.Valid, Ones;
    OnesInside(m, e, k, i + 1);
    OnesCount(m, e, k, i + 1);
    var j, p, n, vbl := m.rowPtr[i], m.rowPtr[e], |AllRuns(m, e).starts|, Built(m);
    NoStretch(m, x, j);
    if j < m.rowPtr[i + 1] {
      OnesBuilt(m, e, k, i + 1, j - p);
      OnesColumn(m, e, k, j);
      assert RunFrom(m.values, x, j, m.colInd[p], 1, 1, Mul(m.values[j], x[m.colInd[p]]))
           == Mul(m.values[j], x[m.colInd[p]]);
      assert RunFrom(m.values, x, j, m.colInd[p], 0, 1, 0.0) == Mul(m.values[j], x[m.colInd[p]]);
      assert m.Stretch(x, j, j + 1) == Mul(m.values[j], x[m.colInd[p]]);
    }
  }

  lemma OnesColumn(m: Csr, e: nat, k: nat, l: nat)
    requires Ones(m, e, k) && m.rowPtr[e] <= l < k
    ensures l < |m.colInd| == |m.values| && m.colInd[l] == m.colInd[m.rowPtr[e]] < m.ncols
  {
  }

  /** All rows that end before k come out right. */
  lemma {:induction false} OnesRows(m: Csr, x: seq<real>, e: nat, k: nat, i: nat)
    requires Ones(m, e, k) && |x| >= m.ncols && e <= i <= m.nrows && m.rowPtr[i] <= k
    ensures m.rowPtr[e] <= m.rowPtr[i]
    ensures RowsFrom(Built(m), x, i) == (RowsOf(m, x, i), |AllRuns(m, e).starts| + (m.rowPtr[i] - m.rowPtr[e]))
  {
    hide RowFrom, AllRuns, Csr.Stretch;
    if i == e {
      RowsBefore(m, x, e);
    } else {
      RowsInside(m, i - 1, i);
      OnesRows(m, x, e, k, i - 1);
      OnesRow(m, x, e, k, i - 1);
      assert RowsOf(m, x, i) == RowsOf(m, x, i - 1) + [m.RowProduct(x, i - 1)];
    }
  }

  /** The element that is in another column gets a run of the first column. */
  lemma OnesNext(m: Csr, e: nat, k: nat, r: nat)
    requires Ones(m, e, k) && m.rowPtr[e] < k && e < r < m.nrows && m.rowPtr[r] <= k < m.rowPtr[r + 1]
    ensures m.rowPtr[e] <= m.rowPtr[r] && k <= m.rowPtr[r] + 1
    ensures var vbl, b := Built(m), |AllRuns(m, e).starts| + (k - m.rowPtr[e]);
            && |vbl.starts| == |vbl.sizes| && b < |vbl.starts|
            && vbl.starts[b] == m.colInd[m.rowPtr[e]] && vbl.sizes[b] >= 1
  {
    hide AllRuns, FirstColumn, RowRuns, Csr.Valid, Ones;
    OnesAtMost(m, e, k, r);
    OnesInside(m, e, k, r);
    OnesCount(m, e, k, r);
    var q := e + (k - m.rowPtr[e]);
    RowsInside(m, q, r);
    OnesRuns(m, e, k, q);
    OnesFirst(m, e, k, q);
    NextRuns(m, q);
    AllRunsPrefix(m, q + 1, m.nrows);
    var vbl, a, b := Built(m), AllRuns(m, q), AllRuns(m, q + 1);
    assert vbl.starts[..|b.starts|][|a.starts|] == FirstColumn(m, q);
    assert vbl.sizes[..|b.starts|][|a.starts|] >= 1;
  }

  lemma OnesAtMost(m: Csr, e: nat, k: nat, r: nat)
    requires Ones(m, e, k) && e < r < m.nrows && m.rowPtr[r] <= k < m.rowPtr[r + 1]
    ensures m.rowPtr[e] <= m.rowPtr[r] && k <= m.rowPtr[r] + 1
  {
    Ascending(m, r);
  }

  lemma NextRuns(m: Csr, q: nat)
    requires m.Valid() && q < m.nrows
    ensures var a, b := AllRuns(m, q), AllRuns(m, q + 1); var n := |a.starts|;
            && |b.starts| == |b.sizes| > n == |a.sizes|
            && b.starts[n] == FirstColumn(m, q) && b.sizes[n] >= 1
  {
    hide FirstColumn;
    AllRunsPrefix(m, q, q);
    RowRunsBehind(m, q, m.rowPtr[q + 1], AllRuns(m, q));
  }

  // ----- One value in the wrong column

  /** All values from j on are 0. */
  ghost predicate ZeroFrom(values: seq<real>, j: nat) {
    forall l {:trigger At(values, l)} :: j <= l ==> At(values, l) == 0.0
  }

  lemma {:induction false} ZeroRun(values: seq<real>, x: seq<real>, j: nat, start: nat, k: nat, size: nat, acc: real)
    requires ZeroFrom(values, j + k)
    ensures RunFrom(values, x, j, start, k, size, acc) == acc
    decreases size - k
  {
    if k < size {
      assert At(values, j + k) == 0.0;
      ZeroRun(values, x, j, start, k + 1, size, acc);
    }
  }

  lemma {:induction false} ZeroRow(vbl: Vbl, x: seq<real>, b: nat, j: nat, end: nat, acc: real)
    requires ZeroFrom(vbl.values, j)
    ensures RowFrom(vbl, x, b, j, end, acc).0 == acc
    decreases end - j
  {
    if !(j >= end || b >= |vbl.starts| || b >= |vbl.sizes| || vbl.sizes[b] == 0) {
      ZeroRun(vbl.values, x, j, vbl.starts[b], 0, vbl.sizes[b], acc);
      ZeroRow(vbl, x, b + 1, j + vbl.sizes[b], end, acc);
    }
  }

  lemma {:induction false} ZeroStretch(m: Csr, x: seq<real>, a: nat, b: nat)
    requires m.Valid() && |x| >= m.ncols && a <= b <= |m.colInd|
    requires forall l {:trigger m.colInd[l]} :: a <= l < b ==> m.values[l] == 0.0 || x[m.colInd[l]] == 0.0
    ensures m.Stretch(x, a, b) == 0.0
    decreases b
  {
    if a < b {
      ZeroStretch(m, x, a, b - 1);
      assert m.values[b - 1] == 0.0 || x[m.colInd[b - 1]] == 0.0;
    }
  }

  lemma {:induction false} RowStays(vbl: Vbl, x: seq<real>, r: nat, n: nat)
    requires r < n < |vbl.rowPtr|
    ensures |RowsFrom(vbl, x, r).0| == r && |RowsFrom(vbl, x, n).0| == n
    ensures RowsFrom(vbl, x, n).0[r]
         == RowFrom(vbl, x, RowsFrom(vbl, x, r).1, vbl.rowPtr[r], vbl.rowPtr[r + 1], 0.0).0
  {
    hide RowFrom;
    RowsCount(vbl, x, n - 1);
    RowsCount(vbl, x, r);
    if r < n - 1 {
      RowStays(vbl, x, r, n - 1);
    }
  }

  lemma {:induction false} RowsCount(vbl: Vbl, x: seq<real>, n: nat)
    requires n < |vbl.rowPtr|
    ensures |RowsFrom(vbl, x, n).0| == n
  {
    hide RowFrom;
    if n > 0 {
      RowsCount(vbl, x, n - 1);
    }
  }

  /** Only element k has a value, 1, and only the first column of the rows behind e. */
  ghost predicate Probe(m: Csr, x: seq<real>, c: nat, k: nat) {
    && m.Valid() && |x| == m.ncols && c < m.ncols && k < |m.values|
    && (forall l :: 0 <= l < |m.values| ==> m.values[l] == if l == k then 1.0 else 0.0)
    && forall l :: 0 <= l < m.ncols ==> x[l] == if l == c then 1.0 else 0.0
  }

  lemma ProbeRow(m: Csr, x: seq<real>, e: nat, k: nat, r: nat)
    requires Ones(m, e, k) && m.rowPtr[e] < k && e < r < m.nrows && m.rowPtr[r] <= k < m.rowPtr[r + 1]
    requires Probe(m, x, m.colInd[m.rowPtr[e]], k) && m.rowPtr[e] <= m.rowPtr[r]
    ensures RowFrom(Built(m), x, |AllRuns(m, e).starts| + (m.rowPtr[r] - m.rowPtr[e]), m.rowPtr[r], m.rowPtr[r + 1], 0.0).0
         == 1.0
  {
    hide AllRuns, Csr.Valid, Ones, RunFrom;
    OnesNext(m, e, k, r);
    OnesInside(m, e, k, r);
    OnesColumn(m, e, k, m.rowPtr[e]);
    var j, p, n, vbl, c := m.rowPtr[r], m.rowPtr[e], |AllRuns(m, e).starts|, Built(m), m.colInd[m.rowPtr[e]];
    var z := vbl.sizes[n + (k - p)];
    ProbeRun(m, x, c, k, z);
    ZeroRow(vbl, x, n + (k - p) + 1, k + z, m.rowPtr[r + 1], 1.0);
    assert RowFrom(vbl, x, n + (k - p), k, m.rowPtr[r + 1], 0.0).0 == 1.0;
    if j < k {
      OnesBuilt(m, e, k, r, j - p);
      ProbeBefore(m, x, c, k, j);
    }
  }

  lemma ProbeRun(m: Csr, x: seq<real>, c: nat, k: nat, z: nat)
    requires Probe(m, x, c, k) && z >= 1
    ensures RunFrom(m.values, x, k, c, 0, z, 0.0) == 1.0 && ZeroFrom(m.values, k + z)
  {
    hide Csr.Valid;
    assert Mul(At(m.values, k), At(x, c)) == 1.0;
    ZeroRun(m.values, x, k, c, 1, z, 1.0);
  }

  lemma ProbeBefore(m: Csr, x: seq<real>, c: nat, k: nat, j: nat)
    requires Probe(m, x, c, k) && j < k
    ensures RunFrom(m.values, x, j, c, 0, 1, 0.0) == 0.0
  {
    hide Csr.Valid;
    assert At(m.values, j) == 0.0;
    assert RunFrom(m.values, x, j, c, 1, 1, 0.0) == 0.0;
  }

  /** That element's row comes out as 1, where the row format has 0. */
  lemma ProbeWrong(m: Csr, x: seq<real>, e: nat, k: nat, r: nat)
    requires Ones(m, e, k) && m.rowPtr[e] < k && e < r < m.nrows && m.rowPtr[r] <= k < m.rowPtr[r + 1]
    requires Probe(m, x, m.colInd[m.rowPtr[e]], k) && m.colInd[k] != m.colInd[m.rowPtr[e]]
    ensures RowsFrom(Built(m), x, m.nrows).0 != RowsOf(m, x, m.nrows)
  {
    hide AllRuns, RowFrom, RowsFrom, Csr.Stretch;
    OnesRows(m, x, e, k, r);
    RowStays(Built(m), x, r, m.nrows);
    ProbeRow(m, x, e, k, r);
    ZeroStretch(m, x, m.rowPtr[r], m.rowPtr[r + 1]);
    assert RowsOf(m, x, m.nrows)[r] == m.RowProduct(x, r) == 0.0;
  }

  // ----- The exact condition

  /** The first empty row up to n. */
  lemma {:induction false} FirstEmpty(m: Csr, n: nat) returns (e: nat)
    requires m.Valid() && n < m.nrows && m.rowPtr[n] == m.rowPtr[n + 1]
    ensures e <= n && m.rowPtr[e] == m.rowPtr[e + 1] <= m.rowPtr[n]
         && forall r :: 0 <= r < e ==> m.rowPtr[r] < m.rowPtr[r + 1]
  {
    if r :| 0 <= r < n && m.rowPtr[r] >= m.rowPtr[r + 1] {
      assert m.rowPtr[r] <= m.rowPtr[r + 1] && m.rowPtr[r] <= m.rowPtr[n];
      e := FirstEmpty(m, r);
    } else {
      e := n;
    }
  }

  /** The row of element k, which is in row a or behind it. */
  lemma {:induction false} RowHolding(m: Csr, a: nat, k: nat, n: nat) returns (r: nat)
    requires m.Valid() && a < n <= m.nrows && m.rowPtr[a] <= k < m.rowPtr[n]
    ensures a <= r < n && m.rowPtr[r] <= k < m.rowPtr[r + 1]
  {
    if m.rowPtr[n - 1] <= k {
      r := n - 1;
    } else {
      r := RowHolding(m, a, k, n - 1);
    }
  }

  /** The first element from a on that is in another column than c. */
  lemma {:induction false} FirstOther(m: Csr, a: nat, c: nat, n: nat) returns (k: nat)
    requires a <= n < |m.colInd| && m.colInd[n] != c
    ensures a <= k <= n && m.colInd[k] != c && forall l :: a <= l < k ==> m.colInd[l] == c
  {
    if l :| a <= l < n && m.colInd[l] != c {
      k := FirstOther(m, a, c, l);
    } else {
      k := n;
    }
  }

  lemma RightIf(m: Csr, x: seq<real>)
    requires m.Valid() && OneColumn(m) && |x| >= m.ncols
    ensures RowsFrom(Built(m), x, m.nrows).0 == RowsOf(m, x, m.nrows)
  {
    hide AllRuns, RowsFrom, Csr.RowProduct;
    if n :| 0 <= n < m.nrows && m.rowPtr[n] == m.rowPtr[n + 1] {
      var e := FirstEmpty(m, n);
      assert Ones(m, e, |m.colInd|);
      OnesRows(m, x, e, |m.colInd|, m.nrows);
    } else {
      RowsBefore(m, x, m.nrows);
    }
  }

  lemma SizesAre(m: Csr)
    requires m.Valid()
    ensures |m.rowPtr| == m.nrows + 1 && m.rowPtr[m.nrows] == |m.colInd|
  {
  }

  lemma SomeOther(m: Csr) returns (n: nat, k: nat)
    requires m.Valid() && !OneColumn(m)
    ensures n < m.nrows && m.rowPtr[n] == m.rowPtr[n + 1] <= k < |m.colInd|
    ensures m.colInd[k] != m.colInd[m.rowPtr[n]]
  {
    hide Csr.Valid;
    n, k :| 0 <= n < m.nrows && n + 1 < |m.rowPtr| && m.rowPtr[n] == m.rowPtr[n + 1] && m.rowPtr[n] <= k < |m.colInd|
            && m.colInd[k] != m.colInd[m.rowPtr[n]];
  }

  /** The first element in another column than the one behind the first empty row. */
  lemma OtherColumn(m: Csr) returns (e: nat, k: nat, r: nat)
    requires m.Valid() && !OneColumn(m)
    ensures Ones(m, e, k) && m.rowPtr[e] < k && e < r < m.nrows && m.rowPtr[r] <= k < m.rowPtr[r + 1]
    ensures m.colInd[k] != m.colInd[m.rowPtr[e]]
  {
    hide Csr.Valid, OneColumn;
    SizesAre(m);
    var n, k0 := SomeOther(m);
    e := FirstEmpty(m, n);
    var c := m.colInd[m.rowPtr[e]];
    k := FirstOther(m, m.rowPtr[e], c, if m.colInd[k0] != c then k0 else m.rowPtr[n]);
    r := RowHolding(m, e + 1, k, m.nrows);
  }

  lemma WrongIf(m: Csr) returns (values: seq<real>, x: seq<real>)
    requires m.Valid() && !OneColumn(m)
    ensures |values| == |m.values| && |x| == m.ncols
    ensures RowsFrom(Built(m.(values := values)), x, m.nrows).0 != RowsOf(m.(values := values), x, m.nrows)
  {
    hide AllRuns, RowsFrom, Csr.RowProduct, OneColumn;
    var e, k, r := OtherColumn(m);
    var c := m.colInd[m.rowPtr[e]];
    values := seq(|m.values|, l requires 0 <= l < |m.values| => if l == k then 1.0 else 0.0);
    x := seq(m.ncols, l requires 0 <= l < m.ncols => if l == c then 1.0 else 0.0);
    var m' := m.(values := values);
    assert m'.Valid() && Ones(m', e, k) && Probe(m', x, c, k);
    ProbeWrong(m', x, e, k, r);
  }

  /** The product is right, whatever the values are and for every x, exactly when all
      elements behind an empty row are in one column. */
  lemma RightExactly(m: Csr)
    requires m.Valid()
    ensures AlwaysRight(m) <==> OneColumn(m)
  {
    hide AllRuns, RowsFrom, Csr.RowProduct;
    if OneColumn(m) {
      forall values: seq<real>, x: seq<real> | |values| == |m.values| && |x| == m.ncols
        ensures RowsFrom(Built(m.(values := values)), x, m.nrows).0 == RowsOf(m.(values := values), x, m.nrows)
      {
        var m' := m.(values := values);
        assert m'.Valid() && OneColumn(m');
        RightIf(m', x);
      }
    } else {
      var values, x := WrongIf(m);
    }
  }
}

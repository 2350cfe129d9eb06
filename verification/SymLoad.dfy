/** Loading a symmetric matrix in parts: the strictly lower triangle and the diagonal of
    some rows each; what lies above the diagonal is skipped.

    The kernel applies the diagonal of as many rows as the lower triangle has, so a part
    is only multiplied completely when the two agree.  `RowsAgree` says exactly when. */
module SymLoad {
  import opened Orders
  import opened Matrix
  import opened Products
  import opened Seqs
  import opened Reorder
  import opened SpmMatrix
  import opened Load

  /** The elements below the diagonal, ... */
  function LowOf(ps: seq<Coo>): seq<Coo> {
    if ps == [] then []
    else
      var l := ps[|ps| - 1];
      LowOf(ps[..|ps| - 1]) + if l.y > l.e.x then [l] else []
  }

  /** ... and those on it. */
  function DiagOf(ps: seq<Coo>): seq<Coo> {
    if ps == [] then []
    else
      var l := ps[|ps| - 1];
      DiagOf(ps[..|ps| - 1]) + if l.y == l.e.x then [l] else []
  }

  lemma Filters(ps: seq<Coo>, c: Coo)
    ensures LowOf(ps + [c]) == LowOf(ps) + if c.y > c.e.x then [c] else []
    ensures DiagOf(ps + [c]) == DiagOf(ps) + if c.y == c.e.x then [c] else []
  {
    Snoc(ps, c);
  }

  lemma {:induction false} FilterMembers(ps: seq<Coo>)
    ensures forall c :: c in LowOf(ps) <==> c in ps && c.y > c.e.x
    ensures forall c :: c in DiagOf(ps) <==> c in ps && c.y == c.e.x
  {
    if ps != [] {
      var n := |ps| - 1;
      FilterMembers(ps[..n]);
      assert ps == ps[..n] + [ps[n]];
    }
  }

  lemma {:induction false} FilterConcat(a: seq<Coo>, b: seq<Coo>)
    ensures LowOf(a + b) == LowOf(a) + LowOf(b) && DiagOf(a + b) == DiagOf(a) + DiagOf(b)
  {
    if b == [] {
      NilRight(a);
      NilRight(LowOf(a));
      NilRight(DiagOf(a));
    } else {
      var n := |b| - 1;
      ButLast(a, b);
      FilterConcat(a, b[..n]);
    }
  }

  lemma OrderSnoc(ps: seq<Coo>, c: Coo)
    requires InRowOrder(ps) && forall e :: e in ps ==> e.y <= c.y
    ensures InRowOrder(ps + [c])
  {
    assert forall i :: 0 <= i < |ps| ==> ps[i] in ps;
  }

  lemma {:induction false} LowOrder(ps: seq<Coo>)
    requires InRowOrder(ps)
    ensures InRowOrder(LowOf(ps))
  {
    if ps != [] {
      var n := |ps| - 1;
      LowOrder(ps[..n]);
      FilterMembers(ps[..n]);
      OrderSnoc(LowOf(ps[..n]), ps[n]);
      NilRight(LowOf(ps[..n]));
    }
  }

  /** The row of the last element below the diagonal; the first row when there is none. */
  function LastLow(ps: seq<Coo>, first: int): int {
    var low := LowOf(ps);
    if low == [] then first else low[|low| - 1].y
  }

  function Elements(ps: seq<Coo>): nat {
    |LowOf(ps)| + |DiagOf(ps)|
  }

  /** A part that begins with row `first` can end in front of element k: there are enough
      elements, and k is below the diagonal, in the row right behind the last one that had
      such an element. */
  ghost predicate CanStop(points: seq<Coo>, at: nat, k: nat, first: int, limit: nat)
    requires at <= k < |points|
  {
    && limit > 0 && Elements(points[at..k]) >= limit
    && points[k].y > points[k].e.x && points[k].y == LastLow(points[at..k], first) + 1
  }

  /** The stretch at..to of a part: it ends at the first place where it can, or with the
      input. */
  ghost predicate SymStops(points: seq<Coo>, at: nat, to: nat, first: int, limit: nat) {
    && at <= to <= |points|
    && (to < |points| ==> CanStop(points, at, to, first, limit))
    && forall k :: at <= k < to ==> !CanStop(points, at, k, first, limit)
  }

  /** The share of a part that begins at element `at`, when `ways` threads are left. */
  ghost function Share(points: seq<Coo>, n: nat, at: nat, ways: nat): nat
    requires at <= |points| && ways >= 1
  {
    var all, done := (|points| + n) / 2, Elements(points[..at]);
    if done <= all then Quot(all - done, ways) else 0
  }

  ghost predicate AreValues(vs: seq<real>, ps: seq<Coo>) {
    |vs| == |ps| && forall k {:trigger vs[k]} {:trigger ps[k]} :: 0 <= k < |vs| ==> ps[k].e.Single? && vs[k] == ps[k].e.val
  }

  /** The arrays of one part. */
  method SetElems(points: seq<Coo>, at: nat, first: int, limit: nat, cols: nat)
    returns (lower: Spm, diagonal: seq<real>, to: nat)
    requires at <= |points| && InRowOrder(points) && FromRow(points, at, first)
    requires forall k :: 0 <= k < |points| ==> points[k].e.Single?
    ensures SymStops(points, at, to, first, limit)
    ensures fresh(lower) && lower.Valid() && lower.order == Horizontal
         && lower.rows == BuildRows(LowOf(points[at..to]), first)
    ensures lower.dims == Dims(|lower.rows|, cols) && |lower.elems| == |LowOf(points[at..to])|
    ensures AreValues(diagonal, DiagOf(points[at..to]))
  {
    hide Flat, Ptrs, BuildRows, Padded, AddToLast, Canonical, Builder.Valid, LowOf, DiagOf, SymFilling;
    var bld := new Builder();
    FillingBegins(bld, first);
    var rowPrev := first;
    diagonal := [];
    to := at;
    assert points[at..at] == [];
    while to < |points|
      invariant at <= to <= |points| && fresh(bld)
      invariant rowPrev >= first
      invariant SymFilling(bld, points[at..to], first, rowPrev)
      invariant rowPrev == LastLow(points[at..to], first) && |bld.elems| + |diagonal| == Elements(points[at..to])
      invariant AreValues(diagonal, DiagOf(points[at..to]))
      invariant forall k :: at <= k < to ==> !CanStop(points, at, k, first, limit)
      decreases |points| - to
    {
      var row, col := points[to].y, points[to].e.x;
      assert points[at..to] + [points[to]] == points[at..to + 1];
      Filters(points[at..to], points[to]);
      NilRight(LowOf(points[at..to]));
      NilRight(DiagOf(points[at..to]));
      if row > col {
        if row != rowPrev && limit != 0 && |bld.elems| + |diagonal| >= limit && rowPrev == row - 1 {
          break;
        }
        LastLowBelow(points, at, to, first);
        PutLow(bld, points[at..to], first, rowPrev, points[to]);
        rowPrev := row;
      } else if row == col {
        SameLow(bld, points[at..to], points[at..to + 1], first, rowPrev);
        diagonal := diagonal + [points[to].e.val];
      } else {
        SameLow(bld, points[at..to], points[at..to + 1], first, rowPrev);
      }
      to := to + 1;
    }
    ghost var low := LowOf(points[at..to]);
    LowAscends(points, at, to, first);
    LastRowFilled(low, first);
    FilledRows(bld, points[at..to], first, rowPrev);
    BuiltRows(BuildRows(low, first), bld.rows);
    var es, ptr := bld.Finalize();
    lower := new Spm(es, ptr, Horizontal, Dims(|ptr| - 1, cols), BuildRows(low, first));
  }

  /** The builder while it takes the elements below the diagonal. */
  ghost predicate SymFilling(bld: Builder, ps: seq<Coo>, first: int, rowPrev: int)
    reads bld
  {
    && bld.Valid() && |bld.elems| == |LowOf(ps)| && rowPrev == LastLow(ps, first) >= first
    && |BuildRows(LowOf(ps), first)| == (if LowOf(ps) == [] then 0 else rowPrev - first + 1)
    && bld.rows == Padded(BuildRows(LowOf(ps), first), rowPrev - first + 1)
  }

  lemma FillingBegins(bld: Builder, first: int)
    requires bld.Valid() && bld.rows == [[]] && bld.elems == []
    ensures SymFilling(bld, [], first, first)
    ensures LowOf([]) == [] && DiagOf([]) == [] && LastLow([], first) == first
  {
    hide Builder.Valid;
    BuildNone(first);
    PadFirst();
  }

  lemma SameLow(bld: Builder, ps: seq<Coo>, qs: seq<Coo>, first: int, rowPrev: int)
    requires SymFilling(bld, ps, first, rowPrev) && LowOf(ps) == LowOf(qs)
    ensures SymFilling(bld, qs, first, rowPrev) && LastLow(qs, first) == LastLow(ps, first)
  {
    hide Builder.Valid, BuildRows, Padded, LowOf;
  }

  lemma LastLowBelow(points: seq<Coo>, at: nat, to: nat, first: int)
    requires at <= to < |points| && InRowOrder(points) && FromRow(points, at, first)
    ensures LastLow(points[at..to], first) <= points[to].y
  {
    var low := LowOf(points[at..to]);
    FilterMembers(points[at..to]);
    if low != [] {
      assert low[|low| - 1] in points[at..to];
    }
  }

  method PutLow(bld: Builder, ghost ps: seq<Coo>, ghost first: int, rowPrev: int, c: Coo)
    requires SymFilling(bld, ps, first, rowPrev) && rowPrev <= c.y && c.y > c.e.x
    modifies bld
    ensures SymFilling(bld, ps + [c], first, c.y) && |bld.elems| == old(|bld.elems|) + 1
  {
    hide Builder.Valid, BuildRows, Padded, AddToLast, LowOf;
    ghost var low := LowOf(ps);
    if c.y != rowPrev {
      bld.NewRow(c.y - rowPrev);
      PadMore(BuildRows(low, first), rowPrev - first + 1, c.y - rowPrev);
    }
    Filters(ps, c);
    Snoc(low, c);
    BuildOneMore(low + [c], |low|, first);
    Whole(low + [c]);
    bld.AllocElem(c.e);
    PadNothing(BuildRows(low + [c], first));
  }

  lemma FilledRows(bld: Builder, ps: seq<Coo>, first: int, rowPrev: int)
    requires SymFilling(bld, ps, first, rowPrev)
    ensures bld.Valid() && bld.rows == Padded(BuildRows(LowOf(ps), first), if BuildRows(LowOf(ps), first) == [] then 1 else |BuildRows(LowOf(ps), first)|)
  {
    hide Builder.Valid, BuildRows, Padded;
  }

  lemma LowAscends(points: seq<Coo>, at: nat, to: nat, first: int)
    requires at <= to <= |points| && InRowOrder(points) && FromRow(points, at, first)
    ensures forall i :: 0 <= i < |LowOf(points[at..to])| ==> LowOf(points[at..to])[i].y >= first
    ensures forall i, j :: 0 <= i < j < |LowOf(points[at..to])| ==> LowOf(points[at..to])[i].y <= LowOf(points[at..to])[j].y
  {
    var low := LowOf(points[at..to]);
    FilterMembers(points[at..to]);
    LowOrder(points[at..to]);
    forall i | 0 <= i < |low|
      ensures low[i].y >= first
    {
      assert low[i] in points[at..to];
    }
  }

  // ----- Rows of the triangle and of the diagonal

  /** Every row has its diagonal element. */
  ghost predicate FullDiagonal(points: seq<Coo>, n: nat) {
    |DiagOf(points)| == n && forall k {:trigger DiagOf(points)[k]} :: 0 <= k < n ==> DiagOf(points)[k].y == k + 1
  }

  /** Part of an input whose earlier parts had `start` rows. */
  ghost predicate SymPart(points: seq<Coo>, n: nat, at: nat, to: nat, start: nat, limit: nat) {
    && at <= |points| && InRowOrder(points) && FromRow(points, at, start + 1) && FullDiagonal(points, n)
    && |DiagOf(points[..at])| == start && SymStops(points, at, to, start + 1, limit)
  }

  lemma Split(points: seq<Coo>, at: nat, to: nat)
    requires at <= to <= |points|
    ensures DiagOf(points[..to]) == DiagOf(points[..at]) + DiagOf(points[at..to])
    ensures DiagOf(points) == DiagOf(points[..to]) + DiagOf(points[to..])
  {
    FilterConcat(points[..at], points[at..to]);
    Glue(points, at, to);
    FilterConcat(points[..to], points[to..]);
    Halves(points, to);
  }

  /** A part that an element ends holds the diagonal of all rows before that element's. */
  lemma DiagonalSoFar(points: seq<Coo>, n: nat, at: nat, to: nat, start: nat, limit: nat)
    requires SymPart(points, n, at, to, start, limit) && to < |points|
    requires forall k :: 0 <= k < to ==> points[k].y < points[to].y
    requires 1 <= points[to].y <= n
    ensures |DiagOf(points[..to])| == points[to].y - 1
  {
    hide SymStops;
    StopsInside(points, at, to, start + 1, limit);
    var before, after := DiagOf(points[..to]), DiagOf(points[to..]);
    Split(points, at, to);
    FilterMembers(points[..to]);
    FilterMembers(points[to..]);
    if before != [] {
      assert before[|before| - 1] in points[..to] && before[|before| - 1] == DiagOf(points)[|before| - 1];
    }
    if after != [] {
      assert after[0] in points[to..] && after[0] == DiagOf(points)[|before|];
    }
  }

  lemma StopsInside(points: seq<Coo>, at: nat, to: nat, first: int, limit: nat)
    requires SymStops(points, at, to, first, limit)
    ensures at <= to <= |points|
  {
  }

  /** A symmetric matrix of n rows: strictly in row order, every diagonal element there,
      as many elements above the diagonal as below. */
  ghost predicate SymInput(points: seq<Coo>, n: nat) {
    && Input(points, n) && (forall k :: 0 <= k < |points| ==> points[k].y <= n)
    && FullDiagonal(points, n) && 2 * Elements(points) == |points| + n
  }

  /** Everything before the element that ends a part is in earlier rows. */
  lemma Boundary(points: seq<Coo>, n: nat, at: nat, to: nat, start: nat, limit: nat)
    requires SymPart(points, n, at, to, start, limit) && to < |points| && Sorted(points)
    requires forall k :: 0 <= k < at ==> points[k].y <= start
    ensures forall k :: 0 <= k < to ==> points[k].y < points[to].y
  {
    hide SymStops, FullDiagonal;
    StopsInside(points, at, to, start + 1, limit);
    forall k | 0 <= k < to
      ensures points[k].y < points[to].y
    {
      assert Less(points[k].At(), points[to].At());
      if k >= at && points[k].y == points[to].y {
        StopsRow(points, at, to, start, limit, k);
      }
    }
  }

  /** The last element below the diagonal is in the row before. */
  lemma StopsRow(points: seq<Coo>, at: nat, to: nat, start: nat, limit: nat, k: nat)
    requires InRowOrder(points) && SymStops(points, at, to, start + 1, limit) && to < |points| && at <= k < to
    requires Less(points[k].At(), points[to].At())
    ensures points[k].y != points[to].y
  {
    var part := points[at..to];
    FilterMembers(part);
    LowOrder(part);
    var low := LowOf(part);
    if points[k].y > points[k].e.x {
      assert part[k - at] == points[k] && points[k] in low;
      var j :| 0 <= j < |low| && low[j] == points[k];
      assert low[j].y <= low[|low| - 1].y;
    }
  }

  /** What is left begins behind the rows whose diagonal was taken. */
  lemma NextSymPart(points: seq<Coo>, n: nat, at: nat, to: nat, start: nat, limit: nat)
    requires SymPart(points, n, at, to, start, limit) && SymInput(points, n)
    requires forall k :: 0 <= k < at ==> points[k].y <= start
    ensures at <= to <= |points|
    ensures var next := start + |DiagOf(points[at..to])|;
            && |DiagOf(points[..to])| == next && FromRow(points, to, next + 1)
            && (forall k :: 0 <= k < to ==> points[k].y <= next)
            && (to < |points| ==> points[to].y == next + 1) && (to == |points| ==> next == n)
  {
    hide SymStops, FullDiagonal, Elements;
    StopsInside(points, at, to, start + 1, limit);
    Split(points, at, to);
    if to < |points| {
      Boundary(points, n, at, to, start, limit);
      assert points[to].y <= n;
      DiagonalSoFar(points, n, at, to, start, limit);
    } else {
      Whole(points);
      DiagonalCount(points, n);
    }
  }

  lemma DiagonalCount(points: seq<Coo>, n: nat)
    requires FullDiagonal(points, n)
    ensures |DiagOf(points)| == n
  {
  }

  /** The kernel's condition, that a part has as many rows of the triangle as of the
      diagonal, holds exactly when its last row has an element below the diagonal.  An
      element that ends a part sees to that, unless the part is one row with nothing but
      its diagonal element. */
  lemma RowsAgree(points: seq<Coo>, n: nat, at: nat, to: nat, start: nat, limit: nat)
    requires SymPart(points, n, at, to, start, limit) && SymInput(points, n)
    requires forall k :: 0 <= k < at ==> points[k].y <= start
    ensures at <= to <= |points|
    ensures var part, rows := points[at..to], BuildRows(LowOf(points[at..to]), start + 1);
            var size := |DiagOf(part)|;
            && |rows| <= size
            && (|rows| == size <==> size == 0 || exists c :: c in LowOf(part) && c.y == start + size)
            && (to < |points| && LowOf(part) != [] ==> |rows| == size)
            && (to < |points| && LowOf(part) == [] ==> size == 1)
  {
    hide FullDiagonal, BuildRows, SymStops, Elements, Sorted;
    NextSymPart(points, n, at, to, start, limit);
    var part := points[at..to];
    var low := LowOf(part);
    LowAscends(points, at, to, start + 1);
    BuildLength(low, start + 1);
    FilterMembers(part);
    StopsThere(points, at, to, start, limit);
    if low != [] {
      HighestLow(low, part);
      var k :| 0 <= k < |part| && part[k] == low[|low| - 1];
      assert points[at + k] == low[|low| - 1];
    }
  }

  lemma HighestLow(low: seq<Coo>, part: seq<Coo>)
    requires low != [] && (forall c :: c in low ==> c in part) && forall i, j :: 0 <= i <= j < |low| ==> low[i].y <= low[j].y
    ensures low[|low| - 1] in part && forall c :: c in low ==> c.y <= low[|low| - 1].y
  {
    assert low[|low| - 1] in low;
  }

  lemma StopsThere(points: seq<Coo>, at: nat, to: nat, start: nat, limit: nat)
    requires SymStops(points, at, to, start + 1, limit)
    ensures to < |points| ==> points[to].y == LastLow(points[at..to], start + 1) + 1
  {
  }

  ghost predicate SymLoaded(lower: Spm, diagonal: seq<real>, points: seq<Coo>, at: nat, to: nat, start: nat, next: nat,
                            limit: nat, n: nat, ways: nat)
    reads lower
  {
    && at <= |points| && ways >= 1 && limit == Share(points, n, at, ways)
    && SymPart(points, n, at, to, start, limit) && (forall k :: 0 <= k < at ==> points[k].y <= start)
    && lower.Valid() && lower.order == Horizontal && lower.rows == BuildRows(LowOf(points[at..to]), start + 1)
    && lower.dims == Dims(|lower.rows|, n) && AreValues(diagonal, DiagOf(points[at..to])) && next == start + |diagonal|
  }

  /** Divides a symmetric matrix among nr parts: consecutive stretches of the input, rows
      without gap, every diagonal element in one part. */
  method LoadMt(points: seq<Coo>, n: nat, nr: nat)
    returns (lowers: seq<Spm>, diagonals: seq<seq<real>>, starts: seq<nat>, ghost cuts: seq<nat>,
             ghost limits: seq<nat>)
    requires nr >= 1 && SymInput(points, n)
    ensures |lowers| == |diagonals| == |limits| == nr && |starts| == |cuts| == nr + 1
    ensures starts[0] == cuts[0] == 0 && cuts[nr] == |points| && starts[nr] == n
    ensures forall i {:trigger lowers[i]} :: 0 <= i < nr ==>
              SymLoaded(lowers[i], diagonals[i], points, cuts[i], cuts[i + 1], starts[i], starts[i + 1], limits[i], n, nr - i)
    ensures forall i, j :: 0 <= i < j < nr ==> lowers[i] != lowers[j]
  {
    hide SymStops, BuildRows, Spm.Valid, FromRow, Quot, LowOf, DiagOf, FullDiagonal, AreValues, Sorted, SymLoaded, Input, InRowOrder, Elements;
    var nrNzeros := (|points| + n) / 2;
    lowers, diagonals, starts, cuts, limits := [], [], [0], [0], [];
    var cnt, rowStart := 0, 0;
    ghost var at := 0;
    var pos := 0;
    var i := 0;
    SymBegins(points, n);
    while i < nr
      invariant 0 <= i <= nr && |lowers| == |diagonals| == |limits| == i && |starts| == |cuts| == i + 1
           && starts[0] == cuts[0] == 0
      invariant pos == cuts[i] <= |points| && rowStart == starts[i] && cnt == Elements(points[..pos]) <= nrNzeros
      invariant (i == nr ==> pos == |points| && rowStart == n) && FromRow(points, pos, rowStart + 1) && |DiagOf(points[..pos])| == rowStart
      invariant forall k :: 0 <= k < pos ==> points[k].y <= rowStart
      invariant forall j {:trigger lowers[j]} :: 0 <= j < i ==>
                  SymLoaded(lowers[j], diagonals[j], points, cuts[j], cuts[j + 1], starts[j], starts[j + 1], limits[j], n, nr - j)
      invariant (forall j :: 0 <= j < i ==> fresh(lowers[j])) && forall j, k :: 0 <= j < k < i ==> lowers[j] != lowers[k]
    {
      var limit := Quot(nrNzeros - cnt, nr - i);
      assert limit == Share(points, n, pos, nr - i);
      InputIs(points, n);
      var lower, diagonal, to := SetElems(points, pos, rowStart + 1, limit, n);
      NextSymPart(points, n, pos, to, rowStart, limit);
      SameCount(diagonal, DiagOf(points[pos..to]));
      Counted(points, n, pos, to);
      CountedLow(points, pos, to, rowStart + 1);
      if i + 1 == nr {
        LastSymPart(points, n, pos, to, rowStart, limit);
      }
      IsLoaded(lower, diagonal, points, pos, to, rowStart, limit, n, nr - i);
      lowers, diagonals, limits := lowers + [lower], diagonals + [diagonal], limits + [limit];
      starts, cuts := starts + [rowStart + |diagonal|], cuts + [to];
      cnt := cnt + |lower.elems| + |diagonal|;
      rowStart := rowStart + |diagonal|;
      pos := to;
      i := i + 1;
    }
  }

  lemma SymBegins(points: seq<Coo>, n: nat)
    requires SymInput(points, n)
    ensures FromRow(points, 0, 1) && DiagOf(points[..0]) == [] && Elements(points[..0]) == 0
  {
    InputOrder(points, n);
    assert points[..0] == [];
  }

  lemma InputIs(points: seq<Coo>, n: nat)
    requires SymInput(points, n)
    ensures InRowOrder(points) && forall k :: 0 <= k < |points| ==> points[k].e.Single?
  {
    InputOrder(points, n);
  }

  lemma SameCount(vs: seq<real>, ps: seq<Coo>)
    requires AreValues(vs, ps)
    ensures |vs| == |ps|
  {
  }

  /** The count of elements goes on. */
  lemma Counted(points: seq<Coo>, n: nat, at: nat, to: nat)
    requires SymInput(points, n) && at <= to <= |points|
    ensures Elements(points[..to]) == Elements(points[..at]) + Elements(points[at..to])
    ensures Elements(points[..to]) <= Elements(points) == (|points| + n) / 2
  {
    FilterConcat(points[..at], points[at..to]);
    Glue(points, at, to);
    FilterConcat(points[..to], points[to..]);
    Halves(points, to);
  }

  lemma CountedLow(points: seq<Coo>, at: nat, to: nat, first: int)
    requires at <= to <= |points|
    ensures Elements(points[at..to]) == |LowOf(points[at..to])| + |DiagOf(points[at..to])|
  {
  }

  /** The last part's limit is all that is left, which an element that ends the part
      would belong to. */
  lemma LastSymPart(points: seq<Coo>, n: nat, at: nat, to: nat, start: nat, limit: nat)
    requires SymInput(points, n) && SymStops(points, at, to, start + 1, limit)
    requires Elements(points[..at]) <= Elements(points) && limit == Quot((|points| + n) / 2 - Elements(points[..at]), 1)
    ensures to == |points|
  {
    hide DiagOf, LowOf;
    Counted(points, n, at, to);
    if to < |points| {
      Counted(points, n, to, to + 1);
      assert points[to..to + 1] == [] + [points[to]];
      Filters([], points[to]);
    }
  }

  lemma IsLoaded(lower: Spm, diagonal: seq<real>, points: seq<Coo>, at: nat, to: nat, start: nat, limit: nat, n: nat,
                 ways: nat)
    requires at <= |points| && ways >= 1 && limit == Share(points, n, at, ways)
    requires SymPart(points, n, at, to, start, limit) && (forall k :: 0 <= k < at ==> points[k].y <= start)
    requires lower.Valid() && lower.order == Horizontal && lower.rows == BuildRows(LowOf(points[at..to]), start + 1)
    requires lower.dims == Dims(|lower.rows|, n) && AreValues(diagonal, DiagOf(points[at..to]))
    ensures SymLoaded(lower, diagonal, points, at, to, start, start + |diagonal|, limit, n, ways)
  {
    hide SymPart, Spm.Valid, BuildRows, LowOf, DiagOf, AreValues, Share;
  }

  // ----- A part the kernel does not finish

  /** Three rows; row 3 has its diagonal element and no other. */
  ghost predicate DiagonalLast(points: seq<Coo>) {
    points == [Coo(1, Single(1, 2.0)), Coo(1, Single(2, 1.0)), Coo(2, Single(1, 1.0)), Coo(2, Single(2, 2.0)), Coo(3, Single(3, 2.0))]
  }

  lemma DiagonalLastFilters(points: seq<Coo>)
    requires DiagonalLast(points)
    ensures LowOf(points) == [points[2]] && DiagOf(points) == [points[0], points[3], points[4]]
    ensures Elements(points[0..2]) == 1
  {
    hide LowOf, DiagOf;
    NoFilters();
    assert points[..0] == [] && points[0..2] == points[..2] && points[..5] == points;
    for k := 0 to 5
      invariant k >= 1 ==> DiagOf(points[..k]) == (if k < 4 then [points[0]] else if k < 5 then [points[0], points[3]] else [points[0], points[3], points[4]])
      invariant k == 0 ==> DiagOf(points[..k]) == []
      invariant LowOf(points[..k]) == if k < 3 then [] else [points[2]]
      invariant k >= 2 ==> Elements(points[..2]) == 1
    {
      Filters(points[..k], points[k]);
      assert points[..k] + [points[k]] == points[..k + 1];
    }
  }

  /** Loaded as one part, it has two rows below the diagonal and a diagonal of three. */
  lemma DiagonalLastBreaks(points: seq<Coo>)
    requires DiagonalLast(points)
    ensures SymInput(points, 3) && SymPart(points, 3, 0, |points|, 0, Share(points, 3, 0, 1))
    ensures |BuildRows(LowOf(points[0..|points|]), 1)| == 2 && |DiagOf(points[0..|points|])| == 3
  {
    hide LowOf, DiagOf, BuildRows;
    DiagonalLastFilters(points);
    assert points[0..|points|] == points && points[..0] == [];
    NoFilters();
    assert Share(points, 3, 0, 1) == 4;
    BuildLength(LowOf(points), 1);
  }

  lemma NoFilters()
    ensures LowOf([]) == [] && DiagOf([]) == []
  {
  }
}

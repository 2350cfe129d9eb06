/** How much a stretch of single elements adds to each entry of the statistics.

    `StretchCount` says it run by run and block by block; `StretchExact` shows that the
    statistics hold exactly that, so that nothing is recorded under another dimension. */
module StatsCount {
  import opened Orders
  import opened Products
  import opened Seqs
  import opened RowCodec
  import opened DrleStats
  import opened BlockColumns

  /** Elements and patterns recorded for one dimension. */
  datatype Share = Share(nnz: nat, np: nat)
  {
    function Plus(other: Share): Share {
      Share(nnz + other.nnz, np + other.np)
    }
  }

  const NOTHING := Share(0, 0)

  /** What the statistics hold for a dimension. */
  function ShareOf(s: Stats, dim: nat): Share {
    if s == [] then NOTHING
    else
      var l := s[|s| - 1];
      if l.dim == dim then ShareOf(s[..|s| - 1], dim).Plus(Share(l.nnz, l.np)) else ShareOf(s[..|s| - 1], dim)
  }

  lemma {:induction false} BumpShare(s: Stats, dim: nat, nnz: nat, np: nat, d: nat)
    ensures ShareOf(Bump(s, dim, nnz, np), d)
         == if d == dim then ShareOf(s, d).Plus(Share(nnz, np)) else ShareOf(s, d)
  {
    if s != [] {
      var init, l := s[..|s| - 1], s[|s| - 1];
      BumpShare(init, dim, nnz, np, d);
      Snoc(s, Stat(dim, nnz, np));
      Snoc(init, Stat(dim, l.nnz + nnz, l.np + np));
      Snoc(Bump(init, dim, nnz, np), l);
    }
  }

  // ----- Runs of a linear order

  /** The element before run k is still free: it belongs to no recorded run. */
  predicate TakesBefore(c: Config, rles: seq<Rle>, k: nat)
    requires k < |rles|
    decreases k, 0
  {
    !c.numa && k > 0 && !Recorded(c, rles, k - 1)
  }

  /** Run k is recorded: two steps or more, and `min` elements with the one before it when
      that is free. */
  predicate Recorded(c: Config, rles: seq<Rle>, k: nat)
    requires k < |rles|
    decreases k, 2
  {
    rles[k].freq >= 2 && Elements(c, rles, k) >= c.min
  }

  function Elements(c: Config, rles: seq<Rle>, k: nat): nat
    requires k < |rles|
    decreases k, 1
  {
    rles[k].freq + if TakesBefore(c, rles, k) then 1 else 0
  }

  /** The least number of patterns of at most `max` elements that hold n. */
  function PatternsFor(n: nat, max: nat): (np: nat)
    requires max >= 1
    ensures Times(np, max) >= n && forall m: nat {:trigger Times(m, max)} :: Times(m, max) >= n ==> np <= m
  {
    LeastPatterns(n, max);
    (n + max - 1) / max
  }

  lemma LeastPatterns(n: nat, max: nat)
    requires max >= 1
    ensures Times((n + max - 1) / max, max) >= n
    ensures forall m: nat {:trigger Times(m, max)} :: Times(m, max) >= n ==> (n + max - 1) / max <= m
  {
    var np := (n + max - 1) / max;
    assert n + max - 1 == np * max + (n + max - 1) % max;
    forall m: nat {:trigger Times(m, max)} | Times(m, max) >= n
      ensures np <= m
    {
      if m < np {
        MulMono(m + 1, np, max);
      }
    }
  }

  /** The code divides and adds one for a remainder. */
  lemma CeilIs(n: nat, max: nat)
    requires max >= 1
    ensures n / max + (if n % max != 0 then 1 else 0) == PatternsFor(n, max)
  {
    var q, m := n / max, n % max;
    assert n == q * max + m;
    if m == 0 {
      DivModUnique(n + max - 1, q, max - 1, max);
    } else {
      DivModUnique(n + max - 1, q + 1, m - 1, max);
    }
  }

  /** What the first k runs add to dimension d. */
  function RunsCount(c: Config, rles: seq<Rle>, k: nat, d: nat): Share
    requires k <= |rles| && c.max >= 1
  {
    if k == 0 then NOTHING
    else
      var rest := RunsCount(c, rles, k - 1, d);
      if rles[k - 1].val == d && Recorded(c, rles, k - 1)
      then rest.Plus(Share(Elements(c, rles, k - 1), PatternsFor(Elements(c, rles, k - 1), c.max)))
      else rest
  }

  lemma {:induction false} LinearExact(c: Config, stats: Stats, xs: seq<int>, rles: seq<Rle>, k: nat, d: nat)
    requires xs != [] && Increasing(xs) && rles == RunLengths(Deltas(xs)) && k <= |rles| && c.max >= 1
    ensures var l := LinearStats(c, stats, rles, k);
            && l.col >= k && (k == 0 ==> l.col == 0) && (l.last <==> k > 0 && Recorded(c, rles, k - 1))
            && ShareOf(l.stats, d) == ShareOf(stats, d).Plus(RunsCount(c, rles, k, d))
  {
    hide RunLengths, Deltas, Bump, ShareOf, PatternsFor;
    if k > 0 {
      LinearExact(c, stats, xs, rles, k - 1, d);
      RunPositive(xs, rles, k - 1);
      var l, r := LinearStats(c, stats, rles, k - 1), rles[k - 1];
      var nnz := Elements(c, rles, k - 1);
      assert Joins(c, l) <==> TakesBefore(c, rles, k - 1);
      CeilIs(nnz, c.max);
      BumpShare(l.stats, r.val, nnz, PatternsFor(nnz, c.max), d);
    }
  }

  // ----- Blocks

  /** Where w whole blocks stand side by side. */
  ghost function BlockPlaces(a: nat, xs: seq<int>, w: nat): set<int>
    requires a >= 1
  {
    set x | x in xs && MaxBlocks(a, xs, x, w)
  }

  /** The run has w whole blocks. */
  predicate HasBlocks(a: nat, xs: seq<int>, rles: seq<Rle>, k: nat, w: nat)
    requires a >= 1 && k < |rles|
  {
    rles[k].val == 1 && Offset(rles, k) <= |xs| && BlockCount(a, xs, Offset(rles, k), rles[k].freq) == w
  }

  /** The places found in the first k runs. */
  ghost function PlacesIn(a: nat, xs: seq<int>, rles: seq<Rle>, k: nat, w: nat): set<int>
    requires a >= 1 && k <= |rles|
  {
    set i | 0 <= i < k && HasBlocks(a, xs, rles, i, w) && Offset(rles, i) <= |xs| :: BlockStart(a, xs, Offset(rles, i))
  }

  lemma PlacesMore(a: nat, xs: seq<int>, rles: seq<Rle>, k: nat, w: nat)
    requires a >= 1 && 1 <= k <= |rles| && Offset(rles, k - 1) <= |xs|
    ensures PlacesIn(a, xs, rles, k, w)
         == PlacesIn(a, xs, rles, k - 1, w)
            + if HasBlocks(a, xs, rles, k - 1, w) then {BlockStart(a, xs, Offset(rles, k - 1))} else {}
  {
    hide HasBlocks, BlockStart, Offset;
    var p, q := PlacesIn(a, xs, rles, k, w), PlacesIn(a, xs, rles, k - 1, w);
    forall x | x in p
      ensures x in q || (HasBlocks(a, xs, rles, k - 1, w) && x == BlockStart(a, xs, Offset(rles, k - 1)))
    {
      var i :| 0 <= i < k && HasBlocks(a, xs, rles, i, w) && Offset(rles, i) <= |xs|
           && x == BlockStart(a, xs, Offset(rles, i));
    }
    forall x | x in q
      ensures x in p
    {
      var i :| 0 <= i < k - 1 && HasBlocks(a, xs, rles, i, w) && Offset(rles, i) <= |xs|
           && x == BlockStart(a, xs, Offset(rles, i));
    }
  }

  /** The blocks of a run begin before its last column, and not before the run before. */
  lemma PlaceBounds(a: nat, xs: seq<int>, rles: seq<Rle>, k: nat, w: nat)
    requires a >= 1 && Increasing(xs) && Tiles(rles, Deltas(xs)) && k < |rles| && HasBlocks(a, xs, rles, k, w) && w >= 2
    ensures Offset(rles, k) < Offset(rles, k + 1) <= |xs|
    ensures BlockStart(a, xs, Offset(rles, k)) < xs[Offset(rles, k + 1) - 1]
    ensures Offset(rles, k) > 0 ==> xs[Offset(rles, k) - 1] <= BlockStart(a, xs, Offset(rles, k))
  {
    hide Tiles, SkipFront, Available, BlockStart;
    var o, freq := Offset(rles, k), rles[k].freq;
    RunColumns(xs, rles, k);
    StartNear(a, xs, o, freq);
    MulMono(2, w, a);
  }

  lemma {:induction false} PlacesBefore(a: nat, xs: seq<int>, rles: seq<Rle>, k: nat, w: nat)
    requires a >= 1 && Increasing(xs) && Tiles(rles, Deltas(xs)) && k <= |rles| && w >= 2
    ensures Offset(rles, k) <= |xs|
    ensures forall x :: x in PlacesIn(a, xs, rles, k, w) ==> Offset(rles, k) > 0 && x < xs[Offset(rles, k) - 1]
  {
    hide Tiles, HasBlocks, BlockStart, PlacesIn;
    if k > 0 {
      PlacesBefore(a, xs, rles, k - 1, w);
      TilesAt(rles, Deltas(xs), k - 1);
      PlacesMore(a, xs, rles, k, w);
      if HasBlocks(a, xs, rles, k - 1, w) {
        PlaceBounds(a, xs, rles, k - 1, w);
      }
    } else {
      NoPlaces(a, xs, rles, w);
    }
  }

  lemma NoPlaces(a: nat, xs: seq<int>, rles: seq<Rle>, w: nat)
    requires a >= 1
    ensures PlacesIn(a, xs, rles, 0, w) == {} && BlocksShare(a, 0, w) == NOTHING
  {
  }

  /** All runs together have all the places. */
  lemma AllPlaces(a: nat, xs: seq<int>, rles: seq<Rle>, w: nat)
    requires a >= 1 && Increasing(xs) && Tiles(rles, Deltas(xs)) && w >= 2
    ensures PlacesIn(a, xs, rles, |rles|, w) == BlockPlaces(a, xs, w)
  {
    hide Tiles, MaxBlocks, BlockStart, BlockCount, Increasing, Deltas;
    forall x | x in PlacesIn(a, xs, rles, |rles|, w)
      ensures x in BlockPlaces(a, xs, w)
    {
      var i :| 0 <= i < |rles| && HasBlocks(a, xs, rles, i, w) && Offset(rles, i) <= |xs|
           && x == BlockStart(a, xs, Offset(rles, i));
      RunHasBlocks(a, xs, rles, i);
      TwoColumns(a, xs, x, w);
    }
    forall x | x in BlockPlaces(a, xs, w)
      ensures x in PlacesIn(a, xs, rles, |rles|, w)
    {
      var k := BlocksHaveRun(a, xs, rles, x, w);
      assert HasBlocks(a, xs, rles, k, w);
    }
  }

  /** What whole blocks add to dimension w: each stretch of w of them is one pattern. */
  ghost function BlocksShare(a: nat, places: nat, w: nat): Share {
    if w >= 2 then Share(Scale(places, Scale(w, a)), places) else NOTHING
  }

  /** The last column of a run. */
  lemma {:induction false} LastOfRun(xs: seq<int>, o: nat, n: nat, val: int)
    requires n >= 1 && o + n <= |xs| && forall i :: o <= i < o + n ==> Deltas(xs)[i] == val
    ensures xs[o + n - 1] == Before(xs, o) + val + Times(val, n - 1)
  {
    assert Deltas(xs)[o + n - 1] == val;
    if n > 1 {
      LastOfRun(xs, o, n - 1, val);
      TimesSucc(val, n - 2);
    } else {
      TimesZero(val);
    }
  }

  /** The share of dimension w grows by one pattern when the run has w whole blocks. */
  lemma BlockRunAdds(a: nat, b: Block, r: Rle, xs: seq<int>, rles: seq<Rle>, k: nat, w: nat)
    requires a >= 1 && k < |rles| && rles[k] == r && Offset(rles, k) <= |xs| && b.start == Before(xs, Offset(rles, k))
    ensures BlockRunStats(a, b, r).start == b.start + r.val + Times(r.val, r.freq - 1)
    ensures ShareOf(BlockRunStats(a, b, r).stats, w)
         == if HasBlocks(a, xs, rles, k, w) && w >= 2 then ShareOf(b.stats, w).Plus(Share(Scale(w, a), 1)) else ShareOf(b.stats, w)
  {
    hide Bump, ShareOf;
    var other := BlockElems(a, b.start + r.val, r.freq) / a;
    if r.val == 1 {
      assert other == BlockCount(a, xs, Offset(rles, k), r.freq);
      if other >= 2 {
        TimesNonNeg(other, a);
        BumpShare(b.stats, other, Times(other, a), 1, w);
      }
    }
  }

  /** A run with w whole blocks has one place more. */
  lemma PlacesGrow(a: nat, xs: seq<int>, rles: seq<Rle>, k: nat, w: nat)
    requires a >= 1 && Increasing(xs) && Tiles(rles, Deltas(xs)) && 1 <= k <= |rles|
    ensures BlocksShare(a, |PlacesIn(a, xs, rles, k, w)|, w)
         == var rest := BlocksShare(a, |PlacesIn(a, xs, rles, k - 1, w)|, w);
            if Offset(rles, k - 1) <= |xs| && HasBlocks(a, xs, rles, k - 1, w)
                 && w >= 2 then rest.Plus(Share(Scale(w, a), 1))
            else rest
  {
    hide Tiles, Deltas, HasBlocks, PlacesIn, BlockStart, Increasing;
    if w >= 2 {
      PlacesBefore(a, xs, rles, k - 1, w);
      PlacesMore(a, xs, rles, k, w);
      if HasBlocks(a, xs, rles, k - 1, w) {
        PlaceBounds(a, xs, rles, k - 1, w);
        assert BlockStart(a, xs, Offset(rles, k - 1)) !in PlacesIn(a, xs, rles, k - 1, w);
      }
    }
  }

  lemma {:induction false} BlockExact(a: nat, stats: Stats, xs: seq<int>, rles: seq<Rle>, k: nat, w: nat)
    requires a >= 1 && xs != [] && Increasing(xs) && rles == RunLengths(Deltas(xs)) && Tiles(rles, Deltas(xs))
         && k <= |rles|
    ensures Offset(rles, k) <= |xs| && BlockStats(a, stats, rles, k).start == Before(xs, Offset(rles, k))
    ensures ShareOf(BlockStats(a, stats, rles, k).stats, w)
         == ShareOf(stats, w).Plus(BlocksShare(a, |PlacesIn(a, xs, rles, k, w)|, w))
  {
    hide RunLengths, Tiles, Deltas, Bump, ShareOf, PlacesIn, Times, HasBlocks, BlocksShare, BlockRunStats;
    if k > 0 {
      BlockExact(a, stats, xs, rles, k - 1, w);
      TilesAt(rles, Deltas(xs), k - 1);
      var b, r := BlockStats(a, stats, rles, k - 1), rles[k - 1];
      LastOfRun(xs, Offset(rles, k - 1), r.freq, r.val);
      BlockRunAdds(a, b, r, xs, rles, k - 1, w);
      PlacesGrow(a, xs, rles, k, w);
    } else {
      NoPlaces(a, xs, rles, w);
    }
  }

  // ----- One stretch

  /** What a stretch of single elements adds to dimension d. */
  ghost function StretchCount(c: Config, xs: seq<int>, d: nat): Share
    requires c.max >= 1
  {
    if xs == [] then NOTHING
    else if c.order.Align() != 0 then BlocksShare(c.order.Align(), |BlockPlaces(c.order.Align(), xs, d)|, d)
    else RunsCount(c, RunLengths(Deltas(xs)), |RunLengths(Deltas(xs))|, d)
  }

  lemma StretchExact(c: Config, stats: Stats, xs: seq<int>, d: nat)
    requires c.max >= 1 && Increasing(xs)
    ensures ShareOf(StretchStats(c, stats, xs), d) == ShareOf(stats, d).Plus(StretchCount(c, xs, d))
  {
    hide ShareOf, RunLengths, Deltas, Tiles, PlacesIn, BlockPlaces, Increasing;
    if xs != [] {
      var rles := RunLengths(Deltas(xs));
      RunsTile(Deltas(xs));
      if c.order.Align() != 0 {
        BlockExact(c.order.Align(), stats, xs, rles, |rles|, d);
        if d >= 2 {
          AllPlaces(c.order.Align(), xs, rles, d);
        }
      } else {
        LinearExact(c, stats, xs, rles, |rles|, d);
      }
    }
  }

  // ----- What that means for the columns

  /** n equal steps d from position p on, and no more beside them. */
  ghost predicate StepRun(xs: seq<int>, p: nat, n: nat, d: int) {
    && RunAt(Deltas(xs), p, Rle(n, d))
    && (p > 0 ==> Deltas(xs)[p - 1] != d) && (p + n < |xs| ==> Deltas(xs)[p + n] != d)
  }

  /** Such a run is one of the runs of the encoding. */
  lemma RunFound(xs: seq<int>, rles: seq<Rle>, p: nat, n: nat, d: int) returns (k: nat)
    requires Tiles(rles, Deltas(xs)) && StepRun(xs, p, n, d)
    ensures k < |rles| && Offset(rles, k) == p && rles[k] == Rle(n, d)
  {
    hide Tiles, Deltas;
    TilesTotal(rles, Deltas(xs));
    k := RunOf(rles, |rles|, p);
    TilesAt(rles, Deltas(xs), k);
    var o, r := Offset(rles, k), rles[k];
    assert Deltas(xs)[p] == d && r.val == d;
    assert o >= p && o + r.freq <= p + n;
    if o + r.freq < p + n {
      NextRun(xs, rles, k);
    }
  }

  lemma {:induction false} RunIn(c: Config, rles: seq<Rle>, m: nat, k: nat)
    requires k < m <= |rles| && c.max >= 1 && rles[k].val >= 0 && Recorded(c, rles, k)
    ensures RunsCount(c, rles, m, rles[k].val).nnz >= Elements(c, rles, k)
    ensures RunsCount(c, rles, m, rles[k].val).np >= 1
  {
    hide Recorded, Elements, PatternsFor;
    if k < m - 1 {
      RunIn(c, rles, m - 1, k);
    } else {
      SomePattern(c, rles, k);
    }
  }

  lemma SomePattern(c: Config, rles: seq<Rle>, k: nat)
    requires k < |rles| && c.max >= 1 && Recorded(c, rles, k)
    ensures PatternsFor(Elements(c, rles, k), c.max) >= 1
  {
    hide Times, TakesBefore;
    TimesNone(c.max);
  }

  /** Every run of at least `min` equal steps, two or more, is recorded. */
  lemma LongRunCounts(c: Config, xs: seq<int>, p: nat, n: nat, d: nat)
    requires c.max >= 1 && Increasing(xs) && c.order.Align() == 0 && StepRun(xs, p, n, d) && n >= 2 && n >= c.min
    ensures StretchCount(c, xs, d).nnz >= n && StretchCount(c, xs, d).np >= 1
  {
    hide Tiles, Deltas, RunLengths, Increasing;
    RunsTile(Deltas(xs));
    var rles := RunLengths(Deltas(xs));
    var k := RunFound(xs, rles, p, n, d);
    RunIn(c, rles, |rles|, k);
  }

  /** One step less is enough when the steps before it are too few to be recorded: then the
      column before the run is counted as well. */
  lemma RunWithColumnBefore(c: Config, xs: seq<int>, p: nat, n: nat, d: nat, q: nat, m: nat, e: int)
    requires c.max >= 1 && Increasing(xs) && c.order.Align() == 0 && !c.numa
    requires StepRun(xs, p, n, d) && n >= 2 && n + 1 >= c.min
    requires StepRun(xs, q, m, e) && q + m == p && (m < 2 || m + 1 < c.min)
    ensures StretchCount(c, xs, d).nnz >= n + 1 && StretchCount(c, xs, d).np >= 1
  {
    hide Tiles, Deltas, RunLengths, Increasing;
    RunsTile(Deltas(xs));
    var rles := RunLengths(Deltas(xs));
    var k := RunFound(xs, rles, p, n, d);
    var j := RunFound(xs, rles, q, m, e);
    if j + 1 < |rles| {
      TilesAt(rles, Deltas(xs), j + 1);
    }
    SameRun(rles, j, k);
    TooShort(c, rles, j);
    TakesFree(c, rles, k);
    RunIn(c, rles, |rles|, k);
  }

  lemma TooShort(c: Config, rles: seq<Rle>, j: nat)
    requires j < |rles| && (rles[j].freq < 2 || rles[j].freq + 1 < c.min)
    ensures !Recorded(c, rles, j)
  {
    hide TakesBefore;
  }

  lemma TakesFree(c: Config, rles: seq<Rle>, k: nat)
    requires 0 < k < |rles| && !c.numa && !Recorded(c, rles, k - 1) && rles[k].freq >= 2 && rles[k].freq + 1 >= c.min
    ensures Elements(c, rles, k) == rles[k].freq + 1 && Recorded(c, rles, k)
  {
    assert TakesBefore(c, rles, k);
  }

  lemma SameRun(rles: seq<Rle>, j: nat, k: nat)
    requires j < |rles| && k < |rles| && Offset(rles, j) + rles[j].freq == Offset(rles, k) && rles[j].freq >= 1
    requires j + 1 < |rles| ==> rles[j + 1].freq >= 1
    ensures k == j + 1
  {
    if k <= j {
      RunEnds(rles, k, j);
    } else if k > j + 1 {
      RunEnds(rles, j + 2, k);
    }
  }

  /** Whole blocks side by side, two or more, are recorded. */
  lemma BlocksCount(c: Config, xs: seq<int>, x: int, w: nat)
    requires c.max >= 1 && Increasing(xs) && c.order.Align() != 0 && MaxBlocks(c.order.Align(), xs, x, w) && w >= 2
    ensures StretchCount(c, xs, w).nnz >= Scale(w, c.order.Align()) && StretchCount(c, xs, w).np >= 1
  {
    var a := c.order.Align();
    TwoColumns(a, xs, x, w);
    assert x in BlockPlaces(a, xs, w);
    MulMono(1, |BlockPlaces(a, xs, w)|, Scale(w, a));
  }

  // ----- What passes, and what cutting blocks keeps

  /** The entry holds at least this part of the nonzeros. */
  predicate Enough(e: Stat, nonzeros: nat, minPerc: real) {
    nonzeros == 0 || e.nnz as real >= minPerc * nonzeros as real
  }

  lemma PassesIs(e: Stat, nonzeros: nat, minPerc: real)
    ensures Passes(e, nonzeros, minPerc) <==> Enough(e, nonzeros, minPerc)
  {
    if nonzeros != 0 {
      var n, q := nonzeros as real, e.nnz as real / nonzeros as real;
      assert q * n == e.nnz as real;
      RealMono(minPerc, q, n);
    }
  }

  lemma RealMono(a: real, b: real, n: real)
    requires n > 0.0
    ensures b >= a <==> b * n >= a * n
  {
    if b >= a {
      assert (b - a) * n >= 0.0;
    } else {
      assert (a - b) * n > 0.0;
    }
  }

  /** t is the largest dimension that fits into `dim` and holds enough, 0 when none does. */
  ghost predicate IsTarget(limited: Stats, dim: nat, t: nat, nonzeros: nat, minPerc: real) {
    && (t > 0 ==> t <= dim && exists e :: e in limited && e.dim == t && Enough(e, nonzeros, minPerc))
    && forall e :: e in limited && t < e.dim <= dim ==> !Enough(e, nonzeros, minPerc)
  }

  lemma {:induction false} TargetIs(s: Stats, n: nat, dim: nat, nonzeros: nat, minPerc: real)
    requires n <= |s| && Ascending(s) && forall i :: 0 <= i < |s| ==> s[i].dim >= 1
    ensures IsTarget(s[..n], dim, Target(s, n, dim, nonzeros, minPerc), nonzeros, minPerc)
  {
    hide Passes, Enough;
    if n > 0 {
      var l := s[n - 1];
      TargetIs(s, n - 1, dim, nonzeros, minPerc);
      PassesIs(l, nonzeros, minPerc);
      assert s[..n] == s[..n - 1] + [l];
      forall e | e in s[..n - 1]
        ensures e.dim < l.dim
      {
        var i :| 0 <= i < n - 1 && s[i] == e;
        AscendingAt(s, i, n - 1);
      }
    }
  }

  /** Each of the np stretches of an entry is cut into blocks of t block columns; what is
      left of it is a block when it has two columns or more. */
  function CutShare(align: nat, e: Stat, t: nat, d: nat): Share
    requires t >= 1
  {
    var q, rest := Quot(e.dim, t), e.dim % t;
    (if d == t then Share(Scale(align, Scale(t, Scale(q, e.np))), Scale(q, e.np)) else NOTHING)
    .Plus(if rest >= 2 && d == rest then Share(Scale(align, Scale(rest, e.np)), e.np) else NOTHING)
  }

  lemma DecomposeShare(acc: Stats, align: nat, e: Stat, t: nat, d: nat)
    requires align >= 1 && 1 <= t <= e.dim && Blocky(align)(e)
    ensures ShareOf(Decompose(acc, e, t), d) == ShareOf(acc, d).Plus(CutShare(align, e, t, d))
  {
    hide *;
    BlockyDim(align, e);
    var q, m, u := Quot(e.dim, t), e.dim % t, Quot(e.nnz, e.dim);
    var nnz, np := Scale(Scale(q, u), t), Scale(q, e.np);
    var first := if d == t then Share(nnz, np) else NOTHING;
    var second := if m >= 2 && d == m then Share(Scale(u, m), e.np) else NOTHING;
    QuotSmall(e.dim, t);
    DecomposeIs(acc, e, t);
    CutShareIs(align, e, t, d);
    BumpShare(acc, t, nnz, np, d);
    PlusMore(ShareOf(acc, d), first, second);
    if m >= 2 {
      BumpShare(Bump(acc, t, nnz, np), m, Scale(u, m), e.np, d);
    }
  }

  lemma QuotSmall(dim: nat, t: nat)
    requires 1 <= t <= dim
    ensures Quot(dim, t) >= 1 && 0 <= dim % t < t
  {
  }

  lemma PlusMore(a: Share, b: Share, c: Share)
    ensures a.Plus(b).Plus(c) == a.Plus(b.Plus(c)) && a.Plus(NOTHING) == a && a.Plus(b).Plus(NOTHING) == a.Plus(b)
  {
  }

  lemma BlockyDim(align: nat, e: Stat)
    requires Blocky(align)(e)
    ensures e.dim >= 1
  {
  }

  lemma DecomposeIs(acc: Stats, e: Stat, t: nat)
    requires 1 <= t <= e.dim
    ensures var q, m, u := Quot(e.dim, t), e.dim % t, Quot(e.nnz, e.dim);
            var cut := Bump(acc, t, Scale(Scale(q, u), t), Scale(q, e.np));
            Decompose(acc, e, t) == if m >= 2 then Bump(cut, m, Scale(u, m), e.np) else cut
  {
    hide Bump, Scale;
  }

  lemma CutShareIs(align: nat, e: Stat, t: nat, d: nat)
    requires align >= 1 && 1 <= t <= e.dim && Blocky(align)(e)
    ensures var q, m, u := Quot(e.dim, t), e.dim % t, Quot(e.nnz, e.dim);
            CutShare(align, e, t, d)
            == (if d == t then Share(Scale(Scale(q, u), t), Scale(q, e.np)) else NOTHING)
               .Plus(if m >= 2 && d == m then Share(Scale(u, m), e.np) else NOTHING)
  {
    hide Times, Scale;
    var q, m := Quot(e.dim, t), e.dim % t;
    CutParts(align, e, t);
    TimesScale(align, t, Scale(q, e.np));
    TimesScale(align, m, e.np);
  }

  lemma TimesScale(a: nat, b: nat, c: nat)
    ensures Times(a, Times(b, c)) == Scale(a, Scale(b, c))
  {
  }

  /** What entries k.. give dimension d when each is cut to its target. */
  function CutsCount(align: nat, s: Stats, targets: seq<nat>, k: nat, d: nat): Share
    requires |targets| == |s| && k <= |s|
    decreases |s| - k
  {
    if k == |s| then NOTHING
    else
      var rest := CutsCount(align, s, targets, k + 1, d);
      if targets[k] == 0 then rest else rest.Plus(CutShare(align, s[k], targets[k], d))
  }

  /** Every entry of the corrected statistics is what cutting gives. */
  lemma {:induction false} RedistributedExact(s: Stats, limited: Stats, nonzeros: nat, minPerc: real, align: nat,
                                              targets: seq<nat>, k: nat, d: nat)
    requires |targets| == |s| && k <= |s| && align >= 1 && Each(s, Blocky(align))
    requires forall i :: 0 <= i < |s| ==> targets[i] == Target(limited, |limited|, s[i].dim, nonzeros, minPerc) <= s[i].dim
    ensures ShareOf(Redistributed(s, limited, nonzeros, minPerc, k), d) == CutsCount(align, s, targets, k, d)
    decreases |s| - k
  {
    hide Bump, ShareOf, Times, Scale, Target, Decompose, CutShare, Blocky;
    if k < |s| {
      RedistributedExact(s, limited, nonzeros, minPerc, align, targets, k + 1, d);
      EachAt(s, Blocky(align), k);
      WholePositive(align, s[k]);
      if targets[k] >= 1 {
        DecomposeShare(Redistributed(s, limited, nonzeros, minPerc, k + 1), align, s[k], targets[k], d);
      }
    } else {
      NothingHeld(d);
    }
  }

  lemma NothingHeld(d: nat)
    ensures ShareOf([], d) == NOTHING
  {
  }

  /** Not cut: the entry as it is. */
  lemma UncutShare(align: nat, e: Stat, d: nat)
    requires align >= 1 && Blocky(align)(e)
    ensures e.dim >= 1 && CutShare(align, e, e.dim, d) == if d == e.dim then Share(e.nnz, e.np) else NOTHING
  {
    hide *;
    BlockyNnz(align, e);
    WholeQuot(e.dim);
    CutShareFor(align, e, e.dim, d, 1, 0);
    ScaleOne(e.np);
    PlusMore(if d == e.dim then Share(e.nnz, e.np) else NOTHING, NOTHING, NOTHING);
  }

  lemma BlockyNnz(align: nat, e: Stat)
    requires Blocky(align)(e)
    ensures e.dim >= 1 && e.nnz == Scale(align, Scale(e.dim, e.np))
  {
  }

  lemma WholeQuot(n: nat)
    requires n >= 1
    ensures Quot(n, n) == 1 && n % n == 0
  {
    DivModUnique(n, 1, 0, n);
  }

  lemma CutShareFor(align: nat, e: Stat, t: nat, d: nat, q: nat, rest: nat)
    requires t >= 1 && q == Quot(e.dim, t) && rest == e.dim % t
    ensures CutShare(align, e, t, d)
         == (if d == t then Share(Scale(align, Scale(t, Scale(q, e.np))), Scale(q, e.np)) else NOTHING)
            .Plus(if rest >= 2 && d == rest then Share(Scale(align, Scale(rest, e.np)), e.np) else NOTHING)
  {
    hide Scale, Quot;
  }

  lemma ScaleOne(n: nat)
    ensures Scale(1, n) == n
  {
  }

  /** The first step cuts what is above the limit to it. */
  lemma {:induction false} LimitedExact(s: Stats, align: nat, max: nat, limits: seq<nat>, k: nat, d: nat)
    requires |limits| == |s| && k <= |s| && 1 <= align <= max && Each(s, Blocky(align))
    requires forall i :: 0 <= i < |s| ==> limits[i] == if s[i].dim > Quot(max, align) then Quot(max, align) else s[i].dim
    ensures ShareOf(Limited(s, align, max, k), d) == CutsCount(align, s, limits, k, d)
    decreases |s| - k
  {
    hide *;
    if k < |s| {
      var acc, e := Limited(s, align, max, k + 1), s[k];
      LimitedExact(s, align, max, limits, k + 1, d);
      EachAt(s, Blocky(align), k);
      WholePositive(align, e);
      DimAtLeast(align, max);
      OverLimit(e.dim, align, max);
      LimitedStep(s, align, max, k);
      CutsStep(align, s, limits, k, d);
      if Times(e.dim, align) > max {
        DecomposeShare(acc, align, e, Quot(max, align), d);
      } else {
        UncutShare(align, e, d);
        BumpShare(acc, e.dim, e.nnz, e.np, d);
        PlusMore(ShareOf(acc, d), NOTHING, NOTHING);
      }
    } else {
      NothingHeld(d);
      NothingCut(s, align, max, limits, d);
    }
  }

  lemma LimitedStep(s: Stats, align: nat, max: nat, k: nat)
    requires k < |s| && 1 <= align <= max && s[k].dim >= 1
    ensures Quot(max, align) >= 1
    ensures Limited(s, align, max, k)
         == if Times(s[k].dim, align) > max then Decompose(Limited(s, align, max, k + 1), s[k], Quot(max, align))
            else Bump(Limited(s, align, max, k + 1), s[k].dim, s[k].nnz, s[k].np)
  {
    hide Bump, Times, Decompose;
    DimAtLeast(align, max);
  }

  lemma CutsStep(align: nat, s: Stats, targets: seq<nat>, k: nat, d: nat)
    requires |targets| == |s| && k < |s|
    ensures CutsCount(align, s, targets, k, d)
         == if targets[k] == 0 then CutsCount(align, s, targets, k + 1, d)
            else CutsCount(align, s, targets, k + 1, d).Plus(CutShare(align, s[k], targets[k], d))
  {
    hide CutShare;
  }

  lemma NothingCut(s: Stats, align: nat, max: nat, targets: seq<nat>, d: nat)
    requires |targets| == |s| && 1 <= align <= max
    ensures Limited(s, align, max, |s|) == [] && CutsCount(align, s, targets, |s|, d) == NOTHING
  {
  }

  /** Correcting block statistics: first every stretch is cut to the limit; then each entry
      is cut to the largest dimension that fits it and holds enough after the first step,
      and is dropped when there is none. */
  lemma CorrectedExact(s: Stats, align: nat, max: nat, nonzeros: nat, minPerc: real)
    returns (limited: Stats, limits: seq<nat>, targets: seq<nat>)
    requires 1 <= align <= max && Each(s, Blocky(align))
    ensures |limits| == |targets| == |s| && Ascending(limited) && Each(limited, Blocky(align))
    ensures forall i :: 0 <= i < |s| ==> limits[i] == if s[i].dim > Quot(max, align) then Quot(max, align) else s[i].dim
    ensures forall d :: ShareOf(limited, d) == CutsCount(align, s, limits, 0, d)
    ensures forall i :: 0 <= i < |s| ==> IsTarget(limited, s[i].dim, targets[i], nonzeros, minPerc)
    ensures forall d :: ShareOf(Corrected(s, align, max, nonzeros, minPerc), d) == CutsCount(align, s, targets, 0, d)
  {
    hide Limited, Redistributed, Target, Enough, Each, Blocky, ShareOf, CutsCount, Ascending, Quot;
    limited := Limited(s, align, max, 0);
    var lim, m, n := limited, Quot(max, align), |limited|;
    LimitedOk(s, align, max, 0);
    AllPositive(align, limited);
    limits := seq(|s|, i requires 0 <= i < |s| => if s[i].dim > m then m else s[i].dim);
    targets := seq(|s|, i requires 0 <= i < |s| => Target(lim, n, s[i].dim, nonzeros, minPerc));
    forall i | 0 <= i < |s|
      ensures IsTarget(limited, s[i].dim, targets[i], nonzeros, minPerc) && targets[i] <= s[i].dim
    {
      TargetIs(limited, n, s[i].dim, nonzeros, minPerc);
      Whole(limited);
      TargetOk(limited, n, s[i].dim, nonzeros, minPerc, align, m);
    }
    forall d
      ensures ShareOf(limited, d) == CutsCount(align, s, limits, 0, d)
      ensures ShareOf(Corrected(s, align, max, nonzeros, minPerc), d) == CutsCount(align, s, targets, 0, d)
    {
      LimitedExact(s, align, max, limits, 0, d);
      RedistributedExact(s, limited, nonzeros, minPerc, align, targets, 0, d);
    }
  }

  lemma AllPositive(align: nat, s: Stats)
    requires Each(s, Blocky(align))
    ensures forall i :: 0 <= i < |s| ==> s[i].dim >= 1
  {
    hide Each, Blocky;
    forall i | 0 <= i < |s|
      ensures s[i].dim >= 1
    {
      EachAt(s, Blocky(align), i);
      WholePositive(align, s[i]);
    }
  }

  // ----- The whole list from its shares

  /** Every entry stands for a pattern. */
  function Filled(): Stat -> bool {
    (e: Stat) => e.np >= 1
  }

  /** Nothing is held beyond the last entry. */
  lemma {:induction false} BeyondLast(s: Stats, d: nat)
    requires Ascending(s) && (s != [] ==> d > s[|s| - 1].dim)
    ensures ShareOf(s, d) == NOTHING
  {
    if s != [] {
      BeyondLast(s[..|s| - 1], d);
    }
  }

  lemma LastShare(s: Stats)
    requires Ascending(s) && s != [] && Each(s, Filled())
    ensures var init, l := s[..|s| - 1], s[|s| - 1];
            && Ascending(init) && Each(init, Filled()) && l.np >= 1
            && ShareOf(s, l.dim) == Share(l.nnz, l.np) && ShareOf(init, l.dim) == NOTHING
            && forall d: nat :: d != l.dim ==> ShareOf(init, d) == ShareOf(s, d)
  {
    BeyondLast(s[..|s| - 1], s[|s| - 1].dim);
  }

  /** Two ascending lists that hold the same for every dimension are the same: the counts
      determine the statistics. */
  lemma {:induction false} SharesDetermine(a: Stats, b: Stats)
    requires Ascending(a) && Ascending(b) && Each(a, Filled()) && Each(b, Filled())
    requires forall d: nat :: ShareOf(a, d) == ShareOf(b, d)
    ensures a == b
    decreases |a|
  {
    hide Ascending, Each, ShareOf;
    NothingHeldAnywhere(a);
    NothingHeldAnywhere(b);
    assert HoldsNothing(a) <==> HoldsNothing(b);
    if a != [] && b != [] {
      var l, m := a[|a| - 1], b[|b| - 1];
      LastShare(a);
      LastShare(b);
      if l.dim > m.dim {
        BeyondLast(b, l.dim);
      } else if m.dim > l.dim {
        BeyondLast(a, m.dim);
      }
      SharesDetermine(a[..|a| - 1], b[..|b| - 1]);
      assert a == a[..|a| - 1] + [l] && b == b[..|b| - 1] + [m];
    }
  }

  ghost predicate HoldsNothing(s: Stats) {
    forall d: nat :: ShareOf(s, d) == NOTHING
  }

  lemma NothingHeldAnywhere(s: Stats)
    requires Ascending(s) && Each(s, Filled())
    ensures s == [] <==> HoldsNothing(s)
  {
    if s != [] {
      LastShare(s);
    }
  }
}

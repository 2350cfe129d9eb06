/** Statistics: how many elements, in how many patterns, each run delta (or second
    block dimension) would encode.

    `NeverOvercounts` says that a stretch never records more elements than it has;
    `Corrected` redistributes blocks that are too large without inventing elements. */
module DrleStats {
  import opened Orders
  import opened Products
  import opened Seqs
  import opened RowCodec
  import opened RowEncoder

  /** `dim` is the run delta, or the second dimension of a block. */
  datatype Stat = Stat(dim: nat, nnz: nat, np: nat)

  /** Statistics in ascending order of `dim`. */
  type Stats = seq<Stat>

  predicate Ascending(s: Stats) {
    |s| > 1 ==> Ascending(s[..|s| - 1]) && s[|s| - 2].dim < s[|s| - 1].dim
  }

  function Nnz(s: Stats): nat {
    if s == [] then 0 else Nnz(s[..|s| - 1]) + s[|s| - 1].nnz
  }

  function Patterns(s: Stats): nat {
    if s == [] then 0 else Patterns(s[..|s| - 1]) + s[|s| - 1].np
  }

  /** Adds to the entry of `dim`, which is created when there is none. */
  function Bump(s: Stats, dim: nat, nnz: nat, np: nat): Stats {
    if s == [] then [Stat(dim, nnz, np)]
    else
      var init, l := s[..|s| - 1], s[|s| - 1];
      if l.dim < dim then s + [Stat(dim, nnz, np)]
      else if l.dim == dim then init + [Stat(dim, l.nnz + nnz, l.np + np)]
      else Bump(init, dim, nnz, np) + [l]
  }

  lemma {:induction false} BumpDims(s: Stats, dim: nat, nnz: nat, np: nat)
    requires Ascending(s)
    ensures var r := Bump(s, dim, nnz, np);
            && Ascending(r) && r != []
            && r[|r| - 1].dim == if s == [] || s[|s| - 1].dim < dim then dim else s[|s| - 1].dim
  {
    if s != [] {
      var init, l := s[..|s| - 1], s[|s| - 1];
      if l.dim < dim {
        Snoc(s, Stat(dim, nnz, np));
      } else if l.dim == dim {
        Snoc(init, Stat(dim, l.nnz + nnz, l.np + np));
      } else {
        BumpDims(init, dim, nnz, np);
        Snoc(Bump(init, dim, nnz, np), l);
      }
    }
  }

  lemma {:induction false} BumpTotals(s: Stats, dim: nat, nnz: nat, np: nat)
    ensures Nnz(Bump(s, dim, nnz, np)) == Nnz(s) + nnz
    ensures Patterns(Bump(s, dim, nnz, np)) == Patterns(s) + np
  {
    if s != [] {
      var init, l := s[..|s| - 1], s[|s| - 1];
      BumpTotals(init, dim, nnz, np);
      Snoc(s, Stat(dim, nnz, np));
      Snoc(init, Stat(dim, l.nnz + nnz, l.np + np));
      Snoc(Bump(init, dim, nnz, np), l);
    }
  }

  /** What holds of every entry, and of what is added to one, still holds. */
  predicate Each(s: Stats, ok: Stat -> bool) {
    s != [] ==> Each(s[..|s| - 1], ok) && ok(s[|s| - 1])
  }

  /** A property of entries that survives adding two entries of the same dimension. */
  ghost predicate Additive(ok: Stat -> bool) {
    forall a: Stat, b: Stat :: AddsUp(ok, a, b)
  }

  ghost predicate AddsUp(ok: Stat -> bool, a: Stat, b: Stat) {
    ok(a) && ok(b) && a.dim == b.dim ==> ok(Stat(a.dim, a.nnz + b.nnz, a.np + b.np))
  }

  lemma {:induction false} BumpEach(s: Stats, dim: nat, nnz: nat, np: nat, ok: Stat -> bool)
    requires Each(s, ok) && Additive(ok) && ok(Stat(dim, nnz, np))
    ensures Each(Bump(s, dim, nnz, np), ok)
  {
    if s != [] {
      var init, l := s[..|s| - 1], s[|s| - 1];
      if l.dim < dim {
        Snoc(s, Stat(dim, nnz, np));
      } else if l.dim == dim {
        Snoc(init, Stat(dim, l.nnz + nnz, l.np + np));
        assert AddsUp(ok, l, Stat(dim, nnz, np));
      } else {
        BumpEach(init, dim, nnz, np, ok);
        Snoc(Bump(init, dim, nnz, np), l);
      }
    }
  }

  // ----- Linear orders

  /** `col` grows with every run, `last` says whether the run before was recorded. */
  datatype Linear = Linear(stats: Stats, col: int, last: bool)

  /** The element before the run would join its pattern. */
  predicate Joins(c: Config, l: Linear) {
    !c.numa && l.col != 0 && !l.last
  }

  function LinearRun(c: Config, l: Linear, r: Rle): Linear
    requires c.max >= 1
  {
    var limit := if Joins(c, l) then c.min - 1 else c.min;
    var nnz := if Joins(c, l) then r.freq + 1 else r.freq;
    if r.freq > 1 && r.freq >= limit && r.val >= 0
    then Linear(Bump(l.stats, r.val, nnz, nnz / c.max + (if nnz % c.max != 0 then 1 else 0)), l.col + r.val, true)
    else Linear(l.stats, l.col + r.val, false)
  }

  function LinearStats(c: Config, stats: Stats, rles: seq<Rle>, k: nat): Linear
    requires k <= |rles| && c.max >= 1
  {
    if k == 0 then Linear(stats, 0, false) else LinearRun(c, LinearStats(c, stats, rles, k - 1), rles[k - 1])
  }

  // ----- Block orders

  datatype Block = Block(stats: Stats, start: int)

  /** Elements of a run that lie in whole block columns. */
  function BlockElems(align: nat, start: int, freq: nat): nat
    requires align >= 1
  {
    var skip0 := (start - 2) % align;
    var skip := if start == 1 then 0 else if skip0 != 0 then align - skip0 else 0;
    var n := if start == 1 then freq else freq + 1;
    if n > skip then n - skip else 0
  }

  function BlockRunStats(align: nat, b: Block, r: Rle): Block
    requires align >= 1
  {
    var start := b.start + r.val;
    var other := BlockElems(align, start, r.freq) / align;
    var stats := if r.val == 1 && other >= 2 then Bump(b.stats, other, Times(other, align), 1) else b.stats;
    Block(stats, start + Times(r.val, r.freq - 1))
  }

  function BlockStats(align: nat, stats: Stats, rles: seq<Rle>, k: nat): Block
    requires k <= |rles| && align >= 1
  {
    if k == 0 then Block(stats, 0) else BlockRunStats(align, BlockStats(align, stats, rles, k - 1), rles[k - 1])
  }

  /** The statistics after one more stretch of single elements. */
  function StretchStats(c: Config, stats: Stats, xs: seq<int>): Stats
    requires c.max >= 1
  {
    if xs == [] then stats
    else
      var rles := RunLengths(Deltas(xs));
      if c.order.Align() != 0 then BlockStats(c.order.Align(), stats, rles, |rles|).stats
      else LinearStats(c, stats, rles, |rles|).stats
  }

  // ----- The methods

  method UpdateStatsBlock(xs: seq<int>, stats: Stats, align: nat) returns (r: Stats)
    requires align >= 1 && xs != []
    ensures r == BlockStats(align, stats, RunLengths(Deltas(xs)), |RunLengths(Deltas(xs))|).stats
  {
    hide RunLengths, Deltas, Bump, Times;
    var deltas := DeltaEncode(xs);
    var rles := RLEncode(deltas);
    r := stats;
    var unitStart, k := 0, 0;
    while k < |rles|
      invariant 0 <= k <= |rles|
      invariant Block(r, unitStart) == BlockStats(align, stats, rles, k)
    {
      var rle := rles[k];
      unitStart := unitStart + rle.val;
      if rle.val == 1 {
        var nrElem, skipFront := 0, 0;
        if unitStart == 1 {
          nrElem := rle.freq;
        } else {
          skipFront := (unitStart - 2) % align;
          if skipFront != 0 {
            skipFront := align - skipFront;
          }
          nrElem := rle.freq + 1;
        }
        if nrElem > skipFront {
          nrElem := nrElem - skipFront;
        } else {
          nrElem := 0;
        }
        var otherDim := nrElem / align;
        if otherDim >= 2 {
          TimesNonNeg(otherDim, align);
          r := Bump(r, otherDim, Times(otherDim, align), 1);
        }
      }
      unitStart := unitStart + Times(rle.val, rle.freq - 1);
      k := k + 1;
    }
  }

  method UpdateStats(c: Config, xs: seq<int>, stats: Stats) returns (r: Stats)
    requires c.max >= 1 && Increasing(xs)
    ensures r == StretchStats(c, stats, xs)
  {
    hide RunLengths, Deltas, Bump, Times, BlockStats, LinearRun;
    if c.order.Align() != 0 {
      if |xs| == 0 {
        return stats;
      }
      r := UpdateStatsBlock(xs, stats, c.order.Align());
      return;
    }
    if |xs| == 0 {
      return stats;
    }
    var deltas := DeltaEncode(xs);
    var rles := RLEncode(deltas);
    r := stats;
    var col, lastRlePatt, k := 0, false, 0;
    while k < |rles|
      invariant 0 <= k <= |rles|
      invariant Linear(r, col, lastRlePatt) == LinearStats(c, stats, rles, k)
    {
      var rle := rles[k];
      RunPositive(xs, rles, k);
      RunIs(c, Linear(r, col, lastRlePatt), rle);
      var realLimit := if !c.numa && col != 0 && !lastRlePatt then c.min - 1 else c.min;
      if rle.freq > 1 && rle.freq >= realLimit {
        var realNnz := if !c.numa && col != 0 && !lastRlePatt then rle.freq + 1 else rle.freq;
        r := Bump(r, rle.val, realNnz, realNnz / c.max + (if realNnz % c.max != 0 then 1 else 0));
        lastRlePatt := true;
      } else {
        lastRlePatt := false;
      }
      col := col + rle.val;
      k := k + 1;
    }
  }

  /** What a run of a positive delta does, in the terms of the loop. */
  lemma RunIs(c: Config, l: Linear, rle: Rle)
    requires c.max >= 1 && rle.val >= 1
    ensures var realLimit := if !c.numa && l.col != 0 && !l.last then c.min - 1 else c.min;
            var realNnz := if !c.numa && l.col != 0 && !l.last then rle.freq + 1 else rle.freq;
            LinearRun(c, l, rle) ==
              if rle.freq > 1 && rle.freq >= realLimit
              then Linear(Bump(l.stats, rle.val, realNnz, realNnz / c.max + (if realNnz % c.max != 0 then 1 else 0)),
                          l.col + rle.val, true)
              else Linear(l.stats, l.col + rle.val, false)
  {
    hide Bump;
  }

  /** Runs of an increasing stretch have positive deltas and lengths. */
  lemma RunPositive(xs: seq<int>, rles: seq<Rle>, k: nat)
    requires xs != [] && Increasing(xs) && rles == RunLengths(Deltas(xs)) && k < |rles|
    ensures rles[k].val >= 1 && rles[k].freq >= 1
    ensures k > 0 ==> rles[k].val != rles[k - 1].val
  {
    hide RunLengths, Tiles;
    RunsTile(Deltas(xs));
    TilesAt(rles, Deltas(xs), k);
    assert Deltas(xs)[Offset(rles, k)] == rles[k].val;
  }

  // ----- Never more elements than there are

  /** Every entry counts patterns of at least one element each, of a positive dimension. */
  function Sound(): Stat -> bool {
    (t: Stat) => t.dim >= 1 && t.nnz >= t.np >= 1
  }

  /** Every entry of a block order counts whole blocks. */
  function Blocky(align: nat): Stat -> bool {
    (t: Stat) => t.nnz == Times(align, Times(t.dim, t.np)) && t.dim >= 1 && t.np >= 1
  }

  lemma CeilBound(n: nat, m: nat)
    requires m >= 1
    ensures n / m + (if n % m != 0 then 1 else 0) <= n
    ensures n >= 1 ==> n / m + (if n % m != 0 then 1 else 0) >= 1
  {
    if n < m {
      DivModUnique(n, 0, n, m);
    } else if m > 1 {
      assert n == n / m * m + n % m;
      MulMono(2, m, n / m);
      assert n / m * m >= 2 * (n / m);
      if n / m == 0 {
        assert false;
      }
    }
  }

  /** After k runs at most the elements of those runs are counted, and one less
      when the last run was not recorded. */
  lemma {:induction false} LinearCounts(c: Config, stats: Stats, xs: seq<int>, rles: seq<Rle>, k: nat)
    requires xs != [] && Increasing(xs) && rles == RunLengths(Deltas(xs)) && k <= |rles| && c.max >= 1
    requires Ascending(stats) && Each(stats, Sound())
    ensures var l := LinearStats(c, stats, rles, k);
            && l.col >= k && Ascending(l.stats) && Each(l.stats, Sound())
            && Nnz(l.stats) <= Nnz(stats) + Offset(rles, k) - (if k > 0 && !l.last then 1 else 0)
  {
    hide RunLengths, Deltas, Bump, Nnz, Each, Ascending, Additive;
    if k > 0 {
      SoundAdditive();
      LinearCounts(c, stats, xs, rles, k - 1);
      RunPositive(xs, rles, k - 1);
      var l, r := LinearStats(c, stats, rles, k - 1), rles[k - 1];
      var nnz := if Joins(c, l) then r.freq + 1 else r.freq;
      var np := nnz / c.max + (if nnz % c.max != 0 then 1 else 0);
      CeilBound(nnz, c.max);
      BumpTotals(l.stats, r.val, nnz, np);
      BumpDims(l.stats, r.val, nnz, np);
      BumpEach(l.stats, r.val, nnz, np, Sound());
    }
  }

  lemma OtherBound(n: nat, align: nat)
    requires align >= 1
    ensures Times(n / align, align) <= n
    ensures Times(n / align, align) == Times(align, Times(n / align, 1))
    ensures n / align >= 1 ==> Times(n / align, align) >= 1
  {
    assert n == n / align * align + n % align;
    if n / align >= 1 {
      MulMono(1, n / align, align);
    }
  }

  lemma SoundAdditive()
    ensures Additive(Sound())
  {
  }

  lemma BlockSum(align: nat, dim: nat, n: nat, m: nat)
    ensures Times(align, Times(dim, n)) + Times(align, Times(dim, m)) == Times(align, Times(dim, n + m))
  {
    hide Times;
    TimesSum(dim, n, m);
    TimesSum(align, Times(dim, n), Times(dim, m));
  }

  lemma BlocksAdditive(align: nat)
    ensures Additive(Blocky(align))
  {
    hide Times;
    forall a: Stat, b: Stat
      ensures AddsUp(Blocky(align), a, b)
    {
      BlockSum(align, a.dim, a.np, b.np);
    }
  }

  /** The same for blocks: only a run of delta 1 takes the element before it, and
      the run before has another delta. */
  lemma {:induction false} BlockCounts(align: nat, stats: Stats, xs: seq<int>, rles: seq<Rle>, k: nat)
    requires xs != [] && Increasing(xs) && rles == RunLengths(Deltas(xs)) && k <= |rles| && align >= 1
    requires Ascending(stats) && Each(stats, Blocky(align))
    ensures var b := BlockStats(align, stats, rles, k);
            && (k > 0 ==> b.start >= 1) && (k == 0 ==> b.start == 0) && Ascending(b.stats) && Each(b.stats, Blocky(align))
            && Nnz(b.stats) <= Nnz(stats) + Offset(rles, k) - (if k > 0 && rles[k - 1].val != 1 then 1 else 0)
  {
    hide RunLengths, Deltas, Bump, Nnz, Each, Ascending, Times, Additive;
    if k > 0 {
      BlockCounts(align, stats, xs, rles, k - 1);
      RunPositive(xs, rles, k - 1);
      var b, r := BlockStats(align, stats, rles, k - 1), rles[k - 1];
      var n := BlockElems(align, b.start + r.val, r.freq);
      var other := n / align;
      OtherBound(n, align);
      BlocksAdditive(align);
      assert r.val == 1 ==> n <= r.freq + if k > 1 then 1 else 0;
      TimesNonNeg(other, align);
      BumpTotals(b.stats, other, Times(other, align), 1);
      BumpDims(b.stats, other, Times(other, align), 1);
      if other >= 2 {
        BumpEach(b.stats, other, Times(other, align), 1, Blocky(align));
      }
      TimesNonNeg(r.val, r.freq - 1);
    }
  }

  lemma TimesNonNeg(a: int, b: int)
    requires a >= 0 && b >= 0
    ensures Times(a, b) >= 0
  {
  }

  /** What every entry of the statistics of an order satisfies. */
  function EntryOk(o: Order): Stat -> bool {
    if o.Align() != 0 then Blocky(o.Align()) else Sound()
  }

  /** A stretch records no more elements than it has. */
  lemma NeverOvercounts(c: Config, stats: Stats, xs: seq<int>)
    requires c.max >= 1 && Increasing(xs) && Ascending(stats) && Each(stats, EntryOk(c.order))
    ensures Nnz(StretchStats(c, stats, xs)) <= Nnz(stats) + |xs|
    ensures Ascending(StretchStats(c, stats, xs)) && Each(StretchStats(c, stats, xs), EntryOk(c.order))
  {
    hide Nnz, Each, Ascending, RunLengths;
    if xs != [] {
      var rles := RunLengths(Deltas(xs));
      RunsTile(Deltas(xs));
      TilesTotal(rles, Deltas(xs));
      if c.order.Align() != 0 {
        BlockCounts(c.order.Align(), stats, xs, rles, |rles|);
      } else {
        LinearCounts(c, stats, xs, rles, |rles|);
      }
    }
  }

  // ----- Blocks that are too large

  /** The blocks of an entry cut into dimension d, with what is left over when it
      still is a block. */
  function Decompose(acc: Stats, e: Stat, d: nat): Stats
    requires 1 <= d && 1 <= e.dim
  {
    var q, m, u := e.dim / d, e.dim % d, e.nnz / e.dim;
    var cut := Bump(acc, d, Scale(Scale(q, u), d), Scale(q, e.np));
    if m >= 2 then Bump(cut, m, Scale(u, m), e.np) else cut
  }

  /** Entries k.. of the statistics with those above the limit cut to it. */
  function Limited(s: Stats, align: nat, max: nat, k: nat): Stats
    requires k <= |s| && 1 <= align <= max
    decreases |s| - k
  {
    if k == |s| then []
    else
      var acc := Limited(s, align, max, k + 1);
      if s[k].dim >= 1 && Times(s[k].dim, align) > max
      then (DimAtLeast(align, max); Decompose(acc, s[k], Quot(max, align)))
      else Bump(acc, s[k].dim, s[k].nnz, s[k].np)
  }

  lemma DimAtLeast(align: nat, max: nat)
    requires 1 <= align <= max
    ensures Quot(max, align) >= 1
  {
  }

  /** Dimensions that would encode a large enough part of the matrix. */
  predicate Passes(t: Stat, nonzeros: nat, minPerc: real) {
    nonzeros == 0 || t.nnz as real / nonzeros as real >= minPerc
  }

  /** The largest passing dimension that fits into `dim`, among the first n; 0 for none. */
  function Target(s: Stats, n: nat, dim: nat, nonzeros: nat, minPerc: real): nat
    requires n <= |s|
  {
    if n == 0 then 0
    else if s[n - 1].dim <= dim && Passes(s[n - 1], nonzeros, minPerc) then s[n - 1].dim
    else Target(s, n - 1, dim, nonzeros, minPerc)
  }

  /** Entries k.. of the statistics, each cut to its target dimension. */
  function Redistributed(s: Stats, limited: Stats, nonzeros: nat, minPerc: real, k: nat): Stats
    requires k <= |s|
    decreases |s| - k
  {
    if k == |s| then []
    else
      var acc := Redistributed(s, limited, nonzeros, minPerc, k + 1);
      var d := Target(limited, |limited|, s[k].dim, nonzeros, minPerc);
      if d >= 1 && s[k].dim >= 1 then Decompose(acc, s[k], d) else acc
  }

  function Corrected(s: Stats, align: nat, max: nat, nonzeros: nat, minPerc: real): Stats
    requires 1 <= align <= max
  {
    Redistributed(s, Limited(s, align, max, 0), nonzeros, minPerc, 0)
  }

  lemma Shuffle(q: int, a: int, p: int, d: int)
    ensures q * (a * p) * d == a * (d * (q * p)) == q * p * (d * a)
  {
    assert a * (d * (q * p)) == q * p * (d * a);
    assert q * (a * p) == q * p * a;
  }

  lemma Distribute(u: int, q: int, d: int, m: int)
    ensures u * (q * d + m) == q * u * d + u * m
  {
    assert u * (q * d) == q * u * d;
  }

  lemma EntryTotal(align: nat, dim: nat, np: nat)
    ensures align * (dim * np) == align * np * dim
  {
    assert dim * np == np * dim;
  }

  /** The arithmetic of one cut: whole blocks, and no element too many. */
  lemma CutParts(align: nat, e: Stat, d: nat)
    requires align >= 1 && 1 <= d <= e.dim && Blocky(align)(e)
    ensures var q, m, u := e.dim / d, e.dim % d, e.nnz / e.dim;
            && q >= 1 && m < d && u == align * e.np
            && Scale(Scale(q, u), d) == Times(align, Times(d, Scale(q, e.np)))
                 && Scale(u, m) == Times(align, Times(m, e.np))
            && Scale(Scale(q, u), d) + Scale(u, m) == e.nnz
            && Scale(q, e.np) >= 1
            && Scale(Scale(q, u), d) == Scale(Scale(q, e.np), Scale(d, align))
  {
    var q, m, u := e.dim / d, e.dim % d, align * e.np;
    EntryTotal(align, e.dim, e.np);
    DivModUnique(e.nnz, u, 0, e.dim);
    QuotientPositive(e.dim, d);
    Distribute(u, q, d, m);
    Shuffle(q, align, e.np, d);
    EntryTotal(align, m, e.np);
    MulMono(1, q, e.np);
  }

  lemma QuotientPositive(n: nat, d: nat)
    requires 1 <= d <= n
    ensures n / d >= 1
  {
  }

  /** Every entry has a dimension of at most m. */
  function AtMost(m: nat): Stat -> bool {
    (t: Stat) => t.dim <= m
  }

  lemma AtMostAdditive(m: nat)
    ensures Additive(AtMost(m))
  {
  }

  lemma MergeOk(acc: Stats, align: nat, e: Stat, m: nat)
    requires Ascending(acc) && Each(acc, Blocky(align)) && Each(acc, AtMost(m))
    requires Blocky(align)(e) && e.dim <= m
    ensures var r := Bump(acc, e.dim, e.nnz, e.np);
            Ascending(r) && Each(r, Blocky(align)) && Each(r, AtMost(m))
  {
    hide Bump, Each, Ascending, Times, Additive;
    BlocksAdditive(align);
    AtMostAdditive(m);
    BumpDims(acc, e.dim, e.nnz, e.np);
    BumpEach(acc, e.dim, e.nnz, e.np, Blocky(align));
    BumpEach(acc, e.dim, e.nnz, e.np, AtMost(m));
  }

  lemma DecomposeOk(acc: Stats, align: nat, e: Stat, d: nat, m: nat)
    requires align >= 1 && 1 <= d <= e.dim && d <= m && Blocky(align)(e)
    requires Ascending(acc) && Each(acc, Blocky(align)) && Each(acc, AtMost(m))
    ensures var r := Decompose(acc, e, d);
            Ascending(r) && Each(r, Blocky(align)) && Each(r, AtMost(m)) && Nnz(r) <= Nnz(acc) + e.nnz
  {
    hide Bump, Nnz, Each, Ascending, Times, Additive, Scale;
    var q, rest, u := e.dim / d, e.dim % d, e.nnz / e.dim;
    CutParts(align, e, d);
    var nnz, np := Scale(Scale(q, u), d), Scale(q, e.np);
    MergeOk(acc, align, Stat(d, nnz, np), m);
    BumpTotals(acc, d, nnz, np);
    if rest >= 2 {
      var cut := Bump(acc, d, nnz, np);
      MergeOk(cut, align, Stat(rest, Scale(u, rest), e.np), m);
      BumpTotals(cut, rest, Scale(u, rest), e.np);
    }
  }

  lemma {:induction false} EachAt(s: Stats, ok: Stat -> bool, k: nat)
    requires Each(s, ok) && k < |s|
    ensures ok(s[k])
  {
    if k < |s| - 1 {
      EachAt(s[..|s| - 1], ok, k);
    }
  }

  lemma {:induction false} LimitedOk(s: Stats, align: nat, max: nat, k: nat)
    requires k <= |s| && 1 <= align <= max && Each(s, Blocky(align))
    ensures var r := Limited(s, align, max, k);
            Ascending(r) && Each(r, Blocky(align)) && Each(r, AtMost(Quot(max, align)))
    decreases |s| - k
  {
    hide Bump, Nnz, Each, Ascending, Times, Decompose, Blocky, AtMost, Quot;
    if k < |s| {
      LimitedOk(s, align, max, k + 1);
      EachAt(s, Blocky(align), k);
      var acc, e := Limited(s, align, max, k + 1), s[k];
      DimAtLeast(align, max);
      OverLimit(e.dim, align, max);
      WholePositive(align, e);
      if Times(e.dim, align) > max {
        DecomposeOk(acc, align, e, Quot(max, align), Quot(max, align));
      } else {
        MergeOk(acc, align, e, Quot(max, align));
      }
    } else {
      NoEntries(Blocky(align));
      NoEntries(AtMost(Quot(max, align)));
    }
  }

  lemma WholePositive(align: nat, e: Stat)
    requires Blocky(align)(e)
    ensures e.dim >= 1 && e.np >= 1
  {
  }

  lemma NoEntries(ok: Stat -> bool)
    ensures Each([], ok) && Ascending([]) && Nnz([]) == 0
  {
  }

  lemma OverLimit(dim: nat, align: nat, max: nat)
    requires 1 <= align
    ensures Times(dim, align) > max <==> dim > Quot(max, align)
  {
    assert max == max / align * align + max % align;
    if dim > Quot(max, align) {
      MulMono(Quot(max, align) + 1, dim, align);
    } else {
      MulMono(dim, Quot(max, align), align);
    }
  }

  lemma {:induction false} TargetOk(limited: Stats, n: nat, dim: nat, nonzeros: nat, minPerc: real, align: nat, m: nat)
    requires n <= |limited| && Each(limited, Blocky(align)) && Each(limited, AtMost(m))
    ensures Target(limited, n, dim, nonzeros, minPerc) <= dim && Target(limited, n, dim, nonzeros, minPerc) <= m
  {
    hide Each;
    if n > 0 {
      EachAt(limited, AtMost(m), n - 1);
      TargetOk(limited, n - 1, dim, nonzeros, minPerc, align, m);
    }
  }

  lemma {:induction false} RedistributedOk(s: Stats, limited: Stats, nonzeros: nat, minPerc: real, k: nat, align: nat,
                                           m: nat)
    requires k <= |s| && align >= 1 && Each(s, Blocky(align))
    requires Each(limited, Blocky(align)) && Each(limited, AtMost(m))
    ensures var r := Redistributed(s, limited, nonzeros, minPerc, k);
            Ascending(r) && Each(r, Blocky(align)) && Each(r, AtMost(m)) && Nnz(r) <= From(s, k)
    decreases |s| - k
  {
    hide Nnz, Each, Ascending, Decompose, Blocky, AtMost, Passes;
    if k < |s| {
      RedistributedOk(s, limited, nonzeros, minPerc, k + 1, align, m);
      EachAt(s, Blocky(align), k);
      TargetOk(limited, |limited|, s[k].dim, nonzeros, minPerc, align, m);
      var d := Target(limited, |limited|, s[k].dim, nonzeros, minPerc);
      if d >= 1 {
        DecomposeOk(Redistributed(s, limited, nonzeros, minPerc, k + 1), align, s[k], d, m);
      }
    } else {
      NoEntries(Blocky(align));
      NoEntries(AtMost(m));
    }
  }

  /** Elements of the entries k.. */
  function From(s: Stats, k: nat): nat
    requires k <= |s|
    decreases |s| - k
  {
    if k == |s| then 0 else From(s, k + 1) + s[k].nnz
  }

  lemma {:induction false} FromTotal(s: Stats, k: nat)
    requires k <= |s|
    ensures From(s, k) + Nnz(s[..k]) == Nnz(s)
    decreases |s| - k
  {
    if k == |s| {
      Whole(s);
    } else {
      FromTotal(s, k + 1);
      TakeTake(s, k, k + 1);
    }
  }

  /** Correcting keeps whole blocks, invents no element, and leaves only blocks
      within the limit. */
  lemma CorrectedOk(s: Stats, align: nat, max: nat, nonzeros: nat, minPerc: real)
    requires 1 <= align <= max && Each(s, Blocky(align))
    ensures var r := Corrected(s, align, max, nonzeros, minPerc);
            && Ascending(r) && Each(r, Blocky(align)) && Nnz(r) <= Nnz(s)
            && Each(r, InLimit(align, max))
  {
    hide Nnz, Each, Ascending, Limited, Redistributed, Blocky, Quot;
    var limited, m := Limited(s, align, max, 0), Quot(max, align);
    LimitedOk(s, align, max, 0);
    RedistributedOk(s, limited, nonzeros, minPerc, 0, align, m);
    FromTotal(s, 0);
    assert s[..0] == [];
    NoEntries(AtMost(m));
    AtMostIsLimit(Corrected(s, align, max, nonzeros, minPerc), align, max);
  }

  /** Blocks of the dimension fit the size limit. */
  function InLimit(align: nat, max: nat): Stat -> bool {
    (t: Stat) => Times(t.dim, align) <= max
  }

  lemma {:induction false} AtMostIsLimit(s: Stats, align: nat, max: nat)
    requires 1 <= align <= max && Each(s, AtMost(Quot(max, align)))
    ensures Each(s, InLimit(align, max))
  {
    hide Times, Quot;
    if s != [] {
      AtMostIsLimit(s[..|s| - 1], align, max);
      OverLimit(s[|s| - 1].dim, align, max);
    }
  }

  lemma {:induction false} AscendingAt(s: Stats, i: nat, j: nat)
    requires Ascending(s) && i < j < |s|
    ensures s[i].dim < s[j].dim
  {
    var n := |s| - 1;
    if j < n {
      AscendingAt(s[..n], i, j);
    } else if i < n - 1 {
      AscendingAt(s[..n], i, n - 1);
    }
  }

  /** The patterns recorded for a dimension. */
  function PatternsOf(s: Stats, dim: nat): nat {
    if s == [] then 0 else PatternsOf(s[..|s| - 1], dim) + (if s[|s| - 1].dim == dim then s[|s| - 1].np else 0)
  }

  function Erase(s: Stats, dim: nat): Stats {
    if s == [] then []
    else Erase(s[..|s| - 1], dim) + (if s[|s| - 1].dim == dim then [] else [s[|s| - 1]])
  }

  lemma {:induction false} BumpPatterns(s: Stats, dim: nat, nnz: nat, np: nat, d: nat)
    ensures PatternsOf(Bump(s, dim, nnz, np), d) == PatternsOf(s, d) + if d == dim then np else 0
  {
    if s != [] {
      var init, l := s[..|s| - 1], s[|s| - 1];
      BumpPatterns(init, dim, nnz, np, d);
      Snoc(s, Stat(dim, nnz, np));
      Snoc(init, Stat(dim, l.nnz + nnz, l.np + np));
      Snoc(Bump(init, dim, nnz, np), l);
    }
  }

  /** Cutting an entry leaves blocks of the target dimension. */
  lemma DecomposeHas(acc: Stats, align: nat, e: Stat, d: nat)
    requires align >= 1 && 1 <= d <= e.dim && Blocky(align)(e)
    ensures PatternsOf(Decompose(acc, e, d), d) >= 1
  {
    hide Bump, PatternsOf, Scale, Times;
    var q, m, u := e.dim / d, e.dim % d, e.nnz / e.dim;
    CutParts(align, e, d);
    var nnz, np := Scale(Scale(q, u), d), Scale(q, e.np);
    BumpPatterns(acc, d, nnz, np, d);
    if m >= 2 {
      BumpPatterns(Bump(acc, d, nnz, np), m, Scale(u, m), e.np, d);
    }
  }

  /** The step of the first loop on an entry above the limit. */
  lemma TooLarge(acc: Stats, align: nat, e: Stat, mbd: nat)
    requires align >= 1 && 1 <= mbd <= e.dim && Blocky(align)(e)
    ensures var bp := Scale(e.dim / mbd, e.np);
            var size := Scale(bp, Scale(mbd, align));
            var cut := Bump(acc, mbd, size, bp);
            && size <= e.nnz
            && Decompose(acc, e, mbd) == if e.dim % mbd >= 2 then Bump(cut, e.dim % mbd, e.nnz - size, e.np) else cut
  {
    hide Bump, Scale, Times;
    CutParts(align, e, mbd);
  }

  lemma EmptyEntry(dim: nat, e: Stat)
    requires dim >= 1 && e.dim >= 1
    ensures Decompose([Stat(dim, 0, 0)], e, dim) == Decompose([], e, dim)
    ensures Bump([], dim, 0, 0) == [Stat(dim, 0, 0)] && PatternsOf([Stat(dim, 0, 0)], dim) == 0
         && Erase([Stat(dim, 0, 0)], dim) == []
  {
    hide Scale;
    var nnz, np := Scale(Scale(e.dim / dim, e.nnz / e.dim), dim), Scale(e.dim / dim, e.np);
    assert [Stat(dim, 0, 0)][..0] == [];
    assert Bump([Stat(dim, 0, 0)], dim, nnz, np) == Bump([], dim, nnz, np);
  }

  /** Cuts the blocks that pass the size limit. */
  method CorrectBlockStats(sp: Stats, align: nat, max: nat, nonzeros: nat, minPerc: real) returns (r: Stats)
    requires 1 <= align <= max && Ascending(sp) && Each(sp, Blocky(align))
    ensures r == Corrected(sp, align, max, nonzeros, minPerc)
  {
    hide Bump, Each, Ascending, Blocky, Limited, Redistributed, Target, Quot, Passes;
    var temp := LimitBlocks(sp, align, max);
    r := [];
    var i, j := |temp|, |sp|;
    NothingRedistributed(sp, temp, nonzeros, minPerc);
    while i > 0
      invariant 0 <= i <= |temp| && 0 <= j <= |sp|
      invariant r == Redistributed(sp, temp, nonzeros, minPerc, j)
      invariant forall l :: 0 <= l < j ==> Target(temp, |temp|, sp[l].dim, nonzeros, minPerc) == Target(temp, i, sp[l].dim, nonzeros, minPerc)
    {
      if Passes(temp[i - 1], nonzeros, minPerc) {
        r, j := CutTo(sp, temp, i, nonzeros, minPerc, align, max, r, j);
      } else {
        TargetSkips(sp, temp, i, j, nonzeros, minPerc);
      }
      i := i - 1;
    }
    RestUncut(sp, temp, nonzeros, minPerc, j);
  }

  /** The first half: no dimension above the limit. */
  method LimitBlocks(sp: Stats, align: nat, max: nat) returns (temp: Stats)
    requires 1 <= align <= max && Ascending(sp) && Each(sp, Blocky(align))
    ensures temp == Limited(sp, align, max, 0)
  {
    hide Bump, Each, Ascending, Blocky, Quot, Decompose, Scale, PatternsOf, Times;
    var mbd := Quot(max, align);
    DimAtLeast(align, max);
    temp := Bump([], mbd, 0, 0);
    EmptyEntry(mbd, Stat(1, 0, 0));
    var k := |sp|;
    while k > 0 && Times(sp[k - 1].dim, align) > max
      invariant 0 <= k <= |sp|
      invariant k == |sp| ==> temp == [Stat(mbd, 0, 0)]
      invariant k < |sp| ==> temp == Limited(sp, align, max, k) && PatternsOf(temp, mbd) >= 1
    {
      var e := sp[k - 1];
      EachAt(sp, Blocky(align), k - 1);
      WholePositive(align, e);
      OverLimit(e.dim, align, max);
      TooLarge(temp, align, e, mbd);
      EmptyEntry(mbd, e);
      DecomposeHas(temp, align, e, mbd);
      var blockPatterns := Scale(e.dim / mbd, e.np);
      var size := Scale(blockPatterns, Scale(mbd, align));
      temp := Bump(temp, mbd, size, blockPatterns);
      var remaining := e.nnz - size;
      if e.dim % mbd >= 2 {
        temp := Bump(temp, e.dim % mbd, remaining, e.np);
      }
      k := k - 1;
    }
    if PatternsOf(temp, mbd) == 0 {
      temp := Erase(temp, mbd);
    }
    ghost var large := k;
    while k > 0
      invariant 0 <= k <= large
      invariant temp == Limited(sp, align, max, k)
    {
      if k < large {
        AscendingAt(sp, k - 1, large - 1);
        OverLimit(sp[k - 1].dim, align, max);
        OverLimit(sp[large - 1].dim, align, max);
      }
      temp := Bump(temp, sp[k - 1].dim, sp[k - 1].nnz, sp[k - 1].np);
      k := k - 1;
    }
  }

  /** Cuts the entries from j downwards that the i-th dimension fits into. */
  method CutTo(sp: Stats, temp: Stats, i: nat, nonzeros: nat, minPerc: real, ghost align: nat, ghost max: nat,
               r0: Stats, j0: nat)
    returns (r: Stats, j: nat)
    requires 1 <= align <= max && Ascending(sp) && Each(sp, Blocky(align))
    requires temp == Limited(sp, align, max, 0) && 1 <= i <= |temp| && j0 <= |sp|
         && Passes(temp[i - 1], nonzeros, minPerc)
    requires r0 == Redistributed(sp, temp, nonzeros, minPerc, j0)
    requires forall l :: 0 <= l < j0 ==> Target(temp, |temp|, sp[l].dim, nonzeros, minPerc) == Target(temp, i, sp[l].dim, nonzeros, minPerc)
    ensures j <= |sp| && r == Redistributed(sp, temp, nonzeros, minPerc, j)
    ensures forall l :: 0 <= l < j ==> Target(temp, |temp|, sp[l].dim, nonzeros, minPerc) == Target(temp, i - 1, sp[l].dim, nonzeros, minPerc)
  {
    hide Bump, Each, Ascending, Blocky, Limited, Quot, Passes, Scale, Target, Redistributed, Decompose;
    LimitedOk(sp, align, max, 0);
    EachAt(temp, Blocky(align), i - 1);
    WholePositive(align, temp[i - 1]);
    r, j := r0, j0;
    var t := temp[i - 1];
    while j > 0 && sp[j - 1].dim >= t.dim
      invariant 0 <= j <= j0
      invariant r == Redistributed(sp, temp, nonzeros, minPerc, j)
    {
      var e := sp[j - 1];
      CutStep(sp, temp, i, j, nonzeros, minPerc);
      var div, mod, each := e.dim / t.dim, e.dim % t.dim, e.nnz / e.dim;
      r := Bump(r, t.dim, Scale(Scale(div, each), t.dim), Scale(div, e.np));
      if mod >= 2 {
        r := Bump(r, mod, Scale(each, mod), e.np);
      }
      j := j - 1;
    }
    forall l | 0 <= l < j
      ensures Target(temp, |temp|, sp[l].dim, nonzeros, minPerc) == Target(temp, i - 1, sp[l].dim, nonzeros, minPerc)
    {
      if l < j - 1 {
        AscendingAt(sp, l, j - 1);
      }
      TooSmall(temp, i, sp[l].dim, nonzeros, minPerc);
    }
  }

  lemma CutStep(sp: Stats, temp: Stats, i: nat, j: nat, nonzeros: nat, minPerc: real)
    requires 1 <= i <= |temp| && 1 <= j <= |sp| && 1 <= temp[i - 1].dim <= sp[j - 1].dim
    requires Passes(temp[i - 1], nonzeros, minPerc)
    requires Target(temp, |temp|, sp[j - 1].dim, nonzeros, minPerc) == Target(temp, i, sp[j - 1].dim, nonzeros, minPerc)
    ensures var e, t, r := sp[j - 1], temp[i - 1], Redistributed(sp, temp, nonzeros, minPerc, j);
            var div, mod, each := e.dim / t.dim, e.dim % t.dim, e.nnz / e.dim;
            var cut := Bump(r, t.dim, Scale(Scale(div, each), t.dim), Scale(div, e.np));
            Redistributed(sp, temp, nonzeros, minPerc, j - 1) == if mod >= 2 then Bump(cut, mod, Scale(each, mod), e.np) else cut
  {
    hide Passes, Bump, Scale;
  }

  lemma TooSmall(temp: Stats, i: nat, dim: nat, nonzeros: nat, minPerc: real)
    requires 1 <= i <= |temp| && dim < temp[i - 1].dim
    ensures Target(temp, i, dim, nonzeros, minPerc) == Target(temp, i - 1, dim, nonzeros, minPerc)
  {
  }

  lemma TargetSkips(sp: Stats, temp: Stats, i: nat, j: nat, nonzeros: nat, minPerc: real)
    requires 1 <= i <= |temp| && j <= |sp| && !Passes(temp[i - 1], nonzeros, minPerc)
    ensures forall l :: 0 <= l < j ==> Target(temp, i, sp[l].dim, nonzeros, minPerc) == Target(temp, i - 1, sp[l].dim, nonzeros, minPerc)
  {
  }

  lemma NothingRedistributed(sp: Stats, temp: Stats, nonzeros: nat, minPerc: real)
    ensures Redistributed(sp, temp, nonzeros, minPerc, |sp|) == []
  {
  }

  /** Entries without a target contribute nothing. */
  lemma {:induction false} RestUncut(sp: Stats, temp: Stats, nonzeros: nat, minPerc: real, j: nat)
    requires j <= |sp|
    requires forall l :: 0 <= l < j ==> Target(temp, |temp|, sp[l].dim, nonzeros, minPerc) == Target(temp, 0, sp[l].dim, nonzeros, minPerc)
    ensures Redistributed(sp, temp, nonzeros, minPerc, j) == Redistributed(sp, temp, nonzeros, minPerc, 0)
  {
    hide Decompose, Passes;
    if j > 0 {
      RestUncut(sp, temp, nonzeros, minPerc, j - 1);
      assert Target(temp, |temp|, sp[j - 1].dim, nonzeros, minPerc) == 0;
    }
  }
}

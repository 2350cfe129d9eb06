/** Whole aligned blocks of columns, and the run of consecutive columns each lies in.

    `MaxBlocks` speaks of the columns alone; `RunHasBlocks` and `BlocksHaveRun` say that
    these are the stretches that the block encoder and the block statistics find in the
    runs of delta 1. */
module BlockColumns {
  import opened Products
  import opened RowCodec
  import opened RowShape
  import opened Orders

  /** The columns from..to-1 are all there. */
  ghost predicate AllIn(xs: seq<int>, from: int, to: int) {
    forall x :: from <= x < to ==> x in xs
  }

  /** w whole blocks of `a` columns stand side by side from the block boundary x on, and
      neither the block before them nor the one behind them is whole. */
  ghost predicate MaxBlocks(a: nat, xs: seq<int>, x: int, w: nat)
    requires a >= 1
  {
    && (x - 1) % a == 0 && w >= 1
    && AllIn(xs, x, x + Times(w, a))
    && !AllIn(xs, x - a, x) && !AllIn(xs, x + Times(w, a), x + Times(w, a) + a)
  }

  /** Run k with delta 1: its first column, which is the one before the run unless the run
      starts the stretch, and how many consecutive columns there are. */
  function FirstCol(xs: seq<int>, o: nat): int
    requires o <= |xs|
  {
    if o == 0 then 1 else xs[o - 1]
  }

  function ColCount(o: nat, freq: nat): nat {
    if o == 0 then freq else freq + 1
  }

  lemma {:induction false} RunEnds(rles: seq<Rle>, k: nat, m: nat)
    requires k <= m <= |rles|
    ensures Offset(rles, k) <= Offset(rles, m)
    decreases m - k
  {
    if k < m {
      RunEnds(rles, k, m - 1);
    }
  }

  /** The columns of a run of delta 1 follow each other, and none stands beside them. */
  lemma RunColumns(xs: seq<int>, rles: seq<Rle>, k: nat)
    requires Increasing(xs) && Tiles(rles, Deltas(xs)) && k < |rles| && rles[k].val == 1
    ensures var o := Offset(rles, k);
            && o + rles[k].freq <= |xs| && rles[k].freq >= 1
            && var f, n := FirstCol(xs, o), ColCount(o, rles[k].freq);
            && f >= 1 && AllIn(xs, f, f + n) && f - 1 !in xs && f + n !in xs
            && (forall i :: o <= i < o + rles[k].freq ==> xs[i] == xs[o] + i - o)
            && xs[o] == if o == 0 then 1 else xs[o - 1] + 1
  {
    hide Tiles;
    var o, freq := Offset(rles, k), rles[k].freq;
    TilesAt(rles, Deltas(xs), k);
    var f, n := FirstCol(xs, o), ColCount(o, freq);
    Consecutive(xs, o, freq);
    forall x | f <= x < f + n
      ensures x in xs
    {
      var i := x - f + (if o == 0 then 0 else o - 1);
      assert xs[i] == x;
    }
    NotBefore(xs, rles, k);
    NotBehind(xs, rles, k);
  }

  lemma {:induction false} Consecutive(xs: seq<int>, o: nat, n: nat)
    requires o + n <= |xs| && forall i :: o <= i < o + n ==> Deltas(xs)[i] == 1
    ensures forall i :: o <= i < o + n ==> xs[i] == Before(xs, o) + 1 + i - o
  {
    if n > 0 {
      Consecutive(xs, o, n - 1);
      assert Deltas(xs)[o + n - 1] == 1;
    }
  }

  lemma NotBefore(xs: seq<int>, rles: seq<Rle>, k: nat)
    requires Increasing(xs) && Tiles(rles, Deltas(xs)) && k < |rles| && rles[k].val == 1 && Offset(rles, k) <= |xs|
    ensures FirstCol(xs, Offset(rles, k)) - 1 !in xs
  {
    hide Tiles;
    var o := Offset(rles, k);
    if o > 0 {
      TilesAt(rles, Deltas(xs), k);
      TilesAt(rles, Deltas(xs), k - 1);
      assert Deltas(xs)[o - 1] == rles[k - 1].val;
      Gap(xs, o - 1);
    }
  }

  lemma Gap(xs: seq<int>, i: nat)
    requires Increasing(xs) && i < |xs| && xs[i] - Before(xs, i) != 1
    ensures xs[i] - 1 !in xs
  {
    forall j | 0 <= j < |xs|
      ensures xs[j] != xs[i] - 1
    {
      assert i > 0 && j < i ==> xs[j] <= xs[i - 1] < xs[i] - 1;
    }
  }

  lemma NotBehind(xs: seq<int>, rles: seq<Rle>, k: nat)
    requires Increasing(xs) && Tiles(rles, Deltas(xs)) && k < |rles| && rles[k].val == 1
    ensures var e := Offset(rles, k) + rles[k].freq;
            1 <= e <= |xs| && xs[e - 1] + 1 !in xs
  {
    hide Tiles;
    TilesAt(rles, Deltas(xs), k);
    var e := Offset(rles, k) + rles[k].freq;
    if xs[e - 1] + 1 in xs {
      var j :| 0 <= j < |xs| && xs[j] == xs[e - 1] + 1;
      assert j > e - 1 && xs[e] <= xs[j];
      assert xs[e] == xs[j] && Deltas(xs)[e] == 1;
      NextRun(xs, rles, k);
      assert false;
    }
  }

  /** Behind a run that is not the last, the next one begins with another step. */
  lemma NextRun(xs: seq<int>, rles: seq<Rle>, k: nat)
    requires Tiles(rles, Deltas(xs)) && k < |rles| && Offset(rles, k) + rles[k].freq < |xs|
    ensures Deltas(xs)[Offset(rles, k) + rles[k].freq] != rles[k].val
  {
    hide Tiles;
    TilesTotal(rles, Deltas(xs));
    if k + 1 < |rles| {
      TilesAt(rles, Deltas(xs), k + 1);
    }
  }

  /** The run that holds position p. */
  lemma {:induction false} RunOf(rles: seq<Rle>, m: nat, p: nat) returns (k: nat)
    requires m <= |rles| && p < Offset(rles, m)
    ensures k < m && Offset(rles, k) <= p < Offset(rles, k) + rles[k].freq
  {
    if p >= Offset(rles, m - 1) {
      k := m - 1;
    } else {
      k := RunOf(rles, m - 1, p);
    }
  }

  // ----- Blocks inside consecutive columns

  /** Block boundaries less than one block apart are the same. */
  lemma SameBoundary(a: nat, x: int, y: int)
    requires a >= 1 && (x - 1) % a == 0 && (y - 1) % a == 0 && x < y + a && y < x + a
    ensures x == y
  {
    var q, p := (x - 1) / a, (y - 1) / a;
    assert x - 1 == q * a && y - 1 == p * a;
    if q > p {
      MulMono(p + 1, q, a);
    } else if p > q {
      MulMono(q + 1, p, a);
    }
  }

  /** The first boundary in n consecutive columns from f on and the number of whole blocks
      behind it are what the block encoder and the statistics compute. */
  lemma BlocksOf(a: nat, xs: seq<int>, f: int, n: nat, x: int, w: nat)
    requires a >= 1 && f >= 1 && AllIn(xs, f, f + n) && f - 1 !in xs && f + n !in xs
    requires (x - 1) % a == 0 && f <= x < f + a && w >= 1 && x + Times(w, a) <= f + n < x + Times(w, a) + a
    ensures MaxBlocks(a, xs, x, w)
  {
    hide Times;
    assert !AllIn(xs, x - a, x) by {
      assert x - a <= f - 1 < x;
    }
    assert !AllIn(xs, x + Times(w, a), x + Times(w, a) + a) by {
      assert x + Times(w, a) <= f + n < x + Times(w, a) + a;
    }
  }

  /** The other way: blocks that touch these columns are exactly those. */
  lemma OnlyBlocks(a: nat, xs: seq<int>, f: int, n: nat, x: int, w: nat)
    requires a >= 1 && f >= 1 && AllIn(xs, f, f + n) && f - 1 !in xs && f + n !in xs
    requires MaxBlocks(a, xs, x, w) && f <= x + 1 <= f + n && Times(w, a) >= 2
    ensures f <= x < f + a && x + Times(w, a) <= f + n < x + Times(w, a) + a
  {
    hide Times;
  }

  // ----- The blocks of a run, as the encoder and the statistics compute them

  /** Where the blocks of the run at position o begin. */
  function BlockStart(a: nat, xs: seq<int>, o: nat): int
    requires a >= 1 && o <= |xs|
  {
    FirstCol(xs, o) + SkipFront(a, Before(xs, o) + 1)
  }

  /** How many whole blocks it has. */
  function BlockCount(a: nat, xs: seq<int>, o: nat, freq: nat): nat
    requires a >= 1 && o <= |xs|
  {
    Quot(Available(a, Before(xs, o) + 1, freq), a)
  }

  lemma StartNear(a: nat, xs: seq<int>, o: nat, freq: nat)
    requires a >= 1 && o <= |xs| && Increasing(xs) && freq >= 1
    ensures var f, n, x, w := FirstCol(xs, o), ColCount(o, freq), BlockStart(a, xs, o), BlockCount(a, xs, o, freq);
            && (x - 1) % a == 0 && f <= x < f + a
            && (if n >= x - f then x + Times(w, a) <= f + n < x + Times(w, a) + a else w == 0)
  {
    var col := Before(xs, o) + 1;
    SkipAligns(a, col);
    var m := Available(a, col, freq);
    assert m == m / a * a + m % a;
  }

  lemma RunHasBlocks(a: nat, xs: seq<int>, rles: seq<Rle>, k: nat)
    requires a >= 1 && Increasing(xs) && Tiles(rles, Deltas(xs)) && k < |rles| && rles[k].val == 1
    requires Offset(rles, k) <= |xs| && BlockCount(a, xs, Offset(rles, k), rles[k].freq) >= 1
    ensures MaxBlocks(a, xs, BlockStart(a, xs, Offset(rles, k)), BlockCount(a, xs, Offset(rles, k), rles[k].freq))
  {
    hide Tiles, Times, SkipFront, Available, FirstCol, ColCount, BlockStart, BlockCount, MaxBlocks, AllIn, Deltas, Increasing;
    var o, freq := Offset(rles, k), rles[k].freq;
    RunColumns(xs, rles, k);
    StartNear(a, xs, o, freq);
    BlocksOf(a, xs, FirstCol(xs, o), ColCount(o, freq), BlockStart(a, xs, o), BlockCount(a, xs, o, freq));
  }

  /** The run that holds given blocks. */
  lemma BlocksHaveRun(a: nat, xs: seq<int>, rles: seq<Rle>, x: int, w: nat) returns (k: nat)
    requires a >= 1 && Increasing(xs) && Tiles(rles, Deltas(xs)) && MaxBlocks(a, xs, x, w) && w >= 2
    ensures k < |rles| && rles[k].val == 1 && Offset(rles, k) <= |xs|
    ensures BlockStart(a, xs, Offset(rles, k)) == x && BlockCount(a, xs, Offset(rles, k), rles[k].freq) == w
  {
    hide Tiles, SkipFront, Available, BlockStart, BlockCount, MaxBlocks, AllIn, Deltas;
    TwoColumns(a, xs, x, w);
    var p :| 0 <= p < |xs| && xs[p] == x + 1;
    TilesTotal(rles, Deltas(xs));
    k := RunOf(rles, |rles|, p);
    TilesAt(rles, Deltas(xs), k);
    StepIsOne(xs, p);
    RunColumns(xs, rles, k);
    var o, freq := Offset(rles, k), rles[k].freq;
    OnlyBlocks(a, xs, FirstCol(xs, o), ColCount(o, freq), x, w);
    StartNear(a, xs, o, freq);
    assert (x - 1) % a == 0 by { OnBoundary(a, xs, x, w); }
    SameBoundary(a, x, BlockStart(a, xs, o));
    SameCount(a, w, BlockCount(a, xs, o, freq), FirstCol(xs, o) + ColCount(o, freq) - x);
  }

  lemma OnBoundary(a: nat, xs: seq<int>, x: int, w: nat)
    requires a >= 1 && MaxBlocks(a, xs, x, w)
    ensures (x - 1) % a == 0
  {
  }

  lemma TwoColumns(a: nat, xs: seq<int>, x: int, w: nat)
    requires a >= 1 && MaxBlocks(a, xs, x, w) && w >= 2
    ensures Times(w, a) >= 2 && x in xs && x + 1 in xs
  {
    MulMono(2, w, a);
  }

  lemma StepIsOne(xs: seq<int>, p: nat)
    requires Increasing(xs) && p < |xs| && xs[p] - 1 in xs
    ensures p > 0 && Deltas(xs)[p] == 1
  {
    if xs[p] - Before(xs, p) != 1 {
      Gap(xs, p);
    }
  }

  lemma SameCount(a: nat, u: nat, w: nat, n: int)
    requires a >= 1 && Times(u, a) <= n < Times(u, a) + a && Times(w, a) <= n < Times(w, a) + a
    ensures u == w
  {
    if u > w {
      MulMono(w + 1, u, a);
    } else if w > u {
      MulMono(u + 1, w, a);
    }
  }

  // ----- Whole blocks are part of a maximal stretch of them

  /** The blocks with those directly before them. */
  lemma {:induction false} ExtendLeft(a: nat, xs: seq<int>, x: int, w: nat) returns (x0: int, b: nat)
    requires a >= 1 && Increasing(xs) && (x - 1) % a == 0 && w >= 1 && AllIn(xs, x, x + Times(w, a))
    ensures (x0 - 1) % a == 0 && AllIn(xs, x0, x0 + Times(b + w, a)) && !AllIn(xs, x0 - a, x0) && x == x0 + Times(b, a)
    decreases x + a
  {
    hide Times;
    TimesSucc(a, 0);
    if AllIn(xs, x - a, x) {
      assert x - a in xs;
      OneBlockBack(a, x);
      TimesNextLeft(w, a);
      x0, b := ExtendLeft(a, xs, x - a, w + 1);
      TimesNextLeft(b, a);
      b := b + 1;
    } else {
      x0, b := x, 0;
      TimesNone(a);
    }
  }

  lemma TimesNone(a: int)
    ensures Times(0, a) == 0
  {
  }

  lemma TimesNextLeft(m: nat, a: nat)
    ensures Times(m + 1, a) == Times(m, a) + a && Times(m, a) >= 0
  {
  }

  lemma OneBlockBack(a: nat, x: int)
    requires a >= 1 && (x - 1) % a == 0
    ensures (x - a - 1) % a == 0
  {
    DivModUnique(x - a - 1, (x - 1) / a - 1, 0, a);
  }

  /** The blocks with those directly behind them. */
  lemma {:induction false} ExtendRight(a: nat, xs: seq<int>, x: int, w: nat) returns (u: nat)
    requires a >= 1 && Increasing(xs) && xs != [] && w >= 1 && AllIn(xs, x, x + Times(w, a))
    ensures u >= w && AllIn(xs, x, x + Times(u, a)) && !AllIn(xs, x + Times(u, a), x + Times(u, a) + a)
    decreases xs[|xs| - 1] + 1 - (x + Times(w, a))
  {
    hide Times;
    TimesNextLeft(w, a);
    if AllIn(xs, x + Times(w, a), x + Times(w, a) + a) {
      assert x + Times(w, a) in xs;
      u := ExtendRight(a, xs, x, w + 1);
    } else {
      u := w;
    }
  }

  lemma InMaxBlocks(a: nat, xs: seq<int>, x: int, w: nat) returns (x0: int, u: nat, b: nat)
    requires a >= 1 && Increasing(xs) && xs != [] && (x - 1) % a == 0 && w >= 1 && AllIn(xs, x, x + Times(w, a))
    ensures MaxBlocks(a, xs, x0, u) && x == x0 + Times(b, a) && b + w <= u
  {
    x0, b := ExtendLeft(a, xs, x, w);
    u := ExtendRight(a, xs, x0, b + w);
  }
}

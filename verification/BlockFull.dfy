/** Which blocks the row encoder makes, in terms of the columns alone.

    Without splitting, whole blocks side by side become patterns exactly when their
    number is listed, cut to the size limit (`EqualMade`, `EqualOnly`).  With splitting
    they are filled from the front with the widest listed block that fits (`SplitMade`,
    `SplitOnly`). */
module BlockFull {
  import opened Orders
  import opened Matrix
  import opened Products
  import opened RowCodec
  import opened RowShape
  import opened MatrixCodec
  import opened BlockColumns
  import opened RowFull

  /** A block of the encoder's order, `width` block columns wide, at column x. */
  ghost predicate IsBlock(c: Config, e: Elem, x: int, width: nat) {
    e.Pat? && e.x == x && e.p == BlockRLE(Times(width, c.order.Align()), width, c.order)
  }

  /** w blocks side by side are made into blocks of this width when they are not split. */
  function Width(c: Config, w: nat): nat
    requires c.order.Align() != 0
  {
    if Quot(c.max, c.order.Align()) < w then Quot(c.max, c.order.Align()) else w
  }

  // ----- The patterns of a run stay, and all patterns come from runs

  /** What run k appends. */
  function RunOut(c: Config, xs: seq<int>, vs: seq<real>, s: State, r: Rle): seq<Elem>
    requires c.Good() && c.order.Align() != 0
  {
    var a, col := c.order.Align(), SegStart(xs, s, r, 0);
    var back := if s.vi == 0 then 0 else 1;
    BlockOut(c, SegStart(xs, s, r, back), SkipFront(a, col), Available(a, col, r.freq), Segment(vs, s, r, back))
  }

  lemma {:induction false} SinglesOnly(start: int, step: int, vs: seq<real>)
    ensures forall e :: e in Singles(start, step, vs) ==> e.Single?
    decreases |vs|
  {
    if vs != [] {
      SinglesOnly(start + step, step, vs[1..]);
    }
  }

  lemma StepPatterns(c: Config, xs: seq<int>, vs: seq<real>, s: State, r: Rle, e: Elem)
    requires c.Good() && c.order.Align() != 0 && BackIsSingle(s, r) && e.Pat?
    ensures e in BlockStepOf(c, xs, vs, s, r).out <==>
              e in s.out || (Blocks(c, SegStart(xs, s, r, 0), r) && e in RunOut(c, xs, vs, s, r))
  {
    hide BlockOut, Singles, SkipFront, Available, FloorTo, SegStart, Segment;
    if !Blocks(c, SegStart(xs, s, r, 0), r) {
      SinglesOnly(SegStart(xs, s, r, 0), r.val, Segment(vs, s, r, 0));
    } else if s.vi != 0 {
      assert s.out == s.out[..|s.out| - 1] + [s.out[|s.out| - 1]];
    }
  }

  /** A pattern is in the output of the first m runs when one of them made it. */
  lemma {:induction false} RunPatterns(c: Config, xs: seq<int>, vs: seq<real>, rles: seq<Rle>, m: nat, e: Elem)
    requires c.Good() && c.order.Align() != 0 && e.Pat?
    requires Increasing(xs) && |xs| == |vs| && Tiles(rles, Deltas(xs)) && m <= |rles|
    ensures e in BlockRuns(c, xs, vs, rles, m).out <==> exists k :: 0 <= k < m && MadeBy(c, xs, vs, rles, k, e)
  {
    hide BlockStepOf, Blocks, RunOut, Tiles, Deltas, SegStart;
    if m > 0 {
      RunPatterns(c, xs, vs, rles, m - 1, e);
      BlockRunsOk(c, xs, vs, rles, m - 1);
      StepPatterns(c, xs, vs, BlockRuns(c, xs, vs, rles, m - 1), rles[m - 1], e);
      assert e in BlockRuns(c, xs, vs, rles, m).out <==>
          (e in BlockRuns(c, xs, vs, rles, m - 1).out || MadeBy(c, xs, vs, rles, m - 1, e));
    }
  }

  ghost predicate MadeBy(c: Config, xs: seq<int>, vs: seq<real>, rles: seq<Rle>, k: nat, e: Elem)
    requires c.Good() && c.order.Align() != 0 && k < |rles|
  {
    var s := BlockRuns(c, xs, vs, rles, k);
    Blocks(c, SegStart(xs, s, rles[k], 0), rles[k]) && e in RunOut(c, xs, vs, s, rles[k])
  }

  /** The blocks that w whole ones from column x on are made into. */
  function Pieces(c: Config, x: int, w: nat, vs: seq<real>): seq<Elem>
    requires c.Good() && c.order.Align() != 0 && Times(w, c.order.Align()) <= |vs| && w >= 1
  {
    if c.splitBlocks then SplitBlocks(c, c.deltas, x, w, vs)
    else EqualBlocks(c, x, (WidthPositive(c, w); Times(Width(c, w), c.order.Align())), Times(w, c.order.Align()), vs)
  }

  /** Whether w whole blocks side by side are encoded. */
  predicate Wanted(c: Config, w: nat) {
    w >= 2 && (c.splitBlocks || w in c.deltas)
  }

  lemma WidthPositive(c: Config, w: nat)
    requires c.Good() && c.order.Align() != 0 && !c.splitBlocks && w >= 1
    ensures Width(c, w) >= 1 && Times(Width(c, w), c.order.Align()) >= 1
  {
    assert Quot(c.max, c.order.Align()) >= 1;
    MulMono(1, Width(c, w), c.order.Align());
  }

  /** The run is encoded exactly when its whole blocks are wanted. */
  lemma BlocksAreWanted(c: Config, xs: seq<int>, vs: seq<real>, s: State, r: Rle)
    requires c.Good() && c.order.Align() != 0 && StateOk(c.order, s, xs, vs) && Increasing(xs)
         && RunAt(Deltas(xs), s.vi, r)
    ensures Blocks(c, SegStart(xs, s, r, 0), r) <==> r.val == 1 && Wanted(c, BlockCount(c.order.Align(), xs, s.vi, r.freq))
  {
    hide FloorTo, Available, Deltas, StateOk, Increasing;
    TwoBlocks(c.order.Align(), Available(c.order.Align(), SegStart(xs, s, r, 0), r.freq));
  }

  lemma TwoBlocks(a: nat, avail: nat)
    requires a >= 1
    ensures FloorTo(avail, a) == Times(Quot(avail, a), a)
    ensures Quot(FloorTo(avail, a), a) == Quot(avail, a) && (FloorTo(avail, a) >= 2 * a <==> Quot(avail, a) >= 2)
  {
    var q := avail / a;
    DivModUnique(q * a, q, 0, a);
    if q >= 2 {
      MulMono(2, q, a);
    } else {
      MulMono(q, 1, a);
    }
  }

  /** What an encoded run appends has the patterns of its pieces. */
  lemma RunPieces(c: Config, xs: seq<int>, vs: seq<real>, s: State, r: Rle) returns (rest: seq<real>)
    requires c.Good() && c.order.Align() != 0 && StateOk(c.order, s, xs, vs) && Increasing(xs)
         && RunAt(Deltas(xs), s.vi, r) && BackIsSingle(s, r) && Blocks(c, SegStart(xs, s, r, 0), r)
    ensures var a := c.order.Align();
            var x, w := BlockStart(a, xs, s.vi), BlockCount(a, xs, s.vi, r.freq);
            && w >= 2 && Times(w, a) <= |rest|
            && forall e: Elem :: e.Pat? ==> (e in RunOut(c, xs, vs, s, r) <==> e in Pieces(c, x, w, rest))
  {
    hide Zip, Expand, Singles, Pieces;
    var a, col := c.order.Align(), SegStart(xs, s, r, 0);
    var back := if s.vi == 0 then 0 else 1;
    var x, w := BlockStart(a, xs, s.vi), BlockCount(a, xs, s.vi, r.freq);
    BackFits(c.order, xs, vs, s, r);
    BlocksAreWanted(c, xs, vs, s, r);
    SkipFits(a, col, r.freq);
    FirstColumn(c.order, xs, vs, s, r);
    SegmentPairs(xs, vs, s, r, back);
    var seg, skip, avail := Segment(vs, s, r, back), SkipFront(a, col), Available(a, col, r.freq);
    rest := seg[skip..];
    var start := SegStart(xs, s, r, back);
    SinglesOnly(start, 1, seg[..skip]);
    assert start + skip == x;
    FloorFacts(avail, a);
    BodyIsPieces(c, x, avail, rest);
  }

  lemma BodyIsPieces(c: Config, x: int, avail: nat, vs: seq<real>)
    requires c.Good() && c.order.Align() != 0 && 2 * c.order.Align() <= avail <= |vs|
    ensures var w := Quot(avail, c.order.Align());
            w >= 2 && Times(w, c.order.Align()) <= |vs| && BlockBody(c, x, avail, vs) == Pieces(c, x, w, vs)
  {
    hide SplitBlocks, EqualBlocks, FloorTo, Times;
    var a := c.order.Align();
    FloorMore(avail, 2 * a, a);
    TwoBlocks(a, avail);
    if !c.splitBlocks {
      TwoBlocks(a, c.max);
      SmallerTimes(Quot(c.max, a), Quot(avail, a), a);
    } else {
      WholeBlocks(a, avail);
      assert Times(Quot(avail, a), a) == a * (avail / a) by { TimesIs(avail / a, a); }
    }
  }

  lemma TimesIs(m: int, n: int)
    ensures Times(m, n) == n * m
  {
  }

  lemma FloorMore(n: nat, m: nat, a: nat)
    requires a >= 1 && n >= m && m == 2 * a
    ensures FloorTo(n, a) >= m
  {
    if n / a < 2 {
      MulMono(n / a, 1, a);
      FloorFacts(n, a);
    } else {
      MulMono(2, n / a, a);
    }
  }

  lemma SmallerTimes(m: nat, n: nat, a: nat)
    requires a >= 1
    ensures Times(m, a) < Times(n, a) <==> m < n
  {
    if m < n {
      MulMono(m + 1, n, a);
    } else {
      MulMono(n, m, a);
    }
  }

  // ----- Where the pieces lie

  /** Piece b of equal blocks. */
  lemma {:induction false} EqualHas(c: Config, start: int, size: nat, avail: nat, vs: seq<real>,
                                    b: nat) returns (e: Elem)
    requires c.order.Align() != 0 && size >= 1 && avail <= |vs| && Times(b + 1, size) <= avail
    ensures e in EqualBlocks(c, start, size, avail, vs)
    ensures e.Pat? && e.x == start + Times(b, size) && e.p == BlockRLE(size, size / c.order.Align(), c.order)
    decreases avail
  {
    TimesStep(b, size);
    if b == 0 {
      e := EqualBlocks(c, start, size, avail, vs)[0];
    } else {
      TimesStep(b - 1, size);
      e := EqualHas(c, start + size, size, avail - size, vs[size..], b - 1);
    }
  }

  lemma TimesStep(b: nat, size: nat)
    ensures Times(b + 1, size) == Times(b, size) + size && Times(b, size) >= 0 && Times(0, size) == 0
  {
  }

  lemma {:induction false} EqualIs(c: Config, start: int, size: nat, avail: nat, vs: seq<real>,
                                   e: Elem) returns (b: nat)
    requires c.order.Align() != 0 && size >= 1 && avail <= |vs|
    requires e in EqualBlocks(c, start, size, avail, vs) && e.Pat?
    ensures Times(b + 1, size) <= avail
    ensures e.x == start + Times(b, size) && e.p == BlockRLE(size, size / c.order.Align(), c.order)
    decreases avail
  {
    hide Times, Singles;
    if avail < size {
      SinglesOnly(start, 1, vs);
      assert false;
    } else if e == EqualBlocks(c, start, size, avail, vs)[0] {
      b := 0;
      TimesStep(0, size);
    } else {
      var t := EqualIs(c, start + size, size, avail - size, vs[size..], e);
      b := t + 1;
      TimesStep(t, size);
      TimesStep(t + 1, size);
    }
  }

  /** Wherever a listed block still fits there is a pattern. */
  lemma {:induction false} SplitHas(c: Config, deltas: seq<nat>, start: int, other: nat, vs: seq<real>, b: nat, d: nat)
    returns (e: Elem)
    requires c.order.Align() != 0 && c.order.Align() * other <= |vs|
    requires (forall i :: 0 <= i < |deltas| ==> deltas[i] >= 1) && d in deltas && b + d <= other
    ensures e in SplitBlocks(c, deltas, start, other, vs) && e.Pat?
    ensures e.x <= start + Times(b, c.order.Align()) < e.x + e.p.size
    decreases other, |deltas|
  {
    hide Singles;
    var a, l := c.order.Align(), deltas[|deltas| - 1];
    if other >= l {
      var size := a * l;
      SizeFits(a, l, other);
      if b < l {
        e := SplitBlocks(c, deltas, start, other, vs)[0];
        MulMono(b + 1, l, a);
      } else {
        e := SplitHas(c, deltas, start + size, other - l, vs[size..], b - l, d);
        assert b * a == (b - l) * a + l * a;
      }
    } else {
      e := SplitHas(c, deltas[..|deltas| - 1], start, other, vs, b, d);
    }
  }

  /** Every pattern is a listed block that fits, and no wider listed one fits there. */
  lemma {:induction false} SplitIs(c: Config, deltas: seq<nat>, start: int, other: nat, vs: seq<real>, e: Elem)
    returns (b: nat, d: nat)
    requires c.order.Align() != 0 && c.order.Align() * other <= |vs|
    requires (forall i :: 0 <= i < |deltas| ==> deltas[i] >= 1) && Ordered(deltas)
    requires e in SplitBlocks(c, deltas, start, other, vs) && e.Pat?
    ensures d in deltas && b + d <= other && IsBlock(c, e, start + Times(b, c.order.Align()), d)
    ensures forall m :: m in deltas && m > d ==> b + m > other
    decreases other, |deltas|
  {
    hide SplitBlocks, Times, IsBlock;
    var a := c.order.Align();
    SomeDeltas(c, deltas, start, other, vs, e);
    var l := deltas[|deltas| - 1];
    LastIsWidest(deltas);
    if other < l {
      SmallerSplit(c, deltas, start, other, vs);
      b, d := SplitIs(c, deltas[..|deltas| - 1], start, other, vs, e);
    } else {
      SplitParts(c, deltas, start, other, vs, e);
      TimesZero(a);
      if IsBlock(c, e, start, l) {
        b, d := 0, l;
        assert Times(0, a) == 0 by { TimesStep(0, a); }
      } else {
        var t;
        t, d := SplitIs(c, deltas, start + Times(l, a), other - l, vs[a * l..], e);
        b := t + l;
        assert Times(b, a) == Times(t, a) + Times(l, a) by { TimesBoth(t, l, a); }
      }
    }
  }

  lemma TimesBoth(m: int, n: int, a: int)
    ensures Times(m + n, a) == Times(m, a) + Times(n, a)
  {
  }

  lemma LastIsWidest(deltas: seq<nat>)
    requires deltas != [] && Ordered(deltas)
    ensures forall m :: m in deltas ==> m <= deltas[|deltas| - 1] && (m == deltas[|deltas| - 1] || m in deltas[..|deltas| - 1])
  {
  }

  lemma SomeDeltas(c: Config, deltas: seq<nat>, start: int, other: nat, vs: seq<real>, e: Elem)
    requires c.order.Align() != 0 && c.order.Align() * other <= |vs|
    requires forall i :: 0 <= i < |deltas| ==> deltas[i] >= 1
    requires e in SplitBlocks(c, deltas, start, other, vs) && e.Pat?
    ensures deltas != []
  {
    hide Singles;
    SinglesOnly(start, 1, vs);
  }

  lemma SmallerSplit(c: Config, deltas: seq<nat>, start: int, other: nat, vs: seq<real>)
    requires c.order.Align() != 0 && c.order.Align() * other <= |vs|
    requires (forall i :: 0 <= i < |deltas| ==> deltas[i] >= 1) && deltas != [] && other < deltas[|deltas| - 1]
    ensures SplitBlocks(c, deltas, start, other, vs) == SplitBlocks(c, deltas[..|deltas| - 1], start, other, vs)
  {
  }

  /** A pattern is the widest block at the front, or one of those behind it. */
  lemma SplitParts(c: Config, deltas: seq<nat>, start: int, other: nat, vs: seq<real>, e: Elem)
    requires c.order.Align() != 0 && c.order.Align() * other <= |vs|
    requires (forall i :: 0 <= i < |deltas| ==> deltas[i] >= 1) && deltas != [] && deltas[|deltas| - 1] <= other
    requires e in SplitBlocks(c, deltas, start, other, vs)
    ensures var a, l := c.order.Align(), deltas[|deltas| - 1];
            && a * l <= |vs| && a * (other - l) <= |vs[a * l..]|
            && (IsBlock(c, e, start, l) || e in SplitBlocks(c, deltas, start + Times(l, a), other - l, vs[a * l..]))
  {
    hide Times, Singles, SplitBlocks;
    var a, l := c.order.Align(), deltas[|deltas| - 1];
    SizeFits(a, l, other);
    TimesIs(l, a);
    SplitFront(c, deltas, start, other, vs);
  }

  lemma SplitFront(c: Config, deltas: seq<nat>, start: int, other: nat, vs: seq<real>)
    requires c.order.Align() != 0 && c.order.Align() * other <= |vs|
    requires (forall i :: 0 <= i < |deltas| ==> deltas[i] >= 1) && deltas != [] && deltas[|deltas| - 1] <= other
    ensures var a, l := c.order.Align(), deltas[|deltas| - 1];
            && a * l <= |vs| && a * (other - l) <= |vs[a * l..]|
            && SplitBlocks(c, deltas, start, other, vs)
               == [Pat(start, BlockRLE(a * l, l, c.order), vs[..a * l])]
                    + SplitBlocks(c, deltas, start + a * l, other - l, vs[a * l..])
  {
    hide Singles;
    SizeFits(c.order.Align(), deltas[|deltas| - 1], other);
  }

  // ----- The blocks of an encoded stretch

  /** A pattern of the output is one of the pieces of some whole blocks. */
  lemma MadeIs(c: Config, xs: seq<int>, vs: seq<real>, e: Elem) returns (x: int, w: nat, rest: seq<real>)
    requires c.Good() && c.order.Align() != 0 && Increasing(xs) && |xs| == |vs| && xs != []
    requires e in Encoded(c, xs, vs) && e.Pat?
    ensures MaxBlocks(c.order.Align(), xs, x, w) && Wanted(c, w)
    ensures Times(w, c.order.Align()) <= |rest| && e in Pieces(c, x, w, rest)
  {
    hide Tiles, Pieces, MaxBlocks, BlockRuns, Blocks, RunOut, Deltas, BlockStart, BlockCount;
    var rles := RunLengths(Deltas(xs));
    RunsTile(Deltas(xs));
    RunPatterns(c, xs, vs, rles, |rles|, e);
    var k :| 0 <= k < |rles| && MadeBy(c, xs, vs, rles, k, e);
    var s := BlockRuns(c, xs, vs, rles, k);
    BlockRunsOk(c, xs, vs, rles, k);
    TilesAt(rles, Deltas(xs), k);
    BlocksAreWanted(c, xs, vs, s, rles[k]);
    rest := RunPieces(c, xs, vs, s, rles[k]);
    x, w := BlockStart(c.order.Align(), xs, s.vi), BlockCount(c.order.Align(), xs, s.vi, rles[k].freq);
    RunHasBlocks(c.order.Align(), xs, rles, k);
  }

  /** All pieces of wanted whole blocks are in the output. */
  lemma MadeHas(c: Config, xs: seq<int>, vs: seq<real>, x: int, w: nat) returns (rest: seq<real>)
    requires c.Good() && c.order.Align() != 0 && Increasing(xs) && |xs| == |vs| && xs != []
    requires MaxBlocks(c.order.Align(), xs, x, w) && Wanted(c, w)
    ensures Times(w, c.order.Align()) <= |rest|
    ensures forall e: Elem :: e.Pat? && e in Pieces(c, x, w, rest) ==> e in Encoded(c, xs, vs)
  {
    hide Tiles, Pieces, MaxBlocks, BlockRuns, Blocks, RunOut, Deltas, BlockStart, BlockCount;
    var rles := RunLengths(Deltas(xs));
    RunsTile(Deltas(xs));
    var k := BlocksHaveRun(c.order.Align(), xs, rles, x, w);
    var s := BlockRuns(c, xs, vs, rles, k);
    BlockRunsOk(c, xs, vs, rles, k);
    TilesAt(rles, Deltas(xs), k);
    BlocksAreWanted(c, xs, vs, s, rles[k]);
    rest := RunPieces(c, xs, vs, s, rles[k]);
    forall e: Elem | e.Pat? && e in Pieces(c, x, w, rest)
      ensures e in Encoded(c, xs, vs)
    {
      assert MadeBy(c, xs, vs, rles, k, e);
      RunPatterns(c, xs, vs, rles, |rles|, e);
    }
  }

  /** Without splitting, whole blocks whose number is listed are cut into equal blocks, as
      many as fit. */
  lemma EqualMade(c: Config, xs: seq<int>, vs: seq<real>, x: int, w: nat, b: nat) returns (e: Elem)
    requires c.Good() && c.order.Align() != 0 && !c.splitBlocks && Increasing(xs) && |xs| == |vs| && xs != []
    requires MaxBlocks(c.order.Align(), xs, x, w) && w >= 2 && w in c.deltas && Scale(b + 1, Width(c, w)) <= w
    ensures e in Encoded(c, xs, vs) && IsBlock(c, e, x + Times(Scale(b, Width(c, w)), c.order.Align()), Width(c, w))
  {
    hide MaxBlocks, Encoded, Times, EqualBlocks;
    var rest := MadeHas(c, xs, vs, x, w);
    var a, width := c.order.Align(), Width(c, w);
    WidthPositive(c, w);
    TimesStep(w, a);
    SizeOf(b, width, a);
    FitsIn(b + 1, width, w, a);
    e := EqualHas(c, x, Times(width, a), Times(w, a), rest, b);
  }

  lemma SizeOf(b: nat, width: nat, a: nat)
    requires a >= 1
    ensures Times(b, Times(width, a)) == Times(Scale(b, width), a) && Times(width, a) / a == width
  {
    DivModUnique(width * a, width, 0, a);
    assert b * (width * a) == b * width * a;
  }

  lemma FitsIn(b: nat, width: nat, w: nat, a: nat)
    requires a >= 1
    ensures Scale(b, width) <= w <==> Times(b, Times(width, a)) <= Times(w, a)
  {
    hide Times;
    SizeOf(b, width, a);
    SmallerTimes(w, Scale(b, width), a);
  }

  /** And it makes no other blocks. */
  lemma EqualOnly(c: Config, xs: seq<int>, vs: seq<real>, e: Elem) returns (x: int, w: nat, b: nat)
    requires c.Good() && c.order.Align() != 0 && !c.splitBlocks && Increasing(xs) && |xs| == |vs| && xs != []
    requires e in Encoded(c, xs, vs) && e.Pat?
    ensures MaxBlocks(c.order.Align(), xs, x, w) && w >= 2 && w in c.deltas && Scale(b + 1, Width(c, w)) <= w
    ensures IsBlock(c, e, x + Times(Scale(b, Width(c, w)), c.order.Align()), Width(c, w))
  {
    hide MaxBlocks, Encoded, Times, EqualBlocks;
    var rest;
    x, w, rest := MadeIs(c, xs, vs, e);
    var a, width := c.order.Align(), Width(c, w);
    WidthPositive(c, w);
    TimesStep(w, a);
    b := EqualIs(c, x, Times(width, a), Times(w, a), rest, e);
    SizeOf(b, width, a);
    FitsIn(b + 1, width, w, a);
  }

  /** With splitting, no block column is left single where a listed block still fits. */
  lemma SplitMade(c: Config, xs: seq<int>, vs: seq<real>, x: int, w: nat, b: nat, d: nat) returns (e: Elem)
    requires c.Good() && c.order.Align() != 0 && c.splitBlocks && Increasing(xs) && |xs| == |vs| && xs != []
    requires MaxBlocks(c.order.Align(), xs, x, w) && w >= 2 && d in c.deltas && b + d <= w
    ensures e in Encoded(c, xs, vs) && e.Pat? && e.x <= x + Times(b, c.order.Align()) < e.x + e.p.size
  {
    hide MaxBlocks, Encoded, Times, SplitBlocks;
    var rest := MadeHas(c, xs, vs, x, w);
    TimesIs(w, c.order.Align());
    e := SplitHas(c, c.deltas, x, w, rest, b, d);
  }

  /** Every pattern is a listed block inside whole blocks, and no wider listed block fits
      where it stands. */
  lemma SplitOnly(c: Config, xs: seq<int>, vs: seq<real>, e: Elem) returns (x: int, w: nat, b: nat, d: nat)
    requires c.Good() && c.order.Align() != 0 && c.splitBlocks && Increasing(xs) && |xs| == |vs| && xs != []
    requires Ordered(c.deltas) && e in Encoded(c, xs, vs) && e.Pat?
    ensures MaxBlocks(c.order.Align(), xs, x, w) && w >= 2 && d in c.deltas && b + d <= w
    ensures IsBlock(c, e, x + Times(b, c.order.Align()), d)
    ensures forall m :: m in c.deltas && m > d ==> b + m > w
  {
    hide MaxBlocks, Encoded, Times, SplitBlocks, IsBlock;
    var rest;
    x, w, rest := MadeIs(c, xs, vs, e);
    TimesIs(w, c.order.Align());
    b, d := SplitIs(c, c.deltas, x, w, rest, e);
  }

  /** With splitting, no single elements fill a listed block of two block columns or more. */
  ghost predicate NoBlockLeft(c: Config, out: seq<Elem>)
    requires c.order.Align() != 0
  {
    forall i: nat, d: nat {:trigger StepSingles(out, i, Scale(d, c.order.Align()), 1)} ::
      d in c.deltas && d >= 2 && i < |out| && (out[i].x - 1) % c.order.Align() == 0
      ==> !StepSingles(out, i, Scale(d, c.order.Align()), 1)
  }

  lemma EncodedNoBlockLeft(c: Config, xs: seq<int>, vs: seq<real>)
    requires c.Good() && c.order.Align() != 0 && c.splitBlocks && Increasing(xs) && |xs| == |vs| && xs != []
    ensures NoBlockLeft(c, Encoded(c, xs, vs))
  {
    hide Encoded, StepSingles;
    var out, a := Encoded(c, xs, vs), c.order.Align();
    forall i: nat, d: nat {:trigger StepSingles(out, i, Scale(d, a), 1)} |
        d in c.deltas && d >= 2 && i < |out| && (out[i].x - 1) % a == 0
      ensures !StepSingles(out, i, Scale(d, a), 1)
    {
      if StepSingles(out, i, Scale(d, a), 1) {
        SinglesOfInput(c, xs, vs, i, Scale(d, a));
        var x, w, b := InMaxBlocks(a, xs, out[i].x, d);
        var e := SplitMade(c, xs, vs, x, w, b, d);
        NotCovered(c, xs, vs, i, e);
      }
    }
  }

  /** Single elements side by side in the output are columns of the input. */
  lemma SinglesOfInput(c: Config, xs: seq<int>, vs: seq<real>, i: nat, n: nat)
    requires c.Good() && Increasing(xs) && |xs| == |vs| && xs != []
    requires n >= 1 && StepSingles(Encoded(c, xs, vs), i, n, 1)
    ensures i < |Encoded(c, xs, vs)| && Encoded(c, xs, vs)[i].Single?
    ensures AllIn(xs, Encoded(c, xs, vs)[i].x, Encoded(c, xs, vs)[i].x + n)
  {
    hide Encoded, Expand, Zip;
    var out := Encoded(c, xs, vs);
    EncodedRoundTrip(c, xs, vs);
    forall y | out[i].x <= y < out[i].x + n
      ensures y in xs
    {
      var j := i + y - out[i].x;
      SideBySide(out, i, n, j);
      OpenedInExpand(c.order, out, j);
      OpenedSingle(c.order, out[j]);
      assert out[j] in Opened(c.order, out[j]);
      assert out[j] in Zip(xs, vs);
    }
  }

  lemma {:induction false} SideBySide(out: seq<Elem>, i: nat, n: nat, j: nat)
    requires StepSingles(out, i, n, 1) && i <= j < i + n
    ensures i + n <= |out| && out[j].Single? && out[j].x == out[i].x + j - i
  {
    if j > i {
      SideBySide(out, i, n, j - 1);
    }
  }

  /** No pattern covers the column of a single element. */
  lemma NotCovered(c: Config, xs: seq<int>, vs: seq<real>, i: nat, e: Elem)
    requires c.Good() && c.order.Align() != 0 && Increasing(xs) && |xs| == |vs| && xs != []
    requires i < |Encoded(c, xs, vs)| && Encoded(c, xs, vs)[i].Single? && e in Encoded(c, xs, vs) && e.Pat?
    ensures !(e.x <= Encoded(c, xs, vs)[i].x < e.x + e.p.size)
  {
    hide Encoded, Expand, Zip;
    var out := Encoded(c, xs, vs);
    EncodedRoundTrip(c, xs, vs);
    EncodedGood(c, xs, vs);
    ColumnsSorted(xs, vs);
    TightOpens(c.order, out);
    var j :| 0 <= j < |out| && out[j] == e;
    assert GoodOut(c, out[j]);
    TimesOne(e.p.size - 1);
    assert LastX(c.order, e) == e.x + e.p.size - 1 && LastX(c.order, out[i]) == out[i].x;
  }

  lemma ColumnsSorted(xs: seq<int>, vs: seq<real>)
    requires Increasing(xs) && |xs| == |vs|
    ensures RowSorted(Zip(xs, vs))
  {
  }
}

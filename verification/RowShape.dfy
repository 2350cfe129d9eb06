/** What the patterns made by the row encoder look like: their sizes, their
    deltas, and the alignment of blocks. */
module RowShape {
  import opened Orders
  import opened Matrix
  import opened Products
  import opened RowCodec

  /** A pattern of the encoder's order, well formed, within the size limits.
      Blocks start on a block boundary of the transformed row. */
  predicate GoodOut(c: Config, e: Elem) {
    e.Pat? ==>
      && e.p.order == c.order
      && e.p.Good()
      && |e.vals| == e.p.size
      && (c.order.Align() == 0 ==> e.p.size <= c.max && (c.min <= c.max ==> c.min <= e.p.size) && e.p.Step() in c.deltas)
      && (c.order.Align() != 0 ==>
            && (e.x - 1) % c.order.Align() == 0
            && (if c.splitBlocks then e.p.otherDim in c.deltas else e.p.size <= c.max))
  }

  ghost predicate AllGood(c: Config, es: seq<Elem>) {
    forall i :: 0 <= i < |es| ==> GoodOut(c, es[i])
  }

  lemma {:induction false} SinglesGood(c: Config, start: int, step: int, vs: seq<real>)
    ensures AllGood(c, Singles(start, step, vs))
    decreases |vs|
  {
    if vs != [] {
      SinglesGood(c, start + step, step, vs[1..]);
    }
  }

  lemma {:induction false} EncodeRunGood(c: Config, start: int, step: nat, vs: seq<real>)
    requires c.Good() && c.order.Align() == 0 && step in c.deltas
    ensures AllGood(c, EncodeRun(c, start, step, vs))
    decreases |vs|
  {
    hide Times, Singles;
    if |vs| < c.min {
      SinglesGood(c, start, step, vs);
    } else {
      var size := if c.max < |vs| then c.max else |vs|;
      assert step >= 1;
      assert GoodOut(c, Pat(start, DeltaRLE(size, step, c.order), vs[..size]));
      EncodeRunGood(c, start + Times(step, size), step, vs[size..]);
    }
  }

  lemma {:induction false} LinearRunsGood(c: Config, xs: seq<int>, vs: seq<real>, rles: seq<Rle>, k: nat)
    requires c.Good() && c.order.Align() == 0 && k <= |rles|
    ensures AllGood(c, LinearRuns(c, xs, vs, rles, k).out)
  {
    hide EncodeRun, Singles, GoodOut, SegStart, Segment;
    if k > 0 {
      var s, r := LinearRuns(c, xs, vs, rles, k - 1), rles[k - 1];
      LinearRunsGood(c, xs, vs, rles, k - 1);
      if r.freq != 1 && r.val >= 0 && r.val in c.deltas {
        var back := Absorbed(c, s);
        EncodeRunGood(c, SegStart(xs, s, r, back), r.val, Segment(vs, s, r, back));
      } else {
        SinglesGood(c, SegStart(xs, s, r, 0), r.val, Segment(vs, s, r, 0));
      }
    }
  }

  // ----- Blocks

  lemma ModAdd(x: int, a: nat, q: int)
    requires a >= 1 && x % a == 0
    ensures (x + a * q) % a == 0
  {
    DivModUnique(x + a * q, x / a + q, 0, a);
    assert x == x / a * a;
    assert (x / a + q) * a == x / a * a + q * a;
  }

  lemma {:induction false} EqualBlocksGood(c: Config, start: int, size: nat, avail: nat, vs: seq<real>)
    requires c.Good() && c.order.Align() != 0 && 1 <= size <= c.max && avail <= |vs| && !c.splitBlocks
    requires size % c.order.Align() == 0 && (start - 1) % c.order.Align() == 0
    ensures AllGood(c, EqualBlocks(c, start, size, avail, vs))
    decreases avail
  {
    if avail < size {
      SinglesGood(c, start, 1, vs);
    } else {
      var a := c.order.Align();
      NextStart(start, size, a);
      assert GoodOut(c, Pat(start, BlockRLE(size, size / a, c.order), vs[..size]));
      EqualBlocksGood(c, start + size, size, avail - size, vs[size..]);
    }
  }

  lemma NextStart(start: int, size: nat, a: nat)
    requires a >= 1 && size >= 1 && size % a == 0 && (start - 1) % a == 0
    ensures (start + size - 1) % a == 0
    ensures size == a * (size / a) && size / a >= 1
  {
    assert size == size / a * a;
    ModAdd(start - 1, a, size / a);
  }

  lemma {:induction false} SplitBlocksGood(c: Config, deltas: seq<nat>, start: int, other: nat, vs: seq<real>)
    requires c.Good() && c.order.Align() != 0 && c.order.Align() * other <= |vs| && c.splitBlocks
    requires forall i :: 0 <= i < |deltas| ==> deltas[i] >= 1 && deltas[i] in c.deltas
    requires (start - 1) % c.order.Align() == 0
    ensures AllGood(c, SplitBlocks(c, deltas, start, other, vs))
    decreases other, |deltas|
  {
    hide Singles;
    if deltas == [] {
      SinglesGood(c, start, 1, vs);
    } else {
      var a, d := c.order.Align(), deltas[|deltas| - 1];
      if other >= d {
        SizeFits(a, d, other);
        ModAdd(start - 1, a, d);
        MulMono(1, d, a);
        assert GoodOut(c, Pat(start, BlockRLE(a * d, d, c.order), vs[..a * d]));
        SplitBlocksGood(c, deltas, start + a * d, other - d, vs[a * d..]);
      } else {
        SplitBlocksGood(c, deltas[..|deltas| - 1], start, other, vs);
      }
    }
  }

  lemma FloorMultiple(n: nat, m: nat)
    requires m >= 1
    ensures FloorTo(n, m) % m == 0
  {
    DivModUnique(n / m * m, n / m, 0, m);
  }

  lemma BlockOutGood(c: Config, start: int, skip: nat, avail: nat, vs: seq<real>)
    requires c.Good() && c.order.Align() != 0
    requires (start + skip - 1) % c.order.Align() == 0
    ensures AllGood(c, BlockOut(c, start, skip, avail, vs))
  {
    hide Singles, EqualBlocks, SplitBlocks, GoodOut;
    var a := c.order.Align();
    if skip > |vs| {
      SinglesGood(c, start, 1, vs);
    } else {
      SinglesGood(c, start, 1, vs[..skip]);
      var rest := vs[skip..];
      if !(a <= avail <= |rest|) {
        SinglesGood(c, start + skip, 1, rest);
      } else if c.splitBlocks {
        WholeBlocks(a, avail);
        SplitBlocksGood(c, c.deltas, start + skip, avail / a, rest);
      } else {
        FloorMultiple(avail, a);
        FloorMultiple(c.max, a);
        EqualBlocksGood(c, start + skip, BlockSize(c, FloorTo(avail, a)), FloorTo(avail, a), rest);
      }
    }
  }

  /** Skipping to a block boundary lands on one. */
  lemma SkipAligns(a: nat, col: int)
    requires a >= 1 && col >= 1
    ensures var start := if col == 1 then 1 else col - 1;
            (start + SkipFront(a, col) - 1) % a == 0
  {
    if col != 1 {
      var m := (col - 2) % a;
      assert col - 2 == (col - 2) / a * a + m;
      if m == 0 {
      } else {
        DivModUnique(col - 2 + a - m, (col - 2) / a + 1, 0, a);
        assert ((col - 2) / a + 1) * a == (col - 2) / a * a + a;
      }
    }
  }

  lemma BlockStepGood(c: Config, xs: seq<int>, vs: seq<real>, s: State, r: Rle)
    requires c.Good() && c.order.Align() != 0 && AllGood(c, s.out)
    requires StateOk(c.order, s, xs, vs) && Increasing(xs) && RunAt(Deltas(xs), s.vi, r)
    ensures AllGood(c, BlockStepOf(c, xs, vs, s, r).out)
  {
    hide BlockOut, Singles, GoodOut, Segment, Deltas, FloorTo, Available, Zip, Expand;
    var a, col := c.order.Align(), SegStart(xs, s, r, 0);
    if Blocks(c, col, r) {
      var back := if s.vi == 0 then 0 else 1;
      FirstColumn(c.order, xs, vs, s, r);
      SkipAligns(a, col);
      BlockOutGood(c, SegStart(xs, s, r, back), SkipFront(a, col), Available(a, col, r.freq), Segment(vs, s, r, back));
    } else {
      SinglesGood(c, SegStart(xs, s, r, 0), r.val, Segment(vs, s, r, 0));
    }
  }

  lemma {:induction false} BlockRunsGood(c: Config, xs: seq<int>, vs: seq<real>, rles: seq<Rle>, k: nat)
    requires c.Good() && c.order.Align() != 0
    requires Increasing(xs) && |xs| == |vs| && Tiles(rles, Deltas(xs)) && k <= |rles|
    ensures AllGood(c, BlockRuns(c, xs, vs, rles, k).out)
  {
    hide BlockStepOf, GoodOut, Tiles, Deltas, Zip, Expand;
    if k > 0 {
      BlockRunsGood(c, xs, vs, rles, k - 1);
      BlockRunsOk(c, xs, vs, rles, k - 1);
      TilesAt(rles, Deltas(xs), k - 1);
      BlockStepGood(c, xs, vs, BlockRuns(c, xs, vs, rles, k - 1), rles[k - 1]);
    }
  }

  /** Every pattern the encoder makes has the encoder's order and one of its
      deltas, keeps the size limits, and, for blocks, starts on a block boundary
      and holds a whole number of block rows. */
  lemma EncodedGood(c: Config, xs: seq<int>, vs: seq<real>)
    requires c.Good() && Increasing(xs) && |xs| == |vs| && xs != []
    ensures AllGood(c, Encoded(c, xs, vs))
  {
    hide LinearRuns, BlockRuns, Tiles, GoodOut;
    var rles := RunLengths(Deltas(xs));
    RunsTile(Deltas(xs));
    if c.order.Align() != 0 {
      BlockRunsGood(c, xs, vs, rles, |rles|);
    } else {
      LinearRunsGood(c, xs, vs, rles, |rles|);
    }
  }
}

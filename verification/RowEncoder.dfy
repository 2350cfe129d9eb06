/** The row encoders, loop by loop, proved against `RowCodec.Encoded`. */
module RowEncoder {
  import opened Orders
  import opened Matrix
  import opened Products
  import opened Seqs
  import opened RowCodec
  import opened MatrixCodec

  method DeltaEncode(input: seq<int>) returns (output: seq<int>)
    requires input != []
    ensures output == Deltas(input)
  {
    output := [input[0]];
    var prev := input[0];
    var i := 1;
    while i < |input|
      invariant 1 <= i <= |input|
      invariant prev == input[i - 1]
      invariant |output| == i && forall j :: 0 <= j < i ==> output[j] == Deltas(input)[j]
    {
      var curr := input[i];
      output := output + [curr - prev];
      prev := curr;
      i := i + 1;
    }
  }

  method RLEncode(input: seq<int>) returns (output: seq<Rle>)
    requires input != []
    ensures output == RunLengths(input)
  {
    output := [];
    var rle := Rle(1, input[0]);
    var i := 1;
    assert input[..1] == [input[0]];
    while i < |input|
      invariant 1 <= i <= |input|
      invariant output + [rle] == RunLengths(input[..i])
    {
      var curr := input[i];
      RunLengthsMore(input, i, output, rle);
      if rle.val != curr {
        output := output + [rle];
        rle := Rle(1, curr);
      } else {
        rle := Rle(rle.freq + 1, rle.val);
      }
      i := i + 1;
    }
    Whole(input);
    output := output + [rle];
  }

  lemma RunLengthsMore(ds: seq<int>, i: nat, output: seq<Rle>, rle: Rle)
    requires 1 <= i < |ds| && output + [rle] == RunLengths(ds[..i])
    ensures RunLengths(ds[..i + 1])
         == if rle.val != ds[i] then output + [rle] + [Rle(1, ds[i])] else output + [Rle(rle.freq + 1, rle.val)]
  {
    TakeTake(ds, i, i + 1);
    Snoc(output, rle);
    assert (output + [rle])[|output| := Rle(rle.freq + 1, rle.val)] == output + [Rle(rle.freq + 1, rle.val)];
  }

  /** Appends single elements, `step` columns apart, and leaves the column at the
      last one. */
  method PushSingles(out: seq<Elem>, before: int, step: int, vs: seq<real>) returns (r: seq<Elem>, col: int)
    ensures r == out + Singles(before + step, step, vs)
    ensures col == before + Times(step, |vs|)
  {
    hide Times;
    r := out;
    var i := 0;
    col := before;
    TimesZero(step);
    while i < |vs|
      invariant 0 <= i <= |vs|
      invariant r + Singles(col + step, step, vs[i..]) == out + Singles(before + step, step, vs)
      invariant col == before + Times(step, i)
    {
      DropSlice(vs, i, |vs|);
      assert vs[i..|vs|] == vs[i..] && vs[i + 1..|vs|] == vs[i + 1..];
      Assoc(r, [Single(col + step, vs[i])], Singles(col + step + step, step, vs[i + 1..]));
      StepOnce(before, step, i + 1);
      col := col + step;
      r := r + [Single(col, vs[i])];
      i := i + 1;
    }
    assert vs[i..] == [];
    NilRight(r);
  }

  /** Cuts a run into patterns and left-over singles. */
  method PushRun(c: Config, out: seq<Elem>, start: int, step: nat, vs: seq<real>) returns (r: seq<Elem>, col: int)
    requires c.Good()
    ensures r == out + EncodeRun(c, start, step, vs)
    ensures col == start - step + Times(step, |vs|)
  {
    hide Singles, EncodeRun, Times;
    r := out;
    var rleStart, rleFreq, vi: nat := start, |vs|, 0;
    Whole(vs);
    TimesZero(step);
    while rleFreq >= c.min
      invariant 0 <= vi <= |vs| && rleFreq == |vs| - vi
      invariant r + EncodeRun(c, rleStart, step, vs[vi..]) == out + EncodeRun(c, start, step, vs)
      invariant rleStart == start + Times(step, vi)
      decreases rleFreq
    {
      var currFreq := if c.max < rleFreq then c.max else rleFreq;
      var head := Pat(rleStart, DeltaRLE(currFreq, step, c.order), vs[vi..vi + currFreq]);
      RunHead(c, rleStart, step, vs, vi, currFreq);
      Assoc(r, [head], EncodeRun(c, rleStart + Times(step, currFreq), step, vs[vi + currFreq..]));
      TimesSum(step, vi, currFreq);
      r := r + [head];
      vi := vi + currFreq;
      rleStart := rleStart + Times(step, currFreq);
      rleFreq := rleFreq - currFreq;
    }
    RunTail(c, rleStart, step, vs[vi..]);
    TimesSum(step, vi, rleFreq);
    col := rleStart - step;
    r, col := PushSingles(r, col, step, vs[vi..]);
  }

  lemma RunHead(c: Config, start: int, step: nat, vs: seq<real>, at: nat, size: nat)
    requires c.Good() && at <= |vs| && |vs| - at >= c.min && size == if c.max < |vs| - at then c.max else |vs| - at
    ensures EncodeRun(c, start, step, vs[at..])
         == [Pat(start, DeltaRLE(size, step, c.order), vs[at..at + size])]
            + EncodeRun(c, start + Times(step, size), step, vs[at + size..])
  {
    hide Times;
    DropDrop(vs, at, at + size);
    assert vs[at..][..size] == vs[at..at + size];
  }

  lemma RunTail(c: Config, start: int, step: nat, vs: seq<real>)
    requires c.Good() && |vs| < c.min
    ensures EncodeRun(c, start, step, vs) == Singles(start, step, vs)
  {
  }

  /** What the encoders' loops rely on when they reach a run. */
  ghost predicate AtRun(xs: seq<int>, vs: seq<real>, s: State, r: Rle) {
    && |xs| == |vs|
    && s.vi + r.freq <= |xs| && r.freq >= 1 && r.val >= 1
    && (s.vi != 0 <==> Before(xs, s.vi) != 0)
    && (s.vi != 0 ==> s.out != [])
    && Before(xs, s.vi + r.freq) == Before(xs, s.vi) + Times(r.val, r.freq)
  }

  lemma {:induction false} RunSum(xs: seq<int>, at: nat, n: nat, val: int)
    requires at + n <= |xs| && forall i :: at <= i < at + n ==> Deltas(xs)[i] == val
    ensures Before(xs, at + n) == Before(xs, at) + Times(val, n)
    decreases n
  {
    if n > 0 {
      RunSum(xs, at, n - 1, val);
      assert Deltas(xs)[at + n - 1] == val;
    }
  }

  lemma ReachRun(o: Order, xs: seq<int>, vs: seq<real>, s: State, r: Rle)
    requires StateOk(o, s, xs, vs) && Increasing(xs) && RunAt(Deltas(xs), s.vi, r)
    ensures AtRun(xs, vs, s, r)
  {
    hide Times, Deltas, Expand;
    BackFits(o, xs, vs, s, r);
    RunSum(xs, s.vi, r.freq, r.val);
    if s.out == [] {
      ExpandNone(o);
      assert |Zip(xs, vs)[..s.vi]| == s.vi;
    }
  }

  /** Copies a run that is not encoded. */
  method CopyRun(xs: seq<int>, vs: seq<real>, ghost encoded: seq<Elem>, ghost s: State, rle: Rle,
                 before: seq<Elem>, colBefore: int, viBefore: nat)
    returns (out: seq<Elem>, col: int, vi: nat)
    requires AtRun(xs, vs, s, rle)
    requires before == encoded + s.out && colBefore == Before(xs, s.vi) && viBefore == s.vi
    ensures out == encoded + KeepSingles(xs, vs, s, rle).out
    ensures vi == s.vi + rle.freq && col == Before(xs, vi)
  {
    hide Singles, Times;
    Assoc(encoded, s.out, Singles(SegStart(xs, s, rle, 0), rle.val, Segment(vs, s, rle, 0)));
    out, col := PushSingles(before, colBefore, rle.val, vs[viBefore..viBefore + rle.freq]);
    vi := viBefore + rle.freq;
  }

  /** One run of a linear order: the previous element is included when it is a
      single one. */
  method LinearRun(c: Config, xs: seq<int>, vs: seq<real>, ghost encoded: seq<Elem>, ghost s: State, rle: Rle,
                   before: seq<Elem>, colBefore: int, viBefore: nat)
    returns (out: seq<Elem>, col: int, vi: nat)
    requires c.Good() && AtRun(xs, vs, s, rle)
    requires before == encoded + s.out && colBefore == Before(xs, s.vi) && viBefore == s.vi
    ensures out == encoded + LinearStep(c, xs, vs, s, rle).out
    ensures vi == s.vi + rle.freq && col == Before(xs, vi)
  {
    hide Singles, Times, EncodeRun;
    if rle.freq != 1 && rle.val in c.deltas {
      out, col, vi := before, colBefore + rle.val, viBefore;
      var rleStart, rleFreq := col, rle.freq;
      ghost var back := Absorbed(c, s);
      if col != rle.val {
        if !c.numa && out[|out| - 1].Single? {
          rleStart := rleStart - rle.val;
          rleFreq := rleFreq + 1;
          out := out[..|out| - 1];
          vi := vi - 1;
        }
      }
      assert out == encoded + Kept(s, back);
      RunParts(encoded, c, xs, vs, s, rle, back);
      out, col := PushRun(c, out, rleStart, rle.val, vs[vi..vi + rleFreq]);
      vi := vi + rleFreq;
    } else {
      out, col, vi := CopyRun(xs, vs, encoded, s, rle, before, colBefore, viBefore);
    }
  }

  lemma RunParts(encoded: seq<Elem>, c: Config, xs: seq<int>, vs: seq<real>, s: State, rle: Rle, back: nat)
    requires c.Good() && AtRun(xs, vs, s, rle) && back <= 1 && back <= s.vi
    ensures var more := EncodeRun(c, SegStart(xs, s, rle, back), rle.val, Segment(vs, s, rle, back));
            (encoded + Kept(s, back)) + more == encoded + (Kept(s, back) + more)
    ensures SegStart(xs, s, rle, back) - rle.val + Times(rle.val, rle.freq + back) == Before(xs, s.vi + rle.freq)
  {
    hide EncodeRun;
    Assoc(encoded, Kept(s, back), EncodeRun(c, SegStart(xs, s, rle, back), rle.val, Segment(vs, s, rle, back)));
    StepOnce(0, rle.val, rle.freq + 1);
  }

  /** The linear row encoder. */
  method DoEncodeLinear(c: Config, xs: seq<int>, vs: seq<real>, encoded: seq<Elem>) returns (out: seq<Elem>)
    requires c.Good() && c.order.Align() == 0
    requires Increasing(xs) && |xs| == |vs| && xs != []
    ensures out == encoded + Encoded(c, xs, vs)
  {
    hide Tiles, RunLengths, LinearStep, StateOk, AtRun, Deltas, RunAt;
    var deltas := DeltaEncode(xs);
    var rles := RLEncode(deltas);
    RunsTile(Deltas(xs));
    var col, vi: nat, k := 0, 0, 0;
    out := encoded;
    NilRight(encoded);
    while k < |rles|
      invariant 0 <= k <= |rles|
      invariant out == encoded + LinearRuns(c, xs, vs, rles, k).out
      invariant vi == LinearRuns(c, xs, vs, rles, k).vi <= |xs| && col == Before(xs, vi)
    {
      ghost var s := LinearRuns(c, xs, vs, rles, k);
      LinearRunsOk(c, xs, vs, rles, k);
      TilesAt(rles, Deltas(xs), k);
      ReachRun(c.order, xs, vs, s, rles[k]);
      LinearStepVi(c, xs, vs, s, rles[k]);
      out, col, vi := LinearRun(c, xs, vs, encoded, s, rles[k], out, col, vi);
      k := k + 1;
    }
  }

  // ----- Block orders

  /** Elements skipped at the front, whole blocks' elements, elements left over. */
  method BlockShape(a: nat, col: int, freq: nat) returns (skipFront: nat, nrElem: nat, skipBack: nat)
    requires a >= 1 && col >= 1
    ensures skipFront == SkipFront(a, col)
    ensures nrElem == FloorTo(Available(a, col, freq), a)
    ensures nrElem + skipBack == Available(a, col, freq) || (nrElem == 0 && skipBack == Available(a, col, freq))
  {
    if col == 1 {
      skipFront := 0;
      nrElem := freq;
    } else {
      skipFront := (col - 2) % a;
      if skipFront != 0 {
        skipFront := a - skipFront;
      }
      nrElem := freq + 1;
    }
    if nrElem > skipFront {
      nrElem := nrElem - skipFront;
    } else {
      nrElem := 0;
    }
    FloorMod(nrElem, a);
    skipBack := nrElem % a;
    if nrElem > skipBack {
      nrElem := nrElem - skipBack;
    } else {
      nrElem := 0;
    }
  }

  lemma FloorMod(n: nat, a: nat)
    requires a >= 1
    ensures FloorTo(n, a) == n - n % a
    ensures n <= n % a ==> FloorTo(n, a) == 0
  {
    assert n == n / a * a + n % a;
  }

  /** The blocks of the elements from `at` on. */
  ghost function BlocksFrom(c: Config, start: int, size: nat, avail: nat, vs: seq<real>, at: nat): seq<Elem>
    requires c.order.Align() != 0 && size >= 1 && at <= avail <= |vs|
  {
    EqualBlocks(c, start + at, size, avail - at, vs[at..])
  }

  /** Appends n equal blocks. */
  method PushBlocks(c: Config, out: seq<Elem>, start: int, size: nat, n: nat, ghost avail: nat, vs: seq<real>)
    returns (r: seq<Elem>)
    requires c.order.Align() != 0 && size >= 1 && avail <= |vs|
    requires Times(size, n) <= avail < Times(size, n) + size
    ensures r + Singles(start + Times(size, n), 1, vs[Times(size, n)..]) == out + EqualBlocks(c, start, size, avail, vs)
  {
    hide Singles, EqualBlocks, Times, Order.Align, BlocksFrom;
    r := out;
    var i := 0;
    TimesZero(size);
    AllBlocks(c, start, size, avail, vs);
    while i < n
      invariant 0 <= i <= n && 0 <= Times(size, i) <= avail
      invariant r + BlocksFrom(c, start, size, avail, vs, Times(size, i))
           == out + EqualBlocks(c, start, size, avail, vs)
    {
      var at := Times(size, i);
      TimesNext(size, i, n);
      PushStep(c, r, start, size, avail, vs, at);
      r := r + [Pat(start + at, BlockRLE(size, size / c.order.Align(), c.order), vs[at..at + size])];
      i := i + 1;
    }
    LastBlocks(c, start, size, avail, vs, Times(size, n));
  }

  lemma AllBlocks(c: Config, start: int, size: nat, avail: nat, vs: seq<real>)
    requires c.order.Align() != 0 && size >= 1 && avail <= |vs|
    ensures BlocksFrom(c, start, size, avail, vs, 0) == EqualBlocks(c, start, size, avail, vs)
  {
    hide EqualBlocks;
    Whole(vs);
  }

  /** One more block in front of the rest. */
  lemma PushStep(c: Config, r: seq<Elem>, start: int, size: nat, avail: nat, vs: seq<real>, at: nat)
    requires c.order.Align() != 0 && size >= 1 && at + size <= avail <= |vs|
    ensures r + [Pat(start + at, BlockRLE(size, size / c.order.Align(), c.order), vs[at..at + size])]
              + BlocksFrom(c, start, size, avail, vs, at + size)
         == r + BlocksFrom(c, start, size, avail, vs, at)
  {
    hide EqualBlocks;
    BlockHead(c, start + at, size, avail - at, vs, at);
    Assoc(r, [Pat(start + at, BlockRLE(size, size / c.order.Align(), c.order), vs[at..at + size])],
          BlocksFrom(c, start, size, avail, vs, at + size));
  }

  lemma LastBlocks(c: Config, start: int, size: nat, avail: nat, vs: seq<real>, at: nat)
    requires c.order.Align() != 0 && size >= 1 && at <= avail <= |vs| && avail < at + size
    ensures BlocksFrom(c, start, size, avail, vs, at) == Singles(start + at, 1, vs[at..])
  {
  }

  lemma BlockHead(c: Config, start: int, size: nat, avail: nat, vs: seq<real>, at: nat)
    requires c.order.Align() != 0 && size >= 1 && at <= |vs| && size <= avail <= |vs| - at
    ensures EqualBlocks(c, start, size, avail, vs[at..])
         == [Pat(start, BlockRLE(size, size / c.order.Align(), c.order), vs[at..at + size])]
            + EqualBlocks(c, start + size, size, avail - size, vs[at + size..])
  {
    DropDrop(vs, at, at + size);
    assert vs[at..][..size] == vs[at..at + size];
  }

  /** The number of blocks the encoder counts is as many as fit. */
  lemma CountFits(avail: nat, maxLimit: nat, size: nat, n: nat)
    requires maxLimit >= 1 && avail >= 1
    requires size == if maxLimit < avail then maxLimit else avail
    requires n == if Quot(avail, maxLimit) == 0 then 1 else Quot(avail, maxLimit)
    ensures Times(size, n) <= avail < Times(size, n) + size
  {
    FloorFacts(avail, maxLimit);
    if avail / maxLimit == 0 {
      assert size == avail && n == 1;
    } else {
      MulMono(1, avail / maxLimit, maxLimit);
      assert size == maxLimit;
      assert Times(size, n) == avail / maxLimit * maxLimit;
    }
  }

  /** The blocks of one run when the allowed dimensions are not used to split. */
  method PushWhole(c: Config, out: seq<Elem>, start: int, nrElem: nat, ghost avail: nat, vs: seq<real>)
    returns (r: seq<Elem>)
    requires c.Good() && c.order.Align() != 0 && !c.splitBlocks
    requires c.order.Align() <= avail <= |vs| && nrElem == FloorTo(avail, c.order.Align()) >= 1
    ensures r == out + BlockBody(c, start, avail, vs)
  {
    hide Singles, EqualBlocks, Times, FloorTo, Quot;
    var a := c.order.Align();
    var maxLimit := FloorTo(c.max, a);
    var nrBlocks := Quot(nrElem, maxLimit);
    var nrElemBlock := if maxLimit < nrElem then maxLimit else nrElem;
    if nrBlocks == 0 {
      nrBlocks := 1;
    }
    CountFits(nrElem, maxLimit, nrElemBlock, nrBlocks);
    r := PushBlocks(c, out, start, nrElemBlock, nrBlocks, nrElem, vs);
    ghost var target := out + EqualBlocks(c, start, nrElemBlock, nrElem, vs);
    var at := Times(nrElemBlock, nrBlocks);
    var col;
    r, col := PushSingles(r, start + at - 1, 1, vs[at..]);
    assert r == target;
  }

  /** The blocks of one run when the allowed dimensions split it: from the largest
      allowed dimension down, as often as it fits. */
  method PushSplit(c: Config, out: seq<Elem>, start: int, ghost avail: nat, otherDim: nat, vs: seq<real>)
    returns (r: seq<Elem>)
    requires c.Good() && c.order.Align() != 0 && c.splitBlocks
    requires c.order.Align() <= avail <= |vs| && otherDim == avail / c.order.Align()
    ensures r == out + BlockBody(c, start, avail, vs)
  {
    hide Singles, SplitBlocks, FloorTo, Times;
    var a := c.order.Align();
    WholeBlocks(a, avail);
    r := out;
    var rleStart, other, vi: nat := start, otherDim, 0;
    var idx := |c.deltas|;
    Whole(vs);
    Whole(c.deltas);
    while idx > 0
      invariant 0 <= idx <= |c.deltas|
      invariant SplitInv(c, idx, rleStart, other, vs, vi, r, out + SplitBlocks(c, c.deltas, start, otherDim, vs))
    {
      var d := c.deltas[idx - 1];
      while other >= d
        invariant SplitInv(c, idx, rleStart, other, vs, vi, r, out + SplitBlocks(c, c.deltas, start, otherDim, vs))
        decreases other
      {
        var size := a * d;
        SplitHead(c, idx, rleStart, other, vs, vi);
        var head := Pat(rleStart, BlockRLE(size, d, c.order), vs[vi..vi + size]);
        Assoc(r, [head], SplitBlocks(c, c.deltas[..idx], rleStart + size, other - d, vs[vi + size..]));
        r := r + [head];
        rleStart := rleStart + size;
        vi := vi + size;
        other := other - d;
      }
      SplitSkip(c, idx, rleStart, other, vs, vi);
      idx := idx - 1;
    }
    SplitTail(c, rleStart, other, vs[vi..]);
    var col;
    r, col := PushSingles(r, rleStart - 1, 1, vs[vi..]);
  }

  ghost predicate SplitInv(c: Config, idx: nat, start: int, other: nat, vs: seq<real>, vi: nat,
                           r: seq<Elem>, target: seq<Elem>)
    requires c.Good() && c.order.Align() != 0 && idx <= |c.deltas|
  {
    && vi <= |vs|
    && c.order.Align() * other <= |vs| - vi
    && r + SplitBlocks(c, c.deltas[..idx], start, other, vs[vi..]) == target
  }

  lemma SplitHead(c: Config, idx: nat, start: int, other: nat, vs: seq<real>, vi: nat)
    requires c.Good() && c.order.Align() != 0 && 1 <= idx <= |c.deltas| && vi <= |vs|
    requires c.order.Align() * other <= |vs| - vi && c.deltas[idx - 1] <= other
    ensures var a, d := c.order.Align(), c.deltas[idx - 1];
            && 0 <= a * d && vi + a * d <= |vs| && a * (other - d) <= |vs| - vi - a * d
            && SplitBlocks(c, c.deltas[..idx], start, other, vs[vi..])
            == [Pat(start, BlockRLE(a * d, d, c.order), vs[vi..vi + a * d])]
               + SplitBlocks(c, c.deltas[..idx], start + a * d, other - d, vs[vi + a * d..])
  {
    var a, d := c.order.Align(), c.deltas[idx - 1];
    SizeFits(a, d, other);
    DropDrop(vs, vi, vi + a * d);
    assert vs[vi..][..a * d] == vs[vi..vi + a * d];
  }

  lemma SplitSkip(c: Config, idx: nat, start: int, other: nat, vs: seq<real>, vi: nat)
    requires c.Good() && c.order.Align() != 0 && 1 <= idx <= |c.deltas| && vi <= |vs|
    requires c.order.Align() * other <= |vs| - vi && c.deltas[idx - 1] > other
    ensures SplitBlocks(c, c.deltas[..idx], start, other, vs[vi..])
         == SplitBlocks(c, c.deltas[..idx - 1], start, other, vs[vi..])
  {
    TakeTake(c.deltas, idx - 1, idx);
  }

  lemma SplitTail(c: Config, start: int, other: nat, vs: seq<real>)
    requires c.Good() && c.order.Align() != 0 && c.order.Align() * other <= |vs|
    ensures SplitBlocks(c, c.deltas[..0], start, other, vs) == Singles(start, 1, vs)
  {
  }

  /** Skipped singles, blocks and left-over singles of one run. */
  method PushBlockRun(c: Config, out: seq<Elem>, start: int, skipFront: nat, nrElem: nat, ghost avail: nat,
                      seg: seq<real>)
    returns (r: seq<Elem>)
    requires c.Good() && c.order.Align() != 0
    requires skipFront + avail == |seg| && avail >= c.order.Align()
    requires nrElem == FloorTo(avail, c.order.Align())
    ensures r == out + BlockOut(c, start, skipFront, avail, seg)
  {
    hide Singles, Times, FloorTo, BlockBody;
    var a := c.order.Align();
    var last;
    r, last := PushSingles(out, start - 1, 1, seg[..skipFront]);
    Assoc(out, Singles(start, 1, seg[..skipFront]), BlockBody(c, start + skipFront, avail, seg[skipFront..]));
    if c.splitBlocks {
      FloorDiv(avail, a);
      r := PushSplit(c, r, start + skipFront, avail, nrElem / a, seg[skipFront..]);
    } else {
      r := PushWhole(c, r, start + skipFront, nrElem, avail, seg[skipFront..]);
    }
  }

  /** One run of a block order. */
  method BlockRun(c: Config, xs: seq<int>, vs: seq<real>, ghost encoded: seq<Elem>, ghost s: State, rle: Rle,
                  before: seq<Elem>, colBefore: int, viBefore: nat)
    returns (out: seq<Elem>, col: int, vi: nat)
    requires c.Good() && c.order.Align() != 0 && AtRun(xs, vs, s, rle) && Before(xs, s.vi) >= 0
    requires before == encoded + s.out && colBefore == Before(xs, s.vi) && viBefore == s.vi
    ensures out == encoded + BlockStepOf(c, xs, vs, s, rle).out
    ensures vi == s.vi + rle.freq && col == Before(xs, vi)
  {
    hide Singles, Times, SkipFront, Available, FloorTo, BlockBody, BlockOut, Quot;
    var a := c.order.Align();
    col := colBefore + rle.val;
    var skipFront, nrElem, skipBack := BlockShape(a, col, rle.freq);
    if rle.val == 1 && (c.splitBlocks || Quot(nrElem, a) in c.deltas) && nrElem >= 2 * a {
      SkipFits(a, col, rle.freq);
      out, vi := before, viBefore;
      var rleStart := col;
      ghost var back := if s.vi == 0 then 0 else 1;
      if col != 1 {
        rleStart := col - 1;
        out := out[..|out| - 1];
        vi := vi - 1;
      }
      out := PushBlockRun(c, out, rleStart, skipFront, nrElem, Available(a, col, rle.freq),
                          vs[vi..viBefore + rle.freq]);
      vi := viBefore + rle.freq;
      StepOnce(0, rle.val, rle.freq);
      col := col + Times(rle.val, rle.freq - 1);
    } else {
      out, col, vi := CopyRun(xs, vs, encoded, s, rle, before, colBefore, viBefore);
    }
  }

  lemma FloorDiv(n: nat, a: nat)
    requires a >= 1
    ensures FloorTo(n, a) / a == n / a
  {
    DivModUnique(n / a * a, n / a, 0, a);
  }

  /** The block row encoder. */
  method DoEncodeBlock(c: Config, xs: seq<int>, vs: seq<real>, encoded: seq<Elem>) returns (out: seq<Elem>)
    requires c.Good() && c.order.Align() != 0
    requires Increasing(xs) && |xs| == |vs| && xs != []
    ensures out == encoded + Encoded(c, xs, vs)
  {
    hide Tiles, RunLengths, BlockStepOf, StateOk, AtRun, Deltas, RunAt;
    var deltas := DeltaEncode(xs);
    var rles := RLEncode(deltas);
    RunsTile(Deltas(xs));
    var col, vi: nat, k := 0, 0, 0;
    out := encoded;
    NilRight(encoded);
    while k < |rles|
      invariant 0 <= k <= |rles|
      invariant out == encoded + BlockRuns(c, xs, vs, rles, k).out
      invariant vi == BlockRuns(c, xs, vs, rles, k).vi <= |xs| && col == Before(xs, vi)
    {
      ghost var s := BlockRuns(c, xs, vs, rles, k);
      BlockRunsOk(c, xs, vs, rles, k);
      TilesAt(rles, Deltas(xs), k);
      ReachRun(c.order, xs, vs, s, rles[k]);
      BlockStepOk(c, xs, vs, s, rles[k]);
      out, col, vi := BlockRun(c, xs, vs, encoded, s, rles[k], out, col, vi);
      k := k + 1;
    }
  }

  /** The row encoder of the current order. */
  method DoEncode(c: Config, xs: seq<int>, vs: seq<real>, encoded: seq<Elem>) returns (out: seq<Elem>)
    requires c.Good() && Increasing(xs) && |xs| == |vs| && xs != []
    ensures out == encoded + Encoded(c, xs, vs)
  {
    if c.order.Align() != 0 {
      out := DoEncodeBlock(c, xs, vs, encoded);
    } else {
      out := DoEncodeLinear(c, xs, vs, encoded);
    }
  }

  /** Opens one pattern. */
  method DoDecode(e: Elem, newrow: seq<Elem>) returns (r: seq<Elem>)
    requires e.Pat?
    ensures r == newrow + Singles(e.x, e.p.Step(), e.vals)
  {
    r := newrow;
    var curX, i := e.x, 0;
    Whole(e.vals);
    while i < |e.vals|
      invariant 0 <= i <= |e.vals|
      invariant r + Singles(curX, e.p.Step(), e.vals[i..]) == newrow + Singles(e.x, e.p.Step(), e.vals)
    {
      DropSlice(e.vals, i, |e.vals|);
      assert e.vals[i..|e.vals|] == e.vals[i..] && e.vals[i + 1..|e.vals|] == e.vals[i + 1..];
      Assoc(r, [Single(curX, e.vals[i])], Singles(curX + e.p.Step(), e.p.Step(), e.vals[i + 1..]));
      r := r + [Single(curX, e.vals[i])];
      curX := curX + e.p.Step();
      i := i + 1;
    }
    assert e.vals[i..] == [];
    NilRight(r);
  }

  /** Gathers single elements until a pattern is met, and encodes what it gathered. */
  method EncodeRow(c: Config, row: seq<Elem>) returns (newrow: seq<Elem>)
    requires c.Good() && RowSorted(row) && PositiveXs(row)
    ensures newrow == EncodedRow(c, row)
  {
    hide RowSorted, PositiveXs, Increasing, EncodedStretch;
    newrow := [];
    var xs, vs := [], [];
    var i := 0;
    while i < |row|
      invariant 0 <= i <= |row|
      invariant newrow == Scan(c, row[..i]).out
      invariant xs == Xs(Scan(c, row[..i]).pending) && vs == Vs(Scan(c, row[..i]).pending)
    {
      var e := row[i];
      assert row[..i + 1][..i] == row[..i];
      if e.Single? {
        xs := xs + [e.x];
        vs := vs + [e.val];
      } else {
        newrow := Flush(c, row, i, xs, vs, newrow);
        xs, vs := [], [];
        newrow := newrow + [e];
      }
      i := i + 1;
    }
    assert row[..i] == row;
    newrow := Flush(c, row, i, xs, vs, newrow);
  }

  /** Encodes the gathered stretch, if there is one. */
  method Flush(c: Config, ghost row: seq<Elem>, ghost i: nat, xs: seq<int>, vs: seq<real>, newrow: seq<Elem>)
    returns (r: seq<Elem>)
    requires c.Good() && RowSorted(row) && PositiveXs(row) && i <= |row|
    requires xs == Xs(Scan(c, row[..i]).pending) && vs == Vs(Scan(c, row[..i]).pending)
    ensures r == newrow + EncodedStretch(c, Scan(c, row[..i]).pending)
  {
    hide Scan, Encoded, Xs, Vs;
    ghost var pending := Scan(c, row[..i]).pending;
    r := newrow;
    ScanPending(c, row[..i]);
    if |xs| != 0 {
      r := DoEncode(c, xs, vs, newrow);
    } else {
      NilRight(newrow);
    }
  }

  /** Opens the patterns of the current order and keeps everything else. */
  method DecodeRow(o: Order, row: seq<Elem>) returns (newrow: seq<Elem>)
    ensures newrow == Expand(o, row)
  {
    newrow := [];
    var i := 0;
    while i < |row|
      invariant 0 <= i <= |row|
      invariant newrow == Expand(o, row[..i])
    {
      var e := row[i];
      assert row[..i + 1][..i] == row[..i];
      if e.Pat? && e.p.order == o {
        newrow := DoDecode(e, newrow);
      } else {
        newrow := newrow + [e];
      }
      i := i + 1;
    }
    assert row[..i] == row;
  }
}

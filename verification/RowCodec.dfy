/** Delta run-length encoding of one stretch of a row.

    The input is a strictly increasing list of columns `xs` with values `vs`.
    `Encoded` is what the row encoders produce for it; `Expand` is the meaning of
    the output.  The contracts of `LinearRuns` and `BlockRuns` carry the round
    trip: after every run, the output expands to exactly the input consumed. */
module RowCodec {
  import opened Orders
  import opened Matrix
  import opened Products
  import opened Seqs

  datatype Rle = Rle(freq: nat, val: int)

  /** The encoder's settings for one iteration order.  `deltas` lists the run
      deltas (second block dimensions for a block order) to encode, ascending. */
  datatype Config = Config(order: Order, min: nat, max: nat, deltas: seq<nat>, splitBlocks: bool, numa: bool)
  {
    predicate Good() {
      && min >= 1
      && max >= 1
      && (order.Align() != 0 && !splitBlocks ==> max >= order.Align())
      && (forall i :: 0 <= i < |deltas| ==> deltas[i] >= 1)
    }
  }

  /** Strictly ascending, as the members of a set are listed. */
  predicate Ordered(ds: seq<nat>) {
    forall i, j :: 0 <= i < j < |ds| ==> ds[i] < ds[j]
  }

  // ----- Meaning of the output

  /** Consecutive columns with their values, as single elements. */
  function Singles(start: int, step: int, vs: seq<real>): (r: seq<Elem>)
    ensures |r| == |vs|
    decreases |vs|
  {
    if vs == [] then [] else [Single(start, vs[0])] + Singles(start + step, step, vs[1..])
  }

  /** A pattern of order `o` opens into single elements; anything else stays. */
  function Opened(o: Order, e: Elem): seq<Elem> {
    if e.Pat? && e.p.order == o then Singles(e.x, e.p.Step(), e.vals) else [e]
  }

  /** A row with the patterns of order `o` opened: what the row decoder makes of it. */
  function Expand(o: Order, es: seq<Elem>): seq<Elem> {
    if es == [] then [] else Expand(o, es[..|es| - 1]) + Opened(o, es[|es| - 1])
  }

  /** The input as single elements. */
  function Zip(xs: seq<int>, vs: seq<real>): (r: seq<Elem>)
    requires |xs| == |vs|
    ensures |r| == |xs|
    ensures forall i {:trigger r[i]} :: 0 <= i < |xs| ==> r[i] == Single(xs[i], vs[i])
  {
    seq(|xs|, i requires 0 <= i < |xs| => Single(xs[i], vs[i]))
  }

  lemma {:induction false} ExpandConcat(o: Order, a: seq<Elem>, b: seq<Elem>)
    ensures Expand(o, a + b) == Expand(o, a) + Expand(o, b)
  {
    if b == [] {
      NilRight(a);
      NilRight(Expand(o, a));
    } else {
      ButLast(a, b);
      ExpandConcat(o, a, b[..|b| - 1]);
      Assoc(Expand(o, a), Expand(o, b[..|b| - 1]), Opened(o, b[|b| - 1]));
    }
  }

  lemma ExpandNone(o: Order)
    ensures Expand(o, []) == []
  {
  }

  lemma ExpandOne(o: Order, e: Elem)
    ensures Expand(o, [e]) == Opened(o, e)
  {
    assert [e][..0] == [];
  }

  lemma {:induction false} SinglesConcat(start: int, step: int, a: seq<real>, b: seq<real>)
    ensures Singles(start, step, a) + Singles(start + Times(step, |a|), step, b) == Singles(start, step, a + b)
    decreases |a|
  {
    if a == [] {
      NilLeft(b);
      assert Times(step, |a|) == 0;
    } else {
      StepOnce(start, step, |a|);
      SinglesConcat(start + step, step, a[1..], b);
      assert (a + b)[1..] == a[1..] + b;
      Assoc([Single(start, a[0])], Singles(start + step, step, a[1..]), Singles(start + Times(step, |a|), step, b));
    }
  }

  lemma {:induction false} SinglesIndex(start: int, step: int, vs: seq<real>, k: nat)
    requires k < |vs|
    ensures Singles(start, step, vs)[k] == Single(start + Times(step, k), vs[k])
    decreases k
  {
    if k > 0 {
      SinglesIndex(start + step, step, vs[1..], k - 1);
      StepOnce(start, step, k);
    }
  }

  // ----- Runs of equal deltas

  function Deltas(xs: seq<int>): (r: seq<int>)
    ensures |r| == |xs|
    ensures forall i {:trigger r[i]} :: 0 <= i < |xs| ==> r[i] == xs[i] - Before(xs, i)
  {
    seq(|xs|, i requires 0 <= i < |xs| => xs[i] - Before(xs, i))
  }

  /** The column before position i, 0 at the start of the stretch. */
  function Before(xs: seq<int>, i: int): int
    requires 0 <= i <= |xs|
  {
    if i == 0 then 0 else xs[i - 1]
  }

  function RunLengths(ds: seq<int>): (r: seq<Rle>)
    requires ds != []
    ensures r != [] && r[|r| - 1].val == ds[|ds| - 1] && r[|r| - 1].freq >= 1
  {
    var n := |ds| - 1;
    if n == 0 then [Rle(1, ds[0])]
    else
      var r := RunLengths(ds[..n]);
      var l := r[|r| - 1];
      if l.val == ds[n] then r[|r| - 1 := Rle(l.freq + 1, l.val)] else r + [Rle(1, ds[n])]
  }

  /** How many elements the first k runs hold. */
  function Offset(rles: seq<Rle>, k: nat): nat
    requires k <= |rles|
  {
    if k == 0 then 0 else Offset(rles, k - 1) + rles[k - 1].freq
  }

  /** The run r is found in ds from position `at` on. */
  ghost predicate RunAt(ds: seq<int>, at: nat, r: Rle) {
    r.freq >= 1 && at + r.freq <= |ds| && forall i :: at <= i < at + r.freq ==> ds[i] == r.val
  }

  /** The runs tile the deltas in order, and neighbouring runs differ. */
  ghost predicate Tiles(rs: seq<Rle>, ds: seq<int>) {
    if rs == [] then ds == []
    else
      var l := rs[|rs| - 1];
      && 1 <= l.freq <= |ds|
      && RunAt(ds, |ds| - l.freq, l)
      && (|rs| > 1 ==> rs[|rs| - 2].val != l.val)
      && Tiles(rs[..|rs| - 1], ds[..|ds| - l.freq])
  }

  lemma {:induction false} RunsTile(ds: seq<int>)
    requires ds != []
    ensures Tiles(RunLengths(ds), ds)
  {
    var n := |ds| - 1;
    if n == 0 {
      assert RunLengths(ds)[..0] == [];
    } else {
      hide Tiles;
      RunsTile(ds[..n]);
      TilesMore(RunLengths(ds[..n]), ds);
    }
  }

  /** One more difference: the last run grows, or a new one begins. */
  lemma TilesMore(r: seq<Rle>, ds: seq<int>)
    requires ds != [] && r != [] && Tiles(r, ds[..|ds| - 1])
    ensures var l, x := r[|r| - 1], ds[|ds| - 1];
            Tiles(if l.val == x then r[|r| - 1 := Rle(l.freq + 1, l.val)] else r + [Rle(1, x)], ds)
  {
    hide Tiles, RunAt;
    var n, m := |ds| - 1, |r| - 1;
    TilesParts(r, ds[..n]);
    if r[m].val == ds[n] {
      var l := Rle(r[m].freq + 1, r[m].val);
      assert r[m := l] == r[..m] + [l];
      assert ds[..n][..n - r[m].freq] == ds[..n - r[m].freq];
      RunGrows(ds, n - r[m].freq, r[m]);
      TilesSnoc(r[..m], l, ds);
    } else {
      assert RunAt(ds, n, Rle(1, ds[n])) by { OneAt(ds, n); }
      TilesSnoc(r, Rle(1, ds[n]), ds);
    }
  }

  lemma OneAt(ds: seq<int>, n: nat)
    requires n < |ds|
    ensures RunAt(ds, n, Rle(1, ds[n]))
  {
  }

  lemma RunGrows(ds: seq<int>, at: nat, r: Rle)
    requires ds != [] && RunAt(ds[..|ds| - 1], at, r) && at + r.freq == |ds| - 1 && ds[|ds| - 1] == r.val
    ensures RunAt(ds, at, Rle(r.freq + 1, r.val))
  {
    var n := |ds| - 1;
    forall i | at <= i < at + r.freq + 1
      ensures ds[i] == r.val
    {
      if i < n {
        assert ds[..n][i] == r.val;
      }
    }
  }

  lemma TilesParts(rs: seq<Rle>, ds: seq<int>)
    requires Tiles(rs, ds) && rs != []
    ensures var l := rs[|rs| - 1];
            && 1 <= l.freq <= |ds| && RunAt(ds, |ds| - l.freq, l)
            && (|rs| > 1 ==> rs[|rs| - 2].val != l.val) && Tiles(rs[..|rs| - 1], ds[..|ds| - l.freq])
  {
    hide RunAt;
  }

  lemma TilesSnoc(init: seq<Rle>, l: Rle, ds: seq<int>)
    requires 1 <= l.freq <= |ds| && RunAt(ds, |ds| - l.freq, l) && (init != [] ==> init[|init| - 1].val != l.val)
    requires Tiles(init, ds[..|ds| - l.freq])
    ensures Tiles(init + [l], ds)
  {
    hide RunAt;
    Snoc(init, l);
  }

  lemma {:induction false} OffsetPrefix(a: seq<Rle>, k: nat, m: nat)
    requires k <= m <= |a|
    ensures Offset(a[..m], k) == Offset(a, k)
  {
    if k > 0 {
      OffsetPrefix(a, k - 1, m);
    }
  }

  lemma {:induction false} TilesTotal(rs: seq<Rle>, ds: seq<int>)
    requires Tiles(rs, ds)
    ensures Offset(rs, |rs|) == |ds|
  {
    if rs != [] {
      var m := |rs| - 1;
      TilesTotal(rs[..m], ds[..|ds| - rs[m].freq]);
      OffsetPrefix(rs, m, m);
    }
  }

  /** The k-th run lies where the runs before it end. */
  lemma {:induction false} TilesAt(rs: seq<Rle>, ds: seq<int>, k: nat)
    requires Tiles(rs, ds) && k < |rs|
    ensures RunAt(ds, Offset(rs, k), rs[k])
    ensures k > 0 ==> rs[k].val != rs[k - 1].val
  {
    var m := |rs| - 1;
    var rest := ds[..|ds| - rs[m].freq];
    OffsetPrefix(rs, k, m);
    if k == m {
      TilesTotal(rs[..m], rest);
    } else {
      TilesAt(rs[..m], rest, k);
      assert forall i :: 0 <= i < |rest| ==> rest[i] == ds[i];
    }
  }

  // ----- Encoder state

  /** Output so far and number of elements consumed; the last column consumed
      is `Before(xs, vi)`. */
  datatype State = State(out: seq<Elem>, vi: nat)

  ghost predicate StateOk(o: Order, s: State, xs: seq<int>, vs: seq<real>) {
    && |xs| == |vs|
    && s.vi <= |xs|
    && Expand(o, s.out) == Zip(xs, vs)[..s.vi]
  }

  ghost predicate Increasing(xs: seq<int>) {
    && (forall i :: 0 <= i < |xs| ==> xs[i] >= 1)
    && (forall i, j :: 0 <= i < j < |xs| ==> xs[i] < xs[j])
  }

  /** Single elements stay as they are. */
  lemma {:induction false} ExpandSingles(o: Order, start: int, step: int, vs: seq<real>)
    ensures Expand(o, Singles(start, step, vs)) == Singles(start, step, vs)
    decreases |vs|
  {
    hide *;
    SinglesParts(start, step, vs);
    if vs == [] {
      ExpandNone(o);
    } else {
      var h, t := [Single(start, vs[0])], Singles(start + step, step, vs[1..]);
      ExpandConcat(o, h, t);
      ExpandOne(o, h[0]);
      OpenedSingle(o, h[0]);
      ExpandSingles(o, start + step, step, vs[1..]);
    }
  }

  lemma SinglesParts(start: int, step: int, vs: seq<real>)
    ensures Singles(start, step, vs)
         == if vs == [] then [] else [Single(start, vs[0])] + Singles(start + step, step, vs[1..])
  {
  }

  lemma OpenedSingle(o: Order, e: Elem)
    requires e.Single?
    ensures Opened(o, e) == [e]
  {
  }

  /** Dropping an absorbed single drops exactly the last pair. */
  lemma DropLast(o: Order, s: State, xs: seq<int>, vs: seq<real>)
    requires StateOk(o, s, xs, vs) && s.out != [] && s.out[|s.out| - 1].Single?
    ensures s.vi >= 1
    ensures Expand(o, s.out[..|s.out| - 1]) == Zip(xs, vs)[..s.vi - 1]
  {
    var n := |s.out| - 1;
    assert |Expand(o, s.out)| == |Expand(o, s.out[..n])| + 1;
    assert Expand(o, s.out[..n]) == Expand(o, s.out)[..s.vi - 1];
  }

  /** A run of the input is a run of columns. */
  lemma {:induction false} RunPairs(xs: seq<int>, vs: seq<real>, at: nat, n: nat, val: int)
    requires |xs| == |vs| && at + n <= |xs|
    requires forall i :: at <= i < at + n ==> Deltas(xs)[i] == val
    ensures Zip(xs, vs)[at..at + n] == Singles(Before(xs, at) + val, val, vs[at..at + n])
    decreases n
  {
    if n == 0 {
      assert Zip(xs, vs)[at..at + n] == [];
      assert vs[at..at + n] == [];
    } else {
      var b := Before(xs, at) + val;
      assert xs[at] == b by { assert Deltas(xs)[at] == val; }
      RunPairs(xs, vs, at + 1, n - 1, val);
      calc {
        Zip(xs, vs)[at..at + n];
        { DropSlice(Zip(xs, vs), at, at + n); }
        [Single(b, vs[at])] + Zip(xs, vs)[at + 1..at + n];
        [Single(b, vs[at])] + Singles(b + val, val, vs[at + 1..at + n]);
        { DropSlice(vs, at, at + n); }
        Singles(b, val, vs[at..at + n]);
      }
    }
  }

  /** The same with the element before the run, one step earlier. */
  lemma RunPairsBack(xs: seq<int>, vs: seq<real>, at: nat, n: nat, val: int)
    requires |xs| == |vs| && 1 <= at && at + n <= |xs|
    requires forall i :: at <= i < at + n ==> Deltas(xs)[i] == val
    ensures Zip(xs, vs)[at - 1..at + n] == Singles(xs[at - 1], val, vs[at - 1..at + n])
  {
    RunPairs(xs, vs, at, n, val);
    DropSlice(vs, at - 1, at + n);
    DropSlice(Zip(xs, vs), at - 1, at + n);
  }

  /** The segment of the input that a run covers, with `back` elements before it. */
  function Segment(vs: seq<real>, s: State, r: Rle, back: nat): seq<real> {
    if back <= s.vi && s.vi + r.freq <= |vs| then vs[s.vi - back..s.vi + r.freq] else []
  }

  function SegStart(xs: seq<int>, s: State, r: Rle, back: nat): int {
    if s.vi > |xs| then 0 else if back == 1 then Before(xs, s.vi) else Before(xs, s.vi) + r.val
  }

  /** The output without the absorbed element. */
  function Kept(s: State, back: nat): seq<Elem> {
    if back == 1 && s.out != [] then s.out[..|s.out| - 1] else s.out
  }

  /** Dropping the last `back` singles and appending output that expands to the
      run keeps the state right. */
  lemma Advance(o: Order, xs: seq<int>, vs: seq<real>, s: State, r: Rle, back: nat, more: seq<Elem>)
    requires StateOk(o, s, xs, vs) && RunAt(Deltas(xs), s.vi, r)
    requires back <= 1 && (back == 1 ==> s.out != [] && s.out[|s.out| - 1].Single?)
    requires back <= s.vi
    requires Expand(o, more) == Singles(SegStart(xs, s, r, back), r.val, Segment(vs, s, r, back))
    ensures StateOk(o, State(Kept(s, back) + more, s.vi + r.freq), xs, vs)
  {
    hide Expand, Singles, Deltas, Zip;
    SegmentPairs(xs, vs, s, r, back);
    KeptPairs(o, xs, vs, s, back);
    Append(o, Kept(s, back), more, Zip(xs, vs), s.vi - back, s.vi + r.freq);
  }

  lemma KeptPairs(o: Order, xs: seq<int>, vs: seq<real>, s: State, back: nat)
    requires StateOk(o, s, xs, vs) && back <= 1 && (back == 1 ==> s.out != [] && s.out[|s.out| - 1].Single?)
    requires back <= s.vi
    ensures Expand(o, Kept(s, back)) == Zip(xs, vs)[..s.vi - back]
  {
    if back == 1 {
      DropLast(o, s, xs, vs);
    }
  }

  lemma SegmentPairs(xs: seq<int>, vs: seq<real>, s: State, r: Rle, back: nat)
    requires |xs| == |vs| && RunAt(Deltas(xs), s.vi, r) && back <= 1 && back <= s.vi
    ensures |Segment(vs, s, r, back)| == r.freq + back
    ensures Zip(xs, vs)[s.vi - back..s.vi + r.freq] == Singles(SegStart(xs, s, r, back), r.val, Segment(vs, s, r, back))
  {
    hide Singles, Zip;
    if back == 1 {
      RunPairsBack(xs, vs, s.vi, r.freq, r.val);
    } else {
      RunPairs(xs, vs, s.vi, r.freq, r.val);
    }
  }

  lemma Append(o: Order, kept: seq<Elem>, more: seq<Elem>, z: seq<Elem>, a: nat, b: nat)
    requires a <= b <= |z| && Expand(o, kept) == z[..a] && Expand(o, more) == z[a..b]
    ensures Expand(o, kept + more) == z[..b]
  {
    ExpandConcat(o, kept, more);
    Glue(z, a, b);
  }

  lemma BackFits(o: Order, xs: seq<int>, vs: seq<real>, s: State, r: Rle)
    requires StateOk(o, s, xs, vs) && Increasing(xs) && RunAt(Deltas(xs), s.vi, r)
    ensures r.val >= 1
    ensures s.vi + r.freq <= |vs|
    ensures s.out != [] && s.out[|s.out| - 1].Single? ==> s.vi >= 1
  {
    assert Deltas(xs)[s.vi] == r.val;
    if s.out != [] && s.out[|s.out| - 1].Single? {
      DropLast(o, s, xs, vs);
    }
  }

  // ----- Linear orders

  /** A run of n equal steps, cut into patterns of at most `max` while at least
      `min` elements are left; the rest stays single. */
  function EncodeRun(c: Config, start: int, step: nat, vs: seq<real>): seq<Elem>
    requires c.Good()
    decreases |vs|
  {
    if |vs| < c.min then Singles(start, step, vs)
    else
      var size := if c.max < |vs| then c.max else |vs|;
      [Pat(start, DeltaRLE(size, step, c.order), vs[..size])]
      + EncodeRun(c, start + Times(step, size), step, vs[size..])
  }

  lemma {:induction false} ExpandEncodeRun(c: Config, start: int, step: nat, vs: seq<real>)
    requires c.Good()
    ensures Expand(c.order, EncodeRun(c, start, step, vs)) == Singles(start, step, vs)
    decreases |vs|
  {
    hide Expand, Singles, Times;
    if |vs| < c.min {
      ExpandSingles(c.order, start, step, vs);
    } else {
      var size := if c.max < |vs| then c.max else |vs|;
      var head := Pat(start, DeltaRLE(size, step, c.order), vs[..size]);
      ExpandEncodeRun(c, start + Times(step, size), step, vs[size..]);
      ExpandHeadTail(c.order, head, EncodeRun(c, start + Times(step, size), step, vs[size..]), start, step, vs, size);
    }
  }

  /** A pattern over the first part of a run and output for the rest. */
  lemma ExpandHeadTail(o: Order, head: Elem, tail: seq<Elem>, start: int, step: int, vs: seq<real>, size: nat)
    requires size <= |vs| && head.Pat? && head.p.order == o && head.x == start && head.p.Step() == step
         && head.vals == vs[..size]
    requires Expand(o, tail) == Singles(start + Times(step, size), step, vs[size..])
    ensures Expand(o, [head] + tail) == Singles(start, step, vs)
  {
    calc {
      Expand(o, [head] + tail);
      { ExpandConcat(o, [head], tail); ExpandOne(o, head); }
      Singles(start, step, vs[..size]) + Singles(start + Times(step, size), step, vs[size..]);
      { SinglesConcat(start, step, vs[..size], vs[size..]); }
      Singles(start, step, vs[..size] + vs[size..]);
      { Halves(vs, size); }
      Singles(start, step, vs);
    }
  }

  /** The element before a run joins it unless it is a pattern already. */
  function Absorbed(c: Config, s: State): nat {
    if s.vi != 0 && !c.numa && s.out != [] && s.out[|s.out| - 1].Single? then 1 else 0
  }

  function LinearStep(c: Config, xs: seq<int>, vs: seq<real>, s: State, r: Rle): State
    requires c.Good()
  {
    if r.freq != 1 && r.val >= 0 && r.val in c.deltas then
      var back := Absorbed(c, s);
      State(Kept(s, back) + EncodeRun(c, SegStart(xs, s, r, back), r.val, Segment(vs, s, r, back)), s.vi + r.freq)
    else
      KeepSingles(xs, vs, s, r)
  }

  /** A run that is not encoded is copied element by element. */
  function KeepSingles(xs: seq<int>, vs: seq<real>, s: State, r: Rle): State {
    State(s.out + Singles(SegStart(xs, s, r, 0), r.val, Segment(vs, s, r, 0)), s.vi + r.freq)
  }

  lemma LinearStepOk(c: Config, xs: seq<int>, vs: seq<real>, s: State, r: Rle)
    requires c.Good() && StateOk(c.order, s, xs, vs) && Increasing(xs) && RunAt(Deltas(xs), s.vi, r)
    ensures StateOk(c.order, LinearStep(c, xs, vs, s, r), xs, vs)
  {
    hide Expand, Zip, Singles, EncodeRun;
    BackFits(c.order, xs, vs, s, r);
    if r.freq != 1 && r.val in c.deltas {
      var back := Absorbed(c, s);
      ExpandEncodeRun(c, SegStart(xs, s, r, back), r.val, Segment(vs, s, r, back));
      Advance(c.order, xs, vs, s, r, back, EncodeRun(c, SegStart(xs, s, r, back), r.val, Segment(vs, s, r, back)));
    } else {
      KeepSinglesOk(c.order, xs, vs, s, r);
    }
  }

  lemma KeepSinglesOk(o: Order, xs: seq<int>, vs: seq<real>, s: State, r: Rle)
    requires StateOk(o, s, xs, vs) && RunAt(Deltas(xs), s.vi, r)
    ensures StateOk(o, KeepSingles(xs, vs, s, r), xs, vs)
    ensures KeepSingles(xs, vs, s, r).out != []
    ensures KeepSingles(xs, vs, s, r).out[|KeepSingles(xs, vs, s, r).out| - 1].Single?
  {
    hide Expand, Zip, Singles;
    var seg := Segment(vs, s, r, 0);
    SegmentPairs(xs, vs, s, r, 0);
    ExpandSingles(o, SegStart(xs, s, r, 0), r.val, seg);
    Advance(o, xs, vs, s, r, 0, Singles(SegStart(xs, s, r, 0), r.val, seg));
    LastSingle(SegStart(xs, s, r, 0), r.val, seg);
  }

  lemma {:induction false} LastSingle(start: int, step: int, vs: seq<real>)
    requires vs != []
    ensures Singles(start, step, vs)[|vs| - 1].Single?
    decreases |vs|
  {
    if |vs| > 1 {
      LastSingle(start + step, step, vs[1..]);
    }
  }

  /** The state after the first k runs of a linear order. */
  function LinearRuns(c: Config, xs: seq<int>, vs: seq<real>, rles: seq<Rle>, k: nat): State
    requires c.Good() && k <= |rles|
  {
    if k == 0 then State([], 0) else LinearStep(c, xs, vs, LinearRuns(c, xs, vs, rles, k - 1), rles[k - 1])
  }

  /** After every run of a linear order the output expands to the input consumed. */
  lemma {:induction false} LinearRunsOk(c: Config, xs: seq<int>, vs: seq<real>, rles: seq<Rle>, k: nat)
    requires c.Good() && Increasing(xs) && |xs| == |vs| && Tiles(rles, Deltas(xs)) && k <= |rles|
    ensures StateOk(c.order, LinearRuns(c, xs, vs, rles, k), xs, vs)
    ensures LinearRuns(c, xs, vs, rles, k).vi == Offset(rles, k)
  {
    hide Tiles, Zip, KeepSingles, EncodeRun;
    if k > 0 {
      LinearRunsOk(c, xs, vs, rles, k - 1);
      TilesAt(rles, Deltas(xs), k - 1);
      LinearStepOk(c, xs, vs, LinearRuns(c, xs, vs, rles, k - 1), rles[k - 1]);
      LinearStepVi(c, xs, vs, LinearRuns(c, xs, vs, rles, k - 1), rles[k - 1]);
    }
  }

  lemma LinearStepVi(c: Config, xs: seq<int>, vs: seq<real>, s: State, r: Rle)
    requires c.Good()
    ensures LinearStep(c, xs, vs, s, r).vi == s.vi + r.freq
  {
  }

  // ----- Block orders

  /** How many elements are skipped to reach a block boundary. */
  function SkipFront(a: nat, col: int): nat
    requires a >= 1
  {
    if col == 1 then 0 else if (col - 2) % a == 0 then 0 else a - (col - 2) % a
  }

  /** Elements of the run, with the one before it unless it is the first column,
      from the first block boundary on. */
  function Available(a: nat, col: int, freq: nat): nat
    requires a >= 1
  {
    var n := if col == 1 then freq else freq + 1;
    if n > SkipFront(a, col) then n - SkipFront(a, col) else 0
  }

  /** The largest multiple of m that is at most n. */
  function FloorTo(n: nat, m: nat): (r: nat)
    requires m >= 1
    ensures r <= n < r + m
    ensures n >= m ==> r >= m
  {
    FloorFacts(n, m);
    n / m * m
  }

  lemma FloorFacts(n: nat, m: nat)
    requires m >= 1
    ensures n / m * m <= n < n / m * m + m
    ensures n >= m ==> n / m * m >= m
  {
    var q := n / m;
    assert n == q * m + n % m;
    if q >= 1 {
      MulMono(1, q, m);
    }
  }

  /** Blocks of equal size from `start` on, while `avail` elements allow it; what
      is left over stays single. */
  function EqualBlocks(c: Config, start: int, size: nat, avail: nat, vs: seq<real>): seq<Elem>
    requires c.order.Align() != 0 && size >= 1 && avail <= |vs|
    decreases avail
  {
    if avail < size then Singles(start, 1, vs)
    else
      [Pat(start, BlockRLE(size, size / c.order.Align(), c.order), vs[..size])]
      + EqualBlocks(c, start + size, size, avail - size, vs[size..])
  }

  lemma {:induction false} ExpandEqualBlocks(c: Config, start: int, size: nat, avail: nat, vs: seq<real>)
    requires c.order.Align() != 0 && size >= 1 && avail <= |vs|
    ensures Expand(c.order, EqualBlocks(c, start, size, avail, vs)) == Singles(start, 1, vs)
    decreases avail
  {
    hide Expand, Singles, Times;
    if avail < size {
      ExpandSingles(c.order, start, 1, vs);
    } else {
      var head := Pat(start, BlockRLE(size, size / c.order.Align(), c.order), vs[..size]);
      var tail := EqualBlocks(c, start + size, size, avail - size, vs[size..]);
      ExpandEqualBlocks(c, start + size, size, avail - size, vs[size..]);
      TimesOne(size);
      ExpandHeadTail(c.order, head, tail, start, 1, vs, size);
    }
  }

  /** Blocks of the largest allowed dimension that still fits, then smaller ones. */
  function SplitBlocks(c: Config, deltas: seq<nat>, start: int, other: nat, vs: seq<real>): seq<Elem>
    requires c.order.Align() != 0 && c.order.Align() * other <= |vs|
    requires forall i :: 0 <= i < |deltas| ==> deltas[i] >= 1
    decreases other, |deltas|
  {
    if deltas == [] then Singles(start, 1, vs)
    else
      var d := deltas[|deltas| - 1];
      if other >= d then
        var size := c.order.Align() * d;
        SizeFits(c.order.Align(), d, other);
        [Pat(start, BlockRLE(size, d, c.order), vs[..size])]
        + SplitBlocks(c, deltas, start + size, other - d, vs[size..])
      else SplitBlocks(c, deltas[..|deltas| - 1], start, other, vs)
  }

  lemma SizeFits(a: nat, d: nat, other: nat)
    requires d <= other
    ensures a * d <= a * other
    ensures a * (other - d) == a * other - a * d
  {
    MulMono(d, other, a);
  }

  lemma {:induction false} ExpandSplitBlocks(c: Config, deltas: seq<nat>, start: int, other: nat, vs: seq<real>)
    requires c.order.Align() != 0 && c.order.Align() * other <= |vs|
    requires forall i :: 0 <= i < |deltas| ==> deltas[i] >= 1
    ensures Expand(c.order, SplitBlocks(c, deltas, start, other, vs)) == Singles(start, 1, vs)
    decreases other, |deltas|
  {
    hide Expand, Singles, Times;
    if deltas == [] {
      ExpandSingles(c.order, start, 1, vs);
    } else {
      var d := deltas[|deltas| - 1];
      if other >= d {
        var size := c.order.Align() * d;
        SizeFits(c.order.Align(), d, other);
        var head := Pat(start, BlockRLE(size, d, c.order), vs[..size]);
        var tail := SplitBlocks(c, deltas, start + size, other - d, vs[size..]);
        ExpandSplitBlocks(c, deltas, start + size, other - d, vs[size..]);
        TimesOne(size);
        ExpandHeadTail(c.order, head, tail, start, 1, vs, size);
      } else {
        ExpandSplitBlocks(c, deltas[..|deltas| - 1], start, other, vs);
      }
    }
  }

  /** The block size limit, rounded down to whole blocks. */
  function MaxBlock(c: Config): (m: nat)
    requires c.Good() && c.order.Align() != 0 && !c.splitBlocks
    ensures 1 <= m <= c.max
  {
    FloorTo(c.max, c.order.Align())
  }

  /** The size of each block when blocks are not split by the allowed dimensions. */
  function BlockSize(c: Config, avail: nat): (size: nat)
    requires c.Good() && c.order.Align() != 0 && !c.splitBlocks
    ensures size <= avail && size <= c.max
    ensures avail >= 1 ==> size >= 1
  {
    if MaxBlock(c) < avail then MaxBlock(c) else avail
  }

  /** Whether a run is turned into blocks at all. */
  predicate Blocks(c: Config, col: int, r: Rle)
    requires c.order.Align() != 0
  {
    var a := c.order.Align();
    var avail := Available(a, col, r.freq);
    && r.val == 1
    && FloorTo(avail, a) >= 2 * a
    && (c.splitBlocks || Quot(FloorTo(avail, a), a) in c.deltas)
  }

  function BlockBody(c: Config, start: int, avail: nat, vs: seq<real>): seq<Elem>
    requires c.Good() && c.order.Align() != 0
  {
    var a := c.order.Align();
    if !(a <= avail <= |vs|) then Singles(start, 1, vs)
    else if c.splitBlocks then
      WholeBlocks(a, avail);
      SplitBlocks(c, c.deltas, start, avail / a, vs)
    else
      EqualBlocks(c, start, BlockSize(c, FloorTo(avail, a)), FloorTo(avail, a), vs)
  }

  lemma WholeBlocks(a: nat, avail: nat)
    requires a >= 1
    ensures a * (avail / a) <= avail
  {
    FloorFacts(avail, a);
  }

  lemma ExpandBlockBody(c: Config, start: int, avail: nat, vs: seq<real>)
    requires c.Good() && c.order.Align() != 0
    ensures Expand(c.order, BlockBody(c, start, avail, vs)) == Singles(start, 1, vs)
  {
    var a := c.order.Align();
    if !(a <= avail <= |vs|) {
      ExpandSingles(c.order, start, 1, vs);
    } else if c.splitBlocks {
      WholeBlocks(a, avail);
      ExpandSplitBlocks(c, c.deltas, start, avail / a, vs);
    } else {
      ExpandEqualBlocks(c, start, BlockSize(c, FloorTo(avail, a)), FloorTo(avail, a), vs);
    }
  }

  /** The run with the element before it: skipped singles, blocks, left-over singles. */
  function BlockOut(c: Config, start: int, skip: nat, avail: nat, vs: seq<real>): seq<Elem>
    requires c.Good() && c.order.Align() != 0
  {
    if skip > |vs| then Singles(start, 1, vs)
    else Singles(start, 1, vs[..skip]) + BlockBody(c, start + skip, avail, vs[skip..])
  }

  lemma ExpandBlockOut(c: Config, start: int, skip: nat, avail: nat, vs: seq<real>)
    requires c.Good() && c.order.Align() != 0 && skip <= |vs|
    ensures Expand(c.order, BlockOut(c, start, skip, avail, vs)) == Singles(start, 1, vs)
  {
    hide Expand, BlockBody, Singles;
    calc {
      Expand(c.order, BlockOut(c, start, skip, avail, vs));
      { ExpandConcat(c.order, Singles(start, 1, vs[..skip]), BlockBody(c, start + skip, avail, vs[skip..])); }
      Expand(c.order, Singles(start, 1, vs[..skip])) + Expand(c.order, BlockBody(c, start + skip, avail, vs[skip..]));
      { ExpandSingles(c.order, start, 1, vs[..skip]); ExpandBlockBody(c, start + skip, avail, vs[skip..]); }
      Singles(start, 1, vs[..skip]) + Singles(start + skip, 1, vs[skip..]);
      { TimesOne(skip); SinglesConcat(start, 1, vs[..skip], vs[skip..]); }
      Singles(start, 1, vs[..skip] + vs[skip..]);
      { Halves(vs, skip); }
      Singles(start, 1, vs);
    }
  }

  /** A run of delta 1 that does not start the stretch follows a single element. */
  ghost predicate BackIsSingle(s: State, r: Rle) {
    r.val == 1 && s.vi != 0 ==> s.out != [] && s.out[|s.out| - 1].Single?
  }

  function BlockStepOf(c: Config, xs: seq<int>, vs: seq<real>, s: State, r: Rle): State
    requires c.Good() && c.order.Align() != 0
  {
    var a := c.order.Align();
    var col := SegStart(xs, s, r, 0);
    if Blocks(c, col, r) then
      var back := if s.vi == 0 then 0 else 1;
      State(Kept(s, back) + BlockOut(c, SegStart(xs, s, r, back), SkipFront(a, col), Available(a, col, r.freq),
                                     Segment(vs, s, r, back)),
            s.vi + r.freq)
    else
      KeepSingles(xs, vs, s, r)
  }

  lemma BlockStepOk(c: Config, xs: seq<int>, vs: seq<real>, s: State, r: Rle)
    requires c.Good() && c.order.Align() != 0
    requires StateOk(c.order, s, xs, vs) && Increasing(xs) && RunAt(Deltas(xs), s.vi, r) && BackIsSingle(s, r)
    ensures StateOk(c.order, BlockStepOf(c, xs, vs, s, r), xs, vs)
    ensures BlockStepOf(c, xs, vs, s, r).vi == s.vi + r.freq
    ensures r.val != 1 ==> BlockStepOf(c, xs, vs, s, r).out != []
                           && BlockStepOf(c, xs, vs, s, r).out[|BlockStepOf(c, xs, vs, s, r).out| - 1].Single?
  {
    hide Expand, Zip, Singles, BlockOut, FloorTo, SkipFront, Available, Kept;
    BackFits(c.order, xs, vs, s, r);
    var a := c.order.Align();
    var col := SegStart(xs, s, r, 0);
    if Blocks(c, col, r) {
      var back := if s.vi == 0 then 0 else 1;
      SkipFits(a, col, r.freq);
      FirstColumn(c.order, xs, vs, s, r);
      SegmentPairs(xs, vs, s, r, back);
      ExpandBlockOut(c, SegStart(xs, s, r, back), SkipFront(a, col), Available(a, col, r.freq),
                     Segment(vs, s, r, back));
      Advance(c.order, xs, vs, s, r, back,
              BlockOut(c, SegStart(xs, s, r, back), SkipFront(a, col), Available(a, col, r.freq),
                       Segment(vs, s, r, back)));
    } else {
      KeepSinglesOk(c.order, xs, vs, s, r);
    }
  }

  lemma FirstColumn(o: Order, xs: seq<int>, vs: seq<real>, s: State, r: Rle)
    requires StateOk(o, s, xs, vs) && Increasing(xs) && RunAt(Deltas(xs), s.vi, r) && r.val == 1
    ensures SegStart(xs, s, r, 0) == 1 <==> s.vi == 0
  {
  }

  lemma SkipFits(a: nat, col: int, freq: nat)
    requires a >= 1 && FloorTo(Available(a, col, freq), a) >= 2 * a
    ensures SkipFront(a, col) + Available(a, col, freq) == if col == 1 then freq else freq + 1
    ensures Available(a, col, freq) >= a
  {
  }

  /** The state after the first k runs of a block order. */
  function BlockRuns(c: Config, xs: seq<int>, vs: seq<real>, rles: seq<Rle>, k: nat): State
    requires c.Good() && c.order.Align() != 0 && k <= |rles|
  {
    if k == 0 then State([], 0) else BlockStepOf(c, xs, vs, BlockRuns(c, xs, vs, rles, k - 1), rles[k - 1])
  }

  /** After every run of a block order the output expands to the input consumed. */
  lemma {:induction false} BlockRunsOk(c: Config, xs: seq<int>, vs: seq<real>, rles: seq<Rle>, k: nat)
    requires c.Good() && c.order.Align() != 0
    requires Increasing(xs) && |xs| == |vs| && Tiles(rles, Deltas(xs)) && k <= |rles|
    ensures StateOk(c.order, BlockRuns(c, xs, vs, rles, k), xs, vs)
    ensures BlockRuns(c, xs, vs, rles, k).vi == Offset(rles, k)
    ensures k < |rles| ==> BackIsSingle(BlockRuns(c, xs, vs, rles, k), rles[k])
  {
    hide Tiles, Zip, BlockStepOf;
    if k > 0 {
      BlockRunsOk(c, xs, vs, rles, k - 1);
      TilesAt(rles, Deltas(xs), k - 1);
      BlockStepOk(c, xs, vs, BlockRuns(c, xs, vs, rles, k - 1), rles[k - 1]);
      if k < |rles| {
        TilesAt(rles, Deltas(xs), k);
      }
    }
  }

  // ----- The encoded stretch

  /** What the row encoder produces for one stretch of single elements. */
  function Encoded(c: Config, xs: seq<int>, vs: seq<real>): seq<Elem>
    requires c.Good() && xs != []
  {
    var rles := RunLengths(Deltas(xs));
    if c.order.Align() != 0 then BlockRuns(c, xs, vs, rles, |rles|).out else LinearRuns(c, xs, vs, rles, |rles|).out
  }

  /** Expanding the output gives back exactly the columns and values, in order. */
  lemma EncodedRoundTrip(c: Config, xs: seq<int>, vs: seq<real>)
    requires c.Good() && Increasing(xs) && |xs| == |vs| && xs != []
    ensures Expand(c.order, Encoded(c, xs, vs)) == Zip(xs, vs)
  {
    hide Expand, Zip, Tiles, LinearRuns, BlockRuns;
    RunsTile(Deltas(xs));
    var rles := RunLengths(Deltas(xs));
    TilesTotal(rles, Deltas(xs));
    if c.order.Align() != 0 {
      BlockRunsOk(c, xs, vs, rles, |rles|);
    } else {
      LinearRunsOk(c, xs, vs, rles, |rles|);
    }
    Whole(Zip(xs, vs));
  }
}

/** What the row encoders must not leave undone.

    `LinearFull`: no `min` single elements with one step that is to be encoded stay in a
    row, and a pattern of less than the largest size takes its whole run.  For blocks,
    `EqualBlocksMade` and `SplitCovers` say where blocks must be, in terms of the columns
    alone. */
module RowFull {
  import opened Orders
  import opened Matrix
  import opened Products
  import opened RowCodec
  import opened RowShape

  // ----- Linear orders

  /** n single elements from position i on, each d columns behind the one before. */
  ghost predicate StepSingles(out: seq<Elem>, i: nat, n: nat, d: int) {
    && i + n <= |out| && (forall k :: i <= k < i + n ==> out[k].Single?)
    && forall k :: i < k < i + n ==> out[k].x == out[k - 1].x + d
  }

  /** No run that is long enough and listed is left as single elements. */
  ghost predicate NoRunLeft(c: Config, out: seq<Elem>) {
    forall i: nat, d: nat {:trigger StepSingles(out, i, c.min, d)} :: d in c.deltas ==> !StepSingles(out, i, c.min, d)
  }

  /** The column behind a pattern, one step on. */
  function Behind(e: Elem): int
    requires e.Pat?
  {
    e.x + Times(e.p.Step(), e.p.size)
  }

  /** A pattern takes all of its run: the single element before it is not one step away,
      nor is what follows it unless it has the largest size. */
  ghost predicate TakesRun(c: Config, out: seq<Elem>, i: nat)
    requires i < |out| && out[i].Pat?
  {
    && (i > 0 && out[i - 1].Single? ==> out[i].x != out[i - 1].x + out[i].p.Step())
    && (i + 1 < |out| && out[i].p.size < c.max ==> out[i + 1].x != Behind(out[i]))
  }

  ghost predicate AllTaken(c: Config, out: seq<Elem>) {
    forall i {:trigger out[i]} :: 0 <= i < |out| && out[i].Pat? ==> TakesRun(c, out, i)
  }

  ghost predicate LinearlyFull(c: Config, out: seq<Elem>) {
    NoRunLeft(c, out) && AllTaken(c, out)
  }

  /** The last columns of the output are the last of the input consumed. */
  lemma LastColumns(o: Order, s: State, xs: seq<int>, vs: seq<real>)
    requires StateOk(o, s, xs, vs) && s.out != [] && s.out[|s.out| - 1].Single?
    ensures s.vi >= 1 && s.out[|s.out| - 1].x == xs[s.vi - 1]
    ensures |s.out| >= 2 && s.out[|s.out| - 2].Single? ==>
              s.vi >= 2 && s.out[|s.out| - 1].x - s.out[|s.out| - 2].x == Deltas(xs)[s.vi - 1]
  {
    OneBack(o, s, xs, vs);
    var n := |s.out| - 1;
    if n >= 1 && s.out[n - 1].Single? {
      OneBack(o, State(s.out[..n], s.vi - 1), xs, vs);
    }
  }

  lemma OneBack(o: Order, s: State, xs: seq<int>, vs: seq<real>)
    requires StateOk(o, s, xs, vs) && s.out != [] && s.out[|s.out| - 1].Single?
    ensures s.vi >= 1 && s.out[|s.out| - 1].x == xs[s.vi - 1]
    ensures StateOk(o, State(s.out[..|s.out| - 1], s.vi - 1), xs, vs)
  {
    var n := |s.out| - 1;
    DropLast(o, s, xs, vs);
    assert Expand(o, s.out) == Expand(o, s.out[..n]) + [s.out[n]];
    assert Zip(xs, vs)[..s.vi][s.vi - 1] == Zip(xs, vs)[s.vi - 1];
  }

  /** Single elements one step apart. */
  lemma {:induction false} SinglesAre(start: int, step: int, vs: seq<real>)
    ensures var r := Singles(start, step, vs);
            && (forall k :: 0 <= k < |r| ==> r[k].Single?) && (r != [] ==> r[0].x == start)
            && forall k :: 0 < k < |r| ==> r[k].x == r[k - 1].x + step
    decreases |vs|
  {
    if vs != [] {
      SinglesAre(start + step, step, vs[1..]);
      var r, t := Singles(start, step, vs), Singles(start + step, step, vs[1..]);
      assert forall k :: 0 < k < |r| ==> r[k] == t[k - 1];
    }
  }

  /** Patterns first, each but the last of the largest size, then fewer than `min` single
      elements, one step apart; all one behind the other. */
  ghost predicate RunShape(c: Config, es: seq<Elem>, start: int, step: int, t: nat) {
    && t <= |es| && |es| - t < c.min
    && (forall k {:trigger es[k]} :: 0 <= k < t ==> es[k].Pat? && es[k].p.Step() == step)
    && (forall k {:trigger es[k]} :: 0 <= k < t ==> es[k].p.size < c.max ==> k == |es| - 1)
    && (forall k :: t <= k < |es| ==> es[k].Single?)
    && (forall k :: t < k < |es| ==> es[k].x == es[k - 1].x + step)
    && (es != [] ==> es[0].x == start)
  }

  lemma {:induction false} EncodeRunShape(c: Config, start: int, step: nat, vs: seq<real>) returns (t: nat)
    requires c.Good()
    ensures RunShape(c, EncodeRun(c, start, step, vs), start, step, t)
    ensures |vs| >= c.min <==> t > 0
    ensures t == 0 ==> EncodeRun(c, start, step, vs) == Singles(start, step, vs)
    ensures vs != [] ==> EncodeRun(c, start, step, vs) != []
    decreases |vs|
  {
    hide Times, Singles, RunShape, EncodeRun;
    RunParts(c, start, step, vs);
    if |vs| < c.min {
      SinglesShape(c, start, step, vs);
      t := 0;
    } else {
      var size := if c.max < |vs| then c.max else |vs|;
      var u := EncodeRunShape(c, start + Times(step, size), step, vs[size..]);
      t := u + 1;
      if size < c.max {
        RunParts(c, start + Times(step, size), step, vs[size..]);
      }
      PatternFirst(c, Pat(start, DeltaRLE(size, step, c.order), vs[..size]),
                   EncodeRun(c, start + Times(step, size), step, vs[size..]), start + Times(step, size), step, u);
    }
  }

  lemma SinglesShape(c: Config, start: int, step: nat, vs: seq<real>)
    requires |vs| < c.min
    ensures RunShape(c, Singles(start, step, vs), start, step, 0)
  {
    hide Singles;
    SinglesAre(start, step, vs);
  }

  lemma RunParts(c: Config, start: int, step: nat, vs: seq<real>)
    requires c.Good()
    ensures vs == [] ==> EncodeRun(c, start, step, vs) == []
    ensures |vs| < c.min ==> EncodeRun(c, start, step, vs) == Singles(start, step, vs)
    ensures var size := if c.max < |vs| then c.max else |vs|;
            |vs| >= c.min ==>
              EncodeRun(c, start, step, vs) == [Pat(start, DeltaRLE(size, step, c.order), vs[..size])]
                                               + EncodeRun(c, start + Times(step, size), step, vs[size..])
  {
    hide Times;
  }

  lemma PatternFirst(c: Config, head: Elem, rest: seq<Elem>, next: int, step: int, u: nat)
    requires head.Pat? && head.p.Step() == step && RunShape(c, rest, next, step, u) && (head.p.size < c.max ==> rest == [])
    ensures RunShape(c, [head] + rest, head.x, step, u + 1)
  {
    var es := [head] + rest;
    forall k {:trigger es[k]} | 0 < k < |es|
      ensures es[k] == rest[k - 1]
    {
    }
  }

  /** What is known before a run: everything so far is full, and the run before has
      another step. */
  ghost predicate BeforeRun(c: Config, xs: seq<int>, vs: seq<real>, s: State, r: Rle) {
    && c.Good() && c.order.Align() == 0 && !c.numa && c.min >= 3
    && StateOk(c.order, s, xs, vs) && Increasing(xs) && RunAt(Deltas(xs), s.vi, r)
    && (s.vi == 0 ==> s.out == []) && (s.vi > 0 ==> Deltas(xs)[s.vi - 1] != r.val && s.out != [])
    && AllGood(c, s.out) && LastStep(xs, s)
  }

  /** A pattern at the end has the step of the run consumed last. */
  ghost predicate LastStep(xs: seq<int>, s: State) {
    s.out != [] && s.out[|s.out| - 1].Pat? ==> 1 <= s.vi <= |xs| && s.out[|s.out| - 1].p.Step() == Deltas(xs)[s.vi - 1]
  }

  lemma LastPattern(c: Config, xs: seq<int>, vs: seq<real>, s: State)
    requires StateOk(c.order, s, xs, vs) && AllGood(c, s.out) && s.out != [] && s.out[|s.out| - 1].Pat?
    ensures s.vi >= 1 && Behind(s.out[|s.out| - 1]) == xs[s.vi - 1] + s.out[|s.out| - 1].p.Step()
  {
    hide Singles, Times;
    var n := |s.out| - 1;
    var e := s.out[n];
    assert GoodOut(c, e);
    var more := Singles(e.x, e.p.Step(), e.vals);
    assert Expand(c.order, s.out) == Expand(c.order, s.out[..n]) + more;
    SinglesIndex(e.x, e.p.Step(), e.vals, e.p.size - 1);
    assert Zip(xs, vs)[..s.vi][s.vi - 1] == Zip(xs, vs)[s.vi - 1];
    assert more[e.p.size - 1] == Expand(c.order, s.out)[s.vi - 1];
    StepOnce(e.x, e.p.Step(), e.p.size);
  }

  // ----- A run that is encoded

  ghost predicate Taken(c: Config, r: Rle) {
    r.freq != 1 && r.val >= 0 && r.val in c.deltas
  }

  /** What the step appends, and to what. */
  lemma TakenParts(c: Config, xs: seq<int>, vs: seq<real>, s: State, r: Rle) returns (kept: seq<Elem>, es: seq<Elem>,
        t: nat)
    requires BeforeRun(c, xs, vs, s, r) && Taken(c, r)
    ensures LinearStep(c, xs, vs, s, r) == State(kept + es, s.vi + r.freq)
    ensures es != [] && RunShape(c, es, es[0].x, r.val, t)
    ensures kept == s.out ==> s.out == [] || s.out[|s.out| - 1].Pat?
    ensures kept != s.out ==> s.out != [] && 0 < s.vi <= |xs| && es[0].x == xs[s.vi - 1]
    ensures kept != s.out ==> kept == s.out[..|s.out| - 1] && s.out[|s.out| - 1].Single?
    ensures kept == s.out ==> es[0].x == Before(xs, s.vi) + r.val
    ensures es[0].Single? ==> |es| >= 2 && es[1].x == es[0].x + r.val
  {
    hide EncodeRun, Singles, RunShape;
    BackFits(c.order, xs, vs, s, r);
    var back := Absorbed(c, s);
    kept := Kept(s, back);
    es := EncodeRun(c, SegStart(xs, s, r, back), r.val, Segment(vs, s, r, back));
    t := EncodeRunShape(c, SegStart(xs, s, r, back), r.val, Segment(vs, s, r, back));
    ShapeStarts(c, es, SegStart(xs, s, r, back), r.val, t);
  }

  lemma ShapeStarts(c: Config, es: seq<Elem>, start: int, step: int, t: nat)
    requires RunShape(c, es, start, step, t) && es != []
    ensures es[0].x == start && (es[0].Single? ==> t == 0 && (|es| >= 2 ==> es[1].x == start + step))
  {
  }

  lemma TakenNoRun(c: Config, xs: seq<int>, vs: seq<real>, s: State, r: Rle, i: nat, d: nat)
    requires BeforeRun(c, xs, vs, s, r) && Taken(c, r) && NoRunLeft(c, s.out) && d in c.deltas
    ensures !StepSingles(LinearStep(c, xs, vs, s, r).out, i, c.min, d)
  {
    hide LinearStep, Expand, Zip, Deltas, GoodOut, StepSingles, RunShape, RunAt, Increasing, AllGood, LastStep;
    var kept, es, t := TakenParts(c, xs, vs, s, r);
    var out, k := kept + es, |kept|;
    assert out[..k] == s.out[..k] && out[k] == es[0];
    if i >= k {
      RestTooShort(c, kept, es, es[0].x, r.val, t, i, d);
    } else if StepSingles(out, i, c.min, d) {
      if i + c.min <= k {
        SamePrefix(out, s.out, k, i, c.min, d);
      } else {
        StepAt(out, i, c.min, d, k);
        assert out[k - 1] == kept[k - 1] == s.out[k - 1];
        LastColumns(c.order, s, xs, vs);
        StepBefore(c, xs, vs, s, r);
        assert |es| >= 2 && out[k + 1] == es[1];
        if i + c.min > k + 1 {
          StepAt(out, i, c.min, d, k + 1);
        } else {
          SameSingles(out, s.out, k, i, c.min, d);
        }
      }
    }
  }

  lemma StepAt(out: seq<Elem>, i: nat, n: nat, d: int, j: nat)
    requires StepSingles(out, i, n, d) && i < j < i + n
    ensures i + n <= |out| && out[j].Single? && out[j - 1].Single? && out[j].x == out[j - 1].x + d
  {
  }

  /** The run before has another step than this one. */
  lemma StepBefore(c: Config, xs: seq<int>, vs: seq<real>, s: State, r: Rle)
    requires BeforeRun(c, xs, vs, s, r)
    ensures s.vi > 0 ==> Deltas(xs)[s.vi - 1] != r.val
    ensures s.vi < |xs| && xs[s.vi] == Before(xs, s.vi) + r.val
  {
    assert Deltas(xs)[s.vi] == r.val;
  }

  /** The single elements behind the patterns of a run are too few. */
  lemma RestTooShort(c: Config, kept: seq<Elem>, es: seq<Elem>, start: int, step: int, t: nat, i: nat, d: int)
    requires RunShape(c, es, start, step, t) && i >= |kept| && c.min >= 1
    ensures !StepSingles(kept + es, i, c.min, d)
  {
    if i < |kept + es| {
      assert (kept + es)[i] == es[i - |kept|];
    }
  }

  /** The window is found in another list whose first k elements are the same, and the
      next one at the same column. */
  lemma SameSingles(a: seq<Elem>, b: seq<Elem>, k: nat, i: nat, n: nat, d: int)
    requires StepSingles(a, i, n, d) && k < |a| && k < |b| && a[..k] == b[..k] && i + n <= k + 1
    requires b[k].Single? && b[k].x == a[k].x
    ensures StepSingles(b, i, n, d)
  {
    forall j | i <= j < i + n
      ensures b[j].Single? && b[j].x == a[j].x
    {
      if j < k {
        assert a[..k][j] == b[..k][j];
      }
    }
    forall j | i < j < i + n
      ensures b[j].x == b[j - 1].x + d
    {
      assert a[j].x == a[j - 1].x + d;
    }
  }

  lemma SamePrefix(a: seq<Elem>, b: seq<Elem>, k: nat, i: nat, n: nat, d: int)
    requires StepSingles(a, i, n, d) && k <= |a| && k <= |b| && a[..k] == b[..k] && i + n <= k
    ensures StepSingles(b, i, n, d)
  {
    forall j | i <= j < i + n
      ensures b[j] == a[j]
    {
      assert a[..k][j] == b[..k][j];
    }
  }

  lemma TakenTaken(c: Config, xs: seq<int>, vs: seq<real>, s: State, r: Rle)
    requires BeforeRun(c, xs, vs, s, r) && Taken(c, r) && AllTaken(c, s.out)
    ensures AllTaken(c, LinearStep(c, xs, vs, s, r).out) && LastStep(xs, LinearStep(c, xs, vs, s, r))
  {
    hide LinearStep, Expand, Zip, Behind, GoodOut, TakesRun, RunShape, Deltas, Increasing, RunAt, AllGood;
    var kept, es, t := TakenParts(c, xs, vs, s, r);
    var out, k := kept + es, |kept|;
    StepBefore(c, xs, vs, s, r);
    if kept != s.out {
      LastColumns(c.order, s, xs, vs);
    } else if s.out != [] {
      LastPattern(c, xs, vs, s);
    }
    forall i {:trigger out[i]} | 0 <= i < |out| && out[i].Pat?
      ensures TakesRun(c, out, i)
    {
      if i < k {
        assert out[i] == s.out[i];
        OldTaken(c, s.out, kept, es, i);
      } else {
        NewTaken(c, kept, es, es[0].x, r.val, t, i);
      }
    }
    LastOfRun(c, es, r.val, t, xs, s, r);
    assert out[|out| - 1] == es[|es| - 1];
  }

  /** A pattern of the last run has the step of that run. */
  lemma LastOfRun(c: Config, es: seq<Elem>, step: int, t: nat, xs: seq<int>, s: State, r: Rle)
    requires es != [] && RunShape(c, es, es[0].x, step, t) && RunAt(Deltas(xs), s.vi, r) && step == r.val
    ensures 1 <= s.vi + r.freq <= |xs|
    ensures es[|es| - 1].Pat? ==> es[|es| - 1].p.Step() == Deltas(xs)[s.vi + r.freq - 1]
  {
    assert Deltas(xs)[s.vi + r.freq - 1] == r.val;
    if es[|es| - 1].Pat? {
      assert |es| - 1 < t;
    }
  }

  lemma OldTaken(c: Config, before: seq<Elem>, kept: seq<Elem>, es: seq<Elem>, i: nat)
    requires es != [] && |kept| <= |before| && kept == before[..|kept|] && i < |kept| && before[i].Pat?
    requires TakesRun(c, before, i)
    requires kept != before ==> |before| == |kept| + 1 && es[0].x == before[|kept|].x
    requires kept == before && i == |kept| - 1 ==> es[0].x != Behind(before[i])
    ensures TakesRun(c, kept + es, i)
  {
    var out := kept + es;
    assert out[i] == before[i] && (i > 0 ==> out[i - 1] == before[i - 1]);
    if i + 1 < |kept| {
      assert out[i + 1] == before[i + 1];
    } else {
      assert out[i + 1] == es[0];
    }
  }

  lemma NewTaken(c: Config, kept: seq<Elem>, es: seq<Elem>, start: int, step: int, t: nat, i: nat)
    requires RunShape(c, es, start, step, t) && |kept| <= i < |kept + es| && (kept + es)[i].Pat?
    requires kept != [] && kept[|kept| - 1].Single? ==> start != kept[|kept| - 1].x + step
    ensures TakesRun(c, kept + es, i)
  {
    var k := |kept|;
    assert (kept + es)[i] == es[i - k];
    if i > k {
      assert (kept + es)[i - 1] == es[i - 1 - k];
    } else if k > 0 {
      assert (kept + es)[i - 1] == kept[k - 1];
    }
  }

  // ----- A run that is copied

  lemma CopiedParts(c: Config, xs: seq<int>, vs: seq<real>, s: State, r: Rle) returns (es: seq<Elem>)
    requires BeforeRun(c, xs, vs, s, r) && !Taken(c, r)
    ensures LinearStep(c, xs, vs, s, r) == State(s.out + es, s.vi + r.freq)
    ensures (forall k :: 0 <= k < |es| ==> es[k].Single?) && |es| == r.freq >= 1 && es[0].x == Before(xs, s.vi) + r.val
    ensures forall k :: 0 < k < |es| ==> es[k].x == es[k - 1].x + r.val
  {
    hide Expand, Zip, Deltas, GoodOut, Singles, EncodeRun;
    BackFits(c.order, xs, vs, s, r);
    es := Singles(SegStart(xs, s, r, 0), r.val, Segment(vs, s, r, 0));
    SinglesAre(SegStart(xs, s, r, 0), r.val, Segment(vs, s, r, 0));
  }

  lemma CopiedNoRun(c: Config, xs: seq<int>, vs: seq<real>, s: State, r: Rle, i: nat, d: nat)
    requires BeforeRun(c, xs, vs, s, r) && !Taken(c, r) && NoRunLeft(c, s.out) && d in c.deltas
    ensures !StepSingles(LinearStep(c, xs, vs, s, r).out, i, c.min, d)
  {
    hide LinearStep, Expand, Zip, Deltas, GoodOut, StepSingles, RunAt, Increasing, AllGood, LastStep;
    var es := CopiedParts(c, xs, vs, s, r);
    var k := |s.out|;
    if k >= 2 && s.out[k - 1].Single? && s.out[k - 2].Single? {
      LastColumns(c.order, s, xs, vs);
      StepBefore(c, xs, vs, s, r);
    }
    NoWindowAcross(s.out, es, i, c.min, d, r.val);
  }

  /** Single elements with step `step` behind a list without such a window make none, when
      there is only one of them or their step is another, and the first one does not
      continue the step before it. */
  lemma NoWindowAcross(a: seq<Elem>, es: seq<Elem>, i: nat, n: nat, d: int, step: int)
    requires n >= 3 && !StepSingles(a, i, n, d) && es != []
    requires forall k :: 0 < k < |es| ==> es[k].x == es[k - 1].x + step
    requires |es| > 1 ==> step != d
    requires var k := |a|;
             k >= 2 && a[k - 1].Single? && a[k - 2].Single? && a[k - 1].x == a[k - 2].x + d ==> es[0].x != a[k - 1].x + d
    ensures !StepSingles(a + es, i, n, d)
  {
    hide StepSingles;
    var out, k, l := a + es, |a|, i + n - 1;
    assert out[k] == es[0] && (k >= 1 ==> out[k - 1] == a[k - 1]) && (k >= 2 ==> out[k - 2] == a[k - 2]);
    if k < l < |out| {
      TwoCopied(a, es, l, step);
    }
    if StepSingles(out, i, n, d) {
      StepAt(out, i, n, d, l);
      StepAt(out, i, n, d, l - 1);
      if l < k {
        assert out[..k] == a[..k];
        SamePrefix(out, a, k, i, n, d);
      }
    }
  }

  lemma TwoCopied(a: seq<Elem>, es: seq<Elem>, l: nat, step: int)
    requires |a| < l < |a + es| && forall k :: 0 < k < |es| ==> es[k].x == es[k - 1].x + step
    ensures (a + es)[l].x == (a + es)[l - 1].x + step && |es| > 1
  {
    var k := l - |a|;
    assert (a + es)[l] == es[k] && (a + es)[l - 1] == es[k - 1];
  }

  lemma CopiedTaken(c: Config, xs: seq<int>, vs: seq<real>, s: State, r: Rle)
    requires BeforeRun(c, xs, vs, s, r) && !Taken(c, r) && AllTaken(c, s.out)
    ensures AllTaken(c, LinearStep(c, xs, vs, s, r).out) && LastStep(xs, LinearStep(c, xs, vs, s, r))
  {
    hide LinearStep, Expand, Zip, Behind, GoodOut, TakesRun, Deltas, Increasing, RunAt, AllGood;
    var es := CopiedParts(c, xs, vs, s, r);
    var out, k := s.out + es, |s.out|;
    StepBefore(c, xs, vs, s, r);
    if s.out != [] && s.out[k - 1].Pat? {
      LastPattern(c, xs, vs, s);
    }
    forall i {:trigger out[i]} | 0 <= i < |out| && out[i].Pat?
      ensures TakesRun(c, out, i)
    {
      NotCopied(s.out, es, i);
      assert out[i] == s.out[i];
      OldTaken(c, s.out, s.out, es, i);
    }
    assert out[|out| - 1] == es[|es| - 1];
  }

  lemma NotCopied(a: seq<Elem>, b: seq<Elem>, i: nat)
    requires (forall k :: 0 <= k < |b| ==> b[k].Single?) && i < |a + b| && (a + b)[i].Pat?
    ensures i < |a|
  {
  }

  // ----- All runs

  lemma LinearStepFull(c: Config, xs: seq<int>, vs: seq<real>, s: State, r: Rle)
    requires BeforeRun(c, xs, vs, s, r) && LinearlyFull(c, s.out)
    ensures LinearlyFull(c, LinearStep(c, xs, vs, s, r).out) && LastStep(xs, LinearStep(c, xs, vs, s, r))
    ensures LinearStep(c, xs, vs, s, r).out != []
  {
    hide LinearStep, AllTaken, StepSingles, LastStep, Expand, Zip, GoodOut, Deltas, Increasing;
    forall i: nat, d: nat {:trigger StepSingles(LinearStep(c, xs, vs, s, r).out, i, c.min, d)} | d in c.deltas
      ensures !StepSingles(LinearStep(c, xs, vs, s, r).out, i, c.min, d)
    {
      if Taken(c, r) {
        TakenNoRun(c, xs, vs, s, r, i, d);
      } else {
        CopiedNoRun(c, xs, vs, s, r, i, d);
      }
    }
    if Taken(c, r) {
      var kept, es, t := TakenParts(c, xs, vs, s, r);
      TakenTaken(c, xs, vs, s, r);
    } else {
      var es := CopiedParts(c, xs, vs, s, r);
      CopiedTaken(c, xs, vs, s, r);
    }
  }

  lemma {:induction false} LinearRunsFull(c: Config, xs: seq<int>, vs: seq<real>, rles: seq<Rle>, k: nat)
    requires c.Good() && c.order.Align() == 0 && !c.numa && c.min >= 3
    requires Increasing(xs) && |xs| == |vs| && Tiles(rles, Deltas(xs)) && k <= |rles|
    ensures var s := LinearRuns(c, xs, vs, rles, k);
            LinearlyFull(c, s.out) && LastStep(xs, s) && (k > 0 ==> s.out != [])
  {
    hide Tiles, Zip, Expand, LinearStep, LinearlyFull, LastStep, GoodOut, Deltas;
    if k == 0 {
      NothingFull(c, xs);
    } else {
      var s, r := LinearRuns(c, xs, vs, rles, k - 1), rles[k - 1];
      LinearRunsFull(c, xs, vs, rles, k - 1);
      LinearRunsOk(c, xs, vs, rles, k - 1);
      LinearRunsGood(c, xs, vs, rles, k - 1);
      TilesAt(rles, Deltas(xs), k - 1);
      if k > 1 {
        TilesAt(rles, Deltas(xs), k - 2);
      }
      LinearStepFull(c, xs, vs, s, r);
    }
  }

  lemma NothingFull(c: Config, xs: seq<int>)
    requires c.min >= 1
    ensures LinearlyFull(c, []) && LastStep(xs, State([], 0))
  {
  }

  /** No listed run of `min` elements stays single, and every pattern takes its whole run
      up to the largest size. */
  lemma EncodedLinearFull(c: Config, xs: seq<int>, vs: seq<real>)
    requires c.Good() && c.order.Align() == 0 && !c.numa && c.min >= 3
    requires Increasing(xs) && |xs| == |vs| && xs != []
    ensures LinearlyFull(c, Encoded(c, xs, vs))
  {
    hide LinearRuns, Tiles, LinearlyFull;
    RunsTile(Deltas(xs));
    LinearRunsFull(c, xs, vs, RunLengths(Deltas(xs)), |RunLengths(Deltas(xs))|);
  }
}

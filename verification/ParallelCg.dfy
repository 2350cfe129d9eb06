/** The conjugate gradient iteration by threads.

    The main thread and the side threads pass the same barriers, 8 in an iteration,
    9 for a symmetric matrix.  `EveryRunIsCg` and `EveryRunIsSymCg`: every finished
    run, in any interleaving, leaves the vectors of the sequential iteration. */
module ParallelCg {
  import opened Orders
  import opened Products
  import opened Seqs
  import opened SymMap
  import opened SymSpmv
  import opened SymOperator
  import opened CgAlgebra
  import opened Barriers

  /** The shared vectors, and the scalars kept in vectors of their own. */
  const P: nat := 0
  const T: nat := 1
  const R: nat := 2
  const X: nat := 3
  const RR: nat := 4
  const TP: nat := 5
  const RRN: nat := 6
  const AI: nat := 7
  const BI: nat := 8

  // ----- Slices

  function SliceStart(i: nat, n: nat, count: nat): nat
    requires count >= 1
  {
    i * n / count
  }

  function Slices(n: nat, count: nat): (r: seq<nat>)
    requires count >= 1
    ensures |r| == count + 1 && forall i {:trigger r[i]} :: 0 <= i <= count ==> r[i] == SliceStart(i, n, count)
  {
    seq(count + 1, i requires 0 <= i <= count => SliceStart(i, n, count))
  }

  lemma SliceMono(i: nat, j: nat, n: nat, count: nat)
    requires count >= 1 && i <= j
    ensures SliceStart(i, n, count) <= SliceStart(j, n, count)
  {
    MulMono(i, j, n);
    var a, b := i * n, j * n;
    if a / count > b / count {
      assert a == a / count * count + a % count && b == b / count * count + b % count;
      MulMono(b / count + 1, a / count, count);
    }
  }

  /** The slices i n / count partition the vectors. */
  lemma SlicesPartition(n: nat, count: nat)
    requires count >= 1
    ensures Partition(Slices(n, count), n)
  {
    var r := Slices(n, count);
    forall i, j | 0 <= i <= j < |r|
      ensures r[i] <= r[j]
    {
      SliceMono(i, j, n, count);
    }
    DivModUnique(0, 0, 0, count);
    DivModUnique(count * n, n, 0, count);
  }

  /** The slices of all threads, known to be a partition. */
  function ThreadSlices(n: nat, count: nat): (r: seq<nat>)
    requires count >= 1
    ensures Sliced(r, count, n)
  {
    SlicesPartition(n, count);
    Slices(n, count)
  }

  ghost predicate Sliced(starts: seq<nat>, count: nat, n: nat) {
    |starts| == count + 1 && count >= 1 && Partition(starts, n)
  }

  // ----- Steps

  /** Acc := Acc + a_i b_i */
  function MacOp(t: nat, a: nat, b: nat, i: nat): Op<Cell> {
    Op(Acc(t), [Acc(t), V(a, i), V(b, i)], (r: seq<real>) => if |r| == 3 then r[0] + Mul(r[1], r[2]) else 0.0)
  }

  function ClearOp(t: nat): Op<Cell> {
    Op(Acc(t), [], (r: seq<real>) => 0.0)
  }

  function MacOps(t: nat, a: nat, b: nat, s: nat, e: nat): seq<Op<Cell>>
    requires s <= e
    decreases e - s
  {
    if s == e then [ClearOp(t)] else MacOps(t, a, b, s, e - 1) + [MacOp(t, a, b, e - 1)]
  }

  /** The product of one slice of two vectors, into the thread's place of vector `to`. */
  function DotOps(t: nat, a: nat, b: nat, to: nat, s: nat, e: nat): seq<Op<Cell>>
    requires s <= e
  {
    MacOps(t, a, b, s, e) + [CopyOp(V(to, t), Acc(t))]
  }

  /** to_i := a_i + c b_i, or a_i - c b_i */
  function AxpyOp(to: nat, a: nat, c: nat, neg: bool, b: nat, i: nat): Op<Cell> {
    Op(V(to, i), [V(a, i), V(c, 0), V(b, i)],
       (r: seq<real>) => if |r| == 3 then r[0] + Mul(if neg then -r[1] else r[1], r[2]) else 0.0)
  }

  function AxpyOps(to: nat, a: nat, c: nat, neg: bool, b: nat, s: nat, e: nat): seq<Op<Cell>>
    requires s <= e
    decreases e - s
  {
    if s == e then [] else AxpyOps(to, a, c, neg, b, s, e - 1) + [AxpyOp(to, a, c, neg, b, e - 1)]
  }

  /** w_0 := w_0 + w_1 + ... */
  function GatherOps(w: nat, count: nat): seq<Op<Cell>>
  {
    if count <= 1 then [] else GatherOps(w, count - 1) + [AddOp(V(w, 0), V(w, count - 1))]
  }

  function DivOp(to: nat, a: nat, b: nat): Op<Cell> {
    Op(V(to, 0), [V(a, 0), V(b, 0)], (r: seq<real>) => if |r| == 2 then Div(r[0], r[1]) else 0.0)
  }

  /** T_i := (A p)_i for some rows. */
  function RowOp(op: Vec -> Vec, n: nat, i: nat): Op<Cell> {
    Op(V(T, i), seq(n, j requires 0 <= j < n => V(P, j)),
       (r: seq<real>) => if |r| == n && i < |op(r)| then op(r)[i] else 0.0)
  }

  function RowsOps(op: Vec -> Vec, n: nat, s: nat, e: nat): seq<Op<Cell>>
    requires s <= e
    decreases e - s
  {
    if s == e then [] else RowsOps(op, n, s, e - 1) + [RowOp(op, n, e - 1)]
  }

  // ----- Phases

  type Threads = seq<seq<Op<Cell>>>

  function NoOps(count: nat): (r: Threads)
    ensures |r| == count
  {
    seq(count, _ => [])
  }

  function MainOnly(ops: seq<Op<Cell>>, count: nat): (r: Threads)
    requires count >= 1
    ensures |r| == count && r[0] == ops && forall t :: 1 <= t < count ==> r[t] == []
  {
    seq(count, t requires 0 <= t < count => if t == 0 then ops else [])
  }

  function DotPhase(starts: seq<nat>, count: nat, n: nat): (r: Threads)
    requires Sliced(starts, count, n)
    ensures |r| == count
    ensures forall t {:trigger r[t]} :: 0 <= t < count ==> r[t] == DotOps(t, R, R, RR, starts[t], starts[t + 1]) + DotOps(t, T, P, TP, starts[t], starts[t + 1])
  {
    seq(count, t requires 0 <= t < count =>
      DotOps(t, R, R, RR, starts[t], starts[t + 1]) + DotOps(t, T, P, TP, starts[t], starts[t + 1]))
  }

  function AiOps(count: nat): seq<Op<Cell>> {
    GatherOps(RR, count) + GatherOps(TP, count) + [DivOp(AI, RR, TP)]
  }

  function UpdatePhase(starts: seq<nat>, count: nat, n: nat): (r: Threads)
    requires Sliced(starts, count, n)
    ensures |r| == count
    ensures forall t {:trigger r[t]} :: 0 <= t < count ==>
              r[t] == AxpyOps(R, R, AI, true, T, starts[t], starts[t + 1])
                   + AxpyOps(X, X, AI, false, P, starts[t], starts[t + 1])
  {
    seq(count, t requires 0 <= t < count =>
      AxpyOps(R, R, AI, true, T, starts[t], starts[t + 1]) + AxpyOps(X, X, AI, false, P, starts[t], starts[t + 1]))
  }

  function NewDotPhase(starts: seq<nat>, count: nat, n: nat): (r: Threads)
    requires Sliced(starts, count, n)
    ensures |r| == count
    ensures forall t {:trigger r[t]} :: 0 <= t < count ==> r[t] == DotOps(t, R, R, RRN, starts[t], starts[t + 1])
  {
    seq(count, t requires 0 <= t < count => DotOps(t, R, R, RRN, starts[t], starts[t + 1]))
  }

  function BiOps(count: nat): seq<Op<Cell>> {
    GatherOps(RRN, count) + [DivOp(BI, RRN, RR)]
  }

  function DirectionPhase(starts: seq<nat>, count: nat, n: nat): (r: Threads)
    requires Sliced(starts, count, n)
    ensures |r| == count
    ensures forall t {:trigger r[t]} :: 0 <= t < count ==> r[t] == AxpyOps(P, R, BI, false, P, starts[t], starts[t + 1])
  {
    seq(count, t requires 0 <= t < count => AxpyOps(P, R, BI, false, P, starts[t], starts[t + 1]))
  }

  /** What follows the multiplication: six phases. */
  function Tail(starts: seq<nat>, count: nat, n: nat): (r: seq<Threads>)
    requires Sliced(starts, count, n)
    ensures |r| == 6 && forall k :: 0 <= k < 6 ==> |r[k]| == count
  {
    [DotPhase(starts, count, n), MainOnly(AiOps(count), count), UpdatePhase(starts, count, n),
     NewDotPhase(starts, count, n), MainOnly(BiOps(count), count), DirectionPhase(starts, count, n)]
  }

  function RowsPhase(op: Vec -> Vec, parts: seq<nat>, count: nat, n: nat): (r: Threads)
    requires Sliced(parts, count, n)
    ensures |r| == count && forall t {:trigger r[t]} :: 0 <= t < count ==> r[t] == RowsOps(op, n, parts[t], parts[t + 1])
  {
    seq(count, t requires 0 <= t < count => RowsOps(op, n, parts[t], parts[t + 1]))
  }

  /** One iteration: eight barriers. */
  function Iteration(op: Vec -> Vec, parts: seq<nat>, starts: seq<nat>, count: nat, n: nat): (r: seq<Threads>)
    requires Sliced(parts, count, n) && Sliced(starts, count, n)
    ensures |r| == 8
  {
    [NoOps(count), RowsPhase(op, parts, count, n)] + Tail(starts, count, n)
  }

  // ----- What the steps touch

  /** Cells of the vectors in k at the thread's slice, of those in l at the thread's own
      place, and its register. */
  function Mine(k: set<nat>, l: set<nat>, t: nat, s: nat, e: nat): Cell -> bool {
    (c: Cell) =>
      match c
      case V(w, p) => (w in k && s <= p < e) || (w in l && p == t)
      case Temp(_, _) => false
      case Acc(u) => u == t
  }

  function Of(m: set<nat>): Cell -> bool {
    (c: Cell) => c.V? && c.which in m
  }

  function MineOr(k: set<nat>, l: set<nat>, m: set<nat>, t: nat, s: nat, e: nat): Cell -> bool {
    Either(Mine(k, l, t, s, e), Of(m))
  }

  /** A phase in which every thread keeps to its own cells and reads vectors that nobody writes. */
  ghost predicate Kept(threads: Threads, starts: seq<nat>, n: nat, k: set<nat>, l: set<nat>, m: set<nat>) {
    && Sliced(starts, |threads|, n) && k !! l && k !! m && l !! m
    && forall t :: 0 <= t < |threads| ==>
         Within(threads[t], Mine(k, l, t, starts[t], starts[t + 1]), MineOr(k, l, m, t, starts[t], starts[t + 1]))
  }

  lemma MineDisjoint(starts: seq<nat>, n: nat, k: set<nat>, l: set<nat>, m: set<nat>, t: nat, u: nat, c: Cell)
    requires Partition(starts, n) && t + 1 < |starts| && u + 1 < |starts| && t != u && k !! l && k !! m && l !! m
    requires Mine(k, l, t, starts[t], starts[t + 1])(c)
    ensures !Mine(k, l, u, starts[u], starts[u + 1])(c) && !MineOr(k, l, m, u, starts[u], starts[u + 1])(c)
  {
    if t < u {
      assert starts[t + 1] <= starts[u];
    } else {
      assert starts[u + 1] <= starts[t];
    }
  }

  lemma KeptRaceFree(threads: Threads, starts: seq<nat>, n: nat, k: set<nat>, l: set<nat>, m: set<nat>)
    requires Kept(threads, starts, n, k, l, m)
    ensures RaceFree(threads)
  {
    hide Within, Writes, Touches, Mine, MineOr, Partition;
    forall t, u, c | 0 <= t < |threads| && 0 <= u < |threads| && t != u && Writes(threads[t], c)
      ensures !Touches(threads[u], c)
    {
      WithinFacts(threads[t], Mine(k, l, t, starts[t], starts[t + 1]), MineOr(k, l, m, t, starts[t], starts[t + 1]));
      WithinFacts(threads[u], Mine(k, l, u, starts[u], starts[u + 1]), MineOr(k, l, m, u, starts[u], starts[u + 1]));
      MineDisjoint(starts, n, k, l, m, t, u, c);
    }
  }

  /** A cell of thread t is as thread t alone would leave it. */
  lemma KeptCell(m0: Memory<Cell>, threads: Threads, starts: seq<nat>, n: nat, k: set<nat>, l: set<nat>, m: set<nat>,
                 t: nat, c: Cell)
    requires Kept(threads, starts, n, k, l, m) && t < |threads| && Mine(k, l, t, starts[t], starts[t + 1])(c)
    ensures Read(RunThreads(m0, threads), c) == Read(RunOps(m0, threads[t]), c)
  {
    hide Within, Writes, Touches, Mine, MineOr, Partition, RunThreads, RunOps, Read, RaceFree;
    KeptRaceFree(threads, starts, n, k, l, m);
    forall u | 0 <= u < |threads| && u != t
      ensures !Writes(threads[u], c)
    {
      WithinFacts(threads[u], Mine(k, l, u, starts[u], starts[u + 1]), MineOr(k, l, m, u, starts[u], starts[u + 1]));
      MineDisjoint(starts, n, k, l, m, t, u, c);
    }
    OwnedBy(m0, threads, t, c);
  }

  /** Vectors outside k and l, and temporaries, do not change. */
  lemma KeptOthers(m0: Memory<Cell>, threads: Threads, starts: seq<nat>, n: nat, k: set<nat>, l: set<nat>, m: set<nat>,
                   c: Cell)
    requires Kept(threads, starts, n, k, l, m) && (c.V? ==> c.which !in k + l) && !c.Acc?
    ensures Read(RunThreads(m0, threads), c) == Read(m0, c)
  {
    hide Within, Writes, Touches, MineOr, Partition, RunThreads, Read;
    forall u | 0 <= u < |threads|
      ensures !Writes(threads[u], c)
    {
      WithinFacts(threads[u], Mine(k, l, u, starts[u], starts[u + 1]), MineOr(k, l, m, u, starts[u], starts[u + 1]));
    }
    Unwritten(m0, threads, c);
  }

  lemma {:induction false} MacWithin(t: nat, a: nat, b: nat, s: nat, e: nat, k: set<nat>, l: set<nat>, m: set<nat>,
                                     s0: nat, e0: nat)
    requires s <= e && a in m && b in m
    ensures Within(MacOps(t, a, b, s, e), Mine(k, l, t, s0, e0), MineOr(k, l, m, t, s0, e0))
    decreases e - s
  {
    if s < e {
      MacWithin(t, a, b, s, e - 1, k, l, m, s0, e0);
    }
  }

  lemma DotWithin(t: nat, a: nat, b: nat, to: nat, s: nat, e: nat, k: set<nat>, l: set<nat>, m: set<nat>, s0: nat,
                  e0: nat)
    requires s <= e && a in m && b in m && to in l
    ensures Within(DotOps(t, a, b, to, s, e), Mine(k, l, t, s0, e0), MineOr(k, l, m, t, s0, e0))
  {
    hide MacOps;
    MacWithin(t, a, b, s, e, k, l, m, s0, e0);
  }

  lemma {:induction false} AxpyWithin(to: nat, a: nat, c: nat, neg: bool, b: nat, s: nat, e: nat, k: set<nat>,
                                      l: set<nat>, m: set<nat>, t: nat, e0: nat)
    requires s <= e <= e0 && to in k && c in m && (a in m || a == to) && (b in m || b == to)
    ensures Within(AxpyOps(to, a, c, neg, b, s, e), Mine(k, l, t, s, e0), MineOr(k, l, m, t, s, e0))
    decreases e - s
  {
    if s < e {
      AxpyWithin(to, a, c, neg, b, s, e - 1, k, l, m, t, e0);
    }
  }

  lemma {:induction false} RowsWithin(op: Vec -> Vec, n: nat, s: nat, e: nat, t: nat, e0: nat)
    requires s <= e <= e0
    ensures Within(RowsOps(op, n, s, e), Mine({T}, {}, t, s, e0), MineOr({T}, {}, {P}, t, s, e0))
    decreases e - s
  {
    if s < e {
      RowsWithin(op, n, s, e - 1, t, e0);
    }
  }

  // ----- What each list of steps computes, run alone

  function DotPart(u: Vec, v: Vec, s: nat, e: nat): real
    requires s <= e <= |u| == |v|
    decreases e - s
  {
    if s == e then 0.0 else DotPart(u, v, s, e - 1) + Mul(u[e - 1], v[e - 1])
  }

  lemma {:induction false} DotPartSplit(u: Vec, v: Vec, s: nat, m: nat, e: nat)
    requires s <= m <= e <= |u| == |v|
    ensures DotPart(u, v, s, e) == DotPart(u, v, s, m) + DotPart(u, v, m, e)
    decreases e - m
  {
    hide Mul;
    if m < e {
      DotPartSplit(u, v, s, m, e - 1);
    }
  }

  lemma {:induction false} DotIsPart(u: Vec, v: Vec, e: nat)
    requires e <= |u| == |v|
    ensures DotPart(u, v, 0, e) == Dot(u[..e], v[..e])
  {
    hide Mul;
    if e > 0 {
      DotIsPart(u, v, e - 1);
      TakeTake(u, e - 1, e);
      TakeTake(v, e - 1, e);
    }
  }

  lemma MacExec(m: Memory<Cell>, t: nat, a: nat, b: nat, i: nat, c: Cell)
    ensures Read(Exec(m, MacOp(t, a, b, i)), c)
         == if c == Acc(t) then Read(m, Acc(t)) + Mul(Read(m, V(a, i)), Read(m, V(b, i))) else Read(m, c)
  {
    hide Mul;
    var vs := ReadAll(m, [Acc(t), V(a, i), V(b, i)]);
    assert vs[0] == Read(m, Acc(t)) && vs[1] == Read(m, V(a, i)) && vs[2] == Read(m, V(b, i));
  }

  lemma ClearExec(m: Memory<Cell>, t: nat, c: Cell)
    ensures Read(RunOps(m, [ClearOp(t)]), c) == if c == Acc(t) then 0.0 else Read(m, c)
  {
    RunOne(m, ClearOp(t));
  }

  lemma {:induction false} MacRun(m: Memory<Cell>, t: nat, a: nat, b: nat, s: nat, e: nat, n: nat)
    requires s <= e <= n
    ensures Read(RunOps(m, MacOps(t, a, b, s, e)), Acc(t)) == DotPart(View(m, a, n), View(m, b, n), s, e)
    ensures forall c :: c != Acc(t) ==> Read(RunOps(m, MacOps(t, a, b, s, e)), c) == Read(m, c)
    decreases e - s
  {
    hide Mul, MacOp, Exec, Read, RunOps;
    if s == e {
      forall c
        ensures Read(RunOps(m, [ClearOp(t)]), c) == if c == Acc(t) then 0.0 else Read(m, c)
      {
        ClearExec(m, t, c);
      }
    } else {
      MacRun(m, t, a, b, s, e - 1, n);
      var m1 := RunOps(m, MacOps(t, a, b, s, e - 1));
      RunConcat(m, MacOps(t, a, b, s, e - 1), [MacOp(t, a, b, e - 1)]);
      RunOne(m1, MacOp(t, a, b, e - 1));
      forall c
        ensures Read(Exec(m1, MacOp(t, a, b, e - 1)), c)
             == if c == Acc(t) then Read(m1, Acc(t)) + Mul(Read(m1, V(a, e - 1)), Read(m1, V(b, e - 1))) else Read(m1, c)
      {
        MacExec(m1, t, a, b, e - 1, c);
      }
      assert View(m, a, n)[e - 1] == Read(m, V(a, e - 1)) && View(m, b, n)[e - 1] == Read(m, V(b, e - 1));
    }
  }

  lemma DotRun(m: Memory<Cell>, t: nat, a: nat, b: nat, to: nat, s: nat, e: nat, n: nat)
    requires s <= e <= n
    ensures Read(RunOps(m, DotOps(t, a, b, to, s, e)), V(to, t)) == DotPart(View(m, a, n), View(m, b, n), s, e)
    ensures forall c :: c != Acc(t) && c != V(to, t) ==> Read(RunOps(m, DotOps(t, a, b, to, s, e)), c) == Read(m, c)
  {
    hide Mul, MacOps, Exec, Read, RunOps, CopyOp, DotPart;
    var m1 := RunOps(m, MacOps(t, a, b, s, e));
    var copy := CopyOp(V(to, t), Acc(t));
    MacRun(m, t, a, b, s, e, n);
    RunConcat(m, MacOps(t, a, b, s, e), [copy]);
    RunOne(m1, copy);
    forall c
      ensures Read(Exec(m1, copy), c) == if c == V(to, t) then Read(m1, Acc(t)) else Read(m1, c)
    {
      CopyExec(m1, V(to, t), Acc(t), c);
    }
  }

  lemma AxpyExec(m: Memory<Cell>, to: nat, a: nat, c: nat, neg: bool, b: nat, i: nat, d: Cell)
    ensures Read(Exec(m, AxpyOp(to, a, c, neg, b, i)), d)
         == if d == V(to, i) then Read(m, V(a, i)) + Mul(if neg then -Read(m, V(c, 0)) else Read(m, V(c, 0)), Read(m, V(b, i))) else Read(m, d)
  {
    hide Mul;
    var vs := ReadAll(m, [V(a, i), V(c, 0), V(b, i)]);
    assert vs[0] == Read(m, V(a, i)) && vs[1] == Read(m, V(c, 0)) && vs[2] == Read(m, V(b, i));
  }

  /** The value that one element of a scaled sum gets. */
  function AxpyAt(m: Memory<Cell>, a: nat, c: nat, neg: bool, b: nat, i: nat): real {
    Read(m, V(a, i)) + Mul(if neg then -Read(m, V(c, 0)) else Read(m, V(c, 0)), Read(m, V(b, i)))
  }

  lemma {:induction false} AxpyRun(m: Memory<Cell>, to: nat, a: nat, c: nat, neg: bool, b: nat, s: nat, e: nat)
    requires s <= e && c != to
    ensures forall i: nat :: s <= i < e ==> Read(RunOps(m, AxpyOps(to, a, c, neg, b, s, e)), V(to, i)) == AxpyAt(m, a, c, neg, b, i)
    ensures forall d: Cell :: (d.V? && d.which == to ==> !(s <= d.pos < e)) ==> Read(RunOps(m, AxpyOps(to, a, c, neg, b, s, e)), d) == Read(m, d)
    decreases e - s
  {
    hide Mul, AxpyOp, Exec, Read;
    if s < e {
      AxpyRun(m, to, a, c, neg, b, s, e - 1);
      var op := AxpyOp(to, a, c, neg, b, e - 1);
      var init := AxpyOps(to, a, c, neg, b, s, e - 1);
      var m1 := RunOps(m, init);
      Snoc(init, op);
      forall d
        ensures Read(Exec(m1, op), d) == if d == V(to, e - 1) then AxpyAt(m1, a, c, neg, b, e - 1) else Read(m1, d)
      {
        AxpyExec(m1, to, a, c, neg, b, e - 1, d);
      }
    }
  }

  /** w_0 + ... + w_(count - 1) */
  function Gathered(m: Memory<Cell>, w: nat, count: nat): real {
    if count <= 1 then Read(m, V(w, 0)) else Gathered(m, w, count - 1) + Read(m, V(w, count - 1))
  }

  lemma {:induction false} GatherRun(m: Memory<Cell>, w: nat, count: nat)
    ensures Read(RunOps(m, GatherOps(w, count)), V(w, 0)) == Gathered(m, w, count)
    ensures forall d :: d != V(w, 0) ==> Read(RunOps(m, GatherOps(w, count)), d) == Read(m, d)
  {
    hide AddOp, Exec, Read;
    if count > 1 {
      GatherRun(m, w, count - 1);
      var init, op := GatherOps(w, count - 1), AddOp(V(w, 0), V(w, count - 1));
      Snoc(init, op);
      var m1 := RunOps(m, init);
      forall d
        ensures Read(Exec(m1, op), d) == if d == V(w, 0) then Read(m1, V(w, 0)) + Read(m1, V(w, count - 1)) else Read(m1, d)
      {
        AddExec(m1, V(w, 0), V(w, count - 1), d);
      }
    }
  }

  lemma DivExec(m: Memory<Cell>, to: nat, a: nat, b: nat, d: Cell)
    ensures Read(RunOps(m, [DivOp(to, a, b)]), d) == if d == V(to, 0) then Div(Read(m, V(a, 0)), Read(m, V(b, 0))) else Read(m, d)
  {
    hide Div;
    var vs := ReadAll(m, [V(a, 0), V(b, 0)]);
    assert vs[0] == Read(m, V(a, 0)) && vs[1] == Read(m, V(b, 0));
    RunOne(m, DivOp(to, a, b));
  }

  // ----- Each phase

  function StateOf(m: Memory<Cell>, n: nat): (r: State)
    ensures r.Sized(n)
  {
    State(View(m, X, n), View(m, R, n), View(m, P, n))
  }

  /** Some vectors, and all temporaries, are as they were. */
  ghost predicate Kept_(m: Memory<Cell>, m': Memory<Cell>, ws: set<nat>) {
    && (forall w: nat, p: nat :: w in ws ==> Read(m', V(w, p)) == Read(m, V(w, p)))
    && forall c: nat, p: nat :: Read(m', Temp(c, p)) == Read(m, Temp(c, p))
  }

  lemma SameViews(m: Memory<Cell>, m': Memory<Cell>, ws: set<nat>, w: nat, n: nat)
    requires Kept_(m, m', ws) && w in ws
    ensures View(m', w, n) == View(m, w, n)
  {
    hide Read;
  }

  lemma SliceBounds(starts: seq<nat>, count: nat, n: nat, t: nat)
    requires Sliced(starts, count, n) && t < count
    ensures starts[t] <= starts[t + 1] <= n && starts[0] == 0 && starts[count] == n
  {
  }

  lemma DotsKept(starts: seq<nat>, count: nat, n: nat)
    requires Sliced(starts, count, n)
    ensures Kept(DotPhase(starts, count, n), starts, n, {}, {RR, TP}, {R, T, P})
    ensures Kept(NewDotPhase(starts, count, n), starts, n, {}, {RRN}, {R})
  {
    hide Within, Mine, MineOr, DotOps, Partition;
    forall t | 0 <= t < count
      ensures Within(DotPhase(starts, count, n)[t], Mine({}, {RR, TP}, t, starts[t], starts[t + 1]), MineOr({}, {RR, TP}, {R, T, P}, t, starts[t], starts[t + 1]))
      ensures Within(NewDotPhase(starts, count, n)[t], Mine({}, {RRN}, t, starts[t], starts[t + 1]), MineOr({}, {RRN}, {R}, t, starts[t], starts[t + 1]))
    {
      var s, e := starts[t], starts[t + 1];
      SliceBounds(starts, count, n, t);
      DotWithin(t, R, R, RR, s, e, {}, {RR, TP}, {R, T, P}, s, e);
      DotWithin(t, T, P, TP, s, e, {}, {RR, TP}, {R, T, P}, s, e);
      WithinConcat(DotOps(t, R, R, RR, s, e), DotOps(t, T, P, TP, s, e), Mine({}, {RR, TP}, t, s, e),
                   MineOr({}, {RR, TP}, {R, T, P}, t, s, e));
      DotWithin(t, R, R, RRN, s, e, {}, {RRN}, {R}, s, e);
    }
  }

  lemma AxpyKept(starts: seq<nat>, count: nat, n: nat)
    requires Sliced(starts, count, n)
    ensures Kept(UpdatePhase(starts, count, n), starts, n, {R, X}, {}, {T, P, AI})
    ensures Kept(DirectionPhase(starts, count, n), starts, n, {P}, {}, {R, BI})
  {
    hide Within, Mine, MineOr, AxpyOps, Partition;
    forall t | 0 <= t < count
      ensures Within(UpdatePhase(starts, count, n)[t], Mine({R, X}, {}, t, starts[t], starts[t + 1]), MineOr({R, X}, {}, {T, P, AI}, t, starts[t], starts[t + 1]))
      ensures Within(DirectionPhase(starts, count, n)[t], Mine({P}, {}, t, starts[t], starts[t + 1]), MineOr({P}, {}, {R, BI}, t, starts[t], starts[t + 1]))
    {
      var s, e := starts[t], starts[t + 1];
      SliceBounds(starts, count, n, t);
      AxpyWithin(R, R, AI, true, T, s, e, {R, X}, {}, {T, P, AI}, t, e);
      AxpyWithin(X, X, AI, false, P, s, e, {R, X}, {}, {T, P, AI}, t, e);
      WithinConcat(AxpyOps(R, R, AI, true, T, s, e), AxpyOps(X, X, AI, false, P, s, e), Mine({R, X}, {}, t, s, e),
                   MineOr({R, X}, {}, {T, P, AI}, t, s, e));
      AxpyWithin(P, R, BI, false, P, s, e, {P}, {}, {R, BI}, t, e);
    }
  }

  lemma RowsKept(op: Vec -> Vec, parts: seq<nat>, count: nat, n: nat)
    requires Sliced(parts, count, n)
    ensures Kept(RowsPhase(op, parts, count, n), parts, n, {T}, {}, {P})
  {
    hide Within, Mine, MineOr, RowsOps, Partition;
    forall t | 0 <= t < count
      ensures Within(RowsPhase(op, parts, count, n)[t], Mine({T}, {}, t, parts[t], parts[t + 1]), MineOr({T}, {}, {P}, t, parts[t], parts[t + 1]))
    {
      SliceBounds(parts, count, n, t);
      RowsWithin(op, n, parts[t], parts[t + 1], t, parts[t + 1]);
    }
  }

  lemma OthersKept(m0: Memory<Cell>, threads: Threads, starts: seq<nat>, n: nat, k: set<nat>, l: set<nat>, m: set<nat>,
                   ws: set<nat>)
    requires Kept(threads, starts, n, k, l, m) && ws !! k && ws !! l
    ensures Kept_(m0, RunThreads(m0, threads), ws)
  {
    hide Kept, RunThreads, Read;
    forall w: nat, p: nat | w in ws
      ensures Read(RunThreads(m0, threads), V(w, p)) == Read(m0, V(w, p))
    {
      KeptOthers(m0, threads, starts, n, k, l, m, V(w, p));
    }
    forall c: nat, p: nat
      ensures Read(RunThreads(m0, threads), Temp(c, p)) == Read(m0, Temp(c, p))
    {
      KeptOthers(m0, threads, starts, n, k, l, m, Temp(c, p));
    }
  }

  /** Thread t has the product of its slice of u and v in its place of vector w. */
  ghost predicate PartOf(m: Memory<Cell>, w: nat, u: Vec, v: Vec, starts: seq<nat>, t: nat) {
    && t + 1 < |starts| && |u| == |v| && starts[t] <= starts[t + 1] <= |u|
    && Read(m, V(w, t)) == DotPart(u, v, starts[t], starts[t + 1])
  }

  ghost predicate Parts(m: Memory<Cell>, w: nat, u: Vec, v: Vec, starts: seq<nat>, count: nat) {
    forall t: nat :: t < count ==> PartOf(m, w, u, v, starts, t)
  }

  lemma AfterDots(m: Memory<Cell>, starts: seq<nat>, count: nat, n: nat)
    requires Sliced(starts, count, n)
    ensures var m' := RunThreads(m, DotPhase(starts, count, n));
            && Parts(m', RR, View(m, R, n), View(m, R, n), starts, count)
            && Parts(m', TP, View(m, T, n), View(m, P, n), starts, count)
            && Kept_(m, m', {P, T, R, X})
  {
    hide Kept, RunThreads, RunOps, Read, DotOps, DotPart, Partition;
    var threads := DotPhase(starts, count, n);
    DotsKept(starts, count, n);
    OthersKept(m, threads, starts, n, {}, {RR, TP}, {R, T, P}, {P, T, R, X});
    forall t: nat | t < count
      ensures PartOf(RunThreads(m, threads), RR, View(m, R, n), View(m, R, n), starts, t)
      ensures PartOf(RunThreads(m, threads), TP, View(m, T, n), View(m, P, n), starts, t)
    {
      var s, e := starts[t], starts[t + 1];
      SliceBounds(starts, count, n, t);
      var a, b := DotOps(t, R, R, RR, s, e), DotOps(t, T, P, TP, s, e);
      RunConcat(m, a, b);
      DotRun(m, t, R, R, RR, s, e, n);
      DotRun(RunOps(m, a), t, T, P, TP, s, e, n);
      assert View(RunOps(m, a), T, n) == View(m, T, n) && View(RunOps(m, a), P, n) == View(m, P, n);
      KeptCell(m, threads, starts, n, {}, {RR, TP}, {R, T, P}, t, V(RR, t));
      KeptCell(m, threads, starts, n, {}, {RR, TP}, {R, T, P}, t, V(TP, t));
    }
  }

  lemma AfterNewDots(m: Memory<Cell>, starts: seq<nat>, count: nat, n: nat)
    requires Sliced(starts, count, n)
    ensures var m' := RunThreads(m, NewDotPhase(starts, count, n));
            && Parts(m', RRN, View(m, R, n), View(m, R, n), starts, count)
            && Kept_(m, m', {P, R, X, RR})
  {
    hide Kept, RunThreads, RunOps, Read, DotOps, DotPart, Partition;
    var threads := NewDotPhase(starts, count, n);
    DotsKept(starts, count, n);
    OthersKept(m, threads, starts, n, {}, {RRN}, {R}, {P, R, X, RR});
    forall t: nat | t < count
      ensures PartOf(RunThreads(m, threads), RRN, View(m, R, n), View(m, R, n), starts, t)
    {
      SliceBounds(starts, count, n, t);
      DotRun(m, t, R, R, RRN, starts[t], starts[t + 1], n);
      KeptCell(m, threads, starts, n, {}, {RRN}, {R}, t, V(RRN, t));
    }
  }

  /** The partial products add up to the product. */
  lemma {:induction false} PartsAdd(m: Memory<Cell>, w: nat, u: Vec, v: Vec, starts: seq<nat>, count: nat, k: nat)
    requires Parts(m, w, u, v, starts, count) && 1 <= k <= count < |starts| && starts[0] == 0
    ensures |u| == |v| && starts[k] <= |u| && Gathered(m, w, k) == DotPart(u, v, 0, starts[k])
  {
    hide DotPart, Read;
    assert PartOf(m, w, u, v, starts, k - 1);
    if k > 1 {
      PartsAdd(m, w, u, v, starts, count, k - 1);
      DotPartSplit(u, v, 0, starts[k - 1], starts[k]);
    }
  }

  lemma GatheredDot(m: Memory<Cell>, w: nat, u: Vec, v: Vec, starts: seq<nat>, count: nat, n: nat)
    requires Parts(m, w, u, v, starts, count) && |u| == n && Sliced(starts, count, n)
    ensures Gathered(m, w, count) == Dot(u, v)
  {
    hide DotPart, Read, Dot, Parts;
    PartsAdd(m, w, u, v, starts, count, count);
    DotIsPart(u, v, n);
    Whole(u);
    Whole(v);
  }

  lemma {:induction false} MainRun(m: Memory<Cell>, ops: seq<Op<Cell>>, count: nat, k: nat)
    requires 1 <= k <= count
    ensures RunThreads(m, MainOnly(ops, count)[..k]) == RunOps(m, ops)
  {
    hide Exec;
    var threads := MainOnly(ops, count);
    if k == 1 {
      assert threads[..1] == [ops] && [ops][..0] == [];
    } else {
      MainRun(m, ops, count, k - 1);
      TakeTake(threads, k - 1, k);
      assert threads[..k][k - 1] == [];
    }
  }

  lemma AfterMain(m: Memory<Cell>, ops: seq<Op<Cell>>, count: nat)
    requires count >= 1
    ensures RunThreads(m, MainOnly(ops, count)) == RunOps(m, ops)
    ensures RaceFree(MainOnly(ops, count))
  {
    hide RunThreads, RunOps;
    MainRun(m, ops, count, count);
    Whole(MainOnly(ops, count));
  }

  lemma AfterAi(m: Memory<Cell>, count: nat)
    ensures var m' := RunOps(m, AiOps(count));
            && Read(m', V(AI, 0)) == Div(Gathered(m, RR, count), Gathered(m, TP, count))
            && Read(m', V(RR, 0)) == Gathered(m, RR, count)
            && Kept_(m, m', {P, T, R, X})
  {
    hide Read, Div, RunOps, DivOp, GatherOps, Gathered;
    var a, b, c := GatherOps(RR, count), GatherOps(TP, count), [DivOp(AI, RR, TP)];
    var m1 := RunOps(m, a);
    var m2 := RunOps(m1, b);
    RunConcat(m, a, b);
    RunConcat(m, a + b, c);
    GatherRun(m, RR, count);
    GatherRun(m1, TP, count);
    SameGather(m, m1, TP, count);
    forall d
      ensures Read(RunOps(m2, c), d) == if d == V(AI, 0) then Div(Read(m2, V(RR, 0)), Read(m2, V(TP, 0))) else Read(m2, d)
    {
      DivExec(m2, AI, RR, TP, d);
    }
  }

  lemma {:induction false} SameGather(m: Memory<Cell>, m': Memory<Cell>, w: nat, count: nat)
    requires forall p: nat :: Read(m', V(w, p)) == Read(m, V(w, p))
    ensures Gathered(m', w, count) == Gathered(m, w, count)
  {
    hide Read;
    if count > 1 {
      SameGather(m, m', w, count - 1);
    }
  }

  lemma AfterBi(m: Memory<Cell>, count: nat)
    ensures var m' := RunOps(m, BiOps(count));
            && Read(m', V(BI, 0)) == Div(Gathered(m, RRN, count), Read(m, V(RR, 0)))
            && Kept_(m, m', {P, R, X})
  {
    hide Read, Div, RunOps, DivOp, GatherOps, Gathered;
    var a, c := GatherOps(RRN, count), [DivOp(BI, RRN, RR)];
    var m1 := RunOps(m, a);
    RunConcat(m, a, c);
    GatherRun(m, RRN, count);
    forall d
      ensures Read(RunOps(m1, c), d) == if d == V(BI, 0) then Div(Read(m1, V(RRN, 0)), Read(m1, V(RR, 0))) else Read(m1, d)
    {
      DivExec(m1, BI, RRN, RR, d);
    }
  }

  lemma UpdateCell(m: Memory<Cell>, starts: seq<nat>, count: nat, n: nat, p: nat)
    requires Sliced(starts, count, n) && p < n
    ensures var m' := RunThreads(m, UpdatePhase(starts, count, n));
            Read(m', V(R, p)) == AxpyAt(m, R, AI, true, T, p) && Read(m', V(X, p)) == AxpyAt(m, X, AI, false, P, p)
  {
    hide Kept, RunThreads, RunOps, Read, AxpyOps, Mul;
    var threads := UpdatePhase(starts, count, n);
    AxpyKept(starts, count, n);
    var t := CutOf(starts, n, p, count);
    var s, e := starts[t], starts[t + 1];
    var a, b := AxpyOps(R, R, AI, true, T, s, e), AxpyOps(X, X, AI, false, P, s, e);
    RunConcat(m, a, b);
    AxpyRun(m, R, R, AI, true, T, s, e);
    AxpyRun(RunOps(m, a), X, X, AI, false, P, s, e);
    KeptCell(m, threads, starts, n, {R, X}, {}, {T, P, AI}, t, V(R, p));
    KeptCell(m, threads, starts, n, {R, X}, {}, {T, P, AI}, t, V(X, p));
  }

  lemma AfterUpdate(m: Memory<Cell>, starts: seq<nat>, count: nat, n: nat)
    requires Sliced(starts, count, n)
    ensures var m', ai := RunThreads(m, UpdatePhase(starts, count, n)), Read(m, V(AI, 0));
            && View(m', R, n) == Axpy(View(m, R, n), -ai, View(m, T, n))
            && View(m', X, n) == Axpy(View(m, X, n), ai, View(m, P, n))
            && Kept_(m, m', {P, T, RR})
  {
    hide Kept, RunThreads, Read, UpdatePhase, Mul, Partition, Kept_;
    var threads := UpdatePhase(starts, count, n);
    var m', ai := RunThreads(m, threads), Read(m, V(AI, 0));
    AxpyKept(starts, count, n);
    OthersKept(m, threads, starts, n, {R, X}, {}, {T, P, AI}, {P, T, RR});
    forall p | 0 <= p < n
      ensures View(m', R, n)[p] == Axpy(View(m, R, n), -ai, View(m, T, n))[p]
      ensures View(m', X, n)[p] == Axpy(View(m, X, n), ai, View(m, P, n))[p]
    {
      UpdateCell(m, starts, count, n, p);
      assert View(m, R, n)[p] == Read(m, V(R, p)) && View(m, T, n)[p] == Read(m, V(T, p));
      assert View(m, X, n)[p] == Read(m, V(X, p)) && View(m, P, n)[p] == Read(m, V(P, p));
    }
  }

  lemma AfterDirection(m: Memory<Cell>, starts: seq<nat>, count: nat, n: nat)
    requires Sliced(starts, count, n)
    ensures var m' := RunThreads(m, DirectionPhase(starts, count, n));
            && View(m', P, n) == Axpy(View(m, R, n), Read(m, V(BI, 0)), View(m, P, n))
            && Kept_(m, m', {R, X})
  {
    hide Kept, RunThreads, RunOps, Read, AxpyOps, Mul;
    var threads := DirectionPhase(starts, count, n);
    var m' := RunThreads(m, threads);
    AxpyKept(starts, count, n);
    OthersKept(m, threads, starts, n, {P}, {}, {R, BI}, {R, X});
    forall p: nat | p < n
      ensures Read(m', V(P, p)) == AxpyAt(m, R, BI, false, P, p)
    {
      var t := CutOf(starts, n, p, count);
      AxpyRun(m, P, R, BI, false, P, starts[t], starts[t + 1]);
      KeptCell(m, threads, starts, n, {P}, {}, {R, BI}, t, V(P, p));
    }
    forall p | 0 <= p < n
      ensures View(m', P, n)[p] == Axpy(View(m, R, n), Read(m, V(BI, 0)), View(m, P, n))[p]
    {
      assert View(m, R, n)[p] == Read(m, V(R, p)) && View(m, P, n)[p] == Read(m, V(P, p));
    }
  }

  // ----- One iteration

  /** The six phases after the multiplication finish the iteration. */
  lemma TailStep(op: Vec -> Vec, m: Memory<Cell>, starts: seq<nat>, count: nat, n: nat)
    requires Sliced(starts, count, n) && View(m, T, n) == op(View(m, P, n))
    ensures StateOf(RunPhases(m, Tail(starts, count, n)), n) == Next(op, StateOf(m, n))
    ensures Kept_(m, RunPhases(m, Tail(starts, count, n)), {})
  {
    hide RunThreads, RunOps, Read, Dot, Div, Axpy, Gathered, Parts, DotPhase, UpdatePhase, NewDotPhase, DirectionPhase, AiOps, BiOps, Partition;
    var m1 := RunThreads(m, DotPhase(starts, count, n));
    var m2 := RunOps(m1, AiOps(count));
    var m3 := RunThreads(m2, UpdatePhase(starts, count, n));
    var m4 := RunThreads(m3, NewDotPhase(starts, count, n));
    var m5 := RunOps(m4, BiOps(count));
    var m6 := RunThreads(m5, DirectionPhase(starts, count, n));
    SixPhases(m, Tail(starts, count, n));
    AfterMain(m1, AiOps(count), count);
    AfterMain(m4, BiOps(count), count);
    var s := StateOf(m, n);
    AfterDots(m, starts, count, n);
    GatheredDot(m1, RR, s.r, s.r, starts, count, n);
    GatheredDot(m1, TP, View(m, T, n), s.p, starts, count, n);
    AfterAi(m1, count);
    Views4(m, m1, n);
    Views4(m1, m2, n);
    AfterUpdate(m2, starts, count, n);
    AfterNewDots(m3, starts, count, n);
    GatheredDot(m4, RRN, View(m3, R, n), View(m3, R, n), starts, count, n);
    AfterBi(m4, count);
    SameViews(m2, m3, {P, T, RR}, P, n);
    SameViews(m3, m4, {P, R, X, RR}, P, n);
    SameViews(m3, m4, {P, R, X, RR}, R, n);
    SameViews(m3, m4, {P, R, X, RR}, X, n);
    SameViews(m4, m5, {P, R, X}, P, n);
    SameViews(m4, m5, {P, R, X}, R, n);
    SameViews(m4, m5, {P, R, X}, X, n);
    AfterDirection(m5, starts, count, n);
    SameViews(m5, m6, {R, X}, R, n);
    SameViews(m5, m6, {R, X}, X, n);
  }

  lemma Views4(m: Memory<Cell>, m': Memory<Cell>, n: nat)
    requires Kept_(m, m', {P, T, R, X})
    ensures View(m', P, n) == View(m, P, n) && View(m', T, n) == View(m, T, n)
    ensures View(m', R, n) == View(m, R, n) && View(m', X, n) == View(m, X, n)
  {
    SameViews(m, m', {P, T, R, X}, P, n);
    SameViews(m, m', {P, T, R, X}, T, n);
    SameViews(m, m', {P, T, R, X}, R, n);
    SameViews(m, m', {P, T, R, X}, X, n);
  }

  lemma {:induction false} PhasePrefix(m: Memory<Cell>, phases: seq<Threads>, k: nat)
    requires k < |phases|
    ensures RunPhases(m, phases[..k + 1]) == RunThreads(RunPhases(m, phases[..k]), phases[k])
  {
    TakeTake(phases, k, k + 1);
  }

  lemma SixPhases(m: Memory<Cell>, ps: seq<Threads>)
    requires |ps| == 6
    ensures RunPhases(m, ps)
         == RunThreads(RunThreads(RunThreads(RunThreads(RunThreads(RunThreads(m, ps[0]), ps[1]), ps[2]), ps[3]), ps[4]), ps[5])
  {
    hide RunThreads;
    assert ps[..0] == [] && ps[..6] == ps;
    PhasePrefix(m, ps, 0);
    PhasePrefix(m, ps, 1);
    PhasePrefix(m, ps, 2);
    PhasePrefix(m, ps, 3);
    PhasePrefix(m, ps, 4);
    PhasePrefix(m, ps, 5);
  }

  lemma TailRaceFree(starts: seq<nat>, count: nat, n: nat)
    requires Sliced(starts, count, n)
    ensures AllRaceFree(Tail(starts, count, n))
  {
    hide RaceFree, Kept, Partition, DotPhase, UpdatePhase, NewDotPhase, DirectionPhase, AiOps, BiOps, MainOnly;
    DotsKept(starts, count, n);
    AxpyKept(starts, count, n);
    KeptRaceFree(DotPhase(starts, count, n), starts, n, {}, {RR, TP}, {R, T, P});
    KeptRaceFree(UpdatePhase(starts, count, n), starts, n, {R, X}, {}, {T, P, AI});
    KeptRaceFree(NewDotPhase(starts, count, n), starts, n, {}, {RRN}, {R});
    KeptRaceFree(DirectionPhase(starts, count, n), starts, n, {P}, {}, {R, BI});
    AfterMain(map[], AiOps(count), count);
    AfterMain(map[], BiOps(count), count);
  }

  lemma RowExec(op: Vec -> Vec, n: nat, i: nat, m: Memory<Cell>, c: Cell)
    requires |op(View(m, P, n))| == n && i < n
    ensures Read(Exec(m, RowOp(op, n, i)), c) == if c == V(T, i) then op(View(m, P, n))[i] else Read(m, c)
  {
    assert ReadAll(m, RowOp(op, n, i).rs) == View(m, P, n);
  }

  /** What the first rows leave: part of the product, and p untouched. */
  ghost predicate RowsDone(op: Vec -> Vec, n: nat, s: nat, e: nat, m: Memory<Cell>, m': Memory<Cell>)
    requires e <= n && |op(View(m, P, n))| == n
  {
    && (forall i: nat :: s <= i < e ==> Read(m', V(T, i)) == op(View(m, P, n))[i])
    && View(m', P, n) == View(m, P, n)
  }

  lemma RowsDoneMore(op: Vec -> Vec, n: nat, s: nat, e: nat, m: Memory<Cell>, m1: Memory<Cell>)
    requires e < n && |op(View(m, P, n))| == n && RowsDone(op, n, s, e, m, m1)
    ensures RowsDone(op, n, s, e + 1, m, Exec(m1, RowOp(op, n, e)))
  {
    hide Read, RowOp, Exec;
    var m2 := Exec(m1, RowOp(op, n, e));
    forall c
      ensures Read(m2, c) == if c == V(T, e) then op(View(m, P, n))[e] else Read(m1, c)
    {
      RowExec(op, n, e, m1, c);
    }
    assert View(m2, P, n) == View(m1, P, n);
  }

  lemma NoRowsDone(op: Vec -> Vec, n: nat, s: nat, m: Memory<Cell>)
    requires s <= n && |op(View(m, P, n))| == n
    ensures RowsDone(op, n, s, s, m, m)
  {
  }

  lemma {:induction false} RowsRun(op: Vec -> Vec, n: nat, s: nat, e: nat, m: Memory<Cell>)
    requires s <= e <= n && |op(View(m, P, n))| == n
    ensures RowsDone(op, n, s, e, m, RunOps(m, RowsOps(op, n, s, e)))
    decreases e - s
  {
    hide View, RowOp, Exec, RowsDone;
    if s == e {
      NoRowsDone(op, n, s, m);
    } else {
      RowsRun(op, n, s, e - 1, m);
      Snoc(RowsOps(op, n, s, e - 1), RowOp(op, n, e - 1));
      RowsDoneMore(op, n, s, e - 1, m, RunOps(m, RowsOps(op, n, s, e - 1)));
    }
  }

  lemma AfterRows(op: Vec -> Vec, m: Memory<Cell>, parts: seq<nat>, count: nat, n: nat)
    requires Sliced(parts, count, n) && |op(View(m, P, n))| == n
    ensures var m' := RunThreads(m, RowsPhase(op, parts, count, n));
            View(m', T, n) == op(View(m, P, n)) && Kept_(m, m', {P, R, X})
  {
    hide Kept, RunThreads, RunOps, Read, RowsOps, Kept_;
    var threads := RowsPhase(op, parts, count, n);
    RowsKept(op, parts, count, n);
    OthersKept(m, threads, parts, n, {T}, {}, {P}, {P, R, X});
    forall p: nat | p < n
      ensures Read(RunThreads(m, threads), V(T, p)) == op(View(m, P, n))[p]
    {
      var t := CutOf(parts, n, p, count);
      RowsRun(op, n, parts[t], parts[t + 1], m);
      KeptCell(m, threads, parts, n, {T}, {}, {P}, t, V(T, p));
    }
  }

  lemma {:induction false} NothingRun(m: Memory<Cell>, count: nat)
    ensures RunThreads(m, NoOps(count)) == m
  {
    if count > 0 {
      NothingRun(m, count - 1);
      assert NoOps(count)[..count - 1] == NoOps(count - 1);
    }
  }

  /** One iteration of the threads is one iteration of the algorithm. */
  lemma IterationStep(op: Vec -> Vec, m: Memory<Cell>, parts: seq<nat>, starts: seq<nat>, count: nat, n: nat)
    requires Sliced(parts, count, n) && Sliced(starts, count, n) && |op(View(m, P, n))| == n
    ensures StateOf(RunPhases(m, Iteration(op, parts, starts, count, n)), n) == Next(op, StateOf(m, n))
  {
    hide RunThreads, Read, Next, Tail, RowsPhase, Kept_, NoOps, Partition;
    var head := [NoOps(count), RowsPhase(op, parts, count, n)];
    var m1 := RunThreads(m, RowsPhase(op, parts, count, n));
    RunPhasesConcat(m, head, Tail(starts, count, n));
    assert head[..1] == [NoOps(count)] && [NoOps(count)][..0] == [];
    assert RunPhases(m, head[..1]) == RunThreads(m, NoOps(count));
    NothingRun(m, count);
    AfterRows(op, m, parts, count, n);
    SameViews(m, m1, {P, R, X}, P, n);
    SameViews(m, m1, {P, R, X}, R, n);
    SameViews(m, m1, {P, R, X}, X, n);
    TailStep(op, m1, starts, count, n);
  }

  lemma NoOpsRaceFree(count: nat)
    ensures RaceFree(NoOps(count))
  {
  }

  // ----- All iterations

  function Iterations(op: Vec -> Vec, parts: seq<nat>, starts: seq<nat>, count: nat, n: nat, k: nat): seq<Threads>
    requires Sliced(parts, count, n) && Sliced(starts, count, n)
  {
    if k == 0 then [] else Iterations(op, parts, starts, count, n, k - 1) + Iteration(op, parts, starts, count, n)
  }

  lemma {:induction false} IterationsRaceFree(op: Vec -> Vec, parts: seq<nat>, starts: seq<nat>, count: nat, n: nat,
                                              k: nat)
    requires Sliced(parts, count, n) && Sliced(starts, count, n)
    ensures AllRaceFree(Iterations(op, parts, starts, count, n, k))
    ensures Phased(Iterations(op, parts, starts, count, n, k), count)
  {
    hide RaceFree, Tail, RowsPhase, Partition, Kept;
    if k > 0 {
      IterationsRaceFree(op, parts, starts, count, n, k - 1);
      TailRaceFree(starts, count, n);
      RowsKept(op, parts, count, n);
      KeptRaceFree(RowsPhase(op, parts, count, n), parts, n, {T}, {}, {P});
      NoOpsRaceFree(count);
    }
  }

  lemma {:induction false} IterationsRun(op: Vec -> Vec, m: Memory<Cell>, parts: seq<nat>, starts: seq<nat>,
                                         count: nat, n: nat, k: nat)
    requires Sliced(parts, count, n) && Sliced(starts, count, n) && Linear(op, n)
    ensures StateOf(RunPhases(m, Iterations(op, parts, starts, count, n, k)), n)
         == CgAlgebra.Iterate(op, StateOf(m, n), k)
  {
    hide RunPhases, Next, Iteration, Partition;
    if k == 0 {
      NoPhases(m);
    } else {
      var before := Iterations(op, parts, starts, count, n, k - 1);
      IterationsRun(op, m, parts, starts, count, n, k - 1);
      RunPhasesConcat(m, before, Iteration(op, parts, starts, count, n));
      IterationStep(op, RunPhases(m, before), parts, starts, count, n);
    }
  }

  /** Every finished run of the threads, in any interleaving, leaves the vectors of the
      sequential iteration. */
  lemma EveryRunIsCg(op: Vec -> Vec, parts: seq<nat>, count: nat, n: nat, k: nat,
                     code: seq<seq<Instr<Cell>>>, m: Memory<Cell>, trace: seq<Conf<Cell>>)
    requires Sliced(parts, count, n) && Linear(op, n)
    requires CodeFor(code, Iterations(op, parts, ThreadSlices(n, count), count, n, k))
    requires Run(code, m, trace) && Finished(code, trace[|trace| - 1])
    ensures StateOf(trace[|trace| - 1].mem, n) == CgAlgebra.Iterate(op, StateOf(m, n), k)
  {
    hide Iterations, RunPhases, CodeFor, Finished, Step, Partition, Iterate, Linear;
    var phases := Iterations(op, parts, ThreadSlices(n, count), count, n, k);
    IterationsRaceFree(op, parts, ThreadSlices(n, count), count, n, k);
    FinishedRun(code, phases, m, trace);
    IterationsRun(op, m, parts, ThreadSlices(n, count), count, n, k);
  }

  /** No deadlock: every run of the iterations can be continued to a finished one. */
  lemma RunsCanFinish(op: Vec -> Vec, parts: seq<nat>, count: nat, n: nat, k: nat,
                      code: seq<seq<Instr<Cell>>>, m: Memory<Cell>, trace: seq<Conf<Cell>>)
    returns (full: seq<Conf<Cell>>)
    requires Sliced(parts, count, n) && Linear(op, n)
    requires CodeFor(code, Iterations(op, parts, ThreadSlices(n, count), count, n, k)) && Run(code, m, trace)
    ensures trace <= full && Run(code, m, full) && Finished(code, full[|full| - 1])
    ensures StateOf(full[|full| - 1].mem, n) == CgAlgebra.Iterate(op, StateOf(m, n), k)
  {
    hide Iterations, CodeFor, Finished, Step, Partition, Iterate, Linear;
    IterationsRaceFree(op, parts, ThreadSlices(n, count), count, n, k);
    full := CanFinish(code, Iterations(op, parts, ThreadSlices(n, count), count, n, k), m, trace);
    EveryRunIsCg(op, parts, count, n, k, code, m, full);
  }

  /** The residual is b - A x, and all residuals and directions so far are orthogonal and
      conjugate. */
  ghost predicate RightState(op: Vec -> Vec, n: nat, b: Vec, s0: State, k: nat, s: State) {
    && s.r == Axpy(b, -1.0, op(s.x))
    && forall i: nat :: i < k ==>
         var t := CgAlgebra.Iterate(op, s0, i);
         Dot(s.r, t.r) == 0.0 && Dot(s.r, t.p) == 0.0 && Dot(s.p, op(t.p)) == 0.0
  }

  lemma IterateIsRight(op: Vec -> Vec, n: nat, b: Vec, s0: State, k: nat)
    requires Linear(op, n) && Symmetric(op, n) && Started(op, b, n, s0) && Defined(op, s0, k)
    ensures RightState(op, n, b, s0, k, CgAlgebra.Iterate(op, s0, k))
  {
    hide Iterate, Linear, Symmetric, Defined, Dot, Axpy;
    Residual(op, n, b, s0, k);
    AllOrthogonal(op, n, s0, k);
    forall i: nat | i < k
      ensures var s, t := CgAlgebra.Iterate(op, s0, k), CgAlgebra.Iterate(op, s0, i);
              Dot(s.r, t.r) == 0.0 && Dot(s.r, t.p) == 0.0 && Dot(s.p, op(t.p)) == 0.0
    {
      assert Orthogonal(op, s0, k);
      assert CgAlgebra.RR(op, s0, k, i) == 0.0;
    }
  }

  /** Whatever the interleaving, a run with a symmetric operator keeps both. */
  lemma EveryRunIsOrthogonal(op: Vec -> Vec, parts: seq<nat>, count: nat, n: nat, k: nat, b: Vec,
                             code: seq<seq<Instr<Cell>>>, m: Memory<Cell>, trace: seq<Conf<Cell>>)
    requires Sliced(parts, count, n) && Linear(op, n) && Symmetric(op, n)
    requires CodeFor(code, Iterations(op, parts, ThreadSlices(n, count), count, n, k))
    requires Run(code, m, trace) && Finished(code, trace[|trace| - 1])
    requires Started(op, b, n, StateOf(m, n)) && Defined(op, StateOf(m, n), k)
    ensures RightState(op, n, b, StateOf(m, n), k, StateOf(trace[|trace| - 1].mem, n))
  {
    hide Iterations, CodeFor, Finished, Step, Partition, Iterate, Linear, Symmetric, Defined, Started, RightState;
    EveryRunIsCg(op, parts, count, n, k, code, m, trace);
    IterateIsRight(op, n, b, StateOf(m, n), k);
  }

  // ----- The code of one thread

  /** Some more code: a phase, or a barrier alone. */
  function Then(code: seq<Instr<Cell>>, ops: seq<Op<Cell>>): seq<Instr<Cell>> {
    code + Dos(ops) + [Wait]
  }

  function ThenWait(code: seq<Instr<Cell>>): seq<Instr<Cell>> {
    code + [Wait]
  }

  /** The main thread's iteration: it adds up the partial products between barriers. */
  function MainCode(mul: seq<Op<Cell>>, dots: seq<Op<Cell>>, count: nat, update: seq<Op<Cell>>, newDot: seq<Op<Cell>>,
                    dir: seq<Op<Cell>>):
    seq<Instr<Cell>>
  {
    Then(Then(Then(Then(Then(Then(Then(ThenWait([]), mul), dots), AiOps(count)), update), newDot), BiOps(count)), dir)
  }

  /** A side thread's iteration: where the main thread adds up, it meets two barriers
      in a row. */
  function SideCode(mul: seq<Op<Cell>>, dots: seq<Op<Cell>>, update: seq<Op<Cell>>, newDot: seq<Op<Cell>>,
                    dir: seq<Op<Cell>>): seq<Instr<Cell>>
  {
    Then(ThenWait(Then(Then(ThenWait(Then(Then(ThenWait([]), mul), dots)), update), newDot)), dir)
  }

  lemma ThenNothing(code: seq<Instr<Cell>>)
    ensures Then(code, []) == ThenWait(code)
  {
    NilRight(code);
    assert Dos<Cell>([]) == [];
  }

  lemma CodePrefix(ps: seq<Threads>, t: nat, k: nat)
    requires k < |ps| && forall j :: 0 <= j < |ps| ==> t < |ps[j]|
    ensures CodeOf(ps[..k + 1], t) == Then(CodeOf(ps[..k], t), ps[k][t])
    ensures CodeOf(ps[..0], t) == [] && ps[..|ps|] == ps
  {
    TakeTake(ps, k, k + 1);
  }

  lemma EightPhases(ps: seq<Threads>, t: nat, count: nat)
    requires |ps| == 8 && Phased(ps, count) && t < count
    ensures CodeOf(ps, t)
         == Then(Then(Then(Then(Then(Then(Then(Then([], ps[0][t]), ps[1][t]), ps[2][t]), ps[3][t]), ps[4][t]), ps[5][t]), ps[6][t]), ps[7][t])
  {
    hide Then, CodeOf;
    CodePrefix(ps, t, 0);
    CodePrefix(ps, t, 1);
    CodePrefix(ps, t, 2);
    CodePrefix(ps, t, 3);
    CodePrefix(ps, t, 4);
    CodePrefix(ps, t, 5);
    CodePrefix(ps, t, 6);
    CodePrefix(ps, t, 7);
  }

  /** Main and side threads pass the same eight barriers in an iteration. */
  lemma IterationCode(op: Vec -> Vec, parts: seq<nat>, starts: seq<nat>, count: nat, n: nat, t: nat)
    requires Sliced(parts, count, n) && Sliced(starts, count, n) && t < count
    ensures forall k :: 0 <= k < 8 ==> |Iteration(op, parts, starts, count, n)[k]| == count
    ensures var mul, dots := RowsPhase(op, parts, count, n)[t], DotPhase(starts, count, n)[t];
            var update, newDot, dir := UpdatePhase(starts, count, n)[t], NewDotPhase(starts, count, n)[t], DirectionPhase(starts, count, n)[t];
            CodeOf(Iteration(op, parts, starts, count, n), t)
            == if t == 0 then MainCode(mul, dots, count, update, newDot, dir) else SideCode(mul, dots, update, newDot, dir)
  {
    hide CodeOf, AiOps, BiOps, RowsPhase, DotPhase, UpdatePhase, NewDotPhase, DirectionPhase, Partition, Then, ThenWait;
    var ps := Iteration(op, parts, starts, count, n);
    EightPhases(ps, t, count);
    ThenNothing([]);
    if t > 0 {
      var dots := Then(Then(ThenWait([]), ps[1][t]), ps[2][t]);
      ThenNothing(dots);
      ThenNothing(Then(Then(ThenWait(dots), ps[4][t]), ps[5][t]));
    }
  }

  // ----- The symmetric variant

  /** Adding the temporaries and zeroing them again in one phase. */
  function AddZeroPhase(maps: seq<seq<Slot>>): (r: Threads)
    ensures |r| == |maps| && forall t {:trigger r[t]} :: 0 <= t < |maps| ==> r[t] == AddOps(maps[t], T) + ZeroOps(maps[t])
  {
    seq(|maps|, t requires 0 <= t < |maps| => AddOps(maps[t], T) + ZeroOps(maps[t]))
  }

  /** One iteration with a symmetric matrix: nine barriers. */
  function SymIteration(crs: Crs, rows: seq<nat>, maps: seq<seq<Slot>>, starts: seq<nat>): (r: seq<Threads>)
    requires crs.Valid() && Partition(rows, crs.n) && |maps| + 1 == |rows| && Sliced(starts, |maps|, crs.n)
    ensures |r| == 9 && forall k :: 0 <= k < 9 ==> |r[k]| == |maps|
  {
    [NoOps(|maps|), Round(crs, rows, maps, P)[1], AddZeroPhase(maps)] + Tail(starts, |maps|, crs.n)
  }

  function AddZeroCells(map_: seq<Slot>): Cell -> bool {
    Either(Positions(map_, T), Slots(map_))
  }

  lemma AddZeroWithin(map_: seq<Slot>)
    ensures Within(AddOps(map_, T) + ZeroOps(map_), AddZeroCells(map_), AddZeroCells(map_))
  {
    hide Within, AddOps, ZeroOps;
    AddReads(map_);
    ZeroWithin(map_);
    WithinConcat(AddOps(map_, T), ZeroOps(map_), AddZeroCells(map_), AddZeroCells(map_));
  }

  /** Additions by map read only the cells the map lists. */
  lemma {:induction false} AddReads(map_: seq<Slot>)
    ensures Within(AddOps(map_, T), AddZeroCells(map_), AddZeroCells(map_))
  {
    if map_ != [] {
      var n := |map_| - 1;
      AddReads(map_[..n]);
      assert map_ == map_[..n] + [map_[n]];
      forall c | AddZeroCells(map_[..n])(c)
        ensures AddZeroCells(map_)(c)
      {
        if Positions(map_[..n], T)(c) {
          var t :| t in map_[..n] && t.pos == c.pos;
          assert t in map_;
        }
      }
      assert map_[n] in map_;
    }
  }

  lemma AddZeroRaceFree(crs: Crs, rows: seq<nat>, maps: seq<seq<Slot>>, cuts: seq<nat>)
    requires Mapped(crs, rows, maps, cuts)
    ensures RaceFree(AddZeroPhase(maps))
  {
    hide MapsFor, Within, Crs.Valid, Partition, Writes, Touches, AddOps, ZeroOps;
    var threads := AddZeroPhase(maps);
    forall t, u, c | 0 <= t < |threads| && 0 <= u < |threads| && t != u && Writes(threads[t], c)
      ensures !Touches(threads[u], c)
    {
      AddZeroWithin(maps[t]);
      AddZeroWithin(maps[u]);
      WithinFacts(threads[t], AddZeroCells(maps[t]), AddZeroCells(maps[t]));
      WithinFacts(threads[u], AddZeroCells(maps[u]), AddZeroCells(maps[u]));
      PositionsDisjoint(crs, rows, maps, cuts, t, u);
    }
  }

  /** The cells that the multiplication may add to are zero. */
  ghost predicate TempsZero(crs: Crs, rows: seq<nat>, m: Memory<Cell>)
    requires crs.Valid() && Partition(rows, crs.n)
  {
    forall c: nat, q: nat :: q < crs.n && Remote(crs, rows, c, q) ==> Read(m, Temp(c, q)) == 0.0
  }

  lemma AddZeroTemps(crs: Crs, rows: seq<nat>, maps: seq<seq<Slot>>, cuts: seq<nat>, m: Memory<Cell>)
    requires Mapped(crs, rows, maps, cuts)
    ensures TempsZero(crs, rows, RunThreads(m, AddZeroPhase(maps)))
  {
    hide MapsFor, ZeroOps, AddOps, Crs.Valid, Partition, Writes, Touches, RunThreads, RunOps, RaceFree, MetIn, Read;
    var threads := AddZeroPhase(maps);
    AddZeroRaceFree(crs, rows, maps, cuts);
    forall c: nat, q: nat | q < crs.n && Remote(crs, rows, c, q)
      ensures Read(RunThreads(m, threads), Temp(c, q)) == 0.0
    {
      var i := Covered(maps, cuts, RemoteOf(crs, rows), |rows| - 1, crs.n, 0, c, q);
      ZeroWrites(maps[i], Slot(c, q));
      WritesConcat(AddOps(maps[i], T), ZeroOps(maps[i]), Temp(c, q));
      Isolated(m, threads, i, Temp(c, q));
      RunConcat(m, AddOps(maps[i], T), ZeroOps(maps[i]));
      ZeroRun(RunOps(m, AddOps(maps[i], T)), maps[i], Slot(c, q));
    }
  }

  lemma WritesConcat(a: seq<Op<Cell>>, b: seq<Op<Cell>>, c: Cell)
    requires Writes(b, c)
    ensures Writes(a + b, c)
  {
    var i :| 0 <= i < |b| && b[i].w == c;
    assert (a + b)[|a| + i].w == c;
  }

  lemma AddZeroVectors(crs: Crs, rows: seq<nat>, maps: seq<seq<Slot>>, cuts: seq<nat>, m: Memory<Cell>)
    requires Mapped(crs, rows, maps, cuts)
    ensures var m' := RunThreads(m, AddZeroPhase(maps));
            && (forall p: nat :: p < crs.n ==>
                  Read(m', V(T, p)) == Read(m, V(T, p)) + RemoteSum(m, RemoteOf(crs, rows), |rows| - 1, p))
            && forall w: nat, p: nat :: w != T ==> Read(m', V(w, p)) == Read(m, V(w, p))
  {
    hide MapsFor, ZeroOps, AddOps, Crs.Valid, Partition, Writes, Touches, RunThreads, RaceFree, Read, Within, RemoteSum, Remote;
    var threads := AddZeroPhase(maps);
    forall p: nat | p < crs.n
      ensures Read(RunThreads(m, threads), V(T, p)) == Read(m, V(T, p))
           + RemoteSum(m, RemoteOf(crs, rows), |rows| - 1, p)
    {
      AddZeroCell(crs, rows, maps, cuts, m, p);
    }
    forall w: nat, p: nat | w != T
      ensures Read(RunThreads(m, threads), V(w, p)) == Read(m, V(w, p))
    {
      forall t | 0 <= t < |threads|
        ensures !Writes(threads[t], V(w, p))
      {
        AddZeroWithin(maps[t]);
        WithinFacts(threads[t], AddZeroCells(maps[t]), AddZeroCells(maps[t]));
      }
      Unwritten(m, threads, V(w, p));
    }
  }

  lemma AddZeroCell(crs: Crs, rows: seq<nat>, maps: seq<seq<Slot>>, cuts: seq<nat>, m: Memory<Cell>, p: nat)
    requires Mapped(crs, rows, maps, cuts) && p < crs.n
    ensures Read(RunThreads(m, AddZeroPhase(maps)), V(T, p))
         == Read(m, V(T, p)) + RemoteSum(m, RemoteOf(crs, rows), |rows| - 1, p)
  {
    hide ZeroOps, AddOps, Crs.Valid, Writes, Touches, RunThreads, RunOps, RaceFree, Read, Within, RemoteSum, Remote, Listed;
    var remote, ncpus := RemoteOf(crs, rows), |rows| - 1;
    var threads := AddZeroPhase(maps);
    AddZeroRaceFree(crs, rows, maps, cuts);
    var j := CutOf(cuts, crs.n, p, ncpus);
    forall u | 0 <= u < |threads| && u != j
      ensures !Writes(threads[u], V(T, p))
    {
      AddZeroWithin(maps[u]);
      WithinFacts(threads[u], AddZeroCells(maps[u]), AddZeroCells(maps[u]));
      MapMembers(maps, cuts, remote, ncpus, crs.n, 0, u);
      NotOwner(cuts, crs.n, j, u, p);
    }
    OwnedBy(m, threads, j, V(T, p));
    RunConcat(m, AddOps(maps[j], T), ZeroOps(maps[j]));
    ZeroWithin(maps[j]);
    WithinFacts(ZeroOps(maps[j]), Slots(maps[j]), Nothing());
    RunUnwritten(RunOps(m, AddOps(maps[j], T)), ZeroOps(maps[j]), V(T, p));
    AddRun(m, maps[j], T, p);
    SlotSumListed(m, remote, ncpus, cuts[j], cuts[j + 1], p);
  }

  /** The multiplication touches no vector but temp. */
  lemma MulVectors(crs: Crs, rows: seq<nat>, maps: seq<seq<Slot>>, cuts: seq<nat>, m: Memory<Cell>)
    requires Mapped(crs, rows, maps, cuts)
    ensures forall w: nat, p: nat :: w != T ==> Read(RunThreads(m, Round(crs, rows, maps, P)[1]), V(w, p)) == Read(m, V(w, p))
  {
    hide MapsFor, MulOps, Crs.Valid, Partition, Writes, Touches, RunThreads, Read;
    PartitionRows(rows, crs.n);
    var threads := Round(crs, rows, maps, P)[1];
    forall w: nat, p: nat | w != T
      ensures Read(RunThreads(m, threads), V(w, p)) == Read(m, V(w, p))
    {
      forall t | 0 <= t < |threads|
        ensures !Writes(threads[t], V(w, p))
      {
        MulFacts(crs, t, rows[t], rows[t + 1], P, V(w, p));
      }
      Unwritten(m, threads, V(w, p));
    }
  }

  /** One iteration of the threads is one iteration of the algorithm, and leaves the
      temporaries zero for the next one. */
  lemma SymIterationStep(crs: Crs, rows: seq<nat>, maps: seq<seq<Slot>>, cuts: seq<nat>, starts: seq<nat>,
                         m: Memory<Cell>)
    requires Mapped(crs, rows, maps, cuts) && Sliced(starts, |maps|, crs.n) && TempsZero(crs, rows, m)
    ensures var m' := RunPhases(m, SymIteration(crs, rows, maps, starts));
            StateOf(m', crs.n) == Next(Operator(crs), StateOf(m, crs.n)) && TempsZero(crs, rows, m')
  {
    hide RunThreads, Read, Next, Tail, NoOps, Partition, MapsFor, Remote, Round, AddZeroPhase, Product, RemoteSum, Crs.Valid;
    var count := |maps|;
    var m1 := RunThreads(m, Round(crs, rows, maps, P)[1]);
    var m2 := RunThreads(m1, AddZeroPhase(maps));
    var m3 := RunPhases(m2, Tail(starts, count, crs.n));
    var head := [NoOps(count), Round(crs, rows, maps, P)[1], AddZeroPhase(maps)];
    RunPhasesConcat(m, head, Tail(starts, count, crs.n));
    ThreePhases(m, head);
    NothingRun(m, count);
    MulVectors(crs, rows, maps, cuts, m);
    AddZeroVectors(crs, rows, maps, cuts, m1);
    AddZeroTemps(crs, rows, maps, cuts, m1);
    assert View(m2, P, crs.n) == View(m, P, crs.n) && View(m2, R, crs.n) == View(m, R, crs.n)
         && View(m2, X, crs.n) == View(m, X, crs.n);
    forall p | 0 <= p < crs.n
      ensures View(m2, T, crs.n)[p] == Product(crs, View(m, P, crs.n))[p]
    {
      OwnAndRemote(crs, rows, maps, cuts, P, m, p);
    }
    assert View(m2, T, crs.n) == Operator(crs)(View(m2, P, crs.n));
    TailStep(Operator(crs), m2, starts, count, crs.n);
  }

  lemma SymIterationRaceFree(crs: Crs, rows: seq<nat>, maps: seq<seq<Slot>>, cuts: seq<nat>, starts: seq<nat>)
    requires Mapped(crs, rows, maps, cuts) && Sliced(starts, |maps|, crs.n)
    ensures AllRaceFree(SymIteration(crs, rows, maps, starts))
  {
    hide RaceFree, Tail, NoOps, Partition, MapsFor, Round, AddZeroPhase, Crs.Valid;
    NoOpsRaceFree(|maps|);
    MulRaceFree(crs, rows, maps, cuts, P);
    AddZeroRaceFree(crs, rows, maps, cuts);
    TailRaceFree(starts, |maps|, crs.n);
  }

  function SymIterations(crs: Crs, rows: seq<nat>, maps: seq<seq<Slot>>, starts: seq<nat>, k: nat): seq<Threads>
    requires crs.Valid() && Partition(rows, crs.n) && |maps| + 1 == |rows| && Sliced(starts, |maps|, crs.n)
  {
    if k == 0 then [] else SymIterations(crs, rows, maps, starts, k - 1) + SymIteration(crs, rows, maps, starts)
  }

  lemma {:induction false} SymIterationsRun(crs: Crs, rows: seq<nat>, maps: seq<seq<Slot>>, cuts: seq<nat>,
                                            starts: seq<nat>, m: Memory<Cell>, k: nat)
    requires Mapped(crs, rows, maps, cuts) && Sliced(starts, |maps|, crs.n) && TempsZero(crs, rows, m)
    ensures AllRaceFree(SymIterations(crs, rows, maps, starts, k))
         && Phased(SymIterations(crs, rows, maps, starts, k), |maps|)
    ensures var m' := RunPhases(m, SymIterations(crs, rows, maps, starts, k));
            StateOf(m', crs.n) == CgAlgebra.Iterate(Operator(crs), StateOf(m, crs.n), k) && TempsZero(crs, rows, m')
  {
    hide RunPhases, Next, SymIteration, Partition, RaceFree, TempsZero, MapsFor, Crs.Valid, Operator;
    if k == 0 {
      NoPhases(m);
    } else {
      var before := SymIterations(crs, rows, maps, starts, k - 1);
      SymIterationsRun(crs, rows, maps, cuts, starts, m, k - 1);
      SymIterationRaceFree(crs, rows, maps, cuts, starts);
      RunPhasesConcat(m, before, SymIteration(crs, rows, maps, starts));
      SymIterationStep(crs, rows, maps, cuts, starts, RunPhases(m, before));
    }
  }

  lemma NinePhases(ps: seq<Threads>, t: nat, count: nat)
    requires |ps| == 9 && Phased(ps, count) && t < count
    ensures CodeOf(ps, t)
         == Then(Then(Then(Then(Then(Then(Then(Then(Then([], ps[0][t]), ps[1][t]), ps[2][t]), ps[3][t]), ps[4][t]), ps[5][t]), ps[6][t]), ps[7][t]), ps[8][t])
  {
    hide Then, CodeOf;
    CodePrefix(ps, t, 0);
    CodePrefix(ps, t, 1);
    CodePrefix(ps, t, 2);
    CodePrefix(ps, t, 3);
    CodePrefix(ps, t, 4);
    CodePrefix(ps, t, 5);
    CodePrefix(ps, t, 6);
    CodePrefix(ps, t, 7);
    CodePrefix(ps, t, 8);
  }

  /** With a symmetric matrix main and side threads pass the same nine barriers. */
  lemma SymIterationCode(crs: Crs, rows: seq<nat>, maps: seq<seq<Slot>>, starts: seq<nat>, t: nat)
    requires crs.Valid() && Partition(rows, crs.n) && |maps| + 1 == |rows| && Sliced(starts, |maps|, crs.n)
         && t < |maps|
    ensures var n, count := crs.n, |maps|;
            var mul, add, dots := Round(crs, rows, maps, P)[1][t], AddZeroPhase(maps)[t], DotPhase(starts, count, n)[t];
            var update, newDot, dir := UpdatePhase(starts, count, n)[t], NewDotPhase(starts, count, n)[t], DirectionPhase(starts, count, n)[t];
            CodeOf(SymIteration(crs, rows, maps, starts), t)
            == if t == 0 then Then(Then(Then(Then(Then(Then(Then(Then(ThenWait([]), mul), add), dots), AiOps(count)), update), newDot), BiOps(count)), dir)
               else Then(ThenWait(Then(Then(ThenWait(Then(Then(Then(ThenWait([]), mul), add), dots)), update), newDot)), dir)
  {
    hide CodeOf, AiOps, BiOps, Round, AddZeroPhase, DotPhase, UpdatePhase, NewDotPhase, DirectionPhase, Partition, Then, ThenWait, Crs.Valid;
    var ps := SymIteration(crs, rows, maps, starts);
    NinePhases(ps, t, |maps|);
    ThenNothing([]);
    if t > 0 {
      var dots := Then(Then(Then(ThenWait([]), ps[1][t]), ps[2][t]), ps[3][t]);
      ThenNothing(dots);
      ThenNothing(Then(Then(ThenWait(dots), ps[5][t]), ps[6][t]));
    }
  }

  /** Every finished run with a symmetric matrix, in any interleaving, leaves the vectors
      of the sequential iteration. */
  lemma EveryRunIsSymCg(crs: Crs, rows: seq<nat>, maps: seq<seq<Slot>>, cuts: seq<nat>, k: nat,
                        code: seq<seq<Instr<Cell>>>, m: Memory<Cell>, trace: seq<Conf<Cell>>)
    requires Mapped(crs, rows, maps, cuts) && |maps| >= 1 && TempsZero(crs, rows, m)
    requires CodeFor(code, SymIterations(crs, rows, maps, ThreadSlices(crs.n, |maps|), k))
    requires Run(code, m, trace) && Finished(code, trace[|trace| - 1])
    ensures StateOf(trace[|trace| - 1].mem, crs.n) == CgAlgebra.Iterate(Operator(crs), StateOf(m, crs.n), k)
  {
    hide SymIterations, RunPhases, CodeFor, Finished, Step, Partition, Iterate, MapsFor, TempsZero, Crs.Valid, Operator;
    var starts := ThreadSlices(crs.n, |maps|);
    var phases := SymIterations(crs, rows, maps, starts, k);
    SymIterationsRun(crs, rows, maps, cuts, starts, m, k);
    FinishedRun(code, phases, m, trace);
  }

  /** No deadlock in the symmetric variant either. */
  lemma SymRunsCanFinish(crs: Crs, rows: seq<nat>, maps: seq<seq<Slot>>, cuts: seq<nat>, k: nat,
                         code: seq<seq<Instr<Cell>>>, m: Memory<Cell>, trace: seq<Conf<Cell>>)
    returns (full: seq<Conf<Cell>>)
    requires Mapped(crs, rows, maps, cuts) && |maps| >= 1 && TempsZero(crs, rows, m)
    requires CodeFor(code, SymIterations(crs, rows, maps, ThreadSlices(crs.n, |maps|), k)) && Run(code, m, trace)
    ensures trace <= full && Run(code, m, full) && Finished(code, full[|full| - 1])
    ensures StateOf(full[|full| - 1].mem, crs.n) == CgAlgebra.Iterate(Operator(crs), StateOf(m, crs.n), k)
  {
    hide SymIterations, RunPhases, CodeFor, Finished, Step, Partition, Iterate, MapsFor, TempsZero, Crs.Valid, Operator;
    var starts := ThreadSlices(crs.n, |maps|);
    SymIterationsRun(crs, rows, maps, cuts, starts, m, k);
    full := CanFinish(code, SymIterations(crs, rows, maps, starts, k), m, trace);
    EveryRunIsSymCg(crs, rows, maps, cuts, k, code, m, full);
  }

  /** Whatever the interleaving, a run with a symmetric matrix keeps the residual, and its
      residuals and directions are orthogonal and conjugate. */
  lemma EverySymRunIsOrthogonal(crs: Crs, rows: seq<nat>, maps: seq<seq<Slot>>, cuts: seq<nat>, k: nat, b: Vec,
                                code: seq<seq<Instr<Cell>>>, m: Memory<Cell>, trace: seq<Conf<Cell>>)
    requires Mapped(crs, rows, maps, cuts) && |maps| >= 1 && TempsZero(crs, rows, m)
    requires CodeFor(code, SymIterations(crs, rows, maps, ThreadSlices(crs.n, |maps|), k))
    requires Run(code, m, trace) && Finished(code, trace[|trace| - 1])
    requires Started(Operator(crs), b, crs.n, StateOf(m, crs.n)) && Defined(Operator(crs), StateOf(m, crs.n), k)
    ensures RightState(Operator(crs), crs.n, b, StateOf(m, crs.n), k, StateOf(trace[|trace| - 1].mem, crs.n))
  {
    hide SymIterations, RunPhases, CodeFor, Finished, Step, Partition, Iterate, MapsFor, TempsZero, Crs.Valid, Operator, Linear,
         Symmetric, Defined, Started, RightState;
    EveryRunIsSymCg(crs, rows, maps, cuts, k, code, m, trace);
    OperatorLinear(crs);
    OperatorSymmetric(crs);
    IterateIsRight(Operator(crs), crs.n, b, StateOf(m, crs.n), k);
  }
}

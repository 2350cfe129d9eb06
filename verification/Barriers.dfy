/** Threads that share memory and meet at barriers.

    Each thread runs its own list of instructions, one at a time, in any
    interleaving; `Wait` is passed by all threads together.  `EveryRun`: when
    between two barriers no thread touches a cell that another one writes, every
    run has, at each barrier, the memory of running the threads one after another. */
module Barriers {
  import opened Seqs

  /** One step: cell w becomes a function of the cells rs. */
  datatype Op<!Cell> = Op(w: Cell, rs: seq<Cell>, f: seq<real> -> real)

  datatype Instr<!Cell> = Do(op: Op<Cell>) | Wait

  /** Memory; a cell that was never written reads as 0. */
  type Memory<!Cell> = map<Cell, real>

  function Read<Cell(==)>(m: Memory<Cell>, c: Cell): real {
    if c in m then m[c] else 0.0
  }

  function ReadAll<Cell(==)>(m: Memory<Cell>, cs: seq<Cell>): (r: seq<real>)
    ensures |r| == |cs|
    ensures forall i {:trigger r[i]} :: 0 <= i < |cs| ==> r[i] == Read(m, cs[i])
  {
    seq(|cs|, i requires 0 <= i < |cs| => Read(m, cs[i]))
  }

  function Exec<Cell(==)>(m: Memory<Cell>, op: Op<Cell>): Memory<Cell> {
    m[op.w := op.f(ReadAll(m, op.rs))]
  }

  function RunOps<Cell(==)>(m: Memory<Cell>, ops: seq<Op<Cell>>): Memory<Cell> {
    if ops == [] then m else Exec(RunOps(m, ops[..|ops| - 1]), ops[|ops| - 1])
  }

  /** All threads of one phase, one after another. */
  function RunThreads<Cell(==)>(m: Memory<Cell>, threads: seq<seq<Op<Cell>>>): Memory<Cell> {
    if threads == [] then m else RunOps(RunThreads(m, threads[..|threads| - 1]), threads[|threads| - 1])
  }

  function RunPhases<Cell(==)>(m: Memory<Cell>, phases: seq<seq<seq<Op<Cell>>>>): Memory<Cell> {
    if phases == [] then m else RunThreads(RunPhases(m, phases[..|phases| - 1]), phases[|phases| - 1])
  }

  ghost predicate Writes<Cell>(ops: seq<Op<Cell>>, c: Cell) {
    exists i :: 0 <= i < |ops| && ops[i].w == c
  }

  ghost predicate Touches<Cell>(ops: seq<Op<Cell>>, c: Cell) {
    exists i :: 0 <= i < |ops| && (ops[i].w == c || c in ops[i].rs)
  }

  /** No thread touches what another one writes. */
  ghost predicate RaceFree<Cell(!new)>(threads: seq<seq<Op<Cell>>>) {
    forall t, u, c :: 0 <= t < |threads| && 0 <= u < |threads| && t != u && Writes(threads[t], c) ==> !Touches(threads[u], c)
  }

  ghost predicate Same<Cell(!new)>(a: Memory<Cell>, b: Memory<Cell>) {
    forall c :: Read(a, c) == Read(b, c)
  }

  // ----- One thread

  lemma {:induction false} RunUnwritten<Cell(!new)>(m: Memory<Cell>, ops: seq<Op<Cell>>, c: Cell)
    requires !Writes(ops, c)
    ensures Read(RunOps(m, ops), c) == Read(m, c)
  {
    if ops != [] {
      var n := |ops| - 1;
      assert ops[n].w != c;
      RunUnwritten(m, ops[..n], c);
    }
  }

  /** A thread that finds the same values in the cells it touches leaves the same. */
  lemma {:induction false} RunAgree<Cell(!new)>(a: Memory<Cell>, b: Memory<Cell>, ops: seq<Op<Cell>>)
    requires forall c :: Touches(ops, c) ==> Read(a, c) == Read(b, c)
    ensures forall c :: Touches(ops, c) ==> Read(RunOps(a, ops), c) == Read(RunOps(b, ops), c)
  {
    if ops != [] {
      var n := |ops| - 1;
      var init, l := ops[..n], ops[n];
      forall c | Touches(init, c)
        ensures Touches(ops, c)
      {
        var i :| 0 <= i < |init| && (init[i].w == c || c in init[i].rs);
        assert ops[i] == init[i];
      }
      RunAgree(a, b, init);
      var x, y := RunOps(a, init), RunOps(b, init);
      forall c | Touches(ops, c)
        ensures Read(x, c) == Read(y, c)
      {
        if !Touches(init, c) {
          assert !Writes(init, c) by { WritesTouches(init, c); }
          RunUnwritten(a, init, c);
          RunUnwritten(b, init, c);
        }
      }
      LastReads(ops, x, y);
    }
  }

  lemma WritesTouches<Cell>(ops: seq<Op<Cell>>, c: Cell)
    ensures Writes(ops, c) ==> Touches(ops, c)
  {
  }

  lemma LastReads<Cell(!new)>(ops: seq<Op<Cell>>, x: Memory<Cell>, y: Memory<Cell>)
    requires ops != [] && forall c :: Touches(ops, c) ==> Read(x, c) == Read(y, c)
    ensures ReadAll(x, ops[|ops| - 1].rs) == ReadAll(y, ops[|ops| - 1].rs)
    ensures forall c :: Touches(ops, c) ==> Read(Exec(x, ops[|ops| - 1]), c) == Read(Exec(y, ops[|ops| - 1]), c)
  {
    var rs := ops[|ops| - 1].rs;
    forall i | 0 <= i < |rs|
      ensures Read(x, rs[i]) == Read(y, rs[i])
    {
      assert Touches(ops, rs[i]);
    }
    assert ReadAll(x, rs) == ReadAll(y, rs);
  }

  lemma RunOneMore<Cell>(m: Memory<Cell>, ops: seq<Op<Cell>>, l: nat)
    requires l < |ops|
    ensures RunOps(m, ops[..l + 1]) == Exec(RunOps(m, ops[..l]), ops[l])
  {
    TakeTake(ops, l, l + 1);
  }

  lemma {:induction false} RunConcat<Cell>(m: Memory<Cell>, a: seq<Op<Cell>>, b: seq<Op<Cell>>)
    ensures RunOps(m, a + b) == RunOps(RunOps(m, a), b)
  {
    if b == [] {
      NilRight(a);
    } else {
      ButLast(a, b);
      RunConcat(m, a, b[..|b| - 1]);
    }
  }

  lemma RunOne<Cell>(m: Memory<Cell>, op: Op<Cell>)
    ensures RunOps(m, [op]) == Exec(m, op)
  {
    assert [op][..0] == [];
  }

  // ----- The threads of one phase

  ghost predicate WrittenBySome<Cell>(threads: seq<seq<Op<Cell>>>, c: Cell) {
    exists t :: 0 <= t < |threads| && Writes(threads[t], c)
  }

  /** Part way through a phase that began with memory m: thread t has done l[t] of
      its steps, and each cell is as its only writer has left it. */
  ghost predicate PartWay<Cell(!new)>(threads: seq<seq<Op<Cell>>>, m: Memory<Cell>, mem: Memory<Cell>, l: seq<nat>)
  {
    && |l| == |threads|
    && (forall t :: 0 <= t < |threads| ==> l[t] <= |threads[t]|)
    && (forall t, c :: 0 <= t < |threads| && Writes(threads[t], c) ==> Read(mem, c) == Read(RunOps(m, threads[t][..l[t]]), c))
    && (forall c :: !WrittenBySome(threads, c) ==> Read(mem, c) == Read(m, c))
  }

  /** What a thread sees part way is what it would see alone. */
  lemma SeesOwn<Cell(!new)>(threads: seq<seq<Op<Cell>>>, m: Memory<Cell>, mem: Memory<Cell>, l: seq<nat>, t: nat,
                            c: Cell)
    requires RaceFree(threads) && PartWay(threads, m, mem, l) && t < |threads| && Touches(threads[t], c)
    ensures Read(mem, c) == Read(RunOps(m, threads[t][..l[t]]), c)
  {
    if !Writes(threads[t], c) {
      RunUnwritten(m, threads[t][..l[t]], c);
      assert !WrittenBySome(threads, c);
    }
  }

  /** The step of thread t has the effect it would have alone. */
  lemma OwnStep<Cell(!new)>(threads: seq<seq<Op<Cell>>>, m: Memory<Cell>, mem: Memory<Cell>, l: seq<nat>, t: nat)
    requires RaceFree(threads) && PartWay(threads, m, mem, l) && t < |threads| && l[t] < |threads[t]|
    ensures forall c :: Writes(threads[t], c) ==>
              Read(Exec(mem, threads[t][l[t]]), c) == Read(RunOps(m, threads[t][..l[t] + 1]), c)
  {
    hide RaceFree, RunOps, PartWay;
    PartWayLength(threads, m, mem, l);
    var ops, op := threads[t], threads[t][l[t]];
    var own := RunOps(m, ops[..l[t]]);
    RunOneMore(m, ops, l[t]);
    forall c | Touches(ops, c)
      ensures Read(mem, c) == Read(own, c)
    {
      SeesOwn(threads, m, mem, l, t, c);
    }
    forall i | 0 <= i < |op.rs|
      ensures Read(mem, op.rs[i]) == Read(own, op.rs[i])
    {
      assert Touches(ops, op.rs[i]);
    }
    assert ReadAll(mem, op.rs) == ReadAll(own, op.rs);
    forall c | Writes(ops, c)
      ensures Read(Exec(mem, op), c) == Read(RunOps(m, ops[..l[t] + 1]), c)
    {
      WritesTouches(ops, c);
    }
  }

  lemma PartWayLength<Cell(!new)>(threads: seq<seq<Op<Cell>>>, m: Memory<Cell>, mem: Memory<Cell>, l: seq<nat>)
    requires PartWay(threads, m, mem, l)
    ensures |l| == |threads| && forall t :: 0 <= t < |threads| ==> l[t] <= |threads[t]|
  {
  }

  /** It changes no cell that another thread writes, or that nobody writes. */
  lemma OthersStep<Cell(!new)>(threads: seq<seq<Op<Cell>>>, mem: Memory<Cell>, t: nat, i: nat)
    requires RaceFree(threads) && t < |threads| && i < |threads[t]|
    ensures forall u, c :: 0 <= u < |threads| && u != t && Writes(threads[u], c) ==> Read(Exec(mem, threads[t][i]), c) == Read(mem, c)
    ensures forall c :: !WrittenBySome(threads, c) ==> Read(Exec(mem, threads[t][i]), c) == Read(mem, c)
  {
    var op := threads[t][i];
    assert Writes(threads[t], op.w) && Touches(threads[t], op.w);
    assert WrittenBySome(threads, op.w);
  }

  /** One step of thread t. */
  lemma PartWayStep<Cell(!new)>(threads: seq<seq<Op<Cell>>>, m: Memory<Cell>, mem: Memory<Cell>, l: seq<nat>, t: nat)
    requires RaceFree(threads) && PartWay(threads, m, mem, l) && t < |threads| && l[t] < |threads[t]|
    ensures PartWay(threads, m, Exec(mem, threads[t][l[t]]), l[t := l[t] + 1])
  {
    hide RaceFree, RunOps, Exec, Writes, WrittenBySome, Read;
    OwnStep(threads, m, mem, l, t);
    OthersStep(threads, mem, t, l[t]);
  }

  /** At the end of a phase the memory is that of running the threads in order. */
  lemma PartWayEnd<Cell(!new)>(threads: seq<seq<Op<Cell>>>, m: Memory<Cell>, mem: Memory<Cell>, l: seq<nat>)
    requires RaceFree(threads) && PartWay(threads, m, mem, l) && forall t :: 0 <= t < |threads| ==> l[t] == |threads[t]|
    ensures Same(mem, RunThreads(m, threads))
  {
    forall c
      ensures Read(mem, c) == Read(RunThreads(m, threads), c)
    {
      if WrittenBySome(threads, c) {
        var t :| 0 <= t < |threads| && Writes(threads[t], c);
        Isolated(m, threads, t, c);
        Whole(threads[t]);
      } else {
        Unwritten(m, threads, c);
      }
    }
  }

  lemma {:induction false} Unwritten<Cell(!new)>(m: Memory<Cell>, threads: seq<seq<Op<Cell>>>, c: Cell)
    requires !WrittenBySome(threads, c)
    ensures Read(RunThreads(m, threads), c) == Read(m, c)
  {
    if threads != [] {
      var n := |threads| - 1;
      Unwritten(m, threads[..n], c);
      assert !Writes(threads[n], c);
      RunUnwritten(RunThreads(m, threads[..n]), threads[n], c);
    }
  }

  /** Each thread of a race-free phase can be looked at alone. */
  lemma {:induction false} Isolated<Cell(!new)>(m: Memory<Cell>, threads: seq<seq<Op<Cell>>>, t: nat, c: Cell)
    requires RaceFree(threads) && t < |threads| && Writes(threads[t], c)
    ensures Read(RunThreads(m, threads), c) == Read(RunOps(m, threads[t]), c)
  {
    var n := |threads| - 1;
    var init := threads[..n];
    RaceFreePart(threads);
    WritesTouches(threads[t], c);
    if t < n {
      Isolated(m, init, t, c);
      assert !Touches(threads[n], c);
      assert !Writes(threads[n], c) by { WritesTouches(threads[n], c); }
      RunUnwritten(RunThreads(m, init), threads[n], c);
    } else {
      forall d | Touches(threads[n], d)
        ensures Read(RunThreads(m, init), d) == Read(m, d)
      {
        OnlyWriter(threads, d);
        Unwritten(m, init, d);
      }
      RunAgree(RunThreads(m, init), m, threads[n]);
    }
  }

  /** A cell that no other thread writes is as thread t alone would leave it. */
  lemma OwnedBy<Cell(!new)>(m: Memory<Cell>, threads: seq<seq<Op<Cell>>>, t: nat, c: Cell)
    requires RaceFree(threads) && t < |threads| && forall u :: 0 <= u < |threads| && u != t ==> !Writes(threads[u], c)
    ensures Read(RunThreads(m, threads), c) == Read(RunOps(m, threads[t]), c)
  {
    if Writes(threads[t], c) {
      Isolated(m, threads, t, c);
    } else {
      Unwritten(m, threads, c);
      RunUnwritten(m, threads[t], c);
    }
  }

  lemma OnlyWriter<Cell(!new)>(threads: seq<seq<Op<Cell>>>, c: Cell)
    requires RaceFree(threads) && threads != [] && Touches(threads[|threads| - 1], c)
    ensures !WrittenBySome(threads[..|threads| - 1], c)
  {
    var init := threads[..|threads| - 1];
    forall u | 0 <= u < |init|
      ensures !Writes(init[u], c)
    {
      assert threads[u] == init[u];
    }
  }

  lemma RaceFreePart<Cell(!new)>(threads: seq<seq<Op<Cell>>>)
    requires RaceFree(threads) && threads != []
    ensures RaceFree(threads[..|threads| - 1])
  {
    var init := threads[..|threads| - 1];
    forall t, u, c | 0 <= t < |init| && 0 <= u < |init| && t != u && Writes(init[t], c)
      ensures !Touches(init[u], c)
    {
      assert init[t] == threads[t] && init[u] == threads[u];
    }
  }

  // ----- The machine

  datatype Conf<!Cell> = Conf(mem: Memory<Cell>, pc: seq<nat>)

  ghost predicate ThreadStep<Cell>(code: seq<seq<Instr<Cell>>>, c: Conf<Cell>, d: Conf<Cell>, t: nat) {
    && |c.pc| == |code| && t < |code|
    && c.pc[t] < |code[t]| && code[t][c.pc[t]].Do?
    && d == Conf(Exec(c.mem, code[t][c.pc[t]].op), c.pc[t := c.pc[t] + 1])
  }

  /** All threads pass a barrier together. */
  ghost predicate BarrierStep<Cell>(code: seq<seq<Instr<Cell>>>, c: Conf<Cell>, d: Conf<Cell>) {
    && |c.pc| == |code| == |d.pc| && code != []
    && (forall t :: 0 <= t < |code| ==> c.pc[t] < |code[t]| && code[t][c.pc[t]].Wait?)
    && d.mem == c.mem && forall t :: 0 <= t < |code| ==> d.pc[t] == c.pc[t] + 1
  }

  ghost predicate Step<Cell>(code: seq<seq<Instr<Cell>>>, c: Conf<Cell>, d: Conf<Cell>) {
    BarrierStep(code, c, d) || exists t :: ThreadStep(code, c, d, t)
  }

  ghost predicate Run<Cell>(code: seq<seq<Instr<Cell>>>, m: Memory<Cell>, trace: seq<Conf<Cell>>) {
    && trace != [] && trace[0].mem == m
    && |trace[0].pc| == |code| && (forall t :: 0 <= t < |code| ==> trace[0].pc[t] == 0)
    && forall i {:trigger trace[i]} :: 0 < i < |trace| ==> Step(code, trace[i - 1], trace[i])
  }

  // ----- Code made of phases

  function Dos<Cell>(ops: seq<Op<Cell>>): (r: seq<Instr<Cell>>)
    ensures |r| == |ops| && forall i {:trigger r[i]} :: 0 <= i < |ops| ==> r[i] == Do(ops[i])
  {
    seq(|ops|, i requires 0 <= i < |ops| => Do(ops[i]))
  }

  /** The code of thread t: each phase ends at a barrier. */
  function CodeOf<Cell>(phases: seq<seq<seq<Op<Cell>>>>, t: nat): seq<Instr<Cell>>
    requires forall k :: 0 <= k < |phases| ==> t < |phases[k]|
  {
    if phases == [] then []
    else
      var n := |phases| - 1;
      CodeOf(phases[..n], t) + Dos(phases[n][t]) + [Wait]
  }

  /** Each phase lists the steps of all `count` threads. */
  ghost predicate Phased<Cell>(phases: seq<seq<seq<Op<Cell>>>>, count: nat) {
    count >= 1 && forall k :: 0 <= k < |phases| ==> |phases[k]| == count
  }

  ghost predicate CodeFor<Cell>(code: seq<seq<Instr<Cell>>>, phases: seq<seq<seq<Op<Cell>>>>) {
    Phased(phases, |code|) && forall t :: 0 <= t < |code| ==> code[t] == CodeOf(phases, t)
  }

  lemma {:induction false} CodeAt<Cell>(phases: seq<seq<seq<Op<Cell>>>>, t: nat, k: nat, i: nat)
    requires (forall j :: 0 <= j < |phases| ==> t < |phases[j]|) && k < |phases| && i <= |phases[k][t]|
    ensures var s := |CodeOf(phases[..k], t)|;
            && s + i < |CodeOf(phases, t)|
            && CodeOf(phases, t)[s + i] == (if i < |phases[k][t]| then Do(phases[k][t][i]) else Wait)
            && |CodeOf(phases[..k + 1], t)| == s + |phases[k][t]| + 1
  {
    var n := |phases| - 1;
    if k < n {
      CodeAt(phases[..n], t, k, i);
      TakeTake(phases, k, n);
      TakeTake(phases, k + 1, n);
    } else {
      Whole(phases);
    }
  }

  /** Every thread is in phase k, thread t before its step l[t]. */
  ghost predicate InPhase<Cell(!new)>(phases: seq<seq<seq<Op<Cell>>>>, c: Conf<Cell>, k: nat, l: seq<nat>)
  {
    && k <= |phases| && |l| == |c.pc| && Phased(phases, |l|)
    && (forall t :: 0 <= t < |l| ==> c.pc[t] == |CodeOf(phases[..k], t)| + l[t])
    && (if k < |phases| then forall t :: 0 <= t < |l| ==> l[t] <= |phases[k][t]| else forall t :: 0 <= t < |l| ==> l[t] == 0)
  }

  /** ... and the memory is as `PartWay` says. */
  ghost predicate On<Cell(!new)>(phases: seq<seq<seq<Op<Cell>>>>, m: Memory<Cell>, c: Conf<Cell>, k: nat, l: seq<nat>)
  {
    && InPhase(phases, c, k, l)
    && (k < |phases| ==> PartWay(phases[k], RunPhases(m, phases[..k]), c.mem, l))
    && (k == |phases| ==> Same(c.mem, RunPhases(m, phases)))
  }

  lemma PartWayStart<Cell(!new)>(threads: seq<seq<Op<Cell>>>, m: Memory<Cell>, mem: Memory<Cell>, l: seq<nat>)
    requires Same(mem, m) && |l| == |threads| && forall t :: 0 <= t < |l| ==> l[t] == 0
    ensures PartWay(threads, m, mem, l)
  {
  }

  ghost predicate AllRaceFree<Cell(!new)>(phases: seq<seq<seq<Op<Cell>>>>) {
    forall k :: 0 <= k < |phases| ==> RaceFree(phases[k])
  }

  lemma OnThreadStep<Cell(!new)>(code: seq<seq<Instr<Cell>>>, phases: seq<seq<seq<Op<Cell>>>>, m: Memory<Cell>,
                                 c: Conf<Cell>, d: Conf<Cell>, k: nat, l: seq<nat>, t: nat)
    returns (l': seq<nat>)
    requires CodeFor(code, phases) && AllRaceFree(phases) && On(phases, m, c, k, l) && ThreadStep(code, c, d, t)
    ensures On(phases, m, d, k, l')
  {
    hide PartWay, RaceFree, CodeOf, Exec;
    if k == |phases| {
      Whole(phases);
      assert false;
    }
    CodeAt(phases, t, k, l[t]);
    PartWayStep(phases[k], RunPhases(m, phases[..k]), c.mem, l, t);
    l' := l[t := l[t] + 1];
  }

  lemma AtEnd<Cell(!new)>(code: seq<seq<Instr<Cell>>>, phases: seq<seq<seq<Op<Cell>>>>, m: Memory<Cell>, c: Conf<Cell>,
                          l: seq<nat>)
    requires CodeFor(code, phases) && On(phases, m, c, |phases|, l) && |c.pc| == |code|
    ensures forall t :: 0 <= t < |code| ==> c.pc[t] == |code[t]|
    ensures c.pc[0] == |code[0]|
  {
    hide CodeOf;
    Whole(phases);
  }

  lemma OnBarrierStep<Cell(!new)>(code: seq<seq<Instr<Cell>>>, phases: seq<seq<seq<Op<Cell>>>>, m: Memory<Cell>,
                                  c: Conf<Cell>, d: Conf<Cell>, k: nat, l: seq<nat>)
    returns (l': seq<nat>)
    requires CodeFor(code, phases) && AllRaceFree(phases) && On(phases, m, c, k, l) && BarrierStep(code, c, d)
    ensures k < |phases| && On(phases, m, d, k + 1, l') && Same(d.mem, RunPhases(m, phases[..k + 1]))
  {
    hide PartWay, RaceFree, CodeOf, RunThreads, Same;
    if k == |phases| {
      AtEnd(code, phases, m, c, l);
      assert false;
    }
    forall t | 0 <= t < |l|
      ensures l[t] == |phases[k][t]| && d.pc[t] == |CodeOf(phases[..k + 1], t)|
    {
      CodeAt(phases, t, k, l[t]);
    }
    PartWayEnd(phases[k], RunPhases(m, phases[..k]), c.mem, l);
    TakeTake(phases, k, k + 1);
    l' := seq(|l|, _ => 0);
    if k + 1 < |phases| {
      PartWayStart(phases[k + 1], RunPhases(m, phases[..k + 1]), d.mem, l');
    } else {
      Whole(phases);
    }
  }

  lemma StartsOn<Cell(!new)>(code: seq<seq<Instr<Cell>>>, phases: seq<seq<seq<Op<Cell>>>>, m: Memory<Cell>,
                             c: Conf<Cell>)
    requires CodeFor(code, phases) && c.mem == m && |c.pc| == |code| && forall t :: 0 <= t < |code| ==> c.pc[t] == 0
    ensures On(phases, m, c, 0, c.pc)
  {
    assert phases[..0] == [];
    if phases != [] {
      PartWayStart(phases[0], m, m, c.pc);
    }
  }

  /** Every run, whatever the interleaving, is part way through some phase, with the
      memory that the threads running in order would have there. */
  lemma {:induction false} EveryRun<Cell(!new)>(code: seq<seq<Instr<Cell>>>, phases: seq<seq<seq<Op<Cell>>>>,
                                                m: Memory<Cell>,
                                                trace: seq<Conf<Cell>>)
    returns (k: nat, l: seq<nat>)
    requires CodeFor(code, phases) && AllRaceFree(phases) && Run(code, m, trace)
    ensures On(phases, m, trace[|trace| - 1], k, l)
  {
    hide On, CodeFor, AllRaceFree, ThreadStep, BarrierStep;
    var n := |trace| - 1;
    if n == 0 {
      StartsOn(code, phases, m, trace[0]);
      k, l := 0, trace[0].pc;
    } else {
      k, l := EveryRun(code, phases, m, trace[..n]);
      var c, d := trace[n - 1], trace[n];
      assert Step(code, c, d);
      if BarrierStep(code, c, d) {
        var l' := OnBarrierStep(code, phases, m, c, d, k, l);
        k, l := k + 1, l';
      } else {
        var t :| ThreadStep(code, c, d, t);
        l := OnThreadStep(code, phases, m, c, d, k, l, t);
      }
    }
  }

  ghost predicate Finished<Cell>(code: seq<seq<Instr<Cell>>>, c: Conf<Cell>) {
    |c.pc| == |code| && forall t :: 0 <= t < |code| ==> c.pc[t] == |code[t]|
  }

  /** A finished run has the memory of running all phases, thread after thread. */
  lemma FinishedRun<Cell(!new)>(code: seq<seq<Instr<Cell>>>, phases: seq<seq<seq<Op<Cell>>>>, m: Memory<Cell>,
                                trace: seq<Conf<Cell>>)
    requires CodeFor(code, phases) && AllRaceFree(phases) && Run(code, m, trace) && Finished(code, trace[|trace| - 1])
    ensures Same(trace[|trace| - 1].mem, RunPhases(m, phases))
  {
    hide PartWay, RaceFree, CodeOf, RunThreads, Same;
    var k, l := EveryRun(code, phases, m, trace);
    if k < |phases| {
      CodeAt(phases, 0, k, l[0]);
    }
  }

  /** No run gets stuck: until it is finished, some thread or the barrier can go on. */
  lemma NeverStuck<Cell(!new)>(code: seq<seq<Instr<Cell>>>, phases: seq<seq<seq<Op<Cell>>>>, m: Memory<Cell>,
                               trace: seq<Conf<Cell>>)
    returns (d: Conf<Cell>)
    requires CodeFor(code, phases) && AllRaceFree(phases) && Run(code, m, trace) && !Finished(code, trace[|trace| - 1])
    ensures Step(code, trace[|trace| - 1], d)
  {
    hide PartWay, RaceFree, CodeOf, RunThreads, Same, Exec;
    var k, l := EveryRun(code, phases, m, trace);
    var c := trace[|trace| - 1];
    if k == |phases| {
      AtEnd(code, phases, m, c, l);
      assert false;
    }
    forall t | 0 <= t < |code|
      ensures c.pc[t] < |code[t]|
    {
      CodeAt(phases, t, k, l[t]);
    }
    d := SomeStep(code, c);
  }

  /** Some thread has a step of its own, or all wait. */
  lemma SomeStep<Cell>(code: seq<seq<Instr<Cell>>>, c: Conf<Cell>) returns (d: Conf<Cell>)
    requires |c.pc| == |code| && code != [] && forall t :: 0 <= t < |code| ==> c.pc[t] < |code[t]|
    ensures Step(code, c, d)
  {
    hide Exec;
    if t :| 0 <= t < |code| && code[t][c.pc[t]].Do? {
      d := Conf(Exec(c.mem, code[t][c.pc[t]].op), c.pc[t := c.pc[t] + 1]);
      assert ThreadStep(code, c, d, t);
    } else {
      d := Conf(c.mem, seq(|code|, t requires 0 <= t < |code| => c.pc[t] + 1));
      assert BarrierStep(code, c, d);
    }
  }

  lemma {:induction false} RunPhasesConcat<Cell>(m: Memory<Cell>, a: seq<seq<seq<Op<Cell>>>>,
                                                 b: seq<seq<seq<Op<Cell>>>>)
    ensures RunPhases(m, a + b) == RunPhases(RunPhases(m, a), b)
  {
    hide RunThreads;
    if b == [] {
      NilRight(a);
    } else {
      ButLast(a, b);
      RunPhasesConcat(m, a, b[..|b| - 1]);
    }
  }

  lemma NoPhases<Cell>(m: Memory<Cell>)
    ensures RunPhases(m, []) == m
  {
  }

  lemma ThreePhases<Cell>(m: Memory<Cell>, round: seq<seq<seq<Op<Cell>>>>)
    requires |round| == 3
    ensures RunPhases(m, round[..1]) == RunThreads(m, round[0])
    ensures RunPhases(m, round[..2]) == RunThreads(RunThreads(m, round[0]), round[1])
    ensures RunPhases(m, round) == RunThreads(RunThreads(RunThreads(m, round[0]), round[1]), round[2])
  {
    hide RunThreads;
    assert round[..2][..1] == round[..1] && round[..1][..0] == [];
  }

  // ----- Every run ends

  function Total(s: seq<nat>): nat {
    if s == [] then 0 else Total(s[..|s| - 1]) + s[|s| - 1]
  }

  lemma {:induction false} TotalOneMore(s: seq<nat>, i: nat)
    requires i < |s|
    ensures Total(s[i := s[i] + 1]) == Total(s) + 1
  {
    var n := |s| - 1;
    var r := s[i := s[i] + 1];
    if i < n {
      TotalOneMore(s[..n], i);
      assert r[..n] == s[..n][i := s[..n][i] + 1];
    } else {
      assert r[..n] == s[..n];
    }
  }

  lemma {:induction false} TotalBelow(a: seq<nat>, b: seq<nat>)
    requires |a| == |b| && forall i :: 0 <= i < |a| ==> a[i] <= b[i]
    ensures Total(a) <= Total(b)
    ensures a != [] && (forall i :: 0 <= i < |a| ==> a[i] < b[i]) ==> Total(a) < Total(b)
  {
    if a != [] {
      var n := |a| - 1;
      forall i | 0 <= i < n
        ensures a[..n][i] <= b[..n][i]
      {
        assert a[i] <= b[i];
      }
      TotalBelow(a[..n], b[..n]);
    }
  }

  function Lengths<Cell>(code: seq<seq<Instr<Cell>>>): (r: seq<nat>)
    ensures |r| == |code| && forall t {:trigger r[t]} :: 0 <= t < |code| ==> r[t] == |code[t]|
  {
    seq(|code|, t requires 0 <= t < |code| => |code[t]|)
  }

  lemma StepCounts<Cell(!new)>(code: seq<seq<Instr<Cell>>>, c: Conf<Cell>, d: Conf<Cell>)
    requires Step(code, c, d) && |c.pc| == |code| && forall t :: 0 <= t < |code| ==> c.pc[t] <= |code[t]|
    ensures |d.pc| == |code| && (forall t :: 0 <= t < |code| ==> d.pc[t] <= |code[t]|)
    ensures Total(d.pc) > Total(c.pc)
  {
    hide Exec, Total;
    if BarrierStep(code, c, d) {
      TotalBelow(c.pc, d.pc);
    } else {
      var t :| ThreadStep(code, c, d, t);
      TotalOneMore(c.pc, t);
    }
  }

  /** No run has more steps than there are instructions. */
  lemma {:induction false} RunsEnd<Cell(!new)>(code: seq<seq<Instr<Cell>>>, m: Memory<Cell>, trace: seq<Conf<Cell>>)
    requires Run(code, m, trace)
    ensures var pc := trace[|trace| - 1].pc;
            && |pc| == |code| && (forall t :: 0 <= t < |code| ==> pc[t] <= |code[t]|)
            && |trace| - 1 <= Total(pc) <= Total(Lengths(code))
  {
    hide Step, Total;
    var n := |trace| - 1;
    if n > 0 {
      RunsEnd(code, m, trace[..n]);
      assert Step(code, trace[n - 1], trace[n]);
      StepCounts(code, trace[n - 1], trace[n]);
    }
    TotalBelow(trace[n].pc, Lengths(code));
  }

  lemma RunSnoc<Cell>(code: seq<seq<Instr<Cell>>>, m: Memory<Cell>, trace: seq<Conf<Cell>>, d: Conf<Cell>)
    requires Run(code, m, trace) && Step(code, trace[|trace| - 1], d)
    ensures Run(code, m, trace + [d])
  {
    hide Step;
  }

  lemma RunNotEmpty<Cell>(code: seq<seq<Instr<Cell>>>, m: Memory<Cell>, trace: seq<Conf<Cell>>)
    requires Run(code, m, trace)
    ensures trace != []
  {
  }

  /** Every run can be continued until all threads are finished. */
  lemma {:induction false} CanFinish<Cell(!new)>(code: seq<seq<Instr<Cell>>>, phases: seq<seq<seq<Op<Cell>>>>,
                                                 m: Memory<Cell>, trace: seq<Conf<Cell>>)
    returns (full: seq<Conf<Cell>>)
    requires CodeFor(code, phases) && AllRaceFree(phases) && Run(code, m, trace)
    ensures trace <= full && Run(code, m, full) && Finished(code, full[|full| - 1])
    decreases Total(Lengths(code)) - Total(trace[|trace| - 1].pc)
  {
    hide CodeFor, AllRaceFree, Step, Total, Run, Lengths, Finished;
    RunNotEmpty(code, m, trace);
    if Finished(code, trace[|trace| - 1]) {
      full := trace;
    } else {
      var d := NeverStuck(code, phases, m, trace);
      var more := trace + [d];
      RunSnoc(code, m, trace, d);
      RunsEnd(code, m, trace);
      StepCounts(code, trace[|trace| - 1], d);
      RunsEnd(code, m, more);
      full := CanFinish(code, phases, m, more);
    }
  }
}

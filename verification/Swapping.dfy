/** The two vectors of the symmetric loop are shared references x and y.

    After each round the main thread exchanges them, while the other threads may already
    be in the next round.  A step on a vector finds it through the references: here it
    writes an arbitrary number when they are not what it expects.
    `EverySwappingRun`: in every interleaving each step finds the references of its round,
    and the vectors come out as when each round is written for the vectors it works on. */
module Swapping {
  import opened Seqs
  import opened Barriers
  import opened SymSpmv

  type Steps = seq<seq<Op<Cell>>>

  /** The vectors, the two references and the temporary of the exchange. */
  datatype Shared = Of(cell: Cell) | RefX | RefY | Held

  function Ofs(cs: seq<Cell>): (r: seq<Shared>)
    ensures |r| == |cs| && forall i {:trigger r[i]} :: 0 <= i < |cs| ==> r[i] == Of(cs[i])
  {
    seq(|cs|, i requires 0 <= i < |cs| => Of(cs[i]))
  }

  /** A step that needs no reference. */
  function Plain(op: Op<Cell>): Op<Shared> {
    Op(Of(op.w), Ofs(op.rs), op.f)
  }

  /** A step for input vector xv: with other references it stores `wrong`. */
  function Guarded(op: Op<Cell>, xv: nat, wrong: real): Op<Shared> {
    Op(Of(op.w), [RefX, RefY] + Ofs(op.rs),
       (vs: seq<real>) => if |vs| >= 2 && vs[0] == xv as real && vs[1] == 1.0 - xv as real then op.f(vs[2..]) else wrong)
  }

  function PlainOps(ops: seq<Op<Cell>>): (r: seq<Op<Shared>>)
    ensures |r| == |ops| && forall i {:trigger r[i]} :: 0 <= i < |ops| ==> r[i] == Plain(ops[i])
  {
    seq(|ops|, i requires 0 <= i < |ops| => Plain(ops[i]))
  }

  function GuardedOps(ops: seq<Op<Cell>>, xv: nat, wrong: real): (r: seq<Op<Shared>>)
    ensures |r| == |ops| && forall i {:trigger r[i]} :: 0 <= i < |ops| ==> r[i] == Guarded(ops[i], xv, wrong)
  {
    seq(|ops|, i requires 0 <= i < |ops| => Guarded(ops[i], xv, wrong))
  }

  function Copy(to: Shared, from: Shared): Op<Shared> {
    Op(to, [from], (vs: seq<real>) => if |vs| == 1 then vs[0] else 0.0)
  }

  /** x and y change places. */
  function Swap(): seq<Op<Shared>> {
    [Copy(Held, RefX), Copy(RefX, RefY), Copy(RefY, Held)]
  }

  /** The first phase: only the main thread knows of the exchange. */
  function FirstPhase(threads: Steps, swap: bool): (r: seq<seq<Op<Shared>>>)
    ensures |r| == |threads|
    ensures forall t {:trigger r[t]} :: 0 <= t < |threads| ==> r[t] == (if t == 0 && swap then Swap() else []) + PlainOps(threads[t])
  {
    seq(|threads|, t requires 0 <= t < |threads| => (if t == 0 && swap then Swap() else []) + PlainOps(threads[t]))
  }

  function LaterPhase(threads: Steps, xv: nat, wrong: real): (r: seq<seq<Op<Shared>>>)
    ensures |r| == |threads| && forall t {:trigger r[t]} :: 0 <= t < |threads| ==> r[t] == GuardedOps(threads[t], xv, wrong)
  {
    seq(|threads|, t requires 0 <= t < |threads| => GuardedOps(threads[t], xv, wrong))
  }

  /** Round r; the exchange after the round before it comes first. */
  function SwapRound(round: seq<Steps>, r: nat, wrong: real): seq<seq<seq<Op<Shared>>>>
    requires |round| == 3
  {
    [FirstPhase(round[0], r > 0), LaterPhase(round[1], r % 2, wrong), LaterPhase(round[2], r % 2, wrong)]
  }

  /** All rounds, from vector 0 to 1 and back, ... */
  function SwapRounds(even: seq<Steps>, odd: seq<Steps>, loops: nat, wrong: real): seq<seq<seq<Op<Shared>>>>
    requires |even| == |odd| == 3
  {
    if loops == 0 then []
    else
      var r := loops - 1;
      SwapRounds(even, odd, r, wrong) + SwapRound(if r % 2 == 0 then even else odd, r, wrong)
  }

  /** ... with the last exchange, before the threads are joined. */
  function SwapProgram(even: seq<Steps>, odd: seq<Steps>, loops: nat, wrong: real,
                       count: nat): seq<seq<seq<Op<Shared>>>>
    requires |even| == |odd| == 3
  {
    SwapRounds(even, odd, loops, wrong) + [FirstPhase(seq(count, _ => []), loops > 0)]
  }

  /** The rounds as they are when each is written for its own vectors. */
  function FixedRounds(even: seq<Steps>, odd: seq<Steps>, loops: nat): seq<Steps> {
    if loops == 0 then []
    else
      var r := loops - 1;
      FixedRounds(even, odd, r) + if r % 2 == 0 then even else odd
  }

  /** Everything but the references is as in m. */
  ghost predicate Agree(sm: Memory<Shared>, m: Memory<Cell>) {
    forall c :: Read(sm, Of(c)) == Read(m, c)
  }

  ghost predicate Refs(sm: Memory<Shared>, xv: nat) {
    Read(sm, RefX) == xv as real && Read(sm, RefY) == 1.0 - xv as real
  }

  // ----- One thread

  lemma {:induction false} PlainRun(sm: Memory<Shared>, m: Memory<Cell>, ops: seq<Op<Cell>>, xv: nat)
    requires Agree(sm, m) && Refs(sm, xv)
    ensures Agree(RunOps(sm, PlainOps(ops)), RunOps(m, ops)) && Refs(RunOps(sm, PlainOps(ops)), xv)
  {
    if ops != [] {
      var n := |ops| - 1;
      PlainRun(sm, m, ops[..n], xv);
      assert PlainOps(ops)[..n] == PlainOps(ops[..n]);
      PlainStep(RunOps(sm, PlainOps(ops[..n])), RunOps(m, ops[..n]), ops[n], xv);
    }
  }

  lemma PlainStep(sm: Memory<Shared>, m: Memory<Cell>, op: Op<Cell>, xv: nat)
    requires Agree(sm, m) && Refs(sm, xv)
    ensures Agree(Exec(sm, Plain(op)), Exec(m, op)) && Refs(Exec(sm, Plain(op)), xv)
  {
    assert ReadAll(sm, Ofs(op.rs)) == ReadAll(m, op.rs);
  }

  lemma {:induction false} GuardedRun(sm: Memory<Shared>, m: Memory<Cell>, ops: seq<Op<Cell>>, xv: nat, wrong: real)
    requires Agree(sm, m) && Refs(sm, xv)
    ensures Agree(RunOps(sm, GuardedOps(ops, xv, wrong)), RunOps(m, ops))
         && Refs(RunOps(sm, GuardedOps(ops, xv, wrong)), xv)
  {
    if ops != [] {
      var n := |ops| - 1;
      GuardedRun(sm, m, ops[..n], xv, wrong);
      assert GuardedOps(ops, xv, wrong)[..n] == GuardedOps(ops[..n], xv, wrong);
      GuardedStep(RunOps(sm, GuardedOps(ops[..n], xv, wrong)), RunOps(m, ops[..n]), ops[n], xv, wrong);
    }
  }

  lemma GuardedStep(sm: Memory<Shared>, m: Memory<Cell>, op: Op<Cell>, xv: nat, wrong: real)
    requires Agree(sm, m) && Refs(sm, xv)
    ensures Agree(Exec(sm, Guarded(op, xv, wrong)), Exec(m, op)) && Refs(Exec(sm, Guarded(op, xv, wrong)), xv)
  {
    var vs := ReadAll(sm, [RefX, RefY] + Ofs(op.rs));
    assert vs[0] == xv as real && vs[1] == 1.0 - xv as real;
    assert vs[2..] == ReadAll(m, op.rs);
  }

  lemma SwapRun(sm: Memory<Shared>, m: Memory<Cell>, xv: nat)
    requires Agree(sm, m) && Refs(sm, xv) && xv < 2
    ensures Agree(RunOps(sm, Swap()), m) && Refs(RunOps(sm, Swap()), 1 - xv)
  {
    var a, b, c := Copy(Held, RefX), Copy(RefX, RefY), Copy(RefY, Held);
    assert Swap() == [a, b] + [c] && [a, b] == [a] + [b];
    RunConcat(sm, [a, b], [c]);
    RunConcat(sm, [a], [b]);
    RunOne(sm, a);
    RunOne(Exec(sm, a), b);
    RunOne(Exec(Exec(sm, a), b), c);
    assert ReadAll(sm, [RefX]) == [Read(sm, RefX)];
    assert ReadAll(Exec(sm, a), [RefY]) == [Read(sm, RefY)];
    assert ReadAll(Exec(Exec(sm, a), b), [Held]) == [Read(sm, RefX)];
  }

  // ----- One phase

  lemma {:induction false} FirstRun(sm: Memory<Shared>, m: Memory<Cell>, threads: Steps, xv: nat, swap: bool)
    requires Agree(sm, m) && Refs(sm, xv) && xv < 2
    ensures Agree(RunThreads(sm, FirstPhase(threads, swap)), RunThreads(m, threads))
    ensures Refs(RunThreads(sm, FirstPhase(threads, swap)), if swap && threads != [] then 1 - xv else xv)
  {
    hide Agree, Refs, RunOps, Swap, PlainOps;
    if threads != [] {
      var n := |threads| - 1;
      FirstRun(sm, m, threads[..n], xv, swap);
      assert FirstPhase(threads, swap)[..n] == FirstPhase(threads[..n], swap);
      var sm', m' := RunThreads(sm, FirstPhase(threads[..n], swap)), RunThreads(m, threads[..n]);
      if n == 0 && swap {
        SwapRun(sm', m', xv);
        RunConcat(sm', Swap(), PlainOps(threads[n]));
        PlainRun(RunOps(sm', Swap()), m', threads[n], 1 - xv);
      } else {
        NilLeft(PlainOps(threads[n]));
        PlainRun(sm', m', threads[n], if swap then 1 - xv else xv);
      }
    }
  }

  lemma {:induction false} LaterRun(sm: Memory<Shared>, m: Memory<Cell>, threads: Steps, xv: nat, wrong: real)
    requires Agree(sm, m) && Refs(sm, xv)
    ensures Agree(RunThreads(sm, LaterPhase(threads, xv, wrong)), RunThreads(m, threads))
    ensures Refs(RunThreads(sm, LaterPhase(threads, xv, wrong)), xv)
  {
    hide Agree, Refs, RunOps, GuardedOps;
    if threads != [] {
      var n := |threads| - 1;
      LaterRun(sm, m, threads[..n], xv, wrong);
      assert LaterPhase(threads, xv, wrong)[..n] == LaterPhase(threads[..n], xv, wrong);
      GuardedRun(RunThreads(sm, LaterPhase(threads[..n], xv, wrong)), RunThreads(m, threads[..n]), threads[n], xv,
                 wrong);
    }
  }

  lemma PlainTouches(ops: seq<Op<Cell>>, s: Shared)
    ensures Writes(PlainOps(ops), s) ==> s.Of? && Writes(ops, s.cell)
    ensures Touches(PlainOps(ops), s) ==> s.Of? && Touches(ops, s.cell)
  {
    if Touches(PlainOps(ops), s) {
      var i :| 0 <= i < |ops| && (PlainOps(ops)[i].w == s || s in PlainOps(ops)[i].rs);
      assert s == Of(ops[i].w) || s in Ofs(ops[i].rs);
    }
  }

  lemma GuardedTouches(ops: seq<Op<Cell>>, xv: nat, wrong: real, s: Shared)
    ensures Writes(GuardedOps(ops, xv, wrong), s) ==> s.Of? && Writes(ops, s.cell)
    ensures Touches(GuardedOps(ops, xv, wrong), s) && s.Of? ==> Touches(ops, s.cell)
  {
    var r := GuardedOps(ops, xv, wrong);
    if Touches(r, s) && s.Of? {
      var i :| 0 <= i < |ops| && (r[i].w == s || s in r[i].rs);
      assert s == Of(ops[i].w) || s in Ofs(ops[i].rs);
    }
  }

  lemma SwapTouches(ops: seq<Op<Shared>>, s: Shared)
    ensures Writes(Swap() + ops, s) ==> !s.Of? || Writes(ops, s)
    ensures Touches(Swap() + ops, s) ==> !s.Of? || Touches(ops, s)
  {
    var r := Swap() + ops;
    if s.Of? && Touches(r, s) {
      var i :| 0 <= i < |r| && (r[i].w == s || s in r[i].rs);
      assert i >= 3 && r[i] == ops[i - 3];
    }
    if s.Of? && Writes(r, s) {
      var i :| 0 <= i < |r| && r[i].w == s;
      assert i >= 3 && r[i] == ops[i - 3];
    }
  }

  /** Thread t of the first phase touches what it would touch anyway; only the main
      thread touches the references. */
  lemma FirstTouches(threads: Steps, swap: bool, t: nat, s: Shared)
    requires t < |threads|
    ensures Writes(FirstPhase(threads, swap)[t], s) ==> if s.Of? then Writes(threads[t], s.cell) else t == 0
    ensures Touches(FirstPhase(threads, swap)[t], s) ==> if s.Of? then Touches(threads[t], s.cell) else t == 0
  {
    hide Writes, Touches, Swap;
    PlainTouches(threads[t], s);
    if t == 0 && swap {
      SwapTouches(PlainOps(threads[t]), s);
    } else {
      NilLeft(PlainOps(threads[t]));
    }
  }

  lemma FirstFree(threads: Steps, swap: bool)
    requires RaceFree(threads)
    ensures RaceFree(FirstPhase(threads, swap))
  {
    hide Writes, Touches;
    var r := FirstPhase(threads, swap);
    forall t, u, s | 0 <= t < |r| && 0 <= u < |r| && t != u && Writes(r[t], s)
      ensures !Touches(r[u], s)
    {
      FirstTouches(threads, swap, t, s);
      FirstTouches(threads, swap, u, s);
    }
  }

  /** Nobody exchanges the references while they are used. */
  lemma LaterFree(threads: Steps, xv: nat, wrong: real)
    requires RaceFree(threads)
    ensures RaceFree(LaterPhase(threads, xv, wrong))
  {
    hide Writes, Touches;
    var r := LaterPhase(threads, xv, wrong);
    forall t, u, s | 0 <= t < |r| && 0 <= u < |r| && t != u && Writes(r[t], s)
      ensures !Touches(r[u], s)
    {
      GuardedTouches(threads[t], xv, wrong, s);
      GuardedTouches(threads[u], xv, wrong, s);
    }
  }

  // ----- All rounds

  /** Three phases of `count` threads without races. */
  ghost predicate GoodRound(round: seq<Steps>, count: nat) {
    |round| == 3 && Phased(round, count) && AllRaceFree(round)
  }

  /** The references that round r leaves for its steps; after the last round the exchange
      is still to come. */
  function RefsAfter(loops: nat): nat {
    if loops == 0 then 0 else (loops - 1) % 2
  }

  lemma RoundRuns(sm: Memory<Shared>, m: Memory<Cell>, round: seq<Steps>, r: nat, wrong: real, count: nat)
    requires GoodRound(round, count) && Agree(sm, m) && Refs(sm, RefsAfter(r))
    ensures Agree(RunPhases(sm, SwapRound(round, r, wrong)), RunPhases(m, round))
         && Refs(RunPhases(sm, SwapRound(round, r, wrong)), r % 2)
    ensures AllRaceFree(SwapRound(round, r, wrong)) && Phased(SwapRound(round, r, wrong), count)
    ensures Refs(RunThreads(sm, SwapRound(round, r, wrong)[0]), r % 2)
    ensures Refs(RunThreads(RunThreads(sm, SwapRound(round, r, wrong)[0]), SwapRound(round, r, wrong)[1]), r % 2)
  {
    hide Agree, Refs, RaceFree, RunThreads;
    var s := SwapRound(round, r, wrong);
    FirstFree(round[0], r > 0);
    LaterFree(round[1], r % 2, wrong);
    LaterFree(round[2], r % 2, wrong);
    FirstRun(sm, m, round[0], RefsAfter(r), r > 0);
    var sm1, m1 := RunThreads(sm, s[0]), RunThreads(m, round[0]);
    LaterRun(sm1, m1, round[1], r % 2, wrong);
    var sm2, m2 := RunThreads(sm1, s[1]), RunThreads(m1, round[1]);
    LaterRun(sm2, m2, round[2], r % 2, wrong);
    ThreePhases(sm, s);
    ThreePhases(m, round);
  }

  lemma {:induction false} RoundsRun(sm: Memory<Shared>, m: Memory<Cell>, even: seq<Steps>, odd: seq<Steps>, loops: nat,
                                     wrong: real, count: nat)
    requires GoodRound(even, count) && GoodRound(odd, count) && Agree(sm, m) && Refs(sm, 0)
    ensures Agree(RunPhases(sm, SwapRounds(even, odd, loops, wrong)), RunPhases(m, FixedRounds(even, odd, loops)))
         && Refs(RunPhases(sm, SwapRounds(even, odd, loops, wrong)), RefsAfter(loops))
    ensures AllRaceFree(SwapRounds(even, odd, loops, wrong)) && Phased(SwapRounds(even, odd, loops, wrong), count)
  {
    hide Agree, Refs, RaceFree, RunPhases, SwapRound;
    if loops == 0 {
      NoPhases(sm);
      NoPhases(m);
    } else {
      var r := loops - 1;
      var round := if r % 2 == 0 then even else odd;
      RoundsRun(sm, m, even, odd, r, wrong, count);
      RunPhasesConcat(sm, SwapRounds(even, odd, r, wrong), SwapRound(round, r, wrong));
      RunPhasesConcat(m, FixedRounds(even, odd, r), round);
      RoundRuns(RunPhases(sm, SwapRounds(even, odd, r, wrong)), RunPhases(m, FixedRounds(even, odd, r)), round, r,
                wrong, count);
    }
  }

  /** What the program leaves: the vectors as after the rounds, x and y exchanged as often
      as there were rounds. */
  lemma ProgramRuns(sm: Memory<Shared>, m: Memory<Cell>, even: seq<Steps>, odd: seq<Steps>, loops: nat, wrong: real,
                    count: nat)
    requires GoodRound(even, count) && GoodRound(odd, count) && Agree(sm, m) && Refs(sm, 0)
    ensures Agree(RunPhases(sm, SwapProgram(even, odd, loops, wrong, count)), RunPhases(m, FixedRounds(even, odd, loops)))
         && Refs(RunPhases(sm, SwapProgram(even, odd, loops, wrong, count)), loops % 2)
    ensures AllRaceFree(SwapProgram(even, odd, loops, wrong, count))
         && Phased(SwapProgram(even, odd, loops, wrong, count), count)
  {
    hide Agree, Refs, RaceFree, SwapRounds, FixedRounds;
    var idle: Steps := seq(count, _ => []);
    var rounds := SwapRounds(even, odd, loops, wrong);
    var sm', m' := RunPhases(sm, rounds), RunPhases(m, FixedRounds(even, odd, loops));
    RoundsRun(sm, m, even, odd, loops, wrong, count);
    IdleRun(m', idle);
    IdleFree(idle);
    FirstFree(idle, loops > 0);
    FirstRun(sm', m', idle, RefsAfter(loops), loops > 0);
    assert (rounds + [FirstPhase(idle, loops > 0)])[..|rounds|] == rounds;
  }

  lemma {:induction false} IdleRun(m: Memory<Cell>, idle: Steps)
    requires forall t :: 0 <= t < |idle| ==> idle[t] == []
    ensures RunThreads(m, idle) == m
  {
    if idle != [] {
      IdleRun(m, idle[..|idle| - 1]);
    }
  }

  lemma IdleFree(idle: Steps)
    requires forall t :: 0 <= t < |idle| ==> idle[t] == []
    ensures RaceFree(idle)
  {
  }

  // ----- Every interleaving

  /** Every finished run, from any values and with any wrong ones: the vectors are as after
      the rounds, and x and y were exchanged after each. */
  lemma EverySwappingRun(even: seq<Steps>, odd: seq<Steps>, loops: nat, wrong: real,
                         code: seq<seq<Instr<Shared>>>, sm: Memory<Shared>, m: Memory<Cell>, trace: seq<Conf<Shared>>)
    requires GoodRound(even, |code|) && GoodRound(odd, |code|) && Agree(sm, m) && Refs(sm, 0)
    requires CodeFor(code, SwapProgram(even, odd, loops, wrong, |code|)) && Run(code, sm, trace)
         && Finished(code, trace[|trace| - 1])
    ensures Agree(trace[|trace| - 1].mem, RunPhases(m, FixedRounds(even, odd, loops)))
         && Refs(trace[|trace| - 1].mem, loops % 2)
  {
    hide SwapProgram, CodeFor, Finished, Step, RunPhases, FixedRounds, AllRaceFree;
    ProgramRuns(sm, m, even, odd, loops, wrong, |code|);
    FinishedRun(code, SwapProgram(even, odd, loops, wrong, |code|), sm, trace);
  }

  /** No run gets stuck. */
  lemma SwappingCanFinish(even: seq<Steps>, odd: seq<Steps>, loops: nat, wrong: real,
                          code: seq<seq<Instr<Shared>>>, sm: Memory<Shared>, m: Memory<Cell>, trace: seq<Conf<Shared>>)
    returns (full: seq<Conf<Shared>>)
    requires GoodRound(even, |code|) && GoodRound(odd, |code|) && Agree(sm, m) && Refs(sm, 0)
    requires CodeFor(code, SwapProgram(even, odd, loops, wrong, |code|)) && Run(code, sm, trace)
    ensures trace <= full && Run(code, sm, full) && Finished(code, full[|full| - 1])
  {
    hide SwapProgram, CodeFor, Finished, Step, AllRaceFree;
    ProgramRuns(sm, m, even, odd, loops, wrong, |code|);
    full := CanFinish(code, SwapProgram(even, odd, loops, wrong, |code|), sm, trace);
  }

  // ----- What the references are on the way

  /** Phases 3r, 3r + 1 and 3r + 2 are round r. */
  lemma {:induction false} RoundAt(even: seq<Steps>, odd: seq<Steps>, loops: nat, wrong: real, r: nat)
    requires |even| == |odd| == 3 && r < loops
    ensures var all := SwapRounds(even, odd, loops, wrong);
            && |all| == 3 * loops && all[..3 * r] == SwapRounds(even, odd, r, wrong)
            && all[3 * r..3 * r + 3] == SwapRound(if r % 2 == 0 then even else odd, r, wrong)
  {
    hide SwapRound;
    var n := loops - 1;
    var all, before, last := SwapRounds(even, odd, loops, wrong), SwapRounds(even, odd, n, wrong),
                             SwapRound(if n % 2 == 0 then even else odd, n, wrong);
    RoundCount(even, odd, n, wrong);
    assert all == before + last && |last| == 3 by {
      RoundSize(if n % 2 == 0 then even else odd, n, wrong);
    }
    if r < n {
      RoundAt(even, odd, n, wrong, r);
      assert all[..3 * r] == before[..3 * r] && all[3 * r..3 * r + 3] == before[3 * r..3 * r + 3];
    } else {
      assert all[..3 * r] == before && all[3 * r..3 * r + 3] == last;
    }
  }

  lemma RoundSize(round: seq<Steps>, r: nat, wrong: real)
    requires |round| == 3
    ensures |SwapRound(round, r, wrong)| == 3
  {
  }

  lemma {:induction false} RoundCount(even: seq<Steps>, odd: seq<Steps>, loops: nat, wrong: real)
    requires |even| == |odd| == 3
    ensures |SwapRounds(even, odd, loops, wrong)| == 3 * loops
  {
    hide SwapRound;
    if loops > 0 {
      RoundCount(even, odd, loops - 1, wrong);
      RoundSize(if (loops - 1) % 2 == 0 then even else odd, loops - 1, wrong);
    }
  }

  /** The references when phase j of round r begins, for j of 1 or 2. */
  lemma RefsInRound(sm: Memory<Shared>, m: Memory<Cell>, even: seq<Steps>, odd: seq<Steps>, loops: nat, wrong: real,
                    count: nat, r: nat, j: nat)
    requires GoodRound(even, count) && GoodRound(odd, count) && Agree(sm, m) && Refs(sm, 0) && r < loops && 1 <= j <= 2
    ensures var all := SwapProgram(even, odd, loops, wrong, count);
            && 3 * r + j < |all| && Refs(RunPhases(sm, all[..3 * r + j]), r % 2)
            && all[3 * r + j] == LaterPhase((if r % 2 == 0 then even else odd)[j], r % 2, wrong)
  {
    hide Agree, Refs, RaceFree, SwapRounds, FixedRounds, LaterPhase, FirstPhase, RunThreads;
    var all, round := SwapProgram(even, odd, loops, wrong, count), if r % 2 == 0 then even else odd;
    var before, s := SwapRounds(even, odd, r, wrong), SwapRound(if r % 2 == 0 then even else odd, r, wrong);
    RoundAt(even, odd, loops, wrong, r);
    RoundCount(even, odd, r, wrong);
    RoundsRun(sm, m, even, odd, r, wrong, count);
    RoundRuns(RunPhases(sm, before), RunPhases(m, FixedRounds(even, odd, r)), round, r, wrong, count);
    var rounds := SwapRounds(even, odd, loops, wrong);
    assert all[..3 * r + j] == before + s[..j] && all[3 * r + j] == s[j] by {
      assert all[..3 * r + j] == rounds[..3 * r] + rounds[3 * r..3 * r + 3][..j];
      assert all[3 * r + j] == rounds[3 * r..3 * r + 3][j];
    }
    RunPhasesConcat(sm, before, s[..j]);
    ThreePhases(RunPhases(sm, before), s);
  }

  /** In every reachable state between the first and the last barrier of round r, the
      references are those of round r: the steps there use the vectors they are written
      for. */
  lemma EveryRefsUsed(even: seq<Steps>, odd: seq<Steps>, loops: nat, wrong: real,
                      code: seq<seq<Instr<Shared>>>, sm: Memory<Shared>, m: Memory<Cell>, trace: seq<Conf<Shared>>)
    returns (k: nat, l: seq<nat>)
    requires GoodRound(even, |code|) && GoodRound(odd, |code|) && Agree(sm, m) && Refs(sm, 0)
    requires CodeFor(code, SwapProgram(even, odd, loops, wrong, |code|)) && Run(code, sm, trace)
    ensures InPhase(SwapProgram(even, odd, loops, wrong, |code|), trace[|trace| - 1], k, l)
    ensures k < 3 * loops && k % 3 != 0 ==> Refs(trace[|trace| - 1].mem, k / 3 % 2)
  {
    hide SwapProgram, CodeFor, Step, RunPhases, AllRaceFree, Agree, LaterPhase, InPhase;
    ProgramRuns(sm, m, even, odd, loops, wrong, |code|);
    var all := SwapProgram(even, odd, loops, wrong, |code|);
    k, l := EveryRun(code, all, sm, trace);
    if k < 3 * loops && k % 3 != 0 {
      var r, j := k / 3, k % 3;
      assert k == 3 * r + j;
      RefsInRound(sm, m, even, odd, loops, wrong, |code|, r, j);
      assert k < |all| && all[k] == all[3 * r + j] && all[..k] == all[..3 * r + j];
      RefsStay((if r % 2 == 0 then even else odd)[j], r % 2, wrong, RunPhases(sm, all[..k]), trace[|trace| - 1].mem, l);
    }
  }

  lemma RefsStay(threads: Steps, xv: nat, wrong: real, sm: Memory<Shared>, sm': Memory<Shared>, l: seq<nat>)
    requires PartWay(LaterPhase(threads, xv, wrong), sm, sm', l) && Refs(sm, xv)
    ensures Refs(sm', xv)
  {
    hide Writes;
    forall s | s == RefX || s == RefY
      ensures !WrittenBySome(LaterPhase(threads, xv, wrong), s)
    {
      forall t | 0 <= t < |threads|
        ensures !Writes(LaterPhase(threads, xv, wrong)[t], s)
      {
        GuardedTouches(threads[t], xv, wrong, s);
      }
    }
  }
}

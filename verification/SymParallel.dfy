/** A symmetric matrix from the list of elements to every interleaving of its threads.

    The parts are those that `SymPipeline` loads, encodes and prints, the steps of each
    thread are the writes of its kernel.  `EveryRoundOfInput` says what any run of one
    round leaves in y; `EveryRunOfInput` says that all rounds together, with x and y
    exchanged in between, multiply by the matrix of the list when the last row of every
    part has an element below the diagonal. */
module SymParallel {
  import opened Matrix
  import opened CsxKernel
  import opened Barriers
  import opened SymSpmv
  import opened SymSteps
  import opened SymCsx
  import opened Load
  import opened CsxThreads
  import opened SymPipeline
  import opened Swapping
  import SymMap

  // ----- The same steps on exchanged vectors

  /** The kernel gets its vectors as arguments: with x and y exchanged it does the same in
      the other cells. */
  function Other(c: Cell): Cell {
    match c
    case V(w, p) => if w == 0 then V(1, p) else if w == 1 then V(0, p) else c
    case Temp(t, p) => c
    case Acc(t) => c
  }

  function Others(cs: seq<Cell>): (r: seq<Cell>)
    ensures |r| == |cs| && forall i {:trigger r[i]} :: 0 <= i < |cs| ==> r[i] == Other(cs[i])
  {
    seq(|cs|, i requires 0 <= i < |cs| => Other(cs[i]))
  }

  function OnOther(op: Op<Cell>): Op<Cell> {
    Op(Other(op.w), Others(op.rs), op.f)
  }

  function OnOthers(ops: seq<Op<Cell>>): (r: seq<Op<Cell>>)
    ensures |r| == |ops| && forall i {:trigger r[i]} :: 0 <= i < |ops| ==> r[i] == OnOther(ops[i])
  {
    seq(|ops|, i requires 0 <= i < |ops| => OnOther(ops[i]))
  }

  /** Memory a is b with the vectors exchanged. */
  ghost predicate Exchanged(a: Memory<Cell>, b: Memory<Cell>) {
    forall c :: Read(a, Other(c)) == Read(b, c)
  }

  lemma SomeExchanged(a: Memory<Cell>) returns (b: Memory<Cell>)
    ensures Exchanged(a, b)
  {
    b := map c | c in a :: Other(c) := a[c];
    forall c
      ensures Read(a, Other(c)) == Read(b, c)
    {
      assert Other(Other(c)) == c;
      if c in b {
        var k :| k in a && Other(k) == c && b[c] == a[k];
        assert k == Other(c);
      }
    }
  }

  lemma {:induction false} ExchangedRun(a: Memory<Cell>, b: Memory<Cell>, ops: seq<Op<Cell>>)
    requires Exchanged(a, b)
    ensures Exchanged(RunOps(a, OnOthers(ops)), RunOps(b, ops))
  {
    if ops != [] {
      var k := |ops| - 1;
      ExchangedRun(a, b, ops[..k]);
      assert OnOthers(ops)[..k] == OnOthers(ops[..k]);
      ExchangedStep(RunOps(a, OnOthers(ops[..k])), RunOps(b, ops[..k]), ops[k]);
    }
  }

  lemma ExchangedStep(a: Memory<Cell>, b: Memory<Cell>, op: Op<Cell>)
    requires Exchanged(a, b)
    ensures Exchanged(Exec(a, OnOther(op)), Exec(b, op))
  {
    assert ReadAll(a, Others(op.rs)) == ReadAll(b, op.rs);
    forall c
      ensures Read(Exec(a, OnOther(op)), Other(c)) == Read(Exec(b, op), c)
    {
      assert Other(Other(c)) == c && Other(Other(op.w)) == op.w;
    }
  }

  lemma ExchangedViews(a: Memory<Cell>, b: Memory<Cell>, cpu: nat, n: nat)
    requires Exchanged(a, b)
    ensures View(a, 0, n) == View(b, 1, n) && View(a, 1, n) == View(b, 0, n)
         && TempView(a, cpu, n) == TempView(b, cpu, n)
  {
    forall p | 0 <= p < n
      ensures Read(a, V(0, p)) == Read(b, V(1, p)) && Read(a, V(1, p)) == Read(b, V(0, p))
           && Read(a, Temp(cpu, p)) == Read(b, Temp(cpu, p))
    {
      assert Other(V(1, p)) == V(0, p) && Other(V(0, p)) == V(1, p) && Other(Temp(cpu, p)) == Temp(cpu, p);
    }
  }

  /** A thread that multiplies its part from vector 0 to 1 does it from 1 to 0 as well. */
  lemma PerformsOther(ops: seq<Op<Cell>>, es: seq<Entry>, cpu: nat, rs: nat, rows: nat, n: nat, dv: seq<real>)
    requires Performs(ops, es, cpu, 0, rs, rows, n, dv)
    ensures Performs(OnOthers(ops), es, cpu, 1, rs, rows, n, dv)
  {
    hide RunOps, SymRows, SymTemps, Exchanged;
    OtherWithin(ops, cpu, rs, rs + rows);
    forall m
      ensures PartAdded(m, RunOps(m, OnOthers(ops)), es, cpu, 1, rs, rows, n, dv)
    {
      var b := SomeExchanged(m);
      ExchangedRun(m, b, ops);
      ExchangedViews(m, b, cpu, n);
      ExchangedViews(RunOps(m, OnOthers(ops)), RunOps(b, ops), cpu, n);
      assert PartAdded(b, RunOps(b, ops), es, cpu, 0, rs, rows, n, dv);
    }
  }

  lemma OtherWithin(ops: seq<Op<Cell>>, cpu: nat, s: nat, e: nat)
    requires Within(ops, Own(cpu, s, e, 0), Either(Own(cpu, s, e, 0), SymSpmv.Input(0)))
    ensures Within(OnOthers(ops), Own(cpu, s, e, 1), Either(Own(cpu, s, e, 1), SymSpmv.Input(1)))
  {
    forall i | 0 <= i < |ops|
      ensures Own(cpu, s, e, 1)(Other(ops[i].w))
      ensures forall c :: c in Others(ops[i].rs) ==> Either(Own(cpu, s, e, 1), SymSpmv.Input(1))(c)
    {
      assert Own(cpu, s, e, 0)(ops[i].w);
      forall c | c in Others(ops[i].rs)
        ensures Either(Own(cpu, s, e, 1), SymSpmv.Input(1))(c)
      {
        var j :| 0 <= j < |ops[i].rs| && Others(ops[i].rs)[j] == c;
        assert ops[i].rs[j] in ops[i].rs;
        assert Either(Own(cpu, s, e, 0), SymSpmv.Input(0))(ops[i].rs[j]);
      }
    }
  }

  /** The steps of the rounds whose input is vector 1. */
  function OddSteps(steps: Threads): (r: Threads)
    ensures |r| == |steps| && forall t {:trigger r[t]} :: 0 <= t < |steps| ==> r[t] == OnOthers(steps[t])
  {
    seq(|steps|, t requires 0 <= t < |steps| => OnOthers(steps[t]))
  }

  lemma OddPerform(steps: Threads, parts: seq<CsxSym>, from: seq<Source>, starts: seq<nat>, n: nat)
    requires AllPerform(steps, parts, from, starts, n, 0)
    ensures AllPerform(OddSteps(steps), parts, from, starts, n, 1)
  {
    hide Performs, OnOthers;
    forall t: nat {:trigger OddSteps(steps)[t]} | t < |steps|
      ensures Performs(OddSteps(steps)[t], from[t].Es(), t, 1, starts[t], from[t].d.rows, n, parts[t].dvalues)
    {
      assert steps[t] == steps[t];
      PerformsOther(steps[t], from[t].Es(), t, starts[t], from[t].d.rows, n, parts[t].dvalues);
    }
  }

  // ----- What the parts of a list compute

  lemma MadeComputes(made: Made, points: seq<Coo>, n: nat, diagonals: seq<seq<real>>, starts: seq<nat>,
                     cuts: seq<nat>, limits: seq<nat>)
    requires SymDivided(points, n, diagonals, starts, cuts, limits) && SymmetricValues(points)
    requires MadeFrom(made, points, n, cuts, starts, diagonals)
    requires forall i :: 0 <= i < |diagonals| ==> LastRowLow(points, cuts, starts, i)
    ensures SinglesIn(points) && |made.steps| == |made.maps|
    ensures Computing(TimesList(points, n), made.steps, OddSteps(made.steps), made.parts, made.from, starts, made.maps,
                      made.cuts, n)
  {
    hide SymDivided, SymmetricValues, PartReady, FromPart, MapsMade, AllPerform, LastRowLow, PartFrom, EntriesOf, RowProduct,
         OddSteps, AllReady, FromParts, Computes, SymLoad.SymInput;
    DividedSizes(points, n, diagonals, starts, cuts, limits);
    DividedAll(points, n, diagonals, starts, cuts, limits);
    InputSingles(points, n);
    PartsReady(made.parts, made.from, points, n, cuts, starts, diagonals, limits);
    OddPerform(made.steps, made.parts, made.from, starts, n);
    forall i | 0 <= i < |made.parts|
      ensures made.from[i].d.rows == |made.parts[i].dvalues| && made.parts[i].dvalues == diagonals[i]
    {
      assert PartFrom(made.parts[i], made.from[i], points, n, cuts, starts, diagonals, i);
      WholePart(made.parts[i], made.from[i], points, n, cuts, starts, diagonals, limits, i);
    }
    ListComputes(made.parts, made.from, points, n, diagonals, starts, cuts, limits);
  }

  lemma WholePart(part: CsxSym, s: Source, points: seq<Coo>, n: nat, cuts: seq<nat>, starts: seq<nat>,
                  diagonals: seq<seq<real>>, limits: seq<nat>, i: nat)
    requires SymDivided(points, n, diagonals, starts, cuts, limits)
         && PartFrom(part, s, points, n, cuts, starts, diagonals, i)
    requires LastRowLow(points, cuts, starts, i)
    ensures s.d.rows == |part.dvalues| && part.dvalues == diagonals[i]
  {
    hide SymDivided, PartReady, LastRowLow, LowPart;
    SymPipeline.PartRows(points, n, diagonals, starts, cuts, limits, i);
  }

  lemma ListComputes(parts: seq<CsxSym>, from: seq<Source>, points: seq<Coo>, n: nat, diagonals: seq<seq<real>>,
                     starts: seq<nat>, cuts: seq<nat>, limits: seq<nat>)
    requires SymDivided(points, n, diagonals, starts, cuts, limits) && SymmetricValues(points) && SinglesIn(points)
    requires |parts| == |from| == |diagonals| < |starts| && FromParts(from, points, cuts, starts, n)
    requires forall i {:trigger parts[i]} :: 0 <= i < |parts| ==> parts[i].dvalues == diagonals[i]
    ensures Computes(TimesList(points, n), parts, from, starts, n)
  {
    hide SymDivided, SymmetricValues, FromParts, EntriesOf, RowProduct, Contributions;
    var op := TimesList(points, n);
    forall yp, x, p: nat, t: nat | |x| == n && p < n && t < |parts| && RowRight(yp, parts, from, starts, x, p, t)
      ensures yp == op(x)[p]
    {
      RightRow(parts, from, points, n, diagonals, starts, cuts, limits, x, p, t);
    }
  }

  // ----- Every interleaving

  /** Any run of one round of the parts that were made of a list, from any memory: every
      row that its part reaches is that row of the product; another one lacks its
      diagonal and keeps what it had. */
  lemma EveryRoundOfInput(made: Made, points: seq<Coo>, n: nat, diagonals: seq<seq<real>>, starts: seq<nat>,
                          cuts: seq<nat>, limits: seq<nat>,
                          code: seq<seq<Instr<Cell>>>, m: Memory<Cell>, trace: seq<Conf<Cell>>)
    requires SymDivided(points, n, diagonals, starts, cuts, limits) && SymmetricValues(points)
    requires MadeFrom(made, points, n, cuts, starts, diagonals)
    requires CodeFor(code, CsxRound(made.steps, made.maps, 0)) && Run(code, m, trace)
         && Finished(code, trace[|trace| - 1])
    ensures var y, y0, x := View(trace[|trace| - 1].mem, 1, n), View(m, 1, n), View(m, 0, n);
            forall i :: 0 <= i < |diagonals| ==> PartOut(y, y0, points, x, cuts, starts, i)
  {
    hide SymDivided, SymmetricValues, Round3, CsxRound, CodeFor, Finished, Barriers.Step, PartEnds, PartOut, FromParts, AllReady, PartFrom;
    DividedSizes(points, n, diagonals, starts, cuts, limits);
    RoundSizes(made.steps, made.parts, made.from, starts, made.maps, made.cuts, n, 0);
    PartsReady(made.parts, made.from, points, n, cuts, starts, diagonals, limits);
    var y, y0, x := View(trace[|trace| - 1].mem, 1, n), View(m, 1, n), View(m, 0, n);
    forall t | 0 <= t < |made.parts|
      ensures PartEnds(y, y0, made.parts, made.from, starts, x, t)
    {
      EveryCsxRound(made.steps, made.parts, made.from, starts, made.maps, made.cuts, n, 0, code, m, trace, t);
    }
    SymPipeline.AllRows(y, y0, made.parts, made.from, points, n, diagonals, starts, cuts, limits, x);
  }

  /** The rounds of the loop, each for its own vectors. */
  lemma {:induction false} RoundsAreFixed(even: Threads, odd: Threads, maps: seq<seq<SymMap.Slot>>, loops: nat)
    requires |even| == |odd| == |maps|
    ensures CsxRounds(even, odd, maps, loops) == FixedRounds(CsxRound(even, maps, 0), CsxRound(odd, maps, 1), loops)
  {
    hide CsxRound;
    if loops > 0 {
      RoundsAreFixed(even, odd, maps, loops - 1);
    }
  }

  /** The vector that x refers to. */
  function VectorX(sm: Memory<Shared>, n: nat): (r: seq<real>)
    ensures |r| == n
  {
    var w := if Read(sm, RefX) == 0.0 then 0 else 1;
    seq(n, p requires 0 <= p < n => Read(sm, Of(V(w, p))))
  }

  /** The cells of a memory with references. */
  function CellsOf(sm: Memory<Shared>): Memory<Cell> {
    map s | s in sm && s.Of? :: s.cell := sm[s]
  }

  lemma CellsAgree(sm: Memory<Shared>)
    ensures Agree(sm, CellsOf(sm))
  {
    forall c
      ensures Read(sm, Of(c)) == Read(CellsOf(sm), c)
    {
      if Of(c) in sm {
        assert Of(c).cell == c;
      }
    }
  }

  lemma VectorIs(sm: Memory<Shared>, m: Memory<Cell>, xv: nat, n: nat)
    requires Agree(sm, m) && Refs(sm, xv) && xv < 2
    ensures VectorX(sm, n) == View(m, xv, n)
  {
  }

  /** Complete parts: any finished run of the loop with its exchanges, from any memory, has
      multiplied the vector of x as often as there were rounds. */
  lemma EveryCsxSwapRun(op: seq<real> -> seq<real>, even: Threads, odd: Threads, parts: seq<CsxSym>, from: seq<Source>,
                        starts: seq<nat>, maps: seq<seq<SymMap.Slot>>, cuts: seq<nat>, n: nat, loops: nat, wrong: real,
                        code: seq<seq<Instr<Shared>>>, sm: Memory<Shared>, trace: seq<Conf<Shared>>)
    requires Computing(op, even, odd, parts, from, starts, maps, cuts, n) && |even| == |odd| == |maps| == |code|
    requires CodeFor(code, SwapProgram(CsxRound(even, maps, 0), CsxRound(odd, maps, 1), loops, wrong, |code|))
    requires Refs(sm, 0) && Run(code, sm, trace) && Finished(code, trace[|trace| - 1])
    ensures VectorX(trace[|trace| - 1].mem, n) == Repeated(op, VectorX(sm, n), loops)
  {
    hide Computing, CodeFor, Finished, Barriers.Step, Repeated, Agree, Refs, CsxRound, CellsOf, VectorX, RunPhases;
    RoundsFree(op, even, odd, parts, from, starts, maps, cuts, n);
    var m := CellsOf(sm);
    CellsAgree(sm);
    EverySwappingRun(CsxRound(even, maps, 0), CsxRound(odd, maps, 1), loops, wrong, code, sm, m, trace);
    RoundsAreFixed(even, odd, maps, loops);
    CsxRoundsRun(op, even, odd, parts, from, starts, maps, cuts, n, loops, m);
    VectorIs(sm, m, 0, n);
    VectorIs(trace[|trace| - 1].mem, RunPhases(m, CsxRounds(even, odd, maps, loops)), loops % 2, n);
  }

  lemma RoundsFree(op: seq<real> -> seq<real>, even: Threads, odd: Threads, parts: seq<CsxSym>, from: seq<Source>,
                   starts: seq<nat>, maps: seq<seq<SymMap.Slot>>, cuts: seq<nat>, n: nat)
    requires Computing(op, even, odd, parts, from, starts, maps, cuts, n) && |even| == |odd| == |maps|
    ensures GoodRound(CsxRound(even, maps, 0), |maps|) && GoodRound(CsxRound(odd, maps, 1), |maps|)
  {
    hide Round3, Computes, AllComplete, AllRaceFree, Phased;
    RoundIsFree(even, parts, from, starts, maps, cuts, n, 0);
    RoundIsFree(odd, parts, from, starts, maps, cuts, n, 1);
  }

  /** From the list to every interleaving: after any finished run of the loop over what was
      made of the list, x refers to the product of the matrix with what x referred to,
      taken once for each round. */
  lemma EveryRunOfInput(made: Made, points: seq<Coo>, n: nat, diagonals: seq<seq<real>>, starts: seq<nat>,
                        cuts: seq<nat>, limits: seq<nat>, loops: nat, wrong: real,
                        code: seq<seq<Instr<Shared>>>, sm: Memory<Shared>, trace: seq<Conf<Shared>>)
    requires SymDivided(points, n, diagonals, starts, cuts, limits) && SymmetricValues(points)
    requires MadeFrom(made, points, n, cuts, starts, diagonals) && |made.steps| == |code|
    requires forall i :: 0 <= i < |diagonals| ==> LastRowLow(points, cuts, starts, i)
    requires CodeFor(code, SwapProgram(CsxRound(made.steps, made.maps, 0), CsxRound(OddSteps(made.steps), made.maps, 1),
                                       loops, wrong, |code|))
    requires Refs(sm, 0) && Run(code, sm, trace) && Finished(code, trace[|trace| - 1])
    ensures SinglesIn(points)
    ensures VectorX(trace[|trace| - 1].mem, n) == Repeated(TimesList(points, n), VectorX(sm, n), loops)
  {
    hide SymDivided, SymmetricValues, MadeFrom, LastRowLow, CodeFor, SwapProgram, CsxRound, OddSteps, Refs, Barriers.Step, Finished,
         Repeated, VectorX, TimesList, Computing;
    MadeComputes(made, points, n, diagonals, starts, cuts, limits);
    EveryCsxSwapRun(TimesList(points, n), made.steps, OddSteps(made.steps), made.parts, made.from, starts, made.maps,
                    made.cuts, n, loops, wrong, code, sm, trace);
  }

  /** ... and every run can be finished. */
  lemma RunsOfInputCanFinish(made: Made, points: seq<Coo>, n: nat, diagonals: seq<seq<real>>, starts: seq<nat>,
                             cuts: seq<nat>, limits: seq<nat>, loops: nat, wrong: real,
                             code: seq<seq<Instr<Shared>>>, sm: Memory<Shared>, trace: seq<Conf<Shared>>)
    returns (full: seq<Conf<Shared>>)
    requires SymDivided(points, n, diagonals, starts, cuts, limits) && SymmetricValues(points)
    requires MadeFrom(made, points, n, cuts, starts, diagonals) && |made.steps| == |code|
    requires forall i :: 0 <= i < |diagonals| ==> LastRowLow(points, cuts, starts, i)
    requires CodeFor(code, SwapProgram(CsxRound(made.steps, made.maps, 0), CsxRound(OddSteps(made.steps), made.maps, 1),
                                       loops, wrong, |code|))
    requires Refs(sm, 0) && Run(code, sm, trace)
    ensures SinglesIn(points) && trace <= full && Run(code, sm, full) && Finished(code, full[|full| - 1])
    ensures VectorX(full[|full| - 1].mem, n) == Repeated(TimesList(points, n), VectorX(sm, n), loops)
  {
    hide SymDivided, SymmetricValues, MadeFrom, LastRowLow, CodeFor, SwapProgram, CsxRound, OddSteps, Refs, Barriers.Step, Finished,
         Repeated, VectorX, TimesList, Computing, Agree, CellsOf;
    MadeComputes(made, points, n, diagonals, starts, cuts, limits);
    RoundsFree(TimesList(points, n), made.steps, OddSteps(made.steps), made.parts, made.from, starts, made.maps,
               made.cuts, n);
    CellsAgree(sm);
    full := SwappingCanFinish(CsxRound(made.steps, made.maps, 0), CsxRound(OddSteps(made.steps), made.maps, 1), loops, wrong,
                              code, sm, CellsOf(sm), trace);
    EveryRunOfInput(made, points, n, diagonals, starts, cuts, limits, loops, wrong, code, sm, full);
  }

  // ----- The row format

  lemma {:induction false} CrsRoundsAreFixed(crs: SymMap.Crs, starts: seq<nat>, maps: seq<seq<SymMap.Slot>>, loops: nat)
    requires crs.Valid() && SymMap.Partition(starts, crs.n) && |maps| + 1 == |starts|
    ensures Rounds(crs, starts, maps, loops)
         == FixedRounds(Round(crs, starts, maps, 0), Round(crs, starts, maps, 1), loops)
  {
    hide Round, SymMap.Crs.Valid, SymMap.Partition;
    if loops > 0 {
      CrsRoundsAreFixed(crs, starts, maps, loops - 1);
    }
  }

  lemma CrsRoundsFree(crs: SymMap.Crs, starts: seq<nat>, maps: seq<seq<SymMap.Slot>>, cuts: seq<nat>, xv: nat)
    requires Mapped(crs, starts, maps, cuts) && xv < 2
    ensures GoodRound(Round(crs, starts, maps, xv), |maps|)
  {
    hide SymMap.MapsFor, RaceFree, SymMap.Crs.Valid;
    ZeroRaceFree(crs, starts, maps, cuts, xv);
    MulRaceFree(crs, starts, maps, cuts, xv);
    AddRaceFree(crs, starts, maps, cuts, xv);
  }

  /** The loop over the row format, with its exchanges. */
  lemma EveryCrsSwapRun(crs: SymMap.Crs, starts: seq<nat>, maps: seq<seq<SymMap.Slot>>, cuts: seq<nat>, loops: nat,
                        wrong: real, code: seq<seq<Instr<Shared>>>, sm: Memory<Shared>, trace: seq<Conf<Shared>>)
    requires Mapped(crs, starts, maps, cuts) && |code| == |maps|
    requires CodeFor(code, SwapProgram(Round(crs, starts, maps, 0), Round(crs, starts, maps, 1), loops, wrong, |code|))
    requires Refs(sm, 0) && Run(code, sm, trace) && Finished(code, trace[|trace| - 1])
    ensures VectorX(trace[|trace| - 1].mem, crs.n) == Power(crs, VectorX(sm, crs.n), loops)
  {
    hide SymMap.MapsFor, CodeFor, Finished, Barriers.Step, Power, Agree, Refs, Round, CellsOf, VectorX, RunPhases, GoodRound,
         SwapProgram, SymMap.Crs.Valid, SymMap.Partition;
    CrsRoundsFree(crs, starts, maps, cuts, 0);
    CrsRoundsFree(crs, starts, maps, cuts, 1);
    var m := CellsOf(sm);
    CellsAgree(sm);
    EverySwappingRun(Round(crs, starts, maps, 0), Round(crs, starts, maps, 1), loops, wrong, code, sm, m, trace);
    CrsRoundsAreFixed(crs, starts, maps, loops);
    RoundsMultiply(crs, starts, maps, cuts, loops, m);
    VectorIs(sm, m, 0, crs.n);
    VectorIs(trace[|trace| - 1].mem, RunPhases(m, Rounds(crs, starts, maps, loops)), loops % 2, crs.n);
  }
}

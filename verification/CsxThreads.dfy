/** A symmetric matrix in CSX parts, multiplied in parallel.

    The steps of each thread are the writes that the kernel makes on its part.
    `EveryCsxRound`: however the threads interleave between the barriers, and whatever
    the temporary vectors held, a round leaves every row as the parts one after another
    do; `EveryCsxRunMultiplies`: when every part reaches its last row, all rounds together
    multiply by the whole matrix. */
module CsxThreads {
  import opened Matrix
  import opened Barriers
  import opened SymSpmv
  import opened SymSteps
  import opened SymCsx
  import SymMap

  type Threads = seq<seq<Op<Cell>>>

  /** The three phases of a round whose input vector is number xv. */
  function CsxRound(steps: Threads, maps: seq<seq<SymMap.Slot>>, xv: nat): (r: seq<Threads>)
    requires |steps| == |maps|
    ensures |r| == 3 && forall k :: 0 <= k < 3 ==> |r[k]| == |maps|
  {
    [seq(|maps|, t requires 0 <= t < |maps| => ZeroOps(maps[t])),
     steps,
     seq(|maps|, t requires 0 <= t < |maps| => AddOps(maps[t], 1 - xv % 2))]
  }

  /** Printed parts with their maps, and the steps of their threads. */
  ghost predicate Round3(steps: Threads, parts: seq<CsxSym>, from: seq<Source>, starts: seq<nat>,
                         maps: seq<seq<SymMap.Slot>>, cuts: seq<nat>, n: nat, xv: nat) {
    && AllReady(parts, from, starts, n) && MapsMade(maps, cuts, from, starts, n)
    && AllPerform(steps, parts, from, starts, n, xv) && xv < 2
    && |steps| == |maps| == |parts| == |from|
  }

  // ----- No races

  lemma SlotsApart(maps: seq<seq<SymMap.Slot>>, cuts: seq<nat>, from: seq<Source>, starts: seq<nat>, n: nat,
                   i: nat, j: nat)
    requires MapsMade(maps, cuts, from, starts, n) && i < |maps| && j < |maps| && i != j
    ensures forall t, u :: t in maps[i] && u in maps[j] ==> t.pos != u.pos
  {
    hide SymMap.MapsFor, Met;
    NrMaps(maps, cuts, from, starts, n);
    var remote := RemoteIn(LoadedPoints(from), starts);
    if i < j {
      SymMap.Disjoint(maps, cuts, remote, |from|, n, 1, i, j);
    } else {
      SymMap.Disjoint(maps, cuts, remote, |from|, n, 1, j, i);
    }
  }

  lemma ZeroFree(steps: Threads, maps: seq<seq<SymMap.Slot>>, cuts: seq<nat>, from: seq<Source>, starts: seq<nat>,
                 n: nat, xv: nat)
    requires MapsMade(maps, cuts, from, starts, n) && |steps| == |maps|
    ensures RaceFree(CsxRound(steps, maps, xv)[0])
  {
    hide MapsMade, ZeroOps, AddOps, Within, Writes, Touches;
    var threads := CsxRound(steps, maps, xv)[0];
    forall t, u, c | 0 <= t < |threads| && 0 <= u < |threads| && t != u && Writes(threads[t], c)
      ensures !Touches(threads[u], c)
    {
      ZeroWithin(maps[t]);
      ZeroWithin(maps[u]);
      WithinFacts(ZeroOps(maps[t]), Slots(maps[t]), Nothing());
      WithinFacts(ZeroOps(maps[u]), Slots(maps[u]), Nothing());
      SlotsApart(maps, cuts, from, starts, n, t, u);
    }
  }

  lemma AddFree(steps: Threads, maps: seq<seq<SymMap.Slot>>, cuts: seq<nat>, from: seq<Source>, starts: seq<nat>,
                n: nat, xv: nat)
    requires MapsMade(maps, cuts, from, starts, n) && |steps| == |maps|
    ensures RaceFree(CsxRound(steps, maps, xv)[2])
  {
    hide MapsMade, ZeroOps, AddOps, Within, Writes, Touches;
    var y := 1 - xv % 2;
    var threads := CsxRound(steps, maps, xv)[2];
    forall t, u, c | 0 <= t < |threads| && 0 <= u < |threads| && t != u && Writes(threads[t], c)
      ensures !Touches(threads[u], c)
    {
      AddWithin(maps[t], y);
      AddWithin(maps[u], y);
      WithinFacts(AddOps(maps[t], y), Positions(maps[t], y), Either(Positions(maps[t], y), Temps()));
      WithinFacts(AddOps(maps[u], y), Positions(maps[u], y), Either(Positions(maps[u], y), Temps()));
      SlotsApart(maps, cuts, from, starts, n, t, u);
    }
  }

  /** The steps of thread t touch what is its own, and the input vector. */
  lemma StepsFacts(steps: Threads, parts: seq<CsxSym>, from: seq<Source>, starts: seq<nat>, n: nat, xv: nat, t: nat,
                   c: Cell)
    requires AllReady(parts, from, starts, n) && AllPerform(steps, parts, from, starts, n, xv) && t < |steps|
    ensures |from| == |steps| && |starts| == |steps| + 1 && SymMap.Partition(starts, n) && xv < 2
         && starts[t] <= starts[t + 1]
    ensures Writes(steps[t], c) ==> Own(t, starts[t], starts[t + 1], xv)(c)
    ensures Writes(steps[t], c) ==> Own(t, starts[t], starts[t] + from[t].d.rows, xv)(c)
    ensures Touches(steps[t], c) ==> Own(t, starts[t], starts[t + 1], xv)(c) || (c.V? && c.which == xv)
  {
    hide PartReady, PartAdded, Within, Writes, Touches, Own;
    assert Performs(steps[t], from[t].Es(), t, xv, starts[t], from[t].d.rows, n, parts[t].dvalues);
    assert parts[t] == parts[t];
    var writes := Own(t, starts[t], starts[t] + from[t].d.rows, xv);
    WithinFacts(steps[t], writes, Either(writes, Input(xv)));
    PartFits(parts, from, starts, n, t);
    OwnMore(t, starts[t], starts[t] + from[t].d.rows, starts[t + 1], xv, c);
  }

  lemma OwnRest(cpu: nat, s: nat, e: nat, end: nat, xv: nat, p: nat)
    requires s <= e <= p < end
    ensures Own(cpu, s, end, xv)(V(1 - xv % 2, p)) && !Own(cpu, s, e, xv)(V(1 - xv % 2, p))
  {
  }

  lemma OwnMore(cpu: nat, s: nat, e: nat, end: nat, xv: nat, c: Cell)
    requires e <= end
    ensures Own(cpu, s, e, xv)(c) ==> Own(cpu, s, end, xv)(c)
  {
  }

  lemma StepsFree(steps: Threads, parts: seq<CsxSym>, from: seq<Source>, starts: seq<nat>, n: nat, xv: nat)
    requires AllReady(parts, from, starts, n) && AllPerform(steps, parts, from, starts, n, xv)
    ensures RaceFree(steps)
  {
    hide AllReady, AllPerform, Writes, Touches, Own, SymMap.Partition;
    forall t, u, c | 0 <= t < |steps| && 0 <= u < |steps| && t != u && Writes(steps[t], c)
      ensures !Touches(steps[u], c)
    {
      StepsFacts(steps, parts, from, starts, n, xv, t, c);
      StepsFacts(steps, parts, from, starts, n, xv, u, c);
      OwnDisjoint(starts, n, t, u, xv, c);
    }
  }

  // ----- The three phases

  function TempsOf(m: Memory<Cell>, count: nat, n: nat): (r: seq<seq<real>>)
    ensures |r| == count && forall u {:trigger r[u]} :: 0 <= u < count ==> r[u] == TempView(m, u, n)
  {
    seq(count, u requires 0 <= u < count => TempView(m, u, n))
  }

  /** Every cell that a part will touch is zero after the first phase; both vectors are
      untouched. */
  lemma ZeroPhase(steps: Threads, maps: seq<seq<SymMap.Slot>>, cuts: seq<nat>, from: seq<Source>, starts: seq<nat>,
                  n: nat, xv: nat, m: Memory<Cell>)
    requires MapsMade(maps, cuts, from, starts, n) && |steps| == |maps| == |from| && |starts| == |from| + 1
    ensures var m1 := RunThreads(m, CsxRound(steps, maps, xv)[0]);
            && SymCsx.Zeroed(TempsOf(m1, |from|, n), from, starts, n)
            && forall w: nat :: View(m1, w, n) == View(m, w, n)
  {
    hide MapsMade, ZeroOps, AddOps, Writes, Touches, RunThreads, RunOps, RaceFree, Met, Within, Read, Points;
    var threads := CsxRound(steps, maps, xv)[0];
    var m1 := RunThreads(m, threads);
    var before := TempsOf(m1, |from|, n);
    ZeroFree(steps, maps, cuts, from, starts, n, xv);
    forall u: nat, p: nat | u < |from| && p + 1 < n && p < |before[u]| && Met(Points(from[u].loaded), starts[u], p + 1)
      ensures before[u][p] == 0.0
    {
      var j := MapOf(maps, cuts, from, starts, n, u, p);
      ZeroWrites(maps[j], SymMap.Slot(u, p));
      Isolated(m, threads, j, Temp(u, p));
      ZeroRun(m, maps[j], SymMap.Slot(u, p));
      assert before[u][p] == Read(m1, Temp(u, p));
    }
    forall w: nat
      ensures View(m1, w, n) == View(m, w, n)
    {
      forall p | 0 <= p < n
        ensures Read(m1, V(w, p)) == Read(m, V(w, p))
      {
        forall t | 0 <= t < |threads|
          ensures !Writes(threads[t], V(w, p))
        {
          ZeroWithin(maps[t]);
          WithinFacts(ZeroOps(maps[t]), Slots(maps[t]), Nothing());
        }
        Unwritten(m, threads, V(w, p));
      }
    }
  }

  /** A cell of thread t is as thread t alone leaves it. */
  lemma OwnCell(steps: Threads, parts: seq<CsxSym>, from: seq<Source>, starts: seq<nat>, n: nat, xv: nat,
                m: Memory<Cell>, t: nat, c: Cell)
    requires AllReady(parts, from, starts, n) && AllPerform(steps, parts, from, starts, n, xv) && t < |steps|
    requires t + 1 < |starts| && Own(t, starts[t], starts[t + 1], xv)(c)
    ensures Read(RunThreads(m, steps), c) == Read(RunOps(m, steps[t]), c)
  {
    hide AllReady, AllPerform, Writes, Touches, Own, SymMap.Partition, RaceFree, RunThreads, RunOps, Read;
    StepsFree(steps, parts, from, starts, n, xv);
    forall u | 0 <= u < |steps| && u != t
      ensures !Writes(steps[u], c)
    {
      StepsFacts(steps, parts, from, starts, n, xv, u, c);
      OwnDisjoint(starts, n, t, u, xv, c);
    }
    OwnedBy(m, steps, t, c);
  }

  /** A row behind the last element of its part is not written. */
  lemma RestCell(steps: Threads, parts: seq<CsxSym>, from: seq<Source>, starts: seq<nat>, n: nat, xv: nat,
                 m: Memory<Cell>, t: nat, p: nat)
    requires AllReady(parts, from, starts, n) && AllPerform(steps, parts, from, starts, n, xv) && t < |steps|
    requires t < |from| && t + 1 < |starts| && starts[t] + from[t].d.rows <= p < starts[t + 1]
    ensures Read(RunThreads(m, steps), V(1 - xv % 2, p)) == Read(m, V(1 - xv % 2, p))
  {
    hide AllReady, AllPerform, Writes, Touches, Own, SymMap.Partition, RunThreads, RunOps, Read;
    var c := V(1 - xv % 2, p);
    StepsFacts(steps, parts, from, starts, n, xv, t, c);
    OwnRest(t, starts[t], starts[t] + from[t].d.rows, starts[t + 1], xv, p);
    forall u | 0 <= u < |steps|
      ensures !Writes(steps[u], c)
    {
      StepsFacts(steps, parts, from, starts, n, xv, u, c);
      if u != t {
        OwnDisjoint(starts, n, t, u, xv, c);
      }
    }
    Unwritten(m, steps, c);
  }

  /** The second phase multiplies every part. */
  lemma StepsPhase(steps: Threads, parts: seq<CsxSym>, from: seq<Source>, starts: seq<nat>, n: nat, xv: nat,
                   m: Memory<Cell>, t: nat)
    requires AllReady(parts, from, starts, n) && AllPerform(steps, parts, from, starts, n, xv) && t < |steps|
    ensures |starts| == |parts| + 1
    ensures var m2, x := RunThreads(m, steps), View(m, xv, n);
            && RowsDone(View(m2, 1 - xv % 2, n), View(m, 1 - xv % 2, n), parts[t], from[t], starts[t], starts[t + 1], x)
            && TempsDone(TempView(m2, t, n), TempView(m, t, n), from[t], starts[t], x)
  {
    hide PartReady, SymProduct, Sum, RunThreads, RunOps, Read, Within, MirrorTerm;
    assert Performs(steps[t], from[t].Es(), t, xv, starts[t], from[t].d.rows, n, parts[t].dvalues);
    assert parts[t] == parts[t] && starts[t + 1] <= n;
    var m2, alone, x, v := RunThreads(m, steps), RunOps(m, steps[t]), View(m, xv, n), 1 - xv % 2;
    assert PartAdded(m, alone, from[t].Es(), t, xv, starts[t], from[t].d.rows, n, parts[t].dvalues);
    forall p | starts[t] <= p < starts[t] + from[t].d.rows
      ensures SymProduct(View(m2, v, n)[p], from[t].Es(), starts[t], p, x, parts[t].dvalues)
    {
      OwnCell(steps, parts, from, starts, n, xv, m, t, V(v, p));
      assert View(alone, v, n)[p] == Read(alone, V(v, p));
    }
    forall p | starts[t] + from[t].d.rows <= p < starts[t + 1]
      ensures View(m2, v, n)[p] == View(m, v, n)[p]
    {
      RestCell(steps, parts, from, starts, n, xv, m, t, p);
    }
    forall p | 0 <= p < starts[t]
      ensures TempView(m2, t, n)[p] == TempView(m, t, n)[p] + Sum(from[t].Es(), MirrorTerm(p, starts[t], x))
    {
      OwnCell(steps, parts, from, starts, n, xv, m, t, Temp(t, p));
      assert TempView(alone, t, n)[p] == Read(alone, Temp(t, p));
    }
  }

  lemma {:induction false} SlotSumIs(m: Memory<Cell>, list: seq<SymMap.Slot>, count: nat, n: nat, p: nat)
    requires p < n && forall s :: s in list ==> s.cpu < count
    ensures Gather(TempsOf(m, count, n), list, p) == SlotSum(m, list, p)
  {
    hide TempsOf;
    if list != [] {
      var k := |list| - 1;
      SlotSumIs(m, list[..k], count, n, p);
      assert list[k] in list;
      assert TempsOf(m, count, n)[list[k].cpu][p] == Read(m, Temp(list[k].cpu, p));
    }
  }

  lemma {:induction false} NoSlot(tv: seq<seq<real>>, list: seq<SymMap.Slot>, p: nat)
    requires forall s :: s in list ==> s.pos != p
    ensures Gather(tv, list, p) == 0.0
  {
    if list != [] {
      NoSlot(tv, list[..|list| - 1], p);
      assert list[|list| - 1] in list;
    }
  }

  /** Only one map has slots at position p. */
  lemma {:induction false} OneMap(tv: seq<seq<real>>, maps: seq<seq<SymMap.Slot>>, p: nat, j: nat, k: nat)
    requires k <= |maps| && forall i, s :: 0 <= i < |maps| && i != j && s in maps[i] ==> s.pos != p
    ensures GatherAll(tv, maps[..k], p) == if j < k then Gather(tv, maps[j], p) else 0.0
  {
    hide Gather;
    if k > 0 {
      OneMap(tv, maps, p, j, k - 1);
      assert maps[..k][..k - 1] == maps[..k - 1];
      if k - 1 != j {
        NoSlot(tv, maps[k - 1], p);
      }
    } else {
      assert maps[..0] == [];
    }
  }

  /** The third phase adds every listed cell to the output vector. */
  lemma AddPhase(steps: Threads, maps: seq<seq<SymMap.Slot>>, cuts: seq<nat>, from: seq<Source>, starts: seq<nat>,
                 n: nat, xv: nat, m: Memory<Cell>, p: nat)
    requires MapsMade(maps, cuts, from, starts, n) && |steps| == |maps| == |from| >= 1 && p < n
    ensures View(RunThreads(m, CsxRound(steps, maps, xv)[2]), 1 - xv % 2, n)[p]
         == View(m, 1 - xv % 2, n)[p] + GatherAll(TempsOf(m, |from|, n), maps, p)
  {
    hide MapsMade, ZeroOps, AddOps, Writes, Touches, RunThreads, RunOps, RaceFree, Within, Read, GatherAll, Gather, TempsOf, SlotSum;
    var y, tv := 1 - xv % 2, TempsOf(m, |from|, n);
    var threads := CsxRound(steps, maps, xv)[2];
    AddFree(steps, maps, cuts, from, starts, n, xv);
    var j := OnlyMap(maps, cuts, from, starts, n, p);
    forall u | 0 <= u < |threads| && u != j
      ensures !Writes(threads[u], V(y, p))
    {
      AddWithin(maps[u], y);
      WithinFacts(AddOps(maps[u], y), Positions(maps[u], y), Either(Positions(maps[u], y), Temps()));
    }
    OwnedBy(m, threads, j, V(y, p));
    AddRun(m, maps[j], y, p);
    MapFits(maps, cuts, from, starts, n, j);
    SlotSumIs(m, maps[j], |from|, n, p);
    OneMap(tv, maps, p, j, |maps|);
    assert maps[..|maps|] == maps;
  }

  lemma OnlyMap(maps: seq<seq<SymMap.Slot>>, cuts: seq<nat>, from: seq<Source>, starts: seq<nat>, n: nat, p: nat)
    returns (j: nat)
    requires MapsMade(maps, cuts, from, starts, n) && |maps| >= 1
    ensures j < |maps| && forall i, s :: 0 <= i < |maps| && i != j && s in maps[i] ==> s.pos != p
  {
    hide MapsMade;
    j := 0;
    if i, s :| 0 <= i < |maps| && s in maps[i] && s.pos == p {
      j := i;
      forall k, u | 0 <= k < |maps| && k != j && u in maps[k]
        ensures u.pos != p
      {
        SlotsApart(maps, cuts, from, starts, n, j, k);
      }
    }
  }

  // ----- A round

  /** A round makes every row what it is when the parts run one after another. */
  lemma RoundRows(steps: Threads, parts: seq<CsxSym>, from: seq<Source>, starts: seq<nat>,
                     maps: seq<seq<SymMap.Slot>>, cuts: seq<nat>, n: nat, xv: nat, m: Memory<Cell>, t: nat)
    requires Round3(steps, parts, from, starts, maps, cuts, n, xv) && t < |parts|
    ensures |parts| == |from| < |starts|
    ensures PartEnds(View(RunPhases(m, CsxRound(steps, maps, xv)), 1 - xv % 2, n), View(m, 1 - xv % 2, n), parts, from,
                   starts, View(m, xv, n), t)
  {
    hide AllReady, AllPerform, MapsMade, RunThreads, Read, SymCsx.Zeroed, RowsDone, TempsDone, PartEnds, GatherAll, TempsOf;
    ReadySizes(parts, from, starts, n);
    var round := CsxRound(steps, maps, xv);
    var m1 := RunThreads(m, round[0]);
    var m2 := RunThreads(m1, round[1]);
    var m3 := RunThreads(m2, round[2]);
    var y, before, tv := 1 - xv % 2, TempsOf(m1, |from|, n), TempsOf(m2, |from|, n);
    ThreePhases(m, round);
    ZeroPhase(steps, maps, cuts, from, starts, n, xv, m);
    StepsPhase(steps, parts, from, starts, n, xv, m1, t);
    forall k {:trigger tv[k]} | 0 <= k < |from|
      ensures TempsDone(tv[k], before[k], from[k], starts[k], View(m, xv, n))
    {
      StepsPhase(steps, parts, from, starts, n, xv, m1, k);
    }
    forall p | 0 <= p < n
      ensures View(m3, y, n)[p] == View(m2, y, n)[p] + GatherAll(tv, maps, p)
    {
      AddPhase(steps, maps, cuts, from, starts, n, xv, m2, p);
    }
    PartAdds(parts, from, starts, maps, cuts, n, before, tv, View(m, xv, n), t, View(m, y, n), View(m2, y, n),
             View(m3, y, n));
  }

  /** A round over complete parts multiplies by the whole matrix, whatever the memory held
      before. */
  lemma RoundIsRight(steps: Threads, parts: seq<CsxSym>, from: seq<Source>, starts: seq<nat>,
                     maps: seq<seq<SymMap.Slot>>, cuts: seq<nat>, n: nat, xv: nat, m: Memory<Cell>, t: nat)
    requires Round3(steps, parts, from, starts, maps, cuts, n, xv) && t < |parts| && AllComplete(parts, from)
    ensures |parts| == |from| < |starts|
    ensures PartIsRight(View(RunPhases(m, CsxRound(steps, maps, xv)), 1 - xv % 2, n), parts, from, starts, View(m, xv, n), t)
  {
    hide Round3, RunPhases, CsxRound, PartEnds, PartIsRight, AllComplete;
    RoundSizes(steps, parts, from, starts, maps, cuts, n, xv);
    RoundRows(steps, parts, from, starts, maps, cuts, n, xv, m, t);
    CompleteIsRight(View(RunPhases(m, CsxRound(steps, maps, xv)), 1 - xv % 2, n), View(m, 1 - xv % 2, n), parts, from,
                    starts, View(m, xv, n), t);
  }

  lemma RoundSizes(steps: Threads, parts: seq<CsxSym>, from: seq<Source>, starts: seq<nat>,
                   maps: seq<seq<SymMap.Slot>>, cuts: seq<nat>, n: nat, xv: nat)
    requires Round3(steps, parts, from, starts, maps, cuts, n, xv)
    ensures |steps| == |maps| == |parts| == |from| && |starts| == |parts| + 1
  {
    hide AllPerform, MapsMade, PartReady;
  }

  lemma RoundIsFree(steps: Threads, parts: seq<CsxSym>, from: seq<Source>, starts: seq<nat>,
                    maps: seq<seq<SymMap.Slot>>, cuts: seq<nat>, n: nat, xv: nat)
    requires Round3(steps, parts, from, starts, maps, cuts, n, xv) && |parts| >= 1
    ensures AllRaceFree(CsxRound(steps, maps, xv)) && Phased(CsxRound(steps, maps, xv), |maps|)
  {
    hide AllReady, AllPerform, MapsMade, RaceFree;
    ZeroFree(steps, maps, cuts, from, starts, n, xv);
    StepsFree(steps, parts, from, starts, n, xv);
    AddFree(steps, maps, cuts, from, starts, n, xv);
  }

  /** Every finished run of a round, in any interleaving and from any memory. */
  lemma EveryCsxRound(steps: Threads, parts: seq<CsxSym>, from: seq<Source>, starts: seq<nat>,
                      maps: seq<seq<SymMap.Slot>>, cuts: seq<nat>, n: nat, xv: nat,
                      code: seq<seq<Instr<Cell>>>, m: Memory<Cell>, trace: seq<Conf<Cell>>, t: nat)
    requires Round3(steps, parts, from, starts, maps, cuts, n, xv) && |parts| >= 1 && t < |parts|
    requires CodeFor(code, CsxRound(steps, maps, xv)) && Run(code, m, trace) && Finished(code, trace[|trace| - 1])
    ensures |parts| == |from| < |starts|
    ensures PartEnds(View(trace[|trace| - 1].mem, 1 - xv % 2, n), View(m, 1 - xv % 2, n), parts, from, starts,
                   View(m, xv, n), t)
  {
    hide Round3, CsxRound, CodeFor, Finished, Step, RunPhases, PartEnds;
    RoundSizes(steps, parts, from, starts, maps, cuts, n, xv);
    RoundIsFree(steps, parts, from, starts, maps, cuts, n, xv);
    FinishedRun(code, CsxRound(steps, maps, xv), m, trace);
    RoundRows(steps, parts, from, starts, maps, cuts, n, xv, m, t);
    SameView(trace[|trace| - 1].mem, RunPhases(m, CsxRound(steps, maps, xv)), 1 - xv % 2, n);
  }

  // ----- All rounds

  /** `loops` rounds; the steps of a thread depend on which vector is the input. */
  function CsxRounds(even: Threads, odd: Threads, maps: seq<seq<SymMap.Slot>>, loops: nat): seq<Threads>
    requires |even| == |odd| == |maps|
  {
    if loops == 0 then []
    else
      var xv := (loops - 1) % 2;
      CsxRounds(even, odd, maps, loops - 1) + CsxRound(if xv == 0 then even else odd, maps, xv)
  }

  /** Right rows are the rows of an operation on vectors. */
  ghost predicate Computes(op: seq<real> -> seq<real>, parts: seq<CsxSym>, from: seq<Source>, starts: seq<nat>, n: nat)
  {
    && |parts| == |from| < |starts| && (forall x {:trigger op(x)} :: |x| == n ==> |op(x)| == n)
    && forall yp, x, p: nat, t: nat :: |x| == n && p < n && t < |parts| && RowRight(yp, parts, from, starts, x, p, t) ==>
         yp == op(x)[p]
  }

  function Repeated(op: seq<real> -> seq<real>, x: seq<real>, loops: nat): seq<real> {
    if loops == 0 then x else op(Repeated(op, x, loops - 1))
  }

  /** Complete parts, their maps, and what they compute. */
  ghost predicate Computing(op: seq<real> -> seq<real>, even: Threads, odd: Threads, parts: seq<CsxSym>,
                            from: seq<Source>, starts: seq<nat>, maps: seq<seq<SymMap.Slot>>, cuts: seq<nat>, n: nat) {
    && Round3(even, parts, from, starts, maps, cuts, n, 0) && Round3(odd, parts, from, starts, maps, cuts, n, 1)
    && AllComplete(parts, from) && |parts| >= 1 && Computes(op, parts, from, starts, n)
    && |even| == |odd| == |maps|
  }

  lemma RoundIsProduct(op: seq<real> -> seq<real>, steps: Threads, parts: seq<CsxSym>, from: seq<Source>,
                       starts: seq<nat>,
                       maps: seq<seq<SymMap.Slot>>, cuts: seq<nat>, n: nat, xv: nat, m: Memory<Cell>)
    requires Round3(steps, parts, from, starts, maps, cuts, n, xv) && |parts| >= 1
         && AllComplete(parts, from) && Computes(op, parts, from, starts, n)
    ensures View(RunPhases(m, CsxRound(steps, maps, xv)), 1 - xv % 2, n) == op(View(m, xv, n))
  {
    hide AllPerform, MapsMade, PartReady, RunPhases, CsxRound, RowRight, AllComplete;
    var y, z := View(RunPhases(m, CsxRound(steps, maps, xv)), 1 - xv % 2, n), op(View(m, xv, n));
    forall p: nat | p < n
      ensures y[p] == z[p]
    {
      var t := SymMap.CutOf(starts, n, p, |parts|);
      RoundIsRight(steps, parts, from, starts, maps, cuts, n, xv, m, t);
      assert RowRight(y[p], parts, from, starts, View(m, xv, n), p, t);
    }
  }

  lemma {:induction false} CsxRoundsRun(op: seq<real> -> seq<real>, even: Threads, odd: Threads, parts: seq<CsxSym>,
                                        from: seq<Source>,
                                        starts: seq<nat>, maps: seq<seq<SymMap.Slot>>, cuts: seq<nat>, n: nat,
                                        loops: nat, m: Memory<Cell>)
    requires Computing(op, even, odd, parts, from, starts, maps, cuts, n)
    ensures |even| == |odd| == |maps| >= 1
    ensures AllRaceFree(CsxRounds(even, odd, maps, loops)) && Phased(CsxRounds(even, odd, maps, loops), |maps|)
    ensures View(RunPhases(m, CsxRounds(even, odd, maps, loops)), loops % 2, n) == Repeated(op, View(m, 0, n), loops)
  {
    hide Round3, RunPhases, CsxRound, Computes, AllComplete, RaceFree;
    RoundSizes(even, parts, from, starts, maps, cuts, n, 0);
    if loops == 0 {
      NoPhases(m);
    } else {
      var before, xv := CsxRounds(even, odd, maps, loops - 1), (loops - 1) % 2;
      var steps := if xv == 0 then even else odd;
      CsxRoundsRun(op, even, odd, parts, from, starts, maps, cuts, n, loops - 1, m);
      RunPhasesConcat(m, before, CsxRound(steps, maps, xv));
      RoundIsProduct(op, steps, parts, from, starts, maps, cuts, n, xv, RunPhases(m, before));
      RoundIsFree(steps, parts, from, starts, maps, cuts, n, xv);
    }
  }

  /** Every finished run of the threads, in any interleaving and from any memory, has
      multiplied the input vector `loops` times. */
  lemma EveryCsxRunMultiplies(op: seq<real> -> seq<real>, even: Threads, odd: Threads, parts: seq<CsxSym>,
                              from: seq<Source>, starts: seq<nat>,
                              maps: seq<seq<SymMap.Slot>>, cuts: seq<nat>, n: nat, loops: nat,
                              code: seq<seq<Instr<Cell>>>, m: Memory<Cell>, trace: seq<Conf<Cell>>)
    requires Computing(op, even, odd, parts, from, starts, maps, cuts, n) && |even| == |odd| == |maps|
    requires CodeFor(code, CsxRounds(even, odd, maps, loops)) && Run(code, m, trace)
         && Finished(code, trace[|trace| - 1])
    ensures View(trace[|trace| - 1].mem, loops % 2, n) == Repeated(op, View(m, 0, n), loops)
  {
    hide Computing, CsxRounds, CodeFor, Finished, Step, RunPhases, Repeated;
    CsxRoundsRun(op, even, odd, parts, from, starts, maps, cuts, n, loops, m);
    FinishedRun(code, CsxRounds(even, odd, maps, loops), m, trace);
    SameView(trace[|trace| - 1].mem, RunPhases(m, CsxRounds(even, odd, maps, loops)), loops % 2, n);
  }

  /** ... and no run of them gets stuck. */
  lemma CsxRoundsCanFinish(op: seq<real> -> seq<real>, even: Threads, odd: Threads, parts: seq<CsxSym>,
                           from: seq<Source>, starts: seq<nat>,
                           maps: seq<seq<SymMap.Slot>>, cuts: seq<nat>, n: nat, loops: nat,
                           code: seq<seq<Instr<Cell>>>, m: Memory<Cell>, trace: seq<Conf<Cell>>)
    returns (full: seq<Conf<Cell>>)
    requires Computing(op, even, odd, parts, from, starts, maps, cuts, n) && |even| == |odd| == |maps|
    requires CodeFor(code, CsxRounds(even, odd, maps, loops)) && Run(code, m, trace)
    ensures trace <= full && Run(code, m, full) && Finished(code, full[|full| - 1])
    ensures View(full[|full| - 1].mem, loops % 2, n) == Repeated(op, View(m, 0, n), loops)
  {
    hide Computing, CsxRounds, CodeFor, Finished, Step, Repeated;
    CsxRoundsRun(op, even, odd, parts, from, starts, maps, cuts, n, loops, m);
    full := CanFinish(code, CsxRounds(even, odd, maps, loops), m, trace);
    EveryCsxRunMultiplies(op, even, odd, parts, from, starts, maps, cuts, n, loops, code, m, full);
  }

  /** Parts that hold a matrix in the row format compute its product. */
  lemma PartsCompute(parts: seq<CsxSym>, from: seq<Source>, starts: seq<nat>, crs: SymMap.Crs,
                     op: seq<real> -> seq<real>)
    requires crs.Valid() && PartsOf(parts, from, starts, crs)
    requires forall x :: |x| == crs.n ==> op(x) == Product(crs, x)
    ensures Computes(op, parts, from, starts, crs.n)
  {
    hide RowRight, SymMap.Crs.Valid, PartsOf;
    assert |parts| == |from| < |starts| by { PartsSizes(parts, from, starts, crs); }
    forall yp, x, p: nat, t: nat | |x| == crs.n && p < crs.n && t < |parts| && RowRight(yp, parts, from, starts, x, p, t)
      ensures yp == op(x)[p]
    {
      RightIsProduct(yp, parts, from, starts, x, p, t, crs);
    }
  }

  lemma PartsSizes(parts: seq<CsxSym>, from: seq<Source>, starts: seq<nat>, crs: SymMap.Crs)
    requires crs.Valid() && PartsOf(parts, from, starts, crs)
    ensures |parts| == |from| < |starts|
  {
  }
}

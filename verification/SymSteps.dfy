/** What one thread of a symmetric multiplication adds up.

    `Bal` is what the kernel keeps after every unit: which entries have been added in
    their own row, and which as mirror images.  The same is kept for the thread as a
    program of the machine of `Barriers`: `Does` says it of every memory that the steps
    may begin with, and every write of the kernel is one step. */
module SymSteps {
  import opened Orders
  import opened Matrix
  import opened Products
  import opened Barriers
  import opened CsxKernel
  import opened SymSpmv

  /** The contribution of the mirror image of an entry to place c of the product, when
      row 1 of the matrix is at place rs. */
  function MirrorTerm(c: int, rs: nat, x: seq<real>): Entry -> real {
    (e: Entry) => if e.at.x == c + 1 && 0 <= e.at.y - 1 + rs < |x| then e.val * x[e.at.y - 1 + rs] else 0.0
  }

  /** Which thread multiplies, the number of its input vector, where its rows end, and how
      much of the diagonal has been applied. */
  datatype Task = Task(cpu: nat, xv: nat, end: nat, dv: seq<real>, count: nat)

  /** One multiplication: both vectors before the first unit, where the rows of the part
      begin, and the input vector.  `alias` when both vectors are one. */
  datatype SymJob = SymJob(z: seq<real>, tz: seq<real>, rs: nat, x: seq<real>, alias: bool, task: Task)
  {
    /** The same multiplication when it begins with a memory of cells; there the temporary
        vector has cells of its own. */
    function For(m: Memory<Cell>): SymJob
      requires task.count <= |task.dv| && rs + task.count <= |x|
    {
      var xs := View(m, task.xv, |x|);
      SymJob(AddDiagonal(Zeroed(View(m, 1 - task.xv % 2, |x|), rs, task.end), rs, task.count, xs, task.dv),
             TempView(m, task.cpu, |x|), rs, xs, false, task)
    }

    /** Whatever memory the steps begin with, they have added these entries. */
    ghost predicate During(m: Memory<Cell>, ops: seq<Op<Cell>>, direct: seq<Entry>, mirror: seq<Entry>, at: int)
      requires task.count <= |task.dv| && rs + task.count <= |x|
    {
      var m' := RunOps(m, ops);
      && View(m', task.xv, |x|) == View(m, task.xv, |x|) && (at == -1 ==> Read(m', Acc(task.cpu)) == 0.0)
      && For(m).Bal(View(m', 1 - task.xv % 2, |x|), TempView(m', task.cpu, |x|), direct, mirror, at, Read(m', Acc(task.cpu)))
    }

    ghost predicate Does(ops: seq<Op<Cell>>, direct: seq<Entry>, mirror: seq<Entry>, at: int) {
      && task.xv < 2 && rs <= task.end <= |x| && task.count <= |task.dv| && rs + task.count <= task.end
      && Within(ops, Own(task.cpu, rs, task.end, task.xv),
                Either(Own(task.cpu, rs, task.end, task.xv), Input(task.xv)))
      && forall m :: During(m, ops, direct, mirror, at)
    }

    /** Both for the vectors of the kernel and for the steps of the thread. */
    ghost predicate Keeps(ops: seq<Op<Cell>>, y: seq<real>, t: seq<real>, direct: seq<Entry>, mirror: seq<Entry>,
                          at: int, yr: real) {
      Bal(y, t, direct, mirror, at, yr) && Does(ops, direct, mirror, at)
    }

    /** Into y, into where mirror images go, into the running sum. */
    function DirectOp(es: seq<Entry>, j: nat): Op<Cell> {
      SumOp(V(1 - task.xv % 2, j), task.xv, |x|, RowAdds(es, j, rs))
    }

    function MirrorOp(es: seq<Entry>, c: nat): Op<Cell> {
      SumOp(if c < rs then Temp(task.cpu, c) else V(1 - task.xv % 2, c), task.xv, |x|, ColAdds(es, c, rs))
    }

    function RunningOp(es: seq<Entry>, j: nat): Op<Cell> {
      SumOp(Acc(task.cpu), task.xv, |x|, RowAdds(es, j, rs))
    }

    function DiagonalOp(n: nat): Op<Cell> {
      SumOp(V(1 - task.xv % 2, rs + n), task.xv, |x|, DiagonalAdds(task.dv, n, rs + n))
    }

    function FoldOps(at: nat): seq<Op<Cell>> {
      [AddOp(V(1 - task.xv % 2, at), Acc(task.cpu))] + [Op(Acc(task.cpu), [], (r: seq<real>) => 0.0)]
    }
    /** What an entry adds to place j in its own row, ... */
    function Term(j: int): Entry -> real {
      RowTerm(j - rs + 1, x)
    }

    /** ... and its mirror image to place c. */
    function Mirror(c: int): Entry -> real {
      MirrorTerm(c, rs, x)
    }

    ghost predicate Bal(y: seq<real>, t: seq<real>, direct: seq<Entry>, mirror: seq<Entry>, at: int, yr: real) {
      && |y| == |z| == |t| == |tz|
      && (forall j {:trigger y[j]} :: 0 <= j < |y| ==>
            y[j] + (if j == at then yr else 0.0) == z[j] + Sum(direct, Term(j)) + if j >= rs || alias then Sum(mirror, Mirror(j)) else 0.0)
      && (!alias ==> forall j {:trigger t[j]} :: 0 <= j < |t| ==> t[j] == tz[j] + if j < rs then Sum(mirror, Mirror(j)) else 0.0)
    }

    /** All places of a unit exist, on one side of the split. */
    ghost predicate Fits(ps: seq<Coord>, own: bool) {
      && |x| == |z| == |tz| && task.end <= |x|
      && forall k :: 0 <= k < |ps| ==>
           && 1 <= ps[k].y && ps[k].y - 1 + rs < task.end && 1 <= ps[k].x <= task.end
           && (own <==> ps[k].x - 1 >= rs)
    }
  }

  // ----- Steps

  /** z with zeros in the rows of the part. */
  function Zeroed(z: seq<real>, rs: nat, end: nat): (r: seq<real>)
    ensures |r| == |z| && forall j {:trigger r[j]} :: 0 <= j < |z| ==> r[j] == if rs <= j < end then 0.0 else z[j]
  {
    seq(|z|, j requires 0 <= j < |z| => if rs <= j < end then 0.0 else z[j])
  }

  function InputCells(xv: nat, n: nat): (r: seq<Cell>)
    ensures |r| == n && forall p {:trigger r[p]} :: 0 <= p < n ==> r[p] == V(xv, p)
  {
    seq(n, p requires 0 <= p < n => V(xv, p))
  }

  /** w grows by something that depends on the input vector. */
  function SumOp(w: Cell, xv: nat, n: nat, add: seq<real> -> real): Op<Cell> {
    Op(w, [w] + InputCells(xv, n), (r: seq<real>) => if |r| == n + 1 then r[0] + add(r[1..]) else 0.0)
  }

  function RowAdds(es: seq<Entry>, j: int, rs: nat): seq<real> -> real {
    (xs: seq<real>) => Sum(es, RowTerm(j - rs + 1, xs))
  }

  function ColAdds(es: seq<Entry>, c: int, rs: nat): seq<real> -> real {
    (xs: seq<real>) => Sum(es, MirrorTerm(c, rs, xs))
  }

  function DiagonalAdds(dv: seq<real>, n: nat, j: nat): seq<real> -> real {
    (xs: seq<real>) => if j < |xs| && n < |dv| then Mul(xs[j], dv[n]) else 0.0
  }

  lemma SumExec(m: Memory<Cell>, w: Cell, xv: nat, n: nat, add: seq<real> -> real, c: Cell)
    ensures Read(Exec(m, SumOp(w, xv, n, add)), c) == if c == w then Read(m, w) + add(View(m, xv, n)) else Read(m, c)
  {
    var r := ReadAll(m, [w] + InputCells(xv, n));
    assert r[1..] == View(m, xv, n);
  }

  /** What is left of the vectors when one cell has changed. */
  lemma ViewsAfter(m: Memory<Cell>, m': Memory<Cell>, w: Cell, d: real, n: nat, v: nat, cpu: nat)
    requires forall c :: Read(m', c) == if c == w then Read(m, w) + d else Read(m, c)
    ensures View(m', v, n) == (if w.V? && w.which == v && w.pos < n then View(m, v, n)[w.pos := View(m, v, n)[w.pos] + d] else View(m, v, n))
    ensures TempView(m', cpu, n)
         == (if w.Temp? && w.cpu == cpu && w.pos < n then TempView(m, cpu, n)[w.pos := TempView(m, cpu, n)[w.pos] + d] else TempView(m, cpu, n))
    ensures Read(m', Acc(cpu)) == if w == Acc(cpu) then Read(m, w) + d else Read(m, Acc(cpu))
  {
    hide Read;
  }

  /** One more step of the machine: what its vectors are then. */
  lemma SumStep(g: SymJob, m: Memory<Cell>, ops: seq<Op<Cell>>, w: Cell, add: seq<real> -> real)
    requires g.task.xv < 2 && (w.V? ==> w.which == 1 - g.task.xv)
    requires View(RunOps(m, ops), g.task.xv, |g.x|) == View(m, g.task.xv, |g.x|)
    ensures var m1, m2, d := RunOps(m, ops), RunOps(m,
                                                    ops + [SumOp(w, g.task.xv, |g.x|, add)]), add(View(m, g.task.xv, |g.x|));
            var n, v, cpu := |g.x|, 1 - g.task.xv % 2, g.task.cpu;
            && View(m2, g.task.xv, n) == View(m, g.task.xv, n)
            && View(m2, v, n) == (if w.V? && w.pos < n then View(m1, v, n)[w.pos := View(m1, v, n)[w.pos] + d] else View(m1, v, n))
            && TempView(m2, cpu, n)
                 == (if w.Temp? && w.cpu == cpu && w.pos < n then TempView(m1, cpu, n)[w.pos := TempView(m1, cpu, n)[w.pos] + d] else TempView(m1, cpu, n))
            && Read(m2, Acc(cpu)) == if w == Acc(cpu) then Read(m1, w) + d else Read(m1, Acc(cpu))
  {
    hide SumOp, Read, Exec, RunOps;
    var op := SumOp(w, g.task.xv, |g.x|, add);
    var m1 := RunOps(m, ops);
    RunConcat(m, ops, [op]);
    RunOne(m1, op);
    forall c
      ensures Read(Exec(m1, op), c) == if c == w then Read(m1, w) + add(View(m, g.task.xv, |g.x|)) else Read(m1, c)
    {
      SumExec(m1, w, g.task.xv, |g.x|, add, c);
    }
    ViewsAfter(m1, Exec(m1, op), w, add(View(m, g.task.xv, |g.x|)), |g.x|, g.task.xv, g.task.cpu);
    ViewsAfter(m1, Exec(m1, op), w, add(View(m, g.task.xv, |g.x|)), |g.x|, 1 - g.task.xv % 2, g.task.cpu);
  }

  lemma SumWithin(g: SymJob, ops: seq<Op<Cell>>, w: Cell, add: seq<real> -> real)
    requires var writes := Own(g.task.cpu, g.rs, g.task.end, g.task.xv);
             Within(ops, writes, Either(writes, Input(g.task.xv))) && writes(w)
    ensures var writes := Own(g.task.cpu, g.rs, g.task.end, g.task.xv);
            Within(ops + [SumOp(w, g.task.xv, |g.x|, add)], writes, Either(writes, Input(g.task.xv)))
  {
  }

  ghost predicate InCol(es: seq<Entry>, col: int) {
    forall k :: 0 <= k < |es| ==> es[k].at.x == col
  }

  lemma {:induction false} OtherCol(g: SymJob, es: seq<Entry>, col: int, c: int)
    requires InCol(es, col) && c + 1 != col
    ensures Sum(es, g.Mirror(c)) == 0.0
  {
    if es != [] {
      OtherCol(g, es[..|es| - 1], col, c);
    }
  }

  /** Entries of one row added to y. */
  lemma BalDirect(g: SymJob, y: seq<real>, t: seq<real>, direct: seq<Entry>, mirror: seq<Entry>, at: int, yr: real,
                  es: seq<Entry>, j: nat, sum: real, t': seq<real>)
    requires g.Bal(y, t, direct, mirror, at, yr) && j < |y| && InRow(es, j - g.rs + 1) && sum == Sum(es, g.Term(j))
    requires |t'| == |t| && (!g.alias ==> t' == t)
    ensures g.Bal(y[j := y[j] + sum], t', direct + es, mirror, at, yr)
  {
    hide RowTerm, MirrorTerm;
    forall i | 0 <= i < |y|
      ensures Sum(direct + es, g.Term(i)) == Sum(direct, g.Term(i)) + if i == j then sum else 0.0
    {
      SumConcat(direct, es, g.Term(i));
      if i != j {
        OtherRow(es, j - g.rs + 1, i - g.rs + 1, g.x);
      }
    }
  }

  /** Entries of one row added to the running sum. */
  lemma BalRunning(g: SymJob, y: seq<real>, t: seq<real>, direct: seq<Entry>, mirror: seq<Entry>, at: int, yr: real,
                   es: seq<Entry>, sum: real)
    requires g.Bal(y, t, direct, mirror, at, yr) && InRow(es, at - g.rs + 1) && sum == Sum(es, g.Term(at))
    ensures g.Bal(y, t, direct + es, mirror, at, yr + sum)
  {
    hide RowTerm, MirrorTerm;
    forall i | 0 <= i < |y|
      ensures Sum(direct + es, g.Term(i)) == Sum(direct, g.Term(i)) + if i == at then sum else 0.0
    {
      SumConcat(direct, es, g.Term(i));
      if i != at {
        OtherRow(es, at - g.rs + 1, i - g.rs + 1, g.x);
      }
    }
  }

  /** Mirror images of one column added to y or to the temporary vector. */
  lemma BalMirror(g: SymJob, y: seq<real>, t: seq<real>, direct: seq<Entry>, mirror: seq<Entry>, at: int, yr: real,
                  es: seq<Entry>, c: nat, sum: real, y': seq<real>, t': seq<real>)
    requires g.Bal(y, t, direct, mirror, at, yr) && c < |y| && InCol(es, c + 1) && sum == Sum(es, g.Mirror(c))
    requires |t'| == |t|
    requires c >= g.rs || g.alias ==> y' == y[c := y[c] + sum] && (!g.alias ==> t' == t)
    requires c < g.rs && !g.alias ==> y' == y && t' == t[c := t[c] + sum]
    ensures g.Bal(y', t', direct, mirror + es, at, yr)
  {
    hide RowTerm, MirrorTerm;
    forall i | 0 <= i < |y|
      ensures Sum(mirror + es, g.Mirror(i)) == Sum(mirror, g.Mirror(i)) + if i == c then sum else 0.0
    {
      SumConcat(mirror, es, g.Mirror(i));
      if i != c {
        OtherCol(g, es, c + 1, i);
      }
    }
  }

  // ----- What each step keeps

  lemma KeepsSizes(g: SymJob, ops: seq<Op<Cell>>, y: seq<real>, t: seq<real>, direct: seq<Entry>, mirror: seq<Entry>,
                   at: int, yr: real)
    requires g.Keeps(ops, y, t, direct, mirror, at, yr)
    ensures |y| == |g.z| == |t| == |g.tz| && g.rs <= g.task.end <= |g.x|
  {
    hide SymJob.During;
  }

  lemma KeepDirect(g: SymJob, ops: seq<Op<Cell>>, y: seq<real>, t: seq<real>, direct: seq<Entry>, mirror: seq<Entry>,
                   at: int, yr: real, es: seq<Entry>, j: nat, sum: real, t': seq<real>)
    requires g.Keeps(ops, y, t, direct, mirror, at, yr) && g.rs <= j < g.task.end && j < |y| && InRow(es, j - g.rs + 1)
         && sum == Sum(es, g.Term(j))
    requires |t'| == |t| && (!g.alias ==> t' == t)
    ensures g.Keeps(ops + [g.DirectOp(es, j)], y[j := y[j] + sum], t', direct + es, mirror, at, yr)
  {
    hide SymJob.Bal, Within, SumOp, Sum, InRow, RunOps, SymJob.For;
    BalDirect(g, y, t, direct, mirror, at, yr, es, j, sum, t');
    SumWithin(g, ops, V(1 - g.task.xv % 2, j), RowAdds(es, j, g.rs));
    forall m
      ensures g.During(m, ops + [g.DirectOp(es, j)], direct + es, mirror, at)
    {
      assert g.During(m, ops, direct, mirror, at);
      var v, n, m1 := 1 - g.task.xv % 2, |g.x|, RunOps(m, ops);
      SumStep(g, m, ops, V(v, j), RowAdds(es, j, g.rs));
      ForTerms(g, m);
      BalDirect(g.For(m), View(m1, v, n), TempView(m1, g.task.cpu, n), direct, mirror, at, Read(m1, Acc(g.task.cpu)), es, j,
                Sum(es, g.For(m).Term(j)), TempView(m1, g.task.cpu, n));
    }
  }

  lemma ForTerms(g: SymJob, m: Memory<Cell>)
    requires g.task.count <= |g.task.dv| && g.rs + g.task.count <= |g.x|
    ensures var h := g.For(m);
            && h.rs == g.rs && h.x == View(m, g.task.xv, |g.x|) && !h.alias && h.task == g.task
            && |h.z| == |h.tz| == |h.x| == |g.x|
  {
  }

  lemma KeepMirror(g: SymJob, ops: seq<Op<Cell>>, y: seq<real>, t: seq<real>, direct: seq<Entry>, mirror: seq<Entry>,
                   at: int, yr: real, es: seq<Entry>, c: nat, sum: real, y': seq<real>, t': seq<real>)
    requires g.Keeps(ops, y, t, direct, mirror, at, yr) && c < g.task.end && c < |y| && InCol(es, c + 1)
         && sum == Sum(es, g.Mirror(c))
    requires |t'| == |t|
    requires c >= g.rs || g.alias ==> y' == y[c := y[c] + sum] && (!g.alias ==> t' == t)
    requires c < g.rs && !g.alias ==> y' == y && t' == t[c := t[c] + sum]
    ensures g.Keeps(ops + [g.MirrorOp(es, c)], y', t', direct, mirror + es, at, yr)
  {
    hide SymJob.Bal, Within, SumOp, Sum, InCol, RunOps, SymJob.For;
    var w := if c < g.rs then Temp(g.task.cpu, c) else V(1 - g.task.xv % 2, c);
    BalMirror(g, y, t, direct, mirror, at, yr, es, c, sum, y', t');
    SumWithin(g, ops, w, ColAdds(es, c, g.rs));
    forall m
      ensures g.During(m, ops + [g.MirrorOp(es, c)], direct, mirror + es, at)
    {
      assert g.During(m, ops, direct, mirror, at);
      var v, n, m1, m2 := 1 - g.task.xv % 2, |g.x|, RunOps(m, ops), RunOps(m, ops + [g.MirrorOp(es, c)]);
      SumStep(g, m, ops, w, ColAdds(es, c, g.rs));
      ForTerms(g, m);
      BalMirror(g.For(m), View(m1, v, n), TempView(m1, g.task.cpu, n), direct, mirror, at, Read(m1, Acc(g.task.cpu)), es, c,
                Sum(es, g.For(m).Mirror(c)), View(m2, v, n), TempView(m2, g.task.cpu, n));
    }
  }

  lemma KeepRunning(g: SymJob, ops: seq<Op<Cell>>, y: seq<real>, t: seq<real>, direct: seq<Entry>, mirror: seq<Entry>,
                    at: int, yr: real, es: seq<Entry>, sum: real)
    requires g.Keeps(ops, y, t, direct, mirror, at, yr) && InRow(es, at - g.rs + 1) && sum == Sum(es, g.Term(at))
         && at >= 0
    ensures g.Keeps(ops + [g.RunningOp(es, at)], y, t, direct + es, mirror, at, yr + sum)
  {
    hide SymJob.Bal, Within, SumOp, Sum, InRow, RunOps, SymJob.For;
    BalRunning(g, y, t, direct, mirror, at, yr, es, sum);
    SumWithin(g, ops, Acc(g.task.cpu), RowAdds(es, at, g.rs));
    forall m
      ensures g.During(m, ops + [g.RunningOp(es, at)], direct + es, mirror, at)
    {
      assert g.During(m, ops, direct, mirror, at);
      var v, n, m1 := 1 - g.task.xv % 2, |g.x|, RunOps(m, ops);
      SumStep(g, m, ops, Acc(g.task.cpu), RowAdds(es, at, g.rs));
      ForTerms(g, m);
      BalRunning(g.For(m), View(m1, v, n), TempView(m1, g.task.cpu, n), direct, mirror, at, Read(m1, Acc(g.task.cpu)), es,
                 Sum(es, g.For(m).Term(at)));
    }
  }

  /** z with the diagonal products of the first n rows of the part added. */
  function AddDiagonal(z: seq<real>, rs: nat, n: nat, x: seq<real>, dv: seq<real>): (r: seq<real>)
    requires n <= |dv| && rs + n <= |x|
    ensures |r| == |z|
    ensures forall j {:trigger r[j]} :: 0 <= j < |z| ==> r[j] == if rs <= j < rs + n then z[j] + Mul(x[j], dv[j - rs]) else z[j]
  {
    seq(|z|, j requires 0 <= j < |z| => if rs <= j < rs + n then z[j] + Mul(x[j], dv[j - rs]) else z[j])
  }

  /** The multiplication with the diagonal of the first n rows counted as there from
      the start. */
  function WithDiagonal(g: SymJob, n: nat, dv: seq<real>): SymJob
    requires n <= |dv| && g.rs + n <= |g.x|
  {
    SymJob(AddDiagonal(g.z, g.rs, n, g.x, dv), g.tz, g.rs, g.x, g.alias, g.task.(dv := dv, count := n))
  }

  lemma BalDiagonal(g: SymJob, n: nat, dv: seq<real>, y: seq<real>, t: seq<real>, direct: seq<Entry>,
                    mirror: seq<Entry>, at: int, yr: real,
                    t': seq<real>)
    requires n < |dv| && g.rs + n < |g.x| && |g.x| == |g.z|
    requires WithDiagonal(g, n, dv).Bal(y, t, direct, mirror, at, yr)
    requires |t'| == |t| && (!g.alias ==> t' == t)
    ensures |y| == |g.z|
    ensures WithDiagonal(g, n + 1, dv).Bal(y[g.rs + n := y[g.rs + n] + Mul(g.x[g.rs + n], dv[n])], t', direct, mirror, at, yr)
  {
    hide RowTerm, MirrorTerm, Sum, Mul;
  }

  lemma BalLength(g: SymJob, n: nat, dv: seq<real>)
    requires n <= |dv| && g.rs + n <= |g.x|
    ensures |WithDiagonal(g, n, dv).z| == |g.z|
  {
  }

  /** The running sum goes to its row; any row may come next. */
  lemma SymFold(g: SymJob, y: seq<real>, t: seq<real>, acc: seq<Entry>, at: nat, yr: real, t': seq<real>)
    requires g.Bal(y, t, acc, acc, at, yr) && at < |y|
    requires |t'| == |t| && (!g.alias ==> t' == t)
    ensures g.Bal(y[at := y[at] + yr], t', acc, acc, -1, 0.0)
  {
    hide RowTerm, Sum, MirrorTerm;
  }

  lemma NextRow(g: SymJob, y: seq<real>, t: seq<real>, acc: seq<Entry>, next: int)
    requires g.Bal(y, t, acc, acc, -1, 0.0)
    ensures g.Bal(y, t, acc, acc, next, 0.0)
  {
    hide RowTerm, Sum, MirrorTerm;
  }

  /** The two steps that move the running sum to its row. */
  lemma FoldStep(g: SymJob, m: Memory<Cell>, ops: seq<Op<Cell>>, at: nat)
    requires g.task.xv < 2 && at < |g.x|
    ensures var m1, m2 := RunOps(m, ops), RunOps(m, ops + g.FoldOps(at));
            var n, v, cpu := |g.x|, 1 - g.task.xv % 2, g.task.cpu;
            && View(m2, g.task.xv, n) == View(m1, g.task.xv, n)
            && View(m2, v, n) == View(m1, v, n)[at := View(m1, v, n)[at] + Read(m1, Acc(cpu))]
            && TempView(m2, cpu, n) == TempView(m1, cpu, n) && Read(m2, Acc(cpu)) == 0.0
  {
    hide AddOp, Read, RunOps, Exec;
    var n, v, cpu := |g.x|, 1 - g.task.xv % 2, g.task.cpu;
    var first, second := AddOp(V(v, at), Acc(cpu)), Op(Acc(cpu), [], (r: seq<real>) => 0.0);
    var m1 := RunOps(m, ops);
    RunConcat(m, ops, g.FoldOps(at));
    RunConcat(m1, [first], [second]);
    RunOne(m1, first);
    var m2 := Exec(m1, first);
    RunOne(m2, second);
    forall c
      ensures Read(m2, c) == if c == V(v, at) then Read(m1, c) + Read(m1, Acc(cpu)) else Read(m1, c)
    {
      AddExec(m1, V(v, at), Acc(cpu), c);
    }
    ViewsAfter(m1, m2, V(v, at), Read(m1, Acc(cpu)), n, v, cpu);
    ViewsAfter(m1, m2, V(v, at), Read(m1, Acc(cpu)), n, g.task.xv, cpu);
    ClearExec(m2, Acc(cpu), second);
    ViewsAfter(m2, Exec(m2, second), Acc(cpu), 0.0 - Read(m2, Acc(cpu)), n, v, cpu);
    ViewsAfter(m2, Exec(m2, second), Acc(cpu), 0.0 - Read(m2, Acc(cpu)), n, g.task.xv, cpu);
  }

  lemma ClearExec(m: Memory<Cell>, w: Cell, op: Op<Cell>)
    requires op == Op(w, [], (r: seq<real>) => 0.0)
    ensures forall c :: Read(Exec(m, op), c) == if c == w then Read(m, w) + (0.0 - Read(m, w)) else Read(m, c)
  {
  }

  lemma FoldWithin(g: SymJob, ops: seq<Op<Cell>>, at: nat)
    requires var writes := Own(g.task.cpu, g.rs, g.task.end, g.task.xv);
             Within(ops, writes, Either(writes, Input(g.task.xv))) && g.rs <= at < g.task.end
    ensures var writes := Own(g.task.cpu, g.rs, g.task.end, g.task.xv);
            Within(ops + g.FoldOps(at), writes, Either(writes, Input(g.task.xv)))
  {
  }

  lemma KeepFold(g: SymJob, ops: seq<Op<Cell>>, y: seq<real>, t: seq<real>, acc: seq<Entry>, at: nat, yr: real,
                 t': seq<real>)
    requires g.Keeps(ops, y, t, acc, acc, at, yr) && g.rs <= at < g.task.end && at < |y|
    requires |t'| == |t| && (!g.alias ==> t' == t)
    ensures g.Keeps(ops + g.FoldOps(at), y[at := y[at] + yr], t', acc, acc, -1, 0.0)
  {
    hide SymJob.Bal, Within, RunOps, SymJob.For, SymJob.FoldOps;
    SymFold(g, y, t, acc, at, yr, t');
    FoldWithin(g, ops, at);
    forall m
      ensures g.During(m, ops + g.FoldOps(at), acc, acc, -1)
    {
      assert g.During(m, ops, acc, acc, at);
      var v, n, m1 := 1 - g.task.xv % 2, |g.x|, RunOps(m, ops);
      FoldStep(g, m, ops, at);
      ForTerms(g, m);
      SymFold(g.For(m), View(m1, v, n), TempView(m1, g.task.cpu, n), acc, at, Read(m1, Acc(g.task.cpu)),
              TempView(m1, g.task.cpu, n));
    }
  }

  /** Between rows the running sum is zero, whatever row comes next. */
  lemma KeepNext(g: SymJob, ops: seq<Op<Cell>>, y: seq<real>, t: seq<real>, acc: seq<Entry>, next: int)
    requires g.Keeps(ops, y, t, acc, acc, -1, 0.0)
    ensures g.Keeps(ops, y, t, acc, acc, next, 0.0)
  {
    hide SymJob.Bal, Within, RunOps, SymJob.For;
    NextRow(g, y, t, acc, next);
    forall m
      ensures g.During(m, ops, acc, acc, next)
    {
      assert g.During(m, ops, acc, acc, -1);
      var v, n, m1 := 1 - g.task.xv % 2, |g.x|, RunOps(m, ops);
      NextRow(g.For(m), View(m1, v, n), TempView(m1, g.task.cpu, n), acc, next);
    }
  }

  lemma ForDiagonal(g: SymJob, n: nat, dv: seq<real>, m: Memory<Cell>)
    requires g.task.count == 0 && n <= |dv| && g.rs + n <= |g.x|
    ensures WithDiagonal(g, n, dv).For(m) == WithDiagonal(g.For(m), n, dv)
  {
    var y, xs := Zeroed(View(m, 1 - g.task.xv % 2, |g.x|), g.rs, g.task.end), View(m, g.task.xv, |g.x|);
    assert AddDiagonal(y, g.rs, 0, xs, g.task.dv) == y;
  }

  lemma WithFacts(g: SymJob, n: nat, dv: seq<real>)
    requires n <= |dv| && g.rs + n <= |g.x|
    ensures var h := WithDiagonal(g, n, dv);
            h.rs == g.rs && h.x == g.x && h.alias == g.alias && h.task == g.task.(dv := dv, count := n)
  {
  }

  lemma DiagonalDuring(g: SymJob, n: nat, dv: seq<real>, ops: seq<Op<Cell>>, acc: seq<Entry>, m: Memory<Cell>)
    requires n < |dv| && g.rs + n < g.task.end <= |g.x| == |g.z| && g.task.count == 0 && g.task.xv < 2
    requires WithDiagonal(g, n, dv).During(m, ops, acc, acc, -1)
    ensures WithDiagonal(g, n + 1, dv).During(m, ops + [WithDiagonal(g, n, dv).DiagonalOp(n)], acc, acc, -1)
  {
    hide SymJob.Bal, SumOp, RunOps, SymJob.For, Mul, Read, WithDiagonal;
    WithFacts(g, n, dv);
    WithFacts(g, n + 1, dv);
    var h, v, len, j, cpu := WithDiagonal(g, n, dv), 1 - g.task.xv % 2, |g.x|, g.rs + n, g.task.cpu;
    var m1 := RunOps(m, ops);
    SumStep(h, m, ops, V(v, j), DiagonalAdds(dv, n, j));
    ForTerms(g, m);
    ForDiagonal(g, n, dv, m);
    ForDiagonal(g, n + 1, dv, m);
    BalDiagonal(g.For(m), n, dv, View(m1, v, len), TempView(m1, cpu, len), acc, acc, -1, Read(m1, Acc(cpu)),
                TempView(m1, cpu, len));
  }

  lemma KeepDiagonal(g: SymJob, n: nat, dv: seq<real>, ops: seq<Op<Cell>>, y: seq<real>, t: seq<real>, acc: seq<Entry>,
                     t': seq<real>)
    requires n < |dv| && g.rs + n < g.task.end <= |g.x| == |g.z| && g.task.count == 0
    requires WithDiagonal(g, n, dv).Keeps(ops, y, t, acc, acc, -1, 0.0)
    requires |t'| == |t| && (!g.alias ==> t' == t)
    ensures |y| == |g.z|
    ensures WithDiagonal(g, n + 1, dv).Keeps(ops + [WithDiagonal(g, n, dv).DiagonalOp(n)],
                                             y[g.rs + n := y[g.rs + n] + Mul(g.x[g.rs + n], dv[n])], t', acc, acc, -1, 0.0)
  {
    hide SymJob.Bal, Within, SumOp, RunOps, SymJob.For, SymJob.During, Mul, Read, WithDiagonal;
    WithFacts(g, n, dv);
    WithFacts(g, n + 1, dv);
    var h, h' := WithDiagonal(g, n, dv), WithDiagonal(g, n + 1, dv);
    BalDiagonal(g, n, dv, y, t, acc, acc, -1, 0.0, t');
    SumWithin(h, ops, V(1 - g.task.xv % 2, g.rs + n), DiagonalAdds(dv, n, g.rs + n));
    forall m
      ensures h'.During(m, ops + [h.DiagonalOp(n)], acc, acc, -1)
    {
      assert h.During(m, ops, acc, acc, -1);
      DiagonalDuring(g, n, dv, ops, acc, m);
    }
  }

  /** The places of a strictly lower triangle with n rows that begin at place rs. */
  ghost predicate Lower(es: seq<Entry>, rs: nat, n: nat) {
    forall e :: e in es ==> 1 <= e.at.y <= n && 1 <= e.at.x < e.at.y + rs
  }

  /** What place j gets from the diagonal, its own row, and the mirror images. */
  ghost predicate SymProduct(yj: real, es: seq<Entry>, rs: nat, j: nat, x: seq<real>, dv: seq<real>)
    requires rs <= j < |x| && j - rs < |dv|
  {
    yj == x[j] * dv[j - rs] + RowProduct(es, x, j - rs + 1) + Sum(es, MirrorTerm(j, rs, x))
  }

  lemma NoDiagonal(g: SymJob, dv: seq<real>)
    requires g.rs <= |g.x|
    ensures WithDiagonal(g, 0, dv) == g.(task := g.task.(dv := dv, count := 0))
  {
    assert AddDiagonal(g.z, g.rs, 0, g.x, dv) == g.z;
  }

  lemma EmptyBal(g: SymJob, at: int)
    requires |g.z| == |g.tz|
    ensures g.Bal(g.z, g.tz, [], [], at, 0.0)
  {
    forall j
      ensures Sum([], g.Term(j)) == 0.0 && Sum([], g.Mirror(j)) == 0.0
    {
    }
  }

  /** All cells are visited and the diagonal of all rows is applied. */
  lemma FinishSym(g: SymJob, n: nat, dv: seq<real>, y: seq<real>, t: seq<real>, cells: seq<Entry>)
    requires n <= |dv| && g.rs + n <= |g.x| == |g.z| && Lower(cells, g.rs, n)
    requires WithDiagonal(g, n, dv).Bal(y, t, cells, cells, -1, 0.0)
    requires forall j :: g.rs <= j < g.rs + n ==> g.z[j] == 0.0
    ensures |y| == |g.z| == |t| == |g.tz|
    ensures forall j :: g.rs <= j < g.rs + n ==> SymProduct(y[j], cells, g.rs, j, g.x, dv)
    ensures forall j :: 0 <= j < |y| && !(g.rs <= j < g.rs + n) ==>
              y[j] == g.z[j] + if j < g.rs && g.alias then Sum(cells, MirrorTerm(j, g.rs, g.x)) else 0.0
    ensures !g.alias ==> forall c :: 0 <= c < |t| ==> t[c] == g.tz[c] + if c < g.rs then Sum(cells, MirrorTerm(c, g.rs, g.x)) else 0.0
  {
    hide RowTerm, Sum, MirrorTerm;
    forall j | 0 <= j < |y| && !(g.rs <= j < g.rs + n)
      ensures y[j] == g.z[j] + if j < g.rs && g.alias then Sum(cells, MirrorTerm(j, g.rs, g.x)) else 0.0
    {
      NoTerm(cells, j - g.rs + 1, g.x);
      if j >= g.rs {
        NoMirror(cells, j, g.rs, g.x);
      }
    }
  }

  /** A column without entries gets nothing. */
  lemma {:induction false} NoMirror(es: seq<Entry>, c: int, rs: nat, x: seq<real>)
    requires forall e :: e in es ==> e.at.x != c + 1
    ensures Sum(es, MirrorTerm(c, rs, x)) == 0.0
  {
    if es != [] {
      NoMirror(es[..|es| - 1], c, rs, x);
    }
  }

  // ----- From the first step to the last

  function ZeroRowOps(v: nat, rs: nat, k: nat): seq<Op<Cell>> {
    if k == 0 then [] else ZeroRowOps(v, rs, k - 1) + [Op(V(v, rs + k - 1), [], (r: seq<real>) => 0.0)]
  }

  lemma {:induction false} ZeroRowsRun(m: Memory<Cell>, v: nat, rs: nat, k: nat)
    ensures forall c :: Read(RunOps(m, ZeroRowOps(v, rs, k)), c)
                     == if c.V? && c.which == v && rs <= c.pos < rs + k then 0.0 else Read(m, c)
  {
    if k > 0 {
      var init, last := ZeroRowOps(v, rs, k - 1), Op(V(v, rs + k - 1), [], (r: seq<real>) => 0.0);
      ZeroRowsRun(m, v, rs, k - 1);
      RunConcat(m, init, [last]);
      RunOne(RunOps(m, init), last);
      ClearExec(RunOps(m, init), V(v, rs + k - 1), last);
    }
  }

  lemma {:induction false} ZeroRowsWithin(v: nat, rs: nat, k: nat, writes: Cell -> bool, sees: Cell -> bool)
    requires forall j: nat :: rs <= j < rs + k ==> writes(V(v, j))
    ensures Within(ZeroRowOps(v, rs, k), writes, sees)
  {
    if k > 0 {
      ZeroRowsWithin(v, rs, k - 1, writes, sees);
    }
  }

  /** The rows of the part and the running sum are cleared first. */
  function StartOps(g: SymJob): seq<Op<Cell>>
    requires g.rs <= g.task.end
  {
    ZeroRowOps(1 - g.task.xv % 2, g.rs, g.task.end - g.rs) + [Op(Acc(g.task.cpu), [], (r: seq<real>) => 0.0)]
  }

  lemma StartRun(g: SymJob, m: Memory<Cell>)
    requires g.task.xv < 2 && g.rs <= g.task.end <= |g.x|
    ensures var m', n, v := RunOps(m, StartOps(g)), |g.x|, 1 - g.task.xv % 2;
            && View(m', g.task.xv, n) == View(m, g.task.xv, n)
            && View(m', v, n) == Zeroed(View(m, v, n), g.rs, g.task.end)
            && TempView(m', g.task.cpu, n) == TempView(m, g.task.cpu, n) && Read(m', Acc(g.task.cpu)) == 0.0
  {
    hide RunOps, Read, Exec;
    var zeros, last := ZeroRowOps(1 - g.task.xv % 2, g.rs, g.task.end - g.rs), Op(Acc(g.task.cpu), [],
          (r: seq<real>) => 0.0);
    ZeroRowsRun(m, 1 - g.task.xv % 2, g.rs, g.task.end - g.rs);
    RunConcat(m, zeros, [last]);
    RunOne(RunOps(m, zeros), last);
    ClearExec(RunOps(m, zeros), Acc(g.task.cpu), last);
  }

  lemma KeepStart(g: SymJob, at: nat)
    requires g.task.xv < 2 && g.rs <= g.task.end <= |g.x| == |g.z| == |g.tz| && g.task.count == 0
    ensures g.Keeps(StartOps(g), g.z, g.tz, [], [], at, 0.0)
  {
    hide SymJob.Bal, RunOps, StartOps, Read;
    EmptyBal(g, at);
    StartWithin(g);
    forall m
      ensures g.During(m, StartOps(g), [], [], at)
    {
      StartRun(g, m);
      EmptyBal(g.For(m), at);
      var y, xs := Zeroed(View(m, 1 - g.task.xv % 2, |g.x|), g.rs, g.task.end), View(m, g.task.xv, |g.x|);
      assert AddDiagonal(y, g.rs, 0, xs, g.task.dv) == y;
    }
  }

  lemma StartWithin(g: SymJob)
    requires g.rs <= g.task.end
    ensures var writes := Own(g.task.cpu, g.rs, g.task.end, g.task.xv);
            Within(StartOps(g), writes, Either(writes, Input(g.task.xv)))
  {
    var writes := Own(g.task.cpu, g.rs, g.task.end, g.task.xv);
    ZeroRowsWithin(1 - g.task.xv % 2, g.rs, g.task.end - g.rs, writes, Either(writes, Input(g.task.xv)));
  }

  /** What the steps of a part leave: its rows in y, and what falls on earlier rows added
      to its temporary vector. */
  ghost predicate PartAdded(m: Memory<Cell>, m': Memory<Cell>, es: seq<Entry>, cpu: nat, xv: nat, rs: nat, rows: nat,
                            n: nat, dv: seq<real>)
    requires rs + rows <= n && rows <= |dv|
  {
    && SymRows(View(m', 1 - xv % 2, n), es, rs, rows, View(m, xv, n), dv)
    && SymTemps(TempView(m', cpu, n), TempView(m, cpu, n), es, rs, View(m, xv, n))
  }

  ghost predicate SymRows(y: seq<real>, es: seq<Entry>, rs: nat, rows: nat, x: seq<real>, dv: seq<real>)
    requires rs + rows <= |y| == |x| && rows <= |dv|
  {
    forall j {:trigger y[j]} :: rs <= j < rs + rows ==> SymProduct(y[j], es, rs, j, x, dv)
  }

  ghost predicate SymTemps(t: seq<real>, t0: seq<real>, es: seq<Entry>, rs: nat, x: seq<real>)
    requires rs <= |t| == |t0|
  {
    forall c {:trigger t[c]} :: 0 <= c < rs ==> t[c] == t0[c] + Sum(es, MirrorTerm(c, rs, x))
  }

  /** Steps of thread `cpu` that multiply a part, whatever memory they begin with, and touch
      only what is its own and the input vector. */
  ghost predicate Performs(ops: seq<Op<Cell>>, es: seq<Entry>, cpu: nat, xv: nat, rs: nat, rows: nat, n: nat,
                           dv: seq<real>) {
    && xv < 2 && rs + rows <= n && rows <= |dv|
    && Within(ops, Own(cpu, rs, rs + rows, xv), Either(Own(cpu, rs, rs + rows, xv), Input(xv)))
    && forall m :: PartAdded(m, RunOps(m, ops), es, cpu, xv, rs, rows, n, dv)
  }

  lemma Performed(g: SymJob, rows: nat, dv: seq<real>, ops: seq<Op<Cell>>, cells: seq<Entry>)
    requires rows <= |dv| && g.rs + rows == g.task.end <= |g.x| == |g.z| && Lower(cells, g.rs, rows)
         && g.task.count == 0
    requires WithDiagonal(g, rows, dv).Does(ops, cells, cells, -1)
    ensures Performs(ops, cells, g.task.cpu, g.task.xv, g.rs, rows, |g.x|, dv)
  {
    hide SymJob.Bal, Within, RunOps, SymProduct, Lower, Sum, Read, WithDiagonal;
    WithFacts(g, rows, dv);
    var v, n, h, cpu := 1 - g.task.xv % 2, |g.x|, WithDiagonal(g, rows, dv), g.task.cpu;
    forall m
      ensures PartAdded(m, RunOps(m, ops), cells, cpu, g.task.xv, g.rs, rows, n, dv)
    {
      assert h.During(m, ops, cells, cells, -1);
      var m' := RunOps(m, ops);
      ForDiagonal(g, rows, dv, m);
      FinishFor(g, m, rows, dv, View(m', v, n), TempView(m', cpu, n), cells, Read(m', Acc(cpu)));
    }
  }

  lemma FinishFor(g: SymJob, m: Memory<Cell>, rows: nat, dv: seq<real>, y: seq<real>, t: seq<real>, cells: seq<Entry>,
                  yr: real)
    requires rows <= |dv| && g.rs + rows == g.task.end <= |g.x| && Lower(cells, g.rs, rows) && g.task.count == 0
    requires WithDiagonal(g.For(m), rows, dv).Bal(y, t, cells, cells, -1, yr) && yr == 0.0
    ensures |y| == |t| == |g.x| && SymRows(y, cells, g.rs, rows, View(m, g.task.xv, |g.x|), dv)
    ensures SymTemps(t, TempView(m, g.task.cpu, |g.x|), cells, g.rs, View(m, g.task.xv, |g.x|))
  {
    hide SymJob.Bal, SymProduct, Lower, Sum, MirrorTerm, Read;
    ForTerms(g, m);
    FinishSym(g.For(m), rows, dv, y, t, cells);
  }
}

/** The start of the conjugate gradient iteration over printed CSX parts: each part is
    multiplied by its kernel, into the vector r that is zeroed before and added up after. */
module CsxCg {
  import opened Orders
  import opened Matrix
  import opened Products
  import opened Encoding
  import opened Ctl
  import opened Spmv
  import opened CsxPrinter
  import opened CsxKernel
  import opened SymSteps
  import opened SymCsx
  import opened Load
  import opened CsxThreads
  import opened CgAlgebra
  import opened CgInit
  import opened SymOperator
  import SymMap
  import SymMatrix

  // ----- Parts of a symmetric matrix

  /** What part t adds to place q of the product. */
  function Gives(parts: seq<CsxSym>, from: seq<Source>, starts: seq<nat>, t: nat, x: seq<real>, q: nat): real
    requires t < |parts| && t < |from| && t < |starts| && q < |x|
  {
    (if starts[t] <= q < starts[t] + |parts[t].dvalues| then x[q] * parts[t].dvalues[q - starts[t]] else 0.0)
    + Contribution(from[t].Es(), starts[t], x, q)
  }

  /** What the first k parts add. */
  function GivesUpTo(parts: seq<CsxSym>, from: seq<Source>, starts: seq<nat>, k: nat, x: seq<real>, q: nat): real
    requires k <= |parts| && k <= |from| && k <= |starts| && q < |x|
  {
    if k == 0 then 0.0 else GivesUpTo(parts, from, starts, k - 1, x, q) + Gives(parts, from, starts, k - 1, x, q)
  }

  /** All parts give the diagonal of q's own part and what each one contributes. */
  lemma {:induction false} GivesAll(parts: seq<CsxSym>, from: seq<Source>, starts: seq<nat>, n: nat, k: nat,
                                    x: seq<real>, q: nat, t: nat)
    requires AllReady(parts, from, starts, n) && k <= |parts| && q < |x| && t < |parts|
         && starts[t] <= q < starts[t + 1]
    ensures GivesUpTo(parts, from, starts, k, x, q)
         == (if t < k then x[q] * parts[t].dvalues[q - starts[t]] else 0.0) + Contributions(from, starts, k, x, q)
  {
    hide AllReady, Contribution, Gives;
    PartBounds(parts, from, starts, n, t);
    if k > 0 {
      GivesAll(parts, from, starts, n, k - 1, x, q, t);
      GivesOne(parts, from, starts, n, k - 1, x, q, t);
    }
  }

  /** Only the part that q is in has its diagonal value. */
  lemma GivesOne(parts: seq<CsxSym>, from: seq<Source>, starts: seq<nat>, n: nat, i: nat, x: seq<real>, q: nat, t: nat)
    requires AllReady(parts, from, starts, n) && i < |parts| && q < |x| && t < |parts| && starts[t] <= q < starts[t + 1]
    ensures q - starts[t] < |parts[t].dvalues| && Gives(parts, from, starts, i, x, q)
         == (if t == i then x[q] * parts[t].dvalues[q - starts[t]] else 0.0) + Contribution(from[i].Es(), starts[i], x, q)
  {
    hide PartReady, Contribution, SymMap.Partition;
    assert |parts[i].dvalues| == starts[i + 1] - starts[i] && |parts[t].dvalues| == starts[t + 1] - starts[t];
    if i != t {
      OtherPart(starts, n, i, t, q);
    }
  }

  lemma PartBounds(parts: seq<CsxSym>, from: seq<Source>, starts: seq<nat>, n: nat, t: nat)
    requires AllReady(parts, from, starts, n) && t < |parts|
    ensures |parts| == |from| < |starts| && |parts[t].dvalues| == starts[t + 1] - starts[t]
  {
    hide PartReady, SymMap.Partition;
  }

  lemma OtherPart(starts: seq<nat>, n: nat, i: nat, t: nat, q: nat)
    requires SymMap.Partition(starts, n) && i + 1 < |starts| && t + 1 < |starts| && starts[t] <= q < starts[t + 1]
         && i != t
    ensures !(starts[i] <= q < starts[i + 1])
  {
  }

  /** Outside the rows of a part only mirror images count, behind them nothing. */
  lemma OutsideRows(s: Source, start: nat, x: seq<real>, q: nat)
    requires Lower(s.Es(), start, s.d.rows)
    ensures q < start ==> Contribution(s.Es(), start, x, q) == Sum(s.Es(), MirrorTerm(q, start, x))
    ensures q >= start + s.d.rows ==> Contribution(s.Es(), start, x, q) == 0.0
  {
    hide Sum, MirrorTerm, RowTerm, Cells;
    if q < start || q >= start + s.d.rows {
      NoTerm(s.Es(), q - start + 1, x);
    }
    if q >= start + s.d.rows {
      NoMirror(s.Es(), q, start, x);
    }
  }

  /** One part into a zeroed vector that serves as y and as the temporary vector. */
  method MultiplyIntoZero(parts: seq<CsxSym>, starts: seq<nat>, n: nat, x: seq<real>, r: array<real>,
                          ghost from: seq<Source>, t: nat)
    requires AllReady(parts, from, starts, n) && AllComplete(parts, from) && t < |parts| && |x| == r.Length == n
    requires forall q :: 0 <= q < n ==> r[q] == 0.0
    modifies r
    ensures forall q :: 0 <= q < n ==> r[q] == Gives(parts, from, starts, t, x, q)
  {
    hide Sum, MirrorTerm, Cells, Represents, Lower, SymMatrix.AllSingles, PartReady, Performs, RowTerm;
    ghost var s := from[t];
    assert s.d.rows == |parts[t].dvalues| == starts[t + 1] - starts[t] && starts[t + 1] <= n;
    PartIsLower(parts[t], s, starts[t]);
    ghost var log := SymCsx.MultiplyPart(parts[t], starts[t], n, x, r, r, s, 0, 0);
    forall q | 0 <= q < n
      ensures r[q] == Gives(parts, from, starts, t, x, q)
    {
      OutsideRows(s, starts[t], x, q);
      if starts[t] <= q < starts[t] + s.d.rows {
        assert SymProduct(r[q], s.Es(), starts[t], q, x, parts[t].dvalues);
      }
    }
  }

  lemma PartIsLower(part: CsxSym, s: Source, start: nat)
    requires PartReady(part, s.us, s.d, s.encoded, s.loaded, start)
    ensures Lower(s.Es(), start, s.d.rows)
  {
    hide Represents, Cells, Lower, SymMatrix.AllSingles;
  }

  /** x := 0.01, r := b - A x, p := r, for the printed parts of a symmetric matrix. */
  method InitializeCsxSymCg(parts: seq<CsxSym>, starts: seq<nat>, n: nat, x: array<real>, r: array<real>,
                            p: array<real>, b: array<real>, temp: array<real>, ghost from: seq<Source>, ghost op: Vec -> Vec)
    requires AllReady(parts, from, starts, n) && AllComplete(parts, from) && Computes(op, parts, from, starts, n)
    requires x.Length == r.Length == p.Length == b.Length == temp.Length == n
    requires x != r && x != p && x != temp && r != p && r != temp && r != b && p != temp && p != b && b != temp
         && x != b
    modifies x, r, p, temp
    ensures forall i :: 0 <= i < n ==> x[i] == 0.01
    ensures Started(op, b[..], n, State(x[..], r[..], p[..]))
  {
    hide Axpy, PartReady, AllComplete, Computes, Gives;
    Init(x, 0.01);
    Init(temp, 0.0);
    ghost var x0 := x[..];
    var i := 0;
    while i < |parts|
      invariant 0 <= i <= |parts| && x[..] == x0
      invariant forall q :: 0 <= q < n ==> temp[q] == GivesUpTo(parts, from, starts, i, x0, q)
    {
      Init(r, 0.0);
      MultiplyIntoZero(parts, starts, n, x[..], r, from, i);
      Add(temp, r);
      i := i + 1;
    }
    AllGiven(op, parts, from, starts, n, x0, temp[..]);
    Sub(b, temp, r);
    CgInit.Copy(r, p);
  }

  lemma AllGiven(op: Vec -> Vec, parts: seq<CsxSym>, from: seq<Source>, starts: seq<nat>, n: nat, x: seq<real>,
                 y: seq<real>)
    requires AllReady(parts, from, starts, n) && Computes(op, parts, from, starts, n) && |x| == |y| == n
    requires forall q :: 0 <= q < n ==> y[q] == GivesUpTo(parts, from, starts, |parts|, x, q)
    ensures y == op(x)
  {
    hide PartReady, Contributions, GivesUpTo;
    var z := op(x);
    forall q: nat | q < n
      ensures y[q] == z[q]
    {
      var t := SymMap.CutOf(starts, n, q, |parts|);
      GivesAll(parts, from, starts, n, |parts|, x, q, t);
      assert parts[t] == parts[t];
      assert RowRight(y[q], parts, from, starts, x, q, t);
    }
  }

  // ----- Parts of any matrix

  /** A part as it was printed: the encoded rows hold the cells of the loaded ones. */
  ghost predicate Printed(csx: Csx, us: seq<Unit>, encoded: Rows, rows: Rows, cols: nat, start: nat) {
    && Represents(csx, us, Dims(|rows|, cols), encoded, 0) && us != [] && csx.rowStart == start
    && Prepared(Dims(|rows|, cols), rows, encoded)
  }

  /** The rows of one part, into r. */
  method MultiplyPrinted(csx: Csx, x: seq<real>, r: array<real>, ghost us: seq<Unit>, ghost encoded: Rows,
                         ghost points: seq<Coo>, ghost cols: nat, ghost rowss: seq<Rows>, ghost starts: seq<nat>, ghost cuts: seq<nat>, ghost i: nat)
    requires Divided(points, cols, rowss, starts, cuts) && i < |rowss| && i + 1 < |starts|
    requires Printed(csx, us, encoded, rowss[i], cols, starts[i]) && starts[i + 1] <= r.Length && cols <= |x|
    modifies r
    ensures RowsRight(r[..], points, x, starts[i], starts[i + 1])
    ensures forall q :: 0 <= q < r.Length && !(starts[i] <= q < starts[i + 1]) ==> r[q] == old(r[q])
  {
    hide Divided, Represents, Cells, RowProduct, Valid, SmallPatterns, Points;
    PartIs(points, cols, rowss, starts, cuts, i);
    ghost var d := Dims(|rowss[i]|, cols);
    InsideBounds(d, rowss[i], encoded);
    NrRowsAre(csx, us, d, encoded, 0);
    var pos, v := Multiply(csx, x, r, us, d, encoded, 0);
    forall j | starts[i] <= j < starts[i + 1]
      ensures r[j] == RowProduct(Cells(Horizontal, d, rowss[i]), x, j - starts[i] + 1)
    {
      SameRow(Cells(Horizontal, d, encoded), Cells(Horizontal, d, rowss[i]), x, j - starts[i] + 1);
    }
    PartRight(points, cols, rowss, starts, cuts, i, x, r[..]);
  }

  lemma SameRow(a: seq<Entry>, b: seq<Entry>, x: seq<real>, i: int)
    requires multiset(a) == multiset(b)
    ensures RowProduct(a, x, i) == RowProduct(b, x, i)
  {
    hide RowTerm;
    SumPerm(a, b, RowTerm(i, x));
  }

  lemma InsideBounds(d: Dims, rows: Rows, encoded: Rows)
    requires Prepared(d, rows, encoded)
    ensures multiset(Cells(Horizontal, d, encoded)) == multiset(Cells(Horizontal, d, rows))
    ensures forall e :: e in Cells(Horizontal, d, encoded) ==> InBounds(d, e.at)
  {
    hide SmallPatterns, GoodPoints, Tight, PointCells, Points;
    PointCellsInBounds(Horizontal, d, Points(encoded));
  }

  /** x := 0.01, r := b - A x, p := r, for the printed parts of a matrix with n rows and
      columns. */
  method InitializeCsxCg(csxs: seq<Csx>, n: nat, x: array<real>, r: array<real>, p: array<real>, b: array<real>,
                         temp: array<real>, ghost uss: seq<seq<Unit>>, ghost encoded: seq<Rows>, ghost points: seq<Coo>, ghost rowss: seq<Rows>,
                         ghost starts: seq<nat>, ghost cuts: seq<nat>)
    requires Divided(points, n, rowss, starts, cuts) && forall k :: 0 <= k < |points| ==> points[k].e.Single? && points[k].y <= n
    requires |csxs| == |uss| == |encoded| == |rowss| < |starts|
    requires forall i {:trigger csxs[i]} :: 0 <= i < |csxs| ==> Printed(csxs[i], uss[i], encoded[i], rowss[i], n, starts[i])
    requires x.Length == r.Length == p.Length == b.Length == temp.Length == n
    requires x != r && x != p && x != temp && r != p && r != temp && r != b && p != temp && p != b && b != temp
         && x != b
    modifies x, r, p, temp
    ensures forall i :: 0 <= i < n ==> x[i] == 0.01
    ensures Started(TimesList(points, n), b[..], n, State(x[..], r[..], p[..]))
  {
    hide Axpy, Divided, Printed, RowProduct, EntriesOf;
    Init(x, 0.01);
    Init(temp, 0.0);
    ghost var x0 := x[..];
    StartsAscend(points, n, rowss, starts, cuts);
    LastStart(points, n, rowss, starts, cuts, n);
    FirstStart(points, n, rowss, starts, cuts);
    var i := 0;
    while i < |csxs|
      invariant 0 <= i <= |csxs| && x[..] == x0
      invariant forall q :: 0 <= q < n ==> temp[q] == if q < starts[i] then RowProduct(EntriesOf(points), x0, q + 1) else 0.0
    {
      assert starts[i] <= starts[i + 1] <= starts[|rowss|];
      Init(r, 0.0);
      MultiplyPrinted(csxs[i], x[..], r, uss[i], encoded[i], points, n, rowss, starts, cuts, i);
      Add(temp, r);
      i := i + 1;
    }
    forall q | 0 <= q < n
      ensures temp[q] == RowProduct(EntriesOf(points), x0, q + 1)
    {
      if q >= starts[i] {
        NothingBehind(points, x0, q + 1);
      }
    }
    assert temp[..] == TimesList(points, n)(x0);
    Sub(b, temp, r);
    CgInit.Copy(r, p);
  }

  lemma FirstStart(points: seq<Coo>, cols: nat, rowss: seq<Rows>, starts: seq<nat>, cuts: seq<nat>)
    requires Divided(points, cols, rowss, starts, cuts)
    ensures |starts| == |rowss| + 1 && starts[0] == 0
  {
    hide PartRowsAre, Load.Input;
  }

  lemma NothingBehind(points: seq<Coo>, x: seq<real>, i: int)
    requires forall k :: 0 <= k < |points| ==> points[k].e.Single? && points[k].y != i
    ensures RowProduct(EntriesOf(points), x, i) == 0.0
  {
    CsxKernel.NoTerm(EntriesOf(points), i, x);
  }

  /** It is a linear operation, as the iteration needs. */
  lemma ListLinear(points: seq<Coo>, n: nat)
    requires forall k :: 0 <= k < |points| ==> points[k].e.Single?
    ensures Linear(TimesList(points, n), n)
  {
    hide RowProduct, EntriesOf;
    var op, es := TimesList(points, n), EntriesOf(points);
    forall u: Vec, c, v: Vec | |u| == |v| == n
      ensures op(Axpy(u, c, v)) == Axpy(op(u), c, op(v))
    {
      var l, r := op(Axpy(u, c, v)), Axpy(op(u), c, op(v));
      forall p | 0 <= p < n
        ensures l[p] == r[p]
      {
        RowLinear(es, u, c, v, p + 1);
      }
    }
  }

  lemma TermIs(e: Entry, i: int, x: seq<real>)
    ensures RowTerm(i, x)(e) == if e.at.y == i && 1 <= e.at.x <= |x| then Mul(e.val, x[e.at.x - 1]) else 0.0
  {
  }

  lemma RowLinear(es: seq<Entry>, u: Vec, c: real, v: Vec, i: int)
    requires |u| == |v|
    ensures RowProduct(es, Axpy(u, c, v), i) == RowProduct(es, u, i) + Mul(c, RowProduct(es, v, i))
  {
    hide Mul, Sum;
    var w := Axpy(u, c, v);
    forall k | 0 <= k < |es|
      ensures RowTerm(i, w)(es[k]) == RowTerm(i, u)(es[k]) + Mul(c, RowTerm(i, v)(es[k]))
    {
      var e := es[k];
      MulZero(c);
      TermIs(e, i, u);
      TermIs(e, i, v);
      TermIs(e, i, w);
      if e.at.y == i && 1 <= e.at.x <= |u| {
        MulAxpy(e.val, u[e.at.x - 1], c, v[e.at.x - 1]);
      }
    }
    SumLinear(es, RowTerm(i, w), RowTerm(i, u), RowTerm(i, v), c);
  }
}

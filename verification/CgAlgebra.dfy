/** The conjugate gradient iteration on exact numbers.

    `Iterate` is the sequential algorithm.  For a linear symmetric operator, as long
    as no division is by zero: the residual is b - A x, all residuals are orthogonal
    to each other and to all earlier directions, and all directions are A-conjugate. */
module CgAlgebra {
  import opened Products

  type Vec = seq<real>

  function Dot(u: Vec, v: Vec): real {
    if |u| == 0 || |v| != |u| then 0.0 else Dot(u[..|u| - 1], v[..|u| - 1]) + Mul(u[|u| - 1], v[|u| - 1])
  }

  /** u + c v */
  function Axpy(u: Vec, c: real, v: Vec): (r: Vec)
    ensures |r| == |u|
    ensures forall i {:trigger r[i]} :: 0 <= i < |u| ==> r[i] == if i < |v| then u[i] + Mul(c, v[i]) else u[i]
  {
    seq(|u|, i requires 0 <= i < |u| => if i < |v| then u[i] + Mul(c, v[i]) else u[i])
  }

  lemma {:induction false} DotComm(u: Vec, v: Vec)
    ensures Dot(u, v) == Dot(v, u)
  {
    hide Mul;
    if |u| == |v| && |u| > 0 {
      var n := |u| - 1;
      DotComm(u[..n], v[..n]);
      MulComm(u[n], v[n]);
    }
  }

  lemma AxpyPrefix(u: Vec, c: real, v: Vec, n: nat)
    requires n <= |u| == |v|
    ensures Axpy(u, c, v)[..n] == Axpy(u[..n], c, v[..n])
  {
    hide Mul;
    var l, r := Axpy(u, c, v)[..n], Axpy(u[..n], c, v[..n]);
    forall i | 0 <= i < n
      ensures l[i] == r[i]
    {
      assert Axpy(u, c, v)[i] == u[i] + Mul(c, v[i]);
    }
  }

  lemma {:induction false} DotAxpy(u: Vec, c: real, v: Vec, w: Vec)
    requires |u| == |v| == |w|
    ensures Dot(Axpy(u, c, v), w) == Dot(u, w) + Mul(c, Dot(v, w))
  {
    hide Mul;
    if |u| == 0 {
      MulZero(c);
    } else {
      var n := |u| - 1;
      DotAxpy(u[..n], c, v[..n], w[..n]);
      AxpyPrefix(u, c, v, n);
      MulLeft(u[n], Mul(c, v[n]), w[n]);
      MulAssoc(c, v[n], w[n]);
      MulRight(c, Dot(v[..n], w[..n]), Mul(v[n], w[n]));
    }
  }

  lemma MulZero(a: real)
    ensures Mul(a, 0.0) == 0.0 && Mul(0.0, a) == 0.0
  {
  }

  // ----- The operator

  ghost predicate Linear(op: Vec -> Vec, n: nat) {
    && (forall u {:trigger op(u)} :: |u| == n ==> |op(u)| == n)
    && forall u, c, v :: |u| == |v| == n ==> op(Axpy(u, c, v)) == Axpy(op(u), c, op(v))
  }

  ghost predicate Symmetric(op: Vec -> Vec, n: nat) {
    forall u, v :: |u| == |v| == n ==> Dot(op(u), v) == Dot(u, op(v))
  }

  // ----- The iteration

  datatype State = State(x: Vec, r: Vec, p: Vec)
  {
    predicate Sized(n: nat) {
      |x| == |r| == |p| == n
    }
  }

  function Div(a: real, b: real): real {
    if b == 0.0 then 0.0 else a / b
  }

  function Ai(op: Vec -> Vec, s: State): real {
    Div(Dot(s.r, s.r), Dot(op(s.p), s.p))
  }

  /** r - ai A p */
  function NextR(op: Vec -> Vec, s: State): Vec {
    Axpy(s.r, -Ai(op, s), op(s.p))
  }

  function Bi(op: Vec -> Vec, s: State): real {
    Div(Dot(NextR(op, s), NextR(op, s)), Dot(s.r, s.r))
  }

  function Next(op: Vec -> Vec, s: State): State {
    State(Axpy(s.x, Ai(op, s), s.p), NextR(op, s), Axpy(NextR(op, s), Bi(op, s), s.p))
  }

  function Iterate(op: Vec -> Vec, s: State, k: nat): State {
    if k == 0 then s else Next(op, Iterate(op, s, k - 1))
  }

  /** Where the iteration begins: the residual of x, which is also the direction. */
  predicate Started(op: Vec -> Vec, b: Vec, n: nat, s: State) {
    s.Sized(n) && |b| == n && s.r == Axpy(b, -1.0, op(s.x)) && s.p == s.r
  }

  lemma {:induction false} SizedAlways(op: Vec -> Vec, n: nat, s: State, k: nat)
    requires Linear(op, n) && s.Sized(n)
    ensures Iterate(op, s, k).Sized(n)
  {
    if k > 0 {
      SizedAlways(op, n, s, k - 1);
    }
  }

  // ----- The residual

  lemma ResidualStep(b: Vec, ax: Vec, a: real, ap: Vec)
    requires |b| == |ax| == |ap|
    ensures Axpy(Axpy(b, -1.0, ax), -a, ap) == Axpy(b, -1.0, Axpy(ax, a, ap))
  {
    hide Mul;
    var l, r := Axpy(Axpy(b, -1.0, ax), -a, ap), Axpy(b, -1.0, Axpy(ax, a, ap));
    forall i | 0 <= i < |b|
      ensures l[i] == r[i]
    {
      MulNeg(a, ap[i]);
      MulNeg(1.0, ax[i]);
      MulNeg(1.0, ax[i] + Mul(a, ap[i]));
      MulUnit(ax[i]);
      MulUnit(ax[i] + Mul(a, ap[i]));
    }
  }

  lemma MulUnit(a: real)
    ensures Mul(1.0, a) == a
  {
  }

  /** r = b - A x after every iteration, whatever the divisions give. */
  lemma {:induction false} Residual(op: Vec -> Vec, n: nat, b: Vec, s: State, k: nat)
    requires Linear(op, n) && Started(op, b, n, s)
    ensures var t := Iterate(op, s, k); t.r == Axpy(b, -1.0, op(t.x))
  {
    hide Mul, Ai, Bi, Axpy;
    if k > 0 {
      Residual(op, n, b, s, k - 1);
      SizedAlways(op, n, s, k - 1);
      var t := Iterate(op, s, k - 1);
      ResidualStep(b, op(t.x), Ai(op, t), op(t.p));
    }
  }

  // ----- Orthogonality

  /** No division by zero before iteration k. */
  ghost predicate Defined(op: Vec -> Vec, s: State, k: nat) {
    forall i: nat :: i < k ==>
      Dot(Iterate(op, s, i).r, Iterate(op, s, i).r) != 0.0 && Dot(op(Iterate(op, s, i).p), Iterate(op, s, i).p) != 0.0
  }

  ghost function RR(op: Vec -> Vec, s: State, i: nat, j: nat): real {
    Dot(Iterate(op, s, i).r, Iterate(op, s, j).r)
  }

  ghost function RP(op: Vec -> Vec, s: State, i: nat, j: nat): real {
    Dot(Iterate(op, s, i).r, Iterate(op, s, j).p)
  }

  /** r_i . A p_j */
  ghost function RAP(op: Vec -> Vec, s: State, i: nat, j: nat): real {
    Dot(Iterate(op, s, i).r, op(Iterate(op, s, j).p))
  }

  /** p_i . A p_j */
  ghost function PAP(op: Vec -> Vec, s: State, i: nat, j: nat): real {
    Dot(Iterate(op, s, i).p, op(Iterate(op, s, j).p))
  }

  ghost function A(op: Vec -> Vec, s: State, i: nat): real { Ai(op, Iterate(op, s, i)) }

  ghost function B(op: Vec -> Vec, s: State, i: nat): real { Bi(op, Iterate(op, s, i)) }

  /** The recurrences, as equations between the products. */
  lemma RRNext(op: Vec -> Vec, n: nat, s: State, i: nat, j: nat)
    requires Linear(op, n) && s.Sized(n)
    ensures RR(op, s, i + 1, j) == RR(op, s, i, j) - Mul(A(op, s, i), RAP(op, s, j, i))
  {
    hide Mul, Ai, Bi, Axpy, Dot;
    var u, w := Iterate(op, s, i), Iterate(op, s, j);
    SizedAlways(op, n, s, i);
    SizedAlways(op, n, s, j);
    DotAxpy(u.r, -Ai(op, u), op(u.p), w.r);
    DotComm(op(u.p), w.r);
    MulNeg(Ai(op, u), Dot(w.r, op(u.p)));
  }

  lemma RPNext(op: Vec -> Vec, n: nat, s: State, j: nat, i: nat)
    requires Linear(op, n) && s.Sized(n)
    ensures RP(op, s, j, i + 1) == RR(op, s, i + 1, j) + Mul(B(op, s, i), RP(op, s, j, i))
  {
    hide Mul, Ai, Bi, Axpy, Dot;
    var u, v, w := Iterate(op, s, i), Iterate(op, s, i + 1), Iterate(op, s, j);
    SizedAlways(op, n, s, i);
    SizedAlways(op, n, s, i + 1);
    SizedAlways(op, n, s, j);
    DotAxpy(v.r, Bi(op, u), u.p, w.r);
    DotComm(v.p, w.r);
    DotComm(u.p, w.r);
  }

  lemma PAPNext(op: Vec -> Vec, n: nat, s: State, i: nat, j: nat)
    requires Linear(op, n) && s.Sized(n)
    ensures PAP(op, s, i + 1, j) == RAP(op, s, i + 1, j) + Mul(B(op, s, i), PAP(op, s, i, j))
  {
    hide Mul, Ai, Bi, Axpy, Dot;
    var u, v, w := Iterate(op, s, i), Iterate(op, s, i + 1), Iterate(op, s, j);
    SizedAlways(op, n, s, i);
    SizedAlways(op, n, s, i + 1);
    SizedAlways(op, n, s, j);
    DotAxpy(v.r, Bi(op, u), u.p, op(w.p));
  }

  lemma RRComm(op: Vec -> Vec, s: State, i: nat, j: nat)
    ensures RR(op, s, i, j) == RR(op, s, j, i)
  {
    DotComm(Iterate(op, s, i).r, Iterate(op, s, j).r);
  }

  lemma PAPComm(op: Vec -> Vec, n: nat, s: State, i: nat, j: nat)
    requires Linear(op, n) && Symmetric(op, n) && s.Sized(n)
    ensures PAP(op, s, i, j) == PAP(op, s, j, i)
  {
    hide Dot;
    SizedAlways(op, n, s, i);
    SizedAlways(op, n, s, j);
    DotComm(op(Iterate(op, s, i).p), Iterate(op, s, j).p);
  }

  /** What is known after k iterations: everything earlier is orthogonal. */
  ghost predicate Orthogonal(op: Vec -> Vec, s: State, k: nat) {
    forall i: nat :: i < k ==> RR(op, s, k, i) == 0.0 && RP(op, s, k, i) == 0.0 && PAP(op, s, k, i) == 0.0
  }

  ghost predicate OrthogonalUpTo(op: Vec -> Vec, s: State, k: nat) {
    forall j: nat :: j <= k ==> Orthogonal(op, s, j)
  }

  /** r_k . A p_k is p_k . A p_k, and r_j . A p_k is 0 before. */
  lemma RAPFacts(op: Vec -> Vec, n: nat, s: State, k: nat, j: nat)
    requires Linear(op, n) && Symmetric(op, n) && s.Sized(n) && s.p == s.r && OrthogonalUpTo(op, s, k) && j <= k
    ensures RAP(op, s, j, k) == if j == k then PAP(op, s, k, k) else 0.0
  {
    hide Mul, Dot, Next, Symmetric, Linear;
    if j == 0 {
      assert RAP(op, s, 0, k) == PAP(op, s, 0, k);
      PAPComm(op, n, s, 0, k);
      if k > 0 {
        assert Orthogonal(op, s, k);
      }
    } else {
      PAPNext(op, n, s, j - 1, k);
      assert Orthogonal(op, s, k);
      PAPComm(op, n, s, j - 1, k);
      PAPComm(op, n, s, j, k);
      MulZero(B(op, s, j - 1));
    }
  }

  lemma StepLength(op: Vec -> Vec, n: nat, s: State, k: nat)
    requires Linear(op, n) && s.Sized(n) && Defined(op, s, k + 1)
    ensures Mul(A(op, s, k), PAP(op, s, k, k)) == RR(op, s, k, k) != 0.0
    ensures A(op, s, k) != 0.0
    ensures Mul(B(op, s, k), RR(op, s, k, k)) == RR(op, s, k + 1, k + 1)
  {
    hide Dot, Axpy;
    var t := Iterate(op, s, k);
    DotComm(op(t.p), t.p);
  }

  /** The new residual is orthogonal to all before. */
  lemma NewResidual(op: Vec -> Vec, n: nat, s: State, k: nat, j: nat)
    requires Linear(op, n) && Symmetric(op, n) && s.Sized(n) && s.p == s.r && Defined(op, s, k + 1)
    requires OrthogonalUpTo(op, s, k) && j <= k
    ensures RR(op, s, k + 1, j) == 0.0
  {
    hide Mul, Dot, Next, Symmetric, Linear, RR, RAP, PAP, A, B, RP;
    RRNext(op, n, s, k, j);
    RAPFacts(op, n, s, k, j);
    if j == k {
      StepLength(op, n, s, k);
    } else {
      assert Orthogonal(op, s, k);
      MulZero(A(op, s, k));
    }
  }

  lemma {:induction false} NewResidualDirection(op: Vec -> Vec, n: nat, s: State, k: nat, j: nat)
    requires Linear(op, n) && Symmetric(op, n) && s.Sized(n) && s.p == s.r && Defined(op, s, k + 1)
    requires OrthogonalUpTo(op, s, k) && j <= k
    ensures RP(op, s, k + 1, j) == 0.0
  {
    hide Mul, Dot, Next, Symmetric, Linear, RAP, PAP, A, B;
    NewResidual(op, n, s, k, j);
    if j == 0 {
    } else {
      NewResidualDirection(op, n, s, k, j - 1);
      RPNext(op, n, s, k + 1, j - 1);
      RRComm(op, s, j, k + 1);
      MulZero(B(op, s, j - 1));
    }
  }

  /** The new direction is conjugate to all before. */
  lemma NewDirection(op: Vec -> Vec, n: nat, s: State, k: nat, j: nat)
    requires Linear(op, n) && Symmetric(op, n) && s.Sized(n) && s.p == s.r && Defined(op, s, k + 1)
    requires OrthogonalUpTo(op, s, k) && j <= k
    ensures PAP(op, s, k + 1, j) == 0.0
  {
    hide Mul, Dot, Next, Symmetric, Linear, RR, RAP, PAP, A, B, RP;
    PAPNext(op, n, s, k, j);
    RRNext(op, n, s, j, k + 1);
    NewResidual(op, n, s, k, j);
    RRComm(op, s, j, k + 1);
    StepLengthAt(op, n, s, k, j);
    if j < k {
      NewResidual(op, n, s, k, j + 1);
      RRComm(op, s, j + 1, k + 1);
      assert Orthogonal(op, s, k);
      MulZero(B(op, s, k));
      CancelZero(A(op, s, j), RAP(op, s, k + 1, j));
    } else {
      StepLength(op, n, s, k);
      Conjugate(A(op, s, k), B(op, s, k), RAP(op, s, k + 1, k), PAP(op, s, k, k), RR(op, s, k, k),
                RR(op, s, k + 1, k + 1));
    }
  }

  lemma StepLengthAt(op: Vec -> Vec, n: nat, s: State, k: nat, j: nat)
    requires Linear(op, n) && s.Sized(n) && Defined(op, s, k + 1) && j <= k
    ensures A(op, s, j) != 0.0
  {
    hide Dot, Mul, Iterate;
    StepLength(op, n, s, j);
  }

  lemma CancelZero(a: real, x: real)
    requires a != 0.0 && Mul(a, x) == 0.0
    ensures x == 0.0
  {
  }

  /** a rap = - rr', a pap = rr and b rr = rr' make rap + b pap vanish. */
  lemma Conjugate(a: real, b: real, rap: real, pap: real, rr: real, rr': real)
    requires a != 0.0 && Mul(a, rap) == -rr' && Mul(a, pap) == rr && Mul(b, rr) == rr'
    ensures rap + Mul(b, pap) == 0.0
  {
    assert a * (b * pap) == b * (a * pap);
    assert a * (rap + b * pap) == a * rap + a * (b * pap);
  }

  /** After every iteration all residuals are orthogonal to each other and to all
      earlier directions, and all directions are conjugate. */
  lemma {:induction false} AllOrthogonal(op: Vec -> Vec, n: nat, s: State, k: nat)
    requires Linear(op, n) && Symmetric(op, n) && s.Sized(n) && s.p == s.r && Defined(op, s, k)
    ensures OrthogonalUpTo(op, s, k)
  {
    hide Mul, Dot, Next, Symmetric, Linear, RR, RAP, PAP, A, B, RP, Iterate;
    if k > 0 {
      assert Defined(op, s, k - 1);
      AllOrthogonal(op, n, s, k - 1);
      forall j: nat | j < k
        ensures RR(op, s, k, j) == 0.0 && RP(op, s, k, j) == 0.0 && PAP(op, s, k, j) == 0.0
      {
        NewResidual(op, n, s, k - 1, j);
        NewResidualDirection(op, n, s, k - 1, j);
        NewDirection(op, n, s, k - 1, j);
      }
      assert Orthogonal(op, s, k);
    }
  }
}

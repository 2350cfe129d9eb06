/** The symmetric product is a linear symmetric operator, so that what is proved of
    the conjugate gradient iteration holds for it. */
module SymOperator {
  import opened Matrix
  import opened Products
  import opened Seqs
  import opened SymMap
  import opened SymSpmv
  import opened CgAlgebra

  /** The operator of a matrix; vectors of another size are left alone. */
  function Operator(crs: Crs): Vec -> Vec
    requires crs.Valid()
  {
    (v: Vec) => if |v| == crs.n then Product(crs, v) else v
  }

  ghost predicate InRange(es: seq<Entry>, n: nat) {
    forall k :: 0 <= k < |es| ==> 0 <= es[k].at.x < es[k].at.y < n
  }

  lemma AllInRange(crs: Crs)
    requires crs.Valid()
    ensures InRange(Entries(crs, 0, crs.n), crs.n)
  {
    hide Entries, InRow;
    EntriesAre(crs, 0, crs.n);
    var es := Entries(crs, 0, crs.n);
    forall k | 0 <= k < |es|
      ensures 0 <= es[k].at.x < es[k].at.y < crs.n
    {
      assert es[k] in es;
    }
  }

  // ----- Linear

  lemma {:induction false} SumLinear(es: seq<Entry>, f: Entry -> real, g: Entry -> real, h: Entry -> real, c: real)
    requires forall k :: 0 <= k < |es| ==> f(es[k]) == g(es[k]) + Mul(c, h(es[k]))
    ensures Sum(es, f) == Sum(es, g) + Mul(c, Sum(es, h))
  {
    hide Mul;
    if es == [] {
      MulZero(c);
    } else {
      var n := |es| - 1;
      SumLinear(es[..n], f, g, h, c);
      MulRight(c, Sum(es[..n], h), h(es[n]));
    }
  }

  /** d (u + c v) == d u + c (d v) */
  lemma MulAxpy(d: real, u: real, c: real, v: real)
    ensures Mul(d, u + Mul(c, v)) == Mul(d, u) + Mul(c, Mul(d, v))
  {
    hide Mul;
    MulRight(d, u, Mul(c, v));
    MulAssoc(d, c, v);
    MulComm(d, c);
    MulAssoc(c, d, v);
  }

  lemma PartLinear(crs: Crs, es: seq<Entry>, u: Vec, c: real, v: Vec, p: nat)
    requires |u| == |v| == crs.n == |crs.dvalues| && p < crs.n && InRange(es, crs.n)
    ensures PartProduct(crs, es, Axpy(u, c, v), p) == PartProduct(crs, es, u, p) + Mul(c, PartProduct(crs, es, v, p))
  {
    hide Mul, Sum;
    var w := Axpy(u, c, v);
    forall k | 0 <= k < |es|
      ensures RowPart(p, w)(es[k]) == RowPart(p, u)(es[k]) + Mul(c, RowPart(p, v)(es[k]))
      ensures ColPart(p, w)(es[k]) == ColPart(p, u)(es[k]) + Mul(c, ColPart(p, v)(es[k]))
    {
      var e := es[k];
      MulAxpy(e.val, u[e.at.x], c, v[e.at.x]);
      MulAxpy(e.val, u[e.at.y], c, v[e.at.y]);
      MulZero(c);
    }
    SumLinear(es, RowPart(p, w), RowPart(p, u), RowPart(p, v), c);
    SumLinear(es, ColPart(p, w), ColPart(p, u), ColPart(p, v), c);
    MulAxpy(crs.dvalues[p], u[p], c, v[p]);
    MulRight(c, Mul(crs.dvalues[p], v[p]), Sum(es, RowPart(p, v)));
    MulRight(c, Mul(crs.dvalues[p], v[p]) + Sum(es, RowPart(p, v)), Sum(es, ColPart(p, v)));
  }

  lemma OperatorLinear(crs: Crs)
    requires crs.Valid()
    ensures Linear(Operator(crs), crs.n)
  {
    hide Entries, PartProduct, Mul;
    AllInRange(crs);
    forall u: Vec, c, v: Vec | |u| == |v| == crs.n
      ensures Operator(crs)(Axpy(u, c, v)) == Axpy(Operator(crs)(u), c, Operator(crs)(v))
    {
      var l, r := Product(crs, Axpy(u, c, v)), Axpy(Product(crs, u), c, Product(crs, v));
      forall p | 0 <= p < crs.n
        ensures l[p] == r[p]
      {
        PartLinear(crs, Entries(crs, 0, crs.n), u, c, v, p);
      }
    }
  }

  // ----- Symmetric

  /** The product with the elements of es, as a vector. */
  function Partial(crs: Crs, es: seq<Entry>, u: Vec): (r: Vec)
    requires |u| == crs.n == |crs.dvalues|
    ensures |r| == crs.n && forall p {:trigger r[p]} :: 0 <= p < crs.n ==> r[p] == PartProduct(crs, es, u, p)
  {
    seq(crs.n, p requires 0 <= p < crs.n => PartProduct(crs, es, u, p))
  }

  lemma {:induction false} DotUpdate(w: Vec, v: Vec, i: nat, d: real)
    requires |w| == |v| && i < |w|
    ensures Dot(w[i := w[i] + d], v) == Dot(w, v) + Mul(d, v[i])
  {
    hide Mul;
    var n := |w| - 1;
    var w' := w[i := w[i] + d];
    if i == n {
      assert w'[..n] == w[..n];
      MulLeft(w[n], d, v[n]);
    } else {
      assert w'[..n] == w[..n][i := w[..n][i] + d];
      DotUpdate(w[..n], v[..n], i, d);
    }
  }

  /** One more element changes the product in two places. */
  lemma PartialMore(crs: Crs, es: seq<Entry>, e: Entry, u: Vec)
    requires |u| == crs.n == |crs.dvalues| && 0 <= e.at.x < e.at.y < crs.n
    ensures var w := Partial(crs, es, u);
            Partial(crs, es + [e], u) ==
            w[e.at.y := w[e.at.y] + Mul(e.val, u[e.at.x])][e.at.x := w[e.at.x] + Mul(e.val, u[e.at.y])]
  {
    hide Mul, Sum;
    forall p | 0 <= p < crs.n
      ensures PartProduct(crs, es + [e], u, p) == PartProduct(crs, es, u, p) + RowPart(p, u)(e) + ColPart(p, u)(e)
    {
      SumSnoc(es, e, RowPart(p, u));
      SumSnoc(es, e, ColPart(p, u));
    }
  }

  lemma {:induction false} DiagonalSymmetric(crs: Crs, u: Vec, v: Vec, n: nat)
    requires |u| == |v| == crs.n == |crs.dvalues| && n <= crs.n
    ensures Dot(Partial(crs, [], u)[..n], v[..n]) == Dot(u[..n], Partial(crs, [], v)[..n])
  {
    hide Mul;
    if n > 0 {
      DiagonalSymmetric(crs, u, v, n - 1);
      var a, b := Partial(crs, [], u), Partial(crs, [], v);
      assert a[..n][..n - 1] == a[..n - 1] && b[..n][..n - 1] == b[..n - 1];
      assert u[..n][..n - 1] == u[..n - 1] && v[..n][..n - 1] == v[..n - 1];
      var d := crs.dvalues[n - 1];
      assert a[n - 1] == Mul(d, u[n - 1]) && b[n - 1] == Mul(d, v[n - 1]);
      MulComm(d, u[n - 1]);
      MulAssoc(u[n - 1], d, v[n - 1]);
    }
  }

  lemma {:induction false} PartialSymmetric(crs: Crs, es: seq<Entry>, u: Vec, v: Vec)
    requires |u| == |v| == crs.n == |crs.dvalues| && InRange(es, crs.n)
    ensures Dot(Partial(crs, es, u), v) == Dot(u, Partial(crs, es, v))
  {
    hide Mul, Dot, PartProduct;
    if es == [] {
      DiagonalSymmetric(crs, u, v, crs.n);
      Whole(u);
      Whole(v);
      Whole(Partial(crs, es, u));
      Whole(Partial(crs, es, v));
    } else {
      var n := |es| - 1;
      var init, e := es[..n], es[n];
      assert es == init + [e];
      PartialSymmetric(crs, init, u, v);
      MirrorTerms(crs, init, e, u, v);
      MirrorTerms(crs, init, e, v, u);
      DotComm(u, Partial(crs, es, v));
      DotComm(u, Partial(crs, init, v));
    }
  }

  /** Both places of one element in a product with v. */
  lemma MirrorTerms(crs: Crs, es: seq<Entry>, e: Entry, u: Vec, v: Vec)
    requires |u| == |v| == crs.n == |crs.dvalues| && 0 <= e.at.x < e.at.y < crs.n
    ensures Dot(Partial(crs, es + [e], u), v)
         == Dot(Partial(crs, es, u), v) + Mul(e.val, Mul(u[e.at.x], v[e.at.y])) + Mul(e.val, Mul(v[e.at.x], u[e.at.y]))
  {
    hide Mul, Dot, PartProduct;
    var w := Partial(crs, es, u);
    var a, b := Mul(e.val, u[e.at.x]), Mul(e.val, u[e.at.y]);
    PartialMore(crs, es, e, u);
    DotUpdate(w, v, e.at.y, a);
    DotUpdate(w[e.at.y := w[e.at.y] + a], v, e.at.x, b);
    MulAssoc(e.val, u[e.at.x], v[e.at.y]);
    MulAssoc(e.val, u[e.at.y], v[e.at.x]);
    MulComm(u[e.at.y], v[e.at.x]);
  }

  lemma OperatorSymmetric(crs: Crs)
    requires crs.Valid()
    ensures Symmetric(Operator(crs), crs.n)
  {
    hide Entries, PartProduct, Mul, Dot;
    AllInRange(crs);
    forall u: Vec, v: Vec | |u| == |v| == crs.n
      ensures Dot(Operator(crs)(u), v) == Dot(u, Operator(crs)(v))
    {
      PartialSymmetric(crs, Entries(crs, 0, crs.n), u, v);
      assert Product(crs, u) == Partial(crs, Entries(crs, 0, crs.n), u);
      assert Product(crs, v) == Partial(crs, Entries(crs, 0, crs.n), v);
    }
  }
}

/** How the conjugate gradient iteration is started: x at its first guess, the residual
    in r and in p.  The matrix is multiplied part by part, each part into a vector that
    is zeroed first and added up afterwards. */
module CgInit {
  import opened Matrix
  import opened Products
  import opened SymMap
  import opened SymSpmv
  import opened SymOperator
  import opened CgAlgebra

  method Init(v: array<real>, val: real)
    modifies v
    ensures forall i :: 0 <= i < v.Length ==> v[i] == val
  {
    for i := 0 to v.Length
      invariant forall j :: 0 <= j < i ==> v[j] == val
    {
      v[i] := val;
    }
  }

  /** to := to + v */
  method Add(to: array<real>, v: array<real>)
    requires to != v && to.Length == v.Length
    modifies to
    ensures forall i :: 0 <= i < to.Length ==> to[i] == old(to[i]) + v[i]
  {
    for i := 0 to to.Length
      invariant forall j :: 0 <= j < i ==> to[j] == old(to[j]) + v[j]
      invariant forall j :: i <= j < to.Length ==> to[j] == old(to[j])
    {
      to[i] := to[i] + v[i];
    }
  }

  /** r := b - t */
  method Sub(b: array<real>, t: array<real>, r: array<real>)
    requires r != b && r != t && b.Length == t.Length == r.Length
    modifies r
    ensures r[..] == Axpy(b[..], -1.0, t[..])
  {
    for i := 0 to r.Length
      invariant forall j :: 0 <= j < i ==> r[j] == b[j] - t[j]
    {
      r[i] := b[i] - t[i];
    }
  }

  method Copy(v: array<real>, to: array<real>)
    requires v != to && v.Length == to.Length
    modifies to
    ensures to[..] == v[..]
  {
    for i := 0 to v.Length
      invariant forall j :: 0 <= j < i ==> to[j] == v[j]
    {
      to[i] := v[i];
    }
  }

  /** What the rows a..b of a symmetric matrix add to place p. */
  function PartAt(crs: Crs, a: nat, b: nat, x: Vec, p: nat): real
    requires crs.Valid() && a <= b <= crs.n && p < crs.n == |x|
  {
    (if a <= p < b then Mul(crs.dvalues[p], x[p]) else 0.0)
    + Sum(Entries(crs, a, b), RowPart(p, x)) + Sum(Entries(crs, a, b), ColPart(p, x))
  }

  lemma PartsJoin(crs: Crs, m: nat, b: nat, x: Vec, p: nat)
    requires crs.Valid() && m <= b <= crs.n && p < crs.n == |x|
    ensures PartAt(crs, 0, b, x, p) == PartAt(crs, 0, m, x, p) + PartAt(crs, m, b, x, p)
  {
    hide Sum, Entries, RowPart, ColPart, Mul;
    EntriesSplit(crs, 0, m, b);
    SumConcat(Entries(crs, 0, m), Entries(crs, m, b), RowPart(p, x));
    SumConcat(Entries(crs, 0, m), Entries(crs, m, b), ColPart(p, x));
  }

  lemma NoPart(crs: Crs, x: Vec, p: nat)
    requires crs.Valid() && p < crs.n == |x|
    ensures PartAt(crs, 0, 0, x, p) == 0.0
  {
    NoEntries(crs, 0);
  }

  lemma WholePart(crs: Crs, x: Vec, p: nat)
    requires crs.Valid() && p < crs.n == |x|
    ensures PartAt(crs, 0, crs.n, x, p) == Product(crs, x)[p]
  {
    hide Sum, Entries;
  }

  /** Places behind the rows are not met. */
  lemma BehindRows(crs: Crs, a: nat, b: nat, x: Vec, p: nat)
    requires crs.Valid() && a <= b <= p < crs.n == |x|
    ensures Sum(Entries(crs, a, b), ColPart(p, x)) == 0.0
  {
    hide Entries, Mul, InRow;
    EntriesAre(crs, a, b);
    var es := Entries(crs, a, b);
    forall k | 0 <= k < |es|
      ensures ColPart(p, x)(es[k]) == 0.0
    {
      assert es[k] in es;
    }
    SumZero(es, ColPart(p, x));
  }

  /** One part into a zeroed vector that serves as y and as the temporary vector. */
  method MultiplyAlone(crs: Crs, s: nat, e: nat, x: seq<real>, r: array<real>)
    requires crs.Valid() && s <= e <= crs.n && |x| == r.Length == crs.n
    requires forall p :: 0 <= p < crs.n ==> r[p] == 0.0
    modifies r
    ensures forall p :: 0 <= p < crs.n ==> r[p] == PartAt(crs, s, e, x, p)
  {
    hide Sum, Entries, RowPart, ColPart, Mul;
    MultiplyPart(crs, s, e, x, r, r);
    forall p | 0 <= p < crs.n
      ensures r[p] == PartAt(crs, s, e, x, p)
    {
      if !(s <= p < e) {
        OtherRows(crs, s, e, x, p);
      }
      if e <= p {
        BehindRows(crs, s, e, x, p);
      }
    }
  }

  /** x := 0.01, r := b - A x, p := r, with a symmetric matrix. */
  method InitializeSymCg(crs: Crs, rows: seq<nat>, x: array<real>, r: array<real>, p: array<real>, b: array<real>,
                         temp: array<real>)
    requires crs.Valid() && Partition(rows, crs.n)
    requires x.Length == r.Length == p.Length == b.Length == temp.Length == crs.n
    requires x != r && x != p && x != temp && r != p && r != temp && r != b && p != temp && p != b && b != temp
         && x != b
    modifies x, r, p, temp
    ensures forall i :: 0 <= i < crs.n ==> x[i] == 0.01
    ensures Started(Operator(crs), b[..], crs.n, State(x[..], r[..], p[..]))
  {
    hide PartAt, Product, Axpy;
    Init(x, 0.01);
    Init(temp, 0.0);
    ghost var x0 := x[..];
    var i := 0;
    forall q | 0 <= q < crs.n
      ensures PartAt(crs, 0, rows[0], x0, q) == 0.0
    {
      NoPart(crs, x0, q);
    }
    while i < |rows| - 1
      invariant 0 <= i < |rows| && x[..] == x0 && rows[i] <= crs.n
      invariant forall q :: 0 <= q < crs.n ==> temp[q] == PartAt(crs, 0, rows[i], x0, q)
    {
      assert rows[i] <= rows[i + 1] <= crs.n;
      Init(r, 0.0);
      MultiplyAlone(crs, rows[i], rows[i + 1], x[..], r);
      Add(temp, r);
      forall q | 0 <= q < crs.n
        ensures temp[q] == PartAt(crs, 0, rows[i + 1], x0, q)
      {
        PartsJoin(crs, rows[i], rows[i + 1], x0, q);
      }
      i := i + 1;
    }
    forall q | 0 <= q < crs.n
      ensures temp[q] == Product(crs, x0)[q]
    {
      WholePart(crs, x0, q);
    }
    assert temp[..] == Product(crs, x0);
    Sub(b, temp, r);
    Copy(r, p);
  }

  /** The rows s..e of any product. */
  method MultiplyRows(op: Vec -> Vec, s: nat, e: nat, x: seq<real>, r: array<real>)
    requires s <= e <= r.Length == |op(x)|
    modifies r
    ensures forall i :: 0 <= i < r.Length ==> r[i] == if s <= i < e then op(x)[i] else old(r[i])
  {
    for i := s to e
      invariant forall j :: 0 <= j < r.Length ==> r[j] == if s <= j < i then op(x)[j] else old(r[j])
    {
      r[i] := op(x)[i];
    }
  }

  /** x := 0.01, r := b - A x, p := r, with any matrix. */
  method InitializeCg(op: Vec -> Vec, n: nat, parts: seq<nat>, x: array<real>, r: array<real>, p: array<real>,
                      b: array<real>, temp: array<real>)
    requires Linear(op, n) && Partition(parts, n)
    requires x.Length == r.Length == p.Length == b.Length == temp.Length == n
    requires x != r && x != p && x != temp && r != p && r != temp && r != b && p != temp && p != b && b != temp
         && x != b
    modifies x, r, p, temp
    ensures forall i :: 0 <= i < n ==> x[i] == 0.01
    ensures Started(op, b[..], n, State(x[..], r[..], p[..]))
  {
    hide Axpy;
    Init(x, 0.01);
    Init(temp, 0.0);
    ghost var x0 := x[..];
    assert |op(x0)| == n;
    var i := 0;
    while i < |parts| - 1
      invariant 0 <= i < |parts| && x[..] == x0 && parts[i] <= n
      invariant forall q :: 0 <= q < n ==> temp[q] == if q < parts[i] then op(x0)[q] else 0.0
    {
      assert parts[i] <= parts[i + 1] <= n;
      Init(r, 0.0);
      MultiplyRows(op, parts[i], parts[i + 1], x[..], r);
      Add(temp, r);
      i := i + 1;
    }
    assert temp[..] == op(x0);
    Sub(b, temp, r);
    Copy(r, p);
  }
}

/** Sparse matrices as the encoder sees them: rows of single elements and
    patterns, in some iteration order, and what they mean.

    The meaning of a matrix is the list of its cells: every element expands, in
    its own order, to (row, column, value) entries of the original matrix.
    Everything the encoder does is judged by that list. */
module Matrix {
  import opened Orders
  import opened Seqs

  datatype Pattern =
    | DeltaRLE(size: nat, delta: nat, order: Order)
    | BlockRLE(size: nat, otherDim: nat, order: Order)
  {
    function Step(): nat {
      if DeltaRLE? then delta else 1
    }

    predicate Good() {
      && size >= 1
      && (DeltaRLE? ==> order.Align() == 0 && delta >= 1)
      && (BlockRLE? ==> order.Align() != 0 && otherDim >= 1 && size == order.Align() * otherDim)
    }
  }

  /** `x` is the column in the current order, of the first element for a pattern. */
  datatype Elem =
    | Single(x: int, val: real)
    | Pat(x: int, p: Pattern, vals: seq<real>)

  datatype Coo = Coo(y: int, e: Elem)
  {
    function At(): Coord { Coord(y, e.x) }
  }

  datatype Entry = Entry(at: Coord, val: real)

  type Rows = seq<seq<Elem>>

  // ----- Meaning

  /** The k-th place of a pattern, in the pattern's own order. */
  function Place(p: Pattern, start: Coord, k: int): Coord {
    Coord(start.y, start.x + k * p.Step())
  }

  /** Where a pattern at `at` in order `o` starts in its own order. */
  function StartOf(o: Order, d: Dims, at: Coord, p: Pattern): Coord {
    Map(p.order, d, RMap(o, d, at))
  }

  function PatternCells(d: Dims, start: Coord, p: Pattern, vals: seq<real>): (r: seq<Entry>)
    ensures |r| == |vals|
    ensures forall k {:trigger r[k]} :: 0 <= k < |vals| ==> r[k] == Entry(RMap(p.order, d, Place(p, start, k)), vals[k])
  {
    seq(|vals|, k requires 0 <= k < |vals| => Entry(RMap(p.order, d, Place(p, start, k)), vals[k]))
  }

  function ElemCells(o: Order, d: Dims, c: Coo): seq<Entry> {
    match c.e
    case Single(x, v) => [Entry(RMap(o, d, c.At()), v)]
    case Pat(x, p, vals) => PatternCells(d, StartOf(o, d, c.At(), p), p, vals)
  }

  function PointCells(o: Order, d: Dims, ps: seq<Coo>): seq<Entry> {
    if ps == [] then []
    else PointCells(o, d, ps[..|ps| - 1]) + ElemCells(o, d, ps[|ps| - 1])
  }

  function RowPoints(y: int, row: seq<Elem>): (r: seq<Coo>)
    ensures |r| == |row|
    ensures forall i {:trigger r[i]} :: 0 <= i < |row| ==> r[i] == Coo(y, row[i])
  {
    seq(|row|, i requires 0 <= i < |row| => Coo(y, row[i]))
  }

  /** The elements of the rows in order; row index i has coordinate i + 1. */
  function Points(rows: Rows): seq<Coo> {
    if rows == [] then []
    else Points(rows[..|rows| - 1]) + RowPoints(|rows|, rows[|rows| - 1])
  }

  function Cells(o: Order, d: Dims, rows: Rows): seq<Entry> {
    PointCells(o, d, Points(rows))
  }

  // ----- Well-formed matrices

  ghost predicate GoodElem(o: Order, d: Dims, c: Coo) {
    && InOrder(o, d, c.At())
    && (c.e.Pat? ==>
          && c.e.p.Good()
          && |c.e.vals| == c.e.p.size
          && Aligned(c.e.p.order, RMap(o, d, c.At()))
          && forall k :: 0 <= k < c.e.p.size ==> InOrder(c.e.p.order, d, Place(c.e.p, StartOf(o, d, c.At(), c.e.p), k)))
  }

  ghost predicate GoodPoints(o: Order, d: Dims, ps: seq<Coo>) {
    forall i :: 0 <= i < |ps| ==> GoodElem(o, d, ps[i])
  }

  predicate Less(a: Coord, b: Coord) {
    a.y < b.y || (a.y == b.y && a.x < b.x)
  }

  ghost predicate Sorted(ps: seq<Coo>) {
    forall i, j :: 0 <= i < j < |ps| ==> Less(ps[i].At(), ps[j].At())
  }

  /** No trailing empty rows. */
  predicate Canonical(rows: Rows) {
    rows == [] || rows[|rows| - 1] != []
  }

  // ----- Sums over entries

  function Sum<T>(es: seq<T>, f: T -> real): real {
    if es == [] then 0.0 else Sum(es[..|es| - 1], f) + f(es[|es| - 1])
  }

  lemma SumSnoc<T>(es: seq<T>, e: T, f: T -> real)
    ensures Sum(es + [e], f) == Sum(es, f) + f(e)
  {
    assert (es + [e])[..|es|] == es;
  }

  lemma {:induction false} SumConcat<T>(a: seq<T>, b: seq<T>, f: T -> real)
    ensures Sum(a + b, f) == Sum(a, f) + Sum(b, f)
  {
    if b == [] {
      assert a + b == a;
    } else {
      assert (a + b)[..|a + b| - 1] == a + b[..|b| - 1];
      SumConcat(a, b[..|b| - 1], f);
    }
  }

  /** Removing the last element of one list and the same element of a permutation. */
  lemma PermRemove<T>(a: seq<T>, b: seq<T>) returns (j: nat)
    requires a != [] && multiset(a) == multiset(b)
    ensures j < |b| && b[j] == a[|a| - 1]
    ensures multiset(a[..|a| - 1]) == multiset(b[..j] + b[j + 1..])
  {
    var l := a[|a| - 1];
    assert a == a[..|a| - 1] + [l];
    assert l in multiset(b);
    j :| 0 <= j < |b| && b[j] == l;
    SplitAt(b, j);
    MultisetCancel(multiset(a[..|a| - 1]), multiset(b[..j] + b[j + 1..]), multiset([l]));
  }

  lemma {:induction false} SumPerm<T>(a: seq<T>, b: seq<T>, f: T -> real)
    requires multiset(a) == multiset(b)
    ensures Sum(a, f) == Sum(b, f)
  {
    if a == [] {
      assert |multiset(b)| == 0;
    } else {
      var j := PermRemove(a, b);
      SumPerm(a[..|a| - 1], b[..j] + b[j + 1..], f);
      assert b == b[..j] + [b[j]] + b[j + 1..];
      SumConcat(b[..j], b[j + 1..], f);
      SumConcat(b[..j], [b[j]], f);
      SumConcat(b[..j] + [b[j]], b[j + 1..], f);
    }
  }

  // ----- Cells of concatenations and permutations

  lemma {:induction false} PointCellsConcat(o: Order, d: Dims, a: seq<Coo>, b: seq<Coo>)
    ensures PointCells(o, d, a + b) == PointCells(o, d, a) + PointCells(o, d, b)
  {
    hide ElemCells;
    if b == [] {
      NilRight(a);
      NilRight(PointCells(o, d, a));
    } else {
      var b' := b[..|b| - 1];
      var l := b[|b| - 1];
      calc {
        PointCells(o, d, a + b);
        { ButLast(a, b); }
        PointCells(o, d, a + b') + ElemCells(o, d, l);
        { PointCellsConcat(o, d, a, b'); }
        PointCells(o, d, a) + PointCells(o, d, b') + ElemCells(o, d, l);
        { Assoc(PointCells(o, d, a), PointCells(o, d, b'), ElemCells(o, d, l)); }
        PointCells(o, d, a) + PointCells(o, d, b);
      }
    }
  }

  lemma PointCellsSnoc(o: Order, d: Dims, a: seq<Coo>, c: Coo)
    ensures PointCells(o, d, a + [c]) == PointCells(o, d, a) + ElemCells(o, d, c)
  {
    assert (a + [c])[..|a|] == a;
  }

  lemma {:induction false} PointCellsPerm(o: Order, d: Dims, a: seq<Coo>, b: seq<Coo>)
    requires multiset(a) == multiset(b)
    ensures multiset(PointCells(o, d, a)) == multiset(PointCells(o, d, b))
  {
    if a == [] {
      assert |multiset(b)| == 0;
    } else {
      var j := PermRemove(a, b);
      PointCellsPerm(o, d, a[..|a| - 1], b[..j] + b[j + 1..]);
      PointCellsMiddle(o, d, b, j);
    }
  }

  lemma PointCellsMiddle(o: Order, d: Dims, b: seq<Coo>, j: nat)
    requires j < |b|
    ensures multiset(PointCells(o, d, b))
         == multiset(PointCells(o, d, b[..j] + b[j + 1..])) + multiset(ElemCells(o, d, b[j]))
  {
    PointCellsConcat(o, d, b[..j], b[j + 1..]);
    PointCellsSplit(o, d, b[..j], b[j], b[j + 1..]);
    SplitAt(b, j);
  }

  lemma PointCellsSplit(o: Order, d: Dims, a: seq<Coo>, c: Coo, b: seq<Coo>)
    ensures PointCells(o, d, a + [c] + b)
         == PointCells(o, d, a) + ElemCells(o, d, c) + PointCells(o, d, b)
  {
    PointCellsSnoc(o, d, a, c);
    PointCellsConcat(o, d, a + [c], b);
  }

  lemma MultisetCancel<T>(a: multiset<T>, b: multiset<T>, c: multiset<T>)
    requires a + c == b + c
    ensures a == b
  {
    assert a == (a + c) - c && b == (b + c) - c;
  }

  // ----- Points and rows

  function Empties(n: nat): (r: Rows)
    ensures |r| == n && forall i :: 0 <= i < n ==> r[i] == []
  {
    seq(n, _ => [])
  }

  lemma {:induction false} PointsEmpties(a: Rows, n: nat)
    ensures Points(a + Empties(n)) == Points(a)
  {
    if n == 0 {
      assert a + Empties(n) == a;
    } else {
      assert (a + Empties(n))[..|a| + n - 1] == a + Empties(n - 1);
      PointsEmpties(a, n - 1);
    }
  }

  lemma {:induction false} PointsRange(rows: Rows)
    ensures forall i :: 0 <= i < |Points(rows)| ==> 1 <= Points(rows)[i].y <= |rows|
  {
    if rows != [] {
      PointsRange(rows[..|rows| - 1]);
    }
  }
}

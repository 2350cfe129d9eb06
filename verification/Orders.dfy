/** The iteration orders of a sparse matrix and their coordinate maps.

    A coordinate is 1-based.  `Map` takes a matrix cell to its place in an
    order, `RMap` takes it back.  A pattern is a straight run of places in its
    own order; `UnitCell` is the cell that the multiplication routine of the
    same type touches at step k, and `StepLandsOnUnitCell` says the two agree. */
module Orders {

  type BlockDim = d: int | 1 <= d <= 8 witness 1

  datatype Order =
    | Horizontal
    | Vertical
    | Diagonal
    | RevDiagonal
    | BlockRow(r: BlockDim)
    | BlockCol(c: BlockDim)
  {
    /** The fixed dimension of a block order, 0 for the other orders. */
    function Align(): nat {
      match this
      case BlockRow(r) => r
      case BlockCol(c) => c
      case _ => 0
    }

    /** The number of the order. */
    function Code(): nat {
      match this
      case Horizontal => 1
      case Vertical => 2
      case Diagonal => 3
      case RevDiagonal => 4
      case BlockRow(r) => 5 + r
      case BlockCol(c) => 14 + c
    }
  }

  /** The order with a given number; any other number is the horizontal order. */
  function OfCode(code: int): Order {
    if code == 2 then Vertical
    else if code == 3 then Diagonal
    else if code == 4 then RevDiagonal
    else if 6 <= code <= 13 then BlockRow(code - 5)
    else if 15 <= code <= 22 then BlockCol(code - 14)
    else Horizontal
  }

  lemma OfCodeInverts(o: Order)
    ensures OfCode(o.Code()) == o
  {
  }

  datatype Coord = Coord(y: int, x: int)
  datatype Dims = Dims(rows: nat, cols: nat)

  predicate InBounds(d: Dims, p: Coord) {
    1 <= p.y <= d.rows && 1 <= p.x <= d.cols
  }

  // ----- The maps

  function MapV(p: Coord): Coord { Coord(p.x, p.y) }

  function MapD(p: Coord, nrows: int): Coord {
    Coord(nrows + p.x - p.y, if p.x < p.y then p.x else p.y)
  }

  function RMapD(p: Coord, nrows: int): Coord {
    if p.y < nrows then Coord(nrows + p.x - p.y, p.x) else Coord(p.x, p.y + p.x - nrows)
  }

  function MapRD(p: Coord, ncols: int): Coord {
    var y := p.x + p.y - 1;
    Coord(y, if y <= ncols then p.y else ncols + 1 - p.x)
  }

  /** The row is always recomputed from the new column at the end. */
  function RMapRD(p: Coord, ncols: int): Coord {
    var x := if p.y <= ncols then p.y + 1 - p.x else ncols + 1 - p.x;
    Coord(p.y - x + 1, x)
  }

  function MapBR(p: Coord, r: BlockDim): Coord {
    Coord((p.y - 1) / r + 1, (p.y - 1) % r + r * (p.x - 1) + 1)
  }

  function RMapBR(p: Coord, r: BlockDim): Coord {
    Coord(r * (p.y - 1) + (p.x - 1) % r + 1, (p.x - 1) / r + 1)
  }

  function Map(o: Order, d: Dims, p: Coord): Coord {
    match o
    case Horizontal => p
    case Vertical => MapV(p)
    case Diagonal => MapD(p, d.rows)
    case RevDiagonal => MapRD(p, d.cols)
    case BlockRow(r) => MapBR(p, r)
    case BlockCol(c) => MapBR(MapV(p), c)
  }

  function RMap(o: Order, d: Dims, p: Coord): Coord {
    match o
    case Horizontal => p
    case Vertical => MapV(p)
    case Diagonal => RMapD(p, d.rows)
    case RevDiagonal => RMapRD(p, d.cols)
    case BlockRow(r) => RMapBR(p, r)
    case BlockCol(c) => MapV(RMapBR(p, c))
  }

  /** The places of an order that hold a cell of the matrix. */
  predicate InOrder(o: Order, d: Dims, q: Coord) {
    InBounds(d, RMap(o, d, q)) && Map(o, d, RMap(o, d, q)) == q
  }

  // ----- Division facts

  lemma DivModUnique(a: int, q: int, m: int, r: int)
    requires 0 < r && 0 <= m < r && a == q * r + m
    ensures a / r == q && a % r == m
  {
    var q', m' := a / r, a % r;
    assert a == q' * r + m' && 0 <= m' < r;
    if q < q' {
      MulMono(q + 1, q', r);
    } else if q' < q {
      MulMono(q' + 1, q, r);
    }
  }

  lemma MulMono(a: int, b: int, r: int)
    requires a <= b && 0 <= r
    ensures a * r <= b * r
  {
    assert (b - a) * r >= 0;
  }

  // ----- Inverse maps

  lemma BlockRoundTrip(p: Coord, r: BlockDim)
    requires 1 <= p.y
    ensures RMapBR(MapBR(p, r), r) == p
  {
    var m := (p.y - 1) % r;
    DivModUnique(m + r * (p.x - 1), p.x - 1, m, r);
    assert r * ((p.y - 1) / r) + m == p.y - 1;
  }

  /** Every `RMap` inverts its `Map` on the matrix. */
  lemma RMapInvertsMap(o: Order, d: Dims, p: Coord)
    requires InBounds(d, p)
    ensures RMap(o, d, Map(o, d, p)) == p
    ensures InOrder(o, d, Map(o, d, p))
  {
    match o
    case BlockRow(r) => BlockRoundTrip(p, r);
    case BlockCol(c) => BlockRoundTrip(MapV(p), c);
    case _ =>
  }

  /** Two cells of the matrix never share a place. */
  lemma MapInjective(o: Order, d: Dims, p: Coord, q: Coord)
    requires InBounds(d, p) && InBounds(d, q) && Map(o, d, p) == Map(o, d, q)
    ensures p == q
  {
    RMapInvertsMap(o, d, p);
    RMapInvertsMap(o, d, q);
  }

  /** A transformed matrix has at most rows + cols - 1 rows, all 1-based: the
      capacity that the row pointers are created with is enough. */
  lemma MapRowBound(o: Order, d: Dims, p: Coord)
    requires InBounds(d, p)
    ensures 1 <= Map(o, d, p).y <= d.rows + d.cols - 1
    ensures 1 <= Map(o, d, p).x
  {
    hide MapBR;
    match o
    case BlockRow(r) => BlockRowBound(p, r);
    case BlockCol(c) => BlockRowBound(MapV(p), c);
    case _ =>
  }

  lemma BlockRowBound(p: Coord, r: BlockDim)
    requires 1 <= p.y && 1 <= p.x
    ensures 1 <= MapBR(p, r).y <= p.y
    ensures 1 <= MapBR(p, r).x
  {
    DivBound(p.y - 1, r);
    MulMono(0, p.x - 1, r);
  }

  lemma DivBound(a: int, r: int)
    requires 0 <= a && 0 < r
    ensures 0 <= a / r <= a
  {
    if a / r > a {
      MulMono(a + 1, a / r, r);
      MulMono(1, r, a + 1);
    }
  }

  // ----- Pattern geometry

  /** The cell that a unit of type `o`, anchored at `a`, touches at step k. */
  function UnitCell(o: Order, a: Coord, k: nat, delta: nat): Coord {
    match o
    case Horizontal => Coord(a.y, a.x + k * delta)
    case Vertical => Coord(a.y + k * delta, a.x)
    case Diagonal => Coord(a.y + k * delta, a.x + k * delta)
    case RevDiagonal => Coord(a.y + k * delta, a.x - k * delta)
    case BlockRow(r) => Coord(a.y + k % r, a.x + k / r)
    case BlockCol(c) => Coord(a.y + k / c, a.x + k % c)
  }

  /** Blocks start on a multiple of their fixed dimension. */
  predicate Aligned(o: Order, a: Coord) {
    match o
    case BlockRow(r) => (a.y - 1) % r == 0
    case BlockCol(c) => (a.x - 1) % c == 0
    case _ => true
  }

  lemma BlockStep(a: Coord, r: BlockDim, k: nat)
    requires (a.y - 1) % r == 0
    ensures var s := MapBR(a, r);
            RMapBR(Coord(s.y, s.x + k), r) == Coord(a.y + k % r, a.x + k / r)
  {
    assert r * ((a.y - 1) / r) == a.y - 1;
    assert (a.x - 1 + k / r) * r == r * (a.x - 1) + (k / r) * r;
    DivModUnique(r * (a.x - 1) + k, a.x - 1 + k / r, k % r, r);
  }

  lemma DiagStep(a: Coord, nrows: int, n: int)
    ensures var s := MapD(a, nrows);
            RMapD(Coord(s.y, s.x + n), nrows) == Coord(a.y + n, a.x + n)
  {
  }

  lemma RevDiagStep(a: Coord, ncols: int, n: int)
    ensures var s := MapRD(a, ncols);
            RMapRD(Coord(s.y, s.x + n), ncols) == Coord(a.y + n, a.x - n)
  {
  }

  /** Walking `k` steps of a pattern in its own order and mapping back lands on
      the cell that the multiplication routine touches at step k. */
  lemma StepLandsOnUnitCell(o: Order, d: Dims, a: Coord, k: nat, delta: nat)
    requires Aligned(o, a) && (o.Align() != 0 ==> delta == 1)
    ensures var s := Map(o, d, a);
            RMap(o, d, Coord(s.y, s.x + k * delta)) == UnitCell(o, a, k, delta)
  {
    hide MapBR, RMapBR, MapD, RMapD, MapRD, RMapRD;
    match o
    case Horizontal =>
    case Vertical =>
    case Diagonal => DiagStep(a, d.rows, k * delta);
    case RevDiagonal => RevDiagStep(a, d.cols, k * delta);
    case BlockRow(r) => assert k * delta == k; BlockStep(a, r, k);
    case BlockCol(c) => assert k * delta == k; BlockStep(MapV(a), c, k);
  }

  /** An aligned place in a block order is the top-left corner of a block. */
  lemma AlignedPlace(o: Order, d: Dims, q: Coord)
    requires o.Align() != 0 && (q.x - 1) % o.Align() == 0
    ensures Aligned(o, RMap(o, d, q))
  {
    var r := o.Align();
    DivModUnique(r * (q.y - 1), q.y - 1, 0, r);
    assert r * (q.y - 1) + (q.x - 1) % r == r * (q.y - 1);
  }
}

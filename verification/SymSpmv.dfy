/** Symmetric multiplication in parallel.

    In each of `loops` rounds every thread zeroes the temporary cells its map lists,
    waits, multiplies its rows, waits, adds the cells its map lists to y, waits; then
    x and y change roles.  `EveryRunMultiplies`: however the threads interleave, and
    whatever the temporary vectors held at the start, each round multiplies by the
    symmetric matrix. */
module SymSpmv {
  import opened Orders
  import opened Matrix
  import opened Products
  import opened Seqs
  import opened SymMap
  import opened Barriers

  // ----- The product

  /** The elements of row i before element k. */
  function RowEntries(crs: Crs, i: nat, k: nat): seq<Entry>
    requires crs.Valid() && i < crs.n && crs.rowPtr[i] <= k <= crs.rowPtr[i + 1]
    decreases k
  {
    if k == crs.rowPtr[i] then []
    else RowEntries(crs, i, k - 1) + [Entry(Coord(i, crs.colInd[k - 1]), crs.values[k - 1])]
  }

  /** The elements of the rows a..b. */
  function Entries(crs: Crs, a: nat, b: nat): seq<Entry>
    requires crs.Valid() && a <= b <= crs.n
    decreases b - a
  {
    if a == b then [] else Entries(crs, a, b - 1) + RowEntries(crs, b - 1, crs.rowPtr[b])
  }

  /** What an element of the lower triangle adds to row p, ... */
  function RowPart(p: int, x: seq<real>): Entry -> real {
    (e: Entry) => if e.at.y == p && 0 <= e.at.x < |x| then Mul(e.val, x[e.at.x]) else 0.0
  }

  /** ... and what its mirror image adds. */
  function ColPart(p: int, x: seq<real>): Entry -> real {
    (e: Entry) => if e.at.x == p && 0 <= e.at.y < |x| then Mul(e.val, x[e.at.y]) else 0.0
  }

  /** Row p of (L + D + L transposed) x, from the elements of some rows. */
  function PartProduct(crs: Crs, es: seq<Entry>, x: seq<real>, p: nat): real
    requires p < |crs.dvalues| && p < |x|
  {
    Mul(crs.dvalues[p], x[p]) + Sum(es, RowPart(p, x)) + Sum(es, ColPart(p, x))
  }

  function Product(crs: Crs, x: seq<real>): (r: seq<real>)
    requires crs.Valid() && |x| == crs.n
    ensures |r| == crs.n
  {
    seq(crs.n, p requires 0 <= p < crs.n => PartProduct(crs, Entries(crs, 0, crs.n), x, p))
  }

  // ----- One thread

  ghost predicate StrictlyLower(es: seq<Entry>, s: int, i: int) {
    forall k :: 0 <= k < |es| ==> s <= es[k].at.y <= i && 0 <= es[k].at.x < es[k].at.y
  }

  /** Thread with rows s.. has finished the rows before i and, of row i, the elements
      that are in es; their row sum is in acc. */
  ghost predicate Doing(crs: Crs, s: nat, i: nat, es: seq<Entry>, x: seq<real>, acc: real,
                        y0: seq<real>, t0: seq<real>, y: seq<real>, t: seq<real>)
  {
    && |x| == |y| == |y0| == |t| == |t0| == crs.n == |crs.dvalues| && s <= i <= crs.n
    && StrictlyLower(es, s, i)
    && (forall p :: s <= p < i ==> y[p] == PartProduct(crs, es, x, p))
    && (forall p {:trigger y[p]} :: i <= p < crs.n ==> y[p] == y0[p])
    && (forall p {:trigger t[p]} :: 0 <= p < s ==> t[p] == t0[p] + Sum(es, ColPart(p, x)))
    && acc == Sum(es, RowPart(i, x))
  }

  lemma {:induction false} SumZero(es: seq<Entry>, f: Entry -> real)
    requires forall k :: 0 <= k < |es| ==> f(es[k]) == 0.0
    ensures Sum(es, f) == 0.0
  {
    if es != [] {
      SumZero(es[..|es| - 1], f);
    }
  }

  lemma DoingStart(crs: Crs, s: nat, x: seq<real>, y0: seq<real>, t0: seq<real>)
    requires |x| == |y0| == |t0| == crs.n == |crs.dvalues| && s <= crs.n
    ensures Doing(crs, s, s, [], x, 0.0, y0, t0, y0, t0)
  {
    forall p | 0 <= p < crs.n
      ensures Sum([], ColPart(p, x)) == 0.0
    {
      SumZero([], ColPart(p, x));
    }
    SumZero([], RowPart(s, x));
  }

  /** An addition to place p of one of the two vectors; only the places from s on of y
      and those before s of t matter, so that the two may be one vector. */
  ghost predicate Added(s: nat, y: seq<real>, t: seq<real>, y': seq<real>, t': seq<real>, col: nat, d: real)
  {
    && |y'| == |y| == |t| == |t'| && col < |y|
    && (forall p {:trigger y'[p]} :: s <= p < |y| ==> y'[p] == if p == col then y[p] + d else y[p])
    && (forall p {:trigger t'[p]} :: 0 <= p < s && p < |y| ==> t'[p] == if p == col then t[p] + d else t[p])
  }

  /** One element: its product goes to the running sum, its mirror image to t when its
      column is left of the own rows, to y otherwise. */
  lemma DoingElem(crs: Crs, s: nat, i: nat, es: seq<Entry>, x: seq<real>, acc: real,
                  y0: seq<real>, t0: seq<real>, y: seq<real>, t: seq<real>, col: nat, v: real, y': seq<real>, t': seq<real>)
    requires Doing(crs, s, i, es, x, acc, y0, t0, y, t) && col < i < crs.n && Added(s, y, t, y', t', col, Mul(v, x[i]))
    ensures Doing(crs, s, i, es + [Entry(Coord(i, col), v)], x, acc + Mul(v, x[col]), y0, t0, y', t')
  {
    hide Sum, Mul;
    var e := Entry(Coord(i, col), v);
    var es' := es + [e];
    forall p | s <= p < i
      ensures y'[p] == PartProduct(crs, es', x, p)
    {
      SumSnoc(es, e, RowPart(p, x));
      SumSnoc(es, e, ColPart(p, x));
    }
    forall p | 0 <= p < s
      ensures t'[p] == t0[p] + Sum(es', ColPart(p, x))
    {
      SumSnoc(es, e, ColPart(p, x));
    }
    SumSnoc(es, e, RowPart(i, x));
  }

  /** The end of a row: diagonal, and the only assignment to y of the own row. */
  lemma DoingRow(crs: Crs, s: nat, i: nat, es: seq<Entry>, x: seq<real>, acc: real,
                 y0: seq<real>, t0: seq<real>, y: seq<real>, t: seq<real>, t': seq<real>)
    requires Doing(crs, s, i, es, x, acc, y0, t0, y, t) && i < crs.n
    requires |t'| == |t| && forall p :: 0 <= p < s ==> t'[p] == t[p]
    ensures Doing(crs, s, i + 1, es, x, 0.0, y0, t0, y[i := acc + Mul(crs.dvalues[i], x[i])], t')
  {
    hide Sum, Mul;
    SumZero(es, ColPart(i, x));
    SumZero(es, RowPart(i + 1, x));
  }

  /** The rows s..e of one thread.  y and t may be one vector: the places of y that
      matter begin where those of t end. */
  method MultiplyPart(crs: Crs, s: nat, e: nat, x: seq<real>, y: array<real>, t: array<real>)
    requires crs.Valid() && s <= e <= crs.n && |x| == y.Length == t.Length == crs.n
    modifies y, t
    ensures forall p :: s <= p < e ==> y[p] == PartProduct(crs, Entries(crs, s, e), x, p)
    ensures forall p :: 0 <= p < s ==> t[p] == old(t[p]) + Sum(Entries(crs, s, e), ColPart(p, x))
    ensures forall p :: e <= p < crs.n ==> y[p] == old(y[p])
    ensures t != y ==> (forall p :: 0 <= p < s ==> y[p] == old(y[p])) && forall p :: s <= p < crs.n ==> t[p] == old(t[p])
  {
    hide Doing, Sum, Entries, PartProduct;
    ghost var y0, t0 := y[..], t[..];
    var i := s;
    DoingStart(crs, s, x, y0, t0);
    NoEntries(crs, s);
    while i < e
      invariant s <= i <= e
      invariant Doing(crs, s, i, Entries(crs, s, i), x, 0.0, y0, t0, y[..], t[..])
      invariant t != y ==> (forall p :: 0 <= p < s ==> y[p] == y0[p]) && forall p :: s <= p < crs.n ==> t[p] == t0[p]
    {
      MultiplyRow(crs, s, i, x, y, t, y0, t0);
      i := i + 1;
    }
    DoingDone(crs, s, e, x, y0, t0, y[..], t[..]);
  }

  lemma NoEntries(crs: Crs, s: nat)
    requires crs.Valid() && s <= crs.n
    ensures Entries(crs, s, s) == []
  {
  }

  lemma DoingDone(crs: Crs, s: nat, e: nat, x: seq<real>, y0: seq<real>, t0: seq<real>, y: seq<real>, t: seq<real>)
    requires crs.Valid() && s <= e <= crs.n && Doing(crs, s, e, Entries(crs, s, e), x, 0.0, y0, t0, y, t)
    ensures |x| == |y| == |y0| == |t| == |t0| == crs.n
    ensures forall p :: s <= p < e ==> y[p] == PartProduct(crs, Entries(crs, s, e), x, p)
    ensures forall p :: 0 <= p < s ==> t[p] == t0[p] + Sum(Entries(crs, s, e), ColPart(p, x))
    ensures forall p :: e <= p < crs.n ==> y[p] == y0[p]
  {
    hide Sum, Entries, PartProduct;
  }

  method AddAt(a: array<real>, i: nat, v: real)
    requires i < a.Length
    modifies a
    ensures a[..] == old(a[..])[i := old(a[i]) + v]
  {
    a[i] := a[i] + v;
  }

  method MultiplyRow(crs: Crs, s: nat, i: nat, x: seq<real>, y: array<real>, t: array<real>, ghost y0: seq<real>,
                     ghost t0: seq<real>)
    requires crs.Valid() && s <= i < crs.n && |x| == y.Length == t.Length == crs.n
    requires Doing(crs, s, i, Entries(crs, s, i), x, 0.0, y0, t0, y[..], t[..])
    modifies y, t
    ensures Doing(crs, s, i + 1, Entries(crs, s, i + 1), x, 0.0, y0, t0, y[..], t[..])
    ensures t != y ==> (forall p :: 0 <= p < s ==> y[p] == old(y[p])) && forall p :: s <= p < crs.n ==> t[p] == old(t[p])
  {
    hide Doing, Sum, Entries, RowEntries, Mul, Added;
    ghost var done := Entries(crs, s, i);
    var yr := 0.0;
    var j := crs.rowPtr[i];
    RowStart(crs, s, i);
    NilRight(done);
    while j < crs.rowPtr[i + 1] && crs.colInd[j] < s
      invariant crs.rowPtr[i] <= j <= crs.rowPtr[i + 1]
      invariant Doing(crs, s, i, done + RowEntries(crs, i, j), x, yr, y0, t0, y[..], t[..])
      invariant t != y ==> (forall p :: 0 <= p < s ==> y[p] == old(y[p])) && forall p :: s <= p < crs.n ==> t[p] == old(t[p])
    {
      var col, v := crs.colInd[j], crs.values[j];
      RowMore(crs, i, j, done);
      ghost var y1, t1 := y[..], t[..];
      yr := yr + Mul(v, x[col]);
      AddAt(t, col, Mul(v, x[i]));
      AddedLeft(s, y1, t1, y[..], t[..], col, Mul(v, x[i]));
      DoingElem(crs, s, i, done + RowEntries(crs, i, j), x, yr - Mul(v, x[col]), y0, t0, y1, t1, col, v, y[..], t[..]);
      j := j + 1;
    }
    OwnColumns(crs, s, i, j);
    while j < crs.rowPtr[i + 1]
      invariant crs.rowPtr[i] <= j <= crs.rowPtr[i + 1]
      invariant Doing(crs, s, i, done + RowEntries(crs, i, j), x, yr, y0, t0, y[..], t[..])
      invariant t != y ==> (forall p :: 0 <= p < s ==> y[p] == old(y[p])) && forall p :: s <= p < crs.n ==> t[p] == old(t[p])
    {
      var col, v := crs.colInd[j], crs.values[j];
      RowMore(crs, i, j, done);
      ghost var y1, t1 := y[..], t[..];
      yr := yr + Mul(v, x[col]);
      AddAt(y, col, Mul(v, x[i]));
      AddedOwn(s, y1, t1, y[..], t[..], col, Mul(v, x[i]));
      DoingElem(crs, s, i, done + RowEntries(crs, i, j), x, yr - Mul(v, x[col]), y0, t0, y1, t1, col, v, y[..], t[..]);
      j := j + 1;
    }
    ghost var y1, t1 := y[..], t[..];
    yr := yr + Mul(crs.dvalues[i], x[i]);
    y[i] := yr;
    DoingRow(crs, s, i, done + RowEntries(crs, i, j), x, yr - Mul(crs.dvalues[i], x[i]), y0, t0, y1, t1, t[..]);
    assert y[..] == y1[i := yr];
  }

  /** t was changed, which may also be y. */
  lemma AddedLeft(s: nat, y: seq<real>, t: seq<real>, y': seq<real>, t': seq<real>, col: nat, d: real)
    requires |y| == |t| && col < s && col < |t| && t' == t[col := t[col] + d] && (y' == y || (y == t && y' == t'))
    ensures Added(s, y, t, y', t', col, d)
  {
  }

  /** y was changed, which may also be t. */
  lemma AddedOwn(s: nat, y: seq<real>, t: seq<real>, y': seq<real>, t': seq<real>, col: nat, d: real)
    requires |y| == |t| && s <= col < |t| && y' == y[col := y[col] + d] && (t' == t || (y == t && y' == t'))
    ensures Added(s, y, t, y', t', col, d)
  {
  }

  /** Behind the first own column all columns of a row are own. */
  lemma OwnColumns(crs: Crs, s: nat, i: nat, j: nat)
    requires crs.Valid() && i < crs.n && crs.rowPtr[i] <= j <= crs.rowPtr[i + 1]
    requires j < crs.rowPtr[i + 1] ==> crs.colInd[j] >= s
    ensures forall k :: j <= k < crs.rowPtr[i + 1] ==> crs.colInd[k] >= s
  {
    forall k | j <= k < crs.rowPtr[i + 1]
      ensures crs.colInd[k] >= s
    {
      if k > j {
        assert crs.colInd[j] < crs.colInd[k];
      }
    }
  }

  lemma RowStart(crs: Crs, s: nat, i: nat)
    requires crs.Valid() && s <= i < crs.n
    ensures crs.rowPtr[i] <= crs.rowPtr[i + 1] && RowEntries(crs, i, crs.rowPtr[i]) == []
    ensures Entries(crs, s, i + 1) == Entries(crs, s, i) + RowEntries(crs, i, crs.rowPtr[i + 1])
  {
  }

  lemma RowMore(crs: Crs, i: nat, j: nat, done: seq<Entry>)
    requires crs.Valid() && i < crs.n && crs.rowPtr[i] <= j < crs.rowPtr[i + 1]
    ensures j < |crs.colInd| == |crs.values| && crs.colInd[j] < i
    ensures done + RowEntries(crs, i, j + 1) == done + RowEntries(crs, i, j)
         + [Entry(Coord(i, crs.colInd[j]), crs.values[j])]
  {
    Assoc(done, RowEntries(crs, i, j), [Entry(Coord(i, crs.colInd[j]), crs.values[j])]);
  }

  // ----- The threads' steps

  /** `V` are the two vectors that change roles, `Temp` the temporary vectors, `Acc` a
      thread's register. */
  datatype Cell = V(which: nat, pos: nat) | Temp(cpu: nat, pos: nat) | Acc(cpu: nat)

  function ZeroOps(map_: seq<Slot>): seq<Op<Cell>> {
    if map_ == [] then []
    else
      var l := map_[|map_| - 1];
      ZeroOps(map_[..|map_| - 1]) + [Op(Temp(l.cpu, l.pos), [], (r: seq<real>) => 0.0)]
  }

  function AddOps(map_: seq<Slot>, y: nat): seq<Op<Cell>> {
    if map_ == [] then []
    else
      var l := map_[|map_| - 1];
      AddOps(map_[..|map_| - 1], y) + [AddOp(V(y, l.pos), Temp(l.cpu, l.pos))]
  }

  function AddOp(to: Cell, from: Cell): Op<Cell> {
    Op(to, [to, from], (r: seq<real>) => if |r| == 2 then r[0] + r[1] else 0.0)
  }

  /** to := to + v * from */
  function MulOp(to: Cell, from: Cell, v: real): Op<Cell> {
    Op(to, [to, from], (r: seq<real>) => if |r| == 2 then r[0] + Mul(v, r[1]) else 0.0)
  }

  function CopyOp(to: Cell, from: Cell): Op<Cell> {
    Op(to, [from], (r: seq<real>) => if |r| == 1 then r[0] else 0.0)
  }

  /** The two additions of one element. */
  function ElemOps(cpu: nat, s: nat, x: nat, i: nat, col: nat, v: real): seq<Op<Cell>> {
    [MulOp(Acc(cpu), V(x, col), v), MulOp(if col < s then Temp(cpu, col) else V(1 - x % 2, col), V(x, i), v)]
  }

  function RowElemOps(crs: Crs, cpu: nat, s: nat, x: nat, i: nat, k: nat): seq<Op<Cell>>
    requires crs.Valid() && i < crs.n && crs.rowPtr[i] <= k <= crs.rowPtr[i + 1]
    decreases k
  {
    if k == crs.rowPtr[i] then []
    else RowElemOps(crs, cpu, s, x, i, k - 1) + ElemOps(cpu, s, x, i, crs.colInd[k - 1], crs.values[k - 1])
  }

  function RowOps(crs: Crs, cpu: nat, s: nat, x: nat, i: nat): seq<Op<Cell>>
    requires crs.Valid() && i < crs.n
  {
    [Op(Acc(cpu), [], (r: seq<real>) => 0.0)]
    + RowElemOps(crs, cpu, s, x, i, crs.rowPtr[i + 1])
    + [MulOp(Acc(cpu), V(x, i), crs.dvalues[i]), CopyOp(V(1 - x % 2, i), Acc(cpu))]
  }

  function MulOps(crs: Crs, cpu: nat, s: nat, e: nat, x: nat): seq<Op<Cell>>
    requires crs.Valid() && s <= e <= crs.n
    decreases e - s
  {
    if s == e then [] else MulOps(crs, cpu, s, e - 1, x) + RowOps(crs, cpu, s, x, e - 1)
  }

  /** The three phases of a round whose input vector is number x. */
  function Round(crs: Crs, starts: seq<nat>, maps: seq<seq<Slot>>, x: nat): (r: seq<seq<seq<Op<Cell>>>>)
    requires crs.Valid() && Partition(starts, crs.n) && |maps| + 1 == |starts|
    ensures |r| == 3 && forall k :: 0 <= k < 3 ==> |r[k]| == |maps|
  {
    [seq(|maps|, t requires 0 <= t < |maps| => ZeroOps(maps[t])),
     seq(|maps|, t requires 0 <= t < |maps| => MulOps(crs, t, starts[t], starts[t + 1], x)),
     seq(|maps|, t requires 0 <= t < |maps| => AddOps(maps[t], 1 - x % 2))]
  }

  // ----- What the steps touch

  ghost predicate Within(ops: seq<Op<Cell>>, writes: Cell -> bool, sees: Cell -> bool) {
    forall i :: 0 <= i < |ops| ==> writes(ops[i].w) && forall c :: c in ops[i].rs ==> sees(c)
  }

  lemma WithinConcat(a: seq<Op<Cell>>, b: seq<Op<Cell>>, writes: Cell -> bool, sees: Cell -> bool)
    requires Within(a, writes, sees) && Within(b, writes, sees)
    ensures Within(a + b, writes, sees)
  {
  }

  lemma WithinFacts(ops: seq<Op<Cell>>, writes: Cell -> bool, sees: Cell -> bool)
    requires Within(ops, writes, sees)
    ensures forall c :: Writes(ops, c) ==> writes(c)
    ensures forall c :: Touches(ops, c) ==> writes(c) || sees(c)
  {
  }

  function Slots(map_: seq<Slot>): Cell -> bool {
    (c: Cell) => c.Temp? && Slot(c.cpu, c.pos) in map_
  }

  function Positions(map_: seq<Slot>, y: nat): Cell -> bool {
    (c: Cell) => c.V? && c.which == y && exists t :: t in map_ && t.pos == c.pos
  }

  function Nothing(): Cell -> bool {
    (c: Cell) => false
  }

  function Temps(): Cell -> bool {
    (c: Cell) => c.Temp?
  }

  function Either(a: Cell -> bool, b: Cell -> bool): Cell -> bool {
    (c: Cell) => a(c) || b(c)
  }

  lemma {:induction false} ZeroWithin(map_: seq<Slot>)
    ensures Within(ZeroOps(map_), Slots(map_), Nothing())
  {
    if map_ != [] {
      var n := |map_| - 1;
      ZeroWithin(map_[..n]);
      assert map_ == map_[..n] + [map_[n]];
    }
  }

  lemma {:induction false} AddWithin(map_: seq<Slot>, y: nat)
    ensures Within(AddOps(map_, y), Positions(map_, y), Either(Positions(map_, y), Temps()))
  {
    if map_ != [] {
      var n := |map_| - 1;
      AddWithin(map_[..n], y);
      assert map_ == map_[..n] + [map_[n]];
      forall c | Positions(map_[..n], y)(c)
        ensures Positions(map_, y)(c)
      {
        var t :| t in map_[..n] && t.pos == c.pos;
        assert t in map_;
      }
      assert map_[n] in map_;
    }
  }

  /** What a thread writes while it multiplies. */
  function Own(cpu: nat, s: nat, e: nat, x: nat): Cell -> bool {
    (c: Cell) =>
      match c
      case V(w, p) => w == 1 - x % 2 && s <= p < e
      case Temp(t, p) => t == cpu && p < s
      case Acc(t) => t == cpu
  }

  function Input(x: nat): Cell -> bool {
    (c: Cell) => c.V? && c.which == x
  }

  lemma {:induction false} RowElemWithin(crs: Crs, cpu: nat, s: nat, e: nat, x: nat, i: nat, k: nat)
    requires crs.Valid() && s <= i < e <= crs.n && crs.rowPtr[i] <= k <= crs.rowPtr[i + 1]
    ensures Within(RowElemOps(crs, cpu, s, x, i, k), Own(cpu, s, e, x), Either(Own(cpu, s, e, x), Input(x)))
    decreases k
  {
    if k > crs.rowPtr[i] {
      RowElemWithin(crs, cpu, s, e, x, i, k - 1);
      assert crs.colInd[k - 1] < i;
      WithinConcat(RowElemOps(crs, cpu, s, x, i, k - 1), ElemOps(cpu, s, x, i, crs.colInd[k - 1], crs.values[k - 1]),
                   Own(cpu, s, e, x), Either(Own(cpu, s, e, x), Input(x)));
    }
  }

  lemma RowWithin(crs: Crs, cpu: nat, s: nat, e: nat, x: nat, i: nat)
    requires crs.Valid() && s <= i < e <= crs.n
    ensures Within(RowOps(crs, cpu, s, x, i), Own(cpu, s, e, x), Either(Own(cpu, s, e, x), Input(x)))
  {
    hide RowElemOps;
    RowElemWithin(crs, cpu, s, e, x, i, crs.rowPtr[i + 1]);
  }

  lemma {:induction false} MulWithin(crs: Crs, cpu: nat, s: nat, i: nat, e: nat, x: nat)
    requires crs.Valid() && s <= i <= e <= crs.n
    ensures Within(MulOps(crs, cpu, s, i, x), Own(cpu, s, e, x), Either(Own(cpu, s, e, x), Input(x)))
    decreases i - s
  {
    hide RowOps, Own, Within;
    if s == i {
      NothingWithin(Own(cpu, s, e, x), Either(Own(cpu, s, e, x), Input(x)));
    } else {
      MulWithin(crs, cpu, s, i - 1, e, x);
      RowWithin(crs, cpu, s, e, x, i - 1);
      WithinConcat(MulOps(crs, cpu, s, i - 1, x), RowOps(crs, cpu, s, x, i - 1), Own(cpu, s, e, x),
                   Either(Own(cpu, s, e, x), Input(x)));
    }
  }

  lemma NothingWithin(writes: Cell -> bool, sees: Cell -> bool)
    ensures Within([], writes, sees)
  {
  }

  // ----- No races

  /** The maps of a symmetric matrix. */
  ghost predicate Mapped(crs: Crs, starts: seq<nat>, maps: seq<seq<Slot>>, cuts: seq<nat>) {
    crs.Valid() && Partition(starts, crs.n) && |maps| + 1 == |starts|
         && MapsFor(maps, cuts, RemoteOf(crs, starts), |starts| - 1, crs.n, 0)
  }

  lemma PositionsDisjoint(crs: Crs, starts: seq<nat>, maps: seq<seq<Slot>>, cuts: seq<nat>, i: nat, j: nat)
    requires Mapped(crs, starts, maps, cuts) && i < |maps| && j < |maps| && i != j
    ensures forall t, u :: t in maps[i] && u in maps[j] ==> t.pos != u.pos
  {
    hide MapsFor, Crs.Valid, Partition, Remote;
    var remote, ncpus := RemoteOf(crs, starts), |starts| - 1;
    if i < j {
      Disjoint(maps, cuts, remote, ncpus, crs.n, 0, i, j);
    } else {
      Disjoint(maps, cuts, remote, ncpus, crs.n, 0, j, i);
    }
  }

  lemma ZeroRaceFree(crs: Crs, starts: seq<nat>, maps: seq<seq<Slot>>, cuts: seq<nat>, x: nat)
    requires Mapped(crs, starts, maps, cuts)
    ensures RaceFree(Round(crs, starts, maps, x)[0])
  {
    hide MapsFor, MulOps, ZeroOps, AddOps, Within, Crs.Valid, Partition, Writes, Touches;
    var threads := Round(crs, starts, maps, x)[0];
    forall t, u, c | 0 <= t < |threads| && 0 <= u < |threads| && t != u && Writes(threads[t], c)
      ensures !Touches(threads[u], c)
    {
      ZeroWithin(maps[t]);
      ZeroWithin(maps[u]);
      WithinFacts(ZeroOps(maps[t]), Slots(maps[t]), Nothing());
      WithinFacts(ZeroOps(maps[u]), Slots(maps[u]), Nothing());
      PositionsDisjoint(crs, starts, maps, cuts, t, u);
    }
  }

  lemma MulRaceFree(crs: Crs, starts: seq<nat>, maps: seq<seq<Slot>>, cuts: seq<nat>, x: nat)
    requires Mapped(crs, starts, maps, cuts) && x < 2
    ensures RaceFree(Round(crs, starts, maps, x)[1])
  {
    hide MapsFor, MulOps, ZeroOps, AddOps, Within, Crs.Valid, Writes, Touches, Own, Partition;
    PartitionRows(starts, crs.n);
    var threads := Round(crs, starts, maps, x)[1];
    forall t, u, c | 0 <= t < |threads| && 0 <= u < |threads| && t != u && Writes(threads[t], c)
      ensures !Touches(threads[u], c)
    {
      OwnDisjoint(starts, crs.n, t, u, x, c);
      MulFacts(crs, t, starts[t], starts[t + 1], x, c);
      MulFacts(crs, u, starts[u], starts[u + 1], x, c);
    }
  }

  lemma PartitionRows(starts: seq<nat>, n: nat)
    requires Partition(starts, n)
    ensures forall t {:trigger starts[t + 1]} :: 0 <= t < |starts| - 1 ==> starts[t] <= starts[t + 1] <= n
  {
  }

  lemma MulFacts(crs: Crs, cpu: nat, s: nat, e: nat, x: nat, c: Cell)
    requires crs.Valid() && s <= e <= crs.n
    ensures Writes(MulOps(crs, cpu, s, e, x), c) ==> Own(cpu, s, e, x)(c)
    ensures Touches(MulOps(crs, cpu, s, e, x), c) ==> Own(cpu, s, e, x)(c) || (c.V? && c.which == x)
  {
    hide MulOps, Within, Writes, Touches, Own;
    MulWithin(crs, cpu, s, e, e, x);
    WithinFacts(MulOps(crs, cpu, s, e, x), Own(cpu, s, e, x), Either(Own(cpu, s, e, x), Input(x)));
  }

  lemma OwnDisjoint(starts: seq<nat>, n: nat, t: nat, u: nat, x: nat, c: Cell)
    requires Partition(starts, n) && t + 1 < |starts| && u + 1 < |starts| && t != u && x < 2
    ensures Own(t, starts[t], starts[t + 1], x)(c) ==> !Own(u, starts[u], starts[u + 1], x)(c) && !(c.V? && c.which == x)
  {
    if t < u {
      assert starts[t + 1] <= starts[u];
    } else {
      assert starts[u + 1] <= starts[t];
    }
  }

  lemma AddRaceFree(crs: Crs, starts: seq<nat>, maps: seq<seq<Slot>>, cuts: seq<nat>, x: nat)
    requires Mapped(crs, starts, maps, cuts)
    ensures RaceFree(Round(crs, starts, maps, x)[2])
  {
    hide MapsFor, MulOps, ZeroOps, AddOps, Within, Crs.Valid, Partition, Writes, Touches;
    var y := 1 - x % 2;
    var threads := Round(crs, starts, maps, x)[2];
    forall t, u, c | 0 <= t < |threads| && 0 <= u < |threads| && t != u && Writes(threads[t], c)
      ensures !Touches(threads[u], c)
    {
      AddWithin(maps[t], y);
      AddWithin(maps[u], y);
      WithinFacts(AddOps(maps[t], y), Positions(maps[t], y), Either(Positions(maps[t], y), Temps()));
      WithinFacts(AddOps(maps[u], y), Positions(maps[u], y), Either(Positions(maps[u], y), Temps()));
      PositionsDisjoint(crs, starts, maps, cuts, t, u);
    }
  }

  // ----- What the steps compute

  /** The vector number w, and the temporary vector of a thread. */
  function View(m: Memory<Cell>, w: nat, n: nat): (r: seq<real>)
    ensures |r| == n && forall p {:trigger r[p]} :: 0 <= p < n ==> r[p] == Read(m, V(w, p))
  {
    seq(n, p requires 0 <= p < n => Read(m, V(w, p)))
  }

  function TempView(m: Memory<Cell>, cpu: nat, n: nat): (r: seq<real>)
    ensures |r| == n && forall p {:trigger r[p]} :: 0 <= p < n ==> r[p] == Read(m, Temp(cpu, p))
  {
    seq(n, p requires 0 <= p < n => Read(m, Temp(cpu, p)))
  }

  lemma MulExec(m: Memory<Cell>, to: Cell, from: Cell, v: real, c: Cell)
    ensures Read(Exec(m, MulOp(to, from, v)), c) == if c == to then Read(m, to) + Mul(v, Read(m, from)) else Read(m, c)
  {
    assert ReadAll(m, [to, from])[0] == Read(m, to) && ReadAll(m, [to, from])[1] == Read(m, from);
  }

  lemma AddExec(m: Memory<Cell>, to: Cell, from: Cell, c: Cell)
    ensures Read(Exec(m, AddOp(to, from)), c) == if c == to then Read(m, to) + Read(m, from) else Read(m, c)
  {
    assert ReadAll(m, [to, from])[0] == Read(m, to) && ReadAll(m, [to, from])[1] == Read(m, from);
  }

  lemma CopyExec(m: Memory<Cell>, to: Cell, from: Cell, c: Cell)
    ensures Read(Exec(m, CopyOp(to, from)), c) == if c == to then Read(m, from) else Read(m, c)
  {
    assert ReadAll(m, [from])[0] == Read(m, from);
  }

  /** The memory of a thread that is part way through row i. */
  ghost predicate AtElem(crs: Crs, cpu: nat, s: nat, i: nat, x: nat, es: seq<Entry>, m0: Memory<Cell>,
                         m: Memory<Cell>) {
    && View(m, x, crs.n) == View(m0, x, crs.n)
    && Doing(crs, s, i, es, View(m0, x, crs.n), Read(m, Acc(cpu)), View(m0, 1 - x % 2, crs.n), TempView(m0, cpu, crs.n),
             View(m, 1 - x % 2, crs.n), TempView(m, cpu, crs.n))
  }

  /** ... and of one between rows. */
  ghost predicate AtRow(crs: Crs, cpu: nat, s: nat, i: nat, x: nat, es: seq<Entry>, m0: Memory<Cell>, m: Memory<Cell>) {
    && View(m, x, crs.n) == View(m0, x, crs.n)
    && Doing(crs, s, i, es, View(m0, x, crs.n), 0.0, View(m0, 1 - x % 2, crs.n), TempView(m0, cpu, crs.n),
             View(m, 1 - x % 2, crs.n), TempView(m, cpu, crs.n))
  }

  lemma ElemRun(crs: Crs, cpu: nat, s: nat, i: nat, x: nat, es: seq<Entry>, m0: Memory<Cell>, m: Memory<Cell>,
                col: nat, v: real)
    requires AtElem(crs, cpu, s, i, x, es, m0, m) && col < i < crs.n && x < 2
    ensures AtElem(crs, cpu, s, i, x, es + [Entry(Coord(i, col), v)], m0, RunOps(m, ElemOps(cpu, s, x, i, col, v)))
  {
    hide Doing, MulOp, Exec, Read, RunOps, Mul;
    var y := 1 - x % 2;
    var tgt := if col < s then Temp(cpu, col) else V(y, col);
    var m2 := TwoMuls(m, Acc(cpu), V(x, col), v, tgt, V(x, i), v);
    assert View(m, x, crs.n)[col] == Read(m, V(x, col)) && View(m, x, crs.n)[i] == Read(m, V(x, i));
    assert View(m2, x, crs.n) == View(m, x, crs.n);
    var xi, xcol := View(m0, x, crs.n)[i], View(m0, x, crs.n)[col];
    assert xi == Read(m, V(x, i)) && xcol == Read(m, V(x, col));
    assert TempView(m, cpu, crs.n)[col] == Read(m, Temp(cpu, col)) && View(m, y, crs.n)[col] == Read(m, V(y, col));
    if col < s {
      assert TempView(m2, cpu, crs.n)
           == TempView(m, cpu, crs.n)[col := TempView(m, cpu, crs.n)[col] + Mul(v, View(m0, x, crs.n)[i])];
      assert View(m2, y, crs.n) == View(m, y, crs.n);
    } else {
      assert TempView(m2, cpu, crs.n) == TempView(m, cpu, crs.n);
      assert View(m2, y, crs.n) == View(m, y, crs.n)[col := View(m, y, crs.n)[col] + Mul(v, View(m0, x, crs.n)[i])];
    }
    DoingElem(crs, s, i, es, View(m0, x, crs.n), Read(m, Acc(cpu)), View(m0, y, crs.n), TempView(m0, cpu, crs.n),
              View(m, y, crs.n), TempView(m, cpu, crs.n), col, v, View(m2, y, crs.n), TempView(m2, cpu, crs.n));
  }

  /** Two multiplications into different cells. */
  lemma TwoMuls(m: Memory<Cell>, a: Cell, from: Cell, v: real, b: Cell, from': Cell, v': real) returns (r: Memory<Cell>)
    requires a != b && a != from' && b != from && a != from
    ensures r == RunOps(m, [MulOp(a, from, v), MulOp(b, from', v')])
    ensures forall c :: Read(r, c) == if c == a then Read(m, a) + Mul(v, Read(m, from))
                                      else if c == b then Read(m, b) + Mul(v', Read(m, from')) else Read(m, c)
  {
    hide MulOp, Exec, Read, Mul;
    var first, second := MulOp(a, from, v), MulOp(b, from', v');
    var m1 := Exec(m, first);
    r := Exec(m1, second);
    RunOne(m, first);
    RunConcat(m, [first], [second]);
    RunOne(m1, second);
    assert [first] + [second] == [first, second];
    MulExec(m, a, from, v, b);
    MulExec(m, a, from, v, from');
    forall c
      ensures Read(r, c) == if c == a then Read(m, a) + Mul(v, Read(m, from))
                            else if c == b then Read(m, b) + Mul(v', Read(m, from')) else Read(m, c)
    {
      MulExec(m, a, from, v, c);
      MulExec(m1, b, from', v', c);
    }
  }

  lemma {:induction false} RowElemRun(crs: Crs, cpu: nat, s: nat, i: nat, x: nat, done: seq<Entry>, m0: Memory<Cell>,
                                      m: Memory<Cell>, k: nat)
    requires crs.Valid() && i < crs.n && crs.rowPtr[i] <= k <= crs.rowPtr[i + 1] && x < 2
    requires AtElem(crs, cpu, s, i, x, done, m0, m)
    ensures AtElem(crs, cpu, s, i, x, done + RowEntries(crs, i, k), m0, RunOps(m, RowElemOps(crs, cpu, s, x, i, k)))
    decreases k
  {
    hide AtElem, ElemOps;
    if k == crs.rowPtr[i] {
      NilRight(done);
    } else {
      RowElemRun(crs, cpu, s, i, x, done, m0, m, k - 1);
      RowMore(crs, i, k - 1, done);
      var init, last := RowElemOps(crs, cpu, s, x, i, k - 1), ElemOps(cpu, s, x, i, crs.colInd[k - 1],
                                                                      crs.values[k - 1]);
      RunConcat(m, init, last);
      ElemRun(crs, cpu, s, i, x, done + RowEntries(crs, i, k - 1), m0, RunOps(m, init), crs.colInd[k - 1],
              crs.values[k - 1]);
    }
  }

  lemma RowBegins(crs: Crs, cpu: nat, s: nat, i: nat, x: nat, es: seq<Entry>, m0: Memory<Cell>, m: Memory<Cell>)
    requires AtRow(crs, cpu, s, i, x, es, m0, m)
    ensures AtElem(crs, cpu, s, i, x, es, m0, RunOps(m, [Op(Acc(cpu), [], (r: seq<real>) => 0.0)]))
  {
    hide Doing;
    var op := Op(Acc(cpu), [], (r: seq<real>) => 0.0);
    RunOne(m, op);
    var m' := Exec(m, op);
    assert View(m', x, crs.n) == View(m, x, crs.n);
    assert View(m', 1 - x % 2, crs.n) == View(m, 1 - x % 2, crs.n);
    assert TempView(m', cpu, crs.n) == TempView(m, cpu, crs.n);
  }

  lemma RowEnds(crs: Crs, cpu: nat, s: nat, i: nat, x: nat, es: seq<Entry>, m0: Memory<Cell>, m: Memory<Cell>)
    requires AtElem(crs, cpu, s, i, x, es, m0, m) && i < crs.n && |crs.dvalues| == crs.n && x < 2
    ensures AtRow(crs, cpu, s, i + 1, x, es, m0,
                  RunOps(m, [MulOp(Acc(cpu), V(x, i), crs.dvalues[i]), CopyOp(V(1 - x % 2, i), Acc(cpu))]))
  {
    hide Doing, MulOp, CopyOp, Exec, Read, RunOps, Mul;
    var y := 1 - x % 2;
    var first, second := MulOp(Acc(cpu), V(x, i), crs.dvalues[i]), CopyOp(V(y, i), Acc(cpu));
    var m1 := Exec(m, first);
    var m2 := Exec(m1, second);
    RunOne(m, first);
    RunConcat(m, [first], [second]);
    RunOne(m1, second);
    assert [first] + [second] == [first, second];
    MulExec(m, Acc(cpu), V(x, i), crs.dvalues[i], Acc(cpu));
    forall c
      ensures Read(m2, c) == if c == V(y, i) then Read(m1, Acc(cpu)) else if c == Acc(cpu) then Read(m1, c) else Read(m, c)
    {
      MulExec(m, Acc(cpu), V(x, i), crs.dvalues[i], c);
      CopyExec(m1, V(y, i), Acc(cpu), c);
    }
    assert View(m2, x, crs.n) == View(m, x, crs.n);
    assert View(m2, y, crs.n) == View(m, y, crs.n)[i := Read(m1, Acc(cpu))];
    assert TempView(m2, cpu, crs.n) == TempView(m, cpu, crs.n);
    var xi := View(m0, x, crs.n)[i];
    assert View(m, x, crs.n)[i] == Read(m, V(x, i)) == xi;
    DoingRow(crs, s, i, es, View(m0, x, crs.n), Read(m, Acc(cpu)), View(m0, y, crs.n), TempView(m0, cpu, crs.n),
             View(m, y, crs.n), TempView(m, cpu, crs.n), TempView(m2, cpu, crs.n));
  }

  /** A thread alone multiplies its rows. */
  lemma {:induction false} MulRun(crs: Crs, cpu: nat, s: nat, i: nat, x: nat, m: Memory<Cell>)
    requires crs.Valid() && s <= i <= crs.n && x < 2
    ensures AtRow(crs, cpu, s, i, x, Entries(crs, s, i), m, RunOps(m, MulOps(crs, cpu, s, i, x)))
    decreases i - s
  {
    hide AtElem, AtRow, RowOps, RowEntries;
    if s == i {
      NoRowsDone(crs, cpu, s, x, m);
    } else {
      MulRun(crs, cpu, s, i - 1, x, m);
      RowRun(crs, cpu, s, i - 1, x, m, RunOps(m, MulOps(crs, cpu, s, i - 1, x)));
      RunConcat(m, MulOps(crs, cpu, s, i - 1, x), RowOps(crs, cpu, s, x, i - 1));
    }
  }

  lemma NoRowsDone(crs: Crs, cpu: nat, s: nat, x: nat, m: Memory<Cell>)
    requires crs.Valid() && s <= crs.n
    ensures AtRow(crs, cpu, s, s, x, [], m, m)
  {
    hide Doing;
    DoingStart(crs, s, View(m, x, crs.n), View(m, 1 - x % 2, crs.n), TempView(m, cpu, crs.n));
  }

  lemma RowRun(crs: Crs, cpu: nat, s: nat, i: nat, x: nat, m0: Memory<Cell>, m: Memory<Cell>)
    requires crs.Valid() && s <= i < crs.n && x < 2 && AtRow(crs, cpu, s, i, x, Entries(crs, s, i), m0, m)
    ensures AtRow(crs, cpu, s, i + 1, x, Entries(crs, s, i + 1), m0, RunOps(m, RowOps(crs, cpu, s, x, i)))
  {
    hide AtElem, AtRow, RowElemOps, RowEntries, Entries, MulOp, CopyOp, RunOps;
    var a, b := [Op(Acc(cpu), [], (r: seq<real>) => 0.0)], RowElemOps(crs, cpu, s, x, i, crs.rowPtr[i + 1]);
    var c := [MulOp(Acc(cpu), V(x, i), crs.dvalues[i]), CopyOp(V(1 - x % 2, i), Acc(cpu))];
    RunConcat(m, a, b);
    RunConcat(m, a + b, c);
    RowBegins(crs, cpu, s, i, x, Entries(crs, s, i), m0, m);
    RowElemRun(crs, cpu, s, i, x, Entries(crs, s, i), m0, RunOps(m, a), crs.rowPtr[i + 1]);
    RowStart(crs, s, i);
    RowEnds(crs, cpu, s, i, x, Entries(crs, s, i + 1), m0, RunOps(m, a + b));
    assert RowOps(crs, cpu, s, x, i) == a + b + c;
  }

  lemma {:induction false} ZeroRun(m: Memory<Cell>, map_: seq<Slot>, t: Slot)
    requires t in map_
    ensures Read(RunOps(m, ZeroOps(map_)), Temp(t.cpu, t.pos)) == 0.0
  {
    var n := |map_| - 1;
    Snoc(ZeroOps(map_[..n]), Op(Temp(map_[n].cpu, map_[n].pos), [], (r: seq<real>) => 0.0));
    if t != map_[n] {
      ZeroRun(m, map_[..n], t);
    }
  }

  lemma {:induction false} ZeroWrites(map_: seq<Slot>, t: Slot)
    requires t in map_
    ensures Writes(ZeroOps(map_), Temp(t.cpu, t.pos))
  {
    var n := |map_| - 1;
    var init, l := ZeroOps(map_[..n]), map_[n];
    var ops := ZeroOps(map_);
    if t == l {
      assert ops[|init|].w == Temp(t.cpu, t.pos);
    } else {
      ZeroWrites(map_[..n], t);
      var i :| 0 <= i < |init| && init[i].w == Temp(t.cpu, t.pos);
      assert ops[i] == init[i];
    }
  }

  /** The temporaries that the slots of column p hold. */
  function SlotSum(m: Memory<Cell>, map_: seq<Slot>, p: nat): real {
    if map_ == [] then 0.0
    else
      var l := map_[|map_| - 1];
      SlotSum(m, map_[..|map_| - 1], p) + if l.pos == p then Read(m, Temp(l.cpu, p)) else 0.0
  }

  /** A thread alone adds up the slots of its map. */
  lemma {:induction false} AddRun(m: Memory<Cell>, map_: seq<Slot>, y: nat, p: nat)
    ensures Read(RunOps(m, AddOps(map_, y)), V(y, p)) == Read(m, V(y, p)) + SlotSum(m, map_, p)
    ensures forall t, q :: Read(RunOps(m, AddOps(map_, y)), Temp(t, q)) == Read(m, Temp(t, q))
  {
    hide AddOp, Exec, Read;
    if map_ != [] {
      var n := |map_| - 1;
      var init, l := AddOps(map_[..n], y), map_[n];
      AddRun(m, map_[..n], y, p);
      Snoc(init, AddOp(V(y, l.pos), Temp(l.cpu, l.pos)));
      var m1 := RunOps(m, init);
      AddExec(m1, V(y, l.pos), Temp(l.cpu, l.pos), V(y, p));
      forall t, q
        ensures Read(Exec(m1, AddOp(V(y, l.pos), Temp(l.cpu, l.pos))), Temp(t, q)) == Read(m1, Temp(t, q))
      {
        AddExec(m1, V(y, l.pos), Temp(l.cpu, l.pos), Temp(t, q));
      }
    }
  }

  // ----- Sums over the threads

  lemma {:induction false} EntriesSplit(crs: Crs, a: nat, m: nat, b: nat)
    requires crs.Valid() && a <= m <= b <= crs.n
    ensures Entries(crs, a, b) == Entries(crs, a, m) + Entries(crs, m, b)
    decreases b - m
  {
    hide RowEntries;
    if m == b {
      NilRight(Entries(crs, a, b));
    } else {
      EntriesSplit(crs, a, m, b - 1);
      Assoc(Entries(crs, a, m), Entries(crs, m, b - 1), RowEntries(crs, b - 1, crs.rowPtr[b]));
    }
  }

  lemma {:induction false} RowEntriesAre(crs: Crs, i: nat, k: nat)
    requires crs.Valid() && i < crs.n && crs.rowPtr[i] <= k <= crs.rowPtr[i + 1]
    ensures forall e :: e in RowEntries(crs, i, k) ==> e.at.y == i && 0 <= e.at.x < i && InRow(crs, i, e.at.x)
    decreases k
  {
    if k > crs.rowPtr[i] {
      RowEntriesAre(crs, i, k - 1);
      assert crs.rowPtr[i] <= k - 1 < crs.rowPtr[i + 1] && crs.colInd[k - 1] < i;
    }
  }

  lemma {:induction false} EntriesAre(crs: Crs, a: nat, b: nat)
    requires crs.Valid() && a <= b <= crs.n
    ensures forall e :: e in Entries(crs, a, b) ==> a <= e.at.y < b && 0 <= e.at.x < e.at.y && InRow(crs, e.at.y, e.at.x)
    decreases b - a
  {
    hide RowEntries, InRow;
    if a < b {
      EntriesAre(crs, a, b - 1);
      RowEntriesAre(crs, b - 1, crs.rowPtr[b]);
    }
  }

  /** Rows that do not hold p add nothing to row p. */
  lemma OtherRows(crs: Crs, a: nat, b: nat, x: seq<real>, p: nat)
    requires crs.Valid() && a <= b <= crs.n && !(a <= p < b)
    ensures Sum(Entries(crs, a, b), RowPart(p, x)) == 0.0
  {
    hide Entries, Mul;
    EntriesAre(crs, a, b);
    var es := Entries(crs, a, b);
    forall k | 0 <= k < |es|
      ensures RowPart(p, x)(es[k]) == 0.0
    {
      assert es[k] in es;
    }
    SumZero(es, RowPart(p, x));
  }

  /** A thread that neither owns p nor meets column p adds nothing to it. */
  lemma NotMet(crs: Crs, starts: seq<nat>, c: nat, x: seq<real>, p: nat)
    requires crs.Valid() && Partition(starts, crs.n) && c + 1 < |starts|
    requires !Remote(crs, starts, c, p) && !(starts[c] <= p < starts[c + 1])
    ensures starts[c] <= starts[c + 1] <= crs.n
    ensures Sum(Entries(crs, starts[c], starts[c + 1]), ColPart(p, x)) == 0.0
  {
    hide Entries, Mul, InRow;
    PartitionRows(starts, crs.n);
    EntriesAre(crs, starts[c], starts[c + 1]);
    var es := Entries(crs, starts[c], starts[c + 1]);
    forall k | 0 <= k < |es|
      ensures ColPart(p, x)(es[k]) == 0.0
    {
      assert es[k] in es;
    }
    SumZero(es, ColPart(p, x));
  }

  /** The remote contributions to p of the first c threads. */
  ghost function RemoteSum(m: Memory<Cell>, remote: (nat, nat) -> bool, c: nat, p: nat): real {
    if c == 0 then 0.0 else RemoteSum(m, remote, c - 1, p) + if remote(c - 1, p) then Read(m, Temp(c - 1, p)) else 0.0
  }

  lemma {:induction false} SlotSumAt(m: Memory<Cell>, remote: (nat, nat) -> bool, c: nat, q: nat, p: nat)
    ensures SlotSum(m, At(remote, c, q, 0), p) == if p == q then RemoteSum(m, remote, c, p) else 0.0
  {
    if c > 0 {
      SlotSumAt(m, remote, c - 1, q, p);
      var init := At(remote, c - 1, q, 0);
      if remote(c - 1, q) {
        Snoc(init, Slot(c - 1, q));
      } else {
        NilRight(init);
      }
    }
  }

  lemma {:induction false} SlotSumConcat(m: Memory<Cell>, a: seq<Slot>, b: seq<Slot>, p: nat)
    ensures SlotSum(m, a + b, p) == SlotSum(m, a, p) + SlotSum(m, b, p)
  {
    if b == [] {
      NilRight(a);
    } else {
      ButLast(a, b);
      SlotSumConcat(m, a, b[..|b| - 1], p);
    }
  }

  lemma {:induction false} SlotSumListed(m: Memory<Cell>, remote: (nat, nat) -> bool, ncpus: nat, s: nat, e: nat,
                                         p: nat)
    requires s <= e
    ensures SlotSum(m, Listed(remote, ncpus, s, e, 0), p) == if s <= p < e then RemoteSum(m, remote, ncpus, p) else 0.0
    decreases e - s
  {
    hide RemoteSum, At;
    if s < e {
      SlotSumListed(m, remote, ncpus, s, e - 1, p);
      SlotSumAt(m, remote, ncpus, e - 1, p);
      SlotSumConcat(m, Listed(remote, ncpus, s, e - 1, 0), At(remote, ncpus, e - 1, 0), p);
    }
  }

  /** Everything that meets column p: the owner of p, and the remote threads. */
  lemma {:induction false} AllColumns(crs: Crs, starts: seq<nat>, m: Memory<Cell>, x: seq<real>, p: nat, t: nat, c: nat)
    requires crs.Valid() && Partition(starts, crs.n) && c < |starts| && t + 1 < |starts|
         && starts[t] <= p < starts[t + 1]
    requires starts[c] <= crs.n && starts[t + 1] <= crs.n
    requires forall u: nat :: u + 1 < |starts| && Remote(crs, starts, u, p) ==>
               starts[u] <= starts[u + 1] <= crs.n && Read(m, Temp(u, p))
                    == Sum(Entries(crs, starts[u], starts[u + 1]), ColPart(p, x))
    ensures Sum(Entries(crs, 0, starts[c]), ColPart(p, x))
         == RemoteSum(m, RemoteOf(crs, starts), c, p)
            + if t < c then Sum(Entries(crs, starts[t], starts[t + 1]), ColPart(p, x)) else 0.0
  {
    hide Sum, Entries, ColPart, Remote, Crs.Valid;
    PartitionRows(starts, crs.n);
    if c == 0 {
      NoEntries(crs, 0);
      SumZero([], ColPart(p, x));
    } else {
      AllColumns(crs, starts, m, x, p, t, c - 1);
      EntriesSplit(crs, 0, starts[c - 1], starts[c]);
      SumConcat(Entries(crs, 0, starts[c - 1]), Entries(crs, starts[c - 1], starts[c]), ColPart(p, x));
      OwnNotRemote(crs, starts, t, p);
      if c - 1 != t {
        NotOwner(starts, crs.n, t, c - 1, p);
        if !Remote(crs, starts, c - 1, p) {
          NotMet(crs, starts, c - 1, x, p);
        }
      }
    }
  }

  lemma OwnNotRemote(crs: Crs, starts: seq<nat>, t: nat, p: nat)
    requires crs.Valid() && Partition(starts, crs.n) && t + 1 < |starts| && starts[t] <= p
    ensures !Remote(crs, starts, t, p)
  {
  }

  lemma NotOwner(starts: seq<nat>, n: nat, t: nat, u: nat, p: nat)
    requires Partition(starts, n) && t + 1 < |starts| && u + 1 < |starts| && t != u && starts[t] <= p < starts[t + 1]
    ensures !(starts[u] <= p < starts[u + 1])
  {
    if t < u {
      assert starts[t + 1] <= starts[u];
    } else {
      assert starts[u + 1] <= starts[t];
    }
  }

  lemma AllRows(crs: Crs, starts: seq<nat>, x: seq<real>, p: nat, t: nat)
    requires crs.Valid() && Partition(starts, crs.n) && t + 1 < |starts| && starts[t] <= p < starts[t + 1] <= crs.n
    ensures Sum(Entries(crs, 0, crs.n), RowPart(p, x)) == Sum(Entries(crs, starts[t], starts[t + 1]), RowPart(p, x))
  {
    hide Sum, Entries, RowPart;
    var a, b := starts[t], starts[t + 1];
    EntriesSplit(crs, 0, a, crs.n);
    EntriesSplit(crs, a, b, crs.n);
    SumConcat(Entries(crs, 0, a), Entries(crs, a, crs.n), RowPart(p, x));
    SumConcat(Entries(crs, a, b), Entries(crs, b, crs.n), RowPart(p, x));
    OtherRows(crs, 0, a, x, p);
    OtherRows(crs, b, crs.n, x, p);
  }

  // ----- The three phases

  /** Every remote cell is zero after the first phase, and the vectors are untouched. */
  lemma AfterZero(crs: Crs, starts: seq<nat>, maps: seq<seq<Slot>>, cuts: seq<nat>, x: nat, m: Memory<Cell>)
    requires Mapped(crs, starts, maps, cuts)
    ensures var m1 := RunThreads(m, Round(crs, starts, maps, x)[0]);
            && (forall c: nat, p: nat :: p < crs.n && Remote(crs, starts, c, p) ==> Read(m1, Temp(c, p)) == 0.0)
            && forall w: nat, p: nat :: Read(m1, V(w, p)) == Read(m, V(w, p))
  {
    hide MapsFor, MulOps, ZeroOps, AddOps, Crs.Valid, Partition, Writes, Touches, RunThreads, RunOps, RaceFree, MetIn, Within, Read;
    var threads := Round(crs, starts, maps, x)[0];
    var m1 := RunThreads(m, threads);
    ZeroRaceFree(crs, starts, maps, cuts, x);
    forall c: nat, p: nat | p < crs.n && Remote(crs, starts, c, p)
      ensures Read(m1, Temp(c, p)) == 0.0
    {
      var i := Covered(maps, cuts, RemoteOf(crs, starts), |starts| - 1, crs.n, 0, c, p);
      ZeroWrites(maps[i], Slot(c, p));
      Isolated(m, threads, i, Temp(c, p));
      ZeroRun(m, maps[i], Slot(c, p));
    }
    forall w: nat, p: nat
      ensures Read(m1, V(w, p)) == Read(m, V(w, p))
    {
      forall t | 0 <= t < |threads|
        ensures !Writes(threads[t], V(w, p))
      {
        ZeroWithin(maps[t]);
        WithinFacts(ZeroOps(maps[t]), Slots(maps[t]), Nothing());
      }
      Unwritten(m, threads, V(w, p));
    }
  }

  /** What thread t leaves in a cell that only it may write. */
  lemma MulCell(crs: Crs, starts: seq<nat>, maps: seq<seq<Slot>>, cuts: seq<nat>, x: nat, m: Memory<Cell>, t: nat,
                c: Cell)
    requires Mapped(crs, starts, maps, cuts) && x < 2 && t < |maps| && starts[t] <= starts[t + 1] <= crs.n
    requires Own(t, starts[t], starts[t + 1], x)(c)
    ensures Read(RunThreads(m, Round(crs, starts, maps, x)[1]), c)
         == Read(RunOps(m, MulOps(crs, t, starts[t], starts[t + 1], x)), c)
  {
    hide MapsFor, MulOps, ZeroOps, AddOps, Crs.Valid, Partition, Writes, Touches, RunThreads, RunOps, RaceFree, Own, Read;
    PartitionRows(starts, crs.n);
    var threads := Round(crs, starts, maps, x)[1];
    MulRaceFree(crs, starts, maps, cuts, x);
    forall u | 0 <= u < |threads| && u != t
      ensures !Writes(threads[u], c)
    {
      OwnDisjoint(starts, crs.n, t, u, x, c);
      MulFacts(crs, u, starts[u], starts[u + 1], x, c);
    }
    OwnedBy(m, threads, t, c);
  }

  /** After the second phase: own rows in y, remote columns in the temporaries. */
  lemma AfterMul(crs: Crs, starts: seq<nat>, maps: seq<seq<Slot>>, cuts: seq<nat>, x: nat, m: Memory<Cell>, t: nat,
                 p: nat)
    requires Mapped(crs, starts, maps, cuts) && x < 2 && t < |maps| && p < crs.n && starts[t] <= starts[t + 1] <= crs.n
    ensures var m2, es := RunThreads(m, Round(crs, starts, maps, x)[1]), Entries(crs, starts[t], starts[t + 1]);
            && (starts[t] <= p < starts[t + 1] ==> |crs.dvalues| == crs.n && Read(m2, V(1 - x % 2, p)) == PartProduct(crs, es, View(m, x, crs.n), p))
            && (p < starts[t] ==> Read(m2, Temp(t, p)) == Read(m, Temp(t, p)) + Sum(es, ColPart(p, View(m, x, crs.n))))
  {
    hide MapsFor, MulOps, ZeroOps, AddOps, Partition, RunThreads, RunOps, PartProduct, Sum, Entries, Read;
    var s, e, y := starts[t], starts[t + 1], 1 - x % 2;
    var m' := RunOps(m, MulOps(crs, t, s, e, x));
    MulRun(crs, t, s, e, x, m);
    DoingDone(crs, s, e, View(m, x, crs.n), View(m, y, crs.n), TempView(m, t, crs.n), View(m', y, crs.n),
              TempView(m', t, crs.n));
    if s <= p < e {
      MulCell(crs, starts, maps, cuts, x, m, t, V(y, p));
      assert View(m', y, crs.n)[p] == Read(m', V(y, p));
    }
    if p < s {
      MulCell(crs, starts, maps, cuts, x, m, t, Temp(t, p));
      assert TempView(m', t, crs.n)[p] == Read(m', Temp(t, p)) && TempView(m, t, crs.n)[p] == Read(m, Temp(t, p));
    }
  }

  /** After the third phase the remote contributions have arrived. */
  lemma AfterAdd(crs: Crs, starts: seq<nat>, maps: seq<seq<Slot>>, cuts: seq<nat>, x: nat, m: Memory<Cell>, p: nat)
    requires Mapped(crs, starts, maps, cuts) && p < crs.n
    ensures Read(RunThreads(m, Round(crs, starts, maps, x)[2]), V(1 - x % 2, p))
         == Read(m, V(1 - x % 2, p)) + RemoteSum(m, RemoteOf(crs, starts), |starts| - 1, p)
  {
    hide MulOps, ZeroOps, AddOps, Crs.Valid, Writes, Touches, RunThreads, RunOps, RaceFree, Within, Read, Listed, Remote, RemoteSum;
    var y, remote, ncpus := 1 - x % 2, RemoteOf(crs, starts), |starts| - 1;
    var threads := Round(crs, starts, maps, x)[2];
    AddRaceFree(crs, starts, maps, cuts, x);
    var j := CutOf(cuts, crs.n, p, ncpus);
    forall u | 0 <= u < |threads| && u != j
      ensures !Writes(threads[u], V(y, p))
    {
      AddWithin(maps[u], y);
      WithinFacts(AddOps(maps[u], y), Positions(maps[u], y), Either(Positions(maps[u], y), Temps()));
      MapMembers(maps, cuts, remote, ncpus, crs.n, 0, u);
      NotOwner(cuts, crs.n, j, u, p);
    }
    OwnedBy(m, threads, j, V(y, p));
    AddRun(m, maps[j], y, p);
    SlotSumListed(m, remote, ncpus, cuts[j], cuts[j + 1], p);
  }

  /** One round multiplies by the symmetric matrix, whatever the memory held before. */
  lemma RoundMultiplies(crs: Crs, starts: seq<nat>, maps: seq<seq<Slot>>, cuts: seq<nat>, x: nat, m: Memory<Cell>)
    requires Mapped(crs, starts, maps, cuts) && x < 2
    ensures View(RunPhases(m, Round(crs, starts, maps, x)), 1 - x % 2, crs.n) == Product(crs, View(m, x, crs.n))
  {
    hide MapsFor, RunThreads, Read, PartProduct, Crs.Valid, Remote, Partition;
    var round := Round(crs, starts, maps, x);
    var m1 := RunThreads(m, round[0]);
    var m2 := RunThreads(m1, round[1]);
    var m3 := RunThreads(m2, round[2]);
    ThreePhases(m, round);
    AfterZero(crs, starts, maps, cuts, x, m);
    assert View(m1, x, crs.n) == View(m, x, crs.n);
    forall p | 0 <= p < crs.n
      ensures Read(m3, V(1 - x % 2, p)) == Product(crs, View(m, x, crs.n))[p]
    {
      CellProduct(crs, starts, maps, cuts, x, m1, p);
    }
  }

  lemma CellProduct(crs: Crs, starts: seq<nat>, maps: seq<seq<Slot>>, cuts: seq<nat>, x: nat, m: Memory<Cell>, p: nat)
    requires Mapped(crs, starts, maps, cuts) && x < 2 && p < crs.n
    requires forall c: nat, q: nat :: q < crs.n && Remote(crs, starts, c, q) ==> Read(m, Temp(c, q)) == 0.0
    ensures Read(RunThreads(RunThreads(m, Round(crs, starts, maps, x)[1]), Round(crs, starts, maps, x)[2]), V(1 - x % 2, p))
         == Product(crs, View(m, x, crs.n))[p]
  {
    hide MapsFor, RunThreads, Read, Remote, PartProduct, RemoteSum, Crs.Valid, Partition;
    var m2 := RunThreads(m, Round(crs, starts, maps, x)[1]);
    AfterAdd(crs, starts, maps, cuts, x, m2, p);
    OwnAndRemote(crs, starts, maps, cuts, x, m, p);
  }

  /** After the multiplication y and the temporaries hold the product between them. */
  lemma OwnAndRemote(crs: Crs, starts: seq<nat>, maps: seq<seq<Slot>>, cuts: seq<nat>, x: nat, m: Memory<Cell>, p: nat)
    requires Mapped(crs, starts, maps, cuts) && x < 2 && p < crs.n
    requires forall c: nat, q: nat :: q < crs.n && Remote(crs, starts, c, q) ==> Read(m, Temp(c, q)) == 0.0
    ensures var m2 := RunThreads(m, Round(crs, starts, maps, x)[1]);
            Read(m2, V(1 - x % 2, p)) + RemoteSum(m2, RemoteOf(crs, starts), |starts| - 1, p)
                 == Product(crs, View(m, x, crs.n))[p]
  {
    hide MapsFor, RunThreads, Read, Remote, Sum, Entries, RowPart, ColPart, MulOps, AddOps, ZeroOps, RemoteSum, Mul;
    var xs, ncpus := View(m, x, crs.n), |starts| - 1;
    var m2 := RunThreads(m, Round(crs, starts, maps, x)[1]);
    PartitionRows(starts, crs.n);
    var t := CutOf(starts, crs.n, p, ncpus);
    AfterMul(crs, starts, maps, cuts, x, m, t, p);
    forall u: nat | u + 1 < |starts| && Remote(crs, starts, u, p)
      ensures Read(m2, Temp(u, p)) == Sum(Entries(crs, starts[u], starts[u + 1]), ColPart(p, xs))
    {
      RemoteLeft(crs, starts, u, p);
      AfterMul(crs, starts, maps, cuts, x, m, u, p);
    }
    AllColumns(crs, starts, m2, xs, p, t, ncpus);
    AllRows(crs, starts, xs, p, t);
  }

  lemma RemoteLeft(crs: Crs, starts: seq<nat>, u: nat, p: nat)
    requires crs.Valid() && Partition(starts, crs.n) && Remote(crs, starts, u, p)
    ensures u + 1 < |starts| && p < starts[u]
  {
  }

  // ----- All rounds

  /** The code of `loops` rounds: the vectors change roles after each. */
  function Rounds(crs: Crs, starts: seq<nat>, maps: seq<seq<Slot>>, loops: nat): seq<seq<seq<Op<Cell>>>>
    requires crs.Valid() && Partition(starts, crs.n) && |maps| + 1 == |starts|
  {
    if loops == 0 then [] else Rounds(crs, starts, maps, loops - 1) + Round(crs, starts, maps, (loops - 1) % 2)
  }

  /** x multiplied `loops` times. */
  function Power(crs: Crs, x: seq<real>, loops: nat): (r: seq<real>)
    requires crs.Valid() && |x| == crs.n
    ensures |r| == crs.n
  {
    if loops == 0 then x else Product(crs, Power(crs, x, loops - 1))
  }

  lemma {:induction false} RoundsRaceFree(crs: Crs, starts: seq<nat>, maps: seq<seq<Slot>>, cuts: seq<nat>, loops: nat)
    requires Mapped(crs, starts, maps, cuts)
    ensures AllRaceFree(Rounds(crs, starts, maps, loops))
    ensures Phased(Rounds(crs, starts, maps, loops), |maps|)
  {
    hide MapsFor, Round, RaceFree, Crs.Valid;
    if loops > 0 {
      RoundsRaceFree(crs, starts, maps, cuts, loops - 1);
      ZeroRaceFree(crs, starts, maps, cuts, (loops - 1) % 2);
      MulRaceFree(crs, starts, maps, cuts, (loops - 1) % 2);
      AddRaceFree(crs, starts, maps, cuts, (loops - 1) % 2);
    }
  }

  lemma {:induction false} RoundsMultiply(crs: Crs, starts: seq<nat>, maps: seq<seq<Slot>>, cuts: seq<nat>, loops: nat,
                                          m: Memory<Cell>)
    requires Mapped(crs, starts, maps, cuts)
    ensures View(RunPhases(m, Rounds(crs, starts, maps, loops)), loops % 2, crs.n)
         == Power(crs, View(m, 0, crs.n), loops)
  {
    hide MapsFor, Round, Product, RunPhases, Crs.Valid, Partition;
    if loops == 0 {
      NoPhases(m);
    } else {
      var before := Rounds(crs, starts, maps, loops - 1);
      var x := (loops - 1) % 2;
      RoundsMultiply(crs, starts, maps, cuts, loops - 1, m);
      RunPhasesConcat(m, before, Round(crs, starts, maps, x));
      RoundMultiplies(crs, starts, maps, cuts, x, RunPhases(m, before));
    }
  }

  /** Every finished run of the threads, in any interleaving and from any memory, has
      multiplied the input vector `loops` times. */
  lemma EveryRunMultiplies(crs: Crs, starts: seq<nat>, maps: seq<seq<Slot>>, cuts: seq<nat>, loops: nat,
                           code: seq<seq<Instr<Cell>>>, m: Memory<Cell>, trace: seq<Conf<Cell>>)
    requires Mapped(crs, starts, maps, cuts) && CodeFor(code, Rounds(crs, starts, maps, loops))
    requires Run(code, m, trace) && Finished(code, trace[|trace| - 1])
    ensures View(trace[|trace| - 1].mem, loops % 2, crs.n) == Power(crs, View(m, 0, crs.n), loops)
  {
    hide MapsFor, Rounds, Power, RunPhases, CodeFor, Finished, Step, Crs.Valid, Partition;
    RoundsRaceFree(crs, starts, maps, cuts, loops);
    FinishedRun(code, Rounds(crs, starts, maps, loops), m, trace);
    RoundsMultiply(crs, starts, maps, cuts, loops, m);
    SameView(trace[|trace| - 1].mem, RunPhases(m, Rounds(crs, starts, maps, loops)), loops % 2, crs.n);
  }

  /** No deadlock: every run of the rounds can be continued to a finished one. */
  lemma RoundsCanFinish(crs: Crs, starts: seq<nat>, maps: seq<seq<Slot>>, cuts: seq<nat>, loops: nat,
                        code: seq<seq<Instr<Cell>>>, m: Memory<Cell>, trace: seq<Conf<Cell>>)
    returns (full: seq<Conf<Cell>>)
    requires Mapped(crs, starts, maps, cuts) && CodeFor(code, Rounds(crs, starts, maps, loops)) && Run(code, m, trace)
    ensures trace <= full && Run(code, m, full) && Finished(code, full[|full| - 1])
    ensures View(full[|full| - 1].mem, loops % 2, crs.n) == Power(crs, View(m, 0, crs.n), loops)
  {
    hide MapsFor, Rounds, Power, CodeFor, Finished, Step, Crs.Valid, Partition;
    RoundsRaceFree(crs, starts, maps, cuts, loops);
    full := CanFinish(code, Rounds(crs, starts, maps, loops), m, trace);
    EveryRunMultiplies(crs, starts, maps, cuts, loops, code, m, full);
  }

  lemma SameView(a: Memory<Cell>, b: Memory<Cell>, w: nat, n: nat)
    requires Same(a, b)
    ensures View(a, w, n) == View(b, w, n)
  {
  }

  // ----- The vector operations of the loop

  /** All temporary vectors have room for every position of a map. */
  ghost predicate Fits(temps: seq<array<real>>, map_: seq<Slot>) {
    forall k :: 0 <= k < |map_| ==> map_[k].cpu < |temps| && map_[k].pos < temps[map_[k].cpu].Length
  }

  /** Zeroes the cells a map lists and no others. */
  method InitFromMap(temps: seq<array<real>>, map_: seq<Slot>)
    requires Fits(temps, map_)
    requires forall a, b :: 0 <= a < b < |temps| ==> temps[a] != temps[b]
    modifies set a | a in temps
    ensures forall c, p :: 0 <= c < |temps| && 0 <= p < temps[c].Length ==>
              temps[c][p] == if Slot(c, p) in map_ then 0.0 else old(temps[c][p])
  {
    var i := 0;
    while i < |map_|
      invariant 0 <= i <= |map_|
      invariant forall c, p :: 0 <= c < |temps| && 0 <= p < temps[c].Length ==>
                  temps[c][p] == if Slot(c, p) in map_[..i] then 0.0 else old(temps[c][p])
    {
      temps[map_[i].cpu][map_[i].pos] := 0.0;
      assert map_[..i + 1] == map_[..i] + [map_[i]];
      i := i + 1;
    }
    assert map_[..i] == map_;
  }

  /** The values the slots of position p hold, in the given vectors. */
  ghost function Gathered(temps: seq<array<real>>, map_: seq<Slot>, p: nat): real
    requires Fits(temps, map_)
    reads set a | a in temps
  {
    if map_ == [] then 0.0
    else
      var l := map_[|map_| - 1];
      Gathered(temps, map_[..|map_| - 1], p) + if l.pos == p then temps[l.cpu][l.pos] else 0.0
  }

  /** Adds the cells a map lists to v. */
  method AddFromMap(v: array<real>, temps: seq<array<real>>, map_: seq<Slot>)
    requires Fits(temps, map_) && v !in temps && forall k :: 0 <= k < |map_| ==> map_[k].pos < v.Length
    modifies v
    ensures forall p :: 0 <= p < v.Length ==> v[p] == old(v[p]) + Gathered(temps, map_, p)
  {
    var i := 0;
    while i < |map_|
      invariant 0 <= i <= |map_|
      invariant forall p :: 0 <= p < v.Length ==> v[p] == old(v[p]) + Gathered(temps, map_[..i], p)
    {
      var l := map_[i];
      assert map_[..i + 1][..i] == map_[..i];
      v[l.pos] := v[l.pos] + temps[l.cpu][l.pos];
      i := i + 1;
    }
    assert map_[..i] == map_;
  }
}

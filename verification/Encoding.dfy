/** The encoder on whole matrices.

    `Valid` is what every reachable matrix keeps.  `EncodeKeepsMeaning`: encoding
    to any order, over whatever patterns exist already, keeps `Valid` and every
    cell.  `DecodeUndoesEncode`: decoding the same order restores the elements. */
module Encoding {
  import opened Orders
  import opened Matrix
  import opened Products
  import opened Seqs
  import opened Reorder
  import opened RowCodec
  import opened RowShape
  import opened MatrixCodec

  // ----- The invariant

  /** Place a of a pattern's own order is strictly inside the pattern's span. */
  predicate InSpan(start: Coord, p: Pattern, n: int, a: Coord) {
    a.y == start.y && start.x < a.x <= start.x + Times(p.Step(), n - 1)
  }

  /** No element is anchored inside the span of a pattern, seen in the pattern's order. */
  ghost predicate Tight(o: Order, d: Dims, ps: seq<Coo>) {
    forall p, q :: p in ps && q in ps && p.e.Pat? ==> Apart(o, d, p, q)
  }

  predicate Apart(o: Order, d: Dims, p: Coo, q: Coo)
    requires p.e.Pat?
  {
    !InSpan(StartOf(o, d, p.At(), p.e.p), p.e.p, |p.e.vals|, StartOf(o, d, q.At(), p.e.p))
  }

  ghost predicate Valid(o: Order, d: Dims, rows: Rows) {
    Good(o, d, rows) && Tight(o, d, Points(rows))
  }

  // ----- Points, row by row

  lemma {:induction false} PointsMember(rows: Rows, c: Coo)
    ensures c in Points(rows) <==> 1 <= c.y <= |rows| && c.e in rows[c.y - 1]
  {
    if rows != [] {
      var n := |rows| - 1;
      PointsMember(rows[..n], c);
      RowMember(|rows|, rows[n], c);
    }
  }

  lemma RowMember(y: int, row: seq<Elem>, c: Coo)
    ensures c in RowPoints(y, row) <==> c.y == y && c.e in row
  {
    if c.y == y && c.e in row {
      var i :| 0 <= i < |row| && row[i] == c.e;
      assert RowPoints(y, row)[i] == c;
    }
  }

  lemma {:induction false} SortedByRows(rows: Rows)
    ensures Sorted(Points(rows)) <==> forall i :: 0 <= i < |rows| ==> RowSorted(rows[i])
  {
    hide RowSorted;
    if rows != [] {
      var n := |rows| - 1;
      SortedByRows(rows[..n]);
      PointsRange(rows[..n]);
      SortedAppend(Points(rows[..n]), |rows|, rows[n]);
      assert forall i :: 0 <= i < n ==> rows[..n][i] == rows[i];
    }
  }

  lemma SortedAppend(ps: seq<Coo>, y: int, row: seq<Elem>)
    requires forall i :: 0 <= i < |ps| ==> ps[i].y < y
    ensures Sorted(ps + RowPoints(y, row)) <==> Sorted(ps) && RowSorted(row)
  {
    var all := ps + RowPoints(y, row);
    if Sorted(all) {
      forall i, j | 0 <= i < j < |ps|
        ensures Less(ps[i].At(), ps[j].At())
      {
        assert all[i] == ps[i] && all[j] == ps[j];
      }
      forall i, j | 0 <= i < j < |row|
        ensures row[i].x < row[j].x
      {
        assert Less(all[|ps| + i].At(), all[|ps| + j].At());
      }
    }
  }

  lemma GoodMember(o: Order, d: Dims, ps: seq<Coo>)
    ensures GoodPoints(o, d, ps) <==> forall c :: c in ps ==> GoodElem(o, d, c)
  {
    hide GoodElem;
  }

  /** The facts about one row that the row encoder relies on. */
  ghost predicate RowValid(o: Order, d: Dims, y: int, row: seq<Elem>) {
    && (forall e :: e in row ==> GoodElem(o, d, Coo(y, e)))
    && RowTight(o, row)
    && RowSorted(row) && PositiveXs(row) && WellSized(row)
  }

  lemma RowsValid(o: Order, d: Dims, rows: Rows, y: int)
    requires Valid(o, d, rows) && 1 <= y <= |rows|
    ensures RowValid(o, d, y, rows[y - 1])
  {
    hide GoodElem, Points, Apart, LastX;
    var row := rows[y - 1];
    SortedByRows(rows);
    GoodMember(o, d, Points(rows));
    forall e | e in row
      ensures GoodElem(o, d, Coo(y, e)) && e.x >= 1 && (e.Pat? ==> |e.vals| >= 1 && e.p.Step() >= 1)
    {
      PointsMember(rows, Coo(y, e));
      ElemFacts(o, d, Coo(y, e));
    }
    forall i, j | 0 <= i < j < |row|
      ensures LastX(o, row[i]) < row[j].x
    {
      PointsMember(rows, Coo(y, row[i]));
      PointsMember(rows, Coo(y, row[j]));
      if row[i].Pat? && row[i].p.order == o {
        assert Apart(o, d, Coo(y, row[i]), Coo(y, row[j]));
        OwnSpan(o, d, y, row[i], row[j]);
      } else {
        PlainLast(o, row[i]);
      }
    }
  }

  lemma PlainLast(o: Order, e: Elem)
    requires !(e.Pat? && e.p.order == o)
    ensures LastX(o, e) == e.x
  {
  }

  lemma ElemFacts(o: Order, d: Dims, c: Coo)
    requires GoodElem(o, d, c)
    ensures c.e.x >= 1 && 1 <= c.y
    ensures c.e.Pat? ==> |c.e.vals| >= 1 && c.e.p.Step() >= 1
  {
    hide Map, RMap;
    MapRowBound(o, d, RMap(o, d, c.At()));
  }

  /** In its own order a pattern starts at its anchor. */
  lemma OwnSpan(o: Order, d: Dims, y: int, p: Elem, q: Elem)
    requires GoodElem(o, d, Coo(y, p)) && GoodElem(o, d, Coo(y, q)) && p.Pat? && p.p.order == o
    requires p.x < q.x
    ensures Apart(o, d, Coo(y, p), Coo(y, q)) <==> LastX(o, p) < q.x
  {
    hide Map, RMap, Times;
  }

  // ----- Encoding one matrix in its current order

  function EncodedRows(c: Config, rows: Rows): (r: Rows)
    requires c.Good()
    ensures |r| == |rows|
    ensures forall i {:trigger r[i]} :: 0 <= i < |rows| ==> r[i] == EncodedRow(c, rows[i])
  {
    seq(|rows|, i requires 0 <= i < |rows| => EncodedRow(c, rows[i]))
  }

  lemma FromRowGood(c: Config, d: Dims, y: int, row: seq<Elem>, e: Elem)
    requires c.Good() && RowValid(c.order, d, y, row) && FromRow(c, row, e)
    ensures GoodElem(c.order, d, Coo(y, e))
    ensures exists q :: q in row && q.x == e.x
  {
    hide Map, RMap, RowTight, RowSorted, PositiveXs, WellSized, Times;
    if e !in row {
      NewPatternGood(c, d, y, row, e);
    }
  }

  lemma NewPatternGood(c: Config, d: Dims, y: int, row: seq<Elem>, e: Elem)
    requires c.Good() && (forall q :: q in row ==> GoodElem(c.order, d, Coo(y, q)))
    requires e.Pat? && GoodOut(c, e) && forall s :: s in Opened(c.order, e) ==> s.Single? && s in row
    ensures GoodElem(c.order, d, Coo(y, e))
    ensures exists q :: q in row && q.x == e.x
  {
    hide Map, RMap, Times, Singles, InOrder, Aligned;
    var o := c.order;
    var s := Opened(o, e);
    forall k | 0 <= k < e.p.size
      ensures Single(e.x + Times(e.p.Step(), k), e.vals[k]) in row
      ensures InOrder(o, d, Coord(y, e.x + Times(e.p.Step(), k)))
    {
      SinglesIndex(e.x, e.p.Step(), e.vals, k);
      assert s[k] in s;
      assert GoodElem(o, d, Coo(y, s[k]));
    }
    TimesZero(e.p.Step());
    assert Single(e.x, e.vals[0]) in row;
    PatternInOwnOrder(o, d, y, e);
  }

  lemma PatternInOwnOrder(o: Order, d: Dims, y: int, e: Elem)
    requires e.Pat? && e.p.order == o && e.p.Good() && |e.vals| == e.p.size
    requires o.Align() != 0 ==> (e.x - 1) % o.Align() == 0
    requires forall k :: 0 <= k < e.p.size ==> InOrder(o, d, Coord(y, e.x + Times(e.p.Step(), k)))
    requires InOrder(o, d, Coord(y, e.x))
    ensures GoodElem(o, d, Coo(y, e))
  {
    hide Map, RMap;
    if o.Align() != 0 {
      AlignedPlace(o, d, Coord(y, e.x));
    }
    forall k | 0 <= k < e.p.size
      ensures InOrder(o, d, Place(e.p, StartOf(o, d, Coord(y, e.x), e.p), k))
    {
      assert e.p.Step() * k == k * e.p.Step();
      assert InOrder(o, d, Coord(y, e.x + Times(e.p.Step(), k)));
    }
  }

  /** The encoded row: same opened row, well formed elements, tight, anchored only
      where the row was anchored. */
  lemma EncodedRowValid(c: Config, d: Dims, y: int, row: seq<Elem>)
    requires c.Good() && RowValid(c.order, d, y, row)
    ensures RowValid(c.order, d, y, EncodedRow(c, row))
    ensures Expand(c.order, EncodedRow(c, row)) == Expand(c.order, row)
    ensures forall e :: e in EncodedRow(c, row) ==> FromRow(c, row, e) && exists q :: q in row && q.x == e.x
    ensures row != [] ==> EncodedRow(c, row) != []
  {
    hide GoodElem, EncodedRow, Expand, FromRow, RowTight, RowSorted;
    var r := EncodedRow(c, row);
    EncodedRowExpand(c, row);
    EncodedRowFrom(c, row);
    forall e | e in r
      ensures GoodElem(c.order, d, Coo(y, e)) && e.x >= 1 && (e.Pat? ==> |e.vals| >= 1 && e.p.Step() >= 1)
      ensures exists q :: q in row && q.x == e.x
    {
      FromRowGood(c, d, y, row, e);
      ElemFacts(c.order, d, Coo(y, e));
    }
    TightOpens(c.order, row);
    TightOpens(c.order, r);
    TightSorted(c.order, r);
    if row != [] && r == [] {
      ExpandLast(c.order, row);
      assert Expand(c.order, []) == [] by { ExpandNone(c.order); }
    }
  }

  lemma EncodedElem(c: Config, d: Dims, rows: Rows, q: Coo)
    requires c.Good() && Valid(c.order, d, rows) && q in Points(EncodedRows(c, rows))
    ensures 1 <= q.y <= |rows| && q.e in EncodedRow(c, rows[q.y - 1])
    ensures RowValid(c.order, d, q.y, EncodedRow(c, rows[q.y - 1]))
    ensures FromRow(c, rows[q.y - 1], q.e) && exists e0 :: e0 in rows[q.y - 1] && e0.x == q.e.x
    ensures GoodElem(c.order, d, q)
  {
    hide Points, Valid, RowValid, EncodedRow, FromRow, GoodElem;
    PointsMember(EncodedRows(c, rows), q);
    RowsValid(c.order, d, rows, q.y);
    EncodedRowValid(c, d, q.y, rows[q.y - 1]);
    RowValidGood(c.order, d, q.y, EncodedRow(c, rows[q.y - 1]), q.e);
  }

  /** Every element of the output is anchored where an element of the input was. */
  lemma EncodedAnchors(c: Config, d: Dims, rows: Rows, q: Coo) returns (q0: Coo)
    requires c.Good() && Valid(c.order, d, rows) && q in Points(EncodedRows(c, rows))
    ensures q0 in Points(rows) && q0.At() == q.At()
  {
    hide Points, Valid, RowValid, EncodedRow, FromRow, GoodElem, EncodedRows;
    EncodedElem(c, d, rows, q);
    var e0 :| e0 in rows[q.y - 1] && e0.x == q.e.x;
    q0 := Coo(q.y, e0);
    PointsMember(rows, q0);
  }

  lemma RowValidGood(o: Order, d: Dims, y: int, row: seq<Elem>, e: Elem)
    requires RowValid(o, d, y, row) && e in row
    ensures GoodElem(o, d, Coo(y, e))
  {
  }

  /** A pattern of order `o` and any element of the same valid row are apart. */
  lemma RowApart(o: Order, d: Dims, y: int, row: seq<Elem>, p: Elem, q: Elem)
    requires RowValid(o, d, y, row) && p in row && q in row && p.Pat? && p.p.order == o
    ensures Apart(o, d, Coo(y, p), Coo(y, q))
  {
    hide GoodElem, LastX, Apart;
    var i :| 0 <= i < |row| && row[i] == p;
    var j :| 0 <= j < |row| && row[j] == q;
    if i < j {
      OwnSpan(o, d, y, p, q);
    } else {
      assert q.x <= p.x;
      BehindApart(o, d, y, p, q);
    }
  }

  lemma BehindApart(o: Order, d: Dims, y: int, p: Elem, q: Elem)
    requires GoodElem(o, d, Coo(y, p)) && GoodElem(o, d, Coo(y, q)) && p.Pat? && p.p.order == o && q.x <= p.x
    ensures Apart(o, d, Coo(y, p), Coo(y, q))
  {
    hide Map, RMap, Times;
  }

  lemma OtherRowApart(o: Order, d: Dims, p: Coo, q: Coo)
    requires GoodElem(o, d, p) && GoodElem(o, d, q) && p.e.Pat? && p.e.p.order == o && p.y != q.y
    ensures Apart(o, d, p, q)
  {
    hide Map, RMap, Times;
  }

  lemma ApartByAnchor(o: Order, d: Dims, p: Coo, q: Coo, q0: Coo)
    requires p.e.Pat? && Apart(o, d, p, q0) && q0.At() == q.At()
    ensures Apart(o, d, p, q)
  {
  }

  lemma EncodedTight(c: Config, d: Dims, rows: Rows)
    requires c.Good() && Valid(c.order, d, rows)
    ensures Tight(c.order, d, Points(EncodedRows(c, rows)))
  {
    hide Points, EncodedRow, GoodElem, RowValid, GoodOut, Apart, Opened, Good;
    var ps := Points(EncodedRows(c, rows));
    forall p, q | p in ps && q in ps && p.e.Pat?
      ensures Apart(c.order, d, p, q)
    {
      EncodedElem(c, d, rows, p);
      EncodedElem(c, d, rows, q);
      if p.e in rows[p.y - 1] {
        var q0 := EncodedAnchors(c, d, rows, q);
        PointsMember(rows, p);
        assert Apart(c.order, d, p, q0);
        ApartByAnchor(c.order, d, p, q, q0);
      } else {
        OutOrder(c, p.e);
        if p.y == q.y {
          RowApart(c.order, d, p.y, EncodedRow(c, rows[p.y - 1]), p.e, q.e);
        } else {
          OtherRowApart(c.order, d, p, q);
        }
      }
    }
  }

  lemma OutOrder(c: Config, e: Elem)
    requires GoodOut(c, e) && e.Pat?
    ensures e.p.order == c.order
  {
  }

  lemma RowValidSorted(o: Order, d: Dims, y: int, row: seq<Elem>)
    requires RowValid(o, d, y, row)
    ensures RowSorted(row)
  {
  }

  lemma EncodedRowsValid(c: Config, d: Dims, rows: Rows)
    requires c.Good() && Valid(c.order, d, rows)
    ensures Valid(c.order, d, EncodedRows(c, rows))
  {
    hide Points, EncodedRow, GoodElem, RowValid, Tight, Sorted, GoodPoints, Expand, FromRow;
    var rs := EncodedRows(c, rows);
    EncodedTight(c, d, rows);
    forall i | 0 <= i < |rs|
      ensures RowSorted(rs[i]) && (rows[i] != [] ==> rs[i] != [])
    {
      RowsValid(c.order, d, rows, i + 1);
      EncodedRowValid(c, d, i + 1, rows[i]);
      RowValidSorted(c.order, d, i + 1, rs[i]);
    }
    SortedByRows(rs);
    forall q | q in Points(rs)
      ensures GoodElem(c.order, d, q)
    {
      EncodedElem(c, d, rows, q);
    }
    GoodMember(c.order, d, Points(rs));
  }

  // ----- Cells of opened rows

  function RowCells(o: Order, d: Dims, y: int, row: seq<Elem>): seq<Entry> {
    PointCells(o, d, RowPoints(y, row))
  }

  lemma {:induction false} SinglesCells(o: Order, d: Dims, y: int, es: seq<Elem>)
    requires AllSingle(es)
    ensures |RowCells(o, d, y, es)| == |es|
    ensures forall i :: 0 <= i < |es| ==> RowCells(o, d, y, es)[i] == Entry(RMap(o, d, Coord(y, es[i].x)), es[i].val)
  {
    hide RMap;
    if es != [] {
      var n := |es| - 1;
      SinglesCells(o, d, y, es[..n]);
      assert RowPoints(y, es)[..n] == RowPoints(y, es[..n]);
    }
  }

  lemma {:induction false} SinglesAreSingle(start: int, step: int, vs: seq<real>)
    ensures AllSingle(Singles(start, step, vs))
    decreases |vs|
  {
    if vs != [] {
      SinglesAreSingle(start + step, step, vs[1..]);
    }
  }

  /** A pattern means the same as the single elements it opens into. */
  lemma OpenedCells(o: Order, d: Dims, y: int, e: Elem)
    requires GoodElem(o, d, Coo(y, e))
    ensures RowCells(o, d, y, Opened(o, e)) == ElemCells(o, d, Coo(y, e))
  {
    hide RMap, Map, Singles;
    if e.Pat? && e.p.order == o {
      var s := Singles(e.x, e.p.Step(), e.vals);
      SinglesAreSingle(e.x, e.p.Step(), e.vals);
      SinglesCells(o, d, y, s);
      forall k | 0 <= k < |s|
        ensures RowCells(o, d, y, s)[k] == ElemCells(o, d, Coo(y, e))[k]
      {
        SinglesIndex(e.x, e.p.Step(), e.vals, k);
        assert k * e.p.Step() == e.p.Step() * k;
      }
    } else {
      var ps := RowPoints(y, [e]);
      assert ps == [] + [Coo(y, e)];
      PointCellsSnoc(o, d, [], Coo(y, e));
      NilLeft(ElemCells(o, d, Coo(y, e)));
    }
  }

  lemma RowPointsConcat(y: int, a: seq<Elem>, b: seq<Elem>)
    ensures RowPoints(y, a + b) == RowPoints(y, a) + RowPoints(y, b)
  {
  }

  /** Opening a row keeps its cells, in order. */
  lemma {:induction false} ExpandCells(o: Order, d: Dims, y: int, row: seq<Elem>)
    requires forall i :: 0 <= i < |row| ==> GoodElem(o, d, Coo(y, row[i]))
    ensures RowCells(o, d, y, Expand(o, row)) == RowCells(o, d, y, row)
  {
    hide GoodElem, Opened, ElemCells;
    if row != [] {
      var n := |row| - 1;
      ExpandCells(o, d, y, row[..n]);
      OpenedCells(o, d, y, row[n]);
      RowPointsConcat(y, Expand(o, row[..n]), Opened(o, row[n]));
      PointCellsConcat(o, d, RowPoints(y, Expand(o, row[..n])), RowPoints(y, Opened(o, row[n])));
      assert RowPoints(y, row)[..n] == RowPoints(y, row[..n]);
    }
  }

  /** Matrices whose rows have the same cells have the same cells. */
  lemma {:induction false} RowwiseCells(o: Order, d: Dims, a: Rows, b: Rows)
    requires |a| == |b| && forall i :: 0 <= i < |a| ==> RowCells(o, d, i + 1, a[i]) == RowCells(o, d, i + 1, b[i])
    ensures Cells(o, d, a) == Cells(o, d, b)
  {
    hide PointCells;
    if a != [] {
      var n := |a| - 1;
      forall i | 0 <= i < n
        ensures RowCells(o, d, i + 1, a[..n][i]) == RowCells(o, d, i + 1, b[..n][i])
      {
        assert RowCells(o, d, i + 1, a[i]) == RowCells(o, d, i + 1, b[i]);
      }
      RowwiseCells(o, d, a[..n], b[..n]);
      assert RowCells(o, d, n + 1, a[n]) == RowCells(o, d, n + 1, b[n]);
      PointCellsConcat(o, d, Points(a[..n]), RowPoints(n + 1, a[n]));
      PointCellsConcat(o, d, Points(b[..n]), RowPoints(n + 1, b[n]));
    }
  }

  lemma RowGoodIndex(o: Order, d: Dims, y: int, row: seq<Elem>)
    requires RowValid(o, d, y, row)
    ensures forall i :: 0 <= i < |row| ==> GoodElem(o, d, Coo(y, row[i]))
  {
    hide GoodElem, RowTight, RowSorted, PositiveXs, WellSized;
  }

  lemma EncodedRowsCells(c: Config, d: Dims, rows: Rows)
    requires c.Good() && Valid(c.order, d, rows)
    ensures Cells(c.order, d, EncodedRows(c, rows)) == Cells(c.order, d, rows)
  {
    hide Points, EncodedRow, GoodElem, RowValid, Valid, Expand, FromRow, RowCells;
    var rs := EncodedRows(c, rows);
    forall i | 0 <= i < |rows|
      ensures RowCells(c.order, d, i + 1, rs[i]) == RowCells(c.order, d, i + 1, rows[i])
    {
      RowsValid(c.order, d, rows, i + 1);
      EncodedRowValid(c, d, i + 1, rows[i]);
      RowGoodIndex(c.order, d, i + 1, rows[i]);
      RowGoodIndex(c.order, d, i + 1, rs[i]);
      ExpandCells(c.order, d, i + 1, rows[i]);
      ExpandCells(c.order, d, i + 1, rs[i]);
    }
    RowwiseCells(c.order, d, rs, rows);
  }

  // ----- The invariant across a change of order

  lemma ApartMoved(from: Order, to: Order, d: Dims, p: Coo, q: Coo)
    requires GoodElem(from, d, p) && GoodElem(from, d, q) && p.e.Pat?
    ensures Apart(to, d, MovePoint(from, to, d, p), MovePoint(from, to, d, q)) <==> Apart(from, d, p, q)
  {
    hide Map, RMap, InSpan, GoodElem;
    MovePointOk(from, to, d, p);
    MovePointOk(from, to, d, q);
  }

  /** Every element of a transformed matrix is a moved element of the matrix. */
  lemma TransformMember(from: Order, to: Order, d: Dims, rows: Rows, c: Coo) returns (p: Coo)
    requires Good(from, d, rows) && from != to && c in Points(Transformed(from, to, d, rows))
    ensures p in Points(rows) && c == MovePoint(from, to, d, p) && GoodElem(from, d, p)
  {
    hide Points, GoodElem, MovePoint, Transformed, Canonical, Sorted;
    var ps, ts := Points(rows), Points(Transformed(from, to, d, rows));
    TransformPoints(from, to, d, rows);
    var ms := Moved(from, to, d, ps);
    assert c in multiset(ts);
    assert c in ms;
    var i :| 0 <= i < |ms| && ms[i] == c;
    p := ps[i];
  }

  lemma TransformValid(from: Order, to: Order, d: Dims, rows: Rows)
    requires Valid(from, d, rows)
    ensures Valid(to, d, Transformed(from, to, d, rows))
  {
    hide Points, Apart, GoodElem, MovePoint, Transformed, Good;
    if from == to {
      SameOrder(from, d, rows);
    } else {
      var ts := Points(Transformed(from, to, d, rows));
      TransformKeepsCells(from, to, d, rows);
      forall p, q | p in ts && q in ts && p.e.Pat?
        ensures Apart(to, d, p, q)
      {
        var p0 := TransformMember(from, to, d, rows, p);
        var q0 := TransformMember(from, to, d, rows, q);
        SamePattern(from, to, d, p0);
        ApartMoved(from, to, d, p0, q0);
      }
    }
  }

  lemma SamePattern(from: Order, to: Order, d: Dims, c: Coo)
    ensures MovePoint(from, to, d, c).e.Pat? <==> c.e.Pat?
    ensures c.e.Pat? ==> MovePoint(from, to, d, c).e.p == c.e.p
  {
  }

  // ----- Encode and decode

  /** Change to the encoder's order, encode every row, change back. */
  function Encode(c: Config, from: Order, d: Dims, rows: Rows): Rows
    requires c.Good()
  {
    Transformed(c.order, from, d, EncodedRows(c, Transformed(from, c.order, d, rows)))
  }

  /** Encoding keeps the invariant and every cell of the matrix, whatever patterns
      of whatever orders it held before. */
  lemma EncodeKeepsMeaning(c: Config, from: Order, d: Dims, rows: Rows)
    requires c.Good() && Valid(from, d, rows)
    ensures Valid(from, d, Encode(c, from, d, rows))
    ensures multiset(Cells(from, d, Encode(c, from, d, rows))) == multiset(Cells(from, d, rows))
  {
    hide Cells, Good, Tight, EncodedRows, Transformed;
    var there := Transformed(from, c.order, d, rows);
    TransformValid(from, c.order, d, rows);
    TransformKeepsCells(from, c.order, d, rows);
    EncodedRowsValid(c, d, there);
    EncodedRowsCells(c, d, there);
    TransformValid(c.order, from, d, EncodedRows(c, there));
    TransformKeepsCells(c.order, from, d, EncodedRows(c, there));
  }

  /** A run of the encoder: any list of orders, one after the other. */
  function EncodeMany(cs: seq<Config>, from: Order, d: Dims, rows: Rows): Rows
    requires forall i :: 0 <= i < |cs| ==> cs[i].Good()
  {
    if cs == [] then rows else Encode(cs[|cs| - 1], from, d, EncodeMany(cs[..|cs| - 1], from, d, rows))
  }

  /** Every run keeps the invariant and every cell. */
  lemma {:induction false} EncodeManyKeepsMeaning(cs: seq<Config>, from: Order, d: Dims, rows: Rows)
    requires (forall i :: 0 <= i < |cs| ==> cs[i].Good()) && Valid(from, d, rows)
    ensures Valid(from, d, EncodeMany(cs, from, d, rows))
    ensures multiset(Cells(from, d, EncodeMany(cs, from, d, rows))) == multiset(Cells(from, d, rows))
  {
    hide Cells, Valid, Encode;
    if cs != [] {
      var n := |cs| - 1;
      EncodeManyKeepsMeaning(cs[..n], from, d, rows);
      EncodeKeepsMeaning(cs[n], from, d, EncodeMany(cs[..n], from, d, rows));
    }
  }

  function DecodedRows(o: Order, rows: Rows): (r: Rows)
    ensures |r| == |rows|
    ensures forall i {:trigger r[i]} :: 0 <= i < |rows| ==> r[i] == Expand(o, rows[i])
  {
    seq(|rows|, i requires 0 <= i < |rows| => Expand(o, rows[i]))
  }

  /** Change to the order, open its patterns row by row, change back. */
  function Decode(o: Order, from: Order, d: Dims, rows: Rows): Rows {
    Transformed(o, from, d, DecodedRows(o, Transformed(from, o, d, rows)))
  }

  /** Opening patterns needs no order: the opened rows are well formed and sorted. */
  lemma OpenedElemGood(o: Order, d: Dims, y: int, p: Elem, e: Elem)
    requires GoodElem(o, d, Coo(y, p)) && e in Opened(o, p)
    ensures GoodElem(o, d, Coo(y, e))
  {
    hide Map, RMap, Singles, Times;
    if p.Pat? && p.p.order == o {
      var s := Singles(p.x, p.p.Step(), p.vals);
      var k :| 0 <= k < |s| && s[k] == e;
      SinglesIndex(p.x, p.p.Step(), p.vals, k);
      TimesPlace(p.p, StartOf(o, d, Coord(y, p.x), p.p), k);
      assert InOrder(o, d, Place(p.p, StartOf(o, d, Coord(y, p.x), p.p), k));
    }
  }

  lemma TimesPlace(p: Pattern, start: Coord, k: int)
    ensures Place(p, start, k) == Coord(start.y, start.x + Times(p.Step(), k))
  {
  }

  lemma {:induction false} ExpandMember(o: Order, row: seq<Elem>, e: Elem) returns (p: Elem)
    requires e in Expand(o, row)
    ensures p in row && e in Opened(o, p)
  {
    var n := |row| - 1;
    if e in Opened(o, row[n]) {
      p := row[n];
    } else {
      p := ExpandMember(o, row[..n], e);
    }
  }

  lemma DecodedRowsGood(o: Order, d: Dims, rows: Rows)
    requires Valid(o, d, rows)
    ensures Good(o, d, DecodedRows(o, rows))
    ensures Cells(o, d, DecodedRows(o, rows)) == Cells(o, d, rows)
  {
    hide Points, GoodElem, Expand, RowTight, Tight, RowCells, GoodPoints, RowSorted, Opened, PositiveXs;
    var rs := DecodedRows(o, rows);
    forall i | 0 <= i < |rows|
      ensures RowSorted(rs[i]) && (rows[i] != [] ==> rs[i] != [])
      ensures RowCells(o, d, i + 1, rs[i]) == RowCells(o, d, i + 1, rows[i])
      ensures RowValid(o, d, i + 1, rows[i])
    {
      RowsValid(o, d, rows, i + 1);
      TightOpens(o, rows[i]);
      RowGoodIndex(o, d, i + 1, rows[i]);
      ExpandCells(o, d, i + 1, rows[i]);
      if rows[i] != [] {
        ExpandLast(o, rows[i]);
      }
    }
    SortedByRows(rs);
    RowwiseCells(o, d, rs, rows);
    forall q | q in Points(rs)
      ensures GoodElem(o, d, q)
    {
      PointsMember(rs, q);
      var p := ExpandMember(o, rows[q.y - 1], q.e);
      assert RowValid(o, d, q.y - 1 + 1, rows[q.y - 1]);
      RowValidGood(o, d, q.y, rows[q.y - 1], p);
      OpenedElemGood(o, d, q.y, p, q.e);
    }
    GoodMember(o, d, Points(rs));
  }

  /** Decoding keeps every cell, whatever other patterns the matrix holds. */
  lemma DecodeKeepsMeaning(o: Order, from: Order, d: Dims, rows: Rows)
    requires Valid(from, d, rows)
    ensures Good(from, d, Decode(o, from, d, rows))
    ensures multiset(Cells(from, d, Decode(o, from, d, rows))) == multiset(Cells(from, d, rows))
  {
    hide Cells, Good, Tight, DecodedRows, Transformed;
    var there := Transformed(from, o, d, rows);
    TransformValid(from, o, d, rows);
    TransformKeepsCells(from, o, d, rows);
    DecodedRowsGood(o, d, there);
    TransformKeepsCells(o, from, d, DecodedRows(o, there));
  }

  ghost predicate NoPatterns(o: Order, ps: seq<Coo>) {
    forall c :: c in ps ==> !(c.e.Pat? && c.e.p.order == o)
  }

  lemma {:induction false} ExpandNothing(o: Order, row: seq<Elem>)
    requires forall i :: 0 <= i < |row| ==> !(row[i].Pat? && row[i].p.order == o)
    ensures Expand(o, row) == row
  {
    if row != [] {
      var n := |row| - 1;
      ExpandNothing(o, row[..n]);
      assert row[..n] + [row[n]] == row;
    }
  }

  lemma NoPatternsMoved(o: Order, from: Order, d: Dims, rows: Rows)
    requires Good(from, d, rows) && NoPatterns(o, Points(rows))
    ensures NoPatterns(o, Points(Transformed(from, o, d, rows)))
  {
    hide Points, Transformed, Good, MovePoint, GoodElem;
    if from == o {
      SameOrder(from, d, rows);
    } else {
      forall c | c in Points(Transformed(from, o, d, rows))
        ensures !(c.e.Pat? && c.e.p.order == o)
      {
        var p := TransformMember(from, o, d, rows, c);
        SamePattern(from, o, d, p);
      }
    }
  }

  /** When no pattern of the order existed before, decoding it restores the matrix
      element for element. */
  lemma DecodeUndoesEncode(c: Config, from: Order, d: Dims, rows: Rows)
    requires c.Good() && Valid(from, d, rows) && NoPatterns(c.order, Points(rows))
    ensures Decode(c.order, from, d, Encode(c, from, d, rows)) == rows
  {
    hide Points, Good, Tight, EncodedRow, Transformed, Expand, RowValid, FromRow, NoPatterns;
    var o := c.order;
    var there := Transformed(from, o, d, rows);
    TransformValid(from, o, d, rows);
    EncodedRowsValid(c, d, there);
    TransformUndo(o, from, d, EncodedRows(c, there));
    NoPatternsMoved(o, from, d, rows);
    forall i | 0 <= i < |there|
      ensures DecodedRows(o, EncodedRows(c, there))[i] == there[i]
    {
      RowsValid(o, d, there, i + 1);
      EncodedRowValid(c, d, i + 1, there[i]);
      NoPatternsInRow(o, there, i);
      ExpandNothing(o, there[i]);
    }
    assert DecodedRows(o, EncodedRows(c, there)) == there;
    TransformUndo(from, o, d, rows);
  }

  lemma NoPatternsInRow(o: Order, rows: Rows, i: nat)
    requires NoPatterns(o, Points(rows)) && i < |rows|
    ensures forall k :: 0 <= k < |rows[i]| ==> !(rows[i][k].Pat? && rows[i][k].p.order == o)
  {
    hide Points;
    forall k | 0 <= k < |rows[i]|
      ensures !(rows[i][k].Pat? && rows[i][k].p.order == o)
    {
      PointsMember(rows, Coo(i + 1, rows[i][k]));
    }
  }

  // ----- When a decoded matrix is valid again

  /** No element of an opened pattern is inside the span of a pattern that stays. */
  ghost predicate OpensApart(o: Order, d: Dims, rows: Rows) {
    forall p, q, e {:trigger Apart(o, d, p, Coo(q.y, e))} ::
      p in Points(rows) && p.e.Pat? && p.e.p.order != o && q in Points(rows) && e in Opened(o, q.e) ==>
        Apart(o, d, p, Coo(q.y, e))
  }

  lemma {:induction false} OpenedStays(o: Order, row: seq<Elem>, p: Elem, e: Elem)
    requires p in row && e in Opened(o, p)
    ensures e in Expand(o, row)
  {
    hide Opened;
    var n := |row| - 1;
    if p != row[n] {
      assert p in row[..n];
      OpenedStays(o, row[..n], p, e);
    }
  }

  /** The elements after decoding are those that the elements before open into. */
  lemma DecodedIn(o: Order, rows: Rows, q: Coo, e: Elem)
    requires q in Points(rows) && e in Opened(o, q.e)
    ensures Coo(q.y, e) in Points(DecodedRows(o, rows))
  {
    hide Points, Expand, Opened;
    PointsMember(rows, q);
    OpenedStays(o, rows[q.y - 1], q.e, e);
    PointsMember(DecodedRows(o, rows), Coo(q.y, e));
  }

  lemma DecodedFrom(o: Order, rows: Rows, c: Coo) returns (q: Coo)
    requires c in Points(DecodedRows(o, rows))
    ensures q in Points(rows) && q.y == c.y && c.e in Opened(o, q.e)
  {
    hide Points, Expand, Opened;
    PointsMember(DecodedRows(o, rows), c);
    var p := ExpandMember(o, rows[c.y - 1], c.e);
    q := Coo(c.y, p);
    PointsMember(rows, q);
  }

  /** In the order that is decoded. */
  lemma DecodedRowsValid(o: Order, d: Dims, rows: Rows)
    requires Valid(o, d, rows)
    ensures Valid(o, d, DecodedRows(o, rows)) <==> OpensApart(o, d, rows)
  {
    hide Points, Apart, Good, Expand;
    var rs := DecodedRows(o, rows);
    DecodedRowsGood(o, d, rows);
    if OpensApart(o, d, rows) {
      forall p, c | p in Points(rs) && c in Points(rs) && p.e.Pat?
        ensures Apart(o, d, p, c)
      {
        var p0 := DecodedFrom(o, rows, p);
        var q := DecodedFrom(o, rows, c);
        NotOpened(o, p0, p);
        assert Apart(o, d, p0, Coo(q.y, c.e));
      }
    }
    if Valid(o, d, rs) {
      forall p, q, e | p in Points(rows) && p.e.Pat? && p.e.p.order != o && q in Points(rows) && e in Opened(o, q.e)
        ensures Apart(o, d, p, Coo(q.y, e))
      {
        DecodedIn(o, rows, p, p.e);
        DecodedIn(o, rows, q, e);
      }
    }
  }

  /** What an opened pattern leaves is single. */
  lemma NotOpened(o: Order, q: Coo, p: Coo)
    requires p.y == q.y && p.e in Opened(o, q.e) && p.e.Pat?
    ensures p == q && p.e.p.order != o
  {
    if q.e.Pat? && q.e.p.order == o {
      var s := Singles(q.e.x, q.e.p.Step(), q.e.vals);
      var k :| 0 <= k < |s| && s[k] == p.e;
      SinglesIndex(q.e.x, q.e.p.Step(), q.e.vals, k);
    }
  }

  /** A decoded matrix is again one that every encoding keeps, exactly when, seen in the
      order that was decoded, no opened element is inside the span of a pattern that
      stays. */
  lemma DecodeValid(o: Order, from: Order, d: Dims, rows: Rows)
    requires Valid(from, d, rows)
    ensures Valid(from, d, Decode(o, from, d, rows)) <==> OpensApart(o, d, Transformed(from, o, d, rows))
  {
    hide Good, Tight, DecodedRows, Transformed, OpensApart;
    var there := Transformed(from, o, d, rows);
    TransformValid(from, o, d, rows);
    DecodedRowsValid(o, d, there);
    DecodedRowsGood(o, d, there);
    if Valid(o, d, DecodedRows(o, there)) {
      TransformValid(o, from, d, DecodedRows(o, there));
    }
    if Valid(from, d, Decode(o, from, d, rows)) {
      TransformUndo(o, from, d, DecodedRows(o, there));
      TransformValid(from, o, d, Decode(o, from, d, rows));
    }
  }
}

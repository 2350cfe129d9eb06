/** Taking a matrix from one iteration order to another: map every element's
    coordinates, sort, and rebuild the rows.

    `TransformKeepsCells` says that no order changes what the matrix means;
    `TransformUndo` that going there and back restores the rows exactly. */
module Reorder {
  import opened Orders
  import opened Matrix
  import opened Seqs
  import Sorting

  // ----- Sorting by place

  function Before(): (Coo, Coo) -> bool {
    (a: Coo, b: Coo) => Less(a.At(), b.At())
  }

  function Sort(ps: seq<Coo>): (r: seq<Coo>)
    ensures |r| == |ps|
  {
    Sorting.Sort(ps, Before())
  }

  ghost predicate Distinct(ps: seq<Coo>) {
    forall i, j :: 0 <= i < j < |ps| ==> ps[i].At() != ps[j].At()
  }

  lemma SortPerm(ps: seq<Coo>)
    ensures multiset(Sort(ps)) == multiset(ps)
  {
    Sorting.SortPerm(ps, Before());
  }

  lemma SortSorted(ps: seq<Coo>)
    requires Distinct(ps)
    ensures Sorted(Sort(ps))
  {
    Sorting.SortAscends(ps, Before());
  }

  /** There is only one way to sort. */
  lemma {:induction false} SortedUnique(a: seq<Coo>, b: seq<Coo>)
    requires Sorted(a) && Sorted(b) && multiset(a) == multiset(b)
    ensures a == b
  {
    if a == [] {
      assert |multiset(b)| == 0;
    } else {
      assert |multiset(a)| == |a| && |multiset(b)| == |b|;
      SortedMax(a, b);
      var n := |a| - 1;
      assert a == a[..n] + [a[n]] && b == b[..n] + [b[n]];
      MultisetCancel(multiset(a[..n]), multiset(b[..n]), multiset{a[n]});
      SortedUnique(a[..n], b[..n]);
    }
  }

  lemma SortedMax(a: seq<Coo>, b: seq<Coo>)
    requires Sorted(a) && Sorted(b) && multiset(a) == multiset(b) && a != [] && |a| == |b|
    ensures a[|a| - 1] == b[|b| - 1]
  {
    var x, y := a[|a| - 1], b[|b| - 1];
    assert x in multiset(b) && y in multiset(a);
    var i :| 0 <= i < |b| && b[i] == x;
    var j :| 0 <= j < |a| && a[j] == y;
  }

  // ----- Rows from sorted points

  /** One more element: in the last row, or in a new row after some empty ones. */
  function AddPoint(rows: Rows, c: Coo, first: int): Rows {
    var n := |rows|;
    var y := c.y - first;
    if 0 < n && y + 1 == n then rows[..n - 1] + [rows[n - 1] + [c.e]]
    else if y >= n then rows + Empties(y - n) + [[c.e]]
    else rows
  }

  function BuildRows(ps: seq<Coo>, first: int): Rows {
    if ps == [] then [] else AddPoint(BuildRows(ps[..|ps| - 1], first), ps[|ps| - 1], first)
  }

  lemma PointsSnocRow(rows: Rows, row: seq<Elem>)
    ensures Points(rows + [row]) == Points(rows) + RowPoints(|rows| + 1, row)
  {
    Snoc(rows, row);
  }

  lemma PointsAdd(rows: Rows, c: Coo)
    requires c.y >= |rows| && c.y >= 1
    ensures Points(AddPoint(rows, c, 1)) == Points(rows) + [c]
    ensures |AddPoint(rows, c, 1)| == c.y
    ensures Canonical(AddPoint(rows, c, 1))
  {
    hide Points, RowPoints;
    var n := |rows|;
    if c.y == n {
      var init, l := rows[..n - 1], rows[n - 1];
      PointsSnocRow(init, l + [c.e]);
      PointsSnocRow(init, l);
      assert init + [l] == rows;
      RowPointsSnoc(n, l, c.e);
      Assoc(Points(init), RowPoints(n, l), [c]);
    } else {
      PointsEmpties(rows, c.y - 1 - n);
      PointsSnocRow(rows + Empties(c.y - 1 - n), [c.e]);
      RowPointsSnoc(c.y, [], c.e);
      assert RowPoints(c.y, []) == [];
      assert [] + [c.e] == [c.e];
      assert [] + [c] == [c];
    }
  }

  lemma RowPointsSnoc(y: int, row: seq<Elem>, e: Elem)
    ensures RowPoints(y, row + [e]) == RowPoints(y, row) + [Coo(y, e)]
  {
  }

  ghost predicate RowsAscend(ps: seq<Coo>) {
    && (forall i :: 0 <= i < |ps| ==> ps[i].y >= 1)
    && (forall i, j :: 0 <= i < j < |ps| ==> ps[i].y <= ps[j].y)
  }

  /** Building rows and reading them back gives the same points. */
  lemma {:induction false} PointsBuild(ps: seq<Coo>)
    requires RowsAscend(ps)
    ensures Points(BuildRows(ps, 1)) == ps
    ensures Canonical(BuildRows(ps, 1))
    ensures |BuildRows(ps, 1)| == if ps == [] then 0 else ps[|ps| - 1].y
  {
    hide AddPoint, Points;
    if ps != [] {
      var n := |ps| - 1;
      PointsBuild(ps[..n]);
      PointsAdd(BuildRows(ps[..n], 1), ps[n]);
      Halves(ps, n);
      assert ps[n..] == [ps[n]];
    } else {
      assert Points([]) == [] by { EmptyPoints(); }
    }
  }

  lemma EmptyPoints()
    ensures Points([]) == []
  {
  }

  lemma {:induction false} BuildConcat(ps: seq<Coo>, c: Coo, first: int)
    ensures BuildRows(ps + [c], first) == AddPoint(BuildRows(ps, first), c, first)
  {
    Snoc(ps, c);
  }

  /** The rows without the empty ones at the end. */
  function Trim(rows: Rows): (r: Rows)
    ensures |r| <= |rows|
  {
    if Canonical(rows) then rows else Trim(rows[..|rows| - 1])
  }

  lemma {:induction false} TrimPads(rows: Rows)
    ensures Trim(rows) + Empties(|rows| - |Trim(rows)|) == rows
  {
    if Canonical(rows) {
      assert rows + Empties(0) == rows;
    } else {
      var n := |rows| - 1;
      TrimPads(rows[..n]);
      var k := |Trim(rows)|;
      assert Empties(n - k) + [[]] == Empties(n + 1 - k);
      Assoc(Trim(rows), Empties(n - k), [[]]);
      assert rows[..n] + [[]] == rows;
    }
  }

  /** A row of the matrix, rebuilt one element at a time. */
  lemma {:induction false} BuildRow(rows: Rows, ps: seq<Coo>, row: seq<Elem>)
    requires row != [] && BuildRows(ps, 1) == Trim(rows)
    ensures BuildRows(ps + RowPoints(|rows| + 1, row), 1) == rows + [row]
  {
    hide Points, Trim;
    var n := |row| - 1;
    var y := |rows| + 1;
    RowPointsSnoc(y, row[..n], row[n]);
    assert row[..n] + [row[n]] == row;
    Assoc(ps, RowPoints(y, row[..n]), [Coo(y, row[n])]);
    BuildConcat(ps + RowPoints(y, row[..n]), Coo(y, row[n]), 1);
    if n == 0 {
      assert ps + RowPoints(y, row[..n]) == ps;
      TrimPads(rows);
      assert [row[n]] == row;
    } else {
      BuildRow(rows, ps, row[..n]);
    }
  }

  /** Reading rows and building them again drops only trailing empty rows. */
  lemma {:induction false} BuildPoints(rows: Rows)
    ensures BuildRows(Points(rows), 1) == Trim(rows)
  {
    hide AddPoint, BuildRows;
    if rows == [] {
      BuildNone(1);
    } else {
      var n := |rows| - 1;
      BuildPoints(rows[..n]);
      if rows[n] == [] {
        assert RowPoints(|rows|, rows[n]) == [];
        NilRight(Points(rows[..n]));
      } else {
        BuildRow(rows[..n], Points(rows[..n]), rows[n]);
        assert rows[..n] + [rows[n]] == rows;
      }
    }
  }

  lemma BuildNone(first: int)
    ensures BuildRows([], first) == []
  {
  }

  // ----- The transformation

  function MovePoint(from: Order, to: Order, d: Dims, c: Coo): Coo {
    var at := Map(to, d, RMap(from, d, c.At()));
    Coo(at.y, c.e.(x := at.x))
  }

  function Moved(from: Order, to: Order, d: Dims, ps: seq<Coo>): (r: seq<Coo>)
    ensures |r| == |ps|
    ensures forall i {:trigger r[i]} :: 0 <= i < |ps| ==> r[i] == MovePoint(from, to, d, ps[i])
  {
    seq(|ps|, i requires 0 <= i < |ps| => MovePoint(from, to, d, ps[i]))
  }

  function Transformed(from: Order, to: Order, d: Dims, rows: Rows): Rows {
    if from == to then rows else BuildRows(Sort(Moved(from, to, d, Points(rows))), 1)
  }

  /** What every state of the encoder keeps: no trailing empty rows, elements
      strictly sorted, every element well formed. */
  ghost predicate Good(o: Order, d: Dims, rows: Rows) {
    Canonical(rows) && Sorted(Points(rows)) && GoodPoints(o, d, Points(rows))
  }

  lemma MovePointOk(from: Order, to: Order, d: Dims, c: Coo)
    requires GoodElem(from, d, c)
    ensures RMap(to, d, MovePoint(from, to, d, c).At()) == RMap(from, d, c.At())
    ensures GoodElem(to, d, MovePoint(from, to, d, c))
    ensures ElemCells(to, d, MovePoint(from, to, d, c)) == ElemCells(from, d, c)
    ensures MovePoint(to, from, d, MovePoint(from, to, d, c)) == c
    ensures MovePoint(from, to, d, c).y >= 1
  {
    hide Map, RMap, Place, Aligned, PatternCells;
    var p := RMap(from, d, c.At());
    RMapInvertsMap(to, d, p);
    MapRowBound(to, d, p);
    var m := MovePoint(from, to, d, c);
    assert m.At() == Map(to, d, p);
    if c.e.Pat? {
      assert StartOf(to, d, m.At(), c.e.p) == StartOf(from, d, c.At(), c.e.p);
    }
  }

  lemma MovedDistinct(from: Order, to: Order, d: Dims, ps: seq<Coo>)
    requires GoodPoints(from, d, ps) && Distinct(ps)
    ensures Distinct(Moved(from, to, d, ps))
  {
    hide Map, RMap, GoodElem;
    var ms := Moved(from, to, d, ps);
    forall i, j | 0 <= i < j < |ms|
      ensures ms[i].At() != ms[j].At()
    {
      MovePointOk(from, to, d, ps[i]);
      MovePointOk(from, to, d, ps[j]);
      assert ps[i].At() != ps[j].At();
      if ms[i].At() == ms[j].At() {
      }
    }
  }

  lemma {:induction false} MovedCells(from: Order, to: Order, d: Dims, ps: seq<Coo>)
    requires GoodPoints(from, d, ps)
    ensures PointCells(to, d, Moved(from, to, d, ps)) == PointCells(from, d, ps)
  {
    hide ElemCells, GoodElem, MovePoint;
    if ps != [] {
      var n := |ps| - 1;
      MovedCells(from, to, d, ps[..n]);
      MovePointOk(from, to, d, ps[n]);
      assert Moved(from, to, d, ps)[..n] == Moved(from, to, d, ps[..n]);
    }
  }

  lemma GoodPerm(o: Order, d: Dims, a: seq<Coo>, b: seq<Coo>)
    requires multiset(a) == multiset(b) && GoodPoints(o, d, a)
    ensures GoodPoints(o, d, b)
  {
    hide GoodElem;
    forall i | 0 <= i < |b|
      ensures GoodElem(o, d, b[i])
    {
      assert b[i] in multiset(b);
      assert b[i] in a;
    }
  }

  lemma MovedGood(from: Order, to: Order, d: Dims, ps: seq<Coo>)
    requires GoodPoints(from, d, ps)
    ensures GoodPoints(to, d, Moved(from, to, d, ps))
    ensures forall i :: 0 <= i < |ps| ==> Moved(from, to, d, ps)[i].y >= 1
  {
    hide GoodElem, MovePoint;
    forall i | 0 <= i < |ps|
      ensures GoodElem(to, d, Moved(from, to, d, ps)[i])
      ensures Moved(from, to, d, ps)[i].y >= 1
    {
      MovePointOk(from, to, d, ps[i]);
    }
  }

  /** The points of a transformed matrix are the moved points, sorted. */
  lemma TransformPoints(from: Order, to: Order, d: Dims, rows: Rows)
    requires Good(from, d, rows) && from != to
    ensures Points(Transformed(from, to, d, rows)) == Sort(Moved(from, to, d, Points(rows)))
    ensures multiset(Points(Transformed(from, to, d, rows))) == multiset(Moved(from, to, d, Points(rows)))
    ensures Good(to, d, Transformed(from, to, d, rows))
  {
    hide Points, Sort, GoodPoints, BuildRows, Moved;
    var ps := Points(rows);
    var ms := Moved(from, to, d, ps);
    PointsRange(rows);
    MovedDistinct(from, to, d, ps);
    MovedGood(from, to, d, ps);
    SortSorted(ms);
    SortPerm(ms);
    GoodPerm(to, d, ms, Sort(ms));
    PositivePerm(ms, Sort(ms));
    PointsBuild(Sort(ms));
  }

  lemma PositivePerm(a: seq<Coo>, b: seq<Coo>)
    requires multiset(a) == multiset(b) && forall i :: 0 <= i < |a| ==> a[i].y >= 1
    ensures forall i :: 0 <= i < |b| ==> b[i].y >= 1
  {
    forall i | 0 <= i < |b|
      ensures b[i].y >= 1
    {
      assert b[i] in multiset(b);
      assert b[i] in a;
    }
  }

  /** A change of order keeps the encoder's invariant and every cell. */
  lemma TransformKeepsCells(from: Order, to: Order, d: Dims, rows: Rows)
    requires Good(from, d, rows)
    ensures Good(to, d, Transformed(from, to, d, rows))
    ensures multiset(Cells(to, d, Transformed(from, to, d, rows))) == multiset(Cells(from, d, rows))
  {
    hide Points, Good, Moved, Transformed, PointCells;
    if from != to {
      TransformPoints(from, to, d, rows);
      GoodParts(from, d, rows);
      MovedCells(from, to, d, Points(rows));
      PointCellsPerm(to, d, Points(Transformed(from, to, d, rows)), Moved(from, to, d, Points(rows)));
    } else {
      SameOrder(from, d, rows);
    }
  }

  lemma SameOrder(o: Order, d: Dims, rows: Rows)
    ensures Transformed(o, o, d, rows) == rows
  {
  }

  lemma GoodParts(o: Order, d: Dims, rows: Rows)
    requires Good(o, d, rows)
    ensures GoodPoints(o, d, Points(rows)) && Sorted(Points(rows)) && Canonical(rows)
  {
  }

  lemma MovedBack(from: Order, to: Order, d: Dims, ps: seq<Coo>)
    requires GoodPoints(from, d, ps)
    ensures Moved(to, from, d, Moved(from, to, d, ps)) == ps
  {
    hide GoodElem, MovePoint;
    var back := Moved(to, from, d, Moved(from, to, d, ps));
    forall i | 0 <= i < |ps|
      ensures back[i] == ps[i]
    {
      MovePointOk(from, to, d, ps[i]);
    }
  }

  lemma {:induction false} MovedPerm(from: Order, to: Order, d: Dims, a: seq<Coo>, b: seq<Coo>)
    requires multiset(a) == multiset(b)
    ensures multiset(Moved(from, to, d, a)) == multiset(Moved(from, to, d, b))
  {
    hide MovePoint;
    if a == [] {
      assert |multiset(b)| == 0;
    } else {
      var n := |a| - 1;
      var j := PermRemove(a, b);
      MovedPerm(from, to, d, a[..n], b[..j] + b[j + 1..]);
      MovedSplit(from, to, d, b, j);
      var x := MovePoint(from, to, d, a[n]);
      assert Moved(from, to, d, a) == Moved(from, to, d, a[..n]) + [x];
    }
  }

  lemma MovedSplit(from: Order, to: Order, d: Dims, b: seq<Coo>, j: nat)
    requires j < |b|
    ensures multiset(Moved(from, to, d, b))
         == multiset(Moved(from, to, d, b[..j] + b[j + 1..])) + multiset([MovePoint(from, to, d, b[j])])
  {
    hide MovePoint;
    var m := Moved(from, to, d, b);
    assert Moved(from, to, d, b[..j] + b[j + 1..]) == m[..j] + m[j + 1..];
    SplitAt(m, j);
  }

  /** Going to another order and back restores the rows exactly. */
  lemma TransformUndo(from: Order, to: Order, d: Dims, rows: Rows)
    requires Good(from, d, rows)
    ensures Transformed(to, from, d, Transformed(from, to, d, rows)) == rows
  {
    hide Points, Moved, Sort, BuildRows, GoodPoints, Sorted;
    if from != to {
      var there := Transformed(from, to, d, rows);
      var ps := Points(rows);
      TransformPoints(from, to, d, rows);
      TransformPoints(to, from, d, there);
      MovedBack(from, to, d, ps);
      MovedPerm(to, from, d, Points(there), Moved(from, to, d, ps));
      var back := Moved(to, from, d, Points(there));
      SortPerm(back);
      SortedUnique(Sort(back), ps);
      BuildPoints(rows);
    }
  }
}

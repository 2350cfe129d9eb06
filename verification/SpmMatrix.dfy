/** The encoder's matrix as it is stored: one array of elements and the row
    pointers, filled through a builder.

    The ghost field `rows` is the matrix the two arrays stand for; `Valid` ties
    them, so that equal rows mean equal arrays. */
module SpmMatrix {
  import opened Orders
  import opened Matrix
  import opened Seqs
  import opened Reorder

  function Flat(rows: Rows): seq<Elem> {
    if rows == [] then [] else Flat(rows[..|rows| - 1]) + rows[|rows| - 1]
  }

  /** Row pointers: where each row starts, and the total. */
  function Ptrs(rows: Rows): (r: seq<nat>)
    ensures |r| == |rows| + 1
    ensures r[|rows|] == |Flat(rows)|
  {
    if rows == [] then [0] else Ptrs(rows[..|rows| - 1]) + [|Flat(rows)|]
  }

  lemma FlatSnoc(rows: Rows, row: seq<Elem>)
    ensures Flat(rows + [row]) == Flat(rows) + row
  {
    Snoc(rows, row);
  }

  lemma PtrsSnoc(rows: Rows, row: seq<Elem>)
    ensures Ptrs(rows + [row]) == Ptrs(rows) + [|Flat(rows)| + |row|]
  {
    hide Flat;
    var r := rows + [row];
    Snoc(rows, row);
    FlatSnoc(rows, row);
    assert r[..|r| - 1] == rows;
  }

  /** Closing the open row appends the element count to the row pointers. */
  lemma CloseRow(rows: Rows)
    requires rows != []
    ensures Ptrs(rows[..|rows| - 1]) + [|Flat(rows)|] == Ptrs(rows)
    ensures Flat(rows + [[]]) == Flat(rows)
    ensures (rows + [[]])[..|rows|] == rows
    ensures Ptrs(rows[..|rows| - 1])[|rows| - 1] == |Flat(rows)| <==> rows[|rows| - 1] == []
  {
    var init, l := rows[..|rows| - 1], rows[|rows| - 1];
    assert init + [l] == rows;
    FlatSnoc(init, l);
    PtrsSnoc(init, l);
    FlatSnoc(rows, []);
    NilRight(Flat(rows));
  }

  /** A row lies between its pointers. */
  lemma {:induction false} RowSlice(rows: Rows, i: nat)
    requires i < |rows|
    ensures Ptrs(rows)[i] <= Ptrs(rows)[i + 1] <= |Flat(rows)|
    ensures Flat(rows)[Ptrs(rows)[i]..Ptrs(rows)[i + 1]] == rows[i]
  {
    var n := |rows| - 1;
    if i < n {
      RowSlice(rows[..n], i);
      var f, g := Flat(rows[..n]), Flat(rows);
      assert g[..|f|] == f;
      var a, b := Ptrs(rows)[i], Ptrs(rows)[i + 1];
      assert g[a..b] == f[a..b];
    } else {
      var f := Flat(rows[..n]);
      assert Flat(rows) == f + rows[n];
      assert (f + rows[n])[|f|..] == rows[n];
    }
  }

  /** What one more element, in a row not before the last one, does. */
  function Padded(rows: Rows, n: nat): Rows {
    if |rows| < n then rows + Empties(n - |rows|) else rows
  }

  function AddToLast(rows: Rows, e: Elem): Rows
    requires rows != []
  {
    rows[..|rows| - 1] + [rows[|rows| - 1] + [e]]
  }

  lemma AddIsPad(rows: Rows, c: Coo, first: int)
    requires |rows| <= c.y - first + 1 && c.y >= first
    ensures AddToLast(Padded(rows, c.y - first + 1), c.e) == AddPoint(rows, c, first)
  {
    var y, n := c.y - first, |rows|;
    if y + 1 != n {
      assert Padded(rows, y + 1) == rows + Empties(y - n) + [[]];
      assert [] + [c.e] == [c.e];
    }
  }

  lemma PadMore(rows: Rows, n: nat, k: nat)
    requires |rows| <= n
    ensures Padded(rows, n) + Empties(k) == Padded(rows, n + k)
  {
    assert Empties(n - |rows|) + Empties(k) == Empties(n + k - |rows|);
    if |rows| == n {
      assert rows + Empties(0) == rows;
      assert Padded(rows, n) == rows + Empties(0);
    }
    if n + k == |rows| {
      assert rows + Empties(0) == rows;
    }
    Assoc(rows, Empties(n - |rows|), Empties(k));
  }

  /** Appends elements and closes rows; the last row of `rows` is still open. */
  class Builder {
    var elems: seq<Elem>
    var rowptr: seq<nat>
    ghost var rows: Rows

    ghost predicate Valid()
      reads this
    {
      rows != [] && elems == Flat(rows) && rowptr == Ptrs(rows[..|rows| - 1])
    }

    constructor ()
      ensures Valid() && rows == [[]] && elems == []
    {
      elems := [];
      rowptr := [0];
      rows := [[]];
    }

    method AllocElem(e: Elem)
      requires Valid()
      modifies this
      ensures Valid() && rows == AddToLast(old(rows), e)
      ensures elems == old(elems) + [e]
    {
      ghost var init, l := rows[..|rows| - 1], rows[|rows| - 1];
      assert rows == init + [l];
      FlatSnoc(init, l);
      FlatSnoc(init, l + [e]);
      Assoc(Flat(init), l, [e]);
      elems := elems + [e];
      rows := init + [l + [e]];
      assert rows[..|rows| - 1] == init;
    }

    method NewRow(rdiff: nat)
      requires Valid()
      modifies this
      ensures Valid() && rows == old(rows) + Empties(rdiff) && elems == old(elems)
    {
      hide Flat, Ptrs;
      var i := 0;
      assert rows + Empties(0) == rows;
      while i < rdiff
        invariant 0 <= i <= rdiff
        invariant Valid() && rows == old(rows) + Empties(i) && elems == old(elems)
      {
        CloseRow(rows);
        rowptr := rowptr + [|elems|];
        rows := rows + [[]];
        i := i + 1;
      }
    }

    /** Closes the open row if it holds anything and hands over the arrays. */
    method Finalize() returns (es: seq<Elem>, ptr: seq<nat>)
      requires Valid()
      modifies this
      ensures var done := if old(rows)[|old(rows)| - 1] == [] then old(rows)[..|old(rows)| - 1] else old(rows);
              es == Flat(done) && ptr == Ptrs(done)
      ensures es == old(elems)
    {
      hide Flat, Ptrs;
      ghost var was := rows;
      CloseRow(was);
      if was[|was| - 1] == [] {
        DropEmptyRow(was);
      }
      if rowptr[|rowptr| - 1] != |elems| {
        NewRow(1);
        assert rows == was + [[]];
      }
      es := elems;
      ptr := rowptr;
    }
  }

  lemma DropEmptyRow(rows: Rows)
    requires rows != [] && rows[|rows| - 1] == []
    ensures Flat(rows) == Flat(rows[..|rows| - 1])
  {
    NilRight(Flat(rows[..|rows| - 1]));
  }

  /** Appends a row to the open row. */
  method AppendRow(bld: Builder, row: seq<Elem>, ghost done: Rows, ghost open: seq<Elem>)
    requires bld.Valid() && bld.rows == done + [open]
    modifies bld
    ensures bld.Valid() && bld.rows == done + [open + row]
  {
    hide Builder.Valid, AddToLast;
    var j := 0;
    NilRight(open);
    assert row[..0] == [];
    while j < |row|
      invariant 0 <= j <= |row| && bld.Valid() && bld.rows == done + [open + row[..j]]
    {
      bld.AllocElem(row[j]);
      AddedToLast(done, open + row[..j], row[j]);
      Assoc(open, row[..j], [row[j]]);
      assert row[..j] + [row[j]] == row[..j + 1];
      j := j + 1;
    }
    assert row[..j] == row;
  }

  lemma AddedToLast(done: Rows, open: seq<Elem>, e: Elem)
    ensures AddToLast(done + [open], e) == done + [open + [e]]
  {
  }

  /** The matrix: elements and row pointers in the current order. */
  class Spm {
    var elems: seq<Elem>
    var rowptr: seq<nat>
    var order: Order
    const dims: Dims
    ghost var rows: Rows

    ghost predicate Valid()
      reads this
    {
      elems == Flat(rows) && rowptr == Ptrs(rows)
    }

    function NrRows(): nat
      reads this
      requires Valid()
      ensures NrRows() == |rows|
    {
      |rowptr| - 1
    }

    constructor (es: seq<Elem>, ptr: seq<nat>, o: Order, d: Dims, ghost rs: Rows)
      requires es == Flat(rs) && ptr == Ptrs(rs)
      ensures Valid() && rows == rs && order == o && dims == d
    {
      elems := es;
      rowptr := ptr;
      order := o;
      dims := d;
      rows := rs;
    }

    /** Takes over what a builder made. */
    method Install(es: seq<Elem>, ptr: seq<nat>, ghost rs: Rows)
      requires es == Flat(rs) && ptr == Ptrs(rs)
      modifies this`elems, this`rowptr, this`rows
      ensures Valid() && rows == rs
    {
      elems, rowptr, rows := es, ptr, rs;
    }

    /** The elements of row i. */
    function Row(i: nat): (row: seq<Elem>)
      reads this
      requires Valid() && i < |rows|
      ensures row == rows[i]
    {
      RowSlice(rows, i);
      elems[rowptr[i]..rowptr[i + 1]]
    }

    /** Fills the matrix from points in row order. */
    method SetElems(points: seq<Coo>, first: int)
      requires (forall i :: 0 <= i < |points| ==> points[i].y >= first)
      requires (forall i, j :: 0 <= i < j < |points| ==> points[i].y <= points[j].y)
      modifies this`elems, this`rowptr, this`rows
      ensures Valid() && rows == BuildRows(points, first)
    {
      hide Flat, Ptrs, AddPoint, BuildRows, Padded, AddToLast, Canonical;
      BuildNone(first);
      PadFirst();
      var bld := new Builder();
      var rowPrev := first;
      var i := 0;
      while i < |points|
        invariant 0 <= i <= |points|
        invariant bld.Valid()
        invariant i == 0 ==> rowPrev == first
        invariant i > 0 ==> rowPrev == points[i - 1].y
        invariant |BuildRows(points[..i], first)| == if i == 0 then 0 else rowPrev - first + 1
        invariant bld.rows == Padded(BuildRows(points[..i], first), rowPrev - first + 1)
      {
        var row := points[i].y;
        if row != rowPrev {
          bld.NewRow(row - rowPrev);
          PadMore(BuildRows(points[..i], first), rowPrev - first + 1, row - rowPrev);
          rowPrev := row;
        }
        BuildOneMore(points, i, first);
        bld.AllocElem(points[i].e);
        PadNothing(BuildRows(points[..i + 1], first));
        i := i + 1;
      }
      assert points[..i] == points;
      LastRowFilled(points, first);
      BuiltRows(BuildRows(points, first), bld.rows);
      elems, rowptr := bld.Finalize();
      rows := BuildRows(points, first);
    }

    /** Reads the elements row by row and moves each to order t. */
    method MovedPoints(t: Order) returns (coos: seq<Coo>)
      requires Valid()
      ensures coos == Moved(order, t, dims, Points(rows))
    {
      hide Flat, Ptrs, MovePoint;
      coos := [];
      var i := 0;
      while i < NrRows()
        invariant 0 <= i <= |rows|
        invariant coos == Moved(order, t, dims, Points(rows[..i]))
      {
        var row := Row(i);
        var j := 0;
        assert RowPoints(i + 1, row[..0]) == [];
        NilRight(Points(rows[..i]));
        while j < |row|
          invariant 0 <= j <= |row|
          invariant coos == Moved(order, t, dims, Points(rows[..i]) + RowPoints(i + 1, row[..j]))
        {
          var c := Coo(i + 1, row[j]);
          RowPointsSnoc(i + 1, row[..j], row[j]);
          assert row[..j] + [row[j]] == row[..j + 1];
          MovedSnoc(order, t, dims, Points(rows[..i]) + RowPoints(i + 1, row[..j]), c);
          Assoc(Points(rows[..i]), RowPoints(i + 1, row[..j]), [c]);
          coos := coos + [MovePoint(order, t, dims, c)];
          j := j + 1;
        }
        assert row[..j] == row;
        PointsSnocRow(rows[..i], row);
        assert rows[..i] + [row] == rows[..i + 1];
        i := i + 1;
      }
      assert rows[..i] == rows;
    }

    /** Changes to order t: every element is moved, the elements are sorted and the
        rows rebuilt. */
    method Transform(t: Order)
      requires Valid() && Good(order, dims, rows)
      modifies this
      ensures Valid() && order == t && rows == Transformed(old(order), t, dims, old(rows))
    {
      hide Flat, Ptrs, Sort, Good, BuildRows, MovePoint;
      if order == t {
        SameOrder(order, dims, rows);
        return;
      }
      var coos := MovedPoints(t);
      SortedInput(order, t, dims, rows);
      SetElems(Sort(coos), 1);
      order := t;
    }
  }

  lemma MovedSnoc(from: Order, to: Order, d: Dims, ps: seq<Coo>, c: Coo)
    ensures Moved(from, to, d, ps + [c]) == Moved(from, to, d, ps) + [MovePoint(from, to, d, c)]
  {
    hide MovePoint;
  }

  lemma PadNothing(rows: Rows)
    ensures Padded(rows, |rows|) == rows
  {
  }

  lemma PadFirst()
    ensures Padded([], 1) == [[]]
  {
  }

  /** What the builder hands over for its rows. */
  lemma BuiltRows(target: Rows, open: Rows)
    requires Canonical(target) && open == Padded(target, if target == [] then 1 else |target|)
    ensures target == if open[|open| - 1] == [] then open[..|open| - 1] else open
  {
  }

  /** The builder's step: row, padding and element. */
  lemma BuildOneMore(points: seq<Coo>, i: nat, first: int)
    requires i < |points| && points[i].y >= first
    requires |BuildRows(points[..i], first)| <= points[i].y - first + 1
    ensures BuildRows(points[..i + 1], first)
         == AddToLast(Padded(BuildRows(points[..i], first), points[i].y - first + 1), points[i].e)
    ensures |BuildRows(points[..i + 1], first)| == points[i].y - first + 1
  {
    hide BuildRows, Padded, AddToLast, AddPoint;
    var before := BuildRows(points[..i], first);
    AddIsPad(before, points[i], first);
    BuildConcat(points[..i], points[i], first);
    assert points[..i] + [points[i]] == points[..i + 1];
    AddPointLength(before, points[i], first);
  }

  lemma AddPointLength(rows: Rows, c: Coo, first: int)
    requires |rows| <= c.y - first + 1 && c.y >= first
    ensures |AddPoint(rows, c, first)| == c.y - first + 1
  {
  }

  lemma LastRowFilled(points: seq<Coo>, first: int)
    requires (forall i :: 0 <= i < |points| ==> points[i].y >= first)
    requires (forall i, j :: 0 <= i < j < |points| ==> points[i].y <= points[j].y)
    ensures Canonical(BuildRows(points, first))
  {
    if points != [] {
      BuildLength(points[..|points| - 1], first);
    }
  }

  lemma {:induction false} BuildLength(points: seq<Coo>, first: int)
    requires (forall i :: 0 <= i < |points| ==> points[i].y >= first)
    requires (forall i, j :: 0 <= i < j < |points| ==> points[i].y <= points[j].y)
    ensures |BuildRows(points, first)| == if points == [] then 0 else points[|points| - 1].y - first + 1
  {
    if points != [] {
      var n := |points| - 1;
      BuildLength(points[..n], first);
    }
  }

  lemma SortedInput(from: Order, to: Order, d: Dims, rows: Rows)
    requires Good(from, d, rows) && from != to
    ensures RowsAscend(Sort(Moved(from, to, d, Points(rows))))
  {
    hide Points, Sort, Moved, Transformed;
    TransformPoints(from, to, d, rows);
    PointsRange(Transformed(from, to, d, rows));
  }
}

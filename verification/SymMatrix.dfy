/** A part of a symmetric matrix: its strictly lower triangle and its diagonal.

    The triangle is cut at the column where the rows of the part begin, each half is
    encoded on its own, and the halves are merged row by row: no pattern ever spans
    the cut.  `MergeGood` says that what is merged can be printed and still has the
    cells that were loaded. */
module SymMatrix {
  import opened Orders
  import opened Matrix
  import opened Seqs
  import opened Reorder
  import opened MatrixCodec
  import opened SpmMatrix
  import opened Encoding
  import opened CsxPrinter

  // ----- A matrix with more rows

  /** Appending rows to a matrix changes no element and none of its cells. */
  lemma Taller(d: Dims, d': Dims, c: Coo)
    requires GoodElem(Horizontal, d, c) && d.cols == d'.cols && d.rows <= d'.rows
    ensures GoodElem(Horizontal, d', c) && ElemCells(Horizontal, d', c) == ElemCells(Horizontal, d, c)
  {
    hide Map, RMap, UnitCell, Aligned;
    HorizontalStays(d, c.At());
    HorizontalStays(d', c.At());
    if c.e.Pat? {
      forall k | 0 <= k < c.e.p.size
        ensures InOrder(c.e.p.order, d', Place(c.e.p, Map(c.e.p.order, d', c.At()), k))
        ensures RMap(c.e.p.order, d', Place(c.e.p, Map(c.e.p.order, d', c.At()), k))
             == RMap(c.e.p.order, d, Place(c.e.p, Map(c.e.p.order, d, c.At()), k))
      {
        assert InOrder(c.e.p.order, d, Place(c.e.p, StartOf(Horizontal, d, c.At(), c.e.p), k));
        TallerStep(d, d', c.At(), c.e.p, k);
      }
    }
  }

  /** Step k of a pattern is the same cell in both. */
  lemma TallerStep(d: Dims, d': Dims, a: Coord, p: Pattern, k: nat)
    requires d.cols == d'.cols && d.rows <= d'.rows && Aligned(p.order, a) && p.Good()
    requires InOrder(p.order, d, Place(p, Map(p.order, d, a), k))
    ensures InOrder(p.order, d', Place(p, Map(p.order, d', a), k))
    ensures RMap(p.order, d', Place(p, Map(p.order, d', a), k)) == RMap(p.order, d, Place(p, Map(p.order, d, a), k))
  {
    hide Map, RMap, UnitCell, Aligned;
    StepLandsOnUnitCell(p.order, d, a, k, p.Step());
    StepLandsOnUnitCell(p.order, d', a, k, p.Step());
    TallerPlace(p.order, d, d', a, UnitCell(p.order, a, k, p.Step()), k * p.Step());
  }

  lemma HorizontalStays(d: Dims, p: Coord)
    ensures RMap(Horizontal, d, p) == p && Map(Horizontal, d, p) == p
  {
  }

  /** Only the diagonal order knows how many rows there are: it shifts by the new ones. */
  lemma TallerPlace(o: Order, d: Dims, d': Dims, a: Coord, q: Coord, n: int)
    requires d.cols == d'.cols
    requires Map(o, d, q) == Coord(Map(o, d, a).y, Map(o, d, a).x + n)
    ensures Map(o, d', q) == Coord(Map(o, d', a).y, Map(o, d', a).x + n)
  {
    hide MapBR;
  }

  lemma {:induction false} TallerCells(d: Dims, d': Dims, ps: seq<Coo>)
    requires GoodPoints(Horizontal, d, ps) && d.cols == d'.cols && d.rows <= d'.rows
    ensures GoodPoints(Horizontal, d', ps) && PointCells(Horizontal, d', ps) == PointCells(Horizontal, d, ps)
  {
    hide GoodElem, ElemCells;
    if ps != [] {
      var n := |ps| - 1;
      TallerCells(d, d', ps[..n]);
      Taller(d, d', ps[n]);
    }
  }

  // ----- The two halves

  /** The elements on one side of the cut, in order. */
  function Half(ps: seq<Coo>, cut: nat, left: bool): seq<Coo> {
    if ps == [] then []
    else
      var l := ps[|ps| - 1];
      Half(ps[..|ps| - 1], cut, left) + if (l.e.x < cut + 1) == left then [l] else []
  }

  lemma HalfSnoc(ps: seq<Coo>, c: Coo, cut: nat, left: bool)
    ensures Half(ps + [c], cut, left) == Half(ps, cut, left) + if (c.e.x < cut + 1) == left then [c] else []
  {
    Snoc(ps, c);
  }

  lemma {:induction false} HalfMembers(ps: seq<Coo>, cut: nat, left: bool)
    ensures forall c :: c in Half(ps, cut, left) <==> c in ps && (c.e.x < cut + 1) == left
  {
    if ps != [] {
      var n := |ps| - 1;
      HalfMembers(ps[..n], cut, left);
      assert ps == ps[..n] + [ps[n]];
    }
  }

  lemma {:induction false} HalfSorted(ps: seq<Coo>, cut: nat, left: bool)
    requires Sorted(ps)
    ensures Sorted(Half(ps, cut, left))
  {
    hide Less;
    if ps != [] {
      var n := |ps| - 1;
      HalfSorted(ps[..n], cut, left);
      HalfMembers(ps[..n], cut, left);
      var h := Half(ps[..n], cut, left);
      forall i | 0 <= i < |h|
        ensures Less(h[i].At(), ps[n].At())
      {
        assert h[i] in ps[..n];
        var j :| 0 <= j < n && ps[j] == h[i];
      }
    }
  }

  /** One more element goes to one of the halves. */
  lemma HalvesOne(all: multiset<Coo>, left: seq<Coo>, right: seq<Coo>, c: Coo, low: bool)
    requires multiset(left) + multiset(right) == all
    ensures multiset(left + if low == true then [c] else []) + multiset(right + if low == false then [c] else [])
         == all + multiset([c])
  {
    if low {
      assert right + [] == right;
    } else {
      assert left + [] == left;
    }
  }

  lemma {:induction false} HalvesPerm(ps: seq<Coo>, cut: nat)
    ensures multiset(Half(ps, cut, true)) + multiset(Half(ps, cut, false)) == multiset(ps)
  {
    if ps != [] {
      var n := |ps| - 1;
      HalvesPerm(ps[..n], cut);
      assert ps == ps[..n] + [ps[n]];
      HalfSnoc(ps[..n], ps[n], cut, true);
      HalfSnoc(ps[..n], ps[n], cut, false);
      HalvesOne(multiset(ps[..n]), Half(ps[..n], cut, true), Half(ps[..n], cut, false), ps[n], ps[n].e.x < cut + 1);
    }
  }

  /** The rows of one half. */
  function HalfRows(rows: Rows, cut: nat, left: bool): Rows {
    BuildRows(Half(Points(rows), cut, left), 1)
  }

  ghost predicate AllSingles(rows: Rows) {
    forall i, e :: 0 <= i < |rows| && e in rows[i] ==> e.Single?
  }

  lemma HalfAscends(rows: Rows, cut: nat, left: bool)
    requires Sorted(Points(rows))
    ensures RowsAscend(Half(Points(rows), cut, left))
  {
    var h := Half(Points(rows), cut, left);
    HalfSorted(Points(rows), cut, left);
    HalfMembers(Points(rows), cut, left);
    PointsRange(rows);
    forall i | 0 <= i < |h|
      ensures h[i].y >= 1
    {
      assert h[i] in Points(rows);
    }
  }

  /** Each half is a valid matrix, with the columns of the whole and as many rows as it
      needs. */
  lemma HalfValid(d: Dims, rows: Rows, cut: nat, left: bool)
    requires Valid(Horizontal, d, rows) && AllSingles(rows)
    ensures var h := HalfRows(rows, cut, left);
            Valid(Horizontal, Dims(|h|, d.cols), h) && Points(h) == Half(Points(rows), cut, left) && |h| <= d.rows
    ensures forall c :: c in Points(HalfRows(rows, cut, left)) ==> c.e.Single?
  {
    hide Points, Half, BuildRows, Sorted, Apart;
    var ps := Half(Points(rows), cut, left);
    var h := HalfRows(rows, cut, left);
    HalfAscends(rows, cut, left);
    PointsBuild(ps);
    HalfMembers(Points(rows), cut, left);
    HalfSorted(Points(rows), cut, left);
    GoodMember(Horizontal, d, Points(rows));
    GoodMember(Horizontal, Dims(|h|, d.cols), ps);
    forall c | c in ps
      ensures c.e.Single? && GoodElem(Horizontal, Dims(|h|, d.cols), c) && 1 <= c.y <= d.rows
    {
      PointsMember(rows, c);
      var i :| 0 <= i < |ps| && ps[i] == c;
      assert c.y <= ps[|ps| - 1].y;
    }
    if ps != [] {
      assert ps[|ps| - 1] in ps;
    }
  }

  // ----- Cutting

  /** The builder of one half when it has reached row `done`, the last one with an
      element so far. */
  ghost predicate Filling(bld: Builder, ps: seq<Coo>, done: nat)
    reads bld
  {
    && bld.Valid()
    && |BuildRows(ps, 1)| == (if ps == [] then 0 else done + 1)
    && (ps == [] ==> done == 0)
    && bld.rows == Padded(BuildRows(ps, 1), done + 1)
  }

  /** One more element, after as many new rows as are missing. */
  method PutElem(bld: Builder, done: nat, i: nat, e: Elem, ghost ps: seq<Coo>) returns (done': nat)
    requires Filling(bld, ps, done) && done <= i
    modifies bld
    ensures done' == i && Filling(bld, ps + [Coo(i + 1, e)], done')
  {
    hide BuildRows, Padded, AddToLast, Builder.Valid;
    done' := done;
    if done' < i {
      bld.NewRow(i - done');
      PadMore(BuildRows(ps, 1), done' + 1, i - done');
      done' := i;
    }
    Snoc(ps, Coo(i + 1, e));
    BuildOneMore(ps + [Coo(i + 1, e)], |ps|, 1);
    Whole(ps + [Coo(i + 1, e)]);
    bld.AllocElem(e);
    PadNothing(BuildRows(ps + [Coo(i + 1, e)], 1));
  }

  lemma FillingStarts(bld: Builder)
    requires bld.Valid() && bld.rows == [[]]
    ensures Filling(bld, [], 0)
  {
    BuildNone(1);
    PadFirst();
  }

  /** One part of a symmetric matrix. */
  class SpmSym {
    var lower: Spm
    var first: Spm?
    var second: Spm?
    const rowStart: nat
    const diagonal: seq<real>

    constructor (spm: Spm, start: nat, dvalues: seq<real>)
      ensures lower == spm && rowStart == start && diagonal == dvalues && first == null && second == null
    {
      lower := spm;
      first, second := null, null;
      rowStart := start;
      diagonal := dvalues;
    }

    /** Cuts the lower triangle in two. */
    method DivideMatrix()
      requires lower.Valid() && Sorted(Points(lower.rows))
      modifies this`first, this`second
      ensures first != null && second != null && fresh(first) && fresh(second) && first != second
      ensures first.Valid() && first.rows == HalfRows(lower.rows, rowStart, true) && first.order == Horizontal
      ensures second.Valid() && second.rows == HalfRows(lower.rows, rowStart, false) && second.order == Horizontal
      ensures first.dims == Dims(|first.rows|, lower.dims.cols) && second.dims == Dims(|second.rows|, lower.dims.cols)
    {
      hide Points, Half, Flat, Ptrs, Filling, Builder.Valid, Sorted, RowsAscend, BuildRows, RowPoints;
      var bld1 := new Builder();
      var bld2 := new Builder();
      FillingStarts(bld1);
      FillingStarts(bld2);
      var rows1: nat, rows2: nat := 0, 0;
      var i := 0;
      NoHalf(rowStart);
      assert lower.rows[..0] == [];
      while i < lower.NrRows()
        invariant 0 <= i <= |lower.rows| && rows1 <= i && rows2 <= i && bld1 != bld2 && fresh(bld1) && fresh(bld2)
             && lower.Valid()
        invariant Filling(bld1, Half(Points(lower.rows[..i]), rowStart, true), rows1)
        invariant Filling(bld2, Half(Points(lower.rows[..i]), rowStart, false), rows2)
      {
        rows1, rows2 := DivideRow(bld1, bld2, rows1, rows2, i, lower.Row(i), Points(lower.rows[..i]));
        PointsSnocRow(lower.rows[..i], lower.rows[i]);
        assert lower.rows[..i] + [lower.rows[i]] == lower.rows[..i + 1];
        i := i + 1;
      }
      assert lower.rows[..i] == lower.rows;
      HalfAscends(lower.rows, rowStart, true);
      HalfAscends(lower.rows, rowStart, false);
      first := FinishHalf(bld1, rows1, lower.dims.cols, Half(Points(lower.rows), rowStart, true));
      second := FinishHalf(bld2, rows2, lower.dims.cols, Half(Points(lower.rows), rowStart, false));
    }

    /** Row i goes to the two builders. */
    method DivideRow(bld1: Builder, bld2: Builder, rows1: nat, rows2: nat, i: nat, row: seq<Elem>, ghost ps: seq<Coo>)
      returns (done1: nat, done2: nat)
      requires bld1 != bld2 && rows1 <= i && rows2 <= i
      requires Filling(bld1, Half(ps, rowStart, true), rows1) && Filling(bld2, Half(ps, rowStart, false), rows2)
      modifies bld1, bld2
      ensures done1 <= i && done2 <= i
      ensures Filling(bld1, Half(ps + RowPoints(i + 1, row), rowStart, true), done1)
      ensures Filling(bld2, Half(ps + RowPoints(i + 1, row), rowStart, false), done2)
    {
      hide Half, Filling;
      done1, done2 := rows1, rows2;
      var j := 0;
      assert RowPoints(i + 1, row[..0]) == [];
      NilRight(ps);
      while j < |row|
        invariant 0 <= j <= |row| && done1 <= i && done2 <= i
        invariant Filling(bld1, Half(ps + RowPoints(i + 1, row[..j]), rowStart, true), done1)
        invariant Filling(bld2, Half(ps + RowPoints(i + 1, row[..j]), rowStart, false), done2)
      {
        var elem := row[j];
        ghost var seen := ps + RowPoints(i + 1, row[..j]);
        RowPointsSnoc(i + 1, row[..j], elem);
        assert row[..j] + [elem] == row[..j + 1];
        Assoc(ps, RowPoints(i + 1, row[..j]), [Coo(i + 1, elem)]);
        HalfSnoc(seen, Coo(i + 1, elem), rowStart, true);
        HalfSnoc(seen, Coo(i + 1, elem), rowStart, false);
        NilRight(Half(seen, rowStart, true));
        NilRight(Half(seen, rowStart, false));
        if elem.x < rowStart + 1 {
          done1 := PutElem(bld1, done1, i, elem, Half(seen, rowStart, true));
        } else {
          done2 := PutElem(bld2, done2, i, elem, Half(seen, rowStart, false));
        }
        j := j + 1;
      }
      assert row[..j] == row;
    }

    /** Puts the halves together again, row by row; every row of the part stays, also
        when no element is left in it. */
    method MergeMatrix()
      requires lower.Valid() && first != null && second != null && first.Valid() && second.Valid()
      modifies this`lower, this`first, this`second
      ensures fresh(lower) && lower.Valid() && lower.order == Horizontal && lower.dims == old(lower.dims)
      ensures lower.rows == Merged(old(first.rows), old(second.rows), |old(lower.rows)|)
    {
      hide Flat, Ptrs, Builder.Valid, Merged;
      var bld := new Builder();
      ghost var a, b, n := first.rows, second.rows, |lower.rows|;
      var i := 0;
      while i < lower.NrRows()
        invariant 0 <= i <= n && bld.Valid() && bld.rows == Merged(a, b, i) + [[]]
        modifies bld
      {
        ghost var done := Merged(a, b, i);
        if first.NrRows() > i {
          NilLeft(first.Row(i));
          AppendRow(bld, first.Row(i), done, []);
        }
        assert bld.rows == done + [RowOf(a, i)];
        if second.NrRows() > i {
          AppendRow(bld, second.Row(i), done, RowOf(a, i));
        }
        NilRight(RowOf(a, i));
        assert bld.rows == done + [RowOf(a, i) + RowOf(b, i)];
        bld.NewRow(1);
        MergedMore(a, b, i);
        i := i + 1;
      }
      Snoc(Merged(a, b, n), []);
      var es, ptr := bld.Finalize();
      lower := new Spm(es, ptr, Horizontal, lower.dims, Merged(a, b, n));
      first, second := null, null;
    }
  }

  lemma NoHalf(cut: nat)
    ensures Half(Points([]), cut, true) == [] && Half(Points([]), cut, false) == []
  {
  }

  /** Closes a half. */
  method FinishHalf(bld: Builder, done: nat, cols: nat, ghost ps: seq<Coo>) returns (spm: Spm)
    requires Filling(bld, ps, done) && RowsAscend(ps)
    modifies bld
    ensures fresh(spm) && spm.Valid() && spm.rows == BuildRows(ps, 1) && spm.order == Horizontal
    ensures spm.dims == Dims(|spm.rows|, cols)
  {
    hide Flat, Ptrs, BuildRows, Padded, Canonical;
    PointsBuild(ps);
    BuiltRows(BuildRows(ps, 1), bld.rows);
    var es, ptr := bld.Finalize();
    spm := new Spm(es, ptr, Horizontal, Dims(|ptr| - 1, cols), BuildRows(ps, 1));
  }

  // ----- Merging

  /** Row i, empty when there is no such row. */
  function RowOf(rows: Rows, i: nat): seq<Elem> {
    if i < |rows| then rows[i] else []
  }

  function Merged(a: Rows, b: Rows, n: nat): (r: Rows)
    ensures |r| == n && forall i {:trigger r[i]} :: 0 <= i < n ==> r[i] == RowOf(a, i) + RowOf(b, i)
  {
    seq(n, i requires 0 <= i < n => RowOf(a, i) + RowOf(b, i))
  }

  lemma MergedMore(a: Rows, b: Rows, i: nat)
    ensures Merged(a, b, i + 1) == Merged(a, b, i) + [RowOf(a, i) + RowOf(b, i)]
    ensures Empties(1) == [[]]
  {
  }

  /** A half after it was encoded: valid, all its cells on one side of the cut. */
  ghost predicate EncodedHalf(d: Dims, a: Rows, cut: nat, left: bool) {
    && Valid(Horizontal, d, a)
    && forall c :: c in Cells(Horizontal, d, a) ==> (c.at.x - 1 < cut) == left
  }

  /** The cells of an element are cells of the matrix. */
  lemma ElemCellsIn(d: Dims, rows: Rows, i: nat, e: Elem, c: Entry)
    requires i < |rows| && e in rows[i] && c in ElemCells(Horizontal, d, Coo(i + 1, e))
    ensures c in Cells(Horizontal, d, rows)
  {
    hide Points, ElemCells;
    PointsMember(rows, Coo(i + 1, e));
    PointCellsMember(d, Points(rows), Coo(i + 1, e), c);
  }

  lemma {:induction false} PointCellsMember(d: Dims, ps: seq<Coo>, q: Coo, c: Entry)
    requires q in ps && c in ElemCells(Horizontal, d, q)
    ensures c in PointCells(Horizontal, d, ps)
  {
    hide ElemCells;
    var n := |ps| - 1;
    if q != ps[n] {
      var i :| 0 <= i < |ps| && ps[i] == q;
      assert ps[..n][i] == q;
      PointCellsMember(d, ps[..n], q, c);
    }
  }

  /** What is known of an element of an encoded half, in the whole matrix. */
  lemma HalfElem(d: Dims, d': Dims, a: Rows, cut: nat, left: bool, i: nat, e: Elem)
    requires EncodedHalf(d, a, cut, left) && d.cols == d'.cols && d.rows <= d'.rows && i < |a| && e in a[i]
    ensures GoodElem(Horizontal, d', Coo(i + 1, e)) && ElemSided(d', i + 1, e, cut)
    ensures (e.x - 1 < cut) == left && (LastX(Horizontal, e) - 1 < cut) == left
  {
    hide Map, RMap, Points, Cells, Tight;
    var c := Coo(i + 1, e);
    PointsMember(a, c);
    GoodMember(Horizontal, d, Points(a));
    ElemFacts(Horizontal, d, c);
    Taller(d, d', c);
    var cells := ElemCells(Horizontal, d, c);
    forall q | q in cells
      ensures (q.at.x - 1 < cut) == left
    {
      ElemCellsIn(d, a, i, e, q);
    }
    FirstAndLast(d, c);
    assert cells[0] in cells && cells[|cells| - 1] in cells;
  }

  /** The first cell of an element is at its anchor; a horizontal pattern ends at its
      last one. */
  lemma FirstAndLast(d: Dims, c: Coo)
    requires GoodElem(Horizontal, d, c)
    ensures var cells := ElemCells(Horizontal, d, c);
            cells != [] && cells[0].at.x == c.e.x
                 && (cells[|cells| - 1].at.x == LastX(Horizontal, c.e) || cells[0].at.x == LastX(Horizontal, c.e))
  {
    HorizontalStays(d, c.At());
    if c.e.Pat? {
      var p := c.e.p;
      var n := |c.e.vals| - 1;
      StepLandsOnUnitCell(p.order, d, c.At(), 0, p.Step());
      StepLandsOnUnitCell(p.order, d, c.At(), n, p.Step());
      assert UnitCell(p.order, c.At(), 0, p.Step()) == c.At();
    }
  }

  /** No more rows than the dimensions say. */
  lemma RowsFit(d: Dims, a: Rows)
    requires Valid(Horizontal, d, a)
    ensures |a| <= d.rows
  {
    hide Points, Tight;
    if a != [] {
      var row := a[|a| - 1];
      PointsMember(a, Coo(|a|, row[0]));
      GoodMember(Horizontal, d, Points(a));
    }
  }

  /** What is merged can be printed: rows well formed, no element spans the cut. */
  lemma MergeGood(d: Dims, d1: Dims, d2: Dims, a: Rows, b: Rows, cut: nat)
    requires EncodedHalf(d1, a, cut, true) && EncodedHalf(d2, b, cut, false)
    requires d1.cols == d2.cols == d.cols && d1.rows <= d.rows && d2.rows <= d.rows
    ensures RowsWell(d, Merged(a, b, d.rows)) && RowsSided(d, Merged(a, b, d.rows), cut)
  {
    hide GoodElem, LastX, ElemSided, EncodedHalf, RowValid;
    var m := Merged(a, b, d.rows);
    forall i | 0 <= i < |m|
      ensures RowValid(Horizontal, d, i + 1, m[i]) && forall e :: e in m[i] ==> ElemSided(d, i + 1, e, cut)
    {
      HalfRow(d, d1, a, cut, true, i);
      HalfRow(d, d2, b, cut, false, i);
      JoinRows(d, i + 1, RowOf(a, i), RowOf(b, i), cut);
    }
  }

  ghost predicate HalfRowGood(d: Dims, y: int, row: seq<Elem>, cut: nat, left: bool) {
    && RowValid(Horizontal, d, y, row)
    && forall e :: e in row ==> ElemSided(d, y, e, cut) && (e.x - 1 < cut) == left && (LastX(Horizontal, e) - 1 < cut) == left
  }

  lemma HalfRow(d: Dims, d': Dims, a: Rows, cut: nat, left: bool, i: nat)
    requires EncodedHalf(d', a, cut, left) && d.cols == d'.cols && d'.rows <= d.rows
    ensures HalfRowGood(d, i + 1, RowOf(a, i), cut, left)
  {
    hide GoodElem, LastX, ElemSided, Valid, Cells;
    if i < |a| {
      RowsValid(Horizontal, d', a, i + 1);
      forall e | e in a[i]
        ensures GoodElem(Horizontal, d, Coo(i + 1, e)) && ElemSided(d, i + 1, e, cut)
        ensures (e.x - 1 < cut) == left && (LastX(Horizontal, e) - 1 < cut) == left
      {
        HalfElem(d', d, a, cut, left, i, e);
      }
    }
  }

  lemma JoinRows(d: Dims, y: int, a: seq<Elem>, b: seq<Elem>, cut: nat)
    requires HalfRowGood(d, y, a, cut, true) && HalfRowGood(d, y, b, cut, false)
    ensures RowValid(Horizontal, d, y, a + b) && forall e :: e in a + b ==> ElemSided(d, y, e, cut)
  {
    hide GoodElem, LastX, ElemSided;
    var r := a + b;
    forall i, j | 0 <= i < j < |r|
      ensures LastX(Horizontal, r[i]) < r[j].x && r[i].x < r[j].x
    {
      if i < |a| <= j {
        assert r[i] in a && r[j] in b;
      }
    }
  }

  /** Merging loses no cell. */
  lemma MergedCells(d: Dims, d1: Dims, d2: Dims, a: Rows, b: Rows)
    requires Valid(Horizontal, d1, a) && Valid(Horizontal, d2, b)
    requires d1.cols == d2.cols == d.cols && d1.rows <= d.rows && d2.rows <= d.rows
    ensures multiset(Cells(Horizontal, d, Merged(a, b, d.rows)))
         == multiset(Cells(Horizontal, d1, a)) + multiset(Cells(Horizontal, d2, b))
  {
    hide Cells, Points, Tight, Sorted, GoodPoints, Merged;
    RowsFit(d1, a);
    RowsFit(d2, b);
    MergedUpTo(d, a, b, d.rows);
    assert a + Empties(d.rows - |a|) == Upto(a, d.rows) && b + Empties(d.rows - |b|) == Upto(b, d.rows);
    PaddedCells(d, d1, a, d.rows - |a|);
    PaddedCells(d, d2, b, d.rows - |b|);
  }

  /** The first n rows, with empty ones for those that are missing. */
  function Upto(a: Rows, n: nat): (r: Rows)
    ensures |r| == n && forall i {:trigger r[i]} :: 0 <= i < n ==> r[i] == RowOf(a, i)
  {
    seq(n, i requires 0 <= i < n => RowOf(a, i))
  }

  lemma PaddedCells(d: Dims, d': Dims, a: Rows, n: nat)
    requires GoodPoints(Horizontal, d', Points(a)) && d.cols == d'.cols && d'.rows <= d.rows
    ensures Cells(Horizontal, d, a + Empties(n)) == Cells(Horizontal, d', a)
  {
    hide Points, PointCells;
    PointsEmpties(a, n);
    TallerCells(d', d, Points(a));
  }

  lemma BothGrow<T>(m: seq<T>, u: seq<T>, v: seq<T>, a: seq<T>, b: seq<T>)
    requires multiset(m) == multiset(u) + multiset(v)
    ensures multiset(m + (a + b)) == multiset(u + a) + multiset(v + b)
  {
  }

  lemma {:induction false} MergedUpTo(d: Dims, a: Rows, b: Rows, n: nat)
    ensures multiset(Cells(Horizontal, d, Merged(a, b, n)))
         == multiset(Cells(Horizontal, d, Upto(a, n))) + multiset(Cells(Horizontal, d, Upto(b, n)))
  {
    hide Cells, RowCells;
    if n == 0 {
      assert Merged(a, b, 0) == Upto(a, 0) == Upto(b, 0) == [];
      NothingYet(false, d);
      assert Cells(Horizontal, d, []) == [];
    } else {
      MergedUpTo(d, a, b, n - 1);
      var m, u, v := Merged(a, b, n), Upto(a, n), Upto(b, n);
      CellsSnoc(d, m, n - 1);
      CellsSnoc(d, u, n - 1);
      CellsSnoc(d, v, n - 1);
      assert m[..n - 1] == Merged(a, b, n - 1) && u[..n - 1] == Upto(a, n - 1) && v[..n - 1] == Upto(b, n - 1);
      assert m[..n] == m && u[..n] == u && v[..n] == v;
      JoinedCells(d, n, RowOf(a, n - 1), RowOf(b, n - 1));
      BothGrow(Cells(Horizontal, d, m[..n - 1]), Cells(Horizontal, d, u[..n - 1]), Cells(Horizontal, d, v[..n - 1]),
               RowCells(Horizontal, d, n, RowOf(a, n - 1)), RowCells(Horizontal, d, n, RowOf(b, n - 1)));
    }
  }

  lemma JoinedCells(d: Dims, y: int, a: seq<Elem>, b: seq<Elem>)
    ensures RowCells(Horizontal, d, y, a + b) == RowCells(Horizontal, d, y, a) + RowCells(Horizontal, d, y, b)
  {
    RowPointsConcat(y, a, b);
    PointCellsConcat(Horizontal, d, RowPoints(y, a), RowPoints(y, b));
  }

  /** Cutting loses no cell either. */
  lemma DividedCells(d: Dims, rows: Rows, cut: nat)
    requires Valid(Horizontal, d, rows) && AllSingles(rows)
    ensures var a, b := HalfRows(rows, cut, true), HalfRows(rows, cut, false);
            multiset(Cells(Horizontal, Dims(|a|, d.cols), a)) + multiset(Cells(Horizontal, Dims(|b|, d.cols), b))
            == multiset(Cells(Horizontal, d, rows))
  {
    hide Points, Half, PointCells, Tight, GoodPoints, Sorted, HalfRows;
    var a, b := HalfRows(rows, cut, true), HalfRows(rows, cut, false);
    HalfValid(d, rows, cut, true);
    HalfValid(d, rows, cut, false);
    TallerCells(Dims(|a|, d.cols), d, Points(a));
    TallerCells(Dims(|b|, d.cols), d, Points(b));
    HalvesPerm(Points(rows), cut);
    PointCellsConcat(Horizontal, d, Points(a), Points(b));
    assert multiset(Points(a) + Points(b)) == multiset(Points(rows));
    PointCellsPerm(Horizontal, d, Points(a) + Points(b), Points(rows));
  }

  /** Every cell of a half is on its side of the cut. */
  lemma {:induction false} HalfCells(d: Dims, ps: seq<Coo>, cut: nat, left: bool)
    requires forall c :: c in ps ==> c.e.Single? && (c.e.x < cut + 1) == left
    ensures forall c :: c in PointCells(Horizontal, d, ps) ==> (c.at.x - 1 < cut) == left
  {
    if ps != [] {
      var n := |ps| - 1;
      HalfCells(d, ps[..n], cut, left);
      assert ps[n] in ps;
    }
  }
}

/** Windows: some rows of a matrix, seen as a matrix of their own in the same buffer.

    Statistics on a window change its order, which permutes elements in the buffer of the
    parent, and change it back.  `Inspect` promises that the parent is then as it was,
    although the window may have lost its empty rows at the end, and although patterns of
    the parent may reach beyond the window. */
module Windows {
  import opened Orders
  import opened Matrix
  import opened Seqs
  import opened Reorder
  import opened SpmMatrix
  import Encoding

  // ----- There and back, for elements of which only the place is known

  /** Every element is at a place of the order; where its pattern leads does not matter. */
  ghost predicate Anchored(o: Order, d: Dims, ps: seq<Coo>) {
    forall i :: 0 <= i < |ps| ==> InOrder(o, d, ps[i].At())
  }

  lemma MoveAnchor(from: Order, to: Order, d: Dims, c: Coo)
    requires InOrder(from, d, c.At())
    ensures var m := MovePoint(from, to, d, c);
            && RMap(to, d, m.At()) == RMap(from, d, c.At()) && InOrder(to, d, m.At()) && m.y >= 1
            && MovePoint(to, from, d, m) == c
  {
    hide Map, RMap;
    var p := RMap(from, d, c.At());
    RMapInvertsMap(to, d, p);
    MapRowBound(to, d, p);
  }

  lemma AnchorsMoved(from: Order, to: Order, d: Dims, ps: seq<Coo>)
    requires Anchored(from, d, ps) && Reorder.Distinct(ps)
    ensures Anchored(to, d, Moved(from, to, d, ps)) && Reorder.Distinct(Moved(from, to, d, ps))
    ensures (forall i :: 0 <= i < |ps| ==> Moved(from, to, d, ps)[i].y >= 1) && Moved(to, from, d, Moved(from, to, d, ps)) == ps
  {
    hide MovePoint, InOrder;
    var ms := Moved(from, to, d, ps);
    forall i | 0 <= i < |ps|
      ensures InOrder(to, d, ms[i].At()) && ms[i].y >= 1 && MovePoint(to, from, d, ms[i]) == ps[i]
    {
      MoveAnchor(from, to, d, ps[i]);
    }
    forall i, j | 0 <= i < j < |ms|
      ensures ms[i].At() != ms[j].At()
    {
      assert ps[i].At() != ps[j].At();
      if ms[i].At() == ms[j].At() {
        OnePlace(to, from, d, ms[i], ms[j]);
      }
    }
  }

  /** Elements at one place move to one place. */
  lemma OnePlace(from: Order, to: Order, d: Dims, a: Coo, b: Coo)
    requires a.At() == b.At()
    ensures MovePoint(from, to, d, a).At() == MovePoint(from, to, d, b).At()
  {
  }

  lemma AnchorsPerm(o: Order, d: Dims, a: seq<Coo>, b: seq<Coo>)
    requires multiset(a) == multiset(b) && Anchored(o, d, a)
    ensures Anchored(o, d, b)
  {
    hide InOrder;
    forall i | 0 <= i < |b|
      ensures InOrder(o, d, b[i].At())
    {
      assert b[i] in multiset(b);
      assert b[i] in a;
    }
  }

  /** The rows after a change of order. */
  function Changed(from: Order, to: Order, d: Dims, rows: Rows): Rows {
    BuildRows(Sort(Moved(from, to, d, Points(rows))), 1)
  }

  ghost predicate Ordered(o: Order, d: Dims, rows: Rows) {
    Sorted(Points(rows)) && Anchored(o, d, Points(rows))
  }

  lemma ChangedPoints(from: Order, to: Order, d: Dims, rows: Rows)
    requires Ordered(from, d, rows)
    ensures Points(Changed(from, to, d, rows)) == Sort(Moved(from, to, d, Points(rows)))
    ensures Ordered(to, d, Changed(from, to, d, rows)) && Canonical(Changed(from, to, d, rows))
    ensures RowsAscend(Sort(Moved(from, to, d, Points(rows))))
  {
    hide Points, Sort, Anchored, BuildRows, Moved;
    var ps := Points(rows);
    var ms := Moved(from, to, d, ps);
    PointsRange(rows);
    AnchorsMoved(from, to, d, ps);
    SortSorted(ms);
    SortPerm(ms);
    AnchorsPerm(to, d, ms, Sort(ms));
    PositivePerm(ms, Sort(ms));
    PointsBuild(Sort(ms));
  }

  /** Going to another order and back drops empty rows at the end and nothing else. */
  lemma ThereAndBack(to: Order, d: Dims, rows: Rows)
    requires Ordered(Horizontal, d, rows)
    ensures Changed(to, Horizontal, d, Changed(Horizontal, to, d, rows)) == Trim(rows)
  {
    hide Points, Moved, Sort, BuildRows, Sorted, Anchored, Changed;
    var there, ps := Changed(Horizontal, to, d, rows), Points(rows);
    ChangedPoints(Horizontal, to, d, rows);
    ChangedPoints(to, Horizontal, d, there);
    DistinctPoints(Horizontal, d, rows);
    AnchorsMoved(Horizontal, to, d, ps);
    SortPerm(Moved(Horizontal, to, d, ps));
    MovedPerm(to, Horizontal, d, Points(there), Moved(Horizontal, to, d, ps));
    var back := Moved(to, Horizontal, d, Points(there));
    SortPerm(back);
    SortedUnique(Sort(back), ps);
    BuildPoints(rows);
    ChangedIs(to, Horizontal, d, there);
  }

  lemma ChangedIs(from: Order, to: Order, d: Dims, rows: Rows)
    ensures Changed(from, to, d, rows) == BuildRows(Sort(Moved(from, to, d, Points(rows))), 1)
  {
  }

  lemma DistinctPoints(o: Order, d: Dims, rows: Rows)
    requires Ordered(o, d, rows)
    ensures Reorder.Distinct(Points(rows)) && Anchored(o, d, Points(rows)) && Sorted(Points(rows))
  {
    hide Points, Anchored;
    PointsRange(rows);
  }

  // ----- Rows of a matrix in its buffer

  lemma {:induction false} PtrsPrefix(rows: Rows, k: nat)
    requires k <= |rows|
    ensures Ptrs(rows[..k]) == Ptrs(rows)[..k + 1] && Flat(rows[..k]) <= Flat(rows)
  {
    var n := |rows|;
    if k < n {
      PtrsPrefix(rows[..n - 1], k);
      TakeTake(rows, k, n - 1);
    } else {
      Whole(rows);
    }
  }

  /** Some rows lie together, and their own row pointers are those of the matrix less
      where they begin. */
  lemma {:induction false} RowsSlice(rows: Rows, a: nat, b: nat)
    requires a <= b <= |rows|
    ensures Ptrs(rows)[a] <= Ptrs(rows)[b] <= |Flat(rows)|
    ensures Flat(rows)[Ptrs(rows)[a]..Ptrs(rows)[b]] == Flat(rows[a..b])
    ensures forall i {:trigger Ptrs(rows[a..b])[i]} :: 0 <= i <= b - a ==> Ptrs(rows)[a + i] == Ptrs(rows)[a] + Ptrs(rows[a..b])[i]
    decreases b
  {
    hide Flat, Ptrs;
    PtrsPrefix(rows, b);
    if a == b {
      assert rows[a..b] == [];
      NoPtrs();
    } else {
      RowsSlice(rows, a, b - 1);
      PtrsPrefix(rows, b - 1);
      var init, part := rows[a..b - 1], rows[a..b];
      assert part == init + [rows[b - 1]];
      FlatSnoc(init, rows[b - 1]);
      PtrsSnoc(init, rows[b - 1]);
      RowSlice(rows, b - 1);
    }
  }

  lemma NoPtrs()
    ensures Ptrs([]) == [0] && Flat([]) == []
  {
  }

  /** Empty rows at the end hold no elements. */
  lemma {:induction false} TrimFlat(rows: Rows)
    ensures Trim(rows) <= rows && Flat(Trim(rows)) == Flat(rows)
  {
    if !Canonical(rows) {
      var n := |rows| - 1;
      TrimFlat(rows[..n]);
      NilRight(Flat(rows[..n]));
    }
  }

  // ----- Windows

  function Clamped(n: nat, rs: nat, length: nat): nat
    requires rs <= n
  {
    if rs + length > n then n - rs else length
  }

  class Window {
    const parent: Spm
    const first: nat
    const es: nat
    const size: nat
    const dims: Dims
    var rowptr: seq<nat>
    var order: Order
    ghost var rows: Rows

    /** The rows of the window are what its stretch of the buffer and its row pointers say. */
    ghost predicate Valid()
      reads this, parent
    {
      es + size <= |parent.elems| && parent.elems[es..es + size] == Flat(rows) && rowptr == Ptrs(rows)
    }

    /** The rows from rs on, as many as asked for or as there are. */
    constructor GetWindow(spm: Spm, rs: nat, asked: nat)
      requires spm.Valid() && spm.order == Horizontal && rs <= |spm.rows|
      ensures var length := Clamped(|spm.rows|, rs, asked);
              && Valid() && parent == spm && first == rs && order == Horizontal && rows == spm.rows[rs..rs + length]
              && es == spm.rowptr[rs] && es + size == spm.rowptr[rs + length] && dims == Dims(length, spm.dims.cols)
    {
      var length := Clamped(spm.NrRows(), rs, asked);
      RowsSlice(spm.rows, rs, rs + length);
      parent, first, order := spm, rs, Horizontal;
      es, size := spm.rowptr[rs], spm.rowptr[rs + length] - spm.rowptr[rs];
      dims := Dims(length, spm.dims.cols);
      var ptr: seq<nat> := [];
      var i := 0;
      while i <= length
        invariant 0 <= i <= length + 1 && |ptr| == i
        invariant forall k :: 0 <= k < i ==> ptr[k] == Ptrs(spm.rows[rs..rs + length])[k]
      {
        var p := Ptrs(spm.rows[rs..rs + length])[i];
        assert spm.rowptr[rs + i] == spm.rowptr[rs] + p;
        ptr := ptr + [spm.rowptr[rs + i] - spm.rowptr[rs]];
        i := i + 1;
      }
      assert ptr == Ptrs(spm.rows[rs..rs + length]);
      rowptr := ptr;
      rows := spm.rows[rs..rs + length];
    }

    /** Changes the order of the window, inside the parent's buffer. */
    method Transform(t: Order)
      requires Valid() && Ordered(order, dims, rows)
      modifies this`rowptr, this`order, this`rows, parent`elems
      ensures Valid() && order == t && rows == if old(order) == t then old(rows) else Changed(old(order), t, dims, old(rows))
      ensures |parent.elems| == |old(parent.elems)|
      ensures parent.elems[..es] == old(parent.elems[..es])
           && parent.elems[es + size..] == old(parent.elems[es + size..])
    {
      hide Flat, Ptrs, Sort, BuildRows, Changed, Ordered, Moved;
      if order == t {
        return;
      }
      var copy := new Spm(parent.elems[es..es + size], rowptr, order, dims, rows);
      var coos := copy.MovedPoints(t);
      ChangedPoints(order, t, dims, rows);
      AscendingPoints(order, t, dims, rows);
      copy.SetElems(Sort(coos), 1);
      ChangedIs(order, t, dims, rows);
      SameCount(order, t, dims, rows);
      WriteBack(copy.elems);
      rowptr, order := copy.rowptr, t;
      rows := copy.rows;
    }

    /** Writes the elements at their places in the buffer. */
    method WriteBack(es': seq<Elem>)
      requires es + size <= |parent.elems| && |es'| == size
      modifies parent`elems
      ensures |parent.elems| == |old(parent.elems)| && parent.elems[es..es + size] == es'
      ensures parent.elems[..es] == old(parent.elems[..es])
           && parent.elems[es + size..] == old(parent.elems[es + size..])
    {
      var i := 0;
      while i < size
        invariant 0 <= i <= size && |parent.elems| == |old(parent.elems)|
        invariant parent.elems[es..es + i] == es'[..i]
        invariant parent.elems[..es] == old(parent.elems[..es])
             && parent.elems[es + size..] == old(parent.elems[es + size..])
      {
        ghost var was := parent.elems;
        parent.elems := parent.elems[es + i := es'[i]];
        assert parent.elems[es..es + (i + 1)] == was[es..es + i] + [es'[i]];
        assert parent.elems[..es] == was[..es] && parent.elems[es + size..] == was[es + size..];
        i := i + 1;
      }
      assert es'[..i] == es';
    }
  }

  lemma AscendingPoints(from: Order, to: Order, d: Dims, rows: Rows)
    requires Ordered(from, d, rows)
    ensures var s := Sort(Moved(from, to, d, Points(rows)));
            && (forall i :: 0 <= i < |s| ==> s[i].y >= 1)
            && forall i, j :: 0 <= i < j < |s| ==> s[i].y <= s[j].y
  {
    hide Sort, Moved, Points, Ordered;
    ChangedPoints(from, to, d, rows);
  }

  lemma {:induction false} PointsCount(rows: Rows)
    ensures |Points(rows)| == |Flat(rows)|
  {
    if rows != [] {
      PointsCount(rows[..|rows| - 1]);
    }
  }

  /** As many elements as before. */
  lemma SameCount(from: Order, to: Order, d: Dims, rows: Rows)
    requires Ordered(from, d, rows)
    ensures |Flat(Changed(from, to, d, rows))| == |Flat(rows)|
  {
    hide Points, Flat, Sort, Ordered, Changed;
    ChangedPoints(from, to, d, rows);
    PointsCount(rows);
    PointsCount(Changed(from, to, d, rows));
    SortPerm(Moved(from, to, d, Points(rows)));
    assert |multiset(Sort(Moved(from, to, d, Points(rows))))| == |multiset(Moved(from, to, d, Points(rows)))|;
  }

  /** Row pointers that are those of a window, moved to where the window begins. */
  ghost predicate Matches(ptr: seq<nat>, first: nat, es: nat, rowptr: seq<nat>) {
    first + |rowptr| <= |ptr| && forall i {:trigger rowptr[i]} :: 0 <= i < |rowptr| ==> ptr[first + i] == es + rowptr[i]
  }

  ghost predicate Replaced(was: seq<nat>, now: seq<nat>, first: nat, es: nat, rowptr: seq<nat>) {
    && |now| == |was| && first + |rowptr| <= |was|
    && forall i :: 0 <= i < |now| ==> now[i] == if first <= i < first + |rowptr| then es + rowptr[i - first] else was[i]
  }

  /** Puts the row pointers of a window back. */
  method PutWindow(spm: Spm, window: Window)
    requires window.parent == spm && window.first < |spm.rowptr| && window.first + |window.rowptr| <= |spm.rowptr|
    requires spm.rowptr[window.first] == window.es
    modifies spm`rowptr
    ensures Replaced(old(spm.rowptr), spm.rowptr, window.first, window.es, window.rowptr)
  {
    var i, es := 0, spm.rowptr[window.first];
    while i < |window.rowptr|
      invariant 0 <= i <= |window.rowptr| && |spm.rowptr| == |old(spm.rowptr)|
      invariant forall k :: 0 <= k < |spm.rowptr| ==>
                  spm.rowptr[k] == if window.first <= k < window.first + i then es + window.rowptr[k - window.first] else old(spm.rowptr[k])
    {
      spm.rowptr := spm.rowptr[window.first + i := es + window.rowptr[i]];
      i := i + 1;
    }
  }

  /** The elements of the window are in the window's rows, in order. */
  lemma WindowOrdered(d: Dims, rows: Rows, rs: nat, length: nat)
    requires rs + length <= |rows| && Sorted(Points(rows)) && Anchored(Horizontal, d, Points(rows))
    ensures Ordered(Horizontal, Dims(length, d.cols), rows[rs..rs + length])
  {
    hide Points, Less, Sorted;
    var part := rows[rs..rs + length];
    Encoding.SortedByRows(rows);
    Encoding.SortedByRows(part);
    PointsRange(part);
    var ps := Points(part);
    forall i | 0 <= i < |ps|
      ensures InOrder(Horizontal, Dims(length, d.cols), ps[i].At())
    {
      Encoding.PointsMember(part, ps[i]);
      Encoding.PointsMember(rows, Coo(rs + ps[i].y, ps[i].e));
      var k :| 0 <= k < |Points(rows)| && Points(rows)[k] == Coo(rs + ps[i].y, ps[i].e);
    }
  }

  /** Another order and back: the window has its elements again, less empty rows at the end. */
  method Look(window: Window, spm: Spm, t: Order)
    requires window.parent == spm && window.Valid() && window.order == Horizontal
    requires Ordered(Horizontal, window.dims, window.rows)
    modifies window`rowptr, window`order, window`rows, spm`elems
    ensures window.Valid() && window.rows == (if t == Horizontal then old(window.rows) else Trim(old(window.rows))) && |spm.elems| == |old(spm.elems)|
    ensures spm.elems[..window.es] == old(spm.elems[..window.es])
    ensures spm.elems[window.es + window.size..] == old(spm.elems[window.es + window.size..])
  {
    hide Flat, Ptrs, Changed, Ordered, Trim;
    ghost var part := window.rows;
    if t != Horizontal {
      ChangedPoints(Horizontal, t, window.dims, part);
    }
    window.Transform(t);
    window.Transform(Horizontal);
    ThereAndBack(t, window.dims, part);
  }

  /** Looks at a window in another order: afterwards the parent is as it was. */
  method Inspect(spm: Spm, rs: nat, asked: nat, t: Order)
    requires spm.Valid() && spm.order == Horizontal && rs <= |spm.rows|
    requires Sorted(Points(spm.rows)) && Anchored(Horizontal, spm.dims, Points(spm.rows))
    modifies spm`elems, spm`rowptr
    ensures spm.elems == old(spm.elems) && spm.rowptr == old(spm.rowptr) && spm.Valid()
  {
    hide Flat, Ptrs, Ordered, Sorted, Anchored, Points, Trim, Matches, Replaced;
    ghost var length := Clamped(|spm.rows|, rs, asked);
    WindowOrdered(spm.dims, spm.rows, rs, length);
    PartRestored(spm.rows, rs, length);
    ghost var was := spm.elems;
    var window := new Window.GetWindow(spm, rs, asked);
    Look(window, spm, t);
    SameBuffer(was, spm.elems, window.es, window.size);
    PutWindow(spm, window);
    SamePointers(old(spm.rowptr), spm.rowptr, rs, window.es, window.rowptr);
  }

  /** The row pointers of a window that has lost its empty rows at the end are still
      those of the parent. */
  lemma PartRestored(rows: Rows, rs: nat, length: nat)
    requires rs + length <= |rows|
    ensures Ptrs(rows)[rs] <= Ptrs(rows)[rs + length] <= |Flat(rows)|
    ensures var part, p := rows[rs..rs + length], Ptrs(rows);
            && Flat(Trim(part)) == Flat(part) == Flat(rows)[p[rs]..p[rs + length]] && |Trim(part)| <= length
            && Matches(p, rs, p[rs], Ptrs(Trim(part))) && Matches(p, rs, p[rs], Ptrs(part))
  {
    hide Flat, Ptrs, Trim;
    var part := rows[rs..rs + length];
    TrimFlat(part);
    RowsSlice(rows, rs, rs + length);
    PtrsPrefix(part, |Trim(part)|);
    assert part[..|Trim(part)|] == Trim(part);
    forall i {:trigger Ptrs(Trim(part))[i]} | 0 <= i <= |Trim(part)|
      ensures Ptrs(rows)[rs + i] == Ptrs(rows)[rs] + Ptrs(Trim(part))[i]
    {
      var q := Ptrs(part)[i];
    }
  }

  lemma SameBuffer<T>(was: seq<T>, now: seq<T>, es: nat, size: nat)
    requires es + size <= |was| == |now| && was[..es] == now[..es] && was[es..es + size] == now[es..es + size]
         && was[es + size..] == now[es + size..]
    ensures was == now
  {
    Halves(was, es + size);
    Halves(now, es + size);
    Glue(was, es, es + size);
    Glue(now, es, es + size);
  }

  lemma SamePointers(was: seq<nat>, now: seq<nat>, first: nat, es: nat, rowptr: seq<nat>)
    requires Replaced(was, now, first, es, rowptr) && Matches(was, first, es, rowptr)
    ensures was == now
  {
    forall i | 0 <= i < |now|
      ensures now[i] == was[i]
    {
      if first <= i < first + |rowptr| {
        var q := rowptr[i - first];
        assert was[first + (i - first)] == was[i];
      }
    }
  }
}

/** Blocked compressed sparse rows: the matrix is cut into r x c blocks at multiples of r
    and c, and every block with an element is stored whole, zeros included.

    A scan counts the blocks, a second pass over the matrix fills arrays of exactly that
    size.  `Multiply` promises the product of the row format. */
module Bcsr {
  import opened Orders
  import opened Products
  import opened CsrMatrix
  import Sorting

  // ----- Places in a table of rows of equal width

  function Idx(width: nat, i: nat, j: nat): nat { i * width + j }

  lemma IdxBound(width: nat, rows: nat, i: nat, j: nat)
    requires i < rows && j < width
    ensures Idx(width, i, j) < Scale(rows, width)
  {
    MulMono(i + 1, rows, width);
  }

  lemma IdxInj(width: nat, i: nat, j: nat, i': nat, j': nat)
    requires j < width && j' < width && Idx(width, i, j) == Idx(width, i', j')
    ensures i == i' && j == j'
  {
    DivModUnique(i * width + j, i, j, width);
    DivModUnique(i' * width + j', i', j', width);
  }

  lemma IdxOf(width: nat, n: nat)
    requires width >= 1
    ensures n % width < width && Idx(width, n / width, n % width) == n
  {
  }

  lemma IdxNext(width: nat, i: nat, j: nat)
    ensures Idx(width, i, 0) == Scale(i, width) && Idx(width, i, j + 1) == Idx(width, i, j) + 1
    ensures Idx(width, i + 1, 0) == Idx(width, i, 0) + width && Idx(width, i, j) == Idx(width, i, 0) + j
  {
  }

  lemma IdxZero(width: nat)
    ensures Idx(width, 0, 0) == 0
  {
  }

  // ----- The matrix as a table

  /** The value at a column among the elements a..k of one row, 0 when there is none. */
  function ValIn(m: Csr, a: nat, k: nat, col: nat): real
    requires a <= k <= |m.colInd| == |m.values|
    decreases k - a
  {
    if a == k then 0.0 else if m.colInd[k - 1] == col then m.values[k - 1] else ValIn(m, a, k - 1, col)
  }

  function Val(m: Csr, row: nat, col: nat): real
    requires m.Valid()
  {
    if row < m.nrows then ValIn(m, m.rowPtr[row], m.rowPtr[row + 1], col) else 0.0
  }

  /** The products of a row with the columns lo..hi. */
  function Dense(m: Csr, row: nat, x: seq<real>, lo: nat, hi: nat): real
    requires m.Valid() && lo <= hi <= |x|
    decreases hi - lo
  {
    if lo == hi then 0.0 else Dense(m, row, x, lo, hi - 1) + Mul(Val(m, row, hi - 1), x[hi - 1])
  }

  lemma {:induction false} DenseSplit(m: Csr, row: nat, x: seq<real>, lo: nat, mid: nat, hi: nat)
    requires m.Valid() && lo <= mid <= hi <= |x|
    ensures Dense(m, row, x, lo, hi) == Dense(m, row, x, lo, mid) + Dense(m, row, x, mid, hi)
    decreases hi - mid
  {
    hide Mul, Val;
    if mid < hi {
      DenseSplit(m, row, x, lo, mid, hi - 1);
    }
  }

  lemma MulZero(a: real)
    ensures Mul(0.0, a) == 0.0
  {
  }

  lemma {:induction false} DenseZero(m: Csr, row: nat, x: seq<real>, lo: nat, hi: nat)
    requires m.Valid() && lo <= hi <= |x| && forall col :: lo <= col < hi ==> Val(m, row, col) == 0.0
    ensures Dense(m, row, x, lo, hi) == 0.0
    decreases hi - lo
  {
    hide Mul, Val;
    if lo < hi {
      DenseZero(m, row, x, lo, hi - 1);
      MulZero(x[hi - 1]);
    }
  }

  lemma {:induction false} ValNone(m: Csr, a: nat, k: nat, col: nat)
    requires a <= k <= |m.colInd| == |m.values| && forall e :: a <= e < k ==> m.colInd[e] != col
    ensures ValIn(m, a, k, col) == 0.0
    decreases k - a
  {
    if a < k {
      ValNone(m, a, k - 1, col);
    }
  }

  /** In a row in column order element e is found at its column. */
  lemma {:induction false} ValHere(m: Csr, a: nat, e: nat, k: nat)
    requires a <= e < k <= |m.colInd| == |m.values| && forall i, j :: a <= i < j < k ==> m.colInd[i] < m.colInd[j]
    ensures ValIn(m, a, k, m.colInd[e]) == m.values[e]
    decreases k - a
  {
    if e < k - 1 {
      ValHere(m, a, e, k - 1);
    }
  }

  /** The products of the first elements of a row are those of the columns up to the last
      of them. */
  lemma {:induction false} StretchDense(m: Csr, row: nat, x: seq<real>, k: nat)
    requires m.Valid() && row < m.nrows && |x| >= m.ncols && m.rowPtr[row] <= k <= m.rowPtr[row + 1]
    ensures m.Stretch(x, m.rowPtr[row], k) == Dense(m, row, x, 0, if k == m.rowPtr[row] then 0 else m.colInd[k - 1] + 1)
    decreases k
  {
    hide Mul;
    var a := m.rowPtr[row];
    if k > a {
      StretchDense(m, row, x, k - 1);
      var before := if k - 1 == a then 0 else m.colInd[k - 2] + 1;
      var col := m.colInd[k - 1];
      forall q | before <= q < col
        ensures Val(m, row, q) == 0.0
      {
        Between(m, row, k, q);
      }
      DenseSplit(m, row, x, 0, before, col);
      DenseZero(m, row, x, before, col);
      ValHere(m, a, k - 1, m.rowPtr[row + 1]);
    }
  }

  /** No element lies between two that follow each other. */
  lemma Between(m: Csr, row: nat, k: nat, q: nat)
    requires m.Valid() && row < m.nrows && m.rowPtr[row] < k <= m.rowPtr[row + 1]
    requires (if k - 1 == m.rowPtr[row] then 0 else m.colInd[k - 2] + 1) <= q < m.colInd[k - 1]
    ensures Val(m, row, q) == 0.0
  {
    forall e | m.rowPtr[row] <= e < m.rowPtr[row + 1]
      ensures m.colInd[e] != q
    {
      if e < k - 2 {
        assert m.colInd[e] < m.colInd[k - 2];
      }
      if e > k - 1 {
        assert m.colInd[k - 1] < m.colInd[e];
      }
    }
    ValNone(m, m.rowPtr[row], m.rowPtr[row + 1], q);
  }

  /** A row of the product, column by column, as far as one likes beyond the matrix. */
  lemma RowIsDense(m: Csr, row: nat, x: seq<real>, hi: nat)
    requires m.Valid() && row < m.nrows && m.ncols <= hi <= |x|
    ensures m.RowProduct(x, row) == Dense(m, row, x, 0, hi)
  {
    hide Mul;
    var a, b := m.rowPtr[row], m.rowPtr[row + 1];
    StretchDense(m, row, x, b);
    var last := if a == b then 0 else m.colInd[b - 1] + 1;
    forall q | last <= q < hi
      ensures Val(m, row, q) == 0.0
    {
      forall e | a <= e < b
        ensures m.colInd[e] != q
      {
        if e < b - 1 {
          assert m.colInd[e] < m.colInd[b - 1];
        }
      }
      ValNone(m, a, b, q);
    }
    DenseSplit(m, row, x, 0, last, hi);
    DenseZero(m, row, x, last, hi);
  }

  // ----- Blocks

  /** The block columns of the elements a..k. */
  ghost function Touched(m: Csr, c: nat, a: nat, k: nat): set<nat>
    requires c >= 1 && a <= k <= |m.colInd|
    decreases k - a
  {
    if a == k then {} else Touched(m, c, a, k - 1) + {m.colInd[k - 1] / c}
  }

  lemma {:induction false} TouchedMember(m: Csr, c: nat, a: nat, k: nat, p: nat)
    requires c >= 1 && a <= k <= |m.colInd|
    ensures p in Touched(m, c, a, k) <==> exists e :: a <= e < k && m.colInd[e] / c == p
    decreases k - a
  {
    if a < k {
      TouchedMember(m, c, a, k - 1, p);
    }
  }

  /** Where block row b ends. */
  function RowEnd(m: Csr, r: nat, b: nat): nat {
    if Idx(r, b + 1, 0) < m.nrows then Idx(r, b + 1, 0) else m.nrows
  }

  /** The block columns of block row b. */
  ghost function Blocks(m: Csr, r: nat, c: nat, b: nat): set<nat>
    requires m.Valid() && r >= 1 && c >= 1
  {
    if Idx(r, b, 0) < m.nrows then
      IdxNext(r, b, 0);
      Touched(m, c, m.rowPtr[Idx(r, b, 0)], m.rowPtr[RowEnd(m, r, b)])
    else {}
  }

  /** Blocks of the first n block rows. */
  ghost function Count(m: Csr, r: nat, c: nat, n: nat): nat
    requires m.Valid() && r >= 1 && c >= 1
  {
    if n == 0 then 0 else Count(m, r, c, n - 1) + |Blocks(m, r, c, n - 1)|
  }

  // ----- Sorting positions

  function Below(): (nat, nat) -> bool {
    (a: nat, b: nat) => a < b
  }

  ghost predicate Ascends(s: seq<nat>) {
    forall i, j :: 0 <= i < j < |s| ==> s[i] < s[j]
  }

  ghost predicate Distinct(s: seq<nat>) {
    forall i, j :: 0 <= i < j < |s| ==> s[i] != s[j]
  }

  lemma SortKeeps(s: seq<nat>)
    requires Distinct(s)
    ensures var r := Sorting.Sort(s, Below());
            Ascends(r) && |r| == |s| && forall q :: q in r <==> q in s
  {
    Sorting.SortAscends(s, Below());
    Sorting.SortPerm(s, Below());
    var r := Sorting.Sort(s, Below());
    assert forall q :: q in r <==> q in multiset(r);
    assert forall q :: q in s <==> q in multiset(s);
  }

  /** As many positions as members. */
  lemma {:induction false} DistinctSize(s: seq<nat>, t: set<nat>)
    requires Distinct(s) && forall q :: q in s <==> q in t
    ensures |s| == |t|
  {
    if s == [] {
      assert t == {};
    } else {
      var n := |s| - 1;
      assert s == s[..n] + [s[n]];
      DistinctSize(s[..n], t - {s[n]});
    }
  }

  // ----- The block cache

  /** The blocks of one block row while its elements are read. */
  class Cache {
    const r: nat
    const c: nat
    const size: nat
    const blkValues: array<real>
    const valid: array<bool>
    var validPos: seq<nat>

    ghost predicate Ok()
      reads this, blkValues, valid
    {
      && r >= 1 && c >= 1 && blkValues.Length == Scale(size, Scale(r, c)) && valid.Length == size
      && Distinct(validPos) && (forall p :: p in validPos ==> p < size)
      && forall p: nat :: p < size ==> (valid[p] <==> p in validPos)
    }

    constructor (size: nat, r: nat, c: nat)
      requires r >= 1 && c >= 1
      ensures Ok() && this.size == size && this.r == r && this.c == c && validPos == [] && fresh(blkValues)
           && fresh(valid)
    {
      this.size, this.r, this.c := size, r, c;
      blkValues := new real[Scale(size, Scale(r, c))](_ => 0.0);
      valid := new bool[size](_ => false);
      validPos := [];
    }

    /** Where value (i, j) of block p is kept. */
    function Addr(p: nat, i: nat, j: nat): nat {
      Idx(Scale(r, c), p, Idx(c, i, j))
    }

    lemma AddrBound(p: nat, i: nat, j: nat)
      requires p < size && i < r && j < c
      ensures Addr(p, i, j) < Scale(size, Scale(r, c)) && Idx(c, i, j) < Scale(r, c)
    {
      IdxBound(c, r, i, j);
      IdxBound(Scale(r, c), size, p, Idx(c, i, j));
    }

    lemma AddrInj(p: nat, i: nat, j: nat, p': nat, i': nat, j': nat)
      requires i < r && j < c && i' < r && j' < c && Addr(p, i, j) == Addr(p', i', j')
      ensures p == p' && i == i' && j == j'
    {
      IdxBound(c, r, i, j);
      IdxBound(c, r, i', j');
      IdxInj(Scale(r, c), p, Idx(c, i, j), p', Idx(c, i', j'));
      IdxInj(c, i, j, i', j');
    }

    /** Zeroes block p. */
    method ClearBlock(p: nat)
      requires Ok() && p < size
      modifies blkValues
      ensures forall q, i, j {:trigger Addr(q, i, j)} :: 0 <= q < size && 0 <= i < r && 0 <= j < c ==>
                Addr(q, i, j) < blkValues.Length && blkValues[Addr(q, i, j)] == if q == p then 0.0 else old(blkValues[Addr(q, i, j)])
    {
      hide Idx, Scale;
      ghost var was := blkValues[..];
      var k := 0;
      var base := Idx(Scale(r, c), p, 0);
      while k < Scale(r, c)
        invariant 0 <= k <= Scale(r, c)
        invariant forall a :: 0 <= a < blkValues.Length ==> blkValues[a] == if base <= a < base + k then 0.0 else was[a]
      {
        IdxNext(Scale(r, c), p, k);
        IdxBound(Scale(r, c), size, p, k);
        blkValues[base + k] := 0.0;
        k := k + 1;
      }
      forall q, i, j {:trigger Addr(q, i, j)} | 0 <= q < size && 0 <= i < r && 0 <= j < c
        ensures Addr(q, i, j) < blkValues.Length && blkValues[Addr(q, i, j)] == if q == p then 0.0 else was[Addr(q, i, j)]
      {
        AddrBound(q, i, j);
        InBlock(p, q, i, j);
      }
    }

    /** The values of a block lie together. */
    lemma InBlock(p: nat, q: nat, i: nat, j: nat)
      requires r >= 1 && c >= 1 && i < r && j < c
      ensures Idx(Scale(r, c), p, 0) <= Addr(q, i, j) < Idx(Scale(r, c), p, 0) + Scale(r, c) <==> q == p
    {
      hide Idx;
      var w := Scale(r, c);
      IdxBound(c, r, i, j);
      IdxNext(w, q, Idx(c, i, j));
      var a := Addr(q, i, j);
      var base := Idx(w, p, 0);
      if base <= a < base + w {
        IdxNext(w, p, a - base);
        IdxInj(w, p, a - base, q, Idx(c, i, j));
      }
    }

    /** The values after one element was put in its block. */
    ghost predicate Put(was: seq<real>, now: seq<real>, row: nat, col: nat, v: real, isNew: bool)
      requires r >= 1 && c >= 1
    {
      && |now| == |was|
      && forall p, i, j {:trigger Addr(p, i, j)} :: 0 <= p < size && 0 <= i < r && 0 <= j < c ==>
           Addr(p, i, j) < |was|
           && now[Addr(p, i, j)] == if p == col / c && i == row % r && j == col % c then v
                                    else if p == col / c && isNew then 0.0 else was[Addr(p, i, j)]
    }

    /** Puts one element in its block; a block seen for the first time is cleared. */
    method AddElem(row: nat, col: nat, v: real) returns (isNew: bool)
      requires Ok() && col / c < size
      modifies this`validPos, blkValues, valid
      ensures Ok() && isNew == (col / c !in old(validPos)) && validPos == old(validPos) + (if isNew then [col / c] else [])
      ensures Put(old(blkValues[..]), blkValues[..], row, col, v, isNew)
    {
      hide Idx, Scale;
      var bcol, bc := col / c, col % c;
      var br := row % r;
      isNew := !valid[bcol];
      if isNew {
        ClearBlock(bcol);
        valid[bcol] := true;
        validPos := validPos + [bcol];
      }
      IdxOf(c, col);
      IdxOf(r, row);
      AddrBound(bcol, br, bc);
      ghost var was := blkValues[..];
      blkValues[Addr(bcol, br, bc)] := v;
      forall p, i, j {:trigger Addr(p, i, j)} | 0 <= p < size && 0 <= i < r && 0 <= j < c
        ensures Addr(p, i, j) < blkValues.Length
        ensures blkValues[Addr(p, i, j)] == if p == bcol && i == br && j == bc then v else was[Addr(p, i, j)]
      {
        AddrBound(p, i, j);
        if Addr(p, i, j) == Addr(bcol, br, bc) {
          AddrInj(p, i, j, bcol, br, bc);
        }
      }
    }

    method Sort()
      requires Ok()
      modifies this`validPos
      ensures Ok() && Ascends(validPos) && |validPos| == |old(validPos)| && forall p :: p in validPos <==> p in old(validPos)
    {
      hide Idx, Scale;
      SortKeeps(validPos);
      validPos := Sorting.Sort(validPos, Below());
    }

    method Clear()
      requires Ok()
      modifies this`validPos, valid
      ensures Ok() && validPos == []
    {
      hide Idx, Scale;
      var i := 0;
      while i < |validPos|
        invariant 0 <= i <= |validPos| && validPos == old(validPos) && valid.Length == size && forall p :: p in validPos ==> p < size
        invariant forall p: nat :: p < size ==> (valid[p] <==> p in validPos[i..])
      {
        assert validPos[i..] == [validPos[i]] + validPos[i + 1..] && validPos[i] in validPos;
        valid[validPos[i]] := false;
        i := i + 1;
      }
      validPos := [];
    }

    /** The values of the blocks at `pos` are those seen before element k of row `row`. */
    ghost predicate Cells(m: Csr, base: nat, row: nat, k: nat, vals: seq<real>, pos: seq<nat>)
      requires m.Valid() && Reading(m, base, row, k)
    {
      forall p, i, j {:trigger Addr(p, i, j)} :: 0 <= p < size && p in pos && 0 <= i < r && 0 <= j < c ==>
        Addr(p, i, j) < |vals| && vals[Addr(p, i, j)] == Seen(m, base, row, k, i, Idx(c, p, j))
    }

    ghost predicate Holds(m: Csr, base: nat, row: nat, k: nat)
      reads this, blkValues, valid
    {
      && Ok() && m.Valid() && Reading(m, base, row, k)
      && (forall p: nat :: p in validPos <==> p in Touched(m, c, m.rowPtr[base], k))
      && Cells(m, base, row, k, blkValues[..], validPos)
    }
  }

  /** Element k belongs to row `row`, or is the first one behind it. */
  ghost predicate Reading(m: Csr, base: nat, row: nat, k: nat)
    requires m.Valid()
  {
    base <= row <= m.nrows && (if row < m.nrows then m.rowPtr[row] <= k <= m.rowPtr[row + 1] else k == m.rowPtr[m.nrows])
  }

  /** What is known so far of row base + i at a column. */
  function Seen(m: Csr, base: nat, row: nat, k: nat, i: nat, col: nat): real
    requires m.Valid() && Reading(m, base, row, k)
  {
    if base + i < row then Val(m, base + i, col)
    else if base + i == row && row < m.nrows then ValIn(m, m.rowPtr[row], k, col)
    else 0.0
  }

  lemma SeenMore(m: Csr, base: nat, row: nat, k: nat, i: nat, col: nat)
    requires m.Valid() && row < m.nrows && Reading(m, base, row, k) && k < m.rowPtr[row + 1]
    ensures Reading(m, base, row, k + 1)
    ensures Seen(m, base, row, k + 1, i, col) == if base + i == row && col == m.colInd[k] then m.values[k] else Seen(m, base, row, k, i, col)
  {
  }

  lemma SeenRow(m: Csr, base: nat, row: nat, i: nat, col: nat)
    requires m.Valid() && base <= row < m.nrows
    ensures Reading(m, base, row, m.rowPtr[row + 1]) && Reading(m, base, row + 1, m.rowPtr[row + 1])
    ensures Seen(m, base, row + 1, m.rowPtr[row + 1], i, col) == Seen(m, base, row, m.rowPtr[row + 1], i, col)
  {
  }

  /** Columns of a block that was not touched hold nothing. */
  lemma SeenNothing(m: Csr, c: nat, base: nat, row: nat, k: nat, i: nat, p: nat, j: nat)
    requires m.Valid() && c >= 1 && Reading(m, base, row, k) && j < c && p !in Touched(m, c, m.rowPtr[base], k)
    ensures Seen(m, base, row, k, i, Idx(c, p, j)) == 0.0
  {
    hide Touched, Idx;
    var col := Idx(c, p, j);
    IdxOf(c, col);
    IdxInj(c, p, j, col / c, col % c);
    forall e | m.rowPtr[base] <= e < k
      ensures m.colInd[e] != col
    {
      TouchedMember(m, c, m.rowPtr[base], k, p);
    }
    if base + i < row {
      ValNone(m, m.rowPtr[base + i], m.rowPtr[base + i + 1], col);
    } else if base + i == row && row < m.nrows {
      ValNone(m, m.rowPtr[row], k, col);
    }
  }

  // ----- One block row

  /** The values after one more element. */
  lemma CellsMore(cache: Cache, m: Csr, base: nat, row: nat, k: nat, isNew: bool, was: seq<real>, now: seq<real>,
                  pos: seq<nat>)
    requires cache.r >= 1 && cache.c >= 1 && m.Valid() && row < m.nrows && Reading(m, base, row, k)
         && k < m.rowPtr[row + 1] && k < |m.colInd|
    requires base % cache.r == 0 && row < base + cache.r
    requires forall p: nat :: p in pos <==> p in Touched(m, cache.c, m.rowPtr[base], k)
    requires cache.Cells(m, base, row, k, was, pos)
    requires isNew == (m.colInd[k] / cache.c !in pos) && cache.Put(was, now, row, m.colInd[k], m.values[k], isNew)
    ensures Reading(m, base, row, k + 1)
    ensures cache.Cells(m, base, row, k + 1, now, pos + (if isNew then [m.colInd[k] / cache.c] else []))
    ensures var pos' := pos + (if isNew then [m.colInd[k] / cache.c] else []);
            forall p: nat :: p in pos' <==> p in Touched(m, cache.c, m.rowPtr[base], k + 1)
  {
    hide Idx, Scale, Seen, ValIn, Val, Touched;
    var pos' := pos + (if isNew then [m.colInd[k] / cache.c] else []);
    SeenMore(m, base, row, k, 0, 0);
    forall p, i, j {:trigger cache.Addr(p, i, j)} | 0 <= p < cache.size && p in pos' && 0 <= i < cache.r && 0 <= j < cache.c
      ensures cache.Addr(p, i, j) < |now| && now[cache.Addr(p, i, j)]
           == Seen(m, base, row, k + 1, i, Idx(cache.c, p, j))
    {
      CellSeen(m, cache.c, cache.r, base, row, k, p, i, j, isNew, pos, now[cache.Addr(p, i, j)], was,
               cache.Addr(p, i, j));
    }
    TouchedMore(m, cache.c, m.rowPtr[base], k);
  }

  lemma TouchedMore(m: Csr, c: nat, a: nat, k: nat)
    requires c >= 1 && a <= k < |m.colInd|
    ensures Touched(m, c, a, k + 1) == Touched(m, c, a, k) + {m.colInd[k] / c}
  {
  }

  /** One cell of the cache after one more element. */
  lemma CellSeen(m: Csr, c: nat, r: nat, base: nat, row: nat, k: nat, p: nat, i: nat, j: nat, isNew: bool,
                 pos: seq<nat>, now: real,
                 was: seq<real>, a: nat)
    requires m.Valid() && row < m.nrows && Reading(m, base, row, k) && k < m.rowPtr[row + 1] && c >= 1 && r >= 1
         && i < r && j < c
    requires base % r == 0 && row < base + r
    requires isNew == (m.colInd[k] / c !in pos) && p in pos + (if isNew then [m.colInd[k] / c] else [])
    requires forall q: nat :: q in pos <==> q in Touched(m, c, m.rowPtr[base], k)
    requires p in pos ==> a < |was| && was[a] == Seen(m, base, row, k, i, Idx(c, p, j))
    requires now == if p == m.colInd[k] / c && i == row % r && j == m.colInd[k] % c then m.values[k]
                    else if p == m.colInd[k] / c && isNew then 0.0 else if a < |was| then was[a] else 0.0
    ensures Reading(m, base, row, k + 1) && now == Seen(m, base, row, k + 1, i, Idx(c, p, j))
  {
    hide Idx, Seen, ValIn, Val, Touched;
    RowInBlock(base, row, r);
    SeenMore(m, base, row, k, i, Idx(c, p, j));
    ColOfBlock(c, p, j, m.colInd[k]);
    if isNew && p == m.colInd[k] / c {
      SeenNothing(m, c, base, row, k, i, p, j);
    }
  }

  lemma RowInBlock(base: nat, row: nat, r: nat)
    requires r >= 1 && base % r == 0 && base <= row < base + r
    ensures row % r == row - base
  {
    DivModUnique(row, base / r, row - base, r);
  }

  lemma ColOfBlock(c: nat, p: nat, j: nat, col: nat)
    requires c >= 1 && j < c
    ensures Idx(c, p, j) == col <==> p == col / c && j == col % c
  {
    hide Idx;
    IdxOf(c, col);
    if Idx(c, p, j) == col {
      IdxInj(c, p, j, col / c, col % c);
    }
  }

  /** Reads the rows of one block row into the cache. */
  method ReadBlockRow(cache: Cache, m: Csr, base: nat, ghost b: nat)
    requires base == Idx(cache.r, b, 0) && cache.Ok() && cache.validPos == [] && m.Valid()
         && Idx(cache.r, b, 0) < m.nrows
    requires forall e :: 0 <= e < |m.colInd| ==> m.colInd[e] / cache.c < cache.size
    modifies cache`validPos, cache.blkValues, cache.valid
    ensures RowEnd(m, cache.r, b) <= m.nrows
    ensures cache.Holds(m, Idx(cache.r, b, 0), RowEnd(m, cache.r, b), m.rowPtr[RowEnd(m, cache.r, b)])
  {
    hide Idx, Scale, Seen, Touched;
    var j := 0;
    BaseOf(cache.r, b);
    NothingTouched(m, cache.c, base);
    while j < cache.r && base + j + 1 <= m.nrows
      invariant 0 <= j <= cache.r && base + j <= m.nrows && cache.Holds(m, base, base + j, m.rowPtr[base + j])
    {
      ReadRow(cache, m, base, base + j);
      j := j + 1;
    }
  }

  lemma BaseOf(r: nat, b: nat)
    requires r >= 1
    ensures Idx(r, b, 0) % r == 0 && Idx(r, b, 0) / r == b && Idx(r, b + 1, 0) == Idx(r, b, 0) + r
  {
    DivModUnique(Idx(r, b, 0), b, 0, r);
  }

  lemma NothingTouched(m: Csr, c: nat, base: nat)
    requires m.Valid() && c >= 1 && base < m.nrows
    ensures Touched(m, c, m.rowPtr[base], m.rowPtr[base]) == {} && Reading(m, base, base, m.rowPtr[base])
  {
  }

  method ReadElem(cache: Cache, m: Csr, base: nat, row: nat, k: nat)
    requires m.Valid() && row < m.nrows && cache.Holds(m, base, row, k) && base % cache.r == 0 && row < base + cache.r
    requires k < m.rowPtr[row + 1] && m.colInd[k] / cache.c < cache.size
    modifies cache`validPos, cache.blkValues, cache.valid
    ensures cache.Holds(m, base, row, k + 1)
  {
    hide Idx, Scale, Seen, Val, ValIn, Touched;
    ghost var was, pos := cache.blkValues[..], cache.validPos;
    var isNew := cache.AddElem(row, m.colInd[k], m.values[k]);
    CellsMore(cache, m, base, row, k, isNew, was, cache.blkValues[..], pos);
  }

  method ReadRow(cache: Cache, m: Csr, base: nat, row: nat)
    requires m.Valid() && row < m.nrows && cache.Holds(m, base, row, m.rowPtr[row]) && base % cache.r == 0
         && row < base + cache.r
    requires forall e :: 0 <= e < |m.colInd| ==> m.colInd[e] / cache.c < cache.size
    modifies cache`validPos, cache.blkValues, cache.valid
    ensures cache.Holds(m, base, row + 1, m.rowPtr[row + 1])
  {
    hide Idx, Scale, Seen, Val, ValIn, Cache.Holds;
    var k := m.rowPtr[row];
    while k < m.rowPtr[row + 1]
      invariant m.rowPtr[row] <= k <= m.rowPtr[row + 1] && cache.Holds(m, base, row, k)
    {
      ReadElem(cache, m, base, row, k);
      k := k + 1;
    }
    RowRead(cache, m, base, row);
  }

  lemma RowRead(cache: Cache, m: Csr, base: nat, row: nat)
    requires m.Valid() && row < m.nrows && cache.Holds(m, base, row, m.rowPtr[row + 1])
    ensures cache.Holds(m, base, row + 1, m.rowPtr[row + 1])
  {
    hide Idx, Scale, Seen, Touched;
    SeenRow(m, base, row, 0, 0);
    forall p, i, j {:trigger cache.Addr(p, i, j)} | 0 <= p < cache.size && p in cache.validPos && 0 <= i < cache.r && 0 <= j < cache.c
      ensures cache.Addr(p, i, j) < cache.blkValues.Length
      ensures cache.blkValues[..][cache.Addr(p, i, j)]
           == Seen(m, base, row + 1, m.rowPtr[row + 1], i, Idx(cache.c, p, j))
    {
      SeenRow(m, base, row, i, Idx(cache.c, p, j));
    }
  }

  /** At the end of a block row the cache holds all of it, and as many blocks as it has. */
  lemma BlockRowRead(cache: Cache, m: Csr, b: nat)
    requires m.Valid() && Idx(cache.r, b, 0) < m.nrows && RowEnd(m, cache.r, b) <= m.nrows && cache.r >= 1
         && cache.c >= 1
    requires cache.Holds(m, Idx(cache.r, b, 0), RowEnd(m, cache.r, b), m.rowPtr[RowEnd(m, cache.r, b)])
    ensures |cache.validPos| == |Blocks(m, cache.r, cache.c, b)| && forall p: nat :: p in cache.validPos <==> p in Blocks(m, cache.r, cache.c, b)
    ensures forall p, i, j {:trigger cache.Addr(p, i, j)} :: 0 <= p < cache.size && p in cache.validPos && 0 <= i < cache.r && 0 <= j < cache.c ==>
              cache.Addr(p, i, j) < cache.blkValues.Length
              && cache.blkValues[cache.Addr(p, i, j)] == Val(m, Idx(cache.r, b, 0) + i, Idx(cache.c, p, j))
  {
    hide Idx, Scale, Touched, Val, ValIn;
    BaseOf(cache.r, b);
    DistinctSize(cache.validPos, Blocks(m, cache.r, cache.c, b));
    forall p, i, j {:trigger cache.Addr(p, i, j)} | 0 <= p < cache.size && p in cache.validPos && 0 <= i < cache.r && 0 <= j < cache.c
      ensures cache.Addr(p, i, j) < cache.blkValues.Length
      ensures cache.blkValues[cache.Addr(p, i, j)] == Val(m, Idx(cache.r, b, 0) + i, Idx(cache.c, p, j))
    {
      AllSeen(m, cache.r, b, i, Idx(cache.c, p, j));
    }
  }

  lemma AllSeen(m: Csr, r: nat, b: nat, i: nat, col: nat)
    requires m.Valid() && r >= 1 && i < r && Idx(r, b, 0) < m.nrows && RowEnd(m, r, b) <= m.nrows
    requires Reading(m, Idx(r, b, 0), RowEnd(m, r, b), m.rowPtr[RowEnd(m, r, b)])
    ensures Seen(m, Idx(r, b, 0), RowEnd(m, r, b), m.rowPtr[RowEnd(m, r, b)], i, col) == Val(m, Idx(r, b, 0) + i, col)
  {
    hide Idx;
    BaseOf(r, b);
  }

  /** How many block rows. */
  function Ceil(n: nat, r: nat): nat
    requires r >= 1
  {
    n / r + if n % r != 0 then 1 else 0
  }

  lemma CeilIs(n: nat, r: nat, b: nat)
    requires r >= 1
    ensures Idx(r, b, 0) < n <==> b < Ceil(n, r)
    ensures n <= Idx(r, Ceil(n, r), 0)
  {
    assert n == n / r * r + n % r;
    if b < Ceil(n, r) {
      MulMono(b, Ceil(n, r) - 1, r);
    } else {
      MulMono(Ceil(n, r), b, r);
    }
  }

  /** The scan: how many blocks there are. */
  method ScanCsr(m: Csr, cache: Cache) returns (nrBlocks: nat)
    requires m.Valid() && cache.Ok() && cache.validPos == []
    requires forall e :: 0 <= e < |m.colInd| ==> m.colInd[e] / cache.c < cache.size
    modifies cache`validPos, cache.blkValues, cache.valid
    ensures cache.Ok() && cache.validPos == []
    ensures nrBlocks == Count(m, cache.r, cache.c, Ceil(m.nrows, cache.r))
  {
    hide Idx, Scale, Touched, Blocks, Ceil;
    nrBlocks := 0;
    var i := 0;
    ghost var b := 0;
    CeilIs(m.nrows, cache.r, 0);
    BaseOf(cache.r, 0);
    IdxZero(cache.r);
    while i < m.nrows
      invariant i == Idx(cache.r, b, 0) && b <= Ceil(m.nrows, cache.r) && cache.Ok() && cache.validPos == []
      invariant nrBlocks == Count(m, cache.r, cache.c, b)
      decreases m.nrows - i
    {
      ReadBlockRow(cache, m, i, b);
      BlockRowRead(cache, m, b);
      nrBlocks := nrBlocks + |cache.validPos|;
      cache.Clear();
      BaseOf(cache.r, b);
      CeilIs(m.nrows, cache.r, b);
      i := i + cache.r;
      b := b + 1;
      CeilIs(m.nrows, cache.r, b);
    }
    CeilIs(m.nrows, cache.r, b);
  }

  // ----- The arrays

  datatype Block = Block(row: nat, col: nat)

  /** Where value (i, j) of block number t is kept. */
  function AddrOf(r: nat, c: nat, t: nat, i: nat, j: nat): nat {
    Idx(Scale(r, c), t, Idx(c, i, j))
  }

  /** The arrays hold these blocks, one after another. */
  ghost predicate Stored(m: Csr, r: nat, c: nat, bcolInd: seq<nat>, bvalues: seq<real>, blocks: seq<Block>)
    requires m.Valid()
  {
    && |blocks| <= |bcolInd| && |bvalues| == Scale(|bcolInd|, Scale(r, c))
    && (forall t {:trigger blocks[t]} :: 0 <= t < |blocks| ==> bcolInd[t] == Idx(c, blocks[t].col, 0))
    && forall t, i, j {:trigger AddrOf(r, c, t, i, j)} :: 0 <= t < |blocks| && 0 <= i < r && 0 <= j < c ==>
         AddrOf(r, c, t, i, j) < |bvalues|
         && bvalues[AddrOf(r, c, t, i, j)] == Val(m, Idx(r, blocks[t].row, 0) + i, Idx(c, blocks[t].col, j))
  }

  /** The blocks of block row q, in column order. */
  ghost predicate RowIs(m: Csr, r: nat, c: nat, q: nat, blocks: seq<Block>)
    requires m.Valid() && r >= 1 && c >= 1
  {
    var s, e := Count(m, r, c, q), Count(m, r, c, q + 1);
    && s <= e <= |blocks|
    && (forall t {:trigger blocks[t]} :: s <= t < e ==> blocks[t].row == q && blocks[t].col in Blocks(m, r, c, q))
    && (forall t, u :: s <= t < u < e ==> blocks[t].col < blocks[u].col)
    && forall p: nat :: p in Blocks(m, r, c, q) ==> exists t :: s <= t < e && blocks[t].col == p
  }

  lemma {:induction false} CountMono(m: Csr, r: nat, c: nat, a: nat, b: nat)
    requires m.Valid() && r >= 1 && c >= 1 && a <= b
    ensures Count(m, r, c, a) <= Count(m, r, c, b)
    decreases b - a
  {
    hide Blocks, Idx;
    if a < b {
      CountMono(m, r, c, a, b - 1);
    }
  }

  /** The row pointers written so far, and why the others can wait: the rows between have
      no blocks. */
  ghost predicate Pointers(m: Csr, r: nat, c: nat, browPtr: seq<nat>, nextBrow: nat, b: nat)
    requires m.Valid() && r >= 1 && c >= 1
  {
    && nextBrow <= b < |browPtr|
    && forall i {:trigger browPtr[i]} {:trigger Count(m, r, c, i)} :: 0 <= i <= b ==>
         if i < nextBrow then browPtr[i] == Scale(Count(m, r, c, i), Scale(r, c)) else Count(m, r, c, i) == Count(m, r, c, b)
  }

  /** The arrays while they are filled. */
  class Target {
    const browPtr: array<nat>
    const bcolInd: array<nat>
    const bvalues: array<real>
    var nextBrow: nat
    var nextBlock: nat

    constructor (nbrows: nat, nrBlocks: nat, nrValues: nat)
      ensures browPtr.Length == nbrows + 1 && bcolInd.Length == nrBlocks && bvalues.Length == nrValues
      ensures nextBrow == 0 && nextBlock == 0 && fresh(browPtr) && fresh(bcolInd) && fresh(bvalues)
           && browPtr != bcolInd
    {
      browPtr := new nat[nbrows + 1](_ => 0);
      bcolInd := new nat[nrBlocks](_ => 0);
      bvalues := new real[nrValues](_ => 0.0);
      nextBrow, nextBlock := 0, 0;
    }

    /** Writes the row pointers up to row b. */
    method Point(b: nat, nrValues: nat)
      requires b < browPtr.Length && browPtr != bcolInd
      modifies browPtr
      ensures forall i :: 0 <= i < browPtr.Length ==> browPtr[i] == if nextBrow <= i <= b then Scale(nextBlock, nrValues) else old(browPtr[i])
    {
      var i := nextBrow;
      while i <= b
        invariant nextBrow <= i && (nextBrow <= b + 1 ==> i <= b + 1)
        invariant forall k :: 0 <= k < browPtr.Length ==> browPtr[k] == if nextBrow <= k < i && k <= b then Scale(nextBlock, nrValues) else old(browPtr[k])
        decreases b + 1 - i
      {
        browPtr[i] := Scale(nextBlock, nrValues);
        i := i + 1;
      }
    }

    /** Appends block p of the cache. */
    method Append(cache: Cache, m: Csr, b: nat, p: nat, ghost blocks: seq<Block>)
      requires cache.Ok() && m.Valid() && p < cache.size && p in cache.validPos && browPtr != bcolInd
      requires cache.blkValues != bvalues && Idx(cache.r, b, 0) < m.nrows
      requires forall i, j {:trigger cache.Addr(p, i, j)} :: 0 <= i < cache.r && 0 <= j < cache.c ==>
                 cache.Addr(p, i, j) < cache.blkValues.Length
                 && cache.blkValues[cache.Addr(p, i, j)] == Val(m, Idx(cache.r, b, 0) + i, Idx(cache.c, p, j))
      requires Stored(m, cache.r, cache.c, bcolInd[..], bvalues[..], blocks) && |blocks| == nextBlock < bcolInd.Length
      modifies this`nextBlock, bcolInd, bvalues
      ensures nextBlock == old(nextBlock) + 1
           && Stored(m, cache.r, cache.c, bcolInd[..], bvalues[..], blocks + [Block(b, p)])
    {
      hide Idx, Scale, Val;
      ghost var cols, vals := bcolInd[..], bvalues[..];
      bcolInd[nextBlock] := Idx(cache.c, p, 0);
      CopyBlock(cache, p);
      ghost var r, c, all := cache.r, cache.c, blocks + [Block(b, p)];
      assert bcolInd[..] == cols[|blocks| := Idx(c, p, 0)];
      forall t, i, j {:trigger AddrOf(r, c, t, i, j)} | 0 <= t < |all| && 0 <= i < r && 0 <= j < c
        ensures AddrOf(r, c, t, i, j) < |bvalues[..]|
        ensures bvalues[..][AddrOf(r, c, t, i, j)] == Val(m, Idx(r, all[t].row, 0) + i, Idx(c, all[t].col, j))
      {
        assert cache.Addr(p, i, j) == AddrOf(r, c, p, i, j);
      }
      nextBlock := nextBlock + 1;
    }

    /** Copies the values of block p behind those of the blocks before. */
    method CopyBlock(cache: Cache, p: nat)
      requires cache.Ok() && p < cache.size && cache.blkValues != bvalues
      requires bvalues.Length == Scale(bcolInd.Length, Scale(cache.r, cache.c)) && nextBlock < bcolInd.Length
      modifies bvalues
      ensures Copied(cache.r, cache.c, old(bvalues[..]), bvalues[..], cache.blkValues[..], nextBlock, p)
    {
      hide Idx, Scale;
      ghost var was := bvalues[..];
      var w := Scale(cache.r, cache.c);
      var to, from := Idx(w, nextBlock, 0), Idx(w, p, 0);
      var k := 0;
      while k < w
        invariant 0 <= k <= w
        invariant forall a :: 0 <= a < bvalues.Length ==>
                    bvalues[a] == if to <= a < to + k && from + (a - to) < cache.blkValues.Length then cache.blkValues[from + (a - to)] else was[a]
      {
        IdxNext(w, nextBlock, k);
        IdxNext(w, p, k);
        IdxBound(w, bcolInd.Length, nextBlock, k);
        IdxBound(w, cache.size, p, k);
        bvalues[to + k] := cache.blkValues[from + k];
        k := k + 1;
      }
      CopiedAll(cache, was, bvalues[..], cache.blkValues[..], bcolInd.Length, nextBlock, p);
    }
  }

  /** Block number t is now the block at p, the others are as they were. */
  ghost predicate Copied(r: nat, c: nat, was: seq<real>, now: seq<real>, source: seq<real>, t: nat, p: nat) {
    && |now| == |was|
    && forall u, i, j {:trigger AddrOf(r, c, u, i, j)} :: 0 <= u <= t && 0 <= i < r && 0 <= j < c ==>
         && AddrOf(r, c, u, i, j) < |was| && AddrOf(r, c, p, i, j) < |source|
         && now[AddrOf(r, c, u, i, j)] == if u == t then source[AddrOf(r, c, p, i, j)] else was[AddrOf(r, c, u, i, j)]
  }

  /** Where a value of block u is: in the stretch that is copied exactly when u is t. */
  lemma CopiedAt(cache: Cache, nrBlocks: nat, t: nat, p: nat, u: nat, i: nat, j: nat)
    requires cache.r >= 1 && cache.c >= 1 && u <= t < nrBlocks && p < cache.size && i < cache.r && j < cache.c
    ensures var r, c, w := cache.r, cache.c, Scale(cache.r, cache.c);
            var to, from, a := Idx(w, t, 0), Idx(w, p, 0), AddrOf(r, c, u, i, j);
            && a < Scale(nrBlocks, w) && AddrOf(r, c, p, i, j) < Scale(cache.size, w)
            && (to <= a < to + w <==> u == t) && (u == t ==> from + (a - to) == AddrOf(r, c, p, i, j))
  {
    hide Idx, Scale;
    var r, c, w := cache.r, cache.c, Scale(cache.r, cache.c);
    IdxBound(c, r, i, j);
    IdxBound(w, nrBlocks, u, Idx(c, i, j));
    IdxBound(w, cache.size, p, Idx(c, i, j));
    IdxNext(w, u, Idx(c, i, j));
    IdxNext(w, p, Idx(c, i, j));
    cache.InBlock(t, u, i, j);
    assert cache.Addr(u, i, j) == AddrOf(r, c, u, i, j);
  }

  lemma CopiedAll(cache: Cache, was: seq<real>, now: seq<real>, source: seq<real>, nrBlocks: nat, t: nat, p: nat)
    requires cache.r >= 1 && cache.c >= 1 && t < nrBlocks && p < cache.size
    requires |now| == |was| == Scale(nrBlocks, Scale(cache.r, cache.c))
         && |source| == Scale(cache.size, Scale(cache.r, cache.c))
    requires var w := Scale(cache.r, cache.c);
             var to, from := Idx(w, t, 0), Idx(w, p, 0);
             forall a :: 0 <= a < |now| ==> now[a] == if to <= a < to + w && from + (a - to) < |source| then source[from + (a - to)] else was[a]
    ensures Copied(cache.r, cache.c, was, now, source, t, p)
  {
    hide Idx, Scale;
    var r, c, w := cache.r, cache.c, Scale(cache.r, cache.c);
    forall u, i, j {:trigger AddrOf(r, c, u, i, j)} | 0 <= u <= t && 0 <= i < r && 0 <= j < c
      ensures AddrOf(r, c, u, i, j) < |was| && AddrOf(r, c, p, i, j) < |source|
      ensures now[AddrOf(r, c, u, i, j)] == if u == t then source[AddrOf(r, c, p, i, j)] else was[AddrOf(r, c, u, i, j)]
    {
      CopiedAt(cache, nrBlocks, t, p, u, i, j);
      var to, from, a := Idx(w, t, 0), Idx(w, p, 0), AddrOf(r, c, u, i, j);
      assert 0 <= a < |now|;
      assert now[a] == if to <= a < to + w && from + (a - to) < |source| then source[from + (a - to)] else was[a];
    }
  }

  // ----- Filling

  function Listed(b: nat, list: seq<nat>): (bs: seq<Block>)
    ensures |bs| == |list| && forall t {:trigger bs[t]} :: 0 <= t < |list| ==> bs[t] == Block(b, list[t])
  {
    seq(|list|, t requires 0 <= t < |list| => Block(b, list[t]))
  }

  /** The rows before b are filled. */
  ghost predicate Filled(m: Csr, r: nat, c: nat, b: nat, blocks: seq<Block>)
    requires m.Valid() && r >= 1 && c >= 1
  {
    && |blocks| == Count(m, r, c, b)
    && forall q :: 0 <= q < b ==> RowIs(m, r, c, q, blocks)
  }

  /** Appending does not disturb the rows before. */
  lemma RowIsMore(m: Csr, r: nat, c: nat, q: nat, blocks: seq<Block>, more: seq<Block>)
    requires m.Valid() && r >= 1 && c >= 1 && RowIs(m, r, c, q, blocks)
    ensures RowIs(m, r, c, q, blocks + more)
  {
    hide Blocks, Idx, Count;
    var all := blocks + more;
    assert forall t :: 0 <= t < |blocks| ==> all[t] == blocks[t];
    var s, e := Count(m, r, c, q), Count(m, r, c, q + 1);
    forall p: nat | p in Blocks(m, r, c, q)
      ensures exists t :: s <= t < e && all[t].col == p
    {
      var t :| s <= t < e && blocks[t].col == p;
      assert all[t].col == p;
    }
  }

  /** Row b, just appended. */
  lemma FilledMore(m: Csr, r: nat, c: nat, b: nat, blocks: seq<Block>, list: seq<nat>)
    requires m.Valid() && r >= 1 && c >= 1 && Filled(m, r, c, b, blocks)
    requires Ascends(list) && |list| == |Blocks(m, r, c, b)| && forall p: nat :: p in list <==> p in Blocks(m, r, c, b)
    ensures Filled(m, r, c, b + 1, blocks + Listed(b, list))
  {
    hide Blocks, Idx;
    var all := blocks + Listed(b, list);
    forall q | 0 <= q < b
      ensures RowIs(m, r, c, q, all)
    {
      RowIsMore(m, r, c, q, blocks, Listed(b, list));
    }
    NewRow(m, r, c, b, blocks, list);
  }

  lemma NewRow(m: Csr, r: nat, c: nat, b: nat, blocks: seq<Block>, list: seq<nat>)
    requires m.Valid() && r >= 1 && c >= 1 && |blocks| == Count(m, r, c, b)
    requires Ascends(list) && |list| == |Blocks(m, r, c, b)| && forall p: nat :: p in list <==> p in Blocks(m, r, c, b)
    ensures RowIs(m, r, c, b, blocks + Listed(b, list))
  {
    hide Blocks, Idx;
    var all := blocks + Listed(b, list);
    var s, e := Count(m, r, c, b), Count(m, r, c, b + 1);
    assert e == s + |list|;
    forall t | s <= t < e
      ensures all[t] == Block(b, list[t - s]) && list[t - s] in list
    {
    }
    forall p: nat | p in Blocks(m, r, c, b)
      ensures exists t :: s <= t < e && all[t].col == p
    {
      var t :| 0 <= t < |list| && list[t] == p;
      assert all[s + t].col == p;
    }
  }

  /** The blocks of block row b go to the arrays, in column order. */
  method AddBlocks(target: Target, cache: Cache, m: Csr, b: nat, ghost blocks: seq<Block>)
    requires cache.Ok() && m.Valid() && Idx(cache.r, b, 0) < m.nrows
    requires Ascends(cache.validPos) && |cache.validPos| == |Blocks(m, cache.r, cache.c, b)|
    requires forall p: nat :: p in cache.validPos <==> p in Blocks(m, cache.r, cache.c, b)
    requires CacheRow(cache, m, b)
    requires Separate(target, cache) && b + 1 < target.browPtr.Length
    requires Stored(m, cache.r, cache.c, target.bcolInd[..], target.bvalues[..], blocks)
         && Filled(m, cache.r, cache.c, b, blocks)
    requires target.nextBlock == |blocks| && |blocks| + |cache.validPos| <= target.bcolInd.Length
    requires Pointers(m, cache.r, cache.c, target.browPtr[..], target.nextBrow, b)
    modifies target, target.browPtr, target.bcolInd, target.bvalues
    ensures var all := blocks + Listed(b, cache.validPos);
            && Stored(m, cache.r, cache.c, target.bcolInd[..], target.bvalues[..], all) && target.nextBlock == |all|
            && Filled(m, cache.r, cache.c, b + 1, all)
    ensures Pointers(m, cache.r, cache.c, target.browPtr[..], target.nextBrow, b + 1)
  {
    hide Idx, Scale, Blocks, Stored, Filled, RowIs, Pointers, Cache.Ok, Count;
    CacheSizes(cache);
    FilledMore(m, cache.r, cache.c, b, blocks, cache.validPos);
    FilledCount(m, cache.r, cache.c, b, blocks);
    ghost var ptr0, next0 := target.browPtr[..], target.nextBrow;
    var idx := 0;
    assert blocks + Listed(b, cache.validPos[..0]) == blocks;
    while idx < |cache.validPos|
      invariant 0 <= idx <= |cache.validPos| && target.nextBlock == |blocks| + idx
      invariant Stored(m, cache.r, cache.c, target.bcolInd[..], target.bvalues[..], blocks + Listed(b, cache.validPos[..idx]))
      invariant CacheRow(cache, m, b)
      invariant idx == 0 ==> target.browPtr[..] == ptr0 && target.nextBrow == next0
      invariant idx > 0 ==> target.nextBrow == b + 1 && Pointers(m, cache.r, cache.c, target.browPtr[..], b + 1, b + 1)
    {
      AddBlock(target, cache, m, b, idx, blocks, ptr0, next0);
      MoreListed(blocks, b, cache.validPos, idx);
      idx := idx + 1;
    }
    assert cache.validPos[..idx] == cache.validPos;
    if |cache.validPos| == 0 {
      NoBlocks(m, cache.r, cache.c, target.browPtr[..], target.nextBrow, b);
    }
  }

  /** The cache holds block row b. */
  ghost predicate CacheRow(cache: Cache, m: Csr, b: nat)
    requires m.Valid()
    reads cache, cache.blkValues, cache.valid
  {
    && cache.Ok()
    && forall p, i, j {:trigger cache.Addr(p, i, j)} :: 0 <= p < cache.size && p in cache.validPos && 0 <= i < cache.r && 0 <= j < cache.c ==>
         cache.Addr(p, i, j) < cache.blkValues.Length
         && cache.blkValues[cache.Addr(p, i, j)] == Val(m, Idx(cache.r, b, 0) + i, Idx(cache.c, p, j))
  }

  ghost predicate Separate(target: Target, cache: Cache) {
    && cache.blkValues != target.bvalues && target.browPtr != target.bcolInd
  }

  /** Row pointers, column and values of one block. */
  method AddBlock(target: Target, cache: Cache, m: Csr, b: nat, idx: nat, ghost blocks: seq<Block>,
                  ghost ptr0: seq<nat>, ghost next0: nat)
    requires m.Valid() && Idx(cache.r, b, 0) < m.nrows && idx < |cache.validPos| && CacheRow(cache, m, b)
    requires Separate(target, cache) && b + 1 < target.browPtr.Length
         && target.nextBlock == |blocks| + idx < target.bcolInd.Length
    requires Stored(m, cache.r, cache.c, target.bcolInd[..], target.bvalues[..], blocks + Listed(b, cache.validPos[..idx]))
    requires |blocks| == Count(m, cache.r, cache.c, b)
    requires idx == 0 ==> target.browPtr[..] == ptr0 && target.nextBrow == next0 && Pointers(m, cache.r, cache.c, ptr0, next0, b)
    requires idx > 0 ==> target.nextBrow == b + 1 && Pointers(m, cache.r, cache.c, target.browPtr[..], b + 1, b + 1)
    modifies target, target.browPtr, target.bcolInd, target.bvalues
    ensures target.nextBlock == old(target.nextBlock) + 1 && CacheRow(cache, m, b)
    ensures Stored(m, cache.r, cache.c, target.bcolInd[..], target.bvalues[..],
                   blocks + Listed(b, cache.validPos[..idx]) + [Block(b, cache.validPos[idx])])
    ensures target.nextBrow == b + 1 && Pointers(m, cache.r, cache.c, target.browPtr[..], b + 1, b + 1)
  {
    hide Idx, Scale, Blocks, Stored, Pointers, Count, Val;
    ghost var was := target.browPtr[..];
    target.Point(b, Scale(cache.r, cache.c));
    if idx == 0 {
      Pointed(m, cache.r, cache.c, was, target.browPtr[..], next0, b);
    } else {
      assert target.browPtr[..] == was;
    }
    target.nextBrow := b + 1;
    PosIn(cache, idx);
    target.Append(cache, m, b, cache.validPos[idx], blocks + Listed(b, cache.validPos[..idx]));
  }

  lemma PosIn(cache: Cache, idx: nat)
    requires cache.Ok() && idx < |cache.validPos|
    ensures cache.validPos[idx] in cache.validPos && cache.validPos[idx] < cache.size
  {
  }

  lemma MoreListed(blocks: seq<Block>, b: nat, list: seq<nat>, idx: nat)
    requires idx < |list|
    ensures blocks + Listed(b, list[..idx]) + [Block(b, list[idx])] == blocks + Listed(b, list[..idx + 1])
  {
    assert Listed(b, list[..idx]) + [Block(b, list[idx])] == Listed(b, list[..idx + 1]);
  }

  lemma CacheSizes(cache: Cache)
    requires cache.Ok()
    ensures cache.r >= 1 && cache.c >= 1
  {
  }

  lemma FilledCount(m: Csr, r: nat, c: nat, b: nat, blocks: seq<Block>)
    requires m.Valid() && r >= 1 && c >= 1 && Filled(m, r, c, b, blocks)
    ensures |blocks| == Count(m, r, c, b)
  {
  }

  /** All pointers up to row b are written now. */
  lemma Pointed(m: Csr, r: nat, c: nat, was: seq<nat>, now: seq<nat>, nextBrow: nat, b: nat)
    requires m.Valid() && r >= 1 && c >= 1 && Pointers(m, r, c, was, nextBrow, b)
    requires |now| == |was| && b + 1 < |was|
    requires forall i :: 0 <= i < |now| ==> now[i] == if nextBrow <= i <= b then Scale(Count(m, r, c, b), Scale(r, c)) else was[i]
    ensures Pointers(m, r, c, now, b + 1, b + 1)
  {
    hide Idx, Scale, Count, Blocks, Csr.Valid;
    forall i {:trigger now[i]} {:trigger Count(m, r, c, i)} | 0 <= i <= b
      ensures now[i] == Scale(Count(m, r, c, i), Scale(r, c))
    {
      var w := was[i];
    }
  }

  lemma NoBlocks(m: Csr, r: nat, c: nat, browPtr: seq<nat>, nextBrow: nat, b: nat)
    requires m.Valid() && r >= 1 && c >= 1
    requires Pointers(m, r, c, browPtr, nextBrow, b) && |Blocks(m, r, c, b)| == 0 && b + 1 < |browPtr|
    ensures Pointers(m, r, c, browPtr, nextBrow, b + 1)
  {
    hide Idx, Scale, Blocks, Csr.Valid, Count;
    CountNext(m, r, c, b);
    forall i {:trigger browPtr[i]} {:trigger Count(m, r, c, i)} | 0 <= i <= b
      ensures if i < nextBrow then browPtr[i] == Scale(Count(m, r, c, i), Scale(r, c)) else Count(m, r, c, i) == Count(m, r, c, b + 1)
    {
      var w := browPtr[i];
    }
  }

  lemma CountNext(m: Csr, r: nat, c: nat, b: nat)
    requires m.Valid() && r >= 1 && c >= 1
    ensures Count(m, r, c, b + 1) == Count(m, r, c, b) + |Blocks(m, r, c, b)|
  {
    hide Blocks;
  }

  // ----- The whole matrix

  datatype Bcsr = Bcsr(nrows: nat, ncols: nat, br: nat, bc: nat, nbrows: nat, browPtr: seq<nat>, bcolInd: seq<nat>,
                       bvalues: seq<real>)

  /** The arrays hold exactly the blocks of the matrix, row by row, in column order. */
  ghost predicate Stands(b: Bcsr, m: Csr, blocks: seq<Block>) {
    && m.Valid() && b.nrows == m.nrows && b.ncols == m.ncols && b.br >= 1 && b.bc >= 1
         && b.nbrows == Ceil(m.nrows, b.br)
    && Stored(m, b.br, b.bc, b.bcolInd, b.bvalues, blocks) && |blocks| == |b.bcolInd|
         && Filled(m, b.br, b.bc, b.nbrows, blocks)
    && |b.browPtr| == b.nbrows + 1
    && forall q {:trigger b.browPtr[q]} :: 0 <= q <= b.nbrows ==> b.browPtr[q] == Scale(Count(m, b.br, b.bc, q), Scale(b.br, b.bc))
  }

  lemma StoredNone(m: Csr, r: nat, c: nat, cols: seq<nat>, vals: seq<real>)
    requires m.Valid() && |vals| == Scale(|cols|, Scale(r, c)) && r >= 1 && c >= 1
    ensures Stored(m, r, c, cols, vals, []) && Filled(m, r, c, 0, [])
  {
    hide Idx, Scale, Blocks;
  }

  /** Fills the arrays, block row by block row. */
  method FillBcsr(m: Csr, cache: Cache, target: Target, nbrows: nat) returns (ghost blocks: seq<Block>)
    requires cache.Ok() && m.Valid() && cache.validPos == [] && Separate(target, cache)
         && nbrows == Ceil(m.nrows, cache.r)
    requires forall e :: 0 <= e < |m.colInd| ==> m.colInd[e] / cache.c < cache.size
    requires target.browPtr.Length == nbrows + 1 && target.bcolInd.Length == Count(m, cache.r, cache.c, nbrows)
    requires target.bvalues.Length == Scale(target.bcolInd.Length, Scale(cache.r, cache.c))
         && target.nextBrow == target.nextBlock == 0
    modifies target, target.browPtr, target.bcolInd, target.bvalues, cache`validPos, cache.blkValues, cache.valid
    ensures Stored(m, cache.r, cache.c, target.bcolInd[..], target.bvalues[..], blocks)
         && Filled(m, cache.r, cache.c, nbrows, blocks)
    ensures |blocks| == target.bcolInd.Length && target.nextBlock == |blocks|
    ensures forall q {:trigger target.browPtr[q]} :: 0 <= q <= nbrows ==>
              target.browPtr[q] == Scale(Count(m, cache.r, cache.c, q), Scale(cache.r, cache.c))
  {
    hide Idx, Scale, Blocks, Stored, Filled, RowIs, Pointers, Count, Ceil, CacheRow;
    blocks := [];
    var i := 0;
    ghost var b := 0;
    CacheSizes(cache);
    StoredNone(m, cache.r, cache.c, target.bcolInd[..], target.bvalues[..]);
    PointersNone(m, cache.r, cache.c, target.browPtr[..]);
    CeilIs(m.nrows, cache.r, 0);
    IdxZero(cache.r);
    while i < m.nrows
      invariant i == Idx(cache.r, b, 0) && b <= nbrows && cache.Ok() && cache.validPos == []
      invariant Stored(m, cache.r, cache.c, target.bcolInd[..], target.bvalues[..], blocks)
           && Filled(m, cache.r, cache.c, b, blocks)
      invariant target.nextBlock == |blocks| && Pointers(m, cache.r, cache.c, target.browPtr[..], target.nextBrow, b)
      decreases m.nrows - i
    {
      blocks := FillRow(m, cache, target, i, b, nbrows, blocks);
      BaseOf(cache.r, b);
      i := i + cache.r;
      b := b + 1;
      CeilIs(m.nrows, cache.r, b);
    }
    CeilIs(m.nrows, cache.r, b);
    FilledCount(m, cache.r, cache.c, b, blocks);
    ghost var was := target.browPtr[..];
    target.Point(nbrows, Scale(cache.r, cache.c));
    AllPointed(m, cache.r, cache.c, was, target.browPtr[..], target.nextBrow, nbrows);
  }

  lemma PointersNone(m: Csr, r: nat, c: nat, browPtr: seq<nat>)
    requires m.Valid() && r >= 1 && c >= 1 && |browPtr| >= 1
    ensures Pointers(m, r, c, browPtr, 0, 0)
  {
  }

  /** The end of the matrix: the pointers that were not needed so far. */
  lemma AllPointed(m: Csr, r: nat, c: nat, was: seq<nat>, now: seq<nat>, nextBrow: nat, nbrows: nat)
    requires m.Valid() && r >= 1 && c >= 1 && |now| == |was| == nbrows + 1 && Pointers(m, r, c, was, nextBrow, nbrows)
    requires forall i :: 0 <= i <= nbrows ==> now[i] == if nextBrow <= i <= nbrows then Scale(Count(m, r, c, nbrows), Scale(r, c)) else was[i]
    ensures forall q {:trigger now[q]} :: 0 <= q <= nbrows ==> now[q] == Scale(Count(m, r, c, q), Scale(r, c))
  {
    hide Idx, Scale, Count, Csr.Valid;
    forall q {:trigger now[q]} | 0 <= q <= nbrows
      ensures now[q] == Scale(Count(m, r, c, q), Scale(r, c))
    {
      var w := was[q];
    }
  }

  /** One block row: read, sort, append, clear. */
  method FillRow(m: Csr, cache: Cache, target: Target, i: nat, ghost b: nat, ghost nbrows: nat,
                 ghost blocks: seq<Block>)
    returns (ghost all: seq<Block>)
    requires cache.Ok() && m.Valid() && cache.validPos == [] && Separate(target, cache)
         && i == Idx(cache.r, b, 0) < m.nrows
    requires forall e :: 0 <= e < |m.colInd| ==> m.colInd[e] / cache.c < cache.size
    requires b < nbrows && target.browPtr.Length == nbrows + 1
         && target.bcolInd.Length == Count(m, cache.r, cache.c, nbrows)
    requires Stored(m, cache.r, cache.c, target.bcolInd[..], target.bvalues[..], blocks)
         && Filled(m, cache.r, cache.c, b, blocks)
    requires target.nextBlock == |blocks| && Pointers(m, cache.r, cache.c, target.browPtr[..], target.nextBrow, b)
    modifies target, target.browPtr, target.bcolInd, target.bvalues, cache`validPos, cache.blkValues, cache.valid
    ensures cache.Ok() && cache.validPos == []
    ensures Stored(m, cache.r, cache.c, target.bcolInd[..], target.bvalues[..], all)
         && Filled(m, cache.r, cache.c, b + 1, all)
    ensures target.nextBlock == |all| && Pointers(m, cache.r, cache.c, target.browPtr[..], target.nextBrow, b + 1)
  {
    hide Idx, Scale, Blocks, Stored, Filled, RowIs, Pointers, Count, Val, Distinct, Ascends;
    ReadBlockRow(cache, m, i, b);
    BlockRowRead(cache, m, b);
    cache.Sort();
    FilledCount(m, cache.r, cache.c, b, blocks);
    CountNext(m, cache.r, cache.c, b);
    CountMono(m, cache.r, cache.c, b + 1, nbrows);
    BaseOf(cache.r, b);
    AddBlocks(target, cache, m, i / cache.r, blocks);
    all := blocks + Listed(b, cache.validPos);
    cache.Clear();
  }

  /** Builds the format: the second pass fills exactly what the first one counted. */
  method InitCrs(m: Csr, r: nat, c: nat) returns (b: Bcsr, ghost blocks: seq<Block>)
    requires m.Valid() && r >= 1 && c >= 1
    ensures Stands(b, m, blocks) && b.br == r && b.bc == c
  {
    hide Idx, Scale, Blocks, Stored, Filled, RowIs, Pointers, Count, Ceil;
    var cache := new Cache(Ceil(m.ncols, c), r, c);
    ColumnsFit(m, c);
    var nrBlocks := ScanCsr(m, cache);
    var nbrows := Ceil(m.nrows, r);
    var target := new Target(nbrows, nrBlocks, Scale(nrBlocks, Scale(r, c)));
    blocks := FillBcsr(m, cache, target, nbrows);
    b := Bcsr(m.nrows, m.ncols, r, c, nbrows, target.browPtr[..], target.bcolInd[..], target.bvalues[..]);
  }

  lemma ColumnsFit(m: Csr, c: nat)
    requires m.Valid() && c >= 1
    ensures forall e :: 0 <= e < |m.colInd| ==> m.colInd[e] / c < Ceil(m.ncols, c)
  {
    hide Ceil, Idx;
    forall e | 0 <= e < |m.colInd|
      ensures m.colInd[e] / c < Ceil(m.ncols, c)
    {
      IdxOf(c, m.colInd[e]);
      IdxNext(c, m.colInd[e] / c, m.colInd[e] % c);
      CeilIs(m.ncols, c, m.colInd[e] / c);
    }
  }

  // ----- The product

  /** A block that is not stored holds nothing. */
  lemma NotStored(m: Csr, r: nat, c: nat, q: nat, k: nat, p: nat, j: nat)
    requires m.Valid() && r >= 1 && c >= 1 && k < r && j < c && p !in Blocks(m, r, c, q)
    ensures Val(m, Idx(r, q, 0) + k, Idx(c, p, j)) == 0.0
  {
    hide Touched, Idx, ValIn;
    var row, col := Idx(r, q, 0) + k, Idx(c, p, j);
    if row < m.nrows {
      BaseOf(r, q);
      IdxOf(c, col);
      IdxInj(c, p, j, col / c, col % c);
      var a, e := m.rowPtr[Idx(r, q, 0)], m.rowPtr[RowEnd(m, r, q)];
      forall n | m.rowPtr[row] <= n < m.rowPtr[row + 1]
        ensures m.colInd[n] != col
      {
        assert a <= n < e;
        TouchedMember(m, c, a, e, p);
      }
      ValNone(m, m.rowPtr[row], m.rowPtr[row + 1], col);
    }
  }

  /** Where the columns of the blocks before number t end. */
  function Reached(c: nat, blocks: seq<Block>, s: nat, t: nat): nat
    requires s <= t <= |blocks|
  {
    if t == s then 0 else Idx(c, blocks[t - 1].col, 0) + c
  }

  /** Between two blocks of a row there is nothing. */
  lemma BetweenBlocks(m: Csr, r: nat, c: nat, q: nat, k: nat, blocks: seq<Block>, t: nat, x: seq<real>)
    requires m.Valid() && r >= 1 && c >= 1 && k < r && RowIs(m, r, c, q, blocks)
    requires Count(m, r, c, q) <= t < Count(m, r, c, q + 1) && Idx(c, blocks[t].col, 0) <= |x|
    ensures Reached(c, blocks, Count(m, r, c, q), t) <= Idx(c, blocks[t].col, 0)
    ensures Dense(m, Idx(r, q, 0) + k, x, 0, Idx(c, blocks[t].col, 0))
         == Dense(m, Idx(r, q, 0) + k, x, 0, Reached(c, blocks, Count(m, r, c, q), t))
  {
    hide Blocks, Val, Count, Dense, Idx;
    var s, row := Count(m, r, c, q), Idx(r, q, 0) + k;
    var lo, hi := Reached(c, blocks, s, t), Idx(c, blocks[t].col, 0);
    if t > s {
      IdxMono(c, blocks[t - 1].col + 1, blocks[t].col);
      IdxNext(c, blocks[t - 1].col, 0);
    }
    forall col | lo <= col < hi
      ensures Val(m, row, col) == 0.0
    {
      IdxOf(c, col);
      var p := col / c;
      if p in Blocks(m, r, c, q) {
        Outside(m, r, c, q, blocks, t, p, col);
      } else {
        NotStored(m, r, c, q, k, p, col % c);
      }
    }
    DenseSplit(m, row, x, 0, lo, hi);
    DenseZero(m, row, x, lo, hi);
  }

  lemma IdxMono(width: nat, a: nat, b: nat)
    ensures a <= b ==> Idx(width, a, 0) <= Idx(width, b, 0)
  {
    if a <= b {
      MulMono(a, b, width);
    }
  }

  /** A stored block is before block t or not before it. */
  lemma Outside(m: Csr, r: nat, c: nat, q: nat, blocks: seq<Block>, t: nat, p: nat, col: nat)
    requires m.Valid() && r >= 1 && c >= 1 && RowIs(m, r, c, q, blocks)
    requires Count(m, r, c, q) <= t < Count(m, r, c, q + 1) && p in Blocks(m, r, c, q) && p == col / c
    ensures !(Reached(c, blocks, Count(m, r, c, q), t) <= col < Idx(c, blocks[t].col, 0))
  {
    hide Blocks, Count, Idx;
    var s, e := Count(m, r, c, q), Count(m, r, c, q + 1);
    var u :| s <= u < e && blocks[u].col == p;
    IdxOf(c, col);
    IdxNext(c, p, col % c);
    if u >= t {
      assert blocks[t].col <= p;
      IdxMono(c, blocks[t].col, p);
    } else {
      assert p <= blocks[t - 1].col;
      IdxMono(c, p, blocks[t - 1].col);
    }
  }

  /** Behind the last block of a row there is nothing. */
  lemma BehindBlocks(m: Csr, r: nat, c: nat, q: nat, k: nat, blocks: seq<Block>, x: seq<real>, hi: nat)
    requires m.Valid() && r >= 1 && c >= 1 && k < r && RowIs(m, r, c, q, blocks)
    requires Reached(c, blocks, Count(m, r, c, q), Count(m, r, c, q + 1)) <= hi <= |x|
    ensures Dense(m, Idx(r, q, 0) + k, x, 0, hi)
         == Dense(m, Idx(r, q, 0) + k, x, 0, Reached(c, blocks, Count(m, r, c, q), Count(m, r, c, q + 1)))
  {
    hide Blocks, Val, Count, Dense, Idx;
    var s, e, row := Count(m, r, c, q), Count(m, r, c, q + 1), Idx(r, q, 0) + k;
    var lo := Reached(c, blocks, s, e);
    forall col | lo <= col < hi
      ensures Val(m, row, col) == 0.0
    {
      IdxOf(c, col);
      var p := col / c;
      if p in Blocks(m, r, c, q) {
        BeforeEnd(m, r, c, q, blocks, p, col);
      } else {
        NotStored(m, r, c, q, k, p, col % c);
      }
    }
    DenseSplit(m, row, x, 0, lo, hi);
    DenseZero(m, row, x, lo, hi);
  }

  lemma BeforeEnd(m: Csr, r: nat, c: nat, q: nat, blocks: seq<Block>, p: nat, col: nat)
    requires m.Valid() && r >= 1 && c >= 1 && RowIs(m, r, c, q, blocks) && p in Blocks(m, r, c, q) && p == col / c
    ensures col < Reached(c, blocks, Count(m, r, c, q), Count(m, r, c, q + 1))
  {
    hide Blocks, Count, Idx;
    var s, e := Count(m, r, c, q), Count(m, r, c, q + 1);
    var u :| s <= u < e && blocks[u].col == p;
    IdxOf(c, col);
    IdxNext(c, p, col % c);
    assert p <= blocks[e - 1].col;
    IdxMono(c, p, blocks[e - 1].col);
  }

  /** The columns of stored blocks are columns of x. */
  lemma BlockFits(m: Csr, r: nat, c: nat, q: nat, blocks: seq<Block>, t: nat)
    requires m.Valid() && r >= 1 && c >= 1 && RowIs(m, r, c, q, blocks)
         && Count(m, r, c, q) <= t < Count(m, r, c, q + 1)
    ensures blocks[t].row == q && Idx(c, blocks[t].col, 0) + c <= Idx(c, Ceil(m.ncols, c), 0)
  {
    hide Count, Idx, Ceil, Touched;
    var p := blocks[t].col;
    assert p in Blocks(m, r, c, q);
    BaseOf(r, q);
    var a, e := m.rowPtr[Idx(r, q, 0)], m.rowPtr[RowEnd(m, r, q)];
    TouchedMember(m, c, a, e, p);
    ColumnsFit(m, c);
    IdxMono(c, p + 1, Ceil(m.ncols, c));
    IdxNext(c, p, 0);
  }

  /** Row k of block number t. */
  method BlockRow(b: Bcsr, t: nat, j: nat, k: nat, x: seq<real>, ghost m: Csr,
                  ghost blocks: seq<Block>) returns (yr: real)
    requires m.Valid() && Stored(m, b.br, b.bc, b.bcolInd, b.bvalues, blocks) && t < |blocks| && k < b.br
    requires j == Scale(t, Scale(b.br, b.bc)) && Idx(b.bc, blocks[t].col, 0) + b.bc <= |x|
    ensures yr == Dense(m, Idx(b.br, blocks[t].row, 0) + k, x, Idx(b.bc, blocks[t].col, 0), Idx(b.bc, blocks[t].col, 0) + b.bc)
  {
    hide Val, Mul, Scale, Idx;
    ghost var row := Idx(b.br, blocks[t].row, 0) + k;
    var xStart := b.bcolInd[t];
    assert blocks[t] == blocks[t];
    yr := 0.0;
    var l := 0;
    while l < b.bc
      invariant 0 <= l <= b.bc && yr == Dense(m, row, x, xStart, xStart + l)
    {
      ValueAt(b.br, b.bc, t, k, l, j);
      assert AddrOf(b.br, b.bc, t, k, l) < |b.bvalues|;
      IdxNext(b.bc, blocks[t].col, l);
      yr := yr + Mul(b.bvalues[j + Scale(k, b.bc) + l], x[xStart + l]);
      l := l + 1;
    }
  }

  lemma ValueAt(r: nat, c: nat, t: nat, k: nat, l: nat, j: nat)
    requires j == Scale(t, Scale(r, c))
    ensures AddrOf(r, c, t, k, l) == j + Scale(k, c) + l
  {
  }

  /** What the rows of a block row hold when the columns below `hi` have been added. */
  ghost predicate Added(m: Csr, base: nat, r: nat, x: seq<real>, hi: nat, was: seq<real>, now: seq<real>)
    requires m.Valid() && hi <= |x|
  {
    && |now| == |was|
    && forall i :: 0 <= i < |now| ==>
         now[i] == if base <= i < base + r then was[i] + Dense(m, i, x, 0, hi) else was[i]
  }

  /** One block. */
  method MultiplyBlock(b: Bcsr, t: nat, j: nat, base: nat, x: seq<real>, y: array<real>, ghost q: nat, ghost m: Csr,
                       ghost blocks: seq<Block>,
                       ghost was: seq<real>)
    requires Stands(b, m, blocks) && base == Idx(b.br, q, 0) && RowIs(m, b.br, b.bc, q, blocks)
         && base + b.br <= y.Length
    requires Count(m, b.br, b.bc, q) <= t < Count(m, b.br, b.bc, q + 1) && j == Scale(t, Scale(b.br, b.bc))
    requires Idx(b.bc, Ceil(m.ncols, b.bc), 0) <= |x|
    requires Reached(b.bc, blocks, Count(m, b.br, b.bc, q), t) <= |x|
    requires Added(m, base, b.br, x, Reached(b.bc, blocks, Count(m, b.br, b.bc, q), t), was, y[..])
    modifies y
    ensures Reached(b.bc, blocks, Count(m, b.br, b.bc, q), t + 1) <= |x|
    ensures Added(m, base, b.br, x, Reached(b.bc, blocks, Count(m, b.br, b.bc, q), t + 1), was, y[..])
  {
    hide Val, Mul, Scale, Idx, Stored, Filled, Count, Ceil, Dense, Blocks;
    BlockFits(m, b.br, b.bc, q, blocks, t);
    ghost var lo, hi := Idx(b.bc, blocks[t].col, 0), Idx(b.bc, blocks[t].col, 0) + b.bc;
    ghost var now := y[..];
    var k := 0;
    while k < b.br
      invariant 0 <= k <= b.br && |now| == y.Length
      invariant forall i :: 0 <= i < y.Length ==> y[i] == if base <= i < base + k then was[i] + Dense(m, i, x, 0, hi) else now[i]
    {
      BetweenBlocks(m, b.br, b.bc, q, k, blocks, t, x);
      DenseSplit(m, base + k, x, 0, lo, hi);
      var yr := BlockRow(b, t, j, k, x, m, blocks);
      y[base + k] := y[base + k] + yr;
      k := k + 1;
    }
  }

  /** One block row: its blocks follow each other in the arrays. */
  method MultiplyBlockRow(b: Bcsr, q: nat, base: nat, x: seq<real>, y: array<real>, ghost m: Csr,
                          ghost blocks: seq<Block>)
    requires Stands(b, m, blocks) && base == Idx(b.br, q, 0) && q < b.nbrows && base + b.br <= y.Length
    requires Idx(b.bc, Ceil(m.ncols, b.bc), 0) <= |x|
    modifies y
    ensures Added(m, base, b.br, x, Idx(b.bc, Ceil(m.ncols, b.bc), 0), old(y[..]), y[..])
  {
    hide Val, Mul, Scale, Idx, Stored, Count, Ceil, Dense, RowIs, Reached, Added;
    ghost var s, e, was := Count(m, b.br, b.bc, q), Count(m, b.br, b.bc, q + 1), y[..];
    RowInside(m, b.br, b.bc, q, blocks, b.nbrows);
    assert b.browPtr[q] == b.browPtr[q] && b.browPtr[q + 1] == b.browPtr[q + 1];
    var j := b.browPtr[q];
    SizePositive(b.br, b.bc);
    QuotScale(s, Scale(b.br, b.bc));
    var t := j / Scale(b.br, b.bc);
    NothingAdded(m, base, b.br, x, was, b.bc, blocks, s);
    while j < b.browPtr[q + 1]
      invariant s <= t <= e && j == Scale(t, Scale(b.br, b.bc))
      invariant Reached(b.bc, blocks, s, t) <= |x| && Added(m, base, b.br, x, Reached(b.bc, blocks, s, t), was, y[..])
      decreases e - t
    {
      ScaleLess(t, e, Scale(b.br, b.bc));
      MultiplyBlock(b, t, j, base, x, y, q, m, blocks, was);
      ScaleNext(t, Scale(b.br, b.bc));
      j := j + Scale(b.br, b.bc);
      t := t + 1;
    }
    ScaleLess(t, e, Scale(b.br, b.bc));
    RestAdded(m, base, b.br, b.bc, q, blocks, x, was, y[..]);
  }

  lemma RowInside(m: Csr, r: nat, c: nat, q: nat, blocks: seq<Block>, nbrows: nat)
    requires m.Valid() && r >= 1 && c >= 1 && Filled(m, r, c, nbrows, blocks) && q < nbrows
    ensures RowIs(m, r, c, q, blocks) && Count(m, r, c, q) <= Count(m, r, c, q + 1) <= |blocks|
  {
    hide Count, Blocks;
  }

  lemma SizePositive(r: nat, c: nat)
    requires r >= 1 && c >= 1
    ensures Scale(r, c) >= 1
  {
    MulMono(1, r, c);
  }

  lemma QuotScale(t: nat, w: nat)
    requires w >= 1
    ensures Scale(t, w) / w == t
  {
    DivModUnique(t * w, t, 0, w);
  }

  lemma ScaleLess(t: nat, e: nat, w: nat)
    requires w >= 1
    ensures Scale(t, w) < Scale(e, w) <==> t < e
  {
    if t < e {
      MulMono(t + 1, e, w);
    } else {
      MulMono(e, t, w);
    }
  }

  lemma ScaleNext(t: nat, w: nat)
    ensures Scale(t + 1, w) == Scale(t, w) + w
  {
  }

  lemma NothingAdded(m: Csr, base: nat, r: nat, x: seq<real>, was: seq<real>, c: nat, blocks: seq<Block>, s: nat)
    requires m.Valid() && s <= |blocks|
    ensures Reached(c, blocks, s, s) == 0 && Added(m, base, r, x, 0, was, was)
  {
  }

  lemma RestAdded(m: Csr, base: nat, r: nat, c: nat, q: nat, blocks: seq<Block>, x: seq<real>, was: seq<real>,
                  now: seq<real>)
    requires m.Valid() && r >= 1 && c >= 1 && RowIs(m, r, c, q, blocks) && base == Idx(r, q, 0)
         && Idx(c, Ceil(m.ncols, c), 0) <= |x|
    requires Reached(c, blocks, Count(m, r, c, q), Count(m, r, c, q + 1)) <= |x|
    requires Added(m, base, r, x, Reached(c, blocks, Count(m, r, c, q), Count(m, r, c, q + 1)), was, now)
    ensures Added(m, base, r, x, Idx(c, Ceil(m.ncols, c), 0), was, now)
  {
    hide Val, Mul, Idx, Count, Ceil, Dense, Blocks;
    var s, e := Count(m, r, c, q), Count(m, r, c, q + 1);
    if s < e {
      BlockFits(m, r, c, q, blocks, e - 1);
    }
    forall i | base <= i < base + r
      ensures Dense(m, i, x, 0, Idx(c, Ceil(m.ncols, c), 0)) == Dense(m, i, x, 0, Reached(c, blocks, s, e))
    {
      BehindBlocks(m, r, c, q, i - base, blocks, x, Idx(c, Ceil(m.ncols, c), 0));
    }
  }

  /** The product is added to the rows of the matrix; y and x have room for whole blocks,
      and the rows behind the matrix stay as they were. */
  method Multiply(b: Bcsr, x: seq<real>, y: array<real>, ghost m: Csr, ghost blocks: seq<Block>)
    requires Stands(b, m, blocks) && Idx(b.bc, Ceil(m.ncols, b.bc), 0) <= |x|
         && Idx(b.br, Ceil(m.nrows, b.br), 0) <= y.Length
    modifies y
    ensures m.ncols <= |x| && m.nrows <= y.Length && forall i :: 0 <= i < m.nrows ==> y[i] == old(y[i]) + m.RowProduct(x, i)
    ensures forall i :: m.nrows <= i < y.Length ==> y[i] == old(y[i])
  {
    hide Val, Mul, Scale, Idx, Stored, Filled, Count, Ceil, Dense, Csr.RowProduct;
    ghost var was := y[..];
    ghost var hi := Idx(b.bc, Ceil(m.ncols, b.bc), 0);
    CeilIs(m.ncols, b.bc, 0);
    CeilIs(m.nrows, b.br, 0);
    var i, q := 0, 0;
    IdxZero(b.br);
    while i < b.nrows
      invariant i == Idx(b.br, q, 0) && q <= b.nbrows && y.Length == |was|
      invariant forall k :: 0 <= k < y.Length ==> y[k] == if k < i then was[k] + Dense(m, k, x, 0, hi) else was[k]
      decreases b.nrows - i
    {
      BaseOf(b.br, q);
      CeilIs(m.nrows, b.br, q);
      IdxMono(b.br, q + 1, b.nbrows);
      MultiplyBlockRow(b, q, i, x, y, m, blocks);
      i := i + b.br;
      q := q + 1;
      CeilIs(m.nrows, b.br, q);
    }
    forall k | 0 <= k < y.Length
      ensures y[k] == was[k] + if k < m.nrows then m.RowProduct(x, k) else 0.0
    {
      if k < m.nrows {
        RowIsDense(m, k, x, hi);
      } else if k < i {
        NoRow(m, k, x, hi);
      }
    }
  }

  lemma NoRow(m: Csr, row: nat, x: seq<real>, hi: nat)
    requires m.Valid() && row >= m.nrows && hi <= |x|
    ensures Dense(m, row, x, 0, hi) == 0.0
  {
    DenseZero(m, row, x, 0, hi);
  }
}

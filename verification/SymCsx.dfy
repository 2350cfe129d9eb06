/** Symmetric CSX matrices, from loading to the product.

    Each thread cuts, encodes, merges and prints its part; `MakeMap` lists, before
    that, which temporary cells each part will touch.  `SymRound` runs the three
    phases of one multiplication and promises, whatever the temporary vectors held
    before, every row that its part reaches as a row of the whole symmetric product. */
module SymCsx {
  import opened Orders
  import opened Matrix
  import opened Seqs
  import opened SpmMatrix
  import opened MatrixCodec
  import opened Encoding
  import opened Ctl
  import opened CsxPrinter
  import opened CsxKernel
  import opened SymSteps
  import opened CsxSymKernel
  import opened Drle
  import opened Spmv
  import opened SymMatrix
  import opened Barriers
  import SymMap
  import opened SymSpmv

  // ----- One part: encode and print

  lemma SinglesSmall(rows: Rows, ps: seq<Coo>)
    requires forall c :: c in ps ==> c.e.Single?
    ensures SmallPatterns(ps)
  {
  }

  /** What a thread knows of its part after encoding it. */
  ghost predicate PartPrepared(d: Dims, rows0: Rows, rows: Rows, cut: nat) {
    && RowsWell(d, rows) && RowsSided(d, rows, cut)
    && SmallPatterns(Points(rows))
    && multiset(Cells(Horizontal, d, rows)) == multiset(Cells(Horizontal, d, rows0))
  }

  /** A half of the loaded matrix is ready for the encoder. */
  lemma HalfReady(d: Dims, rows: Rows, cut: nat, left: bool)
    requires Valid(Horizontal, d, rows) && AllSingles(rows)
    ensures var h := HalfRows(rows, cut, left);
            && Valid(Horizontal, Dims(|h|, d.cols), h) && SmallPatterns(Points(h)) && |h| <= d.rows
            && forall c :: c in Cells(Horizontal, Dims(|h|, d.cols), h) ==> (c.at.x - 1 < cut) == left
  {
    hide Valid, Points, PointCells, SmallPatterns, Half;
    var h := HalfRows(rows, cut, left);
    HalfValid(d, rows, cut, left);
    HalfMembers(Points(rows), cut, left);
    SinglesSmall(h, Points(h));
    HalfCells(Dims(|h|, d.cols), Points(h), cut, left);
  }

  /** An encoded half keeps its side of the cut. */
  lemma HalfStays(d: Dims, rows0: Rows, rows: Rows, cut: nat, left: bool)
    requires Prepared(d, rows0, rows)
    requires forall c :: c in Cells(Horizontal, d, rows0) ==> (c.at.x - 1 < cut) == left
    ensures EncodedHalf(d, rows, cut, left)
  {
    hide Valid, SmallPatterns, Cells;
    forall c | c in Cells(Horizontal, d, rows)
      ensures (c.at.x - 1 < cut) == left
    {
      assert c in multiset(Cells(Horizontal, d, rows));
      assert c in multiset(Cells(Horizontal, d, rows0));
    }
  }

  lemma MergedSmall(a: Rows, b: Rows, n: nat)
    requires SmallPatterns(Points(a)) && SmallPatterns(Points(b))
    ensures SmallPatterns(Points(Merged(a, b, n)))
  {
    hide Points, SmallElem;
    var m := Merged(a, b, n);
    forall c | c in Points(m)
      ensures SmallElem(c.e)
    {
      PointsMember(m, c);
      var i := c.y - 1;
      if c.e in RowOf(a, i) {
        PointsMember(a, c);
      } else {
        PointsMember(b, c);
      }
    }
  }

  lemma Merging(d: Dims, rows0: Rows, a: Rows, b: Rows, cut: nat)
    requires Valid(Horizontal, d, rows0) && AllSingles(rows0) && |rows0| == d.rows
    requires var h1, h2 := HalfRows(rows0, cut, true), HalfRows(rows0, cut, false);
             Prepared(Dims(|h1|, d.cols), h1, a) && Prepared(Dims(|h2|, d.cols), h2, b)
    ensures PartPrepared(d, rows0, Merged(a, b, d.rows), cut)
  {
    hide Valid, Points, Cells, SmallPatterns, HalfRows, RowsWell, RowsSided, AllSingles;
    var h1, h2 := HalfRows(rows0, cut, true), HalfRows(rows0, cut, false);
    HalfReady(d, rows0, cut, true);
    HalfReady(d, rows0, cut, false);
    HalfStays(Dims(|h1|, d.cols), h1, a, cut, true);
    HalfStays(Dims(|h2|, d.cols), h2, b, cut, false);
    MergeGood(d, Dims(|h1|, d.cols), Dims(|h2|, d.cols), a, b, cut);
    MergedCells(d, Dims(|h1|, d.cols), Dims(|h2|, d.cols), a, b);
    DividedCells(d, rows0, cut);
    MergedSmall(a, b, d.rows);
  }

  ghost predicate DeltasOk(p: Params, xforms: seq<nat>, deltas: Option<seq<seq<nat>>>) {
    deltas.Some? ==>
      && |deltas.value| == |xforms|
      && forall i :: 0 <= i < |xforms| ==>
           && (xforms[i] == 0 || Encodable(xforms[i])) && Chosen(p.For(xforms[i], deltas.value[i]))
           && forall j :: 0 <= j < |deltas.value[i]| ==> deltas.value[i][j] >= 1
  }

  /** What the encoder makes of a part: each half is encoded on its own, with the number of
      its elements, and they are merged. */
  ghost predicate PartEncoded(d: Dims, cut: nat, xforms: seq<nat>, deltas: Option<seq<seq<nat>>>, rows0: Rows,
                              rows: Rows) {
    var p := Params(4, 254, 0.05, false, false, false);
    var h1, h2 := HalfRows(rows0, cut, true), HalfRows(rows0, cut, false);
    exists a, b ::
      && MatrixEncoded(p, |Flat(h1)|, Dims(|h1|, d.cols), xforms, deltas, h1, a)
      && MatrixEncoded(p, |Flat(h2)|, Dims(|h2|, d.cols), xforms, deltas, h2, b)
      && rows == Merged(a, b, d.rows)
  }

  /** There is only one result. */
  lemma OnePartEncoding(d: Dims, cut: nat, xforms: seq<nat>, deltas: Option<seq<seq<nat>>>, rows0: Rows, rows: Rows,
                other: Rows)
    requires PartEncoded(d, cut, xforms, deltas, rows0, rows) && PartEncoded(d, cut, xforms, deltas, rows0, other)
    ensures rows == other
  {
    hide MatrixEncoded, HalfRows, Merged, Flat;
    var p := Params(4, 254, 0.05, false, false, false);
    var h1, h2 := HalfRows(rows0, cut, true), HalfRows(rows0, cut, false);
    var a, b :|
      && MatrixEncoded(p, |Flat(h1)|, Dims(|h1|, d.cols), xforms, deltas, h1, a)
      && MatrixEncoded(p, |Flat(h2)|, Dims(|h2|, d.cols), xforms, deltas, h2, b)
      && rows == Merged(a, b, d.rows);
    var a', b' :|
      && MatrixEncoded(p, |Flat(h1)|, Dims(|h1|, d.cols), xforms, deltas, h1, a')
      && MatrixEncoded(p, |Flat(h2)|, Dims(|h2|, d.cols), xforms, deltas, h2, b')
      && other == Merged(a', b', d.rows);
    OneEncoding(p, |Flat(h1)|, Dims(|h1|, d.cols), xforms, deltas, h1, a, a');
    OneEncoding(p, |Flat(h2)|, Dims(|h2|, d.cols), xforms, deltas, h2, b, b');
  }

  /** Cuts a part in two, encodes each half on its own, and merges them. */
  method EncodePart(sym: SpmSym, xforms: seq<nat>, deltas: Option<seq<seq<nat>>>)
    requires sym.lower.Valid() && Valid(Horizontal, sym.lower.dims, sym.lower.rows) && AllSingles(sym.lower.rows)
    requires |sym.lower.rows| == sym.lower.dims.rows
    requires DeltasOk(Params(4, 254, 0.05, false, false, false), xforms, deltas)
    modifies sym
    ensures fresh(sym.lower) && sym.lower.Valid() && sym.lower.order == Horizontal
         && sym.lower.dims == old(sym.lower.dims)
    ensures PartPrepared(sym.lower.dims, old(sym.lower.rows), sym.lower.rows, sym.rowStart)
    ensures PartEncoded(sym.lower.dims, sym.rowStart, xforms, deltas, old(sym.lower.rows), sym.lower.rows)
  {
    hide Valid, Spm.Valid, Cells, Points, SmallPatterns, HalfRows, AllSingles, Prepared, Merged, PartPrepared, Chosen,
         EncodedAs;
    ghost var d, rows0 := sym.lower.dims, sym.lower.rows;
    HalfReady(d, rows0, sym.rowStart, true);
    HalfReady(d, rows0, sym.rowStart, false);
    ValidSorted(d, rows0);
    sym.DivideMatrix();
    ghost var h1, h2 := sym.first.rows, sym.second.rows;
    ElemCount(sym.first);
    ElemCount(sym.second);
    ghost var cs := EncodeMatrix(sym.first, Params(4, 254, 0.05, false, false, false), |sym.first.elems|, xforms,
                                 deltas);
    ghost var ds := EncodeMatrix(sym.second, Params(4, 254, 0.05, false, false, false), |sym.second.elems|, xforms,
                                 deltas);
    ghost var a, b := sym.first.rows, sym.second.rows;
    assert MatrixEncoded(Params(4, 254, 0.05, false, false, false), |Flat(h1)|, Dims(|h1|, d.cols), xforms, deltas, h1, a);
    assert MatrixEncoded(Params(4, 254, 0.05, false, false, false), |Flat(h2)|, Dims(|h2|, d.cols), xforms, deltas, h2, b);
    sym.MergeMatrix();
    Merging(d, rows0, a, b, sym.rowStart);
  }

  lemma ElemCount(spm: Spm)
    requires spm.Valid()
    ensures |spm.elems| == |Flat(spm.rows)|
  {
    hide Flat, Ptrs;
  }

  lemma ValidSorted(d: Dims, rows: Rows)
    requires Valid(Horizontal, d, rows)
    ensures Sorted(Points(rows))
  {
  }

  /** The printed part, its diagonal, and what they stand for. */
  datatype CsxSym = CsxSym(lower: Csx, dvalues: seq<real>)

  lemma PartPrintable(full: bool, d: Dims, rows: Rows, i: nat)
    requires RowsWell(d, rows) && SmallPatterns(Points(rows)) && d.cols <= 0x1_0000_0000 && i < |rows|
    ensures PrintableRow(full, rows[i])
  {
    hide Points, RowTight, WellSized, LastX;
    var row := rows[i];
    assert RowValid(Horizontal, d, i + 1, row);
    forall e | e in row
      ensures 1 <= e.x <= d.cols && SmallElem(e)
    {
      PointsMember(rows, Coo(i + 1, e));
      assert GoodElem(Horizontal, d, Coo(i + 1, e));
    }
    forall j | 0 < j < |row|
      ensures row[j].x - row[j - 1].x < 0x1_0000_0000
    {
      assert row[j] in row && row[j - 1] in row;
    }
  }

  method MakeCsxSym(sym: SpmSym, full: bool, ghost rows0: Rows) returns (csx: Option<CsxSym>, ghost us: seq<Unit>)
    requires sym.lower.Valid() && sym.lower.order == Horizontal && sym.lower.dims.cols <= 0x1_0000_0000
    requires PartPrepared(sym.lower.dims, rows0, sym.lower.rows, sym.rowStart)
    ensures csx.Some? ==>
              && Represents(csx.value.lower, us, sym.lower.dims, sym.lower.rows, sym.rowStart)
              && csx.value.lower.rowStart == sym.rowStart && csx.value.dvalues == sym.diagonal
    ensures csx.Some? <==> FlagsFit(sym.lower.rows, sym.rowStart)
  {
    hide Spm.Valid, SmallPatterns, PrintableRow, FlagsFit, Represents, Cells, RowsWell, RowsSided;
    forall i | 0 <= i < |sym.lower.rows|
      ensures PrintableRow(full, sym.lower.rows[i])
    {
      PartPrintable(full, sym.lower.dims, sym.lower.rows, i);
    }
    var mg := new CsxManager(full, sym.rowStart);
    var printed;
    printed, us := mg.MakeCsx(sym.lower, sym.rowStart, true);
    if printed.None? {
      csx := None;
    } else {
      csx := Some(CsxSym(printed.value, sym.diagonal));
    }
  }

  // ----- Which temporary cells a part touches

  /** An element of the part lies in column p (1-based), left of the rows of the part. */
  ghost predicate Met(ps: seq<Coo>, start: nat, p: int) {
    p < start + 1 && exists c :: c in ps && c.e.x == p
  }

  ghost function RemoteIn(parts: seq<seq<Coo>>, starts: seq<nat>): (nat, nat) -> bool {
    (c: nat, p: nat) => c < |parts| && c < |starts| && Met(parts[c], starts[c], p)
  }

  lemma MetNone(start: nat)
    ensures forall p: int :: !Met([], start, p)
  {
  }

  lemma MetMore(ps: seq<Coo>, c: Coo, start: nat)
    ensures forall p: int :: Met(ps + [c], start, p) <==> Met(ps, start, p) || (p == c.e.x && p < start + 1)
  {
    forall p: int
      ensures Met(ps + [c], start, p) <==> Met(ps, start, p) || (p == c.e.x && p < start + 1)
    {
      if Met(ps, start, p) {
        var q :| q in ps && q.e.x == p;
        assert q in ps + [c];
      }
      if p == c.e.x && p < start + 1 {
        assert c in ps + [c];
      }
    }
  }

  /** Marks the columns of part i. */
  method MarkPart(spm: Spm, start: nat, i: nat, initial: array2<bool>, count: array<nat>)
    requires spm.Valid() && i < initial.Length0 && initial.Length1 == count.Length
    requires forall c :: c in Points(spm.rows) ==> 1 <= c.e.x < count.Length
    requires forall p: nat :: p < count.Length ==> !initial[i, p]
    modifies initial, count
    ensures forall p: nat :: p < count.Length ==> (initial[i, p] <==> Met(Points(spm.rows), start, p))
    ensures forall p: nat :: p < count.Length ==> count[p] == old(count[p]) + if Met(Points(spm.rows), start, p) then 1 else 0
    ensures forall c: nat, p: nat :: c < initial.Length0 && c != i && p < count.Length ==> initial[c, p] == old(initial[c, p])
  {
    hide Points, Met, Flat, Ptrs, RowPoints;
    var j := 0;
    MetNone(start);
    Reorder.EmptyPoints();
    assert spm.rows[..0] == [];
    while j < spm.NrRows()
      invariant 0 <= j <= |spm.rows|
      invariant forall p: nat :: p < count.Length ==> (initial[i, p] <==> Met(Points(spm.rows[..j]), start, p))
      invariant forall p: nat :: p < count.Length ==> count[p] == old(count[p]) + if initial[i, p] then 1 else 0
      invariant forall c: nat, p: nat :: c < initial.Length0 && c != i && p < count.Length ==> initial[c, p] == old(initial[c, p])
    {
      RowsBefore(spm.rows, j);
      RowInside(spm.rows, j);
      MarkRow(spm.Row(j), j, Points(spm.rows[..j]), start, i, initial, count);
      j := j + 1;
    }
    assert spm.rows[..j] == spm.rows;
  }

  lemma RowsBefore(rows: Rows, j: nat)
    requires j < |rows|
    ensures Points(rows[..j + 1]) == Points(rows[..j]) + RowPoints(j + 1, rows[j])
    ensures forall c :: c in Points(rows[..j + 1]) ==> c in Points(rows)
  {
    hide Points;
    assert rows[..j] + [rows[j]] == rows[..j + 1];
    Reorder.PointsSnocRow(rows[..j], rows[j]);
    forall c | c in Points(rows[..j + 1])
      ensures c in Points(rows)
    {
      PointsMember(rows[..j + 1], c);
      PointsMember(rows, c);
    }
  }

  lemma RowInside(rows: Rows, j: nat)
    requires j < |rows|
    ensures forall e :: e in rows[j] ==> Coo(j + 1, e) in Points(rows)
  {
    hide Points;
    forall e | e in rows[j]
      ensures Coo(j + 1, e) in Points(rows)
    {
      PointsMember(rows, Coo(j + 1, e));
    }
  }

  method MarkRow(row: seq<Elem>, ghost j: nat, ghost ps: seq<Coo>, start: nat, i: nat, initial: array2<bool>,
                 count: array<nat>)
    requires i < initial.Length0 && initial.Length1 == count.Length
    requires forall e :: e in row ==> 1 <= e.x < count.Length
    requires forall p: nat :: p < count.Length ==> (initial[i, p] <==> Met(ps, start, p))
    modifies initial, count
    ensures forall p: nat :: p < count.Length ==> (initial[i, p] <==> Met(ps + RowPoints(j + 1, row), start, p))
    ensures forall p: nat :: p < count.Length ==> count[p] == old(count[p]) + if initial[i, p] && !old(initial[i, p]) then 1 else 0
    ensures forall p: nat :: p < count.Length && old(initial[i, p]) ==> initial[i, p]
    ensures forall c: nat, p: nat :: c < initial.Length0 && c != i && p < count.Length ==> initial[c, p] == old(initial[c, p])
  {
    hide Met;
    var k := 0;
    assert RowPoints(j + 1, row[..0]) == [];
    NilRight(ps);
    while k < |row|
      invariant 0 <= k <= |row|
      invariant forall p: nat :: p < count.Length ==> (initial[i, p] <==> Met(ps + RowPoints(j + 1, row[..k]), start, p))
      invariant forall p: nat :: p < count.Length ==> count[p] == old(count[p]) + if initial[i, p] && !old(initial[i, p]) then 1 else 0
      invariant forall p: nat :: p < count.Length && old(initial[i, p]) ==> initial[i, p]
      invariant forall c: nat, p: nat :: c < initial.Length0 && c != i && p < count.Length ==> initial[c, p] == old(initial[c, p])
    {
      var col := row[k].x;
      Reorder.RowPointsSnoc(j + 1, row[..k], row[k]);
      assert row[..k] + [row[k]] == row[..k + 1];
      Assoc(ps, RowPoints(j + 1, row[..k]), [Coo(j + 1, row[k])]);
      MetMore(ps + RowPoints(j + 1, row[..k]), Coo(j + 1, row[k]), start);
      assert row[k] in row;
      if col < start + 1 {
        SymMap.MarkOne(initial, count, i, col);
      }
      k := k + 1;
    }
    assert row[..k] == row;
  }

  /** The first pass, over the elements of all parts. */
  method InitialMap(spms: seq<Spm>, starts: seq<nat>, n: nat, ghost parts: seq<seq<Coo>>)
    returns (initial: array2<bool>, count: array<nat>)
    requires |spms| == |parts| && |starts| == |spms| + 1
    requires forall i :: 0 <= i < |spms| ==> spms[i].Valid() && parts[i] == Points(spms[i].rows)
    requires forall i, c :: 0 <= i < |spms| && c in parts[i] ==> 1 <= c.e.x < n
    ensures SymMap.Marked(initial, count, RemoteIn(parts, starts), |spms|, n)
  {
    hide Met, Points, Spm.Valid, RemoteIn, SymMap.HowMany;
    var ncpus := |spms|;
    initial := new bool[ncpus, n]((i, j) => false);
    count := new nat[n](j => 0);
    var i := 0;
    CountNone(parts, starts);
    while i < ncpus
      invariant 0 <= i <= ncpus
      invariant forall c: nat, p: nat :: c < i && p < n ==> (initial[c, p] <==> Met(parts[c], starts[c], p))
      invariant forall c: nat, p: nat :: i <= c < ncpus && p < n ==> !initial[c, p]
      invariant forall p: nat :: p < n ==> count[p] == SymMap.HowMany(RemoteIn(parts, starts), i, p)
    {
      MarkPart(spms[i], starts[i], i, initial, count);
      CountMore(parts, starts, i);
      i := i + 1;
    }
    RemoteIs(parts, starts);
  }

  lemma CountNone(parts: seq<seq<Coo>>, starts: seq<nat>)
    ensures forall p: nat :: SymMap.HowMany(RemoteIn(parts, starts), 0, p) == 0
  {
  }

  lemma CountMore(parts: seq<seq<Coo>>, starts: seq<nat>, i: nat)
    requires i < |parts| <= |starts|
    ensures forall p: nat :: SymMap.HowMany(RemoteIn(parts, starts), i + 1, p)
                          == SymMap.HowMany(RemoteIn(parts, starts), i, p) + if Met(parts[i], starts[i], p) then 1 else 0
  {
    hide Met;
  }

  lemma RemoteIs(parts: seq<seq<Coo>>, starts: seq<nat>)
    requires |parts| <= |starts|
    ensures forall c: nat, p: nat :: c < |parts| ==> RemoteIn(parts, starts)(c, p) == Met(parts[c], starts[c], p)
  {
    hide Met;
  }

  /** The maps of a symmetric matrix in parts; columns are 1-based, positions 0-based. */
  method MakeMap(spms: seq<Spm>, starts: seq<nat>, n: nat, ghost parts: seq<seq<Coo>>)
    returns (maps: seq<seq<SymMap.Slot>>, ghost cuts: seq<nat>)
    requires 1 <= |spms| == |parts| && |starts| == |spms| + 1
    requires forall i :: 0 <= i < |spms| ==> spms[i].Valid() && parts[i] == Points(spms[i].rows)
    requires forall i, c :: 0 <= i < |spms| && c in parts[i] ==> 1 <= c.e.x < n
    ensures SymMap.MapsFor(maps, cuts, RemoteIn(parts, starts), |spms|, n, 1)
  {
    hide Met, Points, Spm.Valid, RemoteIn, SymMap.Marked, SymMap.MapsFor, SymMap.TakesPairs;
    var initial, count := InitialMap(spms, starts, n, parts);
    NoneAtZero(parts, starts, n);
    maps, cuts := SymMap.FinalMap(initial, count, |spms|, n, 1, RemoteIn(parts, starts));
  }

  lemma NoneAtZero(parts: seq<seq<Coo>>, starts: seq<nat>, n: nat)
    requires forall i, c :: 0 <= i < |parts| && c in parts[i] ==> 1 <= c.e.x < n
    ensures SymMap.Offset(RemoteIn(parts, starts), |parts|, 1)
  {
  }

  // ----- One multiplication by all parts

  /** What is known of a printed part: where it comes from. */
  ghost predicate PartReady(p: CsxSym, us: seq<Unit>, d: Dims, encoded: Rows, loaded: Rows, start: nat) {
    && p.lower.rowStart == start && Represents(p.lower, us, d, encoded, start) && us != []
    && multiset(Cells(Horizontal, d, encoded)) == multiset(Cells(Horizontal, d, loaded))
    && AllSingles(loaded) && d.rows <= |p.dvalues|
    && Lower(Cells(Horizontal, d, loaded), start, d.rows)
  }

  /** The parts as they were loaded, and what was made of them. */
  datatype Source = Source(us: seq<Unit>, d: Dims, encoded: Rows, loaded: Rows)
  {
    function Es(): seq<Entry> {
      Cells(Horizontal, d, loaded)
    }
  }

  /** All parts of one matrix with n rows. */
  ghost predicate AllReady(parts: seq<CsxSym>, from: seq<Source>, starts: seq<nat>, n: nat) {
    && |parts| == |from| && |starts| == |parts| + 1 && SymMap.Partition(starts, n)
    && forall i {:trigger parts[i]} {:trigger from[i]} :: 0 <= i < |parts| ==>
         && PartReady(parts[i], from[i].us, from[i].d, from[i].encoded, from[i].loaded, starts[i])
         && |parts[i].dvalues| == starts[i + 1] - starts[i]
  }

  /** Every part reaches its last row. */
  ghost predicate AllComplete(parts: seq<CsxSym>, from: seq<Source>) {
    |parts| == |from| && forall i {:trigger parts[i]} {:trigger from[i]} :: 0 <= i < |parts| ==> from[i].d.rows == |parts[i].dvalues|
  }

  /** What a part adds to place p. */
  function Contribution(es: seq<Entry>, rs: nat, x: seq<real>, p: nat): real {
    RowProduct(es, x, p - rs + 1) + Sum(es, MirrorTerm(p, rs, x))
  }

  /** What the first k parts add to place p. */
  function Contributions(from: seq<Source>, starts: seq<nat>, k: nat, x: seq<real>, p: nat): real
    requires k <= |from| && k <= |starts|
  {
    if k == 0 then 0.0 else Contributions(from, starts, k - 1, x, p) + Contribution(from[k - 1].Es(), starts[k - 1], x, p)
  }

  /** The kernel on one part, in terms of the part as it was loaded, and its writes as steps
      of a thread. */
  method MultiplyPart(part: CsxSym, start: nat, n: nat, x: seq<real>, y: array<real>, t: array<real>, ghost s: Source,
                      ghost cpu: nat, ghost xv: nat)
    returns (ghost log: seq<Op<Cell>>)
    requires xv < 2 && PartReady(part, s.us, s.d, s.encoded, s.loaded, start) && start + s.d.rows <= n
    requires |x| == y.Length == t.Length == n
    modifies y, t
    ensures s.d.rows <= |part.dvalues|
    ensures forall j :: start <= j < start + s.d.rows ==> SymProduct(y[j], s.Es(), start, j, x, part.dvalues)
    ensures forall j :: start + s.d.rows <= j < n ==> y[j] == old(y[j])
    ensures y != t ==> forall j :: 0 <= j < start ==> y[j] == old(y[j])
    ensures forall c :: 0 <= c < start ==> t[c] == old(t[c]) + Sum(s.Es(), MirrorTerm(c, start, x))
    ensures y != t ==> forall c :: start <= c < n ==> t[c] == old(t[c])
    ensures Performs(log, s.Es(), cpu, xv, start, s.d.rows, n, part.dvalues)
  {
    hide Represents, Lower, Cells, SymProduct, Sum, MirrorTerm, AllSingles, Performs;
    LowerPerm(Cells(Horizontal, s.d, s.loaded), Cells(Horizontal, s.d, s.encoded), start, s.d.rows);
    NrRowsAre(part.lower, s.us, s.d, s.encoded, start);
    var pos, v;
    pos, v, log := MultiplySym(part.lower, part.dvalues, x, y, t, s.us, s.d, s.encoded, cpu, xv);
    PerformsPerm(log, Cells(Horizontal, s.d, s.encoded), s.Es(), cpu, xv, start, s.d.rows, n, part.dvalues);
    forall j | start <= j < start + s.d.rows
      ensures SymProduct(y[j], s.Es(), start, j, x, part.dvalues)
    {
      ProductPerm(y[j], Cells(Horizontal, s.d, s.encoded), s.Es(), start, j, x, part.dvalues);
    }
    forall c | 0 <= c < start
      ensures t[c] == old(t[c]) + Sum(s.Es(), MirrorTerm(c, start, x))
    {
      SumPerm(Cells(Horizontal, s.d, s.encoded), s.Es(), MirrorTerm(c, start, x));
    }
  }

  lemma PerformsPerm(ops: seq<Op<Cell>>, a: seq<Entry>, b: seq<Entry>, cpu: nat, xv: nat, rs: nat, rows: nat, n: nat,
                     dv: seq<real>)
    requires multiset(a) == multiset(b) && Performs(ops, a, cpu, xv, rs, rows, n, dv)
    ensures Performs(ops, b, cpu, xv, rs, rows, n, dv)
  {
    hide RunOps, Within, Read, SymRows, SymTemps;
    forall m
      ensures PartAdded(m, RunOps(m, ops), b, cpu, xv, rs, rows, n, dv)
    {
      assert PartAdded(m, RunOps(m, ops), a, cpu, xv, rs, rows, n, dv);
      RowsPerm(View(RunOps(m, ops), 1 - xv % 2, n), a, b, rs, rows, View(m, xv, n), dv);
      TempsPerm(TempView(RunOps(m, ops), cpu, n), TempView(m, cpu, n), a, b, rs, View(m, xv, n));
    }
  }

  lemma RowsPerm(y: seq<real>, a: seq<Entry>, b: seq<Entry>, rs: nat, rows: nat, x: seq<real>, dv: seq<real>)
    requires rs + rows <= |y| == |x| && rows <= |dv| && multiset(a) == multiset(b) && SymRows(y, a, rs, rows, x, dv)
    ensures SymRows(y, b, rs, rows, x, dv)
  {
    hide SymProduct;
    forall j {:trigger y[j]} | rs <= j < rs + rows
      ensures SymProduct(y[j], b, rs, j, x, dv)
    {
      ProductPerm(y[j], a, b, rs, j, x, dv);
    }
  }

  lemma TempsPerm(t: seq<real>, t0: seq<real>, a: seq<Entry>, b: seq<Entry>, rs: nat, x: seq<real>)
    requires rs <= |t| == |t0| && multiset(a) == multiset(b) && SymTemps(t, t0, a, rs, x)
    ensures SymTemps(t, t0, b, rs, x)
  {
    hide Sum, MirrorTerm;
    forall c {:trigger t[c]} | 0 <= c < rs
      ensures t[c] == t0[c] + Sum(b, MirrorTerm(c, rs, x))
    {
      SumPerm(a, b, MirrorTerm(c, rs, x));
    }
  }

  /** The steps of all threads multiply their parts. */
  ghost predicate AllPerform(steps: seq<seq<Op<Cell>>>, parts: seq<CsxSym>, from: seq<Source>, starts: seq<nat>, n: nat,
                             xv: nat) {
    && |steps| == |parts| == |from| < |starts|
    && forall t: nat {:trigger steps[t]} :: t < |steps| ==>
         Performs(steps[t], from[t].Es(), t, xv, starts[t], from[t].d.rows, n, parts[t].dvalues)
  }

  lemma NrRowsAre(csx: Csx, us: seq<Unit>, d: Dims, rows: Rows, side: nat)
    requires Represents(csx, us, d, rows, side)
    ensures csx.nrows == d.rows
  {
  }

  lemma LowerPerm(a: seq<Entry>, b: seq<Entry>, rs: nat, n: nat)
    requires multiset(a) == multiset(b) && Lower(a, rs, n)
    ensures Lower(b, rs, n)
  {
    forall e | e in b
      ensures 1 <= e.at.y <= n && 1 <= e.at.x < e.at.y + rs
    {
      assert e in multiset(b);
      assert e in multiset(a);
    }
  }

  lemma ProductPerm(yj: real, a: seq<Entry>, b: seq<Entry>, rs: nat, j: nat, x: seq<real>, dv: seq<real>)
    requires multiset(a) == multiset(b) && rs <= j < |x| && j - rs < |dv| && SymProduct(yj, a, rs, j, x, dv)
    ensures SymProduct(yj, b, rs, j, x, dv)
  {
    hide Sum, RowTerm, MirrorTerm;
    SumPerm(a, b, RowTerm(j - rs + 1, x));
    SumPerm(a, b, MirrorTerm(j, rs, x));
  }

  /** All temporary vectors: as many as parts, of full length, none of them y or x. */
  ghost predicate Room(temps: seq<array<real>>, y: array<real>, n: nat, ncpus: nat) {
    && |temps| == ncpus && y.Length == n && y !in temps
    && (forall c :: 0 <= c < |temps| ==> temps[c].Length == n)
    && forall a, b :: 0 <= a < b < |temps| ==> temps[a] != temps[b]
  }

  /** Part k has been multiplied; rows behind its last element are as they were. */
  ghost predicate RowsDone(y: seq<real>, y0: seq<real>, part: CsxSym, s: Source, start: nat, end: nat, x: seq<real>)
  {
    && start + s.d.rows <= end <= |y| == |y0| == |x| && s.d.rows <= |part.dvalues|
    && (forall p :: start <= p < start + s.d.rows ==> SymProduct(y[p], s.Es(), start, p, x, part.dvalues))
    && forall p :: start + s.d.rows <= p < end ==> y[p] == y0[p]
  }

  ghost predicate TempsDone(t: seq<real>, t0: seq<real>, s: Source, start: nat, x: seq<real>)
  {
    |t| == |t0| == |x| && start <= |x| && forall p :: 0 <= p < start ==> t[p] == t0[p] + Sum(s.Es(), MirrorTerm(p, start, x))
  }

  /** The second phase: every part in turn.  The first one has no rows before it and
      gets y for its temporary vector, as the main thread does. */
  method MultiplyAll(parts: seq<CsxSym>, starts: seq<nat>, n: nat, x: seq<real>, y: array<real>,
                     temps: seq<array<real>>,
                     ghost from: seq<Source>, ghost before: seq<seq<real>>, ghost xv: nat)
    returns (ghost steps: seq<seq<Op<Cell>>>)
    requires xv < 2 && AllReady(parts, from, starts, n) && |x| == n && Room(temps, y, n, |parts|)
    requires |before| == |temps| && forall c :: 0 <= c < |temps| ==> before[c] == temps[c][..]
    modifies y, set a | a in temps
    ensures forall k {:trigger parts[k]} :: 0 <= k < |parts| ==> RowsDone(y[..], old(y[..]), parts[k], from[k], starts[k], starts[k + 1], x)
    ensures forall k {:trigger temps[k]} :: 0 <= k < |parts| ==> TempsDone(temps[k][..], before[k], from[k], starts[k], x)
    ensures AllPerform(steps, parts, from, starts, n, xv)
  {
    hide AllReady, RowsDone, TempsDone, Performs;
    ReadySizes(parts, from, starts, n);
    var k := 0;
    steps := [];
    while k < |parts|
      invariant 0 <= k <= |parts|
      invariant forall i {:trigger parts[i]} :: 0 <= i < k ==> RowsDone(y[..], old(y[..]), parts[i], from[i], starts[i], starts[i + 1], x)
      invariant forall j :: starts[k] <= j < n ==> y[j] == old(y[j])
      invariant forall i {:trigger temps[i]} :: 0 <= i < k ==> TempsDone(temps[i][..], before[i], from[i], starts[i], x)
      invariant forall i {:trigger temps[i]} :: k <= i < |temps| ==> temps[i][..] == before[i]
      invariant |steps| == k && forall t: nat {:trigger steps[t]} :: t < k ==>
                  Performs(steps[t], from[t].Es(), t, xv, starts[t], from[t].d.rows, n, parts[t].dvalues)
    {
      ghost var y0 := y[..];
      PartFits(parts, from, starts, n, k);
      ghost var log := OnePart(parts, k, starts, n, x, y, temps, from, before, xv);
      steps := steps + [log];
      forall i | 0 <= i < k
        ensures RowsDone(y[..], old(y[..]), parts[i], from[i], starts[i], starts[i + 1], x)
      {
        OtherRowsStay(y0, y[..], old(y[..]), parts, from, starts, n, x, i, k);
      }
      RowsFrom(y[..], y0, old(y[..]), parts[k], from[k], starts[k], starts[k + 1], x);
      k := k + 1;
    }
  }

  /** Part k. */
  method OnePart(parts: seq<CsxSym>, k: nat, starts: seq<nat>, n: nat, x: seq<real>, y: array<real>,
                 temps: seq<array<real>>,
                 ghost from: seq<Source>, ghost before: seq<seq<real>>, ghost xv: nat)
    returns (ghost log: seq<Op<Cell>>)
    requires xv < 2 && AllReady(parts, from, starts, n) && |x| == n && Room(temps, y, n, |parts|) && k < |parts|
    requires |before| == |temps| && before[k] == temps[k][..]
    modifies y, temps[k]
    ensures RowsDone(y[..], old(y[..]), parts[k], from[k], starts[k], starts[k + 1], x)
    ensures TempsDone(temps[k][..], before[k], from[k], starts[k], x)
    ensures forall j :: 0 <= j < n && !(starts[k] <= j < starts[k + 1]) ==> y[j] == old(y[j])
    ensures Performs(log, from[k].Es(), k, xv, starts[k], from[k].d.rows, n, parts[k].dvalues)
  {
    hide PartReady, Sum, MirrorTerm, SymProduct, Performs;
    PartFits(parts, from, starts, n, k);
    if k == 0 {
      log := MultiplyPart(parts[k], starts[k], n, x, y, y, from[k], k, xv);
    } else {
      log := MultiplyPart(parts[k], starts[k], n, x, y, temps[k], from[k], k, xv);
    }
  }

  lemma PartFits(parts: seq<CsxSym>, from: seq<Source>, starts: seq<nat>, n: nat, k: nat)
    requires AllReady(parts, from, starts, n) && k < |parts|
    ensures |starts| == |parts| + 1 && starts[k] <= starts[k] + from[k].d.rows <= starts[k + 1] <= n
  {
    hide PartReady;
    RowsFit(parts[k], from[k], starts[k]);
  }

  lemma RowsFit(p: CsxSym, s: Source, start: nat)
    requires PartReady(p, s.us, s.d, s.encoded, s.loaded, start)
    ensures s.d.rows <= |p.dvalues|
  {
    hide Lower, AllSingles, Represents, Cells;
  }

  /** What was there before the part is what was there before all parts. */
  lemma RowsFrom(y: seq<real>, y1: seq<real>, y0: seq<real>, part: CsxSym, s: Source, start: nat, end: nat,
                 x: seq<real>)
    requires RowsDone(y, y1, part, s, start, end, x) && |y0| == |y1| && forall j :: start <= j < |y0| ==> y1[j] == y0[j]
    ensures RowsDone(y, y0, part, s, start, end, x)
  {
    hide SymProduct;
  }

  lemma OtherRowsStay(y: seq<real>, y': seq<real>, y0: seq<real>, parts: seq<CsxSym>, from: seq<Source>,
                      starts: seq<nat>, n: nat,
                      x: seq<real>, i: nat, k: nat)
    requires AllReady(parts, from, starts, n) && i < k < |parts| && |y| == |y'| == n
    requires RowsDone(y, y0, parts[i], from[i], starts[i], starts[i + 1], x)
    requires forall j :: 0 <= j < n && !(starts[k] <= j < starts[k + 1]) ==> y'[j] == y[j]
    ensures RowsDone(y', y0, parts[i], from[i], starts[i], starts[i + 1], x)
  {
    hide PartReady, SymProduct;
    assert starts[i + 1] <= starts[k];
  }

  // ----- Sums over the maps

  function Val(tv: seq<seq<real>>, c: nat, p: nat): real {
    if c < |tv| && p < |tv[c]| then tv[c][p] else 0.0
  }

  /** What the slots of position p hold. */
  function Gather(tv: seq<seq<real>>, list: seq<SymMap.Slot>, p: nat): real {
    if list == [] then 0.0
    else
      var l := list[|list| - 1];
      Gather(tv, list[..|list| - 1], p) + if l.pos == p then Val(tv, l.cpu, p) else 0.0
  }

  function GatherAll(tv: seq<seq<real>>, maps: seq<seq<SymMap.Slot>>, p: nat): real {
    if maps == [] then 0.0 else GatherAll(tv, maps[..|maps| - 1], p) + Gather(tv, maps[|maps| - 1], p)
  }

  /** What the first c threads hold at position p because they touch it. */
  ghost function FromRemote(tv: seq<seq<real>>, remote: (nat, nat) -> bool, c: nat, p: nat): real {
    if c == 0 then 0.0 else FromRemote(tv, remote, c - 1, p) + if remote(c - 1, p + 1) then Val(tv, c - 1, p) else 0.0
  }

  lemma {:induction false} GatherConcat(tv: seq<seq<real>>, a: seq<SymMap.Slot>, b: seq<SymMap.Slot>, p: nat)
    ensures Gather(tv, a + b, p) == Gather(tv, a, p) + Gather(tv, b, p)
  {
    if b == [] {
      NilRight(a);
    } else {
      ButLast(a, b);
      GatherConcat(tv, a, b[..|b| - 1], p);
    }
  }

  lemma {:induction false} GatherAt(tv: seq<seq<real>>, remote: (nat, nat) -> bool, c: nat, q: nat, p: nat)
    requires SymMap.Offset(remote, c, 1)
    ensures Gather(tv, SymMap.At(remote, c, q, 1), p) == if q == p + 1 then FromRemote(tv, remote, c, p) else 0.0
  {
    hide Val;
    if c > 0 {
      GatherAt(tv, remote, c - 1, q, p);
      var init := SymMap.At(remote, c - 1, q, 1);
      if remote(c - 1, q) {
        Snoc(init, SymMap.Slot(c - 1, q - 1));
      } else {
        NilRight(init);
      }
    }
  }

  lemma {:induction false} GatherListed(tv: seq<seq<real>>, remote: (nat, nat) -> bool, ncpus: nat, s: nat, e: nat,
                                        p: nat)
    requires s <= e && SymMap.Offset(remote, ncpus, 1)
    ensures Gather(tv, SymMap.Listed(remote, ncpus, s, e, 1), p) == if s <= p + 1 < e then FromRemote(tv, remote, ncpus, p) else 0.0
    decreases e - s
  {
    hide FromRemote, SymMap.At, SymMap.Offset;
    if s < e {
      GatherListed(tv, remote, ncpus, s, e - 1, p);
      GatherAt(tv, remote, ncpus, e - 1, p);
      GatherConcat(tv, SymMap.Listed(remote, ncpus, s, e - 1, 1), SymMap.At(remote, ncpus, e - 1, 1), p);
    }
  }

  /** The first k maps gather position p exactly when its column is before their end. */
  lemma {:induction false} GatherMaps(tv: seq<seq<real>>, maps: seq<seq<SymMap.Slot>>, cuts: seq<nat>,
                                      remote: (nat, nat) -> bool,
                                      ncpus: nat, n: nat, p: nat, k: nat)
    requires SymMap.MapsFor(maps, cuts, remote, ncpus, n, 1) && SymMap.Offset(remote, ncpus, 1) && k <= |maps|
    ensures GatherAll(tv, maps[..k], p) == if p + 1 < cuts[k] then FromRemote(tv, remote, ncpus, p) else 0.0
  {
    hide FromRemote, Gather, SymMap.Listed, SymMap.Offset;
    if k > 0 {
      GatherMaps(tv, maps, cuts, remote, ncpus, n, p, k - 1);
      assert maps[..k][..k - 1] == maps[..k - 1];
      GatherListed(tv, remote, ncpus, cuts[k - 1], cuts[k], p);
    } else {
      assert maps[..0] == [];
    }
  }

  // ----- What everything adds up to

  lemma {:induction false} NotMetCells(d: Dims, ps: seq<Coo>, p: int)
    requires forall c :: c in ps ==> c.e.Single? && c.e.x != p
    ensures forall e :: e in PointCells(Horizontal, d, ps) ==> e.at.x != p
  {
    if ps != [] {
      var n := |ps| - 1;
      NotMetCells(d, ps[..n], p);
      assert ps[n] in ps;
    }
  }

  /** A part adds to a row of another part only through the column of that row, left of
      its own rows, and only when it meets that column. */
  lemma OtherPart(s: Source, start: nat, x: seq<real>, p: nat)
    requires Lower(s.Es(), start, s.d.rows) && AllSingles(s.loaded) && !(start <= p < start + s.d.rows)
    ensures p < start && Met(Points(s.loaded), start, p + 1) ==> Contribution(s.Es(), start, x, p) == Sum(s.Es(), MirrorTerm(p, start, x))
    ensures !(p < start && Met(Points(s.loaded), start, p + 1)) ==> Contribution(s.Es(), start, x, p) == 0.0
  {
    hide Points, RowTerm, MirrorTerm, Sum, PointCells;
    NoTerm(s.Es(), p - start + 1, x);
    if p < start && !Met(Points(s.loaded), start, p + 1) {
      SinglePoints(s.loaded);
      NotMetCells(s.d, Points(s.loaded), p + 1);
      NoMirror(s.Es(), p, start, x);
    }
    if p >= start {
      NoMirror(s.Es(), p, start, x);
    }
  }

  lemma SinglePoints(rows: Rows)
    requires AllSingles(rows)
    ensures forall c :: c in Points(rows) ==> c.e.Single?
  {
    hide Points;
    forall c | c in Points(rows)
      ensures c.e.Single?
    {
      PointsMember(rows, c);
    }
  }

  ghost function LoadedPoints(from: seq<Source>): (r: seq<seq<Coo>>)
    ensures |r| == |from| && forall i {:trigger r[i]} :: 0 <= i < |from| ==> r[i] == Points(from[i].loaded)
  {
    seq(|from|, i requires 0 <= i < |from| => Points(from[i].loaded))
  }

  /** The temporaries hold what the parts add to rows before their own. */
  ghost predicate Held(tv: seq<seq<real>>, from: seq<Source>, starts: seq<nat>, x: seq<real>, p: nat) {
    && |starts| == |from| + 1
    && forall u: nat {:trigger from[u]} :: u < |from| && p < starts[u] && Met(Points(from[u].loaded), starts[u], p + 1) ==>
         Val(tv, u, p) == Sum(from[u].Es(), MirrorTerm(p, starts[u], x))
  }

  lemma {:induction false} AllContribute(parts: seq<CsxSym>, from: seq<Source>, starts: seq<nat>, n: nat,
                                         tv: seq<seq<real>>, x: seq<real>,
                                         p: nat, t: nat, k: nat)
    requires AllReady(parts, from, starts, n) && k <= |parts| && t < |parts| && starts[t] <= p < starts[t + 1]
    requires Held(tv, from, starts, x, p)
    ensures Contributions(from, starts, k, x, p)
         == FromRemote(tv, RemoteIn(LoadedPoints(from), starts), k, p) + if t < k then Contribution(from[t].Es(), starts[t], x, p) else 0.0
  {
    hide PartReady, Contribution, Val, MirrorTerm, Sum, Points, Met, Cells;
    if k > 0 {
      var u := k - 1;
      AllContribute(parts, from, starts, n, tv, x, p, t, u);
      PartLower(parts[u], from[u], starts[u]);
      assert RemoteIn(LoadedPoints(from), starts)(u, p + 1) == Met(Points(from[u].loaded), starts[u], p + 1);
      MetLeft(Points(from[u].loaded), starts[u], p + 1);
      if u != t {
        if u < t {
          assert starts[u + 1] <= starts[t];
        } else {
          assert starts[t + 1] <= starts[u];
        }
        PartFits(parts, from, starts, n, u);
        OtherPart(from[u], starts[u], x, p);
      }
    }
  }

  lemma MetLeft(ps: seq<Coo>, start: nat, p: int)
    ensures Met(ps, start, p) ==> p - 1 < start
  {
  }

  lemma PartLower(p: CsxSym, s: Source, start: nat)
    requires PartReady(p, s.us, s.d, s.encoded, s.loaded, start)
    ensures Lower(s.Es(), start, s.d.rows) && AllSingles(s.loaded)
  {
    hide Lower, AllSingles, Represents;
  }

  // ----- The three phases

  /** The maps that were made for these parts. */
  ghost predicate MapsMade(maps: seq<seq<SymMap.Slot>>, cuts: seq<nat>, from: seq<Source>, starts: seq<nat>, n: nat) {
    && SymMap.MapsFor(maps, cuts, RemoteIn(LoadedPoints(from), starts), |from|, n, 1)
    && forall i, c :: 0 <= i < |from| && c in LoadedPoints(from)[i] ==> 1 <= c.e.x < n
  }

  lemma MapFits(maps: seq<seq<SymMap.Slot>>, cuts: seq<nat>, from: seq<Source>, starts: seq<nat>, n: nat, i: nat)
    requires MapsMade(maps, cuts, from, starts, n) && i < |maps|
    ensures forall t :: t in maps[i] ==> t.cpu < |from| && t.pos + 1 < n
  {
    hide Met;
    SymMap.MapMembers(maps, cuts, RemoteIn(LoadedPoints(from), starts), |from|, n, 1, i);
  }

  /** The first phase zeroes every cell that some part will touch. */
  method ZeroAll(temps: seq<array<real>>, maps: seq<seq<SymMap.Slot>>, y: array<real>, n: nat,
                 ghost cuts: seq<nat>, ghost from: seq<Source>, ghost starts: seq<nat>)
    requires Room(temps, y, n, |from|) && MapsMade(maps, cuts, from, starts, n) && |starts| == |from| + 1
    modifies set a | a in temps
    ensures forall u: nat, p: nat :: u < |from| && p + 1 < n && Met(Points(from[u].loaded), starts[u], p + 1) ==> temps[u][p] == 0.0
  {
    hide Met, SymMap.MapsFor, Points, LoadedPoints, RemoteIn;
    var i := 0;
    NrMaps(maps, cuts, from, starts, n);
    while i < |maps|
      invariant 0 <= i <= |maps|
      invariant forall j, u: nat, p: nat :: 0 <= j < i && u < |from| && p < n && SymMap.Slot(u, p) in maps[j] ==> temps[u][p] == 0.0
    {
      MapFits(maps, cuts, from, starts, n, i);
      SymSpmv.InitFromMap(temps, maps[i]);
      i := i + 1;
    }
    forall u: nat, p: nat | u < |from| && p + 1 < n && Met(Points(from[u].loaded), starts[u], p + 1)
      ensures temps[u][p] == 0.0
    {
      var j := MapOf(maps, cuts, from, starts, n, u, p);
    }
  }

  lemma NrMaps(maps: seq<seq<SymMap.Slot>>, cuts: seq<nat>, from: seq<Source>, starts: seq<nat>, n: nat)
    requires MapsMade(maps, cuts, from, starts, n)
    ensures |maps| == |from|
  {
  }

  lemma MapOf(maps: seq<seq<SymMap.Slot>>, cuts: seq<nat>, from: seq<Source>, starts: seq<nat>, n: nat, u: nat,
              p: nat) returns (j: nat)
    requires MapsMade(maps, cuts, from, starts, n) && |starts| == |from| + 1 && u < |from| && p + 1 < n
    requires Met(Points(from[u].loaded), starts[u], p + 1)
    ensures j < |maps| && SymMap.Slot(u, p) in maps[j]
  {
    hide Met;
    j := SymMap.Covered(maps, cuts, RemoteIn(LoadedPoints(from), starts), |from|, n, 1, u, p + 1);
  }

  /** The third phase adds every listed cell to y once. */
  method AddAll(y: array<real>, temps: seq<array<real>>, maps: seq<seq<SymMap.Slot>>, n: nat,
                ghost cuts: seq<nat>, ghost from: seq<Source>, ghost starts: seq<nat>, ghost tv: seq<seq<real>>)
    requires Room(temps, y, n, |from|) && MapsMade(maps, cuts, from, starts, n)
    requires |tv| == |temps| && forall c :: 0 <= c < |temps| ==> tv[c] == temps[c][..]
    modifies y
    ensures forall p :: 0 <= p < n ==> y[p] == old(y[p]) + GatherAll(tv, maps, p)
  {
    hide MapsMade, Gather;
    var i := 0;
    assert maps[..0] == [];
    while i < |maps|
      invariant 0 <= i <= |maps|
      invariant forall p :: 0 <= p < n ==> y[p] == old(y[p]) + GatherAll(tv, maps[..i], p)
    {
      MapFits(maps, cuts, from, starts, n, i);
      FitsTemps(temps, maps[i], n);
      SymSpmv.AddFromMap(y, temps, maps[i]);
      forall p: nat | p < n
        ensures SymSpmv.Gathered(temps, maps[i], p) == Gather(tv, maps[i], p)
      {
        GatheredIs(temps, tv, maps[i], p);
      }
      assert maps[..i + 1][..i] == maps[..i];
      i := i + 1;
    }
    assert maps[..i] == maps;
  }

  lemma FitsTemps(temps: seq<array<real>>, list: seq<SymMap.Slot>, n: nat)
    requires forall t :: t in list ==> t.cpu < |temps| && t.pos + 1 < n
    requires forall c :: 0 <= c < |temps| ==> temps[c].Length == n
    ensures SymSpmv.Fits(temps, list)
    ensures forall k :: 0 <= k < |list| ==> list[k].pos < n
  {
    forall k | 0 <= k < |list|
      ensures list[k].cpu < |temps| && list[k].pos + 1 < n
    {
      assert list[k] in list;
    }
  }

  lemma {:induction false} GatheredIs(temps: seq<array<real>>, tv: seq<seq<real>>, list: seq<SymMap.Slot>, p: nat)
    requires SymSpmv.Fits(temps, list) && |tv| == |temps| && forall c :: 0 <= c < |temps| ==> tv[c] == temps[c][..]
    ensures SymSpmv.Gathered(temps, list, p) == Gather(tv, list, p)
  {
    if list != [] {
      GatheredIs(temps, tv, list[..|list| - 1], p);
    }
  }

  /** Row p of the product of the whole matrix, p a row of part t. */
  ghost predicate RowRight(yp: real, parts: seq<CsxSym>, from: seq<Source>, starts: seq<nat>, x: seq<real>, p: nat,
                           t: nat)
    requires |parts| == |from| <= |starts| && t < |parts| && p < |x|
  {
    && starts[t] <= p < starts[t] + |parts[t].dvalues|
    && yp == x[p] * parts[t].dvalues[p - starts[t]] + Contributions(from, starts, |from|, x, p)
  }

  /** Row p, a row of part t, after a round: the diagonal, or what was there before when
      the row is behind the last element of the part, and what all parts add to it. */
  ghost predicate RowIs(yp: real, y0p: real, parts: seq<CsxSym>, from: seq<Source>, starts: seq<nat>, x: seq<real>,
                        p: nat, t: nat)
    requires |parts| == |from| <= |starts| && t < |parts| && p < |x|
  {
    && starts[t] <= p < starts[t] + |parts[t].dvalues|
    && yp == (if p < starts[t] + from[t].d.rows then x[p] * parts[t].dvalues[p - starts[t]] else y0p)
               + Contributions(from, starts, |from|, x, p)
  }

  /** All rows of part t are so. */
  ghost predicate PartEnds(y: seq<real>, y0: seq<real>, parts: seq<CsxSym>, from: seq<Source>, starts: seq<nat>,
                         x: seq<real>, t: nat)
    requires |parts| == |from| < |starts| && t < |parts|
  {
    && starts[t + 1] <= |y| == |y0| == |x|
    && forall p :: starts[t] <= p < starts[t + 1] ==> RowIs(y[p], y0[p], parts, from, starts, x, p, t)
  }

  /** A part that reaches its last row comes out right. */
  lemma CompleteIsRight(y: seq<real>, y0: seq<real>, parts: seq<CsxSym>, from: seq<Source>, starts: seq<nat>,
                        x: seq<real>, t: nat)
    requires AllComplete(parts, from) && |from| < |starts| && t < |parts| && PartEnds(y, y0, parts, from, starts, x, t)
    ensures PartIsRight(y, parts, from, starts, x, t)
  {
    hide Contributions;
    assert parts[t] == parts[t];
    forall p | starts[t] <= p < starts[t + 1]
      ensures RowRight(y[p], parts, from, starts, x, p, t)
    {
      assert RowIs(y[p], y0[p], parts, from, starts, x, p, t);
    }
  }

  /** All rows of part t are right. */
  ghost predicate PartIsRight(y: seq<real>, parts: seq<CsxSym>, from: seq<Source>, starts: seq<nat>, x: seq<real>,
                              t: nat)
    requires |parts| == |from| < |starts| && t < |parts|
  {
    starts[t + 1] <= |y| == |x| && forall p :: starts[t] <= p < starts[t + 1] ==> RowRight(y[p], parts, from, starts, x, p, t)
  }

  /** One multiplication by all parts: zero by map, multiply, add by map.  Whatever the
      temporary vectors held, every row that its part reaches becomes that row of the
      product of the whole symmetric matrix; the others only get what falls on them.  The
      parts are multiplied one after another here; `steps` are their writes, and
      `CsxThreads.EveryCsxRunMultiplies` runs them in any interleaving. */
  method SymRound(parts: seq<CsxSym>, starts: seq<nat>, maps: seq<seq<SymMap.Slot>>, n: nat, x: seq<real>,
                  y: array<real>,
                  temps: seq<array<real>>, ghost cuts: seq<nat>, ghost from: seq<Source>, ghost xv: nat)
    returns (ghost steps: seq<seq<Op<Cell>>>)
    requires xv < 2 && AllReady(parts, from, starts, n) && MapsMade(maps, cuts, from, starts, n) && |x| == n
         && Room(temps, y, n, |parts|)
    modifies y, set a | a in temps
    ensures forall t :: 0 <= t < |parts| ==> PartEnds(y[..], old(y[..]), parts, from, starts, x, t)
    ensures AllPerform(steps, parts, from, starts, n, xv)
  {
    hide AllPerform, PartReady, MapsMade, RowsDone, TempsDone, Met, Points, PartEnds, GatherAll, Gather, AllReady,
         Zeroed;
    ReadySizes(parts, from, starts, n);
    ZeroAll(temps, maps, y, n, cuts, from, starts);
    ghost var before := Snapshot(temps, 0);
    ZeroedNow(temps, before, from, starts, n);
    steps := MultiplyAll(parts, starts, n, x, y, temps, from, before, xv);
    ghost var tv, y1 := Snapshot(temps, 0), y[..];
    AddAll(y, temps, maps, n, cuts, from, starts, tv);
    forall t | 0 <= t < |parts|
      ensures PartEnds(y[..], old(y[..]), parts, from, starts, x, t)
    {
      PartAdds(parts, from, starts, maps, cuts, n, before, tv, x, t, old(y[..]), y1, y[..]);
    }
  }

  lemma ReadySizes(parts: seq<CsxSym>, from: seq<Source>, starts: seq<nat>, n: nat)
    requires AllReady(parts, from, starts, n)
    ensures |parts| == |from| && |starts| == |parts| + 1
  {
  }

  /** Every cell that a part will touch is zero. */
  ghost predicate Zeroed(before: seq<seq<real>>, from: seq<Source>, starts: seq<nat>, n: nat) {
    && |before| == |from| < |starts|
    && forall u: nat, p: nat :: u < |from| && p + 1 < n && p < |before[u]| && Met(Points(from[u].loaded), starts[u], p + 1) ==> before[u][p] == 0.0
  }

  lemma ZeroedNow(temps: seq<array<real>>, before: seq<seq<real>>, from: seq<Source>, starts: seq<nat>, n: nat)
    requires |starts| == |from| + 1 && |temps| == |from| == |before| && forall c :: 0 <= c < |temps| ==> before[c] == temps[c][..] && temps[c].Length == n
    requires forall u: nat, p: nat :: u < |from| && p + 1 < n && Met(Points(from[u].loaded), starts[u], p + 1) ==> temps[u][p] == 0.0
    ensures Zeroed(before, from, starts, n)
  {
    hide Met, Points;
  }

  lemma PartAdds(parts: seq<CsxSym>, from: seq<Source>, starts: seq<nat>, maps: seq<seq<SymMap.Slot>>, cuts: seq<nat>,
                 n: nat,
                 before: seq<seq<real>>, tv: seq<seq<real>>, x: seq<real>, t: nat, y0: seq<real>, y1: seq<real>, y2: seq<real>)
    requires AllReady(parts, from, starts, n) && MapsMade(maps, cuts, from, starts, n) && t < |parts|
         && |x| == |y0| == |y1| == |y2| == n
    requires Zeroed(before, from, starts, n) && |tv| == |from|
    requires forall k {:trigger tv[k]} :: 0 <= k < |from| ==> TempsDone(tv[k], before[k], from[k], starts[k], x)
    requires RowsDone(y1, y0, parts[t], from[t], starts[t], starts[t + 1], x)
    requires forall p :: 0 <= p < n ==> y2[p] == y1[p] + GatherAll(tv, maps, p)
    ensures PartEnds(y2, y0, parts, from, starts, x, t)
  {
    hide PartReady, MapsMade, RowsDone, TempsDone, RowIs, GatherAll, AllReady, Zeroed, Held;
    ReadySizes(parts, from, starts, n);
    RowsFitIn(parts, from, starts, n);
    forall p | starts[t] <= p < starts[t + 1]
      ensures RowIs(y2[p], y0[p], parts, from, starts, x, p, t)
    {
      AllHeld(maps, cuts, from, starts, n, before, tv, x, p);
      RowAdds(parts, from, starts, maps, cuts, n, tv, x, p, t, y0, y1);
    }
  }

  lemma RowsFitIn(parts: seq<CsxSym>, from: seq<Source>, starts: seq<nat>, n: nat)
    requires AllReady(parts, from, starts, n)
    ensures |starts| == |parts| + 1 && forall t {:trigger starts[t + 1]} :: 0 <= t < |parts| ==> starts[t + 1] <= n
  {
    hide PartReady;
  }

  lemma AllHeld(maps: seq<seq<SymMap.Slot>>, cuts: seq<nat>, from: seq<Source>, starts: seq<nat>, n: nat,
                before: seq<seq<real>>, tv: seq<seq<real>>, x: seq<real>, p: nat)
    requires MapsMade(maps, cuts, from, starts, n) && |starts| == |from| + 1
    requires Zeroed(before, from, starts, n) && |tv| == |from|
    requires forall k {:trigger tv[k]} :: 0 <= k < |from| ==> TempsDone(tv[k], before[k], from[k], starts[k], x)
    ensures Held(tv, from, starts, x, p)
  {
    hide MapsMade, TempsDone, Met, Points, Val, Cells, Sum, MirrorTerm;
    forall u: nat | u < |from| && p < starts[u] && Met(Points(from[u].loaded), starts[u], p + 1)
      ensures Val(tv, u, p) == Sum(from[u].Es(), MirrorTerm(p, starts[u], x))
    {
      assert TempsDone(tv[u], before[u], from[u], starts[u], x);
      TempHeld(maps, cuts, from, starts, n, before[u], tv, x, u, p);
    }
  }

  /** What the temporary vectors hold now. */
  ghost function Snapshot(temps: seq<array<real>>, i: nat): (r: seq<seq<real>>)
    requires i <= |temps|
    reads set a | a in temps
    ensures |r| == |temps| - i && forall c {:trigger r[c]} :: 0 <= c < |r| ==> r[c] == temps[i + c][..]
    decreases |temps| - i
  {
    if i == |temps| then [] else [temps[i][..]] + Snapshot(temps, i + 1)
  }

  lemma TempHeld(maps: seq<seq<SymMap.Slot>>, cuts: seq<nat>, from: seq<Source>, starts: seq<nat>, n: nat,
                 before: seq<real>,
                 tv: seq<seq<real>>, x: seq<real>, u: nat, p: nat)
    requires MapsMade(maps, cuts, from, starts, n) && |starts| == |from| + 1 && u < |from| == |tv| && p < starts[u]
    requires Met(Points(from[u].loaded), starts[u], p + 1) && TempsDone(tv[u], before, from[u], starts[u], x)
    requires p + 1 < n && p < |before| ==> before[p] == 0.0
    ensures Val(tv, u, p) == Sum(from[u].Es(), MirrorTerm(p, starts[u], x))
  {
    hide Points, Sum, MirrorTerm, Cells;
    var c :| c in Points(from[u].loaded) && c.e.x == p + 1;
    assert c in LoadedPoints(from)[u];
  }

  lemma RowAdds(parts: seq<CsxSym>, from: seq<Source>, starts: seq<nat>, maps: seq<seq<SymMap.Slot>>, cuts: seq<nat>,
                n: nat,
                tv: seq<seq<real>>, x: seq<real>, p: nat, t: nat, y0: seq<real>, y1: seq<real>)
    requires AllReady(parts, from, starts, n) && MapsMade(maps, cuts, from, starts, n) && t < |parts|
         && starts[t] <= p < starts[t + 1] <= n
    requires Held(tv, from, starts, x, p) && |x| == |y0| == |y1| == n
    requires RowsDone(y1, y0, parts[t], from[t], starts[t], starts[t + 1], x)
    ensures RowIs(y1[p] + GatherAll(tv, maps, p), y0[p], parts, from, starts, x, p, t)
  {
    hide PartReady, Cells, Contributions, FromRemote, GatherAll, RowTerm, MirrorTerm, Sum, Met, Points;
    var remote := RemoteIn(LoadedPoints(from), starts);
    AllContribute(parts, from, starts, n, tv, x, p, t, |parts|);
    NoneAtZero(LoadedPoints(from), starts, n);
    GatherMaps(tv, maps, cuts, remote, |from|, n, p, |maps|);
    assert maps[..|maps|] == maps;
    if p + 1 == n {
      LastColumn(from, starts, n, tv, |from|);
    }
    PartLower(parts[t], from[t], starts[t]);
    if p >= starts[t] + from[t].d.rows {
      OtherPart(from[t], starts[t], x, p);
    }
  }

  /** No part lists the last column. */
  lemma {:induction false} LastColumn(from: seq<Source>, starts: seq<nat>, n: nat, tv: seq<seq<real>>, k: nat)
    requires n >= 1 && k <= |from| && forall i, c :: 0 <= i < |from| && c in LoadedPoints(from)[i] ==> 1 <= c.e.x < n
    ensures FromRemote(tv, RemoteIn(LoadedPoints(from), starts), k, n - 1) == 0.0
  {
    hide LoadedPoints;
    if k > 0 {
      LastColumn(from, starts, n, tv, k - 1);
    }
  }

  // ----- From a loaded part to a printed one

  /** Cuts, encodes, merges and prints one part. */
  method PreparePart(sym: SpmSym, xforms: seq<nat>, deltas: Option<seq<seq<nat>>>, full: bool)
    returns (part: Option<CsxSym>, ghost s: Source)
    requires sym.lower.Valid() && Valid(Horizontal, sym.lower.dims, sym.lower.rows) && AllSingles(sym.lower.rows)
    requires |sym.lower.rows| == sym.lower.dims.rows <= |sym.diagonal| && sym.lower.dims.cols <= 0x1_0000_0000
    requires Cells(Horizontal, sym.lower.dims, sym.lower.rows) != []
    requires Lower(Cells(Horizontal, sym.lower.dims, sym.lower.rows), sym.rowStart, sym.lower.dims.rows)
    requires DeltasOk(Params(4, 254, 0.05, false, false, false), xforms, deltas)
    modifies sym
    ensures s.d == old(sym.lower.dims) && s.loaded == old(sym.lower.rows)
    ensures part.Some? ==> PartReady(part.value, s.us, s.d, s.encoded, s.loaded, sym.rowStart) && part.value.dvalues == sym.diagonal
    ensures part.Some? <==> FlagsFit(s.encoded, sym.rowStart)
    ensures multiset(Cells(Horizontal, s.d, s.encoded)) == multiset(Cells(Horizontal, s.d, s.loaded))
    ensures PartEncoded(s.d, sym.rowStart, xforms, deltas, s.loaded, s.encoded)
  {
    hide Valid, Spm.Valid, Cells, AllSingles, Lower, DeltasOk, PartPrepared, Represents, FlagsFit, PartEncoded;
    ghost var d, loaded := sym.lower.dims, sym.lower.rows;
    EncodePart(sym, xforms, deltas);
    ghost var us;
    part, us := MakeCsxSym(sym, full, loaded);
    s := Source(us, d, sym.lower.rows, loaded);
    PreparedCells(d, loaded, sym.lower.rows, sym.rowStart);
    if part.Some? {
      SameSize(Cells(Horizontal, d, sym.lower.rows), Cells(Horizontal, d, loaded));
      SomeUnit(part.value.lower, us, d, sym.lower.rows, sym.rowStart);
    }
  }

  lemma PreparedCells(d: Dims, rows0: Rows, rows: Rows, cut: nat)
    requires PartPrepared(d, rows0, rows, cut)
    ensures multiset(Cells(Horizontal, d, rows)) == multiset(Cells(Horizontal, d, rows0))
  {
    hide Cells, RowsWell, RowsSided, SmallPatterns;
  }

  // ----- The product is that of the symmetric matrix

  /** The elements of a part at their places in the whole matrix, 0-based. */
  function Shifted(es: seq<Entry>, rs: nat): (r: seq<Entry>)
    ensures |r| == |es|
    ensures forall i {:trigger r[i]} :: 0 <= i < |es| ==> r[i] == Entry(Coord(es[i].at.y - 1 + rs, es[i].at.x - 1), es[i].val)
  {
    seq(|es|, i requires 0 <= i < |es| => Entry(Coord(es[i].at.y - 1 + rs, es[i].at.x - 1), es[i].val))
  }

  /** The strictly lower triangle: the elements of the first k parts. */
  function Triangle(from: seq<Source>, starts: seq<nat>, k: nat): seq<Entry>
    requires k <= |from| && k <= |starts|
  {
    if k == 0 then [] else Triangle(from, starts, k - 1) + Shifted(from[k - 1].Es(), starts[k - 1])
  }

  lemma {:induction false} ShiftedSums(es: seq<Entry>, rs: nat, x: seq<real>, p: nat)
    ensures Sum(Shifted(es, rs), SymSpmv.RowPart(p, x)) == RowProduct(es, x, p - rs + 1)
    ensures Sum(Shifted(es, rs), SymSpmv.ColPart(p, x)) == Sum(es, MirrorTerm(p, rs, x))
  {
    if es != [] {
      var n := |es| - 1;
      ShiftedSums(es[..n], rs, x, p);
      assert Shifted(es, rs)[..n] == Shifted(es[..n], rs);
      ShiftedTerms(es[n], rs, x, p);
    }
  }

  lemma ShiftedTerms(e: Entry, rs: nat, x: seq<real>, p: nat)
    ensures var e' := Entry(Coord(e.at.y - 1 + rs, e.at.x - 1), e.val);
            && SymSpmv.RowPart(p, x)(e') == RowTerm(p - rs + 1, x)(e)
            && SymSpmv.ColPart(p, x)(e') == MirrorTerm(p, rs, x)(e)
  {
  }

  /** What the parts add up to is the lower triangle and its mirror image. */
  lemma {:induction false} ContributionsAre(from: seq<Source>, starts: seq<nat>, k: nat, x: seq<real>, p: nat)
    requires k <= |from| && k <= |starts|
    ensures Contributions(from, starts, k, x, p)
         == Sum(Triangle(from, starts, k), SymSpmv.RowPart(p, x))
              + Sum(Triangle(from, starts, k), SymSpmv.ColPart(p, x))
  {
    hide Sum, RowProduct, Cells, Shifted;
    if k == 0 {
      SymSpmv.SumZero([], SymSpmv.RowPart(p, x));
      SymSpmv.SumZero([], SymSpmv.ColPart(p, x));
    } else {
      ContributionsAre(from, starts, k - 1, x, p);
      var es := from[k - 1].Es();
      ShiftedSums(es, starts[k - 1], x, p);
      SumConcat(Triangle(from, starts, k - 1), Shifted(es, starts[k - 1]), SymSpmv.RowPart(p, x));
      SumConcat(Triangle(from, starts, k - 1), Shifted(es, starts[k - 1]), SymSpmv.ColPart(p, x));
    }
  }

  /** The parts hold exactly the matrix `crs`. */
  ghost predicate PartsOf(parts: seq<CsxSym>, from: seq<Source>, starts: seq<nat>, crs: SymMap.Crs)
    requires crs.Valid()
  {
    && |parts| == |from| < |starts|
    && multiset(Triangle(from, starts, |from|)) == multiset(SymSpmv.Entries(crs, 0, crs.n))
    && forall t {:trigger parts[t]} :: 0 <= t < |parts| ==>
         forall i :: 0 <= i < |parts[t].dvalues| ==> starts[t] + i < crs.n && parts[t].dvalues[i] == crs.dvalues[starts[t] + i]
  }

  /** A right row is the row of the product that the row-by-row format computes. */
  lemma RightIsProduct(yp: real, parts: seq<CsxSym>, from: seq<Source>, starts: seq<nat>, x: seq<real>, p: nat, t: nat,
                       crs: SymMap.Crs)
    requires crs.Valid() && PartsOf(parts, from, starts, crs) && |x| == crs.n && t < |parts| && p < crs.n
    requires RowRight(yp, parts, from, starts, x, p, t)
    ensures yp == SymSpmv.Product(crs, x)[p]
  {
    hide Triangle, SymSpmv.Entries, Sum, Contributions;
    ContributionsAre(from, starts, |from|, x, p);
    var a, b := Triangle(from, starts, |from|), SymSpmv.Entries(crs, 0, crs.n);
    SumPerm(a, b, SymSpmv.RowPart(p, x));
    SumPerm(a, b, SymSpmv.ColPart(p, x));
    assert parts[t].dvalues[p - starts[t]] == crs.dvalues[p];
  }

}

/** The byte stream of a CSX matrix: its number formats, its units, and what a
    stream of units stands for.

    A unit is [flags][size][row jump][column][deltas]; see the layout in
    `UnitBytes`.  `StreamPlaces` is the meaning of a list of units: the matrix
    cells it visits, in the order in which values are consumed. */
module Ctl {
  import opened Orders
  import opened Matrix
  import opened Products
  import opened Seqs

  type byte = b: int | 0 <= b < 256

  const PID_OFFSET: nat := 10000
  const SIZE_MAX: nat := 255
  const PATTERNS_MAX: nat := 63

  // ----- Variable-length numbers: 7 bits a byte, the top bit says more follow

  function PutUl(v: nat): (r: seq<byte>)
    ensures r != []
  {
    if v < 128 then [v] else [v % 128 + 128] + PutUl(v / 128)
  }

  function Pow128(n: nat): (r: nat)
    ensures r >= 1
  {
    if n == 0 then 1 else 128 * Pow128(n - 1)
  }

  /** No byte too many: with one byte less the number would not fit. */
  lemma {:induction false} PutUlShortest(v: nat)
    ensures v < Pow128(|PutUl(v)|) && (|PutUl(v)| > 1 ==> v >= Pow128(|PutUl(v)| - 1))
    decreases v
  {
    if v >= 128 {
      PutUlShortest(v / 128);
      assert |PutUl(v)| == 1 + |PutUl(v / 128)|;
      if |PutUl(v / 128)| == 1 {
        assert Pow128(1) == 128 * Pow128(0);
      }
    } else {
      assert Pow128(1) == 128 * Pow128(0);
    }
  }

  // ----- Fixed-width numbers, little endian

  function PutLE(v: nat, w: nat): (r: seq<byte>)
    ensures |r| == w
    decreases w
  {
    if w == 0 then [] else [v % 256] + PutLE(v / 256, w - 1)
  }

  function GetLE(bs: seq<byte>): nat {
    if bs == [] then 0 else bs[0] + 256 * GetLE(bs[1..])
  }

  function Pow256(w: nat): (r: nat)
    ensures r >= 1
  {
    if w == 0 then 1 else 256 * Pow256(w - 1)
  }

  lemma {:induction false} LERoundTrip(v: nat, w: nat)
    requires v < Pow256(w)
    ensures GetLE(PutLE(v, w)) == v
    decreases w
  {
    if w > 0 {
      LERoundTrip(v / 256, w - 1);
      assert PutLE(v, w)[1..] == PutLE(v / 256, w - 1);
    }
  }

  function PutAll(vs: seq<nat>, w: nat): (r: seq<byte>)
  {
    if vs == [] then [] else PutAll(vs[..|vs| - 1], w) + PutLE(vs[|vs| - 1], w)
  }

  lemma {:induction false} PutAllLength(vs: seq<nat>, w: nat)
    ensures |PutAll(vs, w)| == Times(w, |vs|)
  {
    hide Times;
    if vs == [] {
      TimesZero(w);
    } else {
      PutAllLength(vs[..|vs| - 1], w);
      StepOnce(0, w, |vs|);
    }
  }

  /** The i-th number of a list lies at its place. */
  lemma {:induction false} PutAllAt(vs: seq<nat>, w: nat, i: nat)
    requires i < |vs|
    ensures 0 <= Times(w, i) && Times(w, i) + w <= |PutAll(vs, w)|
    ensures PutAll(vs, w)[Times(w, i)..Times(w, i) + w] == PutLE(vs[i], w)
  {
    hide Times, PutLE;
    var n := |vs| - 1;
    PutAllLength(vs[..n], w);
    var f := PutAll(vs[..n], w);
    if i < n {
      PutAllAt(vs[..n], w, i);
      SliceLeft(f, PutLE(vs[n], w), Times(w, i), Times(w, i) + w);
    } else {
      SliceRight(f, PutLE(vs[n], w));
    }
  }

  // ----- Flags

  function SetNr(b: byte): byte { if b >= 128 then b else b + 128 }
  function SetRjmp(b: byte): byte { if b / 64 % 2 == 1 then b else b + 64 }
  predicate TestNr(b: byte) { b >= 128 }
  predicate TestRjmp(b: byte) { b / 64 % 2 == 1 }

  // ----- Units

  /** `jump` is the number of rows the unit moves down (0: same row), `ucol` the
      column field, `id` the pattern id, `deltas` the column steps of a delta unit. */
  datatype Unit = Unit(flag: nat, jump: nat, ucol: nat, size: nat, id: nat, deltas: seq<nat>)
  {
    predicate IsDelta() { id < PID_OFFSET }

    /** Bytes of one delta. */
    function Width(): nat { id / 8 }

    function Type(): Order { OfCode(id / PID_OFFSET) }

    function Param(): nat { id % PID_OFFSET }
  }

  /** The smallest of the three delta widths that holds m. */
  function DeltaBytes(m: nat): nat {
    if m < 256 then 1 else if m < 65536 then 2 else 4
  }

  /** It holds m, and no smaller width does. */
  lemma DeltaBytesFit(m: nat)
    requires m < 0x1_0000_0000
    ensures m < Pow256(DeltaBytes(m)) && DeltaBytes(m) in {1, 2, 4}
    ensures forall w: nat :: w < DeltaBytes(m) && w in {1, 2, 4} ==> m >= Pow256(w)
  {
    assert Pow256(0) == 1;
    assert Pow256(1) == 256;
    assert Pow256(2) == 65536;
    assert Pow256(3) == 0x100_0000;
    assert Pow256(4) == 0x1_0000_0000;
  }

  /** Padding up to the next multiple of the width. */
  function Pad(pos: nat, w: nat): (n: nat)
    ensures w >= 1 ==> n < w
  {
    if w == 0 then 0 else if pos % w == 0 then 0 else w - pos % w
  }

  function Zeros(n: nat): (r: seq<byte>)
    ensures |r| == n
  {
    seq(n, _ => 0)
  }

  function FlagByte(u: Unit): byte {
    var b := u.flag % 256;
    var b' := if u.jump > 0 then SetNr(b) else b;
    if u.jump > 1 then SetRjmp(b') else b'
  }

  /** Flags, size, row jump. */
  function HeadBytes(u: Unit): seq<byte> {
    [FlagByte(u), u.size % 256] + (if u.jump > 1 then PutUl(u.jump) else [])
  }

  function ColBytes(full: bool, u: Unit): seq<byte> {
    if full then PutLE(u.ucol, 4) else PutUl(u.ucol)
  }

  /** Padding and deltas of a unit whose column field ends at `pos`. */
  function TailBytes(pos: nat, u: Unit): seq<byte> {
    if u.deltas == [] then [] else Zeros(Pad(pos, u.Width())) + PutAll(u.deltas, u.Width())
  }

  function Emit(full: bool, us: seq<Unit>): seq<byte> {
    if us == [] then []
    else EmitUnit(full, Emit(full, us[..|us| - 1]), us[|us| - 1])
  }

  function EmitUnit(full: bool, before: seq<byte>, u: Unit): seq<byte> {
    var pos := |before| + |HeadBytes(u)| + |ColBytes(full, u)|;
    before + HeadBytes(u) + ColBytes(full, u) + TailBytes(pos, u)
  }

  lemma EmitSnoc(full: bool, us: seq<Unit>, u: Unit)
    ensures Emit(full, us + [u]) == EmitUnit(full, Emit(full, us), u)
  {
    Snoc(us, u);
  }

  /** The stream of the first k units is a prefix of the whole stream. */
  lemma {:induction false} EmitPrefix(full: bool, us: seq<Unit>, k: nat)
    requires k <= |us|
    ensures Emit(full, us[..k]) <= Emit(full, us)
  {
    hide HeadBytes, ColBytes, TailBytes;
    var n := |us|;
    if k < n {
      EmitPrefix(full, us[..n - 1], k);
      TakeTake(us, k, n - 1);
    } else {
      Whole(us);
    }
  }

  // ----- Meaning of a stream

  /** Where the stream is: 0-based row and column of the last element visited. */
  datatype Cursor = Cursor(row: int, col: int)

  /** Where a unit starts. */
  function StartAt(full: bool, cur: Cursor, u: Unit): Cursor {
    Cursor(cur.row + u.jump, if full then u.ucol else if u.jump > 0 then u.ucol else cur.col + u.ucol)
  }

  function SumOf(ds: seq<nat>): nat {
    if ds == [] then 0 else SumOf(ds[..|ds| - 1]) + ds[|ds| - 1]
  }

  /** Columns of a delta unit that starts at `col`. */
  function DeltaPlaces(row: int, col: int, ds: seq<nat>): seq<Coord> {
    if ds == [] then [Coord(row + 1, col + 1)]
    else DeltaPlaces(row, col, ds[..|ds| - 1]) + [Coord(row + 1, col + SumOf(ds) + 1)]
  }

  /** The cells that n steps of a pattern touch. */
  function PatternPlaces(o: Order, a: Coord, n: nat, delta: nat): (r: seq<Coord>)
    ensures |r| == n
    ensures forall k {:trigger r[k]} :: 0 <= k < n ==> r[k] == UnitCell(o, a, k, delta)
  {
    seq(n, k requires 0 <= k < n => UnitCell(o, a, k, delta))
  }

  /** The column step of a pattern unit: 1 inside a block. */
  function StepOf(u: Unit): nat {
    if u.Type().Align() != 0 then 1 else u.Param()
  }

  /** How many elements the generated routine of a pattern unit handles. */
  function CountOf(u: Unit): nat {
    if u.Type().Align() != 0 then u.Type().Align() * u.Param() else u.size
  }

  function UnitPlaces(u: Unit, at: Cursor): seq<Coord> {
    if u.IsDelta() then DeltaPlaces(at.row, at.col, u.deltas)
    else PatternPlaces(u.Type(), Coord(at.row + 1, at.col + 1), CountOf(u), StepOf(u))
  }

  /** Each unit leaves the column at the last element of its row that it visited. */
  function EndAt(u: Unit, at: Cursor): Cursor {
    if u.IsDelta() then Cursor(at.row, at.col + SumOf(u.deltas))
    else if u.Type() == Horizontal then Cursor(at.row, at.col + Times(u.Param(), u.size - 1))
    else at
  }

  function CursorAfter(full: bool, us: seq<Unit>): Cursor {
    if us == [] then Cursor(0, 0)
    else
      var u := us[|us| - 1];
      EndAt(u, StartAt(full, CursorAfter(full, us[..|us| - 1]), u))
  }

  function StreamPlaces(full: bool, us: seq<Unit>): seq<Coord> {
    if us == [] then []
    else
      var init, u := us[..|us| - 1], us[|us| - 1];
      StreamPlaces(full, init) + UnitPlaces(u, StartAt(full, CursorAfter(full, init), u))
  }

  lemma StreamSnoc(full: bool, us: seq<Unit>, u: Unit)
    ensures StreamPlaces(full, us + [u]) == StreamPlaces(full, us)
         + UnitPlaces(u, StartAt(full, CursorAfter(full, us), u))
    ensures CursorAfter(full, us + [u]) == EndAt(u, StartAt(full, CursorAfter(full, us), u))
  {
    Snoc(us, u);
  }

  /** A unit starts at its first place. */
  lemma FirstPlace(full: bool, u: Unit, at: Cursor)
    requires GoodUnit(full, u)
    ensures |UnitPlaces(u, at)| == u.size >= 1 && UnitPlaces(u, at)[0] == Coord(at.row + 1, at.col + 1)
  {
    if u.IsDelta() {
      DeltaFirst(at.row, at.col, u.deltas);
    } else {
    }
  }

  lemma {:induction false} DeltaFirst(row: int, col: int, ds: seq<nat>)
    ensures |DeltaPlaces(row, col, ds)| == |ds| + 1 && DeltaPlaces(row, col, ds)[0] == Coord(row + 1, col + 1)
  {
    if ds != [] {
      DeltaFirst(row, col, ds[..|ds| - 1]);
    }
  }

  /** The bytes of unit k are found where the units before it end. */
  lemma UnitAt(full: bool, us: seq<Unit>, k: nat) returns (rest: seq<byte>)
    requires k < |us|
    ensures var before, u := Emit(full, us[..k]), us[k];
            var pos := |before| + |HeadBytes(u)| + |ColBytes(full, u)|;
            && |before| <= |Emit(full, us)|
            && Emit(full, us)[|before|..] == HeadBytes(u) + ColBytes(full, u) + TailBytes(pos, u) + rest
            && |Emit(full, us[..k + 1])| == pos + |TailBytes(pos, u)| <= |Emit(full, us)|
  {
    hide HeadBytes, ColBytes, TailBytes, Emit;
    var before, u, all := Emit(full, us[..k]), us[k], Emit(full, us);
    var pos := |before| + |HeadBytes(u)| + |ColBytes(full, u)|;
    EmitPrefix(full, us, k + 1);
    assert us[..k] + [us[k]] == us[..k + 1];
    EmitSnoc(full, us[..k], u);
    var upto := Emit(full, us[..k + 1]);
    rest := all[|upto|..];
    Halves(all, |upto|);
    var unit := HeadBytes(u) + ColBytes(full, u) + TailBytes(pos, u);
    assert upto == before + unit;
    Assoc(before, unit, rest);
    SliceRight(before, unit + rest);
  }

  /** All places of a unit are on the same side of a column as its start. */
  ghost predicate UnitSided(u: Unit, at: Cursor, side: nat) {
    forall p :: p in UnitPlaces(u, at) ==> (p.x - 1 < side <==> at.col < side)
  }

  ghost predicate Sided(full: bool, us: seq<Unit>, side: nat) {
    forall k :: 0 <= k < |us| ==> UnitSided(us[k], StartAt(full, CursorAfter(full, us[..k]), us[k]), side)
  }

  lemma SidedSnoc(full: bool, us: seq<Unit>, u: Unit, side: nat)
    requires Sided(full, us, side) && UnitSided(u, StartAt(full, CursorAfter(full, us), u), side)
    ensures Sided(full, us + [u], side)
  {
    hide UnitSided, CursorAfter, StartAt;
    var vs := us + [u];
    forall k | 0 <= k < |vs|
      ensures UnitSided(vs[k], StartAt(full, CursorAfter(full, vs[..k]), vs[k]), side)
    {
      if k < |us| {
        assert vs[..k] == us[..k];
      } else {
        Snoc(us, u);
      }
    }
  }

  /** Inside a row a unit never starts left of where the stream is. */
  ghost predicate UnitForward(full: bool, u: Unit, cur: Cursor) {
    u.jump == 0 ==> cur.col <= StartAt(full, cur, u).col
  }

  ghost predicate Forward(full: bool, us: seq<Unit>) {
    forall k :: 0 <= k < |us| ==> UnitForward(full, us[k], CursorAfter(full, us[..k]))
  }

  lemma ForwardSnoc(full: bool, us: seq<Unit>, u: Unit)
    requires Forward(full, us) && UnitForward(full, u, CursorAfter(full, us))
    ensures Forward(full, us + [u])
  {
    hide UnitForward, CursorAfter, StartAt;
    var vs := us + [u];
    forall k | 0 <= k < |vs|
      ensures UnitForward(full, vs[k], CursorAfter(full, vs[..k]))
    {
      if k < |us| {
        assert vs[..k] == us[..k];
      } else {
        Snoc(us, u);
      }
    }
  }

  /** A unit as the printer makes it. */
  predicate GoodUnit(full: bool, u: Unit) {
    && 1 <= u.size <= SIZE_MAX
    && (full ==> u.ucol < Pow256(4))
    && (u.IsDelta() ==>
          && u.id in {8, 16, 32}
          && |u.deltas| == u.size - 1 && (u.deltas == [] ==> u.id == 8)
          && forall i :: 0 <= i < |u.deltas| ==> u.deltas[i] < Pow256(u.Width()))
    && (!u.IsDelta() ==>
          && u.deltas == []
          && u.id == u.Type().Code() * PID_OFFSET + u.Param()
          && u.Param() >= 1
          && u.size == CountOf(u))
  }

  function Zipped(ps: seq<Coord>, vs: seq<real>): (r: seq<Entry>)
    requires |ps| == |vs|
    ensures |r| == |ps|
    ensures forall i {:trigger r[i]} :: 0 <= i < |ps| ==> r[i] == Entry(ps[i], vs[i])
  {
    seq(|ps|, i requires 0 <= i < |ps| => Entry(ps[i], vs[i]))
  }
}

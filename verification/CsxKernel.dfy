/** The generated multiplication kernel: an interpreter of the byte stream, with
    one routine for each type of unit.

    `Balanced` is what the kernel keeps after every unit: each cell of y, with the
    running sum of the current row, holds its starting value and exactly the
    products of the entries visited so far. */
module CsxKernel {
  import opened Orders
  import opened Matrix
  import opened Products
  import opened Seqs
  import opened Ctl
  import opened CsxPrinter

  /** The contribution of an entry to row i of the product. */
  function RowTerm(i: int, x: seq<real>): Entry -> real {
    (e: Entry) => if e.at.y == i && 1 <= e.at.x <= |x| then e.val * x[e.at.x - 1] else 0.0
  }

  /** Row i of the product of a list of entries with x. */
  function RowProduct(es: seq<Entry>, x: seq<real>, i: int): real {
    Sum(es, RowTerm(i, x))
  }

  /** One multiplication: y as it is before the first unit, where the rows of the
      matrix begin in it, and the input vector. */
  datatype Job = Job(z: seq<real>, rs: nat, x: seq<real>)
  {
    /** What an entry adds to cell j of y. */
    function Term(j: int): Entry -> real {
      RowTerm(j - rs + 1, x)
    }

    /** Cell j of y holds all products of `acc`; those of cell `at` are partly in `yr`. */
    ghost predicate Balanced(y: seq<real>, acc: seq<Entry>, at: int, yr: real) {
      && |y| == |z|
      && forall j {:trigger y[j]} :: 0 <= j < |y| ==> y[j] + (if j == at then yr else 0.0) == z[j] + Sum(acc, Term(j))
    }

    ghost predicate Fits(ps: seq<Coord>) {
      forall k :: 0 <= k < |ps| ==> 0 <= ps[k].y - 1 + rs < |z| && 1 <= ps[k].x <= |x|
    }
  }

  ghost predicate InRow(es: seq<Entry>, row: int) {
    forall k :: 0 <= k < |es| ==> es[k].at.y == row
  }

  lemma {:induction false} OtherRow(es: seq<Entry>, row: int, i: int, x: seq<real>)
    requires InRow(es, row) && i != row
    ensures Sum(es, RowTerm(i, x)) == 0.0
  {
    if es != [] {
      OtherRow(es[..|es| - 1], row, i, x);
    }
  }

  /** Adding the products of some entries of one row to cell j of y. */
  lemma BalancedAdd(g: Job, y: seq<real>, acc: seq<Entry>, at: int, yr: real, es: seq<Entry>, j: nat, sum: real)
    requires g.Balanced(y, acc, at, yr) && j < |y|
    requires InRow(es, j - g.rs + 1) && sum == Sum(es, g.Term(j))
    ensures g.Balanced(y[j := y[j] + sum], acc + es, at, yr)
  {
    hide RowTerm;
    forall i | 0 <= i < |y|
      ensures y[j := y[j] + sum][i] + (if i == at then yr else 0.0) == g.z[i] + Sum(acc + es, g.Term(i))
    {
      SumConcat(acc, es, g.Term(i));
      if i != j {
        OtherRow(es, j - g.rs + 1, i - g.rs + 1, g.x);
      }
    }
  }

  /** Adding them to the running sum instead. */
  lemma BalancedPending(g: Job, y: seq<real>, acc: seq<Entry>, at: int, yr: real, es: seq<Entry>, sum: real)
    requires g.Balanced(y, acc, at, yr)
    requires InRow(es, at - g.rs + 1) && sum == Sum(es, g.Term(at))
    ensures g.Balanced(y, acc + es, at, yr + sum)
  {
    hide RowTerm;
    forall i | 0 <= i < |y|
      ensures y[i] + (if i == at then yr + sum else 0.0) == g.z[i] + Sum(acc + es, g.Term(i))
    {
      SumConcat(acc, es, g.Term(i));
      if i != at {
        OtherRow(es, at - g.rs + 1, i - g.rs + 1, g.x);
      }
    }
  }

  /** The running sum goes to its row; any row may come next. */
  lemma FoldRow(g: Job, y: seq<real>, acc: seq<Entry>, at: nat, yr: real, next: int)
    requires g.Balanced(y, acc, at, yr) && at < |y|
    ensures g.Balanced(y[at := y[at] + yr], acc, next, 0.0)
  {
    hide RowTerm, Sum;
  }

  lemma BalancedSize(g: Job, y: seq<real>, acc: seq<Entry>, at: int, yr: real)
    requires g.Balanced(y, acc, at, yr)
    ensures |y| == |g.z|
  {
  }

  // ----- Places and values of a unit

  /** The entries of places a..b of a unit whose values begin at v. */
  function Stretch(ps: seq<Coord>, values: seq<real>, v: nat, a: nat, b: nat): (r: seq<Entry>)
    requires a <= b <= |ps| && v + b <= |values|
    ensures |r| == b - a
  {
    Zipped(ps[a..b], values[v + a..v + b])
  }

  lemma StretchMore(ps: seq<Coord>, values: seq<real>, v: nat, a: nat, b: nat)
    requires a <= b < |ps| && v + b < |values|
    ensures Stretch(ps, values, v, a, b + 1) == Stretch(ps, values, v, a, b) + [Entry(ps[b], values[v + b])]
  {
  }

  lemma StretchGlue(ps: seq<Coord>, values: seq<real>, v: nat, a: nat, b: nat)
    requires a <= b <= |ps| && v + b <= |values|
    ensures Stretch(ps, values, v, 0, a) + Stretch(ps, values, v, a, b) == Stretch(ps, values, v, 0, b)
  {
  }

  lemma StretchNone(ps: seq<Coord>, values: seq<real>, v: nat, a: nat)
    requires a <= |ps| && v + a <= |values|
    ensures Stretch(ps, values, v, a, a) == []
  {
  }

  /** All entries of a unit. */
  function UnitEntries(ps: seq<Coord>, values: seq<real>, v: nat): (r: seq<Entry>)
    requires v + |ps| <= |values|
  {
    Stretch(ps, values, v, 0, |ps|)
  }

  lemma SumOne(e: Entry, f: Entry -> real)
    ensures Sum([e], f) == f(e)
  {
    assert [e][..0] == [];
  }

  /** One more product into y. */
  lemma AddPlace(g: Job, y: seq<real>, acc: seq<Entry>, at: int, yr: real,
                 ps: seq<Coord>, values: seq<real>, v: nat, k: nat, j: nat, c: nat)
    requires k < |ps| && v + |ps| <= |values| && ps[k] == Coord(j - g.rs + 1, c + 1) && j < |y| && c < |g.x|
    requires g.Balanced(y, acc + Stretch(ps, values, v, 0, k), at, yr)
    ensures g.Balanced(y[j := y[j] + g.x[c] * values[v + k]], acc + Stretch(ps, values, v, 0, k + 1), at, yr)
  {
    hide Stretch, Job.Balanced;
    var e := Entry(ps[k], values[v + k]);
    StretchMore(ps, values, v, 0, k);
    Assoc(acc, Stretch(ps, values, v, 0, k), [e]);
    SumOne(e, g.Term(j));
    BalancedAdd(g, y, acc + Stretch(ps, values, v, 0, k), at, yr, [e], j, g.x[c] * values[v + k]);
  }

  /** y_j += xr v_k, xr the input at column c. */
  method PutPlace(y: array<real>, j: nat, xr: real, values: seq<real>, vi: nat, ghost c: nat, ghost v: nat,
                  ghost k: nat,
                  ghost g: Job, ghost acc: seq<Entry>, ghost at: int, ghost yr: real, ghost ps: seq<Coord>)
    requires k < |ps| && v + |ps| <= |values| && ps[k] == Coord(j - g.rs + 1, c + 1) && j < y.Length && c < |g.x|
    requires vi == v + k && xr == g.x[c] && g.Balanced(y[..], acc + Stretch(ps, values, v, 0, k), at, yr)
    modifies y
    ensures g.Balanced(y[..], acc + Stretch(ps, values, v, 0, k + 1), at, yr)
  {
    hide Stretch, Job.Balanced;
    ghost var y0 := y[..];
    AddPlace(g, y0, acc, at, yr, ps, values, v, k, j, c);
    y[j] := y[j] + xr * values[vi];
    assert y[..] == y0[j := y0[j] + g.x[c] * values[v + k]];
  }

  /** One more product into a running sum. */
  lemma SumPlace(g: Job, ps: seq<Coord>, values: seq<real>, v: nat, a: nat, k: nat, j: int, c: nat)
    requires a <= k < |ps| && v + |ps| <= |values| && ps[k] == Coord(j - g.rs + 1, c + 1) && c < |g.x|
    ensures Sum(Stretch(ps, values, v, a, k + 1), g.Term(j))
         == Sum(Stretch(ps, values, v, a, k), g.Term(j)) + g.x[c] * values[v + k]
  {
    hide Stretch, Sum;
    StretchMore(ps, values, v, a, k);
    SumSnoc(Stretch(ps, values, v, a, k), Entry(ps[k], values[v + k]), g.Term(j));
  }

  lemma StretchInRow(ps: seq<Coord>, values: seq<real>, v: nat, a: nat, b: nat, row: int)
    requires a <= b <= |ps| && v + b <= |values|
    requires forall k :: a <= k < b ==> ps[k].y == row
    ensures InRow(Stretch(ps, values, v, a, b), row)
  {
  }

  // ----- Reading numbers

  /** A variable-length number. */
  method UlGet(ctl: seq<byte>, at: nat, ghost v: nat, ghost rest: seq<byte>) returns (ret: nat, pos: nat)
    requires at <= |ctl| && ctl[at..] == PutUl(v) + rest
    ensures ret == v && pos == at + |PutUl(v)| <= |ctl| && ctl[pos..] == rest
  {
    ghost var w := v;
    var weight := 1;
    ret := 0;
    pos := at;
    TimesOne(v);
    while ctl[pos] > 127
      invariant at <= pos < |ctl| && ctl[pos..] == PutUl(w) + rest
      invariant weight >= 1 && ret + Times(weight, w) == v
      invariant pos + |PutUl(w)| == at + |PutUl(v)|
      decreases w
    {
      UlByte(w, rest);
      WeightStep(weight, w);
      ret := ret + Times(weight, ctl[pos] - 128);
      weight := weight * 128;
      assert ctl[pos + 1..] == ctl[pos..][1..];
      pos := pos + 1;
      w := w / 128;
    }
    UlByte(w, rest);
    ret := ret + Times(weight, ctl[pos]);
    assert ctl[pos + 1..] == ctl[pos..][1..];
    pos := pos + 1;
  }

  lemma UlByte(w: nat, rest: seq<byte>)
    ensures var bs := PutUl(w) + rest;
            && (bs[0] > 127 <==> w >= 128)
            && (w >= 128 ==> bs[0] - 128 == w % 128 && bs[1..] == PutUl(w / 128) + rest && |PutUl(w)| == 1 + |PutUl(w / 128)|)
            && (w < 128 ==> bs[0] == w && bs[1..] == rest && |PutUl(w)| == 1)
  {
    if w >= 128 {
      Assoc([(w % 128 + 128) as byte], PutUl(w / 128), rest);
    }
  }

  lemma WeightStep(weight: nat, v: nat)
    ensures Times(weight, v % 128) + Times(weight * 128, v / 128) == Times(weight, v)
    ensures weight * 128 >= weight
    ensures Times(weight, v % 128) >= 0
  {
    assert v == v / 128 * 128 + v % 128;
    assert weight * (v / 128 * 128) == weight * 128 * (v / 128);
    assert weight * (v / 128 * 128 + v % 128) == weight * (v / 128 * 128) + weight * (v % 128);
  }

  /** A fixed-width number. */
  lemma FixedGet(ctl: seq<byte>, at: nat, v: nat, w: nat, rest: seq<byte>)
    requires at <= |ctl| && ctl[at..] == PutLE(v, w) + rest && v < Pow256(w)
    ensures at + w <= |ctl| && GetLE(ctl[at..at + w]) == v && ctl[at + w..] == rest
  {
    hide PutLE, GetLE, Pow256;
    LERoundTrip(v, w);
    SliceRight(PutLE(v, w), rest);
    DropDrop(ctl, at, at + w);
    assert ctl[at..at + w] == ctl[at..][..w];
    SliceLeft(PutLE(v, w), rest, 0, w);
    Whole(PutLE(v, w));
  }

  /** The next multiple of the width: the pointer rounding of the generated code. */
  function AlignPtr(pos: nat, w: nat): nat
    requires w >= 1
  {
    (pos + w - 1) / w * w
  }

  lemma AlignIsPad(pos: nat, w: nat)
    requires w >= 1
    ensures AlignPtr(pos, w) == pos + Pad(pos, w)
    ensures w == 1 ==> Pad(pos, w) == 0
  {
    assert pos == pos / w * w + pos % w;
    if pos % w == 0 {
      DivModUnique(pos + w - 1, pos / w, w - 1, w);
    } else {
      DivModUnique(pos + w - 1, pos / w + 1, pos % w - 1, w);
      assert (pos / w + 1) * w == pos / w * w + w;
    }
  }

  // ----- One routine a unit type

  /** What every routine is given: the places of its unit fit, and y is balanced. */
  ghost predicate Ready(g: Job, y: seq<real>, acc: seq<Entry>, at: int, yr: real, ps: seq<Coord>, values: seq<real>,
                        v: nat) {
    g.Balanced(y, acc, at, yr) && g.Fits(ps) && v + |ps| <= |values|
  }

  lemma ReadyStart(g: Job, y: seq<real>, acc: seq<Entry>, at: int, yr: real, ps: seq<Coord>, values: seq<real>, v: nat)
    requires Ready(g, y, acc, at, yr, ps, values, v)
    ensures g.Balanced(y, acc + Stretch(ps, values, v, 0, 0), at, yr) && |y| == |g.z| && v + |ps| <= |values|
  {
    hide Job.Balanced;
    BalancedSize(g, y, acc, at, yr);
    StretchNone(ps, values, v, 0);
    NilRight(acc);
  }

  lemma ReadyPlace(g: Job, y: seq<real>, acc: seq<Entry>, at: int, yr: real, ps: seq<Coord>, values: seq<real>, v: nat,
                   k: nat)
    requires Ready(g, y, acc, at, yr, ps, values, v) && k < |ps|
    ensures 0 <= ps[k].y - 1 + g.rs < |g.z| && 1 <= ps[k].x <= |g.x|
  {
    hide Job.Balanced;
  }

  lemma TimesLess(a: int, k: int, n: int)
    requires a >= 1
    ensures Times(a, k) < Times(a, n) <==> k < n
  {
    if k < n {
      assert a * (n - k) > 0;
    } else {
      assert a * (k - n) >= 0;
    }
  }

  /** One column, every `delta` rows. */
  method VertCase(y: array<real>, yCurr: nat, xCurr: nat, size: nat, delta: nat, values: seq<real>, v: nat,
                  x: seq<real>,
                  ghost g: Job, ghost acc: seq<Entry>, ghost at: int, ghost yr: real)
    requires delta >= 1 && size >= 1 && g.x == x && g.rs <= yCurr
    requires Ready(g, y[..], acc, at, yr, PatternPlaces(Vertical, Coord(yCurr - g.rs + 1, xCurr + 1), size, delta), values, v)
    modifies y
    ensures g.Balanced(y[..], acc + UnitEntries(PatternPlaces(Vertical, Coord(yCurr - g.rs + 1, xCurr + 1), size, delta), values, v), at, yr)
  {
    hide Job.Balanced, Ready, Stretch, Times;
    ghost var ps := PatternPlaces(Vertical, Coord(yCurr - g.rs + 1, xCurr + 1), size, delta);
    ghost var y0 := y[..];
    ReadyStart(g, y[..], acc, at, yr, ps, values, v);
    ReadyPlace(g, y[..], acc, at, yr, ps, values, v, 0);
    var xr := x[xCurr];
    var yi, vi := 0, v;
    ghost var k := 0;
    TimesZero(delta);
    while yi < Times(delta, size)
      invariant 0 <= k <= size && yi == Times(delta, k) && vi == v + k
      invariant |y[..]| == |y0|
      invariant g.Balanced(y[..], acc + Stretch(ps, values, v, 0, k), at, yr)
      decreases size - k
    {
      TimesLess(delta, k, size);
      VertPlace(yCurr - g.rs + 1, xCurr + 1, delta, k);
      ReadyPlace(g, y0, acc, at, yr, ps, values, v, k);
      PutPlace(y, yCurr + yi, xr, values, vi, xCurr, v, k, g, acc, at, yr, ps);
      vi := vi + 1;
      TimesSucc(delta, k);
      yi := yi + delta;
      k := k + 1;
    }
    TimesLess(delta, k, size);
  }

  lemma VertPlace(row: int, col: int, delta: nat, k: nat)
    ensures UnitCell(Vertical, Coord(row, col), k, delta) == Coord(row + Times(delta, k), col)
  {
  }

  /** A diagonal, every `delta` cells. */
  method DiagCase(y: array<real>, yCurr: nat, xCurr: nat, size: nat, delta: nat, values: seq<real>, v: nat,
                  x: seq<real>,
                  ghost g: Job, ghost acc: seq<Entry>, ghost at: int, ghost yr: real)
    requires delta >= 1 && size >= 1 && g.x == x && g.rs <= yCurr
    requires Ready(g, y[..], acc, at, yr, PatternPlaces(Diagonal, Coord(yCurr - g.rs + 1, xCurr + 1), size, delta), values, v)
    modifies y
    ensures g.Balanced(y[..], acc + UnitEntries(PatternPlaces(Diagonal, Coord(yCurr - g.rs + 1, xCurr + 1), size, delta), values, v), at, yr)
  {
    hide Job.Balanced, Ready, Stretch, Times;
    ghost var ps := PatternPlaces(Diagonal, Coord(yCurr - g.rs + 1, xCurr + 1), size, delta);
    ghost var y0 := y[..];
    ReadyStart(g, y[..], acc, at, yr, ps, values, v);
    var i, vi := 0, v;
    ghost var k := 0;
    TimesZero(delta);
    while i < Times(delta, size)
      invariant 0 <= k <= size && i == Times(delta, k) && vi == v + k
      invariant |y[..]| == |y0|
      invariant g.Balanced(y[..], acc + Stretch(ps, values, v, 0, k), at, yr)
      decreases size - k
    {
      TimesLess(delta, k, size);
      DiagPlace(yCurr - g.rs + 1, xCurr + 1, delta, k);
      ReadyPlace(g, y0, acc, at, yr, ps, values, v, k);
      PutPlace(y, yCurr + i, x[xCurr + i], values, vi, xCurr + i, v, k, g, acc, at, yr, ps);
      vi := vi + 1;
      TimesSucc(delta, k);
      i := i + delta;
      k := k + 1;
    }
    TimesLess(delta, k, size);
  }

  lemma DiagPlace(row: int, col: int, delta: nat, k: nat)
    ensures UnitCell(Diagonal, Coord(row, col), k, delta) == Coord(row + Times(delta, k), col + Times(delta, k))
  {
  }

  /** A reverse diagonal: the column pointer walks left and may end outside x. */
  method RdiagCase(y: array<real>, yCurr: nat, xCurr: nat, size: nat, delta: nat, values: seq<real>, v: nat,
                   x: seq<real>,
                  ghost g: Job, ghost acc: seq<Entry>, ghost at: int, ghost yr: real)
    requires delta >= 1 && size >= 1 && g.x == x && g.rs <= yCurr
    requires Ready(g, y[..], acc, at, yr, PatternPlaces(RevDiagonal, Coord(yCurr - g.rs + 1, xCurr + 1), size, delta), values, v)
    modifies y
    ensures g.Balanced(y[..], acc + UnitEntries(PatternPlaces(RevDiagonal, Coord(yCurr - g.rs + 1, xCurr + 1), size, delta), values, v), at, yr)
  {
    hide Job.Balanced, Ready, Stretch, Times;
    ghost var ps := PatternPlaces(RevDiagonal, Coord(yCurr - g.rs + 1, xCurr + 1), size, delta);
    ghost var y0 := y[..];
    ReadyStart(g, y[..], acc, at, yr, ps, values, v);
    var i, vi, xp := 0, v, xCurr as int;
    ghost var k := 0;
    TimesZero(delta);
    while i < Times(delta, size)
      invariant 0 <= k <= size && i == Times(delta, k) && vi == v + k
      invariant |y[..]| == |y0|
      invariant xp == xCurr - i
      invariant g.Balanced(y[..], acc + Stretch(ps, values, v, 0, k), at, yr)
      decreases size - k
    {
      TimesLess(delta, k, size);
      RdiagPlace(yCurr - g.rs + 1, xCurr + 1, delta, k);
      ReadyPlace(g, y0, acc, at, yr, ps, values, v, k);
      PutPlace(y, yCurr + i, x[xp], values, vi, xp, v, k, g, acc, at, yr, ps);
      vi := vi + 1;
      xp := xp - delta;
      TimesSucc(delta, k);
      i := i + delta;
      k := k + 1;
    }
    TimesLess(delta, k, size);
  }

  lemma RdiagPlace(row: int, col: int, delta: nat, k: nat)
    ensures UnitCell(RevDiagonal, Coord(row, col), k, delta) == Coord(row + Times(delta, k), col - Times(delta, k))
  {
  }

  /** A stretch of one row, every `delta` columns.  The column pointer moves to
      the last element. */
  method HorizCase(yCurr: nat, xCurr: nat, size: nat, delta: nat, values: seq<real>, v: nat, x: seq<real>,
                   ghost g: Job, ghost y: seq<real>, ghost acc: seq<Entry>, ghost yr0: real)
    returns (yr: real, xLast: nat)
    requires delta >= 1 && size >= 1 && g.x == x && g.rs <= yCurr
    requires Ready(g, y, acc, yCurr, yr0, PatternPlaces(Horizontal, Coord(yCurr - g.rs + 1, xCurr + 1), size, delta), values, v)
    ensures xLast == xCurr + Times(delta, size - 1)
    ensures g.Balanced(y, acc + UnitEntries(PatternPlaces(Horizontal, Coord(yCurr - g.rs + 1, xCurr + 1), size, delta), values, v),
                       yCurr, yr0 + yr)
  {
    hide Job.Balanced, Ready, Stretch, Times, Job.Term, Sum;
    ghost var ps := PatternPlaces(Horizontal, Coord(yCurr - g.rs + 1, xCurr + 1), size, delta);
    ReadyStart(g, y, acc, yCurr, yr0, ps, values, v);
    yr := 0.0;
    var i, vi := 0, v;
    ghost var k := 0;
    TimesZero(delta);
    SumNone(ps, values, v, 0, g.Term(yCurr));
    while i < Times(delta, size)
      invariant 0 <= k <= size && i == Times(delta, k) && vi == v + k
      invariant yr == Sum(Stretch(ps, values, v, 0, k), g.Term(yCurr))
      decreases size - k
    {
      TimesLess(delta, k, size);
      HorizPlace(yCurr - g.rs + 1, xCurr + 1, delta, k);
      ReadyPlace(g, y, acc, yCurr, yr0, ps, values, v, k);
      SumPlace(g, ps, values, v, 0, k, yCurr, xCurr + i);
      yr := yr + x[xCurr + i] * values[vi];
      vi := vi + 1;
      TimesSucc(delta, k);
      i := i + delta;
      k := k + 1;
    }
    TimesLess(delta, k, size);
    StepOnce(0, delta, size);
    HorizPlace(yCurr - g.rs + 1, xCurr + 1, delta, size - 1);
    xLast := xCurr + (i - delta);
    StretchInRow(ps, values, v, 0, size, yCurr - g.rs + 1);
    ReadyBalanced(g, y, acc, yCurr, yr0, ps, values, v);
    BalancedPending(g, y, acc, yCurr, yr0, Stretch(ps, values, v, 0, size), yr);
  }

  lemma HorizPlace(row: int, col: int, delta: nat, k: nat)
    ensures UnitCell(Horizontal, Coord(row, col), k, delta) == Coord(row, col + Times(delta, k))
    ensures Times(delta, k) >= 0
  {
  }

  lemma SumNone(ps: seq<Coord>, values: seq<real>, v: nat, a: nat, f: Entry -> real)
    requires a <= |ps| && v + a <= |values|
    ensures Sum(Stretch(ps, values, v, a, a), f) == 0.0
  {
  }

  lemma ReadyBalanced(g: Job, y: seq<real>, acc: seq<Entry>, at: int, yr: real, ps: seq<Coord>, values: seq<real>,
                      v: nat)
    requires Ready(g, y, acc, at, yr, ps, values, v)
    ensures g.Balanced(y, acc, at, yr)
  {
  }

  /** Columns given by byte deltas, all in one row. */
  method DeltaCase(ctl: seq<byte>, at: nat, size: nat, w: nat, yCurr: nat, xCurr: nat, values: seq<real>, v: nat,
                   x: seq<real>,
                   ghost ds: seq<nat>, ghost rest: seq<byte>, ghost g: Job, ghost y: seq<real>, ghost acc: seq<Entry>, ghost yr0: real)
    returns (yr: real, pos: nat, xLast: nat)
    requires w >= 1 && size == |ds| + 1 && (ds == [] ==> w == 1) && g.x == x && g.rs <= yCurr
    requires forall i :: 0 <= i < |ds| ==> ds[i] < Pow256(w)
    requires at <= |ctl| && ctl[at..] == (if ds == [] then [] else Zeros(Pad(at, w)) + PutAll(ds, w)) + rest
    requires Ready(g, y, acc, yCurr, yr0, DeltaPlaces(yCurr - g.rs, xCurr, ds), values, v)
    ensures xLast == xCurr + SumOf(ds)
    ensures pos == at + if ds == [] then 0 else |Zeros(Pad(at, w)) + PutAll(ds, w)|
    ensures v + |DeltaPlaces(yCurr - g.rs, xCurr, ds)| <= |values|
    ensures g.Balanced(y, acc + UnitEntries(DeltaPlaces(yCurr - g.rs, xCurr, ds), values, v), yCurr, yr0 + yr)
  {
    hide Job.Balanced, Ready, Stretch, Times, Job.Term, Sum, SumOf, DeltaPlaces, GetLE, PutAll, Pow256, Pad, Zeros, AlignPtr;
    ghost var ps := DeltaPlaces(yCurr - g.rs, xCurr, ds);
    DeltaFirst(yCurr - g.rs, xCurr, ds);
    ReadyStart(g, y, acc, yCurr, yr0, ps, values, v);
    pos := at;
    AlignIsPad(at, w);
    if w > 1 {
      pos := AlignPtr(at, w);
    }
    ghost var base := pos;
    PutAllLength(ds, w);
    xLast := xCurr;
    SumNone(ps, values, v, 0, g.Term(yCurr));
    DeltaStep(g, y, acc, yCurr, yr0, xCurr, ds, values, v, 0);
    yr := x[xLast] * values[v];
    var i := 1;
    TimesZero(w);
    while i < size
      invariant 1 <= i <= size
      invariant xLast == xCurr + SumOf(ds[..i - 1])
      invariant pos == base + Times(w, i - 1)
      invariant yr == Sum(Stretch(ps, values, v, 0, i), g.Term(yCurr))
    {
      DeltaBytesAt(ctl, at, w, ds, rest, i - 1);
      SumOfMore(ds, i - 1);
      xLast := xLast + GetLE(ctl[pos..pos + w]);
      StepOnce(0, w, i);
      pos := pos + w;
      DeltaStep(g, y, acc, yCurr, yr0, xCurr, ds, values, v, i);
      yr := yr + x[xLast] * values[v + i];
      i := i + 1;
    }
    Whole(ds);
    DeltaInRow(yCurr - g.rs, xCurr, ds, values, v, size);
    ReadyBalanced(g, y, acc, yCurr, yr0, ps, values, v);
    BalancedPending(g, y, acc, yCurr, yr0, Stretch(ps, values, v, 0, size), yr);
  }

  lemma SumOfMore(ds: seq<nat>, i: nat)
    requires i < |ds|
    ensures SumOf(ds[..i + 1]) == SumOf(ds[..i]) + ds[i]
    ensures SumOf([]) == 0 && ds[..0] == []
  {
    TakeTake(ds, i, i + 1);
  }

  /** Place k of a delta unit. */
  lemma {:induction false} DeltaPlaceAt(row: int, col: int, ds: seq<nat>, k: nat)
    requires k <= |ds|
    ensures |DeltaPlaces(row, col, ds)| == |ds| + 1
    ensures DeltaPlaces(row, col, ds)[k] == Coord(row + 1, col + SumOf(ds[..k]) + 1)
  {
    DeltaFirst(row, col, ds);
    if k == |ds| {
      Whole(ds);
      if ds != [] {
        DeltaFirst(row, col, ds[..k - 1]);
      }
    } else {
      var n := |ds| - 1;
      DeltaPlaceAt(row, col, ds[..n], k);
      TakeTake(ds, k, n);
    }
  }

  lemma DeltaInRow(row: int, col: int, ds: seq<nat>, values: seq<real>, v: nat, n: nat)
    requires n == |ds| + 1 == |DeltaPlaces(row, col, ds)| && v + n <= |values|
    ensures InRow(Stretch(DeltaPlaces(row, col, ds), values, v, 0, n), row + 1)
  {
    hide DeltaPlaces, SumOf, Stretch;
    forall k | 0 <= k < n
      ensures DeltaPlaces(row, col, ds)[k].y == row + 1
    {
      DeltaPlaceAt(row, col, ds, k);
    }
    StretchInRow(DeltaPlaces(row, col, ds), values, v, 0, n, row + 1);
  }

  /** One more product of a delta unit. */
  lemma DeltaStep(g: Job, y: seq<real>, acc: seq<Entry>, j: nat, yr: real, col: nat, ds: seq<nat>, values: seq<real>,
                  v: nat, k: nat)
    requires k <= |ds| && Ready(g, y, acc, j, yr, DeltaPlaces(j - g.rs, col, ds), values, v)
    ensures |DeltaPlaces(j - g.rs, col, ds)| == |ds| + 1 && v + |ds| < |values|
    ensures col + SumOf(ds[..k]) < |g.x|
    ensures Sum(Stretch(DeltaPlaces(j - g.rs, col, ds), values, v, 0, k + 1), g.Term(j))
         == Sum(Stretch(DeltaPlaces(j - g.rs, col, ds), values, v, 0, k), g.Term(j))
              + g.x[col + SumOf(ds[..k])] * values[v + k]
    ensures SumOf(ds[..0]) == 0
  {
    hide Job.Balanced, Stretch, Job.Term, Sum, DeltaPlaces, Ready, SumOf;
    var ps := DeltaPlaces(j - g.rs, col, ds);
    DeltaPlaceAt(j - g.rs, col, ds, k);
    ReadyStart(g, y, acc, j, yr, ps, values, v);
    ReadyPlace(g, y, acc, j, yr, ps, values, v, k);
    SumPlace(g, ps, values, v, 0, k, j, col + SumOf(ds[..k]));
    SumOfNone();
    assert ds[..0] == [];
  }

  lemma SumOfNone()
    ensures SumOf([]) == 0
  {
  }

  /** Delta number k lies behind the padding. */
  lemma DeltaBytesAt(ctl: seq<byte>, at: nat, w: nat, ds: seq<nat>, rest: seq<byte>, k: nat)
    requires at <= |ctl| && k < |ds| && ctl[at..] == (Zeros(Pad(at, w)) + PutAll(ds, w)) + rest
    requires ds[k] < Pow256(w)
    ensures var p := at + Pad(at, w) + Times(w, k);
            0 <= p && p + w <= |ctl| && GetLE(ctl[p..p + w]) == ds[k]
  {
    hide PutAll, Pow256, Pad, Times, Zeros, GetLE, PutLE;
    PutAllAt(ds, w, k);
    LERoundTrip(ds[k], w);
    var z, d, t := Zeros(Pad(at, w)), PutAll(ds, w), Times(w, k);
    SliceInside(ctl, at, z, d, rest, t, w);
  }

  // ----- Blocks

  lemma BlockIndex(r: nat, i: nat, j: nat, c: nat)
    requires r >= 1 && j < r && i < c
    ensures (Times(r, i) + j) / r == i && (Times(r, i) + j) % r == j
    ensures 0 <= Times(r, i) && Times(r, i) + j < Times(r, i + 1) <= Times(r, c)
  {
    DivModUnique(r * i + j, i, j, r);
    TimesNext(r, i, c);
  }

  /** A block of r rows, column by column. */
  method BlockRowCase(y: array<real>, yCurr: nat, xCurr: nat, r: BlockDim, c: nat, values: seq<real>, v: nat,
                      x: seq<real>,
                      ghost g: Job, ghost acc: seq<Entry>, ghost at: int, ghost yr: real)
    requires c >= 1 && g.x == x && g.rs <= yCurr
    requires Ready(g, y[..], acc, at, yr, PatternPlaces(BlockRow(r), Coord(yCurr - g.rs + 1, xCurr + 1), r * c, 1), values, v)
    modifies y
    ensures g.Balanced(y[..], acc + UnitEntries(PatternPlaces(BlockRow(r), Coord(yCurr - g.rs + 1, xCurr + 1), r * c, 1), values, v), at, yr)
  {
    hide Job.Balanced, Ready, Stretch, Times, PatternPlaces;
    ghost var ps := PatternPlaces(BlockRow(r), Coord(yCurr - g.rs + 1, xCurr + 1), r * c, 1);
    ghost var y0 := y[..];
    ReadyStart(g, y[..], acc, at, yr, ps, values, v);
    var i, vi := 0, v;
    TimesZero(r);
    BlockSize(r, c);
    while i < c
      invariant 0 <= i <= c && vi == v + Times(r, i) && 0 <= Times(r, i) <= |ps|
      invariant |y[..]| == |y0|
      invariant g.Balanced(y[..], acc + Stretch(ps, values, v, 0, Times(r, i)), at, yr)
    {
      BlockIndex(r, i, 0, c);
      BlockColumn(y, yCurr, xCurr, i, r, c, values, v, vi, x, g, y0, acc, at, yr);
      vi := vi + r;
      TimesNext(r, i, c);
      i := i + 1;
    }
  }

  /** Column i of a block: the inner loop. */
  method BlockColumn(y: array<real>, yCurr: nat, xCurr: nat, i: nat, r: BlockDim, ghost c: nat, values: seq<real>,
                     ghost v: nat, vi: nat,
                     x: seq<real>, ghost g: Job, ghost y0: seq<real>, ghost acc: seq<Entry>, ghost at: int, ghost yr: real)
    requires i < c && vi == v + Times(r, i) && g.x == x && g.rs <= yCurr && |y[..]| == |y0|
    requires Ready(g, y0, acc, at, yr, PatternPlaces(BlockRow(r), Coord(yCurr - g.rs + 1, xCurr + 1), r * c, 1), values, v)
    requires 0 <= Times(r, i) && Times(r, i) + r <= r * c && v + r * c <= |values|
    requires g.Balanced(y[..], acc + Stretch(PatternPlaces(BlockRow(r), Coord(yCurr - g.rs + 1, xCurr + 1), r * c, 1), values, v, 0, Times(r, i)), at, yr)
    modifies y
    ensures g.Balanced(y[..], acc + Stretch(PatternPlaces(BlockRow(r), Coord(yCurr - g.rs + 1, xCurr + 1), r * c, 1), values, v, 0, Times(r, i) + r), at, yr)
  {
    hide *;
    ghost var ps := PatternPlaces(BlockRow(r), Coord(yCurr - g.rs + 1, xCurr + 1), r * c, 1);
    ReadyStart(g, y0, acc, at, yr, ps, values, v);
    BlockRowPlace(r, c, yCurr - g.rs + 1, xCurr + 1, i, 0);
    ReadyPlace(g, y0, acc, at, yr, ps, values, v, Times(r, i));
    var xr := x[xCurr + i];
    var j := 0;
    while j < r
      invariant 0 <= j <= r
      invariant |y[..]| == |y0|
      invariant g.Balanced(y[..], acc + Stretch(ps, values, v, 0, Times(r, i) + j), at, yr)
    {
      BlockRowPlace(r, c, yCurr - g.rs + 1, xCurr + 1, i, j);
      ReadyPlace(g, y0, acc, at, yr, ps, values, v, Times(r, i) + j);
      PutPlace(y, yCurr + j, xr, values, vi + j, xCurr + i, v, Times(r, i) + j, g, acc, at, yr, ps);
      j := j + 1;
    }
  }

  lemma BlockSize(r: nat, c: nat)
    ensures Times(r, c) == r * c >= 0
  {
  }

  lemma BlockRowPlace(r: BlockDim, c: nat, row: int, col: int, i: nat, j: nat)
    requires i < c && j < r
    ensures 0 <= Times(r, i) + j < r * c
    ensures PatternPlaces(BlockRow(r), Coord(row, col), r * c, 1)[Times(r, i) + j] == Coord(row + j, col + i)
  {
    hide Times;
    BlockIndex(r, i, j, c);
    BlockSize(r, c);
  }

  lemma BlockColPlace(r: nat, c: BlockDim, row: int, col: int, i: nat, j: nat)
    requires i < r && j < c
    ensures 0 <= Times(c, i) + j < c * r
    ensures PatternPlaces(BlockCol(c), Coord(row, col), c * r, 1)[Times(c, i) + j] == Coord(row + i, col + j)
  {
    hide Times;
    BlockIndex(c, i, j, r);
    BlockSize(c, r);
  }

  /** A block of c columns, row by row. */
  method BlockColCase(y: array<real>, yCurr: nat, xCurr: nat, r: nat, c: BlockDim, values: seq<real>, v: nat,
                      x: seq<real>,
                      ghost g: Job, ghost acc: seq<Entry>, ghost at: int, ghost yr0: real)
    requires r >= 1 && g.x == x && g.rs <= yCurr
    requires Ready(g, y[..], acc, at, yr0, PatternPlaces(BlockCol(c), Coord(yCurr - g.rs + 1, xCurr + 1), c * r, 1), values, v)
    modifies y
    ensures g.Balanced(y[..], acc + UnitEntries(PatternPlaces(BlockCol(c), Coord(yCurr - g.rs + 1, xCurr + 1), c * r, 1), values, v), at, yr0)
  {
    hide Job.Balanced, Ready, Stretch, Times, PatternPlaces;
    ghost var ps := PatternPlaces(BlockCol(c), Coord(yCurr - g.rs + 1, xCurr + 1), c * r, 1);
    ghost var y0 := y[..];
    ReadyStart(g, y[..], acc, at, yr0, ps, values, v);
    var i, vi := 0, v;
    TimesZero(c);
    BlockSize(c, r);
    while i < r
      invariant 0 <= i <= r && vi == v + Times(c, i) && 0 <= Times(c, i) <= |ps|
      invariant |y[..]| == |y0|
      invariant g.Balanced(y[..], acc + Stretch(ps, values, v, 0, Times(c, i)), at, yr0)
    {
      BlockIndex(c, i, 0, r);
      TimesNext(c, i, r);
      BlockColPlace(r, c, yCurr - g.rs + 1, xCurr + 1, i, 0);
      ReadyPlace(g, y0, acc, at, yr0, ps, values, v, Times(c, i));
      var yr := BlockRowSum(yCurr, xCurr, i, r, c, values, v, vi, x, g, y0, acc, at, yr0);
      vi := vi + c;
      StretchGlue(ps, values, v, Times(c, i), Times(c, i) + c);
      Assoc(acc, Stretch(ps, values, v, 0, Times(c, i)), Stretch(ps, values, v, Times(c, i), Times(c, i) + c));
      BalancedAdd(g, y[..], acc + Stretch(ps, values, v, 0, Times(c, i)), at, yr0,
                  Stretch(ps, values, v, Times(c, i), Times(c, i) + c), yCurr + i, yr);
      y[yCurr + i] := y[yCurr + i] + yr;
      i := i + 1;
    }
  }

  /** Row i of a block: the inner loop. */
  method BlockRowSum(yCurr: nat, xCurr: nat, i: nat, ghost r: nat, c: BlockDim, values: seq<real>, ghost v: nat,
                     vi: nat, x: seq<real>,
                     ghost g: Job, ghost y0: seq<real>, ghost acc: seq<Entry>, ghost at: int, ghost yr0: real)
    returns (yr: real)
    requires i < r && vi == v + Times(c, i) && g.x == x && g.rs <= yCurr
    requires Ready(g, y0, acc, at, yr0, PatternPlaces(BlockCol(c), Coord(yCurr - g.rs + 1, xCurr + 1), c * r, 1), values, v)
    ensures 0 <= Times(c, i) && Times(c, i) + c <= c * r && v + c * r <= |values|
    ensures var es := Stretch(PatternPlaces(BlockCol(c), Coord(yCurr - g.rs + 1, xCurr + 1), c * r, 1), values, v,
                              Times(c, i), Times(c, i) + c);
            yr == Sum(es, g.Term(yCurr + i)) && InRow(es, yCurr + i - g.rs + 1)
  {
    hide *;
    ghost var ps := PatternPlaces(BlockCol(c), Coord(yCurr - g.rs + 1, xCurr + 1), c * r, 1);
    ghost var k0 := Times(c, i);
    BlockIndex(c, i, 0, r);
    TimesNext(c, i, r);
    BlockSize(c, r);
    ReadyStart(g, y0, acc, at, yr0, ps, values, v);
    SumNone(ps, values, v, k0, g.Term(yCurr + i));
    yr := 0.0;
    var j := 0;
    while j < c
      invariant 0 <= j <= c && k0 + c <= |ps|
      invariant yr == Sum(Stretch(ps, values, v, k0, k0 + j), g.Term(yCurr + i))
    {
      BlockIndex(c, i, j, r);
      BlockColPlace(r, c, yCurr - g.rs + 1, xCurr + 1, i, j);
      ReadyPlace(g, y0, acc, at, yr0, ps, values, v, k0 + j);
      SumPlace(g, ps, values, v, k0, k0 + j, yCurr + i, xCurr + j);
      yr := yr + x[xCurr + j] * values[vi + j];
      j := j + 1;
    }
    BlockRowOne(r, c, yCurr - g.rs + 1, xCurr + 1, i);
    StretchInRow(ps, values, v, k0, k0 + c, yCurr + i - g.rs + 1);
  }

  lemma BlockRowOne(r: nat, c: BlockDim, row: int, col: int, i: nat)
    requires i < r
    ensures 0 <= Times(c, i) && Times(c, i) + c <= c * r
    ensures forall k :: Times(c, i) <= k < Times(c, i) + c ==> PatternPlaces(BlockCol(c), Coord(row, col), c * r, 1)[k].y == row + i
  {
    hide Times, PatternPlaces;
    BlockIndex(c, i, 0, r);
    TimesNext(c, i, r);
    BlockSize(c, r);
    forall k | Times(c, i) <= k < Times(c, i) + c
      ensures PatternPlaces(BlockCol(c), Coord(row, col), c * r, 1)[k].y == row + i
    {
      BlockColPlace(r, c, row, col, i, k - Times(c, i));
    }
  }

  // ----- The interpreter

  /** Runs the routine of one unit. */
  method UnitCase(ctl: seq<byte>, at: nat, size: nat, id: int, y: array<real>, yCurr: nat, xCurr: nat,
                  values: seq<real>, v: nat,
                  x: seq<real>, ghost full: bool, ghost u: Unit, ghost rest: seq<byte>, ghost g: Job, ghost acc: seq<Entry>, ghost yr0: real)
    returns (yr: real, pos: nat, xLast: nat)
    requires GoodUnit(full, u) && size == u.size && id == u.id && g.x == x && g.rs <= yCurr
    requires at <= |ctl| && ctl[at..] == TailBytes(at, u) + rest
    requires Ready(g, y[..], acc, yCurr, yr0, UnitPlaces(u, Cursor(yCurr - g.rs, xCurr)), values, v)
    modifies y
    ensures v + |UnitPlaces(u, Cursor(yCurr - g.rs, xCurr))| <= |values|
    ensures g.Balanced(y[..], acc + UnitEntries(UnitPlaces(u, Cursor(yCurr - g.rs, xCurr)), values, v), yCurr, yr0 + yr)
    ensures pos == at + |TailBytes(at, u)| && xLast == EndAt(u, Cursor(yCurr - g.rs, xCurr)).col
  {
    hide Job.Balanced, Ready, UnitEntries, DeltaPlaces, PatternPlaces, SumOf, Times, Zeros, Pad, PutAll, Pow256;
    ghost var ps := UnitPlaces(u, Cursor(yCurr - g.rs, xCurr));
    ReadyStart(g, y[..], acc, yCurr, yr0, ps, values, v);
    yr, pos, xLast := 0.0, at, xCurr;
    var param := id % PID_OFFSET;
    if id < PID_OFFSET {
      yr, pos, xLast := DeltaCase(ctl, at, size, id / 8, yCurr, xCurr, values, v, x, u.deltas, rest, g, y[..], acc,
                                  yr0);
    } else {
      match OfCode(id / PID_OFFSET)
      case Horizontal =>
        yr, xLast := HorizCase(yCurr, xCurr, size, param, values, v, x, g, y[..], acc, yr0);
      case Vertical =>
        VertCase(y, yCurr, xCurr, size, param, values, v, x, g, acc, yCurr, yr0);
      case Diagonal =>
        DiagCase(y, yCurr, xCurr, size, param, values, v, x, g, acc, yCurr, yr0);
      case RevDiagonal =>
        RdiagCase(y, yCurr, xCurr, size, param, values, v, x, g, acc, yCurr, yr0);
      case BlockRow(r) =>
        BlockRowCase(y, yCurr, xCurr, r, param, values, v, x, g, acc, yCurr, yr0);
      case BlockCol(c) =>
        BlockColCase(y, yCurr, xCurr, param, c, values, v, x, g, acc, yCurr, yr0);
    }
  }

  lemma FlagBits(u: Unit)
    requires u.flag <= PATTERNS_MAX
    ensures TestNr(FlagByte(u)) <==> u.jump > 0
    ensures TestRjmp(FlagByte(u)) <==> u.jump > 1
    ensures FlagByte(u) % 64 == u.flag
  {
  }

  /** How far the row pointer moves at a new row. */
  method NewRowHook(ctl: seq<byte>, at: nat, flags: byte, rowJmps: bool, ghost u: Unit, ghost rest: seq<byte>)
    returns (jump: nat, pos: nat)
    requires flags == FlagByte(u) && u.flag <= PATTERNS_MAX && u.jump > 0 && (!rowJmps ==> u.jump == 1)
    requires at <= |ctl| && ctl[at..] == (if u.jump > 1 then PutUl(u.jump) else []) + rest
    ensures jump == u.jump && pos <= |ctl| && ctl[pos..] == rest
    ensures pos == at + if u.jump > 1 then |PutUl(u.jump)| else 0
  {
    hide PutUl, FlagByte, TestRjmp;
    FlagBits(u);
    if rowJmps && TestRjmp(flags) {
      jump, pos := UlGet(ctl, at, u.jump, rest);
    } else {
      jump, pos := 1, at;
      NilLeft(rest);
    }
  }

  method NextX(ctl: seq<byte>, at: nat, full: bool, xCurr: nat, ghost u: Unit, ghost rest: seq<byte>)
    returns (x: nat, pos: nat)
    requires full ==> u.ucol < Pow256(4)
    requires at <= |ctl| && ctl[at..] == ColBytes(full, u) + rest
    ensures x == if full then u.ucol else xCurr + u.ucol
    ensures pos == at + |ColBytes(full, u)| <= |ctl| && ctl[pos..] == rest
  {
    hide PutUl, PutLE, GetLE, Pow256;
    if full {
      FixedGet(ctl, at, u.ucol, 4, rest);
      x, pos := GetLE(ctl[at..at + 4]), at + 4;
    } else {
      var step;
      step, pos := UlGet(ctl, at, u.ucol, rest);
      x := xCurr + step;
    }
  }

  /** Flags and size come first. */
  lemma HeadAt(ctl: seq<byte>, at: nat, u: Unit, rest: seq<byte>)
    requires at <= |ctl| && ctl[at..] == HeadBytes(u) + rest && u.size <= SIZE_MAX
    ensures at + 2 <= |ctl| && ctl[at] == FlagByte(u) && ctl[at + 1] == u.size
    ensures ctl[at + 2..] == (if u.jump > 1 then PutUl(u.jump) else []) + rest
  {
    hide PutUl, FlagByte;
    var jump := if u.jump > 1 then PutUl(u.jump) else [];
    var two: seq<byte> := [FlagByte(u), u.size % 256];
    assert ctl[at..][0] == FlagByte(u) && ctl[at..][1] == u.size % 256;
    Assoc(two, jump, rest);
    SliceRight(two, jump + rest);
    DropDrop(ctl, at, at + 2);
  }

  /** The four parts of unit k in the stream. */
  lemma UnitParts(full: bool, us: seq<Unit>, k: nat) returns (rest: seq<byte>)
    requires k < |us|
    ensures var at, u := |Emit(full, us[..k])|, us[k];
            var pos := at + |HeadBytes(u)| + |ColBytes(full, u)|;
            && at < |Emit(full, us)|
            && Emit(full, us)[at..] == HeadBytes(u) + (ColBytes(full, u) + (TailBytes(pos, u) + rest))
            && |Emit(full, us[..k + 1])| == pos + |TailBytes(pos, u)| <= |Emit(full, us)|
  {
    hide ColBytes, TailBytes, Emit, FlagByte;
    rest := UnitAt(full, us, k);
    var at, u := |Emit(full, us[..k])|, us[k];
    var pos := at + |HeadBytes(u)| + |ColBytes(full, u)|;
    Assoc(HeadBytes(u) + ColBytes(full, u), TailBytes(pos, u), rest);
    Assoc(HeadBytes(u), ColBytes(full, u), TailBytes(pos, u) + rest);
  }

  /** Where the places of unit k are in the stream. */
  lemma UnitAmong(full: bool, us: seq<Unit>, k: nat)
    requires k < |us|
    ensures var base, ps := StreamPlaces(full, us[..k]), UnitPlaces(us[k],
                                                                    StartAt(full, CursorAfter(full, us[..k]), us[k]));
            && StreamPlaces(full, us[..k + 1]) == base + ps
            && |base| + |ps| <= |StreamPlaces(full, us)|
            && StreamPlaces(full, us)[|base|..|base| + |ps|] == ps
            && StreamPlaces(full, us)[..|base|] == base
    ensures CursorAfter(full, us[..k + 1]) == EndAt(us[k], StartAt(full, CursorAfter(full, us[..k]), us[k]))
  {
    hide StreamPlaces, UnitPlaces, StartAt, CursorAfter, EndAt;
    StreamSnoc(full, us[..k], us[k]);
    assert us[..k] + [us[k]] == us[..k + 1];
    PlacesPrefix(full, us, k + 1);
    var base, ps := StreamPlaces(full, us[..k]), UnitPlaces(us[k], StartAt(full, CursorAfter(full, us[..k]), us[k]));
    var all := StreamPlaces(full, us);
    SliceRight(base, ps);
    assert all[..|base| + |ps|] == base + ps;
    SliceLeft(base, ps, 0, |base|);
    TakeTake(all, |base|, |base| + |ps|);
    assert all[|base|..|base| + |ps|] == all[..|base| + |ps|][|base|..];
  }

  lemma {:induction false} PlacesPrefix(full: bool, us: seq<Unit>, k: nat)
    requires k <= |us|
    ensures StreamPlaces(full, us[..k]) <= StreamPlaces(full, us)
  {
    hide UnitPlaces, StartAt, CursorAfter;
    var n := |us|;
    if k < n {
      PlacesPrefix(full, us[..n - 1], k);
      TakeTake(us, k, n - 1);
    } else {
      Whole(us);
    }
  }

  /** Where the interpreter is before unit k. */
  ghost predicate Before(g: Job, csx: Csx, us: seq<Unit>, k: nat, pos: nat, v: nat, yCurr: nat, xCurr: nat)
    requires k <= |us|
  {
    && pos == |Emit(csx.full, us[..k])|
    && v == |StreamPlaces(csx.full, us[..k])| <= |csx.values|
    && Cursor(yCurr - g.rs, xCurr) == CursorAfter(csx.full, us[..k])
    && g.rs <= yCurr < |g.z|
  }

  /** The entries of the first v values. */
  function Visited(csx: Csx, us: seq<Unit>, k: nat, v: nat): seq<Entry>
    requires k <= |us| && v == |StreamPlaces(csx.full, us[..k])| <= |csx.values|
  {
    Zipped(StreamPlaces(csx.full, us[..k]), csx.values[..v])
  }

  lemma VisitedMore(csx: Csx, us: seq<Unit>, k: nat, v: nat, ps: seq<Coord>)
    requires k < |us| && v == |StreamPlaces(csx.full, us[..k])| && v + |ps| <= |csx.values|
    requires StreamPlaces(csx.full, us[..k + 1]) == StreamPlaces(csx.full, us[..k]) + ps
    ensures Visited(csx, us, k, v) + UnitEntries(ps, csx.values, v) == Visited(csx, us, k + 1, v + |ps|)
  {
    hide StreamPlaces;
  }

  /** Decodes and executes unit k. */
  method Step(csx: Csx, x: seq<real>, y: array<real>, pos: nat, v: nat, yCurr: nat, xCurr: nat, yr: real,
              ghost us: seq<Unit>, ghost k: nat, ghost g: Job)
    returns (pos': nat, v': nat, yCurr': nat, xCurr': nat, yr': real)
    requires k < |us| && csx.ctl == Emit(csx.full, us) && UnitsKnown(csx, us)
    requires |StreamPlaces(csx.full, us)| == |csx.values| && g.Fits(StreamPlaces(csx.full, us)) && g.x == x
    requires Before(g, csx, us, k, pos, v, yCurr, xCurr)
    requires g.Balanced(y[..], Visited(csx, us, k, v), yCurr, yr)
    modifies y
    ensures pos < pos' <= |csx.ctl|
    ensures Before(g, csx, us, k + 1, pos', v', yCurr', xCurr')
    ensures g.Balanced(y[..], Visited(csx, us, k + 1, v'), yCurr', yr')
  {
    hide Job.Balanced, Job.Fits, Emit, ColBytes, TailBytes, FlagByte, StreamPlaces, UnitPlaces, EndAt, CursorAfter, Visited,
         UnitEntries, Ready, PutUl, TestNr, Job.Term, RowTerm, Zipped;
    ghost var u := us[k];
    ghost var rest := UnitParts(csx.full, us, k);
    ghost var tailAt := pos + |HeadBytes(u)| + |ColBytes(csx.full, u)|;
    HeadAt(csx.ctl, pos, u, ColBytes(csx.full, u) + (TailBytes(tailAt, u) + rest));
    FlagBits(u);
    BalancedSize(g, y[..], Visited(csx, us, k, v), yCurr, yr);
    UnitAmong(csx.full, us, k);
    var flags, size := csx.ctl[pos], csx.ctl[pos + 1];
    yCurr', xCurr', yr', pos' := yCurr, xCurr, yr, pos + 2;
    if TestNr(flags) {
      FoldRow(g, y[..], Visited(csx, us, k, v), yCurr, yr, yCurr + u.jump);
      y[yCurr] := y[yCurr] + yr;
      yr' := 0.0;
      var jump;
      jump, pos' := NewRowHook(csx.ctl, pos', flags, csx.rowJmps, u,
                               ColBytes(csx.full, u) + (TailBytes(tailAt, u) + rest));
      yCurr' := yCurr + jump;
      xCurr' := 0;
    } else {
      NilLeft(ColBytes(csx.full, u) + (TailBytes(tailAt, u) + rest));
    }
    xCurr', pos' := NextX(csx.ctl, pos', csx.full, xCurr', u, TailBytes(tailAt, u) + rest);
    ghost var start := StartAt(csx.full, CursorAfter(csx.full, us[..k]), u);
    ghost var ps := UnitPlaces(u, start);
    assert start == Cursor(yCurr' - g.rs, xCurr');
    FitsPart(g, csx.full, us, k);
    FirstPlace(csx.full, u, start);
    MakeReady(g, y[..], Visited(csx, us, k, v), yCurr', yr', ps, csx.values, v);
    FirstFits(g, ps);
    var yrUnit;
    yrUnit, pos', xCurr' := UnitCase(csx.ctl, pos', size, csx.table[flags % 64], y, yCurr', xCurr', csx.values, v, x,
                                     csx.full, u, rest, g, Visited(csx, us, k, v), yr');
    yr' := yr' + yrUnit;
    v' := v + size;
    EndRow(u, start);
    VisitedMore(csx, us, k, v, ps);
  }

  lemma EndRow(u: Unit, at: Cursor)
    ensures EndAt(u, at).row == at.row
  {
  }

  lemma FirstFits(g: Job, ps: seq<Coord>)
    requires g.Fits(ps) && ps != []
    ensures 0 <= ps[0].y - 1 + g.rs < |g.z|
  {
  }

  lemma MakeReady(g: Job, y: seq<real>, acc: seq<Entry>, at: int, yr: real, ps: seq<Coord>, values: seq<real>, v: nat)
    requires g.Balanced(y, acc, at, yr) && g.Fits(ps) && v + |ps| <= |values|
    ensures Ready(g, y, acc, at, yr, ps, values, v)
  {
  }

  lemma FitsPart(g: Job, full: bool, us: seq<Unit>, k: nat)
    requires k < |us| && g.Fits(StreamPlaces(full, us))
    ensures g.Fits(UnitPlaces(us[k], StartAt(full, CursorAfter(full, us[..k]), us[k])))
  {
    hide StreamPlaces, UnitPlaces, StartAt, CursorAfter;
    UnitAmong(full, us, k);
    var base, ps := StreamPlaces(full, us[..k]), UnitPlaces(us[k], StartAt(full, CursorAfter(full, us[..k]), us[k]));
    var all := StreamPlaces(full, us);
    forall i | 0 <= i < |ps|
      ensures 0 <= ps[i].y - 1 + g.rs < |g.z| && 1 <= ps[i].x <= |g.x|
    {
      assert all[|base| + i] == ps[i];
    }
  }

  /** The whole multiplication: y becomes the product on the rows of the matrix and
      stays as it was elsewhere.  Every byte and every value is consumed. */
  method Multiply(csx: Csx, x: seq<real>, y: array<real>, ghost us: seq<Unit>, ghost d: Dims, ghost rows: Rows,
                  ghost side: nat)
    returns (pos: nat, v: nat)
    requires Represents(csx, us, d, rows, side) && us != []
    requires forall e :: e in Cells(Horizontal, d, rows) ==> InBounds(d, e.at)
    requires csx.rowStart + d.rows <= y.Length && d.cols <= |x|
    modifies y
    ensures forall j :: csx.rowStart <= j < csx.rowStart + csx.nrows ==>
              y[j] == RowProduct(Cells(Horizontal, d, rows), x, j - csx.rowStart + 1)
    ensures forall j :: 0 <= j < y.Length && !(csx.rowStart <= j < csx.rowStart + csx.nrows) ==> y[j] == old(y[j])
    ensures pos == |csx.ctl| && v == csx.nnz
  {
    hide Job.Balanced, Job.Fits, Emit, StreamPlaces, CursorAfter, Visited, Cells, Before, UnitsKnown, RowProduct, Sided, Forward;
    for i := 0 to csx.nrows
      invariant forall j :: csx.rowStart <= j < csx.rowStart + i ==> y[j] == 0.0
      invariant forall j :: 0 <= j < y.Length && !(csx.rowStart <= j < csx.rowStart + i) ==> y[j] == old(y[j])
    {
      y[csx.rowStart + i] := 0.0;
    }
    ghost var g := Job(y[..], csx.rowStart, x);
    ghost var k := 0;
    var yCurr, xCurr, yr := csx.rowStart, 0, 0.0;
    pos, v := 0, 0;
    StartMultiply(g, csx, us, d, rows);
    while true
      invariant 0 <= k < |us|
      invariant Before(g, csx, us, k, pos, v, yCurr, xCurr)
      invariant v == |StreamPlaces(csx.full, us[..k])| <= |csx.values| && pos <= |csx.ctl|
      invariant g.Balanced(y[..], Visited(csx, us, k, v), yCurr, yr)
      decreases |us| - k
    {
      pos, v, yCurr, xCurr, yr := Step(csx, x, y, pos, v, yCurr, xCurr, yr, us, k, g);
      k := k + 1;
      EmitGrows(csx, us, k, pos, v, yCurr, xCurr, g);
      if !(pos < |csx.ctl|) {
        break;
      }
    }
    FoldLast(g, csx, y[..], us, k, v, yCurr, yr);
    y[yCurr] := y[yCurr] + yr;
    Finish(g, csx, y[..], us, d, rows, v);
  }

  lemma StartMultiply(g: Job, csx: Csx, us: seq<Unit>, d: Dims, rows: Rows)
    requires StreamPlaces(csx.full, us) == Ats(Cells(Horizontal, d, rows)) && us != []
    requires csx.values == Vals(Cells(Horizontal, d, rows)) && UnitsKnown(csx, us)
    requires forall e :: e in Cells(Horizontal, d, rows) ==> InBounds(d, e.at)
    requires g.rs == csx.rowStart && g.rs + d.rows <= |g.z| && d.cols <= |g.x|
    ensures |StreamPlaces(csx.full, us)| == |csx.values| && g.Fits(StreamPlaces(csx.full, us))
    ensures Before(g, csx, us, 0, 0, 0, csx.rowStart, 0)
    ensures |StreamPlaces(csx.full, us[..0])| == 0
    ensures g.Balanced(g.z, Visited(csx, us, 0, 0), csx.rowStart, 0.0)
  {
    hide StreamPlaces, Cells, RowTerm, UnitsKnown, CursorAfter, Emit, Job.Fits, Visited, Job.Balanced;
    PlacesFit(g, csx.full, us, d, rows);
    SomePlace(csx, us);
    FirstFits(g, StreamPlaces(csx.full, us));
    NothingVisited(csx, us);
    assert us[..0] == [];
    EmptyBalanced(g, csx.rowStart);
  }

  lemma EmptyBalanced(g: Job, at: int)
    ensures g.Balanced(g.z, [], at, 0.0)
  {
    forall j | 0 <= j < |g.z|
      ensures Sum([], g.Term(j)) == 0.0
    {
    }
  }

  lemma PlacesFit(g: Job, full: bool, us: seq<Unit>, d: Dims, rows: Rows)
    requires StreamPlaces(full, us) == Ats(Cells(Horizontal, d, rows))
    requires forall e :: e in Cells(Horizontal, d, rows) ==> InBounds(d, e.at)
    requires g.rs + d.rows <= |g.z| && d.cols <= |g.x|
    ensures g.Fits(StreamPlaces(full, us))
  {
    hide StreamPlaces, Cells;
    var cells, places := Cells(Horizontal, d, rows), StreamPlaces(full, us);
    forall k | 0 <= k < |places|
      ensures InBounds(d, places[k])
    {
      assert places[k] == cells[k].at && cells[k] in cells;
    }
  }

  /** The first unit visits something. */
  lemma SomePlace(csx: Csx, us: seq<Unit>)
    requires us != [] && UnitsKnown(csx, us)
    ensures StreamPlaces(csx.full, us) != [] && StreamPlaces(csx.full, us)[0].y >= 1
  {
    hide UnitPlaces, StartAt, GoodUnit, StreamPlaces;
    UnitAmong(csx.full, us, 0);
    var start := StartAt(csx.full, CursorAfter(csx.full, us[..0]), us[0]);
    FirstPlace(csx.full, us[0], start);
    NothingVisited(csx, us);
    assert us[..0] == [];
    StartsBelow(csx.full, us[0]);
  }

  lemma StartsBelow(full: bool, u: Unit)
    ensures StartAt(full, CursorAfter(full, []), u).row >= 0
  {
  }

  lemma NothingVisited(csx: Csx, us: seq<Unit>)
    ensures StreamPlaces(csx.full, []) == [] && Emit(csx.full, []) == [] && CursorAfter(csx.full, []) == Cursor(0, 0)
    ensures us[..0] == [] && Visited(csx, us, 0, 0) == []
  {
  }

  lemma EmitGrows(csx: Csx, us: seq<Unit>, k: nat, pos: nat, v: nat, yCurr: nat, xCurr: nat, g: Job)
    requires k <= |us| && csx.ctl == Emit(csx.full, us) && Before(g, csx, us, k, pos, v, yCurr, xCurr)
    ensures pos < |csx.ctl| <==> k < |us|
    ensures v == |StreamPlaces(csx.full, us[..k])| <= |csx.values| && yCurr < |g.z|
  {
    hide Emit, StreamPlaces, HeadBytes, ColBytes, TailBytes;
    if k < |us| {
      var rest := UnitParts(csx.full, us, k);
    } else {
      Whole(us);
    }
  }

  lemma FoldLast(g: Job, csx: Csx, y: seq<real>, us: seq<Unit>, k: nat, v: nat, yCurr: nat, yr: real)
    requires k == |us| && v == |StreamPlaces(csx.full, us[..k])| <= |csx.values| && yCurr < |g.z|
    requires g.Balanced(y, Visited(csx, us, k, v), yCurr, yr)
    ensures |y| == |g.z| && v == |StreamPlaces(csx.full, us)|
    ensures g.Balanced(y[yCurr := y[yCurr] + yr], Visited(csx, us, |us|, v), -1, 0.0)
  {
    hide Job.Balanced, Visited, StreamPlaces;
    Whole(us);
    BalancedSize(g, y, Visited(csx, us, k, v), yCurr, yr);
    FoldRow(g, y, Visited(csx, us, k, v), yCurr, yr, -1);
  }

  lemma Finish(g: Job, csx: Csx, y: seq<real>, us: seq<Unit>, d: Dims, rows: Rows, v: nat)
    requires StreamPlaces(csx.full, us) == Ats(Cells(Horizontal, d, rows))
    requires csx.values == Vals(Cells(Horizontal, d, rows))
    requires forall e :: e in Cells(Horizontal, d, rows) ==> InBounds(d, e.at)
    requires g.rs + d.rows <= |g.z| && (forall j :: g.rs <= j < g.rs + d.rows ==> g.z[j] == 0.0)
    requires v == |StreamPlaces(csx.full, us)| && v == |StreamPlaces(csx.full, us[..|us|])| <= |csx.values|
    requires g.Balanced(y, Visited(csx, us, |us|, v), -1, 0.0)
    ensures |y| == |g.z|
    ensures forall j :: g.rs <= j < g.rs + d.rows ==> y[j] == RowProduct(Cells(Horizontal, d, rows), g.x, j - g.rs + 1)
    ensures forall j :: 0 <= j < |y| && !(g.rs <= j < g.rs + d.rows) ==> y[j] == g.z[j]
  {
    hide StreamPlaces, Cells, RowTerm, Sum;
    var cells := Cells(Horizontal, d, rows);
    Whole(us);
    Whole(csx.values);
    assert Visited(csx, us, |us|, v) == cells;
    forall j | 0 <= j < |y| && !(g.rs <= j < g.rs + d.rows)
      ensures y[j] == g.z[j]
    {
      NoTerm(cells, j - g.rs + 1, g.x);
    }
  }

  lemma {:induction false} NoTerm(es: seq<Entry>, i: int, x: seq<real>)
    requires forall e :: e in es ==> e.at.y != i
    ensures Sum(es, RowTerm(i, x)) == 0.0
  {
    if es != [] {
      NoTerm(es[..|es| - 1], i, x);
    }
  }
}

/** The generated kernel of a symmetric matrix: every element also adds its mirror
    image, to y when its column belongs to the rows of this part, to the temporary
    vector otherwise; the diagonal is applied as the rows go by.

    `Bal` is what the kernel keeps after every unit, with separate lists for the
    elements added in place and for their mirror images. */
module CsxSymKernel {
  import opened Orders
  import opened Matrix
  import opened Products
  import opened Seqs
  import opened Ctl
  import opened CsxPrinter
  import opened CsxKernel
  import opened Barriers
  import opened SymSpmv
  import opened SymSteps

  // ----- Additions in memory

  /** The two vectors, whether they are one, and the one that takes mirror images. */
  ghost predicate Vectors(g: SymJob, y: array<real>, t: array<real>, cur: array<real>, own: bool) {
    (g.alias <==> y == t) && cur == if own then y else t
  }

  method AddY(y: array<real>, ghost t: array<real>, j: nat, sum: real,
              ghost g: SymJob, ghost direct: seq<Entry>, ghost mirror: seq<Entry>, ghost at: int, ghost yr: real, ghost es: seq<Entry>, ghost log0: seq<Op<Cell>>)
    returns (ghost log: seq<Op<Cell>>)
    requires (g.alias <==> y == t) && g.Keeps(log0, y[..], t[..], direct, mirror, at, yr)
    requires g.rs <= j < g.task.end && j < y.Length && InRow(es, j - g.rs + 1) && sum == Sum(es, g.Term(j))
    modifies y
    ensures g.Keeps(log, y[..], t[..], direct + es, mirror, at, yr)
  {
    hide SymJob.Keeps;
    log := log0;
    ghost var y0, t0 := y[..], t[..];
    KeepsSizes(g, log0, y0, t0, direct, mirror, at, yr);
    y[j] := y[j] + sum;
    assert y[..] == y0[j := y0[j] + sum];
    KeepDirect(g, log0, y0, t0, direct, mirror, at, yr, es, j, sum, t[..]);
    log := log + [g.DirectOp(es, j)];
  }

  method AddCur(ghost y: array<real>, ghost t: array<real>, cur: array<real>, c: nat, sum: real,
                ghost own: bool, ghost g: SymJob, ghost direct: seq<Entry>, ghost mirror: seq<Entry>, ghost at: int, ghost yr: real, ghost es: seq<Entry>, ghost log0: seq<Op<Cell>>)
    returns (ghost log: seq<Op<Cell>>)
    requires Vectors(g, y, t, cur, own) && g.Keeps(log0, y[..], t[..], direct, mirror, at, yr)
    requires c < g.task.end && c < y.Length && (own <==> c >= g.rs) && InCol(es, c + 1) && sum == Sum(es, g.Mirror(c))
    modifies cur
    ensures g.Keeps(log, y[..], t[..], direct, mirror + es, at, yr)
  {
    hide SymJob.Keeps;
    log := log0;
    ghost var y0, t0 := y[..], t[..];
    KeepsSizes(g, log0, y0, t0, direct, mirror, at, yr);
    cur[c] := cur[c] + sum;
    assert own || g.alias ==> y[..] == y0[c := y0[c] + sum];
    assert !own && !g.alias ==> t[..] == t0[c := t0[c] + sum] && y[..] == y0;
    KeepMirror(g, log0, y0, t0, direct, mirror, at, yr, es, c, sum, y[..], t[..]);
    log := log + [g.MirrorOp(es, c)];
  }

  // ----- One place of a unit

  ghost predicate SymReady(g: SymJob, ops: seq<Op<Cell>>, y: seq<real>, t: seq<real>, acc: seq<Entry>, at: int,
                           yr: real,
                           ps: seq<Coord>, values: seq<real>, v: nat, own: bool)
  {
    g.Keeps(ops, y, t, acc, acc, at, yr) && g.Fits(ps, own) && v + |ps| <= |values|
  }

  lemma SymStart(g: SymJob, ops: seq<Op<Cell>>, y: seq<real>, t: seq<real>, acc: seq<Entry>, at: int, yr: real,
                 ps: seq<Coord>, values: seq<real>, v: nat, own: bool)
    requires SymReady(g, ops, y, t, acc, at, yr, ps, values, v, own)
    ensures v + |ps| <= |values| && |y| == |t| == |g.x|
    ensures g.Keeps(ops, y, t, acc + Stretch(ps, values, v, 0, 0), acc + Stretch(ps, values, v, 0, 0), at, yr)
    ensures g.Keeps(ops, y, t, acc, acc + Stretch(ps, values, v, 0, 0), at, yr)
    ensures g.Keeps(ops, y, t, acc + Stretch(ps, values, v, 0, 0), acc, at, yr)
  {
    hide SymJob.Keeps;
    KeepsSizes(g, ops, y, t, acc, acc, at, yr);
    StretchNone(ps, values, v, 0);
    NilRight(acc);
  }

  lemma SymPlace(g: SymJob, ops: seq<Op<Cell>>, y: seq<real>, t: seq<real>, acc: seq<Entry>, at: int, yr: real,
                 ps: seq<Coord>, values: seq<real>, v: nat, own: bool, k: nat)
    requires SymReady(g, ops, y, t, acc, at, yr, ps, values, v, own) && k < |ps|
    ensures 1 <= ps[k].y && ps[k].y - 1 + g.rs < g.task.end <= |g.x| && 1 <= ps[k].x <= g.task.end
         && (own <==> ps[k].x - 1 >= g.rs)
  {
    hide SymJob.Keeps;
  }

  /** The product of place k, into its row. */
  lemma DirectSum(g: SymJob, ps: seq<Coord>, values: seq<real>, v: nat, a: nat, k: nat, j: int, c: nat)
    requires a <= k < |ps| && v + |ps| <= |values| && ps[k] == Coord(j - g.rs + 1, c + 1) && c < |g.x|
    ensures Sum(Stretch(ps, values, v, a, k + 1), g.Term(j))
         == Sum(Stretch(ps, values, v, a, k), g.Term(j)) + g.x[c] * values[v + k]
  {
    hide Stretch, Sum;
    StretchMore(ps, values, v, a, k);
    SumSnoc(Stretch(ps, values, v, a, k), Entry(ps[k], values[v + k]), g.Term(j));
  }

  /** The mirror image of place k. */
  lemma MirrorSum(g: SymJob, ps: seq<Coord>, values: seq<real>, v: nat, a: nat, k: nat, j: nat, c: int)
    requires a <= k < |ps| && v + |ps| <= |values| && ps[k] == Coord(j - g.rs + 1, c + 1) && j < |g.x|
    ensures Sum(Stretch(ps, values, v, a, k + 1), g.Mirror(c))
         == Sum(Stretch(ps, values, v, a, k), g.Mirror(c)) + g.x[j] * values[v + k]
  {
    hide Stretch, Sum;
    StretchMore(ps, values, v, a, k);
    SumSnoc(Stretch(ps, values, v, a, k), Entry(ps[k], values[v + k]), g.Mirror(c));
  }

  /** One entry, and what it adds. */
  lemma OneEntry(g: SymJob, ps: seq<Coord>, values: seq<real>, v: nat, k: nat, j: nat, c: nat)
    requires k < |ps| && v + |ps| <= |values| && ps[k] == Coord(j - g.rs + 1, c + 1) && c < |g.x| && j < |g.x|
    ensures var es := [Entry(ps[k], values[v + k])];
            && InRow(es, j - g.rs + 1) && InCol(es, c + 1)
            && Sum(es, g.Term(j)) == g.x[c] * values[v + k] && Sum(es, g.Mirror(c)) == g.x[j] * values[v + k]
            && Stretch(ps, values, v, 0, k + 1) == Stretch(ps, values, v, 0, k) + es
  {
    hide Stretch;
    var e := Entry(ps[k], values[v + k]);
    StretchMore(ps, values, v, 0, k);
    SumOne(e, g.Term(j));
    SumOne(e, g.Mirror(c));
  }

  /** y_j += x_c v_k */
  method DirectPlace(y: array<real>, ghost t: array<real>, j: nat, c: nat, x: seq<real>, values: seq<real>,
                     ghost v: nat, ghost k: nat, vi: nat,
                     ghost g: SymJob, ghost acc: seq<Entry>, ghost mirror: seq<Entry>, ghost at: int, ghost yr: real, ghost ps: seq<Coord>, ghost log0: seq<Op<Cell>>)
    returns (ghost log: seq<Op<Cell>>)
    requires (g.alias <==> y == t) && g.x == x && vi == v + k && k < |ps| && v + |ps| <= |values|
    requires ps[k] == Coord(j - g.rs + 1, c + 1) && g.rs <= j < g.task.end && j < |x| && c < |x| && |x| == y.Length
    requires g.Keeps(log0, y[..], t[..], acc + Stretch(ps, values, v, 0, k), mirror, at, yr)
    modifies y
    ensures g.Keeps(log, y[..], t[..], acc + Stretch(ps, values, v, 0, k + 1), mirror, at, yr)
  {
    hide SymJob.Keeps, Stretch, Sum, InRow, InCol, SymJob.Term, SymJob.Mirror;
    log := log0;
    ghost var es := [Entry(ps[k], values[v + k])];
    OneEntry(g, ps, values, v, k, j, c);
    Assoc(acc, Stretch(ps, values, v, 0, k), es);
    log := AddY(y, t, j, x[c] * values[vi], g, acc + Stretch(ps, values, v, 0, k), mirror, at, yr, es, log);
  }

  /** cur_c += x_j v_k */
  method MirrorPlace(ghost y: array<real>, ghost t: array<real>, cur: array<real>, j: nat, c: nat, x: seq<real>,
                     values: seq<real>, ghost v: nat, ghost k: nat,
                     vi: nat, ghost own: bool, ghost g: SymJob, ghost direct: seq<Entry>, ghost acc: seq<Entry>, ghost at: int, ghost yr: real, ghost ps: seq<Coord>, ghost log0: seq<Op<Cell>>)
    returns (ghost log: seq<Op<Cell>>)
    requires Vectors(g, y, t, cur, own) && g.x == x && vi == v + k && k < |ps| && v + |ps| <= |values|
    requires ps[k] == Coord(j - g.rs + 1, c + 1) && j < |x| && c < g.task.end && c < |x| && |x| == y.Length
         && (own <==> c >= g.rs)
    requires g.Keeps(log0, y[..], t[..], direct, acc + Stretch(ps, values, v, 0, k), at, yr)
    modifies cur
    ensures g.Keeps(log, y[..], t[..], direct, acc + Stretch(ps, values, v, 0, k + 1), at, yr)
  {
    hide SymJob.Keeps, Stretch, Sum, InRow, InCol, SymJob.Term, SymJob.Mirror;
    log := log0;
    ghost var es := [Entry(ps[k], values[v + k])];
    OneEntry(g, ps, values, v, k, j, c);
    Assoc(acc, Stretch(ps, values, v, 0, k), es);
    log := AddCur(y, t, cur, c, x[j] * values[vi], own, g, direct, acc + Stretch(ps, values, v, 0, k), at, yr, es, log);
  }

  /** ry += x_j v_k, the mirror images of one column gathered in a register. */
  method MirrorRegister(x: seq<real>, j: nat, values: seq<real>, vi: nat, ry0: real,
                        ghost g: SymJob, ghost ps: seq<Coord>, ghost v: nat, ghost a: nat, ghost k: nat, ghost c: int)
    returns (ry: real)
    requires g.x == x && vi == v + k && a <= k < |ps| && v + |ps| <= |values| && ps[k] == Coord(j - g.rs + 1, c + 1)
         && j < |x|
    requires ry0 == Sum(Stretch(ps, values, v, a, k), g.Mirror(c))
    ensures ry == Sum(Stretch(ps, values, v, a, k + 1), g.Mirror(c))
  {
    hide Stretch, Sum, SymJob.Mirror;
    MirrorSum(g, ps, values, v, a, k, j, c);
    ry := ry0 + x[j] * values[vi];
  }

  /** yr += x_c v_k, the products of one row gathered in a register. */
  method DirectRegister(x: seq<real>, c: nat, values: seq<real>, vi: nat, yr0: real,
                        ghost g: SymJob, ghost ps: seq<Coord>, ghost v: nat, ghost a: nat, ghost k: nat, ghost j: int)
    returns (yr: real)
    requires g.x == x && vi == v + k && a <= k < |ps| && v + |ps| <= |values| && ps[k] == Coord(j - g.rs + 1, c + 1)
         && c < |x|
    requires yr0 == Sum(Stretch(ps, values, v, a, k), g.Term(j))
    ensures yr == Sum(Stretch(ps, values, v, a, k + 1), g.Term(j))
  {
    hide Stretch, Sum, SymJob.Term;
    DirectSum(g, ps, values, v, a, k, j, c);
    yr := yr0 + x[c] * values[vi];
  }

  lemma StretchInCol(ps: seq<Coord>, values: seq<real>, v: nat, a: nat, b: nat, col: int)
    requires a <= b <= |ps| && v + b <= |values|
    requires forall k :: a <= k < b ==> ps[k].x == col
    ensures InCol(Stretch(ps, values, v, a, b), col)
  {
  }

  // ----- One routine a unit type

  /** One column, every `delta` rows: the mirror images gather in a register. */
  method VertSymCase(y: array<real>, ghost t: array<real>, cur: array<real>, yIndx: nat, xIndx: nat, size: nat,
                     delta: nat, values: seq<real>, v: nat,
                     x: seq<real>, ghost own: bool, ghost g: SymJob, ghost acc: seq<Entry>, ghost at: int, ghost yr: real, ghost log0: seq<Op<Cell>>)
    returns (ghost log: seq<Op<Cell>>)
    requires delta >= 1 && size >= 1 && g.x == x && g.rs <= yIndx && Vectors(g, y, t, cur, own)
    requires SymReady(g, log0, y[..], t[..], acc, at, yr, PatternPlaces(Vertical, Coord(yIndx - g.rs + 1, xIndx + 1), size, delta), values, v, own)
    modifies y, cur
    ensures var es := UnitEntries(PatternPlaces(Vertical, Coord(yIndx - g.rs + 1, xIndx + 1), size, delta), values, v);
            g.Keeps(log, y[..], t[..], acc + es, acc + es, at, yr)
  {
    hide SymJob.Keeps, SymReady, Stretch, Times, Sum, SymJob.Mirror, SymJob.Term, RowTerm, InCol, PatternPlaces;
    log := log0;
    ghost var ps := PatternPlaces(Vertical, Coord(yIndx - g.rs + 1, xIndx + 1), size, delta);
    ghost var y0, t0 := y[..], t[..];
    SymStart(g, log0, y0, t0, acc, at, yr, ps, values, v, own);
    VertPlace(yIndx - g.rs + 1, xIndx + 1, delta, 0);
    TimesZero(delta);
    SymPlace(g, log0, y0, t0, acc, at, yr, ps, values, v, own, 0);
    SumNone(ps, values, v, 0, g.Mirror(xIndx));
    var ry, i, vi := 0.0, 0, v;
    ghost var k := 0;
    while i < Times(delta, size)
      invariant 0 <= k <= size && i == Times(delta, k) && vi == v + k && |y[..]| == |y0|
      invariant ry == Sum(Stretch(ps, values, v, 0, k), g.Mirror(xIndx))
      invariant g.Keeps(log, y[..], t[..], acc + Stretch(ps, values, v, 0, k), acc, at, yr)
      decreases size - k
    {
      TimesLess(delta, k, size);
      VertPlace(yIndx - g.rs + 1, xIndx + 1, delta, k);
      SymPlace(g, log0, y0, t0, acc, at, yr, ps, values, v, own, k);
      log := DirectPlace(y, t, yIndx + i, xIndx, x, values, v, k, vi, g, acc, acc, at, yr, ps, log);
      ry := MirrorRegister(x, yIndx + i, values, vi, ry, g, ps, v, 0, k, xIndx);
      vi := vi + 1;
      TimesSucc(delta, k);
      i := i + delta;
      k := k + 1;
    }
    TimesLess(delta, k, size);
    VertInCol(yIndx - g.rs + 1, xIndx + 1, delta, size, values, v);
    log := AddCur(y, t, cur, xIndx, ry, own, g, acc + Stretch(ps, values, v, 0, size), acc, at, yr,
           Stretch(ps, values, v, 0, size), log);
  }

  lemma VertInCol(row: int, col: int, delta: nat, size: nat, values: seq<real>, v: nat)
    requires v + size <= |values|
    ensures InCol(Stretch(PatternPlaces(Vertical, Coord(row, col), size, delta), values, v, 0, size), col)
  {
    StretchInCol(PatternPlaces(Vertical, Coord(row, col), size, delta), values, v, 0, size, col);
  }

  /** A diagonal. */
  method DiagSymCase(y: array<real>, ghost t: array<real>, cur: array<real>, yIndx: nat, xIndx: nat, size: nat,
                     delta: nat, values: seq<real>, v: nat,
                     x: seq<real>, ghost own: bool, ghost g: SymJob, ghost acc: seq<Entry>, ghost at: int, ghost yr: real, ghost log0: seq<Op<Cell>>)
    returns (ghost log: seq<Op<Cell>>)
    requires delta >= 1 && size >= 1 && g.x == x && g.rs <= yIndx && Vectors(g, y, t, cur, own)
    requires SymReady(g, log0, y[..], t[..], acc, at, yr, PatternPlaces(Diagonal, Coord(yIndx - g.rs + 1, xIndx + 1), size, delta), values, v, own)
    modifies y, cur
    ensures var es := UnitEntries(PatternPlaces(Diagonal, Coord(yIndx - g.rs + 1, xIndx + 1), size, delta), values, v);
            g.Keeps(log, y[..], t[..], acc + es, acc + es, at, yr)
  {
    hide SymJob.Keeps, SymReady, Stretch, Times;
    log := log0;
    ghost var ps := PatternPlaces(Diagonal, Coord(yIndx - g.rs + 1, xIndx + 1), size, delta);
    ghost var y0, t0 := y[..], t[..];
    SymStart(g, log0, y0, t0, acc, at, yr, ps, values, v, own);
    TimesZero(delta);
    var i, vi := 0, v;
    ghost var k := 0;
    while i < Times(delta, size)
      invariant 0 <= k <= size && i == Times(delta, k) && vi == v + k && |y[..]| == |y0|
      invariant g.Keeps(log, y[..], t[..], acc + Stretch(ps, values, v, 0, k), acc + Stretch(ps, values, v, 0, k), at, yr)
      decreases size - k
    {
      TimesLess(delta, k, size);
      DiagPlace(yIndx - g.rs + 1, xIndx + 1, delta, k);
      SymPlace(g, log0, y0, t0, acc, at, yr, ps, values, v, own, k);
      log := DirectPlace(y, t, yIndx + i, xIndx + i, x, values, v, k, vi, g, acc, acc + Stretch(ps, values, v, 0, k), at, yr,
                  ps, log);
      log := MirrorPlace(y, t, cur, yIndx + i, xIndx + i, x, values, v, k, vi, own, g, acc + Stretch(ps, values, v, 0, k + 1),
                  acc, at, yr, ps, log);
      vi := vi + 1;
      TimesSucc(delta, k);
      i := i + delta;
      k := k + 1;
    }
    TimesLess(delta, k, size);
  }

  /** A reverse diagonal: the columns run down. */
  method RdiagSymCase(y: array<real>, ghost t: array<real>, cur: array<real>, yIndx: nat, xIndx: nat, size: nat,
                      delta: nat, values: seq<real>, v: nat,
                     x: seq<real>, ghost own: bool, ghost g: SymJob, ghost acc: seq<Entry>, ghost at: int, ghost yr: real, ghost log0: seq<Op<Cell>>)
    returns (ghost log: seq<Op<Cell>>)
    requires delta >= 1 && size >= 1 && g.x == x && g.rs <= yIndx && Vectors(g, y, t, cur, own)
    requires SymReady(g, log0, y[..], t[..], acc, at, yr, PatternPlaces(RevDiagonal, Coord(yIndx - g.rs + 1, xIndx + 1), size, delta), values, v, own)
    modifies y, cur
    ensures var es := UnitEntries(PatternPlaces(RevDiagonal, Coord(yIndx - g.rs + 1, xIndx + 1), size, delta), values,
                                  v);
            g.Keeps(log, y[..], t[..], acc + es, acc + es, at, yr)
  {
    hide SymJob.Keeps, SymReady, Stretch, Times;
    log := log0;
    ghost var ps := PatternPlaces(RevDiagonal, Coord(yIndx - g.rs + 1, xIndx + 1), size, delta);
    ghost var y0, t0 := y[..], t[..];
    SymStart(g, log0, y0, t0, acc, at, yr, ps, values, v, own);
    TimesZero(delta);
    var i, vi := 0, v;
    var xp := xIndx as int;
    ghost var k := 0;
    while i < Times(delta, size)
      invariant 0 <= k <= size && i == Times(delta, k) && vi == v + k && |y[..]| == |y0|
      invariant xp == xIndx - i
      invariant g.Keeps(log, y[..], t[..], acc + Stretch(ps, values, v, 0, k), acc + Stretch(ps, values, v, 0, k), at, yr)
      decreases size - k
    {
      TimesLess(delta, k, size);
      RdiagPlace(yIndx - g.rs + 1, xIndx + 1, delta, k);
      SymPlace(g, log0, y0, t0, acc, at, yr, ps, values, v, own, k);
      log := DirectPlace(y, t, yIndx + i, xp, x, values, v, k, vi, g, acc, acc + Stretch(ps, values, v, 0, k), at, yr,
                         ps, log);
      log := MirrorPlace(y, t, cur, yIndx + i, xp, x, values, v, k, vi, own, g, acc + Stretch(ps, values, v, 0, k + 1), acc,
                  at, yr, ps, log);
      vi := vi + 1;
      xp := xp - delta;
      TimesSucc(delta, k);
      i := i + delta;
      k := k + 1;
    }
    TimesLess(delta, k, size);
  }

  /** A stretch of one row, every `delta` columns. */
  method HorizSymCase(y: array<real>, ghost t: array<real>, cur: array<real>, yIndx: nat, xIndx: nat, size: nat,
                      delta: nat, values: seq<real>, v: nat,
                      x: seq<real>, ghost own: bool, ghost g: SymJob, ghost acc: seq<Entry>, ghost yr0: real, ghost log0: seq<Op<Cell>>)
    returns (ghost log: seq<Op<Cell>>, yr: real, xLast: nat)
    requires delta >= 1 && size >= 1 && g.x == x && g.rs <= yIndx && Vectors(g, y, t, cur, own)
    requires SymReady(g, log0, y[..], t[..], acc, yIndx, yr0, PatternPlaces(Horizontal, Coord(yIndx - g.rs + 1, xIndx + 1), size, delta), values, v, own)
    modifies cur
    ensures xLast == xIndx + Times(delta, size - 1)
    ensures var es := UnitEntries(PatternPlaces(Horizontal, Coord(yIndx - g.rs + 1, xIndx + 1), size, delta), values,
                                  v);
            g.Keeps(log, y[..], t[..], acc + es, acc + es, yIndx, yr0 + yr)
  {
    hide SymJob.Keeps, SymReady, Stretch, Times, Sum, SymJob.Term;
    log := log0;
    ghost var ps := PatternPlaces(Horizontal, Coord(yIndx - g.rs + 1, xIndx + 1), size, delta);
    ghost var y0, t0 := y[..], t[..];
    SymStart(g, log0, y0, t0, acc, yIndx, yr0, ps, values, v, own);
    TimesZero(delta);
    SumNone(ps, values, v, 0, g.Term(yIndx));
    yr := 0.0;
    var i, vi := 0, v;
    ghost var k := 0;
    while i < Times(delta, size)
      invariant 0 <= k <= size && i == Times(delta, k) && vi == v + k && |y[..]| == |y0|
      invariant yr == Sum(Stretch(ps, values, v, 0, k), g.Term(yIndx))
      invariant g.Keeps(log, y[..], t[..], acc, acc + Stretch(ps, values, v, 0, k), yIndx, yr0)
      decreases size - k
    {
      TimesLess(delta, k, size);
      HorizPlace(yIndx - g.rs + 1, xIndx + 1, delta, k);
      SymPlace(g, log0, y0, t0, acc, yIndx, yr0, ps, values, v, own, k);
      yr := DirectRegister(x, xIndx + i, values, vi, yr, g, ps, v, 0, k, yIndx);
      log := MirrorPlace(y, t, cur, yIndx, xIndx + i, x, values, v, k, vi, own, g, acc, acc, yIndx, yr0, ps, log);
      vi := vi + 1;
      TimesSucc(delta, k);
      i := i + delta;
      k := k + 1;
    }
    TimesLess(delta, k, size);
    StepOnce(0, delta, size);
    HorizPlace(yIndx - g.rs + 1, xIndx + 1, delta, size - 1);
    xLast := xIndx + (i - delta);
    StretchInRow(ps, values, v, 0, size, yIndx - g.rs + 1);
    KeepRunning(g, log, y[..], t[..], acc, acc + Stretch(ps, values, v, 0, size), yIndx, yr0,
                Stretch(ps, values, v, 0, size), yr);
    log := log + [g.RunningOp(Stretch(ps, values, v, 0, size), yIndx)];
  }

  /** Columns given by byte deltas, all in one row. */
  method DeltaSymCase(ctl: seq<byte>, at: nat, size: nat, w: nat, y: array<real>, ghost t: array<real>,
                      cur: array<real>, yIndx: nat, xIndx: nat,
                      values: seq<real>, v: nat, x: seq<real>, ghost ds: seq<nat>, ghost rest: seq<byte>,
                      ghost own: bool, ghost g: SymJob, ghost acc: seq<Entry>, ghost yr0: real, ghost log0: seq<Op<Cell>>)
    returns (ghost log: seq<Op<Cell>>, yr: real, pos: nat, xLast: nat)
    requires w >= 1 && size == |ds| + 1 && (ds == [] ==> w == 1) && g.x == x && g.rs <= yIndx && Vectors(g, y, t, cur, own)
    requires forall i :: 0 <= i < |ds| ==> ds[i] < Pow256(w)
    requires at <= |ctl| && ctl[at..] == (if ds == [] then [] else Zeros(Pad(at, w)) + PutAll(ds, w)) + rest
    requires SymReady(g, log0, y[..], t[..], acc, yIndx, yr0, DeltaPlaces(yIndx - g.rs, xIndx, ds), values, v, own)
    modifies cur
    ensures xLast == xIndx + SumOf(ds)
    ensures pos == at + if ds == [] then 0 else |Zeros(Pad(at, w)) + PutAll(ds, w)|
    ensures v + |DeltaPlaces(yIndx - g.rs, xIndx, ds)| <= |values|
    ensures var es := UnitEntries(DeltaPlaces(yIndx - g.rs, xIndx, ds), values, v);
            g.Keeps(log, y[..], t[..], acc + es, acc + es, yIndx, yr0 + yr)
  {
    hide SymJob.Keeps, SymReady, Stretch, Times, SymJob.Term, Sum, SumOf, DeltaPlaces, GetLE, PutAll, Pow256, Pad, Zeros, AlignPtr;
    log := log0;
    ghost var ps := DeltaPlaces(yIndx - g.rs, xIndx, ds);
    ghost var y0, t0 := y[..], t[..];
    DeltaFirst(yIndx - g.rs, xIndx, ds);
    SymStart(g, log0, y0, t0, acc, yIndx, yr0, ps, values, v, own);
    pos := at;
    AlignIsPad(at, w);
    if w > 1 {
      pos := AlignPtr(at, w);
    }
    ghost var base := pos;
    PutAllLength(ds, w);
    TimesZero(w);
    xLast := xIndx;
    SumNone(ps, values, v, 0, g.Term(yIndx));
    DeltaSymPlace(g, log0, y0, t0, acc, yIndx, yr0, xIndx, ds, values, v, own, 0);
    yr := x[xLast] * values[v];
    log := MirrorPlace(y, t, cur, yIndx, xLast, x, values, v, 0, v, own, g, acc, acc, yIndx, yr0, ps, log);
    var i := 1;
    while i < size
      invariant 1 <= i <= size && |y[..]| == |y0|
      invariant xLast == xIndx + SumOf(ds[..i - 1])
      invariant pos == base + Times(w, i - 1)
      invariant yr == Sum(Stretch(ps, values, v, 0, i), g.Term(yIndx))
      invariant g.Keeps(log, y[..], t[..], acc, acc + Stretch(ps, values, v, 0, i), yIndx, yr0)
    {
      DeltaBytesAt(ctl, at, w, ds, rest, i - 1);
      SumOfMore(ds, i - 1);
      xLast := xLast + GetLE(ctl[pos..pos + w]);
      StepOnce(0, w, i);
      pos := pos + w;
      DeltaSymPlace(g, log0, y0, t0, acc, yIndx, yr0, xIndx, ds, values, v, own, i);
      yr := yr + x[xLast] * values[v + i];
      log := MirrorPlace(y, t, cur, yIndx, xLast, x, values, v, i, v + i, own, g, acc, acc, yIndx, yr0, ps, log);
      i := i + 1;
    }
    Whole(ds);
    DeltaInRow(yIndx - g.rs, xIndx, ds, values, v, size);
    KeepRunning(g, log, y[..], t[..], acc, acc + Stretch(ps, values, v, 0, size), yIndx, yr0,
                Stretch(ps, values, v, 0, size), yr);
    log := log + [g.RunningOp(Stretch(ps, values, v, 0, size), yIndx)];
  }

  lemma DeltaSymPlace(g: SymJob, ops: seq<Op<Cell>>, y: seq<real>, t: seq<real>, acc: seq<Entry>, j: nat, yr: real,
                      col: nat, ds: seq<nat>,
                      values: seq<real>, v: nat, own: bool, k: nat)
    requires k <= |ds| && SymReady(g, ops, y, t, acc, j, yr, DeltaPlaces(j - g.rs, col, ds), values, v, own)
    ensures |DeltaPlaces(j - g.rs, col, ds)| == |ds| + 1 && v + |ds| < |values|
    ensures DeltaPlaces(j - g.rs, col, ds)[k] == Coord(j - g.rs + 1, col + SumOf(ds[..k]) + 1)
    ensures col + SumOf(ds[..k]) < g.task.end && g.rs <= j < g.task.end <= |g.x| && (own <==> col + SumOf(ds[..k]) >= g.rs)
    ensures Sum(Stretch(DeltaPlaces(j - g.rs, col, ds), values, v, 0, k + 1), g.Term(j))
         == Sum(Stretch(DeltaPlaces(j - g.rs, col, ds), values, v, 0, k), g.Term(j))
              + g.x[col + SumOf(ds[..k])] * values[v + k]
    ensures SumOf(ds[..0]) == 0
  {
    hide SymJob.Keeps, Stretch, SymJob.Term, Sum, DeltaPlaces, SymReady, SumOf;
    var ps := DeltaPlaces(j - g.rs, col, ds);
    DeltaPlaceAt(j - g.rs, col, ds, k);
    SymStart(g, ops, y, t, acc, j, yr, ps, values, v, own);
    SymPlace(g, ops, y, t, acc, j, yr, ps, values, v, own, k);
    DirectSum(g, ps, values, v, 0, k, j, col + SumOf(ds[..k]));
    SumOfNone();
    assert ds[..0] == [];
  }

  // ----- Blocks

  lemma ColOne(r: BlockDim, c: nat, row: int, col: int, i: nat)
    requires i < c
    ensures 0 <= Times(r, i) && Times(r, i) + r <= r * c
    ensures forall k :: Times(r, i) <= k < Times(r, i) + r ==> PatternPlaces(BlockRow(r), Coord(row, col), r * c, 1)[k].x == col + i
  {
    hide Times, PatternPlaces;
    BlockIndex(r, i, 0, c);
    TimesNext(r, i, c);
    BlockSize(r, c);
    forall k | Times(r, i) <= k < Times(r, i) + r
      ensures PatternPlaces(BlockRow(r), Coord(row, col), r * c, 1)[k].x == col + i
    {
      BlockRowPlace(r, c, row, col, i, k - Times(r, i));
    }
  }

  /** A block of r rows, column by column: the mirror images of a column gather in a
      register. */
  method BlockRowSymCase(y: array<real>, ghost t: array<real>, cur: array<real>, yIndx: nat, xIndx: nat, r: BlockDim,
                         c: nat,
                         values: seq<real>, v: nat, x: seq<real>,
                         ghost own: bool, ghost g: SymJob, ghost acc: seq<Entry>, ghost at: int, ghost yr: real, ghost log0: seq<Op<Cell>>)
    returns (ghost log: seq<Op<Cell>>)
    requires c >= 1 && g.x == x && g.rs <= yIndx && Vectors(g, y, t, cur, own)
    requires SymReady(g, log0, y[..], t[..], acc, at, yr, PatternPlaces(BlockRow(r), Coord(yIndx - g.rs + 1, xIndx + 1), r * c, 1), values, v, own)
    modifies y, cur
    ensures var es := UnitEntries(PatternPlaces(BlockRow(r), Coord(yIndx - g.rs + 1, xIndx + 1), r * c, 1), values, v);
            g.Keeps(log, y[..], t[..], acc + es, acc + es, at, yr)
  {
    hide SymJob.Keeps, SymReady, Stretch, Times, PatternPlaces, SymJob.Mirror, Sum, InCol;
    log := log0;
    ghost var ps := PatternPlaces(BlockRow(r), Coord(yIndx - g.rs + 1, xIndx + 1), r * c, 1);
    ghost var y0, t0 := y[..], t[..];
    SymStart(g, log0, y0, t0, acc, at, yr, ps, values, v, own);
    var i, vi := 0, v;
    TimesZero(r);
    BlockSize(r, c);
    while i < c
      invariant 0 <= i <= c && vi == v + Times(r, i) && 0 <= Times(r, i) <= |ps| && |y[..]| == |y0|
      invariant g.Keeps(log, y[..], t[..], acc + Stretch(ps, values, v, 0, Times(r, i)), acc + Stretch(ps, values, v, 0, Times(r, i)), at, yr)
    {
      ColOne(r, c, yIndx - g.rs + 1, xIndx + 1, i);
      BlockRowPlace(r, c, yIndx - g.rs + 1, xIndx + 1, i, 0);
      SymPlace(g, log0, y0, t0, acc, at, yr, ps, values, v, own, Times(r, i));
      var ry;
      log, ry := SymColumn(y, t, yIndx, xIndx, i, r, c, values, v, vi, x, own, g, y0, t0, acc, at, yr, log0, log);
      ghost var es := Stretch(ps, values, v, Times(r, i), Times(r, i) + r);
      StretchInCol(ps, values, v, Times(r, i), Times(r, i) + r, xIndx + i + 1);
      StretchGlue(ps, values, v, Times(r, i), Times(r, i) + r);
      Assoc(acc, Stretch(ps, values, v, 0, Times(r, i)), es);
      log := AddCur(y, t, cur, xIndx + i, ry, own, g, acc + Stretch(ps, values, v, 0, Times(r, i) + r),
             acc + Stretch(ps, values, v, 0, Times(r, i)), at, yr, es, log);
      vi := vi + r;
      TimesNext(r, i, c);
      i := i + 1;
    }
  }

  /** Column i of a block: the inner loop. */
  method SymColumn(y: array<real>, ghost t: array<real>, yIndx: nat, xIndx: nat, i: nat, r: BlockDim, ghost c: nat,
                   values: seq<real>, ghost v: nat, vi: nat, x: seq<real>,
                   ghost own: bool, ghost g: SymJob, ghost y0: seq<real>, ghost t0: seq<real>, ghost acc: seq<Entry>, ghost at: int, ghost yr: real, ghost first: seq<Op<Cell>>, ghost log0: seq<Op<Cell>>)
    returns (ghost log: seq<Op<Cell>>, ry: real)
    requires i < c && vi == v + Times(r, i) && g.x == x && g.rs <= yIndx && (g.alias <==> y == t) && |y[..]| == |y0|
    requires SymReady(g, first, y0, t0, acc, at, yr, PatternPlaces(BlockRow(r), Coord(yIndx - g.rs + 1, xIndx + 1), r * c, 1), values, v, own)
    requires 0 <= Times(r, i) && Times(r, i) + r <= r * c && v + r * c <= |values|
    requires var ps := PatternPlaces(BlockRow(r), Coord(yIndx - g.rs + 1, xIndx + 1), r * c, 1);
             var done := acc + Stretch(ps, values, v, 0, Times(r, i));
             g.Keeps(log0, y[..], t[..], done, done, at, yr)
    modifies y
    ensures var ps := PatternPlaces(BlockRow(r), Coord(yIndx - g.rs + 1, xIndx + 1), r * c, 1);
            && g.Keeps(log, y[..], t[..], acc + Stretch(ps, values, v, 0, Times(r, i) + r), acc + Stretch(ps, values, v, 0, Times(r, i)), at, yr)
            && ry == Sum(Stretch(ps, values, v, Times(r, i), Times(r, i) + r), g.Mirror(xIndx + i))
  {
    hide SymJob.Keeps, SymReady, Stretch, Times, PatternPlaces, SymJob.Mirror, Sum, SymJob.Term, RowTerm, MirrorTerm, InRow, InCol;
    log := log0;
    ghost var ps := PatternPlaces(BlockRow(r), Coord(yIndx - g.rs + 1, xIndx + 1), r * c, 1);
    ghost var k0 := Times(r, i);
    ghost var done := acc + Stretch(ps, values, v, 0, k0);
    SymStart(g, first, y0, t0, acc, at, yr, ps, values, v, own);
    SumNone(ps, values, v, k0, g.Mirror(xIndx + i));
    ry := 0.0;
    var j := 0;
    while j < r
      invariant 0 <= j <= r && |y[..]| == |y0|
      invariant ry == Sum(Stretch(ps, values, v, k0, k0 + j), g.Mirror(xIndx + i))
      invariant g.Keeps(log, y[..], t[..], acc + Stretch(ps, values, v, 0, k0 + j), done, at, yr)
    {
      BlockRowPlace(r, c, yIndx - g.rs + 1, xIndx + 1, i, j);
      SymPlace(g, first, y0, t0, acc, at, yr, ps, values, v, own, k0 + j);
      log := DirectPlace(y, t, yIndx + j, xIndx + i, x, values, v, k0 + j, vi + j, g, acc, done, at, yr, ps, log);
      ry := MirrorRegister(x, yIndx + j, values, vi + j, ry, g, ps, v, k0, k0 + j, xIndx + i);
      j := j + 1;
    }
  }

  /** A block of c columns, row by row: the products of a row gather in a register. */
  method BlockColSymCase(y: array<real>, ghost t: array<real>, cur: array<real>, yIndx: nat, xIndx: nat, r: nat,
                         c: BlockDim,
                         values: seq<real>, v: nat, x: seq<real>,
                         ghost own: bool, ghost g: SymJob, ghost acc: seq<Entry>, ghost at: int, ghost yr0: real, ghost log0: seq<Op<Cell>>)
    returns (ghost log: seq<Op<Cell>>)
    requires r >= 1 && g.x == x && g.rs <= yIndx && Vectors(g, y, t, cur, own)
    requires SymReady(g, log0, y[..], t[..], acc, at, yr0, PatternPlaces(BlockCol(c), Coord(yIndx - g.rs + 1, xIndx + 1), c * r, 1), values, v, own)
    modifies y, cur
    ensures var es := UnitEntries(PatternPlaces(BlockCol(c), Coord(yIndx - g.rs + 1, xIndx + 1), c * r, 1), values, v);
            g.Keeps(log, y[..], t[..], acc + es, acc + es, at, yr0)
  {
    hide SymJob.Keeps, SymReady, Stretch, Times, PatternPlaces, SymJob.Term, Sum, InRow;
    log := log0;
    ghost var ps := PatternPlaces(BlockCol(c), Coord(yIndx - g.rs + 1, xIndx + 1), c * r, 1);
    ghost var y0, t0 := y[..], t[..];
    SymStart(g, log0, y0, t0, acc, at, yr0, ps, values, v, own);
    var i, vi := 0, v;
    TimesZero(c);
    BlockSize(c, r);
    while i < r
      invariant 0 <= i <= r && vi == v + Times(c, i) && 0 <= Times(c, i) <= |ps| && |y[..]| == |y0|
      invariant g.Keeps(log, y[..], t[..], acc + Stretch(ps, values, v, 0, Times(c, i)), acc + Stretch(ps, values, v, 0, Times(c, i)), at, yr0)
    {
      BlockRowOne(r, c, yIndx - g.rs + 1, xIndx + 1, i);
      BlockColPlace(r, c, yIndx - g.rs + 1, xIndx + 1, i, 0);
      SymPlace(g, log0, y0, t0, acc, at, yr0, ps, values, v, own, Times(c, i));
      var yr;
      log, yr := SymRow(y, t, cur, yIndx, xIndx, i, r, c, values, v, vi, x, own, g, y0, t0, acc, at, yr0, log0, log);
      ghost var es := Stretch(ps, values, v, Times(c, i), Times(c, i) + c);
      StretchInRow(ps, values, v, Times(c, i), Times(c, i) + c, yIndx + i - g.rs + 1);
      StretchGlue(ps, values, v, Times(c, i), Times(c, i) + c);
      Assoc(acc, Stretch(ps, values, v, 0, Times(c, i)), es);
      log := AddY(y, t, yIndx + i, yr, g, acc + Stretch(ps, values, v, 0, Times(c, i)),
           acc + Stretch(ps, values, v, 0, Times(c, i) + c), at, yr0, es, log);
      vi := vi + c;
      TimesNext(c, i, r);
      i := i + 1;
    }
  }

  /** Row i of a block: the inner loop. */
  method SymRow(ghost y: array<real>, ghost t: array<real>, cur: array<real>, yIndx: nat, xIndx: nat, i: nat,
                ghost r: nat, c: BlockDim,
                values: seq<real>, ghost v: nat, vi: nat, x: seq<real>,
                ghost own: bool, ghost g: SymJob, ghost y0: seq<real>, ghost t0: seq<real>, ghost acc: seq<Entry>, ghost at: int, ghost yr0: real, ghost first: seq<Op<Cell>>, ghost log0: seq<Op<Cell>>)
    returns (ghost log: seq<Op<Cell>>, yr: real)
    requires i < r && vi == v + Times(c, i) && g.x == x && g.rs <= yIndx && Vectors(g, y, t, cur, own)
         && |y[..]| == |y0|
    requires SymReady(g, first, y0, t0, acc, at, yr0, PatternPlaces(BlockCol(c), Coord(yIndx - g.rs + 1, xIndx + 1), c * r, 1), values, v, own)
    requires 0 <= Times(c, i) && Times(c, i) + c <= c * r && v + c * r <= |values|
    requires var ps := PatternPlaces(BlockCol(c), Coord(yIndx - g.rs + 1, xIndx + 1), c * r, 1);
             var done := acc + Stretch(ps, values, v, 0, Times(c, i));
             g.Keeps(log0, y[..], t[..], done, done, at, yr0)
    modifies cur
    ensures var ps := PatternPlaces(BlockCol(c), Coord(yIndx - g.rs + 1, xIndx + 1), c * r, 1);
            && g.Keeps(log, y[..], t[..], acc + Stretch(ps, values, v, 0, Times(c, i)), acc + Stretch(ps, values, v, 0, Times(c, i) + c), at, yr0)
            && yr == Sum(Stretch(ps, values, v, Times(c, i), Times(c, i) + c), g.Term(yIndx + i))
  {
    hide *;
    log := log0;
    ghost var ps := PatternPlaces(BlockCol(c), Coord(yIndx - g.rs + 1, xIndx + 1), c * r, 1);
    ghost var k0 := Times(c, i);
    ghost var done := acc + Stretch(ps, values, v, 0, k0);
    SymStart(g, first, y0, t0, acc, at, yr0, ps, values, v, own);
    SumNone(ps, values, v, k0, g.Term(yIndx + i));
    yr := 0.0;
    var j := 0;
    while j < c
      invariant 0 <= j <= c && |y[..]| == |y0|
      invariant yr == Sum(Stretch(ps, values, v, k0, k0 + j), g.Term(yIndx + i))
      invariant g.Keeps(log, y[..], t[..], done, acc + Stretch(ps, values, v, 0, k0 + j), at, yr0)
    {
      BlockColPlace(r, c, yIndx - g.rs + 1, xIndx + 1, i, j);
      SymPlace(g, first, y0, t0, acc, at, yr0, ps, values, v, own, k0 + j);
      yr := DirectRegister(x, xIndx + j, values, vi + j, yr, g, ps, v, k0, k0 + j, yIndx + i);
      log := MirrorPlace(y, t, cur, yIndx + i, xIndx + j, x, values, v, k0 + j, vi + j, own, g, done, acc, at, yr0, ps,
                         log);
      j := j + 1;
    }
  }

  // ----- The diagonal

  /** Applies the diagonal to the next rows. */
  method DiagonalRows(y: array<real>, ghost t: array<real>, x: seq<real>, dv: seq<real>, yIndx: nat, d: nat, count: nat,
                      ghost g: SymJob, ghost acc: seq<Entry>, ghost log0: seq<Op<Cell>>)
    returns (ghost log: seq<Op<Cell>>)
    requires (g.alias <==> y == t) && g.x == x && |x| == |g.z| && d + count <= |dv| && yIndx == g.rs + d
         && yIndx + count <= g.task.end <= |x| && g.task.count == 0
    requires WithDiagonal(g, d, dv).Keeps(log0, y[..], t[..], acc, acc, -1, 0.0)
    modifies y
    ensures WithDiagonal(g, d + count, dv).Keeps(log, y[..], t[..], acc, acc, -1, 0.0)
  {
    hide SymJob.Keeps, AddDiagonal;
    log := log0;
    var i, n := 0, d;
    while i < count
      invariant 0 <= i <= count && n == d + i
      invariant WithDiagonal(g, n, dv).Keeps(log, y[..], t[..], acc, acc, -1, 0.0)
    {
      ghost var y0, t0 := y[..], t[..];
      KeepsSizes(WithDiagonal(g, n, dv), log, y0, t0, acc, acc, -1, 0.0);
      BalLength(g, n, dv);
      var j := yIndx + i;
      var sum := x[j] * dv[n];
      assert j == g.rs + n && sum == Mul(g.x[g.rs + n], dv[n]);
      y[j] := y[j] + sum;
      assert y[..] == y0[j := y0[j] + sum];
      KeepDiagonal(g, n, dv, log, y0, t0, acc, t[..]);
      log := log + [WithDiagonal(g, n, dv).DiagonalOp(n)];
      i, n := i + 1, n + 1;
    }
  }

  // ----- The interpreter

  /** Runs the routine of one unit. */
  method SymUnitCase(ctl: seq<byte>, at: nat, size: nat, id: int, y: array<real>, t: array<real>, cur: array<real>,
                     yIndx: nat, xIndx: nat,
                     values: seq<real>, v: nat, x: seq<real>, ghost full: bool, ghost u: Unit, ghost rest: seq<byte>,
                     ghost own: bool, ghost g: SymJob, ghost acc: seq<Entry>, ghost yr0: real, ghost log0: seq<Op<Cell>>)
    returns (ghost log: seq<Op<Cell>>, yr: real, pos: nat, xLast: nat)
    requires GoodUnit(full, u) && size == u.size && id == u.id && g.x == x && g.rs <= yIndx
         && Vectors(g, y, t, cur, own)
    requires at <= |ctl| && ctl[at..] == TailBytes(at, u) + rest
    requires SymReady(g, log0, y[..], t[..], acc, yIndx, yr0, UnitPlaces(u, Cursor(yIndx - g.rs, xIndx)), values, v, own)
    modifies y, t
    ensures v + |UnitPlaces(u, Cursor(yIndx - g.rs, xIndx))| <= |values|
    ensures var es := UnitEntries(UnitPlaces(u, Cursor(yIndx - g.rs, xIndx)), values, v);
            g.Keeps(log, y[..], t[..], acc + es, acc + es, yIndx, yr0 + yr)
    ensures pos == at + |TailBytes(at, u)| && xLast == EndAt(u, Cursor(yIndx - g.rs, xIndx)).col
  {
    hide SymJob.Keeps, SymReady, UnitEntries, DeltaPlaces, PatternPlaces, SumOf, Times, Zeros, Pad, PutAll, Pow256;
    log := log0;
    ghost var ps := UnitPlaces(u, Cursor(yIndx - g.rs, xIndx));
    SymStart(g, log0, y[..], t[..], acc, yIndx, yr0, ps, values, v, own);
    yr, pos, xLast := 0.0, at, xIndx;
    var param := id % PID_OFFSET;
    if id < PID_OFFSET {
      log, yr, pos, xLast := DeltaSymCase(ctl, at, size, id / 8, y, t, cur, yIndx, xIndx, values, v, x, u.deltas, rest, own,
                                     g, acc, yr0, log);
    } else {
      match OfCode(id / PID_OFFSET)
      case Horizontal =>
        log, yr, xLast := HorizSymCase(y, t, cur, yIndx, xIndx, size, param, values, v, x, own, g, acc, yr0, log);
      case Vertical =>
        log := VertSymCase(y, t, cur, yIndx, xIndx, size, param, values, v, x, own, g, acc, yIndx, yr0, log);
      case Diagonal =>
        log := DiagSymCase(y, t, cur, yIndx, xIndx, size, param, values, v, x, own, g, acc, yIndx, yr0, log);
      case RevDiagonal =>
        log := RdiagSymCase(y, t, cur, yIndx, xIndx, size, param, values, v, x, own, g, acc, yIndx, yr0, log);
      case BlockRow(r) =>
        log := BlockRowSymCase(y, t, cur, yIndx, xIndx, r, param, values, v, x, own, g, acc, yIndx, yr0, log);
      case BlockCol(c) =>
        log := BlockColSymCase(y, t, cur, yIndx, xIndx, param, c, values, v, x, own, g, acc, yIndx, yr0, log);
    }
  }

  /** A stream of units that the kernel can run: n rows, every unit on one side of the
      split, columns never going back inside a row. */
  ghost predicate Runs(g: SymJob, csx: Csx, us: seq<Unit>, n: nat) {
    && |g.x| == |g.z| == |g.tz| && g.rs + n == g.task.end <= |g.x| && csx.rowStart == g.rs && g.task.count == 0
    && csx.ctl == Emit(csx.full, us) && UnitsKnown(csx, us) && |StreamPlaces(csx.full, us)| == |csx.values|
    && Sided(csx.full, us, g.rs) && Forward(csx.full, us)
    && forall i :: 0 <= i < |StreamPlaces(csx.full, us)| ==>
         1 <= StreamPlaces(csx.full, us)[i].y <= n && 1 <= StreamPlaces(csx.full, us)[i].x <= g.task.end
  }

  /** What it says about unit k. */
  lemma RunsAt(g: SymJob, csx: Csx, us: seq<Unit>, n: nat, k: nat)
    requires k < |us| && Runs(g, csx, us, n)
    ensures var u, before := us[k], CursorAfter(csx.full, us[..k]);
            var start := StartAt(csx.full, before, u);
            && GoodUnit(csx.full, u) && u.flag <= PATTERNS_MAX && u.flag in csx.table && csx.table[u.flag] == u.id
            && (!csx.rowJmps ==> u.jump <= 1)
            && 0 <= start.row < n && g.Fits(UnitPlaces(u, start), start.col >= g.rs)
            && (u.jump == 0 ==> before.col <= start.col) && start.col <= EndAt(u, start).col
  {
    hide StreamPlaces, UnitPlaces, StartAt, CursorAfter, Emit, UnitSided, GoodUnit;
    UnitAmong(csx.full, us, k);
    var u := us[k];
    var start := StartAt(csx.full, CursorAfter(csx.full, us[..k]), u);
    var base, ps, all := StreamPlaces(csx.full, us[..k]), UnitPlaces(u, start), StreamPlaces(csx.full, us);
    FirstPlace(csx.full, u, start);
    assert UnitForward(csx.full, u, CursorAfter(csx.full, us[..k]));
    EndsRight(csx.full, u, start);
    assert UnitSided(u, start, g.rs);
    assert all[|base|] == ps[0];
    forall i | 0 <= i < |ps|
      ensures 1 <= ps[i].y && ps[i].y - 1 + g.rs < g.task.end && 1 <= ps[i].x <= g.task.end
      ensures start.col >= g.rs <==> ps[i].x - 1 >= g.rs
    {
      assert all[|base| + i] == ps[i];
      PlaceSided(u, start, g.rs, i);
    }
  }

  lemma PlaceSided(u: Unit, at: Cursor, side: nat, i: nat)
    requires UnitSided(u, at, side) && i < |UnitPlaces(u, at)|
    ensures UnitPlaces(u, at)[i].x - 1 < side <==> at.col < side
  {
    hide UnitPlaces;
    assert UnitPlaces(u, at)[i] in UnitPlaces(u, at);
  }

  lemma EndsRight(full: bool, u: Unit, at: Cursor)
    requires GoodUnit(full, u)
    ensures at.col <= EndAt(u, at).col
  {
    TimesGrows(u.Param(), u.size - 1);
  }

  lemma TimesGrows(a: nat, b: nat)
    ensures Times(a, b) >= 0
  {
  }

  /** Where the kernel is before unit k. */
  ghost predicate SymBefore(g: SymJob, csx: Csx, us: seq<Unit>, k: nat, n: nat, pos: nat, v: nat, yIndx: nat,
                            xIndx: nat, d: nat, own: bool)
    requires k <= |us|
  {
    && pos == |Emit(csx.full, us[..k])|
    && v == |StreamPlaces(csx.full, us[..k])| <= |csx.values|
    && Cursor(yIndx - g.rs, xIndx) == CursorAfter(csx.full, us[..k])
    && yIndx == g.rs + d && d < n && (own ==> g.rs <= xIndx)
  }

  /** y_row += yr */
  method AddRunning(csx: Csx, dv: seq<real>, x: seq<real>, y: array<real>, ghost t: array<real>, yIndx: nat, d: nat,
                    yr: real,
                    ghost us: seq<Unit>, ghost k: nat, ghost v: nat, ghost g: SymJob, ghost log0: seq<Op<Cell>>)
    returns (ghost log: seq<Op<Cell>>)
    requires k <= |us| && v == |StreamPlaces(csx.full, us[..k])| <= |csx.values|
    requires d <= |dv| && g.rs + d <= |g.x| && |g.x| == |g.z| && g.rs <= yIndx < g.task.end <= |g.x| && (g.alias <==> y == t)
    requires WithDiagonal(g, d, dv).Keeps(log0, y[..], t[..], Visited(csx, us, k, v), Visited(csx, us, k, v), yIndx, yr)
    modifies y
    ensures WithDiagonal(g, d, dv).Keeps(log, y[..], t[..], Visited(csx, us, k, v), Visited(csx, us, k, v), -1, 0.0)
  {
    hide SymJob.Keeps, Visited, StreamPlaces, AddDiagonal;
    log := log0;
    ghost var y0 := y[..];
    KeepsSizes(WithDiagonal(g, d, dv), log, y0, t[..], Visited(csx, us, k, v), Visited(csx, us, k, v), yIndx, yr);
    BalLength(g, d, dv);
    y[yIndx] := y[yIndx] + yr;
    assert y[..] == y0[yIndx := y0[yIndx] + yr];
    KeepFold(WithDiagonal(g, d, dv), log, y0, old(t[..]), Visited(csx, us, k, v), yIndx, yr, t[..]);
    log := log + WithDiagonal(g, d, dv).FoldOps(yIndx);
  }

  /** A new row: the running sum, then the diagonal of every row that the row pointer
      moves past. */
  method SymNewRow(csx: Csx, dv: seq<real>, x: seq<real>, y: array<real>, ghost t: array<real>, at: nat, flags: byte,
                   yIndx: nat, d: nat, yr: real, ghost rest: seq<byte>,
                   ghost us: seq<Unit>, ghost k: nat, ghost v: nat, ghost g: SymJob, ghost log0: seq<Op<Cell>>)
    returns (ghost log: seq<Op<Cell>>, jump: nat, pos: nat)
    requires k < |us| && v == |StreamPlaces(csx.full, us[..k])| <= |csx.values|
    requires flags == FlagByte(us[k]) && us[k].flag <= PATTERNS_MAX && us[k].jump > 0 && (!csx.rowJmps ==> us[k].jump == 1)
    requires at <= |csx.ctl| && csx.ctl[at..] == (if us[k].jump > 1 then PutUl(us[k].jump) else []) + rest
    requires g.x == x && |x| == |g.z| && yIndx == g.rs + d && d + us[k].jump <= |dv|
         && yIndx + us[k].jump < g.task.end <= |x| && (g.alias <==> y == t) && g.task.count == 0
    requires WithDiagonal(g, d, dv).Keeps(log0, y[..], t[..], Visited(csx, us, k, v), Visited(csx, us, k, v), yIndx, yr)
    modifies y
    ensures jump == us[k].jump && pos <= |csx.ctl| && csx.ctl[pos..] == rest
    ensures pos == at + if us[k].jump > 1 then |PutUl(us[k].jump)| else 0
    ensures WithDiagonal(g, d + jump, dv).Keeps(log, y[..], t[..], Visited(csx, us, k, v), Visited(csx, us, k, v), yIndx + jump, 0.0)
  {
    hide SymJob.Keeps, StreamPlaces, Visited, PutUl, FlagByte, AddDiagonal;
    log := log0;
    log := AddRunning(csx, dv, x, y, t, yIndx, d, yr, us, k, v, g, log);
    jump, pos := NewRowHook(csx.ctl, at, flags, csx.rowJmps, us[k], rest);
    log := DiagonalRows(y, t, x, dv, yIndx, d, jump, g, Visited(csx, us, k, v), log);
    KeepNext(WithDiagonal(g, d + jump, dv), log, y[..], t[..], Visited(csx, us, k, v), yIndx + jump);
  }

  /** Decodes and executes unit k. */
  method SymStep(csx: Csx, dv: seq<real>, x: seq<real>, y: array<real>, t: array<real>, cur: array<real>,
                 pos: nat, v: nat, yIndx: nat, xIndx: nat, d: nat, yr: real,
                 ghost us: seq<Unit>, ghost k: nat, ghost n: nat, ghost g: SymJob, ghost own: bool, ghost log0: seq<Op<Cell>>)
    returns (ghost log: seq<Op<Cell>>, cur': array<real>, pos': nat, v': nat, yIndx': nat, xIndx': nat, d': nat,
             yr': real, ghost own': bool)
    requires k < |us| && Runs(g, csx, us, n) && g.x == x && n <= |dv| && Vectors(g, y, t, cur, own)
    requires SymBefore(g, csx, us, k, n, pos, v, yIndx, xIndx, d, own)
    requires KeepsAt(g, log0, csx, us, k, v, d, dv, y[..], t[..], yIndx, yr)
    modifies y, t
    ensures pos < pos' <= |csx.ctl| && Vectors(g, y, t, cur', own')
    ensures SymBefore(g, csx, us, k + 1, n, pos', v', yIndx', xIndx', d', own')
    ensures KeepsAt(g, log, csx, us, k + 1, v', d', dv, y[..], t[..], yIndx', yr')
  {
    hide SymJob.Keeps, SymJob.Fits, Emit, ColBytes, TailBytes, FlagByte, StreamPlaces, UnitPlaces, EndAt, CursorAfter, Visited,
         UnitEntries, SymReady, PutUl, TestNr, SymJob.Term, RowTerm, MirrorTerm, SymJob.Mirror, Zipped, GoodUnit, AddDiagonal, UnitsKnown,
         Sided, Forward;
    log := log0;
    KeepsIn(g, log0, csx, us, k, v, d, dv, y[..], t[..], yIndx, yr);
    ghost var u := us[k];
    ghost var rest := UnitParts(csx.full, us, k);
    ghost var tailAt := pos + |HeadBytes(u)| + |ColBytes(csx.full, u)|;
    ghost var before, start := CursorAfter(csx.full, us[..k]), StartAt(csx.full, CursorAfter(csx.full, us[..k]), u);
    RunsAt(g, csx, us, n, k);
    GoodSize(csx.full, u);
    HeadAt(csx.ctl, pos, u, ColBytes(csx.full, u) + (TailBytes(tailAt, u) + rest));
    FlagBits(u);
    UnitAmong(csx.full, us, k);
    var flags, size := csx.ctl[pos], csx.ctl[pos + 1];
    cur', yIndx', xIndx', d', yr', pos' := cur, yIndx, xIndx, d, yr, pos + 2;
    own' := own;
    if TestNr(flags) {
      var jump;
      log, jump, pos' := SymNewRow(csx, dv, x, y, t, pos', flags, yIndx, d, yr, ColBytes(csx.full, u) + (TailBytes(tailAt, u) + rest),
                              us, k, v, g, log);
      yIndx', d' := yIndx + jump, d + jump;
      yr', xIndx' := 0.0, 0;
      cur', own' := t, false;
    } else {
      NilLeft(ColBytes(csx.full, u) + (TailBytes(tailAt, u) + rest));
    }
    xIndx', pos' := NextX(csx.ctl, pos', csx.full, xIndx', u, TailBytes(tailAt, u) + rest);
    if cur' != y && xIndx' >= csx.rowStart {
      cur' := y;
    }
    own' := xIndx' >= g.rs;
    assert start == Cursor(yIndx' - g.rs, xIndx');
    ghost var ps := UnitPlaces(u, start);
    ghost var h := WithDiagonal(g, d', dv);
    MakeSymReady(g, d', dv, log, y[..], t[..], Visited(csx, us, k, v), yIndx', yr', ps, csx.values, v, own');
    var yrUnit;
    log, yrUnit, pos', xIndx' := SymUnitCase(csx.ctl, pos', size, csx.table[flags % 64], y, t, cur', yIndx', xIndx', csx.values, v, x,
                                        csx.full, u, rest, own', h, Visited(csx, us, k, v), yr', log);
    yr' := yr' + yrUnit;
    v' := v + size;
    FirstPlace(csx.full, u, start);
    EndRow(u, start);
    VisitedMore(csx, us, k, v, ps);
  }

  lemma GoodSize(full: bool, u: Unit)
    requires GoodUnit(full, u)
    ensures 1 <= u.size <= SIZE_MAX && (full ==> u.ucol < Pow256(4))
  {
  }

  lemma MakeSymReady(g: SymJob, d: nat, dv: seq<real>, ops: seq<Op<Cell>>, y: seq<real>, t: seq<real>, acc: seq<Entry>,
                     at: int, yr: real,
                     ps: seq<Coord>, values: seq<real>, v: nat, own: bool)
    requires d <= |dv| && g.rs + d <= |g.x|
    requires WithDiagonal(g, d, dv).Keeps(ops, y, t, acc, acc, at, yr) && g.Fits(ps, own) && v + |ps| <= |values|
    ensures SymReady(WithDiagonal(g, d, dv), ops, y, t, acc, at, yr, ps, values, v, own)
  {
    hide SymJob.Keeps;
  }

  /** The whole multiplication.  The rows of the part end up in y with everything that
      falls on them; what falls on the rows before the part is added to t.  Every byte
      and every value is consumed.  `log` lists the writes, as steps of thread `cpu` in a
      round whose input vector is number `xv`: from any memory they do the same. */
  method MultiplySym(csx: Csx, dv: seq<real>, x: seq<real>, y: array<real>, t: array<real>,
                     ghost us: seq<Unit>, ghost dims: Dims, ghost rows: Rows, ghost cpu: nat, ghost xv: nat)
    returns (pos: nat, v: nat, ghost log: seq<Op<Cell>>)
    requires Represents(csx, us, dims, rows, csx.rowStart) && us != []
    requires Lower(Cells(Horizontal, dims, rows), csx.rowStart, dims.rows)
    requires |x| == y.Length == t.Length && csx.rowStart + dims.rows <= |x| && dims.rows <= |dv|
    requires xv < 2
    modifies y, t
    ensures forall j :: csx.rowStart <= j < csx.rowStart + csx.nrows ==>
              SymProduct(y[j], Cells(Horizontal, dims, rows), csx.rowStart, j, x, dv)
    ensures forall j :: csx.rowStart + csx.nrows <= j < y.Length ==> y[j] == old(y[j])
    ensures y != t ==> forall j :: 0 <= j < csx.rowStart ==> y[j] == old(y[j])
    ensures forall c :: 0 <= c < csx.rowStart ==>
              t[c] == old(t[c]) + Sum(Cells(Horizontal, dims, rows), MirrorTerm(c, csx.rowStart, x))
    ensures y != t ==> forall c :: csx.rowStart <= c < t.Length ==> t[c] == old(t[c])
    ensures pos == |csx.ctl| && v == csx.nnz
    ensures Performs(log, Cells(Horizontal, dims, rows), cpu, xv, csx.rowStart, dims.rows, |x|, dv)
  {
    hide SymJob.Keeps, Emit, StreamPlaces, CursorAfter, Visited, Cells, UnitsKnown, RowProduct, Sided, Forward, SymProduct, Lower,
         WithDiagonal, AddDiagonal, Runs, SymBefore, MirrorTerm, Sum;
    ghost var rs, n := csx.rowStart, dims.rows;
    log := [];
    for i := 0 to csx.nrows
      invariant forall j :: rs <= j < rs + i ==> y[j] == 0.0
      invariant forall j :: 0 <= j < y.Length && !(rs <= j < rs + i) ==> y[j] == old(y[j])
      invariant y != t ==> t[..] == old(t[..])
      invariant log == ZeroRowOps(1 - xv % 2, rs, i)
    {
      y[csx.rowStart + i] := 0.0;
      log := log + [Op(V(1 - xv % 2, rs + i), [], (r: seq<real>) => 0.0)];
    }
    ghost var g := SymJob(y[..], t[..], rs, x, y == t, Task(cpu, xv, rs + n, dv, 0));
    log := log + [Op(Acc(cpu), [], (r: seq<real>) => 0.0)];
    ghost var k := 0;
    ghost var own := false;
    var yIndx, xIndx, d, yr, cur := csx.rowStart, 0, 0, 0.0, t;
    pos, v := 0, 0;
    StartSym(g, csx, us, dims, rows, dv);
    while true
      invariant 0 <= k < |us| && Vectors(g, y, t, cur, own) && pos <= |csx.ctl|
      invariant SymBefore(g, csx, us, k, n, pos, v, yIndx, xIndx, d, own)
      invariant KeepsAt(g, log, csx, us, k, v, d, dv, y[..], t[..], yIndx, yr)
      decreases |us| - k
    {
      log, cur, pos, v, yIndx, xIndx, d, yr, own := SymStep(csx, dv, x, y, t, cur, pos, v, yIndx, xIndx, d, yr, us, k, n, g,
                                                       own, log);
      k := k + 1;
      SymGrows(g, csx, us, k, n, pos, v, yIndx, xIndx, d, own);
      if !(pos < |csx.ctl|) {
        break;
      }
    }
    KeepsIn(g, log, csx, us, k, v, d, dv, y[..], t[..], yIndx, yr);
    log := AddRunning(csx, dv, x, y, t, yIndx, d, yr, us, k, v, g, log);
    log := DiagonalRows(y, t, x, dv, yIndx, d, csx.nrows - d, g, Visited(csx, us, k, v), log);
    AllVisited(csx, us, dims, rows, v);
    FinishKept(g, n, dv, log, y[..], t[..], Cells(Horizontal, dims, rows));
    FinishSym(g, n, dv, y[..], t[..], Cells(Horizontal, dims, rows));
  }

  ghost predicate KeepsAt(g: SymJob, ops: seq<Op<Cell>>, csx: Csx, us: seq<Unit>, k: nat, v: nat, d: nat,
                          dv: seq<real>, y: seq<real>,
                        t: seq<real>, at: int, yr: real) {
    && k <= |us| && v == |StreamPlaces(csx.full, us[..k])| <= |csx.values| && d <= |dv| && g.rs + d <= |g.x|
    && WithDiagonal(g, d, dv).Keeps(ops, y, t, Visited(csx, us, k, v), Visited(csx, us, k, v), at, yr)
  }

  lemma StartSym(g: SymJob, csx: Csx, us: seq<Unit>, dims: Dims, rows: Rows, dv: seq<real>)
    requires Represents(csx, us, dims, rows, csx.rowStart) && us != [] && g.rs == csx.rowStart
    requires Lower(Cells(Horizontal, dims, rows), csx.rowStart, dims.rows)
    requires |g.x| == |g.z| == |g.tz| && csx.rowStart + dims.rows == g.task.end <= |g.x| && dims.rows <= |dv|
    requires g.task.xv < 2 && g.task.count == 0 && g.task.dv == dv
    ensures Runs(g, csx, us, dims.rows) && SymBefore(g, csx, us, 0, dims.rows, 0, 0, g.rs, 0, 0, false)
    ensures KeepsAt(g, StartOps(g), csx, us, 0, 0, 0, dv, g.z, g.tz, g.rs, 0.0)
  {
    hide StreamPlaces, Cells, UnitsKnown, CursorAfter, Emit, Visited, Sided, Forward, SymJob.Keeps, AddDiagonal, StartOps;
    var cells, places := Cells(Horizontal, dims, rows), StreamPlaces(csx.full, us);
    forall i | 0 <= i < |places|
      ensures 1 <= places[i].y <= dims.rows && 1 <= places[i].x <= g.task.end
    {
      assert places[i] == cells[i].at && cells[i] in cells;
    }
    SomePlace(csx, us);
    NothingVisited(csx, us);
    NoDiagonal(g, dv);
    KeepStart(g, g.rs);
  }

  lemma KeepsIn(g: SymJob, ops: seq<Op<Cell>>, csx: Csx, us: seq<Unit>, k: nat, v: nat, d: nat, dv: seq<real>,
                y: seq<real>, t: seq<real>,
              at: int, yr: real)
    requires KeepsAt(g, ops, csx, us, k, v, d, dv, y, t, at, yr)
    ensures k <= |us| && v == |StreamPlaces(csx.full, us[..k])| <= |csx.values| && d <= |dv| && g.rs + d <= |g.x|
    ensures WithDiagonal(g, d, dv).Keeps(ops, y, t, Visited(csx, us, k, v), Visited(csx, us, k, v), at, yr)
  {
    hide StreamPlaces, Visited, SymJob.Keeps, WithDiagonal;
  }

  /** What is kept in the end, for the vectors and for the steps. */
  lemma FinishKept(g: SymJob, rows: nat, dv: seq<real>, ops: seq<Op<Cell>>, y: seq<real>, t: seq<real>,
                   cells: seq<Entry>)
    requires rows <= |dv| && g.rs + rows == g.task.end <= |g.x| == |g.z| && Lower(cells, g.rs, rows)
         && g.task.count == 0
    requires WithDiagonal(g, rows, dv).Keeps(ops, y, t, cells, cells, -1, 0.0)
    ensures WithDiagonal(g, rows, dv).Bal(y, t, cells, cells, -1, 0.0)
    ensures Performs(ops, cells, g.task.cpu, g.task.xv, g.rs, rows, |g.x|, dv)
  {
    hide SymJob.Does, SymJob.Bal, Performs, Lower, WithDiagonal;
    Performed(g, rows, dv, ops, cells);
  }

  lemma SymGrows(g: SymJob, csx: Csx, us: seq<Unit>, k: nat, n: nat, pos: nat, v: nat, yIndx: nat, xIndx: nat, d: nat,
                 own: bool)
    requires k <= |us| && Runs(g, csx, us, n) && SymBefore(g, csx, us, k, n, pos, v, yIndx, xIndx, d, own)
    ensures pos < |csx.ctl| <==> k < |us|
    ensures v == |StreamPlaces(csx.full, us[..k])| <= |csx.values|
    ensures yIndx == g.rs + d && d < n && g.rs + n <= |g.x| == |g.z|
    ensures k == |us| ==> pos == |csx.ctl|
  {
    hide Emit, StreamPlaces, HeadBytes, ColBytes, TailBytes, UnitsKnown, Sided, Forward, CursorAfter;
    if k < |us| {
      var rest := UnitParts(csx.full, us, k);
    } else {
      Whole(us);
    }
  }

  lemma AllVisited(csx: Csx, us: seq<Unit>, dims: Dims, rows: Rows, v: nat)
    requires Represents(csx, us, dims, rows, csx.rowStart) && v == |StreamPlaces(csx.full, us[..|us|])| <= |csx.values|
    ensures Visited(csx, us, |us|, v) == Cells(Horizontal, dims, rows) && v == csx.nnz
  {
    hide StreamPlaces, Cells, UnitsKnown, Sided, Forward, Emit;
    Whole(us);
    Whole(csx.values);
  }
}

/** The symmetric path as a whole: loaded parts, maps, printed parts, one multiplication.

    `LoadAndMultiplySymmetric` goes from the list of elements to y; `AlwaysRight` says
    exactly when that is the product, whatever y held before. */
module SymPipeline {
  import opened Orders
  import opened Matrix
  import opened Seqs
  import opened Reorder
  import opened SpmMatrix
  import opened Encoding
  import opened CsxPrinter
  import opened CsxKernel
  import opened SymSteps
  import opened Drle
  import opened SymMatrix
  import opened SymCsx
  import opened Load
  import opened CsxThreads
  import SymLoad
  import SymMap

  // ----- A loaded part

  /** Its elements, renumbered. */
  lemma PartPoints(points: seq<Coo>, n: nat, at: nat, to: nat, start: nat, limit: nat)
    requires SymLoad.SymPart(points, n, at, to, start, limit) && SymLoad.SymInput(points, n)
    ensures at <= to <= |points|
    ensures var low := SymLoad.LowOf(points[at..to]);
            && Points(BuildRows(low, start + 1)) == Down(low, start) && Canonical(BuildRows(low, start + 1))
            && forall c :: c in low ==> c in points && c.y >= start + 1 && c.y > c.e.x
  {
    hide Points, BuildRows, SymLoad.SymStops, SymLoad.LowOf, SymLoad.DiagOf;
    SymLoad.StopsInside(points, at, to, start + 1, limit);
    var low := SymLoad.LowOf(points[at..to]);
    SymLoad.LowAscends(points, at, to, start + 1);
    SymLoad.FilterMembers(points[at..to]);
    BuildDown(low, start + 1);
    PointsBuild(Down(low, start));
    forall c | c in low
      ensures c in points && c.y >= start + 1 && c.y > c.e.x
    {
      var k :| 0 <= k < |points[at..to]| && points[at..to][k] == c;
      assert points[at + k] == c;
    }
  }

  lemma {:induction false} LowSorted(ps: seq<Coo>)
    requires Sorted(ps)
    ensures Sorted(SymLoad.LowOf(ps))
  {
    hide Less;
    if ps != [] {
      var n := |ps| - 1;
      LowSorted(ps[..n]);
      SymLoad.FilterMembers(ps[..n]);
      var low := SymLoad.LowOf(ps[..n]);
      forall i | 0 <= i < |low|
        ensures Less(low[i].At(), ps[n].At())
      {
        assert low[i] in ps[..n];
        var j :| 0 <= j < n && ps[j] == low[i];
      }
    }
  }

  lemma DownSorted(ps: seq<Coo>, start: int)
    requires Sorted(ps)
    ensures Sorted(Down(ps, start))
  {
    var ds := Down(ps, start);
    forall i, j | 0 <= i < j < |ds|
      ensures Less(ds[i].At(), ds[j].At())
    {
      assert Less(ps[i].At(), ps[j].At());
    }
  }

  /** It is a matrix the encoder accepts, strictly below the diagonal. */
  lemma PartAccepted(points: seq<Coo>, n: nat, at: nat, to: nat, start: nat, limit: nat)
    requires SymLoad.SymPart(points, n, at, to, start, limit) && SymLoad.SymInput(points, n)
    ensures at <= to <= |points|
    ensures var low := SymLoad.LowOf(points[at..to]);
            var rows := BuildRows(low, start + 1);
            var d := Dims(|rows|, n);
            && Valid(Horizontal, d, rows) && AllSingles(rows) && (forall c :: c in Points(rows) ==> 1 <= c.e.x < n)
            && SinglesIn(Down(low, start)) && Cells(Horizontal, d, rows) == EntriesOf(Down(low, start))
            && Lower(Cells(Horizontal, d, rows), start, d.rows)
  {
    hide Points, BuildRows, SymLoad.SymStops, SymLoad.LowOf, SymLoad.DiagOf, Canonical, Less;
    PartPoints(points, n, at, to, start, limit);
    var low := SymLoad.LowOf(points[at..to]);
    var rows, ps := BuildRows(low, start + 1), Down(low, start);
    var d := Dims(|rows|, n);
    assert Sorted(points[at..to]) by { StretchSorted(points, at, to, 0); assert Down(points[at..to], 0) == points[at..to]; }
    LowSorted(points[at..to]);
    DownSorted(low, start);
    PointsRange(rows);
    forall i | 0 <= i < |ps|
      ensures ps[i].e.Single? && GoodElem(Horizontal, d, ps[i]) && 1 <= ps[i].e.x < n && ps[i].e.x < ps[i].y + start
    {
      assert low[i] in low;
      var k :| 0 <= k < |points| && points[k] == low[i];
    }
    SingleCells(d, ps);
    assert AllSingles(rows) by { SinglesByPoints(rows); }
  }

  ghost predicate SinglesIn(ps: seq<Coo>) {
    forall i :: 0 <= i < |ps| ==> ps[i].e.Single?
  }

  lemma SinglesByPoints(rows: Rows)
    requires forall c :: c in Points(rows) ==> c.e.Single?
    ensures AllSingles(rows)
  {
    hide Points;
    forall i, e | 0 <= i < |rows| && e in rows[i]
      ensures e.Single?
    {
      PointsMember(rows, Coo(i + 1, e));
      assert Coo(i + 1, e) in Points(rows);
    }
  }

  // ----- The product of the input

  /** The elements above the diagonal. */
  function UpOf(ps: seq<Coo>): seq<Coo> {
    if ps == [] then []
    else
      var l := ps[|ps| - 1];
      UpOf(ps[..|ps| - 1]) + if l.y < l.e.x then [l] else []
  }

  /** Row and column exchanged. */
  function Flip(ps: seq<Coo>): (r: seq<Coo>)
    requires SinglesIn(ps)
    ensures |r| == |ps| && forall i {:trigger r[i]} :: 0 <= i < |ps| ==> r[i] == Coo(ps[i].e.x, Single(ps[i].y, ps[i].e.val))
  {
    seq(|ps|, i requires 0 <= i < |ps| => Coo(ps[i].e.x, Single(ps[i].y, ps[i].e.val)))
  }

  lemma {:induction false} FilterSingles(ps: seq<Coo>)
    requires SinglesIn(ps)
    ensures SinglesIn(UpOf(ps)) && SinglesIn(SymLoad.LowOf(ps)) && SinglesIn(SymLoad.DiagOf(ps))
  {
    if ps != [] {
      FilterSingles(ps[..|ps| - 1]);
    }
  }

  /** The matrix is symmetric. */
  ghost predicate SymmetricValues(ps: seq<Coo>) {
    SinglesIn(ps) && SinglesIn(UpOf(ps)) && multiset(Flip(UpOf(ps))) == multiset(SymLoad.LowOf(ps))
  }

  /** The products of a row: below, on and above the diagonal. */
  lemma {:induction false} ThreeParts(ps: seq<Coo>, x: seq<real>, i: int)
    requires SinglesIn(ps)
    ensures SinglesIn(UpOf(ps)) && SinglesIn(SymLoad.LowOf(ps)) && SinglesIn(SymLoad.DiagOf(ps))
    ensures RowProduct(EntriesOf(ps), x, i)
         == RowProduct(EntriesOf(SymLoad.LowOf(ps)), x, i) + RowProduct(EntriesOf(SymLoad.DiagOf(ps)), x, i)
            + RowProduct(EntriesOf(UpOf(ps)), x, i)
  {
    FilterSingles(ps);
    if ps != [] {
      var n := |ps| - 1;
      ThreeParts(ps[..n], x, i);
      assert EntriesOf(ps)[..n] == EntriesOf(ps[..n]);
      if ps[n].y > ps[n].e.x {
        EntriesSnoc(SymLoad.LowOf(ps[..n]), ps[n], x, i);
      } else if ps[n].y == ps[n].e.x {
        EntriesSnoc(SymLoad.DiagOf(ps[..n]), ps[n], x, i);
      } else {
        EntriesSnoc(UpOf(ps[..n]), ps[n], x, i);
      }
      NilRight(SymLoad.LowOf(ps[..n]));
      NilRight(SymLoad.DiagOf(ps[..n]));
      NilRight(UpOf(ps[..n]));
    }
  }

  lemma EntriesSnoc(ps: seq<Coo>, c: Coo, x: seq<real>, i: int)
    requires SinglesIn(ps) && c.e.Single?
    ensures RowProduct(EntriesOf(ps + [c]), x, i) == RowProduct(EntriesOf(ps), x, i)
         + RowTerm(i, x)(Entry(c.At(), c.e.val))
  {
    hide RowTerm, Sum;
    assert EntriesOf(ps + [c]) == EntriesOf(ps) + [Entry(c.At(), c.e.val)];
    SumSnoc(EntriesOf(ps), Entry(c.At(), c.e.val), RowTerm(i, x));
  }

  /** What lies above the diagonal adds the mirror images of what lies below. */
  lemma {:induction false} FlipProduct(ps: seq<Coo>, x: seq<real>, p: nat)
    requires SinglesIn(ps) && forall k :: 0 <= k < |ps| ==> 1 <= ps[k].y <= |x| && 1 <= ps[k].e.x <= |x|
    ensures RowProduct(EntriesOf(ps), x, p + 1) == Sum(EntriesOf(Flip(ps)), MirrorTerm(p, 0, x))
  {
    hide RowTerm, MirrorTerm;
    if ps != [] {
      var n := |ps| - 1;
      FlipProduct(ps[..n], x, p);
      assert EntriesOf(ps)[..n] == EntriesOf(ps[..n]);
      assert EntriesOf(Flip(ps))[..n] == EntriesOf(Flip(ps[..n]));
      FlipTerm(ps[n], x, p);
    }
  }

  lemma FlipTerm(c: Coo, x: seq<real>, p: nat)
    requires c.e.Single? && 1 <= c.y <= |x| && 1 <= c.e.x <= |x|
    ensures RowTerm(p + 1, x)(Entry(c.At(), c.e.val)) == MirrorTerm(p, 0, x)(Entry(Coord(c.e.x, c.y), c.e.val))
  {
  }

  lemma EntriesMiddle(b: seq<Coo>, j: nat)
    requires SinglesIn(b) && j < |b|
    ensures multiset(EntriesOf(b)) == multiset(EntriesOf(b[..j] + b[j + 1..]))
         + multiset([Entry(b[j].At(), b[j].e.val)])
  {
    var l, m, r := EntriesOf(b[..j]), [Entry(b[j].At(), b[j].e.val)], EntriesOf(b[j + 1..]);
    assert EntriesOf(b) == l + m + r;
    assert EntriesOf(b[..j] + b[j + 1..]) == l + r;
  }

  lemma {:induction false} EntriesPerm(a: seq<Coo>, b: seq<Coo>)
    requires SinglesIn(a) && SinglesIn(b) && multiset(a) == multiset(b)
    ensures multiset(EntriesOf(a)) == multiset(EntriesOf(b))
  {
    if a == [] {
      assert |multiset(b)| == 0;
    } else {
      var n := |a| - 1;
      var j := PermRemove(a, b);
      var rest := b[..j] + b[j + 1..];
      EntriesPerm(a[..n], rest);
      assert EntriesOf(a) == EntriesOf(a[..n]) + [Entry(a[n].At(), a[n].e.val)];
      EntriesMiddle(b, j);
    }
  }

  /** Only one element of the diagonal is in row p. */
  lemma {:induction false} DiagonalProduct(ds: seq<Coo>, x: seq<real>, p: nat, k: nat)
    requires SinglesIn(ds) && k <= |ds| <= |x| && p < |x|
    requires forall j {:trigger ds[j]} :: 0 <= j < |ds| ==> ds[j].y == ds[j].e.x == j + 1
    ensures RowProduct(EntriesOf(ds[..k]), x, p + 1) == if p < k then ds[p].e.val * x[p] else 0.0
  {
    if k > 0 {
      DiagonalProduct(ds, x, p, k - 1);
      assert EntriesOf(ds[..k])[..k - 1] == EntriesOf(ds[..k - 1]);
      assert EntriesOf(ds[..k])[k - 1] == Entry(ds[k - 1].At(), ds[k - 1].e.val);
    }
  }

  /** The product of a symmetric matrix needs only the lower triangle and the diagonal. */
  lemma SymmetricProduct(points: seq<Coo>, n: nat, x: seq<real>, p: nat)
    requires SymLoad.SymInput(points, n) && SymmetricValues(points) && |x| == n && p < n
    ensures SinglesIn(SymLoad.LowOf(points)) && p < |SymLoad.DiagOf(points)| && SymLoad.DiagOf(points)[p].e.Single?
    ensures RowProduct(EntriesOf(points), x, p + 1)
         == SymLoad.DiagOf(points)[p].e.val * x[p]
            + RowProduct(EntriesOf(SymLoad.LowOf(points)), x, p + 1)
                 + Sum(EntriesOf(SymLoad.LowOf(points)), MirrorTerm(p, 0, x))
  {
    hide RowProduct, Sum, SymLoad.LowOf, UpOf, SymLoad.DiagOf, SymLoad.SymInput, MirrorTerm;
    var low, ds, up := SymLoad.LowOf(points), SymLoad.DiagOf(points), UpOf(points);
    FilterSingles(points);
    ThreeParts(points, x, p + 1);
    UpInside(points, n);
    FlipProduct(up, x, p);
    EntriesPerm(Flip(up), low);
    SumPerm(EntriesOf(Flip(up)), EntriesOf(low), MirrorTerm(p, 0, x));
    DiagonalShape(points, n);
    DiagonalProduct(ds, x, p, n);
    assert ds[..n] == ds;
  }

  lemma UpInside(points: seq<Coo>, n: nat)
    requires SymLoad.SymInput(points, n)
    ensures forall k :: 0 <= k < |UpOf(points)| ==> 1 <= UpOf(points)[k].y <= n && 1 <= UpOf(points)[k].e.x <= n
  {
    hide UpOf, SymLoad.Elements, SymLoad.FullDiagonal, Sorted;
    var up := UpOf(points);
    UpMembers(points);
    forall k | 0 <= k < |up|
      ensures 1 <= up[k].y <= n && 1 <= up[k].e.x <= n
    {
      assert up[k] in points;
    }
  }

  lemma DiagonalShape(points: seq<Coo>, n: nat)
    requires SymLoad.SymInput(points, n)
    ensures |SymLoad.DiagOf(points)| == n
    ensures forall j {:trigger SymLoad.DiagOf(points)[j]} :: 0 <= j < n ==> SymLoad.DiagOf(points)[j].y == SymLoad.DiagOf(points)[j].e.x == j + 1
  {
    hide SymLoad.DiagOf, SymLoad.Elements, Sorted;
    SymLoad.FilterMembers(points);
    var ds := SymLoad.DiagOf(points);
    forall j | 0 <= j < n
      ensures ds[j].y == ds[j].e.x == j + 1
    {
      assert ds[j] in ds;
    }
  }

  lemma {:induction false} UpMembers(ps: seq<Coo>)
    ensures forall c :: c in UpOf(ps) ==> c in ps
  {
    if ps != [] {
      var n := |ps| - 1;
      UpMembers(ps[..n]);
      assert ps == ps[..n] + [ps[n]];
    }
  }

  // ----- All parts together

  /** A symmetric matrix divided as `SymLoad.LoadMt` does it. */
  ghost predicate SymDivided(points: seq<Coo>, n: nat, diagonals: seq<seq<real>>, starts: seq<nat>, cuts: seq<nat>,
                             limits: seq<nat>) {
    && SymLoad.SymInput(points, n) && |limits| == |diagonals| >= 1 && |starts| == |cuts| == |diagonals| + 1
    && starts[0] == cuts[0] == 0 && cuts[|diagonals|] == |points| && starts[|diagonals|] == n
    && forall i {:trigger diagonals[i]} {:trigger limits[i]} :: 0 <= i < |diagonals| ==>
         && SymLoad.SymPart(points, n, cuts[i], cuts[i + 1], starts[i], limits[i])
         && SymLoad.AreValues(diagonals[i], SymLoad.DiagOf(points[cuts[i]..cuts[i + 1]]))
         && starts[i + 1] == starts[i] + |diagonals[i]|
         && limits[i] == SymLoad.Share(points, n, cuts[i], |diagonals| - i) && BeforeAre(points, cuts[i], starts[i])
  }

  /** The elements before a part are in earlier rows. */
  ghost predicate BeforeAre(points: seq<Coo>, at: nat, start: nat) {
    at <= |points| && forall k :: 0 <= k < at ==> points[k].y <= start
  }

  lemma DividedAt(points: seq<Coo>, n: nat, diagonals: seq<seq<real>>, starts: seq<nat>, cuts: seq<nat>,
                  limits: seq<nat>, i: nat)
    requires SymDivided(points, n, diagonals, starts, cuts, limits) && i < |diagonals|
    ensures SymLoad.SymInput(points, n) && |limits| == |diagonals| && |starts| == |cuts| == |diagonals| + 1
    ensures SymLoad.SymPart(points, n, cuts[i], cuts[i + 1], starts[i], limits[i]) && cuts[i] <= cuts[i + 1] <= |points|
    ensures SymLoad.AreValues(diagonals[i], SymLoad.DiagOf(points[cuts[i]..cuts[i + 1]]))
         && starts[i + 1] == starts[i] + |diagonals[i]| && BeforeAre(points, cuts[i], starts[i])
  {
    hide SymLoad.SymInput, SymLoad.AreValues, SymLoad.DiagOf, SymLoad.Share;
    assert diagonals[i] == diagonals[i] && SymLoad.SymPart(points, n, cuts[i], cuts[i + 1], starts[i], limits[i]);
    SymLoad.StopsInside(points, cuts[i], cuts[i + 1], starts[i] + 1, limits[i]);
  }

  /** The elements below the diagonal of part i, and its rows. */
  function LowPart(points: seq<Coo>, cuts: seq<nat>, i: nat): seq<Coo>
    requires i + 1 < |cuts| && cuts[i] <= cuts[i + 1] <= |points|
  {
    SymLoad.LowOf(points[cuts[i]..cuts[i + 1]])
  }

  /** What was made of part i comes from the elements of part i. */
  ghost predicate FromPart(s: Source, points: seq<Coo>, cuts: seq<nat>, starts: seq<nat>, n: nat, i: nat)
    requires i < |starts| && i + 1 < |cuts| && cuts[i] <= cuts[i + 1] <= |points|
  {
    s.loaded == BuildRows(LowPart(points, cuts, i), starts[i] + 1) && s.d == Dims(|s.loaded|, n)
  }

  lemma {:induction false} DownMirror(ps: seq<Coo>, start: nat, x: seq<real>, p: int)
    requires SinglesIn(ps)
    ensures Sum(EntriesOf(Down(ps, start)), MirrorTerm(p, start, x)) == Sum(EntriesOf(ps), MirrorTerm(p, 0, x))
  {
    if ps != [] {
      var n := |ps| - 1;
      DownMirror(ps[..n], start, x, p);
      assert EntriesOf(ps)[..n] == EntriesOf(ps[..n]);
      assert EntriesOf(Down(ps, start))[..n] == EntriesOf(Down(ps[..n], start));
    }
  }

  /** What part i adds to a place, in terms of the input. */
  lemma PartContributes(s: Source, points: seq<Coo>, n: nat, diagonals: seq<seq<real>>, starts: seq<nat>,
                        cuts: seq<nat>, limits: seq<nat>,
                        i: nat, x: seq<real>, p: nat)
    requires SymDivided(points, n, diagonals, starts, cuts, limits) && i < |diagonals|
    requires cuts[i] <= cuts[i + 1] <= |points| && FromPart(s, points, cuts, starts, n, i)
    ensures SinglesIn(LowPart(points, cuts, i))
    ensures Contribution(s.Es(), starts[i], x, p)
         == RowProduct(EntriesOf(LowPart(points, cuts, i)), x, p + 1)
              + Sum(EntriesOf(LowPart(points, cuts, i)), MirrorTerm(p, 0, x))
  {
    hide BuildRows, RowProduct, Sum, MirrorTerm, SymLoad.LowOf, SymLoad.DiagOf, SymLoad.SymPart, SymDivided,
         SymLoad.SymInput, Lower, Cells;
    DividedAt(points, n, diagonals, starts, cuts, limits, i);
    PartAccepted(points, n, cuts[i], cuts[i + 1], starts[i], limits[i]);
    LowSingles(points, cuts[i], cuts[i + 1], n);
    DownProduct(LowPart(points, cuts, i), starts[i], x, p + 1);
    DownMirror(LowPart(points, cuts, i), starts[i], x, p);
  }

  lemma LowSingles(points: seq<Coo>, at: nat, to: nat, n: nat)
    requires SymLoad.SymInput(points, n) && at <= to <= |points|
    ensures SinglesIn(SymLoad.LowOf(points[at..to])) && SinglesIn(points[at..to])
  {
    hide SymLoad.Elements, SymLoad.FullDiagonal, Sorted;
    FilterSingles(points[at..to]);
  }

  /** All parts from some elements of the input. */
  ghost predicate FromParts(from: seq<Source>, points: seq<Coo>, cuts: seq<nat>, starts: seq<nat>, n: nat) {
    && |from| < |cuts| == |starts|
    && (forall i {:trigger cuts[i + 1]} {:trigger from[i]} :: 0 <= i < |from| ==> cuts[i] <= cuts[i + 1] <= |points|)
    && forall i {:trigger from[i]} :: 0 <= i < |from| ==> FromPart(from[i], points, cuts, starts, n, i)
  }

  lemma {:induction false} PartsContribute(from: seq<Source>, points: seq<Coo>, n: nat, diagonals: seq<seq<real>>,
                                           starts: seq<nat>, cuts: seq<nat>,
                                           limits: seq<nat>, k: nat, x: seq<real>, p: nat)
    requires SymDivided(points, n, diagonals, starts, cuts, limits) && k <= |from| == |diagonals|
    requires FromParts(from, points, cuts, starts, n)
    ensures cuts[k] <= |points| && SinglesIn(SymLoad.LowOf(points[..cuts[k]]))
    ensures Contributions(from, starts, k, x, p)
         == RowProduct(EntriesOf(SymLoad.LowOf(points[..cuts[k]])), x, p + 1)
              + Sum(EntriesOf(SymLoad.LowOf(points[..cuts[k]])), MirrorTerm(p, 0, x))
  {
    hide BuildRows, RowTerm, Sum, MirrorTerm, SymLoad.LowOf, SymLoad.DiagOf, SymLoad.SymPart, SymLoad.SymInput,
         Contribution, FromPart, Cells;
    if k == 0 {
      NoLow(points, x, p);
    } else {
      PartsContribute(from, points, n, diagonals, starts, cuts, limits, k - 1, x, p);
      assert from[k - 1] == from[k - 1] && cuts[k - 1] <= cuts[k];
      PartContributes(from[k - 1], points, n, diagonals, starts, cuts, limits, k - 1, x, p);
      var a, b := SymLoad.LowOf(points[..cuts[k - 1]]), LowPart(points, cuts, k - 1);
      SymLoad.FilterConcat(points[..cuts[k - 1]], points[cuts[k - 1]..cuts[k]]);
      Glue(points, cuts[k - 1], cuts[k]);
      assert EntriesOf(a + b) == EntriesOf(a) + EntriesOf(b);
      SumConcat(EntriesOf(a), EntriesOf(b), RowTerm(p + 1, x));
      SumConcat(EntriesOf(a), EntriesOf(b), MirrorTerm(p, 0, x));
    }
  }

  lemma NoLow(points: seq<Coo>, x: seq<real>, p: nat)
    ensures points[..0] == [] && SymLoad.LowOf([]) == [] && RowProduct([], x, p + 1) == 0.0
         && Sum([], MirrorTerm(p, 0, x)) == 0.0
  {
  }

  /** The diagonal and what all parts add to a row make that row of the product of the
      input. */
  lemma RightRow(parts: seq<CsxSym>, from: seq<Source>, points: seq<Coo>, n: nat, diagonals: seq<seq<real>>,
                 starts: seq<nat>,
                 cuts: seq<nat>, limits: seq<nat>, x: seq<real>, p: nat, t: nat)
    requires SymDivided(points, n, diagonals, starts, cuts, limits) && SymmetricValues(points) && |x| == n
    requires |parts| == |from| == |diagonals| && t < |parts| && p < n && FromParts(from, points, cuts, starts, n)
    requires parts[t].dvalues == diagonals[t] && starts[t] <= p < starts[t] + |diagonals[t]|
    ensures SinglesIn(points) && diagonals[t][p - starts[t]] == DiagonalOf(points, p)
    ensures x[p] * parts[t].dvalues[p - starts[t]] + Contributions(from, starts, |from|, x, p)
         == RowProduct(EntriesOf(points), x, p + 1)
  {
    hide BuildRows, RowProduct, Sum, MirrorTerm, SymLoad.LowOf, SymLoad.DiagOf, SymLoad.SymPart, SymLoad.SymInput,
         Contributions, FromParts, SymDivided, EntriesOf;
    DividedAt(points, n, diagonals, starts, cuts, limits, t);
    AllParts(from, points, n, diagonals, starts, cuts, limits, x, p);
    SymmetricProduct(points, n, x, p);
    DiagonalAt(points, n, cuts[t], cuts[t + 1], starts[t], limits[t], diagonals[t], p);
    Reals(x[p], SymLoad.DiagOf(points)[p].e.val);
  }

  lemma Reals(a: real, b: real)
    ensures a * b == b * a
  {
  }

  /** All parts together add the lower triangle and its mirror image. */
  lemma AllParts(from: seq<Source>, points: seq<Coo>, n: nat, diagonals: seq<seq<real>>, starts: seq<nat>,
                 cuts: seq<nat>, limits: seq<nat>, x: seq<real>, p: nat)
    requires SymDivided(points, n, diagonals, starts, cuts, limits) && |from| == |diagonals|
    requires FromParts(from, points, cuts, starts, n)
    ensures SinglesIn(SymLoad.LowOf(points)) && |from| <= |starts|
    ensures Contributions(from, starts, |from|, x, p)
         == RowProduct(EntriesOf(SymLoad.LowOf(points)), x, p + 1)
              + Sum(EntriesOf(SymLoad.LowOf(points)), MirrorTerm(p, 0, x))
  {
    hide RowProduct, Sum, MirrorTerm, SymLoad.LowOf, SymLoad.SymInput, Contributions, FromPart, SymDivided, EntriesOf;
    PartsContribute(from, points, n, diagonals, starts, cuts, limits, |from|, x, p);
    DividedAll(points, n, diagonals, starts, cuts, limits);
    Whole(points);
  }

  /** The diagonal value of row p. */
  function DiagonalOf(points: seq<Coo>, p: nat): real {
    var ds := SymLoad.DiagOf(points);
    if p < |ds| && ds[p].e.Single? then ds[p].e.val else 0.0
  }

  lemma DividedAll(points: seq<Coo>, n: nat, diagonals: seq<seq<real>>, starts: seq<nat>, cuts: seq<nat>,
                   limits: seq<nat>)
    requires SymDivided(points, n, diagonals, starts, cuts, limits)
    ensures |cuts| == |diagonals| + 1 && cuts[|diagonals|] == |points| && SymLoad.SymInput(points, n)
  {
    hide SymLoad.SymInput, SymLoad.SymPart, SymLoad.AreValues, SymLoad.DiagOf;
  }

  lemma DiagonalAt(points: seq<Coo>, n: nat, at: nat, to: nat, start: nat, limit: nat, diagonal: seq<real>, p: nat)
    requires SymLoad.SymPart(points, n, at, to, start, limit) && at <= to <= |points|
    requires SymLoad.AreValues(diagonal, SymLoad.DiagOf(points[at..to])) && start <= p < start + |diagonal|
    ensures p < |SymLoad.DiagOf(points)| && SymLoad.DiagOf(points)[p].e.Single?
         && diagonal[p - start] == SymLoad.DiagOf(points)[p].e.val
  {
    hide SymLoad.DiagOf, SymLoad.FullDiagonal, SymLoad.SymStops, InRowOrder, FromRow;
    SymLoad.Split(points, at, to);
    assert SymLoad.DiagOf(points)[p] == SymLoad.DiagOf(points[at..to])[p - start];
  }

  /** A part was encoded as wished, and holds the same cells as before. */
  ghost predicate EncodedFrom(d: Dims, cut: nat, xforms: seq<nat>, deltas: Option<seq<seq<nat>>>, rows0: Rows,
                              rows: Rows) {
    && PartEncoded(d, cut, xforms, deltas, rows0, rows)
    && multiset(Cells(Horizontal, d, rows)) == multiset(Cells(Horizontal, d, rows0))
  }

  /** The lower triangle of part i as it was loaded. */
  ghost predicate PartIn(lower: Spm, points: seq<Coo>, cuts: seq<nat>, starts: seq<nat>, n: nat, i: nat)
    reads lower
  {
    && i + 1 < |cuts| && i < |starts| && cuts[i] <= cuts[i + 1] <= |points|
    && lower.Valid() && lower.order == Horizontal && lower.rows == BuildRows(LowPart(points, cuts, i), starts[i] + 1)
    && lower.dims == Dims(|lower.rows|, n)
  }

  /** Where the rows of part i end that its kernel runs over. */
  function Reach(points: seq<Coo>, cuts: seq<nat>, starts: seq<nat>, i: nat): nat
    requires i + 1 < |cuts| && i < |starts| && cuts[i] <= cuts[i + 1] <= |points|
  {
    starts[i] + |BuildRows(LowPart(points, cuts, i), starts[i] + 1)|
  }

  /** Row p after the multiplication: a row of the product when its part reaches it;
      otherwise the diagonal is missing, and what was there before is still in it. */
  function RowOut(points: seq<Coo>, x: seq<real>, p: nat, reached: bool, y0p: real): real
    requires SinglesIn(points) && p < |x|
  {
    var whole := RowProduct(EntriesOf(points), x, p + 1);
    if reached then whole else whole - x[p] * DiagonalOf(points, p) + y0p
  }

  /** All rows of part i are so. */
  ghost predicate PartOut(y: seq<real>, y0: seq<real>, points: seq<Coo>, x: seq<real>, cuts: seq<nat>, starts: seq<nat>,
                          i: nat) {
    && i + 1 < |cuts| && i + 1 < |starts| && cuts[i] <= cuts[i + 1] <= |points| && SinglesIn(points)
    && starts[i + 1] <= |y| == |y0| == |x|
    && forall p {:trigger y[p]} {:trigger y0[p]} :: starts[i] <= p < starts[i + 1] ==>
         y[p] == RowOut(points, x, p, p < Reach(points, cuts, starts, i), y0[p])
  }

  /** What was made of a matrix for its threads, and their writes in one round. */
  datatype Made = Made(parts: seq<CsxSym>, from: seq<Source>, maps: seq<seq<SymMap.Slot>>, cuts: seq<nat>,
                       steps: Threads)

  ghost predicate MadeFrom(made: Made, points: seq<Coo>, n: nat, cuts: seq<nat>, starts: seq<nat>,
                           diagonals: seq<seq<real>>) {
    && AllFrom(made.parts, made.from, points, n, cuts, starts, diagonals)
    && Round3(made.steps, made.parts, made.from, starts, made.maps, made.cuts, n, 0)
  }

  /** What was made comes from these encoded rows. */
  ghost predicate EncodedAre(made: Made, encoded: seq<Rows>) {
    |made.from| == |encoded| && forall i {:trigger encoded[i]} :: 0 <= i < |encoded| ==> made.from[i].encoded == encoded[i]
  }

  /** Cuts, encodes, merges, prints and multiplies a symmetric matrix that was loaded in
      parts, exactly when the ids of every encoded part fit the flag byte; otherwise
      nothing is multiplied.  Every part needs an element below the diagonal.  Every row
      that its part reaches becomes that row of the product with x. */
  method MultiplySymmetric(lowers: seq<Spm>, diagonals: seq<seq<real>>, starts: seq<nat>, n: nat, xforms: seq<nat>,
                           deltas: Option<seq<seq<nat>>>, full: bool, x: seq<real>, y: array<real>, temps: seq<array<real>>,
                           ghost points: seq<Coo>, ghost cuts: seq<nat>, ghost limits: seq<nat>)
    returns (ok: bool, ghost encoded: seq<Rows>, ghost made: Made)
    requires SymDivided(points, n, diagonals, starts, cuts, limits) && SymmetricValues(points)
         && |lowers| == |diagonals|
    requires forall i {:trigger lowers[i]} :: 0 <= i < |lowers| ==>
               PartIn(lowers[i], points, cuts, starts, n, i) && LowPart(points, cuts, i) != []
    requires DeltasOk(Params(4, 254, 0.05, false, false, false), xforms, deltas)
    requires |x| == n <= 0x1_0000_0000 && Room(temps, y, n, |lowers|)
    modifies y, set a | a in temps
    ensures |encoded| == |lowers|
    ensures forall i {:trigger encoded[i]} :: 0 <= i < |lowers| ==>
              EncodedFrom(lowers[i].dims, starts[i], xforms, deltas, lowers[i].rows, encoded[i])
    ensures ok <==> AllFit(encoded, starts)
    ensures !ok ==> y[..] == old(y[..]) && forall c :: 0 <= c < |temps| ==> temps[c][..] == old(temps[c][..])
    ensures ok ==> forall i :: 0 <= i < |lowers| ==> PartOut(y[..], old(y[..]), points, x, cuts, starts, i)
    ensures ok ==> MadeFrom(made, points, n, cuts, starts, diagonals) && EncodedAre(made, encoded)
  {
    hide SymDivided, SymmetricValues, Spm.Valid, BuildRows, LowPart, DeltasOk, RowProduct, PartReady, FromPart,
         MapsMade, PartEnds, AllReady, FlagsFit, EncodedFrom, PartFrom, AllFit,
         AllPerform, PartOut, MadeFrom;
    var parts: seq<CsxSym> := [];
    ghost var from: seq<Source> := [];
    DividedSizes(points, n, diagonals, starts, cuts, limits);
    ghost var loaded := AllPoints(points, cuts, starts, |lowers|);
    forall i | 0 <= i < |lowers|
      ensures lowers[i].Valid() && loaded[i] == Points(lowers[i].rows) && forall c: Coo :: c in loaded[i] ==> 1 <= c.e.x < n
    {
      PartInput(lowers[i].rows, points, n, diagonals, starts, cuts, limits, i);
    }
    var maps;
    ghost var mapCuts;
    maps, mapCuts := MakeMap(lowers, starts, n, loaded);
    ok, encoded := true, [];
    NoneFit(starts);
    var i := 0;
    while i < |lowers|
      invariant 0 <= i <= |lowers| && |encoded| == i
      invariant forall k {:trigger encoded[k]} :: 0 <= k < i ==>
                  EncodedFrom(lowers[k].dims, starts[k], xforms, deltas, lowers[k].rows, encoded[k])
      invariant ok ==> forall k {:trigger encoded[k]} :: 0 <= k < i && k < |from| ==> from[k].encoded == encoded[k]
      invariant ok <==> AllFit(encoded, starts)
      invariant y[..] == old(y[..]) && forall c :: 0 <= c < |temps| ==> temps[c][..] == old(temps[c][..])
      invariant ok ==> |parts| == |from| == i
      invariant ok ==> forall k {:trigger parts[k]} :: 0 <= k < i ==> PartFrom(parts[k], from[k], points, n, cuts, starts, diagonals, k)
    {
      var part;
      ghost var s;
      part, s := PrepareOne(lowers[i], diagonals, starts, n, xforms, deltas, full, points, cuts, limits, i);
      MoreFit(encoded, s.encoded, starts);
      encoded := encoded + [s.encoded];
      if part.None? {
        ok := false;
      } else if ok {
        parts, from := parts + [part.value], from + [s];
      }
      i := i + 1;
    }
    made := Made(parts, from, maps, mapCuts, []);
    if ok {
      PartsReady(parts, from, points, n, cuts, starts, diagonals, limits);
      MapsAre(maps, mapCuts, parts, from, points, n, cuts, starts, diagonals);
      ghost var steps := SymRound(parts, starts, maps, n, x, y, temps, mapCuts, from, 0);
      made := Made(parts, from, maps, mapCuts, steps);
      AreMade(made, points, n, cuts, starts, diagonals);
      AllRows(y[..], old(y[..]), parts, from, points, n, diagonals, starts, cuts, limits, x);
    }
  }

  lemma AreMade(made: Made, points: seq<Coo>, n: nat, cuts: seq<nat>, starts: seq<nat>, diagonals: seq<seq<real>>)
    requires AllFrom(made.parts, made.from, points, n, cuts, starts, diagonals)
    requires AllReady(made.parts, made.from, starts, n) && MapsMade(made.maps, made.cuts, made.from, starts, n)
         && AllPerform(made.steps, made.parts, made.from, starts, n, 0)
    ensures MadeFrom(made, points, n, cuts, starts, diagonals)
  {
    hide AllFrom, AllReady, Performs;
    NrMaps(made.maps, made.cuts, made.from, starts, n);
  }

  /** The ids of every part fit the flag byte. */
  ghost predicate AllFit(encoded: seq<Rows>, starts: seq<nat>) {
    |encoded| <= |starts| && forall i {:trigger encoded[i]} :: 0 <= i < |encoded| ==> FlagsFit(encoded[i], starts[i])
  }

  lemma NoneFit(starts: seq<nat>)
    ensures AllFit([], starts)
  {
  }

  lemma MoreFit(encoded: seq<Rows>, rows: Rows, starts: seq<nat>)
    requires |encoded| < |starts|
    ensures AllFit(encoded + [rows], starts) <==> AllFit(encoded, starts) && FlagsFit(rows, starts[|encoded|])
  {
    hide FlagsFit;
    var more := encoded + [rows];
    assert forall i :: 0 <= i < |encoded| ==> more[i] == encoded[i];
    assert more[|encoded|] == rows;
  }

  /** Part i. */
  method PrepareOne(lower: Spm, diagonals: seq<seq<real>>, starts: seq<nat>, n: nat, xforms: seq<nat>,
                    deltas: Option<seq<seq<nat>>>, full: bool,
                    ghost points: seq<Coo>, ghost cuts: seq<nat>, ghost limits: seq<nat>, i: nat)
    returns (part: Option<CsxSym>, ghost s: Source)
    requires SymDivided(points, n, diagonals, starts, cuts, limits) && i < |diagonals| && i < |starts| && i + 1 < |cuts|
         && cuts[i] <= cuts[i + 1] <= |points|
    requires lower.Valid() && lower.order == Horizontal && lower.rows
         == BuildRows(LowPart(points, cuts, i), starts[i] + 1)
         && lower.dims == Dims(|lower.rows|, n) && LowPart(points, cuts, i) != []
    requires DeltasOk(Params(4, 254, 0.05, false, false, false), xforms, deltas) && n <= 0x1_0000_0000
    ensures EncodedFrom(lower.dims, starts[i], xforms, deltas, lower.rows, s.encoded) && (part.Some? <==> FlagsFit(s.encoded, starts[i]))
    ensures part.Some? ==> PartFrom(part.value, s, points, n, cuts, starts, diagonals, i)
  {
    hide SymDivided, Spm.Valid, BuildRows, LowPart, DeltasOk, PartReady, FromPart, FlagsFit, Cells, PartEncoded;
    PartInput(lower.rows, points, n, diagonals, starts, cuts, limits, i);
    PartRows(points, n, diagonals, starts, cuts, limits, i);
    var sym := new SpmSym(lower, starts[i], diagonals[i]);
    part, s := PreparePart(sym, xforms, deltas, full);
    if part.Some? {
      MakeFrom(part.value, s, points, n, cuts, starts, diagonals, i);
    }
  }

  /** The elements of every part, as they were loaded. */
  ghost function AllPoints(points: seq<Coo>, cuts: seq<nat>, starts: seq<nat>, n: nat): (r: seq<seq<Coo>>)
    requires n < |cuts| == |starts| && forall i {:trigger cuts[i + 1]} :: 0 <= i < n ==> cuts[i] <= cuts[i + 1] <= |points|
    ensures |r| == n && forall i {:trigger r[i]} :: 0 <= i < n ==> r[i] == Points(BuildRows(LowPart(points, cuts, i), starts[i] + 1))
  {
    seq(n, i requires 0 <= i < n => Points(BuildRows(LowPart(points, cuts, i), starts[i] + 1)))
  }

  lemma DividedSizes(points: seq<Coo>, n: nat, diagonals: seq<seq<real>>, starts: seq<nat>, cuts: seq<nat>,
                     limits: seq<nat>)
    requires SymDivided(points, n, diagonals, starts, cuts, limits)
    ensures 1 <= |diagonals| && |starts| == |cuts| == |diagonals| + 1
    ensures forall i {:trigger cuts[i + 1]} :: 0 <= i < |diagonals| ==> cuts[i] <= cuts[i + 1] <= |points|
    ensures SymMap.Partition(starts, n) && forall i {:trigger starts[i + 1]} :: 0 <= i < |diagonals| ==> starts[i + 1] == starts[i] + |diagonals[i]|
  {
    hide SymLoad.SymInput, SymLoad.SymPart, SymLoad.AreValues, SymLoad.DiagOf;
    forall i {:trigger cuts[i]} {:trigger cuts[i + 1]} | 0 <= i < |diagonals|
      ensures cuts[i] <= cuts[i + 1] <= |points|
    {
      DividedAt(points, n, diagonals, starts, cuts, limits, i);
    }
    forall i {:trigger starts[i]} {:trigger starts[i + 1]} | 0 <= i < |diagonals|
      ensures starts[i + 1] == starts[i] + |diagonals[i]|
    {
      DividedAt(points, n, diagonals, starts, cuts, limits, i);
    }
    StepsAscend(starts, |diagonals|);
  }

  lemma PartInput(rows: Rows, points: seq<Coo>, n: nat, diagonals: seq<seq<real>>, starts: seq<nat>, cuts: seq<nat>,
                  limits: seq<nat>, i: nat)
    requires SymDivided(points, n, diagonals, starts, cuts, limits) && i < |diagonals|
         && cuts[i] <= cuts[i + 1] <= |points|
    requires rows == BuildRows(LowPart(points, cuts, i), starts[i] + 1) && LowPart(points, cuts, i) != []
    ensures Valid(Horizontal, Dims(|rows|, n), rows) && AllSingles(rows) && forall c :: c in Points(rows) ==> 1 <= c.e.x < n
    ensures Cells(Horizontal, Dims(|rows|, n), rows) != []
         && Lower(Cells(Horizontal, Dims(|rows|, n), rows), starts[i], |rows|)
  {
    hide BuildRows, Points, SymLoad.LowOf, SymLoad.DiagOf, SymLoad.SymPart, SymDivided, SymLoad.SymInput, Cells,
         Valid, Lower, AllSingles;
    DividedAt(points, n, diagonals, starts, cuts, limits, i);
    PartAccepted(points, n, cuts[i], cuts[i + 1], starts[i], limits[i]);
  }

  /** A printed part, and where it comes from. */
  ghost predicate PartFrom(part: CsxSym, s: Source, points: seq<Coo>, n: nat, cuts: seq<nat>, starts: seq<nat>,
                           diagonals: seq<seq<real>>, k: nat) {
    && k < |diagonals| && k < |starts| && k + 1 < |cuts| && cuts[k] <= cuts[k + 1] <= |points|
    && PartReady(part, s.us, s.d, s.encoded, s.loaded, starts[k]) && FromPart(s, points, cuts, starts, n, k)
    && part.dvalues == diagonals[k] && s.d.rows <= |diagonals[k]|
  }

  lemma MakeFrom(part: CsxSym, s: Source, points: seq<Coo>, n: nat, cuts: seq<nat>, starts: seq<nat>,
                 diagonals: seq<seq<real>>, k: nat)
    requires k < |diagonals| && k < |starts| && k + 1 < |cuts| && cuts[k] <= cuts[k + 1] <= |points|
    requires PartReady(part, s.us, s.d, s.encoded, s.loaded, starts[k]) && part.dvalues == diagonals[k]
         && s.d.rows <= |diagonals[k]|
    requires s.loaded == BuildRows(LowPart(points, cuts, k), starts[k] + 1) && s.d == Dims(|s.loaded|, n)
    ensures PartFrom(part, s, points, n, cuts, starts, diagonals, k)
  {
    hide PartReady, BuildRows, LowPart;
  }

  ghost predicate AllFrom(parts: seq<CsxSym>, from: seq<Source>, points: seq<Coo>, n: nat, cuts: seq<nat>,
                          starts: seq<nat>, diagonals: seq<seq<real>>) {
    |parts| == |from| == |diagonals| && forall k {:trigger parts[k]} {:trigger from[k]} :: 0 <= k < |parts| ==> PartFrom(parts[k], from[k], points, n, cuts, starts, diagonals, k)
  }

  lemma PartsReady(parts: seq<CsxSym>, from: seq<Source>, points: seq<Coo>, n: nat, cuts: seq<nat>, starts: seq<nat>,
                   diagonals: seq<seq<real>>,
                   limits: seq<nat>)
    requires SymDivided(points, n, diagonals, starts, cuts, limits)
         && AllFrom(parts, from, points, n, cuts, starts, diagonals)
    ensures AllReady(parts, from, starts, n) && FromParts(from, points, cuts, starts, n)
  {
    hide PartReady, FromPart, SymDivided;
    DividedSizes(points, n, diagonals, starts, cuts, limits);
    forall i | 0 <= i < |parts|
      ensures PartReady(parts[i], from[i].us, from[i].d, from[i].encoded, from[i].loaded, starts[i])
      ensures |parts[i].dvalues| == starts[i + 1] - starts[i] && FromPart(from[i], points, cuts, starts, n, i)
    {
      assert PartFrom(parts[i], from[i], points, n, cuts, starts, diagonals, i);
    }
  }

  lemma MapsAre(maps: seq<seq<SymMap.Slot>>, mapCuts: seq<nat>, parts: seq<CsxSym>, from: seq<Source>,
                points: seq<Coo>, n: nat,
                cuts: seq<nat>, starts: seq<nat>, diagonals: seq<seq<real>>)
    requires AllFrom(parts, from, points, n, cuts, starts, diagonals) && FromParts(from, points, cuts, starts, n)
    requires var loaded := AllPoints(points, cuts, starts, |from|);
             && SymMap.MapsFor(maps, mapCuts, RemoteIn(loaded, starts), |from|, n, 1)
             && forall i, c :: 0 <= i < |from| && c in loaded[i] ==> 1 <= c.e.x < n
    ensures MapsMade(maps, mapCuts, from, starts, n)
  {
    hide PartReady, BuildRows, Points, LowPart, SymMap.MapsFor;
    forall i | 0 <= i < |from|
      ensures Points(from[i].loaded) == Points(BuildRows(LowPart(points, cuts, i), starts[i] + 1))
    {
      assert FromPart(from[i], points, cuts, starts, n, i);
    }
    assert LoadedPoints(from) == AllPoints(points, cuts, starts, |from|);
  }

  lemma AllRows(y: seq<real>, y0: seq<real>, parts: seq<CsxSym>, from: seq<Source>, points: seq<Coo>, n: nat,
                diagonals: seq<seq<real>>, starts: seq<nat>,
                cuts: seq<nat>, limits: seq<nat>, x: seq<real>)
    requires SymDivided(points, n, diagonals, starts, cuts, limits) && SymmetricValues(points)
         && |x| == |y| == |y0| == n
    requires AllFrom(parts, from, points, n, cuts, starts, diagonals) && FromParts(from, points, cuts, starts, n)
    requires |parts| == |from| < |starts| && forall t :: 0 <= t < |parts| ==> PartEnds(y, y0, parts, from, starts, x, t)
    ensures forall i :: 0 <= i < |parts| ==> PartOut(y, y0, points, x, cuts, starts, i)
  {
    hide SymDivided, Contributions, RowProduct, FromParts, PartReady, BuildRows, LowPart, DiagonalOf;
    DividedSizes(points, n, diagonals, starts, cuts, limits);
    DividedAll(points, n, diagonals, starts, cuts, limits);
    InputSingles(points, n);
    forall i, p | 0 <= i < |parts| && starts[i] <= p < starts[i + 1]
      ensures y[p] == RowOut(points, x, p, p < Reach(points, cuts, starts, i), y0[p])
    {
      assert PartFrom(parts[i], from[i], points, n, cuts, starts, diagonals, i)
           && PartEnds(y, y0, parts, from, starts, x, i);
      assert RowIs(y[p], y0[p], parts, from, starts, x, p, i);
      RightRow(parts, from, points, n, diagonals, starts, cuts, limits, x, p, i);
    }
  }

  lemma InputSingles(points: seq<Coo>, n: nat)
    requires SymLoad.SymInput(points, n)
    ensures SinglesIn(points)
  {
  }

  // ----- When the result is the product

  /** The last row of part i has an element below the diagonal. */
  ghost predicate LastRowLow(points: seq<Coo>, cuts: seq<nat>, starts: seq<nat>, i: nat) {
    && i + 1 < |cuts| && i + 1 < |starts| && cuts[i] <= cuts[i + 1] <= |points|
    && exists c :: c in LowPart(points, cuts, i) && c.y == starts[i + 1]
  }

  /** The kernel of a part reaches no row behind the part, and all its rows exactly when
      the last one has an element below the diagonal. */
  lemma PartRows(points: seq<Coo>, n: nat, diagonals: seq<seq<real>>, starts: seq<nat>, cuts: seq<nat>,
                 limits: seq<nat>, i: nat)
    requires SymDivided(points, n, diagonals, starts, cuts, limits) && i < |diagonals|
    ensures i + 1 < |cuts| && i + 1 < |starts| && cuts[i] <= cuts[i + 1] <= |points|
         && starts[i + 1] == starts[i] + |diagonals[i]|
    ensures Reach(points, cuts, starts, i) <= starts[i + 1]
    ensures LowPart(points, cuts, i) != [] ==> (Reach(points, cuts, starts, i) == starts[i + 1] <==> LastRowLow(points, cuts, starts, i))
    ensures LastRowLow(points, cuts, starts, i) ==> LowPart(points, cuts, i) != []
    ensures Reach(points, cuts, starts, i) > starts[i] <==> LowPart(points, cuts, i) != []
  {
    hide SymLoad.SymPart, SymLoad.SymInput, SymLoad.DiagOf, SymLoad.LowOf, BuildRows, SymDivided;
    DividedAt(points, n, diagonals, starts, cuts, limits, i);
    SymLoad.RowsAgree(points, n, cuts[i], cuts[i + 1], starts[i], limits[i]);
    LowRows(points, n, cuts[i], cuts[i + 1], starts[i], limits[i]);
  }

  lemma LowRows(points: seq<Coo>, n: nat, at: nat, to: nat, start: nat, limit: nat)
    requires SymLoad.SymPart(points, n, at, to, start, limit) && at <= to <= |points|
    ensures var low := SymLoad.LowOf(points[at..to]);
            |BuildRows(low, start + 1)| > 0 <==> low != []
  {
    hide SymLoad.LowOf, SymLoad.DiagOf, SymLoad.SymStops, SymLoad.FullDiagonal, BuildRows;
    SymLoad.LowAscends(points, at, to, start + 1);
    SpmMatrix.BuildLength(SymLoad.LowOf(points[at..to]), start + 1);
  }

  ghost predicate IsProduct(y: seq<real>, points: seq<Coo>, x: seq<real>) {
    |y| == |x| && SinglesIn(points) && forall p :: 0 <= p < |x| ==> y[p] == RowProduct(EntriesOf(points), x, p + 1)
  }

  /** When every part reaches its last row, the result is the product. */
  lemma CompleteProduct(y: seq<real>, y0: seq<real>, points: seq<Coo>, n: nat, diagonals: seq<seq<real>>,
                        starts: seq<nat>, cuts: seq<nat>, limits: seq<nat>, x: seq<real>)
    requires SymDivided(points, n, diagonals, starts, cuts, limits) && |x| == n == |y|
    requires forall i :: 0 <= i < |diagonals| ==> PartOut(y, y0, points, x, cuts, starts, i) && LastRowLow(points, cuts, starts, i)
    ensures IsProduct(y, points, x)
  {
    hide SymDivided, LastRowLow, RowProduct, LowPart, BuildRows, DiagonalOf;
    DividedSizes(points, n, diagonals, starts, cuts, limits);
    DividedAll(points, n, diagonals, starts, cuts, limits);
    InputSingles(points, n);
    forall p | 0 <= p < n
      ensures y[p] == RowProduct(EntriesOf(points), x, p + 1)
    {
      var t := SymMap.CutOf(starts, n, p, |diagonals|);
      assert PartOut(y, y0, points, x, cuts, starts, t) && LastRowLow(points, cuts, starts, t);
      PartRows(points, n, diagonals, starts, cuts, limits, t);
    }
  }

  /** The part of row p. */
  ghost function Owner(starts: seq<nat>, n: nat, p: nat): (t: nat)
    requires SymMap.Partition(starts, n) && p < n
    ensures t + 1 < |starts| && starts[t] <= p < starts[t + 1]
  {
    SomeOwner(starts, n, p);
    var t :| 0 <= t < |starts| - 1 && starts[t] <= p < starts[t + 1]; t
  }

  lemma SomeOwner(starts: seq<nat>, n: nat, p: nat)
    requires SymMap.Partition(starts, n) && p < n
    ensures exists t :: 0 <= t < |starts| - 1 && starts[t] <= p < starts[t + 1]
  {
    var t := SymMap.CutOf(starts, n, p, |starts| - 1);
  }

  /** Whatever y held before, the result is the product. */
  ghost predicate AlwaysProduct(points: seq<Coo>, n: nat, starts: seq<nat>, cuts: seq<nat>, nr: nat, x: seq<real>) {
    forall y, y0 :: |y| == |y0| == n && (forall i :: 0 <= i < nr ==> PartOut(y, y0, points, x, cuts, starts, i)) ==>
      IsProduct(y, points, x)
  }

  /** The multiplication is right whatever y held before exactly when the last row of every
      part has an element below the diagonal. */
  lemma AlwaysRight(points: seq<Coo>, n: nat, diagonals: seq<seq<real>>, starts: seq<nat>, cuts: seq<nat>,
                    limits: seq<nat>, x: seq<real>)
    requires SymDivided(points, n, diagonals, starts, cuts, limits) && |x| == n
    requires AllHaveLow(points, cuts, |diagonals|)
    ensures AlwaysProduct(points, n, starts, cuts, |diagonals|, x)
       <==> forall i :: 0 <= i < |diagonals| ==> LastRowLow(points, cuts, starts, i)
  {
    hide SymDivided, LastRowLow, PartOut, IsProduct, LowPart;
    if i :| 0 <= i < |diagonals| && !LastRowLow(points, cuts, starts, i) {
      DividedSizes(points, n, diagonals, starts, cuts, limits);
      assert HasLow(points, cuts, i);
      RowLeftOut(points, n, diagonals, starts, cuts, limits, x, i);
    } else {
      forall y, y0 | |y| == |y0| == n && (forall i :: 0 <= i < |diagonals| ==> PartOut(y, y0, points, x, cuts, starts, i))
        ensures IsProduct(y, points, x)
      {
        CompleteProduct(y, y0, points, n, diagonals, starts, cuts, limits, x);
      }
    }
  }

  /** A row behind the last element of its part comes out wrong for some y. */
  lemma RowLeftOut(points: seq<Coo>, n: nat, diagonals: seq<seq<real>>, starts: seq<nat>, cuts: seq<nat>,
                   limits: seq<nat>, x: seq<real>, i: nat)
    requires SymDivided(points, n, diagonals, starts, cuts, limits) && |x| == n && i < |diagonals|
    requires i + 1 < |cuts| && cuts[i] <= cuts[i + 1] <= |points| && LowPart(points, cuts, i) != []
    requires !LastRowLow(points, cuts, starts, i)
    ensures !AlwaysProduct(points, n, starts, cuts, |diagonals|, x)
  {
    hide SymDivided, LastRowLow, LowPart, Reach, DiagonalOf, PartOut, IsProduct;
    DividedSizes(points, n, diagonals, starts, cuts, limits);
    DividedAll(points, n, diagonals, starts, cuts, limits);
    InputSingles(points, n);
    PartRows(points, n, diagonals, starts, cuts, limits, i);
    var q := Reach(points, cuts, starts, i);
    assert starts[i + 1] <= n;
    var y0 := seq(n, p requires 0 <= p < n => x[p] * DiagonalOf(points, p) + 1.0);
    var y := SomeOut(points, n, diagonals, starts, cuts, limits, x, y0);
    LeftOut(y, y0, points, x, cuts, starts, i, q);
  }

  lemma LeftOut(y: seq<real>, y0: seq<real>, points: seq<Coo>, x: seq<real>, cuts: seq<nat>, starts: seq<nat>, i: nat,
                q: nat)
    requires PartOut(y, y0, points, x, cuts, starts, i) && Reach(points, cuts, starts, i) <= q
         && starts[i] <= q < starts[i + 1]
    requires y0[q] == x[q] * DiagonalOf(points, q) + 1.0
    ensures !IsProduct(y, points, x)
  {
    hide RowProduct, DiagonalOf, LowPart, BuildRows, Reach;
    assert y[q] == RowProduct(EntriesOf(points), x, q + 1) + 1.0;
  }

  /** There is a result for every y. */
  lemma SomeOut(points: seq<Coo>, n: nat, diagonals: seq<seq<real>>, starts: seq<nat>, cuts: seq<nat>,
                limits: seq<nat>, x: seq<real>, y0: seq<real>)
    returns (y: seq<real>)
    requires SymDivided(points, n, diagonals, starts, cuts, limits) && |x| == |y0| == n && SinglesIn(points)
    ensures |y| == n && forall t :: 0 <= t < |diagonals| ==> PartOut(y, y0, points, x, cuts, starts, t)
  {
    hide SymDivided, RowOut, LowPart, Reach;
    DividedSizes(points, n, diagonals, starts, cuts, limits);
    y := seq(n, p requires 0 <= p < n =>
      var t := Owner(starts, n, p); RowOut(points, x, p, p < Reach(points, cuts, starts, t), y0[p]));
    forall t, p | 0 <= t < |diagonals| && starts[t] <= p < starts[t + 1]
      ensures y[p] == RowOut(points, x, p, p < Reach(points, cuts, starts, t), y0[p])
    {
      SameOwner(starts, n, p, t);
    }
  }

  lemma SameOwner(starts: seq<nat>, n: nat, p: nat, t: nat)
    requires SymMap.Partition(starts, n) && p < n && t + 1 < |starts| && starts[t] <= p < starts[t + 1]
    ensures Owner(starts, n, p) == t
  {
    var u := Owner(starts, n, p);
  }

  /** A list for which it is not right: loaded as one part, its last row is only a diagonal
      element. */
  lemma DiagonalLastWrong(points: seq<Coo>, x: seq<real>) returns (diagonals: seq<seq<real>>)
    requires SymLoad.DiagonalLast(points) && |x| == 3
    ensures SymDivided(points, 3, diagonals, [0, 3], [0, |points|], [SymLoad.Share(points, 3, 0, 1)])
    ensures !AlwaysProduct(points, 3, [0, 3], [0, |points|], 1, x)
  {
    hide SymLoad.SymPart, SymLoad.SymInput, SymLoad.DiagOf, BuildRows, SymLoad.LowOf, LastRowLow, AlwaysProduct;
    SymLoad.DiagonalLastBreaks(points);
    var ds := SymLoad.DiagOf(points[0..|points|]);
    DiagonalSingles(points);
    diagonals := [seq(3, j requires 0 <= j < 3 => ds[j].e.val)];
    var starts, cuts, limits := [0, 3], [0, |points|], [SymLoad.Share(points, 3, 0, 1)];
    assert SymLoad.AreValues(diagonals[0], ds) && cuts[0] == starts[0] == 0 && cuts[1] == |points| && starts[1] == 3;
    forall i {:trigger diagonals[i]} {:trigger limits[i]} | 0 <= i < |diagonals|
      ensures SymLoad.SymPart(points, 3, cuts[i], cuts[i + 1], starts[i], limits[i])
      ensures SymLoad.AreValues(diagonals[i], SymLoad.DiagOf(points[cuts[i]..cuts[i + 1]]))
      ensures starts[i + 1] == starts[i] + |diagonals[i]|
      ensures limits[i] == SymLoad.Share(points, 3, cuts[i], |diagonals| - i) && BeforeAre(points, cuts[i], starts[i])
    {
      assert i == 0;
    }
    PartRows(points, 3, diagonals, starts, cuts, limits, 0);
    assert Reach(points, cuts, starts, 0) == 2;
    RowLeftOut(points, 3, diagonals, starts, cuts, limits, x, 0);
  }

  lemma DiagonalSingles(points: seq<Coo>)
    requires SymLoad.DiagonalLast(points)
    ensures var ds := SymLoad.DiagOf(points[0..|points|]); forall j :: 0 <= j < |ds| ==> ds[j].e.Single?
  {
    hide SymLoad.DiagOf;
    SymLoad.FilterMembers(points[0..|points|]);
    var ds := SymLoad.DiagOf(points[0..|points|]);
    forall j | 0 <= j < |ds|
      ensures ds[j].e.Single?
    {
      assert ds[j] in ds;
    }
  }

  // ----- From the list of elements to the product

  /** Loads a symmetric matrix into nr parts and multiplies, exactly when every part has an
      element below the diagonal and the ids of every encoded part fit the flag byte;
      otherwise nothing is multiplied.  `AlwaysRight` says when the result is the product. */
  method LoadAndMultiplySymmetric(points: seq<Coo>, n: nat, nr: nat, xforms: seq<nat>, deltas: Option<seq<seq<nat>>>,
                                  full: bool, x: seq<real>, y: array<real>, temps: seq<array<real>>)
    returns (ok: bool, ghost diagonals: seq<seq<real>>, ghost starts: seq<nat>, ghost cuts: seq<nat>,
             ghost limits: seq<nat>, ghost encoded: seq<Rows>, ghost made: Made)
    requires nr >= 1 && SymLoad.SymInput(points, n) && SymmetricValues(points)
    requires DeltasOk(Params(4, 254, 0.05, false, false, false), xforms, deltas)
    requires |x| == n <= 0x1_0000_0000 && Room(temps, y, n, nr)
    modifies y, set a | a in temps
    ensures |diagonals| == nr && SymDivided(points, n, diagonals, starts, cuts, limits)
    ensures ok <==> AllHaveLow(points, cuts, nr) && AllFit(encoded, starts)
    ensures AllHaveLow(points, cuts, nr) ==> EncodedParts(encoded, xforms, deltas, points, cuts, starts, n, nr)
    ensures !ok ==> y[..] == old(y[..]) && forall c :: 0 <= c < |temps| ==> temps[c][..] == old(temps[c][..])
    ensures ok ==> forall i :: 0 <= i < nr ==> PartOut(y[..], old(y[..]), points, x, cuts, starts, i)
    ensures ok && (forall i :: 0 <= i < nr ==> LastRowLow(points, cuts, starts, i)) ==> IsProduct(y[..], points, x)
    ensures ok ==> MadeFrom(made, points, n, cuts, starts, diagonals) && EncodedAre(made, encoded)
  {
    hide SymLoad.SymInput, SymmetricValues, DeltasOk, Spm.Valid, SymDivided, AllFit, LastRowLow, EncodedParts,
         SymLoad.SymLoaded, LowPart, PartIn, PartOut, IsProduct, MadeFrom;
    var lowers, triangles, begins;
    lowers, triangles, begins, cuts, limits := SymLoad.LoadMt(points, n, nr);
    diagonals, starts, encoded := triangles, begins, [];
    made := Made([], [], [], [], []);
    LoadedParts(lowers, diagonals, points, n, starts, cuts, limits);
    DividedSizes(points, n, diagonals, starts, cuts, limits);
    ok := AllFilled(lowers, points, n, diagonals, starts, cuts, limits);
    if ok {
      forall i | 0 <= i < |lowers|
        ensures PartIn(lowers[i], points, cuts, starts, n, i) && LowPart(points, cuts, i) != []
      {
        assert HasLow(points, cuts, i);
      }
      assert y[..] == old(y[..]);
      ok, encoded, made := MultiplySymmetric(lowers, triangles, begins, n, xforms, deltas, full, x, y, temps, points, cuts,
                                             limits);
      AreEncoded(encoded, xforms, deltas, lowers, points, cuts, starts, n);
      if ok && forall i :: 0 <= i < nr ==> LastRowLow(points, cuts, starts, i) {
        CompleteProduct(y[..], old(y[..]), points, n, diagonals, starts, cuts, limits, x);
      }
    }
  }

  /** Every part has an element below the diagonal. */
  ghost predicate AllHaveLow(points: seq<Coo>, cuts: seq<nat>, nr: nat) {
    forall i :: 0 <= i < nr ==> HasLow(points, cuts, i)
  }

  ghost predicate HasLow(points: seq<Coo>, cuts: seq<nat>, i: nat) {
    i + 1 < |cuts| && cuts[i] <= cuts[i + 1] <= |points| && LowPart(points, cuts, i) != []
  }

  /** The parts were loaded, and encoded as wished without changing their cells. */
  ghost predicate EncodedParts(encoded: seq<Rows>, xforms: seq<nat>, deltas: Option<seq<seq<nat>>>, points: seq<Coo>,
                               cuts: seq<nat>, starts: seq<nat>, n: nat,
                               nr: nat) {
    |encoded| == nr && forall i {:trigger encoded[i]} :: 0 <= i < nr ==> EncodedPart(encoded[i], xforms, deltas, points, cuts, starts, n, i)
  }

  ghost predicate EncodedPart(rows: Rows, xforms: seq<nat>, deltas: Option<seq<seq<nat>>>, points: seq<Coo>,
                              cuts: seq<nat>, starts: seq<nat>, n: nat, i: nat) {
    && i + 1 < |cuts| && i < |starts| && cuts[i] <= cuts[i + 1] <= |points|
    && var rows0 := BuildRows(LowPart(points, cuts, i), starts[i] + 1);
       EncodedFrom(Dims(|rows0|, n), starts[i], xforms, deltas, rows0, rows)
  }

  lemma AreEncoded(encoded: seq<Rows>, xforms: seq<nat>, deltas: Option<seq<seq<nat>>>, lowers: seq<Spm>,
                   points: seq<Coo>, cuts: seq<nat>, starts: seq<nat>, n: nat)
    requires |encoded| == |lowers| < |cuts| == |starts|
    requires forall i {:trigger lowers[i]} :: 0 <= i < |lowers| ==> PartIn(lowers[i], points, cuts, starts, n, i)
    requires forall i {:trigger encoded[i]} :: 0 <= i < |lowers| ==>
               EncodedFrom(lowers[i].dims, starts[i], xforms, deltas, lowers[i].rows, encoded[i])
    ensures EncodedParts(encoded, xforms, deltas, points, cuts, starts, n, |lowers|)
  {
    hide EncodedFrom, BuildRows, LowPart, Spm.Valid;
    forall i {:trigger encoded[i]} | 0 <= i < |lowers|
      ensures EncodedPart(encoded[i], xforms, deltas, points, cuts, starts, n, i)
    {
      assert PartIn(lowers[i], points, cuts, starts, n, i);
    }
  }

  lemma LoadedParts(lowers: seq<Spm>, diagonals: seq<seq<real>>, points: seq<Coo>, n: nat, starts: seq<nat>,
                    cuts: seq<nat>, limits: seq<nat>)
    requires SymLoad.SymInput(points, n) && |lowers| == |diagonals| == |limits| >= 1
         && |starts| == |cuts| == |lowers| + 1
    requires starts[0] == cuts[0] == 0 && cuts[|lowers|] == |points| && starts[|lowers|] == n
    requires forall i {:trigger lowers[i]} :: 0 <= i < |lowers| ==>
               SymLoad.SymLoaded(lowers[i], diagonals[i], points, cuts[i], cuts[i + 1], starts[i], starts[i + 1], limits[i], n, |lowers| - i)
    ensures SymDivided(points, n, diagonals, starts, cuts, limits)
    ensures forall i {:trigger lowers[i]} :: 0 <= i < |lowers| ==> PartIn(lowers[i], points, cuts, starts, n, i)
  {
    hide SymLoad.SymInput, SymLoad.DiagOf, SymLoad.LowOf, SymLoad.AreValues, Spm.Valid, BuildRows, SymLoad.FullDiagonal,
         InRowOrder, FromRow, SymLoad.Share;
    forall i {:trigger cuts[i]} {:trigger diagonals[i]} {:trigger limits[i]} {:trigger lowers[i]} | 0 <= i < |lowers|
      ensures PartIn(lowers[i], points, cuts, starts, n, i)
      ensures BeforeAre(points, cuts[i], starts[i]) && limits[i] == SymLoad.Share(points, n, cuts[i], |diagonals| - i)
      ensures SymLoad.SymPart(points, n, cuts[i], cuts[i + 1], starts[i], limits[i])
      ensures SymLoad.AreValues(diagonals[i], SymLoad.DiagOf(points[cuts[i]..cuts[i + 1]]))
      ensures starts[i + 1] == starts[i] + |diagonals[i]|
    {
      assert SymLoad.SymLoaded(lowers[i], diagonals[i], points, cuts[i], cuts[i + 1], starts[i], starts[i + 1], limits[i], n, |lowers| - i);
    }
  }

  /** Whether every part has an element below the diagonal: a kernel runs at least one
      unit. */
  method AllFilled(lowers: seq<Spm>, ghost points: seq<Coo>, ghost n: nat, ghost diagonals: seq<seq<real>>,
                   ghost starts: seq<nat>, ghost cuts: seq<nat>, ghost limits: seq<nat>)
    returns (filled: bool)
    requires SymDivided(points, n, diagonals, starts, cuts, limits) && |lowers| == |diagonals|
    requires forall i {:trigger lowers[i]} :: 0 <= i < |lowers| ==> PartIn(lowers[i], points, cuts, starts, n, i)
    ensures filled <==> AllHaveLow(points, cuts, |lowers|)
  {
    hide Spm.Valid, LowPart, BuildRows, SymDivided;
    DividedSizes(points, n, diagonals, starts, cuts, limits);
    filled := true;
    var i := 0;
    while i < |lowers|
      invariant 0 <= i <= |lowers|
      invariant filled <==> AllHaveLow(points, cuts, i)
    {
      assert PartIn(lowers[i], points, cuts, starts, n, i);
      PartRows(points, n, diagonals, starts, cuts, limits, i);
      assert HasLow(points, cuts, i) <==> lowers[i].NrRows() > 0;
      filled := filled && lowers[i].NrRows() > 0;
      i := i + 1;
    }
  }
}

/** The encoding manager: gathers statistics, chooses orders and encodes.

    Every operation on the matrix is tied to the functions of `Encoding`, so that a
    whole run of the manager keeps the cells of the matrix. */
module Drle {
  import opened Orders
  import opened Matrix
  import opened Products
  import opened Seqs
  import Reorder
  import opened RowCodec
  import opened MatrixCodec
  import opened RowEncoder
  import opened SpmMatrix
  import opened Encoding
  import opened DrleStats
  import opened StatsCount
  import opened RowStatistics

  /** Codes of the enumeration that are delimiters, not orders. */
  const BLOCK_TYPE_START: nat := 5
  const BLOCK_COL_START: nat := 14
  const BLOCK_TYPE_END: nat := 23
  const XFORM_MAX: nat := 24
  const ALL_TYPES: set<nat> := {0, 1, 2, 3, 4, 5, 6, 7, 8, 9, 10, 11, 12, 13, 14, 15, 16, 17, 18, 19, 20, 21, 22, 23}

  /** The types that are orders of the matrix. */
  predicate Encodable(t: nat) {
    1 <= t < BLOCK_TYPE_END && t != BLOCK_TYPE_START && t != BLOCK_COL_START
  }

  /** The encodable types below n, and how many there are. */
  function TypesBelow(n: nat): set<nat> {
    if n == 0 then {} else if Encodable(n - 1) then TypesBelow(n - 1) + {n - 1} else TypesBelow(n - 1)
  }

  function EncodableTypes(): set<nat> {
    TypesBelow(XFORM_MAX)
  }

  function TypeCount(n: nat): nat {
    if n == 0 then 0 else TypeCount(n - 1) + if Encodable(n - 1) then 1 else 0
  }

  /** The settings of a manager. */
  datatype Params = Params(min: nat, max: nat, minPerc: real, splitBlocks: bool, oneDimBlocks: bool, numa: bool)
  {
    function For(t: nat, deltas: seq<nat>): Config {
      Config(OfCode(t), min, max, deltas, splitBlocks, numa)
    }

    /** The size limit leaves room for one column of blocks. */
    predicate Fits(t: nat) {
      OfCode(t).Align() <= max
    }

    /** Types that are never considered. */
    predicate AlwaysIgnored(t: nat) {
      !Encodable(t) || (!oneDimBlocks && OfCode(t).Align() == 1)
    }
  }

  // ----- Which entries are worth encoding

  predicate Worth(p: Params, nonzeros: nat, align: nat, e: Stat) {
    && !(align == 1 && e.dim < p.min)
    && Passes(e, nonzeros, p.minPerc) && e.dim < 10000
  }

  function Selected(p: Params, nonzeros: nat, align: nat, s: Stats): Stats {
    if s == [] then []
    else
      var init := Selected(p, nonzeros, align, s[..|s| - 1]);
      if Worth(p, nonzeros, align, s[|s| - 1]) then init + [s[|s| - 1]] else init
  }

  function DimsOf(s: Stats): (r: seq<nat>)
    ensures |r| == |s| && forall i {:trigger r[i]} :: 0 <= i < |s| ==> r[i] == s[i].dim
  {
    seq(|s|, i requires 0 <= i < |s| => s[i].dim)
  }

  lemma DimsOrdered(s: Stats)
    requires Ascending(s)
    ensures Ordered(DimsOf(s))
  {
    forall i, j | 0 <= i < j < |s|
      ensures s[i].dim < s[j].dim
    {
      AscendingAt(s, i, j);
    }
  }

  lemma DimsPositive(s: Stats)
    requires forall i :: 0 <= i < |s| ==> s[i].dim >= 1
    ensures forall i :: 0 <= i < |DimsOf(s)| ==> DimsOf(s)[i] >= 1
  {
  }

  /** The statistics of one type on a matrix in the horizontal order. */
  function TypeStats(p: Params, nonzeros: nat, d: Dims, t: nat, rows: Rows): Stats
    requires p.max >= 1
  {
    var align := OfCode(t).Align();
    var raw := MatrixStats(p.For(t, []), Reorder.Transformed(Horizontal, OfCode(t), d, rows));
    var cut := if 1 <= align <= p.max && p.splitBlocks then Corrected(raw, align, p.max, nonzeros, p.minPerc) else raw;
    Selected(p, nonzeros, align, cut)
  }

  /** What is kept: entries that hold enough of the nonzeros, fit a pattern id and, for
      blocks of one row or column, are not shorter than a run may be. */
  lemma {:induction false} SelectedIs(p: Params, nonzeros: nat, align: nat, s: Stats, e: Stat)
    ensures e in Selected(p, nonzeros, align, s) <==>
              e in s && e.dim < 10000 && (align == 1 ==> e.dim >= p.min) && Enough(e, nonzeros, p.minPerc)
  {
    hide Passes, Enough;
    if s != [] {
      var init, l := s[..|s| - 1], s[|s| - 1];
      SelectedIs(p, nonzeros, align, init, e);
      PassesIs(l, nonzeros, p.minPerc);
      assert s == init + [l];
    }
  }

  lemma {:induction false} SelectedOk(p: Params, nonzeros: nat, align: nat, s: Stats, ok: Stat -> bool)
    requires Each(s, ok)
    ensures var r := Selected(p, nonzeros, align, s);
            && Each(r, ok) && Nnz(r) <= Nnz(s)
            && forall i :: 0 <= i < |r| ==> r[i].dim < 10000
  {
    hide Passes;
    if s != [] {
      var init, l := s[..|s| - 1], s[|s| - 1];
      SelectedOk(p, nonzeros, align, init, ok);
      if Worth(p, nonzeros, align, l) {
        Snoc(Selected(p, nonzeros, align, init), l);
      }
    }
  }

  /** Selecting keeps the order of the entries. */
  lemma {:induction false} SelectedAscends(p: Params, nonzeros: nat, align: nat, s: Stats)
    requires Ascending(s)
    ensures var r := Selected(p, nonzeros, align, s);
            Ascending(r) && (r != [] ==> s != [] && r[|r| - 1].dim <= s[|s| - 1].dim)
  {
    hide Worth, Ascending;
    if s == [] {
      NoEntries(Sound());
    } else {
      var init, l := s[..|s| - 1], s[|s| - 1];
      AscendingParts(init, l);
      assert s == init + [l];
      SelectedAscends(p, nonzeros, align, init);
      AscendingParts(Selected(p, nonzeros, align, init), l);
    }
  }

  lemma AscendingParts(init: Stats, l: Stat)
    ensures Ascending(init + [l]) <==> Ascending(init) && (init != [] ==> init[|init| - 1].dim < l.dim)
  {
    Snoc(init, l);
    if init == [] {
      NoEntries(Sound());
    }
  }

  lemma EntryPositive(o: Order, e: Stat)
    requires EntryOk(o)(e)
    ensures e.dim >= 1 && e.nnz >= e.np
  {
    if o.Align() != 0 {
      AtLeastPatterns(o.Align(), e.dim, e.np);
    }
  }

  lemma AtLeastPatterns(align: nat, dim: nat, np: nat)
    requires align >= 1 && dim >= 1
    ensures align * (dim * np) >= np
  {
    MulMono(1, dim, np);
    MulMono(1, align, dim * np);
  }

  lemma {:induction false} PatternsBelow(o: Order, s: Stats)
    requires Each(s, EntryOk(o))
    ensures Patterns(s) <= Nnz(s)
  {
    hide EntryOk;
    if s != [] {
      PatternsBelow(o, s[..|s| - 1]);
      EntryPositive(o, s[|s| - 1]);
    }
  }

  /** What the manager records for a type: sound entries, positive dimensions that
      fit a pattern id, and no more elements than are unencoded. */
  lemma TypeStatsOk(p: Params, nonzeros: nat, d: Dims, t: nat, rows: Rows)
    requires p.max >= 1 && Valid(Horizontal, d, rows)
    ensures var r := TypeStats(p, nonzeros, d, t, rows);
            && Ascending(r) && Each(r, EntryOk(OfCode(t))) && Patterns(r) <= Nnz(r)
            && Nnz(r) <= Unencoded(Reorder.Transformed(Horizontal, OfCode(t), d, rows))
            && (p.splitBlocks && 1 <= OfCode(t).Align() <= p.max ==> Each(r, InLimit(OfCode(t).Align(), p.max)))
            && forall i :: 0 <= i < |r| ==> 1 <= r[i].dim < 10000
  {
    hide Nnz, Each, Ascending, RowSorted, PositiveXs, MatrixStats, Corrected, Selected, Reorder.Transformed, Valid,
         EntryOk, Worth;
    var o := OfCode(t);
    var there := Reorder.Transformed(Horizontal, o, d, rows);
    TransformValid(Horizontal, o, d, rows);
    ValidRowsSorted(o, d, there);
    MatrixCounts(p.For(t, []), there);
    var raw := MatrixStats(p.For(t, []), there);
    var cut := if 1 <= o.Align() <= p.max && p.splitBlocks then Corrected(raw, o.Align(), p.max, nonzeros, p.minPerc) else raw;
    if 1 <= o.Align() <= p.max && p.splitBlocks {
      BlockEntries(o);
      CorrectedOk(raw, o.Align(), p.max, nonzeros, p.minPerc);
      SelectedOk(p, nonzeros, o.Align(), cut, InLimit(o.Align(), p.max));
    }
    SelectedOk(p, nonzeros, o.Align(), cut, EntryOk(o));
    SelectedAscends(p, nonzeros, o.Align(), cut);
    var r := Selected(p, nonzeros, o.Align(), cut);
    PatternsBelow(o, r);
    forall i | 0 <= i < |r|
      ensures 1 <= r[i].dim
    {
      EachAt(r, EntryOk(o), i);
      EntryPositive(o, r[i]);
    }
  }

  lemma BlockEntries(o: Order)
    requires o.Align() != 0
    ensures EntryOk(o) == Blocky(o.Align())
  {
  }

  lemma ValidRowsSorted(o: Order, d: Dims, rows: Rows)
    requires Valid(o, d, rows)
    ensures forall i :: 0 <= i < |rows| ==> RowSorted(rows[i]) && PositiveXs(rows[i])
  {
    hide Valid, GoodElem, RowTight, WellSized;
    forall i | 0 <= i < |rows|
      ensures RowSorted(rows[i]) && PositiveXs(rows[i])
    {
      RowsValid(o, d, rows, i + 1);
    }
  }

  // ----- Sets of deltas

  /** Inserts into an ascending list without repetition. */
  function Insert(ds: seq<nat>, x: nat): seq<nat> {
    if ds == [] then [x]
    else
      var init, l := ds[..|ds| - 1], ds[|ds| - 1];
      if l < x then ds + [x] else if l == x then ds else Insert(init, x) + [l]
  }

  lemma {:induction false} InsertMembers(ds: seq<nat>, x: nat)
    ensures forall y :: y in Insert(ds, x) <==> y in ds || y == x
  {
    if ds != [] {
      var init, l := ds[..|ds| - 1], ds[|ds| - 1];
      InsertMembers(init, x);
      assert ds == init + [l];
    }
  }

  lemma {:induction false} InsertOrdered(ds: seq<nat>, x: nat)
    requires Ordered(ds)
    ensures Ordered(Insert(ds, x))
  {
    if ds != [] {
      var init, l := ds[..|ds| - 1], ds[|ds| - 1];
      InsertOrdered(init, x);
      InsertMembers(init, x);
      if x < l {
        forall i | 0 <= i < |Insert(init, x)|
          ensures Insert(init, x)[i] < l
        {
          assert Insert(init, x)[i] in Insert(init, x);
        }
      }
    }
  }

  // ----- The greedy run

  /** Elements that a type would encode, less the patterns it needs for them. */
  function Gain(p: Params, nonzeros: nat, d: Dims, t: nat, rows: Rows): int
    requires p.max >= 1
  {
    var s := TypeStats(p, nonzeros, d, t, rows);
    Nnz(s) - Patterns(s)
  }

  /** The first type of highest gain among those not ignored, to be encoded with exactly
      the dimensions its statistics keep. */
  ghost predicate Picks(p: Params, nonzeros: nat, d: Dims, rows: Rows, ignored: set<nat>, c: Config)
    requires p.max >= 1
  {
    var t := c.order.Code();
    && t in EncodableTypes() - ignored && Gain(p, nonzeros, d, t, rows) > 0
    && (forall u :: u in EncodableTypes() - ignored ==> Gain(p, nonzeros, d, u, rows) <= Gain(p, nonzeros, d, t, rows))
    && (forall u :: u in EncodableTypes() - ignored && u < t ==> Gain(p, nonzeros, d, u, rows) < Gain(p, nonzeros, d, t, rows))
    && c == p.For(t, DimsOf(TypeStats(p, nonzeros, d, t, rows)))
  }

  /** No type that is not ignored gains anything. */
  ghost predicate NoGain(p: Params, nonzeros: nat, d: Dims, rows: Rows, ignored: set<nat>)
    requires p.max >= 1
  {
    forall u :: u in EncodableTypes() - ignored ==> Gain(p, nonzeros, d, u, rows) == 0
  }

  /** What is ignored after the encodings cs: in each round the types without a gain, and
      the type that was encoded. */
  ghost function IgnoredAfter(p: Params, nonzeros: nat, d: Dims, rows0: Rows, ignored: set<nat>,
                              cs: seq<Config>): set<nat>
    requires p.max >= 1 && GoodConfigs(cs)
  {
    if cs == [] then ignored
    else
      var n := |cs| - 1;
      var before := IgnoredAfter(p, nonzeros, d, rows0, ignored, cs[..n]);
      var rows := EncodeMany(cs[..n], Horizontal, d, rows0);
      before + (set u | u in EncodableTypes() - before && Gain(p, nonzeros, d, u, rows) == 0) + {cs[n].order.Code()}
  }

  /** Every encoding is the pick on what the ones before it left. */
  ghost predicate Greedy(p: Params, nonzeros: nat, d: Dims, rows0: Rows, ignored: set<nat>, cs: seq<Config>)
    requires p.max >= 1 && GoodConfigs(cs)
  {
    forall k {:trigger cs[k]} :: 0 <= k < |cs| ==>
      Picks(p, nonzeros, d, EncodeMany(cs[..k], Horizontal, d, rows0),
            IgnoredAfter(p, nonzeros, d, rows0, ignored, cs[..k]), cs[k])
  }

  /** And what they leave has nothing more to gain. */
  ghost predicate GreedyDone(p: Params, nonzeros: nat, d: Dims, rows0: Rows, ignored: set<nat>, cs: seq<Config>)
    requires p.max >= 1 && GoodConfigs(cs)
  {
    && Greedy(p, nonzeros, d, rows0, ignored, cs)
    && NoGain(p, nonzeros, d, EncodeMany(cs, Horizontal, d, rows0), IgnoredAfter(p, nonzeros, d, rows0, ignored, cs))
  }

  lemma GreedyNone(p: Params, nonzeros: nat, d: Dims, rows0: Rows, ignored: set<nat>)
    requires p.max >= 1
    ensures Greedy(p, nonzeros, d, rows0, ignored, []) && IgnoredAfter(p, nonzeros, d, rows0, ignored, []) == ignored
  {
  }

  lemma GreedyMore(p: Params, nonzeros: nat, d: Dims, rows0: Rows, ignored: set<nat>, cs: seq<Config>, c: Config)
    requires p.max >= 1 && GoodConfigs(cs) && c.Good() && Greedy(p, nonzeros, d, rows0, ignored, cs)
    requires Picks(p, nonzeros, d, EncodeMany(cs, Horizontal, d, rows0), IgnoredAfter(p, nonzeros, d, rows0, ignored, cs), c)
    ensures Greedy(p, nonzeros, d, rows0, ignored, cs + [c])
    ensures var before, rows := IgnoredAfter(p, nonzeros, d, rows0, ignored, cs), EncodeMany(cs, Horizontal, d, rows0);
            IgnoredAfter(p, nonzeros, d, rows0, ignored, cs + [c])
            == before + (set u | u in EncodableTypes() - before && Gain(p, nonzeros, d, u, rows) == 0)
                 + {c.order.Code()}
  {
    hide Picks, EncodableTypes, Gain, EncodeMany;
    var more := cs + [c];
    Snoc(cs, c);
    forall k {:trigger more[k]} | 0 <= k < |more|
      ensures more[..k] == cs[..k]
      ensures Picks(p, nonzeros, d, EncodeMany(more[..k], Horizontal, d, rows0),
                    IgnoredAfter(p, nonzeros, d, rows0, ignored, more[..k]), more[k])
    {
      if k < |cs| {
        assert more[..k] == cs[..k] && more[k] == cs[k];
      }
    }
  }

  lemma OnePick(p: Params, nonzeros: nat, d: Dims, rows: Rows, ignored: set<nat>, a: Config, b: Config)
    requires p.max >= 1 && Picks(p, nonzeros, d, rows, ignored, a) && Picks(p, nonzeros, d, rows, ignored, b)
    ensures a == b
  {
    hide Gain, EncodableTypes, TypeStats, DimsOf;
  }

  lemma {:induction false} SamePicks(p: Params, nonzeros: nat, d: Dims, rows0: Rows, ignored: set<nat>, a: seq<Config>,
                                     b: seq<Config>, k: nat)
    requires p.max >= 1 && GoodConfigs(a) && GoodConfigs(b) && k <= |a| && k <= |b|
    requires Greedy(p, nonzeros, d, rows0, ignored, a) && Greedy(p, nonzeros, d, rows0, ignored, b)
    ensures a[..k] == b[..k]
  {
    hide Picks, EncodeMany, IgnoredAfter;
    if k > 0 {
      SamePicks(p, nonzeros, d, rows0, ignored, a, b, k - 1);
      OnePick(p, nonzeros, d, EncodeMany(a[..k - 1], Horizontal, d, rows0),
              IgnoredAfter(p, nonzeros, d, rows0, ignored, a[..k - 1]), a[k - 1], b[k - 1]);
      assert a[..k] == a[..k - 1] + [a[k - 1]] && b[..k] == b[..k - 1] + [b[k - 1]];
    }
  }

  lemma NotShorter(p: Params, nonzeros: nat, d: Dims, rows0: Rows, ignored: set<nat>, a: seq<Config>, b: seq<Config>)
    requires p.max >= 1 && GoodConfigs(a) && GoodConfigs(b)
    requires GreedyDone(p, nonzeros, d, rows0, ignored, a) && Greedy(p, nonzeros, d, rows0, ignored, b)
    ensures |b| <= |a|
  {
    hide EncodeMany, IgnoredAfter, Gain, EncodableTypes;
    if |b| > |a| {
      SamePicks(p, nonzeros, d, rows0, ignored, a, b, |a|);
      Whole(a);
      PickAt(p, nonzeros, d, rows0, ignored, b, |a|);
    }
  }

  lemma PickAt(p: Params, nonzeros: nat, d: Dims, rows0: Rows, ignored: set<nat>, cs: seq<Config>, k: nat)
    requires p.max >= 1 && GoodConfigs(cs) && Greedy(p, nonzeros, d, rows0, ignored, cs) && k < |cs|
    ensures var rows, left := EncodeMany(cs[..k], Horizontal, d, rows0), EncodableTypes() - IgnoredAfter(p, nonzeros,
          d, rows0, ignored, cs[..k]);
            exists t :: t in left && Gain(p, nonzeros, d, t, rows) > 0
  {
    hide EncodeMany, IgnoredAfter, Gain, EncodableTypes;
    assert Picks(p, nonzeros, d, EncodeMany(cs[..k], Horizontal, d, rows0),
                 IgnoredAfter(p, nonzeros, d, rows0, ignored, cs[..k]), cs[k]);
  }

  /** A matrix and the types to consider determine the whole run. */
  lemma OneGreedyRun(p: Params, nonzeros: nat, d: Dims, rows0: Rows, ignored: set<nat>, a: seq<Config>, b: seq<Config>)
    requires p.max >= 1 && GoodConfigs(a) && GoodConfigs(b)
    requires GreedyDone(p, nonzeros, d, rows0, ignored, a) && GreedyDone(p, nonzeros, d, rows0, ignored, b)
    ensures a == b
  {
    hide EncodeMany, IgnoredAfter, Picks, NoGain;
    NotShorter(p, nonzeros, d, rows0, ignored, a, b);
    NotShorter(p, nonzeros, d, rows0, ignored, b, a);
    SamePicks(p, nonzeros, d, rows0, ignored, a, b, |a|);
    Whole(a);
    Whole(b);
  }

  // ----- The manager

  /** x is among the deltas listed for type t. */
  ghost predicate ListedFor(xforms: seq<nat>, ds: seq<seq<nat>>, t: nat, x: nat)
    requires |ds| == |xforms|
  {
    exists k :: 0 <= k < |xforms| && xforms[k] == t && x in ds[k]
  }

  /** One encoding of a list: the settings of the manager with exactly the deltas that type
      u had before or was listed with so far. */
  ghost predicate Listed(p: Params, c: Config, u: nat, before: seq<nat>, xforms: seq<nat>, ds: seq<seq<nat>>)
    requires |ds| == |xforms|
  {
    && c == p.For(u, c.deltas) && Ordered(c.deltas)
    && forall x: nat :: x in c.deltas <==> x in before || ListedFor(xforms, ds, u, x)
  }

  /** The deltas a table holds for a type. */
  function TableDeltas(table: map<nat, seq<nat>>, t: nat): seq<nat> {
    if t in table then table[t] else []
  }

  /** The encodings of a list of types with their deltas, one after another: a type 0
      stands for the best one, and for none when there is no best one. */
  ghost predicate Serial(p: Params, table: map<nat, seq<nat>>, cs: seq<Config>, xforms: seq<nat>, ds: seq<seq<nat>>,
                         best: nat)
    requires |ds| == |xforms|
  {
    if xforms == [] then cs == []
    else
      var n := |xforms| - 1;
      var u := if xforms[n] == 0 then best else xforms[n];
      if u == 0 then Serial(p, table, cs, xforms[..n], ds[..n], best)
      else
        && cs != [] && Serial(p, table, cs[..|cs| - 1], xforms[..n], ds[..n], best)
        && Listed(p, cs[|cs| - 1], u, TableDeltas(table, u), xforms, ds)
  }

  lemma SerialNone(p: Params, table: map<nat, seq<nat>>, best: nat)
    ensures Serial(p, table, [], [], [], best)
  {
  }

  lemma SerialMore(p: Params, table: map<nat, seq<nat>>, cs: seq<Config>, more: seq<Config>, xforms: seq<nat>,
                   ds: seq<seq<nat>>, best: nat, i: nat)
    requires |ds| == |xforms| && i < |xforms| && Serial(p, table, cs, xforms[..i], ds[..i], best)
    requires var u := if xforms[i] == 0 then best else xforms[i];
             if u == 0 then more == []
             else |more| == 1 && Listed(p, more[0], u, TableDeltas(table, u), xforms[..i + 1], ds[..i + 1])
    ensures Serial(p, table, cs + more, xforms[..i + 1], ds[..i + 1], best)
  {
    hide Listed;
    assert xforms[..i + 1][..i] == xforms[..i] && ds[..i + 1][..i] == ds[..i];
    assert cs + [] == cs;
    if more != [] {
      assert (cs + more)[..|cs|] == cs;
    }
  }

  /** One more type with its deltas is listed. */
  lemma ListedMore(xforms: seq<nat>, ds: seq<seq<nat>>, i: nat, t: nat, x: nat)
    requires |ds| == |xforms| && i < |xforms|
    ensures ListedFor(xforms[..i + 1], ds[..i + 1], t, x) <==>
              ListedFor(xforms[..i], ds[..i], t, x) || (xforms[i] == t && x in ds[i])
  {
    if ListedFor(xforms[..i], ds[..i], t, x) {
      var k :| 0 <= k < i && xforms[..i][k] == t && x in ds[..i][k];
      assert xforms[..i + 1][k] == t && x in ds[..i + 1][k];
    }
    if xforms[i] == t && x in ds[i] {
      assert xforms[..i + 1][i] == t && x in ds[..i + 1][i];
    }
    if ListedFor(xforms[..i + 1], ds[..i + 1], t, x) {
      var k :| 0 <= k < i + 1 && xforms[..i + 1][k] == t && x in ds[..i + 1][k];
      if k < i {
        assert xforms[..i][k] == t && x in ds[..i][k];
      }
    }
  }

  lemma {:induction false} SameMembers(a: seq<nat>, b: seq<nat>)
    requires Ordered(a) && Ordered(b) && forall x: nat :: x in a <==> x in b
    ensures a == b
    decreases |a|
  {
    hide Ordered;
    FirstMember(a);
    FirstMember(b);
    if a != [] && b != [] {
      var init, l := LastIs(a);
      var init', l' := LastIs(b);
      assert l in b && l' in a;
      SameMembers(init, init');
    }
  }

  lemma FirstMember(a: seq<nat>)
    ensures a != [] ==> exists x: nat :: x in a
  {
    if a != [] {
      assert a[0] in a;
    }
  }

  lemma LastIs(a: seq<nat>) returns (init: seq<nat>, l: nat)
    requires Ordered(a) && a != []
    ensures a == init + [l] && Ordered(init) && l in a
    ensures forall x: nat :: x in a ==> x <= l
    ensures forall x: nat :: x in init <==> x in a && x != l
  {
    init, l := a[..|a| - 1], a[|a| - 1];
  }

  /** The list determines the encodings. */
  lemma {:induction false} OneSerial(p: Params, table: map<nat, seq<nat>>, a: seq<Config>, b: seq<Config>,
                                     xforms: seq<nat>,
                                     ds: seq<seq<nat>>, best: nat)
    requires |ds| == |xforms| && Serial(p, table, a, xforms, ds, best) && Serial(p, table, b, xforms, ds, best)
    ensures a == b
    decreases |xforms|
  {
    hide ListedFor;
    if xforms != [] {
      var n := |xforms| - 1;
      var u := if xforms[n] == 0 then best else xforms[n];
      if u == 0 {
        OneSerial(p, table, a, b, xforms[..n], ds[..n], best);
      } else {
        var k, l := |a| - 1, |b| - 1;
        OneSerial(p, table, a[..k], b[..l], xforms[..n], ds[..n], best);
        SameMembers(a[k].deltas, b[l].deltas);
        assert a == a[..k] + [a[k]] && b == b[..l] + [b[l]];
      }
    }
  }

  /** The deltas of each type are positive and ascending. */
  ghost predicate DeltaTable(deltas: map<nat, seq<nat>>) {
    && (forall t, i :: t in deltas && 0 <= i < |deltas[t]| ==> deltas[t][i] >= 1)
    && (forall t :: t in deltas ==> Ordered(deltas[t]))
  }

  ghost predicate StatsTable(stats: map<nat, Stats>) {
    forall t :: t in stats ==> Encodable(t) && Patterns(stats[t]) <= Nnz(stats[t])
  }

  lemma DeltaTableMore(deltas: map<nat, seq<nat>>, t: nat, ds: seq<nat>)
    requires DeltaTable(deltas) && Ordered(ds) && forall i :: 0 <= i < |ds| ==> ds[i] >= 1
    ensures DeltaTable(deltas[t := ds])
  {
    hide Ordered;
    var more := deltas[t := ds];
    forall u, i | u in more && 0 <= i < |more[u]|
      ensures more[u][i] >= 1
    {
      if u != t {
        assert u in deltas && more[u] == deltas[u];
      }
    }
  }

  lemma StatsTableMore(stats: map<nat, Stats>, t: nat, s: Stats)
    requires StatsTable(stats) && Encodable(t) && Patterns(s) <= Nnz(s)
    ensures StatsTable(stats[t := s])
  {
    hide Encodable, Patterns, Nnz;
  }

  class DrleManager {
    const spm: Spm
    const params: Params
    const nonzeros: nat
    var stats: map<nat, Stats>
    var deltas: map<nat, seq<nat>>
    var ignore: set<nat>

    constructor (m: Spm, p: Params, nnz: nat)
      requires m.Valid() && Encoding.Valid(m.order, m.dims, m.rows) && p.min >= 1 && p.max >= 1
      ensures spm == m && params == p && nonzeros == nnz && Valid() && stats == map[] && deltas == map[] && fresh(this)
      ensures forall t: nat :: t < XFORM_MAX ==> (t in ignore <==> t != 0 && p.AlwaysIgnored(t))
    {
      spm, params, nonzeros := m, p, nnz;
      stats, deltas := map[], map[];
      ignore := {BLOCK_TYPE_START, BLOCK_COL_START, BLOCK_TYPE_END} + (if p.oneDimBlocks then {} else {6, 15});
    }

    ghost predicate Valid()
      reads this, spm
    {
      spm.Valid() && Encoding.Valid(spm.order, spm.dims, spm.rows) && TablesOk()
    }

    ghost predicate TablesOk()
      reads this`stats, this`deltas, this`ignore
    {
      && params.min >= 1 && params.max >= 1 && DeltaTable(deltas) && StatsTable(stats)
      && (forall t :: 1 <= t < XFORM_MAX && !Encodable(t) ==> t in ignore)
    }

    function DeltasOf(t: nat): seq<nat>
      reads this`deltas
    {
      if t in deltas then deltas[t] else []
    }

    /** All deltas to encode can be printed. */
    ghost predicate DeltasFit()
      reads this`deltas
    {
      forall t: nat :: Chosen(ConfigFor(t))
    }

    /** The encoder's settings for a type. */
    function ConfigFor(t: nat): Config
      reads this`deltas
    {
      params.For(t, DeltasOf(t))
    }

    method AddIgnore(t: nat)
      modifies this`ignore
      ensures ignore == old(ignore) + {t}
    {
      ignore := ignore + {t};
    }

    method IgnoreAll()
      modifies this`ignore
      ensures ignore == ALL_TYPES && (old(TablesOk()) ==> TablesOk())
    {
      ignore := ALL_TYPES;
    }

    method RemoveIgnore(t: nat)
      modifies this`ignore
      ensures ignore == if params.AlwaysIgnored(t) then old(ignore) else old(ignore) - {t}
      ensures old(TablesOk()) ==> TablesOk()
    {
      if params.AlwaysIgnored(t) {
        return;
      }
      ignore := ignore - {t};
    }

    /** Statistics of the rows of the matrix in its current order. */
    method GenerateStats(c: Config) returns (s: Stats)
      requires c.max >= 1 && spm.Valid() && Encoding.Valid(spm.order, spm.dims, spm.rows)
      ensures s == MatrixStats(c, spm.rows)
      ensures forall d: nat :: ShareOf(s, d) == MatrixCount(c, spm.rows, d)
    {
      hide StretchStats, Increasing, RowSorted, PositiveXs, Encoding.Valid;
      s := [];
      var i := 0;
      ValidRowsSorted(spm.order, spm.dims, spm.rows);
      while i < spm.NrRows()
        invariant 0 <= i <= |spm.rows|
        invariant s == MatrixStats(c, spm.rows[..i])
      {
        ghost var before := s;
        var row := spm.Row(i);
        var xs, j := [], 0;
        while j < |row|
          invariant 0 <= j <= |row|
          invariant s == PartStats(c, before, row[..j]) && xs == Waiting(row[..j])
        {
          PrefixSorted(row, j);
          assert row[..j + 1][..j] == row[..j];
          if row[j].Single? {
            xs := xs + [row[j].x];
          } else {
            WaitingOk(row[..j]);
            s := UpdateStats(c, xs, s);
            xs := [];
          }
          j := j + 1;
        }
        assert row[..j] == row;
        WaitingOk(row);
        s := UpdateStats(c, xs, s);
        assert spm.rows[..i + 1][..i] == spm.rows[..i];
        i := i + 1;
      }
      assert spm.rows[..i] == spm.rows;
      forall d: nat
        ensures ShareOf(s, d) == MatrixCount(c, spm.rows, d)
      {
        MatrixExact(c, spm.rows, d);
      }
    }

    /** The tables hold the statistics of `rows` for the types below t. */
    ghost predicate Gathered(rows: Rows, t: nat)
      reads this`stats, this`deltas, this`ignore
    {
      && params.max >= 1
      && (forall u: nat :: u in stats <==> Encodable(u) && u !in ignore && u < t)
      && (forall u :: u in stats ==> stats[u] == TypeStats(params, nonzeros, spm.dims, u, rows))
      && deltas.Keys == stats.Keys
      && (forall u :: u in stats ==> deltas[u] == DimsOf(stats[u]))
    }

    /** Statistics of every type that is not ignored; the matrix comes back unchanged. */
    method GenAllStats()
      requires Valid() && spm.order == Horizontal
      requires forall t :: Encodable(t) && t !in ignore ==> params.Fits(t)
      modifies this`stats, this`deltas, spm
      ensures Valid() && spm.order == Horizontal && spm.rows == old(spm.rows)
      ensures Gathered(spm.rows, XFORM_MAX)
    {
      hide TypeStats, Encoding.Valid, Gathered, TablesOk, Spm.Valid;
      ClearStats(spm.rows);
      for t: nat := 1 to XFORM_MAX
        invariant Valid() && spm.order == Horizontal && spm.rows == old(spm.rows)
        invariant Gathered(old(spm.rows), t)
      {
        TypesLeft(t);
        if t !in ignore {
          var s := StatsOf(t);
          TypeStatsOk(params, nonzeros, spm.dims, t, spm.rows);
          Record(t, s, spm.rows);
        } else {
          Skipped(t, spm.rows);
        }
      }
    }

    method ClearStats(ghost rows: Rows)
      requires TablesOk()
      modifies this`stats, this`deltas
      ensures TablesOk() && Gathered(rows, 1)
    {
      hide TypeStats;
      stats, deltas := map[], map[];
    }

    lemma TypesLeft(t: nat)
      requires TablesOk() && 1 <= t < XFORM_MAX
      ensures t !in ignore ==> Encodable(t)
      ensures params.max >= 1
    {
    }

    lemma Skipped(t: nat, rows: Rows)
      requires Gathered(rows, t) && t in ignore
      ensures Gathered(rows, t + 1)
    {
      hide TypeStats;
    }

    method Record(t: nat, s: Stats, ghost rows: Rows)
      requires TablesOk() && Gathered(rows, t) && Encodable(t) && t !in ignore
      requires s == TypeStats(params, nonzeros, spm.dims, t, rows) && Patterns(s) <= Nnz(s)
      requires Ascending(s) && forall i :: 0 <= i < |s| ==> s[i].dim >= 1
      modifies this`stats, this`deltas
      ensures TablesOk() && Gathered(rows, t + 1)
    {
      hide TypeStats, Nnz, Patterns, DimsOf, Encodable, Ordered, Ascending, DeltaTable, StatsTable;
      DimsPositive(s);
      DimsOrdered(s);
      DeltaTableMore(deltas, t, DimsOf(s));
      StatsTableMore(stats, t, s);
      ghost var stats0, deltas0 := stats, deltas;
      stats := stats[t := s];
      deltas := deltas[t := DimsOf(s)];
      forall u | u in stats
        ensures u in deltas && deltas[u] == DimsOf(stats[u])
             && stats[u] == TypeStats(params, nonzeros, spm.dims, u, rows)
      {
        if u != t {
          assert u in stats0 && stats[u] == stats0[u] && deltas[u] == deltas0[u];
        }
      }
      forall u: nat
        ensures u in stats <==> Encodable(u) && u !in ignore && u < t + 1
      {
        assert u in stats0 <==> Encodable(u) && u !in ignore && u < t;
      }
      assert deltas.Keys == deltas0.Keys + {t} && stats.Keys == stats0.Keys + {t};
    }

    method StatsOf(t: nat) returns (s: Stats)
      requires spm.Valid() && Encoding.Valid(spm.order, spm.dims, spm.rows) && spm.order == Horizontal
      requires params.max >= 1 && params.Fits(t) && Encodable(t)
      modifies spm
      ensures spm.Valid() && spm.order == Horizontal && spm.rows == old(spm.rows)
      ensures s == TypeStats(params, nonzeros, spm.dims, t, spm.rows)
    {
      hide Encoding.Valid, MatrixStats, Corrected, Each, Reorder.Transformed, Reorder.Good, Spm.Valid, Ascending;
      ghost var rows := spm.rows;
      var o := OfCode(t);
      GoodWhenValid(Horizontal, spm.dims, rows);
      spm.Transform(o);
      TransformValid(Horizontal, o, spm.dims, rows);
      GoodWhenValid(o, spm.dims, spm.rows);
      s := GenerateStats(params.For(t, []));
      ValidRowsSorted(o, spm.dims, spm.rows);
      MatrixCounts(params.For(t, []), spm.rows);
      spm.Transform(Horizontal);
      Reorder.TransformUndo(Horizontal, o, spm.dims, rows);
      var align := o.Align();
      if align != 0 && params.splitBlocks {
        BlockEntries(o);
        s := CorrectBlockStats(s, align, params.max, nonzeros, params.minPerc);
      }
      s := Select(align, s);
    }

    method Select(align: nat, all: Stats) returns (s: Stats)
      ensures s == Selected(params, nonzeros, align, all)
    {
      s := [];
      var i := 0;
      while i < |all|
        invariant 0 <= i <= |all|
        invariant s == Selected(params, nonzeros, align, all[..i])
      {
        assert all[..i + 1][..i] == all[..i];
        if Worth(params, nonzeros, align, all[i]) {
          s := s + [all[i]];
        }
        i := i + 1;
      }
      assert all[..i] == all;
    }

    /** Elements that a type would encode, less the patterns it needs for them. */
    function Score(t: nat): int
      reads this`stats
    {
      if t in stats then Nnz(stats[t]) - Patterns(stats[t]) else 0
    }

    /** The first type with the highest score, 0 when no type has a gain. */
    ghost predicate IsBest(t: nat)
      reads this`stats
    {
      if t == 0 then forall u :: u in stats ==> Score(u) == 0
      else t in stats && Score(t) > 0 && forall u :: u in stats ==> Score(u) <= Score(t) && (u < t ==> Score(u) < Score(t))
    }

    lemma OneBest(a: nat, b: nat)
      requires IsBest(a) && IsBest(b)
      ensures a == b
    {
      hide Score;
    }

    lemma {:induction false} SomeBest(n: nat) returns (b: nat)
      requires TablesOk()
      ensures if b == 0 then forall u :: u in stats && u < n ==> Score(u) == 0
              else b in stats && Score(b) > 0
                   && forall u :: u in stats && u < n ==> Score(u) <= Score(b) && (u < b ==> Score(u) < Score(b))
      ensures b == 0 || b < n
    {
      hide Nnz, Patterns;
      if n == 0 {
        b := 0;
      } else {
        b := SomeBest(n - 1);
        if n - 1 in stats && Score(n - 1) > (if b == 0 then 0 else Score(b)) {
          b := n - 1;
        }
      }
    }

    lemma HasBest() returns (b: nat)
      requires TablesOk()
      ensures IsBest(b)
    {
      hide Score;
      b := SomeBest(XFORM_MAX);
    }

    /** The type with the highest score, the first one of equals; types without a
        gain are ignored from now on. */
    method ChooseType() returns (ret: nat)
      requires Valid()
      modifies this`ignore
      ensures Valid() && ignore == old(ignore) + set t | t in stats && Score(t) == 0
      ensures IsBest(ret) && (ret == 0 ==> forall t :: t in stats ==> Score(t) == 0)
      ensures ret != 0 ==> ret in stats && Score(ret) > 0
      ensures ret != 0 ==> forall t :: t in stats ==> Score(t) <= Score(ret) && (t < ret ==> Score(t) < Score(ret))
    {
      hide Encoding.Valid, Nnz, Patterns, Spm.Valid;
      ret := 0;
      var maxOut := 0;
      for t: nat := 1 to XFORM_MAX
        invariant Valid() && ignore == old(ignore) + set u | u in stats && Score(u) == 0 && u < t
        invariant maxOut >= 0 && (ret == 0 <==> maxOut == 0)
        invariant ret != 0 ==> ret in stats && Score(ret) == maxOut && ret < t
        invariant forall u :: u in stats && u < t ==> Score(u) <= maxOut && (ret != 0 && u < ret ==> Score(u) < maxOut)
      {
        if t in stats {
          var out := Score(t);
          if out == 0 {
            AddIgnore(t);
          } else if out > maxOut {
            maxOut := out;
            ret := t;
          }
        }
      }
    }

    /** Encodes the rows of the matrix, in its current order, into a new matrix. */
    method EncodeRows(c: Config) 
      requires spm.Valid() && c.Good() && c.order == spm.order && Encoding.Valid(spm.order, spm.dims, spm.rows)
      modifies spm
      ensures spm.Valid() && spm.order == old(spm.order) && spm.rows == EncodedRows(c, old(spm.rows))
    {
      hide Encoding.Valid, Flat, Ptrs, EncodedRow, RowSorted, PositiveXs, Spm.Valid, Builder.Valid;
      ValidRowsSorted(spm.order, spm.dims, spm.rows);
      var bld := new Builder();
      var i := 0;
      assert EncodedRows(c, spm.rows)[..0] + [[]] == [[]];
      while i < spm.NrRows()
        invariant 0 <= i <= |spm.rows|
        invariant spm.Valid() && spm.rows == old(spm.rows) && spm.order == old(spm.order)
        invariant bld.Valid() && fresh(bld) && bld.rows == EncodedRows(c, spm.rows)[..i] + [[]]
      {
        var newRow := EncodeRow(c, spm.Row(i));
        AppendRow(bld, newRow, EncodedRows(c, spm.rows)[..i], []);
        NilLeft(newRow);
        bld.NewRow(1);
        assert Empties(1) == [[]];
        assert EncodedRows(c, spm.rows)[..i] + [newRow] == EncodedRows(c, spm.rows)[..i + 1];
        i := i + 1;
      }
      assert EncodedRows(c, spm.rows)[..i] == EncodedRows(c, spm.rows);
      Snoc(EncodedRows(c, spm.rows), []);
      ghost var rows := EncodedRows(c, spm.rows);
      var es, ptr := bld.Finalize();
      spm.Install(es, ptr, rows);
    }

    method DecodeRows()
      requires spm.Valid()
      modifies spm
      ensures spm.Valid() && spm.order == old(spm.order) && spm.rows == DecodedRows(spm.order, old(spm.rows))
    {
      hide Flat, Ptrs, Expand, Spm.Valid, Builder.Valid;
      var bld := new Builder();
      var i := 0;
      ghost var rows := DecodedRows(spm.order, spm.rows);
      assert rows[..0] + [[]] == [[]];
      while i < spm.NrRows()
        invariant 0 <= i <= |spm.rows|
        invariant spm.Valid() && spm.rows == old(spm.rows) && spm.order == old(spm.order)
        invariant bld.Valid() && fresh(bld) && bld.rows == rows[..i] + [[]]
      {
        var newRow := DecodeRow(spm.order, spm.Row(i));
        AppendRow(bld, newRow, rows[..i], []);
        NilLeft(newRow);
        bld.NewRow(1);
        assert Empties(1) == [[]];
        assert rows[..i] + [newRow] == rows[..i + 1];
        i := i + 1;
      }
      assert rows[..i] == rows;
      Snoc(rows, []);
      var es, ptr := bld.Finalize();
      spm.Install(es, ptr, rows);
    }

    /** Encodes the matrix to one order. */
    method Encode(t: nat)
      requires Valid() && Encodable(t) && params.Fits(t)
      modifies this`ignore, spm
      ensures Valid() && spm.order == old(spm.order) && ignore == old(ignore) + {t}
      ensures ConfigFor(t).Good() && spm.rows == Encoding.Encode(ConfigFor(t), spm.order, spm.dims, old(spm.rows))
    {
      hide *;
      var oldType, type_ := spm.order, OfCode(t);
      ghost var rows, c := spm.rows, ConfigFor(t);
      ReadyToEncode(t);
      GoodWhenValid(oldType, spm.dims, rows);
      spm.Transform(type_);
      TransformValid(oldType, type_, spm.dims, rows);
      EncodedRowsValid(c, spm.dims, spm.rows);
      EncodeRows(ConfigFor(t));
      GoodWhenValid(type_, spm.dims, spm.rows);
      spm.Transform(oldType);
      EncodeKeepsMeaning(c, oldType, spm.dims, rows);
      EncodeIs(c, oldType, spm.dims, rows);
      KeepIgnored(t);
      MakeValid();
    }

    lemma ReadyToEncode(t: nat)
      requires Valid() && Encodable(t) && params.Fits(t)
      ensures ConfigFor(t).Good() && ConfigFor(t).order == OfCode(t)
      ensures spm.Valid() && Encoding.Valid(spm.order, spm.dims, spm.rows) && TablesOk()
    {
      hide Encoding.Valid, Spm.Valid;
    }

    lemma MakeValid()
      requires spm.Valid() && Encoding.Valid(spm.order, spm.dims, spm.rows) && TablesOk()
      ensures Valid()
    {
    }

    /** Opens all patterns of one order again. */
    method Decode(t: nat)
      requires Valid() && Encodable(t)
      modifies this`ignore, spm
      ensures spm.Valid() && spm.order == old(spm.order)
      ensures spm.rows == Encoding.Decode(OfCode(t), spm.order, spm.dims, old(spm.rows))
      ensures ignore == if params.AlwaysIgnored(t) then old(ignore) else old(ignore) - {t}
    {
      hide Encoding.Valid, Reorder.Transformed, Reorder.Good, DecodedRows, Spm.Valid, Nnz, Patterns;
      var oldType, type_ := spm.order, OfCode(t);
      GoodWhenValid(oldType, spm.dims, spm.rows);
      TransformValid(oldType, type_, spm.dims, spm.rows);
      spm.Transform(type_);
      DecodedRowsGood(type_, spm.dims, spm.rows);
      DecodeRows();
      spm.Transform(oldType);
      RemoveIgnore(t);
    }

    /** Encodes to a given type, or to the best one when none is given. */
    method EncodeType(t: nat) returns (ghost cs: seq<Config>)
      requires Valid() && (t != 0 ==> Encodable(t) && params.Fits(t)) && forall u :: u in stats ==> params.Fits(u)
      modifies this`ignore, spm
      ensures Valid() && spm.order == old(spm.order) && GoodConfigs(cs) && |cs| <= 1 && (t != 0 ==> cs == [ConfigFor(t)])
      ensures t == 0 ==> forall b :: IsBest(b) ==> cs == if b == 0 then [] else [ConfigFor(b)]
      ensures spm.rows == EncodeMany(cs, spm.order, spm.dims, old(spm.rows))
      ensures ignore >= old(ignore)
      ensures DeltasFit() ==> forall i :: 0 <= i < |cs| ==> Chosen(cs[i])
      ensures forall i :: 0 <= i < |cs| ==> cs[i].max == params.max
    {
      hide Encoding.Valid, TablesOk, Spm.Valid, Encoding.Encode, Chosen, IsBest, Score;
      cs := [];
      var chosen := t;
      if t == 0 {
        chosen := ChooseType();
        forall b | IsBest(b)
          ensures b == chosen
        {
          OneBest(b, chosen);
        }
        if chosen == 0 {
          return;
        }
        ChosenEncodable(chosen);
      }
      ConfigGood(chosen);
      cs := [ConfigFor(chosen)];
      Encode(chosen);
    }

    lemma Limits()
      requires Valid()
      ensures params.max >= 1
    {
      hide Encoding.Valid, Spm.Valid;
    }

    lemma ConfigGood(t: nat)
      requires TablesOk() && Encodable(t) && params.Fits(t)
      ensures ConfigFor(t).Good()
    {
    }

    lemma ChosenEncodable(t: nat)
      requires TablesOk() && t in stats
      ensures Encodable(t)
    {
    }

    /** The types ignored and the encodings so far are those of the greedy run. */
    ghost predicate Follows(cs: seq<Config>, rows0: Rows, ignore0: set<nat>)
      requires params.max >= 1 && GoodConfigs(cs)
      reads this`ignore
    {
      && Greedy(params, nonzeros, spm.dims, rows0, ignore0, cs)
      && EncodableTypes() - ignore == EncodableTypes() - IgnoredAfter(params, nonzeros, spm.dims, rows0, ignore0, cs)
    }

    /** A run so far: `cs` lists what was encoded, all of it new since the start. */
    ghost predicate Running(cs: seq<Config>, rows0: Rows, ignore0: set<nat>)
      reads this, spm
    {
      && Valid() && spm.order == Horizontal && GoodConfigs(cs)
      && spm.rows == EncodeMany(cs, Horizontal, spm.dims, rows0)
      && ignore0 <= ignore && Distinct(cs)
      && (forall t :: Encodable(t) && t !in ignore ==> params.Fits(t))
      && (forall i :: 0 <= i < |cs| ==>
            Chosen(cs[i]) && cs[i].max == params.max && cs[i].order.Code() !in ignore0 && cs[i].order.Code() in ignore)
    }

    /** Encodes to the best type, again and again, until no type gains anything. */
    method EncodeAll() returns (ghost cs: seq<Config>)
      requires Valid() && spm.order == Horizontal
      requires forall t :: Encodable(t) && t !in ignore ==> params.Fits(t)
      modifies this, spm
      ensures Running(cs, old(spm.rows), old(ignore)) && |cs| <= 20
      ensures GreedyDone(params, nonzeros, spm.dims, old(spm.rows), old(ignore), cs)
      ensures forall t: nat :: 1 <= t < XFORM_MAX ==> t in ignore
    {
      hide Encoding.Valid, Spm.Valid, TablesOk, Encoding.Encode, EncodeMany, Distinct, Chosen, EncodableTypes, Greedy,
           IgnoredAfter,
           NoGain;
      cs := [];
      Limits();
      GreedyNone(params, nonzeros, spm.dims, spm.rows, ignore);
      NoneEncoded(Horizontal, spm.dims, spm.rows);
      var encSeq := new nat[22];
      var counter := 0;
      TypesBound(ignore);
      while true
        invariant Running(cs, old(spm.rows), old(ignore)) && params.max >= 1 && Follows(cs, old(spm.rows), old(ignore))
        invariant fresh(encSeq) && encSeq.Length == 22
        invariant counter == |cs| && counter + |EncodableTypes() - ignore| <= 20
        decreases |EncodableTypes() - ignore|
      {
        ghost var before := ignore;
        var type_;
        type_, cs := Round(cs, old(spm.rows), old(ignore));
        if type_ == 0 {
          break;
        }
        Fewer(EncodableTypes() - before, EncodableTypes() - ignore, type_);
        encSeq[counter] := type_;
        counter := counter + 1;
      }
    }

    /** Statistics, choice and encoding of one round. */
    method Round(ghost cs: seq<Config>, ghost rows0: Rows, ghost ignore0: set<nat>) returns (t: nat,
          ghost more: seq<Config>)
      requires Running(cs, rows0, ignore0) && params.max >= 1 && Follows(cs, rows0, ignore0)
      modifies this, spm
      ensures Running(more, rows0, ignore0) && old(ignore) <= ignore
      ensures t != 0 ==> Follows(more, rows0, ignore0)
      ensures t == 0 ==> GreedyDone(params, nonzeros, spm.dims, rows0, ignore0, cs)
      ensures t == 0 ==> more == cs && forall u: nat :: 1 <= u < XFORM_MAX ==> u in ignore
      ensures t != 0 ==> |more| == |cs| + 1 && t in EncodableTypes() && t !in old(ignore) && t in ignore
    {
      hide Encoding.Valid, Spm.Valid, TablesOk, Encoding.Encode, EncodeMany, Distinct, Chosen, Score, TypeStats,
           DimsOf, EncodableTypes, OfCode,
           Params.Fits, Greedy, IgnoredAfter, Picks, NoGain, Gain;
      GenAllStats();
      t := ChooseType();
      more := cs;
      StatsGain(old(ignore), spm.rows);
      if t == 0 {
        AllIgnored(old(ignore), spm.rows);
        NothingGains(old(ignore), IgnoredAfter(params, nonzeros, spm.dims, rows0, ignore0, cs), spm.rows);
        return;
      }
      ChosenType(old(ignore), t, spm.rows);
      ConfigGood(t);
      ghost var c := ConfigFor(t);
      OneMore(cs, c, Horizontal, spm.dims, rows0);
      OneMoreDistinct(cs, c);
      more := cs + [c];
      BestIsPick(old(ignore), IgnoredAfter(params, nonzeros, spm.dims, rows0, ignore0, cs), t, spm.rows);
      GreedyMore(params, nonzeros, spm.dims, rows0, ignore0, cs, c);
      SameLeft(old(ignore), IgnoredAfter(params, nonzeros, spm.dims, rows0, ignore0, cs), t, spm.rows);
      Encode(t);
    }

    /** The tables hold the gains of the types that are not ignored. */
    lemma StatsGain(before: set<nat>, rows: Rows)
      requires params.max >= 1 && (forall u: nat :: u in stats <==> Encodable(u) && u !in before && u < XFORM_MAX)
      requires forall u :: u in stats ==> stats[u] == TypeStats(params, nonzeros, spm.dims, u, rows)
      ensures forall u: nat :: u in stats <==> u in EncodableTypes() - before
      ensures forall u :: u in stats ==> Score(u) == Gain(params, nonzeros, spm.dims, u, rows)
    {
      hide TypeStats, Nnz, Patterns;
      forall u: nat
        ensures u in stats <==> u in EncodableTypes() - before
      {
        TypesAre(XFORM_MAX, u);
      }
    }

    lemma NothingGains(before: set<nat>, ignored: set<nat>, rows: Rows)
      requires params.max >= 1 && EncodableTypes() - before == EncodableTypes() - ignored
      requires forall u: nat :: u in stats <==> u in EncodableTypes() - before
      requires forall u :: u in stats ==> Score(u) == Gain(params, nonzeros, spm.dims, u, rows) && Score(u) == 0
      ensures NoGain(params, nonzeros, spm.dims, rows, ignored)
    {
      hide Gain, Score, EncodableTypes;
    }

    lemma BestIsPick(before: set<nat>, ignored: set<nat>, t: nat, rows: Rows)
      requires params.max >= 1 && EncodableTypes() - before == EncodableTypes() - ignored && IsBest(t) && t != 0
      requires forall u: nat :: u in stats <==> u in EncodableTypes() - before
      requires forall u :: u in stats ==> Score(u) == Gain(params, nonzeros, spm.dims, u, rows)
      requires t in stats ==> t in deltas && deltas[t] == DimsOf(TypeStats(params, nonzeros, spm.dims, t, rows))
      requires ConfigFor(t).order.Code() == t
      ensures Picks(params, nonzeros, spm.dims, rows, ignored, ConfigFor(t))
    {
      hide Gain, Score, EncodableTypes, TypeStats, DimsOf;
    }

    /** The types left are those the greedy run leaves. */
    lemma SameLeft(before: set<nat>, ignored: set<nat>, t: nat, rows: Rows)
      requires params.max >= 1 && EncodableTypes() - before == EncodableTypes() - ignored
      requires forall u: nat :: u in stats <==> u in EncodableTypes() - before
      requires forall u :: u in stats ==> Score(u) == Gain(params, nonzeros, spm.dims, u, rows)
      requires ignore == before + set u | u in stats && Score(u) == 0
      ensures EncodableTypes() - (ignore + {t})
           == EncodableTypes() - (ignored + (set u | u in EncodableTypes() - ignored
                                             && Gain(params, nonzeros, spm.dims, u, rows) == 0) + {t})
    {
      hide Gain, Score, EncodableTypes;
    }

    /** The chosen type is new, and what it will encode fits a pattern id. */
    lemma ChosenType(before: set<nat>, t: nat, rows: Rows)
      requires TablesOk() && Encoding.Valid(Horizontal, spm.dims, rows) && t in stats && Score(t) > 0 && params.Fits(t)
      requires ignore == before + set u | u in stats && Score(u) == 0
      requires params.max >= 1 && (forall u: nat :: u in stats <==> Encodable(u) && u !in before && u < XFORM_MAX)
      requires (forall u :: u in stats ==> stats[u] == TypeStats(params, nonzeros, spm.dims, u, rows))
      requires deltas.Keys == stats.Keys && forall u :: u in stats ==> deltas[u] == DimsOf(stats[u])
      ensures t in EncodableTypes() && Encodable(t) && t !in ignore && Chosen(ConfigFor(t))
           && ConfigFor(t).order.Code() == t
    {
      hide TypeStats, Encoding.Valid, Nnz, Patterns, Chosen, Each;
      TypeStatsOk(params, nonzeros, spm.dims, t, rows);
      ChosenDims(params, t, stats[t]);
      TypesAre(XFORM_MAX, t);
      CodeOf(t);
    }

    lemma AllIgnored(before: set<nat>, rows: Rows)
      requires TablesOk() && (forall u :: u in stats ==> Score(u) == 0)
      requires ignore == before + set u | u in stats && Score(u) == 0
      requires forall u: nat :: u in stats <==> Encodable(u) && u !in before && u < XFORM_MAX
      ensures forall t: nat :: 1 <= t < XFORM_MAX ==> t in ignore
    {
      hide Nnz, Patterns;
    }

    /** The deltas a user gives for each type can be printed. */
    ghost predicate InputsFit(xforms: seq<nat>, ds: seq<seq<nat>>) {
      |ds| == |xforms| && forall i :: 0 <= i < |ds| ==> Chosen(params.For(xforms[i], ds[i]))
    }

    /** Encodes to the given types with the given deltas, in order. */
    method EncodeSerial(xforms: seq<nat>, ds: seq<seq<nat>>) returns (ghost cs: seq<Config>)
      requires Valid() && |ds| == |xforms|
      requires forall i :: 0 <= i < |xforms| ==> xforms[i] == 0 || (Encodable(xforms[i]) && params.Fits(xforms[i]))
      requires forall i, j :: 0 <= i < |ds| && 0 <= j < |ds[i]| ==> ds[i][j] >= 1
      requires forall u :: u in stats ==> params.Fits(u)
      modifies this`ignore, this`deltas, spm
      ensures old(DeltasFit()) && InputsFit(xforms, ds) ==> forall i :: 0 <= i < |cs| ==> Chosen(cs[i])
      ensures forall i :: 0 <= i < |cs| ==> cs[i].max == params.max
      ensures Valid() && spm.order == old(spm.order) && GoodConfigs(cs)
      ensures spm.rows == EncodeMany(cs, spm.order, spm.dims, old(spm.rows))
      ensures exists best :: IsBest(best) && Serial(params, old(deltas), cs, xforms, ds, best)
    {
      hide Encoding.Valid, Spm.Valid, Encoding.Encode, EncodeMany, TablesOk, Chosen, DeltasFit, IsBest, Serial,
           ListedFor;
      cs := [];
      ghost var best := HasBest();
      SerialNone(params, deltas, best);
      NoneEncoded(spm.order, spm.dims, spm.rows);
      IgnoreAll();
      ghost var fit := DeltasFit() && InputsFit(xforms, ds);
      var i := 0;
      NoneListed();
      while i < |xforms|
        invariant 0 <= i <= |xforms| && IsBest(best) && Serial(params, old(deltas), cs, xforms[..i], ds[..i], best)
        invariant TableHolds(old(deltas), xforms[..i], ds[..i])
        invariant fit ==> DeltasFit() && forall k :: 0 <= k < |cs| ==> Chosen(cs[k])
        invariant forall k :: 0 <= k < |cs| ==> cs[k].max == params.max
        invariant Valid() && spm.order == old(spm.order) && GoodConfigs(cs)
        invariant spm.rows == EncodeMany(cs, spm.order, spm.dims, old(spm.rows))
      {
        ghost var before := deltas;
        ghost var more := EncodeGiven(xforms[i], ds[i], best);
        HoldsMore(old(deltas), before, xforms, ds, i);
        if more != [] {
          GivenIsListed(old(deltas), if xforms[i] == 0 then best else xforms[i], xforms[..i + 1], ds[..i + 1]);
        }
        SerialMore(params, old(deltas), cs, more, xforms, ds, best, i);
        ManyMore(cs, more, spm.order, spm.dims, old(spm.rows));
        cs := cs + more;
        i := i + 1;
      }
      assert xforms[..i] == xforms && ds[..i] == ds;
    }

    /** The deltas of every type are those of the table before and those listed. */
    ghost predicate TableHolds(table: map<nat, seq<nat>>, xforms: seq<nat>, ds: seq<seq<nat>>)
      requires |ds| == |xforms|
      reads this`deltas
    {
      forall t: nat, x: nat :: x in DeltasOf(t) <==> x in TableDeltas(table, t) || ListedFor(xforms, ds, t, x)
    }

    lemma NoneListed()
      ensures TableHolds(deltas, [], [])
    {
    }

    lemma HoldsMore(table: map<nat, seq<nat>>, before: map<nat, seq<nat>>, xforms: seq<nat>, ds: seq<seq<nat>>, i: nat)
      requires |ds| == |xforms| && i < |xforms|
      requires forall t: nat, x: nat ::
                 x in TableDeltas(before, t) <==> x in TableDeltas(table, t) || ListedFor(xforms[..i], ds[..i], t, x)
      requires forall x :: x in DeltasOf(xforms[i]) <==> x in TableDeltas(before, xforms[i]) || x in ds[i]
      requires forall u: nat :: u != xforms[i] ==> DeltasOf(u) == TableDeltas(before, u)
      ensures TableHolds(table, xforms[..i + 1], ds[..i + 1])
    {
      hide ListedFor;
      forall t: nat, x: nat
        ensures x in DeltasOf(t) <==> x in TableDeltas(table, t) || ListedFor(xforms[..i + 1], ds[..i + 1], t, x)
      {
        ListedMore(xforms, ds, i, t, x);
        if t != xforms[i] {
          assert DeltasOf(t) == TableDeltas(before, t);
        }
      }
    }

    lemma GivenIsListed(table: map<nat, seq<nat>>, u: nat, xforms: seq<nat>, ds: seq<seq<nat>>)
      requires |ds| == |xforms| && TableHolds(table, xforms, ds) && TablesOk()
      ensures Listed(params, ConfigFor(u), u, TableDeltas(table, u), xforms, ds)
    {
      hide ListedFor;
    }

    /** Encodes to one type, with more deltas. */
    method EncodeGiven(t: nat, ds: seq<nat>, ghost best: nat) returns (ghost cs: seq<Config>)
      requires Valid() && (t != 0 ==> Encodable(t) && params.Fits(t)) && forall u :: u in stats ==> params.Fits(u)
      requires IsBest(best) && forall j :: 0 <= j < |ds| ==> ds[j] >= 1
      modifies this`ignore, this`deltas, spm
      ensures Valid() && spm.order == old(spm.order) && GoodConfigs(cs)
      ensures spm.rows == EncodeMany(cs, spm.order, spm.dims, old(spm.rows))
      ensures old(DeltasFit()) && Chosen(params.For(t, ds)) ==> DeltasFit() && forall i :: 0 <= i < |cs| ==> Chosen(cs[i])
      ensures forall i :: 0 <= i < |cs| ==> cs[i].max == params.max
      ensures var u := if t == 0 then best else t;
              cs == if u == 0 then [] else [ConfigFor(u)]
      ensures forall x :: x in DeltasOf(t) <==> x in old(DeltasOf(t)) || x in ds
      ensures forall u: nat :: u != t ==> DeltasOf(u) == old(DeltasOf(u))
    {
      hide Encoding.Valid, Spm.Valid, Encoding.Encode, EncodeMany, TablesOk, Chosen, DeltasFit, IsBest, OfCode,
           Encodable;
      AllowDeltas(t, ds);
      cs := EncodeType(t);
      assert IsBest(best);
      KeepIgnored(t);
    }

    method KeepIgnored(t: nat)
      requires TablesOk()
      modifies this`ignore
      ensures TablesOk() && ignore == old(ignore) + {t}
    {
      AddIgnore(t);
    }

    /** Lets a type be encoded and adds deltas to its set. */
    method AllowDeltas(t: nat, ds: seq<nat>)
      requires TablesOk() && forall j :: 0 <= j < |ds| ==> ds[j] >= 1
      modifies this`ignore, this`deltas
      ensures TablesOk() && forall x :: x in DeltasOf(t) <==> x in old(DeltasOf(t)) || x in ds
      ensures forall u: nat :: u != t ==> DeltasOf(u) == old(DeltasOf(u))
      ensures old(DeltasFit()) && Chosen(params.For(t, ds)) ==> DeltasFit()
    {
      hide TablesOk, Chosen, Params.AlwaysIgnored;
      RemoveIgnore(t);
      var j := 0;
      while j < |ds|
        invariant 0 <= j <= |ds|
        invariant TablesOk() && forall u: nat :: u != t ==> DeltasOf(u) == old(DeltasOf(u))
        invariant forall x :: x in DeltasOf(t) <==> x in old(DeltasOf(t)) || x in ds[..j]
      {
        AllowDelta(t, ds[j]);
        j := j + 1;
      }
      assert ds[..j] == ds;
      if old(DeltasFit()) && Chosen(params.For(t, ds)) {
        assert Chosen(old(ConfigFor(t)));
        BothChosen(params, t, old(DeltasOf(t)), ds, DeltasOf(t));
        forall u: nat
          ensures Chosen(ConfigFor(u))
        {
          if u != t {
            assert Chosen(old(ConfigFor(u)));
          }
        }
      }
    }

    method AllowDelta(t: nat, x: nat)
      requires TablesOk() && x >= 1
      modifies this`deltas
      ensures TablesOk() && forall y :: y in DeltasOf(t) <==> y in old(DeltasOf(t)) || y == x
      ensures forall u: nat :: u != t ==> DeltasOf(u) == old(DeltasOf(u))
    {
      hide Insert, Ordered, Encodable, StatsTable;
      NoDeltasOrdered();
      InsertMembers(DeltasOf(t), x);
      InsertOrdered(DeltasOf(t), x);
      var more := Insert(DeltasOf(t), x);
      forall i | 0 <= i < |more|
        ensures more[i] >= 1
      {
        assert more[i] in more;
      }
      DeltaTableMore(deltas, t, more);
      deltas := deltas[t := more];
    }
  }

  lemma NoDeltasOrdered()
    ensures Ordered([])
  {
  }

  ghost predicate GoodConfigs(cs: seq<Config>) {
    forall i :: 0 <= i < |cs| ==> cs[i].Good()
  }

  ghost predicate Distinct(cs: seq<Config>) {
    forall i, j :: 0 <= i < j < |cs| ==> cs[i].order != cs[j].order
  }

  /** Deltas that fit a pattern id, and blocks to be split that fit the size limit. */
  predicate Chosen(c: Config) {
    forall i :: 0 <= i < |c.deltas| ==>
      c.deltas[i] < 10000 && (c.splitBlocks && c.order.Align() != 0 ==> Times(c.deltas[i], c.order.Align()) <= c.max)
  }

  lemma BothChosen(p: Params, t: nat, a: seq<nat>, b: seq<nat>, all: seq<nat>)
    requires Chosen(p.For(t, a)) && Chosen(p.For(t, b)) && forall x :: x in all ==> x in a || x in b
    ensures Chosen(p.For(t, all))
  {
    hide Times;
    forall i | 0 <= i < |all|
      ensures all[i] < 10000 && (p.splitBlocks && OfCode(t).Align() != 0 ==> Times(all[i], OfCode(t).Align()) <= p.max)
    {
      if all[i] in a {
        var j :| 0 <= j < |a| && a[j] == all[i];
        assert p.For(t, a).deltas[j] < 10000;
      } else {
        var j :| 0 <= j < |b| && b[j] == all[i];
        assert p.For(t, b).deltas[j] < 10000;
      }
    }
  }

  lemma ChosenDims(p: Params, t: nat, s: Stats)
    requires p.Fits(t) && forall i :: 0 <= i < |s| ==> s[i].dim < 10000
    requires p.splitBlocks && 1 <= OfCode(t).Align() <= p.max ==> Each(s, InLimit(OfCode(t).Align(), p.max))
    ensures Chosen(p.For(t, DimsOf(s)))
  {
    hide Times, Each;
    forall i | 0 <= i < |s|
      ensures p.splitBlocks && OfCode(t).Align() != 0 ==> Times(s[i].dim, OfCode(t).Align()) <= p.max
    {
      if p.splitBlocks && OfCode(t).Align() != 0 {
        EachAt(s, InLimit(OfCode(t).Align(), p.max), i);
      }
    }
  }

  lemma NoneEncoded(o: Order, d: Dims, rows: Rows)
    ensures EncodeMany([], o, d, rows) == rows && Distinct([])
  {
  }

  lemma OneMore(cs: seq<Config>, c: Config, o: Order, d: Dims, rows: Rows)
    requires GoodConfigs(cs) && c.Good()
    ensures EncodeMany(cs + [c], o, d, rows) == Encode(c, o, d, EncodeMany(cs, o, d, rows))
  {
    hide Encode;
    Snoc(cs, c);
  }

  lemma ManyMore(cs: seq<Config>, more: seq<Config>, o: Order, d: Dims, rows: Rows)
    requires GoodConfigs(cs) && GoodConfigs(more) && |more| <= 1
    ensures EncodeMany(cs + more, o, d, rows) == EncodeMany(more, o, d, EncodeMany(cs, o, d, rows))
  {
    hide Encode;
    if more == [] {
      NilRight(cs);
    } else {
      assert more == [more[0]];
      OneMore(cs, more[0], o, d, rows);
    }
  }

  lemma OneMoreDistinct(cs: seq<Config>, c: Config)
    requires Distinct(cs) && forall i :: 0 <= i < |cs| ==> cs[i].order.Code() != c.order.Code()
    ensures Distinct(cs + [c])
  {
  }

  lemma CodeOf(t: nat)
    requires Encodable(t)
    ensures OfCode(t).Code() == t
  {
  }

  /** At most 20 types can be encoded. */
  lemma TypesBound(ignore: set<nat>)
    ensures |EncodableTypes() - ignore| <= 20
  {
    hide TypesBelow, TypeCount;
    SubsetSize(EncodableTypes() - ignore, EncodableTypes());
    TypesCounted(XFORM_MAX);
    TwentyTypes();
  }

  lemma TwentyTypes()
    ensures TypeCount(XFORM_MAX) == 20
  {
    assert TypeCount(8) == 6;
    assert TypeCount(16) == 13;
  }

  lemma {:induction false} TypesCounted(n: nat)
    ensures |TypesBelow(n)| <= TypeCount(n)
  {
    hide Encodable;
    if n > 0 {
      TypesCounted(n - 1);
    }
  }

  lemma {:induction false} TypesAre(n: nat, t: nat)
    ensures t in TypesBelow(n) <==> Encodable(t) && t < n
  {
    hide Encodable;
    if n > 0 {
      TypesAre(n - 1, t);
    }
  }

  lemma {:induction false} SubsetSize<T>(a: set<T>, b: set<T>)
    requires a <= b
    ensures |a| <= |b|
  {
    if a != {} {
      var x :| x in a;
      SubsetSize(a - {x}, b - {x});
    }
  }

  lemma Fewer(a: set<nat>, b: set<nat>, x: nat)
    requires b <= a && x in a && x !in b
    ensures |b| + 1 <= |a|
  {
    SubsetSize(b, a - {x});
  }

  lemma EncodeIs(c: Config, from: Order, d: Dims, rows: Rows)
    requires c.Good()
    ensures Encode(c, from, d, rows)
         == Reorder.Transformed(c.order, from, d, EncodedRows(c, Reorder.Transformed(from, c.order, d, rows)))
  {
  }

  lemma GoodWhenValid(o: Order, d: Dims, rows: Rows)
    requires Valid(o, d, rows)
    ensures Reorder.Good(o, d, rows)
  {
  }

  lemma PrefixSorted(row: seq<Elem>, j: nat)
    requires RowSorted(row) && PositiveXs(row) && j <= |row|
    ensures RowSorted(row[..j]) && PositiveXs(row[..j])
  {
  }
}

/** Which units the printer makes of the elements of a row.

    `HeadsAre` says what the units spell and where a stretch of single elements may be
    cut; `OneCut` says that there is only one such list of units. */
module PrintedUnits {
  import opened Matrix
  import opened Seqs
  import opened RowCodec
  import opened Ctl
  import opened CsxPrinter

  /** A single element, by its column, or a pattern. */
  datatype Item = Column(x: int) | Pattern(p: Matrix.Pattern)

  function ItemOf(e: Elem): Item {
    if e.Single? then Column(e.x) else Pattern(e.p)
  }

  function Items(es: seq<Elem>): (r: seq<Item>)
    ensures |r| == |es| && forall i {:trigger r[i]} :: 0 <= i < |es| ==> r[i] == ItemOf(es[i])
  {
    seq(|es|, i requires 0 <= i < |es| => ItemOf(es[i]))
  }

  function Columns(xs: seq<int>): (r: seq<Item>)
    ensures |r| == |xs| && forall i {:trigger r[i]} :: 0 <= i < |xs| ==> r[i] == Column(xs[i])
  {
    seq(|xs|, i requires 0 <= i < |xs| => Column(xs[i]))
  }

  function HeadItems(h: Head): seq<Item> {
    if h.Plain? then Columns(h.xs) else [Pattern(h.p)]
  }

  /** What a list of units spells. */
  function Spelled(hs: seq<Head>): seq<Item>
    decreases |hs|
  {
    if hs == [] then [] else HeadItems(hs[0]) + Spelled(hs[1..])
  }

  /** Units of single elements have 1 to 255 of them, and fewer than 255 only before a
      pattern or at the end. */
  ghost predicate WellCut(hs: seq<Head>)
    decreases |hs|
  {
    hs != [] ==>
      && WellCut(hs[1..])
      && (hs[0].Plain? ==> 1 <= |hs[0].xs| <= SIZE_MAX && (|hs[0].xs| < SIZE_MAX && |hs| > 1 ==> hs[1].Shaped?))
  }

  /** The units spell the elements in order, and are cut as late as possible. */
  lemma {:induction false} HeadsAre(es: seq<Elem>, xs: seq<int>)
    requires |xs| <= SIZE_MAX
    ensures Spelled(SpanHeads(es, xs)) == Columns(xs) + Items(es) && WellCut(SpanHeads(es, xs))
    ensures es == [] && xs == [] <==> SpanHeads(es, xs) == []
    ensures xs != [] ==> SpanHeads(es, xs)[0].Plain?
    ensures xs == [] && es != [] && es[0].Pat? ==> SpanHeads(es, xs)[0].Shaped?
    decreases |es|, |xs|
  {
    hide *;
    NoItems();
    if xs != [] && (es == [] || es[0].Pat? || |xs| == SIZE_MAX) {
      HeadsAre(es, []);
      HeadsFlush(es, xs);
      FirstHead(Plain(xs), SpanHeads(es, []));
    } else if es == [] {
      NoHeads();
    } else {
      ItemsFirst(es);
      HeadsStep(es, xs);
      if es[0].Pat? {
        HeadsAre(es[1..], []);
        FirstHead(Shaped(es[0].p), SpanHeads(es[1..], []));
        NilLeft(Items(es[1..]));
        NilLeft(Items(es));
      } else {
        HeadsAre(es[1..], xs + [es[0].x]);
        assert Columns(xs + [es[0].x]) == Columns(xs) + [Column(es[0].x)];
        Assoc(Columns(xs), [Column(es[0].x)], Items(es[1..]));
      }
    }
  }

  lemma NoHeads()
    ensures SpanHeads([], []) == []
  {
  }

  lemma HeadsStep(es: seq<Elem>, xs: seq<int>)
    requires es != [] && |xs| < SIZE_MAX
    ensures es[0].Pat? && xs == [] ==> SpanHeads(es, xs) == [Shaped(es[0].p)] + SpanHeads(es[1..], [])
    ensures es[0].Single? ==> SpanHeads(es, xs) == SpanHeads(es[1..], xs + [es[0].x])
  {
    if es[0].Pat? {
      NilLeft([Shaped(es[0].p)]);
    }
  }

  lemma NoItems()
    ensures Items([]) == [] && Columns([]) == [] && Spelled([]) == [] && WellCut([]) && SIZE_MAX >= 1
  {
  }

  lemma ItemsFirst(es: seq<Elem>)
    requires es != []
    ensures Items(es) == [ItemOf(es[0])] + Items(es[1..])
    ensures ItemOf(es[0]) == if es[0].Single? then Column(es[0].x) else Pattern(es[0].p)
    ensures Columns([es[0].x]) == [Column(es[0].x)] && Columns([]) == []
  {
  }

  lemma FirstHead(h: Head, hs: seq<Head>)
    ensures Spelled([h] + hs) == HeadItems(h) + Spelled(hs) && HeadItems(h) == if h.Plain? then Columns(h.xs) else [Pattern(h.p)]
    ensures WellCut([h] + hs) <==>
              WellCut(hs) && (h.Plain? ==> 1 <= |h.xs| <= SIZE_MAX && (|h.xs| < SIZE_MAX && hs != [] ==> hs[0].Shaped?))
  {
    assert ([h] + hs)[1..] == hs;
  }

  /** A list of units that is cut this way is determined by what it spells. */
  lemma {:induction false} OneCut(a: seq<Head>, b: seq<Head>)
    requires WellCut(a) && WellCut(b) && Spelled(a) == Spelled(b)
    ensures a == b
    decreases |a|
  {
    hide WellCut, Spelled;
    CutParts(a);
    CutParts(b);
    if a != [] && b != [] {
      if a[0].Plain? && b[0].Plain? {
        SameLength(a, b);
        SameLength(b, a);
        assert a[0].xs == b[0].xs by {
          forall i | 0 <= i < |a[0].xs|
            ensures a[0].xs[i] == b[0].xs[i]
          {
            assert Spelled(a)[i] == Column(a[0].xs[i]) && Spelled(b)[i] == Column(b[0].xs[i]);
          }
        }
      }
      var n := |HeadItems(a[0])|;
      assert Spelled(a)[n..] == Spelled(a[1..]) && Spelled(b)[n..] == Spelled(b[1..]);
      OneCut(a[1..], b[1..]);
      assert a == [a[0]] + a[1..] && b == [b[0]] + b[1..];
    }
  }

  lemma CutParts(a: seq<Head>)
    requires WellCut(a)
    ensures a == [] <==> Spelled(a) == []
    ensures a != [] ==>
              && WellCut(a[1..]) && Spelled(a) == HeadItems(a[0]) + Spelled(a[1..]) && Spelled(a) != []
              && (Spelled(a)[0].Column? <==> a[0].Plain?)
              && (a[0].Shaped? ==> Spelled(a)[0] == Pattern(a[0].p))
              && (a[0].Plain? ==> 1 <= |a[0].xs| <= SIZE_MAX && (|a[0].xs| < SIZE_MAX && |a| > 1 ==> a[1].Shaped?))
  {
  }

  /** The first unit of b is not longer than that of a. */
  lemma SameLength(a: seq<Head>, b: seq<Head>)
    requires WellCut(a) && WellCut(b) && Spelled(a) == Spelled(b) && a != [] && b != [] && a[0].Plain? && b[0].Plain?
    ensures |b[0].xs| <= |a[0].xs|
  {
    hide WellCut, Spelled;
    CutParts(a);
    CutParts(b);
    CutParts(a[1..]);
    var n := |a[0].xs|;
    assert |Spelled(a)| > n ==> Spelled(a)[n] == Spelled(a[1..])[0];
  }

  lemma {:induction false} SpelledConcat(a: seq<Head>, b: seq<Head>)
    ensures Spelled(a + b) == Spelled(a) + Spelled(b)
    decreases |a|
  {
    if a == [] {
      NilLeft(b);
      NilLeft(Spelled(b));
    } else {
      assert (a + b)[1..] == a[1..] + b;
      SpelledConcat(a[1..], b);
      Assoc(HeadItems(a[0]), Spelled(a[1..]), Spelled(b));
    }
  }

  /** The units of a row spell the row, and are cut as late as possible on either side of
      the column where a part of a symmetric matrix begins. */
  lemma RowHeadsAre(row: seq<Elem>, side: nat)
    ensures Spelled(RowHeads(row, side)) == Items(row)
    ensures var s := LeftOf(row, side);
            && RowHeads(row, side) == SpanHeads(row[..s], []) + SpanHeads(row[s..], [])
            && WellCut(SpanHeads(row[..s], [])) && WellCut(SpanHeads(row[s..], []))
            && Spelled(SpanHeads(row[..s], [])) == Items(row[..s])
                 && Spelled(SpanHeads(row[s..], [])) == Items(row[s..])
  {
    hide SpanHeads, Spelled, WellCut;
    var s := LeftOf(row, side);
    HeadsAre(row[..s], []);
    HeadsAre(row[s..], []);
    NilLeft(Items(row[..s]));
    NilLeft(Items(row[s..]));
    assert Columns([]) == [];
    SpelledConcat(SpanHeads(row[..s], []), SpanHeads(row[s..], []));
    assert Items(row[..s]) + Items(row[s..]) == Items(row);
  }
}

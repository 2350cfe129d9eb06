/** Encoding and decoding whole rows and whole matrices.

    `EncodeKeepsMeaning` is the encoder's correctness: whatever patterns the
    matrix holds already, encoding to one more order changes no cell and keeps
    the invariants `Good` and `Tight`.  `DecodeUndoesEncode` is the inverse. */
module MatrixCodec {
  import opened Orders
  import opened Matrix
  import opened Products
  import opened Seqs
  import opened RowCodec
  import opened RowShape

  // ----- Rows

  function Xs(es: seq<Elem>): (r: seq<int>)
    ensures |r| == |es| && forall i {:trigger r[i]} :: 0 <= i < |es| ==> r[i] == es[i].x
  {
    seq(|es|, i requires 0 <= i < |es| => es[i].x)
  }

  function Vs(es: seq<Elem>): (r: seq<real>)
    ensures |r| == |es| && forall i {:trigger r[i]} :: 0 <= i < |es| && es[i].Single? ==> r[i] == es[i].val
  {
    seq(|es|, i requires 0 <= i < |es| => if es[i].Single? then es[i].val else 0.0)
  }

  /** A stretch of single elements, encoded; nothing for an empty stretch. */
  function EncodedStretch(c: Config, pending: seq<Elem>): seq<Elem>
    requires c.Good()
  {
    if pending == [] then [] else Encoded(c, Xs(pending), Vs(pending))
  }

  datatype Acc = Acc(out: seq<Elem>, pending: seq<Elem>)

  /** Output and pending stretch after a prefix of the row: singles are gathered
      until a pattern is met. */
  function Scan(c: Config, row: seq<Elem>): Acc
    requires c.Good()
  {
    if row == [] then Acc([], [])
    else
      var a, e := Scan(c, row[..|row| - 1]), row[|row| - 1];
      if e.Single? then Acc(a.out, a.pending + [e])
      else Acc(a.out + EncodedStretch(c, a.pending) + [e], [])
  }

  function EncodedRow(c: Config, row: seq<Elem>): seq<Elem>
    requires c.Good()
  {
    var a := Scan(c, row);
    a.out + EncodedStretch(c, a.pending)
  }

  ghost predicate RowSorted(row: seq<Elem>) {
    forall i, j :: 0 <= i < j < |row| ==> row[i].x < row[j].x
  }

  ghost predicate PositiveXs(row: seq<Elem>) {
    forall i :: 0 <= i < |row| ==> row[i].x >= 1
  }

  ghost predicate AllSingle(es: seq<Elem>) {
    forall i :: 0 <= i < |es| ==> es[i].Single?
  }

  /** row[l..r] are single elements between two patterns or ends of the row. */
  ghost predicate StretchOf(row: seq<Elem>, l: nat, r: nat) {
    && l < r <= |row| && AllSingle(row[l..r])
    && (l > 0 ==> row[l - 1].Pat?) && (r < |row| ==> row[r].Pat?)
  }

  lemma StretchExpand(c: Config, pending: seq<Elem>)
    requires c.Good() && AllSingle(pending) && RowSorted(pending) && PositiveXs(pending)
    ensures Expand(c.order, EncodedStretch(c, pending)) == pending
    ensures AllGood(c, EncodedStretch(c, pending))
  {
    hide Encoded, Xs, Vs, GoodOut;
    if pending != [] {
      EncodedRoundTrip(c, Xs(pending), Vs(pending));
      EncodedGood(c, Xs(pending), Vs(pending));
    }
  }

  lemma {:induction false} ScanSuffix(c: Config, row: seq<Elem>)
    requires c.Good()
    ensures var p := Scan(c, row).pending;
            |p| <= |row| && p == row[|row| - |p|..] && AllSingle(p)
  {
    hide Scan;
    PendingStep(c, row);
    if row != [] {
      var n := |row| - 1;
      ScanSuffix(c, row[..n]);
      var p := Scan(c, row[..n]).pending;
      assert row[..n][n - |p|..] + [row[n]] == row[n - |p|..];
    }
  }

  lemma PendingStep(c: Config, row: seq<Elem>)
    requires c.Good()
    ensures Scan(c, row).pending == if row != [] && row[|row| - 1].Single? then Scan(c, row[..|row| - 1]).pending + [row[|row| - 1]] else []
  {
    hide EncodedStretch;
  }

  lemma ScanPending(c: Config, row: seq<Elem>)
    requires c.Good() && RowSorted(row) && PositiveXs(row)
    ensures var p := Scan(c, row).pending;
            && |p| <= |row|
            && p == row[|row| - |p|..]
            && AllSingle(p) && RowSorted(p) && PositiveXs(p)
  {
    hide Scan;
    ScanSuffix(c, row);
  }

  /** Opening what a scan has produced, followed by what it still holds, gives
      the opened prefix of the row. */
  lemma {:induction false} ScanExpand(c: Config, row: seq<Elem>)
    requires c.Good() && RowSorted(row) && PositiveXs(row)
    ensures Expand(c.order, Scan(c, row).out) + Scan(c, row).pending == Expand(c.order, row)
  {
    hide EncodedStretch, Opened;
    if row != [] {
      var n, o := |row| - 1, c.order;
      var a, e := Scan(c, row[..n]), row[n];
      ScanExpand(c, row[..n]);
      ScanPending(c, row[..n]);
      if e.Single? {
        OpenedSingle(o, e);
        Assoc(Expand(o, a.out), a.pending, [e]);
      } else {
        var enc := EncodedStretch(c, a.pending);
        calc {
          Expand(o, a.out + enc + [e]) + [];
          { NilRight(Expand(o, a.out + enc + [e])); }
          Expand(o, a.out + enc + [e]);
          { ExpandConcat(o, a.out + enc, [e]); ExpandOne(o, e); }
          Expand(o, a.out + enc) + Opened(o, e);
          { ExpandConcat(o, a.out, enc); StretchExpand(c, a.pending); }
          Expand(o, a.out) + a.pending + Opened(o, e);
        }
      }
    }
  }

  /** Opening an encoded row gives the same as opening the row. */
  lemma EncodedRowExpand(c: Config, row: seq<Elem>)
    requires c.Good() && RowSorted(row) && PositiveXs(row)
    ensures Expand(c.order, EncodedRow(c, row)) == Expand(c.order, row)
  {
    hide EncodedStretch, Expand, Scan;
    var a := Scan(c, row);
    ScanPending(c, row);
    ScanExpand(c, row);
    StretchExpand(c, a.pending);
    ExpandConcat(c.order, a.out, EncodedStretch(c, a.pending));
  }

  /** An element of the output is an element of the row, or a new pattern made of
      single elements of the row. */
  ghost predicate FromRow(c: Config, row: seq<Elem>, e: Elem) {
    || e in row
    || (e.Pat? && GoodOut(c, e) && forall s :: s in Opened(c.order, e) ==> s.Single? && s in row)
  }

  lemma {:induction false} OpenedInExpand(o: Order, es: seq<Elem>, i: nat)
    requires i < |es|
    ensures forall s :: s in Opened(o, es[i]) ==> s in Expand(o, es)
  {
    hide Opened;
    var n := |es| - 1;
    if i < n {
      OpenedInExpand(o, es[..n], i);
    }
  }

  lemma StretchFrom(c: Config, pending: seq<Elem>, row: seq<Elem>)
    requires c.Good() && AllSingle(pending) && RowSorted(pending) && PositiveXs(pending)
    requires forall e :: e in pending ==> e in row
    ensures forall e :: e in EncodedStretch(c, pending) ==> FromRow(c, row, e)
  {
    hide EncodedStretch, GoodOut, Expand;
    var enc := EncodedStretch(c, pending);
    StretchExpand(c, pending);
    forall i | 0 <= i < |enc|
      ensures FromRow(c, row, enc[i])
    {
      OpenedInExpand(c.order, enc, i);
      if enc[i].Single? {
        OpenedSingle(c.order, enc[i]);
        assert enc[i] in Opened(c.order, enc[i]);
      } else {
        forall s | s in Opened(c.order, enc[i])
          ensures s.Single? && s in row
        {
          assert s in pending;
        }
      }
    }
  }

  lemma FromLonger(c: Config, row: seq<Elem>, more: seq<Elem>, e: Elem)
    requires FromRow(c, row, e) && forall x :: x in row ==> x in more
    ensures FromRow(c, more, e)
  {
    hide GoodOut, Opened;
  }

  lemma {:induction false} ScanFrom(c: Config, row: seq<Elem>)
    requires c.Good() && RowSorted(row) && PositiveXs(row)
    ensures forall e :: e in Scan(c, row).out ==> FromRow(c, row, e)
  {
    hide EncodedStretch, FromRow;
    if row != [] {
      var n := |row| - 1;
      var a := Scan(c, row[..n]);
      ScanFrom(c, row[..n]);
      ScanPending(c, row[..n]);
      StretchFrom(c, a.pending, row[..n]);
      forall e | e in Scan(c, row).out
        ensures FromRow(c, row, e)
      {
        if e in a.out || e in EncodedStretch(c, a.pending) {
          FromLonger(c, row[..n], row, e);
        } else {
          KeptElem(c, row, e);
        }
      }
    }
  }

  lemma KeptElem(c: Config, row: seq<Elem>, e: Elem)
    requires e in row
    ensures FromRow(c, row, e)
  {
  }

  lemma EncodedRowFrom(c: Config, row: seq<Elem>)
    requires c.Good() && RowSorted(row) && PositiveXs(row)
    ensures forall e :: e in EncodedRow(c, row) ==> FromRow(c, row, e)
  {
    hide EncodedStretch, FromRow, Scan;
    ScanFrom(c, row);
    ScanPending(c, row);
    StretchFrom(c, Scan(c, row).pending, row);
  }

  // ----- Tight rows

  /** The last column an element covers in its row of order `o`. */
  function LastX(o: Order, e: Elem): int {
    if e.Pat? && e.p.order == o then e.x + Times(e.p.Step(), |e.vals| - 1) else e.x
  }

  /** Every element ends before the next one starts. */
  ghost predicate RowTight(o: Order, row: seq<Elem>) {
    forall i, j :: 0 <= i < j < |row| ==> LastX(o, row[i]) < row[j].x
  }

  ghost predicate WellSized(row: seq<Elem>) {
    forall i :: 0 <= i < |row| && row[i].Pat? ==> |row[i].vals| >= 1 && row[i].p.Step() >= 1
  }

  lemma {:induction false} SinglesSpan(start: int, step: int, vs: seq<real>)
    requires vs != [] && step >= 1
    ensures var s := Singles(start, step, vs);
            && s[0] == Single(start, vs[0])
            && s[|vs| - 1].x == start + Times(step, |vs| - 1)
            && RowSorted(s)
    decreases |vs|
  {
    if |vs| > 1 {
      SinglesSpan(start + step, step, vs[1..]);
      StepOnce(start, step, |vs| - 1);
    } else {
      assert Times(step, 0) == 0;
    }
  }

  /** First and last of an opened element. */
  lemma OpenedSpan(o: Order, e: Elem)
    requires e.Pat? ==> |e.vals| >= 1 && e.p.Step() >= 1
    ensures var s := Opened(o, e);
            s != [] && s[0].x == e.x && s[|s| - 1].x == LastX(o, e) && RowSorted(s)
    ensures e.x <= LastX(o, e)
  {
    hide Singles, Times;
    if e.Pat? && e.p.order == o {
      SinglesSpan(e.x, e.p.Step(), e.vals);
    }
  }

  /** The last column of an opened row. */
  lemma {:induction false} ExpandLast(o: Order, row: seq<Elem>)
    requires row != [] && WellSized(row)
    ensures Expand(o, row) != [] && Expand(o, row)[|Expand(o, row)| - 1].x == LastX(o, row[|row| - 1])
  {
    hide Opened, LastX;
    OpenedSpan(o, row[|row| - 1]);
  }

  /** A row is tight exactly when opening it gives strictly increasing columns. */
  lemma {:induction false} TightOpens(o: Order, row: seq<Elem>)
    requires WellSized(row)
    ensures RowTight(o, row) <==> RowSorted(Expand(o, row))
  {
    hide Opened, LastX;
    if row != [] {
      var n := |row| - 1;
      var init, s := Expand(o, row[..n]), Opened(o, row[n]);
      TightOpens(o, row[..n]);
      OpenedSpan(o, row[n]);
      if n > 0 {
        ExpandLast(o, row[..n]);
        TightSnoc(o, row);
        SortedJoin(init, s);
      } else {
        assert row[..n] == [];
        NilLeft(s);
        assert Expand(o, row) == s;
      }
    }
  }

  lemma SortedJoin(a: seq<Elem>, b: seq<Elem>)
    requires a != [] && b != [] && RowSorted(b)
    ensures RowSorted(a + b) <==> RowSorted(a) && a[|a| - 1].x < b[0].x
  {
    var s := a + b;
    if RowSorted(a) && a[|a| - 1].x < b[0].x {
      forall i, j | 0 <= i < j < |s|
        ensures s[i].x < s[j].x
      {
        if i < |a| <= j {
          assert s[i].x <= a[|a| - 1].x;
          assert b[0].x <= s[j].x;
        }
      }
    }
    if RowSorted(s) {
      assert forall i :: 0 <= i < |a| ==> s[i] == a[i];
      assert s[|a| - 1].x < s[|a|].x;
    }
  }

  lemma TightSnoc(o: Order, row: seq<Elem>)
    requires |row| > 1 && WellSized(row)
    ensures RowTight(o, row) <==> RowTight(o, row[..|row| - 1]) && LastX(o, row[|row| - 2]) < row[|row| - 1].x
  {
    var n := |row| - 1;
    if RowTight(o, row[..n]) && LastX(o, row[n - 1]) < row[n].x {
      forall i, j | 0 <= i < j < |row|
        ensures LastX(o, row[i]) < row[j].x
      {
        if j < n {
          assert row[..n][i] == row[i] && row[..n][j] == row[j];
        } else if i < n - 1 {
          assert LastX(o, row[..n][i]) < row[..n][n - 1].x;
          OpenedSpan(o, row[n - 1]);
        }
      }
    }
  }

  lemma TightSorted(o: Order, row: seq<Elem>)
    requires WellSized(row) && RowTight(o, row)
    ensures RowSorted(row)
  {
    hide LastX;
    forall i, j | 0 <= i < j < |row|
      ensures row[i].x < row[j].x
    {
      OpenedSpan(o, row[i]);
    }
  }
}

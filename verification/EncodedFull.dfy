/** What a whole encoded matrix leaves single.

    `NoneLeft` is stated for any kind of forbidden window, so that the laws about one
    stretch, of linear runs and of blocks, reach rows, matrices, and the matrix after it
    has been brought to another order, encoded there and brought back. */
module EncodedFull {
  import opened Orders
  import opened Matrix
  import opened Products
  import opened Seqs
  import Reorder
  import opened RowCodec
  import opened MatrixCodec
  import opened Encoding
  import opened BlockColumns
  import opened RowFull
  import opened BlockFull

  /** Which single elements must not be left: by their first column, their number and
      their common step. */
  type Window = (int, nat, int) -> bool

  ghost predicate NoneLeft(bad: Window, out: seq<Elem>) {
    forall i: nat, n: nat, d: int {:trigger StepSingles(out, i, n, d)} ::
      i < |out| && n >= 1 && bad(out[i].x, n, d) ==> !StepSingles(out, i, n, d)
  }

  /** `min` elements with a listed step. */
  function LongRun(c: Config): Window {
    (x: int, n: nat, d: int) => n == c.min && d >= 0 && d in c.deltas
  }

  /** A listed block of two block columns or more. */
  function ListedBlock(c: Config): Window {
    (x: int, n: nat, d: int) =>
      c.order.Align() != 0 && d == 1 && (x - 1) % c.order.Align() == 0 && n % c.order.Align() == 0
      && n / c.order.Align() >= 2 && n / c.order.Align() in c.deltas
  }

  /** What the encoder must not leave, where its settings promise it. */
  function Promised(c: Config): Window {
    (x: int, n: nat, d: int) =>
      if c.order.Align() != 0 then c.splitBlocks && ListedBlock(c)(x, n, d)
      else !c.numa && c.min >= 3 && LongRun(c)(x, n, d)
  }

  lemma StretchNone(c: Config, pending: seq<Elem>)
    requires c.Good() && AllSingle(pending) && RowSorted(pending) && PositiveXs(pending)
    ensures NoneLeft(Promised(c), EncodedStretch(c, pending))
  {
    hide Encoded, StepSingles;
    var out := EncodedStretch(c, pending);
    forall i: nat, n: nat, d: int {:trigger StepSingles(out, i, n, d)} | i < |out| && n >= 1 && Promised(c)(out[i].x, n, d)
      ensures !StepSingles(out, i, n, d)
    {
      PromisedIs(c, out[i].x, n, d);
      var xs, vs := Xs(pending), Vs(pending);
      if c.order.Align() != 0 {
        EncodedNoBlockLeft(c, xs, vs);
        WholeWidth(n, c.order.Align());
      } else {
        EncodedLinearFull(c, xs, vs);
      }
    }
  }

  lemma PromisedIs(c: Config, x: int, n: nat, d: int)
    ensures Promised(c)(x, n, d) <==>
              if c.order.Align() != 0 then
                && c.splitBlocks && d == 1 && (x - 1) % c.order.Align() == 0 && n % c.order.Align() == 0
                && n / c.order.Align() >= 2 && n / c.order.Align() in c.deltas
              else !c.numa && c.min >= 3 && n == c.min && d >= 0 && d in c.deltas
  {
    assert ListedBlock(c)(x, n, d) <==>
             (c.order.Align() != 0 && d == 1 && (x - 1) % c.order.Align() == 0 && n % c.order.Align() == 0
              && n / c.order.Align() >= 2 && n / c.order.Align() in c.deltas);
    assert LongRun(c)(x, n, d) <==> n == c.min && d >= 0 && d in c.deltas;
  }

  lemma WholeWidth(n: nat, a: nat)
    requires a >= 1 && n % a == 0
    ensures n == Scale(n / a, a)
  {
  }

  lemma NoneJoin(bad: Window, a: seq<Elem>, b: seq<Elem>)
    requires NoneLeft(bad, a) && NoneLeft(bad, b) && (a == [] || a[|a| - 1].Pat?)
    ensures NoneLeft(bad, a + b)
  {
    hide StepSingles;
    var out := a + b;
    forall i: nat, n: nat, d: int {:trigger StepSingles(out, i, n, d)} | i < |out| && n >= 1 && bad(out[i].x, n, d)
      ensures !StepSingles(out, i, n, d)
    {
      if StepSingles(out, i, n, d) {
        if i >= |a| {
          assert out[i] == b[i - |a|];
          Shifted(a, b, i, n, d);
        } else {
          UpToPattern(a, b, i, n, d);
          assert out[..|a|] == a[..|a|] && out[i] == a[i];
          SamePrefix(out, a, |a|, i, n, d);
        }
      }
    }
  }

  lemma Shifted(a: seq<Elem>, b: seq<Elem>, i: nat, n: nat, d: int)
    requires StepSingles(a + b, i, n, d) && i >= |a|
    ensures StepSingles(b, i - |a|, n, d)
  {
    forall k | i - |a| <= k < i - |a| + n
      ensures b[k] == (a + b)[k + |a|]
    {
    }
  }

  lemma UpToPattern(a: seq<Elem>, b: seq<Elem>, i: nat, n: nat, d: int)
    requires StepSingles(a + b, i, n, d) && i < |a| && a[|a| - 1].Pat?
    ensures i + n <= |a|
  {
    assert (a + b)[|a| - 1] == a[|a| - 1];
  }

  lemma NonePattern(bad: Window, a: seq<Elem>, e: Elem)
    requires NoneLeft(bad, a) && e.Pat?
    ensures NoneLeft(bad, a + [e])
  {
    hide StepSingles;
    var out := a + [e];
    forall i: nat, n: nat, d: int {:trigger StepSingles(out, i, n, d)} | i < |out| && n >= 1 && bad(out[i].x, n, d)
      ensures !StepSingles(out, i, n, d)
    {
      if StepSingles(out, i, n, d) {
        BeforePattern(a, e, i, n, d);
        assert out[..|a|] == a[..|a|] && out[i] == a[i];
        SamePrefix(out, a, |a|, i, n, d);
      }
    }
  }

  lemma BeforePattern(a: seq<Elem>, e: Elem, i: nat, n: nat, d: int)
    requires StepSingles(a + [e], i, n, d) && n >= 1 && e.Pat?
    ensures i + n <= |a|
  {
    assert (a + [e])[|a|] == e;
  }

  lemma {:induction false} ScanNone(c: Config, row: seq<Elem>)
    requires c.Good() && RowSorted(row) && PositiveXs(row)
    ensures var out := Scan(c, row).out;
            NoneLeft(Promised(c), out) && (out == [] || out[|out| - 1].Pat?)
  {
    hide EncodedStretch, NoneLeft, Promised;
    if row == [] {
      NothingLeft(Promised(c));
    } else {
      var n := |row| - 1;
      var a := Scan(c, row[..n]);
      ScanNone(c, row[..n]);
      if row[n].Pat? {
        ScanPending(c, row[..n]);
        StretchNone(c, a.pending);
        NoneJoin(Promised(c), a.out, EncodedStretch(c, a.pending));
        NonePattern(Promised(c), a.out + EncodedStretch(c, a.pending), row[n]);
      }
    }
  }

  lemma NothingLeft(bad: Window)
    ensures NoneLeft(bad, [])
  {
  }

  /** An encoded row leaves nothing single that its settings promise to encode. */
  lemma EncodedRowNone(c: Config, row: seq<Elem>)
    requires c.Good() && RowSorted(row) && PositiveXs(row)
    ensures NoneLeft(Promised(c), EncodedRow(c, row))
  {
    hide EncodedStretch, NoneLeft, Promised, Scan;
    ScanNone(c, row);
    ScanPending(c, row);
    StretchNone(c, Scan(c, row).pending);
    NoneJoin(Promised(c), Scan(c, row).out, EncodedStretch(c, Scan(c, row).pending));
  }

  /** Nor does the whole matrix, seen in the order it was encoded to. */
  lemma EncodeLeavesNone(c: Config, o: Order, d: Dims, rows: Rows)
    requires c.Good() && Valid(o, d, rows)
    ensures forall row :: row in Reorder.Transformed(o, c.order, d, Encode(c, o, d, rows)) ==> NoneLeft(Promised(c), row)
  {
    hide Valid, Reorder.Transformed, Reorder.Good, EncodedRow, NoneLeft, Promised, GoodElem, RowTight, WellSized;
    var there := Reorder.Transformed(o, c.order, d, rows);
    var out := EncodedRows(c, there);
    TransformValid(o, c.order, d, rows);
    EncodedRowsValid(c, d, there);
    GoodOrder(c.order, d, out);
    Reorder.TransformUndo(c.order, o, d, out);
    assert Encode(c, o, d, rows) == Reorder.Transformed(c.order, o, d, out);
    forall row | row in out
      ensures NoneLeft(Promised(c), row)
    {
      var i :| 0 <= i < |out| && out[i] == row;
      RowsValid(c.order, d, there, i + 1);
      EncodedRowNone(c, there[i]);
    }
  }

  lemma GoodOrder(o: Order, d: Dims, rows: Rows)
    requires Valid(o, d, rows)
    ensures Reorder.Good(o, d, rows)
  {
  }

  // ----- What becomes of each stretch

  lemma {:induction false} PendingIs(c: Config, row: seq<Elem>, l: nat)
    requires c.Good() && l <= |row| && AllSingle(row[l..]) && (l > 0 ==> row[l - 1].Pat?)
    ensures Scan(c, row).pending == row[l..]
  {
    hide EncodedStretch;
    if l < |row| {
      var n := |row| - 1;
      assert row[..n][l..] == row[l..n];
      assert row[l..][..n - l] == row[l..n];
      PendingIs(c, row[..n], l);
      assert row[l..][n - l].Single? && row[l..n] + [row[n]] == row[l..];
    } else {
      assert row[l..] == [];
    }
  }

  lemma {:induction false} OutGrows(c: Config, row: seq<Elem>, k: nat, e: Elem)
    requires c.Good() && k <= |row| && e in Scan(c, row[..k]).out
    ensures e in Scan(c, row).out
    decreases |row|
  {
    hide EncodedStretch;
    if k < |row| {
      var n := |row| - 1;
      TakeTake(row, k, n);
      OutGrows(c, row[..n], k, e);
    } else {
      Whole(row);
    }
  }

  /** A stretch is encoded on its own: what its encoding holds is in the encoded row. */
  lemma StretchInRow(c: Config, row: seq<Elem>, l: nat, r: nat, e: Elem)
    requires c.Good() && StretchOf(row, l, r) && e in Encoded(c, Xs(row[l..r]), Vs(row[l..r]))
    ensures e in EncodedRow(c, row)
  {
    hide Encoded, Xs, Vs;
    assert row[..r][l..] == row[l..r];
    PendingIs(c, row[..r], l);
    if r < |row| {
      assert row[..r + 1][..r] == row[..r];
      OutGrows(c, row, r + 1, e);
    } else {
      Whole(row);
    }
  }

  /** Blocks that are not split: every listed stretch of whole blocks of a row is cut. */
  lemma EqualMadeInRow(c: Config, row: seq<Elem>, l: nat, r: nat, x: int, w: nat, b: nat) returns (e: Elem)
    requires c.Good() && c.order.Align() != 0 && !c.splitBlocks && RowSorted(row) && PositiveXs(row)
    requires StretchOf(row, l, r) && MaxBlocks(c.order.Align(), Xs(row[l..r]), x, w) && w >= 2 && w in c.deltas
    requires Scale(b + 1, Width(c, w)) <= w
    ensures e in EncodedRow(c, row) && IsBlock(c, e, x + Times(Scale(b, Width(c, w)), c.order.Align()), Width(c, w))
  {
    hide Encoded, MaxBlocks, IsBlock, EncodedRow, Times;
    e := EqualMade(c, Xs(row[l..r]), Vs(row[l..r]), x, w, b);
    StretchInRow(c, row, l, r, e);
  }
}

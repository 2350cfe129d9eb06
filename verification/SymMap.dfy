/** Symmetric matrices in parallel: which rows each thread multiplies, and which
    positions of the temporary vectors each thread adds up afterwards.

    A thread that meets a column left of its own rows cannot add to y there; it adds
    to its temporary vector, and the pair (thread, column) is listed in exactly one
    map, exactly once. */
module SymMap {
  import opened Orders
  import opened Products
  import opened Seqs

  /** The strictly lower triangle by rows, and the diagonal.  Everything is 0-based. */
  datatype Crs = Crs(n: nat, rowPtr: seq<nat>, colInd: seq<nat>, values: seq<real>, dvalues: seq<real>)
  {
    ghost predicate Valid() {
      && |rowPtr| == n + 1 && rowPtr[0] == 0 && rowPtr[n] == |colInd| == |values| && |dvalues| == n
      && (forall i, j :: 0 <= i <= j <= n ==> rowPtr[i] <= rowPtr[j])
      && (forall i, k :: 0 <= i < n && rowPtr[i] <= k < rowPtr[i + 1] ==> colInd[k] < i)
      && (forall i, k, l :: 0 <= i < n && rowPtr[i] <= k < l < rowPtr[i + 1] ==> colInd[k] < colInd[l])
    }

    /** Elements of the rows before r, the diagonal included. */
    function Weight(r: nat): nat
      requires r < |rowPtr|
    {
      rowPtr[r] + r
    }
  }

  // ----- Rows of each thread

  /** Where the rows of each thread begin; the last entry is where they end. */
  ghost predicate Partition(starts: seq<nat>, n: nat) {
    && |starts| >= 2 && starts[0] == 0 && starts[|starts| - 1] == n
    && forall i, j :: 0 <= i <= j < |starts| ==> starts[i] <= starts[j]
  }

  /** Row b is the first one that gives thread i, which begins at row a, its share
      of what is left. */
  ghost predicate TakesShare(crs: Crs, ncpus: nat, i: nat, a: nat, b: nat)
    requires i < ncpus && a <= b < |crs.rowPtr| && crs.n < |crs.rowPtr| && crs.Weight(a) <= crs.Weight(crs.n)
  {
    var goal := crs.Weight(a) + Quot(crs.Weight(crs.n) - crs.Weight(a), ncpus - i);
    crs.Weight(b) >= goal && (b > a ==> crs.Weight(b - 1) < goal)
  }

  ghost predicate Shares(crs: Crs, ncpus: nat, starts: seq<nat>)
    requires crs.Valid() && |starts| <= ncpus + 1 && forall i :: 0 <= i < |starts| ==> starts[i] <= crs.n
    requires forall i, j :: 0 <= i <= j < |starts| ==> starts[i] <= starts[j]
  {
    forall i {:trigger starts[i + 1]} :: 0 <= i < |starts| - 1 ==> TakesShare(crs, ncpus, i, starts[i], starts[i + 1])
  }

  /** Each thread takes rows until it has its share of what is left. */
  method SplitRows(crs: Crs, ncpus: nat) returns (starts: seq<nat>)
    requires crs.Valid() && ncpus >= 1
    ensures |starts| == ncpus + 1 && Partition(starts, crs.n) && Shares(crs, ncpus, starts)
  {
    hide Shares, TakesShare, Quot;
    var curRow, elemsTotal := 0, 0;
    starts := [0];
    OneShare(crs, ncpus);
    var i := 0;
    while i < ncpus
      invariant 0 <= i <= ncpus && |starts| == i + 1 && starts[0] == 0 && starts[i] == curRow <= crs.n
      invariant elemsTotal == crs.Weight(curRow) && (i == ncpus ==> curRow == crs.n)
      invariant forall a, b :: 0 <= a <= b < |starts| ==> starts[a] <= starts[b]
      invariant forall a :: 0 <= a < |starts| ==> starts[a] <= crs.n
      invariant Shares(crs, ncpus, starts)
    {
      ghost var before := starts;
      var elemsLimit := Quot(|crs.values| + crs.n - elemsTotal, ncpus - i);
      ghost var first := curRow;
      curRow := TakeRows(crs, ncpus, i, curRow, elemsTotal + elemsLimit);
      elemsTotal := curRow + crs.rowPtr[curRow];
      starts := starts + [curRow];
      SharesMore(crs, ncpus, before, curRow);
      i := i + 1;
    }
  }

  method TakeRows(crs: Crs, ghost ncpus: nat, ghost i: nat, first: nat, elemsTotal: nat) returns (curRow: nat)
    requires crs.Valid() && i < ncpus && first <= crs.n && crs.Weight(first) <= crs.Weight(crs.n)
    requires elemsTotal == crs.Weight(first) + Quot(crs.Weight(crs.n) - crs.Weight(first), ncpus - i)
    ensures first <= curRow <= crs.n && TakesShare(crs, ncpus, i, first, curRow)
    ensures i + 1 == ncpus ==> curRow == crs.n
  {
    ShareFits(crs.Weight(crs.n) - crs.Weight(first), ncpus - i);
    curRow := first;
    while crs.rowPtr[curRow] + curRow < elemsTotal
      invariant first <= curRow <= crs.n
      invariant curRow > first ==> crs.Weight(curRow - 1) < elemsTotal
      decreases crs.n - curRow
    {
      curRow := curRow + 1;
    }
  }

  lemma OneShare(crs: Crs, ncpus: nat)
    requires crs.Valid() && ncpus >= 1
    ensures Shares(crs, ncpus, [0])
  {
  }

  lemma SharesMore(crs: Crs, ncpus: nat, starts: seq<nat>, b: nat)
    requires crs.Valid() && 1 <= |starts| <= ncpus && forall i :: 0 <= i < |starts| ==> starts[i] <= crs.n
    requires forall i, j :: 0 <= i <= j < |starts| ==> starts[i] <= starts[j]
    requires Shares(crs, ncpus, starts) && starts[|starts| - 1] <= b <= crs.n
    requires TakesShare(crs, ncpus, |starts| - 1, starts[|starts| - 1], b)
    ensures Shares(crs, ncpus, starts + [b])
  {
    hide TakesShare;
  }

  lemma ShareFits(total: nat, parts: nat)
    requires parts >= 1
    ensures Quot(total, parts) <= total
    ensures parts == 1 ==> Quot(total, parts) == total
  {
    if parts > 1 {
      assert total == total / parts * parts + total % parts;
      MulMono(1, parts, total / parts);
    }
  }

  // ----- Which thread touches what

  /** Thread c meets column p, left of its own rows. */
  ghost predicate Remote(crs: Crs, starts: seq<nat>, c: nat, p: nat)
    requires crs.Valid() && Partition(starts, crs.n)
  {
    c + 1 < |starts| && starts[c + 1] <= crs.n && MetIn(crs, starts[c], starts[c + 1], p)
  }

  /** Column p < s is met in the rows s..e. */
  ghost predicate MetIn(crs: Crs, s: nat, e: nat, p: nat)
    requires crs.Valid() && e <= crs.n
  {
    p < s && exists i :: s <= i < e && InRow(crs, i, p)
  }

  ghost predicate InRow(crs: Crs, i: nat, p: nat)
    requires crs.Valid() && i < crs.n
  {
    SeenIn(crs, i, crs.rowPtr[i + 1], p)
  }

  /** Column p is met in row i before element k. */
  ghost predicate SeenIn(crs: Crs, i: nat, k: nat, p: nat)
    requires crs.Valid() && i < crs.n && k <= crs.rowPtr[i + 1]
  {
    exists l :: crs.rowPtr[i] <= l < k && crs.colInd[l] == p
  }

  ghost function RemoteOf(crs: Crs, starts: seq<nat>): (nat, nat) -> bool
    requires crs.Valid() && Partition(starts, crs.n)
  {
    (c: nat, p: nat) => Remote(crs, starts, c, p)
  }

  /** How many of the first c threads touch p. */
  ghost function HowMany(remote: (nat, nat) -> bool, c: nat, p: nat): nat {
    if c == 0 then 0 else HowMany(remote, c - 1, p) + if remote(c - 1, p) then 1 else 0
  }

  ghost function Total(remote: (nat, nat) -> bool, ncpus: nat, s: nat, e: nat): nat
    requires s <= e
    decreases e - s
  {
    if s == e then 0 else Total(remote, ncpus, s, e - 1) + HowMany(remote, ncpus, e - 1)
  }

  lemma {:induction false} TotalSplit(remote: (nat, nat) -> bool, ncpus: nat, s: nat, m: nat, e: nat)
    requires s <= m <= e
    ensures Total(remote, ncpus, s, e) == Total(remote, ncpus, s, m) + Total(remote, ncpus, m, e)
    decreases e - m
  {
    if m < e {
      TotalSplit(remote, ncpus, s, m, e - 1);
    }
  }

  // ----- Maps

  datatype Slot = Slot(cpu: nat, pos: nat)

  /** The threads that touch column p, in order; positions are stored less `off`. */
  ghost function At(remote: (nat, nat) -> bool, c: nat, p: nat, off: nat): seq<Slot> {
    if c == 0 then []
    else At(remote, c - 1, p, off) + if remote(c - 1, p) && p >= off then [Slot(c - 1, p - off)] else []
  }

  ghost function Listed(remote: (nat, nat) -> bool, ncpus: nat, s: nat, e: nat, off: nat): seq<Slot>
    requires s <= e
    decreases e - s
  {
    if s == e then [] else Listed(remote, ncpus, s, e - 1, off) + At(remote, ncpus, e - 1, off)
  }

  ghost predicate Once(l: seq<Slot>) {
    forall i, j :: 0 <= i < j < |l| ==> l[i] != l[j]
  }

  /** No pair is at a column below the offset. */
  ghost predicate Offset(remote: (nat, nat) -> bool, ncpus: nat, off: nat) {
    forall c: nat, p: nat :: c < ncpus && p < off ==> !remote(c, p)
  }

  lemma {:induction false} AtLength(remote: (nat, nat) -> bool, c: nat, p: nat, off: nat)
    requires Offset(remote, c, off)
    ensures |At(remote, c, p, off)| == HowMany(remote, c, p)
  {
    if c > 0 {
      AtLength(remote, c - 1, p, off);
    }
  }

  lemma {:induction false} ListedLength(remote: (nat, nat) -> bool, ncpus: nat, s: nat, e: nat, off: nat)
    requires s <= e && Offset(remote, ncpus, off)
    ensures |Listed(remote, ncpus, s, e, off)| == Total(remote, ncpus, s, e)
    decreases e - s
  {
    if s < e {
      ListedLength(remote, ncpus, s, e - 1, off);
      AtLength(remote, ncpus, e - 1, off);
    }
  }

  lemma {:induction false} AtMembers(remote: (nat, nat) -> bool, c: nat, p: nat, off: nat)
    ensures forall t :: t in At(remote, c, p, off) <==> t.cpu < c && t.pos + off == p && remote(t.cpu, p)
    ensures Once(At(remote, c, p, off))
  {
    if c > 0 {
      AtMembers(remote, c - 1, p, off);
      var init := At(remote, c - 1, p, off);
      assert forall i :: 0 <= i < |init| ==> init[i] in init;
    }
  }

  lemma JoinOnce(a: seq<Slot>, b: seq<Slot>)
    requires Once(a) && Once(b) && forall t :: t in a ==> t !in b
    ensures Once(a + b)
  {
    var l := a + b;
    forall i, j | 0 <= i < j < |l|
      ensures l[i] != l[j]
    {
      if i < |a| <= j {
        assert a[i] in a && b[j - |a|] in b;
      }
    }
  }

  /** A stretch of columns lists exactly the pairs with a column in it, each once. */
  lemma {:induction false} ListedMembers(remote: (nat, nat) -> bool, ncpus: nat, s: nat, e: nat, off: nat)
    requires s <= e
    ensures forall t :: t in Listed(remote, ncpus, s, e, off) <==> t.cpu < ncpus && s <= t.pos + off < e && remote(t.cpu, t.pos + off)
    ensures Once(Listed(remote, ncpus, s, e, off))
    decreases e - s
  {
    hide Once, At;
    if s < e {
      ListedMembers(remote, ncpus, s, e - 1, off);
      AtMembers(remote, ncpus, e - 1, off);
      JoinOnce(Listed(remote, ncpus, s, e - 1, off), At(remote, ncpus, e - 1, off));
    } else {
      NoneOnce();
    }
  }

  lemma NoneOnce()
    ensures Once([])
  {
  }

  // ----- Building the maps

  /** The maps cut the columns into consecutive stretches. */
  ghost predicate MapsFor(maps: seq<seq<Slot>>, cuts: seq<nat>, remote: (nat, nat) -> bool, ncpus: nat, n: nat,
                          off: nat) {
    && |maps| + 1 == |cuts| == ncpus + 1 && Partition(cuts, n)
    && forall i :: 0 <= i < ncpus ==> maps[i] == Listed(remote, ncpus, cuts[i], cuts[i + 1], off)
  }

  /** Column b is the first one that gives map i, which begins at column a, its share
      of the pairs that are left. */
  ghost predicate TakesPairs(remote: (nat, nat) -> bool, ncpus: nat, n: nat, i: nat, a: nat, b: nat)
    requires i < ncpus && a <= b <= n
  {
    var limit := Quot(Total(remote, ncpus, a, n), ncpus - i);
    limit <= Total(remote, ncpus, a, b) && (b > a ==> Total(remote, ncpus, a, b - 1) < limit)
  }

  /** What the first pass leaves: who touches what, and how many touch it. */
  ghost predicate Marked(initial: array2<bool>, count: array<nat>, remote: (nat, nat) -> bool, ncpus: nat, n: nat)
    reads initial, count
  {
    && initial.Length0 == ncpus && initial.Length1 == n && count.Length == n
    && (forall c: nat, p: nat :: c < ncpus && p < n ==> (initial[c, p] <==> remote(c, p)))
    && (forall p: nat :: p < n ==> count[p] == HowMany(remote, ncpus, p))
  }

  /** The first pass over the rows of every thread. */
  method InitialMap(crs: Crs, starts: seq<nat>) returns (initial: array2<bool>, count: array<nat>)
    requires crs.Valid() && Partition(starts, crs.n)
    ensures Marked(initial, count, RemoteOf(crs, starts), |starts| - 1, crs.n)
  {
    hide Crs.Valid, MetIn;
    var ncpus := |starts| - 1;
    initial := new bool[ncpus, crs.n]((i, j) => false);
    count := new nat[crs.n](j => 0);
    var i := 0;
    while i < ncpus
      invariant 0 <= i <= ncpus
      invariant forall c: nat, p: nat :: c < ncpus && p < crs.n ==> (initial[c, p] <==> c < i && Remote(crs, starts, c, p))
      invariant forall p: nat :: p < crs.n ==> count[p] == HowMany(RemoteOf(crs, starts), i, p)
    {
      MarkThread(crs, starts, i, initial, count);
      i := i + 1;
    }
  }

  /** The rows of thread i. */
  method MarkThread(crs: Crs, starts: seq<nat>, i: nat, initial: array2<bool>, count: array<nat>)
    requires crs.Valid() && Partition(starts, crs.n) && i + 1 < |starts|
    requires initial.Length0 == |starts| - 1 && initial.Length1 == crs.n == count.Length
    requires forall p: nat :: p < crs.n ==> !initial[i, p]
    modifies initial, count
    ensures forall p: nat :: p < crs.n ==> (initial[i, p] <==> Remote(crs, starts, i, p))
    ensures forall p: nat :: p < crs.n ==> count[p] == old(count[p]) + if Remote(crs, starts, i, p) then 1 else 0
    ensures forall c: nat, p: nat :: c < initial.Length0 && c != i && p < crs.n ==> initial[c, p] == old(initial[c, p])
  {
    hide Crs.Valid, MetIn;
    var start, end := starts[i], starts[i + 1];
    var j := start;
    NoRows(crs, start);
    while j < end
      invariant start <= j <= end
      invariant forall p: nat :: p < crs.n ==> (initial[i, p] <==> MetIn(crs, start, j, p))
      invariant forall p: nat :: p < crs.n ==> count[p] == old(count[p]) + if initial[i, p] then 1 else 0
      invariant forall c: nat, p: nat :: c < initial.Length0 && c != i && p < crs.n ==> initial[c, p] == old(initial[c, p])
    {
      MarkRow(crs, start, j, i, initial, count);
      OneMoreRow(crs, start, j);
      j := j + 1;
    }
  }

  lemma NoRows(crs: Crs, s: nat)
    requires crs.Valid() && s <= crs.n
    ensures forall p: nat :: !MetIn(crs, s, s, p)
  {
  }

  lemma OneMoreRow(crs: Crs, s: nat, j: nat)
    requires crs.Valid() && s <= j < crs.n
    ensures forall p: nat :: MetIn(crs, s, j + 1, p) <==> MetIn(crs, s, j, p) || (p < s && InRow(crs, j, p))
  {
    hide InRow;
    forall p: nat | MetIn(crs, s, j, p)
      ensures MetIn(crs, s, j + 1, p)
    {
      var i :| s <= i < j && InRow(crs, i, p);
      assert i < j + 1;
    }
  }

  /** One row: its columns are sorted, so the scan stops at the first own column. */
  method MarkRow(crs: Crs, start: nat, j: nat, i: nat, initial: array2<bool>, count: array<nat>)
    requires crs.Valid() && start <= j < crs.n && i < initial.Length0 && initial.Length1 == crs.n == count.Length
    modifies initial, count
    ensures forall p: nat :: p < crs.n ==>
              (initial[i, p] <==> old(initial[i, p]) || (p < start && InRow(crs, j, p)))
    ensures forall p: nat :: p < crs.n ==> count[p] == old(count[p]) + if initial[i, p] && !old(initial[i, p]) then 1 else 0
    ensures forall c: nat, p: nat :: c < initial.Length0 && c != i && p < crs.n ==> initial[c, p] == old(initial[c, p])
  {
    hide SeenIn;
    var k := crs.rowPtr[j];
    NoneSeen(crs, j);
    while k < crs.rowPtr[j + 1] && crs.colInd[k] < start
      invariant crs.rowPtr[j] <= k <= crs.rowPtr[j + 1]
      invariant forall p: nat :: p < crs.n ==> (initial[i, p] <==> old(initial[i, p]) || (p < start && SeenIn(crs, j, k, p)))
      invariant forall p: nat :: p < crs.n ==> count[p] == old(count[p]) + if initial[i, p] && !old(initial[i, p]) then 1 else 0
      invariant forall c: nat, p: nat :: c < initial.Length0 && c != i && p < crs.n ==> initial[c, p] == old(initial[c, p])
    {
      OneMoreSeen(crs, j, k);
      MarkOne(initial, count, i, crs.colInd[k]);
      k := k + 1;
    }
    RestOwn(crs, start, j, k);
  }

  method MarkOne(initial: array2<bool>, count: array<nat>, i: nat, col: nat)
    requires i < initial.Length0 && col < initial.Length1 == count.Length
    modifies initial, count
    ensures forall p: nat :: p < count.Length ==> (initial[i, p] <==> old(initial[i, p]) || p == col)
    ensures forall p: nat :: p < count.Length ==> count[p] == old(count[p]) + if initial[i, p] && !old(initial[i, p]) then 1 else 0
    ensures forall c: nat, p: nat :: c < initial.Length0 && c != i && p < count.Length ==> initial[c, p] == old(initial[c, p])
  {
    if !initial[i, col] {
      initial[i, col] := true;
      count[col] := count[col] + 1;
    }
  }

  lemma NoneSeen(crs: Crs, j: nat)
    requires crs.Valid() && j < crs.n
    ensures crs.rowPtr[j] <= crs.rowPtr[j + 1] && forall p: nat :: !SeenIn(crs, j, crs.rowPtr[j], p)
  {
  }

  lemma OneMoreSeen(crs: Crs, j: nat, k: nat)
    requires crs.Valid() && j < crs.n && crs.rowPtr[j] <= k < crs.rowPtr[j + 1]
    ensures forall p: nat :: SeenIn(crs, j, k + 1, p) <==> SeenIn(crs, j, k, p) || p == crs.colInd[k]
    ensures k < |crs.colInd| && crs.colInd[k] < j
  {
    forall p: nat | SeenIn(crs, j, k, p)
      ensures SeenIn(crs, j, k + 1, p)
    {
      var l :| crs.rowPtr[j] <= l < k && crs.colInd[l] == p;
      assert l < k + 1;
    }
    assert SeenIn(crs, j, k + 1, crs.colInd[k]);
  }

  lemma RestOwn(crs: Crs, start: nat, j: nat, k: nat)
    requires crs.Valid() && j < crs.n && crs.rowPtr[j] <= k <= crs.rowPtr[j + 1]
    requires k < crs.rowPtr[j + 1] ==> crs.colInd[k] >= start
    ensures forall p: nat :: p < start ==> (InRow(crs, j, p) <==> SeenIn(crs, j, k, p))
  {
    forall m | k <= m < crs.rowPtr[j + 1]
      ensures crs.colInd[m] >= start
    {
      if m > k {
        assert crs.colInd[k] < crs.colInd[m];
      }
    }
    forall p: nat | SeenIn(crs, j, k, p)
      ensures InRow(crs, j, p)
    {
      var l :| crs.rowPtr[j] <= l < k && crs.colInd[l] == p;
      assert l < crs.rowPtr[j + 1];
    }
  }

  /** The second pass: each map but the last takes columns until it has its share
      of the pairs that are left; the last one takes the rest. */
  method FinalMap(initial: array2<bool>, count: array<nat>, ncpus: nat, n: nat, off: nat,
                  ghost remote: (nat, nat) -> bool)
    returns (maps: seq<seq<Slot>>, ghost cuts: seq<nat>)
    requires ncpus >= 1 && Marked(initial, count, remote, ncpus, n) && Offset(remote, ncpus, off)
    ensures MapsFor(maps, cuts, remote, ncpus, n, off)
    ensures forall i {:trigger maps[i]} :: 0 <= i < ncpus - 1 ==> TakesPairs(remote, ncpus, n, i, cuts[i], cuts[i + 1])
  {
    hide Offset, Listed, Total, Quot, TakesPairs;
    var totalCount := Count(initial, count, ncpus, n, remote);
    maps := [];
    cuts := [0];
    var start, end := 0, 0;
    var i := 0;
    while i < ncpus - 1
      invariant 0 <= i <= ncpus - 1 && |maps| == i && |cuts| == i + 1 && cuts[0] == 0 && cuts[i] == start == end <= n
      invariant forall a, b :: 0 <= a <= b <= i ==> cuts[a] <= cuts[b]
      invariant forall j :: 0 <= j < i ==> maps[j] == Listed(remote, ncpus, cuts[j], cuts[j + 1], off)
      invariant forall j {:trigger maps[j]} :: 0 <= j < i ==> TakesPairs(remote, ncpus, n, j, cuts[j], cuts[j + 1])
      invariant totalCount == Total(remote, ncpus, start, n)
    {
      var limit := Quot(totalCount, ncpus - i);
      ShareFits(totalCount, ncpus - i);
      end := TakeColumns(initial, count, ncpus, n, i, start, limit, remote);
      var list := FillMap(initial, ncpus, n, start, end, off, remote);
      ListedLength(remote, ncpus, start, end, off);
      TotalSplit(remote, ncpus, start, end, n);
      maps := maps + [list];
      cuts := cuts + [end];
      start := end;
      totalCount := totalCount - |list|;
      i := i + 1;
    }
    end := n;
    var last := FillMap(initial, ncpus, n, start, end, off, remote);
    maps := maps + [last];
    cuts := cuts + [n];
  }

  /** Scans columns until the limit is reached; there are always enough left. */
  method TakeColumns(initial: array2<bool>, count: array<nat>, ncpus: nat, n: nat, ghost i: nat, start: nat, limit: nat,
                     ghost remote: (nat, nat) -> bool)
    returns (end: nat)
    requires Marked(initial, count, remote, ncpus, n) && start <= n && i < ncpus
    requires limit == Quot(Total(remote, ncpus, start, n), ncpus - i) <= Total(remote, ncpus, start, n)
    ensures start <= end <= n && TakesPairs(remote, ncpus, n, i, start, end)
  {
    hide HowMany;
    end := start;
    var tempCount := 0;
    while tempCount < limit
      invariant start <= end <= n && tempCount == Total(remote, ncpus, start, end)
      invariant end > start ==> Total(remote, ncpus, start, end - 1) < limit
      decreases n - end
    {
      tempCount := tempCount + count[end];
      end := end + 1;
    }
  }

  method Count(initial: array2<bool>, count: array<nat>, ncpus: nat, n: nat,
               ghost remote: (nat, nat) -> bool) returns (total: nat)
    requires Marked(initial, count, remote, ncpus, n)
    ensures total == Total(remote, ncpus, 0, n)
  {
    total := 0;
    var j := 0;
    while j < n
      invariant 0 <= j <= n && total == Total(remote, ncpus, 0, j)
    {
      total := total + count[j];
      j := j + 1;
    }
  }

  /** The pairs of the columns s..e. */
  method FillMap(initial: array2<bool>, ncpus: nat, n: nat, s: nat, e: nat, off: nat, ghost remote: (nat, nat) -> bool)
    returns (list: seq<Slot>)
    requires s <= e <= n && initial.Length0 == ncpus && initial.Length1 == n && Offset(remote, ncpus, off)
    requires forall c: nat, p: nat :: c < ncpus && p < n ==> (initial[c, p] <==> remote(c, p))
    ensures list == Listed(remote, ncpus, s, e, off)
  {
    list := [];
    var k := s;
    while k < e
      invariant s <= k <= e && list == Listed(remote, ncpus, s, k, off)
    {
      ghost var before := list;
      var j := 0;
      NilRight(before);
      while j < ncpus
        invariant 0 <= j <= ncpus && list == before + At(remote, j, k, off)
      {
        if initial[j, k] {
          assert k >= off;
          Assoc(before, At(remote, j, k, off), [Slot(j, k - off)]);
          list := list + [Slot(j, k - off)];
        } else {
          NilRight(At(remote, j, k, off));
        }
        j := j + 1;
      }
      k := k + 1;
    }
  }

  /** The maps of a symmetric matrix. */
  method MakeMap(crs: Crs, starts: seq<nat>) returns (maps: seq<seq<Slot>>, ghost cuts: seq<nat>)
    requires crs.Valid() && Partition(starts, crs.n)
    ensures MapsFor(maps, cuts, RemoteOf(crs, starts), |starts| - 1, crs.n, 0)
  {
    var initial, count := InitialMap(crs, starts);
    maps, cuts := FinalMap(initial, count, |starts| - 1, crs.n, 0, RemoteOf(crs, starts));
  }

  // ----- The maps are a partition

  lemma CutOf(cuts: seq<nat>, n: nat, p: nat, m: nat) returns (i: nat)
    requires Partition(cuts, n) && 0 < m < |cuts| && p < cuts[m]
    ensures i < m && cuts[i] <= p < cuts[i + 1]
    decreases m
  {
    if p >= cuts[m - 1] {
      i := m - 1;
    } else {
      i := CutOf(cuts, n, p, m - 1);
    }
  }

  /** Every pair of a thread and a column that it touches is in one map. */
  lemma Covered(maps: seq<seq<Slot>>, cuts: seq<nat>, remote: (nat, nat) -> bool, ncpus: nat, n: nat, off: nat, c: nat,
                p: nat)
    returns (i: nat)
    requires MapsFor(maps, cuts, remote, ncpus, n, off) && c < ncpus && off <= p < n && remote(c, p)
    ensures i < ncpus && Slot(c, p - off) in maps[i]
  {
    i := CutOf(cuts, n, p, ncpus);
    ListedMembers(remote, ncpus, cuts[i], cuts[i + 1], off);
  }

  /** What a map lists: pairs that exist, each once, at columns of its own stretch. */
  lemma MapMembers(maps: seq<seq<Slot>>, cuts: seq<nat>, remote: (nat, nat) -> bool, ncpus: nat, n: nat, off: nat,
                   i: nat)
    requires MapsFor(maps, cuts, remote, ncpus, n, off) && i < ncpus
    ensures Once(maps[i])
    ensures forall t :: t in maps[i] <==> t.cpu < ncpus && cuts[i] <= t.pos + off < cuts[i + 1] && remote(t.cpu, t.pos + off)
  {
    ListedMembers(remote, ncpus, cuts[i], cuts[i + 1], off);
  }

  /** No two maps share a position. */
  lemma Disjoint(maps: seq<seq<Slot>>, cuts: seq<nat>, remote: (nat, nat) -> bool, ncpus: nat, n: nat, off: nat,
                 i: nat, j: nat)
    requires MapsFor(maps, cuts, remote, ncpus, n, off) && i < j < ncpus
    ensures forall t, u :: t in maps[i] && u in maps[j] ==> t.pos < u.pos
  {
    MapMembers(maps, cuts, remote, ncpus, n, off, i);
    MapMembers(maps, cuts, remote, ncpus, n, off, j);
    assert cuts[i + 1] <= cuts[j];
  }

  /** Thread 0 has no column left of its rows: it is never listed. */
  lemma NeverFirst(crs: Crs, starts: seq<nat>, maps: seq<seq<Slot>>, cuts: seq<nat>, i: nat)
    requires crs.Valid() && Partition(starts, crs.n)
    requires MapsFor(maps, cuts, RemoteOf(crs, starts), |starts| - 1, crs.n, 0) && i < |maps|
    ensures forall t :: t in maps[i] ==> t.cpu >= 1
  {
    MapMembers(maps, cuts, RemoteOf(crs, starts), |starts| - 1, crs.n, 0, i);
  }
}

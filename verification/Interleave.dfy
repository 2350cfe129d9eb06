/** Rounding the parts of an allocation to whole pages.

    Each part is meant for one memory node, but a page cannot be divided.  The page that
    several parts share goes to the node with the largest share of it. */
module Interleave {
  import Orders
  import opened Seqs

  function Total(s: seq<nat>): nat {
    if s == [] then 0 else Total(s[..|s| - 1]) + s[|s| - 1]
  }

  lemma TotalSnoc(s: seq<nat>, v: nat)
    ensures Total(s + [v]) == Total(s) + v
  {
    Snoc(s, v);
  }

  /** Changing one part changes the total of every prefix that holds it. */
  lemma {:induction false} TotalSet(s: seq<nat>, i: nat, v: nat, k: nat)
    requires i < |s| && k <= |s|
    ensures Total(s[i := v][..k]) + (if i < k then s[i] else 0) == Total(s[..k]) + if i < k then v else 0
  {
    var s' := s[i := v];
    if k > 0 {
      TotalSet(s, i, v, k - 1);
      assert s[..k][..k - 1] == s[..k - 1] && s'[..k][..k - 1] == s'[..k - 1];
    }
  }

  /** The parts before k fill whole pages, unless nothing follows them. */
  ghost predicate WholePages(parts: seq<nat>, page: nat, k: nat)
    requires page >= 1 && k <= |parts|
  {
    Multiple(Total(parts[..k]), page) || forall j :: k <= j < |parts| ==> parts[j] == 0
  }

  predicate Multiple(n: nat, page: nat)
    requires page >= 1
  {
    n % page == 0
  }

  lemma MultipleSum(a: nat, b: nat, page: nat)
    requires page >= 1 && Multiple(a, page)
    ensures Multiple(a + b, page) <==> Multiple(b, page)
  {
    var q, r := b / page, b % page;
    assert a + b == (a / page + q) * page + r;
    assert (a + b) % page == r by { ModOf(a + b, a / page + q, r, page); }
  }

  lemma ModOf(n: nat, q: nat, r: nat, page: nat)
    requires page >= 1 && r < page && n == q * page + r
    ensures n % page == r
  {
    Orders.DivModUnique(n, q, r, page);
  }

  lemma RestIsMultiple(n: nat, page: nat)
    requires page >= 1
    ensures n % page <= n && Multiple(n - n % page, page)
  {
    assert n - n % page == n / page * page;
    ModOf(n - n % page, n / page, 0, page);
  }

  /** What the parts cur..end of node m gave. */
  ghost function Given(was: seq<nat>, now: seq<nat>, nodes: seq<nat>, m: nat, cur: nat, end: nat): int
    requires |was| == |now| == |nodes| && cur <= end <= |was|
  {
    if end == cur then 0
    else Given(was, now, nodes, m, cur, end - 1) + if nodes[end - 1] == m then was[end - 1] as int - now[end - 1] as int else 0
  }

  lemma {:induction false} GivenFrame(was: seq<nat>, now: seq<nat>, now': seq<nat>, nodes: seq<nat>, m: nat, cur: nat,
                                      end: nat)
    requires |was| == |now| == |now'| == |nodes| && cur <= end <= |was| && forall j :: cur <= j < end ==> now'[j] == now[j]
    ensures Given(was, now', nodes, m, cur, end) == Given(was, now, nodes, m, cur, end)
  {
    if cur < end {
      GivenFrame(was, now, now', nodes, m, cur, end - 1);
    }
  }

  /** Only a node of one of the parts has a share. */
  lemma {:induction false} GivenBySome(was: seq<nat>, now: seq<nat>, nodes: seq<nat>, m: nat, cur: nat,
                                       end: nat) returns (j: nat)
    requires |was| == |now| == |nodes| && cur <= end <= |was| && Given(was, now, nodes, m, cur, end) != 0
    ensures cur <= j < end && nodes[j] == m
  {
    if nodes[end - 1] == m {
      j := end - 1;
    } else {
      j := GivenBySome(was, now, nodes, m, cur, end - 1);
    }
  }

  /** While the page that begins in part `cur` is put together: the parts before cur are
      as they were, part cur is cut to whole pages, those up to cur + i are used up, and
      `size` bytes are in hand, from the nodes that `shares` says. */
  ghost predicate Gathering(was: seq<nat>, now: seq<nat>, nodes: seq<nat>, shares: seq<nat>, page: nat, cur: nat,
                            i: nat, size: nat) {
    && page >= 1 && |now| == |was| == |nodes| && cur < |was| && cur + i <= |was| && i >= 1
    && (forall j :: 0 <= j < cur ==> now[j] == was[j])
    && now[cur] == was[cur] - was[cur] % page
    && (forall j :: cur < j < cur + i ==> now[j] == 0)
    && (forall j :: cur + i <= j < |was| ==> now[j] == was[j])
    && Total(now) + size == Total(was) && 0 < size
    && Held(was, now, nodes, shares, cur, i)
  }

  /** The share of a node is what its parts gave; the node of part `cur` has one. */
  ghost predicate Held(was: seq<nat>, now: seq<nat>, nodes: seq<nat>, shares: seq<nat>, cur: nat, i: nat)
  {
    && |was| == |now| == |nodes| && cur < |nodes| && cur + i <= |nodes| && nodes[cur] < |shares|
         && shares[nodes[cur]] > 0
    && forall m {:trigger shares[m]} :: 0 <= m < |shares| ==> shares[m] == Given(was, now, nodes, m, cur, cur + i)
  }

  lemma FirstShare(was: seq<nat>, now: seq<nat>, nodes: seq<nat>, shares: seq<nat>, cur: nat)
    requires |was| == |now| == |nodes| && cur < |nodes| && nodes[cur] < |shares|
         && now[cur] + shares[nodes[cur]] == was[cur] > now[cur]
    requires forall m :: 0 <= m < |shares| && m != nodes[cur] ==> shares[m] == 0
    ensures Held(was, now, nodes, shares, cur, 1)
  {
    forall m {:trigger shares[m]} | 0 <= m < |shares|
      ensures shares[m] == Given(was, now, nodes, m, cur, cur + 1)
    {
      assert Given(was, now, nodes, m, cur, cur) == 0;
    }
  }

  /** The next part gives v. */
  lemma MoreShares(was: seq<nat>, now: seq<nat>, now': seq<nat>, nodes: seq<nat>, shares: seq<nat>, shares': seq<nat>,
                   cur: nat,
                   i: nat, v: nat)
    requires Held(was, now, nodes, shares, cur, i) && cur + i < |nodes| && nodes[cur + i] < |shares|
    requires now[cur + i] == was[cur + i] >= v && now' == now[cur + i := now[cur + i] - v]
    requires shares' == shares[nodes[cur + i] := shares[nodes[cur + i]] + v]
    ensures Held(was, now', nodes, shares', cur, i + 1)
  {
    forall m {:trigger shares'[m]} | 0 <= m < |shares'|
      ensures shares'[m] == Given(was, now', nodes, m, cur, cur + (i + 1))
    {
      GivenFrame(was, now, now', nodes, m, cur, cur + i);
      assert shares[m] == Given(was, now, nodes, m, cur, cur + i);
    }
  }

  /** Takes the whole page together. */
  method GatherPage(parts: array<nat>, nodes: seq<nat>, nrNodes: nat, page: nat, cur: nat)
    returns (i: nat, size: nat, shares: seq<nat>)
    requires page >= 1 && |nodes| == parts.Length && cur < parts.Length && parts[cur] % page != 0
    requires forall j :: 0 <= j < |nodes| ==> nodes[j] < nrNodes
    modifies parts
    ensures parts.Length == |nodes| && |shares| == nrNodes && i >= 1 && size <= page
    ensures size == page ==> cur + i < parts.Length && GatheredPage(old(parts[..]), parts[..], nodes, shares, page, cur, i)
    ensures size < page ==> cur + i == parts.Length && Gathering(old(parts[..]), parts[..], nodes, shares, page, cur, i, size)
  {
    hide Held, Total;
    ghost var was := parts[..];
    var rem := parts[cur] % page;
    RestIsMultiple(parts[cur], page);
    shares := seq(nrNodes, _ => 0);
    shares := shares[nodes[cur] := rem];
    size := rem;
    TotalSet(was, cur, parts[cur] - rem, |was|);
    parts[cur] := parts[cur] - rem;
    assert parts[..] == was[cur := was[cur] - rem];
    Whole(was);
    Whole(parts[..]);
    i := 1;
    FirstShare(was, parts[..], nodes, shares, cur);
    while cur + i < parts.Length && size + parts[cur + i] < page
      invariant |shares| == nrNodes && size < page
      invariant Gathering(was, parts[..], nodes, shares, page, cur, i, size)
      decreases parts.Length - i
    {
      ghost var now, before := parts[..], shares;
      shares := shares[nodes[cur + i] := shares[nodes[cur + i]] + parts[cur + i]];
      MoreShares(was, now, now[cur + i := 0], nodes, before, shares, cur, i, parts[cur + i]);
      size := size + parts[cur + i];
      TotalSet(now, cur + i, 0, |now|);
      parts[cur + i] := 0;
      assert parts[..] == now[cur + i := 0];
      Whole(now);
      Whole(parts[..]);
      i := i + 1;
    }
    if cur + i < parts.Length {
      ghost var now, before := parts[..], shares;
      var missing := page - size;
      shares := shares[nodes[cur + i] := shares[nodes[cur + i]] + missing];
      MoreShares(was, now, now[cur + i := now[cur + i] - missing], nodes, before, shares, cur, i, missing);
      TotalSet(now, cur + i, now[cur + i] - missing, |now|);
      parts[cur + i] := parts[cur + i] - missing;
      assert parts[..] == now[cur + i := now[cur + i] - missing];
      Whole(now);
      Whole(parts[..]);
      size := page;
    }
  }

  /** A full page was taken; part cur + i, the last one to give, keeps the rest. */
  ghost predicate GatheredPage(was: seq<nat>, now: seq<nat>, nodes: seq<nat>, shares: seq<nat>, page: nat, cur: nat,
                               i: nat) {
    && page >= 1 && |now| == |was| == |nodes| && cur + i < |was|
    && (forall j :: 0 <= j < cur ==> now[j] == was[j])
    && now[cur] == was[cur] - was[cur] % page
    && (forall j :: cur < j < cur + i ==> now[j] == 0)
    && (forall j :: cur + i < j < |was| ==> now[j] == was[j])
    && Total(now) + page == Total(was)
    && Held(was, now, nodes, shares, cur, i + 1)
  }

  /** The first node with the largest share. */
  method LargestShare(shares: seq<nat>) returns (node: nat)
    requires |shares| >= 1
    ensures node < |shares| && forall m :: 0 <= m < |shares| ==> shares[m] <= shares[node] && (m < node ==> shares[m] < shares[node])
  {
    var max := shares[0];
    node := 0;
    var i := 1;
    while i < |shares|
      invariant 1 <= i <= |shares| && node < i && max == shares[node]
      invariant forall m :: 0 <= m < i ==> shares[m] <= max && (m < node ==> shares[m] < max)
    {
      if max < shares[i] {
        max := shares[i];
        node := i;
      }
      i := i + 1;
    }
  }

  /** Part `to` is the first one of the node that gave most, the first such node. */
  ghost predicate GaveMost(was: seq<nat>, now: seq<nat>, nodes: seq<nat>, cur: nat, i: nat, to: nat) {
    && |was| == |now| == |nodes| && cur <= to < cur + i <= |nodes|
    && (forall j :: cur <= j < to ==> nodes[j] != nodes[to])
    && forall j {:trigger nodes[j]} :: cur <= j < cur + i ==>
         var g, most := Given(was, now, nodes, nodes[j], cur, cur + i), Given(was, now, nodes, nodes[to], cur, cur + i);
         g <= most && (nodes[j] < nodes[to] ==> g < most)
  }

  /** The page goes to the first part of the node that gave most of it. */
  method AssignPage(parts: array<nat>, nodes: seq<nat>, shares: seq<nat>, cur: nat, i: nat, size: nat,
                    ghost was: seq<nat>)
    returns (to: nat)
    requires parts.Length == |nodes| && Held(was, parts[..], nodes, shares, cur, i)
    requires forall j :: 0 <= j < |nodes| ==> nodes[j] < |shares|
    modifies parts
    ensures cur <= to < cur + i && GaveMost(was, old(parts[..]), nodes, cur, i, to)
    ensures to < parts.Length && parts[..] == old(parts[..])[to := old(parts[to]) + size]
  {
    hide Given;
    ghost var now := parts[..];
    var chosen := LargestShare(shares);
    assert shares[chosen] == Given(was, now, nodes, chosen, cur, cur + i) > 0;
    ghost var at := GivenBySome(was, now, nodes, chosen, cur, cur + i);
    to := cur;
    while nodes[to] != chosen
      invariant cur <= to <= at && forall j :: cur <= j < to ==> nodes[j] != chosen
      decreases at - to
    {
      to := to + 1;
    }
    forall j {:trigger nodes[j]} | cur <= j < cur + i
      ensures var g, most := Given(was, now, nodes, nodes[j], cur, cur + i), Given(was, now, nodes, nodes[to], cur,
            cur + i);
              g <= most && (nodes[j] < nodes[to] ==> g < most)
    {
      assert shares[nodes[j]] == Given(was, now, nodes, nodes[j], cur, cur + i);
    }
    parts[to] := parts[to] + size;
  }

  /** The page that begins in part cur is taken from the parts cur..cur + n, and given to
      the node that gave most of it; it is a full one unless the parts end before. */
  ghost predicate PageGiven(was: seq<nat>, now: seq<nat>, end: seq<nat>, nodes: seq<nat>, page: nat, cur: nat, n: nat,
                            to: nat)
    requires page >= 1
  {
    && |now| == |was| == |nodes| && n >= 1 && cur + n <= |was| && GaveMost(was, now, nodes, cur, n, to)
    && (forall j :: 0 <= j < cur || cur + n <= j < |was| ==> now[j] == was[j])
    && now[cur] == was[cur] - was[cur] % page && (forall j :: cur < j < cur + n - 1 ==> now[j] == 0)
    && (Total(was) == Total(now) + page || (cur + n == |was| && Total(now) <= Total(was) < Total(now) + page && (n > 1 ==> now[|now| - 1] == 0)))
    && end == now[to := now[to] + (Total(was) - Total(now))]
  }

  /** What one step makes of the parts. */
  ghost predicate Fixed(was: seq<nat>, end: seq<nat>, nodes: seq<nat>, page: nat, cur: nat)
    requires page >= 1 && cur < |was|
  {
    if was[cur] % page == 0 then end == was
    else exists now, n, to :: PageGiven(was, now, end, nodes, page, cur, n, to)
  }

  /** One step: afterwards the parts up to and including `cur` fill whole pages. */
  method FixPart(parts: array<nat>, nodes: seq<nat>, nrNodes: nat, page: nat, cur: nat)
    requires page >= 1 && |nodes| == parts.Length && cur < parts.Length
    requires forall j :: 0 <= j < |nodes| ==> nodes[j] < nrNodes
    requires forall k :: 0 <= k <= cur ==> WholePages(parts[..], page, k)
    modifies parts
    ensures Total(parts[..]) == old(Total(parts[..]))
    ensures forall k :: 0 <= k <= cur + 1 ==> WholePages(parts[..], page, k)
    ensures Fixed(old(parts[..]), parts[..], nodes, page, cur)
  {
    hide Total, Held, Gathering, GatheredPage, WholePages, GaveMost, PageGiven;
    ghost var was := parts[..];
    var rem := parts[cur] % page;
    if rem != 0 {
      var i, size, shares := GatherPage(parts, nodes, nrNodes, page, cur);
      ghost var now := parts[..];
      if size == page {
        FullParts(was, now, nodes, shares, page, cur, i);
        var to := AssignPage(parts, nodes, shares, cur, i + 1, size, was);
        FullGiven(was, now, parts[..], nodes, shares, page, cur, i, to);
        FullPage(was, now, nodes, shares, page, cur, i, to, parts[..]);
      } else {
        LastParts(was, now, nodes, shares, page, cur, i, size);
        var to := AssignPage(parts, nodes, shares, cur, i, size, was);
        LastGiven(was, now, parts[..], nodes, shares, page, cur, i, size, to);
        LastPage(was, now, nodes, shares, page, cur, i, size, to, parts[..]);
      }
    } else {
      NothingToDo(was, page, cur);
    }
  }

  lemma FullParts(was: seq<nat>, now: seq<nat>, nodes: seq<nat>, shares: seq<nat>, page: nat, cur: nat, i: nat)
    requires GatheredPage(was, now, nodes, shares, page, cur, i)
    ensures Held(was, now, nodes, shares, cur, i + 1)
  {
    hide Total;
  }

  lemma LastParts(was: seq<nat>, now: seq<nat>, nodes: seq<nat>, shares: seq<nat>, page: nat, cur: nat, i: nat,
                  size: nat)
    requires Gathering(was, now, nodes, shares, page, cur, i, size)
    ensures Held(was, now, nodes, shares, cur, i)
  {
    hide Total;
  }

  lemma FullGiven(was: seq<nat>, now: seq<nat>, end: seq<nat>, nodes: seq<nat>, shares: seq<nat>, page: nat, cur: nat,
                  i: nat, to: nat)
    requires GatheredPage(was, now, nodes, shares, page, cur, i) && GaveMost(was, now, nodes, cur, i + 1, to)
    requires end == now[to := now[to] + page]
    ensures PageGiven(was, now, end, nodes, page, cur, i + 1, to)
  {
    hide Total, Held, GaveMost;
  }

  lemma LastGiven(was: seq<nat>, now: seq<nat>, end: seq<nat>, nodes: seq<nat>, shares: seq<nat>, page: nat, cur: nat,
                  i: nat, size: nat, to: nat)
    requires Gathering(was, now, nodes, shares, page, cur, i, size) && cur + i == |was| && size < page
    requires GaveMost(was, now, nodes, cur, i, to) && end == now[to := now[to] + size]
    ensures PageGiven(was, now, end, nodes, page, cur, i, to)
  {
    hide Total, Held, GaveMost;
  }

  /** The prefix before part cur: whole pages. */
  lemma BeforePart(was: seq<nat>, page: nat, cur: nat)
    requires page >= 1 && cur < |was| && was[cur] != 0 && WholePages(was, page, cur)
    ensures Multiple(Total(was[..cur]), page)
  {
    hide Total, Multiple;
  }

  lemma NothingToDo(was: seq<nat>, page: nat, cur: nat)
    requires page >= 1 && cur < |was| && was[cur] % page == 0 && WholePages(was, page, cur)
    ensures WholePages(was, page, cur + 1)
  {
    hide Total;
    TotalSnoc(was[..cur], was[cur]);
    assert was[..cur] + [was[cur]] == was[..cur + 1];
    if Multiple(Total(was[..cur]), page) {
      MultipleSum(Total(was[..cur]), was[cur], page);
    }
  }

  /** Prefixes that end before part cur do not change. */
  lemma SamePrefix(was: seq<nat>, end: seq<nat>, page: nat, cur: nat, k: nat)
    requires page >= 1 && k <= cur < |was| == |end| && forall j :: 0 <= j < cur ==> end[j] == was[j]
    requires WholePages(was, page, k) && was[cur] % page != 0
    ensures WholePages(end, page, k)
  {
    assert end[..k] == was[..k];
  }

  lemma FullPage(was: seq<nat>, now: seq<nat>, nodes: seq<nat>, shares: seq<nat>, page: nat, cur: nat, i: nat, to: nat,
                 end: seq<nat>)
    requires GatheredPage(was, now, nodes, shares, page, cur, i) && cur <= to <= cur + i && was[cur] % page != 0
    requires end == now[to := now[to] + page]
    requires forall k :: 0 <= k <= cur ==> WholePages(was, page, k)
    ensures Total(end) == Total(was)
    ensures forall k :: 0 <= k <= cur + 1 ==> WholePages(end, page, k)
  {
    hide Total, Held, WholePages, Multiple;
    TotalSet(now, to, now[to] + page, |now|);
    Whole(now);
    Whole(end);
    forall k | 0 <= k <= cur
      ensures WholePages(end, page, k)
    {
      SamePrefix(was, end, page, cur, k);
    }
    BeforePart(was, page, cur);
    RestIsMultiple(was[cur], page);
    TotalSnoc(end[..cur], end[cur]);
    assert end[..cur] + [end[cur]] == end[..cur + 1] && end[..cur] == was[..cur];
    MultipleSum(Total(was[..cur]), now[cur], page);
    if to == cur {
      MultipleSum(Total(was[..cur]) + now[cur], page, page);
      OnePage(page);
    }
    IsWhole(end, page, cur + 1);
  }

  lemma OnePage(page: nat)
    requires page >= 1
    ensures Multiple(page, page)
  {
    ModOf(page, 1, 0, page);
  }

  lemma IsWhole(s: seq<nat>, page: nat, k: nat)
    requires page >= 1 && k <= |s| && (Multiple(Total(s[..k]), page) || forall j :: k <= j < |s| ==> s[j] == 0)
    ensures WholePages(s, page, k)
  {
  }

  lemma LastPage(was: seq<nat>, now: seq<nat>, nodes: seq<nat>, shares: seq<nat>, page: nat, cur: nat, i: nat,
                 size: nat, to: nat, end: seq<nat>)
    requires Gathering(was, now, nodes, shares, page, cur, i, size) && cur + i == |was| && cur <= to < cur + i
         && was[cur] % page != 0
    requires end == now[to := now[to] + size]
    requires forall k :: 0 <= k <= cur ==> WholePages(was, page, k)
    ensures Total(end) == Total(was)
    ensures forall k :: 0 <= k <= cur + 1 ==> WholePages(end, page, k)
  {
    hide Total, Held, WholePages;
    TotalSet(now, to, now[to] + size, |now|);
    Whole(now);
    Whole(end);
    forall k | 0 <= k <= cur
      ensures WholePages(end, page, k)
    {
      SamePrefix(was, end, page, cur, k);
    }
    BeforePart(was, page, cur);
    RestIsMultiple(was[cur], page);
    TotalSnoc(end[..cur], end[cur]);
    assert end[..cur] + [end[cur]] == end[..cur + 1] && end[..cur] == was[..cur];
    MultipleSum(Total(was[..cur]), now[cur], page);
    IsWhole(end, page, cur + 1);
  }

  /** The first k parts are fixed, one after another. */
  ghost predicate Rounded(was: seq<nat>, end: seq<nat>, nodes: seq<nat>, page: nat, k: nat)
    requires page >= 1
    decreases k
  {
    |was| == |end| && if k == 0 then end == was
    else exists mid :: |mid| >= k && Rounded(was, mid, nodes, page, k - 1) && Fixed(mid, end, nodes, page, k - 1)
  }

  /** Nothing is lost, and wherever a non-empty part begins, the parts before it fill
      whole pages. */
  method FixInterleaving(parts: array<nat>, nodes: seq<nat>, nrNodes: nat, page: nat)
    requires page >= 1 && |nodes| == parts.Length >= 1
    requires forall j :: 0 <= j < |nodes| ==> nodes[j] < nrNodes
    modifies parts
    ensures Total(parts[..]) == old(Total(parts[..]))
    ensures forall k :: 0 <= k < parts.Length && parts[k] > 0 ==> Total(parts[..k]) % page == 0
    ensures Rounded(old(parts[..]), parts[..], nodes, page, parts.Length - 1)
  {
    hide Total, Fixed;
    var cur := 0;
    NoParts(parts[..], page);
    while cur < parts.Length - 1
      invariant 0 <= cur < parts.Length && Total(parts[..]) == old(Total(parts[..]))
      invariant forall k :: 0 <= k <= cur ==> WholePages(parts[..], page, k)
      invariant Rounded(old(parts[..]), parts[..], nodes, page, cur)
    {
      FixPart(parts, nodes, nrNodes, page, cur);
      cur := cur + 1;
    }
    forall k | 0 <= k < parts.Length && parts[k] > 0
      ensures Total(parts[..k]) % page == 0
    {
      assert WholePages(parts[..], page, k) && parts[..][k] == parts[k] && parts[..][..k] == parts[..k];
    }
  }

  lemma NoParts(s: seq<nat>, page: nat)
    requires page >= 1
    ensures WholePages(s, page, 0)
  {
    assert s[..0] == [];
  }
}

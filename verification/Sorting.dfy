/** Insertion sort by any order: the sorts of the libraries, on members of which one is
    always before the other. */
module Sorting {

  function Insert<T>(s: seq<T>, x: T, before: (T, T) -> bool): (r: seq<T>)
    ensures |r| == |s| + 1
  {
    if s == [] || before(s[|s| - 1], x) then s + [x]
    else Insert(s[..|s| - 1], x, before) + [s[|s| - 1]]
  }

  function Sort<T>(s: seq<T>, before: (T, T) -> bool): (r: seq<T>)
    ensures |r| == |s|
  {
    if s == [] then [] else Insert(Sort(s[..|s| - 1], before), s[|s| - 1], before)
  }

  ghost predicate Ascending<T>(s: seq<T>, before: (T, T) -> bool) {
    forall i, j :: 0 <= i < j < |s| ==> before(s[i], s[j])
  }

  /** Of any two members one is before the other. */
  ghost predicate Comparable<T>(s: seq<T>, before: (T, T) -> bool) {
    forall i, j :: 0 <= i < j < |s| ==> before(s[i], s[j]) || before(s[j], s[i])
  }

  lemma Split<T>(s: seq<T>)
    requires s != []
    ensures multiset(s) == multiset(s[..|s| - 1]) + multiset{s[|s| - 1]}
  {
    assert s == s[..|s| - 1] + [s[|s| - 1]];
  }

  lemma {:induction false} InsertPerm<T>(s: seq<T>, x: T, before: (T, T) -> bool)
    ensures multiset(Insert(s, x, before)) == multiset(s) + multiset{x}
  {
    if s != [] && !before(s[|s| - 1], x) {
      var n := |s| - 1;
      InsertPerm(s[..n], x, before);
      Split(s);
    }
  }

  lemma {:induction false} SortPerm<T>(s: seq<T>, before: (T, T) -> bool)
    ensures multiset(Sort(s, before)) == multiset(s)
  {
    if s != [] {
      var n := |s| - 1;
      SortPerm(s[..n], before);
      InsertPerm(Sort(s[..n], before), s[n], before);
      Split(s);
    }
  }

  lemma AscendsSnoc<T>(s: seq<T>, x: T, before: (T, T) -> bool)
    requires Ascending(s, before) && forall i :: 0 <= i < |s| ==> before(s[i], x)
    ensures Ascending(s + [x], before)
  {
  }

  lemma AscendsInit<T>(s: seq<T>, before: (T, T) -> bool)
    requires Ascending(s, before) && s != []
    ensures Ascending(s[..|s| - 1], before)
  {
  }

  lemma LastIsAfter<T>(s: seq<T>, i: nat, before: (T, T) -> bool)
    requires Ascending(s, before) && i < |s|
    ensures i == |s| - 1 || before(s[i], s[|s| - 1])
  {
  }

  lemma InsertMember<T>(s: seq<T>, x: T, before: (T, T) -> bool, i: nat)
    requires i <= |s|
    ensures var e := Insert(s, x, before)[i];
            e == x || exists k :: 0 <= k < |s| && s[k] == e
  {
    InsertPerm(s, x, before);
    var r := Insert(s, x, before);
    assert r[i] in multiset(r);
    if r[i] != x {
      assert r[i] in multiset(s) && r[i] in s;
    }
  }

  lemma {:induction false} InsertAscends<T>(s: seq<T>, x: T, before: (T, T) -> bool)
    requires Ascending(s, before) && forall i :: 0 <= i < |s| ==> before(s[i], x) || before(x, s[i])
    requires forall i, j :: 0 <= i < |s| && 0 <= j < |s| && before(s[i], s[j]) && before(s[j], x) ==> before(s[i], x)
    ensures Ascending(Insert(s, x, before), before)
  {
    hide Ascending;
    if s == [] || before(s[|s| - 1], x) {
      forall i | 0 <= i < |s|
        ensures before(s[i], x)
      {
        LastIsAfter(s, i, before);
      }
      AscendsSnoc(s, x, before);
    } else {
      var n := |s| - 1;
      AscendsInit(s, before);
      InsertAscends(s[..n], x, before);
      forall i | 0 <= i < |s|
        ensures before(Insert(s[..n], x, before)[i], s[n])
      {
        InsertMember(s[..n], x, before, i);
        if k :| 0 <= k < n && s[k] == Insert(s[..n], x, before)[i] {
          LastIsAfter(s, k, before);
        }
      }
      AscendsSnoc(Insert(s[..n], x, before), s[n], before);
    }
  }

  lemma {:induction false} SortAscends<T>(s: seq<T>, before: (T, T) -> bool)
    requires Comparable(s, before)
    requires forall a, b, c :: a in s && b in s && c in s && before(a, b) && before(b, c) ==> before(a, c)
    ensures Ascending(Sort(s, before), before)
  {
    if s != [] {
      var n := |s| - 1;
      var t := Sort(s[..n], before);
      SortAscends(s[..n], before);
      SortPerm(s[..n], before);
      forall i | 0 <= i < |t|
        ensures t[i] in s && (before(t[i], s[n]) || before(s[n], t[i]))
      {
        assert t[i] in multiset(t);
        var k :| 0 <= k < n && s[k] == t[i];
      }
      InsertAscends(t, s[n], before);
    }
  }
}

/** Facts about sequences, each stated once so that proofs need not search for them. */
module Seqs {

  lemma Assoc<T>(a: seq<T>, b: seq<T>, c: seq<T>)
    ensures (a + b) + c == a + (b + c)
  {
  }

  lemma NilRight<T>(a: seq<T>)
    ensures a + [] == a
  {
  }

  lemma NilLeft<T>(a: seq<T>)
    ensures [] + a == a
  {
  }

  /** All but the last element of a concatenation. */
  lemma ButLast<T>(a: seq<T>, b: seq<T>)
    requires b != []
    ensures (a + b)[..|a + b| - 1] == a + b[..|b| - 1]
    ensures (a + b)[|a + b| - 1] == b[|b| - 1]
  {
  }

  lemma Snoc<T>(a: seq<T>, x: T)
    ensures (a + [x])[..|a|] == a && (a + [x])[|a|] == x
  {
  }

  lemma Glue<T>(z: seq<T>, a: nat, b: nat)
    requires a <= b <= |z|
    ensures z[..a] + z[a..b] == z[..b]
  {
  }

  lemma Halves<T>(z: seq<T>, a: nat)
    requires a <= |z|
    ensures z[..a] + z[a..] == z
  {
  }

  lemma Whole<T>(z: seq<T>)
    ensures z[..|z|] == z && z[0..] == z
  {
  }

  lemma SplitAt<T>(b: seq<T>, j: nat)
    requires j < |b|
    ensures b[..j] + [b[j]] + b[j + 1..] == b
  {
  }

  lemma TakeTake<T>(z: seq<T>, a: nat, b: nat)
    requires a <= b <= |z|
    ensures z[..b][..a] == z[..a]
  {
  }

  lemma DropSlice<T>(z: seq<T>, a: nat, b: nat)
    requires a < b <= |z|
    ensures z[a..b][1..] == z[a + 1..b] && z[a..b][0] == z[a]
    ensures z[a..b] == [z[a]] + z[a + 1..b]
  {
  }

  lemma DropDrop<T>(z: seq<T>, a: nat, b: nat)
    requires a <= b <= |z|
    ensures z[a..][b - a..] == z[b..]
  {
  }

  lemma SliceLeft<T>(a: seq<T>, b: seq<T>, i: nat, j: nat)
    requires i <= j <= |a|
    ensures (a + b)[i..j] == a[i..j]
  {
  }

  lemma SliceRight<T>(a: seq<T>, b: seq<T>)
    ensures (a + b)[|a|..] == b
    ensures (a + b)[|a|..|a| + |b|] == b
  {
  }

  /** A slice of the middle part of what lies behind position `at`. */
  lemma SliceInside<T>(s: seq<T>, at: nat, z: seq<T>, d: seq<T>, rest: seq<T>, t: nat, w: nat)
    requires at <= |s| && s[at..] == (z + d) + rest && t + w <= |d|
    ensures at + |z| + t + w <= |s| && s[at + |z| + t..at + |z| + t + w] == d[t..t + w]
  {
    forall j | t <= j < t + w
      ensures s[at + |z| + j] == d[j]
    {
      assert s[at..][|z| + j] == d[j];
    }
  }
}

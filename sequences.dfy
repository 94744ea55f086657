/** Small facts about sequences, stated once so that larger proofs can call them instead of re-deriving them. */
module Sequences {
  lemma ConsOfTail<T>(s: seq<T>)
    requires s != []
    ensures s == [s[0]] + s[1..]
  {
  }

  lemma AppendEmpty<T>(s: seq<T>)
    ensures s + [] == s
  {
  }

  lemma PrependEmpty<T>(s: seq<T>)
    ensures [] + s == s
  {
  }

  lemma AppendAssoc<T>(a: seq<T>, b: seq<T>, c: seq<T>)
    ensures a + (b + c) == a + b + c
  {
  }

  lemma MultisetCons<T>(s: seq<T>)
    requires s != []
    ensures multiset(s) == multiset{s[0]} + multiset(s[1..])
  {
    ConsOfTail(s);
  }

  lemma SliceOfSuffix<T>(s: seq<T>, a: nat, m: nat)
    requires a + m <= |s|
    ensures s[a..][..m] == s[a..a + m]
  {
  }

  lemma SuffixOfTail<T>(s: seq<T>, k: nat)
    requires s != [] && k <= |s| - 1
    ensures s[1..][k..] == s[k + 1..]
  {
  }

  lemma DropSubMultiset<T>(s: seq<T>, k: nat)
    requires k <= |s|
    ensures multiset(s[k..]) <= multiset(s)
  {
    assert s == s[..k] + s[k..];
  }

  lemma TakeSubMultiset<T>(s: seq<T>, k: nat)
    requires k <= |s|
    ensures multiset(s[..k]) <= multiset(s)
  {
    assert s == s[..k] + s[k..];
  }

  /** `f` applied to every element, in order. */
  function Map<T, U>(f: T -> U, s: seq<T>): (r: seq<U>)
    ensures |r| == |s|
    ensures forall k :: 0 <= k < |s| ==> r[k] == f(s[k])
  {
    seq(|s|, k requires 0 <= k < |s| => f(s[k]))
  }

  lemma MapCons<T, U>(f: T -> U, x: T, p: seq<T>)
    ensures Map(f, [x] + p) == [f(x)] + Map(f, p)
  {
    var a := Map(f, [x] + p);
    var b := [f(x)] + Map(f, p);
    forall k | 0 <= k < |a| ensures a[k] == b[k] {
      if k > 0 {
        assert ([x] + p)[k] == p[k - 1];
      }
    }
  }
}

/**
 * The natural order of Java strings (String.compareTo): compare character by character,
 * and a proper prefix comes first. Used by the directory listing's `sorted()` and by the
 * rollback's `sort(Comparator.reverseOrder())`.
 */
module Ordering {

  /** a.compareTo(b) <= 0 */
  predicate Le(a: string, b: string)
    decreases |a|
  {
    a == [] || (b != [] && (a[0] < b[0] || (a[0] == b[0] && Le(a[1..], b[1..]))))
  }

  lemma {:induction false} LeReflexive(a: string)
    ensures Le(a, a)
    decreases |a|
  {
    if a != [] {
      LeReflexive(a[1..]);
    }
  }

  lemma {:induction false} LeTotal(a: string, b: string)
    ensures Le(a, b) || Le(b, a)
    decreases |a|
  {
    if a != [] && b != [] && a[0] == b[0] {
      LeTotal(a[1..], b[1..]);
    }
  }

  lemma {:induction false} LeTransitive(a: string, b: string, c: string)
    requires Le(a, b) && Le(b, c)
    ensures Le(a, c)
    decreases |a|
  {
    if a != [] && a[0] == b[0] && b[0] == c[0] {
      LeTransitive(a[1..], b[1..], c[1..]);
    }
  }

  lemma {:induction false} LeAntisymmetric(a: string, b: string)
    requires Le(a, b) && Le(b, a)
    ensures a == b
    decreases |a|
  {
    if a != [] {
      LeAntisymmetric(a[1..], b[1..]);
      assert a == [a[0]] + a[1..] && b == [b[0]] + b[1..];
    }
  }

  predicate SortedAscending(s: seq<string>) {
    forall i, j :: 0 <= i < j < |s| ==> Le(s[i], s[j])
  }

  predicate SortedDescending(s: seq<string>) {
    forall i, j :: 0 <= i < j < |s| ==> Le(s[j], s[i])
  }

  function Insert(x: string, s: seq<string>): (r: seq<string>)
    requires SortedAscending(s)
    ensures SortedAscending(r)
    ensures multiset(r) == multiset(s) + multiset{x}
  {
    if s == [] then [x]
    else if Le(x, s[0]) then
      assert forall j :: 0 <= j < |s| ==> Le(x, s[j]) by {
        forall j | 0 <= j < |s| ensures Le(x, s[j]) {
          if j > 0 { LeTransitive(x, s[0], s[j]); }
        }
      }
      [x] + s
    else
      LeTotal(x, s[0]);
      var rest := Insert(x, s[1..]);
      assert s == [s[0]] + s[1..];
      forall k | 0 <= k < |rest| ensures Le(s[0], rest[k]) {
        assert rest[k] in multiset(rest);
        if rest[k] != x {
          assert rest[k] in multiset(s[1..]);
          var j :| 0 <= j < |s[1..]| && s[1..][j] == rest[k];
          assert s[j + 1] == rest[k];
        }
      }
      [s[0]] + rest
  }

  /** List.sort / Stream.sorted under the natural order: the sorted permutation of `s`. */
  function SortAscending(s: seq<string>): (r: seq<string>)
    ensures SortedAscending(r)
    ensures multiset(r) == multiset(s)
  {
    if s == [] then []
    else
      assert s == [s[0]] + s[1..];
      Insert(s[0], SortAscending(s[1..]))
  }

  function Reverse(s: seq<string>): (r: seq<string>)
    ensures |r| == |s|
    ensures forall i :: 0 <= i < |s| ==> r[i] == s[|s| - 1 - i]
  {
    if s == [] then [] else Reverse(s[1..]) + [s[0]]
  }

  lemma {:induction false} ReversePermutes(s: seq<string>)
    ensures multiset(Reverse(s)) == multiset(s)
  {
    if s != [] {
      ReversePermutes(s[1..]);
      assert s == [s[0]] + s[1..];
    }
  }

  /** List.sort(Comparator.reverseOrder()): the permutation of `s` sorted from greatest to least. */
  function SortDescending(s: seq<string>): (r: seq<string>)
    ensures SortedDescending(r)
    ensures multiset(r) == multiset(s)
  {
    var up := SortAscending(s);
    ReversePermutes(up);
    Reverse(up)
  }

  /** The first element of a sorted sequence is below each of its elements. */
  lemma FirstIsLeast(s: seq<string>, y: string)
    requires SortedAscending(s) && y in multiset(s)
    ensures Le(s[0], y)
  {
    var i :| 0 <= i < |s| && s[i] == y;
    if i == 0 { LeReflexive(y); }
  }

  lemma SameTail<T>(a: seq<T>, b: seq<T>)
    requires a != [] && b != [] && a[0] == b[0]
    requires multiset(a) == multiset(b)
    ensures multiset(a[1..]) == multiset(b[1..])
  {
    assert a == [a[0]] + a[1..] && b == [b[0]] + b[1..];
    assert multiset(a) == multiset{a[0]} + multiset(a[1..]);
    assert multiset(b) == multiset{b[0]} + multiset(b[1..]);
    forall x ensures multiset(a[1..])[x] == multiset(b[1..])[x] {
      assert multiset(a)[x] == multiset(b)[x];
    }
  }

  /** Two sorted permutations of the same strings are equal: the sort is determined by its contents. */
  lemma {:induction false} SortedPermutationUnique(a: seq<string>, b: seq<string>)
    requires SortedAscending(a) && SortedAscending(b)
    requires multiset(a) == multiset(b)
    ensures a == b
  {
    if a != [] {
      assert |a| == |multiset(a)| == |b|;
      FirstIsLeast(a, b[0]);
      FirstIsLeast(b, a[0]);
      LeAntisymmetric(a[0], b[0]);
      var a', b' := a[1..], b[1..];
      assert a == [a[0]] + a' && b == [b[0]] + b';
      SameTail(a, b);
      assert SortedAscending(a') && SortedAscending(b');
      SortedPermutationUnique(a', b');
    }
  }
}

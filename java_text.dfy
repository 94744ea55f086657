/**
 * The pieces of java.lang.String and java.util.Scanner that the migration
 * reader and the command parser rely on, stated over `string` (= seq<char>).
 */
module JavaText {
  import opened Sequences

  /** Character.isWhitespace: the separator characters except the no-break spaces, and the ASCII controls 9-13, 28-31. */
  predicate IsWhitespace(c: char) {
    c == ' ' || ('\t' <= c <= '\r') || ('\U{1C}' <= c <= '\U{1F}')
    || c == '\U{1680}' || ('\U{2000}' <= c <= '\U{2006}') || ('\U{2008}' <= c <= '\U{200A}')
    || c == '\U{2028}' || c == '\U{2029}' || c == '\U{205F}' || c == '\U{3000}'
  }

  /** String.isBlank: empty, or only whitespace code points. */
  predicate IsBlank(s: string) {
    forall i :: 0 <= i < |s| ==> IsWhitespace(s[i])
  }

  /** The characters String.trim removes: every code point up to and including U+0020. */
  predicate IsTrimmable(c: char) {
    c <= ' '
  }

  /** True when `s` has no trimmable character at either end. */
  predicate IsTrimmed(s: string) {
    s == [] || (!IsTrimmable(s[0]) && !IsTrimmable(s[|s| - 1]))
  }

  function TrimStart(s: string): (r: string)
    ensures |r| <= |s| && r == s[|s| - |r|..]
    ensures r == [] || !IsTrimmable(r[0])
    ensures forall i :: 0 <= i < |s| - |r| ==> IsTrimmable(s[i])
  {
    if s != [] && IsTrimmable(s[0]) then
      var r := TrimStart(s[1..]);
      SuffixOfTail(s, |s| - 1 - |r|);
      r
    else s
  }

  function TrimEnd(s: string): (r: string)
    ensures |r| <= |s| && r == s[..|r|]
    ensures r == [] || !IsTrimmable(r[|r| - 1])
    ensures forall i :: |r| <= i < |s| ==> IsTrimmable(s[i])
  {
    if s != [] && IsTrimmable(s[|s| - 1]) then TrimEnd(s[..|s| - 1]) else s
  }

  /** String.trim: the longest middle slice with no trimmable character at either end. */
  function Trim(s: string): (r: string)
    ensures IsTrimmed(r)
  {
    TrimEnd(TrimStart(s))
  }

  /** The trimmed string is the slice of `s` that starts where TrimStart stops. */
  lemma TrimIsMiddle(s: string)
    ensures |s| - |TrimStart(s)| + |Trim(s)| <= |s|
    ensures Trim(s) == s[|s| - |TrimStart(s)|..|s| - |TrimStart(s)| + |Trim(s)|]
  {
    SliceOfSuffix(s, |s| - |TrimStart(s)|, |Trim(s)|);
  }

  /** Trimming never introduces a character. */
  lemma TrimSubMultiset(s: string)
    ensures multiset(Trim(s)) <= multiset(s)
  {
    var start := TrimStart(s);
    DropSubMultiset(s, |s| - |start|);
    TakeSubMultiset(start, |TrimEnd(start)|);
  }

  /** Trimming a string that already has no trimmable ends, behind a trimmable prefix, gives the string back. */
  lemma {:induction false} TrimAfterPrefix(w: string, s: string)
    requires forall i :: 0 <= i < |w| ==> IsTrimmable(w[i])
    requires IsTrimmed(s)
    ensures Trim(w + s) == s
  {
    if w == [] {
      assert w + s == s;
      TrimmedIsFixed(s);
    } else {
      assert (w + s)[1..] == w[1..] + s;
      TrimAfterPrefix(w[1..], s);
    }
  }

  lemma TrimmedIsFixed(s: string)
    requires IsTrimmed(s)
    ensures Trim(s) == s
  {
  }

  /** A string of trimmable characters trims to the empty string. */
  lemma {:induction false} TrimOfTrimmable(w: string)
    requires forall i :: 0 <= i < |w| ==> IsTrimmable(w[i])
    ensures Trim(w) == []
  {
    assert w + [] == w;
    TrimAfterPrefix(w, []);
  }

  /** `p` occurs in `s` starting at index `i`. */
  predicate OccursAt(s: string, p: string, i: int) {
    0 <= i && i + |p| <= |s| && s[i..i + |p|] == p
  }

  /** String.startsWith. */
  predicate StartsWith(s: string, p: string) {
    OccursAt(s, p, 0)
  }

  /** String.endsWith. */
  predicate EndsWith(s: string, p: string) {
    |p| <= |s| && s[|s| - |p|..] == p
  }

  /** The index of the first occurrence of `p` at or after `from`, or |s| when there is none. */
  function Find(s: string, p: string, from: nat): (r: nat)
    requires p != [] && from <= |s|
    ensures from <= r <= |s|
    ensures r < |s| ==> OccursAt(s, p, r)
    ensures forall j :: from <= j < r ==> !OccursAt(s, p, j)
    decreases |s| - from
  {
    if from == |s| then |s|
    else if OccursAt(s, p, from) then from
    else Find(s, p, from + 1)
  }

  /** The first occurrence of `p` in `s` is at `k`. */
  lemma FindFirst(s: string, p: string, k: nat)
    requires p != [] && k < |s|
    requires OccursAt(s, p, k)
    requires forall j :: 0 <= j < k ==> !OccursAt(s, p, j)
    ensures Find(s, p, 0) == k
  {
  }

  /** Without any occurrence, the search runs to the end. */
  lemma FindAbsent(s: string, p: string)
    requires p != []
    requires forall j :: 0 <= j < |s| ==> !OccursAt(s, p, j)
    ensures Find(s, p, 0) == |s|
  {
  }

  /**
   * Splitting around every `sep` character, keeping empty pieces. (String.split also drops trailing
   * empty pieces; every caller here discards blank pieces, so that difference never shows.)
   */
  function Split(s: string, sep: char): (r: seq<string>)
    ensures |r| >= 1
    ensures forall k :: 0 <= k < |r| ==> sep !in r[k]
    ensures forall k :: 0 <= k < |r| ==> multiset(r[k]) <= multiset(s)
  {
    if s == [] then [[]]
    else
      var rest := Split(s[1..], sep);
      assert multiset(s) == multiset{s[0]} + multiset(s[1..]) by { assert s == [s[0]] + s[1..]; }
      if s[0] == sep then [[]] + rest
      else
        assert forall i :: 0 <= i < |rest[0]| ==> ([s[0]] + rest[0])[i + 1] == rest[0][i];
        [[s[0]] + rest[0]] + rest[1..]
  }

  /** The first piece ends at the first separator. */
  lemma {:induction false} SplitAtSeparator(x: string, sep: char, y: string)
    requires sep !in x
    ensures Split(x + [sep] + y, sep) == [x] + Split(y, sep)
  {
    if x == [] {
      assert x + [sep] + y == [sep] + y;
      assert ([sep] + y)[1..] == y;
    } else {
      assert (x + [sep] + y)[1..] == x[1..] + [sep] + y;
      SplitAtSeparator(x[1..], sep, y);
      assert [x[0]] + x[1..] == x;
    }
  }

  /** A string without a separator is a single piece. */
  lemma {:induction false} SplitNoSeparator(x: string, sep: char)
    requires sep !in x
    ensures Split(x, sep) == [x]
  {
    if x != [] {
      SplitNoSeparator(x[1..], sep);
      assert [x[0]] + x[1..] == x;
    }
  }

  /** The pieces with `sep` between each two: what Split takes apart. */
  function Join(pieces: seq<string>, sep: char): (r: string)
    ensures |pieces| == 1 ==> r == pieces[0]
  {
    if pieces == [] then []
    else if |pieces| == 1 then pieces[0]
    else pieces[0] + [sep] + Join(pieces[1..], sep)
  }

  /** Joining the pieces of a split gives back the input: no character is lost, added or moved. */
  lemma {:induction false} JoinSplit(s: string, sep: char)
    ensures Join(Split(s, sep), sep) == s
  {
    if s != [] {
      var rest := Split(s[1..], sep);
      JoinSplit(s[1..], sep);
      if s[0] == sep {
        JoinEmptyFirst(rest, sep);
      } else {
        JoinExtendFirst(s[0], rest, sep);
      }
      assert [s[0]] + s[1..] == s;
    }
  }

  lemma JoinEmptyFirst(rest: seq<string>, sep: char)
    requires rest != []
    ensures Join([[]] + rest, sep) == [sep] + Join(rest, sep)
  {
    var r := [[]] + rest;
    assert r[1..] == rest;
  }

  lemma JoinExtendFirst(c: char, rest: seq<string>, sep: char)
    requires rest != []
    ensures Join([[c] + rest[0]] + rest[1..], sep) == [c] + Join(rest, sep)
  {
    var head := [c] + rest[0];
    var r := [head] + rest[1..];
    assert r[1..] == rest[1..];
    if |rest| > 1 {
      assert head + [sep] + Join(rest[1..], sep) == [c] + (rest[0] + [sep] + Join(rest[1..], sep));
    }
  }

  /** Splitting pieces free of `sep`, joined by `sep`, gives the pieces back. */
  lemma {:induction false} SplitJoin(pieces: seq<string>, sep: char)
    requires pieces != []
    requires forall k :: 0 <= k < |pieces| ==> sep !in pieces[k]
    ensures Split(Join(pieces, sep), sep) == pieces
  {
    if |pieces| == 1 {
      SplitNoSeparator(pieces[0], sep);
    } else {
      var rest := pieces[1..];
      assert forall k :: 0 <= k < |rest| ==> rest[k] == pieces[k + 1];
      SplitJoin(rest, sep);
      SplitAtSeparator(pieces[0], sep, Join(rest, sep));
      assert [pieces[0]] + rest == pieces;
    }
  }
}

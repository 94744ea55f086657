/**
 * MigrationFileReader.readMigrationsFromFile: from the text of a migration resource to its
 * forward SQL statements. The Scanner walk over the header lines is a method with a loop,
 * proved equal to the function `ReadMigrations`; the split/trim/filter pipeline is the
 * function `Statements`.
 */
module MigrationFileReader {
  import opened Results
  import opened JavaText
  import opened Sequences

  const MIGRATION_DELIMITER: string := "--migration--"
  const ROLLBACK_DELIMITER: string := "--rollback--"

  /** Why reading failed: the resource is missing (IOException, rethrown as RuntimeException),
      or nothing is left to read after the marker (Scanner.next throws NoSuchElementException). */
  datatype ReadError = FileNotFound(path: string) | NoSuchElement

  // ---------------------------------------------------------------------------
  // java.util.Scanner as the reader drives it

  /** The characters at which Scanner.nextLine ends a line ("\r\n" counts once). */
  predicate IsLineTerminator(c: char) {
    c == '\n' || c == '\r' || c == '\U{85}' || c == '\U{2028}' || c == '\U{2029}'
  }

  /** Scanner.hasNext() under the default delimiter: some non-whitespace character remains. */
  predicate HasNext(s: string) {
    exists i :: 0 <= i < |s| && !IsWhitespace(s[i])
  }

  /** The index of the first line terminator, or |s| when there is none. */
  function LineLength(s: string): (n: nat)
    ensures n <= |s|
    ensures n < |s| ==> IsLineTerminator(s[n])
    ensures forall i :: 0 <= i < n ==> !IsLineTerminator(s[i])
  {
    if s == [] || IsLineTerminator(s[0]) then 0 else 1 + LineLength(s[1..])
  }

  /** Scanner.nextLine(): the current line without its terminator, and the input after the terminator. */
  function NextLine(s: string): (r: (string, string))
    requires s != []
    ensures |r.1| < |s|
    ensures |r.0| <= |s| && r.0 == s[..|r.0|] && forall i :: 0 <= i < |r.0| ==> !IsLineTerminator(r.0[i])
  {
    var n := LineLength(s);
    if n == |s| then (s, [])
    else if s[n] == '\r' && n + 1 < |s| && s[n + 1] == '\n' then (s[..n], s[n + 2..])
    else (s[..n], s[n + 1..])
  }

  /**
   * The input left once the header loop stops: right after the first line whose trimmed text is
   * the migration marker, or, when no such line comes, where only whitespace remains.
   */
  function AfterMarker(s: string): string
    decreases |s|
  {
    if !HasNext(s) then s
    else
      var (line, rest) := NextLine(s);
      if Trim(line) == MIGRATION_DELIMITER then rest else AfterMarker(rest)
  }

  /**
   * Scanner.next() with the rollback marker as delimiter: one delimiter at the very start is
   * skipped, then the token runs up to the next delimiter or the end of input. Nothing left
   * after the skip is a NoSuchElementException.
   */
  function NextToken(s: string): Result<string, ReadError> {
    var t := if StartsWith(s, ROLLBACK_DELIMITER) then s[|ROLLBACK_DELIMITER|..] else s;
    if t == [] then Failure(NoSuchElement) else Success(t[..Find(t, ROLLBACK_DELIMITER, 0)])
  }

  // ---------------------------------------------------------------------------
  // The statement pipeline: split(";"), map(String::trim), filter(!isBlank)

  /** What every returned statement looks like: not blank, no trimmable ends, no separator inside. */
  predicate IsStatement(s: string) {
    !IsBlank(s) && IsTrimmed(s) && ';' !in s
  }

  /** Every piece with String.trim applied. */
  function TrimAll(pieces: seq<string>): (r: seq<string>)
    ensures |r| == |pieces|
    ensures forall k :: 0 <= k < |r| ==> r[k] == Trim(pieces[k])
  {
    Map(Trim, pieces)
  }

  /** The non-blank pieces, in their original order. */
  function KeepNonBlank(pieces: seq<string>): (r: seq<string>)
    ensures |r| <= |pieces|
    ensures forall k :: 0 <= k < |r| ==> !IsBlank(r[k])
  {
    if pieces == [] then []
    else if IsBlank(pieces[0]) then KeepNonBlank(pieces[1..])
    else [pieces[0]] + KeepNonBlank(pieces[1..])
  }

  /** The forward statements of a forward section: split(";"), map(String::trim), filter(!isBlank). */
  function Statements(forward: string): seq<string> {
    KeepNonBlank(TrimAll(Split(forward, ';')))
  }

  /** readMigrationsFromFile as a function of the resource's text (None when the resource is missing). */
  function ReadMigrations(path: string, resource: Option<string>): Result<seq<string>, ReadError> {
    match resource
    case None => Failure(FileNotFound(path))
    case Some(text) =>
      match NextToken(AfterMarker(text))
      case Failure(e) => Failure(e)
      case Success(forward) => Success(Statements(forward))
  }

  /** readMigrationsFromFile: the header loop advances the Scanner line by line. */
  method ReadMigrationsFromFile(path: string, resource: Option<string>) returns (r: Result<seq<string>, ReadError>)
    ensures r == ReadMigrations(path, resource)
  {
    if resource.None? {
      return Failure(FileNotFound(path));
    }
    var text := resource.value;
    var remaining := text;
    while HasNext(remaining)
      invariant AfterMarker(remaining) == AfterMarker(text)
      decreases |remaining|
    {
      var (line, rest) := NextLine(remaining);
      remaining := rest;
      if Trim(line) == MIGRATION_DELIMITER {
        break;
      }
    }
    var token := NextToken(remaining);
    if token.Failure? {
      return Failure(token.error);
    }
    r := Success(Statements(token.value));
  }

  // ---------------------------------------------------------------------------
  // Properties

  predicate IsLine(l: string) {
    forall i :: 0 <= i < |l| ==> !IsLineTerminator(l[i])
  }

  /** Lines joined with "\n" after each. */
  function JoinLines(lines: seq<string>): string {
    if lines == [] then [] else lines[0] + "\n" + JoinLines(lines[1..])
  }

  /** A header: lines up to and including the first whose trimmed text is the migration marker. */
  predicate IsHeader(lines: seq<string>) {
    && |lines| > 0
    && (forall k :: 0 <= k < |lines| ==> IsLine(lines[k]))
    && Trim(lines[|lines| - 1]) == MIGRATION_DELIMITER
    && (forall k :: 0 <= k < |lines| - 1 ==> Trim(lines[k]) != MIGRATION_DELIMITER)
  }

  lemma NextLineOfLine(l: string, tail: string)
    requires IsLine(l)
    ensures NextLine(l + "\n" + tail) == (l, tail)
  {
    var s := l + "\n" + tail;
    assert s[|l|] == '\n';
    assert forall i :: 0 <= i < |l| ==> s[i] == l[i];
    assert LineLength(s) == |l|;
    assert s[..|l|] == l && s[|l| + 1..] == tail;
  }

  lemma HasNextOfMarkerLine(l: string, tail: string)
    requires Trim(l) == MIGRATION_DELIMITER
    ensures HasNext(l + "\n" + tail)
  {
    TrimIsMiddle(l);
    var a := |l| - |TrimStart(l)|;
    assert l[a..a + |MIGRATION_DELIMITER|] == MIGRATION_DELIMITER;
    assert l[a] == '-';
    var s := l + "\n" + tail;
    assert s[a] == '-' && !IsWhitespace(s[a]);
  }

  lemma JoinLinesCons(lines: seq<string>, rest: string)
    requires lines != []
    ensures JoinLines(lines) + rest == lines[0] + "\n" + (JoinLines(lines[1..]) + rest)
  {
  }

  lemma HeaderTail(lines: seq<string>)
    requires IsHeader(lines) && |lines| > 1
    ensures IsHeader(lines[1..]) && Trim(lines[0]) != MIGRATION_DELIMITER && IsLine(lines[0])
  {
    assert forall k :: 0 <= k < |lines| - 1 ==> lines[1..][k] == lines[k + 1];
  }

  /** Every line up to and including the marker line contributes nothing: the loop stops right after it. */
  lemma {:induction false} HeaderSkipped(lines: seq<string>, rest: string)
    requires IsHeader(lines)
    ensures AfterMarker(JoinLines(lines) + rest) == rest
  {
    var l := lines[0];
    var tail := JoinLines(lines[1..]) + rest;
    JoinLinesCons(lines, rest);
    HasNextOfHeader(lines, rest);
    assert IsLine(l);
    NextLineOfLine(l, tail);
    if |lines| == 1 {
      assert tail == rest;
    } else {
      HeaderTail(lines);
      HeaderSkipped(lines[1..], rest);
    }
  }

  lemma HasNextAfterLine(l: string, tail: string)
    requires HasNext(tail)
    ensures HasNext(l + "\n" + tail)
  {
    var i :| 0 <= i < |tail| && !IsWhitespace(tail[i]);
    assert (l + "\n" + tail)[|l| + 1 + i] == tail[i];
  }

  lemma {:induction false} HasNextOfHeader(lines: seq<string>, rest: string)
    requires IsHeader(lines)
    ensures HasNext(JoinLines(lines) + rest)
  {
    var l := lines[0];
    var tail := JoinLines(lines[1..]) + rest;
    JoinLinesCons(lines, rest);
    if |lines| == 1 {
      HasNextOfMarkerLine(l, tail);
    } else {
      HeaderTail(lines);
      HasNextOfHeader(lines[1..], rest);
      HasNextAfterLine(l, tail);
    }
  }

  /** Text after the first rollback marker that follows the forward text never contributes. */
  lemma RollbackSectionCut(forward: string, tail: string)
    requires forward != []
    requires forall j :: 0 <= j < |forward| ==> !OccursAt(forward + ROLLBACK_DELIMITER + tail, ROLLBACK_DELIMITER, j)
    ensures NextToken(forward + ROLLBACK_DELIMITER + tail) == Success(forward)
  {
    var s := forward + ROLLBACK_DELIMITER + tail;
    assert s[|forward|..|forward| + |ROLLBACK_DELIMITER|] == ROLLBACK_DELIMITER;
    FindFirst(s, ROLLBACK_DELIMITER, |forward|);
    assert s[..|forward|] == forward;
  }

  /** A whole file: header, forward text, rollback marker, anything. Only the forward text counts. */
  lemma ReadFile(path: string, header: seq<string>, forward: string, tail: string)
    requires IsHeader(header)
    requires forward != []
    requires forall j :: 0 <= j < |forward| ==> !OccursAt(forward + ROLLBACK_DELIMITER + tail, ROLLBACK_DELIMITER, j)
    ensures ReadMigrations(path, Some(JoinLines(header) + forward + ROLLBACK_DELIMITER + tail)) == Success(Statements(forward))
  {
    var rest := forward + ROLLBACK_DELIMITER + tail;
    assert JoinLines(header) + forward + ROLLBACK_DELIMITER + tail == JoinLines(header) + rest;
    HeaderSkipped(header, rest);
    RollbackSectionCut(forward, tail);
  }

  /**
   * When the rollback marker comes right after the marker line, Scanner.next skips it, so the
   * rollback statements are read as forward statements.
   */
  lemma RollbackRightAfterMarker(path: string, header: seq<string>, reverse: string)
    requires IsHeader(header)
    requires reverse != []
    requires Free(reverse)
    ensures ReadMigrations(path, Some(JoinLines(header) + ROLLBACK_DELIMITER + reverse)) == Success(Statements(reverse))
  {
    var rest := ROLLBACK_DELIMITER + reverse;
    assert JoinLines(header) + ROLLBACK_DELIMITER + reverse == JoinLines(header) + rest;
    HeaderSkipped(header, rest);
    LeadingMarkerSkipped(reverse);
  }

  lemma LeadingMarkerSkipped(reverse: string)
    requires reverse != []
    requires Free(reverse)
    ensures NextToken(ROLLBACK_DELIMITER + reverse) == Success(reverse)
  {
    var rest := ROLLBACK_DELIMITER + reverse;
    assert rest[..|ROLLBACK_DELIMITER|] == ROLLBACK_DELIMITER;
    assert rest[|ROLLBACK_DELIMITER|..] == reverse;
    FindAbsent(reverse, ROLLBACK_DELIMITER);
    assert reverse[..|reverse|] == reverse;
  }

  /** A marker line with nothing after it (or only a rollback marker) is a NoSuchElementException. */
  lemma NothingAfterMarker(path: string, header: seq<string>)
    requires IsHeader(header)
    ensures ReadMigrations(path, Some(JoinLines(header))) == Failure(NoSuchElement)
    ensures ReadMigrations(path, Some(JoinLines(header) + ROLLBACK_DELIMITER)) == Failure(NoSuchElement)
  {
    HeaderSkipped(header, []);
    AppendEmpty(JoinLines(header));
    HeaderSkipped(header, ROLLBACK_DELIMITER);
    assert NextToken([]) == Failure(NoSuchElement);
    assert NextToken(ROLLBACK_DELIMITER) == Failure(NoSuchElement);
  }

  /** A missing resource yields the not-found error and no statements. */
  lemma MissingResource(path: string)
    ensures ReadMigrations(path, None) == Failure(FileNotFound(path))
  {
  }

  lemma {:induction false} KeepNonBlankOfBlanks(pieces: seq<string>)
    requires forall k :: 0 <= k < |pieces| ==> IsBlank(pieces[k])
    ensures KeepNonBlank(pieces) == []
  {
    if pieces != [] {
      KeepNonBlankOfBlanks(pieces[1..]);
    }
  }

  /** A forward section made only of separators and whitespace yields no statement, and no error. */
  lemma SeparatorsOnly(forward: string)
    requires forall i :: 0 <= i < |forward| ==> forward[i] == ';' || IsWhitespace(forward[i])
    ensures Statements(forward) == []
  {
    var pieces := Split(forward, ';');
    var trimmed := TrimAll(pieces);
    forall k | 0 <= k < |trimmed| ensures IsBlank(trimmed[k]) {
      TrimSubMultiset(pieces[k]);
      forall i | 0 <= i < |trimmed[k]| ensures IsWhitespace(trimmed[k][i]) {
        var c := trimmed[k][i];
        assert c in multiset(trimmed[k]);
        assert c in multiset(forward);
        var j :| 0 <= j < |forward| && forward[j] == c;
        assert c != ';' by { assert c in multiset(pieces[k]); }
      }
    }
    KeepNonBlankOfBlanks(trimmed);
  }

  /** Filtering keeps only pieces that were already there, so their shape carries over. */
  lemma {:induction false} KeepNonBlankStatements(pieces: seq<string>)
    requires forall k :: 0 <= k < |pieces| ==> IsTrimmed(pieces[k]) && ';' !in pieces[k]
    ensures forall k :: 0 <= k < |KeepNonBlank(pieces)| ==> IsStatement(KeepNonBlank(pieces)[k])
  {
    if pieces != [] {
      KeepNonBlankStatements(pieces[1..]);
    }
  }

  /** Every statement read is non-blank, trimmed and free of the separator. */
  lemma StatementsAreStatements(forward: string)
    ensures forall k :: 0 <= k < |Statements(forward)| ==> IsStatement(Statements(forward)[k])
  {
    var pieces := Split(forward, ';');
    var trimmed := TrimAll(pieces);
    forall k | 0 <= k < |trimmed| ensures IsTrimmed(trimmed[k]) && ';' !in trimmed[k] {
      TrimSubMultiset(pieces[k]);
      assert ';' !in multiset(pieces[k]);
    }
    KeepNonBlankStatements(trimmed);
  }

  // ---------------------------------------------------------------------------
  // Round trip: statements written back as a forward section are read back unchanged

  /** Each statement followed by ";" and a newline. */
  function Render(stmts: seq<string>): string {
    if stmts == [] then [] else stmts[0] + ";\n" + Render(stmts[1..])
  }

  /** The rollback marker does not occur anywhere in `s`. */
  predicate Free(s: string) {
    forall j :: 0 <= j < |s| ==> !OccursAt(s, ROLLBACK_DELIMITER, j)
  }

  lemma OccurrenceChar(s: string, j: int, k: int)
    requires OccursAt(s, ROLLBACK_DELIMITER, j) && j <= k < j + |ROLLBACK_DELIMITER|
    ensures s[k] in ROLLBACK_DELIMITER
  {
    assert s[k] == s[j..j + |ROLLBACK_DELIMITER|][k - j];
  }

  /** Joining two marker-free strings around a character that is not in the marker creates no marker. */
  lemma FreeAroundChar(x: string, c: char, y: string)
    requires Free(x) && Free(y) && c !in ROLLBACK_DELIMITER
    ensures Free(x + [c] + y)
  {
    var s := x + [c] + y;
    var n := |ROLLBACK_DELIMITER|;
    forall j | 0 <= j < |s| ensures !OccursAt(s, ROLLBACK_DELIMITER, j) {
      if j + n <= |x| {
        assert !OccursAt(x, ROLLBACK_DELIMITER, j);
        assert s[j..j + n] == x[j..j + n];
      } else if j > |x| {
        assert !OccursAt(y, ROLLBACK_DELIMITER, j - |x| - 1);
        assert j + n <= |s| ==> s[j..j + n] == y[j - |x| - 1..j - |x| - 1 + n];
      } else if OccursAt(s, ROLLBACK_DELIMITER, j) {
        OccurrenceChar(s, j, |x|);
      }
    }
  }

  lemma {:induction false} RenderFree(stmts: seq<string>)
    requires forall k :: 0 <= k < |stmts| ==> Free(stmts[k])
    ensures Free(Render(stmts))
    ensures stmts != [] ==> Render(stmts) != [] && Render(stmts)[|Render(stmts)| - 1] == '\n'
  {
    if stmts != [] {
      var r := Render(stmts[1..]);
      RenderFree(stmts[1..]);
      assert '\n' !in ROLLBACK_DELIMITER && ';' !in ROLLBACK_DELIMITER;
      FreeAroundChar([], '\n', r);
      assert [] + ['\n'] + r == "\n" + r;
      FreeAroundChar(stmts[0], ';', "\n" + r);
      assert stmts[0] + [';'] + ("\n" + r) == Render(stmts);
    }
  }

  /** Nothing before the end of a marker-free text that ends in a newline can start a marker. */
  lemma NoEarlyMarker(a: string, t: string)
    requires Free(a) && a != [] && a[|a| - 1] == '\n'
    ensures forall j :: 0 <= j < |a| ==> !OccursAt(a + t, ROLLBACK_DELIMITER, j)
  {
    var s := a + t;
    var n := |ROLLBACK_DELIMITER|;
    forall j | 0 <= j < |a| ensures !OccursAt(s, ROLLBACK_DELIMITER, j) {
      if j + n <= |a| {
        assert !OccursAt(a, ROLLBACK_DELIMITER, j);
        assert s[j..j + n] == a[j..j + n];
      } else if OccursAt(s, ROLLBACK_DELIMITER, j) {
        OccurrenceChar(s, j, |a| - 1);
      }
    }
  }

  lemma KeepNonBlankCons(x: string, p: seq<string>)
    ensures KeepNonBlank([x] + p) == (if IsBlank(x) then [] else [x]) + KeepNonBlank(p)
  {
    assert ([x] + p)[1..] == p;
  }

  lemma TrimAllCons(x: string, p: seq<string>)
    ensures TrimAll([x] + p) == [Trim(x)] + TrimAll(p)
  {
    MapCons(Trim, x, p);
  }

  /** The first piece of a section is the text before its first separator. */
  lemma StatementsCons(x: string, y: string)
    requires ';' !in x
    ensures Statements(x + ";" + y) == (if IsBlank(Trim(x)) then [] else [Trim(x)]) + Statements(y)
  {
    SplitAtSeparator(x, ';', y);
    var p := Split(y, ';');
    TrimAllCons(x, p);
    KeepNonBlankCons(Trim(x), TrimAll(p));
  }

  /** Only trimmable characters: no statement at all. */
  lemma StatementsOfTrimmable(w: string)
    requires forall i :: 0 <= i < |w| ==> IsTrimmable(w[i])
    ensures Statements(w + Render([])) == []
  {
    assert w + Render([]) == w;
    assert ';' !in w;
    SplitNoSeparator(w, ';');
    TrimOfTrimmable(w);
  }

  lemma RegroupSeparator(w: string, st: string, r: string)
    ensures w + (st + ";\n" + r) == (w + st) + ";" + ("\n" + r)
  {
  }

  /** The first rendered statement, behind trimmable characters, comes out first. */
  lemma StatementsOfRenderedCons(w: string, stmts: seq<string>)
    requires forall i :: 0 <= i < |w| ==> IsTrimmable(w[i])
    requires stmts != [] && IsStatement(stmts[0])
    requires Statements("\n" + Render(stmts[1..])) == stmts[1..]
    ensures Statements(w + Render(stmts)) == stmts
  {
    var st := stmts[0];
    var r := Render(stmts[1..]);
    assert Render(stmts) == st + ";\n" + r;
    RegroupSeparator(w, st, r);
    assert ';' !in w + st;
    StatementsCons(w + st, "\n" + r);
    TrimAfterPrefix(w, st);
    assert !IsBlank(st);
    ConsOfTail(stmts);
  }

  lemma {:induction false} StatementsOfRendered(w: string, stmts: seq<string>)
    requires forall i :: 0 <= i < |w| ==> IsTrimmable(w[i])
    requires forall k :: 0 <= k < |stmts| ==> IsStatement(stmts[k])
    ensures Statements(w + Render(stmts)) == stmts
    decreases |stmts|
  {
    if stmts == [] {
      StatementsOfTrimmable(w);
    } else {
      StatementsOfRendered("\n", stmts[1..]);
      StatementsOfRenderedCons(w, stmts);
    }
  }

  /** Statements written back with separators, behind any header, read back as the same list. */
  lemma FileRoundTrip(path: string, header: seq<string>, stmts: seq<string>, tail: string)
    requires IsHeader(header)
    requires stmts != []
    requires forall k :: 0 <= k < |stmts| ==> IsStatement(stmts[k]) && Free(stmts[k])
    ensures ReadMigrations(path, Some(JoinLines(header) + Render(stmts) + ROLLBACK_DELIMITER + tail)) == Success(stmts)
  {
    var a := Render(stmts);
    RenderFree(stmts);
    NoEarlyMarker(a, ROLLBACK_DELIMITER + tail);
    AppendAssoc(a, ROLLBACK_DELIMITER, tail);
    ReadFile(path, header, a, tail);
    StatementsOfRendered([], stmts);
    PrependEmpty(a);
  }
}

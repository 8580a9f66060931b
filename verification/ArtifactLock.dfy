/** The artifact lock: its parser, its printer, and moving a pin. */
module ArtifactLock {
  import opened Prelude
  import opened Text

  // Lines and fields

  /** Where `splitlines` breaks. */
  predicate IsBreak(c: char) {
    var n := c as int;
    10 <= n <= 13 || 28 <= n <= 30 || n == 0x85 || n == 0x2028 || n == 0x2029
  }

  function LineLength(s: string): (n: nat)
    ensures n <= |s| && (n < |s| ==> IsBreak(s[n]))
  {
    if s == [] || IsBreak(s[0]) then 0 else 1 + LineLength(s[1..])
  }

  /** `text.splitlines()`: a carriage return and line feed together are one break. */
  function SplitLines(s: string): seq<string>
    decreases |s|
  {
    if s == [] then []
    else
      var n := LineLength(s);
      if n == |s| then [s]
      else [s[..n]] + SplitLines(s[n + (if s[n] == '\r' && n + 1 < |s| && s[n + 1] == '\n' then 2 else 1)..])
  }

  function WordLength(s: string): (n: nat)
    ensures n <= |s| && (s != [] && !IsSpace(s[0]) ==> n > 0)
  {
    if s == [] || IsSpace(s[0]) then 0 else 1 + WordLength(s[1..])
  }

  /** `s.split()`: the words between runs of whitespace. */
  function Fields(s: string): seq<string>
    decreases |s|
  {
    StripLeftShape(s);
    var t := StripLeft(s);
    if t == [] then [] else [t[..WordLength(t)]] + Fields(t[WordLength(t)..])
  }

  /** A non-empty word with no whitespace in it. */
  predicate Token(s: string) {
    s != [] && forall i | 0 <= i < |s| :: !IsSpace(s[i])
  }

  // Pins

  datatype Pin = Pin(name: string, platform: string, version: string, sha256: string, url: string) {
    function Key(): (string, string) {
      (name, platform)
    }

    function Line(): string {
      name + " " + (platform + " " + (version + " " + (sha256 + " " + url)))
    }

    function Columns(): seq<string> {
      [name, platform, version, sha256, url]
    }
  }

  datatype PinProblem = BadName | BadPlatform | BadSha | BadUrl | NamesLatest | Unversioned

  predicate IsNameChar(c: char) {
    'a' <= c <= 'z' || '0' <= c <= '9'
  }

  predicate GoodName(s: string) {
    s != [] && IsNameChar(s[0]) && forall i | 0 <= i < |s| :: IsNameChar(s[i]) || s[i] == '-'
  }

  predicate GoodPlatform(s: string) {
    s == "linux-x86_64" || s == "linux-aarch64" || s == "any"
  }

  predicate GoodSha(s: string) {
    |s| == 64 && IsLowerHex(s)
  }

  predicate IsUrlChar(c: char) {
    'a' <= c <= 'z' || 'A' <= c <= 'Z' || '0' <= c <= '9' || c in "._~%+/:=@-"
  }

  predicate GoodUrl(s: string) {
    |s| > 8 && s[..8] == "https://" && forall i | 0 <= i < |s| :: IsUrlChar(s[i])
  }

  function CutScheme(s: string): Option<string> {
    if |s| < 3 then None else if s[..3] == "://" then Some(s[3..]) else CutScheme(s[1..])
  }

  predicate IsDelimiter(c: char) {
    c == '/' || c == '.' || c == '_' || c == '-'
  }

  /** `latest` as a whole path word, in any case. */
  predicate SaysLatest(s: string) {
    exists i | 0 <= i <= |s| :: LatestAt(s, i)
  }

  predicate LatestAt(s: string, i: nat)
    requires i <= |s|
  {
    && i + 6 <= |s|
    && (i == 0 || IsDelimiter(s[i - 1]))
    && LowerAll(s[i..i + 6]) == "latest"
    && (i + 6 == |s| || IsDelimiter(s[i + 6]))
  }

  predicate Contains(text: string, word: string) {
    exists i | 0 <= i <= |text| :: word <= text[i..]
  }

  function When(b: bool, p: PinProblem): seq<PinProblem> {
    if b then [p] else []
  }

  function PinProblems(p: Pin): seq<PinProblem> {
    When(!GoodName(p.name), BadName) + When(!GoodPlatform(p.platform), BadPlatform)
    + When(!GoodSha(p.sha256), BadSha) + When(!GoodUrl(p.url), BadUrl)
    + When(SaysLatest(if CutScheme(p.url).Some? then CutScheme(p.url).value else p.url), NamesLatest)
    + When(!Contains(p.url, p.version), Unversioned)
  }

  lemma GoodNameIs(s: string)
    ensures GoodName(s) <==>
            s != "" && s[0] != '-' && forall c | c in s :: 'a' <= c <= 'z' || '0' <= c <= '9' || c == '-'
  {
    if s != "" && s[0] != '-' && forall c | c in s :: 'a' <= c <= 'z' || '0' <= c <= '9' || c == '-' {
      assert forall i | 0 <= i < |s| :: s[i] in s;
    }
  }

  lemma GoodShaIs(s: string)
    ensures GoodSha(s) <==> |s| == 64 && forall c | c in s :: '0' <= c <= '9' || 'a' <= c <= 'f'
  {
    assert forall i | 0 <= i < |s| :: s[i] in s;
  }

  predicate UrlChars(s: string) {
    forall c | c in s :: 'a' <= c <= 'z' || 'A' <= c <= 'Z' || '0' <= c <= '9' || c in "._~%+/:=@-"
  }

  lemma GoodUrlIs(s: string)
    ensures GoodUrl(s) <==> "https://" < s && UrlChars(s[8..])
  {
    assert |"https://"| == 8;
    if "https://" < s && UrlChars(s[8..]) {
      assert s[..8] == "https://";
      forall i | 0 <= i < |s| ensures IsUrlChar(s[i]) {
        if i < 8 {
          assert s[i] == "https://"[i];
        } else {
          assert s[i] == s[8..][i - 8] && s[8..][i - 8] in s[8..];
        }
      }
    }
  }

  /** A pin is in order iff every one of the parser's demands is met. */
  lemma InOrderIff(p: Pin)
    ensures PinProblems(p) == [] <==>
            && p.name != "" && p.name[0] != '-'
            && (forall c | c in p.name :: 'a' <= c <= 'z' || '0' <= c <= '9' || c == '-')
            && (p.platform in {"linux-x86_64", "linux-aarch64", "any"})
            && |p.sha256| == 64 && (forall c | c in p.sha256 :: '0' <= c <= '9' || 'a' <= c <= 'f')
            && "https://" < p.url && UrlChars(p.url[8..])
            && !SaysLatest(AfterScheme(p.url))
            && exists i | 0 <= i <= |p.url| :: p.version <= p.url[i..]
  {
    GoodNameIs(p.name);
    GoodShaIs(p.sha256);
    GoodUrlIs(p.url);
  }

  /** What follows the first `://`, or the whole text. */
  function AfterScheme(url: string): string {
    if CutScheme(url).Some? then CutScheme(url).value else url
  }

  lemma {:induction false} CutSchemeIs(scheme: string, rest: string)
    requires ':' !in scheme
    ensures CutScheme(scheme + "://" + rest) == Some(rest)
  {
    var s := scheme + "://" + rest;
    if scheme == [] {
      assert s[..3] == "://" && s[3..] == rest;
    } else {
      assert s[0] == scheme[0] && s[1..] == scheme[1..] + "://" + rest;
      CutSchemeIs(scheme[1..], rest);
    }
  }

  /** A url with `latest`, in any case, as a whole word of its path is refused, wherever the word stands. */
  lemma LatestIsRefused(p: Pin, before: string, word: string, after: string)
    requires p.url == "https" + "://" + (before + word + after) && LowerAll(word) == "latest" && |word| == 6
    requires before == "" || before[|before| - 1] in {'/', '.', '_', '-'}
    requires after == "" || after[0] in {'/', '.', '_', '-'}
    ensures NamesLatest in PinProblems(p)
  {
    var path, i := before + word + after, |before|;
    CutSchemeIs("https", path);
    assert path[i..i + 6] == word;
    assert LatestAt(path, i);
  }

  // Order

  /** Python's `<` on tuples of strings of one length. */
  predicate TupleLess(a: seq<string>, b: seq<string>) {
    a != [] && b != [] && (Less(a[0], b[0]) || (a[0] == b[0] && TupleLess(a[1..], b[1..])))
  }

  lemma {:induction false} TupleOrder(a: seq<string>, b: seq<string>, c: seq<string>)
    requires |a| == |b| == |c|
    ensures a == b || TupleLess(a, b) || TupleLess(b, a)
    ensures !(TupleLess(a, b) && TupleLess(b, a)) && (TupleLess(a, b) ==> a != b)
    ensures TupleLess(a, b) && TupleLess(b, c) ==> TupleLess(a, c)
  {
    if a != [] {
      LessTrichotomy(a[0], b[0]);
      LessTrichotomy(b[0], c[0]);
      if Less(a[0], b[0]) && Less(b[0], c[0]) {
        LessTransitive(a[0], b[0], c[0]);
      }
      TupleOrder(a[1..], b[1..], c[1..]);
      assert a == [a[0]] + a[1..] && b == [b[0]] + b[1..];
    }
  }

  /** A row is a tuple of strings. */
  type Row = seq<string>

  predicate Ascending(rows: seq<Row>) {
    forall i, j | 0 <= i < j < |rows| :: !TupleLess(rows[j], rows[i])
  }

  predicate StrictlyAscending(rows: seq<Row>) {
    forall i, j | 0 <= i < j < |rows| :: TupleLess(rows[i], rows[j])
  }

  function Insert(row: Row, rows: seq<Row>): seq<Row> {
    if rows == [] || !TupleLess(rows[0], row) then [row] + rows else [rows[0]] + Insert(row, rows[1..])
  }

  /** `sorted(rows)`. */
  function Sort(rows: seq<Row>): seq<Row> {
    if rows == [] then [] else Insert(rows[0], Sort(rows[1..]))
  }

  ghost predicate Wide(rows: seq<Row>, width: nat) {
    forall r | r in rows :: |r| == width
  }

  lemma {:induction false} InsertKeeps(row: Row, rows: seq<Row>)
    ensures multiset(Insert(row, rows)) == multiset(rows) + multiset{row}
    ensures forall r :: r in Insert(row, rows) <==> r in rows || r == row
  {
    if rows != [] && TupleLess(rows[0], row) {
      InsertKeeps(row, rows[1..]);
      assert rows == [rows[0]] + rows[1..];
    }
  }

  lemma {:induction false} InsertAscending(row: Row, rows: seq<Row>, width: nat)
    requires Wide(rows, width) && |row| == width && Ascending(rows)
    ensures Ascending(Insert(row, rows))
  {
    if rows == [] || !TupleLess(rows[0], row) {
      forall j | 0 <= j < |rows| ensures !TupleLess(rows[j], row) {
        NotAbove(rows, j, row, width);
      }
    } else {
      var tail := rows[1..];
      assert forall i | 0 <= i < |tail| :: tail[i] == rows[i + 1];
      assert Ascending(tail) && Wide(tail, width);
      InsertAscending(row, tail, width);
      InsertKeeps(row, tail);
      TupleOrder(row, rows[0], row);
      LeastFirst(rows[0], Insert(row, tail), rows, row);
    }
  }

  lemma LeastFirst(first: Row, out: seq<Row>, rows: seq<Row>, row: Row)
    requires rows != [] && first == rows[0] && Ascending(rows) && Ascending(out) && !TupleLess(row, first)
    requires forall r | r in out :: r in rows[1..] || r == row
    ensures Ascending([first] + out)
  {
    forall j | 0 <= j < |out| ensures !TupleLess(out[j], first) {
      assert out[j] in out;
      if out[j] != row {
        var i :| 0 <= i < |rows[1..]| && rows[1..][i] == out[j];
        assert rows[i + 1] == out[j];
      }
    }
  }

  lemma NotAbove(rows: seq<Row>, j: nat, row: Row, width: nat)
    requires Wide(rows, width) && |row| == width && Ascending(rows) && j < |rows| && !TupleLess(rows[0], row)
    ensures !TupleLess(rows[j], row)
  {
    assert rows[j] in rows && rows[0] in rows;
    TupleOrder(rows[0], rows[j], row);
    TupleOrder(rows[j], row, rows[0]);
  }

  lemma {:induction false} SortAscending(rows: seq<Row>, width: nat)
    requires Wide(rows, width)
    ensures Ascending(Sort(rows)) && Wide(Sort(rows), width) && multiset(Sort(rows)) == multiset(rows)
    ensures forall r :: r in Sort(rows) <==> r in rows
  {
    if rows != [] {
      assert rows == [rows[0]] + rows[1..];
      SortAscending(rows[1..], width);
      InsertAscending(rows[0], Sort(rows[1..]), width);
      InsertKeeps(rows[0], Sort(rows[1..]));
    }
  }

  lemma {:induction false} SortOfAscending(rows: seq<Row>)
    requires Ascending(rows)
    ensures Sort(rows) == rows
  {
    if rows != [] {
      assert forall i | 0 <= i < |rows[1..]| :: rows[1..][i] == rows[i + 1];
      SortOfAscending(rows[1..]);
      assert rows == [rows[0]] + rows[1..];
    }
  }

  // Splitting undoes joining

  predicate NoBreak(s: string) {
    forall i | 0 <= i < |s| :: !IsBreak(s[i])
  }

  /** Each line closed by a line feed. */
  function Concat(lines: seq<string>): string {
    if lines == [] then [] else lines[0] + "\n" + Concat(lines[1..])
  }

  lemma {:induction false} LineLengthExact(line: string, rest: string)
    requires NoBreak(line)
    ensures LineLength(line + "\n" + rest) == |line|
  {
    var s := line + "\n" + rest;
    if line == [] {
      assert s == "\n" + rest;
    } else {
      assert s[0] == line[0] && s[1..] == line[1..] + "\n" + rest;
      LineLengthExact(line[1..], rest);
    }
  }

  lemma {:induction false} SplitConcat(lines: seq<string>)
    requires forall l | l in lines :: NoBreak(l)
    ensures SplitLines(Concat(lines)) == lines
  {
    if lines != [] {
      var rest := Concat(lines[1..]);
      var s := lines[0] + "\n" + rest;
      LineLengthExact(lines[0], rest);
      assert s[..|lines[0]|] == lines[0] && s[|lines[0]|] == '\n' && s[|lines[0]| + 1..] == rest;
      SplitConcat(lines[1..]);
      assert lines == [lines[0]] + lines[1..];
    }
  }

  /** Every line break there is ends a line, a carriage return with its line feed as one. */
  lemma SplitAtBreak(line: string, c: char, rest: string)
    requires NoBreak(line)
    requires c as int in {10, 11, 12, 13, 28, 29, 30, 0x85, 0x2028, 0x2029}
    ensures SplitLines(line + [c] + rest)
            == [line] + SplitLines(if c == '\r' && rest != [] && rest[0] == '\n' then rest[1..] else rest)
  {
    var s := line + [c] + rest;
    BreakAt(line, c, rest);
    assert s[..|line|] == line && s[|line|] == c;
    assert s[|line| + 1..] == rest;
    if rest != [] {
      assert s[|line| + 1] == rest[0] && s[|line| + 2..] == rest[1..];
    }
  }

  lemma {:induction false} BreakAt(line: string, c: char, rest: string)
    requires NoBreak(line) && IsBreak(c)
    ensures LineLength(line + [c] + rest) == |line|
  {
    var s := line + [c] + rest;
    if line == [] {
      assert s[0] == c;
    } else {
      assert s[0] == line[0] && s[1..] == line[1..] + [c] + rest;
      BreakAt(line[1..], c, rest);
    }
  }

  lemma {:induction false} LineHasNoBreak(s: string)
    ensures NoBreak(s[..LineLength(s)])
  {
    if s != [] && !IsBreak(s[0]) {
      LineHasNoBreak(s[1..]);
      var n := LineLength(s);
      assert forall i | 0 < i < n :: s[..n][i] == s[1..][..n - 1][i - 1];
    }
  }

  lemma {:induction false} SplitLinesNoBreak(s: string)
    ensures forall l | l in SplitLines(s) :: NoBreak(l)
    decreases |s|
  {
    if s != [] {
      var n := LineLength(s);
      LineHasNoBreak(s);
      if n == |s| {
        assert s[..n] == s;
      } else {
        SplitLinesNoBreak(s[n + (if s[n] == '\r' && n + 1 < |s| && s[n + 1] == '\n' then 2 else 1)..]);
      }
    }
  }

  lemma {:induction false} WordLengthExact(word: string, rest: string)
    requires Token(word) && (rest == [] || IsSpace(rest[0]))
    ensures WordLength(word + rest) == |word|
  {
    var s := word + rest;
    assert s[0] == word[0] && s[1..] == word[1..] + rest;
    if |word| > 1 {
      WordLengthExact(word[1..], rest);
    } else {
      assert s[1..] == rest;
    }
  }

  lemma FieldsOne(word: string)
    requires Token(word)
    ensures Fields(word) == [word]
  {
    WordLengthExact(word, []);
    assert word + [] == word && word[..|word|] == word && word[|word|..] == [];
    assert Fields([]) == [];
  }

  lemma FieldsCons(word: string, rest: string)
    requires Token(word)
    ensures Fields(word + " " + rest) == [word] + Fields(rest)
  {
    var s := word + (" " + rest);
    assert word + " " + rest == s;
    WordLengthExact(word, " " + rest);
    assert StripLeft(s) == s;
    assert s[..|word|] == word && s[|word|..] == " " + rest;
    FieldsSkip(rest);
  }

  /** Words end at any whitespace of Unicode, not only at a blank. */
  lemma FieldsAtSpace(word: string, c: char, rest: string)
    requires Token(word)
    requires c as int in {9, 10, 11, 12, 13, 28, 29, 30, 31, 32, 0x85, 0xA0, 0x1680, 0x2000, 0x2001, 0x2002, 0x2003,
                          0x2004, 0x2005, 0x2006, 0x2007, 0x2008, 0x2009, 0x200A, 0x2028, 0x2029, 0x202F, 0x205F,
                          0x3000}
    ensures Fields(word + [c] + rest) == [word] + Fields(rest)
  {
    var s := word + ([c] + rest);
    assert word + [c] + rest == s;
    WordLengthExact(word, [c] + rest);
    assert StripLeft(s) == s;
    assert s[..|word|] == word && s[|word|..] == [c] + rest;
    assert ([c] + rest)[1..] == rest;
    assert StripLeft([c] + rest) == StripLeft(rest);
  }

  lemma FieldsSkip(rest: string)
    ensures Fields(" " + rest) == Fields(rest)
  {
    assert (" " + rest)[1..] == rest;
    assert StripLeft(" " + rest) == StripLeft(rest);
  }

  lemma {:induction false} WordIsToken(s: string)
    ensures forall i | 0 <= i < WordLength(s) :: !IsSpace(s[i])
  {
    if s != [] && !IsSpace(s[0]) {
      WordIsToken(s[1..]);
      assert forall i | 0 < i < WordLength(s) :: s[i] == s[1..][i - 1];
    }
  }

  lemma {:induction false} FieldsAreTokens(s: string)
    ensures forall f | f in Fields(s) :: Token(f)
    decreases |s|
  {
    StripLeftShape(s);
    var t := StripLeft(s);
    if t != [] {
      WordIsToken(t);
      FieldsAreTokens(t[WordLength(t)..]);
    }
  }

  lemma StripOfTrimmed(s: string)
    requires s != [] && !IsSpace(s[0]) && !IsSpace(s[|s| - 1])
    ensures Strip(s) == s
  {
  }
}

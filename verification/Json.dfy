/**
 JSON values and the one canonical text of each: keys sorted by code point, no
 whitespace, every non-ASCII character escaped. `Parse` reads that text back.
 */
module Json {
  import opened Prelude
  import opened Text

  /** A JSON document. An object is a map, so equality is Python's `==` on dicts. */
  datatype Json =
    | Null
    | Bool(b: bool)
    | Num(n: int)
    | Str(s: string)
    | Arr(items: seq<Json>)
    | Obj(members: map<string, Json>)

  // Writing

  /** The escape of one character inside a JSON string, as `ensure_ascii` writes it. */
  function EscapeChar(c: char): (r: string)
    ensures r != [] && Ascii(r)
  {
    var n := c as int;
    if c == '\"' then "\\\""
    else if c == '\\' then "\\\\"
    else if n == 8 then "\\b"
    else if n == 9 then "\\t"
    else if n == 10 then "\\n"
    else if n == 12 then "\\f"
    else if n == 13 then "\\r"
    else if 32 <= n < 127 then [c]
    else if n < 0x1_0000 then "\\u" + Hex4(n)
    else "\\u" + Hex4(0xD800 + (n - 0x1_0000) / 1024) + "\\u" + Hex4(0xDC00 + (n - 0x1_0000) % 1024)
  }

  function EscapeAll(s: string): string {
    if s == [] then [] else EscapeChar(s[0]) + EscapeAll(s[1..])
  }

  function Quote(s: string): string {
    "\"" + EscapeAll(s) + "\""
  }

  function Integer(n: int): string {
    if n < 0 then "-" + Decimal(-n) else Decimal(n)
  }

  /** `json.dumps(j, sort_keys=True, separators=(",", ":"), ensure_ascii=True)`. */
  function Dumps(j: Json): string
    decreases j
  {
    match j
    case Null => "null"
    case Bool(b) => if b then "true" else "false"
    case Num(n) => Integer(n)
    case Str(s) => Quote(s)
    case Arr(items) => if items == [] then "[]" else "[" + DumpItems(items)
    case Obj(members) => if members == map[] then "{}" else "{" + DumpMembers(j, SortedKeys(members.Keys))
  }

  /** The elements, separated by commas and closed by the bracket. */
  function DumpItems(items: seq<Json>): string
    requires items != []
    decreases items
  {
    if |items| == 1 then Dumps(items[0]) + "]"
    else Dumps(items[0]) + "," + DumpItems(items[1..])
  }

  /** The members of `j` in the order of `keys`, closed by the brace. */
  function DumpMembers(j: Json, keys: seq<string>): string
    requires j.Obj? && forall k | k in keys :: k in j.members
    decreases j, |keys|
  {
    if keys == [] then "}"
    else
      Quote(keys[0]) + ":" + Dumps(j.members[keys[0]])
      + (if |keys| == 1 then "}" else "," + DumpMembers(j, keys[1..]))
  }

  // Reading

  datatype Parsed<+T> = Parsed(value: T, rest: string)

  function Skip(word: string, s: string): (r: Option<string>)
    ensures r.Some? ==> s == word + r.value
  {
    if |s| >= |word| && s[..|word|] == word then Some(s[|word|..]) else None
  }

  predicate IsScalar(n: int) {
    0 <= n < 0xD800 || 0xE000 <= n < 0x11_0000
  }

  /** The character a `\u` escape denotes; a pair of surrogates is one character. */
  function ParseUnicode(s: string): (r: Option<Parsed<char>>)
    ensures r.Some? ==> |r.value.rest| < |s|
  {
    var n :- ParseHex4(s);
    if IsScalar(n) then
      Some(Parsed(n as char, s[4..]))
    else
      var low :- Skip("\\u", s[4..]);
      var m :- ParseHex4(low);
      if n < 0xDC00 && 0xDC00 <= m < 0xE000 then
        Some(Parsed((0x1_0000 + (n - 0xD800) * 1024 + (m - 0xDC00)) as char, low[4..]))
      else
        None
  }

  function ParseChar(s: string): (r: Option<Parsed<char>>)
    requires s != []
    ensures r.Some? ==> |r.value.rest| < |s|
  {
    if s[0] != '\\' then
      if s[0] as int < 32 then None else Some(Parsed(s[0], s[1..]))
    else if |s| < 2 then None
    else
      match s[1]
      case '\"' => Some(Parsed('\"', s[2..]))
      case '\\' => Some(Parsed('\\', s[2..]))
      case '/' => Some(Parsed('/', s[2..]))
      case 'b' => Some(Parsed(8 as char, s[2..]))
      case 't' => Some(Parsed(9 as char, s[2..]))
      case 'n' => Some(Parsed(10 as char, s[2..]))
      case 'f' => Some(Parsed(12 as char, s[2..]))
      case 'r' => Some(Parsed(13 as char, s[2..]))
      case 'u' => ParseUnicode(s[2..])
      case _ => None
  }

  /** The rest of a string whose opening quote has been read. */
  function ParseString(s: string): (r: Option<Parsed<string>>)
    ensures r.Some? ==> |r.value.rest| < |s|
    decreases |s|
  {
    if s == [] then None
    else if s[0] == '\"' then Some(Parsed([], s[1..]))
    else
      var c :- ParseChar(s);
      var tail :- ParseString(c.rest);
      Some(Parsed([c.value] + tail.value, tail.rest))
  }

  function ParseNat(s: string): (r: Option<Parsed<nat>>)
    ensures r.Some? ==> |r.value.rest| < |s|
  {
    var n := DigitRun(s);
    if n == 0 then None else Some(Parsed(DecimalValue(s[..n]), s[n..]))
  }

  function ParseNumber(s: string): (r: Option<Parsed<Json>>)
    ensures r.Some? ==> |r.value.rest| < |s|
  {
    if s != [] && s[0] == '-' then
      var p :- ParseNat(s[1..]);
      Some(Parsed(Num(0 - p.value), p.rest))
    else
      var p :- ParseNat(s);
      Some(Parsed(Num(p.value), p.rest))
  }

  function ParseWord(word: string, value: Json, s: string): (r: Option<Parsed<Json>>)
    requires word != []
    ensures r.Some? ==> |r.value.rest| < |s|
  {
    var rest :- Skip(word, s);
    Some(Parsed(value, rest))
  }

  /** Reads one value from the front of `s` (compact JSON: no insignificant whitespace). */
  function Parse(s: string): (r: Option<Parsed<Json>>)
    ensures r.Some? ==> |r.value.rest| < |s|
    decreases |s|, 0
  {
    if s == [] then None
    else
      match s[0]
      case 'n' => ParseWord("null", Null, s)
      case 't' => ParseWord("true", Bool(true), s)
      case 'f' => ParseWord("false", Bool(false), s)
      case '\"' =>
        var p :- ParseString(s[1..]);
        Some(Parsed(Str(p.value), p.rest))
      case '[' =>
        if |s| > 1 && s[1] == ']' then Some(Parsed(Arr([]), s[2..]))
        else
          var p :- ParseItems(s[1..]);
          Some(Parsed(Arr(p.value), p.rest))
      case '{' =>
        if |s| > 1 && s[1] == '}' then Some(Parsed(Obj(map[]), s[2..]))
        else
          var p :- ParseMembers(s[1..]);
          Some(Parsed(Obj(FromPairs(p.value)), p.rest))
      case _ => ParseNumber(s)
  }

  function ParseItems(s: string): (r: Option<Parsed<seq<Json>>>)
    ensures r.Some? ==> |r.value.rest| < |s|
    decreases |s|, 1
  {
    var head :- Parse(s);
    if head.rest == [] then None
    else if head.rest[0] == ']' then Some(Parsed([head.value], head.rest[1..]))
    else if head.rest[0] == ',' then
      var tail :- ParseItems(head.rest[1..]);
      Some(Parsed([head.value] + tail.value, tail.rest))
    else None
  }

  /** A quoted key and the colon after it. */
  function ParseKey(s: string): (r: Option<Parsed<string>>)
    ensures r.Some? ==> |r.value.rest| < |s|
  {
    var quoted :- Skip("\"", s);
    var key :- ParseString(quoted);
    var body :- Skip(":", key.rest);
    Some(Parsed(key.value, body))
  }

  /** Reads the members, in text order, up to the closing brace. */
  function ParseMembers(s: string): (r: Option<Parsed<seq<(string, Json)>>>)
    ensures r.Some? ==> |r.value.rest| < |s|
    decreases |s|, 1
  {
    var key :- ParseKey(s);
    var value :- Parse(key.rest);
    if value.rest == [] then None
    else if value.rest[0] == '}' then Some(Parsed([(key.value, value.value)], value.rest[1..]))
    else if value.rest[0] == ',' then
      var tail :- ParseMembers(value.rest[1..]);
      Some(Parsed([(key.value, value.value)] + tail.value, tail.rest))
    else None
  }

  /** The dict a list of members makes: of two equal keys the later one stands. */
  function FromPairs(pairs: seq<(string, Json)>): map<string, Json> {
    if pairs == [] then map[] else map[pairs[0].0 := pairs[0].1] + FromPairs(pairs[1..])
  }

  /** `json.loads(text)`: one value and nothing after it. */
  function Loads(text: string): Option<Json> {
    var p :- Parse(text);
    if p.rest == [] then Some(p.value) else None
  }

  // Reading inverts writing

  lemma SkipExact(word: string, s: string)
    ensures Skip(word, word + s) == Some(s)
  {
    assert (word + s)[..|word|] == word && (word + s)[|word|..] == s;
  }

  predicate Plain(c: char) {
    32 <= c as int < 127 && c != '\"' && c != '\\'
  }

  predicate Short(c: char) {
    c == '\"' || c == '\\' || 8 <= c as int <= 10 || 12 <= c as int <= 13
  }

  lemma ShortRoundTrip(c: char, rest: string)
    requires Short(c)
    ensures |EscapeChar(c)| == 2 && EscapeChar(c)[0] == '\\'
    ensures ParseChar(EscapeChar(c) + rest) == Some(Parsed(c, rest))
  {
    var e := EscapeChar(c);
    var s := e + rest;
    assert s[0] == '\\' && s[1] == e[1] && s[2..] == rest;
  }

  function UnicodeCode(c: char): string
    requires !Plain(c) && !Short(c)
  {
    var n := c as int;
    if n < 0x1_0000 then Hex4(n)
    else Hex4(0xD800 + (n - 0x1_0000) / 1024) + "\\u" + Hex4(0xDC00 + (n - 0x1_0000) % 1024)
  }

  lemma SurrogatePairRoundTrip(n: int, rest: string)
    requires 0x1_0000 <= n < 0x11_0000
    ensures ParseUnicode(Hex4(0xD800 + (n - 0x1_0000) / 1024) + "\\u" + Hex4(0xDC00 + (n - 0x1_0000) % 1024) + rest)
            == Some(Parsed(n as char, rest))
  {
    var hi, lo := 0xD800 + (n - 0x1_0000) / 1024, 0xDC00 + (n - 0x1_0000) % 1024;
    assert 0x1_0000 + (hi - 0xD800) * 1024 + (lo - 0xDC00) == n;
    var low := Hex4(lo) + rest;
    var s := Hex4(hi) + "\\u" + Hex4(lo) + rest;
    assert s == Hex4(hi) + ("\\u" + low);
    Hex4RoundTrip(hi, "\\u" + low);
    Hex4RoundTrip(lo, rest);
    SkipExact("\\u", low);
    PairText(s, hi, lo, low, rest);
  }

  lemma PairText(s: string, hi: int, lo: int, low: string, rest: string)
    requires 0xD800 <= hi < 0xDC00 <= lo < 0xE000
    requires |s| >= 4 && |low| >= 4 && low[4..] == rest
    requires ParseHex4(s) == Some(hi) && ParseHex4(low) == Some(lo) && Skip("\\u", s[4..]) == Some(low)
    ensures ParseUnicode(s) == Some(Parsed((0x1_0000 + (hi - 0xD800) * 1024 + (lo - 0xDC00)) as char, rest))
  {
  }

  lemma BasicPlaneRoundTrip(n: int, rest: string)
    requires IsScalar(n) && n < 0x1_0000
    ensures ParseUnicode(Hex4(n) + rest) == Some(Parsed(n as char, rest))
  {
    Hex4RoundTrip(n, rest);
    assert (Hex4(n) + rest)[4..] == rest;
  }

  lemma UnicodeRoundTrip(c: char, rest: string)
    requires !Plain(c) && !Short(c)
    ensures ParseUnicode(UnicodeCode(c) + rest) == Some(Parsed(c, rest))
  {
    var n := c as int;
    var code := UnicodeCode(c);
    if n < 0x1_0000 {
      assert code == Hex4(n);
      BasicPlaneRoundTrip(n, rest);
    } else {
      assert code == Hex4(0xD800 + (n - 0x1_0000) / 1024) + "\\u" + Hex4(0xDC00 + (n - 0x1_0000) % 1024);
      SurrogatePairRoundTrip(n, rest);
    }
  }

  lemma EscapeCharUnicode(c: char)
    requires !Plain(c) && !Short(c)
    ensures EscapeChar(c) == "\\u" + UnicodeCode(c)
  {
    var n := c as int;
    if n >= 0x1_0000 {
      var hi, lo := Hex4(0xD800 + (n - 0x1_0000) / 1024), Hex4(0xDC00 + (n - 0x1_0000) % 1024);
      assert "\\u" + hi + "\\u" + lo == "\\u" + (hi + "\\u" + lo);
    }
  }

  lemma ParseCharUnicode(code: string)
    ensures ParseChar("\\u" + code) == ParseUnicode(code)
  {
    var s := "\\u" + code;
    assert s[0] == '\\' && s[1] == 'u' && s[2..] == code;
  }

  lemma CharRoundTrip(c: char, rest: string)
    ensures ParseChar(EscapeChar(c) + rest) == Some(Parsed(c, rest))
    ensures (EscapeChar(c) + rest)[0] != '\"'
  {
    if Plain(c) {
      assert EscapeChar(c) == [c];
      assert ([c] + rest)[1..] == rest;
    } else if Short(c) {
      ShortRoundTrip(c, rest);
    } else {
      EscapeCharUnicode(c);
      assert "\\u" + UnicodeCode(c) + rest == "\\u" + (UnicodeCode(c) + rest);
      ParseCharUnicode(UnicodeCode(c) + rest);
      UnicodeRoundTrip(c, rest);
    }
  }

  lemma ParseStringStep(text: string, c: char, tail: string, s: string, rest: string)
    requires text != [] && text[0] != '\"' && ParseChar(text) == Some(Parsed(c, tail))
    requires ParseString(tail) == Some(Parsed(s, rest))
    ensures ParseString(text) == Some(Parsed([c] + s, rest))
  {
  }

  lemma Assoc(a: string, b: string, c: string, d: string)
    ensures a + b + c + d == a + (b + c + d)
  {
  }

  lemma {:induction false} StringRoundTrip(s: string, rest: string)
    ensures ParseString(EscapeAll(s) + "\"" + rest) == Some(Parsed(s, rest))
  {
    if s == [] {
      var text := "\"" + rest;
      assert EscapeAll(s) + "\"" + rest == text;
      assert text[1..] == rest;
    } else {
      var tail := EscapeAll(s[1..]) + "\"" + rest;
      StringRoundTrip(s[1..], rest);
      Assoc(EscapeChar(s[0]), EscapeAll(s[1..]), "\"", rest);
      CharRoundTrip(s[0], tail);
      ParseStringStep(EscapeChar(s[0]) + tail, s[0], tail, s[1..], rest);
      assert s == [s[0]] + s[1..];
    }
  }

  /** A numeral ends where the digits do. */
  predicate NoDigitAhead(rest: string) {
    rest == [] || !IsDigit(rest[0])
  }

  lemma NatRoundTrip(n: nat, rest: string)
    requires NoDigitAhead(rest)
    ensures ParseNat(Decimal(n) + rest) == Some(Parsed(n, rest))
  {
    var digits := Decimal(n);
    DigitRunExact(digits, rest);
    DecimalRoundTrip(n);
    assert (digits + rest)[..|digits|] == digits && (digits + rest)[|digits|..] == rest;
  }

  lemma DecimalFirst(n: nat)
    ensures IsDigit(Decimal(n)[0])
  {
    assert Decimal(n)[0] in Decimal(n);
  }

  lemma SignedNumeral(m: nat, digits: string, rest: string)
    requires digits != [] && IsDigit(digits[0]) && ParseNat(digits + rest) == Some(Parsed(m, rest))
    ensures ParseNumber(digits + rest) == Some(Parsed(Num(m), rest))
    ensures ParseNumber("-" + digits + rest) == Some(Parsed(Num(0 - m), rest))
  {
    assert (digits + rest)[0] == digits[0];
    assert "-" + digits + rest == "-" + (digits + rest);
    assert ("-" + (digits + rest))[1..] == digits + rest;
  }

  lemma IntegerRoundTrip(n: int, rest: string)
    requires NoDigitAhead(rest)
    ensures Integer(n) != [] && (IsDigit(Integer(n)[0]) || Integer(n)[0] == '-')
    ensures ParseNumber(Integer(n) + rest) == Some(Parsed(Num(n), rest))
  {
    var m: nat := if n < 0 then -n else n;
    NatRoundTrip(m, rest);
    DecimalFirst(m);
    SignedNumeral(m, Decimal(m), rest);
  }

  lemma QuoteSplit(s: string, rest: string)
    ensures Quote(s) + rest == "\"" + (EscapeAll(s) + "\"" + rest)
  {
  }

  lemma KeyRoundTrip(k: string, rest: string)
    ensures ParseKey(Quote(k) + ":" + rest) == Some(Parsed(k, rest))
  {
    var after := EscapeAll(k) + "\"" + (":" + rest);
    QuoteSplit(k, ":" + rest);
    assert Quote(k) + ":" + rest == "\"" + after;
    SkipExact("\"", after);
    StringRoundTrip(k, ":" + rest);
    SkipExact(":", rest);
  }

  /** No value's text can be mistaken for a closing bracket. */
  lemma FirstChar(j: Json)
    ensures Dumps(j) != [] && Dumps(j)[0] != ']' && Dumps(j)[0] != '}'
  {
    if j.Num? {
      IntegerRoundTrip(j.n, []);
    }
  }

  lemma ParseStringText(body: string, s: string, rest: string)
    requires ParseString(body) == Some(Parsed(s, rest))
    ensures Parse("\"" + body) == Some(Parsed(Str(s), rest))
  {
    assert ("\"" + body)[1..] == body;
  }

  lemma ParseArrayText(body: string, items: seq<Json>, rest: string)
    requires body != [] && body[0] != ']' && ParseItems(body) == Some(Parsed(items, rest))
    ensures Parse("[" + body) == Some(Parsed(Arr(items), rest))
  {
    var s := "[" + body;
    assert s[1..] == body && s[1] == body[0];
  }

  lemma ParseObjectText(body: string, pairs: seq<(string, Json)>, rest: string)
    requires body != [] && body[0] != '}' && ParseMembers(body) == Some(Parsed(pairs, rest))
    ensures Parse("{" + body) == Some(Parsed(Obj(FromPairs(pairs)), rest))
  {
    var s := "{" + body;
    assert s[1..] == body && s[1] == body[0];
  }

  lemma ParseNumberText(s: string)
    requires s != [] && (IsDigit(s[0]) || s[0] == '-')
    ensures Parse(s) == ParseNumber(s)
  {
  }

  lemma ParseWordText(word: string, rest: string)
    requires word == "null" || word == "true" || word == "false"
    ensures Parse(word + rest) == Some(Parsed(if word == "null" then Null else Bool(word == "true"), rest))
  {
    SkipExact(word, rest);
  }

  lemma {:induction false} ParseDumps(j: Json, rest: string)
    requires NoDigitAhead(rest)
    ensures Parse(Dumps(j) + rest) == Some(Parsed(j, rest))
    decreases j, 2
  {
    match j
    case Null =>
      ParseWordText("null", rest);
    case Bool(b) =>
      ParseWordText(if b then "true" else "false", rest);
    case Num(n) =>
      IntegerRoundTrip(n, rest);
      ParseNumberText(Integer(n) + rest);
    case Str(s) =>
      StringRoundTrip(s, rest);
      QuoteSplit(s, rest);
      ParseStringText(EscapeAll(s) + "\"" + rest, s, rest);
    case Arr(items) =>
      ParseDumpArray(j, rest);
    case Obj(members) =>
      ParseDumpObject(j, rest);
  }

  lemma {:induction false} ParseDumpArray(j: Json, rest: string)
    requires j.Arr?
    ensures Parse(Dumps(j) + rest) == Some(Parsed(j, rest))
    decreases j, 1
  {
    var text := Dumps(j) + rest;
    if j.items == [] {
      assert text == "[]" + rest && text[2..] == rest;
    } else {
      var body := DumpItems(j.items) + rest;
      assert text == "[" + body;
      FirstChar(j.items[0]);
      ParseDumpItems(j.items, rest);
      assert body[0] == DumpItems(j.items)[0];
      ParseArrayText(body, j.items, rest);
    }
  }

  lemma {:induction false} ParseDumpObject(j: Json, rest: string)
    requires j.Obj?
    ensures Parse(Dumps(j) + rest) == Some(Parsed(j, rest))
    decreases j, 1
  {
    if j.members == map[] {
      assert ("{}" + rest)[2..] == rest;
    } else {
      KeysCover(j.members);
      var keys := SortedKeys(j.members.Keys);
      ParseDumpMembers(j, keys, rest);
      DumpMembersSplit(j, keys, rest);
      ObjectText(j, DumpMembers(j, keys), rest);
      ParseObjectText(DumpMembers(j, keys) + rest, Pairs(j.members, keys), rest);
    }
  }

  lemma ObjectText(j: Json, body: string, rest: string)
    requires j.Obj? && j.members != map[] && body == DumpMembers(j, SortedKeys(j.members.Keys))
    ensures Dumps(j) + rest == "{" + (body + rest)
  {
    Braced(Dumps(j), body, rest);
  }

  lemma Braced(text: string, body: string, rest: string)
    requires text == "{" + body
    ensures text + rest == "{" + (body + rest)
  {
  }

  function Pairs(m: map<string, Json>, keys: seq<string>): seq<(string, Json)>
    requires forall k | k in keys :: k in m
  {
    if keys == [] then [] else [(keys[0], m[keys[0]])] + Pairs(m, keys[1..])
  }

  lemma {:induction false} FromPairsExact(m: map<string, Json>, keys: seq<string>)
    requires forall k | k in keys :: k in m
    ensures FromPairs(Pairs(m, keys)).Keys == set k | k in keys
    ensures forall k | k in keys :: FromPairs(Pairs(m, keys))[k] == m[k]
  {
    if keys != [] {
      FromPairsExact(m, keys[1..]);
      var pairs := Pairs(m, keys);
      assert pairs[1..] == Pairs(m, keys[1..]);
      assert keys == [keys[0]] + keys[1..];
    }
  }

  lemma KeysCover(m: map<string, Json>)
    ensures FromPairs(Pairs(m, SortedKeys(m.Keys))) == m
    ensures m != map[] ==> SortedKeys(m.Keys) != []
  {
    var keys := SortedKeys(m.Keys);
    assert forall k :: k in keys <==> k in m;
    FromPairsExact(m, keys);
    SameMap(FromPairs(Pairs(m, keys)), m, keys);
    if m != map[] {
      var k :| k in m;
      assert k in keys;
    }
  }

  lemma SameMap(a: map<string, Json>, b: map<string, Json>, keys: seq<string>)
    requires forall k :: k in keys <==> k in b
    requires a.Keys == (set k | k in keys) && forall k | k in keys :: a[k] == b[k]
    ensures a == b
  {
    assert forall k :: k in a.Keys <==> k in b;
  }

  lemma {:induction false} ParseDumpItems(items: seq<Json>, rest: string)
    requires items != []
    ensures ParseItems(DumpItems(items) + rest) == Some(Parsed(items, rest))
    ensures DumpItems(items)[0] == Dumps(items[0])[0]
    decreases items, 0
  {
    var text := DumpItems(items) + rest;
    FirstChar(items[0]);
    if |items| == 1 {
      assert text == Dumps(items[0]) + ("]" + rest);
      ParseDumps(items[0], "]" + rest);
      assert ("]" + rest)[1..] == rest;
      assert items == [items[0]];
    } else {
      var tail := DumpItems(items[1..]) + rest;
      assert text == Dumps(items[0]) + ("," + tail);
      ParseDumps(items[0], "," + tail);
      assert ("," + tail)[1..] == tail;
      ParseDumpItems(items[1..], rest);
      assert items == [items[0]] + items[1..];
    }
  }

  /** What `ParseMembers` does with one member followed by `closing`. */
  lemma ParseOneMember(k: string, v: Json, text: string, closing: string)
    requires closing != [] && Parse(text + closing) == Some(Parsed(v, closing))
    ensures var r := ParseMembers(Quote(k) + ":" + text + closing);
            && (closing[0] == '}' ==> r == Some(Parsed([(k, v)], closing[1..])))
            && (closing[0] == ',' && ParseMembers(closing[1..]).Some? ==>
                  var tail := ParseMembers(closing[1..]).value;
                  r == Some(Parsed([(k, v)] + tail.value, tail.rest)))
  {
    var rest := text + closing;
    assert Quote(k) + ":" + text + closing == Quote(k) + ":" + rest;
    KeyRoundTrip(k, rest);
  }

  lemma DumpMembersSplit(j: Json, keys: seq<string>, rest: string)
    requires j.Obj? && keys != [] && forall k | k in keys :: k in j.members
    ensures DumpMembers(j, keys)[0] == '\"'
    ensures DumpMembers(j, keys) + rest
            == Quote(keys[0]) + ":" + Dumps(j.members[keys[0]])
               + (if |keys| == 1 then "}" + rest else "," + (DumpMembers(j, keys[1..]) + rest))
  {
    var head := Quote(keys[0]) + ":" + Dumps(j.members[keys[0]]);
    if |keys| == 1 {
      assert head + "}" + rest == head + ("}" + rest);
    } else {
      var tail := DumpMembers(j, keys[1..]);
      assert head + ("," + tail) + rest == head + ("," + (tail + rest));
    }
  }

  lemma {:induction false} ParseDumpMembers(j: Json, keys: seq<string>, rest: string)
    requires j.Obj? && keys != [] && forall k | k in keys :: k in j.members
    ensures ParseMembers(DumpMembers(j, keys) + rest) == Some(Parsed(Pairs(j.members, keys), rest))
    decreases j, 0, |keys|
  {
    DumpMembersSplit(j, keys, rest);
    var v := j.members[keys[0]];
    var tail := if |keys| == 1 then rest else DumpMembers(j, keys[1..]) + rest;
    var closing := (if |keys| == 1 then "}" else ",") + tail;
    assert closing[1..] == tail;
    ParseDumps(v, closing);
    if |keys| > 1 {
      ParseDumpMembers(j, keys[1..], rest);
    }
    ParseOneMember(keys[0], v, Dumps(v), closing);
    if |keys| == 1 {
      assert Pairs(j.members, keys) == [(keys[0], v)] + Pairs(j.members, keys[1..]) == [(keys[0], v)];
    }
  }

  /** Reading the canonical text of a value gives the value back. */
  lemma LoadsDumps(j: Json)
    ensures Loads(Dumps(j)) == Some(j)
  {
    ParseDumps(j, []);
    assert Dumps(j) + [] == Dumps(j);
  }

  /** Two values with the same canonical text are equal. */
  lemma DumpsInjective(a: Json, b: Json)
    requires Dumps(a) == Dumps(b)
    ensures a == b
  {
    LoadsDumps(a);
    LoadsDumps(b);
  }

  // Canonical text is ASCII

  lemma {:induction false} QuoteAscii(s: string)
    ensures Ascii(EscapeAll(s)) && Ascii(Quote(s))
  {
    if s != [] {
      QuoteAscii(s[1..]);
    }
  }

  lemma IntegerAscii(n: int)
    ensures Ascii(Integer(n))
  {
    var digits := Decimal(if n < 0 then -n else n);
    forall i | 0 <= i < |digits| ensures digits[i] as int < 0x80 {
      assert digits[i] in digits;
    }
  }

  lemma JoinedAscii(a: string, b: string)
    requires Ascii(a) && Ascii(b)
    ensures Ascii(a + b)
  {
  }

  lemma {:induction false} DumpsAscii(j: Json)
    ensures Ascii(Dumps(j))
    decreases j, 1
  {
    match j
    case Null =>
    case Bool(b) =>
    case Num(n) => IntegerAscii(n);
    case Str(s) => QuoteAscii(s);
    case Arr(items) =>
      if items != [] {
        DumpItemsAscii(items);
        JoinedAscii("[", DumpItems(items));
      }
    case Obj(members) =>
      if members != map[] {
        DumpMembersAscii(j, SortedKeys(members.Keys));
        JoinedAscii("{", DumpMembers(j, SortedKeys(members.Keys)));
      }
  }

  lemma {:induction false} DumpItemsAscii(items: seq<Json>)
    requires items != []
    ensures Ascii(DumpItems(items))
    decreases items, 0
  {
    DumpsAscii(items[0]);
    if |items| > 1 {
      DumpItemsAscii(items[1..]);
    }
  }

  lemma {:induction false} DumpMembersAscii(j: Json, keys: seq<string>)
    requires j.Obj? && forall k | k in keys :: k in j.members
    ensures Ascii(DumpMembers(j, keys))
    decreases j, 0, |keys|
  {
    if keys != [] {
      QuoteAscii(keys[0]);
      DumpsAscii(j.members[keys[0]]);
      DumpMembersAscii(j, keys[1..]);
    }
  }
}

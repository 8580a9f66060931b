/** The lock survives being rendered and parsed, and every valid move leaves a lock that parses. */
module LockProofs {
  import opened Prelude
  import opened Text
  import opened ArtifactLock
  import opened LockFile

  // One line

  /** A pin the parser accepts on its own line. */
  predicate CleanPin(p: Pin) {
    PinProblems(p) == [] && p.version != ""
  }

  lemma PinParts(p: Pin)
    requires PinProblems(p) == []
    ensures GoodName(p.name) && GoodPlatform(p.platform) && GoodSha(p.sha256) && GoodUrl(p.url)
            && Contains(p.url, p.version)
  {
  }

  lemma UrlToken(url: string, version: string)
    requires GoodUrl(url) && Contains(url, version)
    ensures Token(url) && (version != "" ==> Token(version))
  {
    forall i | 0 <= i < |url| ensures !IsSpace(url[i]) {
      assert IsUrlChar(url[i]);
    }
    var i :| 0 <= i <= |url| && version <= url[i..];
    forall j | 0 <= j < |version| ensures !IsSpace(version[j]) {
      assert version[j] == url[i..][j] == url[i + j];
    }
  }

  lemma NameToken(s: string)
    requires GoodName(s)
    ensures Token(s) && s[0] != '#'
  {
    forall i | 0 <= i < |s| ensures !IsSpace(s[i]) {
      assert IsNameChar(s[i]) || s[i] == '-';
    }
  }

  lemma PlatformToken(s: string)
    requires GoodPlatform(s)
    ensures Token(s)
  {
  }

  lemma ShaToken(s: string)
    requires GoodSha(s)
    ensures Token(s)
  {
  }

  lemma PinTokens(p: Pin)
    requires PinProblems(p) == []
    ensures Token(p.name) && Token(p.platform) && Token(p.sha256) && Token(p.url)
    ensures p.version != "" ==> Token(p.version)
    ensures p.name[0] != '#'
  {
    PinParts(p);
    NameToken(p.name);
    PlatformToken(p.platform);
    ShaToken(p.sha256);
    UrlToken(p.url, p.version);
  }

  lemma BreakIsSpace(c: char)
    ensures IsBreak(c) ==> IsSpace(c)
  {
  }

  lemma JoinNoBreak(a: string, rest: string)
    requires Token(a) && NoBreak(rest)
    ensures NoBreak(a + " " + rest)
  {
    forall i | 0 <= i < |a| ensures !IsBreak(a[i]) {
      BreakIsSpace(a[i]);
    }
  }

  lemma TokenNoBreak(a: string)
    requires Token(a)
    ensures NoBreak(a)
  {
    forall i | 0 <= i < |a| ensures !IsBreak(a[i]) {
      BreakIsSpace(a[i]);
    }
  }

  lemma LastOf(a: string, rest: string)
    requires rest != []
    ensures (a + " " + rest)[|a + " " + rest| - 1] == rest[|rest| - 1]
  {
  }

  lemma TwoFields(a: string, b: string)
    requires Token(a) && Token(b)
    ensures Fields(a + " " + b) == [a, b] && NoBreak(a + " " + b)
  {
    FieldsOne(b);
    FieldsCons(a, b);
    TokenNoBreak(b);
    JoinNoBreak(a, b);
  }

  lemma MoreFields(a: string, b: string, rest: string)
    requires Token(a) && Token(b)
    ensures Fields(a + " " + (b + " " + rest)) == [a, b] + Fields(rest)
    ensures NoBreak(rest) ==> NoBreak(a + " " + (b + " " + rest))
  {
    FieldsCons(b, rest);
    FieldsCons(a, b + " " + rest);
    if NoBreak(rest) {
      JoinNoBreak(b, rest);
      JoinNoBreak(a, b + " " + rest);
    }
  }

  /** The words of a pin's line: five, or four when the version is empty. */
  lemma PinFields(p: Pin)
    requires PinProblems(p) == []
    ensures Fields(p.Line()) == if p.version != "" then p.Columns() else [p.name, p.platform, p.sha256, p.url]
    ensures NoBreak(p.Line())
  {
    PinTokens(p);
    LineFields(p.name, p.platform, p.version, p.sha256, p.url);
  }

  /** A missing version leaves no word. */
  lemma VersionFields(version: string, rest: string)
    requires (version != "" ==> Token(version)) && NoBreak(rest)
    ensures Fields(version + " " + rest) == (if version != "" then [version] else []) + Fields(rest)
    ensures NoBreak(version + " " + rest)
  {
    if version != "" {
      FieldsCons(version, rest);
      JoinNoBreak(version, rest);
    } else {
      assert version + " " + rest == " " + rest;
      FieldsSkip(rest);
    }
  }

  lemma LineFields(name: string, platform: string, version: string, sha: string, url: string)
    requires Token(name) && Token(platform) && Token(sha) && Token(url) && (version != "" ==> Token(version))
    ensures var line := name + " " + (platform + " " + (version + " " + (sha + " " + url)));
            && Fields(line) == [name, platform] + ((if version != "" then [version] else []) + [sha, url])
            && NoBreak(line)
  {
    TwoFields(sha, url);
    VersionFields(version, sha + " " + url);
    MoreFields(name, platform, version + " " + (sha + " " + url));
  }

  lemma LineIsTrimmed(p: Pin)
    requires PinProblems(p) == []
    ensures Strip(p.Line()) == p.Line() && p.Line() != [] && p.Line()[0] != '#'
  {
    PinTokens(p);
    var s := p.Line();
    LastOf(p.sha256, p.url);
    LastOf(p.version, p.sha256 + " " + p.url);
    LastOf(p.platform, p.version + " " + (p.sha256 + " " + p.url));
    LastOf(p.name, p.platform + " " + (p.version + " " + (p.sha256 + " " + p.url)));
    assert s[0] == p.name[0] && s[|s| - 1] == p.url[|p.url| - 1];
    StripOfTrimmed(s);
  }

  lemma ClassifyPin(p: Pin)
    requires PinProblems(p) == []
    ensures Classify(p.Line()) == if p.version != "" then Pinned(p, []) else Wrong(4)
  {
    LineIsTrimmed(p);
    PinFields(p);
    assert UNUSED_MARK[0] == '#';
  }

  predicate TokenKey(k: Key) {
    Token(k.0) && Token(k.1)
  }

  lemma ClassifyUnused(k: Key)
    requires TokenKey(k)
    ensures Classify(UnusedLine(k)) == Unused(k) && NoBreak(UnusedLine(k))
  {
    var rest := k.0 + " " + k.1;
    var s := UNUSED_MARK + " " + rest;
    assert Token(UNUSED_MARK);
    FieldsOne(k.1);
    FieldsCons(k.0, k.1);
    FieldsCons(UNUSED_MARK, rest);
    LastOf(k.0, k.1);
    LastOf(UNUSED_MARK, rest);
    StripOfTrimmed(s);
    assert s[..|UNUSED_MARK|] == UNUSED_MARK;
    TokenNoBreak(k.1);
    JoinNoBreak(k.0, k.1);
    JoinNoBreak(UNUSED_MARK, rest);
    assert Fields(s) == [UNUSED_MARK, k.0, k.1];
  }

  // A run of lines of one kind

  lemma {:induction false} ScanSplit(lock: Lock, n: nat, a: seq<Reading>, b: seq<Reading>)
    ensures Scan(lock, n, a + b) == Scan(Scan(lock, n, a), n + |a|, b)
    decreases |a|
  {
    if a == [] {
      assert a + b == b;
    } else {
      assert (a + b)[0] == a[0] && (a + b)[1..] == a[1..] + b;
      ScanSplit(Absorb(lock, n, a[0]), n + 1, a[1..], b);
    }
  }

  predicate CommentLine(s: string) {
    Classify(s) == Comment && NoBreak(s)
  }

  function Comments(lines: seq<string>): (r: seq<Reading>)
    ensures |r| == |lines| && forall i | 0 <= i < |r| :: r[i] == Reading(lines[i], Comment)
  {
    seq(|lines|, i requires 0 <= i < |lines| => Reading(lines[i], Comment))
  }

  function PinReadings(pins: seq<Pin>): (r: seq<Reading>)
    ensures |r| == |pins| && forall i | 0 <= i < |r| :: r[i] == Reading(pins[i].Line(), Pinned(pins[i], []))
  {
    seq(|pins|, i requires 0 <= i < |pins| => Reading(pins[i].Line(), Pinned(pins[i], [])))
  }

  function UnusedReadings(keys: seq<Key>): (r: seq<Reading>)
    ensures |r| == |keys| && forall i | 0 <= i < |r| :: r[i] == Reading(UnusedLine(keys[i]), Unused(keys[i]))
  {
    seq(|keys|, i requires 0 <= i < |keys| => Reading(UnusedLine(keys[i]), Unused(keys[i])))
  }

  lemma ReadComments(lines: seq<string>)
    requires forall l | l in lines :: CommentLine(l)
    ensures ReadLines(lines) == Comments(lines)
  {
    forall i | 0 <= i < |lines| ensures Classify(lines[i]) == Comment {
      assert CommentLine(lines[i]);
    }
  }

  lemma ReadPins(pins: seq<Pin>)
    requires forall p | p in pins :: CleanPin(p)
    ensures ReadLines(PinLines(pins)) == PinReadings(pins)
  {
    forall i | 0 <= i < |pins| ensures Classify(pins[i].Line()) == Pinned(pins[i], []) {
      assert CleanPin(pins[i]);
      ClassifyPin(pins[i]);
    }
  }

  lemma ReadUnused(keys: seq<Key>)
    requires forall k | k in keys :: TokenKey(k)
    ensures ReadLines(UnusedLines(keys)) == UnusedReadings(keys)
  {
    forall i | 0 <= i < |keys| ensures Classify(UnusedLine(keys[i])) == Unused(keys[i]) {
      assert TokenKey(keys[i]);
      ClassifyUnused(keys[i]);
    }
  }

  lemma ReadSplit(a: seq<string>, b: seq<string>)
    ensures ReadLines(a + b) == ReadLines(a) + ReadLines(b)
  {
  }

  lemma {:induction false} ScanComments(lock: Lock, n: nat, lines: seq<string>)
    ensures Scan(lock, n, Comments(lines))
            == if lock.pins != [] then lock.(tail := lock.tail + lines) else lock.(head := lock.head + lines)
    decreases |lines|
  {
    if lines == [] {
      assert lock.tail + lines == lock.tail && lock.head + lines == lock.head;
    } else {
      ScanComments(Absorb(lock, n, Comments(lines)[0]), n + 1, lines[1..]);
      assert Comments(lines)[1..] == Comments(lines[1..]);
      assert lock.tail + [lines[0]] + lines[1..] == lock.tail + lines;
      assert lock.head + [lines[0]] + lines[1..] == lock.head + lines;
    }
  }

  lemma {:induction false} ScanPins(lock: Lock, n: nat, pins: seq<Pin>)
    ensures Scan(lock, n, PinReadings(pins)) == lock.(pins := lock.pins + pins)
    decreases |pins|
  {
    if pins == [] {
      assert lock.pins + pins == lock.pins;
    } else {
      assert lock.errors + BadPins(n, []) == lock.errors;
      ScanPins(lock.(pins := lock.pins + [pins[0]]), n + 1, pins[1..]);
      assert PinReadings(pins)[1..] == PinReadings(pins[1..]);
      assert lock.pins + [pins[0]] + pins[1..] == lock.pins + pins;
    }
  }

  lemma {:induction false} ScanUnused(lock: Lock, n: nat, keys: seq<Key>)
    ensures Scan(lock, n, UnusedReadings(keys)) == lock.(unused := lock.unused + keys)
    decreases |keys|
  {
    if keys == [] {
      assert lock.unused + keys == lock.unused;
    } else {
      ScanUnused(lock.(unused := lock.unused + [keys[0]]), n + 1, keys[1..]);
      assert UnusedReadings(keys)[1..] == UnusedReadings(keys[1..]);
      assert lock.unused + [keys[0]] + keys[1..] == lock.unused + keys;
    }
  }

  // Order and multiplicity

  lemma {:induction false} DistinctMultiplicity(s: seq<Row>, x: Row)
    requires Distinct(s)
    ensures multiset(s)[x] <= 1
  {
    if s != [] {
      var tail := s[1..];
      assert s == [s[0]] + tail;
      assert forall i | 0 <= i < |tail| :: tail[i] == s[i + 1];
      DistinctMultiplicity(tail, x);
    }
  }

  lemma RepeatMultiplicity(s: seq<Row>, i: nat, j: nat)
    requires i < j < |s| && s[i] == s[j]
    ensures multiset(s)[s[i]] >= 2
  {
    assert s == s[..i] + [s[i]] + s[i + 1..j] + [s[j]] + s[j + 1..];
  }

  /** Reordering neither makes nor removes duplicates. */
  lemma PermutedDistinct(a: seq<Row>, b: seq<Row>)
    requires multiset(a) == multiset(b) && Distinct(a)
    ensures Distinct(b)
  {
    forall i, j | 0 <= i < j < |b| ensures b[i] != b[j] {
      if b[i] == b[j] {
        RepeatMultiplicity(b, i, j);
        DistinctMultiplicity(a, b[i]);
        assert false;
      }
    }
  }

  lemma KeyRowLess(a: Key, b: Key)
    ensures TupleLess(KeyRow(a), KeyRow(b)) <==> Less(a.0, b.0) || (a.0 == b.0 && Less(a.1, b.1))
  {
    var x, y := KeyRow(a), KeyRow(b);
    assert x[1..] == [a.1] && y[1..] == [b.1];
    assert [a.1][1..] == [];
    assert !TupleLess([], []);
    assert TupleLess([a.1], [b.1]) <==> Less(a.1, b.1);
  }

  lemma KeyPrefix(a: Pin, b: Pin)
    ensures TupleLess(KeyRow(a.Key()), KeyRow(b.Key())) ==> TupleLess(a.Columns(), b.Columns())
  {
    KeyRowLess(a.Key(), b.Key());
    var u, v := a.Columns(), b.Columns();
    assert u[0] == a.name && v[0] == b.name;
    var ut, vt := u[1..], v[1..];
    assert ut[0] == a.platform && vt[0] == b.platform;
    assert Less(a.platform, b.platform) ==> TupleLess(ut, vt);
  }

  ghost predicate UniqueKeys(pins: seq<Pin>) {
    forall i, j | 0 <= i < j < |pins| :: pins[i].Key() != pins[j].Key()
  }

  lemma AscendingKeys(r: seq<Pin>)
    requires Ascending(PinRows(r))
    ensures Ascending(KeyRows(r))
  {
    forall i, j | 0 <= i < j < |r| ensures !TupleLess(KeyRows(r)[j], KeyRows(r)[i]) {
      KeyPrefix(r[j], r[i]);
      assert PinRows(r)[i] == r[i].Columns() && PinRows(r)[j] == r[j].Columns();
    }
  }

  lemma KeyFromColumns(p: Pin)
    ensures p.Columns()[0] == p.Key().0 && p.Columns()[1] == p.Key().1
  {
  }

  lemma UniqueRows(pins: seq<Pin>)
    requires UniqueKeys(pins)
    ensures Distinct(PinRows(pins))
  {
    forall i, j | 0 <= i < j < |pins| ensures PinRows(pins)[i] != PinRows(pins)[j] {
      assert pins[i].Key() != pins[j].Key();
      KeyFromColumns(pins[i]);
      KeyFromColumns(pins[j]);
    }
  }

  ghost predicate SameElements(a: seq<Pin>, b: seq<Pin>) {
    forall p :: p in a <==> p in b
  }

  lemma UniqueAfter(pins: seq<Pin>, r: seq<Pin>)
    requires UniqueKeys(pins) && SameElements(r, pins) && Distinct(PinRows(r))
    ensures UniqueKeys(r)
  {
    forall i, j | 0 <= i < j < |r| ensures r[i].Key() != r[j].Key() {
      assert r[i] in r && r[j] in r;
      var x :| 0 <= x < |pins| && pins[x] == r[i];
      var y :| 0 <= y < |pins| && pins[y] == r[j];
      assert PinRows(r)[i] != PinRows(r)[j];
    }
  }

  lemma SortedPinsSame(pins: seq<Pin>)
    ensures SameElements(SortedPins(pins), pins)
  {
    SortAscending(PinRows(pins), 5);
    PinsFromRows(pins, SortedPins(pins));
  }

  lemma SortedPinsKeys(pins: seq<Pin>)
    requires UniqueKeys(pins)
    ensures var r := SortedPins(pins);
            Ascending(KeyRows(r)) && UniqueKeys(r) && SameElements(r, pins)
  {
    var r := SortedPins(pins);
    SortAscending(PinRows(pins), 5);
    SortedPinsSame(pins);
    AscendingKeys(r);
    UniqueRows(pins);
    PermutedDistinct(PinRows(pins), PinRows(r));
    UniqueAfter(pins, r);
  }

  lemma ColumnsInjective(a: Pin, b: Pin)
    requires a.Columns() == b.Columns()
    ensures a == b
  {
    var x, y := a.Columns(), b.Columns();
    assert x[0] == y[0] && x[1] == y[1] && x[2] == y[2] && x[3] == y[3] && x[4] == y[4];
  }

  lemma PinsFromRows(a: seq<Pin>, b: seq<Pin>)
    requires forall r :: r in PinRows(b) <==> r in PinRows(a)
    ensures SameElements(b, a)
  {
    forall p ensures p in b <==> p in a {
      if p in b {
        var i :| 0 <= i < |b| && b[i] == p;
        assert PinRows(b)[i] in PinRows(b);
        var j :| 0 <= j < |a| && PinRows(a)[j] == p.Columns();
        ColumnsInjective(a[j], p);
      }
      if p in a {
        var i :| 0 <= i < |a| && a[i] == p;
        assert PinRows(a)[i] in PinRows(a);
        var j :| 0 <= j < |b| && PinRows(b)[j] == p.Columns();
        ColumnsInjective(b[j], p);
      }
    }
  }

  lemma KeysFromRows(a: seq<Key>, b: seq<Key>)
    requires forall r :: r in UnusedRows(b) <==> r in UnusedRows(a)
    ensures forall k :: k in b <==> k in a
  {
    forall k ensures k in b <==> k in a {
      if k in b {
        var i :| 0 <= i < |b| && b[i] == k;
        assert UnusedRows(b)[i] in UnusedRows(b);
        var j :| 0 <= j < |a| && UnusedRows(a)[j] == KeyRow(k);
        assert KeyRow(a[j])[0] == k.0 && KeyRow(a[j])[1] == k.1;
      }
      if k in a {
        var i :| 0 <= i < |a| && a[i] == k;
        assert UnusedRows(a)[i] in UnusedRows(a);
        var j :| 0 <= j < |b| && UnusedRows(b)[j] == KeyRow(k);
        assert KeyRow(b[j])[0] == k.0 && KeyRow(b[j])[1] == k.1;
      }
    }
  }

  lemma StrictIffDistinct(rows: seq<Row>, width: nat)
    requires Wide(rows, width) && Ascending(rows)
    ensures StrictlyAscending(rows) <==> Distinct(rows)
  {
    forall i, j | 0 <= i < j < |rows| ensures TupleLess(rows[i], rows[j]) <==> rows[i] != rows[j] {
      assert rows[i] in rows && rows[j] in rows;
      TupleOrder(rows[i], rows[j], rows[j]);
    }
  }

  lemma UnusedRowsDistinct(unused: seq<Key>)
    ensures Distinct(UnusedRows(unused)) <==> Distinct(unused)
  {
    forall i, j | 0 <= i < j < |unused|
      ensures UnusedRows(unused)[i] == UnusedRows(unused)[j] <==> unused[i] == unused[j]
    {
      assert KeyRow(unused[i])[0] == unused[i].0 && KeyRow(unused[i])[1] == unused[i].1;
      assert KeyRow(unused[j])[0] == unused[j].0 && KeyRow(unused[j])[1] == unused[j].1;
    }
  }

  lemma SortedUnusedKeys(unused: seq<Key>)
    ensures var r := SortedUnused(unused);
            && (forall k :: k in r <==> k in unused)
            && (StrictlyAscending(UnusedRows(r)) <==> Distinct(unused))
  {
    var r := SortedUnused(unused);
    SortAscending(UnusedRows(unused), 2);
    KeysFromRows(unused, r);
    StrictIffDistinct(UnusedRows(r), 2);
    UnusedRowsDistinct(unused);
    if Distinct(UnusedRows(unused)) {
      PermutedDistinct(UnusedRows(unused), UnusedRows(r));
    }
    if Distinct(UnusedRows(r)) {
      PermutedDistinct(UnusedRows(r), UnusedRows(unused));
    }
  }

  // Rendering and parsing

  /** Every part of the lock reads back, line by line, as what it was. */
  ghost predicate Shaped(lock: Lock) {
    && (forall l | l in lock.head :: CommentLine(l))
    && (forall l | l in lock.tail :: CommentLine(l))
    && (lock.pins == [] ==> lock.tail == [])
    && (forall p | p in lock.pins :: CleanPin(p))
    && (forall k | k in lock.unused :: TokenKey(k))
  }

  /** The same, and no key names two pins. */
  ghost predicate Renderable(lock: Lock) {
    Shaped(lock) && UniqueKeys(lock.pins)
  }

  /** What a lock needs so that each of its lines stays one line. */
  ghost predicate Printable(lock: Lock) {
    && (forall l | l in lock.head :: NoBreak(l))
    && (forall l | l in lock.tail :: NoBreak(l))
    && (forall p | p in lock.pins :: PinProblems(p) == [])
    && (forall k | k in lock.unused :: TokenKey(k))
  }

  lemma RenderableIsPrintable(lock: Lock)
    requires Renderable(lock)
    ensures Printable(lock)
  {
    assert forall l | l in lock.head :: CommentLine(l);
    assert forall l | l in lock.tail :: CommentLine(l);
    assert forall p | p in lock.pins :: CleanPin(p);
  }

  lemma LinesHaveNoBreak(lock: Lock)
    requires Printable(lock)
    ensures forall l | l in Lines(lock) :: NoBreak(l)
  {
    var pins, keys := SortedPins(lock.pins), SortedUnused(lock.unused);
    SortedPinsSame(lock.pins);
    SortedUnusedKeys(lock.unused);
    forall l | l in PinLines(pins) ensures NoBreak(l) {
      var i :| 0 <= i < |pins| && pins[i].Line() == l;
      assert pins[i] in lock.pins;
      PinFields(pins[i]);
    }
    forall l | l in UnusedLines(keys) ensures NoBreak(l) {
      var i :| 0 <= i < |keys| && UnusedLine(keys[i]) == l;
      assert TokenKey(keys[i]);
      ClassifyUnused(keys[i]);
    }
  }

  lemma ScanTail(pinned: Lock, n: nat, tail: seq<string>, keys: seq<Key>)
    requires pinned.tail == [] && pinned.unused == [] && (pinned.pins == [] ==> tail == [])
    ensures Scan(pinned, n, Comments(tail) + UnusedReadings(keys)) == pinned.(tail := tail, unused := keys)
  {
    ScanSplit(pinned, n, Comments(tail), UnusedReadings(keys));
    ScanComments(pinned, n, tail);
    assert [] + tail == tail && pinned.head + [] == pinned.head && [] + keys == keys;
    ScanUnused(pinned.(tail := tail), n + |tail|, keys);
  }

  /** The four sections, read in order, fill the four lists. */
  lemma ScanSections(head: seq<string>, pins: seq<Pin>, tail: seq<string>, keys: seq<Key>)
    requires pins == [] ==> tail == []
    ensures Scan(EMPTY, 1, Comments(head) + (PinReadings(pins) + (Comments(tail) + UnusedReadings(keys))))
            == Lock(head, pins, tail, keys, [])
  {
    var rest := Comments(tail) + UnusedReadings(keys);
    ScanSplit(EMPTY, 1, Comments(head), PinReadings(pins) + rest);
    ScanComments(EMPTY, 1, head);
    assert [] + head == head && [] + pins == pins;
    var headed := Lock(head, [], [], [], []);
    ScanSplit(headed, 1 + |head|, PinReadings(pins), rest);
    ScanPins(headed, 1 + |head|, pins);
    ScanTail(Lock(head, pins, [], [], []), 1 + |head| + |pins|, tail, keys);
  }

  lemma ScanLines(lock: Lock)
    requires Renderable(lock)
    ensures Scan(EMPTY, 1, ReadLines(Lines(lock)))
            == Lock(lock.head, SortedPins(lock.pins), lock.tail, SortedUnused(lock.unused), [])
  {
    var pins, keys := SortedPins(lock.pins), SortedUnused(lock.unused);
    SortedPinsKeys(lock.pins);
    SortedUnusedKeys(lock.unused);
    ReadSplit(lock.head, PinLines(pins) + (lock.tail + UnusedLines(keys)));
    ReadSplit(PinLines(pins), lock.tail + UnusedLines(keys));
    ReadSplit(lock.tail, UnusedLines(keys));
    ReadComments(lock.head);
    ReadComments(lock.tail);
    ReadPins(pins);
    ReadUnused(keys);
    ScanSections(lock.head, pins, lock.tail, keys);
  }

  /** Parsing a rendering gives the lock back in sorted order, with an error iff an unused entry is listed twice. */
  lemma ParseRender(lock: Lock)
    requires Renderable(lock) && Lines(lock) != []
    ensures Parse(Render(lock))
            == Lock(lock.head, SortedPins(lock.pins), lock.tail, SortedUnused(lock.unused),
                    if Distinct(lock.unused) then [] else [UnusedNotSorted])
  {
    RenderableIsPrintable(lock);
    LinesHaveNoBreak(lock);
    SplitConcat(Lines(lock));
    ScanLines(lock);
    SortedPinsKeys(lock.pins);
    SortedUnusedKeys(lock.unused);
    assert RepeatedKeys(SortedPins(lock.pins)) == {};
  }

  // What an error-free parse guarantees

  /** A reading that is what its line says. */
  ghost predicate Faithful(r: Reading) {
    && (r.kind.Comment? ==> CommentLine(r.raw))
    && (r.kind.Unused? ==> TokenKey(r.kind.key))
    && (r.kind.Pinned? && r.kind.problems == [] ==> CleanPin(r.kind.pin))
  }

  lemma ReadingIsFaithful(raw: string)
    requires NoBreak(raw)
    ensures Faithful(Reading(raw, Classify(raw)))
  {
    FieldsAreTokens(Strip(raw));
    var fields := Fields(Strip(raw));
    assert |fields| == 3 ==> fields[1] in fields && fields[2] in fields;
    assert |fields| == 5 ==> fields[2] in fields;
  }

  lemma AbsorbShaped(lock: Lock, n: nat, r: Reading)
    requires Shaped(lock) && Faithful(r) && Absorb(lock, n, r).errors == []
    ensures lock.errors == [] && Shaped(Absorb(lock, n, r))
  {
  }

  lemma {:induction false} ScanErrorsGrow(lock: Lock, n: nat, readings: seq<Reading>)
    ensures lock.errors <= Scan(lock, n, readings).errors
    decreases |readings|
  {
    if readings != [] {
      ScanErrorsGrow(Absorb(lock, n, readings[0]), n + 1, readings[1..]);
    }
  }

  lemma {:induction false} ScanShaped(lock: Lock, n: nat, readings: seq<Reading>)
    requires Shaped(lock) && (forall r | r in readings :: Faithful(r)) && Scan(lock, n, readings).errors == []
    ensures Shaped(Scan(lock, n, readings))
    decreases |readings|
  {
    if readings != [] {
      var next := Absorb(lock, n, readings[0]);
      ScanErrorsGrow(next, n + 1, readings[1..]);
      AbsorbShaped(lock, n, readings[0]);
      ScanShaped(next, n + 1, readings[1..]);
    }
  }

  lemma StrictKeys(pins: seq<Pin>)
    requires Ascending(KeyRows(pins)) && RepeatedKeys(pins) == {}
    ensures UniqueKeys(pins) && Ascending(PinRows(pins))
  {
    forall i, j | 0 <= i < j < |pins|
      ensures pins[i].Key() != pins[j].Key() && !TupleLess(PinRows(pins)[j], PinRows(pins)[i])
    {
      assert pins[i].Key() !in RepeatedKeys(pins);
      var x, y := KeyRow(pins[i].Key()), KeyRow(pins[j].Key());
      assert x[0] == pins[i].name && x[1] == pins[i].platform && y[0] == pins[j].name && y[1] == pins[j].platform;
      assert KeyRows(pins)[i] == x && KeyRows(pins)[j] == y;
      TupleOrder(x, y, y);
      KeyPrefix(pins[i], pins[j]);
      TupleOrder(pins[i].Columns(), pins[j].Columns(), pins[j].Columns());
    }
  }

  /** An error-free parse is renderable and already in the order rendering puts it in. */
  lemma ParsedIsRenderable(text: string)
    requires Parse(text).errors == []
    ensures var lock := Parse(text);
            && Renderable(lock) && Distinct(lock.unused)
            && SortedPins(lock.pins) == lock.pins && SortedUnused(lock.unused) == lock.unused
  {
    var readings := ReadLines(SplitLines(text));
    var scanned := Scan(EMPTY, 1, readings);
    SplitLinesNoBreak(text);
    forall r | r in readings ensures Faithful(r) {
      var i :| 0 <= i < |readings| && readings[i] == r;
      assert SplitLines(text)[i] in SplitLines(text);
      ReadingIsFaithful(r.raw);
    }
    ScanShaped(EMPTY, 1, readings);
    StrictKeys(scanned.pins);
    SortOfAscending(PinRows(scanned.pins));
    SamePins(SortedPins(scanned.pins), scanned.pins);
    var rows := UnusedRows(scanned.unused);
    forall i, j | 0 <= i < j < |rows| ensures !TupleLess(rows[j], rows[i]) && rows[i] != rows[j] {
      TupleOrder(rows[i], rows[j], rows[j]);
    }
    SortOfAscending(rows);
    UnusedRowsDistinct(scanned.unused);
    SameKeys(SortedUnused(scanned.unused), scanned.unused);
  }

  lemma SamePins(a: seq<Pin>, b: seq<Pin>)
    requires PinRows(a) == PinRows(b)
    ensures a == b
  {
    assert |a| == |PinRows(a)| == |PinRows(b)| == |b|;
    forall i | 0 <= i < |a| ensures a[i] == b[i] {
      assert PinRows(a)[i] == PinRows(b)[i];
      ColumnsInjective(a[i], b[i]);
    }
  }

  lemma SameKeys(a: seq<Key>, b: seq<Key>)
    requires UnusedRows(a) == UnusedRows(b)
    ensures a == b
  {
    assert |a| == |UnusedRows(a)| == |UnusedRows(b)| == |b|;
    forall i | 0 <= i < |a| ensures a[i] == b[i] {
      assert UnusedRows(a)[i] == UnusedRows(b)[i];
      assert KeyRow(a[i])[0] == KeyRow(b[i])[0] && KeyRow(a[i])[1] == KeyRow(b[i])[1];
    }
  }

  /** The round trip, exactly: an error-free lock reads back as itself iff it has a line at all. */
  lemma LockRoundTrip(text: string)
    requires Parse(text).errors == []
    ensures Parse(Render(Parse(text))) == Parse(text) <==> Parse(text) != EMPTY
  {
    var lock := Parse(text);
    ParsedIsRenderable(text);
    if lock == EMPTY {
      BlankLine();
    } else {
      assert |Lines(lock)| == |lock.head| + |lock.pins| + |lock.tail| + |lock.unused|;
      ParseRender(lock);
    }
  }

  /** The empty lock renders as one blank line, which reads back as a comment. */
  lemma BlankLine()
    ensures Render(EMPTY) == "\n" && Parse("\n").head == [""]
  {
    assert Lines(EMPTY) == [];
    assert LineLength("\n") == 0;
    assert SplitLines("\n") == [""] by {
      assert "\n"[..0] == "" && "\n"[1..] == [];
      assert SplitLines([]) == [];
    }
    assert Strip("") == "" && Classify("") == Comment;
    var readings := ReadLines([""]);
    assert readings == [Reading("", Comment)] && readings[1..] == [];
    var one := EMPTY.(head := [""]);
    assert Absorb(EMPTY, 1, readings[0]) == one;
    assert Scan(one, 2, []) == one && Scan(EMPTY, 1, readings) == one;
  }
}

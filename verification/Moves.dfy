/** What moving pins does to the lock file, over any sequence of moves. */
module Moves {
  import opened Prelude
  import opened ArtifactLock
  import opened LockFile
  import opened LockProofs

  // The map from keys to pins

  lemma KeyNamesOne(pins: seq<Pin>, p: Pin, q: Pin)
    requires UniqueKeys(pins) && p in pins && q in pins && p.Key() == q.Key()
    ensures p == q
  {
    var i :| 0 <= i < |pins| && pins[i] == p;
    var j :| 0 <= j < |pins| && pins[j] == q;
  }

  lemma ByKeyExact(pins: seq<Pin>)
    requires UniqueKeys(pins)
    ensures forall k :: k in ByKey(pins) <==> exists p :: p in pins && p.Key() == k
    ensures forall p | p in pins :: p.Key() in ByKey(pins) && ByKey(pins)[p.Key()] == p
  {
    ByKeyHas(pins);
    forall p | p in pins ensures p.Key() in ByKey(pins) && ByKey(pins)[p.Key()] == p {
      var q := ByKey(pins)[p.Key()];
      KeyNamesOne(pins, p, q);
    }
  }

  /** The map is fixed by which pins there are. */
  lemma ByKeyIs(pins: seq<Pin>, m: map<Key, Pin>)
    requires UniqueKeys(pins)
    requires forall p | p in pins :: p.Key() in m && m[p.Key()] == p
    requires forall k | k in m :: m[k] in pins && m[k].Key() == k
    ensures ByKey(pins) == m
  {
    ByKeyHas(pins);
    forall k | k in m ensures k in ByKey(pins) {
      assert m[k] in pins;
    }
  }

  /** A key's pin does not depend on the order of the lines. */
  lemma ByKeyReordered(a: seq<Pin>, b: seq<Pin>)
    requires UniqueKeys(a) && UniqueKeys(b) && SameElements(a, b)
    ensures ByKey(a) == ByKey(b)
  {
    ByKeyHas(b);
    ByKeyExact(b);
    ByKeyIs(a, ByKey(b));
  }

  lemma ReplaceUnique(pins: seq<Pin>, i: nat, pin: Pin)
    requires UniqueKeys(pins) && i < |pins| && pins[i].Key() == pin.Key()
    ensures UniqueKeys(pins[i := pin])
  {
    var moved := pins[i := pin];
    forall x, y | 0 <= x < y < |moved| ensures moved[x].Key() != moved[y].Key() {
      assert pins[x].Key() != pins[y].Key();
    }
  }

  lemma ReplacePin(pins: seq<Pin>, i: nat, pin: Pin)
    requires UniqueKeys(pins) && i < |pins| && pins[i].Key() == pin.Key()
    ensures UniqueKeys(pins[i := pin])
    ensures ByKey(pins[i := pin]) == ByKey(pins)[pin.Key() := pin]
  {
    var moved, m := pins[i := pin], ByKey(pins)[pin.Key() := pin];
    ReplaceUnique(pins, i, pin);
    ByKeyHas(pins);
    ByKeyExact(pins);
    forall p | p in moved ensures p.Key() in m && m[p.Key()] == p {
      var j :| 0 <= j < |moved| && moved[j] == p;
      assert j != i ==> p == pins[j] && p in pins;
      assert j < i ==> pins[j].Key() != pins[i].Key();
      assert i < j ==> pins[i].Key() != pins[j].Key();
    }
    forall k | k in m ensures m[k] in moved && m[k].Key() == k {
      if k == pin.Key() {
        assert moved[i] == pin;
      } else {
        var j :| 0 <= j < |pins| && pins[j] == m[k];
        assert moved[j] == pins[j];
      }
    }
    ByKeyIs(moved, m);
  }

  lemma AppendPin(pins: seq<Pin>, pin: Pin)
    requires UniqueKeys(pins) && pin.Key() !in ByKey(pins)
    ensures UniqueKeys(pins + [pin])
    ensures ByKey(pins + [pin]) == ByKey(pins)[pin.Key() := pin]
  {
    ByKeyExact(pins);
    assert forall i | 0 <= i < |pins| :: pins[i] in pins;
    assert (pins + [pin])[..|pins|] == pins;
  }

  // One move

  lemma ZerosAreGood(pin: Pin)
    requires GoodSha(pin.sha256)
    ensures PinProblems(pin.(sha256 := Zeros())) == [] <==> PinProblems(pin) == []
  {
    assert GoodSha(Zeros());
  }

  lemma MovedPins(lock: Lock, pin: Pin)
    requires UniqueKeys(lock.pins)
    ensures UniqueKeys(Moved(lock, pin).pins)
    ensures ByKey(Moved(lock, pin).pins) == ByKey(lock.pins)[pin.Key() := pin]
    ensures pin in Moved(lock, pin).pins
    ensures forall p | p in Moved(lock, pin).pins :: p in lock.pins || p == pin
  {
    ByKeyHas(lock.pins);
    if pin.Key() in ByKey(lock.pins) {
      var i := IndexOf(lock.pins, ByKey(lock.pins)[pin.Key()]);
      ReplacePin(lock.pins, i, pin);
      assert lock.pins[i := pin][i] == pin;
    } else {
      AppendPin(lock.pins, pin);
      assert (lock.pins + [pin])[|lock.pins|] == pin;
    }
  }

  /** The key would be listed as unused a second time. */
  predicate ListsTwice(lock: Lock, pin: Pin) {
    pin.Key() !in ByKey(lock.pins) && pin.Key() in lock.unused
  }

  lemma DistinctAppend(unused: seq<Key>, k: Key)
    requires Distinct(unused)
    ensures Distinct(unused + [k]) <==> k !in unused
  {
    if k in unused {
      var i :| 0 <= i < |unused| && unused[i] == k;
      assert (unused + [k])[i] == (unused + [k])[|unused|];
    }
  }

  lemma MovedRenderable(lock: Lock, pin: Pin)
    requires Renderable(lock) && CleanPin(pin) && Distinct(lock.unused)
    ensures Renderable(Moved(lock, pin)) && Lines(Moved(lock, pin)) != []
    ensures Distinct(Moved(lock, pin).unused) <==> !ListsTwice(lock, pin)
  {
    MovedPins(lock, pin);
    PinTokens(pin);
    DistinctAppend(lock.unused, pin.Key());
    assert |Lines(Moved(lock, pin))| >= |Moved(lock, pin).pins|;
  }

  lemma {:induction false} WrongLineIsReported(lock: Lock, n: nat, readings: seq<Reading>, i: nat)
    requires i < |readings| && readings[i].kind.Wrong?
    ensures Scan(lock, n, readings).errors != []
    decreases |readings|
  {
    var next := Absorb(lock, n, readings[0]);
    if i == 0 {
      ScanErrorsGrow(next, n + 1, readings[1..]);
    } else {
      WrongLineIsReported(next, n + 1, readings[1..], i - 1);
    }
  }

  lemma WrongLineSpoils(lines: seq<string>, i: nat)
    requires (forall l | l in lines :: NoBreak(l)) && i < |lines| && Classify(lines[i]).Wrong?
    ensures Parse(Concat(lines)).errors != []
  {
    SplitConcat(lines);
    var readings := ReadLines(lines);
    assert readings[i].kind == Classify(lines[i]);
    WrongLineIsReported(EMPTY, 1, readings, i);
  }

  lemma PinLineAt(lock: Lock, pin: Pin) returns (i: nat)
    requires pin in lock.pins
    ensures i < |Lines(lock)| && Lines(lock)[i] == pin.Line()
  {
    var pins := SortedPins(lock.pins);
    SortedPinsSame(lock.pins);
    var j :| 0 <= j < |pins| && pins[j] == pin;
    i := |lock.head| + j;
    assert PinLines(pins)[j] == pin.Line();
  }

  /** An unversioned pin is printed as a line of four columns, which the parser rejects. */
  lemma UnversionedIsRejected(lock: Lock, pin: Pin)
    requires Printable(lock) && pin in lock.pins && pin.version == ""
    ensures Parse(Render(lock)).errors != []
  {
    var i := PinLineAt(lock, pin);
    ClassifyPin(pin);
    LinesHaveNoBreak(lock);
    WrongLineSpoils(Lines(lock), i);
  }

  lemma MovedPrintable(lock: Lock, pin: Pin)
    requires Renderable(lock) && PinProblems(pin) == []
    ensures Printable(Moved(lock, pin))
  {
    RenderableIsPrintable(lock);
    MovedPins(lock, pin);
    PinTokens(pin);
  }

  /** What one move leaves: the pin under its key and nothing else changed, and a newly added key listed as unused. */
  ghost predicate Follows(before: Lock, pin: Pin, after: Lock) {
    && after.errors == [] && after.head == before.head && after.tail == before.tail
    && ByKey(after.pins) == ByKey(before.pins)[pin.Key() := pin]
    && (forall k :: k in after.unused <==> k in before.unused || (k == pin.Key() && k !in ByKey(before.pins)))
  }

  /** Rendering and parsing keep everything but the order of the lines. */
  lemma RenderedLock(lock: Lock)
    requires Renderable(lock) && Lines(lock) != []
    ensures var after := Parse(Render(lock));
            && after.head == lock.head && after.tail == lock.tail && ByKey(after.pins) == ByKey(lock.pins)
            && (forall k :: k in after.unused <==> k in lock.unused)
            && (after.errors == [] <==> Distinct(lock.unused))
  {
    ParseRender(lock);
    SortedPinsKeys(lock.pins);
    ByKeyReordered(SortedPins(lock.pins), lock.pins);
    SortedUnusedKeys(lock.unused);
  }

  lemma FollowsRendered(lock: Lock, pin: Pin, moved: Lock, after: Lock)
    requires moved == Moved(lock, pin) && ByKey(moved.pins) == ByKey(lock.pins)[pin.Key() := pin]
    requires after.head == moved.head && after.tail == moved.tail && ByKey(after.pins) == ByKey(moved.pins)
    requires after.errors == [] && forall k :: k in after.unused <==> k in moved.unused
    ensures Follows(lock, pin, after)
  {
  }

  lemma RenderedMove(lock: Lock, pin: Pin)
    requires Renderable(lock) && Distinct(lock.unused) && CleanPin(pin)
    ensures var after := Parse(Render(Moved(lock, pin)));
            && (after.errors == [] <==> !ListsTwice(lock, pin))
            && (after.errors == [] ==> Follows(lock, pin, after))
  {
    var moved := Moved(lock, pin);
    MovedRenderable(lock, pin);
    MovedPins(lock, pin);
    RenderedLock(moved);
    if Parse(Render(moved)).errors == [] {
      FollowsRendered(lock, pin, moved, Parse(Render(moved)));
    }
  }

  lemma SameMove(lock: Lock, pin: Pin)
    requires lock.errors == [] && pin.Key() in ByKey(lock.pins) && ByKey(lock.pins)[pin.Key()] == pin
    ensures Follows(lock, pin, lock)
  {
    assert ByKey(lock.pins)[pin.Key() := pin] == ByKey(lock.pins);
  }

  /**
   One move, exactly. The file parses afterwards iff the version is not empty and
   the key is not listed as unused without being pinned; then precisely this key's
   pin has changed.
   */
  lemma MoveExact(text: string, pin: Pin)
    requires Parse(text).errors == [] && PinProblems(pin) == []
    ensures var before, after := Parse(text), Parse(MoveFile(text, pin));
            && (after.errors == [] <==> pin.version != "" && !ListsTwice(before, pin))
            && (after.errors == [] ==> Follows(before, pin, after))
  {
    var before := Parse(text);
    PinParts(pin);
    ZerosAreGood(pin);
    ParsedIsRenderable(text);
    ByKeyHas(before.pins);
    if pin.Key() in ByKey(before.pins) && ByKey(before.pins)[pin.Key()] == pin {
      assert CleanPin(pin);
      SameMove(before, pin);
    } else if pin.version == "" {
      MovedPrintable(before, pin);
      MovedPins(before, pin);
      UnversionedIsRejected(Moved(before, pin), pin);
    } else {
      RenderedMove(before, pin);
    }
  }

  // Every sequence of moves

  ghost predicate UnusedArePinned(lock: Lock) {
    forall k | k in lock.unused :: k in ByKey(lock.pins)
  }

  /** The map the accepted pins ask for, in order. */
  function Updated(m: map<Key, Pin>, pins: seq<Pin>): map<Key, Pin> {
    if pins == [] then m
    else
      var pin, earlier := pins[|pins| - 1], Updated(m, pins[..|pins| - 1]);
      if PinProblems(pin) == [] then earlier[pin.Key() := pin] else earlier
  }

  /** A candidate that is either refused or carries a version. */
  predicate Versioned(pin: Pin) {
    PinProblems(pin) == [] ==> pin.version != ""
  }

  /** Where a sequence of moves from `before` should lead. */
  ghost predicate Reached(before: Lock, pins: seq<Pin>, after: Lock) {
    && after.errors == [] && after.head == before.head && after.tail == before.tail
    && ByKey(after.pins) == Updated(ByKey(before.pins), pins) && UnusedArePinned(after)
  }

  /** One requested move from a lock whose unused entries all name pins. */
  lemma OneMove(text: string, pin: Pin)
    requires GoodSha(pin.sha256) && (Parse(text).errors == [] ==> UnusedArePinned(Parse(text)))
    ensures var before, after := Parse(text), Parse(MoveFile(text, pin));
            && (after.errors == [] <==> before.errors == [] && Versioned(pin))
            && (after.errors == [] ==> if PinProblems(pin) == [] then Follows(before, pin, after) else after == before)
  {
    ZerosAreGood(pin);
    if Parse(text).errors == [] && PinProblems(pin) == [] {
      MoveExact(text, pin);
    }
  }

  lemma ReachedStep(before: Lock, pins: seq<Pin>, middle: Lock, pin: Pin, after: Lock)
    requires Reached(before, pins, middle)
    requires if PinProblems(pin) == [] then Follows(middle, pin, after) else after == middle
    ensures Reached(before, pins + [pin], after)
  {
    assert (pins + [pin])[..|pins|] == pins;
  }

  /**
   From a lock whose unused entries all name pins, any sequence of moves leaves a
   lock that parses to exactly the updated map, iff no accepted candidate had an
   empty version.
   */
  lemma {:induction false} MovesExact(text: string, pins: seq<Pin>)
    requires Parse(text).errors == [] && UnusedArePinned(Parse(text))
    requires forall p | p in pins :: GoodSha(p.sha256)
    ensures var after := Parse(MoveFiles(text, pins));
            && (after.errors == [] <==> forall p | p in pins :: Versioned(p))
            && (after.errors == [] ==> Reached(Parse(text), pins, after))
  {
    if pins != [] {
      var earlier, pin := pins[..|pins| - 1], pins[|pins| - 1];
      assert pins == earlier + [pin];
      MovesExact(text, earlier);
      var middle := MoveFiles(text, earlier);
      OneMove(middle, pin);
      if Parse(MoveFile(middle, pin)).errors == [] {
        ReachedStep(Parse(text), earlier, Parse(middle), pin, Parse(MoveFile(middle, pin)));
      }
    }
  }

  // The two failures do occur

  function Sample(version: string): Pin {
    Pin("a", "any", version, Zeros(), "https://x")
  }

  /** A short path cannot say `latest`. */
  lemma ShortUrl(p: Pin, scheme: string, rest: string)
    requires GoodName(p.name) && GoodPlatform(p.platform) && GoodSha(p.sha256) && GoodUrl(p.url)
    requires p.url == scheme + "://" + rest && ':' !in scheme && |rest| < 6 && p.version <= rest
    ensures PinProblems(p) == []
  {
    CutSchemeIs(scheme, rest);
    assert !SaysLatest(rest);
    assert p.url[|scheme| + 3..] == rest;
    assert Contains(p.url, p.version);
  }

  lemma SampleIsAccepted(version: string)
    requires version == "" || version == "x"
    ensures PinProblems(Sample(version)) == []
  {
    ShortUrl(Sample(version), "https", "x");
  }

  /** An accepted move with an empty version, on the empty file, writes a line the parser rejects. */
  lemma EmptyVersionSpoils()
    ensures PinProblems(Sample("")) == [] && Parse("").errors == [] && Parse(MoveFile("", Sample(""))).errors != []
  {
    SampleIsAccepted("");
    assert SplitLines("") == [] && Parse("").errors == [];
    MoveExact("", Sample(""));
  }

  /** A lock that only lists one key as unused. */
  function Listing(k: Key): Lock {
    Lock([], [], [], [k], [])
  }

  lemma ListingParses(k: Key)
    requires TokenKey(k)
    ensures Parse(Render(Listing(k))).errors == [] && Parse(Render(Listing(k))).pins == []
    ensures k in Parse(Render(Listing(k))).unused
  {
    var lock := Listing(k);
    assert |Lines(lock)| == 1;
    ParseRender(lock);
    SortedUnusedKeys(lock.unused);
  }

  /** Adding a pin whose key is already listed as unused writes the entry twice. */
  lemma ListedTwiceSpoils(pin: Pin)
    requires PinProblems(pin) == []
    ensures var text := Render(Listing(pin.Key())); Parse(text).errors == [] && Parse(MoveFile(text, pin)).errors != []
  {
    PinTokens(pin);
    ListingParses(pin.Key());
    SpoiledBy(Render(Listing(pin.Key())), pin);
  }

  lemma SpoiledBy(text: string, pin: Pin)
    requires Parse(text).errors == [] && Parse(text).pins == [] && pin.Key() in Parse(text).unused
    requires PinProblems(pin) == []
    ensures Parse(MoveFile(text, pin)).errors != []
  {
    MoveExact(text, pin);
  }
}

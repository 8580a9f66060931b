/** `artifacts.lock` as a whole: parsing, rendering, and what a sequence of moves leaves behind. */
module LockFile {
  import opened Prelude
  import opened Text
  import opened ArtifactLock

  const UNUSED_MARK := "#:unused"

  type Key = (string, string)

  /** What the parser collects; line numbers count from one. */
  datatype LockError =
    | BadUnused(line: nat)
    | WrongColumns(line: nat, count: nat)
    | BadPin(line: nat, problem: PinProblem)
    | NotSorted
    | Repeated(key: Key)
    | UnusedNotSorted

  datatype Lock = Lock(head: seq<string>, pins: seq<Pin>, tail: seq<string>, unused: seq<Key>, errors: seq<LockError>)

  const EMPTY := Lock([], [], [], [], [])

  /** A pin line carries what is wrong with the pin. */
  datatype LineKind =
    | Unused(key: Key)
    | BadMark
    | Comment
    | Wrong(count: nat)
    | Pinned(pin: Pin, problems: seq<PinProblem>)

  /** What one line is. */
  function Classify(raw: string): LineKind {
    var line := Strip(raw);
    if UNUSED_MARK <= line then
      var fields := Fields(line);
      if |fields| != 3 then BadMark else Unused((fields[1], fields[2]))
    else if line == [] || line[0] == '#' then Comment
    else
      var fields := Fields(line);
      if |fields| != 5 then Wrong(|fields|)
      else
        var pin := Pin(fields[0], fields[1], fields[2], fields[3], fields[4]);
        Pinned(pin, PinProblems(pin))
  }

  function BadPins(number: nat, problems: seq<PinProblem>): (r: seq<LockError>)
    ensures |r| == |problems|
  {
    seq(|problems|, i requires 0 <= i < |problems| => BadPin(number, problems[i]))
  }

  /** A line and what it is. */
  datatype Reading = Reading(raw: string, kind: LineKind)

  function ReadLines(lines: seq<string>): (r: seq<Reading>)
    ensures |r| == |lines| && forall i | 0 <= i < |r| :: r[i] == Reading(lines[i], Classify(lines[i]))
  {
    seq(|lines|, i requires 0 <= i < |lines| => Reading(lines[i], Classify(lines[i])))
  }

  function Absorb(lock: Lock, number: nat, r: Reading): Lock {
    match r.kind
    case Unused(key) => lock.(unused := lock.unused + [key])
    case BadMark => lock.(errors := lock.errors + [BadUnused(number)])
    case Comment => if lock.pins != [] then lock.(tail := lock.tail + [r.raw]) else lock.(head := lock.head + [r.raw])
    case Wrong(count) => lock.(errors := lock.errors + [WrongColumns(number, count)])
    case Pinned(pin, problems) => lock.(errors := lock.errors + BadPins(number, problems), pins := lock.pins + [pin])
  }

  function Scan(lock: Lock, number: nat, readings: seq<Reading>): Lock
    decreases |readings|
  {
    if readings == [] then lock else Scan(Absorb(lock, number, readings[0]), number + 1, readings[1..])
  }

  function KeyRow(k: Key): Row {
    [k.0, k.1]
  }

  function KeyRows(pins: seq<Pin>): (r: seq<Row>)
    ensures |r| == |pins| && forall i | 0 <= i < |r| :: r[i] == KeyRow(pins[i].Key())
  {
    seq(|pins|, i requires 0 <= i < |pins| => KeyRow(pins[i].Key()))
  }

  function UnusedRows(unused: seq<Key>): (r: seq<Row>)
    ensures |r| == |unused| && forall i | 0 <= i < |r| :: r[i] == KeyRow(unused[i])
  {
    seq(|unused|, i requires 0 <= i < |unused| => KeyRow(unused[i]))
  }

  function RepeatedKeys(pins: seq<Pin>): set<Key> {
    set i, j | 0 <= i < j < |pins| && pins[i].Key() == pins[j].Key() :: pins[i].Key()
  }

  predicate KeyLess(a: Key, b: Key) {
    TupleLess(KeyRow(a), KeyRow(b))
  }

  lemma KeyLessIsOrder()
    ensures StrictOrder(KeyLess)
  {
    forall a, b, c: Key
      ensures (a == b || KeyLess(a, b) || KeyLess(b, a)) && !(KeyLess(a, b) && KeyLess(b, a))
      ensures KeyLess(a, b) && KeyLess(b, c) ==> KeyLess(a, c)
    {
      TupleOrder(KeyRow(a), KeyRow(b), KeyRow(c));
      assert KeyRow(a) == KeyRow(b) ==> KeyRow(a)[0] == KeyRow(b)[0] && KeyRow(a)[1] == KeyRow(b)[1];
    }
  }

  /** `sorted(keys)` for pairs. */
  function SortedSet(keys: set<Key>): (r: seq<Key>)
    ensures forall k :: k in r <==> k in keys
    ensures forall i, j | 0 <= i < j < |r| :: KeyLess(r[i], r[j])
    ensures r == [] <==> keys == {}
  {
    KeyLessIsOrder();
    Sorted(KeyLess, keys)
  }

  /** One error for each repeated key, in order. */
  function RepeatedErrors(pins: seq<Pin>): (r: seq<LockError>)
    ensures r == [] <==> RepeatedKeys(pins) == {}
  {
    var keys := SortedSet(RepeatedKeys(pins));
    seq(|keys|, i requires 0 <= i < |keys| => Repeated(keys[i]))
  }

  /** The three whole-file checks, in order. */
  function FinalErrors(lock: Lock): seq<LockError> {
    (if Ascending(KeyRows(lock.pins)) then [] else [NotSorted])
    + RepeatedErrors(lock.pins)
    + (if StrictlyAscending(UnusedRows(lock.unused)) then [] else [UnusedNotSorted])
  }

  function Finish(lock: Lock): Lock {
    lock.(errors := lock.errors + FinalErrors(lock))
  }

  function Parse(text: string): Lock {
    Finish(Scan(EMPTY, 1, ReadLines(SplitLines(text))))
  }

  // Rendering

  function PinRows(pins: seq<Pin>): (r: seq<Row>)
    ensures |r| == |pins| && forall i | 0 <= i < |r| :: r[i] == pins[i].Columns()
  {
    seq(|pins|, i requires 0 <= i < |pins| => pins[i].Columns())
  }

  function RowPin(r: Row): (p: Pin)
    requires |r| == 5
    ensures p.Columns() == r
  {
    Pin(r[0], r[1], r[2], r[3], r[4])
  }

  function RowKey(r: Row): (k: Key)
    requires |r| == 2
    ensures KeyRow(k) == r
  {
    (r[0], r[1])
  }

  function SortedRows(rows: seq<Row>, width: nat): (r: seq<Row>)
    requires Wide(rows, width)
    ensures |r| == |rows| && r == Sort(rows) && forall i | 0 <= i < |r| :: |r[i]| == width
  {
    SortAscending(rows, width);
    SameSize(Sort(rows), rows);
    assert forall i | 0 <= i < |Sort(rows)| :: Sort(rows)[i] in Sort(rows);
    Sort(rows)
  }

  function SortedPins(pins: seq<Pin>): (r: seq<Pin>)
    ensures |r| == |pins| && PinRows(r) == Sort(PinRows(pins))
  {
    var rows := SortedRows(PinRows(pins), 5);
    seq(|rows|, i requires 0 <= i < |rows| => RowPin(rows[i]))
  }

  function SortedUnused(unused: seq<Key>): (r: seq<Key>)
    ensures |r| == |unused| && UnusedRows(r) == Sort(UnusedRows(unused))
  {
    var rows := SortedRows(UnusedRows(unused), 2);
    seq(|rows|, i requires 0 <= i < |rows| => RowKey(rows[i]))
  }

  lemma SameSize(a: seq<Row>, b: seq<Row>)
    requires multiset(a) == multiset(b)
    ensures |a| == |b|
  {
    assert |a| == |multiset(a)| == |multiset(b)| == |b|;
  }

  function UnusedLine(k: Key): string {
    UNUSED_MARK + " " + (k.0 + " " + k.1)
  }

  function PinLines(pins: seq<Pin>): seq<string> {
    seq(|pins|, i requires 0 <= i < |pins| => pins[i].Line())
  }

  function UnusedLines(unused: seq<Key>): seq<string> {
    seq(|unused|, i requires 0 <= i < |unused| => UnusedLine(unused[i]))
  }

  function Lines(lock: Lock): seq<string> {
    lock.head + (PinLines(SortedPins(lock.pins)) + (lock.tail + UnusedLines(SortedUnused(lock.unused))))
  }

  /** The lines joined by line feeds, and a closing one. */
  function Render(lock: Lock): string {
    if Lines(lock) == [] then "\n" else Concat(Lines(lock))
  }

  /** `by_key`: of two pins with one key the later stands. */
  function ByKey(pins: seq<Pin>): map<Key, Pin> {
    if pins == [] then map[] else ByKey(pins[..|pins| - 1])[pins[|pins| - 1].Key() := pins[|pins| - 1]]
  }

  function IndexOf(pins: seq<Pin>, p: Pin): (i: nat)
    requires p in pins
    ensures i < |pins| && pins[i] == p
  {
    if pins[0] == p then 0 else 1 + IndexOf(pins[1..], p)
  }

  lemma {:induction false} ByKeyHas(pins: seq<Pin>)
    ensures forall k | k in ByKey(pins) :: ByKey(pins)[k] in pins && ByKey(pins)[k].Key() == k
    ensures forall p | p in pins :: p.Key() in ByKey(pins)
  {
    if pins != [] {
      ByKeyHas(pins[..|pins| - 1]);
      assert pins == pins[..|pins| - 1] + [pins[|pins| - 1]];
    }
  }

  /** The update inside `move`: replace the pin with this key, or append one listed as unused. */
  function Moved(lock: Lock, pin: Pin): Lock {
    ByKeyHas(lock.pins);
    if pin.Key() in ByKey(lock.pins) then
      lock.(pins := lock.pins[IndexOf(lock.pins, ByKey(lock.pins)[pin.Key()]) := pin])
    else
      lock.(pins := lock.pins + [pin], unused := lock.unused + [pin.Key()])
  }

  /** The hash a candidate is checked with before the download. */
  function Zeros(): (s: string)
    ensures |s| == 64 && forall i | 0 <= i < |s| :: s[i] == '0'
  {
    seq(64, _ => '0')
  }

  /**
   `move` as it changes the file: a malformed lock or a refused candidate changes
   nothing, and neither does a pin that is already there. The candidate is checked
   with a hash of zeros, before the download gives the real one.
   */
  function MoveFile(text: string, pin: Pin): string {
    var lock := Parse(text);
    if lock.errors != [] || PinProblems(pin.(sha256 := Zeros())) != [] then text
    else if pin.Key() in ByKey(lock.pins) && ByKey(lock.pins)[pin.Key()] == pin then text
    else Render(Moved(lock, pin))
  }

  /** Moves one after another. */
  function MoveFiles(text: string, pins: seq<Pin>): string {
    if pins == [] then text else MoveFile(MoveFiles(text, pins[..|pins| - 1]), pins[|pins| - 1])
  }

  /** The lock in memory, whose lists `parse_lock` grows and `move` edits. */
  class LockFile {
    var head: seq<string>
    var pins: seq<Pin>
    var tail: seq<string>
    var unused: seq<Key>
    var errors: seq<LockError>

    function State(): Lock
      reads this
    {
      Lock(head, pins, tail, unused, errors)
    }

    /** `parse_lock`: one pass over the lines, collecting problems, then the whole-file checks. */
    constructor Parsed(text: string)
      ensures State() == Parse(text)
    {
      head, pins, tail, unused, errors := [], [], [], [], [];
      new;
      var lines := SplitLines(text);
      ghost var readings := ReadLines(lines);
      for i := 0 to |lines|
        invariant Scan(State(), i + 1, readings[i..]) == Scan(EMPTY, 1, readings)
      {
        ghost var before := State();
        var raw := lines[i];
        var kind := Classify(raw);
        match kind {
          case Unused(key) => unused := unused + [key];
          case BadMark => errors := errors + [BadUnused(i + 1)];
          case Comment =>
            if pins != [] {
              tail := tail + [raw];
            } else {
              head := head + [raw];
            }
          case Wrong(count) => errors := errors + [WrongColumns(i + 1, count)];
          case Pinned(pin, problems) =>
            errors := errors + BadPins(i + 1, problems);
            pins := pins + [pin];
        }
        assert State() == Absorb(before, i + 1, Reading(raw, kind));
        assert readings[i..][0] == Reading(raw, kind) && readings[i..][1..] == readings[i + 1..];
      }
      assert Scan(State(), |lines| + 1, []) == State();
      errors := errors + FinalErrors(State());
    }

    /** The edit `move` makes once the new pin is known. */
    method Move(pin: Pin)
      modifies this
      ensures State() == Moved(old(State()), pin)
    {
      ByKeyHas(pins);
      var byKey := ByKey(pins);
      if pin.Key() in byKey {
        pins := pins[IndexOf(pins, byKey[pin.Key()]) := pin];
      } else {
        pins := pins + [pin];
        unused := unused + [pin.Key()];
      }
    }
  }
}

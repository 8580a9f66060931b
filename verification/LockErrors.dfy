/** Which errors a lock file is reported with: exactly those its lines and its order deserve. */
module LockErrors {
  import opened Prelude
  import opened ArtifactLock
  import opened LockFile
  import opened LockProofs

  /** The errors one line earns by itself. */
  ghost predicate Earns(number: nat, kind: LineKind, error: LockError) {
    match error
    case BadUnused(line) => line == number && kind.BadMark?
    case WrongColumns(line, count) => line == number && kind == Wrong(count)
    case BadPin(line, problem) => line == number && kind.Pinned? && problem in kind.problems
    case _ => false
  }

  lemma AbsorbEarns(lock: Lock, number: nat, r: Reading, error: LockError)
    ensures error in Absorb(lock, number, r).errors <==> error in lock.errors || Earns(number, r.kind, error)
  {
    if r.kind.Pinned? {
      var bad := BadPins(number, r.kind.problems);
      if error in bad {
        var i :| 0 <= i < |bad| && bad[i] == error;
        assert r.kind.problems[i] in r.kind.problems;
      }
      if Earns(number, r.kind, error) {
        var i :| 0 <= i < |r.kind.problems| && r.kind.problems[i] == error.problem;
        assert bad[i] == error;
      }
    }
  }

  lemma {:induction false} ScanEarns(lock: Lock, number: nat, readings: seq<Reading>, error: LockError)
    ensures error in Scan(lock, number, readings).errors
            <==> error in lock.errors || exists i :: 0 <= i < |readings| && Earns(number + i, readings[i].kind, error)
    decreases |readings|
  {
    if readings != [] {
      var next := Absorb(lock, number, readings[0]);
      AbsorbEarns(lock, number, readings[0], error);
      ScanEarns(next, number + 1, readings[1..], error);
      if exists j :: 0 <= j < |readings[1..]| && Earns(number + 1 + j, readings[1..][j].kind, error) {
        var j :| 0 <= j < |readings[1..]| && Earns(number + 1 + j, readings[1..][j].kind, error);
        assert Earns(number + (j + 1), readings[j + 1].kind, error);
      }
      if exists i :: 0 <= i < |readings| && Earns(number + i, readings[i].kind, error) {
        var i :| 0 <= i < |readings| && Earns(number + i, readings[i].kind, error);
        assert i > 0 ==> readings[1..][i - 1] == readings[i];
        assert i > 0 ==> Earns(number + 1 + (i - 1), readings[1..][i - 1].kind, error);
      }
    }
  }

  /** The keys of the pins, a later key not below an earlier one. */
  ghost predicate KeysAscend(pins: seq<Pin>) {
    forall i, j | 0 <= i < j < |pins| :: !KeyLess(pins[j].Key(), pins[i].Key())
  }

  ghost predicate HeldTwice(pins: seq<Pin>, k: Key) {
    exists i, j :: 0 <= i < j < |pins| && pins[i].Key() == k && pins[j].Key() == k
  }

  /** One pair is below another by name, then by platform. */
  lemma KeyLessIs(a: Key, b: Key)
    ensures KeyLess(a, b) <==> Less(a.0, b.0) || (a.0 == b.0 && Less(a.1, b.1))
  {
    KeyRowLess(a, b);
  }

  lemma FinalEarns(lock: Lock, error: LockError)
    ensures error in FinalErrors(lock) <==>
            match error
            case NotSorted => !KeysAscend(lock.pins)
            case Repeated(k) => HeldTwice(lock.pins, k)
            case UnusedNotSorted => !StrictlyAscending(UnusedRows(lock.unused))
            case _ => false
  {
    assert Ascending(KeyRows(lock.pins)) <==> KeysAscend(lock.pins) by {
      forall i, j | 0 <= i < j < |lock.pins|
        ensures TupleLess(KeyRows(lock.pins)[j], KeyRows(lock.pins)[i])
                <==> KeyLess(lock.pins[j].Key(), lock.pins[i].Key())
      {
      }
    }
    RepeatedEarns(lock.pins, error);
  }

  lemma RepeatedEarns(pins: seq<Pin>, error: LockError)
    ensures error in RepeatedErrors(pins) <==> error.Repeated? && HeldTwice(pins, error.key)
  {
    var keys, errors := SortedSet(RepeatedKeys(pins)), RepeatedErrors(pins);
    assert |errors| == |keys| && forall i | 0 <= i < |keys| :: errors[i] == Repeated(keys[i]);
    if error in errors {
      var i :| 0 <= i < |errors| && errors[i] == error;
      assert keys[i] in RepeatedKeys(pins);
    }
    if error.Repeated? && HeldTwice(pins, error.key) {
      assert error.key in RepeatedKeys(pins) && error.key in keys;
      var i :| 0 <= i < |keys| && keys[i] == error.key;
      assert errors[i] == error;
    }
  }

  /** Some line earns this error. */
  ghost predicate SomeLineEarns(lines: seq<string>, error: LockError) {
    exists i :: 0 <= i < |lines| && Earns(i + 1, Classify(lines[i]), error)
  }

  lemma LinesEarn(lines: seq<string>, readings: seq<Reading>, error: LockError)
    requires readings == ReadLines(lines)
    ensures SomeLineEarns(lines, error) <==> exists i :: 0 <= i < |readings| && Earns(1 + i, readings[i].kind, error)
  {
    if SomeLineEarns(lines, error) {
      var i :| 0 <= i < |lines| && Earns(i + 1, Classify(lines[i]), error);
      assert Earns(1 + i, readings[i].kind, error);
    }
  }

  lemma ErrorsOf(lines: seq<string>, scanned: Lock, error: LockError)
    requires scanned == Scan(EMPTY, 1, ReadLines(lines))
    ensures error in Finish(scanned).errors <==> SomeLineEarns(lines, error) || error in FinalErrors(scanned)
  {
    LinesEarn(lines, ReadLines(lines), error);
    ScanEarns(EMPTY, 1, ReadLines(lines), error);
  }

  /**
   A lock file is reported with exactly these errors: for each line, counted from
   one, what is wrong with it; pins out of order; each key held twice; and unused
   entries out of order or repeated.
   */
  lemma ErrorsExact(text: string, error: LockError)
    ensures var lock := Parse(text);
            error in lock.errors <==>
            || SomeLineEarns(SplitLines(text), error)
            || (error == NotSorted && !KeysAscend(lock.pins))
            || (error.Repeated? && HeldTwice(lock.pins, error.key))
            || (error == UnusedNotSorted && !StrictlyAscending(UnusedRows(lock.unused)))
  {
    var lines := SplitLines(text);
    ErrorsTogether(lines, Scan(EMPTY, 1, ReadLines(lines)), error);
  }

  lemma ErrorsTogether(lines: seq<string>, scanned: Lock, error: LockError)
    requires scanned == Scan(EMPTY, 1, ReadLines(lines))
    ensures error in Finish(scanned).errors <==>
            || SomeLineEarns(lines, error)
            || (error == NotSorted && !KeysAscend(scanned.pins))
            || (error.Repeated? && HeldTwice(scanned.pins, error.key))
            || (error == UnusedNotSorted && !StrictlyAscending(UnusedRows(scanned.unused)))
  {
    ErrorsOf(lines, scanned, error);
    FinalEarns(scanned, error);
  }
}

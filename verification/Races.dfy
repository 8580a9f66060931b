/** Concurrent dispatches of one key: the dedupe read and the conditional add are separate calls. */
module Races {
  import opened Prelude
  import opened Schemas

  type Tid = nat

  /**
   Where a dispatch stands at gate 6. `Claimed` is the point from which it is
   screened and accepted; a dispatch whose read or put raised is answered as not
   evaluated.
   */
  datatype Phase = Reading | Missed | Hit | Landed | Claimed | ReadRaised | PutRaised

  datatype Thread = Thread(key: DedupeKey, phase: Phase)

  datatype State = State(store: set<DedupeKey>, threads: map<Tid, Thread>)

  /**
   The read begins; the read takes its consistent snapshot; the put reaches the
   table (creating the row, or failing its condition, which is swallowed); the
   call to add returns. Instead, the read may raise, and so may the put, whether
   or not it reached the table.
   */
  datatype Event =
    | Begin(t: Tid, key: DedupeKey)
    | Take(t: Tid)
    | FailRead(t: Tid)
    | Land(t: Tid)
    | FailPut(t: Tid, landed: bool)
    | Finish(t: Tid)

  predicate At(s: State, t: Tid, phase: Phase) {
    t in s.threads && s.threads[t].phase == phase
  }

  predicate Enabled(s: State, e: Event) {
    match e
    case Begin(t, _) => t !in s.threads
    case Take(t) => At(s, t, Reading)
    case FailRead(t) => At(s, t, Reading)
    case Land(t) => At(s, t, Missed)
    case FailPut(t, _) => At(s, t, Missed)
    case Finish(t) => At(s, t, Landed)
  }

  function Moved(s: State, t: Tid, phase: Phase): State
    requires t in s.threads
  {
    s.(threads := s.threads[t := s.threads[t].(phase := phase)])
  }

  function Apply(s: State, e: Event): State
    requires Enabled(s, e)
  {
    match e
    case Begin(t, key) => s.(threads := s.threads[t := Thread(key, Reading)])
    case Take(t) => Moved(s, t, if s.threads[t].key in s.store then Hit else Missed)
    case FailRead(t) => Moved(s, t, ReadRaised)
    case FailPut(t, landed) =>
      Moved(s, t, PutRaised).(store := if landed then s.store + {s.threads[t].key} else s.store)
    case Land(t) => Moved(s, t, Landed).(store := s.store + {s.threads[t].key})
    case Finish(t) => Moved(s, t, Claimed)
  }

  predicate Valid(s: State, trace: seq<Event>)
    decreases |trace|
  {
    trace == [] || (Enabled(s, trace[0]) && Valid(Apply(s, trace[0]), trace[1..]))
  }

  function Exec(s: State, trace: seq<Event>): State
    requires Valid(s, trace)
    decreases |trace|
  {
    if trace == [] then s else Exec(Apply(s, trace[0]), trace[1..])
  }

  lemma {:induction false} ValidSplit(s: State, a: seq<Event>, b: seq<Event>)
    requires Valid(s, a + b)
    ensures Valid(s, a) && Valid(Exec(s, a), b) && Exec(s, a + b) == Exec(Exec(s, a), b)
    decreases |a|
  {
    if a == [] {
      assert a + b == b;
    } else {
      assert (a + b)[0] == a[0] && (a + b)[1..] == a[1..] + b;
      ValidSplit(Apply(s, a[0]), a[1..], b);
    }
  }

  /** The dispatches of `key` that have begun their read. */
  function Begun(s: State, key: DedupeKey): set<Tid> {
    set t | t in s.threads && s.threads[t].key == key
  }

  function ClaimedBy(s: State, key: DedupeKey): set<Tid> {
    set t | t in s.threads && s.threads[t] == Thread(key, Claimed)
  }

  /** Every dispatch whose put has reached the table has its key in the store. */
  predicate Consistent(s: State) {
    forall t | t in s.threads && (s.threads[t].phase == Landed || s.threads[t].phase == Claimed) ::
      s.threads[t].key in s.store
  }

  /** Not past its read, or turned away by it. */
  predicate Silent(s: State, t: Tid) {
    At(s, t, Reading) || At(s, t, Hit) || At(s, t, ReadRaised)
  }

  /** A dispatch that had not begun, or had only begun, when the key was in the store. */
  predicate Late(s: State, t: Tid, key: DedupeKey) {
    t in s.threads && s.threads[t].key == key ==> Silent(s, t)
  }

  lemma {:induction false} LateStaysSilent(s: State, trace: seq<Event>, t: Tid, key: DedupeKey)
    requires Valid(s, trace) && key in s.store && Late(s, t, key)
    ensures Late(Exec(s, trace), t, key) && key in Exec(s, trace).store
    decreases |trace|
  {
    if trace != [] {
      LateStaysSilent(Apply(s, trace[0]), trace[1..], t, key);
    }
  }

  lemma {:induction false} ConsistentKept(s: State, trace: seq<Event>)
    requires Valid(s, trace) && Consistent(s)
    ensures Consistent(Exec(s, trace))
    decreases |trace|
  {
    if trace != [] {
      ConsistentKept(Apply(s, trace[0]), trace[1..]);
    }
  }

  /**
   No dispatch whose read begins after some add of its key has completed is
   screened or accepted, over every interleaving.
   */
  lemma LateReadersAreSilent(s: State, before: seq<Event>, u: Tid, between: seq<Event>, t: Tid, key: DedupeKey,
                             after: seq<Event>)
    requires Consistent(s) && Valid(s, before + [Finish(u)] + between + [Begin(t, key)] + after)
    requires Valid(s, before) && u in Exec(s, before).threads && Exec(s, before).threads[u].key == key
    ensures var final := Exec(s, before + [Finish(u)] + between + [Begin(t, key)] + after);
            Silent(final, t)
  {
    var finished := [Finish(u)] + between + [Begin(t, key)] + after;
    assert before + [Finish(u)] + between + [Begin(t, key)] + after == before + finished;
    ValidSplit(s, before, finished);
    ConsistentKept(s, before);
    var mid := Exec(s, before);
    assert finished == [Finish(u)] + (between + [Begin(t, key)] + after);
    assert key in mid.store;
    var done := Apply(mid, Finish(u));
    assert finished[1..] == between + ([Begin(t, key)] + after);
    ValidSplit(done, between, [Begin(t, key)] + after);
    StoreGrows(done, between);
    var begun := Apply(Exec(done, between), Begin(t, key));
    assert ([Begin(t, key)] + after)[1..] == after;
    LateStaysSilent(begun, after, t, key);
    ThreadsStay(begun, after, t);
  }

  lemma {:induction false} StoreGrows(s: State, trace: seq<Event>)
    requires Valid(s, trace)
    ensures s.store <= Exec(s, trace).store
    decreases |trace|
  {
    if trace != [] {
      StoreGrows(Apply(s, trace[0]), trace[1..]);
    }
  }

  lemma {:induction false} ThreadsStay(s: State, trace: seq<Event>, t: Tid)
    requires Valid(s, trace) && t in s.threads
    ensures t in Exec(s, trace).threads && Exec(s, trace).threads[t].key == s.threads[t].key
    decreases |trace|
  {
    if trace != [] {
      ThreadsStay(Apply(s, trace[0]), trace[1..], t);
    }
  }

  /** The acceptances of a key are bounded by the reads begun before any one of its adds completed. */
  lemma AcceptancesBoundedByEarlyReads(s: State, before: seq<Event>, u: Tid, after: seq<Event>, key: DedupeKey)
    requires Consistent(s) && Valid(s, before + [Finish(u)] + after)
    requires Valid(s, before) && u in Exec(s, before).threads && Exec(s, before).threads[u].key == key
    ensures var final := Exec(s, before + [Finish(u)] + after);
            && ClaimedBy(final, key) <= Begun(Exec(s, before), key)
            && |ClaimedBy(final, key)| <= |Begun(Exec(s, before), key)|
  {
    assert before + [Finish(u)] + after == before + ([Finish(u)] + after);
    ValidSplit(s, before, [Finish(u)] + after);
    ConsistentKept(s, before);
    var mid := Exec(s, before);
    var final := Exec(s, before + [Finish(u)] + after);
    assert key in mid.store;
    forall t | t in ClaimedBy(final, key) ensures t in Begun(mid, key) {
      if t in mid.threads {
        ThreadsStay(mid, [Finish(u)] + after, t);
      } else {
        LateStaysSilent(mid, [Finish(u)] + after, t, key);
      }
    }
    SubsetCardinality(ClaimedBy(final, key), Begun(mid, key));
  }

  /** The dispatches of `key` whose snapshot missed it and whose put has not reached the table. */
  function Missers(s: State, key: DedupeKey): set<Tid> {
    set t | t in s.threads && s.threads[t] == Thread(key, Missed)
  }

  /** The dispatches of `key` whose put raised. */
  function Lost(s: State, key: DedupeKey): set<Tid> {
    set t | t in s.threads && s.threads[t] == Thread(key, PutRaised)
  }

  /** The dispatches of `key` past a snapshot that missed it, wherever they now are. */
  function Through(s: State, key: DedupeKey): set<Tid> {
    set t | t in s.threads && s.threads[t].key == key && !Silent(s, t)
  }

  /** Once a key is in the table nobody joins or leaves those who missed it. */
  lemma {:induction false} ThroughIsFixed(s: State, trace: seq<Event>, key: DedupeKey)
    requires Valid(s, trace) && key in s.store
    ensures Through(Exec(s, trace), key) == Through(s, key)
    decreases |trace|
  {
    if trace != [] {
      assert Through(Apply(s, trace[0]), key) == Through(s, key);
      ThroughIsFixed(Apply(s, trace[0]), trace[1..], key);
    }
  }

  /** Nobody of this key is between a missed snapshot and its answer. */
  predicate Settled(s: State, key: DedupeKey) {
    forall t | t in s.threads && s.threads[t].key == key :: s.threads[t].phase != Missed && s.threads[t].phase != Landed
  }

  /** The put of this dispatch reaches the table, whatever its caller hears. */
  predicate Reaches(e: Event) {
    e.Land? || (e.FailPut? && e.landed)
  }

  lemma FirstReach(mid: State, e: Event, key: DedupeKey)
    requires Consistent(mid) && Reaches(e) && Enabled(mid, e) && mid.threads[e.t].key == key && key !in mid.store
    ensures key in Apply(mid, e).store && Through(Apply(mid, e), key) == Missers(mid, key) + Lost(mid, key)
  {
    assert Through(mid, key) == Missers(mid, key) + Lost(mid, key);
    assert Through(Apply(mid, e), key) == Through(mid, key);
  }

  /**
   Who is accepted, exactly. When the first put of a key reaches the table, those
   whose snapshot had missed it are the only ones ever accepted; as soon as none
   of them is still on the way, those accepted are all of them but the ones whose
   own put raised.
   */
  lemma AcceptancesAreEarlySnapshots(s: State, before: seq<Event>, e: Event, after: seq<Event>, key: DedupeKey)
    requires Consistent(s) && Valid(s, before + ([e] + after)) && Valid(s, before) && Reaches(e)
    requires var mid := Exec(s, before); e.t in mid.threads && mid.threads[e.t].key == key && key !in mid.store
    ensures var mid, final := Exec(s, before), Exec(s, before + ([e] + after));
            && ClaimedBy(final, key) <= Missers(mid, key)
            && (ClaimedBy(final, key) == Missers(mid, key) - Lost(final, key) <==> Settled(final, key))
  {
    ValidSplit(s, before, [e] + after);
    ConsistentKept(s, before);
    var mid, final := Exec(s, before), Exec(s, before + ([e] + after));
    assert ([e] + after)[1..] == after;
    FirstReach(mid, e, key);
    ThroughIsFixed(Apply(mid, e), after, key);
    LostStays(mid, [e] + after, key);
    ClaimedWhenSettled(final, key);
    assert Through(final, key) == Missers(mid, key) + Lost(mid, key);
  }

  lemma {:induction false} LostStays(s: State, trace: seq<Event>, key: DedupeKey)
    requires Valid(s, trace)
    ensures Lost(s, key) <= Lost(Exec(s, trace), key)
    decreases |trace|
  {
    if trace != [] {
      assert Lost(s, key) <= Lost(Apply(s, trace[0]), key);
      LostStays(Apply(s, trace[0]), trace[1..], key);
    }
  }

  lemma ClaimedWhenSettled(s: State, key: DedupeKey)
    ensures ClaimedBy(s, key) <= Through(s, key) - Lost(s, key)
    ensures ClaimedBy(s, key) == Through(s, key) - Lost(s, key) <==> Settled(s, key)
  {
    if ClaimedBy(s, key) == Through(s, key) - Lost(s, key) {
      forall t | t in s.threads && s.threads[t].key == key
        ensures s.threads[t].phase != Missed && s.threads[t].phase != Landed
      {
        assert t in Through(s, key) - Lost(s, key) ==> t in ClaimedBy(s, key);
      }
    }
  }

  // Serial runs

  predicate Active(s: State, t: Tid) {
    t in s.threads && (s.threads[t].phase == Reading || s.threads[t].phase == Missed || s.threads[t].phase == Landed)
  }

  /** No dispatch begins while another is at the store. */
  predicate Serial(s: State, trace: seq<Event>)
    decreases |trace|
  {
    || trace == []
    || (&& Enabled(s, trace[0])
        && (trace[0].Begin? ==> forall t | t in s.threads :: !Active(s, t))
        && Serial(Apply(s, trace[0]), trace[1..]))
  }

  ghost predicate OneActive(s: State) {
    forall t, u | Active(s, t) && Active(s, u) :: t == u
  }

  /** Once a dispatch of a key is accepted, no other one of that key is past its read. */
  ghost predicate WinnerIsAlone(s: State) {
    forall t, u | At(s, t, Claimed) && u in s.threads && u != t && s.threads[u].key == s.threads[t].key ::
      Silent(s, u) || At(s, u, PutRaised)
  }

  ghost predicate SerialInvariant(s: State) {
    Consistent(s) && OneActive(s) && WinnerIsAlone(s)
  }

  lemma SerialBegin(s: State, t: Tid, key: DedupeKey)
    requires SerialInvariant(s) && t !in s.threads && forall u | u in s.threads :: !Active(s, u)
    ensures SerialInvariant(Apply(s, Begin(t, key)))
  {
    var n := Apply(s, Begin(t, key));
    assert forall u | Active(n, u) :: u == t;
    forall u, v | At(n, u, Claimed) && v in n.threads && v != u && n.threads[v].key == n.threads[u].key
      ensures Silent(n, v) || At(n, v, PutRaised)
    {
      assert At(s, u, Claimed);
    }
  }

  /** A thread that leaves the active phases, or stays the one active thread, keeps the rest as it was. */
  lemma SerialMove(s: State, e: Event)
    requires SerialInvariant(s) && Enabled(s, e) && !e.Begin?
    ensures SerialInvariant(Apply(s, e))
  {
    var n := Apply(s, e);
    assert Active(s, e.t);
    forall u | u in s.threads && u != e.t ensures n.threads[u] == s.threads[u] && !Active(s, u) && !Active(n, u) {
      assert Active(s, u) ==> u == e.t;
    }
    assert n.threads.Keys == s.threads.Keys;
    assert forall u | Active(n, u) :: u == e.t;
    forall u, v | At(n, u, Claimed) && v in n.threads && v != u && n.threads[v].key == n.threads[u].key
      ensures Silent(n, v) || At(n, v, PutRaised)
    {
      if u == e.t {
        assert At(s, u, Landed) && !Active(s, v);
        assert At(s, v, Claimed) ==> Silent(s, u) || At(s, u, PutRaised);
      } else {
        assert At(s, u, Claimed) && s.threads[u].key in s.store;
      }
    }
  }

  lemma SerialStep(s: State, e: Event)
    requires SerialInvariant(s) && Enabled(s, e)
    requires e.Begin? ==> forall t | t in s.threads :: !Active(s, t)
    ensures SerialInvariant(Apply(s, e))
  {
    if e.Begin? {
      SerialBegin(s, e.t, e.key);
    } else {
      SerialMove(s, e);
    }
  }

  /** In a serial run a key is accepted at most once. */
  lemma {:induction false} SerialAcceptsOnce(s: State, trace: seq<Event>, key: DedupeKey)
    requires SerialInvariant(s) && Serial(s, trace)
    ensures Valid(s, trace)
    ensures forall t, u | t in ClaimedBy(Exec(s, trace), key) && u in ClaimedBy(Exec(s, trace), key) :: t == u
    decreases |trace|
  {
    if trace != [] {
      SerialStep(s, trace[0]);
      SerialAcceptsOnce(Apply(s, trace[0]), trace[1..], key);
    } else {
      forall t, u | t in ClaimedBy(s, key) && u in ClaimedBy(s, key) ensures t == u {
        assert At(s, t, Claimed) && At(s, u, Claimed);
      }
    }
  }

  lemma OneMore(s: State, e: Event, n: State, rest: seq<Event>, last: State)
    requires Enabled(s, e) && Apply(s, e) == n && Valid(n, rest) && Exec(n, rest) == last
    ensures Valid(s, [e] + rest) && Exec(s, [e] + rest) == last
  {
    assert ([e] + rest)[1..] == rest;
  }

  /** Two dispatches of one key, in the given phases. */
  function Both(store: set<DedupeKey>, key: DedupeKey, p1: Phase, p2: Phase): State {
    State(store, map[1 := Thread(key, p1), 2 := Thread(key, p2)])
  }

  function SecondHalf(): seq<Event> {
    [Land(1)] + ([Land(2)] + ([Finish(1)] + ([Finish(2)] + [])))
  }

  lemma BothClaim(key: DedupeKey)
    ensures Valid(Both({}, key, Missed, Missed), SecondHalf())
    ensures Exec(Both({}, key, Missed, Missed), SecondHalf()) == Both({key}, key, Claimed, Claimed)
  {
    var last := Both({key}, key, Claimed, Claimed);
    OneMore(Both({key}, key, Claimed, Landed), Finish(2), last, [], last);
    OneMore(Both({key}, key, Landed, Landed), Finish(1), Both({key}, key, Claimed, Landed), [Finish(2)] + [], last);
    OneMore(Both({key}, key, Landed, Missed), Land(2), Both({key}, key, Landed, Landed),
            [Finish(1)] + ([Finish(2)] + []), last);
    OneMore(Both({}, key, Missed, Missed), Land(1), Both({key}, key, Landed, Missed),
            [Land(2)] + ([Finish(1)] + ([Finish(2)] + [])), last);
  }

  /** Both reads are taken before either put lands. */
  function Overlap(key: DedupeKey): seq<Event> {
    [Begin(1, key)] + ([Begin(2, key)] + ([Take(1)] + ([Take(2)] + SecondHalf())))
  }

  /** The bound is real: two overlapping dispatches of one key are both accepted. */
  lemma OverlapAcceptsTwice(key: DedupeKey)
    ensures Valid(State({}, map[]), Overlap(key))
    ensures ClaimedBy(Exec(State({}, map[]), Overlap(key)), key) == {1, 2}
  {
    var last, half := Both({key}, key, Claimed, Claimed), SecondHalf();
    BothClaim(key);
    OneMore(Both({}, key, Missed, Reading), Take(2), Both({}, key, Missed, Missed), half, last);
    OneMore(Both({}, key, Reading, Reading), Take(1), Both({}, key, Missed, Reading), [Take(2)] + half, last);
    var one := State({}, map[1 := Thread(key, Reading)]);
    OneMore(one, Begin(2, key), Both({}, key, Reading, Reading), [Take(1)] + ([Take(2)] + half), last);
    OneMore(State({}, map[]), Begin(1, key), one, [Begin(2, key)] + ([Take(1)] + ([Take(2)] + half)), last);
    assert ClaimedBy(last, key) == {1, 2};
  }
}

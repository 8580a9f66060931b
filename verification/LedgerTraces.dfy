/** Any number of callers appending at once: each put is a step of its own, and the bucket arbitrates. */
module LedgerTraces {
  import opened Ledger

  type Tid = nat

  /** A call ahead of its first put, ahead of its second, or answered. */
  datatype Call = First(a: Args) | Second(a: Args) | Done(a: Args, key: string, deduplicated: bool)

  datatype Shared = Shared(objects: Objects, calls: map<Tid, Call>)

  datatype Event = Enter(t: Tid, a: Args) | Put(t: Tid)

  const EMPTY := Shared(map[], map[])

  predicate Enabled(s: Shared, e: Event) {
    match e
    case Enter(t, _) => t !in s.calls
    case Put(t) => t in s.calls && !s.calls[t].Done?
  }

  /** One conditional put under `key`: the answer if it lands, `refused` if the key is taken. */
  function TryPut(s: Shared, t: Tid, key: string, refused: Call): Shared
    requires t in s.calls
  {
    var a := s.calls[t].a;
    if key !in s.objects then Shared(s.objects[key := a.content], s.calls[t := Done(a, key, false)])
    else s.(calls := s.calls[t := refused])
  }

  function Apply(layout: Layout, s: Shared, e: Event): Shared
    requires Enabled(s, e)
  {
    match e
    case Enter(t, a) => s.(calls := s.calls[t := First(a)])
    case Put(t) =>
      match s.calls[t]
      case First(a) => TryPut(s, t, layout.natural(a), Second(a))
      case Second(a) => TryPut(s, t, layout.hashed(a), Done(a, layout.hashed(a), true))
  }

  predicate Valid(layout: Layout, s: Shared, trace: seq<Event>)
    decreases |trace|
  {
    trace == [] || (Enabled(s, trace[0]) && Valid(layout, Apply(layout, s, trace[0]), trace[1..]))
  }

  function Exec(layout: Layout, s: Shared, trace: seq<Event>): Shared
    requires Valid(layout, s, trace)
    decreases |trace|
  {
    if trace == [] then s else Exec(layout, Apply(layout, s, trace[0]), trace[1..])
  }

  // Append only

  /** The calls that put an object of their own. */
  function Stored(s: Shared): set<Tid> {
    set t | t in s.calls && s.calls[t].Done? && !s.calls[t].deduplicated
  }

  /** What a step keeps: objects, answers, and the difference between objects and calls that stored one. */
  ghost predicate Extends(s: Shared, n: Shared) {
    && |n.objects| - |Stored(n)| == |s.objects| - |Stored(s)|
    && (forall k | k in s.objects :: k in n.objects && n.objects[k] == s.objects[k])
    && (forall t | t in s.calls && s.calls[t].Done? :: t in n.calls && n.calls[t] == s.calls[t])
  }

  lemma TryPutExtends(s: Shared, t: Tid, key: string, refused: Call)
    requires t in s.calls && !s.calls[t].Done? && (refused.Done? ==> refused.deduplicated)
    ensures Extends(s, TryPut(s, t, key, refused))
  {
    var n := TryPut(s, t, key, refused);
    if key !in s.objects {
      assert Stored(n) == Stored(s) + {t};
      assert n.objects.Keys == s.objects.Keys + {key};
      assert |n.objects.Keys| == |s.objects.Keys| + 1;
    } else {
      assert Stored(n) == Stored(s);
    }
  }

  lemma StepExtends(layout: Layout, s: Shared, e: Event)
    requires Enabled(s, e)
    ensures Extends(s, Apply(layout, s, e))
  {
    if e.Enter? {
      assert Stored(Apply(layout, s, e)) == Stored(s);
    } else {
      var a := s.calls[e.t].a;
      TryPutExtends(s, e.t, layout.natural(a), Second(a));
      TryPutExtends(s, e.t, layout.hashed(a), Done(a, layout.hashed(a), true));
    }
  }

  /**
   Over every interleaving nothing stored is changed or removed, an answer stands,
   and the bucket grows by exactly one object for each call that put its own.
   */
  lemma {:induction false} TraceAppendOnly(layout: Layout, s: Shared, trace: seq<Event>)
    requires Valid(layout, s, trace)
    ensures Extends(s, Exec(layout, s, trace))
    decreases |trace|
  {
    if trace != [] {
      StepExtends(layout, s, trace[0]);
      TraceAppendOnly(layout, Apply(layout, s, trace[0]), trace[1..]);
    }
  }

  // Answers that can be trusted

  /** Every answered key holds its call's content. */
  predicate Truthful(s: Shared) {
    forall t | t in s.calls && s.calls[t].Done? ::
      s.calls[t].key in s.objects && s.objects[s.calls[t].key] == s.calls[t].a.content
  }

  predicate Draws(trace: seq<Event>, requests: set<Args>) {
    forall i | 0 <= i < |trace| && trace[i].Enter? :: trace[i].a in requests
  }

  ghost predicate Sound(layout: Layout, requests: set<Args>, s: Shared) {
    && Owned(layout, requests, s.objects)
    && (forall t | t in s.calls :: s.calls[t].a in requests)
    && (NoClash(layout, requests) ==> Truthful(s))
  }

  lemma PutOwned(layout: Layout, requests: set<Args>, objects: Objects, a: Args, key: string)
    requires Owned(layout, requests, objects) && a in requests && Names(layout, a, key)
    ensures Owned(layout, requests, objects[key := a.content])
  {
    var after := objects[key := a.content];
    forall k | k in after ensures exists b | b in requests :: Names(layout, b, k) && after[k] == b.content {
      if k != key {
        var b :| b in requests && Names(layout, b, k) && objects[k] == b.content;
      }
    }
  }

  /** A taken fallback name holds the caller's content, if nothing clashes. */
  lemma TakenNameHolds(layout: Layout, requests: set<Args>, objects: Objects, a: Args)
    requires Owned(layout, requests, objects) && NoClash(layout, requests) && a in requests
    ensures layout.hashed(a) in objects ==> objects[layout.hashed(a)] == a.content
  {
    if layout.hashed(a) in objects {
      var b :| b in requests && Names(layout, b, layout.hashed(a)) && objects[layout.hashed(a)] == b.content;
      assert !Clash(layout, b, a);
    }
  }

  lemma PutSound(layout: Layout, requests: set<Args>, s: Shared, t: Tid)
    requires Sound(layout, requests, s) && Enabled(s, Put(t))
    ensures Sound(layout, requests, Apply(layout, s, Put(t)))
  {
    var a := s.calls[t].a;
    PutOwned(layout, requests, s.objects, a, layout.natural(a));
    PutOwned(layout, requests, s.objects, a, layout.hashed(a));
    if NoClash(layout, requests) {
      TakenNameHolds(layout, requests, s.objects, a);
    }
  }

  lemma {:induction false} TraceSound(layout: Layout, requests: set<Args>, s: Shared, trace: seq<Event>)
    requires Sound(layout, requests, s) && Valid(layout, s, trace) && Draws(trace, requests)
    ensures Sound(layout, requests, Exec(layout, s, trace))
    decreases |trace|
  {
    if trace != [] {
      var e := trace[0];
      if e.Put? {
        PutSound(layout, requests, s, e.t);
      }
      assert Draws(trace[1..], requests) by {
        assert forall i | 0 <= i < |trace[1..]| :: trace[1..][i] == trace[i + 1];
      }
      TraceSound(layout, requests, Apply(layout, s, e), trace[1..]);
    }
  }

  // One call after another

  /** The steps of one undisturbed call. */
  function CallTrace(layout: Layout, objects: Objects, t: Tid, a: Args): seq<Event> {
    [Enter(t, a)] + ([Put(t)] + if layout.natural(a) in objects then [Put(t)] + [] else [])
  }

  function SerialTrace(layout: Layout, objects: Objects, t: Tid, run: seq<Args>): seq<Event>
    decreases |run|
  {
    if run == [] then []
    else
      CallTrace(layout, objects, t, run[0])
      + SerialTrace(layout, Append(layout, objects, run[0]).objects, t + 1, run[1..])
  }

  lemma OneMore(layout: Layout, s: Shared, e: Event, rest: seq<Event>)
    requires Enabled(s, e) && Valid(layout, Apply(layout, s, e), rest)
    ensures Valid(layout, s, [e] + rest) && Exec(layout, s, [e] + rest) == Exec(layout, Apply(layout, s, e), rest)
  {
    assert ([e] + rest)[1..] == rest;
  }

  /** Undisturbed, the two puts are the one step of the sequential model. */
  lemma CallIsAppend(layout: Layout, s: Shared, t: Tid, a: Args)
    requires t !in s.calls
    ensures var done := Append(layout, s.objects, a);
            && Valid(layout, s, CallTrace(layout, s.objects, t, a))
            && Exec(layout, s, CallTrace(layout, s.objects, t, a))
               == Shared(done.objects, s.calls[t := Done(a, done.key, done.deduplicated)])
  {
    var entered := Apply(layout, s, Enter(t, a));
    var tried := Apply(layout, entered, Put(t));
    if layout.natural(a) in s.objects {
      OneMore(layout, tried, Put(t), []);
      OneMore(layout, entered, Put(t), [Put(t)] + []);
      OneMore(layout, s, Enter(t, a), [Put(t)] + ([Put(t)] + []));
    } else {
      OneMore(layout, entered, Put(t), []);
      OneMore(layout, s, Enter(t, a), [Put(t)] + []);
    }
  }

  lemma {:induction false} JoinTraces(layout: Layout, s: Shared, x: seq<Event>, y: seq<Event>)
    requires Valid(layout, s, x) && Valid(layout, Exec(layout, s, x), y)
    ensures Valid(layout, s, x + y) && Exec(layout, s, x + y) == Exec(layout, Exec(layout, s, x), y)
    decreases |x|
  {
    if x == [] {
      assert x + y == y;
    } else {
      assert (x + y)[0] == x[0] && (x + y)[1..] == x[1..] + y;
      JoinTraces(layout, Apply(layout, s, x[0]), x[1..], y);
    }
  }

  lemma DrawsJoined(x: seq<Event>, y: seq<Event>, requests: set<Args>)
    requires Draws(x, requests) && Draws(y, requests)
    ensures Draws(x + y, requests)
  {
  }

  /** A sequential run is one of the interleavings, and a misleading answer in it misleads to the end. */
  lemma {:induction false} SerialIsTrace(layout: Layout, requests: set<Args>, s: Shared, t: Tid, run: seq<Args>)
    requires (forall u | u in s.calls :: u < t) && forall a | a in run :: a in requests
    ensures var trace := SerialTrace(layout, s.objects, t, run);
            && Valid(layout, s, trace) && Draws(trace, requests)
            && Exec(layout, s, trace).objects == Bucket(layout, s.objects, run)
            && (Truthful(Exec(layout, s, trace)) ==> Ledger.Truthful(layout, s.objects, run))
    decreases |run|
  {
    if run != [] {
      var a, done := run[0], Append(layout, s.objects, run[0]);
      var first := CallTrace(layout, s.objects, t, a);
      CallIsAppend(layout, s, t, a);
      var next := Exec(layout, s, first);
      SerialIsTrace(layout, requests, next, t + 1, run[1..]);
      var rest := SerialTrace(layout, done.objects, t + 1, run[1..]);
      JoinTraces(layout, s, first, rest);
      DrawsJoined(first, rest, requests);
      TraceAppendOnly(layout, next, rest);
      assert next.calls[t] == Done(a, done.key, done.deduplicated);
    }
  }

  /**
   Exactly when an answer can be trusted, over every interleaving of any number
   of callers: each answered key holds its call's content in every trace drawn
   from `requests` iff no two of the requests clash.
   */
  lemma TruthfulIffNoClash(hash12: string -> string, prefix: string, requests: set<Args>)
    ensures var layout := KeyLayout(hash12, prefix);
            NoClash(layout, requests) <==>
            forall trace: seq<Event> | Valid(layout, EMPTY, trace) && Draws(trace, requests) ::
              Truthful(Exec(layout, EMPTY, trace))
  {
    var layout := KeyLayout(hash12, prefix);
    if NoClash(layout, requests) {
      forall trace: seq<Event> | Valid(layout, EMPTY, trace) && Draws(trace, requests)
        ensures Truthful(Exec(layout, EMPTY, trace))
      {
        TraceSound(layout, requests, EMPTY, trace);
      }
    } else {
      var a, b :| a in requests && b in requests && Clash(layout, a, b);
      ClashingRun(hash12, prefix, a, b);
      var run := MisleadingRun(layout, a, b);
      SerialIsTrace(layout, requests, EMPTY, 0, run);
      assert !Truthful(Exec(layout, EMPTY, SerialTrace(layout, map[], 0, run)));
    }
  }

  /** Calls made one after another are no safer: the same condition is exact for the runs of the sequential model. */
  lemma SerialTruthfulIffNoClash(hash12: string -> string, prefix: string, requests: set<Args>)
    ensures var layout := KeyLayout(hash12, prefix);
            NoClash(layout, requests) <==>
            forall run: seq<Args> | (forall a | a in run :: a in requests) :: Ledger.Truthful(layout, map[], run)
  {
    var layout := KeyLayout(hash12, prefix);
    if NoClash(layout, requests) {
      forall run: seq<Args> | (forall a | a in run :: a in requests) ensures Ledger.Truthful(layout, map[], run) {
        SerialIsTrace(layout, requests, EMPTY, 0, run);
        TraceSound(layout, requests, EMPTY, SerialTrace(layout, map[], 0, run));
      }
    } else {
      var a, b :| a in requests && b in requests && Clash(layout, a, b);
      ClashingRun(hash12, prefix, a, b);
      assert forall x | x in MisleadingRun(layout, a, b) :: x in requests;
    }
  }

  /** Over every interleaving, the objects of one slot are at most its distinct contents plus one. */
  lemma SlotIsBounded(hash12: string -> string, prefix: string, requests: set<Args>, trace: seq<Event>, slot: Slot)
    requires CutsDigests(hash12) && PlainSlot(slot) && forall a | a in requests :: ValidArgs(a) && Dotless(a)
    requires Valid(KeyLayout(hash12, prefix), EMPTY, trace) && Draws(trace, requests)
    ensures var after := Exec(KeyLayout(hash12, prefix), EMPTY, trace).objects;
            |set k | k in after && InSlot(hash12, prefix, slot, k)| <= |ContentsOf(requests, slot)| + 1
  {
    var layout := KeyLayout(hash12, prefix);
    TraceSound(layout, requests, EMPTY, trace);
    OwnedSlotIsBounded(hash12, prefix, requests, Exec(layout, EMPTY, trace).objects, slot);
  }
}

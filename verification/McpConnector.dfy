/** The MCP connector's two locks and one loop, as a state machine over every interleaving of its callers. */
module McpConnector {
  import opened Prelude

  type Tid = nat
  type Loop = nat

  /** Where one caller stands: in `execute` (building the host, then calling), or in `close`. */
  datatype Pc =
    | Start
    | WantHost
    | HoldHost
    | BuildWantLoop
    | BuildHoldLoop
    | Building(l: Loop)
    | Built(l: Loop)
    | Leaving
    | CallWantLoop
    | CallHoldLoop
    | Calling(l: Loop)
    | CloseWantLoop
    | CloseHoldLoop
    | Taken(l: Loop)
    | Cancelling(l: Loop)
    | Stopping(l: Loop)
    | Ended
  {
    predicate HoldsHostLock() {
      HoldHost? || BuildWantLoop? || BuildHoldLoop? || Building? || Built? || Leaving?
    }

    predicate HoldsLoopLock() {
      BuildHoldLoop? || CallHoldLoop? || CloseHoldLoop?
    }

    predicate IsBuilding() {
      BuildWantLoop? || BuildHoldLoop? || Building? || Built?
    }
  }

  /** A host, and the loop its factory ran on; an instance handed in was built on none. */
  datatype Host = Host(builtOn: Option<Loop>)

  /**
   The connector's fields and locks, its callers, and what has happened so far:
   how often `_host` was assigned, how many loops were made, which ones a close
   took, where coroutines were driven, whether `aclose` was attempted on the way
   down, and how often each loop was stopped.
   */
  datatype State = State(
    host: Option<Host>,
    loop: Option<Loop>,
    hostLock: Option<Tid>,
    loopLock: Option<Tid>,
    callers: map<Tid, Pc>,
    hostWrites: nat,
    created: nat,
    taken: set<Loop>,
    driven: set<Loop>,
    aclosed: map<Loop, bool>,
    stops: multiset<Loop>)

  /** A new caller, or one step of a caller; `ok` decides whether an awaited coroutine or check succeeds. */
  datatype Event = Enter(t: Tid, closing: bool) | Move(t: Tid, ok: bool)

  function Initial(instance: bool): State {
    State(if instance then Some(Host(None)) else None, None, None, None, map[], 0, 0, {}, {}, map[], multiset{})
  }

  predicate Enabled(s: State, e: Event) {
    match e
    case Enter(t, _) => t !in s.callers
    case Move(t, _) =>
      t in s.callers &&
      match s.callers[t]
      case WantHost => s.hostLock.None?
      case BuildWantLoop => s.loopLock.None?
      case CallWantLoop => s.loopLock.None?
      case CloseWantLoop => s.loopLock.None?
      case Ended => false
      case _ => true
  }

  function Go(s: State, t: Tid, pc: Pc): State {
    s.(callers := s.callers[t := pc])
  }

  /** Past the host check: on to the call, or out with the server-mismatch or argument error. */
  function Onward(ok: bool): Pc {
    if ok then CallWantLoop else Ended
  }

  /** `_ensure_loop` with the loop lock held, then the coroutine is submitted to that loop. */
  function OnLoop(s: State, t: Tid, calling: bool): State {
    var l := if s.loop.Some? then s.loop.value else s.created;
    Go(s, t, if calling then Calling(l) else Building(l))
      .(loop := Some(l), created := if s.loop.Some? then s.created else s.created + 1,
        driven := s.driven + {l}, loopLock := None)
  }

  function Apply(s: State, hasAclose: bool, e: Event): State
    requires Enabled(s, e)
  {
    match e
    case Enter(t, closing) => Go(s, t, if closing then CloseWantLoop else Start)
    case Move(t, ok) =>
      match s.callers[t]
      case Start => Go(s, t, if s.host.Some? then Onward(ok) else WantHost)
      case WantHost => Go(s, t, HoldHost).(hostLock := Some(t))
      case HoldHost => if s.host.Some? then Go(s, t, Onward(ok)).(hostLock := None) else Go(s, t, BuildWantLoop)
      case BuildWantLoop => Go(s, t, BuildHoldLoop).(loopLock := Some(t))
      case BuildHoldLoop => OnLoop(s, t, false)
      case Building(l) => if ok then Go(s, t, Built(l)) else Go(s, t, Ended).(hostLock := None)
      case Built(l) => Go(s, t, Leaving).(host := Some(Host(Some(l))), hostWrites := s.hostWrites + 1)
      case Leaving => Go(s, t, Onward(ok)).(hostLock := None)
      case CallWantLoop => Go(s, t, CallHoldLoop).(loopLock := Some(t))
      case CallHoldLoop => OnLoop(s, t, true)
      case Calling(_) => Go(s, t, Ended)
      case CloseWantLoop => Go(s, t, CloseHoldLoop).(loopLock := Some(t))
      case CloseHoldLoop =>
        if s.loop.None? then Go(s, t, Ended).(loopLock := None)
        else Go(s, t, Taken(s.loop.value)).(loop := None, loopLock := None, taken := s.taken + {s.loop.value})
      case Taken(l) => Go(s, t, Cancelling(l)).(aclosed := s.aclosed[l := s.host.Some? && hasAclose])
      case Cancelling(l) => Go(s, t, Stopping(l))
      case Stopping(l) => Go(s, t, Ended).(stops := s.stops + multiset{l})
  }

  predicate ValidTrace(s: State, hasAclose: bool, trace: seq<Event>)
    decreases |trace|
  {
    trace == [] || (Enabled(s, trace[0]) && ValidTrace(Apply(s, hasAclose, trace[0]), hasAclose, trace[1..]))
  }

  function Exec(s: State, hasAclose: bool, trace: seq<Event>): State
    requires ValidTrace(s, hasAclose, trace)
    decreases |trace|
  {
    if trace == [] then s else Exec(Apply(s, hasAclose, trace[0]), hasAclose, trace[1..])
  }

  // What every step keeps

  /** A lock's owner is exactly the caller whose position says so. */
  ghost predicate LocksHeld(s: State) {
    && (forall t :: s.hostLock == Some(t) <==> t in s.callers && s.callers[t].HoldsHostLock())
    && (forall t :: s.loopLock == Some(t) <==> t in s.callers && s.callers[t].HoldsLoopLock())
  }

  /** The host is assigned at most once, and only while nobody has one. */
  ghost predicate HostOnce(s: State) {
    && s.hostWrites <= 1
    && (s.hostWrites == 1 ==> s.host.Some?)
    && (forall t | t in s.callers && s.callers[t].IsBuilding() :: s.host.None?)
  }

  predicate OnDriven(pc: Pc, driven: set<Loop>) {
    pc.Building? || pc.Built? || pc.Calling? ==> pc.l in driven
  }

  /** Every loop made is the current one or was taken by a close; work and hosts refer to loops made. */
  ghost predicate LoopsKnown(s: State) {
    && (forall l: Loop :: l < s.created <==> s.loop == Some(l) || l in s.taken)
    && (s.loop.Some? ==> s.loop.value !in s.taken)
    && (forall l | l in s.driven :: l < s.created)
    && (s.host.Some? && s.host.value.builtOn.Some? ==> s.host.value.builtOn.value in s.driven)
    && (forall t | t in s.callers :: OnDriven(s.callers[t], s.driven))
  }

  /** The loop a caller has taken and not yet stopped. */
  function ClosingOf(s: State, t: Tid): Option<Loop> {
    if t in s.callers && (s.callers[t].Taken? || s.callers[t].Cancelling? || s.callers[t].Stopping?)
    then Some(s.callers[t].l) else None
  }

  /** On the way to the stop, `aclose` has been settled. */
  predicate Settled(pc: Pc, aclosed: map<Loop, bool>) {
    pc.Cancelling? || pc.Stopping? ==> pc.l in aclosed
  }

  /** A taken loop is either being closed by exactly one caller or has been stopped exactly once. */
  ghost predicate StoppedOnce(s: State) {
    && (forall l: Loop :: s.stops[l] <= 1)
    && (forall l: Loop | s.stops[l] == 1 :: l in s.taken && l in s.aclosed)
    && (forall t | ClosingOf(s, t).Some? :: ClosingOf(s, t).value in s.taken && s.stops[ClosingOf(s, t).value] == 0)
    && (forall t, u | ClosingOf(s, t).Some? && ClosingOf(s, t) == ClosingOf(s, u) :: t == u)
    && (forall t | t in s.callers :: Settled(s.callers[t], s.aclosed))
    && (forall l | l in s.taken && s.stops[l] == 0 :: exists t :: ClosingOf(s, t) == Some(l))
  }

  ghost predicate Invariant(s: State) {
    LocksHeld(s) && HostOnce(s) && LoopsKnown(s) && StoppedOnce(s)
  }

  /** How a step treats one lock: left alone by a caller that keeps its claim to it, taken while free, or given up. */
  predicate LockMoves(before: Option<Tid>, after: Option<Tid>, t: Tid, held: bool, holds: bool) {
    || (after == before && held == holds)
    || (before.None? && after == Some(t) && !held && holds)
    || (after.None? && held && !holds)
  }

  predicate HeldHost(s: State, t: Tid) {
    t in s.callers && s.callers[t].HoldsHostLock()
  }

  predicate HeldLoop(s: State, t: Tid) {
    t in s.callers && s.callers[t].HoldsLoopLock()
  }

  lemma HostLockMoves(s: State, hasAclose: bool, e: Event)
    requires Enabled(s, e)
    ensures var n := Apply(s, hasAclose, e); LockMoves(s.hostLock, n.hostLock, e.t, HeldHost(s, e.t), HeldHost(n, e.t))
  {
  }

  lemma LoopLockMoves(s: State, hasAclose: bool, e: Event)
    requires Enabled(s, e)
    ensures var n := Apply(s, hasAclose, e); LockMoves(s.loopLock, n.loopLock, e.t, HeldLoop(s, e.t), HeldLoop(n, e.t))
  {
  }

  lemma OneCallerMoves(s: State, hasAclose: bool, e: Event)
    requires Enabled(s, e)
    ensures var n := Apply(s, hasAclose, e); e.t in n.callers && n.callers == s.callers[e.t := n.callers[e.t]]
  {
  }

  lemma LocksMove(s: State, hasAclose: bool, e: Event)
    requires Enabled(s, e)
    ensures var n := Apply(s, hasAclose, e);
            && e.t in n.callers && n.callers == s.callers[e.t := n.callers[e.t]]
            && LockMoves(s.hostLock, n.hostLock, e.t, HeldHost(s, e.t), HeldHost(n, e.t))
            && LockMoves(s.loopLock, n.loopLock, e.t, HeldLoop(s, e.t), HeldLoop(n, e.t))
  {
    OneCallerMoves(s, hasAclose, e);
    HostLockMoves(s, hasAclose, e);
    LoopLockMoves(s, hasAclose, e);
  }

  lemma LocksFrame(s: State, n: State, t: Tid)
    requires LocksHeld(s) && t in n.callers && n.callers == s.callers[t := n.callers[t]]
    requires LockMoves(s.hostLock, n.hostLock, t, HeldHost(s, t), HeldHost(n, t))
    requires LockMoves(s.loopLock, n.loopLock, t, HeldLoop(s, t), HeldLoop(n, t))
    ensures LocksHeld(n)
  {
  }

  lemma LocksKept(s: State, hasAclose: bool, e: Event)
    requires LocksHeld(s) && Enabled(s, e)
    ensures LocksHeld(Apply(s, hasAclose, e))
  {
    LocksMove(s, hasAclose, e);
    LocksFrame(s, Apply(s, hasAclose, e), e.t);
  }

  lemma HostOnceKept(s: State, hasAclose: bool, e: Event)
    requires LocksHeld(s) && HostOnce(s) && Enabled(s, e)
    ensures HostOnce(Apply(s, hasAclose, e))
  {
    var n := Apply(s, hasAclose, e);
    forall t | t in n.callers && n.callers[t].IsBuilding() ensures n.host.None? {
      if t != e.t {
        assert s.hostLock == Some(t);
      }
    }
  }

  lemma LoopsFrame(s: State, n: State, t: Tid)
    requires LoopsKnown(s) && t in n.callers && n.callers == s.callers[t := n.callers[t]]
    requires s.driven <= n.driven && OnDriven(n.callers[t], n.driven)
    requires n.host == s.host || (n.host.Some? && n.host.value.builtOn.Some? && n.host.value.builtOn.value in n.driven)
    requires forall l: Loop :: l < n.created <==> n.loop == Some(l) || l in n.taken
    requires n.loop.Some? ==> n.loop.value !in n.taken
    requires s.created <= n.created && forall l | l in n.driven && l !in s.driven :: l < n.created
    ensures LoopsKnown(n)
  {
  }

  /** The four ways a step can treat the loop: leave it, use it, make it, take it. */
  predicate LoopMoves(s: State, n: State) {
    || (n.loop == s.loop && n.created == s.created && n.taken == s.taken && n.driven == s.driven)
    || (s.loop.Some? && n.loop == s.loop && n.created == s.created && n.taken == s.taken
        && n.driven == s.driven + {s.loop.value})
    || (s.loop.None? && n.loop == Some(s.created) && n.created == s.created + 1 && n.taken == s.taken
        && n.driven == s.driven + {s.created})
    || (s.loop.Some? && n.loop.None? && n.created == s.created && n.taken == s.taken + {s.loop.value}
        && n.driven == s.driven)
  }

  lemma LoopsMove(s: State, hasAclose: bool, e: Event)
    requires Enabled(s, e) && (e.t in s.callers ==> OnDriven(s.callers[e.t], s.driven))
    ensures var n := Apply(s, hasAclose, e);
            && LoopMoves(s, n)
            && e.t in n.callers && OnDriven(n.callers[e.t], n.driven)
            && (n.host == s.host
                || (n.host.Some? && n.host.value.builtOn.Some? && n.host.value.builtOn.value in n.driven))
  {
  }

  lemma LoopsKept(s: State, hasAclose: bool, e: Event)
    requires LoopsKnown(s) && Enabled(s, e)
    ensures LoopsKnown(Apply(s, hasAclose, e))
  {
    LocksMove(s, hasAclose, e);
    LoopsMove(s, hasAclose, e);
    LoopsFrame(s, Apply(s, hasAclose, e), e.t);
  }

  /** The caller goes on closing what it was closing, or nothing. */
  predicate KeepsClosing(s: State, n: State, t: Tid) {
    ClosingOf(n, t) == ClosingOf(s, t) && n.taken == s.taken && n.stops == s.stops
  }

  predicate TakesLoop(s: State, n: State, t: Tid) {
    var now := ClosingOf(n, t);
    && ClosingOf(s, t).None? && now.Some? && now.value !in s.taken
    && n.taken == s.taken + {now.value} && n.stops == s.stops
  }

  predicate StopsLoop(s: State, n: State, t: Tid) {
    var was := ClosingOf(s, t);
    && was.Some? && ClosingOf(n, t).None? && was.value in s.aclosed
    && n.taken == s.taken && n.stops == s.stops + multiset{was.value}
  }

  /** A step keeps what its caller is closing, takes the current loop, or stops the loop it was closing. */
  predicate StopMoves(s: State, n: State, t: Tid) {
    KeepsClosing(s, n, t) || TakesLoop(s, n, t) || StopsLoop(s, n, t)
  }

  lemma LooksSettle(s: State, hasAclose: bool, e: Event)
    requires Enabled(s, e) && (e.t in s.callers ==> Settled(s.callers[e.t], s.aclosed))
    ensures var n := Apply(s, hasAclose, e);
            s.aclosed.Keys <= n.aclosed.Keys && e.t in n.callers && Settled(n.callers[e.t], n.aclosed)
  {
  }

  lemma ClosingMoves(s: State, hasAclose: bool, e: Event)
    requires Enabled(s, e) && (e.t in s.callers ==> Settled(s.callers[e.t], s.aclosed))
    requires s.loop.Some? ==> s.loop.value !in s.taken
    ensures StopMoves(s, Apply(s, hasAclose, e), e.t)
  {
  }

  lemma StopsMove(s: State, hasAclose: bool, e: Event)
    requires Enabled(s, e) && (e.t in s.callers ==> Settled(s.callers[e.t], s.aclosed))
    requires s.loop.Some? ==> s.loop.value !in s.taken
    ensures var n := Apply(s, hasAclose, e);
            && s.aclosed.Keys <= n.aclosed.Keys
            && e.t in n.callers && Settled(n.callers[e.t], n.aclosed)
            && StopMoves(s, n, e.t)
  {
    LooksSettle(s, hasAclose, e);
    ClosingMoves(s, hasAclose, e);
  }

  /** Only caller `t` moved, and what `aclose` settled stays settled. */
  ghost predicate StopFrame(s: State, n: State, t: Tid) {
    && (forall u | u != t :: ClosingOf(n, u) == ClosingOf(s, u))
    && s.aclosed.Keys <= n.aclosed.Keys
    && (forall u | u in n.callers :: Settled(n.callers[u], n.aclosed))
  }

  lemma StopFrameHolds(s: State, n: State, t: Tid)
    requires StoppedOnce(s) && t in n.callers && n.callers == s.callers[t := n.callers[t]]
    requires s.aclosed.Keys <= n.aclosed.Keys && Settled(n.callers[t], n.aclosed)
    ensures StopFrame(s, n, t)
  {
    forall u | u in n.callers ensures Settled(n.callers[u], n.aclosed) {
      assert u != t ==> Settled(s.callers[u], s.aclosed);
    }
  }

  lemma KeepsClosingFrame(s: State, n: State, t: Tid)
    requires StoppedOnce(s) && StopFrame(s, n, t) && KeepsClosing(s, n, t)
    ensures StoppedOnce(n)
  {
    assert forall u :: ClosingOf(n, u) == ClosingOf(s, u);
  }

  lemma TakesLoopFrame(s: State, n: State, t: Tid)
    requires StoppedOnce(s) && StopFrame(s, n, t) && TakesLoop(s, n, t)
    ensures StoppedOnce(n)
  {
    forall l | l in n.taken && n.stops[l] == 0 ensures exists u :: ClosingOf(n, u) == Some(l) {
      if l in s.taken {
        var u :| ClosingOf(s, u) == Some(l);
        assert ClosingOf(n, u) == Some(l);
      } else {
        assert ClosingOf(n, t) == Some(l);
      }
    }
  }

  lemma StopsLoopFrame(s: State, n: State, t: Tid)
    requires StoppedOnce(s) && StopFrame(s, n, t) && StopsLoop(s, n, t)
    ensures StoppedOnce(n)
  {
    forall l | l in n.taken && n.stops[l] == 0 ensures exists u :: ClosingOf(n, u) == Some(l) {
      var u :| ClosingOf(s, u) == Some(l);
      assert ClosingOf(n, u) == Some(l);
    }
  }

  lemma StopsFrame(s: State, n: State, t: Tid)
    requires StoppedOnce(s) && t in n.callers && n.callers == s.callers[t := n.callers[t]]
    requires s.aclosed.Keys <= n.aclosed.Keys && Settled(n.callers[t], n.aclosed) && StopMoves(s, n, t)
    ensures StoppedOnce(n)
  {
    StopFrameHolds(s, n, t);
    if KeepsClosing(s, n, t) {
      KeepsClosingFrame(s, n, t);
    } else if TakesLoop(s, n, t) {
      TakesLoopFrame(s, n, t);
    } else {
      StopsLoopFrame(s, n, t);
    }
  }

  lemma StoppedOnceKept(s: State, hasAclose: bool, e: Event)
    requires LoopsKnown(s) && StoppedOnce(s) && Enabled(s, e)
    ensures StoppedOnce(Apply(s, hasAclose, e))
  {
    LocksMove(s, hasAclose, e);
    StopsMove(s, hasAclose, e);
    StopsFrame(s, Apply(s, hasAclose, e), e.t);
  }

  lemma StepKeepsInvariant(s: State, hasAclose: bool, e: Event)
    requires Invariant(s) && Enabled(s, e)
    ensures Invariant(Apply(s, hasAclose, e))
  {
    LocksKept(s, hasAclose, e);
    HostOnceKept(s, hasAclose, e);
    LoopsKept(s, hasAclose, e);
    StoppedOnceKept(s, hasAclose, e);
  }

  lemma {:induction false} InvariantHolds(s: State, hasAclose: bool, trace: seq<Event>)
    requires Invariant(s) && ValidTrace(s, hasAclose, trace)
    ensures Invariant(Exec(s, hasAclose, trace))
    decreases |trace|
  {
    if trace != [] {
      StepKeepsInvariant(s, hasAclose, trace[0]);
      InvariantHolds(Apply(s, hasAclose, trace[0]), hasAclose, trace[1..]);
    }
  }

  lemma InitialInvariant(instance: bool)
    ensures Invariant(Initial(instance))
  {
  }

  // Theorems

  /**
   Over every interleaving of any number of callers: the host is assigned at most
   once, and as long as no close has taken a loop, at most one loop exists and
   everything - the factory, every call, the host itself - is on that one loop.
   */
  lemma OneHostOneLoop(instance: bool, hasAclose: bool, trace: seq<Event>)
    requires ValidTrace(Initial(instance), hasAclose, trace)
    ensures var s := Exec(Initial(instance), hasAclose, trace);
            && s.hostWrites <= 1
            && (s.taken == {} ==>
                  && s.created <= 1
                  && s.driven <= {0}
                  && (s.loop.Some? ==> s.loop.value == 0)
                  && (s.host.Some? && s.host.value.builtOn.Some? ==>
                        s.host.value.builtOn.value == 0 && s.loop == Some(0))
                  && (forall t | t in s.callers && (s.callers[t].Calling? || s.callers[t].Building?) ::
                        s.callers[t].l == 0))
  {
    InitialInvariant(instance);
    InvariantHolds(Initial(instance), hasAclose, trace);
    var s := Exec(Initial(instance), hasAclose, trace);
    if s.taken == {} && s.created > 0 {
      assert s.loop == Some(0);
      assert s.created > 1 ==> s.loop == Some(1);
    }
  }

  predicate Unfinished(s: State, t: Tid) {
    t in s.callers && !s.callers[t].Ended?
  }

  lemma HolderCanMove(s: State, t: Tid)
    requires LocksHeld(s) && t in s.callers
    requires s.callers[t].HoldsLoopLock() || (s.callers[t].HoldsHostLock() && s.loopLock.None?)
    ensures Enabled(s, Move(t, true))
  {
  }

  /**
   The lock waits never deadlock: in every reachable state with an unfinished
   caller, some caller can take a step. The reason is the order: whoever holds
   the loop lock waits for nothing, whoever holds the host lock waits only for
   the loop lock.
   */
  lemma NoDeadlock(instance: bool, hasAclose: bool, trace: seq<Event>, waiting: Tid)
    requires ValidTrace(Initial(instance), hasAclose, trace)
    requires Unfinished(Exec(Initial(instance), hasAclose, trace), waiting)
    ensures exists t :: Enabled(Exec(Initial(instance), hasAclose, trace), Move(t, true))
  {
    InitialInvariant(instance);
    InvariantHolds(Initial(instance), hasAclose, trace);
    var s := Exec(Initial(instance), hasAclose, trace);
    if s.loopLock.Some? {
      HolderCanMove(s, s.loopLock.value);
    } else if s.hostLock.Some? {
      HolderCanMove(s, s.hostLock.value);
    } else {
      assert Enabled(s, Move(waiting, true));
    }
  }

  /**
   Any number of concurrent closes: no loop is ever stopped twice, `aclose` was
   settled before each stop, and once every caller has ended each loop a close
   took has been stopped exactly once.
   */
  lemma EachLoopStopsOnce(instance: bool, hasAclose: bool, trace: seq<Event>, l: Loop)
    requires ValidTrace(Initial(instance), hasAclose, trace)
    ensures var s := Exec(Initial(instance), hasAclose, trace);
            && s.stops[l] <= 1
            && (s.stops[l] == 1 ==> l in s.taken && l in s.aclosed)
            && ((forall t | t in s.callers :: s.callers[t].Ended?) && l in s.taken ==> s.stops[l] == 1)
            && ((forall t | t in s.callers :: s.callers[t].Ended?) && s.loop.None? && l < s.created ==> s.stops[l] == 1)
  {
    InitialInvariant(instance);
    InvariantHolds(Initial(instance), hasAclose, trace);
  }
}

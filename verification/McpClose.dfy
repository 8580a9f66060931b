/** Whether the MCP connector's `close` attempts the host's `aclose` before it stops the loop. */
module McpClose {
  import opened Prelude
  import opened McpConnector

  /** What a step does to the record of looks. */
  lemma LookMove(s: State, hasAclose: bool, e: Event)
    requires Enabled(s, e)
    ensures var n := Apply(s, hasAclose, e);
            && s.taken <= n.taken
            && (n.aclosed == s.aclosed
                || (e.Move? && e.t in s.callers && s.callers[e.t].Taken?
                    && n.aclosed == s.aclosed[s.callers[e.t].l := s.host.Some? && hasAclose]))
            && (e.t in n.callers && n.callers[e.t].Taken? ==> s.loop == Some(n.callers[e.t].l))
  {
  }

  /** A close has looked for the host on behalf of this loop, with this result. */
  ghost predicate LookStands(s: State, l: Loop, attempted: bool) {
    && l in s.taken && l in s.aclosed && s.aclosed[l] == attempted
    && forall t | t in s.callers :: s.callers[t] != Taken(l)
  }

  lemma LookStep(s: State, hasAclose: bool, e: Event, l: Loop, attempted: bool)
    requires Enabled(s, e) && LookStands(s, l, attempted) && (s.loop.Some? ==> s.loop.value !in s.taken)
    ensures LookStands(Apply(s, hasAclose, e), l, attempted)
  {
    LookMove(s, hasAclose, e);
    OneCallerMoves(s, hasAclose, e);
  }

  lemma {:induction false} LookStandsForever(s: State, hasAclose: bool, trace: seq<Event>, l: Loop, attempted: bool)
    requires LoopsKnown(s) && ValidTrace(s, hasAclose, trace) && LookStands(s, l, attempted)
    ensures LookStands(Exec(s, hasAclose, trace), l, attempted)
    decreases |trace|
  {
    if trace != [] {
      LookStep(s, hasAclose, trace[0], l, attempted);
      LoopsKept(s, hasAclose, trace[0]);
      LookStandsForever(Apply(s, hasAclose, trace[0]), hasAclose, trace[1..], l, attempted);
    }
  }

  lemma LookBegins(s: State, hasAclose: bool, t: Tid, ok: bool, l: Loop)
    requires Invariant(s) && t in s.callers && s.callers[t] == Taken(l)
    ensures LookStands(Apply(s, hasAclose, Move(t, ok)), l, hasAclose && s.host.Some?)
  {
    var n := Apply(s, hasAclose, Move(t, ok));
    assert ClosingOf(s, t) == Some(l);
    assert forall u | u in s.callers && s.callers[u] == Taken(l) :: ClosingOf(s, u) == Some(l);
    assert forall u | u in s.callers && u != t :: n.callers[u] == s.callers[u];
  }

  /** A close attempts `aclose` iff there is a host, with one, at the step at which it looks. */
  lemma AcloseIsDecidedAtTheLook(s: State, hasAclose: bool, t: Tid, ok: bool, l: Loop, after: seq<Event>)
    requires Invariant(s) && t in s.callers && s.callers[t] == Taken(l)
    requires ValidTrace(s, hasAclose, [Move(t, ok)] + after)
    ensures var n := Exec(s, hasAclose, [Move(t, ok)] + after);
            l in n.aclosed && (n.aclosed[l] <==> hasAclose && s.host.Some?)
  {
    LookBegins(s, hasAclose, t, ok, l);
    LoopsKept(s, hasAclose, Move(t, ok));
    assert ([Move(t, ok)] + after)[1..] == after;
    LookStandsForever(Apply(s, hasAclose, Move(t, ok)), hasAclose, after, l, hasAclose && s.host.Some?);
  }

  lemma AcloseChanges(s: State, hasAclose: bool, e: Event, l: Loop)
    requires Enabled(s, e) && l !in s.aclosed && l in Apply(s, hasAclose, e).aclosed
    ensures e.Move? && e.t in s.callers && s.callers[e.t] == Taken(l)
  {
    LookMove(s, hasAclose, e);
  }

  lemma {:induction false} LookHappened(s: State, hasAclose: bool, trace: seq<Event>, l: Loop) returns (k: nat)
    requires ValidTrace(s, hasAclose, trace) && l !in s.aclosed && l in Exec(s, hasAclose, trace).aclosed
    ensures k < |trace| && trace[k].Move? && ValidTrace(s, hasAclose, trace[..k])
    ensures var mid := Exec(s, hasAclose, trace[..k]);
            && trace[k].t in mid.callers && mid.callers[trace[k].t] == Taken(l) && l !in mid.aclosed
            && ValidTrace(mid, hasAclose, trace[k..])
            && Exec(mid, hasAclose, trace[k..]) == Exec(s, hasAclose, trace)
    decreases |trace|
  {
    var n := Apply(s, hasAclose, trace[0]);
    if l in n.aclosed {
      AcloseChanges(s, hasAclose, trace[0], l);
      k := 0;
      assert trace[..0] == [] && trace[0..] == trace;
    } else {
      var j := LookHappened(n, hasAclose, trace[1..], l);
      k := j + 1;
      assert trace[..k][1..] == trace[1..][..j] && trace[..k][0] == trace[0];
      assert trace[k..] == trace[1..][j..];
    }
  }

  /**
   `aclose` before the stop, exactly. Over every interleaving, a loop that was
   stopped has one step, before the stop, at which its close looked for the host;
   `aclose` was attempted iff the host, having one, was assigned by then.
   */
  lemma AcloseExact(instance: bool, hasAclose: bool, trace: seq<Event>, l: Loop) returns (k: nat)
    requires ValidTrace(Initial(instance), hasAclose, trace)
    requires Exec(Initial(instance), hasAclose, trace).stops[l] == 1
    ensures k < |trace| && trace[k].Move? && ValidTrace(Initial(instance), hasAclose, trace[..k])
    ensures var look := Exec(Initial(instance), hasAclose, trace[..k]);
            var final := Exec(Initial(instance), hasAclose, trace);
            && trace[k].t in look.callers && look.callers[trace[k].t] == Taken(l) && look.stops[l] == 0
            && l in final.aclosed && (final.aclosed[l] <==> hasAclose && look.host.Some?)
  {
    var s := Initial(instance);
    InitialInvariant(instance);
    InvariantHolds(s, hasAclose, trace);
    k := LookHappened(s, hasAclose, trace, l);
    InvariantHolds(s, hasAclose, trace[..k]);
    DecidedAt(Exec(s, hasAclose, trace[..k]), hasAclose, trace[k..], l);
  }

  lemma DecidedAt(look: State, hasAclose: bool, rest: seq<Event>, l: Loop)
    requires Invariant(look) && ValidTrace(look, hasAclose, rest) && rest != [] && rest[0].Move?
    requires rest[0].t in look.callers && look.callers[rest[0].t] == Taken(l)
    ensures look.stops[l] == 0 && l in Exec(look, hasAclose, rest).aclosed
    ensures Exec(look, hasAclose, rest).aclosed[l] <==> hasAclose && look.host.Some?
  {
    assert rest == [Move(rest[0].t, rest[0].ok)] + rest[1..];
    AcloseIsDecidedAtTheLook(look, hasAclose, rest[0].t, rest[0].ok, l, rest[1..]);
    assert ClosingOf(look, rest[0].t) == Some(l);
  }

  /** The loops a close has looked at are taken, and one not stopped has its closer. */
  ghost predicate LooksAreTaken(s: State) {
    forall l | l in s.aclosed :: l in s.taken
  }

  lemma {:induction false} LooksStayTaken(s: State, hasAclose: bool, trace: seq<Event>)
    requires Invariant(s) && LooksAreTaken(s) && ValidTrace(s, hasAclose, trace)
    ensures LooksAreTaken(Exec(s, hasAclose, trace))
    decreases |trace|
  {
    if trace != [] {
      var n := Apply(s, hasAclose, trace[0]);
      StepKeepsInvariant(s, hasAclose, trace[0]);
      forall l | l in n.aclosed ensures l in n.taken {
        if l !in s.aclosed {
          AcloseChanges(s, hasAclose, trace[0], l);
          assert ClosingOf(s, trace[0].t) == Some(l);
        }
      }
      LooksStayTaken(n, hasAclose, trace[1..]);
    }
  }

  /** An execute past `_ensure_host`: its host check is done, and it is on the way to its call or in it. */
  predicate HasHost(pc: Pc) {
    pc.Leaving? || pc.CallWantLoop? || pc.CallHoldLoop? || pc.Calling?
  }

  ghost predicate Served(s: State) {
    forall t | t in s.callers && HasHost(s.callers[t]) :: s.host.Some?
  }

  lemma ServedMove(s: State, hasAclose: bool, e: Event)
    requires Enabled(s, e) && (e.t in s.callers && HasHost(s.callers[e.t]) ==> s.host.Some?)
    ensures var n := Apply(s, hasAclose, e);
            (s.host.Some? ==> n.host.Some?) && (e.t in n.callers && HasHost(n.callers[e.t]) ==> n.host.Some?)
  {
  }

  lemma {:induction false} ServedMeansHost(s: State, hasAclose: bool, trace: seq<Event>)
    requires ValidTrace(s, hasAclose, trace) && Served(s)
    ensures Served(Exec(s, hasAclose, trace))
    decreases |trace|
  {
    if trace != [] {
      ServedMove(s, hasAclose, trace[0]);
      OneCallerMoves(s, hasAclose, trace[0]);
      ServedMeansHost(Apply(s, hasAclose, trace[0]), hasAclose, trace[1..]);
    }
  }

  lemma {:induction false} HostStays(s: State, hasAclose: bool, trace: seq<Event>)
    requires ValidTrace(s, hasAclose, trace)
    ensures s.host.Some? ==> Exec(s, hasAclose, trace).host.Some?
    decreases |trace|
  {
    if trace != [] {
      HostStays(Apply(s, hasAclose, trace[0]), hasAclose, trace[1..]);
    }
  }

  lemma {:induction false} AcloseSettled(s: State, hasAclose: bool, trace: seq<Event>, l: Loop)
    requires ValidTrace(s, hasAclose, trace) && s.host.Some? && (l in s.aclosed ==> s.aclosed[l] == hasAclose)
    ensures var n := Exec(s, hasAclose, trace);
            n.host.Some? && (l in n.aclosed ==> n.aclosed[l] == hasAclose)
    decreases |trace|
  {
    if trace != [] {
      AcloseSettled(Apply(s, hasAclose, trace[0]), hasAclose, trace[1..], l);
    }
  }

  /** No close has taken a loop it has still to stop. */
  ghost predicate NobodyIsClosing(s: State) {
    forall t :: ClosingOf(s, t).None?
  }

  lemma AcloseFromHere(s: State, hasAclose: bool, after: seq<Event>, l: Loop)
    requires Invariant(s) && LooksAreTaken(s) && NobodyIsClosing(s) && s.host.Some?
    requires s.stops[l] == 0 && ValidTrace(s, hasAclose, after)
    ensures var n := Exec(s, hasAclose, after); n.stops[l] == 1 ==> l in n.aclosed && n.aclosed[l] == hasAclose
  {
    assert l !in s.taken;
    InvariantHolds(s, hasAclose, after);
    AcloseSettled(s, hasAclose, after, l);
  }

  /**
   The rule for callers. If an instance was handed in, or some execute has ever
   come back from `_ensure_host`, and no close still under way took its loop
   earlier, then every loop stopped from there on has `aclose` attempted first, if
   the host has one.
   */
  lemma AcloseOnceServed(instance: bool, hasAclose: bool, early: seq<Event>, later: seq<Event>, after: seq<Event>,
                         l: Loop)
    requires ValidTrace(Initial(instance), hasAclose, early)
    requires var served := Exec(Initial(instance), hasAclose, early);
             && (instance || exists t :: t in served.callers && HasHost(served.callers[t]))
             && ValidTrace(served, hasAclose, later)
             && var s := Exec(served, hasAclose, later);
             && NobodyIsClosing(s) && s.stops[l] == 0 && ValidTrace(s, hasAclose, after)
    ensures var s := Exec(Exec(Initial(instance), hasAclose, early), hasAclose, later);
            var n := Exec(s, hasAclose, after);
            n.stops[l] == 1 ==> l in n.aclosed && n.aclosed[l] == hasAclose
  {
    var first := Initial(instance);
    var served := Exec(first, hasAclose, early);
    InitialInvariant(instance);
    InvariantHolds(first, hasAclose, early);
    InvariantHolds(served, hasAclose, later);
    LooksStayTaken(first, hasAclose, early);
    LooksStayTaken(served, hasAclose, later);
    ServedMeansHost(first, hasAclose, early);
    HostStays(first, hasAclose, early);
    HostStays(served, hasAclose, later);
    AcloseFromHere(Exec(served, hasAclose, later), hasAclose, after, l);
  }

  // The order does fail

  lemma OneMore(s: State, hasAclose: bool, e: Event, n: State, rest: seq<Event>, last: State)
    requires Enabled(s, e) && Apply(s, hasAclose, e) == n
    requires ValidTrace(n, hasAclose, rest) && Exec(n, hasAclose, rest) == last
    ensures ValidTrace(s, hasAclose, [e] + rest) && Exec(s, hasAclose, [e] + rest) == last
  {
    assert ([e] + rest)[1..] == rest;
  }

  /** A close that enters while the factory's result is not yet assigned, and looks before it is. */
  function MissedTail(): seq<Event> {
    [Enter(2, true)] + ([Move(2, true)] + ([Move(2, true)] + ([Move(2, true)]
    + ([Move(1, true)] + ([Move(2, true)] + ([Move(2, true)] + []))))))
  }

  function BuildTail(): seq<Event> {
    [Move(1, true)] + ([Move(1, true)] + ([Move(1, true)] + ([Move(1, true)] + MissedTail())))
  }

  function MissedTrace(): seq<Event> {
    [Enter(1, false)] + ([Move(1, true)] + ([Move(1, true)] + BuildTail()))
  }

  /** One execute has the factory's result in hand, with host lock held. */
  function FactoryDone(): State {
    State(None, Some(0), Some(1), None, map[1 := Built(0)], 0, 1, {}, {0}, map[], multiset{})
  }

  function Stopped(): State {
    State(Some(Host(Some(0))), None, Some(1), None, map[1 := Leaving, 2 := Ended], 1, 1, {0}, {0}, map[0 := false],
          multiset{0})
  }

  /** The close has looked, found nobody, and is on its way to the stop. */
  function Looked(): State {
    State(None, None, Some(1), None, map[1 := Built(0), 2 := Cancelling(0)], 0, 1, {0}, {0}, map[0 := false],
          multiset{})
  }

  lemma LookedStops()
    ensures var rest := [Move(1, true)] + ([Move(2, true)] + ([Move(2, true)] + []));
            ValidTrace(Looked(), true, rest) && Exec(Looked(), true, rest) == Stopped()
  {
    var s4, last := Looked(), Stopped();
    var s5 := s4.(callers := map[1 := Leaving, 2 := Cancelling(0)], host := Some(Host(Some(0))), hostWrites := 1);
    var s6 := s5.(callers := map[1 := Leaving, 2 := Stopping(0)]);
    OneMore(s6, true, Move(2, true), last, [], last);
    OneMore(s5, true, Move(2, true), s6, [Move(2, true)] + [], last);
    OneMore(s4, true, Move(1, true), s5, [Move(2, true)] + ([Move(2, true)] + []), last);
  }

  lemma TailStops()
    ensures ValidTrace(FactoryDone(), true, MissedTail()) && Exec(FactoryDone(), true, MissedTail()) == Stopped()
  {
    LookedStops();
    var s0, last := FactoryDone(), Stopped();
    var s1 := s0.(callers := map[1 := Built(0), 2 := CloseWantLoop]);
    var s2 := s1.(callers := map[1 := Built(0), 2 := CloseHoldLoop], loopLock := Some(2));
    var s3 := s2.(callers := map[1 := Built(0), 2 := Taken(0)], loop := None, loopLock := None, taken := {0});
    var r3 := [Move(1, true)] + ([Move(2, true)] + ([Move(2, true)] + []));
    OneMore(s3, true, Move(2, true), Looked(), r3, last);
    OneMore(s2, true, Move(2, true), s3, [Move(2, true)] + r3, last);
    OneMore(s1, true, Move(2, true), s2, [Move(2, true)] + ([Move(2, true)] + r3), last);
    OneMore(s0, true, Enter(2, true), s1, [Move(2, true)] + ([Move(2, true)] + ([Move(2, true)] + r3)), last);
  }

  /** One execute holds the host lock and has found no host. */
  function AboutToBuild(): State {
    Initial(false).(callers := map[1 := HoldHost], hostLock := Some(1))
  }

  lemma BuildStops()
    ensures ValidTrace(AboutToBuild(), true, BuildTail()) && Exec(AboutToBuild(), true, BuildTail()) == Stopped()
  {
    TailStops();
    var last, s3 := Stopped(), AboutToBuild();
    var s4 := s3.(callers := map[1 := BuildWantLoop]);
    var s5 := s4.(callers := map[1 := BuildHoldLoop], loopLock := Some(1));
    var s6 := s4.(callers := map[1 := Building(0)], loop := Some(0), created := 1, driven := {0});
    var r6 := [Move(1, true)] + MissedTail();
    OneMore(s6, true, Move(1, true), FactoryDone(), MissedTail(), last);
    OneMore(s5, true, Move(1, true), s6, r6, last);
    OneMore(s4, true, Move(1, true), s5, [Move(1, true)] + r6, last);
    OneMore(s3, true, Move(1, true), s4, [Move(1, true)] + ([Move(1, true)] + r6), last);
  }

  /** A host with an `aclose` is assigned, its loop is stopped after that, and `aclose` is never attempted. */
  lemma AcloseCanBeMissed()
    ensures ValidTrace(Initial(false), true, MissedTrace())
    ensures var n := Exec(Initial(false), true, MissedTrace());
            n.host == Some(Host(Some(0))) && n.stops[0] == 1 && n.aclosed == map[0 := false]
  {
    BuildStops();
    var last, s0 := Stopped(), Initial(false);
    var s1 := s0.(callers := map[1 := Start]);
    var s2 := s0.(callers := map[1 := WantHost]);
    var r2 := [Move(1, true)] + BuildTail();
    OneMore(s2, true, Move(1, true), AboutToBuild(), BuildTail(), last);
    OneMore(s1, true, Move(1, true), s2, r2, last);
    OneMore(s0, true, Enter(1, false), s1, [Move(1, true)] + r2, last);
  }
}

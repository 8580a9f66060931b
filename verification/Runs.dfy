/** What holds of whole runs of the airlock: isolation, invisibility of the screen, accounting. */
module Runs {
  import opened Prelude
  import opened Schemas
  import opened TrustMap
  import opened Dispatch

  /** The effects of dispatching `arrivals` one after another. */
  function Run(cfg: Config, dedupe: set<DedupeKey>, arrivals: seq<Arrival>): (r: seq<Effect>)
    ensures |r| == |arrivals|
    decreases |arrivals|
  {
    if arrivals == [] then []
    else
      var effect := Step(cfg, dedupe, arrivals[0]);
      [effect] + Run(cfg, dedupe + effect.claims, arrivals[1..])
  }

  /** The dedupe store once `arrivals` have been dispatched. */
  function After(cfg: Config, dedupe: set<DedupeKey>, arrivals: seq<Arrival>): set<DedupeKey>
    decreases |arrivals|
  {
    if arrivals == [] then dedupe
    else After(cfg, dedupe + Step(cfg, dedupe, arrivals[0]).claims, arrivals[1..])
  }

  /** What clearing every gate ahead of the store establishes. */
  lemma ClearedMeans(cfg: Config, arr: Arrival)
    requires Judge(cfg, arr).Cleared?
    ensures var j := Judge(cfg, arr);
            && Authenticated(cfg, arr) == Some(j.identity)
            && Shape(cfg, arr.request, j.identity) == Shaped(j.envelope)
            && j.envelope.sender.channelIdentity == j.identity == j.envelope.DedupeKey().0
            && j.envelope.audience == cfg.zone
            && j.envelope.senderClass == None
            && !IsExpired(cfg.world, j.envelope, arr.now, cfg.skew)
            && Resolve(cfg.trustMap, cfg.adapter.channelType, j.identity) == Some(j.resolution)
            && j.resolution.principal == j.envelope.principal
            && (if GateRuns(cfg) then !arr.keySourceDown && cfg.verify.value(j.envelope).ok
                                      && j.checks == Established(cfg.verify.value(j.envelope))
                else j.checks == UNCHECKED)
  {
  }

  /** A turned-away arrival records who it was authenticated as, and never names an unverified signer. */
  lemma TurnedMeans(cfg: Config, arr: Arrival)
    requires Judge(cfg, arr).Turned?
    ensures var r := Judge(cfg, arr).record;
            && r.reason != ScreenRefused
            && (r.signerKeyId.Some? ==> r.chainVerified)
            && (r.chainVerified ==> GateRuns(cfg))
  {
  }

  // Sender isolation

  function OnlyFrom(cfg: Config, arrivals: seq<Arrival>, who: string): seq<Arrival> {
    if arrivals == [] then []
    else (if Authenticated(cfg, arrivals[0]) == Some(who) then [arrivals[0]] else [])
         + OnlyFrom(cfg, arrivals[1..], who)
  }

  /** The effects of those arrivals of a run that were authenticated as `who`. */
  function EffectsFor(cfg: Config, arrivals: seq<Arrival>, effects: seq<Effect>, who: string): seq<Effect>
    requires |arrivals| == |effects|
  {
    if arrivals == [] then []
    else (if Authenticated(cfg, arrivals[0]) == Some(who) then [effects[0]] else [])
         + EffectsFor(cfg, arrivals[1..], effects[1..], who)
  }

  ghost predicate AgreeOn(who: string, a: set<DedupeKey>, b: set<DedupeKey>) {
    forall k: DedupeKey | k.0 == who :: k in a <==> k in b
  }

  /** Another trust map with the same row for `who` judges that sender's arrivals alike. */
  lemma JudgeIsOwn(cfg: Config, entries: seq<Entry>, arr: Arrival, who: string)
    requires Authenticated(cfg, arr) == Some(who)
    requires Resolve(entries, cfg.adapter.channelType, who) == Resolve(cfg.trustMap, cfg.adapter.channelType, who)
    ensures Judge(cfg.(trustMap := entries), arr) == Judge(cfg, arr)
    ensures Mapped(cfg.(trustMap := entries), who) == Mapped(cfg, who)
  {
    var other := cfg.(trustMap := entries);
    assert Shape(other, arr.request, who) == Shape(cfg, arr.request, who);
    assert Told(other, who, Permanent) == Told(cfg, who, Permanent);
    assert Told(other, who, Transient) == Told(cfg, who, Transient);
  }

  lemma StepIsOwn(cfg: Config, entries: seq<Entry>, d: set<DedupeKey>, d': set<DedupeKey>, arr: Arrival, who: string)
    requires Authenticated(cfg, arr) == Some(who) && AgreeOn(who, d, d')
    requires Resolve(entries, cfg.adapter.channelType, who) == Resolve(cfg.trustMap, cfg.adapter.channelType, who)
    ensures Step(cfg.(trustMap := entries), d', arr) == Step(cfg, d, arr)
  {
    JudgeIsOwn(cfg, entries, arr, who);
    if Judge(cfg, arr).Cleared? {
      ClearedMeans(cfg, arr);
    }
  }

  /** Every key a step claims is new and belongs to the sender the step was authenticated as. */
  lemma ClaimsAreOwn(cfg: Config, d: set<DedupeKey>, arr: Arrival)
    ensures var e := Step(cfg, d, arr);
            && e.claims !! d
            && |e.claims| <= 1
            && forall k | k in e.claims :: Authenticated(cfg, arr) == Some(k.0)
  {
    if Judge(cfg, arr).Cleared? {
      ClearedMeans(cfg, arr);
    }
  }

  /**
   Sender isolation. What the arrivals authenticated as `who` bring about, and
   the store entries they leave, are those of the run from which every other
   sender is removed and in which the trust map is replaced by any other with
   the same answer for `who`.
   */
  lemma {:induction false} SenderIsolation(cfg: Config, entries: seq<Entry>, d: set<DedupeKey>, d': set<DedupeKey>,
                                           arrivals: seq<Arrival>, who: string)
    requires Resolve(entries, cfg.adapter.channelType, who) == Resolve(cfg.trustMap, cfg.adapter.channelType, who)
    requires AgreeOn(who, d, d')
    ensures var alone := OnlyFrom(cfg, arrivals, who);
            && Run(cfg.(trustMap := entries), d', alone) == EffectsFor(cfg, arrivals, Run(cfg, d, arrivals), who)
            && AgreeOn(who, After(cfg, d, arrivals), After(cfg.(trustMap := entries), d', alone))
    decreases |arrivals|
  {
    if arrivals != [] {
      var other := cfg.(trustMap := entries);
      var arr, rest := arrivals[0], arrivals[1..];
      var effect := Step(cfg, d, arr);
      var alone := OnlyFrom(cfg, arrivals, who);
      ClaimsAreOwn(cfg, d, arr);
      assert Run(cfg, d, arrivals)[1..] == Run(cfg, d + effect.claims, rest);
      if Authenticated(cfg, arr) == Some(who) {
        StepIsOwn(cfg, entries, d, d', arr, who);
        SenderIsolation(cfg, entries, d + effect.claims, d' + effect.claims, rest, who);
        assert alone[1..] == OnlyFrom(cfg, rest, who);
      } else {
        SenderIsolation(cfg, entries, d + effect.claims, d', rest, who);
        assert alone == OnlyFrom(cfg, rest, who);
      }
    }
  }

  // The screen cannot be seen from outside

  predicate SameButScreen(xs: seq<Arrival>, ys: seq<Arrival>) {
    |xs| == |ys| && forall i | 0 <= i < |xs| ::
      && xs[i].request == ys[i].request
      && xs[i].now == ys[i].now
      && xs[i].keySourceDown == ys[i].keySourceDown
      && xs[i].store == ys[i].store
  }

  lemma JudgeIgnoresScreen(cfg: Config, sink: bool, x: Arrival, y: Arrival)
    requires SameButScreen([x], [y])
    ensures Judge(cfg.(verdictSink := sink), y) == Judge(cfg, x)
  {
    var other := cfg.(verdictSink := sink);
    assert x == [x][0] && y == [y][0];
    assert x.request == y.request && x.now == y.now && x.keySourceDown == y.keySourceDown;
    var r := cfg.adapter.extractIdentity(x.request);
    if r.Some? {
      assert Shape(other, y.request, r.value) == Shape(cfg, x.request, r.value);
      assert Told(other, r.value, Permanent) == Told(cfg, r.value, Permanent);
    }
  }

  lemma StepHidesScreen(cfg: Config, sink: bool, d: set<DedupeKey>, x: Arrival, y: Arrival)
    requires SameButScreen([x], [y])
    ensures var a, b := Step(cfg, d, x), Step(cfg.(verdictSink := sink), d, y);
            a.claims == b.claims && a.outcome.refusal == b.outcome.refusal
  {
    JudgeIgnoresScreen(cfg, sink, x, y);
    assert x == [x][0] && y == [y][0];
    assert x.store == y.store;
  }

  /**
   Screen invisibility. Two runs of the same requests under any two screens -
   none, passing, refusing, raising, changing from call to call - and with the
   verdict sink on or off, answer every request with the same refusal class and
   leave the same dedupe store after every step.
   */
  lemma {:induction false} ScreenInvisible(cfg: Config, sink: bool, d: set<DedupeKey>, xs: seq<Arrival>,
                                           ys: seq<Arrival>)
    requires SameButScreen(xs, ys)
    ensures var other := cfg.(verdictSink := sink);
            && (forall i | 0 <= i < |xs| ::
                  Run(cfg, d, xs)[i].outcome.refusal == Run(other, d, ys)[i].outcome.refusal)
            && (forall i | 0 <= i <= |xs| :: After(cfg, d, xs[..i]) == After(other, d, ys[..i]))
    decreases |xs|
  {
    if xs != [] {
      var other := cfg.(verdictSink := sink);
      assert SameButScreen([xs[0]], [ys[0]]);
      StepHidesScreen(cfg, sink, d, xs[0], ys[0]);
      var next := d + Step(cfg, d, xs[0]).claims;
      ScreenInvisible(cfg, sink, next, xs[1..], ys[1..]);
      forall i | 0 < i <= |xs| ensures After(cfg, d, xs[..i]) == After(other, d, ys[..i]) {
        assert xs[..i][1..] == xs[1..][..i - 1] && ys[..i][1..] == ys[1..][..i - 1];
      }
    }
  }

  // Accounting

  predicate IsSilent(e: Effect) {
    e.outcome.envelope.None? && e.drops == []
  }

  function Count(effects: seq<Effect>, what: Effect -> nat): nat {
    if effects == [] then 0 else what(effects[0]) + Count(effects[1..], what)
  }

  function One(b: bool): nat {
    if b then 1 else 0
  }

  const ACCEPTANCES: Effect -> nat := (e: Effect) => One(e.outcome.envelope.Some?)
  const DROPS: Effect -> nat := (e: Effect) => |e.drops|
  const SILENCES: Effect -> nat := (e: Effect) => One(IsSilent(e))
  const CLAIMS: Effect -> nat := (e: Effect) => |e.claims|
  const VERDICTS: Effect -> nat := (e: Effect) => |e.verdicts|
  const SCREEN_REFUSALS: Effect -> nat := (e: Effect) => One(|e.drops| == 1 && e.drops[0].reason == ScreenRefused)

  predicate Landed(arr: Arrival) {
    arr.store.WriteFails? && arr.store.landed
  }

  /** Exactly one of acceptance, drop record and silent replay, and what each one writes. */
  lemma StepAccounting(cfg: Config, d: set<DedupeKey>, arr: Arrival)
    ensures var e := Step(cfg, d, arr);
            && One(e.outcome.envelope.Some?) + |e.drops| + One(IsSilent(e)) == 1
            && (!Landed(arr) ==> |e.claims| == ACCEPTANCES(e) + SCREEN_REFUSALS(e))
            && (cfg.verdictSink && arr.screen.Some? ==> |e.verdicts| == ACCEPTANCES(e) + SCREEN_REFUSALS(e))
            && (IsSilent(e) <==> Judge(cfg, arr).Cleared? && !arr.store.ReadFails?
                                 && Judge(cfg, arr).envelope.DedupeKey() in d)
  {
    if Judge(cfg, arr).Turned? {
      TurnedMeans(cfg, arr);
    }
  }

  /** Step `i` of a run acts on the store its predecessors left. */
  lemma {:induction false} RunAt(cfg: Config, d: set<DedupeKey>, arrivals: seq<Arrival>, i: nat)
    requires i < |arrivals|
    ensures Run(cfg, d, arrivals)[i] == Step(cfg, After(cfg, d, arrivals[..i]), arrivals[i])
    decreases |arrivals|
  {
    if i > 0 {
      var next := d + Step(cfg, d, arrivals[0]).claims;
      RunAt(cfg, next, arrivals[1..], i - 1);
      assert arrivals[..i][1..] == arrivals[1..][..i - 1];
    }
  }

  lemma {:induction false} CountAdds(effects: seq<Effect>, total: Effect -> nat, a: Effect -> nat, b: Effect -> nat)
    requires forall i | 0 <= i < |effects| :: total(effects[i]) == a(effects[i]) + b(effects[i])
    ensures Count(effects, total) == Count(effects, a) + Count(effects, b)
  {
    if effects != [] {
      CountAdds(effects[1..], total, a, b);
    }
  }

  lemma {:induction false} CountConstant(effects: seq<Effect>, what: Effect -> nat)
    requires forall i | 0 <= i < |effects| :: what(effects[i]) == 1
    ensures Count(effects, what) == |effects|
  {
    if effects != [] {
      CountConstant(effects[1..], what);
    }
  }

  const RECORDED: Effect -> nat := (e: Effect) => |e.drops| + One(IsSilent(e))
  const ANSWERS: Effect -> nat := (e: Effect) => One(e.outcome.envelope.Some?) + (|e.drops| + One(IsSilent(e)))

  lemma {:induction false} StoreGrowth(cfg: Config, d: set<DedupeKey>, arrivals: seq<Arrival>)
    ensures |After(cfg, d, arrivals)| == |d| + Count(Run(cfg, d, arrivals), CLAIMS)
    decreases |arrivals|
  {
    if arrivals != [] {
      var effect := Step(cfg, d, arrivals[0]);
      ClaimsAreOwn(cfg, d, arrivals[0]);
      StoreGrowth(cfg, d + effect.claims, arrivals[1..]);
      assert Run(cfg, d, arrivals)[1..] == Run(cfg, d + effect.claims, arrivals[1..]);
    }
  }

  /**
   Run accounting. Every request is accepted, recorded as dropped, or is a silent
   replay, and the three add up. The store grows by what was claimed; unless a
   failing write landed, that is the acceptances plus the screen refusals, and
   with a screen and a sink it is also the number of verdicts.
   */
  lemma RunAccounting(cfg: Config, d: set<DedupeKey>, arrivals: seq<Arrival>)
    ensures var effects := Run(cfg, d, arrivals);
            && |arrivals| == Count(effects, ACCEPTANCES) + Count(effects, DROPS) + Count(effects, SILENCES)
            && |After(cfg, d, arrivals)| == |d| + Count(effects, CLAIMS)
            && ((forall i | 0 <= i < |arrivals| :: !Landed(arrivals[i])) ==>
                  Count(effects, CLAIMS) == Count(effects, ACCEPTANCES) + Count(effects, SCREEN_REFUSALS))
            && (cfg.verdictSink && (forall i | 0 <= i < |arrivals| :: arrivals[i].screen.Some?) ==>
                  Count(effects, VERDICTS) == Count(effects, ACCEPTANCES) + Count(effects, SCREEN_REFUSALS))
  {
    var effects := Run(cfg, d, arrivals);
    forall i | 0 <= i < |arrivals|
      ensures ANSWERS(effects[i]) == 1
      ensures !Landed(arrivals[i]) ==> CLAIMS(effects[i]) == ACCEPTANCES(effects[i]) + SCREEN_REFUSALS(effects[i])
      ensures cfg.verdictSink && arrivals[i].screen.Some? ==>
                VERDICTS(effects[i]) == ACCEPTANCES(effects[i]) + SCREEN_REFUSALS(effects[i])
    {
      RunAt(cfg, d, arrivals, i);
      StepAccounting(cfg, After(cfg, d, arrivals[..i]), arrivals[i]);
    }
    CountConstant(effects, ANSWERS);
    CountAdds(effects, RECORDED, DROPS, SILENCES);
    CountAdds(effects, ANSWERS, ACCEPTANCES, RECORDED);
    StoreGrowth(cfg, d, arrivals);
    if forall i | 0 <= i < |arrivals| :: !Landed(arrivals[i]) {
      CountAdds(effects, CLAIMS, ACCEPTANCES, SCREEN_REFUSALS);
    }
    if cfg.verdictSink && forall i | 0 <= i < |arrivals| :: arrivals[i].screen.Some? {
      CountAdds(effects, VERDICTS, ACCEPTANCES, SCREEN_REFUSALS);
    }
  }

  /**
   Only mapped senders addressing their own principal ever claim a key; a record
   or verdict that names a signer says the chain was verified; and an accepted
   envelope's last hop carries `sig:pass` iff the signature gate ran, which it
   then passed.
   */
  lemma EvidenceIsEarned(cfg: Config, d: set<DedupeKey>, arr: Arrival)
    ensures var e := Step(cfg, d, arr);
            && (e.claims != {} ==>
                  && Judge(cfg, arr).Cleared?
                  && Resolve(cfg.trustMap, cfg.adapter.channelType, Judge(cfg, arr).identity).Some?
                  && Judge(cfg, arr).resolution.principal == Judge(cfg, arr).envelope.principal)
            && (forall r | r in e.drops ::
                  (r.signerKeyId.Some? ==> r.chainVerified) && (r.chainVerified ==> GateRuns(cfg)))
            && (forall r | r in e.verdicts ::
                  (r.signerKeyId.Some? ==> r.chainVerified) && (r.chainVerified <==> GateRuns(cfg)))
            && (e.outcome.envelope.Some? ==>
                  var chain := e.outcome.envelope.value.provenance;
                  && chain != []
                  && ("sig:pass" in chain[|chain| - 1].evidence <==> GateRuns(cfg))
                  && (GateRuns(cfg) ==> cfg.verify.value(Judge(cfg, arr).envelope).ok))
  {
    var j := Judge(cfg, arr);
    if j.Turned? {
      TurnedMeans(cfg, arr);
    } else {
      ClearedMeans(cfg, arr);
      EvidenceNames(j.checks);
    }
  }

  lemma EvidenceNames(checks: Checks)
    ensures "sig:pass" in Evidence(checks) <==> checks.chainVerified
  {
    assert "sig:pass"[0] != "token:pass"[0];
    if checks.chainVerified {
      assert Evidence(checks)[1] == "sig:pass";
    }
  }

  // What a sender is told

  /**
   A refusal class is told iff the call left a record that is not the screen's
   and the sender is mapped and holds its own credential; it is transient iff
   the airlock could not evaluate. Acceptances, replays and screen refusals all
   read alike.
   */
  lemma RefusalExact(cfg: Config, d: set<DedupeKey>, arr: Arrival)
    ensures var e := Step(cfg, d, arr);
            && (e.outcome.refusal.Some? <==>
                  && |e.drops| == 1 && e.drops[0].reason != ScreenRefused
                  && Authenticated(cfg, arr).Some? && Mapped(cfg, Authenticated(cfg, arr).value))
            && (e.outcome.refusal.Some? ==>
                  (e.outcome.refusal.value == Transient <==> e.drops[0].reason == NotEvaluated))
            && (e.outcome.envelope.Some? ==> e.outcome.refusal.None?)
  {
    if Judge(cfg, arr).Cleared? {
      ClearedMeans(cfg, arr);
    }
  }

  /**
   Strangers learn nothing: under any trust map a request that is not
   authenticated, comes over a shared credential, or is from an identity that map
   does not list is told no refusal, as an accepted one is, at every step of any
   run.
   */
  lemma StrangersLearnNothing(cfg: Config, d: set<DedupeKey>, arrivals: seq<Arrival>, i: nat)
    requires i < |arrivals|
    requires Authenticated(cfg, arrivals[i]).None? || !Mapped(cfg, Authenticated(cfg, arrivals[i]).value)
    ensures Run(cfg, d, arrivals)[i].outcome.refusal.None?
  {
    RunAt(cfg, d, arrivals, i);
    RefusalExact(cfg, After(cfg, d, arrivals[..i]), arrivals[i]);
  }

  // At most once

  /** The acceptance of a step is the cleared envelope with one hop appended. */
  lemma AcceptedIsStamped(cfg: Config, d: set<DedupeKey>, arr: Arrival)
    requires Step(cfg, d, arr).outcome.envelope.Some?
    ensures var j := Judge(cfg, arr);
            var accepted := Step(cfg, d, arr).outcome.envelope.value;
            && j.Cleared?
            && accepted == Stamp(cfg, arr, j.envelope, j.resolution, j.checks)
            && j.envelope.DedupeKey() !in d
            && Step(cfg, d, arr).claims == {j.envelope.DedupeKey()} == {accepted.DedupeKey()}
            && accepted.provenance[..|accepted.provenance| - 1] == j.envelope.provenance
  {
    var j := Judge(cfg, arr);
    var accepted := Step(cfg, d, arr).outcome.envelope.value;
    assert accepted.provenance[..|accepted.provenance| - 1] == j.envelope.provenance;
  }

  function AcceptedKeys(effects: seq<Effect>): seq<DedupeKey> {
    if effects == [] then []
    else (if effects[0].outcome.envelope.Some? then [effects[0].outcome.envelope.value.DedupeKey()] else [])
         + AcceptedKeys(effects[1..])
  }

  lemma {:induction false} AcceptedKeysCount(effects: seq<Effect>)
    ensures |AcceptedKeys(effects)| == Count(effects, ACCEPTANCES)
  {
    if effects != [] {
      AcceptedKeysCount(effects[1..]);
    }
  }

  /** In one run no key is accepted twice, and none that the store already held. */
  lemma {:induction false} AcceptedOnce(cfg: Config, d: set<DedupeKey>, arrivals: seq<Arrival>)
    ensures Distinct(AcceptedKeys(Run(cfg, d, arrivals)))
    ensures forall k | k in AcceptedKeys(Run(cfg, d, arrivals)) :: k !in d
    decreases |arrivals|
  {
    if arrivals != [] {
      var effect := Step(cfg, d, arrivals[0]);
      var effects := Run(cfg, d, arrivals);
      assert effects[1..] == Run(cfg, d + effect.claims, arrivals[1..]);
      AcceptedOnce(cfg, d + effect.claims, arrivals[1..]);
      if effect.outcome.envelope.Some? {
        AcceptedIsStamped(cfg, d, arrivals[0]);
        var tail := AcceptedKeys(effects[1..]);
        var key := effect.outcome.envelope.value.DedupeKey();
        assert AcceptedKeys(effects) == [key] + tail;
        assert key in d + effect.claims;
        assert key !in tail;
      }
    }
  }
}

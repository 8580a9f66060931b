/**
 What the gates ask and answer, spelled out over every configuration: when a
 request clears and is accepted, what the accepted envelope is, and what each
 refusal records and tells.
 */
module Gates {
  import opened Prelude
  import opened Text
  import opened Schemas
  import opened TrustMap
  import opened Verification
  import opened Dispatch
  import opened Runs

  /** The signature gate is configured, and the adapter does not build its envelopes itself. */
  predicate SignatureAsked(cfg: Config) {
    cfg.verify.Some? && !cfg.adapter.originatesEnvelope
  }

  /** The request is authenticated as `who`, and `e` is what the adapter makes of it, without a class. */
  predicate Reads(cfg: Config, arr: Arrival, who: string, e: Envelope) {
    && cfg.adapter.verifyToken(arr.request) && cfg.adapter.extractIdentity(arr.request) == Some(who)
    && cfg.adapter.normalize(arr.request).Some?
    && e == cfg.adapter.normalize(arr.request).value.(senderClass := None)
  }

  /** Forwardable, the sender's own, and addressed to this zone. */
  predicate Proper(cfg: Config, who: string, e: Envelope) {
    ToWire(cfg.world, e).Some? && e.sender.channelIdentity == who && e.audience == cfg.zone
  }

  /** The chain passed, where it is asked for. */
  predicate ChainAdmits(cfg: Config, arr: Arrival, e: Envelope) {
    SignatureAsked(cfg) ==> !arr.keySourceDown && cfg.verify.value(e).ok
  }

  /** All that a request must satisfy ahead of the store. */
  predicate Admissible(cfg: Config, arr: Arrival, who: string, e: Envelope, cls: SenderClass) {
    && Reads(cfg, arr, who, e) && Proper(cfg, who, e) && ChainAdmits(cfg, arr, e)
    && arr.now + cfg.skew <= cfg.world.instant(e.expiry)
    && Entry(cfg.adapter.channelType, who, e.principal, cls) in cfg.trustMap
  }

  /** The trust map has a row for this identity on this channel. */
  ghost predicate HasRow(cfg: Config, who: string) {
    exists r :: r in cfg.trustMap && r.channelType == cfg.adapter.channelType && r.channelIdentity == who
  }

  lemma {:induction false} ResolvesIffRow(entries: seq<Entry>, channelType: string, who: string)
    ensures Resolve(entries, channelType, who).Some?
            <==> exists r :: r in entries && r.channelType == channelType && r.channelIdentity == who
    ensures Resolve(entries, channelType, who).Some? ==>
              var r := Resolve(entries, channelType, who).value;
              Entry(channelType, who, r.principal, r.senderClass) in entries
  {
    if entries != [] {
      assert entries == [entries[0]] + entries[1..];
      ResolvesIffRow(entries[1..], channelType, who);
    }
  }

  lemma RowResolves(cfg: Config, who: string, principal: string, cls: SenderClass)
    requires UniqueIdentities(cfg.trustMap)
    ensures Entry(cfg.adapter.channelType, who, principal, cls) in cfg.trustMap
            <==> Resolve(cfg.trustMap, cfg.adapter.channelType, who) == Some(Resolution(principal, cls))
  {
    ResolveExact(cfg.trustMap, Entry(cfg.adapter.channelType, who, principal, cls));
  }

  /** What the signature gate leaves for the records: nothing if it was not asked. */
  function ChecksOf(cfg: Config, e: Envelope): Checks {
    if !SignatureAsked(cfg) then Checks(false, None, None)
    else
      var r := cfg.verify.value(e);
      Checks(true, r.signerKeyId, if r.agentSeparated then r.custodyEvidence else None)
  }

  /**
   A request clears every gate ahead of the store iff it is admissible, over all
   configurations. With verification off, or an adapter that originates its
   envelopes, no signature is asked for.
   */
  lemma ClearedIff(cfg: Config, arr: Arrival, who: string, e: Envelope, cls: SenderClass)
    requires UniqueIdentities(cfg.trustMap)
    ensures Admissible(cfg, arr, who, e, cls)
            <==> Judge(cfg, arr) == Cleared(who, e, Resolution(e.principal, cls), ChecksOf(cfg, e))
    ensures Judge(cfg, arr).Cleared? ==>
              var j := Judge(cfg, arr); Admissible(cfg, arr, j.identity, j.envelope, j.resolution.senderClass)
  {
    RowResolves(cfg, who, e.principal, cls);
    if Judge(cfg, arr).Cleared? {
      var j := Judge(cfg, arr);
      ClearedMeans(cfg, arr);
      RowResolves(cfg, j.identity, j.envelope.principal, j.resolution.senderClass);
    }
    if Admissible(cfg, arr, who, e, cls) {
      AdmissibleClears(cfg, arr, who, e, cls);
    }
  }

  lemma AdmissibleClears(cfg: Config, arr: Arrival, who: string, e: Envelope, cls: SenderClass)
    requires Admissible(cfg, arr, who, e, cls)
    requires Resolve(cfg.trustMap, cfg.adapter.channelType, who) == Some(Resolution(e.principal, cls))
    ensures Judge(cfg, arr) == Cleared(who, e, Resolution(e.principal, cls), ChecksOf(cfg, e))
  {
    assert Shape(cfg, arr.request, who) == Shaped(e);
  }

  // Acceptance

  /** A screen lets an envelope by if it answers with a pass or a true value. */
  predicate ScreenAllows(arr: Arrival, e: Envelope) {
    arr.screen.None? || arr.screen.value(e) == Pass || arr.screen.value(e) == Plain(true)
  }

  /** An admissible request is accepted iff the store works, does not hold its key, and the screen allows it. */
  lemma AcceptedIff(cfg: Config, d: set<DedupeKey>, arr: Arrival, who: string, e: Envelope, cls: SenderClass)
    requires UniqueIdentities(cfg.trustMap) && Admissible(cfg, arr, who, e, cls)
    ensures Step(cfg, d, arr).outcome.envelope.Some?
            <==> arr.store == Healthy && (who, e.eventId) !in d && ScreenAllows(arr, e)
  {
    ClearedIff(cfg, arr, who, e, cls);
  }

  /** Nothing that is not admissible is accepted. */
  lemma OnlyAdmissibleAccepted(cfg: Config, d: set<DedupeKey>, arr: Arrival)
    requires UniqueIdentities(cfg.trustMap) && Step(cfg, d, arr).outcome.envelope.Some?
    ensures exists who, e, cls :: Admissible(cfg, arr, who, e, cls)
  {
    AcceptedIsStamped(cfg, d, arr);
    var j := Judge(cfg, arr);
    ClearedIff(cfg, arr, j.identity, j.envelope, j.resolution.senderClass);
  }

  /** The evidence of the checks that were made, in order. */
  ghost predicate EvidenceOfChecks(cfg: Config, e: Envelope, evidence: seq<string>) {
    var custody := ChecksOf(cfg, e).custody;
    && (!SignatureAsked(cfg) ==> evidence == ["token:pass"])
    && (SignatureAsked(cfg) && custody == None ==> evidence == ["token:pass", "sig:pass"])
    && (SignatureAsked(cfg) && custody == Some(Declared) ==> evidence == ["token:pass", "sig:pass", "custody:declared"])
    && (SignatureAsked(cfg) && custody == Some(Attested) ==> evidence == ["token:pass", "sig:pass", "custody:attested"])
  }

  lemma EvidenceSpelled(cfg: Config, e: Envelope)
    ensures EvidenceOfChecks(cfg, e, Evidence(ChecksOf(cfg, e)))
  {
  }

  /**
   The accepted envelope is the parsed one with this zone's hop and the mapped
   class: the hop names the channel, the checks made and the instant, and is
   trusted unless the sender is external.
   */
  lemma AcceptedIs(cfg: Config, d: set<DedupeKey>, arr: Arrival, who: string, e: Envelope, cls: SenderClass)
    requires UniqueIdentities(cfg.trustMap) && Admissible(cfg, arr, who, e, cls)
    requires Step(cfg, d, arr).outcome.envelope.Some?
    ensures var accepted, evidence := Step(cfg, d, arr).outcome.envelope.value, Evidence(ChecksOf(cfg, e));
            && EvidenceOfChecks(cfg, e, evidence)
            && accepted
               == e.(provenance := e.provenance
                                   + [Hop(cfg.zone, "channel:" + cfg.adapter.channelType, evidence,
                                          if cls == External then Untrusted else Trusted, cfg.world.iso(arr.now))],
                     senderClass := Some(cls))
  {
    ClearedIff(cfg, arr, who, e, cls);
    AcceptedIsStamped(cfg, d, arr);
    EvidenceSpelled(cfg, e);
  }

  // Refusals

  /** A sender is told a class iff it has its own credential and a row. */
  ghost function ToldIf(cfg: Config, who: string, kind: Refusal): Option<Refusal> {
    if cfg.adapter.credentialPerSender && HasRow(cfg, who) then Some(kind) else None
  }

  lemma ToldIs(cfg: Config, who: string, kind: Refusal)
    ensures Told(cfg, who, kind) == ToldIf(cfg, who, kind)
  {
    ResolvesIffRow(cfg.trustMap, cfg.adapter.channelType, who);
  }

  /** The drop record of this call, in full. */
  function Dropped(cfg: Config, arr: Arrival, who: string, reason: DropReason, detail: Option<Detail>, verified: bool,
                   signer: Option<string>): DropRecord {
    DropRecord(cfg.adapter.channelType, "sha256:" + cfg.world.sha256(Utf8(who)), reason, cfg.world.iso(arr.now), detail,
               verified, signer)
  }

  /** The call leaves this one record and answers with this class, and changes nothing else. */
  predicate Refuses(cfg: Config, d: set<DedupeKey>, arr: Arrival, record: DropRecord, told: Option<Refusal>) {
    Step(cfg, d, arr) == Effect({}, [record], [], Outcome(None, told))
  }

  /** Gates 1 and 2: recorded under the empty identity, and told to no one. */
  lemma UnidentifiedIsDropped(cfg: Config, d: set<DedupeKey>, arr: Arrival)
    ensures !cfg.adapter.verifyToken(arr.request) ==>
              Refuses(cfg, d, arr, Dropped(cfg, arr, "", AuthenticityFailed, None, false, None), None)
    ensures cfg.adapter.verifyToken(arr.request) && cfg.adapter.extractIdentity(arr.request).None? ==>
              Refuses(cfg, d, arr, Dropped(cfg, arr, "", Malformed, None, false, None), None)
  {
  }

  lemma UnparsedIsMalformed(cfg: Config, d: set<DedupeKey>, arr: Arrival, who: string)
    requires cfg.adapter.verifyToken(arr.request) && cfg.adapter.extractIdentity(arr.request) == Some(who)
    requires cfg.adapter.normalize(arr.request).None?
    ensures Refuses(cfg, d, arr, Dropped(cfg, arr, who, Malformed, None, false, None), ToldIf(cfg, who, Permanent))
  {
    ToldIs(cfg, who, Permanent);
  }

  /** Gate 3: the first of its three checks that fails is the one recorded. */
  lemma ImproperIsRefused(cfg: Config, d: set<DedupeKey>, arr: Arrival, who: string, e: Envelope)
    requires Reads(cfg, arr, who, e)
    ensures var told := ToldIf(cfg, who, Permanent);
            && (ToWire(cfg.world, e).None? ==>
                  Refuses(cfg, d, arr, Dropped(cfg, arr, who, Malformed, Some(NotForwardable), false, None), told))
            && (ToWire(cfg.world, e).Some? && e.sender.channelIdentity != who ==>
                  Refuses(cfg, d, arr,
                          Dropped(cfg, arr, who, Malformed, Some(SenderIdentityMismatch), false, None), told))
            && (ToWire(cfg.world, e).Some? && e.sender.channelIdentity == who && e.audience != cfg.zone ==>
                  Refuses(cfg, d, arr, Dropped(cfg, arr, who, AudienceMismatch, None, false, None), told))
  {
    ToldIs(cfg, who, Permanent);
  }

  /** Gate 3.5, when it is asked: keys that cannot be had are transient, a failed chain has its own reason. */
  lemma UnverifiedIsRefused(cfg: Config, d: set<DedupeKey>, arr: Arrival, who: string, e: Envelope)
    requires Reads(cfg, arr, who, e) && Proper(cfg, who, e) && SignatureAsked(cfg)
    ensures arr.keySourceDown ==>
              Refuses(cfg, d, arr, Dropped(cfg, arr, who, NotEvaluated, Some(KeySource), false, None),
                      ToldIf(cfg, who, Transient))
    ensures !arr.keySourceDown && !cfg.verify.value(e).ok && cfg.verify.value(e).reason.Some? ==>
              var r := cfg.verify.value(e);
              Refuses(cfg, d, arr, Dropped(cfg, arr, who, r.reason.value, r.detail, false, None),
                      ToldIf(cfg, who, Permanent))
  {
    ToldIs(cfg, who, Permanent);
    ToldIs(cfg, who, Transient);
    assert Shape(cfg, arr.request, who) == Shaped(e);
  }

  /** Gates 4 and 5: expired before unmapped before another's principal, each citing what the chain check left. */
  lemma InadmissibleIsRefused(cfg: Config, d: set<DedupeKey>, arr: Arrival, who: string, e: Envelope)
    requires UniqueIdentities(cfg.trustMap)
    requires Reads(cfg, arr, who, e) && Proper(cfg, who, e) && ChainAdmits(cfg, arr, e)
    ensures var signer := ChecksOf(cfg, e).signerKeyId;
            var verified, told := SignatureAsked(cfg), ToldIf(cfg, who, Permanent);
            var late := arr.now + cfg.skew > cfg.world.instant(e.expiry);
            && (late ==> Refuses(cfg, d, arr, Dropped(cfg, arr, who, Expired, None, verified, signer), told))
            && (!late && !HasRow(cfg, who) ==>
                  Refuses(cfg, d, arr, Dropped(cfg, arr, who, Unmapped, None, verified, signer), None))
            && (!late && HasRow(cfg, who) &&
                (forall cls :: Entry(cfg.adapter.channelType, who, e.principal, cls) !in cfg.trustMap) ==>
                  Refuses(cfg, d, arr, Dropped(cfg, arr, who, PrincipalMismatch, None, verified, signer), told))
  {
    ToldIs(cfg, who, Permanent);
    ResolvesIffRow(cfg.trustMap, cfg.adapter.channelType, who);
    assert Shape(cfg, arr.request, who) == Shaped(e);
  }

  // The store and the screen

  /** Gate 6, for an admissible request: what each behaviour of the store leaves and answers. */
  lemma StoreDecides(cfg: Config, d: set<DedupeKey>, arr: Arrival, who: string, e: Envelope, cls: SenderClass)
    requires UniqueIdentities(cfg.trustMap) && Admissible(cfg, arr, who, e, cls)
    ensures var key, checks := (who, e.eventId), ChecksOf(cfg, e);
            var record := Dropped(cfg, arr, who, NotEvaluated, Some(DedupeStore), SignatureAsked(cfg),
                                  checks.signerKeyId);
            var transient := Outcome(None, ToldIf(cfg, who, Transient));
            && (arr.store == ReadFails ==> Step(cfg, d, arr) == Effect({}, [record], [], transient))
            && (arr.store != ReadFails && key in d ==> Step(cfg, d, arr) == Effect({}, [], [], Outcome(None, None)))
            && (arr.store == WriteFails(true) && key !in d ==>
                  Step(cfg, d, arr) == Effect({key}, [record], [], transient))
            && (arr.store == WriteFails(false) && key !in d ==>
                  Step(cfg, d, arr) == Effect({}, [record], [], transient))
  {
    ClearedIff(cfg, arr, who, e, cls);
    ToldIs(cfg, who, Transient);
  }

  /** Why a screen refused: its own code, `screen_error` if it raised, nothing for a bare false. */
  function ScreenReason(answer: ScreenAnswer): Option<Detail> {
    if answer.Raised? then Some(ScreenError) else if answer.Refuse? then Some(answer.why) else None
  }

  /** The screen record of this call, in full. */
  function Screened(cfg: Config, arr: Arrival, who: string, eventId: string, passed: bool, reason: Option<Detail>,
                    signer: Option<string>): ScreenRecord {
    ScreenRecord(cfg.adapter.channelType, "sha256:" + cfg.world.sha256(Utf8(who)), eventId, passed, reason,
                 cfg.world.iso(arr.now), SignatureAsked(cfg), signer)
  }

  /**
   Gates 7 and 8, for an admissible request with a new key: the key is claimed
   whatever the screen says; the verdict goes to the sink if there is one; and a
   refusal leaves a drop record with the screen's reason and tells nobody.
   */
  lemma ScreenDecides(cfg: Config, d: set<DedupeKey>, arr: Arrival, who: string, e: Envelope, cls: SenderClass)
    requires UniqueIdentities(cfg.trustMap) && Admissible(cfg, arr, who, e, cls)
    requires arr.store == Healthy && (who, e.eventId) !in d
    ensures var out, signer := Step(cfg, d, arr), ChecksOf(cfg, e).signerKeyId;
            && out.claims == {(who, e.eventId)} && out.outcome.refusal == None
            && (arr.screen.None? ==> out.drops == [] && out.verdicts == [])
            && (arr.screen.Some? ==>
                  var answer := arr.screen.value(e);
                  var reason, passed := ScreenReason(answer), ScreenAllows(arr, e);
                  && out.drops == (if passed then []
                                   else [Dropped(cfg, arr, who, ScreenRefused, reason, SignatureAsked(cfg), signer)])
                  && out.verdicts == (if !cfg.verdictSink then []
                                      else [Screened(cfg, arr, who, e.eventId, passed, reason, signer)]))
  {
    ClearedIff(cfg, arr, who, e, cls);
  }
}

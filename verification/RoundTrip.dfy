/** An honest sender's envelope is accepted, however it spells its identity. */
module RoundTrip {
  import opened Prelude
  import opened Schemas
  import opened Signing
  import opened TrustMap
  import opened Verification
  import opened Dispatch
  import opened Runs
  import opened Publish
  import opened Webhook

  /** The envelope the receiver judges: the sender's identity in canonical form. */
  function Canonicalized(w: World, e: Envelope): Envelope {
    e.(sender := e.sender.(channelIdentity := w.canonical(e.sender.channelIdentity)))
  }

  /** The receiver enrols this signer for its zone and for the identity `who`. */
  predicate Enrols(keys: Enrolment, signer: ChainSigner, who: string) {
    && signer.keyId in keys
    && keys[signer.keyId].publicKey == signer.key
    && keys[signer.keyId].zone == signer.zone
    && who in keys[signer.keyId].senderIdentities
  }

  /** What this key pair signs verifies under it. */
  ghost predicate KeyWorks(w: World, key: seq<byte>) {
    forall message :: w.verifies(key, message, w.sign(key, message))
  }

  lemma SignedEnvelopeShape(w: World, o: Outbound, turn: Turn, inbound: Option<Envelope>, signer: ChainSigner,
                            e: Envelope)
    requires StampOutbound(w, o, turn, inbound, Some(signer)) == Some(e)
    ensures e.provenance == OutboundChain(o, turn, inbound) && e.provenance != []
    ensures e.provenance[|e.provenance| - 1].zone == o.zone
    ensures e.senderClass == None
    ensures SignEnvelope(w, signer, Unsigned(o, turn, inbound)).Some?
    ensures var bare := Unsigned(o, turn, inbound);
            e == bare.(chainSignatures := [SignEnvelope(w, signer, bare).value])
  {
    OutboundChainShape(o, turn, inbound);
    StampedIsSigned(w, o, turn, inbound, signer, e, Unsigned(o, turn, inbound));
  }

  /** The signature made over the unsigned envelope verifies on the canonicalized signed one. */
  lemma SignatureCarriesOver(w: World, signer: ChainSigner, e: Envelope, judged: Envelope, key: PeerKey)
    requires CanonicalIdempotent(w) && KeyWorks(w, signer.key) && key.publicKey == signer.key
    requires e.provenance != [] && SignEnvelope(w, signer, e).Some?
    requires SignedView(w, judged) == SignedView(w, e)
    ensures VerifyOne(w, judged)(SignEnvelope(w, signer, e).value, key)
  {
    SameViewSameStatement(w, judged, e, signer.keyId, signer.zone);
  }

  lemma GateAccepts(w: World, keys: Enrolment, judged: Envelope, s: ChainSignature)
    requires judged.chainSignatures == [s]
    requires Passes(VerifyOne(w, judged), w.canonical(judged.sender.channelIdentity), judged, keys, s)
    ensures Gate(w, keys)(judged).ok
  {
    VerdictExact(VerifyOne(w, judged), w.canonical(judged.sender.channelIdentity), judged, keys);
  }

  lemma HonestChainVerifies(w: World, o: Outbound, turn: Turn, inbound: Option<Envelope>, signer: ChainSigner,
                            keys: Enrolment, e: Envelope)
    requires StampOutbound(w, o, turn, inbound, Some(signer)) == Some(e) && signer.zone == o.zone
    requires CanonicalIdempotent(w) && KeyWorks(w, signer.key)
    requires Enrols(keys, signer, w.canonical(e.sender.channelIdentity))
    ensures Gate(w, keys)(Canonicalized(w, e)).ok
  {
    SignedEnvelopeShape(w, o, turn, inbound, signer, e);
    var bare, judged := Unsigned(o, turn, inbound), Canonicalized(w, e);
    var s := SignEnvelope(w, signer, bare).value;
    assert SignedView(w, judged) == SignedView(w, bare);
    SignatureCarriesOver(w, signer, bare, judged, keys[signer.keyId]);
    assert s.keyId == signer.keyId && s.zone == signer.zone && s.payloadType == DSSE_PAYLOAD_TYPE
           && s.covers == |judged.provenance|;
    assert w.canonical(judged.sender.channelIdentity) == w.canonical(e.sender.channelIdentity);
    GateAccepts(w, keys, judged, s);
  }

  /** A webhook receiver of audience `e.audience` that knows the sender, and a delivery with the sender's own token. */
  ghost predicate Delivered(cfg: Config, keys: Enrolment, items: Items, m: map<string, string>,
                            entries: seq<(string, string)>, header: string, e: Envelope, arr: Arrival) {
    var w := cfg.world;
    var who := w.canonical(e.sender.channelIdentity);
    && cfg.verify == Some(Gate(w, keys))
    && cfg.adapter == WebhookAdapter(w, e.sender.channelType, header, entries)
    && Accepted(w, items, m) && Lists(entries, m)
    && who in m && Presented(header, arr.request) == Some(m[who])
    && ToWire(w, e) == Some(arr.request.body)
    && ToWire(w, Canonicalized(w, e)).Some?
    && cfg.zone == e.audience
    && Resolve(cfg.trustMap, e.sender.channelType, who).Some?
    && Resolve(cfg.trustMap, e.sender.channelType, who).value.principal == e.principal
    && !IsExpired(w, e, arr.now, cfg.skew)
    && !arr.keySourceDown
    && arr.store.Healthy?
    && (arr.screen.Some? ==> arr.screen.value(Canonicalized(w, e)).Passed())
  }

  lemma DeliveredIsJudged(cfg: Config, keys: Enrolment, items: Items, m: map<string, string>,
                          entries: seq<(string, string)>, header: string, e: Envelope, arr: Arrival)
    requires CanonicalIdempotent(cfg.world) && Delivered(cfg, keys, items, m, entries, header, e, arr)
    requires e.senderClass == None && Gate(cfg.world, keys)(Canonicalized(cfg.world, e)).ok
    ensures var who := cfg.world.canonical(e.sender.channelIdentity);
            Judge(cfg, arr)
                == Cleared(who, Canonicalized(cfg.world, e), Resolve(cfg.trustMap, e.sender.channelType, who).value,
                                       Established(Gate(cfg.world, keys)(Canonicalized(cfg.world, e))))
  {
    var w := cfg.world;
    var who, judged := w.canonical(e.sender.channelIdentity), Canonicalized(w, e);
    TokenNamesOnePeer(w, items, m, entries, header, arr.request);
    assert Authenticated(cfg, arr) == Some(who);
    assert cfg.adapter.normalize(arr.request) == Normalize(w, e.sender.channelType, arr.request) == Some(judged);
    assert judged.(senderClass := None) == judged;
    assert Shape(cfg, arr.request, who) == Shaped(judged);
    assert GateRuns(cfg) && cfg.verify.value(judged) == Gate(w, keys)(judged);
  }

  /** What the round trip takes for granted: an own signer, an enrolled key, a proper delivery, an unclaimed key. */
  ghost predicate Honest(cfg: Config, keys: Enrolment, items: Items, m: map<string, string>,
                         entries: seq<(string, string)>, header: string, o: Outbound, turn: Turn,
                         inbound: Option<Envelope>, signer: ChainSigner, e: Envelope, arr: Arrival,
                         d: set<DedupeKey>) {
    && CanonicalIdempotent(cfg.world) && KeyWorks(cfg.world, signer.key)
    && StampOutbound(cfg.world, o, turn, inbound, Some(signer)) == Some(e) && signer.zone == o.zone
    && Enrols(keys, signer, cfg.world.canonical(e.sender.channelIdentity))
    && Delivered(cfg, keys, items, m, entries, header, e, arr)
    && (cfg.world.canonical(e.sender.channelIdentity), e.eventId) !in d
  }

  /**
   Honest round trip. An envelope stamped and signed by the stamping zone's own
   signer, delivered with the sender's own token to a verifying webhook airlock
   that is its audience and maps it, unexpired, unclaimed and not refused by a
   screen, is accepted: the whole chain kept, one hop appended with `sig:pass`,
   whatever spelling of its identity the sender used.
   */
  lemma HonestRoundTrip(cfg: Config, keys: Enrolment, items: Items, m: map<string, string>,
                        entries: seq<(string, string)>, header: string, o: Outbound, turn: Turn,
                        inbound: Option<Envelope>, signer: ChainSigner, e: Envelope, arr: Arrival,
                        d: set<DedupeKey>)
    requires Honest(cfg, keys, items, m, entries, header, o, turn, inbound, signer, e, arr, d)
    ensures var out := Step(cfg, d, arr).outcome;
            && out.envelope.Some? && out.refusal.None?
            && var chain := out.envelope.value.provenance;
            && |chain| == |e.provenance| + 1 && chain[..|e.provenance|] == e.provenance
            && chain[|e.provenance|].zone == cfg.zone && "sig:pass" in chain[|e.provenance|].evidence
            && CarriesRequest(out.envelope.value, o)
            && out.envelope.value.sender.channelIdentity == cfg.world.canonical(e.sender.channelIdentity)
            && out.envelope.value.chainSignatures == e.chainSignatures
            && out.envelope.value.senderClass
               == Some(Resolve(cfg.trustMap, e.sender.channelType, out.envelope.value.sender.channelIdentity)
                         .value.senderClass)
  {
    HonestChainVerifies(cfg.world, o, turn, inbound, signer, keys, e);
    SentIsRequested(cfg.world, o, turn, inbound, Some(signer), e);
    DeliveredIsJudged(cfg, keys, items, m, entries, header, e, arr);
    ClearedIsAccepted(cfg, d, arr);
    AcceptedIsStamped(cfg, d, arr);
  }

  /** Past the gates, an unclaimed key, a working store and no refusal mean acceptance. */
  lemma ClearedIsAccepted(cfg: Config, d: set<DedupeKey>, arr: Arrival)
    requires Judge(cfg, arr).Cleared? && Judge(cfg, arr).envelope.DedupeKey() !in d && arr.store.Healthy?
    requires arr.screen.Some? ==> arr.screen.value(Judge(cfg, arr).envelope).Passed()
    ensures var j := Judge(cfg, arr);
            var out := Step(cfg, d, arr).outcome;
            && out.envelope.Some? && out.refusal.None?
            && out.envelope.value.payload == j.envelope.payload
            && var chain := out.envelope.value.provenance;
            && |chain| == |j.envelope.provenance| + 1 && chain[..|j.envelope.provenance|] == j.envelope.provenance
            && chain[|j.envelope.provenance|].zone == cfg.zone
            && (j.checks.chainVerified ==> "sig:pass" in chain[|j.envelope.provenance|].evidence)
  {
    EvidenceNames(Judge(cfg, arr).checks);
  }
}

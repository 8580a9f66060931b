/** End to end: what an acceptance proves about a signer, and that an honest envelope is accepted. */
module Authenticity {
  import opened Prelude
  import opened Schemas
  import opened Signing
  import opened Verification
  import opened Dispatch
  import opened Runs
  import opened Webhook

  /** One use of a signing key: the broker holding `publicKey`'s pair signed this envelope. */
  datatype Signed = Signed(publicKey: seq<byte>, keyId: string, zone: string, envelope: Envelope)

  function SignedBytes(w: World, s: Signed): Option<seq<byte>> {
    var statement :- BuildStatement(w, s.envelope, s.keyId, s.zone);
    Some(Pae(DSSE_PAYLOAD_TYPE, statement))
  }

  /** The symbolic signature rule: only bytes some broker signed verify under its key. */
  ghost predicate Unforgeable(w: World, log: set<Signed>) {
    forall key, message, sig :: w.verifies(key, message, sig) ==>
      exists s | s in log :: s.publicKey == key && SignedBytes(w, s) == Some(message)
  }

  /** An airlock that verifies chains against `keys`, behind an adapter that parses envelopes. */
  ghost predicate Verifying(cfg: Config, keys: Enrolment) {
    cfg.verify == Some(Gate(cfg.world, keys)) && !cfg.adapter.originatesEnvelope
  }

  /**
   `s` is a signature by an enrolled key, inside its scope, for this zone, over
   every field of `e` that is signed; of the payload it fixes the digest.
   */
  ghost predicate Vouches(w: World, keys: Enrolment, zone: string, s: Signed, e: Envelope) {
    && s.keyId in keys
    && keys[s.keyId].publicKey == s.publicKey
    && keys[s.keyId].zone == s.zone
    && w.canonical(e.sender.channelIdentity) in keys[s.keyId].senderIdentities
    && s.envelope.audience == zone
    && ClearView(w, s.envelope) == ClearView(w, e)
    && PayloadHash(w, s.envelope) == PayloadHash(w, e)
  }

  /** The same, payload included: what was signed and what arrived agree on all that is signed. */
  ghost predicate Authorizes(w: World, keys: Enrolment, zone: string, s: Signed, e: Envelope) {
    Vouches(w, keys, zone, s, e) && SignedView(w, s.envelope) == SignedView(w, e)
  }

  /** Nothing but a collision of the payload hash stands between the two. */
  lemma VouchedIsAuthorized(w: World, keys: Enrolment, zone: string, s: Signed, e: Envelope)
    requires Vouches(w, keys, zone, s, e) && PayloadsDistinguished(w, s.envelope, e)
    ensures Authorizes(w, keys, zone, s, e)
  {
    ViewFromParts(w, s.envelope, e);
  }

  lemma VerifyOneMeans(w: World, e: Envelope, s: ChainSignature, key: PeerKey)
    requires VerifyOne(w, e)(s, key) && s.payloadType == DSSE_PAYLOAD_TYPE
    ensures SignedBytes(w, Signed(key.publicKey, s.keyId, s.zone, e)).Some?
    ensures w.verifies(key.publicKey, SignedBytes(w, Signed(key.publicKey, s.keyId, s.zone, e)).value, s.sig)
  {
  }

  lemma SameBytesSameView(w: World, a: Signed, b: Signed)
    requires SignedBytes(w, a).Some? && SignedBytes(w, a) == SignedBytes(w, b)
    ensures a.keyId == b.keyId && a.zone == b.zone
    ensures ClearView(w, a.envelope) == ClearView(w, b.envelope)
    ensures PayloadHash(w, a.envelope) == PayloadHash(w, b.envelope)
  {
    var x, y := BuildStatement(w, a.envelope, a.keyId, a.zone), BuildStatement(w, b.envelope, b.keyId, b.zone);
    SamePae(x.value, y.value);
    BytesFixClearView(w, a.envelope, a.keyId, a.zone, b.envelope, b.keyId, b.zone);
  }

  /** The gate's verdict, with the primitive left unopened. */
  lemma GatePasses(w: World, keys: Enrolment, e: Envelope)
    requires Gate(w, keys)(e).ok
    ensures e.chainSignatures != []
    ensures forall i | 0 <= i < |e.chainSignatures| ::
              Passes(VerifyOne(w, e), w.canonical(e.sender.channelIdentity), e, keys, e.chainSignatures[i])
  {
    VerdictExact(VerifyOne(w, e), w.canonical(e.sender.channelIdentity), e, keys);
  }

  lemma PassingWasSigned(w: World, keys: Enrolment, log: set<Signed>, e: Envelope) returns (s: Signed)
    requires Unforgeable(w, log) && Gate(w, keys)(e).ok
    ensures s in log && Vouches(w, keys, e.audience, s, e)
  {
    GatePasses(w, keys, e);
    var signature := e.chainSignatures[0];
    assert Passes(VerifyOne(w, e), w.canonical(e.sender.channelIdentity), e, keys, signature);
    var key := keys[signature.keyId];
    VerifyOneMeans(w, e, signature, key);
    var claim := Signed(key.publicKey, signature.keyId, signature.zone, e);
    s :| s in log && s.publicKey == key.publicKey && SignedBytes(w, s) == Some(SignedBytes(w, claim).value);
    SameBytesSameView(w, s, claim);
    assert ClearView(w, s.envelope).audience == ClearView(w, e).audience;
  }

  /**
   Authenticity. Whatever a verifying airlock accepts, in any state, is the
   cleared envelope with one hop appended, and an enrolled, in-scope key signed
   an envelope for this zone that agrees with it on every signed field and on the
   payload's digest; on the payload itself unless the hash confuses the two.
   */
  lemma AcceptedWasSigned(cfg: Config, keys: Enrolment, log: set<Signed>, d: set<DedupeKey>,
                          arr: Arrival) returns (s: Signed)
    requires Verifying(cfg, keys) && Unforgeable(cfg.world, log)
    requires Step(cfg, d, arr).outcome.envelope.Some?
    ensures Judge(cfg, arr).Cleared?
    ensures Step(cfg, d, arr).outcome.envelope.value
            == Stamp(cfg, arr, Judge(cfg, arr).envelope, Judge(cfg, arr).resolution, Judge(cfg, arr).checks)
    ensures s in log && Vouches(cfg.world, keys, cfg.zone, s, Judge(cfg, arr).envelope)
    ensures PayloadsDistinguished(cfg.world, s.envelope, Judge(cfg, arr).envelope) ==>
              Authorizes(cfg.world, keys, cfg.zone, s, Judge(cfg, arr).envelope)
  {
    AcceptedIsStamped(cfg, d, arr);
    ClearedMeans(cfg, arr);
    assert GateRuns(cfg);
    var e := Judge(cfg, arr).envelope;
    s := PassingWasSigned(cfg.world, keys, log, e);
    if PayloadsDistinguished(cfg.world, s.envelope, e) {
      VouchedIsAuthorized(cfg.world, keys, cfg.zone, s, e);
    }
  }

  /** The same at every step of every run, with a hash that tells the payloads signed from those that arrive. */
  lemma EveryAcceptanceWasSigned(cfg: Config, keys: Enrolment, log: set<Signed>, d: set<DedupeKey>,
                                 arrivals: seq<Arrival>, i: nat)
    requires Verifying(cfg, keys) && Unforgeable(cfg.world, log)
    requires i < |arrivals| && Run(cfg, d, arrivals)[i].outcome.envelope.Some?
    ensures Judge(cfg, arrivals[i]).Cleared?
    ensures var j := Judge(cfg, arrivals[i]);
            && Run(cfg, d, arrivals)[i].outcome.envelope.value
               == Stamp(cfg, arrivals[i], j.envelope, j.resolution, j.checks)
            && (exists s | s in log :: Vouches(cfg.world, keys, cfg.zone, s, j.envelope))
            && ((forall s | s in log :: PayloadsDistinguished(cfg.world, s.envelope, j.envelope)) ==>
                  exists s | s in log :: Authorizes(cfg.world, keys, cfg.zone, s, j.envelope))
  {
    RunAt(cfg, d, arrivals, i);
    var s := AcceptedWasSigned(cfg, keys, log, After(cfg, d, arrivals[..i]), arrivals[i]);
  }

  /** The canonical identity and event id an envelope was signed under. */
  function PairOf(w: World, s: Signed): DedupeKey {
    (w.canonical(s.envelope.sender.channelIdentity), s.envelope.eventId)
  }

  /** The pairs signed for one zone. */
  ghost function SignedPairs(w: World, log: set<Signed>, zone: string): set<DedupeKey> {
    set s | s in log && s.envelope.audience == zone :: PairOf(w, s)
  }

  /** The adapter hands on canonical identities only. */
  ghost predicate Canonicalizes(cfg: Config) {
    forall r :: cfg.adapter.normalize(r).Some? ==>
      var who := cfg.adapter.normalize(r).value.sender.channelIdentity; cfg.world.canonical(who) == who
  }

  lemma WebhookCanonicalizes(cfg: Config, header: string, entries: seq<(string, string)>)
    requires CanonicalIdempotent(cfg.world)
    requires cfg.adapter == WebhookAdapter(cfg.world, cfg.adapter.channelType, header, entries)
    ensures Canonicalizes(cfg)
  {
    forall r | cfg.adapter.normalize(r).Some?
      ensures var who := cfg.adapter.normalize(r).value.sender.channelIdentity; cfg.world.canonical(who) == who
    {
      assert cfg.adapter.normalize(r) == Normalize(cfg.world, cfg.adapter.channelType, r);
    }
  }

  /** An acceptance has a signed envelope behind it with its key and its expiry. */
  lemma AcceptedHasSource(cfg: Config, keys: Enrolment, log: set<Signed>, d: set<DedupeKey>, arr: Arrival)
    returns (s: Signed)
    requires Verifying(cfg, keys) && Unforgeable(cfg.world, log) && Canonicalizes(cfg)
    requires Step(cfg, d, arr).outcome.envelope.Some?
    ensures Judge(cfg, arr).Cleared? && s in log && s.envelope.audience == cfg.zone
    ensures PairOf(cfg.world, s) == Judge(cfg, arr).envelope.DedupeKey()
    ensures s.envelope.expiry == Judge(cfg, arr).envelope.expiry
  {
    s := AcceptedWasSigned(cfg, keys, log, d, arr);
    ClearedIsCanonical(cfg, arr);
    var e := Judge(cfg, arr).envelope;
    var u, v := ClearView(cfg.world, s.envelope), ClearView(cfg.world, e);
    assert u.eventId == v.eventId && u.expiry == v.expiry && u.sender.channelIdentity == v.sender.channelIdentity;
  }

  lemma ClearedIsCanonical(cfg: Config, arr: Arrival)
    requires Canonicalizes(cfg) && Judge(cfg, arr).Cleared?
    ensures var who := Judge(cfg, arr).envelope.sender.channelIdentity; cfg.world.canonical(who) == who
  {
    ClearedMeans(cfg, arr);
    var parsed := cfg.adapter.normalize(arr.request);
    assert parsed.Some? && Judge(cfg, arr).envelope == parsed.value.(senderClass := None);
  }

  lemma AcceptedKeyWasSigned(cfg: Config, keys: Enrolment, log: set<Signed>, d: set<DedupeKey>, arr: Arrival)
    requires Verifying(cfg, keys) && Unforgeable(cfg.world, log) && Canonicalizes(cfg)
    requires Step(cfg, d, arr).outcome.envelope.Some?
    ensures Step(cfg, d, arr).outcome.envelope.value.DedupeKey() in SignedPairs(cfg.world, log, cfg.zone)
  {
    var s := AcceptedHasSource(cfg, keys, log, d, arr);
    AcceptedIsStamped(cfg, d, arr);
  }

  /** Over any run, acceptances never outnumber the pairs signed for this zone. */
  lemma AcceptancesBounded(cfg: Config, keys: Enrolment, log: set<Signed>, d: set<DedupeKey>, arrivals: seq<Arrival>)
    requires Verifying(cfg, keys) && Unforgeable(cfg.world, log) && Canonicalizes(cfg)
    ensures Count(Run(cfg, d, arrivals), ACCEPTANCES) <= |SignedPairs(cfg.world, log, cfg.zone)|
  {
    var effects := Run(cfg, d, arrivals);
    AcceptedOnce(cfg, d, arrivals);
    AcceptedKeysSigned(cfg, keys, log, d, arrivals);
    DistinctBounded(AcceptedKeys(effects), SignedPairs(cfg.world, log, cfg.zone));
    AcceptedKeysCount(effects);
  }

  lemma {:induction false} AcceptedKeysSigned(cfg: Config, keys: Enrolment, log: set<Signed>, d: set<DedupeKey>,
                                              arrivals: seq<Arrival>)
    requires Verifying(cfg, keys) && Unforgeable(cfg.world, log) && Canonicalizes(cfg)
    ensures forall k | k in AcceptedKeys(Run(cfg, d, arrivals)) :: k in SignedPairs(cfg.world, log, cfg.zone)
    decreases |arrivals|
  {
    if arrivals != [] {
      var effect := Step(cfg, d, arrivals[0]);
      var effects := Run(cfg, d, arrivals);
      assert effects[1..] == Run(cfg, d + effect.claims, arrivals[1..]);
      AcceptedKeysSigned(cfg, keys, log, d + effect.claims, arrivals[1..]);
      if effect.outcome.envelope.Some? {
        AcceptedKeyWasSigned(cfg, keys, log, d, arrivals[0]);
      }
    }
  }

  /** No one signed statement is accepted by two airlocks with different zones. */
  lemma NoStatementServesTwoZones(a: Config, b: Config, w: World, da: set<DedupeKey>, db: set<DedupeKey>, x: Arrival,
                                  y: Arrival, s: ChainSignature, t: ChainSignature)
    requires a.world == w == b.world && a.zone != b.zone
    requires Step(a, da, x).outcome.envelope.Some? && Step(b, db, y).outcome.envelope.Some?
    ensures var e, f := Judge(a, x), Judge(b, y);
            && e.Cleared? && f.Cleared?
            && (BuildStatement(w, e.envelope, s.keyId, s.zone).Some? ==>
                  BuildStatement(w, e.envelope, s.keyId, s.zone) != BuildStatement(w, f.envelope, t.keyId, t.zone))
  {
    AcceptedIsStamped(a, da, x);
    AcceptedIsStamped(b, db, y);
    ClearedMeans(a, x);
    ClearedMeans(b, y);
    AudienceFixed(w, Judge(a, x).envelope, s, Judge(b, y).envelope, t);
  }

  lemma AudienceFixed(w: World, e: Envelope, s: ChainSignature, f: Envelope, t: ChainSignature)
    requires e.audience != f.audience
    ensures BuildStatement(w, e, s.keyId, s.zone).Some? ==>
              BuildStatement(w, e, s.keyId, s.zone) != BuildStatement(w, f, t.keyId, t.zone)
  {
    var x, y := BuildStatement(w, e, s.keyId, s.zone), BuildStatement(w, f, t.keyId, t.zone);
    if x.Some? && x == y {
      BytesFixClearView(w, e, s.keyId, s.zone, f, t.keyId, t.zone);
    }
  }
}

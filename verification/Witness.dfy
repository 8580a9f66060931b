/** The hypotheses of the end-to-end theorems can all be met at once, and an acceptance then happens. */
module Witness {
  import opened Prelude
  import opened Text
  import opened Json
  import opened Schemas
  import opened Signing
  import opened TrustMap
  import opened Verification
  import opened Dispatch
  import opened Runs
  import opened Stores
  import opened Publish
  import opened Webhook
  import opened Authenticity
  import opened RoundTrip
  import opened Journey
  import opened Wire
  import opened Forwarding

  /** A hash that keeps everything apart: each byte becomes a character. */
  function Spelled(x: seq<byte>): (s: string)
    ensures |s| == |x| && forall i | 0 <= i < |s| :: s[i] == x[i] as char
  {
    seq(|x|, i requires 0 <= i < |x| => x[i] as char)
  }

  lemma SpelledInjective(x: seq<byte>, y: seq<byte>)
    requires Spelled(x) == Spelled(y)
    ensures x == y
  {
    assert |x| == |Spelled(x)| == |Spelled(y)| == |y|;
    forall i | 0 <= i < |x| ensures x[i] == y[i] {
      assert Spelled(x)[i] == Spelled(y)[i];
    }
  }

  type Verifier = (seq<byte>, seq<byte>, seq<byte>) -> bool

  /** Reads such a spelling back. */
  function Unspelled(s: string): Option<seq<byte>> {
    if forall i | 0 <= i < |s| :: s[i] as int < 256
    then Some(seq(|s|, i requires 0 <= i < |s| && s[i] as int < 256 => s[i] as int))
    else None
  }

  function Spelling(): Base64 {
    Base64(Spelled, Unspelled)
  }

  lemma SpellingInverts()
    ensures Inverts(Spelling())
  {
    forall x ensures Unspelled(Spelled(x)) == Some(x) {
      assert Unspelled(Spelled(x)).value == x;
    }
  }

  /** A world with the envelope's own codec, in which every timestamp names one instant. */
  function Small(verifies: Verifier, expiry: int): World {
    World(
      (s: string) => s,
      Spelled,
      (key: seq<byte>, message: seq<byte>) => [],
      verifies,
      (s: string) => expiry,
      (n: int) => "now",
      (e: Envelope) => EnvelopeText(Spelling(), e),
      (s: string) => ReadWire(Spelling(), s))
  }

  function SignerFor(o: Outbound): ChainSigner {
    ChainSigner("k", o.zone, [])
  }

  function Bare(o: Outbound, turn: Turn): Envelope {
    Unsigned(o, turn, None)
  }

  function SignedOne(o: Outbound, turn: Turn): (e: Envelope)
    ensures e.provenance == Bare(o, turn).provenance && e.provenance != []
    ensures e.chainSignatures != [] && e == Bare(o, turn).(chainSignatures := e.chainSignatures)
  {
    var e := Bare(o, turn);
    e.(chainSignatures := [ChainSignature("k", o.zone, |e.provenance|, DSSE_PAYLOAD_TYPE, [])])
  }

  /** Takes every signature for good. */
  function Lenient(): Verifier {
    (key: seq<byte>, message: seq<byte>, sig: seq<byte>) => true
  }

  function Who(o: Outbound, turn: Turn): string {
    Bare(o, turn).sender.channelIdentity
  }

  function KeysFor(o: Outbound, turn: Turn): Enrolment {
    map["k" := PeerKey([], o.zone, {Who(o, turn)}, 2, Declared)]
  }

  function Entries(o: Outbound, turn: Turn): seq<(string, string)> {
    [(Who(o, turn), "token")]
  }

  function ConfigFor(o: Outbound, turn: Turn, w: World): Config {
    Config(w, WebhookAdapter(w, o.channelType, "header", Entries(o, turn)),
           [Entry(o.channelType, Who(o, turn), o.principal, PeerAgent)],
           Some(Gate(w, KeysFor(o, turn))), false, o.audience, 0)
  }

  /** The text of an envelope in these worlds. */
  function Written(e: Envelope): string {
    EnvelopeText(Spelling(), e)
  }

  function Delivery(o: Outbound, turn: Turn): Arrival {
    Arrival(Request(map["header" := "token"], Written(SignedOne(o, turn))), 0, false, Healthy, None)
  }

  /** Sent by someone, with no raw original to name, and within the ceiling. */
  predicate Plainly(o: Outbound, turn: Turn) {
    && Who(o, turn) != "" && o.payloadDigest.None? && o.payloadRef.None?
    && |Written(Bare(o, turn))| <= MAX_ENVELOPE_BYTES && |Written(SignedOne(o, turn))| <= MAX_ENVELOPE_BYTES
  }

  lemma SmallCodec(verifies: Verifier, expiry: nat)
    ensures Codec(Small(verifies, expiry), Spelling(), (e: Envelope) => true)
  {
    SpellingInverts();
  }

  lemma SmallCarries(verifies: Verifier, expiry: nat, e: Envelope)
    requires |Written(e)| <= MAX_ENVELOPE_BYTES
    ensures ToWire(Small(verifies, expiry), e) == Some(Written(e))
  {
    SmallCodec(verifies, expiry);
    WireFormExact(Small(verifies, expiry), Spelling(), (x: Envelope) => true, e);
  }

  lemma SmallWorldCarries(o: Outbound, turn: Turn, verifies: Verifier, expiry: nat)
    requires Plainly(o, turn)
    ensures var w := Small(verifies, expiry);
            && ToWire(w, Bare(o, turn)) == Some(Written(Bare(o, turn)))
            && ToWire(w, SignedOne(o, turn)) == Some(Written(SignedOne(o, turn)))
            && CanonicalIdempotent(w) && Canonicalized(w, SignedOne(o, turn)) == SignedOne(o, turn)
  {
    SmallCarries(verifies, expiry, Bare(o, turn));
    SmallCarries(verifies, expiry, SignedOne(o, turn));
  }

  /** Its hash confuses no payloads. */
  lemma SmallWorldDistinguishes(o: Outbound, turn: Turn, verifies: Verifier, expiry: nat, a: Envelope, b: Envelope)
    ensures PayloadsDistinguished(Small(verifies, expiry), a, b)
  {
    var w := Small(verifies, expiry);
    if PayloadHash(w, a) == PayloadHash(w, b) {
      SpelledInjective(Utf8(Dumps(Obj(a.payload))), Utf8(Dumps(Obj(b.payload))));
    }
  }

  lemma StampsToSigned(o: Outbound, turn: Turn, verifies: Verifier, expiry: nat)
    requires Plainly(o, turn)
    ensures StampOutbound(Small(verifies, expiry), o, turn, None, Some(SignerFor(o)))
            == Some(SignedOne(o, turn))
  {
    SmallWorldCarries(o, turn, verifies, expiry);
    StatementDefined(Small(verifies, expiry), Bare(o, turn), "k", o.zone);
  }

  lemma OneToken(w: World, who: string)
    requires w.canonical(who) == who && who != ""
    ensures Accepted(w, [(who, Text("token"))], map[who := "token"]) && Lists([(who, "token")], map[who := "token"])
  {
    var pairs := CanonicalPairs(w, [(who, Text("token"))]);
    assert pairs == [(who, "token")];
    assert [(who, "token")][0].0 == who;
  }

  function TokenItems(o: Outbound, turn: Turn): Items {
    [(Who(o, turn), Text("token"))]
  }

  function TokenMap(o: Outbound, turn: Turn): map<string, string> {
    map[Who(o, turn) := "token"]
  }

  lemma IsDelivered(o: Outbound, turn: Turn, verifies: Verifier, expiry: nat)
    requires Plainly(o, turn)
    ensures Delivered(ConfigFor(o, turn, Small(verifies, expiry)), KeysFor(o, turn), TokenItems(o, turn),
                      TokenMap(o, turn), Entries(o, turn), "header", SignedOne(o, turn), Delivery(o, turn))
  {
    SmallWorldCarries(o, turn, verifies, expiry);
    OneToken(Small(verifies, expiry), Who(o, turn));
  }

  // The round trip

  lemma IsHonest(o: Outbound, turn: Turn, expiry: nat)
    requires Plainly(o, turn)
    ensures Honest(ConfigFor(o, turn, Small(Lenient(), expiry)), KeysFor(o, turn), TokenItems(o, turn),
                   TokenMap(o, turn), Entries(o, turn), "header", o, turn, None, SignerFor(o),
                   SignedOne(o, turn), Delivery(o, turn), {})
  {
    SmallWorldCarries(o, turn, Lenient(), expiry);
    StampsToSigned(o, turn, Lenient(), expiry);
    IsDelivered(o, turn, Lenient(), expiry);
  }

  /** Every plain envelope has a world that meets each hypothesis of the round trip, and there it takes place. */
  lemma HonestRoundTripHappens(o: Outbound, turn: Turn, expiry: nat)
    requires Plainly(o, turn)
    ensures var cfg := ConfigFor(o, turn, Small(Lenient(), expiry));
            && Honest(cfg, KeysFor(o, turn), TokenItems(o, turn), TokenMap(o, turn), Entries(o, turn), "header", o,
                      turn, None, SignerFor(o), SignedOne(o, turn), Delivery(o, turn), {})
            && Step(cfg, {}, Delivery(o, turn)).outcome.envelope.Some?
  {
    IsHonest(o, turn, expiry);
    HonestRoundTrip(ConfigFor(o, turn, Small(Lenient(), expiry)), KeysFor(o, turn), TokenItems(o, turn),
                    TokenMap(o, turn), Entries(o, turn), "header", o, turn, None, SignerFor(o),
                    SignedOne(o, turn), Delivery(o, turn), {});
  }

  /** From any turn, tainted ones included, there is a crossing that lands. */
  lemma LandingHappens(o: Outbound, turn: Turn, receiverMap: InputTrustMap)
    requires Plainly(o, turn)
    ensures var cfg := ConfigFor(o, turn, Small(Lenient(), 0));
            var c := Crossing(o, false, Some(SignerFor(o)), cfg, {}, Delivery(o, turn), receiverMap, []);
            KeepsChain(c.cfg) && Land(Node(turn, None), c).Some?
  {
    WebhookKeepsChain(ConfigFor(o, turn, Small(Lenient(), 0)), "header", Entries(o, turn));
    SmallWorldCarries(o, turn, Lenient(), 0);
    StampsToSigned(o, turn, Lenient(), 0);
    HonestRoundTripHappens(o, turn, 0);
  }

  // An acceptance that cannot be forwarded

  /** The same message under a longer event id. */
  function Longer(o: Outbound, n: nat): Outbound {
    o.(eventId := o.eventId + Padding(n))
  }

  /** As long as brings its signed envelope to the ceiling. */
  function Filled(o: Outbound, turn: Turn): Outbound
    requires Plainly(o, turn)
  {
    Longer(o, MAX_ENVELOPE_BYTES - |Written(SignedOne(o, turn))|)
  }

  lemma {:induction false} OriginHopsIgnoreId(o: Outbound, id: string, sources: seq<string>, carried: set<string>)
    ensures OriginHops(o.(eventId := id), sources, carried) == OriginHops(o, sources, carried)
  {
    if sources != [] {
      OriginHopsIgnoreId(o, id, sources[1..], carried);
    }
  }

  lemma LongerId(o: Outbound, turn: Turn, n: nat)
    ensures var f := Longer(o, n);
            && Bare(f, turn) == Padded(Bare(o, turn), n)
            && SignedOne(f, turn) == Padded(SignedOne(o, turn), n)
            && Who(f, turn) == Who(o, turn)
  {
    OriginHopsIgnoreId(o, o.eventId + Padding(n), turn.sources, Carried([]));
  }

  lemma FilledSizes(bare: Envelope, signed: Envelope, n: nat)
    requires |Written(bare)| <= |Written(signed)| && n == MAX_ENVELOPE_BYTES - |Written(signed)|
    ensures |Written(Padded(bare, n))| <= MAX_ENVELOPE_BYTES == |Written(Padded(signed, n))|
  {
    PaddedSize(Spelling(), signed, n);
    PaddedSize(Spelling(), bare, n);
  }

  lemma LongerIsPlain(o: Outbound, turn: Turn, n: nat, bare: Envelope, signed: Envelope)
    requires Plainly(o, turn) && bare == Bare(o, turn) && signed == SignedOne(o, turn)
    requires |Written(Padded(bare, n))| <= MAX_ENVELOPE_BYTES && |Written(Padded(signed, n))| <= MAX_ENVELOPE_BYTES
    ensures Plainly(Longer(o, n), turn) && SignedOne(Longer(o, n), turn) == Padded(signed, n)
  {
    LongerId(o, turn, n);
  }

  lemma FilledIsPlain(o: Outbound, turn: Turn)
    requires Plainly(o, turn)
    ensures Plainly(Filled(o, turn), turn)
    ensures |Written(SignedOne(Filled(o, turn), turn))| == MAX_ENVELOPE_BYTES
  {
    var n, bare, signed := MAX_ENVELOPE_BYTES - |Written(SignedOne(o, turn))|, Bare(o, turn), SignedOne(o, turn);
    SignedIsLonger(Spelling(), bare, signed.chainSignatures);
    FilledSizes(bare, signed, n);
    LongerIsPlain(o, turn, n, bare, signed);
  }

  lemma ClearedIsSignedOne(o: Outbound, turn: Turn)
    requires Plainly(o, turn)
    ensures var j := Judge(ConfigFor(o, turn, Small(Lenient(), 0)), Delivery(o, turn));
            j.Cleared? && j.envelope == SignedOne(o, turn)
  {
    IsHonest(o, turn, 0);
    SmallWorldCarries(o, turn, Lenient(), 0);
    HonestChainVerifies(Small(Lenient(), 0), o, turn, None, SignerFor(o), KeysFor(o, turn), SignedOne(o, turn));
    DeliveredIsJudged(ConfigFor(o, turn, Small(Lenient(), 0)), KeysFor(o, turn), TokenItems(o, turn), TokenMap(o, turn),
                      Entries(o, turn), "header", SignedOne(o, turn), Delivery(o, turn));
  }

  /** With a zone id as long as the slack, an airlock accepts an envelope whose stamped text is over the ceiling. */
  lemma UnforwardableHappens(o: Outbound, turn: Turn)
    requires Plainly(o, turn) && |o.audience| >= SLACK
    ensures var f := Filled(o, turn);
            var out := Step(ConfigFor(f, turn, Small(Lenient(), 0)), {}, Delivery(f, turn)).outcome.envelope;
            Plainly(f, turn) && out.Some? && |Written(out.value)| > MAX_FORWARD_BYTES
  {
    var f := Filled(o, turn);
    FilledIsPlain(o, turn);
    HonestRoundTripHappens(f, turn, 0);
    ClearedIsSignedOne(f, turn);
    AcceptedSize(ConfigFor(f, turn, Small(Lenient(), 0)), Spelling(), {}, Delivery(f, turn));
  }

  // A second acceptance

  /** The instant of the ttl a claim made at the delivery records. */
  function TtlInstant(ttlDays: nat): nat {
    Ttl(0, ttlDays) * MICROS
  }

  lemma DeliveryIsJudged(o: Outbound, turn: Turn, expiry: nat)
    requires Plainly(o, turn)
    ensures var cfg := ConfigFor(o, turn, Small(Lenient(), expiry));
            && Step(cfg, {}, Delivery(o, turn)).outcome.envelope.Some? && Judge(cfg, Delivery(o, turn)).Cleared?
            && cfg.world.instant(Judge(cfg, Delivery(o, turn)).envelope.expiry) == expiry
  {
    HonestRoundTripHappens(o, turn, expiry);
    AcceptedIsStamped(ConfigFor(o, turn, Small(Lenient(), expiry)), {}, Delivery(o, turn));
  }

  /** With any number of ttl days, an expiry at the recorded ttl and no skew, one request is accepted twice. */
  lemma SecondAcceptanceHappens(o: Outbound, turn: Turn, ttlDays: nat)
    requires Plainly(o, turn)
    ensures var cfg := ConfigFor(o, turn, Small(Lenient(), TtlInstant(ttlDays)));
            && Step(cfg, {}, Delivery(o, turn)).outcome.envelope.Some?
            && cfg.world.instant(SignedOne(o, turn).expiry) <= Ttl(0, ttlDays) * MICROS
            && AcceptedAgain(cfg, ttlDays, Clocked(map[], 0), Delivery(o, turn))
  {
    var cfg := ConfigFor(o, turn, Small(Lenient(), TtlInstant(ttlDays)));
    DeliveryIsJudged(o, turn, TtlInstant(ttlDays));
    var empty := Clocked(map[], 0);
    assert empty.table.Keys == {};
    ExpiryAtTtlIsTooLate(cfg, ttlDays, empty, Delivery(o, turn));
  }

  // A world in which exactly one message verifies

  function LogEntry(o: Outbound, turn: Turn): Signed {
    Signed([], "k", o.zone, Bare(o, turn))
  }

  /** Only the logged message verifies, and only under its own key. */
  function Strict(o: Outbound, turn: Turn): Verifier {
    var logged := SignedBytes(Small(Lenient(), 0), LogEntry(o, turn));
    (key: seq<byte>, message: seq<byte>, sig: seq<byte>) => key == [] && logged == Some(message)
  }

  function StrictWorld(o: Outbound, turn: Turn): World {
    Small(Strict(o, turn), 0)
  }

  /** What is signed does not depend on how signatures are checked. */
  lemma BytesIgnoreVerifier(o: Outbound, turn: Turn, v1: Verifier, v2: Verifier, s: Signed)
    ensures SignedBytes(Small(v1, 0), s) == SignedBytes(Small(v2, 0), s)
  {
    var x, y := Small(v1, 0), Small(v2, 0);
    assert InlinePayloadHex(x, s.envelope.payload) == InlinePayloadHex(y, s.envelope.payload);
    assert Subjects(x, s.envelope) == Subjects(y, s.envelope);
    assert BoundEnvelope(x, s.envelope) == BoundEnvelope(y, s.envelope);
  }

  lemma StrictIsUnforgeable(o: Outbound, turn: Turn)
    ensures Unforgeable(StrictWorld(o, turn), {LogEntry(o, turn)})
  {
    var w := StrictWorld(o, turn);
    BytesIgnoreVerifier(o, turn, Lenient(), Strict(o, turn), LogEntry(o, turn));
    forall key, message, sig | w.verifies(key, message, sig)
      ensures exists s | s in {LogEntry(o, turn)} :: s.publicKey == key && SignedBytes(w, s) == Some(message)
    {
      assert LogEntry(o, turn) in {LogEntry(o, turn)};
    }
  }

  lemma SignedOneVerifies(o: Outbound, turn: Turn)
    requires Plainly(o, turn)
    ensures var e := SignedOne(o, turn);
            VerifyOne(StrictWorld(o, turn), e)(e.chainSignatures[0], KeysFor(o, turn)["k"])
  {
    var w := StrictWorld(o, turn);
    BytesIgnoreVerifier(o, turn, Lenient(), Strict(o, turn), LogEntry(o, turn));
    SameViewSameStatement(w, SignedOne(o, turn), Bare(o, turn), "k", o.zone);
    StatementDefined(w, Bare(o, turn), "k", o.zone);
  }

  lemma StrictGatePasses(o: Outbound, turn: Turn)
    requires Plainly(o, turn)
    ensures Gate(StrictWorld(o, turn), KeysFor(o, turn))(SignedOne(o, turn)).ok
  {
    var e := SignedOne(o, turn);
    SignedOneVerifies(o, turn);
    OutboundChainShape(o, turn, None);
    GateAccepts(StrictWorld(o, turn), KeysFor(o, turn), e, e.chainSignatures[0]);
  }

  lemma GatedIsAccepted(o: Outbound, turn: Turn, verifies: Verifier)
    requires Plainly(o, turn) && Gate(Small(verifies, 0), KeysFor(o, turn))(SignedOne(o, turn)).ok
    ensures Step(ConfigFor(o, turn, Small(verifies, 0)), {}, Delivery(o, turn)).outcome.envelope.Some?
  {
    var cfg := ConfigFor(o, turn, Small(verifies, 0));
    SmallWorldCarries(o, turn, verifies, 0);
    IsDelivered(o, turn, verifies, 0);
    DeliveredIsJudged(cfg, KeysFor(o, turn), TokenItems(o, turn), TokenMap(o, turn), Entries(o, turn), "header",
                      SignedOne(o, turn), Delivery(o, turn));
    ClearedIsAccepted(cfg, {}, Delivery(o, turn));
  }

  /** The authenticity theorems speak of acceptances that happen: all their hypotheses hold here and one is made. */
  lemma AuthenticAcceptanceHappens(o: Outbound, turn: Turn)
    requires Plainly(o, turn)
    ensures var w := StrictWorld(o, turn);
            var cfg := ConfigFor(o, turn, w);
            && Verifying(cfg, KeysFor(o, turn)) && Unforgeable(w, {LogEntry(o, turn)}) && Canonicalizes(cfg)
            && (forall a, b :: PayloadsDistinguished(w, a, b))
            && Step(cfg, {}, Delivery(o, turn)).outcome.envelope.Some?
  {
    SmallWorldCarries(o, turn, Strict(o, turn), 0);
    forall a, b ensures PayloadsDistinguished(StrictWorld(o, turn), a, b) {
      SmallWorldDistinguishes(o, turn, Strict(o, turn), 0, a, b);
    }
    StrictIsUnforgeable(o, turn);
    WebhookCanonicalizes(ConfigFor(o, turn, StrictWorld(o, turn)), "header", Entries(o, turn));
    StrictGatePasses(o, turn);
    GatedIsAccepted(o, turn, Strict(o, turn));
  }
}

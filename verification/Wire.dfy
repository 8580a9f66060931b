/** The envelope in wire form: its text, a reader that inverts it, and the room the receiver's stamp takes. */
module Wire {
  import opened Prelude
  import opened Json
  import opened Schemas
  import opened Signing

  const MAX_FORWARD_BYTES: nat := 262144

  /** How a signature's bytes are spelled. */
  datatype Base64 = Base64(text: seq<byte> -> string, bytes: string -> Option<seq<byte>>)

  ghost predicate Inverts(b: Base64) {
    forall x :: b.bytes(b.text(x)) == Some(x)
  }

  // Writing

  function Optional(o: Option<string>): Json {
    if o.None? then Null else Str(o.value)
  }

  function ClassName(c: SenderClass): string {
    match c
    case Owner => "owner"
    case PeerAgent => "peer-agent"
    case External => "external"
  }

  function ClassJson(c: Option<SenderClass>): Json {
    if c.None? then Null else Str(ClassName(c.value))
  }

  function SenderWire(s: Sender): Json {
    Obj(map[
          "channel_type" := Str(s.channelType),
          "channel_identity" := Str(s.channelIdentity),
          "evidence" := Strings(s.evidence)])
  }

  function SignatureWire(b: Base64, s: ChainSignature): Json {
    Obj(map[
          "key_id" := Str(s.keyId),
          "zone" := Str(s.zone),
          "covers" := Num(s.covers),
          "payload_type" := Str(s.payloadType),
          "sig" := Str(b.text(s.sig))])
  }

  function SignaturesWire(b: Base64, ss: seq<ChainSignature>): Json {
    Arr(seq(|ss|, i requires 0 <= i < |ss| => SignatureWire(b, ss[i])))
  }

  /** The members no stamp changes. */
  function Fixed(b: Base64, e: Envelope): map<string, Json> {
    map[
      "schema_version" := Num(1),
      "principal" := Str(e.principal),
      "audience" := Str(e.audience),
      "sender" := SenderWire(e.sender),
      "payload" := Obj(e.payload),
      "payload_digest" := Optional(e.payloadDigest),
      "payload_ref" := Optional(e.payloadRef),
      "chain_signatures" := SignaturesWire(b, e.chainSignatures),
      "ts" := Str(e.ts),
      "expiry" := Str(e.expiry)]
  }

  function Members(fixed: map<string, Json>, eventId: Json, hops: Json, cls: Json): map<string, Json> {
    fixed["event_id" := eventId]["provenance" := hops]["sender_class" := cls]
  }

  function EnvelopeJson(b: Base64, e: Envelope): Json {
    Obj(Members(Fixed(b, e), Str(e.eventId), HopsJson(e.provenance), ClassJson(e.senderClass)))
  }

  /** The text of `to_wire`: compact, ASCII, every field present. Members are in sorted order. */
  function EnvelopeText(b: Base64, e: Envelope): string {
    Dumps(EnvelopeJson(b, e))
  }

  // Reading

  function Get(m: map<string, Json>, k: string, absent: Json): Json {
    if k in m then m[k] else absent
  }

  function TextOf(j: Json): Option<string> {
    if j.Str? then Some(j.s) else None
  }

  function OptionalOf(j: Json): Option<Option<string>> {
    if j.Null? then Some(None) else if j.Str? then Some(Some(j.s)) else None
  }

  function All<T>(items: seq<Json>, read: Json -> Option<T>): Option<seq<T>> {
    if items == [] then Some([])
    else
      var x :- read(items[0]);
      var xs :- All(items[1..], read);
      Some([x] + xs)
  }

  function ListOf<T>(j: Json, read: Json -> Option<T>): Option<seq<T>> {
    if j.Arr? then All(j.items, read) else None
  }

  function LabelOf(j: Json): Option<Label> {
    if j == Str("trusted") then Some(Trusted) else if j == Str("untrusted") then Some(Untrusted) else None
  }

  function ClassOf(j: Json): Option<Option<SenderClass>> {
    if j == Null then Some(None)
    else if j == Str("owner") then Some(Some(Owner))
    else if j == Str("peer-agent") then Some(Some(PeerAgent))
    else if j == Str("external") then Some(Some(External))
    else None
  }

  /** An object with no field beyond these. */
  function FieldsOf(j: Json, known: set<string>): Option<map<string, Json>> {
    if j.Obj? && j.members.Keys <= known then Some(j.members) else None
  }

  function HopOf(j: Json): Option<Hop> {
    var m :- FieldsOf(j, {"zone", "source", "evidence", "label", "ts"});
    var zone :- TextOf(Get(m, "zone", Null));
    var source :- TextOf(Get(m, "source", Null));
    var evidence :- ListOf(Get(m, "evidence", Arr([])), TextOf);
    var hopLabel :- LabelOf(Get(m, "label", Null));
    var ts :- TextOf(Get(m, "ts", Null));
    Some(Hop(zone, source, evidence, hopLabel, ts))
  }

  function SenderOf(j: Json): Option<Sender> {
    var m :- FieldsOf(j, {"channel_type", "channel_identity", "evidence"});
    var channelType :- TextOf(Get(m, "channel_type", Null));
    var channelIdentity :- TextOf(Get(m, "channel_identity", Null));
    var evidence :- ListOf(Get(m, "evidence", Arr([])), TextOf);
    Some(Sender(channelType, channelIdentity, evidence))
  }

  function SignatureOf(b: Base64, j: Json): Option<ChainSignature> {
    var m :- FieldsOf(j, {"key_id", "zone", "covers", "payload_type", "sig"});
    var keyId :- TextOf(Get(m, "key_id", Null));
    var zone :- TextOf(Get(m, "zone", Null));
    var covers := Get(m, "covers", Null);
    var payloadType :- TextOf(Get(m, "payload_type", Null));
    var spelled :- TextOf(Get(m, "sig", Null));
    var sig :- b.bytes(spelled);
    if covers.Num? && covers.n >= 1 then Some(ChainSignature(keyId, zone, covers.n, payloadType, sig)) else None
  }

  const ENVELOPE_FIELDS := {
    "schema_version", "event_id", "principal", "audience", "sender", "payload", "payload_digest", "payload_ref",
    "provenance", "chain_signatures", "sender_class", "ts", "expiry"}

  /** The envelope an object carries; a field that may be absent has its default. */
  function EnvelopeOf(b: Base64, j: Json): Option<Envelope> {
    var m :- FieldsOf(j, ENVELOPE_FIELDS);
    var eventId :- TextOf(Get(m, "event_id", Null));
    var principal :- TextOf(Get(m, "principal", Null));
    var audience :- TextOf(Get(m, "audience", Null));
    var sender :- SenderOf(Get(m, "sender", Null));
    var payload := Get(m, "payload", Null);
    var payloadDigest :- OptionalOf(Get(m, "payload_digest", Null));
    var payloadRef :- OptionalOf(Get(m, "payload_ref", Null));
    var hops :- ListOf(Get(m, "provenance", Null), HopOf);
    var signatures :- ListOf(Get(m, "chain_signatures", Arr([])), (x: Json) => SignatureOf(b, x));
    var cls :- ClassOf(Get(m, "sender_class", Null));
    var ts :- TextOf(Get(m, "ts", Null));
    var expiry :- TextOf(Get(m, "expiry", Null));
    if !payload.Obj? || Get(m, "schema_version", Num(1)) != Num(1) then None
    else Some(Envelope(eventId, principal, audience, sender, payload.members, payloadDigest, payloadRef, hops,
                       signatures, cls, ts, expiry))
  }

  function ReadWire(b: Base64, text: string): Option<Envelope> {
    var j :- Loads(text);
    EnvelopeOf(b, j)
  }

  lemma {:induction false} AllInverts<T>(items: seq<Json>, read: Json -> Option<T>, xs: seq<T>)
    requires |items| == |xs| && forall i | 0 <= i < |xs| :: read(items[i]) == Some(xs[i])
    ensures All(items, read) == Some(xs)
  {
    if xs != [] {
      AllInverts(items[1..], read, xs[1..]);
      assert xs == [xs[0]] + xs[1..];
    }
  }

  lemma StringsReadBack(ss: seq<string>)
    ensures ListOf(Strings(ss), TextOf) == Some(ss)
  {
    AllInverts(Strings(ss).items, TextOf, ss);
  }

  lemma HopReadsBack(h: Hop)
    ensures HopOf(HopJson(h)) == Some(h)
  {
    StringsReadBack(h.evidence);
    assert "trusted" != "untrusted" by {
      assert |"trusted"| != |"untrusted"|;
    }
  }

  lemma HopsReadBack(hops: seq<Hop>)
    ensures ListOf(HopsJson(hops), HopOf) == Some(hops)
  {
    forall i | 0 <= i < |hops| ensures HopOf(HopsJson(hops).items[i]) == Some(hops[i]) {
      HopReadsBack(hops[i]);
    }
    AllInverts(HopsJson(hops).items, HopOf, hops);
  }

  lemma SenderReadsBack(s: Sender)
    ensures SenderOf(SenderWire(s)) == Some(s)
  {
    StringsReadBack(s.evidence);
  }

  lemma SignaturesReadBack(b: Base64, ss: seq<ChainSignature>)
    requires Inverts(b)
    ensures ListOf(SignaturesWire(b, ss), (x: Json) => SignatureOf(b, x)) == Some(ss)
  {
    var read := (x: Json) => SignatureOf(b, x);
    forall i | 0 <= i < |ss| ensures read(SignaturesWire(b, ss).items[i]) == Some(ss[i]) {
      assert b.bytes(b.text(ss[i].sig)) == Some(ss[i].sig);
    }
    AllInverts(SignaturesWire(b, ss).items, read, ss);
  }

  lemma ClassReadsBack(c: Option<SenderClass>)
    ensures ClassOf(ClassJson(c)) == Some(c)
  {
    assert |"owner"| != |"peer-agent"| && |"owner"| != |"external"| && |"peer-agent"| != |"external"|;
  }

  /** The plain fields, as an object must hold them to be read as this envelope. */
  predicate CarriesPlain(m: map<string, Json>, e: Envelope)
    requires m.Keys == ENVELOPE_FIELDS
  {
    && m["schema_version"] == Num(1) && m["event_id"] == Str(e.eventId) && m["principal"] == Str(e.principal)
    && m["audience"] == Str(e.audience) && m["payload_digest"] == Optional(e.payloadDigest)
    && m["payload_ref"] == Optional(e.payloadRef) && m["ts"] == Str(e.ts) && m["expiry"] == Str(e.expiry)
  }

  /** The structured ones. */
  predicate CarriesParts(b: Base64, m: map<string, Json>, e: Envelope)
    requires m.Keys == ENVELOPE_FIELDS
  {
    && m["sender"] == SenderWire(e.sender) && m["payload"] == Obj(e.payload)
    && m["provenance"] == HopsJson(e.provenance) && m["chain_signatures"] == SignaturesWire(b, e.chainSignatures)
    && m["sender_class"] == ClassJson(e.senderClass)
  }

  predicate Carries(b: Base64, m: map<string, Json>, e: Envelope) {
    m.Keys == ENVELOPE_FIELDS && CarriesPlain(m, e) && CarriesParts(b, m, e)
  }

  lemma EnvelopeFields(b: Base64, e: Envelope)
    ensures EnvelopeJson(b, e).members.Keys == ENVELOPE_FIELDS
  {
  }

  lemma EnvelopeCarriesPlain(b: Base64, e: Envelope)
    requires EnvelopeJson(b, e).members.Keys == ENVELOPE_FIELDS
    ensures CarriesPlain(EnvelopeJson(b, e).members, e)
  {
  }

  lemma EnvelopeCarriesParts(b: Base64, e: Envelope)
    requires EnvelopeJson(b, e).members.Keys == ENVELOPE_FIELDS
    ensures CarriesParts(b, EnvelopeJson(b, e).members, e)
  {
  }

  lemma EnvelopeCarries(b: Base64, e: Envelope)
    ensures Carries(b, EnvelopeJson(b, e).members, e)
  {
    EnvelopeFields(b, e);
    EnvelopeCarriesPlain(b, e);
    EnvelopeCarriesParts(b, e);
  }

  /** What the reader finds in the four structured fields. */
  ghost predicate PartsReadAs(b: Base64, m: map<string, Json>, e: Envelope)
    requires m.Keys == ENVELOPE_FIELDS
  {
    && SenderOf(m["sender"]) == Some(e.sender)
    && ListOf(m["provenance"], HopOf) == Some(e.provenance)
    && ListOf(m["chain_signatures"], (x: Json) => SignatureOf(b, x)) == Some(e.chainSignatures)
    && ClassOf(m["sender_class"]) == Some(e.senderClass)
  }

  lemma CarriedParts(b: Base64, m: map<string, Json>, e: Envelope)
    requires Inverts(b) && Carries(b, m, e)
    ensures PartsReadAs(b, m, e)
  {
    SenderReadsBack(e.sender);
    HopsReadBack(e.provenance);
    SignaturesReadBack(b, e.chainSignatures);
    ClassReadsBack(e.senderClass);
  }

  lemma GetAt(m: map<string, Json>)
    requires m.Keys == ENVELOPE_FIELDS
    ensures forall k, absent | k in ENVELOPE_FIELDS :: Get(m, k, absent) == m[k]
  {
  }

  lemma OptionalReadsBack(o: Option<string>)
    ensures OptionalOf(Optional(o)) == Some(o)
  {
  }

  lemma CarriedReadsBack(b: Base64, m: map<string, Json>, e: Envelope)
    requires Carries(b, m, e) && PartsReadAs(b, m, e)
    ensures EnvelopeOf(b, Obj(m)) == Some(e)
  {
    OptionalReadsBack(e.payloadDigest);
    OptionalReadsBack(e.payloadRef);
    assert FieldsOf(Obj(m), ENVELOPE_FIELDS) == Some(m);
  }

  /** Every envelope reads back from its own wire form. */
  lemma WireRoundTrip(b: Base64, e: Envelope)
    requires Inverts(b)
    ensures ReadWire(b, EnvelopeText(b, e)) == Some(e)
  {
    LoadsDumps(EnvelopeJson(b, e));
    EnvelopeCarries(b, e);
    CarriedParts(b, EnvelopeJson(b, e).members, e);
    CarriedReadsBack(b, EnvelopeJson(b, e).members, e);
  }

  // What else the reader takes, and what it refuses

  /** A field the schema does not know is refused. */
  lemma UnknownFieldIsRefused(b: Base64, m: map<string, Json>, k: string)
    requires k in m
    requires k !in {"schema_version", "event_id", "principal", "audience", "sender", "payload", "payload_digest",
                    "payload_ref", "provenance", "chain_signatures", "sender_class", "ts", "expiry"}
    ensures EnvelopeOf(b, Obj(m)).None?
  {
    assert k in m.Keys && k !in ENVELOPE_FIELDS;
  }

  /** The fields that may be left out. */
  const OPTIONAL_FIELDS := {"schema_version", "payload_digest", "payload_ref", "chain_signatures", "sender_class"}

  /** What the reader finds in each field, or in its place. */
  ghost predicate Finds(b: Base64, m: map<string, Json>, e: Envelope) {
    && TextOf(Get(m, "event_id", Null)) == Some(e.eventId) && TextOf(Get(m, "principal", Null)) == Some(e.principal)
    && TextOf(Get(m, "audience", Null)) == Some(e.audience) && SenderOf(Get(m, "sender", Null)) == Some(e.sender)
    && Get(m, "payload", Null) == Obj(e.payload)
    && OptionalOf(Get(m, "payload_digest", Null)) == Some(e.payloadDigest)
    && OptionalOf(Get(m, "payload_ref", Null)) == Some(e.payloadRef)
    && ListOf(Get(m, "provenance", Null), HopOf) == Some(e.provenance)
    && ListOf(Get(m, "chain_signatures", Arr([])), (x: Json) => SignatureOf(b, x)) == Some(e.chainSignatures)
    && ClassOf(Get(m, "sender_class", Null)) == Some(e.senderClass)
    && TextOf(Get(m, "ts", Null)) == Some(e.ts) && TextOf(Get(m, "expiry", Null)) == Some(e.expiry)
    && Get(m, "schema_version", Num(1)) == Num(1)
  }

  lemma FoundIsRead(b: Base64, m: map<string, Json>, e: Envelope)
    requires m.Keys <= ENVELOPE_FIELDS && Finds(b, m, e)
    ensures EnvelopeOf(b, Obj(m)) == Some(e)
  {
    assert FieldsOf(Obj(m), ENVELOPE_FIELDS) == Some(m);
  }

  lemma SameGets(m: map<string, Json>, l: map<string, Json>)
    requires m.Keys == ENVELOPE_FIELDS && l == m - OPTIONAL_FIELDS
    ensures l.Keys <= ENVELOPE_FIELDS && forall k | k in OPTIONAL_FIELDS :: k !in l
    ensures forall k | k in ENVELOPE_FIELDS - OPTIONAL_FIELDS :: Get(l, k, Null) == m[k]
    ensures ENVELOPE_FIELDS - OPTIONAL_FIELDS
            == {"event_id", "principal", "audience", "sender", "payload", "provenance", "ts", "expiry"}
  {
  }

  /** An envelope without them reads as one with no digest, no reference, no signature and no class. */
  lemma AbsentFieldsDefault(b: Base64, e: Envelope)
    requires Inverts(b)
    requires e.payloadDigest.None? && e.payloadRef.None? && e.chainSignatures == [] && e.senderClass.None?
    ensures var omitted := {"schema_version", "payload_digest", "payload_ref", "chain_signatures", "sender_class"};
            EnvelopeOf(b, Obj(EnvelopeJson(b, e).members - omitted)) == Some(e)
  {
    var m := EnvelopeJson(b, e).members;
    EnvelopeCarries(b, e);
    CarriedParts(b, m, e);
    SameGets(m, m - OPTIONAL_FIELDS);
    FoundIsRead(b, m - OPTIONAL_FIELDS, e);
  }
}

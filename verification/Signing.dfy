/**
 The signed statement: what bytes a chain signature covers, and why equal bytes
 mean an equal envelope.
 */
module Signing {
  import opened Prelude
  import opened Text
  import opened Json
  import opened Schemas

  const DSSE_PAYLOAD_TYPE := "application/vnd.in-toto+json"
  const STATEMENT_TYPE := "https://in-toto.io/Statement/v1"
  const PREDICATE_TYPE := "https://safe-agents.dev/provenance-chain/v3"

  // The statement

  /** The hash of the canonical inline payload; refused if it would not read back. */
  function InlinePayloadHex(w: World, payload: map<string, Json>): Option<string> {
    var text := Dumps(Obj(payload));
    if Loads(text) != Some(Obj(payload)) then None else Some(w.sha256(Utf8(text)))
  }

  /** Exactly `sha256:` and 64 lowercase hexadecimal digits. */
  predicate IsRawDigest(s: string) {
    |s| == 71 && s[..7] == "sha256:" && IsLowerHex(s[7..])
  }

  function DigestJson(hex: string): Json {
    Obj(map["sha256" := Str(hex)])
  }

  function PayloadSubject(hex: string): Json {
    Obj(map["name" := Str("payload"), "digest" := DigestJson(hex)])
  }

  function RawSubject(hex: string, uri: Option<string>): Json {
    var named := map["name" := Str("raw_original"), "digest" := DigestJson(hex)];
    Obj(if uri.None? then named else named["uri" := Str(uri.value)])
  }

  /** The inline payload always; the raw original as a second subject when one is named. */
  function Subjects(w: World, e: Envelope): Option<seq<Json>> {
    var hex :- InlinePayloadHex(w, e.payload);
    if e.payloadDigest.None? then
      if e.payloadRef.Some? then None else Some([PayloadSubject(hex)])
    else if !IsRawDigest(e.payloadDigest.value) then None
    else Some([PayloadSubject(hex), RawSubject(e.payloadDigest.value[7..], e.payloadRef)])
  }

  function Strings(ss: seq<string>): Json {
    Arr(seq(|ss|, i requires 0 <= i < |ss| => Str(ss[i])))
  }

  function HopJson(h: Hop): Json {
    Obj(map[
          "zone" := Str(h.zone),
          "source" := Str(h.source),
          "evidence" := Strings(h.evidence),
          "label" := Str(if h.hopLabel.Trusted? then "trusted" else "untrusted"),
          "ts" := Str(h.ts)])
  }

  function SenderJson(w: World, s: Sender): Json {
    Obj(map[
          "channel_type" := Str(s.channelType),
          "channel_identity" := Str(w.canonical(s.channelIdentity)),
          "evidence" := Strings(s.evidence)])
  }

  /** Every field outside the subjects, the hops and the two unsigned fields. */
  function BoundEnvelope(w: World, e: Envelope): Json {
    Obj(map[
          "schema_version" := Num(1),
          "event_id" := Str(e.eventId),
          "principal" := Str(e.principal),
          "audience" := Str(e.audience),
          "sender" := SenderJson(w, e.sender),
          "ts" := Str(e.ts),
          "expiry" := Str(e.expiry)])
  }

  function HopsJson(hops: seq<Hop>): Json {
    Arr(seq(|hops|, i requires 0 <= i < |hops| => HopJson(hops[i])))
  }

  function SignerJson(keyId: string, zone: string): Json {
    Obj(map["key_id" := Str(keyId), "zone" := Str(zone)])
  }

  function Predicate(w: World, e: Envelope, keyId: string, zone: string): Json {
    Obj(map[
          "hops" := HopsJson(e.provenance),
          "signer" := SignerJson(keyId, zone),
          "envelope" := BoundEnvelope(w, e)])
  }

  function Statement(w: World, e: Envelope, keyId: string, zone: string): Option<Json> {
    var subjects :- Subjects(w, e);
    Some(Obj(map[
               "_type" := Str(STATEMENT_TYPE),
               "predicateType" := Str(PREDICATE_TYPE),
               "subject" := Arr(subjects),
               "predicate" := Predicate(w, e, keyId, zone)]))
  }

  function BuildStatement(w: World, e: Envelope, keyId: string, zone: string): Option<seq<byte>> {
    var statement :- Statement(w, e, keyId, zone);
    Some(Utf8(Dumps(statement)))
  }

  /** The DSSE pre-authentication encoding. The type's length is counted in characters. */
  function Pae(payloadType: string, payload: seq<byte>): seq<byte> {
    Utf8("DSSEv1 ")
    + (Utf8(Decimal(|payloadType|)) + [32]
       + (Utf8(payloadType) + ([32] + (Utf8(Decimal(|payload|)) + [32] + payload))))
  }

  // Equal bytes, equal envelopes

  /** The encoding determines the payload type, of any script, and the payload. */
  lemma PaeInjective(t1: string, p1: seq<byte>, t2: string, p2: seq<byte>)
    requires Pae(t1, p1) == Pae(t2, p2)
    ensures t1 == t2 && p1 == p2
  {
    var d1, d2 := Utf8(Decimal(|p1|)) + [32] + p1, Utf8(Decimal(|p2|)) + [32] + p2;
    var b1, b2 := Utf8(t1) + ([32] + d1), Utf8(t2) + ([32] + d2);
    Utf8CountedPrefix("DSSEv1 ", "DSSEv1 ", Utf8(Decimal(|t1|)) + [32] + b1, Utf8(Decimal(|t2|)) + [32] + b2);
    DecimalField(|t1|, |t2|, b1, b2);
    Utf8CountedPrefix(t1, t2, [32] + d1, [32] + d2);
    assert d1 == ([32] + d1)[1..] == ([32] + d2)[1..] == d2;
    DecimalField(|p1|, |p2|, p1, p2);
  }

  lemma DecimalField(m: nat, n: nat, x: seq<byte>, y: seq<byte>)
    requires Utf8(Decimal(m)) + [32] + x == Utf8(Decimal(n)) + [32] + y
    ensures m == n && x == y
  {
    DigitsUpToSpace(Decimal(m), Decimal(n), x, y);
    DecimalRoundTrip(m);
    DecimalRoundTrip(n);
  }

  /** The part of an envelope a signature is about: everything but the two unsigned fields. */
  function SignedView(w: World, e: Envelope): Envelope {
    e.(sender := e.sender.(channelIdentity := w.canonical(e.sender.channelIdentity)),
       chainSignatures := [],
       senderClass := None)
  }

  lemma StringsInjective(a: seq<string>, b: seq<string>)
    requires Strings(a) == Strings(b)
    ensures a == b
  {
    assert |a| == |Strings(a).items| == |Strings(b).items| == |b|;
    forall i | 0 <= i < |a| ensures a[i] == b[i] {
      assert Strings(a).items[i] == Str(a[i]) && Strings(b).items[i] == Str(b[i]);
    }
  }

  lemma HopJsonInjective(a: Hop, b: Hop)
    requires HopJson(a) == HopJson(b)
    ensures a == b
  {
    var x, y := HopJson(a).members, HopJson(b).members;
    assert x["zone"] == Str(a.zone) && y["zone"] == Str(b.zone);
    assert x["source"] == Str(a.source) && y["source"] == Str(b.source);
    assert x["evidence"] == Strings(a.evidence) && y["evidence"] == Strings(b.evidence);
    assert x["ts"] == Str(a.ts) && y["ts"] == Str(b.ts);
    assert x["label"] == y["label"];
    assert |"trusted"| != |"untrusted"|;
    StringsInjective(a.evidence, b.evidence);
  }

  lemma HopsJsonInjective(a: seq<Hop>, b: seq<Hop>)
    requires HopsJson(a) == HopsJson(b)
    ensures a == b
  {
    assert |a| == |HopsJson(a).items| == |HopsJson(b).items| == |b|;
    forall i | 0 <= i < |a| ensures a[i] == b[i] {
      assert HopsJson(a).items[i] == HopJson(a[i]) && HopsJson(b).items[i] == HopJson(b[i]);
      HopJsonInjective(a[i], b[i]);
    }
  }

  lemma SenderJsonInjective(w: World, a: Sender, b: Sender)
    requires SenderJson(w, a) == SenderJson(w, b)
    ensures a.channelType == b.channelType && a.evidence == b.evidence
    ensures w.canonical(a.channelIdentity) == w.canonical(b.channelIdentity)
  {
    var x, y := SenderJson(w, a).members, SenderJson(w, b).members;
    assert x["channel_type"] == Str(a.channelType) && y["channel_type"] == Str(b.channelType);
    assert x["channel_identity"] == Str(w.canonical(a.channelIdentity));
    assert y["channel_identity"] == Str(w.canonical(b.channelIdentity));
    assert x["evidence"] == Strings(a.evidence) && y["evidence"] == Strings(b.evidence);
    StringsInjective(a.evidence, b.evidence);
  }

  lemma BoundFields(w: World, e: Envelope)
    ensures BoundEnvelope(w, e).Obj?
    ensures var m := BoundEnvelope(w, e).members;
            && "event_id" in m && m["event_id"] == Str(e.eventId)
            && "principal" in m && m["principal"] == Str(e.principal)
            && "audience" in m && m["audience"] == Str(e.audience)
            && "sender" in m && m["sender"] == SenderJson(w, e.sender)
            && "ts" in m && m["ts"] == Str(e.ts)
            && "expiry" in m && m["expiry"] == Str(e.expiry)
  {
  }

  lemma BoundEnvelopeInjective(w: World, a: Envelope, b: Envelope)
    requires BoundEnvelope(w, a) == BoundEnvelope(w, b)
    ensures a.eventId == b.eventId && a.principal == b.principal && a.audience == b.audience
    ensures a.ts == b.ts && a.expiry == b.expiry
    ensures SenderJson(w, a.sender) == SenderJson(w, b.sender)
  {
    BoundFields(w, a);
    BoundFields(w, b);
  }

  lemma RawSubjectInjective(h1: string, u1: Option<string>, h2: string, u2: Option<string>)
    requires RawSubject(h1, u1) == RawSubject(h2, u2)
    ensures h1 == h2 && u1 == u2
  {
    var x, y := RawSubject(h1, u1).members, RawSubject(h2, u2).members;
    assert x["digest"] == DigestJson(h1) && y["digest"] == DigestJson(h2);
    assert DigestJson(h1).members["sha256"] == DigestJson(h2).members["sha256"];
    assert "uri" in x <==> u1.Some?;
    assert "uri" in y <==> u2.Some?;
    if u1.Some? {
      assert x["uri"] == Str(u1.value) && y["uri"] == Str(u2.value);
    }
  }

  lemma PayloadSubjectInjective(h1: string, h2: string)
    requires PayloadSubject(h1) == PayloadSubject(h2)
    ensures h1 == h2
  {
    assert PayloadSubject(h1).members["digest"] == PayloadSubject(h2).members["digest"];
    assert DigestJson(h1).members["sha256"] == DigestJson(h2).members["sha256"];
  }

  /** The refusal in `InlinePayloadHex` is never taken for a JSON value. */
  lemma InlinePayloadDefined(w: World, payload: map<string, Json>)
    ensures InlinePayloadHex(w, payload) == Some(w.sha256(Utf8(Dumps(Obj(payload)))))
  {
    LoadsDumps(Obj(payload));
  }

  /** The digest the statement carries for an envelope's payload. */
  function PayloadHash(w: World, e: Envelope): string {
    w.sha256(Utf8(Dumps(Obj(e.payload))))
  }

  /** The hash does not confuse the payloads of these two envelopes. */
  predicate PayloadsDistinguished(w: World, a: Envelope, b: Envelope) {
    PayloadHash(w, a) == PayloadHash(w, b) ==> Utf8(Dumps(Obj(a.payload))) == Utf8(Dumps(Obj(b.payload)))
  }

  function RawSubjects(e: Envelope): seq<Json>
    requires e.payloadDigest.Some? ==> IsRawDigest(e.payloadDigest.value)
  {
    if e.payloadDigest.None? then [] else [RawSubject(e.payloadDigest.value[7..], e.payloadRef)]
  }

  lemma SubjectsShape(w: World, e: Envelope)
    requires Subjects(w, e).Some?
    ensures if e.payloadDigest.None? then e.payloadRef.None? else IsRawDigest(e.payloadDigest.value)
    ensures Subjects(w, e).value == [PayloadSubject(PayloadHash(w, e))] + RawSubjects(e)
  {
    InlinePayloadDefined(w, e.payload);
  }

  lemma RawSubjectsInjective(a: Envelope, b: Envelope)
    requires if a.payloadDigest.None? then a.payloadRef.None? else IsRawDigest(a.payloadDigest.value)
    requires if b.payloadDigest.None? then b.payloadRef.None? else IsRawDigest(b.payloadDigest.value)
    requires RawSubjects(a) == RawSubjects(b)
    ensures a.payloadDigest == b.payloadDigest && a.payloadRef == b.payloadRef
  {
    assert |RawSubjects(a)| == |RawSubjects(b)|;
    if a.payloadDigest.Some? {
      var x, y := a.payloadDigest.value, b.payloadDigest.value;
      assert RawSubjects(a)[0] == RawSubjects(b)[0];
      RawSubjectInjective(x[7..], a.payloadRef, y[7..], b.payloadRef);
      assert x == x[..7] + x[7..] && y == y[..7] + y[7..];
    }
  }

  lemma SplitFirst(x: Json, xs: seq<Json>, y: Json, ys: seq<Json>)
    requires [x] + xs == [y] + ys
    ensures x == y && xs == ys
  {
    assert x == ([x] + xs)[0] == ([y] + ys)[0] == y;
    assert xs == ([x] + xs)[1..] == ([y] + ys)[1..] == ys;
  }

  /** Equal subjects name one raw original, and payloads with one digest. */
  lemma SubjectsFix(w: World, a: Envelope, b: Envelope)
    requires Subjects(w, a).Some? && Subjects(w, a) == Subjects(w, b)
    ensures PayloadHash(w, a) == PayloadHash(w, b)
    ensures a.payloadDigest == b.payloadDigest && a.payloadRef == b.payloadRef
  {
    SubjectsShape(w, a);
    SubjectsShape(w, b);
    SplitFirst(PayloadSubject(PayloadHash(w, a)), RawSubjects(a), PayloadSubject(PayloadHash(w, b)), RawSubjects(b));
    PayloadSubjectInjective(PayloadHash(w, a), PayloadHash(w, b));
    RawSubjectsInjective(a, b);
  }

  lemma StatementFields(w: World, e: Envelope, keyId: string, zone: string)
    requires Statement(w, e, keyId, zone).Some?
    ensures Subjects(w, e).Some?
    ensures Statement(w, e, keyId, zone).value.Obj?
    ensures var m := Statement(w, e, keyId, zone).value.members;
            && "subject" in m && m["subject"] == Arr(Subjects(w, e).value)
            && "predicate" in m && m["predicate"] == Predicate(w, e, keyId, zone)
  {
  }

  lemma PredicateFields(w: World, e: Envelope, keyId: string, zone: string)
    ensures Predicate(w, e, keyId, zone).Obj?
    ensures var m := Predicate(w, e, keyId, zone).members;
            && "hops" in m && m["hops"] == HopsJson(e.provenance)
            && "signer" in m && m["signer"] == SignerJson(keyId, zone)
            && "envelope" in m && m["envelope"] == BoundEnvelope(w, e)
  {
  }

  lemma SignerJsonInjective(k1: string, z1: string, k2: string, z2: string)
    requires SignerJson(k1, z1) == SignerJson(k2, z2)
    ensures k1 == k2 && z1 == z2
  {
    var x, y := SignerJson(k1, z1).members, SignerJson(k2, z2).members;
    assert x["key_id"] == y["key_id"] && x["zone"] == y["zone"];
  }

  /** The signed view without the payload, which the statement carries as a digest only. */
  function ClearView(w: World, e: Envelope): Envelope {
    SignedView(w, e).(payload := map[])
  }

  lemma StatementFixes(w: World, a: Envelope, k1: string, z1: string, b: Envelope, k2: string, z2: string)
    requires Statement(w, a, k1, z1).Some? && Statement(w, a, k1, z1) == Statement(w, b, k2, z2)
    ensures k1 == k2 && z1 == z2 && ClearView(w, a) == ClearView(w, b) && PayloadHash(w, a) == PayloadHash(w, b)
  {
    StatementFields(w, a, k1, z1);
    StatementFields(w, b, k2, z2);
    SubjectsFix(w, a, b);
    PredicateFields(w, a, k1, z1);
    PredicateFields(w, b, k2, z2);
    SignerJsonInjective(k1, z1, k2, z2);
    HopsJsonInjective(a.provenance, b.provenance);
    BoundEnvelopeInjective(w, a, b);
    SenderJsonInjective(w, a.sender, b.sender);
  }

  /** With nothing asked of the hash, equal bytes fix everything but the payload, and the payload's digest. */
  lemma BytesFixClearView(w: World, a: Envelope, k1: string, z1: string, b: Envelope, k2: string, z2: string)
    requires BuildStatement(w, a, k1, z1).Some? && BuildStatement(w, a, k1, z1) == BuildStatement(w, b, k2, z2)
    ensures k1 == k2 && z1 == z2 && ClearView(w, a) == ClearView(w, b) && PayloadHash(w, a) == PayloadHash(w, b)
  {
    StatementFromBytes(w, a, k1, z1, b, k2, z2);
    StatementFixes(w, a, k1, z1, b, k2, z2);
  }

  lemma ViewFromParts(w: World, a: Envelope, b: Envelope)
    requires ClearView(w, a) == ClearView(w, b) && PayloadHash(w, a) == PayloadHash(w, b)
    requires PayloadsDistinguished(w, a, b)
    ensures SignedView(w, a) == SignedView(w, b)
  {
    Utf8Injective(Dumps(Obj(a.payload)), Dumps(Obj(b.payload)));
    DumpsInjective(Obj(a.payload), Obj(b.payload));
    assert SignedView(w, a) == ClearView(w, a).(payload := a.payload);
    assert SignedView(w, b) == ClearView(w, b).(payload := b.payload);
  }

  /**
   Signed bytes fix the envelope. Two signing inputs have the same bytes exactly
   when they name the same signer and agree on every signed field: each hop in
   order, the payload, the presence and value of the raw original, and the rest.
   */
  lemma SignedBytesFixEnvelope(w: World, a: Envelope, k1: string, z1: string, b: Envelope, k2: string, z2: string)
    requires PayloadsDistinguished(w, a, b)
    requires BuildStatement(w, a, k1, z1).Some? && BuildStatement(w, b, k2, z2).Some?
    ensures Pae(DSSE_PAYLOAD_TYPE, BuildStatement(w, a, k1, z1).value)
            == Pae(DSSE_PAYLOAD_TYPE, BuildStatement(w, b, k2, z2).value)
            <==> k1 == k2 && z1 == z2 && SignedView(w, a) == SignedView(w, b)
  {
    SamePae(BuildStatement(w, a, k1, z1).value, BuildStatement(w, b, k2, z2).value);
    if BuildStatement(w, a, k1, z1) == BuildStatement(w, b, k2, z2) {
      BytesFixView(w, a, k1, z1, b, k2, z2);
    }
    if k1 == k2 && z1 == z2 && SignedView(w, a) == SignedView(w, b) {
      SameViewSameStatement(w, a, b, k1, z1);
    }
  }

  lemma SamePae(x: seq<byte>, y: seq<byte>)
    ensures Pae(DSSE_PAYLOAD_TYPE, x) == Pae(DSSE_PAYLOAD_TYPE, y) <==> x == y
  {
    if Pae(DSSE_PAYLOAD_TYPE, x) == Pae(DSSE_PAYLOAD_TYPE, y) {
      PaeInjective(DSSE_PAYLOAD_TYPE, x, DSSE_PAYLOAD_TYPE, y);
    }
  }

  lemma BytesFixView(w: World, a: Envelope, k1: string, z1: string, b: Envelope, k2: string, z2: string)
    requires PayloadsDistinguished(w, a, b)
    requires BuildStatement(w, a, k1, z1).Some? && BuildStatement(w, a, k1, z1) == BuildStatement(w, b, k2, z2)
    ensures k1 == k2 && z1 == z2 && SignedView(w, a) == SignedView(w, b)
  {
    BytesFixClearView(w, a, k1, z1, b, k2, z2);
    ViewFromParts(w, a, b);
  }

  lemma StatementFromBytes(w: World, a: Envelope, k1: string, z1: string, b: Envelope, k2: string, z2: string)
    requires BuildStatement(w, a, k1, z1).Some? && BuildStatement(w, a, k1, z1) == BuildStatement(w, b, k2, z2)
    ensures Statement(w, a, k1, z1).Some? && Statement(w, a, k1, z1) == Statement(w, b, k2, z2)
  {
    var s, t := Statement(w, a, k1, z1).value, Statement(w, b, k2, z2).value;
    Utf8Injective(Dumps(s), Dumps(t));
    DumpsInjective(s, t);
  }

  /** The unsigned fields and the spelling of the identity are invisible to the statement. */
  lemma SameViewSameStatement(w: World, a: Envelope, b: Envelope, keyId: string, zone: string)
    requires SignedView(w, a) == SignedView(w, b)
    ensures BuildStatement(w, a, keyId, zone) == BuildStatement(w, b, keyId, zone)
  {
    var s, t := SignedView(w, a), SignedView(w, b);
    assert a.eventId == s.eventId == t.eventId == b.eventId;
    assert a.principal == s.principal == b.principal && a.audience == s.audience == b.audience;
    assert a.ts == s.ts == b.ts && a.expiry == s.expiry == b.expiry;
    assert a.provenance == s.provenance == b.provenance;
    assert a.payload == s.payload == b.payload;
    assert a.payloadDigest == s.payloadDigest == b.payloadDigest && a.payloadRef == s.payloadRef == b.payloadRef;
    assert s.sender == t.sender;
    assert SenderJson(w, a.sender) == SenderJson(w, b.sender);
    assert BoundEnvelope(w, a) == BoundEnvelope(w, b);
    assert Subjects(w, a) == Subjects(w, b);
    assert Predicate(w, a, keyId, zone) == Predicate(w, b, keyId, zone);
  }

  lemma RawDigestIs(s: string)
    ensures IsRawDigest(s) <==> exists hex :: |hex| == 64 && IsLowerHex(hex) && s == "sha256:" + hex
  {
    if IsRawDigest(s) {
      assert s == "sha256:" + s[7..];
    }
    if hex :| |hex| == 64 && IsLowerHex(hex) && s == "sha256:" + hex {
      assert s[7..] == hex;
    }
  }

  /** An envelope can be stated exactly when its raw-original fields can be bound. */
  lemma StatementDefined(w: World, e: Envelope, keyId: string, zone: string)
    ensures BuildStatement(w, e, keyId, zone).Some?
            <==> if e.payloadDigest.None? then e.payloadRef.None?
                 else exists hex :: |hex| == 64 && IsLowerHex(hex) && e.payloadDigest.value == "sha256:" + hex
  {
    if e.payloadDigest.Some? {
      RawDigestIs(e.payloadDigest.value);
    }
    InlinePayloadDefined(w, e.payload);
  }
}

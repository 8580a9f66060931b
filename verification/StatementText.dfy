/** What a signed statement says, field by field, when its bytes are read back. */
module StatementText {
  import opened Prelude
  import opened Text
  import opened Json
  import opened JsonText
  import opened Schemas
  import opened Signing
  import opened Wire

  function KeysOf(j: Json): set<string> {
    if j.Obj? then j.members.Keys else {}
  }

  lemma StatementFrame(w: World, e: Envelope, keyId: string, zone: string)
    requires Statement(w, e, keyId, zone).Some?
    ensures var s := Statement(w, e, keyId, zone).value;
            && KeysOf(s) == {"_type", "predicateType", "subject", "predicate"}
            && Field(s, "_type") == Str("https://in-toto.io/Statement/v1")
            && Field(s, "predicateType") == Str("https://safe-agents.dev/provenance-chain/v3")
            && Field(s, "subject") == Arr(Subjects(w, e).value)
            && Field(s, "predicate") == Predicate(w, e, keyId, zone)
  {
  }

  lemma PredicateFrame(w: World, e: Envelope, keyId: string, zone: string)
    ensures var p := Predicate(w, e, keyId, zone);
            && KeysOf(p) == {"hops", "signer", "envelope"}
            && ListOf(Field(p, "hops"), HopOf) == Some(e.provenance)
            && Field(p, "signer") == SignerJson(keyId, zone) && Field(p, "envelope") == BoundEnvelope(w, e)
  {
    HopsReadBack(e.provenance);
  }

  lemma SignerSays(keyId: string, zone: string)
    ensures var s := SignerJson(keyId, zone);
            KeysOf(s) == {"key_id", "zone"} && Field(s, "key_id") == Str(keyId) && Field(s, "zone") == Str(zone)
  {
  }

  /** Every field bound in the clear has its own value; the identity is in canonical form. */
  lemma BoundSays(w: World, e: Envelope)
    ensures var v := BoundEnvelope(w, e);
            && KeysOf(v) == {"schema_version", "event_id", "principal", "audience", "sender", "ts", "expiry"}
            && Field(v, "schema_version") == Num(1) && Field(v, "event_id") == Str(e.eventId)
            && Field(v, "principal") == Str(e.principal) && Field(v, "audience") == Str(e.audience)
            && Field(v, "ts") == Str(e.ts) && Field(v, "expiry") == Str(e.expiry)
            && SenderOf(Field(v, "sender")) == Some(e.sender.(channelIdentity := w.canonical(e.sender.channelIdentity)))
  {
    SenderReadsBack(e.sender.(channelIdentity := w.canonical(e.sender.channelIdentity)));
  }

  lemma PayloadSubjectSays(hex: string)
    ensures var s := PayloadSubject(hex);
            && KeysOf(s) == {"name", "digest"} && Field(s, "name") == Str("payload")
            && Field(s, "digest") == Obj(map["sha256" := Str(hex)])
  {
  }

  lemma RawSubjectSays(hex: string, uri: Option<string>)
    ensures var s := RawSubject(hex, uri);
            && KeysOf(s) == {"name", "digest"} + (if uri.Some? then {"uri"} else {})
            && Field(s, "name") == Str("raw_original") && Field(s, "digest") == Obj(map["sha256" := Str(hex)])
            && Field(s, "uri") == Optional(uri)
  {
  }

  /** The payload's digest always, under its name; the raw original's second, with its reference if it has one. */
  lemma SubjectsSay(w: World, e: Envelope)
    requires Subjects(w, e).Some?
    ensures var s := Subjects(w, e).value;
            && |s| == (if e.payloadDigest.Some? then 2 else 1)
            && Field(s[0], "name") == Str("payload") && KeysOf(s[0]) == {"name", "digest"}
            && Field(s[0], "digest") == Obj(map["sha256" := Str(w.sha256(Utf8(Dumps(Obj(e.payload)))))])
            && (e.payloadDigest.Some? ==>
                  exists hex :: e.payloadDigest.value == "sha256:" + hex && s[1] == RawSubject(hex, e.payloadRef))
  {
    SubjectsShape(w, e);
    PayloadSubjectSays(PayloadHash(w, e));
    if e.payloadDigest.Some? {
      var d := e.payloadDigest.value;
      assert d == d[..7] + d[7..];
    }
  }

  /**
   The signed bytes are the UTF-8 of a text that reads as the statement of
   in-toto, and what it states about signer, hops, subjects and bound fields is
   what the envelope and the signer are.
   */
  lemma StatementSays(w: World, e: Envelope, keyId: string, zone: string)
    requires BuildStatement(w, e, keyId, zone).Some?
    ensures Statement(w, e, keyId, zone).Some?
    ensures var s := Statement(w, e, keyId, zone).value;
            var p := Field(s, "predicate");
            && BuildStatement(w, e, keyId, zone).value == Utf8(Dumps(s)) && Loads(Dumps(s)) == Some(s)
            && KeysOf(s) == {"_type", "predicateType", "subject", "predicate"}
            && Field(s, "_type") == Str("https://in-toto.io/Statement/v1")
            && Field(s, "predicateType") == Str("https://safe-agents.dev/provenance-chain/v3")
            && Field(s, "subject") == Arr(Subjects(w, e).value)
            && KeysOf(p) == {"hops", "signer", "envelope"}
            && ListOf(Field(p, "hops"), HopOf) == Some(e.provenance)
            && Field(Field(p, "signer"), "key_id") == Str(keyId) && Field(Field(p, "signer"), "zone") == Str(zone)
            && Field(p, "envelope") == BoundEnvelope(w, e)
  {
    LoadsDumps(Statement(w, e, keyId, zone).value);
    StatementFrame(w, e, keyId, zone);
    PredicateFrame(w, e, keyId, zone);
    SignerSays(keyId, zone);
  }
}

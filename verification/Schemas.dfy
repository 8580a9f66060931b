/** The envelope that travels between zones, and the outside world it is judged in. */
module Schemas {
  import opened Prelude
  import opened Text
  import opened Json

  datatype Label = Trusted | Untrusted

  datatype SenderClass = Owner | PeerAgent | External

  datatype Sender = Sender(channelType: string, channelIdentity: string, evidence: seq<string>)

  /** One append-only entry of the provenance chain. */
  datatype Hop = Hop(zone: string, source: string, evidence: seq<string>, hopLabel: Label, ts: string)

  type Covers = n: int | 1 <= n witness 1

  datatype ChainSignature = ChainSignature(keyId: string, zone: string, covers: Covers, payloadType: string,
                                           sig: seq<byte>)

  /** The C1 dedupe key: the sender's channel identity and the event id. */
  type DedupeKey = (string, string)

  datatype Envelope = Envelope(
    eventId: string,
    principal: string,
    audience: string,
    sender: Sender,
    payload: map<string, Json>,
    payloadDigest: Option<string>,
    payloadRef: Option<string>,
    provenance: seq<Hop>,
    chainSignatures: seq<ChainSignature>,
    senderClass: Option<SenderClass>,
    ts: string,
    expiry: string)
  {
    function DedupeKey(): DedupeKey {
      (sender.channelIdentity, eventId)
    }

    /** Derived, never stored: some hop is labelled untrusted. */
    predicate Tainted() {
      exists i | 0 <= i < |provenance| :: provenance[i].hopLabel == Untrusted
    }

    /** The only growth path of the chain: one entry appended, the class overwritten if given. */
    function Stamped(entry: Hop, cls: Option<SenderClass>): Envelope {
      this.(provenance := provenance + [entry], senderClass := if cls.Some? then cls else senderClass)
    }
  }

  /**
   What the airlock takes from outside: the identity canonicalizer, the hash, the
   signature scheme, the clock's text form and the envelope codec. Theorems that
   depend on a property of one of these name it as a hypothesis.
   */
  datatype World = World(
    canonical: string -> string,
    sha256: seq<byte> -> string,
    sign: (seq<byte>, seq<byte>) -> seq<byte>,
    verifies: (seq<byte>, seq<byte>, seq<byte>) -> bool,
    instant: string -> int,
    iso: int -> string,
    encode: Envelope -> string,
    decode: string -> Option<Envelope>)

  ghost predicate CanonicalIdempotent(w: World) {
    forall s :: w.canonical(w.canonical(s)) == w.canonical(s)
  }

  const MAX_ENVELOPE_BYTES: nat := 196608

  /** `EventTrigger.to_wire`: the text, if it is within the ceiling and reads back unchanged. */
  function ToWire(w: World, e: Envelope): (r: Option<string>)
    ensures r.Some? ==> w.decode(r.value) == Some(e) && |r.value| <= MAX_ENVELOPE_BYTES
  {
    var body := w.encode(e);
    if |body| > MAX_ENVELOPE_BYTES || w.decode(body) != Some(e) then None else Some(body)
  }

  /** Receiver configuration: microseconds, from zero to one day. */
  type Skew = n: int | 0 <= n <= 86_400_000_000

  /** Expired once the instant judged, `now + skew`, is past the stamped expiry. */
  predicate IsExpired(w: World, e: Envelope, now: int, skew: Skew) {
    now + skew > w.instant(e.expiry)
  }

  function DigestIdentity(w: World, identity: string): string {
    "sha256:" + w.sha256(Utf8(identity))
  }

  datatype DropReason =
    | AuthenticityFailed
    | Malformed
    | AudienceMismatch
    | ChainSignatureMissing
    | ChainSignatureInvalid
    | ChainSignerUnknown
    | Expired
    | Unmapped
    | PrincipalMismatch
    | ScreenRefused
    | NotEvaluated

  /** The machine codes a record may carry; a screen supplies its own. */
  datatype Detail =
    | SignerZoneMismatch
    | SignerIdentityOutOfScope
    | NotForwardable
    | SenderIdentityMismatch
    | KeySource
    | DedupeStore
    | ScreenError
    | ScreenCode(code: string)
}

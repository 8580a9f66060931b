/** The outbound seam, and what survives any number of zone crossings. */
module Publish {
  import opened Prelude
  import opened Schemas
  import opened Signing
  import opened TrustMap
  import Json

  /** A broker's signing identity; `key` names the key pair. */
  datatype ChainSigner = ChainSigner(keyId: string, zone: string, key: seq<byte>)

  /** What the sending broker is given besides its turn. */
  datatype Outbound = Outbound(
    zone: string,
    agentIdentity: string,
    channelType: string,
    eventId: string,
    principal: string,
    audience: string,
    payload: map<string, Json.Json>,
    ts: string,
    expiry: string,
    channelIdentity: Option<string>,
    evidence: seq<string>,
    payloadDigest: Option<string>,
    payloadRef: Option<string>)

  function Carried(chain: seq<Hop>): set<string> {
    set h | h in chain :: h.source
  }

  /** One untrusted origin hop for each ingested source the chain does not carry yet. */
  function OriginHops(o: Outbound, sources: seq<string>, carried: set<string>): seq<Hop> {
    if sources == [] then []
    else (if sources[0] in carried then [] else [Hop(o.zone, sources[0], [], Untrusted, o.ts)])
         + OriginHops(o, sources[1..], carried)
  }

  /** The sending zone's own hop, labelled by the turn alone. */
  function OwnHop(o: Outbound, tainted: bool): Hop {
    Hop(o.zone, "peer:" + o.agentIdentity, o.evidence, if tainted then Untrusted else Trusted, o.ts)
  }

  function OutboundChain(o: Outbound, turn: Turn, inbound: Option<Envelope>): seq<Hop> {
    var upstream := if inbound.Some? then inbound.value.provenance else [];
    upstream + OriginHops(o, turn.sources, Carried(upstream)) + [OwnHop(o, turn.tainted)]
  }

  function Unsigned(o: Outbound, turn: Turn, inbound: Option<Envelope>): Envelope {
    Envelope(
      o.eventId, o.principal, o.audience,
      Sender(
        o.channelType,
        if o.channelIdentity.Some? && o.channelIdentity.value != [] then o.channelIdentity.value else o.agentIdentity,
        o.evidence),
      o.payload, o.payloadDigest, o.payloadRef,
      OutboundChain(o, turn, inbound), [], None, o.ts, o.expiry)
  }

  /** `sign_envelope`: refused unless the envelope can travel and can be stated. */
  function SignEnvelope(w: World, signer: ChainSigner, e: Envelope): Option<ChainSignature>
    requires e.provenance != []
  {
    var _ :- ToWire(w, e);
    var statement :- BuildStatement(w, e, signer.keyId, signer.zone);
    Some(ChainSignature(signer.keyId, signer.zone, |e.provenance|, DSSE_PAYLOAD_TYPE,
                        w.sign(signer.key, Pae(DSSE_PAYLOAD_TYPE, statement))))
  }

  /** `stamp_outbound`: the envelope handed to the transport, or a refusal. */
  function StampOutbound(w: World, o: Outbound, turn: Turn, inbound: Option<Envelope>,
                         signer: Option<ChainSigner>): Option<Envelope> {
    var e := Unsigned(o, turn, inbound);
    if signer.None? then
      var _ :- ToWire(w, e);
      Some(e)
    else
      var signature :- SignEnvelope(w, signer.value, e);
      var signed := e.(chainSignatures := [signature]);
      var _ :- ToWire(w, signed);
      Some(signed)
  }

  /** Upstream entries are an untouched prefix, the turn's verdict is the last entry, every source is named. */
  lemma OutboundChainShape(o: Outbound, turn: Turn, inbound: Option<Envelope>)
    ensures var chain := OutboundChain(o, turn, inbound);
            && (inbound.Some? ==> inbound.value.provenance <= chain)
            && chain != [] && chain[|chain| - 1] == OwnHop(o, turn.tainted)
            && (forall s | s in turn.sources :: s in Carried(chain))
  {
    var upstream := if inbound.Some? then inbound.value.provenance else [];
    var chain := OutboundChain(o, turn, inbound);
    forall s | s in turn.sources ensures s in Carried(chain) {
      if s in Carried(upstream) {
        var h :| h in upstream && h.source == s;
        assert h in chain;
      } else {
        OriginHopsName(o, turn.sources, Carried(upstream), s);
        var h := Hop(o.zone, s, [], Untrusted, o.ts);
        assert h in chain;
      }
    }
  }

  lemma {:induction false} OriginHopsName(o: Outbound, sources: seq<string>, carried: set<string>, s: string)
    requires s in sources && s !in carried
    ensures Hop(o.zone, s, [], Untrusted, o.ts) in OriginHops(o, sources, carried)
  {
    if sources[0] != s {
      assert s in sources[1..];
      OriginHopsName(o, sources[1..], carried, s);
    }
  }

  // What is sent

  function NotCarried(sources: seq<string>, carried: set<string>): seq<string> {
    if sources == [] then []
    else (if sources[0] in carried then [] else [sources[0]]) + NotCarried(sources[1..], carried)
  }

  lemma {:induction false} OriginHopsAre(o: Outbound, sources: seq<string>, carried: set<string>)
    ensures var hops, unnamed := OriginHops(o, sources, carried), NotCarried(sources, carried);
            |hops| == |unnamed| && forall i | 0 <= i < |hops| :: hops[i] == Hop(o.zone, unnamed[i], [], Untrusted, o.ts)
  {
    if sources != [] {
      OriginHopsAre(o, sources[1..], carried);
    }
  }

  /** The chain in full: upstream, an untrusted hop for each source not carried, and this agent's own last. */
  lemma ChainIs(o: Outbound, turn: Turn, inbound: Option<Envelope>)
    ensures var upstream := if inbound.Some? then inbound.value.provenance else [];
            var unnamed := NotCarried(turn.sources, set h | h in upstream :: h.source);
            var chain := OutboundChain(o, turn, inbound);
            && |chain| == |upstream| + |unnamed| + 1 && chain[..|upstream|] == upstream
            && (forall i | 0 <= i < |unnamed| ::
                  chain[|upstream| + i] == Hop(o.zone, unnamed[i], [], Untrusted, o.ts))
            && chain[|chain| - 1]
               == Hop(o.zone, "peer:" + o.agentIdentity, o.evidence, if turn.tainted then Untrusted else Trusted, o.ts)
  {
    var upstream := if inbound.Some? then inbound.value.provenance else [];
    OriginHopsAre(o, turn.sources, Carried(upstream));
    assert OutboundChain(o, turn, inbound)[..|upstream|] == upstream;
  }

  /** The fields of an envelope beside its chain and its signatures are those asked for. */
  predicate CarriesRequest(e: Envelope, o: Outbound) {
    && e.eventId == o.eventId && e.principal == o.principal && e.audience == o.audience
    && e.payload == o.payload && e.payloadDigest == o.payloadDigest && e.payloadRef == o.payloadRef
    && e.ts == o.ts && e.expiry == o.expiry
    && e.sender.channelType == o.channelType && e.sender.evidence == o.evidence
  }

  /** The identity claimed: the one asked for, or the agent's where none is. */
  predicate ClaimsIdentity(identity: string, o: Outbound) {
    && (o.channelIdentity == None || o.channelIdentity == Some("") ==> identity == o.agentIdentity)
    && (o.channelIdentity.Some? && o.channelIdentity.value != "" ==> identity == o.channelIdentity.value)
  }

  lemma SentChain(w: World, o: Outbound, turn: Turn, inbound: Option<Envelope>, signer: Option<ChainSigner>,
                  e: Envelope)
    requires StampOutbound(w, o, turn, inbound, signer) == Some(e)
    ensures e.provenance == OutboundChain(o, turn, inbound)
    ensures e == Unsigned(o, turn, inbound).(chainSignatures := e.chainSignatures)
    ensures |e.chainSignatures| == if signer.None? then 0 else 1
  {
  }

  /**
   What leaves the broker, signed or not, is what was asked for: every field, the
   chain built for it, no class, and a signature iff there is a signer, which then
   covers the whole chain under that signer's name.
   */
  lemma SentIsRequested(w: World, o: Outbound, turn: Turn, inbound: Option<Envelope>, signer: Option<ChainSigner>,
                        e: Envelope)
    requires StampOutbound(w, o, turn, inbound, signer) == Some(e)
    ensures CarriesRequest(e, o) && ClaimsIdentity(e.sender.channelIdentity, o) && e.senderClass == None
    ensures e.provenance == OutboundChain(o, turn, inbound)
    ensures signer.None? ==> e.chainSignatures == []
    ensures signer.Some? ==>
              && |e.chainSignatures| == 1
              && var s := e.chainSignatures[0];
              && s.keyId == signer.value.keyId && s.zone == signer.value.zone && s.covers == |e.provenance|
              && s.payloadType == "application/vnd.in-toto+json"
  {
    SentChain(w, o, turn, inbound, signer, e);
    if signer.Some? {
      StampedIsSigned(w, o, turn, inbound, signer.value, e, Unsigned(o, turn, inbound));
      SignatureNames(w, signer.value, Unsigned(o, turn, inbound));
    }
  }

  /** What `stamp_outbound` with a signer returns, for whatever it was asked to send. */
  lemma StampedIsSigned(w: World, o: Outbound, turn: Turn, inbound: Option<Envelope>, signer: ChainSigner, e: Envelope,
                        bare: Envelope)
    requires bare == Unsigned(o, turn, inbound) && bare.provenance != []
    requires StampOutbound(w, o, turn, inbound, Some(signer)) == Some(e)
    ensures SignEnvelope(w, signer, bare).Some?
    ensures e == bare.(chainSignatures := [SignEnvelope(w, signer, bare).value])
  {
  }

  lemma SignatureNames(w: World, signer: ChainSigner, e: Envelope)
    requires e.provenance != [] && SignEnvelope(w, signer, e).Some?
    ensures var s := SignEnvelope(w, signer, e).value;
            && s.keyId == signer.keyId && s.zone == signer.zone && s.covers == |e.provenance|
            && s.payloadType == "application/vnd.in-toto+json"
  {
  }

  /** Without a signer a message is sent iff it has a wire form. */
  lemma UnsignedSentIff(w: World, o: Outbound, turn: Turn, inbound: Option<Envelope>)
    ensures StampOutbound(w, o, turn, inbound, None).Some? <==> ToWire(w, Unsigned(o, turn, inbound)).Some?
  {
  }

  lemma SignsIff(w: World, signer: ChainSigner, e: Envelope)
    requires e.provenance != []
    ensures SignEnvelope(w, signer, e).Some?
            <==> ToWire(w, e).Some? && BuildStatement(w, e, signer.keyId, signer.zone).Some?
  {
  }

  /** With one it is sent iff it has a wire form both unsigned and signed, and can be stated. */
  lemma SignedSentIff(w: World, o: Outbound, turn: Turn, inbound: Option<Envelope>, signer: ChainSigner)
    ensures var e := Unsigned(o, turn, inbound);
            StampOutbound(w, o, turn, inbound, Some(signer)).Some? <==>
            && ToWire(w, e).Some? && BuildStatement(w, e, signer.keyId, signer.zone).Some?
            && ToWire(w, e.(chainSignatures := [SignEnvelope(w, signer, e).value])).Some?
  {
    SignsIff(w, signer, Unsigned(o, turn, inbound));
  }

  // Zones

  /** Where a journey stands: a zone's turn, and the envelope that began it if one did. */
  datatype Node = Node(turn: Turn, inbound: Option<Envelope>)

  /** One crossing: what the sender publishes, whether it relays, and how the receiver takes it in. */
  datatype Leg = Leg(
    outbound: Outbound,
    relays: bool,
    resolution: Resolution,
    receiverZone: string,
    receiverSource: string,
    receiverEvidence: seq<string>,
    receiverTs: string,
    receiverMap: InputTrustMap,
    alsoReads: seq<string>)

  /** Content the receiving turn reads besides the chain, each under the receiver's own map. */
  function Read(t: Turn, sources: seq<string>, receiverMap: InputTrustMap): Turn
    decreases |sources|
  {
    if sources == [] then t
    else Read(if receiverMap(sources[0]) then t else Marked(t, sources[0]), sources[1..], receiverMap)
  }

  function Arrived(node: Node, leg: Leg): Envelope {
    StampInbound(
      Unsigned(leg.outbound, node.turn, if leg.relays then node.inbound else None),
      leg.resolution, leg.receiverZone, leg.receiverSource, leg.receiverEvidence, leg.receiverTs)
  }

  function Cross(node: Node, leg: Leg): Node {
    var accepted := Arrived(node, leg);
    Node(Read(Ingest(FRESH, accepted.provenance, leg.receiverMap), leg.alsoReads, leg.receiverMap), Some(accepted))
  }

  function Travel(node: Node, legs: seq<Leg>): Node
    decreases |legs|
  {
    if legs == [] then node else Travel(Cross(node, legs[0]), legs[1..])
  }

  lemma {:induction false} ReadExact(t: Turn, sources: seq<string>, receiverMap: InputTrustMap)
    ensures var r := Read(t, sources, receiverMap);
            && (r.tainted <==> t.tainted || exists i | 0 <= i < |sources| :: !receiverMap(sources[i]))
            && t.sources <= r.sources
    decreases |sources|
  {
    if sources != [] {
      var u := if receiverMap(sources[0]) then t else Marked(t, sources[0]);
      ReadExact(u, sources[1..], receiverMap);
      assert forall i | 0 <= i < |sources[1..]| :: sources[1..][i] == sources[i + 1];
      assert forall i | 1 <= i < |sources| :: sources[i] == sources[1..][i - 1];
    }
  }

  /** After a crossing the turn is clean iff the whole chain and everything else read is. */
  lemma CleanIff(node: Node, leg: Leg)
    ensures var next := Cross(node, leg);
            var chain := next.inbound.value.provenance;
            !next.turn.tainted <==>
            && (forall i | 0 <= i < |chain| :: chain[i].hopLabel.Trusted? && leg.receiverMap(chain[i].source))
            && (forall i | 0 <= i < |leg.alsoReads| :: leg.receiverMap(leg.alsoReads[i]))
  {
    var chain := Arrived(node, leg).provenance;
    IngestExact(FRESH, chain, leg.receiverMap);
    ReadExact(Ingest(FRESH, chain, leg.receiverMap), leg.alsoReads, leg.receiverMap);
    if !Cross(node, leg).turn.tainted {
      forall i | 0 <= i < |chain| ensures chain[i].hopLabel.Trusted? && leg.receiverMap(chain[i].source) {
        assert Clean(chain[i], leg.receiverMap);
      }
    }
  }

  lemma CrossingKeepsTaint(node: Node, leg: Leg)
    ensures node.turn.tainted ==> Cross(node, leg).turn.tainted
    ensures leg.relays && node.inbound.Some? && node.inbound.value.Tainted() ==> Cross(node, leg).turn.tainted
  {
    var inbound := if leg.relays then node.inbound else None;
    OutboundChainShape(leg.outbound, node.turn, inbound);
    CleanIff(node, leg);
    var chain := OutboundChain(leg.outbound, node.turn, inbound);
    var arrived := Arrived(node, leg).provenance;
    assert forall i | 0 <= i < |chain| :: arrived[i] == chain[i];
    if leg.relays && node.inbound.Some? && node.inbound.value.Tainted() {
      var upstream := node.inbound.value.provenance;
      var i :| 0 <= i < |upstream| && upstream[i].hopLabel == Untrusted;
      assert arrived[i] == chain[i] == upstream[i];
    }
  }

  /**
   Taint cannot be washed out: after any finite sequence of crossings from a
   tainted turn, whatever the classes and maps and whether each zone relays or
   originates afresh, the turn is tainted.
   */
  lemma {:induction false} TaintNeverWashesOut(node: Node, legs: seq<Leg>)
    requires node.turn.tainted
    ensures Travel(node, legs).turn.tainted
    decreases |legs|
  {
    if legs != [] {
      CrossingKeepsTaint(node, legs[0]);
      TaintNeverWashesOut(Cross(node, legs[0]), legs[1..]);
    }
  }

  /** One crossing keeps the sender's chain as a prefix and names every source its turn recorded. */
  lemma CrossingKeepsLineage(node: Node, leg: Leg)
    ensures var next := Cross(node, leg).inbound.value.provenance;
            && (forall s | s in node.turn.sources :: s in Carried(next))
            && (leg.relays && node.inbound.Some? ==> node.inbound.value.provenance <= next)
  {
    var inbound := if leg.relays then node.inbound else None;
    OutboundChainShape(leg.outbound, node.turn, inbound);
    var chain := OutboundChain(leg.outbound, node.turn, inbound);
    var next := Arrived(node, leg).provenance;
    assert chain <= next;
    forall s | s in node.turn.sources ensures s in Carried(next) {
      var h :| h in chain && h.source == s;
      assert h in next;
    }
  }

  /** Along relays, the upstream chain stays an exact prefix and no recorded source is ever dropped. */
  lemma {:induction false} LineageIsKept(node: Node, legs: seq<Leg>)
    requires node.inbound.Some? && forall i | 0 <= i < |legs| :: legs[i].relays
    ensures Travel(node, legs).inbound.Some?
    ensures node.inbound.value.provenance <= Travel(node, legs).inbound.value.provenance
    ensures legs != [] ==>
              forall s | s in node.turn.sources :: s in Carried(Travel(node, legs).inbound.value.provenance)
    decreases |legs|
  {
    if legs != [] {
      var next := Cross(node, legs[0]);
      CrossingKeepsLineage(node, legs[0]);
      LineageIsKept(next, legs[1..]);
      var last := Travel(next, legs[1..]).inbound.value.provenance;
      forall s | s in node.turn.sources ensures s in Carried(last) {
        var h :| h in next.inbound.value.provenance && h.source == s;
        assert h in last;
      }
    }
  }
}

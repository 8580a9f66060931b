/** Zone crossings through the real gates: stamp, deliver, dispatch, ingest. */
module Journey {
  import opened Prelude
  import opened Schemas
  import opened TrustMap
  import opened Dispatch
  import opened Runs
  import opened Publish
  import opened Webhook

  /** One crossing: what is published and signed, the airlock and its state, and the receiving turn. */
  datatype Crossing = Crossing(
    outbound: Outbound,
    relays: bool,
    signer: Option<ChainSigner>,
    cfg: Config,
    dedupe: set<DedupeKey>,
    arr: Arrival,
    receiverMap: InputTrustMap,
    alsoReads: seq<string>)

  function Upstream(node: Node, c: Crossing): Option<Envelope> {
    if c.relays then node.inbound else None
  }

  /** The body handed to the transport; nothing if the envelope is refused at the source. */
  function Sent(node: Node, c: Crossing): Option<string> {
    var e :- StampOutbound(c.cfg.world, c.outbound, node.turn, Upstream(node, c), c.signer);
    ToWire(c.cfg.world, e)
  }

  /** The next turn, if the airlock receives that body and accepts it. */
  function Land(node: Node, c: Crossing): Option<Node> {
    var body :- Sent(node, c);
    if c.arr.request.body != body then None
    else
      var accepted :- Step(c.cfg, c.dedupe, c.arr).outcome.envelope;
      Some(Node(Read(Ingest(FRESH, accepted.provenance, c.receiverMap), c.alsoReads, c.receiverMap), Some(accepted)))
  }

  function Voyage(node: Node, crossings: seq<Crossing>): Option<Node>
    decreases |crossings|
  {
    if crossings == [] then Some(node)
    else
      var next :- Land(node, crossings[0]);
      Voyage(next, crossings[1..])
  }

  /** The adapter parses envelopes and does not touch their chain. */
  ghost predicate KeepsChain(cfg: Config) {
    forall r | cfg.adapter.normalize(r).Some? ::
      && cfg.world.decode(r.body).Some?
      && cfg.adapter.normalize(r).value.provenance == cfg.world.decode(r.body).value.provenance
  }

  lemma WebhookKeepsChain(cfg: Config, header: string, entries: seq<(string, string)>)
    requires cfg.adapter == WebhookAdapter(cfg.world, cfg.adapter.channelType, header, entries)
    ensures KeepsChain(cfg)
  {
    forall r | cfg.adapter.normalize(r).Some?
      ensures cfg.world.decode(r.body).Some?
      ensures cfg.adapter.normalize(r).value.provenance == cfg.world.decode(r.body).value.provenance
    {
      assert cfg.adapter.normalize(r) == Normalize(cfg.world, cfg.adapter.channelType, r);
    }
  }

  lemma AcceptedChain(cfg: Config, d: set<DedupeKey>, arr: Arrival, e: Envelope)
    requires KeepsChain(cfg) && cfg.world.decode(arr.request.body) == Some(e)
    requires Step(cfg, d, arr).outcome.envelope.Some?
    ensures Judge(cfg, arr).Cleared? && Judge(cfg, arr).envelope.provenance == e.provenance
  {
    AcceptedIsStamped(cfg, d, arr);
    ClearedMeans(cfg, arr);
    assert cfg.adapter.normalize(arr.request).Some?;
  }

  /** The crossing as the receiver's own stamp shows it. */
  function LegOf(c: Crossing): Leg
    requires Judge(c.cfg, c.arr).Cleared?
  {
    var j := Judge(c.cfg, c.arr);
    Leg(c.outbound, c.relays, j.resolution, c.cfg.zone, "channel:" + c.cfg.adapter.channelType, Evidence(j.checks),
        c.cfg.world.iso(c.arr.now), c.receiverMap, c.alsoReads)
  }

  /** Every landing is one of the crossings of the zone model, so what holds of those holds through the gates. */
  lemma LandIsCross(node: Node, c: Crossing)
    requires KeepsChain(c.cfg) && Land(node, c).Some?
    ensures Judge(c.cfg, c.arr).Cleared?
    ensures Land(node, c).value.turn == Cross(node, LegOf(c)).turn
    ensures Land(node, c).value.inbound.Some?
    ensures Land(node, c).value.inbound.value.provenance == Cross(node, LegOf(c)).inbound.value.provenance
  {
    var e := StampOutbound(c.cfg.world, c.outbound, node.turn, Upstream(node, c), c.signer).value;
    SentChain(c.cfg.world, c.outbound, node.turn, Upstream(node, c), c.signer, e);
    AcceptedChain(c.cfg, c.dedupe, c.arr, e);
    AcceptedIsStamped(c.cfg, c.dedupe, c.arr);
    var accepted := Step(c.cfg, c.dedupe, c.arr).outcome.envelope.value;
    assert accepted.provenance == Arrived(node, LegOf(c)).provenance;
  }

  /**
   Taint survives every voyage through real airlocks: whatever each one is
   configured with, holds in its store, screens for or trusts, a turn reached from
   a tainted one by stamping, accepting and ingesting is tainted.
   */
  lemma {:induction false} VoyageKeepsTaint(node: Node, crossings: seq<Crossing>)
    requires forall c | c in crossings :: KeepsChain(c.cfg)
    requires node.turn.tainted && Voyage(node, crossings).Some?
    ensures Voyage(node, crossings).value.turn.tainted
    decreases |crossings|
  {
    if crossings != [] {
      LandIsCross(node, crossings[0]);
      CrossingKeepsTaint(node, LegOf(crossings[0]));
      VoyageKeepsTaint(Land(node, crossings[0]).value, crossings[1..]);
    }
  }

  /** Through relaying airlocks the upstream chain stays an exact prefix and no recorded source is lost. */
  lemma {:induction false} VoyageKeepsLineage(node: Node, crossings: seq<Crossing>)
    requires forall c | c in crossings :: KeepsChain(c.cfg) && c.relays
    requires node.inbound.Some? && Voyage(node, crossings).Some?
    ensures Voyage(node, crossings).value.inbound.Some?
    ensures node.inbound.value.provenance <= Voyage(node, crossings).value.inbound.value.provenance
    ensures crossings != [] ==>
              forall s | s in node.turn.sources :: s in Carried(Voyage(node, crossings).value.inbound.value.provenance)
    decreases |crossings|
  {
    if crossings != [] {
      LandIsCross(node, crossings[0]);
      CrossingKeepsLineage(node, LegOf(crossings[0]));
      var next := Land(node, crossings[0]).value;
      VoyageKeepsLineage(next, crossings[1..]);
      var last := Voyage(next, crossings[1..]).value.inbound.value.provenance;
      forall s | s in node.turn.sources ensures s in Carried(last) {
        var h :| h in next.inbound.value.provenance && h.source == s;
        assert h in last;
      }
    }
  }
}

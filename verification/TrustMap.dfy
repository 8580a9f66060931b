/** Who may address the receiver, what it stamps on arrival, and what taints its turn. */
module TrustMap {
  import opened Prelude
  import opened Schemas

  datatype Entry = Entry(channelType: string, channelIdentity: string, principal: string, senderClass: SenderClass)

  datatype Resolution = Resolution(principal: string, senderClass: SenderClass)

  ghost predicate UniqueIdentities(entries: seq<Entry>) {
    forall i, j | 0 <= i < j < |entries| ::
      (entries[i].channelType, entries[i].channelIdentity) != (entries[j].channelType, entries[j].channelIdentity)
  }

  /** The load-time duplicate check: a scan with a set of the keys seen. */
  method AcceptsMap(entries: seq<Entry>) returns (ok: bool)
    ensures ok <==> UniqueIdentities(entries)
  {
    var seen: set<(string, string)> := {};
    for i := 0 to |entries|
      invariant forall k ::
                  k in seen <==> exists j | 0 <= j < i :: k == (entries[j].channelType, entries[j].channelIdentity)
      invariant UniqueIdentities(entries[..i])
    {
      var key := (entries[i].channelType, entries[i].channelIdentity);
      if key in seen {
        return false;
      }
      seen := seen + {key};
    }
    assert entries[..|entries|] == entries;
    return true;
  }

  /** `resolve`: the first entry with exactly this channel and identity. */
  function Resolve(entries: seq<Entry>, channelType: string, identity: string): Option<Resolution> {
    if entries == [] then None
    else if entries[0].channelType == channelType && entries[0].channelIdentity == identity then
      Some(Resolution(entries[0].principal, entries[0].senderClass))
    else Resolve(entries[1..], channelType, identity)
  }

  method Lookup(entries: seq<Entry>, channelType: string, identity: string) returns (r: Option<Resolution>)
    ensures r == Resolve(entries, channelType, identity)
  {
    for i := 0 to |entries|
      invariant Resolve(entries, channelType, identity) == Resolve(entries[i..], channelType, identity)
    {
      if entries[i].channelType == channelType && entries[i].channelIdentity == identity {
        return Some(Resolution(entries[i].principal, entries[i].senderClass));
      }
      assert entries[i..][1..] == entries[i + 1..];
    }
    return None;
  }

  /** In a map the loader accepted, an identity resolves to an entry's row iff that row is present. */
  lemma {:induction false} ResolveExact(entries: seq<Entry>, e: Entry)
    requires UniqueIdentities(entries)
    ensures e in entries <==>
            Resolve(entries, e.channelType, e.channelIdentity) == Some(Resolution(e.principal, e.senderClass))
  {
    if entries != [] {
      var tail := entries[1..];
      assert entries == [entries[0]] + tail;
      ResolveExact(tail, e);
    }
  }

  function HopLabel(cls: SenderClass): Label {
    if cls.External? then Untrusted else Trusted
  }

  /** The receiver's own hop, appended; its label follows from the class alone. */
  function StampInbound(e: Envelope, resolution: Resolution, zone: string, source: string, evidence: seq<string>,
                        ts: string): Envelope {
    e.Stamped(Hop(zone, source, evidence, HopLabel(resolution.senderClass), ts), Some(resolution.senderClass))
  }

  // The turn

  type InputTrustMap = string -> bool

  /** What a turn has accumulated: the flag and the sources that set it, in order. */
  datatype Turn = Turn(tainted: bool, sources: seq<string>)

  const FRESH := Turn(false, [])

  function Marked(t: Turn, source: string): Turn {
    Turn(true, if source in t.sources then t.sources else t.sources + [source])
  }

  /** The label floor: a hop leaves the turn clean only if it says trusted and the receiver agrees. */
  predicate Clean(h: Hop, receiverMap: InputTrustMap) {
    h.hopLabel.Trusted? && receiverMap(h.source)
  }

  function Ingest(t: Turn, hops: seq<Hop>, receiverMap: InputTrustMap): Turn
    decreases |hops|
  {
    if hops == [] then t
    else Ingest(if Clean(hops[0], receiverMap) then t else Marked(t, hops[0].source), hops[1..], receiverMap)
  }

  /** The broker-held per-turn accumulator. */
  class TurnContext {
    var tainted: bool
    var sources: seq<string>

    function State(): Turn
      reads this
    {
      Turn(tainted, sources)
    }

    constructor ()
      ensures State() == FRESH
    {
      tainted, sources := false, [];
    }

    method MarkTainted(source: string)
      modifies this
      ensures State() == Marked(old(State()), source)
    {
      tainted := true;
      if source !in sources {
        sources := sources + [source];
      }
    }

    method IngestSource(source: string, trustMap: InputTrustMap)
      modifies this
      ensures State() == if trustMap(source) then old(State()) else Marked(old(State()), source)
    {
      if !trustMap(source) {
        MarkTainted(source);
      }
    }
  }

  method IngestChain(e: Envelope, turn: TurnContext, receiverMap: InputTrustMap)
    modifies turn
    ensures turn.State() == Ingest(old(turn.State()), e.provenance, receiverMap)
  {
    var hops := e.provenance;
    for i := 0 to |hops|
      invariant Ingest(turn.State(), hops[i..], receiverMap) == Ingest(old(turn.State()), hops, receiverMap)
    {
      var hopLabel := hops[i].hopLabel;
      assert hops[i..][1..] == hops[i + 1..];
      turn.IngestSource(hops[i].source, (source: string) => hopLabel.Trusted? && receiverMap(source));
    }
  }

  /** Exactly the sources of the hops below the floor are recorded, once each, after the earlier ones. */
  lemma {:induction false} IngestExact(t: Turn, hops: seq<Hop>, receiverMap: InputTrustMap)
    ensures var r := Ingest(t, hops, receiverMap);
            && (r.tainted <==> t.tainted || exists i | 0 <= i < |hops| :: !Clean(hops[i], receiverMap))
            && t.sources <= r.sources
            && (forall s :: s in r.sources <==>
                  s in t.sources || exists i | 0 <= i < |hops| :: hops[i].source == s && !Clean(hops[i], receiverMap))
            && (Distinct(t.sources) ==> Distinct(r.sources))
    decreases |hops|
  {
    if hops != [] {
      var u := if Clean(hops[0], receiverMap) then t else Marked(t, hops[0].source);
      var tail := hops[1..];
      IngestExact(u, tail, receiverMap);
      var r := Ingest(u, tail, receiverMap);
      assert forall i | 0 <= i < |tail| :: tail[i] == hops[i + 1];
      assert forall i | 1 <= i < |hops| :: hops[i] == tail[i - 1];
      assert t.sources <= u.sources;
      forall s ensures s in r.sources <==>
                       s in t.sources ||
                       exists i | 0 <= i < |hops| :: hops[i].source == s && !Clean(hops[i], receiverMap)
      {
        if s in u.sources && s !in t.sources {
          assert hops[0].source == s && !Clean(hops[0], receiverMap);
        }
        if exists i | 0 <= i < |tail| :: tail[i].source == s && !Clean(tail[i], receiverMap) {
          var i :| 0 <= i < |tail| && tail[i].source == s && !Clean(tail[i], receiverMap);
          assert hops[i + 1].source == s && !Clean(hops[i + 1], receiverMap);
        }
      }
    }
  }

  /** A turn is flagged exactly when it can name a source for it. */
  lemma {:induction false} TaintIsAttributed(t: Turn, hops: seq<Hop>, receiverMap: InputTrustMap)
    requires t.tainted <==> t.sources != []
    ensures var r := Ingest(t, hops, receiverMap); r.tainted <==> r.sources != []
    decreases |hops|
  {
    if hops != [] {
      TaintIsAttributed(if Clean(hops[0], receiverMap) then t else Marked(t, hops[0].source), hops[1..], receiverMap);
    }
  }
}

/** Whether an accepted envelope still fits the transport once the receiver has stamped it. */
module Forwarding {
  import opened Prelude
  import opened Text
  import opened Json
  import opened JsonSize
  import opened Schemas
  import opened Signing
  import opened TrustMap
  import opened Verification
  import opened Dispatch
  import opened Runs
  import opened Wire

  // How much a stamp adds

  lemma ReplaceTwo(m: map<string, Json>, k: string, v: Json, l: string, u: Json, result: map<string, Json>)
    requires k in m && l in m && k != l && result == m[k := v][l := u]
    ensures |Dumps(Obj(result))| == |Dumps(Obj(m))| + |Dumps(v)| - |Dumps(m[k])| + |Dumps(u)| - |Dumps(m[l])|
  {
    ReplaceSize(m, k, v);
    ReplaceSize(m[k := v], l, u);
  }

  lemma MembersReplaced(fixed: map<string, Json>, id: Json, hops: Json, cls: Json, newHops: Json, newCls: Json)
    ensures var m := Members(fixed, id, hops, cls);
            && "provenance" in m && m["provenance"] == hops && "sender_class" in m && m["sender_class"] == cls
            && "provenance" != "sender_class"
            && Members(fixed, id, newHops, newCls) == m["provenance" := newHops]["sender_class" := newCls]
  {
    assert "provenance"[0] != "sender_class"[0];
  }

  lemma MembersGrow(was: map<string, Json>, result: map<string, Json>, fixed: map<string, Json>, id: Json, hops: Json,
                    cls: Json, newHops: Json, newCls: Json)
    requires was == Members(fixed, id, hops, cls) && result == Members(fixed, id, newHops, newCls)
    ensures |Dumps(Obj(result))|
            == |Dumps(Obj(was))| + |Dumps(newHops)| - |Dumps(hops)| + |Dumps(newCls)| - |Dumps(cls)|
  {
    MembersReplaced(fixed, id, hops, cls, newHops, newCls);
    ReplaceTwo(was, "provenance", newHops, "sender_class", newCls, result);
  }

  /** The hop's text, and the class's name where `null` stood. */
  function Growth(hop: Hop, cls: SenderClass): int {
    |Dumps(HopJson(hop))| + |Quote(ClassName(cls))| - 4
  }

  function Comma(e: Envelope): nat {
    if e.provenance == [] then 0 else 1
  }

  lemma HopsGrow(hops: seq<Hop>, hop: Hop)
    ensures |Dumps(HopsJson(hops + [hop]))|
            == |Dumps(HopsJson(hops))| + |Dumps(HopJson(hop))| + (if hops == [] then 0 else 1)
  {
    ArrayGrows(HopsJson(hops).items, HopJson(hop));
    assert HopsJson(hops + [hop]).items == HopsJson(hops).items + [HopJson(hop)];
  }

  /** A stamp adds exactly its hop, a comma and its class, whatever the envelope holds. */
  lemma StampGrows(b: Base64, e: Envelope, hop: Hop, cls: SenderClass)
    requires e.senderClass.None?
    ensures |EnvelopeText(b, e.Stamped(hop, Some(cls)))| == |EnvelopeText(b, e)| + Comma(e) + Growth(hop, cls)
  {
    HopsGrow(e.provenance, hop);
    StampedMembers(b, e, hop, cls);
    StampedSize(EnvelopeJson(b, e).members, EnvelopeJson(b, e.Stamped(hop, Some(cls))).members, Fixed(b, e),
                Str(e.eventId), HopsJson(e.provenance), HopsJson(e.provenance + [hop]), HopJson(hop),
                ClassName(cls), Comma(e));
  }

  lemma StampedSize(was: map<string, Json>, result: map<string, Json>, fixed: map<string, Json>, id: Json, hops: Json,
                    newHops: Json, hop: Json, name: string, comma: nat)
    requires was == Members(fixed, id, hops, Null) && result == Members(fixed, id, newHops, Str(name))
    requires |Dumps(newHops)| == |Dumps(hops)| + |Dumps(hop)| + comma
    ensures |Dumps(Obj(result))| == |Dumps(Obj(was))| + comma + (|Dumps(hop)| + |Quote(name)| - 4)
  {
    MembersGrow(was, result, fixed, id, hops, Null, newHops, Str(name));
  }

  lemma StampedMembers(b: Base64, e: Envelope, hop: Hop, cls: SenderClass)
    requires e.senderClass.None?
    ensures EnvelopeJson(b, e).members == Members(Fixed(b, e), Str(e.eventId), HopsJson(e.provenance), Null)
    ensures EnvelopeJson(b, e.Stamped(hop, Some(cls))).members
            == Members(Fixed(b, e), Str(e.eventId), HopsJson(e.provenance + [hop]), Str(ClassName(cls)))
  {
    assert Fixed(b, e.Stamped(hop, Some(cls))) == Fixed(b, e);
  }

  lemma WeightCons(m: map<string, Json>, k: string, rest: seq<string>)
    requires k in m && forall x | x in rest :: x in m
    ensures Weight(m, [k] + rest) == Cost(m, k) + Weight(m, rest)
  {
    assert ([k] + rest)[1..] == rest;
  }

  lemma WeightOfFive(m: map<string, Json>, k1: string, k2: string, k3: string, k4: string, k5: string)
    requires k1 in m && k2 in m && k3 in m && k4 in m && k5 in m
    ensures Weight(m, [k1, k2, k3, k4, k5]) == Cost(m, k1) + Cost(m, k2) + Cost(m, k3) + Cost(m, k4) + Cost(m, k5)
  {
    WeightCons(m, k5, []);
    WeightCons(m, k4, [k5]);
    WeightCons(m, k3, [k4, k5]);
    WeightCons(m, k2, [k3, k4, k5]);
    WeightCons(m, k1, [k2, k3, k4, k5]);
    assert [k4] + [k5] == [k4, k5] && [k3] + [k4, k5] == [k3, k4, k5] && [k2] + [k3, k4, k5] == [k2, k3, k4, k5];
    assert [k1] + [k2, k3, k4, k5] == [k1, k2, k3, k4, k5] && [k5] + [] == [k5];
  }

  const HOP_FIELDS := ["zone", "source", "evidence", "label", "ts"]

  lemma HopFields()
    ensures Distinct(HOP_FIELDS)
  {
    assert |"zone"| == 4 && |"source"| == 6 && |"evidence"| == 8 && |"label"| == 5 && |"ts"| == 2;
  }

  function LabelName(l: Label): string {
    if l.Trusted? then "trusted" else "untrusted"
  }

  lemma ClearCost(m: map<string, Json>, k: string, v: Json)
    requires k in m && m[k] == v && Clear(k)
    ensures Cost(m, k) == |k| + 4 + |Dumps(v)|
  {
    QuoteBounds(k);
  }

  lemma NamesAreClear()
    ensures forall k | k in HOP_FIELDS :: Clear(k)
  {
  }

  /** The weight of five members with plain names. */
  lemma FiveMembers(m: map<string, Json>, keys: seq<string>)
    requires |keys| == 5 && Distinct(keys) && (forall k :: k in keys <==> k in m) && forall k | k in keys :: Clear(k)
    ensures |Dumps(Obj(m))|
            == 21 + |keys[0]| + |keys[1]| + |keys[2]| + |keys[3]| + |keys[4]|
               + |Dumps(m[keys[0]])| + |Dumps(m[keys[1]])| + |Dumps(m[keys[2]])| + |Dumps(m[keys[3]])|
               + |Dumps(m[keys[4]])|
  {
    forall i | 0 <= i < 5 ensures keys[i] in m && Cost(m, keys[i]) == |keys[i]| + 4 + |Dumps(m[keys[i]])| {
      assert keys[i] in keys;
      ClearCost(m, keys[i], m[keys[i]]);
    }
    assert keys[0] in m;
    ObjectSize(m, keys);
    FiveCosts(m, keys);
  }

  lemma FiveCosts(m: map<string, Json>, keys: seq<string>)
    requires |keys| == 5 && forall k | k in keys :: k in m
    ensures Weight(m, keys)
            == Cost(m, keys[0]) + Cost(m, keys[1]) + Cost(m, keys[2]) + Cost(m, keys[3]) + Cost(m, keys[4])
  {
    assert keys == [keys[0], keys[1], keys[2], keys[3], keys[4]];
    WeightOfFive(m, keys[0], keys[1], keys[2], keys[3], keys[4]);
  }

  lemma HopMembers(h: Hop)
    ensures var m := HopJson(h).members;
            && (forall k :: k in HOP_FIELDS <==> k in m)
            && m[HOP_FIELDS[0]] == Str(h.zone) && m[HOP_FIELDS[1]] == Str(h.source)
            && m[HOP_FIELDS[2]] == Strings(h.evidence) && m[HOP_FIELDS[3]] == Str(LabelName(h.hopLabel))
            && m[HOP_FIELDS[4]] == Str(h.ts)
  {
  }

  /** A hop's text is its five values and 46 characters of frame. */
  lemma HopSize(h: Hop)
    ensures |Dumps(HopJson(h))|
            == 46 + |Quote(h.zone)| + |Quote(h.source)| + |Dumps(Strings(h.evidence))| + |Quote(LabelName(h.hopLabel))|
               + |Quote(h.ts)|
  {
    HopFields();
    NamesAreClear();
    HopMembers(h);
    HopFrame(HopJson(h).members, HOP_FIELDS);
  }

  lemma HopFrame(m: map<string, Json>, keys: seq<string>)
    requires |keys| == 5 && Distinct(keys) && (forall k :: k in keys <==> k in m) && forall k | k in keys :: Clear(k)
    requires |keys[0]| + |keys[1]| + |keys[2]| + |keys[3]| + |keys[4]| == 25
    ensures |Dumps(Obj(m))|
            == 46 + |Dumps(m[keys[0]])| + |Dumps(m[keys[1]])| + |Dumps(m[keys[2]])| + |Dumps(m[keys[3]])|
               + |Dumps(m[keys[4]])|
  {
    FiveMembers(m, keys);
  }

  lemma OneString(a: string)
    requires Clear(a)
    ensures |Dumps(Strings([a]))| == |a| + 4
  {
    var none: seq<Json> := [];
    ArrayGrows(none, Str(a));
    assert Strings([a]).items == none + [Str(a)];
    QuoteBounds(a);
  }

  lemma AnotherString(ss: seq<string>, a: string)
    requires ss != [] && Clear(a)
    ensures |Dumps(Strings(ss + [a]))| == |Dumps(Strings(ss))| + |a| + 3
  {
    ArrayGrows(Strings(ss).items, Str(a));
    assert Strings(ss + [a]).items == Strings(ss).items + [Str(a)];
    QuoteBounds(a);
  }

  /** One to three clear strings, by their lengths. */
  lemma ThreeStrings(a: string, b: string, c: string)
    requires Clear(a) && Clear(b) && Clear(c)
    ensures |Dumps(Strings([a]))| == |a| + 4
    ensures |Dumps(Strings([a, b]))| == |a| + |b| + 7
    ensures |Dumps(Strings([a, b, c]))| == |a| + |b| + |c| + 10
  {
    OneString(a);
    AnotherString([a], b);
    AnotherString([a, b], c);
    assert [a] + [b] == [a, b] && [a, b] + [c] == [a, b, c];
  }

  function CustodyName(c: Custody): string {
    if c.Declared? then "custody:declared" else "custody:attested"
  }

  lemma EvidenceIs(checks: Checks)
    ensures Evidence(checks)
            == if !checks.chainVerified then ["token:pass"]
               else if checks.custody.None? then ["token:pass", "sig:pass"]
               else ["token:pass", "sig:pass", CustodyName(checks.custody.value)]
  {
  }

  lemma CustodyIsClear(c: Custody)
    ensures Clear(CustodyName(c)) && |CustodyName(c)| == 16
  {
  }

  lemma PassesAreClear()
    ensures Clear("token:pass") && Clear("sig:pass")
  {
  }

  /** At most 44 characters, and as many for a verified chain with custody evidence. */
  lemma EvidenceSize(checks: Checks)
    ensures |Dumps(Strings(Evidence(checks)))| <= 44
    ensures checks.chainVerified && checks.custody.Some? ==> |Dumps(Strings(Evidence(checks)))| == 44
  {
    var custody := CustodyName(if checks.custody.Some? then checks.custody.value else Declared);
    EvidenceIs(checks);
    PassesAreClear();
    CustodyIsClear(if checks.custody.Some? then checks.custody.value else Declared);
    ThreeStrings("token:pass", "sig:pass", custody);
  }

  lemma ClearQuote(s: string)
    requires Clear(s)
    ensures |Quote(s)| == |s| + 2
  {
    QuoteBounds(s);
  }

  lemma LabelAndClass(cls: SenderClass)
    ensures var l, c := LabelName(HopLabel(cls)), ClassName(cls);
            Clear(l) && Clear(c) && |l| + |c| <= 17 && (!cls.Owner? ==> |l| + |c| == 17)
  {
  }

  lemma ClassSize(cls: SenderClass)
    ensures var names := |Quote(LabelName(HopLabel(cls)))| + |Quote(ClassName(cls))|;
            names <= 21 && (!cls.Owner? ==> names == 21)
  {
    LabelAndClass(cls);
    ClearQuote(LabelName(HopLabel(cls)));
    ClearQuote(ClassName(cls));
  }

  /** What the receiver's own names take: its zone, its channel and its clock's text. */
  function Names(zone: string, channelType: string, ts: string): nat {
    |Quote(zone)| + |Quote("channel:" + channelType)| + |Quote(ts)|
  }

  function HopFor(zone: string, channelType: string, ts: string, cls: SenderClass, checks: Checks): Hop {
    Hop(zone, "channel:" + channelType, Evidence(checks), HopLabel(cls), ts)
  }

  /** A stamp takes at most 107 characters beside those names, and takes them all for a separated, verified peer. */
  lemma StampSize(zone: string, channelType: string, ts: string, cls: SenderClass, checks: Checks)
    ensures Growth(HopFor(zone, channelType, ts, cls, checks), cls) <= Names(zone, channelType, ts) + 107
    ensures checks.chainVerified && checks.custody.Some? && !cls.Owner? ==>
              Growth(HopFor(zone, channelType, ts, cls, checks), cls) == Names(zone, channelType, ts) + 107
  {
    HopSize(HopFor(zone, channelType, ts, cls, checks));
    EvidenceSize(checks);
    ClassSize(cls);
  }

  // The forwarding ceiling

  const SLACK: nat := MAX_FORWARD_BYTES - MAX_ENVELOPE_BYTES

  /** The zone, the channel and the clock leave the stamp room between the two ceilings. */
  predicate LeavesRoom(zone: string, channelType: string, ts: string) {
    Names(zone, channelType, ts) + 108 <= SLACK
  }

  /** Zone and channel names of up to 2600 characters each leave room, however they are spelled. */
  lemma ShortNamesLeaveRoom(zone: string, channelType: string, ts: string)
    requires |zone| <= 2600 && |channelType| <= 2600 && |ts| <= 100
    ensures LeavesRoom(zone, channelType, ts)
  {
    QuoteBounds(zone);
    QuoteBounds("channel:" + channelType);
    QuoteBounds(ts);
  }

  /** A plain zone id as long as the slack leaves none. */
  lemma LongZoneLeavesNone(zone: string, channelType: string, ts: string)
    requires |zone| >= SLACK
    ensures !LeavesRoom(zone, channelType, ts)
  {
    QuoteBounds(zone);
  }

  function Padding(n: nat): (s: string)
    ensures |s| == n && forall i | 0 <= i < n :: s[i] == 'x'
  {
    seq(n, _ => 'x')
  }

  /** The same envelope under a longer event id. */
  function Padded(e: Envelope, n: nat): Envelope {
    e.(eventId := e.eventId + Padding(n))
  }

  lemma IdReplaced(fixed: map<string, Json>, id: Json, newId: Json, hops: Json, cls: Json)
    ensures var m := Members(fixed, id, hops, cls);
            "event_id" in m && m["event_id"] == id && Members(fixed, newId, hops, cls) == m["event_id" := newId]
  {
    assert "event_id"[0] != "provenance"[0] && "event_id"[0] != "sender_class"[0];
  }

  lemma MemberGrows(was: map<string, Json>, result: map<string, Json>, k: string, v: Json)
    requires k in was && result == was[k := v]
    ensures |Dumps(Obj(result))| == |Dumps(Obj(was))| + |Dumps(v)| - |Dumps(was[k])|
  {
    ReplaceSize(was, k, v);
  }

  /** A sender can bring an envelope to any size above its own. */
  lemma PaddedSize(b: Base64, e: Envelope, n: nat)
    ensures |EnvelopeText(b, Padded(e, n))| == |EnvelopeText(b, e)| + n
  {
    assert Fixed(b, Padded(e, n)) == Fixed(b, e);
    var id, newId := Str(e.eventId), Str(e.eventId + Padding(n));
    IdReplaced(Fixed(b, e), id, newId, HopsJson(e.provenance), ClassJson(e.senderClass));
    MemberGrows(EnvelopeJson(b, e).members, EnvelopeJson(b, Padded(e, n)).members, "event_id", newId);
    EscapeAllConcat(e.eventId, Padding(n));
    QuoteBounds(Padding(n));
  }

  lemma SignaturesReplaced(b: Base64, e: Envelope, ss: seq<ChainSignature>)
    ensures var m := EnvelopeJson(b, e).members;
            && "chain_signatures" in m && m["chain_signatures"] == SignaturesWire(b, e.chainSignatures)
            && EnvelopeJson(b, e.(chainSignatures := ss)).members == m["chain_signatures" := SignaturesWire(b, ss)]
  {
  }

  /** Signing never shortens the text. */
  lemma SignedIsLonger(b: Base64, e: Envelope, ss: seq<ChainSignature>)
    requires e.chainSignatures == []
    ensures |EnvelopeText(b, e)| <= |EnvelopeText(b, e.(chainSignatures := ss))|
  {
    SignaturesReplaced(b, e, ss);
    MemberGrows(EnvelopeJson(b, e).members, EnvelopeJson(b, e.(chainSignatures := ss)).members, "chain_signatures",
            SignaturesWire(b, ss));
    assert SignaturesWire(b, []) == Arr([]);
    ArrayIsLong(SignaturesWire(b, ss).items);
  }

  lemma ArrayIsLong(items: seq<Json>)
    ensures |Dumps(Arr(items))| >= 2 == |Dumps(Arr([]))|
  {
    if items != [] {
      FirstChar(items[0]);
    }
  }

  /**
   The two ceilings, exactly. Take any envelope that is within the first and give
   it longer event ids: all that stay within the first fit under the second once
   stamped, iff the stamp and its comma take no more than the slack.
   */
  lemma StampedFitsIff(b: Base64, e: Envelope, hop: Hop, cls: SenderClass)
    requires e.senderClass.None? && e.provenance != [] && |EnvelopeText(b, e)| <= 196_608
    ensures (forall n: nat | |EnvelopeText(b, Padded(e, n))| <= 196_608 ::
               |EnvelopeText(b, Padded(e, n).Stamped(hop, Some(cls)))| <= 262_144)
            <==> 1 + Growth(hop, cls) <= 65_536
  {
    forall n: nat
      ensures |EnvelopeText(b, Padded(e, n))| == |EnvelopeText(b, e)| + n
      ensures |EnvelopeText(b, Padded(e, n).Stamped(hop, Some(cls)))| == |EnvelopeText(b, e)| + n + 1 + Growth(hop, cls)
    {
      PaddedSize(b, e, n);
      StampGrows(b, Padded(e, n), hop, cls);
    }
    var n := MAX_ENVELOPE_BYTES - |EnvelopeText(b, e)|;
    assert |EnvelopeText(b, Padded(e, n))| == MAX_ENVELOPE_BYTES;
    assert |EnvelopeText(b, Padded(e, n).Stamped(hop, Some(cls)))| == MAX_ENVELOPE_BYTES + 1 + Growth(hop, cls);
  }

  // Through the airlock

  /** The world writes envelopes as `to_wire` does, and reads what it wrote if the schema admits it. */
  ghost predicate Codec(w: World, b: Base64, valid: Envelope -> bool) {
    && Inverts(b)
    && (forall e :: w.encode(e) == EnvelopeText(b, e))
    && (forall e :: w.decode(EnvelopeText(b, e)) == if valid(e) then ReadWire(b, EnvelopeText(b, e)) else None)
  }

  /** With that codec an envelope has a wire form iff it is valid and small enough, and the form is ASCII. */
  lemma WireFormExact(w: World, b: Base64, valid: Envelope -> bool, e: Envelope)
    requires Codec(w, b, valid)
    ensures ToWire(w, e).Some? <==> valid(e) && |EnvelopeText(b, e)| <= 196_608
    ensures ToWire(w, e).Some? ==> ToWire(w, e).value == EnvelopeText(b, e) && Ascii(ToWire(w, e).value)
  {
    WireRoundTrip(b, e);
    DumpsAscii(EnvelopeJson(b, e));
    assert w.encode(e) == EnvelopeText(b, e);
  }

  /** The hop this airlock adds to what it cleared. */
  function HopOn(cfg: Config, arr: Arrival): Hop
    requires Judge(cfg, arr).Cleared?
  {
    var j := Judge(cfg, arr);
    HopFor(cfg.zone, cfg.adapter.channelType, cfg.world.iso(arr.now), j.resolution.senderClass, j.checks)
  }

  /** The accepted text is the cleared one and the stamp, to the character; the stamp is longer than the zone id. */
  lemma AcceptedSize(cfg: Config, b: Base64, d: set<DedupeKey>, arr: Arrival)
    requires Step(cfg, d, arr).outcome.envelope.Some?
    ensures Judge(cfg, arr).Cleared?
    ensures var j := Judge(cfg, arr);
            && |EnvelopeText(b, Step(cfg, d, arr).outcome.envelope.value)|
               == |EnvelopeText(b, j.envelope)| + Comma(j.envelope) + Growth(HopOn(cfg, arr), j.resolution.senderClass)
            && Growth(HopOn(cfg, arr), j.resolution.senderClass) > |cfg.zone|
  {
    AcceptedIsStamped(cfg, d, arr);
    ClearedMeans(cfg, arr);
    StampGrows(b, Judge(cfg, arr).envelope, HopOn(cfg, arr), Judge(cfg, arr).resolution.senderClass);
    HopSize(HopOn(cfg, arr));
    QuoteBounds(cfg.zone);
  }

  /**
   What is accepted can be forwarded. An airlock whose zone, channel and clock
   leave room never accepts an envelope whose stamped text is over the transport's
   ceiling.
   */
  lemma AcceptedFits(cfg: Config, b: Base64, valid: Envelope -> bool, d: set<DedupeKey>, arr: Arrival)
    requires Codec(cfg.world, b, valid) && Step(cfg, d, arr).outcome.envelope.Some?
    requires LeavesRoom(cfg.zone, cfg.adapter.channelType, cfg.world.iso(arr.now))
    ensures |EnvelopeText(b, Step(cfg, d, arr).outcome.envelope.value)| <= 262_144
  {
    AcceptedSize(cfg, b, d, arr);
    ClearedMeans(cfg, arr);
    var j := Judge(cfg, arr);
    assert ToWire(cfg.world, j.envelope).Some?;
    WireFormExact(cfg.world, b, valid, j.envelope);
    StampSize(cfg.zone, cfg.adapter.channelType, cfg.world.iso(arr.now), j.resolution.senderClass, j.checks);
  }
}

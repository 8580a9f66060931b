/** Reading the verification-keys secret, and what the custody evidence on a hop then means. */
module Keys {
  import opened Prelude
  import opened Text
  import opened Json
  import opened JsonText
  import opened Schemas
  import opened Verification
  import opened Dispatch
  import opened Runs

  /** `entries` has no name twice. */
  ghost predicate NamesOnce(pairs: seq<(string, Json)>) {
    forall i, j | 0 <= i < j < |pairs| :: pairs[i].0 != pairs[j].0
  }

  /** `_no_duplicate_keys`: the object a list of members makes, refused if a name repeats. */
  method NoDuplicateKeys(pairs: seq<(string, Json)>) returns (r: Option<map<string, Json>>)
    ensures r.Some? <==> NamesOnce(pairs)
    ensures r.Some? ==> forall k, v :: (k in r.value && r.value[k] == v) <==> (k, v) in pairs
  {
    var seen: map<string, Json> := map[];
    for i := 0 to |pairs|
      invariant NamesOnce(pairs[..i])
      invariant forall k, v :: (k in seen && seen[k] == v) <==> (k, v) in pairs[..i]
    {
      var (name, value) := pairs[i];
      if name in seen {
        assert (name, seen[name]) in pairs[..i];
        return None;
      }
      assert forall j | 0 <= j < i :: (pairs[j].0, pairs[j].1) in pairs[..i];
      seen := seen[name := value];
      assert pairs[..i + 1] == pairs[..i] + [(name, value)];
    }
    assert pairs[..|pairs|] == pairs;
    return Some(seen);
  }

  const PEER_KEY_FIELDS := {"public_key", "zone", "sender_identities", "signer_posture", "custody_evidence"}

  predicate IsZoneId(j: Json) {
    j.Str? && j.s != "" && j.s == Strip(j.s)
  }

  /** A non-empty list of strings that are not blank. */
  predicate IsIdentityList(j: Json) {
    j.Arr? && j.items != [] && forall i | 0 <= i < |j.items| :: j.items[i].Str? && Strip(j.items[i].s) != ""
  }

  /** `_peer_key`: one entry, or the refusal of the whole secret. `loadKey` parses the PEM. */
  function ParsePeerKey(w: World, loadKey: Json -> Option<seq<byte>>, entry: Json): Option<PeerKey> {
    if !entry.Obj? || entry.members.Keys != PEER_KEY_FIELDS then None
    else
      var m := entry.members;
      var posture, evidence := m["signer_posture"], m["custody_evidence"];
      var zone, identities := m["zone"], m["sender_identities"];
      if !posture.Num? || posture.n !in {1, 2, 3} then None
      else if evidence != Str("declared") then None
      else if !IsZoneId(zone) || !IsIdentityList(identities) then None
      else
        var key :- loadKey(m["public_key"]);
        var scope := set i | 0 <= i < |identities.items| :: w.canonical(identities.items[i].s);
        Some(PeerKey(key, zone.s, scope, posture.n, Declared))
  }

  /** `peer_key_resolver_from_map`: every entry parses, or nothing is enrolled. */
  function Enrol(w: World, loadKey: Json -> Option<seq<byte>>, entries: map<string, Json>): Option<Enrolment> {
    if exists k | k in entries :: ParsePeerKey(w, loadKey, entries[k]).None? then None
    else Some(map k | k in entries :: ParsePeerKey(w, loadKey, entries[k]).value)
  }

  /** A key as the custody rules need it: a known posture, a scope that can match, nothing attested. */
  ghost predicate WellFormed(w: World, key: PeerKey) {
    && 1 <= key.signerPosture <= 3
    && key.custodyEvidence == Declared
    && key.zone != "" && key.zone == Strip(key.zone)
    && key.senderIdentities != {}
    && (CanonicalIdempotent(w) ==> forall s | s in key.senderIdentities :: w.canonical(s) == s)
  }

  /** `s` is the canonical form of an identity the entry lists. */
  ghost predicate Listed(w: World, entry: Json, s: string) {
    exists raw :: Str(raw) in Items(Field(entry, "sender_identities")) && w.canonical(raw) == s
  }

  function Items(j: Json): seq<Json> {
    if j.Arr? then j.items else []
  }

  /** What the secret must say for an entry to be taken. */
  ghost predicate Acceptable(loadKey: Json -> Option<seq<byte>>, entry: Json) {
    && entry.Obj?
    && entry.members.Keys == {"public_key", "zone", "sender_identities", "signer_posture", "custody_evidence"}
    && (Field(entry, "signer_posture") in {Num(1), Num(2), Num(3)})
    && Field(entry, "custody_evidence") == Str("declared")
    && (exists zone :: Field(entry, "zone") == Str(zone) && zone != "" && zone == Strip(zone))
    && Field(entry, "sender_identities").Arr? && Field(entry, "sender_identities").items != []
    && (forall j | j in Field(entry, "sender_identities").items :: j.Str? && Strip(j.s) != "")
    && loadKey(Field(entry, "public_key")).Some?
  }

  lemma IdentityListIs(j: Json)
    ensures IsIdentityList(j) <==> j.Arr? && j.items != [] && forall x | x in j.items :: x.Str? && Strip(x.s) != ""
  {
    if j.Arr? && forall x | x in j.items :: x.Str? && Strip(x.s) != "" {
      forall i | 0 <= i < |j.items| ensures j.items[i].Str? && Strip(j.items[i].s) != "" {
        assert j.items[i] in j.items;
      }
    }
  }

  /** An entry is taken iff it says what it must. */
  lemma TakenIffAcceptable(w: World, loadKey: Json -> Option<seq<byte>>, entry: Json)
    ensures ParsePeerKey(w, loadKey, entry).Some? <==> Acceptable(loadKey, entry)
  {
    IdentityListIs(Field(entry, "sender_identities"));
    if entry.Obj? && entry.members.Keys == PEER_KEY_FIELDS {
      var zone := Field(entry, "zone");
      assert IsZoneId(zone) <==> exists z :: zone == Str(z) && z != "" && z == Strip(z) by {
        if zone.Str? {
          assert zone == Str(zone.s);
        }
      }
    }
  }

  /** The key is what the entry says: its posture, zone and key, and the canonical forms of what it lists. */
  ghost predicate Matches(w: World, loadKey: Json -> Option<seq<byte>>, entry: Json, key: PeerKey) {
    && Num(key.signerPosture) == Field(entry, "signer_posture") && Str(key.zone) == Field(entry, "zone")
    && Some(key.publicKey) == loadKey(Field(entry, "public_key"))
    && (forall s :: s in key.senderIdentities <==> Listed(w, entry, s))
  }

  lemma KeyIsTheEntrys(w: World, loadKey: Json -> Option<seq<byte>>, entry: Json)
    requires ParsePeerKey(w, loadKey, entry).Some?
    ensures Matches(w, loadKey, entry, ParsePeerKey(w, loadKey, entry).value)
  {
    var key, items := ParsePeerKey(w, loadKey, entry).value, Items(Field(entry, "sender_identities"));
    forall s ensures s in key.senderIdentities <==> Listed(w, entry, s) {
      if s in key.senderIdentities {
        var i :| 0 <= i < |items| && w.canonical(items[i].s) == s;
        assert items[i] == Str(items[i].s) && items[i] in items;
      }
      if Listed(w, entry, s) {
        var raw :| Str(raw) in items && w.canonical(raw) == s;
        var i :| 0 <= i < |items| && items[i] == Str(raw);
      }
    }
  }

  lemma ParsedIsWellFormed(w: World, loadKey: Json -> Option<seq<byte>>, entry: Json)
    requires ParsePeerKey(w, loadKey, entry).Some?
    ensures WellFormed(w, ParsePeerKey(w, loadKey, entry).value)
  {
    var identities := entry.members["sender_identities"];
    assert w.canonical(identities.items[0].s) in ParsePeerKey(w, loadKey, entry).value.senderIdentities;
  }

  /** Every key of an accepted secret is well formed and is what its entry says, and no key id is added or lost. */
  lemma EnrolledAreWellFormed(w: World, loadKey: Json -> Option<seq<byte>>, entries: map<string, Json>, keys: Enrolment)
    requires Enrol(w, loadKey, entries) == Some(keys)
    ensures keys.Keys == entries.Keys
    ensures forall k | k in keys :: WellFormed(w, keys[k]) && Matches(w, loadKey, entries[k], keys[k])
  {
    forall k | k in keys ensures WellFormed(w, keys[k]) && Matches(w, loadKey, entries[k], keys[k]) {
      ParsedIsWellFormed(w, loadKey, entries[k]);
      KeyIsTheEntrys(w, loadKey, entries[k]);
    }
  }

  /** A secret is accepted iff each of its entries is. */
  lemma EnrolsIffAcceptable(w: World, loadKey: Json -> Option<seq<byte>>, entries: map<string, Json>)
    ensures Enrol(w, loadKey, entries).Some? <==> forall k | k in entries :: Acceptable(loadKey, entries[k])
  {
    forall k | k in entries ensures ParsePeerKey(w, loadKey, entries[k]).Some? <==> Acceptable(loadKey, entries[k]) {
      TakenIffAcceptable(w, loadKey, entries[k]);
    }
  }

  /** The secret records this key id at posture 2 or 3. */
  predicate SeparatedInSecret(entries: map<string, Json>, keyId: string) {
    && keyId in entries
    && (Field(entries[keyId], "signer_posture") == Num(2) || Field(entries[keyId], "signer_posture") == Num(3))
  }

  lemma SeparatedKey(posture: int, recorded: Json)
    requires 1 <= posture <= 3 && Num(posture) == recorded
    ensures (recorded == Num(2) || recorded == Num(3)) <==> posture >= 2
  {
  }

  lemma SeparatedAsRecorded(w: World, loadKey: Json -> Option<seq<byte>>, entries: map<string, Json>, keys: Enrolment)
    requires Enrol(w, loadKey, entries) == Some(keys)
    ensures keys.Keys == entries.Keys
    ensures forall k | k in keys :: SeparatedInSecret(entries, k) <==> keys[k].signerPosture >= 2
  {
    EnrolledAreWellFormed(w, loadKey, entries, keys);
    forall k | k in keys ensures SeparatedInSecret(entries, k) <==> keys[k].signerPosture >= 2 {
      assert WellFormed(w, keys[k]) && Matches(w, loadKey, entries[k], keys[k]);
      SeparatedKey(keys[k].signerPosture, Field(entries[k], "signer_posture"));
    }
  }

  lemma AllDeclared(classes: seq<Custody>)
    requires classes != [] && forall c | c in classes :: c == Declared
    ensures Weakest(classes) == Some(Declared)
  {
    assert classes[0] in classes;
  }

  /** What a passing verdict over well-formed keys hands on: `declared`, and only if every signing key is separated. */
  lemma VerdictCustody(w: World, prim: Primitive, who: string, e: Envelope, keys: Enrolment)
    requires forall k | k in keys :: WellFormed(w, keys[k])
    requires ChainVerdict(prim, who, e, keys).ok
    ensures var checks := Established(ChainVerdict(prim, who, e, keys));
            && checks.chainVerified && checks.custody != Some(Attested)
            && (checks.custody == Some(Declared) <==>
                  forall i | 0 <= i < |e.chainSignatures| ::
                    e.chainSignatures[i].keyId in keys && keys[e.chainSignatures[i].keyId].AgentSeparated())
  {
    VerdictExact(prim, who, e, keys);
    var signatures := e.chainSignatures;
    assert forall i | 0 <= i < |signatures| :: Passes(prim, who, e, keys, signatures[i]);
    var classes := KeyClasses(keys, signatures);
    forall c | c in classes ensures c == Declared {
      var i :| 0 <= i < |classes| && classes[i] == c;
      assert WellFormed(w, keys[signatures[i].keyId]);
    }
    AllDeclared(classes);
  }

  lemma CustodyEvidence(checks: Checks)
    ensures "custody:declared" in Evidence(checks) <==> checks.chainVerified && checks.custody == Some(Declared)
    ensures "custody:attested" in Evidence(checks) <==> checks.chainVerified && checks.custody == Some(Attested)
  {
    var evidence := Evidence(checks);
    assert "custody:declared"[8] != "custody:attested"[8];
    assert "token:pass"[0] == 't' && "sig:pass"[0] == 's' && "custody:declared"[0] == "custody:attested"[0] == 'c';
    if checks.chainVerified && checks.custody.Some? {
      assert |evidence| == 3;
      assert evidence[2] == if checks.custody.value.Declared? then "custody:declared" else "custody:attested";
    }
  }

  /** Over the enrolled keys. */
  lemma CustodyOverKeys(cfg: Config, keys: Enrolment, d: set<DedupeKey>, arr: Arrival)
    requires forall k | k in keys :: WellFormed(cfg.world, keys[k])
    requires cfg.verify == Some(Gate(cfg.world, keys)) && !cfg.adapter.originatesEnvelope
    requires Step(cfg, d, arr).outcome.envelope.Some?
    ensures Judge(cfg, arr).Cleared?
    ensures var chain := Step(cfg, d, arr).outcome.envelope.value.provenance;
            var signatures := Judge(cfg, arr).envelope.chainSignatures;
            && chain != []
            && "custody:attested" !in chain[|chain| - 1].evidence
            && (forall i | 0 <= i < |signatures| :: signatures[i].keyId in keys)
            && ("custody:declared" in chain[|chain| - 1].evidence <==>
                  forall i | 0 <= i < |signatures| ::
                    signatures[i].keyId in keys && keys[signatures[i].keyId].AgentSeparated())
  {
    AcceptedIsStamped(cfg, d, arr);
    ClearedMeans(cfg, arr);
    assert GateRuns(cfg);
    var j := Judge(cfg, arr);
    CustodyEvidence(j.checks);
    var e := j.envelope;
    var prim, who := VerifyOne(cfg.world, e), cfg.world.canonical(e.sender.channelIdentity);
    VerdictCustody(cfg.world, prim, who, e, keys);
    VerdictExact(prim, who, e, keys);
    assert forall i | 0 <= i < |e.chainSignatures| :: Passes(prim, who, e, keys, e.chainSignatures[i]);
  }

  /**
   What custody evidence on an accepted hop means, for an airlock whose keys came
   from the secret: `custody:attested` never appears, and `custody:declared`
   appears iff the secret records every key that signed the chain at posture 2 or 3.
   */
  lemma CustodyOnHopIsEarned(cfg: Config, loadKey: Json -> Option<seq<byte>>, entries: map<string, Json>,
                             keys: Enrolment, d: set<DedupeKey>, arr: Arrival)
    requires Enrol(cfg.world, loadKey, entries) == Some(keys)
    requires cfg.verify == Some(Gate(cfg.world, keys)) && !cfg.adapter.originatesEnvelope
    requires Step(cfg, d, arr).outcome.envelope.Some?
    ensures Judge(cfg, arr).Cleared?
    ensures var chain := Step(cfg, d, arr).outcome.envelope.value.provenance;
            var signatures := Judge(cfg, arr).envelope.chainSignatures;
            && chain != []
            && "custody:attested" !in chain[|chain| - 1].evidence
            && ("custody:declared" in chain[|chain| - 1].evidence <==>
                  forall i | 0 <= i < |signatures| :: SeparatedInSecret(entries, signatures[i].keyId))
  {
    EnrolledAreWellFormed(cfg.world, loadKey, entries, keys);
    SeparatedAsRecorded(cfg.world, loadKey, entries, keys);
    CustodyOverKeys(cfg, keys, d, arr);
  }

  /** `enrolled` lists the enrolled keys, in any order and with any repetition. */
  ghost predicate ListsKeys(keys: Enrolment, enrolled: seq<PeerKey>) {
    && (forall i | 0 <= i < |enrolled| :: enrolled[i] in keys.Values)
    && (forall k | k in keys :: keys[k] in enrolled)
  }

  lemma ListedSeparated(keys: Enrolment, enrolled: seq<PeerKey>)
    requires ListsKeys(keys, enrolled)
    ensures enrolled == [] <==> keys == map[]
    ensures (forall i | 0 <= i < |enrolled| :: enrolled[i].AgentSeparated())
            <==> forall k | k in keys :: keys[k].signerPosture >= 2
  {
    if keys != map[] {
      var k :| k in keys;
      assert keys[k] in enrolled;
    }
    if enrolled != [] {
      assert enrolled[0] in keys.Values;
    }
    if forall i | 0 <= i < |enrolled| :: enrolled[i].AgentSeparated() {
      forall k | k in keys ensures keys[k].signerPosture >= 2 {
        var i :| 0 <= i < |enrolled| && enrolled[i] == keys[k];
      }
    }
  }

  lemma ListedDeclared(w: World, keys: Enrolment, enrolled: seq<PeerKey>)
    requires ListsKeys(keys, enrolled) && enrolled != [] && forall k | k in keys :: WellFormed(w, keys[k])
    ensures Weakest(EvidenceOf(enrolled)) == Some(Declared)
  {
    var classes := EvidenceOf(enrolled);
    forall c | c in classes ensures c == Declared {
      var i :| 0 <= i < |classes| && classes[i] == c;
      assert enrolled[i] in keys.Values;
      var k :| k in keys && keys[k] == enrolled[i];
      assert WellFormed(w, keys[k]);
    }
    AllDeclared(classes);
  }

  /** The secret can support `signed-lineage`, with declared evidence, iff it enrols a key and all are separated. */
  lemma DeploymentIsDeclared(w: World, loadKey: Json -> Option<seq<byte>>, entries: map<string, Json>, keys: Enrolment,
                             enrolled: seq<PeerKey>)
    requires Enrol(w, loadKey, entries) == Some(keys) && ListsKeys(keys, enrolled)
    ensures DeploymentTier(true, enrolled)
            == if entries != map[] && forall k | k in entries :: SeparatedInSecret(entries, k)
               then SignedLineage(Declared) else Lineage
  {
    SeparatedAsRecorded(w, loadKey, entries, keys);
    EnrolledAreWellFormed(w, loadKey, entries, keys);
    ListedSeparated(keys, enrolled);
    if enrolled != [] {
      ListedDeclared(w, keys, enrolled);
    }
  }
}

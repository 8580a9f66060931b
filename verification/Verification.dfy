/** The receiver's side of chain signatures: the verification loop and custody tiers. */
module Verification {
  import opened Prelude
  import opened Schemas
  import opened Signing

  datatype Custody = Declared | Attested

  const AGENT_SEPARATED_MIN_POSTURE := 2

  /** A peer's verification key, what it may sign for, and its custody record. */
  datatype PeerKey = PeerKey(
    publicKey: seq<byte>,
    zone: string,
    senderIdentities: set<string>,
    signerPosture: int,
    custodyEvidence: Custody)
  {
    predicate AgentSeparated() {
      signerPosture >= AGENT_SEPARATED_MIN_POSTURE
    }
  }

  /** The receiver's enrolled keys, by key id. */
  type Enrolment = map<string, PeerKey>

  /** The reasons verification can give, a part of the drop vocabulary. */
  type ChainReason = r: DropReason |
      r.ChainSignatureMissing? || r.ChainSignatureInvalid? || r.ChainSignerUnknown? witness ChainSignatureMissing

  datatype VerifyResult = VerifyResult(
    ok: bool,
    reason: Option<ChainReason>,
    signerKeyId: Option<string>,
    signerZone: Option<string>,
    detail: Option<Detail>,
    agentSeparated: bool,
    custodyEvidence: Option<Custody>)

  /** A failure: it names a reason and perhaps a detail, never a signer or a custody record. */
  function Failed(reason: ChainReason, detail: Option<Detail>): VerifyResult {
    VerifyResult(false, Some(reason), None, None, detail, false, None)
  }

  /** `weakest_custody_evidence`: the least class present. */
  function Weakest(classes: seq<Custody>): (r: Option<Custody>)
    ensures r.None? <==> classes == []
    ensures r == Some(Declared) <==> Declared in classes
    ensures r == Some(Attested) ==> forall c | c in classes :: c == Attested
  {
    if classes == [] then None
    else
      var rest := Weakest(classes[1..]);
      assert classes == [classes[0]] + classes[1..];
      if classes[0] == Declared || rest == Some(Declared) then Some(Declared)
      else assert forall c | c in classes :: c == Attested; Some(Attested)
  }

  /** The signature primitive on one envelope: does this signature verify under this key? */
  type Primitive = (ChainSignature, PeerKey) -> bool

  /** `_verify_one`: the statement is rebuilt with the signature's own key id and zone. */
  function VerifyOne(w: World, e: Envelope): Primitive {
    (s: ChainSignature, key: PeerKey) =>
      var statement := BuildStatement(w, e, s.keyId, s.zone);
      statement.Some? && w.verifies(key.publicKey, Pae(s.payloadType, statement.value), s.sig)
  }

  /** The failure one signature earns, at its first failing check; none if it passes. */
  function CheckSignature(prim: Primitive, who: string, e: Envelope, keys: Enrolment,
                          s: ChainSignature): Option<VerifyResult> {
    if s.covers != |e.provenance| || s.payloadType != DSSE_PAYLOAD_TYPE then
      Some(Failed(ChainSignatureInvalid, None))
    else if e.provenance[|e.provenance| - 1].zone != s.zone then
      Some(Failed(ChainSignatureInvalid, None))
    else if s.keyId !in keys then
      Some(Failed(ChainSignerUnknown, None))
    else if keys[s.keyId].zone != s.zone then
      Some(Failed(ChainSignatureInvalid, Some(SignerZoneMismatch)))
    else if !prim(s, keys[s.keyId]) then
      Some(Failed(ChainSignatureInvalid, None))
    else if who !in keys[s.keyId].senderIdentities then
      Some(Failed(ChainSignatureInvalid, Some(SignerIdentityOutOfScope)))
    else None
  }

  /** All that one signature must satisfy, as a conjunction with no order. */
  predicate Passes(prim: Primitive, who: string, e: Envelope, keys: Enrolment, s: ChainSignature) {
    && s.covers == |e.provenance|
    && s.payloadType == DSSE_PAYLOAD_TYPE
    && s.keyId in keys
    && s.zone == keys[s.keyId].zone == e.provenance[|e.provenance| - 1].zone
    && prim(s, keys[s.keyId])
    && who in keys[s.keyId].senderIdentities
  }

  predicate AllPass(prim: Primitive, who: string, e: Envelope, keys: Enrolment) {
    && e.chainSignatures != []
    && forall i | 0 <= i < |e.chainSignatures| :: Passes(prim, who, e, keys, e.chainSignatures[i])
  }

  function KeyClasses(keys: Enrolment, signatures: seq<ChainSignature>): (r: seq<Custody>)
    requires forall i | 0 <= i < |signatures| :: signatures[i].keyId in keys
    ensures |r| == |signatures| && forall i | 0 <= i < |r| :: r[i] == keys[signatures[i].keyId].custodyEvidence
  {
    seq(|signatures|, i requires 0 <= i < |signatures| => keys[signatures[i].keyId].custodyEvidence)
  }

  function Verified(keys: Enrolment, signatures: seq<ChainSignature>): VerifyResult
    requires signatures != [] && forall i | 0 <= i < |signatures| :: signatures[i].keyId in keys
  {
    VerifyResult(
      true, None, Some(signatures[0].keyId), Some(signatures[0].zone), None,
      forall i | 0 <= i < |signatures| :: keys[signatures[i].keyId].AgentSeparated(),
      Weakest(KeyClasses(keys, signatures)))
  }

  /** The first failure among `signatures`, scanning left to right. */
  function FirstFailure(prim: Primitive, who: string, e: Envelope, keys: Enrolment,
                        signatures: seq<ChainSignature>): (r: Option<VerifyResult>)
    ensures r.None? <==> forall i | 0 <= i < |signatures| :: Passes(prim, who, e, keys, signatures[i])
    ensures r.Some? ==> exists i | 0 <= i < |signatures| ::
              && r == CheckSignature(prim, who, e, keys, signatures[i])
              && forall j | 0 <= j < i :: Passes(prim, who, e, keys, signatures[j])
  {
    if signatures == [] then None
    else if CheckSignature(prim, who, e, keys, signatures[0]).Some? then
      assert !Passes(prim, who, e, keys, signatures[0]);
      CheckSignature(prim, who, e, keys, signatures[0])
    else
      assert forall i | 0 <= i < |signatures[1..]| :: signatures[1..][i] == signatures[i + 1];
      assert forall i | 1 <= i < |signatures| :: signatures[i] == signatures[1..][i - 1];
      FirstFailure(prim, who, e, keys, signatures[1..])
  }

  /** The verdict for signatures judged by `prim` and a sender whose canonical identity is `who`. */
  function ChainVerdict(prim: Primitive, who: string, e: Envelope, keys: Enrolment): VerifyResult {
    if e.chainSignatures == [] then Failed(ChainSignatureMissing, None)
    else
      var failure := FirstFailure(prim, who, e, keys, e.chainSignatures);
      if failure.Some? then failure.value else Verified(keys, e.chainSignatures)
  }

  /** The loop of `verify_chain`, with its early returns. */
  method VerifyChain(prim: Primitive, who: string, e: Envelope, keys: Enrolment) returns (r: VerifyResult)
    ensures r == ChainVerdict(prim, who, e, keys)
    ensures r.ok <==> AllPass(prim, who, e, keys)
  {
    var signatures := e.chainSignatures;
    if signatures == [] {
      return Failed(ChainSignatureMissing, None);
    }
    var n := |e.provenance|;
    var signingKeys: seq<PeerKey> := [];
    for i := 0 to |signatures|
      invariant |signingKeys| == i
      invariant forall j | 0 <= j < i ::
                  Passes(prim, who, e, keys, signatures[j]) && signingKeys[j] == keys[signatures[j].keyId]
    {
      var s := signatures[i];
      FirstFailureAt(prim, who, e, keys, signatures, i);
      if s.covers != n || s.payloadType != DSSE_PAYLOAD_TYPE {
        return Failed(ChainSignatureInvalid, None);
      }
      if e.provenance[n - 1].zone != s.zone {
        return Failed(ChainSignatureInvalid, None);
      }
      if s.keyId !in keys {
        return Failed(ChainSignerUnknown, None);
      }
      var key := keys[s.keyId];
      if key.zone != s.zone {
        return Failed(ChainSignatureInvalid, Some(SignerZoneMismatch));
      }
      if !prim(s, key) {
        return Failed(ChainSignatureInvalid, None);
      }
      if who !in key.senderIdentities {
        return Failed(ChainSignatureInvalid, Some(SignerIdentityOutOfScope));
      }
      signingKeys := signingKeys + [key];
    }
    var classes := seq(|signingKeys|, i requires 0 <= i < |signingKeys| => signingKeys[i].custodyEvidence);
    var separated := forall i | 0 <= i < |signingKeys| :: signingKeys[i].AgentSeparated();
    assert classes == KeyClasses(keys, signatures);
    r := VerifyResult(true, None, Some(signatures[0].keyId), Some(signatures[0].zone), None, separated,
                        Weakest(classes));
  }

  /** With everything before position `i` passing, the scan's verdict at `i` is that signature's own. */
  lemma {:induction false} FirstFailureAt(prim: Primitive, who: string, e: Envelope, keys: Enrolment,
                                          signatures: seq<ChainSignature>, i: nat)
    requires i < |signatures| && forall j | 0 <= j < i :: Passes(prim, who, e, keys, signatures[j])
    ensures CheckSignature(prim, who, e, keys, signatures[i]).None? <==> Passes(prim, who, e, keys, signatures[i])
    ensures !Passes(prim, who, e, keys, signatures[i]) ==>
              FirstFailure(prim, who, e, keys, signatures) == CheckSignature(prim, who, e, keys, signatures[i])
  {
    if i > 0 {
      assert Passes(prim, who, e, keys, signatures[0]);
      assert forall j | 0 <= j < |signatures[1..]| :: signatures[1..][j] == signatures[j + 1];
      FirstFailureAt(prim, who, e, keys, signatures[1..], i - 1);
    }
  }

  /**
   The verdict is exact. It is a pass iff there is a signature and every one
   passes every check; a refusal carries the reason of the first failing
   signature at its first failing check, and names no signer and no custody.
   */
  lemma VerdictExact(prim: Primitive, who: string, e: Envelope, keys: Enrolment)
    ensures var r := ChainVerdict(prim, who, e, keys);
            && (r.ok <==> AllPass(prim, who, e, keys))
            && (!r.ok ==> r.signerKeyId.None? && r.signerZone.None? && !r.agentSeparated && r.custodyEvidence.None?)
            && (r.reason == Some(ChainSignatureMissing) <==> e.chainSignatures == [])
            && (!r.ok && e.chainSignatures != [] ==>
                  exists i | 0 <= i < |e.chainSignatures| ::
                    && (forall j | 0 <= j < i :: Passes(prim, who, e, keys, e.chainSignatures[j]))
                    && !Passes(prim, who, e, keys, e.chainSignatures[i])
                    && FailsWith(prim, who, e, keys, e.chainSignatures[i], r.reason, r.detail))
  {
    var signatures := e.chainSignatures;
    var failure := FirstFailure(prim, who, e, keys, signatures);
    if signatures != [] && failure.Some? {
      var i :| 0 <= i < |signatures| && failure == CheckSignature(prim, who, e, keys, signatures[i])
               && forall j | 0 <= j < i :: Passes(prim, who, e, keys, signatures[j]);
      FirstFailureAt(prim, who, e, keys, signatures, i);
      assert FailsWith(prim, who, e, keys, signatures[i], failure.value.reason, failure.value.detail);
    }
  }

  /** Reason and detail, read off the checks in their fixed order. */
  predicate FailsWith(prim: Primitive, who: string, e: Envelope, keys: Enrolment, s: ChainSignature,
                      reason: Option<DropReason>, detail: Option<Detail>) {
    var shaped := s.covers == |e.provenance| && s.payloadType == DSSE_PAYLOAD_TYPE
        && e.provenance[|e.provenance| - 1].zone == s.zone;
    var known := shaped && s.keyId in keys;
    var inZone := known && keys[s.keyId].zone == s.zone;
    var signed := inZone && prim(s, keys[s.keyId]);
    && (reason == Some(ChainSignerUnknown) <==> shaped && !known)
    && (reason != Some(ChainSignerUnknown) ==> reason == Some(ChainSignatureInvalid))
    && (detail == Some(SignerZoneMismatch) <==> known && !inZone)
    && (detail == Some(SignerIdentityOutOfScope) <==> signed)
    && (detail.Some? ==> detail.value == SignerZoneMismatch || detail.value == SignerIdentityOutOfScope)
  }

  /** `verify_chain` as the airlock's gate calls it. */
  function Gate(w: World, keys: Enrolment): Envelope -> VerifyResult {
    (e: Envelope) => ChainVerdict(VerifyOne(w, e), w.canonical(e.sender.channelIdentity), e, keys)
  }

  // Custody tiers

  /** A provenance maturity; the higher one always carries the evidence class under it. */
  datatype Tier = Lineage | SignedLineage(evidence: Custody)

  predicate AtLeast(a: Tier, b: Tier) {
    b.Lineage? || (a.SignedLineage? && (b.evidence == Declared || a.evidence == Attested))
  }

  function EvidenceOf(keys: seq<PeerKey>): (r: seq<Custody>)
    ensures |r| == |keys| && forall i | 0 <= i < |r| :: r[i] == keys[i].custodyEvidence
  {
    seq(|keys|, i requires 0 <= i < |keys| => keys[i].custodyEvidence)
  }

  function DeploymentTier(verificationConfigured: bool, enrolled: seq<PeerKey>): Tier {
    if !verificationConfigured || enrolled == [] then Lineage
    else if !(forall i | 0 <= i < |enrolled| :: enrolled[i].AgentSeparated()) then Lineage
    else SignedLineage(Weakest(EvidenceOf(enrolled)).value)
  }

  function EnvelopeTier(result: Option<VerifyResult>): Tier {
    if result.None? || !result.value.ok || !result.value.agentSeparated || result.value.custodyEvidence.None?
    then Lineage
    else SignedLineage(result.value.custodyEvidence.value)
  }

  /** A pass names the first signature's key and zone, and sums up the custody of every signing key. */
  lemma PassNames(prim: Primitive, who: string, e: Envelope, keys: Enrolment)
    requires ChainVerdict(prim, who, e, keys).ok
    ensures e.chainSignatures != [] && forall i | 0 <= i < |e.chainSignatures| :: e.chainSignatures[i].keyId in keys
    ensures var r, signatures := ChainVerdict(prim, who, e, keys), e.chainSignatures;
            && r.signerKeyId == Some(signatures[0].keyId) && r.signerZone == Some(signatures[0].zone)
            && r.reason == None && r.detail == None
            && (r.agentSeparated <==> forall i | 0 <= i < |signatures| :: keys[signatures[i].keyId].signerPosture >= 2)
            && r.custodyEvidence
               == Some(if exists i :: 0 <= i < |signatures| && keys[signatures[i].keyId].custodyEvidence == Declared
                       then Declared else Attested)
  {
    var signatures := e.chainSignatures;
    VerdictExact(prim, who, e, keys);
    assert forall i | 0 <= i < |signatures| :: Passes(prim, who, e, keys, signatures[i]);
    var classes := KeyClasses(keys, signatures);
    if Declared in classes {
      var i :| 0 <= i < |classes| && classes[i] == Declared;
      assert keys[signatures[i].keyId].custodyEvidence == Declared;
    }
    assert forall i | 0 <= i < |signatures| && keys[signatures[i].keyId].custodyEvidence == Declared ::
        classes[i] == Declared;
  }

  /** A deployment is `signed-lineage` iff verifying, enrolling a key and all separated; evidence is the weakest. */
  lemma DeploymentExact(configured: bool, enrolled: seq<PeerKey>)
    ensures var separated := forall k | k in enrolled :: k.signerPosture >= 2;
            DeploymentTier(configured, enrolled)
            == if !configured || enrolled == [] || !separated then Lineage
               else if exists k :: k in enrolled && k.custodyEvidence == Declared then SignedLineage(Declared)
               else SignedLineage(Attested)
  {
    var classes := EvidenceOf(enrolled);
    assert forall i | 0 <= i < |enrolled| :: enrolled[i] in enrolled;
    if Declared in classes {
      var i :| 0 <= i < |classes| && classes[i] == Declared;
      assert enrolled[i].custodyEvidence == Declared;
    }
    if k :| k in enrolled && k.custodyEvidence == Declared {
      var i :| 0 <= i < |enrolled| && enrolled[i] == k;
      assert classes[i] == Declared;
    }
  }

  /** One envelope is `signed-lineage` iff the gate ran and passed with every signing key separated. */
  lemma EnvelopeExact(result: Option<VerifyResult>)
    ensures EnvelopeTier(result).SignedLineage?
            <==> result.Some? && result.value.ok && result.value.agentSeparated && result.value.custodyEvidence.Some?
    ensures EnvelopeTier(result).SignedLineage? ==> Some(EnvelopeTier(result).evidence) == result.value.custodyEvidence
  {
  }

  /** What one verified envelope supports is never below what the whole enrolment supports. */
  lemma EnvelopeMeetsDeployment(prim: Primitive, who: string, e: Envelope, keys: Enrolment, enrolled: seq<PeerKey>)
    requires forall k | k in keys :: keys[k] in enrolled
    requires DeploymentTier(true, enrolled).SignedLineage?
    requires ChainVerdict(prim, who, e, keys).ok
    ensures AtLeast(EnvelopeTier(Some(ChainVerdict(prim, who, e, keys))), DeploymentTier(true, enrolled))
    ensures EnvelopeTier(Some(ChainVerdict(prim, who, e, keys))).SignedLineage?
  {
    var signatures := e.chainSignatures;
    var classes := KeyClasses(keys, signatures);
    forall i | 0 <= i < |signatures|
      ensures keys[signatures[i].keyId].AgentSeparated() && classes[i] in EvidenceOf(enrolled)
    {
      assert Passes(prim, who, e, keys, signatures[i]);
      var n :| 0 <= n < |enrolled| && enrolled[n] == keys[signatures[i].keyId];
      assert EvidenceOf(enrolled)[n] == classes[i];
    }
  }

  /** Enrolling more keys never raises a non-empty deployment's tier or its evidence. */
  lemma EnrollingNeverRaises(configured: bool, enrolled: seq<PeerKey>, more: seq<PeerKey>)
    requires enrolled != []
    ensures AtLeast(DeploymentTier(configured, enrolled), DeploymentTier(configured, enrolled + more))
  {
    var all := enrolled + more;
    assert forall i | 0 <= i < |enrolled| :: all[i] == enrolled[i];
    var a, b := EvidenceOf(enrolled), EvidenceOf(all);
    if Declared in a {
      var i :| 0 <= i < |a| && a[i] == Declared;
      assert b[i] == Declared;
    }
  }
}

/** The airlock dispatcher: eight gates in a fixed order over a dedupe store and two record sinks. */
module Dispatch {
  import opened Prelude
  import opened Schemas
  import opened TrustMap
  import opened Verification

  datatype Request = Request(headers: map<string, string>, body: string)

  /** The channel-specific edge. An absent result is an exception the dispatcher catches. */
  datatype Adapter = Adapter(
    channelType: string,
    verifyToken: Request -> bool,
    extractIdentity: Request -> Option<string>,
    normalize: Request -> Option<Envelope>,
    originatesEnvelope: bool,
    credentialPerSender: bool)

  datatype Refusal = Permanent | Transient

  /** The stamped envelope on acceptance, and the refusal class the sender is told. */
  datatype Outcome = Outcome(envelope: Option<Envelope>, refusal: Option<Refusal>)

  const SILENT := Outcome(None, None)

  datatype DropRecord = DropRecord(
    channelType: string,
    identityDigest: string,
    reason: DropReason,
    ts: string,
    detail: Option<Detail>,
    chainVerified: bool,
    signerKeyId: Option<string>)

  datatype ScreenRecord = ScreenRecord(
    channelType: string,
    identityDigest: string,
    eventId: string,
    passed: bool,
    reason: Option<Detail>,
    ts: string,
    chainVerified: bool,
    signerKeyId: Option<string>)

  /** A screen raises, answers with a bare boolean, or gives a verdict; only a refusing verdict has a reason. */
  datatype ScreenAnswer = Raised | Plain(b: bool) | Pass | Refuse(why: Detail) {
    predicate Passed() {
      Pass? || (Plain? && b)
    }

    function Reason(): Option<Detail> {
      match this
      case Raised => Some(ScreenError)
      case Refuse(why) => Some(why)
      case _ => None
    }
  }

  type Screen = Envelope -> ScreenAnswer

  /** How the dedupe store behaves for one call; a failing write may have landed anyway. */
  datatype StoreHealth = Healthy | ReadFails | WriteFails(landed: bool)

  /** What is fixed for one airlock. */
  datatype Config = Config(
    world: World,
    adapter: Adapter,
    trustMap: seq<Entry>,
    verify: Option<Envelope -> VerifyResult>,
    verdictSink: bool,
    zone: string,
    skew: Skew)

  /** What varies per call: the request, the instant, the screen and what was unavailable. */
  datatype Arrival = Arrival(
    request: Request,
    now: nat,
    keySourceDown: bool,
    store: StoreHealth,
    screen: Option<Screen>)

  /** What the signature gate established; nothing if it was off or skipped. */
  datatype Checks = Checks(chainVerified: bool, signerKeyId: Option<string>, custody: Option<Custody>)

  const UNCHECKED := Checks(false, None, None)

  function Record(cfg: Config, arr: Arrival, identity: string, reason: DropReason, detail: Option<Detail>,
                  checks: Checks): DropRecord {
    DropRecord(cfg.adapter.channelType, DigestIdentity(cfg.world, identity), reason, cfg.world.iso(arr.now),
               detail, checks.chainVerified, checks.signerKeyId)
  }

  /** Whether a refusal is classed for this sender at all. */
  predicate Mapped(cfg: Config, identity: string) {
    cfg.adapter.credentialPerSender && Resolve(cfg.trustMap, cfg.adapter.channelType, identity).Some?
  }

  function Told(cfg: Config, identity: string, refusal: Refusal): Option<Refusal> {
    if Mapped(cfg, identity) then Some(refusal) else None
  }

  // The gates before the store: no state is read or written

  /** Gates 1 and 2: the identity the request is authenticated as. */
  function Authenticated(cfg: Config, arr: Arrival): Option<string> {
    if cfg.adapter.verifyToken(arr.request) then cfg.adapter.extractIdentity(arr.request) else None
  }

  datatype Shaped = Shaped(envelope: Envelope) | Misshaped(reason: DropReason, detail: Option<Detail>)

  /** Gate 3: schema, receiver-owned field, forwardability, sender binding, audience. */
  function Shape(cfg: Config, request: Request, identity: string): Shaped {
    match cfg.adapter.normalize(request)
    case None => Misshaped(Malformed, None)
    case Some(parsed) =>
      var e := parsed.(senderClass := None);
      if ToWire(cfg.world, e).None? then Misshaped(Malformed, Some(NotForwardable))
      else if e.sender.channelIdentity != identity then Misshaped(Malformed, Some(SenderIdentityMismatch))
      else if e.audience != cfg.zone then Misshaped(AudienceMismatch, None)
      else Shaped(e)
  }

  predicate GateRuns(cfg: Config) {
    cfg.verify.Some? && !cfg.adapter.originatesEnvelope
  }

  /** What a passing signature gate hands on. */
  function Established(r: VerifyResult): Checks {
    Checks(true, r.signerKeyId, if r.agentSeparated then r.custodyEvidence else None)
  }

  datatype Judgement =
    | Turned(record: DropRecord, refusal: Option<Refusal>)
    | Cleared(identity: string, envelope: Envelope, resolution: Resolution, checks: Checks)

  /** Gates 4 and 5 on a shaped envelope. */
  function Admit(cfg: Config, arr: Arrival, identity: string, e: Envelope, checks: Checks): Judgement {
    var told := Told(cfg, identity, Permanent);
    if IsExpired(cfg.world, e, arr.now, cfg.skew) then Turned(Record(cfg, arr, identity, Expired, None, checks), told)
    else
      match Resolve(cfg.trustMap, cfg.adapter.channelType, identity)
      case None => Turned(Record(cfg, arr, identity, Unmapped, None, checks), told)
      case Some(resolution) =>
        if resolution.principal != e.principal then
          Turned(Record(cfg, arr, identity, PrincipalMismatch, None, checks), told)
        else Cleared(identity, e, resolution, checks)
  }

  /** Gate 3.5, then gates 4 and 5. */
  function Verify(cfg: Config, arr: Arrival, identity: string, e: Envelope): Judgement {
    if !GateRuns(cfg) then Admit(cfg, arr, identity, e, UNCHECKED)
    else if arr.keySourceDown then
      Turned(Record(cfg, arr, identity, NotEvaluated, Some(KeySource), UNCHECKED), Told(cfg, identity, Transient))
    else
      var r := cfg.verify.value(e);
      if !r.ok then
        var reason := if r.reason.Some? then r.reason.value else ChainSignatureInvalid;
        Turned(Record(cfg, arr, identity, reason, r.detail, UNCHECKED), Told(cfg, identity, Permanent))
      else Admit(cfg, arr, identity, e, Established(r))
  }

  /** Everything ahead of the dedupe store. It depends on this one arrival and no history. */
  function Judge(cfg: Config, arr: Arrival): Judgement {
    if !cfg.adapter.verifyToken(arr.request) then
      Turned(Record(cfg, arr, "", AuthenticityFailed, None, UNCHECKED), None)
    else
      match cfg.adapter.extractIdentity(arr.request)
      case None => Turned(Record(cfg, arr, "", Malformed, None, UNCHECKED), None)
      case Some(identity) =>
        match Shape(cfg, arr.request, identity)
        case Misshaped(reason, detail) =>
          Turned(Record(cfg, arr, identity, reason, detail, UNCHECKED), Told(cfg, identity, Permanent))
        case Shaped(e) => Verify(cfg, arr, identity, e)
  }

  // The store, the screen and the stamp

  /** What one dispatch adds to the store and the sinks, and what it answers. */
  datatype Effect = Effect(claims: set<DedupeKey>, drops: seq<DropRecord>, verdicts: seq<ScreenRecord>,
                           outcome: Outcome)

  function Evidence(checks: Checks): seq<string> {
    ["token:pass"]
    + (if !checks.chainVerified then [] else
       ["sig:pass"] + (match checks.custody
                       case None => []
                       case Some(Declared) => ["custody:declared"]
                       case Some(Attested) => ["custody:attested"]))
  }

  function Stamp(cfg: Config, arr: Arrival, e: Envelope, resolution: Resolution, checks: Checks): Envelope {
    StampInbound(e, resolution, cfg.zone, "channel:" + cfg.adapter.channelType, Evidence(checks),
                 cfg.world.iso(arr.now))
  }

  function ScreenRecordOf(cfg: Config, arr: Arrival, j: Judgement, answer: ScreenAnswer): ScreenRecord
    requires j.Cleared?
  {
    ScreenRecord(cfg.adapter.channelType, DigestIdentity(cfg.world, j.identity), j.envelope.eventId, answer.Passed(),
                 answer.Reason(), cfg.world.iso(arr.now), j.checks.chainVerified, j.checks.signerKeyId)
  }

  /** Gates 7 and 8 for a freshly claimed key. */
  function ScreenAndStamp(cfg: Config, arr: Arrival, j: Judgement): Effect
    requires j.Cleared?
  {
    var key := j.envelope.DedupeKey();
    var accepted := Outcome(Some(Stamp(cfg, arr, j.envelope, j.resolution, j.checks)), None);
    match arr.screen
    case None => Effect({key}, [], [], accepted)
    case Some(screen) =>
      var answer := screen(j.envelope);
      var verdicts := if cfg.verdictSink then [ScreenRecordOf(cfg, arr, j, answer)] else [];
      if answer.Passed() then Effect({key}, [], verdicts, accepted)
      else Effect({key}, [Record(cfg, arr, j.identity, ScreenRefused, answer.Reason(), j.checks)], verdicts, SILENT)
  }

  /** Gate 6 and what follows it. */
  function Settle(cfg: Config, dedupe: set<DedupeKey>, arr: Arrival, j: Judgement): Effect
    requires j.Cleared?
  {
    var key := j.envelope.DedupeKey();
    var unavailable := [Record(cfg, arr, j.identity, NotEvaluated, Some(DedupeStore), j.checks)];
    var transient := Outcome(None, Told(cfg, j.identity, Transient));
    if arr.store.ReadFails? then Effect({}, unavailable, [], transient)
    else if key in dedupe then Effect({}, [], [], SILENT)
    else if arr.store.WriteFails? then Effect(if arr.store.landed then {key} else {}, unavailable, [], transient)
    else ScreenAndStamp(cfg, arr, j)
  }

  function Step(cfg: Config, dedupe: set<DedupeKey>, arr: Arrival): Effect {
    var j := Judge(cfg, arr);
    if j.Turned? then Effect({}, [j.record], [], Outcome(None, j.refusal)) else Settle(cfg, dedupe, arr, j)
  }

  /** The airlock's mutable state: the dedupe store and the two append-only sinks. */
  class Airlock {
    var dedupe: set<DedupeKey>
    var drops: seq<DropRecord>
    var verdicts: seq<ScreenRecord>

    constructor ()
      ensures dedupe == {} && drops == [] && verdicts == []
    {
      dedupe, drops, verdicts := {}, [], [];
    }

    /** The `refuse` closure: one drop record, and the class if the sender is owed one. */
    method Refused(cfg: Config, arr: Arrival, identity: string, reason: DropReason, refusal: Refusal,
                   detail: Option<Detail>, checks: Checks) returns (out: Outcome)
      modifies this`drops
      ensures drops == old(drops) + [Record(cfg, arr, identity, reason, detail, checks)]
      ensures out == Outcome(None, Told(cfg, identity, refusal))
    {
      drops := drops + [Record(cfg, arr, identity, reason, detail, checks)];
      out := Outcome(None, Told(cfg, identity, refusal));
    }

    /** Gates 1 to 5, with early returns. A missing envelope means the outcome is final. */
    method Screenable(cfg: Config, arr: Arrival) returns (out: Outcome, cleared: Option<Judgement>)
      modifies this`drops
      ensures var j := Judge(cfg, arr);
              if j.Turned? then drops == old(drops) + [j.record] && out == Outcome(None, j.refusal) && cleared.None?
              else drops == old(drops) && cleared == Some(j)
    {
      cleared := None;
      if !cfg.adapter.verifyToken(arr.request) {
        drops := drops + [Record(cfg, arr, "", AuthenticityFailed, None, UNCHECKED)];
        return SILENT, None;
      }
      var extracted := cfg.adapter.extractIdentity(arr.request);
      if extracted.None? {
        drops := drops + [Record(cfg, arr, "", Malformed, None, UNCHECKED)];
        return SILENT, None;
      }
      var identity := extracted.value;
      var normalized := cfg.adapter.normalize(arr.request);
      if normalized.None? {
        out := Refused(cfg, arr, identity, Malformed, Permanent, None, UNCHECKED);
        return;
      }
      var envelope := normalized.value;
      if envelope.senderClass != None {
        envelope := envelope.(senderClass := None);
      }
      assert envelope == normalized.value.(senderClass := None);
      if ToWire(cfg.world, envelope).None? {
        out := Refused(cfg, arr, identity, Malformed, Permanent, Some(NotForwardable), UNCHECKED);
        return;
      }
      if envelope.sender.channelIdentity != identity {
        out := Refused(cfg, arr, identity, Malformed, Permanent, Some(SenderIdentityMismatch), UNCHECKED);
        return;
      }
      if envelope.audience != cfg.zone {
        out := Refused(cfg, arr, identity, AudienceMismatch, Permanent, None, UNCHECKED);
        return;
      }
      var checks := UNCHECKED;
      if cfg.verify.Some? && !cfg.adapter.originatesEnvelope {
        if arr.keySourceDown {
          out := Refused(cfg, arr, identity, NotEvaluated, Transient, Some(KeySource), UNCHECKED);
          return;
        }
        var r := cfg.verify.value(envelope);
        if !r.ok {
          var reason := if r.reason.Some? then r.reason.value else ChainSignatureInvalid;
          out := Refused(cfg, arr, identity, reason, Permanent, r.detail, UNCHECKED);
          return;
        }
        checks := Established(r);
      }
      if IsExpired(cfg.world, envelope, arr.now, cfg.skew) {
        out := Refused(cfg, arr, identity, Expired, Permanent, None, checks);
        return;
      }
      var resolution := Lookup(cfg.trustMap, cfg.adapter.channelType, identity);
      if resolution.None? {
        out := Refused(cfg, arr, identity, Unmapped, Permanent, None, checks);
        return;
      }
      if resolution.value.principal != envelope.principal {
        out := Refused(cfg, arr, identity, PrincipalMismatch, Permanent, None, checks);
        return;
      }
      out, cleared := SILENT, Some(Cleared(identity, envelope, resolution.value, checks));
    }

    /** `dispatch_outcome`: the fixed gate order, refining `Step`. */
    method Dispatch(cfg: Config, arr: Arrival) returns (out: Outcome)
      modifies this
      ensures var effect := Step(cfg, old(dedupe), arr);
              && out == effect.outcome
              && dedupe == old(dedupe) + effect.claims
              && drops == old(drops) + effect.drops
              && verdicts == old(verdicts) + effect.verdicts
    {
      var answer, cleared := Screenable(cfg, arr);
      if cleared.None? {
        return answer;
      }
      var j := cleared.value;
      var key := j.envelope.DedupeKey();
      if arr.store.ReadFails? {
        out := Refused(cfg, arr, j.identity, NotEvaluated, Transient, Some(DedupeStore), j.checks);
        return;
      }
      if key in dedupe {
        return SILENT;
      }
      if !arr.store.WriteFails? || arr.store.landed {
        dedupe := dedupe + {key};
      }
      if arr.store.WriteFails? {
        out := Refused(cfg, arr, j.identity, NotEvaluated, Transient, Some(DedupeStore), j.checks);
        return;
      }
      if arr.screen.Some? {
        var verdict := arr.screen.value(j.envelope);
        if cfg.verdictSink {
          verdicts := verdicts + [ScreenRecordOf(cfg, arr, j, verdict)];
        }
        if !verdict.Passed() {
          drops := drops + [Record(cfg, arr, j.identity, ScreenRefused, verdict.Reason(), j.checks)];
          return SILENT;
        }
      }
      out := Outcome(Some(Stamp(cfg, arr, j.envelope, j.resolution, j.checks)), None);
    }
  }
}

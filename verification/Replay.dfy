/** The replay bound of a verifying airlock whose dedupe rows expire. */
module Replay {
  import opened Prelude
  import opened Schemas
  import opened Verification
  import opened Dispatch
  import opened Runs
  import opened Stores
  import opened Authenticity

  /** The effects of the deliveries of a run in which rows may vanish between them. */
  function Effects(cfg: Config, ttlDays: int, st: Clocked, events: seq<Event>): seq<Effect>
    decreases |events|
  {
    if events == [] then []
    else
      var rest := Effects(cfg, ttlDays, Next(cfg, ttlDays, st, events[0]), events[1..]);
      if events[0].Deliver? then [Step(cfg, st.table.Keys, events[0].arr)] + rest else rest
  }

  /** Every envelope signed for this zone under `key` has expired once the clock is at `ttl`, given the skew. */
  ghost predicate ExpiresWithin(cfg: Config, log: set<Signed>, key: DedupeKey, ttl: int) {
    forall s | s in log && s.envelope.audience == cfg.zone && PairOf(cfg.world, s) == key ::
      cfg.world.instant(s.envelope.expiry) < ttl * MICROS + cfg.skew
  }

  /** At each claim, whatever is signed under its key expires within the ttl the claim records. */
  ghost predicate ClaimsOutlive(cfg: Config, log: set<Signed>, ttlDays: int, st: Clocked, events: seq<Event>)
    decreases |events|
  {
    events == [] ||
    (&& (events[0].Deliver? ==>
           forall k | k in Step(cfg, st.table.Keys, events[0].arr).claims ::
             ExpiresWithin(cfg, log, k, Ttl(events[0].arr.now, ttlDays)))
     && ClaimsOutlive(cfg, log, ttlDays, Next(cfg, ttlDays, st, events[0]), events[1..]))
  }

  /** What the bound assumes of the airlock and of signatures. */
  ghost predicate Guarded(cfg: Config, keys: Enrolment, log: set<Signed>) {
    Verifying(cfg, keys) && Unforgeable(cfg.world, log) && Canonicalizes(cfg)
  }

  /** A key whose signed envelopes expire within its row's ttl is not accepted again while that row's claim stands. */
  lemma NotAcceptedHere(cfg: Config, keys: Enrolment, log: set<Signed>, st: Clocked, arr: Arrival, key: DedupeKey,
                        ttl: int)
    requires Guarded(cfg, keys, log) && HeldOrPast(st, key, ttl) && arr.now >= st.now
    requires ExpiresWithin(cfg, log, key, ttl)
    ensures var e := Step(cfg, st.table.Keys, arr).outcome.envelope; e.Some? ==> e.value.DedupeKey() != key
  {
    if Step(cfg, st.table.Keys, arr).outcome.envelope.Some? {
      AcceptedIsStamped(cfg, st.table.Keys, arr);
      ClearedMeans(cfg, arr);
      var s := AcceptedHasSource(cfg, keys, log, st.table.Keys, arr);
    }
  }

  lemma HeldOrPastNext(cfg: Config, ttlDays: int, st: Clocked, event: Event, key: DedupeKey, ttl: int)
    requires Legal(st, event) && HeldOrPast(st, key, ttl)
    ensures HeldOrPast(Next(cfg, ttlDays, st, event), key, ttl)
  {
  }

  lemma {:induction false} NotAcceptedAgain(cfg: Config, keys: Enrolment, log: set<Signed>, ttlDays: int, st: Clocked,
                                            events: seq<Event>, key: DedupeKey, ttl: int)
    requires Guarded(cfg, keys, log) && LegalRun(cfg, ttlDays, st, events)
    requires HeldOrPast(st, key, ttl) && ExpiresWithin(cfg, log, key, ttl)
    ensures key !in AcceptedKeys(Effects(cfg, ttlDays, st, events))
    decreases |events|
  {
    if events != [] {
      var next := Next(cfg, ttlDays, st, events[0]);
      HeldOrPastNext(cfg, ttlDays, st, events[0], key, ttl);
      NotAcceptedAgain(cfg, keys, log, ttlDays, next, events[1..], key, ttl);
      if events[0].Deliver? {
        NotAcceptedHere(cfg, keys, log, st, events[0].arr, key, ttl);
        KeysCons(Step(cfg, st.table.Keys, events[0].arr), Effects(cfg, ttlDays, next, events[1..]));
      }
    }
  }

  /** The accepted keys of one effect and then the rest. */
  lemma KeysCons(e: Effect, rest: seq<Effect>)
    ensures AcceptedKeys([e] + rest)
            == (if e.outcome.envelope.Some? then [e.outcome.envelope.value.DedupeKey()] else []) + AcceptedKeys(rest)
  {
    assert ([e] + rest)[1..] == rest;
  }

  lemma {:induction false} AcceptedOnceInTime(cfg: Config, keys: Enrolment, log: set<Signed>, ttlDays: int, st: Clocked,
                                              events: seq<Event>)
    requires Guarded(cfg, keys, log) && LegalRun(cfg, ttlDays, st, events)
    requires ClaimsOutlive(cfg, log, ttlDays, st, events)
    ensures var accepted := AcceptedKeys(Effects(cfg, ttlDays, st, events));
            Distinct(accepted) && forall k | k in accepted :: k in SignedPairs(cfg.world, log, cfg.zone)
    decreases |events|
  {
    if events != [] {
      var next := Next(cfg, ttlDays, st, events[0]);
      var rest := Effects(cfg, ttlDays, next, events[1..]);
      AcceptedOnceInTime(cfg, keys, log, ttlDays, next, events[1..]);
      if events[0].Deliver? {
        var arr := events[0].arr;
        var effect := Step(cfg, st.table.Keys, arr);
        KeysCons(effect, rest);
        if effect.outcome.envelope.Some? {
          AcceptedIsStamped(cfg, st.table.Keys, arr);
          AcceptedKeyWasSigned(cfg, keys, log, st.table.Keys, arr);
          var key := effect.outcome.envelope.value.DedupeKey();
          assert key in effect.claims && next.table[key] == Ttl(arr.now, ttlDays);
          NotAcceptedAgain(cfg, keys, log, ttlDays, next, events[1..], key, Ttl(arr.now, ttlDays));
        }
      }
    }
  }

  /**
   The replay bound despite expiring rows. Over any legal run, if whatever is
   signed under a claimed key expires before the claim's ttl plus the skew, no key
   is accepted twice and acceptances never outnumber the pairs signed for this
   zone.
   */
  lemma AcceptancesBoundedInTime(cfg: Config, keys: Enrolment, log: set<Signed>, ttlDays: int, st: Clocked,
                                 events: seq<Event>)
    requires Guarded(cfg, keys, log) && LegalRun(cfg, ttlDays, st, events)
    requires ClaimsOutlive(cfg, log, ttlDays, st, events)
    ensures var effects := Effects(cfg, ttlDays, st, events);
            && Distinct(AcceptedKeys(effects))
            && Count(effects, ACCEPTANCES) <= |SignedPairs(cfg.world, log, cfg.zone)|
  {
    var effects := Effects(cfg, ttlDays, st, events);
    AcceptedOnceInTime(cfg, keys, log, ttlDays, st, events);
    DistinctBounded(AcceptedKeys(effects), SignedPairs(cfg.world, log, cfg.zone));
    AcceptedKeysCount(effects);
  }
}

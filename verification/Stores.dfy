/** The durable dedupe store: its table, and how long "at most once" lasts when items expire. */
module Stores {
  import opened Text
  import opened Schemas
  import opened Dispatch
  import opened Runs

  const SECONDS_PER_DAY := 86400
  const MICROS := 1_000_000

  /** The primary key: the digest of the identity, a `#`, the event id. */
  function Pk(w: World, key: DedupeKey): string {
    DigestIdentity(w, key.0) + "#" + key.1
  }

  /** Whole epoch seconds of the clock, plus the configured days. */
  function Ttl(now: nat, ttlDays: int): int {
    now / MICROS + ttlDays * SECONDS_PER_DAY
  }

  /** A claim of `d` days lasts `d` days of 86400 seconds from the clock, rounded down to a whole second. */
  lemma TtlExact(now: nat, d: int)
    ensures Ttl(now, d) * 1_000_000 <= now + d * 86_400_000_000 < (Ttl(now, d) + 1) * 1_000_000
    ensures Ttl(now, d) * MICROS == now - now % 1_000_000 + d * 86_400_000_000
  {
    assert now == now / 1_000_000 * 1_000_000 + now % 1_000_000;
  }

  /** Two dedupe keys never share a row, whatever an event id contains, if their digests are told apart. */
  lemma PkInjective(w: World, k: DedupeKey, l: DedupeKey)
    requires '#' !in w.sha256(Utf8(k.0)) && '#' !in w.sha256(Utf8(l.0))
    requires w.sha256(Utf8(k.0)) == w.sha256(Utf8(l.0)) ==> k.0 == l.0
    ensures Pk(w, k) == Pk(w, l) <==> k == l
  {
    if Pk(w, k) == Pk(w, l) {
      var a, b := w.sha256(Utf8(k.0)), w.sha256(Utf8(l.0));
      SplitAtFirst("sha256:" + a, "sha256:" + b, k.1, l.1, '#');
      assert a == ("sha256:" + a)[7..] == ("sha256:" + b)[7..] == b;
    }
  }

  class DynamoDbDedupeStore {
    var table: map<string, int>
    const ttlDays: int

    constructor (ttlDays: int)
      ensures table == map[] && this.ttlDays == ttlDays
    {
      table := map[];
      this.ttlDays := ttlDays;
    }

    /** A strongly consistent read of the row. */
    predicate Contains(w: World, key: DedupeKey)
      reads this
    {
      Pk(w, key) in table
    }

    /** A conditional put whose failed condition is swallowed: a row, once written, keeps its ttl. */
    method Add(w: World, key: DedupeKey, clock: nat)
      modifies this`table
      ensures Contains(w, key)
      ensures table == if Pk(w, key) in old(table) then old(table) else old(table)[Pk(w, key) := Ttl(clock, ttlDays)]
    {
      var pk := Pk(w, key);
      if pk !in table {
        table := table[pk := Ttl(clock, ttlDays)];
      }
    }
  }

  // Runs in which rows vanish

  /** A delivery, or the service deleting a row at an instant of its choosing. */
  datatype Event = Deliver(arr: Arrival) | Vanish(key: DedupeKey, at: nat) {
    function Time(): nat {
      if Deliver? then arr.now else at
    }
  }

  /** The rows by dedupe key (`PkInjective`), and the latest instant seen. */
  datatype Clocked = Clocked(table: map<DedupeKey, int>, now: nat)

  /** Time never goes backwards, and a row may vanish at any instant from its ttl on. */
  predicate Legal(st: Clocked, event: Event) {
    && event.Time() >= st.now
    && (event.Vanish? ==> event.key in st.table && event.at >= st.table[event.key] * MICROS)
  }

  function Claim(table: map<DedupeKey, int>, claims: set<DedupeKey>, ttl: int): map<DedupeKey, int> {
    map k | k in table.Keys + claims :: if k in table then table[k] else ttl
  }

  function Next(cfg: Config, ttlDays: int, st: Clocked, event: Event): Clocked {
    match event
    case Deliver(arr) =>
      Clocked(Claim(st.table, Step(cfg, st.table.Keys, arr).claims, Ttl(arr.now, ttlDays)), arr.now)
    case Vanish(key, at) => Clocked(st.table - {key}, at)
  }

  predicate LegalRun(cfg: Config, ttlDays: int, st: Clocked, events: seq<Event>)
    decreases |events|
  {
    events == [] || (Legal(st, events[0]) && LegalRun(cfg, ttlDays, Next(cfg, ttlDays, st, events[0]), events[1..]))
  }

  function Final(cfg: Config, ttlDays: int, st: Clocked, events: seq<Event>): Clocked
    decreases |events|
  {
    if events == [] then st else Final(cfg, ttlDays, Next(cfg, ttlDays, st, events[0]), events[1..])
  }

  /** Either the row claimed with `ttl` is still there, or the clock has reached that ttl. */
  predicate HeldOrPast(st: Clocked, key: DedupeKey, ttl: int) {
    (key in st.table && st.table[key] == ttl) || st.now >= ttl * MICROS
  }

  lemma {:induction false} HeldOrPastForever(cfg: Config, ttlDays: int, st: Clocked, events: seq<Event>, key: DedupeKey,
                                             ttl: int)
    requires LegalRun(cfg, ttlDays, st, events) && HeldOrPast(st, key, ttl)
    ensures HeldOrPast(Final(cfg, ttlDays, st, events), key, ttl)
    decreases |events|
  {
    if events != [] {
      assert HeldOrPast(Next(cfg, ttlDays, st, events[0]), key, ttl);
      HeldOrPastForever(cfg, ttlDays, Next(cfg, ttlDays, st, events[0]), events[1..], key, ttl);
    }
  }

  /** Whoever is accepted under a key claimed earlier carries an expiry past that claim's ttl. */
  lemma ReacceptanceNeedsLateExpiry(cfg: Config, ttlDays: int, st: Clocked, events: seq<Event>, key: DedupeKey,
                                    ttl: int, arr: Arrival)
    requires LegalRun(cfg, ttlDays, st, events) && HeldOrPast(st, key, ttl)
    requires arr.now >= Final(cfg, ttlDays, st, events).now
    requires Step(cfg, Final(cfg, ttlDays, st, events).table.Keys, arr).outcome.envelope.Some?
    requires Judge(cfg, arr).Cleared? && Judge(cfg, arr).envelope.DedupeKey() == key
    ensures cfg.world.instant(Judge(cfg, arr).envelope.expiry) >= ttl * MICROS + cfg.skew
  {
    HeldOrPastForever(cfg, ttlDays, st, events, key, ttl);
    AcceptedIsStamped(cfg, Final(cfg, ttlDays, st, events).table.Keys, arr);
    ClearedMeans(cfg, arr);
  }

  /** After `first` was accepted, some legal continuation accepts the same request again. */
  ghost predicate AcceptedAgain(cfg: Config, ttlDays: int, st: Clocked, first: Arrival) {
    exists events: seq<Event>, later: nat ::
      var start := Next(cfg, ttlDays, st, Deliver(first));
      && LegalRun(cfg, ttlDays, start, events)
      && later >= Final(cfg, ttlDays, start, events).now
      && Step(cfg, Final(cfg, ttlDays, start, events).table.Keys, first.(now := later)).outcome.envelope.Some?
  }

  /** The instant decides only expiry. */
  lemma JudgedLater(cfg: Config, arr: Arrival, later: nat)
    requires Judge(cfg, arr).Cleared?
    ensures Judge(cfg, arr.(now := later)).Cleared?
            <==> !IsExpired(cfg.world, Judge(cfg, arr).envelope, later, cfg.skew)
    ensures Judge(cfg, arr.(now := later)).Cleared? ==> Judge(cfg, arr.(now := later)) == Judge(cfg, arr)
  {
    ClearedMeans(cfg, arr);
    var j := Judge(cfg, arr);
    var moved := arr.(now := later);
    assert Shape(cfg, moved.request, j.identity) == Shaped(j.envelope);
  }

  /** What clears at some instant clears at exactly the instants up to its expiry less the skew, that one included. */
  lemma ClearsThroughExpiry(cfg: Config, arr: Arrival, t: nat)
    requires Judge(cfg, arr).Cleared?
    ensures Judge(cfg, arr.(now := t)).Cleared? <==> t + cfg.skew <= cfg.world.instant(Judge(cfg, arr).envelope.expiry)
    ensures t == cfg.world.instant(Judge(cfg, arr).envelope.expiry) - cfg.skew ==>
              Judge(cfg, arr.(now := t)) == Judge(cfg, arr)
  {
    JudgedLater(cfg, arr, t);
  }

  lemma SingleEvent(cfg: Config, ttlDays: int, st: Clocked, event: Event)
    requires Legal(st, event)
    ensures LegalRun(cfg, ttlDays, st, [event]) && Final(cfg, ttlDays, st, [event]) == Next(cfg, ttlDays, st, event)
  {
    var next := Next(cfg, ttlDays, st, event);
    assert [event][1..] == [];
    assert Final(cfg, ttlDays, next, []) == next;
    assert LegalRun(cfg, ttlDays, next, []);
  }

  lemma AcceptedAgainAt(cfg: Config, ttlDays: int, st: Clocked, first: Arrival, later: nat)
    requires Step(cfg, st.table.Keys, first).outcome.envelope.Some? && Judge(cfg, first).Cleared?
    requires later >= first.now && later >= Ttl(first.now, ttlDays) * MICROS
    requires !IsExpired(cfg.world, Judge(cfg, first).envelope, later, cfg.skew)
    ensures AcceptedAgain(cfg, ttlDays, st, first)
  {
    AcceptedIsStamped(cfg, st.table.Keys, first);
    var key := Judge(cfg, first).envelope.DedupeKey();
    var start := Next(cfg, ttlDays, st, Deliver(first));
    assert key in start.table && start.table[key] == Ttl(first.now, ttlDays);
    var gone := Next(cfg, ttlDays, start, Vanish(key, later));
    var events := [Vanish(key, later)];
    SingleEvent(cfg, ttlDays, start, Vanish(key, later));
    JudgedLater(cfg, first, later);
    assert Step(cfg, gone.table.Keys, first.(now := later)).outcome.envelope.Some?;
  }

  /**
   At most once despite the ttl, exactly. With dispatcher and store on one clock,
   an accepted request can be accepted again by some legal run iff its expiry
   less the skew bound is no earlier than the ttl recorded when it was claimed.
   */
  lemma AcceptedOnceIff(cfg: Config, ttlDays: int, st: Clocked, first: Arrival)
    requires Legal(st, Deliver(first))
    requires Step(cfg, st.table.Keys, first).outcome.envelope.Some?
    ensures Judge(cfg, first).Cleared?
    ensures AcceptedAgain(cfg, ttlDays, st, first) <==>
            cfg.world.instant(Judge(cfg, first).envelope.expiry) - cfg.skew >= Ttl(first.now, ttlDays) * MICROS
  {
    AcceptedIsStamped(cfg, st.table.Keys, first);
    ClearedMeans(cfg, first);
    var e, ttl := Judge(cfg, first).envelope, Ttl(first.now, ttlDays);
    var start := Next(cfg, ttlDays, st, Deliver(first));
    if AcceptedAgain(cfg, ttlDays, st, first) {
      var events: seq<Event>, later: nat :|
        && LegalRun(cfg, ttlDays, start, events)
        && later >= Final(cfg, ttlDays, start, events).now
        && Step(cfg, Final(cfg, ttlDays, start, events).table.Keys, first.(now := later)).outcome.envelope.Some?;
      assert start.table[e.DedupeKey()] == ttl;
      var again := first.(now := later);
      AcceptedIsStamped(cfg, Final(cfg, ttlDays, start, events).table.Keys, again);
      JudgedLater(cfg, first, later);
      ReacceptanceNeedsLateExpiry(cfg, ttlDays, start, events, e.DedupeKey(), ttl, again);
    }
    if cfg.world.instant(e.expiry) - cfg.skew >= ttl * MICROS {
      AcceptedAgainAt(cfg, ttlDays, st, first, if ttl * MICROS >= first.now then ttl * MICROS else first.now);
    }
  }

  /**
   The same in instants. A request accepted at `c` microseconds and held for `d`
   days can be accepted again iff its expiry, less the skew, is at or past `d`
   days from the whole second of `c`; so a row of `d` days outlives every expiry
   that is a second or more before `c` plus `d` days plus the skew.
   */
  lemma HeldForDays(cfg: Config, d: int, st: Clocked, first: Arrival)
    requires Legal(st, Deliver(first))
    requires Step(cfg, st.table.Keys, first).outcome.envelope.Some?
    ensures Judge(cfg, first).Cleared?
    ensures var c, expiry := first.now, cfg.world.instant(Judge(cfg, first).envelope.expiry);
            && (AcceptedAgain(cfg, d, st, first) <==> expiry - cfg.skew >= c - c % 1_000_000 + d * 86_400_000_000)
            && (expiry - cfg.skew <= c + d * 86_400_000_000 - 1_000_000 ==> !AcceptedAgain(cfg, d, st, first))
            && (expiry - cfg.skew >= c + d * 86_400_000_000 ==> AcceptedAgain(cfg, d, st, first))
  {
    AcceptedOnceIff(cfg, d, st, first);
    TtlExact(first.now, d);
  }

  /** An expiry equal to the recorded ttl, with no skew bound, does not rule out a second acceptance. */
  lemma ExpiryAtTtlIsTooLate(cfg: Config, ttlDays: int, st: Clocked, first: Arrival)
    requires Legal(st, Deliver(first)) && cfg.skew == 0
    requires Step(cfg, st.table.Keys, first).outcome.envelope.Some?
    requires Judge(cfg, first).Cleared?
    requires cfg.world.instant(Judge(cfg, first).envelope.expiry) == Ttl(first.now, ttlDays) * MICROS
    ensures AcceptedAgain(cfg, ttlDays, st, first)
  {
    AcceptedOnceIff(cfg, ttlDays, st, first);
  }
}

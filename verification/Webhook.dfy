/** The signed-webhook adapter: a token names exactly one peer. */
module Webhook {
  import opened Prelude
  import opened Text
  import opened Schemas
  import opened Dispatch

  /** A value of the parsed secret: a string, or something else. */
  datatype TokenValue = Text(s: string) | NotText {
    /** The token, or the empty string where there is none to use. */
    function Token(): string {
      if Text? then s else ""
    }
  }

  type Items = seq<(string, TokenValue)>

  /** What the loader demands of canonicalized entries. */
  ghost predicate AcceptablePairs(pairs: seq<(string, string)>) {
    && pairs != []
    && (forall i | 0 <= i < |pairs| :: pairs[i].0 != "" && pairs[i].1 != "")
    && (forall i, j | 0 <= i < j < |pairs| :: pairs[i].0 != pairs[j].0)
    && (forall i, j | 0 <= i < j < |pairs| :: pairs[i].1 != pairs[j].1)
  }

  /** The entries with their identities canonicalized. */
  function CanonicalPairs(w: World, items: Items): (r: seq<(string, string)>)
    ensures |r| == |items| && forall i | 0 <= i < |r| :: r[i] == (w.canonical(items[i].0), items[i].1.Token())
  {
    seq(|items|, i requires 0 <= i < |items| => (w.canonical(items[i].0), items[i].1.Token()))
  }

  /** `entries` lists the pairs of `m`, each identity once. */
  ghost predicate Lists(entries: seq<(string, string)>, m: map<string, string>) {
    && (forall i | 0 <= i < |entries| :: entries[i].0 in m && m[entries[i].0] == entries[i].1)
    && (forall i, j | 0 <= i < j < |entries| :: entries[i].0 != entries[j].0)
    && (forall k | k in m :: exists i | 0 <= i < |entries| :: entries[i].0 == k)
  }

  ghost predicate Accepted(w: World, items: Items, m: map<string, string>) {
    AcceptablePairs(CanonicalPairs(w, items)) && Lists(CanonicalPairs(w, items), m)
  }

  ghost predicate Injective(m: map<string, string>) {
    forall k, l | k in m && l in m && m[k] == m[l] :: k == l
  }

  /** Counting distinct values tells whether a map is injective. */
  lemma {:induction false} InjectiveByCount(m: map<string, string>)
    ensures |m.Values| <= |m|
    ensures |m.Values| == |m| <==> Injective(m)
  {
    if m.Keys != {} {
      var k :| k in m;
      var rest := m - {k};
      InjectiveByCount(rest);
      assert m.Keys == rest.Keys + {k};
      assert |m| == |rest| + 1;
      assert m.Values == rest.Values + {m[k]};
      if m[k] in rest.Values {
        var l :| l in rest && rest[l] == m[k];
        assert !Injective(m);
        assert m.Values == rest.Values;
      } else {
        assert |m.Values| == |rest.Values| + 1;
        assert Injective(rest) ==> Injective(m);
        assert Injective(m) ==> Injective(rest);
      }
    } else {
      assert m == map[];
    }
  }

  lemma TokensDistinctIffInjective(pairs: seq<(string, string)>, m: map<string, string>)
    requires Lists(pairs, m)
    ensures Injective(m) <==> forall i, j | 0 <= i < j < |pairs| :: pairs[i].1 != pairs[j].1
  {
    if Injective(m) {
      forall i, j | 0 <= i < j < |pairs| ensures pairs[i].1 != pairs[j].1 {
        assert m[pairs[i].0] == pairs[i].1 && m[pairs[j].0] == pairs[j].1;
      }
    }
    if forall i, j | 0 <= i < j < |pairs| :: pairs[i].1 != pairs[j].1 {
      forall k, l | k in m && l in m && m[k] == m[l] ensures k == l {
        var i :| 0 <= i < |pairs| && pairs[i].0 == k;
        var j :| 0 <= j < |pairs| && pairs[j].0 == l;
      }
    }
  }

  /** The loop of `canonical_token_map`, its refusals, and the closing count of distinct tokens. */
  method Collect(pairs: seq<(string, string)>) returns (r: Option<map<string, string>>)
    ensures r.Some? <==> AcceptablePairs(pairs)
    ensures r.Some? ==> Lists(pairs, r.value)
  {
    if pairs == [] {
      return None;
    }
    var canonical: map<string, string> := map[];
    for i := 0 to |pairs|
      invariant forall j | 0 <= j < i :: pairs[j].0 != "" && pairs[j].1 != ""
      invariant Lists(pairs[..i], canonical)
    {
      var (identity, token) := pairs[i];
      if token == "" {
        return None;
      }
      if identity == "" {
        return None;
      }
      if identity in canonical {
        var j :| 0 <= j < |pairs[..i]| && pairs[..i][j].0 == identity;
        assert pairs[j].0 == pairs[i].0;
        return None;
      }
      ListsGrows(pairs[..i], canonical, identity, token);
      assert pairs[..i + 1] == pairs[..i] + [(identity, token)];
      canonical := canonical[identity := token];
    }
    assert pairs[..|pairs|] == pairs;
    InjectiveByCount(canonical);
    TokensDistinctIffInjective(pairs, canonical);
    if |canonical.Values| != |canonical| {
      return None;
    }
    return Some(canonical);
  }

  /** `canonical_token_map`. */
  method CanonicalTokenMap(w: World, items: Items) returns (r: Option<map<string, string>>)
    ensures r.Some? <==> AcceptablePairs(CanonicalPairs(w, items))
    ensures r.Some? ==> Accepted(w, items, r.value)
  {
    r := Collect(CanonicalPairs(w, items));
  }

  lemma ListsGrows(entries: seq<(string, string)>, m: map<string, string>, k: string, v: string)
    requires Lists(entries, m) && k !in m
    ensures Lists(entries + [(k, v)], m[k := v])
  {
    var more := entries + [(k, v)];
    assert more[|entries|].0 == k;
    forall x | x in m ensures exists i | 0 <= i < |more| :: more[i].0 == x {
      var i :| 0 <= i < |entries| && entries[i].0 == x;
      assert more[i].0 == x;
    }
  }

  /** An accepted map is injective and its identities are canonical and non-empty. */
  lemma AcceptedMapIsInjective(w: World, items: Items, m: map<string, string>)
    requires CanonicalIdempotent(w) && Accepted(w, items, m)
    ensures forall k | k in m :: k != "" && w.canonical(k) == k && m[k] != ""
    ensures Injective(m)
  {
    var pairs := CanonicalPairs(w, items);
    TokensDistinctIffInjective(pairs, m);
    forall k | k in m ensures k != "" && w.canonical(k) == k && m[k] != "" {
      var i :| 0 <= i < |pairs| && pairs[i].0 == k;
    }
  }

  /** Canonicalizing an accepted map again, in whatever order it is listed, changes nothing. */
  lemma AcceptedMapIsStable(w: World, items: Items, m: map<string, string>, entries: seq<(string, string)>)
    requires CanonicalIdempotent(w) && Accepted(w, items, m) && Lists(entries, m)
    ensures Accepted(w, AsItems(entries), m)
  {
    AcceptedMapIsInjective(w, items, m);
    var again := AsItems(entries);
    assert CanonicalPairs(w, items)[0].0 in m;
    assert CanonicalPairs(w, again) == entries;
    TokensDistinctIffInjective(entries, m);
  }

  function AsItems(entries: seq<(string, string)>): (r: Items)
    ensures |r| == |entries| && forall i | 0 <= i < |r| :: r[i] == (entries[i].0, Text(entries[i].1))
  {
    seq(|entries|, i requires 0 <= i < |entries| => (entries[i].0, Text(entries[i].1)))
  }

  /** Every identity whose token equals the presented header, in table order. */
  function Matching(entries: seq<(string, string)>, presented: Option<string>): seq<string> {
    if presented.None? || entries == [] then []
    else (if Utf8(entries[0].1) == Utf8(presented.value) then [entries[0].0] else [])
         + Matching(entries[1..], presented)
  }

  function Presented(header: string, request: Request): Option<string> {
    if header in request.headers then Some(request.headers[header]) else None
  }

  predicate VerifyToken(entries: seq<(string, string)>, header: string, request: Request) {
    |Matching(entries, Presented(header, request))| == 1
  }

  function ExtractIdentity(entries: seq<(string, string)>, header: string, request: Request): Option<string> {
    var matched := Matching(entries, Presented(header, request));
    if |matched| != 1 then None else Some(matched[0])
  }

  /** `normalize`: decode, refuse another channel's envelope, canonicalize the sender. */
  function Normalize(w: World, channelType: string, request: Request): Option<Envelope> {
    var e :- w.decode(request.body);
    if e.sender.channelType != channelType then None
    else Some(e.(sender := e.sender.(channelIdentity := w.canonical(e.sender.channelIdentity))))
  }

  function WebhookAdapter(w: World, channelType: string, header: string, entries: seq<(string, string)>): Adapter {
    Adapter(
      channelType,
      (request: Request) => VerifyToken(entries, header, request),
      (request: Request) => ExtractIdentity(entries, header, request),
      (request: Request) => Normalize(w, channelType, request),
      false, true)
  }

  /** A body is taken iff it decodes to an envelope of this channel; only the identity's spelling changes. */
  lemma NormalizeExact(w: World, channelType: string, header: string, entries: seq<(string, string)>, request: Request)
    ensures var adapter, parsed := WebhookAdapter(w, channelType, header, entries), w.decode(request.body);
            && (adapter.normalize(request).Some? <==> parsed.Some? && parsed.value.sender.channelType == channelType)
            && (adapter.normalize(request).Some? ==>
                  var e, sender := adapter.normalize(request).value, parsed.value.sender;
                  && e == parsed.value.(sender := e.sender)
                  && e.sender == Sender(sender.channelType, w.canonical(sender.channelIdentity), sender.evidence))
            && adapter.channelType == channelType && !adapter.originatesEnvelope && adapter.credentialPerSender
  {
    assert WebhookAdapter(w, channelType, header, entries).normalize(request) == Normalize(w, channelType, request);
  }

  lemma {:induction false} MatchingExact(entries: seq<(string, string)>, token: string)
    requires forall i, j | 0 <= i < j < |entries| :: entries[i].1 != entries[j].1
    ensures forall i | 0 <= i < |entries| && entries[i].1 == token :: Matching(entries, Some(token)) == [entries[i].0]
    ensures (forall i | 0 <= i < |entries| :: entries[i].1 != token) ==> Matching(entries, Some(token)) == []
  {
    if entries != [] {
      var tail := entries[1..];
      assert forall i | 0 <= i < |tail| :: tail[i] == entries[i + 1];
      MatchingExact(tail, token);
      if Utf8(entries[0].1) == Utf8(token) {
        Utf8Injective(entries[0].1, token);
      }
      forall i | 0 <= i < |entries| && entries[i].1 == token ensures Matching(entries, Some(token)) == [entries[i].0] {
        if i > 0 {
          assert tail[i - 1].1 == token;
        }
      }
    }
  }

  /**
   With a loaded token map, a request passes gate 1 iff its header is some peer's
   token, and then gate 2 returns exactly that peer and cannot raise.
   */
  lemma TokenNamesOnePeer(w: World, items: Items, m: map<string, string>, entries: seq<(string, string)>,
                          header: string, request: Request)
    requires CanonicalIdempotent(w) && Accepted(w, items, m) && Lists(entries, m)
    ensures var presented := Presented(header, request);
            && (VerifyToken(entries, header, request) <==>
                  presented.Some? && exists k | k in m :: m[k] == presented.value)
            && (forall k | k in m && presented == Some(m[k]) ::
                  VerifyToken(entries, header, request) && ExtractIdentity(entries, header, request) == Some(k))
            && (VerifyToken(entries, header, request) <==> ExtractIdentity(entries, header, request).Some?)
  {
    AcceptedMapIsInjective(w, items, m);
    var presented := Presented(header, request);
    if presented.Some? {
      MatchingExact(entries, presented.value);
      forall k | k in m && m[k] == presented.value
        ensures Matching(entries, presented) == [k]
      {
        var i :| 0 <= i < |entries| && entries[i].0 == k;
        assert entries[i].1 == presented.value;
      }
    }
  }
}

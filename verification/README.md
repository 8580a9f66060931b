# Verified model of the channels airlock

An agent zone talks to another through an *envelope*. The sending broker stamps the envelope with its own
provenance hop and signs the whole chain; the receiving *airlock* runs a fixed order of gates over it, claims a
dedupe key, screens it, stamps its own hop, and lets the accepted chain taint the turn that reads it. This project
models that protocol and proves what it is for over every input, every run and every interleaving. Four smaller
cores of the same repository sit beside it: the append-only ledger sink, the artifact lock, the MCP connector's
locking, and the ceremony identities.

Check it with `dafny verify dfyconfig.toml`.

## How it is laid out

| files | what they hold |
|---|---|
| `Prelude`, `Text`, `TextSpec`, `Json`, `JsonText`, `JsonSize` | options and order; UTF-8, decimals and whitespace; a JSON value, its canonical writer, a reader that inverts it, the form of its text and how long it is |
| `Schemas`, `Identity` | the envelope, the outside world it is judged in, and identity canonicalization on ASCII |
| `Signing`, `Dsse`, `StatementText`, `Verification`, `Keys` | the signed statement, what its bytes say when read back, the verification loop and custody tiers, the key secret |
| `TrustMap`, `Publish`, `Journey` | the trust map, the turn's taint, the outbound seam, and journeys through any number of zones |
| `Dispatch`, `Gates`, `Runs`, `Authenticity`, `RoundTrip`, `Witness` | the gates as a class over a pure step, what they ask and answer over every configuration, the theorems over whole runs, and worlds in which their hypotheses all hold |
| `Wire`, `Forwarding` | the envelope's text and its reader, and the room a stamp takes under the transport's ceiling |
| `Webhook`, `Stores`, `Races`, `Replay` | the token map, the table with expiring rows, concurrent dispatches of one key, and the replay bound over runs in which rows expire |
| `Ledger`, `LedgerTraces`, `ArtifactLock`, `LockFile`, `LockProofs`, `LockErrors`, `Moves`, `McpConnector`, `McpClose`, `Ceremony` | the smaller cores |

Code that changes things step by step is a class or a method with a loop, proved against a function
(`Airlock.Dispatch` refines `Step`, `VerifyChain` computes `ChainVerdict`, `LockFile.Parsed` computes `Parse`);
the theorems are about those functions. Hashes, signatures, the codec and the canonicalizer are functions of a
`World` value. A theorem that needs something of them says so in its `requires`, and asks it only of the values in
play: `PayloadsDistinguished` (the hash does not confuse two given payloads), `Unforgeable` (only bytes in the signed
log verify), `KeyWorks` (what a key pair signs verifies under it), `CanonicalIdempotent` (canonicalizing twice changes
nothing; `Identity.AsciiWorld` shows it for ASCII), `CutsDigests` (the ledger's digests are twelve hexadecimal digits)
and `KeepsApart` (they differ on the contents in use). `Witness` holds worlds in which these are met.

## Where the code and its text differ

The model follows the code; where a promise is at stake, a lemma gives the exact condition under which it holds.

- Expiry. The comment at `safe_agents/channels/manifest.py:183-186` says an envelope is refused from
  `expiry - clock_skew_seconds` on. The comparison is strict, so at that very instant it still clears the gates:
  `Stores.ClearsThroughExpiry` gives the instants exactly.
- At most once despite the TTL. An expiry no later than the recorded ttl does not rule out a second acceptance:
  with a zero skew bound and an expiry equal to the ttl, a row may vanish at the one instant at which the envelope
  still passes gate 4 (`Stores.ExpiryAtTtlIsTooLate`, and `Witness.SecondAcceptanceHappens` for any number of ttl
  days). The exact condition is in `Stores.AcceptedOnceIff`.
- The forwarding ceiling. The comment at `safe_agents/channels/schemas/event_trigger.py:22-28` says an envelope accepted
  under the first ceiling always fits under the second once stamped. The stamp carries the airlock's zone id, which has
  no length limit: with one as long as the gap, an airlock accepts an envelope that it then cannot forward
  (`Witness.UnforwardableHappens`). `Forwarding.StampedFitsIff` is the exact condition and `Forwarding.AcceptedFits` the
  rule for a zone, a channel and a clock that leave room.
- `close` promises to drive the host's `aclose` before it stops the loop. It reads the host without the host lock, so it
  can look while a concurrent execute holds the factory's result and has not assigned it: the host is then assigned, its
  loop is stopped, and `aclose` is never attempted (`McpClose.AcloseCanBeMissed`). `McpClose.AcloseExact` says that the
  look decides, and `McpClose.AcloseOnceServed` is the rule a caller can follow.
- The ledger's "byte-identical content is already durable" is false when a run id contains a dot: such a run id can
  spell another run's fallback name (`Ledger.DottedRunIdClashes`, which also says which run ids leave room for it).
  `LedgerTraces.TruthfulIffNoClash` is the exact condition, `Ledger.DotlessNeverClashes` the rule a caller can follow.
- The empty lock renders as one blank line and does not read back as itself (`LockProofs.LockRoundTrip`).
- `move` accepts an empty version, because the empty string occurs in every url, and writes a line of four columns
  that the parser rejects (`Moves.EmptyVersionSpoils`); adding a pin whose key is already listed `#:unused` lists it
  twice (`Moves.ListedTwiceSpoils`). `Moves.MoveExact` says these are the only two ways.
- DSSE asks for the payload type's length in bytes and the code writes it in characters. They agree exactly for
  ASCII types, and the encoding is injective either way (`Dsse.PaeIsDsse`, `Signing.PaeInjective`).

## Model

| member | source | states |
|---|---|---|
| `Json.LoadsDumps` | safe_agents/channels/signing.py:243-247 | reading the canonical text (sorted keys, compact, ASCII escapes with surrogate pairs) of any JSON value gives that value back |
| `Json.DumpsInjective` | safe_agents/channels/signing.py:355-357 | two values with the same canonical text are equal |
| `Json.DumpsAscii` | safe_agents/channels/signing.py:355-357 | the canonical text of every value is ASCII |
| `JsonText.MembersInOrder` | safe_agents/channels/signing.py:355-357 | read back member by member, an object's text has each key once, in strictly ascending order |
| `JsonText.EscapeIsShortest` | safe_agents/channels/signing.py:355-357 | a character is written as itself if plain, in two characters if it has a short escape, else as one or two lowercase `\u` escapes |
| `TextSpec.LessIsLexicographic` | safe_agents/channels/signing.py:355-357 | the order of keys is that of code points: a proper prefix, or the lower character where they first differ |
| `TextSpec.Utf8CharReads` | safe_agents/channels/signing.py:248 | a reader of the layout of RFC 3629, section 3, finds each character's code point, in the least number of bytes |
| `Identity.AsciiWorld` | safe_agents/channels/signing.py:251-263 | stripping and folding ASCII case twice is doing it once, so the idempotence hypothesis can be met |
| `Schemas.ToWire` | safe_agents/channels/schemas/event_trigger.py:270-288 | wire text, when there is any, is within the ceiling and decodes to the very same envelope |
| `Wire.WireRoundTrip` | safe_agents/channels/schemas/event_trigger.py:281-287 | a reader with the schema's fields and defaults gives every envelope back from its text |
| `Wire.AbsentFieldsDefault` | safe_agents/channels/schemas/event_trigger.py:187-212 | without its optional fields an envelope reads as one with no digest, reference, signature or class |
| `Wire.UnknownFieldIsRefused` | safe_agents/channels/schemas/event_trigger.py:185-186 | a field the schema does not know is refused |
| `Forwarding.WireFormExact` | safe_agents/channels/schemas/event_trigger.py:270-288 | with that codec an envelope has a wire form iff it is valid and its text within the ceiling, and the form is ASCII |
| `Forwarding.StampGrows` | safe_agents/channels/schemas/event_trigger.py:310-326 | a stamp lengthens the text by exactly its hop, a comma and the class in place of `null`, whatever the envelope holds |
| `Forwarding.StampSize` | safe_agents/channels/dispatch.py:401-415 | beside the zone, the channel and the timestamp an airlock's stamp takes at most 107 characters, and exactly that for a verified chain with custody evidence from a class other than owner |
| `Forwarding.StampedFitsIff` | safe_agents/channels/schemas/event_trigger.py:22-30 | every envelope under the first ceiling, whatever the length of its event id, fits under the second once stamped iff stamp and comma take no more than the gap |
| `Forwarding.AcceptedFits` | safe_agents/channels/airlock/handler.py:486-490 | an airlock whose zone, channel and clock leave room never accepts an envelope it cannot forward |
| `Forwarding.ShortNamesLeaveRoom` | safe_agents/channels/schemas/event_trigger.py:22-30 | zone and channel names of at most 2600 characters each leave room, however they are escaped |
| `Signing.InlinePayloadDefined` | safe_agents/channels/signing.py:236-248 | the round-trip refusal is never taken for a JSON value, so every payload has a digest |
| `Signing.StatementDefined` | safe_agents/channels/signing.py:291-326 | an envelope can be stated iff a reference comes with a digest and the digest is `sha256:` and 64 lowercase hex digits |
| `Signing.PaeInjective` | safe_agents/channels/signing.py:360-378 | the encoding determines payload type and payload, for types in any script |
| `Dsse.PaeIsDsse` | safe_agents/channels/signing.py:360-378 | a reader of the DSSE layout (`DSSEv1`, a counted type, a counted payload to the end) finds this type and payload in what is signed iff the type is ASCII |
| `StatementText.StatementSays` | safe_agents/channels/signing.py:345-357 | the signed bytes are the UTF-8 of a text that reads as the in-toto statement with its two type URIs, this signer, these hops, these subjects and these bound fields |
| `StatementText.SubjectsSay` | safe_agents/channels/signing.py:291-326 | the first subject is the payload with its digest; a raw original is the second, with the digest after `sha256:` and its reference |
| `StatementText.BoundSays` | safe_agents/channels/signing.py:266-288 | each bound field has its own value, the identity in canonical form, and there is no other |
| `Signing.SameViewSameStatement` | safe_agents/channels/signing.py:266-288 | the two unsigned fields and the spelling of the identity do not reach the statement |
| `Signing.BytesFixClearView` | safe_agents/channels/signing.py:266-357 | with nothing asked of the hash, equal statements have the same key id and zone and agree on every signed field but the payload, of which they fix the digest |
| `Signing.SignedBytesFixEnvelope` | safe_agents/channels/signing.py:266-378 | two signing inputs whose payloads the hash does not confuse have the same bytes iff same key id, same zone, same hops in order, same payload, same presence and value of the raw original, and same value of every other bound field |
| `Verification.Weakest` | safe_agents/channels/signing.py:113-116 | nothing for no class, `declared` iff one is present, `attested` only if all are |
| `Verification.VerifyChain` | safe_agents/channels/signing.py:504-540 | the loop with its early returns computes the verdict, and passes iff there is a signature and each passes every check |
| `Verification.VerdictExact` | safe_agents/channels/signing.py:477-540 | pass iff all pass; a refusal has the reason and detail of the first failing signature at its first failing check and names no signer and no custody |
| `Verification.PassNames` | safe_agents/channels/signing.py:533-540 | a pass names the first signature's key and zone; custody is separated iff every signing key is at posture 2 or more, and declared iff one of them is |
| `Verification.DeploymentExact` | safe_agents/channels/signing.py:589-615 | the deployment tier is `signed-lineage` iff verifying, with a key enrolled and all at posture 2 or more; its evidence is the weakest |
| `Verification.EnvelopeExact` | safe_agents/channels/signing.py:618-637 | an envelope's tier is `signed-lineage` iff the gate ran and passed with every signing key separated and evidence to report |
| `Verification.EnvelopeMeetsDeployment` | safe_agents/channels/signing.py:589-637 | under a `signed-lineage` deployment every verified envelope is `signed-lineage` with evidence at least as strong |
| `Verification.EnrollingNeverRaises` | safe_agents/channels/signing.py:607-615 | adding keys to a non-empty enrolment never raises the tier or its evidence |
| `Keys.NoDuplicateKeys` | safe_agents/channels/keys.py:112-123 | accepted iff no name repeats, and then the object holds exactly the listed members |
| `Keys.EnrolsIffAcceptable` | safe_agents/channels/keys.py:126-194 | a secret is accepted iff every entry has exactly the five fields, a posture of 1, 2 or 3, declared evidence, an unpadded zone, a non-empty list of non-blank identities and a readable key |
| `Keys.EnrolledAreWellFormed` | safe_agents/channels/keys.py:126-194 | every key of an accepted secret has its own entry's posture, zone and public key, and as scope exactly the canonical forms of the identities it lists; all key ids are enrolled and no other |
| `Keys.CustodyOnHopIsEarned` | safe_agents/channels/dispatch.py:287-300 | with keys from the secret, an accepted hop never says `custody:attested`, and says `custody:declared` iff the secret records every key that signed the chain at posture 2 or 3 |
| `Keys.DeploymentIsDeclared` | safe_agents/channels/keys.py:197-229 | the secret supports `signed-lineage`, with declared evidence, iff it has an entry and records each at posture 2 or 3 |
| `TrustMap.AcceptsMap` | safe_agents/channels/trust_map.py:84-93 | the scan accepts exactly the maps with no repeated (channel, identity) |
| `TrustMap.ResolveExact` | safe_agents/channels/trust_map.py:95-100 | in an accepted map an identity resolves to a row's principal and class iff that row is there |
| `TrustMap.IngestChain` | safe_agents/channels/trust_map.py:265-283 | the loop over the chain leaves the turn `Ingest` computes |
| `TrustMap.IngestExact` | safe_agents/channels/trust_map.py:265-283 | the turn ends tainted iff it was or some hop is not both labelled and mapped trusted; exactly those hops' sources are recorded, once each, after the earlier ones |
| `TrustMap.TaintIsAttributed` | safe_agents/broker/taint/context.py:81-85 | a turn is flagged iff it can name a source |
| `Publish.OutboundChainShape` | safe_agents/channels/publish.py:126-140 | upstream is an exact prefix, the last hop carries the turn's verdict, every ingested source is in the chain |
| `Publish.ChainIs` | safe_agents/channels/publish.py:126-140 | the chain in full: upstream, one untrusted hop of this zone for each source not carried, in order, and this agent's hop with its evidence, untrusted iff the turn is tainted |
| `Publish.SentIsRequested` | safe_agents/channels/publish.py:141-178 | what is sent, signed or not, has every field asked for, `ts` and `expiry` included, no class, and a signature iff there is a signer, over the whole chain under its key and zone |
| `Publish.SignedSentIff` | safe_agents/channels/publish.py:157-178 | with a signer a message is sent iff it has a wire form unsigned and signed and can be stated |
| `Publish.CleanIff` | safe_agents/channels/trust_map.py:238-283 | after a crossing the turn is clean iff every hop is labelled trusted and trusted by the receiver's own map, and so is all else it read |
| `Publish.TaintNeverWashesOut` | safe_agents/channels/publish.py:126-140 | after any finite sequence of crossings from a tainted turn the turn is tainted, whatever the classes, maps and relays |
| `Publish.LineageIsKept` | safe_agents/channels/publish.py:126-140 | along relays the upstream chain stays an exact prefix and no recorded source is dropped |
| `Journey.LandIsCross` | safe_agents/channels/dispatch.py:203-241 | stamping, delivering, passing every gate and ingesting is one of those crossings, chain and turn alike |
| `Journey.VoyageKeepsTaint` | safe_agents/channels/trust_map.py:238-283 | taint survives any sequence of real airlocks behind adapters that hand on the chain they decoded, whatever their other configuration, state, screens and maps |
| `Journey.VoyageKeepsLineage` | safe_agents/channels/publish.py:126-140 | through relaying airlocks behind such adapters the chain stays a prefix and every source stays named |
| `Dispatch.Airlock.Screenable` | safe_agents/channels/dispatch.py:151-323 | gates 1 to 5 with their early returns compute `Judge`, writing one drop record or none |
| `Dispatch.Airlock.Dispatch` | safe_agents/channels/dispatch.py:107-415 | the outcome, the dedupe store and both sinks after the call are those of the pure step, which the rows of `Gates` and `Runs` characterize |
| `Gates.ClearedIff` | safe_agents/channels/dispatch.py:151-323 | over every configuration a request clears the gates ahead of the store iff its token, identity, parse, wire form, sender, audience, expiry and row with its principal are in order, and its chain where verification is on and the adapter does not originate envelopes |
| `Gates.AcceptedIff` | safe_agents/channels/dispatch.py:337-415 | such a request is accepted iff the store works and does not hold its key and the screen, if any, passes it |
| `Gates.OnlyAdmissibleAccepted` | safe_agents/channels/dispatch.py:151-323 | no other request is accepted |
| `Gates.AcceptedIs` | safe_agents/channels/dispatch.py:393-415 | the accepted envelope in full: the parsed one with one hop of this zone, its channel, the evidence of the checks made in order, its label by class and its instant, and the mapped class |
| `Gates.UnidentifiedIsDropped` | safe_agents/channels/dispatch.py:150-162 | a failed token or identity leaves one record under the empty identity and is told to no one |
| `Gates.ImproperIsRefused` | safe_agents/channels/dispatch.py:203-253 | not forwardable before another's identity before another's audience: which record and class each leaves |
| `Gates.UnverifiedIsRefused` | safe_agents/channels/dispatch.py:287-300 | keys that cannot be had are recorded not evaluated and transient, a failed chain with its own reason and detail, neither naming a signer |
| `Gates.InadmissibleIsRefused` | safe_agents/channels/dispatch.py:302-323 | expired before unmapped before another's principal, each record citing what the chain check established |
| `Gates.StoreDecides` | safe_agents/channels/dispatch.py:337-349 | what a failing read, a held key, and a failing write that landed or not leave and answer |
| `Gates.ScreenDecides` | safe_agents/channels/dispatch.py:351-391 | the key is claimed whatever the screen says; the verdict and, on refusal, the drop record have its reason, `screen_error` if it raised |
| `Runs.SenderIsolation` | safe_agents/channels/dispatch.py:177-349 | one sender's outcomes, records and store entries are those of the run without the others and under any map with the same answer for that sender |
| `Runs.ScreenInvisible` | safe_agents/channels/dispatch.py:325-391 | under any two screens, and with the verdict sink on or off, every refusal answer and every store after a step are the same |
| `Runs.RunAccounting` | safe_agents/channels/dispatch.py:151-415 | requests are acceptances plus drop records plus silent replays; store growth is the claims, which without a landed failing write are acceptances plus screen refusals, as are the verdicts |
| `Runs.EvidenceIsEarned` | safe_agents/channels/dispatch.py:393-415 | only mapped, principal-matching senders claim; a named signer means a verified chain; `sig:pass` is on the accepted hop iff the gate ran, and it passed |
| `Runs.RefusalExact` | safe_agents/channels/dispatch.py:164-201 | a refusal class is told iff the call left a record other than the screen's and the sender is mapped with its own credential; transient iff not evaluated; never with an acceptance |
| `Runs.StrangersLearnNothing` | safe_agents/channels/dispatch.py:164-201 | at every step of any run an unauthenticated, shared-credential or unmapped sender is told no refusal, whatever happened |
| `Runs.AcceptedOnce` | safe_agents/channels/dispatch.py:337-341 | in a run no key is accepted twice, nor one the store already held |
| `Authenticity.AcceptedWasSigned` | safe_agents/channels/signing.py:504-540 | what a verifying airlock accepts agrees, on every signed field and on the payload's digest, with an envelope an enrolled in-scope key signed for this zone; on the payload itself unless the hash confuses the two |
| `Authenticity.EveryAcceptanceWasSigned` | safe_agents/channels/dispatch.py:252-300 | the same at every step of every run, with the hash asked only to tell logged payloads from the one that arrived |
| `Authenticity.AcceptancesBounded` | safe_agents/channels/dispatch.py:337-341 | over any run acceptances never exceed the distinct (canonical identity, event id) pairs signed for the zone, whatever the hash |
| `Replay.AcceptancesBoundedInTime` | safe_agents/channels/stores.py:84-106 | over any run in which rows may vanish from their ttl on, if whatever is signed under a claimed key expires before that claim's ttl plus the skew, no key is accepted twice and the same bound holds |
| `Authenticity.NoStatementServesTwoZones` | safe_agents/channels/dispatch.py:243-253 | airlocks with different zones never accept envelopes with one and the same signed statement, whatever the hash |
| `RoundTrip.HonestChainVerifies` | safe_agents/channels/publish.py:157-178 | what the stamping zone's own signer signed verifies at a receiver that enrols it, in any spelling of the identity |
| `RoundTrip.HonestRoundTrip` | safe_agents/channels/publish.py:126-178 | a stamped, signed envelope delivered with the sender's own token to a matching receiver, and still within the ceiling with its identity canonicalized, is accepted, with its chain kept, one `sig:pass` hop, and every field as the sender asked, `ts` and `expiry` included |
| `Witness.HonestRoundTripHappens` | safe_agents/channels/publish.py:126-178 | for every envelope with a non-empty sender, no raw original and a text within the ceiling there is a world with the envelope's own codec, keys and a delivery that meet every hypothesis of the round trip, and it is accepted |
| `Witness.LandingHappens` | safe_agents/channels/dispatch.py:107-415 | from any turn, tainted or not, a crossing with such an envelope lands, so the journey theorems are about journeys that exist |
| `Witness.SecondAcceptanceHappens` | safe_agents/channels/stores.py:92-106 | for any number of ttl days, an envelope that expires at the recorded ttl is accepted twice when there is no skew |
| `Witness.UnforwardableHappens` | safe_agents/channels/airlock/handler.py:486-490 | with a zone id as long as the gap between the ceilings an airlock accepts an envelope whose stamped text is over the second |
| `Witness.AuthenticAcceptanceHappens` | safe_agents/channels/signing.py:504-540 | an unforgeable world in which exactly one message verifies, and whose hash confuses no payloads, still accepts that envelope |
| `Webhook.CanonicalTokenMap` | safe_agents/channels/webhook.py:95-124 | the loop accepts exactly the non-empty maps with usable tokens and pairwise distinct canonical identities and tokens, and returns them |
| `Webhook.AcceptedMapIsInjective` | safe_agents/channels/webhook.py:95-124 | an accepted map is injective and its identities are canonical and not empty |
| `Webhook.AcceptedMapIsStable` | safe_agents/channels/webhook.py:95-124 | canonicalizing an accepted map again, listed in any order, accepts it unchanged |
| `Webhook.TokenNamesOnePeer` | safe_agents/channels/webhook.py:179-207 | the token check passes iff the header is some peer's token, and the identity returned is then that peer; it is refused iff the check fails |
| `Webhook.NormalizeExact` | safe_agents/channels/webhook.py:209-233 | a body is taken iff it decodes to an envelope of this channel, and only the spelling of the identity changes |
| `Stores.PkInjective` | safe_agents/channels/stores.py:80-82 | two dedupe keys share a row iff they are equal, whatever an event id contains, if the digests of their identities are told apart |
| `Stores.TtlExact` | safe_agents/channels/stores.py:25-25 | a claim at instant c for d days records a second t with t <= c + d days of 86400 seconds < t + 1 |
| `Stores.DynamoDbDedupeStore.Add` | safe_agents/channels/stores.py:92-106 | precisely this key is added, with a ttl from the clock, and a row that exists keeps its own |
| `Stores.ClearsThroughExpiry` | safe_agents/channels/schemas/event_trigger.py:294-308 | what clears at some instant clears at exactly the instants up to its expiry less the skew, that one included |
| `Stores.ReacceptanceNeedsLateExpiry` | safe_agents/channels/stores.py:84-106 | whoever is accepted under a key claimed earlier has an expiry at or past that ttl plus the skew |
| `Stores.AcceptedOnceIff` | safe_agents/channels/dispatch.py:302-341 | an accepted request can be accepted again by some legal run iff its expiry less the skew is no earlier than the ttl of its claim |
| `Stores.HeldForDays` | safe_agents/channels/stores.py:92-101 | the same in instants: iff its expiry less the skew is at or past d days of 86400 seconds from the whole second of the claim |
| `Stores.ExpiryAtTtlIsTooLate` | safe_agents/channels/schemas/event_trigger.py:294-308 | an expiry equal to the ttl, without skew, allows a second acceptance |
| `Races.LateReadersAreSilent` | safe_agents/channels/dispatch.py:337-349 | over all interleavings, with reads and puts that may raise, no dispatch whose read begins after an add of its key completed is screened or accepted |
| `Races.AcceptancesAreEarlySnapshots` | safe_agents/channels/dispatch.py:337-349 | when the first put of a key reaches the table, raising or not, those whose snapshot had missed it are the only ones ever accepted; those accepted are all of them but the ones whose own put raised, iff none is still on the way |
| `Races.AcceptancesBoundedByEarlyReads` | safe_agents/channels/stores.py:84-106 | acceptances of a key are among the reads begun before any one of its adds completed |
| `Races.SerialAcceptsOnce` | safe_agents/channels/dispatch.py:337-341 | a serial run accepts a key at most once |
| `Races.OverlapAcceptsTwice` | safe_agents/channels/stores.py:92-106 | two overlapping dispatches of one key are both accepted, so the bound is real |
| `Ledger.LedgerConnector.Execute` | safe_agents/connectors/ledger_connector.py:92-167 | answers iff the arguments are valid; the bucket and the answer are those of `Append`; a refusal changes nothing |
| `Ledger.DotlessNeverClashes` | safe_agents/connectors/ledger_connector.py:142-158 | with no dot in any run id and a digest that keeps the contents in use apart, no requests clash |
| `Ledger.DottedRunIdClashes` | safe_agents/connectors/ledger_connector.py:130-167 | for a valid delta, the run id that spells its stem and digest is valid iff the delta's run id has at most 115 characters and no newline at its end; storing the delta, the other and the delta again then answers with a key holding the other's content |
| `Ledger.KeyIs` | safe_agents/connectors/ledger_connector.py:142-158 | where each kind goes: `briefs`, `digests` and `deltas` with their stems and extensions, and the digest before the extension |
| `Ledger.PrefixIs` | safe_agents/connectors/ledger_connector.py:136-140 | a prefix loses its leading slashes and ends in one slash, unless nothing is left of it |
| `Ledger.DateIs` | safe_agents/connectors/ledger_connector.py:60-60 | a date is four, two and two digits joined by hyphens, with or without a final newline |
| `Ledger.SegmentIs` | safe_agents/connectors/ledger_connector.py:63-63 | a segment is at most 128 letters, digits, dots, underscores and hyphens, a letter or digit first, with or without a final newline |
| `Ledger.LayoutInjective` | safe_agents/connectors/ledger_connector.py:142-158 | a key names its agent, kind and stem, whether it is natural or hashed, and its digest |
| `LedgerTraces.TraceAppendOnly` | safe_agents/connectors/ledger_connector.py:147-167 | over every interleaving of the puts of any number of callers no object changes or goes away, answers stand, and the bucket grows by exactly one object for each call that stored its own |
| `LedgerTraces.CallIsAppend` | safe_agents/connectors/ledger_connector.py:150-167 | undisturbed, the two puts of a call are the one step of `Append` |
| `LedgerTraces.TruthfulIffNoClash` | safe_agents/connectors/ledger_connector.py:157-167 | over every interleaving drawn from a set of requests each answered key holds its call's content, iff no two of the requests clash |
| `LedgerTraces.SerialTruthfulIffNoClash` | safe_agents/connectors/ledger_connector.py:157-167 | the same condition is exact for calls made one after another |
| `LedgerTraces.SlotIsBounded` | safe_agents/connectors/ledger_connector.py:147-167 | over every interleaving of valid requests without a dot in their run ids, one (agent, kind, stem) holds at most its distinct contents plus one objects |
| `LockFile.LockFile.Parsed` | scripts/update-artifact-pin.py:151-184 | the loop and the whole-file checks compute `Parse`, errors included and in order |
| `LockErrors.ErrorsExact` | scripts/update-artifact-pin.py:151-184 | the errors reported are exactly: for each line, counted from one, what is wrong with it; pins out of order; each key held twice; unused entries out of order or repeated |
| `LockFile.LockFile.Move` | scripts/update-artifact-pin.py:371-380 | the in-place edit is `Moved` |
| `ArtifactLock.SortAscending` | scripts/update-artifact-pin.py:142-145 | sorting gives an ascending permutation |
| `ArtifactLock.SplitConcat` | scripts/update-artifact-pin.py:145-155 | splitting joined lines gives the lines back |
| `ArtifactLock.SplitAtBreak` | scripts/update-artifact-pin.py:155-155 | every line break there is ends a line, a carriage return and line feed as one |
| `ArtifactLock.InOrderIff` | scripts/update-artifact-pin.py:187-201 | a pin has no problem iff its name, platform, hash and url have their form, the url does not say `latest` and holds the version |
| `ArtifactLock.LatestIsRefused` | scripts/update-artifact-pin.py:197-198 | a url with `latest` in any case as a whole word anywhere in its path is refused |
| `LockProofs.ClassifyPin` | scripts/update-artifact-pin.py:117-118 | an acceptable pin's line reads back as that pin, or as four columns iff its version is empty |
| `LockProofs.ParseRender` | scripts/update-artifact-pin.py:142-184 | parsing a rendering gives head, pins, tail and unused back in sorted order, with an error iff an unused entry is listed twice |
| `LockProofs.ParsedIsRenderable` | scripts/update-artifact-pin.py:151-184 | an error-free lock has clean pins with unique keys, comment lines only in head and tail, and is already sorted |
| `LockProofs.LockRoundTrip` | scripts/update-artifact-pin.py:142-184 | an error-free lock renders and parses back to itself iff it is not the empty lock |
| `Moves.MoveExact` | scripts/update-artifact-pin.py:347-382 | after an accepted move the file parses iff the version is not empty and the key is not listed unused without being pinned; then precisely that key's pin changed, head and tail are kept, and only a new key joins the unused |
| `Moves.MovesExact` | scripts/update-artifact-pin.py:347-382 | from a lock whose unused entries name pins, any sequence of moves leaves a lock that parses to exactly the updated map iff no accepted candidate had an empty version |
| `Moves.EmptyVersionSpoils` | scripts/update-artifact-pin.py:199-200 | a concrete accepted move with an empty version leaves a file with errors |
| `Moves.ListedTwiceSpoils` | scripts/update-artifact-pin.py:375-377 | adding any acceptable pin whose key is already listed unused leaves a file with errors |
| `McpConnector.InvariantHolds` | safe_agents/connectors/mcp_connector.py:110-232 | lock ownership, the single host assignment, the loops made and taken, and who is closing which hold after every trace |
| `McpConnector.OneHostOneLoop` | safe_agents/connectors/mcp_connector.py:191-232 | over every interleaving the host is assigned at most once, and until a close takes a loop there is one loop and all work is on it |
| `McpConnector.NoDeadlock` | safe_agents/connectors/mcp_connector.py:191-232 | in every reachable state with an unfinished caller, some caller can move |
| `McpConnector.EachLoopStopsOnce` | safe_agents/connectors/mcp_connector.py:129-171 | concurrent closes never stop a loop twice, each has looked for the host first, and once all callers ended each taken loop was stopped once |
| `McpClose.AcloseExact` | safe_agents/connectors/mcp_connector.py:140-168 | over every interleaving a stopped loop has a step before the stop at which its close looked for the host, and `aclose` was attempted iff a host with one was assigned by then |
| `McpClose.AcloseOnceServed` | safe_agents/connectors/mcp_connector.py:129-168 | with an instance handed in, or once some execute has come back from `_ensure_host` with no close under way holding a loop taken earlier, every loop stopped from there on had `aclose` attempted first, if the host has one |
| `McpClose.AcloseCanBeMissed` | safe_agents/connectors/mcp_connector.py:146-168 | a run in which a host with `aclose` is assigned, its loop is stopped after that, and `aclose` is never attempted |
| `Ceremony.LocalIdentityIs` | safe_agents/broker/ceremony_identity.py:138-216 | the local arm answers iff the role is maker or checker, no token is projected and the store is not the cloud's, and then with the user, the host up to its first dot, and the role |
| `Ceremony.NamelessIs` | safe_agents/broker/ceremony_identity.py:148-156 | a lookup that raised or a blank name leaves the stand-in |
| `Ceremony.RoleParsesBack` | safe_agents/broker/ceremony_identity.py:159-216 | the role of a local identity parses back, whatever the user and host, and its attestation is solo |
| `Ceremony.OthersCompareByName` | safe_agents/broker/ceremony_identity.py:468-511 | an identity of another arm has no role and no attestation and is the same operator only as itself |
| `Ceremony.PairIffRolesDiffer` | safe_agents/broker/ceremony_identity.py:495-511 | two local identities are accepted as a pair iff one is maker and the other checker, both with the solo attestation |
| `Ceremony.SameOperatorIsEquivalence` | safe_agents/broker/ceremony_identity.py:495-511 | reflexive, symmetric and transitive over all identity strings |
| `Ceremony.IdentityIsUnambiguous` | safe_agents/broker/ceremony_identity.py:130-156 | no user or host name can forge structure: equal identities have equal users, hosts and roles |

## Left out

- Ed25519, SHA-256, PEM and base64 internals, including the canonical base64 form of a signature: functions of `World`.
- Field validation: a predicate on envelopes where it matters, and otherwise part of the abstract `World.decode`; the parser a receiving worker uses and the adapter's are taken to be one.
- Wire.WireRoundTrip: members are written in sorted order, where the code writes them in declared order, and only compact text is read; neither changes a length or a value.
- Identity.AsciiWorld: folds A to Z only, where the code uses full Unicode case folding; the theorems take any idempotent canonicalizer.
- Schemas.ToWire: does not say that the text is ASCII, because it holds for any encoder; `Forwarding.WireFormExact` says it for the envelope's own.
- Lone surrogates cannot occur in the model's strings, so the encodability refusals are absent.
- JSON numbers that are not integers, and NaN.
- Failures of the record sinks, logging, environment variables, and every AWS, Kubernetes and network call; the table, the bucket and the clock are values.
- A verification seam that answers "not ok" without a reason, which the code would pass on and its record type would refuse; the model records an invalid signature.
- The `inputs_as_of` and `horizon` fields of the records, which the gates never set.
- The owner adapter's request parsing; it enters only as an adapter that builds its own envelope behind a shared credential.
- Ledger.LedgerConnector.Execute: runs its two puts undisturbed, and `LedgerTraces` is where other writers come between them; one prefix stands for one credential, dates are ASCII digits, and arguments that are not strings and puts that fail for a reason other than the key being taken are absent.
- LockFile.LockFile.Parsed: errors are codes with their data, not message text.
- LockFile.LockFile.Move: the `--expect-sha256` check, the download, and rewriting the urls and hashes in other tracked files are absent; `latest` is matched in any ASCII case.
- McpConnector.OneHostOneLoop: executes after a close are in the machine, but the one-loop claim is for runs in which no close has taken a loop, because the code keeps the host while it replaces the loop.
- Time limits on awaited coroutines and joining the loop's thread: an awaited coroutine succeeds or fails at any later step.
- Races.LateReadersAreSilent: rows do not expire during a race; expiry is the subject of `Stores`.
- The SQLite substrate: its guarantees rest on SQLite's writer lock and journal, and no theorem here uses it.
- The decision engine, the grant store and the audit chain: they act on a turn after it has been tainted, and the claims here end with that turn.
- The pipeline, the infrastructure and the document checks: they deploy and describe the airlock and take no part in a dispatch.

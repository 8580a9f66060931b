/** The append-only ledger sink: key layout, two conditional puts, and when a returned key can be trusted. */
module Ledger {
  import opened Prelude
  import opened Text

  datatype Kind = Brief | Digest | LedgerDelta {
    function Subdir(): string {
      match this
      case Brief => "briefs"
      case Digest => "digests"
      case LedgerDelta => "deltas"
    }

    function Ext(): string {
      if LedgerDelta? then ".jsonl" else ".md"
    }
  }

  function KindOf(name: string): Option<Kind> {
    if name == "brief" then Some(Brief)
    else if name == "digest" then Some(Digest)
    else if name == "ledger_delta" then Some(LedgerDelta)
    else None
  }

  predicate IsAlnum(c: char) {
    'a' <= c <= 'z' || 'A' <= c <= 'Z' || '0' <= c <= '9'
  }

  predicate IsSegmentBody(s: string) {
    1 <= |s| <= 128 && IsAlnum(s[0]) && forall c | c in s :: IsAlnum(c) || c == '.' || c == '_' || c == '-'
  }

  predicate IsDateBody(s: string) {
    && |s| == 10 && s[4] == '-' && s[7] == '-'
    && forall i | 0 <= i < 10 && i != 4 && i != 7 :: IsDigit(s[i])
  }

  /** A pattern closed by `$` also matches before one final newline. */
  function DropNewline(s: string): string {
    if s != [] && s[|s| - 1] == '\n' then s[..|s| - 1] else s
  }

  predicate IsSegment(s: string) {
    IsSegmentBody(DropNewline(s))
  }

  predicate IsDate(s: string) {
    IsDateBody(DropNewline(s))
  }

  /** The arguments of one call. */
  datatype Args = Args(kind: string, logicalDate: string, content: string, agent: string, runId: Option<string>)

  predicate ValidArgs(a: Args) {
    && KindOf(a.kind).Some?
    && IsDate(a.logicalDate)
    && a.content != ""
    && IsSegment(a.agent)
    && (a.runId.Some? ==> IsSegment(a.runId.value))
  }

  /** Where an artifact goes: the agent, the kind, and the file's stem. */
  datatype Slot = Slot(agent: string, kind: Kind, stem: string)

  function SlotOf(a: Args): Slot {
    var kind := if KindOf(a.kind).Some? then KindOf(a.kind).value else Brief;
    Slot(a.agent, kind, if kind.LedgerDelta? && a.runId.Some? then a.runId.value else a.logicalDate)
  }

  /** The credential's prefix, with no leading slash and one trailing slash. */
  function StripSlashes(p: string): string {
    if p != [] && p[0] == '/' then StripSlashes(p[1..]) else p
  }

  function NormalPrefix(p: string): string {
    var s := StripSlashes(p);
    if s != [] && s[|s| - 1] != '/' then s + "/" else s
  }

  function Natural(prefix: string, slot: Slot): string {
    prefix + slot.agent + "/" + slot.kind.Subdir() + "/" + slot.stem + slot.kind.Ext()
  }

  function Hashed(prefix: string, slot: Slot, digest: string): string {
    prefix + slot.agent + "/" + slot.kind.Subdir() + "/" + slot.stem + "." + digest + slot.kind.Ext()
  }

  /** The two names a call may store its content under. */
  datatype Layout = Layout(natural: Args -> string, hashed: Args -> string)

  /** `hash12` is the twelve-character content digest; one prefix stands for one credential. */
  function KeyLayout(hash12: string -> string, prefix: string): Layout {
    Layout((a: Args) => Natural(prefix, SlotOf(a)), (a: Args) => Hashed(prefix, SlotOf(a), hash12(a.content)))
  }

  type Objects = map<string, string>

  /** What one call does to the bucket and answers. */
  datatype Appended = Appended(objects: Objects, key: string, deduplicated: bool)

  function Append(layout: Layout, objects: Objects, a: Args): Appended {
    var natural, hashed := layout.natural(a), layout.hashed(a);
    if natural !in objects then Appended(objects[natural := a.content], natural, false)
    else if hashed !in objects then Appended(objects[hashed := a.content], hashed, false)
    else Appended(objects, hashed, true)
  }

  class LedgerConnector {
    var objects: Objects

    constructor ()
      ensures objects == map[]
    {
      objects := map[];
    }

    /** A put that fails if the key exists. */
    method PutNoOverwrite(key: string, body: string) returns (ok: bool)
      modifies this
      ensures ok <==> key !in old(objects)
      ensures objects == if ok then old(objects)[key := body] else old(objects)
    {
      ok := key !in objects;
      if ok {
        objects := objects[key := body];
      }
    }

    /** One brokered call; a refusal changes nothing. */
    method Execute(hash12: string -> string, op: string, a: Args, credentialPrefix: string)
      returns (r: Option<(string, bool)>)
      modifies this
      ensures r.Some? <==> op == "append" && ValidArgs(a)
      ensures r.None? ==> objects == old(objects)
      ensures r.Some? ==>
                var done := Append(KeyLayout(hash12, NormalPrefix(credentialPrefix)), old(objects), a);
                objects == done.objects && r.value == (done.key, done.deduplicated)
    {
      if op != "append" || !ValidArgs(a) {
        return None;
      }
      var prefix := NormalPrefix(credentialPrefix);
      var slot := SlotOf(a);
      var key := Natural(prefix, slot);
      var ok := PutNoOverwrite(key, a.content);
      if ok {
        return Some((key, false));
      }
      var hashedKey := Hashed(prefix, slot, hash12(a.content));
      ok := PutNoOverwrite(hashedKey, a.content);
      return Some((hashedKey, !ok));
    }
  }

  // Runs

  function Bucket(layout: Layout, objects: Objects, run: seq<Args>): Objects
    decreases |run|
  {
    if run == [] then objects else Bucket(layout, Append(layout, objects, run[0]).objects, run[1..])
  }

  /** Every call of the run returned a key that holds that call's content. */
  predicate Truthful(layout: Layout, objects: Objects, run: seq<Args>)
    decreases |run|
  {
    run == [] ||
    var done := Append(layout, objects, run[0]);
    && done.key in done.objects && done.objects[done.key] == run[0].content
    && Truthful(layout, done.objects, run[1..])
  }

  /** Two different contents that could meet under one name. */
  predicate Clash(layout: Layout, a: Args, b: Args) {
    a.content != b.content && (layout.natural(a) == layout.hashed(b) || layout.hashed(a) == layout.hashed(b))
  }

  predicate NoClash(layout: Layout, requests: set<Args>) {
    forall a, b | a in requests && b in requests :: !Clash(layout, a, b)
  }

  predicate Names(layout: Layout, a: Args, k: string) {
    k == layout.natural(a) || k == layout.hashed(a)
  }

  /** Every object was put by one of `requests`, under one of its two names. */
  ghost predicate Owned(layout: Layout, requests: set<Args>, objects: Objects) {
    forall k | k in objects :: exists a | a in requests :: Names(layout, a, k) && objects[k] == a.content
  }

  lemma TruthfulPrefix(layout: Layout, objects: Objects, a: Args, rest: seq<Args>)
    requires Truthful(layout, objects, [a] + rest)
    ensures var done := Append(layout, objects, a);
            && done.key in done.objects && done.objects[done.key] == a.content
            && Truthful(layout, done.objects, rest)
  {
    assert ([a] + rest)[1..] == rest;
  }

  /** A run over two clashing requests that ends with a key not holding its call's content. */
  function MisleadingRun(layout: Layout, a: Args, b: Args): seq<Args> {
    if layout.natural(a) == layout.hashed(b) then [b] + ([a] + ([b] + [])) else [a] + ([a] + ([b] + ([b] + [])))
  }

  lemma ClashMisleads(layout: Layout, a: Args, b: Args)
    requires Clash(layout, a, b) && layout.natural(a) != layout.hashed(a) && layout.natural(b) != layout.hashed(b)
    ensures !Truthful(layout, map[], MisleadingRun(layout, a, b))
  {
    var nb, hb := layout.natural(b), layout.hashed(b);
    if Truthful(layout, map[], MisleadingRun(layout, a, b)) {
      if layout.natural(a) == hb {
        var s1 := Append(layout, map[], b).objects;
        var s2 := Append(layout, s1, a).objects;
        TruthfulPrefix(layout, map[], b, [a] + ([b] + []));
        TruthfulPrefix(layout, s1, a, [b] + []);
        TruthfulPrefix(layout, s2, b, []);
      } else {
        var s1 := Append(layout, map[], a).objects;
        var s2 := Append(layout, s1, a).objects;
        assert s2[layout.hashed(a)] == a.content;
        var s3 := Append(layout, s2, b).objects;
        TruthfulPrefix(layout, map[], a, [a] + ([b] + ([b] + [])));
        TruthfulPrefix(layout, s1, a, [b] + ([b] + []));
        TruthfulPrefix(layout, s2, b, [b] + []);
        TruthfulPrefix(layout, s3, b, []);
      }
    }
  }

  lemma ClashingRun(hash12: string -> string, prefix: string, a: Args, b: Args)
    requires Clash(KeyLayout(hash12, prefix), a, b)
    ensures !Truthful(KeyLayout(hash12, prefix), map[], MisleadingRun(KeyLayout(hash12, prefix), a, b))
    ensures forall x | x in MisleadingRun(KeyLayout(hash12, prefix), a, b) :: x == a || x == b
  {
    NamesDiffer(prefix, SlotOf(a), hash12(a.content));
    NamesDiffer(prefix, SlotOf(b), hash12(b.content));
    ClashMisleads(KeyLayout(hash12, prefix), a, b);
  }

  lemma NamesDiffer(prefix: string, slot: Slot, digest: string)
    ensures Natural(prefix, slot) != Hashed(prefix, slot, digest)
  {
    assert |Hashed(prefix, slot, digest)| > |Natural(prefix, slot)|;
  }

  // The key layout

  /** What the connector cuts from a hash: twelve lowercase hexadecimal digits. */
  predicate IsDigest(s: string) {
    |s| == 12 && IsLowerHex(s)
  }

  ghost predicate CutsDigests(hash12: string -> string) {
    forall c :: IsDigest(hash12(c))
  }

  /** The digest tells apart the contents these requests use. */
  predicate KeepsApart(hash12: string -> string, requests: set<Args>) {
    forall a, b | a in requests && b in requests && hash12(a.content) == hash12(b.content) :: a.content == b.content
  }

  predicate Dotless(a: Args) {
    a.runId.Some? ==> '.' !in a.runId.value
  }

  predicate PlainSlot(slot: Slot) {
    '/' !in slot.agent && '/' !in slot.stem && '.' !in slot.stem
  }

  lemma SegmentHasNoSlash(s: string)
    requires IsSegment(s) || IsDate(s)
    ensures '/' !in s && (IsDate(s) ==> '.' !in s)
  {
    var body := DropNewline(s);
    assert s == body || s == body + ['\n'];
    if IsDate(s) {
      forall i | 0 <= i < |body| ensures body[i] != '/' && body[i] != '.' {
        assert i == 4 || i == 7 || IsDigit(body[i]);
      }
    }
  }

  lemma SlotIsPlain(a: Args)
    requires ValidArgs(a) && Dotless(a)
    ensures PlainSlot(SlotOf(a))
  {
    SegmentHasNoSlash(a.agent);
    SegmentHasNoSlash(a.logicalDate);
    if a.runId.Some? {
      SegmentHasNoSlash(a.runId.value);
    }
  }

  lemma SubdirSplit(k: Kind, l: Kind, x: string, y: string)
    requires k.Subdir() + "/" + x == l.Subdir() + "/" + y
    ensures k == l && x == y
  {
    SplitAtFirst(k.Subdir(), l.Subdir(), x, y, '/');
    assert "briefs"[0] != "digests"[0] && "briefs"[0] != "deltas"[0] && "digests"[1] != "deltas"[1];
  }

  /** A key names its agent and kind, and the rest is the file name. */
  lemma LayoutSplit(prefix: string, s: Slot, t: Slot, x: string, y: string)
    requires '/' !in s.agent && '/' !in t.agent
    requires prefix + s.agent + "/" + s.kind.Subdir() + "/" + x == prefix + t.agent + "/" + t.kind.Subdir() + "/" + y
    ensures s.agent == t.agent && s.kind == t.kind && x == y
  {
    var ks, kt := s.kind.Subdir(), t.kind.Subdir();
    var xs, ys := ks + "/" + x, kt + "/" + y;
    CutPrefix(prefix, s.agent, ks, x);
    CutPrefix(prefix, t.agent, kt, y);
    SplitAtFirst(s.agent, t.agent, xs, ys, '/');
    SubdirSplit(s.kind, t.kind, x, y);
  }

  lemma CutPrefix(prefix: string, agent: string, subdir: string, x: string)
    ensures (prefix + agent + "/" + subdir + "/" + x)[|prefix|..] == agent + "/" + (subdir + "/" + x)
  {
  }

  lemma FileName(prefix: string, s: Slot, digest: string)
    ensures Natural(prefix, s) == prefix + s.agent + "/" + s.kind.Subdir() + "/" + (s.stem + s.kind.Ext())
    ensures Hashed(prefix, s, digest)
            == prefix + s.agent + "/" + s.kind.Subdir() + "/" + (s.stem + "." + (digest + s.kind.Ext()))
  {
    var dir := prefix + s.agent + "/" + s.kind.Subdir() + "/";
    assert dir + s.stem + s.kind.Ext() == dir + (s.stem + s.kind.Ext());
    assert dir + s.stem + "." + digest + s.kind.Ext() == dir + (s.stem + "." + (digest + s.kind.Ext()));
  }

  /** The layout is injective: natural names are told from hashed ones, slot from slot, digest from digest. */
  lemma LayoutInjective(prefix: string, s: Slot, d: string, t: Slot, e: string)
    requires PlainSlot(s) && PlainSlot(t)
    ensures Natural(prefix, s) == Natural(prefix, t) <==> s == t
    ensures Hashed(prefix, s, d) == Hashed(prefix, t, e) <==> s == t && d == e
    ensures '.' !in e ==> Natural(prefix, s) != Hashed(prefix, t, e)
  {
    FileName(prefix, s, d);
    FileName(prefix, t, e);
    if Natural(prefix, s) == Natural(prefix, t) {
      LayoutSplit(prefix, s, t, s.stem + s.kind.Ext(), t.stem + t.kind.Ext());
      SameSuffix(s.stem, t.stem, s.kind.Ext());
    }
    if Hashed(prefix, s, d) == Hashed(prefix, t, e) {
      LayoutSplit(prefix, s, t, s.stem + "." + (d + s.kind.Ext()), t.stem + "." + (e + t.kind.Ext()));
      SplitAtFirst(s.stem, t.stem, d + s.kind.Ext(), e + t.kind.Ext(), '.');
      SameSuffix(d, e, s.kind.Ext());
    }
    if Natural(prefix, s) == Hashed(prefix, t, e) {
      LayoutSplit(prefix, s, t, s.stem + s.kind.Ext(), t.stem + "." + (e + t.kind.Ext()));
      var ext := s.kind.Ext();
      assert t.stem + "." + (e + ext) == (t.stem + "." + e) + ext;
      SameSuffix(s.stem, t.stem + "." + e, ext);
    }
  }

  lemma SameSuffix(a: string, b: string, suffix: string)
    requires a + suffix == b + suffix
    ensures a == b
  {
    assert |a| == |b|;
    assert a == (a + suffix)[..|a|] == (b + suffix)[..|b|] == b;
  }

  /** Where each kind goes: briefs and digests under their date, deltas under the run that made them if it has an id. */
  lemma KeyIs(hash12: string -> string, prefix: string, a: Args)
    requires ValidArgs(a)
    ensures var k, h := KeyLayout(hash12, prefix).natural(a), hash12(a.content);
            && (a.kind == "brief" ==> k == prefix + a.agent + "/briefs/" + a.logicalDate + ".md")
            && (a.kind == "digest" ==> k == prefix + a.agent + "/digests/" + a.logicalDate + ".md")
            && (a.kind == "ledger_delta" ==>
                  var stem := if a.runId.Some? then a.runId.value else a.logicalDate;
                  k == prefix + a.agent + "/deltas/" + stem + ".jsonl")
            && (a.kind == "ledger_delta" || a.kind == "brief" || a.kind == "digest")
            && KeyLayout(hash12, prefix).hashed(a)
               == k[..|k| - |ExtensionOf(a)|] + "." + h + ExtensionOf(a)
  {
    var kind := KindOf(a.kind).value;
    var slot := SlotOf(a);
    var dir := prefix + a.agent + "/" + kind.Subdir() + "/";
    KindsAre();
    assert Natural(prefix, slot) == dir + slot.stem + kind.Ext();
    assert dir == prefix + a.agent + ("/" + kind.Subdir() + "/");
    assert (dir + slot.stem + kind.Ext())[..|dir + slot.stem|] == dir + slot.stem;
  }

  /** A date is four, two and two digits joined by hyphens, and may end in a newline. */
  lemma DateIs(s: string)
    ensures IsDate(s) <==>
            exists y, m, d :: |y| == 4 && |m| == 2 && |d| == 2 && Digits(y) && Digits(m) && Digits(d)
                              && (s == y + "-" + m + "-" + d || s == y + "-" + m + "-" + d + "\n")
  {
    var body := DropNewline(s);
    if IsDate(s) {
      assert body == body[..4] + "-" + body[5..7] + "-" + body[8..];
      assert Digits(body[..4]) && Digits(body[5..7]) && Digits(body[8..]);
      assert s == body || s == body + "\n";
    }
    if y, m, d :| |y| == 4 && |m| == 2 && |d| == 2 && Digits(y) && Digits(m) && Digits(d)
                  && (s == y + "-" + m + "-" + d || s == y + "-" + m + "-" + d + "\n") {
      var t := y + "-" + m + "-" + d;
      assert IsDigit(t[9]) by { assert t[9] == d[1]; }
      assert body == t;
      forall i | 0 <= i < 10 && i != 4 && i != 7 ensures IsDigit(t[i]) {
        assert t[i] == if i < 4 then y[i] else if i < 7 then m[i - 5] else d[i - 8];
      }
    }
  }

  predicate Digits(s: string) {
    forall i | 0 <= i < |s| :: '0' <= s[i] <= '9'
  }

  /** A path segment has at most 128 letters, digits, dots, underscores and hyphens, a letter or digit first. */
  lemma SegmentIs(s: string)
    ensures IsSegment(s) <==>
            exists b :: 1 <= |b| <= 128 && (s == b || s == b + "\n") && b[0] !in {'.', '_', '-'}
                        && forall c | c in b :: 'a' <= c <= 'z' || 'A' <= c <= 'Z' || '0' <= c <= '9' || c in "._-"
  {
    var body := DropNewline(s);
    if IsSegment(s) {
      assert s == body || s == body + "\n";
      assert body[0] !in {'.', '_', '-'};
    }
    if b :| 1 <= |b| <= 128 && (s == b || s == b + "\n") && b[0] !in {'.', '_', '-'}
            && forall c | c in b :: 'a' <= c <= 'z' || 'A' <= c <= 'Z' || '0' <= c <= '9' || c in "._-" {
      assert b[|b| - 1] in b && b[0] in b;
      assert body == b;
    }
  }

  function ExtensionOf(a: Args): string {
    if a.kind == "ledger_delta" then ".jsonl" else ".md"
  }

  lemma KindsAre()
    ensures "/" + Brief.Subdir() + "/" == "/briefs/" && "/" + Digest.Subdir() + "/" == "/digests/"
    ensures "/" + LedgerDelta.Subdir() + "/" == "/deltas/"
    ensures "brief" != "digest" && "brief" != "ledger_delta" && "digest" != "ledger_delta"
  {
    assert |"brief"| == 5 && |"digest"| == 6 && |"ledger_delta"| == 12;
  }

  lemma {:induction false} StripSlashesIs(slashes: string, rest: string)
    requires (forall i | 0 <= i < |slashes| :: slashes[i] == '/') && (rest != "" ==> rest[0] != '/')
    ensures StripSlashes(slashes + rest) == rest
  {
    if slashes == [] {
      assert slashes + rest == rest;
    } else {
      assert (slashes + rest)[1..] == slashes[1..] + rest;
      StripSlashesIs(slashes[1..], rest);
    }
  }

  /** A credential's prefix loses its leading slashes and ends in a slash, unless nothing is left of it. */
  lemma PrefixIs(slashes: string, rest: string)
    requires (forall i | 0 <= i < |slashes| :: slashes[i] == '/') && (rest != "" ==> rest[0] != '/')
    ensures NormalPrefix(slashes + rest)
            == if rest == "" then "" else if rest[|rest| - 1] == '/' then rest else rest + "/"
  {
    StripSlashesIs(slashes, rest);
  }

  /** With no dot in any run id and a digest that keeps the contents in use apart, no requests clash. */
  lemma DotlessNeverClashes(hash12: string -> string, prefix: string, requests: set<Args>)
    requires CutsDigests(hash12) && KeepsApart(hash12, requests)
    requires forall a | a in requests :: ValidArgs(a) && Dotless(a)
    ensures NoClash(KeyLayout(hash12, prefix), requests)
  {
    forall a, b | a in requests && b in requests ensures !Clash(KeyLayout(hash12, prefix), a, b) {
      SlotIsPlain(a);
      SlotIsPlain(b);
      assert IsDigest(hash12(b.content));
      LayoutInjective(prefix, SlotOf(a), hash12(a.content), SlotOf(b), hash12(b.content));
    }
  }

  /** The delta whose run id spells another delta's stem and digest, with content of its own. */
  function Usurper(hash12: string -> string, b: Args, other: string): Args
    requires b.runId.Some?
  {
    b.(runId := Some(b.runId.value + "." + hash12(b.content)), content := other)
  }

  /** A run id as the pattern means it, with no newline at its end and room for a dot and a digest. */
  predicate LeavesRoom(runId: string) {
    |runId| <= 115 && (runId != [] ==> runId[|runId| - 1] != '\n')
  }

  lemma UsurperSegment(runId: string, digest: string)
    requires IsSegment(runId) && IsDigest(digest)
    ensures IsSegment(runId + "." + digest) <==> LeavesRoom(runId)
  {
    var s := runId + "." + digest;
    assert s[|s| - 1] == digest[11] && digest[11] in digest;
    assert DropNewline(s) == s;
    if LeavesRoom(runId) {
      assert s[0] == runId[0];
      forall c | c in s ensures IsAlnum(c) || c == '.' || c == '_' || c == '-' {
        assert c in runId || c == '.' || c in digest;
      }
    } else if runId[|runId| - 1] == '\n' {
      assert s[|runId| - 1] == '\n' && s[|runId| - 1] in s;
    }
  }

  /**
   The dot is what lets requests clash. For a valid delta, the run id that spells
   its stem and digest is valid iff it leaves room; storing the one, the other
   and the one again then answers with a key that holds the other's content.
   */
  lemma DottedRunIdClashes(hash12: string -> string, prefix: string, b: Args, other: string)
    requires ValidArgs(b) && b.kind == "ledger_delta" && b.runId.Some? && IsDigest(hash12(b.content))
    requires other != "" && other != b.content
    ensures var a := Usurper(hash12, b, other);
            && !Dotless(a) && Clash(KeyLayout(hash12, prefix), a, b)
            && (ValidArgs(a) <==> LeavesRoom(b.runId.value))
            && !Truthful(KeyLayout(hash12, prefix), map[], [b, a, b])
  {
    var stem, digest := b.runId.value, hash12(b.content);
    var a := Usurper(hash12, b, other);
    assert (stem + "." + digest)[|stem|] == '.';
    var dir := prefix + b.agent + "/" + LedgerDelta.Subdir() + "/";
    assert dir + (stem + "." + digest) + ".jsonl" == dir + stem + "." + digest + ".jsonl";
    assert SlotOf(a) == Slot(b.agent, LedgerDelta, stem + "." + digest)
           && SlotOf(b) == Slot(b.agent, LedgerDelta, stem);
    UsurperSegment(stem, digest);
    ClashingRun(hash12, prefix, a, b);
    assert MisleadingRun(KeyLayout(hash12, prefix), a, b) == [b, a, b];
  }

  /** The contents sent to one slot. */
  function ContentsOf(requests: set<Args>, slot: Slot): set<string> {
    set a | a in requests && SlotOf(a) == slot :: a.content
  }

  function SlotKeys(hash12: string -> string, prefix: string, slot: Slot, contents: set<string>): set<string> {
    {Natural(prefix, slot)} + set c | c in contents :: Hashed(prefix, slot, hash12(c))
  }

  lemma {:induction false} SlotKeysCount(hash12: string -> string, prefix: string, slot: Slot, contents: set<string>)
    ensures |SlotKeys(hash12, prefix, slot, contents)| <= |contents| + 1
  {
    if contents == {} {
      assert SlotKeys(hash12, prefix, slot, contents) == {Natural(prefix, slot)};
    } else {
      var c :| c in contents;
      SlotKeysCount(hash12, prefix, slot, contents - {c});
      assert SlotKeys(hash12, prefix, slot, contents)
          == SlotKeys(hash12, prefix, slot, contents - {c}) + {Hashed(prefix, slot, hash12(c))};
    }
  }

  ghost predicate InSlot(hash12: string -> string, prefix: string, slot: Slot, k: string) {
    k == Natural(prefix, slot) || exists c :: k == Hashed(prefix, slot, hash12(c))
  }

  lemma KeyOfSlot(hash12: string -> string, prefix: string, a: Args, slot: Slot, k: string)
    requires CutsDigests(hash12) && PlainSlot(slot) && ValidArgs(a) && Dotless(a)
    requires InSlot(hash12, prefix, slot, k) && Names(KeyLayout(hash12, prefix), a, k)
    ensures k == Natural(prefix, slot) || (SlotOf(a) == slot && k == Hashed(prefix, slot, hash12(a.content)))
  {
    if k != Natural(prefix, slot) {
      var c :| k == Hashed(prefix, slot, hash12(c));
      SlotIsPlain(a);
      LayoutInjective(prefix, SlotOf(a), hash12(a.content), slot, hash12(c));
    }
  }

  lemma OwnedSlotIsBounded(hash12: string -> string, prefix: string, requests: set<Args>, objects: Objects, slot: Slot)
    requires CutsDigests(hash12) && PlainSlot(slot) && forall a | a in requests :: ValidArgs(a) && Dotless(a)
    requires Owned(KeyLayout(hash12, prefix), requests, objects)
    ensures |set k | k in objects && InSlot(hash12, prefix, slot, k)| <= |ContentsOf(requests, slot)| + 1
  {
    var layout := KeyLayout(hash12, prefix);
    var held := set k | k in objects && InSlot(hash12, prefix, slot, k);
    var contents := ContentsOf(requests, slot);
    forall k | k in held ensures k in SlotKeys(hash12, prefix, slot, contents) {
      var a :| a in requests && Names(layout, a, k) && objects[k] == a.content;
      KeyOfSlot(hash12, prefix, a, slot, k);
    }
    SubsetCardinality(held, SlotKeys(hash12, prefix, slot, contents));
    SlotKeysCount(hash12, prefix, slot, contents);
  }
}

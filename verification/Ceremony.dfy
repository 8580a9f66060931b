/** Ceremony identities of the local arm, and when two of them make a maker/checker pair. */
module Ceremony {
  import opened Prelude
  import opened Text

  const LOCAL_IDENTITY_PREFIX := "local-solo:"
  const SOLO_ATTESTATION := "solo-local"

  predicate IsLocalRole(role: string) {
    role == "maker" || role == "checker"
  }

  predicate Reserved(c: char) {
    c == '@' || c == '#' || c == ':'
  }

  function Cleaned(s: string): (r: string)
    ensures |r| == |s| && forall c | c in r :: !Reserved(c) && !IsSpace(c)
  {
    if s == [] then []
    else [if Reserved(s[0]) || IsSpace(s[0]) then '-' else s[0]] + Cleaned(s[1..])
  }

  function Sanitize(raw: string): string {
    Cleaned(Strip(raw))
  }

  function FirstLabel(host: string): string {
    if host == [] || host[0] == '.' then [] else [host[0]] + FirstLabel(host[1..])
  }

  function OrElse(s: string, fallback: string): string {
    if s == [] then fallback else s
  }

  /** What the operating system answered; a lookup that raised gives nothing. */
  datatype Machine = Machine(user: Option<string>, hostname: Option<string>)

  function UserOf(m: Machine): string {
    OrElse(if m.user.Some? then Sanitize(m.user.value) else "", "unknown-user")
  }

  function HostOf(m: Machine): string {
    OrElse(if m.hostname.Some? then Sanitize(FirstLabel(m.hostname.value)) else "", "unknown-host")
  }

  function DeriveOperator(m: Machine): string {
    UserOf(m) + "@" + HostOf(m)
  }

  /** The local arm: refused for an unknown role, a projected token, or the cloud store. */
  function LocalIdentity(role: string, m: Machine, tokenPresent: bool, dynamoArm: bool): Option<string> {
    if !IsLocalRole(role) || tokenPresent || dynamoArm then None
    else Some(LOCAL_IDENTITY_PREFIX + DeriveOperator(m) + "#" + role)
  }

  predicate IsLocalIdentity(identity: string) {
    LOCAL_IDENTITY_PREFIX <= identity
  }

  function AttestationFor(identity: string): Option<string> {
    if IsLocalIdentity(identity) then Some(SOLO_ATTESTATION) else None
  }

  /** What follows the last `#`, if there is one. */
  function AfterLastHash(s: string): Option<string> {
    if s == [] then None
    else if s[|s| - 1] == '#' then Some([])
    else
      var front :- AfterLastHash(s[..|s| - 1]);
      Some(front + [s[|s| - 1]])
  }

  function LocalRoleOf(identity: string): Option<string> {
    if IsLocalIdentity(identity) then AfterLastHash(identity) else None
  }

  predicate IsSameOperator(proposedBy: string, ratifier: string) {
    proposedBy == ratifier || (LocalRoleOf(proposedBy).Some? && LocalRoleOf(proposedBy) == LocalRoleOf(ratifier))
  }

  lemma {:induction false} AfterLastHashExact(before: string, role: string)
    requires '#' !in role
    ensures AfterLastHash(before + "#" + role) == Some(role)
  {
    var s := before + "#" + role;
    if role != [] {
      var front := role[..|role| - 1];
      assert s[..|s| - 1] == before + "#" + front;
      assert s[|s| - 1] == role[|role| - 1] && role[|role| - 1] in role;
      AfterLastHashExact(before, front);
      assert front + [role[|role| - 1]] == role;
    }
  }

  /** Cleaning keeps each character that is neither reserved nor whitespace, and puts a hyphen for the others. */
  lemma {:induction false} CleanedEach(s: string)
    ensures |Cleaned(s)| == |s|
    ensures forall i | 0 <= i < |s| ::
              Cleaned(s)[i] == if s[i] in {'@', '#', ':'} || IsSpace(s[i]) then '-' else s[i]
  {
    if s != [] {
      CleanedEach(s[1..]);
      assert forall i | 0 < i < |s| :: s[i] == s[1..][i - 1] && Cleaned(s)[i] == Cleaned(s[1..])[i - 1];
    }
  }

  /** A name that needs no cleaning. */
  predicate CleanName(s: string) {
    s != "" && forall i | 0 <= i < |s| :: s[i] !in {'@', '#', ':'} && !IsSpace(s[i])
  }

  lemma CleanIsKept(s: string)
    requires CleanName(s)
    ensures Sanitize(s) == s
  {
    assert StripLeft(s) == s && StripRight(s) == s;
    CleanedEach(s);
  }

  lemma {:induction false} LabelBeforeDot(name: string, rest: string)
    requires '.' !in name
    ensures FirstLabel(name) == name && FirstLabel(name + "." + rest) == name
  {
    if name != [] {
      assert name[0] in name;
      LabelBeforeDot(name[1..], rest);
      assert (name + "." + rest)[1..] == name[1..] + "." + rest;
      assert name == [name[0]] + name[1..];
    } else {
      assert (name + "." + rest)[0] == '.';
    }
  }

  /**
   The local arm answers iff the role is one of the two, no token is projected and
   the store is not the cloud's; and then with its user, its short host and the
   role, where names that need no cleaning stand as they are.
   */
  lemma LocalIdentityIs(role: string, user: string, host: string, domain: string, tokenPresent: bool, dynamoArm: bool)
    requires CleanName(user) && CleanName(host) && '.' !in host
    ensures LocalIdentity(role, Machine(Some(user), Some(host + "." + domain)), tokenPresent, dynamoArm)
            == if (role == "maker" || role == "checker") && !tokenPresent && !dynamoArm
               then Some("local-solo:" + (user + "@" + host) + "#" + role) else None
    ensures LocalIdentity(role, Machine(Some(user), Some(host)), tokenPresent, dynamoArm)
            == LocalIdentity(role, Machine(Some(user), Some(host + "." + domain)), tokenPresent, dynamoArm)
  {
    CleanIsKept(user);
    CleanIsKept(host);
    LabelBeforeDot(host, domain);
  }

  /** A lookup that raised, or a name that is blank, leaves the stand-in. */
  lemma NamelessIs(m: Machine)
    ensures m.user == None || Strip(m.user.value) == "" ==> UserOf(m) == "unknown-user"
    ensures m.hostname == None || Strip(FirstLabel(m.hostname.value)) == "" ==> HostOf(m) == "unknown-host"
  {
  }

  /** The role a local identity was made for parses back, whatever the machine is called. */
  lemma RoleParsesBack(role: string, m: Machine, tokenPresent: bool, dynamoArm: bool)
    requires LocalIdentity(role, m, tokenPresent, dynamoArm).Some?
    ensures var id := LocalIdentity(role, m, tokenPresent, dynamoArm).value;
            LocalRoleOf(id) == Some(role) && AttestationFor(id) == Some(SOLO_ATTESTATION)
  {
    var id := LocalIdentity(role, m, tokenPresent, dynamoArm).value;
    AfterLastHashExact(LOCAL_IDENTITY_PREFIX + DeriveOperator(m), role);
    assert id[..|LOCAL_IDENTITY_PREFIX|] == LOCAL_IDENTITY_PREFIX;
  }

  /** Two identities of the local arm are accepted as a pair iff one is maker and the other checker. */
  lemma PairIffRolesDiffer(r1: string, m1: Machine, r2: string, m2: Machine)
    requires LocalIdentity(r1, m1, false, false).Some? && LocalIdentity(r2, m2, false, false).Some?
    ensures var a, b := LocalIdentity(r1, m1, false, false).value, LocalIdentity(r2, m2, false, false).value;
            && (!IsSameOperator(a, b) <==> (r1 == "maker" && r2 == "checker") || (r1 == "checker" && r2 == "maker"))
            && AttestationFor(a) == AttestationFor(b) == Some(SOLO_ATTESTATION)
  {
    RoleParsesBack(r1, m1, false, false);
    RoleParsesBack(r2, m2, false, false);
    assert "maker"[0] != "checker"[0];
  }

  /** An identity of another arm has no role and no attestation, and is the same operator only as itself. */
  lemma OthersCompareByName(id: string, other: string)
    requires !("local-solo:" <= id)
    ensures LocalRoleOf(id) == None && AttestationFor(id) == None
    ensures (IsSameOperator(id, other) <==> id == other) && (IsSameOperator(other, id) <==> id == other)
  {
  }

  /** Being the same operator is an equivalence over all identity strings. */
  lemma SameOperatorIsEquivalence(a: string, b: string, c: string)
    ensures IsSameOperator(a, a)
    ensures IsSameOperator(a, b) <==> IsSameOperator(b, a)
    ensures IsSameOperator(a, b) && IsSameOperator(b, c) ==> IsSameOperator(a, c)
  {
  }

  predicate Plain(s: string) {
    forall c | c in s :: !Reserved(c)
  }

  lemma DerivedPartsArePlain(m: Machine)
    ensures Plain(UserOf(m)) && Plain(HostOf(m))
  {
  }

  /** No operator or host name can forge structure: equal identities have equal users, hosts and roles. */
  lemma IdentityIsUnambiguous(r1: string, m1: Machine, r2: string, m2: Machine)
    requires LocalIdentity(r1, m1, false, false).Some?
    requires LocalIdentity(r1, m1, false, false) == LocalIdentity(r2, m2, false, false)
    ensures r1 == r2 && UserOf(m1) == UserOf(m2) && HostOf(m1) == HostOf(m2)
  {
    DerivedPartsArePlain(m1);
    DerivedPartsArePlain(m2);
    PartsFromText(LOCAL_IDENTITY_PREFIX, UserOf(m1), HostOf(m1), r1, UserOf(m2), HostOf(m2), r2);
  }

  lemma PartsFromText(p: string, u1: string, h1: string, r1: string, u2: string, h2: string, r2: string)
    requires Plain(u1) && Plain(h1) && Plain(u2) && Plain(h2)
    requires p + (u1 + "@" + h1) + "#" + r1 == p + (u2 + "@" + h2) + "#" + r2
    ensures u1 == u2 && h1 == h2 && r1 == r2
  {
    var x, y := h1 + "#" + r1, h2 + "#" + r2;
    assert (p + (u1 + "@" + h1) + "#" + r1)[|p|..] == u1 + "@" + x;
    assert (p + (u2 + "@" + h2) + "#" + r2)[|p|..] == u2 + "@" + y;
    SplitAtFirst(u1, u2, x, y, '@');
    SplitAtFirst(h1, h2, r1, r2, '#');
  }
}

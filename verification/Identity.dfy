/** `canonical_identity` on ASCII text, as a witness that the idempotence the theorems ask for can be had. */
module Identity {
  import opened Text
  import opened Schemas

  /** Strip, then fold case. Beyond ASCII the fold is left to the world's canonicalizer. */
  function AsciiCanonical(raw: string): string {
    LowerAll(Strip(raw))
  }

  /** No whitespace at either end. */
  predicate Trimmed(s: string) {
    s != [] ==> !IsSpace(s[0]) && !IsSpace(s[|s| - 1])
  }

  lemma {:induction false} StripRightTrims(s: string)
    requires s != [] ==> !IsSpace(s[0])
    ensures Trimmed(StripRight(s))
  {
    if s != [] && IsSpace(s[|s| - 1]) {
      StripRightTrims(s[..|s| - 1]);
    }
  }

  lemma {:induction false} LowerEach(s: string)
    ensures |LowerAll(s)| == |s| && forall i | 0 <= i < |s| :: LowerAll(s)[i] == LowerChar(s[i])
  {
    if s != [] {
      LowerEach(s[1..]);
    }
  }

  lemma LowerKeepsSpace(c: char)
    ensures IsSpace(LowerChar(c)) <==> IsSpace(c)
    ensures LowerChar(LowerChar(c)) == LowerChar(c)
  {
  }

  lemma LowerTwice(s: string)
    ensures LowerAll(LowerAll(s)) == LowerAll(s)
  {
    LowerEach(s);
    LowerEach(LowerAll(s));
    forall i | 0 <= i < |s| ensures LowerAll(LowerAll(s))[i] == LowerAll(s)[i] {
      LowerKeepsSpace(s[i]);
    }
  }

  lemma LowerStaysTrimmed(s: string)
    requires Trimmed(s)
    ensures Trimmed(LowerAll(s))
  {
    LowerEach(s);
    if s != [] {
      LowerKeepsSpace(s[0]);
      LowerKeepsSpace(s[|s| - 1]);
    }
  }

  lemma CanonicalTwice(raw: string)
    ensures AsciiCanonical(AsciiCanonical(raw)) == AsciiCanonical(raw)
  {
    StripLeftShape(raw);
    StripRightTrims(StripLeft(raw));
    LowerStaysTrimmed(Strip(raw));
    var once := LowerAll(Strip(raw));
    assert Strip(once) == once;
    LowerTwice(Strip(raw));
  }

  /** The webhook's, the signer's and the verifier's canonicalization agree because doing it twice changes nothing. */
  lemma AsciiWorld(w: World)
    requires w.canonical == AsciiCanonical
    ensures CanonicalIdempotent(w)
  {
    forall s ensures w.canonical(w.canonical(s)) == w.canonical(s) {
      CanonicalTwice(s);
    }
  }
}

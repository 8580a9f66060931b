/** What the text functions write and how strings are ordered, said apart from how they are computed. */
module TextSpec {
  import opened Prelude
  import opened Text

  // Order

  /** The strings agree up to position `i` and there the first has the lower character. */
  predicate LowerAt(a: string, b: string, i: nat) {
    i < |a| && i < |b| && a[..i] == b[..i] && a[i] < b[i]
  }

  lemma LowerAtNext(a: string, b: string, i: nat)
    requires a != [] && b != []
    ensures LowerAt(a, b, 0) <==> a[0] < b[0]
    ensures LowerAt(a, b, i + 1) <==> a[0] == b[0] && LowerAt(a[1..], b[1..], i)
  {
    if i + 1 < |a| && i + 1 < |b| {
      assert a[..i + 1] == [a[0]] + a[1..][..i];
      assert b[..i + 1] == [b[0]] + b[1..][..i];
      assert a[..i + 1][0] == a[0] && b[..i + 1][0] == b[0];
      assert a[..i + 1][1..] == a[1..][..i] && b[..i + 1][1..] == b[1..][..i];
    }
  }

  lemma PrefixNext(a: string, b: string)
    requires a != [] && b != []
    ensures a < b <==> a[0] == b[0] && a[1..] < b[1..]
  {
    if |a| < |b| {
      assert a == [a[0]] + a[1..];
      assert b[..|a|] == [b[0]] + b[1..][..|a| - 1];
      assert b[..|a|][0] == b[0] && b[..|a|][1..] == b[1..][..|a| - 1];
    }
  }

  ghost predicate LowerSomewhere(a: string, b: string) {
    exists i: nat :: LowerAt(a, b, i)
  }

  lemma LowerSomewhereNext(a: string, b: string)
    requires a != [] && b != []
    ensures LowerSomewhere(a, b) <==> a[0] < b[0] || (a[0] == b[0] && LowerSomewhere(a[1..], b[1..]))
  {
    LowerAtNext(a, b, 0);
    if LowerSomewhere(a, b) {
      var i: nat :| LowerAt(a, b, i);
      if i > 0 {
        LowerAtNext(a, b, i - 1);
      }
    }
    if a[0] == b[0] && LowerSomewhere(a[1..], b[1..]) {
      var i: nat :| LowerAt(a[1..], b[1..], i);
      LowerAtNext(a, b, i);
    }
  }

  /** One string is below another iff it is a proper prefix of it or has the lower character where they first differ. */
  lemma {:induction false} LessIsLexicographic(a: string, b: string)
    ensures Less(a, b) <==> a < b || LowerSomewhere(a, b)
  {
    if a != [] && b != [] {
      LessIsLexicographic(a[1..], b[1..]);
      PrefixNext(a, b);
      LowerSomewhereNext(a, b);
    }
  }

  // UTF-8

  /** A continuation byte of RFC 3629, section 3. */
  predicate Continues(b: byte) {
    0x80 <= b < 0xC0
  }

  /** Reads one code point from the front of UTF-8 text, as RFC 3629, section 3, lays it out. */
  function ReadUtf8(b: seq<byte>): Option<(int, nat)> {
    if b == [] then None
    else if b[0] < 0x80 then Some((b[0], 1))
    else if 0xC0 <= b[0] < 0xE0 && |b| >= 2 && Continues(b[1]) then
      Some(((b[0] as int - 0xC0) * 64 + (b[1] as int - 0x80), 2))
    else if 0xE0 <= b[0] < 0xF0 && |b| >= 3 && Continues(b[1]) && Continues(b[2]) then
      Some((((b[0] as int - 0xE0) * 64 + (b[1] as int - 0x80)) * 64 + (b[2] as int - 0x80), 3))
    else if 0xF0 <= b[0] < 0xF8 && |b| >= 4 && Continues(b[1]) && Continues(b[2]) && Continues(b[3]) then
      var high := ((b[0] as int - 0xF0) * 64 + (b[1] as int - 0x80)) * 64 + (b[2] as int - 0x80);
      Some((high * 64 + (b[3] as int - 0x80), 4))
    else None
  }

  /** Each character is written as its code point, in the least number of bytes that holds it. */
  lemma Utf8CharReads(c: char, rest: seq<byte>)
    ensures ReadUtf8(Utf8Char(c) + rest) == Some((c as int, |Utf8Char(c)|))
    ensures |Utf8Char(c)| <= 2 <==> c as int < 0x800
    ensures |Utf8Char(c)| <= 3 <==> c as int < 0x1_0000
  {
    var u := Utf8Char(c);
    var b := u + rest;
    Base64Digits(c as int);
    assert b[0] == u[0] && forall i | 0 <= i < |u| :: b[i] == u[i];
  }

  // Numerals

  /** No zero in front but in zero itself. */
  lemma {:induction false} DecimalIsShortest(n: nat)
    ensures Decimal(n)[0] == '0' ==> n == 0
  {
    if n >= 10 {
      DecimalIsShortest(n / 10);
    }
  }

  /** Written in lowercase. */
  lemma Hex4IsLower(n: int)
    requires 0 <= n < 0x1_0000
    ensures IsLowerHex(Hex4(n))
  {
  }
}

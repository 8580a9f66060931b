/** The DSSE layout (DSSE protocol specification, "Signature Definition"), read back from what is signed. */
module Dsse {
  import opened Prelude
  import opened Text
  import opened Signing

  /** `DSSEv1` and a space. */
  const PREFIX: seq<byte> := [68, 83, 83, 69, 118, 49, 32]

  predicate IsDigitByte(b: byte) {
    48 <= b < 58
  }

  /** A decimal number closed by a space: its value and how many bytes it and the space take. */
  function ReadLength(b: seq<byte>, sofar: nat): Option<(nat, nat)> {
    if b == [] then None
    else if b[0] == 32 then Some((sofar, 1))
    else if !IsDigitByte(b[0]) then None
    else
      var tail :- ReadLength(b[1..], sofar * 10 + (b[0] - 48));
      Some((tail.0, tail.1 + 1))
  }

  /** A length, a space, and that many bytes; and what follows them. */
  function ReadCounted(b: seq<byte>): Option<(seq<byte>, seq<byte>)> {
    var head :- ReadLength(b, 0);
    var (n, k) := head;
    if k + n <= |b| then Some((b[k..k + n], b[k + n..])) else None
  }

  /** `DSSEv1`, the counted type, a space, and the counted payload up to the end. */
  function ReadDsse(b: seq<byte>): Option<(seq<byte>, seq<byte>)> {
    if |b| < 7 || b[..7] != PREFIX then None
    else
      var kind :- ReadCounted(b[7..]);
      if kind.1 == [] || kind.1[0] != 32 then None
      else
        var body :- ReadCounted(kind.1[1..]);
        if body.1 == [] then Some((kind.0, body.0)) else None
  }

  lemma ReadLengthStep(b: seq<byte>, digit: byte, tail: seq<byte>, sofar: nat, n: nat, k: nat)
    requires IsDigitByte(digit) && b == [digit] + tail
    requires ReadLength(tail, sofar * 10 + (digit - 48)) == Some((n, k))
    ensures ReadLength(b, sofar) == Some((n, k + 1))
  {
    assert b[1..] == tail;
  }

  lemma DigitFirst(digits: string, rest: seq<byte>)
    requires digits != [] && IsDigit(digits[0])
    ensures Utf8(digits) + rest == [digits[0] as int] + (Utf8(digits[1..]) + rest)
  {
    assert Utf8Char(digits[0]) == [digits[0] as int];
  }

  lemma {:induction false} LengthReadsOn(digits: string, rest: seq<byte>, sofar: nat)
    requires forall c | c in digits :: IsDigit(c)
    ensures ReadLength(Utf8(digits) + ([32] + rest), sofar) == Some((Appended(sofar, digits), |digits| + 1))
    decreases |digits|
  {
    if digits != [] {
      assert digits[0] in digits;
      var digit := digits[0] as int;
      DigitFirst(digits, [32] + rest);
      LengthReadsOn(digits[1..], rest, sofar * 10 + (digit - 48));
      ReadLengthStep(Utf8(digits) + ([32] + rest), digit, Utf8(digits[1..]) + ([32] + rest), sofar,
                     Appended(sofar, digits), |digits|);
    } else {
      assert Utf8(digits) + ([32] + rest) == [32] + rest;
    }
  }

  /** The number that `digits` make when read after `sofar`. */
  function Appended(sofar: nat, digits: string): nat
    requires forall c | c in digits :: IsDigit(c)
    decreases |digits|
  {
    if digits == [] then sofar
    else
      assert IsDigit(digits[0]) by { assert digits[0] in digits; }
      Appended(sofar * 10 + (digits[0] as int - 48), digits[1..])
  }

  lemma {:induction false} AppendedOne(sofar: nat, digits: string, last: char)
    requires (forall c | c in digits :: IsDigit(c)) && IsDigit(last)
    ensures forall c | c in digits + [last] :: IsDigit(c)
    ensures Appended(sofar, digits + [last]) == Appended(sofar, digits) * 10 + (last as int - 48)
    decreases |digits|
  {
    var more := digits + [last];
    if digits == [] {
      assert more == [last] && more[1..] == [];
    } else {
      assert digits[0] in digits;
      assert more[0] == digits[0] && more[1..] == digits[1..] + [last];
      AppendedOne(sofar * 10 + (digits[0] as int - 48), digits[1..], last);
    }
  }

  lemma {:induction false} AppendedIsValue(digits: string)
    requires forall c | c in digits :: IsDigit(c)
    ensures Appended(0, digits) == DecimalValue(digits)
    decreases |digits|
  {
    if digits != [] {
      var front, last := digits[..|digits| - 1], digits[|digits| - 1];
      assert digits == front + [last] && last in digits;
      AppendedIsValue(front);
      AppendedOne(0, front, last);
    }
  }

  lemma CountedFrom(b: seq<byte>, n: nat, k: nat, body: seq<byte>)
    requires ReadLength(b, 0) == Some((n, k)) && k <= |b| && b[k..] == body && n <= |body|
    ensures ReadCounted(b) == Some((body[..n], body[n..]))
  {
    assert b[k..k + n] == body[..n] && b[k + n..] == body[n..];
  }

  lemma AfterDigits(digits: string, body: seq<byte>)
    requires forall c | c in digits :: IsDigit(c)
    ensures var b := Utf8(digits) + ([32] + body); |digits| + 1 <= |b| && b[|digits| + 1..] == body
  {
    forall i | 0 <= i < |digits| ensures digits[i] as int < 0x80 {
      assert digits[i] in digits;
    }
    Utf8Length(digits);
  }

  /** A count written in decimal and as many bytes read back, with whatever follows. */
  lemma CountedReadsBack(n: nat, bytes: seq<byte>, rest: seq<byte>)
    requires n <= |bytes + rest|
    ensures ReadCounted(Utf8(Decimal(n)) + ([32] + (bytes + rest))) == Some(((bytes + rest)[..n], (bytes + rest)[n..]))
  {
    var digits, body := Decimal(n), bytes + rest;
    LengthReadsOn(digits, body, 0);
    AppendedIsValue(digits);
    DecimalRoundTrip(n);
    AfterDigits(digits, body);
    CountedFrom(Utf8(digits) + ([32] + body), n, |digits| + 1, body);
  }

  lemma PaeText(payloadType: string, payload: seq<byte>)
    ensures var kind := [32] + (Utf8(Decimal(|payload|)) + ([32] + (payload + [])));
            Pae(payloadType, payload)
            == PREFIX + (Utf8(Decimal(|payloadType|)) + ([32] + (Utf8(payloadType) + kind)))
  {
    assert Utf8("DSSEv1 ") == PREFIX;
    assert payload + [] == payload;
    var d, u := Utf8(Decimal(|payloadType|)), Utf8(payloadType);
    var e := Utf8(Decimal(|payload|));
    assert e + [32] + payload == e + ([32] + payload);
    assert d + [32] + (u + ([32] + (e + [32] + payload))) == d + ([32] + (u + ([32] + (e + ([32] + payload)))));
  }

  /** The reader on a frame whose two counted parts it has read. */
  lemma FrameReads(b: seq<byte>, counted: seq<byte>, kind: seq<byte>, tail: seq<byte>, payload: seq<byte>)
    requires b == PREFIX + counted && ReadCounted(counted) == Some((kind, [32] + tail))
    requires ReadCounted(tail) == Some((payload, []))
    ensures ReadDsse(b) == Some((kind, payload))
  {
    assert b[..7] == PREFIX && b[7..] == counted;
    assert ([32] + tail)[1..] == tail;
  }

  lemma FrameTakes(b: seq<byte>, counted: seq<byte>, kind: seq<byte>, rest: seq<byte>)
    requires b == PREFIX + counted && ReadCounted(counted) == Some((kind, rest))
    ensures ReadDsse(b).Some? ==> ReadDsse(b).value.0 == kind
  {
    assert b[..7] == PREFIX && b[7..] == counted;
  }

  lemma DsseReads(payload: seq<byte>, kind: seq<byte>, n: nat, b: seq<byte>)
    requires n <= |kind|
    requires b == PREFIX
                  + (Utf8(Decimal(n)) + ([32] + (kind + ([32] + (Utf8(Decimal(|payload|)) + ([32] + (payload + [])))))))
    ensures n == |kind| ==> ReadDsse(b) == Some((kind, payload))
    ensures n < |kind| ==> ReadDsse(b).None? || |ReadDsse(b).value.0| == n
  {
    var tail := Utf8(Decimal(|payload|)) + ([32] + (payload + []));
    var rest := [32] + tail;
    var counted := Utf8(Decimal(n)) + ([32] + (kind + rest));
    CountedReadsBack(n, kind, rest);
    FrameTakes(b, counted, (kind + rest)[..n], (kind + rest)[n..]);
    if n == |kind| {
      assert (kind + rest)[..n] == kind && (kind + rest)[n..] == rest;
      CountedReadsBack(|payload|, payload, []);
      assert (payload + [])[..|payload|] == payload && (payload + [])[|payload|..] == [];
      FrameReads(b, counted, kind, tail, payload);
    }
  }

  /**
   What is signed is the DSSE encoding: a reader of that layout finds this type and
   this payload in it iff the type is ASCII. For any other type the count written,
   which is of characters, is short.
   */
  lemma PaeIsDsse(payloadType: string, payload: seq<byte>)
    ensures ReadDsse(Pae(payloadType, payload)) == Some((Utf8(payloadType), payload)) <==> Ascii(payloadType)
  {
    PaeText(payloadType, payload);
    Utf8Length(payloadType);
    ReadsIff(Pae(payloadType, payload), Utf8(payloadType), payload, |payloadType|);
  }

  lemma ReadsIff(b: seq<byte>, kind: seq<byte>, payload: seq<byte>, n: nat)
    requires n <= |kind|
    requires b == PREFIX
                  + (Utf8(Decimal(n)) + ([32] + (kind + ([32] + (Utf8(Decimal(|payload|)) + ([32] + (payload + [])))))))
    ensures ReadDsse(b) == Some((kind, payload)) <==> n == |kind|
  {
    DsseReads(payload, kind, n, b);
  }

  /** The one type used is ASCII. */
  lemma TypeIsAscii()
    ensures DSSE_PAYLOAD_TYPE == "application/vnd.in-toto+json" && Ascii(DSSE_PAYLOAD_TYPE)
  {
  }
}

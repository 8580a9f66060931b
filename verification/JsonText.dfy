/** The form of canonical JSON text: which escapes, and which order of members. */
module JsonText {
  import opened Prelude
  import opened Text
  import opened TextSpec
  import opened Json

  /** The value an object gives a field; `Null` where there is none. */
  function Field(j: Json, name: string): Json {
    if j.Obj? && name in j.members then j.members[name] else Null
  }

  /** A character is written as itself if it is plain, in two characters if it has a short escape, else in `\u` form. */
  lemma EscapeIsShortest(c: char)
    ensures Plain(c) ==> EscapeChar(c) == [c]
    ensures Short(c) ==> |EscapeChar(c)| == 2
    ensures !Plain(c) && !Short(c) ==>
              && |EscapeChar(c)| == (if c as int < 0x1_0000 then 6 else 12) && EscapeChar(c)[..2] == "\\u"
              && IsLowerHex(EscapeChar(c)[2..6])
              && (c as int >= 0x1_0000 ==> EscapeChar(c)[6..8] == "\\u" && IsLowerHex(EscapeChar(c)[8..]))
  {
    var n := c as int;
    if !Plain(c) && !Short(c) {
      if n < 0x1_0000 {
        Hex4IsLower(n);
        assert EscapeChar(c) == "\\u" + Hex4(n);
        assert EscapeChar(c)[2..6] == Hex4(n);
      } else {
        var hi, lo := 0xD800 + (n - 0x1_0000) / 1024, 0xDC00 + (n - 0x1_0000) % 1024;
        Hex4IsLower(hi);
        Hex4IsLower(lo);
        assert EscapeChar(c) == "\\u" + Hex4(hi) + "\\u" + Hex4(lo);
        assert EscapeChar(c)[2..6] == Hex4(hi) && EscapeChar(c)[8..] == Hex4(lo);
      }
    }
  }

  function FirstParts(pairs: seq<(string, Json)>): (r: seq<string>)
    ensures |r| == |pairs| && forall i | 0 <= i < |r| :: r[i] == pairs[i].0
  {
    seq(|pairs|, i requires 0 <= i < |pairs| => pairs[i].0)
  }

  lemma {:induction false} PairsKeys(m: map<string, Json>, keys: seq<string>)
    requires forall k | k in keys :: k in m
    ensures FirstParts(Pairs(m, keys)) == keys
  {
    if keys != [] {
      PairsKeys(m, keys[1..]);
      var pairs := Pairs(m, keys);
      assert pairs[1..] == Pairs(m, keys[1..]);
      assert FirstParts(pairs)[1..] == FirstParts(pairs[1..]);
    }
  }

  /** Read back member by member, an object's text has its keys once each, in strictly ascending order. */
  lemma MembersInOrder(j: Json)
    requires j.Obj? && j.members != map[]
    ensures Dumps(j) != [] && ParseMembers(Dumps(j)[1..]).Some?
    ensures var pairs := ParseMembers(Dumps(j)[1..]).value.value;
            && FromPairs(pairs) == j.members
            && forall a, b | 0 <= a < b < |pairs| :: Less(pairs[a].0, pairs[b].0)
  {
    var keys := SortedKeys(j.members.Keys);
    KeysCover(j.members);
    ParseDumpMembers(j, keys, []);
    PairsKeys(j.members, keys);
    var pairs := Pairs(j.members, keys);
    assert DumpMembers(j, keys) + [] == DumpMembers(j, keys);
    assert Dumps(j)[1..] == DumpMembers(j, keys);
    forall a, b | 0 <= a < b < |pairs| ensures Less(pairs[a].0, pairs[b].0) {
      assert pairs[a].0 == FirstParts(pairs)[a] && pairs[b].0 == FirstParts(pairs)[b];
    }
  }
}

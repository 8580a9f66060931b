/** How long the text of a JSON value is, and how it changes when one member does. */
module JsonSize {
  import opened Prelude
  import opened Json

  /** A member's share: its quoted key, the colon, its value, and the comma or brace after it. */
  function Cost(m: map<string, Json>, k: string): nat
    requires k in m
  {
    |Quote(k)| + |Dumps(m[k])| + 2
  }

  function Weight(m: map<string, Json>, keys: seq<string>): nat
    requires forall k | k in keys :: k in m
  {
    if keys == [] then 0 else Cost(m, keys[0]) + Weight(m, keys[1..])
  }

  lemma {:induction false} DumpMembersSize(j: Json, keys: seq<string>)
    requires j.Obj? && keys != [] && forall k | k in keys :: k in j.members
    ensures |DumpMembers(j, keys)| == Weight(j.members, keys)
  {
    if |keys| > 1 {
      DumpMembersSize(j, keys[1..]);
    } else {
      assert keys[1..] == [];
    }
  }

  lemma {:induction false} WeightWithout(m: map<string, Json>, keys: seq<string>, i: nat)
    requires i < |keys| && forall k | k in keys :: k in m
    ensures forall k | k in keys[..i] + keys[i + 1..] :: k in m
    ensures Weight(m, keys) == Cost(m, keys[i]) + Weight(m, keys[..i] + keys[i + 1..])
  {
    var rest := keys[..i] + keys[i + 1..];
    if i == 0 {
      assert rest == keys[1..];
    } else {
      WeightWithout(m, keys[1..], i - 1);
      assert rest[0] == keys[0] && rest[1..] == keys[1..][..i - 1] + keys[1..][i..];
    }
  }

  /** The order in which members are written does not change the length. */
  lemma {:induction false} SameWeight(m: map<string, Json>, a: seq<string>, b: seq<string>)
    requires Distinct(a) && Distinct(b) && forall k :: k in a <==> k in b
    requires forall k | k in a :: k in m
    ensures Weight(m, a) == Weight(m, b)
    decreases |a|
  {
    if a == [] {
      assert forall x | 0 <= x < |b| :: b[x] in b;
      assert b == [];
    } else {
      assert a[0] in b;
      var i :| 0 <= i < |b| && b[i] == a[0];
      var rest := b[..i] + b[i + 1..];
      WeightWithout(m, b, i);
      RestMatches(a, b, i);
      SameWeight(m, a[1..], rest);
    }
  }

  lemma RestMatches(a: seq<string>, b: seq<string>, i: nat)
    requires Distinct(a) && Distinct(b) && a != [] && i < |b| && b[i] == a[0]
    requires forall k :: k in a <==> k in b
    ensures var rest := b[..i] + b[i + 1..];
            Distinct(a[1..]) && Distinct(rest) && forall k :: k in a[1..] <==> k in rest
  {
    assert a[..0] + a[1..] == a[1..];
    WithoutOne(a, 0);
    WithoutOne(b, i);
  }

  /** Leaving one position out of a list without repetition leaves out exactly that element. */
  lemma WithoutOne(s: seq<string>, i: nat)
    requires Distinct(s) && i < |s|
    ensures var rest := s[..i] + s[i + 1..]; Distinct(rest) && forall k :: k in rest <==> k in s && k != s[i]
  {
    var rest := s[..i] + s[i + 1..];
    assert forall x | 0 <= x < |rest| :: rest[x] == s[if x < i then x else x + 1];
    forall k | k in s && k != s[i] ensures k in rest {
      var y :| 0 <= y < |s| && s[y] == k;
      assert rest[if y < i then y else y - 1] == k;
    }
  }

  /** An object's text is its members' shares and the opening brace, in any order of its keys. */
  lemma ObjectSize(m: map<string, Json>, keys: seq<string>)
    requires m != map[] && Distinct(keys) && forall k :: k in keys <==> k in m
    ensures |Dumps(Obj(m))| == 1 + Weight(m, keys)
  {
    var sorted := SortedKeys(m.Keys);
    forall i, j | 0 <= i < j < |sorted| ensures sorted[i] != sorted[j] {
      LessTrichotomy(sorted[i], sorted[j]);
    }
    var k :| k in m;
    assert k in sorted;
    DumpMembersSize(Obj(m), sorted);
    SameWeight(m, sorted, keys);
  }

  lemma {:induction false} WeightUpdate(m: map<string, Json>, k: string, v: Json, keys: seq<string>)
    requires k in m && Distinct(keys) && forall x | x in keys :: x in m
    ensures Weight(m[k := v], keys) == Weight(m, keys) + (if k in keys then |Dumps(v)| - |Dumps(m[k])| else 0)
  {
    if keys != [] {
      assert keys == [keys[0]] + keys[1..];
      assert forall x | 0 <= x < |keys[1..]| :: keys[1..][x] == keys[x + 1];
      WeightUpdate(m, k, v, keys[1..]);
    }
  }

  /** Replacing one member's value changes the length by the difference of the two values' lengths. */
  lemma ReplaceSize(m: map<string, Json>, k: string, v: Json)
    requires k in m
    ensures |Dumps(Obj(m[k := v]))| == |Dumps(Obj(m))| + |Dumps(v)| - |Dumps(m[k])|
  {
    var keys := SortedKeys(m.Keys);
    forall i, j | 0 <= i < j < |keys| ensures keys[i] != keys[j] {
      LessTrichotomy(keys[i], keys[j]);
    }
    assert m[k := v].Keys == m.Keys;
    ObjectSize(m, keys);
    ObjectSize(m[k := v], keys);
    WeightUpdate(m, k, v, keys);
  }

  lemma {:induction false} ItemsGrow(items: seq<Json>, x: Json)
    requires items != []
    ensures |DumpItems(items + [x])| == |DumpItems(items)| + 1 + |Dumps(x)|
  {
    var more := items + [x];
    if |items| == 1 {
      assert more[1..] == [x];
    } else {
      assert more[1..] == items[1..] + [x];
      ItemsGrow(items[1..], x);
    }
  }

  /** One more element costs its text, and a comma unless it is the first. */
  lemma ArrayGrows(items: seq<Json>, x: Json)
    ensures |Dumps(Arr(items + [x]))| == |Dumps(Arr(items))| + |Dumps(x)| + (if items == [] then 0 else 1)
  {
    if items == [] {
      assert items + [x] == [x];
    } else {
      ItemsGrow(items, x);
    }
  }

  lemma {:induction false} EscapeAllConcat(a: string, b: string)
    ensures EscapeAll(a + b) == EscapeAll(a) + EscapeAll(b)
  {
    if a == [] {
      assert a + b == b;
    } else {
      assert (a + b)[0] == a[0] && (a + b)[1..] == a[1..] + b;
      EscapeAllConcat(a[1..], b);
    }
  }

  /** Text with nothing to escape. */
  predicate Clear(s: string) {
    forall i | 0 <= i < |s| :: Plain(s[i])
  }

  /** Quoting adds two quotes, nothing else to clear text, and makes no character longer than a surrogate pair. */
  lemma {:induction false} QuoteBounds(s: string)
    ensures |s| + 2 <= |Quote(s)| <= 12 * |s| + 2
    ensures Clear(s) ==> |Quote(s)| == |s| + 2
  {
    if s != [] {
      QuoteBounds(s[1..]);
      assert |Quote(s)| == |EscapeChar(s[0])| + |Quote(s[1..])|;
      assert Clear(s) ==> Clear(s[1..]);
    }
  }
}

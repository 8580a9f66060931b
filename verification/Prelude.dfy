/** Small shared vocabulary: optional values, bytes and the order Python gives strings. */
module Prelude {

  datatype Option<+T> = None | Some(value: T) {
    predicate IsFailure() {
      None?
    }

    function PropagateFailure<U>(): Option<U>
      requires None?
    {
      None
    }

    function Extract(): T
      requires Some?
    {
      value
    }
  }

  type byte = b: int | 0 <= b < 256

  /** `a < b` for Python strings: lexicographic by code point. */
  predicate Less(a: string, b: string) {
    b != [] && (a == [] || a[0] < b[0] || (a[0] == b[0] && Less(a[1..], b[1..])))
  }

  lemma {:induction false} LessTrichotomy(a: string, b: string)
    ensures a == b || Less(a, b) || Less(b, a)
    ensures !(Less(a, b) && Less(b, a))
    ensures Less(a, b) ==> a != b
  {
    if a != [] && b != [] {
      LessTrichotomy(a[1..], b[1..]);
      assert a == [a[0]] + a[1..] && b == [b[0]] + b[1..];
    }
  }

  lemma {:induction false} LessTransitive(a: string, b: string, c: string)
    requires Less(a, b) && Less(b, c)
    ensures Less(a, c)
  {
    if a != [] && a[0] == b[0] == c[0] {
      LessTransitive(a[1..], b[1..], c[1..]);
    }
  }

  ghost predicate StrictOrder<T(!new)>(less: (T, T) -> bool) {
    && (forall a, b :: a == b || less(a, b) || less(b, a))
    && (forall a, b :: !(less(a, b) && less(b, a)))
    && (forall a, b, c :: less(a, b) && less(b, c) ==> less(a, c))
  }

  predicate IsLeast<T(==)>(less: (T, T) -> bool, k: T, keys: set<T>) {
    k in keys && forall x | x in keys :: x == k || less(k, x)
  }

  lemma {:induction false} LeastExists<T(!new)>(less: (T, T) -> bool, keys: set<T>)
    requires StrictOrder(less) && keys != {}
    ensures exists k :: IsLeast(less, k, keys)
    ensures forall k, l | IsLeast(less, k, keys) && IsLeast(less, l, keys) :: k == l
  {
    var k :| k in keys;
    var rest := keys - {k};
    if rest == {} {
      assert keys == {k};
      assert IsLeast(less, k, keys);
    } else {
      LeastExists(less, rest);
      var m :| IsLeast(less, m, rest);
      if less(m, k) {
        assert IsLeast(less, m, keys);
      } else {
        assert IsLeast(less, k, keys);
      }
    }
  }

  /** `sorted(keys)`: every key once, in strictly ascending order. */
  function Sorted<T(!new)>(less: (T, T) -> bool, keys: set<T>): (r: seq<T>)
    requires StrictOrder(less)
    ensures forall i, j | 0 <= i < j < |r| :: less(r[i], r[j])
    ensures forall k :: k in r <==> k in keys
    ensures r == [] <==> keys == {}
  {
    if keys == {} then
      []
    else
      LeastExists(less, keys);
      var k :| IsLeast(less, k, keys);
      [k] + Sorted(less, keys - {k})
  }

  lemma LessIsOrder()
    ensures StrictOrder(Less)
  {
    forall a, b ensures a == b || Less(a, b) || Less(b, a) {
      LessTrichotomy(a, b);
    }
    forall a, b ensures !(Less(a, b) && Less(b, a)) {
      LessTrichotomy(a, b);
    }
    forall a, b, c | Less(a, b) && Less(b, c) ensures Less(a, c) {
      LessTransitive(a, b, c);
    }
  }

  /** `sorted(keys)` for strings. */
  function SortedKeys(keys: set<string>): (r: seq<string>)
    ensures forall i, j | 0 <= i < j < |r| :: Less(r[i], r[j])
    ensures forall k :: k in r <==> k in keys
  {
    LessIsOrder();
    Sorted(Less, keys)
  }

  /** The elements of `s` are pairwise different. */
  ghost predicate Distinct<T>(s: seq<T>) {
    forall i, j | 0 <= i < j < |s| :: s[i] != s[j]
  }

  /** A duplicate-free list drawn from a finite set is no longer than the set. */
  lemma {:induction false} DistinctBounded<T>(s: seq<T>, bound: set<T>)
    requires Distinct(s) && forall x | x in s :: x in bound
    ensures |s| <= |bound|
  {
    if s != [] {
      forall x | x in s[1..] ensures x in bound - {s[0]} {
        var i :| 0 <= i < |s[1..]| && s[1..][i] == x;
        assert s[i + 1] == x;
      }
      DistinctBounded(s[1..], bound - {s[0]});
    }
  }

  /** A subset of a finite set is no larger than it. */
  lemma {:induction false} SubsetCardinality<T>(a: set<T>, b: set<T>)
    requires a <= b
    ensures |a| <= |b|
  {
    if a != {} {
      var x :| x in a;
      SubsetCardinality(a - {x}, b - {x});
    }
  }
}

/** Go ranges over a map in an unspecified order. The model fixes one
    enumeration of a key set, ascending lexicographic order by code point,
    and the contracts that use it state only order-independent facts. */
module KeyOrder {

  /** Strict lexicographic order on strings. */
  predicate Less(a: string, b: string)
    decreases |a|
  {
    if |b| == 0 then false
    else if |a| == 0 then true
    else if a[0] != b[0] then a[0] < b[0]
    else Less(a[1..], b[1..])
  }

  lemma {:induction false} LessIrreflexive(a: string)
    ensures !Less(a, a)
    decreases |a|
  {
    if |a| > 0 {
      LessIrreflexive(a[1..]);
    }
  }

  lemma {:induction false} LessAsymmetric(a: string, b: string)
    requires Less(a, b)
    ensures !Less(b, a)
    decreases |a|
  {
    if |a| > 0 && |b| > 0 && a[0] == b[0] {
      LessAsymmetric(a[1..], b[1..]);
    }
  }

  lemma {:induction false} LessTransitive(a: string, b: string, c: string)
    requires Less(a, b) && Less(b, c)
    ensures Less(a, c)
    decreases |a|
  {
    if |a| > 0 && a[0] == b[0] && b[0] == c[0] {
      LessTransitive(a[1..], b[1..], c[1..]);
    }
  }

  lemma {:induction false} LessTotal(a: string, b: string)
    requires a != b
    ensures Less(a, b) || Less(b, a)
    decreases |a|
  {
    if |a| > 0 && |b| > 0 && a[0] == b[0] {
      assert a == [a[0]] + a[1..] && b == [b[0]] + b[1..];
      LessTotal(a[1..], b[1..]);
    }
  }

  predicate IsSmallest(m: string, keys: set<string>) {
    m in keys && forall k :: k in keys ==> k == m || Less(m, k)
  }

  /** Every finite non-empty set of strings has a least element. */
  lemma {:induction false} SmallestExists(keys: set<string>)
    requires keys != {}
    ensures exists m :: IsSmallest(m, keys)
    decreases |keys|
  {
    var x :| x in keys;
    if keys == {x} {
      assert IsSmallest(x, keys);
    } else {
      var rest := keys - {x};
      SmallestExists(rest);
      var m :| IsSmallest(m, rest);
      if Less(m, x) {
        assert IsSmallest(m, keys);
      } else {
        LessTotal(m, x);
        forall k | k in keys
          ensures k == x || Less(x, k)
        {
          if k != x && k != m {
            LessTransitive(x, m, k);
          }
        }
        assert IsSmallest(x, keys);
      }
    }
  }

  /** The least key of a non-empty set. */
  function Smallest(keys: set<string>): (m: string)
    requires keys != {}
    ensures m in keys
    ensures forall k :: k in keys ==> k == m || Less(m, k)
  {
    SmallestExists(keys);
    SmallestUnique(keys);
    var m :| IsSmallest(m, keys);
    m
  }

  lemma SmallestUnique(keys: set<string>)
    ensures forall m, n :: IsSmallest(m, keys) && IsSmallest(n, keys) ==> m == n
  {
    forall m, n | IsSmallest(m, keys) && IsSmallest(n, keys)
      ensures m == n
    {
      if m != n {
        assert Less(m, n);
        LessAsymmetric(m, n);
      }
    }
  }

  /** The keys of a set, each exactly once, in ascending order. */
  function Ascending(keys: set<string>): (ks: seq<string>)
    ensures |ks| == |keys|
    ensures forall i :: 0 <= i < |ks| ==> ks[i] in keys
    ensures forall k :: k in keys ==> k in ks
    ensures forall i, j :: 0 <= i < j < |ks| ==> ks[i] != ks[j]
    decreases |keys|
  {
    if keys == {} then []
    else
      var m := Smallest(keys);
      var rest := Ascending(keys - {m});
      assert forall k :: k in keys ==> k == m || k in rest;
      [m] + rest
  }
}

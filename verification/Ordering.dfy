/** The ascending order in which a std::map visits its keys. */
module Ordering {

  ghost predicate StrictTotal<K(!new)>(less: (K, K) -> bool) {
    && (forall a, b :: less(a, b) ==> !less(b, a))
    && (forall a, b, c :: less(a, b) && less(b, c) ==> less(a, c))
    && (forall a, b :: a != b ==> less(a, b) || less(b, a))
  }

  lemma Comparable<K(!new)>(less: (K, K) -> bool, a: K, b: K, c: K)
    requires StrictTotal(less)
    ensures a != b ==> less(a, b) || less(b, a)
    ensures less(a, b) && less(b, c) ==> less(a, c)
  {}

  ghost predicate Least<K>(less: (K, K) -> bool, keys: set<K>, k: K) {
    k in keys && forall j :: j in keys && j != k ==> less(k, j)
  }

  lemma {:induction false} LeastExists<K(!new)>(less: (K, K) -> bool, keys: set<K>)
    requires StrictTotal(less) && keys != {}
    ensures exists k :: Least(less, keys, k)
    decreases keys
  {
    hide StrictTotal;
    var some :| some in keys;
    var rest := keys - {some};
    if rest == {} {
      assert keys == {some};
      assert Least(less, keys, some);
    } else {
      LeastExists(less, rest);
      var k :| Least(less, rest, k);
      Comparable(less, some, k, k);
      var least := if less(some, k) then some else k;
      forall j | j in keys && j != least ensures less(least, j) {
        Comparable(less, some, k, j);
        assert j == some || j in rest;
      }
      assert Least(less, keys, least);
    }
  }

  /** Which key that is leaves no choice. */
  lemma LeastUnique<K(!new)>(less: (K, K) -> bool, keys: set<K>, k: K, k': K)
    requires StrictTotal(less) && Least(less, keys, k) && Least(less, keys, k')
    ensures k == k'
  {}

  /** The keys in ascending order. */
  ghost function InOrder<K(!new)>(less: (K, K) -> bool, keys: set<K>): (order: seq<K>)
    requires StrictTotal(less)
    decreases keys
  {
    if keys == {} then []
    else
      LeastExists(less, keys);
      var k :| Least(less, keys, k);
      [k] + InOrder(less, keys - {k})
  }

  /** Every key is visited, once, and smaller ones earlier. */
  lemma {:induction false} InOrderVisits<K(!new)>(less: (K, K) -> bool, keys: set<K>)
    requires StrictTotal(less)
    ensures var order := InOrder(less, keys);
            && |order| == |keys|
            && (forall k :: k in order <==> k in keys)
            && (forall i, j :: 0 <= i < j < |order| ==> less(order[i], order[j]) && order[i] != order[j])
    decreases keys
  {
    hide StrictTotal;
    if keys != {} {
      LeastExists(less, keys);
      var order := InOrder(less, keys);
      var rest := InOrder(less, keys - {order[0]});
      assert Least(less, keys, order[0]) && order == [order[0]] + rest;
      InOrderVisits(less, keys - {order[0]});
      forall i, j | 0 <= i < j < |order| ensures less(order[i], order[j]) && order[i] != order[j] {
        assert order[j] == rest[j - 1] && rest[j - 1] in rest;
        if i > 0 {
          assert order[i] == rest[i - 1];
        }
      }
    }
  }

  /** std::string's operator<. */
  predicate StringLess(a: string, b: string) {
    if b == "" then false
    else if a == "" then true
    else a[0] < b[0] || (a[0] == b[0] && StringLess(a[1..], b[1..]))
  }

  lemma StringLessAsymmetric(a: string, b: string)
    ensures StringLess(a, b) ==> !StringLess(b, a)
  {}

  lemma {:induction false} StringLessTransitive(a: string, b: string, c: string)
    requires StringLess(a, b) && StringLess(b, c)
    ensures StringLess(a, c)
    decreases |a|
  {
    if a != "" && a[0] == b[0] == c[0] {
      StringLessTransitive(a[1..], b[1..], c[1..]);
    }
  }

  lemma {:induction false} StringLessTotal(a: string, b: string)
    requires a != b
    ensures StringLess(a, b) || StringLess(b, a)
    decreases |a|
  {
    if a != "" && b != "" && a[0] == b[0] {
      assert a == [a[0]] + a[1..] && b == [b[0]] + b[1..];
      StringLessTotal(a[1..], b[1..]);
    }
  }

  lemma StringLessStrictTotal()
    ensures StrictTotal(StringLess)
  {
    forall a, b ensures StringLess(a, b) ==> !StringLess(b, a) { StringLessAsymmetric(a, b); }
    forall a, b, c | StringLess(a, b) && StringLess(b, c) ensures StringLess(a, c) { StringLessTransitive(a, b, c); }
    forall a: string, b: string | a != b ensures StringLess(a, b) || StringLess(b, a) { StringLessTotal(a, b); }
  }

  predicate DiffersAt(a: string, b: string, k: nat) {
    k < |a| && k < |b| && a[..k] == b[..k] && a[k] < b[k]
  }

  lemma DiffersLater(a: string, b: string, k: nat)
    requires a != "" && b != "" && a[0] == b[0]
    ensures DiffersAt(a, b, k + 1) <==> DiffersAt(a[1..], b[1..], k)
  {
    if k + 1 < |a| && k + 1 < |b| {
      assert a[..k + 1] == [a[0]] + a[1..][..k] && b[..k + 1] == [b[0]] + b[1..][..k];
    }
  }

  lemma PrefixTail(a: string, b: string)
    requires a != "" && b != "" && a[0] == b[0]
    ensures a < b <==> a[1..] < b[1..]
  {
    assert a == [a[0]] + a[1..] && b == [b[0]] + b[1..];
  }

  /** The order of a dictionary: a proper prefix first, otherwise the smaller character at the first difference. */
  lemma {:induction false} StringLessIff(a: string, b: string)
    ensures StringLess(a, b) <==> a < b || exists k: nat :: DiffersAt(a, b, k)
    decreases |a|
  {
    if a != "" && b != "" && a[0] == b[0] {
      StringLessIff(a[1..], b[1..]);
      PrefixTail(a, b);
      assert !DiffersAt(a, b, 0);
      hide DiffersAt;
      if k: nat :| DiffersAt(a, b, k) {
        DiffersLater(a, b, k - 1);
      }
      if k: nat :| DiffersAt(a[1..], b[1..], k) {
        DiffersLater(a, b, k);
      }
    } else if a != "" && b != "" {
      assert a[..0] == b[..0];
      assert a[0] < b[0] ==> DiffersAt(a, b, 0);
      forall k: nat | k > 0 ensures !DiffersAt(a, b, k) {
        if k < |a| && k < |b| {
          assert a[..k][0] != b[..k][0];
        }
      }
    }
  }
}

/**
 * Sums of a weight over the entries of a map, in no particular order: the
 * model of the cache's `for (x of map.values()) count += ...` loops.
 */
module Sums {

  /** The sum of `w` over the values that `m` gives the keys in `keys`. */
  ghost function SumOver<K, V>(m: map<K, V>, keys: set<K>, w: V -> int): int
    requires keys <= m.Keys
    decreases keys
  {
    if keys == {} then 0
    else
      var k :| k in keys;
      w(m[k]) + SumOver(m, keys - {k}, w)
  }

  /** The sum of `w` over every value of `m`. */
  ghost function Total<K, V>(m: map<K, V>, w: V -> int): int
  {
    SumOver(m, m.Keys, w)
  }

  /** Any key may be taken out first: the sum does not depend on the order of the keys. */
  lemma {:induction false} SumOverRemove<K, V>(m: map<K, V>, keys: set<K>, w: V -> int, k: K)
    requires keys <= m.Keys && k in keys
    ensures SumOver(m, keys, w) == w(m[k]) + SumOver(m, keys - {k}, w)
    decreases keys
  {
    var j :| j in keys && SumOver(m, keys, w) == w(m[j]) + SumOver(m, keys - {j}, w);
    if j != k {
      SumOverRemove(m, keys - {j}, w, k);
      SumOverRemove(m, keys - {k}, w, j);
      assert keys - {j} - {k} == keys - {k} - {j};
    }
  }

  /** Sums are monotone in the weights of the keys summed over. */
  lemma {:induction false} SumOverMono<K, V>(m1: map<K, V>, m2: map<K, V>, keys: set<K>, w1: V -> int, w2: V -> int)
    requires keys <= m1.Keys && keys <= m2.Keys
    requires forall k :: k in keys ==> w1(m1[k]) <= w2(m2[k])
    ensures SumOver(m1, keys, w1) <= SumOver(m2, keys, w2)
    decreases keys
  {
    if keys != {} {
      var k :| k in keys;
      SumOverRemove(m1, keys, w1, k);
      SumOverRemove(m2, keys, w2, k);
      SumOverMono(m1, m2, keys - {k}, w1, w2);
    }
  }

  /** Equal weights key by key give equal sums. */
  lemma SumOverSame<K, V>(m1: map<K, V>, m2: map<K, V>, keys: set<K>, w1: V -> int, w2: V -> int)
    requires keys <= m1.Keys && keys <= m2.Keys
    requires forall k :: k in keys ==> w1(m1[k]) == w2(m2[k])
    ensures SumOver(m1, keys, w1) == SumOver(m2, keys, w2)
  {
    SumOverMono(m1, m2, keys, w1, w2);
    SumOverMono(m2, m1, keys, w2, w1);
  }

  /** One key with a strictly smaller weight, none larger: a strictly smaller sum. */
  lemma SumOverStrict<K, V>(m1: map<K, V>, m2: map<K, V>, keys: set<K>, w1: V -> int, w2: V -> int, k0: K)
    requires keys <= m1.Keys && keys <= m2.Keys && k0 in keys
    requires forall k :: k in keys ==> w1(m1[k]) <= w2(m2[k])
    requires w1(m1[k0]) < w2(m2[k0])
    ensures SumOver(m1, keys, w1) < SumOver(m2, keys, w2)
  {
    SumOverRemove(m1, keys, w1, k0);
    SumOverRemove(m2, keys, w2, k0);
    SumOverMono(m1, m2, keys - {k0}, w1, w2);
  }

  /** Updating (or adding) one key changes the total by the difference of that key's weights. */
  lemma TotalUpdate<K, V>(m: map<K, V>, k: K, x: V, w: V -> int)
    ensures Total(m[k := x], w) == Total(m, w) - (if k in m then w(m[k]) else 0) + w(x)
  {
    var m' := m[k := x];
    SumOverRemove(m', m'.Keys, w, k);
    assert m'.Keys - {k} == m.Keys - {k};
    SumOverSame(m', m, m.Keys - {k}, w, w);
    if k in m {
      SumOverRemove(m, m.Keys, w, k);
    } else {
      assert m.Keys - {k} == m.Keys;
    }
  }

  /** Some key of a non-empty set: one step of a `for ... of` loop over a map, in unspecified order. */
  method Pick<K>(keys: set<K>) returns (k: K)
    requires keys != {}
    ensures k in keys
  {
    k :| k in keys;
  }
}

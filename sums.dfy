/** Sums of the values of a counter table. */
module Sums {

  /** The value a Go map yields for `k`: zero when the key is missing. */
  function Get<K>(m: map<K, int>, k: K): int
  {
    if k in m then m[k] else 0
  }

  /** The sum of all values of `m`. */
  ghost function Sum<K>(m: map<K, int>): int
    decreases |m|
  {
    if m.Keys == {} then 0
    else
      var k :| k in m.Keys;
      m[k] + Sum(m - {k})
  }

  /** The sum does not depend on which key is taken out first. */
  lemma {:induction false} SumRemove<K>(m: map<K, int>, k: K)
    requires k in m
    ensures Sum(m) == m[k] + Sum(m - {k})
    decreases |m|
  {
    assert m.Keys != {};
    var j :| j in m.Keys && Sum(m) == m[j] + Sum(m - {j});
    if j != k {
      var withoutJ, withoutK := m - {j}, m - {k};
      assert withoutJ.Keys == m.Keys - {j} && withoutK.Keys == m.Keys - {k};
      SumRemove(withoutJ, k);
      SumRemove(withoutK, j);
      assert withoutJ - {k} == withoutK - {j};
    }
  }

  /** Setting one entry changes the sum by the difference it makes. */
  lemma SumUpdate<K>(m: map<K, int>, k: K, v: int)
    ensures Sum(m[k := v]) == Sum(m) - Get(m, k) + v
  {
    SumRemove(m[k := v], k);
    if k in m {
      SumRemove(m, k);
      assert m[k := v] - {k} == m - {k};
    } else {
      assert m[k := v] - {k} == m;
    }
  }

  /** Taking a key out and putting it back gives the same map. */
  lemma RestoreKey<K, V>(m: map<K, V>, k: K)
    requires k in m
    ensures m == (m - {k})[k := m[k]]
  {
  }

  /** Adding one to an entry, or leaving the map alone, adds one or nothing. */
  lemma SumBump<K>(before: map<K, int>, after: map<K, int>, k: K, hit: bool)
    requires after == if hit then before[k := Get(before, k) + 1] else before
    ensures Sum(after) == Sum(before) + (if hit then 1 else 0)
  {
    if hit {
      SumUpdate(before, k, Get(before, k) + 1);
    }
  }

  /** A map that agrees with `before` everywhere except that `key` gains one
      (when `hit`) is `before` with that entry bumped. */
  lemma BumpedFromGets<K>(before: map<K, int>, after: map<K, int>, key: K, hit: bool)
    requires forall s :: s in after <==> (hit && s == key) || s in before
    requires forall s :: Get(after, s) == Get(before, s) + (if hit && s == key then 1 else 0)
    ensures after == if hit then before[key := Get(before, key) + 1] else before
  {
    var expected := if hit then before[key := Get(before, key) + 1] else before;
    forall s
      ensures s in after <==> s in expected
      ensures s in after ==> after[s] == expected[s]
    {
      assert Get(after, s) == Get(before, s) + (if hit && s == key then 1 else 0);
    }
  }

  lemma SumEmpty<K>(m: map<K, int>)
    requires |m| == 0
    ensures Sum(m) == 0
  {
    assert m.Keys == {};
  }
}

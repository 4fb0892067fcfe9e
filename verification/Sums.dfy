/** Sums and sizes of finite maps. */
module Sums {

  /** What the values of m weigh together. */
  ghost function Total<K, V>(m: map<K, V>, weigh: V -> int): int {
    if |m| == 0 then 0
    else
      var k :| k in m;
      weigh(m[k]) + Total(m - {k}, weigh)
  }

  lemma RemoveCommutes<K, V>(m: map<K, V>, j: K, k: K)
    ensures m - {j} - {k} == m - {k} - {j}
  {}

  /** The key the total takes first. */
  lemma Chosen<K, V>(m: map<K, V>, weigh: V -> int) returns (j: K)
    requires |m| > 0
    ensures j in m && Total(m, weigh) == weigh(m[j]) + Total(m - {j}, weigh)
  {
    j :| j in m && Total(m, weigh) == weigh(m[j]) + Total(m - {j}, weigh);
  }

  /** The total does not depend on the order the keys are visited in. */
  lemma {:induction false} TotalWithout<K, V>(m: map<K, V>, weigh: V -> int, k: K)
    requires k in m
    ensures Total(m, weigh) == weigh(m[k]) + Total(m - {k}, weigh)
    decreases |m|
  {
    var j := Chosen(m, weigh);
    if j != k {
      TotalWithout(m - {j}, weigh, k);
      TotalWithout(m - {k}, weigh, j);
      RemoveCommutes(m, j, k);
    }
  }

  lemma TotalPut<K, V>(m: map<K, V>, weigh: V -> int, k: K, v: V)
    ensures Total(m[k := v], weigh) == Total(m - {k}, weigh) + weigh(v)
    ensures Total(m, weigh) == Total(m - {k}, weigh) + if k in m then weigh(m[k]) else 0
  {
    TotalWithout(m[k := v], weigh, k);
    assert m[k := v] - {k} == m - {k};
    if k in m {
      TotalWithout(m, weigh, k);
    } else {
      assert m - {k} == m;
    }
  }

  lemma {:induction false} TotalIsNonNegative<K, V>(m: map<K, V>, weigh: V -> int)
    requires forall k :: k in m ==> weigh(m[k]) >= 0
    ensures Total(m, weigh) >= 0
    decreases |m|
  {
    if |m| > 0 {
      var j := Chosen(m, weigh);
      SizeRemove(m, j);
      TotalIsNonNegative(m - {j}, weigh);
    }
  }

  lemma SizePut<K, V>(m: map<K, V>, k: K, v: V)
    ensures |m[k := v]| == if k in m then |m| else |m| + 1
  {
    assert m[k := v].Keys == m.Keys + {k};
  }

  lemma SizeRemove<K, V>(m: map<K, V>, k: K)
    ensures |m - {k}| == if k in m then |m| - 1 else |m|
  {
    if k in m {
      assert (m - {k}).Keys == m.Keys - {k};
    } else {
      assert m - {k} == m;
    }
  }

  lemma SizeSubset<K>(a: set<K>, b: set<K>)
    requires a <= b
    ensures |a| <= |b|
  {
    assert b == a + (b - a);
  }
}

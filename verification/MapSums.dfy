/** Sums of a weight over the values of a finite map, independent of the order of summation. */
module MapSums {

  ghost function Sum<K, V>(m: map<K, V>, w: V -> int): int
    decreases |m|
  {
    if m == map[] then 0
    else
      var k :| k in m;
      w(m[k]) + Sum(m - {k}, w)
  }

  lemma {:induction false} SumRemove<K, V>(m: map<K, V>, w: V -> int, k: K)
    requires k in m
    ensures Sum(m, w) == w(m[k]) + Sum(m - {k}, w)
    decreases |m|
  {
    var j :| j in m && Sum(m, w) == w(m[j]) + Sum(m - {j}, w);
    if j != k {
      SumRemove(m - {j}, w, k);
      SumRemove(m - {k}, w, j);
      assert m - {j} - {k} == m - {k} - {j};
    }
  }

  lemma SumUpdate<K, V>(m: map<K, V>, w: V -> int, k: K, v: V)
    ensures Sum(m[k := v], w) == Sum(m - {k}, w) + w(v)
    ensures k in m ==> Sum(m[k := v], w) == Sum(m, w) - w(m[k]) + w(v)
    ensures k !in m ==> Sum(m[k := v], w) == Sum(m, w) + w(v)
  {
    SumRemove(m[k := v], w, k);
    assert m[k := v] - {k} == m - {k};
    if k in m {
      SumRemove(m, w, k);
    } else {
      assert m - {k} == m;
    }
  }

  lemma {:induction false} SumNonNegative<K, V>(m: map<K, V>, w: V -> int)
    requires forall k :: k in m ==> w(m[k]) >= 0
    ensures Sum(m, w) >= 0
    decreases |m|
  {
    if m != map[] {
      var k :| k in m;
      SumRemove(m, w, k);
      SumNonNegative(m - {k}, w);
    }
  }

  lemma {:induction false} SumAtMost<K, V>(m: map<K, V>, w: V -> int, bound: nat)
    requires forall k :: k in m ==> w(m[k]) <= bound
    ensures Sum(m, w) <= bound * |m|
    decreases |m|
  {
    if m == map[] {
      assert bound * |m| == 0;
    } else {
      var k :| k in m;
      SumRemove(m, w, k);
      SumAtMost(m - {k}, w, bound);
      assert bound * |m| == bound * |m - {k}| + bound;
    }
  }

  /** A sum of nothing but zeros, told by another weight. */
  lemma {:induction false} SumVanishes<K, V>(m: map<K, V>, w: V -> int, w': V -> int)
    requires forall k :: k in m ==> w(m[k]) >= 0 && (w(m[k]) == 0 ==> w'(m[k]) == 0)
    requires Sum(m, w) == 0
    ensures Sum(m, w') == 0
    decreases |m|
  {
    if m != map[] {
      var k :| k in m;
      SumRemove(m, w, k);
      SumRemove(m, w', k);
      SumNonNegative(m - {k}, w);
      SumVanishes(m - {k}, w, w');
    }
  }
}

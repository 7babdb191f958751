/** Sums over the values of a map. */
module Sums {

  ghost function Sum<K>(m: map<K, nat>): nat
    decreases |m|
  {
    if m == map[] then 0
    else
      var k :| k in m;
      assert (m - {k}).Keys == m.Keys - {k};
      m[k] + Sum(m - {k})
  }

  lemma {:induction false} SumTake<K>(m: map<K, nat>, k: K)
    requires k in m
    ensures Sum(m) == m[k] + Sum(m - {k})
    decreases |m|
  {
    var j :| j in m && Sum(m) == m[j] + Sum(m - {j});
    if j != k {
      assert (m - {j}).Keys == m.Keys - {j};
      assert (m - {k}).Keys == m.Keys - {k};
      SumTake(m - {j}, k);
      SumTake(m - {k}, j);
      assert m - {j} - {k} == m - {k} - {j};
    }
  }

  lemma SumPut<K>(m: map<K, nat>, k: K, x: nat)
    ensures Sum(m[k := x]) == x + Sum(m - {k})
    ensures k in m ==> Sum(m[k := x]) + m[k] == Sum(m) + x
    ensures k !in m ==> Sum(m[k := x]) == Sum(m) + x
  {
    SumTake(m[k := x], k);
    assert m[k := x] - {k} == m - {k};
    if k in m { SumTake(m, k); } else { assert m - {k} == m; }
  }
}

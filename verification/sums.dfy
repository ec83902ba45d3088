/** Sums over the values of a finite map, independent of any order. */
module Sums {

  ghost function SumN<K>(m: map<K, nat>): nat
    decreases |m|
  {
    if m == map[] then 0
    else
      var k :| k in m;
      m[k] + SumN(m - {k})
  }

  lemma {:induction false} SumNRemove<K>(m: map<K, nat>, k: K)
    requires k in m
    ensures SumN(m) == m[k] + SumN(m - {k})
    decreases |m|
  {
    var j :| j in m && SumN(m) == m[j] + SumN(m - {j});
    if j != k {
      SumNRemove(m - {j}, k);
      SumNRemove(m - {k}, j);
      assert (m - {j}) - {k} == (m - {k}) - {j};
    }
  }

  /** Changing one value changes the sum by the difference. */
  lemma SumNUpdate<K>(m: map<K, nat>, k: K, v: nat)
    ensures SumN(m[k := v]) == SumN(m) + v - (if k in m then m[k] else 0)
  {
    SumNRemove(m[k := v], k);
    assert m[k := v] - {k} == m - {k};
    if k in m {
      SumNRemove(m, k);
    } else {
      assert m - {k} == m;
    }
  }

  ghost function SumR<K>(m: map<K, real>): real
    decreases |m|
  {
    if m == map[] then 0.0
    else
      var k :| k in m;
      m[k] + SumR(m - {k})
  }

  lemma {:induction false} SumRRemove<K>(m: map<K, real>, k: K)
    requires k in m
    ensures SumR(m) == m[k] + SumR(m - {k})
    decreases |m|
  {
    var j :| j in m && SumR(m) == m[j] + SumR(m - {j});
    if j != k {
      SumRRemove(m - {j}, k);
      SumRRemove(m - {k}, j);
      assert (m - {j}) - {k} == (m - {k}) - {j};
    }
  }
}

/** Prometheus counter vectors: a map from label values to counts, absent meaning zero. */
module Counters {

  function Get<K>(m: map<K, nat>, k: K): nat { if k in m then m[k] else 0 }

  function Inc<K>(m: map<K, nat>, k: K): map<K, nat> { m[k := Get(m, k) + 1] }

  /** The sum of all counts. */
  ghost function Total<K>(m: map<K, nat>): nat
    decreases |m|
  {
    if m == map[] then 0
    else
      var k :| k in m;
      Smaller(m, k);
      m[k] + Total(m - {k})
  }

  lemma Smaller<K>(m: map<K, nat>, k: K)
    requires k in m
    ensures |m - {k}| < |m|
  {
    assert (m - {k}).Keys == m.Keys - {k};
    assert |m.Keys - {k}| < |m.Keys|;
  }

  /** The sum does not depend on which label is taken first. */
  lemma {:induction false} TotalSplit<K>(m: map<K, nat>, k: K)
    requires k in m
    ensures Total(m) == m[k] + Total(m - {k})
    decreases |m|
  {
    var j :| j in m && Total(m) == m[j] + Total(m - {j});
    if j != k {
      Smaller(m, j);
      Smaller(m, k);
      TotalSplit(m - {j}, k);
      TotalSplit(m - {k}, j);
      assert m - {j} - {k} == m - {k} - {j};
    }
  }

  lemma TotalInc<K>(m: map<K, nat>, k: K)
    ensures Total(Inc(m, k)) == Total(m) + 1
  {
    TotalSplit(Inc(m, k), k);
    if k in m {
      TotalSplit(m, k);
      assert Inc(m, k) - {k} == m - {k};
    } else {
      assert Inc(m, k) - {k} == m;
    }
  }
}

/** Sums of sizes kept under keys. */
module Totals {

  ghost function Total<K>(m: map<K, nat>): nat
    decreases |m|
  {
    if m == map[] then 0
    else
      var k :| k in m;
      RemoveShrinks(m, k);
      m[k] + Total(m - {k})
  }

  lemma RemoveShrinks<K>(m: map<K, nat>, k: K)
    requires k in m
    ensures |m - {k}| < |m|
  {
    assert m.Keys == (m - {k}).Keys + {k};
    assert |(m - {k}).Keys + {k}| == |(m - {k}).Keys| + 1;
  }

  /** The sum does not depend on the order in which the keys are taken. */
  lemma {:induction false} TotalRemove<K>(m: map<K, nat>, k: K)
    requires k in m
    ensures Total(m) == m[k] + Total(m - {k})
    decreases |m|
  {
    var j :| j in m && Total(m) == m[j] + Total(m - {j});
    if j != k {
      RemoveShrinks(m, j);
      RemoveShrinks(m, k);
      TotalRemove(m - {j}, k);
      TotalRemove(m - {k}, j);
      assert m - {j} - {k} == m - {k} - {j};
    }
  }

  /** Part of the keys sum to no more. */
  lemma {:induction false} TotalPart<K>(part: map<K, nat>, whole: map<K, nat>)
    requires forall k :: k in part ==> k in whole && part[k] == whole[k]
    ensures Total(part) <= Total(whole) && |part| <= |whole|
    decreases |part|
  {
    if part != map[] {
      var k :| k in part;
      RemoveShrinks(part, k);
      RemoveShrinks(whole, k);
      TotalRemove(part, k);
      TotalRemove(whole, k);
      TotalPart(part - {k}, whole - {k});
    }
  }

  lemma TotalPut<K>(m: map<K, nat>, k: K, n: nat)
    requires k !in m
    ensures Total(m[k := n]) == Total(m) + n
  {
    TotalRemove(m[k := n], k);
    assert m[k := n] - {k} == m;
  }
}

/** Totals over the keys of a map. */
module Totals {
  ghost function AnyOf<K>(keys: set<K>): (k: K)
    requires keys != {}
    ensures k in keys
  {
    var k :| k in keys;
    k
  }

  ghost function Total<K>(m: map<K, nat>): nat
    decreases |m|
  {
    if m.Keys == {} then 0
    else
      var k := AnyOf(m.Keys);
      SmallerMap(m, k);
      m[k] + Total(m - {k})
  }

  lemma SmallerMap<K>(m: map<K, nat>, k: K)
    requires k in m
    ensures |m - {k}| < |m|
  {
    assert (m - {k}).Keys == m.Keys - {k};
    assert |(m - {k}).Keys| == |m - {k}| && |m.Keys| == |m|;
  }

  /** It does not matter which key is taken first. */
  lemma {:induction false} TotalRemove<K>(m: map<K, nat>, k: K)
    requires k in m
    ensures Total(m) == m[k] + Total(m - {k})
    decreases |m|
  {
    var first :| first in m && Total(m) == m[first] + Total(m - {first});
    if first != k {
      SmallerMap(m, first);
      TotalRemove(m - {first}, k);
      SmallerMap(m, k);
      TotalRemove(m - {k}, first);
      assert m - {first} - {k} == m - {k} - {first};
    }
  }
}

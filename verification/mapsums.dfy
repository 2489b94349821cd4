/** Accumulating amounts into a keyed table, and the sum of a table's values. */
module MapSums {

  /** `m[k] = (m[k] || 0) + a`: add `a` to the entry for `k`, creating it at
      zero when absent, leaving every other entry as it was. */
  function AddTo<K>(m: map<K, int>, k: K, a: int): (r: map<K, int>)
    ensures r.Keys == m.Keys + {k}
    ensures r[k] == (if k in m then m[k] else 0) + a
    ensures forall j :: j in m && j != k ==> r[j] == m[j]
  {
    m[k := (if k in m then m[k] else 0) + a]
  }

  ghost function Pick<K>(m: map<K, int>): K
    requires m != map[]
  {
    var k :| k in m; k
  }

  /** The sum of all values of `m`. */
  ghost function SumValues<K>(m: map<K, int>): int
    decreases |m|
  {
    if m == map[] then 0
    else
      var k := Pick(m);
      assert (m - {k}).Keys == m.Keys - {k};
      m[k] + SumValues(m - {k})
  }

  /** The sum does not depend on which entry is taken out first. */
  lemma {:induction false} SumValuesRemove<K>(m: map<K, int>, k: K)
    requires k in m
    ensures SumValues(m) == m[k] + SumValues(m - {k})
    decreases |m|
  {
    var j := Pick(m);
    if j != k {
      assert (m - {j}).Keys == m.Keys - {j};
      assert (m - {k}).Keys == m.Keys - {k};
      SumValuesRemove(m - {j}, k);
      SumValuesRemove(m - {k}, j);
      assert m - {j} - {k} == m - {k} - {j};
    }
  }

  /** Accumulating `a` into any entry raises the grand total by exactly `a`. */
  lemma SumValuesAddTo<K>(m: map<K, int>, k: K, a: int)
    ensures SumValues(AddTo(m, k, a)) == SumValues(m) + a
  {
    var r := AddTo(m, k, a);
    SumValuesRemove(r, k);
    if k in m {
      SumValuesRemove(m, k);
      assert r - {k} == m - {k};
    } else {
      assert r - {k} == m;
    }
  }
}

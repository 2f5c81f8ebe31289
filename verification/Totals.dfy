/** Sums over the values of a map, whatever order the keys are visited in. */
module Totals {

  ghost function Total<K>(m: map<K, int>): int {
    if m == map[] then 0 else
    var k :| k in m;
    m[k] + Total(m - {k})
  }

  /** Any key may be taken out first. */
  lemma {:induction false} TotalWithout<K>(m: map<K, int>, k: K)
    requires k in m
    ensures Total(m) == m[k] + Total(m - {k})
    decreases |m|
  {
    var first :| first in m && Total(m) == m[first] + Total(m - {first});
    if first != k {
      TotalWithout(m - {first}, k);
      TotalWithout(m - {k}, first);
      assert m - {first} - {k} == m - {k} - {first};
    }
  }

  /** Changing one entry changes the sum by the difference. */
  lemma TotalUpdate<K>(m: map<K, int>, k: K, v: int)
    ensures Total(m[k := v]) == Total(m) + v - (if k in m then m[k] else 0)
  {
    TotalWithout(m[k := v], k);
    if k in m {
      TotalWithout(m, k);
      assert m[k := v] - {k} == m - {k};
    } else {
      assert m[k := v] - {k} == m;
    }
  }

  /** Summing key by key, in any order: todo is what has not been added yet. */
  lemma TotalAdds<K>(m: map<K, int>, todo: set<K>, k: K)
    requires k in m && k in todo
    ensures Total(m - (todo - {k})) == Total(m - todo) + m[k]
  {
    assert (m - (todo - {k})) - {k} == m - todo;
    TotalWithout(m - (todo - {k}), k);
  }

  lemma TotalEnds<K>(m: map<K, int>)
    ensures Total(m - m.Keys) == 0 && Total(m - {}) == Total(m)
  {
    assert m - m.Keys == map[] && m - {} == m;
  }
}

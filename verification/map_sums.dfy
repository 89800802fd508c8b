/** Sums over the values of a hash map. */
module MapSums {
  /** The order in which the entries are visited does not matter (`SumFrom`). */
  ghost function Sum<K, V>(m: map<K, V>, weight: V -> nat): (n: nat) {
    if m == map[] then 0
    else
      var k :| k in m;
      weight(m[k]) + Sum(m - {k}, weight)
  }

  lemma {:induction false} SumFrom<K, V>(m: map<K, V>, weight: V -> nat, k: K)
    requires k in m
    ensures Sum(m, weight) == weight(m[k]) + Sum(m - {k}, weight)
    decreases |m|
  {
    var first :| first in m && Sum(m, weight) == weight(m[first]) + Sum(m - {first}, weight);
    if first != k {
      SumFrom(m - {first}, weight, k);
      SumFrom(m - {k}, weight, first);
      assert (m - {first}) - {k} == (m - {k}) - {first};
    }
  }
}

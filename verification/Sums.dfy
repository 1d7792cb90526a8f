/** Sums over finite maps. */
module Sums {
  ghost function Pick<K>(m: map<K, int>): (k: K)
    requires m != map[]
    ensures k in m
  {
    var k :| k in m;
    k
  }

  ghost function Sum<K>(m: map<K, int>): int
    decreases |m|
  {
    if m == map[] then 0 else m[Pick(m)] + Sum(m - {Pick(m)})
  }

  /** A sum is one of its terms and the sum of the others. */
  lemma {:induction false} SumSplit<K>(m: map<K, int>, k: K)
    requires k in m
    ensures Sum(m) == m[k] + Sum(m - {k})
    decreases |m|
  {
    var p := Pick(m);
    if p != k {
      SumSplit(m - {p}, k);
      SumSplit(m - {k}, p);
      assert m - {p} - {k} == m - {k} - {p};
    }
  }

  /** Writing an entry replaces its old term, if there was one, by the new one. */
  lemma SumPut<K>(m: map<K, int>, k: K, n: int)
    ensures Sum(m[k := n]) == Sum(m) + n - if k in m then m[k] else 0
  {
    SumSplit(m[k := n], k);
    assert m[k := n] - {k} == m - {k};
    if k in m {
      SumSplit(m, k);
    } else {
      assert m - {k} == m;
    }
  }

  lemma {:induction false} SumMonotone<K>(a: map<K, int>, b: map<K, int>)
    requires a.Keys == b.Keys && forall k <- a.Keys :: a[k] <= b[k]
    ensures Sum(a) <= Sum(b)
    decreases |a|
  {
    if a != map[] {
      var k := Pick(a);
      SumSplit(b, k);
      SumMonotone(a - {k}, b - {k});
    }
  }
}

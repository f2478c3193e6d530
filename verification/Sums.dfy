// Sums over the values of a storage map, however its entries are enumerated.

module Sums {

  function Get<K, V>(m: map<K, V>, k: K, otherwise: V): V {
    if k in m then m[k] else otherwise
  }

  ghost function Pick<K(!new), V>(m: map<K, V>): (k: K)
    requires m != map[]
    ensures k in m
  {
    var k :| k in m;
    k
  }

  ghost function Sum<K(!new)>(m: map<K, int>): int
    decreases |m|
  {
    if m == map[] then 0 else m[Pick(m)] + Sum(Without(m, Pick(m)))
  }

  lemma SumPicks<K(!new)>(m: map<K, int>)
    ensures m == map[] ==> Sum(m) == 0
    ensures m != map[] ==> Sum(m) == m[Pick(m)] + Sum(Without(m, Pick(m)))
  {
  }

  function Without<K, V>(m: map<K, V>, k: K): (r: map<K, V>)
    requires k in m
    ensures r.Keys == m.Keys - {k} && |r| == |m| - 1
  {
    assert (m - {k}).Keys == m.Keys - {k};
    m - {k}
  }

  lemma WithoutBoth<K(!new), V>(m: map<K, V>, j: K, k: K)
    requires j in m && k in m && j != k
    ensures Without(Without(m, j), k) == Without(Without(m, k), j)
  {
  }

  /** Any entry may be summed first. */
  lemma {:induction false} SumSplit<K(!new)>(m: map<K, int>, k: K)
    requires k in m
    ensures Sum(m) == m[k] + Sum(Without(m, k))
    decreases |m|
  {
    SumPicks(m);
    hide Sum;
    var j := Pick(m);
    if j != k {
      SumSplit(Without(m, j), k);
      SumSplit(Without(m, k), j);
      WithoutBoth(m, j, k);
    }
  }

  /** Writing one entry changes the sum by the difference of the values. */
  lemma SumPut<K(!new)>(m: map<K, int>, k: K, v: int)
    ensures Sum(m[k := v]) == Sum(m) - Get(m, k, 0) + v
  {
    hide Sum;
    var n := m[k := v];
    SumSplit(n, k);
    if k in m {
      SumSplit(m, k);
      assert Without(n, k) == Without(m, k);
    } else {
      assert Without(n, k) == m;
    }
  }

  lemma SumRemove<K(!new)>(m: map<K, int>, k: K)
    requires k in m
    ensures Sum(Without(m, k)) == Sum(m) - m[k]
  {
    SumSplit(m, k);
  }

  lemma {:induction false} SumNonNegative<K(!new)>(m: map<K, int>)
    requires forall k :: k in m ==> m[k] >= 0
    ensures Sum(m) >= 0
    decreases |m|
  {
    SumPicks(m);
    hide Sum;
    if m != map[] {
      SumNonNegative(Without(m, Pick(m)));
    }
  }

  lemma SumAtLeast<K(!new)>(m: map<K, int>, k: K)
    requires forall j :: j in m ==> m[j] >= 0
    ensures Get(m, k, 0) <= Sum(m)
  {
    if k in m {
      SumSplit(m, k);
      SumNonNegative(Without(m, k));
    } else {
      SumNonNegative(m);
    }
  }

  /** The Cauchy-Schwarz step for one more entry. */
  /** Equal entries sum to their number times one of them. */
  lemma {:induction false} SumOfEqual<K(!new)>(m: map<K, int>, v: int)
    requires forall k :: k in m ==> m[k] == v
    ensures Sum(m) == |m| * v
    decreases |m|
  {
    SumPicks(m);
    hide Sum;
    if m != map[] {
      SumOfEqual(Without(m, Pick(m)), v);
      OneMore(|m|, v);
    }
  }

  lemma OneMore(n: int, v: int)
    ensures v + (n - 1) * v == n * v
  {
  }

  lemma CauchyStep(sum: nat, squares: nat, n: nat, a: nat)
    requires sum * sum <= n * squares
    ensures (sum + a) * (sum + a) <= (n + 1) * (squares + a * a)
  {
    assert (sum + a) * (sum + a) == sum * sum + 2 * (sum * a) + a * a;
    assert (n + 1) * (squares + a * a) == n * squares + squares + n * (a * a) + a * a;
    TwiceTheProduct(sum, squares, n, a);
  }

  lemma TwiceTheProduct(sum: nat, squares: nat, n: nat, a: nat)
    requires sum * sum <= n * squares
    ensures 2 * (sum * a) <= squares + n * (a * a)
  {
    if n == 0 {
      assert sum == 0 by { assert sum * sum == 0; }
    } else {
      var d := n * a - sum;
      assert d * d >= 0 && d * d == n * (n * (a * a)) - 2 * (n * (sum * a)) + sum * sum;
      var slack := squares + n * (a * a) - 2 * (sum * a);
      assert n * slack == n * squares + n * (n * (a * a)) - 2 * (n * (sum * a));
      assert n * slack >= 0;
      NonNegativeFactor(n, slack);
    }
  }

  lemma NonNegativeFactor(n: nat, x: int)
    requires n > 0 && n * x >= 0
    ensures x >= 0
  {
  }

  /** The squared sum of any number of roots is at most their number times the sum of what they are roots of. */
  lemma {:induction false} CauchySchwarz<K(!new)>(roots: map<K, int>, values: map<K, int>)
    requires roots.Keys == values.Keys
    requires forall k :: k in roots ==> roots[k] >= 0 && roots[k] * roots[k] <= values[k]
    ensures Sum(roots) >= 0 && Sum(values) >= 0
    ensures Sum(roots) * Sum(roots) <= |roots| * Sum(values)
    decreases |roots|
  {
    SumPicks(roots);
    SumPicks(values);
    hide Sum;
    if roots == map[] {
      assert values == map[];
    } else {
      var k :| k in roots;
      var r, v := Without(roots, k), Without(values, k);
      CauchySchwarz(r, v);
      SumSplit(roots, k);
      SumSplit(values, k);
      CauchyStep(Sum(r), Sum(v), |r|, roots[k]);
      Widen(|roots|, Sum(v) + roots[k] * roots[k], Sum(values));
    }
  }

  lemma Widen(n: nat, a: int, b: int)
    requires a <= b
    ensures n * a <= n * b
  {
  }
}

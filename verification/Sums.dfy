/** Sums over the rows of a map, whatever the order in which they are visited. */
module Sums {
  ghost function Total<K(!new), V(!new)>(m: map<K, V>, f: (K, V) -> int): int
    decreases |m|
  {
    if m == map[] then 0
    else
      var k :| k in m;
      f(k, m[k]) + Total(m - {k}, f)
  }

  lemma {:induction false} TotalRemove<K(!new), V(!new)>(m: map<K, V>, f: (K, V) -> int, k: K)
    requires k in m
    ensures Total(m, f) == f(k, m[k]) + Total(m - {k}, f)
    decreases |m|
  {
    var p :| p in m && Total(m, f) == f(p, m[p]) + Total(m - {p}, f);
    if p != k {
      TotalRemove(m - {p}, f, k);
      TotalRemove(m - {k}, f, p);
      assert m - {p} - {k} == m - {k} - {p};
    }
  }

  /** Writing one row changes the total by that row alone. */
  lemma TotalUpdate<K(!new), V(!new)>(m: map<K, V>, f: (K, V) -> int, k: K, v: V)
    ensures Total(m[k := v], f) == Total(m, f) - (if k in m then f(k, m[k]) else 0) + f(k, v)
  {
    TotalRemove(m[k := v], f, k);
    assert m[k := v] - {k} == m - {k};
    if k in m {
      TotalRemove(m, f, k);
    } else {
      assert m - {k} == m;
    }
  }

  lemma {:induction false} TotalAtLeast<K(!new), V(!new)>(m: map<K, V>, f: (K, V) -> int, k: K)
    requires k in m && forall x, v :: f(x, v) >= 0
    ensures 0 <= f(k, m[k]) <= Total(m, f)
  {
    TotalRemove(m, f, k);
    TotalNonNegative(m - {k}, f);
  }

  lemma TotalNonNegative<K(!new), V(!new)>(m: map<K, V>, f: (K, V) -> int)
    requires forall x, v :: f(x, v) >= 0
    ensures Total(m, f) >= 0
    decreases |m|
  {
    if m != map[] {
      var k :| k in m && Total(m, f) == f(k, m[k]) + Total(m - {k}, f);
      TotalNonNegative(m - {k}, f);
    }
  }

  /** Rows that contribute nothing may be dropped. */
  lemma {:induction false} TotalIgnores<K(!new), V(!new)>(m: map<K, V>, f: (K, V) -> int, gone: set<K>)
    requires forall k :: k in gone && k in m ==> f(k, m[k]) == 0
    ensures Total(m - gone, f) == Total(m, f)
    decreases |m|
  {
    if exists k :: k in gone && k in m {
      var k :| k in gone && k in m;
      TotalRemove(m, f, k);
      TotalIgnores(m - {k}, f, gone);
      assert m - {k} - gone == m - gone;
    } else {
      assert m - gone == m;
    }
  }

  /** Totals agree when the contributions agree row by row. */
  lemma {:induction false} TotalSame<K(!new), V(!new)>(m: map<K, V>, f: (K, V) -> int, g: (K, V) -> int)
    requires forall k :: k in m ==> f(k, m[k]) == g(k, m[k])
    ensures Total(m, f) == Total(m, g)
    decreases |m|
  {
    if m != map[] {
      var k :| k in m && Total(m, f) == f(k, m[k]) + Total(m - {k}, f);
      TotalRemove(m, g, k);
      TotalSame(m - {k}, f, g);
    }
  }

  lemma {:induction false} TotalZero<K(!new), V(!new)>(m: map<K, V>, f: (K, V) -> int)
    requires forall k :: k in m ==> f(k, m[k]) == 0
    ensures Total(m, f) == 0
    decreases |m|
  {
    if m != map[] {
      var k :| k in m && Total(m, f) == f(k, m[k]) + Total(m - {k}, f);
      TotalZero(m - {k}, f);
    }
  }

  /** The total of a sum of two contributions is the sum of their totals. */
  lemma {:induction false} TotalPlus<K(!new), V(!new)>(
      m: map<K, V>, f: (K, V) -> int, g: (K, V) -> int, h: (K, V) -> int)
    requires forall k :: k in m ==> f(k, m[k]) == g(k, m[k]) + h(k, m[k])
    ensures Total(m, f) == Total(m, g) + Total(m, h)
    decreases |m|
  {
    if m != map[] {
      var k :| k in m && Total(m, f) == f(k, m[k]) + Total(m - {k}, f);
      TotalRemove(m, g, k);
      TotalRemove(m, h, k);
      TotalPlus(m - {k}, f, g, h);
    }
  }
}

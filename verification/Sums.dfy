/** Sums over finite maps, used as measures of the messages that wait in buffers. */
module Sums {

  ghost function Sum<K>(f: map<K, nat>): nat
    decreases |f|
  {
    if f == map[] then 0 else
      assert f.Keys != {};
      var k :| k in f;
      f[k] + Sum(f - {k})
  }

  lemma {:induction false} SumTake<K>(f: map<K, nat>, k: K)
    requires k in f
    ensures Sum(f) == f[k] + Sum(f - {k})
    decreases |f|
  {
    var j :| j in f && Sum(f) == f[j] + Sum(f - {j});
    if j != k {
      SumTake(f - {j}, k);
      SumTake(f - {k}, j);
      assert f - {j} - {k} == f - {k} - {j};
    }
  }

  /** Two maps that agree apart from two keys each. */
  lemma SumTwo<K>(f: map<K, nat>, a: K, b: K)
    requires a in f && b in f && a != b
    ensures Sum(f) == f[a] + f[b] + Sum(f - {a, b})
  {
    SumTake(f, a);
    SumTake(f - {a}, b);
    assert f - {a} - {b} == f - {a, b};
  }

  lemma SumPut<K>(f: map<K, nat>, k: K, n: nat)
    ensures Sum(f[k := n]) == n + Sum(f - {k})
  {
    SumTake(f[k := n], k);
    assert f[k := n] - {k} == f - {k};
  }

  lemma {:induction false} SumZero<K>(f: map<K, nat>)
    ensures Sum(f) == 0 <==> forall k | k in f :: f[k] == 0
    decreases |f|
  {
    if f != map[] {
      var k :| k in f && Sum(f) == f[k] + Sum(f - {k});
      SumZero(f - {k});
      assert forall j | j in f :: j == k || (j in f - {k} && (f - {k})[j] == f[j]);
      assert forall j | j in f - {k} :: j in f && (f - {k})[j] == f[j];
    }
  }

  /** Keys that count for nothing make no difference. */
  lemma {:induction false} SumExtend<K>(f: map<K, nat>, g: map<K, nat>)
    requires (forall k | k in f :: k in g && g[k] == f[k]) && forall k | k in g && k !in f :: g[k] == 0
    ensures Sum(f) == Sum(g)
    decreases |g|
  {
    if g == map[] {
      assert f == map[];
    } else {
      var k :| k in g && Sum(g) == g[k] + Sum(g - {k});
      if k in f { SumTake(f, k); } else { assert f - {k} == f; }
      SumExtend(f - {k}, g - {k});
    }
  }

  /** Sums add up pointwise. */
  lemma {:induction false} SumPlus<K>(f: map<K, nat>, g: map<K, nat>, h: map<K, nat>)
    requires f.Keys == h.Keys && g.Keys == h.Keys && forall k | k in h :: h[k] == f[k] + g[k]
    ensures Sum(h) == Sum(f) + Sum(g)
    decreases |h|
  {
    if h != map[] {
      var k :| k in h && Sum(h) == h[k] + Sum(h - {k});
      SumTake(f, k);
      SumTake(g, k);
      SumPlus(f - {k}, g - {k}, h - {k});
    } else {
      assert f == map[] && g == map[];
    }
  }
}

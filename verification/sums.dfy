/** Sums over finite maps. Redis hashes of counters are modelled as maps from field to
    integer, with an absent field reading as 0, which is how HINCRBY treats it. */
module Sums {
  ghost function Sum<K>(m: map<K, int>): int
    decreases |m|
  {
    if m == map[] then 0
    else
      var k :| k in m.Keys;
      assert |m - {k}| < |m| by { Shrinks(m, k); }
      m[k] + Sum(m - {k})
  }

  lemma Shrinks<K, V>(m: map<K, V>, k: K)
    requires k in m
    ensures |m - {k}| == |m| - 1
  {
    assert (m - {k}).Keys == m.Keys - {k};
    assert |(m - {k}).Keys| == |m.Keys| - 1;
  }

  function Get<K>(m: map<K, int>, k: K): int {
    if k in m then m[k] else 0
  }

  /** HINCRBY. */
  function Incr<K>(m: map<K, int>, k: K, d: int): map<K, int> {
    m[k := Get(m, k) + d]
  }

  /** Field k has risen by d, from 0 if it was absent, and the others are as they were. */
  ghost predicate Raised<K>(m: map<K, int>, more: map<K, int>, k: K, d: int) {
    && more.Keys == m.Keys + {k}
    && more[k] == (if k in m then m[k] else 0) + d
    && forall j | j in m && j != k :: more[j] == m[j]
  }

  lemma IncrRaises<K>(m: map<K, int>, k: K, d: int)
    ensures Raised(m, Incr(m, k, d), k, d)
  {
  }

  /** Pointwise sum: the effect of one HINCRBY for every entry of `d`, in any order. */
  function Plus<K>(m: map<K, int>, d: map<K, int>): map<K, int> {
    map k | k in m.Keys + d.Keys :: Get(m, k) + Get(d, k)
  }

  /** Pointwise difference, likewise. */
  function Minus<K>(m: map<K, int>, d: map<K, int>): map<K, int> {
    map k | k in m.Keys + d.Keys :: Get(m, k) - Get(d, k)
  }

  /** The choice that Sum makes does not matter: any key can be taken out. */
  lemma {:induction false} SumRemove<K>(m: map<K, int>, k: K)
    requires k in m
    ensures Sum(m) == m[k] + Sum(m - {k})
    decreases |m|
  {
    var c :| c in m.Keys && Sum(m) == m[c] + Sum(m - {c});
    if c != k {
      Shrinks(m, c);
      Shrinks(m, k);
      SumRemove(m - {c}, k);
      SumRemove(m - {k}, c);
      assert m - {c} - {k} == m - {k} - {c};
    }
  }

  lemma SumSet<K>(m: map<K, int>, k: K, v: int)
    ensures Sum(m[k := v]) == Sum(m) - Get(m, k) + v
  {
    var m' := m[k := v];
    SumRemove(m', k);
    assert m' - {k} == m - {k};
    if k in m {
      SumRemove(m, k);
    } else {
      assert m - {k} == m;
    }
  }

  /** Adding a whole map is adding it less one key, then that key. */
  lemma PlusOneMore<K>(m: map<K, int>, d: map<K, int>, k: K)
    requires k in d
    ensures var p := Plus(m, d - {k});
            var q := Plus(m, d);
            q.Keys == p.Keys + {k} && q[k] == Get(p, k) + d[k]
            && forall j | j in p && j != k :: q[j] == p[j]
  {
    assert (d - {k}).Keys == d.Keys - {k};
  }

  lemma SumExtra<K>(p: map<K, int>, k: K, v: int, q: map<K, int>)
    requires q.Keys == p.Keys + {k} && q[k] == Get(p, k) + v
    requires forall j | j in p && j != k :: q[j] == p[j]
    ensures Sum(q) == Sum(p) + v
  {
    SumSet(p, k, q[k]);
    assert q == p[k := q[k]];
  }

  lemma {:induction false} SumPlus<K>(m: map<K, int>, d: map<K, int>)
    ensures Sum(Plus(m, d)) == Sum(m) + Sum(d)
    decreases |d|
  {
    if d == map[] {
      assert Plus(m, d) == m;
    } else {
      var k :| k in d;
      Shrinks(d, k);
      SumPlus(m, d - {k});
      SumRemove(d, k);
      PlusOneMore(m, d, k);
      var p := Plus(m, d - {k});
      SumExtra(p, k, d[k], Plus(m, d));
    }
  }

  lemma {:induction false} SumMinus<K>(m: map<K, int>, d: map<K, int>)
    ensures Sum(Minus(m, d)) == Sum(m) - Sum(d)
  {
    SumPlus(Minus(m, d), d);
    var back := Plus(Minus(m, d), d);
    assert forall k | k in m :: k in back && back[k] == m[k];
    assert forall k | k in back && k !in m :: back[k] == 0;
    SumPad(m, back);
  }

  /** Fields that hold 0 do not change the sum. */
  lemma {:induction false} SumPad<K>(m: map<K, int>, padded: map<K, int>)
    requires forall k | k in m :: k in padded && padded[k] == m[k]
    requires forall k | k in padded && k !in m :: padded[k] == 0
    ensures Sum(padded) == Sum(m)
    decreases |padded|
  {
    if padded.Keys == m.Keys {
      assert padded == m;
    } else {
      assert m.Keys <= padded.Keys;
      var k :| k in padded && k !in m;
      Shrinks(padded, k);
      SumRemove(padded, k);
      SumPad(m, padded - {k});
    }
  }

  lemma {:induction false} SumNonNegative<K>(m: map<K, int>)
    requires forall k | k in m :: m[k] >= 0
    ensures Sum(m) >= 0
    ensures forall k | k in m :: m[k] <= Sum(m)
    decreases |m|
  {
    forall k | k in m
      ensures 0 <= m[k] <= Sum(m)
    {
      Shrinks(m, k);
      SumRemove(m, k);
      SumNonNegative(m - {k});
    }
  }
}

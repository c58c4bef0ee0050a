/** Optional values and sums over finite maps, shared by the models. */
module Finite {

  datatype Option<+T> = None | Some(value: T)

  function Get<K, V>(m: map<K, V>, k: K): Option<V> {
    if k in m then Some(m[k]) else None
  }

  /** The map in which `k` holds `v`, or holds nothing when `v` is None. */
  function Put<K, V>(m: map<K, V>, k: K, v: Option<V>): map<K, V> {
    match v
    case None => m - {k}
    case Some(x) => m[k := x]
  }

  ghost predicate Distinct<T>(s: seq<T>) { forall i, j | 0 <= i < j < |s| :: s[i] != s[j] }

  lemma SubsetSize<T>(a: set<T>, b: set<T>)
    requires a <= b
    ensures |a| <= |b|
  {
    assert b == a + (b - a);
  }

  ghost function Sum<K>(m: map<K, nat>): nat
    decreases |m|
  {
    if m == map[] then 0
    else
      var k :| k in m;
      m[k] + Sum(m - {k})
  }

  /** The sum does not depend on the order in which keys are taken. */
  lemma {:induction false} SumRemove<K>(m: map<K, nat>, k: K)
    requires k in m
    ensures Sum(m) == m[k] + Sum(m - {k})
    decreases |m|
  {
    var first :| first in m && Sum(m) == m[first] + Sum(m - {first});
    if first != k {
      SumRemove(m - {first}, k);
      SumRemove(m - {k}, first);
      assert m - {first} - {k} == m - {k} - {first};
    }
  }

  lemma SumPut<K>(m: map<K, nat>, k: K, v: nat)
    ensures Sum(m[k := v]) + (if k in m then m[k] else 0) == Sum(m) + v
  {
    SumRemove(m[k := v], k);
    assert m[k := v] - {k} == m - {k};
    if k in m {
      SumRemove(m, k);
    } else {
      assert m - {k} == m;
    }
  }

  lemma SumDrop<K>(m: map<K, nat>, k: K)
    ensures Sum(m - {k}) + (if k in m then m[k] else 0) == Sum(m)
  {
    if k in m {
      SumRemove(m, k);
    } else {
      assert m - {k} == m;
    }
  }

  /** n copies of `bound`, without asking the solver to multiply variables. */
  function Times(n: nat, bound: nat): nat {
    if n == 0 then 0 else bound + Times(n - 1, bound)
  }

  lemma {:induction false} TimesIsProduct(n: nat, bound: nat)
    ensures Times(n, bound) == n * bound
  {
    if n > 0 {
      TimesIsProduct(n - 1, bound);
      assert n * bound == (n - 1) * bound + bound;
    }
  }

  lemma {:induction false} TimesMonotone(m: nat, n: nat, bound: nat)
    requires m <= n
    ensures Times(m, bound) <= Times(n, bound)
    decreases n - m
  {
    if m < n { TimesMonotone(m + 1, n, bound); }
  }

  /** A map whose non-zero values lie on `support` and are at most `bound`. */
  lemma {:induction false} SumBounded<K>(m: map<K, nat>, support: set<K>, bound: nat)
    requires forall k | k in m :: m[k] <= bound && (k in support || m[k] == 0)
    ensures Sum(m) <= Times(|support|, bound)
    decreases |m|
  {
    if m != map[] {
      var k :| k in m && Sum(m) == m[k] + Sum(m - {k});
      SumBounded(m - {k}, support - {k}, bound);
      if k !in support {
        assert support - {k} == support;
      }
    }
  }

  /** Values that grow by at most `d` each. */
  lemma {:induction false} SumGrows<K>(m: map<K, nat>, m': map<K, nat>, d: nat)
    requires m.Keys == m'.Keys && forall k | k in m :: m'[k] <= m[k] + d
    ensures Sum(m') <= Sum(m) + Times(|m|, d)
    decreases |m|
  {
    if m == map[] {
      assert m' == map[];
    } else {
      var k :| k in m && Sum(m) == m[k] + Sum(m - {k});
      SumRemove(m', k);
      SumGrows(m - {k}, m' - {k}, d);
    }
  }

  /** One value changes freely, the others grow by at most `d` each. */
  lemma SumChanges<K>(m: map<K, nat>, m': map<K, nat>, k: K, d: nat)
    requires m.Keys == m'.Keys && k in m && forall j | j in m && j != k :: m'[j] <= m[j] + d
    ensures Sum(m') + m[k] <= Sum(m) + m'[k] + Times(|m|, d)
  {
    SumRemove(m, k);
    SumRemove(m', k);
    var rest, rest' := m - {k}, m' - {k};
    assert rest.Keys == rest'.Keys && |rest| == |m| - 1;
    SumGrows(rest, rest', d);
  }
}

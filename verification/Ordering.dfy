/** Sorting a finite set by a strict total order, and why the result is the only one. */
module Ordering {

  ghost predicate Between<T>(less: (T, T) -> bool, a: T, b: T, c: T) {
    less(a, b) && less(b, c)
  }

  /** Transitivity is put through `Between` so that the solver uses it only where it is asked to. */
  ghost predicate StrictTotal<T(!new)>(less: (T, T) -> bool) {
    && (forall a :: !less(a, a))
    && (forall a, b, c :: Between(less, a, b, c) ==> less(a, c))
    && (forall a, b :: a != b ==> less(a, b) || less(b, a))
  }

  ghost predicate Asymmetric<T(!new)>(less: (T, T) -> bool) {
    forall a, b :: less(a, b) ==> !less(b, a)
  }

  lemma TotalIsAsymmetric<T(!new)>(less: (T, T) -> bool)
    requires StrictTotal(less)
    ensures Asymmetric(less)
  {
    forall a, b | less(a, b) ensures !less(b, a) {
      assert Between(less, a, b, a) ==> less(a, a);
    }
  }

  /** Each element precedes every later one. */
  ghost predicate Ascending<T>(less: (T, T) -> bool, s: seq<T>) {
    forall i, j | 0 <= i < j < |s| :: less(s[i], s[j])
  }

  ghost function Elements<T>(s: seq<T>): set<T> {
    set x | x in s
  }

  lemma {:induction false} LeastExists<T(!new)>(less: (T, T) -> bool, s: set<T>) returns (least: T)
    requires StrictTotal(less) && s != {}
    ensures least in s && forall x | x in s && x != least :: less(least, x)
    decreases |s|
  {
    var x :| x in s;
    least := x;
    if s - {x} != {} {
      var m := LeastExists(less, s - {x});
      if less(m, x) {
        least := m;
      } else {
        forall y | y in s && y != x ensures less(x, y) {
          assert y == m || Between(less, x, m, y);
        }
      }
    }
  }

  lemma ElementsOfCons<T>(x: T, s: seq<T>)
    ensures Elements([x] + s) == {x} + Elements(s)
  {
    assert forall y :: y in [x] + s <==> y == x || y in s;
  }

  lemma AscendingCons<T>(less: (T, T) -> bool, x: T, s: seq<T>)
    requires Ascending(less, s) && forall y | y in Elements(s) :: less(x, y)
    ensures Ascending(less, [x] + s)
  {
    assert forall k | 0 <= k < |s| :: s[k] in Elements(s);
  }

  ghost function Sorted<T(!new)>(less: (T, T) -> bool, s: set<T>): (out: seq<T>)
    requires StrictTotal(less)
    ensures |out| == |s| && Elements(out) == s && Ascending(less, out)
    decreases |s|
  {
    if s == {} then []
    else
      var least := SomeLeast(less, s);
      var rest := Sorted(less, s - {least});
      ElementsOfCons(least, rest);
      AscendingCons(less, least, rest);
      [least] + rest
  }

  ghost function SomeLeast<T(!new)>(less: (T, T) -> bool, s: set<T>): (least: T)
    requires StrictTotal(less) && s != {}
    ensures least in s && forall x | x in s && x != least :: less(least, x)
  {
    assert exists m :: m in s && forall x | x in s && x != m :: less(m, x) by {
      var m := LeastExists(less, s);
    }
    var m :| m in s && forall x | x in s && x != m :: less(m, x);
    m
  }

  lemma TailKeeps<T(!new)>(less: (T, T) -> bool, a: seq<T>, b: seq<T>, x: T)
    requires Asymmetric(less) && Ascending(less, a)
    requires a != [] && b != [] && a[0] == b[0] && x in a[1..] && x in b
    ensures x in b[1..]
  {
    var k :| 0 <= k < |a| - 1 && a[1..][k] == x;
    assert less(a[0], a[k + 1]);
    assert b == [b[0]] + b[1..];
  }

  lemma {:induction false} AscendingIsUnique<T(!new)>(less: (T, T) -> bool, a: seq<T>, b: seq<T>)
    requires Asymmetric(less) && Ascending(less, a) && Ascending(less, b)
    requires forall x :: x in a <==> x in b
    ensures a == b
    decreases |a|
  {
    assert b == [] || b[0] in b;
    if a != [] {
      assert a[0] in b && b != [] && b[0] in a;
      assert a[0] == b[0];
      forall x | x in a[1..] ensures x in b[1..] { TailKeeps(less, a, b, x); }
      forall x | x in b[1..] ensures x in a[1..] { TailKeeps(less, b, a, x); }
      AscendingIsUnique(less, a[1..], b[1..]);
    }
  }

  /** `out` is what ORDER BY ... LIMIT n may return: n of the rows, in order, before all the others. */
  ghost predicate IsTop<T(!new)>(less: (T, T) -> bool, rows: set<T>, n: nat, out: seq<T>) {
    && |out| == Cut(n, |rows|)
    && Elements(out) <= rows
    && Ascending(less, out)
    && forall x, y | x in out && y in rows && y !in out :: less(x, y)
  }

  function Cut(n: nat, size: nat): nat { if n < size then n else size }

  lemma AppendAscending<T>(less: (T, T) -> bool, a: seq<T>, b: seq<T>)
    requires Ascending(less, a) && Ascending(less, b)
    requires forall i, j | 0 <= i < |a| && 0 <= j < |b| :: less(a[i], b[j])
    ensures Ascending(less, a + b)
  {
  }

  lemma TopBeforeRest<T(!new)>(less: (T, T) -> bool, rows: set<T>, n: nat, out: seq<T>, rest: seq<T>)
    requires IsTop(less, rows, n, out) && Ascending(less, rest) && Elements(rest) == rows - Elements(out)
    ensures Ascending(less, out + rest)
  {
    forall i, j | 0 <= i < |out| && 0 <= j < |rest| ensures less(out[i], rest[j]) {
      assert rest[j] in Elements(rest);
      assert rest[j] !in Elements(out);
    }
    AppendAscending(less, out, rest);
  }

  lemma TopIsAPrefix<T(!new)>(less: (T, T) -> bool, rows: set<T>, n: nat, out: seq<T>, rest: seq<T>, all: seq<T>)
    requires Asymmetric(less) && IsTop(less, rows, n, out)
    requires Ascending(less, rest) && Elements(rest) == rows - Elements(out)
    requires Ascending(less, all) && Elements(all) == rows && |all| == |rows|
    ensures out == all[..Cut(n, |rows|)]
  {
    TopBeforeRest(less, rows, n, out, rest);
    forall x ensures x in out + rest <==> x in all {
      assert x in all <==> x in Elements(all);
      assert x in Elements(out) <==> x in out;
      assert x in Elements(rest) <==> x in rest;
    }
    AscendingIsUnique(less, out + rest, all);
    assert out == (out + rest)[..|out|];
  }

  lemma PrefixIsTop<T(!new)>(less: (T, T) -> bool, rows: set<T>, n: nat, all: seq<T>)
    requires Ascending(less, all) && Elements(all) == rows && |all| == |rows|
    ensures IsTop(less, rows, n, all[..Cut(n, |rows|)])
  {
    var k := Cut(n, |rows|);
    forall x, y | x in all[..k] && y in rows && y !in all[..k] ensures less(x, y) {
      assert y in Elements(all) && all == all[..k] + all[k..];
      EarlierIsLess(less, all, k, x, y);
    }
    assert forall i | 0 <= i < k :: all[i] in Elements(all);
  }

  lemma EarlierIsLess<T>(less: (T, T) -> bool, all: seq<T>, k: nat, x: T, y: T)
    requires Ascending(less, all) && k <= |all| && x in all[..k] && y in all[k..]
    ensures less(x, y)
  {
    var i :| 0 <= i < k && all[..k][i] == x;
    var j :| 0 <= j < |all| - k && all[k..][j] == y;
    assert less(all[i], all[k + j]);
  }

  /** Under a strict total order there is exactly one such answer, a prefix of the sorted rows. */
  lemma {:induction false} TopIsThePrefix<T(!new)>(less: (T, T) -> bool, rows: set<T>, n: nat, out: seq<T>)
    requires StrictTotal(less)
    ensures IsTop(less, rows, n, out) <==> out == Sorted(less, rows)[..Cut(n, |rows|)]
  {
    TotalIsAsymmetric(less);
    if IsTop(less, rows, n, out) {
      TopIsAPrefix(less, rows, n, out, Sorted(less, rows - Elements(out)), Sorted(less, rows));
    }
    PrefixIsTop(less, rows, n, Sorted(less, rows));
  }
}

/** Sums over the values of a map and over the elements of a sequence. */
module Sums {

  ghost function Sum<K>(m: map<K, int>): int
    decreases |m|
  {
    if m == map[] then 0
    else
      var k :| k in m;
      m[k] + Sum(m - {k})
  }

  /** Any key may be taken out first. */
  lemma {:induction false} SumTakeOut<K>(m: map<K, int>, k: K)
    requires k in m
    ensures Sum(m) == m[k] + Sum(m - {k})
    decreases |m|
  {
    var first :| first in m && Sum(m) == m[first] + Sum(m - {first});
    if first != k {
      SumTakeOut(m - {first}, k);
      SumTakeOut(m - {k}, first);
      assert m - {first} - {k} == m - {k} - {first};
    }
  }

  lemma SumUpdate<K>(m: map<K, int>, k: K, v: int)
    ensures Sum(m[k := v]) == Sum(m) - (if k in m then m[k] else 0) + v
  {
    SumTakeOut(m[k := v], k);
    assert m[k := v] - {k} == m - {k};
    if k in m {
      SumTakeOut(m, k);
    } else {
      assert m - {k} == m;
    }
  }

  lemma {:induction false} SumZero<K>(m: map<K, int>)
    requires forall k | k in m :: m[k] == 0
    ensures Sum(m) == 0
    decreases |m|
  {
    if m != map[] {
      var k :| k in m;
      SumTakeOut(m, k);
      SumZero(m - {k});
    }
  }

  lemma {:induction false} SumMonotone<K>(m: map<K, int>, n: map<K, int>)
    requires m.Keys == n.Keys
    requires forall k | k in m :: m[k] <= n[k]
    ensures Sum(m) <= Sum(n)
    decreases |m|
  {
    if m == map[] {
      assert n == map[];
    } else {
      var k :| k in m;
      SumTakeOut(m, k);
      SumTakeOut(n, k);
      SumMonotone(m - {k}, n - {k});
    }
  }

  /** Two sums added and one taken off, key by key. */
  lemma {:induction false} SumCombine<K>(m: map<K, int>, a: map<K, int>, b: map<K, int>, c: map<K, int>)
    requires m.Keys == a.Keys == b.Keys == c.Keys
    requires forall k | k in m :: m[k] == a[k] + b[k] - c[k]
    ensures Sum(m) == Sum(a) + Sum(b) - Sum(c)
    decreases |m|
  {
    if m == map[] {
      assert a == b == c == map[];
    } else {
      var k :| k in m;
      SumTakeOut(m, k);
      SumTakeOut(a, k);
      SumTakeOut(b, k);
      SumTakeOut(c, k);
      SumCombine(m - {k}, a - {k}, b - {k}, c - {k});
    }
  }

  /** A part is at most the whole when nothing is negative. */
  lemma SumAtLeast<K>(m: map<K, int>, k: K)
    requires k in m && forall j | j in m :: m[j] >= 0
    ensures m[k] <= Sum(m)
  {
    SumTakeOut(m, k);
    var rest := m - {k};
    SumMonotone(map j | j in rest :: 0, rest);
    SumZero(map j | j in rest :: 0);
  }

  function SumBy<T>(s: seq<T>, f: T -> int): int {
    if s == [] then 0 else f(s[0]) + SumBy(s[1..], f)
  }

  lemma {:induction false} SumByAppend<T>(a: seq<T>, b: seq<T>, f: T -> int)
    ensures SumBy(a + b, f) == SumBy(a, f) + SumBy(b, f)
  {
    if a == [] {
      assert a + b == b;
    } else {
      assert (a + b)[1..] == a[1..] + b;
      SumByAppend(a[1..], b, f);
    }
  }

  /** The order of the elements does not matter. */
  lemma {:induction false} SumByPermuted<T>(a: seq<T>, b: seq<T>, f: T -> int)
    requires multiset(a) == multiset(b)
    ensures SumBy(a, f) == SumBy(b, f)
  {
    if a == [] {
      assert |multiset(b)| == 0;
    } else {
      var x := a[0];
      assert x in multiset(a);
      var i :| 0 <= i < |b| && b[i] == x;
      assert a == [x] + a[1..];
      assert b == b[..i] + ([x] + b[i + 1..]);
      var rest := b[..i] + b[i + 1..];
      assert multiset(a[1..]) == multiset(a) - multiset{x};
      assert multiset(rest) == multiset(b) - multiset{x};
      SumByPermuted(a[1..], rest, f);
      SumByAppend(b[..i], b[i + 1..], f);
      SumByAppend(b[..i], [x] + b[i + 1..], f);
      SumByAppend([x], b[i + 1..], f);
    }
  }

  lemma {:induction false} SumByMonotone<T>(s: seq<T>, f: T -> int, g: T -> int)
    requires forall x | x in s :: f(x) <= g(x)
    ensures SumBy(s, f) <= SumBy(s, g)
  {
    if s != [] {
      assert s[0] in s;
      SumByMonotone(s[1..], f, g);
    }
  }
}

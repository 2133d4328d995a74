/** Finite sums and counts over maps and sets. */
module Sums {
  function Get<K>(m: map<K, nat>, k: K): nat {
    if k in m then m[k] else 0
  }

  ghost function Sum<K>(m: map<K, nat>): nat
    decreases |m|
  {
    if m == map[] then 0
    else
      var k :| k in m;
      m[k] + Sum(m - {k})
  }

  lemma {:induction false} SumRemove<K>(m: map<K, nat>, k: K)
    requires k in m
    ensures Sum(m) == m[k] + Sum(m - {k})
    decreases |m|
  {
    var j :| j in m && Sum(m) == m[j] + Sum(m - {j});
    if j != k {
      SumRemove(m - {j}, k);
      SumRemove(m - {k}, j);
      assert m - {j} - {k} == m - {k} - {j};
    }
  }

  /** Writing one entry changes the sum by the change of that entry. */
  lemma SumPut<K>(m: map<K, nat>, k: K, v: nat)
    ensures Sum(m[k := v]) + Get(m, k) == Sum(m) + v
  {
    var m' := m[k := v];
    SumRemove(m', k);
    if k in m {
      SumRemove(m, k);
      assert m' - {k} == m - {k};
    } else {
      assert m' - {k} == m;
    }
  }

  lemma {:induction false} SubsetSize<T>(a: set<T>, b: set<T>)
    requires a <= b
    ensures |a| <= |b|
    ensures a != b ==> |a| < |b|
    decreases |a|
  {
    if a != {} {
      var x :| x in a;
      SubsetSize(a - {x}, b - {x});
      assert a == a - {x} + {x} && b == b - {x} + {x};
    }
  }

  function Below(n: nat): (r: set<nat>)
    ensures |r| == n && forall i: nat :: i in r <==> i < n
  {
    if n == 0 then {} else Below(n - 1) + {n - 1}
  }

  /** How many elements satisfy `p`. */
  ghost function Count<T>(q: seq<T>, p: T -> bool): nat {
    if q == [] then 0 else Count(q[..|q| - 1], p) + if p(q[|q| - 1]) then 1 else 0
  }

  lemma CountPush<T>(q: seq<T>, x: T, p: T -> bool)
    ensures Count(q + [x], p) == Count(q, p) + if p(x) then 1 else 0
  {
    assert (q + [x])[..|q|] == q;
  }

  /** Rewriting one element changes the count by that element alone. */
  lemma {:induction false} CountSet<T>(q: seq<T>, i: nat, x: T, p: T -> bool)
    requires i < |q|
    ensures Count(q[i := x], p) + (if p(q[i]) then 1 else 0) == Count(q, p) + if p(x) then 1 else 0
    decreases |q|
  {
    var n := |q| - 1;
    if i == n {
      assert q[i := x][..n] == q[..n];
    } else {
      assert q[i := x][..n] == q[..n][i := x];
      CountSet(q[..n], i, x, p);
    }
  }

  lemma {:induction false} CountBelow<T>(q: seq<T>, p: T -> bool)
    ensures Count(q, p) <= |q|
    decreases |q|
  {
    if q != [] { CountBelow(q[..|q| - 1], p); }
  }
}

/** Sequences without repetition, and reversal. */
module Sequences {
  ghost predicate Distinct<T>(q: seq<T>) {
    forall i, j | 0 <= i < j < |q| :: q[i] != q[j]
  }

  function Reverse<T>(q: seq<T>): (r: seq<T>)
    ensures |r| == |q| && forall i | 0 <= i < |q| :: r[i] == q[|q| - 1 - i]
  {
    seq(|q|, i requires 0 <= i < |q| => q[|q| - 1 - i])
  }

  /** How often `x` occurs among the first `n` elements. */
  function TimesUpTo<T(==)>(q: seq<T>, x: T, n: nat): nat
    requires n <= |q|
  {
    if n == 0 then 0 else TimesUpTo(q, x, n - 1) + if q[n - 1] == x then 1 else 0
  }

  /** How often `x` occurs. */
  function Times<T(==)>(q: seq<T>, x: T): nat {
    TimesUpTo(q, x, |q|)
  }

  lemma {:induction false} TimesInFirst<T>(a: seq<T>, b: seq<T>, x: T, n: nat)
    requires n <= |a|
    ensures TimesUpTo(a + b, x, n) == TimesUpTo(a, x, n)
  {
    if n > 0 { TimesInFirst(a, b, x, n - 1); }
  }

  lemma {:induction false} TimesInSecond<T>(a: seq<T>, b: seq<T>, x: T, n: nat)
    requires n <= |b|
    ensures TimesUpTo(a + b, x, |a| + n) == TimesUpTo(a, x, |a|) + TimesUpTo(b, x, n)
  {
    if n == 0 {
      TimesInFirst(a, b, x, |a|);
    } else {
      TimesInSecond(a, b, x, n - 1);
    }
  }

  lemma TimesJoin<T>(a: seq<T>, b: seq<T>, x: T)
    ensures Times(a + b, x) == Times(a, x) + Times(b, x)
  {
    TimesInSecond(a, b, x, |b|);
  }

  lemma TimesPush<T>(q: seq<T>, y: T, x: T)
    ensures Times(q + [y], x) == Times(q, x) + if y == x then 1 else 0
  {
    TimesInFirst(q, [y], x, |q|);
  }

  lemma {:induction false} OccursUpTo<T>(q: seq<T>, x: T, n: nat)
    requires n <= |q|
    ensures (exists i :: 0 <= i < n && q[i] == x) <==> TimesUpTo(q, x, n) > 0
  {
    if n > 0 { OccursUpTo(q, x, n - 1); }
  }

  lemma OccursSometimes<T>(q: seq<T>, x: T)
    ensures x in q <==> Times(q, x) > 0
  {
    OccursUpTo(q, x, |q|);
  }
}

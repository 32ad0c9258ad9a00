/**
 * Sums of an integer-valued function over a sequence, and the facts about them
 * that the ranking model needs: splitting, reordering and bounding.
 */
module Sums {

  /** f summed over the elements of s. */
  function SumBy<T>(s: seq<T>, f: T -> int): int
  {
    if s == [] then 0 else SumBy(s[..|s| - 1], f) + f(s[|s| - 1])
  }

  lemma {:induction false} SumByAppend<T>(a: seq<T>, b: seq<T>, f: T -> int)
    ensures SumBy(a + b, f) == SumBy(a, f) + SumBy(b, f)
    decreases |b|
  {
    if b == [] {
      assert a + b == a;
    } else {
      var b' := b[..|b| - 1];
      assert (a + b)[..|a + b| - 1] == a + b';
      SumByAppend(a, b', f);
    }
  }

  /** Taking element k out of a sequence takes its term out of the sum. */
  lemma {:induction false} SumByRemove<T>(b: seq<T>, k: int, f: T -> int)
    requires 0 <= k < |b|
    ensures SumBy(b, f) == SumBy(b[..k] + b[k + 1..], f) + f(b[k])
  {
    var p, x, q := b[..k], b[k], b[k + 1..];
    var px := p + [x];
    assert px[..|px| - 1] == p;
    assert SumBy(px, f) == SumBy(p, f) + f(x);
    assert b == px + q;
    SumByAppend(px, q, f);
    SumByAppend(p, q, f);
  }

  lemma {:induction false} MultisetRemove<T>(b: seq<T>, k: int)
    requires 0 <= k < |b|
    ensures multiset(b[..k] + b[k + 1..]) == multiset(b) - multiset{b[k]}
  {
    assert b == b[..k] + [b[k]] + b[k + 1..];
  }

  /** The sum does not depend on the order of the elements. */
  lemma {:induction false} SumByPermutation<T>(a: seq<T>, b: seq<T>, f: T -> int)
    requires multiset(a) == multiset(b)
    ensures SumBy(a, f) == SumBy(b, f)
    decreases |a|
  {
    if a == [] {
      assert |b| == |multiset(b)| == 0;
    } else {
      var x := a[|a| - 1];
      var a' := a[..|a| - 1];
      assert a == a' + [x];
      assert x in multiset(b);
      var k :| 0 <= k < |b| && b[k] == x;
      MultisetRemove(b, k);
      assert multiset(a') == multiset(a) - multiset{x};
      SumByPermutation(a', b[..k] + b[k + 1..], f);
      SumByRemove(b, k, f);
    }
  }

  /** Functions that agree on the elements of s have the same sum over s. */
  lemma {:induction false} SumByCongruent<T>(s: seq<T>, f: T -> int, g: T -> int)
    requires forall i :: 0 <= i < |s| ==> f(s[i]) == g(s[i])
    ensures SumBy(s, f) == SumBy(s, g)
  {
    if s != [] {
      SumByCongruent(s[..|s| - 1], f, g);
    }
  }

  lemma {:induction false} SumByMonotone<T>(s: seq<T>, f: T -> int, g: T -> int)
    requires forall i :: 0 <= i < |s| ==> f(s[i]) <= g(s[i])
    ensures SumBy(s, f) <= SumBy(s, g)
  {
    if s != [] {
      SumByMonotone(s[..|s| - 1], f, g);
    }
  }

  lemma {:induction false} SumByZeros<T>(s: seq<T>, f: T -> int)
    requires forall i :: 0 <= i < |s| ==> f(s[i]) == 0
    ensures SumBy(s, f) == 0
  {
    if s != [] {
      SumByZeros(s[..|s| - 1], f);
    }
  }

  lemma {:induction false} SumByOnes<T>(s: seq<T>, f: T -> int)
    requires forall i :: 0 <= i < |s| ==> f(s[i]) == 1
    ensures SumBy(s, f) == |s|
  {
    if s != [] {
      SumByOnes(s[..|s| - 1], f);
    }
  }

  /** A sum of 0/1 indicators counts at most |s| elements. */
  lemma {:induction false} SumByIndicator<T>(s: seq<T>, f: T -> int)
    requires forall i :: 0 <= i < |s| ==> 0 <= f(s[i]) <= 1
    ensures 0 <= SumBy(s, f) <= |s|
  {
    if s != [] {
      SumByIndicator(s[..|s| - 1], f);
    }
  }

  /** A sum of non-negative terms that is positive has a positive term. */
  lemma {:induction false} SumByPositive<T>(s: seq<T>, f: T -> int)
    requires forall i :: 0 <= i < |s| ==> 0 <= f(s[i])
    requires SumBy(s, f) > 0
    ensures exists i :: 0 <= i < |s| && f(s[i]) > 0
  {
    if forall i :: 0 <= i < |s| ==> f(s[i]) <= 0 {
      SumByZeros(s, f);
    }
  }
}

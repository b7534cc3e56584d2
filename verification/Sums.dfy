/** Finite sums over sequences, and the facts about them that do not depend on the order of the terms. */
module Sums {

  function Sum(s: seq<int>): int {
    if s == [] then 0 else s[0] + Sum(s[1..])
  }

  /** The sum of f over the elements of s. */
  function SumBy<T>(f: T -> int, s: seq<T>): int {
    if s == [] then 0 else f(s[0]) + SumBy(f, s[1..])
  }

  lemma {:induction false} SumConcat(a: seq<int>, b: seq<int>)
    ensures Sum(a + b) == Sum(a) + Sum(b)
  {
    if a == [] {
      assert a + b == b;
    } else {
      SumConcat(a[1..], b);
      assert (a + b)[1..] == a[1..] + b;
    }
  }

  lemma {:induction false} SumByConcat<T>(f: T -> int, a: seq<T>, b: seq<T>)
    ensures SumBy(f, a + b) == SumBy(f, a) + SumBy(f, b)
  {
    if a == [] {
      assert a + b == b;
    } else {
      SumByConcat(f, a[1..], b);
      assert (a + b)[1..] == a[1..] + b;
    }
  }

  /** Taking one element out of a sequence. */
  lemma {:induction false} SumByRemove<T>(f: T -> int, s: seq<T>, k: nat)
    requires k < |s|
    ensures SumBy(f, s) == f(s[k]) + SumBy(f, s[..k] + s[k+1..])
    ensures multiset(s) == multiset{s[k]} + multiset(s[..k] + s[k+1..])
  {
    assert s == s[..k] + ([s[k]] + s[k+1..]);
    SumByConcat(f, s[..k], [s[k]] + s[k+1..]);
    assert ([s[k]] + s[k+1..])[1..] == s[k+1..];
    SumByConcat(f, s[..k], s[k+1..]);
    assert multiset(s) == multiset(s[..k]) + multiset([s[k]] + s[k+1..]);
  }

  /** A sum does not depend on the order of its terms. */
  lemma {:induction false} SumByPermutation<T>(f: T -> int, a: seq<T>, b: seq<T>)
    requires multiset(a) == multiset(b)
    ensures SumBy(f, a) == SumBy(f, b)
    decreases |a|
  {
    if a == [] {
      assert |multiset(b)| == 0;
      assert b == [];
    } else {
      assert a[0] in multiset(b);
      var k :| 0 <= k < |b| && b[k] == a[0];
      var rest := b[..k] + b[k+1..];
      SumByRemove(f, b, k);
      assert a == [a[0]] + a[1..];
      assert multiset(a) == multiset{a[0]} + multiset(a[1..]);
      assert multiset(a[1..]) == multiset(a) - multiset{a[0]};
      assert multiset(rest) == multiset(b) - multiset{a[0]};
      SumByPermutation(f, a[1..], rest);
    }
  }

  lemma {:induction false} SumByBounds<T>(f: T -> int, s: seq<T>, lo: int, hi: int)
    requires forall i :: 0 <= i < |s| ==> lo <= f(s[i]) <= hi
    ensures lo * |s| <= SumBy(f, s) <= hi * |s|
  {
    if s != [] {
      assert forall i :: 0 <= i < |s[1..]| ==> s[1..][i] == s[i+1];
      SumByBounds(f, s[1..], lo, hi);
    }
  }

  lemma {:induction false} SumByPointwise<T>(f: T -> int, g: T -> int, s: seq<T>)
    requires forall i :: 0 <= i < |s| ==> f(s[i]) == g(s[i])
    ensures SumBy(f, s) == SumBy(g, s)
  {
    if s != [] {
      assert forall i :: 0 <= i < |s[1..]| ==> s[1..][i] == s[i+1];
      SumByPointwise(f, g, s[1..]);
    }
  }

  lemma {:induction false} SumByConstant<T>(f: T -> int, s: seq<T>, c: int)
    requires forall i :: 0 <= i < |s| ==> f(s[i]) == c
    ensures SumBy(f, s) == c * |s|
  {
    SumByBounds(f, s, c, c);
  }

  /** A sum of terms equals the sum of the sequence listing them. */
  lemma {:induction false} SumByListed<T>(f: T -> int, s: seq<T>, values: seq<int>)
    requires |values| == |s|
    requires forall i :: 0 <= i < |s| ==> values[i] == f(s[i])
    ensures Sum(values) == SumBy(f, s)
  {
    if s != [] {
      assert forall i :: 0 <= i < |s[1..]| ==> s[1..][i] == s[i+1] && values[1..][i] == values[i+1];
      SumByListed(f, s[1..], values[1..]);
    }
  }

  /** Two sums added term by term, weighted by integers. */
  lemma {:induction false} SumByLinear<T>(f: T -> int, g: T -> int, h: T -> int, s: seq<T>, a: int, b: int)
    requires forall i :: 0 <= i < |s| ==> h(s[i]) == a * f(s[i]) + b * g(s[i])
    ensures SumBy(h, s) == a * SumBy(f, s) + b * SumBy(g, s)
  {
    if s != [] {
      assert forall i :: 0 <= i < |s[1..]| ==> s[1..][i] == s[i+1];
      SumByLinear(f, g, h, s[1..], a, b);
      Distribute(a, f(s[0]), SumBy(f, s[1..]));
      Distribute(b, g(s[0]), SumBy(g, s[1..]));
    }
  }

  lemma Distribute(a: int, x: int, y: int)
    ensures a * (x + y) == a * x + a * y
  {}
}

/** Decimal arithmetic that keeps p significant digits and rounds half to even, on non-negative
    rationals. A decimal is a ratio n/d; a rounded one has a power of ten below the bar. */
module SignificantDigits {
  import opened DecimalText

  datatype Ratio = Ratio(n: nat, d: nat)

  predicate Valid(r: Ratio) { r.d > 0 }

  /** The integer nearest to n/d, the even one of two equally near. */
  function HalfEven(n: nat, d: nat): nat
    requires d > 0
  {
    var q, r := n / d, n % d;
    if 2 * r < d || (2 * r == d && q % 2 == 0) then q else q + 1
  }

  /** h is at most half a unit away from n/d, and even when it is exactly half a unit away. */
  predicate NearestEven(n: nat, d: nat, h: nat) {
    var e := 2 * (n - h * d);
    -(d as int) <= e <= d && (e == d || e == -(d as int) ==> h % 2 == 0)
  }

  lemma HalfEvenNearest(n: nat, d: nat)
    requires d > 0
    ensures NearestEven(n, d, HalfEven(n, d))
  {
    var q, r := n / d, n % d;
    Euclid(n, d);
    assert (q + 1) * d == q * d + d;
  }

  lemma Euclid(n: nat, d: nat)
    requires d > 0
    ensures n == (n / d) * d + n % d && 0 <= n % d < d
  {}

  lemma Steps(k: int, d: nat)
    requires d > 0
    ensures k >= 1 ==> k * d >= d
    ensures k <= -1 ==> k * d <= -(d as int)
    ensures k >= 2 ==> k * d >= 2 * d
    ensures k <= -2 ==> k * d <= -2 * d
  {}

  /** Being the nearest, even on a tie, determines the rounded integer. */
  lemma NearestIsHalfEven(n: nat, d: nat, h: nat)
    requires d > 0 && NearestEven(n, d, h)
    ensures HalfEven(n, d) == h
  {
    hide HalfEven;
    var g := HalfEven(n, d);
    HalfEvenNearest(n, d);
    Gap(g, h, d);
    Steps(h - g, d);
    if g == h + 1 || h == g + 1 { NoTwoEvens(g, h); }
  }

  lemma Gap(g: int, h: int, d: int)
    ensures (h - g) * d == h * d - g * d
  {}

  lemma NoTwoEvens(g: nat, h: nat)
    requires g == h + 1 || h == g + 1
    ensures g % 2 != 0 || h % 2 != 0
  {}

  lemma HalfEvenScales(a: nat, n: nat, d: nat)
    requires a > 0 && d > 0
    ensures a * d > 0
    ensures HalfEven(a * n, a * d) == HalfEven(n, d)
  {
    var h := HalfEven(n, d);
    HalfEvenNearest(n, d);
    var e := 2 * (n - h * d);
    Steps(a, d);
    ScaleInterval(a, e, d);
    ScaledGap(a, n, h, d);
    NearestIsHalfEven(a * n, a * d, h);
  }

  lemma ScaledGap(a: nat, n: nat, h: nat, d: nat)
    ensures 2 * (a * n - h * (a * d)) == a * (2 * (n - h * d))
  {
    assert h * (a * d) == a * (h * d);
  }

  lemma ScaleInterval(a: nat, e: int, d: nat)
    requires a > 0 && -(d as int) <= e <= d
    ensures -(a * d) <= a * e <= a * d
    ensures a * e == a * d ==> e == d
    ensures a * e == -(a * d) ==> e == -(d as int)
  {
    assert a * (d - e) == a * d - a * e;
    assert a * (d + e) == a * d + a * e;
    Steps(d - e, a);
    Steps(d + e, a);
  }

  /** How far n/d lies above, and below, the ratios with p digits before the point. */
  function Over(n: nat, d: nat, p: nat): nat {
    if d > 0 && n >= d * Pow10(p) then (Steps(Pow10(p), d); n - d) else 0
  }

  function Under(n: nat, d: nat, p: nat): nat
    requires p > 0
  {
    if n < d * Pow10(p - 1) then d * Pow10(p - 1) - n else 0
  }

  lemma OverShrinks(n: nat, d: nat, p: nat)
    requires d > 0 && p > 0 && n >= d * Pow10(p)
    ensures Over(n, 10 * d, p) < Over(n, d, p)
  {
    assert d * Pow10(p) == (10 * d) * Pow10(p - 1);
    Steps(Pow10(p - 1), 10 * d);
  }

  lemma UnderShrinks(n: nat, d: nat, p: nat)
    requires d > 0 && p > 0 && 0 < n < d * Pow10(p - 1)
    ensures Over(10 * n, d, p) == 0 == Over(n, d, p)
    ensures Under(10 * n, d, p) < Under(n, d, p)
  {
    assert d * Pow10(p) == 10 * (d * Pow10(p - 1));
  }

  /** The rounding of n/d to p significant digits. */
  function RoundSig(n: nat, d: nat, p: nat): (r: Ratio)
    requires d > 0 && p > 0
    ensures Valid(r)
    decreases Over(n, d, p), Under(n, d, p)
  {
    if n == 0 then Ratio(0, 1)
    else if n >= d * Pow10(p) then
      OverShrinks(n, d, p);
      var r := RoundSig(n, 10 * d, p);
      Ratio(10 * r.n, r.d)
    else if n < d * Pow10(p - 1) then
      UnderShrinks(n, d, p);
      var r := RoundSig(10 * n, d, p);
      Ratio(r.n, 10 * r.d)
    else Ratio(HalfEven(n, d), 1)
  }

  lemma OrderScales(a: nat, n: nat, d: nat, k: nat)
    requires a > 0
    ensures a * n >= (a * d) * k <==> n >= d * k
    ensures a * n < (a * d) * k <==> n < d * k
  {
    assert (a * d) * k == a * (d * k);
    assert a * n - a * (d * k) == a * (n - d * k);
    Steps(n - d * k, a);
  }

  lemma RoundSigAbove(n: nat, d: nat, p: nat)
    requires d > 0 && p > 0 && n >= d * Pow10(p)
    ensures RoundSig(n, d, p) == var r := RoundSig(n, 10 * d, p); Ratio(10 * r.n, r.d)
  {
    Steps(Pow10(p), d);
  }

  lemma RoundSigBelow(n: nat, d: nat, p: nat)
    requires d > 0 && p > 0 && 0 < n < d * Pow10(p - 1)
    ensures RoundSig(n, d, p) == var r := RoundSig(10 * n, d, p); Ratio(r.n, 10 * r.d)
  {
    UnderShrinks(n, d, p);
  }

  lemma RoundSigInside(n: nat, d: nat, p: nat)
    requires d > 0 && p > 0 && d * Pow10(p - 1) <= n < d * Pow10(p)
    ensures RoundSig(n, d, p) == Ratio(HalfEven(n, d), 1)
  {
    Steps(Pow10(p - 1), d);
  }

  lemma RoundSigZero(d: nat, p: nat)
    requires d > 0 && p > 0
    ensures RoundSig(0, d, p) == Ratio(0, 1)
  {}

  lemma TenFold(a: int, n: int)
    ensures a * (10 * n) == 10 * (a * n)
  {}

  /** Rounding depends only on the ratio: cancelling a factor changes nothing. */
  lemma {:induction false} RoundSigScales(a: nat, n: nat, d: nat, p: nat)
    requires a > 0 && d > 0 && p > 0
    ensures a * d > 0
    ensures RoundSig(a * n, a * d, p) == RoundSig(n, d, p)
    decreases Over(n, d, p), Under(n, d, p)
  {
    hide RoundSig, HalfEven, Pow10, Over, Under;
    Steps(a, d);
    if n == 0 {
      assert a * n == 0;
      RoundSigZero(d, p);
      RoundSigZero(a * d, p);
    } else {
      OrderScales(a, n, d, Pow10(p));
      OrderScales(a, n, d, Pow10(p - 1));
      Steps(n, a);
      TenFold(a, n);
      TenFold(a, d);
      if n >= d * Pow10(p) {
        OverShrinks(n, d, p);
        RoundSigScales(a, n, 10 * d, p);
        RoundSigAbove(n, d, p);
        RoundSigAbove(a * n, a * d, p);
      } else if n < d * Pow10(p - 1) {
        UnderShrinks(n, d, p);
        RoundSigScales(a, 10 * n, d, p);
        RoundSigBelow(n, d, p);
        RoundSigBelow(a * n, a * d, p);
      } else {
        HalfEvenScales(a, n, d);
        RoundSigInside(n, d, p);
        RoundSigInside(a * n, a * d, p);
      }
    }
  }

  /** Equal ratios round alike. */
  lemma RoundSigEqualRatios(n: nat, d: nat, m: nat, e: nat, p: nat)
    requires d > 0 && e > 0 && p > 0 && n * e == m * d
    ensures RoundSig(n, d, p) == RoundSig(m, e, p)
  {
    RoundSigScales(e, n, d, p);
    RoundSigScales(d, m, e, p);
    assert e * n == d * m && e * d == d * e;
  }

  /** Below one, rounding keeps j places, where j is fixed by the leading digit. */
  lemma {:induction false} RoundSigPlaces(n: nat, d: nat, p: nat, j: nat)
    requires d > 0 && p > 0 && n > 0
    requires d * Pow10(p - 1) <= n * Pow10(j) < d * Pow10(p)
    ensures RoundSig(n, d, p) == Ratio(HalfEven(n * Pow10(j), d), Pow10(j))
    decreases j
  {
    hide RoundSig, HalfEven, Pow10;
    if j > 0 {
      PowerSteps(j);
      PowerSteps(p);
      BelowWindow(n, d, Pow10(j - 1), Pow10(p - 1));
      RoundSigPlaces(10 * n, d, p, j - 1);
      RoundSigBelow(n, d, p);
    } else {
      PowerZero();
      RoundSigInside(n, d, p);
    }
  }

  lemma PowerSteps(k: nat)
    requires k > 0
    ensures Pow10(k) == 10 * Pow10(k - 1)
  {}

  lemma PowerZero()
    ensures Pow10(0) == 1
  {}

  lemma BelowWindow(n: nat, d: nat, a: nat, w: nat)
    requires n > 0 && d > 0 && a > 0 && n * (10 * a) < d * (10 * w)
    ensures n < d * w && n * (10 * a) == (10 * n) * a
  {
    assert n * (10 * a) == 10 * (n * a) && d * (10 * w) == 10 * (d * w);
    Steps(a, n);
    assert a * n == n * a;
  }

  /** Every ratio below one has such a number of places, and it is at least p. */
  lemma {:induction false} PlacesOf(n: nat, d: nat, p: nat, i: nat) returns (j: nat)
    requires d > 0 && p > 0 && n > 0 && n * Pow10(i) < d * Pow10(p)
    ensures j >= i && n * Pow10(j) < d * Pow10(p)
    ensures d * Pow10(p - 1) <= n * Pow10(j)
    decreases d * Pow10(p - 1) - n * Pow10(i)
  {
    if d * Pow10(p - 1) <= n * Pow10(i) {
      j := i;
    } else {
      assert n * Pow10(i + 1) == 10 * (n * Pow10(i));
      assert d * Pow10(p) == 10 * (d * Pow10(p - 1));
      Steps(n, Pow10(i));
      j := PlacesOf(n, d, p, i + 1);
    }
  }

  /** The value of r is u units of 10^-s. */
  ghost predicate IsUnits(r: Ratio, u: nat, s: nat) {
    r.d > 0 && r.n * Pow10(s) == u * r.d
  }

  /** A number of at most 10^p units keeps its exact value. */
  lemma {:induction false} ExactUnits(u: nat, s: nat, p: nat)
    requires p > 0 && u <= Pow10(p)
    ensures IsUnits(RoundSig(u, Pow10(s), p), u, s)
    decreases s, Pow10(p - 1) - u
  {
    hide RoundSig, Over, Under;
    if u == 0 {
      RoundSigZero(Pow10(s), p);
    } else if s > 0 {
      ExactBelow(u, s, p);
      if u < Pow10(s) * Pow10(p - 1) {
        ExactUnits(u, s - 1, p);
        ExactStep(u, s, p);
      } else {
        WholeQuotient(Pow10(p - 1), Pow10(s), p);
      }
    } else if u == Pow10(p) {
      WholeQuotient(Pow10(p - 1), 10, p);
      RoundSigAbove(u, 1, p);
    } else if u < Pow10(p - 1) {
      ExactUnits(10 * u, 0, p);
      RoundSigBelow(u, 1, p);
    } else {
      RoundSigInside(u, 1, p);
      NearestIsHalfEven(u, 1, u);
    }
  }

  lemma ExactBelow(u: nat, s: nat, p: nat)
    requires p > 0 && s > 0 && u <= Pow10(p)
    ensures u <= Pow10(s) * Pow10(p - 1)
  {
    assert Pow10(s) * Pow10(p - 1) == Pow10(s - 1) * Pow10(p);
    Steps(Pow10(s - 1), Pow10(p));
  }

  lemma ExactStep(u: nat, s: nat, p: nat)
    requires p > 0 && s > 0 && 0 < u < Pow10(s) * Pow10(p - 1)
    requires IsUnits(RoundSig(u, Pow10(s - 1), p), u, s - 1)
    ensures IsUnits(RoundSig(u, Pow10(s), p), u, s)
  {
    hide RoundSig;
    RoundSigScales(10, u, Pow10(s - 1), p);
    RoundSigBelow(u, Pow10(s), p);
    var t := RoundSig(u, Pow10(s - 1), p);
    assert t.n * Pow10(s) == 10 * (t.n * Pow10(s - 1));
    assert u * (10 * t.d) == 10 * (u * t.d);
  }

  lemma WholeQuotient(h: nat, d: nat, p: nat)
    requires d > 0 && p > 0 && h == Pow10(p - 1)
    ensures RoundSig(d * h, d, p) == Ratio(h, 1)
  {
    hide RoundSig, HalfEven, Pow10;
    PowerSteps(p);
    WholeWindow(d, h);
    NearestIsHalfEven(d * h, d, h);
    RoundSigInside(d * h, d, p);
  }

  lemma WholeWindow(d: nat, h: nat)
    requires d > 0 && h > 0
    ensures d * h < d * (10 * h) && d * h - h * d == 0
  {
    assert d * (10 * h) == 10 * (d * h);
    Steps(h, d);
    assert h * d == d * h;
  }

  /** A quotient of equals is exactly one. */
  lemma RoundSigOne(a: nat, p: nat)
    requires a > 0 && p > 0
    ensures RoundSig(a, a, p).n == RoundSig(a, a, p).d
  {
    RoundSigScales(a, 1, 1, p);
    ExactUnits(1, 0, p);
  }

  // ----- The operations -----

  function Plus(a: Ratio, b: Ratio, p: nat): (r: Ratio)
    requires Valid(a) && Valid(b) && p > 0
    ensures Valid(r)
  {
    Steps(a.d, b.d);
    RoundSig(a.n * b.d + b.n * a.d, a.d * b.d, p)
  }

  /** Subtraction of a decimal that is not larger. */
  function Minus(a: Ratio, b: Ratio, p: nat): (r: Ratio)
    requires Valid(a) && Valid(b) && p > 0 && !Greater(b, a)
    ensures Valid(r)
  {
    Steps(a.d, b.d);
    RoundSig(a.n * b.d - b.n * a.d, a.d * b.d, p)
  }

  function DividedBy(a: Ratio, b: Ratio, p: nat): (r: Ratio)
    requires Valid(a) && Valid(b) && p > 0 && b.n > 0
    ensures Valid(r)
  {
    Steps(a.d, b.n);
    RoundSig(a.n * b.d, a.d * b.n, p)
  }

  predicate Greater(a: Ratio, b: Ratio) { a.n * b.d > b.n * a.d }

  predicate EqualsOne(a: Ratio) { a.n == a.d }
}

/** How much each partner of a Musharaka receives: the parts of a result of fewer digits than the precision,
    compared with the exact shares that the ratios and the capitals of the input give. */
module MusharakaShares {
  import opened Wrappers
  import opened DecimalText
  import opened SignificantDigits
  import opened Musharaka
  import Q = Moutanaqissa

  // ----- Rounding a share -----

  /** k is the whole part of x. */
  predicate WholePart(x: real, k: int) { k as real <= x < (k + 1) as real }

  /** A share of whole part i, and t, of whole part f, which it is rounded to: whole numbers are not passed, a whole
      share is kept, and the error is at most one twentieth. */
  predicate Rounded(share: real, i: int, t: real, f: int) {
    && WholePart(share, i) && WholePart(t, f) && i as real <= t <= (i + 1) as real && -0.05 <= t - share <= 0.05
    && (share == i as real ==> t == share)
  }

  /** Rounding does not pass whole numbers. */
  lemma WholeKeepsOrder(n: nat, d: nat, m: nat, p: nat)
    requires d > 0 && p > 0 && n < d * Pow10(p - 1)
    ensures var r := RoundSig(n, d, p);
            (m * d <= n ==> m * r.d <= r.n) && (n <= m * d ==> r.n <= m * r.d)
  {
    hide RoundSig, HalfEven, Pow10;
    if n == 0 {
      RoundSigZero(d, p);
      if m > 0 { Steps(m, d); }
    } else {
      PowerSteps(p);
      BelowTen(n, d, Pow10(p - 1));
      PowerZero();
      var j := PlacesOf(n, d, p, 0);
      RoundSigPlaces(n, d, p, j);
      HalfEvenNearest(n * Pow10(j), d);
      NearestKeepsOrder(n, d, m, HalfEven(n * Pow10(j), d), Pow10(j));
    }
  }

  lemma NearestKeepsOrder(n: nat, d: nat, m: nat, h: nat, a: nat)
    requires d > 0 && a > 0 && -(d as int) <= 2 * (n * a - h * d) <= d
    ensures (m * d <= n ==> m * a <= h) && (n <= m * d ==> h <= m * a)
  {
    assert (h - m * a) * d == h * d - (m * a) * d && (m * a) * d == (m * d) * a;
    assert (n - m * d) * a == n * a - (m * d) * a;
    Steps(h - m * a, d);
    if m * d <= n { NonNegative(n - m * d, a); }
    if n <= m * d { NonNegative(m * d - n, a); assert (m * d - n) * a == (m * d) * a - n * a; }
  }

  lemma OrderOfQuotient(m: nat, n: nat, d: nat)
    requires d > 0
    ensures m * d <= n <==> m as real <= n as real / d as real
    ensures n <= m * d <==> n as real / d as real <= m as real
  {
    var x, D := n as real / d as real, d as real;
    Quotient(n as real, D);
    assert (m * d) as real == m as real * D;
    Difference(x, m as real, D);
    if x > m as real { Positive(x - m as real, D); }
    if x < m as real { Positive(m as real - x, D); Difference(m as real, x, D); }
  }

  lemma IsRounded(n: nat, d: nat, p: nat)
    requires d > 0 && p > 0 && n < d * Pow10(p - 1)
    ensures Rounded(n as real / d as real, n / d, Val(RoundSig(n, d, p)), Floor(RoundSig(n, d, p)))
  {
    hide RoundSig, Pow10, Val;
    var r, x, m := RoundSig(n, d, p), n as real / d as real, n / d;
    WholeQuotient(n, d);
    WholeQuotient(r.n, r.d);
    OrderOfQuotient(m, n, d);
    WholeKeepsOrder(n, d, m, p);
    WholeKeepsOrder(n, d, m + 1, p);
    OrderOfQuotient(m, r.n, r.d);
    OrderOfQuotient(m + 1, r.n, r.d);
    NextWhole(n, d);
    ErrorOfShare(n, d, p);
    ValueOf(r);
  }

  lemma NextWhole(n: nat, d: nat)
    requires d > 0
    ensures (n / d) * d <= n <= (n / d + 1) * d
  {
    Euclid(n, d);
    assert (n / d + 1) * d == (n / d) * d + d;
  }

  lemma ValueOf(r: Ratio)
    requires Valid(r)
    ensures Val(r) == r.n as real / r.d as real
  {}

  lemma ErrorOfShare(n: nat, d: nat, p: nat)
    requires d > 0 && p > 0 && n < d * Pow10(p - 1)
    ensures var r := RoundSig(n, d, p); -0.05 <= r.n as real / r.d as real - n as real / d as real <= 0.05
  {
    hide RoundSig, Pow10;
    var r := RoundSig(n, d, p);
    RoundingError(n, d, p);
    Reversed(r.n, r.d, n, d);
    GapOfQuotients(10, r.n, r.d, n, d);
    GapOfQuotients(10, n, d, r.n, r.d);
  }

  /** The integer quotient is the whole part of the quotient. */
  lemma WholeQuotient(n: nat, d: nat)
    requires d > 0
    ensures WholePart(n as real / d as real, n / d)
  {
    NextWhole(n, d);
    OrderOfQuotient(n / d, n, d);
    OrderOfQuotient(n / d + 1, n, d);
    Euclid(n, d);
    assert !((n / d + 1) * d <= n) by { assert (n / d + 1) * d == (n / d) * d + d; }
  }

  lemma Reversed(a: nat, b: nat, n: nat, d: nat)
    requires 0 - b * d <= 20 * (a * d - n * b)
    ensures 2 * (10 * (n * b - a * d)) <= d * b
  {
    assert b * d == d * b;
  }

  // ----- The two parts -----

  lemma OnePartNear(sa: real, sb: real, ta: real, tb: real, i: int, j: int, fa: int, fb: int, k: int, f: int,
                    gap: real)
    requires Rounded(sa, i, ta, fa) && Rounded(sb, j, tb, fb)
    requires 0.0 <= gap <= 0.9 && sa + sb >= (fa + fb + k) as real - gap && k >= 0
    requires f == fa || (f == fa + k && ta - fa as real >= tb - fb as real)
    ensures -1.0 < f as real - sa < 1.0 + gap
    ensures sa == i as real ==> f == i
  {
    assert fa == i || fa == i + 1;
    assert (fa + fb + k) as real == fa as real + fb as real + k as real;
    assert j <= fb && sb < (fb + 1) as real;
    assert sa < (fa + 1) as real;
    assert k <= 2;
    assert (fa + k) as real == fa as real + k as real;
  }

  /** Two rounded shares that are short of the whole number N by at most gap, cut to whole units, and the rest given
      to the larger fraction: every part is less than a unit below its share, and less than a unit and the gap above
      it; a whole share is met. */
  lemma PartsNear(sa: real, sb: real, ta: real, tb: real, i: int, j: int, fa: int, fb: int, N: int, f: int, g: int,
                  gap: real)
    requires Rounded(sa, i, ta, fa) && Rounded(sb, j, tb, fb)
    requires 0.0 <= gap <= 0.9 && sa + sb >= N as real - gap && fa + fb <= N
    requires if N > fa + fb && ta - fa as real >= tb - fb as real then f == N - fb && g == fb
             else f == fa && g == N - fa
    ensures -1.0 < f as real - sa < 1.0 + gap && -1.0 < g as real - sb < 1.0 + gap
    ensures (sa == i as real ==> f == i) && (sb == j as real ==> g == j)
  {
    hide Rounded;
    OnePartNear(sa, sb, ta, tb, i, j, fa, fb, N - fa - fb, f, gap);
    OnePartNear(sb, sa, tb, ta, j, i, fb, fa, N - fa - fb, g, gap);
  }

  /** The fractions compared as integers are the fractions of the values. */
  lemma FractionsAsReals(a: Ratio, b: Ratio)
    requires Valid(a) && Valid(b)
    ensures FractionAtLeast(a, b) <==> Val(a) - Floor(a) as real >= Val(b) - Floor(b) as real
  {
    FractionOf(a);
    FractionOf(b);
    var x, y := Val(a) - Floor(a) as real, Val(b) - Floor(b) as real;
    CrossMultiplied(x, y, a.n % a.d, b.n % b.d, a.d, b.d);
  }

  lemma FractionOf(a: Ratio)
    requires Valid(a)
    ensures (Val(a) - Floor(a) as real) * a.d as real == (a.n % a.d) as real
  {
    Euclid(a.n, a.d);
    var x, D := Val(a), a.d as real;
    Quotient(a.n as real, D);
    assert (Floor(a) * a.d) as real == Floor(a) as real * D;
    Difference(x, Floor(a) as real, D);
  }

  lemma CrossMultiplied(x: real, y: real, m: nat, n: nat, c: nat, d: nat)
    requires c > 0 && d > 0 && x * c as real == m as real && y * d as real == n as real
    ensures m * d >= n * c <==> x >= y
  {
    var C, D := c as real, d as real;
    assert (m * d) as real == m as real * D && (n * c) as real == n as real * C;
    Positive(C, D);
    assert m as real * D == x * (C * D) && n as real * C == y * (C * D);
    Difference(x, y, C * D);
    if x > y { Positive(x - y, C * D); }
    if x < y { Positive(y - x, C * D); Difference(y, x, C * D); }
  }

  /** The share of a ratio in a total. */
  function ShareOf(total: nat, r: Ratio): real
    requires Valid(r)
  {
    (total * r.n) as real / r.d as real
  }

  lemma TimesRounds(total: nat, r: Ratio, p: nat)
    requires p > 0 && Valid(r) && r.n <= r.d && total < Pow10(p - 1)
    ensures Rounded(ShareOf(total, r), total * r.n / r.d, Val(Times(total, r, p)), Floor(Times(total, r, p)))
  {
    hide RoundSig, Pow10;
    PartOfTotal(total, r, Pow10(p - 1));
    IsRounded(total * r.n, r.d, p);
  }

  /** Both parts of a total that is conserved. */
  lemma SplitNear(total: nat, a: Ratio, b: Ratio, p: nat, gap: real)
    requires p > 0 && Valid(a) && Valid(b) && a.n <= a.d && b.n <= b.d && total < Pow10(p - 1)
    requires 0.0 <= gap <= 0.9 && ShareOf(total, a) + ShareOf(total, b) >= total as real - gap
    requires SplitUnits(total, a, b, p).0 + SplitUnits(total, a, b, p).1 == total
    ensures var (first, second) := SplitUnits(total, a, b, p);
            && -1.0 < first as real - ShareOf(total, a) < 1.0 + gap
            && -1.0 < second as real - ShareOf(total, b) < 1.0 + gap
            && (ShareOf(total, a) == (total * a.n / a.d) as real ==> first as real == ShareOf(total, a))
            && (ShareOf(total, b) == (total * b.n / b.d) as real ==> second as real == ShareOf(total, b))
  {
    hide Times, Floor, Val, ShareOf, Rounded, Pow10, FractionAtLeast;
    TimesRounds(total, a, p);
    TimesRounds(total, b, p);
    var x, y := Times(total, a, p), Times(total, b, p);
    FractionsAsReals(x, y);
    var (first, second) := SplitUnits(total, a, b, p);
    PartsNear(ShareOf(total, a), ShareOf(total, b), Val(x), Val(y), total * a.n / a.d, total * b.n / b.d,
              Floor(x), Floor(y), total, first, second, gap);
  }

  // ----- A profit -----

  /** Two accepted profit ratios are short of one by at most half a unit of the p-th place. */
  lemma RatiosNotShort(total: nat, x: nat, y: nat, s: nat, p: nat)
    requires p > 0 && total < Pow10(p - 1) && EqualsOne(Plus(Q.Decimal(x, s), Q.Decimal(y, s), p))
    ensures ShareOf(total, Q.Decimal(x, s)) + ShareOf(total, Q.Decimal(y, s)) >= total as real - 0.05
    ensures x + y >= Pow10(s) ==>
              ShareOf(total, Q.Decimal(x, s)) + ShareOf(total, Q.Decimal(y, s)) >= total as real
  {
    hide RoundSig, Pow10, ShareOf;
    RoundedSum(x, y, Pow10(s), p);
    ShareIs(total, x, s);
    ShareIs(total, y, s);
    SumNearTotal(total, x, y, Pow10(s), p);
  }

  lemma SumNearTotal(total: nat, x: nat, y: nat, d: nat, p: nat)
    requires p > 0 && d > 0 && total < Pow10(p - 1) && EqualsOne(RoundSig(x + y, d, p))
    ensures (total * x) as real / d as real + (total * y) as real / d as real >= total as real - 0.05
    ensures x + y >= d ==> (total * x) as real / d as real + (total * y) as real / d as real >= total as real
  {
    hide RoundSig, Pow10;
    var n := x + y;
    SharesAdd(total, x, y, d);
    OrderOfOne(n, d);
    if n < d {
      JustBelowOne(n, d, p);
      SmallGap(total, Pow10(p - 1), n as real / d as real);
    } else {
      AtLeastTotal(total, n as real / d as real);
    }
  }

  /** What is rounded up to one is short of it by at most half a unit of the p-th place. */
  lemma JustBelowOne(n: nat, d: nat, p: nat)
    requires p > 0 && n < d && EqualsOne(RoundSig(n, d, p))
    ensures n as real / d as real <= 1.0 && (10 * Pow10(p - 1)) as real * (1.0 - n as real / d as real) <= 0.5
  {
    hide RoundSig, Pow10;
    PlacesError(n, d, p);
    var one := RoundSig(n, d, p);
    GapOfQuotients(Pow10(p), one.n, one.d, n, d);
    SameOne(one);
    PowerSteps(p);
    OrderOfOne(n, d);
  }

  lemma SameOne(r: Ratio)
    requires Valid(r) && r.n == r.d
    ensures r.n as real / r.d as real == 1.0
  {}

  lemma OrderOfOne(n: nat, d: nat)
    requires d > 0
    ensures n >= d <==> n as real / d as real >= 1.0
  {
    OrderOfQuotient(1, n, d);
  }

  lemma SharesAdd(total: nat, x: nat, y: nat, S: nat)
    requires S > 0
    ensures (total * x) as real / S as real + (total * y) as real / S as real
            == total as real * ((x + y) as real / S as real)
  {
    SumOfQuotients(total * x, total * y, S);
    assert total * x + total * y == total * (x + y);
    assert (total * (x + y)) as real == total as real * (x + y) as real;
    Regroup(total as real, (x + y) as real, S as real);
  }

  lemma SmallGap(total: nat, w: nat, v: real)
    requires total < w && (10 * w) as real * (1.0 - v) <= 0.5 && v <= 1.0
    ensures total as real * v >= total as real - 0.05
  {
    var T, W := total as real, w as real;
    assert (10 * w) as real * (1.0 - v) == 10.0 * (W * (1.0 - v));
    assert (W - T) * (1.0 - v) == W * (1.0 - v) - T * (1.0 - v);
    assert T * (1.0 - v) == T - T * v;
    if v < 1.0 { Positive(1.0 - v, W - T); }
  }

  lemma AtLeastTotal(total: nat, v: real)
    requires v >= 1.0
    ensures total as real * v >= total as real
  {
    assert total as real * v == total as real + total as real * (v - 1.0);
    if v > 1.0 && total > 0 { Positive(v - 1.0, total as real); }
  }

  /** units lies less than u/v from the quotient n/d. */
  predicate IsNear(units: int, n: nat, d: nat, v: nat, u: nat) {
    -(u * d) < v * (units * d - n) < u * d
  }

  lemma NearInUnits(units: int, n: nat, d: nat, v: nat, u: nat, gap: real)
    requires d > 0 && gap == units as real - n as real / d as real && -(u as real) < v as real * gap < u as real
    ensures IsNear(units, n, d, v, u)
  {
    var x, D, V, U := n as real / d as real, d as real, v as real, u as real;
    Quotient(n as real, D);
    assert (v * (units * d - n)) as real == V * (units as real * D - n as real);
    Difference(units as real, x, D);
    var e := V * (units as real - x);
    assert e * D == V * ((units as real - x) * D);
    Difference(U, e, D);
    Positive(U - e, D);
    Positive(e + U, D);
    assert (e + U) * D == e * D + U * D;
    assert (u * d) as real == U * D;
  }

  lemma MetInUnits(units: int, n: nat, d: nat)
    requires d > 0 && (n as real / d as real == (n / d) as real ==> units as real == n as real / d as real)
    ensures n % d == 0 ==> units * d == n
  {
    Euclid(n, d);
    if n % d == 0 {
      OrderOfQuotient(n / d, n, d);
      var x := n as real / d as real;
      assert x == (n / d) as real;
      assert units == n / d;
    }
  }

  /** A part in units: less than (1 + gap) away from its share, which is met when it is whole. */
  lemma PartInUnits(units: int, n: nat, d: nat, v: nat, u: nat, gap: real)
    requires d > 0 && v > 0 && -1.0 < units as real - n as real / d as real < 1.0 + gap
    requires v <= u && v as real * (1.0 + gap) <= u as real
    ensures IsNear(units, n, d, v, u)
  {
    hide IsNear;
    var e := units as real - n as real / d as real;
    Multiplied(e, v as real, 1.0 + gap, u as real);
    NearInUnits(units, n, d, v, u, e);
  }

  lemma Multiplied(e: real, v: real, c: real, u: real)
    requires v > 0.0 && -1.0 < e < c && v <= u && v * c <= u
    ensures -u < v * e < u
  {
    Positive(e + 1.0, v);
    assert (e + 1.0) * v == e * v + v;
    Positive(c - e, v);
    Difference(c, e, v);
  }

  /** The two parts of a total by ratios x/S and y/S: each less than 21/20 of a unit from its exact share, less than
      one unit if the ratios do not stay below one together, and equal to a share that is whole. */
  ghost predicate SharedBy(first: int, second: int, total: nat, x: nat, y: nat, S: nat)
    requires S > 0
  {
    && IsNear(first, total * x, S, 20, 21) && IsNear(second, total * y, S, 20, 21)
    && (x + y >= S ==> IsNear(first, total * x, S, 1, 1) && IsNear(second, total * y, S, 1, 1))
    && (total * x % S == 0 ==> first * S == total * x) && (total * y % S == 0 ==> second * S == total * y)
  }

  lemma SplitByRatios(total: nat, x: nat, y: nat, s: nat, p: nat)
    requires p > 0 && total < Pow10(p - 1) && x <= Pow10(s) && y <= Pow10(s)
    requires EqualsOne(Plus(Q.Decimal(x, s), Q.Decimal(y, s), p))
    ensures var (first, second) := SplitUnits(total, Q.Decimal(x, s), Q.Decimal(y, s), p);
            SharedBy(first, second, total, x, y, Pow10(s))
  {
    hide RoundSig, Pow10, SplitUnits, NearlyOne, IsNear, ShareOf, Plus;
    var a, b, S := Q.Decimal(x, s), Q.Decimal(y, s), Pow10(s);
    ProfitRatiosNearlyOne(total, s, x, y, p);
    SplitConserves(total, a, b, p);
    RatiosNotShort(total, x, y, s, p);
    var (first, second) := SplitUnits(total, a, b, p);
    SplitNear(total, a, b, p, 0.05);
    ShareIs(total, x, s);
    ShareIs(total, y, s);
    PartInUnits(first, total * x, S, 20, 21, 0.05);
    PartInUnits(second, total * y, S, 20, 21, 0.05);
    if x + y >= S {
      SplitNear(total, a, b, p, 0.0);
      PartInUnits(first, total * x, S, 1, 1, 0.0);
      PartInUnits(second, total * y, S, 1, 1, 0.0);
    }
    MetInUnits(first, total * x, S);
    MetInUnits(second, total * y, S);
  }

  lemma ShareIs(total: nat, x: nat, s: nat)
    ensures ShareOf(total, Q.Decimal(x, s)) == (total * x) as real / Pow10(s) as real
    ensures Q.Decimal(x, s) == Ratio(x, Pow10(s))
  {}

  /** A profit of fewer digits than the precision is shared by the negotiated ratios, the bank's part by the bank's
      ratio and the partner's by the partner's. */
  lemma ProfitShares(input: Input, p: nat)
    requires p > 0 && 0 < input.result < Pow10(p - 1) && Outcome(input, p).Ok?
    ensures Outcome(input, p).value.rule == NegotiatedProfitRatio
    ensures SharedBy(Outcome(input, p).value.bank, Outcome(input, p).value.partner, input.result,
                     input.bankProfitRatio, input.partnerProfitRatio, Pow10(input.ratioDigits))
  {
    hide Outcome, Pow10, SharedBy, SplitUnits, Plus;
    ProfitIsSplit(input, p);
    SplitByRatios(input.result, input.bankProfitRatio, input.partnerProfitRatio, input.ratioDigits, p);
  }

  lemma ProfitIsSplit(input: Input, p: nat)
    requires p > 0 && 0 < input.result && Outcome(input, p).Ok?
    ensures var a, s := Outcome(input, p).value, input.ratioDigits;
            var x, y := input.bankProfitRatio, input.partnerProfitRatio;
            && a.rule == NegotiatedProfitRatio && x <= Pow10(s) && y <= Pow10(s)
            && EqualsOne(Plus(Q.Decimal(x, s), Q.Decimal(y, s), p))
            && SplitUnits(input.result, Q.Decimal(x, s), Q.Decimal(y, s), p) == (a.bank, a.partner)
  {
    hide RoundSig, Pow10, SplitUnits, Plus, Greater, EqualsOne, PassiveExceeds;
    AtMostOne(input.bankProfitRatio, input.ratioDigits);
    AtMostOne(input.partnerProfitRatio, input.ratioDigits);
  }

  /** A result of zero shares nothing, and a loss the bank is liable for is its own alone. */
  lemma UnsharedResults(input: Input, p: nat)
    requires p > 0 && Outcome(input, p).Ok?
    ensures input.result == 0 ==> Outcome(input, p).value == Allocation(0, 0, NoRule)
    ensures input.result < 0 && input.bankLiability ==>
              Outcome(input, p).value == Allocation(input.result, 0, CausalBankLiability)
  {
    hide RoundSig, SplitUnits, Plus, Greater, PassiveExceeds;
  }

  // ----- A loss -----

  /** A rounded value exceeds a number by at most half a unit of the p-th digit of that number. */
  lemma {:induction false} RelativeExcess(n: nat, d: nat, p: nat)
    requires d > 0 && p > 0
    ensures var r := RoundSig(n, d, p);
            2 * (Pow10(p - 1) * (r.n * d - n * r.d)) <= n * r.d
    decreases Over(n, d, p), Under(n, d, p)
  {
    hide RoundSig, HalfEven, Pow10, Over, Under;
    var w := Pow10(p - 1);
    if n == 0 {
      RoundSigZero(d, p);
      assert 0 * d - n * 1 == 0;
    } else if n >= d * Pow10(p) {
      OverShrinks(n, d, p);
      RelativeExcess(n, 10 * d, p);
      RoundSigAbove(n, d, p);
      var r := RoundSig(n, 10 * d, p);
      Q.Rearrange(r.n, 10, d);
    } else if n < d * w {
      UnderShrinks(n, d, p);
      RelativeExcess(10 * n, d, p);
      RoundSigBelow(n, d, p);
      var r := RoundSig(10 * n, d, p);
      Q.Rearrange(n, 10, r.d);
    } else {
      RoundSigInside(n, d, p);
      HalfEvenNearest(n, d);
      UnitExcess(n, d, HalfEven(n, d), w);
    }
  }

  lemma UnitExcess(n: int, d: nat, h: int, w: nat)
    requires d > 0 && w > 0 && d * w <= n && -(d as int) <= 2 * (n - h * d) <= d
    ensures 2 * (w * (h * d - n * 1)) <= n * 1
  {
    var e := 2 * (n - h * d);
    ScaleInterval(w, e, d);
    assert w * e == 2 * (w * (n - h * d));
    assert w * (h * d - n) == -(w * (n - h * d));
    assert w * d == d * w;
  }

  /** A number below one is rounded down by at most half a unit of the p-th place. */
  lemma PlacesShortfall(n: nat, d: nat, p: nat)
    requires p > 0 && n < d
    ensures var r := RoundSig(n, d, p); 2 * (Pow10(p) * (n * r.d - r.n * d)) <= r.d * d
  {
    hide RoundSig, HalfEven, Pow10;
    if n == 0 {
      RoundSigZero(d, p);
      assert 0 * 1 - 0 * d == 0;
    } else {
      PartBelow(n, d, Pow10(p));
      var j := PlacesOf(n, d, p, p);
      RoundSigPlaces(n, d, p, j);
      HalfEvenNearest(n * Pow10(j), d);
      Pow10Monotone(p, j);
      FinerShortfall(n * Pow10(j), d, HalfEven(n * Pow10(j), d), Pow10(p), Pow10(j));
    }
  }

  lemma FinerShortfall(y: nat, d: nat, h: nat, u: nat, v: nat)
    requires d > 0 && 0 < u <= v && 2 * (y - h * d) <= d
    ensures 2 * (u * (y - h * d)) <= v * d
  {
    var e := 2 * (y - h * d);
    assert u * (d - e) == u * d - u * e && u * e == 2 * (u * (y - h * d));
    NonNegative(u, d - e);
    assert (v - u) * d == v * d - u * d;
    NonNegative(v - u, d);
  }

  /** The rounded sum of the capitals, on values. */
  lemma SumError(n: nat, d: nat, p: nat)
    requires d > 0 && p > 0
    ensures var v, t, w := n as real / d as real, Val(RoundSig(n, d, p)), Pow10(p - 1) as real;
            2.0 * (w * (v - t)) <= t && 2.0 * (w * (t - v)) <= v
  {
    hide RoundSig, Pow10;
    var r, w := RoundSig(n, d, p), Pow10(p - 1);
    RelativeError(n, d, p);
    RelativeExcess(n, d, p);
    RelativeGap(w, n, d, r.n, r.d);
    RelativeGap(w, r.n, r.d, n, d);
  }

  lemma RelativeGap(w: nat, a: nat, b: nat, c: nat, d: nat)
    requires b > 0 && d > 0 && 2 * (w * (a * d - c * b)) <= c * b
    ensures 2.0 * (w as real * (a as real / b as real - c as real / d as real)) <= c as real / d as real
  {
    var A, B, C, D, W := a as real, b as real, c as real, d as real, w as real;
    var x, y := A / B, C / D;
    Quotient(A, B);
    Quotient(C, D);
    assert (a * d) as real == A * D && (c * b) as real == C * B;
    assert (w * (a * d - c * b)) as real == W * (A * D - C * B);
    Positive(B, D);
    RelativeUnscaled(W, x, y, A, B, C, D);
  }

  lemma RelativeUnscaled(W: real, x: real, y: real, A: real, B: real, C: real, D: real)
    requires B > 0.0 && D > 0.0 && x * B == A && y * D == C && B * D > 0.0
    requires 2.0 * (W * (A * D - C * B)) <= C * B
    ensures 2.0 * (W * (x - y)) <= y
  {
    Regrouped(x, B, D);
    Regrouped(y, D, B);
    assert B * D == D * B;
    Difference(x, y, B * D);
    Regrouped(W, x - y, B * D);
    NoMore(2.0 * (W * (x - y)), y, B * D, 2.0 * (W * (A * D - C * B)), C * B);
  }

  lemma NoMore(e: real, y: real, v: real, ev: real, yv: real)
    requires v > 0.0 && ev == e * v && yv == y * v && ev <= yv
    ensures e <= y
  {
    Difference(e, y, v);
    if e > y { Positive(e - y, v); }
  }

  /** Dividing by a rounded sum t in place of v moves a quotient below one by at most half a unit of the p-th
      digit. */
  lemma Drift(w: real, E: real, X: real, v: real, t: real)
    requires w > 0.0 && v > 0.0 && t > 0.0 && 0.0 <= E <= 1.0 && 0.0 <= X && X * t == E * v
    requires 2.0 * (w * (v - t)) <= t && 2.0 * (w * (t - v)) <= v
    ensures -0.5 <= w * (X - E) <= 0.5
  {
    DriftUp(w, E, X, v, t);
    DriftDown(w, E, X, v, t);
  }

  lemma DriftUp(w: real, E: real, X: real, v: real, t: real)
    requires w > 0.0 && t > 0.0 && 0.0 <= E <= 1.0 && X * t == E * v && 2.0 * (w * (v - t)) <= t
    ensures w * (X - E) <= 0.5
  {
    var z := w * (v - t);
    assert (w * (X - E)) * t == E * z by {
      assert (X - E) * t == E * (v - t);
      assert (w * (X - E)) * t == w * ((X - E) * t);
      assert w * (E * (v - t)) == E * (w * (v - t));
    }
    Shrunk(E, z, 0.5 * t);
    NoMore(w * (X - E), 0.5, t, E * z, 0.5 * t);
  }

  lemma Shrunk(E: real, z: real, b: real)
    requires 0.0 <= E <= 1.0 && z <= b && b >= 0.0
    ensures E * z <= b
  {
    if z > 0.0 && E < 1.0 { Positive(1.0 - E, z); assert (1.0 - E) * z == z - E * z; }
    if z < 0.0 && E > 0.0 { Positive(E, -z); assert E * (-z) == -(E * z); }
  }

  lemma DriftDown(w: real, E: real, X: real, v: real, t: real)
    requires w > 0.0 && v > 0.0 && 0.0 <= E <= 1.0 && 0.0 <= X && X * t == E * v && 2.0 * (w * (t - v)) <= v
    ensures w * (E - X) <= 0.5
  {
    if E > X {
      DriftUp(w, X, E, t, v);
    } else if X > E {
      Positive(X - E, w);
      assert (X - E) * w == -(w * (E - X));
    }
  }

  /** How far w (x - y) may be from zero. */
  predicate Within(w: real, x: real, y: real, bound: real) { -bound <= w * (x - y) <= bound }

  /** A ratio n/d is rounded to r: up or down by half a unit of the p-th place, or to one. */
  lemma RatioBothWays(n: nat, d: nat, p: nat)
    requires p > 1 && d > 0 && 2 * (Pow10(p - 1) * (n - d)) <= d
    ensures var r, X := RoundSig(n, d, p), n as real / d as real;
            && r.n <= r.d && 0.0 <= Val(r) <= 1.0
            && (X < 1.0 ==> Within(Pow10(p - 1) as real, Val(r), X, 0.05)) && (X >= 1.0 ==> Val(r) == 1.0)
  {
    hide RoundSig, Pow10, Within;
    var r := RoundSig(n, d, p);
    RatioRounded(n, d, p);
    ValuesOfRatio(r);
    OrderOfOne(n, d);
    if n < d {
      PlacesError(n, d, p);
      PlacesShortfall(n, d, p);
      GapOfQuotients(Pow10(p), r.n, r.d, n, d);
      GapOfQuotients(Pow10(p), n, d, r.n, r.d);
      PowerSteps(p);
      TenfoldGap(Pow10(p - 1), Val(r), n as real / d as real);
    } else {
      RoundsToOne(n, d, p);
      SameOne(r);
    }
  }

  lemma ValuesOfRatio(r: Ratio)
    requires Valid(r) && r.n <= r.d
    ensures 0.0 <= Val(r) <= 1.0 && Val(r) == r.n as real / r.d as real
  {
    OrderOfQuotient(0, r.n, r.d);
    OrderOfQuotient(1, r.n, r.d);
  }

  lemma TenfoldGap(w: nat, x: real, y: real)
    requires (10 * w) as real * (x - y) <= 0.5 && (10 * w) as real * (y - x) <= 0.5
    ensures Within(w as real, x, y, 0.05)
  {
    var W := w as real;
    assert (10 * w) as real * (x - y) == 10.0 * (W * (x - y));
    assert (10 * w) as real * (y - x) == 0.0 - 10.0 * (W * (x - y));
  }

  /** From the drift of the quotient and its rounding to the distance of the ratio from the exact one. */
  lemma RatioNearExact(w: real, E: real, X: real, r: real, drift: real)
    requires w > 0.0 && E <= 1.0 && 0.0 <= drift && Within(w, X, E, drift)
    requires (X < 1.0 ==> Within(w, r, X, 0.05)) && (X >= 1.0 ==> r == 1.0)
    ensures Within(w, r, E, drift + 0.05)
  {
    if X < 1.0 {
      assert w * (r - E) == w * (r - X) + w * (X - E);
    } else {
      assert w * (X - E) - w * (1.0 - E) == w * (X - 1.0);
      if X > 1.0 { Positive(X - 1.0, w); }
      if E < 1.0 { Positive(1.0 - E, w); }
    }
  }

  /** What two ratios are short of one, at the scale w. */
  function Missing(w: real, r: real, q: real): real { w * (1.0 - (r + q)) }

  /** The two rounded ratios are short of one by what their quotients drifted and were rounded. */
  lemma RatiosSum(w: real, X: real, Y: real, r: real, q: real, drift: real)
    requires w > 0.0 && 0.0 <= drift && Missing(w, X, Y) <= drift && 0.0 <= r && 0.0 <= q
    requires (X < 1.0 ==> Within(w, r, X, 0.05)) && (X >= 1.0 ==> r == 1.0)
    requires (Y < 1.0 ==> Within(w, q, Y, 0.05)) && (Y >= 1.0 ==> q == 1.0)
    ensures Missing(w, r, q) <= drift + 0.1
  {
    if X < 1.0 && Y < 1.0 {
      assert w * (1.0 - (r + q)) == w * (1.0 - (X + Y)) - w * (r - X) - w * (q - Y);
    } else if r + q > 1.0 {
      Positive(r + q - 1.0, w);
      assert (r + q - 1.0) * w == -(w * (1.0 - (r + q)));
    }
  }

  /** A bound at the scale w holds for a smaller total. */
  lemma SmallerTotal(total: nat, w: nat, x: real, bound: real)
    requires total < w && bound >= 0.0 && w as real * x <= bound
    ensures total as real * x <= bound
  {
    var T, W := total as real, w as real;
    if x > 0.0 { Positive(x, W - T); assert x * (W - T) == W * x - T * x; }
    if x < 0.0 && T > 0.0 { Positive(-x, T); assert (-x) * T == -(T * x); }
  }

  lemma ExactQuotients(b: nat, c: nat, S: nat)
    requires b + c > 0 && S > 0
    ensures var E, F, v := b as real / (b + c) as real, c as real / (b + c) as real, (b + c) as real / S as real;
            && 0.0 <= E <= 1.0 && 0.0 <= F <= 1.0 && E + F == 1.0 && v > 0.0 && E * v == b as real / S as real
            && F * v == c as real / S as real
  {
    OrderOfQuotient(0, b, b + c);
    OrderOfQuotient(1, b, b + c);
    OrderOfQuotient(0, c, b + c);
    OrderOfQuotient(1, c, b + c);
    SumOfQuotients(b, c, b + c);
    OrderOfQuotient(1, b + c, b + c);
    OrderOfQuotient(0, b + c, S);
    Chain(b as real, (b + c) as real, S as real);
    Chain(c as real, (b + c) as real, S as real);
  }

  lemma Chain(a: real, m: real, k: real)
    requires m > 0.0 && k > 0.0
    ensures (a / m) * (m / k) == a / k && m / k > 0.0
  {
    Quotient(a, m);
    Quotient(m, k);
    Quotient(a, k);
    var x, y := a / m, m / k;
    assert (x * y) * k == x * m;
    SameQuotient(x * y, a / k, k);
  }

  /** The quotient by the rounded sum t, times t. */
  lemma RoundedQuotient(x: nat, td: nat, tn: nat, S: nat)
    requires td > 0 && tn > 0 && S > 0
    ensures S * tn > 0
    ensures ((x * td) as real / (S * tn) as real) * (tn as real / td as real) == x as real / S as real
    ensures (x * td) as real / (S * tn) as real >= 0.0
  {
    Steps(S, tn);
    OrderOfQuotient(0, x * td, S * tn);
    var X, t := (x * td) as real / (S * tn) as real, tn as real / td as real;
    var N, D := td as real, S as real;
    Quotient((x * td) as real, (S * tn) as real);
    Quotient(tn as real, N);
    Quotient(x as real, D);
    assert (x * td) as real == x as real * N && (S * tn) as real == D * tn as real;
    assert X * (D * (t * N)) == x as real * N;
    assert ((X * t) * D) * N == X * (D * (t * N));
    SameQuotient((X * t) * D, x as real, N);
    SameQuotient(X * t, x as real / D, D);
  }

  /** What the sum of the capitals loses by being rounded, at the scale of the precision; nothing when it is kept. */
  function DriftOf(b: nat, c: nat, s: nat, p: nat): real
    requires p > 0
  {
    if Val(RoundSig(b + c, Pow10(s), p)) == (b + c) as real / Pow10(s) as real then 0.0 else 0.5
  }

  /** The quotient of a capital by the rounded sum t. */
  function Divided(x: nat, S: nat, t: Ratio): real
    requires Valid(t) && t.n > 0 && S > 0
  {
    Steps(S, t.n);
    (x * t.d) as real / (S * t.n) as real
  }

  lemma DividedTimes(x: nat, S: nat, t: Ratio)
    requires Valid(t) && t.n > 0 && S > 0
    ensures Divided(x, S, t) * Val(t) == x as real / S as real && Divided(x, S, t) >= 0.0
  {
    RoundedQuotient(x, t.d, t.n, S);
  }

  /** One capital ratio: its quotient by the rounded sum drifts, then it is rounded. */
  lemma OneCapitalRatio(x: nat, b: nat, c: nat, s: nat, p: nat)
    requires p > 1 && (x == b || x == c) && b + c > 0
    ensures RoundSig(b + c, Pow10(s), p).n > 0 && CapitalRatio(x, b, c, s, p).Some?
    ensures var r, w := CapitalRatio(x, b, c, s, p).value, Pow10(p - 1) as real;
            var X, E := Divided(x, Pow10(s), RoundSig(b + c, Pow10(s), p)), x as real / (b + c) as real;
            && r.n <= r.d && 0.0 <= Val(r) <= 1.0
            && (X < 1.0 ==> Within(w, Val(r), X, 0.05)) && (X >= 1.0 ==> Val(r) == 1.0)
            && Within(w, Val(r), E, DriftOf(b, c, s, p) + 0.05)
  {
    hide RoundSig, Pow10, Val, CapitalRatio, Within;
    var S, w := Pow10(s), Pow10(p - 1);
    var t := RoundSig(b + c, S, p);
    RelativeError(b + c, S, p);
    PositiveTotal(b + c, S, t, w);
    CapitalRatioIs(x, b, c, t, s, p);
    TotalGap(w, b, c, t.d, t.n, S);
    RatioBothWays(x * t.d, S * t.n, p);
    ExactQuotients(b, c, S);
    DriftIs(x, b, c, s, p);
    RatioNearExact(w as real, x as real / (b + c) as real, Divided(x, S, t),
                   Val(CapitalRatio(x, b, c, s, p).value), DriftOf(b, c, s, p));
  }

  lemma DriftIs(x: nat, b: nat, c: nat, s: nat, p: nat)
    requires p > 1 && (x == b || x == c) && b + c > 0 && RoundSig(b + c, Pow10(s), p).n > 0
    ensures Within(Pow10(p - 1) as real, Divided(x, Pow10(s), RoundSig(b + c, Pow10(s), p)),
                   x as real / (b + c) as real, DriftOf(b, c, s, p))
  {
    hide RoundSig, Pow10, Val, Within, Divided;
    var S := Pow10(s);
    var t := RoundSig(b + c, S, p);
    DividedTimes(x, S, t);
    ExactQuotients(b, c, S);
    SumError(b + c, S, p);
    PositiveValue(t);
    DriftWithin(Pow10(p - 1) as real, x as real / (b + c) as real, Divided(x, S, t), (b + c) as real / S as real,
                Val(t));
  }

  lemma DriftWithin(w: real, E: real, X: real, v: real, t: real)
    requires w > 0.0 && v > 0.0 && t > 0.0 && 0.0 <= E <= 1.0 && 0.0 <= X && X * t == E * v
    requires 2.0 * (w * (v - t)) <= t && 2.0 * (w * (t - v)) <= v
    ensures Within(w, X, E, if t == v then 0.0 else 0.5)
  {
    if t == v { SameQuotient(X, E, v); } else { Drift(w, E, X, v, t); }
  }

  lemma PositiveValue(r: Ratio)
    requires Valid(r) && r.n > 0
    ensures Val(r) > 0.0
  {
    OrderOfQuotient(0, r.n, r.d);
  }

  /** Both together are short of one by no more than the drift and the two roundings. */
  lemma CapitalRatiosNotShort(total: nat, b: nat, c: nat, s: nat, p: nat)
    requires p > 1 && b + c > 0 && total < Pow10(p - 1)
    ensures CapitalRatio(b, b, c, s, p).Some? && CapitalRatio(c, b, c, s, p).Some?
    ensures var x, y := CapitalRatio(b, b, c, s, p).value, CapitalRatio(c, b, c, s, p).value;
            ShareOf(total, x) + ShareOf(total, y) >= total as real - (DriftOf(b, c, s, p) + 0.1)
  {
    hide RoundSig, Pow10, Val, CapitalRatio, DriftOf, ShareOf, Missing;
    CapitalRatiosSum(b, c, s, p);
    DriftBounds(b, c, s, p);
    SharesNotShort(total, Pow10(p - 1), CapitalRatio(b, b, c, s, p).value, CapitalRatio(c, b, c, s, p).value,
                   DriftOf(b, c, s, p) + 0.1);
  }

  lemma CapitalRatiosSum(b: nat, c: nat, s: nat, p: nat)
    requires p > 1 && b + c > 0
    ensures CapitalRatio(b, b, c, s, p).Some? && CapitalRatio(c, b, c, s, p).Some?
    ensures Missing(Pow10(p - 1) as real, Val(CapitalRatio(b, b, c, s, p).value),
                    Val(CapitalRatio(c, b, c, s, p).value)) <= DriftOf(b, c, s, p) + 0.1
  {
    hide RoundSig, Pow10, Val, CapitalRatio, Within, DriftOf, Divided, Missing;
    var t := RoundSig(b + c, Pow10(s), p);
    OneCapitalRatio(b, b, c, s, p);
    OneCapitalRatio(c, b, c, s, p);
    QuotientsNotShort(b, c, s, p);
    DriftBounds(b, c, s, p);
    RatiosSum(Pow10(p - 1) as real, Divided(b, Pow10(s), t), Divided(c, Pow10(s), t),
              Val(CapitalRatio(b, b, c, s, p).value), Val(CapitalRatio(c, b, c, s, p).value), DriftOf(b, c, s, p));
  }

  lemma SharesNotShort(total: nat, w: nat, r: Ratio, q: Ratio, bound: real)
    requires Valid(r) && Valid(q) && total < w && bound >= 0.0 && Missing(w as real, Val(r), Val(q)) <= bound
    ensures ShareOf(total, r) + ShareOf(total, q) >= total as real - bound
  {
    hide Val, ShareOf;
    SmallerTotal(total, w, 1.0 - (Val(r) + Val(q)), bound);
    ShareIsProduct(total, r);
    ShareIsProduct(total, q);
    Spread(total as real, Val(r), Val(q));
  }

  lemma Spread(t: real, x: real, y: real)
    ensures t * (1.0 - (x + y)) == t - t * x - t * y
  {}

  lemma DriftBounds(b: nat, c: nat, s: nat, p: nat)
    requires p > 0
    ensures 0.0 <= DriftOf(b, c, s, p) <= 0.5
  {}

  lemma ShareIsProduct(total: nat, r: Ratio)
    requires Valid(r)
    ensures ShareOf(total, r) == total as real * Val(r)
  {
    ProductValue(total, r);
  }

  lemma QuotientsNotShort(b: nat, c: nat, s: nat, p: nat)
    requires p > 1 && b + c > 0 && RoundSig(b + c, Pow10(s), p).n > 0
    ensures var t := RoundSig(b + c, Pow10(s), p);
            Missing(Pow10(p - 1) as real, Divided(b, Pow10(s), t), Divided(c, Pow10(s), t)) <= DriftOf(b, c, s, p)
  {
    hide RoundSig, Pow10, Val, Divided, Missing;
    var S := Pow10(s);
    var t := RoundSig(b + c, S, p);
    DividedTimes(b, S, t);
    DividedTimes(c, S, t);
    SumOfQuotients(b, c, S);
    ExactQuotients(b, c, S);
    SumError(b + c, S, p);
    PositiveValue(t);
    SumNotShort(Pow10(p - 1) as real, Divided(b, S, t), Divided(c, S, t), (b + c) as real / S as real, Val(t));
  }

  lemma SumNotShort(w: real, X: real, Y: real, v: real, t: real)
    requires w > 0.0 && v > 0.0 && t > 0.0 && 0.0 <= X && 0.0 <= Y && X * t + Y * t == v
    requires 2.0 * (w * (t - v)) <= v
    ensures Missing(w, X, Y) <= if t == v then 0.0 else 0.5
  {
    assert (X + Y) * t == X * t + Y * t;
    if t == v {
      assert (X + Y - 1.0) * t == 0.0;
      if X + Y > 1.0 { Positive(X + Y - 1.0, t); } else if X + Y < 1.0 { Positive(1.0 - (X + Y), t); }
      assert w * 0.0 == 0.0;
    } else {
      DriftDown(w, 1.0, X + Y, v, t);
    }
  }

  /** The two parts of a loss, each less than fifths/5 of a unit from its exact share by the capitals. */
  predicate BorneBy(first: int, second: int, loss: nat, b: nat, c: nat, fifths: nat) {
    b + c > 0 && IsNear(first, loss * b, b + c, 5, fifths) && IsNear(second, loss * c, b + c, 5, fifths)
  }

  /** A loss of fewer digits than the precision that is shared: each partner bears less than 11/5 of a unit more or
      less than its exact share, by its capital over the sum of both, and less than 6/5 when that sum is not
      rounded. */
  lemma LossShares(input: Input, p: nat)
    requires p > 0 && 0 < -input.result < Pow10(p - 1) && !input.bankLiability && Outcome(input, p).Ok?
    ensures var a, loss, b, c := Outcome(input, p).value, -input.result, input.bankCapital, input.partnerCapital;
            && a.rule == CapitalLossRatio && BorneBy(-a.bank, -a.partner, loss, b, c, 11)
            && (IsUnits(RoundSig(b + c, Pow10(input.capitalDigits), p), b + c, input.capitalDigits) ==>
                BorneBy(-a.bank, -a.partner, loss, b, c, 6))
  {
    hide Outcome, Pow10, RoundSig, BorneBy, SplitUnits, IsUnits, DriftOf, CapitalRatio;
    var loss: nat, b, c, s := -input.result, input.bankCapital, input.partnerCapital, input.capitalDigits;
    LossIsSplit(input, p);
    PowerZero();
    LossConserves(input, p);
    SharedLoss(loss, b, c, s, p);
    var t := RoundSig(b + c, Pow10(s), p);
    if IsUnits(t, b + c, s) { NoDrift(b, c, s, p); }
  }

  lemma LossIsSplit(input: Input, p: nat)
    requires p > 0 && 0 < -input.result && !input.bankLiability && Outcome(input, p).Ok?
    ensures input.bankCapital + input.partnerCapital > 0
    ensures BankCapitalRatio(input, p).Some? && PartnerCapitalRatio(input, p).Some?
    ensures Outcome(input, p).value.rule == CapitalLossRatio
    ensures SplitUnits(-input.result, BankCapitalRatio(input, p).value, PartnerCapitalRatio(input, p).value, p)
            == (-Outcome(input, p).value.bank, -Outcome(input, p).value.partner)
  {
    hide RoundSig, Pow10, SplitUnits, Plus, Greater, EqualsOne, PassiveExceeds, CapitalRatio;
    RatioNeedsCapital(input.bankCapital, input.bankCapital, input.partnerCapital, input.capitalDigits, p);
  }

  lemma NoDrift(b: nat, c: nat, s: nat, p: nat)
    requires p > 0 && IsUnits(RoundSig(b + c, Pow10(s), p), b + c, s)
    ensures DriftOf(b, c, s, p) == 0.0
  {
    hide RoundSig, Pow10;
    var t := RoundSig(b + c, Pow10(s), p);
    SameValue(t.n, t.d, b + c, Pow10(s));
  }

  lemma SameValue(a: nat, b: nat, n: nat, d: nat)
    requires b > 0 && d > 0 && a * d == n * b
    ensures a as real / b as real == n as real / d as real
  {
    var x, B, D := a as real / b as real, b as real, d as real;
    Quotient(a as real, B);
    Quotient(n as real, D);
    assert (a * d) as real == a as real * D && (n * b) as real == n as real * B;
    assert (x * D) * B == n as real * B;
    SameQuotient(x * D, n as real, B);
    SameQuotient(x, n as real / D, D);
  }

  lemma SharedLoss(loss: nat, b: nat, c: nat, s: nat, p: nat)
    requires p > 0 && 0 < loss < Pow10(p - 1) && b + c > 0
    requires CapitalRatio(b, b, c, s, p).Some? && CapitalRatio(c, b, c, s, p).Some?
    requires var (first, second) := SplitUnits(loss, CapitalRatio(b, b, c, s, p).value,
                                               CapitalRatio(c, b, c, s, p).value, p); first + second == loss
    ensures var (first, second) :=
              SplitUnits(loss, CapitalRatio(b, b, c, s, p).value, CapitalRatio(c, b, c, s, p).value, p);
            BorneBy(first, second, loss, b, c, 11)
            && (DriftOf(b, c, s, p) == 0.0 ==> BorneBy(first, second, loss, b, c, 6))
  {
    hide Pow10, RoundSig, IsNear, SplitUnits, DriftOf, CapitalRatio, ShareOf, Within, Val;
    PowerZero();
    var r, q := CapitalRatio(b, b, c, s, p).value, CapitalRatio(c, b, c, s, p).value;
    var (first, second) := SplitUnits(loss, r, q, p);
    var drift := DriftOf(b, c, s, p);
    DriftBounds(b, c, s, p);
    CapitalRatiosNotShort(loss, b, c, s, p);
    OneCapitalRatio(b, b, c, s, p);
    OneCapitalRatio(c, b, c, s, p);
    SplitNear(loss, r, q, p, drift + 0.1);
    OneLossShare(first, loss, r, b, b + c, drift, p);
    OneLossShare(second, loss, q, c, b + c, drift, p);
  }

  lemma OneLossShare(units: int, loss: nat, r: Ratio, x: nat, sum: nat, drift: real, p: nat)
    requires p > 0 && loss < Pow10(p - 1) && Valid(r) && sum > 0 && (drift == 0.0 || 0.0 <= drift <= 0.5)
    requires Within(Pow10(p - 1) as real, Val(r), x as real / sum as real, drift + 0.05)
    requires -1.0 < units as real - ShareOf(loss, r) < 1.0 + (drift + 0.1)
    ensures IsNear(units, loss * x, sum, 5, 11) && (drift == 0.0 ==> IsNear(units, loss * x, sum, 5, 6))
  {
    hide Pow10, IsNear, Val, ShareOf, Within;
    var E, q := x as real / sum as real, (loss * x) as real / sum as real;
    ShareMoved(loss, Pow10(p - 1), Val(r), E, drift + 0.05);
    ShareIsProduct(loss, r);
    ExactShare(loss, x, sum);
    var e := units as real - q;
    assert -1.0 - (drift + 0.05) < e < 1.0 + (drift + 0.1) + (drift + 0.05);
    NearInUnits(units, loss * x, sum, 5, 11, e);
    if drift == 0.0 { NearInUnits(units, loss * x, sum, 5, 6, e); }
  }

  lemma ShareMoved(total: nat, w: nat, x: real, y: real, bound: real)
    requires total < w && bound >= 0.0 && Within(w as real, x, y, bound)
    ensures -bound <= total as real * x - total as real * y <= bound
  {
    SmallerTotal(total, w, x - y, bound);
    assert w as real * (y - x) == -(w as real * (x - y));
    SmallerTotal(total, w, y - x, bound);
    assert total as real * (x - y) == total as real * x - total as real * y;
    assert total as real * (y - x) == total as real * y - total as real * x;
  }

  lemma ExactShare(total: nat, x: nat, sum: nat)
    requires sum > 0
    ensures (total * x) as real / sum as real == total as real * (x as real / sum as real)
  {
    assert (total * x) as real == total as real * x as real;
    Regroup(total as real, x as real, sum as real);
  }

  // ----- What is refused -----

  /** A result of fewer digits than the precision is allocated exactly when no ratio exceeds one, the two total one as
      rounded, the passive side's ratio does not exceed that of its capital, and there is some capital if a loss is to
      be shared. */
  lemma AcceptsExactly(input: Input, p: nat)
    requires p > 0 && -(Pow10(p - 1) as int) < input.result < Pow10(p - 1)
    ensures Outcome(input, p).Ok?
            <==> && input.bankProfitRatio <= Pow10(input.ratioDigits)
                 && input.partnerProfitRatio <= Pow10(input.ratioDigits)
                 && EqualsOne(RoundSig(input.bankProfitRatio + input.partnerProfitRatio, Pow10(input.ratioDigits), p))
                 && !PassiveExceeds(input, p)
                 && (input.result >= 0 || input.bankLiability || input.bankCapital + input.partnerCapital > 0)
  {
    hide RoundSig, Pow10, SplitUnits, Plus, Greater, EqualsOne, PassiveExceeds, CapitalRatio;
    AtMostOne(input.bankProfitRatio, input.ratioDigits);
    AtMostOne(input.partnerProfitRatio, input.ratioDigits);
    RoundedSum(input.bankProfitRatio, input.partnerProfitRatio, Pow10(input.ratioDigits), p);
    SmallResultsConserve(input, p);
    RatioNeedsCapital(input.bankCapital, input.bankCapital, input.partnerCapital, input.capitalDigits, p);
    PowerZero();
    if input.result < 0 && input.bankCapital + input.partnerCapital > 0 {
      OneCapitalRatio(input.bankCapital, input.bankCapital, input.partnerCapital, input.capitalDigits, p);
      OneCapitalRatio(input.partnerCapital, input.bankCapital, input.partnerCapital, input.capitalDigits, p);
    }
  }

  /** A refused result is refused for a reason that holds; a small one never for its conservation. */
  lemma RefusalsHold(input: Input, p: nat)
    requires p > 0 && Outcome(input, p).Err?
    ensures match Outcome(input, p).error
            case RatioAboveOne => input.bankProfitRatio > Pow10(input.ratioDigits)
                                  || input.partnerProfitRatio > Pow10(input.ratioDigits)
            case RatiosNotOne =>
              !EqualsOne(RoundSig(input.bankProfitRatio + input.partnerProfitRatio, Pow10(input.ratioDigits), p))
            case PassiveExceedsCapital => input.passive != Neither && PassiveExceeds(input, p)
            case NotANumber => input.result < 0 && !input.bankLiability && input.bankCapital + input.partnerCapital == 0
            case ConservationViolated => input.result >= Pow10(p - 1) || -input.result >= Pow10(p - 1)
  {
    hide RoundSig, Pow10, SplitUnits, Plus, Greater, EqualsOne, PassiveExceeds, CapitalRatio;
    AtMostOne(input.bankProfitRatio, input.ratioDigits);
    AtMostOne(input.partnerProfitRatio, input.ratioDigits);
    RoundedSum(input.bankProfitRatio, input.partnerProfitRatio, Pow10(input.ratioDigits), p);
    if input.passive == Neither { NobodyExceeds(input, p); }
    if -(Pow10(p - 1) as int) < input.result < Pow10(p - 1) { SmallResultsConserve(input, p); }
    if input.bankCapital + input.partnerCapital > 0 {
      HasRatio(input.bankCapital, input.bankCapital, input.partnerCapital, input.capitalDigits, p);
      HasRatio(input.partnerCapital, input.bankCapital, input.partnerCapital, input.capitalDigits, p);
    }
  }

  lemma HasRatio(x: nat, b: nat, c: nat, s: nat, p: nat)
    requires p > 0 && (x == b || x == c) && b + c > 0
    ensures CapitalRatio(x, b, c, s, p).Some?
  {
    hide RoundSig, Pow10, CapitalRatio;
    var S := Pow10(s);
    var t := RoundSig(b + c, S, p);
    RelativeError(b + c, S, p);
    PositiveTotal(b + c, S, t, Pow10(p - 1));
    CapitalRatioIs(x, b, c, t, s, p);
  }

  lemma NobodyExceeds(input: Input, p: nat)
    requires p > 0 && input.passive == Neither
    ensures !PassiveExceeds(input, p)
  {}

  /** The passive side's profit ratio over S, and its capital over the sum of both. */
  function PassiveRatio(input: Input): real {
    (if input.passive == Bank then input.bankProfitRatio else input.partnerProfitRatio) as real
    / Pow10(input.ratioDigits) as real
  }

  function PassiveCapital(input: Input): real
    requires input.bankCapital + input.partnerCapital > 0
  {
    (if input.passive == Bank then input.bankCapital else input.partnerCapital) as real
    / (input.bankCapital + input.partnerCapital) as real
  }

  /** A passive side is refused for the ratio of its own profit to its own capital alone: with some capital, a profit
      ratio that exceeds the exact capital ratio by more than 55/100 of a unit of the p-th digit is refused, and one
      that is below it by as much is not. */
  lemma PassiveIsLimited(input: Input, p: nat)
    requires p > 1 && input.bankCapital + input.partnerCapital > 0
    ensures input.passive == Neither ==> !PassiveExceeds(input, p)
    ensures input.passive != Neither ==>
              var w := Pow10(p - 1) as real;
              && (w * (PassiveRatio(input) - PassiveCapital(input)) > 0.55 ==> PassiveExceeds(input, p))
              && (w * (PassiveRatio(input) - PassiveCapital(input)) <= -0.55 ==> !PassiveExceeds(input, p))
  {
    hide RoundSig, Pow10, CapitalRatio, Greater;
    var b, c, s := input.bankCapital, input.partnerCapital, input.capitalDigits;
    if input.passive != Neither {
      var bank := input.passive == Bank;
      OwnRatioIsLimited(if bank then b else c, b, c, s,
                        if bank then input.bankProfitRatio else input.partnerProfitRatio, input.ratioDigits, p);
    }
  }

  lemma OwnRatioIsLimited(own: nat, b: nat, c: nat, s: nat, x: nat, k: nat, p: nat)
    requires p > 1 && b + c > 0 && (own == b || own == c)
    ensures CapitalRatio(own, b, c, s, p).Some?
    ensures var w, excess := Pow10(p - 1) as real, x as real / Pow10(k) as real - own as real / (b + c) as real;
            && (w * excess > 0.55 ==> Greater(Q.Decimal(x, k), CapitalRatio(own, b, c, s, p).value))
            && (w * excess <= -0.55 ==> !Greater(Q.Decimal(x, k), CapitalRatio(own, b, c, s, p).value))
  {
    hide RoundSig, Pow10, CapitalRatio, Val, DriftOf, Within, Greater, Divided;
    OneCapitalRatio(own, b, c, s, p);
    DriftBounds(b, c, s, p);
    var r := CapitalRatio(own, b, c, s, p).value;
    GreaterByValue(Q.Decimal(x, k), r);
    DecimalValue(x, k);
    Limited(Pow10(p - 1) as real, x as real / Pow10(k) as real, Val(r), own as real / (b + c) as real,
            DriftOf(b, c, s, p) + 0.05);
  }

  lemma DecimalValue(x: nat, s: nat)
    ensures Val(Q.Decimal(x, s)) == x as real / Pow10(s) as real
  {}

  lemma GreaterByValue(a: Ratio, b: Ratio)
    requires Valid(a) && Valid(b)
    ensures Greater(a, b) <==> Val(a) > Val(b)
  {
    Quotient(a.n as real, a.d as real);
    Quotient(b.n as real, b.d as real);
    CrossMultiplied(Val(b), Val(a), b.n, a.n, b.d, a.d);
  }

  lemma Limited(w: real, x: real, r: real, E: real, bound: real)
    requires w > 0.0 && 0.0 <= bound <= 0.55 && Within(w, r, E, bound)
    ensures w * (x - E) > 0.55 ==> x > r
    ensures w * (x - E) <= -0.55 ==> x <= r
  {
    var excess, over, drift := w * (x - E), w * (x - r), w * (r - E);
    assert excess == over + drift by { Detour(w, x, r, E); }
    SignsOf(w, x - r);
    if x > r { assert over > 0.0; } else { assert over <= 0.0; }
  }

  lemma Detour(w: real, x: real, r: real, E: real)
    ensures w * (x - E) == w * (x - r) + w * (r - E)
  {}

  lemma SignsOf(w: real, x: real)
    requires w > 0.0
    ensures x > 0.0 ==> w * x > 0.0
    ensures x <= 0.0 ==> w * x <= 0.0
  {
    if x > 0.0 { Positive(x, w); }
    if x < 0.0 { Positive(-x, w); assert (-x) * w == -(w * x); }
  }

  /** A profit ratio equal to the capital ratio is not refused, if neither the sum of the capitals nor the ratio is
      rounded. */
  lemma EqualRatiosPass(input: Input, p: nat)
    requires p > 0 && input.passive != Neither && input.bankCapital + input.partnerCapital > 0
    requires var sum, s := input.bankCapital + input.partnerCapital, input.capitalDigits;
             IsUnits(RoundSig(sum, Pow10(s), p), sum, s)
    requires var bank := input.passive == Bank;
             var x, own := if bank then input.bankProfitRatio else input.partnerProfitRatio,
                           if bank then input.bankCapital else input.partnerCapital;
             && x * (input.bankCapital + input.partnerCapital) == own * Pow10(input.ratioDigits) && x <= Pow10(p)
    ensures !PassiveExceeds(input, p)
  {
    hide RoundSig, Pow10, CapitalRatio, Greater, IsUnits;
    var b, c, s := input.bankCapital, input.partnerCapital, input.capitalDigits;
    var bank := input.passive == Bank;
    var own, x := if bank then b else c, if bank then input.bankProfitRatio else input.partnerProfitRatio;
    EqualRatio(own, b, c, s, x, input.ratioDigits, p);
  }

  lemma EqualRatio(own: nat, b: nat, c: nat, s: nat, x: nat, k: nat, p: nat)
    requires p > 0 && b + c > 0 && IsUnits(RoundSig(b + c, Pow10(s), p), b + c, s)
    requires x * (b + c) == own * Pow10(k) && x <= Pow10(p)
    ensures CapitalRatio(own, b, c, s, p).Some? ==>
              !Greater(Q.Decimal(x, k), CapitalRatio(own, b, c, s, p).value)
  {
    hide RoundSig, Pow10, CapitalRatio;
    var t, S := RoundSig(b + c, Pow10(s), p), Pow10(s);
    Steps(b + c, t.d);
    CapitalRatioIs(own, b, c, t, s, p);
    SameRatio(own, t.d, S, t.n, x, Pow10(k), b + c);
    RoundSigEqualRatios(own * t.d, S * t.n, x, Pow10(k), p);
    ExactUnits(x, k, p);
  }

  /** own/(S t) and x/K are equal where t is (b + c)/S and x (b + c) is own K. */
  lemma SameRatio(own: nat, td: nat, S: nat, tn: nat, x: nat, K: nat, sum: nat)
    requires tn * S == sum * td && x * sum == own * K
    ensures (own * td) * K == x * (S * tn)
  {
    assert x * (S * tn) == x * (sum * td) == (x * sum) * td;
    assert (own * K) * td == (own * td) * K;
  }
}

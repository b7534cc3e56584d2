/** The Musharaka allocation: a profit is split by the negotiated ratios, a loss by the capital ratios, on
    decimals rounded to the precision; the two parts must add up to the result to the last unit. */
module Musharaka {
  import opened Wrappers
  import opened DecimalText
  import opened SignificantDigits
  import Q = Moutanaqissa

  datatype Passive = Bank | Partner | Neither

  /** The result in currency units; capitals and ratios in units of their own fraction digits. */
  datatype Input = Input(result: int, capitalDigits: nat, bankCapital: nat, partnerCapital: nat, ratioDigits: nat,
                         bankProfitRatio: nat, partnerProfitRatio: nat, passive: Passive, bankLiability: bool)

  datatype Rule = NegotiatedProfitRatio | CapitalLossRatio | CausalBankLiability | NoRule

  datatype Allocation = Allocation(bank: int, partner: int, rule: Rule)

  datatype Refusal = RatioAboveOne | RatiosNotOne | PassiveExceedsCapital | NotANumber | ConservationViolated

  function Times(total: nat, r: Ratio, p: nat): (t: Ratio)
    requires Valid(r) && p > 0
    ensures Valid(t)
  {
    RoundSig(total * r.n, r.d, p)
  }

  function Floor(r: Ratio): nat
    requires Valid(r)
  {
    r.n / r.d
  }

  /** The part below the point of a is at least that of b. */
  predicate FractionAtLeast(a: Ratio, b: Ratio)
    requires Valid(a) && Valid(b)
  {
    (a.n % a.d) * b.d >= (b.n % b.d) * a.d
  }

  /** Both floors, and what is left over to the larger fraction. */
  function SplitUnits(total: nat, a: Ratio, b: Ratio, p: nat): (int, int)
    requires Valid(a) && Valid(b) && p > 0
  {
    var exactFirst, exactSecond := Times(total, a, p), Times(total, b, p);
    var first, second := Floor(exactFirst), Floor(exactSecond);
    var residual := total - first - second;
    if residual > 0 then
      if FractionAtLeast(exactFirst, exactSecond) then (first + residual, second) else (first, second + residual)
    else (first, second)
  }

  /** The residual is added to one of the two floors in place. */
  method Split(total: nat, a: Ratio, b: Ratio, p: nat) returns (first: int, second: int)
    requires Valid(a) && Valid(b) && p > 0
    ensures (first, second) == SplitUnits(total, a, b, p)
  {
    hide RoundSig;
    var exactFirst, exactSecond := Times(total, a, p), Times(total, b, p);
    first, second := Floor(exactFirst), Floor(exactSecond);
    var residual := total - first - second;
    if residual > 0 {
      if FractionAtLeast(exactFirst, exactSecond) { first := first + residual; } else { second := second + residual; }
    }
  }

  function Conserved(total: int, bank: int, partner: int, rule: Rule): Result<Allocation, Refusal> {
    if total - bank - partner != 0 then Err(ConservationViolated) else Ok(Allocation(bank, partner, rule))
  }

  /** The ratio of a capital to the rounded sum of both. Dividing by a zero sum yields NaN. */
  function CapitalRatio(capital: nat, bankCapital: nat, partnerCapital: nat, s: nat, p: nat): (r: Option<Ratio>)
    requires p > 0
    ensures r.Some? ==> Valid(r.value)
  {
    var total := Plus(Q.Decimal(bankCapital, s), Q.Decimal(partnerCapital, s), p);
    if total.n > 0 then Some(DividedBy(Q.Decimal(capital, s), total, p)) else None
  }

  function BankCapitalRatio(input: Input, p: nat): (r: Option<Ratio>)
    requires p > 0
    ensures r.Some? ==> Valid(r.value)
  {
    CapitalRatio(input.bankCapital, input.bankCapital, input.partnerCapital, input.capitalDigits, p)
  }

  function PartnerCapitalRatio(input: Input, p: nat): (r: Option<Ratio>)
    requires p > 0
    ensures r.Some? ==> Valid(r.value)
  {
    CapitalRatio(input.partnerCapital, input.bankCapital, input.partnerCapital, input.capitalDigits, p)
  }

  function BankRatio(input: Input): (r: Ratio)
    ensures Valid(r)
  {
    Q.Decimal(input.bankProfitRatio, input.ratioDigits)
  }

  function PartnerRatio(input: Input): (r: Ratio)
    ensures Valid(r)
  {
    Q.Decimal(input.partnerProfitRatio, input.ratioDigits)
  }

  predicate RatiosAccepted(input: Input, p: nat)
    requires p > 0
  {
    && !Greater(BankRatio(input), Ratio(1, 1)) && !Greater(PartnerRatio(input), Ratio(1, 1))
    && EqualsOne(Plus(BankRatio(input), PartnerRatio(input), p))
  }

  /** The ratio of the passive side exceeds that of its capital; nothing exceeds NaN. */
  predicate PassiveExceeds(input: Input, p: nat)
    requires p > 0
  {
    match input.passive
    case Bank => BankCapitalRatio(input, p).Some? && Greater(BankRatio(input), BankCapitalRatio(input, p).value)
    case Partner =>
      PartnerCapitalRatio(input, p).Some? && Greater(PartnerRatio(input), PartnerCapitalRatio(input, p).value)
    case Neither => false
  }

  function Outcome(input: Input, p: nat): Result<Allocation, Refusal>
    requires p > 0
  {
    if Greater(BankRatio(input), Ratio(1, 1)) || Greater(PartnerRatio(input), Ratio(1, 1)) then Err(RatioAboveOne)
    else if !EqualsOne(Plus(BankRatio(input), PartnerRatio(input), p)) then Err(RatiosNotOne)
    else if PassiveExceeds(input, p) then Err(PassiveExceedsCapital)
    else if input.result == 0 then Conserved(0, 0, 0, NoRule)
    else if input.result > 0 then
      var (bank, partner) := SplitUnits(input.result, BankRatio(input), PartnerRatio(input), p);
      Conserved(input.result, bank, partner, NegotiatedProfitRatio)
    else if input.bankLiability then Conserved(input.result, input.result, 0, CausalBankLiability)
    else
      match (BankCapitalRatio(input, p), PartnerCapitalRatio(input, p))
      case (Some(bankShare), Some(partnerShare)) =>
        var (bank, partner) := SplitUnits(0 - input.result, bankShare, partnerShare, p);
        Conserved(input.result, 0 - bank, 0 - partner, CapitalLossRatio)
      case _ => Err(NotANumber)
  }

  // ----- How far rounding goes -----

  /** Below 10^(p-1) rounding moves a number by at most one twentieth. */
  lemma RoundingError(n: nat, d: nat, p: nat)
    requires d > 0 && p > 0 && n < d * Pow10(p - 1)
    ensures var r := RoundSig(n, d, p);
            0 - r.d * d <= 20 * (r.n * d - n * r.d) <= r.d * d
  {
    hide RoundSig, HalfEven, Pow10;
    if n == 0 {
      RoundSigZero(d, p);
      ZeroError(d);
    } else {
      PowerSteps(p);
      BelowTen(n, d, Pow10(p - 1));
      PowerZero();
      var j := PlacesOf(n, d, p, 0);
      assert j > 0;
      PowerSteps(j);
      RoundSigPlaces(n, d, p, j);
      HalfEvenNearest(n * Pow10(j), d);
      PlaceError(n, d, HalfEven(n * Pow10(j), d), Pow10(j - 1));
    }
  }

  lemma ZeroError(d: nat)
    ensures 0 * d - 0 * 1 == 0 && 1 * d == d
  {}

  lemma BelowTen(n: nat, d: nat, w: nat)
    requires n < d * w && d > 0 && w > 0
    ensures n * 1 < d * (10 * w) && n * 1 == n
  {
    assert d * (10 * w) == 10 * (d * w);
  }

  lemma PlaceError(n: nat, d: nat, h: nat, a: nat)
    requires d > 0 && a > 0
    requires 0 - d <= 2 * (n * (10 * a) - h * d) <= d
    ensures 0 - (10 * a) * d <= 20 * (h * d - n * (10 * a)) <= (10 * a) * d
  {
    Steps(a, d);
    assert (10 * a) * d == 10 * (a * d);
  }

  /** A number exceeds its rounded value r by at most half a unit of the p-th digit of r. */
  lemma {:induction false} RelativeError(n: nat, d: nat, p: nat)
    requires d > 0 && p > 0
    ensures var r := RoundSig(n, d, p);
            2 * (Pow10(p - 1) * (n * r.d - r.n * d)) <= r.n * d
    decreases Over(n, d, p), Under(n, d, p)
  {
    hide RoundSig, HalfEven, Pow10, Over, Under;
    var w := Pow10(p - 1);
    if n == 0 {
      RoundSigZero(d, p);
      assert n * 1 - 0 * d == 0;
    } else if n >= d * Pow10(p) {
      OverShrinks(n, d, p);
      RelativeError(n, 10 * d, p);
      RoundSigAbove(n, d, p);
      var r := RoundSig(n, 10 * d, p);
      Q.Rearrange(r.n, 10, d);
    } else if n < d * w {
      UnderShrinks(n, d, p);
      RelativeError(10 * n, d, p);
      RoundSigBelow(n, d, p);
      var r := RoundSig(10 * n, d, p);
      Q.Rearrange(n, 10, r.d);
    } else {
      RoundSigInside(n, d, p);
      HalfEvenNearest(n, d);
      UnitError(n, d, HalfEven(n, d), w);
    }
  }

  lemma UnitError(n: int, d: nat, h: int, w: nat)
    requires d > 0 && w > 0 && d * w <= n && -(d as int) <= 2 * (n - h * d) <= d
    ensures 2 * (w * (n * 1 - h * d)) <= h * d
  {
    var e := 2 * (n - h * d);
    ScaleInterval(w, e, d);
    assert w * e == 2 * (w * (n - h * d));
    assert (h - w) * d == h * d - w * d && w * d == d * w;
    Steps(h - w, d);
  }

  /** A number below one is rounded to at most one, and up by at most half a unit of the p-th place. */
  lemma PlacesError(n: nat, d: nat, p: nat)
    requires p > 0 && n < d
    ensures var r := RoundSig(n, d, p);
            r.n <= r.d && 2 * (Pow10(p) * (r.n * d - n * r.d)) <= r.d * d
  {
    hide RoundSig, HalfEven, Pow10;
    if n == 0 {
      RoundSigZero(d, p);
      assert 0 * d - 0 * 1 == 0;
    } else {
      PartBelow(n, d, Pow10(p));
      var j := PlacesOf(n, d, p, p);
      RoundSigPlaces(n, d, p, j);
      HalfEvenNearest(n * Pow10(j), d);
      PartBelow(n, d, Pow10(j));
      HalfBelow(n * Pow10(j), d, HalfEven(n * Pow10(j), d), Pow10(j));
      Pow10Monotone(p, j);
      CoarserError(n * Pow10(j), d, HalfEven(n * Pow10(j), d), Pow10(p), Pow10(j));
    }
  }

  lemma PartBelow(c: nat, C: nat, q: nat)
    requires 0 < c < C && q > 0
    ensures c * q < C * q
  {
    Steps(C - c, q);
    assert (C - c) * q == C * q - c * q;
  }

  lemma HalfBelow(y: nat, C: nat, h: nat, q: nat)
    requires C > 0 && y < C * q && 2 * (y - h * C) >= 0 - C
    ensures h <= q
  {
    Steps(h - q, C);
    assert (h - q) * C == h * C - q * C && q * C == C * q;
  }

  lemma CoarserError(y: nat, d: nat, h: nat, u: nat, v: nat)
    requires d > 0 && 0 < u <= v && 2 * (y - h * d) >= 0 - d
    ensures 2 * (u * (h * d - y)) <= v * d
  {
    var e := 2 * (h * d - y);
    assert u * (d - e) == u * d - u * e && u * e == 2 * (u * (h * d - y));
    NonNegative(u, d - e);
    assert (v - u) * d == v * d - u * d;
    NonNegative(v - u, d);
  }

  lemma NonNegative(x: nat, y: nat)
    ensures x * y >= 0
  {}

  // ----- On real values -----

  function Val(r: Ratio): real
    requires Valid(r)
  {
    r.n as real / r.d as real
  }

  lemma Quotient(x: real, d: real)
    requires d > 0.0
    ensures (x / d) * d == x
  {}

  lemma Positive(x: real, d: real)
    requires x > 0.0 && d > 0.0
    ensures x * d > 0.0
  {}

  lemma Difference(x: real, y: real, q: real)
    ensures (x - y) * q == x * q - y * q
  {}

  lemma Regrouped(x: real, a: real, b: real)
    ensures (x * a) * b == x * (a * b) == (x * b) * a
  {}

  /** From k (a/b - n/d) <= 1/2, multiplied out. */
  lemma GapOfQuotients(k: int, a: int, b: int, n: int, d: int)
    requires b > 0 && d > 0 && 2 * (k * (a * d - n * b)) <= b * d
    ensures k as real * (a as real / b as real - n as real / d as real) <= 0.5
  {
    var K, A, B, N, D := k as real, a as real, b as real, n as real, d as real;
    assert (a * d) as real == A * D && (n * b) as real == N * B && (b * d) as real == B * D;
    assert (k * (a * d - n * b)) as real == K * (A * D - N * B);
    Quotient(A, B);
    Quotient(N, D);
    Positive(B, D);
    GapUnscaled(K, A / B, N / D, A, B, N, D);
  }

  lemma GapUnscaled(K: real, x: real, y: real, A: real, B: real, N: real, D: real)
    requires B > 0.0 && D > 0.0 && x * B == A && y * D == N && B * D > 0.0
    requires 2.0 * (K * (A * D - N * B)) <= B * D
    ensures K * (x - y) <= 0.5
  {
    Regrouped(x, B, D);
    Regrouped(y, D, B);
    assert B * D == D * B;
    Difference(x, y, B * D);
    Regrouped(K, x - y, B * D);
    HalfFactor(K * (x - y), B * D, K * (A * D - N * B));
  }

  lemma HalfFactor(e: real, v: real, ev: real)
    requires v > 0.0 && ev == e * v && 2.0 * ev <= v
    ensures e <= 0.5
  {
    assert (e - 0.5) * v == ev - 0.5 * v;
    if e > 0.5 { Positive(e - 0.5, v); }
  }

  /** Rounding up a product, seen on values. */
  lemma RoundedValue(n: nat, d: nat, p: nat)
    requires d > 0 && p > 0 && n < d * Pow10(p - 1)
    ensures Val(RoundSig(n, d, p)) <= n as real / d as real + 0.05
  {
    hide RoundSig, Pow10;
    var r := RoundSig(n, d, p);
    RoundingError(n, d, p);
    GapOfQuotients(10, r.n, r.d, n, d);
  }

  lemma FloorBelow(r: Ratio)
    requires Valid(r)
    ensures Floor(r) as real <= Val(r)
  {
    Euclid(r.n, r.d);
    UnderQuotient(r.n / r.d, r.n, r.d);
  }

  lemma UnderQuotient(f: nat, n: nat, d: nat)
    requires d > 0 && f * d <= n
    ensures f as real <= n as real / d as real
  {
    Quotient(n as real, d as real);
    var x := n as real / d as real;
    assert (f * d) as real == f as real * d as real;
    assert (f as real - x) * d as real <= 0.0;
    if f as real > x { Positive(f as real - x, d as real); }
  }

  lemma Sum(t: real, x: real, y: real)
    ensures t * (x + y) == t * x + t * y
  {}

  lemma ProductValue(total: nat, a: Ratio)
    requires Valid(a)
    ensures (total * a.n) as real / a.d as real == total as real * Val(a)
  {
    assert (total * a.n) as real == total as real * a.n as real;
    Regroup(total as real, a.n as real, a.d as real);
  }

  lemma Regroup(t: real, n: real, d: real)
    requires d > 0.0
    ensures (t * n) / d == t * (n / d)
  {
    Quotient(n, d);
    Quotient(t * n, d);
    var x := n / d;
    assert t * n == (t * x) * d;
    SameQuotient((t * n) / d, t * x, d);
  }

  lemma SameQuotient(x: real, y: real, d: real)
    requires d > 0.0 && x * d == y * d
    ensures x == y
  {
    Difference(x, y, d);
    if x > y { Positive(x - y, d); } else if y > x { Positive(y - x, d); }
  }

  // ----- Results of fewer digits than the precision -----

  /** Two ratios, neither above one, that exceed one together so little that the result gains at most
      six tenths. */
  ghost predicate NearlyOne(total: nat, a: Ratio, b: Ratio) {
    && Valid(a) && Valid(b) && a.n <= a.d && b.n <= b.d
    && total as real * (Val(a) + Val(b)) <= total as real + 0.6
  }

  lemma FloorsFit(total: nat, a: Ratio, b: Ratio, p: nat)
    requires p > 0 && NearlyOne(total, a, b) && total < Pow10(p - 1)
    ensures Floor(Times(total, a, p)) + Floor(Times(total, b, p)) <= total
  {
    hide RoundSig, Pow10, Floor, Val, Times;
    FloorOfPart(total, a, p);
    FloorOfPart(total, b, p);
    Sum(total as real, Val(a), Val(b));
    var f := Floor(Times(total, a, p)) + Floor(Times(total, b, p));
    assert f as real <= total as real + 0.7;
  }

  lemma FloorOfPart(total: nat, r: Ratio, p: nat)
    requires p > 0 && Valid(r) && r.n <= r.d && total < Pow10(p - 1)
    ensures Floor(Times(total, r, p)) as real <= total as real * Val(r) + 0.05
  {
    hide RoundSig, Pow10, Floor;
    PartOfTotal(total, r, Pow10(p - 1));
    RoundedValue(total * r.n, r.d, p);
    ProductValue(total, r);
    FloorBelow(Times(total, r, p));
  }

  lemma PartOfTotal(total: nat, r: Ratio, w: nat)
    requires Valid(r) && r.n <= r.d && total < w
    ensures total * r.n < r.d * w
  {
    assert total * (r.d - r.n) == total * r.d - total * r.n;
    NonNegative(total, r.d - r.n);
    Steps(w - total, r.d);
    assert (w - total) * r.d == w * r.d - total * r.d && w * r.d == r.d * w;
  }

  /** Floors that fit are completed to exactly the total, and no part is negative. */
  lemma SplitConserves(total: nat, a: Ratio, b: Ratio, p: nat)
    requires p > 0 && NearlyOne(total, a, b) && total < Pow10(p - 1)
    ensures var (first, second) := SplitUnits(total, a, b, p);
            first + second == total && first >= 0 && second >= 0
  {
    hide RoundSig, Pow10;
    FloorsFit(total, a, b, p);
  }

  /** A sum x of two ratios that lies at most 6/10 of a unit of the p-th digit above one. */
  lemma GainBounded(total: nat, w: nat, x: real)
    requires total < w && w as real * (x - 1.0) <= 0.6
    ensures total as real * x <= total as real + 0.6
  {
    var T, W := total as real, w as real;
    assert T * x == T + T * (x - 1.0);
    assert W * (x - 1.0) - T * (x - 1.0) == (W - T) * (x - 1.0);
    if x > 1.0 { Positive(x - 1.0, W - T); }
    else if T > 0.0 && x < 1.0 { Positive(1.0 - x, T); }
  }

  /** Negotiated ratios that pass the check of their sum: it may exceed one by half a unit of the p-th digit. */
  lemma ProfitRatiosNearlyOne(total: nat, s: nat, x: nat, y: nat, p: nat)
    requires p > 0 && total < Pow10(p - 1) && x <= Pow10(s) && y <= Pow10(s)
    requires EqualsOne(Plus(Q.Decimal(x, s), Q.Decimal(y, s), p))
    ensures NearlyOne(total, Q.Decimal(x, s), Q.Decimal(y, s))
  {
    hide RoundSig, Pow10;
    var S, w := Pow10(s), Pow10(p - 1);
    RoundedSum(x, y, S, p);
    RelativeError(x + y, S, p);
    var one := RoundSig(x + y, S, p);
    RescaledGap(w, x + y, one.d, S);
    GapOfQuotients(w, x + y, S, 1, 1);
    SumOfQuotients(x, y, S);
    GainBounded(total, w, Val(Q.Decimal(x, s)) + Val(Q.Decimal(y, s)));
  }

  lemma RescaledGap(w: int, n: int, r: nat, d: nat)
    requires r > 0 && d > 0 && 2 * (w * (n * r - r * d)) <= r * d
    ensures 2 * (w * (n * 1 - 1 * d)) <= d * 1
  {
    var e := 2 * (w * (n - d));
    assert 2 * (w * (n * r - r * d)) == e * r by {
      assert n * r - r * d == (n - d) * r;
      Q.Rearrange(w, n - d, r);
    }
    assert (e - d) * r == e * r - d * r && d * r == r * d;
    Steps(e - d, r);
  }

  lemma RoundedSum(x: nat, y: nat, S: nat, p: nat)
    requires p > 0 && S > 0
    ensures Plus(Ratio(x, S), Ratio(y, S), p) == RoundSig(x + y, S, p)
  {
    hide RoundSig;
    assert x * S + y * S == (x + y) * S;
    Steps(S, S);
    RoundSigScales(S, x + y, S, p);
    assert S * (x + y) == (x + y) * S;
  }

  lemma SumOfQuotients(x: int, y: int, d: nat)
    requires d > 0
    ensures x as real / d as real + y as real / d as real == (x + y) as real / d as real
  {
    var D := d as real;
    Quotient(x as real, D);
    Quotient(y as real, D);
    Quotient((x + y) as real, D);
    assert (x as real / D + y as real / D) * D == x as real + y as real;
    SameQuotient(x as real / D + y as real / D, (x + y) as real / D, D);
  }

  /** A ratio that exceeds one by at most half a unit of the p-th digit is rounded to one; any other is
      rounded up by at most half a unit of the p-th place. */
  lemma RatioRounded(n: nat, d: nat, p: nat)
    requires p > 1 && d > 0 && 2 * (Pow10(p - 1) * (n - d)) <= d
    ensures var r := RoundSig(n, d, p);
            r.n <= r.d && Pow10(p) as real * (Val(r) - n as real / d as real) <= 0.5
  {
    hide RoundSig, Pow10;
    var r := RoundSig(n, d, p);
    if n < d {
      PlacesError(n, d, p);
    } else {
      RoundsToOne(n, d, p);
      assert r.n == r.d;
      NonNegative(r.d, n - d);
      NonNegative(r.d, d);
      assert r.n * d - n * r.d == -(r.d * (n - d));
      NonNegative(Pow10(p), r.d * (n - d));
      assert Pow10(p) * (r.n * d - n * r.d) == -(Pow10(p) * (r.d * (n - d)));
    }
    GapOfQuotients(Pow10(p), r.n, r.d, n, d);
  }

  lemma RoundsToOne(n: nat, d: nat, p: nat)
    requires p > 1 && 0 < d <= n && 2 * (Pow10(p - 1) * (n - d)) <= d
    ensures RoundSig(n, d, p).n == RoundSig(n, d, p).d
  {
    hide RoundSig, HalfEven, Pow10;
    var w := Pow10(p - 1);
    PowerSteps(p);
    Q.Pow10Even(p - 1);
    OneWindow(n, d, w);
    NearestIsHalfEven(n * w, d, w);
    RoundSigPlaces(n, d, p, p - 1);
  }

  lemma OneWindow(n: nat, d: nat, w: nat)
    requires 0 < d <= n && w > 0 && 2 * (w * (n - d)) <= d
    ensures 0 <= 2 * (n * w - w * d) <= d && d * w <= n * w < d * (10 * w)
  {
    assert w * (n - d) == n * w - w * d && w * d == d * w;
    NonNegative(w, n - d);
    Steps(w, d);
    assert d * (10 * w) == 10 * (d * w);
  }

  /** The two capital ratios: the total is rounded, then each quotient. */
  lemma CapitalRatiosNearlyOne(total: nat, b: nat, c: nat, s: nat, p: nat)
    requires p > 1 && b + c > 0 && total < Pow10(p - 1)
    ensures CapitalRatio(b, b, c, s, p).Some? && CapitalRatio(c, b, c, s, p).Some?
    ensures NearlyOne(total, CapitalRatio(b, b, c, s, p).value, CapitalRatio(c, b, c, s, p).value)
  {
    hide RoundSig, Pow10, Val, CapitalRatio;
    var S, w := Pow10(s), Pow10(p - 1);
    RelativeError(b + c, S, p);
    var t := RoundSig(b + c, S, p);
    PositiveTotal(b + c, S, t, w);
    CapitalRatioIs(b, b, c, t, s, p);
    CapitalRatioIs(c, b, c, t, s, p);
    var d := S * t.n;
    TotalGap(w, b, c, t.d, t.n, S);
    RatioRounded(b * t.d, d, p);
    RatioRounded(c * t.d, d, p);
    GapOfQuotients(w, b * t.d + c * t.d, d, 1, 1);
    SumOfQuotients(b * t.d, c * t.d, d);
    PowerSteps(p);
    TwoRoundings(w, (b * t.d) as real / d as real, (c * t.d) as real / d as real,
                 Val(RoundSig(b * t.d, d, p)), Val(RoundSig(c * t.d, d, p)));
    GainBounded(total, w, Val(RoundSig(b * t.d, d, p)) + Val(RoundSig(c * t.d, d, p)));
  }

  /** Dividing a capital by the rounded total t. */
  lemma CapitalRatioIs(x: nat, b: nat, c: nat, t: Ratio, s: nat, p: nat)
    requires p > 0 && t == RoundSig(b + c, Pow10(s), p) && t.n > 0
    ensures Pow10(s) * t.n > 0
    ensures CapitalRatio(x, b, c, s, p) == Some(RoundSig(x * t.d, Pow10(s) * t.n, p))
  {
    hide RoundSig, Pow10;
    RoundedSum(b, c, Pow10(s), p);
    Steps(Pow10(s), t.n);
  }

  /** No capital, no ratio. */
  lemma RatioNeedsCapital(x: nat, b: nat, c: nat, s: nat, p: nat)
    requires p > 0
    ensures CapitalRatio(x, b, c, s, p).Some? ==> b + c > 0
  {
    hide RoundSig, Pow10;
    RoundedSum(b, c, Pow10(s), p);
    RoundSigZero(Pow10(s), p);
  }

  lemma PositiveTotal(n: nat, S: nat, t: Ratio, w: nat)
    requires n > 0 && S > 0 && Valid(t) && w > 0 && 2 * (w * (n * t.d - t.n * S)) <= t.n * S
    ensures t.n > 0
  {
    Steps(n, t.d);
    if t.n == 0 {
      assert 0 * S == 0;
      Steps(w, n * t.d);
    }
  }

  /** What the rounded total is short of the two capitals, seen on either quotient and on both. */
  lemma TotalGap(w: nat, b: nat, c: nat, td: nat, tn: nat, S: nat)
    requires 2 * (w * ((b + c) * td - tn * S)) <= tn * S && w > 0
    ensures 2 * (w * (b * td - S * tn)) <= S * tn
    ensures 2 * (w * (c * td - S * tn)) <= S * tn
    ensures 2 * (w * ((b * td + c * td) * 1 - 1 * (S * tn))) <= (S * tn) * 1
  {
    assert (b + c) * td == b * td + c * td && tn * S == S * tn;
    NonNegative(b, td);
    NonNegative(c, td);
    NonNegative(w, b * td);
    NonNegative(w, c * td);
    Q.Spread(b * td - S * tn, c * td, w);
    Q.Spread(c * td - S * tn, b * td, w);
  }

  lemma TwoRoundings(w: nat, x: real, y: real, rx: real, ry: real)
    requires w as real * ((x + y) - 1.0) <= 0.5
    requires (10 * w) as real * (rx - x) <= 0.5 && (10 * w) as real * (ry - y) <= 0.5
    ensures w as real * ((rx + ry) - 1.0) <= 0.6
  {
    var W := w as real;
    assert (10 * w) as real == 10.0 * W;
    assert (10.0 * W) * (rx - x) == 10.0 * (W * (rx - x)) && (10.0 * W) * (ry - y) == 10.0 * (W * (ry - y));
    assert W * ((rx + ry) - 1.0) == W * (rx - x) + W * (ry - y) + W * ((x + y) - 1.0);
  }

  /** Results of fewer digits than the precision always conserve, whatever the capitals and the accepted
      ratios: the parts add up to the result, and none has the wrong sign. */
  lemma SmallResultsConserve(input: Input, p: nat)
    requires p > 0 && 0 - Pow10(p - 1) < input.result < Pow10(p - 1)
    ensures Outcome(input, p) != Err(ConservationViolated)
    ensures Outcome(input, p).Ok? ==>
              var a := Outcome(input, p).value;
              && a.bank + a.partner == input.result
              && (input.result >= 0 ==> a.bank >= 0 && a.partner >= 0)
              && (input.result <= 0 ==> a.bank <= 0 && a.partner <= 0)
  {
    hide RoundSig, Pow10, SplitUnits, Plus, NearlyOne, CapitalRatio;
    if Outcome(input, p) == Err(ConservationViolated) || Outcome(input, p).Ok? {
      if input.result > 0 {
        ProfitConserves(input, p);
      } else if input.result < 0 && !input.bankLiability {
        LossConserves(input, p);
      }
    }
  }

  lemma AtMostOne(x: nat, s: nat)
    ensures Greater(Q.Decimal(x, s), Ratio(1, 1)) <==> x > Pow10(s)
  {}

  lemma ProfitConserves(input: Input, p: nat)
    requires p > 0 && 0 < input.result < Pow10(p - 1)
    requires RatiosAccepted(input, p)
    ensures var (bank, partner) := SplitUnits(input.result, BankRatio(input), PartnerRatio(input), p);
            bank + partner == input.result && bank >= 0 && partner >= 0
  {
    hide RoundSig, Pow10, SplitUnits, NearlyOne, Greater, Plus;
    var s := input.ratioDigits;
    AtMostOne(input.bankProfitRatio, s);
    AtMostOne(input.partnerProfitRatio, s);
    ProfitRatiosNearlyOne(input.result, s, input.bankProfitRatio, input.partnerProfitRatio, p);
    SplitConserves(input.result, BankRatio(input), PartnerRatio(input), p);
  }

  lemma LossConserves(input: Input, p: nat)
    requires p > 0 && 0 < 0 - input.result < Pow10(p - 1)
    requires BankCapitalRatio(input, p).Some? && PartnerCapitalRatio(input, p).Some?
    ensures var (bank, partner) :=
              SplitUnits(0 - input.result, BankCapitalRatio(input, p).value, PartnerCapitalRatio(input, p).value, p);
            bank + partner == 0 - input.result && bank >= 0 && partner >= 0
  {
    hide RoundSig, Pow10, SplitUnits, NearlyOne;
    PowerZero();
    var loss, b, c := 0 - input.result, input.bankCapital, input.partnerCapital;
    RatioNeedsCapital(b, b, c, input.capitalDigits, p);
    CapitalRatiosNearlyOne(loss, b, c, input.capitalDigits, p);
    SplitConserves(loss, BankCapitalRatio(input, p).value, PartnerCapitalRatio(input, p).value, p);
  }

  // ----- Results of as many digits as the precision -----

  /** n/d has p digits before the point and is an odd integer plus exactly one half, so that it is
      rounded up by half a unit. */
  predicate RoundedUpByHalf(n: nat, d: nat, p: nat)
    requires d > 0 && p > 0
  {
    n >= d * Pow10(p - 1) && (n / d) % 2 == 1 && 2 * (n % d) == d
  }

  /** The exact share of a total by a ratio of x units of 10^-s is rounded up by half a unit. */
  predicate ShareRoundedUpByHalf(total: nat, x: nat, s: nat, p: nat)
    requires p > 0
  {
    NonNegative(total, x);
    RoundedUpByHalf(total * x, Pow10(s), p)
  }

  /** The floor of the rounded number is above the number by at most one half, and only in that case by it. */
  lemma FloorError(n: nat, d: nat, p: nat)
    requires d > 0 && p > 0 && n < d * Pow10(p)
    ensures var f := Floor(RoundSig(n, d, p));
            && 2 * (f * d - n) <= d
            && (2 * (f * d - n) == d <==> RoundedUpByHalf(n, d, p))
  {
    hide RoundSig, Pow10;
    var r := RoundSig(n, d, p);
    Euclid(r.n, r.d);
    if n < d * Pow10(p - 1) {
      RoundingError(n, d, p);
      FloorScaled(r.n, r.d, n, d);
    } else {
      RoundSigInside(n, d, p);
      Euclid(n, d);
      assert (n / d + 1) * d == (n / d) * d + d;
    }
  }

  lemma FloorScaled(rn: nat, rd: nat, n: nat, d: nat)
    requires rd > 0 && d > 0 && 20 * (rn * d - n * rd) <= rd * d
    ensures 2 * ((rn / rd) * d - n) < d
  {
    var f := rn / rd;
    Euclid(rn, rd);
    assert (rn - f * rd) * d == rn * d - (f * rd) * d;
    NonNegative(rn - f * rd, d);
    Q.Rearrange(f, rd, d);
    assert (f * d - n) * rd == (f * d) * rd - n * rd;
    var e := 20 * (f * d - n);
    assert e * rd == 20 * ((f * d - n) * rd);
    assert (e - d) * rd == e * rd - d * rd && d * rd == rd * d;
    Steps(e - d, rd);
  }

  /** The floor of a rounded share, compared with the exact share. */
  lemma ShareError(total: nat, x: nat, s: nat, p: nat)
    requires p > 0 && total < Pow10(p) && x <= Pow10(s)
    ensures var f, S := Floor(Times(total, Q.Decimal(x, s), p)), Pow10(s);
            && 2 * (f * S - total * x) <= S
            && (2 * (f * S - total * x) == S <==> ShareRoundedUpByHalf(total, x, s, p))
  {
    hide RoundSig, Pow10, RoundedUpByHalf, Floor;
    PartOfTotal(total, Q.Decimal(x, s), Pow10(p));
    NonNegative(total, x);
    FloorError(total * x, Pow10(s), p);
  }

  /** Only floors that exceed the total are not completed to it. */
  lemma SplitByFloors(total: nat, a: Ratio, b: Ratio, p: nat)
    requires Valid(a) && Valid(b) && p > 0
    ensures var (first, second) := SplitUnits(total, a, b, p);
            first + second != total <==> Floor(Times(total, a, p)) + Floor(Times(total, b, p)) > total
  {
    hide RoundSig, Floor;
  }

  /** Two integers, each at most one half above its share, exceed the total by one exactly when both are one
      half above. */
  lemma FloorsDecide(f: int, g: int, N: int, S: nat, a: int, b: int)
    requires S > 0 && a + b == N * S && 2 * (f * S - a) <= S && 2 * (g * S - b) <= S
    ensures f + g <= N + 1
    ensures f + g == N + 1 <==> 2 * (f * S - a) == S && 2 * (g * S - b) == S
  {
    Q.Spread(f, g, S);
    Q.Spread(f + g, N, S);
    Steps(f + g - N, S);
  }

  /** The exact condition: ratios that total one split a profit into parts that do not add up to it if and
      only if both exact shares have as many digits as the precision and end in exactly one half above an
      odd unit. */
  lemma SplitFailsExactly(total: nat, x: nat, y: nat, s: nat, p: nat)
    requires p > 0 && total < Pow10(p) && x + y == Pow10(s)
    ensures var (first, second) := SplitUnits(total, Q.Decimal(x, s), Q.Decimal(y, s), p);
            first + second != total
            <==> ShareRoundedUpByHalf(total, x, s, p) && ShareRoundedUpByHalf(total, y, s, p)
  {
    hide Pow10, ShareRoundedUpByHalf, Floor, Times, SplitUnits;
    var a, b := Q.Decimal(x, s), Q.Decimal(y, s);
    ShareError(total, x, s, p);
    ShareError(total, y, s, p);
    SplitByFloors(total, a, b, p);
    Sides(total, x, y, Pow10(s));
    FloorsDecide(Floor(Times(total, a, p)), Floor(Times(total, b, p)), total, Pow10(s), total * x, total * y);
  }

  lemma Sides(total: int, x: int, y: int, S: int)
    requires x + y == S
    ensures total * x + total * y == total * S
  {}

  /** A profit fails its conservation check exactly there, for every input whose ratios total one. */
  lemma ProfitFailsExactly(input: Input, p: nat)
    requires p > 0 && 0 < input.result < Pow10(p)
    requires input.bankProfitRatio + input.partnerProfitRatio == Pow10(input.ratioDigits)
    ensures Outcome(input, p) == Err(ConservationViolated)
            <==> && !PassiveExceeds(input, p)
                 && ShareRoundedUpByHalf(input.result, input.bankProfitRatio, input.ratioDigits, p)
                 && ShareRoundedUpByHalf(input.result, input.partnerProfitRatio, input.ratioDigits, p)
  {
    hide RoundSig, Pow10, ShareRoundedUpByHalf, SplitUnits, Greater, Plus, PassiveExceeds;
    var s := input.ratioDigits;
    AtMostOne(input.bankProfitRatio, s);
    AtMostOne(input.partnerProfitRatio, s);
    ExactRatiosPass(input.bankProfitRatio, input.partnerProfitRatio, s, p);
    SplitFailsExactly(input.result, input.bankProfitRatio, input.partnerProfitRatio, s, p);
  }

  /** Splitting by ratios of equal value. */
  lemma SplitByValue(total: nat, a: Ratio, b: Ratio, x: nat, y: nat, s: nat, p: nat)
    requires p > 0 && IsUnits(a, x, s) && IsUnits(b, y, s)
    ensures SplitUnits(total, a, b, p) == SplitUnits(total, Q.Decimal(x, s), Q.Decimal(y, s), p)
  {
    hide RoundSig, Pow10;
    TimesByValue(total, a, x, s, p);
    TimesByValue(total, b, y, s, p);
  }

  lemma TimesByValue(total: nat, a: Ratio, x: nat, s: nat, p: nat)
    requires p > 0 && IsUnits(a, x, s)
    ensures Times(total, a, p) == Times(total, Q.Decimal(x, s), p)
  {
    hide RoundSig, Pow10;
    Q.Rearrange(total, a.n, Pow10(s));
    Q.Rearrange(total, x, a.d);
    NonNegative(total, a.n);
    NonNegative(total, x);
    RoundSigEqualRatios(total * a.n, a.d, total * x, Pow10(s), p);
  }

  /** A loss fails its conservation check exactly there too, when the two capital ratios, as rounded, are
      x and y units of 10^-s that total one. */
  lemma LossFailsExactly(input: Input, x: nat, y: nat, s: nat, p: nat)
    requires p > 0 && 0 < -input.result < Pow10(p) && !input.bankLiability && x + y == Pow10(s)
    requires BankCapitalRatio(input, p).Some? && IsUnits(BankCapitalRatio(input, p).value, x, s)
    requires PartnerCapitalRatio(input, p).Some? && IsUnits(PartnerCapitalRatio(input, p).value, y, s)
    ensures Outcome(input, p) == Err(ConservationViolated)
            <==> && RatiosAccepted(input, p) && !PassiveExceeds(input, p)
                 && ShareRoundedUpByHalf(-input.result, x, s, p) && ShareRoundedUpByHalf(-input.result, y, s, p)
  {
    hide RoundSig, Pow10, ShareRoundedUpByHalf, SplitUnits, Greater, Plus, PassiveExceeds, CapitalRatio, IsUnits;
    var loss: nat := -input.result;
    SplitByValue(loss, BankCapitalRatio(input, p).value, PartnerCapitalRatio(input, p).value, x, y, s, p);
    SplitFailsExactly(loss, x, y, s, p);
  }

  /** The two rounded shares, cut to whole units, exceed the total. */
  predicate FloorsExceed(total: nat, a: Ratio, b: Ratio, p: nat)
    requires p > 0 && Valid(a) && Valid(b)
  {
    Floor(Times(total, a, p)) + Floor(Times(total, b, p)) > total
  }

  /** For every input at all: an accepted profit, or loss that is shared, fails exactly when the whole units of
      its two rounded shares exceed it. */
  lemma FailsExactlyByFloors(input: Input, p: nat)
    requires p > 0
    ensures Outcome(input, p) == Err(ConservationViolated)
            <==> && RatiosAccepted(input, p) && !PassiveExceeds(input, p)
                 && (if input.result > 0 then FloorsExceed(input.result, BankRatio(input), PartnerRatio(input), p)
                     else && input.result < 0 && !input.bankLiability
                          && BankCapitalRatio(input, p).Some? && PartnerCapitalRatio(input, p).Some?
                          && FloorsExceed(-input.result, BankCapitalRatio(input, p).value,
                                          PartnerCapitalRatio(input, p).value, p))
  {
    hide RoundSig, Pow10, SplitUnits, Greater, Plus, PassiveExceeds, CapitalRatio, Floor, Times;
    if input.result > 0 {
      SplitByFloors(input.result, BankRatio(input), PartnerRatio(input), p);
    } else if input.result < 0 && BankCapitalRatio(input, p).Some? && PartnerCapitalRatio(input, p).Some? {
      SplitByFloors(-input.result, BankCapitalRatio(input, p).value, PartnerCapitalRatio(input, p).value, p);
    }
  }

  lemma ExactRatiosPass(x: nat, y: nat, s: nat, p: nat)
    requires p > 0 && x + y == Pow10(s)
    ensures EqualsOne(Plus(Q.Decimal(x, s), Q.Decimal(y, s), p))
  {
    hide RoundSig, Pow10;
    RoundedSum(x, y, Pow10(s), p);
    RoundSigOne(Pow10(s), p);
  }

  /** Profits up to 2 * 10^(p-1) + 2 conserve, when the ratios total exactly one. */
  lemma ProfitsUpToTwiceConserve(input: Input, p: nat)
    requires p >= 2 && 0 < input.result <= 2 * Pow10(p - 1) + 2
    requires input.bankProfitRatio + input.partnerProfitRatio == Pow10(input.ratioDigits)
    ensures Outcome(input, p) != Err(ConservationViolated)
  {
    hide RoundSig, Pow10, SplitUnits, Greater, Plus, PassiveExceeds;
    PowerSteps(p);
    PowerSteps(p - 1);
    var N, x, y, S, w := input.result, input.bankProfitRatio, input.partnerProfitRatio, Pow10(input.ratioDigits),
      Pow10(p - 1);
    ProfitFailsExactly(input, p);
    if !PassiveExceeds(input, p) {
      if ShareRoundedUpByHalf(N, x, input.ratioDigits, p) && ShareRoundedUpByHalf(N, y, input.ratioDigits, p) {
        Q.Pow10Even(p - 1);
        AboveEven(N * x, S, w);
        AboveEven(N * y, S, w);
        assert N * x + N * y == N * S;
        TooLarge(N, N * x, N * y, S, w);
      }
    }
  }

  /** An odd integer plus one half, at least the even w, is at least w + 3/2. */
  lemma AboveEven(n: nat, d: nat, w: nat)
    requires d > 0 && w % 2 == 0 && n >= d * w && (n / d) % 2 == 1 && 2 * (n % d) == d
    ensures 2 * n >= (2 * w + 3) * d
  {
    Euclid(n, d);
    OddAboveEven(n, d, w, n / d, n % d);
  }

  lemma OddAboveEven(n: nat, d: nat, w: nat, q: int, r: nat)
    requires 0 < d && r < d && n == q * d + r && 2 * r == d
    requires w % 2 == 0 && n >= d * w && q % 2 == 1
    ensures 2 * n >= (2 * w + 3) * d
  {
    assert (q - w) * d == q * d - w * d && w * d == d * w;
    Steps(q - w, d);
    assert q >= w + 1;
    NonNegative(q - w - 1, d);
    assert (q - w - 1) * d == q * d - w * d - d;
    assert (2 * w + 3) * d == 2 * (w * d) + 3 * d;
  }

  lemma TooLarge(N: nat, a: nat, b: nat, S: nat, w: nat)
    requires S > 0 && a + b == N * S && 2 * a >= (2 * w + 3) * S && 2 * b >= (2 * w + 3) * S
    ensures N >= 2 * w + 3
  {
    assert (N - (2 * w + 3)) * S == N * S - (2 * w + 3) * S;
    Steps(N - (2 * w + 3), S);
  }

  /** The next result, shared half and half, fails, as a profit by its ratios and as a loss by its capitals. */
  lemma LargeResultFails(p: nat, profit: bool)
    requires p >= 2
    ensures var size := 2 * Pow10(p - 1) + 3;
            var input := Input(if profit then size as int else -(size as int), 0, 1, 1, 1, 5, 5, Neither, false);
            size < Pow10(p) && Outcome(input, p) == Err(ConservationViolated)
  {
    hide RoundSig, Pow10, SplitUnits;
    var w := Pow10(p - 1);
    var size := 2 * w + 3;
    var input := Input(if profit then size as int else -(size as int), 0, 1, 1, 1, 5, 5, Neither, false);
    PowerSteps(p);
    PowerSteps(p - 1);
    PowerSteps(1);
    PowerZero();
    ExactRatiosPass(5, 5, 1, p);
    AtMostOne(5, 1);
    if profit {
      HalvesTie(size, 1, p);
      SplitFailsExactly(size, 5, 5, 1, p);
    } else {
      HalvesTie(size, w, p);
      HalfOfCapital(p);
      SplitFailsExactly(size, 5 * w, 5 * w, p, p);
    }
  }

  lemma HalvesTie(size: nat, k: nat, p: nat)
    requires p >= 2 && size == 2 * Pow10(p - 1) + 3 && k > 0
    ensures RoundedUpByHalf(size * (5 * k), 10 * k, p)
  {
    hide Pow10, RoundedUpByHalf;
    var w := Pow10(p - 1);
    Q.Pow10Even(p - 1);
    HalfUnit(size, w, k);
    IsTie(size * (5 * k), 10 * k, w + 1, 5 * k, p);
  }

  lemma IsTie(n: nat, d: nat, q: nat, r: nat, p: nat)
    requires p > 0 && r < d && n == q * d + r && n >= d * Pow10(p - 1) && q % 2 == 1 && 2 * r == d
    ensures RoundedUpByHalf(n, d, p)
  {
    hide Pow10;
    QuotientIs(n, d, q, r);
  }

  lemma HalfUnit(size: nat, w: nat, k: nat)
    requires size == 2 * w + 3
    ensures size * (5 * k) == (w + 1) * (10 * k) + 5 * k
    ensures size * (5 * k) >= (10 * k) * w
  {
    assert size * (5 * k) == 10 * (w * k) + 15 * k;
    assert (w + 1) * (10 * k) == 10 * (w * k) + 10 * k;
    assert (10 * k) * w == 10 * (w * k);
  }

  lemma QuotientIs(n: nat, d: nat, q: nat, r: nat)
    requires r < d && n == q * d + r
    ensures n / d == q && n % d == r
  {
    Euclid(n, d);
    assert (n / d - q) * d == (n / d) * d - q * d;
    Steps(n / d - q, d);
  }

  /** Two capitals of one unit have the ratio one half each, exactly. */
  lemma HalfOfCapital(p: nat)
    requires p >= 2
    ensures CapitalRatio(1, 1, 1, 0, p) == Some(Ratio(5 * Pow10(p - 1), Pow10(p)))
  {
    hide RoundSig, HalfEven, Pow10, CapitalRatio;
    var w, t := Pow10(p - 1), RoundSig(2, 1, p);
    PowerZero();
    PowerSteps(p);
    ExactUnits(2, 0, p);
    CapitalRatioIs(1, 1, 1, t, 0, p);
    RoundSigEqualRatios(1 * t.d, 1 * t.n, 1, 2, p);
    NearestIsHalfEven(1 * Pow10(p), 2, 5 * w);
    RoundSigPlaces(1, 2, p, p);
  }
}

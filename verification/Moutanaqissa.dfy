/** The Moutanaqissa schedule: the partner buys the bank's capital period by period, and at every
    period the two ownership ratios, rounded separately to the precision, must add up to exactly one. */
module Moutanaqissa {
  import opened Wrappers
  import opened DecimalText
  import opened SignificantDigits

  /** The precision of the engine's decimals. Proofs hold at every positive precision. */
  const PRECISION: nat := 60

  // ----- The two ratios of one period -----

  lemma HalfEvenComplement(y: nat, T: nat, u: nat)
    requires T > 0 && u % 2 == 0 && y <= u * T
    ensures HalfEven(y, T) <= u
    ensures HalfEven(u * T - y, T) == u - HalfEven(y, T)
  {
    hide HalfEven;
    var h := HalfEven(y, T);
    HalfEvenNearest(y, T);
    Spread(u, h, T);
    Steps(u - h, T);
    SameParity(u, h);
    NearestIsHalfEven(u * T - y, T, u - h);
  }

  lemma SameParity(u: nat, h: nat)
    requires u % 2 == 0 && h <= u
    ensures (u - h) % 2 == 0 <==> h % 2 == 0
  {}

  /** Rounding y/T to an integer and to m more places gives two values at most half a unit apart. */
  lemma FinerRounding(y: nat, T: nat, v: nat)
    requires T > 0 && v > 0 && (v == 1 || v % 2 == 0)
    ensures 0 - v <= 2 * (HalfEven(y * v, T) - HalfEven(y, T) * v) <= v
  {
    hide HalfEven;
    HalfEvenNearest(y, T);
    HalfEvenNearest(y * v, T);
    if v == 1 {
      assert y * v == y;
    } else {
      FinerGap(y, T, v, v / 2, HalfEven(y, T), HalfEven(y * v, T));
    }
  }

  /** c T lies within T/2 of y v, and y v within w T of h v T, where v is 2 w. */
  lemma FinerGap(y: int, T: nat, v: nat, w: nat, h: int, c: int)
    requires T > 0 && w > 0 && v == 2 * w
    requires -(T as int) <= 2 * (y - h * T) <= T
    requires -(T as int) <= 2 * (y * v - c * T) <= T
    ensures 0 - v <= 2 * (c - h * v) <= v
  {
    var e := y - h * T;
    ScaleInterval(w, 2 * e, T);
    var k := c - h * v;
    GapTimes(y, T, w, h, c);
    Spread(k, w, T);
    Steps(k - w, T);
    Steps(k + w, T);
  }

  lemma GapTimes(y: int, T: int, w: int, h: int, c: int)
    ensures (c - h * (2 * w)) * T == w * (2 * (y - h * T)) - (y * (2 * w) - c * T)
  {
    Spread(c, h * (2 * w), T);
    Rearrange(h, 2 * w, T);
    Spread(y, h * T, 2 * w);
    assert w * (2 * (y - h * T)) == (y - h * T) * (2 * w);
  }

  lemma {:induction false} Pow10Even(k: nat)
    requires k > 0
    ensures Pow10(k) % 2 == 0
  {
    assert Pow10(k) == 2 * (5 * Pow10(k - 1));
  }

  /** A number within half a unit of the p-th place of one rounds to one. */
  lemma NearOneRoundsToOne(delta: int, u: nat, v: nat, p: nat)
    requires p > 0 && v > 0 && u == Pow10(p) && -(v as int) <= 2 * delta <= v
    ensures u * v > 0 && u * v + delta >= 0
    ensures EqualsOne(RoundSig(u * v + delta, u * v, p))
  {
    Steps(u, v);
    Pow10Even(p);
    var d := u * v;
    var n := d + delta;
    assert d >= 2 * v by { Steps(u, v); }
    if delta == 0 {
      RoundSigOne(d, p);
    } else if delta > 0 {
      AboveOne(n, d, delta, u, v, p);
    } else {
      BelowOne(n, d, -delta, u, v, p);
    }
  }

  lemma AboveOne(n: nat, d: nat, delta: nat, u: nat, v: nat, p: nat)
    requires p > 0 && v > 0 && u == Pow10(p) && d == u * v && d >= 2 * v
    requires n == d + delta && 0 < 2 * delta <= v
    ensures EqualsOne(RoundSig(n, d, p))
  {
    hide RoundSig, HalfEven;
    var w := Pow10(p - 1);
    AboveOneWindow(n, d, delta, u, v, w);
    NearestIsHalfEven(n * w, d, w);
    RoundSigPlaces(n, d, p, p - 1);
  }

  lemma AboveOneWindow(n: int, d: int, delta: int, u: nat, v: nat, w: nat)
    requires d == u * v && u == 10 * w && w > 0 && v > 0
    requires n == d + delta && 0 < 2 * delta <= v
    ensures -d < 2 * (n * w - w * d) < d
    ensures d * w <= n * w < d * u
  {
    Steps(u, v);
    Spread(d, delta, w);
    assert w * d == d * w;
    assert d == 10 * (w * v);
    ScaleInterval(w, 2 * delta, v);
    assert w * (2 * delta) == 2 * (delta * w);
    Steps(delta, w);
    assert d * u == 10 * (d * w);
    Steps(w, d);
  }

  lemma BelowOne(n: nat, d: nat, delta: nat, u: nat, v: nat, p: nat)
    requires p > 0 && v > 0 && u == Pow10(p) && d == u * v && d >= 2 * v
    requires n == d - delta && 0 < 2 * delta <= v
    ensures EqualsOne(RoundSig(n, d, p))
  {
    hide RoundSig, HalfEven;
    var w := Pow10(p - 1);
    Pow10Even(p);
    BelowOneWindow(n, d, delta, u, v, w);
    NearestIsHalfEven(n * u, d, u);
    RoundSigPlaces(n, d, p, p);
  }

  lemma BelowOneWindow(n: int, d: int, delta: int, u: nat, v: nat, w: nat)
    requires d == u * v && u == 10 * w && w > 0 && v > 0
    requires n == d - delta && 0 < 2 * delta <= v
    ensures -d <= 2 * (n * u - u * d) < d
    ensures d * w <= n * u < d * u
  {
    Steps(u, v);
    Spread(d, delta, u);
    assert u * d == d * u;
    ScaleInterval(u, 2 * delta, v);
    assert u * (2 * delta) == 2 * (delta * u);
    Steps(delta, u);
    assert d * u == 10 * (d * w);
    Steps(w, d);
  }

  /** The case of the smaller ratio c/T: the larger one keeps p places, the smaller one p + m. */
  lemma SmallerSide(c: nat, T: nat, p: nat) returns (h: nat, f: nat, m: nat)
    requires p > 0 && 0 < c && 2 * c <= T
    ensures h <= Pow10(p) && h == HalfEven(c * Pow10(p), T)
    ensures RoundSig(T - c, T, p) == Ratio(Pow10(p) - h, Pow10(p))
    ensures RoundSig(c, T, p) == Ratio(f, Pow10(p + m))
    ensures 0 - Pow10(m) <= 2 * (f - h * Pow10(m)) <= Pow10(m)
  {
    hide RoundSig, HalfEven, Pow10;
    h := LargerRatio(c, T, p);
    f, m := SmallerRatio(c, T, p);
    if m > 0 { Pow10Even(m); } else { Pow10Zero(); }
    FinerRounding(c * Pow10(p), T, Pow10(m));
  }

  lemma Pow10Zero()
    ensures Pow10(0) == 1
  {}

  lemma LargerRatio(c: nat, T: nat, p: nat) returns (h: nat)
    requires p > 0 && 0 < c && 2 * c <= T
    ensures h <= Pow10(p) && h == HalfEven(c * Pow10(p), T)
    ensures RoundSig(T - c, T, p) == Ratio(Pow10(p) - h, Pow10(p))
  {
    hide RoundSig, HalfEven, Pow10;
    var u := Pow10(p);
    h := HalfEven(c * u, T);
    Pow10Even(p);
    LargerWindow(c, T, p);
    Spread(T, c, u);
    assert T * u == u * T;
    HalfEvenComplement(c * u, T, u);
    RoundSigPlaces(T - c, T, p, p);
  }

  lemma SmallerRatio(c: nat, T: nat, p: nat) returns (f: nat, m: nat)
    requires p > 0 && 0 < c && 2 * c <= T
    ensures f == HalfEven((c * Pow10(p)) * Pow10(m), T)
    ensures RoundSig(c, T, p) == Ratio(f, Pow10(p + m))
  {
    hide RoundSig, HalfEven, Pow10;
    LargerWindow(c, T, p);
    var j := PlacesOf(c, T, p, p);
    m := j - p;
    RoundSigPlaces(c, T, p, j);
    Pow10Add(p, m);
    Rearrange(c, Pow10(p), Pow10(m));
    f := HalfEven(c * Pow10(j), T);
  }

  lemma LargerWindow(c: nat, T: nat, p: nat)
    requires p > 0 && 0 < c && 2 * c <= T
    ensures T * Pow10(p - 1) <= (T - c) * Pow10(p) < T * Pow10(p)
    ensures c * Pow10(p) < T * Pow10(p)
  {
    var w := Pow10(p - 1);
    Window(c, T, w);
  }

  lemma Window(c: int, T: int, w: nat)
    requires w > 0 && 0 < c && 2 * c <= T
    ensures T * w <= (T - c) * (10 * w) < T * (10 * w)
    ensures c * (10 * w) < T * (10 * w)
  {
    assert T * (10 * w) == 10 * (T * w) && c * (10 * w) == 10 * (c * w);
    Spread(T, c, 10 * w);
    assert T * w - 2 * (c * w) == (T - 2 * c) * w;
    Steps(T - 2 * c, w);
    Steps(c, w);
  }

  /** The two ratios of a total, each rounded to p digits, add up and round to exactly one. */
  lemma RatiosTotalOne(b: nat, c: nat, p: nat)
    requires p > 0 && b + c > 0
    ensures EqualsOne(Plus(RoundSig(b, b + c, p), RoundSig(c, b + c, p), p))
  {
    if c == 0 {
      OneAndZero(b, p);
    } else if b == 0 {
      OneAndZero(c, p);
      PlusCommutes(RoundSig(b, b + c, p), RoundSig(c, b + c, p), p);
    } else if c <= b {
      SmallerSideTotal(c, b + c, p);
    } else {
      SmallerSideTotal(b, b + c, p);
      PlusCommutes(RoundSig(b, b + c, p), RoundSig(c, b + c, p), p);
    }
  }

  lemma PlusCommutes(a: Ratio, b: Ratio, p: nat)
    requires Valid(a) && Valid(b) && p > 0
    ensures Plus(a, b, p) == Plus(b, a, p)
  {
    assert a.d * b.d == b.d * a.d;
  }

  lemma OneAndZero(b: nat, p: nat)
    requires p > 0 && b > 0
    ensures EqualsOne(Plus(RoundSig(b, b, p), RoundSig(0, b, p), p))
  {
    RoundSigOne(b, p);
    RoundSigZero(b, p);
    var r := RoundSig(b, b, p);
    assert r.n * 1 + 0 * r.d == r.d;
    RoundSigOne(r.d, p);
  }

  lemma SmallerSideTotal(c: nat, T: nat, p: nat)
    requires p > 0 && 0 < c && 2 * c <= T
    ensures EqualsOne(Plus(RoundSig(T - c, T, p), RoundSig(c, T, p), p))
  {
    hide RoundSig, HalfEven, Pow10;
    var h, f, m := SmallerSide(c, T, p);
    var u, v := Pow10(p), Pow10(m);
    Pow10Add(p, m);
    var delta: int := f - h * v;
    NearOneRoundsToOne(delta, u, v, p);
    CommonBar(u, v, h, f);
    Steps(u, u * v);
    RoundSigScales(u, u * v + delta, u * v, p);
  }

  /** (u - h)/u + f/(u v) is (u v + f - h v)/(u v), both terms multiplied by u. */
  lemma CommonBar(u: int, v: int, h: int, f: int)
    ensures (u - h) * (u * v) + f * u == u * (u * v + (f - h * v))
  {
    Spread(u, h, u * v);
    assert h * (u * v) == u * (h * v);
    assert u * (u * v + (f - h * v)) == u * (u * v) + u * (f - h * v);
    assert u * (f - h * v) == u * f - u * (h * v);
  }

  // ----- The schedule -----

  datatype Purchase = Purchase(period: int, amount: nat)

  /** The decimals of one call, all written with the same number of fraction digits. */
  datatype Input = Input(fractionDigits: nat, bankCapital: nat, partnerCapital: nat,
                         purchases: seq<Purchase>, maturityReached: bool)

  datatype Period = Period(period: int, bank: Ratio, partner: Ratio, bankRatio: Ratio, partnerRatio: Ratio,
                           ratioTotal: Ratio)

  datatype Refusal = PeriodsNotIncreasing | PurchaseExceedsCapital | RatioInvariantViolated | NotFullyAcquired

  datatype Schedule = Schedule(periods: seq<Period>, bank: Ratio, partner: Ratio, fullyAcquired: bool)

  function Decimal(units: nat, fractionDigits: nat): (r: Ratio)
    ensures Valid(r)
  {
    Ratio(units, Pow10(fractionDigits))
  }

  /** The ratios of one period. Dividing by a zero total yields NaN, which is not one. */
  function PeriodOf(period: int, bank: Ratio, partner: Ratio, total: Ratio, p: nat): Option<Period>
    requires Valid(bank) && Valid(partner) && Valid(total) && p > 0
  {
    if total.n == 0 then None else
      var bankRatio, partnerRatio := DividedBy(bank, total, p), DividedBy(partner, total, p);
      var ratioTotal := Plus(bankRatio, partnerRatio, p);
      if EqualsOne(ratioTotal) then Some(Period(period, bank, partner, bankRatio, partnerRatio, ratioTotal)) else None
  }

  /** The capitals after the first purchases, and the periods they produced. */
  datatype Progress = Progress(bank: Ratio, partner: Ratio, lastPeriod: int, periods: seq<Period>)

  function Advance(state: Progress, purchase: Purchase, total: Ratio, s: nat, p: nat): (r: Result<Progress, Refusal>)
    requires Valid(state.bank) && Valid(state.partner) && Valid(total) && p > 0
    ensures r.Ok? ==> Valid(r.value.bank) && Valid(r.value.partner)
  {
    var purchased := Decimal(purchase.amount, s);
    if purchase.period <= state.lastPeriod then Err(PeriodsNotIncreasing)
    else if Greater(purchased, state.bank) then Err(PurchaseExceedsCapital)
    else
      var bank := Minus(state.bank, purchased, p);
      var partner := Plus(state.partner, purchased, p);
      match PeriodOf(purchase.period, bank, partner, total, p)
      case None => Err(RatioInvariantViolated)
      case Some(row) => Ok(Progress(bank, partner, purchase.period, state.periods + [row]))
  }

  function Run(state: Progress, purchases: seq<Purchase>, total: Ratio, s: nat, p: nat): (r: Result<Progress, Refusal>)
    requires Valid(state.bank) && Valid(state.partner) && Valid(total) && p > 0
    ensures r.Ok? ==> Valid(r.value.bank) && Valid(r.value.partner)
    decreases |purchases|
  {
    hide Advance, RoundSig;
    if purchases == [] then Ok(state) else
      var next :- Advance(state, purchases[0], total, s, p);
      Run(next, purchases[1..], total, s, p)
  }

  function Start(input: Input): Progress {
    Progress(Decimal(input.bankCapital, input.fractionDigits), Decimal(input.partnerCapital, input.fractionDigits), 0,
             [])
  }

  function InitialTotal(input: Input, p: nat): (r: Ratio)
    requires p > 0
    ensures Valid(r)
  {
    Plus(Start(input).bank, Start(input).partner, p)
  }

  function Outcome(input: Input, p: nat): Result<Schedule, Refusal>
    requires p > 0
  {
    var last :- Run(Start(input), input.purchases, InitialTotal(input, p), input.fractionDigits, p);
    if input.maturityReached && last.bank.n != 0 then Err(NotFullyAcquired)
    else Ok(Schedule(last.periods, last.bank, last.partner, last.bank.n == 0))
  }

  /** The schedule, computed purchase after purchase on the two running capitals. */
  method BuildMoutanaqissaSchedule(input: Input) returns (result: Result<Schedule, Refusal>)
    ensures result == Outcome(input, 60)
  {
    var s, p := input.fractionDigits, PRECISION;
    var bankCapital := Decimal(input.bankCapital, s);
    var partnerCapital := Decimal(input.partnerCapital, s);
    var initialTotal := Plus(bankCapital, partnerCapital, p);
    var previousPeriod := 0;
    var periods: seq<Period> := [];
    for i := 0 to |input.purchases|
      invariant Valid(bankCapital) && Valid(partnerCapital)
      invariant Run(Start(input), input.purchases, initialTotal, s, p)
             == Run(Progress(bankCapital, partnerCapital, previousPeriod, periods), input.purchases[i..],
                    initialTotal, s, p)
    {
      var purchase := input.purchases[i];
      assert input.purchases[i..][0] == purchase && input.purchases[i..][1..] == input.purchases[i+1..];
      if purchase.period <= previousPeriod { return Err(PeriodsNotIncreasing); }
      var purchased := Decimal(purchase.amount, s);
      if Greater(purchased, bankCapital) { return Err(PurchaseExceedsCapital); }
      bankCapital := Minus(bankCapital, purchased, p);
      partnerCapital := Plus(partnerCapital, purchased, p);
      var row := PeriodOf(purchase.period, bankCapital, partnerCapital, initialTotal, p);
      if row.None? { return Err(RatioInvariantViolated); }
      previousPeriod := purchase.period;
      periods := periods + [row.value];
    }
    if input.maturityReached && bankCapital.n != 0 { return Err(NotFullyAcquired); }
    result := Ok(Schedule(periods, bankCapital, partnerCapital, bankCapital.n == 0));
  }

  // ----- The invariant never fires -----

  /** The two capitals are worth x and total - x units. */
  ghost predicate Holds(state: Progress, x: nat, total: nat, s: nat) {
    x <= total && IsUnits(state.bank, x, s) && IsUnits(state.partner, total - x, s)
  }

  lemma Rearrange(a: int, b: int, c: int)
    ensures (a * b) * c == (a * c) * b == a * (b * c)
  {}

  lemma Spread(x: int, y: int, z: int)
    ensures (x + y) * z == x * z + y * z
    ensures (x - y) * z == x * z - y * z
  {}

  /** The two products of a cross-multiplication, with n q = x d on either side. */
  lemma CrossProducts(an: int, ad: int, bn: int, bd: int, x: int, y: int, q: int)
    requires an * q == x * ad && bn * q == y * bd
    ensures (an * bd) * q == x * (ad * bd)
    ensures (bn * ad) * q == y * (ad * bd)
  {
    Rearrange(an, bd, q);
    Rearrange(x, ad, bd);
    Rearrange(bn, ad, q);
    Rearrange(y, bd, ad);
  }

  lemma CrossTotals(an: int, ad: int, bn: int, bd: int, x: int, y: int, q: int)
    requires an * q == x * ad && bn * q == y * bd
    ensures (an * bd + bn * ad) * q == (x + y) * (ad * bd)
    ensures (an * bd - bn * ad) * q == (x - y) * (ad * bd)
  {
    CrossProducts(an, ad, bn, bd, x, y, q);
    Spread(x, y, ad * bd);
    Spread(an * bd, bn * ad, q);
  }

  /** An amount of u units is not changed by rounding it. */
  ghost predicate Kept(u: nat, s: nat, p: nat)
    requires p > 0
  {
    IsUnits(RoundSig(u, Pow10(s), p), u, s)
  }

  lemma PlusUnits(a: Ratio, b: Ratio, x: nat, y: nat, s: nat, p: nat)
    requires p > 0 && IsUnits(a, x, s) && IsUnits(b, y, s) && Kept(x + y, s, p)
    ensures IsUnits(Plus(a, b, p), x + y, s)
  {
    hide RoundSig, Pow10;
    Steps(a.d, b.d);
    CrossTotals(a.n, a.d, b.n, b.d, x, y, Pow10(s));
    RoundSigEqualRatios(a.n * b.d + b.n * a.d, a.d * b.d, x + y, Pow10(s), p);
  }

  lemma MinusUnits(a: Ratio, b: Ratio, x: nat, y: nat, s: nat, p: nat)
    requires p > 0 && IsUnits(a, x, s) && IsUnits(b, y, s) && y <= x && Kept(x - y, s, p) && !Greater(b, a)
    ensures IsUnits(Minus(a, b, p), x - y, s)
  {
    hide RoundSig, Pow10;
    Steps(a.d, b.d);
    CrossTotals(a.n, a.d, b.n, b.d, x, y, Pow10(s));
    RoundSigEqualRatios(a.n * b.d - b.n * a.d, a.d * b.d, x - y, Pow10(s), p);
  }

  lemma GreaterUnits(a: Ratio, b: Ratio, x: nat, y: nat, s: nat)
    requires IsUnits(a, x, s) && IsUnits(b, y, s)
    ensures Greater(a, b) <==> x > y
  {
    hide Pow10;
    Steps(a.d, b.d);
    CrossTotals(a.n, a.d, b.n, b.d, x, y, Pow10(s));
    SameSign(a.n * b.d - b.n * a.d, Pow10(s), x - y, a.d * b.d);
  }

  lemma SameSign(a: int, q: nat, b: int, d: nat)
    requires q > 0 && d > 0 && a * q == b * d
    ensures a > 0 <==> b > 0
  {
    Steps(a, q);
    Steps(b, d);
  }

  lemma DividedUnits(a: Ratio, t: Ratio, x: nat, total: nat, s: nat, p: nat)
    requires p > 0 && total > 0 && IsUnits(a, x, s) && IsUnits(t, total, s)
    ensures t.n > 0 && DividedBy(a, t, p) == RoundSig(x, total, p)
  {
    hide RoundSig, Pow10;
    SameSign(t.n, Pow10(s), total, t.d);
    Steps(a.d, t.n);
    CrossProducts(a.n, a.d, t.n, t.d, x, total, Pow10(s));
    CrossRatio(a.n * t.d, t.n * a.d, x, total, a.d * t.d, Pow10(s));
    Steps(a.d, t.d);
    RoundSigEqualRatios(a.n * t.d, a.d * t.n, x, total, p);
  }

  /** Numerators in proportion to x and total. */
  lemma CrossRatio(l: int, r: int, x: int, total: int, d: int, q: int)
    requires l * q == x * d && r * q == total * d
    requires q > 0
    ensures l * total == x * r
  {
    Rearrange(l, total, q);
    Rearrange(x, d, total);
    Rearrange(x, r, q);
    assert (l * total) * q == (l * q) * total == (x * d) * total;
    assert (x * r) * q == x * (r * q) == x * (total * d);
    assert (x * d) * total == x * (d * total) == x * (total * d);
    Cancel(l * total, x * r, q);
  }

  lemma Cancel(a: int, b: int, q: nat)
    requires q > 0 && a * q == b * q
    ensures a == b
  {
    Spread(a, b, q);
    Steps(a - b, q);
  }

  /** What a purchase may be refused for, with exact sums: its period or its amount, nothing else. */
  lemma AdvanceIsExact(state: Progress, purchase: Purchase, total: Ratio, x: nat, t: nat, s: nat, p: nat)
    requires p > 0 && 0 < t && IsUnits(total, t, s) && Holds(state, x, t, s)
    requires purchase.amount <= x ==> Kept(x - purchase.amount, s, p) && Kept(t - x + purchase.amount, s, p)
    ensures var r := Advance(state, purchase, total, s, p);
            if purchase.period <= state.lastPeriod then r == Err(PeriodsNotIncreasing)
            else if purchase.amount > x then r == Err(PurchaseExceedsCapital)
            else r.Ok? && r.value.lastPeriod == purchase.period && Holds(r.value, x - purchase.amount, t, s)
                 && r.value.periods == state.periods + [r.value.periods[|state.periods|]]
                 && Rebuilds(r.value.periods[|state.periods|], purchase.period, x - purchase.amount, t, s, p)
  {
    hide RoundSig, Pow10;
    var purchased := Decimal(purchase.amount, s);
    GreaterUnits(purchased, state.bank, purchase.amount, x, s);
    if purchase.period > state.lastPeriod && purchase.amount <= x {
      MinusUnits(state.bank, purchased, x, purchase.amount, s, p);
      PlusUnits(state.partner, purchased, t - x, purchase.amount, s, p);
      var bank, partner := Minus(state.bank, purchased, p), Plus(state.partner, purchased, p);
      var y := x - purchase.amount;
      DividedUnits(bank, total, y, t, s, p);
      DividedUnits(partner, total, t - y, t, s, p);
      RatiosTotalOne(y, t - y, p);
    }
  }

  /** A printed period: capitals of y and t - y units, and their ratios to the total adding up to one. */
  ghost predicate Rebuilds(row: Period, period: int, y: nat, t: nat, s: nat, p: nat)
    requires t > 0 && p > 0
  {
    y <= t && row.period == period
    && IsUnits(row.bank, y, s) && IsUnits(row.partner, t - y, s)
    && row.bankRatio == RoundSig(y, t, p) && row.partnerRatio == RoundSig(t - y, t, p)
    && EqualsOne(row.ratioTotal)
  }

  function Bought(purchases: seq<Purchase>): nat {
    if purchases == [] then 0 else purchases[0].amount + Bought(purchases[1..])
  }

  predicate Increasing(purchases: seq<Purchase>, previous: int) {
    purchases == [] || (previous < purchases[0].period && Increasing(purchases[1..], purchases[0].period))
  }

  /** Every capital of the schedule is kept by rounding, as long as the purchases can be made. */
  ghost predicate CapitalsKept(bank: nat, partner: nat, purchases: seq<Purchase>, s: nat, p: nat)
    requires p > 0
    decreases |purchases|
  {
    purchases == [] || purchases[0].amount > bank ||
    (var x, y := bank - purchases[0].amount, partner + purchases[0].amount;
     Kept(x, s, p) && Kept(y, s, p) && CapitalsKept(x, y, purchases[1..], s, p))
  }

  lemma {:induction false} RunIsExact(state: Progress, purchases: seq<Purchase>, total: Ratio,
                                      x: nat, t: nat, s: nat, p: nat)
    requires p > 0 && 0 < t && IsUnits(total, t, s) && Holds(state, x, t, s)
    requires CapitalsKept(x, t - x, purchases, s, p)
    ensures Run(state, purchases, total, s, p) != Err(RatioInvariantViolated)
    ensures Run(state, purchases, total, s, p) != Err(NotFullyAcquired)
    ensures Run(state, purchases, total, s, p).Ok? <==>
            Increasing(purchases, state.lastPeriod) && Bought(purchases) <= x
    ensures Run(state, purchases, total, s, p).Ok? ==>
              Holds(Run(state, purchases, total, s, p).value, x - Bought(purchases), t, s)
    decreases |purchases|
  {
    hide Advance, RoundSig, Pow10, Kept;
    if purchases != [] {
      AdvanceIsExact(state, purchases[0], total, x, t, s, p);
      var r := Advance(state, purchases[0], total, s, p);
      if r.Ok? { RunIsExact(r.value, purchases[1..], total, x - purchases[0].amount, t, s, p); }
    }
  }

  /** The sums of a call are exact: the total, and every capital the purchases lead to, has no more
      significant digits than the precision. */
  ghost predicate ExactSums(input: Input, p: nat)
    requires p > 0
  {
    && Kept(input.bankCapital + input.partnerCapital, input.fractionDigits, p)
    && CapitalsKept(input.bankCapital, input.partnerCapital, input.purchases, input.fractionDigits, p)
  }

  /** Sums are exact in particular when both capitals together have at most 10^p units. */
  lemma {:induction false} ShortCapitalsKept(b: nat, c: nat, purchases: seq<Purchase>, s: nat, p: nat)
    requires p > 0 && b + c <= Pow10(p)
    ensures Kept(b + c, s, p) && CapitalsKept(b, c, purchases, s, p)
    decreases |purchases|
  {
    hide RoundSig, Pow10, IsUnits;
    ExactUnits(b + c, s, p);
    if purchases != [] && purchases[0].amount <= b {
      var x, y := b - purchases[0].amount, c + purchases[0].amount;
      ExactUnits(x, s, p);
      ExactUnits(y, s, p);
      ShortCapitalsKept(x, y, purchases[1..], s, p);
    }
  }

  /** With exact sums and some capital the ratio invariant never fires: a schedule is refused exactly for
      periods out of order, for buying more than the bank's capital, or for capital left at maturity, and
      the two capitals always add up to the total. */
  lemma RatioInvariantNeverFires(input: Input, p: nat)
    requires p > 0 && 0 < input.bankCapital + input.partnerCapital && ExactSums(input, p)
    ensures Outcome(input, p) != Err(RatioInvariantViolated)
    ensures Outcome(input, p).Ok? <==>
              Increasing(input.purchases, 0) && Bought(input.purchases) <= input.bankCapital
              && (input.maturityReached ==> Bought(input.purchases) == input.bankCapital)
    ensures Outcome(input, p).Ok? ==>
              IsUnits(Outcome(input, p).value.bank, input.bankCapital - Bought(input.purchases), input.fractionDigits)
              && IsUnits(Outcome(input, p).value.partner, input.partnerCapital + Bought(input.purchases),
                         input.fractionDigits)
              && (Outcome(input, p).value.fullyAcquired <==> Bought(input.purchases) == input.bankCapital)
  {
    hide RoundSig, Run, Kept;
    var b, c, s := input.bankCapital, input.partnerCapital, input.fractionDigits;
    var start, total := Start(input), InitialTotal(input, p);
    PlusUnits(start.bank, start.partner, b, c, s, p);
    RunIsExact(start, input.purchases, total, b, b + c, s, p);
    var r := Run(start, input.purchases, total, s, p);
    if r.Ok? { ZeroUnits(r.value.bank, b - Bought(input.purchases), s); }
  }

  lemma ZeroUnits(r: Ratio, u: nat, s: nat)
    requires IsUnits(r, u, s)
    ensures r.n == 0 <==> u == 0
  {
    Steps(r.n, Pow10(s));
    Steps(u, r.d);
  }

  /** The period of the i-th purchase: what the first i + 1 purchases leave the bank, of x units of a total of t. */
  ghost predicate IsPeriodOf(after: seq<Period>, n: nat, purchases: seq<Purchase>, i: nat, x: nat, t: nat, s: nat,
                             p: nat)
    requires t > 0 && p > 0 && i < |purchases| && n + i < |after|
  {
    Bought(purchases[..i+1]) <= x
    && Rebuilds(after[n + i], purchases[i].period, x - Bought(purchases[..i+1]), t, s, p)
  }

  /** The periods that a run appends to the first n. */
  ghost predicate AppendsPeriods(after: seq<Period>, n: nat, purchases: seq<Purchase>, x: nat, t: nat, s: nat, p: nat)
    requires t > 0 && p > 0
  {
    && |after| == n + |purchases|
    && forall i: nat :: i < |purchases| ==> IsPeriodOf(after, n, purchases, i, x, t, s, p)
  }

  lemma {:induction false} RunAppends(state: Progress, purchases: seq<Purchase>, total: Ratio, x: nat, t: nat, s: nat,
                                      p: nat)
    requires p > 0 && 0 < t && IsUnits(total, t, s) && Holds(state, x, t, s)
    requires CapitalsKept(x, t - x, purchases, s, p) && Run(state, purchases, total, s, p).Ok?
    ensures state.periods <= Run(state, purchases, total, s, p).value.periods
    ensures AppendsPeriods(Run(state, purchases, total, s, p).value.periods, |state.periods|, purchases, x, t, s, p)
    decreases |purchases|
  {
    hide Advance, RoundSig, Pow10, Kept, Rebuilds, AppendsPeriods;
    if purchases != [] {
      AdvanceIsExact(state, purchases[0], total, x, t, s, p);
      var next := Advance(state, purchases[0], total, s, p).value;
      RunAppends(next, purchases[1..], total, x - purchases[0].amount, t, s, p);
      var after := Run(state, purchases, total, s, p).value.periods;
      FirstAppended(after, |state.periods|, purchases, x, t, s, p);
    } else {
      NothingAppended(state.periods, x, t, s, p);
    }
  }

  lemma NothingAppended(before: seq<Period>, x: nat, t: nat, s: nat, p: nat)
    requires t > 0 && p > 0
    ensures AppendsPeriods(before, |before|, [], x, t, s, p)
  {}

  lemma FirstAppended(after: seq<Period>, n: nat, purchases: seq<Purchase>, x: nat, t: nat, s: nat, p: nat)
    requires purchases != [] && purchases[0].amount <= x && t > 0 && p > 0 && n < |after|
    requires Rebuilds(after[n], purchases[0].period, x - purchases[0].amount, t, s, p)
    requires AppendsPeriods(after, n + 1, purchases[1..], x - purchases[0].amount, t, s, p)
    ensures AppendsPeriods(after, n, purchases, x, t, s, p)
  {
    hide Rebuilds;
    forall i: nat | i < |purchases| ensures IsPeriodOf(after, n, purchases, i, x, t, s, p) {
      BoughtFirst(purchases, i);
      if i > 0 {
        assert IsPeriodOf(after, n + 1, purchases[1..], i - 1, x - purchases[0].amount, t, s, p);
      }
    }
  }

  lemma BoughtFirst(purchases: seq<Purchase>, i: nat)
    requires i < |purchases|
    ensures Bought(purchases[..i+1]) == purchases[0].amount + Bought(purchases[1..][..i])
    ensures i == 0 ==> Bought(purchases[1..][..i]) == 0
  {
    assert purchases[..i+1][1..] == purchases[1..][..i];
  }

  /** With exact sums every purchase has its period in the schedule: the bank holds its capital less everything
      bought so far, the partner the rest of the total, and the two ratios are those capitals over the total,
      rounded, which add up to one. */
  lemma EveryPurchaseHasItsPeriod(input: Input, p: nat, i: nat)
    requires p > 0 && 0 < input.bankCapital + input.partnerCapital && ExactSums(input, p)
    requires Outcome(input, p).Ok? && i < |input.purchases|
    ensures |Outcome(input, p).value.periods| == |input.purchases|
    ensures Bought(input.purchases[..i+1]) <= input.bankCapital
    ensures Rebuilds(Outcome(input, p).value.periods[i], input.purchases[i].period,
                     input.bankCapital - Bought(input.purchases[..i+1]), input.bankCapital + input.partnerCapital,
                     input.fractionDigits, p)
  {
    hide RoundSig, Run, Kept, Rebuilds;
    var b, c, s := input.bankCapital, input.partnerCapital, input.fractionDigits;
    var start, total := Start(input), InitialTotal(input, p);
    PlusUnits(start.bank, start.partner, b, c, s, p);
    RunAppends(start, input.purchases, total, b, b + c, s, p);
    var after := Run(start, input.purchases, total, s, p).value.periods;
    assert IsPeriodOf(after, 0, input.purchases, i, b, b + c, s, p);
  }

  lemma {:induction false} RunRefusals(state: Progress, purchases: seq<Purchase>, total: Ratio, x: nat, t: nat, s: nat,
                                       p: nat)
    requires p > 0 && 0 < t && IsUnits(total, t, s) && Holds(state, x, t, s)
    requires CapitalsKept(x, t - x, purchases, s, p)
    ensures Run(state, purchases, total, s, p) == Err(PeriodsNotIncreasing) ==> !Increasing(purchases, state.lastPeriod)
    ensures Run(state, purchases, total, s, p) == Err(PurchaseExceedsCapital) ==> Bought(purchases) > x
    decreases |purchases|
  {
    hide Advance, RoundSig, Pow10, Kept;
    if purchases != [] {
      AdvanceIsExact(state, purchases[0], total, x, t, s, p);
      var r := Advance(state, purchases[0], total, s, p);
      if r.Ok? { RunRefusals(r.value, purchases[1..], total, x - purchases[0].amount, t, s, p); }
    }
  }

  /** With exact sums a refused schedule is refused for a reason that holds. */
  lemma RefusalsHold(input: Input, p: nat)
    requires p > 0 && 0 < input.bankCapital + input.partnerCapital && ExactSums(input, p) && Outcome(input, p).Err?
    ensures match Outcome(input, p).error
            case PeriodsNotIncreasing => !Increasing(input.purchases, 0)
            case PurchaseExceedsCapital => Bought(input.purchases) > input.bankCapital
            case NotFullyAcquired => input.maturityReached && Bought(input.purchases) < input.bankCapital
            case RatioInvariantViolated => false
  {
    hide RoundSig, Run, Kept;
    var b, c, s := input.bankCapital, input.partnerCapital, input.fractionDigits;
    var start, total := Start(input), InitialTotal(input, p);
    RatioInvariantNeverFires(input, p);
    PlusUnits(start.bank, start.partner, b, c, s, p);
    RunRefusals(start, input.purchases, total, b, b + c, s, p);
    RunIsExact(start, input.purchases, total, b, b + c, s, p);
    var r := Run(start, input.purchases, total, s, p);
    if r.Ok? { ZeroUnits(r.value.bank, b - Bought(input.purchases), s); }
  }

  // ----- When it does fire -----

  /** With exact sums the invariant fires in one case alone: without any capital, at the first purchase, of
      nothing, in a positive period. The guards let zero capitals and a zero purchase pass. */
  lemma RatioInvariantFiresExactly(input: Input, p: nat)
    requires p > 0 && ExactSums(input, p)
    ensures Outcome(input, p) == Err(RatioInvariantViolated)
            <==> && input.bankCapital + input.partnerCapital == 0
                 && input.purchases != [] && input.purchases[0].period > 0 && input.purchases[0].amount == 0
  {
    hide RoundSig, Run, ExactSums;
    if input.bankCapital + input.partnerCapital > 0 {
      RatioInvariantNeverFires(input, p);
    } else {
      NothingToOwn(input, p);
    }
  }

  lemma NothingToOwn(input: Input, p: nat)
    requires p > 0 && input.bankCapital == 0 == input.partnerCapital
    ensures Outcome(input, p) == Err(RatioInvariantViolated)
            <==> input.purchases != [] && input.purchases[0].period > 0 && input.purchases[0].amount == 0
  {
    hide RoundSig, Pow10, Plus, Minus;
    var start, total, s := Start(input), InitialTotal(input, p), input.fractionDigits;
    NoTotal(s, p);
    if input.purchases != [] {
      GreaterUnits(Decimal(input.purchases[0].amount, s), start.bank, input.purchases[0].amount, 0, s);
    }
  }

  lemma NoTotal(s: nat, p: nat)
    requires p > 0
    ensures Plus(Decimal(0, s), Decimal(0, s), p).n == 0
  {
    hide RoundSig, Pow10;
    Steps(Pow10(s), Pow10(s));
    RoundSigZero(Pow10(s) * Pow10(s), p);
  }

  /** The input itself: two zero capitals and a purchase of zero. */
  lemma ZeroCapitalsFire(p: nat)
    requires p > 0
    ensures Outcome(Input(0, 0, 0, [Purchase(1, 0)], false), p) == Err(RatioInvariantViolated)
  {
    hide RoundSig, Outcome;
    NothingToOwn(Input(0, 0, 0, [Purchase(1, 0)], false), p);
  }

  /** Beyond the precision the invariant is not safe. Two capitals of p nines have a sum of p + 1
      digits; it is rounded up, and buying one unit makes the two ratios add up to 0.99...9. */
  lemma InexactSumsFire(p: nat)
    requires p > 0
    ensures var nines := Pow10(p) - 1;
            Outcome(Input(0, nines, nines, [Purchase(1, 1)], false), p) == Err(RatioInvariantViolated)
  {
    hide RoundSig, Pow10, Plus, Minus, DividedBy, PeriodOf, Greater;
    var u, w := Pow10(p), Pow10(p - 1);
    TenPowers(p);
    var input := Input(0, u - 1, u - 1, [Purchase(1, 1)], false);
    var total := Ratio(20 * w, 1);
    var start := Start(input);
    var one := Decimal(1, 0);
    IsUnitsOfTotal(w);
    SumOfNines(p);
    UnitsOfWhole(u - 1);
    UnitsOfWhole(1);
    GreaterUnits(one, start.bank, 1, u - 1, 0);
    ExactUnits(u - 2, 0, p);
    ExactUnits(u, 0, p);
    MinusUnits(start.bank, one, u - 1, 1, 0, p);
    PlusUnits(start.partner, one, u - 1, 1, 0, p);
    NinesBroken(Minus(start.bank, one, p), Plus(start.partner, one, p), p);
    assert Advance(start, Purchase(1, 1), total, 0, p) == Err(RatioInvariantViolated);
  }

  lemma TenPowers(p: nat)
    requires p > 0
    ensures Pow10(p) == 10 * Pow10(p - 1) && Pow10(0) == 1
  {}

  lemma UnitsOfWhole(n: nat)
    ensures IsUnits(Decimal(n, 0), n, 0) && Decimal(n, 0) == Ratio(n, 1)
  {}

  /** The sum of two capitals of p nines is rounded up to twice the power of ten. */
  lemma SumOfNines(p: nat)
    requires p > 0
    ensures var u := Pow10(p); Plus(Decimal(u - 1, 0), Decimal(u - 1, 0), p) == Ratio(20 * Pow10(p - 1), 1)
  {
    hide RoundSig, Pow10;
    TenPowers(p);
    UnitsOfWhole(Pow10(p) - 1);
    RoundedTotal(p);
  }

  /** The ratios of u - 2 and of u to that total add up to a number just below one. */
  lemma NinesBroken(bank: Ratio, partner: Ratio, p: nat)
    requires p > 0 && IsUnits(bank, Pow10(p) - 2, 0) && IsUnits(partner, Pow10(p), 0)
    ensures PeriodOf(1, bank, partner, Ratio(20 * Pow10(p - 1), 1), p) == None
  {
    hide RoundSig, Pow10;
    var u, w := Pow10(p), Pow10(p - 1);
    TenPowers(p);
    var total := Ratio(20 * w, 1);
    IsUnitsOfTotal(w);
    DividedUnits(bank, total, u - 2, 2 * u, 0, p);
    DividedUnits(partner, total, u, 2 * u, 0, p);
    HalfRatios(p);
    HalvesTotal(u, w);
    RoundSigScales(u, u - 1, u, p);
    JustBelowOne(p);
  }

  lemma HalvesTotal(u: nat, w: nat)
    requires u == 10 * w && w > 0
    ensures (5 * w - 1) * u + (5 * w) * u == u * (u - 1)
  {
    Spread(5 * w, 1, u);
    Spread(u, 1, u);
    assert u * (u - 1) == (u - 1) * u;
    assert (5 * w) * u + (5 * w) * u == (10 * w) * u;
  }

  lemma IsUnitsOfTotal(w: nat)
    ensures IsUnits(Ratio(20 * w, 1), 20 * w, 0)
  {}

  lemma RoundedTotal(p: nat)
    requires p > 0
    ensures var w := Pow10(p - 1); RoundSig(2 * (10 * w - 1), 1, p) == Ratio(20 * w, 1)
  {
    hide RoundSig;
    var w := Pow10(p - 1);
    var n := 2 * (10 * w - 1);
    NearestIsHalfEven(n, 10, 2 * w);
    RoundSigAbove(n, 1, p);
    RoundSigInside(n, 10, p);
  }

  lemma HalfRatios(p: nat)
    requires p > 0
    ensures var w, u := Pow10(p - 1), Pow10(p);
            RoundSig(u - 2, 2 * u, p) == Ratio(5 * w - 1, u) && RoundSig(u, 2 * u, p) == Ratio(5 * w, u)
  {
    hide RoundSig, HalfEven;
    var w, u := Pow10(p - 1), Pow10(p);
    HalfWindows(u, w);
    NearestIsHalfEven((u - 2) * u, 2 * u, 5 * w - 1);
    NearestIsHalfEven(u * u, 2 * u, 5 * w);
    RoundSigPlaces(u - 2, 2 * u, p, p);
    RoundSigPlaces(u, 2 * u, p, p);
  }

  lemma HalfWindows(u: nat, w: nat)
    requires w > 0 && u == 10 * w
    ensures (u - 2) * u == (5 * w - 1) * (2 * u) && u * u == (5 * w) * (2 * u)
    ensures (2 * u) * w <= (u - 2) * u < (2 * u) * u
    ensures (2 * u) * w <= u * u < (2 * u) * u
  {
    Spread(u, 2, u);
    Spread(5 * w, 1, 2 * u);
    assert (5 * w) * (2 * u) == u * u;
    assert (2 * u) * w == 2 * (w * u) && u * u == 10 * (w * u);
    assert (2 * u) * u == 2 * (u * u);
    Steps(w, u);
  }

  lemma BelowOneUnits(u: nat, w: nat)
    requires u == 10 * w && w > 0
    ensures u * w <= (u - 1) * u < u * u
  {
    Spread(u, 1, u);
    assert u * u == 10 * (u * w);
    Steps(w, u);
  }

  lemma JustBelowOne(p: nat)
    requires p > 0
    ensures RoundSig(Pow10(p) - 1, Pow10(p), p) == Ratio(Pow10(p) - 1, Pow10(p))
  {
    hide RoundSig, HalfEven;
    var w, u := Pow10(p - 1), Pow10(p);
    BelowOneUnits(u, w);
    NearestIsHalfEven((u - 1) * u, u, u - 1);
    RoundSigPlaces(u - 1, u, p, p);
  }

}

/** Exact money, the reconciliation of two amounts, and the other places where the system compares or
    rewrites decimal texts. */
module Money {
  import opened Wrappers
  import opened Sorting
  import opened DecimalText

  datatype MoneyError = InvalidCurrency | InvalidScale | NotCanonical | ExceedsScale | Incompatible

  datatype Money = Money(currency: string, minorUnits: int, scale: nat)

  predicate ValidCurrency(currency: string) {
    |currency| == 3 && forall i :: 0 <= i < 3 ==> 'A' <= currency[i] <= 'Z'
  }

  const MAX_SCALE: nat := 12

  function Parse(amount: string, currency: string, scale: int): Result<Money, MoneyError> {
    if !ValidCurrency(currency) then Err(InvalidCurrency)
    else if !(0 <= scale <= MAX_SCALE) then Err(InvalidScale)
    else match MatchDecimal(amount)
      case None => Err(NotCanonical)
      case Some(m) =>
        if |m.fraction| > scale then Err(ExceedsScale)
        else Ok(Money(currency, Units(m, scale), scale))
  }

  predicate Compatible(a: Money, b: Money) {
    a.currency == b.currency && a.scale == b.scale
  }

  function Subtract(a: Money, b: Money): Result<Money, MoneyError> {
    if Compatible(a, b) then Ok(a.(minorUnits := a.minorUnits - b.minorUnits)) else Err(Incompatible)
  }

  function Sign(x: int): int { if x < 0 then -1 else if x > 0 then 1 else 0 }

  function Magnitude(x: int): nat { if x < 0 then -x else x }

  /** The digits printed for a magnitude: at least one before the point. */
  function PrintedDigits(units: nat, scale: nat): (r: string)
    ensures |r| >= scale + 1
  {
    PadStart(Digits(units), scale + 1)
  }

  function ToDecimalString(m: Money): string {
    var digits := PrintedDigits(Magnitude(m.minorUnits), m.scale);
    var value := if m.scale == 0 then digits
                 else digits[..|digits|-m.scale] + "." + digits[|digits|-m.scale..];
    if m.minorUnits < 0 then "-" + value else value
  }

  /** The match of a printed amount. */
  function PrintedMatch(m: Money): Match {
    var digits := PrintedDigits(Magnitude(m.minorUnits), m.scale);
    Match(m.minorUnits < 0, digits[..|digits|-m.scale], digits[|digits|-m.scale..])
  }

  lemma PrintedDigitsSplit(units: nat, scale: nat)
    ensures AllDigits(PrintedDigits(units, scale))
    ensures Value(PrintedDigits(units, scale)) == units
    ensures var digits := PrintedDigits(units, scale); CanonicalWhole(digits[..|digits|-scale])
  {
    var d := Digits(units);
    var digits := PrintedDigits(units, scale);
    ValuePadStart(d, scale + 1);
    var whole := digits[..|digits|-scale];
    if |d| < scale + 1 {
      assert whole == "0";
    } else {
      assert whole[0] == d[0];
      if d == "0" { assert whole == "0"; }
    }
  }

  lemma PrintedText(m: Money)
    ensures ToDecimalString(m) == Written(PrintedMatch(m))
  {
    var digits := PrintedDigits(Magnitude(m.minorUnits), m.scale);
    var p := PrintedMatch(m);
    if m.scale == 0 { assert p.whole == digits; }
    assert Body(p) == if m.scale == 0 then digits
                      else digits[..|digits|-m.scale] + "." + digits[|digits|-m.scale..];
  }

  /** An amount prints as the written form of a match of its scale that denotes it. */
  lemma PrintedIsWritten(m: Money)
    ensures WellFormed(PrintedMatch(m)) && |PrintedMatch(m).fraction| == m.scale
    ensures ToDecimalString(m) == Written(PrintedMatch(m))
    ensures Units(PrintedMatch(m), m.scale) == m.minorUnits
  {
    hide Digits, Value, PadStart;
    PrintedText(m);
    var digits := PrintedDigits(Magnitude(m.minorUnits), m.scale);
    PrintedDigitsSplit(Magnitude(m.minorUnits), m.scale);
    var p := PrintedMatch(m);
    assert p.whole + p.fraction == digits;
    JoinedUnits(p, digits);
  }

  lemma JoinedUnits(m: Match, digits: string)
    requires WellFormed(m) && AllDigits(digits) && m.whole + m.fraction == digits
    ensures Units(m, |m.fraction|) == if m.negative then 0 - Value(digits) else Value(digits)
  {
    assert PadEnd(m.fraction, |m.fraction|) == m.fraction;
  }

  /** Printing an amount and parsing it back returns the amount, at every sign, size and scale. */
  lemma ParsePrinted(m: Money)
    requires ValidCurrency(m.currency) && m.scale <= MAX_SCALE
    ensures Parse(ToDecimalString(m), m.currency, m.scale) == Ok(m)
  {
    PrintedIsWritten(m);
    MatchWritten(PrintedMatch(m));
  }

  /** The text an accepted amount is rewritten to: the fraction padded to the scale, a negative zero unsigned. */
  lemma PrintParsed(amount: string, currency: string, scale: int)
    requires Parse(amount, currency, scale).Ok?
    ensures var m := MatchDecimal(amount).value;
            var money := Parse(amount, currency, scale).value;
            PrintedMatch(money) == Match(m.negative && money.minorUnits != 0, m.whole, PadEnd(m.fraction, scale))
  {
    hide Digits, Value, Pow10;
    var m := MatchDecimal(amount).value;
    var money := Parse(amount, currency, scale).value;
    var text := m.whole + PadEnd(m.fraction, scale);
    ValuePadEnd(m.fraction, scale);
    DigitsOfValue(text, scale + 1);
    assert Magnitude(money.minorUnits) == Value(text);
    assert PrintedDigits(Magnitude(money.minorUnits), scale) == text;
    assert text[..|m.whole|] == m.whole;
    assert text[|m.whole|..] == PadEnd(m.fraction, scale);
  }

  // ----- Reconciliation -----

  predicate OnlyZeros(s: string) { forall i :: 0 <= i < |s| ==> s[i] == '0' }

  function NormalizeExactScale(amount: string, scale: nat): Result<string, MoneyError> {
    match MatchDecimal(amount)
    case None => Ok(amount)
    case Some(m) =>
      if |m.fraction| <= scale then Ok(amount)
      else if !OnlyZeros(m.fraction[scale..]) then Err(ExceedsScale)
      else Ok((if m.negative then "-" else "") + m.whole
              + (if scale == 0 then "" else "." + m.fraction[..scale]))
  }

  datatype Reconciliation = Reconciliation(difference: string, matched: bool)

  function ReconcileAmounts(subledger: string, generalLedger: string, currency: string, scale: nat)
    : Result<Reconciliation, MoneyError>
  {
    var left :- NormalizeExactScale(subledger, scale);
    var a :- Parse(left, currency, scale);
    var right :- NormalizeExactScale(generalLedger, scale);
    var b :- Parse(right, currency, scale);
    var d :- Subtract(a, b);
    var zero :- Parse("0", currency, scale);
    Ok(Reconciliation(ToDecimalString(d), ToDecimalString(d) == ToDecimalString(zero)))
  }

  /** The amount fits the scale once trailing zeros are ignored. */
  predicate FitsScale(amount: string, scale: nat) {
    var m := MatchDecimal(amount);
    m.Some? && OnlyZeros(if |m.value.fraction| <= scale then "" else m.value.fraction[scale..])
  }

  function Truncated(m: Match, scale: nat): Match {
    if |m.fraction| <= scale then m else m.(fraction := m.fraction[..scale])
  }

  lemma TruncatedIsNormalized(amount: string, scale: nat)
    requires FitsScale(amount, scale)
    ensures var m := MatchDecimal(amount).value;
            WellFormed(Truncated(m, scale))
            && NormalizeExactScale(amount, scale) == Ok(Written(Truncated(m, scale)))
  {
    var m := MatchDecimal(amount).value;
    WrittenMatch(amount);
    TruncatedText(m, scale);
  }

  lemma TruncatedText(m: Match, scale: nat)
    requires WellFormed(m)
    ensures WellFormed(Truncated(m, scale))
    ensures |m.fraction| > scale ==>
      Written(Truncated(m, scale)) == (if m.negative then "-" else "") + m.whole
                                      + (if scale == 0 then "" else "." + m.fraction[..scale])
  {
    if |m.fraction| > scale {
      var tail := if scale == 0 then "" else "." + m.fraction[..scale];
      assert Body(Truncated(m, scale)) == m.whole + tail;
      Grouped(if m.negative then "-" else "", m.whole, tail);
      NoPrefix(m.whole + tail);
    }
  }

  lemma Grouped(a: string, b: string, c: string)
    ensures a + (b + c) == (a + b) + c
  {}

  lemma NoPrefix(s: string)
    ensures "" + s == s
  {}

  lemma TruncatedSameUnits(m: Match, scale: nat, k: nat)
    requires WellFormed(m) && |m.fraction| <= k && scale <= k
    requires OnlyZeros(if |m.fraction| <= scale then "" else m.fraction[scale..])
    ensures WellFormed(Truncated(m, scale))
    ensures Units(m, k) == Units(Truncated(m, scale), scale) * Pow10(k - scale)
  {
    var t := Truncated(m, scale);
    if |m.fraction| > scale {
      assert m.fraction == m.fraction[..scale] + m.fraction[scale..];
      assert PadEnd(t.fraction, k) == PadEnd(m.fraction, k);
    }
    UnitsScale(t, scale, k);
  }

  /** Normalising and parsing succeeds exactly for the amounts that fit the scale. */
  lemma NormalizedParse(amount: string, currency: string, scale: nat)
    requires ValidCurrency(currency) && scale <= MAX_SCALE
    ensures FitsScale(amount, scale) ==>
              NormalizeExactScale(amount, scale).Ok?
              && Parse(NormalizeExactScale(amount, scale).value, currency, scale)
                 == Ok(Money(currency, Units(Truncated(MatchDecimal(amount).value, scale), scale), scale))
    ensures !FitsScale(amount, scale) ==>
              NormalizeExactScale(amount, scale).Err?
              || Parse(NormalizeExactScale(amount, scale).value, currency, scale).Err?
  {
    if FitsScale(amount, scale) {
      TruncatedIsNormalized(amount, scale);
      MatchWritten(Truncated(MatchDecimal(amount).value, scale));
    }
  }

  /** The reconciliation is accepted exactly when both amounts fit the scale. */
  lemma ReconcileAccepts(subledger: string, generalLedger: string, currency: string, scale: nat)
    requires ValidCurrency(currency) && scale <= MAX_SCALE
    ensures ReconcileAmounts(subledger, generalLedger, currency, scale).Ok?
        <==> FitsScale(subledger, scale) && FitsScale(generalLedger, scale)
  {
    NormalizedParse(subledger, currency, scale);
    NormalizedParse(generalLedger, currency, scale);
    ZeroParses(currency, scale);
  }

  lemma ZeroParses(currency: string, scale: nat)
    requires ValidCurrency(currency) && scale <= MAX_SCALE
    ensures Parse("0", currency, scale) == Ok(Money(currency, 0, scale))
  {
    MatchWritten(Match(false, "0", ""));
    assert Written(Match(false, "0", "")) == "0";
    ValuePadEnd("", scale);
    ValueConcat("0", PadEnd("", scale));
    SingleDigit('0');
    ZeroTimes(Pow10(scale));
  }

  function UnitsAt(amount: string, scale: nat): int
    requires FitsScale(amount, scale)
  {
    TruncatedText(MatchDecimal(amount).value, scale);
    Units(Truncated(MatchDecimal(amount).value, scale), scale)
  }

  lemma NormalizedUnits(amount: string, currency: string, scale: nat)
    requires ValidCurrency(currency) && scale <= MAX_SCALE && FitsScale(amount, scale)
    ensures NormalizeExactScale(amount, scale).Ok?
    ensures Parse(NormalizeExactScale(amount, scale).value, currency, scale) ==
            Ok(Money(currency, UnitsAt(amount, scale), scale))
  {
    TruncatedText(MatchDecimal(amount).value, scale);
    NormalizedParse(amount, currency, scale);
  }

  lemma ReconcileComputes(subledger: string, generalLedger: string, currency: string, scale: nat)
    requires ValidCurrency(currency) && scale <= MAX_SCALE
    requires FitsScale(subledger, scale) && FitsScale(generalLedger, scale)
    ensures var d := UnitsAt(subledger, scale) - UnitsAt(generalLedger, scale);
            ReconcileAmounts(subledger, generalLedger, currency, scale)
            == Ok(Reconciliation(ToDecimalString(Money(currency, d, scale)), d == 0))
  {
    hide ToDecimalString, NormalizeExactScale, Parse, FitsScale, UnitsAt;
    NormalizedUnits(subledger, currency, scale);
    NormalizedUnits(generalLedger, currency, scale);
    ZeroParses(currency, scale);
    var d := UnitsAt(subledger, scale) - UnitsAt(generalLedger, scale);
    ParsePrinted(Money(currency, d, scale));
    ParsePrinted(Money(currency, 0, scale));
  }

  lemma UnitsAtScale(amount: string, scale: nat, k: nat)
    requires FitsScale(amount, scale)
    requires |MatchDecimal(amount).value.fraction| <= k && scale <= k
    ensures Units(MatchDecimal(amount).value, k) == UnitsAt(amount, scale) * Pow10(k - scale)
  {
    TruncatedSameUnits(MatchDecimal(amount).value, scale, k);
  }

  lemma PrintedAtScale(m: Money, k: nat)
    requires m.scale <= k
    ensures MatchDecimal(ToDecimalString(m)).Some?
    ensures var p := MatchDecimal(ToDecimalString(m)).value;
            |p.fraction| == m.scale && Units(p, k) == m.minorUnits * Pow10(k - m.scale)
  {
    PrintedIsWritten(m);
    MatchWritten(PrintedMatch(m));
    UnitsScale(PrintedMatch(m), m.scale, k);
  }

  /** MATCHED says exactly that the two texts denote the same number, and the printed difference
      denotes exactly their difference, read at any number k of fraction digits that holds both. */
  lemma ReconcileIsNumeric(subledger: string, generalLedger: string, currency: string, scale: nat, k: nat)
    requires ValidCurrency(currency) && scale <= MAX_SCALE && scale <= k
    requires FitsScale(subledger, scale) && FitsScale(generalLedger, scale)
    requires |MatchDecimal(subledger).value.fraction| <= k && |MatchDecimal(generalLedger).value.fraction| <= k
    ensures ReconcileAmounts(subledger, generalLedger, currency, scale).Ok?
    ensures var a, b := MatchDecimal(subledger).value, MatchDecimal(generalLedger).value;
            var r := ReconcileAmounts(subledger, generalLedger, currency, scale).value;
            (r.matched <==> SameNumber(a, b))
            && MatchDecimal(r.difference).Some?
            && |MatchDecimal(r.difference).value.fraction| == scale
            && Units(MatchDecimal(r.difference).value, k) == Units(a, k) - Units(b, k)
  {
    hide ToDecimalString, Parse, ReconcileAmounts, UnitsAt, Units, MatchDecimal;
    ReconcileComputes(subledger, generalLedger, currency, scale);
    var x, y := UnitsAt(subledger, scale), UnitsAt(generalLedger, scale);
    UnitsAtScale(subledger, scale, k);
    UnitsAtScale(generalLedger, scale, k);
    CompareAtAnyScale(MatchDecimal(subledger).value, MatchDecimal(generalLedger).value, k);
    PrintedAtScale(Money(currency, x - y, scale), k);
    DifferenceScales(x, y, Pow10(k - scale));
  }

  lemma DifferenceScales(x: int, y: int, p: nat)
    requires p >= 1
    ensures x == y <==> x * p == y * p
    ensures (x - y) * p == x * p - y * p
  {
    ScalingKeepsOrder(x, y, p);
  }

  // ----- Comparing approval limits -----

  function IsUnsignedDecimal(s: string): bool { MatchUnsigned(s, false).Some? }

  /** The first two components of String.prototype.split('.'), the second defaulting to the empty string. */
  function SplitPoint(s: string): (string, string) {
    var dot := IndexOf(s, '.');
    if dot == |s| then (s, "") else
      var rest := s[dot+1..];
      (s[..dot], rest[..IndexOf(rest, '.')])
  }

  function CompareUnsignedDecimals(left: string, right: string): int {
    var (leftInteger, leftFraction) := SplitPoint(left);
    var (rightInteger, rightFraction) := SplitPoint(right);
    if |leftInteger| != |rightInteger| then (if |leftInteger| > |rightInteger| then 1 else -1)
    else if leftInteger != rightInteger then (if Less(rightInteger, leftInteger) then 1 else -1)
    else
      var n := Max(|leftFraction|, |rightFraction|);
      var l, r := PadEnd(leftFraction, n), PadEnd(rightFraction, n);
      if l == r then 0 else if Less(r, l) then 1 else -1
  }

  lemma SplitMatched(s: string, negative: bool)
    requires MatchUnsigned(s, negative).Some?
    ensures var m := MatchUnsigned(s, negative).value; SplitPoint(s) == (m.whole, m.fraction)
  {
    var m := MatchUnsigned(s, negative).value;
    assert '.' !in m.fraction;
    assert IndexOf(m.fraction, '.') == |m.fraction|;
    assert m.fraction[..|m.fraction|] == m.fraction;
  }

  lemma LongerIsLarger(a: string, b: string, f: string, g: string)
    requires CanonicalWhole(a) && CanonicalWhole(b) && |a| > |b|
    requires AllDigits(f) && AllDigits(g) && |f| == |g|
    ensures Value(a + f) > Value(b + g)
  {
    var x, y := a + f, b + g;
    assert x[0] == a[0] != '0';
    LongerDigits(x, y);
  }

  lemma LongerDigits(x: string, y: string)
    requires AllDigits(x) && AllDigits(y) && |x| > |y| && x[0] != '0'
    ensures Value(x) > Value(y)
  {
    ValueBounds(x);
    ValueBounds(y);
    Pow10Monotone(|y|, |x| - 1);
  }

  lemma SameLengthWhole(a: string, b: string, f: string, g: string)
    requires AllDigits(a) && AllDigits(b) && |a| == |b|
    requires AllDigits(f) && AllDigits(g) && |f| == |g|
    ensures Less(a, b) ==> Value(a + f) < Value(b + g)
    ensures a == b && Less(f, g) ==> Value(a + f) < Value(b + g)
  {
    TextOrderIsNumericOrder(a, b);
    TextOrderIsNumericOrder(f, g);
    ValueConcat(a, f);
    ValueConcat(b, g);
    ValueBounds(f);
    ValueBounds(g);
    LeadingDigit(Value(a), Value(b), Pow10(|f|), Value(f), Value(g));
  }

  /** The comparison of unsigned canonical decimals of any length is the numeric one. */
  lemma CompareUnsignedIsNumeric(left: string, right: string)
    requires IsUnsignedDecimal(left) && IsUnsignedDecimal(right)
    ensures var a, b := MatchUnsigned(left, false).value, MatchUnsigned(right, false).value;
            var k := Max(|a.fraction|, |b.fraction|);
            !a.negative && !b.negative
            && CompareUnsignedDecimals(left, right) == Sign(Units(a, k) - Units(b, k))
  {
    var a, b := MatchUnsigned(left, false).value, MatchUnsigned(right, false).value;
    SplitMatched(left, false);
    SplitMatched(right, false);
    var n := Max(|a.fraction|, |b.fraction|);
    var l, r := PadEnd(a.fraction, n), PadEnd(b.fraction, n);
    assert |l| == |r| == n;
    if |a.whole| > |b.whole| { LongerIsLarger(a.whole, b.whole, l, r); }
    else if |a.whole| < |b.whole| { LongerIsLarger(b.whole, a.whole, r, l); }
    else {
      SameLengthWhole(a.whole, b.whole, l, r);
      SameLengthWhole(b.whole, a.whole, r, l);
      LessIsStrictTotalOrder();
    }
  }

  // ----- The manifest controls of the ingestion -----

  /** The twelve-digit scaling of the batch validation. */
  function ManifestUnits(value: string): Option<int> {
    match MatchDecimal(value)
    case None => None
    case Some(m) =>
      var magnitude := Value(m.whole) * Pow10(12) + Value(PadEnd(m.fraction, 12));
      Some(if m.negative then 0 - magnitude else magnitude)
  }

  function DecimalEqual(left: string, right: string): bool {
    ManifestUnits(left) == ManifestUnits(right)
  }

  lemma ManifestUnitsAreUnits(value: string)
    requires MatchDecimal(value).Some? && |MatchDecimal(value).value.fraction| <= 12
    ensures ManifestUnits(value) == Some(Units(MatchDecimal(value).value, 12))
  {
    hide Value, Pow10, IndexOf;
    var m := MatchDecimal(value).value;
    ValueConcat(m.whole, PadEnd(m.fraction, 12));
    assert |PadEnd(m.fraction, 12)| == 12;
  }

  /** The balance control of the batch validation compares numbers, not texts. */
  lemma DecimalEqualIsNumeric(left: string, right: string)
    requires MatchDecimal(left).Some? && |MatchDecimal(left).value.fraction| <= 12
    requires MatchDecimal(right).Some? && |MatchDecimal(right).value.fraction| <= 12
    ensures DecimalEqual(left, right) <==> SameNumber(MatchDecimal(left).value, MatchDecimal(right).value)
  {
    ManifestUnitsAreUnits(left);
    ManifestUnitsAreUnits(right);
    CompareAtAnyScale(MatchDecimal(left).value, MatchDecimal(right).value, 12);
  }

  function StripZeros(s: string): string {
    if s != [] && s[|s|-1] == '0' then StripZeros(s[..|s|-1]) else s
  }

  /** The rewriting applied to both sides of the staging replay check. */
  function NormalizeDecimal(value: string): string {
    var (integer, fraction) := SplitPoint(value);
    if StripZeros(fraction) != [] then integer + "." + StripZeros(fraction) else integer
  }

  lemma {:induction false} StripPadded(s: string, k: nat)
    ensures StripZeros(s + Zeros(k)) == StripZeros(s)
  {
    if k == 0 { assert s + Zeros(0) == s; } else {
      assert (s + Zeros(k))[..|s| + k - 1] == s + Zeros(k - 1);
      StripPadded(s, k - 1);
    }
  }

  lemma SplitWritten(m: Match)
    requires WellFormed(m)
    ensures SplitPoint(Written(m)) == ((if m.negative then "-" else "") + m.whole, m.fraction)
  {
    var integer := (if m.negative then "-" else "") + m.whole;
    assert '.' !in integer && '.' !in m.fraction;
    if m.fraction == [] {
      assert Written(m) == integer;
      SplitWhole(integer);
    } else {
      assert Written(m) == integer + ("." + m.fraction);
      SplitJoined(integer, m.fraction);
    }
  }

  lemma SplitWhole(integer: string)
    requires '.' !in integer
    ensures SplitPoint(integer) == (integer, "")
  {
    assert IndexOf(integer, '.') == |integer|;
  }

  lemma SplitJoined(integer: string, fraction: string)
    requires '.' !in integer && '.' !in fraction
    ensures SplitPoint(integer + ("." + fraction)) == (integer, fraction)
  {
    var text := integer + ("." + fraction);
    IndexOfConcat(integer, "." + fraction, '.');
    assert text[|integer|+1..] == fraction && text[..|integer|] == integer;
    assert IndexOf(fraction, '.') == |fraction|;
    assert fraction[..|fraction|] == fraction;
  }

  /** A staged balance is read back as numeric(30,12) text, so the replay check runs against the printed
      form of the parsed amount. It agrees with the row on every amount but one: a negative zero is
      refused as a replay conflict, even the first time it is staged. */
  lemma StagingCheckRefusesExactlyNegativeZero(balance: string, currency: string)
    requires Parse(balance, currency, MAX_SCALE).Ok?
    ensures NormalizeDecimal(ToDecimalString(Parse(balance, currency, MAX_SCALE).value)) == NormalizeDecimal(balance)
        <==> !(MatchDecimal(balance).value.negative && Parse(balance, currency, MAX_SCALE).value.minorUnits == 0)
  {
    var m := MatchDecimal(balance).value;
    var money := Parse(balance, currency, MAX_SCALE).value;
    WrittenMatch(balance);
    PrintParsed(balance, currency, MAX_SCALE);
    PrintedIsWritten(money);
    NormalizedTexts(m, PrintedMatch(money), MAX_SCALE);
  }

  lemma NormalizedTexts(m: Match, p: Match, scale: nat)
    requires WellFormed(m) && WellFormed(p) && |m.fraction| <= scale
    requires p.whole == m.whole && p.fraction == PadEnd(m.fraction, scale)
    requires p.negative ==> m.negative
    ensures NormalizeDecimal(Written(p)) == NormalizeDecimal(Written(m)) <==> p.negative == m.negative
  {
    hide SplitPoint, Written, StripZeros, Zeros;
    SplitWritten(m);
    SplitWritten(p);
    StripPadded(m.fraction, scale - |m.fraction|);
    assert m.fraction + Zeros(0) == m.fraction;
    SignShows(m.whole, StripZeros(m.fraction));
  }

  lemma SignShows(whole: string, tail: string)
    requires CanonicalWhole(whole)
    ensures "-" + whole != whole && "" + whole == whole
    ensures "-" + whole + "." + tail != whole + "." + tail
  {
    assert ("-" + whole)[0] != whole[0];
    assert ("-" + whole + "." + tail)[0] != (whole + "." + tail)[0];
  }
}

/** Decimal numbers as text: digit strings, the canonical decimal grammar shared by every parser of
    the system, and what number a text denotes. */
module DecimalText {
  import opened Wrappers
  import opened Sorting

  predicate IsDigit(c: char) { '0' <= c <= '9' }

  predicate AllDigits(s: string) { forall i :: 0 <= i < |s| ==> IsDigit(s[i]) }

  function DigitValue(c: char): (r: nat)
    requires IsDigit(c)
    ensures r <= 9
  {
    c as int - '0' as int
  }

  function DigitChar(n: nat): (c: char)
    requires n <= 9
    ensures IsDigit(c) && DigitValue(c) == n
  {
    (n + '0' as int) as char
  }

  function Pow10(k: nat): (r: nat)
    ensures r >= 1
  {
    if k == 0 then 1 else 10 * Pow10(k - 1)
  }

  lemma {:induction false} Pow10Add(a: nat, b: nat)
    ensures Pow10(a + b) == Pow10(a) * Pow10(b)
  {
    if a != 0 {
      Pow10Add(a - 1, b);
      assert 10 * (Pow10(a - 1) * Pow10(b)) == (10 * Pow10(a - 1)) * Pow10(b);
    }
  }

  lemma {:induction false} Pow10Monotone(a: nat, b: nat)
    requires a <= b
    ensures Pow10(a) <= Pow10(b)
  {
    if a < b { Pow10Monotone(a, b - 1); }
  }

  /** The number written by a digit string, zero for the empty one. */
  function Value(s: string): nat
    requires AllDigits(s)
  {
    if s == [] then 0 else 10 * Value(s[..|s|-1]) + DigitValue(s[|s|-1])
  }

  /** BigInt.prototype.toString on a non-negative value. */
  function Digits(n: nat): (r: string)
    ensures AllDigits(r) && |r| >= 1
    ensures Value(r) == n
    ensures r[0] == '0' ==> r == "0"
    ensures n > 0 ==> r[0] != '0'
  {
    if n < 10 then
      assert [DigitChar(n)][..0] == [];
      [DigitChar(n)]
    else
      var front := Digits(n / 10);
      var r := front + [DigitChar(n % 10)];
      assert r[..|r|-1] == front;
      r
  }

  function Zeros(k: nat): (r: string)
    ensures |r| == k && AllDigits(r)
    ensures forall i :: 0 <= i < k ==> r[i] == '0'
  {
    seq(k, i => '0')
  }

  function PadStart(s: string, n: nat): (r: string)
    ensures AllDigits(s) ==> AllDigits(r)
    ensures |r| >= n && |r| >= |s|
  {
    if |s| >= n then s else Zeros(n - |s|) + s
  }

  function PadEnd(s: string, n: nat): (r: string)
    ensures AllDigits(s) ==> AllDigits(r)
    ensures |r| >= n && |r| >= |s|
  {
    if |s| >= n then s else s + Zeros(n - |s|)
  }

  lemma {:induction false} ValueConcat(a: string, b: string)
    requires AllDigits(a) && AllDigits(b)
    ensures AllDigits(a + b)
    ensures Value(a + b) == Value(a) * Pow10(|b|) + Value(b)
  {
    if b == [] {
      assert a + b == a;
    } else {
      var front := b[..|b|-1];
      ValueConcat(a, front);
      assert (a + b)[..|a + b|-1] == a + front;
      assert (a + b)[|a + b|-1] == b[|b|-1];
      TenTimes(Value(a), Pow10(|front|));
    }
  }

  lemma TenTimes(x: int, p: int)
    ensures 10 * (x * p) == x * (10 * p)
  {}

  lemma {:induction false} ValueZeros(k: nat)
    ensures Value(Zeros(k)) == 0
  {
    if k > 0 {
      assert Zeros(k)[..k-1] == Zeros(k - 1);
      ValueZeros(k - 1);
    }
  }

  lemma ValuePadStart(s: string, n: nat)
    requires AllDigits(s)
    ensures Value(PadStart(s, n)) == Value(s)
  {
    if |s| < n {
      ValueZeros(n - |s|);
      ValueConcat(Zeros(n - |s|), s);
      ZeroTimes(Pow10(|s|));
    }
  }

  lemma ZeroTimes(p: int)
    ensures 0 * p == 0
  {}

  lemma ValuePadEnd(s: string, n: nat)
    requires AllDigits(s) && |s| <= n
    ensures |PadEnd(s, n)| == n
    ensures Value(PadEnd(s, n)) == Value(s) * Pow10(n - |s|)
  {
    if |s| < n {
      ValueZeros(n - |s|);
      ValueConcat(s, Zeros(n - |s|));
    }
  }

  lemma {:induction false} ValueBounds(s: string)
    requires AllDigits(s)
    ensures Value(s) < Pow10(|s|)
    ensures s != [] && s[0] != '0' ==> Pow10(|s| - 1) <= Value(s)
  {
    if s != [] {
      var front := s[..|s|-1];
      ValueBounds(front);
      if |s| > 1 { assert front[0] == s[0]; } else { assert front == []; }
    }
  }

  /** Digit strings of one length are ordered as text exactly as they are as numbers. */
  lemma {:induction false} TextOrderIsNumericOrder(a: string, b: string)
    requires AllDigits(a) && AllDigits(b) && |a| == |b|
    ensures Less(a, b) <==> Value(a) < Value(b)
    ensures a == b <==> Value(a) == Value(b)
  {
    if a != [] {
      assert a == [a[0]] + a[1..] && b == [b[0]] + b[1..];
      TextOrderIsNumericOrder(a[1..], b[1..]);
      ValueConcat([a[0]], a[1..]);
      ValueConcat([b[0]], b[1..]);
      SingleDigit(a[0]);
      SingleDigit(b[0]);
      ValueBounds(a[1..]);
      ValueBounds(b[1..]);
      LeadingDigit(DigitValue(a[0]), DigitValue(b[0]), Pow10(|a| - 1), Value(a[1..]), Value(b[1..]));
    }
  }

  lemma SingleDigit(c: char)
    requires IsDigit(c)
    ensures Value([c]) == DigitValue(c)
  {
    assert [c][..0] == [];
  }

  lemma LeadingDigit(a: nat, b: nat, p: nat, x: nat, y: nat)
    requires x < p && y < p
    ensures a < b ==> a * p + x < b * p + y
    ensures a > b ==> a * p + x > b * p + y
  {
    AtLeastOnce(b - a, p);
    AtLeastOnce(a - b, p);
    assert b * p - a * p == (b - a) * p;
    assert a * p - b * p == (a - b) * p;
  }

  lemma AtLeastOnce(d: int, p: nat)
    ensures d >= 1 ==> d * p >= p
  {}

  /** Writing the value of a digit string back with at least n digits returns the string, provided it
      has n digits or no leading zero. */
  lemma DigitsOfValue(s: string, n: nat)
    requires AllDigits(s) && |s| >= n >= 1
    requires |s| == n || s[0] != '0'
    ensures PadStart(Digits(Value(s)), n) == s
  {
    hide Value, Pow10, Digits, Less;
    var d := Digits(Value(s));
    ValuePadStart(d, n);
    SameWidth(d, s, n);
    TextOrderIsNumericOrder(PadStart(d, n), s);
  }

  /** The digits of a number need no more room than any way of writing it, and the same without leading zeros. */
  lemma SameWidth(d: string, s: string, n: nat)
    requires AllDigits(s) && AllDigits(d) && |s| >= n >= 1 && |d| >= 1 && Value(d) == Value(s)
    requires |s| == n || s[0] != '0'
    requires d[0] == '0' ==> d == "0"
    ensures |PadStart(d, n)| == |s|
  {
    hide Value, Pow10;
    ValueBounds(s);
    ValueBounds(d);
    if |d| > |s| { Pow10Monotone(|s|, |d| - 1); }
    if s[0] != '0' && |d| < |s| { Pow10Monotone(|d|, |s| - 1); }
  }

  // ----- The canonical decimal grammar -----

  /** The capture groups of ^(-?)(0|[1-9][0-9]*)(?:\.([0-9]+))?$ */
  datatype Match = Match(negative: bool, whole: string, fraction: string)

  predicate CanonicalWhole(s: string) {
    s == "0" || (s != [] && AllDigits(s) && s[0] != '0')
  }

  predicate WellFormed(m: Match) {
    CanonicalWhole(m.whole) && AllDigits(m.fraction)
  }

  function IndexOf(s: string, c: char): (r: nat)
    ensures r <= |s|
    ensures c !in s[..r]
    ensures r < |s| ==> s[r] == c
  {
    if s == [] || s[0] == c then 0 else
      var r := 1 + IndexOf(s[1..], c);
      assert s[..r] == [s[0]] + s[1..][..r-1];
      r
  }

  function MatchUnsigned(s: string, negative: bool): (r: Option<Match>)
    ensures r.Some? ==> WellFormed(r.value)
  {
    var dot := IndexOf(s, '.');
    if !CanonicalWhole(s[..dot]) then None
    else if dot == |s| then Some(Match(negative, s, ""))
    else if dot + 1 < |s| && AllDigits(s[dot+1..]) then Some(Match(negative, s[..dot], s[dot+1..]))
    else None
  }

  /** Matching a text against the signed grammar. */
  function MatchDecimal(s: string): (r: Option<Match>)
    ensures r.Some? ==> WellFormed(r.value)
  {
    if s != [] && s[0] == '-' then MatchUnsigned(s[1..], true) else MatchUnsigned(s, false)
  }

  /** The unsigned text of a match. */
  function Body(m: Match): string {
    m.whole + (if m.fraction == [] then "" else "." + m.fraction)
  }

  /** The text that a match was taken from. */
  function Written(m: Match): string {
    if m.negative then "-" + Body(m) else Body(m)
  }

  lemma {:induction false} IndexOfConcat(a: string, b: string, c: char)
    requires c !in a && b != [] && b[0] == c
    ensures IndexOf(a + b, c) == |a|
  {
    if a == [] { assert a + b == b; } else {
      assert (a + b)[1..] == a[1..] + b;
      IndexOfConcat(a[1..], b, c);
    }
  }

  lemma MatchBody(m: Match)
    requires WellFormed(m)
    ensures MatchUnsigned(Body(m), m.negative) == Some(m)
  {
    var body := Body(m);
    assert '.' !in m.whole;
    if m.fraction == [] {
      assert body == m.whole;
      assert IndexOf(body, '.') == |body|;
      assert body[..|body|] == body;
    } else {
      IndexOfConcat(m.whole, "." + m.fraction, '.');
      assert body[..|m.whole|] == m.whole;
      assert body[|m.whole|+1..] == m.fraction;
    }
  }

  lemma MatchWritten(m: Match)
    requires WellFormed(m)
    ensures MatchDecimal(Written(m)) == Some(m)
  {
    MatchBody(m);
    if m.negative {
      assert Written(m)[1..] == Body(m);
    } else {
      assert Body(m)[0] == m.whole[0];
    }
  }

  lemma BodyOfMatch(s: string, negative: bool)
    requires MatchUnsigned(s, negative).Some?
    ensures Body(MatchUnsigned(s, negative).value) == s
    ensures MatchUnsigned(s, negative).value.negative == negative
  {
    var dot := IndexOf(s, '.');
    if dot < |s| { assert s == s[..dot] + ("." + s[dot+1..]); }
  }

  /** The grammar is unambiguous: a text is the written form of its only match. */
  lemma WrittenMatch(s: string)
    requires MatchDecimal(s).Some?
    ensures Written(MatchDecimal(s).value) == s
  {
    if s != [] && s[0] == '-' {
      BodyOfMatch(s[1..], true);
      assert s == "-" + s[1..];
    } else {
      BodyOfMatch(s, false);
    }
  }

  // ----- Numbers denoted by texts -----

  /** The number denoted by a match, in units of 10^-k. */
  function Units(m: Match, k: nat): int
    requires WellFormed(m) && |m.fraction| <= k
  {
    var magnitude := Value(m.whole + PadEnd(m.fraction, k));
    if m.negative then 0 - magnitude else magnitude
  }

  function Max(a: nat, b: nat): nat { if a < b then b else a }

  function Magnitude(m: Match, k: nat): nat
    requires WellFormed(m) && |m.fraction| <= k
  {
    Value(m.whole) * Pow10(k) + Value(m.fraction) * Pow10(k - |m.fraction|)
  }

  lemma UnitsMagnitude(m: Match, k: nat)
    requires WellFormed(m) && |m.fraction| <= k
    ensures Units(m, k) == if m.negative then 0 - Magnitude(m, k) else Magnitude(m, k)
  {
    ValuePadEnd(m.fraction, k);
    ValueConcat(m.whole, PadEnd(m.fraction, k));
  }

  lemma MagnitudeScale(m: Match, k: nat, j: nat)
    requires WellFormed(m) && |m.fraction| <= k <= j
    ensures Magnitude(m, j) == Magnitude(m, k) * Pow10(j - k)
  {
    Pow10Add(k, j - k);
    Pow10Add(k - |m.fraction|, j - k);
    ScaleOut(Value(m.whole), Value(m.fraction), Pow10(k), Pow10(j - k), Pow10(k - |m.fraction|));
  }

  lemma UnitsScale(m: Match, k: nat, j: nat)
    requires WellFormed(m) && |m.fraction| <= k <= j
    ensures Units(m, j) == Units(m, k) * Pow10(j - k)
  {
    UnitsMagnitude(m, k);
    UnitsMagnitude(m, j);
    MagnitudeScale(m, k, j);
    NegateProduct(Magnitude(m, k), Pow10(j - k));
  }

  lemma NegateProduct(a: int, b: int)
    ensures 0 - a * b == (0 - a) * b
  {}

  lemma ScaleOut(w: nat, f: nat, p: nat, q: nat, r: nat)
    ensures w * (p * q) + f * (r * q) == (w * p + f * r) * q
  {
    assert w * (p * q) == (w * p) * q;
    assert f * (r * q) == (f * r) * q;
  }

  /** Two matches denote the same number, whatever the number of digits written. */
  predicate SameNumber(a: Match, b: Match)
    requires WellFormed(a) && WellFormed(b)
  {
    var k := Max(|a.fraction|, |b.fraction|);
    Units(a, k) == Units(b, k)
  }

  lemma CompareAtAnyScale(a: Match, b: Match, k: nat)
    requires WellFormed(a) && WellFormed(b) && |a.fraction| <= k && |b.fraction| <= k
    ensures var j := Max(|a.fraction|, |b.fraction|);
            (Units(a, k) < Units(b, k) <==> Units(a, j) < Units(b, j))
            && (Units(a, k) == Units(b, k) <==> SameNumber(a, b))
  {
    var j := Max(|a.fraction|, |b.fraction|);
    UnitsScale(a, j, k);
    UnitsScale(b, j, k);
    ScalingKeepsOrder(Units(a, j), Units(b, j), Pow10(k - j));
  }

  lemma ScalingKeepsOrder(x: int, y: int, p: nat)
    requires p >= 1
    ensures x < y <==> x * p < y * p
    ensures x == y <==> x * p == y * p
  {
    assert y * p - x * p == (y - x) * p;
  }
}

/** Journals: the balance check, reversal, and the journal of a profit allocation. */
module Journal {
  import opened Wrappers
  import opened Sums
  import M = Money
  import P = ProportionalAllocation
  import opened DecimalText

  datatype Line = Line(accountCode: string, currency: string, debit: string, credit: string)

  datatype JournalError =
    | TooFewLines | InvalidAccount | NotMoney(error: M.MoneyError) | NotOnePositiveSide | NotBalanced | CurrencyDiffers

  predicate IsAccountChar(c: char) {
    'A' <= c <= 'Z' || '0' <= c <= '9' || 'a' <= c <= 'f' || c == ':' || c == '_' || c == '-'
  }

  predicate ValidAccount(code: string) { 2 <= |code| <= 128 && forall c <- code :: IsAccountChar(c) }

  /** The minor units of an amount, zero when it is not one. */
  function UnitsIn(amount: string, currency: string, scale: nat): int {
    var parsed := M.Parse(amount, currency, scale);
    if parsed.Ok? then parsed.value.minorUnits else 0
  }

  function Debit(l: Line, scale: nat): int { UnitsIn(l.debit, l.currency, scale) }

  function Credit(l: Line, scale: nat): int { UnitsIn(l.credit, l.currency, scale) }

  function LineError(l: Line, scale: nat): Option<JournalError> {
    if !ValidAccount(l.accountCode) then Some(InvalidAccount)
    else if M.Parse(l.debit, l.currency, scale).Err? then Some(NotMoney(M.Parse(l.debit, l.currency, scale).error))
    else if M.Parse(l.credit, l.currency, scale).Err? then Some(NotMoney(M.Parse(l.credit, l.currency, scale).error))
    else if (Debit(l, scale) > 0) == (Credit(l, scale) > 0) then Some(NotOnePositiveSide)
    else None
  }

  function FirstError(lines: seq<Line>, scale: nat): Option<JournalError> {
    if lines == [] then None
    else if LineError(lines[0], scale).Some? then LineError(lines[0], scale)
    else FirstError(lines[1..], scale)
  }

  function DebitIn(lines: seq<Line>, currency: string, scale: nat): int {
    if lines == [] then 0 else
      var front, l := lines[..|lines|-1], lines[|lines|-1];
      DebitIn(front, currency, scale) + if l.currency == currency then Debit(l, scale) else 0
  }

  function CreditIn(lines: seq<Line>, currency: string, scale: nat): int {
    if lines == [] then 0 else
      var front, l := lines[..|lines|-1], lines[|lines|-1];
      CreditIn(front, currency, scale) + if l.currency == currency then Credit(l, scale) else 0
  }

  predicate Balanced(lines: seq<Line>, scale: nat) {
    forall l <- lines :: DebitIn(lines, l.currency, scale) == CreditIn(lines, l.currency, scale)
  }

  /** The outcome of the balance check. */
  function Check(lines: seq<Line>, scale: nat): Option<JournalError> {
    if |lines| < 2 then Some(TooFewLines)
    else if FirstError(lines, scale).Some? then FirstError(lines, scale)
    else if !Balanced(lines, scale) then Some(NotBalanced)
    else None
  }

  lemma {:induction false} FirstErrorPrefix(lines: seq<Line>, n: nat, scale: nat)
    requires n <= |lines| && FirstError(lines[..n], scale).None?
    ensures FirstError(lines, scale) == FirstError(lines[n..], scale)
  {
    hide LineError;
    if n > 0 {
      assert lines[..n][1..] == lines[1..][..n-1] && lines[1..][n-1..] == lines[n..];
      FirstErrorPrefix(lines[1..], n - 1, scale);
    } else {
      assert lines[0..] == lines;
    }
  }

  lemma {:induction false} FirstErrorExtend(lines: seq<Line>, l: Line, scale: nat)
    requires FirstError(lines, scale).None?
    ensures FirstError(lines + [l], scale) == LineError(l, scale)
  {
    if lines != [] {
      assert (lines + [l])[1..] == lines[1..] + [l];
      FirstErrorExtend(lines[1..], l, scale);
    } else {
      assert lines + [l] == [l];
    }
  }

  datatype Totals = Totals(debit: int, credit: int)

  /** The running totals of the lines so far. */
  ghost predicate AreTotals(totals: map<string, Totals>, lines: seq<Line>, scale: nat) {
    && (forall c :: c in totals <==> exists l :: l in lines && l.currency == c)
    && (forall c ::
          (if c in totals then totals[c] else Totals(0, 0))
          == Totals(DebitIn(lines, c, scale), CreditIn(lines, c, scale)))
  }

  lemma TotalsExtend(totals: map<string, Totals>, lines: seq<Line>, l: Line, scale: nat)
    requires AreTotals(totals, lines, scale)
    ensures var current := if l.currency in totals then totals[l.currency] else Totals(0, 0);
            AreTotals(totals[l.currency := Totals(current.debit + Debit(l, scale),
                                                  current.credit + Credit(l, scale))], lines + [l], scale)
  {
    hide Debit, Credit;
    assert (lines + [l])[..|lines|] == lines;
    assert forall m :: m in lines + [l] <==> m in lines || m == l;
  }

  lemma TotalsDecide(totals: map<string, Totals>, lines: seq<Line>, scale: nat)
    requires AreTotals(totals, lines, scale)
    ensures Balanced(lines, scale) <==> forall c <- totals :: totals[c].debit == totals[c].credit
  {
    hide DebitIn, CreditIn;
    if forall c <- totals :: totals[c].debit == totals[c].credit {
      forall l | l in lines ensures DebitIn(lines, l.currency, scale) == CreditIn(lines, l.currency, scale) {
        assert l.currency in totals;
      }
    }
  }

  /** The check line by line, with running totals per currency. */
  method AssertBalancedJournal(lines: seq<Line>, scale: nat) returns (error: Option<JournalError>)
    ensures error == Check(lines, scale)
  {
    hide FirstError, AreTotals, Balanced, M.Parse;
    if |lines| < 2 { return Some(TooFewLines); }
    var totals: map<string, Totals> := map[];
    NoTotals(scale);
    for i := 0 to |lines|
      invariant FirstError(lines[..i], scale).None?
      invariant AreTotals(totals, lines[..i], scale)
    {
      var l := lines[i];
      assert lines[..i+1] == lines[..i] + [l];
      FirstErrorAt(lines, i, scale);
      FirstErrorExtend(lines[..i], l, scale);
      TotalsExtend(totals, lines[..i], l, scale);
      if !ValidAccount(l.accountCode) { return Some(InvalidAccount); }
      var debit := M.Parse(l.debit, l.currency, scale);
      if debit.Err? { return Some(NotMoney(debit.error)); }
      var credit := M.Parse(l.credit, l.currency, scale);
      if credit.Err? { return Some(NotMoney(credit.error)); }
      if (debit.value.minorUnits > 0) == (credit.value.minorUnits > 0) { return Some(NotOnePositiveSide); }
      var current := if l.currency in totals then totals[l.currency] else Totals(0, 0);
      totals := totals[l.currency := Totals(current.debit + debit.value.minorUnits,
                                            current.credit + credit.value.minorUnits)];
    }
    assert lines[..|lines|] == lines;
    TotalsDecide(totals, lines, scale);
    if exists c :: c in totals && totals[c].debit != totals[c].credit { return Some(NotBalanced); }
    error := None;
  }

  lemma NoTotals(scale: nat)
    ensures AreTotals(map[], [], scale) && FirstError([], scale).None?
  {}

  /** The first error of the lines is that of line i when there is none before it. */
  lemma FirstErrorAt(lines: seq<Line>, i: nat, scale: nat)
    requires i < |lines| && FirstError(lines[..i], scale).None?
    ensures LineError(lines[i], scale).Some? ==> FirstError(lines, scale) == LineError(lines[i], scale)
  {
    FirstErrorPrefix(lines, i, scale);
    assert lines[i..][0] == lines[i];
  }

  // ----- Reversal -----

  function Swapped(l: Line): Line { l.(debit := l.credit, credit := l.debit) }

  function SwappedAll(lines: seq<Line>): (r: seq<Line>)
    ensures |r| == |lines| && forall i :: 0 <= i < |r| ==> r[i] == Swapped(lines[i])
  {
    seq(|lines|, i requires 0 <= i < |lines| => Swapped(lines[i]))
  }

  function ReverseJournalLines(lines: seq<Line>, scale: nat): Result<seq<Line>, JournalError> {
    if Check(lines, scale).Some? then Err(Check(lines, scale).value)
    else if Check(SwappedAll(lines), scale).Some? then Err(Check(SwappedAll(lines), scale).value)
    else Ok(SwappedAll(lines))
  }

  lemma {:induction false} SwappedErrors(lines: seq<Line>, scale: nat)
    requires FirstError(lines, scale).None?
    ensures FirstError(SwappedAll(lines), scale).None?
  {
    if lines != [] {
      assert SwappedAll(lines)[1..] == SwappedAll(lines[1..]);
      SwappedErrors(lines[1..], scale);
    }
  }

  lemma {:induction false} SwappedTotals(lines: seq<Line>, currency: string, scale: nat)
    ensures DebitIn(SwappedAll(lines), currency, scale) == CreditIn(lines, currency, scale)
    ensures CreditIn(SwappedAll(lines), currency, scale) == DebitIn(lines, currency, scale)
  {
    if lines != [] {
      assert SwappedAll(lines)[..|lines|-1] == SwappedAll(lines[..|lines|-1]);
      SwappedTotals(lines[..|lines|-1], currency, scale);
    }
  }

  /** A journal that passes the check can always be reversed, and reversing twice gives it back. */
  lemma ReversalIsInvolution(lines: seq<Line>, scale: nat)
    requires Check(lines, scale).None?
    ensures ReverseJournalLines(lines, scale) == Ok(SwappedAll(lines))
    ensures ReverseJournalLines(SwappedAll(lines), scale) == Ok(lines)
  {
    SwappedErrors(lines, scale);
    var r := SwappedAll(lines);
    forall l | l in r ensures DebitIn(r, l.currency, scale) == CreditIn(r, l.currency, scale) {
      var i :| 0 <= i < |r| && r[i] == l;
      assert lines[i] in lines;
      SwappedTotals(lines, l.currency, scale);
    }
    assert SwappedAll(r) == lines;
  }

  /** Credit minus debit of one account in one currency. */
  function Net(lines: seq<Line>, account: string, currency: string, scale: nat): int {
    if lines == [] then 0 else
      (if lines[0].accountCode == account && lines[0].currency == currency then
       Credit(lines[0], scale) - Debit(lines[0], scale) else 0)
      + Net(lines[1..], account, currency, scale)
  }

  lemma {:induction false} NetConcat(a: seq<Line>, b: seq<Line>, account: string, currency: string, scale: nat)
    ensures Net(a + b, account, currency, scale) == Net(a, account, currency, scale) + Net(b, account, currency, scale)
  {
    if a == [] {
      assert a + b == b;
    } else {
      assert (a + b)[1..] == a[1..] + b;
      NetConcat(a[1..], b, account, currency, scale);
    }
  }

  lemma {:induction false} SwappedNet(lines: seq<Line>, account: string, currency: string, scale: nat)
    ensures Net(SwappedAll(lines), account, currency, scale) == 0 - Net(lines, account, currency, scale)
  {
    if lines != [] {
      assert SwappedAll(lines)[1..] == SwappedAll(lines[1..]);
      SwappedNet(lines[1..], account, currency, scale);
    }
  }

  /** A journal and its reversal cancel on every account and currency. */
  lemma ReversalCancels(lines: seq<Line>, account: string, currency: string, scale: nat)
    ensures Net(lines + SwappedAll(lines), account, currency, scale) == 0
  {
    NetConcat(lines, SwappedAll(lines), account, currency, scale);
    SwappedNet(lines, account, currency, scale);
  }

  // ----- What the columns of a line admit -----

  /** The constraints of the table of lines: no negative side, one side positive and the other zero. */
  predicate ColumnsAdmit(l: Line, scale: nat) {
    && Debit(l, scale) >= 0 && Credit(l, scale) >= 0
    && ((Debit(l, scale) > 0 && Credit(l, scale) == 0) || (Credit(l, scale) > 0 && Debit(l, scale) == 0))
  }

  /** A text that writes a negative number: a minus sign, and a digit that is not zero. */
  predicate WritesNegative(amount: string) {
    amount != [] && amount[0] == '-' && exists i :: 0 < i < |amount| && '1' <= amount[i] <= '9'
  }

  predicate HasDigit(s: string) { exists i :: 0 <= i < |s| && '1' <= s[i] <= '9' }

  lemma {:induction false} PositiveDigits(s: string)
    requires AllDigits(s)
    ensures Value(s) > 0 <==> HasDigit(s)
  {
    if s != [] {
      var front := s[..|s|-1];
      PositiveDigits(front);
      if i :| 0 <= i < |s| && '1' <= s[i] <= '9' {
        assert i < |front| ==> front[i] == s[i];
      }
      if i :| 0 <= i < |front| && '1' <= front[i] <= '9' { assert s[i] == front[i]; }
      assert Value(s) > 0 && Value(front) == 0 ==> '1' <= s[|s|-1] <= '9';
    }
  }

  /** The sign of a parsed amount can be read off its text. */
  lemma NegativeIsWritten(amount: string, currency: string, scale: nat)
    requires M.Parse(amount, currency, scale).Ok?
    ensures UnitsIn(amount, currency, scale) < 0 <==> WritesNegative(amount)
  {
    hide Value, Written, PadEnd, WritesNegative, HasDigit, WellFormed;
    var m := MatchDecimal(amount).value;
    var digits := m.whole + PadEnd(m.fraction, scale);
    WrittenMatch(amount);
    PositiveDigits(digits);
    WrittenDigits(m, scale);
  }

  /** The texts and the digits of a match that is written with a minus sign, or without. */
  lemma WrittenDigits(m: Match, k: nat)
    requires WellFormed(m) && |m.fraction| <= k
    ensures WritesNegative(Written(m)) <==> m.negative && HasDigit(m.whole + PadEnd(m.fraction, k))
  {
    if m.negative {
      DigitsAreWritten(m, k);
      WrittenAreDigits(m, k);
    }
  }

  lemma DigitsAreWritten(m: Match, k: nat)
    requires WellFormed(m) && |m.fraction| <= k && m.negative
    ensures HasDigit(m.whole + PadEnd(m.fraction, k)) ==> WritesNegative(Written(m))
  {
    var amount, digits := Written(m), m.whole + PadEnd(m.fraction, k);
    if i :| 0 <= i < |digits| && '1' <= digits[i] <= '9' {
      assert i < |m.whole| + |m.fraction|;
      assert amount[if i < |m.whole| then i + 1 else i + 2] == digits[i];
    }
  }

  lemma WrittenAreDigits(m: Match, k: nat)
    requires WellFormed(m) && |m.fraction| <= k && m.negative
    ensures WritesNegative(Written(m)) ==> HasDigit(m.whole + PadEnd(m.fraction, k))
  {
    var amount, digits := Written(m), m.whole + PadEnd(m.fraction, k);
    if j :| 0 < j < |amount| && '1' <= amount[j] <= '9' {
      assert digits[if j <= |m.whole| then j - 1 else j - 2] == amount[j];
    }
  }

  lemma {:induction false} NoErrorInAny(lines: seq<Line>, scale: nat)
    ensures FirstError(lines, scale).None? <==> forall l <- lines :: LineError(l, scale).None?
  {
    if lines != [] {
      NoErrorInAny(lines[1..], scale);
      assert lines[0] in lines && forall l <- lines :: l == lines[0] || l in lines[1..];
    }
  }

  /** The columns admit the lines of an accepted journal if and only if none of its texts writes a negative
      number. */
  lemma ColumnsAdmitExactly(lines: seq<Line>, scale: nat)
    requires Check(lines, scale).None?
    ensures (forall l <- lines :: ColumnsAdmit(l, scale))
            <==> (forall l <- lines :: !WritesNegative(l.debit) && !WritesNegative(l.credit))
  {
    hide M.Parse, WritesNegative;
    NoErrorInAny(lines, scale);
    forall l | l in lines
      ensures ColumnsAdmit(l, scale) <==> !WritesNegative(l.debit) && !WritesNegative(l.credit)
    {
      NegativeIsWritten(l.debit, l.currency, scale);
      NegativeIsWritten(l.credit, l.currency, scale);
    }
  }

  /** The check accepts a journal that those columns refuse. */
  lemma NegativeSidesAreAccepted(scale: nat)
    requires scale <= M.MAX_SCALE
    ensures var lines := [Line("AA", "EUR", "1", "-1"), Line("BB", "EUR", "-1", "1")];
            Check(lines, scale).None? && forall l <- lines :: !ColumnsAdmit(l, scale)
  {
    hide Value, Pow10;
    var first, second := Line("AA", "EUR", "1", "-1"), Line("BB", "EUR", "-1", "1");
    MatchWritten(Match(false, "1", ""));
    MatchWritten(Match(true, "1", ""));
    assert Written(Match(false, "1", "")) == "1" && Written(Match(true, "1", "")) == "-1";
    assert ("1" + PadEnd("", scale))[0] == '1';
    PositiveDigits("1" + PadEnd("", scale));
    OppositePair(first, second, scale);
  }

  lemma OppositePair(a: Line, b: Line, scale: nat)
    requires LineError(a, scale).None? && LineError(b, scale).None? && a.currency == b.currency
    requires Debit(a, scale) == Credit(b, scale) && Credit(a, scale) == Debit(b, scale)
    ensures Check([a, b], scale).None?
  {
    hide LineError, Debit, Credit, DebitIn, CreditIn, FirstError, M.Parse;
    var none: seq<Line>, c := [], a.currency;
    NoLines(c, scale);
    NextLine(none, a, c, scale);
    NextLine([a], b, c, scale);
    assert none + [a] == [a] && [a] + [b] == [a, b];
    FirstErrorExtend(none, a, scale);
    FirstErrorExtend([a], b, scale);
    OneCurrency([a, b], c, scale);
  }

  lemma NoLines(currency: string, scale: nat)
    ensures DebitIn([], currency, scale) == 0 == CreditIn([], currency, scale) && FirstError([], scale).None?
  {}

  lemma OneCurrency(lines: seq<Line>, currency: string, scale: nat)
    requires forall l <- lines :: l.currency == currency
    requires DebitIn(lines, currency, scale) == CreditIn(lines, currency, scale)
    ensures Balanced(lines, scale)
  {
    hide DebitIn, CreditIn;
  }

  lemma NextLine(front: seq<Line>, l: Line, currency: string, scale: nat)
    ensures DebitIn(front + [l], currency, scale)
            == DebitIn(front, currency, scale) + if l.currency == currency then Debit(l, scale) else 0
    ensures CreditIn(front + [l], currency, scale)
            == CreditIn(front, currency, scale) + if l.currency == currency then Credit(l, scale) else 0
  {
    hide Debit, Credit;
    assert (front + [l])[..|front|] == front;
  }

  // ----- When the check accepts -----

  predicate IsAmount(amount: string, scale: nat) {
    MatchDecimal(amount).Some? && |MatchDecimal(amount).value.fraction| <= scale
  }

  /** A text that writes a positive number: no minus sign, and a digit that is not zero. */
  predicate WritesPositive(amount: string) { amount != [] && amount[0] != '-' && HasDigit(amount) }

  lemma PositiveIsWritten(amount: string, currency: string, scale: nat)
    requires M.Parse(amount, currency, scale).Ok?
    ensures UnitsIn(amount, currency, scale) > 0 <==> WritesPositive(amount)
  {
    hide Value, Written, PadEnd, WritesPositive, HasDigit, WellFormed;
    var m := MatchDecimal(amount).value;
    WrittenMatch(amount);
    PositiveDigits(m.whole + PadEnd(m.fraction, scale));
    PositiveWritten(m, scale);
  }

  lemma PositiveWritten(m: Match, k: nat)
    requires WellFormed(m) && |m.fraction| <= k
    ensures WritesPositive(Written(m)) <==> !m.negative && HasDigit(m.whole + PadEnd(m.fraction, k))
  {
    var amount, digits := Written(m), m.whole + PadEnd(m.fraction, k);
    if !m.negative {
      if i :| 0 <= i < |digits| && '1' <= digits[i] <= '9' {
        assert i < |m.whole| + |m.fraction|;
        assert amount[if i < |m.whole| then i else i + 1] == digits[i];
      }
      if j :| 0 <= j < |amount| && '1' <= amount[j] <= '9' {
        assert digits[if j < |m.whole| then j else j - 1] == amount[j];
      }
    }
  }

  /** The form of a line: an account code of 2 to 128 characters of the ledger's alphabet, a currency of three
      capitals, two amounts of at most so many fraction digits, and one of them positive. */
  predicate IsLine(l: Line, scale: nat) {
    && 2 <= |l.accountCode| <= 128
    && (forall c <- l.accountCode :: 'A' <= c <= 'Z' || '0' <= c <= '9' || c in "abcdef:_-")
    && |l.currency| == 3 && (forall c <- l.currency :: 'A' <= c <= 'Z')
    && IsAmount(l.debit, scale) && IsAmount(l.credit, scale)
    && WritesPositive(l.debit) != WritesPositive(l.credit)
  }

  lemma LineIsGoodExactly(l: Line, scale: nat)
    ensures LineError(l, scale).None? <==> scale <= 12 && IsLine(l, scale)
  {
    hide MatchDecimal, WritesPositive, DecimalText.Units;
    CurrencyForm(l.currency);
    if M.Parse(l.debit, l.currency, scale).Ok? { PositiveIsWritten(l.debit, l.currency, scale); }
    if M.Parse(l.credit, l.currency, scale).Ok? { PositiveIsWritten(l.credit, l.currency, scale); }
  }

  lemma CurrencyForm(currency: string)
    ensures M.ValidCurrency(currency) <==> |currency| == 3 && forall c <- currency :: 'A' <= c <= 'Z'
  {
    if |currency| == 3 && forall c <- currency :: 'A' <= c <= 'Z' {
      assert currency[0] in currency && currency[1] in currency && currency[2] in currency;
    }
  }

  /** What a line debits, and credits, in one currency. */
  function DebitOf(currency: string, scale: nat): Line -> int {
    (l: Line) => if l.currency == currency then UnitsIn(l.debit, currency, scale) else 0
  }

  function CreditOf(currency: string, scale: nat): Line -> int {
    (l: Line) => if l.currency == currency then UnitsIn(l.credit, currency, scale) else 0
  }

  lemma {:induction false} TotalsAreSums(lines: seq<Line>, currency: string, scale: nat)
    ensures DebitIn(lines, currency, scale) == SumBy(DebitOf(currency, scale), lines)
    ensures CreditIn(lines, currency, scale) == SumBy(CreditOf(currency, scale), lines)
  {
    hide UnitsIn;
    if lines != [] {
      var front, l := lines[..|lines|-1], lines[|lines|-1];
      assert lines == front + [l];
      TotalsAreSums(front, currency, scale);
      SumByConcat(DebitOf(currency, scale), front, [l]);
      SumByConcat(CreditOf(currency, scale), front, [l]);
      assert SumBy(DebitOf(currency, scale), [l]) == DebitOf(currency, scale)(l);
      assert SumBy(CreditOf(currency, scale), [l]) == CreditOf(currency, scale)(l);
    }
  }

  /** A journal is accepted if and only if it has two lines, every line has its form, and in every currency the
      debits and the credits add up to the same amount. */
  lemma CheckAcceptsExactly(lines: seq<Line>, scale: nat)
    ensures Check(lines, scale).None? <==>
            && |lines| >= 2 && scale <= 12 && (forall l <- lines :: IsLine(l, scale))
            && forall currency :: Even(lines, currency, scale)
  {
    hide LineError, IsLine, Even, DebitIn, CreditIn, FirstError, Balanced;
    BalancedEverywhere(lines, scale);
    NoErrorInAny(lines, scale);
    forall l | l in lines ensures LineError(l, scale).None? <==> scale <= 12 && IsLine(l, scale) {
      LineIsGoodExactly(l, scale);
    }
    assert |lines| >= 2 ==> lines[0] in lines;
  }

  /** Both sides of one currency add up to the same amount. */
  predicate Even(lines: seq<Line>, currency: string, scale: nat) {
    SumBy(DebitOf(currency, scale), lines) == SumBy(CreditOf(currency, scale), lines)
  }

  /** A refused journal is refused for a reason that holds: too few lines, a currency that is not even, or a line
      with a bad account code, a text that is not an amount of its currency, or not exactly one positive side. */
  lemma CheckRefusalsHold(lines: seq<Line>, scale: nat)
    requires Check(lines, scale).Some?
    ensures match Check(lines, scale).value
            case TooFewLines => |lines| < 2
            case InvalidAccount => exists l :: l in lines && !ValidAccount(l.accountCode)
            case NotMoney(e) =>
              exists l :: l in lines && (M.Parse(l.debit, l.currency, scale) == Err(e)
                                         || M.Parse(l.credit, l.currency, scale) == Err(e))
            case NotOnePositiveSide => exists l :: l in lines && WritesPositive(l.debit) == WritesPositive(l.credit)
            case NotBalanced => exists currency :: !Even(lines, currency, scale)
            case CurrencyDiffers => false
  {
    hide Even, WritesPositive, M.Parse, Balanced, DebitIn, CreditIn;
    BalancedEverywhere(lines, scale);
    if FirstError(lines, scale).Some? {
      var l := FirstBadLine(lines, scale);
      if M.Parse(l.debit, l.currency, scale).Ok? { PositiveIsWritten(l.debit, l.currency, scale); }
      if M.Parse(l.credit, l.currency, scale).Ok? { PositiveIsWritten(l.credit, l.currency, scale); }
    }
  }

  lemma {:induction false} FirstBadLine(lines: seq<Line>, scale: nat) returns (l: Line)
    requires FirstError(lines, scale).Some?
    ensures l in lines && FirstError(lines, scale) == LineError(l, scale)
  {
    hide LineError;
    if LineError(lines[0], scale).Some? { l := lines[0]; } else { l := FirstBadLine(lines[1..], scale); }
  }

  lemma BalancedEverywhere(lines: seq<Line>, scale: nat)
    ensures Balanced(lines, scale) <==> forall currency :: Even(lines, currency, scale)
  {
    hide DebitIn, CreditIn, Even;
    forall currency ensures Even(lines, currency, scale) <==>
                            DebitIn(lines, currency, scale) == CreditIn(lines, currency, scale) {
      EvenExactly(lines, currency, scale);
    }
    if Balanced(lines, scale) {
      forall currency ensures Even(lines, currency, scale) {
        if forall l <- lines :: l.currency != currency { NothingIn(lines, currency, scale); }
      }
    }
  }

  lemma EvenExactly(lines: seq<Line>, currency: string, scale: nat)
    ensures Even(lines, currency, scale) <==> DebitIn(lines, currency, scale) == CreditIn(lines, currency, scale)
  {
    hide DebitOf, CreditOf;
    TotalsAreSums(lines, currency, scale);
  }

  lemma {:induction false} NothingIn(lines: seq<Line>, currency: string, scale: nat)
    requires forall l <- lines :: l.currency != currency
    ensures DebitIn(lines, currency, scale) == 0 == CreditIn(lines, currency, scale)
  {
    if lines != [] {
      var front, l := lines[..|lines|-1], lines[|lines|-1];
      assert l in lines && forall k <- front :: k in lines;
      NothingIn(front, currency, scale);
    }
  }

  // ----- The journal of an allocation -----

  const POOL := "POOL:DISTRIBUTABLE"
  const INVESTMENT := "INVESTMENT:"

  function Absolute(m: M.Money): string {
    if m.minorUnits < 0 then M.ToDecimalString(m.(minorUnits := 0 - m.minorUnits)) else M.ToDecimalString(m)
  }

  function InvestmentLine(a: P.Allocation, profit: bool, absolute: string): Line {
    Line(INVESTMENT + a.participantId, a.currency, if profit then "0" else absolute, if profit then absolute else "0")
  }

  function PoolLine(total: M.Money): Line {
    if total.minorUnits >= 0 then Line(POOL, total.currency, M.ToDecimalString(total), "0")
    else Line(POOL, total.currency, "0", M.ToDecimalString(total.(minorUnits := 0 - total.minorUnits)))
  }

  function InvestmentLines(allocations: seq<P.Allocation>, currency: string, scale: nat, profit: bool)
    : (r: Result<seq<Line>, JournalError>)
    ensures r.Ok? ==> |r.value| == |allocations|
  {
    if allocations == [] then Ok([]) else
      var front, a := allocations[..|allocations|-1], allocations[|allocations|-1];
      var lines :- InvestmentLines(front, currency, scale, profit);
      if a.currency != currency then Err(CurrencyDiffers) else
        match M.Parse(a.amount, currency, scale)
        case Err(e) => Err(NotMoney(e))
        case Ok(amount) => Ok(lines + [InvestmentLine(a, profit, Absolute(amount))])
  }

  function AllocationJournalLines(allocations: seq<P.Allocation>, distributable: string, currency: string, scale: nat)
    : Result<seq<Line>, JournalError>
  {
    match M.Parse(distributable, currency, scale)
    case Err(e) => Err(NotMoney(e))
    case Ok(total) =>
      var rest :- InvestmentLines(allocations, currency, scale, total.minorUnits >= 0);
      var lines := [PoolLine(total)] + rest;
      if Check(lines, scale).Some? then Err(Check(lines, scale).value) else Ok(lines)
  }

  /** The lines are pushed one allocation after the other and checked at the end. */
  method BuildAllocationJournal(allocations: seq<P.Allocation>, distributable: string, currency: string, scale: nat)
    returns (result: Result<seq<Line>, JournalError>)
    ensures result == AllocationJournalLines(allocations, distributable, currency, scale)
  {
    hide Check, M.ToDecimalString, M.Parse;
    var parsed := M.Parse(distributable, currency, scale);
    if parsed.Err? { return Err(NotMoney(parsed.error)); }
    var total := parsed.value;
    var profit := total.minorUnits >= 0;
    var lines := [PoolLine(total)];
    assert allocations[..0] == [] && lines[1..] == [];
    for i := 0 to |allocations|
      invariant |lines| == i + 1 && lines[0] == PoolLine(total)
      invariant InvestmentLines(allocations[..i], currency, scale, profit) == Ok(lines[1..])
    {
      var a := allocations[i];
      assert allocations[..i+1][..i] == allocations[..i];
      if a.currency != currency {
        InvestmentLinesPrefix(allocations, i + 1, currency, scale, profit);
        return Err(CurrencyDiffers);
      }
      var amount := M.Parse(a.amount, currency, scale);
      if amount.Err? {
        InvestmentLinesPrefix(allocations, i + 1, currency, scale, profit);
        return Err(NotMoney(amount.error));
      }
      assert (lines + [InvestmentLine(a, profit, Absolute(amount.value))])[1..] == lines[1..] +
             [InvestmentLine(a, profit, Absolute(amount.value))];
      lines := lines + [InvestmentLine(a, profit, Absolute(amount.value))];
    }
    assert allocations[..|allocations|] == allocations;
    assert lines == [PoolLine(total)] + lines[1..];
    var error := AssertBalancedJournal(lines, scale);
    result := if error.Some? then Err(error.value) else Ok(lines);
  }

  lemma {:induction false} InvestmentLinesPrefix(allocations: seq<P.Allocation>, n: nat, currency: string, scale: nat,
                                                 profit: bool)
    requires n <= |allocations| && InvestmentLines(allocations[..n], currency, scale, profit).Err?
    ensures InvestmentLines(allocations, currency, scale, profit) ==
            Err(InvestmentLines(allocations[..n], currency, scale, profit).error)
    decreases |allocations|
  {
    if n < |allocations| {
      assert allocations[..|allocations|-1][..n] == allocations[..n];
      InvestmentLinesPrefix(allocations[..|allocations|-1], n, currency, scale, profit);
    } else {
      assert allocations[..n] == allocations;
    }
  }
}

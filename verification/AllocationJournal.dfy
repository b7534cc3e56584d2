/** From an allocation to the ledger: when its journal is accepted, and what it adds to the accounts. */
module AllocationJournal {
  import opened Wrappers
  import opened Sums
  import opened Journal
  import M = Money
  import P = ProportionalAllocation
  import L = LargestRemainder
  import D = DecimalText

  function Abs(x: int): nat { if x < 0 then -x else x }

  // ----- One line -----

  lemma PrintedAbsolute(m: M.Money)
    requires P.ValidMoney(m)
    ensures M.Parse(Absolute(m), m.currency, m.scale) == Ok(m.(minorUnits := Abs(m.minorUnits)))
    ensures M.Parse("0", m.currency, m.scale) == Ok(m.(minorUnits := 0))
  {
    M.ParsePrinted(m.(minorUnits := Abs(m.minorUnits)));
    M.ZeroParses(m.currency, m.scale);
  }

  lemma PoolAccount()
    ensures ValidAccount(POOL)
  {}

  lemma PoolLineFacts(total: M.Money)
    requires P.ValidMoney(total)
    ensures var l, s := PoolLine(total), total.scale;
            && (LineError(l, s).None? <==> total.minorUnits != 0) && l.currency == total.currency
            && Debit(l, s) == (if total.minorUnits >= 0 then total.minorUnits else 0)
            && Credit(l, s) == (if total.minorUnits >= 0 then 0 else 0 - total.minorUnits)
  {
    hide M.Parse, M.ToDecimalString;
    PoolAccount();
    PrintedAbsolute(total);
  }

  lemma InvestmentLineFacts(a: P.Allocation, m: M.Money, profit: bool)
    requires P.ValidMoney(m) && a.currency == m.currency
    ensures var l, s := InvestmentLine(a, profit, Absolute(m)), m.scale;
            && (LineError(l, s).None? <==> ValidAccount(INVESTMENT + a.participantId) && m.minorUnits != 0) &&
               l.currency == m.currency
            && Debit(l, s) == (if profit then 0 else Abs(m.minorUnits))
            && Credit(l, s) == (if profit then Abs(m.minorUnits) else 0)
  {
    hide M.Parse, M.ToDecimalString, ValidAccount, Absolute;
    PrintedAbsolute(m);
  }

  predicate NoNegativeSide(l: Line, scale: nat) { Debit(l, scale) >= 0 && Credit(l, scale) >= 0 }

  lemma {:induction false} InvestmentSides(allocations: seq<P.Allocation>, currency: string, scale: nat, profit: bool)
    requires InvestmentLines(allocations, currency, scale, profit).Ok?
    ensures forall l <- InvestmentLines(allocations, currency, scale, profit).value :: NoNegativeSide(l, scale)
  {
    hide M.Parse, M.ToDecimalString, LineError, Debit, Credit, Absolute, InvestmentLine;
    if allocations != [] {
      var front, a := allocations[..|allocations|-1], allocations[|allocations|-1];
      InvestmentSides(front, currency, scale, profit);
      ParsedMoney(a.amount, currency, scale);
      InvestmentLineFacts(a, M.Parse(a.amount, currency, scale).value, profit);
    }
  }

  /** The columns admit every journal built from an allocation, and its reversal. */
  lemma BuiltJournalsAreAdmitted(allocations: seq<P.Allocation>, distributable: string, currency: string, scale: nat)
    requires AllocationJournalLines(allocations, distributable, currency, scale).Ok?
    ensures var lines := AllocationJournalLines(allocations, distributable, currency, scale).value;
            && (forall l <- lines :: ColumnsAdmit(l, scale))
            && (forall l <- SwappedAll(lines) :: ColumnsAdmit(l, scale))
  {
    hide M.Parse, M.ToDecimalString, Debit, Credit, Absolute, PoolLine, FirstError, Balanced;
    ParsedMoney(distributable, currency, scale);
    var total := M.Parse(distributable, currency, scale).value;
    PoolLineFacts(total);
    InvestmentSides(allocations, currency, scale, total.minorUnits >= 0);
    var lines := AllocationJournalLines(allocations, distributable, currency, scale).value;
    NoErrorInAny(lines, scale);
    forall l | l in lines ensures ColumnsAdmit(l, scale) { assert LineError(l, scale).None?; }
    forall l | l in SwappedAll(lines) ensures ColumnsAdmit(l, scale) {
      var i :| 0 <= i < |lines| && SwappedAll(lines)[i] == l;
      assert ColumnsAdmit(lines[i], scale) && l == Swapped(lines[i]);
      SwappedColumns(lines[i], scale);
    }
  }

  lemma SwappedColumns(l: Line, scale: nat)
    ensures ColumnsAdmit(Swapped(l), scale) <==> ColumnsAdmit(l, scale)
  {}

  // ----- All lines -----

  /** The allocations carry readable amounts of this currency, for participants with account codes. */
  ghost predicate Readable(allocations: seq<P.Allocation>, currency: string, scale: nat) {
    forall a <- allocations :: a.currency == currency && M.Parse(a.amount, currency, scale).Ok? &&
      ValidAccount(INVESTMENT + a.participantId)
  }

  function Units(a: P.Allocation, scale: nat): int { UnitsIn(a.amount, a.currency, scale) }

  function AbsSum(allocations: seq<P.Allocation>, scale: nat): nat {
    if allocations == [] then 0
    else AbsSum(allocations[..|allocations|-1], scale) + Abs(Units(allocations[|allocations|-1], scale))
  }

  lemma ParsedMoney(amount: string, currency: string, scale: nat)
    requires M.Parse(amount, currency, scale).Ok?
    ensures M.Parse(amount, currency, scale).value == M.Money(currency, UnitsIn(amount, currency, scale), scale)
    ensures P.ValidMoney(M.Parse(amount, currency, scale).value)
  {}

  ghost predicate InvestmentFacts(lines: seq<Line>, allocations: seq<P.Allocation>, currency: string, scale: nat,
                                  profit: bool) {
    && |lines| == |allocations|
    && (forall i :: 0 <= i < |lines| ==> (lines[i].currency == currency
          && lines[i].accountCode == INVESTMENT + allocations[i].participantId
          && (LineError(lines[i], scale).None? <==> Units(allocations[i], scale) != 0)))
    && DebitIn(lines, currency, scale) == (if profit then 0 else AbsSum(allocations, scale))
    && CreditIn(lines, currency, scale) == (if profit then AbsSum(allocations, scale) else 0)
  }

  lemma {:induction false} InvestmentFactsStep(before: seq<Line>, front: seq<P.Allocation>, l: Line, a: P.Allocation,
                                               currency: string, scale: nat, profit: bool)
    requires InvestmentFacts(before, front, currency, scale, profit)
    requires l.currency == currency && l.accountCode == INVESTMENT + a.participantId
    requires LineError(l, scale).None? <==> Units(a, scale) != 0
    requires Debit(l, scale) == (if profit then 0 else Abs(Units(a, scale))) &&
             Credit(l, scale) == (if profit then Abs(Units(a, scale)) else 0)
    ensures InvestmentFacts(before + [l], front + [a], currency, scale, profit)
  {
    hide LineError, Debit, Credit, Units;
    assert (before + [l])[..|before|] == before && (front + [a])[..|front|] == front;
  }

  lemma {:induction false} InvestmentLinesStep(front: seq<P.Allocation>, a: P.Allocation, currency: string,
                                               scale: nat, profit: bool)
    requires InvestmentLines(front, currency, scale, profit).Ok?
    requires a.currency == currency && M.Parse(a.amount, currency, scale).Ok?
    ensures InvestmentLines(front + [a], currency, scale, profit)
            == Ok(InvestmentLines(front, currency, scale, profit).value
                  + [InvestmentLine(a, profit, Absolute(M.Parse(a.amount, currency, scale).value))])
  {
    hide M.Parse, Absolute, InvestmentLine;
    assert (front + [a])[..|front|] == front;
  }

  lemma {:induction false} NoInvestments(currency: string, scale: nat, profit: bool)
    ensures InvestmentLines([], currency, scale, profit) == Ok([])
    ensures InvestmentFacts([], [], currency, scale, profit)
  {}

  lemma {:induction false} InvestmentLinesFacts(allocations: seq<P.Allocation>, currency: string, scale: nat,
                                                profit: bool)
    requires Readable(allocations, currency, scale)
    ensures InvestmentLines(allocations, currency, scale, profit).Ok?
    ensures InvestmentFacts(InvestmentLines(allocations, currency, scale, profit).value, allocations, currency, scale,
                            profit)
  {
    hide InvestmentLines, InvestmentFacts, M.Parse, ValidAccount, Absolute, LineError, Debit, Credit, Abs;
    if allocations != [] {
      var front, a := allocations[..|allocations|-1], allocations[|allocations|-1];
      assert a in allocations && forall b <- front :: b in allocations;
      InvestmentLinesFacts(front, currency, scale, profit);
      InvestmentLinesStep(front, a, currency, scale, profit);
      ParsedMoney(a.amount, currency, scale);
      var m := M.Parse(a.amount, currency, scale).value;
      InvestmentLineFacts(a, m, profit);
      InvestmentFactsStep(InvestmentLines(front, currency, scale, profit).value, front,
                          InvestmentLine(a, profit, Absolute(m)), a, currency, scale, profit);
      assert front + [a] == allocations;
    } else {
      NoInvestments(currency, scale, profit);
    }
  }

  lemma {:induction false} TotalsOfJournal(l: Line, rest: seq<Line>, currency: string, scale: nat)
    requires l.currency == currency
    ensures DebitIn([l] + rest, currency, scale) == Debit(l, scale) + DebitIn(rest, currency, scale)
    ensures CreditIn([l] + rest, currency, scale) == Credit(l, scale) + CreditIn(rest, currency, scale)
  {
    if rest == [] {
      assert [l] + rest == [l];
    } else {
      assert ([l] + rest)[..|rest|] == [l] + rest[..|rest|-1];
      TotalsOfJournal(l, rest[..|rest|-1], currency, scale);
    }
  }

  /** The pool line against the investment lines: the two sides are equal when the magnitudes add up. */
  lemma JournalBalances(total: M.Money, allocations: seq<P.Allocation>, rest: seq<Line>)
    requires P.ValidMoney(total) && AbsSum(allocations, total.scale) == Abs(total.minorUnits)
    requires InvestmentFacts(rest, allocations, total.currency, total.scale, total.minorUnits >= 0)
    ensures Balanced([PoolLine(total)] + rest, total.scale)
  {
    hide M.Parse, M.ToDecimalString, LineError, Debit, Credit, PoolLine, Units, AbsSum, DebitIn, CreditIn;
    var lines := [PoolLine(total)] + rest;
    PoolLineFacts(total);
    TotalsOfJournal(PoolLine(total), rest, total.currency, total.scale);
    forall l | l in lines ensures l.currency == total.currency {
      if l != PoolLine(total) {
        var i :| 0 <= i < |rest| && rest[i] == l;
      }
    }
  }

  /** The journal of amounts whose magnitudes add up to the total's is accepted exactly when there is an
      allocation, the total is not zero and no amount is. */
  lemma JournalAccepts(allocations: seq<P.Allocation>, distributable: string, currency: string, scale: nat)
    requires M.Parse(distributable, currency, scale).Ok? && Readable(allocations, currency, scale)
    requires AbsSum(allocations, scale) == Abs(UnitsIn(distributable, currency, scale))
    ensures AllocationJournalLines(allocations, distributable, currency, scale).Ok? <==>
            allocations != [] && UnitsIn(distributable, currency, scale) != 0
            && forall a <- allocations :: Units(a, scale) != 0
  {
    hide M.Parse, M.ToDecimalString, ValidAccount, LineError, PoolLine, FirstError, Units, Balanced, AbsSum, DebitIn,
      CreditIn, Readable, InvestmentLines;
    ParsedMoney(distributable, currency, scale);
    var total := M.Parse(distributable, currency, scale).value;
    PoolLineFacts(total);
    InvestmentLinesFacts(allocations, currency, scale, total.minorUnits >= 0);
    var rest := InvestmentLines(allocations, currency, scale, total.minorUnits >= 0).value;
    JournalBalances(total, allocations, rest);
    var lines := [PoolLine(total)] + rest;
    NoErrorInAny(lines, scale);
    LinesOf(lines, PoolLine(total), rest, allocations, scale);
  }

  lemma LinesOf(lines: seq<Line>, first: Line, rest: seq<Line>, allocations: seq<P.Allocation>, scale: nat)
    requires lines == [first] + rest && |rest| == |allocations|
    requires forall i :: 0 <= i < |rest| ==> (LineError(rest[i], scale).None? <==> Units(allocations[i], scale) != 0)
    ensures (forall l <- lines :: LineError(l, scale).None?) <==>
            LineError(first, scale).None? && forall a <- allocations :: Units(a, scale) != 0
  {
    hide LineError, Units;
    if forall l <- lines :: LineError(l, scale).None? {
      assert first in lines;
      forall a | a in allocations ensures Units(a, scale) != 0 {
        var i :| 0 <= i < |allocations| && allocations[i] == a;
        assert lines[i+1] == rest[i] && rest[i] in lines;
      }
    }
    if LineError(first, scale).None? && forall a <- allocations :: Units(a, scale) != 0 {
      forall l | l in lines ensures LineError(l, scale).None? {
        if l != first {
          var i :| 0 <= i < |rest| && rest[i] == l;
          assert allocations[i] in allocations;
        }
      }
    }
  }

  // ----- The allocator's result -----

  ghost predicate ValidParticipants(ws: seq<P.AllocationWeight>) {
    forall w <- ws :: ValidAccount(INVESTMENT + w.participantId)
  }

  lemma {:induction false} AbsSumOfSigned(allocations: seq<P.Allocation>, m: M.Money)
    requires forall a <- allocations :: a.currency == m.currency && Units(a, m.scale) * P.SignOf(m.minorUnits) >= 0
    ensures AbsSum(allocations, m.scale) == SumBy(P.UnitsOf(m), allocations) * P.SignOf(m.minorUnits)
  {
    hide M.Parse;
    if allocations != [] {
      var front, a := allocations[..|allocations|-1], allocations[|allocations|-1];
      assert allocations == front + [a] && a in allocations && forall b <- front :: b in allocations;
      AbsSumOfSigned(front, m);
      SumByConcat(P.UnitsOf(m), front, [a]);
      assert SumBy(P.UnitsOf(m), [a]) == Units(a, m.scale);
      var x, y, sign := SumBy(P.UnitsOf(m), front), Units(a, m.scale), P.SignOf(m.minorUnits);
      assert (x + y) * sign == x * sign + y * sign;
    }
  }

  lemma AllocatedFacts(d: M.Money, ws: seq<P.AllocationWeight>, i: nat)
    requires P.ValidMoney(d) && P.Outcome(d, ws).Ok? && i < |ws| && ValidParticipants(ws)
    ensures |P.Outcome(d, ws).value| == |ws|
    ensures var a := P.Outcome(d, ws).value[i];
            && a.currency == d.currency && a.participantId == ws[i].participantId
            && M.Parse(a.amount, d.currency, d.scale).Ok? && ValidAccount(INVESTMENT + a.participantId)
            && Units(a, d.scale) * P.SignOf(d.minorUnits) >= 0
  {
    hide M.Parse, M.ToDecimalString, ValidAccount, L.Share;
    P.NormalizedEntries(ws);
    var es := P.Accepted(ws).value;
    P.AllocatedAmount(d, es, es[i]);
    SquareOfSign(L.Share(es, es[i], M.Magnitude(d.minorUnits)), P.SignOf(d.minorUnits));
    assert ws[i] in ws;
  }

  lemma SquareOfSign(share: nat, sign: int)
    requires sign == 1 || sign == -1
    ensures (share * sign) * sign == share
  {}

  /** Journal lines built from an allocator result are accepted exactly when the distributable amount and
      every share of it are different from zero. */
  lemma AllocatorJournalAccepts(d: M.Money, ws: seq<P.AllocationWeight>)
    requires P.ValidMoney(d) && P.Outcome(d, ws).Ok? && ValidParticipants(ws)
    ensures AllocationJournalLines(P.Outcome(d, ws).value, M.ToDecimalString(d), d.currency, d.scale).Ok? <==>
            d.minorUnits != 0 && forall a <- P.Outcome(d, ws).value :: Units(a, d.scale) != 0
  {
    var out := P.Outcome(d, ws).value;
    AllocatorIsReadable(d, ws);
    assert out != [];
    JournalAccepts(out, M.ToDecimalString(d), d.currency, d.scale);
  }

  lemma AllocatorIsReadable(d: M.Money, ws: seq<P.AllocationWeight>)
    requires P.ValidMoney(d) && P.Outcome(d, ws).Ok? && ValidParticipants(ws)
    ensures Readable(P.Outcome(d, ws).value, d.currency, d.scale) && P.Outcome(d, ws).value != []
    ensures M.Parse(M.ToDecimalString(d), d.currency, d.scale) == Ok(d)
    ensures UnitsIn(M.ToDecimalString(d), d.currency, d.scale) == d.minorUnits
    ensures AbsSum(P.Outcome(d, ws).value, d.scale) == Abs(d.minorUnits)
    ensures forall a <- P.Outcome(d, ws).value :: Units(a, d.scale) * P.SignOf(d.minorUnits) >= 0
  {
    hide M.Parse, M.ToDecimalString, ValidAccount, Units;
    var out := P.Outcome(d, ws).value;
    P.NormalizedEntries(ws);
    assert |out| == |ws|;
    forall a | a in out
      ensures a.currency == d.currency && M.Parse(a.amount, d.currency, d.scale).Ok? &&
              ValidAccount(INVESTMENT + a.participantId)
      ensures Units(a, d.scale) * P.SignOf(d.minorUnits) >= 0
    {
      var i :| 0 <= i < |out| && out[i] == a;
      AllocatedFacts(d, ws, i);
    }
    M.ParsePrinted(d);
    P.AmountsSumToDistributable(d, ws);
    AbsSumOfSigned(out, d);
  }

  // ----- What it adds to the accounts -----

  predicate IsInvestment(l: Line) { INVESTMENT <= l.accountCode }

  /** Credit minus debit of the investment accounts in one currency, as the reconciliation sums them. */
  function Subledger(lines: seq<Line>, currency: string, scale: nat): int {
    if lines == [] then 0 else
      var front, l := lines[..|lines|-1], lines[|lines|-1];
      Subledger(front, currency, scale) + if IsInvestment(l) && l.currency == currency then
        Credit(l, scale) - Debit(l, scale) else 0
  }

  lemma {:induction false} SwappedSubledger(lines: seq<Line>, currency: string, scale: nat)
    ensures Subledger(SwappedAll(lines), currency, scale) == 0 - Subledger(lines, currency, scale)
  {
    if lines != [] {
      assert SwappedAll(lines)[..|lines|-1] == SwappedAll(lines[..|lines|-1]);
      SwappedSubledger(lines[..|lines|-1], currency, scale);
    }
  }

  lemma {:induction false} SubledgerOfInvestments(lines: seq<Line>, currency: string, other: string, scale: nat)
    requires forall l <- lines :: IsInvestment(l) && l.currency == currency
    ensures Subledger(lines, other, scale) == if other == currency then
      CreditIn(lines, currency, scale) - DebitIn(lines, currency, scale) else 0
  {
    hide Debit, Credit, IsInvestment;
    if lines != [] {
      var front := lines[..|lines|-1];
      assert lines[|lines|-1] in lines && forall l <- front :: l in lines;
      SubledgerOfInvestments(front, currency, other, scale);
    }
  }

  lemma {:induction false} SubledgerSkips(l: Line, rest: seq<Line>, currency: string, scale: nat)
    requires !IsInvestment(l)
    ensures Subledger([l] + rest, currency, scale) == Subledger(rest, currency, scale)
  {
    if rest == [] {
      assert [l] + rest == [l];
    } else {
      assert ([l] + rest)[..|rest|] == [l] + rest[..|rest|-1];
      SubledgerSkips(l, rest[..|rest|-1], currency, scale);
    }
  }

  lemma {:induction false} JournalAdds(allocations: seq<P.Allocation>, distributable: string, currency: string,
                                       scale: nat, other: string)
    requires Readable(allocations, currency, scale) &&
             AllocationJournalLines(allocations, distributable, currency, scale).Ok?
    ensures M.Parse(distributable, currency, scale).Ok?
    ensures Subledger(AllocationJournalLines(allocations, distributable, currency, scale).value, other, scale) ==
            if other != currency then 0
            else if UnitsIn(distributable, currency, scale) >= 0 then AbsSum(allocations, scale)
            else 0 - AbsSum(allocations, scale)
  {
    hide M.Parse, M.ToDecimalString, ValidAccount, Debit, Credit, Check, LineError, Subledger, DebitIn, CreditIn,
      AbsSum;
    var total := M.Parse(distributable, currency, scale).value;
    var profit := total.minorUnits >= 0;
    InvestmentLinesFacts(allocations, currency, scale, profit);
    var rest := InvestmentLines(allocations, currency, scale, profit).value;
    assert !IsInvestment(PoolLine(total)) by { assert POOL[0] != INVESTMENT[0]; }
    SubledgerSkips(PoolLine(total), rest, other, scale);
    forall l | l in rest ensures IsInvestment(l) && l.currency == currency {
      var i :| 0 <= i < |rest| && rest[i] == l;
      assert l.accountCode == INVESTMENT + allocations[i].participantId;
    }
    SubledgerOfInvestments(rest, currency, other, scale);
  }

  /** The journal of a distribution adds the distributable amount, gain or loss, to the investment
      subledger of its currency, and nothing to any other. */
  lemma AllocatorJournalAdds(d: M.Money, ws: seq<P.AllocationWeight>, currency: string)
    requires P.ValidMoney(d) && P.Outcome(d, ws).Ok? && ValidParticipants(ws)
    requires AllocationJournalLines(P.Outcome(d, ws).value, M.ToDecimalString(d), d.currency, d.scale).Ok?
    ensures Subledger(AllocationJournalLines(P.Outcome(d, ws).value, M.ToDecimalString(d), d.currency, d.scale).value,
                      currency, d.scale)
            == if currency == d.currency then d.minorUnits else 0
  {
    hide M.Parse, M.ToDecimalString, AllocationJournalLines, P.Outcome, Subledger, AbsSum;
    AllocatorIsReadable(d, ws);
    JournalAdds(P.Outcome(d, ws).value, M.ToDecimalString(d), d.currency, d.scale, currency);
  }

  // ----- Account by account -----

  /** What one allocation adds to an account: its amount to the participant's own, nothing to any other. */
  function AddedTo(account: string, scale: nat): P.Allocation -> int {
    (a: P.Allocation) => if account == INVESTMENT + a.participantId then Units(a, scale) else 0
  }

  /** The lines of allocations of one sign add to every account what the allocations do. */
  lemma {:induction false} InvestmentsAdd(allocations: seq<P.Allocation>, currency: string, scale: nat, profit: bool,
                                          account: string)
    requires Readable(allocations, currency, scale)
    requires forall a <- allocations :: if profit then Units(a, scale) >= 0 else Units(a, scale) <= 0
    ensures InvestmentLines(allocations, currency, scale, profit).Ok?
    ensures Net(InvestmentLines(allocations, currency, scale, profit).value, account, currency, scale)
            == SumBy(AddedTo(account, scale), allocations)
  {
    hide M.Parse, ValidAccount, Absolute, Debit, Credit, Units, InvestmentLine, LineError;
    if allocations != [] {
      var front, a := allocations[..|allocations|-1], allocations[|allocations|-1];
      assert a in allocations && forall b <- front :: b in allocations;
      assert front + [a] == allocations;
      InvestmentsAdd(front, currency, scale, profit, account);
      InvestmentLinesStep(front, a, currency, scale, profit);
      var l := InvestmentLine(a, profit, Absolute(M.Parse(a.amount, currency, scale).value));
      InvestmentAdds(a, currency, scale, profit, account);
      NetConcat(InvestmentLines(front, currency, scale, profit).value, [l], account, currency, scale);
      SumByConcat(AddedTo(account, scale), front, [a]);
      assert SumBy(AddedTo(account, scale), [a]) == AddedTo(account, scale)(a);
    }
  }

  lemma InvestmentAdds(a: P.Allocation, currency: string, scale: nat, profit: bool, account: string)
    requires a.currency == currency && M.Parse(a.amount, currency, scale).Ok?
    requires if profit then Units(a, scale) >= 0 else Units(a, scale) <= 0
    ensures Net([InvestmentLine(a, profit, Absolute(M.Parse(a.amount, currency, scale).value))], account, currency,
                scale)
            == AddedTo(account, scale)(a)
  {
    hide M.Parse, Absolute, Debit, Credit, LineError, ValidAccount;
    ParsedMoney(a.amount, currency, scale);
    var m := M.Parse(a.amount, currency, scale).value;
    InvestmentLineFacts(a, m, profit);
    NetOfOne(InvestmentLine(a, profit, Absolute(m)), account, currency, scale);
  }

  lemma NetOfOne(l: Line, account: string, currency: string, scale: nat)
    ensures Net([l], account, currency, scale)
            == if l.accountCode == account && l.currency == currency then Credit(l, scale) - Debit(l, scale) else 0
  {
    hide Debit, Credit;
    assert Net([], account, currency, scale) == 0;
  }

  lemma {:induction false} NobodyOwns(account: string, allocations: seq<P.Allocation>, scale: nat)
    requires forall a <- allocations :: account != INVESTMENT + a.participantId
    ensures SumBy(AddedTo(account, scale), allocations) == 0
  {
    hide Units;
    if allocations != [] {
      assert allocations[0] in allocations && forall a <- allocations[1..] :: a in allocations;
      NobodyOwns(account, allocations[1..], scale);
    }
  }

  /** The participant of one allocation among distinct ones. */
  lemma {:induction false} OnlyOwner(allocations: seq<P.Allocation>, i: nat, scale: nat)
    requires i < |allocations|
    requires forall j, k :: 0 <= j < k < |allocations| ==>
               allocations[j].participantId != allocations[k].participantId
    ensures SumBy(AddedTo(INVESTMENT + allocations[i].participantId, scale), allocations)
            == Units(allocations[i], scale)
  {
    hide Units;
    var owner := allocations[i].participantId;
    SumByRemove(AddedTo(INVESTMENT + owner, scale), allocations, i);
    forall a | a in allocations[..i] + allocations[i+1..] ensures INVESTMENT + owner != INVESTMENT + a.participantId {
      if INVESTMENT + owner == INVESTMENT + a.participantId { SamePrefix(owner, a.participantId); }
    }
    NobodyOwns(INVESTMENT + owner, allocations[..i] + allocations[i+1..], scale);
  }

  lemma SamePrefix(a: string, b: string)
    requires INVESTMENT + a == INVESTMENT + b
    ensures a == b
  {
    assert a == (INVESTMENT + a)[|INVESTMENT|..] && b == (INVESTMENT + b)[|INVESTMENT|..];
  }

  lemma InvestmentIsNotPool(id: string)
    ensures INVESTMENT + id != POOL
  {
    assert (INVESTMENT + id)[0] == 'I' && POOL[0] == 'P';
  }

  /** Account by account, the journal of a distribution credits every participant's own account with exactly its
      allocated amount, or debits it with its loss, debits the pool with the distributable amount, and touches no
      other account. */
  lemma EachAccountGetsItsOwn(d: M.Money, ws: seq<P.AllocationWeight>, i: nat, other: string)
    requires P.ValidMoney(d) && P.Outcome(d, ws).Ok? && ValidParticipants(ws) && i < |ws|
    requires AllocationJournalLines(P.Outcome(d, ws).value, M.ToDecimalString(d), d.currency, d.scale).Ok?
    ensures var lines :=
              AllocationJournalLines(P.Outcome(d, ws).value, M.ToDecimalString(d), d.currency, d.scale).value;
            && |P.Outcome(d, ws).value| == |ws|
            && Net(lines, "INVESTMENT:" + ws[i].participantId, d.currency, d.scale)
               == P.AmountUnits(P.Outcome(d, ws).value[i], d)
            && Net(lines, "POOL:DISTRIBUTABLE", d.currency, d.scale) == 0 - d.minorUnits
            && ((other != "POOL:DISTRIBUTABLE" && forall w <- ws :: other != "INVESTMENT:" + w.participantId) ==>
                  Net(lines, other, d.currency, d.scale) == 0)
  {
    hide M.Parse, M.ToDecimalString, ValidAccount, Debit, Credit, Check, LineError, Units, P.Outcome, Absolute, Net,
      P.AmountUnits;
    var out := P.Outcome(d, ws).value;
    AllocatorIsReadable(d, ws);
    OwnersOfAllocations(d, ws, i);
    NetOfJournal(d, out, INVESTMENT + ws[i].participantId);
    OnlyOwner(out, i, d.scale);
    InvestmentIsNotPool(ws[i].participantId);
    NetOfJournal(d, out, POOL);
    forall a | a in out ensures POOL != INVESTMENT + a.participantId { InvestmentIsNotPool(a.participantId); }
    NobodyOwns(POOL, out, d.scale);
    if other != POOL && forall w <- ws :: other != INVESTMENT + w.participantId {
      NetOfJournal(d, out, other);
      NobodyOwns(other, out, d.scale);
    }
  }

  lemma OwnersOfAllocations(d: M.Money, ws: seq<P.AllocationWeight>, i: nat)
    requires P.ValidMoney(d) && P.Outcome(d, ws).Ok? && i < |ws|
    ensures var out := P.Outcome(d, ws).value;
            && |out| == |ws| && out[i].participantId == ws[i].participantId && out[i].currency == d.currency
            && Units(out[i], d.scale) == P.AmountUnits(out[i], d)
            && (forall j, k :: 0 <= j < k < |out| ==> out[j].participantId != out[k].participantId)
            && (forall a <- out :: exists w :: w in ws && w.participantId == a.participantId)
  {
    hide P.Outcome, Units, P.AmountUnits, P.ReadableWeight, P.GoodWeight;
    P.AcceptsExactly(d, ws);
    var out := P.Outcome(d, ws).value;
    forall j | 0 <= j < |ws| ensures |out| == |ws| && out[j].participantId == ws[j].participantId &&
      out[j].currency == d.currency {
      P.SharesOfTexts(d, ws, j);
    }
    SameUnits(out[i], d);
    forall a | a in out ensures exists w :: w in ws && w.participantId == a.participantId {
      var j :| 0 <= j < |out| && out[j] == a;
      assert ws[j] in ws;
    }
  }

  lemma SameUnits(a: P.Allocation, d: M.Money)
    requires a.currency == d.currency
    ensures Units(a, d.scale) == P.AmountUnits(a, d)
  {
    hide M.Parse;
  }

  /** The pool's line against the allocations, on one account. */
  lemma NetOfJournal(d: M.Money, out: seq<P.Allocation>, account: string)
    requires P.ValidMoney(d) && Readable(out, d.currency, d.scale)
    requires M.Parse(M.ToDecimalString(d), d.currency, d.scale) == Ok(d)
    requires AllocationJournalLines(out, M.ToDecimalString(d), d.currency, d.scale).Ok?
    requires forall a <- out :: Units(a, d.scale) * P.SignOf(d.minorUnits) >= 0
    ensures Net(AllocationJournalLines(out, M.ToDecimalString(d), d.currency, d.scale).value, account, d.currency,
                d.scale)
            == SumBy(AddedTo(account, d.scale), out) - if account == POOL then d.minorUnits else 0
  {
    hide M.Parse, M.ToDecimalString, ValidAccount, Debit, Credit, Check, LineError, Units, Absolute, PoolLine, Net;
    var profit := d.minorUnits >= 0;
    InvestmentsAdd(out, d.currency, d.scale, profit, account);
    var rest := InvestmentLines(out, d.currency, d.scale, profit).value;
    PoolLineFacts(d);
    PoolLineIsPool(d);
    NetOfOne(PoolLine(d), account, d.currency, d.scale);
    NetConcat([PoolLine(d)], rest, account, d.currency, d.scale);
  }

  lemma PoolLineIsPool(d: M.Money)
    ensures PoolLine(d).accountCode == POOL
  {}

  // ----- The scale of stored amounts -----

  const STORED_SCALE: nat := 12

  /** A stored amount always shows twelve fraction digits, so it can be read only at scale twelve: with
      any smaller number of currency fraction digits every posting and every reversal is refused. */
  lemma StoredAmountReads(m: M.Money, scale: nat)
    requires P.ValidMoney(m) && m.scale == STORED_SCALE && scale <= M.MAX_SCALE
    ensures M.Parse(M.ToDecimalString(m), m.currency, scale).Ok? <==> scale == 12
  {
    M.PrintedIsWritten(m);
    D.MatchWritten(M.PrintedMatch(m));
  }
}

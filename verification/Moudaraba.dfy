/** The Moudaraba profit allocation: a profit is split between the investors and the bank, the IRR
    allocation is set aside, and the rest goes to the accounts, directly or category by category, on decimals
    cut to the precision. Two invariant checks end the allocation. */
module Moudaraba {
  import opened Wrappers
  import opened Sums
  import opened Ranking
  import opened Sorting
  import opened DecimalText
  import opened TruncatedDecimals
  import opened RoundedShares

  /** The precision of the engine's decimals. Proofs hold at every positive precision. */
  const PRECISION: nat := 60

  datatype AllocationMethod = FixedCategoryKey | WeightedAverage
  datatype Participant = Participant(accountId: string, categoryId: string, participationBase: string)
  datatype CategoryKey = CategoryKey(categoryId: string, allocationKey: string)
  datatype Input = Input(profit: string, investorNisba: string, bankNisba: string, irr: string,
                         kind: AllocationMethod, participants: seq<Participant>, categoryKeys: seq<CategoryKey>,
                         scale: int)

  datatype Refusal =
    | InvalidScale | NotCanonical | ExceedsScale
    | NoParticipant | DuplicateAccount | NisbaNotOne | IrrExceedsInvestorShare
    | NoWeights | NotANumber
    | KeysRequired | DuplicateCategory | KeysNotOne | MissingKey | KeyWithoutParticipant
    | ConservationViolated | ProfitConservationViolated

  /** One entry of the Map from identifiers to units, in insertion order. */
  datatype Assigned = Assigned(id: string, units: nat)

  datatype Allocation = Allocation(bankShare: nat, investorBeforeIrr: nat, investorAfterIrr: nat,
                                   accounts: seq<Assigned>)

  function UnitsIn(): Assigned -> int {
    (a: Assigned) => a.units
  }

  // ----- Reading -----

  function ParseDecimal(text: string): Result<Decimal, Refusal> {
    match MatchUnsigned(text, false)
    case None => Err(NotCanonical)
    case Some(m) => Ok(Quotient(Value(m.whole + m.fraction) as real, Pow10(|m.fraction|) as real))
  }

  function ParseUnits(text: string, scale: nat): Result<nat, Refusal> {
    match MatchUnsigned(text, false)
    case None => Err(NotCanonical)
    case Some(m) => if |m.fraction| > scale then Err(ExceedsScale) else Ok(Value(m.whole + PadEnd(m.fraction, scale)))
  }

  /** A participant with its basis read. */
  datatype Account = Account(accountId: string, categoryId: string, basis: Decimal)

  function ParseAccounts(ps: seq<Participant>): (r: Result<seq<Account>, Refusal>)
    ensures r.Ok? ==> |r.value| == |ps|
    ensures r.Ok? ==> forall i :: 0 <= i < |ps| ==>
              r.value[i].accountId == ps[i].accountId && r.value[i].categoryId == ps[i].categoryId
              && ParseDecimal(ps[i].participationBase) == Ok(r.value[i].basis)
  {
    if ps == [] then Ok([]) else
      var front :- ParseAccounts(ps[..|ps|-1]);
      var last := ps[|ps|-1];
      var basis :- ParseDecimal(last.participationBase);
      Ok(front + [Account(last.accountId, last.categoryId, basis)])
  }

  function ParseKeys(keys: seq<CategoryKey>): (r: Result<seq<Entry>, Refusal>)
    ensures r.Ok? ==> |r.value| == |keys|
    ensures r.Ok? ==> forall i :: 0 <= i < |keys| ==>
              r.value[i].id == keys[i].categoryId && ParseDecimal(keys[i].allocationKey) == Ok(r.value[i].weight)
  {
    if keys == [] then Ok([]) else
      var front :- ParseKeys(keys[..|keys|-1]);
      var last := keys[|keys|-1];
      var weight :- ParseDecimal(last.allocationKey);
      Ok(front + [Entry(last.categoryId, weight)])
  }

  predicate Unique(ids: seq<string>) {
    forall i, j :: 0 <= i < |ids| && 0 <= j < |ids| ==> ids[i] != [] && (i != j ==> ids[i] != ids[j])
  }

  function AccountIds(ps: seq<Participant>): seq<string> {
    seq(|ps|, i requires 0 <= i < |ps| => ps[i].accountId)
  }

  function CategoryIds(keys: seq<CategoryKey>): seq<string> {
    seq(|keys|, i requires 0 <= i < |keys| => keys[i].categoryId)
  }

  // ----- One apportionment -----

  function Assign(total: nat, es: seq<Entry>, p: nat): (r: seq<Assigned>)
    requires p > 0 && TotalWeight(es, p) > 0.0
    ensures |r| == |es|
  {
    seq(|es|, i requires 0 <= i < |es| => Assigned(es[i].id, Share(es, es[i], total, p)))
  }

  /** A zero total weight passes the positivity guard, which accepts zero, and makes every quotient a NaN
      that cannot become an integer. */
  function UnitsOutcome(total: nat, es: seq<Entry>, p: nat): (r: Result<seq<Assigned>, Refusal>)
    requires p > 0
    ensures r.Ok? <==> TotalWeight(es, p) > 0.0
    ensures r.Ok? ==> r.value == Assign(total, es, p)
  {
    if es == [] then Err(NoWeights)
    else if TotalWeight(es, p) == 0.0 then Err(NotANumber)
    else Ok(Assign(total, es, p))
  }

  method AllocateUnits(total: nat, es: seq<Entry>, p: nat) returns (result: Result<seq<Assigned>, Refusal>)
    requires p > 0 && DistinctIds(es)
    ensures result == UnitsOutcome(total, es, p)
  {
    hide TotalWeight, Share;
    if es == [] { return Err(NoWeights); }
    if TotalWeight(es, p) == 0.0 { return Err(NotANumber); }
    var units := DistributeUnits(es, total, p);
    var out: seq<Assigned> := [];
    for i := 0 to |es|
      invariant |out| == i
      invariant forall j :: 0 <= j < i ==> out[j] == Assigned(es[j].id, Share(es, es[j], total, p))
    {
      out := out + [Assigned(es[i].id, units[es[i].id])];
    }
    assert out == Assign(total, es, p);
    result := Ok(out);
  }

  lemma AssignListed(total: nat, es: seq<Entry>, p: nat)
    requires p > 0 && TotalWeight(es, p) > 0.0
    ensures SumBy(UnitsIn(), Assign(total, es, p)) == SumBy(ShareOf(es, total, p), es)
  {
    hide Share, TotalWeight;
    var shares := seq(|es|, i requires 0 <= i < |es| => Share(es, es[i], total, p) as int);
    SumByListed(UnitsIn(), Assign(total, es, p), shares);
    SumByListed(ShareOf(es, total, p), es, shares);
  }

  lemma AssignConserves(total: nat, es: seq<Entry>, p: nat)
    requires p > 0 && TotalWeight(es, p) > 0.0 && DistinctIds(es)
    ensures SumBy(UnitsIn(), Assign(total, es, p)) == total <==> Residual(es, total, p) >= 0
  {
    hide Assign, TotalWeight, Residual, DistinctIds, ShareOf;
    AssignListed(total, es, p);
    SharesSumToTotal(es, total, p);
  }

  // ----- Categories -----

  function AccountEntries(accounts: seq<Account>): (r: seq<Entry>)
    ensures |r| == |accounts|
  {
    seq(|accounts|, i requires 0 <= i < |accounts| => Entry(accounts[i].accountId, accounts[i].basis))
  }

  function Members(accounts: seq<Account>, category: string): (r: seq<Account>)
    ensures forall a :: a in r <==> a in accounts && a.categoryId == category
    ensures |r| <= |accounts|
  {
    if accounts == [] then [] else
      (if accounts[0].categoryId == category then [accounts[0]] else []) + Members(accounts[1..], category)
  }

  /** The accounts of the first categories, in the order of the keys, from the units of each category. */
  function Gathered(accounts: seq<Account>, categories: seq<Assigned>, p: nat): Result<seq<Assigned>, Refusal>
    requires p > 0
  {
    if categories == [] then Ok([]) else
      var last := categories[|categories|-1];
      var front :- Gathered(accounts, categories[..|categories|-1], p);
      var members := Members(accounts, last.id);
      if members == [] then Ok(front) else
        var shares :- UnitsOutcome(last.units, AccountEntries(members), p);
        Ok(front + shares)
  }

  predicate KnownCategories(accounts: seq<Account>, es: seq<Entry>) {
    forall a <- accounts :: exists e :: e in es && e.id == a.categoryId
  }

  predicate EmptyCategoriesHaveZeroKeys(accounts: seq<Account>, es: seq<Entry>) {
    forall e <- es :: Members(accounts, e.id) == [] ==> e.weight == 0.0
  }

  /** What the categories are refused for before anything is distributed. */
  function KeysRefusal(accounts: seq<Account>, es: seq<Entry>, p: nat): Option<Refusal>
    requires p > 0
  {
    if TotalWeight(es, p) != 1.0 then Some(KeysNotOne)
    else if !KnownCategories(accounts, es) then Some(MissingKey)
    else if !EmptyCategoriesHaveZeroKeys(accounts, es) then Some(KeyWithoutParticipant)
    else None
  }

  function FixedKeyOutcome(total: nat, accounts: seq<Account>, keys: seq<CategoryKey>, p: nat)
    : Result<seq<Assigned>, Refusal>
    requires p > 0
  {
    if keys == [] then Err(KeysRequired)
    else if !Unique(CategoryIds(keys)) then Err(DuplicateCategory)
    else
      var es :- ParseKeys(keys);
      if KeysRefusal(accounts, es, p).Some? then Err(KeysRefusal(accounts, es, p).value)
      else
        var categories :- UnitsOutcome(total, es, p);
        Gathered(accounts, categories, p)
  }

  method AllocateByFixedCategoryKey(total: nat, accounts: seq<Account>, keys: seq<CategoryKey>, p: nat)
    returns (result: Result<seq<Assigned>, Refusal>)
    requires p > 0 && DistinctIds(AccountEntries(accounts))
    ensures result == FixedKeyOutcome(total, accounts, keys, p)
  {
    hide Unique, Members, KnownCategories, EmptyCategoriesHaveZeroKeys, DistinctIds, AccountEntries, TotalWeight,
         Gathered, UnitsOutcome, ParseKeys;
    NoneGathered(accounts, p);
    if keys == [] { return Err(KeysRequired); }
    if !Unique(CategoryIds(keys)) { return Err(DuplicateCategory); }
    var parsed := ParseKeys(keys);
    if parsed.Err? { return Err(parsed.error); }
    var es := parsed.value;
    if TotalWeight(es, p) != 1.0 { return Err(KeysNotOne); }
    if !KnownCategories(accounts, es) { return Err(MissingKey); }
    if !EmptyCategoriesHaveZeroKeys(accounts, es) { return Err(KeyWithoutParticipant); }
    KeysDistinct(keys, es);
    var outcome := AllocateUnits(total, es, p);
    if outcome.Err? { return outcome; }
    var categories := outcome.value;
    var gathered: seq<Assigned> := [];
    assert categories[..0] == [];
    for i := 0 to |categories|
      invariant Gathered(accounts, categories[..i], p) == Ok(gathered)
    {
      GatheredNext(accounts, categories, i, p);
      var members := Members(accounts, categories[i].id);
      if members != [] {
        MembersDistinct(accounts, categories[i].id);
        var shares := AllocateUnits(categories[i].units, AccountEntries(members), p);
        if shares.Err? {
          GatheredPrefix(accounts, categories, i + 1, p);
          return shares;
        }
        gathered := gathered + shares.value;
      }
    }
    assert categories[..|categories|] == categories;
    result := Ok(gathered);
  }

  lemma NoneGathered(accounts: seq<Account>, p: nat)
    requires p > 0
    ensures Gathered(accounts, [], p) == Ok([])
  {}

  /** The accounts of one more category. */
  lemma GatheredNext(accounts: seq<Account>, categories: seq<Assigned>, i: nat, p: nat)
    requires p > 0 && i < |categories| && Gathered(accounts, categories[..i], p).Ok?
    ensures var members := Members(accounts, categories[i].id);
            Gathered(accounts, categories[..i+1], p) ==
            if members == [] then Gathered(accounts, categories[..i], p)
            else
              match UnitsOutcome(categories[i].units, AccountEntries(members), p)
              case Err(e) => Err(e)
              case Ok(shares) => Ok(Gathered(accounts, categories[..i], p).value + shares)
  {
    hide Members, UnitsOutcome;
    assert categories[..i+1][..i] == categories[..i];
  }

  lemma KeysDistinct(keys: seq<CategoryKey>, es: seq<Entry>)
    requires Unique(CategoryIds(keys)) && ParseKeys(keys) == Ok(es)
    ensures DistinctIds(es)
  {
    hide ParseKeys;
    forall i, j | 0 <= i < j < |es| ensures es[i].id != es[j].id {
      assert CategoryIds(keys)[i] != CategoryIds(keys)[j];
    }
  }

  lemma AccountsDistinct(ps: seq<Participant>, accounts: seq<Account>)
    requires Unique(AccountIds(ps)) && ParseAccounts(ps) == Ok(accounts)
    ensures DistinctIds(AccountEntries(accounts))
  {
    hide ParseAccounts;
    forall i, j | 0 <= i < j < |accounts| ensures AccountEntries(accounts)[i].id != AccountEntries(accounts)[j].id {
      assert AccountIds(ps)[i] != AccountIds(ps)[j];
    }
  }

  lemma {:induction false} MembersDistinct(accounts: seq<Account>, category: string)
    requires DistinctIds(AccountEntries(accounts))
    ensures DistinctIds(AccountEntries(Members(accounts, category)))
  {
    hide DistinctIds;
    if accounts != [] {
      DistinctTail(accounts);
      MembersDistinct(accounts[1..], category);
      var rest := Members(accounts[1..], category);
      if accounts[0].categoryId == category {
        DistinctHead(accounts, rest);
        assert Members(accounts, category) == [accounts[0]] + rest;
      } else {
        assert Members(accounts, category) == rest;
      }
    } else {
      assert DistinctIds([]) by { NoIds(); }
    }
  }

  lemma NoIds()
    ensures DistinctIds([])
  {}

  lemma DistinctTail(accounts: seq<Account>)
    requires accounts != [] && DistinctIds(AccountEntries(accounts))
    ensures DistinctIds(AccountEntries(accounts[1..]))
  {
    assert AccountEntries(accounts[1..]) == AccountEntries(accounts)[1..];
  }

  lemma DistinctHead(accounts: seq<Account>, rest: seq<Account>)
    requires accounts != [] && DistinctIds(AccountEntries(accounts)) && DistinctIds(AccountEntries(rest))
    requires forall a <- rest :: a in accounts[1..]
    ensures DistinctIds(AccountEntries([accounts[0]] + rest))
  {
    var all := AccountEntries([accounts[0]] + rest);
    forall j | 0 < j < |all| ensures all[0].id != all[j].id {
      assert rest[j-1] in accounts[1..];
      var k :| 0 <= k < |accounts[1..]| && accounts[1..][k] == rest[j-1];
      assert AccountEntries(accounts)[0].id != AccountEntries(accounts)[k+1].id;
    }
    forall i, j | 0 < i < j < |all| ensures all[i].id != all[j].id {
      assert all[i] == AccountEntries(rest)[i-1] && all[j] == AccountEntries(rest)[j-1];
    }
  }

  lemma {:induction false} GatheredPrefix(accounts: seq<Account>, categories: seq<Assigned>, n: nat, p: nat)
    requires p > 0 && n <= |categories| && Gathered(accounts, categories[..n], p).Err?
    ensures Gathered(accounts, categories, p) == Err(Gathered(accounts, categories[..n], p).error)
    decreases |categories|
  {
    if n < |categories| {
      assert categories[..|categories|-1][..n] == categories[..n];
      GatheredPrefix(accounts, categories[..|categories|-1], n, p);
    } else {
      assert categories[..n] == categories;
    }
  }

  // ----- The whole allocation -----

  function NisbaEntries(investor: Decimal, bank: Decimal): (r: seq<Entry>)
    ensures |r| == 2
  {
    [Entry("INVESTOR", investor), Entry("BANK", bank)]
  }

  function AccountsOutcome(input: Input, accounts: seq<Account>, total: nat, p: nat): Result<seq<Assigned>, Refusal>
    requires p > 0
  {
    match input.kind
    case WeightedAverage => UnitsOutcome(total, AccountEntries(accounts), p)
    case FixedCategoryKey => FixedKeyOutcome(total, accounts, input.categoryKeys, p)
  }

  /** The two invariant checks at the end. */
  function Checked(profit: nat, irr: nat, investor: nat, bank: nat, accounts: seq<Assigned>)
    : Result<Allocation, Refusal>
    requires irr <= investor
  {
    if SumBy(UnitsIn(), accounts) != investor - irr then Err(ConservationViolated)
    else if bank + irr + SumBy(UnitsIn(), accounts) != profit then Err(ProfitConservationViolated)
    else Ok(Allocation(bank, investor, investor - irr, accounts))
  }

  /** The allocation once the amounts and the Nisba are read. */
  function Distributed(input: Input, profit: nat, irr: nat, nisba: seq<Entry>, p: nat): Result<Allocation, Refusal>
    requires p > 0 && |nisba| == 2
  {
    var split :- UnitsOutcome(profit, nisba, p);
    var investor, bank := split[0].units, split[1].units;
    if irr > investor then Err(IrrExceedsInvestorShare) else
      var accounts :- ParseAccounts(input.participants);
      var shares :- AccountsOutcome(input, accounts, investor - irr, p);
      Checked(profit, irr, investor, bank, shares)
  }

  function Outcome(input: Input, p: nat): Result<Allocation, Refusal>
    requires p > 0
  {
    if !(0 <= input.scale <= 12) then Err(InvalidScale)
    else if input.participants == [] then Err(NoParticipant)
    else if !Unique(AccountIds(input.participants)) then Err(DuplicateAccount)
    else
      var profit :- ParseUnits(input.profit, input.scale);
      var irr :- ParseUnits(input.irr, input.scale);
      var investorNisba :- ParseDecimal(input.investorNisba);
      var bankNisba :- ParseDecimal(input.bankNisba);
      if Cut(investorNisba + bankNisba, p) != 1.0 then Err(NisbaNotOne)
      else Distributed(input, profit, irr, NisbaEntries(investorNisba, bankNisba), p)
  }

  method AllocateAccounts(input: Input, accounts: seq<Account>, total: nat, p: nat)
    returns (result: Result<seq<Assigned>, Refusal>)
    requires p > 0 && DistinctIds(AccountEntries(accounts))
    ensures result == AccountsOutcome(input, accounts, total, p)
  {
    match input.kind {
      case WeightedAverage => result := AllocateUnits(total, AccountEntries(accounts), p);
      case FixedCategoryKey => result := AllocateByFixedCategoryKey(total, accounts, input.categoryKeys, p);
    }
  }

  method AllocateMoudarabaProfit(input: Input) returns (result: Result<Allocation, Refusal>)
    ensures result == Outcome(input, 60)
  {
    hide UnitsOutcome, AccountsOutcome, Assign, SumBy, NisbaEntries, AccountEntries, Unique, Cut, ParseDecimal,
         ParseUnits, ParseAccounts, DistinctIds;
    var p := PRECISION;
    if !(0 <= input.scale <= 12) { return Err(InvalidScale); }
    if input.participants == [] { return Err(NoParticipant); }
    if !Unique(AccountIds(input.participants)) { return Err(DuplicateAccount); }
    var profit := ParseUnits(input.profit, input.scale);
    if profit.Err? { return Err(profit.error); }
    var irr := ParseUnits(input.irr, input.scale);
    if irr.Err? { return Err(irr.error); }
    var investorNisba := ParseDecimal(input.investorNisba);
    if investorNisba.Err? { return Err(investorNisba.error); }
    var bankNisba := ParseDecimal(input.bankNisba);
    if bankNisba.Err? { return Err(bankNisba.error); }
    if Cut(investorNisba.value + bankNisba.value, p) != 1.0 { return Err(NisbaNotOne); }
    NisbaDistinct(investorNisba.value, bankNisba.value);
    var split := AllocateUnits(profit.value, NisbaEntries(investorNisba.value, bankNisba.value), p);
    if split.Err? { return Err(split.error); }
    var investor, bank := split.value[0].units, split.value[1].units;
    if irr.value > investor { return Err(IrrExceedsInvestorShare); }
    var accounts := ParseAccounts(input.participants);
    if accounts.Err? { return Err(accounts.error); }
    AccountsDistinct(input.participants, accounts.value);
    var outcome := AllocateAccounts(input, accounts.value, investor - irr.value, p);
    if outcome.Err? { return Err(outcome.error); }
    var allocatedTotal := SumBy(UnitsIn(), outcome.value);
    if allocatedTotal != investor - irr.value { return Err(ConservationViolated); }
    if bank + irr.value + allocatedTotal != profit.value { return Err(ProfitConservationViolated); }
    result := Ok(Allocation(bank, investor, investor - irr.value, outcome.value));
  }

  lemma NisbaDistinct(investor: Decimal, bank: Decimal)
    ensures DistinctIds(NisbaEntries(investor, bank))
  {
    assert "INVESTOR"[0] == 'I' && "BANK"[0] == 'B';
  }

  // ----- Conservation through the levels -----

  /** The units a category lends to its accounts are all passed on. */
  predicate NoDebt(accounts: seq<Account>, c: Assigned, p: nat)
    requires p > 0
  {
    var es := AccountEntries(Members(accounts, c.id));
    TotalWeight(es, p) > 0.0 ==> Residual(es, c.units, p) >= 0
  }

  predicate NoDebts(accounts: seq<Account>, categories: seq<Assigned>, p: nat)
    requires p > 0
  {
    forall c <- categories :: NoDebt(accounts, c, p)
  }

  /** Units of a category that has participants. */
  function PopulatedUnits(accounts: seq<Account>): Assigned -> int {
    (c: Assigned) => if Members(accounts, c.id) == [] then 0 else c.units
  }

  /** Units of a category that has none. */
  function SkippedUnits(accounts: seq<Account>): Assigned -> int {
    (c: Assigned) => if Members(accounts, c.id) == [] then c.units else 0
  }

  /** Each populated category passes its units on, whole, to its own accounts. */
  lemma {:induction false} GatheredConserves(accounts: seq<Account>, categories: seq<Assigned>, p: nat)
    requires p > 0 && DistinctIds(AccountEntries(accounts)) && Gathered(accounts, categories, p).Ok?
    requires NoDebts(accounts, categories, p)
    ensures SumBy(UnitsIn(), Gathered(accounts, categories, p).value) == SumBy(PopulatedUnits(accounts), categories)
  {
    hide Members, UnitsOutcome, AccountEntries, DistinctIds, SumBy, NoDebt;
    if categories != [] {
      var front, last := categories[..|categories|-1], categories[|categories|-1];
      GatheredConserves(accounts, front, p);
      assert categories == front + [last];
      SumByConcat(PopulatedUnits(accounts), front, [last]);
      SumOfOne(PopulatedUnits(accounts), last);
      CategoryConserves(accounts, Gathered(accounts, front, p).value, last, p);
    } else {
      NothingAdds(accounts);
    }
  }

  lemma NothingAdds(accounts: seq<Account>)
    ensures SumBy(UnitsIn(), []) == 0 == SumBy(PopulatedUnits(accounts), [])
  {}

  lemma CategoryConserves(accounts: seq<Account>, front: seq<Assigned>, last: Assigned, p: nat)
    requires p > 0 && DistinctIds(AccountEntries(accounts)) && NoDebt(accounts, last, p)
    ensures var members := Members(accounts, last.id);
            members != [] && UnitsOutcome(last.units, AccountEntries(members), p).Ok? ==>
              SumBy(UnitsIn(), front + UnitsOutcome(last.units, AccountEntries(members), p).value)
              == SumBy(UnitsIn(), front) + last.units
  {
    hide Residual, Assign, SumBy, TotalWeight;
    var es := AccountEntries(Members(accounts, last.id));
    if TotalWeight(es, p) > 0.0 {
      MembersDistinct(accounts, last.id);
      AssignConserves(last.units, es, p);
      SumByConcat(UnitsIn(), front, Assign(last.units, es, p));
    }
  }

  lemma {:induction false} CategoryBlock(accounts: seq<Account>, categories: seq<Assigned>, i: nat, p: nat)
    requires p > 0 && Gathered(accounts, categories, p).Ok? && i < |categories|
    requires Members(accounts, categories[i].id) != []
    ensures Gathered(accounts, categories[..i], p).Ok?
    ensures var es := AccountEntries(Members(accounts, categories[i].id));
            && TotalWeight(es, p) > 0.0
            && Gathered(accounts, categories[..i], p).value + Assign(categories[i].units, es, p)
               <= Gathered(accounts, categories, p).value
    decreases |categories|
  {
    hide Assign, TotalWeight, Members, AccountEntries;
    var front := categories[..|categories|-1];
    if i < |front| {
      assert front[..i] == categories[..i];
      CategoryBlock(accounts, front, i, p);
    } else {
      assert categories[..i] == front;
    }
  }

  /** The accounts of a category stand together in the result, and share exactly its units unless their whole
      units exceed them. */
  lemma CategoryAccountsShareItsUnits(accounts: seq<Account>, categories: seq<Assigned>, i: nat, p: nat)
    requires p > 0 && DistinctIds(AccountEntries(accounts)) && Gathered(accounts, categories, p).Ok?
    requires i < |categories| && Members(accounts, categories[i].id) != []
    ensures Gathered(accounts, categories[..i], p).Ok?
    ensures var start := |Gathered(accounts, categories[..i], p).value|;
            var members := Members(accounts, categories[i].id);
            var whole := Gathered(accounts, categories, p).value;
            && start + |members| <= |whole|
            && (forall k :: 0 <= k < |members| ==> whole[start + k].id == members[k].accountId)
            && (SumBy(UnitsIn(), whole[start..start + |members|]) == categories[i].units
                <==> NoDebt(accounts, categories[i], p))
  {
    hide Gathered, Members, SumBy, TotalWeight, UnitsOutcome, Residual;
    var entries := AccountEntries(Members(accounts, categories[i].id));
    CategoryBlock(accounts, categories, i, p);
    MembersDistinct(accounts, categories[i].id);
    AssignConserves(categories[i].units, entries, p);
    BlockInside(Gathered(accounts, categories[..i], p).value, Assign(categories[i].units, entries, p),
                Gathered(accounts, categories, p).value);
  }

  lemma BlockInside(front: seq<Assigned>, block: seq<Assigned>, whole: seq<Assigned>)
    requires front + block <= whole
    ensures whole[|front|..|front| + |block|] == block
    ensures forall k :: 0 <= k < |block| ==> whole[|front| + k] == block[k]
  {
    assert (front + block)[|front|..] == block;
    forall k | 0 <= k < |block| ensures whole[|front| + k] == block[k] {
      assert (front + block)[|front| + k] == block[k];
    }
  }

  lemma {:induction false} ZeroSum(f: Assigned -> int, s: seq<Assigned>)
    requires forall c <- s :: f(c) >= 0
    ensures SumBy(f, s) >= 0
    ensures SumBy(f, s) == 0 <==> forall c <- s :: f(c) == 0
  {
    if s != [] {
      assert forall c :: c in s <==> c == s[0] || c in s[1..];
      ZeroSum(f, s[1..]);
    }
  }

  lemma SkippedAndPopulated(accounts: seq<Account>, categories: seq<Assigned>)
    ensures SumBy(UnitsIn(), categories)
            == SumBy(PopulatedUnits(accounts), categories) + SumBy(SkippedUnits(accounts), categories)
  {
    hide Members;
    SumByLinear(PopulatedUnits(accounts), SkippedUnits(accounts), UnitsIn(), categories, 1, 1);
  }

  /** No more units are left over than participants precede this one in the priority list. */
  predicate NotReached(es: seq<Entry>, e: Entry, total: nat, p: nat)
    requires p > 0 && TotalWeight(es, p) > 0.0
  {
    Residual(es, total, p) <= Rank(PriorityOrder(total, TotalWeight(es, p), p), es, e)
  }

  /** A category skipped for want of participants holds no unit exactly when the units left over run out
      before it. */
  lemma SkippedCategoryIsEmptyExactly(total: nat, accounts: seq<Account>, es: seq<Entry>, i: nat, p: nat)
    requires p > 0 && TotalWeight(es, p) > 0.0 && i < |es|
    requires EmptyCategoriesHaveZeroKeys(accounts, es) && Members(accounts, es[i].id) == []
    ensures Assign(total, es, p)[i] == Assigned(es[i].id, 0) <==> NotReached(es, es[i], total, p)
  {
    hide Share, Members, TotalWeight, Residual, Rank;
    assert es[i] in es;
    ZeroWeightGetsNothingExactly(es, es[i], total, p);
  }

  /** Every level covers the total; and nothing can be lost with a category, because none is empty or because
      the total, doubled, needs one digit less than the precision. */
  ghost predicate LevelsFit(total: nat, accounts: seq<Account>, es: seq<Entry>, p: nat)
    requires p > 0
  {
    && Covers(total, es, p) && (forall category :: Covers(total, AccountEntries(Members(accounts, category)), p))
    && (2 * total < Pow10(p - 1) || forall e <- es :: Members(accounts, e.id) != [])
  }

  lemma SmallerIsCovered(total: nat, less: nat, es: seq<Entry>, p: nat)
    requires p > 0 && Covers(total, es, p) && less <= total
    ensures Covers(less, es, p)
  {
    assert (less + 1) * |es| <= (total + 1) * |es| by { Grows(less + 1, total + 1, |es|); }
  }

  lemma Grows(a: nat, b: nat, n: nat)
    requires a <= b
    ensures a * n <= b * n
  {}

  lemma {:induction false} PartOfSum(s: seq<Assigned>, c: Assigned)
    requires c in s
    ensures c.units <= SumBy(UnitsIn(), s)
  {
    ZeroSum(UnitsIn(), s[1..]);
    if c != s[0] { PartOfSum(s[1..], c); }
  }

  lemma FittingLeavesNoDebts(total: nat, accounts: seq<Account>, categories: seq<Assigned>, es: seq<Entry>, p: nat)
    requires p > 0 && LevelsFit(total, accounts, es, p) && SumBy(UnitsIn(), categories) == total
    ensures NoDebts(accounts, categories, p)
  {
    hide Covers, Residual, Members, TotalWeight, AccountEntries, SumBy;
    forall c | c in categories ensures NoDebt(accounts, c, p) {
      PartOfSum(categories, c);
      var members := AccountEntries(Members(accounts, c.id));
      SmallerIsCovered(total, c.units, members, p);
      if TotalWeight(members, p) > 0.0 { CoveredLeavesNoDebt(members, c.units, p); }
    }
  }

  /** When no level hands out more than it has, the accounts receive the whole total if and only if the units
      left over by the keys run out before every category that is skipped. */
  lemma FixedKeyConservesExactly(total: nat, accounts: seq<Account>, keys: seq<CategoryKey>, p: nat)
    requires p > 0 && DistinctIds(AccountEntries(accounts)) && FixedKeyOutcome(total, accounts, keys, p).Ok?
    requires var es := ParseKeys(keys).value;
             Residual(es, total, p) >= 0 && NoDebts(accounts, Assign(total, es, p), p)
    ensures var es := ParseKeys(keys).value;
            SumBy(UnitsIn(), FixedKeyOutcome(total, accounts, keys, p).value) == total
            <==> forall i :: 0 <= i < |es| && Members(accounts, es[i].id) == [] ==> NotReached(es, es[i], total, p)
  {
    hide Gathered, ParseKeys, Members, TotalWeight, Residual, NoDebts, SumBy, DistinctIds, AccountEntries, Share,
         KnownCategories, EmptyCategoriesHaveZeroKeys, Unique, NotReached;
    var es := ParseKeys(keys).value;
    var categories, skipped := Assign(total, es, p), SkippedUnits(accounts);
    KeysDistinct(keys, es);
    AssignConserves(total, es, p);
    GatheredConserves(accounts, categories, p);
    SkippedAndPopulated(accounts, categories);
    ZeroSum(skipped, categories);
    forall i | 0 <= i < |es| && Members(accounts, es[i].id) == []
      ensures categories[i] in categories && (skipped(categories[i]) == 0 <==> NotReached(es, es[i], total, p))
    {
      SkippedCategoryIsEmptyExactly(total, accounts, es, i, p);
    }
    if forall i :: 0 <= i < |es| && Members(accounts, es[i].id) == [] ==> NotReached(es, es[i], total, p) {
      forall c | c in categories ensures skipped(c) == 0 {
        var i :| 0 <= i < |categories| && categories[i] == c;
        assert c.id == es[i].id;
      }
    }
  }

  /** A category without participants receives nothing when the total fits. */
  lemma SkippedCategoriesAreEmpty(total: nat, accounts: seq<Account>, es: seq<Entry>, i: nat, p: nat)
    requires p > 0 && TotalWeight(es, p) > 0.0 && i < |es| && Fits(total, es, p)
    requires EmptyCategoriesHaveZeroKeys(accounts, es) && Members(accounts, es[i].id) == []
    ensures Assign(total, es, p)[i] == Assigned(es[i].id, 0) && NotReached(es, es[i], total, p)
  {
    hide Share, Members, TotalWeight, Fits, NotReached;
    assert es[i] in es;
    ZeroWeightGetsNothing(es, es[i], total, p);
    SkippedCategoryIsEmptyExactly(total, accounts, es, i, p);
  }

  /** So the accounts receive the whole total whenever the levels fit it. */
  lemma FixedKeyConserves(total: nat, accounts: seq<Account>, keys: seq<CategoryKey>, p: nat)
    requires p > 0 && DistinctIds(AccountEntries(accounts)) && FixedKeyOutcome(total, accounts, keys, p).Ok?
    requires LevelsFit(total, accounts, ParseKeys(keys).value, p)
    ensures SumBy(UnitsIn(), FixedKeyOutcome(total, accounts, keys, p).value) == total
  {
    hide Gathered, ParseKeys, Members, TotalWeight, Residual, NoDebts, SumBy, DistinctIds, AccountEntries, Share,
         KnownCategories, EmptyCategoriesHaveZeroKeys, Unique, NotReached, Covers, Pow10;
    var es := ParseKeys(keys).value;
    KeysDistinct(keys, es);
    CoveredLeavesNoDebt(es, total, p);
    AssignConserves(total, es, p);
    FittingLeavesNoDebts(total, accounts, Assign(total, es, p), es, p);
    forall i | 0 <= i < |es| && Members(accounts, es[i].id) == [] ensures NotReached(es, es[i], total, p) {
      assert es[i] in es;
      SkippedCategoriesAreEmpty(total, accounts, es, i, p);
    }
    FixedKeyConservesExactly(total, accounts, keys, p);
  }

  /** What the theorem on the profit asks of the decimals that can be read. Where the sums of the weights are
      exact, the weighted average asks for nothing. */
  ghost predicate ProfitFits(input: Input, profit: nat, nisba: seq<Entry>, accounts: seq<Account>, p: nat)
    requires p > 0
  {
    && Covers(profit, nisba, p)
    && match input.kind
       case WeightedAverage => Covers(profit, AccountEntries(accounts), p)
       case FixedCategoryKey =>
         ParseKeys(input.categoryKeys).Ok? ==> LevelsFit(profit, accounts, ParseKeys(input.categoryKeys).value, p)
  }

  ghost predicate InputFits(input: Input, p: nat)
    requires p > 0
  {
    0 <= input.scale && ParseUnits(input.profit, input.scale).Ok? && ParseDecimal(input.investorNisba).Ok?
    && ParseDecimal(input.bankNisba).Ok? && ParseAccounts(input.participants).Ok?
    ==> ProfitFits(input, ParseUnits(input.profit, input.scale).value,
                   NisbaEntries(ParseDecimal(input.investorNisba).value, ParseDecimal(input.bankNisba).value),
                   ParseAccounts(input.participants).value, p)
  }

  lemma AccountsConserve(input: Input, profit: nat, total: nat, nisba: seq<Entry>, accounts: seq<Account>, p: nat)
    requires p > 0 && DistinctIds(AccountEntries(accounts)) && total <= profit
    requires ProfitFits(input, profit, nisba, accounts, p) && AccountsOutcome(input, accounts, total, p).Ok?
    ensures SumBy(UnitsIn(), AccountsOutcome(input, accounts, total, p).value) == total
  {
    hide Covers, Pow10, AccountEntries, DistinctIds, TotalWeight, Residual, Assign, SumBy, Members, ParseKeys;
    match input.kind {
      case WeightedAverage =>
        SmallerIsCovered(profit, total, AccountEntries(accounts), p);
        CoveredLeavesNoDebt(AccountEntries(accounts), total, p);
        AssignConserves(total, AccountEntries(accounts), p);
      case FixedCategoryKey =>
        var es := ParseKeys(input.categoryKeys).value;
        SmallerIsCovered(profit, total, es, p);
        forall category ensures Covers(total, AccountEntries(Members(accounts, category)), p) {
          SmallerIsCovered(profit, total, AccountEntries(Members(accounts, category)), p);
        }
        FixedKeyConserves(total, accounts, input.categoryKeys, p);
    }
  }

  lemma NisbaConserves(profit: nat, investor: Decimal, bank: Decimal, p: nat)
    requires p > 0 && TotalWeight(NisbaEntries(investor, bank), p) > 0.0
    requires Covers(profit, NisbaEntries(investor, bank), p)
    ensures var nisba := Assign(profit, NisbaEntries(investor, bank), p); nisba[0].units + nisba[1].units == profit
  {
    hide Covers, Residual, TotalWeight, Share;
    var es := NisbaEntries(investor, bank);
    NisbaDistinct(investor, bank);
    CoveredLeavesNoDebt(es, profit, p);
    AssignConserves(profit, es, p);
    SumOfTwo(Assign(profit, es, p));
  }

  lemma SumOfTwo(s: seq<Assigned>)
    requires |s| == 2
    ensures SumBy(UnitsIn(), s) == s[0].units + s[1].units
  {
    assert s[1..][0] == s[1] && s[1..][1..] == [];
    assert SumBy(UnitsIn(), s[1..]) == s[1].units + SumBy(UnitsIn(), s[1..][1..]);
  }

  lemma {:induction false} GatheredRefusals(accounts: seq<Account>, categories: seq<Assigned>, p: nat)
    requires p > 0
    ensures Gathered(accounts, categories, p).Err? ==> Gathered(accounts, categories, p).error == NotANumber
  {
    hide TotalWeight, Assign;
    if categories != [] { GatheredRefusals(accounts, categories[..|categories|-1], p); }
  }

  lemma {:induction false} KeyTexts(keys: seq<CategoryKey>)
    ensures ParseKeys(keys).Err? ==> ParseKeys(keys).error == NotCanonical
  {
    if keys != [] { KeyTexts(keys[..|keys|-1]); }
  }

  lemma {:induction false} AccountTexts(ps: seq<Participant>)
    ensures ParseAccounts(ps).Err? ==> ParseAccounts(ps).error == NotCanonical
  {
    if ps != [] { AccountTexts(ps[..|ps|-1]); }
  }

  predicate InvariantError<T>(r: Result<T, Refusal>) {
    r.Err? && (r.error == ConservationViolated || r.error == ProfitConservationViolated)
  }

  lemma OnlyInputRefusals(input: Input, accounts: seq<Account>, total: nat, p: nat)
    requires p > 0
    ensures !InvariantError(AccountsOutcome(input, accounts, total, p))
  {
    hide TotalWeight, Assign, Gathered, ParseKeys, Unique, Members, KnownCategories, EmptyCategoriesHaveZeroKeys;
    if input.kind.FixedCategoryKey? {
      KeyTexts(input.categoryKeys);
      var parsed := ParseKeys(input.categoryKeys);
      if parsed.Ok? && TotalWeight(parsed.value, p) > 0.0 {
        GatheredRefusals(accounts, Assign(total, parsed.value, p), p);
      }
    }
  }

  predicate IsConserved(a: Allocation, profit: nat, irr: nat) {
    && a.bankShare + irr + SumBy(UnitsIn(), a.accounts) == profit
    && a.investorBeforeIrr == irr + a.investorAfterIrr
    && SumBy(UnitsIn(), a.accounts) == a.investorAfterIrr
  }

  lemma DistributedConserves(input: Input, profit: nat, irr: nat, investor: Decimal, bank: Decimal,
                             accounts: seq<Account>, p: nat)
    requires p > 0 && Unique(AccountIds(input.participants)) && ParseAccounts(input.participants) == Ok(accounts)
    requires ProfitFits(input, profit, NisbaEntries(investor, bank), accounts, p)
    ensures var r := Distributed(input, profit, irr, NisbaEntries(investor, bank), p);
            !InvariantError(r) && (r.Ok? ==> IsConserved(r.value, profit, irr))
  {
    hide SumBy, AccountsOutcome, Assign, TotalWeight, AccountEntries, AccountIds, Unique, NisbaEntries, ParseAccounts,
         Covers, ProfitFits, DistinctIds;
    var es := NisbaEntries(investor, bank);
    AccountsDistinct(input.participants, accounts);
    if TotalWeight(es, p) > 0.0 {
      CoversTheNisba(input, profit, es, accounts, p);
      NisbaConserves(profit, investor, bank, p);
      var split := Assign(profit, es, p);
      if irr <= split[0].units {
        var total := split[0].units - irr;
        OnlyInputRefusals(input, accounts, total, p);
        if AccountsOutcome(input, accounts, total, p).Ok? { AccountsConserve(input, profit, total, es, accounts, p); }
      }
    } else {
      NothingToSplit(profit, es, p);
    }
  }

  lemma NothingToSplit(profit: nat, es: seq<Entry>, p: nat)
    requires p > 0 && TotalWeight(es, p) <= 0.0
    ensures UnitsOutcome(profit, es, p).Err? && !InvariantError(UnitsOutcome(profit, es, p))
  {}

  /** Conservation of the profit, in both methods: for a profit that fits, neither invariant check ever refuses
      an allocation, and on success bank share, IRR allocation and account shares make up the profit. */
  lemma ProfitIsConserved(input: Input, p: nat)
    requires p > 0 && InputFits(input, p)
    ensures !InvariantError(Outcome(input, p))
    ensures Outcome(input, p).Ok? ==>
              && ParseUnits(input.profit, input.scale).Ok? && ParseUnits(input.irr, input.scale).Ok?
              && IsConserved(Outcome(input, p).value, ParseUnits(input.profit, input.scale).value,
                             ParseUnits(input.irr, input.scale).value)
  {
    hide Distributed, AccountIds, Unique, NisbaEntries, Cut, ParseDecimal, ParseAccounts, ParseUnits, ProfitFits,
         IsConserved;
    AmountTexts(input.profit, input.scale);
    AmountTexts(input.irr, input.scale);
    DecimalTexts(input.investorNisba);
    DecimalTexts(input.bankNisba);
    if 0 <= input.scale && ParseUnits(input.profit, input.scale).Ok? && ParseUnits(input.irr, input.scale).Ok?
       && ParseDecimal(input.investorNisba).Ok? && ParseDecimal(input.bankNisba).Ok?
       && Unique(AccountIds(input.participants)) {
      var profit, irr := ParseUnits(input.profit, input.scale).value, ParseUnits(input.irr, input.scale).value;
      var investor, bank := ParseDecimal(input.investorNisba).value, ParseDecimal(input.bankNisba).value;
      if ParseAccounts(input.participants).Ok? {
        DistributedConserves(input, profit, irr, investor, bank, ParseAccounts(input.participants).value, p);
      } else {
        UnreadableAccounts(input, profit, irr, NisbaEntries(investor, bank), p);
      }
    }
  }

  lemma UnreadableAccounts(input: Input, profit: nat, irr: nat, nisba: seq<Entry>, p: nat)
    requires p > 0 && |nisba| == 2 && ParseAccounts(input.participants).Err?
    ensures Distributed(input, profit, irr, nisba, p).Err? && !InvariantError(Distributed(input, profit, irr, nisba, p))
  {
    hide ParseAccounts, AccountsOutcome, TotalWeight, Assign;
    AccountTexts(input.participants);
  }

  lemma AmountTexts(text: string, scale: int)
    ensures scale >= 0 && ParseUnits(text, scale).Err? ==> ParseUnits(text, scale).error in {NotCanonical, ExceedsScale}
  {}

  lemma DecimalTexts(text: string)
    ensures ParseDecimal(text).Err? ==> ParseDecimal(text).error == NotCanonical
  {}

  lemma CoversTheNisba(input: Input, profit: nat, nisba: seq<Entry>, accounts: seq<Account>, p: nat)
    requires p > 0 && ProfitFits(input, profit, nisba, accounts, p)
    ensures Covers(profit, nisba, p)
  {}

  /** At any size the weighted average conserves a profit whose Nisba and bases have exact sums. */
  lemma ExactAveragesConserve(input: Input, p: nat)
    requires p > 0 && input.kind == WeightedAverage
    requires ParseDecimal(input.investorNisba).Ok? && ParseDecimal(input.bankNisba).Ok?
    requires ParseAccounts(input.participants).Ok?
    requires var es := NisbaEntries(ParseDecimal(input.investorNisba).value, ParseDecimal(input.bankNisba).value);
             TotalWeight(es, p) == ExactWeight(es)
    requires var es := AccountEntries(ParseAccounts(input.participants).value); TotalWeight(es, p) == ExactWeight(es)
    ensures !InvariantError(Outcome(input, p))
    ensures Outcome(input, p).Ok? ==>
              && ParseUnits(input.profit, input.scale).Ok? && ParseUnits(input.irr, input.scale).Ok?
              && IsConserved(Outcome(input, p).value, ParseUnits(input.profit, input.scale).value,
                             ParseUnits(input.irr, input.scale).value)
  {
    hide Outcome, TotalWeight, ExactWeight, NisbaEntries, AccountEntries, ParseDecimal, ParseAccounts, ParseUnits,
         IsConserved;
    ProfitIsConserved(input, p);
  }

  /** A profit fits in particular when, times the number of accounts or of categories, it has one digit less
      than the precision: at sixty digits no realistic profit does not. */
  lemma ShortProfitsFit(input: Input, p: nat)
    requires p > 0
    requires 0 <= input.scale && ParseUnits(input.profit, input.scale).Ok? ==>
               var size := ParseUnits(input.profit, input.scale).value + 1;
               && size * 2 < Pow10(p - 1) && size * |input.participants| < Pow10(p - 1)
               && size * |input.categoryKeys| < Pow10(p - 1)
    ensures InputFits(input, p)
  {
    hide Covers, Pow10, AccountEntries, Members, ParseUnits, ParseDecimal, ParseAccounts, ParseKeys, NisbaEntries;
    if 0 <= input.scale && ParseUnits(input.profit, input.scale).Ok? && ParseAccounts(input.participants).Ok?
       && ParseDecimal(input.investorNisba).Ok? && ParseDecimal(input.bankNisba).Ok? {
      var profit, accounts := ParseUnits(input.profit, input.scale).value, ParseAccounts(input.participants).value;
      ShortFits(profit, NisbaEntries(ParseDecimal(input.investorNisba).value, ParseDecimal(input.bankNisba).value), 2,
                p);
      ShortFits(profit, AccountEntries(accounts), |accounts|, p);
      forall category ensures Covers(profit, AccountEntries(Members(accounts, category)), p) {
        ShortFits(profit, AccountEntries(Members(accounts, category)), |accounts|, p);
      }
      if ParseKeys(input.categoryKeys).Ok? {
        ShortFits(profit, ParseKeys(input.categoryKeys).value, |input.categoryKeys|, p);
      }
    }
  }

  lemma ShortFits(profit: nat, es: seq<Entry>, n: nat, p: nat)
    requires p > 0 && |es| <= n && (profit + 1) * 2 < Pow10(p - 1) && (profit + 1) * n < Pow10(p - 1)
    ensures Fits(profit, es, p)
  {
    hide Pow10, TotalWeight, ExactWeight;
    Grows(|es|, n, profit + 1);
    assert |es| * (profit + 1) == (profit + 1) * |es| && n * (profit + 1) == (profit + 1) * n;
  }

  // ----- How much everybody gets -----

  /** An amount is read exactly when it is a canonical decimal that fits the scale, as the number it writes. */
  lemma AmountIsRead(text: string, scale: nat)
    ensures ParseUnits(text, scale).Ok?
            <==> MatchUnsigned(text, false).Some? && |MatchUnsigned(text, false).value.fraction| <= scale
    ensures ParseUnits(text, scale).Ok? ==>
              ParseUnits(text, scale).value == Magnitude(MatchUnsigned(text, false).value, scale)
  {
    hide Value, Pow10, MatchUnsigned;
    var r := MatchUnsigned(text, false);
    if r.Some? && |r.value.fraction| <= scale {
      ValuePadEnd(r.value.fraction, scale);
      ValueConcat(r.value.whole, PadEnd(r.value.fraction, scale));
    }
  }

  /** A ratio, a basis or a key is read exactly when it is a canonical decimal, as the number it writes. */
  lemma DecimalIsRead(text: string, k: nat)
    ensures ParseDecimal(text).Ok? <==> MatchUnsigned(text, false).Some?
    ensures MatchUnsigned(text, false).Some? && |MatchUnsigned(text, false).value.fraction| <= k ==>
              ParseDecimal(text).value * Pow10(k) as real == Magnitude(MatchUnsigned(text, false).value, k) as real
  {
    hide Pow10, Magnitude, MatchUnsigned;
    var r := MatchUnsigned(text, false);
    if r.Some? && |r.value.fraction| <= k { NumberWritten(r.value, k); }
  }

  lemma NumberWritten(m: Match, k: nat)
    requires WellFormed(m) && |m.fraction| <= k
    ensures AllDigits(m.whole + m.fraction)
    ensures Quotient(Value(m.whole + m.fraction) as real, Pow10(|m.fraction|) as real) * Pow10(k) as real
            == Magnitude(m, k) as real
  {
    hide Value, Pow10, WellFormed, Quotient;
    var n := |m.fraction|;
    assert WellFormed(m) ==> AllDigits(m.whole) && AllDigits(m.fraction) by { Digital(m); }
    ValueConcat(m.whole, m.fraction);
    MagnitudeScale(m, n, k);
    Pow10Add(n, k - n);
    assert Pow10(0) == 1 by { PowerZero(); }
    WholeOver(Value(m.whole + m.fraction), Pow10(n), Pow10(k - n));
  }

  lemma PowerZero()
    ensures Pow10(0) == 1
  {}

  lemma Digital(m: Match)
    ensures WellFormed(m) ==> AllDigits(m.whole) && AllDigits(m.fraction)
  {}

  lemma WholeOver(x: nat, d: nat, s: nat)
    requires d > 0
    ensures Quotient(x as real, d as real) * (d * s) as real == (x * s) as real
  {
    var q := Quotient(x as real, d as real);
    QuotientNotNegative(x as real, d as real);
    QuotientValue(x as real, d as real);
    assert q * d as real == x as real;
    assert (d * s) as real == d as real * s as real && (x * s) as real == x as real * s as real;
    assert q * (d as real * s as real) == (q * d as real) * s as real;
  }

  /** Less than two units away from the exact part of the total. */
  predicate Near(units: nat, total: nat, part: Decimal, whole: Decimal) {
    -2.0 * whole < units as real * whole - total as real * part < 2.0 * whole
  }

  /** The profit, times the number of accounts or of categories, has one digit less than the precision. */
  predicate IsShort(profit: nat, participants: nat, keys: nat, p: nat)
    requires p > 0
  {
    (profit + 1) * 2 < Pow10(p - 1) && (profit + 1) * participants < Pow10(p - 1) && (profit + 1) * keys < Pow10(p - 1)
  }

  lemma ShortShare(es: seq<Entry>, e: Entry, total: nat, profit: nat, n: nat, p: nat)
    requires p > 0 && TotalWeight(es, p) > 0.0 && e in es && |es| <= n && total <= profit
    requires (profit + 1) * 2 < Pow10(p - 1) && (profit + 1) * n < Pow10(p - 1)
    ensures Near(Share(es, e, total, p), total, e.weight, ExactWeight(es))
  {
    hide Share, ExactWeight, TotalWeight, Pow10, Fits;
    Grows(total + 1, profit + 1, n);
    ShortFits(total, es, n, p);
    QuotaRule(es, e, total, p);
  }

  lemma NisbaWeight(investor: Decimal, bank: Decimal)
    ensures ExactWeight(NisbaEntries(investor, bank)) == investor + bank
  {
    var es := NisbaEntries(investor, bank);
    assert es[..1] == [es[0]] && [es[0]][..0] == [];
    assert ExactWeight([es[0]]) == 0.0 + investor;
  }

  /** The two parts of the profit, from the Nisba as written. */
  lemma NisbaShares(profit: nat, investor: Decimal, bank: Decimal, p: nat)
    requires p > 0 && TotalWeight(NisbaEntries(investor, bank), p) > 0.0 && (profit + 1) * 2 < Pow10(p - 1)
    ensures var split := Assign(profit, NisbaEntries(investor, bank), p);
            && Near(split[0].units, profit, investor, investor + bank)
            && Near(split[1].units, profit, bank, investor + bank)
  {
    hide Share, TotalWeight, ExactWeight, Pow10, Near;
    var es := NisbaEntries(investor, bank);
    NisbaWeight(investor, bank);
    assert es[0] in es && es[1] in es;
    ShortShare(es, es[0], profit, profit, 2, p);
    ShortShare(es, es[1], profit, profit, 2, p);
  }

  /** The exact sum of the bases. */
  function BasisSum(accounts: seq<Account>): Decimal { ExactWeight(AccountEntries(accounts)) }

  /** The exact sum of the keys, of which all have to be readable. */
  function KeySum(keys: seq<CategoryKey>): Decimal
    requires ParseKeys(keys).Ok?
  {
    ExactWeight(ParseKeys(keys).value)
  }

  lemma AverageShares(accounts: seq<Account>, total: nat, profit: nat, n: nat, p: nat)
    requires p > 0 && TotalWeight(AccountEntries(accounts), p) > 0.0 && |accounts| <= n && total <= profit
    requires (profit + 1) * 2 < Pow10(p - 1) && (profit + 1) * n < Pow10(p - 1)
    ensures var shares := Assign(total, AccountEntries(accounts), p);
            forall i :: 0 <= i < |accounts| ==>
                          && shares[i].id == accounts[i].accountId
                          && Near(shares[i].units, total, accounts[i].basis, BasisSum(accounts))
  {
    hide Share, TotalWeight, ExactWeight, Pow10, Near;
    var es := AccountEntries(accounts);
    forall i | 0 <= i < |accounts|
      ensures Near(Share(es, es[i], total, p), total, accounts[i].basis, BasisSum(accounts))
    {
      assert es[i] in es;
      ShortShare(es, es[i], total, profit, n, p);
    }
  }

  /** Less than four units away from the part of the part. */
  predicate NearTwice(units: nat, total: nat, key: Decimal, keys: Decimal, basis: Decimal, bases: Decimal) {
    -4.0 * (keys * bases) < units as real * (keys * bases) - total as real * (key * basis) < 4.0 * (keys * bases)
  }

  lemma NearOfNear(units: nat, middle: nat, total: nat, key: Decimal, keys: Decimal, basis: Decimal, bases: Decimal)
    requires keys > 0.0 && bases > 0.0 && basis <= bases
    requires Near(middle, total, key, keys) && Near(units, middle, basis, bases)
    ensures NearTwice(units, total, key, keys, basis, bases)
  {
    var u, c, t, m := units as real, middle as real, total as real, keys * bases;
    var a, b, d := u * m, (c * basis) * keys, t * (key * basis);
    assert -2.0 * m < a - b < 2.0 * m by {
      Between(u * bases - c * basis, 2.0 * bases, keys);
      assert (u * bases - c * basis) * keys == a - b;
      assert (2.0 * bases) * keys == 2.0 * m;
    }
    assert -2.0 * m <= b - d <= 2.0 * m by {
      Within(c * keys - t * key, 2.0 * keys, basis);
      assert (c * keys - t * key) * basis == b - d;
      ScaledUp(keys, basis, bases);
    }
  }

  lemma Between(x: real, b: real, f: real)
    requires -b < x < b && f > 0.0
    ensures -(b * f) < x * f < b * f
  {
    Signs(b - x, f);
    Signs(x + b, f);
    assert (b - x) * f == b * f - x * f && (x + b) * f == x * f + b * f;
  }

  lemma Within(x: real, b: real, f: real)
    requires -b < x < b && f >= 0.0
    ensures -(b * f) <= x * f <= b * f
  {
    if f > 0.0 { Between(x, b, f); } else { assert x * f == 0.0 && b * f == 0.0; }
  }

  lemma ScaledUp(keys: real, basis: real, bases: real)
    requires keys > 0.0 && basis <= bases
    ensures (2.0 * keys) * basis <= 2.0 * (keys * bases)
  {
    NotNegative(keys, bases - basis);
    assert keys * (bases - basis) == keys * bases - keys * basis;
  }

  /** The account is paid its part, by basis, of its category's part, by key, of the total. */
  predicate Paid(shares: seq<Assigned>, total: nat, x: Account, key: Decimal, keys: Decimal, bases: Decimal) {
    exists k :: 0 <= k < |shares| && shares[k].id == x.accountId
             && NearTwice(shares[k].units, total, key, keys, x.basis, bases)
  }

  lemma CategoryUnits(es: seq<Entry>, i: nat, total: nat, profit: nat, p: nat)
    requires p > 0 && TotalWeight(es, p) > 0.0 && DistinctIds(es) && i < |es| && total <= profit
    requires (profit + 1) * 2 < Pow10(p - 1) && (profit + 1) * |es| < Pow10(p - 1)
    ensures Assign(total, es, p)[i].units <= profit
    ensures Near(Assign(total, es, p)[i].units, total, es[i].weight, ExactWeight(es))
  {
    hide Share, TotalWeight, ExactWeight, Pow10, Near, SumBy, Residual, Covers, DistinctIds;
    Grows(total + 1, profit + 1, |es|);
    ShortFits(total, es, |es|, p);
    CoveredLeavesNoDebt(es, total, p);
    AssignConserves(total, es, p);
    PartOfSum(Assign(total, es, p), Assign(total, es, p)[i]);
    assert es[i] in es;
    ShortShare(es, es[i], total, profit, |es|, p);
  }

  lemma PaidThroughCategory(accounts: seq<Account>, categories: seq<Assigned>, i: nat, x: Account, total: nat,
                            profit: nat, key: Decimal, keys: Decimal, p: nat)
    requires p > 0 && Gathered(accounts, categories, p).Ok? && i < |categories| && keys > 0.0
    requires x in accounts && x.categoryId == categories[i].id && categories[i].units <= profit
    requires Near(categories[i].units, total, key, keys)
    requires (profit + 1) * 2 < Pow10(p - 1) && (profit + 1) * |accounts| < Pow10(p - 1)
    ensures Paid(Gathered(accounts, categories, p).value, total, x, key, keys,
                 BasisSum(Members(accounts, x.categoryId)))
  {
    hide Share, TotalWeight, ExactWeight, Pow10, Near, NearTwice, Gathered, Members, Assign;
    var members := Members(accounts, categories[i].id);
    var es := AccountEntries(members);
    CategoryBlock(accounts, categories, i, p);
    var j :| 0 <= j < |members| && members[j] == x;
    AverageShares(members, categories[i].units, profit, |accounts|, p);
    BlockInside(Gathered(accounts, categories[..i], p).value, Assign(categories[i].units, es, p),
                Gathered(accounts, categories, p).value);
    BasesPositive(members, x, p);
    var k := |Gathered(accounts, categories[..i], p).value| + j;
    NearOfNear(Gathered(accounts, categories, p).value[k].units, categories[i].units, total, key, keys, x.basis,
               BasisSum(members));
  }

  lemma BasesPositive(members: seq<Account>, x: Account, p: nat)
    requires p > 0 && TotalWeight(AccountEntries(members), p) > 0.0 && x in members
    ensures BasisSum(members) > 0.0 && x.basis <= BasisSum(members)
  {
    hide TotalWeight, ExactWeight;
    var es := AccountEntries(members);
    TotalError(es, p);
    var j :| 0 <= j < |members| && members[j] == x;
    assert es[j] in es;
    PartOfWeight(es, es[j]);
  }

  /** By the fixed key every account is paid from its basis and the key of its category. */
  lemma FixedKeyShares(total: nat, accounts: seq<Account>, keys: seq<CategoryKey>, profit: nat, x: Account, e: Entry,
                       p: nat)
    requires p > 0 && FixedKeyOutcome(total, accounts, keys, p).Ok? && total <= profit
    requires IsShort(profit, |accounts|, |keys|, p)
    requires x in accounts && e in ParseKeys(keys).value && e.id == x.categoryId
    ensures Paid(FixedKeyOutcome(total, accounts, keys, p).value, total, x, e.weight, KeySum(keys),
                 BasisSum(Members(accounts, x.categoryId)))
  {
    hide Gathered, ParseKeys, Members, TotalWeight, ExactWeight, Paid, Near, Unique, KnownCategories, Pow10,
         EmptyCategoriesHaveZeroKeys, Share, DistinctIds;
    var es := ParseKeys(keys).value;
    KeysDistinct(keys, es);
    var i :| 0 <= i < |es| && es[i] == e;
    CategoryUnits(es, i, total, profit, p);
    TotalError(es, p);
    PaidThroughCategory(accounts, Assign(total, es, p), i, x, total, profit, e.weight, ExactWeight(es), p);
  }

  lemma KeysReadable(total: nat, accounts: seq<Account>, keys: seq<CategoryKey>, p: nat)
    requires p > 0 && FixedKeyOutcome(total, accounts, keys, p).Ok?
    ensures ParseKeys(keys).Ok?
  {}

  lemma AtMostTheProfit(profit: nat, investor: Decimal, bank: Decimal, p: nat)
    requires p > 0 && TotalWeight(NisbaEntries(investor, bank), p) > 0.0 && (profit + 1) * 2 < Pow10(p - 1)
    ensures Assign(profit, NisbaEntries(investor, bank), p)[0].units <= profit
  {
    hide TotalWeight, Pow10, Fits;
    var es := NisbaEntries(investor, bank);
    ShortFits(profit, es, 2, p);
    assert Covers(profit, es, p);
    NisbaConserves(profit, investor, bank, p);
  }

  /** The profit and every other number of the input can be read, and the profit is short. */
  ghost predicate ReadAsShort(input: Input, profit: nat, irr: nat, investor: Decimal, bank: Decimal,
                              accounts: seq<Account>, p: nat)
    requires p > 0
  {
    && input.scale >= 0 && ParseUnits(input.profit, input.scale) == Ok(profit)
    && ParseUnits(input.irr, input.scale) == Ok(irr)
    && ParseDecimal(input.investorNisba) == Ok(investor) && ParseDecimal(input.bankNisba) == Ok(bank)
    && ParseAccounts(input.participants) == Ok(accounts)
    && IsShort(profit, |input.participants|, |input.categoryKeys|, p)
  }

  /** Every part from the input alone. Bank and investors are paid less than two units away from their parts by the
      Nisba; the accounts, of what is left after the IRR allocation, less than two units away from their parts by
      basis, or less than four from their parts by key and basis. */
  lemma SharesFromInput(input: Input, profit: nat, irr: nat, investor: Decimal, bank: Decimal,
                        accounts: seq<Account>, p: nat)
    requires p > 0 && ReadAsShort(input, profit, irr, investor, bank, accounts, p) && Outcome(input, p).Ok?
    ensures var a := Outcome(input, p).value;
            && Near(a.bankShare, profit, bank, investor + bank)
            && Near(a.investorBeforeIrr, profit, investor, investor + bank)
            && a.investorAfterIrr == a.investorBeforeIrr - irr
            && (input.kind == WeightedAverage ==>
                  |a.accounts| == |accounts| && forall i :: 0 <= i < |accounts| ==>
                    a.accounts[i].id == input.participants[i].accountId
                    && Near(a.accounts[i].units, a.investorAfterIrr, accounts[i].basis, BasisSum(accounts)))
            && (input.kind == FixedCategoryKey ==>
                  ParseKeys(input.categoryKeys).Ok? && forall x, e ::
                    x in accounts && e in ParseKeys(input.categoryKeys).value && e.id == x.categoryId ==>
                      Paid(a.accounts, a.investorAfterIrr, x, e.weight, KeySum(input.categoryKeys),
                           BasisSum(Members(accounts, x.categoryId))))
  {
    hide ParseUnits, ParseDecimal, ParseAccounts, ParseKeys, NisbaEntries, Cut, TotalWeight, ExactWeight, Near, Paid,
         Members, Share, Pow10, SumBy, Unique, FixedKeyOutcome, BasisSum;
    var a := Outcome(input, p).value;
    NisbaShares(profit, investor, bank, p);
    AtMostTheProfit(profit, investor, bank, p);
    match input.kind {
      case WeightedAverage =>
        AverageShares(accounts, a.investorAfterIrr, profit, |accounts|, p);
      case FixedCategoryKey =>
        KeysReadable(a.investorAfterIrr, accounts, input.categoryKeys, p);
        forall x, e | x in accounts && e in ParseKeys(input.categoryKeys).value && e.id == x.categoryId
          ensures Paid(a.accounts, a.investorAfterIrr, x, e.weight, KeySum(input.categoryKeys),
                       BasisSum(Members(accounts, x.categoryId)))
        {
          FixedKeyShares(a.investorAfterIrr, accounts, input.categoryKeys, profit, x, e, p);
        }
    }
  }

  // ----- When the fixed-key method pays -----

  lemma {:induction false} PositiveTotal(es: seq<Entry>, p: nat)
    requires p > 0
    ensures TotalWeight(es, p) > 0.0 <==> exists e :: e in es && e.weight > 0.0
  {
    hide Cut;
    if es != [] {
      var front, last := es[..|es|-1], es[|es|-1];
      PositiveTotal(front, p);
      CutError(TotalWeight(front, p) + last.weight, p);
      assert last in es && forall e :: e in es <==> e in front || e == last;
    }
  }

  predicate PopulatedCategoriesHaveBasis(accounts: seq<Account>, es: seq<Entry>) {
    forall e <- es :: HasBasis(accounts, e.id)
  }

  /** The category is empty, or one of its accounts has a positive basis. */
  predicate HasBasis(accounts: seq<Account>, category: string) {
    Members(accounts, category) == [] || exists a :: a in Members(accounts, category) && a.basis > 0.0
  }

  predicate AllHaveBasis(accounts: seq<Account>, categories: seq<Assigned>) {
    forall i :: 0 <= i < |categories| ==> HasBasis(accounts, categories[i].id)
  }

  lemma BasisTotal(accounts: seq<Account>, category: string, p: nat)
    requires p > 0
    ensures HasBasis(accounts, category) <==>
            Members(accounts, category) == [] || TotalWeight(AccountEntries(Members(accounts, category)), p) > 0.0
  {
    hide TotalWeight;
    var members := Members(accounts, category);
    var es := AccountEntries(members);
    PositiveTotal(es, p);
    if a :| a in members && a.basis > 0.0 {
      var i :| 0 <= i < |members| && members[i] == a;
      assert es[i] in es && es[i].weight > 0.0;
    }
    if e :| e in es && e.weight > 0.0 {
      var i :| 0 <= i < |es| && es[i] == e;
      assert members[i] in members && members[i].basis > 0.0;
    }
  }

  lemma {:induction false} GatheredAccepts(accounts: seq<Account>, categories: seq<Assigned>, p: nat)
    requires p > 0
    ensures Gathered(accounts, categories, p).Ok? <==> AllHaveBasis(accounts, categories)
  {
    hide HasBasis, Members, AccountEntries, TotalWeight, Assign;
    if categories != [] {
      var front, last := categories[..|categories|-1], categories[|categories|-1];
      GatheredAccepts(accounts, front, p);
      BasisTotal(accounts, last.id, p);
      assert forall i :: 0 <= i < |front| ==> front[i] == categories[i];
    }
  }

  /** The fixed-key allocation succeeds exactly on unique categories with readable keys that total one as
      computed, that cover every account, with no key on an empty category, and a positive basis in every
      populated one. */
  lemma FixedKeyAcceptsExactly(total: nat, accounts: seq<Account>, keys: seq<CategoryKey>, p: nat)
    requires p > 0
    ensures FixedKeyOutcome(total, accounts, keys, p).Ok? <==>
            && Unique(CategoryIds(keys)) && ParseKeys(keys).Ok?
            && var es := ParseKeys(keys).value;
            && TotalWeight(es, p) == 1.0 && KnownCategories(accounts, es)
            && EmptyCategoriesHaveZeroKeys(accounts, es) && PopulatedCategoriesHaveBasis(accounts, es)
  {
    hide HasBasis, Gathered, Share, Unique, Members;
    if ParseKeys(keys).Ok? {
      var es := ParseKeys(keys).value;
      if TotalWeight(es, p) == 1.0 {
        var categories := Assign(total, es, p);
        GatheredAccepts(accounts, categories, p);
        SameCategories(accounts, es, categories);
      }
    }
  }

  lemma SameCategories(accounts: seq<Account>, es: seq<Entry>, categories: seq<Assigned>)
    requires |categories| == |es| && forall i :: 0 <= i < |es| ==> categories[i].id == es[i].id
    ensures AllHaveBasis(accounts, categories) <==> PopulatedCategoriesHaveBasis(accounts, es)
  {
    hide HasBasis;
    if AllHaveBasis(accounts, categories) {
      forall e | e in es ensures HasBasis(accounts, e.id) {
        var i :| 0 <= i < |es| && es[i] == e;
        assert categories[i].id == e.id;
      }
    }
  }

  /** What an accepted input has, whatever the amounts. */
  predicate WellPosed(input: Input, p: nat)
    requires p > 0
  {
    && 0 <= input.scale <= 12 && input.participants != [] && Unique(AccountIds(input.participants))
    && ParseUnits(input.profit, input.scale).Ok? && ParseUnits(input.irr, input.scale).Ok?
    && ParseDecimal(input.investorNisba).Ok? && ParseDecimal(input.bankNisba).Ok?
    && Cut(ParseDecimal(input.investorNisba).value + ParseDecimal(input.bankNisba).value, p) == 1.0
    && ParseAccounts(input.participants).Ok?
  }

  /** The accounts of the input can be paid, by basis or by key. */
  predicate Payable(input: Input, accounts: seq<Account>, p: nat)
    requires p > 0
  {
    match input.kind
    case WeightedAverage => exists a :: a in accounts && a.basis > 0.0
    case FixedCategoryKey =>
      && Unique(CategoryIds(input.categoryKeys)) && ParseKeys(input.categoryKeys).Ok?
      && var es := ParseKeys(input.categoryKeys).value;
      && TotalWeight(es, p) == 1.0 && KnownCategories(accounts, es)
      && EmptyCategoriesHaveZeroKeys(accounts, es) && PopulatedCategoriesHaveBasis(accounts, es)
  }

  lemma PayableExactly(input: Input, accounts: seq<Account>, total: nat, p: nat)
    requires p > 0
    ensures AccountsOutcome(input, accounts, total, p).Ok? <==> Payable(input, accounts, p)
  {
    hide TotalWeight, FixedKeyOutcome, Unique, KnownCategories, EmptyCategoriesHaveZeroKeys,
         PopulatedCategoriesHaveBasis;
    match input.kind {
      case WeightedAverage =>
        var es := AccountEntries(accounts);
        PositiveTotal(es, p);
        if a :| a in accounts && a.basis > 0.0 {
          var i :| 0 <= i < |accounts| && accounts[i] == a;
          assert es[i] in es && es[i].weight > 0.0;
        }
        if e :| e in es && e.weight > 0.0 {
          var i :| 0 <= i < |es| && es[i] == e;
          assert accounts[i] in accounts;
        }
      case FixedCategoryKey => FixedKeyAcceptsExactly(total, accounts, input.categoryKeys, p);
    }
  }

  /** Why accounts are not paid. */
  ghost predicate AccountsRefusalHolds(refusal: Refusal, input: Input, accounts: seq<Account>, p: nat)
    requires p > 0
  {
    var keys := input.categoryKeys;
    match refusal
    case KeysRequired => input.kind == FixedCategoryKey && keys == []
    case DuplicateCategory => input.kind == FixedCategoryKey && !Unique(CategoryIds(keys))
    case NotCanonical => input.kind == FixedCategoryKey && ParseKeys(keys).Err?
    case KeysNotOne =>
      input.kind == FixedCategoryKey && ParseKeys(keys).Ok? && TotalWeight(ParseKeys(keys).value, p) != 1.0
    case MissingKey =>
      input.kind == FixedCategoryKey && ParseKeys(keys).Ok? && !KnownCategories(accounts, ParseKeys(keys).value)
    case KeyWithoutParticipant =>
      && input.kind == FixedCategoryKey && ParseKeys(keys).Ok?
      && !EmptyCategoriesHaveZeroKeys(accounts, ParseKeys(keys).value)
    case NotANumber =>
      if input.kind == WeightedAverage then forall a <- accounts :: a.basis == 0.0
      else ParseKeys(keys).Ok? && !PopulatedCategoriesHaveBasis(accounts, ParseKeys(keys).value)
    case _ => false
  }

  lemma AccountsRefusals(input: Input, accounts: seq<Account>, total: nat, p: nat)
    requires p > 0 && accounts != [] && AccountsOutcome(input, accounts, total, p).Err?
    ensures var refusal := AccountsOutcome(input, accounts, total, p).error;
            && AccountsRefusalHolds(refusal, input, accounts, p)
            && refusal in {KeysRequired, DuplicateCategory, NotCanonical, KeysNotOne, MissingKey,
                           KeyWithoutParticipant, NotANumber}
            && (refusal == NotCanonical ==> input.kind == FixedCategoryKey && ParseKeys(input.categoryKeys).Err?)
  {
    hide TotalWeight, Unique, KnownCategories, EmptyCategoriesHaveZeroKeys, PopulatedCategoriesHaveBasis, Gathered,
         ParseKeys, Share;
    PayableExactly(input, accounts, total, p);
    KeyTexts(input.categoryKeys);
    if input.kind == FixedCategoryKey {
      if ParseKeys(input.categoryKeys).Ok? {
        var es := ParseKeys(input.categoryKeys).value;
        if UnitsOutcome(total, es, p).Ok? { GatheredRefusals(accounts, UnitsOutcome(total, es, p).value, p); }
      }
    }
  }

  /** A refused profit is refused for a reason that holds; one that fits never for the two invariants. */
  lemma RefusalsHold(input: Input, p: nat)
    requires p > 0 && Outcome(input, p).Err?
    ensures var refusal, bases := Outcome(input, p).error, ParseAccounts(input.participants);
            match refusal
            case InvalidScale => !(0 <= input.scale <= 12)
            case NoParticipant => input.participants == []
            case DuplicateAccount => !Unique(AccountIds(input.participants))
            case ExceedsScale => 0 <= input.scale && (ParseUnits(input.profit, input.scale) == Err(ExceedsScale)
                                                      || ParseUnits(input.irr, input.scale) == Err(ExceedsScale))
            case NisbaNotOne =>
              && ParseDecimal(input.investorNisba).Ok? && ParseDecimal(input.bankNisba).Ok?
              && Cut(ParseDecimal(input.investorNisba).value + ParseDecimal(input.bankNisba).value, p) != 1.0
            case IrrExceedsInvestorShare => bases.Ok? ==> WellPosed(input, p) && !Affordable(input, p)
            case NotCanonical =>
              0 <= input.scale && (
                ParseUnits(input.profit, input.scale).Err? || ParseUnits(input.irr, input.scale).Err?
                || ParseDecimal(input.investorNisba).Err? || ParseDecimal(input.bankNisba).Err? || bases.Err?
                || (input.kind == FixedCategoryKey && ParseKeys(input.categoryKeys).Err?))
            case ConservationViolated => !InputFits(input, p)
            case ProfitConservationViolated => !InputFits(input, p)
            case _ => bases.Ok? && AccountsRefusalHolds(refusal, input, bases.value, p)
  {
    hide Distributed, Cut, ParseUnits, ParseDecimal, ParseAccounts, Unique, InputFits, Pow10, NisbaEntries,
         AccountsRefusalHolds, InvestorPart;
    if InputFits(input, p) { ProfitIsConserved(input, p); }
    if 0 <= input.scale {
      AmountTexts(input.profit, input.scale);
      AmountTexts(input.irr, input.scale);
    }
    DecimalTexts(input.investorNisba);
    DecimalTexts(input.bankNisba);
    if 0 <= input.scale && ParseUnits(input.profit, input.scale).Ok? && ParseUnits(input.irr, input.scale).Ok?
       && ParseDecimal(input.investorNisba).Ok? && ParseDecimal(input.bankNisba).Ok?
       && Cut(ParseDecimal(input.investorNisba).value + ParseDecimal(input.bankNisba).value, p) == 1.0
       && input.scale <= 12 && input.participants != [] && Unique(AccountIds(input.participants)) {
      DistributedRefusals(input, ParseUnits(input.profit, input.scale).value, ParseUnits(input.irr, input.scale).value,
                          ParseDecimal(input.investorNisba).value, ParseDecimal(input.bankNisba).value, p);
    }
  }

  lemma DistributedRefusals(input: Input, profit: nat, irr: nat, investor: Decimal, bank: Decimal, p: nat)
    requires p > 0 && Cut(investor + bank, p) == 1.0 && input.participants != []
    requires Distributed(input, profit, irr, NisbaEntries(investor, bank), p).Err?
    ensures var refusal, bases := Distributed(input, profit, irr, NisbaEntries(investor, bank), p).error,
                                  ParseAccounts(input.participants);
            match refusal
            case IrrExceedsInvestorShare => irr > InvestorPart(profit, investor, bank, p)
            case NotCanonical =>
              bases.Err? || (input.kind == FixedCategoryKey && ParseKeys(input.categoryKeys).Err?)
            case ConservationViolated => true
            case ProfitConservationViolated => true
            case _ => bases.Ok? && AccountsRefusalHolds(refusal, input, bases.value, p)
    ensures Distributed(input, profit, irr, NisbaEntries(investor, bank), p).error !in
              {InvalidScale, NoParticipant, DuplicateAccount, ExceedsScale, NisbaNotOne}
  {
    hide AccountsOutcome, Cut, ParseAccounts, TotalWeight, NisbaEntries, Assign, Checked, ParseKeys, Unique,
         AccountsRefusalHolds;
    NisbaPositive(investor, bank, p);
    AccountTexts(input.participants);
    var part := InvestorPart(profit, investor, bank, p);
    if irr <= part && ParseAccounts(input.participants).Ok? {
      var accounts := ParseAccounts(input.participants).value;
      var shares := AccountsOutcome(input, accounts, part - irr, p);
      if shares.Err? {
        AccountsRefusals(input, accounts, part - irr, p);
      } else {
        OnlyInvariants(profit, irr, part, Assign(profit, NisbaEntries(investor, bank), p)[1].units, shares.value);
      }
    }
  }

  lemma NisbaPositive(investor: Decimal, bank: Decimal, p: nat)
    requires p > 0 && Cut(investor + bank, p) == 1.0
    ensures TotalWeight(NisbaEntries(investor, bank), p) > 0.0
  {
    hide Cut, TotalWeight;
    var es := NisbaEntries(investor, bank);
    CutError(investor + bank, p);
    PositiveTotal(es, p);
    assert es[0] in es && es[1] in es;
  }

  /** What the investors receive before the IRR allocation. */
  function InvestorPart(profit: nat, investor: Decimal, bank: Decimal, p: nat): nat
    requires p > 0 && Cut(investor + bank, p) == 1.0
  {
    NisbaPositive(investor, bank, p);
    Assign(profit, NisbaEntries(investor, bank), p)[0].units
  }

  predicate Affordable(input: Input, p: nat)
    requires p > 0 && WellPosed(input, p)
  {
    var investor, bank := ParseDecimal(input.investorNisba).value, ParseDecimal(input.bankNisba).value;
    ParseUnits(input.irr, input.scale).value
    <= InvestorPart(ParseUnits(input.profit, input.scale).value, investor, bank, p)
  }

  /** A short profit is allocated exactly when the input is well posed, the IRR allocation does not exceed the part of
      the investors, and the accounts can be paid. */
  lemma AcceptsExactly(input: Input, p: nat)
    requires p > 0
    requires 0 <= input.scale && ParseUnits(input.profit, input.scale).Ok? ==>
               IsShort(ParseUnits(input.profit, input.scale).value, |input.participants|, |input.categoryKeys|, p)
    ensures Outcome(input, p).Ok?
            <==> && WellPosed(input, p) && Affordable(input, p)
                 && Payable(input, ParseAccounts(input.participants).value, p)
  {
    hide Distributed, Payable, Cut, ParseUnits, ParseDecimal, ParseAccounts, Unique, InputFits, Pow10, NisbaEntries;
    ShortProfitsFit(input, p);
    ProfitIsConserved(input, p);
    if 0 <= input.scale && ParseUnits(input.profit, input.scale).Ok? && ParseUnits(input.irr, input.scale).Ok?
       && ParseDecimal(input.investorNisba).Ok? && ParseDecimal(input.bankNisba).Ok?
       && Cut(ParseDecimal(input.investorNisba).value + ParseDecimal(input.bankNisba).value, p) == 1.0 {
      DistributedAccepts(input, ParseUnits(input.profit, input.scale).value, ParseUnits(input.irr, input.scale).value,
                         ParseDecimal(input.investorNisba).value, ParseDecimal(input.bankNisba).value, p);
    }
  }

  lemma DistributedAccepts(input: Input, profit: nat, irr: nat, investor: Decimal, bank: Decimal, p: nat)
    requires p > 0 && Cut(investor + bank, p) == 1.0
    ensures var r := Distributed(input, profit, irr, NisbaEntries(investor, bank), p);
            !InvariantError(r) ==>
              (r.Ok? <==> && irr <= InvestorPart(profit, investor, bank, p) && ParseAccounts(input.participants).Ok?
                          && Payable(input, ParseAccounts(input.participants).value, p))
  {
    hide AccountsOutcome, Payable, Cut, ParseAccounts, TotalWeight, NisbaEntries, Assign, Checked;
    NisbaPositive(investor, bank, p);
    var part := InvestorPart(profit, investor, bank, p);
    if irr <= part && ParseAccounts(input.participants).Ok? {
      var accounts := ParseAccounts(input.participants).value;
      PayableExactly(input, accounts, part - irr, p);
      var shares := AccountsOutcome(input, accounts, part - irr, p);
      if shares.Ok? {
        OnlyInvariants(profit, irr, part, Assign(profit, NisbaEntries(investor, bank), p)[1].units, shares.value);
      }
    }
  }

  lemma OnlyInvariants(profit: nat, irr: nat, investor: nat, bank: nat, accounts: seq<Assigned>)
    requires irr <= investor
    ensures Checked(profit, irr, investor, bank, accounts).Ok?
            || InvariantError(Checked(profit, irr, investor, bank, accounts))
  {}

  // ----- Where it does not conserve -----

  lemma WholeText(n: nat)
    ensures ParseUnits(Digits(n), 0) == Ok(n) && ParseDecimal(Digits(n)) == Ok(n as real)
  {
    var text := Digits(n);
    var m := Match(false, text, "");
    MatchBody(m);
    assert Body(m) == text && text + "" == text && PadEnd("", 0) == "";
    WholeQuotient(n as real);
  }

  lemma WholeQuotient(x: Decimal)
    ensures Quotient(x, 1.0) == x
  {}

  lemma DigitTexts()
    ensures Digits(0) == "0" && Digits(1) == "1" && Digits(9) == "9"
  {}

  lemma TwoEntries(a: Entry, b: Entry, p: nat)
    requires p > 0
    ensures TotalWeight([a], p) == Cut(a.weight, p)
    ensures TotalWeight([a, b], p) == Cut(Cut(a.weight, p) + b.weight, p)
  {
    hide Cut;
    assert [a, b][..1] == [a] && [a][..0] == [];
  }

  lemma One(p: nat)
    requires p > 0
    ensures Cut(1.0, p) == 1.0 && Cut(0.0, p) == 0.0
  {
    hide Cut;
    CutWhole(1, p);
    CutZero(p);
  }

  /** The whole weight receives its total cut to p digits, without a remainder. */
  lemma WholeWeight(e: Entry, total: nat, cut: nat, p: nat)
    requires p > 0 && e.weight == 1.0
    requires Cut(total as real, p) == cut as real == Cut(cut as real, p)
    ensures Whole(e, total, 1.0, p) == cut && Remainder(e, total, 1.0, p) == 0.0
  {
    hide Cut;
    assert total as real * 1.0 == total as real;
    WholeQuotient(cut as real);
    CutZero(p);
  }

  /** Of two participants without remainder the first by identifier has rank 0, the other rank 1. */
  lemma TwoRanks(es: seq<Entry>, a: Entry, b: Entry, total: nat, W: Decimal, p: nat)
    requires W > 0.0 && p > 0 && (es == [a, b] || es == [b, a]) && Less(a.id, b.id)
    requires Remainder(a, total, W, p) == 0.0 == Remainder(b, total, W, p)
    ensures Rank(PriorityOrder(total, W, p), es, a) == 0 && Rank(PriorityOrder(total, W, p), es, b) == 1
  {
    hide Remainder, Less;
    LessIsStrictTotalOrder();
    assert !Less(a.id, a.id) && !Less(b.id, b.id);
    if Less(b.id, a.id) { LessTransitive(a.id, b.id, a.id); }
    var f, g := Precedes(PriorityOrder(total, W, p), a), Precedes(PriorityOrder(total, W, p), b);
    assert f(a) == 0 && f(b) == 0 && g(a) == 1 && g(b) == 0;
    SumOfPair(f, es);
    SumOfPair(g, es);
  }

  lemma SumOfPair(f: Entry -> int, es: seq<Entry>)
    requires |es| == 2
    ensures SumBy(f, es) == f(es[0]) + f(es[1])
  {
    assert es[1..][0] == es[1] && es[1..][1..] == [];
    assert SumBy(f, es[1..]) == f(es[1]) + SumBy(f, es[1..][1..]);
  }

  /** A weight of zero beside the whole weight: of d last digits cut off, the first by identifier is given one
      unit after the other in turn with the other. */
  lemma ZeroBesideWhole(es: seq<Entry>, zero: Entry, whole: Entry, d: nat, p: nat)
    requires p > 0 && d < 10 && (es == [zero, whole] || es == [whole, zero]) && Less(zero.id, whole.id)
    requires zero.weight == 0.0 && whole.weight == 1.0
    ensures TotalWeight(es, p) == 1.0
    ensures Share(es, zero, Pow10(p) + d, p) == (d + 1) / 2
    ensures Share(es, whole, Pow10(p) + d, p) == Pow10(p) + d / 2
  {
    hide Cut, Less, Whole, Remainder, Rank, Pow10;
    var total := Pow10(p) + d;
    assert TotalWeight(es, p) == 1.0 by {
      One(p);
      TwoEntries(es[0], es[1], p);
    }
    PowerGrows(p);
    var w := Pow10(p - 1);
    CutLastDigit(w, d, p);
    CutLastDigit(w, 0, p);
    WholeWeight(whole, total, 10 * w, p);
    ZeroQuota(zero, total, 1.0, p);
    TwoRanks(es, zero, whole, total, 1.0, p);
    SumOfPair(UnitsOf(total, 1.0, p), es);
    assert Residual(es, total, p) == d;
  }

  lemma IdOrder()
    ensures Less("BANK", "INVESTOR") && Less("A", "Z")
  {
    assert "INVESTOR"[0] == 'I' && "BANK"[0] == 'B' && "A"[0] == 'A' && "Z"[0] == 'Z';
  }

  /** One digit more than the precision is too much. Of a profit of 10^p + 3 the bank, with a Nisba of zero,
      is given two units; of what the investors then have, the empty category A is given one; it is skipped,
      and the conservation error is raised. */
  lemma LongProfitFails(p: nat)
    requires p > 0
    ensures var input := Input(Digits(Pow10(p) + 3), "1", "0", "0", FixedCategoryKey, [Participant("P", "Z", "1")],
                               [CategoryKey("A", "0"), CategoryKey("Z", "1")], 0);
            Outcome(input, p) == Err(ConservationViolated)
  {
    hide Cut, Pow10, Digits, Distributed, ParseUnits, ParseDecimal, Less;
    var input := Input(Digits(Pow10(p) + 3), "1", "0", "0", FixedCategoryKey, [Participant("P", "Z", "1")],
                       [CategoryKey("A", "0"), CategoryKey("Z", "1")], 0);
    WholeText(Pow10(p) + 3);
    WholeText(0);
    WholeText(1);
    DigitTexts();
    One(p);
    UniqueAccount(input.participants[0]);
    NisbaGivesTheBank(input, p);
  }

  lemma UniqueAccount(one: Participant)
    requires one.accountId != []
    ensures Unique(AccountIds([one]))
  {}

  lemma NisbaGivesTheBank(input: Input, p: nat)
    requires p > 0 && input.kind == FixedCategoryKey && input.participants == [Participant("P", "Z", "1")]
    requires input.categoryKeys == [CategoryKey("A", "0"), CategoryKey("Z", "1")]
    ensures Distributed(input, Pow10(p) + 3, 0, NisbaEntries(1.0, 0.0), p) == Err(ConservationViolated)
  {
    hide Cut, Pow10, Less, Share, TotalWeight, FixedKeyOutcome, ParseAccounts, UnitsOutcome, SumBy, NisbaEntries;
    OneAccount();
    KeysLoseAUnit(p);
    NisbaHandsOut(p);
    OneAssigned(Pow10(p));
  }

  lemma OneAssigned(n: nat)
    ensures SumBy(UnitsIn(), [Assigned("P", n)]) == n
  {}

  lemma NisbaHandsOut(p: nat)
    requires p > 0
    ensures UnitsOutcome(Pow10(p) + 3, NisbaEntries(1.0, 0.0), p)
            == Ok([Assigned("INVESTOR", Pow10(p) + 1), Assigned("BANK", 2)])
  {
    hide Cut, Pow10, Less, Share, TotalWeight;
    var es := NisbaEntries(1.0, 0.0);
    IdOrder();
    ZeroBesideWhole(es, es[1], es[0], 3, p);
    assert Assign(Pow10(p) + 3, es, p) == [Assigned("INVESTOR", Pow10(p) + 1), Assigned("BANK", 2)];
  }

  lemma OneAccount()
    ensures ParseAccounts([Participant("P", "Z", "1")]) == Ok([Account("P", "Z", 1.0)])
    ensures ParseKeys([CategoryKey("A", "0"), CategoryKey("Z", "1")]) == Ok([Entry("A", 0.0), Entry("Z", 1.0)])
  {
    hide ParseDecimal, Digits;
    WholeText(0);
    WholeText(1);
    DigitTexts();
    TwoKeys(CategoryKey("A", "0"), CategoryKey("Z", "1"));
    FirstAccount(Participant("P", "Z", "1"));
  }

  lemma TwoKeys(a: CategoryKey, z: CategoryKey)
    requires ParseDecimal(a.allocationKey).Ok? && ParseDecimal(z.allocationKey).Ok?
    ensures ParseKeys([a, z]) == Ok([Entry(a.categoryId, ParseDecimal(a.allocationKey).value),
                                     Entry(z.categoryId, ParseDecimal(z.allocationKey).value)])
  {
    hide ParseDecimal;
    var none: seq<CategoryKey>, no: seq<Entry> := [], [];
    var x, y := Entry(a.categoryId, ParseDecimal(a.allocationKey).value),
                Entry(z.categoryId, ParseDecimal(z.allocationKey).value);
    assert ParseKeys(none) == Ok(no);
    NextKey(none, a);
    assert none + [a] == [a] && no + [x] == [x];
    NextKey([a], z);
    assert [a] + [z] == [a, z] && [x] + [y] == [x, y];
  }

  lemma FirstAccount(p: Participant)
    requires ParseDecimal(p.participationBase).Ok?
    ensures ParseAccounts([p])
            == Ok([Account(p.accountId, p.categoryId, ParseDecimal(p.participationBase).value)])
  {
    hide ParseDecimal;
    var nobody: seq<Participant>, none: seq<Account> := [], [];
    assert ParseAccounts(nobody) == Ok(none);
    NextAccount(nobody, p);
    var x := Account(p.accountId, p.categoryId, ParseDecimal(p.participationBase).value);
    assert nobody + [p] == [p] && none + [x] == [x];
  }

  lemma NextKey(front: seq<CategoryKey>, k: CategoryKey)
    requires ParseKeys(front).Ok? && ParseDecimal(k.allocationKey).Ok?
    ensures ParseKeys(front + [k])
            == Ok(ParseKeys(front).value + [Entry(k.categoryId, ParseDecimal(k.allocationKey).value)])
  {
    hide ParseDecimal;
    assert (front + [k])[..|front|] == front;
  }

  lemma NextAccount(front: seq<Participant>, p: Participant)
    requires ParseAccounts(front).Ok? && ParseDecimal(p.participationBase).Ok?
    ensures ParseAccounts(front + [p])
            == Ok(ParseAccounts(front).value
                  + [Account(p.accountId, p.categoryId, ParseDecimal(p.participationBase).value)])
  {
    hide ParseDecimal;
    assert (front + [p])[..|front|] == front;
  }

  lemma KeysLoseAUnit(p: nat)
    requires p > 0
    ensures FixedKeyOutcome(Pow10(p) + 1, [Account("P", "Z", 1.0)], [CategoryKey("A", "0"), CategoryKey("Z", "1")], p)
            == Ok([Assigned("P", Pow10(p))])
  {
    hide Cut, Pow10, Less, Share, TotalWeight, ParseKeys, ParseDecimal, KeysRefusal, Gathered, Unique, Assign;
    var accounts, keys := [Account("P", "Z", 1.0)], [CategoryKey("A", "0"), CategoryKey("Z", "1")];
    var es := [Entry("A", 0.0), Entry("Z", 1.0)];
    OneAccount();
    TwoCategories(keys);
    KeysHandOut(es, p);
    KeysAccepted(accounts, es, p);
    GatheredFromOne(accounts, [Assigned("A", 1), Assigned("Z", Pow10(p))], p);
  }

  lemma TwoCategories(keys: seq<CategoryKey>)
    requires keys == [CategoryKey("A", "0"), CategoryKey("Z", "1")]
    ensures Unique(CategoryIds(keys))
  {
    assert "A"[0] == 'A' && "Z"[0] == 'Z';
  }

  lemma KeysHandOut(es: seq<Entry>, p: nat)
    requires p > 0 && es == [Entry("A", 0.0), Entry("Z", 1.0)]
    ensures TotalWeight(es, p) == 1.0
    ensures Assign(Pow10(p) + 1, es, p) == [Assigned("A", 1), Assigned("Z", Pow10(p))]
  {
    hide Cut, Pow10, Less, Share, TotalWeight;
    IdOrder();
    ZeroBesideWhole(es, es[0], es[1], 1, p);
  }

  lemma KeysAccepted(accounts: seq<Account>, es: seq<Entry>, p: nat)
    requires p > 0 && accounts == [Account("P", "Z", 1.0)] && es == [Entry("A", 0.0), Entry("Z", 1.0)]
    requires TotalWeight(es, p) == 1.0
    ensures KeysRefusal(accounts, es, p).None?
  {
    hide TotalWeight, Members;
    OneMember(accounts);
    assert es[1] in es;
  }

  lemma OneMember(accounts: seq<Account>)
    requires accounts == [Account("P", "Z", 1.0)]
    ensures Members(accounts, "A") == [] && Members(accounts, "Z") == accounts
  {
    assert accounts[1..] == [];
  }

  lemma GatheredFromOne(accounts: seq<Account>, categories: seq<Assigned>, p: nat)
    requires p > 0 && accounts == [Account("P", "Z", 1.0)]
    requires categories == [Assigned("A", 1), Assigned("Z", Pow10(p))]
    ensures Gathered(accounts, categories, p) == Ok([Assigned("P", Pow10(p))])
  {
    hide Gathered, UnitsOutcome, Pow10, Members;
    OneMember(accounts);
    OnlyOne(accounts, p);
    assert categories[..0] == [] && categories[..2] == categories;
    NoneGathered(accounts, p);
    GatheredNext(accounts, categories, 0, p);
    assert Gathered(accounts, categories[..1], p) == Ok([]);
    GatheredNext(accounts, categories, 1, p);
    assert categories[1] == Assigned("Z", Pow10(p)) && Members(accounts, categories[1].id) == accounts;
    assert [] + [Assigned("P", Pow10(p))] == [Assigned("P", Pow10(p))];
  }

  /** A single account receives everything that has no more digits than the precision. */
  lemma OnlyOne(accounts: seq<Account>, p: nat)
    requires p > 0 && accounts == [Account("P", "Z", 1.0)]
    ensures UnitsOutcome(Pow10(p), AccountEntries(accounts), p) == Ok([Assigned("P", Pow10(p))])
  {
    hide Cut, Pow10, Whole, Remainder, Rank;
    var e := Entry("P", 1.0);
    var es := [e];
    assert AccountEntries(accounts) == es && es[..0] == [];
    One(p);
    assert TotalWeight(es, p) == 1.0;
    PowerGrows(p);
    CutLastDigit(Pow10(p - 1), 0, p);
    WholeWeight(e, Pow10(p), Pow10(p), p);
    SumOfOne(UnitsOf(Pow10(p), 1.0, p), e);
    assert Residual(es, Pow10(p), p) == 0;
    LessIrreflexive("P");
    RankOfOnly(PriorityOrder(Pow10(p), 1.0, p), e);
    assert Share(es, e, Pow10(p), p) == Pow10(p);
    assert Assign(Pow10(p), es, p) == [Assigned("P", Pow10(p))];
  }

  lemma RankOfOnly<T>(lt: (T, T) -> bool, e: T)
    requires !lt(e, e)
    ensures Rank(lt, [e], e) == 0
  {
    SumOfOne(Precedes(lt, e), e);
  }

  /** Nor are weights safe whose sum is not exact. Bases of p nines and of 9 total 10^p as computed; of a profit
      of 10^p the accounts get eight units too many, and the conservation error is raised. */
  lemma InexactBasesFail(p: nat)
    requires p > 0
    ensures var u := Pow10(p);
            var input := Input(Digits(u), "1", "0", "0", WeightedAverage,
                               [Participant("P", "Z", Digits(u - 1)), Participant("Q", "Z", "9")], [], 0);
            Outcome(input, p) == Err(ConservationViolated)
  {
    hide Cut, Pow10, Digits, Distributed, ParseUnits, ParseDecimal;
    var u := Pow10(p);
    var input := Input(Digits(u), "1", "0", "0", WeightedAverage,
                       [Participant("P", "Z", Digits(u - 1)), Participant("Q", "Z", "9")], [], 0);
    WholeText(u);
    WholeText(0);
    WholeText(1);
    DigitTexts();
    One(p);
    UniquePair(input.participants);
    EightTooMany(input, p);
  }

  lemma UniquePair(ps: seq<Participant>)
    requires |ps| == 2 && ps[0].accountId == "P" && ps[1].accountId == "Q"
    ensures Unique(AccountIds(ps))
  {
    assert "P"[0] == 'P' && "Q"[0] == 'Q';
  }

  lemma EightTooMany(input: Input, p: nat)
    requires p > 0 && input.kind == WeightedAverage
    requires input.participants == [Participant("P", "Z", Digits(Pow10(p) - 1)), Participant("Q", "Z", "9")]
    ensures Distributed(input, Pow10(p), 0, NisbaEntries(1.0, 0.0), p) == Err(ConservationViolated)
  {
    hide Cut, Pow10, Less, Share, Digits, ParseAccounts, UnitsOutcome, SumBy, NisbaEntries, TotalWeight, Residual;
    var u := Pow10(p);
    var accounts := [Account("P", "Z", (u - 1) as real), Account("Q", "Z", 9.0)];
    WholeNisba(u, p);
    TwoAccounts(p);
    NinesOverflow(AccountEntries(accounts), p);
    assert "P"[0] == 'P' && "Q"[0] == 'Q';
    AssignConserves(u, AccountEntries(accounts), p);
    assert UnitsOutcome(u, AccountEntries(accounts), p) == Ok(Assign(u, AccountEntries(accounts), p));
  }

  lemma WholeNisba(u: nat, p: nat)
    requires p > 0 && u == Pow10(p)
    ensures UnitsOutcome(u, NisbaEntries(1.0, 0.0), p) == Ok([Assigned("INVESTOR", u), Assigned("BANK", 0)])
  {
    hide Cut, Pow10, Less, Share, TotalWeight;
    var es := NisbaEntries(1.0, 0.0);
    IdOrder();
    ZeroBesideWhole(es, es[1], es[0], 0, p);
    assert Assign(u, es, p) == [Assigned("INVESTOR", u), Assigned("BANK", 0)];
  }

  lemma TwoAccounts(p: nat)
    ensures ParseAccounts([Participant("P", "Z", Digits(Pow10(p) - 1)), Participant("Q", "Z", "9")])
            == Ok([Account("P", "Z", (Pow10(p) - 1) as real), Account("Q", "Z", 9.0)])
  {
    hide ParseDecimal, Digits, Pow10;
    var a, b := Participant("P", "Z", Digits(Pow10(p) - 1)), Participant("Q", "Z", "9");
    WholeText(Pow10(p) - 1);
    WholeText(9);
    DigitTexts();
    var x, y := Account("P", "Z", (Pow10(p) - 1) as real), Account("Q", "Z", 9.0);
    FirstAccount(a);
    NextAccount([a], b);
    assert [a] + [b] == [a, b] && [x] + [y] == [x, y];
  }

  lemma NinesOverflow(es: seq<Entry>, p: nat)
    requires p > 0 && es == [Entry("P", (Pow10(p) - 1) as real), Entry("Q", 9.0)]
    ensures TotalWeight(es, p) == Pow10(p) as real && Residual(es, Pow10(p), p) == -8
  {
    hide Cut, Pow10, Whole;
    var u := Pow10(p);
    PowerGrows(p);
    TwoEntries(es[0], es[1], p);
    CutWhole(u - 1, p);
    CutLastDigit(Pow10(p - 1), 8, p);
    assert TotalWeight(es, p) == u as real;
    WholeMultiple(es[0], u - 1, p);
    WholeMultiple(es[1], 9, p);
    SumOfPair(UnitsOf(u, u as real, p), es);
  }

  /** A weight n below the total weight 10^p receives exactly n of a total of 10^p. */
  lemma WholeMultiple(e: Entry, n: nat, p: nat)
    requires p > 0 && n < Pow10(p) && e.weight == n as real
    ensures Whole(e, Pow10(p), Pow10(p) as real, p) == n
  {
    hide Cut, Pow10;
    var u := Pow10(p);
    CutWithZeros(n, p, p);
    assert u as real * n as real == (n * u) as real;
    Undone(n as real, u as real);
    CutWhole(n, p);
  }

  lemma Undone(x: Decimal, d: Decimal)
    requires d > 0.0
    ensures x * d >= 0.0 && Quotient(x * d, d) == x
  {
    NotNegative(x, d);
    QuotientNotNegative(x * d, d);
    var y := (x * d) / d;
    assert (y - x) * d == 0.0;
    Signs(y - x, d);
  }
}

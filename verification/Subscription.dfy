/** The investment subscription: its contract states, and the ledger of deposits and withdrawals kept as
    an append-only history beside them. */
module Subscription {
  import opened Wrappers
  import opened Texts
  import D = DecimalText

  datatype Status = PreSimulation | PendingSubscription | Active | Blocked | Matured | Succession | Closed

  /** Dates are day numbers; None is a text that is not a date. */
  type Date = Option<int>

  datatype Acceptance = Acceptance(acceptedAt: string, acceptedBy: string, nonGuarantee: bool, profitSharing: bool)

  datatype State = State(terms: string, status: Status, openedOn: Option<int>, maturityDate: Option<int>,
                         closedOn: Option<int>, acceptance: Option<Acceptance>)

  datatype Detail =
    | Simulated | SubscriptionStarted | TermsAccepted | Activated
    | Deposited(amount: string) | Withdrawn(amount: string)
    | WasBlocked(reason: string) | WasUnblocked(reason: string) | Renewed(maturityDate: int) | HasMatured
    | SuccessionOpened(caseReference: string) | WasClosed

  datatype Event = Event(detail: Detail, businessDate: int, actorId: string)

  datatype Action =
    | Start | Accept(acceptedAt: Option<string>, nonGuarantee: bool, profitSharing: bool) | Activate
    | Deposit(amount: string) | Withdraw(amount: string) | Block(reason: string) | Unblock(reason: string)
    | Renew(maturityDate: Date) | Mature | OpenSuccession(caseReference: string) | Close

  datatype Refusal =
    | Forbidden | NotAccepted | InvalidEvidence | AcceptanceMissing | NotPositive | InvalidDate | ActorMissing
    | CaseMissing | NotFound | RightsSuspended | InsufficientBalance | NoOperationalReference
    | KeyConflict | AccountExists

  predicate Blank(s: string) { Trim(s) == "" }

  // ----- Amounts -----

  const AMOUNT_SCALE: nat := 12

  /** A positive canonical decimal of at most twelve fraction digits. */
  predicate Positive(amount: string) {
    var m := D.MatchUnsigned(amount, false);
    m.Some? && |m.value.fraction| <= AMOUNT_SCALE && D.Value(m.value.whole + m.value.fraction) > 0
  }

  /** The units of 10^-12 that an amount denotes; zero for a text that is not one. */
  function Units(amount: string): int {
    var m := D.MatchUnsigned(amount, false);
    if m.Some? && |m.value.fraction| <= AMOUNT_SCALE then D.Units(m.value, AMOUNT_SCALE) else 0
  }

  lemma PositiveAmounts(amount: string)
    requires Positive(amount)
    ensures Units(amount) > 0
  {
    var m := D.MatchUnsigned(amount, false).value;
    var n := AMOUNT_SCALE - |m.fraction|;
    assert m.whole + D.PadEnd(m.fraction, AMOUNT_SCALE) == (m.whole + m.fraction) + D.Zeros(n);
    D.ValueConcat(m.whole + m.fraction, D.Zeros(n));
    D.ValueZeros(n);
    Grows(D.Value(m.whole + m.fraction), D.Pow10(n));
  }

  lemma Grows(x: nat, p: nat)
    requires x > 0 && p > 0
    ensures x * p > 0
  {}

  // ----- What an action does -----

  function Recorded(detail: Detail, date: Date, actor: string): Result<Event, Refusal> {
    if date.None? then Err(InvalidDate) else if Blank(actor) then Err(ActorMissing)
    else Ok(Event(detail, date.value, actor))
  }

  function With(s: State, detail: Detail, date: Date, actor: string): Result<(State, Event), Refusal> {
    match Recorded(detail, date, actor) case Err(e) => Err(e) case Ok(event) => Ok((s, event))
  }

  function Perform(s: State, a: Action, date: Date, actor: string): Result<(State, Event), Refusal> {
    match a
    case Start => if s.status != PreSimulation then Err(Forbidden)
    else With(s.(status := PendingSubscription), SubscriptionStarted, date, actor)
    case Accept(at, nonGuarantee, profitSharing) =>
      if s.status != PendingSubscription then Err(Forbidden)
      else if !nonGuarantee || !profitSharing then Err(NotAccepted)
      else if Blank(actor) || at.None? then Err(InvalidEvidence)
      else With(s.(acceptance := Some(Acceptance(at.value, actor, nonGuarantee, profitSharing))), TermsAccepted, date,
                actor)
    case Activate =>
      if s.status != PendingSubscription then Err(Forbidden)
      else if s.acceptance.None? then Err(AcceptanceMissing)
      else With(s.(status := Active, openedOn := date), Activated, date, actor)
    case Deposit(amount) =>
      if s.status != Active then Err(Forbidden) else if !Positive(amount) then Err(NotPositive)
      else With(s, Deposited(amount), date, actor)
    case Withdraw(amount) =>
      if s.status != Active then Err(Forbidden) else if !Positive(amount) then Err(NotPositive)
      else With(s, Withdrawn(amount), date, actor)
    case Block(reason) =>
      if s.status != Active then Err(Forbidden) else With(s.(status := Blocked), WasBlocked(reason), date, actor)
    case Unblock(reason) =>
      if s.status != Blocked then Err(Forbidden) else With(s.(status := Active), WasUnblocked(reason), date, actor)
    case Renew(maturity) =>
      if s.status != Active && s.status != Matured then Err(Forbidden)
      else if maturity.None? then Err(InvalidDate)
      else With(s.(status := Active, maturityDate := maturity), Renewed(maturity.value), date, actor)
    case Mature => if s.status != Active then Err(Forbidden) else With(s.(status := Matured), HasMatured, date, actor)
    case OpenSuccession(reference) =>
      if s.status !in {Active, Blocked, Matured} then Err(Forbidden)
      else if Blank(reference) then Err(CaseMissing)
      else With(s.(status := Succession), SuccessionOpened(reference), date, actor)
    case Close =>
      if s.status !in {Active, Blocked, Matured, Succession} then Err(Forbidden)
      else With(s.(status := Closed, closedOn := date), WasClosed, date, actor)
  }

  /** The aggregate: operations replace the state and push the event. A refused operation pushes none. */
  class InvestmentSubscription {
    var state: State
    var events: seq<Event>

    constructor Restore(state: State)
      ensures this.state == state && events == []
    {
      this.state := state;
      events := [];
    }

    method Record(detail: Detail, date: Date, actor: string) returns (refusal: Option<Refusal>)
      modifies this`events
      ensures match Recorded(detail, date, actor)
              case Ok(event) => refusal == None && events == old(events) + [event]
              case Err(e) => refusal == Some(e) && events == old(events)
    {
      if date.None? { return Some(InvalidDate); }
      if Blank(actor) { return Some(ActorMissing); }
      events := events + [Event(detail, date.value, actor)];
      refusal := None;
    }

    method Act(a: Action, date: Date, actor: string) returns (refusal: Option<Refusal>)
      modifies this
      ensures match Perform(old(state), a, date, actor)
              case Ok((next, event)) => refusal == None && state == next && events == old(events) + [event]
              case Err(e) => refusal == Some(e) && events == old(events)
    {
      match a {
        case Start =>
          if state.status != PreSimulation { return Some(Forbidden); }
          refusal := Record(SubscriptionStarted, date, actor);
          if refusal.None? { state := state.(status := PendingSubscription); }
        case Accept(at, nonGuarantee, profitSharing) =>
          if state.status != PendingSubscription { return Some(Forbidden); }
          if !nonGuarantee || !profitSharing { return Some(NotAccepted); }
          if Blank(actor) || at.None? { return Some(InvalidEvidence); }
          state := state.(acceptance := Some(Acceptance(at.value, actor, nonGuarantee, profitSharing)));
          refusal := Record(TermsAccepted, date, actor);
        case Activate =>
          if state.status != PendingSubscription { return Some(Forbidden); }
          if state.acceptance.None? { return Some(AcceptanceMissing); }
          state := state.(status := Active, openedOn := date);
          refusal := Record(Activated, date, actor);
        case Deposit(amount) =>
          if state.status != Active { return Some(Forbidden); }
          if !Positive(amount) { return Some(NotPositive); }
          refusal := Record(Deposited(amount), date, actor);
        case Withdraw(amount) =>
          if state.status != Active { return Some(Forbidden); }
          if !Positive(amount) { return Some(NotPositive); }
          refusal := Record(Withdrawn(amount), date, actor);
        case Block(reason) =>
          if state.status != Active { return Some(Forbidden); }
          state := state.(status := Blocked);
          refusal := Record(WasBlocked(reason), date, actor);
        case Unblock(reason) =>
          if state.status != Blocked { return Some(Forbidden); }
          state := state.(status := Active);
          refusal := Record(WasUnblocked(reason), date, actor);
        case Renew(maturity) =>
          if state.status != Active && state.status != Matured { return Some(Forbidden); }
          if maturity.None? { return Some(InvalidDate); }
          state := state.(status := Active, maturityDate := maturity);
          refusal := Record(Renewed(maturity.value), date, actor);
        case Mature =>
          if state.status != Active { return Some(Forbidden); }
          state := state.(status := Matured);
          refusal := Record(HasMatured, date, actor);
        case OpenSuccession(reference) =>
          if state.status !in {Active, Blocked, Matured} { return Some(Forbidden); }
          if Blank(reference) { return Some(CaseMissing); }
          state := state.(status := Succession);
          refusal := Record(SuccessionOpened(reference), date, actor);
        case Close =>
          if state.status !in {Active, Blocked, Matured, Succession} { return Some(Forbidden); }
          state := state.(status := Closed, closedOn := date);
          refusal := Record(WasClosed, date, actor);
      }
    }
  }

  // ----- The repository -----

  datatype Account = Account(customerId: string, state: State, events: seq<Event>)

  /** Two requests with the same canonical text are the same request. */
  datatype Request = Creation(accountId: string, customerId: string, terms: string, maturityDate: Option<int>,
                              actor: string)
                   | Of(accountId: string, action: Action, date: Date, actor: string)

  /** The columns of a command: its account, its request as written, and the state it answered. */
  datatype Command = Command(accountId: string, request: Request, snapshot: State)

  datatype Db = Db(accounts: map<string, Account>, commands: map<string, Command>)

  const EMPTY := Db(map[], map[])

  /** How columns give texts back: identifiers, times of acceptance, and the numbers among the terms. */
  datatype Columns = Columns(uuid: string -> string, timestamptz: string -> string, terms: string -> string)

  /** The row of a state, as it is read again. */
  function ReadBack(c: Columns, s: State): State {
    s.(terms := c.terms(s.terms),
       acceptance := match s.acceptance
                     case None => None
                     case Some(a) => Some(a.(acceptedAt := c.timestamptz(a.acceptedAt))))
  }

  /** What other tables say: the customer's profit rights, and the operational references of the account. */
  datatype Surroundings = Surroundings(rightsAllowed: bool, operationalReference: bool)

  predicate NeedsRights(a: Action) {
    a.Activate? || a.Deposit? || a.Withdraw? || a.Renew? || a.Mature? || a.OpenSuccession? || a.Close?
  }

  function LedgerUnits(e: Event): int {
    match e.detail case Deposited(amount) => Units(amount) case Withdrawn(amount) => 0 - Units(amount) case _ => 0
  }

  /** The sum the withdrawal guard computes. */
  function Balance(events: seq<Event>): int {
    if events == [] then 0 else Balance(events[..|events|-1]) + LedgerUnits(events[|events|-1])
  }

  function NewAccount(c: Columns, customerId: string, state: State, today: int, actor: string): Account {
    Account(c.uuid(customerId), ReadBack(c, state), [Event(Simulated, today, actor)])
  }

  function WithEvent(c: Columns, account: Account, next: State, event: Event): Account {
    account.(state := ReadBack(c, next), events := account.events + [event])
  }

  /** A recorded command is compared with the repeated one: the text of its account column with the identifier
      submitted, and the requests. */
  function Replay(db: Db, key: string, accountId: string, request: Request): Option<Result<State, Refusal>> {
    if key !in db.commands then None
    else if db.commands[key].accountId != accountId || db.commands[key].request != request then Some(Err(KeyConflict))
    else Some(Ok(db.commands[key].snapshot))
  }

  function InitialState(terms: string, maturityDate: Option<int>): State {
    State(terms, PreSimulation, None, maturityDate, None, None)
  }

  function Create(c: Columns, db: Db, key: string, accountId: string, customerId: string, terms: string,
                  maturityDate: Option<int>, today: int, actor: string)
    : Result<(Db, State), Refusal>
  {
    var request := Creation(accountId, customerId, terms, maturityDate, actor);
    match Replay(db, key, accountId, request)
    case Some(Ok(state)) => Ok((db, state))
    case Some(Err(e)) => Err(e)
    case None =>
      var id := c.uuid(accountId);
      if id in db.accounts then Err(AccountExists) else
        var state := InitialState(terms, maturityDate);
        Ok((Db(db.accounts[id := NewAccount(c, customerId, state, today, actor)],
               db.commands[key := Command(id, request, state)]), state))
  }

  function Transition(c: Columns, db: Db, key: string, accountId: string, a: Action, date: Date, actor: string,
                      w: Surroundings)
    : Result<(Db, State), Refusal>
  {
    var request := Of(accountId, a, date, actor);
    match Replay(db, key, accountId, request)
    case Some(Ok(state)) => Ok((db, state))
    case Some(Err(e)) => Err(e)
    case None =>
      var id := c.uuid(accountId);
      if id !in db.accounts then Err(NotFound) else
        var account := db.accounts[id];
        if NeedsRights(a) && !w.rightsAllowed then Err(RightsSuspended) else
          match Perform(account.state, a, date, actor)
          case Err(e) => Err(e)
          case Ok((next, event)) =>
            if a.Withdraw? && Balance(account.events) < Units(a.amount) then Err(InsufficientBalance)
            else if a.Activate? && !w.operationalReference then Err(NoOperationalReference)
            else Ok((Db(db.accounts[id := WithEvent(c, account, next, event)],
                        db.commands[key := Command(id, request, next)]), next))
  }

  class PostgresInvestmentSubscriptionRepository {
    const columns: Columns
    var db: Db

    constructor (columns: Columns)
      ensures this.columns == columns && db == EMPTY
    {
      this.columns := columns;
      db := EMPTY;
    }

    method TransitionAccount(key: string, accountId: string, a: Action, date: Date, actor: string, w: Surroundings)
      returns (result: Result<State, Refusal>)
      modifies this
      ensures match Transition(columns, old(db), key, accountId, a, date, actor, w)
              case Ok((saved, state)) => db == saved && result == Ok(state)
              case Err(e) => db == old(db) && result == Err(e)
    {
      hide Perform, Units;
      var request := Of(accountId, a, date, actor);
      var replay := Replay(db, key, accountId, request);
      if replay.Some? { return replay.value; }
      var id := columns.uuid(accountId);
      if id !in db.accounts { return Err(NotFound); }
      var account := db.accounts[id];
      if NeedsRights(a) && !w.rightsAllowed { return Err(RightsSuspended); }
      var aggregate := new InvestmentSubscription.Restore(account.state);
      var refusal := aggregate.Act(a, date, actor);
      if refusal.Some? { return Err(refusal.value); }
      var next, pending := aggregate.state, aggregate.events;
      assert pending == [Perform(account.state, a, date, actor).value.1];
      if a.Withdraw? {
        var available := 0;
        for i := 0 to |account.events|
          invariant available == Balance(account.events[..i])
          invariant db == old(db)
        {
          assert account.events[..i+1][..i] == account.events[..i];
          available := available + LedgerUnits(account.events[i]);
        }
        assert account.events[..|account.events|] == account.events;
        if available < Units(a.amount) { return Err(InsufficientBalance); }
      }
      if a.Activate? && !w.operationalReference { return Err(NoOperationalReference); }
      db := Db(db.accounts[id := account.(state := ReadBack(columns, next), events := account.events + pending)],
               db.commands[key := Command(id, request, next)]);
      result := Ok(next);
    }

    method CreateAccount(key: string, accountId: string, customerId: string, terms: string, maturityDate: Option<int>,
                         today: int, actor: string)
      returns (result: Result<State, Refusal>)
      modifies this
      ensures match Create(columns, old(db), key, accountId, customerId, terms, maturityDate, today, actor)
              case Ok((saved, state)) => db == saved && result == Ok(state)
              case Err(e) => db == old(db) && result == Err(e)
    {
      var request := Creation(accountId, customerId, terms, maturityDate, actor);
      var replay := Replay(db, key, accountId, request);
      if replay.Some? { return replay.value; }
      var id := columns.uuid(accountId);
      if id in db.accounts { return Err(AccountExists); }
      var state := InitialState(terms, maturityDate);
      db := Db(db.accounts[id := NewAccount(columns, customerId, state, today, actor)],
               db.commands[key := Command(id, request, state)]);
      result := Ok(state);
    }

    /** The balance view: deposits and withdrawals are summed separately. */
    method FindWithBalance(accountId: string) returns (found: Option<(int, int, int)>)
      ensures found.None? <==> columns.uuid(accountId) !in db.accounts
      ensures found.Some? ==>
                var events := db.accounts[columns.uuid(accountId)].events;
                found.value == (Deposits(events) - Withdrawals(events), Deposits(events), Withdrawals(events))
    {
      var id := columns.uuid(accountId);
      if id !in db.accounts { return None; }
      var events := db.accounts[id].events;
      var deposits, withdrawals := 0, 0;
      for i := 0 to |events|
        invariant deposits == Deposits(events[..i]) && withdrawals == Withdrawals(events[..i])
      {
        assert events[..i+1][..i] == events[..i];
        if events[i].detail.Deposited? { deposits := deposits + Units(events[i].detail.amount); }
        if events[i].detail.Withdrawn? { withdrawals := withdrawals + Units(events[i].detail.amount); }
      }
      assert events[..|events|] == events;
      found := Some((deposits - withdrawals, deposits, withdrawals));
    }
  }

  function Deposits(events: seq<Event>): int {
    if events == [] then 0 else
      Deposits(events[..|events|-1]) + if events[|events|-1].detail.Deposited? then
        Units(events[|events|-1].detail.amount) else 0
  }

  function Withdrawals(events: seq<Event>): int {
    if events == [] then 0 else
      Withdrawals(events[..|events|-1]) + if events[|events|-1].detail.Withdrawn? then
        Units(events[|events|-1].detail.amount) else 0
  }

  // ----- Any number of commands -----

  datatype Call =
    | CreateCall(key: string, accountId: string, customerId: string, terms: string, maturityDate: Option<int>,
                 today: int, actor: string)
    | ActCall(key: string, accountId: string, action: Action, date: Date, actor: string, w: Surroundings)

  function Changed(db: Db, r: Result<(Db, State), Refusal>): Db {
    match r
    case Ok((saved, _)) => saved
    case Err(_) => db
  }

  function Apply(c: Columns, db: Db, call: Call): Db {
    match call
    case CreateCall(key, accountId, customerId, terms, maturityDate, today, actor) =>
      Changed(db, Create(c, db, key, accountId, customerId, terms, maturityDate, today, actor))
    case ActCall(key, accountId, action, date, actor, w) =>
      Changed(db, Transition(c, db, key, accountId, action, date, actor, w))
  }

  function RunAll(c: Columns, db: Db, calls: seq<Call>): Db {
    if calls == [] then db else Apply(c, RunAll(c, db, calls[..|calls|-1]), calls[|calls|-1])
  }

  // ----- What every account keeps -----

  /** The status an event leads to. */
  function StatusAfter(status: Status, d: Detail): Status {
    match d
    case Simulated => PreSimulation
    case SubscriptionStarted => PendingSubscription
    case Activated => Active
    case WasBlocked(_) => Blocked
    case WasUnblocked(_) => Active
    case Renewed(_) => Active
    case HasMatured => Matured
    case SuccessionOpened(_) => Succession
    case WasClosed => Closed
    case _ => status
  }

  /** The status an account's history leads to. */
  function StatusOf(events: seq<Event>): Status {
    if events == [] then PreSimulation else StatusAfter(StatusOf(events[..|events|-1]), events[|events|-1].detail)
  }

  predicate WasActivated(s: Status) { s != PreSimulation && s != PendingSubscription }

  /** The statuses an event may be recorded in, as the contract lists them. */
  function RecordedIn(d: Detail): set<Status> {
    match d
    case Simulated => {PreSimulation}
    case SubscriptionStarted => {PreSimulation}
    case TermsAccepted => {PendingSubscription}
    case Activated => {PendingSubscription}
    case Deposited(_) => {Active}
    case Withdrawn(_) => {Active}
    case WasBlocked(_) => {Active}
    case WasUnblocked(_) => {Blocked}
    case Renewed(_) => {Active, Matured}
    case HasMatured => {Active}
    case SuccessionOpened(_) => {Active, Blocked, Matured}
    case WasClosed => {Active, Blocked, Matured, Succession}
  }

  ghost predicate AccountOk(a: Account) {
    && a.state.status == StatusOf(a.events)
    && (WasActivated(a.state.status) ==> a.state.acceptance.Some?)
    && (a.state.acceptance.Some? ==> a.state.acceptance.value.nonGuarantee && a.state.acceptance.value.profitSharing)
    && (forall n :: 0 <= n <= |a.events| ==> Balance(a.events[..n]) >= 0)
    && (forall n :: 0 <= n < |a.events| && a.events[n].detail.WasClosed? ==>
        n == |a.events| - 1 && a.state.status == Closed)
    && (forall n :: 0 <= n < |a.events| ==> StatusOf(a.events[..n]) in RecordedIn(a.events[n].detail))
  }

  ghost predicate Inv(db: Db) { forall id <- db.accounts :: AccountOk(db.accounts[id]) }

  lemma StatusExtends(events: seq<Event>, e: Event)
    ensures StatusOf(events + [e]) == StatusAfter(StatusOf(events), e.detail)
    ensures Balance(events + [e]) == Balance(events) + LedgerUnits(e)
  {
    assert (events + [e])[..|events|] == events;
  }

  /** An action's event leads from the old status to the new one; nothing acts on a closed account. */
  lemma PerformFacts(s: State, a: Action, date: Date, actor: string)
    requires Perform(s, a, date, actor).Ok?
    ensures var (next, event) := Perform(s, a, date, actor).value;
            && next.status == StatusAfter(s.status, event.detail) && s.status != Closed
            && (event.detail.WasClosed? <==> next.status == Closed)
            && s.status in RecordedIn(event.detail)
            && (WasActivated(next.status) && !WasActivated(s.status) ==> s.acceptance.Some?)
            && (next.acceptance == s.acceptance
                || (next.acceptance.Some? && next.acceptance.value.nonGuarantee && next.acceptance.value.profitSharing))
            && LedgerUnits(event) == (if a.Deposit? then Units(a.amount) else if a.Withdraw? then 0 - Units(a.amount)
                                      else 0)
            && (a.Deposit? || a.Withdraw? ==> Positive(a.amount))
  {
    hide Positive, Units;
  }

  lemma AccountAdvances(c: Columns, account: Account, a: Action, date: Date, actor: string)
    requires AccountOk(account) && Perform(account.state, a, date, actor).Ok?
    requires a.Withdraw? ==> Balance(account.events) >= Units(a.amount)
    ensures var (next, event) := Perform(account.state, a, date, actor).value;
            AccountOk(WithEvent(c, account, next, event))
  {
    hide Perform, Positive, Units, StatusOf, Balance, LedgerUnits, RecordedIn;
    var (next, event) := Perform(account.state, a, date, actor).value;
    PerformFacts(account.state, a, date, actor);
    StatusExtends(account.events, event);
    if a.Deposit? || a.Withdraw? { PositiveAmounts(a.amount); }
    var events := account.events + [event];
    assert events[..|account.events|] == account.events && events[..|events|] == events;
    assert account.events[..|account.events|] == account.events;
    forall n | 0 <= n <= |events| ensures Balance(events[..n]) >= 0 {
      if n <= |account.events| { assert events[..n] == account.events[..n]; }
    }
    forall n | 0 <= n < |events| ensures StatusOf(events[..n]) in RecordedIn(events[n].detail) {
      assert events[..n] == account.events[..n];
    }
  }

  lemma NewAccountOk(c: Columns, customerId: string, terms: string, maturityDate: Option<int>, today: int,
                     actor: string)
    ensures AccountOk(NewAccount(c, customerId, InitialState(terms, maturityDate), today, actor))
  {
    var e := Event(Simulated, today, actor);
    StatusExtends([], e);
    assert [] + [e] == [e];
    assert [e][..0] == [] && [e][..1] == [e];
  }

  lemma StepKeepsInv(c: Columns, db: Db, call: Call)
    requires Inv(db)
    ensures Inv(Apply(c, db, call))
  {
    hide Perform, AccountOk, Balance, Units, InitialState, RecordedIn, NewAccount, WithEvent;
    match call
    case CreateCall(_, _, customerId, terms, maturityDate, today, actor) =>
      NewAccountOk(c, customerId, terms, maturityDate, today, actor);
    case ActCall(key, accountId, a, date, actor, w) =>
      if Transition(c, db, key, accountId, a, date, actor, w).Ok? && key !in db.commands {
        AccountAdvances(c, db.accounts[c.uuid(accountId)], a, date, actor);
      }
  }

  lemma {:induction false} RunKeepsInv(c: Columns, calls: seq<Call>)
    ensures Inv(RunAll(c, EMPTY, calls))
  {
    hide Apply, AccountOk;
    if calls != [] {
      RunKeepsInv(c, calls[..|calls|-1]);
      StepKeepsInv(c, RunAll(c, EMPTY, calls[..|calls|-1]), calls[|calls|-1]);
    }
  }

  // ----- Main results -----

  lemma {:induction false} BalanceIsDepositsMinusWithdrawals(events: seq<Event>)
    ensures Balance(events) == Deposits(events) - Withdrawals(events)
  {
    hide Units;
    if events != [] { BalanceIsDepositsMinusWithdrawals(events[..|events|-1]); }
  }

  /** Over every run of commands and replays the balance after each event is not negative, and it is the
      queried deposits minus the queried withdrawals. */
  lemma LedgerNeverNegative(c: Columns, calls: seq<Call>, accountId: string, n: nat)
    requires accountId in RunAll(c, EMPTY, calls).accounts && n <= |RunAll(c, EMPTY, calls).accounts[accountId].events|
    ensures var events := RunAll(c, EMPTY, calls).accounts[accountId].events;
            0 <= Balance(events[..n]) == Deposits(events[..n]) - Withdrawals(events[..n])
  {
    hide RunAll, Balance, Deposits, Withdrawals, StatusOf;
    RunKeepsInv(c, calls);
    assert AccountOk(RunAll(c, EMPTY, calls).accounts[accountId]);
    BalanceIsDepositsMinusWithdrawals(RunAll(c, EMPTY, calls).accounts[accountId].events[..n]);
  }

  /** Every account that was ever activated carries an acceptance with both flags; its status is what its
      history leads to; every event, a deposit or withdrawal among them, happened in a status the contract
      allows it in, and nothing follows the closing. */
  lemma HistoryExplainsStatus(c: Columns, calls: seq<Call>, accountId: string)
    requires accountId in RunAll(c, EMPTY, calls).accounts
    ensures var a := RunAll(c, EMPTY, calls).accounts[accountId];
            && a.state.status == StatusOf(a.events)
            && (WasActivated(a.state.status) ==>
                a.state.acceptance.Some? && a.state.acceptance.value.nonGuarantee &&
                a.state.acceptance.value.profitSharing)
            && (forall n :: 0 <= n < |a.events| ==> StatusOf(a.events[..n]) in RecordedIn(a.events[n].detail))
            && (forall n :: 0 <= n < |a.events| && a.events[n].detail.WasClosed? ==> n == |a.events| - 1)
  {
    hide RunAll, Balance, StatusOf;
    RunKeepsInv(c, calls);
    assert AccountOk(RunAll(c, EMPTY, calls).accounts[accountId]);
  }

  ghost predicate Follows(a: Db, b: Db) {
    && (forall id <- a.accounts :: id in b.accounts && a.accounts[id].events <= b.accounts[id].events
          && (a.accounts[id].state.status == Closed ==> b.accounts[id] == a.accounts[id]))
    && (forall key <- a.commands :: key in b.commands && b.commands[key] == a.commands[key])
  }

  lemma StepFollows(c: Columns, db: Db, call: Call)
    ensures Follows(db, Apply(c, db, call))
  {
    hide Perform, Balance, Units, InitialState, ReadBack;
    match call
    case CreateCall(_, _, _, _, _, _, _) =>
    case ActCall(key, accountId, a, date, actor, w) =>
      if Transition(c, db, key, accountId, a, date, actor, w).Ok? && key !in db.commands {
        PerformFacts(db.accounts[c.uuid(accountId)].state, a, date, actor);
      }
  }

  /** Histories only grow, a closed account never changes again, and recorded commands stay. */
  lemma {:induction false} LaterFollows(c: Columns, calls: seq<Call>, more: seq<Call>)
    ensures Follows(RunAll(c, EMPTY, calls), RunAll(c, EMPTY, calls + more))
    decreases |more|
  {
    hide Apply;
    if more == [] {
      assert calls + more == calls;
    } else {
      var front := more[..|more|-1];
      assert (calls + more)[..|calls + more|-1] == calls + front;
      LaterFollows(c, calls, front);
      StepFollows(c, RunAll(c, EMPTY, calls + front), more[|more|-1]);
    }
  }

  /** After an action succeeded, repeating it with its key at any later time, even on an account closed since,
      changes nothing. It answers the recorded state if and only if the identifier was submitted as its column
      gives it back; in any other spelling it is refused as a conflict. */
  lemma ReplayIsAnsweredExactly(c: Columns, calls: seq<Call>, more: seq<Call>, key: string, accountId: string,
                                a: Action, date: Date, actor: string, w: Surroundings, later: Surroundings)
    requires Transition(c, RunAll(c, EMPTY, calls), key, accountId, a, date, actor, w).Ok?
    ensures var state := Transition(c, RunAll(c, EMPTY, calls), key, accountId, a, date, actor, w).value.1;
            var db := RunAll(c, EMPTY, calls + [ActCall(key, accountId, a, date, actor, w)] + more);
            Transition(c, db, key, accountId, a, date, actor, later)
            == if c.uuid(accountId) == accountId then Ok((db, state)) else Err(KeyConflict)
  {
    hide Perform, Balance, Units, WithEvent, NamesAccounts;
    var done := calls + [ActCall(key, accountId, a, date, actor, w)];
    assert done[..|done|-1] == calls;
    CommandsName(c, calls);
    ActionIsRecorded(c, RunAll(c, EMPTY, calls), key, accountId, a, date, actor, w);
    LaterFollows(c, done, more);
    var db := RunAll(c, EMPTY, done + more);
    hide RunAll;
    assert key in db.commands;
  }

  /** Every recorded command names the account of its request, as the column gives it back. */
  ghost predicate NamesAccounts(c: Columns, db: Db) {
    forall key <- db.commands :: db.commands[key].accountId == c.uuid(db.commands[key].request.accountId)
  }

  lemma {:induction false} CommandsName(c: Columns, calls: seq<Call>)
    ensures NamesAccounts(c, RunAll(c, EMPTY, calls))
  {
    hide Perform, Balance, Units, WithEvent, NewAccount, InitialState;
    if calls != [] { CommandsName(c, calls[..|calls|-1]); }
  }

  /** A successful creation or action is on record under its key. */
  lemma CreationIsRecorded(c: Columns, db: Db, key: string, accountId: string, customerId: string, terms: string,
                           maturity: Option<int>, today: int, actor: string)
    requires NamesAccounts(c, db) && Create(c, db, key, accountId, customerId, terms, maturity, today, actor).Ok?
    ensures var (saved, state) := Create(c, db, key, accountId, customerId, terms, maturity, today, actor).value;
            && key in saved.commands
            && saved.commands[key]
               == Command(c.uuid(accountId), Creation(accountId, customerId, terms, maturity, actor), state)
  {
    hide NewAccount, InitialState;
  }

  lemma ActionIsRecorded(c: Columns, db: Db, key: string, accountId: string, a: Action, date: Date, actor: string,
                         w: Surroundings)
    requires NamesAccounts(c, db) && Transition(c, db, key, accountId, a, date, actor, w).Ok?
    ensures var (saved, state) := Transition(c, db, key, accountId, a, date, actor, w).value;
            && key in saved.commands
            && saved.commands[key] == Command(c.uuid(accountId), Of(accountId, a, date, actor), state)
  {
    hide Perform, WithEvent, Balance, Units;
  }

  /** Repeating a creation with its key at any later time changes nothing. It answers the first state if and
      only if the maturity date is the same and the identifier was submitted as its column gives it back;
      otherwise it is refused as a conflict. */
  lemma ReplayedCreation(c: Columns, calls: seq<Call>, more: seq<Call>, key: string, accountId: string,
                         customerId: string, terms: string, maturity: Option<int>, other: Option<int>,
                         today: int, later: int, actor: string)
    requires Create(c, RunAll(c, EMPTY, calls), key, accountId, customerId, terms, maturity, today, actor).Ok?
    ensures var state := Create(c, RunAll(c, EMPTY, calls), key, accountId, customerId, terms, maturity, today,
                                actor).value.1;
            var call := CreateCall(key, accountId, customerId, terms, maturity, today, actor);
            var db := RunAll(c, EMPTY, calls + [call] + more);
            Create(c, db, key, accountId, customerId, terms, other, later, actor)
            == if other == maturity && c.uuid(accountId) == accountId then Ok((db, state)) else Err(KeyConflict)
  {
    hide NewAccount, InitialState, NamesAccounts;
    var done := calls + [CreateCall(key, accountId, customerId, terms, maturity, today, actor)];
    assert done[..|done|-1] == calls;
    CommandsName(c, calls);
    CreationIsRecorded(c, RunAll(c, EMPTY, calls), key, accountId, customerId, terms, maturity, today, actor);
    LaterFollows(c, done, more);
    var db := RunAll(c, EMPTY, done + more);
    hide RunAll;
    assert key in db.commands;
  }

  /** Identifiers may be written in capitals, which their column lowers: a subscription created under one with
      one capital is accepted, and its repetition refused. */
  lemma CapitalsConflict(c: Columns, key: string, customerId: string, terms: string, today: int, actor: string)
    requires c.uuid("A0000000-0000-4000-8000-000000000000") == "a0000000-0000-4000-8000-000000000000"
    ensures var first := Create(c, EMPTY, key, "A0000000-0000-4000-8000-000000000000", customerId, terms, None,
                                today, actor);
            && first.Ok?
            && Create(c, first.value.0, key, "A0000000-0000-4000-8000-000000000000", customerId, terms, None, today,
                      actor) == Err(KeyConflict)
  {
    assert "A0000000-0000-4000-8000-000000000000"[0] == 'A' && "a0000000-0000-4000-8000-000000000000"[0] == 'a';
  }

  // ----- When a command succeeds, and what it does -----

  /** The units of 10^-12 that a canonical decimal of at most twelve fraction digits writes. */
  function AmountOf(text: string): Option<nat> {
    match D.MatchUnsigned(text, false)
    case Some(m) => if |m.fraction| <= 12 then Some(D.Magnitude(m, 12)) else None
    case None => None
  }

  lemma AmountsAreWritten(text: string)
    ensures Units(text) == (if AmountOf(text).Some? then AmountOf(text).value else 0)
    ensures Positive(text) <==> AmountOf(text).Some? && AmountOf(text).value > 0
  {
    hide D.MatchUnsigned, D.Value, D.Pow10;
    var r := D.MatchUnsigned(text, false);
    if r.Some? && |r.value.fraction| <= AMOUNT_SCALE {
      var m := r.value;
      assert !m.negative by { Unsigned(text); }
      D.UnitsMagnitude(m, AMOUNT_SCALE);
      D.ValueConcat(m.whole, m.fraction);
      D.Pow10Add(|m.fraction|, AMOUNT_SCALE - |m.fraction|);
      SameSign(D.Value(m.whole), D.Value(m.fraction), D.Pow10(|m.fraction|), D.Pow10(AMOUNT_SCALE - |m.fraction|));
    }
  }

  lemma Unsigned(text: string)
    requires D.MatchUnsigned(text, false).Some?
    ensures !D.MatchUnsigned(text, false).value.negative
  {}

  lemma SameSign(w: nat, f: nat, p: nat, q: nat)
    requires p > 0 && q > 0
    ensures w * p + f > 0 <==> w * (p * q) + f * q > 0
  {
    assert w * (p * q) + f * q == (w * p + f) * q;
  }

  /** What the contract, the ledger and the surroundings ask of an action on an account. */
  predicate Allowed(account: Account, a: Action, date: Date, actor: string, w: Surroundings) {
    var status, events := account.state.status, account.events;
    && date.Some? && Trim(actor) != ""
    && match a
       case Start => status == PreSimulation
       case Accept(at, nonGuarantee, profitSharing) =>
         status == PendingSubscription && at.Some? && nonGuarantee && profitSharing
       case Activate =>
         status == PendingSubscription && account.state.acceptance.Some? && w.rightsAllowed && w.operationalReference
       case Deposit(amount) =>
         status == Active && w.rightsAllowed && AmountOf(amount).Some? && AmountOf(amount).value > 0
       case Withdraw(amount) =>
         && status == Active && w.rightsAllowed && AmountOf(amount).Some?
         && 0 < AmountOf(amount).value <= Deposits(events) - Withdrawals(events)
       case Block(_) => status == Active
       case Unblock(_) => status == Blocked
       case Renew(maturity) => (status == Active || status == Matured) && maturity.Some? && w.rightsAllowed
       case Mature => status == Active && w.rightsAllowed
       case OpenSuccession(reference) =>
         (status == Active || status == Blocked || status == Matured) && Trim(reference) != "" && w.rightsAllowed
       case Close =>
         && (status == Active || status == Blocked || status == Matured || status == Succession) && w.rightsAllowed
  }

  /** In every state an action under a fresh key on an existing account succeeds exactly when it is allowed; a
      withdrawal in particular up to the whole balance, deposits minus withdrawals. */
  lemma ActionSucceedsExactly(c: Columns, db: Db, key: string, accountId: string, a: Action, date: Date, actor: string,
                              w: Surroundings)
    requires key !in db.commands
    ensures Transition(c, db, key, accountId, a, date, actor, w).Ok?
            <==> c.uuid(accountId) in db.accounts && Allowed(db.accounts[c.uuid(accountId)], a, date, actor, w)
  {
    hide Trim, Positive, Units, AmountOf, Balance, Deposits, Withdrawals, WithEvent;
    if c.uuid(accountId) in db.accounts {
      BalanceIsDepositsMinusWithdrawals(db.accounts[c.uuid(accountId)].events);
    }
    if a.Deposit? || a.Withdraw? { AmountsAreWritten(a.amount); }
  }

  /** A refused action is refused for a reason that holds. */
  lemma ActionRefusalsHold(c: Columns, db: Db, key: string, accountId: string, a: Action, date: Date, actor: string,
                           w: Surroundings)
    requires key !in db.commands && Transition(c, db, key, accountId, a, date, actor, w).Err?
    ensures var refusal, id := Transition(c, db, key, accountId, a, date, actor, w).error, c.uuid(accountId);
            if id !in db.accounts then refusal == NotFound else
              var s, events := db.accounts[id].state, db.accounts[id].events;
              match refusal
              case RightsSuspended => !w.rightsAllowed && !(a.Start? || a.Accept? || a.Block? || a.Unblock?)
              case Forbidden => forall account: Account :: account.state.status == s.status ==>
                                  !Allowed(account, a, date, actor, w)
              case NotAccepted => a.Accept? && !(a.nonGuarantee && a.profitSharing)
              case InvalidEvidence => a.Accept? && (a.acceptedAt.None? || Trim(actor) == "")
              case AcceptanceMissing => a.Activate? && s.acceptance.None?
              case NotPositive =>
                (a.Deposit? || a.Withdraw?) && (AmountOf(a.amount).None? || AmountOf(a.amount).value == 0)
              case InvalidDate => date.None? || (a.Renew? && a.maturityDate.None?)
              case ActorMissing => Trim(actor) == ""
              case CaseMissing => a.OpenSuccession? && Trim(a.caseReference) == ""
              case InsufficientBalance =>
                && a.Withdraw? && AmountOf(a.amount).Some?
                && AmountOf(a.amount).value > Deposits(events) - Withdrawals(events)
              case NoOperationalReference => a.Activate? && !w.operationalReference
              case _ => false
  {
    hide Trim, Positive, Units, AmountOf, Balance, Deposits, Withdrawals, WithEvent;
    if c.uuid(accountId) in db.accounts {
      BalanceIsDepositsMinusWithdrawals(db.accounts[c.uuid(accountId)].events);
    }
    if a.Deposit? || a.Withdraw? { AmountsAreWritten(a.amount); }
  }

  /** The entry that an action leaves in the history. */
  predicate Leaves(a: Action, d: Detail) {
    match a
    case Start => d == SubscriptionStarted
    case Accept(_, _, _) => d == TermsAccepted
    case Activate => d == Activated
    case Deposit(amount) => d == Deposited(amount)
    case Withdraw(amount) => d == Withdrawn(amount)
    case Block(reason) => d == WasBlocked(reason)
    case Unblock(reason) => d == WasUnblocked(reason)
    case Renew(maturity) => maturity.Some? && d == Renewed(maturity.value)
    case Mature => d == HasMatured
    case OpenSuccession(reference) => d == SuccessionOpened(reference)
    case Close => d == WasClosed
  }

  /** The dates and the acceptance after an action: the opening date is set by activation alone, the maturity date by
      renewal alone, the closing date by closing alone, the acceptance by accepting alone. */
  predicate Advances(was: State, a: Action, date: Date, actor: string, next: State, event: Event) {
    && date.Some? && event.businessDate == date.value && event.actorId == actor && Leaves(a, event.detail)
    && next.terms == was.terms && next.status == StatusAfter(was.status, event.detail)
    && next.openedOn == (if a.Activate? then date else was.openedOn)
    && next.maturityDate == (if a.Renew? then a.maturityDate else was.maturityDate)
    && next.closedOn == (if a.Close? then date else was.closedOn)
    && next.acceptance == (if a.Accept? && a.acceptedAt.Some? then
                             Some(Acceptance(a.acceptedAt.value, actor, true, true)) else was.acceptance)
  }

  lemma PerformAdvances(was: State, a: Action, date: Date, actor: string)
    requires Perform(was, a, date, actor).Ok?
    ensures var (next, event) := Perform(was, a, date, actor).value; Advances(was, a, date, actor, next, event)
  {
    hide Trim, Positive;
  }

  /** A successful action appends one event, of its own kind, date and actor, to the history of its account, changes
      nothing else there but what it sets, and leaves every other account alone. */
  lemma ActionChanges(c: Columns, db: Db, key: string, accountId: string, a: Action, date: Date, actor: string,
                      w: Surroundings)
    requires key !in db.commands && Transition(c, db, key, accountId, a, date, actor, w).Ok?
    ensures c.uuid(accountId) in db.accounts
    ensures var (saved, answer) := Transition(c, db, key, accountId, a, date, actor, w).value;
            var before, id := db.accounts[c.uuid(accountId)], c.uuid(accountId);
            && saved.accounts.Keys == db.accounts.Keys
            && (forall other <- db.accounts :: other != id ==> saved.accounts[other] == db.accounts[other])
            && var after := saved.accounts[id];
            && after.customerId == before.customerId && after.state == ReadBack(c, answer)
            && |after.events| == |before.events| + 1 && before.events <= after.events
            && Advances(before.state, a, date, actor, answer, after.events[|before.events|])
  {
    hide Perform, Units, Balance, Advances, ReadBack;
    PerformAdvances(db.accounts[c.uuid(accountId)].state, a, date, actor);
  }

  /** A creation under a fresh key succeeds exactly when the identifier, as its column gives it back, is new. The new
      account has the customer, terms and maturity date given, no other date, and one event. */
  lemma CreationSucceedsExactly(c: Columns, db: Db, key: string, accountId: string, customerId: string, terms: string,
                                maturity: Option<int>, today: int, actor: string)
    requires key !in db.commands
    ensures var r := Create(c, db, key, accountId, customerId, terms, maturity, today, actor);
            && (r.Ok? <==> c.uuid(accountId) !in db.accounts)
            && (r.Ok? ==>
                  && r.value.1 == State(terms, PreSimulation, None, maturity, None, None)
                  && r.value.0.accounts.Keys == db.accounts.Keys + {c.uuid(accountId)}
                  && (forall id <- db.accounts :: r.value.0.accounts[id] == db.accounts[id])
                  && r.value.0.accounts[c.uuid(accountId)]
                     == Account(c.uuid(customerId), ReadBack(c, r.value.1), [Event(Simulated, today, actor)]))
  {
    hide ReadBack;
  }
}

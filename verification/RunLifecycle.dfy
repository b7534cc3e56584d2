/** The life of a calculation run: calculated, controlled, approved and posted by different people, its
    journal and the reversals of it. Every command is one transaction; a refusal changes nothing. */
module RunLifecycle {
  import opened Wrappers
  import opened Sums
  import J = Journal
  import M = Money
  import P = ProportionalAllocation

  datatype Status = Draft | Calculated | Controlled | Approved | Posted

  function Rank(s: Status): nat {
    match s case Draft => 0 case Calculated => 1 case Controlled => 2 case Approved => 3 case Posted => 4
  }

  datatype Inputs = Inputs(poolId: string, businessDate: int, rulesVersion: string, maker: string, production: bool)

  /** A calculated run keeps the snapshot it was calculated from and its allocations. */
  datatype CalculationOutcome = CalculationOutcome(distributable: M.Money, weights: seq<P.AllocationWeight>,
                                                   allocations: seq<P.Allocation>)

  datatype Run = Run(inputs: Inputs, status: Status, controller: Option<string>, approver: Option<string>,
                     outcome: Option<CalculationOutcome>)

  datatype Resource = OfRun(runId: string) | OfJournal(journal: nat)

  datatype Kind = Control | Approve | Post | Reverse

  datatype Action = Action(resource: Resource, kind: Kind, actor: string, justification: string)

  /** A posted journal: of a run, or the reversal of an earlier journal. */
  datatype Entry = Entry(runId: Option<string>, reversalOf: Option<nat>, createdBy: string, businessDate: int,
                         lines: seq<J.Line>)

  datatype Db = Db(runs: map<string, Run>, actions: map<string, Action>, journals: seq<Entry>)

  const EMPTY := Db(map[], map[], [])

  datatype Refusal =
    | NotFound | ConflictingInputs | WrongStatus | NoSnapshot | CalculationRefused | NotConserved
    | MakerActs | ControllerApproves | NotCertified | PurificationPending | KeyConflict | KeyTaken | ActionTaken
    | JournalRefused | NoJournal | PublicationBlocked | ReversalOfReversal | CreatorReverses | AlreadyReversed
    | DateDiffers

  // ----- Calculation -----

  datatype Snapshot = Snapshot(distributable: M.Money, amountScale: nat, weights: seq<P.AllocationWeight>)

  datatype Execution = CalculatedNow | AlreadyCalculated

  /** The stored amount is read at the scale of the pool. */
  function Calculation(s: Snapshot): Result<CalculationOutcome, Refusal> {
    match M.Parse(M.ToDecimalString(s.distributable), s.distributable.currency, s.amountScale)
    case Err(_) => Err(CalculationRefused)
    case Ok(amount) =>
      match P.Outcome(amount, s.weights)
      case Err(_) => Err(CalculationRefused)
      case Ok(allocations) =>
        if SumBy(P.UnitsOf(amount), allocations) != amount.minorUnits then Err(NotConserved)
        else Ok(CalculationOutcome(amount, s.weights, allocations))
  }

  function Execute(db: Db, runId: string, inputs: Inputs, snapshot: Option<Snapshot>)
    : Result<(Db, Execution), Refusal> {
    if runId in db.runs && db.runs[runId].inputs != inputs then Err(ConflictingInputs)
    else if runId in db.runs && db.runs[runId].status == Calculated then Ok((db, AlreadyCalculated))
    else if runId in db.runs && db.runs[runId].status != Draft then Err(WrongStatus)
    else if snapshot.None? then Err(NoSnapshot)
    else
      match Calculation(snapshot.value)
      case Err(e) => Err(e)
      case Ok(outcome) =>
        Ok((db.(runs := db.runs[runId := Run(inputs, Calculated, None, None, Some(outcome))]), CalculatedNow))
  }

  function Initiate(db: Db, runId: string, inputs: Inputs): Result<Db, Refusal> {
    if runId in db.runs then Err(ConflictingInputs)
    else Ok(db.(runs := db.runs[runId := Run(inputs, Draft, None, None, None)]))
  }

  // ----- Control and approval -----

  /** What other tables say: opening balances certified, an undocumented purification before the run's date. */
  datatype Surroundings = Surroundings(certified: bool, purificationPending: bool, blocked: bool, fractionDigits: nat)

  predicate Recorded(db: Db, resource: Resource, kind: Kind, actor: string) {
    exists key :: key in db.actions && db.actions[key].resource == resource && db.actions[key].kind == kind &&
      db.actions[key].actor == actor
  }

  /** The row of an action: its key and its resource, kind and actor are unique. */
  function WithAction(db: Db, key: string, a: Action): Result<Db, Refusal> {
    if key in db.actions then Err(KeyTaken)
    else if Recorded(db, a.resource, a.kind, a.actor) then Err(ActionTaken)
    else Ok(db.(actions := db.actions[key := a]))
  }

  function TransitionRun(run: Run, kind: Kind, actor: string, w: Surroundings): Result<Run, Refusal>
    requires kind == Control || kind == Approve
  {
    if run.inputs.maker == actor then Err(MakerActs)
    else if kind == Approve && run.controller == Some(actor) then Err(ControllerApproves)
    else if kind == Control then
      if run.status != Calculated then Err(WrongStatus) else Ok(run.(status := Controlled, controller := Some(actor)))
    else if run.status != Controlled then Err(WrongStatus)
    else if run.inputs.production && !w.certified then Err(NotCertified)
    else if w.purificationPending then Err(PurificationPending)
    else Ok(run.(status := Approved, approver := Some(actor)))
  }

  function StateOf(kind: Kind): Status
    requires kind == Control || kind == Approve
  {
    if kind == Control then Controlled else Approved
  }

  function Transition(db: Db, key: string, kind: Kind, runId: string, actor: string, justification: string,
                      w: Surroundings)
    : Result<(Db, Status), Refusal>
    requires kind == Control || kind == Approve
  {
    var action := Action(OfRun(runId), kind, actor, justification);
    if key in db.actions then
      if db.actions[key] == action then Ok((db, StateOf(kind))) else Err(KeyConflict)
    else if runId !in db.runs then Err(NotFound)
    else
      match TransitionRun(db.runs[runId], kind, actor, w)
      case Err(e) => Err(e)
      case Ok(run) =>
        match WithAction(db.(runs := db.runs[runId := run]), key, action)
        case Err(e) => Err(e)
        case Ok(saved) => Ok((saved, StateOf(kind)))
  }

  // ----- Posting -----

  /** The first journal of the run, the number of journals when there is none. */
  function JournalOf(journals: seq<Entry>, runId: string): (k: nat)
    ensures k <= |journals|
    ensures k < |journals| ==> journals[k].runId == Some(runId)
    ensures forall i :: 0 <= i < k ==> journals[i].runId != Some(runId)
  {
    if journals == [] || journals[0].runId == Some(runId) then 0 else 1 + JournalOf(journals[1..], runId)
  }

  function LinesOf(outcome: CalculationOutcome, fractionDigits: nat): Result<seq<J.Line>, J.JournalError> {
    J.AllocationJournalLines(outcome.allocations, M.ToDecimalString(outcome.distributable),
                             outcome.distributable.currency, fractionDigits)
  }

  function PostRun(db: Db, key: string, runId: string, actor: string, justification: string, w: Surroundings)
    : Result<(Db, nat), Refusal> {
    var action := Action(OfRun(runId), Post, actor, justification);
    if key in db.actions && db.actions[key].kind == Post then
      if db.actions[key] != action then Err(KeyConflict)
      else if JournalOf(db.journals, runId) == |db.journals| then Err(NoJournal)
      else Ok((db, JournalOf(db.journals, runId)))
    else if runId !in db.runs || db.runs[runId].outcome.None? then Err(NotFound)
    else
      var run := db.runs[runId];
      if run.status != Approved then Err(WrongStatus)
      else if run.inputs.maker == actor then Err(MakerActs)
      else
        match LinesOf(run.outcome.value, w.fractionDigits)
        case Err(_) => Err(JournalRefused)
        case Ok(lines) =>
          if w.blocked then Err(PublicationBlocked) else
            var entry := Entry(Some(runId), None, actor, run.inputs.businessDate, lines);
            match WithAction(db.(runs := db.runs[runId := run.(status := Posted)], journals := db.journals + [entry]),
                             key, action)
            case Err(e) => Err(e)
            case Ok(saved) => Ok((saved, |db.journals|))
  }

  // ----- Reversal -----

  function ReversalOf(journals: seq<Entry>, original: nat): (k: nat)
    ensures k <= |journals|
    ensures k < |journals| ==> journals[k].reversalOf == Some(original)
    ensures forall i :: 0 <= i < k ==> journals[i].reversalOf != Some(original)
  {
    if journals == [] || journals[0].reversalOf == Some(original) then 0 else 1 + ReversalOf(journals[1..], original)
  }

  function ReverseJournal(db: Db, key: string, original: nat, date: int, actor: string, justification: string,
                          w: Surroundings): Result<(Db, nat), Refusal> {
    var action := Action(OfJournal(original), Reverse, actor, justification);
    var existing := ReversalOf(db.journals, original);
    if key in db.actions && db.actions[key].kind == Reverse then
      if db.actions[key] != action then Err(KeyConflict)
      else if existing == |db.journals| || db.journals[existing].businessDate != date then Err(DateDiffers)
      else Ok((db, existing))
    else if original >= |db.journals| then Err(NotFound)
    else
      var entry := db.journals[original];
      if entry.reversalOf.Some? then Err(ReversalOfReversal)
      else if entry.createdBy == actor then Err(CreatorReverses)
      else
        match J.ReverseJournalLines(entry.lines, w.fractionDigits)
        case Err(_) => Err(JournalRefused)
        case Ok(lines) =>
          if existing < |db.journals| then Err(AlreadyReversed) else
            match WithAction(db.(journals := db.journals + [Entry(None, Some(original), actor, date, lines)]), key,
                             action)
            case Err(e) => Err(e)
            case Ok(saved) => Ok((saved, |db.journals|))
  }

  // ----- Any number of commands -----

  datatype Command =
    | InitiateRun(runId: string, inputs: Inputs)
    | ExecuteRun(runId: string, inputs: Inputs, snapshot: Option<Snapshot>)
    | ControlRun(key: string, runId: string, actor: string, justification: string, w: Surroundings)
    | ApproveRun(key: string, runId: string, actor: string, justification: string, w: Surroundings)
    | PostCommand(key: string, runId: string, actor: string, justification: string, w: Surroundings)
    | ReverseCommand(key: string, original: nat, date: int, actor: string, justification: string, w: Surroundings)

  function Changed<T>(db: Db, r: Result<(Db, T), Refusal>): Db {
    match r case Ok((saved, _)) => saved case Err(_) => db
  }

  function Apply(db: Db, c: Command): Db {
    match c
    case InitiateRun(runId, inputs) => (match Initiate(db, runId, inputs) case Ok(saved) => saved case Err(_) => db)
    case ExecuteRun(runId, inputs, snapshot) => Changed(db, Execute(db, runId, inputs, snapshot))
    case ControlRun(key, runId, actor, why, w) => Changed(db, Transition(db, key, Control, runId, actor, why, w))
    case ApproveRun(key, runId, actor, why, w) => Changed(db, Transition(db, key, Approve, runId, actor, why, w))
    case PostCommand(key, runId, actor, why, w) => Changed(db, PostRun(db, key, runId, actor, why, w))
    case ReverseCommand(key, original, date, actor, why, w) =>
      Changed(db, ReverseJournal(db, key, original, date, actor, why, w))
  }

  function RunAll(db: Db, commands: seq<Command>): Db {
    if commands == [] then db else Apply(RunAll(db, commands[..|commands|-1]), commands[|commands|-1])
  }

  // ----- The repositories -----

  class Repositories {
    var db: Db

    constructor ()
      ensures db == EMPTY
    {
      db := EMPTY;
    }

    /** Allocations are inserted one by one, then the sum of what was inserted is compared. */
    method ExecuteAtomically(runId: string, inputs: Inputs, snapshot: Option<Snapshot>)
      returns (result: Result<Execution, Refusal>)
      modifies this
      ensures match Execute(old(db), runId, inputs, snapshot)
              case Ok((saved, execution)) => db == saved && result == Ok(execution)
              case Err(e) => db == old(db) && result == Err(e)
    {
      hide P.Outcome, M.Parse, M.ToDecimalString;
      if runId in db.runs {
        var run := db.runs[runId];
        if run.inputs != inputs { return Err(ConflictingInputs); }
        if run.status == Calculated { return Ok(AlreadyCalculated); }
        if run.status != Draft { return Err(WrongStatus); }
      }
      if snapshot.None? { return Err(NoSnapshot); }
      var s := snapshot.value;
      var amount := M.Parse(M.ToDecimalString(s.distributable), s.distributable.currency, s.amountScale);
      if amount.Err? { return Err(CalculationRefused); }
      var allocations := P.AllocateProportionally(amount.value, s.weights);
      if allocations.Err? { return Err(CalculationRefused); }
      var inserted, sum := allocations.value, 0;
      for i := 0 to |inserted|
        invariant sum == SumBy(P.UnitsOf(amount.value), inserted[..i])
        invariant db == old(db)
      {
        assert inserted[..i+1] == inserted[..i] + [inserted[i]];
        SumByConcat(P.UnitsOf(amount.value), inserted[..i], [inserted[i]]);
        SumOfOne(P.UnitsOf(amount.value), inserted[i]);
        sum := sum + P.AmountUnits(inserted[i], amount.value);
      }
      assert inserted[..|inserted|] == inserted;
      if sum != amount.value.minorUnits { return Err(NotConserved); }
      db := db.(runs := db.runs[runId := Run(inputs, Calculated, None, None,
                                             Some(CalculationOutcome(amount.value, s.weights, inserted)))]);
      result := Ok(CalculatedNow);
    }

    method TransitionAction(key: string, kind: Kind, runId: string, actor: string, justification: string,
                            w: Surroundings)
      returns (result: Result<Status, Refusal>)
      requires kind == Control || kind == Approve
      modifies this
      ensures match Transition(old(db), key, kind, runId, actor, justification, w)
              case Ok((saved, status)) => db == saved && result == Ok(status)
              case Err(e) => db == old(db) && result == Err(e)
    {
      var action := Action(OfRun(runId), kind, actor, justification);
      if key in db.actions {
        return if db.actions[key] == action then Ok(StateOf(kind)) else Err(KeyConflict);
      }
      if runId !in db.runs { return Err(NotFound); }
      var run := TransitionRun(db.runs[runId], kind, actor, w);
      if run.Err? { return Err(run.error); }
      if Recorded(db, OfRun(runId), kind, actor) { return Err(ActionTaken); }
      db := db.(runs := db.runs[runId := run.value], actions := db.actions[key := action]);
      result := Ok(StateOf(kind));
    }

    method PostAtomically(key: string, runId: string, actor: string, justification: string, w: Surroundings)
      returns (result: Result<nat, Refusal>)
      modifies this
      ensures match PostRun(old(db), key, runId, actor, justification, w)
              case Ok((saved, journal)) => db == saved && result == Ok(journal)
              case Err(e) => db == old(db) && result == Err(e)
    {
      hide J.AllocationJournalLines, M.ToDecimalString;
      var action := Action(OfRun(runId), Post, actor, justification);
      if key in db.actions && db.actions[key].kind == Post {
        if db.actions[key] != action { return Err(KeyConflict); }
        var journal := JournalOf(db.journals, runId);
        return if journal == |db.journals| then Err(NoJournal) else Ok(journal);
      }
      if runId !in db.runs || db.runs[runId].outcome.None? { return Err(NotFound); }
      var run := db.runs[runId];
      if run.status != Approved { return Err(WrongStatus); }
      if run.inputs.maker == actor { return Err(MakerActs); }
      var o := run.outcome.value;
      var lines := J.BuildAllocationJournal(o.allocations, M.ToDecimalString(o.distributable),
                                            o.distributable.currency, w.fractionDigits);
      if lines.Err? { return Err(JournalRefused); }
      if w.blocked { return Err(PublicationBlocked); }
      if key in db.actions { return Err(KeyTaken); }
      if Recorded(db, OfRun(runId), Post, actor) { return Err(ActionTaken); }
      var journal := |db.journals|;
      db := Db(db.runs[runId := run.(status := Posted)], db.actions[key := action],
               db.journals + [Entry(Some(runId), None, actor, run.inputs.businessDate, lines.value)]);
      result := Ok(journal);
    }

    method ReverseAtomically(key: string, original: nat, date: int, actor: string, justification: string,
                             w: Surroundings) returns (result: Result<nat, Refusal>)
      modifies this
      ensures match ReverseJournal(old(db), key, original, date, actor, justification, w)
              case Ok((saved, journal)) => db == saved && result == Ok(journal)
              case Err(e) => db == old(db) && result == Err(e)
    {
      hide J.ReverseJournalLines;
      var action := Action(OfJournal(original), Reverse, actor, justification);
      var existing := ReversalOf(db.journals, original);
      if key in db.actions && db.actions[key].kind == Reverse {
        if db.actions[key] != action { return Err(KeyConflict); }
        return if existing == |db.journals| || db.journals[existing].businessDate != date then Err(DateDiffers)
        else Ok(existing);
      }
      if original >= |db.journals| { return Err(NotFound); }
      var entry := db.journals[original];
      if entry.reversalOf.Some? { return Err(ReversalOfReversal); }
      if entry.createdBy == actor { return Err(CreatorReverses); }
      var lines := J.ReverseJournalLines(entry.lines, w.fractionDigits);
      if lines.Err? { return Err(JournalRefused); }
      if existing < |db.journals| { return Err(AlreadyReversed); }
      if key in db.actions { return Err(KeyTaken); }
      if Recorded(db, OfJournal(original), Reverse, actor) { return Err(ActionTaken); }
      var journal := |db.journals|;
      db := db.(actions := db.actions[key := action],
                journals := db.journals + [Entry(None, Some(original), actor, date, lines.value)]);
      result := Ok(journal);
    }
  }

  lemma SumOfOne<T>(f: T -> int, x: T)
    ensures SumBy(f, [x]) == f(x)
  {}
}

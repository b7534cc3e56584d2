/** When the commands of the run life cycle succeed in a reachable state, and what each changes. */
module RunCommands {
  import opened Wrappers
  import opened RunLifecycle
  import opened RunSafety
  import J = Journal
  import A = AllocationJournal
  import M = Money
  import P = ProportionalAllocation

  // ----- Recorded actions have taken effect -----

  ghost predicate IsReversed(db: Db, original: nat) {
    exists k :: 0 <= k < |db.journals| && db.journals[k].reversalOf == Some(original)
  }

  /** The run or journal of a recorded action is past it. */
  ghost predicate HasEffect(db: Db, a: Action) {
    match a.kind
    case Control => a.resource.OfRun? && a.resource.runId in db.runs && Rank(db.runs[a.resource.runId].status) >= 2
    case Approve => a.resource.OfRun? && a.resource.runId in db.runs && Rank(db.runs[a.resource.runId].status) >= 3
    case Post => true
    case Reverse => a.resource.OfJournal? && IsReversed(db, a.resource.journal)
  }

  ghost predicate ActionsHaveEffect(db: Db) { forall key <- db.actions :: HasEffect(db, db.actions[key]) }

  lemma EffectStays(a: Db, b: Db, action: Action)
    requires Follows(a, b) && HasEffect(a, action)
    ensures HasEffect(b, action)
  {
    if action.kind == Reverse {
      var k :| 0 <= k < |a.journals| && a.journals[k].reversalOf == Some(action.resource.journal);
      assert b.journals[k] == a.journals[k];
    }
  }

  /** A command that records an action makes it effective. */
  lemma NewActionHasEffect(db: Db, c: Command, key: string)
    requires key in Apply(db, c).actions && key !in db.actions
    ensures HasEffect(Apply(db, c), Apply(db, c).actions[key])
  {
    hide LinesOf, Calculation, J.ReverseJournalLines, Recorded;
    if c.ReverseCommand? {
      var t := Apply(db, c);
      assert t.journals[|db.journals|].reversalOf == Some(c.original);
    }
  }

  lemma {:induction false} RunHasEffects(commands: seq<Command>)
    ensures ActionsHaveEffect(RunAll(EMPTY, commands))
  {
    hide Apply, HasEffect, Follows;
    if commands != [] {
      var front, c := commands[..|commands|-1], commands[|commands|-1];
      var a, b := RunAll(EMPTY, front), RunAll(EMPTY, commands);
      RunHasEffects(front);
      RunHasNoEarlySigners(front);
      StepFollows(a, c);
      forall key | key in b.actions ensures HasEffect(b, b.actions[key]) {
        if key in a.actions {
          assert b.actions[key] == a.actions[key] by { ActionsStay(a, b, key); }
          EffectStays(a, b, a.actions[key]);
        } else {
          NewActionHasEffect(a, c, key);
        }
      }
    }
  }

  lemma ActionsStay(a: Db, b: Db, key: string)
    requires Follows(a, b) && key in a.actions
    ensures key in b.actions && b.actions[key] == a.actions[key]
  {}

  lemma NotYetSigned(db: Db, runId: string, kind: Kind, actor: string)
    requires ActionsHaveEffect(db) && runId in db.runs
    requires kind == Control || kind == Approve
    requires Rank(db.runs[runId].status) < if kind == Control then 2 else 3
    ensures !Recorded(db, OfRun(runId), kind, actor)
  {}

  // ----- Control and approval -----

  /** What a signature leaves: the run in its new status with its signer, the action under its key, all else as it
      was. */
  ghost predicate Signed(db: Db, saved: Db, key: string, runId: string, next: Run, action: Action) {
    && saved.runs.Keys == db.runs.Keys && runId in db.runs && saved.runs[runId] == next
    && (forall id <- db.runs :: id != runId ==> saved.runs[id] == db.runs[id])
    && saved.actions == db.actions[key := action] && saved.journals == db.journals
  }

  /** In every reachable state a control under a fresh key succeeds exactly when the run is calculated and the actor is
      not its maker. */
  lemma ControlSucceedsExactly(commands: seq<Command>, key: string, runId: string, actor: string, why: string,
                               w: Surroundings)
    requires key !in RunAll(EMPTY, commands).actions
    ensures var db := RunAll(EMPTY, commands);
            var r := Transition(db, key, Control, runId, actor, why, w);
            && (r.Ok? <==>
                runId in db.runs && db.runs[runId].status == Calculated && db.runs[runId].inputs.maker != actor)
            && (r.Ok? ==>
                r.value.1 == Controlled && Signed(db, r.value.0, key, runId,
                                                  db.runs[runId].(status := Controlled, controller := Some(actor)),
                                                  Action(OfRun(runId), Control, actor, why)))
  {
    hide RunAll, Recorded, ActionsHaveEffect;
    RunHasEffects(commands);
    var db := RunAll(EMPTY, commands);
    if runId in db.runs && db.runs[runId].status == Calculated {
      NotYetSigned(db, runId, Control, actor);
      SameRecords(db, db.(runs := db.runs[runId := db.runs[runId].(status := Controlled, controller := Some(actor))]),
                  OfRun(runId), Control, actor);
    }
  }

  /** An approval succeeds exactly when the run is controlled, the actor neither its maker nor its controller, the
      opening balances of a production run are certified, and no purification is pending. */
  lemma ApprovalSucceedsExactly(commands: seq<Command>, key: string, runId: string, actor: string, why: string,
                                w: Surroundings)
    requires key !in RunAll(EMPTY, commands).actions
    ensures var db := RunAll(EMPTY, commands);
            var r := Transition(db, key, Approve, runId, actor, why, w);
            && (r.Ok? <==>
                && runId in db.runs && db.runs[runId].status == Controlled && db.runs[runId].inputs.maker != actor
                && db.runs[runId].controller != Some(actor) && (db.runs[runId].inputs.production ==> w.certified)
                && !w.purificationPending)
            && (r.Ok? ==>
                r.value.1 == Approved && Signed(db, r.value.0, key, runId,
                                                db.runs[runId].(status := Approved, approver := Some(actor)),
                                                Action(OfRun(runId), Approve, actor, why)))
  {
    hide RunAll, Recorded, ActionsHaveEffect;
    RunHasEffects(commands);
    var db := RunAll(EMPTY, commands);
    if runId in db.runs && db.runs[runId].status == Controlled {
      NotYetSigned(db, runId, Approve, actor);
      SameRecords(db, db.(runs := db.runs[runId := db.runs[runId].(status := Approved, approver := Some(actor))]),
                  OfRun(runId), Approve, actor);
    }
  }

  lemma SameRecords(a: Db, b: Db, resource: Resource, kind: Kind, actor: string)
    requires a.actions == b.actions
    ensures Recorded(a, resource, kind, actor) == Recorded(b, resource, kind, actor)
  {}

  /** A refused control or approval under a fresh key is refused for a reason that holds. */
  lemma SignatureRefusalsHold(commands: seq<Command>, key: string, kind: Kind, runId: string, actor: string,
                              why: string, w: Surroundings)
    requires (kind == Control || kind == Approve) && key !in RunAll(EMPTY, commands).actions
    requires Transition(RunAll(EMPTY, commands), key, kind, runId, actor, why, w).Err?
    ensures var db := RunAll(EMPTY, commands);
            var refusal := Transition(db, key, kind, runId, actor, why, w).error;
            if runId !in db.runs then refusal == NotFound else
              var run := db.runs[runId];
              match refusal
              case MakerActs => run.inputs.maker == actor
              case ControllerApproves => kind == Approve && run.controller == Some(actor)
              case WrongStatus => run.status != if kind == Control then Calculated else Controlled
              case NotCertified => kind == Approve && run.inputs.production && !w.certified
              case PurificationPending => kind == Approve && w.purificationPending
              case _ => false
  {
    hide RunAll, Recorded;
    if kind == Control {
      ControlSucceedsExactly(commands, key, runId, actor, why, w);
    } else {
      ApprovalSucceedsExactly(commands, key, runId, actor, why, w);
    }
  }

  // ----- Posting and reversal -----

  /** A posting appends one journal, of its run and actor, dated as the run, and moves the run alone to POSTED. */
  lemma PostingChanges(db: Db, key: string, runId: string, actor: string, why: string, w: Surroundings)
    requires PostRun(db, key, runId, actor, why, w).Ok? && (key in db.actions ==> db.actions[key].kind != Post)
    ensures var (saved, journal) := PostRun(db, key, runId, actor, why, w).value;
            && journal == |db.journals| && |saved.journals| == journal + 1 && db.journals <= saved.journals
            && runId in db.runs && db.runs[runId].outcome.Some? && saved.runs.Keys == db.runs.Keys
            && saved.runs[runId] == db.runs[runId].(status := Posted)
            && (forall id <- db.runs :: id != runId ==> saved.runs[id] == db.runs[id])
            && saved.actions == db.actions[key := Action(OfRun(runId), Post, actor, why)]
            && saved.journals[journal].runId == Some(runId) && saved.journals[journal].reversalOf == None
            && saved.journals[journal].createdBy == actor
            && saved.journals[journal].businessDate == db.runs[runId].inputs.businessDate
            && LinesOf(db.runs[runId].outcome.value, w.fractionDigits) == Ok(saved.journals[journal].lines)
  {
    hide LinesOf, Recorded;
  }

  lemma LinesCheckedOnce(o: CalculationOutcome, digits: nat, scale: nat)
    requires P.ValidMoney(o.distributable) && o.distributable.scale == A.STORED_SCALE && LinesOf(o, digits).Ok?
    ensures J.Check(LinesOf(o, digits).value, scale).None? <==> scale == A.STORED_SCALE
  {
    hide M.ToDecimalString, J.InvestmentLines, J.FirstError, J.Balanced, M.Parse;
    LinesReadAt(o, digits);
    var total, lines := o.distributable, LinesOf(o, digits).value;
    M.ParsePrinted(total);
    assert lines[0] == J.PoolLine(total);
    if J.Check(lines, scale).None? {
      J.NoErrorInAny(lines, scale);
      assert J.LineError(lines[0], scale).None?;
      PoolLineReads(total, scale);
    }
  }

  lemma PoolLineReads(total: M.Money, scale: nat)
    requires P.ValidMoney(total) && total.scale == A.STORED_SCALE && J.LineError(J.PoolLine(total), scale).None?
    ensures scale == A.STORED_SCALE
  {
    hide M.ToDecimalString, J.ValidAccount;
    var l := J.PoolLine(total);
    assert M.Parse(l.debit, l.currency, scale).Ok? && M.Parse(l.credit, l.currency, scale).Ok?;
    assert scale <= M.MAX_SCALE;
    if total.minorUnits >= 0 { A.StoredAmountReads(total, scale); }
    else { A.StoredAmountReads(total.(minorUnits := 0 - total.minorUnits), scale); }
  }

  /** In every reachable state a reversal whose key was not used for one succeeds exactly when the key is free, the
      journal exists, is no reversal and is not reversed, its creator is not the actor, and the currency has twelve
      fraction digits. */
  lemma ReversalSucceedsExactly(commands: seq<Command>, key: string, original: nat, date: int, actor: string,
                                why: string, w: Surroundings)
    requires forall c <- commands :: FromDatabase(c)
    requires var db := RunAll(EMPTY, commands); key in db.actions ==> db.actions[key].kind != Reverse
    ensures var db := RunAll(EMPTY, commands);
            var r := ReverseJournal(db, key, original, date, actor, why, w);
            && (r.Ok? <==>
                && key !in db.actions && original < |db.journals| && db.journals[original].reversalOf.None?
                && !IsReversed(db, original) && db.journals[original].createdBy != actor
                && w.fractionDigits == 12)
            && (r.Ok? ==>
                && r.value.1 == |db.journals| && r.value.0.runs == db.runs
                && r.value.0.actions == db.actions[key := Action(OfJournal(original), Reverse, actor, why)]
                && r.value.0.journals == db.journals + [Entry(None, Some(original), actor, date,
                                                              J.SwappedAll(db.journals[original].lines))])
  {
    hide RunAll, Inv, FromDatabase, Recorded, ActionsHaveEffect, AtStoredScale, J.Check, IsReversed;
    RunKeepsInv(commands);
    RunsAtStoredScale(commands);
    RunHasEffects(commands);
    var db := RunAll(EMPTY, commands);
    ReversedExactly(db, original);
    if original < |db.journals| && db.journals[original].reversalOf.None? {
      JournalReversible(db, original, w.fractionDigits);
      if !IsReversed(db, original) {
        NotYetReversed(db, original, actor);
        SameRecords(db, db.(journals := db.journals + [Entry(None, Some(original), actor, date,
                                                             J.SwappedAll(db.journals[original].lines))]),
                    OfJournal(original), Reverse, actor);
      }
    }
  }

  lemma ReversedExactly(db: Db, original: nat)
    ensures IsReversed(db, original) <==> ReversalOf(db.journals, original) < |db.journals|
  {}

  lemma NotYetReversed(db: Db, original: nat, actor: string)
    requires ActionsHaveEffect(db) && !IsReversed(db, original)
    ensures !Recorded(db, OfJournal(original), Reverse, actor)
  {
    hide IsReversed;
  }

  lemma JournalReversible(db: Db, k: nat, digits: nat)
    requires Inv(db) && AtStoredScale(db) && k < |db.journals| && db.journals[k].reversalOf.None?
    ensures J.ReverseJournalLines(db.journals[k].lines, digits).Ok? <==> digits == A.STORED_SCALE
    ensures J.ReverseJournalLines(db.journals[k].lines, digits).Ok? ==>
              J.ReverseJournalLines(db.journals[k].lines, digits).value == J.SwappedAll(db.journals[k].lines)
  {
    hide LinesOf, J.Check, P.Outcome;
    assert EntryOk(db, k);
    var e := db.journals[k];
    var run := db.runs[e.runId.value];
    assert RunOk(run);
    var built: nat :| LinesOf(run.outcome.value, built) == Ok(e.lines);
    LinesCheckedOnce(run.outcome.value, built, digits);
    if digits == A.STORED_SCALE { J.ReversalIsInvolution(e.lines, digits); }
  }

  // ----- Calculation -----

  /** So is a refused posting, or reversal, whose key was not used for one. */
  lemma PostingRefusalsHold(db: Db, key: string, runId: string, actor: string, why: string, w: Surroundings)
    requires PostRun(db, key, runId, actor, why, w).Err? && (key in db.actions ==> db.actions[key].kind != Post)
    ensures var refusal := PostRun(db, key, runId, actor, why, w).error;
            if !(runId in db.runs && db.runs[runId].outcome.Some?) then refusal == NotFound else
              match refusal
              case WrongStatus => db.runs[runId].status != Approved
              case MakerActs => db.runs[runId].inputs.maker == actor
              case JournalRefused => LinesOf(db.runs[runId].outcome.value, w.fractionDigits).Err?
              case PublicationBlocked => w.blocked
              case KeyTaken => key in db.actions
              case ActionTaken => Recorded(db, OfRun(runId), Post, actor)
              case _ => false
  {
    hide LinesOf;
  }

  lemma ReversalRefusalsHold(db: Db, key: string, original: nat, date: int, actor: string, why: string, w: Surroundings)
    requires ReverseJournal(db, key, original, date, actor, why, w).Err?
    requires key in db.actions ==> db.actions[key].kind != Reverse
    ensures var refusal := ReverseJournal(db, key, original, date, actor, why, w).error;
            if original >= |db.journals| then refusal == NotFound else
              match refusal
              case ReversalOfReversal => db.journals[original].reversalOf.Some?
              case CreatorReverses => db.journals[original].createdBy == actor
              case JournalRefused => J.ReverseJournalLines(db.journals[original].lines, w.fractionDigits).Err?
              case AlreadyReversed => IsReversed(db, original)
              case KeyTaken => key in db.actions
              case ActionTaken => Recorded(db, OfJournal(original), Reverse, actor)
              case _ => false
  {
    hide J.ReverseJournalLines;
  }

  /** A snapshot whose amount is stored at the pool's scale is calculated exactly when the allocator accepts its
      weights: some, distinct and good, one of them positive. The calculation keeps the amount and the weights, and its
      allocations are the allocator's. */
  lemma CalculationSucceedsExactly(s: Snapshot)
    requires P.ValidMoney(s.distributable) && s.amountScale == s.distributable.scale
    ensures Calculation(s).Ok?
            <==> && s.weights != [] && (forall weight <- s.weights :: P.GoodWeight(weight))
                 && P.DistinctParticipants(s.weights)
                 && exists weight :: weight in s.weights && P.WrittenWeight()(weight) > 0
    ensures Calculation(s).Ok? ==>
              && Calculation(s).value.distributable == s.distributable && Calculation(s).value.weights == s.weights
              && P.Outcome(s.distributable, s.weights) == Ok(Calculation(s).value.allocations)
  {
    hide P.Outcome, M.ToDecimalString, P.GoodWeight, P.DistinctParticipants, M.Parse;
    M.ParsePrinted(s.distributable);
    P.AcceptsExactly(s.distributable, s.weights);
    AllocationsAlwaysConserve(s);
  }

  /** An execution succeeds exactly when the run is new, or known with these very inputs, and either calculated already
      or still a draft with a snapshot that can be calculated. The first changes nothing; the second leaves the run,
      and no other, calculated and unsigned. */
  lemma ExecutionSucceedsExactly(db: Db, runId: string, inputs: Inputs, snapshot: Option<Snapshot>)
    ensures var r := Execute(db, runId, inputs, snapshot);
            && (r.Ok? <==>
                && (runId in db.runs ==> db.runs[runId].inputs == inputs)
                && ((runId in db.runs && db.runs[runId].status == Calculated)
                    || ((runId !in db.runs || db.runs[runId].status == Draft)
                        && snapshot.Some? && Calculation(snapshot.value).Ok?)))
            && (r.Ok? && r.value.1 == AlreadyCalculated ==> r.value.0 == db)
            && (r.Ok? && r.value.1 == CalculatedNow ==>
                && r.value.0.actions == db.actions && r.value.0.journals == db.journals
                && r.value.0.runs.Keys == db.runs.Keys + {runId}
                && (forall id <- db.runs :: id != runId ==> r.value.0.runs[id] == db.runs[id])
                && snapshot.Some? && Calculation(snapshot.value).Ok?
                && r.value.0.runs[runId]
                   == Run(inputs, Calculated, None, None, Some(Calculation(snapshot.value).value)))
  {
    hide Calculation;
  }
}

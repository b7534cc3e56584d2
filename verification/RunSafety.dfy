/** What every sequence of commands keeps: four eyes on every run, one journal per posted run, replays
    that change nothing, and a subledger that equals what was posted minus what was reversed. */
module RunSafety {
  import opened Wrappers
  import opened Sums
  import opened RunLifecycle
  import J = Journal
  import A = AllocationJournal
  import M = Money
  import P = ProportionalAllocation

  // ----- Invariant -----

  /** The outcome is what the allocator gives for the snapshot, at the stored scale. */
  ghost predicate OutcomeOk(o: CalculationOutcome) {
    P.ValidMoney(o.distributable) && P.Outcome(o.distributable, o.weights) == Ok(o.allocations)
  }

  ghost predicate RunOk(run: Run) {
    && (run.status == Draft ==> run.outcome.None?)
    && (run.status != Draft ==> run.outcome.Some? && OutcomeOk(run.outcome.value))
    && (Rank(run.status) >= 2 ==> run.controller.Some? && run.controller.value != run.inputs.maker)
    && (Rank(run.status) >= 3 ==>
        run.approver.Some? && run.approver.value != run.inputs.maker && run.approver != run.controller)
  }

  /** A journal of a posted run holds the lines of its allocations; a reversal swaps an earlier one. */
  ghost predicate EntryOk(db: Db, k: nat)
    requires k < |db.journals|
  {
    var e := db.journals[k];
    match e.reversalOf
    case None => && e.runId.Some? && e.runId.value in db.runs
                 && var run := db.runs[e.runId.value];
                 && run.status == Posted && run.outcome.Some? && e.createdBy != run.inputs.maker
                 && exists digits: nat :: LinesOf(run.outcome.value, digits) == Ok(e.lines)
    case Some(o) => && e.runId.None? && o < k && db.journals[o].reversalOf.None?
                    && e.lines == J.SwappedAll(db.journals[o].lines)
                    && e.createdBy != db.journals[o].createdBy
  }

  ghost predicate OneEach(db: Db) {
    forall i, j :: 0 <= i < j < |db.journals| ==>
                     (db.journals[i].runId.Some? ==> db.journals[i].runId != db.journals[j].runId)
                     && (db.journals[i].reversalOf.Some? ==> db.journals[i].reversalOf != db.journals[j].reversalOf)
  }

  ghost predicate PostedHasJournal(db: Db) {
    forall id <- db.runs :: db.runs[id].status == Posted ==>
      exists k :: 0 <= k < |db.journals| && db.journals[k].runId == Some(id)
  }

  ghost predicate PostsArePosted(db: Db) {
    forall key <- db.actions :: db.actions[key].kind == Post ==>
                                  db.actions[key].resource.OfRun? && db.actions[key].resource.runId in db.runs
                                  && db.runs[db.actions[key].resource.runId].status == Posted
  }

  ghost predicate Inv(db: Db) {
    && (forall id <- db.runs :: RunOk(db.runs[id]))
    && (forall k :: 0 <= k < |db.journals| ==> EntryOk(db, k))
    && OneEach(db) && PostedHasJournal(db) && PostsArePosted(db)
  }

  lemma CalculationOk(s: Snapshot)
    requires Calculation(s).Ok?
    ensures OutcomeOk(Calculation(s).value)
  {
    hide P.Outcome;
  }

  /** The conservation check after the inserts never fails. */
  lemma AllocationsAlwaysConserve(s: Snapshot)
    ensures Calculation(s) != Err(NotConserved)
  {
    var parsed := M.Parse(M.ToDecimalString(s.distributable), s.distributable.currency, s.amountScale);
    if parsed.Ok? && P.Outcome(parsed.value, s.weights).Ok? {
      P.AmountsSumToDistributable(parsed.value, s.weights);
    }
  }

  /** A change of one run that was not posted leaves every journal as it should be. */
  lemma RunChanges(db: Db, id: string, run: Run)
    requires Inv(db) && RunOk(run) && run.status != Posted && (id in db.runs ==> db.runs[id].status != Posted)
    ensures Inv(db.(runs := db.runs[id := run]))
  {
    hide LinesOf, RunOk;
    var t := db.(runs := db.runs[id := run]);
    forall k | 0 <= k < |t.journals| ensures EntryOk(t, k) { assert EntryOk(db, k); }
  }

  lemma ActionAdded(db: Db, key: string, a: Action)
    requires Inv(db) && key !in db.actions
    requires a.kind == Post ==>
             a.resource.OfRun? && a.resource.runId in db.runs && db.runs[a.resource.runId].status == Posted
    ensures Inv(db.(actions := db.actions[key := a]))
  {
    hide LinesOf, RunOk;
    var t := db.(actions := db.actions[key := a]);
    forall k | 0 <= k < |t.journals| ensures EntryOk(t, k) { assert EntryOk(db, k); }
  }

  lemma RunPosted(db: Db, id: string, entry: Entry, digits: nat)
    requires Inv(db) && id in db.runs && db.runs[id].status == Approved && db.runs[id].outcome.Some?
    requires entry.runId == Some(id) && entry.reversalOf.None? && entry.createdBy != db.runs[id].inputs.maker
    requires LinesOf(db.runs[id].outcome.value, digits) == Ok(entry.lines)
    ensures Inv(db.(runs := db.runs[id := db.runs[id].(status := Posted)], journals := db.journals + [entry]))
  {
    hide LinesOf, OutcomeOk;
    var t := db.(runs := db.runs[id := db.runs[id].(status := Posted)], journals := db.journals + [entry]);
    forall k | 0 <= k < |t.journals| ensures EntryOk(t, k) {
      if k < |db.journals| { assert EntryOk(db, k); }
    }
    assert t.journals[|db.journals|] == entry;
    assert OneEach(t) by {
      forall k | 0 <= k < |db.journals| ensures db.journals[k].runId != Some(id) { assert EntryOk(db, k); }
    }
    forall other | other in t.runs && t.runs[other].status == Posted
      ensures exists k :: 0 <= k < |t.journals| && t.journals[k].runId == Some(other) {
      if other != id {
        var k :| 0 <= k < |db.journals| && db.journals[k].runId == Some(other);
        assert t.journals[k].runId == Some(other);
      }
    }
  }

  lemma JournalReversed(db: Db, original: nat, entry: Entry)
    requires Inv(db) && original < |db.journals| && db.journals[original].reversalOf.None?
    requires entry.runId.None? && entry.reversalOf == Some(original) &&
             entry.createdBy != db.journals[original].createdBy
    requires entry.lines == J.SwappedAll(db.journals[original].lines)
    requires forall i :: 0 <= i < |db.journals| ==> db.journals[i].reversalOf != Some(original)
    ensures Inv(db.(journals := db.journals + [entry]))
  {
    hide LinesOf, RunOk;
    var t := db.(journals := db.journals + [entry]);
    forall k | 0 <= k < |t.journals| ensures EntryOk(t, k) {
      if k < |db.journals| { assert EntryOk(db, k); }
    }
    forall id | id in t.runs && t.runs[id].status == Posted
      ensures exists k :: 0 <= k < |t.journals| && t.journals[k].runId == Some(id) {
      var k :| 0 <= k < |db.journals| && db.journals[k].runId == Some(id);
      assert t.journals[k].runId == Some(id);
    }
  }

  lemma TransitionKeeps(db: Db, key: string, kind: Kind, runId: string, actor: string, why: string, w: Surroundings)
    requires Inv(db) && (kind == Control || kind == Approve)
    ensures Inv(Changed(db, Transition(db, key, kind, runId, actor, why, w)))
  {
    hide Inv, OutcomeOk, Recorded;
    var r := Transition(db, key, kind, runId, actor, why, w);
    if r.Ok? && key !in db.actions {
      var run := TransitionRun(db.runs[runId], kind, actor, w).value;
      assert RunOk(db.runs[runId]) by { InvRun(db, runId); }
      RunChanges(db, runId, run);
      ActionAdded(db.(runs := db.runs[runId := run]), key, Action(OfRun(runId), kind, actor, why));
    }
  }

  lemma InvRun(db: Db, id: string)
    requires Inv(db) && id in db.runs
    ensures RunOk(db.runs[id])
  {}

  lemma PostKeeps(db: Db, key: string, runId: string, actor: string, why: string, w: Surroundings)
    requires Inv(db)
    ensures Inv(Changed(db, PostRun(db, key, runId, actor, why, w)))
  {
    hide Inv, OutcomeOk, Recorded, LinesOf;
    var r := PostRun(db, key, runId, actor, why, w);
    if r.Ok? && r.value.0 != db {
      var run := db.runs[runId];
      var entry := Entry(Some(runId), None, actor, run.inputs.businessDate,
                         LinesOf(run.outcome.value, w.fractionDigits).value);
      RunPosted(db, runId, entry, w.fractionDigits);
      ActionAdded(db.(runs := db.runs[runId := run.(status := Posted)], journals := db.journals + [entry]), key,
                  Action(OfRun(runId), Post, actor, why));
    }
  }

  lemma ReverseKeeps(db: Db, key: string, original: nat, date: int, actor: string, why: string, w: Surroundings)
    requires Inv(db)
    ensures Inv(Changed(db, ReverseJournal(db, key, original, date, actor, why, w)))
  {
    hide Inv, Recorded, J.Check;
    var r := ReverseJournal(db, key, original, date, actor, why, w);
    if r.Ok? && r.value.0 != db {
      var entry := Entry(None, Some(original), actor, date,
                         J.ReverseJournalLines(db.journals[original].lines, w.fractionDigits).value);
      JournalReversed(db, original, entry);
      ActionAdded(db.(journals := db.journals + [entry]), key, Action(OfJournal(original), Reverse, actor, why));
    }
  }

  lemma ExecuteKeeps(db: Db, runId: string, inputs: Inputs, snapshot: Option<Snapshot>)
    requires Inv(db)
    ensures Inv(Changed(db, Execute(db, runId, inputs, snapshot)))
  {
    hide Inv, OutcomeOk, Calculation;
    var r := Execute(db, runId, inputs, snapshot);
    if r.Ok? && r.value.1 == CalculatedNow {
      CalculationOk(snapshot.value);
      RunChanges(db, runId, Run(inputs, Calculated, None, None, Some(Calculation(snapshot.value).value)));
    }
  }

  lemma StepKeepsInv(db: Db, c: Command)
    requires Inv(db)
    ensures Inv(Apply(db, c))
  {
    hide Inv, Execute, Transition, PostRun, ReverseJournal;
    match c
    case InitiateRun(runId, inputs) =>
      if runId !in db.runs { RunChanges(db, runId, Run(inputs, Draft, None, None, None)); }
    case ExecuteRun(runId, inputs, snapshot) => ExecuteKeeps(db, runId, inputs, snapshot);
    case ControlRun(key, runId, actor, why, w) => TransitionKeeps(db, key, Control, runId, actor, why, w);
    case ApproveRun(key, runId, actor, why, w) => TransitionKeeps(db, key, Approve, runId, actor, why, w);
    case PostCommand(key, runId, actor, why, w) => PostKeeps(db, key, runId, actor, why, w);
    case ReverseCommand(key, original, date, actor, why, w) => ReverseKeeps(db, key, original, date, actor, why, w);
  }

  lemma {:induction false} RunKeepsInv(commands: seq<Command>)
    ensures Inv(RunAll(EMPTY, commands))
  {
    hide Apply;
    if commands != [] {
      hide Inv;
      RunKeepsInv(commands[..|commands|-1]);
      StepKeepsInv(RunAll(EMPTY, commands[..|commands|-1]), commands[|commands|-1]);
    }
  }

  // ----- Main results -----

  /** In every reachable state a run from APPROVED on has pairwise distinct maker, controller and
      approver; a posted run has exactly one journal, made by someone other than its maker; a run that is
      not posted has none. */
  lemma FourEyes(commands: seq<Command>, id: string)
    requires id in RunAll(EMPTY, commands).runs
    ensures var db := RunAll(EMPTY, commands);
            var run := db.runs[id];
            && (Rank(run.status) >= 3 ==>
                && run.controller.Some? && run.approver.Some? && run.controller.value != run.inputs.maker
                && run.approver.value != run.inputs.maker && run.approver.value != run.controller.value)
            && (run.status == Posted <==> exists k :: 0 <= k < |db.journals| && db.journals[k].runId == Some(id))
            && (forall j, k | 0 <= j < |db.journals| && 0 <= k < |db.journals| ::
                  db.journals[j].runId == db.journals[k].runId == Some(id) ==> j == k)
            && (forall k :: 0 <= k < |db.journals| && db.journals[k].runId == Some(id) ==>
                db.journals[k].createdBy != run.inputs.maker)
  {
    hide LinesOf, OutcomeOk, RunAll;
    RunKeepsInv(commands);
    var db := RunAll(EMPTY, commands);
    assert RunOk(db.runs[id]);
    forall k | 0 <= k < |db.journals| && db.journals[k].runId == Some(id)
      ensures db.runs[id].status == Posted && db.journals[k].createdBy != db.runs[id].inputs.maker
    {
      assert EntryOk(db, k);
    }
  }

  /** In every reachable state the allocations of a calculated run add up to its distributable amount. */
  lemma CalculatedRunsConserve(commands: seq<Command>, id: string)
    requires id in RunAll(EMPTY, commands).runs && RunAll(EMPTY, commands).runs[id].status != Draft
    ensures var run := RunAll(EMPTY, commands).runs[id];
            run.outcome.Some? && SumBy(P.UnitsOf(run.outcome.value.distributable), run.outcome.value.allocations) ==
            run.outcome.value.distributable.minorUnits
  {
    hide RunAll, P.Outcome;
    RunKeepsInv(commands);
    var run := RunAll(EMPTY, commands).runs[id];
    assert RunOk(run);
    P.AmountsSumToDistributable(run.outcome.value.distributable, run.outcome.value.weights);
  }

  // ----- Nothing goes back -----

  /** How one state may follow another: runs move forward and keep who made, controlled and approved
      them and what was calculated; recorded actions and journals stay. */
  ghost predicate Follows(a: Db, b: Db) {
    && (forall id <- a.runs :: id in b.runs && RunFollows(a.runs[id], b.runs[id]))
    && (forall key <- a.actions :: key in b.actions && b.actions[key] == a.actions[key])
    && a.journals <= b.journals
  }

  predicate RunFollows(a: Run, b: Run) {
    && Rank(a.status) <= Rank(b.status) && a.inputs == b.inputs
    && (a.status != Draft ==> b.outcome == a.outcome)
    && (a.controller.Some? ==> b.controller == a.controller)
    && (a.approver.Some? ==> b.approver == a.approver)
  }

  ghost predicate NoSigners(db: Db) {
    forall id <- db.runs :: (Rank(db.runs[id].status) < 2 ==> db.runs[id].controller.None?)
                            && (Rank(db.runs[id].status) < 3 ==> db.runs[id].approver.None?)
  }

  lemma TransitionFollows(db: Db, key: string, kind: Kind, runId: string, actor: string, why: string, w: Surroundings)
    requires NoSigners(db) && (kind == Control || kind == Approve)
    ensures var t := Changed(db, Transition(db, key, kind, runId, actor, why, w)); Follows(db, t) && NoSigners(t)
  {
    hide Recorded;
  }

  lemma PostFollows(db: Db, key: string, runId: string, actor: string, why: string, w: Surroundings)
    requires NoSigners(db)
    ensures var t := Changed(db, PostRun(db, key, runId, actor, why, w)); Follows(db, t) && NoSigners(t)
  {
    hide Recorded, LinesOf;
  }

  lemma ReverseFollows(db: Db, key: string, original: nat, date: int, actor: string, why: string, w: Surroundings)
    requires NoSigners(db)
    ensures var t := Changed(db, ReverseJournal(db, key, original, date, actor, why, w)); Follows(db, t) && NoSigners(t)
  {
    hide Recorded, J.ReverseJournalLines;
  }

  lemma ExecuteFollows(db: Db, runId: string, inputs: Inputs, snapshot: Option<Snapshot>)
    requires NoSigners(db)
    ensures var t := Changed(db, Execute(db, runId, inputs, snapshot)); Follows(db, t) && NoSigners(t)
  {
    hide Calculation;
  }

  lemma StepFollows(db: Db, c: Command)
    requires NoSigners(db)
    ensures Follows(db, Apply(db, c)) && NoSigners(Apply(db, c))
  {
    hide Execute, Transition, PostRun, ReverseJournal, Changed;
    match c
    case InitiateRun(_, _) =>
    case ExecuteRun(runId, inputs, snapshot) => ExecuteFollows(db, runId, inputs, snapshot);
    case ControlRun(key, runId, actor, why, w) => TransitionFollows(db, key, Control, runId, actor, why, w);
    case ApproveRun(key, runId, actor, why, w) => TransitionFollows(db, key, Approve, runId, actor, why, w);
    case PostCommand(key, runId, actor, why, w) => PostFollows(db, key, runId, actor, why, w);
    case ReverseCommand(key, original, date, actor, why, w) => ReverseFollows(db, key, original, date, actor, why, w);
  }

  lemma {:induction false} RunHasNoEarlySigners(commands: seq<Command>)
    ensures NoSigners(RunAll(EMPTY, commands))
  {
    hide Apply;
    if commands != [] {
      RunHasNoEarlySigners(commands[..|commands|-1]);
      StepFollows(RunAll(EMPTY, commands[..|commands|-1]), commands[|commands|-1]);
    }
  }

  /** Whatever commands come later, statuses only move forward and nothing recorded is lost or changed. */
  lemma {:induction false} LaterFollows(commands: seq<Command>, more: seq<Command>)
    ensures Follows(RunAll(EMPTY, commands), RunAll(EMPTY, commands + more))
    decreases |more|
  {
    hide Apply, RunFollows;
    if more == [] {
      assert commands + more == commands;
      FollowsReflexive(RunAll(EMPTY, commands));
    } else {
      var front := more[..|more|-1];
      assert (commands + more)[..|commands + more|-1] == commands + front;
      LaterFollows(commands, front);
      RunHasNoEarlySigners(commands + front);
      StepFollows(RunAll(EMPTY, commands + front), more[|more|-1]);
      FollowsTransitive(RunAll(EMPTY, commands), RunAll(EMPTY, commands + front), RunAll(EMPTY, commands + more));
    }
  }

  lemma FollowsReflexive(a: Db)
    ensures Follows(a, a)
  {}

  lemma FollowsTransitive(a: Db, b: Db, c: Db)
    requires Follows(a, b) && Follows(b, c)
    ensures Follows(a, c)
  {
    forall id | id in a.runs ensures id in c.runs && RunFollows(a.runs[id], c.runs[id]) {
      assert RunFollows(a.runs[id], b.runs[id]) && RunFollows(b.runs[id], c.runs[id]);
    }
  }

  // ----- Every approval and posting is accounted for -----

  /** The approval of a run: signed by its approver, with the opening balances of a production run
      certified and no purification pending. */
  ghost predicate Approves(c: Command, id: string, run: Run) {
    c.ApproveRun? && c.runId == id && run.approver == Some(c.actor) && (run.inputs.production ==> c.w.certified) &&
    !c.w.purificationPending
  }

  lemma StepApproves(db: Db, c: Command, id: string)
    requires NoSigners(db) && id in Apply(db, c).runs && Rank(Apply(db, c).runs[id].status) >= 3
    ensures Approves(c, id, Apply(db, c).runs[id])
            || (id in db.runs && Rank(db.runs[id].status) >= 3 && db.runs[id].approver == Apply(db, c).runs[id].approver
                && db.runs[id].inputs == Apply(db, c).runs[id].inputs)
  {
    hide LinesOf, Calculation, J.ReverseJournalLines, Recorded;
  }

  /** No run gets past CONTROLLED without an approval that met all its conditions. */
  lemma {:induction false} ApprovalIsOnRecord(commands: seq<Command>, id: string)
    requires id in RunAll(EMPTY, commands).runs && Rank(RunAll(EMPTY, commands).runs[id].status) >= 3
    ensures exists k :: 0 <= k < |commands| && Approves(commands[k], id, RunAll(EMPTY, commands).runs[id])
  {
    hide Apply;
    if commands != [] {
      var front, n := commands[..|commands|-1], |commands| - 1;
      RunHasNoEarlySigners(front);
      StepApproves(RunAll(EMPTY, front), commands[n], id);
      if !Approves(commands[n], id, RunAll(EMPTY, commands).runs[id]) {
        ApprovalIsOnRecord(front, id);
        var k :| 0 <= k < |front| && Approves(front[k], id, RunAll(EMPTY, front).runs[id]);
        assert Approves(commands[k], id, RunAll(EMPTY, commands).runs[id]);
      }
    }
  }

  /** The posting of a journal: by its creator, on a run that nothing blocks. */
  ghost predicate Posts(c: Command, e: Entry) {
    c.PostCommand? && e.runId == Some(c.runId) && e.createdBy == c.actor && !c.w.blocked
  }

  /** The reversal of a journal: by its creator, on the date given. */
  ghost predicate Reverses(c: Command, e: Entry) {
    c.ReverseCommand? && e.reversalOf == Some(c.original) && e.createdBy == c.actor && e.businessDate == c.date
  }

  lemma StepWrites(db: Db, c: Command, k: nat)
    requires k < |Apply(db, c).journals|
    ensures (k < |db.journals| && db.journals[k] == Apply(db, c).journals[k])
            || Posts(c, Apply(db, c).journals[k]) || Reverses(c, Apply(db, c).journals[k])
  {
    hide LinesOf, Calculation, J.ReverseJournalLines, Recorded;
  }

  /** Every journal goes back to one command that was allowed to write it. */
  lemma {:induction false} JournalsAreOnRecord(commands: seq<Command>, j: nat)
    requires j < |RunAll(EMPTY, commands).journals|
    ensures exists k :: 0 <= k < |commands|
              && (Posts(commands[k], RunAll(EMPTY, commands).journals[j]) ||
                  Reverses(commands[k], RunAll(EMPTY, commands).journals[j]))
  {
    hide Apply, Posts, Reverses;
    if commands != [] {
      var front, n := commands[..|commands|-1], |commands| - 1;
      var e := RunAll(EMPTY, commands).journals[j];
      StepWrites(RunAll(EMPTY, front), commands[n], j);
      if !Posts(commands[n], e) && !Reverses(commands[n], e) {
        JournalsAreOnRecord(front, j);
        var k :| 0 <= k < |front| && (Posts(front[k], e) || Reverses(front[k], e));
        assert commands[k] == front[k];
      }
    }
  }

  // ----- Replays -----

  /** After a control or approval succeeded, repeating it with its key at any later time answers the same
      state and changes nothing. */
  lemma ReplayedTransition(commands: seq<Command>, more: seq<Command>, key: string, kind: Kind, runId: string,
                           actor: string,
                           why: string, w: Surroundings, later: Surroundings)
    requires kind == Control || kind == Approve
    requires Transition(RunAll(EMPTY, commands), key, kind, runId, actor, why, w).Ok?
    ensures var c := if kind == Control then ControlRun(key, runId, actor, why, w)
    else ApproveRun(key, runId, actor, why, w);
            var db := RunAll(EMPTY, commands + [c] + more);
            Transition(db, key, kind, runId, actor, why, later) == Ok((db, StateOf(kind)))
  {
    hide TransitionRun, Recorded;
    var c := if kind == Control then ControlRun(key, runId, actor, why, w) else ApproveRun(key, runId, actor, why, w);
    var done := commands + [c];
    assert done[..|done|-1] == commands;
    assert RunAll(EMPTY, done) == Apply(RunAll(EMPTY, commands), c);
    LaterFollows(done, more);
  }

  /** After a posting succeeded, repeating it with its key at any later time answers the same journal and
      changes nothing. */
  lemma ReplayedPosting(commands: seq<Command>, more: seq<Command>, key: string, runId: string, actor: string,
                        why: string,
                        w: Surroundings, later: Surroundings)
    requires PostRun(RunAll(EMPTY, commands), key, runId, actor, why, w).Ok?
    ensures var journal := PostRun(RunAll(EMPTY, commands), key, runId, actor, why, w).value.1;
            var db := RunAll(EMPTY, commands + [PostCommand(key, runId, actor, why, w)] + more);
            PostRun(db, key, runId, actor, why, later) == Ok((db, journal))
  {
    hide LinesOf, Recorded, Inv;
    var c := PostCommand(key, runId, actor, why, w);
    var done := commands + [c];
    assert done[..|done|-1] == commands;
    var first := RunAll(EMPTY, done);
    assert first == Apply(RunAll(EMPTY, commands), c);
    LaterFollows(done, more);
    var db := RunAll(EMPTY, done + more);
    var journal := PostRun(RunAll(EMPTY, commands), key, runId, actor, why, w).value.1;
    assert first.journals[journal].runId == Some(runId);
    assert db.journals[journal] == first.journals[journal];
    RunKeepsInv(done + more);
    OnlyJournal(db, runId, journal);
  }

  /** After a reversal succeeded, repeating it with its key and date at any later time answers the same
      journal and changes nothing. */
  lemma ReplayedReversal(commands: seq<Command>, more: seq<Command>, key: string, original: nat, date: int,
                         actor: string,
                         why: string, w: Surroundings, later: Surroundings)
    requires ReverseJournal(RunAll(EMPTY, commands), key, original, date, actor, why, w).Ok?
    ensures var journal := ReverseJournal(RunAll(EMPTY, commands), key, original, date, actor, why, w).value.1;
            var db := RunAll(EMPTY, commands + [ReverseCommand(key, original, date, actor, why, w)] + more);
            ReverseJournal(db, key, original, date, actor, why, later) == Ok((db, journal))
  {
    hide J.ReverseJournalLines, Recorded, Inv;
    var c := ReverseCommand(key, original, date, actor, why, w);
    var done := commands + [c];
    assert done[..|done|-1] == commands;
    var first := RunAll(EMPTY, done);
    assert first == Apply(RunAll(EMPTY, commands), c);
    LaterFollows(done, more);
    var db := RunAll(EMPTY, done + more);
    var journal := ReverseJournal(RunAll(EMPTY, commands), key, original, date, actor, why, w).value.1;
    assert first.journals[journal].reversalOf == Some(original) && first.journals[journal].businessDate == date;
    assert db.journals[journal] == first.journals[journal];
    RunKeepsInv(done + more);
    OnlyReversal(db, original, journal);
  }

  lemma OnlyReversal(db: Db, original: nat, k: nat)
    requires Inv(db) && k < |db.journals| && db.journals[k].reversalOf == Some(original)
    ensures ReversalOf(db.journals, original) == k
  {
    hide LinesOf, RunOk, EntryOk;
  }

  lemma OnlyJournal(db: Db, runId: string, k: nat)
    requires Inv(db) && k < |db.journals| && db.journals[k].runId == Some(runId)
    ensures JournalOf(db.journals, runId) == k
  {
    hide LinesOf, RunOk, EntryOk;
  }

  // ----- The ledger -----

  /** The distributable amount behind a journal, in minor units of a currency. */
  function AmountOf(db: Db, k: nat, currency: string): int {
    if k < |db.journals| && db.journals[k].runId.Some? && db.journals[k].runId.value in db.runs
       && db.runs[db.journals[k].runId.value].outcome.Some?
       && db.runs[db.journals[k].runId.value].outcome.value.distributable.currency == currency
    then db.runs[db.journals[k].runId.value].outcome.value.distributable.minorUnits else 0
  }

  /** Distributable amounts posted up to a date by the first n journals. */
  function PostedAmounts(db: Db, n: nat, date: int, currency: string): int
    requires n <= |db.journals|
  {
    if n == 0 then 0 else
      PostedAmounts(db, n - 1, date, currency)
      + if db.journals[n-1].reversalOf.None? && db.journals[n-1].businessDate <= date then
        AmountOf(db, n - 1, currency) else 0
  }

  /** Distributable amounts reversed up to a date by the first n journals. */
  function ReversedAmounts(db: Db, n: nat, date: int, currency: string): int
    requires n <= |db.journals|
  {
    if n == 0 then 0 else
      ReversedAmounts(db, n - 1, date, currency)
      + if db.journals[n-1].reversalOf.Some? && db.journals[n-1].businessDate <= date
        then AmountOf(db, db.journals[n-1].reversalOf.value, currency) else 0
  }

  /** The subledger the reconciliation sums: investment lines of the first n journals up to a date. */
  function ReconciledSubledger(db: Db, n: nat, date: int, currency: string, scale: nat): int
    requires n <= |db.journals|
  {
    if n == 0 then 0 else
      ReconciledSubledger(db, n - 1, date, currency, scale)
      + if db.journals[n-1].businessDate <= date then A.Subledger(db.journals[n-1].lines, currency, scale) else 0
  }

  ghost predicate AtStoredScale(db: Db) {
    forall id <- db.runs :: db.runs[id].outcome.Some? ==>
      db.runs[id].outcome.value.distributable.scale == A.STORED_SCALE &&
      A.ValidParticipants(db.runs[id].outcome.value.weights)
  }

  /** A journal of a run adds its distributable amount to the subledger. */
  lemma PostedEntryAdds(db: Db, k: nat, currency: string)
    requires Inv(db) && AtStoredScale(db) && k < |db.journals| && db.journals[k].reversalOf.None?
    ensures A.Subledger(db.journals[k].lines, currency, A.STORED_SCALE) == AmountOf(db, k, currency)
  {
    hide J.AllocationJournalLines, M.ToDecimalString, A.Subledger, P.Outcome, M.Parse;
    assert EntryOk(db, k);
    var e := db.journals[k];
    var run := db.runs[e.runId.value];
    var o := run.outcome.value;
    assert RunOk(run);
    var digits: nat :| LinesOf(o, digits) == Ok(e.lines);
    LinesReadAt(o, digits);
    A.AllocatorJournalAdds(o.distributable, o.weights, currency);
  }

  /** Lines could be built only at the scale of the stored amount. */
  lemma LinesReadAt(o: CalculationOutcome, digits: nat)
    requires P.ValidMoney(o.distributable) && o.distributable.scale == A.STORED_SCALE && LinesOf(o, digits).Ok?
    ensures digits == A.STORED_SCALE
  {
    hide M.ToDecimalString, J.InvestmentLines, J.Check;
    assert M.Parse(M.ToDecimalString(o.distributable), o.distributable.currency, digits).Ok?;
    A.StoredAmountReads(o.distributable, digits);
  }

  /** Every journal adds its amount, or takes back the one of the journal it reverses. */
  lemma EntryAdds(db: Db, k: nat, currency: string)
    requires Inv(db) && AtStoredScale(db) && k < |db.journals|
    ensures A.Subledger(db.journals[k].lines, currency, A.STORED_SCALE) ==
            match db.journals[k].reversalOf case None => AmountOf(db, k, currency)
              case Some(o) => 0 - AmountOf(db, o, currency)
  {
    hide AtStoredScale, A.Subledger, AmountOf, RunOk, LinesOf;
    assert EntryOk(db, k);
    var e := db.journals[k];
    if e.reversalOf.None? {
      PostedEntryAdds(db, k, currency);
    } else {
      var o := e.reversalOf.value;
      PostedEntryAdds(db, o, currency);
      A.SwappedSubledger(db.journals[o].lines, currency, A.STORED_SCALE);
    }
  }

  /** In a ledger of run postings and reversals the reconciled investment subledger equals the
      distributable amounts posted minus those reversed, at every date and in every currency. */
  lemma {:induction false} LedgerBalances(db: Db, n: nat, date: int, currency: string)
    requires Inv(db) && AtStoredScale(db) && n <= |db.journals|
    ensures ReconciledSubledger(db, n, date, currency, A.STORED_SCALE)
            == PostedAmounts(db, n, date, currency) - ReversedAmounts(db, n, date, currency)
  {
    hide Inv, AtStoredScale, A.Subledger, AmountOf;
    if n > 0 {
      LedgerBalances(db, n - 1, date, currency);
      EntryAdds(db, n - 1, currency);
    }
  }

  /** Snapshots come from the database: amounts with twelve fraction digits, participants that are UUIDs. */
  ghost predicate FromDatabase(c: Command) {
    c.ExecuteRun? && c.snapshot.Some? ==>
      P.ValidMoney(c.snapshot.value.distributable) && c.snapshot.value.distributable.scale == A.STORED_SCALE
      && A.ValidParticipants(c.snapshot.value.weights)
  }

  lemma CalculationAtStoredScale(s: Snapshot)
    requires P.ValidMoney(s.distributable) && s.distributable.scale == A.STORED_SCALE && Calculation(s).Ok?
    ensures s.amountScale == A.STORED_SCALE && Calculation(s).value.distributable == s.distributable
  {
    hide M.ToDecimalString, P.Outcome;
    assert s.amountScale <= M.MAX_SCALE;
    A.StoredAmountReads(s.distributable, s.amountScale);
    M.ParsePrinted(s.distributable);
  }

  lemma StepKeepsStoredScale(db: Db, c: Command)
    requires AtStoredScale(db) && FromDatabase(c)
    ensures AtStoredScale(Apply(db, c))
  {
    hide Calculation, LinesOf, J.ReverseJournalLines, Recorded, A.ValidParticipants;
    if c.ExecuteRun? && c.snapshot.Some? && Calculation(c.snapshot.value).Ok? {
      CalculationAtStoredScale(c.snapshot.value);
      CalculationKeepsWeights(c.snapshot.value);
    }
  }

  lemma CalculationKeepsWeights(s: Snapshot)
    requires Calculation(s).Ok?
    ensures Calculation(s).value.weights == s.weights
  {
    hide M.ToDecimalString, M.Parse, P.Outcome;
  }

  lemma {:induction false} RunsAtStoredScale(commands: seq<Command>)
    requires forall c <- commands :: FromDatabase(c)
    ensures AtStoredScale(RunAll(EMPTY, commands))
  {
    hide Apply, FromDatabase;
    if commands != [] {
      var front := commands[..|commands|-1];
      assert commands[|commands|-1] in commands && forall c <- front :: c in commands;
      RunsAtStoredScale(front);
      StepKeepsStoredScale(RunAll(EMPTY, front), commands[|commands|-1]);
    }
  }

  /** The same for every reachable ledger. */
  lemma ReconciledSubledgerIsPostedMinusReversed(commands: seq<Command>, date: int, currency: string)
    requires forall c <- commands :: FromDatabase(c)
    ensures var db := RunAll(EMPTY, commands);
            ReconciledSubledger(db, |db.journals|, date, currency, A.STORED_SCALE)
            == PostedAmounts(db, |db.journals|, date, currency) - ReversedAmounts(db, |db.journals|, date, currency)
  {
    hide RunAll, Inv, AtStoredScale, FromDatabase;
    RunKeepsInv(commands);
    RunsAtStoredScale(commands);
    var db := RunAll(EMPTY, commands);
    LedgerBalances(db, |db.journals|, date, currency);
  }

  /** The total and every share of it are different from zero. */
  predicate NothingIsZero(o: CalculationOutcome) {
    o.distributable.minorUnits != 0 && forall a <- o.allocations :: A.Units(a, A.STORED_SCALE) != 0
  }

  /** When the journal of a stored calculation can be built. */
  lemma LinesBuiltExactly(o: CalculationOutcome, digits: nat)
    requires OutcomeOk(o) && o.distributable.scale == A.STORED_SCALE && A.ValidParticipants(o.weights)
    ensures LinesOf(o, digits).Ok? <==> digits == A.STORED_SCALE && NothingIsZero(o)
  {
    hide M.ToDecimalString, J.AllocationJournalLines, P.Outcome, A.ValidParticipants, A.Units;
    if LinesOf(o, digits).Ok? { LinesReadAt(o, digits); }
    A.AllocatorJournalAccepts(o.distributable, o.weights);
  }

  lemma NotYetPosted(db: Db, runId: string, actor: string)
    requires Inv(db) && runId in db.runs && db.runs[runId].status != Posted
    ensures !Recorded(db, OfRun(runId), Post, actor)
  {
    hide RunOk, EntryOk, OneEach, PostedHasJournal;
  }

  /** In every reachable state a posting whose key was not used for a posting succeeds exactly when the key
      is free, the run is approved, its maker is not the actor, nothing blocks it, neither the total nor any
      share is zero, and the currency has twelve fraction digits. With a currency's own number of digits, at
      most six, no run is ever posted. */
  lemma PostingSucceedsExactly(commands: seq<Command>, key: string, runId: string, actor: string, why: string,
                               w: Surroundings)
    requires forall c <- commands :: FromDatabase(c)
    requires var db := RunAll(EMPTY, commands); key in db.actions ==> db.actions[key].kind != Post
    ensures var db := RunAll(EMPTY, commands);
            PostRun(db, key, runId, actor, why, w).Ok?
            <==> && key !in db.actions && runId in db.runs && db.runs[runId].status == Approved
                 && db.runs[runId].inputs.maker != actor && !w.blocked && w.fractionDigits == 12
                 && db.runs[runId].outcome.Some? && NothingIsZero(db.runs[runId].outcome.value)
  {
    hide RunAll, Inv, FromDatabase, OutcomeOk, LinesOf, NothingIsZero, Recorded, A.ValidParticipants;
    RunKeepsInv(commands);
    RunsAtStoredScale(commands);
    var db := RunAll(EMPTY, commands);
    if runId in db.runs && db.runs[runId].status == Approved {
      InvRun(db, runId);
      LinesBuiltExactly(db.runs[runId].outcome.value, w.fractionDigits);
      NotYetPosted(db, runId, actor);
      var lines := LinesOf(db.runs[runId].outcome.value, w.fractionDigits);
      if lines.Ok? {
        var run := db.runs[runId];
        var entry := Entry(Some(runId), None, actor, run.inputs.businessDate, lines.value);
        SameActions(db, db.(runs := db.runs[runId := run.(status := Posted)], journals := db.journals + [entry]),
                    OfRun(runId), actor);
      }
    }
  }

  lemma SameActions(a: Db, b: Db, resource: Resource, actor: string)
    requires a.actions == b.actions
    ensures Recorded(a, resource, Post, actor) == Recorded(b, resource, Post, actor)
  {}
}

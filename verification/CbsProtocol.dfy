/** Any number of handlers of one CBS batch, redelivered, concurrent or crashed between any two
    statements, over the guarded statements of CbsBatch. */
module CbsProtocol {
  import opened Wrappers
  import opened Sums
  import opened Texts
  import opened CbsBatch

  /** What a handler does next. A validation reads first and records its decision in a later statement. */
  datatype Pc =
    | ToRegister | ToAuthenticate | ToScan | ToStage(content: string) | ToValidate | ToDecide(passes: bool) | ToPublish

  datatype Process = Process(manifest: Manifest, id: string, pc: Pc)

  /** authenticated is the manifest whose signature moved the batch on, scanned the object that did. */
  datatype State = State(store: Store, processes: map<nat, Process>, authenticated: Option<Manifest>,
                         scanned: Option<string>)

  datatype Step =
    | Receive(process: nat, manifest: Manifest)
    | RegisterStep(process: nat)
    | Authenticate(process: nat)
    | Scan(process: nat, content: string, clean: bool)
    | StageStep(process: nat)
    | Inspect(process: nat, known: Row -> bool)
    | Decide(process: nat)
    | PublishStep(process: nat, clear: bool)
    | Crash(process: nat)

  predicate At(s: State, p: nat, pc: Pc) { p in s.processes && s.processes[p].pc == pc }

  predicate Enabled(s: State, step: Step) {
    match step
    case Receive(p, _) => p !in s.processes
    case RegisterStep(p) => At(s, p, ToRegister)
    case Authenticate(p) => At(s, p, ToAuthenticate)
    case Scan(p, _, _) => At(s, p, ToScan)
    case StageStep(p) => p in s.processes && s.processes[p].pc.ToStage?
    case Inspect(p, _) => At(s, p, ToValidate)
    case Decide(p) => p in s.processes && s.processes[p].pc.ToDecide?
    case PublishStep(p, _) => At(s, p, ToPublish)
    case Crash(p) => p in s.processes
  }

  function Goto(s: State, p: nat, id: string, pc: Pc): State
    requires p in s.processes
  {
    s.(processes := s.processes[p := s.processes[p].(id := id, pc := pc)])
  }

  function Leave(s: State, p: nat): State { s.(processes := s.processes - {p}) }

  /** Where a handler goes on after registration, by the state it read. */
  function Resume(w: World, state: BatchState): Option<Pc> {
    if Terminal(state) then None
    else if state == Received then Some(ToAuthenticate)
    else if state == BatchState.Authenticated || state == BatchState.Scanned then Some(ToScan)
    else if !w.investmentPositions then None
    else if state == BatchState.Staged then Some(ToValidate)
    else Some(ToPublish)
  }

  function Registered(w: World, s: State, p: nat): State
    requires At(s, p, ToRegister)
  {
    match Register(s.store, s.processes[p].manifest)
    case Err(_) => Leave(s, p)
    case Ok(t) =>
      var b := t.batch.value;
      match Resume(w, b.state)
      case None => Leave(s, p).(store := t)
      case Some(pc) => Goto(s, p, b.batchId, pc).(store := t)
  }

  function AfterAuthentication(w: World, s: State, p: nat): State
    requires At(s, p, ToAuthenticate)
  {
    var m := s.processes[p].manifest;
    match Transition(s.store, m.batchId, Received, if Authentic(w, m) then BatchState.Authenticated
                     else BatchState.Rejected)
    case Err(_) => Leave(s, p)
    case Ok(t) =>
      if !Authentic(w, m) then Leave(s, p).(store := t)
      else Goto(s, p, s.processes[p].id, ToScan).(store := t, authenticated := Some(m))
  }

  function AfterScan(w: World, s: State, p: nat, content: string, clean: bool): State
    requires At(s, p, ToScan)
  {
    var me := s.processes[p];
    if w.sha(content) != me.manifest.checksum || !clean then
      match Transition(s.store, me.id, BatchState.Authenticated, Quarantined)
      case Err(_) => Leave(s, p)
      case Ok(t) => Leave(s, p).(store := t)
    else
      match Transition(s.store, me.id, BatchState.Authenticated, BatchState.Scanned)
      case Err(_) => Leave(s, p)
      case Ok(t) =>
        (if w.investmentPositions then Goto(s, p, me.id, ToStage(content))
         else Leave(s, p)).(store := t, scanned := Some(content))
  }

  function AfterStage(w: World, s: State, p: nat): State
    requires p in s.processes && s.processes[p].pc.ToStage?
  {
    var me := s.processes[p];
    match w.parse(me.pc.content)
    case None => Leave(s, p)
    case Some(rows) =>
      if rows == [] then Leave(s, p) else
        match Stage(w, s.store, me.id, rows)
        case Err(_) => Leave(s, p)
        case Ok(t) => Goto(s, p, me.id, ToValidate).(store := t)
  }

  function AfterDecision(s: State, p: nat): State
    requires p in s.processes && s.processes[p].pc.ToDecide?
  {
    var me := s.processes[p];
    match Transition(s.store, me.id, BatchState.Staged, if me.pc.passes then BatchState.Validated
                     else BatchState.Rejected)
    case Err(_) => Leave(s, p)
    case Ok(t) => (if me.pc.passes then Goto(s, p, me.id, ToPublish) else Leave(s, p)).(store := t)
  }

  function AfterPublication(s: State, p: nat, clear: bool): State
    requires At(s, p, ToPublish)
  {
    match Publish(s.store, s.processes[p].id, clear)
    case Err(_) => Leave(s, p)
    case Ok(t) => Leave(s, p).(store := t)
  }

  function Apply(w: World, s: State, step: Step): State
    requires Enabled(s, step)
  {
    match step
    case Receive(p, m) => s.(processes := s.processes[p := Process(m, m.batchId, ToRegister)])
    case RegisterStep(p) => Registered(w, s, p)
    case Authenticate(p) => AfterAuthentication(w, s, p)
    case Scan(p, content, clean) => AfterScan(w, s, p, content, clean)
    case StageStep(p) => AfterStage(w, s, p)
    case Inspect(p, known) => Goto(s, p, s.processes[p].id, ToDecide(Passes(w, s.store, known)))
    case Decide(p) => AfterDecision(s, p)
    case PublishStep(p, clear) => AfterPublication(s, p, clear)
    case Crash(p) => Leave(s, p)
  }

  ghost predicate IsRun(w: World, states: seq<State>, steps: seq<Step>) {
    && |states| == |steps| + 1 && states[0] == State(Store(None, [], map[], []), map[], None, None)
    && forall i :: 0 <= i < |steps| ==> Enabled(states[i], steps[i]) && states[i+1] == Apply(w, states[i], steps[i])
  }

  // ----- Invariant -----

  predicate IsPath(h: seq<BatchState>) {
    && (h != [] ==> h[0] == Received)
    && forall i :: 0 <= i < |h| - 1 ==> h[i+1] == h[i] || h[i+1] in Transitions(h[i])
  }

  predicate SameBatch(m: Manifest, b: Batch) { m.checksum == b.checksum && m.objectKey == b.objectKey }

  predicate WasAuthenticated(state: BatchState) {
    state in {BatchState.Authenticated, BatchState.Scanned, BatchState.Staged, BatchState.Validated,
              BatchState.Approved, BatchState.Published}
  }

  predicate WasScanned(state: BatchState) { WasAuthenticated(state) && state != BatchState.Authenticated }

  predicate WasStaged(state: BatchState) { WasScanned(state) && state != BatchState.Scanned }

  predicate WasValidated(state: BatchState) { WasStaged(state) && state != BatchState.Staged }

  predicate Matched(w: World, b: Batch, staged: seq<Row>) {
    && staged != [] && |staged| == b.rowCount && Balances(staged) == b.total
    && forall r <- staged :: r.businessDate == w.businessDate && r.openedOn <= r.valueDate <= w.businessDate
  }

  ghost predicate Evidence(w: World, s: State, b: Batch) {
    && (WasAuthenticated(b.state) ==> s.authenticated.Some? && Authentic(w, s.authenticated.value)
                                       && SameBatch(s.authenticated.value, b) &&
                                          s.authenticated.value.batchId == b.batchId)
    && (WasScanned(b.state) ==> s.scanned.Some?)
    && (s.scanned.Some? ==> w.sha(s.scanned.value) == b.checksum)
    && (s.store.staged != [] ==> s.scanned.Some? && w.parse(s.scanned.value) == Some(s.store.staged))
    && (WasStaged(b.state) ==> s.store.staged != [])
    && (WasValidated(b.state) ==> Matched(w, b, s.store.staged))
    && DistinctKeys(s.store.staged)
    && s.store.positions == (if b.state == BatchState.Published then WithPositions(map[], s.store.staged) else map[])
    && s.store.history != [] && s.store.history[|s.store.history| - 1] == b.state
  }

  ghost predicate ProcessOk(w: World, s: State, p: nat)
    requires p in s.processes
  {
    var me := s.processes[p];
    me.pc.ToRegister? ||
    (s.store.batch.Some? && SameBatch(me.manifest, s.store.batch.value) && me.id == s.store.batch.value.batchId
     && (me.pc.ToStage? ==> s.scanned == Some(me.pc.content))
     && (me.pc.ToDecide? && me.pc.passes ==> Matched(w, s.store.batch.value, s.store.staged)))
  }

  ghost predicate Inv(w: World, s: State) {
    && IsPath(s.store.history)
    && (match s.store.batch
        case None => s.store == Store(None, [], map[], []) && s.scanned.None?
        case Some(b) => Evidence(w, s, b))
    && forall p <- s.processes :: ProcessOk(w, s, p)
  }

  lemma PathGrows(h: seq<BatchState>, next: BatchState)
    requires IsPath(h) && h != [] && (next == h[|h|-1] || next in Transitions(h[|h|-1]))
    ensures IsPath(h + [next])
  {}

  /** Moves of the store that leave what other processes rely on. */
  predicate Extends(s: State, t: State) {
    && (s.store.batch.Some? ==>
        t.store.batch.Some? && t.store.batch.value == s.store.batch.value.(state := t.store.batch.value.state))
    && (s.scanned.Some? ==> t.scanned == s.scanned)
    && (s.store.staged != [] ==> t.store.staged == s.store.staged)
  }

  lemma ProcessStays(w: World, s: State, t: State, p: nat)
    requires p in s.processes && p in t.processes && t.processes[p] == s.processes[p] && ProcessOk(w, s, p) &&
             Extends(s, t)
    ensures ProcessOk(w, t, p)
  {
    hide Balances;
  }

  lemma OthersStay(w: World, s: State, t: State, p: nat)
    requires Inv(w, s) && Extends(s, t) && t.processes.Keys <= s.processes.Keys + {p}
    requires forall q <- t.processes :: q != p ==> q in s.processes && t.processes[q] == s.processes[q]
    requires p in t.processes ==> ProcessOk(w, t, p)
    ensures forall q <- t.processes :: ProcessOk(w, t, q)
  {
    hide ProcessOk, Extends, IsPath, Evidence;
    forall q | q in t.processes ensures ProcessOk(w, t, q) {
      if q != p { ProcessStays(w, s, t, q); }
    }
  }

  lemma RegisterKeeps(w: World, s: State, p: nat)
    requires Inv(w, s) && Enabled(s, RegisterStep(p))
    ensures Inv(w, Registered(w, s, p)) && Extends(s, Registered(w, s, p))
  {
    hide WithPositions, Balances, Authentic, Matched;
    var t := Registered(w, s, p);
    OthersStay(w, s, t, p);
  }

  lemma AuthenticateKeeps(w: World, s: State, p: nat)
    requires Inv(w, s) && Enabled(s, Authenticate(p))
    ensures Inv(w, AfterAuthentication(w, s, p)) && Extends(s, AfterAuthentication(w, s, p))
  {
    hide WithPositions, Balances, Authentic, DistinctKeys, IsPath, Matched;
    var t := AfterAuthentication(w, s, p);
    if t.store != s.store { PathGrows(s.store.history, t.store.batch.value.state); }
    assert Extends(s, t);
    OthersStay(w, s, t, p);
  }

  lemma ScanKeeps(w: World, s: State, p: nat, content: string, clean: bool)
    requires Injective(w.sha) && Inv(w, s) && Enabled(s, Scan(p, content, clean))
    ensures Inv(w, AfterScan(w, s, p, content, clean)) && Extends(s, AfterScan(w, s, p, content, clean))
  {
    hide WithPositions, Balances, Authentic, DistinctKeys, IsPath, Matched;
    var t := AfterScan(w, s, p, content, clean);
    if t.store != s.store { PathGrows(s.store.history, t.store.batch.value.state); }
    assert Extends(s, t);
    OthersStay(w, s, t, p);
  }

  lemma StageKeeps(w: World, s: State, p: nat)
    requires Inv(w, s) && Enabled(s, StageStep(p))
    ensures Inv(w, AfterStage(w, s, p)) && Extends(s, AfterStage(w, s, p))
  {
    hide WithPositions, Balances, Authentic, DistinctKeys, IsPath, Replays, Inserted;
    var t := AfterStage(w, s, p);
    assert ProcessOk(w, s, p);
    if t.store != s.store {
      PathGrows(s.store.history, t.store.batch.value.state);
      InsertedOnce(w.parse(s.processes[p].pc.content).value);
    }
    assert Extends(s, t);
    OthersStay(w, s, t, p);
  }

  lemma InsertedOnce(rows: seq<Row>)
    ensures Inserted([], rows) == rows && Inserted(rows, rows) == rows
  {}

  lemma InspectKeeps(w: World, s: State, p: nat, known: Row -> bool)
    requires Inv(w, s) && Enabled(s, Inspect(p, known))
    ensures Inv(w, Apply(w, s, Inspect(p, known)))
  {
    hide WithPositions, Balances, Authentic, DistinctKeys, IsPath;
    OthersStay(w, s, Apply(w, s, Inspect(p, known)), p);
  }

  lemma DecideKeeps(w: World, s: State, p: nat)
    requires Inv(w, s) && Enabled(s, Decide(p))
    ensures Inv(w, AfterDecision(s, p)) && Extends(s, AfterDecision(s, p))
  {
    hide WithPositions, Balances, Authentic, DistinctKeys, IsPath;
    var t := AfterDecision(s, p);
    assert ProcessOk(w, s, p);
    if t.store != s.store { PathGrows(s.store.history, t.store.batch.value.state); }
    assert Extends(s, t);
    OthersStay(w, s, t, p);
  }

  lemma PublishKeeps(w: World, s: State, p: nat, clear: bool)
    requires Inv(w, s) && Enabled(s, PublishStep(p, clear))
    ensures Inv(w, AfterPublication(s, p, clear)) && Extends(s, AfterPublication(s, p, clear))
  {
    hide WithPositions, Balances, Authentic, DistinctKeys, IsPath;
    var t := AfterPublication(s, p, clear);
    if t.store != s.store {
      PathGrows(s.store.history, BatchState.Approved);
      PathGrows(s.store.history + [BatchState.Approved], BatchState.Published);
    }
    assert Extends(s, t);
    OthersStay(w, s, t, p);
  }

  lemma StepKeepsInv(w: World, s: State, step: Step)
    requires Injective(w.sha) && Inv(w, s) && Enabled(s, step)
    ensures Inv(w, Apply(w, s, step))
  {
    hide IsPath, Evidence, ProcessOk, Injective, Registered, AfterAuthentication, AfterScan, AfterStage,
      AfterDecision, AfterPublication;
    match step
    case Receive(p, m) => ReceiveKeeps(w, s, p, m);
    case RegisterStep(p) => RegisterKeeps(w, s, p);
    case Authenticate(p) => AuthenticateKeeps(w, s, p);
    case Scan(p, content, clean) => ScanKeeps(w, s, p, content, clean);
    case StageStep(p) => StageKeeps(w, s, p);
    case Inspect(p, known) => InspectKeeps(w, s, p, known);
    case Decide(p) => DecideKeeps(w, s, p);
    case PublishStep(p, clear) => PublishKeeps(w, s, p, clear);
    case Crash(p) => CrashKeeps(w, s, p);
  }

  lemma ReceiveKeeps(w: World, s: State, p: nat, m: Manifest)
    requires Inv(w, s) && Enabled(s, Receive(p, m))
    ensures Inv(w, Apply(w, s, Receive(p, m)))
  {
    hide WithPositions, Balances, Authentic, DistinctKeys, IsPath;
    OthersStay(w, s, Apply(w, s, Receive(p, m)), p);
  }

  lemma CrashKeeps(w: World, s: State, p: nat)
    requires Inv(w, s) && Enabled(s, Crash(p))
    ensures Inv(w, Leave(s, p))
  {
    hide WithPositions, Balances, Authentic, DistinctKeys, IsPath;
    OthersStay(w, s, Leave(s, p), p);
  }

  lemma {:induction false} RunKeepsInv(w: World, states: seq<State>, steps: seq<Step>, i: nat)
    requires Injective(w.sha) && IsRun(w, states, steps) && i < |states|
    ensures Inv(w, states[i])
    decreases i
  {
    hide Apply, Injective;
    if i > 0 {
      hide Inv;
      RunKeepsInv(w, states, steps, i - 1);
      StepKeepsInv(w, states[i-1], steps[i-1]);
    }
  }

  // ----- Main results -----

  /** In every reachable state the history is a path of the transition table plus repetitions. */
  lemma HistoryIsPath(w: World, states: seq<State>, steps: seq<Step>, i: nat)
    requires Injective(w.sha) && IsRun(w, states, steps) && i < |states|
    ensures IsPath(states[i].store.history)
    ensures states[i].store.batch.Some? ==>
              (states[i].store.history != []
               && states[i].store.history[|states[i].store.history| - 1] == states[i].store.batch.value.state)
  {
    hide IsPath, Apply, Injective;
    RunKeepsInv(w, states, steps, i);
  }

  /** The only state of the table that leads to another on the way to publication. */
  function Earlier(s: BatchState): BatchState {
    match s
    case Published => BatchState.Approved
    case Approved => BatchState.Validated
    case Validated => BatchState.Staged
    case Staged => BatchState.Scanned
    case Scanned => BatchState.Authenticated
    case _ => Received
  }

  lemma {:induction false} CameFrom(h: seq<BatchState>, k: nat) returns (j: nat)
    requires IsPath(h) && k < |h| && WasAuthenticated(h[k])
    ensures j < k && h[j] == Earlier(h[k])
    decreases k
  {
    assert k > 0 && (h[k] == h[k-1] || h[k] in Transitions(h[k-1]));
    if h[k] == h[k-1] { j := CameFrom(h, k - 1); } else { j := k - 1; }
  }

  /** A published batch passed every stage, in this order: at such positions its history holds them. */
  lemma PublishedPassedEveryStage(w: World, states: seq<State>, steps: seq<Step>, i: nat) returns (at: seq<nat>)
    requires Injective(w.sha) && IsRun(w, states, steps) && i < |states|
    requires states[i].store.batch.Some? && states[i].store.batch.value.state == BatchState.Published
    ensures |at| == 7 && (forall n :: 0 <= n < 7 ==> at[n] < |states[i].store.history|)
    ensures at[0] < at[1] < at[2] < at[3] < at[4] < at[5] < at[6]
    ensures var h := states[i].store.history;
            && h[at[0]] == Received && h[at[1]] == BatchState.Authenticated && h[at[2]] == BatchState.Scanned
            && h[at[3]] == BatchState.Staged && h[at[4]] == BatchState.Validated && h[at[5]] == BatchState.Approved
            && h[at[6]] == BatchState.Published
  {
    hide IsPath, Apply, Injective, IsRun, Transitions;
    HistoryIsPath(w, states, steps, i);
    var h := states[i].store.history;
    var published := |h| - 1;
    var approved := CameFrom(h, published);
    var validated := CameFrom(h, approved);
    var staged := CameFrom(h, validated);
    var scanned := CameFrom(h, staged);
    var authenticated := CameFrom(h, scanned);
    var received := CameFrom(h, authenticated);
    at := [received, authenticated, scanned, staged, validated, approved, published];
  }

  /** A terminal state never changes, whatever the other handlers still do, and nothing else of the batch does. */
  lemma {:induction false} TerminalIsFinal(w: World, states: seq<State>, steps: seq<Step>, i: nat, j: nat)
    requires Injective(w.sha) && IsRun(w, states, steps) && i <= j < |states|
    requires states[i].store.batch.Some? && Terminal(states[i].store.batch.value.state)
    ensures states[j].store.batch == states[i].store.batch
    decreases j
  {
    hide Apply, Enabled, Injective, Terminal;
    if i < j {
      TerminalIsFinal(w, states, steps, i, j - 1);
      StepKeepsTerminal(w, states[j-1], steps[j-1]);
    }
  }

  lemma StepKeepsTerminal(w: World, s: State, step: Step)
    requires Enabled(s, step) && s.store.batch.Some? && Terminal(s.store.batch.value.state)
    ensures Apply(w, s, step).store.batch == s.store.batch
  {
    hide WithPositions, Authentic, DistinctKeys, Replays, Passes;
    var state := s.store.batch.value.state;
    assert state in {BatchState.Published, Quarantined, BatchState.Rejected, PartiallyRejected, FailedState, Cancelled};
  }

  /** A published batch was signed by its source and received within the window, its object is the one of the
      registered checksum, exactly the rows of that object were staged, each dated by the batch's business date
      and in order, their number and balance total are the registered ones, and the positions are exactly those
      rows and hold that total. */
  lemma PublishedIsEarned(w: World, states: seq<State>, steps: seq<Step>, i: nat)
    requires Injective(w.sha) && IsRun(w, states, steps) && i < |states|
    requires states[i].store.batch.Some? && states[i].store.batch.value.state == BatchState.Published
    ensures var s, b := states[i], states[i].store.batch.value;
            && s.authenticated.Some? && SignedFor(w, s.authenticated.value, b) && Authentic(w, s.authenticated.value)
            && s.scanned.Some? && w.sha(s.scanned.value) == b.checksum
            && w.parse(s.scanned.value) == Some(s.store.staged)
            && |s.store.staged| == b.rowCount > 0 && Balances(s.store.staged) == b.total
            && DistinctKeys(s.store.staged) && s.store.positions == WithPositions(map[], s.store.staged)
            && (forall r <- s.store.staged ::
                  r.businessDate == w.businessDate && r.openedOn <= r.valueDate <= w.businessDate)
            && BecamePositions(map[], s.store.staged, s.store.positions)
            && SumBy(Held(s.store.positions), s.store.staged) == b.total
  {
    hide IsPath, Apply, Injective, WithPositions, DistinctKeys, Balances, Authentic, IsRun, SignedFor, Held;
    RunKeepsInv(w, states, steps, i);
    var s := states[i];
    SignedForBatch(w, s.authenticated.value, s.store.batch.value);
    PublishedPositions(map[], s.store.staged);
    BalancesAreHeld(s.store.positions, s.store.staged);
  }

  /** The manifest is one of this batch, long enough signed, and received in the window around the clock. */
  predicate SignedFor(w: World, m: Manifest, b: Batch) {
    && m.batchId == b.batchId && m.checksum == b.checksum && m.objectKey == b.objectKey
    && |m.signature| >= 32 && w.verify(m)
    && (m.receivedHour < 24 && w.startHour < 24 && w.endHour < 24 ==>
          (m.receivedHour - w.startHour) % 24 <= (w.endHour - w.startHour) % 24)
  }

  lemma SignedForBatch(w: World, m: Manifest, b: Batch)
    requires Authentic(w, m) && SameBatch(m, b) && m.batchId == b.batchId
    ensures SignedFor(w, m, b)
  {
    hide InsideWindow;
    if m.receivedHour < 24 && w.startHour < 24 && w.endHour < 24 {
      WindowIsCyclic(m.receivedHour, w.startHour, w.endHour);
    }
  }

  // ----- The controls a published batch passed, step by step -----

  /** Some earlier scan found this object clean. */
  ghost predicate WasClean(steps: seq<Step>, i: nat, content: string) {
    exists k :: 0 <= k < i && k < |steps| && steps[k].Scan? && steps[k].content == content && steps[k].clean
  }

  /** Some earlier inspection knew the currency and product of every row. */
  ghost predicate WasKnown(steps: seq<Step>, i: nat, rows: seq<Row>) {
    exists k :: 0 <= k < i && k < |steps| && steps[k].Inspect? && forall r <- rows :: steps[k].known(r)
  }

  /** Some earlier publication was not blocked. */
  ghost predicate WasClear(steps: seq<Step>, i: nat) {
    exists k :: 0 <= k < i && k < |steps| && steps[k].PublishStep? && steps[k].clear
  }

  ghost predicate Controls(s: State, steps: seq<Step>, i: nat) {
    && (s.scanned.Some? ==> WasClean(steps, i, s.scanned.value))
    && (s.store.batch.Some? && WasValidated(s.store.batch.value.state) ==> WasKnown(steps, i, s.store.staged))
    && (forall p <- s.processes :: s.processes[p].pc.ToDecide? && s.processes[p].pc.passes ==>
          WasKnown(steps, i, s.store.staged))
    && (s.store.batch.Some? && s.store.batch.value.state == BatchState.Published ==> WasClear(steps, i))
  }

  lemma ControlsCarryOver(w: World, s: State, t: State, steps: seq<Step>, i: nat)
    requires Inv(w, s) && Extends(s, t) && Controls(s, steps, i)
    requires t.scanned.Some? && s.scanned.None? ==> WasClean(steps, i + 1, t.scanned.value)
    requires t.store.batch.Some? && WasValidated(t.store.batch.value.state) ==>
               s.store.batch.Some? && (WasValidated(s.store.batch.value.state) ||
                                       (s.store.staged != [] && WasKnown(steps, i + 1, s.store.staged)))
    requires forall p <- t.processes :: t.processes[p].pc.ToDecide? && t.processes[p].pc.passes ==>
               p in s.processes && (s.processes[p].pc == t.processes[p].pc || WasKnown(steps, i + 1, t.store.staged))
    requires t.store.batch.Some? && t.store.batch.value.state == BatchState.Published ==>
               (s.store.batch.Some? && s.store.batch.value.state == BatchState.Published) || WasClear(steps, i + 1)
    ensures Controls(t, steps, i + 1)
  {
    hide IsPath, Balances, Authentic, WithPositions, DistinctKeys;
    if s.scanned.Some? { assert WasClean(steps, i + 1, s.scanned.value); }
    if WasKnown(steps, i, s.store.staged) { assert WasKnown(steps, i + 1, s.store.staged); }
    if WasClear(steps, i) { assert WasClear(steps, i + 1); }
    forall p | p in t.processes && t.processes[p].pc.ToDecide? && t.processes[p].pc.passes
      ensures WasKnown(steps, i + 1, t.store.staged)
    {
      assert ProcessOk(w, s, p);
    }
  }

  lemma ScanControls(w: World, s: State, steps: seq<Step>, i: nat)
    requires Injective(w.sha) && Inv(w, s) && i < |steps| && Enabled(s, steps[i]) && Controls(s, steps, i)
    requires steps[i].Scan?
    ensures Controls(Apply(w, s, steps[i]), steps, i + 1)
  {
    hide Inv, Injective, Controls, WasKnown, WasClear, WithPositions;
    var Scan(p, content, clean) := steps[i];
    var t := AfterScan(w, s, p, content, clean);
    ScanKeeps(w, s, p, content, clean);
    if t.scanned != s.scanned { assert WasClean(steps, i + 1, content); }
    ControlsCarryOver(w, s, t, steps, i);
  }

  lemma InspectControls(w: World, s: State, steps: seq<Step>, i: nat)
    requires Inv(w, s) && i < |steps| && Enabled(s, steps[i]) && Controls(s, steps, i)
    requires steps[i].Inspect?
    ensures Controls(Apply(w, s, steps[i]), steps, i + 1)
  {
    hide Inv, Controls, WasClear, WasClean, WithPositions, Balances;
    var t := Apply(w, s, steps[i]);
    if Passes(w, s.store, steps[i].known) { assert WasKnown(steps, i + 1, t.store.staged); }
    ControlsCarryOver(w, s, t, steps, i);
  }

  lemma DecideControls(w: World, s: State, steps: seq<Step>, i: nat)
    requires Inv(w, s) && i < |steps| && Enabled(s, steps[i]) && Controls(s, steps, i)
    requires steps[i].Decide?
    ensures Controls(Apply(w, s, steps[i]), steps, i + 1)
  {
    hide IsPath, WasClear, WasClean, WithPositions, Balances, Evidence, DistinctKeys;
    var p := steps[i].process;
    var t := AfterDecision(s, p);
    DecideKeeps(w, s, p);
    assert ProcessOk(w, s, p);
    if WasKnown(steps, i, s.store.staged) { assert WasKnown(steps, i + 1, s.store.staged); }
    ControlsCarryOver(w, s, t, steps, i);
  }

  lemma PublishControls(w: World, s: State, steps: seq<Step>, i: nat)
    requires Inv(w, s) && i < |steps| && Enabled(s, steps[i]) && Controls(s, steps, i)
    requires steps[i].PublishStep?
    ensures Controls(Apply(w, s, steps[i]), steps, i + 1)
  {
    hide Inv, Controls, WasKnown, WasClean, WithPositions;
    var PublishStep(p, clear) := steps[i];
    var t := AfterPublication(s, p, clear);
    PublishKeeps(w, s, p, clear);
    if clear { assert WasClear(steps, i + 1); }
    ControlsCarryOver(w, s, t, steps, i);
  }

  lemma StepKeepsControls(w: World, s: State, steps: seq<Step>, i: nat)
    requires Injective(w.sha) && Inv(w, s) && i < |steps| && Enabled(s, steps[i]) && Controls(s, steps, i)
    ensures Controls(Apply(w, s, steps[i]), steps, i + 1)
  {
    hide Inv, Controls, Injective, WasClean, WasKnown, WasClear, Authentic, WithPositions, DistinctKeys, Passes, Stage;
    match steps[i] {
      case Scan(_, _, _) => ScanControls(w, s, steps, i);
      case Inspect(_, _) => InspectControls(w, s, steps, i);
      case Decide(_) => DecideControls(w, s, steps, i);
      case PublishStep(_, _) => PublishControls(w, s, steps, i);
      case _ => PlainControls(w, s, steps, i);
    }
  }

  /** The other steps control nothing. */
  lemma PlainControls(w: World, s: State, steps: seq<Step>, i: nat)
    requires Injective(w.sha) && Inv(w, s) && i < |steps| && Enabled(s, steps[i]) && Controls(s, steps, i)
    requires steps[i].Receive? || steps[i].RegisterStep? || steps[i].Authenticate? || steps[i].StageStep? ||
             steps[i].Crash?
    ensures Controls(Apply(w, s, steps[i]), steps, i + 1)
  {
    hide Inv, Controls, Injective, WasClean, WasKnown, WasClear, Authentic, WithPositions, DistinctKeys, Passes,
      Replays;
    match steps[i] {
      case RegisterStep(p) => RegisterKeeps(w, s, p);
      case Authenticate(p) => AuthenticateKeeps(w, s, p);
      case StageStep(p) => StageKeeps(w, s, p);
      case _ =>
    }
    ControlsCarryOver(w, s, Apply(w, s, steps[i]), steps, i);
  }

  lemma {:induction false} RunKeepsControls(w: World, states: seq<State>, steps: seq<Step>, i: nat)
    requires Injective(w.sha) && IsRun(w, states, steps) && i < |states|
    ensures Controls(states[i], steps, i)
    decreases i
  {
    hide Apply, Injective, WasClean, WasKnown, WasClear;
    if i > 0 {
      hide Controls, Inv, Enabled;
      RunKeepsControls(w, states, steps, i - 1);
      RunKeepsInv(w, states, steps, i - 1);
      StepKeepsControls(w, states[i-1], steps, i - 1);
    }
  }

  /** Before a batch is published, a scan found the very object whose rows are staged clean, an inspection found
      the currency and product of every one of these rows in the reference data, and a publication was clear. */
  lemma PublishedWasControlled(w: World, states: seq<State>, steps: seq<Step>, i: nat)
    requires Injective(w.sha) && IsRun(w, states, steps) && i < |states|
    requires states[i].store.batch.Some? && states[i].store.batch.value.state == BatchState.Published
    ensures exists k :: 0 <= k < i && steps[k].Scan? && steps[k].clean && w.sha(steps[k].content) ==
                          states[i].store.batch.value.checksum
                        && w.parse(steps[k].content) == Some(states[i].store.staged)
    ensures exists k :: 0 <= k < i && steps[k].Inspect? && forall r <- states[i].store.staged :: steps[k].known(r)
    ensures exists k :: 0 <= k < i && steps[k].PublishStep? && steps[k].clear
  {
    hide IsPath, Apply, Injective, WithPositions, DistinctKeys, Balances, Authentic;
    RunKeepsInv(w, states, steps, i);
    RunKeepsControls(w, states, steps, i);
  }

  // ----- The registered and the authenticated manifest -----

  ghost predicate Agrees(s: State, rowCount: int, total: int) {
    && (s.store.batch.Some? ==> s.store.batch.value.rowCount == rowCount && s.store.batch.value.total == total)
    && (s.authenticated.Some? ==> s.authenticated.value.rowCount == rowCount && s.authenticated.value.total == total)
    && forall p <- s.processes :: s.processes[p].manifest.rowCount == rowCount && s.processes[p].manifest.total == total
  }

  /** When every delivery of the batch announces the same row count and total, those the rows were
      checked against are the authenticated ones. */
  lemma {:induction false} AgreeingManifests(w: World, states: seq<State>, steps: seq<Step>, i: nat, rowCount: int,
                                             total: int)
    requires IsRun(w, states, steps) && i < |states|
    requires forall k :: 0 <= k < |steps| && steps[k].Receive? ==>
             steps[k].manifest.rowCount == rowCount && steps[k].manifest.total == total
    ensures Agrees(states[i], rowCount, total)
    decreases i
  {
    hide Agrees, Enabled, Apply;
    if i > 0 {
      AgreeingManifests(w, states, steps, i - 1, rowCount, total);
      StepKeepsAgrees(w, states[i-1], steps[i-1], rowCount, total);
    } else {
      assert Agrees(states[0], rowCount, total) by { NothingDisagrees(rowCount, total); }
    }
  }

  lemma NothingDisagrees(rowCount: int, total: int)
    ensures Agrees(State(Store(None, [], map[], []), map[], None, None), rowCount, total)
  {}

  lemma StepKeepsAgrees(w: World, s: State, step: Step, rowCount: int, total: int)
    requires Agrees(s, rowCount, total) && Enabled(s, step)
    requires step.Receive? ==> step.manifest.rowCount == rowCount && step.manifest.total == total
    ensures Agrees(Apply(w, s, step), rowCount, total)
  {
    hide WithPositions, Authentic, DistinctKeys, Replays, Passes, Inserted, Resume;
  }

  /** Without that agreement they may differ, up to publication: registration keeps the totals of the first
      delivery and compares only checksum and object key, the signature is checked on the totals of the
      second, and the rows are checked against the first. Whenever the object's rows add up to the unsigned
      total, they become positions under a signature of another one. */
  lemma DisagreeingManifests(w: World, m: Manifest, other: int, e: Encounter, rows: seq<Row>)
    returns (states: seq<State>, steps: seq<Step>)
    requires InOrder(w, Batch(m.batchId, m.checksum, m.objectKey, m.rowCount, other, Received), m, e, rows)
    ensures IsRun(w, states, steps) && |states| > 0
    ensures var last := states[|states| - 1];
            && last.store.batch.Some? && last.store.batch.value.state == BatchState.Published
            && last.authenticated == Some(m) && last.store.batch.value.total == other
            && last.store.staged == rows && Balances(rows) == other
            && last.store.positions == WithPositions(map[], rows)
  {
    hide Authentic, WithPositions, DistinctKeys, Balances, IsRun, Continues, GoodRow;
    var before: seq<State>, firsts: seq<Step>;
    before, firsts := AuthenticatedOtherwise(w, m, other);
    var staged, stagings := StagedByFirst(w, m, other, e, rows, before[|before| - 1]);
    RunContinues(w, before, firsts, staged, stagings);
    var published, endings := PublishedByFirst(w, m, other, e, rows, staged[1]);
    RunContinues(w, before + staged, firsts + stagings, published, endings);
    states, steps := before + staged + published, firsts + stagings + endings;
  }

  /** Process 1 is at pc, under the signature of m, with the batch registered with the other total. */
  predicate Under(s: State, m: Manifest, other: int, state: BatchState, pc: Pc) {
    && s.store.batch == Some(Batch(m.batchId, m.checksum, m.objectKey, m.rowCount, other, state))
    && s.store.positions == map[] && s.authenticated == Some(m)
    && 1 in s.processes && s.processes[1] == Process(m, m.batchId, pc)
  }

  lemma StagedByFirst(w: World, m: Manifest, other: int, e: Encounter, rows: seq<Row>, s: State)
    returns (states: seq<State>, steps: seq<Step>)
    requires InOrder(w, Batch(m.batchId, m.checksum, m.objectKey, m.rowCount, other, Received), m, e, rows)
    requires Under(s, m, other, BatchState.Authenticated, ToScan) && s.store.staged == []
    ensures Continues(w, s, states, steps) && |states| == 2
    ensures Under(states[1], m, other, BatchState.Staged, ToValidate) && states[1].store.staged == rows
  {
    hide Authentic, DistinctKeys, Balances, Passes, GoodRow;
    assert Inserted([], rows) == rows && Replays(w, [], rows);
    steps := [Scan(1, e.content, true), StageStep(1)];
    var t := Apply(w, s, steps[0]);
    states := [t, Apply(w, t, steps[1])];
  }

  lemma PublishedByFirst(w: World, m: Manifest, other: int, e: Encounter, rows: seq<Row>, s: State)
    returns (states: seq<State>, steps: seq<Step>)
    requires InOrder(w, Batch(m.batchId, m.checksum, m.objectKey, m.rowCount, other, Received), m, e, rows)
    requires Under(s, m, other, BatchState.Staged, ToValidate) && s.store.staged == rows
    ensures Continues(w, s, states, steps) && |states| == 3
    ensures var last := states[2];
            && last.store.batch == Some(Batch(m.batchId, m.checksum, m.objectKey, m.rowCount, other,
                                              BatchState.Published))
            && last.authenticated == Some(m) && last.store.staged == rows
            && last.store.positions == WithPositions(map[], rows)
  {
    hide Authentic, DistinctKeys, Balances, GoodRow, WithPositions;
    assert Passes(w, s.store, e.known);
    steps := [Inspect(1, e.known), Decide(1), PublishStep(1, true)];
    var t := Apply(w, s, steps[0]);
    var u := Apply(w, t, steps[1]);
    states := [t, u, Apply(w, u, steps[2])];
  }

  /** The states that the steps lead to from s. */
  ghost predicate Continues(w: World, s: State, states: seq<State>, steps: seq<Step>) {
    && |states| == |steps| > 0
    && Enabled(s, steps[0]) && states[0] == Apply(w, s, steps[0])
    && forall i :: 0 < i < |steps| ==> Enabled(states[i-1], steps[i]) && states[i] == Apply(w, states[i-1], steps[i])
  }

  lemma RunContinues(w: World, before: seq<State>, firsts: seq<Step>, after: seq<State>, afters: seq<Step>)
    requires IsRun(w, before, firsts) && Continues(w, before[|before| - 1], after, afters)
    ensures IsRun(w, before + after, firsts + afters)
  {
    hide Enabled, Apply;
    var states, steps, n := before + after, firsts + afters, |firsts|;
    forall i | 0 <= i < |steps| ensures Enabled(states[i], steps[i]) && states[i+1] == Apply(w, states[i], steps[i]) {
      if i >= n { assert steps[i] == afters[i - n] && states[i+1] == after[i - n]; }
      if i > n { assert states[i] == after[i - n - 1]; }
    }
  }

  lemma AuthenticatedOtherwise(w: World, m: Manifest, other: int) returns (states: seq<State>, steps: seq<Step>)
    requires Authentic(w, m)
    ensures IsRun(w, states, steps) && |states| > 0
    ensures var last := states[|states| - 1];
            && last.store == Store(Some(Batch(m.batchId, m.checksum, m.objectKey, m.rowCount, other,
                                              BatchState.Authenticated)),
                                   [], map[], [Received, BatchState.Authenticated])
            && last.processes == map[1 := Process(m, m.batchId, ToScan)] && last.authenticated == Some(m)
  {
    hide Authentic;
    steps := [Receive(0, m.(total := other)), RegisterStep(0), Crash(0), Receive(1, m), RegisterStep(1),
              Authenticate(1)];
    var s0 := State(Store(None, [], map[], []), map[], None, None);
    var s1 := Apply(w, s0, steps[0]);
    var s2 := Apply(w, s1, steps[1]);
    var s3 := Apply(w, s2, steps[2]);
    var s4 := Apply(w, s3, steps[3]);
    var s5 := Apply(w, s4, steps[4]);
    var s6 := Apply(w, s5, steps[5]);
    states := [s0, s1, s2, s3, s4, s5, s6];
  }

  /** From every reachable state, whatever handlers crashed or are still under way, one undisturbed
      delivery of an orderly batch that is not finished publishes it. */
  lemma RedeliveryFinishes(w: World, states: seq<State>, steps: seq<Step>, i: nat, m: Manifest, e: Encounter,
                           rows: seq<Row>)
    requires Injective(w.sha) && IsRun(w, states, steps) && i < |states|
    requires states[i].store.batch.Some? && !Terminal(states[i].store.batch.value.state)
    requires InOrder(w, states[i].store.batch.value, m, e, rows)
    ensures var (t, result) := Deliver(w, states[i].store, m, e);
            && result == Ok(()) && t.batch == Some(states[i].store.batch.value.(state := BatchState.Published))
            && t.staged == rows && t.positions == WithPositions(map[], rows)
  {
    hide IsPath, Apply, WithPositions, DistinctKeys, Balances, Authentic, Deliver;
    RunKeepsInv(w, states, steps, i);
    if states[i].store.batch.value.state in {Received, BatchState.Authenticated, BatchState.Scanned} {
      EarlyStatesHaveNoRows(w, states, steps, i);
    }
    assert Injective(w.sha);
    DeliveryResumes(w, states[i].store, m, e, rows);
  }

  /** Rows are staged only once the batch leaves the scanned state. */
  lemma {:induction false} EarlyStatesHaveNoRows(w: World, states: seq<State>, steps: seq<Step>, i: nat)
    requires IsRun(w, states, steps) && i < |states|
    requires states[i].store.batch.Some? && IsEarly(states[i])
    ensures states[i].store.staged == []
    decreases i
  {
    if i > 0 {
      hide Enabled, Apply, IsEarly;
      StepKeepsEarly(w, states[i-1], steps[i-1]);
      if IsEarly(states[i-1]) {
        if states[i-1].store.batch.Some? {
          EarlyStatesHaveNoRows(w, states, steps, i - 1);
        } else {
          NoBatchNoRows(w, states, steps, i - 1);
        }
      }
    }
  }

  predicate IsEarly(s: State) {
    s.store.batch.None? || s.store.batch.value.state in {Received, BatchState.Authenticated, BatchState.Scanned}
  }

  /** An early state follows only early states, and no step between them stages rows. */
  lemma StepKeepsEarly(w: World, s: State, step: Step)
    requires Enabled(s, step) && IsEarly(Apply(w, s, step))
    ensures IsEarly(s) && Apply(w, s, step).store.staged == s.store.staged
  {
    hide WithPositions, Authentic, DistinctKeys, Replays, Passes, Inserted, Resume;
  }

  lemma StepKeepsBatch(w: World, s: State, step: Step)
    requires Enabled(s, step)
    ensures s.store.batch.Some? ==> Apply(w, s, step).store.batch.Some?
  {
    hide WithPositions, Authentic, DistinctKeys, Replays, Passes, Inserted, Resume;
  }

  lemma {:induction false} NoBatchNoRows(w: World, states: seq<State>, steps: seq<Step>, i: nat)
    requires IsRun(w, states, steps) && i < |states| && states[i].store.batch.None?
    ensures states[i].store.staged == []
    decreases i
  {
    if i > 0 {
      hide Enabled, Apply;
      StepKeepsEarly(w, states[i-1], steps[i-1]);
      StepKeepsBatch(w, states[i-1], steps[i-1]);
      NoBatchNoRows(w, states, steps, i - 1);
    }
  }
}

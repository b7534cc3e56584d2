/** One CBS batch, that is one replay key, and the statements that move it: every one is a guarded
    transaction over the batch row, its staged rows and the positions published from them. */
module CbsBatch {
  import opened Wrappers
  import opened Sums

  datatype BatchState =
    | Received | Authenticated | Scanned | Staged | Validated | Approved | Published
    | Quarantined | Rejected | PartiallyRejected | FailedState | Cancelled

  function Transitions(from: BatchState): set<BatchState> {
    match from
    case Received => {Authenticated, Rejected, FailedState, Cancelled}
    case Authenticated => {Scanned, Quarantined, FailedState, Cancelled}
    case Scanned => {Staged, Quarantined, FailedState, Cancelled}
    case Staged => {Validated, Rejected, PartiallyRejected, FailedState, Cancelled}
    case Validated => {Approved, Rejected, PartiallyRejected, Cancelled}
    case Approved => {Published, FailedState, Cancelled}
    case _ => {}
  }

  predicate Terminal(s: BatchState) { Transitions(s) == {} }

  /** Dates are day numbers; the balance counts units of 10^-12. */
  datatype Row = Row(accountId: string, customerReference: string, productCode: string, currency: string,
                     openedOn: int, businessDate: int, valueDate: int, balance: int)

  datatype PositionKey = PositionKey(accountId: string, businessDate: int, valueDate: int)

  function KeyOf(r: Row): PositionKey { PositionKey(r.accountId, r.businessDate, r.valueDate) }

  /** What a message says of the batch; every message of the run has the same replay key. */
  datatype Manifest = Manifest(batchId: string, checksum: string, objectKey: string, rowCount: int, total: int,
                               receivedHour: nat, signature: string)

  datatype Batch = Batch(batchId: string, checksum: string, objectKey: string, rowCount: int, total: int,
                         state: BatchState)

  datatype Store = Store(batch: Option<Batch>, staged: seq<Row>, positions: map<PositionKey, int>,
                         history: seq<BatchState>)

  /** What the surroundings compute: the checksum of an object, the rows its text parses to, how a staged
      row is read back, the source's signature check, the business date and flow of the key, the window. */
  datatype World = World(sha: string -> string, parse: string -> Option<seq<Row>>, back: Row -> Row,
                         verify: Manifest -> bool, businessDate: int, investmentPositions: bool,
                         startHour: nat, endHour: nat)

  datatype Refusal = ReplayConflict | NotInState | StagingConflict | NotCsv | PublicationRefused

  // ----- Statements -----

  function Moved(s: Store, next: BatchState): Store
    requires s.batch.Some?
  {
    s.(batch := Some(s.batch.value.(state := next)), history := s.history + [next])
  }

  function Register(s: Store, m: Manifest): Result<Store, Refusal> {
    match s.batch
    case None => Ok(s.(batch := Some(Batch(m.batchId, m.checksum, m.objectKey, m.rowCount, m.total, Received)),
                       history := s.history + [Received]))
    case Some(b) => if b.checksum != m.checksum || b.objectKey != m.objectKey then Err(ReplayConflict) else Ok(s)
  }

  predicate InState(s: Store, id: string, a: BatchState, b: BatchState) {
    s.batch.Some? && s.batch.value.batchId == id && (s.batch.value.state == a || s.batch.value.state == b)
  }

  function Transition(s: Store, id: string, expected: BatchState, next: BatchState): Result<Store, Refusal> {
    if InState(s, id, expected, next) then Ok(Moved(s, next)) else Err(NotInState)
  }

  predicate DistinctKeys(rows: seq<Row>) { forall i, j :: 0 <= i < j < |rows| ==> KeyOf(rows[i]) != KeyOf(rows[j]) }

  /** The staged rows after inserting rows: a row number already present keeps its row. */
  function Inserted(staged: seq<Row>, rows: seq<Row>): seq<Row> {
    if |rows| <= |staged| then staged else staged + rows[|staged|..]
  }

  predicate Replays(w: World, staged: seq<Row>, rows: seq<Row>) {
    forall i :: 0 <= i < |rows| ==> w.back(Inserted(staged, rows)[i]) == rows[i]
  }

  function Stage(w: World, s: Store, id: string, rows: seq<Row>): Result<Store, Refusal> {
    if !DistinctKeys(Inserted(s.staged, rows)) || !Replays(w, s.staged, rows) then Err(StagingConflict)
    else if !InState(s, id, BatchState.Scanned, BatchState.Staged) then Err(NotInState)
    else Ok(Moved(s, BatchState.Staged).(staged := Inserted(s.staged, rows)))
  }

  /** Rows are staged for the first time if and only if their keys are distinct and the columns give every row
      back as it was written; an account identifier in capitals, which its column lowers, is a conflict. */
  lemma FirstStagingSucceedsExactly(w: World, s: Store, id: string, rows: seq<Row>)
    requires s.staged == [] && InState(s, id, BatchState.Scanned, BatchState.Staged)
    ensures Stage(w, s, id, rows).Ok? <==> DistinctKeys(rows) && forall r <- rows :: w.back(r) == r
    ensures (exists r :: r in rows && w.back(r).accountId != r.accountId) ==>
              Stage(w, s, id, rows) == Err(StagingConflict)
  {
    hide DistinctKeys;
    assert Inserted([], rows) == rows;
    if Replays(w, [], rows) {
      forall r | r in rows ensures w.back(r) == r {
        var i :| 0 <= i < |rows| && rows[i] == r;
        assert w.back(Inserted([], rows)[i]) == rows[i];
      }
    }
  }

  function Balances(rows: seq<Row>): int { if rows == [] then 0 else rows[0].balance + Balances(rows[1..]) }

  /** What a position holds, zero when there is none. */
  function Held(positions: map<PositionKey, int>): Row -> int {
    (r: Row) => if KeyOf(r) in positions then positions[KeyOf(r)] else 0
  }

  /** The positions that rows with distinct keys become hold the whole balance of the rows. */
  lemma {:induction false} BalancesAreHeld(positions: map<PositionKey, int>, rows: seq<Row>)
    requires forall r <- rows :: KeyOf(r) in positions && positions[KeyOf(r)] == r.balance
    ensures SumBy(Held(positions), rows) == Balances(rows)
  {
    if rows != [] {
      assert rows[0] in rows && forall r <- rows[1..] :: r in rows;
      BalancesAreHeld(positions, rows[1..]);
    }
  }

  /** known says which currencies and products the reference data holds at that moment. */
  predicate GoodRow(w: World, r: Row, known: Row -> bool) {
    r.businessDate == w.businessDate && known(r) && r.openedOn <= r.valueDate <= r.businessDate
  }

  predicate Passes(w: World, s: Store, known: Row -> bool) {
    && s.batch.Some? && s.staged != [] && |s.staged| == s.batch.value.rowCount &&
       Balances(s.staged) == s.batch.value.total
    && forall r <- s.staged :: GoodRow(w, r, known)
  }

  function WithPositions(positions: map<PositionKey, int>, rows: seq<Row>): map<PositionKey, int> {
    if rows == [] then positions else
      var before := WithPositions(positions, rows[..|rows|-1]);
      var r := rows[|rows|-1];
      if KeyOf(r) in before then before else before[KeyOf(r) := r.balance]
  }

  /** clear says that every customer got a valid token, no account conflicts and nothing blocks publication. */
  function Publish(s: Store, id: string, clear: bool): Result<Store, Refusal> {
    if s.batch.Some? && s.batch.value.batchId == id && s.batch.value.state == BatchState.Published then Ok(s)
    else if !InState(s, id, BatchState.Validated, BatchState.Approved) then Err(NotInState)
    else if !clear then Err(PublicationRefused)
    else Ok(Moved(Moved(s, BatchState.Approved),
                  BatchState.Published).(positions := WithPositions(s.positions, s.staged)))
  }

  // ----- Authentication -----

  predicate InsideWindow(hour: nat, start: nat, end: nat) {
    if start <= end then start <= hour <= end else hour >= start || hour <= end
  }

  /** The window is the hours from its start to its end, both included, around midnight if need be. */
  lemma WindowIsCyclic(hour: nat, start: nat, end: nat)
    requires hour < 24 && start < 24 && end < 24
    ensures InsideWindow(hour, start, end) <==> (hour - start) % 24 <= (end - start) % 24
  {
    assert hour < start ==> (hour - start) % 24 == hour - start + 24;
    assert end < start ==> (end - start) % 24 == end - start + 24;
  }

  predicate Authentic(w: World, m: Manifest) {
    InsideWindow(m.receivedHour, w.startHour, w.endHour) && |m.signature| >= 32 && w.verify(m)
  }

  // ----- The handler -----

  class CbsBatchRepository {
    var store: Store

    constructor ()
      ensures store == Store(None, [], map[], [])
    {
      store := Store(None, [], map[], []);
    }

    method RegisterReceived(m: Manifest) returns (result: Result<BatchState, Refusal>)
      modifies this
      ensures match Register(old(store), m)
              case Ok(s) => store == s && s.batch.Some? && result == Ok(s.batch.value.state)
              case Err(e) => store == old(store) && result == Err(e)
    {
      if store.batch.None? {
        store := store.(batch := Some(Batch(m.batchId, m.checksum, m.objectKey, m.rowCount, m.total, Received)),
                        history := store.history + [Received]);
        return Ok(Received);
      }
      var b := store.batch.value;
      if b.checksum != m.checksum || b.objectKey != m.objectKey { return Err(ReplayConflict); }
      result := Ok(b.state);
    }

    method TransitionTo(id: string, expected: BatchState, next: BatchState) returns (moved: bool)
      modifies this
      ensures moved <==> Transition(old(store), id, expected, next).Ok?
      ensures store == match Transition(old(store), id, expected, next) case Ok(s) => s case Err(_) => old(store)
    {
      moved := InState(store, id, expected, next);
      if moved { store := Moved(store, next); }
    }

    /** The transaction inserts row after row; the first conflict rolls everything back. */
    method StageRows(w: World, id: string, rows: seq<Row>) returns (result: Result<(), Refusal>)
      modifies this
      ensures match Stage(w, old(store), id, rows)
              case Ok(s) => store == s && result == Ok(())
              case Err(e) => store == old(store) && result == Err(e)
    {
      var staged := store.staged;
      ghost var was := store.staged;
      for i := 0 to |rows|
        invariant staged == Inserted(was, rows[..i])
        invariant forall k :: 0 <= k < i ==> w.back(Inserted(was, rows)[k]) == rows[k]
        invariant store == old(store)
      {
        assert rows[..i+1] == rows[..i] + [rows[i]];
        if |staged| <= i { staged := staged + [rows[i]]; }
        assert staged[i] == Inserted(was, rows)[i];
        if w.back(staged[i]) != rows[i] {
          assert !Replays(w, was, rows);
          return Err(StagingConflict);
        }
      }
      assert rows[..|rows|] == rows;
      if !DistinctKeys(staged) { return Err(StagingConflict); }
      if !InState(store, id, BatchState.Scanned, BatchState.Staged) { return Err(NotInState); }
      store := Moved(store, BatchState.Staged).(staged := staged);
      result := Ok(());
    }

    /** The list of failed controls decides. */
    method Validate(w: World, id: string, known: Row -> bool) returns (result: Result<bool, Refusal>)
      requires store.batch.Some?
      modifies this
      ensures var passes := Passes(w, old(store), known);
              match Transition(old(store), id, BatchState.Staged, if passes then BatchState.Validated
                               else BatchState.Rejected)
              case Ok(s) => store == s && result == Ok(passes)
              case Err(e) => store == old(store) && result == Err(e)
    {
      var b, rows := store.batch.value, store.staged;
      var failures: seq<string> := [];
      if |rows| == 0 { failures := failures + ["EMPTY_BATCH"]; }
      if exists r :: r in rows && r.businessDate != w.businessDate {
        failures := failures + ["BUSINESS_DATE_MISMATCH"];
      }
      if |rows| != b.rowCount { failures := failures + ["MANIFEST_ROW_COUNT_MISMATCH"]; }
      if Balances(rows) != b.total { failures := failures + ["MANIFEST_BALANCE_MISMATCH"]; }
      if exists r :: r in rows && !known(r) { failures := failures + ["UNKNOWN_CURRENCY_OR_PRODUCT"]; }
      if exists r :: r in rows && (r.openedOn > r.valueDate || r.valueDate > r.businessDate) {
        failures := failures + ["INVALID_DATE_CHRONOLOGY"];
      }
      assert failures == [] <==> Passes(w, store, known);
      var decision := if failures == [] then BatchState.Validated else BatchState.Rejected;
      if !InState(store, id, BatchState.Staged, decision) { return Err(NotInState); }
      store := Moved(store, decision);
      result := Ok(failures == []);
    }

    method PublishPositions(id: string, clear: bool) returns (result: Result<(), Refusal>)
      modifies this
      ensures match Publish(old(store), id, clear)
              case Ok(s) => store == s && result == Ok(())
              case Err(e) => store == old(store) && result == Err(e)
    {
      if store.batch.Some? && store.batch.value.batchId == id && store.batch.value.state == BatchState.Published {
        return Ok(());
      }
      if !InState(store, id, BatchState.Validated, BatchState.Approved) { return Err(NotInState); }
      if !clear { return Err(PublicationRefused); }
      var positions := store.positions;
      for i := 0 to |store.staged|
        invariant positions == WithPositions(store.positions, store.staged[..i])
        invariant store == old(store)
      {
        var r := store.staged[i];
        assert store.staged[..i+1][..i] == store.staged[..i];
        if KeyOf(r) !in positions { positions := positions[KeyOf(r) := r.balance]; }
      }
      assert store.staged[..|store.staged|] == store.staged;
      store := Moved(Moved(store, BatchState.Approved), BatchState.Published).(positions := positions);
      result := Ok(());
    }
  }

  // ----- One delivery that nothing interferes with -----

  /** What a delivery meets: the object the landing zone gives, the antivirus, the reference data, publication. */
  datatype Encounter = Encounter(content: string, clean: bool, known: Row -> bool, clear: bool)

  type Ending = (Store, Result<(), Refusal>)

  function Ended(s: Store, r: Result<Store, Refusal>): Ending {
    match r case Ok(t) => (t, Ok(())) case Err(e) => (s, Err(e))
  }

  function ValidateOn(w: World, s: Store, id: string, e: Encounter): Ending {
    var passes := Passes(w, s, e.known);
    match Transition(s, id, BatchState.Staged, if passes then BatchState.Validated else BatchState.Rejected)
    case Err(error) => (s, Err(error))
    case Ok(t) => if passes then Ended(t, Publish(t, id, e.clear)) else (t, Ok(()))
  }

  function StageOn(w: World, s: Store, id: string, e: Encounter): Ending {
    match w.parse(e.content)
    case None => (s, Err(NotCsv))
    case Some(rows) =>
      if rows == [] then (s, Err(NotCsv)) else
        match Stage(w, s, id, rows)
        case Err(error) => (s, Err(error))
        case Ok(t) => ValidateOn(w, t, id, e)
  }

  function ScanOn(w: World, s: Store, m: Manifest, id: string, e: Encounter): Ending {
    if w.sha(e.content) != m.checksum || !e.clean then
      Ended(s, Transition(s, id, BatchState.Authenticated, Quarantined))
    else
      match Transition(s, id, BatchState.Authenticated, BatchState.Scanned)
      case Err(error) => (s, Err(error))
      case Ok(t) => if w.investmentPositions then StageOn(w, t, id, e) else (t, Ok(()))
  }

  /** The handler resumes from whatever state the batch is in. */
  function Deliver(w: World, s: Store, m: Manifest, e: Encounter): Ending {
    match Register(s, m)
    case Err(error) => (s, Err(error))
    case Ok(t) =>
      var id, state := t.batch.value.batchId, t.batch.value.state;
      if Terminal(state) then (t, Ok(()))
      else if state == Received then
        match Transition(t, m.batchId, Received, if Authentic(w, m) then BatchState.Authenticated
                         else BatchState.Rejected)
        case Err(error) => (t, Err(error))
        case Ok(u) => if Authentic(w, m) then ScanOn(w, u, m, id, e) else (u, Ok(()))
      else if state == BatchState.Authenticated || state == BatchState.Scanned then ScanOn(w, t, m, id, e)
      else if !w.investmentPositions then (t, Ok(()))
      else if state == BatchState.Staged then ValidateOn(w, t, id, e)
      else Ended(t, Publish(t, id, e.clear))
  }

  class CbsBatchMessageHandler {
    const repository: CbsBatchRepository
    const world: World

    constructor (repository: CbsBatchRepository, world: World)
      ensures this.repository == repository && this.world == world
    {
      this.repository := repository;
      this.world := world;
    }

    method Handle(m: Manifest, e: Encounter) returns (result: Result<(), Refusal>)
      modifies repository
      ensures (repository.store, result) == Deliver(world, old(repository.store), m, e)
    {
      hide Passes, Publish, Authentic, Replays, DistinctKeys;
      var registration := repository.RegisterReceived(m);
      if registration.Err? { return Err(registration.error); }
      var state := registration.value;
      var id := repository.store.batch.value.batchId;
      if state in {BatchState.Published, Quarantined, BatchState.Rejected, PartiallyRejected, FailedState, Cancelled} {
        return Ok(());
      }
      if state == Received {
        var authentic := Authentic(world, m);
        var moved := repository.TransitionTo(m.batchId, Received, if authentic then BatchState.Authenticated
                                             else BatchState.Rejected);
        if !moved { return Err(NotInState); }
        if !authentic { return Ok(()); }
      }
      if state == Received || state == BatchState.Authenticated || state == BatchState.Scanned {
        if world.sha(e.content) != m.checksum || !e.clean {
          var moved := repository.TransitionTo(id, BatchState.Authenticated, Quarantined);
          return if moved then Ok(()) else Err(NotInState);
        }
        var moved := repository.TransitionTo(id, BatchState.Authenticated, BatchState.Scanned);
        if !moved { return Err(NotInState); }
        if !world.investmentPositions { return Ok(()); }
        var rows := world.parse(e.content);
        if rows.None? || rows.value == [] { return Err(NotCsv); }
        var staged := repository.StageRows(world, id, rows.value);
        if staged.Err? { return Err(staged.error); }
        result := ValidateAndPublish(id, e);
      } else if !world.investmentPositions {
        result := Ok(());
      } else if state == BatchState.Staged {
        result := ValidateAndPublish(id, e);
      } else {
        result := repository.PublishPositions(id, e.clear);
      }
    }

    method ValidateAndPublish(id: string, e: Encounter) returns (result: Result<(), Refusal>)
      requires repository.store.batch.Some?
      modifies repository
      ensures (repository.store, result) == ValidateOn(world, old(repository.store), id, e)
    {
      hide Passes, Publish;
      var validation := repository.Validate(world, id, e.known);
      if validation.Err? { return Err(validation.error); }
      if !validation.value { return Ok(()); }
      result := repository.PublishPositions(id, e.clear);
    }
  }

  /** Everything about the batch is in order: its signature, its object, its rows and its surroundings. */
  ghost predicate InOrder(w: World, b: Batch, m: Manifest, e: Encounter, rows: seq<Row>) {
    && w.investmentPositions && Authentic(w, m)
    && m.batchId == b.batchId && m.checksum == b.checksum && m.objectKey == b.objectKey
    && w.sha(e.content) == b.checksum && e.clean && e.clear && w.parse(e.content) == Some(rows)
    && rows != [] && DistinctKeys(rows) && |rows| == b.rowCount && Balances(rows) == b.total
    && forall r <- rows :: w.back(r) == r && GoodRow(w, r, e.known)
  }

  /** Whatever statement an earlier delivery stopped after, the next one finishes the work: from every
      state that is not terminal an orderly batch ends up published, with the rows of its object staged. */
  lemma DeliveryResumes(w: World, s: Store, m: Manifest, e: Encounter, rows: seq<Row>)
    requires s.batch.Some? && InOrder(w, s.batch.value, m, e, rows) && !Terminal(s.batch.value.state)
    requires if s.batch.value.state in {Received, BatchState.Authenticated, BatchState.Scanned} then s.staged == []
    else s.staged == rows
    ensures var (t, result) := Deliver(w, s, m, e);
            && result == Ok(()) && t.batch == Some(s.batch.value.(state := BatchState.Published))
            && t.staged == rows && t.positions == WithPositions(s.positions, rows)
  {
    hide Authentic, WithPositions, DistinctKeys, Balances;
    assert Inserted([], rows) == rows && Inserted(rows, rows) == rows;
    assert Replays(w, [], rows);
  }

  /** What the controls ask of the rows of a batch, in full. */
  ghost predicate Acceptable(w: World, m: Manifest, known: Row -> bool, rows: seq<Row>) {
    && |rows| == m.rowCount && Balances(rows) == m.total
    && forall r <- rows :: r.businessDate == w.businessDate && r.openedOn <= r.valueDate <= w.businessDate && known(r)
  }

  ghost predicate Stageable(w: World, content: string) {
    && w.parse(content).Some? && w.parse(content).value != []
    && (forall r <- w.parse(content).value :: w.back(r) == r)
    && forall i, j :: 0 <= i < j < |w.parse(content).value| ==>
         KeyOf(w.parse(content).value[i]) != KeyOf(w.parse(content).value[j])
  }

  predicate Genuine(w: World, m: Manifest) {
    && |m.signature| >= 32 && w.verify(m)
    && (m.receivedHour - w.startHour) % 24 <= (w.endHour - w.startHour) % 24
  }

  /** Where the first delivery of a batch ends: rejected when it is not genuine, quarantined when its object is
      not the announced one or not clean, scanned when its rows cannot be staged, rejected when they are not
      acceptable, validated when something blocks publication, and published exactly when nothing of this is. */
  lemma FirstDeliveryEnds(w: World, m: Manifest, e: Encounter)
    requires m.receivedHour < 24 && w.startHour < 24 && w.endHour < 24
    ensures var (t, result) := Deliver(w, Store(None, [], map[], []), m, e);
            && t.batch.Some? && t.batch.value.batchId == m.batchId
            && t.batch.value.state ==
               (if !Genuine(w, m) then BatchState.Rejected
                else if w.sha(e.content) != m.checksum || !e.clean then Quarantined
                else if !w.investmentPositions || !Stageable(w, e.content) then BatchState.Scanned
                else if !Acceptable(w, m, e.known, w.parse(e.content).value) then BatchState.Rejected
                else if !e.clear then BatchState.Validated
                else BatchState.Published)
            && (result.Err? <==>
                w.investmentPositions && t.batch.value.state in {BatchState.Scanned, BatchState.Validated})
            && (t.batch.value.state != BatchState.Published ==> t.positions == map[])
  {
    hide Balances, WithPositions, Authentic, Genuine, DistinctKeys, Stageable, Acceptable, Replays, Passes, Inserted;
    GenuineIsAuthentic(w, m);
    StageableExactly(w, e.content);
    if w.parse(e.content).Some? && w.parse(e.content).value != [] {
      var rows := w.parse(e.content).value;
      InsertedFirst(rows);
      AcceptablePasses(w, m, e.known,
                       Store(Some(Batch(m.batchId, m.checksum, m.objectKey, m.rowCount, m.total, BatchState.Staged)),
                             rows, map[], [] + [Received] + [BatchState.Authenticated] + [BatchState.Scanned] +
                             [BatchState.Staged]));
    }
  }

  lemma GenuineIsAuthentic(w: World, m: Manifest)
    requires m.receivedHour < 24 && w.startHour < 24 && w.endHour < 24
    ensures Authentic(w, m) <==> Genuine(w, m)
  {
    hide InsideWindow;
    WindowIsCyclic(m.receivedHour, w.startHour, w.endHour);
  }

  lemma InsertedFirst(rows: seq<Row>)
    ensures Inserted([], rows) == rows
  {}

  lemma AcceptablePasses(w: World, m: Manifest, known: Row -> bool, s: Store)
    requires s.batch.Some? && s.batch.value.rowCount == m.rowCount && s.batch.value.total == m.total && s.staged != []
    ensures Passes(w, s, known) <==> Acceptable(w, m, known, s.staged)
  {
    hide Balances;
  }

  lemma StageableExactly(w: World, content: string)
    ensures Stageable(w, content) <==>
            && w.parse(content).Some? && w.parse(content).value != []
            && DistinctKeys(w.parse(content).value) && Replays(w, [], w.parse(content).value)
  {
    if w.parse(content).Some? { StageableRows(w, w.parse(content).value); }
  }

  lemma StageableRows(w: World, rows: seq<Row>)
    ensures (forall r <- rows :: w.back(r) == r) <==> Replays(w, [], rows)
  {
    assert Inserted([], rows) == rows;
    if Replays(w, [], rows) {
      forall r | r in rows ensures w.back(r) == r {
        var i :| 0 <= i < |rows| && rows[i] == r;
        assert w.back(Inserted([], rows)[i]) == rows[i];
      }
    }
  }

  ghost predicate BecamePositions(positions: map<PositionKey, int>, rows: seq<Row>, after: map<PositionKey, int>) {
    && (forall k <- positions :: k in after && after[k] == positions[k])
    && (forall r <- rows :: KeyOf(r) in after && (KeyOf(r) !in positions ==> after[KeyOf(r)] == r.balance))
    && forall k <- after :: k in positions || exists r :: r in rows && KeyOf(r) == k
  }

  /** Publishing rows with distinct keys adds exactly their balances: a position already there keeps its
      balance, every other row's becomes one, and nothing else does. */
  lemma {:induction false} PublishedPositions(positions: map<PositionKey, int>, rows: seq<Row>)
    requires DistinctKeys(rows)
    ensures BecamePositions(positions, rows, WithPositions(positions, rows))
  {
    if rows != [] {
      var front, last := rows[..|rows|-1], rows[|rows|-1];
      PublishedPositions(positions, front);
      LastIsAnother(rows);
      LastPosition(positions, rows, WithPositions(positions, front), WithPositions(positions, rows));
    }
  }

  lemma LastIsAnother(rows: seq<Row>)
    requires DistinctKeys(rows) && rows != []
    ensures forall r <- rows[..|rows|-1] :: KeyOf(r) != KeyOf(rows[|rows|-1])
    ensures forall r :: r in rows <==> r in rows[..|rows|-1] || r == rows[|rows|-1]
  {
    assert rows == rows[..|rows|-1] + [rows[|rows|-1]];
  }

  lemma LastPosition(positions: map<PositionKey, int>, rows: seq<Row>, before: map<PositionKey, int>,
                     after: map<PositionKey, int>)
    requires rows != []
    requires var last := rows[|rows|-1];
             after == if KeyOf(last) in before then before else before[KeyOf(last) := last.balance]
    requires forall r <- rows[..|rows|-1] :: KeyOf(r) != KeyOf(rows[|rows|-1])
    requires forall r :: r in rows <==> r in rows[..|rows|-1] || r == rows[|rows|-1]
    requires BecamePositions(positions, rows[..|rows|-1], before)
    ensures BecamePositions(positions, rows, after)
  {}
}

/** The outbox: rows leased to relay workers, published to the broker, marked published or retried.
    Every SQL statement is one atomic step. The first half gives the statements and the relay loop as
    methods; the second half is the protocol of any number of relays whose steps interleave. */
module Outbox {
  import opened Wrappers

  type EventId = string
  type Worker = string

  /** Times are milliseconds. */
  datatype Row = Row(createdAt: int, availableAt: int, attempts: nat, lockedBy: Option<Worker>,
                     lockedUntil: Option<int>, publishedAt: Option<int>, lastError: Option<string>)

  type Table = map<EventId, Row>

  datatype Record = Record(eventId: EventId, attempts: nat)

  const MAX_RETRY_MS: int := 3600 * 1000

  // ----- The statements -----

  predicate Claimable(row: Row, now: int) {
    row.publishedAt.None? && row.availableAt <= now && (row.lockedUntil.None? || row.lockedUntil.value < now)
  }

  predicate Before(a: Row, b: Row) {
    a.availableAt < b.availableAt || (a.availableAt == b.availableAt && a.createdAt < b.createdAt)
  }

  predicate Distinct(ids: seq<EventId>) { forall i, j :: 0 <= i < j < |ids| ==> ids[i] != ids[j] }

  function Ids(records: seq<Record>): (ids: seq<EventId>)
    ensures |ids| == |records| && forall i :: 0 <= i < |ids| ==> ids[i] == records[i].eventId
  {
    seq(|records|, i requires 0 <= i < |records| => records[i].eventId)
  }

  function RecordsOf(rows: Table, chosen: seq<EventId>): seq<Record>
    requires forall id <- chosen :: id in rows
  {
    seq(|chosen|, i requires 0 <= i < |chosen| =>
      assert chosen[i] in chosen;
      Record(chosen[i], rows[chosen[i]].attempts))
  }

  /** What one claim may choose: claimable rows that no concurrent claim has locked, at most limit of
      them, and a row is passed over only for rows that are not younger. */
  ghost predicate IsClaim(rows: Table, busy: set<EventId>, now: int, limit: nat, chosen: seq<EventId>) {
    && Distinct(chosen) && |chosen| <= limit
    && (forall id <- chosen :: id in rows && id !in busy && Claimable(rows[id], now))
    && (forall id <- rows :: id !in busy && Claimable(rows[id], now) && id !in chosen ==>
          (|chosen| == limit && forall c <- chosen :: c in rows && !Before(rows[id], rows[c])))
  }

  function Leased(rows: Table, chosen: seq<EventId>, worker: Worker, until: int): Table {
    map id | id in rows ::
      if id in chosen then rows[id].(lockedBy := Some(worker), lockedUntil := Some(until)) else rows[id]
  }

  predicate Owns(rows: Table, id: EventId, worker: Worker) { id in rows && rows[id].lockedBy == Some(worker) }

  function Published(row: Row, at: int): Row {
    row.(publishedAt := Some(at), lockedBy := None, lockedUntil := None, lastError := None)
  }

  function Failed(row: Row, nextAttemptAt: int, reason: string): Row {
    row.(availableAt := nextAttemptAt, attempts := row.attempts + 1, lastError := Some(reason),
         lockedBy := None, lockedUntil := None)
  }

  function WithPublished(rows: Table, id: EventId, worker: Worker, at: int): Table {
    if Owns(rows, id, worker) then rows[id := Published(rows[id], at)] else rows
  }

  function WithFailed(rows: Table, id: EventId, worker: Worker, nextAttemptAt: int, reason: string): Table {
    if Owns(rows, id, worker) then rows[id := Failed(rows[id], nextAttemptAt, reason)] else rows
  }

  function Power(n: nat): (r: nat)
    ensures r >= 1
  {
    if n == 0 then 1 else 2 * Power(n - 1)
  }

  function Min(a: int, b: int): int { if a <= b then a else b }

  function RetryAt(now: int, attempts: nat, baseSeconds: nat): int {
    now + Min(baseSeconds * Power(Min(attempts, 10)), 3600) * 1000
  }

  /** Retries back off: never sooner after more failures, never more than an hour away. */
  lemma RetriesBackOff(now: int, a: nat, b: nat, baseSeconds: nat)
    requires a <= b
    ensures now <= RetryAt(now, a, baseSeconds) <= RetryAt(now, b, baseSeconds) <= now + MAX_RETRY_MS
  {
    PowerGrows(Min(a, 10), Min(b, 10));
    Times(baseSeconds, Power(Min(a, 10)), Power(Min(b, 10)));
  }

  /** The first retry waits the base, every further one twice as long, up to an hour and to ten doublings. */
  lemma DelaysDouble(now: int, a: nat, baseSeconds: nat)
    ensures RetryAt(now, 0, baseSeconds) == now + Min(baseSeconds * 1000, 3_600_000)
    ensures a < 10 ==>
              RetryAt(now, a + 1, baseSeconds) - now == Min(2 * (RetryAt(now, a, baseSeconds) - now), 3_600_000)
    ensures a >= 10 ==> RetryAt(now, a, baseSeconds) == RetryAt(now, 10, baseSeconds)
  {
    assert Power(0) == 1;
    if a < 10 { assert baseSeconds * Power(a + 1) == 2 * (baseSeconds * Power(a)); }
  }

  lemma {:induction false} PowerGrows(a: nat, b: nat)
    requires a <= b
    ensures Power(a) <= Power(b)
  {
    if a < b { PowerGrows(a, b - 1); }
  }

  lemma Times(x: nat, a: nat, b: nat)
    requires a <= b
    ensures 0 <= x * a <= x * b
  {
    assert x * b == x * a + x * (b - a);
  }

  class OutboxTable {
    var rows: Table

    constructor ()
      ensures rows == map[]
    {
      rows := map[];
    }
  }

  /** A claim in progress: the oldest of the candidates are chosen first. */
  ghost predicate Chosen(rows: Table, all: set<EventId>, candidates: set<EventId>, chosen: seq<EventId>) {
    && Distinct(chosen) && all <= rows.Keys
    && (forall id <- chosen :: id in all && id !in candidates)
    && (forall id <- all :: id in candidates || id in chosen)
    && candidates <= all
    && (forall id <- candidates, c <- chosen :: id in rows && c in rows && !Before(rows[id], rows[c]))
  }

  lemma Choose(rows: Table, all: set<EventId>, candidates: set<EventId>, chosen: seq<EventId>, id: EventId)
    requires Chosen(rows, all, candidates, chosen) && id in candidates
    requires forall other <- candidates :: other in rows && id in rows && !Before(rows[other], rows[id])
    ensures Chosen(rows, all, candidates - {id}, chosen + [id])
  {
    hide Before;
  }

  method Oldest(rows: Table, candidates: set<EventId>) returns (oldest: EventId)
    requires candidates != {} && forall id <- candidates :: id in rows
    ensures oldest in candidates && forall id <- candidates :: !Before(rows[id], rows[oldest])
  {
    oldest :| oldest in candidates;
    var rest := candidates - {oldest};
    while rest != {}
      invariant rest <= candidates && oldest in candidates
      invariant forall id <- candidates - rest :: !Before(rows[id], rows[oldest])
      decreases |rest|
    {
      var id :| id in rest;
      if Before(rows[id], rows[oldest]) { oldest := id; }
      rest := rest - {id};
    }
  }

  class PostgresOutboxRepository {
    const table: OutboxTable
    const workerId: Worker
    const leaseMs: nat

    constructor (table: OutboxTable, workerId: Worker, leaseSeconds: nat)
      ensures this.table == table && this.workerId == workerId && leaseMs == leaseSeconds * 1000
    {
      this.table := table;
      this.workerId := workerId;
      leaseMs := leaseSeconds * 1000;
    }

    /** busy are the rows locked by other claims at this moment, which are skipped. */
    method ClaimPending(limit: nat, now: int, busy: set<EventId>) returns (records: seq<Record>)
      modifies table
      ensures IsClaim(old(table.rows), busy, now, limit, Ids(records))
      ensures forall r <- records :: r.eventId in old(table.rows) && r.attempts == old(table.rows)[r.eventId].attempts
      ensures table.rows == Leased(old(table.rows), Ids(records), workerId, now + leaseMs)
    {
      hide Claimable, Before;
      var rows := table.rows;
      var candidates := set id | id in rows && id !in busy && Claimable(rows[id], now);
      ghost var all := candidates;
      var chosen: seq<EventId> := [];
      while candidates != {} && |chosen| < limit
        invariant Chosen(rows, all, candidates, chosen) && |chosen| <= limit
        decreases |candidates|
      {
        var id := Oldest(rows, candidates);
        Choose(rows, all, candidates, chosen, id);
        chosen := chosen + [id];
        candidates := candidates - {id};
      }
      records := RecordsOf(rows, chosen);
      assert Ids(records) == chosen;
      table.rows := Leased(rows, chosen, workerId, now + leaseMs);
    }

    method MarkPublished(eventId: EventId, publishedAt: int)
      modifies table
      ensures table.rows == WithPublished(old(table.rows), eventId, workerId, publishedAt)
    {
      if eventId in table.rows && table.rows[eventId].lockedBy == Some(workerId) {
        var row := table.rows[eventId];
        table.rows := table.rows[eventId := row.(publishedAt := Some(publishedAt), lockedBy := None,
                                                 lockedUntil := None, lastError := None)];
      }
    }

    method MarkFailed(eventId: EventId, nextAttemptAt: int, reason: string)
      modifies table
      ensures table.rows == WithFailed(old(table.rows), eventId, workerId, nextAttemptAt, reason)
    {
      if eventId in table.rows && table.rows[eventId].lockedBy == Some(workerId) {
        var row := table.rows[eventId];
        table.rows := table.rows[eventId := row.(availableAt := nextAttemptAt, attempts := row.attempts + 1,
                                                 lastError := Some(reason), lockedBy := None, lockedUntil := None)];
      }
    }
  }

  datatype RelayResult = RelayResult(published: seq<EventId>, failed: seq<EventId>)

  /** The broker: the messages it has confirmed. */
  class Broker {
    var confirmed: set<EventId>

    constructor ()
      ensures confirmed == {}
    {
      confirmed := {};
    }

    method Publish(id: EventId, accepts: bool) returns (ok: bool)
      modifies this
      ensures ok == accepts
      ensures confirmed == if accepts then old(confirmed) + {id} else old(confirmed)
    {
      if accepts { confirmed := confirmed + {id}; }
      ok := accepts;
    }
  }

  /** What a batch leaves of a row it claimed: confirmed and closed, or failed and rescheduled. */
  function After(row: Row, id: EventId, published: seq<EventId>, failed: seq<EventId>, now: int, base: nat,
                 reasons: map<EventId, string>): Row {
    if id in published then Published(row, now)
    else if id in failed && id in reasons then Failed(row, RetryAt(now, row.attempts, base), reasons[id])
    else row
  }

  class OutboxRelay {
    const repository: PostgresOutboxRepository
    const publisher: Broker
    const retryBaseSeconds: nat

    constructor (repository: PostgresOutboxRepository, publisher: Broker, retryBaseSeconds: nat)
      ensures this.repository == repository && this.publisher == publisher
      ensures this.retryBaseSeconds == retryBaseSeconds
    {
      this.repository := repository;
      this.publisher := publisher;
      this.retryBaseSeconds := retryBaseSeconds;
    }

    /** One batch that nothing interferes with. reason[id] is the broker's error for a message it does
        not confirm. Every claimed row ends published, confirmed and closed, or failed and rescheduled. */
    method RunBatch(limit: int, now: int, busy: set<EventId>, reasons: map<EventId, string>)
      returns (result: Result<RelayResult, string>)
      modifies repository.table, publisher
      ensures result.Err? <==> limit < 1
      ensures result.Err? ==>
                && repository.table.rows == old(repository.table.rows)
                && publisher.confirmed == old(publisher.confirmed)
      ensures result.Ok? ==>
                var done, rows := result.value, old(repository.table.rows);
                && IsClaim(rows, busy, now, limit, done.published + done.failed)
                && (forall id <- done.published :: id !in reasons) && (forall id <- done.failed :: id in reasons)
                && publisher.confirmed == old(publisher.confirmed) + set id | id in done.published
                && repository.table.rows == map id | id in rows ::
                     After(rows[id], id, done.published, done.failed, now, retryBaseSeconds, reasons)
    {
      hide Split, Relayed, IsClaim, RetryAt, Distinct, Leased, After;
      if limit < 1 { return Err("Outbox batch limit must be a positive integer"); }
      ghost var rows := repository.table.rows;
      ghost var earlier := publisher.confirmed;
      ghost var worker := repository.workerId;
      var records := repository.ClaimPending(limit, now, busy);
      ghost var chosen := Ids(records);
      var published: seq<EventId>, failed: seq<EventId> := [], [];
      InitiallyLeased(rows, repository.table.rows, busy, limit, chosen, worker, now + repository.leaseMs, now,
                      retryBaseSeconds, reasons);
      for i := 0 to |records|
        invariant Split(chosen[..i], published, failed, reasons)
        invariant publisher.confirmed == earlier + set id | id in published
        invariant Relayed(rows, repository.table.rows, chosen[i..], published, failed, worker, now, retryBaseSeconds,
                          reasons)
      {
        var record := records[i];
        var id := record.eventId;
        assert chosen[..i+1] == chosen[..i] + [id];
        assert [id] + chosen[i+1..] == chosen[i..];
        NextOnce(chosen, i);
        RelayedStep(rows, repository.table.rows, id, chosen[i+1..], published, failed, worker, now, retryBaseSeconds,
                    reasons, record.attempts);
        SplitStep(chosen[..i], published, failed, reasons, id);
        var confirmed := publisher.Publish(id, id !in reasons);
        if confirmed {
          repository.MarkPublished(id, now);
          published := published + [id];
        } else {
          repository.MarkFailed(id, RetryAt(now, record.attempts, retryBaseSeconds), reasons[id]);
          failed := failed + [id];
        }
      }
      assert chosen[..|records|] == chosen && chosen[|records|..] == [];
      ClaimOfParts(rows, busy, now, limit, chosen, published, failed, reasons);
      RelayedAll(rows, repository.table.rows, published, failed, worker, now, retryBaseSeconds, reasons);
      result := Ok(RelayResult(published, failed));
    }
  }

  lemma NextOnce(ids: seq<EventId>, i: nat)
    requires Distinct(ids) && i < |ids|
    ensures ids[i] !in ids[..i] && ids[i] !in ids[i+1..]
  {}

  /** The ids done so far, each published or failed, once. */
  ghost predicate Split(done: seq<EventId>, published: seq<EventId>, failed: seq<EventId>,
                        reasons: map<EventId, string>) {
    && Distinct(published + failed) && |published + failed| == |done|
    && (forall id :: id in done <==> id in published + failed)
    && (forall id <- published :: id !in reasons) && (forall id <- failed :: id in reasons)
  }

  /** The rows after part of a batch: the rest is still leased, every other row is as its outcome says. */
  ghost predicate Relayed(rows: Table, current: Table, rest: seq<EventId>, published: seq<EventId>,
                          failed: seq<EventId>,
                          worker: Worker, now: int, base: nat, reasons: map<EventId, string>) {
    && rows.Keys == current.Keys && Distinct(rest)
    && (forall id <- rest :: id in rows && id !in published && id !in failed
          && current[id] == rows[id].(lockedBy := Some(worker), lockedUntil := current[id].lockedUntil))
    && (forall id <- rows :: id !in rest ==> current[id] == After(rows[id], id, published, failed, now, base, reasons))
  }

  lemma InitiallyLeased(rows: Table, leased: Table, busy: set<EventId>, limit: nat, chosen: seq<EventId>,
                        worker: Worker,
                        until: int, now: int, base: nat, reasons: map<EventId, string>)
    requires IsClaim(rows, busy, now, limit, chosen) && leased == Leased(rows, chosen, worker, until)
    ensures Distinct(chosen)
    ensures Relayed(rows, leased, chosen, [], [], worker, now, base, reasons)
    ensures Split([], [], [], reasons)
  {
    hide Claimable, Before;
  }

  lemma RelayedAll(rows: Table, current: Table, published: seq<EventId>, failed: seq<EventId>,
                   worker: Worker, now: int, base: nat, reasons: map<EventId, string>)
    requires Relayed(rows, current, [], published, failed, worker, now, base, reasons)
    ensures current == map id | id in rows :: After(rows[id], id, published, failed, now, base, reasons)
  {
    hide After;
  }

  lemma RelayedStep(rows: Table, current: Table, id: EventId, rest: seq<EventId>, published: seq<EventId>,
                    failed: seq<EventId>,
                    worker: Worker, now: int, base: nat, reasons: map<EventId, string>, attempts: nat)
    requires Relayed(rows, current, [id] + rest, published, failed, worker, now, base, reasons)
    requires id in rows && rows[id].attempts == attempts && id !in rest
    ensures id !in reasons ==>
              Relayed(rows, WithPublished(current, id, worker, now), rest, published + [id], failed, worker, now,
                      base, reasons)
    ensures id in reasons ==>
              Relayed(rows, WithFailed(current, id, worker, RetryAt(now, attempts, base), reasons[id]), rest,
                      published, failed + [id],
                      worker, now, base, reasons)
  {
    hide RetryAt;
    assert id in [id] + rest;
    assert forall other <- rest :: other in [id] + rest;
    assert Distinct(rest) by {
      forall i, j | 0 <= i < j < |rest| ensures rest[i] != rest[j] {
        assert ([id] + rest)[i+1] != ([id] + rest)[j+1];
      }
    }
  }

  lemma SplitStep(done: seq<EventId>, published: seq<EventId>, failed: seq<EventId>, reasons: map<EventId, string>,
                  id: EventId)
    requires Split(done, published, failed, reasons) && id !in done
    ensures id !in reasons ==> Split(done + [id], published + [id], failed, reasons)
    ensures id in reasons ==> Split(done + [id], published, failed + [id], reasons)
  {
    hide Distinct;
    Appended(published, failed, id);
  }

  lemma ClaimOfParts(rows: Table, busy: set<EventId>, now: int, limit: nat, chosen: seq<EventId>,
                     published: seq<EventId>, failed: seq<EventId>, reasons: map<EventId, string>)
    requires IsClaim(rows, busy, now, limit, chosen) && Split(chosen, published, failed, reasons)
    ensures IsClaim(rows, busy, now, limit, published + failed)
    ensures (forall id <- published :: id !in reasons) && (forall id <- failed :: id in reasons)
  {
    hide Distinct, Claimable, Before;
  }

  lemma Appended(published: seq<EventId>, failed: seq<EventId>, id: EventId)
    requires Distinct(published + failed) && id !in published + failed
    ensures Distinct(published + [id] + failed) && Distinct(published + (failed + [id]))
  {
    var all := published + failed;
    forall i, j | 0 <= i < j < |all| + 1 ensures (published + [id] + failed)[i] != (published + [id] + failed)[j] {
      var p := |published|;
      assert i != p ==> (published + [id] + failed)[i] == all[if i < p then i else i - 1];
      assert j != p ==> (published + [id] + failed)[j] == all[if j < p then j else j - 1];
    }
    forall i, j | 0 <= i < j < |all| + 1 ensures (published + (failed + [id]))[i] != (published + (failed + [id]))[j] {
      assert (published + (failed + [id]))[i] == all[i];
      assert j < |all| ==> (published + (failed + [id]))[j] == all[j];
    }
  }

  // ----- The protocol -----

  /** What a relay in the middle of a batch does next with the first record of the rest of its batch. */
  datatype Phase = ToPublish | ToMarkPublished | ToMarkFailed(reason: string)

  datatype Relay = Relay(worker: Worker, now: int, rest: seq<Record>, phase: Phase)

  /** confirmed are the messages the broker confirmed; horizon is the latest time used so far. */
  datatype State = State(rows: Table, relays: map<nat, Relay>, confirmed: set<EventId>, horizon: int)

  datatype Step =
    | Enqueue(id: EventId, createdAt: int, availableAt: int)
    | Claim(process: nat, worker: Worker, limit: nat, now: int, busy: set<EventId>, chosen: seq<EventId>)
    | Confirm(process: nat)
    | Refuse(process: nat, reason: string)
    | MarkPublished(process: nat, acknowledged: bool, reason: string)
    | MarkPublishedLost(process: nat, reason: string)
    | MarkFailed(process: nat)
    | Crash(process: nat)

  datatype Settings = Settings(leaseMs: nat, retryBaseSeconds: nat)

  predicate Busy(s: State, process: nat, phase: Phase -> bool) {
    process in s.relays && s.relays[process].rest != [] && phase(s.relays[process].phase)
  }

  ghost predicate Enabled(s: State, step: Step) {
    match step
    case Enqueue(id, _, _) => id !in s.rows
    case Claim(process, _, limit, now, busy, chosen) =>
      (process !in s.relays || s.relays[process].rest == []) && IsClaim(s.rows, busy, now, limit, chosen)
    case Confirm(process) => Busy(s, process, (f: Phase) => f.ToPublish?)
    case Refuse(process, _) => Busy(s, process, (f: Phase) => f.ToPublish?)
    case MarkPublished(process, _, _) => Busy(s, process, (f: Phase) => f.ToMarkPublished?)
    case MarkPublishedLost(process, _) => Busy(s, process, (f: Phase) => f.ToMarkPublished?)
    case MarkFailed(process) => Busy(s, process, (f: Phase) => f.ToMarkFailed?)
    case Crash(process) => process in s.relays
  }

  function Current(s: State, process: nat): EventId
    requires process in s.relays && s.relays[process].rest != []
  {
    s.relays[process].rest[0].eventId
  }

  function Goto(s: State, process: nat, phase: Phase): State
    requires process in s.relays
  {
    s.(relays := s.relays[process := s.relays[process].(phase := phase)])
  }

  function Proceed(s: State, process: nat): State
    requires process in s.relays && s.relays[process].rest != []
  {
    var relay := s.relays[process];
    s.(relays := s.relays[process := relay.(rest := relay.rest[1..], phase := ToPublish)])
  }

  function Max(a: int, b: int): int { if a >= b then a else b }

  ghost function Apply(c: Settings, s: State, step: Step): State
    requires Enabled(s, step)
  {
    match step
    case Enqueue(id, createdAt, availableAt) =>
      s.(rows := s.rows[id := Row(createdAt, availableAt, 0, None, None, None, None)],
         horizon := Max(s.horizon, availableAt))
    case Claim(process, worker, _, now, _, chosen) =>
      s.(rows := Leased(s.rows, chosen, worker, now + c.leaseMs),
         relays := s.relays[process := Relay(worker, now, RecordsOf(s.rows, chosen), ToPublish)],
         horizon := Max(s.horizon, now))
    case Confirm(process) => Goto(s, process, ToMarkPublished).(confirmed := s.confirmed + {Current(s, process)})
    case Refuse(process, reason) => Goto(s, process, ToMarkFailed(reason))
    case MarkPublished(process, acknowledged, reason) =>
      var relay := s.relays[process];
      (if acknowledged then Proceed(s, process) else Goto(s, process, ToMarkFailed(reason)))
      .(rows := WithPublished(s.rows, Current(s, process), relay.worker, relay.now))
    case MarkPublishedLost(process, reason) => Goto(s, process, ToMarkFailed(reason))
    case MarkFailed(process) =>
      var relay := s.relays[process];
      Proceed(s, process).(rows := WithFailed(s.rows, Current(s, process), relay.worker,
                                              RetryAt(relay.now, relay.rest[0].attempts, c.retryBaseSeconds),
                                              relay.phase.reason))
    case Crash(process) => s.(relays := s.relays - {process})
  }

  /** A run from the empty system: states[i+1] follows states[i] by steps[i]. */
  ghost predicate IsRun(c: Settings, states: seq<State>, steps: seq<Step>) {
    && |states| == |steps| + 1
    && states[0].rows == map[] && states[0].relays == map[] && states[0].confirmed == {}
    && forall i :: 0 <= i < |steps| ==> Enabled(states[i], steps[i]) && states[i+1] == Apply(c, states[i], steps[i])
  }

  // ----- What every step keeps -----

  ghost predicate RowOk(c: Settings, s: State, id: EventId)
    requires id in s.rows
  {
    var row := s.rows[id];
    && (row.publishedAt.Some? ==> id in s.confirmed && row.lockedBy.None?)
    && (row.lockedBy.None? <==> row.lockedUntil.None?)
    && (row.lockedUntil.Some? ==> row.lockedUntil.value <= s.horizon + c.leaseMs)
    && row.availableAt <= s.horizon + MAX_RETRY_MS
  }

  ghost predicate RelayOk(s: State, process: nat)
    requires process in s.relays
  {
    var relay := s.relays[process];
    && relay.now <= s.horizon
    && (relay.phase.ToMarkPublished? ==> relay.rest != [] && relay.rest[0].eventId in s.confirmed)
  }

  ghost predicate Inv(c: Settings, s: State) {
    && (forall id <- s.rows :: RowOk(c, s, id))
    && (forall process <- s.relays :: RelayOk(s, process))
  }

  lemma StepKeepsInv(c: Settings, s: State, step: Step)
    requires Inv(c, s) && Enabled(s, step)
    ensures Inv(c, Apply(c, s, step))
  {
    var t := Apply(c, s, step);
    forall id <- t.rows ensures RowOk(c, t, id) {
      assert id in s.rows ==> RowOk(c, s, id);
      if step.MarkFailed? {
        var relay := s.relays[step.process];
        assert RelayOk(s, step.process);
        RetriesBackOff(relay.now, relay.rest[0].attempts, relay.rest[0].attempts, c.retryBaseSeconds);
      } else if step.MarkPublished? {
        assert RelayOk(s, step.process);
      }
    }
    forall process <- t.relays ensures RelayOk(t, process) {
      assert process in s.relays ==> RelayOk(s, process);
    }
  }

  lemma {:induction false} RunKeepsInv(c: Settings, states: seq<State>, steps: seq<Step>, i: nat)
    requires IsRun(c, states, steps) && i < |states|
    ensures Inv(c, states[i])
    decreases i
  {
    if i > 0 {
      RunKeepsInv(c, states, steps, i - 1);
      StepKeepsInv(c, states[i - 1], steps[i - 1]);
    }
  }

  /** Step i is the broker's confirmation of message id. */
  ghost predicate ConfirmsAt(states: seq<State>, steps: seq<Step>, i: nat, id: EventId) {
    i < |steps| && i < |states| && steps[i].Confirm? && Enabled(states[i], steps[i]) &&
    Current(states[i], steps[i].process) == id
  }

  lemma {:induction false} ConfirmedEarlier(c: Settings, states: seq<State>, steps: seq<Step>, j: nat, id: EventId)
    returns (i: nat)
    requires IsRun(c, states, steps) && j < |states| && id in states[j].confirmed
    ensures i < j && ConfirmsAt(states, steps, i, id)
    decreases j
  {
    assert j > 0;
    assert states[j] == Apply(c, states[j - 1], steps[j - 1]);
    if id in states[j - 1].confirmed {
      i := ConfirmedEarlier(c, states, steps, j - 1, id);
    } else {
      i := j - 1;
    }
  }

  /** A row is marked published only for a message the broker confirmed at an earlier step. */
  lemma PublishedWasConfirmed(c: Settings, states: seq<State>, steps: seq<Step>, j: nat, id: EventId)
    requires IsRun(c, states, steps) && j < |states|
    requires id in states[j].rows && states[j].rows[id].publishedAt.Some?
    ensures exists i :: 0 <= i < j && ConfirmsAt(states, steps, i, id)
  {
    RunKeepsInv(c, states, steps, j);
    assert RowOk(c, states[j], id);
    var i := ConfirmedEarlier(c, states, steps, j, id);
  }

  /** A published row never changes again, whatever relays, retries and crashes follow. */
  lemma {:induction false} PublishedRowsAreFinal(c: Settings, states: seq<State>, steps: seq<Step>, i: nat, j: nat,
                                                 id: EventId)
    requires IsRun(c, states, steps) && i <= j < |states|
    requires id in states[i].rows && states[i].rows[id].publishedAt.Some?
    ensures id in states[j].rows && states[j].rows[id] == states[i].rows[id]
    decreases j
  {
    if i < j {
      PublishedRowsAreFinal(c, states, steps, i, j - 1, id);
      RunKeepsInv(c, states, steps, j - 1);
      assert RowOk(c, states[j - 1], id);
      assert states[j] == Apply(c, states[j - 1], steps[j - 1]);
    }
  }

  /** The worker on whose behalf a step writes rows. */
  function Actor(s: State, step: Step): Option<Worker> {
    match step
    case Claim(_, worker, _, _, _, _) => Some(worker)
    case MarkPublished(process, _, _) => if process in s.relays then Some(s.relays[process].worker) else None
    case MarkFailed(process) => if process in s.relays then Some(s.relays[process].worker) else None
    case _ => None
  }

  /** Once another worker has the row, or nobody has, a worker that does not claim it again never has
      it back, and no statement of its unfinished batch changes the row. */
  lemma {:induction false} LostLeaseIsHarmless(c: Settings, states: seq<State>, steps: seq<Step>, i: nat, j: nat,
                                               id: EventId, worker: Worker)
    requires IsRun(c, states, steps) && i <= j < |states|
    requires id in states[i].rows && states[i].rows[id].lockedBy != Some(worker)
    requires forall k :: i <= k < j && steps[k].Claim? && steps[k].worker == worker ==> id !in steps[k].chosen
    ensures forall k :: i <= k <= j ==> id in states[k].rows && states[k].rows[id].lockedBy != Some(worker)
    ensures forall k :: i <= k < j && Actor(states[k], steps[k]) == Some(worker) ==>
              id in states[k].rows && id in states[k+1].rows && states[k+1].rows[id] == states[k].rows[id]
    decreases j
  {
    if i < j {
      LostLeaseIsHarmless(c, states, steps, i, j - 1, id, worker);
      assert id in states[j - 1].rows && states[j - 1].rows[id].lockedBy != Some(worker);
      assert states[j] == Apply(c, states[j - 1], steps[j - 1]);
    }
  }

  /** No event is lost: a row stays in the table, and while it is unpublished every time after the
      latest one used plus the lease and the longest retry delay is a time at which it can be claimed. */
  lemma UnpublishedStaysClaimable(c: Settings, states: seq<State>, steps: seq<Step>, i: nat, id: EventId, now: int)
    requires IsRun(c, states, steps) && i < |states| && id in states[i].rows && states[i].rows[id].publishedAt.None?
    requires now > states[i].horizon + Max(c.leaseMs, MAX_RETRY_MS)
    ensures Claimable(states[i].rows[id], now)
  {
    RunKeepsInv(c, states, steps, i);
    assert RowOk(c, states[i], id);
  }

  /** A claim wide enough takes every claimable row that is not locked by another claim. */
  lemma WideClaimTakesAll(rows: Table, busy: set<EventId>, now: int, limit: nat, chosen: seq<EventId>, id: EventId)
    requires IsClaim(rows, busy, now, limit, chosen) && limit > |rows|
    requires id in rows && id !in busy && Claimable(rows[id], now)
    ensures id in chosen
  {
    if id !in chosen {
      DistinctBound(chosen, rows.Keys);
      assert false;
    }
  }

  lemma {:induction false} DistinctBound(ids: seq<EventId>, all: set<EventId>)
    requires Distinct(ids) && forall id <- ids :: id in all
    ensures |ids| <= |all|
  {
    if ids != [] {
      var id := ids[0];
      assert forall other <- ids[1..] :: other in all - {id};
      DistinctBound(ids[1..], all - {id});
    }
  }

  /** A row a claim takes is due, unpublished and under no running lease, and a row it leaves that is so too, and
      not locked by another claim, is left only by a full claim whose rows were all due earlier, or at the same
      time and created no later. */
  lemma OldestFirst(rows: Table, busy: set<EventId>, now: int, limit: nat, chosen: seq<EventId>, id: EventId)
    requires IsClaim(rows, busy, now, limit, chosen) && id in rows
    ensures var free := && rows[id].publishedAt == None && rows[id].availableAt <= now && id !in busy
                        && !(rows[id].lockedUntil.Some? && rows[id].lockedUntil.value >= now);
            && (id in chosen ==> free)
            && (free && id !in chosen ==>
                  && |chosen| == limit
                  && forall c <- chosen :: c in rows
                       && (rows[c].availableAt < rows[id].availableAt
                           || (rows[c].availableAt == rows[id].availableAt && rows[c].createdAt <= rows[id].createdAt)))
  {}

  /** The step records a failure of the row: its relay still owns it. */
  ghost predicate FailsAt(s: State, step: Step, id: EventId) {
    && step.MarkFailed? && Enabled(s, step) && Current(s, step.process) == id
    && Owns(s.rows, id, s.relays[step.process].worker)
  }

  /** What a relay says of a failure: its reason, and when the row is due again. */
  datatype Failure = Failure(reason: string, dueAt: int)

  /** The failure a relay is about to record. */
  function FailureOf(c: Settings, relay: Relay): Failure
    requires relay.phase.ToMarkFailed? && relay.rest != []
  {
    Failure(relay.phase.reason, RetryAt(relay.now, relay.rest[0].attempts, c.retryBaseSeconds))
  }

  /** The failures recorded for a row, in their order. */
  ghost function Failures(c: Settings, states: seq<State>, steps: seq<Step>, i: nat, id: EventId): seq<Failure>
    requires i <= |steps| < |states|
  {
    if i == 0 then [] else
      Failures(c, states, steps, i - 1, id)
      + if FailsAt(states[i - 1], steps[i - 1], id) then [FailureOf(c, states[i - 1].relays[steps[i - 1].process])]
        else []
  }

  /** The step that put the row into the outbox, before step i. */
  ghost predicate EnqueuedBy(steps: seq<Step>, i: nat, id: EventId, k: nat) {
    k < i && k < |steps| && steps[k].Enqueue? && steps[k].id == id
  }

  predicate TellsHistory(row: Row, createdAt: int, availableAt: int, failures: seq<Failure>) {
    && row.createdAt == createdAt && row.attempts == |failures|
    && row.availableAt == (if failures == [] then availableAt else failures[|failures| - 1].dueAt)
    && row.lastError == if row.publishedAt.Some? || failures == [] then None
                        else Some(failures[|failures| - 1].reason)
  }

  /** Over every run a row was enqueued once, with the creation time it shows; it counts exactly the failures
      recorded by relays that owned it, is due when the last of them said, and shows its reason until it is
      published. */
  lemma {:induction false} RowTellsItsHistory(c: Settings, states: seq<State>, steps: seq<Step>, i: nat, id: EventId)
    returns (k: nat)
    requires IsRun(c, states, steps) && i < |states|
    ensures if id in states[i].rows then
              && EnqueuedBy(steps, i, id, k) && (forall j: nat :: EnqueuedBy(steps, i, id, j) ==> j == k)
              && TellsHistory(states[i].rows[id], steps[k].createdAt, steps[k].availableAt,
                              Failures(c, states, steps, i, id))
            else
              Failures(c, states, steps, i, id) == [] && forall j: nat :: !EnqueuedBy(steps, i, id, j)
    decreases i
  {
    hide TellsHistory, Apply, FailureOf, FailsAt;
    k := 0;
    if i > 0 {
      k := RowTellsItsHistory(c, states, steps, i - 1, id);
      RunKeepsInv(c, states, steps, i - 1);
      var s, step := states[i - 1], steps[i - 1];
      EnqueuedOnce(c, s, step, id);
      EnqueuedBefore(steps, i, id);
      assert states[i] == Apply(c, s, step);
      if id in s.rows {
        StepTellsHistory(c, s, step, id, steps[k].createdAt, steps[k].availableAt,
                         Failures(c, states, steps, i - 1, id));
        assert EnqueuedBy(steps, i, id, k);
      } else if step.Enqueue? && step.id == id {
        FirstTellsHistory(c, s, step, id);
        k := i - 1;
      } else {
        NoFailure(c, s, step, id);
      }
    }
  }

  lemma EnqueuedBefore(steps: seq<Step>, i: nat, id: EventId)
    requires 0 < i <= |steps|
    ensures forall j: nat :: EnqueuedBy(steps, i, id, j) <==>
              EnqueuedBy(steps, i - 1, id, j) || (j == i - 1 && steps[j].Enqueue? && steps[j].id == id)
  {}

  lemma EnqueuedOnce(c: Settings, s: State, step: Step, id: EventId)
    requires Enabled(s, step)
    ensures id in Apply(c, s, step).rows <==> id in s.rows || (step.Enqueue? && step.id == id)
    ensures id in s.rows ==> !(step.Enqueue? && step.id == id)
  {
    hide IsClaim, RetryAt;
  }

  lemma NoFailure(c: Settings, s: State, step: Step, id: EventId)
    requires id !in s.rows
    ensures !FailsAt(s, step, id)
  {}

  lemma FirstTellsHistory(c: Settings, s: State, step: Step, id: EventId)
    requires Enabled(s, step) && step.Enqueue? && step.id == id
    ensures !FailsAt(s, step, id) && id in Apply(c, s, step).rows
    ensures TellsHistory(Apply(c, s, step).rows[id], step.createdAt, step.availableAt, [])
  {}

  lemma StepTellsHistory(c: Settings, s: State, step: Step, id: EventId, createdAt: int, availableAt: int,
                         failures: seq<Failure>)
    requires Inv(c, s) && Enabled(s, step) && id in s.rows
    requires TellsHistory(s.rows[id], createdAt, availableAt, failures)
    ensures id in Apply(c, s, step).rows
    ensures TellsHistory(Apply(c, s, step).rows[id], createdAt, availableAt,
                         failures + if FailsAt(s, step, id) then [FailureOf(c, s.relays[step.process])] else [])
  {
    hide IsClaim, RetryAt, RelayOk;
    assert RowOk(c, s, id);
  }

  /** A published row shows the time of the batch whose relay, still its owner, published it. */
  lemma {:induction false} PublishedByItsOwner(c: Settings, states: seq<State>, steps: seq<Step>, i: nat, id: EventId)
    returns (k: nat)
    requires IsRun(c, states, steps) && i < |states|
    requires id in states[i].rows && states[i].rows[id].publishedAt.Some?
    ensures k < i && steps[k].MarkPublished? && Enabled(states[k], steps[k])
    ensures Current(states[k], steps[k].process) == id
    ensures Owns(states[k].rows, id, states[k].relays[steps[k].process].worker)
    ensures states[i].rows[id].publishedAt == Some(states[k].relays[steps[k].process].now)
    decreases i
  {
    assert i > 0;
    RunKeepsInv(c, states, steps, i - 1);
    if id in states[i - 1].rows && states[i - 1].rows[id].publishedAt.Some? {
      assert RowOk(c, states[i - 1], id);
      k := PublishedByItsOwner(c, states, steps, i - 1, id);
    } else {
      k := i - 1;
    }
  }

  /** The step is the owner's statement that ends the lease of the row. */
  ghost predicate Releases(s: State, step: Step, id: EventId) {
    && (step.MarkPublished? || step.MarkFailed?) && Enabled(s, step)
    && Current(s, step.process) == id && Owns(s.rows, id, s.relays[step.process].worker)
  }

  ghost predicate LeasedUntil(s: State, id: EventId, until: int) {
    id in s.rows && s.rows[id].lockedUntil.Some? && s.rows[id].lockedUntil.value >= until
  }

  lemma StepKeepsLease(c: Settings, s: State, step: Step, id: EventId, until: int)
    requires LeasedUntil(s, id, until) && Enabled(s, step) && !Releases(s, step, id)
    requires step.Claim? && id in step.chosen ==> step.now > until
    ensures LeasedUntil(Apply(c, s, step), id, until)
  {
    hide RetryAt, IsClaim;
    if step.Claim? { assert id in s.rows; }
  }

  /** A lease holds until its owner releases the row: no other claim up to its end, at any later step of any
      run, takes the row, whatever crashes, retries and statements of former owners come between. */
  lemma {:induction false} LeaseExcludes(c: Settings, states: seq<State>, steps: seq<Step>, i: nat, j: nat,
                                         id: EventId, until: int)
    requires IsRun(c, states, steps) && i <= j < |states|
    requires LeasedUntil(states[i], id, until)
    requires forall k :: i <= k < j ==> !Releases(states[k], steps[k], id)
    ensures LeasedUntil(states[j], id, until)
    ensures forall k :: i <= k < j && steps[k].Claim? && steps[k].now <= until ==> id !in steps[k].chosen
    decreases j
  {
    if i < j {
      LeaseExcludes(c, states, steps, i, j - 1, id, until);
      assert Enabled(states[j - 1], steps[j - 1]) && states[j] == Apply(c, states[j - 1], steps[j - 1]);
      StepKeepsLease(c, states[j - 1], steps[j - 1], id, until);
    }
  }

  /** Two claims of one run never take the same row while the first one's lease runs and is not released. */
  lemma ClaimsExclude(c: Settings, states: seq<State>, steps: seq<Step>, i: nat, j: nat, id: EventId)
    requires IsRun(c, states, steps) && i < j < |steps|
    requires steps[i].Claim? && id in steps[i].chosen
    requires steps[j].Claim? && steps[j].now <= steps[i].now + c.leaseMs
    requires forall k :: i < k < j ==> !Releases(states[k], steps[k], id)
    ensures id !in steps[j].chosen
  {
    hide IsClaim;
    var until := steps[i].now + c.leaseMs;
    assert states[i + 1] == Apply(c, states[i], steps[i]);
    assert LeasedUntil(states[i + 1], id, until) by { ClaimLeases(c, states[i], steps[i], id); }
    assert !Releases(states[j], steps[j], id);
    LeaseExcludes(c, states, steps, i + 1, j + 1, id, until);
  }

  lemma ClaimLeases(c: Settings, s: State, step: Step, id: EventId)
    requires step.Claim? && Enabled(s, step) && id in step.chosen
    ensures LeasedUntil(Apply(c, s, step), id, step.now + c.leaseMs)
  {
    assert id in s.rows;
  }
}

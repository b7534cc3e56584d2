/** The inbox: a message is handled only by the consumer that inserted its row, or that took over a row
    left unfinished for more than five minutes. The statements and the consumer are methods; the protocol
    of any number of handlers, with crashes and lost replies, is a state machine over the same statements. */
module Inbox {
  import opened Wrappers

  datatype Key = Key(consumer: string, messageId: string)

  /** Times are milliseconds of the database clock. */
  datatype Entry = Entry(startedAt: int, attempts: nat, processedAt: Option<int>, checksum: Option<string>)

  type Rows = map<Key, Entry>

  const WINDOW_MS: int := 5 * 60 * 1000

  // ----- The statements -----

  predicate CanBegin(rows: Rows, key: Key, now: int) {
    key !in rows || (rows[key].processedAt.None? && rows[key].startedAt < now - WINDOW_MS)
  }

  function Begun(rows: Rows, key: Key, now: int): Rows {
    if key !in rows then rows[key := Entry(now, 1, None, None)]
    else rows[key := rows[key].(startedAt := now, attempts := rows[key].attempts + 1)]
  }

  function Completed(rows: Rows, key: Key, now: int, checksum: Option<string>): Rows {
    if key in rows then rows[key := rows[key].(processedAt := Some(now), checksum := checksum)] else rows
  }

  function Abandoned(rows: Rows, key: Key): Rows {
    if key in rows && rows[key].processedAt.None? then rows - {key} else rows
  }

  class PostgresInboxRepository {
    var rows: Rows

    constructor ()
      ensures rows == map[]
    {
      rows := map[];
    }

    method Begin(key: Key, now: int) returns (acquired: bool)
      modifies this
      ensures acquired <==> CanBegin(old(rows), key, now)
      ensures rows == if acquired then Begun(old(rows), key, now) else old(rows)
    {
      if key !in rows {
        rows := rows[key := Entry(now, 1, None, None)];
        return true;
      }
      var row := rows[key];
      acquired := row.processedAt.None? && row.startedAt < now - WINDOW_MS;
      if acquired {
        rows := rows[key := row.(startedAt := now, attempts := row.attempts + 1)];
      }
    }

    method Complete(key: Key, now: int, checksum: Option<string>)
      modifies this
      ensures rows == Completed(old(rows), key, now, checksum)
    {
      if key in rows {
        rows := rows[key := rows[key].(processedAt := Some(now), checksum := checksum)];
      }
    }

    method Abandon(key: Key)
      modifies this
      ensures rows == Abandoned(old(rows), key)
    {
      if key in rows && rows[key].processedAt.None? {
        rows := rows - {key};
      }
    }
  }

  datatype Disposition = Processed | Duplicate

  class IdempotentConsumer {
    const consumerName: string
    const inbox: PostgresInboxRepository
    /** The messages whose effect was started, in order. */
    var effects: seq<string>

    constructor (consumerName: string, inbox: PostgresInboxRepository)
      ensures this.consumerName == consumerName && this.inbox == inbox && effects == []
    {
      this.consumerName := consumerName;
      this.inbox := inbox;
      effects := [];
    }

    /** One delivery that nothing interferes with; outcome is what the effect returns or throws. The
        effect runs exactly when the row is acquired. Success leaves the row completed, a failure leaves
        no row, so that a redelivery starts at once. */
    method Handle(messageId: string, began: int, ended: int, outcome: Result<Option<string>, string>)
      returns (result: Result<Disposition, string>)
      modifies this, inbox
      ensures var key := Key(consumerName, messageId);
              var acquired := CanBegin(old(inbox.rows), key, began);
              && effects == (if acquired then old(effects) + [messageId] else old(effects))
              && (!acquired ==> result == Ok(Duplicate) && inbox.rows == old(inbox.rows))
              && (acquired && outcome.Ok? ==>
                    (result == Ok(Processed) && key in inbox.rows
                    && inbox.rows == old(inbox.rows)[key := inbox.rows[key]]
                    && inbox.rows[key].processedAt == Some(ended) && inbox.rows[key].checksum == outcome.value))
              && (acquired && outcome.Err? ==> result == Err(outcome.error) && inbox.rows == old(inbox.rows) - {key})
    {
      var key := Key(consumerName, messageId);
      var acquired := inbox.Begin(key, began);
      if !acquired { return Ok(Duplicate); }
      effects := effects + [messageId];
      match outcome {
        case Ok(checksum) =>
          inbox.Complete(key, ended, checksum);
          result := Ok(Processed);
        case Err(error) =>
          inbox.Abandon(key);
          result := Err(error);
      }
    }
  }

  // ----- The protocol -----

  /** Running: the effect is under way. Ended: it returned, the completion is still to be recorded.
      Failing: the effect or the completion threw, the row is still to be abandoned. */
  datatype Phase = Running | Ended(checksum: Option<string>) | Failing

  datatype Handler = Handler(key: Key, began: int, phase: Phase)

  /** now is the database clock, which never goes back. */
  datatype State = State(rows: Rows, handlers: map<nat, Handler>, now: int)

  datatype Step =
    | Tick(now: int)
    | Begin(process: nat, key: Key)
    | Return(process: nat, checksum: Option<string>)
    | Throw(process: nat)
    | Complete(process: nat, acknowledged: bool)
    | CompleteLost(process: nat)
    | Abandon(process: nat)
    | Crash(process: nat)

  predicate Enabled(s: State, step: Step) {
    match step
    case Tick(now) => now >= s.now
    case Begin(process, _) => process !in s.handlers
    case Return(process, _) => process in s.handlers && s.handlers[process].phase.Running?
    case Throw(process) => process in s.handlers && s.handlers[process].phase.Running?
    case Complete(process, _) => process in s.handlers && s.handlers[process].phase.Ended?
    case CompleteLost(process) => process in s.handlers && s.handlers[process].phase.Ended?
    case Abandon(process) => process in s.handlers && s.handlers[process].phase.Failing?
    case Crash(process) => process in s.handlers
  }

  function Goto(s: State, process: nat, phase: Phase): State
    requires process in s.handlers
  {
    s.(handlers := s.handlers[process := s.handlers[process].(phase := phase)])
  }

  function Apply(s: State, step: Step): State
    requires Enabled(s, step)
  {
    match step
    case Tick(now) => s.(now := now)
    case Begin(process, key) =>
      if !CanBegin(s.rows, key, s.now) then s
      else s.(rows := Begun(s.rows, key, s.now), handlers := s.handlers[process := Handler(key, s.now, Running)])
    case Return(process, checksum) => Goto(s, process, Ended(checksum))
    case Throw(process) => Goto(s, process, Failing)
    case Complete(process, acknowledged) =>
      var handler := s.handlers[process];
      var rows := Completed(s.rows, handler.key, s.now, handler.phase.checksum);
      if acknowledged then State(rows, s.handlers - {process}, s.now) else Goto(s, process, Failing).(rows := rows)
    case CompleteLost(process) => Goto(s, process, Failing)
    case Abandon(process) => s.(rows := Abandoned(s.rows, s.handlers[process].key), handlers := s.handlers - {process})
    case Crash(process) => s.(handlers := s.handlers - {process})
  }

  predicate IsRun(states: seq<State>, steps: seq<Step>) {
    && |states| == |steps| + 1
    && states[0].rows == map[] && states[0].handlers == map[]
    && forall i :: 0 <= i < |steps| ==> Enabled(states[i], steps[i]) && states[i+1] == Apply(states[i], steps[i])
  }

  predicate IsProcessed(s: State, key: Key) { key in s.rows && s.rows[key].processedAt.Some? }

  predicate Acquires(s: State, step: Step, key: Key) { step.Begin? && step.key == key && CanBegin(s.rows, key, s.now) }

  /** The times at which the row of a message was acquired since it last appeared. */
  function Acquisitions(states: seq<State>, steps: seq<Step>, i: nat, key: Key): seq<int>
    requires i <= |steps| < |states|
  {
    if i == 0 || key !in states[i].rows then [] else
      Acquisitions(states, steps, i - 1, key)
      + if Acquires(states[i - 1], steps[i - 1], key) then [states[i - 1].now] else []
  }

  predicate TellsAcquisitions(s: State, key: Key, times: seq<int>) {
    if key !in s.rows then times == [] else
      times != [] && s.rows[key].startedAt == times[|times| - 1] && s.rows[key].attempts == |times|
  }

  /** A row counts its acquisitions and shows the time of the last one. */
  lemma {:induction false} RowTellsItsAcquisitions(states: seq<State>, steps: seq<Step>, i: nat, key: Key)
    requires IsRun(states, steps) && i < |states|
    ensures TellsAcquisitions(states[i], key, Acquisitions(states, steps, i, key))
    decreases i
  {
    if i > 0 { RowTellsItsAcquisitions(states, steps, i - 1, key); }
  }

  /** A delivery starts its handler exactly when no unabandoned handler was started before it, or the last one
      was started more than five minutes ago and no completion is recorded. */
  lemma DeliveryStartsExactly(states: seq<State>, steps: seq<Step>, i: nat)
    requires IsRun(states, steps) && i < |steps| && steps[i].Begin?
    ensures var key := steps[i].key;
            var times := Acquisitions(states, steps, i, key);
            steps[i].process in states[i+1].handlers <==>
            times == [] || (states[i].now - times[|times| - 1] > 300_000
                            && !(key in states[i].rows && states[i].rows[key].processedAt.Some?))
  {
    RowTellsItsAcquisitions(states, steps, i, steps[i].key);
  }

  /** Once a completion is recorded it stays, and no later begin for that consumer and message succeeds. */
  lemma {:induction false} CompletionIsFinal(states: seq<State>, steps: seq<Step>, i: nat, j: nat, key: Key)
    requires IsRun(states, steps) && i <= j < |states| && IsProcessed(states[i], key)
    ensures forall k :: i <= k <= j ==> IsProcessed(states[k], key)
    ensures forall k :: i <= k < j ==> !Acquires(states[k], steps[k], key)
    decreases j
  {
    if i < j {
      CompletionIsFinal(states, steps, i, j - 1, key);
      assert IsProcessed(states[j - 1], key);
      assert states[j] == Apply(states[j - 1], steps[j - 1]);
    }
  }

  // ----- Effects that overlap -----

  predicate Prompt(s: State) {
    forall process <- s.handlers :: s.now - s.handlers[process].began <= WINDOW_MS
  }

  predicate Overlap(s: State, p: nat, q: nat) {
    && p != q && p in s.handlers && q in s.handlers && s.handlers[p].key == s.handlers[q].key
    && s.handlers[p].phase.Running? && s.handlers[q].phase.Running?
  }

  /** Each live handler holds the row of its message, and no other live handler has the same message. */
  predicate Exclusive(s: State) {
    && (forall p <- s.handlers :: var h := s.handlers[p];
          h.key in s.rows && (s.rows[h.key].processedAt.Some? || s.rows[h.key].startedAt == h.began))
    && (forall p, q :: p in s.handlers && q in s.handlers && s.handlers[p].key == s.handlers[q].key ==> p == q)
  }

  lemma StepKeepsExclusive(s: State, step: Step)
    requires Exclusive(s) && Prompt(s) && Enabled(s, step)
    ensures Exclusive(Apply(s, step))
  {
    var t := Apply(s, step);
    forall p <- t.handlers
      ensures var h := t.handlers[p];
              h.key in t.rows && (t.rows[h.key].processedAt.Some? || t.rows[h.key].startedAt == h.began)
    {
      assert p in s.handlers ==> s.handlers[p].key in s.rows;
    }
  }

  lemma {:induction false} PromptRunIsExclusive(states: seq<State>, steps: seq<Step>, j: nat)
    requires IsRun(states, steps) && j < |states|
    requires forall i :: 0 <= i < j ==> Prompt(states[i])
    ensures Exclusive(states[j])
    decreases j
  {
    if j > 0 {
      PromptRunIsExclusive(states, steps, j - 1);
      StepKeepsExclusive(states[j - 1], steps[j - 1]);
    }
  }

  /** As long as no live handler outlasts the five minutes, two effects for one message never overlap. */
  lemma PromptEffectsNeverOverlap(states: seq<State>, steps: seq<Step>, j: nat, p: nat, q: nat)
    requires IsRun(states, steps) && j < |states|
    requires forall i :: 0 <= i < j ==> Prompt(states[i])
    ensures !Overlap(states[j], p, q)
  {
    PromptRunIsExclusive(states, steps, j);
  }

  /** The five minutes are exact: at the first moment a running handler has outlasted them, and not
      before, a redelivery acquires the row from under it and the two effects overlap. */
  lemma OutlastingHandlerIsOvertaken(states: seq<State>, steps: seq<Step>, j: nat, p: nat, q: nat)
    requires IsRun(states, steps) && j < |states|
    requires forall i :: 0 <= i < j ==> Prompt(states[i])
    requires p in states[j].handlers && q !in states[j].handlers && states[j].handlers[p].phase.Running?
    requires !IsProcessed(states[j], states[j].handlers[p].key)
    ensures Overlap(Apply(states[j], Begin(q, states[j].handlers[p].key)), p, q) <==>
            states[j].now - states[j].handlers[p].began > WINDOW_MS
  {
    PromptRunIsExclusive(states, steps, j);
  }

  /** Completion and abandonment are not fenced: after a takeover the handler that was too slow can
      delete the row of the one that replaced it, and a third effect starts beside a prompt second one. */
  lemma AbandonIsNotFenced(key: Key) returns (states: seq<State>, steps: seq<Step>)
    ensures IsRun(states, steps) && |states| > 0
    ensures var last := states[|states| - 1];
            Overlap(last, 1, 2) && last.handlers[1].key == key &&
            last.handlers[1].began == last.now == last.handlers[2].began
  {
    var s0 := State(map[], map[], 0);
    steps := [Begin(0, key), Tick(WINDOW_MS + 1), Begin(1, key), Throw(0), Abandon(0), Begin(2, key)];
    var s1 := Apply(s0, steps[0]);
    var s2 := Apply(s1, steps[1]);
    var s3 := Apply(s2, steps[2]);
    var s4 := Apply(s3, steps[3]);
    var s5 := Apply(s4, steps[4]);
    var s6 := Apply(s5, steps[5]);
    states := [s0, s1, s2, s3, s4, s5, s6];
  }
}

/** From the broker to the audit chain: messages delivered any number of times, handlers that crash, are
    overtaken or lose their replies, and appends made directly by the API, in any interleaving. */
module AuditPipeline {
  import opened Wrappers
  import opened Texts
  import opened CanonicalJson
  import opened JsonEquality
  import opened AuditChain
  import opened AuditTrail
  import AuditQuery
  import Inbox

  datatype Message = Message(eventId: string, correlationId: string, eventType: string, schemaVersion: int,
                             occurredAt: string, payload: map<string, Json>)

  const WORKER := "audit-worker"
  const EVENT_TYPE := "pms.audit.workflow-action-recorded.v1"

  // ----- The draft of a message -----

  /** The trimmed text of a required field, which must be a string that is not blank. */
  function Required(payload: map<string, Json>, field: string): Option<string> {
    if field in payload && payload[field].Str? && Trim(payload[field].s) != "" then Some(payload[field].s) else None
  }

  /** An optional field is absent, or a string that is not empty. */
  predicate OptionalOk(payload: map<string, Json>, field: string) {
    field !in payload || payload[field].Undefined? || (payload[field].Str? && payload[field].s != "")
  }

  function OptionalField(payload: map<string, Json>, field: string): Option<string> {
    if field in payload && payload[field].Str? then Some(payload[field].s) else None
  }

  function After(state: string): seq<Field> { [Field("state", Obj([Field("after", Str(state))]))] }

  /** None stands for the TypeErrors of the handler. The draft depends on the message alone. */
  function WorkflowDraft(m: Message): Option<Draft> {
    if m.eventType != EVENT_TYPE || m.schemaVersion != 1 then None else
      var p := m.payload;
      match (Required(p, "resourceType"), Required(p, "resourceId"), Required(p, "action"), Required(p, "actorId"),
             Required(p, "justification"), Required(p, "resultState"), Required(p, "businessDate"))
      case (Some(resourceType), Some(resourceId), Some(action), Some(actorId), Some(justification), Some(state),
            Some(date)) =>
        if !IsDateText(date) || !OptionalOk(p, "sessionId") || !OptionalOk(p, "sourceAddress") then None
        else Some(Draft(m.eventId, m.correlationId, Trim(actorId), WORKER, OptionalField(p, "sessionId"), Trim(action),
                        Trim(resourceType), Trim(resourceId), Success, date, m.occurredAt, "pms-api",
                        OptionalField(p, "sourceAddress"), Some(Trim(justification)), None, None, None,
                        Some(After(Trim(state)))))
      case _ => None
  }

  lemma {:induction false} WorkflowDraftFacts(m: Message)
    requires WorkflowDraft(m).Some?
    ensures WorkflowDraft(m).value.auditEventId == m.eventId
    ensures WellFormedDraft(WorkflowDraft(m).value) && Hashable(WorkflowDraft(m).value)
  {
    hide Trim, Required, OptionalOk, OptionalField, IsDateText;
    var d := WorkflowDraft(m).value;
    AfterIsValue(d.authorizedChanges.value[0].value.fields[0].value.s);
  }

  lemma {:induction false} AfterIsValue(state: string)
    ensures WellFormed(Obj(After(state))) && Supported(Obj(After(state)))
  {
    var inner := Obj([Field("after", Str(state))]);
    assert WellFormed(Str(state)) && Supported(Str(state));
    assert WellFormed(inner) && Supported(inner);
  }

  // ----- The protocol -----

  /** messages are those the broker has received at least once. */
  datatype State = State(messages: map<string, Message>, inbox: Inbox.State, log: Log)

  datatype Step =
    | Publish(message: Message)
    | OfInbox(step: Inbox.Step)
    | Effect(process: nat, keyId: string, signature: string, acknowledged: bool)
    | Direct(draft: Draft, keyId: string, signature: string)

  datatype Config = Config(sha: string -> string, columns: Columns)

  /** Identifiers are UUIDs drawn afresh for every outbox event and every direct draft. */
  ghost predicate Fresh(c: Columns, s: State, id: string) {
    && (forall other <- s.messages :: c.uuid(other) != c.uuid(id))
    && (forall i :: 0 <= i < |s.log| ==> c.uuid(s.log[i].draft.auditEventId) != c.uuid(id))
  }

  ghost predicate Enabled(c: Config, s: State, step: Step) {
    match step
    case Publish(m) => if m.eventId in s.messages then s.messages[m.eventId] == m else Fresh(c.columns, s, m.eventId)
    case OfInbox(inner) =>
      && Inbox.Enabled(s.inbox, inner) && !inner.Return?
      && (inner.Begin? ==> inner.key.consumer == WORKER && inner.key.messageId in s.messages)
    case Effect(process, _, _, _) => process in s.inbox.handlers && s.inbox.handlers[process].phase.Running?
                                     && s.inbox.handlers[process].key.messageId in s.messages
    case Direct(draft, _, _) =>
      WellFormedDraft(draft) && forall id <- s.messages :: c.columns.uuid(id) != c.columns.uuid(draft.auditEventId)
  }

  /** The append a running handler makes for its message. */
  function EffectOf(c: Config, s: State, process: nat, keyId: string, signature: string)
    : Result<(Event, Log), AppendError>
    requires process in s.inbox.handlers && s.inbox.handlers[process].key.messageId in s.messages
  {
    match WorkflowDraft(s.messages[s.inbox.handlers[process].key.messageId])
    case None => Err(UnsupportedValue)
    case Some(draft) => Append(c.sha, c.columns, s.log, draft, keyId, signature)
  }

  ghost function Apply(c: Config, s: State, step: Step): State
    requires Enabled(c, s, step)
  {
    match step
    case Publish(m) => s.(messages := s.messages[m.eventId := m])
    case OfInbox(inner) => s.(inbox := Inbox.Apply(s.inbox, inner))
    case Effect(process, keyId, signature, acknowledged) =>
      (match EffectOf(c, s, process, keyId, signature)
       case Err(_) => s.(inbox := Inbox.Apply(s.inbox, Inbox.Throw(process)))
       case Ok((event, log)) =>
         var next := if acknowledged then Inbox.Return(process, Some(event.eventHash)) else Inbox.Throw(process);
         s.(inbox := Inbox.Apply(s.inbox, next), log := log))
    case Direct(draft, keyId, signature) =>
      match Append(c.sha, c.columns, s.log, draft, keyId, signature)
      case Err(_) => s
      case Ok((_, log)) => s.(log := log)
  }

  ghost predicate IsRun(c: Config, states: seq<State>, steps: seq<Step>) {
    && |states| == |steps| + 1
    && states[0].messages == map[] && states[0].log == [] && states[0].inbox.rows == map[] &&
       states[0].inbox.handlers == map[]
    && forall i :: 0 <= i < |steps| ==> Enabled(c, states[i], steps[i]) && states[i+1] == Apply(c, states[i], steps[i])
  }

  // ----- Invariant -----

  /** The log holds the event of message id, with this hash. */
  ghost predicate Recorded(c: Columns, log: Log, id: string, hash: Option<string>) {
    var k := Position(c, log, id);
    k < |log| && hash == Some(log[k].eventHash)
  }

  ghost predicate OwnDrafts(c: Columns, s: State) {
    forall id, k :: id in s.messages && 0 <= k < |s.log| && c.uuid(s.log[k].draft.auditEventId) == c.uuid(id) ==>
                      WorkflowDraft(s.messages[id]) == Some(s.log[k].draft)
  }

  ghost predicate MessageOk(s: State) {
    && (forall id <- s.messages :: s.messages[id].eventId == id)
    && (forall p <- s.inbox.handlers ::
          && s.inbox.handlers[p].key.consumer == WORKER
          && s.inbox.handlers[p].key.messageId in s.messages)
  }

  ghost predicate DistinctIds(c: Columns, s: State) {
    forall a, b :: a in s.messages && b in s.messages && a != b ==> c.uuid(a) != c.uuid(b)
  }

  ghost predicate HandlersOk(c: Columns, s: State) {
    forall p <- s.inbox.handlers :: s.inbox.handlers[p].phase.Ended? ==>
      Recorded(c, s.log, s.inbox.handlers[p].key.messageId, s.inbox.handlers[p].phase.checksum)
  }

  ghost predicate RowsOk(c: Columns, s: State) {
    forall key <- s.inbox.rows :: s.inbox.rows[key].processedAt.Some? ==>
      Recorded(c, s.log, key.messageId, s.inbox.rows[key].checksum)
  }

  ghost predicate Inv(c: Config, s: State) {
    && IsChain(c.sha, c.columns, s.log) && OwnDrafts(c.columns, s) && MessageOk(s) && DistinctIds(c.columns, s)
    && HandlersOk(c.columns, s) && RowsOk(c.columns, s)
  }

  lemma {:induction false} PositionStays(c: Columns, log: Log, more: Log, id: string)
    requires log <= more && Position(c, log, id) < |log|
    ensures Position(c, more, id) == Position(c, log, id)
  {
    var k, j := Position(c, log, id), Position(c, more, id);
    assert more[k] == log[k];
    assert forall i :: 0 <= i < k ==> more[i] == log[i];
  }

  lemma {:induction false} RecordedStays(c: Columns, s: State, t: State)
    requires HandlersOk(c, s) && RowsOk(c, s) && s.log <= t.log && s.inbox == t.inbox
    ensures HandlersOk(c, t) && RowsOk(c, t)
  {
    hide Position;
    forall p <- t.inbox.handlers ensures t.inbox.handlers[p].phase.Ended? ==>
      Recorded(c, t.log, t.inbox.handlers[p].key.messageId, t.inbox.handlers[p].phase.checksum)
    {
      if t.inbox.handlers[p].phase.Ended? { PositionStays(c, s.log, t.log, s.inbox.handlers[p].key.messageId); }
    }
    forall key <- t.inbox.rows ensures t.inbox.rows[key].processedAt.Some? ==>
      Recorded(c, t.log, key.messageId, t.inbox.rows[key].checksum)
    {
      if t.inbox.rows[key].processedAt.Some? { PositionStays(c, s.log, t.log, key.messageId); }
    }
  }

  /** A step of the inbox alone, with a completion that is recorded in the log. */
  lemma {:induction false} InboxStepKeeps(c: Columns, s: State, step: Inbox.Step)
    requires HandlersOk(c, s) && RowsOk(c, s) && MessageOk(s) && Inbox.Enabled(s.inbox, step)
    requires step.Return? ==> Recorded(c, s.log, s.inbox.handlers[step.process].key.messageId, step.checksum)
    requires step.Begin? ==> step.key.consumer == WORKER && step.key.messageId in s.messages
    ensures var t := s.(inbox := Inbox.Apply(s.inbox, step)); HandlersOk(c, t) && RowsOk(c, t) && MessageOk(t)
  {
    hide Recorded;
  }

  lemma {:induction false} EventIsRecorded(c: Config, log: Log, draft: Draft, keyId: string, signature: string)
    requires Injective(c.sha) && IsChain(c.sha, c.columns, log) && WellFormedDraft(draft)
    requires Append(c.sha, c.columns, log, draft, keyId, signature).Ok?
    ensures var (event, more) := Append(c.sha, c.columns, log, draft, keyId, signature).value;
            && IsChain(c.sha, c.columns, more) && log <= more
            && Recorded(c.columns, more, draft.auditEventId, Some(event.eventHash))
            && (more == log || more == log + [event]) && event.draft == draft
            && (more == log ==> Position(c.columns, log, draft.auditEventId) < |log|)
  {
    hide IsChain, Hash, WellFormedDraft, Injective;
    AppendKeepsChain(c.sha, c.columns, log, draft, keyId, signature);
  }

  /** A running handler appends the draft of its message: every other message keeps its own draft. */
  lemma {:induction false} EffectKeepsDrafts(c: Config, s: State, process: nat, keyId: string, signature: string)
    requires Injective(c.sha) && Inv(c, s) && Enabled(c, s, Effect(process, keyId, signature, true))
    requires EffectOf(c, s, process, keyId, signature).Ok?
    ensures var (event, log) := EffectOf(c, s, process, keyId, signature).value;
            && IsChain(c.sha, c.columns, log) && s.log <= log && OwnDrafts(c.columns, s.(log := log))
            && Recorded(c.columns, log, s.inbox.handlers[process].key.messageId, Some(event.eventHash))
  {
    hide IsChain, WorkflowDraft, Injective, Append, Position, HandlersOk, RowsOk;
    var id := s.inbox.handlers[process].key.messageId;
    var draft := WorkflowDraft(s.messages[id]).value;
    WorkflowDraftFacts(s.messages[id]);
    EventIsRecorded(c, s.log, draft, keyId, signature);
  }

  lemma {:induction false} DirectKeepsDrafts(c: Config, s: State, draft: Draft, keyId: string, signature: string)
    requires Injective(c.sha) && Inv(c, s) && Enabled(c, s, Direct(draft, keyId, signature))
    requires Append(c.sha, c.columns, s.log, draft, keyId, signature).Ok?
    ensures var log := Append(c.sha, c.columns, s.log, draft, keyId, signature).value.1;
            IsChain(c.sha, c.columns, log) && s.log <= log && OwnDrafts(c.columns, s.(log := log))
  {
    hide IsChain, WorkflowDraft, Injective, Append, Position, HandlersOk, RowsOk, WellFormedDraft;
    EventIsRecorded(c, s.log, draft, keyId, signature);
  }

  lemma {:induction false} StepKeepsInv(c: Config, s: State, step: Step)
    requires Injective(c.sha) && Inv(c, s) && Enabled(c, s, step)
    ensures Inv(c, Apply(c, s, step)) && s.log <= Apply(c, s, step).log
  {
    hide IsChain, WorkflowDraft, Injective, Append, Recorded, HandlersOk, RowsOk, Inbox.Apply, Inbox.Enabled,
      WellFormedDraft;
    match step
    case Publish(m) => PublishKeeps(c, s, m);
    case OfInbox(inner) => InboxStepKeeps(c.columns, s, inner);
    case Effect(process, keyId, signature, acknowledged) => EffectKeeps(c, s, process, keyId, signature, acknowledged);
    case Direct(draft, keyId, signature) =>
      if Append(c.sha, c.columns, s.log, draft, keyId, signature).Ok? {
        DirectKeepsDrafts(c, s, draft, keyId, signature);
        RecordedStays(c.columns, s, Apply(c, s, step));
      }
  }

  lemma {:induction false} PublishKeeps(c: Config, s: State, m: Message)
    requires Inv(c, s) && Enabled(c, s, Publish(m))
    ensures Inv(c, s.(messages := s.messages[m.eventId := m]))
  {
    hide IsChain, WorkflowDraft, Recorded;
  }

  lemma {:induction false} EffectKeeps(c: Config, s: State, process: nat, keyId: string, signature: string,
                                       acknowledged: bool)
    requires Injective(c.sha) && Inv(c, s) && Enabled(c, s, Effect(process, keyId, signature, acknowledged))
    ensures var t := Apply(c, s, Effect(process, keyId, signature, acknowledged)); Inv(c, t) && s.log <= t.log
  {
    hide IsChain, WorkflowDraft, Injective, Append, Recorded, HandlersOk, RowsOk, OwnDrafts, EffectOf, Inbox.Apply;
    match EffectOf(c, s, process, keyId, signature)
    case Err(_) =>
      InboxStepKeeps(c.columns, s, Inbox.Throw(process));
      OwnDraftsIgnoresInbox(c.columns, s, Apply(c, s, Effect(process, keyId, signature, acknowledged)));
    case Ok((event, log)) =>
      EffectKeepsDrafts(c, s, process, keyId, signature);
      var written := s.(log := log);
      RecordedStays(c.columns, s, written);
      InboxStepKeeps(c.columns, written, if acknowledged then Inbox.Return(process, Some(event.eventHash))
                     else Inbox.Throw(process));
      OwnDraftsIgnoresInbox(c.columns, written, Apply(c, s, Effect(process, keyId, signature, acknowledged)));
  }

  lemma {:induction false} OwnDraftsIgnoresInbox(c: Columns, s: State, t: State)
    requires OwnDrafts(c, s) && s.log == t.log && s.messages == t.messages
    ensures OwnDrafts(c, t)
  {}

  lemma {:induction false} RunKeepsInv(c: Config, states: seq<State>, steps: seq<Step>, i: nat)
    requires Injective(c.sha) && IsRun(c, states, steps) && i < |states|
    ensures Inv(c, states[i])
    decreases i
  {
    hide Inv, Enabled, Apply;
    if i > 0 {
      RunKeepsInv(c, states, steps, i - 1);
      StepKeepsInv(c, states[i-1], steps[i-1]);
    } else {
      EmptyIsInv(c, states[0]);
    }
  }

  lemma {:induction false} EmptyIsInv(c: Config, s: State)
    requires s.messages == map[] && s.log == [] && s.inbox.rows == map[] && s.inbox.handlers == map[]
    ensures Inv(c, s)
  {}

  // ----- Main results -----

  predicate IsEntryOf(c: Columns, log: Log, k: nat, id: string) {
    k < |log| && c.uuid(log[k].draft.auditEventId) == c.uuid(id)
  }

  /** In every reachable state the log is a valid chain, and an outbox event has at most one entry in it,
      which records that event's own content. */
  lemma {:induction false} AuditedAtMostOnce(c: Config, states: seq<State>, steps: seq<Step>, i: nat, id: string,
                                             k: nat, l: nat)
    requires Injective(c.sha) && IsRun(c, states, steps) && i < |states| && id in states[i].messages
    ensures IsChain(c.sha, c.columns, states[i].log)
    ensures IsEntryOf(c.columns, states[i].log, k, id) && IsEntryOf(c.columns, states[i].log, l, id) ==> k == l
    ensures IsEntryOf(c.columns, states[i].log, k, id) ==>
              WorkflowDraft(states[i].messages[id]) == Some(states[i].log[k].draft)
  {
    hide Enabled, Apply, Linked, WorkflowDraft;
    RunKeepsInv(c, states, steps, i);
  }

  predicate HasText(m: Message, field: string) {
    field in m.payload && m.payload[field].Str? && Trim(m.payload[field].s) != ""
  }

  predicate MayHaveText(m: Message, field: string) {
    field in m.payload ==> m.payload[field].Undefined? || (m.payload[field].Str? && m.payload[field].s != "")
  }

  /** The message is of the type and version audited, and its fields are present and well-formed. */
  predicate IsAuditable(m: Message) {
    && m.eventType == "pms.audit.workflow-action-recorded.v1" && m.schemaVersion == 1
    && HasText(m, "actorId") && HasText(m, "action") && HasText(m, "resourceType") && HasText(m, "resourceId")
    && HasText(m, "justification") && HasText(m, "resultState")
    && HasText(m, "businessDate") && IsDateText(m.payload["businessDate"].s)
    && MayHaveText(m, "sessionId") && MayHaveText(m, "sourceAddress")
  }

  function TextIn(m: Message, field: string): Option<string> {
    if field in m.payload && m.payload[field].Str? then Some(m.payload[field].s) else None
  }

  /** Field by field, what the log holds of a message: who did what to what, in their trimmed texts, the date, session
      and address as sent, and the state it led to. */
  ghost predicate Records(m: Message, d: Draft) {
    && IsAuditable(m)
    && d.auditEventId == m.eventId && d.correlationId == m.correlationId && d.occurredAt == m.occurredAt
    && d.technicalIdentity == "audit-worker" && d.sourceApplication == "pms-api" && d.outcome == Success
    && d.actorId == Trim(m.payload["actorId"].s) && d.action == Trim(m.payload["action"].s)
    && d.resourceType == Trim(m.payload["resourceType"].s) && d.resourceId == Trim(m.payload["resourceId"].s)
    && d.justification == Some(Trim(m.payload["justification"].s))
    && d.businessDate == m.payload["businessDate"].s
    && d.sessionId == TextIn(m, "sessionId") && d.sourceAddress == TextIn(m, "sourceAddress")
    && d.runId == None && d.batchId == None && d.documentReferenceId == None
    && d.authorizedChanges == Some([Field("state", Obj([Field("after", Str(Trim(m.payload["resultState"].s)))]))])
  }

  lemma {:induction false} DraftRecords(m: Message)
    ensures WorkflowDraft(m).Some? <==> IsAuditable(m)
    ensures WorkflowDraft(m).Some? ==> Records(m, WorkflowDraft(m).value)
  {
    hide Trim, IsDateText;
  }

  /** Every entry of an outbox event records that event, field by field. */
  lemma {:induction false} EntriesRecordTheirMessage(c: Config, states: seq<State>, steps: seq<Step>, i: nat,
                                                     id: string, k: nat)
    requires Injective(c.sha) && IsRun(c, states, steps) && i < |states| && id in states[i].messages
    requires IsEntryOf(c.columns, states[i].log, k, id)
    ensures Records(states[i].messages[id], states[i].log[k].draft)
  {
    hide Enabled, Apply, WorkflowDraft, Records;
    AuditedAtMostOnce(c, states, steps, i, id, k, k);
    DraftRecords(states[i].messages[id]);
  }

  /** In every reachable state a running handler gets its message into the log, or finds it there, exactly when the
      message is auditable and, unless it is in the log already, the signature is not empty. */
  lemma {:induction false} EffectSucceedsExactly(c: Config, states: seq<State>, steps: seq<Step>, i: nat, process: nat,
                                                 keyId: string, signature: string)
    requires Injective(c.sha) && IsRun(c, states, steps) && i < |states|
    requires Enabled(c, states[i], Effect(process, keyId, signature, true))
    ensures var s := states[i];
            var id := s.inbox.handlers[process].key.messageId;
            EffectOf(c, s, process, keyId, signature).Ok?
            <==> && IsAuditable(s.messages[id])
                 && (signature != "" || exists k :: IsEntryOf(c.columns, s.log, k, id))
  {
    hide Apply, WorkflowDraft, IsAuditable, IsChain, Records, Hash, SameDraft;
    RedeliveryNeverConflicts(c, states, steps, i, process, keyId, signature);
    RunKeepsInv(c, states, steps, i);
    var s := states[i];
    var m := s.messages[s.inbox.handlers[process].key.messageId];
    DraftRecords(m);
    if WorkflowDraft(m).Some? {
      var draft := WorkflowDraft(m).value;
      WorkflowDraftFacts(m);
      var k := Position(c.columns, s.log, m.eventId);
      HashableIs(c.sha, draft, PreviousHash(s.log, |s.log|));
      if k < |s.log| {
        HashableIs(c.sha, draft, s.log[k].previousHash);
        assert IsEntryOf(c.columns, s.log, k, m.eventId);
      }
    }
  }

  /** Entries are never changed or removed. */
  lemma {:induction false} LogOnlyGrows(c: Config, states: seq<State>, steps: seq<Step>, i: nat, j: nat)
    requires Injective(c.sha) && IsRun(c, states, steps) && i <= j < |states|
    ensures states[i].log <= states[j].log
    decreases j
  {
    hide Inv, Enabled, Apply;
    if i < j {
      LogOnlyGrows(c, states, steps, i, j - 1);
      RunKeepsInv(c, states, steps, j - 1);
      StepKeepsInv(c, states[j-1], steps[j-1]);
    }
  }

  /** A handler's append is never refused as a reused identifier: redeliveries and takeovers repeat the
      same content. */
  lemma {:induction false} RedeliveryNeverConflicts(c: Config, states: seq<State>, steps: seq<Step>, i: nat,
                                                    process: nat, keyId: string, signature: string)
    requires Injective(c.sha) && IsRun(c, states, steps) && i < |states|
    requires Enabled(c, states[i], Effect(process, keyId, signature, true))
    ensures EffectOf(c, states[i], process, keyId, signature) != Err(IdentifierReused)
  {
    hide Linked, WorkflowDraft, Apply, IsChain, Append, SameDraft, Position;
    RunKeepsInv(c, states, steps, i);
    var s := states[i];
    var id := s.inbox.handlers[process].key.messageId;
    if WorkflowDraft(s.messages[id]).Some? {
      var draft := WorkflowDraft(s.messages[id]).value;
      WorkflowDraftFacts(s.messages[id]);
      ReuseIsAnotherContent(c.sha, c.columns, s.log, draft, keyId, signature);
      SameDraftReflexive(draft);
    }
  }

  lemma {:induction false} SameDraftReflexive(d: Draft)
    ensures SameDraft(d, d)
  {
    SameReflexive(Changes(d.authorizedChanges));
  }

  /** A message recorded as processed is in the log, under the hash recorded with it: a delivery answered
      DUPLICATE for that reason never loses an audit event. */
  lemma {:induction false} ProcessedIsAudited(c: Config, states: seq<State>, steps: seq<Step>, i: nat, key: Inbox.Key)
    requires Injective(c.sha) && IsRun(c, states, steps) && i < |states| && Inbox.IsProcessed(states[i].inbox, key)
    ensures Recorded(c.columns, states[i].log, key.messageId, states[i].inbox.rows[key].checksum)
  {
    hide Enabled, Apply, Recorded, IsChain, OwnDrafts, HandlersOk;
    RunKeepsInv(c, states, steps, i);
  }

  /** Every window of every reachable log is reported broken at its first event whose texts the columns
      do not give back as written, and valid when there is none. */
  lemma {:induction false} WindowsOfEveryRun(c: Config, states: seq<State>, steps: seq<Step>, i: nat, scanLimit: nat,
                                             filters: AuditQuery.Filters, verified: nat)
    requires Injective(c.sha) && AuditQuery.KeepsJson(c.columns) && IsRun(c, states, steps) && i < |states|
    requires AuditQuery.IsFirstBroken(c.sha, AuditQuery.LatestWindow(c.columns, states[i].log, scanLimit, filters),
                                      verified)
    ensures var log, start := states[i].log, AuditQuery.WindowStart(states[i].log, scanLimit);
            && (forall k :: start <= k < start + verified ==> AuditQuery.ReadsBack(c.columns, log[k].draft))
            && (start + verified < |log| ==> !AuditQuery.ReadsBack(c.columns, log[start + verified].draft))
  {
    hide Enabled, Apply, AuditQuery.IsFirstBroken, AuditQuery.LatestWindow, AuditQuery.ReadsBack,
      AuditQuery.KeepsJson, IsChain;
    RunKeepsInv(c, states, steps, i);
    AuditQuery.GenuineChain(c.sha, c.columns, states[i].log, scanLimit, filters, verified);
  }
}

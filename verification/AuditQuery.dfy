/** Querying the audit trail: the latest window of the table is read back, verified event by event, and
    the events that match the filters are shown. */
module AuditQuery {
  import opened Wrappers
  import opened Texts
  import opened Sorting
  import opened CanonicalJson
  import opened JsonEquality
  import opened AuditChain
  import opened AuditTrail

  // ----- Reading rows back -----

  function NonEmpty(o: Option<string>): Option<string> { if o == Some("") then None else o }

  function Cast(f: string -> string, o: Option<string>): Option<string> {
    match o case None => None case Some(s) => Some(f(s))
  }

  function ReadDraft(c: Columns, d: Draft): Draft {
    d.(auditEventId := c.uuid(d.auditEventId), correlationId := c.uuid(d.correlationId),
       sessionId := NonEmpty(d.sessionId), justification := NonEmpty(d.justification),
       businessDate := c.date(d.businessDate), occurredAt := c.timestamp(d.occurredAt),
       sourceAddress := Cast(c.inet, d.sourceAddress), runId := Cast(c.uuid, d.runId),
       batchId := Cast(c.uuid, d.batchId), documentReferenceId := Cast(c.uuid, d.documentReferenceId),
       authorizedChanges := match d.authorizedChanges case None => None case Some(fields) => Some(c.json(fields)))
  }

  function ReadEvent(c: Columns, e: Event): Event { e.(draft := ReadDraft(c, e.draft)) }

  /** The columns give a draft's texts back as they were written. */
  predicate ReadsBack(c: Columns, d: Draft) {
    && c.uuid(d.auditEventId) == d.auditEventId && c.uuid(d.correlationId) == d.correlationId
    && d.sessionId != Some("") && d.justification != Some("")
    && c.date(d.businessDate) == d.businessDate && c.timestamp(d.occurredAt) == d.occurredAt
    && Cast(c.inet, d.sourceAddress) == d.sourceAddress && Cast(c.uuid, d.runId) == d.runId
    && Cast(c.uuid, d.batchId) == d.batchId && Cast(c.uuid, d.documentReferenceId) == d.documentReferenceId
  }

  /** A jsonb column may reorder keys but keeps the value. */
  ghost predicate KeepsJson(c: Columns) {
    forall fields :: WellFormed(Obj(fields)) && Supported(Obj(fields)) ==>
                       WellFormed(Obj(c.json(fields))) && Supported(Obj(c.json(fields))) &&
                       Same(Obj(c.json(fields)), Obj(fields))
  }

  // ----- The window -----

  datatype Filters = Filters(action: Option<string>, resourceType: Option<string>, outcome: Option<Outcome>,
                             correlationId: Option<string>, businessDateFrom: Option<string>,
                             businessDateTo: Option<string>)

  const NO_FILTERS := Filters(None, None, None, None, None, None)

  predicate Matches(c: Columns, filters: Filters, d: Draft) {
    && (filters.action.None? || d.action == filters.action.value)
    && (filters.resourceType.None? || d.resourceType == filters.resourceType.value)
    && (filters.outcome.None? || d.outcome == filters.outcome.value)
    && (filters.correlationId.None? || c.uuid(d.correlationId) == c.uuid(filters.correlationId.value))
    && (filters.businessDateFrom.None? || !Less(c.date(d.businessDate), filters.businessDateFrom.value))
    && (filters.businessDateTo.None? || !Less(filters.businessDateTo.value, c.date(d.businessDate)))
  }

  datatype Window = Window(events: seq<Event>, matches: seq<bool>, predecessorExists: seq<bool>)

  function WindowStart(log: Log, scanLimit: nat): (start: nat)
    ensures start <= |log|
  {
    if scanLimit >= |log| then 0 else |log| - scanLimit
  }

  function LatestWindow(c: Columns, log: Log, scanLimit: nat, filters: Filters): (w: Window)
    ensures |w.events| == |w.matches| == |w.predecessorExists| == |log| - WindowStart(log, scanLimit)
  {
    var start := WindowStart(log, scanLimit);
    Window(seq(|log| - start, i requires 0 <= i < |log| - start => ReadEvent(c, log[start + i])),
           seq(|log| - start, i requires 0 <= i < |log| - start => Matches(c, filters, log[start + i].draft)),
           seq(|log| - start, i requires 0 <= i < |log| - start =>
             log[start + i].previousHash == PreviousHash(log, start + i)))
  }

  // ----- Verification -----

  predicate Verifies(sha: string -> string, e: Event) { Hash(sha, e.draft, e.previousHash) == Some(e.eventHash) }

  predicate Broken(sha: string -> string, w: Window, k: nat)
    requires k < |w.events| == |w.predecessorExists|
  {
    !Verifies(sha, w.events[k]) || !w.predecessorExists[k] ||
    (k > 0 && w.events[k].previousHash != Some(w.events[k-1].eventHash))
  }

  /** The least broken position of the window, its length when none is broken. */
  ghost predicate IsFirstBroken(sha: string -> string, w: Window, k: nat)
    requires |w.events| == |w.predecessorExists|
  {
    && k <= |w.events|
    && (k < |w.events| ==> Broken(sha, w, k))
    && forall i :: 0 <= i < k ==> !Broken(sha, w, i)
  }

  function Selected(events: seq<Event>, matches: seq<bool>): seq<Event>
    requires |events| == |matches|
  {
    if events == [] then [] else
      (if matches[0] then [events[0]] else []) + Selected(events[1..], matches[1..])
  }

  function LastOf(events: seq<Event>, limit: nat): seq<Event> {
    if |events| <= limit then events else events[|events| - limit..]
  }

  datatype TrailResult = TrailResult(events: seq<Event>, chainValid: bool, verifiedCount: nat,
                                     brokenAtEventId: Option<string>)

  datatype QueryError = LimitOutOfRange | DateRangeInverted

  function ScanLimit(limit: nat, filters: Filters): nat {
    if filters == NO_FILTERS then limit else if limit * 10 < 2000 then limit * 10 else 2000
  }

  predicate Inverted(filters: Filters) {
    && filters.businessDateFrom.Some? && filters.businessDateFrom.value != ""
    && filters.businessDateTo.Some? && filters.businessDateTo.value != ""
    && Less(filters.businessDateTo.value, filters.businessDateFrom.value)
  }

  class QueryAuditTrail {
    const repository: PostgresAuditRepository

    constructor (repository: PostgresAuditRepository)
      ensures this.repository == repository
    {
      this.repository := repository;
    }

    /** The filters passed their syntax checks. The window, ten times the limit if there are filters, is verified
        from its oldest event on; the shown events are the last matching ones whether or not it verifies. */
    method Execute(limit: int, filters: Filters) returns (result: Result<TrailResult, QueryError>)
      ensures result == Err(LimitOutOfRange) <==> !(1 <= limit <= 200)
      ensures result == Err(DateRangeInverted) <==>
              && 1 <= limit <= 200 && filters.businessDateFrom.Some? && filters.businessDateTo.Some?
              && filters.businessDateFrom.value != "" && filters.businessDateTo.value != ""
              && Less(filters.businessDateTo.value, filters.businessDateFrom.value)
      ensures result.Ok? ==>
                1 <= limit <= 200 &&
                var scanned := if filters == NO_FILTERS then limit else 10 * limit;
                var r, w := result.value, LatestWindow(repository.columns, repository.log, scanned, filters);
                && IsFirstBroken(repository.sha, w, r.verifiedCount)
                && r.chainValid == (r.verifiedCount == |w.events|)
                && r.brokenAtEventId == (if r.chainValid then None
                                         else Some(w.events[r.verifiedCount].draft.auditEventId))
                && r.events == LastOf(Selected(w.events, w.matches), limit)
    {
      hide LatestWindow, Verifies, Selected, LastOf;
      if limit < 1 || limit > 200 { return Err(LimitOutOfRange); }
      if Inverted(filters) { return Err(DateRangeInverted); }
      var w := LatestWindow(repository.columns, repository.log, ScanLimit(limit, filters), filters);
      var projected := LastOf(Selected(w.events, w.matches), limit);
      var previous: Option<Event> := None;
      for i := 0 to |w.events|
        invariant forall j :: 0 <= j < i ==> !Broken(repository.sha, w, j)
        invariant previous == if i == 0 then None else Some(w.events[i-1])
      {
        var event := w.events[i];
        if !Verifies(repository.sha, event) || !w.predecessorExists[i]
           || (previous.Some? && event.previousHash != Some(previous.value.eventHash)) {
          return Ok(TrailResult(projected, false, i, Some(event.draft.auditEventId)));
        }
        previous := Some(event);
      }
      result := Ok(TrailResult(projected, true, |w.events|, None));
    }
  }

  // ----- What is shown -----

  /** The six filters on an event as it is shown; each absent one lets every event pass. */
  predicate Passes(c: Columns, filters: Filters, d: Draft) {
    && (filters.action.Some? ==> d.action == filters.action.value)
    && (filters.resourceType.Some? ==> d.resourceType == filters.resourceType.value)
    && (filters.outcome.Some? ==> d.outcome == filters.outcome.value)
    && (filters.correlationId.Some? ==> d.correlationId == c.uuid(filters.correlationId.value))
    && (filters.businessDateFrom.Some? ==> !Less(d.businessDate, filters.businessDateFrom.value))
    && (filters.businessDateTo.Some? ==> !Less(filters.businessDateTo.value, d.businessDate))
  }

  predicate Increasing(at: seq<nat>) { forall i, j :: 0 <= i < j < |at| ==> at[i] < at[j] }

  /** The positions of the matching events, counted from start. */
  function Positions(matches: seq<bool>, start: nat): seq<nat> {
    if matches == [] then [] else (if matches[0] then [start] else []) + Positions(matches[1..], start + 1)
  }

  /** The positions from start on at which there is a match. */
  predicate Lists(at: seq<nat>, matches: seq<bool>, start: nat) {
    && (forall k <- at :: start <= k < start + |matches| && matches[k - start])
    && (forall i :: 0 <= i < |matches| && matches[i] ==> start + i in at)
  }

  lemma {:induction false} PositionsAre(matches: seq<bool>, start: nat)
    ensures Increasing(Positions(matches, start)) && Lists(Positions(matches, start), matches, start)
  {
    hide Increasing, Lists;
    if matches != [] {
      PositionsAre(matches[1..], start + 1);
      NextPositions(matches, start, Positions(matches[1..], start + 1));
    } else {
      NoPositions(start);
    }
  }

  lemma NoPositions(start: nat)
    ensures Increasing([]) && Lists([], [], start)
  {}

  lemma NextPositions(matches: seq<bool>, start: nat, rest: seq<nat>)
    requires matches != [] && Increasing(rest) && Lists(rest, matches[1..], start + 1)
    ensures var at := (if matches[0] then [start] else []) + rest; Increasing(at) && Lists(at, matches, start)
  {
    var head := if matches[0] then [start] else [];
    var tail, at := matches[1..], head + rest;
    assert forall i :: 0 <= i < |rest| ==> rest[i] in rest;
    forall k | k in at ensures start <= k < start + |matches| && matches[k - start] {
      if k in rest { assert tail[k - (start + 1)] == matches[k - start]; }
    }
    forall i | 0 <= i < |matches| && matches[i] ensures start + i in at {
      if i > 0 { assert tail[i-1] && start + 1 + (i - 1) in rest; } else { assert at[0] == start; }
    }
  }

  lemma {:induction false} SelectedAtPositions(events: seq<Event>, matches: seq<bool>, start: nat)
    requires |events| == |matches|
    ensures |Selected(events, matches)| == |Positions(matches, start)|
    ensures forall i :: 0 <= i < |Selected(events, matches)| ==>
              && start <= Positions(matches, start)[i] < start + |events|
              && Selected(events, matches)[i] == events[Positions(matches, start)[i] - start]
  {
    if events != [] {
      SelectedAtPositions(events[1..], matches[1..], start + 1);
      assert forall k :: 0 < k < |events| ==> events[1..][k-1] == events[k];
    }
  }

  lemma WindowAt(c: Columns, log: Log, scanLimit: nat, filters: Filters, k: nat)
    requires WindowStart(log, scanLimit) <= k < |log|
    ensures var w, start := LatestWindow(c, log, scanLimit, filters), WindowStart(log, scanLimit);
            && w.events[k - start] == ReadEvent(c, log[k])
            && (w.matches[k - start] <==> Passes(c, filters, ReadEvent(c, log[k]).draft))
  {
    hide ReadEvent, Passes, Matches, WindowStart;
    var start := WindowStart(log, scanLimit);
    var i: nat := k - start;
    assert start + i == k;
    var w := LatestWindow(c, log, scanLimit, filters);
    assert w.events[i] == ReadEvent(c, log[start + i]);
    assert w.matches[i] == Matches(c, filters, log[start + i].draft);
    MatchesAsRead(c, filters, log[k]);
  }

  lemma MatchesAsRead(c: Columns, filters: Filters, e: Event)
    ensures Matches(c, filters, e.draft) <==> Passes(c, filters, ReadEvent(c, e).draft)
  {
    hide Less;
  }

  /** The positions, in the order of the log, of the events shown. */
  function ShownAt(c: Columns, log: Log, scanLimit: nat, filters: Filters, limit: nat): (at: seq<nat>)
    ensures |at| <= limit
  {
    var all := Positions(LatestWindow(c, log, scanLimit, filters).matches, WindowStart(log, scanLimit));
    if |all| <= limit then all else all[|all| - limit..]
  }

  lemma {:induction false} SelectedEvent(c: Columns, log: Log, scanLimit: nat, filters: Filters, i: nat)
    requires i < |Positions(LatestWindow(c, log, scanLimit, filters).matches, WindowStart(log, scanLimit))|
    ensures var w, start := LatestWindow(c, log, scanLimit, filters), WindowStart(log, scanLimit);
            var k := Positions(w.matches, start)[i];
            && i < |Selected(w.events, w.matches)| && start <= k < |log|
            && Selected(w.events, w.matches)[i] == ReadEvent(c, log[k])
            && Passes(c, filters, ReadEvent(c, log[k]).draft)
  {
    hide LatestWindow, Selected, Positions, Passes, ReadEvent, Increasing;
    var w, start := LatestWindow(c, log, scanLimit, filters), WindowStart(log, scanLimit);
    var k := Positions(w.matches, start)[i];
    PositionsAre(w.matches, start);
    SelectedAtPositions(w.events, w.matches, start);
    assert k in Positions(w.matches, start);
    WindowAt(c, log, scanLimit, filters, k);
  }

  lemma IncreasingTail(all: seq<nat>, skipped: nat)
    requires Increasing(all) && skipped <= |all|
    ensures Increasing(all[skipped..])
  {}

  /** The events shown are events of the window in the order of the log, each read back and passing the filters. */
  lemma {:induction false} ShownEvents(c: Columns, log: Log, scanLimit: nat, filters: Filters, limit: nat)
    ensures var w, at := LatestWindow(c, log, scanLimit, filters), ShownAt(c, log, scanLimit, filters, limit);
            var shown := LastOf(Selected(w.events, w.matches), limit);
            && |at| == |shown| && Increasing(at)
            && forall i :: 0 <= i < |at| ==>
                 && |log| - scanLimit <= at[i] < |log| && shown[i] == ReadEvent(c, log[at[i]])
                 && Passes(c, filters, shown[i].draft)
  {
    hide LatestWindow, Selected, Positions, Passes, ReadEvent, Increasing;
    var w, start := LatestWindow(c, log, scanLimit, filters), WindowStart(log, scanLimit);
    var all, at := Positions(w.matches, start), ShownAt(c, log, scanLimit, filters, limit);
    PositionsAre(w.matches, start);
    SelectedAtPositions(w.events, w.matches, start);
    var selected := Selected(w.events, w.matches);
    var shown, skipped := LastOf(selected, limit), if |all| <= limit then 0 else |all| - limit;
    IncreasingTail(all, skipped);
    assert at == all[skipped..] && shown == selected[skipped..];
    assert |at| == |shown|;
    forall i | 0 <= i < |at|
      ensures start <= at[i] < |log| && shown[i] == ReadEvent(c, log[at[i]]) && Passes(c, filters, shown[i].draft)
    {
      assert at[i] == all[skipped + i] && shown[i] == selected[skipped + i];
      SelectedEvent(c, log, scanLimit, filters, skipped + i);
    }
  }

  /** They are the last ones that pass: a passing event of the window that is not shown stands before all that are,
      and only when as many are shown as were asked for. */
  lemma {:induction false} ShowsTheLastMatching(c: Columns, log: Log, scanLimit: nat, filters: Filters, limit: nat,
                                                k: nat)
    requires |log| - scanLimit <= k < |log| && Passes(c, filters, ReadEvent(c, log[k]).draft)
    ensures var at := ShownAt(c, log, scanLimit, filters, limit);
            k in at || (|at| == limit && forall i :: 0 <= i < |at| ==> k < at[i])
  {
    hide LatestWindow, Positions, Passes, ReadEvent;
    var w, start := LatestWindow(c, log, scanLimit, filters), WindowStart(log, scanLimit);
    var all, at := Positions(w.matches, start), ShownAt(c, log, scanLimit, filters, limit);
    PositionsAre(w.matches, start);
    WindowAt(c, log, scanLimit, filters, k);
    assert w.matches[k - start] && start + (k - start) == k;
    assert k in all;
    var j :| 0 <= j < |all| && all[j] == k;
    if |all| > limit {
      if j >= |all| - limit {
        assert at[j - (|all| - limit)] == k;
      } else {
        forall i | 0 <= i < |at| ensures k < at[i] { assert at[i] == all[|all| - limit + i]; }
      }
    }
  }

  // ----- What verification reports -----

  /** Reading a draft back gives the same draft exactly when its texts are canonical. */
  lemma {:induction false} ReadBackIsSame(c: Columns, d: Draft)
    requires KeepsJson(c) && WellFormedDraft(d) && Hashable(d)
    ensures WellFormedDraft(ReadDraft(c, d)) && Hashable(ReadDraft(c, d))
    ensures SameDraft(ReadDraft(c, d), d) <==> ReadsBack(c, d)
  {
    hide WellFormed, Supported;
    if d.authorizedChanges.None? {
      assert Same(Undefined, Undefined);
    }
  }

  /** What the window tests of a row: its hash as read back, and its true predecessor in the whole table. */
  predicate Sound(sha: string -> string, c: Columns, log: Log, k: nat)
    requires k < |log|
  {
    Verifies(sha, ReadEvent(c, log[k])) && log[k].previousHash == PreviousHash(log, k)
  }

  lemma {:induction false} BrokenIsUnsound(sha: string -> string, c: Columns, log: Log, scanLimit: nat,
                                           filters: Filters, k: nat)
    requires WindowStart(log, scanLimit) <= k < |log|
    ensures Broken(sha, LatestWindow(c, log, scanLimit, filters), k - WindowStart(log, scanLimit)) <==>
            !Sound(sha, c, log, k)
  {
    hide Hash, Matches, ReadDraft;
    var start := WindowStart(log, scanLimit);
    var w := LatestWindow(c, log, scanLimit, filters);
    assert w.events[k - start] == ReadEvent(c, log[k]);
    if k > start { assert w.events[k - start - 1] == ReadEvent(c, log[k-1]); }
  }

  /** One event of a genuine chain is sound exactly when its texts are canonical. */
  lemma {:induction false} GenuineEvent(sha: string -> string, c: Columns, log: Log, k: nat)
    requires Injective(sha) && KeepsJson(c) && IsChain(sha, c, log) && k < |log|
    ensures Sound(sha, c, log, k) <==> ReadsBack(c, log[k].draft)
  {
    hide Hash, Injective, WellFormedDraft, Hashable, KeepsJson, SameDraft, ReadsBack;
    assert Linked(sha, log, k);
    var d, p := log[k].draft, log[k].previousHash;
    HashableIs(sha, d, p);
    ReadBackIsSame(c, d);
    HashIsFaithful(sha, ReadDraft(c, d), p, d, p);
  }

  /** A chain built by appends alone: the query reports it broken at the first event of the window whose
      texts the columns do not give back as written, and valid when there is none. */
  lemma {:induction false} GenuineChain(sha: string -> string, c: Columns, log: Log, scanLimit: nat, filters: Filters,
                                        verified: nat)
    requires Injective(sha) && KeepsJson(c) && IsChain(sha, c, log)
    requires IsFirstBroken(sha, LatestWindow(c, log, scanLimit, filters), verified)
    ensures var start := WindowStart(log, scanLimit);
            && (forall k :: start <= k < start + verified ==> ReadsBack(c, log[k].draft))
            && (start + verified < |log| ==> !ReadsBack(c, log[start + verified].draft))
            && (verified == |log| - start <==> forall k :: start <= k < |log| ==> ReadsBack(c, log[k].draft))
  {
    hide Broken, Injective, KeepsJson, IsChain, ReadsBack;
    var start := WindowStart(log, scanLimit);
    forall k | start <= k < |log|
      ensures Broken(sha, LatestWindow(c, log, scanLimit, filters), k - start) <==> !ReadsBack(c, log[k].draft)
    {
      GenuineEvent(sha, c, log, k);
      BrokenIsUnsound(sha, c, log, scanLimit, filters, k);
    }
    forall k | start <= k < start + verified ensures ReadsBack(c, log[k].draft) {
      assert !Broken(sha, LatestWindow(c, log, scanLimit, filters), k - start);
    }
  }

  /** The text of an inet column always shows its mask. No window that reaches an event recorded with an
      address of another text, a bare one in particular, is verified beyond that event. */
  lemma {:induction false} BareAddressBreaksTheTrail(sha: string -> string, c: Columns, log: Log, k: nat,
                                                     address: string, scanLimit: nat, filters: Filters, verified: nat)
    requires Injective(sha) && KeepsJson(c) && IsChain(sha, c, log) && c.inet(address) != address
    requires WindowStart(log, scanLimit) <= k < |log| && log[k].draft.sourceAddress == Some(address)
    requires IsFirstBroken(sha, LatestWindow(c, log, scanLimit, filters), verified)
    ensures verified <= k - WindowStart(log, scanLimit)
  {
    GenuineChain(sha, c, log, scanLimit, filters, verified);
    assert !ReadsBack(c, log[k].draft);
  }

  // ----- Tampering -----

  ghost predicate Genuine(sha: string -> string, c: Columns, log: Log) {
    IsChain(sha, c, log) && forall k :: 0 <= k < |log| ==> ReadsBack(c, log[k].draft)
  }

  ghost predicate Altered(a: Event, b: Event) {
    !SameDraft(a.draft, b.draft) || a.previousHash != b.previousHash || a.eventHash != b.eventHash
  }

  lemma {:induction false} BeforeTampering(sha: string -> string, c: Columns, log: Log, forged: Event, k: nat, i: nat)
    requires Injective(sha) && KeepsJson(c) && Genuine(sha, c, log) && i < k < |log|
    ensures Sound(sha, c, log[k := forged], i)
  {
    hide Injective, KeepsJson, IsChain, ReadsBack, Verifies;
    GenuineEvent(sha, c, log, i);
  }

  /** The forged row itself is sound exactly with its true predecessor and the hash of its own content. */
  lemma {:induction false} AtTampering(sha: string -> string, c: Columns, log: Log, forged: Event, k: nat)
    requires Injective(sha) && KeepsJson(c) && Genuine(sha, c, log) && k < |log|
    requires WellFormedDraft(forged.draft) && Hashable(forged.draft) && ReadsBack(c, forged.draft)
    ensures Sound(sha, c, log[k := forged], k) <==> Consistent(sha, forged, log[k])
  {
    hide Hash, Injective, KeepsJson, ReadsBack, WellFormedDraft, Hashable, SameDraft;
    assert Linked(sha, log, k);
    ReadBackIsSame(c, forged.draft);
    HashIsFaithful(sha, ReadDraft(c, forged.draft), forged.previousHash, forged.draft, forged.previousHash);
    assert PreviousHash(log[k := forged], k) == PreviousHash(log, k);
  }

  /** The row after an altered one that passes itself does not. */
  lemma {:induction false} AfterTampering(sha: string -> string, c: Columns, log: Log, forged: Event, k: nat)
    requires Injective(sha) && KeepsJson(c) && Genuine(sha, c, log) && k + 1 < |log|
    requires WellFormedDraft(forged.draft) && Hashable(forged.draft) && Altered(forged, log[k]) &&
             Consistent(sha, forged, log[k])
    ensures !Sound(sha, c, log[k := forged], k + 1)
  {
    hide Hash, Injective, KeepsJson, ReadsBack, WellFormedDraft, Hashable, SameDraft, Verifies, ReadDraft;
    assert Linked(sha, log, k) && Linked(sha, log, k + 1);
    HashableIs(sha, log[k].draft, log[k].previousHash);
    HashIsFaithful(sha, forged.draft, forged.previousHash, log[k].draft, log[k].previousHash);
    assert PreviousHash(log[k := forged], k + 1) == Some(forged.eventHash);
  }

  /** A row that follows the predecessor of the genuine one and carries the hash of its own content. */
  predicate Consistent(sha: string -> string, forged: Event, genuine: Event) {
    forged.previousHash == genuine.previousHash &&
    Hash(sha, forged.draft, forged.previousHash) == Some(forged.eventHash)
  }

  /** An altered row is reported at that row or at the one after it. The only forgery that passes is the
      last row rewritten, after its true predecessor, with the hash of its new content. */
  lemma {:induction false} TamperingIsReported(sha: string -> string, c: Columns, log: Log, forged: Event, k: nat,
                                               scanLimit: nat, filters: Filters, verified: nat)
    requires Injective(sha) && KeepsJson(c) && Genuine(sha, c, log) && WindowStart(log, scanLimit) <= k < |log|
    requires WellFormedDraft(forged.draft) && Hashable(forged.draft) && ReadsBack(c, forged.draft) &&
             Altered(forged, log[k])
    requires IsFirstBroken(sha, LatestWindow(c, log[k := forged], scanLimit, filters), verified)
    ensures var start := WindowStart(log, scanLimit);
            if !Consistent(sha, forged, log[k]) then verified == k - start
            else if k + 1 < |log| then verified == k + 1 - start
            else verified == |log| - start
  {
    hide Injective, KeepsJson, Genuine, ReadsBack, WellFormedDraft, Hashable, Altered, Broken, Sound, Consistent;
    var start, tampered := WindowStart(log, scanLimit), log[k := forged];
    forall i | start <= i < |log|
      ensures Broken(sha, LatestWindow(c, tampered, scanLimit, filters), i - start) <==> !Sound(sha, c, tampered, i)
      ensures i < k ==> Sound(sha, c, tampered, i)
    {
      BrokenIsUnsound(sha, c, tampered, scanLimit, filters, i);
      if i < k { BeforeTampering(sha, c, log, forged, k, i); }
    }
    AtTampering(sha, c, log, forged, k);
    if Consistent(sha, forged, log[k]) && k + 1 < |log| { AfterTampering(sha, c, log, forged, k); }
    FirstOf(sha, c, tampered, scanLimit, filters, verified, k);
    if Consistent(sha, forged, log[k]) && k + 1 < |log| {
      FirstOf(sha, c, tampered, scanLimit, filters, verified, k + 1);
    }
  }

  /** The first broken position, by a row that is unsound and the rows before it. */
  lemma {:induction false} FirstOf(sha: string -> string, c: Columns, log: Log, scanLimit: nat, filters: Filters,
                                   verified: nat, k: nat)
    requires WindowStart(log, scanLimit) <= k < |log| &&
             IsFirstBroken(sha, LatestWindow(c, log, scanLimit, filters), verified)
    requires forall i :: WindowStart(log, scanLimit) <= i < |log| ==>
               (Broken(sha, LatestWindow(c, log, scanLimit, filters), i - WindowStart(log, scanLimit)) <==>
                !Sound(sha, c, log, i))
    requires forall i :: WindowStart(log, scanLimit) <= i < k ==> Sound(sha, c, log, i)
    ensures !Sound(sha, c, log, k) ==> verified == k - WindowStart(log, scanLimit)
    ensures Sound(sha, c, log, k) ==> verified > k - WindowStart(log, scanLimit)
  {
    hide Broken, Sound;
    var start := WindowStart(log, scanLimit);
    NotBefore(sha, c, log, scanLimit, filters, verified, k);
    if verified == k - start { assert start + verified == k; }
  }

  lemma {:induction false} NotBefore(sha: string -> string, c: Columns, log: Log, scanLimit: nat, filters: Filters,
                                     verified: nat, k: nat)
    requires WindowStart(log, scanLimit) <= k < |log| &&
             IsFirstBroken(sha, LatestWindow(c, log, scanLimit, filters), verified)
    requires forall i :: WindowStart(log, scanLimit) <= i < |log| ==>
               (Broken(sha, LatestWindow(c, log, scanLimit, filters), i - WindowStart(log, scanLimit)) <==>
                !Sound(sha, c, log, i))
    requires forall i :: WindowStart(log, scanLimit) <= i < k ==> Sound(sha, c, log, i)
    ensures verified >= k - WindowStart(log, scanLimit)
  {
    hide Broken, Sound;
    var start := WindowStart(log, scanLimit);
    if verified < |log| - start {
      var i := start + verified;
      assert Broken(sha, LatestWindow(c, log, scanLimit, filters), i - start);
      assert !Sound(sha, c, log, i);
    }
  }

  /** The log without its events from k up to m. */
  function Without(log: Log, k: nat, m: nat): Log
    requires k <= m <= |log|
  {
    log[..k] + log[m..]
  }

  lemma {:induction false} BeforeRemoval(sha: string -> string, c: Columns, log: Log, k: nat, m: nat, i: nat)
    requires Injective(sha) && KeepsJson(c) && Genuine(sha, c, log) && i < k <= m <= |log|
    ensures Sound(sha, c, Without(log, k, m), i)
  {
    hide Injective, KeepsJson, IsChain, ReadsBack, Verifies;
    GenuineEvent(sha, c, log, i);
  }

  /** The row after a gap names a predecessor that is gone. */
  lemma {:induction false} AfterRemoval(sha: string -> string, c: Columns, log: Log, k: nat, m: nat)
    requires Injective(sha) && KeepsJson(c) && Genuine(sha, c, log) && k < m < |log|
    ensures !Sound(sha, c, Without(log, k, m), k)
  {
    hide Injective, KeepsJson, ReadsBack, WellFormedDraft, Verifies, IsChain, Hash;
    var cut := Without(log, k, m);
    ChainLinks(sha, c, log, m);
    if k > 0 { HashesAreDistinct(sha, c, log, k - 1, m - 1); }
    assert cut[k] == log[m] && (k > 0 ==> cut[k-1] == log[k-1]);
  }

  lemma ChainLinks(sha: string -> string, c: Columns, log: Log, i: nat)
    requires IsChain(sha, c, log) && i < |log|
    ensures log[i].previousHash == PreviousHash(log, i)
  {
    hide WellFormedDraft, Hash;
    assert Linked(sha, log, i);
  }

  /** Rows removed before a remaining one are reported at that row, as the first broken one of every window
      that reaches it; the removal of the newest rows is never reported. */
  lemma {:induction false} RemovalIsReported(sha: string -> string, c: Columns, log: Log, k: nat, m: nat,
                                             scanLimit: nat, filters: Filters, verified: nat)
    requires Injective(sha) && KeepsJson(c) && Genuine(sha, c, log) && k < m <= |log|
    requires IsFirstBroken(sha, LatestWindow(c, Without(log, k, m), scanLimit, filters), verified)
    ensures var cut := Without(log, k, m);
            var start := WindowStart(cut, scanLimit);
            && (m < |log| && start <= k ==> verified == k - start)
            && (m == |log| ==> verified == |cut| - start)
  {
    hide Injective, KeepsJson, Genuine, Broken, Sound;
    var cut := Without(log, k, m);
    var start := WindowStart(cut, scanLimit);
    forall i | start <= i < |cut|
      ensures Broken(sha, LatestWindow(c, cut, scanLimit, filters), i - start) <==> !Sound(sha, c, cut, i)
      ensures i < k ==> Sound(sha, c, cut, i)
    {
      BrokenIsUnsound(sha, c, cut, scanLimit, filters, i);
      if i < k { BeforeRemoval(sha, c, log, k, m, i); }
    }
    if m < |log| && start <= k {
      AfterRemoval(sha, c, log, k, m);
      FirstOf(sha, c, cut, scanLimit, filters, verified, k);
    } else if m == |log| {
      var w := LatestWindow(c, cut, scanLimit, filters);
      forall j | 0 <= j < |cut| - start ensures !Broken(sha, w, j) {
        var i := start + j;
        assert Sound(sha, c, cut, i) && Broken(sha, w, i - start) == Broken(sha, w, j);
      }
    }
  }
}

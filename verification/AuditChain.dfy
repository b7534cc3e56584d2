/** The audit chain: each event's hash covers its content and the hash of the event before it. */
module AuditChain {
  import opened Wrappers
  import opened Texts
  import opened Sorting
  import opened CanonicalJson
  import opened JsonEquality
  import JsonGrammar

  datatype Outcome = Success | Denied | Failure

  function OutcomeText(o: Outcome): string {
    match o case Success => "SUCCESS" case Denied => "DENIED" case Failure => "FAILURE"
  }

  datatype Draft = Draft(
    auditEventId: string, correlationId: string, actorId: string, technicalIdentity: string,
    sessionId: Option<string>, action: string, resourceType: string, resourceId: string, outcome: Outcome,
    businessDate: string, occurredAt: string, sourceApplication: string, sourceAddress: Option<string>,
    justification: Option<string>, runId: Option<string>, batchId: Option<string>,
    documentReferenceId: Option<string>, authorizedChanges: Option<seq<Field>>)

  datatype Event = Event(draft: Draft, previousHash: Option<string>, eventHash: string,
                         signingKeyId: string, signature: string)

  // ----- The hashed payload -----

  function Optional(o: Option<string>): Json { match o case None => Undefined case Some(s) => Str(s) }

  function Nullable(o: Option<string>): Json { match o case None => Null case Some(s) => Str(s) }

  function Changes(o: Option<seq<Field>>): Json { match o case None => Undefined case Some(fields) => Obj(fields) }

  const KEYS: seq<string> := [
    "action", "actorId", "auditEventId", "authorizedChanges", "batchId", "businessDate", "correlationId",
    "documentReferenceId", "justification", "occurredAt", "outcome", "previousHash", "resourceId", "resourceType",
    "runId", "sessionId", "sourceAddress", "sourceApplication", "technicalIdentity"]

  function Values(d: Draft, previousHash: Option<string>): (r: seq<Json>)
    ensures |r| == |KEYS|
  {
    [Str(d.action), Str(d.actorId), Str(d.auditEventId), Changes(d.authorizedChanges), Optional(d.batchId),
     Str(d.businessDate), Str(d.correlationId), Optional(d.documentReferenceId), Optional(d.justification),
     Str(d.occurredAt), Str(OutcomeText(d.outcome)), Nullable(previousHash), Str(d.resourceId), Str(d.resourceType),
     Optional(d.runId), Optional(d.sessionId), Optional(d.sourceAddress), Str(d.sourceApplication),
     Str(d.technicalIdentity)]
  }

  function Keyed(keys: seq<string>, values: seq<Json>): seq<Field>
    requires |keys| == |values|
  {
    seq(|keys|, i requires 0 <= i < |keys| => Field(keys[i], values[i]))
  }

  function Payload(d: Draft, previousHash: Option<string>): Json { Obj(Keyed(KEYS, Values(d, previousHash))) }

  /** The hash of a draft after a given event. None stands for the TypeError of the canonical text. */
  function Hash(sha: string -> string, d: Draft, previousHash: Option<string>): Option<string> {
    match Canonical(Payload(d, previousHash)) case None => None case Some(text) => Some(sha(text))
  }

  ghost predicate WellFormedDraft(d: Draft) { WellFormed(Changes(d.authorizedChanges)) }

  /** The recorded changes hold no value that JSON cannot express. */
  ghost predicate Hashable(d: Draft) { d.authorizedChanges.None? || Supported(Changes(d.authorizedChanges)) }

  ghost predicate SameDraft(a: Draft, b: Draft) {
    a == b.(authorizedChanges := a.authorizedChanges) &&
    Same(Changes(a.authorizedChanges), Changes(b.authorizedChanges))
  }

  // ----- The hash determines the content -----

  lemma KeysAdjacent(i: nat)
    requires i + 1 < |KEYS|
    ensures Less(KEYS[i], KEYS[i+1])
  {
    if i < 5 {
      KeysAdjacentLow(i);
    } else if i < 9 {
      KeysAdjacentMiddle(i);
    } else if i < 14 {
      KeysAdjacentHigh(i);
    } else {
      KeysAdjacentTop(i);
    }
  }

  /** The first character in which two texts differ decides their order. */
  lemma {:induction false} LessAt(s: string, t: string, k: nat)
    requires k < |s| && k < |t| && s[k] < t[k] && forall i :: 0 <= i < k ==> s[i] == t[i]
    ensures Less(s, t)
  {
    if k > 0 { LessAt(s[1..], t[1..], k - 1); }
  }

  lemma KeysAdjacentLow(i: nat)
    requires i < 5
    ensures Less(KEYS[i], KEYS[i+1])
  {
    hide Less;
    LessAt("action", "actorId", 3);
    LessAt("actorId", "auditEventId", 1);
    LessAt("auditEventId", "authorizedChanges", 2);
    LessAt("authorizedChanges", "batchId", 0);
    LessAt("batchId", "businessDate", 1);
  }

  lemma KeysAdjacentMiddle(i: nat)
    requires 5 <= i < 9
    ensures Less(KEYS[i], KEYS[i+1])
  {
    hide Less;
    LessAt("businessDate", "correlationId", 0);
    LessAt("correlationId", "documentReferenceId", 0);
    LessAt("documentReferenceId", "justification", 0);
    LessAt("justification", "occurredAt", 0);
  }

  lemma KeysAdjacentHigh(i: nat)
    requires 9 <= i < 14
    ensures Less(KEYS[i], KEYS[i+1])
  {
    hide Less;
    LessAt("occurredAt", "outcome", 1);
    LessAt("outcome", "previousHash", 0);
    LessAt("previousHash", "resourceId", 0);
    LessAt("resourceId", "resourceType", 8);
    LessAt("resourceType", "runId", 1);
  }

  lemma KeysAdjacentTop(i: nat)
    requires 14 <= i < 18
    ensures Less(KEYS[i], KEYS[i+1])
  {
    hide Less;
    LessAt("runId", "sessionId", 0);
    LessAt("sessionId", "sourceAddress", 1);
    LessAt("sourceAddress", "sourceApplication", 7);
    LessAt("sourceApplication", "technicalIdentity", 0);
  }

  lemma {:induction false} KeysAscend(i: nat, j: nat)
    requires i < j < |KEYS|
    ensures Less(KEYS[i], KEYS[j]) && KEYS[i] != KEYS[j]
    decreases j
  {
    hide Less;
    KeysAdjacent(j - 1);
    if i < j - 1 {
      KeysAscend(i, j - 1);
      LessTransitive(KEYS[i], KEYS[j-1], KEYS[j]);
    }
    LessIrreflexive(KEYS[i]);
  }

  /** Objects with the same distinct keys are the same exactly when they agree key by key. */
  lemma {:induction false} SameKeyByKey(keys: seq<string>, v: seq<Json>, w: seq<Json>)
    requires |keys| == |v| == |w| && forall i, j :: 0 <= i < j < |keys| ==> keys[i] != keys[j]
    ensures Same(Obj(Keyed(keys, v)), Obj(Keyed(keys, w))) <==> forall i :: 0 <= i < |keys| ==> Same(v[i], w[i])
  {
    var f, g := Keyed(keys, v), Keyed(keys, w);
    SameIsForthAndBack(f, g);
    if Same(Obj(f), Obj(g)) {
      forall i | 0 <= i < |keys| ensures Same(v[i], w[i]) {
        assert Forth(f, g) && Back(f, g);
        if IsDefined(f[i]) {
          var j :| 0 <= j < |g| && SameEntry(f[i], g[j]);
          assert j == i;
        } else if IsDefined(g[i]) {
          var j :| 0 <= j < |f| && SameEntry(f[j], g[i]);
          assert j == i;
        }
      }
    }
    if forall i :: 0 <= i < |keys| ==> Same(v[i], w[i]) {
      forall i | 0 <= i < |keys| ensures SameEntry(f[i], g[i]) {}
    }
  }

  lemma {:induction false} SameOptional(a: Option<string>, b: Option<string>)
    ensures Same(Optional(a), Optional(b)) <==> a == b
    ensures Same(Nullable(a), Nullable(b)) <==> a == b
  {}

  lemma {:induction false} SameText(a: string, b: string)
    ensures Same(Str(a), Str(b)) <==> a == b
  {}

  lemma {:induction false} SameValues(a: Draft, p: Option<string>, b: Draft, q: Option<string>)
    ensures (forall i :: 0 <= i < |KEYS| ==> Same(Values(a, p)[i], Values(b, q)[i])) <==> SameDraft(a, b) && p == q
  {
    hide Same;
    SameFirst(a, p, b, q);
    SameSecond(a, p, b, q);
    SameThird(a, p, b, q);
    AllInThree(Values(a, p), Values(b, q));
  }

  ghost predicate AllSame(v: seq<Json>, w: seq<Json>, from: nat, to: nat)
    requires to <= |v| == |w|
  {
    forall i :: from <= i < to ==> Same(v[i], w[i])
  }

  lemma {:induction false} AllInThree(v: seq<Json>, w: seq<Json>)
    requires |v| == |w| == |KEYS|
    ensures (forall i :: 0 <= i < |KEYS| ==> Same(v[i], w[i])) <==>
            AllSame(v, w, 0, 7) && AllSame(v, w, 7, 13) && AllSame(v, w, 13, 19)
  {
    hide Same;
  }

  lemma {:induction false} SameFirst(a: Draft, p: Option<string>, b: Draft, q: Option<string>)
    ensures AllSame(Values(a, p), Values(b, q), 0, 7) <==>
            a.action == b.action && a.actorId == b.actorId && a.auditEventId == b.auditEventId && a.batchId == b.batchId
            && Same(Changes(a.authorizedChanges), Changes(b.authorizedChanges))
            && a.businessDate == b.businessDate && a.correlationId == b.correlationId
  {
    hide Same, Changes, Optional, Nullable;
    var v, w := Values(a, p), Values(b, q);
    SameText(a.action, b.action);
    SameText(a.actorId, b.actorId);
    SameText(a.auditEventId, b.auditEventId);
    SameOptional(a.batchId, b.batchId);
    SameText(a.businessDate, b.businessDate);
    SameText(a.correlationId, b.correlationId);
    SevenAre(v, w, 0);
  }

  lemma {:induction false} SameSecond(a: Draft, p: Option<string>, b: Draft, q: Option<string>)
    ensures AllSame(Values(a, p), Values(b, q), 7, 13) <==>
            a.documentReferenceId == b.documentReferenceId && a.justification == b.justification &&
            a.occurredAt == b.occurredAt
            && a.outcome == b.outcome && p == q && a.resourceId == b.resourceId
  {
    hide Same, Changes, Optional, Nullable, OutcomeText;
    var v, w := Values(a, p), Values(b, q);
    SameOptional(a.documentReferenceId, b.documentReferenceId);
    SameOptional(a.justification, b.justification);
    SameText(a.occurredAt, b.occurredAt);
    OutcomeTexts(a.outcome, b.outcome);
    SameText(OutcomeText(a.outcome), OutcomeText(b.outcome));
    SameOptional(p, q);
    SameText(a.resourceId, b.resourceId);
    SixAre(v, w, 7);
  }

  lemma {:induction false} SameThird(a: Draft, p: Option<string>, b: Draft, q: Option<string>)
    ensures AllSame(Values(a, p), Values(b, q), 13, 19) <==>
            a.resourceType == b.resourceType && a.runId == b.runId && a.sessionId == b.sessionId
            && a.sourceAddress == b.sourceAddress && a.sourceApplication == b.sourceApplication
            && a.technicalIdentity == b.technicalIdentity
  {
    hide Same, Changes, Optional, Nullable;
    var v, w := Values(a, p), Values(b, q);
    SameText(a.resourceType, b.resourceType);
    SameOptional(a.runId, b.runId);
    SameOptional(a.sessionId, b.sessionId);
    SameOptional(a.sourceAddress, b.sourceAddress);
    SameText(a.sourceApplication, b.sourceApplication);
    SameText(a.technicalIdentity, b.technicalIdentity);
    SixAre(v, w, 13);
  }

  lemma {:induction false} SixAre(v: seq<Json>, w: seq<Json>, k: nat)
    requires k + 6 <= |v| == |w|
    ensures AllSame(v, w, k, k + 6) <==>
            Same(v[k], w[k]) && Same(v[k+1], w[k+1]) && Same(v[k+2], w[k+2]) && Same(v[k+3], w[k+3])
            && Same(v[k+4], w[k+4]) && Same(v[k+5], w[k+5])
  {
    hide Same;
  }

  lemma {:induction false} SevenAre(v: seq<Json>, w: seq<Json>, k: nat)
    requires k + 7 <= |v| == |w|
    ensures AllSame(v, w, k, k + 7) <==>
            Same(v[k], w[k]) && Same(v[k+1], w[k+1]) && Same(v[k+2], w[k+2]) && Same(v[k+3], w[k+3])
            && Same(v[k+4], w[k+4]) && Same(v[k+5], w[k+5]) && Same(v[k+6], w[k+6])
  {
    hide Same;
  }

  lemma OutcomeTexts(a: Outcome, b: Outcome)
    ensures OutcomeText(a) == OutcomeText(b) <==> a == b
  {
    assert OutcomeText(a)[0] == OutcomeText(b)[0] <==> a == b;
  }

  lemma {:induction false} PayloadIsValue(d: Draft, p: Option<string>)
    requires WellFormedDraft(d)
    ensures WellFormed(Payload(d, p))
    ensures Supported(Payload(d, p)) <==> Hashable(d)
  {
    hide Less, KEYS;
    var v := Values(d, p);
    var f := Keyed(KEYS, v);
    PlainValues(d, p);
    forall i, j | 0 <= i < j < |f| ensures f[i].key != f[j].key { KeysAscend(i, j); }
    forall i | 0 <= i < |f| ensures WellFormed(f[i].value) {}
    if Hashable(d) {
      forall i | 0 <= i < |f| ensures f[i].value.Undefined? || Supported(f[i].value) {}
    }
    if Supported(Payload(d, p)) { assert f[3].value == v[3]; }
  }

  /** All values of the payload but the recorded changes are texts, null or undefined. */
  lemma {:induction false} PlainValues(d: Draft, p: Option<string>)
    ensures |Values(d, p)| == 19 && Values(d, p)[3] == Changes(d.authorizedChanges)
    ensures forall i :: 0 <= i < 19 && i != 3 ==>
            Values(d, p)[i].Str? || Values(d, p)[i].Undefined? || Values(d, p)[i].Null?
  {}

  lemma {:induction false} HashableIs(sha: string -> string, d: Draft, p: Option<string>)
    requires WellFormedDraft(d)
    ensures Hash(sha, d, p).Some? <==> Hashable(d)
  {
    hide Canonical, Values, WellFormed, Supported, WellFormedDraft;
    PayloadIsValue(d, p);
    CanonicalIsFaithful(Payload(d, p), Payload(d, p));
  }

  /** Two drafts hash alike, each after its predecessor, exactly when their contents are the same, up to
      the order of keys in the recorded changes, and they follow the same predecessor hash. */
  lemma {:induction false} HashIsFaithful(sha: string -> string, a: Draft, p: Option<string>, b: Draft,
                                          q: Option<string>)
    requires Injective(sha) && WellFormedDraft(a) && WellFormedDraft(b)
    requires Hashable(a) && Hashable(b)
    ensures Hash(sha, a, p).Some? && Hash(sha, b, q).Some?
    ensures Hash(sha, a, p) == Hash(sha, b, q) <==> SameDraft(a, b) && p == q
  {
    hide Canonical, Values, Same, WellFormed, Supported, SameDraft, WellFormedDraft;
    PayloadIsValue(a, p);
    PayloadIsValue(b, q);
    CanonicalIsFaithful(Payload(a, p), Payload(b, q));
    CanonicalIsFaithful(Payload(b, q), Payload(a, p));
    forall i, j | 0 <= i < j < |KEYS| ensures KEYS[i] != KEYS[j] { KeysAscend(i, j); }
    SameKeyByKey(KEYS, Values(a, p), Values(b, q));
    SameValues(a, p, b, q);
  }

  // ----- What is hashed -----

  ghost predicate HoldsText(ms: seq<Member>, key: string, text: string) { Member(key, StrD(text)) in ms }

  ghost predicate HoldsOptional(ms: seq<Member>, key: string, text: Option<string>) {
    match text
    case Some(t) => HoldsText(ms, key, t)
    case None => forall m <- ms :: m.key != key
  }

  /** The members that stem from the payload. */
  ghost predicate StemFrom(ms: seq<Member>, d: Draft, p: Option<string>) {
    forall m :: m in ms <==> exists j :: 0 <= j < |KEYS| && Stems(m, Keyed(KEYS, Values(d, p))[j])
  }

  lemma {:induction false} ValueIsHeld(d: Draft, p: Option<string>, ms: seq<Member>, i: nat, key: string, v: Json)
    requires i < |KEYS| && StemFrom(ms, d, p) && KEYS[i] == key && Values(d, p)[i] == v
    ensures v.Undefined? ==> forall m <- ms :: m.key != key
    ensures !v.Undefined? && Normal(v).Some? ==> Member(key, Normal(v).value) in ms
  {
    hide KEYS, Values;
    var f := Keyed(KEYS, Values(d, p));
    if v.Undefined? {
      forall m | m in ms ensures m.key != KEYS[i] {
        var j :| 0 <= j < |KEYS| && Stems(m, f[j]);
        if j < i { KeysAscend(j, i); } else if i < j { KeysAscend(i, j); }
      }
    } else if Normal(v).Some? {
      assert Stems(Member(key, Normal(v).value), f[i]);
    }
  }

  lemma {:induction false} TextIsHeld(d: Draft, p: Option<string>, ms: seq<Member>, i: nat, key: string, t: string)
    requires i < |KEYS| && StemFrom(ms, d, p) && KEYS[i] == key && Values(d, p)[i] == Str(t)
    ensures HoldsText(ms, key, t)
  {
    hide KEYS, Values, StemFrom;
    ValueIsHeld(d, p, ms, i, key, Str(t));
  }

  lemma {:induction false} OptionIsHeld(d: Draft, p: Option<string>, ms: seq<Member>, i: nat, key: string,
                                        t: Option<string>)
    requires i < |KEYS| && StemFrom(ms, d, p) && KEYS[i] == key && Values(d, p)[i] == Optional(t)
    ensures HoldsOptional(ms, key, t)
  {
    hide KEYS, Values, StemFrom;
    ValueIsHeld(d, p, ms, i, key, Optional(t));
  }

  /** The members of a payload, by name. */
  ghost predicate HoldsDraft(ms: seq<Member>, d: Draft, p: Option<string>) {
    HoldsNames(ms, d) && HoldsWork(ms, d, p) && HoldsSurroundings(ms, d)
  }

  ghost predicate HoldsChanges(ms: seq<Member>, changes: Option<seq<Field>>) {
    match changes
    case None => HoldsOptional(ms, "authorizedChanges", None)
    case Some(fields) => Normal(Obj(fields)).Some? && Member("authorizedChanges", Normal(Obj(fields)).value) in ms
  }

  ghost predicate HoldsPrevious(ms: seq<Member>, p: Option<string>) {
    match p case None => Member("previousHash", NullD) in ms case Some(h) => HoldsText(ms, "previousHash", h)
  }

  ghost predicate HoldsNames(ms: seq<Member>, d: Draft) {
    && HoldsText(ms, "action", d.action) && HoldsText(ms, "actorId", d.actorId)
    && HoldsText(ms, "auditEventId", d.auditEventId) && HoldsOptional(ms, "batchId", d.batchId)
    && HoldsText(ms, "businessDate", d.businessDate)
    && HoldsChanges(ms, d.authorizedChanges)
  }

  ghost predicate HoldsWork(ms: seq<Member>, d: Draft, p: Option<string>) {
    && HoldsText(ms, "correlationId", d.correlationId)
    && HoldsOptional(ms, "documentReferenceId", d.documentReferenceId)
    && HoldsOptional(ms, "justification", d.justification) && HoldsText(ms, "occurredAt", d.occurredAt)
    && HoldsText(ms, "outcome",
                 match d.outcome case Success => "SUCCESS" case Denied => "DENIED" case Failure => "FAILURE")
    && HoldsPrevious(ms, p)
  }

  ghost predicate HoldsSurroundings(ms: seq<Member>, d: Draft) {
    && HoldsText(ms, "resourceId", d.resourceId) && HoldsText(ms, "resourceType", d.resourceType)
    && HoldsOptional(ms, "runId", d.runId) && HoldsOptional(ms, "sessionId", d.sessionId)
    && HoldsOptional(ms, "sourceAddress", d.sourceAddress)
    && HoldsText(ms, "sourceApplication", d.sourceApplication)
    && HoldsText(ms, "technicalIdentity", d.technicalIdentity)
  }

  /** The text that is hashed reads back as an object in ascending order of its keys, which holds every part of the
      draft and the hash of the event before under its own name, and nothing under the names of absent parts. */
  lemma {:induction false} HashedTextHolds(sha: string -> string, d: Draft, p: Option<string>)
    requires WellFormedDraft(d) && Hashable(d)
    ensures Normal(Payload(d, p)).Some? && Normal(Payload(d, p)).value.ObjD?
    ensures var text, ms := Canonical(Payload(d, p)), Normal(Payload(d, p)).value.members;
            && text.Some? && Hash(sha, d, p) == Some(sha(text.value))
            && JsonGrammar.Parse(text.value) == Some((ObjD(ms), ""))
            && (forall i, j :: 0 <= i < j < |ms| ==> Less(ms[i].key, ms[j].key)) && HoldsDraft(ms, d, p)
  {
    hide Canonical, Values, WellFormed, Supported, Stems, JsonGrammar.Parse, KEYS, Normal, HoldsDraft;
    PayloadIsValue(d, p);
    ParseObjectText(Keyed(KEYS, Values(d, p)));
    DraftIsHeld(d, p, Normal(Payload(d, p)).value.members);
  }

  lemma {:induction false} ChangesAreHeld(d: Draft, p: Option<string>, ms: seq<Member>)
    requires StemFrom(ms, d, p) && Hashable(d)
    ensures HoldsChanges(ms, d.authorizedChanges)
  {
    hide StemFrom, Normal, Supported;
    ValueIsHeld(d, p, ms, 3, "authorizedChanges", Changes(d.authorizedChanges));
    if d.authorizedChanges.Some? { NormalAccepts(Obj(d.authorizedChanges.value)); }
  }

  lemma {:induction false} PreviousIsHeld(d: Draft, p: Option<string>, ms: seq<Member>)
    requires StemFrom(ms, d, p)
    ensures HoldsPrevious(ms, p)
  {
    hide StemFrom;
    ValueIsHeld(d, p, ms, 11, "previousHash", Nullable(p));
  }

  lemma {:induction false} FirstAreHeld(d: Draft, p: Option<string>, ms: seq<Member>)
    requires StemFrom(ms, d, p) && Hashable(d)
    ensures HoldsNames(ms, d)
  {
    hide StemFrom, Normal, HoldsText, HoldsOptional, HoldsChanges, Hashable;
    TextIsHeld(d, p, ms, 0, "action", d.action);
    TextIsHeld(d, p, ms, 1, "actorId", d.actorId);
    TextIsHeld(d, p, ms, 2, "auditEventId", d.auditEventId);
    OptionIsHeld(d, p, ms, 4, "batchId", d.batchId);
    TextIsHeld(d, p, ms, 5, "businessDate", d.businessDate);
    ChangesAreHeld(d, p, ms);
  }

  lemma {:induction false} SecondAreHeld(d: Draft, p: Option<string>, ms: seq<Member>)
    requires StemFrom(ms, d, p)
    ensures HoldsWork(ms, d, p)
  {
    hide StemFrom, Normal, HoldsText, HoldsOptional, HoldsPrevious;
    TextIsHeld(d, p, ms, 6, "correlationId", d.correlationId);
    OptionIsHeld(d, p, ms, 7, "documentReferenceId", d.documentReferenceId);
    OptionIsHeld(d, p, ms, 8, "justification", d.justification);
    TextIsHeld(d, p, ms, 9, "occurredAt", d.occurredAt);
    TextIsHeld(d, p, ms, 10, "outcome", OutcomeText(d.outcome));
    PreviousIsHeld(d, p, ms);
  }

  lemma {:induction false} ThirdAreHeld(d: Draft, p: Option<string>, ms: seq<Member>)
    requires StemFrom(ms, d, p)
    ensures HoldsSurroundings(ms, d)
  {
    hide StemFrom, Normal, HoldsText, HoldsOptional;
    TextIsHeld(d, p, ms, 12, "resourceId", d.resourceId);
    TextIsHeld(d, p, ms, 13, "resourceType", d.resourceType);
    OptionIsHeld(d, p, ms, 14, "runId", d.runId);
    OptionIsHeld(d, p, ms, 15, "sessionId", d.sessionId);
    OptionIsHeld(d, p, ms, 16, "sourceAddress", d.sourceAddress);
    TextIsHeld(d, p, ms, 17, "sourceApplication", d.sourceApplication);
    TextIsHeld(d, p, ms, 18, "technicalIdentity", d.technicalIdentity);
  }

  lemma {:induction false} DraftIsHeld(d: Draft, p: Option<string>, ms: seq<Member>)
    requires Hashable(d) && StemFrom(ms, d, p)
    ensures HoldsDraft(ms, d, p)
  {
    hide StemFrom, HoldsNames, HoldsWork, HoldsSurroundings, Hashable;
    FirstAreHeld(d, p, ms);
    SecondAreHeld(d, p, ms);
    ThirdAreHeld(d, p, ms);
  }
}

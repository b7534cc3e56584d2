/** Appending to the audit chain and verifying a window of it. The table is a sequence in append order. */
module AuditTrail {
  import opened Wrappers
  import opened Texts
  import opened CanonicalJson
  import opened JsonEquality
  import opened AuditChain

  // ----- Appending -----

  /** How the columns of audit.event give texts back: the normal forms of uuid, inet, timestamptz, date
      and jsonb values. */
  datatype Columns = Columns(uuid: string -> string, inet: string -> string, timestamp: string -> string,
                             date: string -> string, json: seq<Field> -> seq<Field>)

  type Log = seq<Event>

  datatype AppendError = IdentifierReused | UnsupportedValue | EmptySignature

  /** The position of the row with this identifier, the length of the log when there is none. */
  function Position(c: Columns, log: Log, id: string): (r: nat)
    ensures r <= |log|
    ensures r < |log| ==> c.uuid(log[r].draft.auditEventId) == c.uuid(id)
    ensures forall i :: 0 <= i < r ==> c.uuid(log[i].draft.auditEventId) != c.uuid(id)
  {
    if log == [] || c.uuid(log[0].draft.auditEventId) == c.uuid(id) then 0 else 1 + Position(c, log[1..], id)
  }

  function PreviousHash(log: Log, i: nat): Option<string>
    requires i <= |log|
  {
    if i == 0 then None else Some(log[i-1].eventHash)
  }

  function Append(sha: string -> string, c: Columns, log: Log, draft: Draft, keyId: string, signature: string)
    : Result<(Event, Log), AppendError>
  {
    var k := Position(c, log, draft.auditEventId);
    if k < |log| then
      match Hash(sha, draft, log[k].previousHash)
      case None => Err(UnsupportedValue)
      case Some(hash) =>
        if hash != log[k].eventHash then Err(IdentifierReused) else Ok((log[k].(draft := draft), log))
    else
      match Hash(sha, draft, PreviousHash(log, |log|))
      case None => Err(UnsupportedValue)
      case Some(hash) =>
        if signature == "" then Err(EmptySignature) else
          var event := Event(draft, PreviousHash(log, |log|), hash, keyId, signature);
          Ok((event, log + [event]))
  }

  class PostgresAuditRepository {
    const sha: string -> string
    const columns: Columns
    var log: Log

    constructor (sha: string -> string, columns: Columns)
      ensures this.sha == sha && this.columns == columns && log == []
    {
      this.sha := sha;
      this.columns := columns;
      log := [];
    }

    /** One append under the advisory lock; a refusal rolls back. */
    method AppendEvent(draft: Draft, keyId: string, signature: string) returns (result: Result<Event, AppendError>)
      modifies this
      ensures match Append(sha, columns, old(log), draft, keyId, signature)
              case Ok((event, extended)) => result == Ok(event) && log == extended
              case Err(error) => result == Err(error) && log == old(log)
    {
      var k := Position(columns, log, draft.auditEventId);
      if k < |log| {
        var existing := log[k];
        var hash := Hash(sha, draft, existing.previousHash);
        if hash.None? { return Err(UnsupportedValue); }
        if hash.value != existing.eventHash { return Err(IdentifierReused); }
        return Ok(existing.(draft := draft));
      }
      var previous := if log == [] then None else Some(log[|log| - 1].eventHash);
      var hash := Hash(sha, draft, previous);
      if hash.None? { return Err(UnsupportedValue); }
      if signature == "" { return Err(EmptySignature); }
      var event := Event(draft, previous, hash.value, keyId, signature);
      log := log + [event];
      result := Ok(event);
    }
  }

  // ----- What appending keeps -----

  ghost predicate Linked(sha: string -> string, log: Log, i: nat)
    requires i < |log|
  {
    && WellFormedDraft(log[i].draft)
    && log[i].previousHash == PreviousHash(log, i)
    && Hash(sha, log[i].draft, log[i].previousHash) == Some(log[i].eventHash)
  }

  /** Every event is hashed correctly and after the one before it; identifiers are not repeated. */
  ghost predicate IsChain(sha: string -> string, c: Columns, log: Log) {
    && (forall i :: 0 <= i < |log| ==> Linked(sha, log, i))
    && (forall i, j :: 0 <= i < j < |log| ==> c.uuid(log[i].draft.auditEventId) != c.uuid(log[j].draft.auditEventId))
  }

  /** An append keeps the chain and every earlier event, and leaves exactly one event with the
      identifier, whose content is the draft's and whose hash is the answer. */
  lemma {:induction false} AppendKeepsChain(sha: string -> string, c: Columns, log: Log, draft: Draft, keyId: string,
                                            signature: string)
    requires Injective(sha) && IsChain(sha, c, log) && WellFormedDraft(draft)
    requires Append(sha, c, log, draft, keyId, signature).Ok?
    ensures var (event, extended) := Append(sha, c, log, draft, keyId, signature).value;
            && IsChain(sha, c, extended) && log <= extended && |extended| <= |log| + 1
            && var k := Position(c, extended, draft.auditEventId);
               k < |extended| && SameDraft(draft, extended[k].draft) && extended[k].eventHash == event.eventHash
  {
    hide Hash, WellFormedDraft, SameDraft, Injective, Hashable;
    var (event, extended) := Append(sha, c, log, draft, keyId, signature).value;
    var k := Position(c, log, draft.auditEventId);
    HashableIs(sha, draft, event.previousHash);
    if k < |log| {
      assert Linked(sha, log, k);
      HashableIs(sha, log[k].draft, log[k].previousHash);
      HashIsFaithful(sha, draft, log[k].previousHash, log[k].draft, log[k].previousHash);
    } else {
      forall i | 0 <= i < |extended| ensures Linked(sha, extended, i) {
        assert i < |log| ==> Linked(sha, log, i);
      }
      assert extended[|log|] == event;
      HashIsFaithful(sha, draft, event.previousHash, draft, event.previousHash);
    }
  }

  /** An append succeeds exactly when the changes can be hashed and either the identifier is on record with this very
      content, or it is new and the signature is not empty. Then the new event stands last, with the draft, the key
      and the signature given. */
  lemma {:induction false} AppendSucceedsExactly(sha: string -> string, c: Columns, log: Log, draft: Draft,
                                                 keyId: string, signature: string)
    requires Injective(sha) && IsChain(sha, c, log) && WellFormedDraft(draft)
    ensures var known := exists k :: 0 <= k < |log| && c.uuid(log[k].draft.auditEventId) == c.uuid(draft.auditEventId);
            var r := Append(sha, c, log, draft, keyId, signature);
            && (r.Ok? <==> && Hashable(draft)
                           && if known then exists k :: 0 <= k < |log| && SameDraft(draft, log[k].draft)
                                                     && c.uuid(log[k].draft.auditEventId) == c.uuid(draft.auditEventId)
                              else signature != "")
            && (r.Ok? && known ==> r.value.1 == log)
            && (r.Ok? && !known ==>
                  && |r.value.1| == |log| + 1 && log <= r.value.1 && r.value.0 == r.value.1[|log|]
                  && r.value.0.draft == draft && r.value.0.signingKeyId == keyId && r.value.0.signature == signature)
  {
    hide Hash, WellFormedDraft, Injective, Hashable, SameDraft;
    var k := Position(c, log, draft.auditEventId);
    HashableIs(sha, draft, PreviousHash(log, |log|));
    if k < |log| {
      HashableIs(sha, draft, log[k].previousHash);
      assert Linked(sha, log, k);
      HashableIs(sha, log[k].draft, log[k].previousHash);
      if Hashable(draft) {
        HashIsFaithful(sha, draft, log[k].previousHash, log[k].draft, log[k].previousHash);
      }
      forall j | 0 <= j < |log| && c.uuid(log[j].draft.auditEventId) == c.uuid(draft.auditEventId) ensures j == k {}
    }
  }

  /** A repeated append, with the changes in any key order, answers the same hash and changes nothing. */
  lemma {:induction false} AppendIsIdempotent(sha: string -> string, c: Columns, log: Log, draft: Draft,
                                              keyId: string, signature: string,
                           again: Draft, keyId': string, signature': string)
    requires Injective(sha) && IsChain(sha, c, log) && WellFormedDraft(draft) && WellFormedDraft(again)
    requires SameDraft(again, draft) && Hashable(again)
    requires Append(sha, c, log, draft, keyId, signature).Ok?
    ensures var (event, extended) := Append(sha, c, log, draft, keyId, signature).value;
            var repeat := Append(sha, c, extended, again, keyId', signature');
            repeat.Ok? && repeat.value.1 == extended && repeat.value.0.eventHash == event.eventHash
  {
    hide Hash, WellFormedDraft, Injective, Hashable, Same;
    var (event, extended) := Append(sha, c, log, draft, keyId, signature).value;
    AppendKeepsChain(sha, c, log, draft, keyId, signature);
    var k := Position(c, extended, draft.auditEventId);
    var p := extended[k].previousHash;
    assert again.auditEventId == draft.auditEventId;
    assert Linked(sha, extended, k);
    HashableIs(sha, draft, event.previousHash);
    HashableIs(sha, extended[k].draft, p);
    HashIsFaithful(sha, draft, p, extended[k].draft, p);
    HashIsFaithful(sha, again, p, draft, p);
  }

  /** An append is refused as a reused identifier exactly when the row of that identifier has another content. */
  lemma {:induction false} ReuseIsAnotherContent(sha: string -> string, c: Columns, log: Log, draft: Draft,
                                                 keyId: string, signature: string)
    requires Injective(sha) && IsChain(sha, c, log) && WellFormedDraft(draft) && Hashable(draft)
    ensures Append(sha, c, log, draft, keyId, signature) == Err(IdentifierReused) <==>
            var k := Position(c, log, draft.auditEventId); k < |log| && !SameDraft(draft, log[k].draft)
  {
    hide Hash, WellFormedDraft, Injective, Hashable, SameDraft;
    var k := Position(c, log, draft.auditEventId);
    HashableIs(sha, draft, PreviousHash(log, |log|));
    if k < |log| {
      assert Linked(sha, log, k);
      HashableIs(sha, log[k].draft, log[k].previousHash);
      HashIsFaithful(sha, draft, log[k].previousHash, log[k].draft, log[k].previousHash);
    }
  }

  /** No two events share a hash, so the unique columns of the table never refuse an append. */
  lemma {:induction false} HashesAreDistinct(sha: string -> string, c: Columns, log: Log, i: nat, j: nat)
    requires Injective(sha) && IsChain(sha, c, log) && i < j < |log|
    ensures log[i].eventHash != log[j].eventHash
    ensures log[i].previousHash != log[j].previousHash
    decreases j
  {
    hide Hash, WellFormedDraft, Injective, Hashable, Same;
    assert Linked(sha, log, i) && Linked(sha, log, j);
    HashableIs(sha, log[i].draft, log[i].previousHash);
    HashableIs(sha, log[j].draft, log[j].previousHash);
    HashIsFaithful(sha, log[i].draft, log[i].previousHash, log[j].draft, log[j].previousHash);
    if i > 0 { HashesAreDistinct(sha, c, log, i - 1, j - 1); }
  }
}

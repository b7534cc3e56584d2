/** Percentages of an asset allocated to pools over half-open periods. The concurrent percentage is
    examined at finitely many dates only: the start of the requested period and the starts of the
    allocations that overlap it. Dates are day numbers, percentages count units of 10^-6 percent. Identifiers
    are texts: uuid gives back the text that a uuid column shows for the one it was given. */
module AssetAllocation {
  import opened Wrappers
  import opened Sums
  import opened Texts

  const WHOLE: nat := 100_000_000

  /** A percentage as it is written: its units and the number of fraction digits shown. */
  datatype Percentage = Percentage(units: int, fractionDigits: nat)

  datatype Allocation = Allocation(allocationId: string, assetId: string, poolId: string, percentage: Percentage,
                                   from: int, to: Option<int>, justification: string, approvalId: Option<string>)

  datatype Version = Version(value: Allocation, key: string)

  predicate ActiveAt(a: Allocation, assetId: string, date: int) {
    a.assetId == assetId && a.from <= date && (a.to.None? || date < a.to.value)
  }

  predicate Overlaps(a: Allocation, assetId: string, from: int, to: Option<int>) {
    a.assetId == assetId && (to.None? || a.from < to.value) && (a.to.None? || a.to.value > from)
  }

  predicate Within(date: int, from: int, to: Option<int>) { from <= date && (to.None? || date < to.value) }

  /** The percentage allocated on one date. */
  function AllocatedOn(versions: seq<Version>, assetId: string, date: int): int {
    if versions == [] then 0 else
      (if ActiveAt(versions[0].value, assetId, date) then versions[0].value.percentage.units else 0)
      + AllocatedOn(versions[1..], assetId, date)
  }

  function Max(a: int, b: int): int { if a >= b then a else b }

  /** The greatest percentage at the start of the period and at the starts of overlapping allocations. */
  function Sweep(all: seq<Version>, rest: seq<Version>, assetId: string, from: int, to: Option<int>): int {
    if rest == [] then AllocatedOn(all, assetId, from) else
      var m := Sweep(all, rest[1..], assetId, from, to);
      if Overlaps(rest[0].value, assetId, from, to) then Max(m, AllocatedOn(all, assetId, rest[0].value.from)) else m
  }

  function AllocatedPercentage(versions: seq<Version>, assetId: string, from: int, to: Option<int>): int {
    Sweep(versions, versions, assetId, from, to)
  }

  // ----- Finitely many dates suffice -----

  /** The latest start, not before from, of an allocation active on a date. */
  function LatestStart(versions: seq<Version>, assetId: string, from: int, date: int): (p: int)
    requires from <= date
    ensures from <= p <= date
    ensures p == from || exists v :: v in versions && ActiveAt(v.value, assetId, date) && v.value.from == p
    ensures forall v <- versions :: ActiveAt(v.value, assetId, date) ==> v.value.from <= p
  {
    if versions == [] then from else
      var p := LatestStart(versions[1..], assetId, from, date);
      assert forall v :: v in versions <==> v == versions[0] || v in versions[1..];
      if ActiveAt(versions[0].value, assetId, date) then
        assert versions[0] in versions;
        Max(p, versions[0].value.from)
      else p
  }

  lemma {:induction false} ActiveCarriesOver(versions: seq<Version>, assetId: string, d: int, p: int)
    requires forall v <- versions :: v.value.percentage.units >= 0
    requires forall v <- versions :: ActiveAt(v.value, assetId, d) ==> ActiveAt(v.value, assetId, p)
    ensures AllocatedOn(versions, assetId, d) <= AllocatedOn(versions, assetId, p)
  {
    if versions != [] {
      assert versions[0] in versions && forall v <- versions[1..] :: v in versions;
      ActiveCarriesOver(versions[1..], assetId, d, p);
    }
  }

  lemma {:induction false} SweepCovers(all: seq<Version>, rest: seq<Version>, assetId: string, from: int,
                                       to: Option<int>)
    ensures AllocatedOn(all, assetId, from) <= Sweep(all, rest, assetId, from, to)
    ensures forall v <- rest :: Overlaps(v.value, assetId, from, to) ==>
              AllocatedOn(all, assetId, v.value.from) <= Sweep(all, rest, assetId, from, to)
  {
    if rest != [] {
      SweepCovers(all, rest[1..], assetId, from, to);
      assert forall v <- rest :: v == rest[0] || v in rest[1..];
    }
  }

  /** The swept maximum bounds the allocated percentage on every date of the requested period. */
  lemma SweepBoundsEveryDate(versions: seq<Version>, assetId: string, from: int, to: Option<int>, date: int)
    requires forall v <- versions :: v.value.percentage.units >= 0
    requires Within(date, from, to)
    ensures AllocatedOn(versions, assetId, date) <= AllocatedPercentage(versions, assetId, from, to)
  {
    var p := LatestStart(versions, assetId, from, date);
    ActiveCarriesOver(versions, assetId, date, p);
    SweepCovers(versions, versions, assetId, from, to);
  }

  /** It is the percentage at one of the examined dates. */
  lemma {:induction false} SweepIsAttained(all: seq<Version>, rest: seq<Version>, assetId: string, from: int,
                                           to: Option<int>)
    ensures Sweep(all, rest, assetId, from, to) == AllocatedOn(all, assetId, from)
            || exists v ::
                 && v in rest && Overlaps(v.value, assetId, from, to)
                 && Sweep(all, rest, assetId, from, to) == AllocatedOn(all, assetId, v.value.from)
  {
    if rest != [] {
      SweepIsAttained(all, rest[1..], assetId, from, to);
      assert rest[0] in rest && forall v <- rest[1..] :: v in rest;
    }
  }

  /** A request fits exactly when it fits on every examined date, those before the period included. */
  lemma FitsExactly(versions: seq<Version>, assetId: string, from: int, to: Option<int>, units: int)
    ensures AllocatedPercentage(versions, assetId, from, to) + units <= WHOLE <==>
            (AllocatedOn(versions, assetId, from) + units <= WHOLE
            && forall v <- versions :: Overlaps(v.value, assetId, from, to) ==>
               AllocatedOn(versions, assetId, v.value.from) + units <= WHOLE)
  {
    SweepCovers(versions, versions, assetId, from, to);
    SweepIsAttained(versions, versions, assetId, from, to);
  }

  // ----- Commands -----

  datatype Refusal =
    | AssetNotFound | InvalidPeriod | MissingJustification | InvalidPercentage | NotPositive | Overallocated
    | AssetIsolated | ApprovalRequired | InvalidKey | IdempotencyConflict | AllocationExists

  datatype Status = Created | Existing

  /** What the other tables say at the moment of the command. */
  datatype Conditions = Conditions(assetExists: bool, anomalyOpen: bool, approvalValid: bool)

  /** The checks of the command against the current percentage, in order. */
  function Check(a: Allocation, current: int): Option<Refusal> {
    if a.to.Some? && a.to.value <= a.from then Some(InvalidPeriod)
    else if |Trim(a.justification)| < 10 then Some(MissingJustification)
    else if a.percentage.fractionDigits > 6 then Some(InvalidPercentage)
    else if a.percentage.units <= 0 then Some(NotPositive)
    else if current + a.percentage.units > WHOLE then Some(Overallocated)
    else None
  }

  predicate SafeChar(c: char) {
    'A' <= c <= 'Z' || 'a' <= c <= 'z' || '0' <= c <= '9' || c == '.' || c == '_' || c == ':' || c == '-'
  }

  predicate ValidKey(key: string) { 16 <= |key| <= 128 && forall c <- key :: SafeChar(c) }

  predicate HasPrior(versions: seq<Version>, assetId: string) {
    exists v :: v in versions && v.value.assetId == assetId
  }

  function WithKey(versions: seq<Version>, key: string): (r: Option<Version>)
    ensures r.Some? ==> r.value in versions && r.value.key == key
    ensures r.None? ==> forall v <- versions :: v.key != key
  {
    if versions == [] then None else if versions[0].key == key then Some(versions[0]) else WithKey(versions[1..], key)
  }

  /** What the columns give back: a percentage of six fraction digits, identifiers in the form of their
      column, dates and texts as they were written. */
  function Stored(uuid: string -> string, a: Allocation): Allocation {
    a.(allocationId := uuid(a.allocationId), assetId := uuid(a.assetId),
       percentage := a.percentage.(fractionDigits := 6))
  }

  /** The allocation is written as the columns give it back. */
  predicate IsWrittenAsStored(uuid: string -> string, a: Allocation) {
    a.percentage.fractionDigits == 6 && uuid(a.allocationId) == a.allocationId && uuid(a.assetId) == a.assetId
  }

  predicate HasAllocation(versions: seq<Version>, allocationId: string) {
    exists v :: v in versions && v.value.allocationId == allocationId
  }

  /** The insert under a trimmed key: its primary key is the allocation identifier. A row of the same key is
      compared, column text by submitted text. */
  function Save(uuid: string -> string, versions: seq<Version>, a: Allocation, key: string)
    : Result<(seq<Version>, Status), Refusal>
  {
    match WithKey(versions, key)
    case None =>
      if HasAllocation(versions, uuid(a.allocationId)) then Err(AllocationExists)
      else Ok((versions + [Version(Stored(uuid, a), key)], Created))
    case Some(v) => if v.value == a then Ok((versions, Existing)) else Err(IdempotencyConflict)
  }

  function Current(uuid: string -> string, versions: seq<Version>, a: Allocation): int {
    AllocatedPercentage(versions, uuid(a.assetId), a.from, a.to)
  }

  function Allocate(uuid: string -> string, versions: seq<Version>, a: Allocation, key: string, conditions: Conditions)
    : Result<(seq<Version>, Status), Refusal>
  {
    var current := Current(uuid, versions, a);
    if !conditions.assetExists then Err(AssetNotFound)
    else if Check(a, current).Some? then Err(Check(a, current).value)
    else if conditions.anomalyOpen then Err(AssetIsolated)
    else if HasPrior(versions, uuid(a.assetId)) && !conditions.approvalValid then Err(ApprovalRequired)
    else if !ValidKey(Trim(key)) then Err(InvalidKey)
    else Save(uuid, versions, a, Trim(key))
  }

  // ----- When a command succeeds -----

  /** What a version takes of an asset on a date: its percentage from its start, up to but not on its end. */
  function Taken(assetId: string, date: int): Version -> int {
    (v: Version) =>
      if v.value.assetId == assetId && v.value.from <= date && (v.value.to == None || v.value.to.value > date) then
        v.value.percentage.units
      else 0
  }

  lemma {:induction false} TakenIsAllocated(versions: seq<Version>, assetId: string, date: int)
    ensures SumBy(Taken(assetId, date), versions) == AllocatedOn(versions, assetId, date)
  {
    if versions != [] { TakenIsAllocated(versions[1..], assetId, date); }
  }

  /** The column constraint on every row: an end follows its start. */
  predicate EndsFollow(versions: seq<Version>) {
    forall v <- versions :: v.value.to.Some? ==> v.value.from < v.value.to.value
  }

  /** Some date lies in both periods. */
  ghost predicate Meets(v: Allocation, from: int, to: Option<int>) {
    exists date :: (v.from <= date && (v.to == None || date < v.to.value)) && Within(date, from, to)
  }

  lemma OverlapsExactly(v: Allocation, assetId: string, from: int, to: Option<int>)
    requires v.to.Some? ==> v.from < v.to.value
    requires to.Some? ==> from < to.value
    ensures Overlaps(v, assetId, from, to) <==> v.assetId == assetId && Meets(v, from, to)
  {
    if Overlaps(v, assetId, from, to) { assert Within(Max(v.from, from), from, to); }
  }

  /** On the first date of the request, and on the start of every version of its asset that meets its period,
      the asset can take the percentage on top of what is taken. */
  ghost predicate CanTake(versions: seq<Version>, assetId: string, from: int, to: Option<int>, units: int) {
    && SumBy(Taken(assetId, from), versions) + units <= 100_000_000
    && forall v <- versions :: v.value.assetId == assetId && Meets(v.value, from, to) ==>
         SumBy(Taken(assetId, v.value.from), versions) + units <= 100_000_000
  }

  lemma CanTakeExactly(versions: seq<Version>, assetId: string, from: int, to: Option<int>, units: int)
    requires EndsFollow(versions) && (to.Some? ==> from < to.value)
    ensures AllocatedPercentage(versions, assetId, from, to) + units <= WHOLE <==>
            CanTake(versions, assetId, from, to, units)
  {
    hide Overlaps, Meets, AllocatedPercentage, Taken;
    FitsExactly(versions, assetId, from, to, units);
    TakenIsAllocated(versions, assetId, from);
    forall v | v in versions
      ensures Overlaps(v.value, assetId, from, to) <==> v.value.assetId == assetId && Meets(v.value, from, to)
      ensures SumBy(Taken(assetId, v.value.from), versions) == AllocatedOn(versions, assetId, v.value.from)
    {
      OverlapsExactly(v.value, assetId, from, to);
      TakenIsAllocated(versions, assetId, v.value.from);
    }
  }

  /** The form of a request: an end after its start, a justification of ten characters, at most six fraction
      digits, more than nothing. */
  predicate IsRequest(a: Allocation) {
    && (a.to.Some? ==> a.from < a.to.value) && |Trim(a.justification)| >= 10
    && a.percentage.fractionDigits <= 6 && a.percentage.units > 0
  }

  predicate IsKey(key: string) {
    16 <= |key| <= 128
    && forall c <- key :: 'A' <= c <= 'Z' || 'a' <= c <= 'z' || '0' <= c <= '9' || c in "._:-"
  }

  /** A command saves a new version if and only if the asset exists, the request has its form, the asset can take
      it, no anomaly is open, an approval is given unless this is the asset's first allocation, and key and
      identifier are new; the version holds what was asked for, as the columns give it back. */
  lemma AllocationSucceedsExactly(uuid: string -> string, versions: seq<Version>, a: Allocation, key: string,
                                  conditions: Conditions)
    requires EndsFollow(versions)
    ensures var r := Allocate(uuid, versions, a, key, conditions);
            (r.Ok? && r.value.1 == Created)
            <==> && conditions.assetExists && !conditions.anomalyOpen && IsRequest(a)
                 && CanTake(versions, uuid(a.assetId), a.from, a.to, a.percentage.units)
                 && (conditions.approvalValid || forall v <- versions :: v.value.assetId != uuid(a.assetId))
                 && IsKey(Trim(key)) && (forall v <- versions :: v.key != Trim(key))
                 && (forall v <- versions :: v.value.allocationId != uuid(a.allocationId))
    ensures var r := Allocate(uuid, versions, a, key, conditions);
            r.Ok? && r.value.1 == Created ==>
              && r.value.0 == versions + [Version(Allocation(uuid(a.allocationId), uuid(a.assetId), a.poolId,
                                                             Percentage(a.percentage.units, 6), a.from, a.to,
                                                             a.justification, a.approvalId), Trim(key))]
              && EndsFollow(r.value.0)
    ensures var r := Allocate(uuid, versions, a, key, conditions);
            r.Ok? && r.value.1 == Existing ==>
              r.value.0 == versions && exists v :: v in versions && v.key == Trim(key) && v.value == a
  {
    hide CanTake, AllocatedPercentage, Trim, IsKey, ValidKey, Sweep;
    KeyExactly(Trim(key));
    if a.to.Some? ==> a.from < a.to.value {
      CanTakeExactly(versions, uuid(a.assetId), a.from, a.to, a.percentage.units);
    }
  }

  /** A refused command is refused for a reason that holds. */
  lemma AllocationRefusalsHold(uuid: string -> string, versions: seq<Version>, a: Allocation, key: string,
                               conditions: Conditions)
    requires EndsFollow(versions) && Allocate(uuid, versions, a, key, conditions).Err?
    ensures match Allocate(uuid, versions, a, key, conditions).error
            case AssetNotFound => !conditions.assetExists
            case InvalidPeriod => a.to.Some? && a.to.value <= a.from
            case MissingJustification => |Trim(a.justification)| < 10
            case InvalidPercentage => a.percentage.fractionDigits > 6
            case NotPositive => a.percentage.units <= 0
            case Overallocated => !CanTake(versions, uuid(a.assetId), a.from, a.to, a.percentage.units)
            case AssetIsolated => conditions.anomalyOpen
            case ApprovalRequired =>
              !conditions.approvalValid && exists v :: v in versions && v.value.assetId == uuid(a.assetId)
            case InvalidKey => !IsKey(Trim(key))
            case IdempotencyConflict => exists v :: v in versions && v.key == Trim(key) && v.value != a
            case AllocationExists => exists v :: v in versions && v.value.allocationId == uuid(a.allocationId)
  {
    hide CanTake, AllocatedPercentage, Trim, IsKey, ValidKey, Sweep;
    KeyExactly(Trim(key));
    if a.to.Some? ==> a.from < a.to.value {
      CanTakeExactly(versions, uuid(a.assetId), a.from, a.to, a.percentage.units);
    }
  }

  lemma KeyExactly(key: string)
    ensures ValidKey(key) <==> IsKey(key)
  {}

  class PostgresAssetAllocationRepository {
    const uuid: string -> string
    var versions: seq<Version>

    constructor (uuid: string -> string)
      ensures this.uuid == uuid && versions == []
    {
      this.uuid := uuid;
      versions := [];
    }

    method SaveVersion(a: Allocation, key: string) returns (result: Result<Status, Refusal>)
      modifies this
      ensures match Save(uuid, old(versions), a, key)
              case Ok((saved, status)) => versions == saved && result == Ok(status)
              case Err(e) => versions == old(versions) && result == Err(e)
    {
      var existing := WithKey(versions, key);
      if existing.None? {
        if HasAllocation(versions, uuid(a.allocationId)) { return Err(AllocationExists); }
        versions := versions + [Version(Stored(uuid, a), key)];
        return Ok(Created);
      }
      result := if existing.value.value == a then Ok(Existing) else Err(IdempotencyConflict);
    }
  }

  class ManageAssetAllocation {
    const repository: PostgresAssetAllocationRepository

    constructor (repository: PostgresAssetAllocationRepository)
      ensures this.repository == repository
    {
      this.repository := repository;
    }

    method AllocateAsset(a: Allocation, key: string, conditions: Conditions) returns (result: Result<Status, Refusal>)
      modifies repository
      ensures match Allocate(repository.uuid, old(repository.versions), a, key, conditions)
              case Ok((saved, status)) => repository.versions == saved && result == Ok(status)
              case Err(e) => repository.versions == old(repository.versions) && result == Err(e)
    {
      var assetId := repository.uuid(a.assetId);
      var current := AllocatedPercentage(repository.versions, assetId, a.from, a.to);
      if !conditions.assetExists { return Err(AssetNotFound); }
      var refusal := Check(a, current);
      if refusal.Some? { return Err(refusal.value); }
      if conditions.anomalyOpen { return Err(AssetIsolated); }
      if HasPrior(repository.versions, assetId) && !conditions.approvalValid { return Err(ApprovalRequired); }
      var normalizedKey := Trim(key);
      if !ValidKey(normalizedKey) { return Err(InvalidKey); }
      result := repository.SaveVersion(a, normalizedKey);
    }
  }

  // ----- Safety of serial commands -----

  /** No asset is allocated more than once over on any date. */
  ghost predicate Safe(versions: seq<Version>) {
    && (forall v <- versions :: v.value.percentage.units >= 0)
    && forall assetId, date :: AllocatedOn(versions, assetId, date) <= WHOLE
  }

  lemma {:induction false} AllocatedOnAppend(versions: seq<Version>, v: Version, assetId: string, date: int)
    ensures AllocatedOn(versions + [v], assetId, date) ==
            AllocatedOn(versions, assetId, date) +
            (if ActiveAt(v.value, assetId, date) then v.value.percentage.units else 0)
  {
    if versions == [] {
      assert versions + [v] == [v];
    } else {
      assert (versions + [v])[1..] == versions[1..] + [v];
      AllocatedOnAppend(versions[1..], v, assetId, date);
    }
  }

  /** A version that fits under the swept maximum keeps every asset at or below its whole on every date. */
  lemma FittingVersionIsSafe(versions: seq<Version>, v: Version)
    requires Safe(versions) && v.value.percentage.units >= 0
    requires AllocatedPercentage(versions, v.value.assetId, v.value.from, v.value.to) +
             v.value.percentage.units <= WHOLE
    ensures Safe(versions + [v])
  {
    forall assetId, date ensures AllocatedOn(versions + [v], assetId, date) <= WHOLE {
      AllocatedOnAppend(versions, v, assetId, date);
      if ActiveAt(v.value, assetId, date) { SweepBoundsEveryDate(versions, assetId, v.value.from, v.value.to, date); }
    }
  }

  datatype Command = Command(allocation: Allocation, key: string, conditions: Conditions)

  function RunAll(uuid: string -> string, versions: seq<Version>, commands: seq<Command>): seq<Version>
    decreases |commands|
  {
    if commands == [] then versions else
      var c := commands[0];
      match Allocate(uuid, versions, c.allocation, c.key, c.conditions)
      case Ok((saved, _)) => RunAll(uuid, saved, commands[1..])
      case Err(_) => RunAll(uuid, versions, commands[1..])
  }

  /** After any serial run of commands no asset exceeds one hundred percent on any date. */
  lemma {:induction false} SerialRunsAreSafe(uuid: string -> string, versions: seq<Version>, commands: seq<Command>)
    requires Safe(versions)
    ensures Safe(RunAll(uuid, versions, commands))
    decreases |commands|
  {
    hide Safe, AllocatedPercentage, Trim, HasAllocation, HasPrior;
    if commands != [] {
      var c := commands[0];
      var r := Allocate(uuid, versions, c.allocation, c.key, c.conditions);
      if r.Ok? {
        if r.value.1 == Created {
          FittingVersionIsSafe(versions, Version(Stored(uuid, c.allocation), Trim(c.key)));
        }
        SerialRunsAreSafe(uuid, r.value.0, commands[1..]);
      } else {
        SerialRunsAreSafe(uuid, versions, commands[1..]);
      }
    }
  }

  // ----- Interleaved commands -----

  /** No date lies in the periods of both requests and sees more than the whole once both are saved. */
  ghost predicate FitTogether(versions: seq<Version>, a: Allocation, b: Allocation) {
    forall date :: ActiveAt(a, a.assetId, date) && ActiveAt(b, a.assetId, date) ==>
      AllocatedOn(versions, a.assetId, date) + a.percentage.units + b.percentage.units <= WHOLE
  }

  lemma AllocatedOnBoth(versions: seq<Version>, v: Version, u: Version, assetId: string, date: int)
    ensures AllocatedOn(versions + [v] + [u], assetId, date) ==
            AllocatedOn(versions, assetId, date)
            + (if ActiveAt(v.value, assetId, date) then v.value.percentage.units else 0)
            + (if ActiveAt(u.value, assetId, date) then u.value.percentage.units else 0)
  {
    AllocatedOnAppend(versions, v, assetId, date);
    AllocatedOnAppend(versions + [v], u, assetId, date);
  }

  lemma {:induction false} AnotherKey(versions: seq<Version>, v: Version, key: string)
    ensures WithKey(versions + [v], key).None? <==> WithKey(versions, key).None? && v.key != key
  {
    if versions == [] {
      assert versions + [v] == [v];
    } else {
      assert (versions + [v])[1..] == versions[1..] + [v];
      AnotherKey(versions[1..], v, key);
    }
  }

  /** Two commands are both saved exactly when their keys and their allocation identifiers, as stored, are new
      and differ. */
  lemma BothAreSavedExactly(uuid: string -> string, versions: seq<Version>, a: Allocation, b: Allocation,
                            keyA: string, keyB: string)
    ensures (exists first, both :: && Save(uuid, versions, a, keyA) == Ok((first, Created))
                                   && Save(uuid, first, b, keyB) == Ok((both, Created)))
            <==> && keyA != keyB && WithKey(versions, keyA).None? && WithKey(versions, keyB).None?
                 && uuid(a.allocationId) != uuid(b.allocationId)
                 && !HasAllocation(versions, uuid(a.allocationId)) && !HasAllocation(versions, uuid(b.allocationId))
  {
    var v, u := Version(Stored(uuid, a), keyA), Version(Stored(uuid, b), keyB);
    var first := versions + [v];
    AnotherKey(versions, v, keyB);
    assert HasAllocation(first, uuid(b.allocationId))
           <==> HasAllocation(versions, uuid(b.allocationId)) || uuid(a.allocationId) == uuid(b.allocationId) by {
      assert first[|versions|] == v;
      assert forall w <- versions :: w in first;
    }
    hide HasAllocation, WithKey;
    if Save(uuid, versions, a, keyA) == Ok((first, Created)) && Save(uuid, first, b, keyB).Ok? {
      assert Save(uuid, first, b, keyB).value.1 == Created ==> Save(uuid, first, b, keyB) == Ok((first + [u], Created));
    }
  }

  /** The check reads before the transaction that saves. Of two commands that both passed it on the same
      versions and are both saved, the result is safe exactly when they fit together. */
  lemma ChecksAloneAreSafeExactly(uuid: string -> string, versions: seq<Version>, a: Allocation, b: Allocation,
                                  keyA: string, keyB: string, first: seq<Version>, both: seq<Version>)
    requires Safe(versions)
    requires Check(a, Current(uuid, versions, a)).None? && Check(b, Current(uuid, versions, b)).None?
    requires Save(uuid, versions, a, keyA) == Ok((first, Created)) && Save(uuid, first, b, keyB) == Ok((both, Created))
    ensures Safe(both) <==> FitTogether(versions, Stored(uuid, a), Stored(uuid, b))
  {
    hide Trim, HasAllocation;
    var x, y := Stored(uuid, a), Stored(uuid, b);
    var v, u := Version(x, keyA), Version(y, keyB);
    assert both == versions + [v] + [u];
    if FitTogether(versions, x, y) {
      forall assetId, date ensures AllocatedOn(both, assetId, date) <= WHOLE {
        AllocatedOnBoth(versions, v, u, assetId, date);
        if ActiveAt(x, assetId, date) { SweepBoundsEveryDate(versions, assetId, a.from, a.to, date); }
        if ActiveAt(y, assetId, date) { SweepBoundsEveryDate(versions, assetId, b.from, b.to, date); }
      }
      assert forall w <- both :: w in versions || w == v || w == u;
    } else {
      var date :| ActiveAt(x, x.assetId, date) && ActiveAt(y, x.assetId, date)
                  && AllocatedOn(versions, x.assetId, date) + x.percentage.units + y.percentage.units > WHOLE;
      AllocatedOnBoth(versions, v, u, x.assetId, date);
      assert AllocatedOn(both, x.assetId, date) > WHOLE;
    }
  }

  /** They need not: 60 and 60 percent of an asset that both saw free. */
  lemma ChecksAloneRace(uuid: string -> string, a: Allocation, b: Allocation, keyA: string, keyB: string)
    requires uuid(a.assetId) == uuid(b.assetId) && uuid(a.allocationId) != uuid(b.allocationId) && keyA != keyB
    requires a.from == b.from && a.to.None? && b.to.None?
    requires a.percentage == b.percentage == Percentage(60_000_000, 6)
    ensures Current(uuid, [], a) + a.percentage.units <= WHOLE
    ensures Save(uuid, [], a, keyA).Ok? && Save(uuid, Save(uuid, [], a, keyA).value.0, b, keyB).Ok?
    ensures AllocatedOn(Save(uuid, Save(uuid, [], a, keyA).value.0, b, keyB).value.0, uuid(a.assetId), a.from) > WHOLE
  {
    var one := [Version(Stored(uuid, a), keyA)];
    assert Save(uuid, [], a, keyA).value.0 == one;
    assert WithKey(one, keyB).None?;
    AllocatedOnAppend(one, Version(Stored(uuid, b), keyB), uuid(a.assetId), a.from);
    assert AllocatedOn(one, uuid(a.assetId), a.from) == 60_000_000 + AllocatedOn([], uuid(a.assetId), a.from);
  }

  /** The insert trigger repeats the sweep inside the transaction, under the lock of the asset. */
  function GuardedSave(uuid: string -> string, versions: seq<Version>, a: Allocation, key: string)
    : Result<(seq<Version>, Status), Refusal>
  {
    match Save(uuid, versions, a, key)
    case Err(e) => Err(e)
    case Ok((saved, Existing)) => Ok((saved, Existing))
    case Ok((saved, Created)) =>
      if Current(uuid, versions, a) + a.percentage.units > WHOLE then Err(Overallocated)
      else Ok((saved, Created))
  }

  /** A save reaches the database any time after its checks, in any order with the others. */
  function SaveAll(uuid: string -> string, versions: seq<Version>, saves: seq<(Allocation, string)>): seq<Version>
    decreases |saves|
  {
    if saves == [] then versions else
      match GuardedSave(uuid, versions, saves[0].0, saves[0].1)
      case Ok((saved, _)) => SaveAll(uuid, saved, saves[1..])
      case Err(_) => SaveAll(uuid, versions, saves[1..])
  }

  /** With the trigger every interleaving of saves is safe, even if their checks read stale versions. */
  lemma {:induction false} GuardedSavesAreSafe(uuid: string -> string, versions: seq<Version>,
                                               saves: seq<(Allocation, string)>)
    requires Safe(versions) && forall s <- saves :: s.0.percentage.units > 0
    ensures Safe(SaveAll(uuid, versions, saves))
    decreases |saves|
  {
    hide Safe, AllocatedPercentage, HasAllocation;
    if saves != [] {
      var (a, key) := saves[0];
      assert saves[0] in saves && forall s <- saves[1..] :: s in saves;
      var r := GuardedSave(uuid, versions, a, key);
      if r.Ok? {
        if r.value.1 == Created { FittingVersionIsSafe(versions, Version(Stored(uuid, a), key)); }
        SaveAllStep(uuid, versions, saves);
        GuardedSavesAreSafe(uuid, r.value.0, saves[1..]);
      } else {
        GuardedSavesAreSafe(uuid, versions, saves[1..]);
      }
    }
  }

  lemma SaveAllStep(uuid: string -> string, versions: seq<Version>, saves: seq<(Allocation, string)>)
    requires saves != [] && GuardedSave(uuid, versions, saves[0].0, saves[0].1).Ok?
    ensures SaveAll(uuid, versions, saves)
            == SaveAll(uuid, GuardedSave(uuid, versions, saves[0].0, saves[0].1).value.0, saves[1..])
  {}

  // ----- Where the checks are not exact -----

  /** The sweep also examines starts before the requested period. A third half is refused although on
      every date of its period only one half is allocated. */
  lemma EarlierStartsRefuse(assetId: string)
    ensures var half := Percentage(50_000_000, 6);
            var versions := [Version(Allocation("c", assetId, "P1", half, 0, Some(3), "", None), "1"),
                             Version(Allocation("a", assetId, "P2", half, 1, Some(10), "", None), "2")];
            && Safe(versions)
            && (forall date :: 8 <= date < 9 ==> AllocatedOn(versions, assetId, date) + 50_000_000 == WHOLE)
            && AllocatedPercentage(versions, assetId, 8, Some(9)) + 50_000_000 > WHOLE
  {
    var half := Percentage(50_000_000, 6);
    var c := Version(Allocation("c", assetId, "P1", half, 0, Some(3), "", None), "1");
    var a := Version(Allocation("a", assetId, "P2", half, 1, Some(10), "", None), "2");
    forall id, date ensures AllocatedOn([c, a], id, date) == AllocatedOn([c], id, date) +
      (if ActiveAt(a.value, id, date) then 50_000_000 else 0) {
      AllocatedOnAppend([c], a, id, date);
      assert [c] + [a] == [c, a];
    }
    assert forall id, date :: AllocatedOn([c], id, date) == if ActiveAt(c.value, id, date) then 50_000_000 else 0;
    SweepCovers([c, a], [c, a], assetId, 8, Some(9));
    assert a in [c, a] && Overlaps(a.value, assetId, 8, Some(9));
    assert AllocatedOn([c, a], assetId, 1) == WHOLE;
  }

  /** The answer to an accepted command repeated with its key: refused when the asset could not take the
      percentage once more, when something isolates it or when no approval is given; then EXISTING if the
      command is written as the columns give it back, a conflict if it is not. */
  lemma ReplayIsExistingExactly(uuid: string -> string, versions: seq<Version>, a: Allocation, key: string,
                                first: Conditions, again: Conditions)
    requires Allocate(uuid, versions, a, key, first).Ok? && Allocate(uuid, versions, a, key, first).value.1 == Created
    requires again.assetExists
    ensures var saved := Allocate(uuid, versions, a, key, first).value.0;
            var repeatable := && Current(uuid, saved, a) + a.percentage.units <= WHOLE
                              && again.approvalValid && !again.anomalyOpen;
            && (Allocate(uuid, saved, a, key, again) == Ok((saved, Existing))
                <==> repeatable && IsWrittenAsStored(uuid, a))
            && (Allocate(uuid, saved, a, key, again) == Err(IdempotencyConflict)
                <==> repeatable && !IsWrittenAsStored(uuid, a))
  {
    hide AllocatedPercentage, Trim, HasAllocation;
    var v := Version(Stored(uuid, a), Trim(key));
    var saved := versions + [v];
    FindAppended(versions, v);
    assert v in saved;
    assert HasPrior(saved, uuid(a.assetId));
  }

  /** The first command for an asset, of at most one half and written in another way than the columns give it
      back, is accepted, and its repetition refused as a conflict. */
  lemma OtherSpellingConflicts(uuid: string -> string, a: Allocation, key: string, approved: Conditions)
    requires Check(a, 0).None? && a.to.None? && 2 * a.percentage.units <= WHOLE && ValidKey(Trim(key))
    requires approved == Conditions(true, false, true) && !IsWrittenAsStored(uuid, a)
    ensures var first := Allocate(uuid, [], a, key, approved);
            && first.Ok? && first.value.1 == Created
            && Allocate(uuid, first.value.0, a, key, approved) == Err(IdempotencyConflict)
  {
    hide Current, Trim, Check, ValidKey, IsWrittenAsStored;
    FirstOfAsset(uuid, a, Trim(key));
    assert [] + [Version(Stored(uuid, a), Trim(key))] == [Version(Stored(uuid, a), Trim(key))];
    ReplayIsExistingExactly(uuid, [], a, key, approved, approved);
  }

  /** Identifiers may be written in capitals, which their column lowers: forty percent of a free asset,
      allocated under an identifier with one capital. */
  lemma CapitalsConflict(uuid: string -> string, assetId: string, approved: Conditions)
    requires uuid("A0000000-0000-4000-8000-000000000000") == "a0000000-0000-4000-8000-000000000000"
    requires approved == Conditions(true, false, true)
    ensures var a := Allocation("A0000000-0000-4000-8000-000000000000", assetId, "POOL", Percentage(40_000_000, 6),
                                0, None, "documented", Some("approval"));
            var first := Allocate(uuid, [], a, "allocation-key-1", approved);
            && first.Ok? && first.value.1 == Created
            && Allocate(uuid, first.value.0, a, "allocation-key-1", approved) == Err(IdempotencyConflict)
  {
    hide Allocate, Trim;
    var a := Allocation("A0000000-0000-4000-8000-000000000000", assetId, "POOL", Percentage(40_000_000, 6),
                        0, None, "documented", Some("approval"));
    NothingToTrim("documented");
    NothingToTrim("allocation-key-1");
    assert a.allocationId[0] == 'A' && uuid(a.allocationId)[0] == 'a';
    OtherSpellingConflicts(uuid, a, "allocation-key-1", approved);
  }

  lemma NothingToTrim(s: string)
    requires s != [] && !IsSpace(s[0]) && !IsSpace(s[|s|-1])
    ensures Trim(s) == s
  {}

  /** The percentage of the only version of its asset. */
  lemma FirstOfAsset(uuid: string -> string, a: Allocation, key: string)
    requires a.to.None?
    ensures Current(uuid, [], a) == 0
    ensures Current(uuid, [Version(Stored(uuid, a), key)], a) == a.percentage.units
  {
    var one := [Version(Stored(uuid, a), key)];
    assert one[1..] == [];
    assert Sweep(one, [], uuid(a.assetId), a.from, a.to) == AllocatedOn(one, uuid(a.assetId), a.from);
    assert AllocatedOn(one, uuid(a.assetId), a.from) == a.percentage.units + AllocatedOn([], uuid(a.assetId), a.from);
  }

  lemma {:induction false} FindAppended(versions: seq<Version>, v: Version)
    requires WithKey(versions, v.key).None?
    ensures WithKey(versions + [v], v.key) == Some(v)
  {
    if versions != [] {
      assert (versions + [v])[1..] == versions[1..] + [v];
      FindAppended(versions[1..], v);
    }
  }

  /** So a replay of more than one half is always refused as an overallocation. */
  lemma ReplayOfMoreThanHalf(uuid: string -> string, versions: seq<Version>, a: Allocation, key: string,
                             first: Conditions, again: Conditions)
    requires Safe(versions) && a.percentage.units > WHOLE / 2
    requires Allocate(uuid, versions, a, key, first).Ok? && Allocate(uuid, versions, a, key, first).value.1 == Created
    requires again.assetExists
    ensures Allocate(uuid, Allocate(uuid, versions, a, key, first).value.0, a, key, again) == Err(Overallocated)
  {
    hide Trim, HasAllocation, HasPrior;
    var v, assetId := Version(Stored(uuid, a), Trim(key)), uuid(a.assetId);
    var saved := versions + [v];
    AllocatedOnAppend(versions, v, assetId, a.from);
    NeverNegative(versions, assetId, a.from);
    SweepCovers(saved, saved, assetId, a.from, a.to);
  }

  lemma {:induction false} NeverNegative(versions: seq<Version>, assetId: string, date: int)
    requires forall v <- versions :: v.value.percentage.units >= 0
    ensures AllocatedOn(versions, assetId, date) >= 0
  {
    if versions != [] {
      assert versions[0] in versions && forall v <- versions[1..] :: v in versions;
      NeverNegative(versions[1..], assetId, date);
    }
  }
}

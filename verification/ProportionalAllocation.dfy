/** The allocation of a distributable amount to weighted participants, from decimal texts to decimal
    texts, and the order-normalised output that the calculation checksum is taken of. */
module ProportionalAllocation {
  import opened Wrappers
  import opened Sums
  import opened Sorting
  import opened DecimalText
  import opened LargestRemainder
  import M = Money

  datatype AllocationWeight = AllocationWeight(participantId: string, weight: string)
  datatype Allocation = Allocation(participantId: string, amount: string, currency: string)
  datatype AllocationError =
    | NoWeights | BadParticipant | NotCanonicalWeight | WeightExceedsScale | NegativeWeight | ZeroTotalWeight

  const WEIGHT_SCALE: nat := 12

  /** The weight of one entry in units of 10^-12. */
  function WeightUnits(value: string): Result<nat, AllocationError> {
    match MatchDecimal(value)
    case None => Err(NotCanonicalWeight)
    case Some(m) =>
      if |m.fraction| > WEIGHT_SCALE then Err(WeightExceedsScale)
      else if Units(m, WEIGHT_SCALE) < 0 then Err(NegativeWeight)
      else Ok(Units(m, WEIGHT_SCALE))
  }

  function Ids(ws: seq<AllocationWeight>): set<string> {
    set w | w in ws :: w.participantId
  }

  /** The checks made while normalising the weights: weight after weight, each first for an identifier that
      is empty or was met before, then for its decimal text. */
  function Normalized(ws: seq<AllocationWeight>): (r: Result<seq<Entry>, AllocationError>)
    ensures r.Ok? ==> |r.value| == |ws|
  {
    if ws == [] then Ok([]) else
      var front, last := ws[..|ws|-1], ws[|ws|-1];
      var es :- Normalized(front);
      if last.participantId == [] || last.participantId in Ids(front) then Err(BadParticipant) else
        var weight :- WeightUnits(last.weight);
        Ok(es + [Entry(last.participantId, weight)])
  }

  function Accepted(ws: seq<AllocationWeight>): Result<seq<Entry>, AllocationError> {
    if ws == [] then Err(NoWeights) else
      var es :- Normalized(ws);
      if TotalWeight(es) == 0 then Err(ZeroTotalWeight) else Ok(es)
  }

  function SignOf(x: int): int { if x < 0 then -1 else 1 }

  /** The allocation of one participant. */
  function Allocated(distributable: M.Money, es: seq<Entry>, e: Entry): Allocation
    requires TotalWeight(es) > 0
  {
    var units := Share(es, e, M.Magnitude(distributable.minorUnits)) * SignOf(distributable.minorUnits);
    Allocation(e.id, M.ToDecimalString(distributable.(minorUnits := units)), distributable.currency)
  }

  function AllocationsFor(distributable: M.Money, es: seq<Entry>): (r: seq<Allocation>)
    requires TotalWeight(es) > 0
    ensures |r| == |es|
  {
    seq(|es|, i requires 0 <= i < |es| => Allocated(distributable, es, es[i]))
  }

  /** The whole outcome of an allocation. */
  function Outcome(distributable: M.Money, ws: seq<AllocationWeight>): Result<seq<Allocation>, AllocationError> {
    match Accepted(ws)
    case Err(e) => Err(e)
    case Ok(es) => Ok(AllocationsFor(distributable, es))
  }

  /** A canonical decimal of at most twelve fraction digits, and not below zero. */
  predicate ReadableWeight(value: string) {
    var m := MatchDecimal(value);
    m.Some? && |m.value.fraction| <= 12 && (m.value.negative ==> Magnitude(m.value, 12) == 0)
  }

  /** The number a readable weight writes, in units of 10^-12. */
  function WrittenUnits(value: string): nat
    requires ReadableWeight(value)
  {
    Magnitude(MatchDecimal(value).value, 12)
  }

  lemma WeightIsWritten(value: string)
    ensures WeightUnits(value).Ok? <==> ReadableWeight(value)
    ensures ReadableWeight(value) ==> WeightUnits(value) == Ok(WrittenUnits(value))
  {
    var m := MatchDecimal(value);
    if m.Some? && |m.value.fraction| <= WEIGHT_SCALE { UnitsMagnitude(m.value, WEIGHT_SCALE); }
  }

  predicate GoodWeight(w: AllocationWeight) {
    w.participantId != [] && ReadableWeight(w.weight)
  }

  function EntryOf(w: AllocationWeight): Entry {
    Entry(w.participantId, if ReadableWeight(w.weight) then WrittenUnits(w.weight) else 0)
  }

  lemma {:induction false} NormalizedEntries(ws: seq<AllocationWeight>)
    requires Normalized(ws).Ok?
    ensures forall i :: 0 <= i < |ws| ==> GoodWeight(ws[i]) && Normalized(ws).value[i] == EntryOf(ws[i])
    ensures DistinctIds(Normalized(ws).value)
  {
    hide WeightUnits, ReadableWeight, WrittenUnits;
    if ws != [] {
      var front, last := ws[..|ws|-1], ws[|ws|-1];
      WeightIsWritten(last.weight);
      NormalizedStep(ws);
      NormalizedEntries(front);
      var es := Normalized(front).value;
      forall i | 0 <= i < |es| ensures es[i].id != last.participantId { assert front[i] in front; }
    }
  }

  lemma NormalizedStep(ws: seq<AllocationWeight>)
    requires ws != []
    ensures var front, last := ws[..|ws|-1], ws[|ws|-1];
            && (Normalized(ws).Ok? <==>
                Normalized(front).Ok? && last.participantId != [] && last.participantId !in Ids(front)
                                        && WeightUnits(last.weight).Ok?)
            && (Normalized(ws).Ok? ==>
                Normalized(ws).value == Normalized(front).value +
                [Entry(last.participantId, WeightUnits(last.weight).value)])
  {
    hide WeightUnits, Ids;
  }

  // ----- The algorithm -----

  /** The checks on each weight, with the identifiers already seen kept in a set. */
  method Normalize(weights: seq<AllocationWeight>) returns (result: Result<seq<Entry>, AllocationError>)
    ensures result == Normalized(weights)
  {
    var seen: set<string> := {};
    var normalized: seq<Entry> := [];
    for i := 0 to |weights|
      invariant seen == Ids(weights[..i])
      invariant Normalized(weights[..i]) == Ok(normalized)
    {
      var entry := weights[i];
      assert weights[..i+1][..i] == weights[..i];
      if entry.participantId == [] || entry.participantId in seen {
        NormalizedPrefix(weights, i + 1);
        return Err(BadParticipant);
      }
      IdsExtend(weights, i);
      seen := seen + {entry.participantId};
      var weight := WeightUnits(entry.weight);
      if weight.Err? {
        NormalizedPrefix(weights, i + 1);
        return Err(weight.error);
      }
      normalized := normalized + [Entry(entry.participantId, weight.value)];
    }
    assert weights[..|weights|] == weights;
    result := Ok(normalized);
  }

  lemma IdsExtend(ws: seq<AllocationWeight>, i: nat)
    requires i < |ws|
    ensures Ids(ws[..i+1]) == Ids(ws[..i]) + {ws[i].participantId}
  {
    assert ws[..i+1] == ws[..i] + [ws[i]];
  }

  /** The whole allocation: normalise, apportion the magnitude, and print every share with the sign. */
  method AllocateProportionally(distributable: M.Money, weights: seq<AllocationWeight>)
    returns (result: Result<seq<Allocation>, AllocationError>)
    ensures result == Outcome(distributable, weights)
  {
    hide Share, Normalized, M.ToDecimalString;
    if |weights| == 0 { return Err(NoWeights); }
    var outcome := Normalize(weights);
    if outcome.Err? { return Err(outcome.error); }
    var normalized := outcome.value;
    NormalizedEntries(weights);
    if TotalWeight(normalized) == 0 { return Err(ZeroTotalWeight); }
    var units := DistributeUnits(normalized, M.Magnitude(distributable.minorUnits));
    var sign := SignOf(distributable.minorUnits);
    var out: seq<Allocation> := [];
    for i := 0 to |normalized|
      invariant |out| == i
      invariant forall j :: 0 <= j < i ==> out[j] == Allocated(distributable, normalized, normalized[j])
    {
      var e := normalized[i];
      out := out + [Allocation(e.id, M.ToDecimalString(distributable.(minorUnits := units[e.id] * sign)),
                               distributable.currency)];
    }
    assert out == AllocationsFor(distributable, normalized);
    result := Ok(out);
  }

  /** A refusal met in a prefix is the outcome of the whole. */
  lemma {:induction false} NormalizedPrefix(ws: seq<AllocationWeight>, n: nat)
    requires n <= |ws| && Normalized(ws[..n]).Err?
    ensures Normalized(ws) == Err(Normalized(ws[..n]).error)
    decreases |ws|
  {
    if n < |ws| {
      assert ws[..|ws|-1][..n] == ws[..n];
      NormalizedPrefix(ws[..|ws|-1], n);
    } else {
      assert ws[..n] == ws;
    }
  }

  // ----- What an allocation guarantees -----

  /** The minor units written in an allocated amount. */
  function AmountUnits(a: Allocation, distributable: M.Money): int {
    var parsed := M.Parse(a.amount, distributable.currency, distributable.scale);
    if parsed.Ok? then parsed.value.minorUnits else 0
  }

  function UnitsOf(distributable: M.Money): Allocation -> int {
    (a: Allocation) => AmountUnits(a, distributable)
  }

  predicate ValidMoney(m: M.Money) {
    M.ValidCurrency(m.currency) && m.scale <= M.MAX_SCALE
  }

  lemma AllocatedAmount(distributable: M.Money, es: seq<Entry>, e: Entry)
    requires ValidMoney(distributable) && TotalWeight(es) > 0
    ensures M.Parse(Allocated(distributable, es, e).amount, distributable.currency, distributable.scale)
            == Ok(distributable.(minorUnits := Share(es, e, M.Magnitude(distributable.minorUnits)) *
                                 SignOf(distributable.minorUnits)))
  {
    M.ParsePrinted(distributable.(minorUnits := Share(es, e, M.Magnitude(distributable.minorUnits)) *
                                  SignOf(distributable.minorUnits)));
  }

  /** Conservation on texts: the amounts written for the participants, read back, add up to the
      distributable amount, gain or loss, to the last minor unit. */
  lemma AmountsSumToDistributable(distributable: M.Money, ws: seq<AllocationWeight>)
    requires ValidMoney(distributable) && Outcome(distributable, ws).Ok?
    ensures SumBy(UnitsOf(distributable), Outcome(distributable, ws).value) == distributable.minorUnits
  {
    NormalizedEntries(ws);
    var es := Accepted(ws).value;
    var out := AllocationsFor(distributable, es);
    var total, sign := M.Magnitude(distributable.minorUnits), SignOf(distributable.minorUnits);
    var shares := seq(|es|, i requires 0 <= i < |es| => Share(es, es[i], total) * sign);
    var signed := (e: Entry) => Share(es, e, total) * sign;
    forall i | 0 <= i < |es| ensures shares[i] == UnitsOf(distributable)(out[i]) {
      AllocatedAmount(distributable, es, es[i]);
    }
    SumByListed(UnitsOf(distributable), out, shares);
    SumByListed(signed, es, shares);
    SumByLinear(ShareOf(es, total), ShareOf(es, total), signed, es, sign, 0);
    SharesSumToTotal(es, total);
  }

  function WrittenWeight(): AllocationWeight -> int {
    (w: AllocationWeight) => EntryOf(w).weight
  }

  lemma EntriesListed(ws: seq<AllocationWeight>, es: seq<Entry>)
    requires Normalized(ws) == Ok(es)
    ensures TotalWeight(es) == SumBy(WrittenWeight(), ws)
    ensures forall i :: 0 <= i < |ws| ==> es[i] == EntryOf(ws[i])
  {
    NormalizedEntries(ws);
    TotalWeightIsSum(es);
    var weights := seq(|es|, i requires 0 <= i < |es| => es[i].weight as int);
    SumByListed(WeightOf(), es, weights);
    SumByListed(WrittenWeight(), ws, weights);
  }

  lemma {:induction false} SomePositive(ws: seq<AllocationWeight>)
    ensures SumBy(WrittenWeight(), ws) >= 0
    ensures SumBy(WrittenWeight(), ws) > 0 <==> exists w :: w in ws && EntryOf(w).weight > 0
  {
    hide EntryOf;
    if ws != [] {
      assert forall w :: w in ws <==> w == ws[0] || w in ws[1..];
      SomePositive(ws[1..]);
    }
  }

  /** Weights are accepted exactly when there are some, each is good, no participant occurs twice, and at least
      one of the numbers written is positive. */
  lemma AcceptsExactly(distributable: M.Money, ws: seq<AllocationWeight>)
    ensures Outcome(distributable, ws).Ok?
            <==> && ws != [] && (forall w <- ws :: GoodWeight(w)) && DistinctParticipants(ws)
                 && exists w :: w in ws && WrittenWeight()(w) > 0
  {
    hide ReadableWeight, GoodWeight, DistinctParticipants, M.ToDecimalString;
    NormalizedAccepts(ws);
    SomePositive(ws);
    if Normalized(ws).Ok? { EntriesListed(ws, Normalized(ws).value); }
  }

  /** Good weights are refused for being none, or for none of them being positive. */
  lemma WithoutWeightRefuses(distributable: M.Money, ws: seq<AllocationWeight>)
    ensures Outcome(distributable, ws) == Err(NoWeights) <==> ws == []
    ensures Outcome(distributable, ws) == Err(ZeroTotalWeight)
            <==> && ws != [] && (forall w <- ws :: GoodWeight(w)) && DistinctParticipants(ws)
                 && forall w <- ws :: WrittenWeight()(w) == 0
  {
    hide ReadableWeight, GoodWeight, DistinctParticipants, M.ToDecimalString, WeightUnits;
    NormalizedAccepts(ws);
    SomePositive(ws);
    NotForNoWeight(ws);
    if Normalized(ws).Ok? { EntriesListed(ws, Normalized(ws).value); }
  }

  lemma {:induction false} NotForNoWeight(ws: seq<AllocationWeight>)
    ensures Normalized(ws) != Err(NoWeights) && Normalized(ws) != Err(ZeroTotalWeight)
  {
    if ws != [] { NotForNoWeight(ws[..|ws|-1]); }
  }

  /** Otherwise the first bad entry refuses the whole, for its identifier before its weight. */
  lemma FirstBadEntryRefuses(distributable: M.Money, ws: seq<AllocationWeight>, n: nat)
    requires n < |ws| && DistinctParticipants(ws[..n]) && forall w <- ws[..n] :: GoodWeight(w)
    requires !GoodWeight(ws[n]) || exists w :: w in ws[..n] && w.participantId == ws[n].participantId
    ensures var bad, m := ws[n], MatchDecimal(ws[n].weight);
            Outcome(distributable, ws)
            == Err(if bad.participantId == "" || exists w :: w in ws[..n] && w.participantId == bad.participantId
                   then BadParticipant
                   else if m.None? then NotCanonicalWeight
                   else if |m.value.fraction| > 12 then WeightExceedsScale
                   else NegativeWeight)
  {
    hide MatchDecimal, Magnitude, Units;
    var front := ws[..n+1];
    assert front[..n] == ws[..n];
    NormalizedAccepts(ws[..n]);
    WeightIsWritten(ws[n].weight);
    var m := MatchDecimal(ws[n].weight);
    if m.Some? && |m.value.fraction| <= WEIGHT_SCALE { UnitsMagnitude(m.value, WEIGHT_SCALE); }
    assert Normalized(front).Err?;
    NormalizedPrefix(ws, n + 1);
  }

  /** From text to text: every participant, under its own identifier and in the currency distributed, is paid
      less than one minor unit away from its exact share, the distributable amount times the weight written for
      it over the sum of the weights written. */
  lemma SharesOfTexts(distributable: M.Money, ws: seq<AllocationWeight>, i: nat)
    requires ValidMoney(distributable) && Outcome(distributable, ws).Ok? && i < |ws|
    ensures forall w <- ws :: ReadableWeight(w.weight)
    ensures var out, W := Outcome(distributable, ws).value, SumBy(WrittenWeight(), ws);
            && |out| == |ws| && out[i].participantId == ws[i].participantId && out[i].currency == distributable.currency
            && -W < AmountUnits(out[i], distributable) * W
                    - distributable.minorUnits * Magnitude(MatchDecimal(ws[i].weight).value, 12) < W
  {
    hide Outcome, AmountUnits, Magnitude, MatchDecimal;
    PaidNearQuota(distributable, ws, i);
    assert ReadableWeight(ws[i].weight);
  }

  lemma PaidNearQuota(distributable: M.Money, ws: seq<AllocationWeight>, i: nat)
    requires ValidMoney(distributable) && Outcome(distributable, ws).Ok? && i < |ws|
    ensures forall w <- ws :: ReadableWeight(w.weight)
    ensures var out, W := Outcome(distributable, ws).value, SumBy(WrittenWeight(), ws);
            && |out| == |ws| && out[i].participantId == ws[i].participantId && out[i].currency == distributable.currency
            && -W < AmountUnits(out[i], distributable) * W - distributable.minorUnits * EntryOf(ws[i]).weight < W
  {
    hide M.ToDecimalString, M.Parse, Share, ReadableWeight, EntryOf, DistinctIds;
    var es := Accepted(ws).value;
    NormalizedEntries(ws);
    EntriesListed(ws, es);
    AllocatedAmount(distributable, es, es[i]);
    QuotaRule(es, es[i], M.Magnitude(distributable.minorUnits));
    EntryId(ws[i]);
    forall w | w in ws ensures ReadableWeight(w.weight) {
      var k :| 0 <= k < |ws| && ws[k] == w;
      assert GoodWeight(ws[k]);
    }
    var units := distributable.minorUnits;
    Signed(Share(es, es[i], M.Magnitude(units)), M.Magnitude(units), TotalWeight(es), es[i].weight, units);
  }

  lemma Signed(share: int, size: int, W: int, w: int, units: int)
    requires size == M.Magnitude(units) && -W < share * W - size * w < W
    ensures -W < (share * SignOf(units)) * W - units * w < W
  {
    if units < 0 {
      assert (share * -1) * W == 0 - share * W;
      assert units * w == 0 - size * w;
    }
  }

  /** A larger weight is never paid less, gain or loss; of equal weights the earlier identifier is never paid less,
      and at most one minor unit more. */
  lemma PaidInOrder(distributable: M.Money, ws: seq<AllocationWeight>, i: nat, j: nat)
    requires ValidMoney(distributable) && Outcome(distributable, ws).Ok? && i < |ws| && j < |ws|
    requires var x, y := WrittenWeight()(ws[i]), WrittenWeight()(ws[j]);
             x > y || (x == y && Less(ws[i].participantId, ws[j].participantId))
    ensures |Outcome(distributable, ws).value| == |ws|
    ensures var a, b := AmountUnits(Outcome(distributable, ws).value[i], distributable),
                        AmountUnits(Outcome(distributable, ws).value[j], distributable);
            && M.Magnitude(a) >= M.Magnitude(b)
            && (WrittenWeight()(ws[i]) == WrittenWeight()(ws[j]) ==> M.Magnitude(a) <= M.Magnitude(b) + 1)
  {
    hide M.ToDecimalString, M.Parse, Share, ReadableWeight, EntryOf;
    var es, total := Accepted(ws).value, M.Magnitude(distributable.minorUnits);
    NormalizedEntries(ws);
    EntriesListed(ws, es);
    AllocatedAmount(distributable, es, es[i]);
    AllocatedAmount(distributable, es, es[j]);
    FairShares(es, es[i], es[j], total);
    EntryId(ws[i]);
    EntryId(ws[j]);
    SignedSize(Share(es, es[i], total), distributable.minorUnits);
    SignedSize(Share(es, es[j], total), distributable.minorUnits);
  }

  lemma EntryId(w: AllocationWeight)
    ensures EntryOf(w).id == w.participantId
  {}

  lemma SignedSize(share: nat, units: int)
    ensures M.Magnitude(share * SignOf(units)) == share
  {}

  /** Symmetry of gains and losses: negating the distributable amount negates every share. */
  lemma LossesMirrorGains(distributable: M.Money, ws: seq<AllocationWeight>, i: nat)
    requires ValidMoney(distributable) && Outcome(distributable, ws).Ok? && i < |ws|
    ensures var opposite := distributable.(minorUnits := 0 - distributable.minorUnits);
            Outcome(opposite, ws).Ok?
            && |Outcome(opposite, ws).value| == |Outcome(distributable, ws).value| == |ws|
            && AmountUnits(Outcome(opposite, ws).value[i], distributable)
               == 0 - AmountUnits(Outcome(distributable, ws).value[i], distributable)
  {
    hide M.ToDecimalString, M.Parse, Share;
    var es := Accepted(ws).value;
    var opposite := distributable.(minorUnits := 0 - distributable.minorUnits);
    AllocatedAmount(distributable, es, es[i]);
    AllocatedAmount(opposite, es, es[i]);
    if distributable.minorUnits == 0 { NothingToShare(es, es[i]); }
    Opposite(Share(es, es[i], M.Magnitude(distributable.minorUnits)));
  }

  lemma Opposite(share: int)
    ensures share * -1 == 0 - share && share * 1 == share
  {}

  lemma NothingToShare(es: seq<Entry>, e: Entry)
    requires TotalWeight(es) > 0
    ensures Share(es, e, 0) == 0
  {
    ZeroOver(TotalWeight(es));
    ExactQuotaIsExact(es, e, 0);
  }

  // ----- What is accepted -----

  predicate DistinctParticipants(ws: seq<AllocationWeight>) {
    forall i, j :: 0 <= i < j < |ws| ==> ws[i].participantId != ws[j].participantId
  }

  /** Normalisation succeeds exactly on non-empty distinct participants with canonical non-negative weights. */
  lemma {:induction false} NormalizedAccepts(ws: seq<AllocationWeight>)
    ensures Normalized(ws).Ok? <==> (forall i :: 0 <= i < |ws| ==> GoodWeight(ws[i])) && DistinctParticipants(ws)
  {
    hide WeightUnits, Normalized, GoodWeight, ReadableWeight, DistinctParticipants;
    if ws != [] {
      var front, last := ws[..|ws|-1], ws[|ws|-1];
      WeightIsWritten(last.weight);
      NormalizedAccepts(front);
      NormalizedStep(ws);
      GoodStep(ws);
    } else {
      NothingToNormalize();
    }
  }

  lemma NothingToNormalize()
    ensures Normalized([]).Ok? && DistinctParticipants([])
  {}

  lemma GoodStep(ws: seq<AllocationWeight>)
    requires ws != []
    ensures var front, last := ws[..|ws|-1], ws[|ws|-1];
            (forall i :: 0 <= i < |ws| ==> GoodWeight(ws[i])) && DistinctParticipants(ws) <==>
            (forall i :: 0 <= i < |front| ==> GoodWeight(front[i])) && DistinctParticipants(front)
            && last.participantId != [] && last.participantId !in Ids(front) && ReadableWeight(last.weight)
  {
    hide ReadableWeight;
    var front, last := ws[..|ws|-1], ws[|ws|-1];
    assert forall i :: 0 <= i < |front| ==> front[i] == ws[i];
    if last.participantId !in Ids(front) {
      forall i | 0 <= i < |front| ensures front[i].participantId != last.participantId { assert front[i] in front; }
    }
  }

  // ----- Order independence -----

  lemma SameMembers<T>(a: seq<T>, b: seq<T>)
    requires multiset(a) == multiset(b)
    ensures |a| == |b|
    ensures forall x :: x in a <==> x in b
  {
    assert |multiset(a)| == |a| && |multiset(b)| == |b|;
    forall x ensures x in a <==> x in b { assert x in multiset(a) <==> x in multiset(b); }
  }

  /** An entry occurs once when its key is distinct, so being accepted does not depend on the order. */
  lemma {:induction false} DistinctPermutes(a: seq<AllocationWeight>, b: seq<AllocationWeight>)
    requires multiset(a) == multiset(b) && DistinctParticipants(a)
    ensures DistinctParticipants(b)
  {
    SameMembers(a, b);
    forall i, j | 0 <= i < j < |b| ensures b[i].participantId != b[j].participantId {
      if b[i] == b[j] {
        TwiceInMultiset(b, i, j);
        OnceInMultiset(a, b[i]);
      } else {
        assert b[i] in a && b[j] in a;
      }
    }
  }

  lemma TwiceInMultiset<T>(s: seq<T>, i: nat, j: nat)
    requires i < j < |s| && s[i] == s[j]
    ensures multiset(s)[s[i]] >= 2
  {
    assert s == s[..j] + s[j..];
    assert multiset(s) == multiset(s[..j]) + multiset(s[j..]);
    assert s[..j][i] in multiset(s[..j]) && s[j..][0] in multiset(s[j..]);
  }

  lemma {:induction false} OnceInMultiset(s: seq<AllocationWeight>, w: AllocationWeight)
    requires DistinctParticipants(s)
    ensures multiset(s)[w] <= 1
  {
    if s != [] {
      assert s == [s[0]] + s[1..];
      assert multiset(s) == multiset{s[0]} + multiset(s[1..]);
      OnceInMultiset(s[1..], w);
      if w == s[0] { assert w !in s[1..]; assert w !in multiset(s[1..]); }
    }
  }

  ghost predicate Mapped<T, U>(a: seq<T>, fa: seq<U>, f: T -> U) {
    |fa| == |a| && forall i :: 0 <= i < |a| ==> fa[i] == f(a[i])
  }

  lemma MappedParts<T, U>(a: seq<T>, fa: seq<U>, f: T -> U)
    requires Mapped(a, fa, f)
    ensures |fa| == |a|
    ensures a != [] ==> fa[0] == f(a[0]) && Mapped(a[1..], fa[1..], f)
  {}

  lemma {:induction false} MappedMultiset<T, U>(a: seq<T>, b: seq<T>, fa: seq<U>, fb: seq<U>, f: T -> U)
    requires multiset(a) == multiset(b) && Mapped(a, fa, f) && Mapped(b, fb, f)
    ensures multiset(fa) == multiset(fb)
    decreases |a|
  {
    hide Mapped;
    SameMembers(a, b);
    MappedParts(a, fa, f);
    MappedParts(b, fb, f);
    if a == [] {
      assert fa == [] && fb == [];
    } else {
      assert a[0] in b;
      var k :| 0 <= k < |b| && b[k] == a[0];
      var rest, frest := b[..k] + b[k+1..], fb[..k] + fb[k+1..];
      RemoveAt(b, k);
      RemoveAt(fb, k);
      TailMultiset(a);
      TailMultiset(fa);
      MappedRemoval(b, fb, k, f);
      MappedMultiset(a[1..], rest, fa[1..], frest, f);
      assert multiset(fa) == multiset{fa[0]} + multiset(fa[1..]);
    }
  }

  lemma MappedRemoval<T, U>(b: seq<T>, fb: seq<U>, k: nat, f: T -> U)
    requires k < |b| && Mapped(b, fb, f)
    ensures fb[k] == f(b[k]) && Mapped(b[..k] + b[k+1..], fb[..k] + fb[k+1..], f)
  {}

  lemma RemoveAt<T>(s: seq<T>, k: nat)
    requires k < |s|
    ensures multiset(s) == multiset{s[k]} + multiset(s[..k] + s[k+1..])
    ensures multiset(s[..k] + s[k+1..]) == multiset(s) - multiset{s[k]}
  {
    assert s == s[..k] + [s[k]] + s[k+1..];
  }

  lemma EntriesPermute(ws: seq<AllocationWeight>, vs: seq<AllocationWeight>)
    requires multiset(ws) == multiset(vs) && Normalized(ws).Ok?
    ensures Normalized(vs).Ok?
    ensures multiset(Normalized(ws).value) == multiset(Normalized(vs).value)
  {
    NormalizedAccepts(ws);
    NormalizedAccepts(vs);
    SameMembers(ws, vs);
    DistinctPermutes(ws, vs);
    forall i | 0 <= i < |vs| ensures GoodWeight(vs[i]) { assert vs[i] in ws; }
    NormalizedEntries(ws);
    NormalizedEntries(vs);
    MappedMultiset(ws, vs, Normalized(ws).value, Normalized(vs).value, w => EntryOf(w));
  }

  /** Rearranging the weights is accepted or refused alike, and pays every participant the same amount. */
  lemma AllocationIgnoresOrder(distributable: M.Money, ws: seq<AllocationWeight>, vs: seq<AllocationWeight>)
    requires multiset(ws) == multiset(vs)
    ensures Outcome(distributable, ws).Ok? <==> Outcome(distributable, vs).Ok?
    ensures Outcome(distributable, ws).Ok? ==>
              multiset(Outcome(distributable, ws).value) == multiset(Outcome(distributable, vs).value)
  {
    SameMembers(ws, vs);
    if Normalized(ws).Ok? { EntriesPermute(ws, vs); }
    if Normalized(vs).Ok? { EntriesPermute(vs, ws); }
    if Normalized(ws).Ok? && ws != [] {
      var es, fs := Normalized(ws).value, Normalized(vs).value;
      if TotalWeight(es) > 0 { OrderIndependence(es, fs, Entry([], 0), 0); }
      if TotalWeight(fs) > 0 { OrderIndependence(fs, es, Entry([], 0), 0); }
      if TotalWeight(es) > 0 { EntriesPaidAlike(distributable, es, fs); }
    }
  }

  lemma EntriesPaidAlike(distributable: M.Money, es: seq<Entry>, fs: seq<Entry>)
    requires multiset(es) == multiset(fs) && TotalWeight(es) > 0 && TotalWeight(fs) > 0
    ensures multiset(AllocationsFor(distributable, es)) == multiset(AllocationsFor(distributable, fs))
  {
    var f := (e: Entry) => Allocated(distributable, es, e);
    forall i | 0 <= i < |fs| ensures AllocationsFor(distributable, fs)[i] == f(fs[i]) {
      OrderIndependence(es, fs, fs[i], M.Magnitude(distributable.minorUnits));
    }
    MappedMultiset(es, fs, AllocationsFor(distributable, es), AllocationsFor(distributable, fs), f);
  }

  // ----- The order-normalised output of a calculation -----

  datatype ExplanationInput = ExplanationInput(accountId: string, content: string)
  datatype Explanation = Explanation(accountId: string, content: string)
  datatype Completed = Completed(allocations: seq<Allocation>, explanations: seq<Explanation>)
  datatype CalculationError = AllocationRefused(error: AllocationError) | ExplanationInputMissing(participantId: string)

  function ByParticipant(): (Allocation, Allocation) -> bool {
    (a: Allocation, b: Allocation) => Less(a.participantId, b.participantId)
  }

  function ByAccount(): (Explanation, Explanation) -> bool {
    (a: Explanation, b: Explanation) => Less(a.accountId, b.accountId)
  }

  /** Array.prototype.find by account. */
  function Find(inputs: seq<ExplanationInput>, id: string): Option<ExplanationInput> {
    if inputs == [] then None
    else if inputs[0].accountId == id then Some(inputs[0])
    else Find(inputs[1..], id)
  }

  function Explained(allocations: seq<Allocation>, inputs: seq<ExplanationInput>,
                     build: (ExplanationInput, Allocation) -> string)
    : (r: Result<seq<Explanation>, CalculationError>)
    ensures r.Ok? ==> |r.value| == |allocations|
  {
    if allocations == [] then Ok([]) else
      var a := allocations[0];
      match Find(inputs, a.participantId)
      case None => Err(ExplanationInputMissing(a.participantId))
      case Some(input) =>
        var rest :- Explained(allocations[1..], inputs, build);
        Ok([Explanation(a.participantId, build(input, a))] + rest)
  }

  /** The structure that the output checksum is computed of: both lists sorted by identifier. */
  function ChecksumContent(distributable: M.Money, ws: seq<AllocationWeight>, inputs: seq<ExplanationInput>,
                           build: (ExplanationInput, Allocation) -> string): Result<Completed, CalculationError>
  {
    match Outcome(distributable, ws)
    case Err(e) => Err(AllocationRefused(e))
    case Ok(allocations) =>
      var explanations :- Explained(allocations, inputs, build);
      Ok(Completed(Sort(allocations, ByParticipant()), Sort(explanations, ByAccount())))
  }

  ghost predicate DistinctAccounts(inputs: seq<ExplanationInput>) {
    forall i, j :: 0 <= i < j < |inputs| ==> inputs[i].accountId != inputs[j].accountId
  }

  lemma {:induction false} FindMember(inputs: seq<ExplanationInput>, id: string)
    ensures Find(inputs, id).Some? ==> Find(inputs, id).value in inputs && Find(inputs, id).value.accountId == id
    ensures Find(inputs, id).None? ==> forall x :: x in inputs ==> x.accountId != id
  {
    if inputs != [] {
      FindMember(inputs[1..], id);
      assert forall x :: x in inputs ==> x == inputs[0] || x in inputs[1..];
    }
  }

  lemma FindIgnoresOrder(a: seq<ExplanationInput>, b: seq<ExplanationInput>, id: string)
    requires multiset(a) == multiset(b) && DistinctAccounts(a)
    ensures Find(a, id) == Find(b, id)
  {
    SameMembers(a, b);
    FindMember(a, id);
    FindMember(b, id);
  }

  lemma {:induction false} ExplainedEach(allocations: seq<Allocation>, inputs: seq<ExplanationInput>,
                                         build: (ExplanationInput, Allocation) -> string)
    ensures Explained(allocations, inputs, build).Ok? <==>
              forall i :: 0 <= i < |allocations| ==> Find(inputs, allocations[i].participantId).Some?
    ensures Explained(allocations, inputs, build).Ok? ==>
              forall i :: 0 <= i < |allocations| ==>
                Explained(allocations, inputs, build).value[i]
                == Explanation(allocations[i].participantId,
                               build(Find(inputs, allocations[i].participantId).value, allocations[i]))
  {
    if allocations != [] {
      ExplainedEach(allocations[1..], inputs, build);
      assert forall i :: 0 <= i < |allocations| - 1 ==> allocations[1..][i] == allocations[i+1];
      if !(forall i :: 0 <= i < |allocations[1..]| ==> Find(inputs, allocations[1..][i].participantId).Some?) {
        var i :| 0 <= i < |allocations[1..]| && Find(inputs, allocations[1..][i].participantId).None?;
        assert Find(inputs, allocations[i+1].participantId).None?;
      }
    }
  }

  lemma OutcomeParticipants(distributable: M.Money, ws: seq<AllocationWeight>)
    requires Outcome(distributable, ws).Ok?
    ensures Separates(ByParticipant(), Outcome(distributable, ws).value)
    ensures var out := Outcome(distributable, ws).value;
            |out| == |ws| && forall i :: 0 <= i < |ws| ==> out[i].participantId == ws[i].participantId
  {
    hide Normalized, M.ToDecimalString, Less, Share;
    NormalizedEntries(ws);
    LessIsStrictTotalOrder();
    var out := Outcome(distributable, ws).value;
    forall i, j | 0 <= i < j < |out| ensures out[i].participantId != out[j].participantId {}
  }

  /** The checksum content depends only on the set of weights and the set of explanation inputs: two
      calculations given the same ones in any order produce the same content, or are both refused. */
  lemma ChecksumIgnoresOrder(distributable: M.Money, ws: seq<AllocationWeight>, vs: seq<AllocationWeight>,
                             a: seq<ExplanationInput>, b: seq<ExplanationInput>,
                             build: (ExplanationInput, Allocation) -> string)
    requires multiset(ws) == multiset(vs) && multiset(a) == multiset(b) && DistinctAccounts(a)
    ensures ChecksumContent(distributable, ws, a, build).Ok? <==> ChecksumContent(distributable, vs, b, build).Ok?
    ensures ChecksumContent(distributable, ws, a, build).Ok? ==>
              ChecksumContent(distributable, ws, a, build) == ChecksumContent(distributable, vs, b, build)
  {
    hide Outcome, Explained;
    AllocationIgnoresOrder(distributable, ws, vs);
    if Outcome(distributable, ws).Ok? {
      var p, q := Outcome(distributable, ws).value, Outcome(distributable, vs).value;
      ExplanationsAgree(p, q, a, b, build);
      OutcomeParticipants(distributable, ws);
      OutcomeParticipants(distributable, vs);
      LessIsStrictTotalOrder();
      SortedAgree(p, q, ByParticipant());
      if Explained(p, a, build).Ok? { ExplanationsSortedAgree(p, q, a, b, build); }
    }
  }

  predicate HasInput(inputs: seq<ExplanationInput>, id: string) {
    exists input :: input in inputs && input.accountId == id
  }

  /** The content is made exactly when the weights are accepted and every participant has an explanation input. */
  lemma ChecksumContentExists(distributable: M.Money, ws: seq<AllocationWeight>, inputs: seq<ExplanationInput>,
                              build: (ExplanationInput, Allocation) -> string)
    ensures ChecksumContent(distributable, ws, inputs, build).Ok?
            <==> Outcome(distributable, ws).Ok? && forall w <- ws :: HasInput(inputs, w.participantId)
  {
    hide Outcome, Explained;
    if Outcome(distributable, ws).Ok? {
      var out := Outcome(distributable, ws).value;
      OutcomeParticipants(distributable, ws);
      ExplainedEach(out, inputs, build);
      forall i | 0 <= i < |ws|
        ensures Find(inputs, out[i].participantId).Some? <==> HasInput(inputs, ws[i].participantId)
      {
        FindMember(inputs, ws[i].participantId);
      }
      if forall w <- ws :: HasInput(inputs, w.participantId) {
        forall i | 0 <= i < |out| ensures Find(inputs, out[i].participantId).Some? {
          assert ws[i] in ws;
        }
      } else {
        var w :| w in ws && !HasInput(inputs, w.participantId);
        var i :| 0 <= i < |ws| && ws[i] == w;
        assert Find(inputs, out[i].participantId).None?;
      }
    }
  }

  /** The content is all the allocations in ascending order of the identifiers, beside each the explanation built
      from the participant's own input and that allocation. So equal contents mean equal allocations, each explained
      alike. */
  lemma ChecksumContentHolds(distributable: M.Money, ws: seq<AllocationWeight>, inputs: seq<ExplanationInput>,
                             build: (ExplanationInput, Allocation) -> string)
    requires DistinctAccounts(inputs) && ChecksumContent(distributable, ws, inputs, build).Ok?
    ensures var c := ChecksumContent(distributable, ws, inputs, build).value;
            && Outcome(distributable, ws).Ok? && multiset(c.allocations) == multiset(Outcome(distributable, ws).value)
            && (forall i, j :: 0 <= i < j < |c.allocations| ==>
                  Less(c.allocations[i].participantId, c.allocations[j].participantId))
            && |c.explanations| == |c.allocations|
            && (forall i, input ::
                  0 <= i < |c.allocations| && input in inputs && input.accountId == c.allocations[i].participantId
                  ==> c.explanations[i] == Explanation(input.accountId, build(input, c.allocations[i])))
  {
    hide Outcome, Explained, Sort, Find;
    var out := Outcome(distributable, ws).value;
    var x := Explained(out, inputs, build).value;
    var c := ChecksumContent(distributable, ws, inputs, build).value;
    OutcomeParticipants(distributable, ws);
    LessIsStrictTotalOrder();
    SortAscending(out, ByParticipant());
    var f := (a: Allocation) => Explanation(a.participantId,
      if Find(inputs, a.participantId).Some? then build(Find(inputs, a.participantId).value, a) else "");
    var beside := seq(|c.allocations|, i requires 0 <= i < |c.allocations| => f(c.allocations[i]));
    ExplainedEach(out, inputs, build);
    MappedMultiset(out, c.allocations, x, beside, f);
    SeparatesByAccount(out, x);
    SortAscending(x, ByAccount());
    assert Ascending(ByAccount(), beside) by {
      forall i, j | 0 <= i < j < |beside| ensures ByAccount()(beside[i], beside[j]) {
        assert ByParticipant()(c.allocations[i], c.allocations[j]);
      }
    }
    AscendingUnique(c.explanations, beside, ByAccount());
    forall i, input | 0 <= i < |c.allocations| && input in inputs && input.accountId == c.allocations[i].participantId
      ensures c.explanations[i] == Explanation(input.accountId, build(input, c.allocations[i]))
    {
      FindMember(inputs, input.accountId);
      OnlyInput(inputs, input, Find(inputs, input.accountId).value);
    }
    forall i, j | 0 <= i < j < |c.allocations|
      ensures Less(c.allocations[i].participantId, c.allocations[j].participantId)
    {
      assert ByParticipant()(c.allocations[i], c.allocations[j]);
    }
  }

  lemma OnlyInput(inputs: seq<ExplanationInput>, a: ExplanationInput, b: ExplanationInput)
    requires DistinctAccounts(inputs) && a in inputs && b in inputs && a.accountId == b.accountId
    ensures a == b
  {}

  lemma ExplanationsSortedAgree(p: seq<Allocation>, q: seq<Allocation>, a: seq<ExplanationInput>,
                                b: seq<ExplanationInput>,
                                build: (ExplanationInput, Allocation) -> string)
    requires Explained(p, a, build).Ok? && Explained(q, b, build).Ok?
    requires multiset(Explained(p, a, build).value) == multiset(Explained(q, b, build).value)
    requires Separates(ByParticipant(), p) && Separates(ByParticipant(), q)
    ensures Sort(Explained(p, a, build).value, ByAccount()) == Sort(Explained(q, b, build).value, ByAccount())
  {
    var x, y := Explained(p, a, build).value, Explained(q, b, build).value;
    ExplainedEach(p, a, build);
    ExplainedEach(q, b, build);
    LessIsStrictTotalOrder();
    SeparatesByAccount(p, x);
    SeparatesByAccount(q, y);
    SortedAgree(x, y, ByAccount());
  }

  lemma SeparatesByAccount(p: seq<Allocation>, x: seq<Explanation>)
    requires |p| == |x| && Separates(ByParticipant(), p)
    requires forall i :: 0 <= i < |p| ==> x[i].accountId == p[i].participantId
    ensures Separates(ByAccount(), x)
  {
    forall i, j | 0 <= i < j < |x| ensures ByAccount()(x[i], x[j]) || ByAccount()(x[j], x[i]) {
      assert ByParticipant()(p[i], p[j]) || ByParticipant()(p[j], p[i]);
    }
  }

  lemma SortedAgree<T(!new)>(p: seq<T>, q: seq<T>, lt: (T, T) -> bool)
    requires StrictOrder(lt) && multiset(p) == multiset(q) && Separates(lt, p) && Separates(lt, q)
    ensures Sort(p, lt) == Sort(q, lt)
  {
    SortAscending(p, lt);
    SortAscending(q, lt);
    AscendingUnique(Sort(p, lt), Sort(q, lt), lt);
  }

  lemma ExplanationsAgree(p: seq<Allocation>, q: seq<Allocation>, a: seq<ExplanationInput>, b: seq<ExplanationInput>,
                          build: (ExplanationInput, Allocation) -> string)
    requires multiset(p) == multiset(q) && multiset(a) == multiset(b) && DistinctAccounts(a)
    ensures Explained(p, a, build).Ok? <==> Explained(q, b, build).Ok?
    ensures Explained(p, a, build).Ok? ==>
            multiset(Explained(p, a, build).value) == multiset(Explained(q, b, build).value)
  {
    SameMembers(p, q);
    ExplainedEach(p, a, build);
    ExplainedEach(q, b, build);
    forall id ensures Find(a, id) == Find(b, id) { FindIgnoresOrder(a, b, id); }
    if forall i :: 0 <= i < |p| ==> Find(a, p[i].participantId).Some? {
      forall i | 0 <= i < |q| ensures Find(b, q[i].participantId).Some? { assert q[i] in p; }
      var f := (x: Allocation) => Explanation(x.participantId,
        if Find(a, x.participantId).Some? then build(Find(a, x.participantId).value, x) else "");
      MappedMultiset(p, q, Explained(p, a, build).value, Explained(q, b, build).value, f);
    } else {
      var i :| 0 <= i < |p| && Find(a, p[i].participantId).None?;
      assert p[i] in q;
      var j :| 0 <= j < |q| && q[j] == p[i];
      assert Find(b, q[j].participantId).None?;
    }
  }
}

/** The largest-remainder (Hamilton) method on naturals, in closed form: every participant gets the
    floor of its exact quota, and the participants of the lowest ranks get one unit more. */
module LargestRemainder {
  import opened Sums
  import opened Sorting
  import opened Ranking

  datatype Entry = Entry(id: string, weight: nat)

  ghost predicate DistinctIds(es: seq<Entry>) {
    forall i, j :: 0 <= i < j < |es| ==> es[i].id != es[j].id
  }

  function WeightOf(): Entry -> int {
    (e: Entry) => e.weight
  }

  function TotalWeight(es: seq<Entry>): (r: nat)
    ensures forall e :: e in es ==> e.weight <= r
  {
    if es == [] then 0 else
      assert forall e :: e in es ==> e == es[0] || e in es[1..];
      es[0].weight + TotalWeight(es[1..])
  }

  lemma {:induction false} TotalWeightIsSum(es: seq<Entry>)
    ensures TotalWeight(es) == SumBy(WeightOf(), es)
  {
    if es != [] { TotalWeightIsSum(es[1..]); }
  }

  function Floor(e: Entry, total: nat, W: nat): nat
    requires W > 0
  {
    total * e.weight / W
  }

  function Remainder(e: Entry, total: nat, W: nat): nat
    requires W > 0
  {
    total * e.weight % W
  }

  /** The order of the priority list: larger remainder first, ties by identifier. */
  predicate Before(a: Entry, b: Entry, total: nat, W: nat)
    requires W > 0
  {
    var ra, rb := Remainder(a, total, W), Remainder(b, total, W);
    ra > rb || (ra == rb && Less(a.id, b.id))
  }

  function PriorityOrder(total: nat, W: nat): (Entry, Entry) -> bool
    requires W > 0
  {
    (a: Entry, b: Entry) => Before(a, b, total, W)
  }

  function FloorOf(total: nat, W: nat): Entry -> int
    requires W > 0
  {
    (e: Entry) => Floor(e, total, W)
  }

  function RemainderOf(total: nat, W: nat): Entry -> int
    requires W > 0
  {
    (e: Entry) => Remainder(e, total, W)
  }

  /** The units left over once every participant has the floor of its quota. */
  function Residual(es: seq<Entry>, total: nat): int
    requires TotalWeight(es) > 0
  {
    total - SumBy(FloorOf(total, TotalWeight(es)), es)
  }

  /** How many participants precede e in the priority list. */
  function Place(es: seq<Entry>, e: Entry, total: nat): int
    requires TotalWeight(es) > 0
  {
    Rank(PriorityOrder(total, TotalWeight(es)), es, e)
  }

  function Share(es: seq<Entry>, e: Entry, total: nat): nat
    requires TotalWeight(es) > 0
  {
    Floor(e, total, TotalWeight(es)) + if Place(es, e, total) < Residual(es, total) then 1 else 0
  }

  function ShareOf(es: seq<Entry>, total: nat): Entry -> int
    requires TotalWeight(es) > 0
  {
    (e: Entry) => Share(es, e, total)
  }

  // ----- The residual -----

  lemma DivMod(n: nat, W: nat)
    requires W > 0
    ensures n == W * (n / W) + n % W && 0 <= n % W < W
  {}

  /** The residual is exactly the remainders put together, and every remainder is below the total weight. */
  lemma {:induction false} ResidualIsRemainders(es: seq<Entry>, total: nat)
    requires TotalWeight(es) > 0
    ensures TotalWeight(es) * Residual(es, total) == SumBy(RemainderOf(total, TotalWeight(es)), es)
  {
    hide SumBy, TotalWeight;
    var W := TotalWeight(es);
    ScaledByParts(es, total, W);
    ScaledByWeight(es, total);
    TotalWeightIsSum(es);
    Distribute(W, Residual(es, total), SumBy(FloorOf(total, W), es));
  }

  function Scaled(total: nat): Entry -> int { (e: Entry) => total * e.weight }

  lemma ScaledByParts(es: seq<Entry>, total: nat, W: nat)
    requires W > 0
    ensures SumBy(Scaled(total), es) == W * SumBy(FloorOf(total, W), es) + 1 * SumBy(RemainderOf(total, W), es)
  {
    hide SumBy;
    forall i | 0 <= i < |es|
      ensures Scaled(total)(es[i]) == W * FloorOf(total, W)(es[i]) + 1 * RemainderOf(total, W)(es[i])
    {
      DivMod(total * es[i].weight, W);
    }
    SumByLinear(FloorOf(total, W), RemainderOf(total, W), Scaled(total), es, W, 1);
  }

  lemma ScaledByWeight(es: seq<Entry>, total: nat)
    ensures SumBy(Scaled(total), es) == total * SumBy(WeightOf(), es) + 0 * SumBy(WeightOf(), es)
  {
    hide SumBy;
    SumByLinear(WeightOf(), WeightOf(), Scaled(total), es, total, 0);
  }

  function Positive(total: nat, W: nat): Entry -> int
    requires W > 0
  {
    (e: Entry) => if Remainder(e, total, W) > 0 then 1 else 0
  }

  lemma {:induction false} PositiveBounds(es: seq<Entry>, total: nat, W: nat)
    requires W > 0
    ensures SumBy(RemainderOf(total, W), es) <= (W - 1) * SumBy(Positive(total, W), es)
    ensures 0 <= SumBy(RemainderOf(total, W), es)
    ensures 0 <= SumBy(Positive(total, W), es) <= |es|
  {
    if es != [] {
      PositiveBounds(es[1..], total, W);
      DivMod(total * es[0].weight, W);
      Distribute(W - 1, Positive(total, W)(es[0]), SumBy(Positive(total, W), es[1..]));
    }
  }

  lemma ResidualArithmetic(W: nat, residual: int, positive: nat, remainders: int)
    requires W > 0 && W * residual == remainders && 0 <= remainders <= (W - 1) * positive
    ensures 0 <= residual
    ensures residual == 0 || residual < positive
  {
    MultipleBounds(W, residual);
    MultipleBounds(W, residual - positive);
    assert (W - 1) * positive == W * positive - positive;
    assert W * (residual - positive) == W * residual - W * positive;
    assert W * (residual - positive) <= -(positive as int);
  }

  lemma MultipleBounds(W: nat, x: int)
    requires W > 0
    ensures x >= 1 ==> W * x >= W
    ensures x <= -1 ==> W * x <= -(W as int)
  {}

  /** The residual never exceeds the number of participants with a non-zero remainder, so handing it
      out one unit at a time never comes back to the head of the priority list. */
  lemma ResidualBounds(es: seq<Entry>, total: nat)
    requires TotalWeight(es) > 0
    ensures 0 <= Residual(es, total)
    ensures Residual(es, total) == 0 || Residual(es, total) < SumBy(Positive(total, TotalWeight(es)), es)
    ensures Residual(es, total) < |es|
  {
    var W := TotalWeight(es);
    ResidualIsRemainders(es, total);
    PositiveBounds(es, total, W);
    ResidualArithmetic(W, Residual(es, total), SumBy(Positive(total, W), es), SumBy(RemainderOf(total, W), es));
    assert es != [];
  }

  // ----- The priority list -----

  lemma PriorityIsStrictOrder(total: nat, W: nat)
    requires W > 0
    ensures StrictOrder(PriorityOrder(total, W))
  {
    LessIsStrictTotalOrder();
  }

  lemma PrioritySeparates(es: seq<Entry>, total: nat, W: nat)
    requires W > 0 && DistinctIds(es)
    ensures Separates(PriorityOrder(total, W), es)
  {
    LessIsStrictTotalOrder();
  }

  /** The position of an entry in the sorted priority list is its rank. */
  lemma SortedPositionIsRank(es: seq<Entry>, total: nat, k: nat)
    requires TotalWeight(es) > 0 && DistinctIds(es) && k < |es|
    ensures Place(es, Sort(es, PriorityOrder(total, TotalWeight(es)))[k], total) == k
  {
    var W := TotalWeight(es);
    PriorityIsStrictOrder(total, W);
    PrioritySeparates(es, total, W);
    PositionIsRank(PriorityOrder(total, W), es, k);
  }

  // ----- The main properties of the shares -----

  /** Conservation: the shares add up to the distributed total. */
  lemma SharesSumToTotal(es: seq<Entry>, total: nat)
    requires TotalWeight(es) > 0 && DistinctIds(es)
    ensures SumBy(ShareOf(es, total), es) == total
  {
    hide Residual, Place, Floor, SumBy;
    var W := TotalWeight(es);
    var bonus := Bonus(es, total);
    BonusSum(es, total);
    forall i | 0 <= i < |es| ensures ShareOf(es, total)(es[i]) == 1 * FloorOf(total, W)(es[i]) + 1 * bonus(es[i]) {}
    SumByLinear(FloorOf(total, W), bonus, ShareOf(es, total), es, 1, 1);
    ResidualIs(es, total);
  }

  lemma ResidualIs(es: seq<Entry>, total: nat)
    requires TotalWeight(es) > 0
    ensures Residual(es, total) == total - SumBy(FloorOf(total, TotalWeight(es)), es)
  {}

  function Bonus(es: seq<Entry>, total: nat): Entry -> int
    requires TotalWeight(es) > 0
  {
    (e: Entry) => if Place(es, e, total) < Residual(es, total) then 1 else 0
  }

  /** The extra units are exactly the residual. */
  lemma BonusSum(es: seq<Entry>, total: nat)
    requires TotalWeight(es) > 0 && DistinctIds(es)
    ensures SumBy(Bonus(es, total), es) == Residual(es, total)
  {
    hide Residual, Place, Sort, SumBy, PriorityOrder;
    var bonus := Bonus(es, total);
    var priority := Sort(es, PriorityOrder(total, TotalWeight(es)));
    var R := Residual(es, total);
    ResidualBounds(es, total);
    forall k | 0 <= k < |priority| ensures bonus(priority[k]) == if k < R then 1 else 0 {
      SortedPositionIsRank(es, total, k);
    }
    assert priority == priority[..R] + priority[R..];
    SumByConcat(bonus, priority[..R], priority[R..]);
    SumByConstant(bonus, priority[..R], 1);
    SumByConstant(bonus, priority[R..], 0);
    SumByPermutation(bonus, es, priority);
  }

  lemma {:induction false} PositivesPrecede(es: seq<Entry>, e: Entry, total: nat, W: nat)
    requires W > 0 && Remainder(e, total, W) == 0
    ensures SumBy(Precedes(PriorityOrder(total, W), e), es) >= SumBy(Positive(total, W), es)
  {
    if es != [] { PositivesPrecede(es[1..], e, total, W); }
  }

  /** An exact quota is paid exactly; in particular a zero weight is paid nothing. */
  lemma ExactQuotaIsExact(es: seq<Entry>, e: Entry, total: nat)
    requires TotalWeight(es) > 0
    requires Remainder(e, total, TotalWeight(es)) == 0
    ensures Share(es, e, total) == Floor(e, total, TotalWeight(es))
  {
    assert Residual(es, total) <= Place(es, e, total) by {
      ResidualBounds(es, total);
      PositivesPrecede(es, e, total, TotalWeight(es));
      PositiveBounds(es, total, TotalWeight(es));
    }
  }

  lemma ZeroWeightGetsNothing(es: seq<Entry>, e: Entry, total: nat)
    requires TotalWeight(es) > 0 && e.weight == 0
    ensures Share(es, e, total) == 0
  {
    assert total * e.weight == 0;
    ZeroOver(TotalWeight(es));
    ExactQuotaIsExact(es, e, total);
  }

  lemma ZeroOver(W: nat)
    requires W > 0
    ensures 0 / W == 0 && 0 % W == 0
  {}

  /** The quota rule: every share lies strictly within one unit of the exact quota
      total * weight / totalWeight, so it is one of the two integers around it. */
  lemma QuotaRule(es: seq<Entry>, e: Entry, total: nat)
    requires TotalWeight(es) > 0
    ensures -(TotalWeight(es) as int) < Share(es, e, total) * TotalWeight(es) - total * e.weight < TotalWeight(es)
  {
    if Remainder(e, total, TotalWeight(es)) == 0 { ExactQuotaIsExact(es, e, total); }
    QuotaArithmetic(total * e.weight, TotalWeight(es), Share(es, e, total));
  }

  lemma QuotaArithmetic(n: nat, W: nat, s: nat)
    requires W > 0
    requires s == n / W || (s == n / W + 1 && n % W > 0)
    ensures -(W as int) < s * W - n < W
  {
    DivMod(n, W);
    Distribute(W, n / W, 1);
  }

  lemma {:induction false} RankMonotone(es: seq<Entry>, a: Entry, b: Entry, total: nat, W: nat)
    requires W > 0 && Before(a, b, total, W)
    ensures SumBy(Precedes(PriorityOrder(total, W), a), es) <= SumBy(Precedes(PriorityOrder(total, W), b), es)
  {
    if es != [] {
      PriorityIsStrictOrder(total, W);
      var lt := PriorityOrder(total, W);
      assert lt(es[0], a) && lt(a, b) ==> lt(es[0], b);
      RankMonotone(es[1..], a, b, total, W);
    }
  }

  lemma FloorMonotone(a: nat, b: nat, W: nat)
    requires W > 0 && a <= b
    ensures a / W <= b / W
    ensures a / W == b / W && a < b ==> a % W < b % W
  {
    DivMod(a, W);
    DivMod(b, W);
    assert W * (a / W - b / W) == W * (a / W) - W * (b / W);
    assert W * (a / W - b / W) < W;
    MultipleBounds(W, a / W - b / W);
  }

  /** Fairness: a larger weight never gets less; of equal weights the earlier identifier never gets less, and
      at most one unit more. */
  lemma FairShares(es: seq<Entry>, a: Entry, b: Entry, total: nat)
    requires TotalWeight(es) > 0
    ensures a.weight > b.weight ==> Share(es, a, total) >= Share(es, b, total)
    ensures a.weight == b.weight ==> -1 <= Share(es, a, total) - Share(es, b, total) <= 1
    ensures a.weight == b.weight && Less(a.id, b.id) ==> Share(es, a, total) >= Share(es, b, total)
  {
    var W := TotalWeight(es);
    if a.weight == b.weight && Less(a.id, b.id) { RankMonotone(es, a, b, total, W); }
    if a.weight > b.weight && total > 0 {
      assert total * a.weight > total * b.weight by { Distribute(total, a.weight - b.weight, b.weight); }
      FloorMonotone(total * b.weight, total * a.weight, W);
      if Floor(a, total, W) == Floor(b, total, W) { RankMonotone(es, a, b, total, W); }
    } else if a.weight > b.weight {
      assert total * a.weight == 0 == total * b.weight;
      ZeroOver(W);
      ExactQuotaIsExact(es, a, total);
      ExactQuotaIsExact(es, b, total);
    }
  }

  /** Who is served: of two participants, one rounded up and the other down, the first has the larger remainder
      or, the remainders being equal, the earlier identifier. */
  lemma ServedFirst(es: seq<Entry>, a: Entry, b: Entry, total: nat)
    requires TotalWeight(es) > 0 && DistinctIds(es) && a in es && b in es
    requires Share(es, a, total) == total * a.weight / TotalWeight(es) + 1
    requires Share(es, b, total) == total * b.weight / TotalWeight(es)
    ensures var ra, rb := total * a.weight % TotalWeight(es), total * b.weight % TotalWeight(es);
            ra > rb || (ra == rb && Less(a.id, b.id))
  {
    var W := TotalWeight(es);
    if Before(b, a, total, W) { RankMonotone(es, b, a, total, W); }
    LessIsStrictTotalOrder();
    assert a.id != b.id;
  }

  /** Order independence: rearranging the participants changes nobody's share. */
  lemma OrderIndependence(es: seq<Entry>, fs: seq<Entry>, e: Entry, total: nat)
    requires multiset(es) == multiset(fs)
    requires TotalWeight(es) > 0
    ensures TotalWeight(fs) == TotalWeight(es)
    ensures Share(fs, e, total) == Share(es, e, total)
  {
    TotalWeightIsSum(es);
    TotalWeightIsSum(fs);
    SumByPermutation(WeightOf(), es, fs);
    var W := TotalWeight(es);
    SumByPermutation(FloorOf(total, W), es, fs);
    SumByPermutation(Precedes(PriorityOrder(total, W), e), es, fs);
  }

  // ----- Optimality -----

  function Abs(x: int): nat { if x < 0 then -x else x }

  /** The total distance of an apportionment from the exact quotas, scaled by the total weight W. */
  function Deviation(v: seq<int>, es: seq<Entry>, total: nat, W: nat): nat
    requires |v| == |es|
  {
    if v == [] then 0 else Abs(v[0] * W - total * es[0].weight) + Deviation(v[1..], es[1..], total, W)
  }

  /** The slope argument for one participant: replacing the share s by x costs at least the common
      slope W - 2 * star per unit, where star separates the rounded-up from the rounded-down. */
  lemma OneDeviation(x: int, s: int, n: nat, W: nat, star: nat)
    requires W > 0 && star <= W
    requires (s == n / W && n % W <= star) || (s == n / W + 1 && n % W >= star)
    ensures Abs(x * W - n) - Abs(s * W - n) >= (W - 2 * star) * (x - s)
  {
    DivMod(n, W);
    var q, r := n / W, n % W;
    var y := x - s;
    assert x * W - n == y * W + (s * W - n) by { Distribute(W, y, s); }
    var d := s * W - n;
    if s == q {
      assert d == 0 - r;
    } else {
      assert s * W == q * W + W by { Distribute(W, q, 1); }
      assert d == W - r;
    }
    SlopeBound(y, d, W, star);
  }

  lemma SlopeBound(y: int, d: int, W: nat, star: nat)
    requires W > 0 && star <= W
    requires (0 - star <= d <= 0) || (0 <= d <= W - star)
    ensures Abs(y * W + d) - Abs(d) >= (W - 2 * star) * y
  {
    var a, b := W * y, star * y;
    SlopeTerms(W, star, y);
    AtLeastSlope(y, W);
    AtLeastSlope(y, star);
    AtLeastSlope(y, W - star);
    assert y == 0 ==> a == 0 && b == 0;
  }

  lemma SlopeTerms(W: int, star: int, y: int)
    ensures (W - 2 * star) * y == W * y - 2 * (star * y)
    ensures (W - star) * y == W * y - star * y
    ensures y * W == W * y
  {}

  lemma AtLeastSlope(y: int, c: nat)
    ensures y >= 1 ==> c * y >= c
    ensures y <= -1 ==> c * y <= 0 - c
    ensures y == 0 ==> c * y == 0
  {}

  /** s rounds every quota, up only where the remainder is at least star, down only where it is at most star. */
  ghost predicate RoundedAt(s: seq<int>, es: seq<Entry>, total: nat, W: nat, star: nat)
    requires |s| == |es| && W > 0
  {
    forall i :: 0 <= i < |es| ==>
      if s[i] == Floor(es[i], total, W) then Remainder(es[i], total, W) <= star
      else s[i] == Floor(es[i], total, W) + 1 && Remainder(es[i], total, W) >= star
  }

  lemma {:induction false} DeviationBound(v: seq<int>, s: seq<int>, es: seq<Entry>, total: nat, W: nat, star: nat,
                                          slope: int)
    requires |v| == |s| == |es| && W > 0 && star <= W && slope == W - 2 * star
    requires RoundedAt(s, es, total, W, star)
    ensures Deviation(v, es, total, W) - Deviation(s, es, total, W) >= slope * (Sum(v) - Sum(s))
  {
    if v != [] {
      OneDeviation(v[0], s[0], total * es[0].weight, W, star);
      assert forall i :: 0 <= i < |es[1..]| ==> es[1..][i] == es[i+1] && s[1..][i] == s[i+1];
      DeviationBound(v[1..], s[1..], es[1..], total, W, star, slope);
      Distribute(slope, v[0] - s[0], Sum(v[1..]) - Sum(s[1..]));
    }
  }

  function Shares(es: seq<Entry>, total: nat): (r: seq<int>)
    requires TotalWeight(es) > 0
    ensures |r| == |es|
  {
    seq(|es|, i requires 0 <= i < |es| => Share(es, es[i], total))
  }

  lemma RankInPriority(es: seq<Entry>, i: nat, total: nat) returns (k: nat)
    requires TotalWeight(es) > 0 && DistinctIds(es) && i < |es|
    ensures k < |es| && Sort(es, PriorityOrder(total, TotalWeight(es)))[k] == es[i]
    ensures Place(es, es[i], total) == k
  {
    var priority := Sort(es, PriorityOrder(total, TotalWeight(es)));
    assert es[i] in multiset(priority);
    k :| 0 <= k < |priority| && priority[k] == es[i];
    SortedPositionIsRank(es, total, k);
  }

  lemma PriorityRemainders(es: seq<Entry>, total: nat, j: nat, k: nat)
    requires TotalWeight(es) > 0 && DistinctIds(es) && j <= k < |es|
    ensures var priority := Sort(es, PriorityOrder(total, TotalWeight(es)));
            Remainder(priority[j], total, TotalWeight(es)) >= Remainder(priority[k], total, TotalWeight(es))
  {
    var W := TotalWeight(es);
    var priority := Sort(es, PriorityOrder(total, W));
    PriorityIsStrictOrder(total, W);
    PrioritySeparates(es, total, W);
    SortAscending(es, PriorityOrder(total, W));
    assert j < k ==> PriorityOrder(total, W)(priority[j], priority[k]);
  }

  /** The remainder of the first participant not rounded up separates the two groups. */
  lemma Threshold(es: seq<Entry>, total: nat) returns (star: nat)
    requires TotalWeight(es) > 0 && DistinctIds(es)
    ensures star < TotalWeight(es)
    ensures RoundedAt(Shares(es, total), es, total, TotalWeight(es), star)
  {
    var W := TotalWeight(es);
    ResidualBounds(es, total);
    var R := Residual(es, total);
    star := Remainder(Sort(es, PriorityOrder(total, W))[R], total, W);
    forall i | 0 <= i < |es|
      ensures if Shares(es, total)[i] == Floor(es[i], total, W) then Remainder(es[i], total, W) <= star
              else Shares(es, total)[i] == Floor(es[i], total, W) + 1 && Remainder(es[i], total, W) >= star
    {
      var k := RankInPriority(es, i, total);
      if k < R { PriorityRemainders(es, total, k, R); } else { PriorityRemainders(es, total, R, k); }
    }
  }

  lemma RoundedIsOptimal(v: seq<int>, s: seq<int>, es: seq<Entry>, total: nat, W: nat, star: nat)
    requires |v| == |s| == |es| && W > 0 && star <= W
    requires RoundedAt(s, es, total, W, star)
    requires Sum(v) == Sum(s)
    ensures Deviation(s, es, total, W) <= Deviation(v, es, total, W)
  {
    hide RoundedAt, Deviation, Sum;
    var slope := W - 2 * star;
    DeviationBound(v, s, es, total, W, star, slope);
    NoSlope(slope, Sum(v) - Sum(s));
  }

  lemma NoSlope(slope: int, x: int)
    requires x == 0
    ensures slope * x == 0
  {}

  lemma SharesTotal(es: seq<Entry>, total: nat)
    requires TotalWeight(es) > 0 && DistinctIds(es)
    ensures Sum(Shares(es, total)) == total
  {
    SharesSumToTotal(es, total);
    SumByListed(ShareOf(es, total), es, Shares(es, total));
  }

  /** Optimality: no integer vector with the same total, negative entries allowed, lies closer to the
      exact quotas than the largest-remainder shares. */
  lemma Optimality(es: seq<Entry>, total: nat, v: seq<int>)
    requires TotalWeight(es) > 0 && DistinctIds(es)
    requires |v| == |es| && Sum(v) == total
    ensures Deviation(Shares(es, total), es, total, TotalWeight(es)) <= Deviation(v, es, total, TotalWeight(es))
  {
    var star := Threshold(es, total);
    SharesTotal(es, total);
    RoundedIsOptimal(v, Shares(es, total), es, total, TotalWeight(es), star);
  }

  // ----- The algorithm -----

  /** Every participant gets the floor of its quota. */
  method FloorUnits(es: seq<Entry>, total: nat) returns (units: map<string, nat>, floors: nat)
    requires TotalWeight(es) > 0 && DistinctIds(es)
    ensures floors == SumBy(FloorOf(total, TotalWeight(es)), es)
    ensures forall e :: e in es ==> e.id in units && units[e.id] == Floor(e, total, TotalWeight(es))
  {
    var W := TotalWeight(es);
    units := map[];
    floors := 0;
    for i := 0 to |es|
      invariant floors == SumBy(FloorOf(total, W), es[..i])
      invariant forall j :: 0 <= j < i ==> es[j].id in units && units[es[j].id] == Floor(es[j], total, W)
    {
      var share := Floor(es[i], total, W);
      units := units[es[i].id := share];
      floors := floors + share;
      assert es[..i+1] == es[..i] + [es[i]];
      SumByConcat(FloorOf(total, W), es[..i], [es[i]]);
      assert SumBy(FloorOf(total, W), [es[i]]) == share;
    }
    assert es[..|es|] == es;
  }

  /** The floors, then the residual handed out one unit at a time along the sorted priority list. */
  method DistributeUnits(es: seq<Entry>, total: nat) returns (units: map<string, nat>)
    requires TotalWeight(es) > 0 && DistinctIds(es)
    ensures forall e :: e in es ==> e.id in units && units[e.id] == Share(es, e, total)
  {
    var W := TotalWeight(es);
    var floors;
    units, floors := FloorUnits(es, total);
    var residual := total - floors;
    var priority := Sort(es, PriorityOrder(total, W));
    PriorityEntries(es, total);
    ResidualBounds(es, total);
    var index := 0;
    forall k | 0 <= k < |es| ensures priority[k].id in units && units[priority[k].id] == Floor(priority[k], total, W) {
      assert priority[k] in es;
    }
    while residual > 0
      invariant 0 <= index && residual == Residual(es, total) - index && residual >= 0
      invariant forall k :: 0 <= k < |es| ==> (priority[k].id in units
        && units[priority[k].id] == Floor(priority[k], total, W) + if k < index then 1 else 0)
      decreases residual
    {
      InRange(index, |priority|);
      var id := priority[index % |priority|].id;
      units := units[id := units[id] + 1];
      index, residual := index + 1, residual - 1;
    }
    forall e | e in es ensures e.id in units && units[e.id] == Share(es, e, total) {
      var i :| 0 <= i < |es| && es[i] == e;
      var k := RankInPriority(es, i, total);
      assert priority[k].id in units;
    }
  }

  lemma InRange(index: nat, length: nat)
    requires index < length
    ensures index % length == index
  {}

  lemma PriorityEntries(es: seq<Entry>, total: nat)
    requires TotalWeight(es) > 0 && DistinctIds(es)
    ensures forall k :: 0 <= k < |es| ==> Sort(es, PriorityOrder(total, TotalWeight(es)))[k] in es
    ensures forall j, k :: 0 <= j < k < |es| ==>
              Sort(es, PriorityOrder(total, TotalWeight(es)))[j].id !=
              Sort(es, PriorityOrder(total, TotalWeight(es)))[k].id
  {
    var priority := Sort(es, PriorityOrder(total, TotalWeight(es)));
    forall k | 0 <= k < |es| ensures priority[k] in es {
      assert priority[k] in multiset(priority);
    }
    forall j, k | 0 <= j < k < |es| ensures priority[j].id != priority[k].id {
      var a :| 0 <= a < |es| && es[a] == priority[j];
      var b :| 0 <= b < |es| && es[b] == priority[k];
      SortedPositionIsRank(es, total, j);
      SortedPositionIsRank(es, total, k);
      assert a != b;
    }
  }
}

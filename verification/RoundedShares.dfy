/** The largest-remainder method on decimals that are cut to p significant digits: the quotas are not
    exact, so the units left over need not be fewer than the participants, nor non-negative. */
module RoundedShares {
  import opened Sums
  import opened Sorting
  import opened Ranking
  import opened DecimalText
  import opened TruncatedDecimals

  datatype Entry = Entry(id: string, weight: Decimal)

  ghost predicate DistinctIds(es: seq<Entry>) {
    forall i, j :: 0 <= i < j < |es| ==> es[i].id != es[j].id
  }

  /** The weights added one after the other, each sum cut. */
  function TotalWeight(es: seq<Entry>, p: nat): Decimal
    requires p > 0
  {
    if es == [] then 0.0 else Cut(TotalWeight(es[..|es|-1], p) + es[|es|-1].weight, p)
  }

  /** The exact sum of the weights. */
  function ExactWeight(es: seq<Entry>): Decimal {
    if es == [] then 0.0 else ExactWeight(es[..|es|-1]) + es[|es|-1].weight
  }

  lemma NotNegative(x: real, y: real)
    requires x >= 0.0 && y >= 0.0
    ensures x * y >= 0.0
  {}

  lemma QuotientNotNegative(x: real, d: real)
    requires x >= 0.0 && d > 0.0
    ensures x / d >= 0.0 && (x / d) * d == x
  {
    var y := x / d;
    assert y * d == x;
    Signs(y, d);
  }

  function Product(total: nat, weight: Decimal): Decimal {
    NotNegative(total as real, weight);
    total as real * weight
  }

  function Quotient(x: Decimal, d: Decimal): Decimal
    requires d > 0.0
  {
    QuotientNotNegative(x, d);
    x / d
  }

  /** The quota as computed: the product is cut, then its quotient by the total weight. */
  function Quota(e: Entry, total: nat, W: Decimal, p: nat): Decimal
    requires W > 0.0 && p > 0
  {
    Cut(Quotient(Cut(Product(total, e.weight), p), W), p)
  }

  function Whole(e: Entry, total: nat, W: Decimal, p: nat): nat
    requires W > 0.0 && p > 0
  {
    Quota(e, total, W, p).Floor
  }

  function Fraction(x: Decimal): Decimal { x - x.Floor as real }

  function Remainder(e: Entry, total: nat, W: Decimal, p: nat): Decimal
    requires W > 0.0 && p > 0
  {
    Cut(Fraction(Quota(e, total, W, p)), p)
  }

  /** The order of the priority list: larger remainder first, ties by identifier. */
  function PriorityOrder(total: nat, W: Decimal, p: nat): (Entry, Entry) -> bool
    requires W > 0.0 && p > 0
  {
    (a: Entry, b: Entry) =>
      var ra, rb := Remainder(a, total, W, p), Remainder(b, total, W, p);
      ra > rb || (ra == rb && Less(a.id, b.id))
  }

  function UnitsOf(total: nat, W: Decimal, p: nat): Entry -> int
    requires W > 0.0 && p > 0
  {
    (e: Entry) => Whole(e, total, W, p)
  }

  /** What the whole units leave over; negative when they exceed the total. */
  function Residual(es: seq<Entry>, total: nat, p: nat): int
    requires p > 0 && TotalWeight(es, p) > 0.0
  {
    total - SumBy(UnitsOf(total, TotalWeight(es, p), p), es)
  }

  /** How often position k is met when R units are handed out in turn to n positions. */
  function Turns(k: int, R: int, n: nat): nat
    requires n > 0
  {
    if R <= k then 0 else 1 + (R - k - 1) / n
  }

  function Share(es: seq<Entry>, e: Entry, total: nat, p: nat): nat
    requires p > 0 && TotalWeight(es, p) > 0.0
  {
    var W := TotalWeight(es, p);
    Whole(e, total, W, p) + Turns(Rank(PriorityOrder(total, W, p), es, e), Residual(es, total, p), |es|)
  }

  function ShareOf(es: seq<Entry>, total: nat, p: nat): Entry -> int
    requires p > 0 && TotalWeight(es, p) > 0.0
  {
    (e: Entry) => Share(es, e, total, p)
  }

  // ----- The priority list -----

  lemma PriorityIsStrictOrder(total: nat, W: Decimal, p: nat)
    requires W > 0.0 && p > 0
    ensures StrictOrder(PriorityOrder(total, W, p))
  {
    hide Remainder;
    LessIsStrictTotalOrder();
  }

  lemma PrioritySeparates(es: seq<Entry>, total: nat, W: Decimal, p: nat)
    requires W > 0.0 && p > 0 && DistinctIds(es)
    ensures Separates(PriorityOrder(total, W, p), es)
  {
    hide Remainder;
    LessIsStrictTotalOrder();
  }

  // ----- Handing out -----

  /** One unit more, handed to the position whose turn it is. */
  lemma NextTurn(k: nat, R: nat, n: nat)
    requires k < n
    ensures Turns(k, R + 1, n) == Turns(k, R, n) + if R % n == k then 1 else 0
  {
    if R < k {
      SmallIndex(R, n);
    } else if R == k {
      SmallIndex(R, n);
      assert 0 / n == 0;
    } else {
      Wraps(R, k, n);
    }
  }

  lemma SmallIndex(R: nat, n: nat)
    requires R < n
    ensures R % n == R && R / n == 0
  {}

  lemma Wraps(R: nat, k: nat, n: nat)
    requires k < n && R > k
    ensures (R - k) / n == (R - k - 1) / n + if R % n == k then 1 else 0
  {
    var q, r := R / n, R % n;
    assert R == q * n + r && 0 <= r < n;
    if r >= k {
      QuotientIs(R - k, n, q, r - k);
      if r == k { QuotientIs(R - k - 1, n, q - 1, n - 1); } else { QuotientIs(R - k - 1, n, q, r - k - 1); }
    } else {
      QuotientIs(R - k, n, q - 1, n + r - k);
      QuotientIs(R - k - 1, n, q - 1, n + r - k - 1);
    }
  }

  lemma QuotientIs(x: int, n: nat, q: int, r: int)
    requires n > 0 && x == q * n + r && 0 <= r < n
    ensures x / n == q
  {
    var d := x / n - q;
    assert x == (x / n) * n + x % n;
    assert d * n == (x / n) * n - q * n;
    if d >= 1 { AtLeastOnce(d, n); } else if d <= -1 { AtLeastOnce(-d, n); }
  }

  lemma AtLeastOnce(d: int, n: nat)
    requires d >= 1
    ensures d * n >= n
  {}

  /** The turns of the first m positions. */
  function TurnsUpTo(m: nat, R: int, n: nat): nat
    requires n > 0
  {
    if m == 0 then 0 else TurnsUpTo(m - 1, R, n) + Turns(m - 1, R, n)
  }

  lemma {:induction false} NextTurns(m: nat, R: nat, n: nat)
    requires 0 < n && m <= n
    ensures TurnsUpTo(m, R + 1, n) == TurnsUpTo(m, R, n) + if R % n < m then 1 else 0
  {
    hide Turns;
    if m > 0 {
      NextTurns(m - 1, R, n);
      NextTurn(m - 1, R, n);
    }
  }

  /** All units are handed out. */
  lemma {:induction false} AllTurns(R: int, n: nat)
    requires n > 0
    ensures TurnsUpTo(n, R, n) == if R > 0 then R else 0
    decreases if R > 0 then R else 0
  {
    if R <= 0 {
      NoTurns(n, R, n);
    } else {
      AllTurns(R - 1, n);
      NextTurns(n, R - 1, n);
      assert (R - 1) % n < n;
    }
  }

  lemma {:induction false} NoTurns(m: nat, R: int, n: nat)
    requires n > 0 && R <= 0
    ensures TurnsUpTo(m, R, n) == 0
  {
    if m > 0 { NoTurns(m - 1, R, n); }
  }

  // ----- The algorithm -----

  /** Every participant gets the whole units of its quota. */
  method WholeUnits(es: seq<Entry>, total: nat, p: nat) returns (units: map<string, nat>, sum: nat)
    requires p > 0 && TotalWeight(es, p) > 0.0 && DistinctIds(es)
    ensures sum == SumBy(UnitsOf(total, TotalWeight(es, p), p), es)
    ensures forall e <- es :: e.id in units && units[e.id] == Whole(e, total, TotalWeight(es, p), p)
  {
    hide Whole, TotalWeight;
    var W := TotalWeight(es, p);
    units, sum := map[], 0;
    for i := 0 to |es|
      invariant sum == SumBy(UnitsOf(total, W, p), es[..i])
      invariant forall j :: 0 <= j < i ==> es[j].id in units && units[es[j].id] == Whole(es[j], total, W, p)
    {
      var share := Whole(es[i], total, W, p);
      units, sum := units[es[i].id := share], sum + share;
      assert es[..i+1] == es[..i] + [es[i]];
      SumByConcat(UnitsOf(total, W, p), es[..i], [es[i]]);
      assert SumBy(UnitsOf(total, W, p), [es[i]]) == share;
    }
    assert es[..|es|] == es;
  }

  /** What is left over goes out one unit at a time along the priority list, from its head again after its
      end. */
  method HandOut(units: map<string, nat>, priority: seq<Entry>, left: int) returns (result: map<string, nat>)
    requires priority != [] && DistinctIds(priority) && forall e <- priority :: e.id in units
    ensures forall k :: 0 <= k < |priority| ==> (priority[k].id in result
              && result[priority[k].id] == units[priority[k].id] + Turns(k, left, |priority|))
  {
    hide Turns;
    var n, residual, index := |priority|, left, 0;
    result := units;
    forall k | 0 <= k < n ensures Turns(k, 0, n) == 0 { NoTurn(k, 0, n); }
    while residual > 0
      invariant index >= 0 && residual == left - index && (residual < 0 ==> index == 0)
      invariant forall k :: 0 <= k < n ==> (priority[k].id in result
        && result[priority[k].id] == units[priority[k].id] + Turns(k, index, n))
      decreases residual
    {
      var id := priority[index % n].id;
      forall k | 0 <= k < n ensures Turns(k, index + 1, n) == Turns(k, index, n) + if index % n == k then 1 else 0 {
        NextTurn(k, index, n);
      }
      result := result[id := result[id] + 1];
      index, residual := index + 1, residual - 1;
    }
    if left < 0 {
      forall k | 0 <= k < n ensures Turns(k, left, n) == 0 { NoTurn(k, left, n); }
    }
  }

  /** The whole units, then what they leave over along the sorted priority list. */
  method DistributeUnits(es: seq<Entry>, total: nat, p: nat) returns (units: map<string, nat>)
    requires p > 0 && TotalWeight(es, p) > 0.0 && DistinctIds(es)
    ensures forall e <- es :: e.id in units && units[e.id] == Share(es, e, total, p)
  {
    hide Whole, TotalWeight, Turns, Rank, Remainder, StrictOrder, Separates, DistinctIds;
    var W := TotalWeight(es, p);
    NotEmpty(es, p);
    var whole, sum := WholeUnits(es, total, p);
    var priority := Sort(es, PriorityOrder(total, W, p));
    PriorityIsStrictOrder(total, W, p);
    PrioritySeparates(es, total, W, p);
    PriorityIds(es, total, W, p);
    units := HandOut(whole, priority, total - sum);
    forall e | e in es ensures e.id in units && units[e.id] == Share(es, e, total, p) {
      var i :| 0 <= i < |es| && es[i] == e;
      var k := RankIsPosition(PriorityOrder(total, W, p), es, i);
      assert priority[k].id in units;
    }
  }

  lemma NoTurn(k: nat, R: int, n: nat)
    requires n > 0 && R <= 0
    ensures Turns(k, R, n) == 0
  {}

  lemma NotEmpty(es: seq<Entry>, p: nat)
    requires p > 0 && TotalWeight(es, p) > 0.0
    ensures |es| > 0
  {}

  lemma PriorityIds(es: seq<Entry>, total: nat, W: Decimal, p: nat)
    requires W > 0.0 && p > 0 && DistinctIds(es)
    ensures forall e <- Sort(es, PriorityOrder(total, W, p)) :: e in es
    ensures DistinctIds(Sort(es, PriorityOrder(total, W, p)))
  {
    hide Remainder, Rank, StrictOrder, Separates;
    var lt := PriorityOrder(total, W, p);
    var priority := Sort(es, lt);
    PriorityIsStrictOrder(total, W, p);
    PrioritySeparates(es, total, W, p);
    forall e | e in priority ensures e in es { assert e in multiset(priority); }
    forall j, k | 0 <= j < k < |priority| ensures priority[j].id != priority[k].id {
      assert priority[j] in priority && priority[k] in priority;
      var a :| 0 <= a < |es| && es[a] == priority[j];
      var b :| 0 <= b < |es| && es[b] == priority[k];
      PositionIsRank(lt, es, j);
      PositionIsRank(lt, es, k);
      assert a != b;
    }
  }

  // ----- Conservation -----

  function TurnsOf(es: seq<Entry>, total: nat, p: nat): Entry -> int
    requires p > 0 && TotalWeight(es, p) > 0.0
  {
    var lt := PriorityOrder(total, TotalWeight(es, p), p);
    (e: Entry) => Turns(Rank(lt, es, e), Residual(es, total, p), |es|)
  }

  lemma {:induction false} TurnsListed(f: Entry -> int, s: seq<Entry>, m: nat, R: int, n: nat)
    requires m <= |s| && n > 0
    requires forall k :: 0 <= k < |s| ==> f(s[k]) == Turns(k, R, n)
    ensures SumBy(f, s[..m]) == TurnsUpTo(m, R, n)
  {
    hide Turns;
    if m > 0 {
      TurnsListed(f, s, m - 1, R, n);
      assert s[..m] == s[..m-1] + [s[m-1]];
      SumByConcat(f, s[..m-1], [s[m-1]]);
      assert SumBy(f, [s[m-1]]) == f(s[m-1]);
    }
  }

  lemma TurnsTotal(es: seq<Entry>, total: nat, p: nat)
    requires p > 0 && TotalWeight(es, p) > 0.0 && DistinctIds(es)
    ensures SumBy(TurnsOf(es, total, p), es) == if Residual(es, total, p) > 0 then Residual(es, total, p) else 0
  {
    hide Turns, Rank, Residual, SumBy, Sort, StrictOrder, Separates, DistinctIds, TotalWeight, Remainder;
    var lt := PriorityOrder(total, TotalWeight(es, p), p);
    var R, n, f := Residual(es, total, p), |es|, TurnsOf(es, total, p);
    NotEmpty(es, p);
    PriorityIsStrictOrder(total, TotalWeight(es, p), p);
    PrioritySeparates(es, total, TotalWeight(es, p), p);
    var priority := Sort(es, lt);
    forall k | 0 <= k < n ensures f(priority[k]) == Turns(k, R, n) { PositionIsRank(lt, es, k); }
    TurnsListed(f, priority, n, R, n);
    assert priority[..n] == priority;
    AllTurns(R, n);
    SumByPermutation(f, es, priority);
  }

  /** The shares add up to the total exactly when the whole units do not exceed it. */
  lemma SharesSumToTotal(es: seq<Entry>, total: nat, p: nat)
    requires p > 0 && TotalWeight(es, p) > 0.0 && DistinctIds(es)
    ensures SumBy(ShareOf(es, total, p), es) == total <==> Residual(es, total, p) >= 0
  {
    hide Turns, Rank, Residual, SumBy, DistinctIds, TotalWeight, Whole;
    var f := UnitsOf(total, TotalWeight(es, p), p);
    TurnsTotal(es, total, p);
    SumByLinear(f, TurnsOf(es, total, p), ShareOf(es, total, p), es, 1, 1);
    ResidualIs(es, total, p);
  }

  lemma ResidualIs(es: seq<Entry>, total: nat, p: nat)
    requires p > 0 && TotalWeight(es, p) > 0.0
    ensures Residual(es, total, p) == total - SumBy(UnitsOf(total, TotalWeight(es, p), p), es)
  {}

  // ----- How far the cuts go -----

  function Scale(p: nat): real
    requires p > 0
  {
    Pow10(p - 1) as real
  }

  /** One quota, multiplied by the total weight, is at most the exact product, and short of it by at most two
      units of the p-th digit. */
  lemma QuotaError(e: Entry, total: nat, W: Decimal, p: nat)
    requires W > 0.0 && p > 0
    ensures W * Quota(e, total, W, p) <= Product(total, e.weight)
    ensures Scale(p) * (Product(total, e.weight) - W * Quota(e, total, W, p)) <= 2.0 * Product(total, e.weight)
  {
    hide Cut, Pow10, Product, Quotient;
    var a := Product(total, e.weight);
    var b := Cut(a, p);
    CutError(a, p);
    var x := Quotient(b, W);
    var q := Cut(x, p);
    CutError(x, p);
    assert x * W == b by { QuotientNotNegative(b, W); QuotientValue(b, W); }
    TwoErrors(Scale(p), W, a, b, x, q);
  }

  lemma QuotientValue(x: Decimal, d: Decimal)
    requires d > 0.0
    ensures Quotient(x, d) == x / d
  {}

  lemma TwoErrors(w: real, W: real, a: real, b: real, x: real, q: real)
    requires W > 0.0 && x * W == b && b <= a && q <= x && q >= 0.0
    requires w * (a - b) <= b && w * (x - q) <= q
    ensures W * q <= a && w * (a - W * q) <= 2.0 * a
  {
    ScaleUp(q, x, W);
    ScaleUp(w * (x - q), q, W);
    assert W * q == q * W;
    assert (w * (x - q)) * W == w * (b - W * q) by { Regroup(w, x, q, W); }
    assert w * (a - W * q) == w * (a - b) + w * (b - W * q);
  }

  lemma ScaleUp(x: real, y: real, d: real)
    requires x <= y && d > 0.0
    ensures x * d <= y * d
  {
    assert (y - x) * d == y * d - x * d;
    Signs(y - x, d);
  }

  lemma Regroup(w: real, x: real, q: real, W: real)
    ensures (w * (x - q)) * W == w * (x * W - q * W)
  {}

  function QuotaSum(es: seq<Entry>, total: nat, W: Decimal, p: nat): Decimal
    requires W > 0.0 && p > 0
  {
    if es == [] then 0.0 else QuotaSum(es[..|es|-1], total, W, p) + Quota(es[|es|-1], total, W, p)
  }

  lemma {:induction false} QuotaSumError(es: seq<Entry>, total: nat, W: Decimal, p: nat)
    requires W > 0.0 && p > 0
    ensures W * QuotaSum(es, total, W, p) <= Product(total, ExactWeight(es))
    ensures Scale(p) * (Product(total, ExactWeight(es)) - W * QuotaSum(es, total, W, p))
            <= 2.0 * Product(total, ExactWeight(es))
  {
    hide Quota, Scale;
    if es == [] {
      assert W * 0.0 == 0.0 && total as real * 0.0 == 0.0 && Scale(p) * (0.0 - 0.0) == 0.0;
    } else {
      var front, e := es[..|es|-1], es[|es|-1];
      QuotaSumError(front, total, W, p);
      QuotaError(e, total, W, p);
      ProductAdds(total, ExactWeight(front), e.weight);
      ErrorsAdd(Scale(p), W, Product(total, ExactWeight(front)), Product(total, e.weight),
                QuotaSum(front, total, W, p), Quota(e, total, W, p));
    }
  }

  lemma ProductAdds(total: nat, x: Decimal, y: Decimal)
    ensures Product(total, x + y) == Product(total, x) + Product(total, y)
  {}

  lemma ErrorsAdd(w: real, W: real, A: real, a: real, Q: real, q: real)
    requires W * Q <= A && W * q <= a && w * (A - W * Q) <= 2.0 * A && w * (a - W * q) <= 2.0 * a
    ensures W * (Q + q) <= A + a
    ensures w * (A + a - W * (Q + q)) <= 2.0 * (A + a)
  {
    Distribute(W, Q, q);
    Distribute(w, A - W * Q, a - W * q);
    Congruent(w, A + a - W * (Q + q), (A - W * Q) + (a - W * q));
  }

  lemma Distribute(w: real, x: real, y: real)
    ensures w * (x + y) == w * x + w * y
  {}

  lemma Congruent(w: real, x: real, y: real)
    requires x == y
    ensures w * x == w * y
  {}

  /** The sum of the weights as computed is at most the exact one, and short of it by at most a unit of the
      p-th digit for every addition. */
  lemma {:induction false} TotalError(es: seq<Entry>, p: nat)
    requires p > 0
    ensures TotalWeight(es, p) <= ExactWeight(es)
    ensures Scale(p) * (ExactWeight(es) - TotalWeight(es, p)) <= |es| as real * ExactWeight(es)
  {
    hide Cut, Scale, Pow10, TotalWeight, ExactWeight;
    if es == [] {
      NoWeights(p);
      assert Scale(p) * (0.0 - 0.0) == 0.0 && 0.0 * 0.0 == 0.0;
    } else {
      var front, x := es[..|es|-1], es[|es|-1].weight;
      OneMoreWeight(es, p);
      TotalError(front, p);
      CutError(TotalWeight(front, p) + x, p);
      ScaleIs(p);
      NextSum(Scale(p), ExactWeight(front), TotalWeight(front, p), x, TotalWeight(es, p), |front| as real);
      assert |es| as real == |front| as real + 1.0;
    }
  }

  lemma NoWeights(p: nat)
    requires p > 0
    ensures TotalWeight([], p) == 0.0 == ExactWeight([])
  {}

  lemma OneMoreWeight(es: seq<Entry>, p: nat)
    requires p > 0 && es != []
    ensures var front, x := es[..|es|-1], es[|es|-1].weight;
            && TotalWeight(es, p) == Cut(TotalWeight(front, p) + x, p)
            && ExactWeight(es) == ExactWeight(front) + x
  {}

  lemma ScaleIs(p: nat)
    requires p > 0
    ensures Scale(p) == Pow10(p - 1) as real > 0.0
  {}

  lemma NextSum(w: real, S: real, T: real, x: real, t: real, n: real)
    requires T <= S && 0.0 <= x && 0.0 <= T && 0.0 <= n
    requires w * (S - T) <= n * S && t <= T + x && w * (T + x - t) <= t
    ensures w * (S + x - t) <= (n + 1.0) * (S + x)
  {
    Distribute(w, S - T, T + x - t);
    Congruent(w, S + x - t, (S - T) + (T + x - t));
    NotNegative(n, x);
    assert (n + 1.0) * (S + x) == n * S + n * x + (S + x);
  }

  // ----- The residual -----

  /** The sum of the weights is exact, or the total, times the number of participants, needs one digit less
      than the precision. */
  predicate Covers(total: nat, es: seq<Entry>, p: nat)
    requires p > 0
  {
    TotalWeight(es, p) == ExactWeight(es) || (total + 1) * |es| < Pow10(p - 1)
  }

  /** And the total, doubled, needs one digit less. */
  predicate Fits(total: nat, es: seq<Entry>, p: nat)
    requires p > 0
  {
    2 * total < Pow10(p - 1) && Covers(total, es, p)
  }

  function PositiveOf(total: nat, W: Decimal, p: nat): Entry -> int
    requires W > 0.0 && p > 0
  {
    (e: Entry) => if Remainder(e, total, W, p) > 0.0 then 1 else 0
  }

  /** How many participants have a remainder. */
  function Positives(es: seq<Entry>, total: nat, p: nat): int
    requires p > 0 && TotalWeight(es, p) > 0.0
  {
    SumBy(PositiveOf(total, TotalWeight(es, p), p), es)
  }

  /** The quotas are their whole units and fractions, and the fractions stay below one for each participant
      that has any. */
  lemma {:induction false} FractionsBounded(es: seq<Entry>, total: nat, W: Decimal, p: nat)
    requires W > 0.0 && p > 0
    ensures var rest := QuotaSum(es, total, W, p) - SumBy(UnitsOf(total, W, p), es) as real;
            var k := SumBy(PositiveOf(total, W, p), es);
            && 0.0 <= rest && k >= 0 && (if k == 0 then rest == 0.0 else rest < k as real)
  {
    hide Quota;
    if es != [] {
      var front, e := es[..|es|-1], es[|es|-1];
      FractionsBounded(front, total, W, p);
      assert es == front + [e];
      SumByConcat(UnitsOf(total, W, p), front, [e]);
      SumByConcat(PositiveOf(total, W, p), front, [e]);
      SumOfOne(UnitsOf(total, W, p), e);
      SumOfOne(PositiveOf(total, W, p), e);
      CutError(Fraction(Quota(e, total, W, p)), p);
    }
  }

  lemma SumOfOne<T>(f: T -> int, x: T)
    ensures SumBy(f, [x]) == f(x)
  {}

  /** The computed quotas do not exceed the total by one. */
  lemma QuotasBelow(w: real, W: real, S: real, Q: real, t: real, n: real)
    requires 0.0 < W <= S && 0.0 < w && 0.0 <= t && 0.0 <= n && (t + 1.0) * n < w
    requires W * Q <= t * S && w * (S - W) <= n * S
    ensures Q < t + 1.0
  {
    Signs(w, W);
    assert w * W > 0.0;
    Multiplied(w, W, S, Q, t);
    Shortage(w, W, S, t, n);
    BelowNext(w * W, w * S, Q, t);
  }

  lemma Multiplied(w: real, W: real, S: real, Q: real, t: real)
    requires 0.0 < w && W * Q <= t * S
    ensures (w * W) * Q <= t * (w * S)
  {
    ScaleUp(W * Q, t * S, w);
    assert (W * Q) * w == (w * W) * Q && (t * S) * w == t * (w * S);
  }

  lemma Shortage(w: real, W: real, S: real, t: real, n: real)
    requires 0.0 < S && 0.0 <= t && (t + 1.0) * n < w && w * (S - W) <= n * S
    ensures (t + 1.0) * (w * S - w * W) < w * S
  {
    assert w * (S - W) == w * S - w * W;
    ScaleUp(w * S - w * W, n * S, t + 1.0);
    assert (w * S - w * W) * (t + 1.0) == (t + 1.0) * (w * S - w * W);
    assert (n * S) * (t + 1.0) == ((t + 1.0) * n) * S;
    Signs(w - (t + 1.0) * n, S);
    assert (w - (t + 1.0) * n) * S == w * S - ((t + 1.0) * n) * S;
  }

  lemma BelowNext(P: real, R: real, Q: real, t: real)
    requires P > 0.0 && P * Q <= t * R && (t + 1.0) * (R - P) < R
    ensures Q < t + 1.0
  {
    assert (t + 1.0) * (R - P) == t * R + R - (t + 1.0) * P;
    assert (t + 1.0 - Q) * P == (t + 1.0) * P - P * Q;
    Signs(t + 1.0 - Q, P);
  }

  /** The computed quotas are short of the total by less than one. */
  lemma QuotasAbove(w: real, W: real, S: real, Q: real, t: real)
    requires 0.0 < W <= S && 0.0 < w && 0.0 <= Q && 2.0 * t < w
    requires w * (t * S - W * Q) <= 2.0 * (t * S)
    ensures t - Q < 1.0
  {
    var d := 1.0 - (t - Q);
    assert (S - W) * Q == S * Q - W * Q;
    NotNegative(S - W, Q);
    ScaleUp(t * S - S * Q, t * S - W * Q, w);
    assert (t * S - W * Q) * w == w * (t * S - W * Q);
    assert (w * S) * d == w * S - (t * S - S * Q) * w by { Shortfall(w, S, t, Q); }
    assert w * S - 2.0 * (t * S) == (w - 2.0 * t) * S;
    Signs(w - 2.0 * t, S);
    Signs(w, S);
    PositiveFactor(w * S, d);
  }

  lemma Shortfall(w: real, S: real, t: real, Q: real)
    ensures (w * S) * (1.0 - (t - Q)) == w * S - (t * S - S * Q) * w
  {}

  lemma PositiveFactor(x: real, d: real)
    requires x > 0.0 && x * d > 0.0
    ensures d > 0.0
  {
    assert x * d == d * x;
    Signs(d, x);
  }

  /** With an exact sum of the weights the whole units never exceed the total, however large it is. */
  lemma ExactWeightsLeaveNoDebt(es: seq<Entry>, total: nat, p: nat)
    requires p > 0 && TotalWeight(es, p) > 0.0 && TotalWeight(es, p) == ExactWeight(es)
    ensures Residual(es, total, p) >= 0
  {
    hide QuotaSum, Product, UnitsOf, PositiveOf, Scale, Pow10, TotalWeight, ExactWeight, SumBy;
    var W := TotalWeight(es, p);
    QuotaSumError(es, total, W, p);
    FractionsBounded(es, total, W, p);
    ProductIs(total, ExactWeight(es));
    AtMost(W, QuotaSum(es, total, W, p), total as real);
  }

  lemma ProductIs(total: nat, x: Decimal)
    ensures Product(total, x) == total as real * x
  {}

  lemma AtMost(W: real, Q: real, t: real)
    requires W > 0.0 && W * Q <= t * W
    ensures Q <= t
  {
    assert (Q - t) * W == W * Q - t * W;
    Signs(Q - t, W);
  }

  /** In either case the whole units do not exceed the total. */
  lemma CoveredLeavesNoDebt(es: seq<Entry>, total: nat, p: nat)
    requires p > 0 && TotalWeight(es, p) > 0.0 && Covers(total, es, p)
    ensures Residual(es, total, p) >= 0
  {
    hide QuotaSum, Product, UnitsOf, PositiveOf, Scale, Pow10, TotalWeight, ExactWeight, SumBy;
    var W, S := TotalWeight(es, p), ExactWeight(es);
    if W == S {
      ExactWeightsLeaveNoDebt(es, total, p);
    } else {
      TotalError(es, p);
      QuotaSumError(es, total, W, p);
      FractionsBounded(es, total, W, p);
      ProductIs(total, S);
      ScaleIs(p);
      ProductAsReal(total + 1, |es|);
      QuotasBelow(Scale(p), W, S, QuotaSum(es, total, W, p), total as real, |es| as real);
    }
  }

  lemma ProductAsReal(x: int, y: int)
    ensures (x * y) as real == x as real * y as real
  {}

  lemma FewLeft(es: seq<Entry>, total: nat, p: nat)
    requires p > 0 && TotalWeight(es, p) > 0.0 && 2 * total < Pow10(p - 1)
    ensures Residual(es, total, p) <= Positives(es, total, p)
  {
    hide QuotaSum, Product, UnitsOf, PositiveOf, Scale, Pow10, TotalWeight, ExactWeight, SumBy;
    var W, S := TotalWeight(es, p), ExactWeight(es);
    TotalError(es, p);
    QuotaSumError(es, total, W, p);
    FractionsBounded(es, total, W, p);
    ProductIs(total, S);
    ScaleIs(p);
    QuotasAbove(Scale(p), W, S, QuotaSum(es, total, W, p), total as real);
  }

  /** When the total fits, the units left over are not negative, and not more than the participants that have
      a remainder: the priority list is not left, and does not begin again. */
  lemma ResidualBounds(es: seq<Entry>, total: nat, p: nat)
    requires p > 0 && TotalWeight(es, p) > 0.0 && Fits(total, es, p)
    ensures 0 <= Residual(es, total, p) <= Positives(es, total, p) <= |es|
  {
    hide Residual, Positives, TotalWeight;
    CoveredLeavesNoDebt(es, total, p);
    FewLeft(es, total, p);
    PositivesAtMostAll(es, total, p);
  }

  lemma PositivesAtMostAll(es: seq<Entry>, total: nat, p: nat)
    requires p > 0 && TotalWeight(es, p) > 0.0
    ensures Positives(es, total, p) <= |es|
  {
    SumByBounds(PositiveOf(total, TotalWeight(es, p), p), es, 0, 1);
  }

  // ----- Weights of zero -----

  lemma ZeroQuota(e: Entry, total: nat, W: Decimal, p: nat)
    requires W > 0.0 && p > 0 && e.weight == 0.0
    ensures Whole(e, total, W, p) == 0 && Remainder(e, total, W, p) == 0.0
  {
    hide Cut;
    CutZero(p);
    assert total as real * 0.0 == 0.0;
    QuotientNotNegative(0.0, W);
  }

  /** A participant of weight zero gets nothing exactly when no more units are left over than participants
      precede it; otherwise it gets what is handed out in its turns. */
  lemma ZeroWeightGetsNothingExactly(es: seq<Entry>, e: Entry, total: nat, p: nat)
    requires p > 0 && TotalWeight(es, p) > 0.0 && e.weight == 0.0
    ensures Share(es, e, total, p) == 0
            <==> Residual(es, total, p) <= Rank(PriorityOrder(total, TotalWeight(es, p), p), es, e)
  {
    hide Rank, Residual, Whole, TotalWeight;
    ZeroQuota(e, total, TotalWeight(es, p), p);
    NotEmpty(es, p);
  }

  lemma {:induction false} PositivesPrecede(es: seq<Entry>, e: Entry, total: nat, W: Decimal, p: nat)
    requires W > 0.0 && p > 0 && Remainder(e, total, W, p) == 0.0
    ensures Rank(PriorityOrder(total, W, p), es, e) >= SumBy(PositiveOf(total, W, p), es)
  {
    hide Remainder;
    if es != [] { PositivesPrecede(es[1..], e, total, W, p); }
  }

  /** So it gets nothing whenever the total fits. */
  lemma ZeroWeightGetsNothing(es: seq<Entry>, e: Entry, total: nat, p: nat)
    requires p > 0 && TotalWeight(es, p) > 0.0 && e.weight == 0.0 && Fits(total, es, p)
    ensures Share(es, e, total, p) == 0
  {
    hide Rank, Residual, Whole, TotalWeight, Fits;
    var W := TotalWeight(es, p);
    ZeroQuota(e, total, W, p);
    ResidualBounds(es, total, p);
    PositivesPrecede(es, e, total, W, p);
    ZeroWeightGetsNothingExactly(es, e, total, p);
  }

  // ----- Who gets how much -----

  lemma TurnsMonotone(k: nat, l: nat, R: int, n: nat)
    requires k <= l <= k + n && n > 0
    ensures Turns(l, R, n) <= Turns(k, R, n) <= Turns(l, R, n) + 1
  {
    if R > k {
      var x, y := R - k - 1, R - l - 1;
      Euclid(x, n);
      if R > l {
        QuotientsClose(x, y, n);
      } else {
        assert x < n;
        SmallIndex(x, n);
      }
    }
  }

  lemma QuotientsClose(x: nat, y: nat, n: nat)
    requires n > 0 && y <= x <= y + n
    ensures y / n <= x / n <= y / n + 1
  {
    Euclid(x, n);
    Euclid(y, n);
    var d := x / n - y / n;
    assert d * n == (x / n) * n - (y / n) * n;
    if d < 0 { AtLeastOnce(-d, n); }
    if d > 1 { AtLeastOnce(d - 1, n); }
  }

  lemma Euclid(x: nat, n: nat)
    requires n > 0
    ensures x == (x / n) * n + x % n && 0 <= x % n < n
  {}

  /** Every participant of a list without repetition has a place in the priority list. */
  lemma RankInside(es: seq<Entry>, e: Entry, total: nat, W: Decimal, p: nat)
    requires W > 0.0 && p > 0 && DistinctIds(es) && e in es
    ensures 0 <= Rank(PriorityOrder(total, W, p), es, e) < |es|
  {
    hide Remainder, Rank, StrictOrder, Separates;
    PriorityIsStrictOrder(total, W, p);
    PrioritySeparates(es, total, W, p);
    var i :| 0 <= i < |es| && es[i] == e;
    var k := RankIsPosition(PriorityOrder(total, W, p), es, i);
  }

  lemma {:induction false} RankMonotone<T(!new)>(lt: (T, T) -> bool, es: seq<T>, a: T, b: T)
    requires StrictOrder(lt) && lt(a, b)
    ensures Rank(lt, es, a) <= Rank(lt, es, b)
  {
    if es != [] {
      assert lt(es[0], a) && lt(a, b) ==> lt(es[0], b);
      RankMonotone(lt, es[1..], a, b);
    }
  }

  /** Who comes first in the priority list gets as many of the units left over, or one more. */
  lemma FirstGetsNoLess(es: seq<Entry>, a: Entry, b: Entry, total: nat, p: nat)
    requires p > 0 && TotalWeight(es, p) > 0.0 && DistinctIds(es) && a in es && b in es
    requires PriorityOrder(total, TotalWeight(es, p), p)(a, b)
    ensures var W := TotalWeight(es, p);
            var x, y := Share(es, a, total, p) - Whole(a, total, W, p), Share(es, b, total, p) - Whole(b, total, W, p);
            y <= x <= y + 1
  {
    hide Remainder, Rank, Whole, TotalWeight, Residual, Turns, StrictOrder;
    var W := TotalWeight(es, p);
    var lt := PriorityOrder(total, W, p);
    RankInside(es, a, total, W, p);
    RankInside(es, b, total, W, p);
    PriorityIsStrictOrder(total, W, p);
    RankMonotone(lt, es, a, b);
    TurnsMonotone(Rank(lt, es, a), Rank(lt, es, b), Residual(es, total, p), |es|);
  }

  /** Who is served: a participant that gets more of the units left over than another has the larger remainder or,
      the remainders being equal, the earlier identifier. */
  lemma ServedFirst(es: seq<Entry>, a: Entry, b: Entry, total: nat, p: nat)
    requires p > 0 && TotalWeight(es, p) > 0.0 && DistinctIds(es) && a in es && b in es
    requires var W := TotalWeight(es, p);
             Share(es, a, total, p) - Whole(a, total, W, p) > Share(es, b, total, p) - Whole(b, total, W, p)
    ensures var ra, rb := Remainder(a, total, TotalWeight(es, p), p), Remainder(b, total, TotalWeight(es, p), p);
            ra > rb || (ra == rb && Less(a.id, b.id))
  {
    hide Remainder, Whole, TotalWeight, Share;
    LessIsStrictTotalOrder();
    if PriorityOrder(total, TotalWeight(es, p), p)(b, a) { FirstGetsNoLess(es, b, a, total, p); }
    assert a.id != b.id;
  }

  lemma QuotaMonotone(a: Entry, b: Entry, total: nat, W: Decimal, p: nat)
    requires W > 0.0 && p > 0 && a.weight >= b.weight
    ensures Quota(a, total, W, p) >= Quota(b, total, W, p)
  {
    hide Cut;
    ProductIs(total, a.weight);
    ProductIs(total, b.weight);
    NotNegative(a.weight - b.weight, total as real);
    var x, y := Product(total, a.weight), Product(total, b.weight);
    assert x - y == (a.weight - b.weight) * total as real;
    CutMonotone(y, x, p);
    QuotientMonotone(Cut(y, p), Cut(x, p), W);
    CutMonotone(Quotient(Cut(y, p), W), Quotient(Cut(x, p), W), p);
  }

  lemma QuotientMonotone(x: Decimal, y: Decimal, d: Decimal)
    requires d > 0.0 && x <= y
    ensures Quotient(x, d) <= Quotient(y, d)
  {
    QuotientNotNegative(x, d);
    QuotientNotNegative(y, d);
    QuotientValue(x, d);
    QuotientValue(y, d);
    var z := y / d - x / d;
    assert z * d == (y / d) * d - (x / d) * d;
    Signs(z, d);
  }

  /** The remainder is all that the quota has after the point. */
  lemma RemainderIsFraction(e: Entry, total: nat, W: Decimal, p: nat)
    requires W > 0.0 && p > 0
    ensures Remainder(e, total, W, p) == Quota(e, total, W, p) - Whole(e, total, W, p) as real
  {
    hide Cut;
    FractionKept(Quotient(Cut(Product(total, e.weight), p), W), p);
  }

  /** A larger quota gets no less; of equal quotas, as computed, the earlier identifier gets no less, and at most one
      unit more. */
  lemma FairQuotas(es: seq<Entry>, a: Entry, b: Entry, total: nat, p: nat)
    requires p > 0 && TotalWeight(es, p) > 0.0 && DistinctIds(es) && a in es && b in es
    requires var x, y := Quota(a, total, TotalWeight(es, p), p), Quota(b, total, TotalWeight(es, p), p);
             x > y || (x == y && Less(a.id, b.id))
    ensures Share(es, a, total, p) >= Share(es, b, total, p)
    ensures Quota(a, total, TotalWeight(es, p), p) == Quota(b, total, TotalWeight(es, p), p) ==>
              Share(es, a, total, p) <= Share(es, b, total, p) + 1
  {
    hide Remainder, Quota, TotalWeight, Share;
    var W := TotalWeight(es, p);
    RemainderIsFraction(a, total, W, p);
    RemainderIsFraction(b, total, W, p);
    WholeMonotone(Quota(b, total, W, p), Quota(a, total, W, p));
    if Whole(a, total, W, p) > Whole(b, total, W, p) {
      DifferByOne(es, b, a, total, p);
    } else {
      FirstGetsNoLess(es, a, b, total, p);
    }
  }

  /** The units left over reach any two participants equally often, or one of them once more. */
  lemma DifferByOne(es: seq<Entry>, a: Entry, b: Entry, total: nat, p: nat)
    requires p > 0 && TotalWeight(es, p) > 0.0 && DistinctIds(es) && a in es && b in es
    ensures var W := TotalWeight(es, p);
            Share(es, a, total, p) - Whole(a, total, W, p) <= Share(es, b, total, p) - Whole(b, total, W, p) + 1
  {
    hide Remainder, TotalWeight, Share, Whole;
    LessIsStrictTotalOrder();
    if a != b {
      assert a.id != b.id;
      if PriorityOrder(total, TotalWeight(es, p), p)(a, b) { FirstGetsNoLess(es, a, b, total, p); }
      else { FirstGetsNoLess(es, b, a, total, p); }
    }
  }

  /** So a weight that is larger by more than two units of its p-th digit never gets less. */
  lemma LargerWeightGetsNoLess(es: seq<Entry>, a: Entry, b: Entry, total: nat, p: nat)
    requires p > 0 && TotalWeight(es, p) > 0.0 && DistinctIds(es) && a in es && b in es
    requires Pow10(p - 1) as real * (a.weight - b.weight) > 2.0 * a.weight
    ensures Share(es, a, total, p) >= Share(es, b, total, p)
  {
    hide Quota, TotalWeight, Share, Product, Pow10, Scale;
    var W, t := TotalWeight(es, p), total as real;
    ScaleIs(p);
    ProductIs(total, a.weight);
    ProductIs(total, b.weight);
    QuotaError(a, total, W, p);
    QuotaError(b, total, W, p);
    if total == 0 {
      NothingToShare(es, a, p);
      NothingToShare(es, b, p);
    } else {
      Apart(Scale(p), t, a.weight, b.weight, W * Quota(a, total, W, p), W * Quota(b, total, W, p));
      Cancelled(W, Quota(a, total, W, p), Quota(b, total, W, p));
      FairQuotas(es, a, b, total, p);
    }
  }

  lemma Apart(w: real, t: real, a: real, b: real, qa: real, qb: real)
    requires w > 0.0 && t > 0.0 && w * (a - b) > 2.0 * a
    requires w * (t * a - qa) <= 2.0 * (t * a) && qb <= t * b
    ensures qa > qb
  {
    Signs(w * (a - b) - 2.0 * a, t);
    assert (w * (a - b) - 2.0 * a) * t == w * (t * a - t * b) - 2.0 * (t * a);
    assert w * (t * a - t * b) - w * (t * a - qa) == w * (qa - t * b);
    PositiveFactor(w, qa - t * b);
  }

  lemma Cancelled(W: real, x: real, y: real)
    requires W > 0.0 && W * x > W * y
    ensures x > y
  {
    assert W * (x - y) == W * x - W * y;
    PositiveFactor(W, x - y);
  }

  lemma NothingToShare(es: seq<Entry>, e: Entry, p: nat)
    requires p > 0 && TotalWeight(es, p) > 0.0
    ensures Share(es, e, 0, p) == 0
  {
    hide Quota, Rank, TotalWeight;
    var W := TotalWeight(es, p);
    forall f: Entry ensures Whole(f, 0, W, p) == 0 { NoQuota(f, W, p); }
    SumByConstant(UnitsOf(0, W, p), es, 0);
    NotEmpty(es, p);
    RankNotNegative(PriorityOrder(0, W, p), es, e);
  }

  lemma {:induction false} RankNotNegative<T>(lt: (T, T) -> bool, es: seq<T>, e: T)
    ensures Rank(lt, es, e) >= 0
  {
    if es != [] { RankNotNegative(lt, es[1..], e); }
  }

  lemma NoQuota(e: Entry, W: Decimal, p: nat)
    requires W > 0.0 && p > 0
    ensures Whole(e, 0, W, p) == 0
  {
    hide Cut;
    ProductIs(0, e.weight);
    CutZero(p);
    QuotientNotNegative(0.0, W);
  }

  /** For a total that fits, every share lies less than one unit from the quota as computed. */
  lemma ShareNearQuota(es: seq<Entry>, e: Entry, total: nat, p: nat)
    requires p > 0 && TotalWeight(es, p) > 0.0 && Fits(total, es, p)
    ensures -1.0 < Share(es, e, total, p) as real - Quota(e, total, TotalWeight(es, p), p) < 1.0
  {
    hide Quota, Rank, Residual, TotalWeight, Fits;
    var W := TotalWeight(es, p);
    var k, R, n := Rank(PriorityOrder(total, W, p), es, e), Residual(es, total, p), |es|;
    NotEmpty(es, p);
    ResidualBounds(es, total, p);
    RankNotNegative(PriorityOrder(total, W, p), es, e);
    RemainderIsFraction(e, total, W, p);
    if R > k {
      SmallIndex(R - k - 1, n);
      if Remainder(e, total, W, p) == 0.0 { PositivesPrecede(es, e, total, W, p); }
    }
  }

  lemma {:induction false} PartOfWeight(es: seq<Entry>, e: Entry)
    requires e in es
    ensures e.weight <= ExactWeight(es)
  {
    var front, last := es[..|es|-1], es[|es|-1];
    if e != last {
      assert e in front;
      PartOfWeight(front, e);
    }
  }

  /** The quota rule: for a total that fits, every share lies less than two units from the exact quota, the total
      times the weight over the exact sum of the weights; with an exact sum less than one above it. */
  lemma QuotaRule(es: seq<Entry>, e: Entry, total: nat, p: nat)
    requires p > 0 && TotalWeight(es, p) > 0.0 && Fits(total, es, p) && e in es
    ensures var S, share := ExactWeight(es), Share(es, e, total, p) as real;
            && -2.0 * S < share * S - total as real * e.weight < 2.0 * S
            && (TotalWeight(es, p) == S ==> share * S - total as real * e.weight < S)
  {
    hide Quota, Share, TotalWeight, ExactWeight, Product, Scale, Pow10, Fits;
    hide CloseQuota;
    QuotaIsClose(es, e, total, p);
    ShareNearQuota(es, e, total, p);
    var W, S := TotalWeight(es, p), ExactWeight(es);
    AroundQuota(Scale(p), S, W, Quota(e, total, W, p), total as real, e.weight, |es| as real,
                Product(total, e.weight), Share(es, e, total, p) as real);
    ProductIs(total, e.weight);
  }

  ghost predicate CloseQuota(w: real, S: real, W: real, q: real, t: real, x: real, n: real, tx: real) {
    && w > 0.0 && 0.0 < W <= S && 0.0 <= q && 0.0 <= x <= S && 0.0 <= t && 2.0 * t < w && 0.0 <= n && tx == t * x
    && W * q <= tx && w * (tx - W * q) <= 2.0 * tx && w * (S - W) <= n * S && (W == S || (t + 1.0) * n < w)
  }

  lemma QuotaIsClose(es: seq<Entry>, e: Entry, total: nat, p: nat)
    requires p > 0 && TotalWeight(es, p) > 0.0 && Fits(total, es, p) && e in es
    ensures CloseQuota(Scale(p), ExactWeight(es), TotalWeight(es, p), Quota(e, total, TotalWeight(es, p), p),
                       total as real, e.weight, |es| as real, Product(total, e.weight))
  {
    hide Quota, TotalWeight, ExactWeight, Product, Scale, Fits;
    ErrorFacts(es, e, total, p);
    FitsAsReals(total, es, p);
  }

  lemma AroundQuota(w: real, S: real, W: real, q: real, t: real, x: real, n: real, tx: real, share: real)
    requires CloseQuota(w, S, W, q, t, x, n, tx) && -1.0 < share - q < 1.0
    ensures -2.0 * S < share * S - tx < 2.0 * S
    ensures W == S ==> share * S - tx < S
  {
    assert share * S - tx > -2.0 * S by { NotBelow(w, S, W, q, t, x, tx, share); }
    if W == S {
      ExactlyBelow(S, q, tx, share);
    } else {
      assert q < t + 1.0 by { QuotaBelow(w, W, S, q, t, x, n, tx); }
      NotAbove(w, S, W, q, t, tx, n, share);
    }
  }

  lemma ErrorFacts(es: seq<Entry>, e: Entry, total: nat, p: nat)
    requires p > 0 && TotalWeight(es, p) > 0.0 && e in es
    ensures var W, S, q := TotalWeight(es, p), ExactWeight(es), Quota(e, total, TotalWeight(es, p), p);
            && W <= S && e.weight <= S && Scale(p) * (S - W) <= |es| as real * S
            && Product(total, e.weight) == total as real * e.weight
            && W * q <= Product(total, e.weight)
            && Scale(p) * (Product(total, e.weight) - W * q) <= 2.0 * Product(total, e.weight)
  {
    hide Quota, TotalWeight, ExactWeight, Product, Scale;
    PartOfWeight(es, e);
    TotalError(es, p);
    QuotaError(e, total, TotalWeight(es, p), p);
    ProductIs(total, e.weight);
  }

  lemma QuotaBelow(w: real, W: real, S: real, q: real, t: real, x: real, n: real, tx: real)
    requires 0.0 < W <= S && 0.0 < w && 0.0 <= t && 0.0 <= n && (t + 1.0) * n < w && x <= S
    requires tx == t * x && W * q <= tx && w * (S - W) <= n * S
    ensures q < t + 1.0
  {
    Scaled(t, x, S);
    QuotasBelow(w, W, S, q, t, n);
  }

  lemma ExactlyBelow(S: real, q: real, x: real, share: real)
    requires S > 0.0 && S * q <= x && share < q + 1.0
    ensures share * S - x < S
  {
    Signs(q + 1.0 - share, S);
    assert (q + 1.0 - share) * S == S * q + S - share * S;
  }

  lemma FitsAsReals(total: nat, es: seq<Entry>, p: nat)
    requires p > 0 && Fits(total, es, p)
    ensures Scale(p) > 0.0 && 2.0 * total as real < Scale(p)
    ensures TotalWeight(es, p) == ExactWeight(es) || (total as real + 1.0) * |es| as real < Scale(p)
  {
    hide Pow10, TotalWeight, ExactWeight;
    ProductAsReal(total + 1, |es|);
  }

  lemma Scaled(t: real, x: real, y: real)
    requires t >= 0.0 && x <= y
    ensures t * x <= t * y
  {
    NotNegative(t, y - x);
    assert t * (y - x) == t * y - t * x;
  }

  lemma NotBelow(w: real, S: real, W: real, q: real, t: real, x: real, tx: real, share: real)
    requires w > 0.0 && 0.0 < W <= S && 0.0 <= q && 0.0 <= x <= S && 0.0 <= t && 2.0 * t < w && tx == t * x
    requires w * (tx - W * q) <= 2.0 * tx && share > q - 1.0
    ensures share * S - tx > -2.0 * S
  {
    assert tx - W * q < S by { CloseBelow(w, S, W * q, t, x, tx); }
    NotNegative(S - W, q);
    assert (S - W) * q == S * q - W * q;
    Signs(share - (q - 1.0), S);
    assert (share - (q - 1.0)) * S == share * S - S * q + S;
  }

  lemma CloseBelow(w: real, S: real, Wq: real, t: real, x: real, tx: real)
    requires w > 0.0 && 0.0 < S && 0.0 <= x <= S && 0.0 <= t && 2.0 * t < w && tx == t * x
    requires w * (tx - Wq) <= 2.0 * tx
    ensures tx - Wq < S
  {
    Scaled(t, x, S);
    Signs(w - 2.0 * t, S);
    assert (w - 2.0 * t) * S == w * S - 2.0 * (t * S);
    assert w * (S - (tx - Wq)) == w * S - w * (tx - Wq);
    PositiveFactor(w, S - (tx - Wq));
  }

  lemma NotAbove(w: real, S: real, W: real, q: real, t: real, tx: real, n: real, share: real)
    requires w > 0.0 && 0.0 < W <= S && 0.0 <= q < t + 1.0 && 0.0 <= n && (t + 1.0) * n < w
    requires W * q <= tx && w * (S - W) <= n * S && share < q + 1.0
    ensures share * S - tx < 2.0 * S
  {
    Scaled(n, q, t + 1.0);
    Signs(w - n * q, S);
    assert (w - n * q) * S == w * S - (n * S) * q;
    Scaled(q, w * (S - W), n * S);
    assert q * (w * (S - W)) == w * (S * q - W * q) && q * (n * S) == (n * S) * q;
    assert w * (S - (S * q - W * q)) == w * S - w * (S * q - W * q);
    PositiveFactor(w, S - (S * q - W * q));
    Signs(q + 1.0 - share, S);
    assert (q + 1.0 - share) * S == S * q + S - share * S;
  }

  /** A difference that is cut off does not count: of one unit, a weight of 10^p with the earlier identifier gets it,
      and a weight of 10^p + 1 nothing. */
  lemma LargerWeightGetsLess(a: Entry, b: Entry, p: nat)
    requires p > 0 && Less(a.id, b.id) && a.weight == Pow10(p) as real && b.weight == Pow10(p) as real + 1.0
    ensures TotalWeight([a, b], p) > 0.0 && a.weight < b.weight
    ensures Share([a, b], a, 1, p) == 1 && Share([a, b], b, 1, p) == 0
  {
    hide Cut, Pow10, Less, Share, Whole, Quota, SumBy, TotalWeight;
    var es, u := [a, b], Pow10(p);
    LessIrreflexive(a.id);
    TwoWeights(a, b, p);
    SumByConstant(UnitsOf(1, 2.0 * u as real, p), es, 0);
    SharesSumToTotal(es, 1, p);
    FairQuotas(es, a, b, 1, p);
    SumOfTwo(ShareOf(es, 1, p), a, b);
  }

  lemma SumOfTwo(f: Entry -> int, a: Entry, b: Entry)
    ensures SumBy(f, [a, b]) == f(a) + f(b)
  {
    var both := [a, b];
    assert both[1..] == [b];
    SumOfOne(f, b);
  }

  lemma TwoWeights(a: Entry, b: Entry, p: nat)
    requires p > 0 && a.weight == Pow10(p) as real && b.weight == Pow10(p) as real + 1.0
    ensures var u, W := Pow10(p) as real, TotalWeight([a, b], p);
            && W == 2.0 * u && Quota(a, 1, W, p) == 0.5 == Quota(b, 1, W, p)
            && Whole(a, 1, W, p) == 0 == Whole(b, 1, W, p)
  {
    hide Cut, Pow10, Quota, Whole;
    var es, u := [a, b], Pow10(p);
    PowerGrows(p);
    assert Cut(u as real, p) == u as real by { CutLastDigit(Pow10(p - 1), 0, p); }
    assert Cut(u as real + 1.0, p) == u as real by { CutLastDigit(Pow10(p - 1), 1, p); }
    assert Cut(2.0 * u as real + 1.0, p) == 2.0 * u as real by { CutLastDigit(2 * Pow10(p - 1), 1, p); }
    assert es[..1] == [a] && [a][..0] == [];
    assert es[..|es|-1] == [a] && es[|es|-1] == b;
    assert TotalWeight([a], p) == Cut(0.0 + a.weight, p);
    assert TotalWeight(es, p) == Cut(TotalWeight([a], p) + b.weight, p);
    HalfQuota(a, u, p);
    HalfQuota(b, u, p);
    var W := TotalWeight(es, p);
    assert W == 2.0 * u as real;
  }

  lemma HalfQuota(e: Entry, u: nat, p: nat)
    requires p > 0 && u == Pow10(p) && Cut(e.weight, p) == u as real
    ensures Quota(e, 1, 2.0 * u as real, p) == 0.5 && Whole(e, 1, 2.0 * u as real, p) == 0
  {
    hide Cut, Pow10;
    ProductIs(1, e.weight);
    HalfQuotient(u as real);
    Half(p);
  }

  lemma HalfQuotient(u: Decimal)
    requires u > 0.0
    ensures Quotient(u, 2.0 * u) == 0.5
  {
    var x := Quotient(u, 2.0 * u);
    QuotientNotNegative(u, 2.0 * u);
    QuotientValue(u, 2.0 * u);
    var d := 2.0 * u;
    assert x * d == u;
    assert (x - 0.5) * d == x * d - 0.5 * d;
    Signs(x - 0.5, d);
  }

  lemma Half(p: nat)
    requires p > 0
    ensures Cut(0.5, p) == 0.5
  {
    hide Cut;
    PowerGrows(p);
    assert 0.5 * Pow10(1) as real == 5.0;
    CutKeeps(0.5, 5, 1, p);
  }
}

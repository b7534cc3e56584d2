/** The position of an element in the sorted arrangement of a sequence, counted without sorting. */
module Ranking {
  import opened Sums
  import opened Sorting

  /** 1 for the elements that come before e, 0 for the others. */
  function Precedes<T>(lt: (T, T) -> bool, e: T): T -> int {
    (f: T) => if lt(f, e) then 1 else 0
  }

  /** How many elements of s come before e. */
  function Rank<T>(lt: (T, T) -> bool, s: seq<T>, e: T): int {
    SumBy(Precedes(lt, e), s)
  }

  lemma NotBoth<T(!new)>(lt: (T, T) -> bool, a: T, b: T)
    requires StrictOrder(lt) && lt(a, b)
    ensures !lt(b, a)
  {
    assert !lt(a, a);
  }

  lemma {:induction false} CountAscending<T(!new)>(lt: (T, T) -> bool, s: seq<T>, k: nat)
    requires StrictOrder(lt) && Ascending(lt, s) && k < |s|
    ensures Rank(lt, s, s[k]) == k
  {
    var f := Precedes(lt, s[k]);
    assert s == s[..k] + s[k..];
    SumByConcat(f, s[..k], s[k..]);
    forall i | 0 <= i < |s[..k]| ensures f(s[..k][i]) == 1 { assert lt(s[i], s[k]); }
    forall i | 0 <= i < |s[k..]| ensures f(s[k..][i]) == 0 {
      assert !lt(s[k], s[k]);
      if i > 0 { assert lt(s[k], s[k+i]); NotBoth(lt, s[k], s[k+i]); }
    }
    SumByConstant(f, s[..k], 1);
    SumByConstant(f, s[k..], 0);
  }

  /** The element at position k of the sorted sequence has rank k. */
  lemma PositionIsRank<T(!new)>(lt: (T, T) -> bool, s: seq<T>, k: nat)
    requires StrictOrder(lt) && Separates(lt, s) && k < |s|
    ensures Rank(lt, s, Sort(s, lt)[k]) == k
  {
    var sorted := Sort(s, lt);
    SortAscending(s, lt);
    CountAscending(lt, sorted, k);
    SumByPermutation(Precedes(lt, sorted[k]), s, sorted);
  }

  /** Every element stands in the sorted sequence, at its rank. */
  lemma RankIsPosition<T(!new)>(lt: (T, T) -> bool, s: seq<T>, i: nat) returns (k: nat)
    requires StrictOrder(lt) && Separates(lt, s) && i < |s|
    ensures k < |s| && Sort(s, lt)[k] == s[i] && Rank(lt, s, s[i]) == k
  {
    var sorted := Sort(s, lt);
    assert s[i] in multiset(sorted);
    k :| 0 <= k < |sorted| && sorted[k] == s[i];
    PositionIsRank(lt, s, k);
  }
}

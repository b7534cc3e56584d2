/** Sorting by a comparator, as Array.prototype.sort does it for a comparator that never answers
    "equal" on two different elements, and the string order that stands for localeCompare. */
module Sorting {

  ghost predicate StrictOrder<T(!new)>(lt: (T, T) -> bool) {
    && (forall x :: !lt(x, x))
    && (forall x, y, z :: lt(x, y) && lt(y, z) ==> lt(x, z))
  }

  /** The comparator separates every two positions of s. */
  ghost predicate Separates<T>(lt: (T, T) -> bool, s: seq<T>) {
    forall i, j :: 0 <= i < j < |s| ==> lt(s[i], s[j]) || lt(s[j], s[i])
  }

  ghost predicate Ascending<T>(lt: (T, T) -> bool, s: seq<T>) {
    forall i, j :: 0 <= i < j < |s| ==> lt(s[i], s[j])
  }

  function Insert<T>(x: T, s: seq<T>, lt: (T, T) -> bool): (r: seq<T>)
    ensures multiset(r) == multiset{x} + multiset(s)
    ensures |r| == |s| + 1
  {
    if s == [] || lt(x, s[0]) then
      assert multiset([x] + s) == multiset{x} + multiset(s);
      [x] + s
    else
      assert s == [s[0]] + s[1..];
      [s[0]] + Insert(x, s[1..], lt)
  }

  function Sort<T>(s: seq<T>, lt: (T, T) -> bool): (r: seq<T>)
    ensures multiset(r) == multiset(s)
    ensures |r| == |s|
  {
    if s == [] then [] else
      assert s == [s[0]] + s[1..];
      Insert(s[0], Sort(s[1..], lt), lt)
  }

  lemma {:induction false} InsertAscending<T(!new)>(x: T, s: seq<T>, lt: (T, T) -> bool)
    requires StrictOrder(lt)
    requires Ascending(lt, s)
    requires forall i :: 0 <= i < |s| ==> lt(x, s[i]) || lt(s[i], x)
    ensures Ascending(lt, Insert(x, s, lt))
  {
    if s == [] || lt(x, s[0]) {
    } else {
      var rest := Insert(x, s[1..], lt);
      InsertAscending(x, s[1..], lt);
      forall j | 0 <= j < |rest| ensures lt(s[0], rest[j]) {
        assert rest[j] in multiset(rest);
        if rest[j] != x {
          assert rest[j] in multiset(s[1..]);
          assert rest[j] in s[1..];
        }
      }
    }
  }

  /** Sorting returns its input in ascending order. */
  lemma {:induction false} SortAscending<T(!new)>(s: seq<T>, lt: (T, T) -> bool)
    requires StrictOrder(lt)
    requires Separates(lt, s)
    ensures Ascending(lt, Sort(s, lt))
  {
    if s != [] {
      var rest := Sort(s[1..], lt);
      SortAscending(s[1..], lt);
      forall i | 0 <= i < |rest| ensures lt(s[0], rest[i]) || lt(rest[i], s[0]) {
        assert rest[i] in multiset(s[1..]);
        var k :| 0 <= k < |s[1..]| && s[1..][k] == rest[i];
        assert s[k+1] == rest[i];
      }
      InsertAscending(s[0], rest, lt);
    }
  }

  lemma AscendingHeadsAgree<T(!new)>(a: seq<T>, b: seq<T>, lt: (T, T) -> bool, i: nat, j: nat)
    requires StrictOrder(lt)
    requires i < |b| && j < |a| && b[i] == a[0] && a[j] == b[0]
    requires i == 0 || lt(b[0], b[i])
    requires j == 0 || lt(a[0], a[j])
    ensures a[0] == b[0]
  {
    assert !lt(a[0], a[0]);
  }

  /** There is only one ascending arrangement of given elements. */
  lemma {:induction false} AscendingUnique<T(!new)>(a: seq<T>, b: seq<T>, lt: (T, T) -> bool)
    requires StrictOrder(lt)
    requires Ascending(lt, a) && Ascending(lt, b)
    requires multiset(a) == multiset(b)
    ensures a == b
  {
    hide StrictOrder, Ascending;
    assert |multiset(a)| == |a| && |multiset(b)| == |b|;
    if a != [] {
      SameHead(a, b, lt);
      TailMultiset(a);
      TailMultiset(b);
      AscendingTail(a, lt);
      AscendingTail(b, lt);
      AscendingUnique(a[1..], b[1..], lt);
    }
  }

  lemma SameHead<T(!new)>(a: seq<T>, b: seq<T>, lt: (T, T) -> bool)
    requires StrictOrder(lt) && Ascending(lt, a) && Ascending(lt, b) && a != [] && b != []
    requires multiset(a) == multiset(b)
    ensures a[0] == b[0]
  {
    assert a[0] in multiset(b) && b[0] in multiset(a);
    var i :| 0 <= i < |b| && b[i] == a[0];
    var j :| 0 <= j < |a| && a[j] == b[0];
    AscendingHeadsAgree(a, b, lt, i, j);
  }

  lemma AscendingTail<T(!new)>(a: seq<T>, lt: (T, T) -> bool)
    requires Ascending(lt, a) && a != []
    ensures Ascending(lt, a[1..])
  {}

  lemma TailMultiset<T>(s: seq<T>)
    requires s != []
    ensures s == [s[0]] + s[1..]
    ensures multiset(s[1..]) == multiset(s) - multiset{s[0]}
  {
    assert s == [s[0]] + s[1..];
    assert multiset(s) == multiset{s[0]} + multiset(s[1..]);
  }

  /** Code-unit lexicographic order on strings. It stands for localeCompare, of which the proofs use
      only that it is a strict total order. */
  predicate Less(a: string, b: string) {
    b != [] && (a == [] || a[0] < b[0] || (a[0] == b[0] && Less(a[1..], b[1..])))
  }

  lemma {:induction false} LessIrreflexive(a: string)
    ensures !Less(a, a)
  {
    if a != [] { LessIrreflexive(a[1..]); }
  }

  lemma {:induction false} LessTransitive(a: string, b: string, c: string)
    requires Less(a, b) && Less(b, c)
    ensures Less(a, c)
  {
    if a != [] && a[0] == b[0] == c[0] { LessTransitive(a[1..], b[1..], c[1..]); }
  }

  lemma {:induction false} LessTotal(a: string, b: string)
    requires a != b
    ensures Less(a, b) || Less(b, a)
  {
    if a != [] && b != [] && a[0] == b[0] {
      assert a == [a[0]] + a[1..] && b == [b[0]] + b[1..];
      LessTotal(a[1..], b[1..]);
    }
  }

  lemma LessIsStrictTotalOrder()
    ensures StrictOrder(Less)
    ensures forall a, b :: a != b ==> Less(a, b) || Less(b, a)
  {
    forall a ensures !Less(a, a) { LessIrreflexive(a); }
    forall a, b, c | Less(a, b) && Less(b, c) ensures Less(a, c) { LessTransitive(a, b, c); }
    forall a, b | a != b ensures Less(a, b) || Less(b, a) { LessTotal(a, b); }
  }
}

/** When two values have the same canonical text: exactly when they are equal once the order of object
    keys, undefined entries and the sign of zero are ignored. */
module JsonEquality {
  import opened Wrappers
  import opened Sorting
  import opened CanonicalJson
  import JsonGrammar

  /** A JavaScript value: no object has a key twice. */
  ghost predicate WellFormed(v: Json)
    decreases v
  {
    match v
    case Arr(items) => forall i :: 0 <= i < |items| ==> WellFormed(items[i])
    case Obj(fields) =>
      && (forall i :: 0 <= i < |fields| ==> WellFormed(fields[i].value))
      && (forall i, j :: 0 <= i < j < |fields| ==> fields[i].key != fields[j].key)
    case _ => true
  }

  /** A value JSON can express: no non-finite number, and undefined only as an entry of an object. */
  ghost predicate Supported(v: Json)
    decreases v
  {
    match v
    case Num(n) => n != NonFinite
    case Undefined => false
    case Arr(items) => forall i :: 0 <= i < |items| ==> Supported(items[i])
    case Obj(fields) => forall i :: 0 <= i < |fields| ==> fields[i].value.Undefined? || Supported(fields[i].value)
    case _ => true
  }

  predicate SameNumber(a: Number, b: Number) {
    a == b || (a == MinusZero && b == Finite("0")) || (b == MinusZero && a == Finite("0"))
  }

  ghost predicate Same(a: Json, b: Json)
    decreases a
  {
    match (a, b)
    case (Num(n), Num(m)) => SameNumber(n, m)
    case (Arr(s), Arr(t)) => |s| == |t| && forall i :: 0 <= i < |s| ==> Same(s[i], t[i])
    case (Obj(f), Obj(g)) =>
      && (forall i :: 0 <= i < |f| && IsDefined(f[i]) ==> exists j :: 0 <= j < |g| && SameEntry(f[i], g[j]))
      && (forall j :: 0 <= j < |g| && IsDefined(g[j]) ==> exists i :: 0 <= i < |f| && SameEntry(f[i], g[j]))
    case (_, _) => a == b
  }

  predicate IsDefined(f: Field) { !f.value.Undefined? }

  ghost predicate SameEntry(a: Field, b: Field)
    decreases a
  {
    a.key == b.key && Same(a.value, b.value)
  }

  /** Two entries give the same member. */
  predicate SameMember(a: Field, b: Field) { a.key == b.key && Normal(a.value) == Normal(b.value) }

  lemma {:induction false} SameReflexive(v: Json)
    ensures Same(v, v)
    decreases v
  {
    match v
    case Arr(items) => forall i | 0 <= i < |items| ensures Same(items[i], items[i]) { SameReflexive(items[i]); }
    case Obj(fields) =>
      forall i | 0 <= i < |fields| ensures SameEntry(fields[i], fields[i]) { SameReflexive(fields[i].value); }
    case _ =>
  }

  // ----- Acceptance -----

  lemma {:induction false} NormalAccepts(v: Json)
    ensures Normal(v).Some? <==> Supported(v)
    decreases v
  {
    match v
    case Arr(items) => DocumentsAre(items);
    case Obj(fields) => MembersAre(fields);
    case _ =>
  }

  /** The documents of an array are those of its items, place by place. */
  lemma {:induction false} DocumentsAre(items: seq<Json>)
    ensures Documents(items).Some? <==> forall i :: 0 <= i < |items| ==> Supported(items[i])
    ensures Documents(items).Some? ==>
              (|Documents(items).value| == |items|
               && forall i :: 0 <= i < |items| ==> Normal(items[i]) == Some(Documents(items).value[i]))
    decreases items
  {
    if items != [] {
      NormalAccepts(items[0]);
      DocumentsAre(items[1..]);
      assert forall i :: 0 < i < |items| ==> items[i] == items[1..][i-1];
      if Supported(items[0]) && Documents(items[1..]).Some? {
        forall i | 0 <= i < |items| ensures Supported(items[i]) {}
      }
    }
  }

  ghost predicate Stems(m: Member, f: Field) {
    !f.value.Undefined? && m.key == f.key && Normal(f.value) == Some(m.value)
  }

  /** The members of an object are those of its defined entries. */
  lemma {:induction false} MembersAre(fields: seq<Field>)
    ensures Members(fields).Some? <==>
            forall i :: 0 <= i < |fields| ==> fields[i].value.Undefined? || Supported(fields[i].value)
    ensures Members(fields).Some? ==>
              (forall m :: m in Members(fields).value <==> exists i :: 0 <= i < |fields| && Stems(m, fields[i]))
    decreases fields
  {
    if fields != [] {
      var rest := fields[1..];
      MembersAre(rest);
      NormalAccepts(fields[0].value);
      assert forall i :: 0 < i < |fields| ==> fields[i] == rest[i-1];
      if Members(fields).Some? {
        forall m ensures m in Members(fields).value <==> exists i :: 0 <= i < |fields| && Stems(m, fields[i]) {
          MembersStep(fields, m);
        }
        forall i | 0 <= i < |fields| ensures fields[i].value.Undefined? || Supported(fields[i].value) {}
      }
    }
  }

  lemma {:induction false} MembersStep(fields: seq<Field>, m: Member)
    requires fields != [] && Members(fields).Some? && Members(fields[1..]).Some?
    requires m in Members(fields[1..]).value <==> exists i :: 0 <= i < |fields[1..]| && Stems(m, fields[1..][i])
    ensures m in Members(fields).value <==> exists i :: 0 <= i < |fields| && Stems(m, fields[i])
  {
    var rest := fields[1..];
    if i :| 0 <= i < |rest| && Stems(m, rest[i]) {
      assert Stems(m, fields[i+1]);
    }
    if i :| 0 <= i < |fields| && Stems(m, fields[i]) {
      assert i > 0 ==> Stems(m, rest[i-1]);
    }
  }

  lemma {:induction false} MemberKeysDistinct(fields: seq<Field>)
    requires Members(fields).Some?
    requires forall i, j :: 0 <= i < j < |fields| ==> fields[i].key != fields[j].key
    ensures var ms := Members(fields).value; forall i, j :: 0 <= i < j < |ms| ==> ms[i].key != ms[j].key
    decreases fields
  {
    if fields != [] {
      var rest := fields[1..];
      assert forall i, j :: 0 <= i < j < |rest| ==> rest[i] == fields[i+1] && rest[j] == fields[j+1];
      assert Members(rest).Some?;
      MemberKeysDistinct(rest);
      MembersAre(rest);
      forall m | m in Members(rest).value ensures m.key != fields[0].key {
        var i :| 0 <= i < |rest| && Stems(m, rest[i]);
        assert rest[i] == fields[i+1];
      }
    }
  }

  // ----- Sorted members -----

  lemma {:induction false} MemberOrder()
    ensures StrictOrder(MemberBefore)
  {
    LessIsStrictTotalOrder();
  }

  lemma {:induction false} CountDistinct(ms: seq<Member>, m: Member)
    requires forall i, j :: 0 <= i < j < |ms| ==> ms[i].key != ms[j].key
    ensures multiset(ms)[m] == if m in ms then 1 else 0
  {
    if ms != [] {
      assert ms == [ms[0]] + ms[1..];
      CountDistinct(ms[1..], m);
    }
  }

  /** Members with distinct keys sort alike exactly when they are the same members. */
  lemma {:induction false} SortedAlike(ms: seq<Member>, ns: seq<Member>)
    requires forall i, j :: 0 <= i < j < |ms| ==> ms[i].key != ms[j].key
    requires forall i, j :: 0 <= i < j < |ns| ==> ns[i].key != ns[j].key
    ensures Sort(ms, MemberBefore) == Sort(ns, MemberBefore) <==> forall m :: m in ms <==> m in ns
  {
    var s, t := Sort(ms, MemberBefore), Sort(ns, MemberBefore);
    if s == t {
      forall m ensures m in ms <==> m in ns {
        assert m in ms <==> m in multiset(ms);
        assert m in ns <==> m in multiset(ns);
      }
    }
    if forall m :: m in ms <==> m in ns {
      forall m ensures multiset(ms)[m] == multiset(ns)[m] {
        CountDistinct(ms, m);
        CountDistinct(ns, m);
      }
      assert multiset(ms) == multiset(ns);
      LessIsStrictTotalOrder();
      MemberOrder();
      SortAscending(ms, MemberBefore);
      SortAscending(ns, MemberBefore);
      AscendingUnique(s, t, MemberBefore);
    }
  }

  // ----- Equality -----

  lemma {:induction false} NormalIsSame(a: Json, b: Json)
    requires WellFormed(a) && WellFormed(b) && Supported(a) && Supported(b)
    ensures Normal(a) == Normal(b) <==> Same(a, b)
    decreases a
  {
    hide Sort;
    NormalAccepts(a);
    NormalAccepts(b);
    if a.Arr? && b.Arr? {
      ArraysAreSame(a.items, b.items);
    } else if a.Obj? && b.Obj? {
      ObjectsAreSame(a.fields, b.fields);
    }
  }

  lemma {:induction false} ArraysAreSame(s: seq<Json>, t: seq<Json>)
    requires forall i :: 0 <= i < |s| ==> WellFormed(s[i]) && Supported(s[i])
    requires forall i :: 0 <= i < |t| ==> WellFormed(t[i]) && Supported(t[i])
    ensures Documents(s).Some? && Documents(t).Some?
    ensures Documents(s) == Documents(t) <==> |s| == |t| && forall i :: 0 <= i < |s| ==> Same(s[i], t[i])
    decreases s
  {
    DocumentsAre(s);
    DocumentsAre(t);
    if |s| == |t| {
      forall i | 0 <= i < |s| ensures Same(s[i], t[i]) <==> Documents(s).value[i] == Documents(t).value[i] {
        NormalIsSame(s[i], t[i]);
      }
      if forall i :: 0 <= i < |s| ==> Same(s[i], t[i]) {
        assert Documents(s).value == Documents(t).value;
      }
    }
  }

  lemma {:induction false} ObjectsAreSame(f: seq<Field>, g: seq<Field>)
    requires WellFormed(Obj(f)) && WellFormed(Obj(g)) && Supported(Obj(f)) && Supported(Obj(g))
    ensures Members(f).Some? && Members(g).Some?
    ensures Sort(Members(f).value, MemberBefore) == Sort(Members(g).value, MemberBefore) <==> Same(Obj(f), Obj(g))
    decreases f
  {
    hide Sort;
    MembersAre(f);
    MembersAre(g);
    MemberKeysDistinct(f);
    MemberKeysDistinct(g);
    SortedAlike(Members(f).value, Members(g).value);
    forall i, j | 0 <= i < |f| && 0 <= j < |g| && IsDefined(f[i]) && IsDefined(g[j])
      ensures SameEntry(f[i], g[j]) <==> SameMember(f[i], g[j])
    {
      NormalIsSame(f[i].value, g[j].value);
    }
    SameMembers(f, g);
  }

  ghost predicate AreMembers(ms: seq<Member>, f: seq<Field>) {
    forall m :: m in ms <==> exists i :: 0 <= i < |f| && Stems(m, f[i])
  }

  ghost predicate EntriesAgree(f: seq<Field>, g: seq<Field>) {
    forall i, j :: 0 <= i < |f| && 0 <= j < |g| && IsDefined(f[i]) && IsDefined(g[j]) ==>
                     (SameEntry(f[i], g[j]) <==> SameMember(f[i], g[j]))
  }

  /** Every defined entry of f has its like in g. */
  ghost predicate Covered(f: seq<Field>, g: seq<Field>) {
    forall i :: 0 <= i < |f| && IsDefined(f[i]) ==>
      exists j :: 0 <= j < |g| && IsDefined(g[j]) && SameMember(f[i], g[j])
  }

  lemma {:induction false} MemberOf(f: seq<Field>, i: nat)
    requires Supported(Obj(f)) && i < |f| && IsDefined(f[i])
    ensures Normal(f[i].value).Some? && Stems(Member(f[i].key, Normal(f[i].value).value), f[i])
  {
    NormalAccepts(f[i].value);
  }

  lemma {:induction false} CoveredMembers(f: seq<Field>, g: seq<Field>, ms: seq<Member>, ns: seq<Member>)
    requires Supported(Obj(f)) && AreMembers(ms, f) && AreMembers(ns, g)
    ensures (forall m :: m in ms ==> m in ns) <==> Covered(f, g)
  {
    hide Normal, Supported;
    if forall m :: m in ms ==> m in ns {
      forall i | 0 <= i < |f| && IsDefined(f[i])
        ensures exists j :: 0 <= j < |g| && IsDefined(g[j]) && SameMember(f[i], g[j]) {
        MemberOf(f, i);
        var m := Member(f[i].key, Normal(f[i].value).value);
        assert m in ns;
        var j :| 0 <= j < |g| && Stems(m, g[j]);
      }
    }
    if Covered(f, g) {
      forall m | m in ms ensures m in ns {
        var i :| 0 <= i < |f| && Stems(m, f[i]);
        var j :| 0 <= j < |g| && IsDefined(g[j]) && SameMember(f[i], g[j]);
        assert Stems(m, g[j]);
      }
    }
  }

  lemma {:induction false} MemberSymmetry()
    ensures forall a, b :: SameMember(a, b) <==> SameMember(b, a)
  {}

  ghost predicate Forth(f: seq<Field>, g: seq<Field>) {
    forall i :: 0 <= i < |f| && IsDefined(f[i]) ==> exists j :: 0 <= j < |g| && SameEntry(f[i], g[j])
  }

  ghost predicate Back(f: seq<Field>, g: seq<Field>) {
    forall j :: 0 <= j < |g| && IsDefined(g[j]) ==> exists i :: 0 <= i < |f| && SameEntry(f[i], g[j])
  }

  lemma {:induction false} SameIsForthAndBack(f: seq<Field>, g: seq<Field>)
    ensures Same(Obj(f), Obj(g)) <==> Forth(f, g) && Back(f, g)
  {
    hide SameEntry, IsDefined;
  }

  ghost predicate DefinedAlike(f: seq<Field>, g: seq<Field>) {
    forall i, j :: 0 <= i < |f| && 0 <= j < |g| && SameEntry(f[i], g[j]) ==> (IsDefined(f[i]) <==> IsDefined(g[j]))
  }

  lemma {:induction false} ForthIsCovered(f: seq<Field>, g: seq<Field>)
    requires EntriesAgree(f, g) && DefinedAlike(f, g)
    ensures Covered(f, g) <==> Forth(f, g)
  {
    hide SameEntry, SameMember, IsDefined;
    forall i, j | 0 <= i < |f| && 0 <= j < |g| && IsDefined(f[i])
      ensures IsDefined(g[j]) && SameMember(f[i], g[j]) <==> SameEntry(f[i], g[j]) {}
  }

  lemma {:induction false} BackIsCovered(f: seq<Field>, g: seq<Field>)
    requires EntriesAgree(f, g) && DefinedAlike(f, g)
    ensures Covered(g, f) <==> Back(f, g)
  {
    hide SameEntry, SameMember, IsDefined;
    MemberSymmetry();
    forall i, j | 0 <= i < |f| && 0 <= j < |g| && IsDefined(g[j])
      ensures IsDefined(f[i]) && SameMember(g[j], f[i]) <==> SameEntry(f[i], g[j]) {
      assert SameMember(f[i], g[j]) <==> SameMember(g[j], f[i]);
    }
  }

  /** Entries that are pairwise the same give the same members, and conversely. */
  lemma {:induction false} SameMembers(f: seq<Field>, g: seq<Field>)
    requires Supported(Obj(f)) && Supported(Obj(g)) && Members(f).Some? && Members(g).Some?
    requires AreMembers(Members(f).value, f) && AreMembers(Members(g).value, g) && EntriesAgree(f, g)
    ensures (forall m :: m in Members(f).value <==> m in Members(g).value) <==> Same(Obj(f), Obj(g))
  {
    hide Members, Normal, Same, AreMembers, EntriesAgree, Covered, Supported, Forth, Back;
    CoveredMembers(f, g, Members(f).value, Members(g).value);
    CoveredMembers(g, f, Members(g).value, Members(f).value);
    forall i, j | 0 <= i < |f| && 0 <= j < |g| && SameEntry(f[i], g[j]) ensures IsDefined(f[i]) <==> IsDefined(g[j]) {
      SameDefined(f[i].value, g[j].value);
    }
    assert DefinedAlike(f, g);
    ForthIsCovered(f, g);
    BackIsCovered(f, g);
    SameIsForthAndBack(f, g);
  }

  lemma {:induction false} SameDefined(a: Json, b: Json)
    requires Same(a, b)
    ensures a.Undefined? <==> b.Undefined?
  {}

  /** canonicalJson accepts exactly the supported values, and two of them have the same text if and
      only if they are the same value. */
  lemma {:induction false} CanonicalIsFaithful(a: Json, b: Json)
    requires WellFormed(a) && WellFormed(b)
    ensures Canonical(a).Some? <==> Supported(a)
    ensures Supported(a) && Supported(b) ==> (Canonical(a) == Canonical(b) <==> Same(a, b))
  {
    hide Canonical, Normal, Text, WellFormed, Supported, Same;
    CanonicalIsText(a);
    CanonicalIsText(b);
    NormalAccepts(a);
    NormalAccepts(b);
    if Supported(a) && Supported(b) {
      NormalIsSame(a, b);
      JsonGrammar.TextIsInjective(Normal(a).value, Normal(b).value);
    }
  }

  /** The parser reads the canonical text of a value back as the document of that value. */
  lemma {:induction false} ParseCanonical(v: Json)
    requires Canonical(v).Some?
    ensures Normal(v).Some? && JsonGrammar.Parse(Canonical(v).value) == Some((Normal(v).value, ""))
  {
    hide Canonical, Normal, Text, JsonGrammar.Parse;
    CanonicalIsText(v);
    JsonGrammar.TextIsInjective(Normal(v).value, Normal(v).value);
  }

  /** The text of an object is read back as its defined entries, in ascending order of their keys. */
  lemma {:induction false} ParseObjectText(fields: seq<Field>)
    requires WellFormed(Obj(fields)) && Supported(Obj(fields))
    ensures Canonical(Obj(fields)).Some? && Normal(Obj(fields)).Some? && Normal(Obj(fields)).value.ObjD?
    ensures var ms := Normal(Obj(fields)).value.members;
            && JsonGrammar.Parse(Canonical(Obj(fields)).value) == Some((ObjD(ms), ""))
            && (forall i, j :: 0 <= i < j < |ms| ==> Less(ms[i].key, ms[j].key))
            && (forall m :: m in ms <==> exists i :: 0 <= i < |fields| && Stems(m, fields[i]))
  {
    hide WellFormed, Supported, Canonical, Text, JsonGrammar.Parse, Stems;
    var v := Obj(fields);
    CanonicalIsText(v);
    NormalAccepts(v);
    ParseCanonical(v);
    MembersAre(fields);
    DistinctFields(fields);
    MemberKeysDistinct(fields);
    var ms := Members(fields).value;
    LessIsStrictTotalOrder();
    MemberOrder();
    SortAscending(ms, MemberBefore);
    var sorted := Sort(ms, MemberBefore);
    forall m ensures m in sorted <==> m in ms {
      assert m in sorted <==> m in multiset(sorted);
      assert m in ms <==> m in multiset(ms);
    }
    forall i, j | 0 <= i < j < |sorted| ensures Less(sorted[i].key, sorted[j].key) {
      assert MemberBefore(sorted[i], sorted[j]);
    }
  }

  lemma DistinctFields(fields: seq<Field>)
    requires WellFormed(Obj(fields))
    ensures forall i, j :: 0 <= i < j < |fields| ==> fields[i].key != fields[j].key
  {}
}

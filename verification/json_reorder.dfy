/**
 * compare_json sorts the objects that it compares, in place: what it leaves of them, and that only their order changes.
 */
module JsonReorder {
  import opened JsonTree
  import opened JsonSort
  import opened JsonCompare

  // ----- What compare_json leaves -----

  /**
   * The two documents after compare_json: the objects that it came to are sorted, down to where it found a difference.
   */
  function Reordered(a: Json, b: Json, caseSensitive: bool): (Json, Json)
    decreases b
  {
    if !SameType(a, b) then (a, b)
    else
      match b
      case Array(items) =>
        var r := ReorderedItems(a.items, items, b, caseSensitive);
        (Array(r.0), Array(r.1))
      case Object(members) =>
        AllInSort(members, caseSensitive);
        var r := ReorderedMembers(SortList(a.members, caseSensitive), SortList(members, caseSensitive), b,
                                  caseSensitive);
        (Object(r.0), Object(r.1))
      case _ => (a, b)
  }

  function ReorderedItems(a: seq<Json>, b: seq<Json>, whole: Json, caseSensitive: bool): (r: (seq<Json>, seq<Json>))
    requires whole.Array? && forall j :: j in b ==> j in whole.items
    ensures |r.0| == |a| && |r.1| == |b|
    decreases whole, |b|
  {
    if a == [] || b == [] then (a, b)
    else
      assert b[0] in b;
      var first := Reordered(a[0], b[0], caseSensitive);
      var rest := if CompareJson(a[0], b[0], caseSensitive) then ReorderedItems(a[1..], b[1..], whole, caseSensitive)
                  else (a[1..], b[1..]);
      ([first.0] + rest.0, [first.1] + rest.1)
  }

  function ReorderedMembers(a: seq<Member>, b: seq<Member>, whole: Json, caseSensitive: bool)
    : (r: (seq<Member>, seq<Member>))
    requires whole.Object? && forall m :: m in b ==> m in whole.members
    ensures |r.0| == |a| && |r.1| == |b|
    decreases whole, |b|
  {
    if a == [] || b == [] || CompareStrings(a[0].key, b[0].key, caseSensitive) != 0 then (a, b)
    else
      assert b[0] in whole.members;
      var first := Reordered(a[0].value, b[0].value, caseSensitive);
      var rest := if CompareJson(a[0].value, b[0].value, caseSensitive)
                  then ReorderedMembers(a[1..], b[1..], whole, caseSensitive)
                  else (a[1..], b[1..]);
      ([Member(a[0].key, first.0)] + rest.0, [Member(b[0].key, first.1)] + rest.1)
  }

  // ----- Heights -----

  function Max(a: nat, b: nat): nat { if a < b then b else a }

  function Height(j: Json): nat
    decreases j
  {
    match j
    case Array(items) => 1 + ItemsHeight(items)
    case Object(members) => 1 + MembersHeight(members)
    case _ => 0
  }

  function ItemsHeight(items: seq<Json>): nat
    decreases items
  {
    if items == [] then 0 else Max(Height(items[0]), ItemsHeight(items[1..]))
  }

  function MembersHeight(ms: seq<Member>): nat
    decreases ms
  {
    if ms == [] then 0 else Max(Height(ms[0].value), MembersHeight(ms[1..]))
  }

  lemma {:induction false} MembersHeightBound(ms: seq<Member>, n: nat)
    ensures MembersHeight(ms) <= n <==> forall i :: 0 <= i < |ms| ==> Height(ms[i].value) <= n
  {
    hide Height;
    if ms != [] {
      MembersHeightBound(ms[1..], n);
      assert forall i :: 0 < i < |ms| ==> ms[i] == ms[1..][i - 1];
      if forall i :: 0 <= i < |ms| ==> Height(ms[i].value) <= n {
        assert forall i :: 0 <= i < |ms[1..]| ==> ms[1..][i] == ms[i + 1];
      }
    }
  }

  /** A member is lower than its object. */
  lemma {:induction false} MemberLower(m: Member, whole: Json)
    requires whole.Object? && m in whole.members
    ensures Height(m.value) < Height(whole)
  {
    MembersHeightBound(whole.members, MembersHeight(whole.members));
  }

  lemma {:induction false} SortHeight(ms: seq<Member>, caseSensitive: bool)
    ensures MembersHeight(SortList(ms, caseSensitive)) == MembersHeight(ms)
  {
    hide Height, SortList;
    var r := SortList(ms, caseSensitive);
    AllInSort(ms, caseSensitive);
    MembersHeightBound(r, MembersHeight(r));
    MembersHeightBound(ms, MembersHeight(ms));
    MembersHeightBound(r, MembersHeight(ms));
    MembersHeightBound(ms, MembersHeight(r));
    forall i | 0 <= i < |r|
      ensures Height(r[i].value) <= MembersHeight(ms)
    {
      assert r[i] in ms;
    }
    forall i | 0 <= i < |ms|
      ensures Height(ms[i].value) <= MembersHeight(r)
    {
      assert ms[i] in r;
    }
  }

  lemma {:induction false} ReorderedHeight(a: Json, b: Json, caseSensitive: bool)
    ensures Height(Reordered(a, b, caseSensitive).1) == Height(b)
    decreases b, 1, 0
  {
    hide ReorderedItems, ReorderedMembers, SortList, ItemsHeight, MembersHeight;
    if a.Array? && b.Array? {
      ReorderedItemsHeight(a.items, b.items, b, caseSensitive);
    } else if a.Object? && b.Object? {
      AllInSort(b.members, caseSensitive);
      SortHeight(b.members, caseSensitive);
      ReorderedMembersHeight(SortList(a.members, caseSensitive), SortList(b.members, caseSensitive), b, caseSensitive);
    }
  }

  lemma {:induction false} ReorderedItemsHeight(a: seq<Json>, b: seq<Json>, whole: Json, caseSensitive: bool)
    requires whole.Array? && forall j :: j in b ==> j in whole.items
    ensures ItemsHeight(ReorderedItems(a, b, whole, caseSensitive).1) == ItemsHeight(b)
    decreases whole, 0, |b|
  {
    hide Reordered, CompareJson, Height;
    if a != [] && b != [] {
      assert b[0] in b;
      ReorderedHeight(a[0], b[0], caseSensitive);
      ReorderedItemsHeight(a[1..], b[1..], whole, caseSensitive);
      var r := ReorderedItems(a, b, whole, caseSensitive).1;
      assert r[1..] == if CompareJson(a[0], b[0], caseSensitive)
                       then ReorderedItems(a[1..], b[1..], whole, caseSensitive).1
                       else b[1..];
    }
  }

  lemma {:induction false} ReorderedMembersHeight(a: seq<Member>, b: seq<Member>, whole: Json, caseSensitive: bool)
    requires whole.Object? && forall m :: m in b ==> m in whole.members
    ensures MembersHeight(ReorderedMembers(a, b, whole, caseSensitive).1) == MembersHeight(b)
    decreases whole, 0, |b|
  {
    hide Reordered, CompareJson, CompareStrings, Height;
    if a != [] && b != [] && CompareStrings(a[0].key, b[0].key, caseSensitive) == 0 {
      assert b[0] in whole.members;
      ReorderedHeight(a[0].value, b[0].value, caseSensitive);
      ReorderedMembersHeight(a[1..], b[1..], whole, caseSensitive);
      var r := ReorderedMembers(a, b, whole, caseSensitive).1;
      assert r[1..] == if CompareJson(a[0].value, b[0].value, caseSensitive)
                       then ReorderedMembers(a[1..], b[1..], whole, caseSensitive).1
                       else b[1..];
    }
  }

  // ----- The same document, up to the order of members -----

  ghost predicate Same(a: Json, b: Json)
    decreases b
  {
    match b
    case Array(items) => a.Array? && |a.items| == |items| && forall i :: 0 <= i < |items| ==> Same(a.items[i], items[i])
    case Object(members) => a.Object? && SameMembers(a.members, b)
    case _ => a == b
  }

  ghost predicate SameMembers(ms: seq<Member>, b: Json)
    requires b.Object?
    decreases b, 0
  {
    && (forall key :: Has(ms, key) <==> Has(b.members, key))
    && (forall i :: 0 <= i < |b.members| && Has(ms, b.members[i].key) ==>
          Same(Value(ms, b.members[i].key), b.members[i].value))
  }

  lemma {:induction false} SameItself(j: Json)
    requires Distinct(j)
    ensures Same(j, j)
    decreases j
  {
    hide IndexOf;
    match j
    case Array(items) =>
      forall i | 0 <= i < |items|
        ensures Same(items[i], items[i])
      {
        SameItself(items[i]);
      }
    case Object(members) =>
      forall i | 0 <= i < |members|
        ensures Same(Value(members, members[i].key), members[i].value)
      {
        HasAt(members, i);
        SameItself(members[i].value);
      }
    case _ =>
  }

  /** Matching does not depend on the order of members. */
  lemma {:induction false} MatchesCarries(a: Json, a': Json, b: Json, b': Json)
    requires Same(a, a') && Same(b, b') && Matches(a, b)
    ensures Matches(a', b')
    decreases b'
  {
    hide SameDouble, IndexOf;
    match b'
    case Array(items) =>
      forall i | 0 <= i < |items|
        ensures Matches(a'.items[i], items[i])
      {
        MatchesCarries(a.items[i], a'.items[i], b.items[i], items[i]);
      }
    case Object(members) =>
      assert SameMembers(a.members, a') && SameMembers(b.members, b') && MembersMatch(a.members, b);
      forall i | 0 <= i < |members| && Has(a'.members, members[i].key)
        ensures Matches(Value(a'.members, members[i].key), members[i].value)
      {
        var key := members[i].key;
        var j, k := IndexOf(a'.members, key), IndexOf(b.members, key);
        assert a'.members[j].key == key && b.members[k].key == key;
        MatchesCarries(Value(a.members, key), Value(a'.members, key), Value(b.members, key), members[i].value);
      }
      assert MembersMatch(a'.members, b');
    case _ =>
  }

  /** The other document is the same one, and has no key twice. */
  ghost predicate Alike(a: Json, b: Json) { Same(a, b) && Same(b, a) && Distinct(b) }

  lemma {:induction false} AlikeItself(j: Json)
    requires Distinct(j)
    ensures Alike(j, j)
  {
    hide Distinct, Same;
    SameItself(j);
  }

  lemma {:induction false} MatchesAlike(a: Json, a': Json, b: Json, b': Json)
    requires Alike(a, a') && Alike(b, b')
    ensures Matches(a, b) <==> Matches(a', b')
  {
    hide Distinct, Same, Matches;
    if Matches(a, b) { MatchesCarries(a, a', b, b'); }
    if Matches(a', b') { MatchesCarries(a', a, b', b); }
  }

  // ----- compare_json changes nothing but the order -----

  lemma {:induction false} DistinctTail(ms: seq<Member>)
    requires DistinctKeys(ms) && ms != []
    ensures DistinctKeys(ms[1..]) && !Has(ms[1..], ms[0].key)
  {
    HasMeans(ms[1..], ms[0].key);
  }

  lemma {:induction false} CountOnce(ms: seq<Member>, m: Member)
    requires DistinctKeys(ms)
    ensures multiset(ms)[m] <= 1
  {
    if ms != [] {
      DistinctTail(ms);
      CountOnce(ms[1..], m);
      assert ms == [ms[0]] + ms[1..];
      HasMeans(ms[1..], ms[0].key);
    }
  }

  lemma {:induction false} CountTwice(ms: seq<Member>, i: nat, j: nat)
    requires i < j < |ms| && ms[i] == ms[j]
    ensures multiset(ms)[ms[i]] >= 2
  {
    assert ms == ms[..j] + [ms[j]] + ms[j + 1..];
    assert ms[..j][i] in ms[..j];
  }

  /** However it is sorted, a list keeps its keys and their values. */
  lemma {:induction false} SortKeepsAny(ms: seq<Member>, caseSensitive: bool, key: string)
    requires DistinctKeys(ms)
    ensures var r := SortList(ms, caseSensitive);
            DistinctKeys(r) && Has(r, key) == Has(ms, key) && (Has(ms, key) ==> Value(r, key) == Value(ms, key))
  {
    hide SortList, IndexOf;
    var r := SortList(ms, caseSensitive);
    AllInSort(ms, caseSensitive);
    forall i, j | 0 <= i < j < |r|
      ensures r[i].key != r[j].key
    {
      assert r[i] in ms && r[j] in ms;
      if r[i] == r[j] {
        SortPermutes(ms, caseSensitive);
        CountOnce(ms, r[i]);
        CountTwice(r, i, j);
      }
    }
    HasMeans(ms, key);
    HasMeans(r, key);
    if Has(ms, key) {
      var m := ms[IndexOf(ms, key)];
      assert m in r;
      var i :| 0 <= i < |r| && r[i] == m;
      HasAt(r, i);
    }
    if Has(r, key) { assert r[IndexOf(r, key)] in ms; }
  }

  /** Member by member the same, in the same order. */
  ghost predicate AlikeInOrder(a: seq<Member>, b: seq<Member>) {
    |a| == |b| && forall i :: 0 <= i < |a| ==> AlikeMember(a[i], b[i])
  }

  ghost predicate AlikeMember(a: Member, b: Member) { a.key == b.key && Alike(a.value, b.value) }

  predicate DistinctValues(ms: seq<Member>) { forall i :: 0 <= i < |ms| ==> Distinct(ms[i].value) }

  lemma {:induction false} ReorderedMembersAlike(a: seq<Member>, b: seq<Member>, whole: Json, caseSensitive: bool)
    requires whole.Object? && forall m :: m in b ==> m in whole.members
    requires DistinctValues(a) && DistinctValues(b)
    ensures var r := ReorderedMembers(a, b, whole, caseSensitive); AlikeInOrder(a, r.0) && AlikeInOrder(b, r.1)
    decreases whole, 0, |b|
  {
    hide Reordered, CompareJson, CompareStrings, Distinct, Alike;
    MembersAlikeThemselves(a);
    MembersAlikeThemselves(b);
    if a != [] && b != [] && CompareStrings(a[0].key, b[0].key, caseSensitive) == 0 {
      assert b[0] in whole.members;
      var first := Reordered(a[0].value, b[0].value, caseSensitive);
      ReorderedAlike(a[0].value, b[0].value, caseSensitive);
      var same := CompareJson(a[0].value, b[0].value, caseSensitive);
      var rest := if same then ReorderedMembers(a[1..], b[1..], whole, caseSensitive) else (a[1..], b[1..]);
      if same { ReorderedMembersAlike(a[1..], b[1..], whole, caseSensitive); }
      MembersAlikeThemselves(a[1..]);
      MembersAlikeThemselves(b[1..]);
      AlikeFirst(a, Member(a[0].key, first.0), rest.0);
      AlikeFirst(b, Member(b[0].key, first.1), rest.1);
    }
  }

  lemma {:induction false} MembersAlikeThemselves(ms: seq<Member>)
    requires DistinctValues(ms)
    ensures AlikeInOrder(ms, ms)
  {
    hide Distinct, Alike;
    forall i | 0 <= i < |ms|
      ensures AlikeMember(ms[i], ms[i])
    {
      AlikeItself(ms[i].value);
    }
  }

  lemma {:induction false} AlikeFirst(a: seq<Member>, m: Member, rest: seq<Member>)
    requires a != [] && AlikeMember(a[0], m) && AlikeInOrder(a[1..], rest)
    ensures AlikeInOrder(a, [m] + rest)
  {
    hide AlikeMember;
    var r := [m] + rest;
    forall i | 0 <= i < |a|
      ensures AlikeMember(a[i], r[i])
    {
      if i > 0 { assert AlikeMember(a[1..][i - 1], rest[i - 1]); }
    }
  }

  lemma {:induction false} ReorderedItemsAlike(a: seq<Json>, b: seq<Json>, whole: Json, caseSensitive: bool)
    requires whole.Array? && forall j :: j in b ==> j in whole.items
    requires (forall i :: 0 <= i < |a| ==> Distinct(a[i])) && (forall i :: 0 <= i < |b| ==> Distinct(b[i]))
    ensures var r := ReorderedItems(a, b, whole, caseSensitive);
            && (forall i :: 0 <= i < |a| ==> Alike(a[i], r.0[i]))
            && (forall i :: 0 <= i < |b| ==> Alike(b[i], r.1[i]))
    decreases whole, 0, |b|
  {
    hide Reordered, CompareJson, Distinct, Alike;
    forall i | 0 <= i < |a|
      ensures Alike(a[i], a[i])
    {
      AlikeItself(a[i]);
    }
    forall i | 0 <= i < |b|
      ensures Alike(b[i], b[i])
    {
      AlikeItself(b[i]);
    }
    if a != [] && b != [] {
      assert b[0] in b;
      ReorderedAlike(a[0], b[0], caseSensitive);
      ReorderedItemsAlike(a[1..], b[1..], whole, caseSensitive);
      assert forall i :: 0 < i < |a| ==> a[i] == a[1..][i - 1];
      assert forall i :: 0 < i < |b| ==> b[i] == b[1..][i - 1];
    }
  }

  lemma {:induction false} IndexInOrder(s: seq<Member>, r: seq<Member>, key: string)
    requires AlikeInOrder(s, r)
    ensures IndexOf(s, key) == IndexOf(r, key)
  {
    hide Alike;
    if s != [] {
      assert AlikeMember(s[0], r[0]);
      assert AlikeInOrder(s[1..], r[1..]) by {
        forall i | 0 <= i < |s[1..]|
          ensures AlikeMember(s[1..][i], r[1..][i])
        {
          assert AlikeMember(s[i + 1], r[i + 1]);
        }
      }
      IndexInOrder(s[1..], r[1..], key);
    }
  }

  /** What a list holds under a key, sorted and with members that are alike. */
  lemma {:induction false} AlikeUnderKey(ms: seq<Member>, caseSensitive: bool, r: seq<Member>, key: string)
    requires DistinctKeys(ms) && AlikeInOrder(SortList(ms, caseSensitive), r)
    ensures Has(r, key) <==> Has(ms, key)
    ensures Has(ms, key) ==> Alike(Value(ms, key), Value(r, key))
  {
    hide Alike, IndexOf, SortList;
    var s := SortList(ms, caseSensitive);
    SortKeepsAny(ms, caseSensitive, key);
    IndexInOrder(s, r, key);
    if Has(s, key) { assert AlikeMember(s[IndexOf(s, key)], r[IndexOf(s, key)]); }
  }

  lemma {:induction false} ObjectAlike(ms: seq<Member>, caseSensitive: bool, r: seq<Member>)
    requires DistinctKeys(ms) && AlikeInOrder(SortList(ms, caseSensitive), r)
    ensures Alike(Object(ms), Object(r))
  {
    hide Alike, IndexOf, SortList, Same, Distinct;
    var s := SortList(ms, caseSensitive);
    forall key
      ensures Has(r, key) <==> Has(ms, key)
      ensures Has(ms, key) ==> Alike(Value(ms, key), Value(r, key))
    {
      AlikeUnderKey(ms, caseSensitive, r, key);
    }
    SortKeepsAny(ms, caseSensitive, "");
    forall i | 0 <= i < |s|
      ensures s[i].key == r[i].key && Distinct(r[i].value)
    {
      assert AlikeMember(s[i], r[i]);
      AlikeMeans(s[i].value, r[i].value);
    }
    DistinctByKeys(s, r);
    AlikeByKeys(ms, r);
  }

  lemma {:induction false} AlikeMeans(a: Json, b: Json)
    ensures Alike(a, b) <==> Same(a, b) && Same(b, a) && Distinct(b)
  {
    hide Same, Distinct;
  }

  lemma {:induction false} AlikeKinds(a: Json, b: Json)
    requires Alike(a, b)
    ensures a.Object? == b.Object?
  {
    hide SameMembers;
  }

  /** What two objects that are alike hold under a key. */
  lemma {:induction false} AlikeValues(a: Json, b: Json, key: string)
    requires a.Object? && b.Object? && Distinct(a) && Alike(a, b)
    ensures DistinctKeys(a.members) && DistinctKeys(b.members) && (Has(a.members, key) <==> Has(b.members, key))
    ensures Has(a.members, key) ==>
              Distinct(Value(a.members, key)) && Alike(Value(a.members, key), Value(b.members, key))
  {
    hide IndexOf;
    var i, j := IndexOf(a.members, key), IndexOf(b.members, key);
    assert SameMembers(a.members, b) && SameMembers(b.members, a);
    assert Has(a.members, key) <==> Has(b.members, key);
    if Has(a.members, key) {
      assert a.members[i].key == key && b.members[j].key == key;
    }
  }

  lemma {:induction false} DistinctByKeys(s: seq<Member>, r: seq<Member>)
    requires DistinctKeys(s) && |s| == |r| && forall i :: 0 <= i < |s| ==> s[i].key == r[i].key && Distinct(r[i].value)
    ensures Distinct(Object(r)) && DistinctKeys(r)
  {
  }

  lemma {:induction false} AlikeByKeys(ms: seq<Member>, r: seq<Member>)
    requires DistinctKeys(ms) && DistinctKeys(r) && Distinct(Object(r))
    requires forall key :: Has(r, key) <==> Has(ms, key)
    requires forall key :: Has(ms, key) ==> Alike(Value(ms, key), Value(r, key))
    ensures Alike(Object(ms), Object(r))
  {
    hide IndexOf, Same, Distinct;
    forall i | 0 <= i < |r|
      ensures Has(ms, r[i].key) && Same(Value(ms, r[i].key), r[i].value)
    {
      HasAt(r, i);
    }
    forall i | 0 <= i < |ms|
      ensures Has(r, ms[i].key) && Same(Value(r, ms[i].key), ms[i].value)
    {
      HasAt(ms, i);
    }
    SameObjects(ms, r);
    SameObjects(r, ms);
  }

  lemma {:induction false} SameObjects(a: seq<Member>, b: seq<Member>)
    requires forall key :: Has(a, key) <==> Has(b, key)
    requires forall i :: 0 <= i < |b| ==> Has(a, b[i].key) && Same(Value(a, b[i].key), b[i].value)
    ensures Same(Object(a), Object(b))
  {
    hide IndexOf;
  }

  /** Objects whose members are alike, one by one. */
  lemma {:induction false} MembersAlike(ms: seq<Member>, r: seq<Member>)
    requires DistinctKeys(ms) && AlikeInOrder(ms, r)
    ensures Alike(Object(ms), Object(r))
  {
    hide Alike, IndexOf, Same, Distinct, DistinctKeys;
    forall key
      ensures Has(r, key) <==> Has(ms, key)
      ensures Has(ms, key) ==> Alike(Value(ms, key), Value(r, key))
    {
      IndexInOrder(ms, r, key);
      if Has(ms, key) { assert AlikeMember(ms[IndexOf(ms, key)], r[IndexOf(ms, key)]); }
    }
    forall i | 0 <= i < |ms|
      ensures ms[i].key == r[i].key && Distinct(r[i].value)
    {
      assert AlikeMember(ms[i], r[i]);
      AlikeMeans(ms[i].value, r[i].value);
    }
    DistinctByKeys(ms, r);
    AlikeByKeys(ms, r);
  }

  lemma {:induction false} SameArrays(a: seq<Json>, b: seq<Json>)
    requires |a| == |b| && forall i :: 0 <= i < |a| ==> Alike(a[i], b[i])
    ensures Alike(Array(a), Array(b))
  {
  }

  /** compare_json changes nothing in the two documents but the order of members. */
  lemma {:induction false} ReorderedAlike(a: Json, b: Json, caseSensitive: bool)
    requires Distinct(a) && Distinct(b)
    ensures var r := Reordered(a, b, caseSensitive); Alike(a, r.0) && Alike(b, r.1)
    decreases b, 1, 0
  {
    hide ReorderedItems, ReorderedMembers, SortList, DistinctKeys, Alike;
    if a.Array? && b.Array? {
      ReorderedItemsAlike(a.items, b.items, b, caseSensitive);
      var r := ReorderedItems(a.items, b.items, b, caseSensitive);
      SameArrays(a.items, r.0);
      SameArrays(b.items, r.1);
    } else if a.Object? && b.Object? {
      AllInSort(a.members, caseSensitive);
      AllInSort(b.members, caseSensitive);
      var s, t := SortList(a.members, caseSensitive), SortList(b.members, caseSensitive);
      SortedValues(a, s);
      SortedValues(b, t);
      ReorderedMembersAlike(s, t, b, caseSensitive);
      var r := ReorderedMembers(s, t, b, caseSensitive);
      ObjectAlike(a.members, caseSensitive, r.0);
      ObjectAlike(b.members, caseSensitive, r.1);
    } else {
      AlikeItself(a);
      AlikeItself(b);
    }
  }

  lemma {:induction false} SortedValues(j: Json, s: seq<Member>)
    requires j.Object? && Distinct(j) && forall m :: m in s ==> m in j.members
    ensures DistinctValues(s) && DistinctKeys(j.members)
  {
    forall i | 0 <= i < |s|
      ensures Distinct(s[i].value)
    {
      assert s[i] in j.members;
    }
  }

  lemma {:induction false} ReorderedType(a: Json, b: Json, caseSensitive: bool)
    ensures var r := Reordered(a, b, caseSensitive); SameType(r.0, a) && SameType(r.1, b)
  {
    hide ReorderedItems, ReorderedMembers, SortList;
  }
}

/** compare_json, and that on objects with distinct keys it decides equality up to the order of members. */
module JsonCompare {
  import opened JsonTree
  import opened JsonSort

  /** The type field. */
  predicate SameType(a: Json, b: Json) {
    match b
    case Invalid => a.Invalid?
    case Null => a.Null?
    case False => a.False?
    case True => a.True?
    case Number(_, _) => a.Number?
    case String(_) => a.String?
    case Array(_) => a.Array?
    case Object(_) => a.Object?
  }

  /** compare_json; what it leaves of the two documents is `Reordered` in module JsonReorder. */
  predicate CompareJson(a: Json, b: Json, caseSensitive: bool)
    decreases b
  {
    SameType(a, b) &&
    match b
    case Number(i, d) => a.int32 == i && SameDouble(a.double, d)
    case String(s) => a.text == s
    case Array(items) => CompareItems(a.items, items, b, caseSensitive)
    case Object(members) =>
      AllInSort(members, caseSensitive);
      CompareMembers(SortList(a.members, caseSensitive), SortList(members, caseSensitive), b, caseSensitive)
    case _ => true
  }

  predicate CompareItems(a: seq<Json>, b: seq<Json>, whole: Json, caseSensitive: bool)
    requires whole.Array? && forall j :: j in b ==> j in whole.items
    decreases whole, |b|
  {
    if a == [] || b == [] then a == [] && b == []
    else
      assert b[0] in b;
      CompareJson(a[0], b[0], caseSensitive) && CompareItems(a[1..], b[1..], whole, caseSensitive)
  }

  predicate CompareMembers(a: seq<Member>, b: seq<Member>, whole: Json, caseSensitive: bool)
    requires whole.Object? && forall m :: m in b ==> m in whole.members
    decreases whole, |b|
  {
    if a == [] || b == [] then a == [] && b == []
    else
      assert b[0] in whole.members;
      && CompareStrings(a[0].key, b[0].key, caseSensitive) == 0
      && CompareJson(a[0].value, b[0].value, caseSensitive)
      && CompareMembers(a[1..], b[1..], whole, caseSensitive)
  }

  lemma {:induction false} AllInSort(ms: seq<Member>, caseSensitive: bool)
    ensures forall m :: m in SortList(ms, caseSensitive) <==> m in ms
  {
    forall m
      ensures m in SortList(ms, caseSensitive) <==> m in ms
    {
      InSort(ms, caseSensitive, m);
    }
  }

  // ----- Sorted lists -----

  lemma {:induction false} DistinctDiffer(ms: seq<Member>)
    ensures DistinctKeys(ms) <==> AllDiffer(ms, true)
  {
    forall i, j | 0 <= i < j < |ms|
      ensures CompareStrings(ms[i].key, ms[j].key, true) == 0 <==> ms[i].key == ms[j].key
    {
      StrcmpEqual(ms[i].key, ms[j].key);
    }
  }

  lemma {:induction false} SortedDistinct(ms: seq<Member>)
    requires Sorted(ms, true)
    ensures DistinctKeys(ms)
  {
    hide Strcmp;
    forall i, j | 0 <= i < j < |ms|
      ensures ms[i].key != ms[j].key
    {
      StrcmpEqual(ms[i].key, ms[j].key);
    }
  }

  lemma {:induction false} HasMeans(ms: seq<Member>, key: string)
    ensures Has(ms, key) <==> exists i :: 0 <= i < |ms| && ms[i].key == key
  {
  }

  /** Sorting changes neither the keys nor their values. */
  lemma {:induction false} SortKeeps(ms: seq<Member>, key: string)
    requires DistinctKeys(ms)
    ensures var r := SortList(ms, true);
            Sorted(r, true) && (Has(r, key) <==> Has(ms, key)) && (Has(ms, key) ==> Value(r, key) == Value(ms, key))
  {
    hide SortList, Sorted, IndexOf;
    var r := SortList(ms, true);
    DistinctDiffer(ms);
    SortSorts(ms, true);
    SortedDistinct(r);
    HasMeans(ms, key);
    HasMeans(r, key);
    AllInSort(ms, true);
    if Has(ms, key) {
      var m := ms[IndexOf(ms, key)];
      assert m in r;
      var i :| 0 <= i < |r| && r[i] == m;
      HasAt(r, i);
    }
    if Has(r, key) {
      assert r[IndexOf(r, key)] in ms;
    }
  }

  /** The first key of a sorted list is in the list just once, and no smaller key is. */
  lemma {:induction false} HeadKey(ms: seq<Member>, key: string)
    requires Sorted(ms, true) && ms != []
    ensures !Has(ms[1..], ms[0].key) && Sorted(ms[1..], true)
    ensures Strcmp(key, ms[0].key) < 0 ==> !Has(ms, key)
  {
    hide Strcmp, IndexOf;
    SortedDistinct(ms);
    HasMeans(ms[1..], ms[0].key);
    HasMeans(ms, key);
    if Strcmp(key, ms[0].key) < 0 {
      forall i | 0 <= i < |ms|
        ensures ms[i].key != key
      {
        StrcmpEqual(key, key);
        StrcmpOpposite(key, ms[0].key);
        if i > 0 { assert Below(ms[0], ms[i], true); }
      }
    }
  }

  // ----- compare_json decides equality -----

  /** What comparing the sorted members one by one decides: the same keys, with values that compare equal. */
  ghost predicate SameLists(a: seq<Member>, b: seq<Member>) {
    && (forall key :: Has(a, key) <==> Has(b, key))
    && (forall key :: Has(a, key) && Has(b, key) ==> CompareJson(Value(a, key), Value(b, key), true))
  }

  lemma {:induction false} SameListsTail(a: seq<Member>, b: seq<Member>)
    requires Sorted(a, true) && Sorted(b, true) && a != [] && b != [] && a[0].key == b[0].key
    ensures SameLists(a, b) <==> CompareJson(a[0].value, b[0].value, true) && SameLists(a[1..], b[1..])
  {
    hide Sorted, CompareJson;
    var key := a[0].key;
    HeadKey(a, key);
    HeadKey(b, key);
    forall k
      ensures Has(a, k) <==> k == key || Has(a[1..], k)
      ensures Has(b, k) <==> k == key || Has(b[1..], k)
      ensures k != key && Has(a, k) ==> Value(a, k) == Value(a[1..], k)
      ensures k != key && Has(b, k) ==> Value(b, k) == Value(b[1..], k)
    {
    }
    assert Value(a, key) == a[0].value && Value(b, key) == b[0].value;
    SameListsSplit(a, b, key);
  }

  lemma {:induction false} SameListsSplit(a: seq<Member>, b: seq<Member>, key: string)
    requires a != [] && b != [] && a[0].key == b[0].key == key && !Has(a[1..], key) && !Has(b[1..], key)
    requires forall k :: Has(a, k) <==> k == key || Has(a[1..], k)
    requires forall k :: Has(b, k) <==> k == key || Has(b[1..], k)
    requires forall k :: k != key && Has(a, k) ==> Value(a, k) == Value(a[1..], k)
    requires forall k :: k != key && Has(b, k) ==> Value(b, k) == Value(b[1..], k)
    requires Value(a, key) == a[0].value && Value(b, key) == b[0].value
    ensures SameLists(a, b) <==> CompareJson(a[0].value, b[0].value, true) && SameLists(a[1..], b[1..])
  {
    hide Has, Value, CompareJson;
  }

  lemma {:induction false} CompareMembersSame(a: seq<Member>, b: seq<Member>, whole: Json)
    requires Sorted(a, true) && Sorted(b, true)
    requires whole.Object? && forall m :: m in b ==> m in whole.members
    ensures CompareMembers(a, b, whole, true) <==> SameLists(a, b)
    decreases |b|
  {
    hide Sorted, CompareJson, Strcmp, Value;
    if a == [] && b == [] {
    } else if a == [] {
      assert Has(b, b[0].key) && !Has(a, b[0].key);
    } else if b == [] {
      assert Has(a, a[0].key) && !Has(b, a[0].key);
    } else {
      StrcmpEqual(a[0].key, b[0].key);
      if a[0].key == b[0].key {
        HeadKey(a, a[0].key);
        HeadKey(b, b[0].key);
        CompareMembersSame(a[1..], b[1..], whole);
        SameListsTail(a, b);
      } else {
        StrcmpOpposite(b[0].key, a[0].key);
        HeadKey(a, b[0].key);
        HeadKey(b, a[0].key);
        assert Has(b, b[0].key) && Has(a, a[0].key);
      }
    }
  }

  lemma {:induction false} SameListsSorted(a: seq<Member>, b: seq<Member>)
    requires DistinctKeys(a) && DistinctKeys(b)
    ensures SameLists(SortList(a, true), SortList(b, true)) <==> SameLists(a, b)
    ensures Sorted(SortList(a, true), true) && Sorted(SortList(b, true), true)
  {
    hide SortList, Sorted, CompareJson, Has, Value, DistinctKeys;
    SortKeeps(a, "");
    SortKeeps(b, "");
    forall key
      ensures Has(SortList(a, true), key) <==> Has(a, key)
      ensures Has(a, key) ==> Value(SortList(a, true), key) == Value(a, key)
      ensures Has(SortList(b, true), key) <==> Has(b, key)
      ensures Has(b, key) ==> Value(SortList(b, true), key) == Value(b, key)
    {
      SortKeeps(a, key);
      SortKeeps(b, key);
    }
  }

  lemma {:induction false} CompareItemsSame(a: seq<Json>, b: seq<Json>, whole: Json)
    requires whole.Array? && forall j :: j in b ==> j in whole.items
    ensures CompareItems(a, b, whole, true) <==>
            |a| == |b| && forall i :: 0 <= i < |b| ==> CompareJson(a[i], b[i], true)
    decreases |b|
  {
    hide CompareJson;
    if a != [] && b != [] {
      CompareItemsSame(a[1..], b[1..], whole);
      if |a| == |b| {
        assert forall i :: 0 < i < |b| ==> a[i] == a[1..][i - 1] && b[i] == b[1..][i - 1];
        assert (forall i :: 0 <= i < |b| ==> CompareJson(a[i], b[i], true)) <==>
               CompareJson(a[0], b[0], true) &&
               forall i :: 0 <= i < |b| - 1 ==> CompareJson(a[1..][i], b[1..][i], true);
      }
    }
  }

  /** compare_json says that two documents are equal exactly if they are, up to the order of members. */
  lemma {:induction false} CompareDecides(a: Json, b: Json)
    requires Distinct(a) && Distinct(b)
    ensures CompareJson(a, b, true) <==> Matches(a, b)
    decreases b
  {
    hide SortList, CompareItems, CompareMembers, SameDouble, SameLists, Has, Value;
    if a.Array? && b.Array? {
      CompareItemsSame(a.items, b.items, b);
      if |a.items| == |b.items| {
        forall i | 0 <= i < |b.items|
          ensures CompareJson(a.items[i], b.items[i], true) <==> Matches(a.items[i], b.items[i])
        {
          CompareDecides(a.items[i], b.items[i]);
        }
      }
    } else if a.Object? && b.Object? {
      SameListsSorted(a.members, b.members);
      AllInSort(b.members, true);
      CompareMembersSame(SortList(a.members, true), SortList(b.members, true), b);
      CompareDecidesObject(a, b);
    }
  }

  lemma {:induction false} CompareDecidesObject(a: Json, b: Json)
    requires Distinct(a) && Distinct(b) && a.Object? && b.Object?
    ensures SameLists(a.members, b.members) <==> MembersMatch(a.members, b)
    decreases b, 0
  {
    hide IndexOf, CompareJson, Matches;
    forall i | 0 <= i < |b.members| && Has(a.members, b.members[i].key)
      ensures var key := b.members[i].key;
              Has(b.members, key) && Value(b.members, key) == b.members[i].value &&
              (CompareJson(Value(a.members, key), b.members[i].value, true) <==>
               Matches(Value(a.members, key), b.members[i].value))
    {
      HasAt(b.members, i);
      CompareDecides(Value(a.members, b.members[i].key), b.members[i].value);
    }
  }
}

/** For which documents apply_patch reaches everything that their difference names. */
module JsonPatchable {
  import opened JsonTree
  import opened JsonPointer
  import opened JsonSort
  import opened JsonCompare
  import opened JsonPatch
  import opened JsonEdit

  // ----- Conditions on two documents -----

  /** The difference of these two documents is to replace the one by the other. */
  predicate Replaces(source: Json, target: Json) {
    || !SameType(source, target)
    || (target.Number? && (source.int32 != target.int32 || !SameDouble(source.double, target.double)))
    || (target.String? && source.text != target.text)
  }

  /**
   * What the walk along both documents visits is readable: no object has a key twice, and indices of arrays fit a
   * size_t.
   */
  predicate Readable(source: Json, target: Json)
    decreases target
  {
    match target
    case Array(items) =>
      source.Array? ==>
        && |source.items| < SIZE_MAX_PLUS_1
        && forall i :: 0 <= i < |items| && i < |source.items| ==> Readable(source.items[i], items[i])
    case Object(members) =>
      source.Object? ==>
        && DistinctKeys(source.members)
        && forall i :: 0 <= i < |members| && Has(source.members, members[i].key) ==>
             Readable(Value(source.members, members[i].key), members[i].value)
    case _ => true
  }

  /**
   * The keys that are added, removed or replaced can be written in a path: they come back from it, and detach_path,
   * which ignores case, finds them. Nothing is asked of other keys.
   */
  predicate Patchable(source: Json, target: Json)
    decreases target
  {
    match target
    case Array(items) =>
      source.Array? ==>
        && |source.items| < SIZE_MAX_PLUS_1
        && forall i :: 0 <= i < |items| && i < |source.items| ==> Patchable(source.items[i], items[i])
    case Object(members) =>
      source.Object? ==>
        && DistinctKeys(source.members)
        && (forall i :: 0 <= i < |members| ==> MemberPatchable(source.members, members[i], members))
        && (forall i :: 0 <= i < |source.members| ==> MemberRemovable(source.members, source.members[i].key, members))
    case _ => true
  }

  /** A member of the target, whose members are `all`, for the members that there are in the source. */
  predicate MemberPatchable(ms: seq<Member>, m: Member, all: seq<Member>)
    decreases m, 0
  {
    if !Has(ms, m.key) then Survives(m.key)
    else if Replaces(Value(ms, m.key), m.value) then FindsThen(ms, ms, all, m.key) && Survives(m.key)
    else Patchable(Value(ms, m.key), m.value)
  }

  /** A key of the source, for the members that there are in the target. */
  predicate MemberRemovable(ms: seq<Member>, key: string, all: seq<Member>)
  {
    Has(all, key) || FindsThen(ms, ms, all, key)
  }

  /**
   * The path with this key leads detach_path to the member with this key when the keys before it are done: every
   * earlier member with the same key up to case has gone by then. `source` and `target` are the members that are still
   * to come.
   */
  predicate FindsThen(ms: seq<Member>, source: seq<Member>, target: seq<Member>, key: string) {
    && SurvivesIgnoringCase(key)
    && forall i :: 0 <= i < IndexOf(ms, key) ==> Harmless(source, target, ms[i].key, key)
  }

  /** A member with the other key does not stand in the way of this one. */
  predicate Harmless(source: seq<Member>, target: seq<Member>, other: string, key: string) {
    LowerAll(other) == LowerAll(key) ==> Strcmp(other, key) < 0 && Leaves(source, target, other)
  }

  /** The member is removed, or replaced, which puts it at the end. */
  predicate Leaves(source: seq<Member>, target: seq<Member>, key: string) {
    Has(source, key) && (!Has(target, key) || Replaces(Value(source, key), Value(target, key)))
  }

  /** Documents of different types, and scalars, are replaced without any path. */
  lemma {:induction false} ReplacingIsPatchable(source: Json, target: Json)
    requires Replaces(source, target)
    ensures Patchable(source, target)
  {
  }

  lemma {:induction false} PatchableIsReadable(source: Json, target: Json)
    requires Patchable(source, target)
    ensures Readable(source, target)
    decreases target
  {
    hide Survives, FindsThen, IndexOf, DistinctKeys;
    if source.Array? && target.Array? {
      forall i | 0 <= i < |target.items| && i < |source.items|
        ensures Readable(source.items[i], target.items[i])
      {
        PatchableIsReadable(source.items[i], target.items[i]);
      }
    } else if source.Object? && target.Object? {
      var ms, all := source.members, target.members;
      forall i | 0 <= i < |all| && Has(ms, all[i].key)
        ensures Readable(Value(ms, all[i].key), all[i].value)
      {
        assert MemberPatchable(ms, all[i], all);
        if Replaces(Value(ms, all[i].key), all[i].value) { ReplacingIsPatchable(Value(ms, all[i].key), all[i].value); }
        PatchableIsReadable(Value(ms, all[i].key), all[i].value);
      }
    }
  }

  lemma {:induction false} ProperIsReadable(source: Json, target: Json)
    requires Distinct(source) && Indexable(source)
    ensures Readable(source, target)
    decreases target
  {
    hide IndexOf, DistinctKeys;
    if source.Array? && target.Array? {
      forall i | 0 <= i < |target.items| && i < |source.items|
        ensures Readable(source.items[i], target.items[i])
      {
        ProperIsReadable(source.items[i], target.items[i]);
      }
    } else if source.Object? && target.Object? {
      var ms, all := source.members, target.members;
      forall i | 0 <= i < |all| && Has(ms, all[i].key)
        ensures Readable(Value(ms, all[i].key), all[i].value)
      {
        ProperIsReadable(Value(ms, all[i].key), all[i].value);
      }
    }
  }

  lemma {:induction false} ReadableMembers(source: Json, target: Json)
    requires source.Object? && target.Object? && Readable(source, target)
    ensures DistinctKeys(source.members)
    ensures forall key :: Has(source.members, key) && Has(target.members, key) ==>
              Readable(Value(source.members, key), Value(target.members, key))
  {
    hide IndexOf;
    var all := target.members;
    forall key | Has(source.members, key) && Has(all, key)
      ensures Readable(Value(source.members, key), Value(all, key))
    {
      assert all[IndexOf(all, key)].key == key;
    }
  }

  // ----- Elements -----

  /** The elements that both arrays have. */
  predicate ItemsPatchable(source: seq<Json>, target: seq<Json>) {
    forall i :: 0 <= i < |source| && i < |target| ==> Patchable(source[i], target[i])
  }

  predicate ItemsReadable(source: seq<Json>, target: seq<Json>) {
    forall i :: 0 <= i < |source| && i < |target| ==> Readable(source[i], target[i])
  }

  lemma {:induction false} PatchableItems(source: Json, target: Json)
    requires source.Array? && target.Array? && Readable(source, target)
    ensures |source.items| < SIZE_MAX_PLUS_1 && ItemsReadable(source.items, target.items)
    ensures Patchable(source, target) <==> ItemsPatchable(source.items, target.items)
  {
  }

  lemma {:induction false} ItemsRest(source: seq<Json>, target: seq<Json>)
    requires source != [] && target != []
    ensures ItemsReadable(source, target) ==> ItemsReadable(source[1..], target[1..])
    ensures ItemsPatchable(source, target)
            <==> Patchable(source[0], target[0]) && ItemsPatchable(source[1..], target[1..])
  {
    hide Patchable, Readable;
    var s, t := source[1..], target[1..];
    assert forall i :: 0 <= i < |s| && i < |t| ==> s[i] == source[i + 1] && t[i] == target[i + 1];
    assert forall i :: 0 < i < |source| && i < |target| ==> source[i] == s[i - 1] && target[i] == t[i - 1];
  }

  // ----- Plain documents -----

  /** Keys without `~` and `/`, no two of one object alike up to upper and lower case, and indices that fit. */
  predicate PlainDocument(j: Json)
    decreases j
  {
    match j
    case Array(items) => |items| < SIZE_MAX_PLUS_1 && forall i :: 0 <= i < |items| ==> PlainDocument(items[i])
    case Object(members) =>
      && (forall i, k :: 0 <= i < k < |members| ==> LowerAll(members[i].key) != LowerAll(members[k].key))
      && (forall i :: 0 <= i < |members| ==> PlainMember(members[i]))
    case _ => true
  }

  predicate PlainMember(m: Member)
    decreases m, 0
  {
    Plain(m.key) && PlainDocument(m.value)
  }

  lemma {:induction false} PlainFindsItself(ms: seq<Member>, key: string)
    requires Has(ms, key) && PlainDocument(Object(ms))
    ensures forall all :: FindsThen(ms, ms, all, key)
    ensures PlainDocument(Value(ms, key)) && Survives(key) && DistinctKeys(ms)
  {
    hide LowerAll, SurvivesIgnoringCase, Survives, Plain;
    assert PlainMember(ms[IndexOf(ms, key)]);
    PlainKeySurvives(key);
  }

  /** Between such documents every difference can be applied. */
  lemma {:induction false} PlainIsPatchable(source: Json, target: Json)
    requires PlainDocument(source) && PlainDocument(target)
    ensures Patchable(source, target)
    decreases target
  {
    hide Replaces, Survives, FindsThen, IndexOf;
    if source.Array? && target.Array? {
      forall i | 0 <= i < |target.items| && i < |source.items|
        ensures Patchable(source.items[i], target.items[i])
      {
        PlainIsPatchable(source.items[i], target.items[i]);
      }
    } else if source.Object? && target.Object? {
      var ms, all := source.members, target.members;
      forall i | 0 <= i < |all|
        ensures MemberPatchable(ms, all[i], all)
      {
        assert PlainMember(all[i]);
        PlainKeySurvives(all[i].key);
        if Has(ms, all[i].key) {
          PlainFindsItself(ms, all[i].key);
          PlainIsPatchable(Value(ms, all[i].key), all[i].value);
        }
      }
      forall i | 0 <= i < |ms|
        ensures MemberRemovable(ms, ms[i].key, all)
      {
        HasAt(ms, i);
        PlainFindsItself(ms, ms[i].key);
      }
      PlainDistinct(ms);
    }
  }

  lemma {:induction false} PlainDistinct(ms: seq<Member>)
    requires PlainDocument(Object(ms))
    ensures DistinctKeys(ms)
  {
    hide LowerAll;
  }

  // ----- Members -----

  /** The operations that are still to come for one key reach what they name. */
  ghost predicate EditableAt(ms: seq<Member>, source: seq<Member>, target: seq<Member>, key: string) {
    if Has(source, key) then
      if !Has(target, key) then FindsThen(ms, source, target, key)
      else if Replaces(Value(source, key), Value(target, key)) then FindsThen(ms, source, target, key) && Survives(key)
      else Patchable(Value(source, key), Value(target, key))
    else Has(target, key) ==> Survives(key)
  }

  ghost predicate Editable(ms: seq<Member>, source: seq<Member>, target: seq<Member>) {
    forall key :: EditableAt(ms, source, target, key)
  }

  lemma {:induction false} EditableIsPatchable(source: Json, target: Json)
    requires source.Object? && target.Object? && DistinctKeys(source.members) && DistinctKeys(target.members)
    ensures Editable(source.members, source.members, target.members) <==> Patchable(source, target)
  {
    hide Replaces, Survives, FindsThen, IndexOf, DistinctKeys;
    var ms, all := source.members, target.members;
    if Editable(ms, ms, all) {
      forall i | 0 <= i < |all|
        ensures MemberPatchable(ms, all[i], all)
      {
        HasAt(all, i);
        assert EditableAt(ms, ms, all, all[i].key);
      }
      forall i | 0 <= i < |ms|
        ensures MemberRemovable(ms, ms[i].key, all)
      {
        HasAt(ms, i);
        assert EditableAt(ms, ms, all, ms[i].key);
      }
    }
    if Patchable(source, target) {
      forall key
        ensures EditableAt(ms, ms, all, key)
      {
        if Has(all, key) { assert MemberPatchable(ms, all[IndexOf(all, key)], all); }
        if Has(ms, key) { assert MemberRemovable(ms, ms[IndexOf(ms, key)].key, all); }
      }
    }
  }

  ghost predicate SameAt(a: seq<Member>, b: seq<Member>, key: string) {
    (Has(a, key) <==> Has(b, key)) && (Has(a, key) ==> Value(a, key) == Value(b, key))
  }

  lemma {:induction false} SameEditable(ms: seq<Member>, a: seq<Member>, b: seq<Member>, s: seq<Member>, t: seq<Member>)
    requires forall key :: SameAt(a, s, key) && SameAt(b, t, key)
    ensures Editable(ms, a, b) <==> Editable(ms, s, t)
  {
    hide Has, Value, Replaces, Survives, Patchable, LowerAll, Strcmp, SurvivesIgnoringCase;
    forall other, key
      ensures Harmless(a, b, other, key) <==> Harmless(s, t, other, key)
    {
      assert SameAt(a, s, other) && SameAt(b, t, other);
    }
    forall key
      ensures EditableAt(ms, a, b, key) <==> EditableAt(ms, s, t, key)
    {
      assert SameAt(a, s, key) && SameAt(b, t, key);
    }
  }

  lemma {:induction false} NothingEditable(ms: seq<Member>)
    ensures Editable(ms, [], [])
  {
  }

  // ----- The order of the members that are still to come -----

  predicate Precedes(ms: seq<Member>, other: string, key: string) { IndexOf(ms, other) < IndexOf(ms, key) }

  lemma {:induction false} FindsThenMeans(ms: seq<Member>, source: seq<Member>, target: seq<Member>, key: string)
    ensures FindsThen(ms, source, target, key) <==>
            SurvivesIgnoringCase(key) &&
            forall other :: Precedes(ms, other, key) ==> Harmless(source, target, other, key)
  {
    hide Harmless, SurvivesIgnoringCase, IndexOf;
    forall i | 0 <= i < IndexOf(ms, key)
      ensures Precedes(ms, ms[i].key, key)
    {
    }
    forall other | Precedes(ms, other, key)
      ensures ms[IndexOf(ms, other)].key == other
    {
    }
  }

  /** Working on the member with key0 leaves the order of the others; if `gone`, none of them comes after it now. */
  ghost predicate KeepsOrder(ms: seq<Member>, r: seq<Member>, key0: string, gone: bool) {
    forall other, key :: key != key0 && Has(ms, key) ==>
      (Precedes(r, other, key) <==> Precedes(ms, other, key) && !(gone && other == key0))
  }

  lemma {:induction false} OrderAfterRemove(ms: seq<Member>, key0: string)
    requires DistinctKeys(ms) && Has(ms, key0)
    ensures KeepsOrder(ms, Without(ms, IndexOf(ms, key0)), key0, true)
  {
    hide IndexOf;
    var n := IndexOf(ms, key0);
    var r := Without(ms, n);
    forall other, key | key != key0 && Has(ms, key)
      ensures Precedes(r, other, key) <==> Precedes(ms, other, key) && other != key0
    {
      IndexWithout(ms, key0, key);
      WithoutKey(ms, key0, other);
      if Has(ms, other) && other != key0 { IndexWithout(ms, key0, other); }
    }
  }

  lemma {:induction false} IndexWithout(ms: seq<Member>, key0: string, key: string)
    requires DistinctKeys(ms) && Has(ms, key0) && Has(ms, key) && key != key0
    ensures var n, i := IndexOf(ms, key0), IndexOf(ms, key);
            IndexOf(Without(ms, n), key) == if i < n then i else i - 1
  {
    hide IndexOf;
    var n, i := IndexOf(ms, key0), IndexOf(ms, key);
    var r := Without(ms, n);
    WithoutKey(ms, key0, key);
    HasAt(r, if i < n then i else i - 1);
  }

  lemma {:induction false} IndexOfLonger(ms: seq<Member>, m: Member, key: string)
    requires Has(ms, key)
    ensures IndexOf(ms + [m], key) == IndexOf(ms, key)
  {
    if ms[0].key != key {
      assert (ms + [m])[1..] == ms[1..] + [m];
      IndexOfLonger(ms[1..], m, key);
    }
  }

  lemma {:induction false} OrderAfterAdd(ms: seq<Member>, m: Member)
    requires !Has(ms, m.key)
    ensures KeepsOrder(ms, ms + [m], m.key, true)
  {
    hide IndexOf;
    var r := ms + [m];
    forall other, key | key != m.key && Has(ms, key)
      ensures Precedes(r, other, key) <==> Precedes(ms, other, key) && other != m.key
    {
      IndexOfLonger(ms, m, key);
      if Has(ms, other) {
        IndexOfLonger(ms, m, other);
      } else if IndexOf(r, other) < |ms| {
        HasAt(ms, IndexOf(r, other));
      }
    }
  }

  lemma {:induction false} OrderAfterMove(ms: seq<Member>, key0: string, x: Json)
    requires DistinctKeys(ms) && Has(ms, key0)
    ensures KeepsOrder(ms, Without(ms, IndexOf(ms, key0)) + [Member(key0, x)], key0, true)
  {
    hide IndexOf, DistinctKeys, Without;
    var others := Without(ms, IndexOf(ms, key0));
    WithoutKey(ms, key0, key0);
    OrderAfterRemove(ms, key0);
    OrderAfterAdd(others, Member(key0, x));
    forall key | key != key0 && Has(ms, key)
      ensures Has(others, key)
    {
      WithoutKey(ms, key0, key);
    }
  }

  lemma {:induction false} IndexOfSameKeys(ms: seq<Member>, r: seq<Member>, key: string)
    requires |r| == |ms| && forall k :: 0 <= k < |ms| ==> r[k].key == ms[k].key
    ensures IndexOf(r, key) == IndexOf(ms, key)
  {
    if ms != [] && ms[0].key != key {
      assert forall k :: 0 <= k < |ms[1..]| ==> r[1..][k].key == ms[1..][k].key;
      IndexOfSameKeys(ms[1..], r[1..], key);
    }
  }

  lemma {:induction false} OrderInPlace(ms: seq<Member>, i: nat, y: Json)
    requires i < |ms|
    ensures KeepsOrder(ms, ms[i := Member(ms[i].key, y)], ms[i].key, false)
  {
    var r := ms[i := Member(ms[i].key, y)];
    forall key
      ensures IndexOf(r, key) == IndexOf(ms, key)
    {
      IndexOfSameKeys(ms, r, key);
    }
  }

  // ----- One key less -----

  /** The same members but for one key. */
  ghost predicate SameBut(a: seq<Member>, b: seq<Member>, key0: string) {
    forall key :: key != key0 ==> (Has(a, key) <==> Has(b, key)) && (Has(a, key) ==> Value(a, key) == Value(b, key))
  }

  lemma {:induction false} TailSameBut(ms: seq<Member>)
    requires Sorted(ms, true) && ms != []
    ensures SameBut(ms, ms[1..], ms[0].key) && !Has(ms[1..], ms[0].key)
  {
    hide Sorted;
    HeadKey(ms, ms[0].key);
  }

  lemma {:induction false} SameButNothing(ms: seq<Member>, key0: string)
    ensures SameBut(ms, ms, key0)
  {
  }

  lemma {:induction false} HarmlessStays(source: seq<Member>, target: seq<Member>, source': seq<Member>,
                                         target': seq<Member>, key0: string, other: string, key: string)
    requires SameBut(source, source', key0) && SameBut(target, target', key0) && other != key0
    ensures Harmless(source, target, other, key) <==> Harmless(source', target', other, key)
  {
    hide Has, Value, Replaces, LowerAll, Strcmp;
  }

  lemma {:induction false} StillFinds(ms: seq<Member>, r: seq<Member>, source: seq<Member>, target: seq<Member>,
                                      source': seq<Member>, target': seq<Member>, key0: string, gone: bool, key: string)
    requires KeepsOrder(ms, r, key0, gone) && key != key0 && Has(ms, key)
    requires SameBut(source, source', key0) && SameBut(target, target', key0) && !Has(source', key0)
    requires if gone then Precedes(ms, key0, key) ==> Harmless(source, target, key0, key)
             else !Leaves(source, target, key0)
    ensures FindsThen(ms, source, target, key) <==> FindsThen(r, source', target', key)
  {
    hide FindsThen, Precedes, Harmless, SurvivesIgnoringCase, Has, SameBut;
    FindsThenMeans(ms, source, target, key);
    FindsThenMeans(r, source', target', key);
    forall other | other != key0
      ensures Harmless(source, target, other, key) <==> Harmless(source', target', other, key)
    {
      HarmlessStays(source, target, source', target', key0, other, key);
    }
    if !gone { HarmlessInPlace(source, target, source', target', key0, key); }
  }

  lemma {:induction false} HarmlessInPlace(source: seq<Member>, target: seq<Member>, source': seq<Member>,
                                           target': seq<Member>, key0: string, key: string)
    requires !Leaves(source, target, key0) && !Has(source', key0)
    ensures Harmless(source, target, key0, key) <==> Harmless(source', target', key0, key)
  {
    hide Has, LowerAll, Strcmp;
  }

  lemma {:induction false} StillEditable(ms: seq<Member>, r: seq<Member>, source: seq<Member>, target: seq<Member>,
                                         source': seq<Member>, target': seq<Member>, key0: string, key: string)
    requires SameBut(source, source', key0) && SameBut(target, target', key0) && key != key0
    requires Has(source, key) ==> (FindsThen(ms, source, target, key) <==> FindsThen(r, source', target', key))
    ensures EditableAt(ms, source, target, key) <==> EditableAt(r, source', target', key)
  {
    hide Has, Value, Replaces, Patchable, Survives, FindsThen;
  }

  lemma {:induction false} NotEditable(r: seq<Member>, source: seq<Member>, target: seq<Member>, key: string)
    requires !Has(source, key) && !Has(target, key)
    ensures EditableAt(r, source, target, key)
  {
  }

  /** One key is done: what is asked of all keys was asked of this one and is asked of the others. */
  lemma {:induction false} EditableStep(ms: seq<Member>, r: seq<Member>, source: seq<Member>, target: seq<Member>,
                                        source': seq<Member>, target': seq<Member>, key0: string, gone: bool)
    requires KeepsOrder(ms, r, key0, gone) && forall key :: Has(source, key) ==> Has(ms, key)
    requires SameBut(source, source', key0) && SameBut(target, target', key0) && !Has(source', key0)
    requires !Has(target', key0)
    requires if gone then forall key :: Has(source, key) && key != key0 && Precedes(ms, key0, key) ==>
               Harmless(source, target, key0, key)
             else !Leaves(source, target, key0)
    ensures Editable(ms, source, target) <==> EditableAt(ms, source, target, key0) && Editable(r, source', target')
  {
    hide EditableAt, Has, SameBut, Precedes, Harmless, Leaves, KeepsOrder, FindsThen;
    forall key | key != key0
      ensures EditableAt(ms, source, target, key) <==> EditableAt(r, source', target', key)
    {
      if Has(source, key) { StillFinds(ms, r, source, target, source', target', key0, gone, key); }
      StillEditable(ms, r, source, target, source', target', key0, key);
    }
    NotEditable(r, source', target', key0);
  }

  /** The first of the members that are still to come, if it leaves, stands in the way of none. */
  lemma {:induction false} HeadHarmless(source: seq<Member>, target: seq<Member>, key: string)
    requires Sorted(source, true) && source != [] && Has(source, key) && key != source[0].key
    requires Leaves(source, target, source[0].key)
    ensures Harmless(source, target, source[0].key, key)
  {
    hide Leaves, LowerAll, Strcmp;
    assert Below(source[0], source[IndexOf(source, key)], true);
  }

  /** For it, the keys before are done. */
  lemma {:induction false} HeadFinds(ms: seq<Member>, source: seq<Member>, target: seq<Member>)
    requires Sorted(source, true) && source != []
    ensures FindsThen(ms, source, target, source[0].key) <==> FindsItself(ms, source[0].key)
  {
    hide LowerAll, Strcmp, Sorted, SurvivesIgnoringCase, IndexOf;
    var key0 := source[0].key;
    forall other
      ensures Harmless(source, target, other, key0) <==> LowerAll(other) != LowerAll(key0)
    {
      HeadKey(source, other);
    }
  }
}

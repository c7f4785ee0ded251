/** Applying what create_patches writes turns the one document into the other. */
module JsonDiffApply {
  import opened JsonTree
  import opened JsonPointer
  import opened JsonSort
  import opened JsonCompare
  import opened JsonPatch
  import opened JsonDiff
  import opened JsonEdit
  import opened JsonRfc6902
  import opened JsonPatchable

  // ----- The shape of a difference -----

  /** The difference of two documents replaces the whole or works below the root. */
  predicate Shaped(d: seq<Patch>, source: Json, target: Json) {
    if Replaces(source, target) then d == [ReplaceBy("", target)] else AllInner(d)
  }

  lemma {:induction false} DiffShape(source: Json, target: Json)
    ensures Shaped(Diff("", source, target, true), source, target)
    decreases target, 1, 0
  {
    hide SortList, SameDouble, Inner, DiffItems, DiffMembers;
    if source.Array? && target.Array? {
      DiffItemsInner(source.items, target.items, 0, target);
    } else if source.Object? && target.Object? {
      AllInSort(target.members, true);
      DiffMembersInner(SortList(source.members, true), SortList(target.members, true), target);
    }
  }

  lemma {:induction false} ChildInner(token: string, source: Json, target: Json)
    ensures AllInner(Diff("" + "/" + token, source, target, true))
    decreases target, 2, 0
  {
    hide Diff, Inner;
    var d := Diff("", source, target, true);
    DiffShape(source, target);
    DiffPrefix("/" + token, source, target, true);
    assert "" + "/" + token == "/" + token;
    PrefixedInner(token, d, source, target);
  }

  lemma {:induction false} PrefixedInner(token: string, d: seq<Patch>, source: Json, target: Json)
    requires Shaped(d, source, target)
    ensures AllInner(Prefixed("/" + token, d))
  {
    hide Replaces;
    if AllInner(d) { PrefixedAllInner(token, d); }
  }

  lemma {:induction false} PrefixedAllInner(token: string, d: seq<Patch>)
    requires AllInner(d)
    ensures AllInner(Prefixed("/" + token, d))
  {
    if d != [] {
      var r := Prefixed("/" + token, d);
      PrefixedAllInner(token, d[1..]);
      assert r == [r[0]] + Prefixed("/" + token, d[1..]);
    }
  }

  lemma {:induction false} ConcatInner(a: seq<Patch>, b: seq<Patch>)
    requires AllInner(a) && AllInner(b)
    ensures AllInner(a + b)
  {
  }

  lemma {:induction false} DiffItemsInner(source: seq<Json>, target: seq<Json>, index: nat, whole: Json)
    requires whole.Array? && forall j :: j in target ==> j in whole.items
    ensures AllInner(DiffItems("", source, target, index, whole, true))
    decreases whole, 0, |target|
  {
    hide Diff, Inner, Decimal, AddItems, RemoveItems;
    if source == [] {
      AddItemsInner(target);
    } else if target == [] {
      RemoveItemsInner(index, |source|);
    } else {
      assert target[0] in target;
      ChildInner(Decimal(index), source[0], target[0]);
      DiffItemsInner(source[1..], target[1..], index + 1, whole);
      ConcatInner(Diff("" + "/" + Decimal(index), source[0], target[0], true),
                  DiffItems("", source[1..], target[1..], index + 1, whole, true));
    }
  }

  lemma {:induction false} AddItemsInner(target: seq<Json>)
    ensures AllInner(AddItems("", target))
  {
    hide Escape;
    if target != [] { AddItemsInner(target[1..]); }
  }

  lemma {:induction false} RemoveItemsInner(index: nat, n: nat)
    ensures AllInner(RemoveItems("", index, n))
  {
    hide Escape, Decimal;
    if n != 0 { RemoveItemsInner(index, n - 1); }
  }

  lemma {:induction false} DiffMembersInner(source: seq<Member>, target: seq<Member>, whole: Json)
    requires whole.Object? && forall m :: m in target ==> m in whole.members
    ensures AllInner(DiffMembers("", source, target, whole, true))
    decreases whole, 0, |source| + |target|
  {
    hide Diff, Escape, CompareHeads;
    if source != [] || target != [] {
      var diff := CompareHeads(source, target, true);
      if diff == 0 {
        assert target[0] in whole.members;
        ChildInner(Escape(source[0].key), source[0].value, target[0].value);
        DiffMembersInner(source[1..], target[1..], whole);
      } else if diff < 0 {
        DiffMembersInner(source[1..], target, whole);
      } else {
        DiffMembersInner(source, target[1..], whole);
      }
    }
  }

  // ----- Arrays -----

  lemma {:induction false} ReplacedWhole(source: Json, target: Json, x: Json, good: bool)
    requires Replaces(source, target) && Goes(source, Diff("", source, target, true), x, good)
    ensures x == target && good && Patchable(source, target)
  {
    hide Goes, SameDouble, Diff;
    ReplacingIsPatchable(source, target);
    DiffShape(source, target);
    GoesReplacing(source, target);
    GoesOneWay(source, [ReplaceBy("", target)], x, good, target, true);
  }

  lemma {:induction false} GoesOneWay(doc: Json, patches: seq<Patch>, x: Json, good: bool, y: Json, other: bool)
    requires Goes(doc, patches, x, good) && Goes(doc, patches, y, other)
    ensures x == y && good == other
  {
  }

  lemma {:induction false} GoesReplacing(doc: Json, target: Json)
    ensures Goes(doc, [ReplaceBy("", target)], target, true)
  {
    hide Goes;
    GoesOne(doc, ReplaceBy("", target), target, true);
  }

  /** The difference of an element. */
  lemma {:induction false} ItemGoes(items: seq<Json>, i: nat, target: Json, x: Json)
    requires i < |items| < SIZE_MAX_PLUS_1
    requires Goes(items[i], Diff("", items[i], target, true), x, Patchable(items[i], target))
    ensures Goes(Array(items), Diff("" + "/" + Decimal(i), items[i], target, true), Array(items[i := x]),
                 Patchable(items[i], target))
  {
    hide Diff, Decimal, Goes, Replaces, Patchable;
    var d := Diff("", items[i], target, true);
    DiffShape(items[i], target);
    DiffPrefix("/" + Decimal(i), items[i], target, true);
    assert "" + "/" + Decimal(i) == "/" + Decimal(i);
    if !Replaces(items[i], target) {
      GoesBelow(Array(items), i, d, x, Patchable(items[i], target));
    } else {
      PrefixedOne("/" + Decimal(i), ReplaceBy("", target));
      assert "/" + Decimal(i) + "" == "/" + Decimal(i);
      ReplacedWhole(items[i], target, x, Patchable(items[i], target));
      GoesWithItem(items, i, target);
    }
  }

  lemma {:induction false} GoesAppending(items: seq<Json>, target: seq<Json>)
    ensures Goes(Array(items), AddItems("", target), Array(items + target), true)
    decreases |target|
  {
    hide Goes, Escape;
    if target == [] {
      assert items + target == items;
      GoesNowhere(Array(items));
    } else {
      GoesAppend(items, target[0]);
      GoesAppending(items + [target[0]], target[1..]);
      assert items + [target[0]] + target[1..] == items + target;
      GoesConcat(Array(items), [AddAt("" + "/" + Escape("-"), target[0])], Array(items + [target[0]]), true,
                 AddItems("", target[1..]), Array(items + target), true);
    }
  }

  lemma {:induction false} GoesRemoving(items: seq<Json>, n: nat)
    requires n <= |items| < SIZE_MAX_PLUS_1
    ensures Goes(Array(items), RemoveItems("", n, |items| - n), Array(items[..n]), true)
    decreases |items|
  {
    hide Goes, Escape, Decimal;
    if n == |items| {
      assert items[..n] == items;
      GoesNowhere(Array(items));
    } else {
      GoesWithoutItem(items, n);
      GoesRemoving(Without(items, n), n);
      assert Without(items, n)[..n] == items[..n];
      GoesConcat(Array(items), [RemoveAt("" + "/" + Escape(Decimal(n)))], Array(Without(items, n)), true,
                 RemoveItems("", n, |items| - n - 1), Array(items[..n]), true);
    }
  }

  /** The difference of two arrays whose first elements are done. */
  lemma {:induction false} ItemsGo(done: seq<Json>, source: seq<Json>, target: seq<Json>, whole: Json)
    returns (r: seq<Json>)
    requires whole.Array? && Distinct(whole) && forall j :: j in target ==> j in whole.items
    requires |done| + |source| < SIZE_MAX_PLUS_1 && ItemsReadable(source, target)
    ensures |r| == |target| && forall i :: 0 <= i < |r| ==> Matches(r[i], target[i])
    ensures Goes(Array(done + source), DiffItems("", source, target, |done|, whole, true), Array(done + r),
                 ItemsPatchable(source, target))
    decreases whole, 0, |target|
  {
    hide Diff, Goes, Decimal, AddItems, RemoveItems, Matches, Distinct, Patchable, Readable;
    DistinctItems(target, whole);
    if source == [] {
      GoesAppending(done, target);
      assert done + source == done;
      r := target;
    } else if target == [] {
      GoesRemoving(done + source, |done|);
      assert (done + source)[..|done|] == done && done + [] == done;
      r := [];
    } else {
      assert target[0] in target && Readable(source[0], target[0]);
      var x := DiffGoes(source[0], target[0]);
      ItemGoes(done + source, |done|, target[0], x);
      assert (done + source)[|done| := x] == done + [x] + source[1..];
      ItemsRest(source, target);
      var rest := ItemsGo(done + [x], source[1..], target[1..], whole);
      assert done + [x] + rest == done + ([x] + rest);
      GoesConcat(Array(done + source), Diff("" + "/" + Decimal(|done|), source[0], target[0], true),
                 Array(done + [x] + source[1..]), Patchable(source[0], target[0]),
                 DiffItems("", source[1..], target[1..], |done| + 1, whole, true), Array(done + [x] + rest),
                 ItemsPatchable(source[1..], target[1..]));
      r := [x] + rest;
    }
  }

  lemma {:induction false} DistinctItems(target: seq<Json>, whole: Json)
    requires whole.Array? && Distinct(whole) && forall j :: j in target ==> j in whole.items
    ensures forall i :: 0 <= i < |target| ==> Distinct(target[i]) && Matches(target[i], target[i])
  {
    hide Matches;
    forall i | 0 <= i < |target|
      ensures Distinct(target[i]) && Matches(target[i], target[i])
    {
      assert target[i] in whole.items;
      MatchesItself(target[i]);
    }
  }

  // ----- Objects -----

  /**
   * One key while the difference of two objects is applied: `source` and `target` are the sorted members that are
   * still to come, `all` the members of the whole target.
   */
  ghost predicate WorkingAt(ms: seq<Member>, source: seq<Member>, target: seq<Member>, all: seq<Member>, key: string) {
    && (Has(source, key) ==>
          Has(ms, key) && Value(ms, key) == Value(source, key) && (Has(target, key) || !Has(all, key)))
    && (Has(target, key) ==>
          Has(all, key) && Value(target, key) == Value(all, key) && (Has(source, key) || !Has(ms, key)))
    && (Has(source, key) && Has(target, key) ==> Readable(Value(source, key), Value(target, key)))
    && (!Has(source, key) && !Has(target, key) ==>
          (Has(ms, key) <==> Has(all, key)) && (Has(ms, key) ==> Matches(Value(ms, key), Value(all, key))))
  }

  ghost predicate Working(ms: seq<Member>, source: seq<Member>, target: seq<Member>, all: seq<Member>) {
    DistinctKeys(ms) && forall key :: WorkingAt(ms, source, target, all, key)
  }

  lemma {:induction false} WorkingDistinct(ms: seq<Member>, source: seq<Member>, target: seq<Member>, all: seq<Member>)
    requires Working(ms, source, target, all)
    ensures DistinctKeys(ms)
  {
  }

  /** The member is removed: the target does not have it. */
  lemma {:induction false} AfterRemove(ms: seq<Member>, source: seq<Member>, target: seq<Member>, all: seq<Member>)
    requires Working(ms, source, target, all) && Sorted(source, true) && source != [] && !Has(target, source[0].key)
    ensures Has(ms, source[0].key)
    ensures var r := Without(ms, IndexOf(ms, source[0].key));
            && Working(r, source[1..], target, all)
            && (Editable(ms, source, target) <==> FindsItself(ms, source[0].key) && Editable(r, source[1..], target))
  {
    hide Value, Matches, Sorted, IndexOf, DistinctKeys, Readable, FindsThen, FindsItself, KeepsOrder, Editable,
      Replaces, Patchable;
    var key0 := source[0].key;
    TailSameBut(source);
    SameButNothing(target, key0);
    HasAt(source, 0);
    assert WorkingAt(ms, source, target, all, key0);
    var r := Without(ms, IndexOf(ms, key0));
    OrderAfterRemove(ms, key0);
    HeadFinds(ms, source, target);
    forall key
      ensures WorkingAt(r, source[1..], target, all, key) && (Has(source, key) ==> Has(ms, key))
      ensures Has(source, key) && key != key0 ==> Harmless(source, target, key0, key)
    {
      assert WorkingAt(ms, source, target, all, key);
      WithoutKey(ms, key0, key);
      if Has(source, key) && key != key0 { HeadHarmless(source, target, key); }
    }
    WithoutKey(ms, key0, key0);
    EditableStep(ms, r, source, target, source[1..], target, key0, true);
  }

  /** The member is added: the source does not have it. */
  lemma {:induction false} AfterAdd(ms: seq<Member>, source: seq<Member>, target: seq<Member>, all: seq<Member>)
    requires Working(ms, source, target, all) && Sorted(target, true) && target != [] && !Has(source, target[0].key)
    requires Matches(target[0].value, target[0].value)
    ensures !Has(ms, target[0].key)
    ensures var r := ms + [Member(target[0].key, target[0].value)];
            && Working(r, source, target[1..], all)
            && (Editable(ms, source, target) <==> Survives(target[0].key) && Editable(r, source, target[1..]))
  {
    hide Value, Matches, Sorted, IndexOf, DistinctKeys, Readable, FindsThen, Survives, KeepsOrder, Editable, Replaces,
      Patchable, Harmless;
    var key0 := target[0].key;
    TailSameBut(target);
    SameButNothing(source, key0);
    HeadValue(target);
    assert WorkingAt(ms, source, target, all, key0);
    var r := ms + [Member(key0, target[0].value)];
    OrderAfterAdd(ms, Member(key0, target[0].value));
    forall key
      ensures WorkingAt(r, source, target[1..], all, key) && (Has(source, key) ==> Has(ms, key))
    {
      assert WorkingAt(ms, source, target, all, key);
      PlusKey(ms, key0, target[0].value, key);
    }
    PlusKey(ms, key0, target[0].value, key0);
    EditableStep(ms, r, source, target, source, target[1..], key0, true);
  }

  lemma {:induction false} HeadValue(ms: seq<Member>)
    requires ms != []
    ensures Has(ms, ms[0].key) && Value(ms, ms[0].key) == ms[0].value
  {
  }

  /** One key after the value of key0 has been changed to match x. */
  ghost predicate ChangedAt(ms: seq<Member>, r: seq<Member>, key0: string, x: Json, key: string) {
    && (Has(r, key) <==> Has(ms, key))
    && (Has(r, key) && key == key0 ==> Matches(Value(r, key), x))
    && (Has(r, key) && key != key0 ==> Value(r, key) == Value(ms, key))
  }

  ghost predicate Changed(ms: seq<Member>, r: seq<Member>, key0: string, x: Json) {
    DistinctKeys(r) && forall key :: ChangedAt(ms, r, key0, x, key)
  }

  /** What is asked of a key that both have. */
  ghost predicate ChangesItself(ms: seq<Member>, key: string, target: Json)
    requires Has(ms, key)
  {
    if Replaces(Value(ms, key), target) then FindsItself(ms, key) && Survives(key)
    else Patchable(Value(ms, key), target)
  }

  /** The member is changed to match that of the target. */
  lemma {:induction false} AfterChange(ms: seq<Member>, r: seq<Member>, source: seq<Member>, target: seq<Member>,
                                       all: seq<Member>)
    requires Working(ms, source, target, all) && Sorted(source, true) && Sorted(target, true)
    requires source != [] && target != [] && source[0].key == target[0].key
    requires Changed(ms, r, target[0].key, target[0].value)
    requires KeepsOrder(ms, r, source[0].key, Replaces(source[0].value, target[0].value))
    ensures Has(ms, source[0].key)
    ensures && Working(r, source[1..], target[1..], all)
            && (Editable(ms, source, target)
                <==> ChangesItself(ms, source[0].key, target[0].value) && Editable(r, source[1..], target[1..]))
  {
    hide Value, Matches, Sorted, IndexOf, DistinctKeys, Readable, FindsThen, FindsItself, Survives, KeepsOrder,
      Editable, Replaces, Patchable;
    var key0 := target[0].key;
    TailSameBut(source);
    TailSameBut(target);
    HeadValue(source);
    HeadValue(target);
    HeadFinds(ms, source, target);
    assert WorkingAt(ms, source, target, all, key0);
    var gone := Replaces(source[0].value, target[0].value);
    forall key
      ensures WorkingAt(r, source[1..], target[1..], all, key) && (Has(source, key) ==> Has(ms, key))
      ensures gone && Has(source, key) && key != key0 ==> Harmless(source, target, key0, key)
    {
      assert WorkingAt(ms, source, target, all, key);
      assert ChangedAt(ms, r, key0, target[0].value, key);
      if gone && Has(source, key) && key != key0 { HeadHarmless(source, target, key); }
    }
    EditableStep(ms, r, source, target, source[1..], target[1..], key0, gone);
  }

  lemma {:induction false} ChangedInPlace(ms: seq<Member>, i: nat, x: Json, y: Json)
    requires i < |ms| && DistinctKeys(ms) && Matches(y, x)
    ensures Changed(ms, ms[i := Member(ms[i].key, y)], ms[i].key, x)
  {
    hide Matches, IndexOf;
    var key0 := ms[i].key;
    var r := ms[i := Member(key0, y)];
    forall key
      ensures ChangedAt(ms, r, key0, x, key)
    {
      HasMeans(ms, key);
      HasMeans(r, key);
      if Has(r, key) {
        var n := IndexOf(r, key);
        HasAt(ms, n);
      }
      if Has(ms, key) { assert r[IndexOf(ms, key)].key == key; }
    }
  }

  lemma {:induction false} ChangedAtEnd(ms: seq<Member>, key0: string, x: Json)
    requires DistinctKeys(ms) && Has(ms, key0) && Matches(x, x)
    ensures Changed(ms, Without(ms, IndexOf(ms, key0)) + [Member(key0, x)], key0, x)
  {
    hide Matches, IndexOf, Value, DistinctKeys;
    var others := Without(ms, IndexOf(ms, key0));
    var r := others + [Member(key0, x)];
    WithoutKey(ms, key0, key0);
    PlusKey(others, key0, x, key0);
    forall key
      ensures ChangedAt(ms, r, key0, x, key)
    {
      WithoutKey(ms, key0, key);
      PlusKey(others, key0, x, key);
    }
  }

  /** The difference of a member. */
  lemma {:induction false} MemberGoes(ms: seq<Member>, key: string, target: Json, x: Json) returns (r: seq<Member>)
    requires DistinctKeys(ms) && Has(ms, key) && Matches(x, target)
    requires var v := Value(ms, key); Goes(v, Diff("", v, target, true), x, Patchable(v, target))
    ensures Changed(ms, r, key, target) && KeepsOrder(ms, r, key, Replaces(Value(ms, key), target))
    ensures Goes(Object(ms), Diff("" + "/" + Escape(key), Value(ms, key), target, true), Object(r),
                 ChangesItself(ms, key, target))
  {
    hide Diff, Escape, Goes, Performed, Apply, Matches, Changed, DistinctKeys, IndexOf, FindsItself, Survives, Replaces,
      Patchable, KeepsOrder;
    var source := Value(ms, key);
    var d := Diff("", source, target, true);
    var i := IndexOf(ms, key);
    DiffShape(source, target);
    DiffPrefix("/" + Escape(key), source, target, true);
    assert "" + "/" + Escape(key) == "/" + Escape(key);
    if !Replaces(source, target) {
      GoesBelow(Object(ms), i, d, x, Patchable(source, target));
      ChangedInPlace(ms, i, target, x);
      OrderInPlace(ms, i, x);
      r := ms[i := Member(key, x)];
    } else {
      PrefixedOne("/" + Escape(key), ReplaceBy("", target));
      assert "/" + Escape(key) + "" == "/" + Escape(key);
      ReplacedWhole(source, target, x, Patchable(source, target));
      ChangedAtEnd(ms, key, target);
      OrderAfterMove(ms, key, target);
      r := Without(ms, i) + [Member(key, target)];
      ReplacesItselfIff(ms, key, target);
      GoesOne(Object(ms), ReplaceBy("/" + Escape(key), target), Object(r), ChangesItself(ms, key, target));
    }
  }

  /** The difference of two objects some of whose keys are done. */
  lemma {:induction false} MembersGo(ms: seq<Member>, source: seq<Member>, target: seq<Member>, whole: Json)
    returns (r: seq<Member>)
    requires whole.Object? && Distinct(whole) && forall m :: m in target ==> m in whole.members
    requires Sorted(source, true) && Sorted(target, true) && Working(ms, source, target, whole.members)
    ensures MembersMatch(r, whole)
    ensures Goes(Object(ms), DiffMembers("", source, target, whole, true), Object(r), Editable(ms, source, target))
    decreases whole, 0, |source| + |target|, 1
  {
    hide Diff, Goes, Escape, Distinct, Sorted, Working, CompareHeads, IndexOf, MembersMatch, Editable, EditableAt,
      FindsItself, Survives, Performed, Apply, Matches;
    if source == [] && target == [] {
      r := ms;
      WorkDone(ms, whole);
      NothingEditable(ms);
      GoesNowhere(Object(ms));
    } else {
      var diff := CompareHeads(source, target, true);
      HeadsDiffer(source, target);
      if diff == 0 {
        r := ChangeGoes(ms, source, target, whole);
      } else if diff < 0 {
        var key := source[0].key;
        AfterRemove(ms, source, target, whole.members);
        HeadKey(source, key);
        WorkingDistinct(ms, source, target, whole.members);
        GoesWithoutMember(ms, key);
        var rest := Without(ms, IndexOf(ms, key));
        r := MembersGo(rest, source[1..], target, whole);
        assert "" + "/" + Escape(key) == "/" + Escape(key);
        GoesFirst(Object(ms), RemoveAt("/" + Escape(key)), Object(rest), FindsItself(ms, key),
                  DiffMembers("", source[1..], target, whole, true), Object(r), Editable(rest, source[1..], target));
      } else {
        var key, value := target[0].key, target[0].value;
        DistinctTarget(target, whole);
        AfterAdd(ms, source, target, whole.members);
        HeadKey(target, key);
        WorkingDistinct(ms, source, target, whole.members);
        GoesWithMember(ms, key, value);
        var more := ms + [Member(key, value)];
        r := MembersGo(more, source, target[1..], whole);
        assert "" + "/" + Escape(key) == "/" + Escape(key);
        GoesFirst(Object(ms), AddAt("/" + Escape(key), value), Object(more), Survives(key),
                  DiffMembers("", source, target[1..], whole, true), Object(r), Editable(more, source, target[1..]));
      }
    }
  }

  lemma {:induction false} ChangeGoes(ms: seq<Member>, source: seq<Member>, target: seq<Member>, whole: Json)
    returns (r: seq<Member>)
    requires whole.Object? && Distinct(whole) && forall m :: m in target ==> m in whole.members
    requires Sorted(source, true) && Sorted(target, true) && Working(ms, source, target, whole.members)
    requires source != [] && target != [] && CompareHeads(source, target, true) == 0 && source[0].key == target[0].key
    ensures MembersMatch(r, whole)
    ensures Goes(Object(ms), DiffMembers("", source, target, whole, true), Object(r), Editable(ms, source, target))
    decreases whole, 0, |source| + |target|, 0
  {
    hide Diff, Goes, Escape, Distinct, Sorted, Working, CompareHeads, IndexOf, MembersMatch, Editable, Matches, Changed,
      Replaces, Patchable, Readable, KeepsOrder, ChangesItself;
    var key := target[0].key;
    DistinctTarget(target, whole);
    assert target[0] in whole.members;
    WorkingHeads(ms, source, target, whole.members);
    var x := DiffGoes(source[0].value, target[0].value);
    var next := MemberGoes(ms, key, target[0].value, x);
    AfterChange(ms, next, source, target, whole.members);
    HeadKey(source, key);
    HeadKey(target, key);
    r := MembersGo(next, source[1..], target[1..], whole);
    GoesConcat(Object(ms), Diff("" + "/" + Escape(key), source[0].value, target[0].value, true), Object(next),
               ChangesItself(ms, key, target[0].value),
               DiffMembers("", source[1..], target[1..], whole, true), Object(r), Editable(next, source[1..],
                                                                                           target[1..]));
  }

  lemma {:induction false} WorkingHeads(ms: seq<Member>, source: seq<Member>, target: seq<Member>, all: seq<Member>)
    requires Working(ms, source, target, all) && source != [] && target != [] && source[0].key == target[0].key
    ensures DistinctKeys(ms) && Has(ms, source[0].key) && Value(ms, source[0].key) == source[0].value
    ensures Readable(source[0].value, target[0].value)
  {
    hide Matches, Readable, Has, Value;
    HeadValue(source);
    HeadValue(target);
    assert WorkingAt(ms, source, target, all, source[0].key);
  }

  lemma {:induction false} DistinctTarget(target: seq<Member>, whole: Json)
    requires whole.Object? && Distinct(whole) && target != [] && target[0] in whole.members
    ensures Distinct(target[0].value) && Matches(target[0].value, target[0].value)
  {
    hide Matches;
    var i :| 0 <= i < |whole.members| && whole.members[i] == target[0];
    MatchesItself(target[0].value);
  }

  lemma {:induction false} WorkDone(ms: seq<Member>, whole: Json)
    requires whole.Object? && Working(ms, [], [], whole.members) && Distinct(whole)
    ensures MembersMatch(ms, whole)
  {
    hide Matches;
    var all := whole.members;
    forall key
      ensures Has(ms, key) <==> Has(all, key)
    {
      assert WorkingAt(ms, [], [], all, key);
    }
    forall i | 0 <= i < |all| && Has(ms, all[i].key)
      ensures Matches(Value(ms, all[i].key), all[i].value)
    {
      assert WorkingAt(ms, [], [], all, all[i].key);
      HasAt(all, i);
    }
  }

  lemma {:induction false} WorkStarts(source: Json, target: Json)
    requires source.Object? && target.Object? && Readable(source, target) && DistinctKeys(target.members)
    ensures var s, t := SortList(source.members, true), SortList(target.members, true);
            && Sorted(s, true) && Sorted(t, true) && Working(source.members, s, t, target.members)
            && (Editable(source.members, s, t) <==> Patchable(source, target))
  {
    hide SortList, Sorted, IndexOf, Matches, Has, Value, DistinctKeys, EditableAt, Readable, Patchable;
    var ms, all := source.members, target.members;
    var s, t := SortList(ms, true), SortList(all, true);
    ReadableMembers(source, target);
    SortKeeps(ms, "");
    SortKeeps(all, "");
    forall key
      ensures WorkingAt(ms, s, t, all, key) && SameAt(ms, s, key) && SameAt(all, t, key)
    {
      SortKeeps(ms, key);
      SortKeeps(all, key);
    }
    SameEditable(ms, ms, all, s, t);
    EditableIsPatchable(source, target);
  }

  // ----- The main results -----

  /**
   * For all readable documents: by RFC 6902 the difference makes the target of the source, up to the order of members
   * and the closeness that cJSON asks of equal numbers; apply_patch does in every operation what the RFC asks for
   * exactly if the documents are patchable.
   */
  lemma {:induction false} DiffGoes(source: Json, target: Json) returns (x: Json)
    requires Distinct(target) && Readable(source, target)
    ensures Matches(x, target) && Goes(source, Diff("", source, target, true), x, Patchable(source, target))
    decreases target, 1, 1
  {
    hide Goes, SortList, SameDouble, Diff, Working, Sorted, MembersMatch, Inner, Distinct, Patchable, Editable;
    if Replaces(source, target) {
      DiffShape(source, target);
      ReplacingIsPatchable(source, target);
      GoesReplacing(source, target);
      MatchesItself(target);
      x := target;
    } else if target.Array? {
      x := ArrayGoes(source, target);
    } else if target.Object? {
      x := ObjectGoes(source, target);
    } else {
      ScalarGoes(source, target);
      x := source;
    }
  }

  lemma {:induction false} ScalarGoes(source: Json, target: Json)
    requires !Replaces(source, target) && !target.Array? && !target.Object?
    ensures Matches(source, target) && Goes(source, Diff("", source, target, true), source, Patchable(source, target))
  {
    hide Goes, SameDouble;
    GoesNowhere(source);
  }

  lemma {:induction false} ArrayGoes(source: Json, target: Json) returns (x: Json)
    requires source.Array? && target.Array? && Distinct(target) && Readable(source, target)
    ensures Matches(x, target) && Goes(source, Diff("", source, target, true), x, Patchable(source, target))
    decreases target, 1, 0
  {
    hide Goes, DiffItems, Distinct, Matches, Readable, Patchable, ItemsPatchable;
    PatchableItems(source, target);
    var r := ItemsGo([], source.items, target.items, target);
    assert [] + source.items == source.items && [] + r == r;
    ItemsMatch(r, target);
    x := Array(r);
  }

  lemma {:induction false} ItemsMatch(r: seq<Json>, target: Json)
    requires target.Array? && |r| == |target.items| && forall i :: 0 <= i < |r| ==> Matches(r[i], target.items[i])
    ensures Matches(Array(r), target)
  {
  }

  lemma {:induction false} ObjectGoes(source: Json, target: Json) returns (x: Json)
    requires source.Object? && target.Object? && Distinct(target) && Readable(source, target)
    ensures Matches(x, target) && Goes(source, Diff("", source, target, true), x, Patchable(source, target))
    decreases target, 1, 0
  {
    hide Goes, SortList, Working, Sorted, MembersMatch, Editable, DiffMembers, Patchable, Readable;
    WorkStarts(source, target);
    AllInSort(target.members, true);
    var r := MembersGo(source.members, SortList(source.members, true), SortList(target.members, true), target);
    x := Object(r);
  }

  /** By RFC 6902, the operations that create_patches writes always turn the one document into the other. */
  lemma {:induction false} DiffIsRight(source: Json, target: Json)
    requires Distinct(target) && Readable(source, target)
    ensures var r := PerformedAll(source, Diff("", source, target, true)); r.Some? && Matches(r.value, target)
  {
    hide Diff, Matches, Distinct, Readable, PerformedAll, Follows, Patchable;
    var x := DiffGoes(source, target);
  }

  /** apply_patch does in every one of them what the RFC asks for exactly if the documents are patchable. */
  lemma {:induction false} FollowsIff(source: Json, target: Json)
    requires Distinct(target) && Readable(source, target)
    ensures Follows(source, Diff("", source, target, true)) <==> Patchable(source, target)
  {
    hide Diff, Matches, Distinct, Readable, PerformedAll, Follows, Patchable;
    var x := DiffGoes(source, target);
  }

  /** What applying the difference achieves. */
  ghost predicate Reaches(source: Json, target: Json) {
    var r := ApplyAll(source, Diff("", source, target, true), true);
    r.0 == 0 && Matches(r.1, target)
  }

  /**
   * Applying the patches that create_patches writes turns the one document into the other, up to the order of members
   * and the closeness that cJSON asks of equal numbers.
   */
  lemma {:induction false} DiffApplies(source: Json, target: Json)
    requires Distinct(target) && Patchable(source, target)
    ensures Reaches(source, target)
  {
    hide Diff, Matches, Distinct, Readable, PerformedAll, Follows, Patchable, ApplyAll;
    PatchableIsReadable(source, target);
    var x := DiffGoes(source, target);
    FollowsApplies(source, Diff("", source, target, true));
  }

  // ----- Right by chance -----

  lemma {:induction false} RemovesFirst(ms: seq<Member>, key: string)
    requires ms != [] && Plain(key) && LowerAll(ms[0].key) == LowerAll(key)
    ensures Apply(Object(ms), RemoveAt("/" + key), true) == (0, Object(ms[1..]))
  {
    hide Apply, DecodeFrom, Split, LowerAll;
    PlainToken(Object(ms), key);
    DecodeNothing(key, 0);
    RemoveHere(Object(ms), key);
    assert Without(ms, 0) == ms[1..];
  }

  /** Two removals that each take out the other's member: the target is reached although no step is right. */
  lemma {:induction false} ChanceExample(one: Json, two: Json)
    ensures var source, target := Object([Member("a", one), Member("A", two)]), Object([]);
            !Patchable(source, target) && Reaches(source, target)
  {
    hide Apply, Escape, Patchable, SortList, Merge, DiffMembers;
    var small, capital := Member("a", one), Member("A", two);
    var ms := [small, capital];
    var target := Object([]);
    TwoLetters();
    EscapePlain("a");
    EscapePlain("A");
    SortsTwo(small, capital);
    RemovesTwo(small, capital, target);
    RemovesFirst(ms, "A");
    RemovesFirst([capital], "a");
    assert ms[1..] == [capital] && [capital][1..] == [];
    var d := [RemoveAt("/A"), RemoveAt("/a")];
    assert "/" + "A" == "/A" && "/" + "a" == "/a";
    ApplyAllTwo(Object(ms), d);
    NotRemovable(ms);
  }

  lemma {:induction false} TwoLetters()
    ensures LowerAll("A") == "a" == LowerAll("a")
    ensures Strcmp("a", "A") == 32 && Strcmp("A", "a") == -32
  {
    assert "a"[1..] == "" && "A"[1..] == "";
  }

  lemma {:induction false} SortsTwo(a: Member, b: Member)
    requires Strcmp(a.key, b.key) > 0 && Strcmp(b.key, a.key) < 0
    ensures SortList([a, b], true) == [b, a] && SortList([], true) == []
  {
    hide Strcmp;
    assert [a, b][..1] == [a] && [a, b][1..] == [b] && [a][1..] == [] && [b][1..] == [];
    assert Merge([a], [b], true) == [b] + Merge([a], [], true);
  }

  lemma {:induction false} RemovesTwo(a: Member, b: Member, target: Json)
    requires target == Object([]) && a.key == "a" && b.key == "A" && Escape("a") == "a" && Escape("A") == "A"
    ensures DiffMembers("", [b, a], [], target, true) == [RemoveAt("/A"), RemoveAt("/a")]
  {
    hide Escape;
    assert [b, a][1..] == [a] && [a][1..] == [];
    assert "" + "/" + "A" == "/A" && "" + "/" + "a" == "/a";
    assert DiffMembers("", [a], [], target, true) == [RemoveAt("/a")] + DiffMembers("", [], [], target, true);
  }

  lemma {:induction false} ApplyAllTwo(doc: Json, d: seq<Patch>)
    requires |d| == 2 && Apply(doc, d[0], true).0 == 0
    ensures ApplyAll(doc, d, true) == Apply(Apply(doc, d[0], true).1, d[1], true)
  {
    hide Apply;
    var r := Apply(doc, d[0], true).1;
    assert d[1..] == [d[1]] && d[1..][1..] == [];
    assert ApplyAll(r, d[1..], true) == Apply(r, d[1], true);
  }

  lemma {:induction false} NotRemovable(ms: seq<Member>)
    requires |ms| == 2 && ms[0].key == "a" && ms[1].key == "A"
    ensures !Patchable(Object(ms), Object([]))
  {
    hide SurvivesIgnoringCase;
    TwoLetters();
    assert ms[1..][0].key == "A";
    assert !Harmless(ms, [], ms[0].key, "A");
    assert !MemberRemovable(ms, ms[1].key, []);
  }
}

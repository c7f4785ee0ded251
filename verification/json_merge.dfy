/** JSON Merge Patch: merge_patch is RFC 7396, and generate_merge_patch is its inverse. */
module JsonMerge {
  import opened JsonTree
  import opened JsonSort
  import opened JsonCompare
  import opened JsonReorder
  import opened JsonPatch
  import opened JsonDiff
  import opened JsonEdit
  import opened Options

  // ----- merge_patch -----

  /** The list without the first member of this key, if there is one. */
  function Dropped(ms: seq<Member>, key: string, caseSensitive: bool): seq<Member> {
    var i := IndexFor(ms, key, caseSensitive);
    if i < |ms| then Without(ms, i) else ms
  }

  /** The value that is detached for this key. */
  function Taken(ms: seq<Member>, key: string, caseSensitive: bool): Option<Json> {
    var i := IndexFor(ms, key, caseSensitive);
    if i < |ms| then Some(ms[i].value) else None
  }

  /** merge_patch; without a target there is nothing to merge into. */
  function MergePatch(target: Option<Json>, patch: Json, caseSensitive: bool): Json
    decreases patch
  {
    if !patch.Object? then patch
    else Object(MergeMembers(if target.Some? && target.value.Object? then target.value.members else [],
                             patch.members, patch, caseSensitive))
  }

  function MergeMembers(target: seq<Member>, members: seq<Member>, patch: Json, caseSensitive: bool): seq<Member>
    requires patch.Object? && forall m :: m in members ==> m in patch.members
    decreases patch, |members|
  {
    if members == [] then target
    else
      assert members[0] in patch.members;
      MergeMembers(MergeMember(target, members[0], caseSensitive), members[1..], patch, caseSensitive)
  }

  /** One member of the patch: null removes, anything else is merged into what was there and put at the end. */
  function MergeMember(target: seq<Member>, m: Member, caseSensitive: bool): seq<Member>
    decreases m, 1
  {
    var others := Dropped(target, m.key, caseSensitive);
    if m.value.Null? then others
    else others + [Member(m.key, MergePatch(Taken(target, m.key, caseSensitive), m.value, caseSensitive))]
  }

  // ----- RFC 7396, section 2 -----

  /** The member of a target that is an object. */
  function MemberOf(target: Option<Json>, key: string): Option<Json> {
    if target.Some? && target.value.Object? && Has(target.value.members, key)
    then Some(Value(target.value.members, key)) else None
  }

  /** The result of a merge, in terms of what each member becomes. */
  ghost predicate IsMerge(target: Option<Json>, patch: Json, result: Json)
    decreases patch, 1
  {
    if !patch.Object? then result == patch
    else
      && result.Object? && DistinctKeys(result.members)
      && (forall i :: 0 <= i < |patch.members| ==> MergesMember(target, patch.members[i], result.members))
      && (forall key :: !Has(patch.members, key) ==> KeepsMember(target, key, result.members))
  }

  ghost predicate MergesMember(target: Option<Json>, m: Member, result: seq<Member>)
    decreases m, 0
  {
    if m.value.Null? then !Has(result, m.key)
    else Has(result, m.key) && IsMerge(MemberOf(target, m.key), m.value, Value(result, m.key))
  }

  ghost predicate KeepsMember(target: Option<Json>, key: string, result: seq<Member>) {
    MemberOf(target, key) == if Has(result, key) then Some(Value(result, key)) else None
  }

  /** What a list says about a key. */
  function Get(ms: seq<Member>, key: string): Option<Json> {
    if Has(ms, key) then Some(Value(ms, key)) else None
  }

  lemma {:induction false} MergeMemberKeys(target: seq<Member>, m: Member, key: string)
    requires DistinctKeys(target)
    ensures var r := MergeMember(target, m, true);
            && DistinctKeys(r)
            && (key != m.key ==> Get(r, key) == Get(target, key))
            && Get(r, m.key) == (if m.value.Null? then None else Some(MergePatch(Get(target, m.key), m.value, true)))
  {
    hide IndexOf, DistinctKeys, MergePatch;
    var others := Dropped(target, m.key, true);
    if Has(target, m.key) {
      WithoutKey(target, m.key, key);
      WithoutKey(target, m.key, m.key);
    }
    if !m.value.Null? {
      var v := MergePatch(Get(target, m.key), m.value, true);
      PlusKey(others, m.key, v, key);
      PlusKey(others, m.key, v, m.key);
    }
  }

  /** What the merged list says about a key. */
  lemma {:induction false} MergeMembersKeys(target: seq<Member>, members: seq<Member>, patch: Json, key: string)
    requires patch.Object? && forall m :: m in members ==> m in patch.members
    requires DistinctKeys(target) && DistinctKeys(members)
    ensures var r := MergeMembers(target, members, patch, true);
            && DistinctKeys(r)
            && Get(r, key) == if !Has(members, key) then Get(target, key)
                              else if Value(members, key).Null? then None
                              else Some(MergePatch(Get(target, key), Value(members, key), true))
    decreases |members|
  {
    hide DistinctKeys, MergeMember, MergePatch;
    if members != [] {
      var m := members[0];
      var rest := MergeMember(target, m, true);
      MergeMemberKeys(target, m, key);
      DistinctTail(members);
      MergeMembersKeys(rest, members[1..], patch, key);
    }
  }

  /** With distinct keys, merge_patch is the function of RFC 7396. */
  lemma {:induction false} MergeIsRfc7396(target: Option<Json>, patch: Json)
    requires (target.Some? ==> Distinct(target.value)) && Distinct(patch)
    ensures IsMerge(target, patch, MergePatch(target, patch, true))
    decreases patch
  {
    hide MergeMembers, IndexOf, DistinctKeys;
    if patch.Object? {
      var ms := if target.Some? && target.value.Object? then target.value.members else [];
      var result := MergePatch(target, patch, true);
      TargetMembers(target, ms);
      MergeMembersKeys(ms, patch.members, patch, "");
      forall i | 0 <= i < |patch.members|
        ensures MergesMember(target, patch.members[i], result.members)
      {
        MergesOne(target, patch, i, ms);
      }
      forall key | !Has(patch.members, key)
        ensures KeepsMember(target, key, result.members)
      {
        MergeMembersKeys(ms, patch.members, patch, key);
        TargetMember(target, ms, key);
      }
    }
  }

  lemma {:induction false} TargetMembers(target: Option<Json>, ms: seq<Member>)
    requires target.Some? ==> Distinct(target.value)
    requires ms == if target.Some? && target.value.Object? then target.value.members else []
    ensures DistinctKeys(ms)
  {
  }

  lemma {:induction false} TargetMember(target: Option<Json>, ms: seq<Member>, key: string)
    requires ms == if target.Some? && target.value.Object? then target.value.members else []
    ensures MemberOf(target, key) == Get(ms, key)
    ensures (target.Some? ==> Distinct(target.value)) && Get(ms, key).Some? ==> Distinct(Get(ms, key).value)
  {
    hide IndexOf;
  }

  lemma {:induction false} MergesOne(target: Option<Json>, patch: Json, i: nat, ms: seq<Member>)
    requires (target.Some? ==> Distinct(target.value)) && Distinct(patch) && patch.Object? && i < |patch.members|
    requires ms == (if target.Some? && target.value.Object? then target.value.members else []) && DistinctKeys(ms)
    ensures MergesMember(target, patch.members[i], MergeMembers(ms, patch.members, patch, true))
    decreases patch, 0
  {
    hide MergeMembers, IndexOf, DistinctKeys, IsMerge;
    var m := patch.members[i];
    HasAt(patch.members, i);
    TargetMember(target, ms, m.key);
    MergeMembersKeys(ms, patch.members, patch, m.key);
    if !m.value.Null? { MergeIsRfc7396(MemberOf(target, m.key), m.value); }
  }

  // ----- generate_merge_patch -----

  /** generate_merge_patch; None when there is nothing to change. Below the root, case is ignored. */
  function GenerateMerge(source: Json, target: Json, caseSensitive: bool): Option<Json>
    decreases Height(target), 0
  {
    if !target.Object? || !source.Object? then Some(target)
    else
      AllInSort(target.members, caseSensitive);
      var members := GenerateMembers(SortList(source.members, caseSensitive), SortList(target.members, caseSensitive),
                                     target, caseSensitive);
      if members == [] then None else Some(Object(members))
  }

  /** Walk along two lists of members, which strcmp compares even when they were sorted ignoring case. */
  function GenerateMembers(source: seq<Member>, target: seq<Member>, whole: Json, caseSensitive: bool): seq<Member>
    requires whole.Object? && forall m :: m in target ==> m in whole.members
    decreases Height(whole), 0, |source| + |target|
  {
    if source == [] && target == [] then []
    else
      var diff := CompareHeads(source, target, true);
      if diff < 0 then
        [Member(source[0].key, Null)] + GenerateMembers(source[1..], target, whole, caseSensitive)
      else if diff > 0 then
        [Member(target[0].key, target[0].value)] + GenerateMembers(source, target[1..], whole, caseSensitive)
      else
        MemberLower(target[0], whole);
        ChangedMember(target[0].key, source[0].value, target[0].value, caseSensitive) +
        GenerateMembers(source[1..], target[1..], whole, caseSensitive)
  }

  /** The patch for two values, as compare_json has left them. */
  function GenerateAfterCompare(source: Json, target: Json, caseSensitive: bool): Option<Json>
    decreases Height(target), 1
  {
    ReorderedHeight(source, target, caseSensitive);
    var r := Reordered(source, target, caseSensitive);
    GenerateMerge(r.0, r.1, false)
  }

  /** The member of the patch for a key that both objects have. */
  function ChangedMember(key: string, source: Json, target: Json, caseSensitive: bool): seq<Member>
    decreases Height(target), 2
  {
    if CompareJson(source, target, caseSensitive) then []
    else
      var patch := GenerateAfterCompare(source, target, caseSensitive);
      if patch.None? then [] else [Member(key, patch.value)]
  }

  // ----- Lower-case keys -----

  predicate LowerKeys(ms: seq<Member>) { forall i :: 0 <= i < |ms| ==> LowerAll(ms[i].key) == ms[i].key }

  /** No object has a key twice, and no key has an upper-case letter. */
  predicate Lowered(j: Json)
    decreases j
  {
    match j
    case Array(items) => forall i :: 0 <= i < |items| ==> Lowered(items[i])
    case Object(members) =>
      DistinctKeys(members) && LowerKeys(members) && forall i :: 0 <= i < |members| ==> Lowered(members[i].value)
    case _ => true
  }

  lemma {:induction false} MergeIgnoringCase(a: seq<Member>, b: seq<Member>)
    requires LowerKeys(a) && LowerKeys(b)
    ensures Merge(a, b, false) == Merge(a, b, true)
    decreases |a| + |b|
  {
    hide Strcmp, LowerAll;
    if a != [] && b != [] {
      MergeIgnoringCase(a[1..], b);
      MergeIgnoringCase(a, b[1..]);
    }
  }

  lemma {:induction false} InOrderIgnoringCase(ms: seq<Member>)
    requires LowerKeys(ms)
    ensures InOrder(ms, false) == InOrder(ms, true)
  {
    hide Strcmp, LowerAll;
    if |ms| >= 2 { InOrderIgnoringCase(ms[1..]); }
  }

  /** With lower-case keys, sorting does not depend on how case is treated. */
  lemma {:induction false} SortIgnoringCase(ms: seq<Member>)
    requires LowerKeys(ms)
    ensures SortList(ms, false) == SortList(ms, true)
    decreases |ms|
  {
    hide Merge, InOrder, LowerAll;
    InOrderIgnoringCase(ms);
    InOrderShort(ms, true);
    if !InOrder(ms, true) {
      var half := (|ms| + 1) / 2;
      SortIgnoringCase(ms[..half]);
      SortIgnoringCase(ms[half..]);
      SortedLowered(ms[..half]);
      SortedLowered(ms[half..]);
      MergeIgnoringCase(SortList(ms[..half], true), SortList(ms[half..], true));
    }
  }

  lemma {:induction false} SortedLowered(ms: seq<Member>)
    ensures LowerKeys(ms) ==> LowerKeys(SortList(ms, true))
    ensures (forall i :: 0 <= i < |ms| ==> Lowered(ms[i].value)) ==>
              forall i :: 0 <= i < |SortList(ms, true)| ==> Lowered(SortList(ms, true)[i].value)
  {
    hide SortList, LowerAll, Lowered;
    var r := SortList(ms, true);
    AllInSort(ms, true);
    forall i | 0 <= i < |r|
      ensures exists k :: 0 <= k < |ms| && ms[k] == r[i]
    {
      assert r[i] in ms;
    }
  }

  lemma {:induction false} CompareMembersIgnoringCase(a: seq<Member>, b: seq<Member>, whole: Json)
    requires whole.Object? && forall m :: m in b ==> m in whole.members
    requires LowerKeys(a) && LowerKeys(b)
    requires forall i :: 0 <= i < |a| ==> Lowered(a[i].value)
    requires forall i :: 0 <= i < |b| ==> Lowered(b[i].value)
    ensures CompareMembers(a, b, whole, false) == CompareMembers(a, b, whole, true)
    decreases whole, 0, |b|
  {
    hide Strcmp, LowerAll, CompareJson, Lowered;
    if a != [] && b != [] {
      assert b[0] in whole.members;
      CompareIgnoringCase(a[0].value, b[0].value);
      CompareMembersIgnoringCase(a[1..], b[1..], whole);
    }
  }

  lemma {:induction false} CompareItemsIgnoringCase(a: seq<Json>, b: seq<Json>, whole: Json)
    requires whole.Array? && forall j :: j in b ==> j in whole.items
    requires forall i :: 0 <= i < |a| ==> Lowered(a[i])
    requires forall i :: 0 <= i < |b| ==> Lowered(b[i])
    ensures CompareItems(a, b, whole, false) == CompareItems(a, b, whole, true)
    decreases whole, 0, |b|
  {
    hide CompareJson, Lowered;
    if a != [] && b != [] {
      assert b[0] in b;
      CompareIgnoringCase(a[0], b[0]);
      CompareItemsIgnoringCase(a[1..], b[1..], whole);
    }
  }

  /** With lower-case keys, comparing does not depend on how case is treated. */
  lemma {:induction false} CompareIgnoringCase(a: Json, b: Json)
    requires Lowered(a) && Lowered(b)
    ensures CompareJson(a, b, false) == CompareJson(a, b, true)
    decreases b, 1, 0
  {
    hide SortList, CompareMembers, CompareItems, SameDouble, LowerKeys, DistinctKeys;
    if a.Array? && b.Array? {
      CompareItemsIgnoringCase(a.items, b.items, b);
    } else if a.Object? && b.Object? {
      SortIgnoringCase(a.members);
      SortIgnoringCase(b.members);
      SortedLowered(a.members);
      SortedLowered(b.members);
      AllInSort(b.members, true);
      CompareMembersIgnoringCase(SortList(a.members, true), SortList(b.members, true), b);
    }
  }

  // ----- What a generated patch says -----

  /** What the patch says about a key: remove, add, merge, or nothing. */
  function PatchFor(source: Option<Json>, target: Option<Json>, caseSensitive: bool): Option<Json> {
    if target.None? then if source.None? then None else Some(Null)
    else if source.None? then target
    else if CompareJson(source.value, target.value, caseSensitive) then None
    else GenerateAfterCompare(source.value, target.value, caseSensitive)
  }

  lemma {:induction false} GetHead(ms: seq<Member>, key: string)
    requires ms != []
    ensures Get(ms, key) == if key == ms[0].key then Some(ms[0].value) else Get(ms[1..], key)
  {
  }

  lemma {:induction false} GetChanged(key: string, source: Json, target: Json, caseSensitive: bool, rest: seq<Member>,
                                      k: string)
    requires Get(rest, key).None? && DistinctKeys(rest)
    ensures var r := ChangedMember(key, source, target, caseSensitive) + rest;
            && DistinctKeys(r)
            && Get(r, k) == if k == key then PatchFor(Some(source), Some(target), caseSensitive) else Get(rest, k)
  {
    hide CompareJson, GenerateMerge, Has;
    var c := ChangedMember(key, source, target, caseSensitive);
    var r := c + rest;
    if c == [] {
      assert r == rest;
    } else {
      GetHead(r, k);
      assert r[1..] == rest;
      HeadDistinct(c[0], rest);
    }
  }

  lemma {:induction false} HeadDistinct(m: Member, rest: seq<Member>)
    requires Get(rest, m.key).None? && DistinctKeys(rest)
    ensures DistinctKeys([m] + rest)
  {
    HasMeans(rest, m.key);
  }

  lemma {:induction false} GenerateMembersKeys(source: seq<Member>, target: seq<Member>, whole: Json,
                                               caseSensitive: bool, key: string)
    requires whole.Object? && forall m :: m in target ==> m in whole.members
    requires Sorted(source, true) && Sorted(target, true)
    ensures var r := GenerateMembers(source, target, whole, caseSensitive);
            DistinctKeys(r) && Get(r, key) == PatchFor(Get(source, key), Get(target, key), caseSensitive)
    decreases |source| + |target|
  {
    hide CompareHeads, ChangedMember, PatchFor, DistinctKeys, Sorted, Has;
    if source == [] && target == [] {
      NoMembers(key, caseSensitive);
    } else {
      var diff := CompareHeads(source, target, true);
      HeadsDiffer(source, target);
      if diff < 0 {
        GenerateRemoval(source, target, whole, caseSensitive, key);
      } else if diff > 0 {
        GenerateAddition(source, target, whole, caseSensitive, key);
      } else {
        GenerateChange(source, target, whole, caseSensitive, key);
      }
    }
  }

  lemma {:induction false} NoMembers(key: string, caseSensitive: bool)
    ensures Get([], key) == None && PatchFor(None, None, caseSensitive) == None && DistinctKeys([])
  {
  }

  lemma {:induction false} GenerateRemoval(source: seq<Member>, target: seq<Member>, whole: Json, caseSensitive: bool,
                                           key: string)
    requires whole.Object? && forall m :: m in target ==> m in whole.members
    requires Sorted(source, true) && Sorted(target, true) && source != []
    requires CompareHeads(source, target, true) < 0 && !Has(target, source[0].key)
    ensures var r := GenerateMembers(source, target, whole, caseSensitive);
            DistinctKeys(r) && Get(r, key) == PatchFor(Get(source, key), Get(target, key), caseSensitive)
    decreases |source| + |target|, 0
  {
    hide CompareHeads, ChangedMember, DistinctKeys, Sorted, Has, Value;
    var k0 := source[0].key;
    HeadKey(source, k0);
    GenerateMembersKeys(source[1..], target, whole, caseSensitive, key);
    GenerateMembersKeys(source[1..], target, whole, caseSensitive, k0);
    var rest := GenerateMembers(source[1..], target, whole, caseSensitive);
    var r := [Member(k0, Null)] + rest;
    assert r[1..] == rest;
    GetHead(source, key);
    GetHead(r, key);
    HeadDistinct(r[0], rest);
  }

  lemma {:induction false} GenerateAddition(source: seq<Member>, target: seq<Member>, whole: Json, caseSensitive: bool,
                                            key: string)
    requires whole.Object? && forall m :: m in target ==> m in whole.members
    requires Sorted(source, true) && Sorted(target, true) && target != []
    requires CompareHeads(source, target, true) > 0 && !Has(source, target[0].key)
    ensures var r := GenerateMembers(source, target, whole, caseSensitive);
            DistinctKeys(r) && Get(r, key) == PatchFor(Get(source, key), Get(target, key), caseSensitive)
    decreases |source| + |target|, 0
  {
    hide CompareHeads, ChangedMember, DistinctKeys, Sorted, Has, Value;
    var k0 := target[0].key;
    HeadKey(target, k0);
    GenerateMembersKeys(source, target[1..], whole, caseSensitive, key);
    GenerateMembersKeys(source, target[1..], whole, caseSensitive, k0);
    var rest := GenerateMembers(source, target[1..], whole, caseSensitive);
    var r := [Member(k0, target[0].value)] + rest;
    assert r[1..] == rest;
    GetHead(target, key);
    GetHead(r, key);
    HeadDistinct(r[0], rest);
  }

  lemma {:induction false} GenerateChange(source: seq<Member>, target: seq<Member>, whole: Json, caseSensitive: bool,
                                          key: string)
    requires whole.Object? && forall m :: m in target ==> m in whole.members
    requires Sorted(source, true) && Sorted(target, true) && source != [] && target != []
    requires CompareHeads(source, target, true) == 0 && source[0].key == target[0].key
    ensures var r := GenerateMembers(source, target, whole, caseSensitive);
            DistinctKeys(r) && Get(r, key) == PatchFor(Get(source, key), Get(target, key), caseSensitive)
    decreases |source| + |target|, 0
  {
    hide CompareHeads, ChangedMember, DistinctKeys, Sorted, Has, Value, CompareJson, GenerateMerge;
    var k0 := target[0].key;
    HeadKey(source, k0);
    HeadKey(target, k0);
    GenerateMembersKeys(source[1..], target[1..], whole, caseSensitive, key);
    GenerateMembersKeys(source[1..], target[1..], whole, caseSensitive, k0);
    var rest := GenerateMembers(source[1..], target[1..], whole, caseSensitive);
    GetHead(source, key);
    GetHead(target, key);
    assert target[0] in whole.members;
    GetChanged(k0, source[0].value, target[0].value, caseSensitive, rest, key);
  }

  // ----- The patch leads from the one document to the other -----

  /** No member has the value null, which in a merge patch means removal. */
  predicate NoNullMembers(j: Json)
    decreases j
  {
    j.Object? ==> forall i :: 0 <= i < |j.members| ==> KeptMember(j.members[i])
  }

  predicate KeptMember(m: Member)
    decreases m, 0
  {
    !m.value.Null? && NoNullMembers(m.value)
  }

  /** Merging into nothing gives the patch itself exactly if it has no null members. */
  lemma {:induction false} MergeIntoNothing(patch: Json)
    requires Distinct(patch)
    ensures Matches(MergePatch(None, patch, true), patch) <==> NoNullMembers(patch)
    decreases patch
  {
    hide MergeMembers, IndexOf, DistinctKeys, SameDouble;
    if patch.Object? {
      var r := MergeMembers([], patch.members, patch, true);
      forall key
        ensures Get(r, key) == if !Has(patch.members, key) || Value(patch.members, key).Null? then None
                               else Some(MergePatch(None, Value(patch.members, key), true))
      {
        NothingKnown(key);
        MergeMembersKeys([], patch.members, patch, key);
      }
      MergeMembersIntoNothing(patch, r);
    } else {
      MatchesItself(patch);
    }
  }

  lemma {:induction false} NothingKnown(key: string)
    ensures Get([], key) == None && DistinctKeys([])
  {
  }

  lemma {:induction false} MergeMembersIntoNothing(patch: Json, r: seq<Member>)
    requires patch.Object? && Distinct(patch)
    requires forall key :: Get(r, key) == if !Has(patch.members, key) || Value(patch.members, key).Null? then None
                                          else Some(MergePatch(None, Value(patch.members, key), true))
    ensures MembersMatch(r, patch) <==> NoNullMembers(patch)
    decreases patch, 0
  {
    hide IndexOf, Matches, MergePatch, DistinctKeys;
    var ms := patch.members;
    forall i | 0 <= i < |ms|
      ensures Has(ms, ms[i].key) && Value(ms, ms[i].key) == ms[i].value
      ensures !ms[i].value.Null? ==>
                (Matches(MergePatch(None, ms[i].value, true), ms[i].value) <==> NoNullMembers(ms[i].value))
      ensures Get(r, ms[i].key) == if ms[i].value.Null? then None else Some(MergePatch(None, ms[i].value, true))
    {
      HasAt(ms, i);
      MergeIntoNothing(ms[i].value);
    }
    if NoNullMembers(patch) {
      forall key
        ensures Has(r, key) <==> Has(ms, key)
      {
        if Has(ms, key) { assert KeptMember(ms[IndexOf(ms, key)]); }
        assert Get(r, key).Some? <==> Has(r, key);
      }
      forall i | 0 <= i < |ms| && Has(r, ms[i].key)
        ensures Matches(Value(r, ms[i].key), ms[i].value)
      {
        assert KeptMember(ms[i]);
      }
    } else {
      var i :| 0 <= i < |ms| && !KeptMember(ms[i]);
      assert Get(r, ms[i].key).Some? <==> Has(r, ms[i].key);
    }
  }

  /** Merging the patch into the source gives the target; without a patch, they match already. */
  ghost predicate Inverts(source: Json, target: Json, patch: Option<Json>) {
    if patch.None? then Matches(source, target)
    else Matches(MergePatch(Some(source), patch.value, true), target) && (!target.Null? ==> !patch.value.Null?)
  }

  /** What a merge makes of one member. */
  function Merged(source: Option<Json>, patch: Option<Json>): Option<Json> {
    if patch.None? then source
    else if patch.value.Null? then None
    else Some(MergePatch(source, patch.value, true))
  }

  /** What the members of a patch, one after the other, make of the member with this key. */
  function MergedBy(x: Option<Json>, members: seq<Member>, key: string): Option<Json>
    decreases |members|
  {
    if members == [] then x
    else MergedBy(if members[0].key == key then Merged(x, Some(members[0].value)) else x, members[1..], key)
  }

  lemma {:induction false} MergedByConcat(x: Option<Json>, a: seq<Member>, b: seq<Member>, key: string)
    ensures MergedBy(x, a + b, key) == MergedBy(MergedBy(x, a, key), b, key)
    decreases |a|
  {
    hide Merged;
    if a == [] {
      assert a + b == b;
    } else {
      assert (a + b)[1..] == a[1..] + b;
      MergedByConcat(if a[0].key == key then Merged(x, Some(a[0].value)) else x, a[1..], b, key);
    }
  }

  lemma {:induction false} MergeInSequence(target: seq<Member>, members: seq<Member>, patch: Json, key: string)
    requires patch.Object? && DistinctKeys(target) && forall m :: m in members ==> m in patch.members
    ensures var r := MergeMembers(target, members, patch, true);
            DistinctKeys(r) && Get(r, key) == MergedBy(Get(target, key), members, key)
    decreases |members|
  {
    hide DistinctKeys, MergeMember, MergePatch, Get;
    if members != [] {
      MergeMemberKeys(target, members[0], key);
      MergeInSequence(MergeMember(target, members[0], true), members[1..], patch, key);
    }
  }

  // ----- The walk along two lists, in whatever order they are -----

  /** The walk adds the key while the source still has it. */
  predicate AddedEarly(source: seq<Member>, target: seq<Member>, key: string)
    decreases |source| + |target|
  {
    if source == [] && target == [] then false
    else
      var diff := CompareHeads(source, target, true);
      if diff < 0 then AddedEarly(source[1..], target, key)
      else if diff > 0 then (target[0].key == key && Has(source, key)) || AddedEarly(source, target[1..], key)
      else AddedEarly(source[1..], target[1..], key)
  }

  /** The walk removes the key while the target still has it. */
  predicate RemovedEarly(source: seq<Member>, target: seq<Member>, key: string)
    decreases |source| + |target|
  {
    if source == [] && target == [] then false
    else
      var diff := CompareHeads(source, target, true);
      if diff < 0 then (source[0].key == key && Has(target, key)) || RemovedEarly(source[1..], target, key)
      else if diff > 0 then RemovedEarly(source, target[1..], key)
      else RemovedEarly(source[1..], target[1..], key)
  }

  lemma {:induction false} EarlyMeansBoth(source: seq<Member>, target: seq<Member>, key: string)
    ensures AddedEarly(source, target, key) || RemovedEarly(source, target, key) ==>
              Has(source, key) && Has(target, key)
    decreases |source| + |target|
  {
    hide CompareHeads;
    if source != [] || target != [] {
      var diff := CompareHeads(source, target, true);
      EarlyMeansBoth(if diff <= 0 then source[1..] else source, if diff >= 0 then target[1..] else target, key);
    }
  }

  /** Lists that strcmp finds in order meet at every key that both have. */
  lemma {:induction false} SortedNotEarly(source: seq<Member>, target: seq<Member>, key: string)
    requires Sorted(source, true) && Sorted(target, true)
    ensures !AddedEarly(source, target, key) && !RemovedEarly(source, target, key)
    decreases |source| + |target|
  {
    hide CompareHeads, Sorted, Has;
    if source != [] || target != [] {
      HeadsDiffer(source, target);
      if source != [] { HeadKey(source, key); }
      if target != [] { HeadKey(target, key); }
      var diff := CompareHeads(source, target, true);
      SortedNotEarly(if diff <= 0 then source[1..] else source, if diff >= 0 then target[1..] else target, key);
    }
  }

  /** What the generated patch makes of the member with this key. */
  function Outcome(x: Option<Json>, source: seq<Member>, target: seq<Member>, caseSensitive: bool, key: string)
    : Option<Json> {
    if !Has(source, key) then if !Has(target, key) then x else Merged(x, Some(Value(target, key)))
    else if !Has(target, key) || AddedEarly(source, target, key) then None
    else if RemovedEarly(source, target, key) then Merged(None, Some(Value(target, key)))
    else Merged(x, PatchFor(Some(Value(source, key)), Some(Value(target, key)), caseSensitive))
  }

  lemma {:induction false} MergedByFirst(x: Option<Json>, m: Member, rest: seq<Member>, key: string)
    ensures MergedBy(x, [m] + rest, key) == MergedBy(if m.key == key then Merged(x, Some(m.value)) else x, rest, key)
  {
    hide Merged;
    assert ([m] + rest)[1..] == rest;
  }

  lemma {:induction false} MergedByChanged(x: Option<Json>, k: string, source: Json, target: Json, caseSensitive: bool,
                                           key: string)
    ensures MergedBy(x, ChangedMember(k, source, target, caseSensitive), key)
            == if k == key then Merged(x, PatchFor(Some(source), Some(target), caseSensitive)) else x
  {
    hide CompareJson, GenerateMerge, MergePatch;
    var c := ChangedMember(k, source, target, caseSensitive);
    if c != [] { assert c[1..] == []; }
  }

  lemma {:induction false} TailHas(ms: seq<Member>, key: string)
    requires ms != [] && DistinctKeys(ms)
    ensures DistinctKeys(ms[1..]) && Has(ms, ms[0].key) && Value(ms, ms[0].key) == ms[0].value
    ensures !Has(ms[1..], ms[0].key)
    ensures key != ms[0].key ==>
              Has(ms, key) == Has(ms[1..], key) && (Has(ms, key) ==> Value(ms, key) == Value(ms[1..], key))
  {
    DistinctTail(ms);
  }

  /** The outcome after the walk has passed heads that do not have the key. */
  lemma {:induction false} OutcomeTails(x: Option<Json>, source: seq<Member>, target: seq<Member>, source': seq<Member>,
                                        target': seq<Member>, caseSensitive: bool, key: string)
    requires Has(source', key) == Has(source, key) && Has(target', key) == Has(target, key)
    requires Has(source, key) ==> Value(source', key) == Value(source, key)
    requires Has(target, key) ==> Value(target', key) == Value(target, key)
    requires AddedEarly(source', target', key) == AddedEarly(source, target, key)
    requires RemovedEarly(source', target', key) == RemovedEarly(source, target, key)
    ensures Outcome(x, source', target', caseSensitive, key) == Outcome(x, source, target, caseSensitive, key)
  {
    hide Has, Value, AddedEarly, RemovedEarly, Merged, PatchFor;
  }

  lemma {:induction false} GenerateOutcome(x: Option<Json>, source: seq<Member>, target: seq<Member>, whole: Json,
                                           caseSensitive: bool, key: string)
    requires whole.Object? && forall m :: m in target ==> m in whole.members
    requires DistinctKeys(source) && DistinctKeys(target)
    ensures MergedBy(x, GenerateMembers(source, target, whole, caseSensitive), key)
            == Outcome(x, source, target, caseSensitive, key)
    decreases |source| + |target|
  {
    hide CompareHeads, ChangedMember, PatchFor, DistinctKeys, Has, Value, Merged, Outcome, AddedEarly, RemovedEarly,
      MergedBy;
    if source == [] && target == [] {
      NoOutcome(x, caseSensitive, key);
    } else {
      var diff := CompareHeads(source, target, true);
      if diff < 0 {
        OutcomeRemoval(x, source, target, whole, caseSensitive, key);
      } else if diff > 0 {
        OutcomeAddition(x, source, target, whole, caseSensitive, key);
      } else {
        OutcomeChange(x, source, target, whole, caseSensitive, key);
      }
    }
  }

  lemma {:induction false} NoOutcome(x: Option<Json>, caseSensitive: bool, key: string)
    ensures Outcome(x, [], [], caseSensitive, key) == x && MergedBy(x, [], key) == x
  {
  }

  lemma {:induction false} OutcomeRemoval(x: Option<Json>, source: seq<Member>, target: seq<Member>, whole: Json,
                                          caseSensitive: bool, key: string)
    requires whole.Object? && forall m :: m in target ==> m in whole.members
    requires DistinctKeys(source) && DistinctKeys(target) && source != [] && CompareHeads(source, target, true) < 0
    ensures MergedBy(x, GenerateMembers(source, target, whole, caseSensitive), key)
            == Outcome(x, source, target, caseSensitive, key)
    decreases |source| + |target|, 0
  {
    hide CompareHeads, ChangedMember, PatchFor, DistinctKeys, Has, Value, MergePatch, MergedBy;
    var k0 := source[0].key;
    TailHas(source, key);
    EarlyMeansBoth(source[1..], target, key);
    MergedByFirst(x, Member(k0, Null), GenerateMembers(source[1..], target, whole, caseSensitive), key);
    if key == k0 {
      GenerateOutcome(None, source[1..], target, whole, caseSensitive, key);
    } else {
      GenerateOutcome(x, source[1..], target, whole, caseSensitive, key);
      OutcomeTails(x, source, target, source[1..], target, caseSensitive, key);
    }
  }

  lemma {:induction false} OutcomeAddition(x: Option<Json>, source: seq<Member>, target: seq<Member>, whole: Json,
                                           caseSensitive: bool, key: string)
    requires whole.Object? && forall m :: m in target ==> m in whole.members
    requires DistinctKeys(source) && DistinctKeys(target) && target != [] && CompareHeads(source, target, true) > 0
    ensures MergedBy(x, GenerateMembers(source, target, whole, caseSensitive), key)
            == Outcome(x, source, target, caseSensitive, key)
    decreases |source| + |target|, 0
  {
    hide CompareHeads, ChangedMember, PatchFor, DistinctKeys, Has, Value, Merged, MergedBy;
    var m := target[0];
    TailHas(target, key);
    EarlyMeansBoth(source, target[1..], key);
    MergedByFirst(x, Member(m.key, m.value), GenerateMembers(source, target[1..], whole, caseSensitive), key);
    if key == m.key {
      GenerateOutcome(Merged(x, Some(m.value)), source, target[1..], whole, caseSensitive, key);
    } else {
      GenerateOutcome(x, source, target[1..], whole, caseSensitive, key);
      OutcomeTails(x, source, target, source, target[1..], caseSensitive, key);
    }
  }

  lemma {:induction false} OutcomeChange(x: Option<Json>, source: seq<Member>, target: seq<Member>, whole: Json,
                                         caseSensitive: bool, key: string)
    requires whole.Object? && forall m :: m in target ==> m in whole.members
    requires DistinctKeys(source) && DistinctKeys(target) && source != [] && target != []
    requires CompareHeads(source, target, true) == 0
    ensures MergedBy(x, GenerateMembers(source, target, whole, caseSensitive), key)
            == Outcome(x, source, target, caseSensitive, key)
    decreases |source| + |target|, 0
  {
    hide CompareHeads, ChangedMember, PatchFor, DistinctKeys, Has, Value, Merged, MergedBy;
    HeadsEqual(source, target);
    TailHas(source, key);
    TailHas(target, key);
    EarlyMeansBoth(source[1..], target[1..], key);
    assert target[0] in whole.members;
    var c := ChangedMember(target[0].key, source[0].value, target[0].value, caseSensitive);
    var rest := GenerateMembers(source[1..], target[1..], whole, caseSensitive);
    MergedByConcat(x, c, rest, key);
    MergedByChanged(x, target[0].key, source[0].value, target[0].value, caseSensitive, key);
    GenerateOutcome(MergedBy(x, c, key), source[1..], target[1..], whole, caseSensitive, key);
    if key != target[0].key { OutcomeTails(x, source, target, source[1..], target[1..], caseSensitive, key); }
  }

  lemma {:induction false} HeadsEqual(source: seq<Member>, target: seq<Member>)
    requires source != [] && target != [] && CompareHeads(source, target, true) == 0
    ensures source[0].key == target[0].key
  {
    StrcmpEqual(source[0].key, target[0].key);
  }

  // ----- Exactly when the generated patch is right -----

  /**
   * The patch that is generated for these documents is right. An object is sorted ignoring case below the root, while
   * the walk compares with strcmp: no key may be added while the source still has it. Documents that are taken to be
   * equal, ignoring case below the root, must be; and no null may have to be added. Below the root the objects are in
   * the order in which compare_json has left them.
   */
  predicate Invertible(source: Json, target: Json, caseSensitive: bool)
    decreases Height(target), 1
  {
    if !target.Object? then true
    else if !source.Object? then NoNullMembers(target)
    else forall i :: 0 <= i < |target.members| ==> MemberInvertible(source.members, target, i, caseSensitive)
  }

  predicate MemberInvertible(ms: seq<Member>, target: Json, i: nat, caseSensitive: bool)
    requires target.Object? && i < |target.members|
    decreases Height(target), 0
  {
    var m := target.members[i];
    MemberLower(m, target);
    var s, t := SortList(ms, caseSensitive), SortList(target.members, caseSensitive);
    if !Has(ms, m.key) || RemovedEarly(s, t, m.key) then KeptMember(m)
    else !AddedEarly(s, t, m.key) && ValueInvertible(Value(ms, m.key), m.value, caseSensitive)
  }

  predicate ValueInvertible(source: Json, target: Json, caseSensitive: bool)
    decreases Height(target), 2
  {
    if CompareJson(source, target, caseSensitive) then CompareJson(source, target, true)
    else
      ReorderedHeight(source, target, caseSensitive);
      var r := Reordered(source, target, caseSensitive);
      !target.Null? && Invertible(r.0, r.1, false)
  }

  lemma {:induction false} NotBothEarly(source: seq<Member>, target: seq<Member>, key: string)
    requires DistinctKeys(source) && DistinctKeys(target)
    ensures !AddedEarly(source, target, key) || !RemovedEarly(source, target, key)
    decreases |source| + |target|
  {
    hide CompareHeads, DistinctKeys, Has, Value;
    if source != [] || target != [] {
      var diff := CompareHeads(source, target, true);
      if source != [] { TailHas(source, key); }
      if target != [] { TailHas(target, key); }
      var s, t := if diff <= 0 then source[1..] else source, if diff >= 0 then target[1..] else target;
      NotBothEarly(s, t, key);
      EarlyMeansBoth(s, t, key);
    }
  }

  /** One member of the result. */
  lemma {:induction false} OutcomeRight(source: Json, target: Json, i: nat, caseSensitive: bool)
    requires source.Object? && target.Object? && Distinct(source) && Distinct(target) && i < |target.members|
    ensures var m := target.members[i];
            var o := Outcome(Get(source.members, m.key), SortList(source.members, caseSensitive),
                             SortList(target.members, caseSensitive), caseSensitive, m.key);
            o.Some? && Matches(o.value, m.value) <==> MemberInvertible(source.members, target, i, caseSensitive)
    decreases Height(target), 0, 0
  {
    hide SortList, IndexOf, Matches, MergePatch, DistinctKeys, AddedEarly, RemovedEarly, ValueInvertible, NoNullMembers,
      CompareJson, GenerateAfterCompare, Height;
    var m := target.members[i];
    var s, t := SortList(source.members, caseSensitive), SortList(target.members, caseSensitive);
    SortKeepsAny(source.members, caseSensitive, m.key);
    SortKeepsAny(target.members, caseSensitive, m.key);
    HasAt(target.members, i);
    NotBothEarly(s, t, m.key);
    EarlyMeansBoth(s, t, m.key);
    MergeIntoNothing(m.value);
    MemberLower(m, target);
    if Has(source.members, m.key) { ChangeRight(Value(source.members, m.key), m.value, caseSensitive); }
  }

  lemma {:induction false} GeneratedNull(source: Json, target: Json)
    ensures var g := GenerateMerge(source, target, false);
            (g.Some? && g.value.Null? <==> target.Null?) && (target.Null? ==> g.Some?)
  {
    hide SortList, GenerateMembers, Height;
  }

  /** A member that the walk meets in both objects. */
  lemma {:induction false} ChangeRight(source: Json, target: Json, caseSensitive: bool)
    requires Distinct(source) && Distinct(target)
    ensures var o := Merged(Some(source), PatchFor(Some(source), Some(target), caseSensitive));
            o.Some? && Matches(o.value, target) <==> ValueInvertible(source, target, caseSensitive)
    decreases Height(target), 2
  {
    hide Matches, MergePatch, Invertible, CompareJson, Reordered, Distinct, Alike, Height, GenerateMerge;
    var r := Reordered(source, target, caseSensitive);
    CompareDecides(source, target);
    ReorderedHeight(source, target, caseSensitive);
    ReorderedAlike(source, target, caseSensitive);
    ReorderedType(source, target, caseSensitive);
    AlikeMeans(source, r.0);
    AlikeMeans(target, r.1);
    GenerateInverts(r.0, r.1, false);
    GeneratedNull(r.0, r.1);
    var g := GenerateMerge(r.0, r.1, false);
    MatchesAlike(source, r.0, target, r.1);
    if g.Some? {
      GenerateTame(r.0, r.1, false);
      MergeAlike(Some(source), Some(r.0), g.value);
      MatchesAlike(MergePatch(Some(source), g.value, true), MergePatch(Some(r.0), g.value, true), target, r.1);
    }
  }

  // ----- Merging does not depend on the order of members -----

  /** A patch whose parts that are taken over as they are have no key twice. */
  predicate Tame(p: Json)
    decreases p
  {
    if p.Object? then forall i :: 0 <= i < |p.members| ==> Tame(p.members[i].value) else Distinct(p)
  }

  lemma {:induction false} DistinctTame(j: Json)
    requires Distinct(j)
    ensures Tame(j)
    decreases j
  {
    if j.Object? {
      forall i | 0 <= i < |j.members|
        ensures Tame(j.members[i].value)
      {
        DistinctTame(j.members[i].value);
      }
    }
  }

  predicate AllTame(ms: seq<Member>) { forall i :: 0 <= i < |ms| ==> Tame(ms[i].value) }

  lemma {:induction false} GenerateTame(source: Json, target: Json, caseSensitive: bool)
    requires Distinct(source) && Distinct(target)
    ensures var g := GenerateMerge(source, target, caseSensitive); g.Some? ==> Tame(g.value)
    decreases Height(target), 0
  {
    hide SortList, GenerateMembers, Height, Distinct;
    DistinctTame(target);
    if source.Object? && target.Object? {
      AllInSort(source.members, caseSensitive);
      AllInSort(target.members, caseSensitive);
      var s, t := SortList(source.members, caseSensitive), SortList(target.members, caseSensitive);
      SortedValues(source, s);
      SortedValues(target, t);
      GenerateMembersTame(s, t, target, caseSensitive);
    }
  }

  lemma {:induction false} GenerateMembersTame(source: seq<Member>, target: seq<Member>, whole: Json,
                                               caseSensitive: bool)
    requires whole.Object? && forall m :: m in target ==> m in whole.members
    requires DistinctValues(source) && DistinctValues(target)
    ensures AllTame(GenerateMembers(source, target, whole, caseSensitive))
    decreases Height(whole), 0, |source| + |target|
  {
    hide CompareHeads, ChangedMember, Height, Distinct, Tame;
    if source != [] || target != [] {
      var diff := CompareHeads(source, target, true);
      if diff < 0 {
        GenerateMembersTame(source[1..], target, whole, caseSensitive);
        TameFirst([Member(source[0].key, Null)], GenerateMembers(source[1..], target, whole, caseSensitive));
      } else if diff > 0 {
        GenerateMembersTame(source, target[1..], whole, caseSensitive);
        DistinctTame(target[0].value);
        TameFirst([Member(target[0].key, target[0].value)], GenerateMembers(source, target[1..], whole, caseSensitive));
      } else {
        MemberLower(target[0], whole);
        GenerateMembersTame(source[1..], target[1..], whole, caseSensitive);
        ChangedTame(target[0].key, source[0].value, target[0].value, caseSensitive);
        TameFirst(ChangedMember(target[0].key, source[0].value, target[0].value, caseSensitive),
                  GenerateMembers(source[1..], target[1..], whole, caseSensitive));
      }
    }
  }

  lemma {:induction false} TameFirst(a: seq<Member>, rest: seq<Member>)
    requires AllTame(rest) && (a == [] || (|a| == 1 && (a[0].value.Null? || Tame(a[0].value))))
    ensures AllTame(a + rest)
  {
    assert Tame(Null);
  }

  lemma {:induction false} ChangedTame(key: string, source: Json, target: Json, caseSensitive: bool)
    requires Distinct(source) && Distinct(target)
    ensures var c := ChangedMember(key, source, target, caseSensitive); c == [] || (|c| == 1 && Tame(c[0].value))
    decreases Height(target), 1
  {
    hide CompareJson, GenerateMerge, Reordered, Height, Distinct, Alike, Tame;
    var r := Reordered(source, target, caseSensitive);
    ReorderedHeight(source, target, caseSensitive);
    ReorderedAlike(source, target, caseSensitive);
    AlikeMeans(source, r.0);
    AlikeMeans(target, r.1);
    GenerateTame(r.0, r.1, false);
  }

  /** Nothing in both, or documents that are alike. */
  ghost predicate AlikeOption(x: Option<Json>, y: Option<Json>) {
    x.Some? == y.Some? && (x.Some? ==> Distinct(x.value) && Alike(x.value, y.value))
  }

  lemma {:induction false} MergedByAlike(x: Option<Json>, y: Option<Json>, members: seq<Member>, patch: Json,
                                         key: string)
    requires AlikeOption(x, y) && patch.Object? && AllTame(members) && forall m :: m in members ==> m in patch.members
    ensures AlikeOption(MergedBy(x, members, key), MergedBy(y, members, key))
    decreases patch, 0, |members|
  {
    hide MergePatch, Distinct, Alike, Tame;
    if members != [] {
      var v := members[0].value;
      assert members[0] in patch.members;
      if members[0].key == key {
        if !v.Null? { MergeAlike(x, y, v); }
        MergedByAlike(Merged(x, Some(v)), Merged(y, Some(v)), members[1..], patch, key);
      } else {
        MergedByAlike(x, y, members[1..], patch, key);
      }
    }
  }

  /** The members of a target that is an object. */
  function MembersOfTarget(target: Option<Json>): seq<Member> {
    if target.Some? && target.value.Object? then target.value.members else []
  }

  lemma {:induction false} AlikeMembers(x: Option<Json>, y: Option<Json>, key: string)
    requires AlikeOption(x, y)
    ensures DistinctKeys(MembersOfTarget(x)) && DistinctKeys(MembersOfTarget(y))
    ensures AlikeOption(Get(MembersOfTarget(x), key), Get(MembersOfTarget(y), key))
  {
    hide IndexOf, Distinct, Same, DistinctKeys;
    assert DistinctKeys([]) && Get([], key) == None by { NothingKnown(key); }
    if x.Some? {
      AlikeKinds(x.value, y.value);
      if x.value.Object? { AlikeValues(x.value, y.value, key); }
    }
  }

  lemma {:induction false} MergeAlike(x: Option<Json>, y: Option<Json>, p: Json)
    requires AlikeOption(x, y) && Tame(p)
    ensures var a, b := MergePatch(x, p, true), MergePatch(y, p, true); Distinct(a) && Alike(a, b)
    decreases p, 1
  {
    hide MergeMembers, Alike, AlikeOption, Distinct, DistinctKeys, IndexOf;
    if !p.Object? {
      AlikeItself(p);
    } else {
      var ms, ns := MembersOfTarget(x), MembersOfTarget(y);
      AlikeMembers(x, y, "");
      var r, q := MergeMembers(ms, p.members, p, true), MergeMembers(ns, p.members, p, true);
      MergeInSequence(ms, p.members, p, "");
      MergeInSequence(ns, p.members, p, "");
      forall key
        ensures AlikeOption(Get(r, key), Get(q, key))
      {
        AlikeMembers(x, y, key);
        MergeInSequence(ms, p.members, p, key);
        MergeInSequence(ns, p.members, p, key);
        MergedByAlike(Get(ms, key), Get(ns, key), p.members, p, key);
      }
      AlikeResults(r, q);
    }
  }

  lemma {:induction false} AlikeResults(r: seq<Member>, q: seq<Member>)
    requires DistinctKeys(r) && DistinctKeys(q) && forall key :: AlikeOption(Get(r, key), Get(q, key))
    ensures Distinct(Object(r)) && Alike(Object(r), Object(q))
  {
    hide IndexOf, Alike, Distinct, DistinctKeys;
    forall i | 0 <= i < |r|
      ensures Distinct(r[i].value)
    {
      HasAt(r, i);
      assert AlikeOption(Get(r, r[i].key), Get(q, r[i].key));
    }
    forall key
      ensures Has(q, key) <==> Has(r, key)
      ensures Has(r, key) ==> Alike(Value(r, key), Value(q, key))
    {
      assert AlikeOption(Get(r, key), Get(q, key));
    }
    forall i | 0 <= i < |q|
      ensures Distinct(q[i].value)
    {
      HasAt(q, i);
      AlikeMeans(Value(r, q[i].key), q[i].value);
    }
    DistinctByKeys(r, r);
    DistinctByKeys(q, q);
    AlikeByKeys(r, q);
  }

  /**
   * generate_merge_patch and merge_patch are inverse exactly on these documents: merging the patch into the source
   * gives the target, and if there is no patch they match.
   */
  lemma {:induction false} GenerateInverts(source: Json, target: Json, caseSensitive: bool)
    requires Distinct(source) && Distinct(target)
    ensures Inverts(source, target, GenerateMerge(source, target, caseSensitive))
            <==> Invertible(source, target, caseSensitive)
    decreases Height(target), 1
  {
    hide SortList, GenerateMembers, CompareJson, Matches, MergeMembers, Distinct, NoNullMembers, DistinctKeys,
      MemberInvertible;
    if !target.Object? {
      MatchesItself(target);
    } else if !source.Object? {
      MergeIntoNothing(target);
    } else {
      AllInSort(target.members, caseSensitive);
      var s, t := SortList(source.members, caseSensitive), SortList(target.members, caseSensitive);
      var p := GenerateMembers(s, t, target, caseSensitive);
      var r := MergeMembers(source.members, p, Object(p), true);
      DistinctObject(source);
      DistinctObject(target);
      forall key
        ensures Get(r, key) == Outcome(Get(source.members, key), s, t, caseSensitive, key)
      {
        SortKeepsAny(source.members, caseSensitive, key);
        SortKeepsAny(target.members, caseSensitive, key);
        MergeInSequence(source.members, p, Object(p), key);
        GenerateOutcome(Get(source.members, key), s, t, target, caseSensitive, key);
      }
      MembersRight(source, target, r, caseSensitive);
      if p == [] { MergeNone(source.members, Object(p)); }
    }
  }

  lemma {:induction false} DistinctObject(j: Json)
    requires j.Object? && Distinct(j)
    ensures DistinctKeys(j.members)
  {
    hide DistinctKeys;
  }

  lemma {:induction false} MergeNone(ms: seq<Member>, patch: Json)
    requires patch.Object?
    ensures MergeMembers(ms, [], patch, true) == ms
  {
  }

  lemma {:induction false} MembersRight(source: Json, target: Json, r: seq<Member>, caseSensitive: bool)
    requires source.Object? && target.Object? && Distinct(source) && Distinct(target)
    requires forall key :: Get(r, key) == Outcome(Get(source.members, key), SortList(source.members, caseSensitive),
                                                  SortList(target.members, caseSensitive), caseSensitive, key)
    ensures Matches(Object(r), target) <==> Invertible(source, target, caseSensitive)
    decreases Height(target), 0, 1
  {
    hide SortList, IndexOf, Matches, MergePatch, DistinctKeys, Outcome, MemberInvertible, Height;
    var all := target.members;
    forall i | 0 <= i < |all|
      ensures Has(r, all[i].key) && Matches(Value(r, all[i].key), all[i].value)
              <==> MemberInvertible(source.members, target, i, caseSensitive)
    {
      OutcomeRight(source, target, i, caseSensitive);
      assert Get(r, all[i].key).Some? <==> Has(r, all[i].key);
    }
    forall key | !Has(all, key)
      ensures !Has(r, key)
    {
      OutcomeOfOthers(source, target, key, caseSensitive);
      assert Get(r, key).Some? <==> Has(r, key);
    }
    MembersMatchAt(r, target);
    ObjectMatches(r, target);
  }

  lemma {:induction false} OutcomeOfOthers(source: Json, target: Json, key: string, caseSensitive: bool)
    requires source.Object? && target.Object? && Distinct(source) && Distinct(target) && !Has(target.members, key)
    ensures Outcome(Get(source.members, key), SortList(source.members, caseSensitive),
                    SortList(target.members, caseSensitive), caseSensitive, key) == None
  {
    hide SortList, IndexOf, AddedEarly, RemovedEarly;
    SortKeepsAny(source.members, caseSensitive, key);
    SortKeepsAny(target.members, caseSensitive, key);
  }

  lemma {:induction false} MembersMatchAt(r: seq<Member>, target: Json)
    requires target.Object? && DistinctKeys(target.members) && forall key :: !Has(target.members, key) ==> !Has(r, key)
    ensures MembersMatch(r, target) <==>
            forall i :: 0 <= i < |target.members| ==>
              Has(r, target.members[i].key) && Matches(Value(r, target.members[i].key), target.members[i].value)
  {
    hide IndexOf, Matches;
    var all := target.members;
    forall i | 0 <= i < |all|
      ensures Has(all, all[i].key)
    {
      HasAt(all, i);
    }
    if forall i :: 0 <= i < |all| ==> Has(r, all[i].key) && Matches(Value(r, all[i].key), all[i].value) {
      forall key | Has(all, key)
        ensures Has(r, key)
      {
        assert all[IndexOf(all, key)].key == key;
      }
    }
  }

  lemma {:induction false} ObjectMatches(r: seq<Member>, target: Json)
    requires target.Object?
    ensures Matches(Object(r), target) <==> MembersMatch(r, target)
  {
    hide MembersMatch;
  }

  // ----- Lower-case keys, and keys for which the patch is wrong -----

  /** Keys without upper-case letters, which matters at the root only if it is sorted ignoring case. */
  predicate LoweredBelow(j: Json, caseSensitive: bool) {
    if caseSensitive && j.Object? then
      DistinctKeys(j.members) && forall i :: 0 <= i < |j.members| ==> Lowered(j.members[i].value)
    else Lowered(j)
  }

  lemma {:induction false} LoweredMember(j: Json, key: string, caseSensitive: bool)
    requires j.Object? && LoweredBelow(j, caseSensitive)
    ensures DistinctKeys(j.members) && Sorted(SortList(j.members, caseSensitive), true)
    ensures Has(j.members, key) ==> Lowered(Value(j.members, key))
  {
    hide SortList, DistinctKeys, LowerAll, IndexOf, Sorted, Lowered;
    LoweredKeys(j, caseSensitive);
    if !caseSensitive { SortIgnoringCase(j.members); }
    SortKeeps(j.members, key);
  }

  lemma {:induction false} LoweredKeys(j: Json, caseSensitive: bool)
    requires j.Object? && LoweredBelow(j, caseSensitive)
    ensures DistinctKeys(j.members) && (!caseSensitive ==> LowerKeys(j.members))
    ensures forall i :: 0 <= i < |j.members| ==> Lowered(j.members[i].value)
  {
    hide DistinctKeys, LowerAll;
  }

  lemma {:induction false} LoweredDistinct(j: Json)
    requires Lowered(j)
    ensures Distinct(j)
    decreases j
  {
    hide DistinctKeys, LowerKeys;
    match j
    case Array(items) =>
      forall i | 0 <= i < |items|
        ensures Distinct(items[i])
      {
        LoweredDistinct(items[i]);
      }
    case Object(members) =>
      forall i | 0 <= i < |members|
        ensures Distinct(members[i].value)
      {
        LoweredDistinct(members[i].value);
      }
    case _ =>
  }

  /** Documents that are alike have the same keys and null members. */
  lemma {:induction false} LoweredSame(a: Json, b: Json)
    requires Lowered(a) && Same(a, b) && Distinct(b)
    ensures Lowered(b)
    decreases b
  {
    hide IndexOf, LowerAll, DistinctKeys;
    match b
    case Array(items) =>
      forall i | 0 <= i < |items|
        ensures Lowered(items[i])
      {
        LoweredSame(a.items[i], items[i]);
      }
    case Object(members) =>
      forall i | 0 <= i < |members|
        ensures LowerAll(members[i].key) == members[i].key && Lowered(members[i].value)
      {
        HasAt(members, i);
        LoweredSame(Value(a.members, members[i].key), members[i].value);
      }
    case _ =>
  }

  lemma {:induction false} NoNullSame(a: Json, b: Json)
    requires NoNullMembers(a) && Same(a, b) && Distinct(b)
    ensures NoNullMembers(b)
    decreases b
  {
    hide IndexOf, DistinctKeys;
    if b.Object? {
      var members := b.members;
      forall i | 0 <= i < |members|
        ensures KeptMember(members[i])
      {
        HasAt(members, i);
        assert KeptMember(a.members[IndexOf(a.members, members[i].key)]);
        NoNullSame(Value(a.members, members[i].key), members[i].value);
      }
    }
  }

  lemma {:induction false} LoweredReordered(a: Json, b: Json, caseSensitive: bool)
    requires Lowered(a) && Lowered(b) && NoNullMembers(b)
    ensures var r := Reordered(a, b, caseSensitive); Lowered(r.0) && Lowered(r.1) && NoNullMembers(r.1)
  {
    hide Lowered, NoNullMembers, Reordered, Alike, Distinct, Same;
    var r := Reordered(a, b, caseSensitive);
    LoweredDistinct(a);
    LoweredDistinct(b);
    ReorderedAlike(a, b, caseSensitive);
    AlikeMeans(a, r.0);
    AlikeMeans(b, r.1);
    LoweredSame(a, r.0);
    LoweredSame(b, r.1);
    NoNullSame(b, r.1);
  }

  /** With such keys, and without null members in the target, the generated patch is right. */
  lemma {:induction false} LoweredInvertible(source: Json, target: Json, caseSensitive: bool)
    requires LoweredBelow(source, caseSensitive) && LoweredBelow(target, caseSensitive) && NoNullMembers(target)
    ensures Invertible(source, target, caseSensitive)
    decreases Height(target)
  {
    hide SortList, DistinctKeys, IndexOf, Lowered, CompareJson, AddedEarly, RemovedEarly, LoweredBelow, Reordered,
      Height;
    if source.Object? && target.Object? {
      forall i | 0 <= i < |target.members|
        ensures MemberInvertible(source.members, target, i, caseSensitive)
      {
        var m := target.members[i];
        LoweredMember(source, m.key, caseSensitive);
        LoweredMember(target, m.key, caseSensitive);
        HasAt(target.members, i);
        assert KeptMember(m);
        SortedNotEarly(SortList(source.members, caseSensitive), SortList(target.members, caseSensitive), m.key);
        if Has(source.members, m.key) {
          var s := Value(source.members, m.key);
          CompareIgnoringCase(s, m.value);
          var r := Reordered(s, m.value, caseSensitive);
          MemberLower(m, target);
          ReorderedHeight(s, m.value, caseSensitive);
          LoweredReordered(s, m.value, caseSensitive);
          LoweredAnyway(r.0);
          LoweredAnyway(r.1);
          LoweredInvertible(r.0, r.1, false);
        }
      }
    }
  }

  lemma {:induction false} LoweredAnyway(j: Json)
    requires Lowered(j)
    ensures LoweredBelow(j, false)
  {
  }

  lemma {:induction false} OneMember(m: Member, caseSensitive: bool)
    ensures SortList([m], caseSensitive) == [m]
  {
  }

  /** A document with one member. */
  function Wrapped(key: string, value: Json): Json { Object([Member(key, value)]) }

  /** The one member decides, when both documents have it. */
  lemma {:induction false} WrappedInvertible(key: string, source: Json, target: Json, caseSensitive: bool)
    ensures Invertible(Wrapped(key, source), Wrapped(key, target), caseSensitive)
            <==> ValueInvertible(source, target, caseSensitive)
  {
    hide SortList, CompareJson, NoNullMembers;
    var s, t := [Member(key, source)], [Member(key, target)];
    OneMember(s[0], caseSensitive);
    OneMember(t[0], caseSensitive);
    StrcmpEqual(key, key);
    MeetsAtOnce(s, t, key);
    var whole := Wrapped(key, target);
    assert MemberInvertible(s, whole, 0, caseSensitive) <==> ValueInvertible(source, target, caseSensitive);
  }

  lemma {:induction false} MeetsAtOnce(s: seq<Member>, t: seq<Member>, key: string)
    requires |s| == 1 && |t| == 1 && s[0].key == t[0].key == key
    ensures !AddedEarly(s, t, key) && !RemovedEarly(s, t, key) && Has(s, key) && Value(s, key) == s[0].value
  {
    StrcmpEqual(key, key);
    assert s[1..] == [] && t[1..] == [];
  }

  /**
   * When strcmp puts a key p after q, and q does not come before p ignoring case: if p goes and q stays below the root,
   * the patch adds q, then removes both, and the merged document has lost q. If the keys are equal ignoring case, that
   * is because compare_json has exchanged them once already, and every sorting exchanges them.
   */
  lemma {:induction false} OrderCounterexample(p: string, q: string, one: Json, two: Json, caseSensitive: bool)
    requires Strcmp(p, q) > 0 && CompareStrings(q, p, false) >= 0
    requires Distinct(one) && Distinct(two) && !two.Null? && NoNullMembers(two)
    ensures var source := Wrapped("x", Object([Member(p, one), Member(q, two)]));
            var target := Wrapped("x", Object([Member(q, two)]));
            && Distinct(source) && Distinct(target) && NoNullMembers(target)
            && !Inverts(source, target, GenerateMerge(source, target, caseSensitive))
  {
    hide Inverts, GenerateMerge, CompareJson, SortList, Invertible, Matches, Strcmp, Reordered, ReorderedMembers,
      CompareStrings;
    var s, t := [Member(p, one), Member(q, two)], [Member(q, two)];
    var source, target := Object(s), Object(t);
    StrcmpEqual(p, q);
    GenerateInverts(Wrapped("x", source), Wrapped("x", target), caseSensitive);
    WrappedInvertible("x", source, target, caseSensitive);
    ComparedApart(s, t, caseSensitive);
    TwoReordered(s, t, caseSensitive);
    TwoLost(p, q, Reordered(source, target, caseSensitive), caseSensitive);
    assert KeptMember(t[0]);
    assert KeptMember(Member("x", target));
  }

  /** After compare_json, sorting both lists again. */
  lemma {:induction false} TwoLost(p: string, q: string, r: (Json, Json), caseSensitive: bool)
    requires Strcmp(p, q) > 0 && CompareStrings(q, p, false) >= 0
    requires r.0.Object? && |r.0.members| == 2 && r.1.Object? && |r.1.members| == 1 && r.1.members[0].key == q
    requires var k := if CompareStrings(p, q, caseSensitive) < 0 then 0 else 1;
             r.0.members[k].key == p && r.0.members[1 - k].key == q
    ensures !Invertible(r.0, r.1, false)
  {
    hide SortList, Strcmp, CompareStrings, AddedEarly, RemovedEarly, ValueInvertible;
    var m := r.0.members;
    BelowIgnoringCase(p, q, caseSensitive);
    TwoSorted(m[0], m[1], false);
    OneMember(r.1.members[0], false);
    var s, t := SortList(m, false), SortList(r.1.members, false);
    assert m == [m[0], m[1]] && r.1.members == [r.1.members[0]];
    assert s[0].key == p && s[1].key == q;
    WalkAddsEarly(s, t);
    assert Has(m, q) by { HasMeans(m, q); }
    assert !MemberInvertible(m, r.1, 0, false);
  }

  lemma {:induction false} BelowIgnoringCase(p: string, q: string, caseSensitive: bool)
    requires Strcmp(p, q) > 0 && CompareStrings(q, p, false) >= 0
    ensures if caseSensitive then CompareStrings(p, q, caseSensitive) >= 0 else true
  {
  }

  lemma {:induction false} TwoSorted(x: Member, y: Member, caseSensitive: bool)
    ensures SortList([x, y], caseSensitive) == if Below(x, y, caseSensitive) then [x, y] else [y, x]
  {
    hide Below;
    var ms := [x, y];
    OneMember(x, caseSensitive);
    OneMember(y, caseSensitive);
    assert ms[..1] == [x] && ms[1..] == [y] && [y][1..] == [] && InOrder([y], caseSensitive);
    if !Below(x, y, caseSensitive) {
      assert SortList(ms, caseSensitive) == Merge([x], [y], caseSensitive);
      assert Merge([x], [y], caseSensitive) == [y] + Merge([x], [], caseSensitive);
    }
  }

  /** What compare_json leaves of two members and one: their keys, in order. */
  lemma {:induction false} TwoReordered(s: seq<Member>, t: seq<Member>, caseSensitive: bool)
    requires |s| == 2 && |t| == 1 && DistinctValues(s) && DistinctValues(t)
    ensures var r := Reordered(Object(s), Object(t), caseSensitive);
            && r.0.Object? && |r.0.members| == 2 && r.1.Object? && |r.1.members| == 1 && r.1.members[0].key == t[0].key
            && var k := if CompareStrings(s[0].key, s[1].key, caseSensitive) < 0 then 0 else 1;
            r.0.members[k].key == s[0].key && r.0.members[1 - k].key == s[1].key
  {
    hide SortList, CompareStrings, ReorderedMembers, Distinct, Alike;
    assert s == [s[0], s[1]] && t == [t[0]];
    TwoSorted(s[0], s[1], caseSensitive);
    OneMember(t[0], caseSensitive);
    AllInSort(t, caseSensitive);
    var a, b := SortList(s, caseSensitive), SortList(t, caseSensitive);
    ReorderedMembersAlike(a, b, Object(t), caseSensitive);
    var r := ReorderedMembers(a, b, Object(t), caseSensitive);
    assert AlikeMember(a[0], r.0[0]) && AlikeMember(a[1], r.0[1]) && AlikeMember(b[0], r.1[0]);
  }

  lemma {:induction false} WalkAddsEarly(s: seq<Member>, t: seq<Member>)
    requires |s| == 2 && |t| == 1 && t[0].key == s[1].key && Strcmp(s[0].key, s[1].key) > 0
    ensures AddedEarly(s, t, t[0].key) && !RemovedEarly(s, t, t[0].key)
  {
    hide Strcmp;
    assert t[1..] == [];
    HasMeans(s, t[0].key);
    EarlyMeansBoth(s, [], t[0].key);
    assert !Has([], t[0].key);
  }

  /** Members `a` and `A`, or `a` and `B`, of which the second stays. */
  lemma {:induction false} NestedCounterexample(one: Json, two: Json, caseSensitive: bool)
    requires Distinct(one) && Distinct(two) && !two.Null? && NoNullMembers(two)
    ensures forall q | q in {"A", "B"} ::
              var source := Wrapped("x", Object([Member("a", one), Member(q, two)]));
              var target := Wrapped("x", Object([Member(q, two)]));
              !Inverts(source, target, GenerateMerge(source, target, caseSensitive))
  {
    hide Inverts, GenerateMerge;
    forall q | q in {"A", "B"}
      ensures Strcmp("a", q) > 0 && CompareStrings(q, "a", false) >= 0
    {
      assert "a"[1..] == "" && "A"[1..] == "" && "B"[1..] == "" && LowerAll("") == "";
    }
    OrderCounterexample("a", "A", one, two, caseSensitive);
    OrderCounterexample("a", "B", one, two, caseSensitive);
  }

  /** Sorting is not idempotent: keys that are equal ignoring case are exchanged every time. */
  lemma {:induction false} SortTwice(x: Member, y: Member)
    requires CompareStrings(x.key, y.key, false) == 0
    ensures SortList([x, y], false) == [y, x] && SortList(SortList([x, y], false), false) == [x, y]
  {
    hide SortList, Strcmp, LowerAll;
    StrcmpOpposite(LowerAll(x.key), LowerAll(y.key));
    StrcmpOpposite(LowerAll(y.key), LowerAll(x.key));
    TwoSorted(x, y, false);
    TwoSorted(y, x, false);
  }

  /** With different numbers of members, objects are not equal, however case is treated. */
  lemma {:induction false} ComparedApart(s: seq<Member>, t: seq<Member>, caseSensitive: bool)
    requires |s| == 2 && |t| == 1
    ensures !CompareJson(Object(s), Object(t), caseSensitive)
  {
    hide SortList, CompareStrings, CompareMembers;
    AllInSort(t, caseSensitive);
    SameSize(s, caseSensitive);
    SameSize(t, caseSensitive);
    var whole := Object(t);
    if CompareJson(Object(s), whole, caseSensitive) {
      assert forall m :: m in SortList(t, caseSensitive) ==> m in whole.members;
      ComparedSizes(SortList(s, caseSensitive), SortList(t, caseSensitive), whole, caseSensitive);
    }
  }

  lemma {:induction false} ComparedSizes(a: seq<Member>, b: seq<Member>, whole: Json, caseSensitive: bool)
    requires whole.Object? && (forall m :: m in b ==> m in whole.members) && CompareMembers(a, b, whole, caseSensitive)
    ensures |a| == |b|
  {
    hide CompareStrings, CompareJson;
    if a != [] && b != [] {
      assert b[0] in whole.members;
      ComparedSizes(a[1..], b[1..], whole, caseSensitive);
    }
  }

  lemma {:induction false} SameSize(ms: seq<Member>, caseSensitive: bool)
    ensures |SortList(ms, caseSensitive)| == |ms|
  {
    SortPermutes(ms, caseSensitive);
    assert |multiset(SortList(ms, caseSensitive))| == |multiset(ms)|;
  }

  // ----- As loops over the members -----

  /** merge_patch */
  method RunMergePatch(target: Option<Json>, patch: Json, caseSensitive: bool) returns (r: Json)
    ensures r == MergePatch(target, patch, caseSensitive)
    decreases patch
  {
    hide Dropped, Taken;
    if !patch.Object? {
      return patch;
    }
    var members := if target.Some? && target.value.Object? then target.value.members else [];
    ghost var first := members;
    var i: nat := 0;
    while i < |patch.members|
      invariant i <= |patch.members|
      invariant MergeMembers(first, patch.members, patch, caseSensitive)
                == MergeMembers(members, patch.members[i..], patch, caseSensitive)
    {
      var m := patch.members[i];
      assert patch.members[i..][0] == m && patch.members[i..][1..] == patch.members[i + 1..];
      if m.value.Null? {
        members := Dropped(members, m.key, caseSensitive);
      } else {
        var replacement := RunMergePatch(Taken(members, m.key, caseSensitive), m.value, caseSensitive);
        members := Dropped(members, m.key, caseSensitive) + [Member(m.key, replacement)];
      }
      i := i + 1;
    }
    r := Object(members);
  }

  /** generate_merge_patch */
  method RunGenerateMerge(source: Json, target: Json, caseSensitive: bool) returns (patch: Option<Json>)
    ensures patch == GenerateMerge(source, target, caseSensitive)
    decreases Height(target), 1
  {
    hide SortList, CompareHeads, CompareJson, GenerateMembers, Height;
    if !target.Object? || !source.Object? {
      return Some(target);
    }
    AllInSort(target.members, caseSensitive);
    var s, t := SortList(source.members, caseSensitive), SortList(target.members, caseSensitive);
    var members: seq<Member> := [];
    var i: nat, j: nat := 0, 0;
    while i < |s| || j < |t|
      invariant i <= |s| && j <= |t|
      invariant GenerateMembers(s, t, target, caseSensitive)
                == members + GenerateMembers(s[i..], t[j..], target, caseSensitive)
      decreases |s| - i + |t| - j
    {
      var more;
      i, j, more := GenerateStep(s, t, i, j, target, caseSensitive);
      ghost var rest := GenerateMembers(s[i..], t[j..], target, caseSensitive);
      assert members + (more + rest) == members + more + rest;
      members := members + more;
    }
    GenerateEnd(target, caseSensitive);
    assert s[i..] == [] && t[j..] == [] && members + [] == members;
    patch := if members == [] then None else Some(Object(members));
  }

  lemma {:induction false} GenerateEnd(target: Json, caseSensitive: bool)
    requires target.Object?
    ensures GenerateMembers([], [], target, caseSensitive) == []
  {
  }

  /** One round of the walk along the two lists. */
  method GenerateStep(s: seq<Member>, t: seq<Member>, i: nat, j: nat, target: Json, caseSensitive: bool)
    returns (i': nat, j': nat, more: seq<Member>)
    requires target.Object? && (forall m :: m in t ==> m in target.members)
    requires i <= |s| && j <= |t| && (i < |s| || j < |t|)
    ensures i <= i' <= |s| && j <= j' <= |t| && i + j < i' + j'
    ensures GenerateMembers(s[i..], t[j..], target, caseSensitive)
            == more + GenerateMembers(s[i'..], t[j'..], target, caseSensitive)
    decreases Height(target), 0
  {
    hide SortList, CompareHeads, CompareJson, GenerateMerge, Height, Reordered;
    var diff := CompareHeads(s[i..], t[j..], true);
    i', j' := i, j;
    if diff < 0 {
      assert s[i..][1..] == s[i + 1..];
      more := [Member(s[i].key, Null)];
      i' := i + 1;
    } else if diff > 0 {
      assert t[j..][1..] == t[j + 1..];
      more := [Member(t[j].key, t[j].value)];
      j' := j + 1;
    } else {
      assert s[i..][1..] == s[i + 1..] && t[j..][1..] == t[j + 1..] && t[j] in target.members;
      more := [];
      // compare_json leaves both values sorted
      var r := Reordered(s[i].value, t[j].value, caseSensitive);
      if !CompareJson(s[i].value, t[j].value, caseSensitive) {
        MemberLower(t[j], target);
        ReorderedHeight(s[i].value, t[j].value, caseSensitive);
        var change := RunGenerateMerge(r.0, r.1, false);
        if change.Some? { more := [Member(t[j].key, change.value)]; }
      }
      assert more == ChangedMember(t[j].key, s[i].value, t[j].value, caseSensitive);
      i', j' := i + 1, j + 1;
    }
  }
}

/** create_patches: the operations that lead from one document to another. */
module JsonDiff {
  import opened JsonTree
  import opened JsonPointer
  import opened JsonSort
  import opened JsonCompare
  import opened JsonPatch
  import opened Options

  // ----- create_patches -----

  function ReplaceBy(path: string, value: Json): Patch { Patch(Replace, path, Some(value), None) }

  function AddAt(path: string, value: Json): Patch { Patch(Add, path, Some(value), None) }

  function RemoveAt(path: string): Patch { Patch(Remove, path, None, None) }

  function Diff(path: string, source: Json, target: Json, caseSensitive: bool): seq<Patch>
    decreases target
  {
    if !SameType(source, target) then [ReplaceBy(path, target)]
    else
      match target
      case Number(i, d) => if source.int32 != i || !SameDouble(source.double, d) then [ReplaceBy(path, target)] else []
      case String(s) => if source.text != s then [ReplaceBy(path, target)] else []
      case Array(items) => DiffItems(path, source.items, items, 0, target, caseSensitive)
      case Object(members) =>
        AllInSort(members, caseSensitive);
        DiffMembers(path, SortList(source.members, caseSensitive), SortList(members, caseSensitive), target,
                    caseSensitive)
      case _ => []
  }

  /** The elements that both arrays have, then those that only one has; `index` elements are done. */
  function DiffItems(path: string, source: seq<Json>, target: seq<Json>, index: nat, whole: Json, caseSensitive: bool)
    : seq<Patch>
    requires whole.Array? && forall j :: j in target ==> j in whole.items
    decreases whole, |target|
  {
    if source == [] then AddItems(path, target)
    else if target == [] then RemoveItems(path, index, |source|)
    else
      assert target[0] in target;
      Diff(path + "/" + Decimal(index), source[0], target[0], caseSensitive) +
      DiffItems(path, source[1..], target[1..], index + 1, whole, caseSensitive)
  }

  function AddItems(path: string, target: seq<Json>): seq<Patch> {
    if target == [] then [] else [AddAt(path + "/" + Escape("-"), target[0])] + AddItems(path, target[1..])
  }

  /** Each removal moves the next element to the same place. */
  function RemoveItems(path: string, index: nat, n: nat): seq<Patch> {
    if n == 0 then [] else [RemoveAt(path + "/" + Escape(Decimal(index)))] + RemoveItems(path, index, n - 1)
  }

  /** Which of two lists comes first; an empty list comes last. */
  function CompareHeads(source: seq<Member>, target: seq<Member>, caseSensitive: bool): (diff: int)
    requires source != [] || target != []
    ensures diff <= 0 ==> source != []
    ensures diff >= 0 ==> target != []
  {
    if source == [] then 1 else if target == [] then -1
    else CompareStrings(source[0].key, target[0].key, caseSensitive)
  }

  /** Walk along two sorted lists of members. */
  function DiffMembers(path: string, source: seq<Member>, target: seq<Member>, whole: Json, caseSensitive: bool)
    : seq<Patch>
    requires whole.Object? && forall m :: m in target ==> m in whole.members
    decreases whole, |source| + |target|
  {
    if source == [] && target == [] then []
    else
      var diff := CompareHeads(source, target, caseSensitive);
      if diff == 0 then
        assert target[0] in whole.members;
        Diff(path + "/" + Escape(source[0].key), source[0].value, target[0].value, caseSensitive) +
        DiffMembers(path, source[1..], target[1..], whole, caseSensitive)
      else if diff < 0 then
        [RemoveAt(path + "/" + Escape(source[0].key))] + DiffMembers(path, source[1..], target, whole, caseSensitive)
      else
        [AddAt(path + "/" + Escape(target[0].key), target[0].value)] +
        DiffMembers(path, source, target[1..], whole, caseSensitive)
  }

  lemma {:induction false} HeadsDiffer(source: seq<Member>, target: seq<Member>)
    requires (source != [] || target != []) && Sorted(source, true) && Sorted(target, true)
    ensures var diff := CompareHeads(source, target, true);
            && (diff == 0 ==> source[0].key == target[0].key)
            && (diff < 0 ==> !Has(target, source[0].key))
            && (diff > 0 ==> !Has(source, target[0].key))
  {
    hide Strcmp, Sorted;
    if source != [] && target != [] {
      StrcmpEqual(source[0].key, target[0].key);
      StrcmpOpposite(target[0].key, source[0].key);
      HeadKey(target, source[0].key);
      HeadKey(source, target[0].key);
    }
  }

  // ----- Paths below a common prefix -----

  function Prefixed(p: string, patches: seq<Patch>): (r: seq<Patch>)
    ensures |r| == |patches|
  {
    if patches == [] then [] else [patches[0].(path := p + patches[0].path)] + Prefixed(p, patches[1..])
  }

  lemma {:induction false} PrefixedConcat(p: string, a: seq<Patch>, b: seq<Patch>)
    ensures Prefixed(p, a + b) == Prefixed(p, a) + Prefixed(p, b)
  {
    if a == [] {
      assert a + b == b;
    } else {
      assert (a + b)[1..] == a[1..] + b;
      PrefixedConcat(p, a[1..], b);
    }
  }

  lemma {:induction false} PrefixedTwice(p: string, q: string, a: seq<Patch>)
    ensures Prefixed(p, Prefixed(q, a)) == Prefixed(p + q, a)
  {
    if a != [] {
      PrefixedTwice(p, q, a[1..]);
      assert p + (q + a[0].path) == p + q + a[0].path;
      assert Prefixed(q, a)[1..] == Prefixed(q, a[1..]);
    }
  }

  lemma {:induction false} PrefixedOne(p: string, patch: Patch)
    ensures Prefixed(p, [patch]) == [patch.(path := p + patch.path)]
  {
  }

  lemma {:induction false} DiffPrefix(p: string, source: Json, target: Json, caseSensitive: bool)
    ensures Diff(p, source, target, caseSensitive) == Prefixed(p, Diff("", source, target, caseSensitive))
    decreases target, 1, 0
  {
    hide SortList, SameDouble, DiffItems, DiffMembers, Prefixed;
    PrefixedOne(p, ReplaceBy("", target));
    assert p + "" == p;
    PrefixedNone(p);
    if source.Array? && target.Array? {
      DiffItemsPrefix(p, source.items, target.items, 0, target, caseSensitive);
    } else if source.Object? && target.Object? {
      AllInSort(target.members, caseSensitive);
      DiffMembersPrefix(p, SortList(source.members, caseSensitive), SortList(target.members, caseSensitive), target,
                        caseSensitive);
    }
  }

  lemma {:induction false} PrefixedNone(p: string)
    ensures Prefixed(p, []) == []
  {
  }

  /** The patches for a child of both documents. */
  lemma {:induction false} DiffChildPrefix(p: string, token: string, source: Json, target: Json, caseSensitive: bool)
    ensures Diff(p + "/" + token, source, target, caseSensitive)
            == Prefixed(p, Diff("" + "/" + token, source, target, caseSensitive))
    decreases target, 2, 0
  {
    hide Diff, Prefixed;
    DiffPrefix(p + "/" + token, source, target, caseSensitive);
    DiffPrefix("/" + token, source, target, caseSensitive);
    PrefixedTwice(p, "/" + token, Diff("", source, target, caseSensitive));
    assert p + "/" + token == p + ("/" + token) && "" + "/" + token == "/" + token;
  }

  lemma {:induction false} AddItemsPrefix(p: string, target: seq<Json>)
    ensures AddItems(p, target) == Prefixed(p, AddItems("", target))
  {
    hide Escape;
    if target != [] {
      AddItemsPrefix(p, target[1..]);
      assert p + "/" + Escape("-") == p + ("" + "/" + Escape("-"));
    }
  }

  lemma {:induction false} RemoveItemsPrefix(p: string, index: nat, n: nat)
    ensures RemoveItems(p, index, n) == Prefixed(p, RemoveItems("", index, n))
  {
    hide Escape, Decimal;
    if n != 0 {
      RemoveItemsPrefix(p, index, n - 1);
      assert p + "/" + Escape(Decimal(index)) == p + ("" + "/" + Escape(Decimal(index)));
    }
  }

  lemma {:induction false} DiffItemsPrefix(p: string, source: seq<Json>, target: seq<Json>, index: nat, whole: Json,
                                           caseSensitive: bool)
    requires whole.Array? && forall j :: j in target ==> j in whole.items
    ensures DiffItems(p, source, target, index, whole, caseSensitive)
            == Prefixed(p, DiffItems("", source, target, index, whole, caseSensitive))
    decreases whole, 0, |target|
  {
    hide Diff, Prefixed, Decimal, AddItems, RemoveItems;
    AddItemsPrefix(p, target);
    RemoveItemsPrefix(p, index, |source|);
    if source != [] && target != [] {
      assert target[0] in target;
      DiffChildPrefix(p, Decimal(index), source[0], target[0], caseSensitive);
      DiffItemsPrefix(p, source[1..], target[1..], index + 1, whole, caseSensitive);
      PrefixedConcat(p, Diff("" + "/" + Decimal(index), source[0], target[0], caseSensitive),
                     DiffItems("", source[1..], target[1..], index + 1, whole, caseSensitive));
    }
  }

  lemma {:induction false} PrefixedFirst(p: string, token: string, a: Patch, rest: seq<Patch>)
    requires a.path == "" + "/" + token
    ensures Prefixed(p, [a] + rest) == [a.(path := p + "/" + token)] + Prefixed(p, rest)
  {
    assert ([a] + rest)[1..] == rest;
    assert p + ("" + "/" + token) == p + "/" + token;
  }

  lemma {:induction false} DiffMembersPrefix(p: string, source: seq<Member>, target: seq<Member>, whole: Json,
                                             caseSensitive: bool)
    requires whole.Object? && forall m :: m in target ==> m in whole.members
    ensures DiffMembers(p, source, target, whole, caseSensitive)
            == Prefixed(p, DiffMembers("", source, target, whole, caseSensitive))
    decreases whole, 0, |source| + |target|
  {
    hide Diff, Prefixed, Escape, CompareHeads;
    if source == [] && target == [] {
      PrefixedNone(p);
    } else {
      var diff := CompareHeads(source, target, caseSensitive);
      if diff == 0 {
        assert target[0] in whole.members;
        DiffChildPrefix(p, Escape(source[0].key), source[0].value, target[0].value, caseSensitive);
        DiffMembersPrefix(p, source[1..], target[1..], whole, caseSensitive);
        PrefixedConcat(p, Diff("" + "/" + Escape(source[0].key), source[0].value, target[0].value, caseSensitive),
                       DiffMembers("", source[1..], target[1..], whole, caseSensitive));
      } else if diff < 0 {
        DiffMembersPrefix(p, source[1..], target, whole, caseSensitive);
        PrefixedFirst(p, Escape(source[0].key), RemoveAt("" + "/" + Escape(source[0].key)),
                      DiffMembers("", source[1..], target, whole, caseSensitive));
      } else {
        DiffMembersPrefix(p, source, target[1..], whole, caseSensitive);
        PrefixedFirst(p, Escape(target[0].key), AddAt("" + "/" + Escape(target[0].key), target[0].value),
                      DiffMembers("", source, target[1..], whole, caseSensitive));
      }
    }
  }
}

/** create_patches as it appends to the array of patches, and the round trip through JSON. */
module JsonCreate {
  import opened JsonTree
  import opened JsonPointer
  import opened JsonSort
  import opened JsonCompare
  import opened JsonPatch
  import opened JsonDiff
  import opened JsonPatchable
  import opened JsonDiffApply
  import opened JsonEdit
  import opened Options

  /** The JSON array that create_patches fills. */
  class PatchArray {
    var items: seq<Json>

    constructor ()
      ensures items == []
    {
      items := [];
    }

    /** compose_patch */
    method Compose(operation: Operation, path: string, suffix: Option<string>, value: Option<Json>)
      modifies this
      ensures var full := if suffix.None? then path else path + "/" + Escape(suffix.value);
              items == old(items) + [PatchNode(Patch(operation, full, value, None))]
    {
      var fullPath := if suffix.None? then path else path + "/" + Escape(suffix.value);
      items := items + [PatchNode(Patch(operation, fullPath, value, None))];
    }

    method ReplaceAll(path: string, value: Json)
      modifies this
      ensures items == old(items) + PatchNodes([ReplaceBy(path, value)])
    {
      Compose(Replace, path, None, Some(value));
    }

    /** create_patches */
    method CreatePatches(path: string, source: Json, target: Json, caseSensitive: bool)
      modifies this
      ensures items == old(items) + PatchNodes(Diff(path, source, target, caseSensitive))
      decreases target, 1, 0
    {
      hide SortList, SameDouble, DiffItems, DiffMembers, Escape, Decimal, PatchNode;
      if !SameType(source, target) {
        ReplaceAll(path, target);
      } else {
        match target
        case Number(i, d) =>
          if source.int32 != i || !SameDouble(source.double, d) { ReplaceAll(path, target); }
        case String(s) =>
          if source.text != s { ReplaceAll(path, target); }
        case Array(targets) =>
          CreateItemPatches(path, source.items, target, caseSensitive);
        case Object(members) =>
          CreateMemberPatches(path, source.members, target, caseSensitive);
        case _ =>
      }
    }

    /** The case of two arrays. */
    method CreateItemPatches(path: string, sources: seq<Json>, target: Json, caseSensitive: bool)
      requires target.Array?
      modifies this
      ensures items == old(items) + PatchNodes(DiffItems(path, sources, target.items, 0, target, caseSensitive))
      decreases target, 0, |target.items| + 1
    {
      hide Diff, DiffItems, Escape, Decimal, PatchNode, PatchNodes, RemoveItems, AddItems;
      var targets := target.items;
      var index: nat := 0;
      ghost var first := items;
      ghost var done: seq<Patch> := [];
      NoNodes();
      while index < |sources| && index < |targets|
        invariant index <= |sources| && index <= |targets|
        invariant items == first + PatchNodes(done)
        invariant DiffItems(path, sources, targets, 0, target, caseSensitive)
                  == done + DiffItems(path, sources[index..], targets[index..], index, target, caseSensitive)
      {
        ghost var more := Diff(path + "/" + Decimal(index), sources[index], targets[index], caseSensitive);
        CreatePatches(path + "/" + Decimal(index), sources[index], targets[index], caseSensitive);
        ItemsStep(path, sources, target, index, caseSensitive);
        ghost var rest := DiffItems(path, sources[index + 1..], targets[index + 1..], index + 1, target, caseSensitive);
        assert done + (more + rest) == done + more + rest;
        NodesConcat(done, more);
        assert items == first + (PatchNodes(done) + PatchNodes(more));
        done := done + more;
        index := index + 1;
      }
      ItemsEnd(path, sources, target, index, caseSensitive);
      ghost var left := if index < |sources| then RemoveItems(path, index, |sources| - index)
                        else AddItems(path, targets[index..]);
      NodesConcat(done, left);
      assert first + (PatchNodes(done) + PatchNodes(left)) == first + PatchNodes(done) + PatchNodes(left);
      if index < |sources| {
        RemoveLeftovers(path, index, |sources| - index);
      } else {
        AddLeftovers(path, targets, index);
      }
    }

    /** Remove the elements that only the source has. */
    method RemoveLeftovers(path: string, index: nat, count: nat)
      modifies this
      ensures items == old(items) + PatchNodes(RemoveItems(path, index, count))
    {
      hide Escape, Decimal, PatchNode;
      var n: nat := count;
      ghost var done: seq<Patch> := [];
      while n > 0
        invariant n <= count && items == old(items) + PatchNodes(done)
        invariant RemoveItems(path, index, count) == done + RemoveItems(path, index, n)
      {
        Compose(Remove, path, Some(Decimal(index)), None);
        ghost var one := RemoveAt(path + "/" + Escape(Decimal(index)));
        AppendNode(done, one, RemoveItems(path, index, n - 1));
        done := done + [one];
        n := n - 1;
      }
      assert done + [] == done;
    }

    /** Add the elements that only the target has. */
    method AddLeftovers(path: string, targets: seq<Json>, index: nat)
      requires index <= |targets|
      modifies this
      ensures items == old(items) + PatchNodes(AddItems(path, targets[index..]))
    {
      hide Escape, PatchNode;
      var n: nat := index;
      ghost var done: seq<Patch> := [];
      while n < |targets|
        invariant index <= n <= |targets| && items == old(items) + PatchNodes(done)
        invariant AddItems(path, targets[index..]) == done + AddItems(path, targets[n..])
      {
        assert targets[n..][1..] == targets[n + 1..];
        Compose(Add, path, Some("-"), Some(targets[n]));
        ghost var one := AddAt(path + "/" + Escape("-"), targets[n]);
        AppendNode(done, one, AddItems(path, targets[n + 1..]));
        done := done + [one];
        n := n + 1;
      }
      assert targets[n..] == [] && done + [] == done;
    }

    /** The case of two objects: sort them and walk along both. */
    method CreateMemberPatches(path: string, sources: seq<Member>, target: Json, caseSensitive: bool)
      requires target.Object?
      modifies this
      ensures forall m :: m in SortList(target.members, caseSensitive) ==> m in target.members
      ensures var s, t := SortList(sources, caseSensitive), SortList(target.members, caseSensitive);
              items == old(items) + PatchNodes(DiffMembers(path, s, t, target, caseSensitive))
      decreases target, 0, 1
    {
      hide Diff, DiffMembers, Escape, PatchNode, PatchNodes, SortList, CompareHeads;
      var s, t := SortList(sources, caseSensitive), SortList(target.members, caseSensitive);
      AllInSort(target.members, caseSensitive);
      var i: nat, j: nat := 0, 0;
      ghost var first := items;
      ghost var done: seq<Patch> := [];
      NoNodes();
      while i < |s| || j < |t|
        invariant i <= |s| && j <= |t|
        invariant items == first + PatchNodes(done)
        invariant DiffMembers(path, s, t, target, caseSensitive)
                  == done + DiffMembers(path, s[i..], t[j..], target, caseSensitive)
        decreases |s| - i + |t| - j
      {
        ghost var before := items;
        ghost var more;
        i, j, more := MemberStep(path, s, t, i, j, target, caseSensitive);
        ghost var rest := DiffMembers(path, s[i..], t[j..], target, caseSensitive);
        assert done + (more + rest) == done + more + rest;
        NodesConcat(done, more);
        assert items == first + (PatchNodes(done) + PatchNodes(more));
        done := done + more;
      }
      MembersEnd(path, target, caseSensitive);
      assert s[i..] == [] && t[j..] == [] && done + [] == done;
    }

    /** One round of the walk along the two sorted lists. */
    method MemberStep(path: string, s: seq<Member>, t: seq<Member>, i: nat, j: nat, target: Json, caseSensitive: bool)
      returns (i': nat, j': nat, ghost more: seq<Patch>)
      requires target.Object? && (forall m :: m in t ==> m in target.members)
      requires i <= |s| && j <= |t| && (i < |s| || j < |t|)
      modifies this
      ensures i <= i' <= |s| && j <= j' <= |t| && i + j < i' + j'
      ensures items == old(items) + PatchNodes(more)
      ensures DiffMembers(path, s[i..], t[j..], target, caseSensitive)
              == more + DiffMembers(path, s[i'..], t[j'..], target, caseSensitive)
      decreases target, 0, 0
    {
      hide Diff, Escape, PatchNode, PatchNodes, CompareHeads;
      var diff := CompareHeads(s[i..], t[j..], caseSensitive);
      i', j' := i, j;
      if diff == 0 {
        assert s[i..][1..] == s[i + 1..] && t[j..][1..] == t[j + 1..] && t[j] in target.members;
        CreatePatches(path + "/" + Escape(s[i].key), s[i].value, t[j].value, caseSensitive);
        more := Diff(path + "/" + Escape(s[i].key), s[i].value, t[j].value, caseSensitive);
        i', j' := i + 1, j + 1;
      } else if diff < 0 {
        assert s[i..][1..] == s[i + 1..];
        Compose(Remove, path, Some(s[i].key), None);
        more := [RemoveAt(path + "/" + Escape(s[i].key))];
        OneNode(more[0]);
        i' := i + 1;
      } else {
        assert t[j..][1..] == t[j + 1..];
        Compose(Add, path, Some(t[j].key), Some(t[j].value));
        more := [AddAt(path + "/" + Escape(t[j].key), t[j].value)];
        OneNode(more[0]);
        j' := j + 1;
      }
    }
  }

  lemma {:induction false} MembersEnd(path: string, target: Json, caseSensitive: bool)
    requires target.Object?
    ensures DiffMembers(path, [], [], target, caseSensitive) == []
  {
  }

  lemma {:induction false} NoNodes()
    ensures PatchNodes([]) == []
  {
  }

  /** One more patch at the end of those that are done. */
  lemma {:induction false} AppendNode(done: seq<Patch>, one: Patch, rest: seq<Patch>)
    ensures PatchNodes(done + [one]) == PatchNodes(done) + [PatchNode(one)]
    ensures done + ([one] + rest) == done + [one] + rest
  {
    hide PatchNode, PatchNodes;
    NodesConcat(done, [one]);
    OneNode(one);
  }

  lemma {:induction false} ItemsStep(path: string, sources: seq<Json>, target: Json, index: nat, caseSensitive: bool)
    requires target.Array? && index < |sources| && index < |target.items|
    ensures DiffItems(path, sources[index..], target.items[index..], index, target, caseSensitive)
            == Diff(path + "/" + Decimal(index), sources[index], target.items[index], caseSensitive) +
               DiffItems(path, sources[index + 1..], target.items[index + 1..], index + 1, target, caseSensitive)
  {
    hide Diff, Decimal;
    assert sources[index..][1..] == sources[index + 1..] && target.items[index..][1..] == target.items[index + 1..];
  }

  lemma {:induction false} ItemsEnd(path: string, sources: seq<Json>, target: Json, index: nat, caseSensitive: bool)
    requires target.Array? && index <= |sources| && index <= |target.items|
    requires index == |sources| || index == |target.items|
    ensures DiffItems(path, sources[index..], target.items[index..], index, target, caseSensitive)
            == if index < |sources| then RemoveItems(path, index, |sources| - index)
               else AddItems(path, target.items[index..])
  {
    hide Diff, Decimal, AddItems, RemoveItems;
  }

  lemma {:induction false} OneNode(p: Patch)
    ensures PatchNodes([p]) == [PatchNode(p)]
  {
    assert [p][1..] == [];
  }

  lemma {:induction false} NodesConcat(a: seq<Patch>, b: seq<Patch>)
    ensures PatchNodes(a + b) == PatchNodes(a) + PatchNodes(b)
  {
    hide PatchNode;
    if a == [] {
      assert a + b == b;
    } else {
      assert (a + b)[1..] == a[1..] + b;
      NodesConcat(a[1..], b);
    }
  }

  /**
   * cJSONUtils_GeneratePatchesCaseSensitive and then cJSONUtils_ApplyPatchesCaseSensitive to a fresh duplicate of the
   * source: the status is 0 and the result matches the target.
   */
  method GenerateAndApply(source: Json, target: Json) returns (status: nat, result: Json)
    requires Distinct(target) && Patchable(source, target)
    ensures status == 0 && Matches(result, target)
  {
    hide Diff, ApplyAll, ApplyNodes, PatchNodes, Patchable, Distinct, Matches, Inner;
    var patches := new PatchArray();
    patches.CreatePatches("", source, target, true);
    var applied := ApplyPatches(source, Array(patches.items), true);
    status, result := applied.0, applied.1;
    ghost var d := Diff("", source, target, true);
    assert [] + PatchNodes(d) == PatchNodes(d);
    DiffApplies(source, target);
    DiffWritten(source, target);
    AppliesWritten(source, d);
  }

  lemma {:induction false} DiffWritten(source: Json, target: Json)
    ensures Written(Diff("", source, target, true))
  {
    hide Diff;
    DiffShape(source, target);
  }
}

/** sort_list on the linked list itself: the links end up in the order that SortList gives. */
module ChildSort {
  import opened JsonTree
  import opened JsonSort
  import opened ChildList

  /** A node of the list, with its key. */
  type Child = Item<Member>

  type MaybeChild = Item?<Member>

  function Members(s: seq<Child>): seq<Member> { seq(|s|, i requires 0 <= i < |s| => s[i].content) }

  /** The item at an index, or null past the end. */
  function At(s: seq<Child>, i: nat): MaybeChild { if i < |s| then s[i] else null }

  function Nodes(s: seq<Child>): set<Child> { set x | x in s }

  lemma {:induction false} AmongNodes(s: seq<Child>, x: Child)
    ensures x in Nodes(s) <==> x in s
  {
  }

  lemma {:induction false} NodesAppend(s: seq<Child>, t: seq<Child>)
    ensures Nodes(s + t) == Nodes(s) + Nodes(t)
  {
  }

  lemma {:induction false} ConcatDistinct(s: seq<Child>, t: seq<Child>)
    requires AllDistinct(s) && AllDistinct(t) && Nodes(s) !! Nodes(t)
    ensures AllDistinct(s + t)
  {
    forall i, j | 0 <= i < |s| && 0 <= j < |t|
      ensures s[i] != t[j]
    {
      assert s[i] in Nodes(s) && t[j] in Nodes(t);
    }
  }

  lemma {:induction false} PartsDistinct(s: seq<Child>, i: nat)
    requires AllDistinct(s) && i <= |s|
    ensures AllDistinct(s[..i]) && AllDistinct(s[i..]) && Nodes(s[..i]) !! Nodes(s[i..])
    ensures Nodes(s) == Nodes(s[..i]) + Nodes(s[i..])
  {
    assert s == s[..i] + s[i..];
    NodesAppend(s[..i], s[i..]);
  }

  // ----- Merging two chains -----

  /** The merged part: linked both ways, but for the next of its last item. */
  ghost predicate JoinedAt(s: seq<Child>, i: nat)
    requires i < |s|
    reads s[i]
  {
    (i + 1 < |s| ==> s[i].next == s[i + 1]) && (i > 0 ==> s[i].prev == s[i - 1])
  }

  /** Where the merge of two lists has come to. */
  ghost predicate Merging(a: seq<Child>, b: seq<Child>, i: nat, j: nat, out: seq<Child>, caseSensitive: bool)
    reads a, b, out
  {
    && i <= |a| && j <= |b| && AllDistinct(out) && Nodes(out) == Nodes(a[..i]) + Nodes(b[..j])
    && (forall k :: 0 <= k < |out| ==> JoinedAt(out, k))
    && (forall k :: i <= k < |a| ==> ChainedAt(a, k))
    && (forall k :: j <= k < |b| ==> ChainedAt(b, k))
    && Merge(Members(a), Members(b), caseSensitive)
       == Members(out) + Merge(Members(a[i..]), Members(b[j..]), caseSensitive)
  }

  lemma {:induction false} MergeTakesFirst(a: seq<Child>, b: seq<Child>, i: nat, j: nat, out: seq<Child>,
                                           caseSensitive: bool)
    requires i < |a| && j < |b| && Below(a[i].content, b[j].content, caseSensitive)
    ensures Members(out) + Merge(Members(a[i..]), Members(b[j..]), caseSensitive)
            == Members(out + [a[i]]) + Merge(Members(a[i + 1..]), Members(b[j..]), caseSensitive)
  {
    hide Below;
    assert Members(a[i..])[1..] == Members(a[i + 1..]);
    assert Members(out + [a[i]]) == Members(out) + [a[i].content];
  }

  lemma {:induction false} MergeTakesSecond(a: seq<Child>, b: seq<Child>, i: nat, j: nat, out: seq<Child>,
                                            caseSensitive: bool)
    requires i < |a| && j < |b| && !Below(a[i].content, b[j].content, caseSensitive)
    ensures Members(out) + Merge(Members(a[i..]), Members(b[j..]), caseSensitive)
            == Members(out + [b[j]]) + Merge(Members(a[i..]), Members(b[j + 1..]), caseSensitive)
  {
    hide Below;
    assert Members(b[j..])[1..] == Members(b[j + 1..]);
    assert Members(out + [b[j]]) == Members(out) + [b[j].content];
  }

  /** Put the next item at the end of the merged part. */
  method Link(tail: MaybeChild, item: Child, ghost out: seq<Child>)
    requires AllDistinct(out) && item !in out && tail == (if out == [] then null else out[|out| - 1])
    requires forall k :: 0 <= k < |out| ==> JoinedAt(out, k)
    modifies if tail == null then {} else {tail, item}
    ensures tail != null ==> item.next == old(item.next) && tail.prev == old(tail.prev)
    ensures AllDistinct(out + [item]) && forall k :: 0 <= k < |out| + 1 ==> JoinedAt(out + [item], k)
  {
    hide AllDistinct;
    ghost var r := out + [item];
    AppendDistinct(out, item);
    if tail != null {
      tail.next := item;
      item.prev := tail;
    }
    forall k | 0 <= k < |r|
      ensures JoinedAt(r, k)
    {
      if k < |out| {
        assert old(JoinedAt(out, k));
        Different(out, k, |out| - 1);
        assert r[k] == out[k];
      }
    }
  }

  lemma {:induction false} InNodes(s: seq<Child>, i: nat, k: nat)
    requires AllDistinct(s) && i <= |s| && k < |s|
    ensures s[k] in Nodes(s) && (s[k] in Nodes(s[..i]) <==> k < i)
  {
    if k < i {
      assert s[..i][k] == s[k];
    }
  }

  /** Items that are still to come are not in the merged part. */
  lemma {:induction false} NotYet(a: seq<Child>, b: seq<Child>, i: nat, j: nat, out: seq<Child>, k: nat)
    requires AllDistinct(a) && AllDistinct(b) && Nodes(a) !! Nodes(b)
    requires i <= |a| && j <= |b| && Nodes(out) == Nodes(a[..i]) + Nodes(b[..j])
    ensures i <= k < |a| ==> a[k] !in out
    ensures j <= k < |b| ==> b[k] !in out
  {
    hide AllDistinct;
    PartsDistinct(a, i);
    PartsDistinct(b, j);
    if i <= k < |a| {
      InNodes(a, i, k);
      assert a[k] !in Nodes(out);
    }
    if j <= k < |b| {
      InNodes(b, j, k);
      assert b[k] !in Nodes(out);
    }
  }

  lemma {:induction false} TakenNodes(a: seq<Child>, i: nat, out: seq<Child>, others: set<Child>)
    requires i < |a| && Nodes(out) == Nodes(a[..i]) + others
    ensures Nodes(out + [a[i]]) == Nodes(a[..i + 1]) + others
  {
    hide Nodes;
    NodesAppend(out, [a[i]]);
    NodesAppend(a[..i], [a[i]]);
    assert a[..i + 1] == a[..i] + [a[i]];
  }

  /** Take the smaller of the two heads. */
  method TakeSmaller(first: Child, second: Child, tail: MaybeChild, ghost a: seq<Child>, ghost b: seq<Child>,
                     ghost i: nat, ghost j: nat, ghost out: seq<Child>, caseSensitive: bool)
    returns (first': MaybeChild, second': MaybeChild, smaller: Child, ghost i': nat, ghost j': nat)
    requires AllDistinct(a) && AllDistinct(b) && Nodes(a) !! Nodes(b) && Merging(a, b, i, j, out, caseSensitive)
    requires i < |a| && j < |b| && first == a[i] && second == b[j]
    requires tail == (if out == [] then null else out[|out| - 1])
    modifies Nodes(a) + Nodes(b)
    ensures (i' == i + 1 && j' == j) || (i' == i && j' == j + 1)
    ensures Merging(a, b, i', j', out + [smaller], caseSensitive)
    ensures first' == At(a, i') && second' == At(b, j')
    ensures out == [] ==> smaller in {first, second} && smaller.prev == old(smaller.prev)
    ensures out != [] ==> out[0].prev == old(out[0].prev)
  {
    hide AllDistinct, Nodes, Merge, Members, Below;
    assert ChainedAt(a, i) && ChainedAt(b, j);
    InNodes(a, i, i);
    InNodes(b, j, j);
    NotYet(a, b, i, j, out, i);
    NotYet(a, b, i, j, out, j);
    TailNode(a, b, i, j, out);
    first', second', i', j' := first, second, i, j;
    if Below(first.content, second.content, caseSensitive) {
      smaller := first;
      MergeTakesFirst(a, b, i, j, out, caseSensitive);
      TakenNodes(a, i, out, Nodes(b[..j]));
      Link(tail, smaller, out);
      first', i' := first.next, i + 1;
    } else {
      smaller := second;
      MergeTakesSecond(a, b, i, j, out, caseSensitive);
      TakenNodes(b, j, out, Nodes(a[..i]));
      Link(tail, smaller, out);
      second', j' := second.next, j + 1;
    }
    forall k | i' <= k < |a|
      ensures ChainedAt(a, k)
    {
      assert old(ChainedAt(a, k));
      NotYet(a, b, i, j, out, k);
      Different(a, k, i);
      InNodes(a, i, k);
    }
    forall k | j' <= k < |b|
      ensures ChainedAt(b, k)
    {
      assert old(ChainedAt(b, k));
      NotYet(a, b, i, j, out, k);
      Different(b, k, j);
      InNodes(b, j, k);
    }
  }

  lemma {:induction false} TailNode(a: seq<Child>, b: seq<Child>, i: nat, j: nat, out: seq<Child>)
    requires i <= |a| && j <= |b| && Nodes(out) == Nodes(a[..i]) + Nodes(b[..j])
    ensures out != [] ==> out[|out| - 1] in Nodes(a) + Nodes(b) && out[|out| - 1] in out
  {
    if out != [] { assert out[|out| - 1] in Nodes(out); }
  }

  lemma {:induction false} MergingStarts(a: seq<Child>, b: seq<Child>, caseSensitive: bool)
    requires Chained(a) && Chained(b)
    ensures Merging(a, b, 0, 0, [], caseSensitive)
  {
    hide Merge;
    assert a[0..] == a && b[0..] == b;
  }

  /** What is left of one list goes to the end of the merged part. */
  method AppendRest(tail: Child, first: Child, ghost out: seq<Child>, ghost a: seq<Child>, ghost i: nat)
    requires AllDistinct(out) && AllDistinct(a) && i < |a| && first == a[i] && out != [] && tail == out[|out| - 1]
    requires Nodes(out) !! Nodes(a[i..])
    requires forall k :: 0 <= k < |out| ==> JoinedAt(out, k)
    requires forall k :: i <= k < |a| ==> ChainedAt(a, k)
    modifies tail, first
    ensures Chained(out + a[i..]) && out[0].prev == old(out[0].prev)
  {
    hide AllDistinct, Nodes;
    ghost var rest := a[i..];
    ghost var r := out + rest;
    PartsDistinct(a, i);
    ConcatDistinct(out, rest);
    Different(r, |out| - 1, |out|);
    Different(r, 0, |out|);
    tail.next := first;
    first.prev := tail;
    forall k | 0 <= k < |r|
      ensures ChainedAt(r, k)
    {
      Different(r, k, |out|);
      Different(r, k, |out| - 1);
      if k < |out| {
        assert old(JoinedAt(out, k)) && r[k] == out[k];
      } else {
        assert old(ChainedAt(a, i + k - |out|)) && r[k] == a[i + k - |out|];
      }
    }
  }

  lemma {:induction false} RestMembers(a: seq<Child>, b: seq<Child>, i: nat, j: nat, out: seq<Child>,
                                       caseSensitive: bool)
    requires AllDistinct(a) && AllDistinct(b) && Nodes(a) !! Nodes(b) && Merging(a, b, i, j, out, caseSensitive)
    ensures j == |b| ==> var r := out + a[i..];
              Nodes(out) !! Nodes(a[i..]) && Nodes(r) == Nodes(a) + Nodes(b) &&
              Members(r) == Merge(Members(a), Members(b), caseSensitive)
    ensures i == |a| ==> var r := out + b[j..];
              Nodes(out) !! Nodes(b[j..]) && Nodes(r) == Nodes(a) + Nodes(b) &&
              Members(r) == Merge(Members(a), Members(b), caseSensitive)
  {
    hide AllDistinct, Nodes;
    PartsDistinct(a, i);
    PartsDistinct(b, j);
    NodesAppend(out, a[i..]);
    NodesAppend(out, b[j..]);
    assert Members(out + a[i..]) == Members(out) + Members(a[i..]);
    assert Members(out + b[j..]) == Members(out) + Members(b[j..]);
    assert j == |b| ==> b[..j] == b;
    assert i == |a| ==> a[..i] == a;
    MergeNothing(Members(a[i..]), Members(b[j..]), caseSensitive);
  }

  lemma {:induction false} MergeNothing(a: seq<Member>, b: seq<Member>, caseSensitive: bool)
    ensures a == [] ==> Merge(a, b, caseSensitive) == b
    ensures b == [] ==> Merge(a, b, caseSensitive) == a
  {
  }

  /** Merge two sorted, non-empty lists. */
  method MergeLists(list1: Child, list2: Child, ghost a: seq<Child>, ghost b: seq<Child>, caseSensitive: bool)
    returns (result: Child, ghost r: seq<Child>)
    requires Chained(a) && Chained(b) && a != [] && b != [] && list1 == a[0] && list2 == b[0] && Nodes(a) !! Nodes(b)
    modifies Nodes(a) + Nodes(b)
    ensures Chained(r) && r != [] && result == r[0] && Nodes(r) == Nodes(a) + Nodes(b)
    ensures Members(r) == Merge(Members(a), Members(b), caseSensitive)
    ensures result in {list1, list2} && result.prev == old(result.prev)
  {
    hide AllDistinct, Nodes, Merge, Members, Below;
    var first: MaybeChild, second: MaybeChild := list1, list2;
    ghost var i: nat, j: nat, out: seq<Child> := 0, 0, [];
    var tail: MaybeChild, head: MaybeChild := null, null;
    MergingStarts(a, b, caseSensitive);
    while first != null && second != null
      invariant Merging(a, b, i, j, out, caseSensitive) && first == At(a, i) && second == At(b, j)
      invariant tail == (if out == [] then null else out[|out| - 1]) && head == (if out == [] then null else out[0])
      invariant i + j == |out| && (first != null || second != null)
      invariant out != [] ==> out[0] in {list1, list2} && out[0].prev == old(out[0].prev)
      invariant out == [] ==>
                  first == list1 && second == list2 && list1.prev == old(list1.prev) && list2.prev == old(list2.prev)
      decreases |a| - i + |b| - j
    {
      var smaller;
      first, second, smaller, i, j := TakeSmaller(first, second, tail, a, b, i, j, out, caseSensitive);
      out := out + [smaller];
      tail := smaller;
      if head == null { head := smaller; }
    }
    result := head;
    RestMembers(a, b, i, j, out, caseSensitive);
    TailNode(a, b, i, j, out);
    if first != null {
      InNodes(a, i, i);
      AppendRest(tail, first, out, a, i);
      r := out + a[i..];
    } else {
      InNodes(b, j, j);
      AppendRest(tail, second, out, b, j);
      r := out + b[j..];
    }
  }

  // ----- The merge sort -----

  lemma {:induction false} InOrderMeans(ms: seq<Member>, caseSensitive: bool)
    ensures InOrder(ms, caseSensitive) <==> forall i :: 0 <= i < |ms| - 1 ==> Below(ms[i], ms[i + 1], caseSensitive)
  {
    hide Below;
    if |ms| >= 2 {
      InOrderMeans(ms[1..], caseSensitive);
      assert forall i :: 0 <= i < |ms| - 1 ==> ms[1..][i] == ms[i + 1];
      if InOrder(ms, caseSensitive) {
        forall i | 0 <= i < |ms| - 1
          ensures Below(ms[i], ms[i + 1], caseSensitive)
        {
          if i > 0 { assert Below(ms[1..][i - 1], ms[1..][i], caseSensitive); }
        }
      }
    }
  }

  /** Test for list sorted. */
  method TestSorted(list: Child, ghost s: seq<Child>, caseSensitive: bool) returns (sorted: bool)
    requires Chained(s) && s != [] && list == s[0]
    ensures sorted <==> InOrder(Members(s), caseSensitive)
  {
    hide Below, AllDistinct, InOrder;
    var current := list;
    ghost var i: nat := 0;
    assert ChainedAt(s, 0);
    while current.next != null && Below(current.content, current.next.content, caseSensitive)
      invariant i < |s| && current == s[i] && ChainedAt(s, i)
      invariant forall k :: 0 <= k < i ==> Below(Members(s)[k], Members(s)[k + 1], caseSensitive)
      decreases |s| - i
    {
      current := current.next;
      i := i + 1;
      assert ChainedAt(s, i);
    }
    InOrderMeans(Members(s), caseSensitive);
    if current.next != null {
      assert Members(s)[i] == current.content && Members(s)[i + 1] == current.next.content;
    }
    sorted := current.next == null;
  }

  /** Walk two pointers to find the middle. */
  method FindMiddle(list: Child, ghost s: seq<Child>) returns (second: Child)
    requires Chained(s) && |s| >= 2 && list == s[0]
    ensures second == s[(|s| + 1) / 2]
  {
    hide AllDistinct;
    var middle: MaybeChild, current: MaybeChild := list, list;
    ghost var i: nat := 0;
    while current != null
      invariant middle == At(s, i) && 2 * i <= |s| + 1 && current == At(s, 2 * i)
      decreases |s| + 2 - 2 * i
    {
      assert ChainedAt(s, i) && ChainedAt(s, 2 * i);
      middle := middle.next;
      current := current.next;
      if current != null {
        assert ChainedAt(s, 2 * i + 1);
        current := current.next;
      }
      i := i + 1;
    }
    second := middle;
  }

  lemma {:induction false} SortedAlready(s: seq<Child>, caseSensitive: bool)
    ensures |s| < 2 || InOrder(Members(s), caseSensitive) ==> SortList(Members(s), caseSensitive) == Members(s)
  {
    hide InOrder;
    InOrderShort(Members(s), caseSensitive);
  }

  lemma {:induction false} SortStep(s: seq<Child>, half: nat, caseSensitive: bool)
    requires half == (|s| + 1) / 2 && !InOrder(Members(s), caseSensitive)
    ensures SortList(Members(s), caseSensitive)
            == Merge(SortList(Members(s[..half]), caseSensitive), SortList(Members(s[half..]), caseSensitive),
                     caseSensitive)
  {
    hide InOrder, Merge;
    assert Members(s)[..half] == Members(s[..half]) && Members(s)[half..] == Members(s[half..]);
  }

  /** Split the list before an item. */
  method SplitList(second: Child, ghost s: seq<Child>, ghost half: nat)
    requires Chained(s) && 0 < half < |s| && second == s[half]
    modifies Nodes(s)
    ensures Chained(s[..half]) && Chained(s[half..])
    ensures s[0].prev == old(s[0].prev) && second.prev == null
  {
    hide AllDistinct, Nodes;
    ghost var a, b := s[..half], s[half..];
    PartsDistinct(s, half);
    InNodes(s, 0, half);
    InNodes(s, 0, half - 1);
    Different(s, 0, half);
    Different(s, half - 1, half);
    assert ChainedAt(s, half);
    second.prev.next := null;
    second.prev := null;
    forall k | 0 <= k < half
      ensures ChainedAt(a, k)
    {
      assert old(ChainedAt(s, k)) && a[k] == s[k];
      Different(s, k, half);
      Different(s, k, half - 1);
    }
    forall k | 0 <= k < |s| - half
      ensures ChainedAt(b, k)
    {
      assert old(ChainedAt(s, half + k)) && b[k] == s[half + k];
      Different(s, half + k, half);
      Different(s, half + k, half - 1);
    }
  }

  lemma {:induction false} NotEmpty(s: seq<Child>)
    ensures Nodes(s) == {} <==> s == []
    ensures s != [] ==> s[0] in Nodes(s)
  {
    if s != [] { assert s[0] in Nodes(s); }
  }

  lemma {:induction false} Apart(a: seq<Child>, b: seq<Child>)
    requires Nodes(a) !! Nodes(b)
    ensures forall x :: x in b ==> x !in Nodes(a)
  {
  }

  /**
   * sort_list: the same items, linked in the order that SortList gives their members. The prev of the first item, by
   * which the last one is found, is not set: it is what it was if that item was the first one before, and null
   * otherwise.
   */
  method SortItems(list: MaybeChild, ghost s: seq<Child>, caseSensitive: bool)
    returns (result: MaybeChild, ghost r: seq<Child>)
    requires Chained(s) && list == At(s, 0)
    modifies Nodes(s)
    ensures Chained(r) && result == At(r, 0) && Nodes(r) == Nodes(s)
    ensures Members(r) == SortList(Members(s), caseSensitive)
    ensures result != null ==> result.prev == if result == list then old(list.prev) else null
    decreases |s|
  {
    hide AllDistinct, Members, SortList, InOrder, Merge, Nodes;
    assert |s| > 0 ==> ChainedAt(s, 0);
    SortedAlready(s, caseSensitive);
    if list == null || list.next == null {
      return list, s;
    }
    var sorted := TestSorted(list, s, caseSensitive);
    if sorted {
      return list, s;
    }
    var second := FindMiddle(list, s);
    ghost var half := (|s| + 1) / 2;
    ghost var a, b := s[..half], s[half..];
    PartsDistinct(s, half);
    SplitList(second, s, half);
    var first, last;
    ghost var sa, sb;
    NotEmpty(a);
    NotEmpty(b);
    Apart(a, b);
    first, sa := SortItems(list, a, caseSensitive);
    NotEmpty(sa);
    assert second.prev == null && first.prev == if first == list then old(list.prev) else null;
    Apart(b, sa);
    last, sb := SortItems(second, b, caseSensitive);
    NotEmpty(sb);
    assert last.prev == null && last != list && first.prev == if first == list then old(list.prev) else null;
    SortStep(s, half, caseSensitive);
    result, r := MergeLists(first, last, sa, sb, caseSensitive);
  }

  // ----- Sorting an object, and adding to it afterwards -----

  /** The first and the last item are the same. */
  predicate KeepsEnds(s: seq<Child>, r: seq<Child>) {
    s == [] || r == [] || (r[0] == s[0] && r[|r| - 1] == s[|s| - 1])
  }

  /** sort_object: the list is well linked afterwards exactly if its first and last item are still the same. */
  method SortObject(p: Parent<Member>, caseSensitive: bool)
    requires p.Valid()
    modifies p, Nodes(p.items)
    ensures p.Strung() && Nodes(p.items) == Nodes(old(p.items))
    ensures Members(p.items) == SortList(Members(old(p.items)), caseSensitive)
    ensures p.Valid() <==> KeepsEnds(old(p.items), p.items)
    ensures p.items != [] ==>
              old(p.items) != [] &&
              p.items[0].prev == if p.items[0] == old(p.items[0]) then old(p.items[|p.items| - 1]) else null
  {
    hide AllDistinct, SortList, Members, Nodes;
    ghost var s := p.items;
    ValidIsStrung(p);
    NotEmpty(s);
    if s != [] { assert LinkedAt(s, 0); }
    var result;
    ghost var r;
    result, r := SortItems(p.child, s, caseSensitive);
    NotEmpty(r);
    p.child := result;
    p.items := r;
    if s != [] { EndsDecide(p, s); }
  }

  lemma {:induction false} EndsDecide(p: Parent<Member>, s: seq<Child>)
    requires Chained(p.items) && p.child == At(p.items, 0) && Nodes(p.items) == Nodes(s) && s != [] && p.items != []
    requires AllDistinct(s) && p.items[0].prev == if p.items[0] == s[0] then s[|s| - 1] else null
    ensures p.Strung() && (p.Valid() <==> KeepsEnds(s, p.items))
  {
    hide AllDistinct;
    var r := p.items;
    assert s[|s| - 1] in Nodes(s);
    assert s[|s| - 1] in r;
    if r[0].prev == null {
      NotClosed(p);
    } else {
      var k :| 0 <= k < |r| && r[k] == s[|s| - 1];
      LastOfValid(p, k);
      Different(r, k, |r| - 1);
    }
  }

  /**
   * compare_json sorts an object, and then an item is added to it: the object has all its members and the new one
   * exactly if sorting has left the first and the last one in their places. Otherwise the new one is lost, or those
   * behind the one that was the last.
   */
  method SortThenAdd(p: Parent<Member>, item: Child, caseSensitive: bool)
    requires p.Valid() && item !in p.items && item.next == null
    modifies p, Nodes(p.items), item
    ensures exists r: seq<Child> ::
              && Members(r) == SortList(Members(old(p.items)), caseSensitive) && Nodes(r) == Nodes(old(p.items))
              && (p.items == r + [item] <==> KeepsEnds(old(p.items), r))
              && (r != [] && r[0] != old(p.items[0]) ==> p.items == r)
  {
    hide AllDistinct, SortList, Members;
    AmongNodes(p.items, item);
    SortObject(p, caseSensitive);
    ghost var r := p.items;
    AmongNodes(r, item);
    p.Add(item);
  }
}

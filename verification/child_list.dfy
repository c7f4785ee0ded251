/** The list of children of an array or object: doubly linked, with the last child reachable as the first one's prev. */
module ChildList {
  class Item<T> {
    const content: T
    var next: Item?<T>
    var prev: Item?<T>

    constructor (x: T)
      ensures content == x && next == null && prev == null
    {
      content := x;
      next := null;
      prev := null;
    }
  }

  predicate AllDistinct<T>(s: seq<Item<T>>) { forall i, j :: 0 <= i < j < |s| ==> s[i] != s[j] }

  /** Item i is linked to its neighbours; the last has no next, and the prev of the first is the last. */
  ghost predicate LinkedAt<T>(s: seq<Item<T>>, i: nat)
    requires i < |s|
    reads s[i]
  {
    && s[i].next == (if i + 1 < |s| then s[i + 1] else null)
    && s[i].prev == (if i > 0 then s[i - 1] else s[|s| - 1])
  }

  ghost predicate Linked<T>(s: seq<Item<T>>)
    reads s
  {
    AllDistinct(s) && forall i :: 0 <= i < |s| ==> LinkedAt(s, i)
  }

  lemma {:induction false} Different<T>(s: seq<Item<T>>, i: nat, j: nat)
    requires AllDistinct(s) && i < |s| && j < |s|
    ensures s[i] == s[j] <==> i == j
  {
  }

  /** An array or object node, as far as its list of children goes. */
  class Parent<T> {
    var child: Item?<T>
    ghost var items: seq<Item<T>>

    ghost predicate Valid()
      reads this, items
    {
      && Linked(items)
      && child == if items == [] then null else items[0]
    }

    constructor ()
      ensures Valid() && items == [] && child == null
    {
      child := null;
      items := [];
    }

    /** get_array_item */
    method GetItem(index: nat) returns (item: Item?<T>)
      requires Valid()
      ensures item == if index < |items| then items[index] else null
    {
      item := child;
      var left := index;
      ghost var i := 0;
      while item != null && left > 0
        invariant 0 <= i <= |items| && 0 <= left && left + i == index
        invariant item == if i < |items| then items[i] else null
      {
        assert LinkedAt(items, i);
        left := left - 1;
        item := item.next;
        i := i + 1;
      }
    }

    /**
     * The list, which may have been sorted: the prev of the first item need not be the last one. It is null or some
     * item.
     */
    ghost predicate Strung()
      reads this, items
    {
      && Chained(items)
      && child == (if items == [] then null else items[0])
      && (items != [] && items[0].prev != null ==> items[0].prev in items)
    }

    /**
     * add_item_to_array: the item goes behind the prev of the first one. That is the last item of a well linked list;
     * otherwise what follows it is lost, and without it the new item is.
     */
    method Add(item: Item<T>)
      requires Strung() && item !in items && item.next == null
      modifies this, items, item
      ensures old(Valid()) ==> Valid() && items == old(items) + [item]
      ensures old(items == []) ==> Valid() && items == [item]
      ensures old(items != [] && items[0].prev == null) ==> items == old(items) && Strung() && !Valid()
      ensures old(items != [] && items[0].prev != null) ==>
                && Valid()
                && exists k :: && 0 <= k < |old(items)| && old(items)[k] == old(items[0].prev)
                               && items == old(items)[..k + 1] + [item]
    {
      hide AllDistinct;
      if child == null {
        child := item;
        item.prev := item;
        item.next := null;
        items := [item];
        OneDistinct(item);
      } else if child.prev != null {
        AddBehind(item);
      } else {
        NotClosed(this);
      }
    }

    method AddBehind(item: Item<T>)
      requires Strung() && item !in items && item.next == null && items != [] && items[0].prev != null
      modifies this, items, item
      ensures Valid()
      ensures exists k :: && 0 <= k < |old(items)| && old(items)[k] == old(items[0].prev)
                          && items == old(items)[..k + 1] + [item]
      ensures old(Valid()) ==> items == old(items) + [item]
    {
      hide AllDistinct;
      ghost var k :| 0 <= k < |items| && items[k] == child.prev;
      ghost var s := items;
      ghost var r := s[..k + 1] + [item];
      PrefixDistinct(s, k + 1);
      AppendDistinct(s[..k + 1], item);
      LastOfValid(this, k);
      child.prev.next := item;
      item.prev := child.prev;
      child.prev := item;
      items := r;
      forall i | 0 <= i < |r|
        ensures LinkedAt(r, i)
      {
        if i <= k {
          assert old(ChainedAt(s, i));
          Different(s, i, 0);
          Different(s, i, k);
          assert r[i] == s[i];
        }
      }
      assert k + 1 == |s| ==> s[..k + 1] == s;
    }

    /** cJSON_DetachItemViaPointer */
    method Detach(item: Item<T>, ghost which: nat)
      requires Valid() && which < |items| && items[which] == item
      modifies this, items
      ensures Valid() && items == old(items)[..which] + old(items)[which + 1..]
      ensures item.next == null && item.prev == null
    {
      hide AllDistinct;
      ghost var s, n := items, |items|;
      ghost var r := s[..which] + s[which + 1..];
      DropDistinct(s, which);
      assert LinkedAt(s, which);
      Different(s, which, 0);
      if item != child {
        item.prev.next := item.next;
      }
      if item.next != null {
        item.next.prev := item.prev;
      }
      if item == child {
        child := item.next;
      } else if item.next == null {
        child.prev := item.prev;
      }
      item.prev := null;
      item.next := null;
      items := r;
      forall i | 0 <= i < |r|
        ensures LinkedAt(r, i)
      {
        var j := if i < which then i else i + 1;
        assert r[i] == s[j];
        assert old(LinkedAt(items, j));
        Different(s, j, which);
        Different(s, j, 0);
        if which > 0 { Different(s, j, which - 1); }
        if which + 1 < n { Different(s, j, which + 1); }
      }
    }

    /** cJSON_InsertItemInArray */
    method Insert(which: nat, item: Item<T>)
      requires Valid() && item !in items && item.next == null
      modifies this, items, item
      ensures Valid()
      ensures items == if which < |old(items)| then old(items)[..which] + [item] + old(items)[which..]
                       else old(items) + [item]
    {
      hide AllDistinct;
      var after := GetItem(which);
      if after == null {
        ValidIsStrung(this);
        Add(item);
      } else {
        InsertBefore(item, after, which);
      }
    }

    method InsertBefore(item: Item<T>, after: Item<T>, ghost which: nat)
      requires Valid() && item !in items && which < |items| && items[which] == after
      modifies this, items, item
      ensures Valid() && items == old(items)[..which] + [item] + old(items)[which..]
    {
      hide AllDistinct;
      ghost var s, n := items, |items|;
      ghost var r := s[..which] + [item] + s[which..];
      InsertDistinct(s, which, item);
      assert LinkedAt(s, which);
      Different(s, which, 0);
      item.next := after;
      item.prev := after.prev;
      after.prev := item;
      if after == child {
        child := item;
      } else {
        item.prev.next := item;
      }
      items := r;
      forall i | 0 <= i < |r|
        ensures LinkedAt(r, i)
      {
        if i != which {
          var j := if i < which then i else i - 1;
          assert r[i] == s[j];
          assert old(LinkedAt(items, j));
          Different(s, j, which);
          if which > 0 { Different(s, j, which - 1); }
        }
      }
    }

    /** cJSON_ReplaceItemViaPointer */
    method ReplaceItem(item: Item<T>, replacement: Item<T>, ghost which: nat)
      requires Valid() && which < |items| && items[which] == item && replacement !in items
      modifies this, items, replacement
      ensures Valid() && items == old(items)[which := replacement]
      ensures item.next == null && item.prev == null
    {
      hide AllDistinct;
      ghost var s, n := items, |items|;
      ghost var r := s[which := replacement];
      UpdateDistinct(s, which, replacement);
      assert LinkedAt(s, which) && LinkedAt(s, 0);
      Different(s, which, 0);
      Different(s, n - 1, 0);
      replacement.next := item.next;
      replacement.prev := item.prev;
      if replacement.next != null {
        replacement.next.prev := replacement;
      }
      if child == item {
        if child.prev == child {
          replacement.prev := replacement;
        }
        child := replacement;
      } else {
        if replacement.prev != null {
          replacement.prev.next := replacement;
        }
        if replacement.next == null {
          child.prev := replacement;
        }
      }
      item.next := null;
      item.prev := null;
      items := r;
      forall i | 0 <= i < |r|
        ensures LinkedAt(r, i)
      {
        assert old(LinkedAt(items, i));
        Different(s, i, which);
        Different(s, i, 0);
        if which > 0 { Different(s, i, which - 1); }
        if which + 1 < n { Different(s, i, which + 1); }
      }
    }
  }

  // ----- Lists that are built from the front -----

  /** Item i is linked to its neighbours, and the prev of the first is still to be set. */
  ghost predicate ChainedAt<T>(s: seq<Item<T>>, i: nat)
    requires i < |s|
    reads s[i]
  {
    s[i].next == (if i + 1 < |s| then s[i + 1] else null) && (i > 0 ==> s[i].prev == s[i - 1])
  }

  ghost predicate Chained<T>(s: seq<Item<T>>)
    reads s
  {
    AllDistinct(s) && forall i :: 0 <= i < |s| ==> ChainedAt(s, i)
  }

  lemma {:induction false} OneDistinct<T>(item: Item<T>)
    ensures AllDistinct([item])
  {
  }

  lemma {:induction false} PrefixDistinct<T>(s: seq<Item<T>>, k: nat)
    requires AllDistinct(s) && k <= |s|
    ensures AllDistinct(s[..k])
  {
  }

  /** In a well linked list the prev of the first item is the last. */
  lemma {:induction false} LastOfValid<T>(p: Parent<T>, k: nat)
    requires p.Strung() && k < |p.items| && p.items[k] == p.items[0].prev
    ensures p.Valid() <==> k == |p.items| - 1
  {
    hide AllDistinct;
    var s := p.items;
    Different(s, k, |s| - 1);
    if k == |s| - 1 { Closes(s); }
    if p.Valid() { assert LinkedAt(s, 0); }
  }

  lemma {:induction false} Closes<T>(s: seq<Item<T>>)
    requires Chained(s) && s != [] && s[0].prev == s[|s| - 1]
    ensures Linked(s)
  {
    hide AllDistinct;
    forall i | 0 <= i < |s|
      ensures LinkedAt(s, i)
    {
      assert ChainedAt(s, i);
    }
  }

  lemma {:induction false} NotClosed<T>(p: Parent<T>)
    requires p.Strung() && p.items != [] && p.items[0].prev == null
    ensures !p.Valid()
  {
    hide AllDistinct;
    assert !LinkedAt(p.items, 0);
  }

  /** A well linked list is one that was perhaps sorted. */
  lemma {:induction false} ValidIsStrung<T>(p: Parent<T>)
    requires p.Valid()
    ensures p.Strung()
  {
    hide AllDistinct;
    forall i | 0 <= i < |p.items|
      ensures ChainedAt(p.items, i)
    {
      assert LinkedAt(p.items, i);
    }
    if p.items != [] { assert LinkedAt(p.items, 0); }
  }

  /** A new item at the end of a list whose prev pointer of the first item is not used yet. */
  method Extend<T>(ghost s: seq<Item<T>>, last: Item?<T>, item: Item<T>)
    requires Chained(s) && item !in s && item.next == null
    requires last == if s == [] then null else s[|s| - 1]
    modifies s, item
    ensures Chained(s + [item])
  {
    hide AllDistinct;
    ghost var n := |s|;
    ghost var r := s + [item];
    AppendDistinct(s, item);
    if last != null {
      assert ChainedAt(s, n - 1);
      last.next := item;
      item.prev := last;
    }
    forall i | 0 <= i < |r|
      ensures ChainedAt(r, i)
    {
      if i < n {
        assert old(ChainedAt(s, i)) && r[i] == s[i];
        Different(s, i, n - 1);
      }
    }
  }

  /** A list that is being built: the parent has its first item, and the last is known. */
  ghost predicate Building<T>(p: Parent<T>, s: seq<Item<T>>, last: Item?<T>)
    reads p, s
  {
    && Chained(s)
    && p.child == (if s == [] then null else s[0])
    && last == if s == [] then null else s[|s| - 1]
  }

  lemma {:induction false} BuildingStarts<T>(p: Parent<T>)
    requires p.child == null
    ensures Building(p, [], null)
  {
  }

  /** The next item, at the end. */
  method LinkLast<T>(p: Parent<T>, ghost s: seq<Item<T>>, last: Item?<T>, item: Item<T>)
    requires Building(p, s, last) && item !in s && item.next == null
    modifies p, s, item
    ensures Building(p, s + [item], item)
  {
    hide Chained;
    if last == null {
      p.child := item;
    }
    Extend(s, last, item);
  }

  /** The first item's prev becomes the last item, and the chain is the list of a parent. */
  method Close<T>(p: Parent<T>, ghost s: seq<Item<T>>, last: Item?<T>)
    requires Building(p, s, last)
    modifies p, s
    ensures p.Valid() && p.items == s && p.child == old(p.child)
  {
    hide AllDistinct;
    if p.child != null {
      p.child.prev := last;
    }
    p.items := s;
    forall i | 0 <= i < |s|
      ensures LinkedAt(s, i)
    {
      assert old(ChainedAt(s, i));
      Different(s, i, 0);
    }
  }

  lemma {:induction false} AppendDistinct<T>(s: seq<Item<T>>, item: Item<T>)
    requires AllDistinct(s) && item !in s
    ensures AllDistinct(s + [item])
  {
  }

  lemma {:induction false} DropDistinct<T>(s: seq<Item<T>>, which: nat)
    requires AllDistinct(s) && which < |s|
    ensures AllDistinct(s[..which] + s[which + 1..])
  {
    var r := s[..which] + s[which + 1..];
    forall i, j | 0 <= i < j < |r|
      ensures r[i] != r[j]
    {
      Different(s, if i < which then i else i + 1, if j < which then j else j + 1);
    }
  }

  lemma {:induction false} InsertDistinct<T>(s: seq<Item<T>>, which: nat, item: Item<T>)
    requires AllDistinct(s) && which < |s| && item !in s
    ensures AllDistinct(s[..which] + [item] + s[which..])
  {
    var r := s[..which] + [item] + s[which..];
    forall i, j | 0 <= i < j < |r|
      ensures r[i] != r[j]
    {
      if i != which && j != which { Different(s, if i < which then i else i - 1, if j < which then j else j - 1); }
    }
  }

  lemma {:induction false} UpdateDistinct<T>(s: seq<Item<T>>, which: nat, item: Item<T>)
    requires AllDistinct(s) && which < |s| && item !in s
    ensures AllDistinct(s[which := item])
  {
  }
}

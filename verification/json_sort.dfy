/** The order of object members: compare_strings and the merge sort of sort_list. */
module JsonSort {
  import opened JsonTree
  import opened JsonPointer

  /** strcmp */
  function Strcmp(a: string, b: string): int {
    if a == "" && b == "" then 0
    else if a == "" then -1
    else if b == "" then 1
    else if a[0] != b[0] then a[0] as int - b[0] as int
    else Strcmp(a[1..], b[1..])
  }

  function LowerAll(s: string): string {
    if s == "" then "" else [Lower(s[0])] + LowerAll(s[1..])
  }

  /** compare_strings */
  function CompareStrings(a: string, b: string, caseSensitive: bool): int {
    if caseSensitive then Strcmp(a, b) else Strcmp(LowerAll(a), LowerAll(b))
  }

  lemma {:induction false} StrcmpEqual(a: string, b: string)
    ensures Strcmp(a, b) == 0 <==> a == b
    decreases |a|
  {
    if a != "" && b != "" && a[0] == b[0] {
      StrcmpEqual(a[1..], b[1..]);
      assert a == [a[0]] + a[1..] && b == [b[0]] + b[1..];
    }
  }

  lemma {:induction false} StrcmpOpposite(a: string, b: string)
    ensures Strcmp(a, b) < 0 <==> Strcmp(b, a) > 0
    decreases |a|
  {
    if a != "" && b != "" && a[0] == b[0] { StrcmpOpposite(a[1..], b[1..]); }
  }

  lemma {:induction false} StrcmpTransitive(a: string, b: string, c: string)
    requires Strcmp(a, b) < 0 && Strcmp(b, c) < 0
    ensures Strcmp(a, c) < 0
    decreases |a|
  {
    if a != "" && b != "" && c != "" && a[0] == b[0] && b[0] == c[0] {
      StrcmpTransitive(a[1..], b[1..], c[1..]);
    }
  }

  predicate Below(a: Member, b: Member, caseSensitive: bool) { CompareStrings(a.key, b.key, caseSensitive) < 0 }

  lemma {:induction false} BelowTransitive(a: Member, b: Member, c: Member, caseSensitive: bool)
    requires Below(a, b, caseSensitive) && Below(b, c, caseSensitive)
    ensures Below(a, c, caseSensitive)
  {
    if caseSensitive {
      StrcmpTransitive(a.key, b.key, c.key);
    } else {
      StrcmpTransitive(LowerAll(a.key), LowerAll(b.key), LowerAll(c.key));
    }
  }

  lemma {:induction false} BelowTotal(a: Member, b: Member, caseSensitive: bool)
    ensures Below(a, b, caseSensitive) ==> !Below(b, a, caseSensitive)
    ensures Below(a, b, caseSensitive) || Below(b, a, caseSensitive) || CompareStrings(a.key, b.key, caseSensitive) == 0
  {
    StrcmpOpposite(a.key, b.key);
    StrcmpOpposite(LowerAll(a.key), LowerAll(b.key));
    StrcmpOpposite(b.key, a.key);
    StrcmpOpposite(LowerAll(b.key), LowerAll(a.key));
  }

  /** In increasing order, without equal keys. */
  predicate Sorted(ms: seq<Member>, caseSensitive: bool) {
    forall i, j :: 0 <= i < j < |ms| ==> Below(ms[i], ms[j], caseSensitive)
  }

  /** No two members have equal keys. */
  predicate AllDiffer(ms: seq<Member>, caseSensitive: bool) {
    forall i, j :: 0 <= i < j < |ms| ==> CompareStrings(ms[i].key, ms[j].key, caseSensitive) != 0
  }

  /** Neighbours are in increasing order: sort_list leaves such a list alone. */
  predicate InOrder(ms: seq<Member>, caseSensitive: bool) {
    |ms| < 2 || (Below(ms[0], ms[1], caseSensitive) && InOrder(ms[1..], caseSensitive))
  }

  function Merge(a: seq<Member>, b: seq<Member>, caseSensitive: bool): seq<Member>
    decreases |a| + |b|
  {
    if a == [] then b
    else if b == [] then a
    else if Below(a[0], b[0], caseSensitive) then [a[0]] + Merge(a[1..], b, caseSensitive)
    else [b[0]] + Merge(a, b[1..], caseSensitive)
  }

  /** sort_list */
  function SortList(ms: seq<Member>, caseSensitive: bool): seq<Member>
    decreases |ms|
  {
    if InOrder(ms, caseSensitive) then ms
    else
      var half := (|ms| + 1) / 2;
      Merge(SortList(ms[..half], caseSensitive), SortList(ms[half..], caseSensitive), caseSensitive)
  }

  // ----- The result is a sorted permutation -----

  lemma {:induction false} MergeFirst(a: seq<Member>, b: seq<Member>, caseSensitive: bool)
    requires a != [] && b != []
    ensures Merge(a, b, caseSensitive)
            == if Below(a[0], b[0], caseSensitive) then [a[0]] + Merge(a[1..], b, caseSensitive)
               else [b[0]] + Merge(a, b[1..], caseSensitive)
  {
  }

  lemma {:induction false} MergeNothing(a: seq<Member>, caseSensitive: bool)
    ensures Merge(a, [], caseSensitive) == Merge([], a, caseSensitive) == a
  {
  }

  lemma {:induction false} CountFirst(ms: seq<Member>)
    requires ms != []
    ensures multiset(ms) == multiset{ms[0]} + multiset(ms[1..])
  {
    assert ms == [ms[0]] + ms[1..];
  }

  lemma {:induction false} MergePermutes(a: seq<Member>, b: seq<Member>, caseSensitive: bool)
    ensures multiset(Merge(a, b, caseSensitive)) == multiset(a) + multiset(b)
    decreases |a| + |b|
  {
    hide Below, Merge;
    if a == [] {
      MergeNothing(b, caseSensitive);
    } else if b == [] {
      MergeNothing(a, caseSensitive);
    } else {
      MergeFirst(a, b, caseSensitive);
      var r := Merge(a, b, caseSensitive);
      CountFirst(r);
      if Below(a[0], b[0], caseSensitive) {
        MergePermutes(a[1..], b, caseSensitive);
        CountFirst(a);
        assert r[1..] == Merge(a[1..], b, caseSensitive);
      } else {
        MergePermutes(a, b[1..], caseSensitive);
        CountFirst(b);
        assert r[1..] == Merge(a, b[1..], caseSensitive);
      }
    }
  }

  lemma {:induction false} SortPermutes(ms: seq<Member>, caseSensitive: bool)
    ensures multiset(SortList(ms, caseSensitive)) == multiset(ms)
    decreases |ms|
  {
    hide InOrder, Merge;
    if !InOrder(ms, caseSensitive) {
      InOrderShort(ms, caseSensitive);
      var half := (|ms| + 1) / 2;
      var a, b := ms[..half], ms[half..];
      SortPermutes(a, caseSensitive);
      SortPermutes(b, caseSensitive);
      MergePermutes(SortList(a, caseSensitive), SortList(b, caseSensitive), caseSensitive);
      assert ms == a + b;
    }
  }

  lemma {:induction false} InOrderShort(ms: seq<Member>, caseSensitive: bool)
    ensures |ms| < 2 ==> InOrder(ms, caseSensitive)
  {
  }

  lemma {:induction false} InMerge(a: seq<Member>, b: seq<Member>, caseSensitive: bool, m: Member)
    ensures m in Merge(a, b, caseSensitive) <==> m in a || m in b
  {
    MergePermutes(a, b, caseSensitive);
    assert m in Merge(a, b, caseSensitive) <==> m in multiset(Merge(a, b, caseSensitive));
  }

  lemma {:induction false} InSort(ms: seq<Member>, caseSensitive: bool, m: Member)
    ensures m in SortList(ms, caseSensitive) <==> m in ms
  {
    SortPermutes(ms, caseSensitive);
    assert m in SortList(ms, caseSensitive) <==> m in multiset(SortList(ms, caseSensitive));
  }

  /** Below every member of a list. */
  predicate BelowAll(m: Member, ms: seq<Member>, caseSensitive: bool) {
    forall i :: 0 <= i < |ms| ==> Below(m, ms[i], caseSensitive)
  }

  lemma {:induction false} BelowHead(m: Member, ms: seq<Member>, caseSensitive: bool)
    requires Sorted(ms, caseSensitive) && (ms != [] ==> Below(m, ms[0], caseSensitive))
    ensures BelowAll(m, ms, caseSensitive)
  {
    hide Below;
    forall i | 0 <= i < |ms|
      ensures Below(m, ms[i], caseSensitive)
    {
      if i > 0 { BelowTransitive(m, ms[0], ms[i], caseSensitive); }
    }
  }

  lemma {:induction false} BelowMerge(m: Member, a: seq<Member>, b: seq<Member>, caseSensitive: bool)
    requires BelowAll(m, a, caseSensitive) && BelowAll(m, b, caseSensitive)
    ensures BelowAll(m, Merge(a, b, caseSensitive), caseSensitive)
  {
    hide Below, Merge;
    var r := Merge(a, b, caseSensitive);
    forall i | 0 <= i < |r|
      ensures Below(m, r[i], caseSensitive)
    {
      InMerge(a, b, caseSensitive, r[i]);
    }
  }

  lemma {:induction false} SortedTail(ms: seq<Member>, caseSensitive: bool)
    requires ms != []
    ensures Sorted(ms, caseSensitive) <==> BelowAll(ms[0], ms[1..], caseSensitive) && Sorted(ms[1..], caseSensitive)
  {
    hide Below;
    var rest := ms[1..];
    assert forall i :: 0 < i < |ms| ==> ms[i] == rest[i - 1];
    if BelowAll(ms[0], rest, caseSensitive) && Sorted(rest, caseSensitive) {
      forall i, j | 0 <= i < j < |ms|
        ensures Below(ms[i], ms[j], caseSensitive)
      {
        if i == 0 { assert Below(ms[0], rest[j - 1], caseSensitive); }
        else { assert Below(rest[i - 1], rest[j - 1], caseSensitive); }
      }
    }
  }

  /** No member of one list has the key of a member of the other. */
  predicate Apart(a: seq<Member>, b: seq<Member>, caseSensitive: bool) {
    forall i, j :: 0 <= i < |a| && 0 <= j < |b| ==> CompareStrings(a[i].key, b[j].key, caseSensitive) != 0
  }

  lemma {:induction false} MergeSorts(a: seq<Member>, b: seq<Member>, caseSensitive: bool)
    requires Sorted(a, caseSensitive) && Sorted(b, caseSensitive) && Apart(a, b, caseSensitive)
    ensures Sorted(Merge(a, b, caseSensitive), caseSensitive)
    decreases |a| + |b|
  {
    hide CompareStrings, Below, Sorted, BelowAll;
    if a != [] && b != [] {
      var r := Merge(a, b, caseSensitive);
      if Below(a[0], b[0], caseSensitive) {
        SortedTail(a, caseSensitive);
        MergeSorts(a[1..], b, caseSensitive);
        BelowHead(a[0], b, caseSensitive);
        BelowMerge(a[0], a[1..], b, caseSensitive);
        assert r[1..] == Merge(a[1..], b, caseSensitive);
      } else {
        DifferentBelow(a[0], b[0], caseSensitive);
        SortedTail(b, caseSensitive);
        MergeSorts(a, b[1..], caseSensitive);
        BelowHead(b[0], a, caseSensitive);
        BelowMerge(b[0], a, b[1..], caseSensitive);
        assert r[1..] == Merge(a, b[1..], caseSensitive);
      }
      SortedTail(r, caseSensitive);
    }
  }

  lemma {:induction false} DifferentBelow(a: Member, b: Member, caseSensitive: bool)
    requires !Below(a, b, caseSensitive) && CompareStrings(a.key, b.key, caseSensitive) != 0
    ensures Below(b, a, caseSensitive)
  {
    BelowTotal(a, b, caseSensitive);
  }

  /** Distinct keys come out in increasing order. */
  lemma {:induction false} SortSorts(ms: seq<Member>, caseSensitive: bool)
    requires AllDiffer(ms, caseSensitive)
    ensures Sorted(SortList(ms, caseSensitive), caseSensitive)
    decreases |ms|
  {
    hide InOrder, Sorted, CompareStrings;
    if InOrder(ms, caseSensitive) {
      InOrderSorted(ms, caseSensitive);
    } else {
      InOrderShort(ms, caseSensitive);
      var half := (|ms| + 1) / 2;
      var a, b := SortList(ms[..half], caseSensitive), SortList(ms[half..], caseSensitive);
      SortSorts(ms[..half], caseSensitive);
      SortSorts(ms[half..], caseSensitive);
      forall i, j | 0 <= i < |a| && 0 <= j < |b|
        ensures CompareStrings(a[i].key, b[j].key, caseSensitive) != 0
      {
        InSort(ms[..half], caseSensitive, a[i]);
        InSort(ms[half..], caseSensitive, b[j]);
        var x :| 0 <= x < half && ms[..half][x] == a[i];
        var y :| 0 <= y < |ms| - half && ms[half..][y] == b[j];
        assert ms[x] == a[i] && ms[half + y] == b[j];
      }
      MergeSorts(a, b, caseSensitive);
    }
  }

  lemma {:induction false} InOrderSorted(ms: seq<Member>, caseSensitive: bool)
    requires InOrder(ms, caseSensitive)
    ensures Sorted(ms, caseSensitive)
  {
    hide Below;
    if |ms| >= 2 {
      InOrderSorted(ms[1..], caseSensitive);
      forall j | 1 < j < |ms|
        ensures Below(ms[0], ms[j], caseSensitive)
      {
        assert ms[j] == ms[1..][j - 1];
        BelowTransitive(ms[0], ms[1], ms[j], caseSensitive);
      }
      forall i, j | 0 <= i < j < |ms|
        ensures Below(ms[i], ms[j], caseSensitive)
      {
        if i > 0 { assert ms[i] == ms[1..][i - 1] && ms[j] == ms[1..][j - 1]; }
      }
    }
  }
}

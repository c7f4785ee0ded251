/** Whole trees of nodes: every node has its own list of children. */
module ChildTree {
  import opened JsonTree
  import opened ChildList

  /** A node, apart from its links: its key, its value without the children, and the list of its children. */
  datatype Cell = Cell(key: string, value: Json, children: Parent<Cell>)

  /** A node and the nodes below it. */
  datatype Tree = Tree(item: Item<Cell>, kids: seq<Tree>)

  function Items(kids: seq<Tree>): seq<Item<Cell>> { seq(|kids|, i requires 0 <= i < |kids| => kids[i].item) }

  function Nodes(s: seq<Item<Cell>>): set<object> { set item: object | item in s }

  /** What belongs to a list of children. */
  function Footprint(p: Parent<Cell>, kids: seq<Tree>): set<object>
    decreases kids, 1
  {
    {p} + Nodes(Items(kids)) + Below(kids)
  }

  function Below(kids: seq<Tree>): set<object>
    decreases kids, 0
  {
    if kids == [] then {} else Owned(kids[0]) + Below(kids[1..])
  }

  /** The list has exactly these children, and it and every list below it is well linked. */
  ghost predicate Holds(p: Parent<Cell>, kids: seq<Tree>)
    reads Footprint(p, kids)
    decreases kids, 1
  {
    p.items == Items(kids) && p.Valid() && AreTrees(kids)
  }

  ghost predicate AreTrees(kids: seq<Tree>)
    reads Below(kids)
    decreases kids, 0
  {
    kids == [] || (IsTree(kids[0]) && AreTrees(kids[1..]))
  }

  ghost predicate IsTree(t: Tree)
    reads Owned(t)
    decreases t
  {
    Holds(t.item.content.children, t.kids)
  }

  /** What belongs to a node, apart from itself. */
  function Owned(t: Tree): set<object>
    decreases t
  {
    Footprint(t.item.content.children, t.kids)
  }

  /** No node and no list is in two places. */
  ghost predicate Unshared(p: Parent<Cell>, kids: seq<Tree>)
    decreases kids, 1
  {
    p !in Below(kids) && Nodes(Items(kids)) !! Below(kids) && AllApart(kids)
  }

  ghost predicate AllApart(kids: seq<Tree>)
    decreases kids, 0
  {
    kids == [] || (Apart(kids[0]) && Owned(kids[0]) !! Below(kids[1..]) && AllApart(kids[1..]))
  }

  ghost predicate Apart(t: Tree)
    decreases t
  {
    Unshared(t.item.content.children, t.kids)
  }

  /** A complete list of children: well linked at every depth, and nothing in it is shared. */
  ghost predicate Built(p: Parent<Cell>, kids: seq<Tree>)
    reads Footprint(p, kids)
  {
    Holds(p, kids) && Unshared(p, kids)
  }

  /** The document of a node with this value and these children. */
  function Document(value: Json, kids: seq<Tree>): Json
    decreases kids, 1
  {
    match value
    case Array(_) => Array(Values(Content(kids)))
    case Object(_) => Object(Content(kids))
    case _ => value
  }

  function Content(kids: seq<Tree>): seq<Member>
    decreases kids, 0
  {
    if kids == [] then [] else [MemberOf(kids[0])] + Content(kids[1..])
  }

  function MemberOf(t: Tree): Member
    decreases t
  {
    Member(t.item.content.key, Document(t.item.content.value, t.kids))
  }

  function Values(ms: seq<Member>): seq<Json> { if ms == [] then [] else [ms[0].value] + Values(ms[1..]) }

  // ----- One child more -----

  lemma {:induction false} ItemsMore(kids: seq<Tree>, t: Tree)
    ensures Items(kids + [t]) == Items(kids) + [t.item]
    ensures Nodes(Items(kids + [t])) == Nodes(Items(kids)) + {t.item}
  {
    hide Items;
    assert Items(kids + [t]) == Items(kids) + [t.item] by { ItemsOfMore(kids, t); }
  }

  lemma {:induction false} ItemsOfMore(kids: seq<Tree>, t: Tree)
    ensures Items(kids + [t]) == Items(kids) + [t.item]
  {
  }

  lemma {:induction false} BelowMore(kids: seq<Tree>, t: Tree)
    ensures Below(kids + [t]) == Below(kids) + Owned(t)
  {
    hide Owned;
    if kids == [] {
      assert (kids + [t])[1..] == [];
    } else {
      assert (kids + [t])[1..] == kids[1..] + [t];
      BelowMore(kids[1..], t);
    }
  }

  lemma {:induction false} TreesMore(kids: seq<Tree>, t: Tree)
    requires AreTrees(kids) && IsTree(t)
    ensures AreTrees(kids + [t])
  {
    hide IsTree, Owned;
    if kids == [] {
      assert (kids + [t])[1..] == [];
    } else {
      assert (kids + [t])[1..] == kids[1..] + [t];
      TreesMore(kids[1..], t);
    }
  }

  lemma {:induction false} ApartMore(kids: seq<Tree>, t: Tree)
    requires AllApart(kids) && Apart(t) && Owned(t) !! Below(kids)
    ensures AllApart(kids + [t])
  {
    hide Apart, Owned;
    if kids == [] {
      assert (kids + [t])[1..] == [];
    } else {
      assert (kids + [t])[1..] == kids[1..] + [t];
      ApartMore(kids[1..], t);
      BelowMore(kids[1..], t);
    }
  }

  lemma {:induction false} ContentMore(kids: seq<Tree>, t: Tree)
    ensures Content(kids + [t]) == Content(kids) + [MemberOf(t)]
  {
    hide MemberOf;
    if kids == [] {
      assert (kids + [t])[1..] == [];
    } else {
      assert (kids + [t])[1..] == kids[1..] + [t];
      ContentMore(kids[1..], t);
    }
  }

  lemma {:induction false} TreeAt(kids: seq<Tree>, i: nat)
    requires AreTrees(kids) && i < |kids|
    ensures IsTree(kids[i])
  {
    hide IsTree, Owned;
    if i > 0 { TreeAt(kids[1..], i - 1); }
  }

  /** A list of children that is being built, of nodes whose own children are complete. */
  ghost predicate Growing(p: Parent<Cell>, kids: seq<Tree>, last: Item?<Cell>)
    reads Footprint(p, kids)
  {
    AreTrees(kids) && Building(p, Items(kids), last) && p !in Nodes(Items(kids)) && Unshared(p, kids)
  }

  lemma {:induction false} GrowingStarts(p: Parent<Cell>)
    requires p.child == null
    ensures Growing(p, [], null) && Content([]) == [] && Below([]) == {} && Items([]) == [] && Footprint(p, []) == {p}
  {
    BuildingStarts(p);
  }

  /** One more node, whose children are complete. */
  method Grow(p: Parent<Cell>, ghost kids: seq<Tree>, last: Item?<Cell>, item: Item<Cell>, ghost t: Tree)
    requires Growing(p, kids, last) && IsTree(t) && Apart(t) && t.item == item && item.next == null
    requires item !in Footprint(p, kids) && item !in Owned(t) && Owned(t) !! Footprint(p, kids)
    modifies Footprint(p, kids), item
    ensures Growing(p, kids + [t], item)
    ensures Footprint(p, kids + [t]) == Footprint(p, kids) + {item} + Owned(t)
  {
    hide IsTree, AreTrees, Owned, Below, Building, Content, AllApart, Apart;
    ItemsMore(kids, t);
    BelowMore(kids, t);
    ApartMore(kids, t);
    assert allocated(Below(kids)) && allocated(Owned(t));
    LinkLast(p, Items(kids), last, item);
    TreesMore(kids, t);
  }

  /** A new node with this content, whose children are complete. */
  method GrowNew(p: Parent<Cell>, ghost kids: seq<Tree>, last: Item?<Cell>, cell: Cell, ghost below: seq<Tree>)
    returns (item: Item<Cell>)
    requires Growing(p, kids, last) && Built(cell.children, below)
    requires Footprint(cell.children, below) !! Footprint(p, kids)
    modifies Footprint(p, kids)
    ensures fresh(item) && item.content == cell && Growing(p, kids + [Tree(item, below)], item)
    ensures Footprint(p, kids + [Tree(item, below)]) == Footprint(p, kids) + {item} + Footprint(cell.children, below)
  {
    hide Holds, AreTrees, Below, Growing, Content, Items, Unshared;
    assert allocated(Footprint(p, kids)) && allocated(Footprint(cell.children, below));
    item := new Item(cell);
    Grow(p, kids, last, item, Tree(item, below));
  }

  method NoChildren() returns (p: Parent<Cell>)
    ensures Built(p, []) && fresh(Footprint(p, []))
  {
    p := new Parent();
  }

  lemma {:induction false} NoContent()
    ensures Content([]) == [] && Values([]) == []
  {
  }

  lemma {:induction false} ValuesMore(ms: seq<Member>, m: Member)
    ensures Values(ms + [m]) == Values(ms) + [m.value]
  {
    if ms == [] {
      assert (ms + [m])[1..] == [];
    } else {
      assert (ms + [m])[1..] == ms[1..] + [m];
      ValuesMore(ms[1..], m);
    }
  }

  /** The list is complete. */
  method Finish(p: Parent<Cell>, ghost kids: seq<Tree>, last: Item?<Cell>)
    requires Growing(p, kids, last)
    modifies Footprint(p, kids)
    ensures Built(p, kids)
  {
    hide AreTrees, Below, Building, AllApart;
    assert allocated(Below(kids));
    Close(p, Items(kids), last);
  }

  // ----- cJSON_Duplicate -----

  lemma {:induction false} FirstChild(t: Tree)
    requires IsTree(t)
    ensures t.item.content.children.child == if t.kids == [] then null else t.kids[0].item
  {
    hide AreTrees, Below;
    assert t.kids != [] ==> Items(t.kids)[0] == t.kids[0].item;
  }

  lemma {:induction false} ChildAt(t: Tree, i: nat)
    requires IsTree(t) && i < |t.kids|
    ensures IsTree(t.kids[i]) && t.kids[i].item.next == if i + 1 < |t.kids| then t.kids[i + 1].item else null
  {
    hide AreTrees, Below, AllDistinct;
    TreeAt(t.kids, i);
    assert LinkedAt(t.item.content.children.items, i);
  }

  /** Nodes with the same key and value, and the same children, stand for the same member. */
  lemma {:induction false} SameMember(a: Tree, b: Tree)
    requires a.item.content.key == b.item.content.key && a.item.content.value == b.item.content.value
    requires Content(a.kids) == Content(b.kids)
    ensures MemberOf(a) == MemberOf(b)
  {
    hide Content;
  }

  /** The copies of the first children, and one more. */
  lemma {:induction false} ContentGrows(kids: seq<Tree>, t: Tree, all: seq<Tree>, i: nat)
    requires i < |all| && Content(kids) == Content(all[..i]) && MemberOf(t) == MemberOf(all[i])
    ensures Content(kids + [t]) == Content(all[..i + 1])
  {
    hide Content, MemberOf;
    ContentMore(kids, t);
    ContentMore(all[..i], all[i]);
    assert all[..i + 1] == all[..i] + [all[i]];
  }

  /** A copy of a node, and of all nodes below it if that is wanted. */
  method Duplicate(item: Item<Cell>, ghost t: Tree, recurse: bool) returns (copy: Item<Cell>, ghost r: Tree)
    requires IsTree(t) && t.item == item
    ensures fresh(copy) && copy.next == null && r.item == copy && copy !in Owned(r)
    ensures IsTree(r) && Apart(r) && fresh(Owned(r))
    ensures copy.content.key == item.content.key && copy.content.value == item.content.value
    ensures Content(r.kids) == if recurse then Content(t.kids) else []
    decreases t
  {
    hide IsTree, AreTrees, Owned, Footprint, Content, MemberOf, Growing, Holds, Apart, Unshared, Built;
    assert allocated(Owned(t));
    FirstChild(t);
    var p := new Parent();
    copy := new Item(Cell(item.content.key, item.content.value, p));
    GrowingStarts(p);
    ghost var kids: seq<Tree> := [];
    var child := if recurse then item.content.children.child else null;
    var last: Item?<Cell> := null;
    while child != null
      invariant |kids| <= |t.kids| && child == if recurse && |kids| < |t.kids| then t.kids[|kids|].item else null
      invariant if recurse then Content(kids) == Content(t.kids[..|kids|]) else kids == []
      invariant Growing(p, kids, last) && fresh(Footprint(p, kids)) && copy !in Footprint(p, kids) && copy.next == null
      invariant IsTree(t)
      decreases |t.kids| - |kids|
    {
      ghost var i := |kids|;
      ChildAt(t, i);
      assert allocated(Footprint(p, kids));
      var next;
      ghost var b;
      next, b := Duplicate(child, t.kids[i], true);
      SameMember(b, t.kids[i]);
      ContentGrows(kids, b, t.kids, i);
      Grow(p, kids, last, next, b);
      kids := kids + [b];
      last := next;
      ChildAt(t, i);
      child := child.next;
    }
    assert recurse ==> t.kids[..|kids|] == t.kids;
    Finish(p, kids, last);
    r := Tree(copy, kids);
    Complete(r);
  }

  lemma {:induction false} Complete(t: Tree)
    requires Built(t.item.content.children, t.kids)
    ensures IsTree(t) && Apart(t) && Owned(t) == Footprint(t.item.content.children, t.kids)
  {
    hide Holds, Footprint, Unshared;
  }
}

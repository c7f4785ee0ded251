/** Operations on any two locations of a document: when apply_patch moves and copies as RFC 6902 asks. */
module JsonMove {
  import opened JsonTree
  import opened JsonPointer
  import opened JsonCompare
  import opened JsonPatch
  import opened JsonEdit
  import opened JsonRfc6902
  import opened Options

  // ----- Taking a value out -----

  /** The path of this node leads detach_path, which ignores case, to the node. */
  predicate Reached(doc: Json, pos: Position)
    requires IsNode(doc, pos) && pos != []
    decreases |pos|
  {
    if |pos| == 1 then doc.Object? ==> FindsItself(doc.members, doc.members[pos[0]].key)
    else Reached(Children(doc)[pos[0]], pos[1..])
  }

  function WithoutChild(node: Json, i: nat): Json
    requires i < |Children(node)|
  {
    match node
    case Array(items) => Array(Without(items, i))
    case Object(members) => Object(Without(members, i))
  }

  /** The document without this node. */
  function Dropped(doc: Json, pos: Position): Json
    requires IsNode(doc, pos) && pos != []
    decreases |pos|
  {
    if |pos| == 1 then WithoutChild(doc, pos[0])
    else WithChild(doc, pos[0], Dropped(Children(doc)[pos[0]], pos[1..]))
  }

  /** What can be written in a path to select or add a child. */
  lemma {:induction false} ProperSelects(doc: Json, i: nat)
    requires Distinct(doc) && Indexable(doc) && i < |Children(doc)|
    ensures Selects(doc, i) && Distinct(Children(doc)[i]) && Indexable(Children(doc)[i])
  {
    ChildIsProper(doc, i);
  }

  lemma {:induction false} FindsBelow(doc: Json, i: nat, rest: string)
    requires i < |Children(doc)| && Selects(doc, i) && Tail(rest)
    ensures Find(doc, "/" + TokenOf(doc, i) + rest) == Find(Children(doc)[i], rest)
  {
    hide SkipToken, TokenOf, Unescape, ChildNamed, Children, Selects;
    var token := TokenOf(doc, i);
    var path := "/" + token + rest;
    TokenNames(doc, i, rest);
    assert path[1..] == token + rest && path[1..|path| - |rest|] == token;
  }

  lemma {:induction false} DetachesMember(ms: seq<Member>, n: nat)
    requires DistinctKeys(ms) && n < |ms|
    ensures var path := "/" + Escape(ms[n].key);
            && Perform(Object(ms), path, Remove, None) == Some(Object(Without(ms, n)))
            && (DetachPath(Object(ms), path, true) == Some((ms[n].value, Object(Without(ms, n))))
                <==> FindsItself(ms, ms[n].key))
  {
    hide Perform, Escape, DecodeInPlace, IndexOf, IndexIgnoringCase, FindsItself, Split;
    var key := ms[n].key;
    HasAt(ms, n);
    PerformHere(Object(ms), key, Remove, None);
    EscapeNoSlash(key);
    SplitHere(Object(ms), Escape(key));
    FindsItselfIff(ms, key);
    var i := IndexIgnoringCase(ms, DecodeInPlace(Escape(key)));
    if i < |ms| && i != n { StillHas(ms, i, key); }
    WithoutKey(ms, key, key);
  }

  lemma {:induction false} DetachesItem(items: seq<Json>, n: nat)
    requires n < |items| < SIZE_MAX_PLUS_1
    ensures var path := "/" + Decimal(n);
            && Perform(Array(items), path, Remove, None) == Some(Array(Without(items, n)))
            && DetachPath(Array(items), path, true) == Some((items[n], Array(Without(items, n))))
  {
    hide Perform, Decimal, Escape, DecodeIndex, DecodeInPlace, Split;
    DecimalToken(Array(items), n);
    PerformHere(Array(items), Decimal(n), Remove, None);
    NamedByDecimal(n, |items|);
    SplitHere(Array(items), Decimal(n));
  }

  /**
   * By the RFC the node at a location is found and removed; detach_path does the same exactly if its path reaches it.
   */
  lemma {:induction false} Detaches(doc: Json, pos: Position)
    requires IsNode(doc, pos) && pos != [] && Distinct(doc) && Indexable(doc)
    ensures var path := PointerTo(doc, pos);
            && Find(doc, path) == Some(NodeAt(doc, pos))
            && Perform(doc, path, Remove, None) == Some(Dropped(doc, pos))
            && (DetachPath(doc, path, true) == Some((NodeAt(doc, pos), Dropped(doc, pos))) <==> Reached(doc, pos))
    decreases |pos|
  {
    hide Perform, Find, DetachPath, TokenOf, Distinct, Indexable, Children, WithChild, WithoutChild, Selects,
      FindsItself;
    var i := pos[0];
    ProperSelects(doc, i);
    var child := Children(doc)[i];
    var rest := PointerTo(child, pos[1..]);
    PointerIsTail(child, pos[1..]);
    FindsBelow(doc, i, rest);
    if |pos| == 1 {
      assert pos[1..] == [];
      DetachesChild(doc, i);
    } else {
      Detaches(child, pos[1..]);
      BelowIsPath(child, pos[1..]);
      PerformBelow(doc, i, rest, Remove, None);
      DetachBelow(doc, i, rest);
      SameOnlyChild(doc, i);
    }
  }

  lemma {:induction false} BelowIsPath(doc: Json, pos: Position)
    requires IsNode(doc, pos) && pos != []
    ensures PointerTo(doc, pos) != "" && PointerTo(doc, pos)[0] == '/'
  {
  }

  lemma {:induction false} SameOnlyChild(doc: Json, i: nat)
    requires i < |Children(doc)|
    ensures forall a, b :: WithChild(doc, i, a) == WithChild(doc, i, b) ==> a == b
  {
    forall a, b | WithChild(doc, i, a) == WithChild(doc, i, b)
      ensures a == b
    {
      assert Children(WithChild(doc, i, a))[i] == a && Children(WithChild(doc, i, b))[i] == b;
    }
  }

  lemma {:induction false} DetachesChild(doc: Json, i: nat)
    requires i < |Children(doc)| && Selects(doc, i)
    ensures var path := "/" + TokenOf(doc, i) + "";
            && Find(Children(doc)[i], "") == Some(Children(doc)[i])
            && Perform(doc, path, Remove, None) == Some(WithoutChild(doc, i))
            && (DetachPath(doc, path, true) == Some((Children(doc)[i], WithoutChild(doc, i)))
                <==> (doc.Object? ==> FindsItself(doc.members, doc.members[i].key)))
  {
    hide Perform, DetachPath, Escape, Decimal, FindsItself;
    var token := TokenOf(doc, i);
    assert "/" + token + "" == "/" + token;
    if doc.Object? { DetachesMember(doc.members, i); } else { DetachesItem(doc.items, i); }
  }

  // ----- Putting a value in -----

  /** A child of this name can be added to the node. */
  predicate CanAdd(node: Json, name: string) {
    || node.Object?
    || (node.Array? && |node.items| < SIZE_MAX_PLUS_1 && (name == "-" || IndexNamed(name, |node.items| + 1).Some?))
  }

  lemma {:induction false} AddsHere(node: Json, name: string, value: Json)
    requires CanAdd(node, name)
    ensures AddNamed(node, name, value).Some?
    ensures var path := "/" + Escape(name);
            && Perform(node, path, Add, Some(value)) == AddNamed(node, name, value)
            && (AddPath(node, path, value, true) == (0, AddNamed(node, name, value).value)
                <==> (node.Object? ==> Survives(name)))
  {
    hide Perform, Escape, DecodeInPlace, IndexOf, Survives, Split, Decimal, DecodeIndex;
    PerformHere(node, name, Add, Some(value));
    EscapeNoSlash(name);
    SplitHere(node, Escape(name));
    SurvivesIff(name);
    if node.Object? {
      AddsMember(node.members, name, DecodeInPlace(Escape(name)), value);
    } else {
      AddsItem(node.items, name, value);
    }
  }

  /** Adding under another name gives another object. */
  lemma {:induction false} AddsMember(ms: seq<Member>, name: string, other: string, value: Json)
    ensures AddChild(Object(ms), other, value, true) == (0, AddNamed(Object(ms), name, value).value) <==> other == name
  {
    hide IndexOf;
    var r := AddChild(Object(ms), other, value, true).1.members;
    var w := AddNamed(Object(ms), name, value).value.members;
    assert r[|r| - 1] == Member(other, value) && w[|w| - 1] == Member(name, value);
  }

  lemma {:induction false} AddsItem(items: seq<Json>, name: string, value: Json)
    requires CanAdd(Array(items), name)
    ensures DecodeInPlace(Escape(name)) == name
    ensures AddChild(Array(items), name, value, true) == (0, AddNamed(Array(items), name, value).value)
  {
    hide DecodeFrom, Escape, Decimal, DecodeIndex;
    if name == "-" {
      EscapePlain(name);
      DecodeNothing(name, 0);
      assert items[..|items|] + [value] + items[|items|..] == items + [value];
    } else {
      DecimalToken(Array(items), IndexNamed(name, |items| + 1).value);
    }
  }

  /** By the RFC a value is added at a location; apply_patch does the same exactly if a member's name survives. */
  lemma {:induction false} Adds(doc: Json, pos: Position, name: string, value: Json)
    requires IsNode(doc, pos) && Distinct(doc) && Indexable(doc) && CanAdd(NodeAt(doc, pos), name)
    ensures AddNamed(NodeAt(doc, pos), name, value).Some?
    ensures var path := PointerTo(doc, pos) + "/" + Escape(name);
            var r := Put(doc, pos, AddNamed(NodeAt(doc, pos), name, value).value);
            && Perform(doc, path, Add, Some(value)) == Some(r)
            && (AddPath(doc, path, value, true) == (0, r) <==> (NodeAt(doc, pos).Object? ==> Survives(name)))
    decreases |pos|
  {
    hide Perform, AddPath, AddNamed, TokenOf, Distinct, Indexable, Children, WithChild, Selects, Survives, CanAdd,
      Escape;
    if pos == [] {
      AddsHere(doc, name, value);
      assert PointerTo(doc, pos) + "/" + Escape(name) == "/" + Escape(name);
    } else {
      var i := pos[0];
      ProperSelects(doc, i);
      var child := Children(doc)[i];
      Adds(child, pos[1..], name, value);
      var rest := PointerTo(child, pos[1..]) + "/" + Escape(name);
      PointerIsTail(child, pos[1..]);
      assert PointerTo(doc, pos) + "/" + Escape(name) == "/" + TokenOf(doc, i) + rest;
      PerformBelow(doc, i, rest, Add, Some(value));
      AddBelow(doc, i, rest, value);
      SameOnlyChild(doc, i);
    }
  }

  // ----- Copy and move -----

  /** Where a child of this name is added to the node at a position. */
  function Location(doc: Json, pos: Position, name: string): string
    requires IsNode(doc, pos)
  {
    PointerTo(doc, pos) + "/" + Escape(name)
  }

  function CopyFrom(from: string, path: string): Patch { Patch(Copy, path, None, Some(String(from))) }

  function MoveFrom(from: string, path: string): Patch { Patch(Move, path, None, Some(String(from))) }

  /** `copy` between any two locations does what the RFC asks for exactly if a new member's name survives. */
  lemma {:induction false} CopiesIff(doc: Json, from: Position, to: Position, name: string)
    requires IsNode(doc, from) && IsNode(doc, to) && Distinct(doc) && Indexable(doc) && CanAdd(NodeAt(doc, to), name)
    ensures AddNamed(NodeAt(doc, to), name, NodeAt(doc, from)).Some?
    ensures var p := CopyFrom(PointerTo(doc, from), Location(doc, to, name));
            var r := Put(doc, to, AddNamed(NodeAt(doc, to), name, NodeAt(doc, from)).value);
            && Performed(doc, p) == Some(r)
            && (Apply(doc, p, true) == (0, r) <==> (NodeAt(doc, to).Object? ==> Survives(name)))
  {
    hide Perform, Find, AddPath, DetachPath, AddNamed, Locate, PointerTo, Distinct, Indexable, Survives, CanAdd, Escape,
      Put, NodeAt;
    FindsNode(doc, from);
    PointerRoundTrip(doc, from);
    Adds(doc, to, name, NodeAt(doc, from));
  }

  lemma {:induction false} FindsNode(doc: Json, pos: Position)
    requires IsNode(doc, pos) && Distinct(doc) && Indexable(doc)
    ensures Find(doc, PointerTo(doc, pos)) == Some(NodeAt(doc, pos))
  {
    hide Perform, DetachPath, Distinct, Indexable, Reached;
    if pos != [] { Detaches(doc, pos); }
  }

  lemma {:induction false} DroppedIsProper(doc: Json, pos: Position)
    requires IsNode(doc, pos) && pos != [] && Distinct(doc) && Indexable(doc)
    ensures Distinct(Dropped(doc, pos)) && Indexable(Dropped(doc, pos))
    decreases |pos|
  {
    var i := pos[0];
    ProperSelects(doc, i);
    if |pos| > 1 { DroppedIsProper(Children(doc)[i], pos[1..]); }
  }

  /**
   * `move` between any two locations, the second one in what is left without the value: it takes out and puts in what
   * the RFC asks for exactly if the path of the first reaches its node and a new member's name survives.
   */
  lemma {:induction false} MovesIff(doc: Json, from: Position, to: Position, name: string)
    requires IsNode(doc, from) && from != [] && Distinct(doc) && Indexable(doc)
    requires IsNode(Dropped(doc, from), to) && CanAdd(NodeAt(Dropped(doc, from), to), name)
    requires !Inside(PointerTo(doc, from), Location(Dropped(doc, from), to, name))
    ensures var rest, value := Dropped(doc, from), NodeAt(doc, from);
            AddNamed(NodeAt(rest, to), name, value).Some?
    ensures var rest, value := Dropped(doc, from), NodeAt(doc, from);
            var source, path := PointerTo(doc, from), Location(rest, to, name);
            var p := MoveFrom(source, path);
            var r := Put(rest, to, AddNamed(NodeAt(rest, to), name, value).value);
            var good := Reached(doc, from) && (NodeAt(rest, to).Object? ==> Survives(name));
            && Performed(doc, p) == Some(r)
            && (DetachPath(doc, source, true) == Some((value, rest)) && AddPath(rest, path, value, true) == (0, r)
                <==> good)
            && (good ==> Apply(doc, p, true) == (0, r))
  {
    hide Perform, Find, AddPath, DetachPath, AddNamed, Locate, PointerTo, Distinct, Indexable, Survives, CanAdd, Escape,
      Put, NodeAt, Dropped, Reached, Inside;
    Detaches(doc, from);
    DroppedIsProper(doc, from);
    Adds(Dropped(doc, from), to, name, NodeAt(doc, from));
  }

  // ----- Within one object -----

  function OthersThan(ms: seq<Member>, name: string): seq<Member> {
    if Has(ms, name) then Without(ms, IndexOf(ms, name)) else ms
  }

  /** Taking out another member than the one with this key leads to another object, whatever is added then. */
  lemma {:induction false} AnotherObject(ms: seq<Member>, n: nat, i: nat, name: string, a: Json, b: Json)
    requires DistinctKeys(ms) && n < |ms| && i < |ms| && i != n
    ensures OthersThan(Without(ms, i), name) + [Member(name, a)] != OthersThan(Without(ms, n), name) + [Member(name, b)]
  {
    hide IndexOf, DistinctKeys, OthersThan, Without;
    var key := ms[n].key;
    HasAt(ms, n);
    HasAt(ms, i);
    StillHas(ms, i, key);
    WithoutKey(ms, key, key);
    WithoutKey(ms, ms[i].key, key);
    if name == key {
      OneLess(Without(ms, i), name);
      NoneLess(Without(ms, n), name);
      assert |Without(ms, i)| == |Without(ms, n)| by { SameLength(ms, i, n); }
    } else {
      OthersKeep(Without(ms, i), name, key);
      OthersKeep(Without(ms, n), name, key);
      HasAppended(OthersThan(Without(ms, i), name), Member(name, a), key);
      HasAppended(OthersThan(Without(ms, n), name), Member(name, b), key);
    }
  }

  lemma {:induction false} SameLength(ms: seq<Member>, i: nat, n: nat)
    requires i < |ms| && n < |ms|
    ensures |Without(ms, i)| == |Without(ms, n)|
  {
  }

  lemma {:induction false} OneLess(ms: seq<Member>, name: string)
    requires Has(ms, name)
    ensures |OthersThan(ms, name)| == |ms| - 1
  {
  }

  lemma {:induction false} NoneLess(ms: seq<Member>, name: string)
    requires !Has(ms, name)
    ensures |OthersThan(ms, name)| == |ms|
  {
  }

  lemma {:induction false} HasAppended(ms: seq<Member>, m: Member, key: string)
    requires m.key != key
    ensures Has(ms + [m], key) <==> Has(ms, key)
  {
    hide IndexOf;
    HasMeans(ms, key);
    HasMeans(ms + [m], key);
    if Has(ms, key) { assert (ms + [m])[IndexOf(ms, key)].key == key; }
  }

  lemma {:induction false} OthersKeep(ms: seq<Member>, name: string, key: string)
    requires DistinctKeys(ms) && key != name
    ensures Has(OthersThan(ms, name), key) <==> Has(ms, key)
  {
    hide IndexOf;
    if Has(ms, name) { WithoutKey(ms, name, key); }
  }

  /** What apply_patch makes of a move within an object. */
  lemma {:induction false} MovesHere(ms: seq<Member>, key: string, name: string)
    ensures var i := IndexIgnoringCase(ms, DecodeInPlace(Escape(key)));
            var other := DecodeInPlace(Escape(name));
            Apply(Object(ms), MoveFrom("/" + Escape(key), "/" + Escape(name)), true)
            == if i == |ms| then (5, Object(ms))
               else (0, Object(OthersThan(Without(ms, i), other) + [Member(other, ms[i].value)]))
  {
    hide Escape, DecodeInPlace, IndexIgnoringCase, Split, OthersThan, Without;
    EscapeNoSlash(key);
    EscapeNoSlash(name);
    SplitHere(Object(ms), Escape(key));
    var i := IndexIgnoringCase(ms, DecodeInPlace(Escape(key)));
    if i < |ms| {
      SplitHere(Object(Without(ms, i)), Escape(name));
      AddsUnder(Without(ms, i), DecodeInPlace(Escape(name)), ms[i].value);
    }
  }

  /** What the RFC makes of it. */
  lemma {:induction false} MovedHere(ms: seq<Member>, n: nat, name: string)
    requires DistinctKeys(ms) && n < |ms|
    ensures Performed(Object(ms), MoveFrom("/" + Escape(ms[n].key), "/" + Escape(name)))
            == Some(Object(OthersThan(Without(ms, n), name) + [Member(name, ms[n].value)]))
  {
    hide Perform, Find, Escape, DetachPath, AddPath, IndexOf, DistinctKeys, Without, Survives, FindsItself;
    DetachesMember(ms, n);
    AddsHere(Object(Without(ms, n)), name, ms[n].value);
    NotInside(ms[n].key, name);
    FindsMemberHere(ms, n);
  }

  /**
   * `move` gives a member of an object another name, or the same again, exactly if its path reaches it and the new name
   * survives; otherwise it fails or gives another object.
   */
  lemma {:induction false} MovesItselfIff(ms: seq<Member>, key: string, name: string)
    requires DistinctKeys(ms) && Has(ms, key)
    ensures var p := MoveFrom("/" + Escape(key), "/" + Escape(name));
            var r := Object(OthersThan(Without(ms, IndexOf(ms, key)), name) + [Member(name, Value(ms, key))]);
            && Performed(Object(ms), p) == Some(r)
            && (Apply(Object(ms), p, true) == (0, r) <==> FindsItself(ms, key) && Survives(name))
  {
    hide Apply, Performed, Escape, DecodeInPlace, IndexOf, IndexIgnoringCase, FindsItself, Survives, DistinctKeys,
      OthersThan, Without;
    var n := IndexOf(ms, key);
    MovedHere(ms, n, name);
    MovesHere(ms, key, name);
    FindsItselfIff(ms, key);
    SurvivesIff(name);
    var i := IndexIgnoringCase(ms, DecodeInPlace(Escape(key)));
    if i < |ms| {
      var other := DecodeInPlace(Escape(name));
      LastMember(OthersThan(Without(ms, i), other), Member(other, ms[i].value));
      LastMember(OthersThan(Without(ms, n), name), Member(name, ms[n].value));
      if i != n { AnotherObject(ms, n, i, name, ms[i].value, ms[n].value); }
    }
  }

  lemma {:induction false} AddsUnder(ms: seq<Member>, name: string, value: Json)
    ensures AddChild(Object(ms), name, value, true) == (0, Object(OthersThan(ms, name) + [Member(name, value)]))
  {
  }

  lemma {:induction false} NotInside(key: string, name: string)
    ensures !Inside("/" + Escape(key), "/" + Escape(name))
  {
    hide Escape;
    EscapeNoSlash(name);
    var a, b := "/" + Escape(key), "/" + Escape(name);
    if |a| < |b| { assert b[|a|] == Escape(name)[|a| - 1]; }
  }

  lemma {:induction false} FindsMemberHere(ms: seq<Member>, n: nat)
    requires DistinctKeys(ms) && n < |ms|
    ensures Find(Object(ms), "/" + Escape(ms[n].key)) == Some(ms[n].value)
  {
    hide Escape, TokenOf;
    var doc, token := Object(ms), Escape(ms[n].key);
    TokenOfMember(ms, n);
    FindsBelow(doc, n, "");
    assert "/" + token + "" == "/" + token;
  }

  lemma {:induction false} TokenOfMember(ms: seq<Member>, n: nat)
    requires n < |ms|
    ensures TokenOf(Object(ms), n) == Escape(ms[n].key) && Children(Object(ms))[n] == ms[n].value
  {
  }
}

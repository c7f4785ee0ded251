/** The operations of RFC 6902, and when apply_patch does what they ask for. */
module JsonRfc6902 {
  import opened JsonTree
  import opened JsonPointer
  import opened JsonPatch
  import opened JsonDiff
  import opened JsonEdit
  import opened Options

  // ----- Names in a path -----

  /** The name that a token stands for (RFC 6901, section 4). */
  function Unescape(token: string): string {
    if token == "" then ""
    else if |token| > 1 && token[0] == '~' && token[1] == '1' then "/" + Unescape(token[2..])
    else if |token| > 1 && token[0] == '~' && token[1] == '0' then "~" + Unescape(token[2..])
    else [token[0]] + Unescape(token[1..])
  }

  lemma {:induction false} UnescapesEscaped(key: string)
    ensures Unescape(Escape(key)) == key
  {
    if key != "" {
      EscapeHead(key, "");
      assert Escape(key) + "" == Escape(key) && Escape(key[1..]) + "" == Escape(key[1..]);
      UnescapesEscaped(key[1..]);
      assert key == [key[0]] + key[1..];
    }
  }

  /** The index below n that is written so. */
  function IndexNamed(name: string, n: nat): (r: Option<nat>)
    ensures r.Some? ==> r.value < n && Decimal(r.value) == name
  {
    if n == 0 then None else if Decimal(n - 1) == name then Some(n - 1) else IndexNamed(name, n - 1)
  }

  lemma {:induction false} DecimalInjective(a: nat, b: nat)
    requires Decimal(a) == Decimal(b)
    ensures a == b
  {
    var s := Decimal(a);
    if a >= 10 && b >= 10 {
      assert s[|s| - 1] == DigitChar(a % 10) == DigitChar(b % 10);
      assert s[..|s| - 1] == Decimal(a / 10) == Decimal(b / 10);
      DecimalInjective(a / 10, b / 10);
    } else {
      assert |s| == 1;
    }
  }

  lemma {:induction false} NamedByDecimal(i: nat, n: nat)
    requires i < n
    ensures IndexNamed(Decimal(i), n) == Some(i)
  {
    hide Decimal;
    if Decimal(n - 1) == Decimal(i) {
      DecimalInjective(n - 1, i);
    } else {
      NamedByDecimal(i, n - 1);
    }
  }

  // ----- Operations -----

  function ChildNamed(node: Json, name: string): (r: Option<nat>)
    ensures r.Some? ==> r.value < |Children(node)|
  {
    match node
    case Array(items) => IndexNamed(name, |items|)
    case Object(members) => if Has(members, name) then Some(IndexOf(members, name)) else None
    case _ => None
  }

  /** Add a child of this name (RFC 6902, section 4.1); a member comes last, instead of one that was there. */
  function AddNamed(node: Json, name: string, value: Json): Option<Json> {
    match node
    case Array(items) =>
      var i := if name == "-" then Some(|items|) else IndexNamed(name, |items| + 1);
      if i.None? then None else Some(Array(items[..i.value] + [value] + items[i.value..]))
    case Object(members) =>
      var others := if Has(members, name) then Without(members, IndexOf(members, name)) else members;
      Some(Object(others + [Member(name, value)]))
    case _ => None
  }

  /** Remove the child of this name (section 4.2). */
  function RemoveNamed(node: Json, name: string): Option<Json> {
    var i := ChildNamed(node, name);
    if i.None? then None
    else if node.Array? then Some(Array(Without(node.items, i.value)))
    else Some(Object(Without(node.members, i.value)))
  }

  /** Replace the child of this name (section 4.3); a member moves to the end. */
  function ReplaceNamed(node: Json, name: string, value: Json): Option<Json> {
    var i := ChildNamed(node, name);
    if i.None? then None
    else if node.Array? then Some(Array(node.items[i.value := value]))
    else Some(Object(Without(node.members, i.value) + [Member(name, value)]))
  }

  /** What an operation on one location makes of the child of a node. */
  function Edited(node: Json, name: string, op: Operation, value: Option<Json>): Option<Json> {
    if op.Remove? then RemoveNamed(node, name)
    else if value.None? then None
    else if op.Add? then AddNamed(node, name, value.value)
    else if op.Replace? then ReplaceNamed(node, name, value.value)
    else None
  }

  /** The document after the operation, or nothing if it fails. */
  function Perform(doc: Json, path: string, op: Operation, value: Option<Json>): Option<Json>
    decreases |path|
  {
    if path == "" then if op.Add? || op.Replace? then value else None
    else if path[0] != '/' then None
    else
      var rest := SkipToken(path[1..]);
      SkipTokenShortens(path[1..]);
      var name := Unescape(path[1..|path| - |rest|]);
      if rest == "" then Edited(doc, name, op, value)
      else
        var i := ChildNamed(doc, name);
        if i.None? then None
        else
          var child := Perform(Children(doc)[i.value], rest, op, value);
          if child.None? then None else Some(WithChild(doc, i.value, child.value))
  }

  /** The value at a location (RFC 6901, section 4). */
  function Find(doc: Json, path: string): Option<Json>
    decreases |path|
  {
    if path == "" then Some(doc)
    else if path[0] != '/' then None
    else
      var rest := SkipToken(path[1..]);
      SkipTokenShortens(path[1..]);
      var i := ChildNamed(doc, Unescape(path[1..|path| - |rest|]));
      if i.None? then None else Find(Children(doc)[i.value], rest)
  }

  /** The one location is inside the other. */
  predicate Inside(outer: string, inner: string) {
    |outer| < |inner| && inner[..|outer|] == outer && inner[|outer|] == '/'
  }

  /** Remove the value at `from` and add it at the path (RFC 6902, section 4.4). */
  function Moved(doc: Json, from: string, path: string): Option<Json> {
    var value := Find(doc, from);
    var rest := Perform(doc, from, Remove, None);
    if value.None? || rest.None? || Inside(from, path) then None else Perform(rest.value, path, Add, value)
  }

  /** Add the value at `from` at the path (section 4.5). */
  function Copied(doc: Json, from: string, path: string): Option<Json> {
    var value := Find(doc, from);
    if value.None? then None else Perform(doc, path, Add, value)
  }

  /** The document after one operation; `test`, which changes nothing, is not here. */
  function Performed(doc: Json, p: Patch): Option<Json> {
    if p.operation.Move? || p.operation.Copy? then
      if p.from.None? || !p.from.value.String? then None
      else if p.operation.Move? then Moved(doc, p.from.value.text, p.path)
      else Copied(doc, p.from.value.text, p.path)
    else Perform(doc, p.path, p.operation, p.value)
  }

  function PerformedAll(doc: Json, patches: seq<Patch>): Option<Json>
    decreases |patches|
  {
    if patches == [] then Some(doc)
    else
      var r := Performed(doc, patches[0]);
      if r.None? then None else PerformedAll(r.value, patches[1..])
  }

  // ----- Operations below a child -----

  lemma {:induction false} TokenNames(doc: Json, i: nat, rest: string)
    requires i < |Children(doc)| && Selects(doc, i) && Tail(rest)
    ensures SkipToken(TokenOf(doc, i) + rest) == rest && ChildNamed(doc, Unescape(TokenOf(doc, i))) == Some(i)
  {
    hide SkipToken, Escape, Decimal, Unescape, IndexOf, IndexNamed;
    TokenFindsChild(doc, i, rest);
    if doc.Object? {
      UnescapesEscaped(doc.members[i].key);
      HasAt(doc.members, i);
    } else {
      DecimalIsPlain(i);
      EscapePlain(Decimal(i));
      UnescapesEscaped(Decimal(i));
      NamedByDecimal(i, |doc.items|);
    }
  }

  lemma {:induction false} PerformBelow(doc: Json, i: nat, rest: string, op: Operation, value: Option<Json>)
    requires i < |Children(doc)| && Selects(doc, i) && rest != "" && rest[0] == '/'
    ensures var child := Perform(Children(doc)[i], rest, op, value);
            Perform(doc, "/" + TokenOf(doc, i) + rest, op, value)
            == if child.None? then None else Some(WithChild(doc, i, child.value))
  {
    hide SkipToken, TokenOf, Unescape, ChildNamed, Children, WithChild, Selects, Edited;
    var token := TokenOf(doc, i);
    var path := "/" + token + rest;
    TokenNames(doc, i, rest);
    assert path[1..] == token + rest && path[1..|path| - |rest|] == token;
  }

  lemma {:induction false} PerformHere(node: Json, name: string, op: Operation, value: Option<Json>)
    ensures Perform(node, "/" + Escape(name), op, value) == Edited(node, name, op, value)
  {
    hide SkipToken, Unescape, ChildNamed, Children, WithChild, Edited, Escape;
    var path := "/" + Escape(name);
    assert path[1..] == Escape(name) == Escape(name) + "" == path[1..|path| - 0];
    SkipsEscaped(name, "");
    UnescapesEscaped(name);
  }

  // ----- Following the RFC -----

  /** In each of these operations apply_patch does what the RFC asks for. */
  predicate Follows(doc: Json, patches: seq<Patch>)
    decreases |patches|
  {
    patches == [] ||
    (var r := Performed(doc, patches[0]);
     r.Some? && Apply(doc, patches[0], true) == (0, r.value) && Follows(r.value, patches[1..]))
  }

  lemma {:induction false} FollowsApplies(doc: Json, patches: seq<Patch>)
    requires Follows(doc, patches)
    ensures var r := ApplyAll(doc, patches, true); r.0 == 0 && PerformedAll(doc, patches) == Some(r.1)
    decreases |patches|
  {
    hide Apply, Performed;
    if patches != [] { FollowsApplies(Performed(doc, patches[0]).value, patches[1..]); }
  }

  /** The operations make r of the document, and apply_patch follows them in every step exactly if this is good. */
  ghost predicate Goes(doc: Json, patches: seq<Patch>, r: Json, good: bool) {
    PerformedAll(doc, patches) == Some(r) && (Follows(doc, patches) <==> good)
  }

  lemma {:induction false} GoesNowhere(doc: Json)
    ensures Goes(doc, [], doc, true)
  {
  }

  lemma {:induction false} GoesConcat(doc: Json, a: seq<Patch>, x: Json, good: bool, b: seq<Patch>, r: Json,
                                      goodRest: bool)
    requires Goes(doc, a, x, good) && Goes(x, b, r, goodRest)
    ensures Goes(doc, a + b, r, good && goodRest)
    decreases |a|
  {
    hide Apply, Performed;
    if a == [] {
      assert a + b == b;
    } else {
      assert (a + b)[0] == a[0] && (a + b)[1..] == a[1..] + b;
      var next := Performed(doc, a[0]).value;
      GoesConcat(next, a[1..], x, Follows(next, a[1..]), b, r, goodRest);
    }
  }

  lemma {:induction false} GoesOne(doc: Json, p: Patch, r: Json, good: bool)
    requires Performed(doc, p) == Some(r) && (Apply(doc, p, true) == (0, r) <==> good)
    ensures Goes(doc, [p], r, good)
  {
    hide Apply, Performed;
    assert [p][1..] == [];
    GoesNowhere(r);
  }

  lemma {:induction false} GoesFirst(doc: Json, p: Patch, x: Json, good: bool, b: seq<Patch>, r: Json, goodRest: bool)
    requires Performed(doc, p) == Some(x) && (Apply(doc, p, true) == (0, x) <==> good) && Goes(x, b, r, goodRest)
    ensures Goes(doc, [p] + b, r, good && goodRest)
  {
    hide Goes, Apply, Performed;
    GoesOne(doc, p, x, good);
    GoesConcat(doc, [p], x, good, b, r, goodRest);
  }

  /** Operations below a child follow the RFC as they do on the child alone. */
  lemma {:induction false} GoesBelow(doc: Json, i: nat, patches: seq<Patch>, r: Json, good: bool)
    requires i < |Children(doc)| && Selects(doc, i) && AllInner(patches) && Goes(Children(doc)[i], patches, r, good)
    ensures Goes(doc, Prefixed("/" + TokenOf(doc, i), patches), WithChild(doc, i, r), good)
    decreases |patches|
  {
    hide Apply, Perform, TokenOf, Children, WithChild, Selects;
    if patches == [] {
      SameChild(doc, i);
    } else {
      var p := "/" + TokenOf(doc, i);
      var child := Children(doc)[i];
      var next := Performed(child, patches[0]).value;
      ApplyBelow(doc, i, patches[0]);
      PerformBelow(doc, i, patches[0].path, patches[0].operation, patches[0].value);
      var all := Prefixed(p, patches);
      assert all[0] == patches[0].(path := p + patches[0].path) && all[1..] == Prefixed(p, patches[1..]);
      StillSelects(doc, i, next);
      StillSelects(doc, i, Apply(child, patches[0], true).1);
      GoesBelow(WithChild(doc, i, next), i, patches[1..], r, Follows(next, patches[1..]));
      assert Performed(doc, all[0]) == Some(WithChild(doc, i, next));
      assert Apply(doc, all[0], true) == (0, WithChild(doc, i, next)) <==> Apply(child, patches[0], true) == (0, next);
    }
  }

  // ----- Elements and members -----

  lemma {:induction false} GoesAppend(items: seq<Json>, value: Json)
    ensures Goes(Array(items), [AddAt("" + "/" + Escape("-"), value)], Array(items + [value]), true)
  {
    hide Apply, Perform, Escape, Goes;
    AppendItem(items, value);
    PerformHere(Array(items), "-", Add, Some(value));
    assert "" + "/" + Escape("-") == "/" + Escape("-");
    assert items[..|items|] + [value] + items[|items|..] == items + [value];
    GoesOne(Array(items), AddAt("" + "/" + Escape("-"), value), Array(items + [value]), true);
  }

  lemma {:induction false} GoesWithoutItem(items: seq<Json>, n: nat)
    requires n < |items| && n < SIZE_MAX_PLUS_1
    ensures Goes(Array(items), [RemoveAt("" + "/" + Escape(Decimal(n)))], Array(Without(items, n)), true)
  {
    hide Apply, Perform, Escape, Decimal, Goes;
    RemoveItem(items, n);
    PerformHere(Array(items), Decimal(n), Remove, None);
    NamedByDecimal(n, |items|);
    assert "" + "/" + Escape(Decimal(n)) == "/" + Escape(Decimal(n));
    GoesOne(Array(items), RemoveAt("" + "/" + Escape(Decimal(n))), Array(Without(items, n)), true);
  }

  lemma {:induction false} GoesWithItem(items: seq<Json>, n: nat, value: Json)
    requires n < |items| && n < SIZE_MAX_PLUS_1
    ensures Goes(Array(items), [ReplaceBy("/" + Decimal(n), value)], Array(items[n := value]), true)
  {
    hide Apply, Perform, Escape, Decimal, Goes, DecodeIndex, DecodeInPlace;
    ReplaceItem(items, n, value);
    DecimalToken(Array(items), n);
    PerformHere(Array(items), Decimal(n), Replace, Some(value));
    NamedByDecimal(n, |items|);
    GoesOne(Array(items), ReplaceBy("/" + Decimal(n), value), Array(items[n := value]), true);
  }

  lemma {:induction false} GoesWithoutMember(ms: seq<Member>, key: string)
    requires DistinctKeys(ms) && Has(ms, key)
    ensures Performed(Object(ms), RemoveAt("/" + Escape(key))) == Some(Object(Without(ms, IndexOf(ms, key))))
    ensures Apply(Object(ms), RemoveAt("/" + Escape(key)), true) == (0, Object(Without(ms, IndexOf(ms, key))))
            <==> FindsItself(ms, key)
  {
    hide Apply, Perform, Escape, IndexOf, FindsItself;
    RemovesItselfIff(ms, key);
    PerformHere(Object(ms), key, Remove, None);
  }

  lemma {:induction false} GoesWithMember(ms: seq<Member>, key: string, value: Json)
    requires DistinctKeys(ms) && !Has(ms, key)
    ensures Performed(Object(ms), AddAt("/" + Escape(key), value)) == Some(Object(ms + [Member(key, value)]))
    ensures Apply(Object(ms), AddAt("/" + Escape(key), value), true) == (0, Object(ms + [Member(key, value)]))
            <==> Survives(key)
  {
    hide Apply, Perform, Escape, IndexOf, Survives;
    AddsItselfIff(ms, key, value);
    PerformHere(Object(ms), key, Add, Some(value));
  }

  /** `replace` replaces the member that it names exactly if its path finds it and its name comes back. */
  lemma {:induction false} ReplacesItselfIff(ms: seq<Member>, key: string, value: Json)
    requires DistinctKeys(ms) && Has(ms, key)
    ensures Performed(Object(ms), ReplaceBy("/" + Escape(key), value))
            == Some(Object(Without(ms, IndexOf(ms, key)) + [Member(key, value)]))
    ensures Apply(Object(ms), ReplaceBy("/" + Escape(key), value), true)
              == (0, Object(Without(ms, IndexOf(ms, key)) + [Member(key, value)]))
            <==> FindsItself(ms, key) && Survives(key)
  {
    hide Apply, Perform, Escape, DecodeInPlace, IndexOf, IndexIgnoringCase, FindsItself, Survives, DistinctKeys;
    PerformHere(Object(ms), key, Replace, Some(value));
    EscapeNoSlash(key);
    ReplaceHere(Object(ms), Escape(key), value);
    FindsItselfIff(ms, key);
    SurvivesIff(key);
    var name := DecodeInPlace(Escape(key));
    var i, n := IndexIgnoringCase(ms, name), IndexOf(ms, key);
    WithoutKey(ms, key, key);
    if i < |ms| {
      var others := Without(ms, i);
      var r := if Has(others, name) then Without(others, IndexOf(others, name)) else others;
      LastMember(r, Member(name, value));
      LastMember(Without(ms, n), Member(key, value));
      if name == key && i != n { StillHas(ms, i, key); }
    }
  }

  lemma {:induction false} LastMember(ms: seq<Member>, m: Member)
    ensures |ms + [m]| == |ms| + 1 && (ms + [m])[|ms|] == m
  {
  }

  lemma {:induction false} StillHas(ms: seq<Member>, i: nat, key: string)
    requires i < |ms| && Has(ms, key) && i != IndexOf(ms, key)
    ensures Has(Without(ms, i), key)
  {
    hide IndexOf;
    var n := IndexOf(ms, key);
    var r := Without(ms, i);
    HasAt(r, if n < i then n else n - 1);
  }
}

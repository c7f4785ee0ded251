/** JSON Patch: apply_patch and the patches that create_patches writes. */
module JsonPatch {
  import opened JsonTree
  import opened JsonPointer
  import opened JsonSort
  import opened JsonCompare
  import opened JsonReorder
  import opened Options

  // ----- Taking a path apart -----

  /**
   * decode_pointer_inplace with the reader at i and the writer at j of the buffer: an escape is decoded, but ~1 one
   * place too far, and no other character is moved.
   */
  function DecodeFrom(buffer: string, i: nat, j: nat): string
    requires j <= i <= |buffer|
    decreases |buffer| - i
  {
    if i == |buffer| then buffer[..j]
    else if buffer[i] != '~' then DecodeFrom(buffer, i + 1, j + 1)
    else if i + 1 < |buffer| && buffer[i + 1] == '0' then DecodeFrom(buffer[j := '~'], i + 2, j + 1)
    else if i + 1 < |buffer| && buffer[i + 1] == '1' then DecodeFrom(buffer[j + 1 := '/'], i + 2, j + 1)
    else buffer
  }

  function DecodeInPlace(s: string): string { DecodeFrom(s, 0, 0) }

  /** strrchr(s, '/'), or -1 */
  function LastSlash(s: string): (i: int)
    ensures -1 <= i < |s|
  {
    if s == "" then -1 else if s[|s| - 1] == '/' then |s| - 1 else LastSlash(s[..|s| - 1])
  }

  /** The node that a path's parent pointer selects, and the name of the child in it. */
  function Split(doc: Json, path: string, caseSensitive: bool): (r: Option<(Position, string)>)
    ensures r.Some? ==> IsNode(doc, r.value.0)
  {
    var slash := LastSlash(path);
    if slash < 0 then None
    else
      var parent := Locate(doc, path[..slash], caseSensitive);
      if parent.None? then None else Some((parent.value, DecodeInPlace(path[slash + 1..])))
  }

  // ----- Editing one node -----

  function Without<T>(s: seq<T>, i: nat): seq<T>
    requires i < |s|
  {
    s[..i] + s[i + 1..]
  }

  /** cJSON_GetObjectItem, which ignores case. */
  function IndexIgnoringCase(ms: seq<Member>, key: string): (i: nat)
    ensures i <= |ms|
  {
    if ms == [] || LowerAll(ms[0].key) == LowerAll(key) then 0 else 1 + IndexIgnoringCase(ms[1..], key)
  }

  function IndexFor(ms: seq<Member>, key: string, caseSensitive: bool): (i: nat)
    ensures i <= |ms|
  {
    if caseSensitive then IndexOf(ms, key) else IndexIgnoringCase(ms, key)
  }

  /** get_object_item */
  function GetItem(node: Json, key: string, caseSensitive: bool): Option<Json> {
    if node.Object? && IndexFor(node.members, key, caseSensitive) < |node.members|
    then Some(node.members[IndexFor(node.members, key, caseSensitive)].value) else None
  }

  /** What detach_path takes out of the parent, and what is left of it; the key is always looked up ignoring case. */
  function DetachChild(parent: Json, child: string): Option<(Json, Json)> {
    match parent
    case Array(items) =>
      var index := DecodeIndex(child);
      if index.None? || index.value >= |items| then None
      else Some((items[index.value], Array(Without(items, index.value))))
    case Object(members) =>
      var i := IndexIgnoringCase(members, child);
      if i >= |members| then None else Some((members[i].value, Object(Without(members, i))))
    case _ => None
  }

  /** Put a value into the parent: the status, and the parent afterwards. */
  function AddChild(parent: Json, child: string, value: Json, caseSensitive: bool): (nat, Json) {
    match parent
    case Array(items) =>
      if child == "-" then (0, Array(items + [value]))
      else
        var index := DecodeIndex(child);
        if index.None? then (11, parent)
        else if index.value > |items| then (10, parent)
        else (0, Array(items[..index.value] + [value] + items[index.value..]))
    case Object(members) =>
      var i := IndexFor(members, child, caseSensitive);
      var others := if i < |members| then Without(members, i) else members;
      (0, Object(others + [Member(child, value)]))
    case _ => (9, parent)
  }

  function DetachPath(doc: Json, path: string, caseSensitive: bool): Option<(Json, Json)> {
    var split := Split(doc, path, caseSensitive);
    if split.None? then None
    else
      var (pos, child) := split.value;
      var detached := DetachChild(NodeAt(doc, pos), child);
      if detached.None? then None else Some((detached.value.0, Put(doc, pos, detached.value.1)))
  }

  function AddPath(doc: Json, path: string, value: Json, caseSensitive: bool): (nat, Json) {
    var split := Split(doc, path, caseSensitive);
    if split.None? then (9, doc)
    else
      var (pos, child) := split.value;
      var added := AddChild(NodeAt(doc, pos), child, value, caseSensitive);
      (added.0, Put(doc, pos, added.1))
  }

  // ----- apply_patch -----

  datatype Operation = Unknown | Add | Remove | Replace | Move | Copy | Test

  /** An operation of RFC 6902, section 4. */
  datatype Patch = Patch(operation: Operation, path: string, value: Option<Json>, from: Option<Json>)

  /** The status and the document after one operation. */
  function Apply(doc: Json, p: Patch, caseSensitive: bool): (nat, Json) {
    match p.operation
    case Unknown => (3, doc)
    case Test =>
      var found := Locate(doc, p.path, caseSensitive);
      if found.None? || p.value.None? then (1, doc)
      else
        // compare_json sorts what it compares
        var node := NodeAt(doc, found.value);
        (if CompareJson(node, p.value.value, caseSensitive) then 0 else 1,
         Put(doc, found.value, Reordered(node, p.value.value, caseSensitive).0))
    case Remove =>
      if p.path == "" then (0, Invalid)
      else
        var detached := DetachPath(doc, p.path, caseSensitive);
        if detached.None? then (13, doc) else (0, detached.value.1)
    case Replace =>
      if p.path == "" then if p.value.None? then (7, doc) else (0, p.value.value)
      else
        var detached := DetachPath(doc, p.path, caseSensitive);
        if detached.None? then (13, doc)
        else if p.value.None? then (7, detached.value.1)
        else AddPath(detached.value.1, p.path, p.value.value, caseSensitive)
    case Add =>
      if p.value.None? then (7, doc)
      else if p.path == "" then (0, p.value.value)
      else AddPath(doc, p.path, p.value.value, caseSensitive)
    case Move =>
      if p.from.None? then (4, doc)
      else if !p.from.value.String? then (5, doc)
      else
        var detached := DetachPath(doc, p.from.value.text, caseSensitive);
        if detached.None? then (5, doc) else AddPath(detached.value.1, p.path, detached.value.0, caseSensitive)
    case Copy =>
      if p.from.None? then (4, doc)
      else if !p.from.value.String? then (5, doc)
      else
        var found := Locate(doc, p.from.value.text, caseSensitive);
        if found.None? then (5, doc) else AddPath(doc, p.path, NodeAt(doc, found.value), caseSensitive)
  }

  /** The operations in order, until one fails. */
  function ApplyAll(doc: Json, patches: seq<Patch>, caseSensitive: bool): (nat, Json)
    decreases |patches|
  {
    if patches == [] then (0, doc)
    else
      var r := Apply(doc, patches[0], caseSensitive);
      if r.0 != 0 then r else ApplyAll(r.1, patches[1..], caseSensitive)
  }

  lemma {:induction false} ApplyConcat(doc: Json, a: seq<Patch>, b: seq<Patch>, caseSensitive: bool)
    ensures var r := ApplyAll(doc, a, caseSensitive);
            ApplyAll(doc, a + b, caseSensitive) == if r.0 != 0 then r else ApplyAll(r.1, b, caseSensitive)
    decreases |a|
  {
    hide Apply;
    if a == [] {
      assert a + b == b;
    } else {
      assert (a + b)[0] == a[0] && (a + b)[1..] == a[1..] + b;
      var r := Apply(doc, a[0], caseSensitive);
      if r.0 == 0 { ApplyConcat(r.1, a[1..], b, caseSensitive); }
    }
  }

  // ----- A test changes nothing but the order of members -----

  lemma {:induction false} ChildAlike(doc: Json, i: nat, child: Json)
    requires Distinct(doc) && i < |Children(doc)| && Alike(Children(doc)[i], child)
    ensures Distinct(Children(doc)[i]) && Alike(doc, WithChild(doc, i, child))
  {
    hide Alike, Same, DistinctKeys;
    match doc
    case Array(items) =>
      forall k | 0 <= k < |items| && k != i
        ensures Alike(items[k], items[k])
      {
        AlikeItself(items[k]);
      }
      SameArrays(items, items[i := child]);
    case Object(members) =>
      MembersAlikeThemselves(members);
      var r := members[i := Member(members[i].key, child)];
      forall k | 0 <= k < |members|
        ensures AlikeMember(members[k], r[k])
      {
      }
      MembersAlike(members, r);
    case _ =>
  }

  lemma {:induction false} PutAlike(doc: Json, pos: Position, node: Json)
    requires Distinct(doc) && IsNode(doc, pos)
    requires Alike(NodeAt(doc, pos), node)
    ensures Distinct(NodeAt(doc, pos)) && Alike(doc, Put(doc, pos, node))
    decreases |pos|
  {
    hide Alike, Distinct, Children, WithChild;
    if pos != [] {
      var child := Children(doc)[pos[0]];
      ChildDistinct(doc, pos[0]);
      PutAlike(child, pos[1..], node);
      ChildAlike(doc, pos[0], Put(child, pos[1..], node));
    }
  }

  lemma {:induction false} ChildDistinct(doc: Json, i: nat)
    requires Distinct(doc) && i < |Children(doc)|
    ensures Distinct(Children(doc)[i])
  {
  }

  lemma {:induction false} NodeDistinct(doc: Json, pos: Position)
    requires Distinct(doc) && IsNode(doc, pos)
    ensures Distinct(NodeAt(doc, pos))
    decreases |pos|
  {
    hide Distinct, Children;
    if pos != [] {
      ChildDistinct(doc, pos[0]);
      NodeDistinct(Children(doc)[pos[0]], pos[1..]);
    }
  }

  /** A test succeeds exactly if the node matches the value; the document is the same afterwards, in another order. */
  lemma {:induction false} TestDecides(doc: Json, p: Patch)
    requires p.operation.Test? && Distinct(doc) && (p.value.Some? ==> Distinct(p.value.value))
    ensures var found := Locate(doc, p.path, true);
            var r := Apply(doc, p, true);
            && Alike(doc, r.1)
            && (r.0 == 0 <==> found.Some? && p.value.Some? && Matches(NodeAt(doc, found.value), p.value.value))
  {
    hide Locate, Alike, Distinct, Matches, CompareJson, Reordered, Put, NodeAt;
    AlikeItself(doc);
    var found := Locate(doc, p.path, true);
    if found.Some? && p.value.Some? {
      var node := NodeAt(doc, found.value);
      NodeDistinct(doc, found.value);
      CompareDecides(node, p.value.value);
      ReorderedAlike(node, p.value.value, true);
      PutAlike(doc, found.value, Reordered(node, p.value.value, true).0);
    }
  }

  // ----- Operations as JSON -----

  function OperationNamed(name: string): Operation {
    if name == "add" then Add
    else if name == "remove" then Remove
    else if name == "replace" then Replace
    else if name == "move" then Move
    else if name == "copy" then Copy
    else if name == "test" then Test
    else Unknown
  }

  function OperationName(op: Operation): string {
    match op
    case Add => "add"
    case Remove => "remove"
    case Replace => "replace"
    case Move => "move"
    case Copy => "copy"
    case Test => "test"
    case Unknown => ""
  }

  /** Read the members of an operation; without a path it is malformed. */
  function ReadPatch(node: Json, caseSensitive: bool): Option<Patch> {
    var op := GetItem(node, "op", caseSensitive);
    var path := GetItem(node, "path", caseSensitive);
    if path.None? || !path.value.String? then None
    else
      Some(Patch(if op.Some? && op.value.String? then OperationNamed(op.value.text) else Unknown, path.value.text,
                 GetItem(node, "value", caseSensitive), GetItem(node, "from", caseSensitive)))
  }

  /** What compose_patch writes. */
  function PatchNode(p: Patch): Json {
    Object([Member("op", String(OperationName(p.operation))), Member("path", String(p.path))] +
           (if p.value.Some? then [Member("value", p.value.value)] else []))
  }

  /** cJSONUtils_ApplyPatches(CaseSensitive) */
  function ApplyPatches(doc: Json, patches: Json, caseSensitive: bool): (nat, Json) {
    if !patches.Array? then (1, doc) else ApplyNodes(doc, patches.items, caseSensitive)
  }

  function ApplyNodes(doc: Json, nodes: seq<Json>, caseSensitive: bool): (nat, Json)
    decreases |nodes|
  {
    if nodes == [] then (0, doc)
    else
      var p := ReadPatch(nodes[0], caseSensitive);
      var r := if p.None? then (2, doc) else Apply(doc, p.value, caseSensitive);
      if r.0 != 0 then r else ApplyNodes(r.1, nodes[1..], caseSensitive)
  }

  /** What compose_patch writes is read back as the same operation. */
  lemma {:induction false} PatchRoundTrip(p: Patch)
    requires p.from.None? && !p.operation.Unknown?
    ensures ReadPatch(PatchNode(p), true) == Some(p)
  {
    var ms := PatchNode(p).members;
    HasAt(ms, 0);
    HasAt(ms, 1);
    if p.value.Some? { HasAt(ms, 2); }
    HasMeans(ms, "value");
    HasMeans(ms, "from");
  }

  /** An operation in the form of section 4 of RFC 6902: its members are found by their names, wherever they stand. */
  lemma {:induction false} ReadsOperation(ms: seq<Member>, path: string)
    requires Has(ms, "op") && Has(ms, "path") && Value(ms, "path") == String(path)
    ensures var p := ReadPatch(Object(ms), true);
            && p.Some? && p.value.path == path
            && p.value.value == (if Has(ms, "value") then Some(Value(ms, "value")) else None)
            && p.value.from == (if Has(ms, "from") then Some(Value(ms, "from")) else None)
            && (p.value.operation.Add? <==> Value(ms, "op") == String("add"))
            && (p.value.operation.Remove? <==> Value(ms, "op") == String("remove"))
            && (p.value.operation.Replace? <==> Value(ms, "op") == String("replace"))
            && (p.value.operation.Move? <==> Value(ms, "op") == String("move"))
            && (p.value.operation.Copy? <==> Value(ms, "op") == String("copy"))
            && (p.value.operation.Test? <==> Value(ms, "op") == String("test"))
  {
    HasMeans(ms, "op");
    HasMeans(ms, "path");
    HasMeans(ms, "value");
    HasMeans(ms, "from");
  }

  function PatchNodes(patches: seq<Patch>): seq<Json> {
    if patches == [] then [] else [PatchNode(patches[0])] + PatchNodes(patches[1..])
  }

  predicate Written(patches: seq<Patch>) {
    forall i :: 0 <= i < |patches| ==> patches[i].from.None? && !patches[i].operation.Unknown?
  }

  lemma {:induction false} AppliesWritten(doc: Json, patches: seq<Patch>)
    requires Written(patches)
    ensures ApplyNodes(doc, PatchNodes(patches), true) == ApplyAll(doc, patches, true)
    decreases |patches|
  {
    hide Apply, ReadPatch, PatchNode;
    if patches != [] {
      PatchRoundTrip(patches[0]);
      var nodes := PatchNodes(patches);
      assert nodes[1..] == PatchNodes(patches[1..]);
      AppliesWritten(Apply(doc, patches[0], true).1, patches[1..]);
    }
  }
}

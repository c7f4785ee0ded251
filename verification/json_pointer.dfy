/** JSON Pointer as cJSON_Utils reads and writes it (RFC 6901, sections 3 and 4). */
module JsonPointer {
  import opened JsonTree
  import opened Options

  /** tolower in the C locale */
  function Lower(c: char): char { if 'A' <= c <= 'Z' then (c as int + 32) as char else c }

  /** compare_pointers: is the token at the head of the pointer the escaped form of this name? */
  predicate ComparePointers(name: string, pointer: string, caseSensitive: bool)
    decreases |pointer|
  {
    if name != "" && pointer != "" && pointer[0] != '/' then
      if pointer[0] == '~' then
        && |pointer| > 1
        && ((pointer[1] == '0' && name[0] == '~') || (pointer[1] == '1' && name[0] == '/'))
        && ComparePointers(name[1..], pointer[2..], caseSensitive)
      else
        && (if caseSensitive then name[0] == pointer[0] else Lower(name[0]) == Lower(pointer[0]))
        && ComparePointers(name[1..], pointer[1..], caseSensitive)
    else
      (pointer != "" && pointer[0] != '/') == (name != "")
  }

  /** encode_string_as_pointer */
  function Escape(s: string): string {
    if s == "" then ""
    else (if s[0] == '/' then "~1" else if s[0] == '~' then "~0" else [s[0]]) + Escape(s[1..])
  }

  /** The rest of a pointer: nothing, or more tokens. */
  predicate Tail(rest: string) { rest == "" || rest[0] == '/' }

  lemma {:induction false} EscapeHead(s: string, rest: string)
    requires s != ""
    ensures var e := Escape(s) + rest;
            if s[0] == '/' || s[0] == '~' then
              |e| >= 2 && e[0] == '~' && e[1] == (if s[0] == '/' then '1' else '0') && e[2..] == Escape(s[1..]) + rest
            else e[0] == s[0] && e[1..] == Escape(s[1..]) + rest
  {
  }

  /** compare_pointers accepts exactly the escaped name. */
  lemma {:induction false} ComparesEscaped(name: string, key: string, rest: string)
    requires Tail(rest)
    ensures ComparePointers(name, Escape(key) + rest, true) <==> name == key
    decreases |key|
  {
    var pointer := Escape(key) + rest;
    if key == "" {
      assert pointer == rest;
    } else {
      EscapeHead(key, rest);
      if name != "" {
        ComparesEscaped(name[1..], key[1..], rest);
        assert name == [name[0]] + name[1..] && key == [key[0]] + key[1..];
      }
    }
  }

  /** Go to the end of a token. */
  function SkipToken(p: string): (rest: string)
    ensures Tail(rest)
  {
    if p != "" && p[0] != '/' then SkipToken(p[1..]) else p
  }

  lemma {:induction false} SkipsEscaped(key: string, rest: string)
    requires Tail(rest)
    ensures SkipToken(Escape(key) + rest) == rest
    decreases |key|
  {
    var pointer := Escape(key) + rest;
    if key == "" {
      assert pointer == rest;
    } else {
      EscapeHead(key, rest);
      SkipsEscaped(key[1..], rest);
      if key[0] == '/' || key[0] == '~' { assert pointer[1..][1..] == pointer[2..]; }
    }
  }

  // ----- Array indices -----

  const SIZE_MAX_PLUS_1: nat := 0x1_0000_0000_0000_0000

  function Wrap(n: nat): nat { if n < SIZE_MAX_PLUS_1 then n else n % SIZE_MAX_PLUS_1 }

  /**
   * The loop of decode_array_index_from_pointer; it tests the first character of the token, not the current one,
   * against '9'.
   */
  function IndexLoop(p: string, firstBelow: bool, index: nat): (nat, string) {
    if p != "" && p[0] >= '0' && firstBelow
    then IndexLoop(p[1..], firstBelow, Wrap(10 * index + (p[0] as int - '0' as int)))
    else (index, p)
  }

  function DecodeIndex(p: string): Option<nat> {
    if |p| > 1 && p[0] == '0' && p[1] != '/' then None
    else
      var (index, rest) := IndexLoop(p, p == "" || p[0] <= '9', 0);
      if Tail(rest) then Some(index) else None
  }

  function DigitChar(d: nat): char
    requires d < 10
  {
    ('0' as int + d) as char
  }

  /** %lu */
  function Decimal(n: nat): (s: string)
    ensures s != ""
  {
    if n < 10 then [DigitChar(n)] else Decimal(n / 10) + [DigitChar(n % 10)]
  }

  lemma {:induction false} DecimalHead(n: nat)
    ensures '0' <= Decimal(n)[0] <= '9'
    ensures Decimal(n)[0] == '0' ==> n == 0
  {
    if n >= 10 { DecimalHead(n / 10); }
  }

  lemma {:induction false} IndexLoopReads(n: nat, q: string)
    requires n < SIZE_MAX_PLUS_1
    ensures IndexLoop(Decimal(n) + q, true, 0) == IndexLoop(q, true, n)
    decreases n
  {
    if n < 10 {
      assert (Decimal(n) + q)[1..] == q;
    } else {
      var c := DigitChar(n % 10);
      assert Decimal(n) + q == Decimal(n / 10) + ([c] + q);
      IndexLoopReads(n / 10, [c] + q);
      assert ([c] + q)[1..] == q;
    }
  }

  lemma {:induction false} DecodesDecimal(n: nat, rest: string)
    requires n < SIZE_MAX_PLUS_1 && Tail(rest)
    ensures DecodeIndex(Decimal(n) + rest) == Some(n)
  {
    DecimalHead(n);
    IndexLoopReads(n, rest);
    assert (Decimal(n) + rest)[0] == Decimal(n)[0];
    if n == 0 { assert Decimal(n) + rest == ['0'] + rest; }
  }

  lemma {:induction false} SkipsDecimal(n: nat, rest: string)
    requires Tail(rest)
    ensures SkipToken(Decimal(n) + rest) == rest
  {
    DecimalIsPlain(n);
    EscapePlain(Decimal(n));
    SkipsEscaped(Decimal(n), rest);
  }

  /** No character that a pointer escapes. */
  predicate Plain(s: string) { forall i :: 0 <= i < |s| ==> s[i] != '~' && s[i] != '/' }

  lemma {:induction false} DecimalIsPlain(n: nat)
    ensures Plain(Decimal(n))
  {
    if n >= 10 { DecimalIsPlain(n / 10); }
  }

  lemma {:induction false} EscapePlain(s: string)
    requires Plain(s)
    ensures Escape(s) == s
  {
    if s != "" { EscapePlain(s[1..]); }
  }

  // ----- Following a pointer -----

  /** A node of a document is named by the positions of its ancestors and itself among their siblings. */
  type Position = seq<nat>

  function Children(node: Json): seq<Json> {
    match node
    case Array(items) => items
    case Object(members) => seq(|members|, i requires 0 <= i < |members| => members[i].value)
    case _ => []
  }

  function WithChild(node: Json, i: nat, child: Json): Json
    requires i < |Children(node)|
  {
    match node
    case Array(items) => Array(items[i := child])
    case Object(members) => Object(members[i := Member(members[i].key, child)])
  }

  predicate IsNode(doc: Json, pos: Position)
    decreases |pos|
  {
    pos == [] || (pos[0] < |Children(doc)| && IsNode(Children(doc)[pos[0]], pos[1..]))
  }

  function NodeAt(doc: Json, pos: Position): Json
    requires IsNode(doc, pos)
    decreases |pos|
  {
    if pos == [] then doc else NodeAt(Children(doc)[pos[0]], pos[1..])
  }

  /** The document with the node at a position overwritten. */
  function Put(doc: Json, pos: Position, node: Json): Json
    requires IsNode(doc, pos)
    decreases |pos|
  {
    if pos == [] then node else WithChild(doc, pos[0], Put(Children(doc)[pos[0]], pos[1..], node))
  }

  /** The first member that a token selects, or the number of members. */
  function FindMember(ms: seq<Member>, token: string, caseSensitive: bool): (i: nat)
    ensures i <= |ms|
  {
    if ms == [] || ComparePointers(ms[0].key, token, caseSensitive) then 0
    else 1 + FindMember(ms[1..], token, caseSensitive)
  }

  /** The child that the token at the head of a pointer selects. */
  function FindChild(node: Json, token: string, caseSensitive: bool): (r: Option<nat>)
    ensures r.Some? ==> r.value < |Children(node)|
  {
    match node
    case Array(items) =>
      var index := DecodeIndex(token);
      if index.Some? && index.value < |items| then index else None
    case Object(members) =>
      var i := FindMember(members, token, caseSensitive);
      if i < |members| then Some(i) else None
    case _ => None
  }

  /** get_item_from_pointer */
  function Locate(node: Json, pointer: string, caseSensitive: bool): (r: Option<Position>)
    ensures r.Some? ==> IsNode(node, r.value)
    decreases |pointer|
  {
    if pointer == "" || pointer[0] != '/' then Some([])
    else
      var child := FindChild(node, pointer[1..], caseSensitive);
      if child.None? then None
      else
        var rest := SkipToken(pointer[1..]);
        SkipTokenShortens(pointer[1..]);
        var below := Locate(Children(node)[child.value], rest, caseSensitive);
        if below.None? then None else Some([child.value] + below.value)
  }

  lemma {:induction false} SkipTokenShortens(p: string)
    ensures |SkipToken(p)| <= |p|
  {
    if p != "" { SkipTokenShortens(p[1..]); }
  }

  lemma {:induction false} FindsMember(ms: seq<Member>, key: string, rest: string)
    requires Tail(rest)
    ensures FindMember(ms, Escape(key) + rest, true) == IndexOf(ms, key)
  {
    if ms != [] {
      ComparesEscaped(ms[0].key, key, rest);
      FindsMember(ms[1..], key, rest);
    }
  }

  // ----- Writing a pointer -----

  /** The token that selects child i. */
  function TokenOf(node: Json, i: nat): string
    requires i < |Children(node)|
  {
    if node.Object? then Escape(node.members[i].key) else Decimal(i)
  }

  /** What cJSONUtils_FindPointerFromObjectTo returns for the node at a position. */
  function PointerTo(doc: Json, pos: Position): string
    requires IsNode(doc, pos)
    decreases |pos|
  {
    if pos == [] then ""
    else "/" + TokenOf(doc, pos[0]) + PointerTo(Children(doc)[pos[0]], pos[1..])
  }

  /** Array indices fit a size_t. */
  predicate Indexable(j: Json)
    decreases j
  {
    match j
    case Array(items) => |items| < SIZE_MAX_PLUS_1 && forall i :: 0 <= i < |items| ==> Indexable(items[i])
    case Object(members) => forall i :: 0 <= i < |members| ==> Indexable(members[i].value)
    case _ => true
  }

  /** The token of a child selects that child, whatever follows in the pointer. */
  lemma {:induction false} TokenFindsChild(node: Json, i: nat, rest: string)
    requires i < |Children(node)| && Tail(rest)
    requires (node.Object? ==> DistinctKeys(node.members)) && (node.Array? ==> |node.items| < SIZE_MAX_PLUS_1)
    ensures FindChild(node, TokenOf(node, i) + rest, true) == Some(i)
    ensures SkipToken(TokenOf(node, i) + rest) == rest
  {
    if node.Object? {
      var key := node.members[i].key;
      FindsMember(node.members, key, rest);
      HasAt(node.members, i);
      SkipsEscaped(key, rest);
    } else {
      DecodesDecimal(i, rest);
      SkipsDecimal(i, rest);
    }
  }

  lemma {:induction false} ChildIsProper(node: Json, i: nat)
    requires i < |Children(node)|
    ensures Distinct(node) ==> Distinct(Children(node)[i])
    ensures Indexable(node) ==> Indexable(Children(node)[i])
    ensures Distinct(node) && node.Object? ==> DistinctKeys(node.members)
    ensures Indexable(node) && node.Array? ==> |node.items| < SIZE_MAX_PLUS_1
  {
  }

  lemma {:induction false} PointerIsTail(doc: Json, pos: Position)
    requires IsNode(doc, pos)
    ensures Tail(PointerTo(doc, pos))
  {
  }

  /** Following the pointer to a node leads back to that node, with any characters in the keys. */
  lemma {:induction false} PointerRoundTrip(doc: Json, pos: Position)
    requires IsNode(doc, pos) && Distinct(doc) && Indexable(doc)
    ensures Locate(doc, PointerTo(doc, pos), true) == Some(pos)
    decreases |pos|
  {
    hide FindChild, SkipToken, TokenOf, Distinct, Indexable, Children, DistinctKeys;
    if pos != [] {
      ChildIsProper(doc, pos[0]);
      var child := Children(doc)[pos[0]];
      var rest := PointerTo(child, pos[1..]);
      PointerIsTail(child, pos[1..]);
      PointerRoundTrip(child, pos[1..]);
      TokenFindsChild(doc, pos[0], rest);
      var token := TokenOf(doc, pos[0]);
      assert PointerTo(doc, pos) == "/" + token + rest;
      assert ("/" + token + rest)[1..] == token + rest;
      assert [pos[0]] + pos[1..] == pos;
    }
  }

  // ----- Searching for the node -----

  /** cJSONUtils_FindPointerFromObjectTo: search below the node that is at a position for the target. */
  function FindPointer(node: Json, at: Position, target: Position): Option<string>
    decreases node, 1, 0
  {
    if at == target then Some("") else FindAmong(node, at, target, 0)
  }

  /** The children of the node, from child i on. */
  function FindAmong(node: Json, at: Position, target: Position, i: nat): Option<string>
    requires i <= |Children(node)|
    decreases node, 0, |Children(node)| - i
  {
    if i == |Children(node)| then None
    else
      var below := FindPointer(Children(node)[i], at + [i], target);
      if below.Some? then Some("/" + TokenOf(node, i) + below.value) else FindAmong(node, at, target, i + 1)
  }

  /** The search finds nothing below a node that the target is not below. */
  lemma {:induction false} NotBelow(node: Json, at: Position, target: Position)
    requires !(at <= target)
    ensures FindPointer(node, at, target) == None
    decreases node, 1, 0
  {
    hide Children, TokenOf;
    NotAmong(node, at, target, 0);
  }

  lemma {:induction false} NotAmong(node: Json, at: Position, target: Position, i: nat)
    requires i <= |Children(node)| && forall k :: i <= k < |Children(node)| ==> !(at + [k] <= target)
    ensures FindAmong(node, at, target, i) == None
    decreases node, 0, |Children(node)| - i
  {
    hide TokenOf;
    if i < |Children(node)| {
      NotBelow(Children(node)[i], at + [i], target);
      NotAmong(node, at, target, i + 1);
    }
  }

  lemma {:induction false} FindsAmong(node: Json, at: Position, pos: Position, i: nat)
    requires pos != [] && IsNode(node, pos) && i <= pos[0]
    ensures FindAmong(node, at, at + pos, i)
            == Some("/" + TokenOf(node, pos[0]) + PointerTo(Children(node)[pos[0]], pos[1..]))
    decreases node, 0, |Children(node)| - i
  {
    hide TokenOf;
    assert at + pos == at + [pos[0]] + pos[1..];
    if i == pos[0] {
      FindsPointer(Children(node)[i], at + [i], pos[1..]);
    } else {
      assert (at + pos)[|at|] == pos[0] && (at + [i])[|at|] == i;
      NotBelow(Children(node)[i], at + [i], at + pos);
      FindsAmong(node, at, pos, i + 1);
    }
  }

  /** The search finds the node that is asked for, and its pointer. */
  lemma {:induction false} FindsPointer(node: Json, at: Position, pos: Position)
    requires IsNode(node, pos)
    ensures FindPointer(node, at, at + pos) == Some(PointerTo(node, pos))
    decreases node, 1, 0
  {
    hide TokenOf, Children;
    if pos == [] {
      assert at + pos == at;
    } else {
      assert |at + pos| > |at|;
      FindsAmong(node, at, pos, 0);
    }
  }

  /** Searching for a node and following the pointer that is found leads back to the node. */
  lemma {:induction false} FindThenGet(doc: Json, pos: Position)
    requires IsNode(doc, pos) && Distinct(doc) && Indexable(doc)
    ensures FindPointer(doc, [], pos).Some? && Locate(doc, FindPointer(doc, [], pos).value, true) == Some(pos)
  {
    hide FindPointer, Locate, PointerTo, Distinct, Indexable;
    assert [] + pos == pos;
    FindsPointer(doc, [], pos);
    PointerRoundTrip(doc, pos);
  }
}

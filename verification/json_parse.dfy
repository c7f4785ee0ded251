/** The parser as it runs, over a buffer with an offset and a depth. */
module JsonParse {
  import opened JsonTree
  import opened JsonStrings
  import opened JsonText
  import opened ChildList
  import opened ChildTree
  import opened Options

  class ParseBuffer {
    const content: string
    var offset: nat
    var depth: nat

    predicate Valid()
      reads this
    {
      Terminated(content) && offset < |content|
    }

    constructor (c: string)
      requires Terminated(c)
      ensures Valid() && content == c && offset == 0 && depth == 0
    {
      content := c;
      offset := 0;
      depth := 0;
    }

    /** buffer_skip_whitespace */
    method SkipWhitespace()
      requires Terminated(content) && offset <= |content|
      modifies this`offset
      ensures offset == if old(offset) == |content| then old(offset) else SkipSpace(content, old(offset))
    {
      if offset >= |content| { return; }
      while offset < |content| && content[offset] <= ' '
        invariant old(offset) <= offset <= |content|
        invariant SpaceEnd(content, old(offset)) == SpaceEnd(content, offset)
      {
        offset := offset + 1;
      }
      if offset == |content| { offset := offset - 1; }
    }

    /** The first pass of parse_string: where the literal ends, and how many escapes it skips on the way. */
    method FindEnd(start: nat) returns (end: Option<nat>, skipped: nat)
      requires start <= |content|
      ensures end == LiteralEnd(content, start)
      ensures end.Some? ==> skipped == Skipped(content, start)
    {
      var i := start;
      skipped := 0;
      while i < |content| && content[i] != '"'
        invariant start <= i <= |content| && LiteralEnd(content, start) == LiteralEnd(content, i)
        invariant Skipped(content, start) == skipped + Skipped(content, i)
      {
        if content[i] == '\\' {
          if i + 1 >= |content| { return None, skipped; }
          skipped := skipped + 1;
          i := i + 1;
        }
        i := i + 1;
      }
      end := if i < |content| then Some(i) else None;
    }

    /**
     * The second pass of parse_string, into the memory that was allocated. It has written what it could when it comes
     * to an escape that it refuses.
     */
    method CopyLiteral(start: nat, end: nat, output: array<char>) returns (length: Option<nat>)
      requires start <= end < |content| && Written(content, start, end) < output.Length
      modifies output
      ensures var text := Unescape(content, start, end);
              if text.None? then length.None?
              else length == Some(|text.value|) && |text.value| < output.Length && output[..|text.value|] == text.value
    {
      hide Utf16Literal, Simple, Unescape, Written;
      var i: nat, at: nat := start, 0;
      PrependNothing(Unescape(content, i, end));
      while i < end
        invariant start <= i && at + Written(content, i, end) <= Written(content, start, end)
        invariant Unescape(content, start, end) == Prepend(output[..at], Unescape(content, i, end))
        decreases if i < end then end - i else 0
      {
        SecondPass(content, i, end);
        ghost var before := output[..at];
        if content[i] != '\\' {
          output[at] := content[i];
          PrependOne(output, at, before, Unescape(content, i + 1, end));
          i, at := i + 1, at + 1;
        } else if content[i + 1] == 'u' {
          var literal := Utf16Literal(content, i, end);
          if literal.None? { return None; }
          StoreUtf8(literal.value.0, output, at);
          ghost var k := |literal.value.0|;
          PrependTwice(before, literal.value.0, Unescape(content, i + literal.value.1, end));
          assert output[..at + k] == before + literal.value.0;
          i, at := i + literal.value.1, at + |literal.value.0|;
        } else {
          var s := Simple(content[i + 1]);
          if s.None? { return None; }
          output[at] := s.value;
          PrependOne(output, at, before, Unescape(content, i + 2, end));
          i, at := i + 2, at + 1;
        }
      }
      SecondPass(content, i, end);
      assert output[..at] + "" == output[..at];
      length := Some(at);
    }

    /** parse_string; the offset is used only after success. */
    method ParseStringHere() returns (text: Option<string>)
      requires Valid()
      modifies this`offset
      ensures var r := ParseString(content, old(offset));
              if r.None? then text.None? else text == Some(r.value.0) && offset == r.value.1
    {
      hide Unescape, LiteralEnd, Written, Skipped;
      if content[offset] != '"' { return None; }
      var end, skipped := FindEnd(offset + 1);
      if end.None? { return None; }
      EstimateSuffices(content, offset);
      var allocationLength := end.value - offset - skipped;
      var output := new char[allocationLength + 1];
      var length := CopyLiteral(offset + 1, end.value, output);
      if length.None? { return None; }
      output[length.value] := '\0';
      text := Some(output[..length.value]);
      offset := end.value + 1;
    }

    /** parse_value; a node comes with the nodes below it, in well linked lists. */
    method ParseItem(n: Numbers) returns (node: Option<Cell>, ghost kids: seq<Tree>)
      requires Valid()
      modifies this`offset, this`depth
      ensures var r := ParseValue(n, content, old(offset), old(depth));
              if r.None? then node.None?
              else node.Some? && Document(node.value.value, kids) == r.value.0 && offset == r.value.1 &&
                   depth == old(depth)
      ensures node.Some? ==> node.value.key == "" && Built(node.value.children, kids)
      ensures node.Some? ==> fresh(Footprint(node.value.children, kids))
      decreases |content| - offset, 1
    {
      hide ParseString, ParseNumber, ParseItems, ParseMembers, Built, Footprint, Content;
      kids := [];
      var value: Option<Json> := None;
      if Here(content, offset, "null") {
        offset := offset + 4;
        value := Some(Null);
      } else if Here(content, offset, "false") {
        offset := offset + 5;
        value := Some(False);
      } else if Here(content, offset, "true") {
        offset := offset + 4;
        value := Some(True);
      } else if content[offset] == '"' {
        var s := ParseStringHere();
        value := if s.None? then None else Some(String(s.value));
      } else if content[offset] == '-' || '0' <= content[offset] <= '9' {
        var r := ParseNumber(n, content, offset);
        if r.Some? {
          NumberIsLeaf(n, content, offset);
          offset := r.value.1;
          value := Some(r.value.0);
        }
      } else if content[offset] == '[' {
        node, kids := ParseArrayHere(n);
        return;
      } else if content[offset] == '{' {
        node, kids := ParseObjectHere(n);
        return;
      }
      node := None;
      if value.Some? {
        var children := NoChildren();
        node := Some(Cell("", value.value, children));
      }
    }

    /** parse_array */
    method ParseArrayHere(n: Numbers) returns (node: Option<Cell>, ghost kids: seq<Tree>)
      requires Valid() && content[offset] == '['
      modifies this`offset, this`depth
      ensures var r := ParseArray(n, content, old(offset), old(depth));
              if r.None? then node.None?
              else node.Some? && Document(node.value.value, kids) == r.value.0 && offset == r.value.1 &&
                   depth == old(depth)
      ensures node.Some? ==> node.value.key == "" && Built(node.value.children, kids)
      ensures node.Some? ==> fresh(Footprint(node.value.children, kids))
      decreases |content| - offset, 0
    {
      hide ParseItems, Built, Footprint, Content;
      kids := [];
      if depth >= NESTING_LIMIT { return None, kids; }
      depth := depth + 1;
      offset := offset + 1;
      SkipWhitespace();
      var children;
      if content[offset] == ']' {
        children := NoChildren();
        NoContent();
      } else {
        var ok;
        ok, children, kids := ParseElements(n);
        if !ok { return None, kids; }
      }
      depth := depth - 1;
      offset := offset + 1;
      node := Some(Cell("", Array([]), children));
    }

    /** One element of an array, and the comma after it if there is one. */
    method NextElement(n: Numbers) returns (node: Option<Cell>, ghost kids: seq<Tree>, more: bool)
      requires Valid()
      modifies this`offset, this`depth
      ensures var r := ParseItems(n, content, old(offset), old(depth));
              if node.None? then r.None?
              else
                && Valid() && depth == old(depth) && old(offset) < offset
                && var item := Document(node.value.value, kids);
                   if more then
                     var rest := ParseItems(n, content, offset, depth);
                     r == if rest.None? then None else Some(([item] + rest.value.0, rest.value.1))
                   else r == Some(([item], offset))
      ensures node.Some? ==> node.value.key == "" && Built(node.value.children, kids)
      ensures node.Some? ==> fresh(Footprint(node.value.children, kids))
      decreases |content| - offset, 2
    {
      hide ParseValue, SkipSpace, Document, Built, Footprint;
      more := false;
      node, kids := ParseItem(n);
      if node.None? || offset == |content| { return None, kids, false; }
      assert allocated(Footprint(node.value.children, kids));
      SkipWhitespace();
      if content[offset] != ']' {
        if content[offset] != ',' { return None, kids, false; }
        offset := offset + 1;
        SkipWhitespace();
        more := true;
      }
    }

    /** The loop over the elements of an array, up to the bracket; each goes to the end of a list of children. */
    method ParseElements(n: Numbers) returns (ok: bool, children: Parent<Cell>, ghost kids: seq<Tree>)
      requires Valid()
      modifies this`offset, this`depth
      ensures var r := ParseItems(n, content, old(offset), old(depth));
              if r.None? then !ok
              else ok && Values(Content(kids)) == r.value.0 && offset == r.value.1 && depth == old(depth)
      ensures ok ==> Built(children, kids) && fresh(Footprint(children, kids))
      decreases |content| - offset, 3
    {
      hide ParseItems, Growing, Built, Footprint, Document, Content, Values;
      children := new Parent();
      kids := [];
      var last: Item?<Cell> := null;
      GrowingStarts(children);
      NoContent();
      ghost var start, d := offset, depth;
      SoFarStarts(ParseItems(n, content, start, d));
      while true
        invariant Valid() && start <= offset && depth == d
        invariant SoFar(ParseItems(n, content, start, d), Values(Content(kids)), ParseItems(n, content, offset, d))
        invariant Growing(children, kids, last) && fresh(Footprint(children, kids))
        decreases |content| - offset
      {
        assert allocated(Footprint(children, kids));
        var node, more;
        ghost var below;
        node, below, more := NextElement(n);
        if node.None? { return false, children, kids; }
        last := GrowNew(children, kids, last, node.value, below);
        ghost var t := Tree(last, below);
        ghost var list := Values(Content(kids));
        ContentMore(kids, t);
        ValuesMore(Content(kids), MemberOf(t));
        kids := kids + [t];
        if !more {
          Finish(children, kids, last);
          return true, children, kids;
        }
        SoFarMore(ParseItems(n, content, start, d), list, Document(node.value.value, below),
                  ParseItems(n, content, offset, d));
      }
    }

    /** parse_object */
    method ParseObjectHere(n: Numbers) returns (node: Option<Cell>, ghost kids: seq<Tree>)
      requires Valid() && content[offset] == '{'
      modifies this`offset, this`depth
      ensures var r := ParseObject(n, content, old(offset), old(depth));
              if r.None? then node.None?
              else node.Some? && Document(node.value.value, kids) == r.value.0 && offset == r.value.1 &&
                   depth == old(depth)
      ensures node.Some? ==> node.value.key == "" && Built(node.value.children, kids)
      ensures node.Some? ==> fresh(Footprint(node.value.children, kids))
      decreases |content| - offset, 0
    {
      hide ParseMembers, Built, Footprint, Content;
      kids := [];
      if depth >= NESTING_LIMIT { return None, kids; }
      depth := depth + 1;
      offset := offset + 1;
      SkipWhitespace();
      var children;
      if content[offset] == '}' {
        children := NoChildren();
        NoContent();
      } else {
        var ok;
        ok, children, kids := ParseMemberList(n);
        if !ok { return None, kids; }
      }
      depth := depth - 1;
      offset := offset + 1;
      node := Some(Cell("", Object([]), children));
    }

    /** The key of a member, and the colon behind it. */
    method ParseName() returns (name: Option<string>)
      requires Valid()
      modifies this`offset
      ensures var s := ParseString(content, old(offset));
              if s.None? || s.value.1 == |content| || content[SkipSpace(content, s.value.1)] != ':' then name.None?
              else
                && name == Some(s.value.0) && Valid() && old(offset) < offset
                && offset == SkipSpace(content, After(content, SkipSpace(content, s.value.1)))
    {
      hide ParseString, SkipSpace;
      name := ParseStringHere();
      if name.None? || offset == |content| { return None; }
      SkipWhitespace();
      if content[offset] != ':' { return None; }
      offset := offset + 1;
      SkipWhitespace();
    }

    /** One member of an object, and the comma after it if there is one. */
    method NextMember(n: Numbers) returns (node: Option<Cell>, ghost kids: seq<Tree>, more: bool)
      requires Valid()
      modifies this`offset, this`depth
      ensures var r := ParseMembers(n, content, old(offset), old(depth));
              if node.None? then r.None?
              else
                && Valid() && depth == old(depth) && old(offset) < offset
                && var member := Member(node.value.key, Document(node.value.value, kids));
                   if more then
                     var rest := ParseMembers(n, content, offset, depth);
                     r == if rest.None? then None else Some(([member] + rest.value.0, rest.value.1))
                   else r == Some(([member], offset))
      ensures node.Some? ==> Built(node.value.children, kids) && fresh(Footprint(node.value.children, kids))
      decreases |content| - offset, 2
    {
      hide ParseValue, ParseString, SkipSpace, Document, Built, Footprint;
      more := false;
      kids := [];
      var name := ParseName();
      if name.None? { return None, kids, false; }
      var value;
      value, kids := ParseItem(n);
      if value.None? || offset == |content| { return None, kids, false; }
      assert allocated(Footprint(value.value.children, kids));
      SkipWhitespace();
      node := Some(value.value.(key := name.value));
      if content[offset] != '}' {
        if content[offset] != ',' { return None, kids, false; }
        offset := offset + 1;
        SkipWhitespace();
        more := true;
      }
    }

    /** The loop over the members of an object, up to the brace; each goes to the end of a list of children. */
    method ParseMemberList(n: Numbers) returns (ok: bool, children: Parent<Cell>, ghost kids: seq<Tree>)
      requires Valid()
      modifies this`offset, this`depth
      ensures var r := ParseMembers(n, content, old(offset), old(depth));
              if r.None? then !ok else ok && Content(kids) == r.value.0 && offset == r.value.1 && depth == old(depth)
      ensures ok ==> Built(children, kids) && fresh(Footprint(children, kids))
      decreases |content| - offset, 3
    {
      hide ParseMembers, Growing, Built, Footprint, Document, Content;
      children := new Parent();
      kids := [];
      var last: Item?<Cell> := null;
      GrowingStarts(children);
      ghost var start, d := offset, depth;
      SoFarStarts(ParseMembers(n, content, start, d));
      while true
        invariant Valid() && start <= offset && depth == d
        invariant SoFar(ParseMembers(n, content, start, d), Content(kids), ParseMembers(n, content, offset, d))
        invariant Growing(children, kids, last) && fresh(Footprint(children, kids))
        decreases |content| - offset
      {
        assert allocated(Footprint(children, kids));
        var node, more;
        ghost var below;
        node, below, more := NextMember(n);
        if node.None? { return false, children, kids; }
        last := GrowNew(children, kids, last, node.value, below);
        ghost var t := Tree(last, below);
        ghost var list := Content(kids);
        ContentMore(kids, t);
        kids := kids + [t];
        if !more {
          Finish(children, kids, last);
          return true, children, kids;
        }
        SoFarMore(ParseMembers(n, content, start, d), list, MemberOf(t), ParseMembers(n, content, offset, d));
      }
    }
  }

  /** cJSON_Parse: a new tree of nodes, or nothing. */
  method ParseText(n: Numbers, text: string) returns (item: Option<Item<Cell>>, ghost kids: seq<Tree>)
    ensures var r := Parse(n, text);
            if r.None? then item.None?
            else
              && item.Some? && fresh(item.value)
              && var t := Tree(item.value, kids);
                 IsTree(t) && Apart(t) && fresh(Owned(t)) && MemberOf(t) == Member("", r.value)
  {
    hide ParseValue, SkipSpace, Document, Built, Footprint;
    var buffer := new ParseBuffer(text + "\0");
    // skip_utf8_bom
    if |buffer.content| > 4 && Here(buffer.content, 0, BOM) {
      buffer.offset := 3;
    }
    buffer.SkipWhitespace();
    var node;
    node, kids := buffer.ParseItem(n);
    if node.None? { return None, kids; }
    assert allocated(Footprint(node.value.children, kids));
    var root := new Item(node.value);
    Complete(Tree(root, kids));
    item := Some(root);
  }

  /** A number has no children. */
  lemma {:induction false} NumberIsLeaf(n: Numbers, c: string, o: nat)
    requires Terminated(c) && o < |c|
    ensures var r := ParseNumber(n, c, o); r.Some? ==> r.value.0.Number?
  {
  }

  /** Something in front of a result, if there is one. */
  function Prepend(a: string, r: Option<string>): Option<string> { if r.None? then None else Some(a + r.value) }

  lemma {:induction false} PrependTwice(a: string, b: string, r: Option<string>)
    ensures Prepend(a, Prepend(b, r)) == Prepend(a + b, r)
  {
    if r.Some? { assert a + (b + r.value) == a + b + r.value; }
  }

  /** The bytes of a character, the last first, as utf16_literal_to_utf8 writes them. */
  method StoreUtf8(bytes: string, output: array<char>, at: nat)
    requires bytes != "" && at + |bytes| <= output.Length
    modifies output
    ensures output[..at] == old(output[..at]) && output[at..at + |bytes|] == bytes
  {
    var k := |bytes| - 1;
    while k > 0
      invariant 0 <= k < |bytes| && output[..at] == old(output[..at])
      invariant output[at + k + 1..at + |bytes|] == bytes[k + 1..]
    {
      output[at + k] := bytes[k];
      k := k - 1;
    }
    output[at] := bytes[0];
  }

  /** What one round of the second pass does to the text and to the bytes that are still to be written. */
  lemma {:induction false} SecondPass(c: string, i: nat, e: nat)
    requires e < |c|
    ensures i >= e ==> Unescape(c, i, e) == Some("")
    ensures i < e && c[i] != '\\' ==>
              && Unescape(c, i, e) == Prepend([c[i]], Unescape(c, i + 1, e))
              && Written(c, i, e) == 1 + Written(c, i + 1, e)
    ensures i < e && c[i] == '\\' && c[i + 1] == 'u' ==>
              var literal := Utf16Literal(c, i, e);
              if literal.None? then Unescape(c, i, e).None?
              else
                && literal.value.0 != "" && i + literal.value.1 <= e && literal.value.1 > 0
                && Unescape(c, i, e) == Prepend(literal.value.0, Unescape(c, i + literal.value.1, e))
                && Written(c, i, e) == |literal.value.0| + Written(c, i + literal.value.1, e)
    ensures i < e && c[i] == '\\' && c[i + 1] != 'u' ==>
              var s := Simple(c[i + 1]);
              if s.None? then Unescape(c, i, e).None?
              else
                && Unescape(c, i, e) == Prepend([s.value], Unescape(c, i + 2, e))
                && Written(c, i, e) == 1 + Written(c, i + 2, e)
  {
    hide Simple, ParseHex4, Utf8;
  }

  /** One more character in the memory. */
  lemma {:induction false} PrependOne(output: array<char>, at: nat, before: string, r: Option<string>)
    requires at < output.Length && output[..at] == before
    ensures Prepend(before, Prepend([output[at]], r)) == Prepend(output[..at + 1], r)
  {
    PrependTwice(before, [output[at]], r);
    assert output[..at + 1] == before + [output[at]];
  }

  /** The whole result is what has been read so far and the result for the rest. */
  predicate SoFar<T(==)>(whole: Option<(seq<T>, nat)>, list: seq<T>, rest: Option<(seq<T>, nat)>) {
    if rest.None? then whole.None? else whole == Some((list + rest.value.0, rest.value.1))
  }

  lemma {:induction false} SoFarMore<T>(whole: Option<(seq<T>, nat)>, list: seq<T>, x: T, rest: Option<(seq<T>, nat)>)
    requires SoFar(whole, list, if rest.None? then None else Some(([x] + rest.value.0, rest.value.1)))
    ensures SoFar(whole, list + [x], rest)
  {
    if rest.Some? { assert list + ([x] + rest.value.0) == list + [x] + rest.value.0; }
  }

  lemma {:induction false} SoFarStarts<T>(whole: Option<(seq<T>, nat)>)
    ensures SoFar(whole, [], whole)
  {
    if whole.Some? { assert [] + whole.value.0 == whole.value.0; }
  }

  lemma {:induction false} PrependNothing(r: Option<string>)
    ensures Prepend("", r) == r
  {
    if r.Some? { assert "" + r.value == r.value; }
  }
}

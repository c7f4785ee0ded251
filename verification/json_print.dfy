/** Printing into a growing buffer: every write is within it, and it ends up holding the text. */
module JsonPrint {
  import opened JsonTree
  import opened JsonStrings
  import opened JsonText
  import opened Options

  predicate NoNul(s: string) { forall i :: 0 <= i < |s| ==> s[i] != '\0' }

  /** No string, and no number as it is written, has a NUL in it. */
  predicate Writable(n: Numbers, j: Json)
    decreases j, 0
  {
    match j
    case Number(_, d) => NoNul(n.write(d))
    case String(s) => NoNul(s)
    case Array(items) => forall i :: 0 <= i < |items| ==> Writable(n, items[i])
    case Object(members) => forall i :: 0 <= i < |members| ==> WritableMember(n, members[i])
    case _ => true
  }

  predicate WritableMember(n: Numbers, m: Member)
    decreases m, 1
  {
    NoNul(m.key) && Writable(n, m.value)
  }

  /** Nothing that print_value refuses: an item without a type, or a number longer than its buffer. */
  predicate Sized(n: Numbers, j: Json)
    decreases j
  {
    match j
    case Invalid => false
    case Number(_, d) => |n.write(d)| <= 25
    case Array(items) => forall i :: 0 <= i < |items| ==> Sized(n, items[i])
    case Object(members) => forall i :: 0 <= i < |members| ==> Sized(n, members[i].value)
    case _ => true
  }

  class PrintBuffer {
    var memory: seq<char>  // the allocated bytes
    var offset: nat
    var depth: nat
    const noalloc: bool
    const format: bool

    /** A buffer of any size, as cJSON_PrintBuffered and cJSON_PrintPreallocated start with. */
    constructor (initial: seq<char>, noalloc: bool, format: bool)
      ensures memory == initial && offset == 0 && depth == 0 && this.noalloc == noalloc && this.format == format
    {
      memory := initial;
      offset := 0;
      depth := 0;
      this.noalloc := noalloc;
      this.format := format;
    }

    /** What was written from `start` on is s, and a terminator follows. */
    predicate Holds(start: nat, s: string)
      reads this
    {
      start + |s| < |memory| && memory[start..start + |s|] == s && memory[start + |s|] == '\0'
    }

    /** ensure can make room: there is some, or the buffer may grow and stays within INT_MAX. */
    predicate HasRoom(needed: nat)
      reads this
    {
      && (offset < |memory| || |memory| == 0) && needed <= INT_MAX
      && (needed + offset + 1 <= |memory| || (!noalloc && needed + offset + 1 <= INT_MAX))
    }

    /** The buffer may grow enough for k more characters and what is written beside them. */
    predicate Growable(k: nat)
      reads this
    {
      !noalloc && (offset < |memory| || |memory| == 0) && offset + k + 4 <= INT_MAX
    }

    /**
     * ensure: room for `needed` bytes and one more from the offset on, growing the buffer if that is allowed; what was
     * written stays. Nothing is known of new memory.
     */
    method Ensure(needed: nat) returns (ok: bool)
      modifies this`memory
      ensures ok <==> old(HasRoom(needed))
      ensures ok ==> offset + needed < |memory|
      ensures ok ==> |old(memory)| <= |memory|
      ensures ok && offset <= |old(memory)| ==> memory[..offset] == old(memory)[..offset]
    {
      if |memory| > 0 && offset >= |memory| { return false; }
      if needed > INT_MAX { return false; }
      var size := needed + offset + 1;
      if size <= |memory| { return true; }
      if noalloc { return false; }
      var newSize;
      if size > INT_MAX / 2 {
        if size > INT_MAX { return false; }
        newSize := INT_MAX;
      } else {
        newSize := size * 2;
      }
      assert |seq(newSize - |memory|, i => '?')| == newSize - |memory|;
      var more: seq<char> :| |more| == newSize - |memory|;
      memory := memory + more;
      return true;
    }

    /** Copy s to the memory from `at` on. */
    method Write(at: nat, s: string)
      requires at + |s| <= |memory|
      modifies this`memory
      ensures |memory| == |old(memory)|
      ensures memory[..at] == old(memory)[..at] && memory[at..at + |s|] == s
    {
      memory := memory[..at] + s + memory[at + |s|..];
    }

    /** update_offset: go to the terminator. */
    method UpdateOffset(ghost start: nat, ghost s: string)
      requires Holds(start, s) && NoNul(s) && start <= offset <= start + |s|
      modifies this`offset
      ensures offset == start + |s|
    {
      while memory[offset] != '\0'
        invariant start <= offset <= start + |s|
        decreases start + |s| - offset
      {
        assert offset < start + |s|;
        offset := offset + 1;
      }
    }

    /** Ask for room, write s and move on by `advance`. */
    method Emit(s: string, needed: nat, advance: nat) returns (ok: bool)
      requires offset <= |memory| && advance <= needed && advance <= |s| <= needed + 1
      modifies this`memory, this`offset
      ensures ok <==> old(HasRoom(needed))
      ensures ok ==> offset == old(offset) + advance && old(offset) + needed < |memory|
      ensures ok ==> memory[..old(offset)] == old(memory)[..old(offset)] && memory[old(offset)..old(offset) + |s|] == s
    {
      ok := Ensure(needed);
      if ok {
        Write(offset, s);
        offset := offset + advance;
      }
    }

    /** print_string_ptr: count, ask for room, write. */
    method PrintStringPtr(s: string) returns (ok: bool)
      requires offset <= |memory|
      modifies this`memory
      ensures ok ==> Holds(offset, PrintString(s)) && memory[..offset] == old(memory)[..offset]
      ensures old(Growable(|PrintString(s)|)) ==> ok
    {
      hide EscapeChar;
      var extra: nat := 0;
      for i := 0 to |s|
        invariant extra + i == |EscapeText(s[..i])| && memory == old(memory)
      {
        EscapeOneMore(s, i);
        if s[i] == '"' || s[i] == '\\' || s[i] == '\U{0008}' || s[i] == '\U{000C}' || s[i] == '\n' || s[i] == '\r' ||
           s[i] == '\t' {
          extra := extra + 1;
        } else if s[i] < ' ' {
          extra := extra + 5;
        }
      }
      assert s[..|s|] == s;
      var length := |s| + extra;
      ok := Ensure(length + 3);
      if !ok { return; }
      WriteQuoted(s);
    }

    /** The string, escaped and in quotes, and a terminator. */
    method WriteQuoted(s: string)
      requires offset + |EscapeText(s)| + 3 <= |memory|
      modifies this`memory
      ensures Holds(offset, PrintString(s)) && memory[..offset] == old(memory)[..offset]
    {
      hide EscapeChar, EscapeText;
      Write(offset, "\"");
      var at := offset + 1;
      NothingEscaped();
      assert s[..0] == "";
      for i := 0 to |s|
        invariant at == offset + 1 + |EscapeText(s[..i])| && at <= offset + 1 + |EscapeText(s)|
        invariant |memory| == |old(memory)|
        invariant memory[..offset] == old(memory)[..offset]
        invariant memory[offset..at] == "\"" + EscapeText(s[..i])
      {
        EscapeOneMore(s, i);
        PrefixFits(s, i + 1);
        ghost var before := memory;
        Write(at, EscapeChar(s[i]));
        Extended(before, memory, offset, at, EscapeChar(s[i]));
        at := at + |EscapeChar(s[i])|;
      }
      assert s[..|s|] == s;
      ghost var before := memory;
      Write(at, "\"\0");
      Extended(before, memory, offset, at, "\"\0");
      assert memory[offset..at + 2] == PrintString(s) + "\0";
      HoldsText(memory, offset, PrintString(s));
    }

    /** What a method has printed from `start` on: s, terminated; the offset may still be anywhere in s. */
    twostate predicate Printed(start: nat, s: string)
      reads this
    {
      && Holds(start, s) && start <= offset <= start + |s| && depth == old(depth)
      && start <= |old(memory)| && memory[..start] == old(memory)[..start]
    }

    /** print_value */
    method PrintValue(n: Numbers, j: Json) returns (ok: bool)
      requires (offset < |memory| || offset == |memory| == 0) && Writable(n, j)
      modifies this
      ensures ok ==> Printed(old(offset), Text(n, j, format, depth))
      ensures old(Growable(|Text(n, j, format, depth)|)) && Sized(n, j) ==> ok
      decreases j, 2
    {
      hide Holds, Text, PrintString;
      ScalarText(n, j, format, depth);
      match j
      case Invalid => ok := false;
      case Null => ok := PrintWord("null", 5, n, j);
      case False => ok := PrintWord("false", 6, n, j);
      case True => ok := PrintWord("true", 5, n, j);
      case Number(_, d) => ok := PrintNumber(n, j, d);
      case String(s) => ok := PrintStringPtr(s);
      case Array(items) => ok := PrintArray(n, items);
      case Object(members) => ok := PrintObject(n, members);
    }

    method PrintWord(word: string, needed: nat, ghost n: Numbers, ghost j: Json) returns (ok: bool)
      requires offset <= |memory| && needed == |word| + 1 && Text(n, j, format, depth) == word
      modifies this`memory, this`offset
      ensures ok ==> Printed(old(offset), Text(n, j, format, depth))
      ensures old(Growable(|word|)) ==> ok
    {
      ok := Emit(word + "\0", needed, 0);
      if ok { HoldsText(memory, offset, word); }
    }

    /** print_number: at most 25 characters. */
    method PrintNumber(n: Numbers, j: Json, d: real) returns (ok: bool)
      requires offset <= |memory| && j.Number? && j.double == d
      modifies this`memory, this`offset
      ensures ok ==> Printed(old(offset), Text(n, j, format, depth))
      ensures old(Growable(|Text(n, j, format, depth)|)) && Sized(n, j) ==> ok
    {
      var t := n.write(d);
      if |t| > 25 { return false; }
      ok := Emit(t + "\0", |t| + 1, |t|);
      if ok { HoldsText(memory, old(offset), t); }
    }

    /** From `start` on, `done` has been printed, and the offset is after it; before that nothing has changed. */
    predicate Open(before: seq<char>, start: nat, done: string)
      reads this
    {
      && start <= |before| && start + |done| == offset && (offset < |memory| || offset == |memory| == 0)
      && memory[start..offset] == done && memory[..start] == before[..start]
    }

    /** Print s, of which `advance` characters stay, after what has been printed. */
    method EmitMore(ghost before: seq<char>, ghost start: nat, ghost done: string, s: string, needed: nat, advance: nat)
      returns (ok: bool)
      requires Open(before, start, done) && advance <= needed && advance <= |s| <= needed + 1
      modifies this`memory, this`offset
      ensures ok <==> old(HasRoom(needed))
      ensures ok ==> Open(before, start, done + s[..advance])
      ensures ok ==> start + |done| + |s| <= |memory| && memory[start..start + |done| + |s|] == done + s
    {
      ghost var was := memory;
      ok := Emit(s, needed, advance);
      if ok {
        Extended(was, memory, start, start + |done|, s);
        assert (done + s)[..|done| + advance] == done + s[..advance];
        assert memory[start..start + |done| + |s|][..|done| + advance] == memory[start..offset];
      }
    }

    /** Print a value after what has been printed, and go to its end. */
    method PrintPart(ghost before: seq<char>, ghost start: nat, ghost done: string, n: Numbers, j: Json)
      returns (ok: bool)
      requires Open(before, start, done) && Writable(n, j)
      modifies this
      ensures ok ==> Open(before, start, done + Text(n, j, format, depth)) && depth == old(depth)
      ensures old(Growable(|Text(n, j, format, depth)|)) && Sized(n, j) ==> ok
      decreases j, 3
    {
      hide Text, Writable, NoNul, Sized;
      ghost var was := memory;
      ok := PrintValue(n, j);
      if ok {
        TextNoNul(n, j, format, depth);
        PartPrinted(before, start, done, was, Text(n, j, format, depth));
      }
    }

    /** Go to the end of a part that has been printed. */
    method PartPrinted(ghost before: seq<char>, ghost start: nat, ghost done: string, ghost was: seq<char>,
                       ghost t: string)
      requires start + |done| <= |was| && start <= |before| && Holds(start + |done|, t) && NoNul(t)
      requires was[start..start + |done|] == done && was[..start] == before[..start]
      requires memory[..start + |done|] == was[..start + |done|] && start + |done| <= offset <= start + |done| + |t|
      modifies this`offset
      ensures Open(before, start, done + t)
    {
      hide NoNul;
      UpdateOffset(start + |done|, t);
      Extended(was, memory, start, start + |done|, t);
    }

    /** Print a string after what has been printed, and go to its end. */
    method StringPart(ghost before: seq<char>, ghost start: nat, ghost done: string, s: string) returns (ok: bool)
      requires Open(before, start, done) && NoNul(s)
      modifies this`memory, this`offset
      ensures ok ==> Open(before, start, done + PrintString(s))
      ensures old(Growable(|PrintString(s)|)) ==> ok
    {
      hide NoNul, PrintString;
      ghost var was := memory;
      ok := PrintStringPtr(s);
      if ok {
        PrintNoNul(s);
        PartPrinted(before, start, done, was, PrintString(s));
      }
    }

    /** One element of an array, with the comma before the next. */
    method PrintItem(ghost before: seq<char>, ghost start: nat, ghost done: string, n: Numbers, j: Json, last: bool)
      returns (ok: bool)
      requires Open(before, start, done) && Writable(n, j)
      modifies this
      ensures ok ==> Open(before, start, done + ItemText(n, j, format, depth, last)) && depth == old(depth)
      ensures old(Growable(|ItemText(n, j, format, depth, last)|)) && Sized(n, j) ==> ok
      decreases j, 4
    {
      hide Text, Writable, NoNul, Sized;
      ghost var more := Text(n, j, format, depth);
      ok := PrintPart(before, start, done, n, j);
      if !ok { return; }
      if last {
        assert done + (more + "") == done + more;
      } else {
        var comma := if format then ", " else ",";
        ok := EmitMore(before, start, done + more, comma + "\0", |comma| + 1, |comma|);
        if !ok { return; }
        assert (comma + "\0")[..|comma|] == comma;
        assert done + (more + comma) == done + more + comma;
      }
    }

    /** The elements of an array. */
    method PrintItems(ghost before: seq<char>, ghost start: nat, ghost done0: string, n: Numbers, items: seq<Json>)
      returns (ok: bool)
      requires Open(before, start, done0) && forall i :: 0 <= i < |items| ==> Writable(n, items[i])
      modifies this
      ensures ok ==> Open(before, start, done0 + ItemsText(n, items, format, depth)) && depth == old(depth)
      ensures old(Growable(|ItemsText(n, items, format, depth)|)) && Sized(n, Array(items)) ==> ok
      decreases items, 0
    {
      hide Text, ItemsText, ItemText, Writable, Sized, NoNul;
      ghost var done := done0;
      assert items[0..] == items;
      var i: nat := 0;
      while i < |items|
        invariant i <= |items| && Open(before, start, done) && depth == old(depth)
        invariant done0 + ItemsText(n, items, format, depth) == done + ItemsText(n, items[i..], format, depth)
      {
        ghost var more := ItemText(n, items[i], format, depth, i + 1 == |items|);
        ItemsStep(n, items, i, format, depth);
        SizedItem(n, items, i);
        ok := PrintItem(before, start, done, n, items[i], i + 1 == |items|);
        if !ok { return; }
        assert done + (more + ItemsText(n, items[i + 1..], format, depth))
               == done + more + ItemsText(n, items[i + 1..], format, depth);
        done := done + more;
        i := i + 1;
      }
      NoItems(n, items[i..], format, depth);
      ok := true;
    }

    /** print_array */
    method PrintArray(n: Numbers, items: seq<Json>) returns (ok: bool)
      requires (offset < |memory| || offset == |memory| == 0) && forall i :: 0 <= i < |items| ==> Writable(n, items[i])
      modifies this
      ensures ok ==> Printed(old(offset), Text(n, Array(items), format, depth))
      ensures old(Growable(|Text(n, Array(items), format, depth)|)) && Sized(n, Array(items)) ==> ok
      decreases items, 1
    {
      hide Text, ItemsText, Writable, Sized, NoNul;
      ArrayText(n, items, format, depth);
      ghost var before, start := memory, offset;
      assert memory[start..start] == "";
      ok := EmitMore(before, start, "", "[", 1, 1);
      if !ok { return; }
      depth := depth + 1;
      assert "" + "["[..1] == "[";
      ok := PrintItems(before, start, "[", n, items);
      if !ok { return; }
      ghost var done := "[" + ItemsText(n, items, format, depth);
      ok := EmitMore(before, start, done, "]\0", 2, 0);
      if !ok { return; }
      assert done + "]\0" == done + "]" + "\0" && "]\0"[..0] == "";
      HoldsText(memory, start, done + "]");
      depth := depth - 1;
    }

    /** One member of an object, with what separates it from the next. */
    method PrintMember(ghost before: seq<char>, ghost start: nat, ghost done: string, n: Numbers, m: Member, last: bool)
      returns (ok: bool)
      requires Open(before, start, done) && WritableMember(n, m)
      modifies this
      ensures ok ==> Open(before, start, done + MemberText(n, m, format, depth, last)) && depth == old(depth)
      ensures old(Growable(|MemberText(n, m, format, depth, last)|)) && Sized(n, m.value) ==> ok
      decreases m, 4
    {
      hide Text, Writable, NoNul, PrintString, Tabs, Sized;
      ghost var d := done;
      if format {
        TabsNoNul(depth);
        ok := EmitMore(before, start, d, Tabs(depth), depth, depth);
        if !ok { return; }
        assert Tabs(depth)[..depth] == Tabs(depth);
        d := d + Tabs(depth);
      }
      ok := StringPart(before, start, d, m.key);
      if !ok { return; }
      d := d + PrintString(m.key);
      var colon := if format then ":\t" else ":";
      ok := EmitMore(before, start, d, colon, |colon|, |colon|);
      if !ok { return; }
      assert colon[..|colon|] == colon;
      d := d + colon;
      ok := PrintPart(before, start, d, n, m.value);
      if !ok { return; }
      d := d + Text(n, m.value, format, depth);
      var end := (if last then "" else ",") + (if format then "\n" else "");
      ok := EmitMore(before, start, d, end + "\0", |end| + 1, |end|);
      if !ok { return; }
      assert (end + "\0")[..|end|] == end;
      MemberIs(n, m, format, depth, last, done);
    }

    /** The members of an object. */
    method PrintMembers(ghost before: seq<char>, ghost start: nat, ghost done0: string, n: Numbers,
                        members: seq<Member>)
      returns (ok: bool)
      requires Open(before, start, done0) && forall i :: 0 <= i < |members| ==> WritableMember(n, members[i])
      modifies this
      ensures ok ==> Open(before, start, done0 + MembersText(n, members, format, depth)) && depth == old(depth)
      ensures old(Growable(|MembersText(n, members, format, depth)|)) && Sized(n, Object(members)) ==> ok
      decreases members, 0
    {
      hide Text, MembersText, Writable, WritableMember, MemberText, Tabs, Sized, NoNul;
      ghost var done := done0;
      assert members[0..] == members;
      var i: nat := 0;
      while i < |members|
        invariant i <= |members| && Open(before, start, done) && depth == old(depth)
        invariant done0 + MembersText(n, members, format, depth) == done + MembersText(n, members[i..], format, depth)
      {
        ghost var more := MemberText(n, members[i], format, depth, i + 1 == |members|);
        assert members[i..][0] == members[i] && members[i..][1..] == members[i + 1..];
        MembersStep(n, members[i..], format, depth);
        SizedMember(n, members, i);
        ok := PrintMember(before, start, done, n, members[i], i + 1 == |members|);
        if !ok { return; }
        assert done + (more + MembersText(n, members[i + 1..], format, depth))
               == done + more + MembersText(n, members[i + 1..], format, depth);
        done := done + more;
        i := i + 1;
      }
      NoMembers(n, members[i..], format, depth);
      ok := true;
    }

    /** print_object */
    method PrintObject(n: Numbers, members: seq<Member>) returns (ok: bool)
      requires offset < |memory| || offset == |memory| == 0
      requires forall i :: 0 <= i < |members| ==> WritableMember(n, members[i])
      modifies this
      ensures ok ==> Printed(old(offset), Text(n, Object(members), format, depth))
      ensures old(Growable(|Text(n, Object(members), format, depth)|)) && Sized(n, Object(members)) ==> ok
      decreases members, 1
    {
      hide Text, MembersText, Writable, WritableMember, Tabs, Sized, NoNul;
      ObjectIs(n, members, format, depth);
      TabsNoNul(depth);
      ghost var before, start := memory, offset;
      var open := if format then "{\n" else "{";
      assert memory[start..start] == "";
      ok := EmitMore(before, start, "", open, |open| + 1, |open|);
      if !ok { return; }
      depth := depth + 1;
      assert "" + open[..|open|] == open;
      ok := PrintMembers(before, start, open, n, members);
      if !ok { return; }
      ok := PrintClosing(before, start, open + MembersText(n, members, format, depth));
      if !ok { return; }
      depth := depth - 1;
    }

    /** The indentation of the closing brace, the brace and a terminator. */
    method PrintClosing(ghost before: seq<char>, ghost start: nat, ghost done: string) returns (ok: bool)
      requires Open(before, start, done) && depth > 0
      modifies this`memory, this`offset
      ensures ok ==> Open(before, start, done) && Holds(start, done + (if format then Tabs(depth - 1) else "") + "}")
      ensures old(Growable(if format then depth else 1)) ==> ok
    {
      hide Tabs;
      TabsNoNul(depth - 1);
      var indent := if format then Tabs(depth - 1) else "";
      var needed := if format then depth + 1 else 2;
      ok := EmitMore(before, start, done, indent + "}" + "\0", needed, 0);
      if !ok { return; }
      assert (indent + "}" + "\0")[..0] == "" && done + "" == done;
      assert done + (indent + "}" + "\0") == done + indent + "}" + "\0";
      HoldsText(memory, start, done + indent + "}");
    }
  }

  /**
   * Print into a buffer of any initial contents: what comes out, if anything does, is the text, and parsing it gives
   * the item back. If the buffer may grow, printing succeeds.
   */
  method Print(n: Numbers, j: Json, initial: seq<char>, noalloc: bool, format: bool) returns (printed: Option<string>)
    requires Writable(n, j)
    ensures printed.Some? ==> printed.value == Text(n, j, format, 0)
    ensures printed.Some? && Printable(n, j, 0) ==> Parse(n, printed.value) == Some(j)
    ensures !noalloc && Sized(n, j) && |Text(n, j, format, 0)| + 4 <= INT_MAX ==> printed.Some?
  {
    hide Text, Printable, Writable, Sized, Parse, NoNul;
    var p := new PrintBuffer(initial, noalloc, format);
    var ok := p.PrintValue(n, j);
    if !ok { return None; }
    TextNoNul(n, j, format, 0);
    p.UpdateOffset(0, Text(n, j, format, 0));
    printed := Some(p.memory[..p.offset]);
    if Printable(n, j, 0) { PrintThenParse(n, j, format); }
  }

  lemma {:induction false} EscapeConcat(a: string, b: string)
    ensures EscapeText(a + b) == EscapeText(a) + EscapeText(b)
  {
    hide EscapeChar;
    if a == "" {
      assert a + b == b;
    } else {
      assert (a + b)[1..] == a[1..] + b;
      EscapeConcat(a[1..], b);
    }
  }

  /** One more character of a string: how it is escaped, and how long that is. */
  lemma {:induction false} EscapeOneMore(s: string, i: nat)
    requires i < |s|
    ensures EscapeText(s[..i + 1]) == EscapeText(s[..i]) + EscapeChar(s[i])
    ensures |EscapeChar(s[i])| == (
              if s[i] == '"' || s[i] == '\\' || s[i] == '\U{0008}' || s[i] == '\U{000C}' || s[i] == '\n' ||
                 s[i] == '\r' || s[i] == '\t' then 2
              else if s[i] < ' ' then 6 else 1)
  {
    hide Unit;
    assert s[..i + 1] == s[..i] + [s[i]];
    EscapeConcat(s[..i], [s[i]]);
    assert [s[i]][1..] == "";
  }

  lemma {:induction false} PrefixFits(s: string, i: nat)
    requires i <= |s|
    ensures |EscapeText(s[..i])| <= |EscapeText(s)|
  {
    hide EscapeText;
    EscapeConcat(s[..i], s[i..]);
    assert s == s[..i] + s[i..];
  }

  lemma {:induction false} NothingEscaped()
    ensures EscapeText("") == ""
  {
  }

  /** Memory that was written from `at` on, seen from an earlier place. */
  lemma {:induction false} Extended(before: seq<char>, after: seq<char>, start: nat, at: nat, s: string)
    requires start <= at && at + |s| <= |after| && at <= |before|
    requires after[..at] == before[..at] && after[at..at + |s|] == s
    ensures after[start..at + |s|] == before[start..at] + s && after[..start] == before[..start]
  {
    assert after[start..at] == after[..at][start..at] && before[start..at] == before[..at][start..at];
    assert after[start..at + |s|] == after[start..at] + after[at..at + |s|];
    assert after[..start] == after[..at][..start] && before[..start] == before[..at][..start];
  }

  lemma {:induction false} HoldsText(m: seq<char>, start: nat, s: string)
    requires start + |s| + 1 <= |m| && m[start..start + |s| + 1] == s + "\0"
    ensures m[start..start + |s|] == s && m[start + |s|] == '\0'
  {
    assert m[start..start + |s|] == m[start..start + |s| + 1][..|s|];
    assert m[start + |s|] == m[start..start + |s| + 1][|s|];
  }

  lemma {:induction false} ScalarText(n: Numbers, j: Json, format: bool, depth: nat)
    ensures j.Null? ==> Text(n, j, format, depth) == "null"
    ensures j.False? ==> Text(n, j, format, depth) == "false"
    ensures j.True? ==> Text(n, j, format, depth) == "true"
    ensures j.String? ==> Text(n, j, format, depth) == PrintString(j.text)
  {
  }

  function ItemText(n: Numbers, j: Json, format: bool, depth: nat, last: bool): string {
    Text(n, j, format, depth) + (if last then "" else if format then ", " else ",")
  }

  lemma {:induction false} ItemsStep(n: Numbers, items: seq<Json>, i: nat, format: bool, depth: nat)
    requires i < |items|
    ensures ItemsText(n, items[i..], format, depth)
            == ItemText(n, items[i], format, depth, i + 1 == |items|) + ItemsText(n, items[i + 1..], format, depth)
  {
    hide Text, ItemsText;
    ItemsParts(n, items[i..], format, depth);
    assert items[i..][1..] == items[i + 1..];
    NoItems(n, items[i + 1..], format, depth);
  }

  lemma {:induction false} NoItems(n: Numbers, items: seq<Json>, format: bool, depth: nat)
    ensures items == [] ==> ItemsText(n, items, format, depth) == ""
  {
  }

  lemma {:induction false} ArrayText(n: Numbers, items: seq<Json>, format: bool, depth: nat)
    ensures Text(n, Array(items), format, depth) == "[" + ItemsText(n, items, format, depth + 1) + "]"
  {
    hide ItemsText;
  }

  // ----- Printed text has no NUL -----

  lemma {:induction false} PrintNoNul(s: string)
    ensures NoNul(PrintString(s))
  {
    EscapeNoNul(s);
  }

  lemma {:induction false} EscapeNoNul(s: string)
    ensures NoNul(EscapeText(s))
  {
    if s != "" {
      EscapeNoNul(s[1..]);
      CharNoNul(s[0]);
    }
  }

  lemma {:induction false} CharNoNul(c: char)
    ensures NoNul(EscapeChar(c))
  {
  }

  lemma {:induction false} TextNoNul(n: Numbers, j: Json, format: bool, depth: nat)
    requires Writable(n, j)
    ensures NoNul(Text(n, j, format, depth))
    decreases j, 0
  {
    hide PrintString, ItemsText, MembersText, Tabs;
    match j
    case String(s) => PrintNoNul(s);
    case Array(items) => ItemsNoNul(n, items, format, depth + 1);
    case Object(members) =>
      MembersNoNul(n, members, format, depth + 1);
      TabsNoNul(depth);
    case _ =>
  }

  lemma {:induction false} TabsNoNul(k: nat)
    ensures NoNul(Tabs(k)) && |Tabs(k)| == k
  {
    if k > 0 { TabsNoNul(k - 1); }
  }

  lemma {:induction false} ItemsNoNul(n: Numbers, items: seq<Json>, format: bool, depth: nat)
    requires forall i :: 0 <= i < |items| ==> Writable(n, items[i])
    ensures NoNul(ItemsText(n, items, format, depth))
    decreases items, 1
  {
    hide Text, ItemsText, Writable;
    NoItems(n, items, format, depth);
    if items != [] {
      ItemsParts(n, items, format, depth);
      TextNoNul(n, items[0], format, depth);
      ItemsNoNul(n, items[1..], format, depth);
    }
  }

  lemma {:induction false} MembersNoNul(n: Numbers, members: seq<Member>, format: bool, depth: nat)
    requires forall i :: 0 <= i < |members| ==> WritableMember(n, members[i])
    ensures NoNul(MembersText(n, members, format, depth))
    decreases members, 1
  {
    hide Text, PrintString, Tabs, Writable;
    if members != [] {
      assert WritableMember(n, members[0]);
      TextNoNul(n, members[0].value, format, depth);
      PrintNoNul(members[0].key);
      TabsNoNul(depth);
      MembersNoNul(n, members[1..], format, depth);
    }
  }

  function MemberText(n: Numbers, m: Member, format: bool, depth: nat, last: bool): string {
    (if format then Tabs(depth) else "") + PrintString(m.key) + (if format then ":\t" else ":") +
    Text(n, m.value, format, depth) + (if last then "" else ",") + (if format then "\n" else "")
  }

  lemma {:induction false} MemberIs(n: Numbers, m: Member, format: bool, depth: nat, last: bool, done: string)
    ensures var d := if format then done + Tabs(depth) else done;
            d + PrintString(m.key) + (if format then ":\t" else ":") + Text(n, m.value, format, depth) +
            ((if last then "" else ",") + (if format then "\n" else ""))
            == done + MemberText(n, m, format, depth, last)
  {
    hide Text, PrintString, Tabs;
  }

  lemma {:induction false} MembersStep(n: Numbers, members: seq<Member>, format: bool, depth: nat)
    requires members != []
    ensures MembersText(n, members, format, depth)
            == MemberText(n, members[0], format, depth, |members| == 1) + MembersText(n, members[1..], format, depth)
  {
    hide Text, PrintString, Tabs;
  }

  lemma {:induction false} NoMembers(n: Numbers, members: seq<Member>, format: bool, depth: nat)
    ensures members == [] ==> MembersText(n, members, format, depth) == ""
  {
  }

  lemma {:induction false} ObjectIs(n: Numbers, members: seq<Member>, format: bool, depth: nat)
    ensures Text(n, Object(members), format, depth)
            == (if format then "{\n" else "{") + MembersText(n, members, format, depth + 1) +
               (if format then Tabs(depth) else "") + "}"
  {
    hide MembersText, Tabs;
  }

  lemma {:induction false} SizedItem(n: Numbers, items: seq<Json>, i: nat)
    requires i < |items|
    ensures Sized(n, Array(items)) ==> Sized(n, items[i])
  {
  }

  lemma {:induction false} SizedMember(n: Numbers, members: seq<Member>, i: nat)
    requires i < |members|
    ensures Sized(n, Object(members)) ==> Sized(n, members[i].value)
  {
  }
}

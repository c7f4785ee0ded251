/** The text of a JSON document: cJSON's recursive parser and printer, and that printing and parsing are inverse. */
module JsonText {
  import opened JsonTree
  import opened JsonStrings
  import opened Options

  /** sprintf and strtod: how a number is written, and the number that a text begins with and its length. */
  datatype Numbers = Numbers(write: real -> string, read: string -> Option<(real, nat)>)

  // ----- Numbers -----

  predicate IsNumberChar(c: char) { '0' <= c <= '9' || c == '+' || c == '-' || c == 'e' || c == 'E' || c == '.' }

  /** The end of the characters that parse_number copies, at most 63 of them. */
  function NumberEnd(c: string, o: nat, limit: nat): (e: nat)
    requires o <= |c|
    ensures o <= e <= |c| && e <= o + limit
    decreases limit
  {
    if limit == 0 || o == |c| || !IsNumberChar(c[o]) then o else NumberEnd(c, o + 1, limit - 1)
  }

  const INT_MAX: int := 2147483647
  const INT_MIN: int := -2147483648

  /** The integer form of a number, with saturation. */
  function Saturate(d: real): int {
    if d >= INT_MAX as real then INT_MAX
    else if d <= INT_MIN as real then INT_MIN
    else if d >= 0.0 then d.Floor else -(-d).Floor
  }

  function ParseNumber(n: Numbers, c: string, o: nat): (r: Option<(Json, nat)>)
    requires o < |c|
    ensures r.Some? ==> o < r.value.1 <= |c|
  {
    var text := c[o..NumberEnd(c, o, 63)];
    var read := n.read(text);
    if read.None? || read.value.1 == 0 || read.value.1 > |text| then None
    else Some((Number(Saturate(read.value.0), read.value.0), o + read.value.1))
  }

  // ----- The parser -----

  const NESTING_LIMIT: nat := 1000

  /** Where the characters up to 32 from o end. */
  function SpaceEnd(c: string, o: nat): (e: nat)
    requires o <= |c|
    ensures o <= e <= |c|
    decreases |c| - o
  {
    if o < |c| && c[o] <= ' ' then SpaceEnd(c, o + 1) else o
  }

  /** buffer_skip_whitespace; at the end of the buffer it steps back to the last character. */
  function SkipSpace(c: string, o: nat): (e: nat)
    requires o < |c|
    ensures o <= e < |c|
  {
    var e := SpaceEnd(c, o);
    if e == |c| then e - 1 else e
  }

  /** The input is a C string with its terminator. */
  predicate Terminated(c: string) { |c| > 0 && c[|c| - 1] == '\0' }

  /** parse_value: the item, and the offset after it. */
  function ParseValue(n: Numbers, c: string, o: nat, depth: nat): (r: Option<(Json, nat)>)
    requires Terminated(c) && o < |c|
    ensures r.Some? ==> o < r.value.1 <= |c|
    decreases |c| - o, 1
  {
    if Here(c, o, "null") then Some((Null, o + 4))
    else if Here(c, o, "false") then Some((False, o + 5))
    else if Here(c, o, "true") then Some((True, o + 4))
    else if c[o] == '"' then
      var s := ParseString(c, o);
      if s.None? then None else Some((String(s.value.0), s.value.1))
    else if c[o] == '-' || '0' <= c[o] <= '9' then ParseNumber(n, c, o)
    else if c[o] == '[' then ParseArray(n, c, o, depth)
    else if c[o] == '{' then ParseObject(n, c, o, depth)
    else None
  }

  /** The character after one that is not the terminator. */
  function After(c: string, o: nat): (e: nat)
    requires Terminated(c) && o < |c| && c[o] != '\0'
    ensures o < e < |c|
  {
    o + 1
  }

  function ParseArray(n: Numbers, c: string, o: nat, depth: nat): (r: Option<(Json, nat)>)
    requires Terminated(c) && o < |c| && c[o] == '['
    ensures r.Some? ==> o < r.value.1 <= |c|
    decreases |c| - o, 0
  {
    if depth >= NESTING_LIMIT then None
    else
      var first := SkipSpace(c, After(c, o));
      if c[first] == ']' then Some((Array([]), first + 1))
      else
        var items := ParseItems(n, c, first, depth + 1);
        if items.None? then None else Some((Array(items.value.0), items.value.1 + 1))
  }

  /** The elements from one that begins at o to the bracket, whose offset is returned. */
  function ParseItems(n: Numbers, c: string, o: nat, depth: nat): (r: Option<(seq<Json>, nat)>)
    requires Terminated(c) && o < |c|
    ensures r.Some? ==> o < r.value.1 < |c| && r.value.0 != []
    decreases |c| - o, 2
  {
    var item := ParseValue(n, c, o, depth);
    if item.None? || item.value.1 == |c| then None
    else
      var end := SkipSpace(c, item.value.1);
      if c[end] == ']' then Some(([item.value.0], end))
      else if c[end] != ',' then None
      else
        var rest := ParseItems(n, c, SkipSpace(c, After(c, end)), depth);
        if rest.None? then None else Some(([item.value.0] + rest.value.0, rest.value.1))
  }

  function ParseObject(n: Numbers, c: string, o: nat, depth: nat): (r: Option<(Json, nat)>)
    requires Terminated(c) && o < |c| && c[o] == '{'
    ensures r.Some? ==> o < r.value.1 <= |c|
    decreases |c| - o, 0
  {
    if depth >= NESTING_LIMIT then None
    else
      var first := SkipSpace(c, After(c, o));
      if c[first] == '}' then Some((Object([]), first + 1))
      else
        var members := ParseMembers(n, c, first, depth + 1);
        if members.None? then None else Some((Object(members.value.0), members.value.1 + 1))
  }

  /** The members from one that begins at o to the brace, whose offset is returned. */
  function ParseMembers(n: Numbers, c: string, o: nat, depth: nat): (r: Option<(seq<Member>, nat)>)
    requires Terminated(c) && o < |c|
    ensures r.Some? ==> o < r.value.1 < |c| && r.value.0 != []
    decreases |c| - o, 2
  {
    var name := ParseString(c, o);
    if name.None? || name.value.1 == |c| then None
    else
      var colon := SkipSpace(c, name.value.1);
      if c[colon] != ':' then None
      else
        var value := ParseValue(n, c, SkipSpace(c, After(c, colon)), depth);
        if value.None? || value.value.1 == |c| then None
        else
          var end := SkipSpace(c, value.value.1);
          var member := Member(name.value.0, value.value.0);
          if c[end] == '}' then Some(([member], end))
          else if c[end] != ',' then None
          else
            var rest := ParseMembers(n, c, SkipSpace(c, After(c, end)), depth);
            if rest.None? then None else Some(([member] + rest.value.0, rest.value.1))
  }

  const BOM: string := [239 as char, 187 as char, 191 as char]

  /** cJSON_Parse */
  function Parse(n: Numbers, text: string): Option<Json> {
    var c := text + "\0";
    var start := if |c| > 4 && Here(c, 0, BOM) then 3 else 0;  // skip_utf8_bom
    var r := ParseValue(n, c, SkipSpace(c, start), 0);
    if r.None? then None else Some(r.value.0)
  }

  // ----- The printer -----

  function Tabs(k: nat): string { if k == 0 then "" else "\t" + Tabs(k - 1) }

  /** print_value: the text of an item, on one line or formatted, at a depth of objects and arrays. */
  function Text(n: Numbers, j: Json, format: bool, depth: nat): string
    decreases j, 0
  {
    match j
    case Invalid => ""
    case Null => "null"
    case False => "false"
    case True => "true"
    case Number(_, d) => n.write(d)
    case String(s) => PrintString(s)
    case Array(items) => "[" + ItemsText(n, items, format, depth + 1) + "]"
    case Object(members) =>
      (if format then "{\n" else "{") + MembersText(n, members, format, depth + 1) +
      (if format then Tabs(depth) else "") + "}"
  }

  function ItemsText(n: Numbers, items: seq<Json>, format: bool, depth: nat): string
    decreases items, 1
  {
    if items == [] then ""
    else Text(n, items[0], format, depth) + ItemsRest(n, items[1..], format, depth)
  }

  /** The elements after the first, each after a comma. */
  function ItemsRest(n: Numbers, items: seq<Json>, format: bool, depth: nat): string
    decreases items, 1
  {
    if items == [] then ""
    else (if format then ", " else ",") + Text(n, items[0], format, depth) + ItemsRest(n, items[1..], format, depth)
  }

  function MembersText(n: Numbers, members: seq<Member>, format: bool, depth: nat): string
    decreases members, 1
  {
    if members == [] then ""
    else
      (if format then Tabs(depth) else "") + PrintString(members[0].key) + (if format then ":\t" else ":") +
      Text(n, members[0].value, format, depth) + (if |members| > 1 then "," else "") + (if format then "\n" else "") +
      MembersText(n, members[1..], format, depth)
  }

  // ----- Printing, then parsing -----

  /** The number is written so that it is read back; the text is short enough for the source's buffers. */
  predicate NumberRoundTrips(n: Numbers, i: int, d: real) {
    var t := n.write(d);
    && 0 < |t| <= 25 && (t[0] == '-' || '0' <= t[0] <= '9') && (forall k :: 0 <= k < |t| ==> IsNumberChar(t[k]))
    && n.read(t) == Some((d, |t|)) && i == Saturate(d)
  }

  /** Numbers round trip, and nothing is nested too deeply below this depth. */
  predicate Printable(n: Numbers, j: Json, depth: nat)
    decreases j
  {
    match j
    case Invalid => false
    case Number(i, d) => NumberRoundTrips(n, i, d)
    case Array(items) => depth < NESTING_LIMIT && forall i :: 0 <= i < |items| ==> Printable(n, items[i], depth + 1)
    case Object(members) =>
      depth < NESTING_LIMIT && forall i :: 0 <= i < |members| ==> Printable(n, members[i].value, depth + 1)
    case _ => true
  }

  /** The text of an item begins like one: not with white space, a closing bracket or a byte order mark. */
  lemma {:induction false} TextBegins(n: Numbers, j: Json, format: bool, printDepth: nat, depth: nat)
    requires Printable(n, j, depth)
    ensures var t := Text(n, j, format, printDepth);
            |t| > 0 && ' ' < t[0] && t[0] != ']' && t[0] != '}' && t[0] != 239 as char
  {
    hide ItemsText, MembersText, EscapeText, Tabs;
  }

  lemma {:induction false} NoSpace(c: string, o: nat)
    requires o < |c| && c[o] > ' '
    ensures SkipSpace(c, o) == o
  {
  }

  lemma {:induction false} OneSpace(c: string, o: nat)
    requires o + 1 < |c| && c[o] <= ' ' && c[o + 1] > ' '
    ensures SkipSpace(c, o) == o + 1
  {
    assert SpaceEnd(c, o + 1) == o + 1;
  }

  lemma {:induction false} TabsEnd(c: string, o: nat, k: nat)
    requires Here(c, o, Tabs(k)) && o + |Tabs(k)| < |c| && c[o + |Tabs(k)|] > ' '
    ensures SpaceEnd(c, o) == o + |Tabs(k)|
    decreases k
  {
    if k > 0 {
      HereSplit(c, o, "\t", Tabs(k - 1));
      HereAt(c, o, "\t", 0);
      TabsEnd(c, o + 1, k - 1);
    }
  }

  /** A line end and the indentation of the next line. */
  lemma {:induction false} SkipsLine(c: string, o: nat, k: nat)
    requires Here(c, o, "\n" + Tabs(k)) && o + 1 + |Tabs(k)| < |c| && c[o + 1 + |Tabs(k)|] > ' '
    ensures SkipSpace(c, o) == o + 1 + |Tabs(k)|
  {
    hide Tabs;
    HereSplit(c, o, "\n", Tabs(k));
    HereAt(c, o, "\n", 0);
    TabsEnd(c, o + 1, k);
  }

  lemma {:induction false} NumberEnds(c: string, o: nat, t: string, limit: nat)
    requires Here(c, o, t) && |t| <= limit && (forall k :: 0 <= k < |t| ==> IsNumberChar(t[k]))
    requires o + |t| < |c| && !IsNumberChar(c[o + |t|])
    ensures NumberEnd(c, o, limit) == o + |t|
    decreases |t|
  {
    hide IsNumberChar;
    if t != "" {
      HereAt(c, o, t, 0);
      assert t == [t[0]] + t[1..];
      HereSplit(c, o, [t[0]], t[1..]);
      NumberEnds(c, o + 1, t[1..], limit - 1);
    }
  }

  lemma {:induction false} NumberIsRead(n: Numbers, c: string, o: nat, i: int, d: real)
    requires NumberRoundTrips(n, i, d) && Here(c, o, n.write(d))
    requires o + |n.write(d)| < |c| && !IsNumberChar(c[o + |n.write(d)|])
    ensures ParseNumber(n, c, o) == Some((Number(i, d), o + |n.write(d)|))
  {
    hide IsNumberChar, Saturate;
    NumberEnds(c, o, n.write(d), 63);
  }

  /** A word begins with its first letter. */
  lemma {:induction false} NoWord(c: string, o: nat)
    requires o < |c|
    ensures c[o] != 'n' ==> !Here(c, o, "null")
    ensures c[o] != 'f' ==> !Here(c, o, "false")
    ensures c[o] != 't' ==> !Here(c, o, "true")
  {
    if Here(c, o, "null") { HereAt(c, o, "null", 0); }
    if Here(c, o, "false") { HereAt(c, o, "false", 0); }
    if Here(c, o, "true") { HereAt(c, o, "true", 0); }
  }

  /** A printed item that something follows is read back. */
  lemma {:induction false} ValueRoundTrip(n: Numbers, c: string, o: nat, j: Json, format: bool, printDepth: nat,
                                          depth: nat)
    requires Terminated(c) && Printable(n, j, depth) && Here(c, o, Text(n, j, format, printDepth))
    requires var e := o + |Text(n, j, format, printDepth)|; e < |c| && !IsNumberChar(c[e])
    ensures ParseValue(n, c, o, depth) == Some((j, o + |Text(n, j, format, printDepth)|))
    decreases j, 2
  {
    hide ParseString, ParseNumber, ParseArray, ParseObject, Here, ItemsText, MembersText, Tabs, IsNumberChar,
      PrintString, Saturate, Printable, NumberRoundTrips;
    var t := Text(n, j, format, printDepth);
    TextBegins(n, j, format, printDepth, depth);
    HereAt(c, o, t, 0);
    NoWord(c, o);
    match j
    case String(s) => StringRoundTrip(c, o, s);
    case Number(i, d) => NumberValue(n, c, o, i, d, depth);
    case Array(items) => ArrayRoundTrip(n, c, o, items, format, printDepth, depth);
    case Object(members) => ObjectRoundTrip(n, c, o, members, format, printDepth, depth);
    case Invalid => NotPrintable(n, depth);
    case _ =>
  }

  lemma {:induction false} NotPrintable(n: Numbers, depth: nat)
    ensures !Printable(n, Invalid, depth)
  {
  }

  lemma {:induction false} NumberValue(n: Numbers, c: string, o: nat, i: int, d: real, depth: nat)
    requires Terminated(c) && Printable(n, Number(i, d), depth) && Here(c, o, n.write(d))
    requires o + |n.write(d)| < |c| && !IsNumberChar(c[o + |n.write(d)|])
    ensures ParseValue(n, c, o, depth) == Some((Number(i, d), o + |n.write(d)|))
  {
    hide ParseNumber, IsNumberChar, Saturate;
    NumberIsRead(n, c, o, i, d);
    HereAt(c, o, n.write(d), 0);
    NoWord(c, o);
  }

  lemma {:induction false} ArrayRoundTrip(n: Numbers, c: string, o: nat, items: seq<Json>, format: bool,
                                          printDepth: nat, depth: nat)
    requires Terminated(c) && Printable(n, Array(items), depth) && Here(c, o, Text(n, Array(items), format, printDepth))
    requires o + |Text(n, Array(items), format, printDepth)| < |c|
    ensures o < |c| && c[o] == '['
    ensures ParseArray(n, c, o, depth) == Some((Array(items), o + |Text(n, Array(items), format, printDepth)|))
    decreases items, 1
  {
    hide ParseItems, Here, ItemsText, Printable;
    var t := ItemsText(n, items, format, printDepth + 1);
    HereSplit(c, o, "[" + t, "]");
    HereSplit(c, o, "[", t);
    HereAt(c, o, "[", 0);
    HereAt(c, o + 1 + |t|, "]", 0);
    ItemsPrintable(n, items, depth);
    if items == [] {
      EmptyItems(n, format, printDepth + 1);
      NoSpace(c, o + 1);
    } else {
      ItemsBegin(n, items, format, printDepth + 1, depth + 1);
      HereAt(c, o + 1, t, 0);
      NoSpace(c, o + 1);
      assert "]" != "" && |t + "]"| == |t| + 1;
      HereSplit(c, o + 1, t, "]");
      ItemsRoundTrip(n, c, o + 1, items, format, printDepth + 1, depth + 1);
    }
  }

  lemma {:induction false} EmptyItems(n: Numbers, format: bool, depth: nat)
    ensures ItemsText(n, [], format, depth) == "" && ItemsRest(n, [], format, depth) == ""
    ensures MembersText(n, [], format, depth) == ""
  {
  }

  lemma {:induction false} ItemsPrintable(n: Numbers, items: seq<Json>, depth: nat)
    requires Printable(n, Array(items), depth)
    ensures depth < NESTING_LIMIT && forall i :: 0 <= i < |items| ==> Printable(n, items[i], depth + 1)
  {
  }

  lemma {:induction false} ItemsBegin(n: Numbers, items: seq<Json>, format: bool, printDepth: nat, depth: nat)
    requires items != [] && Printable(n, items[0], depth)
    ensures var t := ItemsText(n, items, format, printDepth); |t| > 0 && ' ' < t[0] && t[0] != ']'
  {
    hide Text, ItemsRest, Printable;
    TextBegins(n, items[0], format, printDepth, depth);
  }

  /** The first element, and the rest of the text. */
  lemma {:induction false} ItemsParts(n: Numbers, items: seq<Json>, format: bool, depth: nat)
    requires items != []
    ensures ItemsText(n, items, format, depth)
            == Text(n, items[0], format, depth) +
               if |items| == 1 then "" else (if format then ", " else ",") + ItemsText(n, items[1..], format, depth)
  {
    hide Text;
    if |items| > 1 {
      var rest := items[1..];
      var comma := if format then ", " else ",";
      assert ItemsRest(n, rest, format, depth)
             == comma + (Text(n, rest[0], format, depth) + ItemsRest(n, rest[1..], format, depth));
    }
  }

  lemma {:induction false} ItemsRoundTrip(n: Numbers, c: string, o: nat, items: seq<Json>, format: bool,
                                          printDepth: nat, depth: nat)
    requires Terminated(c) && items != [] && forall i :: 0 <= i < |items| ==> Printable(n, items[i], depth)
    requires Here(c, o, ItemsText(n, items, format, printDepth) + "]")
    ensures ParseItems(n, c, o, depth) == Some((items, o + |ItemsText(n, items, format, printDepth)|))
    decreases items, 0
  {
    hide ParseValue, Here, Text, ItemsText, Printable, ItemsRest, SkipSpace;
    var x := Text(n, items[0], format, printDepth);
    ItemPlace(n, c, o, items, format, printDepth);
    ValueRoundTrip(n, c, o, items[0], format, printDepth, depth);
    if |items| == 1 {
      assert items == [items[0]];
    } else {
      NextItem(n, c, o, items, format, printDepth, depth);
      ItemsRoundTrip(n, c, SkipSpace(c, After(c, o + |x|)), items[1..], format, printDepth, depth);
      assert items == [items[0]] + items[1..];
    }
  }

  /** Where the first element is, and what follows it. */
  lemma {:induction false} ItemPlace(n: Numbers, c: string, o: nat, items: seq<Json>, format: bool, printDepth: nat)
    requires items != [] && Here(c, o, ItemsText(n, items, format, printDepth) + "]")
    ensures Here(c, o, Text(n, items[0], format, printDepth))
    ensures var e := o + |Text(n, items[0], format, printDepth)|;
            && e < |c| && c[e] == (if |items| == 1 then ']' else ',') && !IsNumberChar(c[e]) && SkipSpace(c, e) == e
            && (|items| == 1 ==> e == o + |ItemsText(n, items, format, printDepth)|)
  {
    hide Here, Text, ItemsText;
    var x := Text(n, items[0], format, printDepth);
    var comma := if format then ", " else ",";
    var after := if |items| == 1 then "]" else comma + (ItemsText(n, items[1..], format, printDepth) + "]");
    ItemsParts(n, items, format, printDepth);
    assert ItemsText(n, items, format, printDepth) + "]" == x + after;
    HereSplit(c, o, x, after);
    HereInside(c, o + |x|, after);
    HereAt(c, o + |x|, after, 0);
    NoSpace(c, o + |x|);
  }

  /** Where the next element is. */
  lemma {:induction false} NextItem(n: Numbers, c: string, o: nat, items: seq<Json>, format: bool, printDepth: nat,
                                    depth: nat)
    requires Terminated(c) && |items| > 1 && Printable(n, items[1], depth)
    requires Here(c, o, ItemsText(n, items, format, printDepth) + "]")
    ensures var e := o + |Text(n, items[0], format, printDepth)|;
            && e < |c| && c[e] == ','
            && var next := SkipSpace(c, After(c, e));
               && Here(c, next, ItemsText(n, items[1..], format, printDepth) + "]")
               && o + |ItemsText(n, items, format, printDepth)| == next + |ItemsText(n, items[1..], format, printDepth)|
  {
    hide Here, Text, ItemsText, Printable;
    var x := Text(n, items[0], format, printDepth);
    var comma := if format then ", " else ",";
    var rest := ItemsText(n, items[1..], format, printDepth);
    ItemPlace(n, c, o, items, format, printDepth);
    ItemsParts(n, items, format, printDepth);
    assert ItemsText(n, items, format, printDepth) + "]" == x + comma + (rest + "]");
    HereSplit(c, o, x + comma, rest + "]");
    HereSplit(c, o, x, comma);
    if format { HereAt(c, o + |x|, comma, 1); }
    ItemsBegin(n, items[1..], format, printDepth, depth);
    var next := o + |x| + |comma|;
    HereInside(c, next, rest + "]");
    HereAt(c, next, rest + "]", 0);
    if format { OneSpace(c, next - 1); } else { NoSpace(c, next); }
  }

  lemma {:induction false} HereInside(c: string, o: nat, t: string)
    requires Here(c, o, t)
    ensures o + |t| <= |c|
  {
  }

  // ----- Objects -----

  function Indent(format: bool, depth: nat): string { if format then Tabs(depth) else "" }

  /** The text of the members without the indentation of the first. */
  function MembersTail(n: Numbers, members: seq<Member>, format: bool, depth: nat): string
    requires members != []
  {
    PrintString(members[0].key) + (if format then ":\t" else ":") + Text(n, members[0].value, format, depth) +
    (if |members| > 1 then "," else "") + (if format then "\n" else "") + MembersText(n, members[1..], format, depth)
  }

  lemma {:induction false} MembersBegin(n: Numbers, members: seq<Member>, format: bool, depth: nat)
    requires members != []
    ensures MembersText(n, members, format, depth) == Indent(format, depth) + MembersTail(n, members, format, depth)
    ensures var tail := MembersTail(n, members, format, depth); |tail| > 0 && tail[0] == '"'
  {
    hide Text, Tabs, EscapeText;
  }

  /** The first member, and what follows its value. */
  function AfterValue(n: Numbers, members: seq<Member>, format: bool, depth: nat): string
    requires members != []
  {
    if |members| == 1 then if format then "\n" else ""
    else (if format then ",\n" else ",") + Indent(format, depth) + MembersTail(n, members[1..], format, depth)
  }

  lemma {:induction false} MembersParts(n: Numbers, members: seq<Member>, format: bool, depth: nat)
    requires members != []
    ensures MembersTail(n, members, format, depth)
            == PrintString(members[0].key) + ((if format then ":\t" else ":") +
               (Text(n, members[0].value, format, depth) + AfterValue(n, members, format, depth)))
  {
    hide Text, Tabs, EscapeText, PrintString, MembersTail;
    if |members| > 1 { MembersBegin(n, members[1..], format, depth); }
    TailMeans(n, members, format, depth);
    EmptyItems(n, format, depth);
  }

  lemma {:induction false} TailMeans(n: Numbers, members: seq<Member>, format: bool, depth: nat)
    requires members != []
    ensures MembersTail(n, members, format, depth)
            == PrintString(members[0].key) + (if format then ":\t" else ":") +
               Text(n, members[0].value, format, depth) + (if |members| > 1 then "," else "") +
               (if format then "\n" else "") + MembersText(n, members[1..], format, depth)
  {
    hide Text, PrintString, MembersText;
  }

  /** After the value of a member: the brace, or the next member. */
  lemma {:induction false} MemberEnds(n: Numbers, c: string, e: nat, members: seq<Member>, format: bool,
                                      printDepth: nat, close: nat)
    requires Terminated(c) && members != []
    requires Here(c, e, AfterValue(n, members, format, printDepth) + (Indent(format, close) + "}"))
    ensures e < |c| && !IsNumberChar(c[e]) && (c[e] == '\n' || c[e] == ',' || c[e] == '}')
    ensures var end := SkipSpace(c, e);
            && |members| == 1 ==>
              c[end] == '}' && end == e + |AfterValue(n, members, format, printDepth)| + |Indent(format, close)|
    ensures |members| > 1 ==> SkipSpace(c, e) == e && c[e] == ','
    ensures |members| > 1 ==>
              var next := SkipSpace(c, After(c, e));
              && next == e + |AfterValue(n, members, format, printDepth)|
                           - |MembersTail(n, members[1..], format, printDepth)|
              && Here(c, next, MembersTail(n, members[1..], format, printDepth) + (Indent(format, close) + "}"))
  {
    hide MembersTail, Indent, Here;
    if |members| == 1 {
      LastMemberEnds(c, e, format, close);
    } else {
      MoreMembers(n, c, e, members, format, printDepth, Indent(format, close) + "}");
    }
  }

  lemma {:induction false} MoreMembers(n: Numbers, c: string, e: nat, members: seq<Member>, format: bool,
                                       printDepth: nat, tail: string)
    requires Terminated(c) && |members| > 1 && Here(c, e, AfterValue(n, members, format, printDepth) + tail)
    ensures e < |c| && c[e] == ',' && SkipSpace(c, e) == e
    ensures var next := SkipSpace(c, After(c, e));
            && next == e + |AfterValue(n, members, format, printDepth)|
                         - |MembersTail(n, members[1..], format, printDepth)|
            && Here(c, next, MembersTail(n, members[1..], format, printDepth) + tail)
  {
    hide MembersTail, Indent, Here;
    var rest := MembersTail(n, members[1..], format, printDepth);
    var head := (if format then ",\n" else ",") + Indent(format, printDepth);
    MembersBegin(n, members[1..], format, printDepth);
    assert AfterValue(n, members, format, printDepth) + tail == head + (rest + tail);
    HereSplit(c, e, head, rest + tail);
    HereInside(c, e + |head|, rest + tail);
    HereAt(c, e + |head|, rest + tail, 0);
    NextMember(c, e, format, printDepth);
  }

  lemma {:induction false} LastMemberEnds(c: string, e: nat, format: bool, close: nat)
    requires Here(c, e, (if format then "\n" else "") + (Indent(format, close) + "}"))
    ensures e < |c| && c[e] == (if format then '\n' else '}')
    ensures SkipSpace(c, e) == e + (if format then 1 else 0) + |Indent(format, close)| && c[SkipSpace(c, e)] == '}'
  {
    hide Tabs;
    if format {
      HereSplit(c, e, "\n", Tabs(close) + "}");
      HereAt(c, e, "\n", 0);
      HereSplit(c, e + 1, Tabs(close), "}");
      HereAt(c, e + 1 + |Tabs(close)|, "}", 0);
      HereSplit(c, e, "\n", Tabs(close));
      SkipsLine(c, e, close);
    } else {
      assert "" + ("" + "}") == "}";
      HereAt(c, e, "}", 0);
      NoSpace(c, e);
    }
  }

  lemma {:induction false} NextMember(c: string, e: nat, format: bool, depth: nat)
    requires Terminated(c) && Here(c, e, (if format then ",\n" else ",") + Indent(format, depth))
    requires var next := e + (if format then 2 else 1) + |Indent(format, depth)|; next < |c| && c[next] == '"'
    ensures e < |c| && c[e] == ',' && SkipSpace(c, e) == e
    ensures SkipSpace(c, After(c, e)) == e + (if format then 2 else 1) + |Indent(format, depth)|
  {
    hide Tabs;
    if format {
      assert ",\n" + Tabs(depth) == "," + ("\n" + Tabs(depth));
      HereSplit(c, e, ",", "\n" + Tabs(depth));
      HereAt(c, e, ",", 0);
      NoSpace(c, e);
      SkipsLine(c, e + 1, depth);
    } else {
      assert "," + "" == ",";
      HereAt(c, e, ",", 0);
      NoSpace(c, e);
      NoSpace(c, e + 1);
    }
  }

  lemma {:induction false} MembersRoundTrip(n: Numbers, c: string, o: nat, members: seq<Member>, format: bool,
                                            printDepth: nat, depth: nat, close: nat)
    requires Terminated(c) && members != [] && forall i :: 0 <= i < |members| ==> Printable(n, members[i].value, depth)
    requires Here(c, o, MembersTail(n, members, format, printDepth) + (Indent(format, close) + "}"))
    ensures o < |c|
    ensures ParseMembers(n, c, o, depth)
            == Some((members, o + |MembersTail(n, members, format, printDepth)| + |Indent(format, close)|))
    decreases members, 0
  {
    hide ParseValue, ParseString, ParseMembers, Here, Text, MembersTail, AfterValue, Printable, PrintString, Tabs,
      IsNumberChar, Indent, SkipSpace;
    var v, e := MemberPlaces(n, c, o, members, format, printDepth, close);
    var k := o + |PrintString(members[0].key)|;
    StringRoundTrip(c, o, members[0].key);
    ColonSkips(c, k, format);
    MemberEnds(n, c, e, members, format, printDepth, close);
    ValueRoundTrip(n, c, v, members[0].value, format, printDepth, depth);
    TextBegins(n, members[0].value, format, printDepth, depth);
    HereAt(c, v, Text(n, members[0].value, format, printDepth), 0);
    ValueStarts(c, k, format);
    MemberParses(n, c, o, k, v, e, depth, members[0]);
    if |members| > 1 {
      MembersRoundTrip(n, c, SkipSpace(c, After(c, e)), members[1..], format, printDepth, depth, close);
      assert members == [members[0]] + members[1..];
    } else {
      assert members == [members[0]];
    }
  }

  /** A member is read: its key up to k, its value from v to e, and the rest if a comma follows. */
  lemma {:induction false} MemberParses(n: Numbers, c: string, o: nat, k: nat, v: nat, e: nat, depth: nat, m: Member)
    requires Terminated(c) && o < |c| && ParseString(c, o) == Some((m.key, k))
    requires k < |c| && SkipSpace(c, k) == k && c[k] == ':' && SkipSpace(c, After(c, k)) == v
    requires ParseValue(n, c, v, depth) == Some((m.value, e)) && e < |c|
    ensures var end := SkipSpace(c, e);
            && (c[end] == '}' ==> ParseMembers(n, c, o, depth) == Some(([m], end)))
            && (c[end] == ',' ==>
                  var rest := ParseMembers(n, c, SkipSpace(c, After(c, end)), depth);
                  rest.Some? ==> ParseMembers(n, c, o, depth) == Some(([m] + rest.value.0, rest.value.1)))
  {
    hide ParseValue, ParseString, SkipSpace;
  }

  /** Where the parts of a member are: its value at v, and what follows the value at e. */
  lemma {:induction false} MemberPlaces(n: Numbers, c: string, o: nat, members: seq<Member>, format: bool,
                                        printDepth: nat, close: nat)
    returns (v: nat, e: nat)
    requires members != [] && Here(c, o, MembersTail(n, members, format, printDepth) + (Indent(format, close) + "}"))
    ensures Here(c, o, PrintString(members[0].key))
    ensures Here(c, o + |PrintString(members[0].key)|, if format then ":\t" else ":")
    ensures v == o + |PrintString(members[0].key)| + (if format then 2 else 1)
    ensures Here(c, v, Text(n, members[0].value, format, printDepth))
    ensures e == v + |Text(n, members[0].value, format, printDepth)|
    ensures Here(c, e, AfterValue(n, members, format, printDepth) + (Indent(format, close) + "}"))
    ensures o + |MembersTail(n, members, format, printDepth)| == e + |AfterValue(n, members, format, printDepth)|
  {
    hide Here, Text, MembersTail, AfterValue, PrintString, Indent;
    var key := PrintString(members[0].key);
    var colon := if format then ":\t" else ":";
    var value := Text(n, members[0].value, format, printDepth);
    var after := AfterValue(n, members, format, printDepth);
    var tail := Indent(format, close) + "}";
    MembersParts(n, members, format, printDepth);
    HereSplit(c, o, key + (colon + (value + after)), tail);
    HereSplit(c, o, key, colon + (value + after));
    HereSplit(c, o + |key|, colon, value + after);
    v := o + |key| + |colon|;
    HereSplit(c, v, value, after);
    e := v + |value|;
    HereSplit(c, e, after, tail);
  }

  lemma {:induction false} ColonSkips(c: string, o: nat, format: bool)
    requires Here(c, o, if format then ":\t" else ":")
    ensures o < |c| && c[o] == ':' && SkipSpace(c, o) == o && (format ==> o + 1 < |c| && c[o + 1] == '\t')
  {
    var t := if format then ":\t" else ":";
    HereAt(c, o, t, 0);
    if format { HereAt(c, o, t, 1); }
    NoSpace(c, o);
  }

  lemma {:induction false} ValueStarts(c: string, o: nat, format: bool)
    requires Terminated(c) && Here(c, o, if format then ":\t" else ":") && c[o] == ':'
    requires var v := o + (if format then 2 else 1); v < |c| && c[v] > ' '
    ensures SkipSpace(c, After(c, o)) == o + (if format then 2 else 1)
  {
    ColonSkips(c, o, format);
    if format { OneSpace(c, o + 1); } else { NoSpace(c, o + 1); }
  }

  lemma {:induction false} ObjectRoundTrip(n: Numbers, c: string, o: nat, members: seq<Member>, format: bool,
                                           printDepth: nat, depth: nat)
    requires Terminated(c) && Printable(n, Object(members), depth)
    requires Here(c, o, Text(n, Object(members), format, printDepth))
    requires o + |Text(n, Object(members), format, printDepth)| < |c|
    ensures o < |c| && c[o] == '{'
    ensures ParseObject(n, c, o, depth) == Some((Object(members), o + |Text(n, Object(members), format, printDepth)|))
    decreases members, 1
  {
    hide ParseMembers, Here, MembersTail, MembersText, Printable, Tabs, Text, Indent;
    ObjectText(n, members, format, printDepth);
    MembersPrintable(n, members, depth);
    if members == [] {
      EmptyItems(n, format, printDepth + 1);
      assert "" + (Indent(format, printDepth) + "}") == Indent(format, printDepth) + "}";
      ObjectOpens(c, o, format, Indent(format, printDepth) + "}");
      EmptyObject(c, o, format, printDepth);
    } else {
      ObjectPlaces(n, c, o, members, format, printDepth);
      MembersRoundTrip(n, c, SkipSpace(c, After(c, o)), members, format, printDepth + 1, depth + 1, printDepth);
    }
  }

  lemma {:induction false} ObjectOpens(c: string, o: nat, format: bool, rest: string)
    requires Here(c, o, (if format then "{\n" else "{") + rest)
    ensures o < |c| && c[o] == '{'
  {
    HereAt(c, o, (if format then "{\n" else "{") + rest, 0);
  }

  /** Where the first member is. */
  lemma {:induction false} ObjectPlaces(n: Numbers, c: string, o: nat, members: seq<Member>, format: bool,
                                        printDepth: nat)
    requires Terminated(c) && members != [] && Here(c, o, Text(n, Object(members), format, printDepth))
    ensures o < |c| && c[o] == '{'
    ensures var m := SkipSpace(c, After(c, o));
            && m + |MembersTail(n, members, format, printDepth + 1)| + |Indent(format, printDepth)| + 1
               == o + |Text(n, Object(members), format, printDepth)|
            && Here(c, m, MembersTail(n, members, format, printDepth + 1) + (Indent(format, printDepth) + "}"))
            && c[m] == '"'
  {
    hide Here, MembersTail, MembersText, Text, Indent;
    var open := if format then "{\n" else "{";
    var ind := Indent(format, printDepth + 1);
    var m := MembersTail(n, members, format, printDepth + 1);
    var tail := Indent(format, printDepth) + "}";
    ObjectText(n, members, format, printDepth);
    MembersBegin(n, members, format, printDepth + 1);
    assert open + (ind + m + tail) == open + ind + (m + tail);
    ObjectOpens(c, o, format, ind + m + tail);
    HereSplit(c, o, open + ind, m + tail);
    HereInside(c, o + |open + ind|, m + tail);
    HereAt(c, o + |open + ind|, m + tail, 0);
    FirstMember(c, o, format, printDepth + 1);
  }

  lemma {:induction false} ObjectText(n: Numbers, members: seq<Member>, format: bool, depth: nat)
    ensures Text(n, Object(members), format, depth)
            == (if format then "{\n" else "{") +
               (MembersText(n, members, format, depth + 1) + (Indent(format, depth) + "}"))
  {
    hide MembersText, Tabs;
  }

  lemma {:induction false} MembersPrintable(n: Numbers, members: seq<Member>, depth: nat)
    requires Printable(n, Object(members), depth)
    ensures depth < NESTING_LIMIT && forall i :: 0 <= i < |members| ==> Printable(n, members[i].value, depth + 1)
  {
  }

  lemma {:induction false} EmptyObject(c: string, o: nat, format: bool, depth: nat)
    requires Terminated(c) && o < |c| && c[o] == '{'
    requires Here(c, o, (if format then "{\n" else "{") + (Indent(format, depth) + "}"))
    ensures var end := SkipSpace(c, After(c, o));
            c[end] == '}' && end == o + (if format then 2 else 1) + |Indent(format, depth)|
  {
    hide Tabs;
    if format {
      assert "{\n" + (Tabs(depth) + "}") == "{" + ("\n" + (Tabs(depth) + "}"));
      HereSplit(c, o, "{", "\n" + (Tabs(depth) + "}"));
    } else {
      assert "{" + ("" + "}") == "{" + ("" + ("" + "}"));
      HereSplit(c, o, "{", "" + ("" + "}"));
    }
    LastMemberEnds(c, o + 1, format, depth);
  }

  lemma {:induction false} FirstMember(c: string, o: nat, format: bool, depth: nat)
    requires Terminated(c) && o < |c| && c[o] == '{' &&
             Here(c, o, (if format then "{\n" else "{") + Indent(format, depth))
    requires var m := o + (if format then 2 else 1) + |Indent(format, depth)|; m < |c| && c[m] == '"'
    ensures SkipSpace(c, After(c, o)) == o + (if format then 2 else 1) + |Indent(format, depth)|
  {
    hide Tabs;
    if format {
      assert "{\n" + Tabs(depth) == "{" + ("\n" + Tabs(depth));
      HereSplit(c, o, "{", "\n" + Tabs(depth));
      SkipsLine(c, o + 1, depth);
    } else {
      NoSpace(c, o + 1);
    }
  }

  /**
   * Parsing what was printed gives the same item, formatted or not, as far as numbers round trip and nothing is nested
   * deeper than the parser allows.
   */
  lemma {:induction false} PrintThenParse(n: Numbers, j: Json, format: bool)
    requires Printable(n, j, 0)
    ensures Parse(n, Text(n, j, format, 0)) == Some(j)
  {
    hide ParseValue, Text, Printable;
    var t := Text(n, j, format, 0);
    var c := t + "\0";
    TextBegins(n, j, format, 0, 0);
    assert c[..|t|] == t && c[0] == t[0] && c[|t|] == '\0';
    if |c| > 4 && Here(c, 0, BOM) { HereAt(c, 0, BOM, 0); }
    NoSpace(c, 0);
    ValueRoundTrip(n, c, 0, j, format, 0, 0);
  }
}

/** What a string literal of RFC 8259, section 7, stands for, and that parse_string reads exactly these literals. */
module JsonLiterals {
  import opened JsonStrings
  import opened Options

  // ----- UTF-8 -----

  predicate Continues(b: char) { 0x80 <= b as nat < 0xC0 }

  /** The scalar value that a sequence of bytes is the UTF-8 form of (RFC 3629, sections 3 and 4). */
  function FromUtf8(s: string): Option<nat> {
    if |s| == 1 && s[0] as nat < 0x80 then Some(s[0] as nat)
    else if |s| == 2 && 0xC2 <= s[0] as nat < 0xE0 && Continues(s[1]) then
      Some((s[0] as nat - 0xC0) * 0x40 + (s[1] as nat - 0x80))
    else if |s| == 3 && 0xE0 <= s[0] as nat < 0xF0 && Continues(s[1]) && Continues(s[2]) then
      var n := (s[0] as nat - 0xE0) * 0x1000 + (s[1] as nat - 0x80) * 0x40 + (s[2] as nat - 0x80);
      if n < 0x800 || 0xD800 <= n < 0xE000 then None else Some(n)
    else if |s| == 4 && 0xF0 <= s[0] as nat < 0xF8 && Continues(s[1]) && Continues(s[2]) && Continues(s[3]) then
      var n := (s[0] as nat - 0xF0) * 0x40000 + (s[1] as nat - 0x80) * 0x1000 + (s[2] as nat - 0x80) * 0x40
               + (s[3] as nat - 0x80);
      if n < 0x10000 || n > 0x10FFFF then None else Some(n)
    else None
  }

  predicate IsScalar(n: nat) { n <= 0x10FFFF && !(0xD800 <= n < 0xE000) }

  /** The bytes that utf16_literal_to_utf8 writes are the UTF-8 form of the scalar value. */
  lemma {:induction false} Utf8Means(n: nat)
    requires IsScalar(n)
    ensures FromUtf8(Utf8(n)) == Some(n)
  {
    var a := n / 64;
    var b := a / 64;
    assert n == 64 * a + n % 64 && a == 64 * b + a % 64 && b == 64 * (b / 64) + b % 64;
    assert n / 4096 == b && n / 262144 == b / 64;
  }

  // ----- Literals -----

  /** One character of a string, as it is written in a literal. */
  datatype Item =
    | Plain(ch: char)
    | Quote
    | ReverseSolidus
    | Solidus
    | Backspace
    | FormFeed
    | LineFeed
    | CarriageReturn
    | Tab
    | Basic(n: nat, u: Cases)
    | Supplementary(n: nat, high: Cases, low: Cases)
  {
    /** Control characters may stand for themselves here, which RFC 8259 does not allow. */
    predicate Valid() {
      match this
      case Plain(ch) => ch != '"' && ch != '\\'
      case Basic(n, _) => n < 0x10000 && IsScalar(n)
      case Supplementary(n, _, _) => 0x10000 <= n && IsScalar(n)
      case _ => true
    }

    function Written(): (t: string)
      requires Valid()
      ensures t != ""
    {
      match this
      case Plain(ch) => [ch]
      case Quote => "\\\""
      case ReverseSolidus => "\\\\"
      case Solidus => "\\/"
      case Backspace => "\\b"
      case FormFeed => "\\f"
      case LineFeed => "\\n"
      case CarriageReturn => "\\r"
      case Tab => "\\t"
      case Basic(n, u) => CodeUnit(n, u)
      case Supplementary(n, high, low) =>
        CodeUnit(0xD800 + (n - 0x10000) / 0x400, high) + CodeUnit(0xDC00 + (n - 0x10000) % 0x400, low)
    }

    /** The bytes that it stands for. */
    function Meaning(): string
      requires Valid()
    {
      match this
      case Plain(ch) => [ch]
      case Quote => "\""
      case ReverseSolidus => "\\"
      case Solidus => "/"
      case Backspace => "\U{0008}"
      case FormFeed => "\U{000C}"
      case LineFeed => "\U{000A}"
      case CarriageReturn => "\U{000D}"
      case Tab => "\U{0009}"
      case Basic(n, _) => Utf8(n)
      case Supplementary(n, _, _) => Utf8(n)
    }
  }

  ghost predicate AllValid(items: seq<Item>) { forall i :: 0 <= i < |items| ==> items[i].Valid() }

  ghost function Text(items: seq<Item>): string
    requires AllValid(items)
  {
    if items == [] then "" else items[0].Written() + Text(items[1..])
  }

  ghost function Meanings(items: seq<Item>): string
    requires AllValid(items)
  {
    if items == [] then "" else items[0].Meaning() + Meanings(items[1..])
  }

  // ----- Every literal is read as what it stands for -----

  lemma {:induction false} SurrogatePair(m: nat)
    requires m < 0x100000
    ensures (0xD800 + m / 0x400) % 0x400 * 0x400 + (0xDC00 + m % 0x400) % 0x400 == m
  {
  }

  lemma {:induction false} UnicodeReads(c: string, o: nat, e: nat, item: Item)
    requires (item.Basic? || item.Supplementary?) && item.Valid()
    requires Here(c, o, item.Written()) && o + |item.Written()| <= e <= |c|
    ensures c[o] == '\\' && c[o + 1] == 'u' && Utf16Literal(c, o, e) == Some((item.Meaning(), |item.Written()|))
    ensures Closed(item.Written())
  {
    hide ParseHex4, Utf8, CodeUnit;
    match item
    case Basic(n, u) =>
      UnitReads(c, o, n, u);
      UnitClosed(n, u);
    case Supplementary(n, high, low) =>
      var a, b := 0xD800 + (n - 0x10000) / 0x400, 0xDC00 + (n - 0x10000) % 0x400;
      HereSplit(c, o, CodeUnit(a, high), CodeUnit(b, low));
      UnitReads(c, o, a, high);
      UnitReads(c, o + 6, b, low);
      UnitClosed(a, high);
      UnitClosed(b, low);
      ClosedConcat(CodeUnit(a, high), CodeUnit(b, low));
      SurrogatePair(n - 0x10000);
  }

  lemma {:induction false} ItemReads(c: string, o: nat, e: nat, item: Item, rest: string)
    requires item.Valid() && Here(c, o, item.Written()) && o + |item.Written()| <= e < |c|
    requires Unescape(c, o + |item.Written()|, e) == Some(rest)
    ensures Unescape(c, o, e) == Some(item.Meaning() + rest)
    ensures Closed(item.Written())
  {
    hide Utf16Literal, CodeUnit, Utf8;
    if item.Basic? || item.Supplementary? {
      UnicodeReads(c, o, e, item);
    } else {
      var t := item.Written();
      HereAt(c, o, t, 0);
      if |t| == 2 {
        HereAt(c, o, t, 1);
        assert t[2..] == "";
      } else {
        assert t[1..] == "";
      }
    }
  }

  lemma {:induction false} ItemsRead(c: string, o: nat, e: nat, items: seq<Item>)
    requires AllValid(items) && Here(c, o, Text(items)) && e == o + |Text(items)| < |c|
    ensures Unescape(c, o, e) == Some(Meanings(items)) && Closed(Text(items))
    decreases |items|
  {
    hide Unescape, Closed, Here, Item.Written, Item.Meaning, Item.Valid;
    if items == [] {
      NothingUnescapes(c, e);
    } else {
      var t := items[0].Written();
      assert Text(items) == t + Text(items[1..]);
      HereSplit(c, o, t, Text(items[1..]));
      ItemsRead(c, o + |t|, e, items[1..]);
      ItemReads(c, o, e, items[0], Meanings(items[1..]));
      ClosedConcat(t, Text(items[1..]));
    }
  }

  /** Whatever the literal is made of, it is read as the bytes that it stands for, up to its closing quote. */
  lemma {:induction false} LiteralIsRead(c: string, o: nat, items: seq<Item>)
    requires AllValid(items) && Here(c, o, "\"" + Text(items) + "\"")
    ensures o < |c| && ParseString(c, o) == Some((Meanings(items), o + |Text(items)| + 2))
  {
    hide Unescape, Closed, LiteralEnd, Text, Meanings, Here;
    QuotedParts(c, o, Text(items));
    ItemsRead(c, o + 1, o + 1 + |Text(items)|, items);
    PassesOver(c, o + 1, Text(items));
    QuoteEnds(c, o + 1 + |Text(items)|);
  }

  // ----- Nothing else is read, but for digits that are none -----

  predicate IsHex(ch: char) { ch in LOWER_DIGITS || ch in UPPER_DIGITS }

  /** Every `\u` from position i to e, as the first pass counts escapes, has four hexadecimal digits. */
  predicate DigitsFollow(c: string, i: nat, e: nat)
    requires e < |c|
    decreases if i < e then e - i else 0
  {
    i >= e ||
    (if c[i] != '\\' then DigitsFollow(c, i + 1, e)
     else if c[i + 1] != 'u' then DigitsFollow(c, i + 2, e)
     else
       i + 6 <= e && IsHex(c[i + 2]) && IsHex(c[i + 3]) && IsHex(c[i + 4]) && IsHex(c[i + 5]) &&
       DigitsFollow(c, i + 6, e))
  }

  lemma {:induction false} DigitOf(ch: char) returns (d: nat, upper: bool)
    requires IsHex(ch)
    ensures d < 16 && HexDigit(d, upper) == ch
  {
    if ch in LOWER_DIGITS {
      d :| d < 16 && LOWER_DIGITS[d] == ch;
      upper := false;
    } else {
      d :| d < 16 && UPPER_DIGITS[d] == ch;
      upper := true;
    }
  }

  /** Four digits are a code unit. */
  lemma {:induction false} UnitOf(c: string, i: nat) returns (n: nat, u: Cases)
    requires i + 6 <= |c| && c[i] == '\\' && c[i + 1] == 'u'
    requires IsHex(c[i + 2]) && IsHex(c[i + 3]) && IsHex(c[i + 4]) && IsHex(c[i + 5])
    ensures n < 0x10000 && ParseHex4(c, i + 2) == n && Here(c, i, CodeUnit(n, u))
  {
    hide IsHex, HexDigit, Hex;
    var d0, u0 := DigitOf(c[i + 2]);
    var d1, u1 := DigitOf(c[i + 3]);
    var d2, u2 := DigitOf(c[i + 4]);
    var d3, u3 := DigitOf(c[i + 5]);
    n, u := 4096 * d0 + 256 * d1 + 16 * d2 + d3, (u0, u1, u2, u3);
    FourPlaces(d0, d1, d2, d3);
    assert c[i..i + 6] == CodeUnit(n, u);
    UnitReads(c, i, n, u);
  }

  lemma {:induction false} FourPlaces(a: nat, b: nat, d: nat, e: nat)
    requires a < 16 && b < 16 && d < 16 && e < 16
    ensures var n := 4096 * a + 256 * b + 16 * d + e;
            n < 0x10000 && n / 4096 == a && n / 256 % 16 == b && n / 16 % 16 == d && n % 16 == e
  {
    var n := 4096 * a + 256 * b + 16 * d + e;
    assert n / 256 == 16 * a + b && n / 16 == 256 * a + 16 * b + d;
  }

  /** The first item of a text that is read. */
  lemma {:induction false} FirstItem(c: string, i: nat, e: nat) returns (item: Item)
    requires i < e < |c| && LiteralEnd(c, i) == Some(e) && DigitsFollow(c, i, e) && Unescape(c, i, e).Some?
    ensures item.Valid() && Here(c, i, item.Written())
    ensures var next := i + |item.Written()|;
            next <= e && LiteralEnd(c, next) == Some(e) && DigitsFollow(c, next, e) && Unescape(c, next, e).Some?
  {
    hide *;
    if c[i] != '\\' {
      item := FirstPlain(c, i, e);
    } else if c[i + 1] == 'u' {
      item := FirstUnicode(c, i, e);
    } else {
      item := FirstSimple(c, i, e);
    }
  }

  lemma {:induction false} FirstPlain(c: string, i: nat, e: nat) returns (item: Item)
    requires i < e < |c| && LiteralEnd(c, i) == Some(e) && DigitsFollow(c, i, e) && Unescape(c, i, e).Some?
    requires c[i] != '\\'
    ensures item.Valid() && Here(c, i, item.Written())
    ensures var next := i + |item.Written()|;
            next <= e && LiteralEnd(c, next) == Some(e) && DigitsFollow(c, next, e) && Unescape(c, next, e).Some?
  {
    hide Utf16Literal, Simple, IsHex;
    item := Plain(c[i]);
    assert item.Written() == [c[i]] == c[i..i + 1];
    assert c[i] != '"';
  }

  lemma {:induction false} FirstSimple(c: string, i: nat, e: nat) returns (item: Item)
    requires i < e < |c| && LiteralEnd(c, i) == Some(e) && DigitsFollow(c, i, e) && Unescape(c, i, e).Some?
    requires c[i] == '\\' && c[i + 1] != 'u'
    ensures item.Valid() && Here(c, i, item.Written())
    ensures var next := i + |item.Written()|;
            next <= e && LiteralEnd(c, next) == Some(e) && DigitsFollow(c, next, e) && Unescape(c, next, e).Some?
  {
    hide Utf16Literal, Simple, IsHex, Item.Written, Item.Valid;
    item := FirstEscape(c[i + 1]);
    assert c[i..i + 2] == item.Written();
  }

  lemma {:induction false} FirstEscape(ch: char) returns (item: Item)
    requires Simple(ch).Some?
    ensures item.Valid() && item.Written() == ['\\', ch]
  {
    item := match ch
      case '"' => Quote
      case '\\' => ReverseSolidus
      case '/' => Solidus
      case 'b' => Backspace
      case 'f' => FormFeed
      case 'n' => LineFeed
      case 'r' => CarriageReturn
      case _ => Tab;
  }

  lemma {:induction false} FirstUnicode(c: string, i: nat, e: nat) returns (item: Item)
    requires i < e < |c| && LiteralEnd(c, i) == Some(e) && DigitsFollow(c, i, e) && Unescape(c, i, e).Some?
    requires c[i] == '\\' && c[i + 1] == 'u'
    ensures item.Valid() && Here(c, i, item.Written())
    ensures var next := i + |item.Written()|;
            next <= e && LiteralEnd(c, next) == Some(e) && DigitsFollow(c, next, e) && Unescape(c, next, e).Some?
  {
    hide ParseHex4, CodeUnit, Utf8, IsHex, LiteralEnd, Closed;
    var a, u := UnitOf(c, i);
    UnitClosed(a, u);
    PassesOver(c, i, CodeUnit(a, u));
    item := Basic(a, u);
    if 0xD800 <= a < 0xDC00 {
      var b, v := UnitOf(c, i + 6);
      UnitClosed(b, v);
      PassesOver(c, i + 6, CodeUnit(b, v));
      item := Supplementary(0x10000 + a % 0x400 * 0x400 + b % 0x400, u, v);
      HereSplit(c, i, CodeUnit(a, u), CodeUnit(b, v));
    }
  }

  lemma {:induction false} TextIsItems(c: string, i: nat, e: nat) returns (items: seq<Item>)
    requires i <= e < |c| && LiteralEnd(c, i) == Some(e) && DigitsFollow(c, i, e) && Unescape(c, i, e).Some?
    ensures AllValid(items) && c[i..e] == Text(items)
    decreases e - i
  {
    hide Unescape, LiteralEnd, DigitsFollow, Item.Written, Item.Valid;
    if i == e {
      items := [];
    } else {
      var item := FirstItem(c, i, e);
      var next := i + |item.Written()|;
      var rest := TextIsItems(c, next, e);
      items := [item] + rest;
      assert items[1..] == rest && Text(items) == item.Written() + Text(rest);
      assert c[i..e] == c[i..next] + c[next..e];
    }
  }

  /**
   * The literal at o, whose `\u` all have four hexadecimal digits, is read exactly if it is a text of items, and then
   * as what they stand for.
   */
  lemma {:induction false} LiteralReadIff(c: string, o: nat)
    requires o < |c| && c[o] == '"' && LiteralEnd(c, o + 1).Some? && DigitsFollow(c, o + 1, LiteralEnd(c, o + 1).value)
    ensures var e := LiteralEnd(c, o + 1).value;
            && (ParseString(c, o).Some? <==> exists items :: AllValid(items) && c[o + 1..e] == Text(items))
            && forall items :: AllValid(items) && c[o + 1..e] == Text(items) ==>
                 ParseString(c, o) == Some((Meanings(items), e + 1))
  {
    hide Unescape, LiteralEnd, DigitsFollow, Text, Meanings;
    var e := LiteralEnd(c, o + 1).value;
    if ParseString(c, o).Some? { var items := TextIsItems(c, o + 1, e); }
    forall items | AllValid(items) && c[o + 1..e] == Text(items)
      ensures ParseString(c, o) == Some((Meanings(items), e + 1))
    {
      ItemsRead(c, o + 1, e, items);
    }
  }

  /** parse_hex4 gives zero for what is no number: such an escape is read as a NUL. */
  lemma {:induction false} DigitsCounterexample(c: string)
    requires c == "\"\\u00zz\""
    ensures ParseString(c, 0) == Some(("\0", 8)) && !DigitsFollow(c, 1, 7)
  {
    hide ParseHex4, Utf8, Hex, IsHex;
    NoNumber(c);
    assert LiteralEnd(c, 7) == Some(7);
    assert LiteralEnd(c, 5) == Some(7);
    assert LiteralEnd(c, 3) == Some(7);
    assert LiteralEnd(c, 1) == Some(7);
    assert Utf16Literal(c, 1, 7) == Some(("\0", 6));
    assert Unescape(c, 7, 7) == Some("") && "\0" + "" == "\0";
  }

  lemma {:induction false} NoNumber(c: string)
    requires |c| > 7 && c[3] == '0' && c[4] == '0' && c[5] == 'z' && c[6] == 'z'
    ensures ParseHex4(c, 3) == 0 && !IsHex(c[5]) && Utf8(0) == "\0"
  {
  }
}

/** String literals: the two passes of parse_string, UTF-16 escapes, and the printed form. Characters are bytes. */
module JsonStrings {
  import opened Options

  function Hex(c: char): Option<nat> {
    if '0' <= c <= '9' then Some(c as nat - '0' as nat)
    else if 'A' <= c <= 'F' then Some(10 + c as nat - 'A' as nat)
    else if 'a' <= c <= 'f' then Some(10 + c as nat - 'a' as nat)
    else None
  }

  /** parse_hex4; zero for anything that is not four digits. */
  function ParseHex4(c: string, i: nat): (h: nat)
    requires i + 4 <= |c|
    ensures h < 0x10000
  {
    var a, b, d, e := Hex(c[i]), Hex(c[i + 1]), Hex(c[i + 2]), Hex(c[i + 3]);
    if a.None? || b.None? || d.None? || e.None? then 0
    else 4096 * a.value + 256 * b.value + 16 * d.value + e.value
  }

  function Byte(n: nat): char
    requires n < 256
  {
    n as char
  }

  /** The UTF-8 form of a code point (RFC 3629, section 3). */
  function Utf8(codepoint: nat): (s: string)
    requires codepoint <= 0x10FFFF
    ensures 1 <= |s| <= 4
  {
    if codepoint < 0x80 then [Byte(codepoint)]
    else if codepoint < 0x800 then [Byte(0xC0 + codepoint / 64), Byte(0x80 + codepoint % 64)]
    else if codepoint < 0x10000 then
      [Byte(0xE0 + codepoint / 4096), Byte(0x80 + codepoint / 64 % 64), Byte(0x80 + codepoint % 64)]
    else
      [Byte(0xF0 + codepoint / 262144), Byte(0x80 + codepoint / 4096 % 64), Byte(0x80 + codepoint / 64 % 64),
       Byte(0x80 + codepoint % 64)]
  }

  /** utf16_literal_to_utf8: the bytes, and how much of the input up to e the literal takes. */
  function Utf16Literal(c: string, i: nat, e: nat): (r: Option<(string, nat)>)
    requires i <= e <= |c|
    ensures r.Some? ==> (r.value.1 == 6 && |r.value.0| <= 3) || (r.value.1 == 12 && |r.value.0| == 4)
    ensures r.Some? ==> i + r.value.1 <= e
  {
    if e - i < 6 then None
    else
      var first := ParseHex4(c, i + 2);
      if 0xDC00 <= first <= 0xDFFF then None
      else if 0xD800 <= first <= 0xDBFF then
        if e - i < 12 || c[i + 6] != '\\' || c[i + 7] != 'u' then None
        else
          var second := ParseHex4(c, i + 8);
          if second < 0xDC00 || second > 0xDFFF then None
          else Some((Utf8(0x10000 + first % 0x400 * 0x400 + second % 0x400), 12))
      else Some((Utf8(first), 6))
  }

  /** The character that a backslash and c stand for. */
  function Simple(c: char): Option<char> {
    match c
    case 'b' => Some('\U{0008}')
    case 'f' => Some('\U{000C}')
    case 'n' => Some('\n')
    case 'r' => Some('\r')
    case 't' => Some('\t')
    case '"' => Some('"')
    case '\\' => Some('\\')
    case '/' => Some('/')
    case _ => None
  }

  // ----- The two passes of parse_string -----

  /** The first pass: where the literal ends, each backslash skipping the next character. */
  function LiteralEnd(c: string, i: nat): (r: Option<nat>)
    requires i <= |c|
    ensures r.Some? ==> i <= r.value < |c| && c[r.value] == '"'
    decreases |c| - i
  {
    if i == |c| then None
    else if c[i] == '"' then Some(i)
    else if c[i] != '\\' then LiteralEnd(c, i + 1)
    else if i + 1 == |c| then None
    else LiteralEnd(c, i + 2)
  }

  /** How many escapes the first pass counts. */
  function Skipped(c: string, i: nat): nat
    requires i <= |c|
    decreases |c| - i
  {
    if i == |c| || c[i] == '"' then 0
    else if c[i] != '\\' then Skipped(c, i + 1)
    else if i + 1 == |c| then 0
    else 1 + Skipped(c, i + 2)
  }

  /** The second pass: the bytes of the literal from i to its end e. */
  function Unescape(c: string, i: nat, e: nat): Option<string>
    requires e < |c|
    decreases if i < e then e - i else 0
  {
    if i >= e then Some("")
    else if c[i] != '\\' then
      var rest := Unescape(c, i + 1, e);
      if rest.None? then None else Some([c[i]] + rest.value)
    else if c[i + 1] == 'u' then
      var literal := Utf16Literal(c, i, e);
      if literal.None? then None
      else
        var rest := Unescape(c, i + literal.value.1, e);
        if rest.None? then None else Some(literal.value.0 + rest.value)
    else
      var s := Simple(c[i + 1]);
      var rest := Unescape(c, i + 2, e);
      if s.None? || rest.None? then None else Some([s.value] + rest.value)
  }

  /** parse_string: the bytes, and the offset after the closing quote. */
  function ParseString(c: string, o: nat): (r: Option<(string, nat)>)
    requires o < |c|
    ensures r.Some? ==> o < r.value.1 <= |c|
  {
    if c[o] != '"' then None
    else
      var end := LiteralEnd(c, o + 1);
      if end.None? then None
      else
        var text := Unescape(c, o + 1, end.value);
        if text.None? then None else Some((text.value, end.value + 1))
  }

  // ----- The size estimate of the first pass -----

  /** The first pass begins an escape at position p; `aligned` says that p is not the second half of one. */
  predicate EscapeAt(c: string, p: nat, aligned: bool)
    requires p < |c|
  {
    aligned && c[p] == '\\'
  }

  /** How many escapes the first pass begins from position p to the end e. */
  function EscapesFrom(c: string, p: nat, e: nat, aligned: bool): (n: nat)
    requires p <= e <= |c|
    decreases e - p
  {
    if p == e then 0
    else (if EscapeAt(c, p, aligned) then 1 else 0) + EscapesFrom(c, p + 1, e, !EscapeAt(c, p, aligned))
  }

  /** What the first pass allows for the rest of the literal. */
  function Allowance(c: string, p: nat, e: nat, aligned: bool): int
    requires p <= e <= |c|
  {
    e - p - EscapesFrom(c, p, e, aligned)
  }

  /** From position p the first pass comes to the end e. */
  predicate LeadsTo(c: string, p: nat, e: nat, aligned: bool)
    requires p <= e < |c|
  {
    if aligned then LiteralEnd(c, p) == Some(e) else p < e && LiteralEnd(c, p + 1) == Some(e)
  }

  lemma {:induction false} OneOn(c: string, p: nat, e: nat, aligned: bool)
    requires p < e < |c| && LeadsTo(c, p, e, aligned)
    ensures LeadsTo(c, p + 1, e, !EscapeAt(c, p, aligned))
    ensures Allowance(c, p, e, aligned)
            == Allowance(c, p + 1, e, !EscapeAt(c, p, aligned)) + if EscapeAt(c, p, aligned) then 0 else 1
  {
  }

  /** Some positions on: at least every other one counts. */
  lemma {:induction false} SomeOn(c: string, p: nat, e: nat, aligned: bool, k: nat) returns (aligned': bool)
    requires p + k <= e < |c| && LeadsTo(c, p, e, aligned)
    ensures LeadsTo(c, p + k, e, aligned')
    ensures 2 * (Allowance(c, p, e, aligned) - Allowance(c, p + k, e, aligned')) >= k - if aligned then 1 else 0
    ensures k % 2 == 0 ==> 2 * (Allowance(c, p, e, aligned) - Allowance(c, p + k, e, aligned')) >= k
    decreases k
  {
    hide Allowance, LeadsTo, EscapeAt;
    aligned' := aligned;
    if k > 0 {
      OneOn(c, p, e, aligned);
      var next := !EscapeAt(c, p, aligned);
      aligned' := SomeOn(c, p + 1, e, next, k - 1);
      Alternate(c, p, aligned);
    }
  }

  lemma {:induction false} Alternate(c: string, p: nat, aligned: bool)
    requires p < |c|
    ensures !aligned ==> !EscapeAt(c, p, aligned)
  {
  }

  /**
   * How many bytes the second pass writes from position i on: up to the end e of the literal, or up to an escape that
   * it refuses.
   */
  function Written(c: string, i: nat, e: nat): nat
    requires e < |c|
    decreases if i < e then e - i else 0
  {
    if i >= e then 0
    else if c[i] != '\\' then 1 + Written(c, i + 1, e)
    else if c[i + 1] == 'u' then
      var literal := Utf16Literal(c, i, e);
      if literal.None? then 0 else |literal.value.0| + Written(c, i + literal.value.1, e)
    else if Simple(c[i + 1]).None? then 0
    else 1 + Written(c, i + 2, e)
  }

  lemma {:induction false} WrittenIsText(c: string, i: nat, e: nat)
    requires e < |c|
    ensures Unescape(c, i, e).Some? ==> |Unescape(c, i, e).value| == Written(c, i, e)
    decreases if i < e then e - i else 0
  {
    hide Utf16Literal, Simple;
    if i < e {
      if c[i] != '\\' {
        WrittenIsText(c, i + 1, e);
      } else if c[i + 1] == 'u' {
        var literal := Utf16Literal(c, i, e);
        if literal.Some? { WrittenIsText(c, i + literal.value.1, e); }
      } else {
        WrittenIsText(c, i + 2, e);
      }
    }
  }

  /** What the second pass writes is never more than the first pass allowed, even where they disagree on escapes. */
  lemma {:induction false} WrittenFits(c: string, p: nat, e: nat, aligned: bool)
    requires p <= e < |c| && LeadsTo(c, p, e, aligned)
    ensures Written(c, p, e) <= Allowance(c, p, e, aligned)
    decreases e - p
  {
    hide Allowance, LeadsTo, Utf16Literal, Simple;
    AllowanceCounts(c, p, e, aligned);
    if p == e {
      AtEnd(c, e, aligned);
    } else if c[p] != '\\' {
      OneOn(c, p, e, aligned);
      PlainCounts(c, p, aligned);
      WrittenFits(c, p + 1, e, true);
    } else if c[p + 1] == 'u' {
      LiteralSize(c, p, e);
      var literal := Utf16Literal(c, p, e);
      if literal.Some? {
        var k := literal.value.1;
        var aligned' := SomeOn(c, p, e, aligned, k);
        WrittenFits(c, p + k, e, aligned');
      }
    } else {
      SimpleFits(c, p, e, aligned);
    }
  }

  lemma {:induction false} AllowanceCounts(c: string, p: nat, e: nat, aligned: bool)
    requires p <= e <= |c|
    ensures Allowance(c, p, e, aligned) >= 0
    decreases e - p
  {
    if p < e { AllowanceCounts(c, p + 1, e, !EscapeAt(c, p, aligned)); }
  }

  lemma {:induction false} PlainCounts(c: string, p: nat, aligned: bool)
    requires p < |c| && c[p] != '\\'
    ensures !EscapeAt(c, p, aligned)
  {
  }

  lemma {:induction false} AtEnd(c: string, e: nat, aligned: bool)
    requires e < |c| && LeadsTo(c, e, e, aligned)
    ensures Allowance(c, e, e, aligned) == 0
  {
  }

  lemma {:induction false} LiteralSize(c: string, p: nat, e: nat)
    requires p <= e < |c|
    ensures var r := Utf16Literal(c, p, e);
            r.Some? ==> p + r.value.1 <= e && 2 * |r.value.0| <= r.value.1 && r.value.1 % 2 == 0 && r.value.1 > 0
  {
    hide ParseHex4, Utf8;
  }

  lemma {:induction false} SimpleFits(c: string, p: nat, e: nat, aligned: bool)
    requires p < e < |c| && LeadsTo(c, p, e, aligned) && c[p] == '\\' && c[p + 1] != 'u'
    ensures Written(c, p, e) <= Allowance(c, p, e, aligned)
    decreases e - p, 0
  {
    hide Allowance, LeadsTo, Simple;
    AllowanceCounts(c, p, e, aligned);
    OneOn(c, p, e, aligned);
    var next := !EscapeAt(c, p, aligned);
    if p + 1 < e {
      OneOn(c, p + 1, e, next);
      WrittenFits(c, p + 2, e, !EscapeAt(c, p + 1, next));
    } else {
      AtEnd(c, e, next);
      MisalignedEnd(c, e, next);
    }
  }

  lemma {:induction false} MisalignedEnd(c: string, e: nat, aligned: bool)
    requires e < |c| && LeadsTo(c, e, e, aligned)
    ensures aligned && Written(c, e + 1, e) == 0
  {
  }

  lemma {:induction false} CountsEscapes(c: string, i: nat, e: nat)
    requires i <= e < |c| && LiteralEnd(c, i) == Some(e)
    ensures Skipped(c, i) == EscapesFrom(c, i, e, true)
    decreases e - i
  {
    if i < e {
      if c[i] != '\\' { CountsEscapes(c, i + 1, e); } else { CountsEscapes(c, i + 2, e); }
    }
  }

  /** The size that parse_string allocates for the literal at o, before the terminator. */
  function AllocationLength(c: string, o: nat): (n: int)
    requires o < |c| && LiteralEnd(c, o + 1).Some?
  {
    LiteralEnd(c, o + 1).value - o - Skipped(c, o + 1)
  }

  /**
   * For every literal that has an end, also one that the second pass refuses halfway, the size that parse_string
   * allocates, the distance between the quotes less the escapes it skipped, is enough for what it then writes.
   */
  lemma {:induction false} EstimateSuffices(c: string, o: nat)
    requires o < |c| && c[o] == '"' && LiteralEnd(c, o + 1).Some?
    ensures Written(c, o + 1, LiteralEnd(c, o + 1).value) < AllocationLength(c, o)
    ensures ParseString(c, o).Some? ==> |ParseString(c, o).value.0| == Written(c, o + 1, LiteralEnd(c, o + 1).value)
  {
    hide Unescape, Written;
    var e := LiteralEnd(c, o + 1).value;
    CountsEscapes(c, o + 1, e);
    WrittenFits(c, o + 1, e, true);
    WrittenIsText(c, o + 1, e);
  }

  // ----- Text at a place in the input -----

  predicate Here(c: string, o: nat, t: string) { o + |t| <= |c| && c[o..o + |t|] == t }

  lemma {:induction false} HereSplit(c: string, o: nat, a: string, b: string)
    ensures Here(c, o, a + b) <==> Here(c, o, a) && Here(c, o + |a|, b)
  {
    if o + |a + b| <= |c| {
      assert c[o..o + |a| + |b|] == c[o..o + |a|] + c[o + |a|..o + |a| + |b|];
      if c[o..o + |a + b|] == a + b {
        assert c[o..o + |a|] == (a + b)[..|a|] && c[o + |a|..o + |a| + |b|] == (a + b)[|a|..];
      }
    }
  }

  lemma {:induction false} HereAt(c: string, o: nat, t: string, i: nat)
    requires Here(c, o, t) && i < |t|
    ensures c[o + i] == t[i]
  {
    assert c[o..o + |t|][i] == t[i];
  }

  /** The first pass goes through all of this text and stops at its end. */
  predicate Closed(t: string) {
    t == "" || (t[0] != '"' && if t[0] == '\\' then |t| >= 2 && Closed(t[2..]) else Closed(t[1..]))
  }

  lemma {:induction false} ClosedConcat(a: string, b: string)
    requires Closed(a) && Closed(b)
    ensures Closed(a + b)
    decreases |a|
  {
    if a == "" {
      assert a + b == b;
    } else if a[0] == '\\' {
      assert (a + b)[2..] == a[2..] + b;
      ClosedConcat(a[2..], b);
    } else {
      assert (a + b)[1..] == a[1..] + b;
      ClosedConcat(a[1..], b);
    }
  }

  lemma {:induction false} PassesOver(c: string, o: nat, t: string)
    requires Here(c, o, t) && Closed(t)
    ensures LiteralEnd(c, o) == LiteralEnd(c, o + |t|)
    decreases |t|
  {
    if t != "" {
      HereAt(c, o, t, 0);
      var k := if t[0] == '\\' then 2 else 1;
      assert t == t[..k] + t[k..];
      HereSplit(c, o, t[..k], t[k..]);
      PassesOver(c, o + k, t[k..]);
    }
  }

  // ----- Code units written as escapes -----

  const LOWER_DIGITS := "0123456789abcdef"
  const UPPER_DIGITS := "0123456789ABCDEF"

  function HexDigit(d: nat, upper: bool): char
    requires d < 16
  {
    if upper then UPPER_DIGITS[d] else LOWER_DIGITS[d]
  }

  lemma {:induction false} HexOfDigit(d: nat, upper: bool)
    requires d < 16
    ensures Hex(HexDigit(d, upper)) == Some(d) && HexDigit(d, upper) != '"' && HexDigit(d, upper) != '\\'
  {
  }

  /** Which of the four digits are in upper case. */
  type Cases = (bool, bool, bool, bool)

  /** A code unit of UTF-16 as an escape (RFC 8259, section 7). */
  function CodeUnit(n: nat, u: Cases): (s: string)
    requires n < 0x10000
    ensures |s| == 6
  {
    ['\\', 'u', HexDigit(n / 4096, u.0), HexDigit(n / 256 % 16, u.1), HexDigit(n / 16 % 16, u.2), HexDigit(n % 16, u.3)]
  }

  /** The form that the printer writes. */
  function Unit(n: nat): (s: string)
    requires n < 0x10000
    ensures |s| == 6
  {
    CodeUnit(n, (false, false, false, false))
  }

  lemma {:induction false} UnitDigits(n: nat, u: Cases)
    requires n < 0x10000
    ensures var s := CodeUnit(n, u);
            && Hex(s[2]) == Some(n / 4096) && Hex(s[3]) == Some(n / 256 % 16)
            && Hex(s[4]) == Some(n / 16 % 16) && Hex(s[5]) == Some(n % 16)
    ensures forall i :: 2 <= i < 6 ==> CodeUnit(n, u)[i] != '"' && CodeUnit(n, u)[i] != '\\'
  {
    hide Hex, HexDigit;
    HexOfDigit(n / 4096, u.0);
    HexOfDigit(n / 256 % 16, u.1);
    HexOfDigit(n / 16 % 16, u.2);
    HexOfDigit(n % 16, u.3);
  }

  lemma {:induction false} UnitReads(c: string, o: nat, n: nat, u: Cases)
    requires n < 0x10000 && Here(c, o, CodeUnit(n, u))
    ensures c[o] == '\\' && c[o + 1] == 'u' && ParseHex4(c, o + 2) == n
  {
    hide Hex, HexDigit;
    var s := CodeUnit(n, u);
    HereAt(c, o, s, 0);
    HereAt(c, o, s, 1);
    HereAt(c, o, s, 2);
    HereAt(c, o, s, 3);
    HereAt(c, o, s, 4);
    HereAt(c, o, s, 5);
    UnitDigits(n, u);
    FourDigits(n);
  }

  lemma {:induction false} FourDigits(n: nat)
    requires n < 0x10000
    ensures 4096 * (n / 4096) + 256 * (n / 256 % 16) + 16 * (n / 16 % 16) + n % 16 == n
  {
    var a := n / 16;
    var b := a / 16;
    assert b == n / 256 && b / 16 == n / 4096;
  }

  lemma {:induction false} UnitClosed(n: nat, u: Cases)
    requires n < 0x10000
    ensures Closed(CodeUnit(n, u))
  {
    hide HexDigit, Hex;
    var s := CodeUnit(n, u);
    UnitDigits(n, u);
    PlainClosed(s[2..]);
  }

  lemma {:induction false} PlainClosed(t: string)
    requires forall i :: 0 <= i < |t| ==> t[i] != '"' && t[i] != '\\'
    ensures Closed(t)
  {
    if t != "" { PlainClosed(t[1..]); }
  }

  lemma {:induction false} QuoteEnds(c: string, o: nat)
    requires o < |c| && c[o] == '"'
    ensures LiteralEnd(c, o) == Some(o)
  {
  }

  lemma {:induction false} QuotedParts(c: string, o: nat, t: string)
    requires Here(c, o, "\"" + t + "\"")
    ensures o + |t| + 1 < |c| && c[o] == '"' && Here(c, o + 1, t) && c[o + 1 + |t|] == '"'
  {
    HereSplit(c, o, "\"" + t, "\"");
    HereSplit(c, o, "\"", t);
    HereAt(c, o, "\"", 0);
    HereAt(c, o + 1 + |t|, "\"", 0);
  }

  // ----- The printed form -----

  /** print_string_ptr, one character */
  function EscapeChar(ch: char): string {
    if ch == '"' then "\\\""
    else if ch == '\\' then "\\\\"
    else if ch == '\U{0008}' then "\\b"
    else if ch == '\U{000C}' then "\\f"
    else if ch == '\n' then "\\n"
    else if ch == '\r' then "\\r"
    else if ch == '\t' then "\\t"
    else if ch < ' ' then Unit(ch as nat)
    else [ch]
  }

  function EscapeText(s: string): string {
    if s == "" then "" else EscapeChar(s[0]) + EscapeText(s[1..])
  }

  function PrintString(s: string): string { "\"" + EscapeText(s) + "\"" }

  lemma {:induction false} CharUnescapes(c: string, o: nat, e: nat, ch: char, rest: string)
    requires Here(c, o, EscapeChar(ch)) && o + |EscapeChar(ch)| <= e < |c|
    requires Unescape(c, o + |EscapeChar(ch)|, e) == Some(rest)
    ensures Unescape(c, o, e) == Some([ch] + rest)
    ensures Closed(EscapeChar(ch))
  {
    hide CodeUnit, ParseHex4;
    var t := EscapeChar(ch);
    HereAt(c, o, t, 0);
    if |t| == 2 {
      HereAt(c, o, t, 1);
      assert t[2..] == "";
    } else if |t| == 6 {
      UnitReads(c, o, ch as nat, (false, false, false, false));
      UnitClosed(ch as nat, (false, false, false, false));
    } else {
      assert t[1..] == "";
    }
  }

  lemma {:induction false} TextUnescapes(c: string, o: nat, e: nat, s: string)
    requires Here(c, o, EscapeText(s)) && e == o + |EscapeText(s)| < |c|
    ensures Unescape(c, o, e) == Some(s) && Closed(EscapeText(s))
    decreases |s|
  {
    hide EscapeChar, Unescape, Closed;
    if s == "" {
      NothingUnescapes(c, e);
    } else {
      HereSplit(c, o, EscapeChar(s[0]), EscapeText(s[1..]));
      TextUnescapes(c, o + |EscapeChar(s[0])|, e, s[1..]);
      CharUnescapes(c, o, e, s[0], s[1..]);
      ClosedConcat(EscapeChar(s[0]), EscapeText(s[1..]));
      assert s == [s[0]] + s[1..];
    }
  }

  lemma {:induction false} NothingUnescapes(c: string, e: nat)
    requires e < |c|
    ensures Unescape(c, e, e) == Some("") && Closed("")
  {
  }

  /** A printed string is read back as it was, whatever characters it has. */
  lemma {:induction false} StringRoundTrip(c: string, o: nat, s: string)
    requires Here(c, o, PrintString(s))
    ensures o < |c| && c[o] == '"' && ParseString(c, o) == Some((s, o + |PrintString(s)|))
  {
    hide Unescape, Closed, LiteralEnd, EscapeText, Here;
    QuotedParts(c, o, EscapeText(s));
    TextUnescapes(c, o + 1, o + 1 + |EscapeText(s)|, s);
    PassesOver(c, o + 1, EscapeText(s));
    QuoteEnds(c, o + 1 + |EscapeText(s)|);
  }
}

/** The character classes of the parser against lists of their characters. */
module HttpClasses {
  import opened HttpChars

  const UPPER: string := "ABCDEFGHIJKLMNOPQRSTUVWXYZ"
  const LOWER: string := "abcdefghijklmnopqrstuvwxyz"
  const HEX_LOWER: string := "0123456789abcdef"
  const HEX_UPPER: string := "0123456789ABCDEF"

  const DIGITS: set<char> := {'0', '1', '2', '3', '4', '5', '6', '7', '8', '9'}

  /** tchar of RFC 7230, section 3.2.6, apart from letters and digits */
  const TOKEN_MARKS: set<char> := {'!', '#', '$', '%', '&', '\'', '*', '+', '-', '.', '^', '_', '`', '|', '~'}

  /** Printable ASCII that may not stand inside a part of a URL. */
  const URL_DELIMITERS: set<char> := {'#', '?'}

  /** unreserved, pct-encoded and sub-delims of RFC 3986, section 2, and the colon, apart from letters and digits */
  const USERINFO_MARKS: set<char> :=
    {'-', '.', '_', '~', '%', '!', '$', '&', '\'', '(', ')', '*', '+', ',', ';', '=', ':'}

  predicate Letter(c: char) { 'A' <= c <= 'Z' || 'a' <= c <= 'z' }

  /** The small letter of a capital one. */
  lemma {:induction false} Lowering(k: nat)
    requires k < 26
    ensures var u: char, l: char := UPPER[k], LOWER[k];
            && u as int == 'A' as int + k && l as int == 'a' as int + k
            && Lower(u) == l == Lower(l) && Token(u) == l == Token(l)
  {
  }

  /** Which bytes are letters, token characters and so on. */
  lemma {:induction false} Classes(c: Octet)
    ensures IsAlpha(c) <==> Letter(c)
    ensures IsNum(c) <==> c in DIGITS
    ensures Token(c) != '\0' <==> Letter(c) || c in DIGITS || c in TOKEN_MARKS
    ensures IsUrlChar(c) <==> ' ' < c < '\U{007F}' && c !in URL_DELIMITERS
    ensures IsUserinfoChar(c) <==> Letter(c) || c in DIGITS || c in USERINFO_MARKS
    ensures IsHostChar(c) <==> Letter(c) || c in DIGITS || c in {'.', '-'}
    ensures IsHeaderChar(c) <==> c in {'\t', '\r', '\n'} || ' ' <= c < '\U{007F}' || '\U{0080}' <= c
  {
  }

  /** A token character stands for itself, but for capital letters. */
  lemma {:induction false} TokenItself(c: Octet)
    ensures Token(c) != '\0' && !('A' <= c <= 'Z') ==> Token(c) == c
  {
  }

  lemma {:induction false} HexDigits(k: nat)
    requires k < 16
    ensures Unhex(HEX_LOWER[k]) == k && Unhex(HEX_UPPER[k]) == k
    ensures IsHex(HEX_LOWER[k]) && IsHex(HEX_UPPER[k])
    ensures k < 10 ==> Digit(HEX_LOWER[k]) == k
  {
  }

  /** Only the hexadecimal digits have a value. */
  lemma {:induction false} NoHexDigit(c: Octet)
    ensures Unhex(c) >= 0 <==> c in HEX_LOWER || c in HEX_UPPER
    ensures IsHex(c) <==> Unhex(c) >= 0
  {
    if Unhex(c) >= 0 { assert HEX_LOWER[Unhex(c)] == c || HEX_UPPER[Unhex(c)] == c; }
    if c in HEX_LOWER {
      var k :| 0 <= k < 16 && HEX_LOWER[k] == c;
      HexDigits(k);
    } else if c in HEX_UPPER {
      var k :| 0 <= k < 16 && HEX_UPPER[k] == c;
      HexDigits(k);
    }
  }
}

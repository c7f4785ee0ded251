/** Character classes of http_parser.c, in its default strict mode. */
module HttpChars {

  type Octet = c: char | c <= '\U{00FF}'

  const CR: char := '\r'
  const LF: char := '\n'

  /** `(unsigned char)(c | 0x20)` */
  function Lower(c: Octet): Octet {
    if c as int / 32 % 2 == 1 then c else (c as int + 32) as char
  }

  predicate IsAlpha(c: Octet) { 'a' <= Lower(c) <= 'z' }

  predicate IsNum(c: Octet) { '0' <= c <= '9' }

  predicate IsAlphaNum(c: Octet) { IsAlpha(c) || IsNum(c) }

  predicate IsHex(c: Octet) { IsNum(c) || 'a' <= Lower(c) <= 'f' }

  predicate IsMark(c: Octet) {
    c == '-' || c == '_' || c == '.' || c == '!' || c == '~' || c == '*' || c == '\'' || c == '(' || c == ')'
  }

  predicate IsUserinfoChar(c: Octet) {
    IsAlphaNum(c) || IsMark(c) || c == '%' || c == ';' || c == ':' || c == '&' || c == '=' || c == '+' || c == '$' ||
    c == ','
  }

  predicate IsUrlChar(c: Octet) { '!' <= c <= '~' && c != '#' && c != '?' }

  predicate IsHostChar(c: Octet) { IsAlphaNum(c) || c == '.' || c == '-' }

  predicate IsHeaderChar(c: Octet) { c == CR || c == LF || c == '\t' || (c > '\U{001F}' && c != '\U{007F}') }

  /** The lower-case token character, or NUL for a character that may not stand in a token. */
  function Token(c: Octet): Octet {
    if IsAlpha(c) then Lower(c)
    else if IsNum(c) || c == '!' || '#' <= c <= '\'' || c == '*' || c == '+' || c == '-' || c == '.' ||
            '^' <= c <= '`' || c == '|' || c == '~' then c
    else '\0'
  }

  /** The value of a hexadecimal digit, or -1. */
  function Unhex(c: Octet): int {
    if IsNum(c) then c as int - '0' as int
    else if 'a' <= c <= 'f' then c as int - 'a' as int + 10
    else if 'A' <= c <= 'F' then c as int - 'A' as int + 10
    else -1
  }

  function Digit(c: Octet): nat
    requires IsNum(c)
  {
    c as int - '0' as int
  }
}

/** Which header names the parser takes for special ones, compared with equality of strings. */
module HttpNames {
  import opened HttpChars
  import opened HttpMachine
  import opened HttpScan

  /** The name as it is matched: lower-case, and NUL for what may not stand in a name. */
  function Lowered(name: seq<Octet>): (low: seq<Octet>)
    ensures |low| == |name| && forall i :: 0 <= i < |name| ==> low[i] == Token(name[i])
  {
    seq(|name|, i requires 0 <= i < |name| => Token(name[i]))
  }

  predicate Begins(low: seq<Octet>, word: seq<Octet>) { |low| < |word| && low == word[..|low|] }

  const CONNECTION: seq<Octet> := "connection"
  const PROXY_CONNECTION: seq<Octet> := "proxy-connection"
  const CONTENT_LENGTH: seq<Octet> := "content-length"
  const TRANSFER_ENCODING: seq<Octet> := "transfer-encoding"
  const UPGRADE: seq<Octet> := "upgrade"

  /** What a name, or the beginning of one, should be taken for. */
  function Recognised(low: seq<Octet>): HeaderState {
    if low == CONNECTION || low == PROXY_CONNECTION then Connection
    else if low == CONTENT_LENGTH then ContentLength
    else if low == TRANSFER_ENCODING then TransferEncoding
    else if low == UPGRADE then HeaderState.Upgrade
    else Partial(low)
  }

  function Partial(low: seq<Octet>): HeaderState {
    if Begins(low, CONNECTION) && |low| > 3 then MatchingConnection
    else if Begins(low, CONTENT_LENGTH) then
      if |low| <= 1 then C else if |low| == 2 then CO else if |low| == 3 then CON else MatchingContentLength
    else if Begins(low, PROXY_CONNECTION) then MatchingProxyConnection
    else if Begins(low, TRANSFER_ENCODING) then MatchingTransferEncoding
    else if Begins(low, UPGRADE) then MatchingUpgrade
    else General
  }

  /** A word goes on with t. */
  lemma {:induction false} BeginsMore(low: seq<Octet>, word: seq<Octet>, t: Octet)
    ensures Begins(low + [t], word) || low + [t] == word <==> Begins(low, word) && t == word[|low|]
    ensures low + [t] == word ==> |low| + 1 == |word|
  {
    var more := low + [t];
    if Begins(low, word) && t == word[|low|] {
      assert more == word[..|low|] + [word[|low|]] == word[..|more|];
    }
    if |more| <= |word| && more == word[..|more|] {
      assert low == more[..|low|] == word[..|low|] && t == more[|low|] == word[|low|];
    }
    assert word[..|word|] == word;
  }

  lemma {:induction false} FirstLetters(low: seq<Octet>)
    requires low != []
    ensures Begins(low, CONNECTION) || low == CONNECTION ==> low[0] == 'c'
    ensures Begins(low, PROXY_CONNECTION) || low == PROXY_CONNECTION ==> low[0] == 'p'
    ensures Begins(low, CONTENT_LENGTH) || low == CONTENT_LENGTH ==> low[0] == 'c'
    ensures Begins(low, TRANSFER_ENCODING) || low == TRANSFER_ENCODING ==> low[0] == 't'
    ensures Begins(low, UPGRADE) || low == UPGRADE ==> low[0] == 'u'
    ensures |low| > 3 && (Begins(low, CONNECTION) || low == CONNECTION) ==> low[3] == 'n'
    ensures |low| > 3 && (Begins(low, CONTENT_LENGTH) || low == CONTENT_LENGTH) ==> low[3] == 't'
    ensures |low| <= 3 ==> (Begins(low, CONNECTION) <==> Begins(low, CONTENT_LENGTH))
  {
    assert CONNECTION[..1] == CONTENT_LENGTH[..1] && CONNECTION[..2] == CONTENT_LENGTH[..2];
    assert CONNECTION[..3] == CONTENT_LENGTH[..3];
  }

  /** What the parser's comparison of one character gives. */
  lemma {:induction false} WordGoesOn(low: seq<Octet>, word: seq<Octet>, t: Octet, partial: HeaderState,
                                      complete: HeaderState)
    requires t != '\0' && Begins(low, word)
    ensures MatchWord(word, |low|, t, partial, complete, General)
            == if low + [t] == word then complete else if Begins(low + [t], word) then partial else General
  {
    hide Begins;
    BeginsMore(low, word, t);
    BeginsShorter(low, word);
    BeginsShorter(low + [t], word);
  }

  lemma {:induction false} BeginsShorter(low: seq<Octet>, word: seq<Octet>)
    ensures Begins(low, word) ==> |low| < |word|
  {
  }

  predicate Whole(low: seq<Octet>) {
    low == CONNECTION || low == PROXY_CONNECTION || low == CONTENT_LENGTH || low == TRANSFER_ENCODING || low == UPGRADE
  }

  /** No word begins with another. */
  lemma {:induction false} WholeWords(low: seq<Octet>)
    requires Whole(low)
    ensures !Begins(low, CONNECTION) && !Begins(low, PROXY_CONNECTION) && !Begins(low, CONTENT_LENGTH)
    ensures !Begins(low, TRANSFER_ENCODING) && !Begins(low, UPGRADE)
  {
    FirstLetters(low);
  }

  /** One more character: the parser's next state is what the longer name should be taken for. */
  lemma {:induction false} NameStep(low: seq<Octet>, c: Octet, t: Octet)
    requires low != [] && t != '\0' && c != ' '
    ensures NextNameState(Recognised(low), c, t, |low|) == Recognised(low + [t])
  {
    hide Begins, MatchWord;
    BeginsMore(low, CONNECTION, t);
    BeginsMore(low, PROXY_CONNECTION, t);
    BeginsMore(low, CONTENT_LENGTH, t);
    BeginsMore(low, TRANSFER_ENCODING, t);
    BeginsMore(low, UPGRADE, t);
    if Whole(low) {
      WholeWords(low);
    } else if |low| <= 3 && low[0] == 'c' {
      ShortStep(low, c, t);
    } else {
      FirstLetters(low);
      if Begins(low, CONNECTION) {
        WordGoesOn(low, CONNECTION, t, MatchingConnection, Connection);
      } else if Begins(low, PROXY_CONNECTION) {
        WordGoesOn(low, PROXY_CONNECTION, t, MatchingProxyConnection, Connection);
      } else if Begins(low, CONTENT_LENGTH) {
        WordGoesOn(low, CONTENT_LENGTH, t, MatchingContentLength, ContentLength);
      } else if Begins(low, TRANSFER_ENCODING) {
        WordGoesOn(low, TRANSFER_ENCODING, t, MatchingTransferEncoding, TransferEncoding);
      } else if Begins(low, UPGRADE) {
        WordGoesOn(low, UPGRADE, t, MatchingUpgrade, HeaderState.Upgrade);
      }
    }
  }

  /** The characters that `connection` and `content-length` share. */
  lemma {:induction false} ShortStep(low: seq<Octet>, c: Octet, t: Octet)
    requires 0 < |low| <= 3 && low[0] == 'c' && t != '\0' && c != ' '
    ensures NextNameState(Recognised(low), c, t, |low|) == Recognised(low + [t])
  {
    hide Begins;
    BeginsMore(low, CONNECTION, t);
    BeginsMore(low, CONTENT_LENGTH, t);
    FirstLetters(low);
    FirstLetters(low + [t]);
    assert (low + [t])[0] == low[0];
  }

  /** How the transfer encoding is noticed while a name is matched, and how far the index goes. */
  lemma {:induction false} NameKinds(low: seq<Octet>, t: Octet)
    requires low != []
    ensures NameState(Recognised(low)) && (NamePrefix(Recognised(low)) ==> |low| < 17)
    ensures Recognised(low).MatchingTransferEncoding? && Recognised(low + [t]).TransferEncoding?
            <==> low + [t] == TRANSFER_ENCODING
  {
    BeginsMore(low, TRANSFER_ENCODING, t);
    if low + [t] == TRANSFER_ENCODING { FirstLetters(low); }
  }

  /** The name has begun with `transfer-encoding`. */
  predicate NamesEncoding(low: seq<Octet>) { TRANSFER_ENCODING <= low }

  lemma {:induction false} NamesEncodingMore(low: seq<Octet>, t: Octet)
    ensures NamesEncoding(low + [t]) <==> NamesEncoding(low) || low + [t] == TRANSFER_ENCODING
  {
    var more := low + [t];
    if NamesEncoding(more) && |more| > |TRANSFER_ENCODING| {
      assert TRANSFER_ENCODING == more[..|TRANSFER_ENCODING|] == low[..|TRANSFER_ENCODING|];
    }
  }

  /** The parser in a header name of which these characters have been read. */
  function InName(p: Parser, low: seq<Octet>, index: nat): Parser {
    p.(state := Header(InField), headerState := Recognised(low), index := index,
       usesTransferEncoding := p.usesTransferEncoding || NamesEncoding(low))
  }

  lemma {:induction false} FirstOfName(s: Settings, p: Parser, c: Octet)
    requires p.errno == Ok && Token(c) != '\0'
    ensures OnHeaderFieldStart(s, p, c) == After(Mark(Field), Go(InName(p, [Token(c)], 0)))
  {
    hide OnHeadersAlmostDone;
    FirstLetters([Token(c)]);
    assert CONNECTION[..1] == ['c'] && PROXY_CONNECTION[..1] == ['p'] && TRANSFER_ENCODING[..1] == ['t'] &&
           UPGRADE[..1] == ['u'];
    assert CONTENT_LENGTH[..1] == ['c'];
    assert [Token(c)][..1] == [Token(c)];
  }

  /** The index is used only while the name may still become a special one. */
  predicate Indexed(low: seq<Octet>, index: nat) { NamePrefix(Recognised(low)) ==> index == |low| - 1 }

  lemma {:induction false} NextOfName(p: Parser, low: seq<Octet>, index: nat, c: Octet) returns (i: nat)
    requires low != [] && Token(c) != '\0' && Indexed(low, index)
    ensures FieldChar(InName(p, low, index), c, Token(c)) == InName(p, low + [Token(c)], i)
    ensures Indexed(low + [Token(c)], i)
  {
    hide Recognised, Token, NamesEncoding, NextNameState;
    var t := Token(c);
    NoSpace(c);
    NameKinds(low, t);
    NamesEncodingMore(low, t);
    NameStep(low, c, t);
    i := if NamePrefix(Recognised(low)) then Increment(index) else index;
    PrefixStays(Recognised(low), c, t, |low|);
    PrefixStays(Recognised(low), c, t, Increment(index));
  }

  lemma {:induction false} PrefixStays(h: HeaderState, c: Octet, t: Octet, i: nat)
    requires c != ' '
    ensures !NamePrefix(h) ==> NextNameState(h, c, t, i) == General
  {
    hide MatchWord;
  }

  /**
   * After a header name, the parser takes it for a special one exactly if it is one, ignoring case; but it notices a
   * transfer encoding already when the name begins with `transfer-encoding`.
   */
  lemma {:induction false} NameRecognised(s: Settings, p: Parser, data: seq<Octet>, a: nat, b: nat) returns (index: nat)
    requires a < b <= |data| && Tokens(data, a, b) && p.errno == Ok
    ensures var low := Lowered(data[a..b]);
            && FieldFold(OnHeaderFieldStart(s, p, data[a]).parser, data, a + 1, b) == InName(p, low, index)
            && Indexed(low, index)
    decreases b
  {
    hide Recognised, Token, NamesEncoding, OnHeaderFieldStart, FieldChar, Indexed;
    var low := Lowered(data[a..b]);
    FirstOfName(s, p, data[a]);
    if b == a + 1 {
      index := 0;
      assert low == [Token(data[a])];
      IndexedFirst(low);
    } else {
      var before := Lowered(data[a..b - 1]);
      var i := NameRecognised(s, p, data, a, b - 1);
      index := NextOfName(p, before, i, data[b - 1]);
      assert low == before + [Token(data[b - 1])];
    }
  }

  lemma {:induction false} IndexedFirst(low: seq<Octet>)
    requires |low| == 1
    ensures Indexed(low, 0)
  {
  }

  /**
   * What a whole name means to the parser: it is special exactly if it is one of the special names, ignoring case. A
   * transfer encoding is noticed a second way, which agrees exactly if the name does not go on after that one.
   */
  lemma {:induction false} NameMeaning(s: Settings, p: Parser, name: seq<Octet>)
    requires name != [] && Tokens(name, 0, |name|) && p.errno == Ok && !p.usesTransferEncoding
    ensures var q, low := FieldFold(OnHeaderFieldStart(s, p, name[0]).parser, name, 1, |name|), Lowered(name);
            && (q.headerState.Connection? <==> low == CONNECTION || low == PROXY_CONNECTION)
            && (q.headerState.ContentLength? <==> low == CONTENT_LENGTH)
            && (q.headerState.TransferEncoding? <==> low == TRANSFER_ENCODING)
            && (q.headerState.Upgrade? <==> low == UPGRADE)
            && ((q.usesTransferEncoding <==> q.headerState.TransferEncoding?) <==> !(TRANSFER_ENCODING < low))
  {
    hide OnHeaderFieldStart, FieldFold, Token;
    var index := NameRecognised(s, p, name, 0, |name|);
    assert name[0..|name|] == name;
  }

  /** A name that goes on: no special name, but the message is taken for one with a transfer encoding. */
  lemma {:induction false} EncodingCounterexample(s: Settings, p: Parser)
    requires p.errno == Ok && !p.usesTransferEncoding
    ensures exists name: seq<Octet> ::
              && name != [] && Tokens(name, 0, |name|)
              && var q := FieldFold(OnHeaderFieldStart(s, p, name[0]).parser, name, 1, |name|);
                 q.headerState == General && q.usesTransferEncoding
  {
    hide OnHeaderFieldStart, FieldFold, Token;
    var name := TRANSFER_ENCODING + ['s'];
    EncodingsTokens(name);
    var index := NameRecognised(s, p, name, 0, |name|);
    assert name[0..|name|] == name == Lowered(name);
    FirstLetters(name);
    assert name[0] == 't' && TRANSFER_ENCODING <= name;
  }

  lemma {:induction false} EncodingsTokens(name: seq<Octet>)
    requires name == TRANSFER_ENCODING + ['s']
    ensures Tokens(name, 0, |name|) && forall i :: 0 <= i < |name| ==> Token(name[i]) == name[i]
  {
    forall i | 0 <= i < |name|
      ensures 'a' <= name[i] <= 'z' || name[i] == '-'
    {
      if i < |TRANSFER_ENCODING| { assert name[i] == TRANSFER_ENCODING[i]; }
    }
  }

  lemma {:induction false} NoSpace(c: Octet)
    requires Token(c) != '\0'
    ensures c != ' ' && c != ':' && c != CR && c != LF && c != '\t'
  {
  }
}

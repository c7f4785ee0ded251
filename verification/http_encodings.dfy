/** When the parser takes the value of a Transfer-Encoding header, which is a list, for a chunked body. */
module HttpEncodings {
  import opened HttpChars
  import opened HttpMachine
  import opened HttpScan
  import opened HttpLists

  const CHUNKED: seq<Octet> := "chunked"

  /** What an element of the list is to the parser. */
  datatype Coding =
    | ChunkedCoding  // `chunked`, perhaps with spaces after it
    | BegunCoding    // only its beginning
    | OtherCoding    // something else that starts like a token
    | LostCoding     // blank, or something that cannot start a token

  function CodingOf(t: seq<Octet>): Coding {
    if t == [] then LostCoding
    else if t[0] == 'c' then
      if Spelled(t, CHUNKED) then ChunkedCoding else if t < CHUNKED then BegunCoding else OtherCoding
    else if Token(t[0]) != '\0' then OtherCoding
    else LostCoding
  }

  /** The state of the parser after an element of which t was seen. */
  function EncodingState(t: seq<Octet>): HeaderState {
    if t == [] then MatchingTransferEncodingTokenStart
    else
      match CodingOf(t)
      case ChunkedCoding => TransferEncodingChunked
      case BegunCoding => MatchingTransferEncodingChunked
      case OtherCoding => MatchingTransferEncodingToken
      case LostCoding => General
  }

  /** The last element is heard as `chunked`, if the first element is heard at all. */
  predicate LastChunked(es: seq<seq<Octet>>, swallowed: bool) {
    if es == [] then false
    else
      var c := CodingOf(Trimmed(es[0], |es[0]|));
      if |es| == 1 then !swallowed && c.ChunkedCoding?
      else if swallowed then LastChunked(es[1..], false)
      else !c.LostCoding? && LastChunked(es[1..], c.ChunkedCoding? || c.BegunCoding?)
  }

  // ----- One character -----

  lemma {:induction false} CodingStep(t: seq<Octet>, l: Octet, c: Octet)
    requires t != [] && t[0] == 'c' && Inside(c) && l == Lower(c)
    ensures EncodingState(t + [l]) == NextEncodingState(EncodingState(t), c, l, |t|)
  {
    hide Inside, Lower, Spelled;
    PlainLower(c);
    SpelledLong(t, CHUNKED);
    WordMore(t, CHUNKED, l);
    assert (t + [l])[0] == t[0];
  }

  lemma {:induction false} CodingFirst(l: Octet, c: Octet, i: nat)
    requires Inside(c) && l == Lower(c) && c != ' '
    ensures EncodingState([l]) == NextEncodingState(MatchingTransferEncodingTokenStart, c, l, i)
  {
    hide Inside, Token;
    PlainLower(c);
    assert [l][0] == l;
    SpaceIsNoToken();
    SpelledLong([l], CHUNKED);
    assert CHUNKED[..1] == ['c'];
  }

  predicate CodingFits(t: seq<Octet>, index: nat) {
    (t == [] ==> index == 0) && (t != [] && CodingOf(t).BegunCoding? ==> index == |t| - 1 < 7)
  }

  /** How the coding of an element can change with one more character. */
  lemma {:induction false} NextCoding(t: seq<Octet>, l: Octet)
    ensures t != [] && CodingOf(t + [l]).BegunCoding? ==> CodingOf(t).BegunCoding? && |t| < 7
    ensures t != [] && t[0] == 'c' ==> !CodingOf(t).LostCoding?
    ensures t != [] && t[0] != 'c' ==>
              CodingOf(t + [l]) == CodingOf(t) && (CodingOf(t).OtherCoding? || CodingOf(t).LostCoding?)
  {
    hide Spelled;
    if t != [] {
      assert (t + [l])[0] == t[0];
      WordMore(t, CHUNKED, l);
      SpelledLong(t + [l], CHUNKED);
      SpelledLong(t, CHUNKED);
    }
  }

  /** A character that belongs to an element. */
  lemma {:induction false} CodingChar(p: Parser, t: seq<Octet>, c: Octet) returns (i: nat)
    requires Accepting(p) && p.headerState == EncodingState(t) && CodingFits(t, p.index) && Inside(c)
    requires t == [] ==> c != ' '
    ensures ValueChar(p, c) == p.(headerState := EncodingState(t + [Lower(c)]), index := i)
    ensures CodingFits(t + [Lower(c)], i)
  {
    hide Lower, CodingOf, Token;
    var l := Lower(c);
    i := if t != [] && CodingOf(t).BegunCoding? then Increment(p.index) else p.index;
    NextCoding(t, l);
    if t == [] {
      CodingFirst(l, c, Increment(p.index));
      assert [] + [l] == [l];
    } else if t[0] == 'c' {
      CodingStep(t, l, c);
      CodingIndexIgnored(EncodingState(t), c, l, |t|, Increment(p.index));
    }
  }

  lemma {:induction false} CodingIndexIgnored(h: HeaderState, c: Octet, l: Octet, i: nat, j: nat)
    requires h.TransferEncodingChunked? || h.MatchingTransferEncodingToken? || i == j
    ensures NextEncodingState(h, c, l, i) == NextEncodingState(h, c, l, j)
  {
  }

  lemma {:induction false} CodingBlankStays(p: Parser)
    requires Accepting(p) && p.headerState == MatchingTransferEncodingTokenStart
    ensures ValueChar(p, ' ') == p
  {
    SpaceIsNoToken();
  }

  // ----- Whole elements -----

  lemma {:induction false} CodingFold(p: Parser, data: seq<Octet>, a: nat, e: seq<Octet>, n: nat) returns (i: nat)
    requires Accepting(p) && p.headerState == MatchingTransferEncodingTokenStart && p.index == 0
    requires Standing(data, a, e) && IsElement(e) && n <= |e|
    ensures ValueFold(p, data, a, a + n) == p.(headerState := EncodingState(Trimmed(e, n)), index := i)
    ensures CodingFits(Trimmed(e, n), i)
    decreases n
  {
    hide ValueChar, Lower, CodingOf;
    if n == 0 {
      i := 0;
      FoldNothing(p, data, a);
    } else {
      var t, c := Trimmed(e, n - 1), e[n - 1];
      i := CodingFold(p, data, a, e, n - 1);
      StandingAt(data, a, e, n - 1);
      FoldOne(p, data, a, a + n - 1);
      assert Inside(c);
      var q := p.(headerState := EncodingState(t), index := i);
      if t == [] && c == ' ' {
        CodingBlankStays(q);
      } else {
        i := CodingChar(q, t, c);
      }
    }
  }

  lemma {:induction false} UnheardFold(p: Parser, data: seq<Octet>, a: nat, e: seq<Octet>, n: nat)
    requires Accepting(p) && p.headerState == MatchingTransferEncodingToken && Standing(data, a, e) && IsElement(e)
    requires n <= |e|
    ensures ValueFold(p, data, a, a + n) == p
  {
    hide ValueChar;
    if n == 0 {
      FoldNothing(p, data, a);
    } else {
      UnheardFold(p, data, a, e, n - 1);
      StandingAt(data, a, e, n - 1);
      FoldOne(p, data, a, a + n - 1);
      assert Inside(e[n - 1]);
      CodingTokenStays(p, e[n - 1]);
    }
  }

  lemma {:induction false} CodingTokenStays(p: Parser, c: Octet)
    requires Accepting(p) && p.headerState == MatchingTransferEncodingToken && Inside(c)
    ensures ValueChar(p, c) == p
  {
    hide Lower;
  }

  /** A comma: only after an element that is no part of `chunked` does it separate. */
  lemma {:induction false} CodingComma(p: Parser, t: seq<Octet>) returns (i: nat)
    requires Accepting(p) && p.headerState == EncodingState(t)
    ensures ValueChar(p, ',')
            == match CodingOf(t)
               case ChunkedCoding | BegunCoding => p.(headerState := MatchingTransferEncodingToken, index := i)
               case OtherCoding => p.(headerState := MatchingTransferEncodingTokenStart, index := 0)
               case LostCoding => p.(headerState := General)
  {
    hide Spelled;
    CommaBreaks();
    i := ValueChar(p, ',').index;
  }

  lemma {:induction false} CommaAfterCoding(p: Parser)
    requires Accepting(p) && p.headerState == MatchingTransferEncodingToken
    ensures ValueChar(p, ',') == p.(headerState := MatchingTransferEncodingTokenStart, index := 0)
  {
    CommaBreaks();
  }

  // ----- The whole value -----

  function Chunking(f: Flags, yes: bool): Flags { f.(chunked := f.chunked || yes) }

  lemma {:induction false} CodingEnd(p: Parser, t: seq<Octet>)
    requires p.headerState == EncodingState(t)
    ensures FinishValue(p).flags == Chunking(p.flags, CodingOf(t).ChunkedCoding?)
  {
    hide Spelled;
  }

  lemma {:induction false} UnheardEnd(p: Parser)
    requires p.headerState == MatchingTransferEncodingToken || p.headerState == General
    ensures FinishValue(p).flags == Chunking(p.flags, false)
  {
  }

  /** The value of a Transfer-Encoding header that was read up to a, of which es is left. */
  predicate Decoding(p: Parser, data: seq<Octet>, a: nat, es: seq<seq<Octet>>, swallowed: bool) {
    && Accepting(p) && es != [] && AreElements(es) && Standing(data, a, Join(es)) && a + |Join(es)| == |data|
    && if swallowed then p.headerState == MatchingTransferEncodingToken
       else p.headerState == MatchingTransferEncodingTokenStart && p.index == 0
  }

  /** After an element that is swallowed, and the comma. */
  lemma {:induction false} UnheardElement(p: Parser, data: seq<Octet>, a: nat, es: seq<seq<Octet>>)
    requires Decoding(p, data, a, es, true) && |es| > 1
    ensures var b := a + |es[0]| + 1;
            && b + |Join(es[1..])| == |data|
            && var r := ValueFold(p, data, a, b); Decoding(r, data, b, es[1..], false) && r.flags == p.flags
  {
    hide ValueFold, ValueChar, Standing, Join, IsElement, AreElements;
    JoinParts(data, a, es);
    UnheardFold(p, data, a, es[0], |es[0]|);
    FoldOne(p, data, a, a + |es[0]|);
    CommaAfterCoding(p);
  }

  /** After an element that is listened to, and the comma. */
  lemma {:induction false} CodingRead(p: Parser, data: seq<Octet>, a: nat, es: seq<seq<Octet>>)
    requires Decoding(p, data, a, es, false) && |es| > 1
    ensures var b := a + |es[0]| + 1;
            && b + |Join(es[1..])| == |data|
            && var r, c := ValueFold(p, data, a, b), CodingOf(Trimmed(es[0], |es[0]|));
            && r.flags == p.flags
            && if c.LostCoding? then Accepting(r) && r.headerState == General
               else Decoding(r, data, b, es[1..], c.ChunkedCoding? || c.BegunCoding?)
  {
    hide ValueFold, ValueChar, CodingOf, Standing, Join, IsElement, AreElements, Trimmed, EncodingState;
    var e := es[0];
    var t := Trimmed(e, |e|);
    JoinParts(data, a, es);
    var i := CodingFold(p, data, a, e, |e|);
    FoldOne(p, data, a, a + |e|);
    var j := CodingComma(p.(headerState := EncodingState(t), index := i), t);
  }

  lemma {:induction false} LastCoding(p: Parser, data: seq<Octet>, a: nat, es: seq<seq<Octet>>, swallowed: bool)
    requires Decoding(p, data, a, es, swallowed) && |es| == 1
    ensures FinishValue(ValueFold(p, data, a, |data|)).flags == Chunking(p.flags, LastChunked(es, swallowed))
  {
    hide ValueFold, ValueChar, FinishValue, CodingOf, Standing, Join, IsElement, AreElements, Trimmed, EncodingState;
    var e := es[0];
    JoinParts(data, a, es);
    if swallowed {
      UnheardFold(p, data, a, e, |e|);
      UnheardEnd(p);
    } else {
      var t := Trimmed(e, |e|);
      var i := CodingFold(p, data, a, e, |e|);
      CodingEnd(p.(headerState := EncodingState(t), index := i), t);
    }
  }

  lemma {:induction false} CodingsRead(p: Parser, data: seq<Octet>, a: nat, es: seq<seq<Octet>>, swallowed: bool)
    requires Decoding(p, data, a, es, swallowed)
    ensures FinishValue(ValueFold(p, data, a, |data|)).flags == Chunking(p.flags, LastChunked(es, swallowed))
    decreases |es|
  {
    hide ValueFold, ValueChar, FinishValue, CodingOf, Standing, Join, IsElement, AreElements, Trimmed;
    if |es| == 1 {
      LastCoding(p, data, a, es, swallowed);
    } else {
      var b, c := a + |es[0]| + 1, CodingOf(Trimmed(es[0], |es[0]|));
      JoinParts(data, a, es);
      var r := ValueFold(p, data, a, b);
      FoldSplit(p, data, a, b, |data|);
      if swallowed {
        UnheardElement(p, data, a, es);
        CodingsRead(r, data, b, es[1..], false);
      } else {
        CodingRead(p, data, a, es);
        if c.LostCoding? {
          JoinBytes(data, b, es[1..]);
          PlainFold(r, data, b, |data|);
          UnheardEnd(r);
        } else {
          CodingsRead(r, data, b, es[1..], c.ChunkedCoding? || c.BegunCoding?);
        }
      }
    }
  }

  /**
   * The first element is taken for a token whatever it starts with, and a comma at the very beginning separates
   * nothing.
   */
  predicate ChunkedValue(es: seq<seq<Octet>>)
    requires es != []
  {
    if es[0] == [] then LastChunked(es[1..], true)
    else if CodingOf(Trimmed(es[0], |es[0]|)).LostCoding? then LastChunked(es[1..], false)
    else LastChunked(es, false)
  }

  lemma {:induction false} CodingBegins(p: Parser, c: Octet)
    requires Accepting(p) && p.headerState == MatchingTransferEncodingTokenStart && p.index == 0 && Inside(c)
    requires c != ' '
    requires !CodingOf([Lower(c)]).LostCoding?
    ensures ValueChar(p, c) == p.(headerState := FirstValueState(TransferEncoding, Lower(c)))
  {
    hide Spelled, Inside, Lower;
    var l := Lower(c);
    PlainLower(c);
    CodingFirst(l, c, 1);
    InsideHeader();
    SpaceIsNoToken();
    assert [l][0] == l && CHUNKED[..1] == ['c'];
    SpelledLong([l], CHUNKED);
  }

  lemma {:induction false} OtherCodingBegins(c: Octet)
    requires (Inside(c) && CodingOf([Lower(c)]).LostCoding?) || c == ','
    ensures FirstValueState(TransferEncoding, Lower(c)) == MatchingTransferEncodingToken
  {
    hide Spelled;
    assert [Lower(c)][0] == Lower(c);
  }

  lemma {:induction false} LostFirstCoding(t: seq<Octet>)
    requires t != []
    ensures CodingOf(t).LostCoding? <==> CodingOf([t[0]]).LostCoding?
  {
    hide Spelled;
  }

  lemma {:induction false} CodingsStart(p: Parser, c: Octet)
    requires p.headerState == TransferEncoding
    ensures OnHeaderValueStart(p, c).parser
            == p.(state := Header(InValue), index := 0, headerState := FirstValueState(TransferEncoding, Lower(c)))
  {
    hide FirstValueState;
  }

  /**
   * A Transfer-Encoding header whose value, which starts with no blank, is a list: the message is afterwards taken for
   * a chunked one exactly if the last element is heard as `chunked`.
   */
  lemma {:induction false} EncodingHeard(p: Parser, es: seq<seq<Octet>>)
    requires Accepting(p) && p.headerState == TransferEncoding && es != [] && AreElements(es)
    requires var v := Join(es); v != [] && v[0] != ' '
    ensures var v := Join(es);
            FinishValue(ValueFold(OnHeaderValueStart(p, v[0]).parser, v, 1, |v|)).flags
            == Chunking(p.flags, ChunkedValue(es))
  {
    hide CodingOf, FinishValue, ValueFold, ValueChar, Inside, FirstValueState, Lower;
    var v := Join(es);
    var c := v[0];
    assert v[0..|v|] == v;
    var q := OnHeaderValueStart(p, c).parser;
    CodingsStart(p, c);
    AreRest(es);
    if es[0] == [] {
      CommaFirst(es);
      OtherCodingBegins(c);
      assert v[1..|v|] == Join(es[1..]);
      CodingsRead(q, v, 1, es[1..], true);
    } else {
      assert c == es[0][0];
      TrimmedFirst(es[0], |es[0]|);
      LostFirstCoding(Trimmed(es[0], |es[0]|));
      if CodingOf([Lower(c)]).LostCoding? {
        OtherCodingBegins(c);
        JoinRest(es);
        var less := [es[0][1..]] + es[1..];
        assert v[1..|v|] == Join(less);
        CodingsRead(q, v, 1, less, true);
      } else {
        var q0 := q.(headerState := MatchingTransferEncodingTokenStart);
        CodingBegins(q0, c);
        FoldNothing(q0, v, 0);
        FoldOne(q0, v, 0, 0);
        FoldSplit(q0, v, 0, 1, |v|);
        CodingsRead(q0, v, 0, es, false);
      }
    }
  }

  // ----- When everything is heard -----

  function CodingMeaning(e: seq<Octet>): Coding { CodingOf(Trimmed(e, |e|)) }

  /** With `chunked` applied last and only once, as section 3.3.1 of RFC 7230 asks, it is heard. */
  lemma {:induction false} PlainEncodingHeard(es: seq<seq<Octet>>)
    requires es != [] && forall i :: 0 <= i < |es| - 1 ==> CodingMeaning(es[i]).OtherCoding?
    ensures LastChunked(es, false) <==> CodingMeaning(es[|es| - 1]).ChunkedCoding?
  {
    hide CodingOf, Trimmed;
    if |es| > 1 {
      var rest := es[1..];
      forall i | 0 <= i < |rest| - 1
        ensures CodingMeaning(rest[i]).OtherCoding?
      {
        assert rest[i] == es[i + 1];
      }
      assert CodingMeaning(es[0]).OtherCoding?;
      PlainEncodingHeard(rest);
    }
  }

  /** `chunked` after an element that only begins it is not heard. */
  lemma {:induction false} ChunkCounterexample()
    ensures var es: seq<seq<Octet>> := ["chunk", "chunked"];
            AreElements(es) && CodingMeaning(es[1]).ChunkedCoding? && !ChunkedValue(es)
  {
    hide Trimmed;
    var es: seq<seq<Octet>> := ["chunk", "chunked"];
    TrimmedWord(es[0], |es[0]|);
    TrimmedWord(es[1], |es[1]|);
    assert es[0][..|es[0]|] == es[0] && es[1][..|es[1]|] == es[1];
    assert es[1..] == ["chunked"];
  }
}

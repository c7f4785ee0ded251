/** Which connection options and transfer encodings the parser hears in a header value that is a list. */
module HttpLists {
  import opened HttpChars
  import opened HttpMachine
  import opened HttpScan

  // ----- Lists -----

  /** A byte of a value that the parser accepts, and that does not end an element. */
  predicate Inside(c: Octet) { IsHeaderChar(c) && c != CR && c != LF && c != ',' }

  predicate IsElement(e: seq<Octet>) { forall i :: 0 <= i < |e| ==> Inside(e[i]) }

  predicate AreElements(es: seq<seq<Octet>>) { forall i :: 0 <= i < |es| ==> IsElement(es[i]) }

  /** The elements with commas between them. */
  function Join(es: seq<seq<Octet>>): seq<Octet> {
    if es == [] then [] else if |es| == 1 then es[0] else es[0] + [','] + Join(es[1..])
  }

  /** The characters that are compared: without blanks at the beginning, in lower case. */
  function Trimmed(e: seq<Octet>, n: nat): seq<Octet>
    requires n <= |e|
  {
    if n == 0 then []
    else
      var t := Trimmed(e, n - 1);
      if t == [] && e[n - 1] == ' ' then [] else t + [Lower(e[n - 1])]
  }

  // ----- Connection -----

  datatype Word = WordKeepAlive | WordClose | WordUpgrade

  function Spelling(w: Word): seq<Octet> {
    match w
    case WordKeepAlive => "keep-alive"
    case WordClose => "close"
    case WordUpgrade => "upgrade"
  }

  /** What an element of a Connection header is to the parser. */
  datatype Element =
    | Listed(word: Word)  // one of the words, perhaps with spaces after it
    | Begun               // only the beginning of a word
    | Other               // something else that starts like a token
    | Lost                // blank, or something that cannot start a token

  predicate Blanks(t: seq<Octet>) { forall i :: 0 <= i < |t| ==> t[i] == ' ' }

  /** The word that the first letter announces. */
  function Announced(l: Octet): (w: Word)
    requires l == 'k' || l == 'c' || l == 'u'
    ensures Spelling(w)[0] == l
  {
    if l == 'k' then WordKeepAlive else if l == 'c' then WordClose else WordUpgrade
  }

  predicate Announces(t: seq<Octet>) { t != [] && (t[0] == 'k' || t[0] == 'c' || t[0] == 'u') }

  predicate Spelled(t: seq<Octet>, s: seq<Octet>) { s <= t && Blanks(t[|s|..]) }

  /** t, without blanks at its beginning, as an element. */
  function Class(t: seq<Octet>): Element {
    if t == [] then Lost
    else if Announces(t) then
      var w := Announced(t[0]);
      var s := Spelling(w);
      if Spelled(t, s) then Listed(w) else if t < s then Begun else Other
    else if Token(t[0]) != '\0' then Other
    else Lost
  }

  /** The state of the parser after an element of which t was seen. */
  function StateAfter(t: seq<Octet>): HeaderState {
    if t == [] then MatchingConnectionTokenStart
    else
      match Class(t)
      case Listed(WordKeepAlive) => ConnectionKeepAlive
      case Listed(WordClose) => ConnectionClose
      case Listed(WordUpgrade) => ConnectionUpgrade
      case Begun => Matching(Announced(t[0]))
      case Other => MatchingConnectionToken
      case Lost => General
  }

  function Matching(w: Word): HeaderState {
    match w
    case WordKeepAlive => MatchingConnectionKeepAlive
    case WordClose => MatchingConnectionClose
    case WordUpgrade => MatchingConnectionUpgrade
  }

  /** The word is heard in the list, if the first element is heard at all. */
  predicate Heard(es: seq<seq<Octet>>, swallowed: bool, w: Word) {
    if es == [] then false
    else if swallowed then Heard(es[1..], false, w)
    else
      match Class(Trimmed(es[0], |es[0]|))
      case Listed(u) => u == w || Heard(es[1..], false, w)
      case Begun => Heard(es[1..], true, w)
      case Other => Heard(es[1..], false, w)
      case Lost => false
  }

  // ----- One character -----

  lemma {:induction false} PlainLower(c: Octet)
    requires Inside(c)
    ensures Lower(c) == ' ' <==> c == ' '
    ensures Lower(c) != '\0' && c != ','
  {
  }

  /** How the parts of a word relate to it, one character further. */
  lemma {:induction false} WordMore(t: seq<Octet>, s: seq<Octet>, l: Octet)
    requires s != []
    ensures t + [l] < s <==> t < s && l == s[|t|] && |t| + 1 < |s|
    ensures Spelled(t + [l], s) <==> (t < s && l == s[|t|] && |t| + 1 == |s|) || (Spelled(t, s) && l == ' ')
  {
    var more := t + [l];
    if |more| <= |s| {
      assert s[..|more|] == s[..|t|] + [s[|t|]];
      assert more == s[..|more|] <==> t == s[..|t|] && l == s[|t|];
    }
    if |t| >= |s| {
      assert more[|s|..] == t[|s|..] + [l] && more[..|s|] == t[..|s|];
      assert Blanks(more[|s|..]) <==> Blanks(t[|s|..]) && l == ' ' by { BlanksMore(t[|s|..], l); }
    } else if |more| == |s| {
      assert more[|s|..] == [];
    }
  }

  lemma {:induction false} BlanksMore(t: seq<Octet>, l: Octet)
    ensures Blanks(t + [l]) <==> Blanks(t) && l == ' '
  {
    var more := t + [l];
    if Blanks(more) {
      assert more[|t|] == ' ';
      forall i | 0 <= i < |t|
        ensures t[i] == ' '
      {
        assert more[i] == ' ';
      }
    }
  }

  lemma {:induction false} SpelledLong(t: seq<Octet>, s: seq<Octet>)
    ensures Spelled(t, s) ==> |s| <= |t| && !(t < s)
  {
  }

  /** A word and the next character. */
  lemma {:induction false} WordStep(t: seq<Octet>, l: Octet, c: Octet)
    requires Announces(t) && Inside(c) && l == Lower(c)
    ensures StateAfter(t + [l]) == NextConnectionState(StateAfter(t), c, l, |t|)
  {
    hide Inside, Lower, Spelled;
    PlainLower(c);
    SpelledLong(t, Spelling(Announced(t[0])));
    WordMore(t, Spelling(Announced(t[0])), l);
    assert (t + [l])[0] == t[0];
  }

  /** The first character of an element that is no blank. */
  lemma {:induction false} FirstStep(l: Octet, c: Octet, i: nat)
    requires Inside(c) && l == Lower(c) && c != ' '
    ensures StateAfter([l]) == NextConnectionState(MatchingConnectionTokenStart, c, l, i)
  {
    hide Inside, Token;
    PlainLower(c);
    assert [l][0] == l;
    SpaceIsNoToken();
    if Announces([l]) {
      var s := Spelling(Announced(l));
      SpelledLong([l], s);
      assert s[..1] == [l];
    }
  }

  lemma {:induction false} SpaceIsNoToken()
    ensures Token(' ') == '\0'
    ensures forall c: Octet :: Lower(c) != '\t'
  {
  }

  /** The index counts the characters of the word that is being matched. */
  predicate IndexFits(t: seq<Octet>, index: nat) {
    (t == [] ==> index == 0) && (t != [] && Class(t).Begun? ==> index == |t| - 1)
  }

  lemma {:induction false} BegunShort(t: seq<Octet>)
    requires t != [] && Class(t).Begun?
    ensures Announces(t) && |t| < 10
  {
    hide Spelled;
  }

  predicate Accepting(p: Parser) { p.errno == Ok && !p.lenient }

  /** A character that belongs to an element. */
  lemma {:induction false} ElementChar(p: Parser, t: seq<Octet>, c: Octet) returns (i: nat)
    requires Accepting(p) && p.headerState == StateAfter(t) && IndexFits(t, p.index) && Inside(c)
    requires t == [] ==> c != ' '
    ensures ValueChar(p, c) == p.(headerState := StateAfter(t + [Lower(c)]), index := i) && IndexFits(t + [Lower(c)], i)
  {
    hide Lower, Class, Token, Announces;
    var l := Lower(c);
    i := if t != [] && Class(t).Begun? then Increment(p.index) else p.index;
    NextClass(t, l);
    if t == [] {
      FirstStep(l, c, Increment(p.index));
      assert [] + [l] == [l];
    } else if Announces(t) {
      if Class(t).Begun? { BegunShort(t); }
      WordStep(t, l, c);
      IndexIgnored(StateAfter(t), c, l, |t|, Increment(p.index));
    }
  }

  lemma {:induction false} IndexIgnored(h: HeaderState, c: Octet, l: Octet, i: nat, j: nat)
    requires h.ConnectionKeepAlive? || h.ConnectionClose? || h.ConnectionUpgrade? || h.MatchingConnectionToken? ||
             i == j
    ensures NextConnectionState(h, c, l, i) == NextConnectionState(h, c, l, j)
  {
  }

  /** How the class of an element can change with one more character. */
  lemma {:induction false} NextClass(t: seq<Octet>, l: Octet)
    ensures t != [] && Class(t + [l]).Begun? ==> Class(t).Begun?
    ensures Announces(t) ==> !Class(t).Lost?
    ensures t != [] && !Announces(t) ==> Class(t + [l]) == Class(t) && (Class(t).Other? || Class(t).Lost?)
    ensures Class([l]).Begun? ==> Announces([l])
  {
    hide Spelled;
    if t != [] {
      assert (t + [l])[0] == t[0];
      if Announces(t) {
        var s := Spelling(Announced(t[0]));
        WordMore(t, s, l);
        SpelledLong(t + [l], s);
        SpelledLong(t, s);
      }
    }
  }

  // ----- Whole elements -----

  predicate Standing(data: seq<Octet>, a: nat, e: seq<Octet>) { a + |e| <= |data| && data[a..a + |e|] == e }

  lemma {:induction false} StandingAt(data: seq<Octet>, a: nat, e: seq<Octet>, i: nat)
    requires Standing(data, a, e) && i < |e|
    ensures data[a + i] == e[i]
  {
    assert data[a..a + |e|][i] == e[i];
  }

  /** The first n characters of an element that is heard. */
  lemma {:induction false} ElementFold(p: Parser, data: seq<Octet>, a: nat, e: seq<Octet>, n: nat) returns (i: nat)
    requires Accepting(p) && p.headerState == MatchingConnectionTokenStart && p.index == 0
    requires Standing(data, a, e) && IsElement(e) && n <= |e|
    ensures ValueFold(p, data, a, a + n) == p.(headerState := StateAfter(Trimmed(e, n)), index := i)
    ensures IndexFits(Trimmed(e, n), i)
    decreases n
  {
    hide ValueChar, Lower, Class;
    if n == 0 {
      i := 0;
      FoldNothing(p, data, a);
    } else {
      var t, c := Trimmed(e, n - 1), e[n - 1];
      i := ElementFold(p, data, a, e, n - 1);
      StandingAt(data, a, e, n - 1);
      FoldOne(p, data, a, a + n - 1);
      assert Inside(c);
      var q := p.(headerState := StateAfter(t), index := i);
      if t == [] && c == ' ' {
        BlankStays(q);
      } else {
        i := ElementChar(q, t, c);
      }
    }
  }

  lemma {:induction false} BlankStays(p: Parser)
    requires Accepting(p) && p.headerState == MatchingConnectionTokenStart
    ensures ValueChar(p, ' ') == p
  {
    SpaceIsNoToken();
  }

  /** An element that is not heard. */
  lemma {:induction false} SwallowFold(p: Parser, data: seq<Octet>, a: nat, e: seq<Octet>, n: nat)
    requires Accepting(p) && p.headerState == MatchingConnectionToken && Standing(data, a, e) && IsElement(e)
    requires n <= |e|
    ensures ValueFold(p, data, a, a + n) == p
  {
    hide ValueChar;
    if n == 0 {
      FoldNothing(p, data, a);
    } else {
      SwallowFold(p, data, a, e, n - 1);
      StandingAt(data, a, e, n - 1);
      FoldOne(p, data, a, a + n - 1);
      assert Inside(e[n - 1]);
      TokenStays(p, e[n - 1]);
    }
  }

  lemma {:induction false} TokenStays(p: Parser, c: Octet)
    requires Accepting(p) && p.headerState == MatchingConnectionToken && Inside(c)
    ensures ValueChar(p, c) == p
  {
    hide Lower;
  }

  /** The flags when this word is heard. */
  function With(f: Flags, w: Word): Flags {
    match w
    case WordKeepAlive => f.(keepAlive := true)
    case WordClose => f.(close := true)
    case WordUpgrade => f.(connectionUpgrade := true)
  }

  /** A comma after an element that was heard. */
  lemma {:induction false} CommaStep(p: Parser, t: seq<Octet>)
    requires Accepting(p) && p.headerState == StateAfter(t)
    ensures ValueChar(p, ',')
            == match Class(t)
               case Listed(w) => p.(headerState := MatchingConnectionTokenStart, index := 0, flags := With(p.flags, w))
               case Begun => p.(headerState := MatchingConnectionToken, index := Increment(p.index))
               case Other => p.(headerState := MatchingConnectionTokenStart, index := 0)
               case Lost => p.(headerState := General)
  {
    hide Spelled;
    CommaBreaks();
  }

  lemma {:induction false} CommaBreaks()
    ensures Lower(',') == ',' && Token(',') == '\0' && IsHeaderChar(',')
    ensures forall w: Word, i: nat, h: HeaderState, k: HeaderState ::
              MatchWord(Spelling(w), i, ',', h, k, MatchingConnectionToken) == MatchingConnectionToken
  {
  }

  /** Reading on from b is reading the rest. */
  lemma {:induction false} FoldSplit(p: Parser, data: seq<Octet>, a: nat, b: nat, c: nat)
    requires a <= b <= c <= |data|
    ensures ValueFold(p, data, a, c) == ValueFold(ValueFold(p, data, a, b), data, b, c)
    decreases c
  {
    hide ValueChar;
    if b == c {
      FoldNothing(ValueFold(p, data, a, b), data, b);
    } else {
      FoldSplit(p, data, a, b, c - 1);
      FoldOne(p, data, a, c - 1);
      FoldOne(ValueFold(p, data, a, b), data, b, c - 1);
    }
  }

  /** The flags with those of the words that are heard. */
  function Hearing(f: Flags, es: seq<seq<Octet>>, swallowed: bool): Flags {
    f.(keepAlive := f.keepAlive || Heard(es, swallowed, WordKeepAlive),
       close := f.close || Heard(es, swallowed, WordClose),
       connectionUpgrade := f.connectionUpgrade || Heard(es, swallowed, WordUpgrade))
  }

  /** The value of a Connection header that was read up to a, of which es is left. */
  predicate Listening(p: Parser, data: seq<Octet>, a: nat, es: seq<seq<Octet>>, swallowed: bool) {
    && Accepting(p) && es != [] && AreElements(es) && Standing(data, a, Join(es)) && a + |Join(es)| == |data|
    && if swallowed then p.headerState == MatchingConnectionToken
       else p.headerState == MatchingConnectionTokenStart && p.index == 0
  }

  lemma {:induction false} JoinParts(data: seq<Octet>, a: nat, es: seq<seq<Octet>>)
    requires es != [] && AreElements(es) && Standing(data, a, Join(es))
    ensures Standing(data, a, es[0]) && IsElement(es[0]) && AreElements(es[1..])
    ensures |es| > 1 ==>
              && |Join(es)| == |es[0]| + 1 + |Join(es[1..])| && data[a + |es[0]|] == ','
              && Standing(data, a + |es[0]| + 1, Join(es[1..]))
    ensures |es| == 1 ==> Join(es) == es[0]
  {
    var k := |es[0]|;
    var j := Join(es);
    assert j[..k] == es[0];
    assert data[a..a + k] == data[a..a + |j|][..k];
    if |es| > 1 {
      assert data[a + k] == data[a..a + |j|][k] == j[k];
      assert data[a + k + 1..a + |j|] == data[a..a + |j|][k + 1..] == j[k + 1..] == Join(es[1..]);
    }
  }

  /** One element less. */
  lemma {:induction false} HeardMore(es: seq<seq<Octet>>, w: Word)
    requires es != []
    ensures Heard(es, true, w) == Heard(es[1..], false, w)
    ensures Heard(es, false, w)
            == match Class(Trimmed(es[0], |es[0]|))
               case Listed(u) => u == w || Heard(es[1..], false, w)
               case Begun => Heard(es[1..], true, w)
               case Other => Heard(es[1..], false, w)
               case Lost => false
    ensures !Heard([], false, w) && !Heard([], true, w)
  {
    hide Class, Trimmed;
  }

  lemma {:induction false} HearingSwallowed(f: Flags, es: seq<seq<Octet>>)
    requires es != []
    ensures Hearing(f, es, true) == Hearing(f, es[1..], false)
    ensures Hearing(f, [], false) == f && Hearing(f, [], true) == f
  {
    hide Heard;
    HeardMore(es, WordKeepAlive);
    HeardMore(es, WordClose);
    HeardMore(es, WordUpgrade);
  }

  lemma {:induction false} HearingListed(f: Flags, es: seq<seq<Octet>>, w: Word)
    requires es != [] && Class(Trimmed(es[0], |es[0]|)) == Listed(w)
    ensures Hearing(f, es, false) == Hearing(With(f, w), es[1..], false)
  {
    hide Class, Trimmed, Heard;
    HeardMore(es, WordKeepAlive);
    HeardMore(es, WordClose);
    HeardMore(es, WordUpgrade);
  }

  lemma {:induction false} HearingOthers(f: Flags, es: seq<seq<Octet>>)
    requires es != [] && !Class(Trimmed(es[0], |es[0]|)).Listed?
    ensures var c := Class(Trimmed(es[0], |es[0]|));
            Hearing(f, es, false) == if c.Lost? then f else Hearing(f, es[1..], c.Begun?)
  {
    hide Class, Trimmed, Heard;
    HeardMore(es, WordKeepAlive);
    HeardMore(es, WordClose);
    HeardMore(es, WordUpgrade);
  }

  /** The end of the value after the last element. */
  lemma {:induction false} EndFlags(p: Parser, e: seq<Octet>, t: seq<Octet>)
    requires p.headerState == StateAfter(t) && t == Trimmed(e, |e|)
    ensures FinishValue(p).flags == Hearing(p.flags, [e], false)
  {
    hide Class, Hearing, Trimmed, StateAfter, FinishValue;
    EndOf(p, t);
    HearingSwallowed(p.flags, [e]);
    assert [e][1..] == [];
    if Class(t).Listed? {
      HearingListed(p.flags, [e], Class(t).word);
      WithNothing(p.flags, Class(t).word);
    } else {
      HearingOthers(p.flags, [e]);
    }
  }

  lemma {:induction false} EndOf(p: Parser, t: seq<Octet>)
    requires p.headerState == StateAfter(t)
    ensures FinishValue(p).flags == if Class(t).Listed? then With(p.flags, Class(t).word) else p.flags
  {
    hide Spelled;
  }

  lemma {:induction false} WithNothing(f: Flags, w: Word)
    ensures Hearing(With(f, w), [], false) == With(f, w)
  {
  }

  lemma {:induction false} SwallowedEnd(p: Parser, e: seq<Octet>)
    requires p.headerState == MatchingConnectionToken
    ensures FinishValue(p).flags == Hearing(p.flags, [e], true)
  {
    hide Hearing;
    HearingSwallowed(p.flags, [e]);
    assert [e][1..] == [];
  }

  lemma {:induction false} CommaAfterToken(p: Parser)
    requires Accepting(p) && p.headerState == MatchingConnectionToken
    ensures ValueChar(p, ',') == p.(headerState := MatchingConnectionTokenStart, index := 0)
  {
    CommaBreaks();
  }

  lemma {:induction false} GeneralEnd(p: Parser)
    requires p.headerState == General
    ensures FinishValue(p).flags == p.flags
  {
  }

  /** Every byte of a list may stand in a value. */
  lemma {:induction false} JoinBytes(data: seq<Octet>, a: nat, es: seq<seq<Octet>>)
    requires es != [] && AreElements(es) && Standing(data, a, Join(es))
    ensures forall i :: a <= i < a + |Join(es)| ==> data[i] != CR && data[i] != LF && IsHeaderChar(data[i])
    decreases |es|
  {
    hide IsHeaderChar, Join, AreElements, Inside;
    var b := a + |es[0]|;
    JoinParts(data, a, es);
    if |es| > 1 { JoinBytes(data, b + 1, es[1..]); }
    InsideHeader();
    CommaBreaks();
    forall i | a <= i < a + |Join(es)|
      ensures data[i] != CR && data[i] != LF && IsHeaderChar(data[i])
    {
      if i < b {
        StandingAt(data, a, es[0], i - a);
        assert Inside(es[0][i - a]);
      }
    }
  }

  lemma {:induction false} InsideHeader()
    ensures forall c: Octet :: Inside(c) ==> c != CR && c != LF && IsHeaderChar(c)
  {
  }

  /** After an element that is swallowed, and the comma. */
  lemma {:induction false} SwallowedElement(p: Parser, data: seq<Octet>, a: nat, es: seq<seq<Octet>>)
    requires Listening(p, data, a, es, true) && |es| > 1
    ensures var b := a + |es[0]| + 1;
            && b + |Join(es[1..])| == |data|
            && var r := ValueFold(p, data, a, b);
            Listening(r, data, b, es[1..], false) && Hearing(p.flags, es, true) == Hearing(r.flags, es[1..], false)
  {
    hide ValueFold, ValueChar, Hearing, Standing, Join, IsElement, AreElements;
    JoinParts(data, a, es);
    SwallowFold(p, data, a, es[0], |es[0]|);
    FoldOne(p, data, a, a + |es[0]|);
    HearingSwallowed(p.flags, es);
    CommaAfterToken(p);
  }

  /** After an element that is listened to, and the comma. */
  lemma {:induction false} ElementHeard(p: Parser, data: seq<Octet>, a: nat, es: seq<seq<Octet>>)
    requires Listening(p, data, a, es, false) && |es| > 1
    ensures var b := a + |es[0]| + 1;
            && b + |Join(es[1..])| == |data|
            && var r, c := ValueFold(p, data, a, b), Class(Trimmed(es[0], |es[0]|));
            if c.Lost? then Accepting(r) && r.headerState == General && Hearing(p.flags, es, false) == r.flags
            else Listening(r, data, b, es[1..], c.Begun?) &&
                 Hearing(p.flags, es, false) == Hearing(r.flags, es[1..], c.Begun?)
  {
    hide ValueFold, ValueChar, Hearing, Class, Standing, Join, IsElement, AreElements, StateAfter;
    var e := es[0];
    var t := Trimmed(e, |e|);
    JoinParts(data, a, es);
    var i := ElementFold(p, data, a, e, |e|);
    var q := p.(headerState := StateAfter(t), index := i);
    FoldOne(p, data, a, a + |e|);
    CommaStep(q, t);
    if Class(t).Listed? { HearingListed(p.flags, es, Class(t).word); } else { HearingOthers(p.flags, es); }
  }

  lemma {:induction false} LastElement(p: Parser, data: seq<Octet>, a: nat, es: seq<seq<Octet>>, swallowed: bool)
    requires Listening(p, data, a, es, swallowed) && |es| == 1
    ensures FinishValue(ValueFold(p, data, a, |data|)).flags == Hearing(p.flags, es, swallowed)
  {
    hide ValueFold, ValueChar, FinishValue, Hearing, Class, Standing, Join, IsElement, AreElements, StateAfter;
    var e := es[0];
    assert es == [e];
    JoinParts(data, a, es);
    if swallowed {
      SwallowFold(p, data, a, e, |e|);
      SwallowedEnd(p, e);
    } else {
      var i := ElementFold(p, data, a, e, |e|);
      EndFlags(p.(headerState := StateAfter(Trimmed(e, |e|)), index := i), e, Trimmed(e, |e|));
    }
  }

  /** After the whole value the flags are those of the words that are heard. */
  lemma {:induction false} ListHeard(p: Parser, data: seq<Octet>, a: nat, es: seq<seq<Octet>>, swallowed: bool)
    requires Listening(p, data, a, es, swallowed)
    ensures FinishValue(ValueFold(p, data, a, |data|)).flags == Hearing(p.flags, es, swallowed)
    decreases |es|
  {
    hide ValueFold, ValueChar, FinishValue, Hearing, Class, Standing, Join, IsElement, AreElements, Trimmed;
    if |es| == 1 {
      LastElement(p, data, a, es, swallowed);
    } else {
      var b, c := a + |es[0]| + 1, Class(Trimmed(es[0], |es[0]|));
      JoinParts(data, a, es);
      var r := ValueFold(p, data, a, b);
      FoldSplit(p, data, a, b, |data|);
      if swallowed {
        SwallowedElement(p, data, a, es);
        ListHeard(r, data, b, es[1..], false);
      } else {
        ElementHeard(p, data, a, es);
        if c.Lost? {
          JoinBytes(data, b, es[1..]);
          PlainFold(r, data, b, |data|);
          GeneralEnd(r);
        } else {
          ListHeard(r, data, b, es[1..], c.Begun?);
        }
      }
    }
  }

  // ----- The whole value -----

  /**
   * The first element is taken for a token whatever it starts with, and a comma at the very beginning separates
   * nothing.
   */
  function HearingAll(f: Flags, es: seq<seq<Octet>>): Flags
    requires es != []
  {
    if es[0] == [] then Hearing(f, es[1..], true)
    else if Class(Trimmed(es[0], |es[0]|)).Lost? then Hearing(f, es[1..], false)
    else Hearing(f, es, false)
  }

  lemma {:induction false} TrimmedFirst(e: seq<Octet>, n: nat)
    requires 0 < n <= |e| && e[0] != ' '
    ensures Trimmed(e, n) != [] && Trimmed(e, n)[0] == Lower(e[0])
  {
    hide Lower;
    if n > 1 { TrimmedFirst(e, n - 1); }
  }

  /** The first byte of the value, when it begins an element that is no lost one. */
  lemma {:induction false} ValueBegins(p: Parser, c: Octet)
    requires Accepting(p) && p.headerState == MatchingConnectionTokenStart && p.index == 0 && Inside(c) && c != ' '
    requires !Class([Lower(c)]).Lost?
    ensures ValueChar(p, c) == p.(headerState := ConnectionToken(Lower(c)))
  {
    hide Spelled, Inside, Lower;
    var l := Lower(c);
    PlainLower(c);
    FirstStep(l, c, 1);
    InsideHeader();
    SpaceIsNoToken();
    assert [l][0] == l;
  }

  lemma {:induction false} OtherBegins(c: Octet)
    requires (Inside(c) && Class([Lower(c)]).Lost?) || c == ','
    ensures ConnectionToken(Lower(c)) == MatchingConnectionToken
  {
    hide Spelled;
    assert [Lower(c)][0] == Lower(c);
  }

  lemma {:induction false} LostFirst(t: seq<Octet>)
    requires t != []
    ensures Class(t).Lost? <==> Class([t[0]]).Lost?
  {
    hide Spelled;
  }

  /** The elements without the first character of all. */
  lemma {:induction false} JoinRest(es: seq<seq<Octet>>)
    requires es != [] && AreElements(es) && es[0] != []
    ensures var less := [es[0][1..]] + es[1..];
            Join(es) != [] && Join(less) == Join(es)[1..] && AreElements(less) && less[1..] == es[1..]
  {
    hide Inside;
    var less := [es[0][1..]] + es[1..];
    assert less[1..] == es[1..];
    if |es| > 1 { assert Join(es)[1..] == es[0][1..] + [','] + Join(es[1..]); }
    forall i | 0 <= i < |less|
      ensures IsElement(less[i])
    {
      assert IsElement(es[i]);
    }
  }

  /**
   * A Connection header whose value, which starts with no blank, is a list: the flags of the message are afterwards
   * those of the options that are heard.
   */
  lemma {:induction false} ConnectionHeard(p: Parser, es: seq<seq<Octet>>)
    requires Accepting(p) && p.headerState == Connection && es != [] && AreElements(es)
    requires var v := Join(es); v != [] && v[0] != ' '
    ensures var v := Join(es);
            FinishValue(ValueFold(OnHeaderValueStart(p, v[0]).parser, v, 1, |v|)).flags == HearingAll(p.flags, es)
  {
    hide Class, FinishValue, ValueFold, ValueChar, Hearing, Inside, ConnectionToken, Lower;
    var v := Join(es);
    var c := v[0];
    assert v[0..|v|] == v;
    var q := OnHeaderValueStart(p, c).parser;
    StartsList(p, c);
    if es[0] == [] {
      CommaFirst(es);
      OtherBegins(c);
      assert v[1..|v|] == Join(es[1..]);
      AreRest(es);
      ListHeard(q, v, 1, es[1..], true);
    } else {
      assert c == es[0][0];
      AreRest(es);
      TrimmedFirst(es[0], |es[0]|);
      LostFirst(Trimmed(es[0], |es[0]|));
      if Class([Lower(c)]).Lost? {
        OtherBegins(c);
        JoinRest(es);
        var less := [es[0][1..]] + es[1..];
        assert v[1..|v|] == Join(less);
        ListHeard(q, v, 1, less, true);
        HearingSwallowed(p.flags, less);
      } else {
        var q0 := q.(headerState := MatchingConnectionTokenStart);
        ValueBegins(q0, c);
        FoldNothing(q0, v, 0);
        FoldOne(q0, v, 0, 0);
        FoldSplit(q0, v, 0, 1, |v|);
        ListHeard(q0, v, 0, es, false);
      }
    }
  }

  lemma {:induction false} StartsList(p: Parser, c: Octet)
    requires p.headerState == Connection
    ensures OnHeaderValueStart(p, c).parser
            == p.(state := Header(InValue), index := 0, headerState := ConnectionToken(Lower(c)))
  {
    hide ConnectionToken;
  }

  lemma {:induction false} CommaFirst(es: seq<seq<Octet>>)
    requires es != [] && es[0] == [] && Join(es) != []
    ensures |es| > 1 && Join(es)[0] == ',' && Join(es)[1..] == Join(es[1..])
  {
  }

  lemma {:induction false} AreRest(es: seq<seq<Octet>>)
    requires es != [] && AreElements(es)
    ensures AreElements(es[1..]) && (es[0] != [] ==> Inside(es[0][0]))
  {
    hide Inside;
    assert IsElement(es[0]);
  }

  // ----- When everything is heard -----

  /** What an element is by itself. */
  function Meaning(e: seq<Octet>): Element { Class(Trimmed(e, |e|)) }

  predicate Mentions(es: seq<seq<Octet>>, w: Word) { exists i :: 0 <= i < |es| && Meaning(es[i]) == Listed(w) }

  /** Of a list in which no element is lost or only the beginning of a word, exactly the words in it are heard. */
  lemma {:induction false} PlainListHeard(es: seq<seq<Octet>>, w: Word)
    requires forall i :: 0 <= i < |es| ==> Meaning(es[i]).Listed? || Meaning(es[i]).Other?
    ensures Heard(es, false, w) <==> Mentions(es, w)
  {
    hide Class, Trimmed, Heard;
    if es == [] {
      HeardMore([[]], w);
    } else {
      HeardMore(es, w);
      var rest := es[1..];
      forall i | 0 <= i < |rest|
        ensures Meaning(rest[i]).Listed? || Meaning(rest[i]).Other?
      {
        assert rest[i] == es[i + 1];
      }
      PlainListHeard(rest, w);
      assert Meaning(es[0]).Listed? || Meaning(es[0]).Other?;
      if Mentions(rest, w) {
        var i :| 0 <= i < |rest| && Meaning(rest[i]) == Listed(w);
        assert es[i + 1] == rest[i];
      }
      if Mentions(es, w) {
        var i :| 0 <= i < |es| && Meaning(es[i]) == Listed(w);
        if i > 0 { assert rest[i - 1] == es[i]; }
      }
    }
  }

  /** After an element that only begins a word, an option is not heard. */
  lemma {:induction false} BegunCounterexample()
    ensures var es: seq<seq<Octet>> := ["up", "close"];
            AreElements(es) && Mentions(es, WordClose) && !HearingAll(NO_FLAGS, es).close
  {
    hide Class, Trimmed;
    var es: seq<seq<Octet>> := ["up", "close"];
    MeaningOfUp();
    MeaningOfClose();
    assert Meaning(es[1]) == Listed(WordClose);
    HeardMore(es, WordClose);
    HeardMore(es[1..], WordClose);
    assert es[1..] == ["close"] && es[1..][1..] == [];
  }

  /** After an empty element, an option is not heard. */
  lemma {:induction false} EmptyCounterexample()
    ensures var es: seq<seq<Octet>> := ["", "close"];
            AreElements(es) && Mentions(es, WordClose) && !HearingAll(NO_FLAGS, es).close
  {
    hide Class, Trimmed;
    var es: seq<seq<Octet>> := ["", "close"];
    MeaningOfClose();
    assert Meaning(es[1]) == Listed(WordClose);
    HeardMore(["close"], WordClose);
    assert es[1..] == ["close"] && es[1..][1..] == [];
  }

  lemma {:induction false} TrimmedWord(e: seq<Octet>, n: nat)
    requires n <= |e| && forall i :: 0 <= i < |e| ==> Lower(e[i]) == e[i] != ' '
    ensures Trimmed(e, n) == e[..n]
  {
    hide Lower;
    if n > 0 {
      TrimmedWord(e, n - 1);
      assert e[..n] == e[..n - 1] + [e[n - 1]];
      assert Lower(e[n - 1]) == e[n - 1] != ' ';
    }
  }

  lemma {:induction false} MeaningOfUp()
    ensures Meaning("up") == Begun && IsElement("up")
  {
    hide Trimmed;
    var e: seq<Octet> := "up";
    TrimmedWord(e, |e|);
    assert e[..|e|] == e;
  }

  lemma {:induction false} MeaningOfClose()
    ensures Meaning("close") == Listed(WordClose) && IsElement("close")
  {
    hide Trimmed;
    var e: seq<Octet> := "close";
    TrimmedWord(e, |e|);
    assert e[..|e|] == e;
  }
}

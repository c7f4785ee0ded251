/** What the header lines of a message, special ones among them, are reported as and what they leave in the parser. */
module HttpHead {
  import opened HttpChars
  import opened HttpMachine
  import opened HttpRun
  import opened HttpScan
  import opened HttpChunks
  import opened HttpNames
  import opened HttpLists
  import opened HttpEncodings
  import opened HttpRequest

  // ----- Header lines and what they mean -----

  /** A line with its value: bytes, decimal digits, or the elements of a list. */
  datatype HeadLine =
    | Ordinarily(name: seq<Octet>, value: seq<Octet>)
    | Length(name: seq<Octet>, digits: seq<Octet>)
    | Encoding(name: seq<Octet>, codings: seq<seq<Octet>>)
    | Options(name: seq<Octet>, options: seq<seq<Octet>>)
    | Upgrading(name: seq<Octet>, value: seq<Octet>)
  {
    function Value(): seq<Octet> {
      match this
      case Ordinarily(_, value) => value
      case Length(_, digits) => digits
      case Encoding(_, codings) => Join(codings)
      case Options(_, options) => Join(options)
      case Upgrading(_, value) => value
    }

    function Text(): HeaderText { HeaderText(name, Value()) }

    predicate Special() { !Ordinarily? }
  }

  /** Digits that never make a value past the parser's limit. */
  predicate LengthDigits(ds: seq<Octet>) {
    ds != [] && DecimalDigits(ds) && forall i :: 0 <= i <= |ds| ==> DecimalValue(ds[..i]) <= DECIMAL_LIMIT
  }

  /** The name is that of the line's kind, in upper or lower case, and the value is one. */
  predicate ProperHead(l: HeadLine) {
    && l.name != [] && Tokens(l.name, 0, |l.name|) && ValueBytes(l.Value()) && (l.Special() ==> l.Value() != [])
    && var low := Lowered(l.name);
       match l
       case Ordinarily(_, _) => Ordinary(Recognised(low))
       case Length(_, digits) => low == CONTENT_LENGTH && LengthDigits(digits)
       case Encoding(_, codings) => low == TRANSFER_ENCODING && codings != [] && AreElements(codings)
       case Options(_, options) =>
         (low == CONNECTION || low == PROXY_CONNECTION) && options != [] && AreElements(options)
       case Upgrading(_, _) => low == UPGRADE
  }

  /** What the parser remembers of the lines. */
  datatype Head = Head(flags: Flags, length: nat, encoded: bool)

  function HeadOf(p: Parser): Head { Head(p.flags, p.contentLength, p.usesTransferEncoding) }

  /** What it should remember after one more. */
  function Heading(h: Head, l: HeadLine): Head
    requires ProperHead(l)
  {
    match l
    case Ordinarily(name, _) => h.(encoded := h.encoded || NamesEncoding(Lowered(name)))
    case Length(_, digits) => h.(flags := h.flags.(contentLength := true), length := DecimalValue(digits))
    case Encoding(_, codings) => h.(flags := Chunking(h.flags, ChunkedValue(codings)), encoded := true)
    case Options(_, options) => h.(flags := HearingAll(h.flags, options))
    case Upgrading(_, _) => h.(flags := h.flags.(upgrade := true))
  }

  /** What no header line changes. */
  function Core(p: Parser): Parser {
    p.(state := Dead, headerState := General, index := 0, flags := NO_FLAGS, contentLength := 0, nread := 0,
       usesTransferEncoding := false, errno := Ok)
  }

  // ----- Values -----

  /** The parser after a value, which does not begin with a blank. */
  function AfterValue(p: Parser, v: seq<Octet>): Parser
    requires v != []
  {
    ValueFold(OnHeaderValueStart(p, v[0]).parser, v, 1, |v|)
  }

  /** No byte of it is refused. */
  ghost predicate FineValue(p: Parser, v: seq<Octet>) {
    && v != [] && OnHeaderValueStart(p, v[0]).parser.errno == Ok
    && forall k {:trigger ValueFold(OnHeaderValueStart(p, v[0]).parser, v, 1, k)} :: 1 <= k <= |v| ==>
         ValueFold(OnHeaderValueStart(p, v[0]).parser, v, 1, k).errno == Ok
  }

  /** The same bytes elsewhere. */
  lemma {:induction false} FoldElsewhere(p: Parser, v: seq<Octet>, data: seq<Octet>, o: nat, a: nat, n: nat)
    requires a <= n <= |v| && Here(data, o, v)
    ensures o + n <= |data| && ValueFold(p, data, o + a, o + n) == ValueFold(p, v, a, n)
  {
    hide ValueChar;
    if a < n {
      FoldElsewhere(p, v, data, o, a, n - 1);
      HereAt(data, o, v, n - 1);
    }
  }

  lemma {:induction false} OtherCharCore(p: Parser, c: Octet)
    ensures var q := OtherValueChar(p, c); Core(q) == Core(p) && q.usesTransferEncoding == p.usesTransferEncoding
  {
  }

  lemma {:induction false} ListCharCore(p: Parser, c: Octet)
    ensures var q := EncodingValueChar(p, c); Core(q) == Core(p) && q.usesTransferEncoding == p.usesTransferEncoding
    ensures var q := ConnectionValueChar(p, c); Core(q) == Core(p) && q.usesTransferEncoding == p.usesTransferEncoding
  {
    hide Lower, NextEncodingState, NextConnectionState, FinishedFlags;
  }

  lemma {:induction false} ValueCharCore(p: Parser, c: Octet)
    ensures var q := ValueChar(p, c); Core(q) == Core(p) && q.usesTransferEncoding == p.usesTransferEncoding
  {
    hide IsHeaderChar, OtherValueChar, EncodingValueChar, ConnectionValueChar;
    OtherCharCore(p, c);
    ListCharCore(p, c);
  }

  lemma {:induction false} FoldCore(p: Parser, v: seq<Octet>, a: nat, n: nat)
    requires a <= n <= |v|
    ensures var q := ValueFold(p, v, a, n); Core(q) == Core(p) && q.usesTransferEncoding == p.usesTransferEncoding
  {
    hide ValueChar, Core;
    if a < n {
      FoldCore(p, v, a, n - 1);
      ValueCharCore(ValueFold(p, v, a, n - 1), v[n - 1]);
    }
  }

  lemma {:induction false} StartCore(p: Parser, c: Octet)
    ensures var q := OnHeaderValueStart(p, c).parser;
            Core(q) == Core(p) && q.usesTransferEncoding == p.usesTransferEncoding
    ensures var q := OnHeaderValueStart(p, c).parser;
            q.errno == p.errno == Ok ==> q.state == Header(InValue) && q.nread == p.nread
  {
    hide FirstValueState;
  }

  lemma {:induction false} StartActs(p: Parser, c: Octet)
    ensures OnHeaderValueStart(p, c).actions == Then(Mark(Value), Done) && !OnHeaderValueStart(p, c).stop
  {
    hide FirstValueState, IsNum, Digit, Lower;
  }

  /** One more byte is counted. */
  function Onward(p: Parser): Parser { p.(nread := p.nread + 1) }

  /** A value that is not refused is reported in one piece, up to the end of its line. */
  lemma {:induction false} ValueReported(s: Settings, m: Machine, data: seq<Octet>, o: nat, p: Parser, log: seq<Event>,
                                         v: seq<Octet>)
    requires o <= |data| && At(s, m, data, o, p, log) && p.errno == Ok && p.state == Header(DiscardWs)
    requires FineValue(Onward(p), v) && ValueBytes(v) && Here(data, o, v) && Here(data, o + |v|, CRLF)
    requires p.nread + |v| + 2 <= s.maxHeaderSize && LastIs(log, Field)
    ensures At(s, m, data, o + |v| + 2,
               AfterValue(Onward(p), v).(state := Header(ValueLws), nread := p.nread + |v| + 2),
               log + [Piece(Value, v)])
  {
    hide At, Run, Step, Push, OnHeaderValueStart, ValueFold, ValueChar, Accepted, IsHeaderChar, Fails, LastIs;
    var n := |v|;
    var c := v[0];
    var q := OnHeaderValueStart(Onward(p), c).parser;
    FirstByte(s, m, data, o, p, log, v);
    FineIsAccepted(Onward(p), v, data, o);
    FoldElsewhere(q, v, data, o, 1, n);
    ValueFoldKeeps(q, v, 1, n, 0);
    StartCore(Onward(p), c);
    PushTwice(log, Value, [c], data[o + 1..o + n]);
    ValueRun(s, m, data, o + 1, o + n, q, Push(log, Piece(Value, [c])));
    assert data[o..o + n] == v == [c] + data[o + 1..o + n];
    OnlyField(log);
    PushNew(log, Value, v);
    var r := AfterValue(Onward(p), v).(nread := p.nread + n);
    assert At(s, m, data, o + n, r, log + [Piece(Value, v)]);
    ValueEnds(s, m, data, o + n, r, log + [Piece(Value, v)]);
  }

  lemma {:induction false} OnlyField(log: seq<Event>)
    ensures LastIs(log, Field) ==> !LastIs(log, Value)
  {
  }

  lemma {:induction false} FirstByte(s: Settings, m: Machine, data: seq<Octet>, o: nat, p: Parser, log: seq<Event>,
                                     v: seq<Octet>)
    requires o <= |data| && At(s, m, data, o, p, log) && p.errno == Ok && p.state == Header(DiscardWs)
    requires v != [] && OnHeaderValueStart(Onward(p), v[0]).parser.errno == Ok && ValueBytes(v) && Here(data, o, v)
    requires p.nread + 1 <= s.maxHeaderSize
    ensures At(s, m, data, o + 1, OnHeaderValueStart(Onward(p), v[0]).parser, Push(log, Piece(Value, [v[0]])))
  {
    hide At, Run, Step, Push, OnHeaderValueStart, IsHeaderChar, Fails;
    var c := v[0];
    HereAt(data, o, v, 0);
    HeaderStep(s, p, DiscardWs, c);
    StartActs(Onward(p), c);
    assert c != ' ' && c != '\t' && c != CR && c != LF;
    Opens(s, m, data, o, p, log, Value);
  }

  /** Accepted wherever it stands. */
  lemma {:induction false} FineIsAccepted(p: Parser, v: seq<Octet>, data: seq<Octet>, o: nat)
    requires FineValue(p, v) && ValueBytes(v) && Here(data, o, v)
    ensures var q := OnHeaderValueStart(p, v[0]).parser;
            o + |v| <= |data| && Accepted(q, data, o + 1, o + |v|)
  {
    hide ValueFold, OnHeaderValueStart, IsHeaderChar;
    var q := OnHeaderValueStart(p, v[0]).parser;
    var a := o + 1;
    forall i | a <= i < o + |v|
      ensures AcceptedAt(q, data, a, i)
    {
      HereAt(data, o, v, i - o);
      assert v[i - o] == data[i];
      FoldElsewhere(q, v, data, o, 1, i + 1 - o);
      assert ValueFold(q, v, 1, i + 1 - o).errno == Ok;
    }
  }

  // ----- The kinds of values -----

  /** A parser that has read the name and the colon of a line of this kind. */
  predicate Named(p: Parser, l: HeadLine) {
    && p.errno == Ok && !p.lenient && p.headerState == Recognised(Lowered(l.name))
    && (l.Length? ==> !p.flags.contentLength) && (NamesEncoding(Lowered(l.name)) ==> p.usesTransferEncoding)
  }

  /** The value is read, and the parser remembers what it should. */
  ghost predicate Understood(p: Parser, l: HeadLine)
    requires ProperHead(l)
  {
    FineValue(p, l.Value()) && HeadOf(FinishValue(AfterValue(p, l.Value()))) == Heading(HeadOf(p), l)
  }

  lemma {:induction false} SpecialNames()
    ensures Recognised(CONTENT_LENGTH) == ContentLength && Recognised(TRANSFER_ENCODING) == TransferEncoding
    ensures Recognised(CONNECTION) == Recognised(PROXY_CONNECTION) == Connection
    ensures Recognised(UPGRADE) == HeaderState.Upgrade
    ensures NamesEncoding(TRANSFER_ENCODING) && !NamesEncoding(CONTENT_LENGTH) && !NamesEncoding(UPGRADE)
    ensures !NamesEncoding(CONNECTION) && !NamesEncoding(PROXY_CONNECTION)
  {
    assert CONNECTION != CONTENT_LENGTH && PROXY_CONNECTION[0] != TRANSFER_ENCODING[0];
    assert CONTENT_LENGTH[0] == 'c' && UPGRADE[0] == 'u' && CONNECTION[0] == 'c' && TRANSFER_ENCODING[0] == 't';
  }

  lemma {:induction false} LengthUnderstood(p: Parser, l: HeadLine)
    requires l.Length? && ProperHead(l) && Named(p, l)
    ensures Understood(p, l)
  {
    hide ValueFold, DecimalValue, IsNum, Recognised, NamesEncoding, IsHeaderChar;
    SpecialNames();
    var ds := l.digits;
    assert IsNum(ds[0]);
    NoDigits();
    assert ds[..0] == [] && ds[..|ds|] == ds;
    OneDigit(ds, 1);
    var q := OnHeaderValueStart(p, ds[0]).parser;
    LengthStarts(p, ds[0]);
    forall k | 1 <= k <= |ds|
      ensures var r := ValueFold(q, ds, 1, k);
              r == q.(contentLength := DecimalValue(ds[..k]))
    {
      LengthFold(q, ds, k);
    }
  }

  lemma {:induction false} LengthStarts(p: Parser, c: Octet)
    requires p.errno == Ok && p.headerState == ContentLength && !p.flags.contentLength && IsNum(c)
    ensures OnHeaderValueStart(p, c).parser
            == p.(state := Header(InValue), index := 0, headerState := ContentLengthNum, contentLength := Digit(c),
                  flags := p.flags.(contentLength := true))
  {
  }

  lemma {:induction false} LengthFold(q: Parser, ds: seq<Octet>, k: nat)
    requires 1 <= k <= |ds| && LengthDigits(ds) && q.errno == Ok && q.headerState == ContentLengthNum
    requires q.contentLength == DecimalValue(ds[..1])
    ensures ValueFold(q, ds, 1, k) == q.(contentLength := DecimalValue(ds[..k]))
  {
    hide DecimalValue, IsNum, ValueChar;
    if k > 1 {
      LengthFold(q, ds, k - 1);
      OneDigit(ds, k);
      DigitChar(ValueFold(q, ds, 1, k - 1), ds[k - 1]);
      assert DecimalValue(ds[..k - 1]) <= DECIMAL_LIMIT;
    }
  }

  lemma {:induction false} UpgradeUnderstood(p: Parser, l: HeadLine)
    requires l.Upgrading? && ProperHead(l) && Named(p, l)
    ensures Understood(p, l)
  {
    hide ValueFold, Recognised, NamesEncoding, IsHeaderChar;
    SpecialNames();
    var v := l.value;
    var q := OnHeaderValueStart(p, v[0]).parser;
    forall k | 1 <= k <= |v|
      ensures ValueFold(q, v, 1, k) == q
    {
      PlainFold(q, v, 1, k);
    }
  }

  /** The states of a list of codings, and the one that has lost its place. */
  predicate CodingStates(h: HeaderState) { InEncoding(h) || h.General? }

  predicate OptionStates(h: HeaderState) { InConnection(h) || h.General? }

  lemma {:induction false} ListChar(p: Parser, c: Octet)
    requires IsHeaderChar(c) && (CodingStates(p.headerState) || OptionStates(p.headerState))
    ensures var q := ValueChar(p, c);
            && q.errno == p.errno && q.contentLength == p.contentLength
            && (CodingStates(p.headerState) ==> CodingStates(q.headerState))
            && (OptionStates(p.headerState) ==> OptionStates(q.headerState))
  {
    hide IsHeaderChar, Lower, Token;
  }

  lemma {:induction false} ListFine(p: Parser, v: seq<Octet>, k: nat)
    requires 1 <= k <= |v| && ValueBytes(v) && (CodingStates(p.headerState) || OptionStates(p.headerState))
    ensures var q := ValueFold(p, v, 1, k);
            && q.errno == p.errno && q.contentLength == p.contentLength
            && (CodingStates(p.headerState) ==> CodingStates(q.headerState))
            && (OptionStates(p.headerState) ==> OptionStates(q.headerState))
  {
    hide IsHeaderChar, ValueChar, CodingStates, OptionStates;
    if k > 1 {
      ListFine(p, v, k - 1);
      ListChar(ValueFold(p, v, 1, k - 1), v[k - 1]);
    }
  }

  lemma {:induction false} ListStarts(p: Parser, c: Octet)
    requires p.errno == Ok && (p.headerState == TransferEncoding || p.headerState == Connection)
    ensures var q := OnHeaderValueStart(p, c).parser;
            && q.errno == Ok && q.contentLength == p.contentLength && q.usesTransferEncoding == p.usesTransferEncoding
            && (p.headerState == TransferEncoding ==> CodingStates(q.headerState))
            && (p.headerState == Connection ==> OptionStates(q.headerState))
  {
    hide Lower;
  }

  lemma {:induction false} ListUnderstood(p: Parser, l: HeadLine)
    requires (l.Encoding? || l.Options?) && ProperHead(l) && Named(p, l)
    ensures Understood(p, l)
  {
    hide ValueFold, Recognised, NamesEncoding, IsHeaderChar, OnHeaderValueStart, CodingStates, OptionStates,
      ChunkedValue, HearingAll, AreElements, Join;
    SpecialNames();
    var v := l.Value();
    var q := OnHeaderValueStart(p, v[0]).parser;
    ListStarts(p, v[0]);
    forall k | 1 <= k <= |v|
      ensures ValueFold(q, v, 1, k).errno == Ok && ValueFold(q, v, 1, k).contentLength == p.contentLength
    {
      ListFine(q, v, k);
    }
    FoldCore(q, v, 1, |v|);
    if l.Encoding? { EncodingHeard(p, l.codings); } else { ConnectionHeard(p, l.options); }
  }

  // ----- Whole lines -----

  /**
   * One header line is reported as its name and its value, and the parser remembers what the line means; the value of a
   * special line takes effect when the next line begins.
   */
  lemma {:induction false} HeadLineReported(s: Settings, m: Machine, data: seq<Octet>, o: nat, p: Parser, pending: bool,
                                            log: seq<Event>, l: HeadLine)
    returns (q: Parser, later: bool, log': seq<Event>)
    requires o <= |data| && At(s, m, data, o, p, log) && LineStart(p, pending) && LogStart(log, pending) && !p.lenient
    requires ProperHead(l) && (l.Length? ==> !Settled(p).flags.contentLength)
    requires Here(data, o, Line(l.Text())) && p.nread + |Line(l.Text())| <= s.maxHeaderSize
    ensures o + |Line(l.Text())| <= |data| && At(s, m, data, o + |Line(l.Text())|, q, log')
    ensures LineStart(q, later) && LogStart(log', later) && q.nread == p.nread + |Line(l.Text())| && Core(q) == Core(p)
    ensures HeadOf(Settled(q)) == Heading(HeadOf(Settled(p)), l)
    ensures Flushed(log', later) == Flushed(log, pending) + [Piece(Field, l.name), Piece(Value, l.Value())]
  {
    hide At, Run, Step, Tokens, ValueBytes, Recognised, NamesEncoding, Ordinary, Flushed, Here, HeadLine.Value, Settled,
      Heading, Core, LengthDigits, AreElements;
    HereInside(data, o, Line(l.Text()));
    if l.Ordinarily? {
      OrdinaryValue(l);
      q, later, log' := LineReported(s, m, data, o, p, pending, log, l.Text());
      OrdinaryHead(p, q, l);
    } else {
      q, later, log' := SpecialReported(s, m, data, o, p, pending, log, l);
    }
  }

  lemma {:induction false} OrdinaryValue(l: HeadLine)
    ensures l.Ordinarily? ==> l.Value() == l.value
  {
  }

  lemma {:induction false} OrdinaryHead(p: Parser, q: Parser, l: HeadLine)
    requires l.Ordinarily? && ProperHead(l) && LineRead(p, q, l.Text()) && Settled(q) == q
    ensures HeadOf(Settled(q)) == Heading(HeadOf(Settled(p)), l) && Core(q) == Core(p)
  {
    hide NamesEncoding;
  }

  lemma {:induction false} SpecialReported(s: Settings, m: Machine, data: seq<Octet>, o: nat, p: Parser, pending: bool,
                                           log: seq<Event>, l: HeadLine)
    returns (q: Parser, later: bool, log': seq<Event>)
    requires o <= |data| && At(s, m, data, o, p, log) && LineStart(p, pending) && LogStart(log, pending) && !p.lenient
    requires ProperHead(l) && l.Special() && (l.Length? ==> !Settled(p).flags.contentLength)
    requires Here(data, o, Line(l.Text())) && p.nread + |Line(l.Text())| <= s.maxHeaderSize
    ensures o + |Line(l.Text())| <= |data| && At(s, m, data, o + |Line(l.Text())|, q, log')
    ensures LineStart(q, later) && LogStart(log', later) && q.nread == p.nread + |Line(l.Text())| && Core(q) == Core(p)
    ensures HeadOf(Settled(q)) == Heading(HeadOf(Settled(p)), l)
    ensures Flushed(log', later) == Flushed(log, pending) + [Piece(Field, l.name), Piece(Value, l.Value())]
  {
    hide At, Run, Step, Tokens, ValueBytes, Recognised, NamesEncoding, InName, Flushed, Here, HeadLine.Value, Settled,
      FineValue, AfterValue, Heading, Core, LengthDigits, AreElements, FinishValue, HeadOf;
    var h := l.Text();
    var n := |h.name|;
    var low := Lowered(h.name);
    HereSplit(data, o, h.name + COLON + h.value, CRLF);
    HereSplit(data, o, h.name + COLON, h.value);
    HereSplit(data, o, h.name, COLON);
    HereInside(data, o, Line(h));
    var index := NameRead(s, m, data, o, p, pending, log, h.name);
    var before := Flushed(log, pending);
    var log1 := before + [Piece(Field, h.name)];
    var named := InName(AtField(p), low, index).(nread := p.nread + n);
    NamedFields(p, low, index);
    SettledSame(p);
    ColonRead(s, m, data, o + n, named, log1);
    var q1 := named.(state := Header(DiscardWs), nread := p.nread + n + 2);
    NamedIs(p, q1, l, index);
    var q2 := Onward(q1);
    OnwardNamed(q1, l);
    SpecialUnderstood(q2, l);
    ValueReported(s, m, data, o + n + 2, q1, log1, h.value);
    q := AfterValue(q2, h.value).(state := Header(ValueLws), nread := q1.nread + |h.value| + 2);
    later, log' := false, log1 + [Piece(Value, h.value)];
    SpecialEnds(p, q2, q, l);
    FlushedNow(log');
    assert log' == before + [Piece(Field, l.name), Piece(Value, l.Value())];
  }

  lemma {:induction false} OnwardNamed(p: Parser, l: HeadLine)
    requires Named(p, l)
    ensures Named(Onward(p), l) && HeadOf(Onward(p)) == HeadOf(p) && Core(Onward(p)) == Core(p)
  {
    hide Recognised, NamesEncoding;
  }

  lemma {:induction false} SettledSame(p: Parser)
    ensures Settled(p).errno == p.errno && Settled(p).lenient == p.lenient && Core(Settled(p)) == Core(p)
  {
    hide FinishedFlags;
  }

  lemma {:induction false} NamedIs(p: Parser, q: Parser, l: HeadLine, index: nat)
    requires ProperHead(l) && !p.lenient && p.errno == Ok && (l.Length? ==> !Settled(p).flags.contentLength)
    requires q.errno == Ok && q == Settled(p).(state := Header(DiscardWs), headerState := Recognised(Lowered(l.name)),
                                               index := index, nread := q.nread,
                                               usesTransferEncoding := p.usesTransferEncoding ||
                                                                       NamesEncoding(Lowered(l.name)))
    ensures Named(q, l) && Core(q) == Core(p)
    ensures HeadOf(q) == HeadOf(Settled(p)).(encoded := q.usesTransferEncoding)
    ensures q.usesTransferEncoding == (HeadOf(Settled(p)).encoded || NamesEncoding(Lowered(l.name)))
  {
    hide Recognised, NamesEncoding, FinishedFlags, ProperHead;
  }

  lemma {:induction false} SpecialUnderstood(p: Parser, l: HeadLine)
    requires ProperHead(l) && l.Special() && Named(p, l)
    ensures Understood(p, l)
  {
    hide Understood, ProperHead, Named;
    if l.Length? {
      LengthUnderstood(p, l);
    } else if l.Upgrading? {
      UpgradeUnderstood(p, l);
    } else {
      ListUnderstood(p, l);
    }
  }

  lemma {:induction false} SpecialEnds(p: Parser, q1: Parser, q: Parser, l: HeadLine)
    requires ProperHead(l) && l.Special() && Named(q1, l) && Understood(q1, l) && Core(q1) == Core(p)
    requires HeadOf(q1) == HeadOf(Settled(p)).(encoded := q1.usesTransferEncoding)
    requires q1.usesTransferEncoding == (HeadOf(Settled(p)).encoded || NamesEncoding(Lowered(l.name)))
    requires q == AfterValue(q1, l.Value()).(state := Header(ValueLws), nread := q.nread)
    ensures LineStart(q, false) && Core(q) == Core(p) && HeadOf(Settled(q)) == Heading(HeadOf(Settled(p)), l)
  {
    hide Recognised, NamesEncoding, ValueFold, OnHeaderValueStart, ProperHead, FinishedFlags, HearingAll, ChunkedValue;
    var v := l.Value();
    var r := OnHeaderValueStart(q1, v[0]).parser;
    StartCore(q1, v[0]);
    FoldCore(r, v, 1, |v|);
    assert AfterValue(q1, v).errno == Ok;
    SettledHead(q, AfterValue(q1, v));
    EncodedTwice(HeadOf(Settled(p)), l);
  }

  lemma {:induction false} SettledHead(q: Parser, r: Parser)
    requires q == r.(state := Header(ValueLws), nread := q.nread)
    ensures HeadOf(Settled(q)) == HeadOf(FinishValue(r))
  {
    hide FinishedFlags;
  }

  lemma {:induction false} EncodedTwice(h: Head, l: HeadLine)
    requires ProperHead(l) && l.Special()
    ensures Heading(h.(encoded := h.encoded || NamesEncoding(Lowered(l.name))), l) == Heading(h, l)
  {
    hide Recognised, NamesEncoding, HearingAll, ChunkedValue;
    SpecialNames();
  }

  // ----- All lines -----

  function HeadText(ls: seq<HeadLine>): seq<Octet> { if ls == [] then [] else Line(ls[0].Text()) + HeadText(ls[1..]) }

  function HeadPieces(ls: seq<HeadLine>): seq<Event> {
    if ls == [] then [] else [Piece(Field, ls[0].name), Piece(Value, ls[0].Value())] + HeadPieces(ls[1..])
  }

  predicate ProperHeads(ls: seq<HeadLine>) { forall i :: 0 <= i < |ls| ==> ProperHead(ls[i]) }

  /** Not more than one Content-Length, and none if there was one. */
  predicate OneLength(ls: seq<HeadLine>, seen: bool) {
    ls == [] || (!(seen && ls[0].Length?) && OneLength(ls[1..], seen || ls[0].Length?))
  }

  function Headings(h: Head, ls: seq<HeadLine>): Head
    requires ProperHeads(ls)
    decreases |ls|
  {
    if ls == [] then h else assert ProperHead(ls[0]); Headings(Heading(h, ls[0]), ls[1..])
  }

  lemma {:induction false} LengthSeen(h: Head, l: HeadLine)
    requires ProperHead(l)
    ensures Heading(h, l).flags.contentLength == (h.flags.contentLength || l.Length?)
  {
    hide ChunkedValue, NamesEncoding, Recognised, LengthDigits, DecimalValue, Hearing, ValueBytes, Tokens, AreElements,
      Join;
    if l.Options? { HearingKeeps(h.flags, l.options); }
  }

  lemma {:induction false} HearingKeeps(f: Flags, es: seq<seq<Octet>>)
    requires es != []
    ensures var g := HearingAll(f, es);
            && g.contentLength == f.contentLength && g.chunked == f.chunked && g.upgrade == f.upgrade
            && g.trailing == f.trailing && g.skipBody == f.skipBody
  {
    hide Heard, Class, Trimmed;
  }

  lemma {:induction false} CoreLenient(p: Parser, q: Parser)
    requires Core(p) == Core(q)
    ensures p.lenient == q.lenient
  {
  }

  /** The lines are reported one by one, and the parser remembers what they mean. */
  lemma {:induction false} HeadReported(s: Settings, m: Machine, data: seq<Octet>, o: nat, p: Parser, pending: bool,
                                        log: seq<Event>, ls: seq<HeadLine>)
    returns (q: Parser, later: bool, log': seq<Event>)
    requires o <= |data| && At(s, m, data, o, p, log) && LineStart(p, pending) && LogStart(log, pending) && !p.lenient
    requires ProperHeads(ls) && OneLength(ls, Settled(p).flags.contentLength)
    requires Here(data, o, HeadText(ls)) && p.nread + |HeadText(ls)| <= s.maxHeaderSize
    ensures o + |HeadText(ls)| <= |data| && At(s, m, data, o + |HeadText(ls)|, q, log')
    ensures LineStart(q, later) && LogStart(log', later) && q.nread == p.nread + |HeadText(ls)| && Core(q) == Core(p)
    ensures HeadOf(Settled(q)) == Headings(HeadOf(Settled(p)), ls)
    ensures Flushed(log', later) == Flushed(log, pending) + HeadPieces(ls)
    decreases |ls|
  {
    hide At, Run, Step, LineStart, LogStart, ProperHead, Line, Flushed, Heading, Settled, Core, Here, HeadLine.Value,
      HeadLine.Text;
    HereInside(data, o, HeadText(ls));
    if ls == [] {
      q, later, log' := p, pending, log;
      assert Flushed(log, pending) + [] == Flushed(log, pending);
    } else {
      var l := ls[0];
      HereSplit(data, o, Line(l.Text()), HeadText(ls[1..]));
      assert ProperHead(l);
      LengthSeen(HeadOf(Settled(p)), l);
      var q1, pending1, log1 := HeadLineReported(s, m, data, o, p, pending, log, l);
      CoreLenient(p, q1);
      q, later, log' := HeadReported(s, m, data, o + |Line(l.Text())|, q1, pending1, log1, ls[1..]);
      var pieces := [Piece(Field, l.name), Piece(Value, l.Value())];
      assert Flushed(log, pending) + pieces + HeadPieces(ls[1..])
             == Flushed(log, pending) + (pieces + HeadPieces(ls[1..]));
    }
  }
}

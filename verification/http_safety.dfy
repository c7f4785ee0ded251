/** No assertion of http_parser_execute can fail: an invariant of every run. */
module HttpSafety {
  import opened HttpChars
  import opened HttpMachine

  /** The header states that may not occur inside a value. */
  predicate ValueState(h: HeaderState) { !h.Connection? && !h.TransferEncoding? }

  /** What holds of a parser in state t, where `count` header bytes have been counted at a chunk size. */
  ghost predicate Sound(p: Parser, t: State, count: nat) {
    p.contentLength <= ULLONG_MAX &&
    match t
    case Chunk(k) =>
      && p.flags.chunked && (!k.SizeStart? ==> p.contentLength < ULLONG_MAX)
      && (k.SizeStart? ==> p.nread == count)
      && (k.Data? ==> p.contentLength > 0)
      && (k.DataAlmostDone? ==> p.contentLength == 0)
    case Content(b) => b.Identity? ==> 0 < p.contentLength < ULLONG_MAX
    case Header(h) => (h.InField? ==> NameState(p.headerState)) && (h.InValue? ==> ValueState(p.headerState))
    case Req(r) => r.Method? ==> p.verb < 34 && p.index <= |MethodName(p.verb)|
    case _ => true
  }

  /** The invariant between bytes and between calls. */
  ghost predicate Invariant(p: Parser) {
    p.errno != AssertionFailed && (p.errno == Ok ==> Sound(p, p.state, 0))
  }

  /** The states of which nothing more is demanded. */
  predicate Undemanding(s: State) {
    match s
    case Dead | Res(_) | InUrl(_) => true
    case Req(r) => !r.Method?
    case Header(h) => !h.InField? && !h.InValue?
    case _ => false
  }

  lemma {:induction false} UndemandingSafe(p: Parser)
    requires p.errno != AssertionFailed && (p.errno == Ok ==> p.contentLength <= ULLONG_MAX && Undemanding(p.state))
    ensures Invariant(p)
  {
  }

  lemma {:induction false} StatusSafe(p: Parser, c: Octet)
    requires p.errno == Ok && p.state.Res? && p.contentLength <= ULLONG_MAX
    ensures Invariant(OnStatusCode(p, c).parser) && Invariant(OnStatusStart(p, c).parser)
    ensures Invariant(OnStatus(p, c).parser)
  {
    hide IsNum, Digit;
  }

  lemma {:induction false} ResponseVersionSafe(p: Parser, r: ResState, c: Octet)
    requires p.errno == Ok && p.state == Res(r) && p.contentLength <= ULLONG_MAX
    ensures Invariant(ResponseVersion(p, r, c).parser)
  {
    hide IsNum, Digit;
  }

  lemma {:induction false} RequestVersionSafe(p: Parser, r: ReqState, c: Octet)
    requires p.errno == Ok && p.state == Req(r) && !r.Method? && p.contentLength <= ULLONG_MAX
    ensures Invariant(RequestVersion(p, r, c).parser)
  {
    hide IsNum, Digit, MethodName;
  }

  lemma {:induction false} ResponseLiteralSafe(p: Parser, r: ResState, c: Octet)
    requires p.errno == Ok && p.state == Res(r) && p.contentLength <= ULLONG_MAX
    requires r.StartRes? || r.ResH? || r.ResHT? || r.ResHTT? || r.ResHTTP? || r.ResLineAlmostDone?
    ensures Invariant(ResponseLine(p, r, c).parser)
  {
  }

  lemma {:induction false} ResponseLineSafe(p: Parser, r: ResState, c: Octet)
    requires p.errno == Ok && p.state == Res(r) && p.contentLength <= ULLONG_MAX
    ensures Invariant(ResponseLine(p, r, c).parser)
  {
    hide OnStatusCode, OnStatusStart, OnStatus, ResponseVersion, Invariant;
    match r
    case StatusCode | StatusStart | StatusText => StatusSafe(p, c);
    case StartRes | ResH | ResHT | ResHTT | ResHTTP | ResLineAlmostDone => ResponseLiteralSafe(p, r, c);
    case _ => ResponseVersionSafe(p, r, c);
  }

  lemma {:induction false} MethodLengths(verb: nat)
    requires verb < 34
    ensures 3 <= |MethodName(verb)| < 31
  {
  }

  lemma {:induction false} OtherMethodLonger(verb: nat, index: nat, c: Octet)
    ensures var m := OtherMethod(verb, index, c); m >= 0 ==> index < |MethodName(m)|
  {
    hide MethodName;
    forall v: nat | v < 34
      ensures |MethodName(v)| >= 3
    {
      MethodLengths(v);
    }
    LongNames();
  }

  lemma {:induction false} LongNames()
    ensures |MethodName(13)| == 9 && |MethodName(30)| == 10 && |MethodName(32)| == 6
  {
  }

  lemma {:induction false} OnMethodSafe(p: Parser, c: Octet)
    requires p.errno == Ok && p.state == Req(Method) && Sound(p, p.state, 1)
    ensures Invariant(OnMethod(p, c).parser)
  {
    hide MethodName, OtherMethod;
    MethodLengths(p.verb);
    OtherMethodLonger(p.verb, p.index, c);
  }

  lemma {:induction false} OnStartReqSafe(p: Parser, c: Octet)
    requires p.errno == Ok && p.state == Req(StartReq) && p.contentLength <= ULLONG_MAX
    ensures Invariant(OnStartReq(p, c).parser)
  {
    hide MethodName, MethodOfLetter;
    var m := MethodOfLetter(c);
    if m >= 0 { MethodLengths(m); }
  }

  lemma {:induction false} RequestStartSafe(p: Parser, r: ReqState, c: Octet)
    requires p.errno == Ok && p.state == Req(r) && Sound(p, p.state, 1)
    requires r.StartReqOrRes? || r.ResOrRespH? || r.StartReq? || r.Method?
    ensures Invariant(RequestLine(p, r, c).parser)
  {
    hide OnMethod, OnStartReq, MethodName, RequestVersion;
    MethodLengths(HEAD);
    match r
    case Method => OnMethodSafe(p, c);
    case StartReq => OnStartReqSafe(p, c);
    case StartReqOrRes => OnStartReqSafe(Fresh(p).(kind := Request, state := Req(StartReq)), c);
    case _ =>
  }

  lemma {:induction false} RequestLiteralSafe(p: Parser, r: ReqState, c: Octet)
    requires p.errno == Ok && p.state == Req(r) && p.contentLength <= ULLONG_MAX
    requires r.HttpStart? || r.HttpH? || r.HttpHT? || r.HttpHTT? || r.HttpHTTP? || r.HttpI? || r.HttpIC?
    ensures Invariant(RequestLine(p, r, c).parser)
  {
    hide MethodName;
  }

  lemma {:induction false} RequestHttpSafe(p: Parser, r: ReqState, c: Octet)
    requires p.errno == Ok && p.state == Req(r) && p.contentLength <= ULLONG_MAX
    requires !(r.StartReqOrRes? || r.ResOrRespH? || r.StartReq? || r.Method? || r.SpacesBeforeUrl?)
    ensures Invariant(RequestLine(p, r, c).parser)
  {
    hide RequestVersion, Invariant;
    match r
    case HttpStart | HttpH | HttpHT | HttpHTT | HttpHTTP | HttpI | HttpIC => RequestLiteralSafe(p, r, c);
    case _ => RequestVersionSafe(p, r, c);
  }

  lemma {:induction false} RequestLineSafe(p: Parser, r: ReqState, c: Octet)
    requires p.errno == Ok && p.state == Req(r) && Sound(p, p.state, 1)
    ensures Invariant(RequestLine(p, r, c).parser)
  {
    hide ParseUrlChar, ParseUrlStart, OnMethod, OnStartReq, MethodName, OnUrl, RequestVersion;
    if r.StartReqOrRes? || r.ResOrRespH? || r.StartReq? || r.Method? {
      RequestStartSafe(p, r, c);
    } else if r.SpacesBeforeUrl? {
      OnUrlSafe(p, if p.verb == CONNECT then ParseUrlChar(ServerStart, c) else ParseUrlStart(c));
    } else {
      RequestHttpSafe(p, r, c);
    }
  }

  lemma {:induction false} OnUrlSafe(p: Parser, r: UrlResult)
    requires p.errno == Ok && p.contentLength <= ULLONG_MAX
    ensures Invariant(OnUrl(p, r).parser)
  {
  }

  lemma {:induction false} RequestUrlSafe(p: Parser, u: UrlState, c: Octet)
    requires p.errno == Ok && p.state == InUrl(u) && p.contentLength <= ULLONG_MAX
    ensures Invariant(RequestUrl(p, u, c).parser)
  {
    hide ParseUrlChar;
  }

  // ----- Headers -----

  lemma {:induction false} NewMessageSafe(p: Parser, stop: bool)
    requires p.errno == Ok && p.contentLength <= ULLONG_MAX
    ensures Invariant(Complete(p, stop).parser)
  {
    hide ShouldKeepAlive;
  }

  lemma {:induction false} FieldCharSafe(p: Parser, c: Octet, t: Octet)
    requires p.errno == Ok && p.state == Header(InField) && Sound(p, p.state, 1)
    ensures Invariant(FieldChar(p, c, t))
  {
    hide MatchWord, Increment;
  }

  lemma {:induction false} LengthDigitSafe(p: Parser, c: Octet)
    requires p.errno == Ok && p.state == Header(InValue) && p.contentLength <= ULLONG_MAX && ValueState(p.headerState)
    ensures Invariant(LengthDigit(p, c))
  {
  }

  lemma {:induction false} EncodingValueCharSafe(p: Parser, c: Octet)
    requires p.errno == Ok && p.state == Header(InValue) && p.contentLength <= ULLONG_MAX && ValueState(p.headerState)
    ensures Invariant(EncodingValueChar(p, c))
  {
    hide MatchWord, Increment, Lower, Token;
  }

  lemma {:induction false} ConnectionValueCharSafe(p: Parser, c: Octet)
    requires p.errno == Ok && p.state == Header(InValue) && p.contentLength <= ULLONG_MAX && ValueState(p.headerState)
    ensures Invariant(ConnectionValueChar(p, c))
  {
    hide MatchWord, Increment, Lower, Token, ConnectionToken, FinishedFlags;
  }

  lemma {:induction false} OtherValueCharSafe(p: Parser, c: Octet)
    requires p.errno == Ok && p.state == Header(InValue) && p.contentLength <= ULLONG_MAX && ValueState(p.headerState)
    ensures Invariant(OtherValueChar(p, c))
  {
    hide LengthDigit;
    LengthDigitSafe(p.(headerState := ContentLengthNum), c);
  }

  lemma {:induction false} ValueCharSafe(p: Parser, c: Octet)
    requires p.errno == Ok && p.state == Header(InValue) && p.contentLength <= ULLONG_MAX && ValueState(p.headerState)
    ensures Invariant(ValueChar(p, c))
  {
    hide OtherValueChar, EncodingValueChar, ConnectionValueChar, IsHeaderChar, InEncoding, InConnection;
    OtherValueCharSafe(p, c);
    EncodingValueCharSafe(p, c);
    ConnectionValueCharSafe(p, c);
  }

  lemma {:induction false} HeaderValueStartSafe(p: Parser, c: Octet)
    requires p.errno == Ok && p.contentLength <= ULLONG_MAX
    ensures Invariant(OnHeaderValueStart(p, c).parser)
  {
    hide Lower;
  }

  lemma {:induction false} HeadersDoneSafe(p: Parser, c: Octet)
    requires p.errno == Ok && p.state == Header(HeadersDone) && p.contentLength <= ULLONG_MAX
    ensures Invariant(OnHeadersDone(p, c).parser)
  {
    hide Complete, MessageNeedsEof;
    NewMessageSafe(p.(nread := 0), true);
    NewMessageSafe(p.(nread := 0), false);
  }

  lemma {:induction false} HeadersAlmostDoneSafe(s: Settings, p: Parser, c: Octet)
    requires p.errno == Ok && p.state == Header(HeadersAlmostDone) && p.contentLength <= ULLONG_MAX
    ensures Invariant(OnHeadersAlmostDone(s, p, c).parser)
  {
    hide Complete, OnHeadersDone, HeadersRead, Sound;
    NewMessageSafe(p.(state := Content(MessageDone)), p.upgrade);
    HeadersReadKeeps(s, p);
    HeadersDoneSafe(HeadersRead(s, p), c);
  }

  lemma {:induction false} HeadersReadKeeps(s: Settings, p: Parser)
    ensures var q := HeadersRead(s, p);
            q.state == Header(HeadersDone) && q.errno == p.errno && q.contentLength == p.contentLength
  {
  }

  lemma {:induction false} HeaderFieldStartSafe(s: Settings, p: Parser, c: Octet)
    requires p.errno == Ok && p.state == Header(FieldStart) && p.contentLength <= ULLONG_MAX
    ensures Invariant(OnHeaderFieldStart(s, p, c).parser)
  {
    hide OnHeadersAlmostDone, Token;
    HeadersAlmostDoneSafe(s, p.(state := Header(HeadersAlmostDone)), c);
  }

  /** A character of a name or a value, or its end. */
  lemma {:induction false} HeaderCharSafe(p: Parser, c: Octet)
    requires p.errno == Ok && p.contentLength <= ULLONG_MAX
    ensures p.state == Header(InField) && NameState(p.headerState) ==> Invariant(OnHeaderField(p, c).parser)
    ensures p.state == Header(InValue) && ValueState(p.headerState) ==> Invariant(OnHeaderValue(p, c).parser)
  {
    hide FieldChar, ValueChar, Token, NameState, ValueState, Invariant;
    UndemandingSafe(p.(state := Header(DiscardWs)));
    UndemandingSafe(p.(state := Header(AlmostDone)));
    UndemandingSafe(p.(state := Header(ValueLws)));
    UndemandingSafe(p.(errno := InvalidHeaderToken));
    if p.state == Header(InField) && NameState(p.headerState) { FieldCharSafe(p, c, Token(c)); }
    if p.state == Header(InValue) && ValueState(p.headerState) { ValueCharSafe(p, c); }
  }

  lemma {:induction false} DiscardSafe(s: Settings, p: Parser, h: HeadState, c: Octet)
    requires p.errno == Ok && p.state == Header(h) && p.contentLength <= ULLONG_MAX
    requires h.DiscardWs? || h.DiscardWsAlmostDone? || h.AlmostDone?
    ensures Invariant(HeaderLines(s, p, h, c).parser)
  {
    hide OnHeaderValueStart;
    HeaderValueStartSafe(p, c);
  }

  lemma {:induction false} FoldSafe(s: Settings, p: Parser, h: HeadState, c: Octet)
    requires p.errno == Ok && p.state == Header(h) && p.contentLength <= ULLONG_MAX && (h.DiscardLws? || h.ValueLws?)
    ensures Invariant(HeaderLines(s, p, h, c).parser)
  {
    hide OnHeaderFieldStart, OnHeaderValueStart, Invariant, FinishedFlags;
    UndemandingSafe(p.(state := Header(DiscardWs)));
    UndemandingSafe(p.(errno := InvalidContentLength));
    HeaderFieldStartSafe(s, FinishValue(p).(state := Header(FieldStart)), c);
    HeaderValueStartSafe(p.(headerState := if p.headerState == ContentLengthNum then ContentLengthWs
                                           else p.headerState), c);
  }

  lemma {:induction false} HeaderLinesSafe(s: Settings, p: Parser, h: HeadState, c: Octet)
    requires p.errno == Ok && p.state == Header(h) && Sound(p, p.state, 1)
    ensures Invariant(HeaderLines(s, p, h, c).parser)
  {
    hide OnHeaderFieldStart, OnHeaderField, OnHeaderValueStart, OnHeaderValue, OnHeadersAlmostDone, OnHeadersDone,
      NameState, ValueState, Invariant;
    match h
    case FieldStart => HeaderFieldStartSafe(s, p, c);
    case InField => HeaderCharSafe(p, c);
    case ValueStart => HeaderValueStartSafe(p, c);
    case InValue => HeaderCharSafe(p, c);
    case HeadersAlmostDone => HeadersAlmostDoneSafe(s, p, c);
    case HeadersDone => HeadersDoneSafe(p, c);
    case DiscardLws | ValueLws => FoldSafe(s, p, h, c);
    case _ => DiscardSafe(s, p, h, c);
  }

  // ----- Bodies -----

  /** The chunk size never wraps and never becomes the value that means "no length". */
  lemma {:induction false} ChunkSizeSafe(p: Parser, c: Octet)
    requires p.errno == Ok && p.state == Chunk(Size) && Sound(p, p.state, 1)
    ensures Invariant(OnChunkSize(p, c).parser)
  {
    hide Unhex;
    UnhexRange(c);
  }

  lemma {:induction false} UnhexRange(c: Octet)
    ensures -1 <= Unhex(c) <= 15
  {
  }

  lemma {:induction false} ChunkHeaderSafe(p: Parser, k: ChunkState, c: Octet)
    requires p.errno == Ok && p.state == Chunk(k) && Sound(p, p.state, 1)
    requires k.SizeStart? || k.Size? || k.Parameters? || k.SizeAlmostDone?
    ensures Invariant(ChunkStates(p, k, c).parser)
  {
    hide Unhex, OnChunkSize;
    UnhexRange(c);
    if k.Size? { ChunkSizeSafe(p, c); }
  }

  lemma {:induction false} ChunkDataSafe(p: Parser, k: ChunkState, c: Octet)
    requires p.errno == Ok && p.state == Chunk(k) && Sound(p, p.state, 0)
    requires k.Data? || k.DataAlmostDone? || k.DataDone?
    ensures Invariant(ChunkStates(p, k, c).parser)
  {
    hide Unhex, OnChunkSize;
  }

  lemma {:induction false} ChunkStatesSafe(p: Parser, k: ChunkState, c: Octet)
    requires p.errno == Ok && p.state == Chunk(k) && Sound(p, p.state, if p.state.ParsingHeader() then 1 else 0)
    ensures Invariant(ChunkStates(p, k, c).parser)
  {
    hide ChunkStates, Invariant;
    if k.Data? || k.DataAlmostDone? || k.DataDone? {
      ChunkDataSafe(p, k, c);
    } else {
      ChunkHeaderSafe(p, k, c);
    }
  }

  lemma {:induction false} ContentStatesSafe(p: Parser, b: ContentState, c: Octet)
    requires p.errno == Ok && p.state == Content(b) && Sound(p, p.state, 0)
    ensures Invariant(ContentStates(p, b, c).parser)
  {
    hide Complete;
    NewMessageSafe(p.(state := Content(MessageDone)), p.upgrade);
    if p.contentLength > 0 {
      NewMessageSafe(p.(contentLength := p.contentLength - 1, state := Content(MessageDone)), p.upgrade);
    }
  }

  // ----- Every step -----

  /** One byte, in any state, keeps the invariant and fails no assertion of the source. */
  lemma {:induction false} StepSafe(s: Settings, p: Parser, c: Octet)
    requires Invariant(p) && p.errno == Ok
    ensures Invariant(Step(s, p, c).parser)
  {
    hide ResponseLine, RequestLine, RequestUrl, HeaderLines, ChunkStates, ContentStates, MethodName, NameState;
    var q := Counted(p);
    match p.state
    case Dead =>
    case Res(r) => ResponseLineSafe(q, r, c);
    case Req(r) => RequestLineSafe(q, r, c);
    case InUrl(u) => RequestUrlSafe(q, u, c);
    case Header(h) => HeaderLinesSafe(s, q, h, c);
    case Chunk(k) => ChunkStatesSafe(q, k, c);
    case Content(b) => ContentStatesSafe(q, b, c);
  }
}

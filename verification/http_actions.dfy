/** Data callbacks are never open when another callback is made, and at most one is open at a time. */
module HttpActions {
  import opened HttpChars
  import opened HttpMachine
  import opened HttpRun
  import opened HttpScan
  import opened Options

  /** The data callback that is open after the actions; None when an action comes at a wrong moment. */
  function Track(open: Option<DataKind>, actions: Actions): Option<Option<DataKind>>
    decreases actions
  {
    match actions
    case Done => Some(open)
    case Then(Mark(k), rest) => if open.None? || open.value == k then Track(Some(k), rest) else None
    case Then(Close(k), rest) => if open.None? || open.value == k then Track(None, rest) else None
    case Then(Deliver(k), rest) => if open == Some(k) then Track(None, rest) else None
    case Then(Notify(_), rest) => if open.None? then Track(None, rest) else None
  }

  /** The data callbacks that may be open between bytes in state s. */
  predicate Fits(open: Option<DataKind>, s: State) {
    if StartOpen(s).Some? then open == StartOpen(s) else open.None? || (open == Some(Body) && BodyOpen(s))
  }

  predicate Orderly(open: Option<DataKind>, o: Outcome) {
    o.parser.errno == Ok ==>
      && Track(open, o.actions).Some?
      && Fits(Track(open, o.actions).value, o.parser.state)
      && (o.stop ==> Track(open, o.actions).value.None?)
  }

  /** One action before an orderly rest. */
  lemma {:induction false} AfterOrderly(open: Option<DataKind>, a: Action, o: Outcome)
    ensures match a
            case Mark(k) => (open.None? || open.value == k) && Orderly(Some(k), o) ==> Orderly(open, After(a, o))
            case Close(k) => (open.None? || open.value == k) && Orderly(None, o) ==> Orderly(open, After(a, o))
            case Deliver(k) => open == Some(k) && Orderly(None, o) ==> Orderly(open, After(a, o))
            case Notify(_) => open.None? && Orderly(None, o) ==> Orderly(open, After(a, o))
  {
  }

  /** The reason phrase, which may end where it begins. */
  lemma {:induction false} StatusTextOrderly(p: Parser, c: Octet)
    ensures p.state == Res(StatusText) ==> Orderly(Some(Status), OnStatus(p, c))
    ensures Orderly(None, OnStatusStart(p, c))
  {
  }

  lemma {:induction false} StatusCodeOrderly(p: Parser, c: Octet)
    requires p.state == Res(StatusCode)
    ensures Orderly(None, OnStatusCode(p, c))
  {
    hide IsNum, Digit, OnStatusStart, Orderly;
    StatusTextOrderly(p, c);
    if c == CR || c == LF {
      assert !IsNum(c) by { LineEndsAreNoDigits(); }
    } else {
      QuietOrderly(None, OnStatusCode(p, c));
    }
  }

  lemma {:induction false} LineEndsAreNoDigits()
    ensures !IsNum(CR) && !IsNum(LF)
  {
  }

  lemma {:induction false} GoOrderly(open: Option<DataKind>, p: Parser)
    requires Fits(open, p.state)
    ensures Orderly(open, Go(p))
  {
  }

  lemma {:induction false} FailOrderly(open: Option<DataKind>, p: Parser, e: Errno)
    requires e != Ok
    ensures Orderly(open, Fail(p, e))
  {
  }

  /** A byte that asks for no action. */
  lemma {:induction false} QuietOrderly(open: Option<DataKind>, o: Outcome)
    requires o.actions.Done? && !o.stop && (o.parser.errno == Ok ==> Fits(open, o.parser.state))
    ensures Orderly(open, o)
  {
  }

  lemma {:induction false} ResponseVersionOrderly(p: Parser, r: ResState, c: Octet)
    requires p.state == Res(r) && !r.StatusText?
    ensures Orderly(None, ResponseVersion(p, r, c))
  {
    hide IsNum, Digit, Orderly;
    QuietOrderly(None, ResponseVersion(p, r, c));
  }

  lemma {:induction false} StartResOrderly(p: Parser, c: Octet)
    requires p.state == Res(StartRes)
    ensures Orderly(None, ResponseLine(p, StartRes, c))
  {
    hide Orderly, Fresh;
    var q := Fresh(p).(state := Res(ResH));
    GoOrderly(None, p);
    GoOrderly(None, q);
    AfterOrderly(None, Notify(MessageBegin), Go(q));
    FailOrderly(None, Fresh(p), InvalidConstant);
  }

  lemma {:induction false} ResponseLiteralOrderly(p: Parser, r: ResState, c: Octet)
    requires r.ResH? || r.ResHT? || r.ResHTT? || r.ResHTTP? || r.ResLineAlmostDone?
    ensures Orderly(None, ResponseLine(p, r, c))
  {
    hide Orderly;
    QuietOrderly(None, ResponseLine(p, r, c));
  }

  lemma {:induction false} ResponseLineOrderly(p: Parser, r: ResState, c: Octet)
    requires p.state == Res(r)
    ensures Orderly(StartOpen(p.state), ResponseLine(p, r, c))
  {
    hide OnStatusCode, OnStatusStart, OnStatus, ResponseVersion, Orderly;
    match r
    case StartRes => StartResOrderly(p, c);
    case ResH | ResHT | ResHTT | ResHTTP | ResLineAlmostDone => ResponseLiteralOrderly(p, r, c);
    case StatusCode => StatusCodeOrderly(p, c);
    case StatusStart | StatusText => StatusTextOrderly(p, c);
    case _ => ResponseVersionOrderly(p, r, c);
  }

  lemma {:induction false} StartReqOrderly(p: Parser, c: Octet)
    requires p.state == Req(StartReq)
    ensures Orderly(None, OnStartReq(p, c))
  {
    hide MethodOfLetter;
  }

  lemma {:induction false} VersionOrderly(p: Parser, r: ReqState, c: Octet)
    requires p.state == Req(r)
    ensures Orderly(None, RequestVersion(p, r, c))
  {
    hide IsNum, Digit, Orderly;
    QuietOrderly(None, RequestVersion(p, r, c));
  }

  lemma {:induction false} MethodOrderly(p: Parser, c: Octet)
    requires p.state == Req(Method)
    ensures Orderly(None, OnMethod(p, c))
  {
    hide MethodName, OtherMethod;
  }

  lemma {:induction false} UrlStartOrderly(p: Parser, c: Octet)
    requires p.state == Req(SpacesBeforeUrl)
    ensures Orderly(None, RequestLine(p, SpacesBeforeUrl, c))
  {
    hide ParseUrlChar, ParseUrlStart, Orderly;
    var o := OnUrl(p, if p.verb == CONNECT then ParseUrlChar(ServerStart, c) else ParseUrlStart(c));
    GoOrderly(None, p);
    QuietOrderly(Some(Url), o);
    AfterOrderly(None, Mark(Url), o);
  }

  lemma {:induction false} RequestStartOrderly(p: Parser, c: Octet)
    requires p.state == Req(StartReqOrRes)
    ensures Orderly(None, RequestLine(p, StartReqOrRes, c))
  {
    hide OnStartReq, Fresh, Orderly;
    var q := Fresh(p).(state := Req(ResOrRespH));
    GoOrderly(None, p);
    GoOrderly(None, q);
    AfterOrderly(None, Notify(MessageBegin), Go(q));
    StartReqOrderly(Fresh(p).(kind := Request, state := Req(StartReq)), c);
  }

  lemma {:induction false} RequestHttpOrderly(p: Parser, r: ReqState, c: Octet)
    requires p.state == Req(r)
    requires r.ResOrRespH? || r.HttpStart? || r.HttpH? || r.HttpHT? || r.HttpHTT? || r.HttpHTTP? || r.HttpI? ||
             r.HttpIC?
    ensures Orderly(None, RequestLine(p, r, c))
  {
    hide Orderly;
    QuietOrderly(None, RequestLine(p, r, c));
  }

  lemma {:induction false} RequestLineOrderly(p: Parser, r: ReqState, c: Octet)
    requires p.state == Req(r)
    ensures Orderly(None, RequestLine(p, r, c))
  {
    hide OnStartReq, OnMethod, RequestVersion, OnUrl, Fresh, Orderly;
    match r
    case StartReqOrRes => RequestStartOrderly(p, c);
    case StartReq => StartReqOrderly(p, c);
    case Method => MethodOrderly(p, c);
    case SpacesBeforeUrl => UrlStartOrderly(p, c);
    case ResOrRespH | HttpStart | HttpH | HttpHT | HttpHTT | HttpHTTP | HttpI | HttpIC => RequestHttpOrderly(p, r, c);
    case _ => VersionOrderly(p, r, c);
  }

  lemma {:induction false} RequestUrlOrderly(p: Parser, u: UrlState, c: Octet)
    requires p.state == InUrl(u)
    ensures Orderly(Some(Url), RequestUrl(p, u, c))
  {
    hide ParseUrlChar;
  }

  lemma {:induction false} CompleteOrderly(p: Parser, stop: bool)
    ensures Orderly(None, Complete(p, stop))
  {
    hide ShouldKeepAlive;
  }

  lemma {:induction false} HeadersDoneOrderly(p: Parser, c: Octet)
    ensures Orderly(None, OnHeadersDone(p, c))
  {
    hide Complete, MessageNeedsEof;
    CompleteOrderly(p.(nread := 0), true);
    CompleteOrderly(p.(nread := 0), false);
  }

  lemma {:induction false} HeadersAlmostDoneOrderly(s: Settings, p: Parser, c: Octet)
    ensures Orderly(None, OnHeadersAlmostDone(s, p, c))
  {
    hide Complete, OnHeadersDone, HeadersRead;
    CompleteOrderly(p.(state := Content(MessageDone)), p.upgrade);
    HeadersDoneOrderly(HeadersRead(s, p), c);
  }

  lemma {:induction false} HeaderFieldStartOrderly(s: Settings, p: Parser, c: Octet)
    requires p.state == Header(FieldStart)
    ensures Orderly(None, OnHeaderFieldStart(s, p, c))
  {
    hide OnHeadersAlmostDone, Token;
    HeadersAlmostDoneOrderly(s, p.(state := Header(HeadersAlmostDone)), c);
  }

  lemma {:induction false} HeaderValueStartOrderly(p: Parser, c: Octet)
    ensures Orderly(None, OnHeaderValueStart(p, c))
  {
    hide Lower, FirstValueState;
  }

  /** After a value that may go on in the next line. */
  lemma {:induction false} FoldOrderly(s: Settings, p: Parser, h: HeadState, c: Octet)
    requires p.state == Header(h) && (h.DiscardLws? || h.ValueLws?)
    ensures Orderly(None, HeaderLines(s, p, h, c))
  {
    hide OnHeaderFieldStart, OnHeaderValueStart, Orderly, FinishValue;
    var q := FinishValue(p).(state := Header(FieldStart));
    HeaderFieldStartOrderly(s, q, c);
    AfterOrderly(Some(Value), Close(Value), OnHeaderFieldStart(s, q, c));
    AfterOrderly(None, Mark(Value), After(Close(Value), OnHeaderFieldStart(s, q, c)));
    HeaderValueStartOrderly(p.(headerState := if p.headerState == ContentLengthNum then ContentLengthWs
                                              else p.headerState), c);
    GoOrderly(None, p.(state := Header(DiscardWs)));
    FailOrderly(None, p, InvalidContentLength);
  }

  lemma {:induction false} DiscardOrderly(s: Settings, p: Parser, c: Octet)
    requires p.state == Header(DiscardWs)
    ensures Orderly(None, HeaderLines(s, p, DiscardWs, c))
  {
    hide OnHeaderValueStart, Orderly;
    HeaderValueStartOrderly(p, c);
    GoOrderly(None, p);
    GoOrderly(None, p.(state := Header(DiscardWsAlmostDone)));
    GoOrderly(None, p.(state := Header(DiscardLws)));
  }

  lemma {:induction false} FieldOrderly(p: Parser, c: Octet)
    requires p.state == Header(InField)
    ensures Orderly(Some(Field), OnHeaderField(p, c))
  {
    hide Token, NextNameState;
  }

  lemma {:induction false} ValueOrderly(p: Parser, c: Octet)
    requires p.state == Header(InValue)
    ensures Orderly(Some(Value), OnHeaderValue(p, c))
  {
    hide ValueChar;
    ValueCharKeeps(p, c, 0);
  }

  lemma {:induction false} HeaderLinesOrderly(s: Settings, p: Parser, h: HeadState, c: Octet)
    requires p.state == Header(h)
    ensures Orderly(StartOpen(p.state), HeaderLines(s, p, h, c))
  {
    hide OnHeaderFieldStart, OnHeaderValueStart, OnHeadersAlmostDone, OnHeadersDone, OnHeaderField, OnHeaderValue,
      Orderly;
    match h
    case FieldStart => HeaderFieldStartOrderly(s, p, c);
    case InField => FieldOrderly(p, c);
    case DiscardWs => DiscardOrderly(s, p, c);
    case DiscardLws => FoldOrderly(s, p, h, c);
    case ValueStart => HeaderValueStartOrderly(p, c);
    case InValue => ValueOrderly(p, c);
    case ValueLws => FoldOrderly(s, p, h, c);
    case HeadersAlmostDone => HeadersAlmostDoneOrderly(s, p, c);
    case HeadersDone => HeadersDoneOrderly(p, c);
    case DiscardWsAlmostDone =>
      GoOrderly(None, p.(state := Header(DiscardLws)));
      FailOrderly(None, p, Strict);
    case AlmostDone =>
      GoOrderly(None, p.(state := Header(ValueLws)));
      FailOrderly(None, p, LfExpected);
  }

  lemma {:induction false} ChunkSizeOrderly(p: Parser, c: Octet)
    requires p.state == Chunk(Size)
    ensures Orderly(None, OnChunkSize(p, c))
  {
    hide Unhex;
  }

  /** Chunk data, and the line end behind it. */
  lemma {:induction false} ChunkDataOrderly(p: Parser, k: ChunkState, c: Octet, open: Option<DataKind>)
    requires p.state == Chunk(k) && Fits(open, p.state) && p.flags.chunked
    requires k.Data? || k.DataAlmostDone? || k.DataDone?
    ensures Orderly(open, ChunkStates(p, k, c))
  {
    hide Orderly;
    FailOrderly(open, p, AssertionFailed);
    FailOrderly(open, p, Strict);
    if k.Data? {
      if p.contentLength > 0 {
        var q := p.(contentLength := p.contentLength - 1);
        var to := q.(state := if q.contentLength == 0 then Chunk(DataAlmostDone) else p.state);
        GoOrderly(Some(Body), to);
        AfterOrderly(open, Mark(Body), Go(to));
      }
    } else if k.DataAlmostDone? {
      var q := p.(state := Chunk(DataDone));
      GoOrderly(None, q);
      AfterOrderly(open, Close(Body), Go(q));
    } else {
      var q := p.(nread := 0, state := Chunk(SizeStart));
      GoOrderly(None, q);
      AfterOrderly(open, Notify(ChunkComplete), Go(q));
    }
  }

  lemma {:induction false} ChunkHeaderOrderly(p: Parser, k: ChunkState, c: Octet)
    requires p.state == Chunk(k) && p.flags.chunked && (k.SizeStart? || k.Parameters? || k.SizeAlmostDone?)
    ensures Orderly(None, ChunkStates(p, k, c))
  {
    hide Unhex, Orderly;
    FailOrderly(None, p, AssertionFailed);
    FailOrderly(None, p, InvalidChunkSize);
    FailOrderly(None, p, Strict);
    if k.SizeStart? {
      if Unhex(c) >= 0 { GoOrderly(None, p.(contentLength := Unhex(c), state := Chunk(Size))); }
    } else if k.Parameters? {
      GoOrderly(None, p);
      GoOrderly(None, p.(state := Chunk(SizeAlmostDone)));
    } else {
      var r := ChunkStates(p, k, LF).parser;
      GoOrderly(None, r);
      AfterOrderly(None, Notify(ChunkHeader(p.contentLength)), Go(r));
    }
  }

  lemma {:induction false} ChunkStatesOrderly(p: Parser, k: ChunkState, c: Octet, open: Option<DataKind>)
    requires p.state == Chunk(k) && Fits(open, p.state)
    ensures Orderly(open, ChunkStates(p, k, c))
  {
    hide OnChunkSize, Orderly;
    if !p.flags.chunked {
      FailOrderly(open, p, AssertionFailed);
    } else if k.Size? {
      ChunkSizeOrderly(p, c);
    } else if k.Data? || k.DataAlmostDone? || k.DataDone? {
      ChunkDataOrderly(p, k, c, open);
    } else {
      ChunkHeaderOrderly(p, k, c);
    }
  }

  lemma {:induction false} ContentStatesOrderly(p: Parser, b: ContentState, c: Octet, open: Option<DataKind>)
    requires p.state == Content(b) && Fits(open, p.state)
    ensures Orderly(open, ContentStates(p, b, c))
  {
    hide Complete;
    CompleteOrderly(p.(state := Content(MessageDone)), p.upgrade);
    CompleteOrderly(p, p.upgrade);
    if b.Identity? && p.contentLength > 0 {
      var q := p.(contentLength := p.contentLength - 1);
      var done := OnMessageDone(q.(state := Content(MessageDone)));
      CompleteOrderly(q.(state := Content(MessageDone)), p.upgrade);
      AfterOrderly(Some(Body), Deliver(Body), done);
      AfterOrderly(open, Mark(Body), After(Deliver(Body), done));
      AfterOrderly(open, Mark(Body), Go(q));
    }
  }

  /** In every state, whatever data callback is open, the actions of one byte come in a legal order. */
  lemma {:induction false} DispatchOrderly(s: Settings, p: Parser, c: Octet, open: Option<DataKind>)
    requires Fits(open, p.state)
    ensures Orderly(open, Dispatch(s, p, c))
  {
    hide ResponseLine, RequestLine, RequestUrl, HeaderLines, ChunkStates, ContentStates, Track;
    match p.state
    case Dead => DeadOrderly(p, c);
    case Res(r) => ResponseLineOrderly(p, r, c);
    case Req(r) => RequestLineOrderly(p, r, c);
    case InUrl(u) => RequestUrlOrderly(p, u, c);
    case Header(h) => HeaderLinesOrderly(s, p, h, c);
    case Chunk(k) => ChunkStatesOrderly(p, k, c, open);
    case Content(b) => ContentStatesOrderly(p, b, c, open);
  }

  lemma {:induction false} DeadOrderly(p: Parser, c: Octet)
    requires p.state == Dead
    ensures Orderly(None, Go(p)) && Orderly(None, Fail(p, ClosedConnection))
  {
  }
}

/** Status lines (RFC 7230, section 3.1.2), and a parser that waits for either kind of message. */
module HttpStatus {
  import opened HttpChars
  import opened HttpMachine
  import opened HttpRun
  import opened HttpScan
  import opened HttpChunks
  import opened HttpMethods
  import opened HttpRequest
  import opened Options

  // ----- Status lines -----

  /** The code is any number of digits, with a value of at most 999. */
  datatype StatusLine = StatusLine(major: Octet, minor: Octet, code: seq<Octet>, reason: seq<Octet>)

  predicate IsReason(t: seq<Octet>) { forall i :: 0 <= i < |t| ==> t[i] != CR && t[i] != LF }

  predicate ProperStatus(l: StatusLine) {
    && IsNum(l.major) && IsNum(l.minor) && l.code != [] && DecimalDigits(l.code) && DecimalValue(l.code) <= 999
    && IsReason(l.reason)
  }

  function ResVersion(l: StatusLine): seq<Octet> { [l.major, '.', l.minor, ' '] }

  function StatusLineText(l: StatusLine): seq<Octet> { HTTP + ResVersion(l) + l.code + SPACE + l.reason + CRLF }

  predicate AtResponse(p: Parser) { p.errno == Ok && p.state == Res(StartRes) }

  lemma {:induction false} ResponseStep(s: Settings, p: Parser, r: ResState, c: Octet)
    requires p.errno == Ok && p.state == Res(r) && p.nread + 1 <= s.maxHeaderSize
    ensures Step(s, p, c) == ResponseLine(p.(nread := p.nread + 1), r, c)
  {
    hide ResponseLine;
  }

  /** A byte of the status line that only moves the parser on. */
  lemma {:induction false} ResMoves(s: Settings, m: Machine, data: seq<Octet>, n: nat, p: Parser, log: seq<Event>,
                                    r: ResState, q: Parser)
    requires n < |data| && At(s, m, data, n, p, log) && p.state == Res(r) && p.nread + 1 <= s.maxHeaderSize
    requires !r.StatusText?
    requires p.errno == Ok && ResponseLine(p.(nread := p.nread + 1), r, data[n]) == Go(q) && q.errno == Ok
    ensures At(s, m, data, n + 1, q, log)
  {
    hide Step, ResponseLine, At;
    ResponseStep(s, p, r, data[n]);
    Quiet(s, m, data, n, p, log);
  }

  function ResWord(k: nat): ResState {
    match k
    case 1 => ResH
    case 2 => ResHT
    case 3 => ResHTT
    case 4 => ResHTTP
    case _ => ResHttpMajor
  }

  lemma {:induction false} ResWordStep(p: Parser, k: nat)
    requires 1 <= k < 5
    ensures ResponseLine(p, ResWord(k), HTTP[k]) == Go(p.(state := Res(ResWord(k + 1))))
    ensures !ResWord(k).StatusText?
  {
  }

  /** `HTTP/` announces a message. */
  lemma {:induction false} ResHttpRead(s: Settings, m: Machine, data: seq<Octet>, o: nat, p: Parser, log: seq<Event>,
                                       k: nat)
    requires o <= |data| && At(s, m, data, o, p, log) && AtResponse(p) && Here(data, o, HTTP)
    requires 1 <= k <= 5 && p.nread + k <= s.maxHeaderSize
    ensures At(s, m, data, o + k, Fresh(p).(state := Res(ResWord(k)), nread := p.nread + k), log + [Note(MessageBegin)])
  {
    hide At, Run, ResponseLine, ResWord;
    HereAt(data, o, HTTP, k - 1);
    if k == 1 {
      ResBegins(s, m, data, o, p, log);
    } else {
      ResHttpRead(s, m, data, o, p, log, k - 1);
      var q := Fresh(p).(state := Res(ResWord(k - 1)), nread := p.nread + (k - 1));
      ResWordStep(q.(nread := p.nread + k), k - 1);
      ResMoves(s, m, data, o + k - 1, q, log + [Note(MessageBegin)], ResWord(k - 1),
               Fresh(p).(state := Res(ResWord(k)), nread := p.nread + k));
    }
  }

  lemma {:induction false} ResBegins(s: Settings, m: Machine, data: seq<Octet>, o: nat, p: Parser, log: seq<Event>)
    requires o < |data| && At(s, m, data, o, p, log) && AtResponse(p) && data[o] == 'H'
    requires p.nread + 1 <= s.maxHeaderSize
    ensures At(s, m, data, o + 1, Fresh(p).(state := Res(ResWord(1)), nread := p.nread + 1), log + [Note(MessageBegin)])
  {
    hide Step, Run, Fails, Report;
    AtNext(s, m, data, o, p, log);
    ResponseStep(s, p, StartRes, 'H');
    ReportNote(log, MessageBegin, 'H');
  }

  /** The parser after the first k bytes of the version. */
  function ResVersionAt(p: Parser, l: StatusLine, k: nat): Parser
    requires ProperStatus(l)
  {
    p.(state := match k
                case 0 => Res(ResHttpMajor)
                case 1 => Res(ResHttpDot)
                case 2 => Res(ResHttpMinor)
                case 3 => Res(ResHttpEnd)
                case _ => Res(FirstStatusCode),
       major := if k > 0 then Digit(l.major) else p.major, minor := if k > 2 then Digit(l.minor) else p.minor,
       nread := p.nread + k)
  }

  lemma {:induction false} ResVersionStep(p: Parser, l: StatusLine, k: nat)
    requires k < 4 && ProperStatus(l)
    ensures p.state == Res(ResHttpMajor) ==> ResVersionAt(p, l, 0) == p
    ensures var q := ResVersionAt(p, l, k);
            && q.state.Res? && !q.state.res.StatusText? && q.errno == p.errno && q.nread == p.nread + k
            && ResponseLine(q.(nread := q.nread + 1), q.state.res, ResVersion(l)[k]) == Go(ResVersionAt(p, l, k + 1))
    ensures ResVersionAt(p, l, k + 1).errno == p.errno
  {
    hide IsNum, Digit, DecimalValue, DecimalDigits, IsReason;
  }

  lemma {:induction false} ResVersionRead(s: Settings, m: Machine, data: seq<Octet>, o: nat, p: Parser, log: seq<Event>,
                                          l: StatusLine, k: nat)
    requires o <= |data| && At(s, m, data, o, p, log) && p.errno == Ok && p.state == Res(ResHttpMajor)
    requires ProperStatus(l)
    requires Here(data, o, ResVersion(l)) && k <= 4 && p.nread + k <= s.maxHeaderSize
    ensures At(s, m, data, o + k, ResVersionAt(p, l, k), log)
  {
    hide At, Run, ResponseLine, ResVersionAt, ProperStatus;
    ResVersionStep(p, l, if k > 0 then k - 1 else 0);
    if k > 0 {
      ResVersionRead(s, m, data, o, p, log, l, k - 1);
      HereAt(data, o, ResVersion(l), k - 1);
      var q := ResVersionAt(p, l, k - 1);
      ResMoves(s, m, data, o + k - 1, q, log, q.state.res, ResVersionAt(p, l, k));
    }
  }

  /** More digits never make the value smaller. */
  lemma {:induction false} CodeGrows(ds: seq<Octet>, n: nat)
    requires DecimalDigits(ds) && n <= |ds|
    ensures DecimalValue(ds[..n]) <= DecimalValue(ds)
    decreases |ds| - n
  {
    hide IsNum, Digit, DecimalValue;
    if n == |ds| {
      assert ds[..n] == ds;
    } else {
      CodeGrows(ds, n + 1);
      OneDigit(ds, n + 1);
    }
  }

  /** The parser after k digits of the code. */
  function InCode(p: Parser, ds: seq<Octet>, k: nat): Parser
    requires DecimalDigits(ds) && 0 < k <= |ds|
  {
    p.(state := Res(StatusCode), statusCode := DecimalValue(ds[..k]), nread := p.nread + k)
  }

  lemma {:induction false} CodeRead(s: Settings, m: Machine, data: seq<Octet>, o: nat, p: Parser, log: seq<Event>,
                                    ds: seq<Octet>, k: nat)
    requires o <= |data| && At(s, m, data, o, p, log) && p.errno == Ok && p.state == Res(FirstStatusCode)
    requires DecimalDigits(ds) && DecimalValue(ds) <= 999 && Here(data, o, ds) && 0 < k <= |ds|
    requires p.nread + k <= s.maxHeaderSize
    ensures At(s, m, data, o + k, InCode(p, ds, k), log)
  {
    hide At, Run, ResponseLine, IsNum, Digit, DecimalValue;
    HereAt(data, o, ds, k - 1);
    OneDigit(ds, k);
    CodeGrows(ds, k);
    if k == 1 {
      NoDigits();
      assert ds[..0] == [];
      CodeStep(p.(nread := p.nread + 1), ds[0]);
      ResMoves(s, m, data, o, p, log, FirstStatusCode, InCode(p, ds, 1));
    } else {
      CodeRead(s, m, data, o, p, log, ds, k - 1);
      var q := InCode(p, ds, k - 1);
      CodeStep(q.(nread := p.nread + k), ds[k - 1]);
      ResMoves(s, m, data, o + k - 1, q, log, StatusCode, InCode(p, ds, k));
    }
  }

  lemma {:induction false} CodeStep(p: Parser, c: Octet)
    requires IsNum(c)
    ensures ResponseLine(p, FirstStatusCode, c) == Go(p.(statusCode := Digit(c), state := Res(StatusCode)))
    ensures 10 * p.statusCode + Digit(c) <= 999 ==>
              ResponseLine(p, StatusCode, c) == Go(p.(statusCode := 10 * p.statusCode + Digit(c)))
  {
  }

  /** The reason, which may be empty, and the carriage return after it. */
  lemma {:induction false} ReasonRead(s: Settings, m: Machine, data: seq<Octet>, o: nat, p: Parser, log: seq<Event>,
                                      t: seq<Octet>)
    requires o <= |data| && At(s, m, data, o, p, log) && p.errno == Ok && p.state == Res(StatusStart) && IsReason(t)
    requires Here(data, o, t + CRLF) && p.nread + |t| + 2 <= s.maxHeaderSize && !LastIs(log, Status)
    ensures o + |t| + 2 <= |data|
    ensures At(s, m, data, o + |t| + 2, p.(state := Header(FieldStart), index := 0, nread := p.nread + |t| + 2),
               log + [Piece(Status, t)])
  {
    hide At, Run, Step, ResponseLine, Push, LastIs;
    HereSplit(data, o, t, CRLF);
    HereInside(data, o + |t|, CRLF);
    HereAt(data, o + |t|, CRLF, 0);
    HereAt(data, o + |t|, CRLF, 1);
    var n := |t|;
    var q := p.(state := Res(ResLineAlmostDone), index := 0, nread := p.nread + n + 1);
    if n == 0 { NoReason(s, m, data, o, p, log); } else { SomeReason(s, m, data, o, p, log, t); }
    ReasonSteps(q.(nread := p.nread + n + 2), LF);
    ResMoves(s, m, data, o + n + 1, q, log + [Piece(Status, t)], ResLineAlmostDone,
             q.(state := Header(FieldStart), nread := p.nread + n + 2));
  }

  lemma {:induction false} SomeReason(s: Settings, m: Machine, data: seq<Octet>, o: nat, p: Parser, log: seq<Event>,
                                      t: seq<Octet>)
    requires o <= |data| && At(s, m, data, o, p, log) && p.errno == Ok && p.state == Res(StatusStart) && IsReason(t)
    requires t != [] && Here(data, o, t) && o + |t| < |data| && data[o + |t|] == CR
    requires p.nread + |t| + 1 <= s.maxHeaderSize && !LastIs(log, Status)
    ensures At(s, m, data, o + |t| + 1, p.(state := Res(ResLineAlmostDone), index := 0, nread := p.nread + |t| + 1),
               log + [Piece(Status, t)])
  {
    hide At, Run, Step, ResponseLine, Push, LastIs;
    var n := |t|;
    InReason(s, m, data, o, p, log, t, n);
    assert t[..n] == t;
    PushNew(log, Status, t);
    var r := p.(state := Res(StatusText), index := 0, nread := p.nread + n);
    ResponseStep(s, r, StatusText, CR);
    ReasonSteps(r.(nread := p.nread + n + 1), CR);
    Closes(s, m, data, o + n, r, log + [Piece(Status, t)], Status);
  }

  lemma {:induction false} ReasonSteps(p: Parser, c: Octet)
    ensures c != CR && c != LF ==>
              ResponseLine(p, StatusStart, c) == After(Mark(Status), Go(p.(state := Res(StatusText), index := 0)))
    ensures c != CR && c != LF ==> ResponseLine(p, StatusText, c) == Go(p)
    ensures ResponseLine(p, StatusText, CR) == After(Close(Status), To(p, Res(ResLineAlmostDone)))
    ensures ResponseLine(p, StatusStart, CR)
            == After(Mark(Status), After(Close(Status), To(p.(index := 0), Res(ResLineAlmostDone))))
    ensures ResponseLine(p, ResLineAlmostDone, LF) == To(p, Header(FieldStart))
  {
  }

  lemma {:induction false} NoReason(s: Settings, m: Machine, data: seq<Octet>, o: nat, p: Parser, log: seq<Event>)
    requires o < |data| && At(s, m, data, o, p, log) && p.errno == Ok && p.state == Res(StatusStart) && data[o] == CR
    requires p.nread + 1 <= s.maxHeaderSize && !LastIs(log, Status)
    ensures At(s, m, data, o + 1, p.(state := Res(ResLineAlmostDone), index := 0, nread := p.nread + 1),
               log + [Piece(Status, [])])
  {
    hide Run, Fails, Step, ResponseLine;
    AtNext(s, m, data, o, p, log);
    ResponseStep(s, p, StatusStart, CR);
    ReasonSteps(p.(nread := p.nread + 1), CR);
    ReportNoReason(log, CR);
  }

  lemma {:induction false} ReportNoReason(log: seq<Event>, c: Octet)
    requires !LastIs(log, Status)
    ensures Report(log, None, Then(Mark(Status), Then(Close(Status), Done)), c) == log + [Piece(Status, [])]
  {
    hide LastIs;
    PushNew(log, Status, []);
  }

  lemma {:induction false} InReason(s: Settings, m: Machine, data: seq<Octet>, o: nat, p: Parser, log: seq<Event>,
                                    t: seq<Octet>, n: nat)
    requires o <= |data| && At(s, m, data, o, p, log) && p.errno == Ok && p.state == Res(StatusStart) && IsReason(t)
    requires Here(data, o, t) && 0 < n <= |t| && p.nread + n <= s.maxHeaderSize
    ensures At(s, m, data, o + n, p.(state := Res(StatusText), index := 0, nread := p.nread + n),
               Push(log, Piece(Status, t[..n])))
  {
    hide At, Run, Step, ResponseLine, Push;
    var c := t[n - 1];
    HereAt(data, o, t, n - 1);
    assert c != CR && c != LF;
    if n == 1 {
      ResponseStep(s, p, StatusStart, c);
      ReasonSteps(p.(nread := p.nread + 1), c);
      Opens(s, m, data, o, p, log, Status);
      assert t[..1] == [c];
    } else {
      InReason(s, m, data, o, p, log, t, n - 1);
      var q := p.(state := Res(StatusText), index := 0, nread := p.nread + (n - 1));
      ResponseStep(s, q, StatusText, c);
      ReasonSteps(q.(nread := p.nread + n), c);
      Continues(s, m, data, o + n - 1, q, Push(log, Piece(Status, t[..n - 1])), Status);
      PushTwice(log, Status, t[..n - 1], [c]);
      assert t[..n] == t[..n - 1] + [c];
    }
  }

  /** The parser at the first header line of a response. */
  function AfterStatus(p: Parser, l: StatusLine): Parser
    requires ProperStatus(l)
  {
    Fresh(p).(state := Header(FieldStart), index := 0, major := Digit(l.major), minor := Digit(l.minor),
              statusCode := DecimalValue(l.code), nread := p.nread + |StatusLineText(l)|)
  }

  /** A status line is reported as the beginning of a message and its reason. */
  lemma {:induction false} StatusLineRead(s: Settings, m: Machine, data: seq<Octet>, o: nat, p: Parser, log: seq<Event>,
                                          l: StatusLine)
    requires o <= |data| && At(s, m, data, o, p, log) && AtResponse(p) && ProperStatus(l)
    requires Here(data, o, StatusLineText(l)) && p.nread + |StatusLineText(l)| <= s.maxHeaderSize
    ensures o + |StatusLineText(l)| <= |data|
    ensures At(s, m, data, o + |StatusLineText(l)|, AfterStatus(p, l),
               log + [Note(MessageBegin), Piece(Status, l.reason)])
  {
    hide At, Run, Step, ResponseLine, IsReason, Here, Digit, IsNum, DecimalValue;
    HereInside(data, o, StatusLineText(l));
    var n := |l.code|;
    var front := HTTP + ResVersion(l) + l.code + SPACE;
    assert StatusLineText(l) == front + (l.reason + CRLF);
    HereSplit(data, o, front, l.reason + CRLF);
    HereSplit(data, o, HTTP + ResVersion(l) + l.code, SPACE);
    HereSplit(data, o, HTTP + ResVersion(l), l.code);
    HereSplit(data, o, HTTP, ResVersion(l));
    HereAt(data, o + 9 + n, SPACE, 0);
    HereInside(data, o + 9 + n, SPACE);
    var log1 := log + [Note(MessageBegin)];
    ResHttpRead(s, m, data, o, p, log, 5);
    var p1 := Fresh(p).(state := Res(ResWord(5)), nread := p.nread + 5);
    ResVersionRead(s, m, data, o + 5, p1, log1, l, 4);
    var p2 := ResVersionAt(p1, l, 4);
    CodeRead(s, m, data, o + 9, p2, log1, l.code, n);
    assert l.code[..n] == l.code;
    var p3 := InCode(p2, l.code, n);
    SpaceStep(p3.(nread := p3.nread + 1));
    var p4 := p3.(state := Res(StatusStart), nread := p3.nread + 1);
    ResMoves(s, m, data, o + 9 + n, p3, log1, StatusCode, p4);
    NoStatusYet(log);
    ReasonRead(s, m, data, o + 10 + n, p4, log1, l.reason);
    assert log1 + [Piece(Status, l.reason)] == log + [Note(MessageBegin), Piece(Status, l.reason)];
  }

  lemma {:induction false} NoStatusYet(log: seq<Event>)
    ensures !LastIs(log + [Note(MessageBegin)], Status)
  {
  }

  lemma {:induction false} SpaceStep(p: Parser)
    ensures ResponseLine(p, StatusCode, ' ') == To(p, Res(StatusStart))
  {
  }

  // ----- A parser for either kind -----

  function AsRequest(p: Parser): Parser { p.(kind := Request, state := Req(StartReq)) }

  function AsResponse(p: Parser): Parser { p.(kind := Response, state := Res(StartRes)) }

  predicate AtEither(p: Parser) { p.errno == Ok && p.kind == Both && p.state == Req(StartReqOrRes) }

  /** A first byte other than H leads a parser for both kinds to where it leads one for requests. */
  lemma {:induction false} RequestStarts(s: Settings, p: Parser, c: Octet)
    requires AtEither(p) && p.nread + 1 <= s.maxHeaderSize && c != CR && c != LF && c != 'H'
    ensures Step(s, p, c) == Step(s, AsRequest(p), c)
  {
    hide RequestLine, Step;
    RequestStep(s, p, StartReqOrRes, c);
    RequestStep(s, AsRequest(p), StartReq, c);
    EitherLine(p.(nread := p.nread + 1), c);
  }

  lemma {:induction false} EitherLine(p: Parser, c: Octet)
    requires c != CR && c != LF
    ensures c != 'H' ==> RequestLine(p, StartReqOrRes, c) == RequestLine(AsRequest(p), StartReq, c)
    ensures RequestLine(p, StartReqOrRes, 'H') == After(Notify(MessageBegin), To(Fresh(p), Req(ResOrRespH)))
    ensures RequestLine(AsRequest(p), StartReq, 'H')
            == After(Notify(MessageBegin), To(Fresh(AsRequest(p)).(verb := HEAD, index := 1), Req(Method)))
    ensures ResponseLine(AsResponse(p), StartRes, 'H')
            == After(Notify(MessageBegin), To(Fresh(AsResponse(p)), Res(ResH)))
  {
    hide MethodOfLetter;
    assert MethodOfLetter('H') == HEAD by { HeadLetter(); }
  }

  lemma {:induction false} HeadLetter()
    ensures MethodOfLetter('H') == HEAD
  {
  }

  /** `HT` leads it to where it leads one for responses, and `HE` to where it leads one for requests. */
  lemma {:induction false} EitherStarts(s: Settings, p: Parser)
    requires AtEither(p) && p.nread + 2 <= s.maxHeaderSize
    ensures Step(s, p, 'H').actions == Step(s, AsRequest(p), 'H').actions == Step(s, AsResponse(p), 'H').actions
    ensures Step(s, Step(s, p, 'H').parser, 'T') == Step(s, Step(s, AsResponse(p), 'H').parser, 'T')
    ensures Step(s, Step(s, p, 'H').parser, 'E') == Step(s, Step(s, AsRequest(p), 'H').parser, 'E')
  {
    hide RequestLine, ResponseLine, Step;
    var q := p.(nread := p.nread + 1);
    RequestStep(s, p, StartReqOrRes, 'H');
    RequestStep(s, AsRequest(p), StartReq, 'H');
    ResponseStep(s, AsResponse(p), StartRes, 'H');
    EitherLine(q, 'H');
    var both := Fresh(q).(state := Req(ResOrRespH));
    var request := Fresh(AsRequest(q)).(verb := HEAD, index := 1, state := Req(Method));
    var response := Fresh(AsResponse(q)).(state := Res(ResH));
    RequestStep(s, both, ResOrRespH, 'T');
    RequestStep(s, both, ResOrRespH, 'E');
    RequestStep(s, request, Method, 'E');
    ResponseStep(s, response, ResH, 'T');
    SecondLetter(both.(nread := p.nread + 2), request.(nread := p.nread + 2), response.(nread := p.nread + 2));
  }

  lemma {:induction false} SecondLetter(both: Parser, request: Parser, response: Parser)
    requires request == both.(kind := Request, state := Req(Method), verb := HEAD, index := 1)
    requires response == both.(kind := Response, state := Res(ResH))
    ensures RequestLine(both, ResOrRespH, 'T') == ResponseLine(response, ResH, 'T')
    ensures RequestLine(both, ResOrRespH, 'E') == RequestLine(request, Method, 'E')
  {
    assert MethodName(HEAD) == "HEAD";
  }
}

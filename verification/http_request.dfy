/** What the parser reports for a request without a body, from its text (RFC 7230, section 3). */
module HttpRequest {
  import opened HttpChars
  import opened HttpMachine
  import opened HttpRun
  import opened HttpScan
  import opened HttpChunks
  import opened HttpMethods
  import opened HttpNames
  import opened Options

  // ----- Single bytes -----

  lemma {:induction false} ReportMark(log: seq<Event>, k: DataKind, c: Octet)
    ensures Report(log, None, Then(Mark(k), Done), c) == Push(log, Piece(k, [c]))
  {
    hide Push;
    PushTwice(log, k, [], [c]);
    assert [] + [c] == [c];
  }

  /** A byte that begins a data callback. */
  lemma {:induction false} Opens(s: Settings, m: Machine, data: seq<Octet>, n: nat, p: Parser, log: seq<Event>,
                                 k: DataKind)
    requires n < |data| && At(s, m, data, n, p, log) && StartOpen(p.state).None?
    requires Step(s, p, data[n]).actions == Then(Mark(k), Done) && !Step(s, p, data[n]).stop
    requires Step(s, p, data[n]).parser.errno == Ok
    ensures At(s, m, data, n + 1, Step(s, p, data[n]).parser, Push(log, Piece(k, [data[n]])))
  {
    hide Step, Run, Fails, StartOpen, Push, Report;
    AtNext(s, m, data, n, p, log);
    ReportMark(log, k, data[n]);
  }

  /** A byte of an open data callback. */
  lemma {:induction false} Continues(s: Settings, m: Machine, data: seq<Octet>, n: nat, p: Parser, log: seq<Event>,
                                     k: DataKind)
    requires n < |data| && At(s, m, data, n, p, log) && StartOpen(p.state) == Some(k)
    requires Step(s, p, data[n]).actions.Done? && !Step(s, p, data[n]).stop && Step(s, p, data[n]).parser.errno == Ok
    ensures At(s, m, data, n + 1, Step(s, p, data[n]).parser, Push(log, Piece(k, [data[n]])))
  {
    hide Step, Run, Fails, StartOpen, Push;
    AtNext(s, m, data, n, p, log);
  }

  /** The byte after the data of a callback. */
  lemma {:induction false} Closes(s: Settings, m: Machine, data: seq<Octet>, n: nat, p: Parser, log: seq<Event>,
                                  k: DataKind)
    requires n < |data| && At(s, m, data, n, p, log) && StartOpen(p.state) == Some(k)
    requires Step(s, p, data[n]).actions == Then(Close(k), Done) && !Step(s, p, data[n]).stop
    requires Step(s, p, data[n]).parser.errno == Ok
    ensures At(s, m, data, n + 1, Step(s, p, data[n]).parser, log)
  {
    hide Step, Run, Fails, StartOpen, Push;
    AtNext(s, m, data, n, p, log);
  }

  // ----- URLs -----

  /** The state of parse_url_char after the first n characters of a URL. */
  function UrlAfter(connect: bool, url: seq<Octet>, n: nat): UrlResult
    requires 0 < n <= |url|
  {
    if n == 1 then if connect then ParseUrlChar(ServerStart, url[0]) else ParseUrlStart(url[0])
    else
      match UrlAfter(connect, url, n - 1)
      case BadUrl => BadUrl
      case UrlOk(u) => ParseUrlChar(u, url[n - 1])
  }

  /** The URL may stand in a request line. */
  predicate UrlAccepted(connect: bool, url: seq<Octet>) {
    url != [] && var r := UrlAfter(connect, url, |url|);
                 r.UrlOk? &&
                 !(r.state.Schema? || r.state.SchemaSlash? || r.state.SchemaSlashSlash? || r.state.ServerStart?)
  }

  /** The beginning of an accepted URL is not refused. */
  lemma {:induction false} UrlBegins(connect: bool, url: seq<Octet>, n: nat, k: nat)
    requires 0 < n <= k <= |url| && UrlAfter(connect, url, k).UrlOk?
    ensures UrlAfter(connect, url, n).UrlOk?
    decreases k
  {
    hide ParseUrlChar, ParseUrlStart;
    if n < k { UrlBegins(connect, url, n, k - 1); }
  }

  lemma {:induction false} NotInUrl(u: UrlState, c: Octet)
    ensures ParseUrlStart(c).UrlOk? || ParseUrlChar(u, c).UrlOk? ==> c != ' ' && c != CR && c != LF
  {
  }

  /** The parser inside a URL. */
  function InUrlAt(p: Parser, u: UrlState, n: nat): Parser { p.(state := InUrl(u), nread := p.nread + n) }

  /** A URL is reported as one piece. */
  lemma {:induction false} UrlRead(s: Settings, m: Machine, data: seq<Octet>, o: nat, p: Parser, log: seq<Event>,
                                   url: seq<Octet>, n: nat)
    requires o <= |data| && At(s, m, data, o, p, log) && p.errno == Ok && p.state == Req(SpacesBeforeUrl)
    requires Here(data, o, url) && 0 < n <= |url| && UrlAccepted(p.verb == CONNECT, url)
    requires p.nread + n <= s.maxHeaderSize
    ensures var r := UrlAfter(p.verb == CONNECT, url, n);
            r.UrlOk? && At(s, m, data, o + n, InUrlAt(p, r.state, n), Push(log, Piece(Url, url[..n])))
    decreases n
  {
    hide At, Run, Step, Push, ParseUrlStart, ParseUrlChar, UrlAfter;
    UrlBegins(p.verb == CONNECT, url, n, |url|);
    if n == 1 {
      UrlFirst(s, m, data, o, p, log, url);
    } else {
      UrlRead(s, m, data, o, p, log, url, n - 1);
      UrlNext(s, m, data, o, p, log, url, n);
    }
  }

  lemma {:induction false} UrlFirst(s: Settings, m: Machine, data: seq<Octet>, o: nat, p: Parser, log: seq<Event>,
                                    url: seq<Octet>)
    requires o <= |data| && At(s, m, data, o, p, log) && p.errno == Ok && p.state == Req(SpacesBeforeUrl)
    requires Here(data, o, url) && url != [] && UrlAfter(p.verb == CONNECT, url, 1).UrlOk?
    requires p.nread + 1 <= s.maxHeaderSize
    ensures At(s, m, data, o + 1, InUrlAt(p, UrlAfter(p.verb == CONNECT, url, 1).state, 1),
               Push(log, Piece(Url, url[..1])))
  {
    hide At, Run, Step, Push, ParseUrlStart, ParseUrlChar;
    var c := url[0];
    HereAt(data, o, url, 0);
    NotInUrl(ServerStart, c);
    FirstUrlStep(s, p, c);
    Opens(s, m, data, o, p, log, Url);
    assert url[..1] == [c];
  }

  lemma {:induction false} UrlNext(s: Settings, m: Machine, data: seq<Octet>, o: nat, p: Parser, log: seq<Event>,
                                   url: seq<Octet>, n: nat)
    requires o + n <= |data| && p.errno == Ok && 1 < n <= |url| && Here(data, o, url) && p.nread + n <= s.maxHeaderSize
    requires UrlAfter(p.verb == CONNECT, url, n).UrlOk? && UrlAfter(p.verb == CONNECT, url, n - 1).UrlOk?
    requires At(s, m, data, o + n - 1, InUrlAt(p, UrlAfter(p.verb == CONNECT, url, n - 1).state, n - 1),
                Push(log, Piece(Url, url[..n - 1])))
    ensures At(s, m, data, o + n, InUrlAt(p, UrlAfter(p.verb == CONNECT, url, n).state, n),
               Push(log, Piece(Url, url[..n])))
  {
    hide At, Run, Step, Push, ParseUrlStart, ParseUrlChar;
    var c := url[n - 1];
    var q := InUrlAt(p, UrlAfter(p.verb == CONNECT, url, n - 1).state, n - 1);
    HereAt(data, o, url, n - 1);
    NotInUrl(q.state.url, c);
    UrlStep(s, q, q.state.url, c);
    Continues(s, m, data, o + n - 1, q, Push(log, Piece(Url, url[..n - 1])), Url);
    PushTwice(log, Url, url[..n - 1], [c]);
    assert url[..n] == url[..n - 1] + [c];
  }

  lemma {:induction false} FirstUrlStep(s: Settings, p: Parser, c: Octet)
    requires p.errno == Ok && p.state == Req(SpacesBeforeUrl) && p.nread + 1 <= s.maxHeaderSize && c != ' '
    ensures Step(s, p, c)
            == After(Mark(Url), OnUrl(p.(nread := p.nread + 1),
                                      if p.verb == CONNECT then ParseUrlChar(ServerStart, c) else ParseUrlStart(c)))
  {
    hide Step, ParseUrlChar, ParseUrlStart, OnUrl;
    RequestStep(s, p, SpacesBeforeUrl, c);
  }

  lemma {:induction false} UrlStep(s: Settings, p: Parser, u: UrlState, c: Octet)
    requires p.errno == Ok && p.state == InUrl(u) && p.nread + 1 <= s.maxHeaderSize
    ensures Step(s, p, c) == RequestUrl(p.(nread := p.nread + 1), u, c)
  {
    hide RequestUrl;
  }

  // ----- The rest of the request line -----

  /** A byte of the request line that only moves the parser on. */
  lemma {:induction false} Moves(s: Settings, m: Machine, data: seq<Octet>, n: nat, p: Parser, log: seq<Event>,
                                 r: ReqState, q: Parser)
    requires n < |data| && At(s, m, data, n, p, log) && p.state == Req(r) && p.nread + 1 <= s.maxHeaderSize
    requires p.errno == Ok && RequestLine(p.(nread := p.nread + 1), r, data[n]) == Go(q) && q.errno == Ok
    ensures At(s, m, data, n + 1, q, log)
  {
    hide Step, RequestLine, At;
    RequestStep(s, p, r, data[n]);
    Quiet(s, m, data, n, p, log);
  }

  const HTTP: seq<Octet> := "HTTP/"

  /** The states while `HTTP/` is read. */
  function HttpState(k: nat): ReqState {
    match k
    case 0 => HttpStart
    case 1 => HttpH
    case 2 => HttpHT
    case 3 => HttpHTT
    case 4 => HttpHTTP
    case _ => HttpMajor
  }

  lemma {:induction false} HttpRead(s: Settings, m: Machine, data: seq<Octet>, o: nat, p: Parser, log: seq<Event>,
                                    k: nat)
    requires o <= |data| && At(s, m, data, o, p, log) && p.errno == Ok && p.state == Req(HttpStart)
    requires Here(data, o, HTTP) && k <= 5 && p.nread + k <= s.maxHeaderSize
    ensures At(s, m, data, o + k, p.(state := Req(HttpState(k)), nread := p.nread + k), log)
  {
    hide At, Run, RequestLine, HttpState;
    if k == 0 {
      HttpStep(p, 0);
    } else {
      HttpRead(s, m, data, o, p, log, k - 1);
      HereAt(data, o, HTTP, k - 1);
      var q := p.(state := Req(HttpState(k - 1)), nread := p.nread + (k - 1));
      HttpStep(q.(nread := p.nread + k), k - 1);
      Moves(s, m, data, o + k - 1, q, log, HttpState(k - 1), p.(state := Req(HttpState(k)), nread := p.nread + k));
    }
  }

  lemma {:induction false} HttpStep(p: Parser, k: nat)
    requires k < 5
    ensures HttpState(0) == HttpStart && RequestLine(p, HttpState(k), HTTP[k]) == Go(p.(state := Req(HttpState(k + 1))))
  {
  }

  /** The parser after the first k bytes of the version and the line end after it. */
  function VersionAt(p: Parser, major: Octet, minor: Octet, k: nat): Parser
    requires IsNum(major) && IsNum(minor)
  {
    p.(state := match k
                case 0 => Req(HttpMajor)
                case 1 => Req(HttpDot)
                case 2 => Req(HttpMinor)
                case 3 => Req(HttpEnd)
                case 4 => Req(ReqLineAlmostDone)
                case _ => Header(FieldStart),
       major := if k > 0 then Digit(major) else p.major, minor := if k > 2 then Digit(minor) else p.minor,
       nread := p.nread + k)
  }

  function Version(major: Octet, minor: Octet): seq<Octet> { [major, '.', minor, CR, LF] }

  lemma {:induction false} VersionRead(s: Settings, m: Machine, data: seq<Octet>, o: nat, p: Parser, log: seq<Event>,
                                       major: Octet, minor: Octet, k: nat)
    requires o <= |data| && At(s, m, data, o, p, log) && p.errno == Ok && p.state == Req(HttpMajor) && IsNum(major)
    requires IsNum(minor)
    requires Here(data, o, Version(major, minor)) && k <= 5 && p.nread + k <= s.maxHeaderSize
    ensures At(s, m, data, o + k, VersionAt(p, major, minor, k), log)
  {
    hide At, Run, RequestLine, IsNum, Digit, VersionAt;
    VersionStep(p, major, minor, if k > 0 then k - 1 else 0);
    if k > 0 {
      VersionRead(s, m, data, o, p, log, major, minor, k - 1);
      HereAt(data, o, Version(major, minor), k - 1);
      var q := VersionAt(p, major, minor, k - 1);
      Moves(s, m, data, o + k - 1, q, log, q.state.req, VersionAt(p, major, minor, k));
    }
  }

  lemma {:induction false} VersionStep(p: Parser, major: Octet, minor: Octet, k: nat)
    requires k < 5 && IsNum(major) && IsNum(minor)
    ensures p.state == Req(HttpMajor) ==> VersionAt(p, major, minor, 0) == p
    ensures var q := VersionAt(p, major, minor, k);
            && q.state.Req? && q.errno == p.errno && q.nread == p.nread + k
            && RequestLine(q.(nread := q.nread + 1), q.state.req, Version(major, minor)[k])
               == Go(VersionAt(p, major, minor, k + 1))
    ensures VersionAt(p, major, minor, k + 1).errno == p.errno
  {
    hide IsNum, Digit;
  }

  // ----- Header lines -----

  /** A name and a value as they stand in a line, with one space between the colon and the value. */
  datatype HeaderText = HeaderText(name: seq<Octet>, value: seq<Octet>)

  const COLON: seq<Octet> := ": "

  function Line(h: HeaderText): seq<Octet> { h.name + COLON + h.value + CRLF }

  /** Names that the parser gives no meaning. */
  predicate Ordinary(h: HeaderState)
  {
    !h.Connection? && !h.ContentLength? && !h.TransferEncoding? && !h.Upgrade? && NameState(h)
  }

  predicate ValueBytes(v: seq<Octet>) {
    && (v != [] ==> v[0] != ' ' && v[0] != '\t')
    && forall i :: 0 <= i < |v| ==> v[i] != CR && v[i] != LF && IsHeaderChar(v[i])
  }

  /** A line that can be read, with a name of no special meaning. */
  predicate ProperLine(h: HeaderText) {
    h.name != [] && Tokens(h.name, 0, |h.name|) && Ordinary(Recognised(Lowered(h.name))) && ValueBytes(h.value)
  }

  /** The parser before the first byte of a header line; an empty value may still have to be reported. */
  predicate LineStart(p: Parser, pending: bool) {
    && p.errno == Ok
    && if pending then p.state == Header(DiscardLws) && Ordinary(p.headerState)
       else p.state == Header(FieldStart) || p.state == Header(ValueLws)
  }

  /** What the value of the last line means is settled when the next line begins. */
  function Settled(p: Parser): Parser { if p.state == Header(ValueLws) then FinishValue(p) else p }

  /** The events when an empty value that is pending is reported. */
  function Flushed(log: seq<Event>, pending: bool): seq<Event> { if pending then log + [Piece(Value, [])] else log }

  lemma {:induction false} HeaderStep(s: Settings, p: Parser, h: HeadState, c: Octet)
    requires p.errno == Ok && p.state == Header(h) && p.nread + 1 <= s.maxHeaderSize
    ensures Step(s, p, c) == HeaderLines(s, p.(nread := p.nread + 1), h, c)
  {
    hide HeaderLines;
  }

  /** The parser after the first byte of a line was counted, in the state to which the source goes back for it. */
  function AtField(p: Parser): Parser { Settled(p).(state := Header(FieldStart), nread := p.nread + 1) }

  /** Whatever the line is, its first byte is taken as the first byte of a field. */
  lemma {:induction false} LineStep(s: Settings, p: Parser, pending: bool, c: Octet)
    requires LineStart(p, pending) && p.nread + 1 <= s.maxHeaderSize && c != ' ' && c != '\t'
    ensures var o := OnHeaderFieldStart(s, AtField(p), c);
            Step(s, p, c) == if pending then After(Mark(Value), After(Close(Value), o)) else o
  {
    hide OnHeaderFieldStart, Step;
    HeaderStep(s, p, p.state.header, c);
  }

  lemma {:induction false} ReportPending(log: seq<Event>, pending: bool, actions: Actions, c: Octet)
    requires pending ==> !LastIs(log, Value)
    ensures Report(log, None, if pending then Then(Mark(Value), Then(Close(Value), actions)) else actions, c)
            == Report(Flushed(log, pending), None, actions, c)
  {
    if pending {
      assert Report(log, None, Then(Mark(Value), Then(Close(Value), actions)), c)
             == Report(Push(log, Piece(Value, [])), Some(Value), Then(Close(Value), actions), c);
    }
  }

  /** The first character of a name. */
  lemma {:induction false} NameStarts(s: Settings, m: Machine, data: seq<Octet>, o: nat, p: Parser, pending: bool,
                                      log: seq<Event>)
    requires o < |data| && At(s, m, data, o, p, log) && LineStart(p, pending) && (pending ==> !LastIs(log, Value))
    requires p.nread + 1 <= s.maxHeaderSize && Token(data[o]) != '\0'
    ensures At(s, m, data, o + 1, OnHeaderFieldStart(s, AtField(p), data[o]).parser,
               Push(Flushed(log, pending), Piece(Field, [data[o]])))
    ensures OnHeaderFieldStart(s, AtField(p), data[o]).parser == InName(AtField(p), [Token(data[o])], 0)
  {
    hide Step, Run, Fails, Push, Report, OnHeaderFieldStart, Token, InName, LastIs;
    var c := data[o];
    NoSpace(c);
    AtNext(s, m, data, o, p, log);
    LineStep(s, p, pending, c);
    FirstOfName(s, AtField(p), c);
    ReportPending(log, pending, Then(Mark(Field), Done), c);
    ReportMark(Flushed(log, pending), Field, c);
    InNameState(AtField(p), [Token(c)], 0);
  }

  lemma {:induction false} InNameState(p: Parser, low: seq<Octet>, index: nat)
    ensures var q := InName(p, low, index); q.errno == p.errno && q.state == Header(InField) && q.nread == p.nread
  {
  }

  lemma {:induction false} HereTokens(data: seq<Octet>, o: nat, name: seq<Octet>)
    requires Here(data, o, name) && Tokens(name, 0, |name|)
    ensures Tokens(data, o, o + |name|)
  {
    hide Token;
    forall i | o <= i < o + |name|
      ensures Token(data[i]) != '\0'
    {
      HereAt(data, o, name, i - o);
    }
  }

  /** A data event after something else. */
  lemma {:induction false} PushNew(log: seq<Event>, k: DataKind, bytes: seq<Octet>)
    requires !LastIs(log, k)
    ensures Push(log, Piece(k, bytes)) == log + [Piece(k, bytes)]
  {
  }

  lemma {:induction false} FlushedEnds(log: seq<Event>, pending: bool)
    requires if pending then LastIs(log, Field) else !LastIs(log, Field)
    ensures !LastIs(Flushed(log, pending), Field) && (pending ==> !LastIs(log, Value))
  {
  }

  /** A whole name. */
  lemma {:induction false} NameRead(s: Settings, m: Machine, data: seq<Octet>, o: nat, p: Parser, pending: bool,
                                    log: seq<Event>, name: seq<Octet>)
    returns (index: nat)
    requires o <= |data| && At(s, m, data, o, p, log) && LineStart(p, pending) && Here(data, o, name)
    requires if pending then LastIs(log, Field) else !LastIs(log, Field)
    requires name != [] && Tokens(name, 0, |name|) && p.nread + |name| <= s.maxHeaderSize
    ensures At(s, m, data, o + |name|, InName(AtField(p), Lowered(name), index).(nread := p.nread + |name|),
               Flushed(log, pending) + [Piece(Field, name)])
  {
    hide Step, Run, Fails, Push, Report, OnHeaderFieldStart, Token, InName, LastIs, Flushed, FieldFold, Recognised, At,
      LineStart;
    var n := |name|;
    var before := Flushed(log, pending);
    FlushedEnds(log, pending);
    HereTokens(data, o, name);
    HereAt(data, o, name, 0);
    NameStarts(s, m, data, o, p, pending, log);
    var low := [Token(name[0])];
    InNameState(AtField(p), low, 0);
    NameKinds(low, 'a');
    PushTwice(before, Field, [name[0]], data[o + 1..o + n]);
    InNameKind(AtField(p), low, 0);
    StartErrno(p, pending);
    FieldRun(s, m, data, o + 1, o + n, InName(AtField(p), low, 0), Push(before, Piece(Field, [name[0]])));
    index := NameRecognised(s, AtField(p), data, o, o + n);
    assert data[o..o + n] == name == [name[0]] + data[o + 1..o + n];
    PushNew(before, Field, name);
  }

  lemma {:induction false} StartErrno(p: Parser, pending: bool)
    requires LineStart(p, pending)
    ensures AtField(p).errno == Ok
  {
  }

  lemma {:induction false} InNameKind(p: Parser, low: seq<Octet>, index: nat)
    ensures InName(p, low, index).headerState == Recognised(low)
  {
    hide Recognised;
  }

  /** A byte of the header that only moves the parser on. */
  lemma {:induction false} HeaderMoves(s: Settings, m: Machine, data: seq<Octet>, n: nat, p: Parser, log: seq<Event>,
                                       h: HeadState, q: Parser)
    requires n < |data| && At(s, m, data, n, p, log) && p.state == Header(h) && p.nread + 1 <= s.maxHeaderSize
    requires !h.InField? && !h.InValue?
    requires p.errno == Ok && HeaderLines(s, p.(nread := p.nread + 1), h, data[n]) == Go(q) && q.errno == Ok
    ensures At(s, m, data, n + 1, q, log)
  {
    hide Step, HeaderLines, At;
    HeaderStep(s, p, h, data[n]);
    Quiet(s, m, data, n, p, log);
  }

  /** The colon after a name and the space after it. */
  lemma {:induction false} ColonRead(s: Settings, m: Machine, data: seq<Octet>, o: nat, p: Parser, log: seq<Event>)
    requires o <= |data| && At(s, m, data, o, p, log) && p.errno == Ok && p.state == Header(InField)
    requires Here(data, o, COLON) && p.nread + 2 <= s.maxHeaderSize
    ensures At(s, m, data, o + 2, p.(state := Header(DiscardWs), nread := p.nread + 2), log)
  {
    hide At, Run, Step, HeaderLines;
    HereAt(data, o, COLON, 0);
    HereAt(data, o, COLON, 1);
    HeaderStep(s, p, InField, ':');
    var q := p.(state := Header(DiscardWs), nread := p.nread + 1);
    ColonStep(s, p.(nread := p.nread + 1));
    Closes(s, m, data, o, p, log, Field);
    HeaderMoves(s, m, data, o + 1, q, log, DiscardWs, q.(nread := p.nread + 2));
  }

  lemma {:induction false} ColonStep(s: Settings, p: Parser)
    ensures HeaderLines(s, p, InField, ':') == After(Close(Field), To(p, Header(DiscardWs)))
    ensures forall q: Parser :: q.state == Header(DiscardWs) ==> HeaderLines(s, q, DiscardWs, ' ') == Go(q)
  {
  }

  /** The parser in a value that means nothing to it. */
  function InPlainValue(p: Parser, n: nat): Parser {
    p.(state := Header(InValue), headerState := General, index := 0, nread := p.nread + n)
  }

  lemma {:induction false} ValueStarts(s: Settings, p: Parser, c: Octet)
    requires p.errno == Ok && p.state == Header(DiscardWs) && Ordinary(p.headerState) && p.nread + 1 <= s.maxHeaderSize
    requires c != ' ' && c != '\t' && c != CR && c != LF
    ensures Step(s, p, c) == After(Mark(Value), Go(InPlainValue(p, 1)))
  {
    hide Step, Lower;
    HeaderStep(s, p, DiscardWs, c);
  }

  /** A value, not empty, up to the end of the line. */
  lemma {:induction false} ValueRead(s: Settings, m: Machine, data: seq<Octet>, o: nat, p: Parser, log: seq<Event>,
                                     v: seq<Octet>)
    requires o <= |data| && At(s, m, data, o, p, log) && p.errno == Ok && p.state == Header(DiscardWs)
    requires Ordinary(p.headerState)
    requires v != [] && ValueBytes(v) && Here(data, o, v) && p.nread + |v| <= s.maxHeaderSize && !LastIs(log, Value)
    ensures At(s, m, data, o + |v|, InPlainValue(p, |v|), log + [Piece(Value, v)])
  {
    hide Step, Run, Fails, Push, LastIs, IsHeaderChar, Ordinary, ValueFold, Accepted, At;
    var n := |v|;
    HereAt(data, o, v, 0);
    assert v[0] == data[o] && v[0] != CR && v[0] != LF;
    ValueStarts(s, p, v[0]);
    Opens(s, m, data, o, p, log, Value);
    forall i | o + 1 <= i < o + n
      ensures data[i] != CR && data[i] != LF && IsHeaderChar(data[i])
    {
      HereAt(data, o, v, i - o);
      assert v[i - o] == data[i];
    }
    var q := InPlainValue(p, 1);
    PlainFold(q, data, o + 1, o + n);
    PushTwice(log, Value, [v[0]], data[o + 1..o + n]);
    ValueRun(s, m, data, o + 1, o + n, q, Push(log, Piece(Value, [v[0]])));
    assert data[o..o + n] == v == [v[0]] + data[o + 1..o + n];
    PushNew(log, Value, v);
    assert q.(nread := q.nread + (n - 1)) == InPlainValue(p, n);
  }

  /** The end of a line whose value is not empty. */
  lemma {:induction false} ValueEnds(s: Settings, m: Machine, data: seq<Octet>, o: nat, p: Parser, log: seq<Event>)
    requires o <= |data| && At(s, m, data, o, p, log) && p.errno == Ok && p.state == Header(InValue)
    requires Here(data, o, CRLF) && p.nread + 2 <= s.maxHeaderSize
    ensures At(s, m, data, o + 2, p.(state := Header(ValueLws), nread := p.nread + 2), log)
  {
    hide Step, Run, Fails, At;
    HereAt(data, o, CRLF, 0);
    HereAt(data, o, CRLF, 1);
    HeaderStep(s, p, InValue, CR);
    Closes(s, m, data, o, p, log, Value);
    var q := p.(state := Header(AlmostDone), nread := p.nread + 1);
    HeaderMoves(s, m, data, o + 1, q, log, AlmostDone, q.(state := Header(ValueLws), nread := p.nread + 2));
  }

  /** The end of a line whose value is empty. */
  lemma {:induction false} NothingEnds(s: Settings, m: Machine, data: seq<Octet>, o: nat, p: Parser, log: seq<Event>)
    requires o <= |data| && At(s, m, data, o, p, log) && p.errno == Ok && p.state == Header(DiscardWs)
    requires Here(data, o, CRLF) && p.nread + 2 <= s.maxHeaderSize
    ensures At(s, m, data, o + 2, p.(state := Header(DiscardLws), nread := p.nread + 2), log)
  {
    hide Step, Run, Fails, At;
    HereAt(data, o, CRLF, 0);
    HereAt(data, o, CRLF, 1);
    var q := p.(state := Header(DiscardWsAlmostDone), nread := p.nread + 1);
    HeaderMoves(s, m, data, o, p, log, DiscardWs, q);
    HeaderMoves(s, m, data, o + 1, q, log, DiscardWsAlmostDone, q.(state := Header(DiscardLws), nread := p.nread + 2));
  }

  /** What a line changes in the parser; it may make the parser believe in a transfer encoding. */
  predicate LineRead(p: Parser, q: Parser, h: HeaderText) {
    q == Settled(p).(state := q.state, headerState := q.headerState, index := q.index, nread := p.nread + |Line(h)|,
                     usesTransferEncoding := p.usesTransferEncoding || NamesEncoding(Lowered(h.name)))
  }

  /** The log ends as it does at the start of a line. */
  predicate LogStart(log: seq<Event>, pending: bool) { if pending then LastIs(log, Field) else !LastIs(log, Field) }

  /** One header line is reported as its name and its value. */
  lemma {:induction false} LineReported(s: Settings, m: Machine, data: seq<Octet>, o: nat, p: Parser, pending: bool,
                                        log: seq<Event>, h: HeaderText)
    returns (q: Parser, later: bool, log': seq<Event>)
    requires o <= |data| && At(s, m, data, o, p, log) && LineStart(p, pending) && LogStart(log, pending)
    requires ProperLine(h) && Here(data, o, Line(h)) && p.nread + |Line(h)| <= s.maxHeaderSize
    ensures Here(data, o, Line(h)) && At(s, m, data, o + |Line(h)|, q, log') && LineStart(q, later)
    ensures LogStart(log', later)
    ensures LineRead(p, q, h) && Settled(q) == q
    ensures Flushed(log', later) == Flushed(log, pending) + [Piece(Field, h.name), Piece(Value, h.value)]
  {
    hide At, Run, Step, Tokens, ValueBytes, Recognised, NamesEncoding, InName, Ordinary, Flushed, Here;
    var n := |h.name|;
    var low := Lowered(h.name);
    HereSplit(data, o, h.name + COLON + h.value, CRLF);
    HereSplit(data, o, h.name + COLON, h.value);
    HereSplit(data, o, h.name, COLON);
    var index := NameRead(s, m, data, o, p, pending, log, h.name);
    var before := Flushed(log, pending);
    var log1 := before + [Piece(Field, h.name)];
    var named := InName(AtField(p), low, index).(nread := p.nread + n);
    NamedFields(p, low, index);
    ColonRead(s, m, data, o + n, named, log1);
    var q1 := named.(state := Header(DiscardWs), nread := p.nread + n + 2);
    q, later, log' := RestReported(s, m, data, o + n + 2, q1, log1, h.value);
    assert Flushed(log', later) == before + [Piece(Field, h.name), Piece(Value, h.value)];
  }

  /** What follows the colon and the blank: the value, or nothing, and the end of the line. */
  lemma {:induction false} RestReported(s: Settings, m: Machine, data: seq<Octet>, o: nat, p: Parser, log: seq<Event>,
                                        v: seq<Octet>)
    returns (q: Parser, later: bool, log': seq<Event>)
    requires o <= |data| && At(s, m, data, o, p, log) && p.errno == Ok && p.state == Header(DiscardWs)
    requires Ordinary(p.headerState)
    requires ValueBytes(v) && Here(data, o, v) && Here(data, o + |v|, CRLF) && LastIs(log, Field)
    requires p.nread + |v| + 2 <= s.maxHeaderSize
    ensures At(s, m, data, o + |v| + 2, q, log') && LineStart(q, later) && LogStart(log', later) && Settled(q) == q
    ensures q == p.(state := q.state, headerState := q.headerState, index := q.index, nread := p.nread + |v| + 2)
    ensures Flushed(log', later) == log + [Piece(Value, v)]
  {
    hide At, Run, Step, ValueBytes, Ordinary, Flushed;
    later := v == [];
    if later {
      NothingEnds(s, m, data, o, p, log);
      q, log' := p.(state := Header(DiscardLws), nread := p.nread + 2), log;
      FlushedLater(log);
    } else {
      ValueRead(s, m, data, o, p, log, v);
      var inside := InPlainValue(p, |v|);
      log' := log + [Piece(Value, v)];
      ValueEnds(s, m, data, o + |v|, inside, log');
      q := inside.(state := Header(ValueLws), nread := p.nread + |v| + 2);
      FlushedNow(log');
    }
  }

  lemma {:induction false} FlushedLater(log: seq<Event>)
    ensures Flushed(log, true) == log + [Piece(Value, [])]
  {
  }

  lemma {:induction false} FlushedNow(log: seq<Event>)
    ensures Flushed(log, false) == log
  {
  }

  lemma {:induction false} NamedFields(p: Parser, low: seq<Octet>, index: nat)
    ensures InName(AtField(p), low, index)
            == Settled(p).(state := Header(InField), headerState := Recognised(low), index := index,
                           nread := p.nread + 1,
                           usesTransferEncoding := p.usesTransferEncoding || NamesEncoding(low))
  {
    hide Recognised, NamesEncoding;
  }

  // ----- All headers -----

  function Lines(hs: seq<HeaderText>): seq<Octet> { if hs == [] then [] else Line(hs[0]) + Lines(hs[1..]) }

  function Pieces(hs: seq<HeaderText>): seq<Event> {
    if hs == [] then [] else [Piece(Field, hs[0].name), Piece(Value, hs[0].value)] + Pieces(hs[1..])
  }

  predicate ProperLines(hs: seq<HeaderText>) { forall i :: 0 <= i < |hs| ==> ProperLine(hs[i]) }

  /** Some name begins with that of Transfer-Encoding. */
  predicate SomeEncoding(hs: seq<HeaderText>)
  {
    hs != [] && (NamesEncoding(Lowered(hs[0].name)) || SomeEncoding(hs[1..]))
  }

  predicate LinesRead(p: Parser, q: Parser, hs: seq<HeaderText>) {
    q == p.(state := q.state, headerState := q.headerState, index := q.index, nread := p.nread + |Lines(hs)|,
            usesTransferEncoding := p.usesTransferEncoding || SomeEncoding(hs))
  }

  lemma {:induction false} LinesReported(s: Settings, m: Machine, data: seq<Octet>, o: nat, p: Parser, pending: bool,
                                         log: seq<Event>, hs: seq<HeaderText>)
    returns (q: Parser, later: bool, log': seq<Event>)
    requires o <= |data| && At(s, m, data, o, p, log) && LineStart(p, pending) && LogStart(log, pending)
    requires ProperLines(hs) && Here(data, o, Lines(hs)) && p.nread + |Lines(hs)| <= s.maxHeaderSize
    requires Settled(p) == p
    ensures Settled(q) == q
    ensures Here(data, o, Lines(hs)) && At(s, m, data, o + |Lines(hs)|, q, log') && LineStart(q, later)
    ensures LogStart(log', later)
    ensures LinesRead(p, q, hs) && Flushed(log', later) == Flushed(log, pending) + Pieces(hs)
    decreases |hs|
  {
    hide At, Run, Step, LineStart, LogStart, ProperLine, Line, Flushed, NamesEncoding, Settled;
    if hs == [] {
      q, later, log' := p, pending, log;
      assert Flushed(log, pending) + [] == Flushed(log, pending);
    } else {
      var h := hs[0];
      HereSplit(data, o, Line(h), Lines(hs[1..]));
      assert ProperLine(h);
      var q1, pending1, log1 := LineReported(s, m, data, o, p, pending, log, h);
      q, later, log' := LinesReported(s, m, data, o + |Line(h)|, q1, pending1, log1, hs[1..]);
      var pieces := [Piece(Field, h.name), Piece(Value, h.value)];
      assert Flushed(log, pending) + pieces + Pieces(hs[1..]) == Flushed(log, pending) + (pieces + Pieces(hs[1..]));
    }
  }

  // ----- The empty line -----

  lemma {:induction false} HeadersEnd(s: Settings, m: Machine, data: seq<Octet>, o: nat, p: Parser, pending: bool,
                                      log: seq<Event>)
    requires o < |data| && At(s, m, data, o, p, log) && LineStart(p, pending) && LogStart(log, pending)
    requires data[o] == CR && p.nread + 1 <= s.maxHeaderSize
    ensures At(s, m, data, o + 1, Settled(p).(state := Header(HeadersAlmostDone), nread := p.nread + 1),
               Flushed(log, pending))
  {
    hide Step, Run, Fails, Push, Report, LastIs, Flushed;
    FlushedEnds(log, pending);
    AtNext(s, m, data, o, p, log);
    LineStep(s, p, pending, CR);
    ReportPending(log, pending, Done, CR);
    NoActions(Flushed(log, pending), CR);
  }

  /** The parser when a request without a body is over. */
  function AfterRequest(p: Parser): Parser {
    var q := p.(nread := 0, upgrade := p.verb == CONNECT);
    q.(state := if p.major > 0 && p.minor > 0 then Req(StartReq) else Dead)
  }

  lemma {:induction false} EmptyLineStep(s: Settings, p: Parser)
    requires p.errno == Ok && p.state == Header(HeadersAlmostDone) && p.nread + 1 <= s.maxHeaderSize
    requires s.headersComplete == 0
    requires p.kind == Request && !p.lenient && p.flags == NO_FLAGS && p.contentLength == ULLONG_MAX
    ensures var o := Step(s, p, LF);
            if p.verb != CONNECT && p.usesTransferEncoding then o.parser.errno == InvalidTransferEncoding
            else
              && o.actions == Then(Notify(HeadersComplete), Then(Notify(MessageComplete), Done))
              && o.stop == (p.verb == CONNECT) && o.parser == AfterRequest(p)
  {
    hide Step;
    HeaderStep(s, p, HeadersAlmostDone, LF);
  }

  /** The last byte: the request is announced, or the run fails because of a transfer encoding. */
  lemma {:induction false} RequestEnds(s: Settings, m: Machine, data: seq<Octet>, o: nat, p: Parser, log: seq<Event>)
    requires o < |data| && At(s, m, data, o, p, log) && data[o] == LF && p.nread + 1 <= s.maxHeaderSize
    requires s.headersComplete == 0
    requires p.errno == Ok && p.state == Header(HeadersAlmostDone)
    requires p.kind == Request && !p.lenient && p.flags == NO_FLAGS && p.contentLength == ULLONG_MAX
    ensures if p.verb != CONNECT && p.usesTransferEncoding then Fails(s, m, data)
            else Run(s, m, data, o + 1)
                 == Progress(Machine(AfterRequest(p), log + [Note(HeadersComplete), Note(MessageComplete)]), o + 1,
                             p.verb == CONNECT)
  {
    hide Step, Run, Fails, Push, Report;
    AtNext(s, m, data, o, p, log);
    EmptyLineStep(s, p);
    ReportNotes(log, LF);
  }

  lemma {:induction false} ReportNotes(log: seq<Event>, c: Octet)
    ensures Report(log, None, Then(Notify(HeadersComplete), Then(Notify(MessageComplete), Done)), c)
            == log + [Note(HeadersComplete), Note(MessageComplete)]
  {
    hide Push;
    var log1 := log + [Note(HeadersComplete)];
    PushNote(log, HeadersComplete);
    ReportNote(log1, MessageComplete, c);
    assert log1 + [Note(MessageComplete)] == log + [Note(HeadersComplete), Note(MessageComplete)];
  }

  // ----- Requests -----

  datatype RequestText = RequestText(word: seq<Octet>, url: seq<Octet>, major: Octet, minor: Octet,
                                     headers: seq<HeaderText>)

  const SPACE: seq<Octet> := [' ']

  /** The request as it is sent. */
  function Text(r: RequestText): seq<Octet> {
    r.word + SPACE + r.url + SPACE + HTTP + Version(r.major, r.minor) + Lines(r.headers) + CRLF
  }

  /** What should be reported for it. */
  function Events(r: RequestText): seq<Event> {
    [Note(MessageBegin), Piece(Url, r.url)] + Pieces(r.headers) + [Note(HeadersComplete), Note(MessageComplete)]
  }

  /** A method, a URL that the parser accepts after it, a version, and header lines without special meaning. */
  predicate ProperRequest(r: RequestText, v: nat) {
    && NamesMethod(r.word, v) && UrlAccepted(v == CONNECT, r.url) && IsNum(r.major) && IsNum(r.minor)
    && ProperLines(r.headers)
  }

  /** The parser at the first header line. */
  function AfterLine(p: Parser, r: RequestText, v: nat): Parser
    requires ProperRequest(r, v)
  {
    Fresh(p).(state := Header(FieldStart), verb := v, index := |r.word| + 1,
              major := Digit(r.major), minor := Digit(r.minor), nread := p.nread + |r.word| + |r.url| + 12)
  }

  /** The space after a URL. */
  lemma {:induction false} UrlEnds(s: Settings, m: Machine, data: seq<Octet>, o: nat, p: Parser, log: seq<Event>,
                                   u: UrlState)
    requires o < |data| && At(s, m, data, o, p, log) && p.errno == Ok && p.state == InUrl(u) && data[o] == ' '
    requires !(u.Schema? || u.SchemaSlash? || u.SchemaSlashSlash? || u.ServerStart?) && p.nread + 1 <= s.maxHeaderSize
    ensures At(s, m, data, o + 1, p.(state := Req(HttpStart), nread := p.nread + 1), log)
  {
    hide At, Run, Step;
    UrlStep(s, p, u, ' ');
    Closes(s, m, data, o, p, log, Url);
  }

  /** The method and the URL. */
  lemma {:induction false} TargetRead(s: Settings, m: Machine, data: seq<Octet>, o: nat, p: Parser, log: seq<Event>,
                                      r: RequestText, v: nat)
    returns (u: UrlState)
    requires o <= |data| && At(s, m, data, o, p, log) && AtRequest(p) && ProperRequest(r, v)
    requires Here(data, o, r.word + SPACE + r.url) && p.nread + |r.word| + 1 + |r.url| <= s.maxHeaderSize
    ensures !(u.Schema? || u.SchemaSlash? || u.SchemaSlashSlash? || u.ServerStart?)
    ensures At(s, m, data, o + |r.word| + 1 + |r.url|, InUrlAt(AfterMethod(p, v, |r.word|), u, |r.url|),
               log + [Note(MessageBegin), Piece(Url, r.url)])
  {
    hide At, Run, Step, Fails, UrlAfter, ProperLines, IsNum, Push, NamesMethod;
    var n, k := |r.word|, |r.url|;
    HereSplit(data, o, r.word + SPACE, r.url);
    HereSplit(data, o, r.word, SPACE);
    HereAt(data, o + n, SPACE, 0);
    var log1 := log + [Note(MessageBegin)];
    MethodAccepted(s, m, data, o, p, log, n, v);
    UrlRead(s, m, data, o + n + 1, AfterMethod(p, v, n), log1, r.url, k);
    assert r.url[..k] == r.url;
    PushNew(log1, Url, r.url);
    assert log1 + [Piece(Url, r.url)] == log + [Note(MessageBegin), Piece(Url, r.url)];
    u := UrlAfter(v == CONNECT, r.url, k).state;
  }

  /** The request line. */
  lemma {:induction false} RequestLineRead(s: Settings, m: Machine, data: seq<Octet>, o: nat, p: Parser,
                                           log: seq<Event>, r: RequestText, v: nat)
    requires o <= |data| && At(s, m, data, o, p, log) && AtRequest(p) && ProperRequest(r, v)
    requires Here(data, o, r.word + SPACE + r.url + SPACE + HTTP + Version(r.major, r.minor))
    requires p.nread + |r.word| + |r.url| + 12 <= s.maxHeaderSize
    ensures o + |r.word| + |r.url| + 12 <= |data|
    ensures At(s, m, data, o + |r.word| + |r.url| + 12, AfterLine(p, r, v),
               log + [Note(MessageBegin), Piece(Url, r.url)])
  {
    hide At, Run, Step, Fails, UrlAccepted, ProperLines, IsNum, Digit, NamesMethod;
    var e := o + |r.word| + 1 + |r.url|;
    HereSplit(data, o, r.word + SPACE + r.url + SPACE + HTTP, Version(r.major, r.minor));
    HereSplit(data, o, r.word + SPACE + r.url + SPACE, HTTP);
    HereSplit(data, o, r.word + SPACE + r.url, SPACE);
    HereAt(data, e, SPACE, 0);
    var log1 := log + [Note(MessageBegin), Piece(Url, r.url)];
    var u := TargetRead(s, m, data, o, p, log, r, v);
    var p1 := InUrlAt(AfterMethod(p, v, |r.word|), u, |r.url|);
    UrlEnds(s, m, data, e, p1, log1, u);
    var p2 := p1.(state := Req(HttpStart), nread := p1.nread + 1);
    HttpRead(s, m, data, e + 1, p2, log1, 5);
    VersionRead(s, m, data, e + 6, p2.(state := Req(HttpMajor), nread := p2.nread + 5), log1, r.major, r.minor, 5);
  }

  /**
   * A request without a body whose headers have no special names is reported with its method, URL, version and headers,
   * exactly as they stand; but if the name of a header goes on after `Transfer-Encoding`, the parser refuses the
   * request.
   */
  lemma {:induction false} RequestRoundTrip(s: Settings, m: Machine, data: seq<Octet>, o: nat, p: Parser,
                                            log: seq<Event>, r: RequestText, v: nat)
    requires o <= |data| && At(s, m, data, o, p, log) && AtRequest(p) && p.kind == Request && !p.lenient
    requires s.headersComplete == 0
    requires ProperRequest(r, v) && Here(data, o, Text(r)) && p.nread + |Text(r)| <= s.maxHeaderSize
    ensures if v != CONNECT && SomeEncoding(r.headers) then Fails(s, m, data)
            else
              var q := Run(s, m, data, o + |Text(r)|).machine.parser;
              && Run(s, m, data, o + |Text(r)|) == Progress(Machine(q, log + Events(r)), o + |Text(r)|, v == CONNECT)
              && q.errno == Ok && q.verb == v && q.major == Digit(r.major) && q.minor == Digit(r.minor) && q.nread == 0
              && q.upgrade == (v == CONNECT) && q.contentLength == ULLONG_MAX && q.flags == NO_FLAGS
              && q.state == if q.major > 0 && q.minor > 0 then Req(StartReq) else Dead
  {
    hide At, Run, Step, Fails, UrlAccepted, ProperLines, IsNum, Digit, NamesMethod, Lines, Flushed, SomeEncoding, Here;
    hide Pieces;
    var hs := r.headers;
    var line := r.word + SPACE + r.url + SPACE + HTTP + Version(r.major, r.minor);
    HereSplit(data, o, line + Lines(hs), CRLF);
    HereSplit(data, o, line, Lines(hs));
    RequestLineRead(s, m, data, o, p, log, r, v);
    var e := o + |r.word| + |r.url| + 12;
    var p1 := AfterLine(p, r, v);
    var log1 := log + [Note(MessageBegin), Piece(Url, r.url)];
    var p2, pending, log2 := LinesReported(s, m, data, e, p1, false, log1, hs);
    FlushedNow(log1);
    var f := e + |Lines(hs)|;
    HereAt(data, f, CRLF, 0);
    HereAt(data, f, CRLF, 1);
    HeadersEnd(s, m, data, f, p2, pending, log2);
    var p3 := p2.(state := Header(HeadersAlmostDone), nread := p2.nread + 1);
    RequestEnds(s, m, data, f + 1, p3, Flushed(log2, pending));
    assert log1 + Pieces(hs) + [Note(HeadersComplete), Note(MessageComplete)] == log + Events(r);
  }
}

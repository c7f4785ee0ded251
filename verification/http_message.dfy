/** Whole messages: a request or response line, header lines, and the body that section 3.3.3 of RFC 7230 gives it. */
module HttpMessage {
  import opened HttpChars
  import opened HttpMachine
  import opened HttpRun
  import opened HttpScan
  import opened HttpChunks
  import opened HttpMethods
  import opened HttpNames
  import opened HttpLists
  import opened HttpEncodings
  import opened HttpRequest
  import opened HttpTrailers
  import opened HttpHead
  import opened HttpStatus
  import opened Options

  // ----- Which body a message has -----

  datatype Framing = Refused | Nothing | Fixed(length: nat) | Chunks | ToEnd

  predicate NoBodyStatus(status: nat) { status / 100 == 1 || status == 204 || status == 304 }

  /**
   * RFC 7230, section 3.3.3: first the responses that never have a body, among them those for which the application
   * says so, then the transfer encoding, then the length, and then what has neither.
   */
  function BodyOf(request: bool, status: nat, bodiless: bool, h: Head): Framing {
    if bodiless || (!request && NoBodyStatus(status)) then Nothing
    else if h.encoded then if h.flags.chunked then Chunks else if request then Refused else ToEnd
    else if h.flags.contentLength then if h.length == 0 then Nothing else Fixed(h.length)
    else if request then Nothing
    else ToEnd
  }

  /** How the parser frames the message: it looks at the status last. */
  function Framed(request: bool, status: nat, bodiless: bool, h: Head): Framing {
    if bodiless then Nothing
    else if h.encoded then if h.flags.chunked then Chunks else if request then Refused else ToEnd
    else if h.flags.contentLength then if h.length == 0 then Nothing else Fixed(h.length)
    else if request || NoBodyStatus(status) then Nothing
    else ToEnd
  }

  /** The parser frames a message as the RFC does, unless it is a response that has no body but tells of one. */
  lemma {:induction false} FramingIff(request: bool, status: nat, bodiless: bool, h: Head)
    ensures Framed(request, status, bodiless, h) == BodyOf(request, status, bodiless, h)
            <==> request || !NoBodyStatus(status) || bodiless || !(h.encoded || (h.flags.contentLength && h.length > 0))
  {
  }

  /** What can be remembered of header lines. */
  predicate Consistent(h: Head) {
    && h.length <= ULLONG_MAX && (h.flags.contentLength <==> h.length != ULLONG_MAX) && (h.flags.chunked ==> h.encoded)
    && !h.flags.trailing && !h.flags.skipBody
  }

  lemma {:induction false} HeadingConsistent(h: Head, l: HeadLine)
    requires ProperHead(l) && Consistent(h)
    ensures Consistent(Heading(h, l))
  {
    hide ChunkedValue, NamesEncoding, Recognised, DecimalValue, Hearing, ValueBytes, Tokens, AreElements, Join,
      DecimalDigits;
    if l.Options? { HearingKeeps(h.flags, l.options); }
    if l.Length? {
      assert l.digits[..|l.digits|] == l.digits;
      assert DecimalValue(l.digits[..|l.digits|]) <= DECIMAL_LIMIT;
    }
  }

  lemma {:induction false} HeadingsConsistent(h: Head, ls: seq<HeadLine>)
    requires ProperHeads(ls) && Consistent(h)
    ensures Consistent(Headings(h, ls))
    decreases |ls|
  {
    hide ProperHead, Heading, Consistent;
    if ls != [] {
      assert ProperHead(ls[0]);
      HeadingConsistent(h, ls[0]);
      HeadingsConsistent(Heading(h, ls[0]), ls[1..]);
    }
  }

  /** The message asks for an upgrade, after which the caller takes over. */
  predicate WantsUpgrade(p: Parser) {
    if p.flags.upgrade && p.flags.connectionUpgrade then p.kind == Request || p.statusCode == 101 else p.verb == CONNECT
  }

  /** Both a length and a transfer encoding, and that is not allowed. */
  predicate Conflicts(p: Parser) {
    p.usesTransferEncoding && p.flags.contentLength && (if p.flags.chunked then !p.allowChunkedLength else !p.lenient)
  }

  /** The connection stays open after the message (RFC 7230, section 6.3; a minor version of 0 is taken for 1.0). */
  predicate Persistent(p: Parser) { if p.major > 0 && p.minor > 0 then !p.flags.close else p.flags.keepAlive }

  function NextState(p: Parser): State {
    if !Persistent(p) then Dead else if p.kind == Request then Req(StartReq) else Res(StartRes)
  }

  /** The parser when the headers are over. */
  function Headed(s: Settings, p: Parser): Parser {
    p.(nread := 0, upgrade := false, flags := p.flags.(skipBody := s.headersComplete == 1))
  }

  function FramingFor(s: Settings, p: Parser): Framing {
    Framed(p.kind == Request, p.statusCode, s.headersComplete == 1, HeadOf(p))
  }

  predicate AtEmptyLine(s: Settings, p: Parser) {
    && p.errno == Ok && p.state == Header(HeadersAlmostDone) && p.nread + 1 <= s.maxHeaderSize && s.headersComplete <= 1
    && p.kind != Both && !p.lenient && Consistent(HeadOf(p)) && !WantsUpgrade(p)
  }

  /** The line feed that ends the headers. */
  lemma {:induction false} HeadStep(s: Settings, p: Parser)
    requires AtEmptyLine(s, p)
    ensures Step(s, p, LF) == OnHeadersAlmostDone(s, p.(nread := p.nread + 1), LF)
  {
    hide OnHeadersAlmostDone, Step;
    HeaderStep(s, p, HeadersAlmostDone, LF);
  }

  lemma {:induction false} HeadStops(s: Settings, p: Parser)
    requires AtEmptyLine(s, p) && (Conflicts(p) || FramingFor(s, p).Refused?)
    ensures Step(s, p, LF).parser.errno != Ok
  {
    hide Step, NewMessage, MessageNeedsEof;
    HeadStep(s, p);
  }

  lemma {:induction false} HeadGoes(s: Settings, p: Parser)
    requires AtEmptyLine(s, p) && !Conflicts(p)
    ensures var q := Headed(s, p);
            var f := FramingFor(s, p);
            var o := Step(s, p, LF);
            match f
            case Refused => true
            case Nothing =>
              o == Outcome(q.(state := NextState(q)),
                           Then(Notify(HeadersComplete), Then(Notify(MessageComplete), Done)), false)
            case Fixed(_) => o == Outcome(q.(state := Content(Identity)), Then(Notify(HeadersComplete), Done), false)
            case Chunks => o == Outcome(q.(state := Chunk(SizeStart)), Then(Notify(HeadersComplete), Done), false)
            case ToEnd => o == Outcome(q.(state := Content(IdentityEof)), Then(Notify(HeadersComplete), Done), false)
  {
    hide Step;
    HeadStep(s, p);
  }

  /** http_should_keep_alive, when the headers are over: only a body that runs to the end of the connection ends it, if
      the message itself allows others after it. */
  lemma {:induction false} KeepAliveIff(s: Settings, p: Parser)
    requires p.kind != Both && Consistent(HeadOf(p))
    ensures var q := Headed(s, p);
            var body := BodyOf(p.kind == Request, p.statusCode, s.headersComplete == 1, HeadOf(p));
            && (MessageNeedsEof(q) <==> body.ToEnd?)
            && (ShouldKeepAlive(q) <==> Persistent(q) && !body.ToEnd?)
  {
  }

  // ----- The run over the end of the headers -----

  lemma {:induction false} HeadRefused(s: Settings, m: Machine, data: seq<Octet>, o: nat, p: Parser, log: seq<Event>)
    requires o < |data| && At(s, m, data, o, p, log) && data[o] == LF
    requires AtEmptyLine(s, p) && (Conflicts(p) || FramingFor(s, p).Refused?)
    ensures Fails(s, m, data)
  {
    hide Step, Run, Fails, Report, AtEmptyLine, Conflicts, FramingFor;
    AtNext(s, m, data, o, p, log);
    HeadStops(s, p);
  }

  lemma {:induction false} HeadAccepted(s: Settings, m: Machine, data: seq<Octet>, o: nat, p: Parser, log: seq<Event>)
    requires o < |data| && At(s, m, data, o, p, log) && data[o] == LF
    requires AtEmptyLine(s, p) && !Conflicts(p)
    ensures var q := Headed(s, p);
            var log' := log + [Note(HeadersComplete)];
            match FramingFor(s, p)
            case Refused => true
            case Nothing => At(s, m, data, o + 1, q.(state := NextState(q)), log' + [Note(MessageComplete)])
            case Fixed(_) => At(s, m, data, o + 1, q.(state := Content(Identity)), log')
            case Chunks => At(s, m, data, o + 1, q.(state := Chunk(SizeStart)), log')
            case ToEnd => At(s, m, data, o + 1, q.(state := Content(IdentityEof)), log')
  {
    hide Step, Run, Fails, Report, Conflicts, FramingFor, NextState;
    AtNext(s, m, data, o, p, log);
    HeadGoes(s, p);
    ReportNotes(log, LF);
    ReportNote(log, HeadersComplete, LF);
    assert log + [Note(HeadersComplete), Note(MessageComplete)]
           == log + [Note(HeadersComplete)] + [Note(MessageComplete)];
  }

  // ----- A body of known length -----

  /** The last byte of the body ends the message. */
  lemma {:induction false} LastStep(s: Settings, p: Parser, c: Octet)
    requires p.errno == Ok && p.state == Content(Identity) && p.contentLength == 1 && !p.upgrade
    requires p.kind != Both && !p.usesTransferEncoding
    ensures var q := p.(contentLength := 0);
            Step(s, p, c)
            == Outcome(q.(state := NextState(q)),
                       Then(Mark(Body), Then(Deliver(Body), Then(Notify(MessageComplete), Done))),
                       false)
  {
  }

  lemma {:induction false} ReportLast(log: seq<Event>, c: Octet)
    ensures Report(log, None, Then(Mark(Body), Then(Deliver(Body), Then(Notify(MessageComplete), Done))), c)
            == Push(log, Piece(Body, [c])) + [Note(MessageComplete)]
  {
    hide Push;
    PushTwice(log, Body, [], [c]);
    assert [] + [c] == [c];
    PushNote(Push(log, Piece(Body, [c])), MessageComplete);
  }

  lemma {:induction false} FixedRead(s: Settings, m: Machine, data: seq<Octet>, o: nat, p: Parser, log: seq<Event>,
                                     d: seq<Octet>)
    requires o <= |data| && At(s, m, data, o, p, log) && p.state == Content(Identity) && !p.upgrade
    requires p.kind != Both && !p.usesTransferEncoding && Here(data, o, d) && 0 < |d| == p.contentLength < ULLONG_MAX
    ensures var q := p.(contentLength := 0);
            At(s, m, data, o + |d|, q.(state := NextState(q)), Push(log, Piece(Body, d)) + [Note(MessageComplete)])
  {
    hide Run, Step, Report, Push, NextState;
    var n := |d|;
    var c := d[n - 1];
    HereAt(data, o, d, n - 1);
    BodyRun(s, m, data, o, o + n - 1, p, log);
    var before := if n == 1 then log else Push(log, Piece(Body, data[o..o + n - 1]));
    var q := p.(contentLength := 1);
    AtNext(s, m, data, o + n - 1, q, before);
    LastStep(s, q, c);
    ReportLast(before, c);
    if n == 1 {
      assert [c] == d;
    } else {
      assert data[o..o + n - 1] + [c] == data[o..o + n] == d;
      PushTwice(log, Body, data[o..o + n - 1], [c]);
    }
  }

  // ----- The head of a message, to its empty line -----

  /** The lines and the carriage return after them. */
  lemma {:induction false} LinesEnd(s: Settings, m: Machine, data: seq<Octet>, o: nat, p: Parser, log: seq<Event>,
                                    ls: seq<HeadLine>)
    returns (q: Parser)
    requires o <= |data| && At(s, m, data, o, p, log) && p.errno == Ok && p.state == Header(FieldStart) && !p.lenient
    requires !LastIs(log, Field) && ProperHeads(ls) && OneLength(ls, p.flags.contentLength)
    requires Here(data, o, HeadText(ls) + CRLF) && p.nread + |HeadText(ls)| + 2 <= s.maxHeaderSize
    ensures var e := o + |HeadText(ls)|;
            && e + 1 < |data| && data[e + 1] == LF && At(s, m, data, e + 1, q, log + HeadPieces(ls))
    ensures q.state == Header(HeadersAlmostDone) && q.errno == Ok && q.nread == p.nread + |HeadText(ls)| + 1
    ensures Core(q) == Core(p) && HeadOf(q) == Headings(HeadOf(p), ls)
  {
    hide At, Run, Step, Flushed, LogStart, ProperHeads, OneLength, HeadText, HeadPieces, Headings;
    HereSplit(data, o, HeadText(ls), CRLF);
    SettledAlready(p, log);
    var r, pending, log' := HeadReported(s, m, data, o, p, false, log, ls);
    var e := o + |HeadText(ls)|;
    HereInside(data, e, CRLF);
    HereAt(data, e, CRLF, 0);
    HereAt(data, e, CRLF, 1);
    HeadersEnd(s, m, data, e, r, pending, log');
    q := Settled(r).(state := Header(HeadersAlmostDone), nread := r.nread + 1);
    FlushedNow(log);
    SettledSame(r);
    AlmostDoneSame(Settled(r), q);
    StartErrno(r, pending);
  }

  lemma {:induction false} SettledAlready(p: Parser, log: seq<Event>)
    requires p.errno == Ok && p.state == Header(FieldStart) && !LastIs(log, Field)
    ensures LineStart(p, false) && LogStart(log, false) && Settled(p) == p
  {
  }

  lemma {:induction false} AlmostDoneSame(p: Parser, q: Parser)
    requires q == p.(state := q.state, nread := q.nread)
    ensures Core(q) == Core(p) && HeadOf(q) == HeadOf(p)
  {
  }

  // ----- Bodies as they are sent and reported -----

  datatype BodyPart = NoBody | Bytes(bytes: seq<Octet>) | InChunks(chunks: seq<ChunkText>, trailer: seq<HeaderText>)
    | Rest(bytes: seq<Octet>)

  /** The body is sent as the framing says. */
  predicate BodyFits(s: Settings, f: Framing, b: BodyPart) {
    match f
    case Refused => false
    case Nothing => b.NoBody?
    case Fixed(n) => b.Bytes? && |b.bytes| == n
    case Chunks =>
      b.InChunks? && IsStream(s, b.chunks) && ProperLines(b.trailer) && |Lines(b.trailer)| + 2 <= s.maxHeaderSize
    case ToEnd => b.Rest?
  }

  function BodyBytes(b: BodyPart): seq<Octet> {
    match b
    case NoBody => []
    case Bytes(bytes) => bytes
    case InChunks(chunks, trailer) => BodyText(chunks, trailer)
    case Rest(bytes) => bytes
  }

  /** A body without a length is over when the connection is closed. */
  function BodyReport(b: BodyPart): seq<Event> {
    match b
    case NoBody => [Note(MessageComplete)]
    case Bytes(bytes) => [Piece(Body, bytes), Note(MessageComplete)]
    case InChunks(chunks, trailer) => BodyEvents(chunks, trailer)
    case Rest(bytes) => if bytes == [] then [] else [Piece(Body, bytes)]
  }

  /** Where the parser is after the body. */
  predicate Ended(q: Parser, b: BodyPart) {
    q.state == if b.Rest? then Content(IdentityEof) else NextState(q)
  }

  /** What the header counter keeps of the body. */
  function Leftover(b: BodyPart): nat { if b.InChunks? then |Lines(b.trailer)| + 2 else 0 }

  /** What a body leaves alone. */
  predicate Carried(p: Parser, q: Parser) {
    && q.kind == p.kind && q.lenient == p.lenient && q.allowChunkedLength == p.allowChunkedLength && q.errno == p.errno
    && q.verb == p.verb && q.major == p.major && q.minor == p.minor
    && q.flags.close == p.flags.close && q.flags.keepAlive == p.flags.keepAlive
  }

  lemma {:induction false} ChunkedNext(q: Parser)
    requires q.state == NewMessage(q.(state := Content(MessageDone))) && q.flags.chunked
    ensures q.state == NextState(q)
  {
  }

  lemma {:induction false} HeadedChunks(s: Settings, p: Parser)
    requires AtEmptyLine(s, p) && FramingFor(s, p).Chunks?
    ensures AtChunk(Headed(s, p).(state := Chunk(SizeStart)))
  {
  }

  lemma {:induction false} HeadedFixed(s: Settings, p: Parser)
    requires AtEmptyLine(s, p) && FramingFor(s, p).Fixed?
    ensures var q := Headed(s, p);
            && !q.upgrade && q.kind != Both && !q.usesTransferEncoding
            && 0 < FramingFor(s, p).length == q.contentLength < ULLONG_MAX
  {
  }

  lemma {:induction false} PushBody(log: seq<Event>, bytes: seq<Octet>)
    ensures Push(log + [Note(HeadersComplete)], Piece(Body, bytes)) == log + [Note(HeadersComplete), Piece(Body, bytes)]
  {
    PushNote(log, HeadersComplete);
  }

  /** What follows the header lines: the rest of the empty line and the body. */
  lemma {:induction false} BodyRead(s: Settings, m: Machine, data: seq<Octet>, o: nat, p: Parser, log: seq<Event>,
                                    b: BodyPart)
    returns (q: Parser)
    requires o < |data| && At(s, m, data, o, p, log) && data[o] == LF && AtEmptyLine(s, p) && !Conflicts(p)
    requires BodyFits(s, FramingFor(s, p), b) && Here(data, o + 1, BodyBytes(b))
    ensures o + 1 + |BodyBytes(b)| <= |data|
    ensures At(s, m, data, o + 1 + |BodyBytes(b)|, q, log + [Note(HeadersComplete)] + BodyReport(b)) && Ended(q, b)
    ensures Carried(p, q) && q.nread == Leftover(b)
  {
    hide Run, At, Step, Push, AtEmptyLine, Conflicts, FramingFor, NextState, IsStream, ProperLines, BodyEvents,
      BodyText, Here, AtChunk;
    HereInside(data, o + 1, BodyBytes(b));
    HeadAccepted(s, m, data, o, p, log);
    var r := Headed(s, p);
    var log' := log + [Note(HeadersComplete)];
    match FramingFor(s, p)
    case Nothing =>
      q := r.(state := NextState(r));
      StateOnly(r, NextState(r));
    case Fixed(n) =>
      HeadedFixed(s, p);
      var r1 := r.(state := Content(Identity));
      FixedRead(s, m, data, o + 1, r1, log', b.bytes);
      PushBody(log, b.bytes);
      var r2 := r1.(contentLength := 0);
      q := r2.(state := NextState(r2));
      StateOnly(r2, NextState(r2));
      assert log + [Note(HeadersComplete), Piece(Body, b.bytes)] + [Note(MessageComplete)] == log' + BodyReport(b);
    case Chunks =>
      q := ChunksRead(s, m, data, o + 1, p, log', b);
    case ToEnd =>
      q := r.(state := Content(IdentityEof));
      ToEndRead(s, m, data, o + 1, q, log, b.bytes);
    case Refused => assert false;
  }

  lemma {:induction false} StateOnly(p: Parser, st: State)
    ensures NextState(p.(state := st)) == NextState(p)
  {
  }

  lemma {:induction false} ChunksRead(s: Settings, m: Machine, data: seq<Octet>, o: nat, p: Parser, log: seq<Event>,
                                      b: BodyPart)
    returns (q: Parser)
    requires o <= |data| && At(s, m, data, o, Headed(s, p).(state := Chunk(SizeStart)), log) && AtEmptyLine(s, p)
    requires FramingFor(s, p).Chunks? && BodyFits(s, Chunks, b) && Here(data, o, BodyBytes(b))
    ensures o + |BodyBytes(b)| <= |data| && At(s, m, data, o + |BodyBytes(b)|, q, log + BodyReport(b)) && Ended(q, b)
    ensures Carried(p, q) && q.nread == Leftover(b)
  {
    hide Run, At, Step, AtEmptyLine, FramingFor, NextState, NewMessage, IsStream, ProperLines, BodyEvents, BodyText,
      Here, AtChunk;
    HereInside(data, o, BodyBytes(b));
    HeadedChunks(s, p);
    var r := Headed(s, p).(state := Chunk(SizeStart));
    q := ChunksRoundTrip(s, m, data, o, r, log, b.chunks, b.trailer);
    ChunkFlags(r);
    ChunkedNext(q);
  }

  lemma {:induction false} ChunkFlags(p: Parser)
    requires AtChunk(p)
    ensures p.flags.chunked
  {
  }

  lemma {:induction false} ToEndRead(s: Settings, m: Machine, data: seq<Octet>, o: nat, p: Parser, log: seq<Event>,
                                     d: seq<Octet>)
    requires o <= |data| && At(s, m, data, o, p, log + [Note(HeadersComplete)]) && p.state == Content(IdentityEof)
    requires Here(data, o, d)
    ensures At(s, m, data, o + |d|, p,
               log + [Note(HeadersComplete)] + if d == [] then [] else [Piece(Body, d)])
  {
    hide Run, Step, Push;
    BodyRun(s, m, data, o, o + |d|, p, log + [Note(HeadersComplete)]);
    PushBody(log, d);
    assert log + [Note(HeadersComplete)] + [] == log + [Note(HeadersComplete)];
    assert log + [Note(HeadersComplete)] + [Piece(Body, d)] == log + [Note(HeadersComplete), Piece(Body, d)];
  }

  // ----- Messages -----

  datatype StartLine =
    | RequestStart(word: seq<Octet>, url: seq<Octet>, major: Octet, minor: Octet)
    | ResponseStart(line: StatusLine)

  datatype Message = Message(start: StartLine, head: seq<HeadLine>, body: BodyPart)

  function RequestOf(t: StartLine): RequestText
    requires t.RequestStart?
  {
    RequestText(t.word, t.url, t.major, t.minor, [])
  }

  function StartText(t: StartLine): seq<Octet> {
    match t
    case RequestStart(word, url, major, minor) => word + SPACE + url + SPACE + HTTP + Version(major, minor)
    case ResponseStart(line) => StatusLineText(line)
  }

  /** A request with this method, or a response with this status. */
  predicate ProperStart(t: StartLine, code: nat) {
    match t
    case RequestStart(_, _, _, _) => ProperRequest(RequestOf(t), code)
    case ResponseStart(line) => ProperStatus(line) && DecimalValue(line.code) == code
  }

  function StartEvents(t: StartLine): seq<Event> {
    [Note(MessageBegin), if t.RequestStart? then Piece(Url, t.url) else Piece(Status, t.line.reason)]
  }

  function MessageText(t: Message): seq<Octet> { StartText(t.start) + HeadText(t.head) + CRLF + BodyBytes(t.body) }

  /** What should be reported for it. */
  function MessageEvents(t: Message): seq<Event> {
    StartEvents(t.start) + HeadPieces(t.head) + [Note(HeadersComplete)] + BodyReport(t.body)
  }

  /** The parser expects a message of this kind. */
  predicate Expects(p: Parser, t: StartLine) {
    && !p.lenient
    && if t.RequestStart? then AtRequest(p) && p.kind == Request
       else AtResponse(p) && p.kind == Response && p.verb != CONNECT
  }

  /** The version is at least 1.1, with the parser's notion of it. */
  predicate Later(t: StartLine) {
    match t
    case RequestStart(_, _, major, minor) => major > '0' && minor > '0'
    case ResponseStart(line) => line.major > '0' && line.minor > '0'
  }

  const NO_HEAD: Head := Head(NO_FLAGS, ULLONG_MAX, false)

  /** What the lines tell. */
  function HeadOfMessage(t: Message): Head
    requires ProperHeads(t.head)
  {
    Headings(NO_HEAD, t.head)
  }

  predicate ProperMessage(t: Message, code: nat) {
    && ProperStart(t.start, code) && ProperHeads(t.head) && OneLength(t.head, false)
  }

  /** No upgrade is asked for. */
  predicate Stays(t: Message, code: nat)
    requires ProperMessage(t, code)
  {
    var h := HeadOfMessage(t);
    if h.flags.upgrade && h.flags.connectionUpgrade then t.start.ResponseStart? && code != 101
    else t.start.ResponseStart? || code != CONNECT
  }

  function MessageFraming(s: Settings, t: Message, code: nat): Framing
    requires ProperMessage(t, code)
  {
    Framed(t.start.RequestStart?, code, s.headersComplete == 1, HeadOfMessage(t))
  }

  /** The connection stays open after it (RFC 7230, section 6.3). */
  predicate Keeps(t: Message)
    requires ProperHeads(t.head)
  {
    var h := HeadOfMessage(t);
    if Later(t.start) then !h.flags.close else h.flags.keepAlive
  }

  /** Where the parser is after a message. */
  function AfterMessage(t: Message): State
    requires ProperHeads(t.head)
  {
    if t.body.Rest? then Content(IdentityEof)
    else if !Keeps(t) then Dead
    else if t.start.RequestStart? then Req(StartReq)
    else Res(StartRes)
  }

  /** A length and a transfer encoding together are refused, unless the parser was told to allow them for chunks. */
  predicate Contradicts(t: Message, code: nat, allowed: bool)
    requires ProperMessage(t, code)
  {
    var h := HeadOfMessage(t);
    h.encoded && h.flags.contentLength && !(h.flags.chunked && allowed)
  }

  /** The start line. */
  lemma {:induction false} StartRead(s: Settings, m: Machine, data: seq<Octet>, o: nat, p: Parser, log: seq<Event>,
                                     t: StartLine, code: nat)
    returns (q: Parser)
    requires o <= |data| && At(s, m, data, o, p, log) && Expects(p, t) && ProperStart(t, code)
    requires Here(data, o, StartText(t)) && p.nread + |StartText(t)| <= s.maxHeaderSize
    ensures o + |StartText(t)| <= |data| && At(s, m, data, o + |StartText(t)|, q, log + StartEvents(t))
    ensures q.errno == Ok && q.state == Header(FieldStart) && q.nread == p.nread + |StartText(t)|
    ensures HeadOf(q) == NO_HEAD
    ensures q.kind == p.kind && !q.lenient && q.allowChunkedLength == p.allowChunkedLength
    ensures if t.RequestStart? then q.verb == code else q.statusCode == code && q.verb == p.verb
    ensures q.major > 0 && q.minor > 0 <==> Later(t)
  {
    hide At, Run, Step, UrlAccepted, NamesMethod, DecimalValue, Here, DecimalDigits, IsReason, ProperLines;
    HereInside(data, o, StartText(t));
    if t.RequestStart? {
      RequestLineRead(s, m, data, o, p, log, RequestOf(t), code);
      q := AfterLine(p, RequestOf(t), code);
    } else {
      StatusLineRead(s, m, data, o, p, log, t.line);
      q := AfterStatus(p, t.line);
    }
  }

  lemma {:induction false} StartEnds(log: seq<Event>, t: StartLine)
    ensures !LastIs(log + StartEvents(t), Field)
  {
  }

  lemma {:induction false} CoreSame(p: Parser, q: Parser)
    requires Core(p) == Core(q)
    ensures p.kind == q.kind && p.lenient == q.lenient && p.allowChunkedLength == q.allowChunkedLength
    ensures p.verb == q.verb && p.statusCode == q.statusCode && p.major == q.major && p.minor == q.minor
  {
  }

  /**
   * A message with a body as section 3.3.3 of RFC 7230 gives it to the message, in the order in which the parser looks
   * at its headers, is reported with its start line, its header lines, its body and its end, once and exactly as they
   * stand; the parser then expects the next message, or has seen the last, or reads on to the end of the connection. A
   * message that the rule refuses is refused.
   */
  lemma {:induction false} MessageRoundTrip(s: Settings, m: Machine, data: seq<Octet>, o: nat, p: Parser,
                                            log: seq<Event>, t: Message, code: nat)
    returns (q: Parser)
    requires o <= |data| && At(s, m, data, o, p, log) && Expects(p, t.start) && ProperMessage(t, code) && Stays(t, code)
    requires s.headersComplete <= 1 && Here(data, o, MessageText(t))
    requires p.nread + |StartText(t.start)| + |HeadText(t.head)| + 2 <= s.maxHeaderSize
    ensures var f := MessageFraming(s, t, code);
            if Contradicts(t, code, p.allowChunkedLength) || f.Refused? then Fails(s, m, data)
            else
              BodyFits(s, f, t.body) ==>
                && o + |MessageText(t)| <= |data|
                && At(s, m, data, o + |MessageText(t)|, q, log + MessageEvents(t))
                && q.state == AfterMessage(t) && q.nread == Leftover(t.body)
                && q.kind == p.kind && !q.lenient && q.allowChunkedLength == p.allowChunkedLength
                && (t.start.ResponseStart? ==> q.verb == p.verb)
  {
    hide At, Run, Step, Fails, ProperStart, StartText, StartEvents, HeadText, HeadPieces, ProperHeads, OneLength,
      Headings, BodyBytes, BodyReport, BodyFits, Here, NextState, Ended, Consistent, AfterMessage, Leftover;
    var n, k := |StartText(t.start)|, |HeadText(t.head)|;
    HereSplit(data, o, StartText(t.start) + HeadText(t.head) + CRLF, BodyBytes(t.body));
    assert StartText(t.start) + HeadText(t.head) + CRLF == StartText(t.start) + (HeadText(t.head) + CRLF);
    HereSplit(data, o, StartText(t.start), HeadText(t.head) + CRLF);
    var p1 := StartRead(s, m, data, o, p, log, t.start, code);
    StartEnds(log, t.start);
    var p2 := LinesEnd(s, m, data, o + n, p1, log + StartEvents(t.start), t.head);
    CoreSame(p1, p2);
    NoHeadConsistent();
    HeadingsConsistent(NO_HEAD, t.head);
    var log2 := log + StartEvents(t.start) + HeadPieces(t.head);
    q := p2;
    if Contradicts(t, code, p.allowChunkedLength) || MessageFraming(s, t, code).Refused? {
      HeadRefused(s, m, data, o + n + k + 1, p2, log2);
    } else if BodyFits(s, MessageFraming(s, t, code), t.body) {
      q := BodyRead(s, m, data, o + n + k + 1, p2, log2, t.body);
      assert log2 + [Note(HeadersComplete)] + BodyReport(t.body) == log + MessageEvents(t);
      EndsAsKept(p2, q, t);
    }
  }

  lemma {:induction false} EndsAsKept(p: Parser, q: Parser, t: Message)
    requires ProperHeads(t.head) && Carried(p, q) && Ended(q, t.body) && HeadOf(p) == HeadOfMessage(t)
    requires (p.major > 0 && p.minor > 0 <==> Later(t.start)) && (p.kind == Request <==> t.start.RequestStart?)
    ensures q.state == AfterMessage(t)
  {
    hide Headings, ProperHeads;
  }

  lemma {:induction false} NoHeadConsistent()
    ensures Consistent(NO_HEAD)
  {
  }

  // ----- One message after another -----

  datatype Numbered = Numbered(message: Message, code: nat)

  /**
   * Messages of one kind, all but the last of which keep the connection open; `left` is what the header counter has.
   */
  predicate InSequence(s: Settings, ts: seq<Numbered>, request: bool, allowed: bool, left: nat) {
    ts == [] ||
    (var t, code := ts[0].message, ts[0].code;
     && t.start.RequestStart? == request && ProperMessage(t, code) && Stays(t, code) && !Contradicts(t, code, allowed)
     && BodyFits(s, MessageFraming(s, t, code), t.body)
     && left + |StartText(t.start)| + |HeadText(t.head)| + 2 <= s.maxHeaderSize
     && (|ts| > 1 ==> Keeps(t) && !t.body.Rest?)
     && InSequence(s, ts[1..], request, allowed, Leftover(t.body)))
  }

  function AllText(ts: seq<Numbered>): seq<Octet> {
    if ts == [] then [] else MessageText(ts[0].message) + AllText(ts[1..])
  }

  function AllEvents(ts: seq<Numbered>): seq<Event> {
    if ts == [] then [] else MessageEvents(ts[0].message) + AllEvents(ts[1..])
  }

  predicate ExpectsKind(p: Parser, request: bool) {
    && !p.lenient
    && if request then AtRequest(p) && p.kind == Request else AtResponse(p) && p.kind == Response && p.verb != CONNECT
  }

  lemma {:induction false} FitsNotRefused(s: Settings, f: Framing, b: BodyPart)
    ensures BodyFits(s, f, b) ==> !f.Refused?
  {
    hide IsStream, ProperLines;
  }

  lemma {:induction false} NextExpected(q: Parser, t: Message, request: bool)
    requires ProperHeads(t.head) && Keeps(t) && !t.body.Rest? && q.state == AfterMessage(t) && q.errno == Ok
    requires !q.lenient
    requires t.start.RequestStart? == request && q.kind == (if request then Request else Response)
    requires !request ==> q.verb != CONNECT
    ensures ExpectsKind(q, request)
  {
    hide ProperHeads, Keeps;
  }

  /**
   * Messages that follow each other on a connection are reported one after another, none of them taken for another's
   * body.
   */
  lemma {:induction false} MessagesReported(s: Settings, m: Machine, data: seq<Octet>, o: nat, p: Parser,
                                            log: seq<Event>, ts: seq<Numbered>, request: bool)
    returns (q: Parser)
    requires o <= |data| && At(s, m, data, o, p, log) && ExpectsKind(p, request) && s.headersComplete <= 1
    requires InSequence(s, ts, request, p.allowChunkedLength, p.nread) && Here(data, o, AllText(ts))
    ensures o + |AllText(ts)| <= |data| && At(s, m, data, o + |AllText(ts)|, q, log + AllEvents(ts))
    decreases |ts|
  {
    hide At, Run, Step, Fails, ProperMessage, Stays, Contradicts, MessageFraming, BodyFits, MessageText, MessageEvents,
      Here, Keeps, AfterMessage, StartText, HeadText, Leftover;
    HereInside(data, o, AllText(ts));
    if ts == [] {
      q := p;
      assert log + [] == log;
    } else {
      var t, code := ts[0].message, ts[0].code;
      HereSplit(data, o, MessageText(t), AllText(ts[1..]));
      FitsNotRefused(s, MessageFraming(s, t, code), t.body);
      var q1 := MessageRoundTrip(s, m, data, o, p, log, t, code);
      if |ts| > 1 {
        AtIsOk(s, m, data, o + |MessageText(t)|, q1, log + MessageEvents(t));
        ProperHasHeads(t, code);
        NextExpected(q1, t, request);
        q := MessagesReported(s, m, data, o + |MessageText(t)|, q1, log + MessageEvents(t), ts[1..], request);
        assert log + MessageEvents(t) + AllEvents(ts[1..]) == log + AllEvents(ts);
      } else {
        q := q1;
        assert ts[1..] == [];
        assert MessageText(t) + [] == MessageText(t) && MessageEvents(t) + [] == MessageEvents(t);
      }
    }
  }

  lemma {:induction false} AtIsOk(s: Settings, m: Machine, data: seq<Octet>, o: nat, p: Parser, log: seq<Event>)
    requires o <= |data| && At(s, m, data, o, p, log)
    ensures p.errno == Ok
  {
    hide Run;
  }

  lemma {:induction false} ProperHasHeads(t: Message, code: nat)
    ensures ProperMessage(t, code) ==> ProperHeads(t.head)
  {
    hide ProperHeads;
  }
}

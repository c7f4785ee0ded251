/** The state machine of http_parser_execute, one byte at a time (HTTP_PARSER_STRICT). */
module HttpMachine {
  import opened HttpChars

  datatype MessageType = Request | Response | Both

  /** enum state, by group: the order of the source only separates header states from body states. */
  datatype State =
    | Dead
    | Res(res: ResState)
    | Req(req: ReqState)
    | InUrl(url: UrlState)
    | Header(header: HeadState)
    | Chunk(chunk: ChunkState)
    | Content(content: ContentState)
  {
    /** PARSING_HEADER */
    predicate ParsingHeader() {
      !Content? && !(Chunk? && (chunk.Data? || chunk.DataAlmostDone? || chunk.DataDone?))
    }
  }

  /** Status lines: s_start_res, s_res_* */
  datatype ResState =
    | StartRes | ResH | ResHT | ResHTT | ResHTTP | ResHttpMajor | ResHttpDot | ResHttpMinor | ResHttpEnd
    | FirstStatusCode | StatusCode | StatusStart | StatusText | ResLineAlmostDone

  /** Request lines outside the URL: s_start_req_or_res, s_res_or_resp_H, s_start_req, s_req_* */
  datatype ReqState =
    | StartReqOrRes | ResOrRespH | StartReq | Method | SpacesBeforeUrl | HttpStart | HttpH | HttpHT | HttpHTT | HttpHTTP
    | HttpI | HttpIC | HttpMajor | HttpDot | HttpMinor | HttpEnd | ReqLineAlmostDone

  /** Inside a URL: s_req_schema to s_req_fragment */
  datatype UrlState =
    | Schema | SchemaSlash | SchemaSlashSlash | ServerStart | Server | ServerWithAt | Path
    | QueryStringStart | QueryString | FragmentStart | Fragment

  /** Header lines: s_header_*, s_headers_* */
  datatype HeadState =
    | FieldStart | InField | DiscardWs | DiscardWsAlmostDone | DiscardLws | ValueStart | InValue | ValueLws | AlmostDone
    | HeadersAlmostDone | HeadersDone

  /** Chunked bodies: s_chunk_* */
  datatype ChunkState = SizeStart | Size | Parameters | SizeAlmostDone | Data | DataAlmostDone | DataDone

  /** Other bodies: s_body_* and s_message_done */
  datatype ContentState = Identity | IdentityEof | MessageDone

  datatype HeaderState =
    | General | C | CO | CON
    | MatchingConnection | MatchingProxyConnection | MatchingContentLength | MatchingTransferEncoding | MatchingUpgrade
    | Connection | ContentLength | ContentLengthNum | ContentLengthWs | TransferEncoding | Upgrade
    | MatchingTransferEncodingTokenStart | MatchingTransferEncodingChunked | MatchingTransferEncodingToken
    | MatchingConnectionTokenStart | MatchingConnectionKeepAlive | MatchingConnectionClose | MatchingConnectionUpgrade
    | MatchingConnectionToken
    | TransferEncodingChunked | ConnectionKeepAlive | ConnectionClose | ConnectionUpgrade

  datatype Flags = Flags(chunked: bool, keepAlive: bool, close: bool, connectionUpgrade: bool, trailing: bool,
                         upgrade: bool, skipBody: bool, contentLength: bool)

  const NO_FLAGS := Flags(false, false, false, false, false, false, false, false)

  datatype Errno =
    | Ok | CbHeadersComplete | InvalidEofState | HeaderOverflow | ClosedConnection | InvalidVersion | InvalidStatus
    | InvalidMethod | InvalidUrl | LfExpected | InvalidHeaderToken | InvalidContentLength | UnexpectedContentLength
    | InvalidChunkSize | InvalidConstant | Strict | InvalidTransferEncoding
    | AssertionFailed  // an assert() of the source

  /** The fields of http_parser. */
  datatype Parser = Parser(
    kind: MessageType, flags: Flags, state: State, headerState: HeaderState, index: nat, usesTransferEncoding: bool,
    allowChunkedLength: bool, lenient: bool, nread: nat, contentLength: nat, major: nat, minor: nat, statusCode: nat,
    verb: nat, errno: Errno, upgrade: bool)

  const ULLONG_MAX: nat := 0xffff_ffff_ffff_ffff

  /** max_header_size, and what on_headers_complete returns. */
  datatype Settings = Settings(maxHeaderSize: nat, headersComplete: nat)

  // ----- What a step does besides changing the parser -----

  datatype DataKind = Url | Status | Field | Value | Body

  datatype Notice =
    | MessageBegin | HeadersComplete | MessageComplete
    | ChunkHeader(length: nat)  // on_chunk_header sees the chunk length in content_length
    | ChunkComplete

  /** MARK, CALLBACK_DATA without or with the current byte, and CALLBACK_NOTIFY. */
  datatype Action = Mark(kind: DataKind) | Close(kind: DataKind) | Deliver(kind: DataKind) | Notify(notice: Notice)

  datatype Actions = Done | Then(first: Action, rest: Actions)

  /** Next byte, or leave http_parser_execute for an upgrade; an error is in the parser. */
  datatype Outcome = Outcome(parser: Parser, actions: Actions, stop: bool)

  function Go(p: Parser): Outcome { Outcome(p, Done, false) }

  function To(p: Parser, s: State): Outcome { Go(p.(state := s)) }

  function Fail(p: Parser, e: Errno): Outcome { Go(p.(errno := e)) }

  /** STRICT_CHECK(!cond), then move on. */
  function Expect(p: Parser, cond: bool, s: State): Outcome {
    if cond then To(p, s) else Fail(p, Strict)
  }

  /** Do an action before those of the rest of the step. */
  function After(a: Action, o: Outcome): Outcome { o.(actions := Then(a, o.actions)) }

  // ----- Message framing -----

  function MessageNeedsEof(p: Parser): bool {
    if p.kind == Request then false
    else if p.statusCode / 100 == 1 || p.statusCode == 204 || p.statusCode == 304 || p.flags.skipBody then false
    else if p.usesTransferEncoding && !p.flags.chunked then true
    else if p.flags.chunked || p.contentLength != ULLONG_MAX then false
    else true
  }

  function ShouldKeepAlive(p: Parser): bool {
    if p.major > 0 && p.minor > 0
    then !p.flags.close && !MessageNeedsEof(p)
    else p.flags.keepAlive && !MessageNeedsEof(p)
  }

  function NewMessage(p: Parser): State {
    if !ShouldKeepAlive(p) then Dead else if p.kind == Request then Req(StartReq) else Res(StartRes)
  }

  // ----- Methods -----

  const METHODS: seq<string> :=
    ["DELETE", "GET", "HEAD", "POST", "PUT", "CONNECT", "OPTIONS", "TRACE", "COPY", "LOCK", "MKCOL", "MOVE",
     "PROPFIND", "PROPPATCH", "SEARCH", "UNLOCK", "BIND", "REBIND", "UNBIND", "ACL", "REPORT", "MKACTIVITY",
     "CHECKOUT", "MERGE", "M-SEARCH", "NOTIFY", "SUBSCRIBE", "UNSUBSCRIBE", "PATCH", "PURGE", "MKCALENDAR", "LINK",
     "UNLINK", "SOURCE"]

  function MethodName(verb: nat): string
    requires verb < 34
  {
    METHODS[verb]
  }

  const HEAD: nat := 2
  const CONNECT: nat := 5
  const SOURCE: nat := 33

  /** Character i of a C string, which ends with NUL. */
  function CharAt(s: string, i: nat): char { if i < |s| then s[i] else '\0' }

  function MethodOfLetter(c: Octet): (m: int)
    ensures -1 <= m < 34
  {
    match c
    case 'A' => 19
    case 'B' => 16
    case 'C' => CONNECT
    case 'D' => 0
    case 'G' => 1
    case 'H' => HEAD
    case 'L' => 9
    case 'M' => 10
    case 'N' => 25
    case 'O' => 6
    case 'P' => 3
    case 'R' => 20
    case 'S' => 26
    case 'T' => 7
    case 'U' => 15
    case _ => -1
  }

  /** The method to try instead when character `index` is c and not what the method has there. */
  function OtherMethod(verb: nat, index: nat, c: Octet): (m: int)
    ensures -1 <= m < 34
  {
    match (verb, index, c)
    case (3, 1, 'U') => 4
    case (3, 1, 'A') => 28
    case (3, 1, 'R') => 12
    case (4, 2, 'R') => 29
    case (5, 1, 'H') => 22
    case (5, 2, 'P') => 8
    case (10, 1, 'O') => 11
    case (10, 1, 'E') => 23
    case (10, 1, '-') => 24
    case (10, 2, 'A') => 21
    case (10, 3, 'A') => 30
    case (26, 1, 'E') => 14
    case (26, 1, 'O') => SOURCE
    case (20, 2, 'B') => 17
    case (12, 4, 'P') => 13
    case (9, 1, 'I') => 31
    case (15, 2, 'S') => 27
    case (15, 2, 'B') => 18
    case (15, 3, 'I') => 32
    case _ => -1
  }

  /** The 5-bit field `index` after ++. */
  function Increment(i: nat): nat { (i + 1) % 32 }

  // ----- URLs -----

  datatype UrlResult = BadUrl | UrlOk(state: UrlState)

  /** parse_url_char, before the first character of the URL. */
  function ParseUrlStart(c: Octet): UrlResult {
    if c == '/' || c == '*' then UrlOk(Path) else if IsAlpha(c) then UrlOk(Schema) else BadUrl
  }

  /** parse_url_char, inside the URL. */
  function ParseUrlChar(s: UrlState, c: Octet): UrlResult {
    if c == ' ' || c == CR || c == LF || c == '\t' || c == '\U{000C}' then BadUrl
    else
      match s
      case Schema => if IsAlpha(c) then UrlOk(s) else if c == ':' then UrlOk(SchemaSlash) else BadUrl
      case SchemaSlash => if c == '/' then UrlOk(SchemaSlashSlash) else BadUrl
      case SchemaSlashSlash => if c == '/' then UrlOk(ServerStart) else BadUrl
      case ServerWithAt => if c == '@' then BadUrl else ParseServerChar(c)
      case ServerStart => ParseServerChar(c)
      case Server => ParseServerChar(c)
      case Path =>
        if IsUrlChar(c) then UrlOk(s)
        else if c == '?' then UrlOk(QueryStringStart)
        else if c == '#' then UrlOk(FragmentStart) else BadUrl
      case QueryStringStart => ParseQueryChar(c)
      case QueryString => ParseQueryChar(c)
      case FragmentStart =>
        if IsUrlChar(c) || c == '?' then UrlOk(Fragment) else if c == '#' then UrlOk(s) else BadUrl
      case Fragment => if IsUrlChar(c) || c == '?' || c == '#' then UrlOk(s) else BadUrl
  }

  function ParseServerChar(c: Octet): UrlResult {
    if c == '/' then UrlOk(Path)
    else if c == '?' then UrlOk(QueryStringStart)
    else if c == '@' then UrlOk(ServerWithAt)
    else if IsUserinfoChar(c) || c == '[' || c == ']' then UrlOk(Server)
    else BadUrl
  }

  function ParseQueryChar(c: Octet): UrlResult {
    if IsUrlChar(c) || c == '?' then UrlOk(QueryString) else if c == '#' then UrlOk(FragmentStart) else BadUrl
  }

  // ----- One byte in each state -----

  /** What every new message resets. */
  function Fresh(p: Parser): Parser {
    p.(flags := NO_FLAGS, usesTransferEncoding := false, contentLength := ULLONG_MAX)
  }

  /** The byte that a state insists on and the state after it. */
  function ResLiteral(s: ResState): (Octet, State) {
    match s
    case ResH => ('T', Res(ResHT))
    case ResHT => ('T', Res(ResHTT))
    case ResHTT => ('P', Res(ResHTTP))
    case ResHTTP => ('/', Res(ResHttpMajor))
    case _ => (LF, Header(FieldStart))  // ResLineAlmostDone
  }

  /** The states of a status line. */
  function ResponseLine(p: Parser, s: ResState, c: Octet): Outcome {
    match s
    case StartRes =>
      if c == CR || c == LF then Go(p)
      else if c == 'H' then After(Notify(MessageBegin), To(Fresh(p), Res(ResH))) else Fail(Fresh(p), InvalidConstant)
    case StatusCode => OnStatusCode(p, c)
    case StatusStart => OnStatusStart(p, c)
    case StatusText => OnStatus(p, c)
    case ResH | ResHT | ResHTT | ResHTTP | ResLineAlmostDone => Expect(p, c == ResLiteral(s).0, ResLiteral(s).1)
    case _ => ResponseVersion(p, s, c)
  }

  function ResponseVersion(p: Parser, s: ResState, c: Octet): Outcome {
    match s
    case ResHttpMajor => if IsNum(c) then To(p.(major := Digit(c)), Res(ResHttpDot)) else Fail(p, InvalidVersion)
    case ResHttpDot => if c == '.' then To(p, Res(ResHttpMinor)) else Fail(p, InvalidVersion)
    case ResHttpMinor => if IsNum(c) then To(p.(minor := Digit(c)), Res(ResHttpEnd)) else Fail(p, InvalidVersion)
    case ResHttpEnd => if c == ' ' then To(p, Res(FirstStatusCode)) else Fail(p, InvalidVersion)
    case _ =>  // FirstStatusCode
      if IsNum(c) then To(p.(statusCode := Digit(c)), Res(StatusCode))
      else if c == ' ' then Go(p) else Fail(p, InvalidStatus)
  }

  function OnStatusCode(p: Parser, c: Octet): Outcome {
    if IsNum(c) then
      var code := 10 * p.statusCode + Digit(c);
      if code > 999 then Fail(p, InvalidStatus) else Go(p.(statusCode := code))
    else if c == ' ' then To(p, Res(StatusStart))
    else if c == CR || c == LF then OnStatusStart(p, c)
    else Fail(p, InvalidStatus)
  }

  function OnStatusStart(p: Parser, c: Octet): Outcome {
    var q := p.(state := Res(StatusText), index := 0);
    After(Mark(Status), if c == CR || c == LF then OnStatus(q, c) else Go(q))
  }

  function OnStatus(p: Parser, c: Octet): Outcome {
    if c == CR then After(Close(Status), To(p, Res(ResLineAlmostDone)))
    else if c == LF then After(Close(Status), To(p, Header(FieldStart)))
    else Go(p)
  }

  function OnStartReq(p: Parser, c: Octet): Outcome {
    if c == CR || c == LF then Go(p)
    else
      var m := MethodOfLetter(c);
      if m < 0 then Fail(Fresh(p), InvalidMethod)
      else After(Notify(MessageBegin), To(Fresh(p).(verb := m, index := 1), Req(Method)))
  }

  function OnMethod(p: Parser, c: Octet): Outcome {
    if p.verb >= 34 || p.index > |MethodName(p.verb)| then Fail(p, AssertionFailed)  // outside the string
    else if c == '\0' then Fail(p, InvalidMethod)
    else
      var expected := CharAt(MethodName(p.verb), p.index);
      var next := p.(index := Increment(p.index));
      if c == ' ' && expected == '\0' then To(next, Req(SpacesBeforeUrl))
      else if c == expected then Go(next)
      else if 'A' <= c <= 'Z' || c == '-' then
        var m := OtherMethod(p.verb, p.index, c);
        if m < 0 then Fail(p, InvalidMethod) else Go(next.(verb := m))
      else Fail(p, InvalidMethod)
  }

  function ReqLiteral(s: ReqState): (Octet, State) {
    match s
    case HttpH => ('T', Req(HttpHT))
    case HttpHT => ('T', Req(HttpHTT))
    case HttpHTT => ('P', Req(HttpHTTP))
    case HttpI => ('C', Req(HttpIC))
    case HttpIC => ('E', Req(HttpHTTP))
    case _ => ('/', Req(HttpMajor))  // HttpHTTP
  }

  /** The states of a request line other than those inside its URL. */
  function RequestLine(p: Parser, s: ReqState, c: Octet): Outcome {
    match s
    case StartReqOrRes =>
      if c == CR || c == LF then Go(p)
      else if c == 'H' then After(Notify(MessageBegin), To(Fresh(p), Req(ResOrRespH)))
      else OnStartReq(Fresh(p).(kind := Request, state := Req(StartReq)), c)
    case ResOrRespH =>
      if c == 'T' then To(p.(kind := Response), Res(ResHT))
      else if c == 'E' then To(p.(kind := Request, verb := HEAD, index := 2), Req(Method))
      else Fail(p, InvalidConstant)
    case StartReq => OnStartReq(p, c)
    case Method => OnMethod(p, c)
    case SpacesBeforeUrl =>
      if c == ' ' then Go(p)
      else After(Mark(Url), OnUrl(p, if p.verb == CONNECT then ParseUrlChar(ServerStart, c) else ParseUrlStart(c)))
    case HttpStart =>
      if c == ' ' then Go(p)
      else if c == 'H' then To(p, Req(HttpH))
      else if c == 'I' && p.verb == SOURCE then To(p, Req(HttpI))
      else Fail(p, InvalidConstant)
    case HttpH | HttpHT | HttpHTT | HttpHTTP | HttpI | HttpIC => Expect(p, c == ReqLiteral(s).0, ReqLiteral(s).1)
    case _ => RequestVersion(p, s, c)
  }

  function RequestVersion(p: Parser, s: ReqState, c: Octet): Outcome {
    match s
    case HttpMajor => if IsNum(c) then To(p.(major := Digit(c)), Req(HttpDot)) else Fail(p, InvalidVersion)
    case HttpDot => if c == '.' then To(p, Req(HttpMinor)) else Fail(p, InvalidVersion)
    case HttpMinor => if IsNum(c) then To(p.(minor := Digit(c)), Req(HttpEnd)) else Fail(p, InvalidVersion)
    case HttpEnd =>
      if c == CR then To(p, Req(ReqLineAlmostDone)) else if c == LF then To(p, Header(FieldStart))
      else Fail(p, InvalidVersion)
    case _ => /* ReqLineAlmostDone */ if c == LF then To(p, Header(FieldStart)) else Fail(p, LfExpected)
  }

  function OnUrl(p: Parser, r: UrlResult): Outcome {
    if r.BadUrl? then Fail(p, InvalidUrl) else To(p, InUrl(r.state))
  }

  /** The URL of a request line. */
  function RequestUrl(p: Parser, s: UrlState, c: Octet): Outcome {
    if c != ' ' && c != CR && c != LF then OnUrl(p, ParseUrlChar(s, c))
    else if s.Schema? || s.SchemaSlash? || s.SchemaSlashSlash? || s.ServerStart? then Fail(p, InvalidUrl)
    else if c == ' ' then After(Close(Url), To(p, Req(HttpStart)))
    else After(Close(Url),
               To(p.(major := 0, minor := 9), if c == CR then Req(ReqLineAlmostDone) else Header(FieldStart)))
  }

  // ----- Header fields -----

  function OnHeaderFieldStart(s: Settings, p: Parser, c: Octet): Outcome {
    if c == CR then To(p, Header(HeadersAlmostDone))
    else if c == LF then OnHeadersAlmostDone(s, p.(state := Header(HeadersAlmostDone)), c)
    else if Token(c) == '\0' then Fail(p, InvalidHeaderToken)
    else
      var h := match Token(c)
               case 'c' => C
               case 'p' => MatchingProxyConnection
               case 't' => MatchingTransferEncoding
               case 'u' => MatchingUpgrade
               case _ => General;
      After(Mark(Field), To(p.(index := 0, headerState := h), Header(InField)))
  }

  /** Compare character `index` of a header name or value with a word: no match, more to come, or the end. */
  function MatchWord(word: string, index: nat, c: Octet, partial: HeaderState, complete: HeaderState,
                     mismatch: HeaderState): (h: HeaderState)
    ensures h == partial || h == complete || h == mismatch
  {
    if index > |word| || c != CharAt(word, index) then mismatch
    else if index == |word| - 1 then complete
    else partial
  }

  /** Matching a header name; t is the lowered token character, i the index after it. */
  function NextNameState(h: HeaderState, c: Octet, t: Octet, i: nat): HeaderState {
    match h
    case C => if t == 'o' then CO else General
    case CO => if t == 'n' then CON else General
    case CON => if t == 'n' then MatchingConnection else if t == 't' then MatchingContentLength else General
    case MatchingConnection => MatchWord("connection", i, t, h, Connection, General)
    case MatchingProxyConnection => MatchWord("proxy-connection", i, t, h, Connection, General)
    case MatchingContentLength => MatchWord("content-length", i, t, h, ContentLength, General)
    case MatchingTransferEncoding => MatchWord("transfer-encoding", i, t, h, TransferEncoding, General)
    case MatchingUpgrade => MatchWord("upgrade", i, t, h, HeaderState.Upgrade, General)
    case _ => if c != ' ' then General else h  // the name is complete, or was already not a special one
  }

  /** The header states in which a header name is being matched. */
  predicate NameState(h: HeaderState) {
    h.General? || NamePrefix(h) || h.Connection? || h.ContentLength? || h.TransferEncoding? || h.Upgrade?
  }

  /** The name may still become a special one. */
  predicate NamePrefix(h: HeaderState) {
    h.C? || h.CO? || h.CON? || h.MatchingConnection? || h.MatchingProxyConnection? ||
    h.MatchingContentLength? || h.MatchingTransferEncoding? || h.MatchingUpgrade?
  }

  /** A token character (c, lowered to t) of a header name. */
  function FieldChar(p: Parser, c: Octet, t: Octet): Parser {
    if !NameState(p.headerState) then p.(errno := AssertionFailed)
    else
      var i := Increment(p.index);
      var h := NextNameState(p.headerState, c, t, i);
      p.(index := if NamePrefix(p.headerState) then i else p.index,
         headerState := h,
         usesTransferEncoding := p.usesTransferEncoding ||
                                 (p.headerState.MatchingTransferEncoding? && h.TransferEncoding?))
  }

  function OnHeaderField(p: Parser, c: Octet): Outcome {
    if Token(c) != '\0' then Go(FieldChar(p, c, Token(c)))
    else if c == ':' then After(Close(Field), To(p, Header(DiscardWs)))
    else Fail(p, InvalidHeaderToken)
  }

  // ----- Header values -----

  function OnHeaderValueStart(p: Parser, c: Octet): Outcome {
    After(Mark(Value), ValueStart(p.(state := Header(InValue), index := 0), c))
  }

  function FirstValueState(h: HeaderState, l: Octet): HeaderState {
    match h
    case TransferEncoding => if l == 'c' then MatchingTransferEncodingChunked else MatchingTransferEncodingToken
    case ContentLength => ContentLengthNum
    case Connection => ConnectionToken(l)
    case MatchingTransferEncodingTokenStart | ContentLengthWs | MatchingConnectionTokenStart => h
    case _ => General
  }

  function ValueStart(p: Parser, c: Octet): Outcome {
    var h := p.headerState;
    if h.ContentLength? && !IsNum(c) then Fail(p, InvalidContentLength)
    else if h.ContentLength? && p.flags.contentLength then Fail(p, UnexpectedContentLength)
    else
      Go(p.(headerState := FirstValueState(h, Lower(c)),
            contentLength := if h.ContentLength? then Digit(c) else p.contentLength,
            flags := if h.ContentLength? then p.flags.(contentLength := true)
                     else if h.Upgrade? then p.flags.(upgrade := true)
                     else p.flags))
  }

  /** The connection option that may begin with l. */
  function ConnectionToken(l: Octet): (h: HeaderState)
    ensures !h.Connection? && !h.TransferEncoding?
  {
    if l == 'k' then MatchingConnectionKeepAlive
    else if l == 'c' then MatchingConnectionClose
    else if l == 'u' then MatchingConnectionUpgrade
    else MatchingConnectionToken
  }

  /** Inside the value of a Transfer-Encoding header. */
  predicate InEncoding(h: HeaderState) {
    h.MatchingTransferEncodingTokenStart? || h.MatchingTransferEncodingChunked? || h.MatchingTransferEncodingToken? ||
    h.TransferEncodingChunked?
  }

  /** Inside the value of a Connection header. */
  predicate InConnection(h: HeaderState) {
    h.MatchingConnectionTokenStart? || h.MatchingConnectionKeepAlive? || h.MatchingConnectionClose? ||
    h.MatchingConnectionUpgrade? || h.MatchingConnectionToken? || h.ConnectionKeepAlive? || h.ConnectionClose? ||
    h.ConnectionUpgrade?
  }

  /** One byte inside a header value, other than CR and LF. */
  function ValueChar(p: Parser, c: Octet): Parser {
    if !p.lenient && !IsHeaderChar(c) then p.(errno := InvalidHeaderToken)
    else if InEncoding(p.headerState) then EncodingValueChar(p, c)
    else if InConnection(p.headerState) then ConnectionValueChar(p, c)
    else OtherValueChar(p, c)
  }

  function OtherValueChar(p: Parser, c: Octet): Parser {
    if p.headerState.Connection? || p.headerState.TransferEncoding? then p.(errno := AssertionFailed)
    else if p.headerState.ContentLength? || p.headerState.ContentLengthNum? then
      if c != ' ' then LengthDigit(p.(headerState := ContentLengthNum), c)
      else p.(headerState := if p.headerState.ContentLengthNum? then ContentLengthWs else ContentLength)
    else if p.headerState.ContentLengthWs? then p.(errno := if c == ' ' then p.errno else InvalidContentLength)
    else p.(headerState := General)
  }

  function LengthDigit(p: Parser, c: Octet): Parser {
    if !IsNum(c) || (ULLONG_MAX - 10) / 10 < p.contentLength then p.(errno := InvalidContentLength)
    else p.(contentLength := 10 * p.contentLength + Digit(c))
  }

  /** Looking for `chunked` in the value of Transfer-Encoding; i is the index after the byte. */
  function NextEncodingState(h: HeaderState, c: Octet, l: Octet, i: nat): HeaderState {
    match h
    case MatchingTransferEncodingTokenStart =>
      if l == 'c' then MatchingTransferEncodingChunked
      else if l != ' ' && Token(l) != '\0' then MatchingTransferEncodingToken
      else if l == ' ' || l == '\t' then h
      else General
    case MatchingTransferEncodingChunked =>
      MatchWord("chunked", i, l, h, TransferEncodingChunked, MatchingTransferEncodingToken)
    case MatchingTransferEncodingToken => if c == ',' then MatchingTransferEncodingTokenStart else h
    case _ => if c != ' ' then MatchingTransferEncodingToken else h
  }

  function EncodingValueChar(p: Parser, c: Octet): Parser {
    var h := p.headerState;
    p.(headerState := NextEncodingState(h, c, Lower(c), Increment(p.index)),
       index := if h.MatchingTransferEncodingChunked? then Increment(p.index)
                else if h.MatchingTransferEncodingToken? && c == ',' then 0 else p.index)
  }

  /** Looking for `keep-alive`, `close` and `upgrade` in the value of Connection. */
  function NextConnectionState(h: HeaderState, c: Octet, l: Octet, i: nat): HeaderState {
    match h
    case MatchingConnectionTokenStart =>
      if l == 'k' || l == 'c' || l == 'u' then ConnectionToken(l)
      else if l != ' ' && Token(l) != '\0' then MatchingConnectionToken
      else if l == ' ' || l == '\t' then h
      else General
    case MatchingConnectionKeepAlive => MatchWord("keep-alive", i, l, h, ConnectionKeepAlive, MatchingConnectionToken)
    case MatchingConnectionClose => MatchWord("close", i, l, h, ConnectionClose, MatchingConnectionToken)
    case MatchingConnectionUpgrade => MatchWord("upgrade", i, l, h, ConnectionUpgrade, MatchingConnectionToken)
    case MatchingConnectionToken => if c == ',' then MatchingConnectionTokenStart else h
    case _ =>
      if c == ',' then MatchingConnectionTokenStart else if c != ' ' then MatchingConnectionToken else h
  }

  function ConnectionValueChar(p: Parser, c: Octet): Parser {
    var h := p.headerState;
    var matching := h.MatchingConnectionKeepAlive? || h.MatchingConnectionClose? || h.MatchingConnectionUpgrade?;
    var ends := c == ',' && !matching && !h.MatchingConnectionTokenStart?;
    p.(headerState := NextConnectionState(h, c, Lower(c), Increment(p.index)),
       index := if matching then Increment(p.index) else if ends then 0 else p.index,
       flags := if ends then FinishedFlags(h, p.flags) else p.flags)
  }

  /** The option that a value ended with. */
  function FinishedFlags(h: HeaderState, f: Flags): Flags {
    match h
    case ConnectionKeepAlive => f.(keepAlive := true)
    case ConnectionClose => f.(close := true)
    case TransferEncodingChunked => f.(chunked := true)
    case ConnectionUpgrade => f.(connectionUpgrade := true)
    case _ => f
  }

  function FinishValue(p: Parser): Parser { p.(flags := FinishedFlags(p.headerState, p.flags)) }

  function OnHeaderValue(p: Parser, c: Octet): Outcome {
    if c == CR then After(Close(Value), To(p, Header(AlmostDone)))
    else if c == LF then After(Close(Value), To(p, Header(ValueLws)))
    else Go(ValueChar(p, c))
  }

  /** The states of header lines. */
  function HeaderLines(s: Settings, p: Parser, h: HeadState, c: Octet): Outcome {
    match h
    case DiscardWs =>
      if c == ' ' || c == '\t' then Go(p)
      else if c == CR then To(p, Header(DiscardWsAlmostDone))
      else if c == LF then To(p, Header(DiscardLws))
      else OnHeaderValueStart(p, c)
    case DiscardWsAlmostDone => Expect(p, c == LF, Header(DiscardLws))
    case DiscardLws =>
      if c == ' ' || c == '\t' then To(p, Header(DiscardWs))
      else if p.headerState == ContentLength then Fail(p, InvalidContentLength)
      else
        After(Mark(Value), After(Close(Value), OnHeaderFieldStart(s, FinishValue(p).(state := Header(FieldStart)), c)))
    case AlmostDone => if c == LF then To(p, Header(ValueLws)) else Fail(p, LfExpected)
    case ValueLws =>
      if c == ' ' || c == '\t' then
        OnHeaderValueStart(p.(headerState := if p.headerState == ContentLengthNum then ContentLengthWs
                                             else p.headerState), c)
      else
        OnHeaderFieldStart(s, FinishValue(p).(state := Header(FieldStart)), c)
    case ValueStart => OnHeaderValueStart(p, c)
    case FieldStart => OnHeaderFieldStart(s, p, c)
    case InField => OnHeaderField(p, c)
    case InValue => OnHeaderValue(p, c)
    case HeadersAlmostDone => OnHeadersAlmostDone(s, p, c)
    case HeadersDone => OnHeadersDone(p, c)
  }

  // ----- The end of the headers -----

  function OnHeadersAlmostDone(s: Settings, p: Parser, c: Octet): Outcome {
    if c != LF then Fail(p, Strict)
    else if p.flags.trailing then
      After(Notify(ChunkComplete), OnMessageDone(p.(state := Content(MessageDone))))
    else if p.usesTransferEncoding && p.flags.contentLength &&
            (if p.flags.chunked then !p.allowChunkedLength else !p.lenient) then
      Fail(p, UnexpectedContentLength)
    else
      After(Notify(HeadersComplete),
            if s.headersComplete > 2 then Fail(p, CbHeadersComplete) else OnHeadersDone(HeadersRead(s, p), c))
  }

  /** Decide on an upgrade and take the answer of on_headers_complete into account. */
  function HeadersRead(s: Settings, p: Parser): Parser {
    var up := if p.flags.upgrade && p.flags.connectionUpgrade
              then p.kind == Request || p.statusCode == 101
              else p.verb == CONNECT;
    p.(state := Header(HeadersDone), upgrade := up || s.headersComplete == 2,
       flags := p.flags.(skipBody := p.flags.skipBody || s.headersComplete == 1 || s.headersComplete == 2))
  }

  function OnHeadersDone(p0: Parser, c: Octet): Outcome {
    if c != LF then Fail(p0, Strict)
    else
      var p := p0.(nread := 0);
      var hasBody := p.flags.chunked || (p.contentLength > 0 && p.contentLength != ULLONG_MAX);
      if p.upgrade && (p.verb == CONNECT || p.flags.skipBody || !hasBody) then
        Complete(p, true)
      else if p.flags.skipBody then Complete(p, false)
      else if p.flags.chunked then To(p, Chunk(SizeStart))
      else if p.usesTransferEncoding then
        if p.kind == Request && !p.lenient then Fail(p, InvalidTransferEncoding) else To(p, Content(IdentityEof))
      else if p.contentLength == 0 then Complete(p, false)
      else if p.contentLength != ULLONG_MAX then To(p, Content(Identity))
      else if MessageNeedsEof(p) then To(p, Content(IdentityEof))
      else Complete(p, false)
  }

  /** Announce the end of the message and, for an upgrade, leave. */
  function Complete(p: Parser, stop: bool): Outcome {
    Outcome(p.(state := NewMessage(p)), Then(Notify(MessageComplete), Done), stop)
  }

  function OnMessageDone(p: Parser): Outcome { Complete(p, p.upgrade) }

  // ----- Bodies -----

  /** The states of a body that is not chunked. */
  function ContentStates(p: Parser, s: ContentState, c: Octet): Outcome {
    match s
    case Identity =>
      if p.contentLength == 0 || p.contentLength == ULLONG_MAX then Fail(p, AssertionFailed)
      else
        var q := p.(contentLength := p.contentLength - 1);
        After(Mark(Body),
              if q.contentLength > 0 then Go(q)
              else After(Deliver(Body), OnMessageDone(q.(state := Content(MessageDone)))))
    case IdentityEof => After(Mark(Body), Go(p))
    case MessageDone => OnMessageDone(p)
  }

  function OnChunkSize(p: Parser, c: Octet): Outcome {
    if c == CR then To(p, Chunk(SizeAlmostDone))
    else if Unhex(c) < 0 then
      if c == ';' || c == ' ' then To(p, Chunk(Parameters)) else Fail(p, InvalidChunkSize)
    else if (ULLONG_MAX - 16) / 16 < p.contentLength then Fail(p, InvalidContentLength)
    else Go(p.(contentLength := 16 * p.contentLength + Unhex(c)))
  }

  /** The states of a chunked body; nread counts the header bytes, this one included. */
  function ChunkStates(p: Parser, s: ChunkState, c: Octet): Outcome {
    if !p.flags.chunked then Fail(p, AssertionFailed)
    else
      match s
      case SizeStart =>
        if p.nread != 1 then Fail(p, AssertionFailed)
        else if Unhex(c) < 0 then Fail(p, InvalidChunkSize)
        else To(p.(contentLength := Unhex(c)), Chunk(Size))
      case Size =>
        OnChunkSize(p, c)
      case Parameters =>
        if c == CR then To(p, Chunk(SizeAlmostDone)) else Go(p)
      case SizeAlmostDone =>
        if c != LF then Fail(p, Strict)
        else
          var q := p.(nread := 0);
          After(Notify(ChunkHeader(q.contentLength)),
                To(q.(flags := q.flags.(trailing := q.flags.trailing || q.contentLength == 0)),
                   if q.contentLength == 0 then Header(FieldStart) else Chunk(Data)))
      case Data =>
        if p.contentLength == 0 || p.contentLength == ULLONG_MAX then Fail(p, AssertionFailed)
        else
          var q := p.(contentLength := p.contentLength - 1);
          After(Mark(Body), To(q, if q.contentLength == 0 then Chunk(DataAlmostDone) else p.state))
      case DataAlmostDone =>
        if p.contentLength != 0 then Fail(p, AssertionFailed)
        else if c != CR then Fail(p, Strict)
        else After(Close(Body), To(p, Chunk(DataDone)))
      case DataDone =>
        if c != LF then Fail(p, Strict)
        else After(Notify(ChunkComplete), To(p.(nread := 0), Chunk(SizeStart)))
  }

  // ----- The whole machine -----

  /** Dispatch on the state; the byte has been counted. */
  function Dispatch(s: Settings, p: Parser, c: Octet): Outcome {
    match p.state
    case Dead => if c == CR || c == LF then Go(p) else Fail(p, ClosedConnection)
    case Res(r) => ResponseLine(p, r, c)
    case Req(r) => RequestLine(p, r, c)
    case InUrl(u) => RequestUrl(p, u, c)
    case Header(h) => HeaderLines(s, p, h, c)
    case Chunk(k) => ChunkStates(p, k, c)
    case Content(b) => ContentStates(p, b, c)
  }

  /** COUNT_HEADER_SIZE(1) in the header states. */
  function Counted(p: Parser): Parser {
    if p.state.ParsingHeader() then p.(nread := p.nread + 1) else p
  }

  function Step(s: Settings, p: Parser, c: Octet): Outcome {
    var q := Counted(p);
    if p.state.ParsingHeader() && q.nread > s.maxHeaderSize then Fail(q, HeaderOverflow) else Dispatch(s, q, c)
  }
}

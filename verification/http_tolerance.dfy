/** Forms of messages that the parser accepts besides the usual ones (section 3.5 of RFC 7230): line feeds alone, more
    blanks and empty lines, request lines without a version, the protocol name of SOURCE requests, and folded lines. */
module HttpTolerance {
  import opened HttpChars
  import opened HttpMachine
  import opened HttpRun
  import opened HttpScan
  import opened HttpChunks
  import opened HttpMethods
  import opened HttpRequest
  import opened HttpStatus

  // ----- Several bytes -----

  function Append(a: Actions, b: Actions): Actions { if a.Done? then b else Then(a.first, Append(a.rest, b)) }

  /** What the bytes of a text do, one after another. */
  function Steps(s: Settings, p: Parser, text: seq<Octet>): Outcome
    decreases |text|
  {
    if text == [] then Go(p)
    else
      var o := Step(s, p, text[0]);
      var r := Steps(s, o.parser, text[1..]);
      Outcome(r.parser, Append(o.actions, r.actions), o.stop || r.stop)
  }

  lemma {:induction false} AppendNothing(a: Actions)
    ensures Append(a, Done) == a
  {
    if a.Then? { AppendNothing(a.rest); }
  }

  lemma {:induction false} StepsFirst(s: Settings, p: Parser, text: seq<Octet>)
    requires text != []
    ensures var o := Step(s, p, text[0]);
            var r := Steps(s, o.parser, text[1..]);
            Steps(s, p, text) == Outcome(r.parser, Append(o.actions, r.actions), o.stop || r.stop)
  {
    hide Step, Append;
  }

  lemma {:induction false} OneStep(s: Settings, p: Parser, c: Octet)
    ensures Steps(s, p, [c]) == Step(s, p, c)
  {
    hide Step;
    AppendNothing(Step(s, p, c).actions);
  }

  lemma {:induction false} TwoSteps(s: Settings, p: Parser, c: Octet, d: Octet)
    ensures var o := Step(s, p, c);
            var r := Step(s, o.parser, d);
            Steps(s, p, [c, d]) == Outcome(r.parser, Append(o.actions, r.actions), o.stop || r.stop)
  {
    hide Step, Append;
    StepsFirst(s, p, [c, d]);
    assert [c, d][1..] == [d];
    OneStep(s, Step(s, p, c).parser, d);
  }

  function Counting(p: Parser, n: nat): Parser { p.(nread := p.nread + n) }

  // ----- Line feeds -----

  /** A line may end here. */
  predicate LineEnds(s: State) {
    match s
    case Res(r) => r.StatusCode? || r.StatusStart? || r.StatusText?
    case Req(r) => r.HttpEnd?
    case InUrl(u) => !(u.Schema? || u.SchemaSlash? || u.SchemaSlashSlash? || u.ServerStart?)
    case Header(h) => h.FieldStart? || h.InValue? || h.DiscardWs?
    case _ => false
  }

  /** In every place where a line may end, a line feed alone does what CR and LF do. */
  lemma {:induction false} BareLineFeed(s: Settings, p: Parser)
    requires p.errno == Ok && LineEnds(p.state) && p.nread + 2 <= s.maxHeaderSize
    ensures Steps(s, p, [CR, LF]) == Step(s, Counting(p, 1), LF)
  {
    hide Step, Steps;
    match p.state
    case Res(_) => StatusLineFeed(s, p);
    case Req(_) => RequestLineFeed(s, p);
    case InUrl(_) => UrlLineFeed(s, p);
    case Header(h) => if h.FieldStart? { LastLineFeed(s, p); } else { HeaderLineFeed(s, p); }
  }

  lemma {:induction false} StatusLineFeed(s: Settings, p: Parser)
    requires p.errno == Ok && LineEnds(p.state) && p.nread + 2 <= s.maxHeaderSize && p.state.Res?
    ensures Steps(s, p, [CR, LF]) == Step(s, Counting(p, 1), LF)
  {
    hide Step, Steps, ResponseLine;
    TwoSteps(s, p, CR, LF);
    var r, q := p.state.res, Counting(p, 1);
    var t := if r.StatusText? then p.index else 0;
    ResponseStep(s, p, r, CR);
    ResponseStep(s, q, r, LF);
    EndOfReason(q, r, CR);
    EndOfReason(Counting(p, 2), r, LF);
    ResponseStep(s, q.(state := Res(ResLineAlmostDone), index := t), ResLineAlmostDone, LF);
    AfterReason(Counting(p, 2).(state := Res(ResLineAlmostDone), index := t));
    AppendNothing(Step(s, p, CR).actions);
  }

  lemma {:induction false} EndOfReason(p: Parser, r: ResState, c: Octet)
    requires p.state == Res(r) && (r.StatusCode? || r.StatusStart? || r.StatusText?) && (c == CR || c == LF)
    ensures var close := Then(Close(Status), Done);
            ResponseLine(p, r, c)
            == Outcome(p.(state := if c == CR then Res(ResLineAlmostDone) else Header(FieldStart),
                          index := if r.StatusText? then p.index else 0),
                       if r.StatusText? then close else Then(Mark(Status), close), false)
  {
    hide Digit;
  }

  lemma {:induction false} AfterReason(p: Parser)
    ensures ResponseLine(p, ResLineAlmostDone, LF) == To(p, Header(FieldStart))
  {
  }

  lemma {:induction false} RequestLineFeed(s: Settings, p: Parser)
    requires p.errno == Ok && LineEnds(p.state) && p.nread + 2 <= s.maxHeaderSize && p.state.Req?
    ensures Steps(s, p, [CR, LF]) == Step(s, Counting(p, 1), LF)
  {
    hide Step, Steps;
    TwoSteps(s, p, CR, LF);
    RequestStep(s, p, HttpEnd, CR);
    RequestStep(s, Counting(p, 1), HttpEnd, LF);
    RequestStep(s, Step(s, p, CR).parser, ReqLineAlmostDone, LF);
  }

  lemma {:induction false} UrlLineFeed(s: Settings, p: Parser)
    requires p.errno == Ok && LineEnds(p.state) && p.nread + 2 <= s.maxHeaderSize && p.state.InUrl?
    ensures Steps(s, p, [CR, LF]) == Step(s, Counting(p, 1), LF)
  {
    hide Step, Steps, ParseUrlChar;
    TwoSteps(s, p, CR, LF);
    UrlStep(s, p, p.state.url, CR);
    UrlStep(s, Counting(p, 1), p.state.url, LF);
    RequestStep(s, Step(s, p, CR).parser, ReqLineAlmostDone, LF);
  }

  lemma {:induction false} LastLineFeed(s: Settings, p: Parser)
    requires p.errno == Ok && LineEnds(p.state) && p.nread + 2 <= s.maxHeaderSize
    requires p.state == Header(FieldStart)
    ensures Steps(s, p, [CR, LF]) == Step(s, Counting(p, 1), LF)
  {
    hide Step, Steps, OnHeadersAlmostDone, Token;
    TwoSteps(s, p, CR, LF);
    HeaderStep(s, p, FieldStart, CR);
    HeaderStep(s, Counting(p, 1), FieldStart, LF);
    HeaderStep(s, Counting(p, 1).(state := Header(HeadersAlmostDone)), HeadersAlmostDone, LF);
  }

  lemma {:induction false} HeaderLineFeed(s: Settings, p: Parser)
    requires p.errno == Ok && LineEnds(p.state) && p.nread + 2 <= s.maxHeaderSize
    requires p.state.Header? && !p.state.header.FieldStart?
    ensures Steps(s, p, [CR, LF]) == Step(s, Counting(p, 1), LF)
  {
    hide Step, Steps, ValueChar;
    TwoSteps(s, p, CR, LF);
    var h := p.state.header;
    HeaderStep(s, p, h, CR);
    HeaderStep(s, Counting(p, 1), h, LF);
    HeaderStep(s, Step(s, p, CR).parser, if h.InValue? then AlmostDone else DiscardWsAlmostDone, LF);
  }

  lemma {:induction false} UrlStep(s: Settings, p: Parser, u: UrlState, c: Octet)
    requires p.errno == Ok && p.state == InUrl(u) && p.nread + 1 <= s.maxHeaderSize
    ensures Step(s, p, c) == RequestUrl(Counting(p, 1), u, c)
  {
    hide RequestUrl;
  }

  // ----- Bytes that are passed over -----

  /**
   * Empty lines before a message, blanks around the parts of its first line and before a value, and whatever follows
   * the size of a chunk.
   */
  predicate PassedOver(s: State, c: Octet) {
    match s
    case Res(StartRes) => c == CR || c == LF
    case Req(StartReq) => c == CR || c == LF
    case Req(StartReqOrRes) => c == CR || c == LF
    case Dead => c == CR || c == LF
    case Res(FirstStatusCode) => c == ' '
    case Req(SpacesBeforeUrl) => c == ' '
    case Req(HttpStart) => c == ' '
    case Header(DiscardWs) => c == ' ' || c == '\t'
    case Chunk(Parameters) => c != CR
    case _ => false
  }

  /** They do nothing but count. */
  lemma {:induction false} PassesOver(s: Settings, p: Parser, c: Octet)
    requires p.errno == Ok && PassedOver(p.state, c) && p.nread + 1 <= s.maxHeaderSize
    requires p.state.Chunk? ==> p.flags.chunked
    ensures Step(s, p, c) == Go(Counting(p, 1))
  {
    hide Step;
    match p.state
    case Res(r) => ResponseStep(s, p, r, c);
    case Req(r) => RequestStep(s, p, r, c);
    case Header(h) => HeaderStep(s, p, h, c);
    case _ => OtherStep(s, p, c);
  }

  lemma {:induction false} OtherStep(s: Settings, p: Parser, c: Octet)
    requires p.errno == Ok && PassedOver(p.state, c) && p.nread + 1 <= s.maxHeaderSize
    requires p.state.Chunk? || p.state.Dead?
    requires p.state.Chunk? ==> p.flags.chunked
    ensures Step(s, p, c) == Go(Counting(p, 1))
  {
  }

  // ----- Request lines -----

  /** A request line that ends after its URL is one of HTTP/0.9. */
  lemma {:induction false} SimpleRequest(s: Settings, p: Parser)
    requires p.errno == Ok && p.state.InUrl? && LineEnds(p.state) && p.nread + 2 <= s.maxHeaderSize
    ensures Steps(s, p, [CR, LF])
            == Outcome(Counting(p, 2).(major := 0, minor := 9, state := Header(FieldStart)), Then(Close(Url), Done),
                       false)
  {
    hide Step, Steps;
    BareLineFeed(s, p);
    UrlStep(s, Counting(p, 1), p.state.url, LF);
  }

  /** The protocol of a SOURCE request may be called ICE. */
  lemma {:induction false} IceForHttp(s: Settings, p: Parser)
    requires p.errno == Ok && p.state == Req(HttpStart) && p.nread + 5 <= s.maxHeaderSize
    ensures p.verb == SOURCE ==> Steps(s, Counting(p, 1), "ICE/") == Steps(s, p, "HTTP/")
    ensures p.verb != SOURCE ==> Step(s, p, 'I').parser.errno != Ok
    ensures Steps(s, p, "HTTP/") == Go(Counting(p, 5).(state := Req(HttpMajor)))
  {
    hide Step, Steps;
    var q := Counting(p, 1);
    RequestStep(s, p, HttpStart, 'I');
    NameMoves(s, p, "HTTP/", HttpStart);
    if p.verb == SOURCE { NameMoves(s, q, "ICE/", HttpStart); }
  }

  /** The state in which the rest of the name of a protocol is read. */
  predicate Expected(r: ReqState, rest: seq<Octet>, verb: nat) {
    match r
    case HttpStart => rest == "HTTP/" || (rest == "ICE/" && verb == SOURCE)
    case HttpH => rest == "TTP/"
    case HttpHT => rest == "TP/"
    case HttpHTT => rest == "P/"
    case HttpI => rest == "CE/"
    case HttpIC => rest == "E/"
    case HttpHTTP => rest == "/"
    case _ => false
  }

  lemma {:induction false} LetterMoves(s: Settings, p: Parser, r: ReqState, rest: seq<Octet>)
    requires p.errno == Ok && p.state == Req(r) && Expected(r, rest, p.verb) && p.nread + 1 <= s.maxHeaderSize
    ensures var o := Step(s, p, rest[0]);
            && o.parser.state.Req? && o == Go(Counting(p, 1).(state := o.parser.state))
            && if |rest| == 1 then o.parser.state == Req(HttpMajor)
               else Expected(o.parser.state.req, rest[1..], p.verb)
  {
    hide Step;
    RequestStep(s, p, r, rest[0]);
  }

  lemma {:induction false} NameMoves(s: Settings, p: Parser, rest: seq<Octet>, r: ReqState)
    requires p.errno == Ok && p.state == Req(r) && Expected(r, rest, p.verb) && rest != []
    requires p.nread + |rest| <= s.maxHeaderSize
    ensures Steps(s, p, rest) == Go(Counting(p, |rest|).(state := Req(HttpMajor)))
    decreases |rest|
  {
    hide Step, Steps, Expected;
    StepsFirst(s, p, rest);
    LetterMoves(s, p, r, rest);
    var q := Step(s, p, rest[0]).parser;
    if |rest| > 1 {
      NameMoves(s, q, rest[1..], q.state.req);
    } else {
      assert rest[1..] == [];
      NoSteps(s, q);
    }
  }

  lemma {:induction false} NoSteps(s: Settings, p: Parser)
    ensures Steps(s, p, []) == Go(p)
  {
  }

  // ----- Folded lines -----

  /** A line that begins with a blank. */
  predicate Folded(v: seq<Octet>) {
    v != [] && (v[0] == ' ' || v[0] == '\t') &&
    forall i :: 0 <= i < |v| ==> v[i] != CR && v[i] != LF && IsHeaderChar(v[i])
  }

  lemma {:induction false} GeneralFold(p: Parser, data: seq<Octet>, a: nat, b: nat)
    requires a <= b <= |data| && p.headerState == General && p.errno == Ok
    requires forall i :: a <= i < b ==> data[i] != CR && data[i] != LF && IsHeaderChar(data[i])
    ensures ValueFold(p, data, a, b) == p && Accepted(p, data, a, b)
  {
    hide IsHeaderChar, ValueChar;
    if a < b {
      GeneralFold(p, data, a, b - 1);
      GeneralChar(p, data[b - 1]);
    }
  }

  lemma {:induction false} GeneralChar(p: Parser, c: Octet)
    requires p.headerState == General && p.errno == Ok && IsHeaderChar(c)
    ensures ValueChar(p, c) == p
  {
    hide IsHeaderChar;
  }

  /**
   * A line that begins with a blank goes on with the value of the line before: the value that is reported is that of
   * both without the line end.
   */
  lemma {:induction false} FoldedReported(s: Settings, m: Machine, data: seq<Octet>, o: nat, p: Parser, log: seq<Event>,
                                          v: seq<Octet>)
    requires o <= |data| && At(s, m, data, o, p, log) && p.errno == Ok && p.state == Header(ValueLws)
    requires p.headerState == General && LastIs(log, Value) && Folded(v) && Here(data, o, v + CRLF)
    requires p.nread + |v| + 2 <= s.maxHeaderSize
    ensures o + |v| + 2 <= |data|
    ensures At(s, m, data, o + |v| + 2, p.(index := 0, nread := p.nread + |v| + 2), Push(log, Piece(Value, v)))
  {
    hide At, Run, Step, Push, IsHeaderChar, Fails, ValueFold, Accepted;
    HereSplit(data, o, v, CRLF);
    HereInside(data, o, v + CRLF);
    var n, c := |v|, v[0];
    HereAt(data, o, v, 0);
    HeaderStep(s, p, ValueLws, c);
    var q := p.(state := Header(InValue), index := 0, nread := p.nread + 1);
    assert Step(s, p, c) == After(Mark(Value), Go(q)) by { FoldStarts(p.(nread := p.nread + 1), c); }
    Opens(s, m, data, o, p, log, Value);
    SameBytes(data, o, v);
    GeneralFold(q, data, o + 1, o + n);
    PushTwice(log, Value, [c], data[o + 1..o + n]);
    PushLast(log, Value, [c]);
    ValueRun(s, m, data, o + 1, o + n, q, Push(log, Piece(Value, [c])));
    assert data[o..o + n] == v == [c] + data[o + 1..o + n];
    ValueEnds(s, m, data, o + n, q.(nread := p.nread + n), Push(log, Piece(Value, v)));
  }

  /** So does a line that begins with a blank after a value without any characters so far. */
  lemma {:induction false} FoldedEmpty(s: Settings, p: Parser, c: Octet)
    requires p.errno == Ok && p.state == Header(DiscardLws) && (c == ' ' || c == '\t') && p.nread + 1 <= s.maxHeaderSize
    ensures Step(s, p, c) == Go(Counting(p, 1).(state := Header(DiscardWs)))
  {
    hide Step;
    HeaderStep(s, p, DiscardLws, c);
  }

  lemma {:induction false} FoldStarts(p: Parser, c: Octet)
    requires p.errno == Ok && p.headerState == General && (c == ' ' || c == '\t')
    ensures OnHeaderValueStart(p, c) == After(Mark(Value), Go(p.(state := Header(InValue), index := 0)))
  {
  }

  lemma {:induction false} SameBytes(data: seq<Octet>, o: nat, v: seq<Octet>)
    requires Here(data, o, v) && Folded(v)
    ensures o + |v| <= |data| && data[o..o + |v|] == v
    ensures forall i :: o + 1 <= i < o + |v| ==> data[i] != CR && data[i] != LF && IsHeaderChar(data[i])
  {
    hide IsHeaderChar;
    forall i | o <= i < o + |v|
      ensures data[i] == v[i - o]
    {
      HereAt(data, o, v, i - o);
    }
  }

  lemma {:induction false} PushLast(log: seq<Event>, k: DataKind, bytes: seq<Octet>)
    ensures LastIs(Push(log, Piece(k, bytes)), k)
  {
  }
}

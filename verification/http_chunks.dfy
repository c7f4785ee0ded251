/**
 * Chunked bodies: what the parser reports for a body that was encoded by section 4.1 of RFC 7230, and exact lengths.
 */
module HttpChunks {
  import opened HttpChars
  import opened HttpMachine
  import opened HttpRun
  import opened HttpSafety
  import opened HttpScan
  import opened Options

  // ----- Lengths -----

  predicate HexDigits(ds: seq<Octet>) { forall i :: 0 <= i < |ds| ==> Unhex(ds[i]) >= 0 }

  function HexValue(ds: seq<Octet>): nat
    requires HexDigits(ds)
  {
    if ds == [] then 0
    else
      assert Unhex(ds[|ds| - 1]) >= 0;
      16 * HexValue(ds[..|ds| - 1]) + Unhex(ds[|ds| - 1])
  }

  predicate DecimalDigits(ds: seq<Octet>) { forall i :: 0 <= i < |ds| ==> IsNum(ds[i]) }

  function DecimalValue(ds: seq<Octet>): nat
    requires DecimalDigits(ds)
  {
    if ds == [] then 0
    else
      assert IsNum(ds[|ds| - 1]);
      10 * DecimalValue(ds[..|ds| - 1]) + Digit(ds[|ds| - 1])
  }

  /** A length that the parser accepts before it reads one more digit. */
  const HEX_LIMIT: nat := (ULLONG_MAX - 16) / 16
  const DECIMAL_LIMIT: nat := (ULLONG_MAX - 10) / 10

  /**
   * A Content-Length, of which the first a digits have been read: after more digits, the length is exactly the value of
   * all, or the parser has refused them because some of them made a value past its limit; it is never the value that
   * stands for no length.
   */
  lemma {:induction false} ContentLengthExact(p: Parser, ds: seq<Octet>, a: nat, n: nat)
    requires a <= n <= |ds| && DecimalDigits(ds)
    requires p.errno == Ok && p.headerState == ContentLengthNum && p.contentLength == DecimalValue(ds[..a]) < ULLONG_MAX
    ensures var q := ValueFold(p, ds, a, n);
            && q.headerState == ContentLengthNum
            && (q.errno == Ok ==> q.contentLength == DecimalValue(ds[..n]) < ULLONG_MAX)
            && (q.errno != Ok ==> q.errno == InvalidContentLength && TooMuch(ds, n))
    decreases n
  {
    hide IsNum, Digit, ValueChar, ValueFold, DecimalValue;
    if n == a {
      FoldNothing(p, ds, a);
    } else {
      ContentLengthExact(p, ds, a, n - 1);
      FoldOne(p, ds, a, n - 1);
      assert IsNum(ds[n - 1]);
      DigitChar(ValueFold(p, ds, a, n - 1), ds[n - 1]);
      OneDigit(ds, n);
    }
  }

  /** The value of the first m digits, for some m below n, is past the limit. */
  predicate TooMuch(ds: seq<Octet>, n: nat)
    requires n <= |ds| && DecimalDigits(ds)
  {
    exists m :: 0 <= m < n && DecimalValue(ds[..m]) > DECIMAL_LIMIT
  }

  lemma {:induction false} NoDigits()
    ensures DecimalValue([]) == 0 && HexValue([]) == 0
  {
  }

  lemma {:induction false} OneDigit(ds: seq<Octet>, n: nat)
    requires 0 < n <= |ds| && DecimalDigits(ds)
    ensures IsNum(ds[n - 1]) && DecimalValue(ds[..n]) == 10 * DecimalValue(ds[..n - 1]) + Digit(ds[n - 1])
  {
    hide IsNum, Digit;
    assert ds[..n][..n - 1] == ds[..n - 1];
    assert IsNum(ds[n - 1]);
  }

  lemma {:induction false} DigitChar(p: Parser, c: Octet)
    requires IsNum(c)
    ensures Digit(c) < 10
    ensures p.errno == Ok && p.headerState == ContentLengthNum ==>
              ValueChar(p, c) == if p.contentLength > DECIMAL_LIMIT then p.(errno := InvalidContentLength)
                                 else p.(contentLength := 10 * p.contentLength + Digit(c))
    ensures p.errno == InvalidContentLength && p.headerState == ContentLengthNum ==>
              ValueChar(p, c).errno == InvalidContentLength && ValueChar(p, c).headerState == ContentLengthNum
  {
  }

  // ----- Chunk sizes -----

  lemma {:induction false} ChunkStep(s: Settings, p: Parser, k: ChunkState, c: Octet)
    requires p.errno == Ok && p.state == Chunk(k) && (p.state.ParsingHeader() ==> p.nread + 1 <= s.maxHeaderSize)
    ensures Step(s, p, c) == ChunkStates(Counted(p), k, c)
  {
    hide ChunkStates;
  }

  lemma {:induction false} NoActions(log: seq<Event>, c: Octet)
    ensures Report(log, None, Done, c) == log
  {
  }

  lemma {:induction false} OneHexDigit(ds: seq<Octet>, n: nat)
    requires 0 < n <= |ds| && HexDigits(ds)
    ensures 0 <= Unhex(ds[n - 1]) < 16 && HexValue(ds[..n]) == 16 * HexValue(ds[..n - 1]) + Unhex(ds[n - 1])
  {
    hide Unhex;
    assert ds[..n][..n - 1] == ds[..n - 1];
    assert Unhex(ds[n - 1]) >= 0;
    UnhexRange(ds[n - 1]);
  }

  /** A chunk is about to begin. */
  predicate AtChunk(p: Parser) {
    p.errno == Ok && p.state == Chunk(SizeStart) && p.flags.chunked && !p.flags.trailing && p.nread == 0 && !p.upgrade
  }

  /** The parser after n digits of a chunk size. */
  function SizeRead(p: Parser, ds: seq<Octet>, n: nat): Parser
    requires 0 < n <= |ds| && HexDigits(ds)
  {
    p.(state := Chunk(ChunkState.Size), contentLength := HexValue(ds[..n]), nread := n)
  }

  predicate Here(data: seq<Octet>, o: nat, t: seq<Octet>) { o + |t| <= |data| && data[o..o + |t|] == t }

  /**
   * A chunk size: after any digits the length is exactly their value, or the run ends in an error because the header is
   * too long or some of the digits made a value past the limit.
   */
  lemma {:induction false} ChunkSizeExact(s: Settings, m: Machine, data: seq<Octet>, o: nat, p: Parser, log: seq<Event>,
                                          ds: seq<Octet>, n: nat)
    requires o <= |data| && At(s, m, data, o, p, log) && AtChunk(p) && HexDigits(ds)
    requires 0 < n <= |ds| && Here(data, o, ds)
    ensures At(s, m, data, o + n, SizeRead(p, ds, n), log) || Fails(s, m, data)
    ensures && HexValue(ds[..n]) < ULLONG_MAX && n <= s.maxHeaderSize
            && (forall k :: 0 <= k < n ==> HexValue(ds[..k]) <= HEX_LIMIT) ==>
              At(s, m, data, o + n, SizeRead(p, ds, n), log)
    decreases n
  {
    hide Unhex, HexValue, Step, At, Fails, Report, ChunkStates;
    assert data[o + n - 1] == data[o..o + |ds|][n - 1];
    OneHexDigit(ds, n);
    if n == 1 {
      assert ds[..0] == [];
      NoDigits();
      FirstSizeDigit(s, m, data, o, p, log, ds);
    } else {
      ChunkSizeExact(s, m, data, o, p, log, ds, n - 1);
      if At(s, m, data, o + n - 1, SizeRead(p, ds, n - 1), log) {
        NextSizeDigit(s, m, data, o, p, log, ds, n);
      }
      assert HexValue(ds[..n - 1]) <= 16 * HexValue(ds[..n - 1]) + Unhex(ds[n - 1]);
    }
  }

  lemma {:induction false} FirstSizeDigit(s: Settings, m: Machine, data: seq<Octet>, o: nat, p: Parser, log: seq<Event>,
                                          ds: seq<Octet>)
    requires o < |data| && At(s, m, data, o, p, log) && AtChunk(p) && HexDigits(ds) && ds != [] && data[o] == ds[0]
    requires HexValue(ds[..1]) == Unhex(ds[0]) >= 0
    ensures if s.maxHeaderSize < 1 then Fails(s, m, data) else At(s, m, data, o + 1, SizeRead(p, ds, 1), log)
  {
    hide Unhex, HexValue, Run, Report, Fails;
    AtNext(s, m, data, o, p, log);
    NoActions(log, data[o]);
    if s.maxHeaderSize >= 1 { ChunkStep(s, p, SizeStart, data[o]); }
  }

  lemma {:induction false} NextSizeDigit(s: Settings, m: Machine, data: seq<Octet>, o: nat, p: Parser, log: seq<Event>,
                                         ds: seq<Octet>, n: nat)
    requires 1 < n <= |ds| && o + n <= |data| && AtChunk(p) && HexDigits(ds) && data[o + n - 1] == ds[n - 1]
    requires At(s, m, data, o + n - 1, SizeRead(p, ds, n - 1), log)
    requires 0 <= Unhex(ds[n - 1]) < 16 && HexValue(ds[..n]) == 16 * HexValue(ds[..n - 1]) + Unhex(ds[n - 1])
    ensures if s.maxHeaderSize < n || HexValue(ds[..n - 1]) > HEX_LIMIT then Fails(s, m, data)
            else At(s, m, data, o + n, SizeRead(p, ds, n), log)
  {
    hide Unhex, HexValue, Run, Report, Fails;
    var q := SizeRead(p, ds, n - 1);
    AtNext(s, m, data, o + n - 1, q, log);
    NoActions(log, data[o + n - 1]);
    HexIsNotCr(ds[n - 1]);
    if s.maxHeaderSize >= n { ChunkStep(s, q, ChunkState.Size, data[o + n - 1]); }
  }

  lemma {:induction false} HexIsNotCr(c: Octet)
    ensures Unhex(c) >= 0 ==> c != CR
  {
  }

  // ----- Chunks -----

  /** A chunk: its size in any hexadecimal digits, what follows the size in its line, and its data. */
  datatype ChunkText = ChunkText(size: seq<Octet>, extension: seq<Octet>, data: seq<Octet>)

  const CRLF: seq<Octet> := [CR, LF]

  /** Chunk extensions, which the parser reads over. */
  predicate IsExtension(t: seq<Octet>) { t != [] ==> (t[0] == ';' || t[0] == ' ') && CR !in t }

  /** The size is that of the data, and both are such that the parser's limits are kept. */
  predicate Proper(s: Settings, k: ChunkText) {
    && HexDigits(k.size) && 0 < |k.size| && |k.size| + |k.extension| + 2 <= s.maxHeaderSize
    && HexValue(k.size) == |k.data| <= HEX_LIMIT && IsExtension(k.extension)
  }

  function SizeText(k: ChunkText): seq<Octet> { k.size + k.extension + CRLF }

  /** The chunked form (RFC 7230, section 4.1) up to the trailer; the last chunk has no data. */
  function Encoded(chunks: seq<ChunkText>): seq<Octet> {
    if chunks == [] then []
    else
      SizeText(chunks[0]) + (if chunks[0].data == [] then [] else chunks[0].data + CRLF) + Encoded(chunks[1..])
  }

  /** What is reported: for each chunk its size, its data and its end. */
  function Reported(chunks: seq<ChunkText>): seq<Event> {
    if chunks == [] then []
    else
      [Note(ChunkHeader(|chunks[0].data|))] +
      (if chunks[0].data == [] then [] else [Piece(Body, chunks[0].data), Note(ChunkComplete)]) + Reported(chunks[1..])
  }

  lemma {:induction false} HereSplit(data: seq<Octet>, o: nat, a: seq<Octet>, b: seq<Octet>)
    requires Here(data, o, a + b)
    ensures Here(data, o, a) && Here(data, o + |a|, b)
  {
    assert data[o..o + |a|] == data[o..o + |a + b|][..|a|];
    assert data[o + |a|..o + |a| + |b|] == data[o..o + |a + b|][|a|..];
  }

  lemma {:induction false} HereAt(data: seq<Octet>, o: nat, t: seq<Octet>, i: nat)
    requires Here(data, o, t) && i < |t|
    ensures data[o + i] == t[i]
  {
    assert data[o..o + |t|][i] == t[i];
  }

  lemma {:induction false} PushNote(log: seq<Event>, n: Notice)
    ensures Push(log, Note(n)) == log + [Note(n)]
    ensures forall bytes :: Push(log + [Note(n)], Piece(Body, bytes)) == log + [Note(n), Piece(Body, bytes)]
  {
    forall bytes
      ensures Push(log + [Note(n)], Piece(Body, bytes)) == log + [Note(n), Piece(Body, bytes)]
    {
      assert !LastIs(log + [Note(n)], Body);
      assert log + [Note(n)] + [Piece(Body, bytes)] == log + [Note(n), Piece(Body, bytes)];
    }
  }

  lemma {:induction false} ReportNote(log: seq<Event>, n: Notice, c: Octet)
    ensures Report(log, None, Then(Notify(n), Done), c) == log + [Note(n)]
  {
    PushNote(log, n);
  }

  lemma {:induction false} SizeMatters(ds: seq<Octet>, n: nat)
    requires HexDigits(ds) && n <= |ds|
    ensures HexValue(ds[..n]) <= HexValue(ds)
    decreases |ds| - n
  {
    hide Unhex, HexValue;
    if n == |ds| {
      assert ds[..n] == ds;
    } else {
      SizeMatters(ds, n + 1);
      OneHexDigit(ds, n + 1);
    }
  }

  /** The size line of a chunk. */
  lemma {:induction false} SizeLine(s: Settings, m: Machine, data: seq<Octet>, o: nat, p: Parser, log: seq<Event>,
                                    k: ChunkText)
    requires o <= |data| && At(s, m, data, o, p, log) && AtChunk(p) && Proper(s, k) && Here(data, o, SizeText(k))
    ensures At(s, m, data, o + |SizeText(k)|, AfterSize(p, |k.data|), log + [Note(ChunkHeader(|k.data|))])
  {
    hide HexValue, Unhex, At, Run, IsExtension;
    var n, x := |k.size|, |k.extension|;
    HereSplit(data, o, k.size + k.extension, CRLF);
    HereSplit(data, o, k.size, k.extension);
    HereAt(data, o + n + x, CRLF, 0);
    HereAt(data, o + n + x, CRLF, 1);
    forall i | 0 <= i < n
      ensures HexValue(k.size[..i]) <= HEX_LIMIT
    {
      SizeMatters(k.size, i);
    }
    assert k.size[..n] == k.size;
    ChunkSizeExact(s, m, data, o, p, log, k.size, n);
    ExtensionRead(s, m, data, o + n, SizeRead(p, k.size, n), log, k.extension, x);
    SizeLineEnds(s, m, data, o + n + x, p, log, k);
  }

  /** The parser after k bytes of an extension. */
  function InExtension(q: Parser, k: nat): Parser {
    q.(state := if k == 0 then q.state else Chunk(Parameters), nread := q.nread + k)
  }

  /** What follows the size is read over. */
  lemma {:induction false} ExtensionRead(s: Settings, m: Machine, data: seq<Octet>, e: nat, q: Parser, log: seq<Event>,
                                         t: seq<Octet>, k: nat)
    requires e <= |data| && At(s, m, data, e, q, log) && q.state == Chunk(ChunkState.Size) && q.flags.chunked
    requires Here(data, e, t) && IsExtension(t) && k <= |t| && q.nread + k <= s.maxHeaderSize
    ensures At(s, m, data, e + k, InExtension(q, k), log)
  {
    hide Run, Fails, Report, Step, At, Here;
    if k > 0 {
      ExtensionRead(s, m, data, e, q, log, t, k - 1);
      HereInside(data, e, t);
      HereAt(data, e, t, k - 1);
      assert t[k - 1] in t && data[e + k - 1] == t[k - 1];
      ExtensionStep(s, m, data, e, q, log, t[k - 1], k);
    }
  }

  lemma {:induction false} ExtensionStep(s: Settings, m: Machine, data: seq<Octet>, e: nat, q: Parser, log: seq<Event>,
                                         c: Octet, k: nat)
    requires k > 0 && e + k <= |data| && At(s, m, data, e + k - 1, InExtension(q, k - 1), log) && data[e + k - 1] == c
    requires q.state == Chunk(ChunkState.Size) && q.flags.chunked && q.nread + k <= s.maxHeaderSize
    requires c != CR && (k == 1 ==> c == ';' || c == ' ')
    ensures At(s, m, data, e + k, InExtension(q, k), log)
  {
    hide Run, Fails, Report, Step;
    var r := InExtension(q, k - 1);
    AtNext(s, m, data, e + k - 1, r, log);
    ChunkStep(s, r, r.state.chunk, c);
    NoActions(log, c);
  }

  /** The parser after a size line. */
  function AfterSize(p: Parser, size: nat): Parser {
    p.(state := if size == 0 then Header(FieldStart) else Chunk(ChunkState.Data), contentLength := size, nread := 0,
       flags := p.flags.(trailing := size == 0))
  }

  lemma {:induction false} SizeLineEnds(s: Settings, m: Machine, data: seq<Octet>, e: nat, p: Parser, log: seq<Event>,
                                        k: ChunkText)
    requires AtChunk(p) && Proper(s, k) && e + 2 <= |data| && data[e] == CR && data[e + 1] == LF
    requires k.size[..|k.size|] == k.size
    requires At(s, m, data, e, InExtension(SizeRead(p, k.size, |k.size|), |k.extension|), log)
    ensures At(s, m, data, e + 2, AfterSize(p, |k.data|), log + [Note(ChunkHeader(|k.data|))])
  {
    hide HexValue, Run, Fails, Report, Step, Unhex;
    var q := InExtension(SizeRead(p, k.size, |k.size|), |k.extension|);
    AtNext(s, m, data, e, q, log);
    ChunkStep(s, q, q.state.chunk, CR);
    NoActions(log, CR);
    var r := q.(state := Chunk(SizeAlmostDone), nread := q.nread + 1);
    AtNext(s, m, data, e + 1, r, log);
    ChunkStep(s, r, SizeAlmostDone, LF);
    ReportNote(log, ChunkHeader(|k.data|), LF);
  }

  /** The data of a chunk and the line end after it. */
  lemma {:induction false} DataLine(s: Settings, m: Machine, data: seq<Octet>, o: nat, p: Parser, log: seq<Event>,
                                    d: seq<Octet>)
    requires o <= |data| && d != [] && |d| <= HEX_LIMIT && AtChunk(p) && At(s, m, data, o, AfterSize(p, |d|), log)
    requires Here(data, o, d + CRLF)
    ensures At(s, m, data, o + |d| + 2, p.(contentLength := 0), Push(log, Piece(Body, d)) + [Note(ChunkComplete)])
  {
    hide Run, Report, Push, At;
    var n := |d|;
    var q := AfterSize(p, n);
    HereSplit(data, o, d, CRLF);
    HereAt(data, o + n, CRLF, 0);
    HereAt(data, o + n, CRLF, 1);
    AfterSizeBody(p, n);
    BodyRun(s, m, data, o, o + n - 1, q, log);
    var before := if n == 1 then log else Push(log, Piece(Body, data[o..o + n - 1]));
    BodyEnds(s, m, data, o, p, log, before, d);
    DataEnds(s, m, data, o + n, p, Push(log, Piece(Body, d)), n);
  }

  lemma {:induction false} AfterSizeBody(p: Parser, n: nat)
    requires AtChunk(p) && 0 < n <= HEX_LIMIT
    ensures var q := AfterSize(p, n); InBody(q) && MoreThan(q, n - 1) && Consumed(q, n - 1) == q.(contentLength := 1)
  {
  }

  /** The last byte of the data. */
  lemma {:induction false} BodyEnds(s: Settings, m: Machine, data: seq<Octet>, o: nat, p: Parser, log: seq<Event>,
                                    before: seq<Event>, d: seq<Octet>)
    requires AtChunk(p) && d != [] && |d| <= HEX_LIMIT && Here(data, o, d)
    requires before == if |d| == 1 then log else Push(log, Piece(Body, data[o..o + |d| - 1]))
    requires At(s, m, data, o + |d| - 1, AfterSize(p, |d|).(contentLength := 1), before)
    ensures At(s, m, data, o + |d|, AfterSize(p, |d|).(state := Chunk(DataAlmostDone), contentLength := 0),
               Push(log, Piece(Body, d)))
  {
    hide Run, Report, Push;
    var n := |d|;
    var c := data[o + n - 1];
    var q := AfterSize(p, n).(contentLength := 1);
    HereAt(data, o, d, n - 1);
    AtNext(s, m, data, o + n - 1, q, before);
    ChunkStep(s, q, ChunkState.Data, c);
    ReportBody(before, q, c);
    if n == 1 {
      assert [c] == d;
    } else {
      assert data[o..o + n - 1] + [c] == data[o..o + n] == d;
      PushTwice(log, Body, data[o..o + n - 1], [c]);
    }
  }

  /** The line end after the data. */
  lemma {:induction false} DataEnds(s: Settings, m: Machine, data: seq<Octet>, e: nat, p: Parser, log: seq<Event>,
                                    n: nat)
    requires AtChunk(p) && e + 2 <= |data| && data[e] == CR && data[e + 1] == LF && n > 0
    requires At(s, m, data, e, AfterSize(p, n).(state := Chunk(DataAlmostDone), contentLength := 0), log)
    ensures At(s, m, data, e + 2, p.(contentLength := 0), log + [Note(ChunkComplete)])
  {
    hide Run, Fails, Report, Step;
    var q := AfterSize(p, n).(state := Chunk(DataAlmostDone), contentLength := 0);
    AtNext(s, m, data, e, q, log);
    ChunkStep(s, q, DataAlmostDone, CR);
    CloseReports(log, CR);
    LineFeedEnds(s, m, data, e + 1, q.(state := Chunk(DataDone)), log);
    assert p.flags.(trailing := false) == p.flags;
  }

  lemma {:induction false} LineFeedEnds(s: Settings, m: Machine, data: seq<Octet>, e: nat, p: Parser, log: seq<Event>)
    requires e < |data| && At(s, m, data, e, p, log) && p.state == Chunk(DataDone) && p.flags.chunked && data[e] == LF
    ensures At(s, m, data, e + 1, p.(state := Chunk(SizeStart), nread := 0), log + [Note(ChunkComplete)])
  {
    hide Run, Fails, Report, Step;
    AtNext(s, m, data, e, p, log);
    ChunkStep(s, p, DataDone, LF);
    ReportNote(log, ChunkComplete, LF);
  }

  lemma {:induction false} CloseReports(log: seq<Event>, c: Octet)
    ensures Report(log, None, Then(Close(Body), Done), c) == log
  {
  }

  /** Chunks with data, and then one without. */
  predicate IsStream(s: Settings, chunks: seq<ChunkText>) {
    && chunks != [] && (forall i :: 0 <= i < |chunks| ==> Proper(s, chunks[i]))
    && (forall i :: 0 <= i < |chunks| ==> (chunks[i].data == [] <==> i == |chunks| - 1))
  }

  /**
   * A body that was cut into any chunks and encoded is reported chunk by chunk, with its exact sizes and data; then the
   * parser is at the trailer.
   */
  lemma {:induction false} ChunksReported(s: Settings, m: Machine, data: seq<Octet>, o: nat, p: Parser, log: seq<Event>,
                                          chunks: seq<ChunkText>)
    requires o <= |data| && At(s, m, data, o, p, log) && AtChunk(p) && IsStream(s, chunks)
    requires Here(data, o, Encoded(chunks))
    ensures Here(data, o, Encoded(chunks))
    ensures At(s, m, data, o + |Encoded(chunks)|, AfterSize(p, 0), log + Reported(chunks))
    decreases |chunks|
  {
    hide Run, HexValue, At, Proper, Step, Push, Encoded, Reported, Here, SizeText;
    var k := chunks[0];
    var rest := chunks[1..];
    var line := SizeText(k);
    ChunkParts(chunks);
    StreamTail(s, chunks);
    var after := if k.data == [] then [] else k.data + CRLF + Encoded(rest);
    HereSplit(data, o, line, after);
    HereInside(data, o, line);
    SizeLine(s, m, data, o, p, log, k);
    var e := o + |line|;
    var log1 := log + [Note(ChunkHeader(|k.data|))];
    HereInside(data, e, after);
    if k.data == [] {
      assert log1 == log + Reported(chunks);
    } else {
      HereSplit(data, e, k.data + CRLF, Encoded(rest));
      DataLine(s, m, data, e, p, log1, k.data);
      PushNote(log, ChunkHeader(|k.data|));
      var log2 := log + [Note(ChunkHeader(|k.data|)), Piece(Body, k.data)] + [Note(ChunkComplete)];
      HereInside(data, e + |k.data| + 2, Encoded(rest));
      ChunksReported(s, m, data, e + |k.data| + 2, p.(contentLength := 0), log2, rest);
      assert log2 + Reported(rest) == log + Reported(chunks);
    }
  }

  lemma {:induction false} HereInside(data: seq<Octet>, o: nat, t: seq<Octet>)
    requires Here(data, o, t)
    ensures o + |t| <= |data|
  {
  }

  lemma {:induction false} ChunkParts(chunks: seq<ChunkText>)
    requires chunks != [] && (chunks[0].data == [] ==> |chunks| == 1)
    ensures var k := chunks[0];
            && Encoded(chunks) == SizeText(k) + (if k.data == [] then [] else k.data + CRLF + Encoded(chunks[1..]))
            && Reported(chunks)
               == if k.data == [] then [Note(ChunkHeader(0))]
                  else [Note(ChunkHeader(|k.data|)), Piece(Body, k.data), Note(ChunkComplete)] + Reported(chunks[1..])
  {
  }

  lemma {:induction false} StreamTail(s: Settings, chunks: seq<ChunkText>)
    requires IsStream(s, chunks)
    ensures chunks[0].data == [] <==> chunks[1..] == []
    ensures Proper(s, chunks[0]) && |chunks[0].data| <= HEX_LIMIT
    ensures chunks[1..] != [] ==> IsStream(s, chunks[1..])
  {
    hide HexValue, IsExtension;
    assert Proper(s, chunks[0]);
    var rest := chunks[1..];
    forall i | 0 <= i < |rest|
      ensures Proper(s, rest[i]) && (rest[i].data == [] <==> i == |rest| - 1)
    {
      assert rest[i] == chunks[i + 1] && Proper(s, chunks[i + 1]);
    }
  }
}

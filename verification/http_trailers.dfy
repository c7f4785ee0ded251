/** Whole chunked bodies: chunks with extensions, and the trailer (RFC 7230, section 4.1). */
module HttpTrailers {
  import opened HttpChars
  import opened HttpMachine
  import opened HttpRun
  import opened HttpScan
  import opened HttpChunks
  import opened HttpRequest
  import opened Options

  /** A chunked body as it is sent. */
  function BodyText(chunks: seq<ChunkText>, trailer: seq<HeaderText>)
    : seq<Octet> { Encoded(chunks) + Lines(trailer) + CRLF }

  /** What should be reported for it. */
  function BodyEvents(chunks: seq<ChunkText>, trailer: seq<HeaderText>): seq<Event> {
    Reported(chunks) + Pieces(trailer) + [Note(ChunkComplete), Note(MessageComplete)]
  }

  lemma {:induction false} TrailerStep(s: Settings, p: Parser)
    requires p.errno == Ok && p.state == Header(HeadersAlmostDone) && p.nread + 1 <= s.maxHeaderSize
    requires p.flags.trailing && !p.upgrade
    ensures var done := p.(state := Content(MessageDone), nread := p.nread + 1);
            Step(s, p, LF) == Outcome(done.(state := NewMessage(done)),
                                      Then(Notify(ChunkComplete), Then(Notify(MessageComplete), Done)),
                                      false)
  {
    hide ShouldKeepAlive, Step;
    HeaderStep(s, p, HeadersAlmostDone, LF);
  }

  lemma {:induction false} TwoNotes(log: seq<Event>, c: Octet)
    ensures Report(log, None, Then(Notify(ChunkComplete), Then(Notify(MessageComplete), Done)), c)
            == log + [Note(ChunkComplete), Note(MessageComplete)]
  {
    hide Push;
    var log1 := log + [Note(ChunkComplete)];
    PushNote(log, ChunkComplete);
    ReportNote(log1, MessageComplete, c);
    assert log1 + [Note(MessageComplete)] == log + [Note(ChunkComplete), Note(MessageComplete)];
  }

  /** The line feed that ends the message. */
  lemma {:induction false} TrailerEnds(s: Settings, m: Machine, data: seq<Octet>, o: nat, p: Parser, log: seq<Event>)
    requires o < |data| && At(s, m, data, o, p, log) && data[o] == LF && p.nread + 1 <= s.maxHeaderSize
    requires p.errno == Ok && p.state == Header(HeadersAlmostDone) && p.flags.trailing && !p.upgrade
    ensures var done := p.(state := Content(MessageDone), nread := p.nread + 1);
            At(s, m, data, o + 1, done.(state := NewMessage(done)), log + [Note(ChunkComplete), Note(MessageComplete)])
  {
    hide Step, Run, Fails, Report, NewMessage;
    AtNext(s, m, data, o, p, log);
    TrailerStep(s, p);
    TwoNotes(log, LF);
  }

  lemma {:induction false} AfterLastChunk(p: Parser)
    requires AtChunk(p)
    ensures var q := AfterSize(p, 0); LineStart(q, false) && q.nread == 0 && q.flags.trailing && !q.upgrade
  {
  }

  lemma {:induction false} ReportedEnds(log: seq<Event>, chunks: seq<ChunkText>)
    requires chunks != [] && forall i :: 0 <= i < |chunks| ==> (chunks[i].data == [] <==> i == |chunks| - 1)
    ensures LogStart(log + Reported(chunks), false)
    decreases |chunks|
  {
    if |chunks| > 1 {
      var k, rest := chunks[0], chunks[1..];
      var first := [Note(ChunkHeader(|k.data|)), Piece(Body, k.data), Note(ChunkComplete)];
      ReportedEnds(log + first, rest);
      assert log + Reported(chunks) == log + first + Reported(rest);
    } else {
      assert Reported(chunks) == [Note(ChunkHeader(0))] + Reported(chunks[1..]) && chunks[1..] == [];
    }
  }

  /**
   * A body that was cut into any chunks, encoded with any extensions and followed by trailer lines with ordinary names
   * is reported chunk by chunk, with its exact sizes and data, then line by line, and then as the end of the message,
   * once; the parser is at the beginning of a message again, or has seen the last.
   */
  lemma {:induction false} ChunksRoundTrip(s: Settings, m: Machine, data: seq<Octet>, o: nat, p: Parser,
                                           log: seq<Event>, chunks: seq<ChunkText>, trailer: seq<HeaderText>)
    returns (q: Parser)
    requires o <= |data| && At(s, m, data, o, p, log) && AtChunk(p) && IsStream(s, chunks) && ProperLines(trailer)
    requires Here(data, o, BodyText(chunks, trailer)) && |Lines(trailer)| + 2 <= s.maxHeaderSize
    ensures o + |BodyText(chunks, trailer)| <= |data|
    ensures At(s, m, data, o + |BodyText(chunks, trailer)|, q, log + BodyEvents(chunks, trailer))
    ensures q.state == NewMessage(q.(state := Content(MessageDone))) && q.nread == |Lines(trailer)| + 2
    ensures q == p.(state := q.state, headerState := q.headerState, index := q.index, nread := q.nread,
                    contentLength := 0,
                    flags := p.flags.(trailing := true), usesTransferEncoding := q.usesTransferEncoding)
  {
    hide Run, At, Step, Fails, AtChunk, LineStart, LogStart, Flushed, ProperLines, Encoded, Lines, Reported, Pieces,
      Proper, NewMessage, SomeEncoding;
    HereSplit(data, o, Encoded(chunks) + Lines(trailer), CRLF);
    HereSplit(data, o, Encoded(chunks), Lines(trailer));
    ChunksReported(s, m, data, o, p, log, chunks);
    var e := o + |Encoded(chunks)|;
    var q1, log1 := AfterSize(p, 0), log + Reported(chunks);
    AfterLastChunk(p);
    ReportedEnds(log, chunks);
    var q2, pending, log2 := LinesReported(s, m, data, e, q1, false, log1, trailer);
    FlushedNow(log1);
    var f := e + |Lines(trailer)|;
    HereAt(data, f, CRLF, 0);
    HereAt(data, f, CRLF, 1);
    HeadersEnd(s, m, data, f, q2, pending, log2);
    var q3 := q2.(state := Header(HeadersAlmostDone), nread := q2.nread + 1);
    StartErrno(q2, pending);
    TrailerEnds(s, m, data, f + 1, q3, Flushed(log2, pending));
    assert log1 + Pieces(trailer) + [Note(ChunkComplete), Note(MessageComplete)] == log + BodyEvents(chunks, trailer);
    var done := q3.(state := Content(MessageDone), nread := q3.nread + 1);
    q := done.(state := NewMessage(done));
    assert q.(state := Content(MessageDone)) == done;
  }
}

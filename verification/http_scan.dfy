/** The scanning loops inside http_parser_execute, and that each refines one byte at a time. */
module HttpScan {
  import opened HttpChars
  import opened HttpMachine
  import opened HttpRun
  import opened HttpSafety
  import opened Options

  // ----- Header names -----

  /** The parser after the token characters data[a..b] of a header name, whatever it counts. */
  function FieldFold(p: Parser, data: seq<Octet>, a: nat, b: nat): Parser
    requires a <= b <= |data|
  {
    if a == b then p else FieldChar(FieldFold(p, data, a, b - 1), data[b - 1], Token(data[b - 1]))
  }

  predicate Tokens(data: seq<Octet>, a: nat, b: nat)
    requires b <= |data|
  {
    forall i :: a <= i < b ==> Token(data[i]) != '\0'
  }

  lemma {:induction false} FieldCharKeeps(p: Parser, c: Octet, t: Octet, n: nat)
    requires p.errno == Ok && NameState(p.headerState)
    ensures var q := FieldChar(p, c, t);
            q.errno == Ok && NameState(q.headerState) && q.state == p.state && q.nread == p.nread
    ensures FieldChar(p.(nread := n), c, t) == FieldChar(p, c, t).(nread := n)
  {
    hide MatchWord, Increment;
  }

  lemma {:induction false} FieldFoldKeeps(p: Parser, data: seq<Octet>, a: nat, b: nat, n: nat)
    requires a <= b <= |data| && p.errno == Ok && NameState(p.headerState)
    ensures var q := FieldFold(p, data, a, b);
            q.errno == Ok && NameState(q.headerState) && q.state == p.state && q.nread == p.nread
    ensures FieldFold(p.(nread := n), data, a, b) == FieldFold(p, data, a, b).(nread := n)
  {
    hide FieldChar, NameState, Token;
    if a < b {
      FieldFoldKeeps(p, data, a, b - 1, n);
      FieldCharKeeps(FieldFold(p, data, a, b - 1), data[b - 1], Token(data[b - 1]), n);
    }
  }

  /** A name that is not special stays so, so its characters can be skipped. */
  lemma {:induction false} GeneralName(p: Parser, c: Octet)
    requires p.headerState.General? && Token(c) != '\0'
    ensures FieldChar(p, c, Token(c)) == p
  {
  }

  function Min(a: nat, b: nat): nat { if a <= b then a else b }

  /** The loop of s_header_field. */
  method ScanField(p0: Parser, max: nat, data: seq<Octet>, start: nat) returns (p: Parser, j: nat)
    requires start <= |data|
    ensures start <= j <= |data| && Tokens(data, start, j) && (j < |data| ==> Token(data[j]) == '\0')
    ensures p == FieldFold(p0, data, start, j)
  {
    hide FieldChar, Token;
    p, j := p0, start;
    while j < |data| && Token(data[j]) != '\0'
      invariant start <= j <= |data| && Tokens(data, start, j)
      invariant p == FieldFold(p0, data, start, j)
    {
      if p.headerState.General? {
        GeneralName(p, data[j]);
        var left := |data| - j;
        var pe := j + Min(left, max);
        while j + 1 < pe && Token(data[j + 1]) != '\0'
          invariant start <= j < |data| && pe <= |data| && Token(data[j]) != '\0' && Tokens(data, start, j)
          invariant p == FieldFold(p0, data, start, j)
          invariant FieldChar(p, data[j], Token(data[j])) == p
        {
          j := j + 1;
          GeneralName(p, data[j]);
        }
      } else {
        p := FieldChar(p, data[j], Token(data[j]));
      }
      j := j + 1;
    }
  }

  // ----- Header values -----

  /** The parser after the bytes data[a..b] of a header value, whatever it counts. */
  function ValueFold(p: Parser, data: seq<Octet>, a: nat, b: nat): Parser
    requires a <= b <= |data|
  {
    if a == b then p else ValueChar(ValueFold(p, data, a, b - 1), data[b - 1])
  }

  /** Byte i of a value that starts at a neither ends the line nor is refused. */
  predicate AcceptedAt(p: Parser, data: seq<Octet>, a: nat, i: nat)
    requires a <= i < |data|
  {
    data[i] != CR && data[i] != LF && ValueFold(p, data, a, i + 1).errno == Ok
  }

  predicate Accepted(p: Parser, data: seq<Octet>, a: nat, b: nat)
    requires b <= |data|
  {
    forall i :: a <= i < b ==> AcceptedAt(p, data, a, i)
  }

  lemma {:induction false} LengthDigitKeeps(p: Parser, c: Octet, n: nat)
    ensures var q := LengthDigit(p, c); q.state == p.state && q.nread == p.nread
    ensures LengthDigit(p.(nread := n), c) == LengthDigit(p, c).(nread := n)
  {
  }

  lemma {:induction false} EncodingCharKeeps(p: Parser, c: Octet, n: nat)
    ensures var q := EncodingValueChar(p, c); q.state == p.state && q.nread == p.nread
    ensures EncodingValueChar(p.(nread := n), c) == EncodingValueChar(p, c).(nread := n)
  {
    hide NextEncodingState, Increment, Lower;
  }

  lemma {:induction false} ConnectionCharKeeps(p: Parser, c: Octet, n: nat)
    ensures var q := ConnectionValueChar(p, c); q.state == p.state && q.nread == p.nread
    ensures ConnectionValueChar(p.(nread := n), c) == ConnectionValueChar(p, c).(nread := n)
  {
    hide NextConnectionState, Increment, Lower, FinishedFlags;
  }

  lemma {:induction false} OtherCharKeeps(p: Parser, c: Octet, n: nat)
    ensures var q := OtherValueChar(p, c); q.state == p.state && q.nread == p.nread
    ensures OtherValueChar(p.(nread := n), c) == OtherValueChar(p, c).(nread := n)
  {
    hide LengthDigit;
    if p.headerState.Connection? || p.headerState.TransferEncoding? {
    } else if p.headerState.ContentLength? || p.headerState.ContentLengthNum? {
      if c != ' ' { LengthDigitKeeps(p.(headerState := ContentLengthNum), c, n); }
    } else if p.headerState.ContentLengthWs? {
    }
  }

  lemma {:induction false} ValueCharKeeps(p: Parser, c: Octet, n: nat)
    ensures var q := ValueChar(p, c); q.state == p.state && q.nread == p.nread
    ensures ValueChar(p.(nread := n), c) == ValueChar(p, c).(nread := n)
  {
    hide OtherValueChar, EncodingValueChar, ConnectionValueChar, IsHeaderChar, InEncoding, InConnection;
    if !p.lenient && !IsHeaderChar(c) {
    } else if InEncoding(p.headerState) {
      EncodingCharKeeps(p, c, n);
    } else if InConnection(p.headerState) {
      ConnectionCharKeeps(p, c, n);
    } else {
      OtherCharKeeps(p, c, n);
    }
  }

  lemma {:induction false} ValueFoldKeeps(p: Parser, data: seq<Octet>, a: nat, b: nat, n: nat)
    requires a <= b <= |data|
    ensures var q := ValueFold(p, data, a, b); q.state == p.state && q.nread == p.nread
    ensures ValueFold(p.(nread := n), data, a, b) == ValueFold(p, data, a, b).(nread := n)
  {
    hide ValueChar;
    if a < b {
      ValueFoldKeeps(p, data, a, b - 1, n);
      ValueCharKeeps(ValueFold(p, data, a, b - 1), data[b - 1], n);
    }
  }

  /** Value bytes that the parser does not look at can be skipped. */
  lemma {:induction false} GeneralValue(p: Parser, c: Octet)
    requires p.headerState.General? && (p.lenient || IsHeaderChar(c))
    ensures ValueChar(p, c) == p
  {
  }

  /**
   * The loop over a value has gone from `start` to j; p is the parser as it should be, while j is within `max` bytes.
   */
  ghost predicate Scanned(p0: Parser, max: nat, data: seq<Octet>, start: nat, p: Parser, j: nat) {
    && start <= j <= |data| && Accepted(p0, data, start, Min(j, start + max))
    && (j <= start + max ==> p == ValueFold(p0, data, start, j))
    && p.errno == Ok && p.state == Header(InValue) && Invariant(p) && p.nread == p0.nread
  }

  lemma {:induction false} ScanStarts(p: Parser, max: nat, data: seq<Octet>, start: nat)
    requires start <= |data| && p.errno == Ok && p.state == Header(InValue) && Invariant(p)
    ensures Scanned(p, max, data, start, p, start)
  {
    hide Invariant;
    FoldNothing(p, data, start);
  }

  /** A byte of an ordinary value. */
  lemma {:induction false} ScanOrdinary(p0: Parser, max: nat, data: seq<Octet>, start: nat, p: Parser, j: nat)
    requires Scanned(p0, max, data, start, p, j) && j < |data| && data[j] != CR && data[j] != LF
    requires p.headerState.General? && (p.lenient || IsHeaderChar(data[j]))
    ensures Scanned(p0, max, data, start, p, j + 1)
  {
    hide ValueChar, IsHeaderChar, ValueFold, Invariant, Accepted;
    GeneralValue(p, data[j]);
    AcceptedOne(p0, data, start, j, max, p);
  }

  /** A byte that is skipped unseen, where the header is too long. */
  lemma {:induction false} ScanUnseen(p0: Parser, max: nat, data: seq<Octet>, start: nat, p: Parser, j: nat)
    requires Scanned(p0, max, data, start, p, j) && start + max <= j < |data|
    ensures Scanned(p0, max, data, start, p, j + 1)
  {
    hide ValueFold, Invariant, Accepted;
  }

  /** A byte of any other value. */
  lemma {:induction false} ScanSpecial(p0: Parser, max: nat, data: seq<Octet>, start: nat, p: Parser, j: nat)
    requires Scanned(p0, max, data, start, p, j) && j < |data| && data[j] != CR && data[j] != LF
    ensures var q := ValueChar(p, data[j]);
            && Invariant(q) && q.nread == p0.nread
            && (q.errno == Ok ==> Scanned(p0, max, data, start, q, j + 1))
            && (j <= start + max ==> q == ValueChar(ValueFold(p0, data, start, j), data[j]))
  {
    hide ValueChar, ValueFold, Invariant, Accepted;
    ValueCharSound(p, data[j]);
    if ValueChar(p, data[j]).errno == Ok { AcceptedOne(p0, data, start, j, max, p); }
  }

  /** A byte that is refused. */
  lemma {:induction false} ScanRefused(p0: Parser, max: nat, data: seq<Octet>, start: nat, p: Parser, j: nat)
    requires Scanned(p0, max, data, start, p, j) && j < |data| && !p.lenient && !IsHeaderChar(data[j])
    ensures Invariant(p.(errno := InvalidHeaderToken))
    ensures j <= start + max ==> ValueChar(ValueFold(p0, data, start, j), data[j]).errno != Ok
  {
    hide ValueChar, IsHeaderChar, ValueFold, Invariant, Accepted;
    RefusedValue(p, data[j]);
    ErrorInvariant(p.(errno := InvalidHeaderToken));
  }

  lemma {:induction false} ScanMeans(p0: Parser, max: nat, data: seq<Octet>, start: nat, p: Parser, j: nat)
    requires Scanned(p0, max, data, start, p, j)
    ensures start <= j <= |data| && Accepted(p0, data, start, Min(j, start + max))
    ensures j <= start + max ==> p == ValueFold(p0, data, start, j)
    ensures p.errno == Ok && Invariant(p) && p.nread == p0.nread
  {
    hide Accepted, ValueFold, Invariant;
  }

  /**
   * The loop of s_header_value. Inside an ordinary value it looks at `max` bytes at most and then skips one unseen;
   * by then the header is too long.
   */
  method ScanValue(p0: Parser, max: nat, data: seq<Octet>, start: nat) returns (p: Parser, j: nat)
    requires start <= |data| && p0.errno == Ok && p0.state == Header(InValue) && Invariant(p0)
    ensures Invariant(p) && p.nread == p0.nread
    ensures start <= j <= |data| && Accepted(p0, data, start, Min(j, start + max))
    ensures j <= start + max && p.errno == Ok ==> p == ValueFold(p0, data, start, j)
    ensures j < |data| && p.errno == Ok ==> data[j] == CR || data[j] == LF
    ensures p.errno != Ok ==> j < |data|
    ensures j <= start + max && p.errno != Ok ==> data[j] != CR && data[j] != LF
    ensures j <= start + max && p.errno != Ok ==> ValueChar(ValueFold(p0, data, start, j), data[j]).errno != Ok
  {
    hide ValueChar, IsHeaderChar, ValueFold, Invariant, Accepted, Scanned;
    ScanStarts(p0, max, data, start);
    p, j := p0, start;
    while j < |data| && data[j] != CR && data[j] != LF
      invariant start <= j <= |data| && Scanned(p0, max, data, start, p, j)
    {
      ScanMeans(p0, max, data, start, p, j);
      if p.headerState.General? {
        ghost var from := j;
        var left := |data| - j;
        var pe := j + Min(left, max);
        if !p.lenient && !IsHeaderChar(data[j]) {
          ScanRefused(p0, max, data, start, p, j);
          p := p.(errno := InvalidHeaderToken);
          return;
        }
        while j != pe && data[j] != CR && data[j] != LF
          invariant from <= j <= pe && Scanned(p0, max, data, start, p, j)
        {
          if !p.lenient && !IsHeaderChar(data[j]) {
            ScanMeans(p0, max, data, start, p, j);
            ScanRefused(p0, max, data, start, p, j);
            p := p.(errno := InvalidHeaderToken);
            return;
          }
          ScanOrdinary(p0, max, data, start, p, j);
          j := j + 1;
        }
        if j == pe && j < |data| {
          ScanUnseen(p0, max, data, start, p, j);
          j := j + 1;
        }
      } else {
        ScanSpecial(p0, max, data, start, p, j);
        p := ValueChar(p, data[j]);
        if p.errno != Ok { return; }
        j := j + 1;
      }
    }
    ScanMeans(p0, max, data, start, p, j);
  }

  lemma {:induction false} ErrorInvariant(p: Parser)
    requires p.errno != Ok && p.errno != AssertionFailed
    ensures Invariant(p)
  {
  }

  lemma {:induction false} ValueCharSound(p: Parser, c: Octet)
    requires p.errno == Ok && p.state == Header(InValue) && Invariant(p)
    ensures var q := ValueChar(p, c); Invariant(q) && q.state == p.state && q.nread == p.nread
  {
    hide ValueChar;
    ValueCharSafe(p, c);
    ValueCharKeeps(p, c, 0);
  }

  lemma {:induction false} FoldNothing(p: Parser, data: seq<Octet>, a: nat)
    requires a <= |data|
    ensures ValueFold(p, data, a, a) == p && Accepted(p, data, a, a)
  {
  }

  lemma {:induction false} AcceptedOne(p0: Parser, data: seq<Octet>, a: nat, j: nat, max: nat, p: Parser)
    requires a <= j < |data| && Accepted(p0, data, a, Min(j, a + max)) && data[j] != CR && data[j] != LF
    requires j <= a + max ==> p == ValueFold(p0, data, a, j) && ValueChar(p, data[j]).errno == Ok
    ensures Accepted(p0, data, a, Min(j + 1, a + max))
    ensures j < a + max ==> ValueFold(p0, data, a, j + 1) == ValueChar(p, data[j])
  {
    hide ValueChar, ValueFold;
    if j < a + max { FoldOne(p0, data, a, j); }
  }

  lemma {:induction false} FoldOne(p: Parser, data: seq<Octet>, a: nat, b: nat)
    requires a <= b < |data|
    ensures ValueFold(p, data, a, b + 1) == ValueChar(ValueFold(p, data, a, b), data[b])
  {
    hide ValueChar;
  }

  /** Bytes of a value that means nothing to the parser change nothing. */
  lemma {:induction false} PlainFold(p: Parser, data: seq<Octet>, a: nat, b: nat)
    requires a <= b <= |data| && p.headerState.General? && p.errno == Ok
    requires forall i :: a <= i < b ==> data[i] != CR && data[i] != LF && IsHeaderChar(data[i])
    ensures ValueFold(p, data, a, b) == p && Accepted(p, data, a, b)
  {
    hide ValueChar, IsHeaderChar, Accepted;
    if a == b {
      FoldNothing(p, data, a);
    } else {
      PlainFold(p, data, a, b - 1);
      FoldOne(p, data, a, b - 1);
      var c := data[b - 1];
      GeneralValue(p, c);
      AcceptedMore(p, data, a, b);
    }
  }

  lemma {:induction false} AcceptedMore(p: Parser, data: seq<Octet>, a: nat, b: nat)
    requires a < b <= |data| && Accepted(p, data, a, b - 1) && data[b - 1] != CR && data[b - 1] != LF
    requires ValueFold(p, data, a, b).errno == Ok
    ensures Accepted(p, data, a, b)
  {
    hide ValueFold;
    assert AcceptedAt(p, data, a, b - 1);
  }

  lemma {:induction false} RefusedValue(p: Parser, c: Octet)
    ensures !p.lenient && !IsHeaderChar(c) ==> ValueChar(p, c).errno != Ok
  {
  }

  // ----- Runs over the bytes that the loops cover -----

  /** After n bytes the run goes on, with this parser and this log. */
  ghost predicate At(s: Settings, m: Machine, data: seq<Octet>, n: nat, p: Parser, log: seq<Event>)
    requires n <= |data|
  {
    Run(s, m, data, n) == Progress(Machine(p, log), n, false) && p.errno == Ok
  }

  /** The run over all of data ends in an error. */
  ghost predicate Fails(s: Settings, m: Machine, data: seq<Octet>) {
    Run(s, m, data, |data|).machine.parser.errno != Ok
  }

  lemma {:induction false} FailsBefore(s: Settings, m: Machine, data: seq<Octet>, n: nat)
    requires n <= |data| && Run(s, m, data, n).machine.parser.errno != Ok
    ensures Fails(s, m, data)
  {
    RunEnded(s, m, data, n, |data|);
  }

  lemma {:induction false} RunSafe(s: Settings, m: Machine, data: seq<Octet>, n: nat)
    requires n <= |data| && Invariant(m.parser)
    ensures Invariant(Run(s, m, data, n).machine.parser)
  {
    hide Step, Report, Invariant, StartOpen;
    if n > 0 {
      RunSafe(s, m, data, n - 1);
      var r := Run(s, m, data, n - 1);
      if r.Running() { StepSafe(s, r.machine.parser, data[n - 1]); }
    }
  }

  lemma {:induction false} AtNext(s: Settings, m: Machine, data: seq<Octet>, n: nat, p: Parser, log: seq<Event>)
    requires n < |data| && At(s, m, data, n, p, log)
    ensures var o := Step(s, p, data[n]);
            if o.parser.errno != Ok then Fails(s, m, data)
            else Run(s, m, data, n + 1)
                 == Progress(Machine(o.parser, Report(log, StartOpen(p.state), o.actions, data[n])), n + 1, o.stop)
  {
    hide Step, Report, StartOpen;
    if Step(s, p, data[n]).parser.errno != Ok { FailsBefore(s, m, data, n + 1); }
  }

  /** One more character of a header name. */
  lemma {:induction false} FieldStep(s: Settings, p: Parser, c: Octet)
    requires p.errno == Ok && p.state == Header(InField) && NameState(p.headerState) && Token(c) != '\0'
    ensures Step(s, p, c) == if p.nread + 1 > s.maxHeaderSize then Fail(p.(nread := p.nread + 1), HeaderOverflow)
                             else Go(FieldChar(p, c, Token(c)).(nread := p.nread + 1))
  {
    hide FieldChar, Token, NameState;
    FieldCharKeeps(p, c, Token(c), p.nread + 1);
  }

  /** The run over token characters of a header name. */
  lemma {:induction false} FieldRun(s: Settings, m: Machine, data: seq<Octet>, a: nat, b: nat, p: Parser,
                                    log: seq<Event>)
    requires a <= b <= |data| && At(s, m, data, a, p, log) && LastIs(log, Field) && Tokens(data, a, b)
    requires p.state == Header(InField) && NameState(p.headerState) && p.nread <= s.maxHeaderSize
    ensures if p.nread + (b - a) > s.maxHeaderSize then Fails(s, m, data)
            else At(s, m, data, b, FieldFold(p, data, a, b).(nread := p.nread + (b - a)),
                    Push(log, Piece(Field, data[a..b])))
  {
    hide FieldChar, Token, NameState, Step, Push, LastIs, Run, Fails;
    if a == b {
      PushNothing(log, Field);
    } else {
      FieldRun(s, m, data, a, b - 1, p, log);
      if p.nread + (b - 1 - a) <= s.maxHeaderSize {
        FieldFoldKeeps(p, data, a, b - 1, 0);
        var f := FieldFold(p, data, a, b - 1);
        var q := f.(nread := p.nread + (b - 1 - a));
        var l := Push(log, Piece(Field, data[a..b - 1]));
        AtNext(s, m, data, b - 1, q, l);
        FieldStep(s, q, data[b - 1]);
        FieldCharKeeps(f, data[b - 1], Token(data[b - 1]), q.nread);
        PushTwice(log, Field, data[a..b - 1], [data[b - 1]]);
        assert data[a..b] == data[a..b - 1] + [data[b - 1]];
      }
    }
  }

  /** One more byte of a header value, other than CR and LF. */
  lemma {:induction false} ValueStep(s: Settings, p: Parser, c: Octet)
    requires p.errno == Ok && p.state == Header(InValue) && c != CR && c != LF
    ensures Step(s, p, c) == if p.nread + 1 > s.maxHeaderSize then Fail(p.(nread := p.nread + 1), HeaderOverflow)
                             else Go(ValueChar(p, c).(nread := p.nread + 1))
  {
    hide ValueChar;
    ValueCharKeeps(p, c, p.nread + 1);
  }

  lemma {:induction false} ValueStepCounted(s: Settings, f: Parser, n: nat, c: Octet)
    requires f.errno == Ok && f.state == Header(InValue) && c != CR && c != LF
    ensures Step(s, f.(nread := n), c) == if n + 1 > s.maxHeaderSize then Fail(f.(nread := n + 1), HeaderOverflow)
                                          else Go(ValueChar(f, c).(nread := n + 1))
  {
    hide ValueChar, Step;
    ValueStep(s, f.(nread := n), c);
    ValueCharKeeps(f, c, n);
  }

  lemma {:induction false} AcceptedLess(p: Parser, data: seq<Octet>, a: nat, b: nat)
    requires a < b <= |data| && Accepted(p, data, a, b)
    ensures Accepted(p, data, a, b - 1)
    ensures data[b - 1] != CR && data[b - 1] != LF && ValueFold(p, data, a, b).errno == Ok
  {
    hide ValueFold;
    assert AcceptedAt(p, data, a, b - 1);
  }

  /** An accepted byte, with f the parser before it, whatever it counts. */
  lemma {:induction false} ValueByte(s: Settings, m: Machine, data: seq<Octet>, j: nat, f: Parser, n: nat,
                                     log: seq<Event>)
    requires j < |data| && At(s, m, data, j, f.(nread := n), log) && f.state == Header(InValue)
    requires data[j] != CR && data[j] != LF && ValueChar(f, data[j]).errno == Ok
    ensures if n + 1 > s.maxHeaderSize then Fails(s, m, data)
            else At(s, m, data, j + 1, ValueChar(f, data[j]).(nread := n + 1), Push(log, Piece(Value, [data[j]])))
  {
    hide ValueChar, Step, Push, LastIs, Run, Fails;
    AtNext(s, m, data, j, f.(nread := n), log);
    ValueStepCounted(s, f, n, data[j]);
  }

  /** One more accepted byte. */
  lemma {:induction false} ValueRunOne(s: Settings, m: Machine, data: seq<Octet>, a: nat, b: nat, p: Parser,
                                       log: seq<Event>)
    requires a < b <= |data| && LastIs(log, Value)
    requires p.state == Header(InValue) && p.nread + (b - 1 - a) <= s.maxHeaderSize
    requires data[b - 1] != CR && data[b - 1] != LF && ValueFold(p, data, a, b).errno == Ok
    requires At(s, m, data, b - 1, ValueFold(p, data, a, b - 1).(nread := p.nread + (b - 1 - a)),
                Push(log, Piece(Value, data[a..b - 1])))
    ensures if p.nread + (b - a) > s.maxHeaderSize then Fails(s, m, data)
            else At(s, m, data, b, ValueFold(p, data, a, b).(nread := p.nread + (b - a)),
                    Push(log, Piece(Value, data[a..b])))
  {
    hide ValueChar, Push, LastIs, At, Fails, ValueFold;
    FoldOne(p, data, a, b - 1);
    ValueFoldKeeps(p, data, a, b - 1, 0);
    ValueByte(s, m, data, b - 1, ValueFold(p, data, a, b - 1), p.nread + (b - 1 - a),
              Push(log, Piece(Value, data[a..b - 1])));
    PushTwice(log, Value, data[a..b - 1], [data[b - 1]]);
    assert data[a..b] == data[a..b - 1] + [data[b - 1]];
  }

  /** The run over accepted bytes of a header value. */
  lemma {:induction false} ValueRun(s: Settings, m: Machine, data: seq<Octet>, a: nat, b: nat, p: Parser,
                                    log: seq<Event>)
    requires a <= b <= |data| && At(s, m, data, a, p, log) && LastIs(log, Value) && Accepted(p, data, a, b)
    requires p.state == Header(InValue) && p.nread <= s.maxHeaderSize
    ensures if p.nread + (b - a) > s.maxHeaderSize then Fails(s, m, data)
            else At(s, m, data, b, ValueFold(p, data, a, b).(nread := p.nread + (b - a)),
                    Push(log, Piece(Value, data[a..b])))
  {
    hide ValueChar, Step, Push, LastIs, Accepted, At, Fails;
    if a == b {
      PushNothing(log, Value);
      assert data[a..b] == [] && p.(nread := p.nread + (b - a)) == p;
    } else {
      AcceptedLess(p, data, a, b);
      ValueRun(s, m, data, a, b - 1, p, log);
      if p.nread + (b - 1 - a) <= s.maxHeaderSize {
        ValueRunOne(s, m, data, a, b, p, log);
      }
    }
  }

  // ----- Bodies -----

  /** The states in which body bytes are passed on. */
  predicate InBody(p: Parser) {
    p.state == Content(IdentityEof) ||
    ((p.state == Content(Identity) || (p.state == Chunk(ChunkState.Data) && p.flags.chunked)) &&
     0 < p.contentLength < ULLONG_MAX)
  }

  /** How many more bytes leave the parser in the body. */
  predicate MoreThan(p: Parser, k: nat) { p.state == Content(IdentityEof) || k < p.contentLength }

  function Consumed(p: Parser, k: nat): Parser
    requires MoreThan(p, k)
  {
    if p.state == Content(IdentityEof) then p else p.(contentLength := p.contentLength - k)
  }

  lemma {:induction false} BodyStep(s: Settings, p: Parser, c: Octet)
    requires p.errno == Ok && InBody(p) && MoreThan(p, 1)
    ensures Step(s, p, c) == After(Mark(Body), Go(Consumed(p, 1)))
  {
    hide Complete;
  }

  lemma {:induction false} ReportBody(log: seq<Event>, p: Parser, c: Octet)
    ensures Report(log, None, Then(Mark(Body), Done), c) == Push(log, Piece(Body, [c]))
  {
    PushTwice(log, Body, [], [c]);
    assert [] + [c] == [c];
  }

  /** The run over body bytes, up to and not including the one that ends the body. */
  lemma {:induction false} BodyRun(s: Settings, m: Machine, data: seq<Octet>, a: nat, b: nat, p: Parser,
                                   log: seq<Event>)
    requires a <= b <= |data| && At(s, m, data, a, p, log) && InBody(p) && MoreThan(p, b - a)
    ensures At(s, m, data, b, Consumed(p, b - a), if a == b then log else Push(log, Piece(Body, data[a..b])))
  {
    hide Step, Push, Report, Consumed, InBody, MoreThan, StartOpen;
    MoreThanLess(p, b - a);
    if a < b {
      BodyRun(s, m, data, a, b - 1, p, log);
      var q := Consumed(p, b - 1 - a);
      var l := if a == b - 1 then log else Push(log, Piece(Body, data[a..b - 1]));
      AtNext(s, m, data, b - 1, q, l);
      ConsumedOne(p, b - 1 - a);
      BodyStep(s, q, data[b - 1]);
      ReportBody(l, q, data[b - 1]);
      if a == b - 1 {
        assert data[a..b] == [data[b - 1]];
      } else {
        assert data[a..b] == data[a..b - 1] + [data[b - 1]];
        PushTwice(log, Body, data[a..b - 1], [data[b - 1]]);
      }
    }
  }

  lemma {:induction false} MoreThanLess(p: Parser, k: nat)
    requires MoreThan(p, k)
    ensures k > 0 ==> MoreThan(p, k - 1)
    ensures k == 0 ==> Consumed(p, k) == p
  {
  }

  lemma {:induction false} ConsumedOne(p: Parser, k: nat)
    requires InBody(p) && MoreThan(p, k + 1)
    ensures var q := Consumed(p, k);
            InBody(q) && MoreThan(q, 1) && Consumed(q, 1) == Consumed(p, k + 1) &&
            q.errno == Consumed(q, 1).errno == p.errno
    ensures StartOpen(p.state) == None && Consumed(p, k).state == p.state
  {
  }
}

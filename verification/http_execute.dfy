/** http_parser_execute over a whole buffer: marks, callbacks, scanning loops; and that it refines the byte machine. */
module HttpExecute {
  import opened HttpChars
  import opened HttpMachine
  import opened HttpRun
  import opened HttpSafety
  import opened HttpScan
  import opened HttpActions
  import opened Options

  /** The local mark variables: where in the buffer the data of a callback begins. */
  type Marks = map<DataKind, nat>

  ghost predicate Marked(marks: Marks, open: Option<DataKind>, i: nat) {
    match open
    case None => marks == map[]
    case Some(k) => k in marks && marks == map[k := marks[k]] && marks[k] <= i
  }

  /** The log with the data since the mark, as if its callback had been made at position i. */
  ghost function OpenLog(log: seq<Event>, marks: Marks, open: Option<DataKind>, data: seq<Octet>, i: nat): seq<Event>
    requires i <= |data| && Marked(marks, open, i)
  {
    match open
    case None => log
    case Some(k) => Push(log, Piece(k, data[marks[k]..i]))
  }

  // ----- One byte -----

  /** With a body callback open, the next action is to go on with it or to end it. */
  lemma {:induction false} BodyFirst(s: Settings, p: Parser, c: Octet)
    requires BodyOpen(p.state) && Dispatch(s, p, c).parser.errno == Ok
    ensures Dispatch(s, p, c).actions.Then?
    ensures Dispatch(s, p, c).actions.first == Mark(Body) || Dispatch(s, p, c).actions.first == Close(Body)
  {
    hide Complete, Unhex, OnChunkSize;
  }

  lemma {:induction false} ReportOpen(log: seq<Event>, s: Settings, p: Parser, c: Octet, open: Option<DataKind>)
    requires Fits(open, p.state)
    requires Dispatch(s, p, c).parser.errno == Ok
    ensures Report(log, StartOpen(p.state), Dispatch(s, p, c).actions, c)
            == Report(log, open, Dispatch(s, p, c).actions, c)
  {
    hide Dispatch;
    if open != StartOpen(p.state) {
      BodyFirst(s, p, c);
    }
  }

  /** A step from the point of view of the call, which may have a body callback open. */
  lemma {:induction false} StepLog(s: Settings, m: Machine, data: seq<Octet>, i: nat, q: Parser, log: seq<Event>,
                                   open: Option<DataKind>)
    requires i < |data| && At(s, m, data, i, q, log) && Fits(open, q.state)
    requires q.state.ParsingHeader() ==> q.nread + 1 <= s.maxHeaderSize
    ensures var o := Dispatch(s, Counted(q), data[i]);
            o.parser.errno == Ok ==>
              && Run(s, m, data, i + 1)
                 == Progress(Machine(o.parser, Report(log, open, o.actions, data[i])), i + 1, o.stop)
              && Track(open, o.actions).Some?
              && Fits(Track(open, o.actions).value, o.parser.state)
              && (o.stop ==> Track(open, o.actions).value.None?)
  {
    hide Dispatch, Report, StartOpen, Track, Fits, At, Fails;
    AtNext(s, m, data, i, q, log);
    StepIsDispatch(s, q, data[i]);
    DispatchOrderly(s, Counted(q), data[i], open);
    if Dispatch(s, Counted(q), data[i]).parser.errno == Ok {
      ReportOpen(log, s, Counted(q), data[i], open);
    }
  }

  lemma {:induction false} StepIsDispatch(s: Settings, q: Parser, c: Octet)
    ensures Counted(q).state == q.state && Counted(q).errno == q.errno
    ensures if q.state.ParsingHeader() && q.nread + 1 > s.maxHeaderSize
            then Step(s, q, c) == Fail(Counted(q), HeaderOverflow)
            else Step(s, q, c) == Dispatch(s, Counted(q), c)
  {
    hide Dispatch;
  }

  /** MARK: only when the mark is not set. */
  function Marking(marks: Marks, k: DataKind, i: nat): Marks {
    if k in marks then marks else marks[k := i]
  }

  lemma {:induction false} MarkingMarks(marks: Marks, open: Option<DataKind>, k: DataKind, data: seq<Octet>, i: nat,
                                        log: seq<Event>)
    requires i <= |data| && Marked(marks, open, i) && (open.None? || open.value == k)
    ensures Marked(Marking(marks, k, i), Some(k), i)
    ensures OpenLog(log, Marking(marks, k, i), Some(k), data, i)
            == Push(OpenLog(log, marks, open, data, i), Piece(k, []))
  {
    hide Push, LastIs;
    if open.None? {
      assert data[i..i] == [];
    } else {
      PushTwice(log, k, data[marks[k]..i], []);
      assert data[marks[k]..i] + [] == data[marks[k]..i];
    }
  }

  lemma {:induction false} LogGrows(marks: Marks, open: Option<DataKind>, data: seq<Octet>, i: nat, j: nat,
                                    log: seq<Event>)
    requires i <= j <= |data| && Marked(marks, open, i)
    ensures Marked(marks, open, j)
    ensures open.Some? ==> OpenLog(log, marks, open, data, j)
                           == Push(OpenLog(log, marks, open, data, i), Piece(open.value, data[i..j]))
    ensures open.Some? ==> LastIs(OpenLog(log, marks, open, data, i), open.value)
  {
    hide Push, LastIs;
    if open.Some? {
      var k := open.value;
      PushTwice(log, k, data[marks[k]..i], data[i..j]);
      assert data[marks[k]..i] + data[i..j] == data[marks[k]..j];
    }
  }

  // ----- Scanning ahead -----

  /** The run has reached byte j, with q the parser there and all marked data counted in. */
  ghost predicate Reached(s: Settings, m: Machine, data: seq<Octet>, j: nat, q: Parser, log: seq<Event>, marks: Marks,
                          open: Option<DataKind>)
    requires j <= |data|
  {
    Marked(marks, open, j) && Fits(open, q.state) && Invariant(q) &&
    At(s, m, data, j, q, OpenLog(log, marks, open, data, j))
  }

  /**
   * The machine comes to byte f and refuses it; the callbacks up to there were made, but for the data that is marked.
   */
  ghost predicate RefusedAt(s: Settings, m: Machine, data: seq<Octet>, f: nat, log: seq<Event>) {
    f < |data| &&
    exists q, marks, open :: Reached(s, m, data, f, q, log, marks, open) && Step(s, q, data[f]).parser.errno != Ok
  }

  /** That byte is among the first ones, up to this position. */
  ghost predicate Refused(s: Settings, m: Machine, data: seq<Octet>, log: seq<Event>, used: nat) {
    exists f :: 0 <= f <= used && RefusedAt(s, m, data, f, log)
  }

  lemma {:induction false} RefusedFails(s: Settings, m: Machine, data: seq<Octet>, log: seq<Event>, used: nat)
    requires Refused(s, m, data, log, used)
    ensures Fails(s, m, data)
  {
    hide Run, Step, Fails, Push;
    var f :| 0 <= f <= used && RefusedAt(s, m, data, f, log);
    var q, marks, open :| Reached(s, m, data, f, q, log, marks, open) && Step(s, q, data[f]).parser.errno != Ok;
    AtNext(s, m, data, f, q, OpenLog(log, marks, open, data, f));
  }

  lemma {:induction false} TooLong(s: Settings, m: Machine, data: seq<Octet>, j: nat, q: Parser, log: seq<Event>,
                                   marks: Marks, open: Option<DataKind>)
    requires j < |data| && Reached(s, m, data, j, q, log, marks, open) && q.state.ParsingHeader()
    requires q.nread + 1 > s.maxHeaderSize
    ensures Refused(s, m, data, log, j)
  {
    hide Dispatch, Reached;
    StepIsDispatch(s, q, data[j]);
    assert RefusedAt(s, m, data, j, log);
  }

  lemma {:induction false} FieldReached(s: Settings, m: Machine, data: seq<Octet>, i: nat, j: nat, q0: Parser,
                                        log: seq<Event>, marks: Marks)
    requires i <= j <= |data| && Reached(s, m, data, i, q0, log, marks, Some(Field)) && q0.state == Header(InField)
    requires Invariant(m.parser) && Tokens(data, i, j) && q0.nread <= s.maxHeaderSize
    ensures var q := FieldFold(q0, data, i, j).(nread := q0.nread + (j - i));
            && q.state == q0.state && q.errno == Ok
            && FieldFold(Counted(q0), data, i, j) == q.(nread := q0.nread + 1)
            && (if q.nread > s.maxHeaderSize then i < j && Refused(s, m, data, log, j - 1)
                else Reached(s, m, data, j, q, log, marks, Some(Field)) &&
                     (j < |data| && q.nread + 1 > s.maxHeaderSize ==> Refused(s, m, data, log, j)))
    decreases j
  {
    hide Run, FieldFold, Coalesce, Push, LastIs, FieldChar, Fails, Token, NameState, Refused;
    LogGrows(marks, Some(Field), data, i, j, log);
    FieldFoldKeeps(q0, data, i, j, q0.nread + 1);
    FieldRun(s, m, data, i, j, q0, OpenLog(log, marks, Some(Field), data, i));
    var q := FieldFold(q0, data, i, j).(nread := q0.nread + (j - i));
    if q.nread > s.maxHeaderSize {
      var f := i + (s.maxHeaderSize - q0.nread);
      FieldReached(s, m, data, i, f, q0, log, marks);
      RefusedEarlier(s, m, data, log, f, j - 1);
    } else {
      RunSafe(s, m, data, j);
      if j < |data| && q.nread + 1 > s.maxHeaderSize { TooLong(s, m, data, j, q, log, marks, Some(Field)); }
    }
  }

  lemma {:induction false} RefusedEarlier(s: Settings, m: Machine, data: seq<Octet>, log: seq<Event>, u: nat, v: nat)
    requires Refused(s, m, data, log, u) && u <= v
    ensures Refused(s, m, data, log, v)
  {
    hide RefusedAt;
  }

  lemma {:induction false} ValueReached(s: Settings, m: Machine, data: seq<Octet>, i: nat, j: nat, q0: Parser,
                                        log: seq<Event>, marks: Marks)
    requires i <= j <= |data| && Reached(s, m, data, i, q0, log, marks, Some(Value)) && q0.state == Header(InValue)
    requires Invariant(m.parser) && Accepted(q0, data, i, j) && q0.nread <= s.maxHeaderSize
    ensures var q := ValueFold(q0, data, i, j).(nread := q0.nread + (j - i));
            && q.state == q0.state
            && ValueFold(Counted(q0), data, i, j) == q.(nread := q0.nread + 1)
            && (if q.nread > s.maxHeaderSize then i < j && Refused(s, m, data, log, j - 1)
                else Reached(s, m, data, j, q, log, marks, Some(Value)) &&
                     (j < |data| && q.nread + 1 > s.maxHeaderSize ==> Refused(s, m, data, log, j)))
    decreases j
  {
    hide Run, ValueFold, Coalesce, Push, LastIs, ValueChar, Fails, Accepted, Refused;
    LogGrows(marks, Some(Value), data, i, j, log);
    ValueFoldKeeps(q0, data, i, j, q0.nread + 1);
    ValueRun(s, m, data, i, j, q0, OpenLog(log, marks, Some(Value), data, i));
    var q := ValueFold(q0, data, i, j).(nread := q0.nread + (j - i));
    if q.nread > s.maxHeaderSize {
      var f := i + (s.maxHeaderSize - q0.nread);
      AcceptedBefore(q0, data, i, f, j);
      ValueReached(s, m, data, i, f, q0, log, marks);
      RefusedEarlier(s, m, data, log, f, j - 1);
    } else {
      RunSafe(s, m, data, j);
      if j < |data| && q.nread + 1 > s.maxHeaderSize { TooLong(s, m, data, j, q, log, marks, Some(Value)); }
    }
  }

  lemma {:induction false} AcceptedBefore(p: Parser, data: seq<Octet>, a: nat, b: nat, c: nat)
    requires a <= b <= c <= |data| && Accepted(p, data, a, c)
    ensures Accepted(p, data, a, b)
  {
    hide AcceptedAt;
  }

  /** Acceptance does not depend on what has been counted. */
  lemma {:induction false} AcceptedCounted(p: Parser, data: seq<Octet>, a: nat, b: nat, n: nat)
    requires b <= |data| && Accepted(p.(nread := n), data, a, b)
    ensures Accepted(p, data, a, b)
  {
    hide ValueFold;
    forall i | a <= i < b
      ensures AcceptedAt(p, data, a, i)
    {
      assert AcceptedAt(p.(nread := n), data, a, i);
      ValueFoldKeeps(p, data, a, i + 1, n);
    }
  }

  /** What the scan of a value found: too many bytes, or an unacceptable one at j, end the run. */
  lemma {:induction false} ValueScanFails(s: Settings, m: Machine, data: seq<Octet>, i: nat, j: nat, q0: Parser,
                                          log: seq<Event>, marks: Marks)
    requires i <= j <= |data| && Reached(s, m, data, i, q0, log, marks, Some(Value)) && q0.state == Header(InValue)
    requires Invariant(m.parser) && 1 <= q0.nread + 1 <= s.maxHeaderSize
    requires Accepted(Counted(q0), data, i, Min(j, i + s.maxHeaderSize))
    requires j > i + s.maxHeaderSize ||
             (j < |data| && data[j] != CR && data[j] != LF &&
              ValueChar(ValueFold(Counted(q0), data, i, j), data[j]).errno != Ok)
    ensures Refused(s, m, data, log, if j < |data| then j else j - 1)
  {
    hide Run, ValueFold, Coalesce, Push, LastIs, ValueChar, Fails, Accepted, Refused;
    var e := Min(j, i + s.maxHeaderSize);
    var last := if j < |data| then j else j - 1;
    AcceptedCounted(q0, data, i, e, q0.nread + 1);
    ValueReached(s, m, data, i, e, q0, log, marks);
    var f := ValueFold(q0, data, i, e);
    if q0.nread + (e - i) > s.maxHeaderSize {
      RefusedEarlier(s, m, data, log, e - 1, last);
    } else if j > i + s.maxHeaderSize {
      RefusedEarlier(s, m, data, log, e, last);
    } else {
      ValueCharKeeps(f, data[j], q0.nread + 1);
      ValueCharKeeps(f, data[j], q0.nread + (j - i));
      ValueFoldKeeps(q0, data, i, j, q0.nread + 1);
      ByteRefused(s, m, data, j, f.(nread := q0.nread + (j - i)), log, marks);
    }
  }

  lemma {:induction false} ByteRefused(s: Settings, m: Machine, data: seq<Octet>, j: nat, q: Parser, log: seq<Event>,
                                       marks: Marks)
    requires j < |data| && Reached(s, m, data, j, q, log, marks, Some(Value)) && q.state == Header(InValue)
    requires data[j] != CR && data[j] != LF && ValueChar(q, data[j]).errno != Ok
    ensures Refused(s, m, data, log, j)
  {
    hide ValueChar, Step, Reached;
    ReachedInvariant(s, m, data, j, q, log, marks, Some(Value));
    ValueStep(s, q, data[j]);
    assert RefusedAt(s, m, data, j, log);
  }

  lemma {:induction false} ReachedValue(s: Settings, m: Machine, data: seq<Octet>, i: nat, q: Parser, log: seq<Event>,
                                        marks: Marks)
    requires i <= |data| && Reached(s, m, data, i, q, log, marks, Some(Value)) && q.state == Header(InValue)
    ensures q.errno == Ok && Invariant(Counted(q))
  {
    hide Run, Push, ValueState;
  }

  lemma {:induction false} MarkedBody(marks: Marks, open: Option<DataKind>, data: seq<Octet>, i: nat, j: nat,
                                      log: seq<Event>)
    requires i <= j <= |data| && Marked(marks, open, i) && (open.None? || open == Some(Body))
    ensures Marked(Marking(marks, Body, i), Some(Body), j)
    ensures OpenLog(log, Marking(marks, Body, i), Some(Body), data, j)
            == Push(OpenLog(log, marks, open, data, i), Piece(Body, data[i..j]))
  {
    hide Push, LastIs;
    LogGrows(marks, open, data, i, j, log);
  }

  lemma {:induction false} BodyReached(s: Settings, m: Machine, data: seq<Octet>, i: nat, j: nat, q0: Parser,
                                       log: seq<Event>, marks: Marks, open: Option<DataKind>)
    requires i < j <= |data| && Reached(s, m, data, i, q0, log, marks, open) && Invariant(m.parser)
    requires InBody(q0) && MoreThan(q0, j - i)
    ensures Reached(s, m, data, j, Consumed(q0, j - i), log, Marking(marks, Body, i), Some(Body))
    ensures q0.errno == Ok && Consumed(q0, j - i).errno == Ok
  {
    hide Run, Coalesce, Push, LastIs, Fails;
    MarkedBody(marks, open, data, i, j, log);
    BodyRun(s, m, data, i, j, q0, OpenLog(log, marks, open, data, i));
    RunSafe(s, m, data, j);
  }

  /** In these states a buffer is scanned for body bytes, and the assertions of the source hold. */
  lemma {:induction false} BodyStates(p: Parser)
    requires p.errno == Ok && Invariant(p)
    requires p.state == Content(Identity) || p.state == Content(IdentityEof) || p.state == Chunk(ChunkState.Data)
    ensures InBody(p) && Counted(p) == p
  {
  }

  lemma {:induction false} ReachedInvariant(s: Settings, m: Machine, data: seq<Octet>, i: nat, q: Parser,
                                            log: seq<Event>, marks: Marks, open: Option<DataKind>)
    requires i <= |data| && Reached(s, m, data, i, q, log, marks, open)
    ensures q.errno == Ok && Invariant(q)
  {
    hide Run, Push;
  }

  lemma {:induction false} FieldOpen(s: Settings, m: Machine, data: seq<Octet>, i: nat, q: Parser, log: seq<Event>,
                                     marks: Marks, open: Option<DataKind>)
    requires i <= |data| && Reached(s, m, data, i, q, log, marks, open)
    ensures q.state == Header(InField) ==> open == Some(Field)
    ensures q.state == Header(InValue) ==> open == Some(Value)
  {
    hide Run, Push;
  }

  /** What the machine's step means for the call. */
  lemma {:induction false} ReachedStep(s: Settings, m: Machine, data: seq<Octet>, i: nat, q: Parser, log: seq<Event>,
                                       marks: Marks, open: Option<DataKind>)
    requires i < |data| && Reached(s, m, data, i, q, log, marks, open)
    requires q.state.ParsingHeader() ==> q.nread + 1 <= s.maxHeaderSize
    ensures var o := Dispatch(s, Counted(q), data[i]);
            && Marked(marks, open, i)
            && Invariant(o.parser)
            && if o.parser.errno != Ok then Refused(s, m, data, log, i)
               else
                 && Track(open, o.actions).Some?
                 && Fits(Track(open, o.actions).value, o.parser.state)
                 && (o.stop ==> Track(open, o.actions).value.None?)
                 && Run(s, m, data, i + 1)
                    == Progress(Machine(o.parser, Report(OpenLog(log, marks, open, data, i), open, o.actions, data[i])),
                                i + 1, o.stop)
  {
    hide Run, Push, Dispatch, Report, Track, Fits, Fails, Invariant, At, Step, Reached;
    ReachedAt(s, m, data, i, q, log, marks, open);
    StepLog(s, m, data, i, q, OpenLog(log, marks, open, data, i), open);
    StepSafe(s, q, data[i]);
    StepIsDispatch(s, q, data[i]);
    if Dispatch(s, Counted(q), data[i]).parser.errno != Ok { assert RefusedAt(s, m, data, i, log); }
  }

  lemma {:induction false} ReachedAt(s: Settings, m: Machine, data: seq<Octet>, i: nat, q: Parser, log: seq<Event>,
                                     marks: Marks, open: Option<DataKind>)
    requires i <= |data| && Reached(s, m, data, i, q, log, marks, open)
    ensures q.errno == Ok && Invariant(q) && Fits(open, q.state) && Marked(marks, open, i)
    ensures At(s, m, data, i, q, OpenLog(log, marks, open, data, i))
  {
    hide Run, Push;
  }

  lemma {:induction false} Entered(s: Settings, data: seq<Octet>, p: Parser, log: seq<Event>)
    requires p.errno == Ok && Invariant(p)
    requires StartOpen(p.state).Some? ==> LastIs(log, StartOpen(p.state).value)
    ensures var k := StartOpen(p.state);
            Reached(s, Machine(p, log), data, 0, p, log, if k.Some? then map[k.value := 0] else map[], k)
  {
    hide Push, LastIs, Invariant;
    var k := StartOpen(p.state);
    assert data[0..0] == [];
    if k.Some? { PushNothing(log, k.value); }
  }

  lemma {:induction false} ReachedEnd(s: Settings, m: Machine, data: seq<Octet>, q: Parser, log: seq<Event>,
                                      marks: Marks, open: Option<DataKind>)
    requires Reached(s, m, data, |data|, q, log, marks, open)
    ensures var end := OpenLog(log, marks, open, data, |data|);
            && Run(s, m, data, |data|) == Progress(Machine(q, end), |data|, false)
            && q.errno == Ok && Invariant(q)
            && (StartOpen(q.state).Some? ==> LastIs(end, StartOpen(q.state).value))
    ensures Marked(marks, open, |data|)
  {
    hide Push, LastIs, Invariant;
    LogGrows(marks, open, data, |data|, |data|, log);
  }

  /** The states in which the end of the input is not an error. */
  predicate MayEnd(s: State) {
    s == Content(IdentityEof) || s == Dead || s == Req(StartReqOrRes) || s == Req(StartReq) || s == Res(StartRes)
  }

  // ----- The parser object -----

  function StartState(kind: MessageType): State {
    match kind
    case Request => Req(StartReq)
    case Response => Res(StartRes)
    case Both => Req(StartReqOrRes)
  }

  class HttpParser {
    const settings: Settings
    var parser: Parser
    var events: seq<Event>  // the callbacks made so far

    ghost predicate Valid()
      reads this
    {
      && Invariant(parser)
      && (parser.errno == Ok && StartOpen(parser.state).Some? ==>
            LastIs(Coalesce(events), StartOpen(parser.state).value))
    }

    /** http_parser_init */
    constructor (kind: MessageType, s: Settings)
      ensures Valid() && settings == s && events == []
      ensures parser.errno == Ok && parser.kind == kind && parser.nread == 0
      ensures parser.state == StartState(kind)
    {
      settings := s;
      parser := Parser(kind, NO_FLAGS,
                       StartState(kind), General, 0, false, false, false, 0, 0, 0, 0, 0, 0, Ok, false);
      events := [];
    }

    method Callback(k: DataKind, bytes: seq<Octet>)
      modifies this`events
      ensures Coalesce(events) == Push(Coalesce(old(events)), Piece(k, bytes))
    {
      CoalesceOne(events, Piece(k, bytes));
      events := events + [Piece(k, bytes)];
    }

    method CallbackNotify(n: Notice)
      modifies this`events
      ensures Coalesce(events) == Push(Coalesce(old(events)), Note(n))
    {
      CoalesceOne(events, Note(n));
      events := events + [Note(n)];
    }

    /** Set marks and make callbacks for byte i; the byte belongs to the mark that is set in the end. */
    method Perform(data: seq<Octet>, i: nat, marks0: Marks, actions: Actions, ghost open: Option<DataKind>)
      returns (marks: Marks)
      requires i < |data| && Marked(marks0, open, i) && Track(open, actions).Some?
      modifies this`events
      ensures Marked(marks, Track(open, actions).value, i + 1)
      ensures OpenLog(Coalesce(events), marks, Track(open, actions).value, data, i + 1)
              == Report(OpenLog(Coalesce(old(events)), marks0, open, data, i), open, actions, data[i])
      decreases actions
    {
      hide Push, LastIs, Coalesce;
      match actions
      case Done =>
        marks := marks0;
        LogGrows(marks, open, data, i, i + 1, Coalesce(events));
        assert data[i..i + 1] == [data[i]];
      case Then(Mark(k), rest) =>
        marks := Marking(marks0, k, i);
        MarkingMarks(marks0, open, k, data, i, Coalesce(events));
        marks := Perform(data, i, marks, rest, Some(k));
      case Then(Close(k), rest) =>
        if k in marks0 { Callback(k, data[marks0[k]..i]); }
        marks := Perform(data, i, marks0 - {k}, rest, None);
      case Then(Deliver(k), rest) =>
        LogGrows(marks0, open, data, i, i + 1, Coalesce(events));
        assert data[i..i + 1] == [data[i]];
        if k in marks0 { Callback(k, data[marks0[k]..i + 1]); }
        marks := Perform(data, i, marks0 - {k}, rest, None);
      case Then(Notify(n), rest) =>
        CallbackNotify(n);
        marks := Perform(data, i, marks0, rest, None);
    }

    /** The callbacks for marks that are left over at the end of the buffer. */
    method Leftovers(data: seq<Octet>, marks: Marks, ghost open: Option<DataKind>)
      requires Marked(marks, open, |data|)
      modifies this`events
      ensures Coalesce(events) == OpenLog(Coalesce(old(events)), marks, open, data, |data|)
    {
      hide Push, LastIs, Coalesce;
      assert |marks| <= 1;
      assert forall k :: k in marks ==> open == Some(k);
      assert open.Some? ==> var k := open.value; k.Field? || k.Value? || k.Url? || k.Body? || k.Status?;
      if Field in marks { Callback(Field, data[marks[Field]..|data|]); }
      if Value in marks { Callback(Value, data[marks[Value]..|data|]); }
      if Url in marks { Callback(Url, data[marks[Url]..|data|]); }
      if Body in marks { Callback(Body, data[marks[Body]..|data|]); }
      if DataKind.Status in marks { Callback(DataKind.Status, data[marks[DataKind.Status]..|data|]); }
    }

    /** COUNT_HEADER_SIZE */
    method CountHeaderSize(k: nat)
      requires parser.errno == Ok
      modifies this`parser
      ensures parser == old(parser).(nread := old(parser).nread + k,
                                     errno := if old(parser).nread + k > settings.maxHeaderSize then HeaderOverflow
                                              else Ok)
    {
      parser := parser.(nread := parser.nread + k);
      if parser.nread > settings.maxHeaderSize { parser := parser.(errno := HeaderOverflow); }
    }

    /**
     * Between two bytes of a call that began in machine m: q is the parser before byte i, which has been counted
     * already. At the end of the buffer, q is the parser.
     */
    ghost predicate InCall(m: Machine, data: seq<Octet>, i: nat, q: Parser, marks: Marks, open: Option<DataKind>)
      requires i <= |data|
      reads this
    {
      && Reached(settings, m, data, i, q, Coalesce(events), marks, open)
      && (if i == |data| then parser == q
          else parser == Counted(q) && (q.state.ParsingHeader() ==> parser.nread <= settings.maxHeaderSize))
    }

    /** s_header_field: scan the name, up to the byte that ends it or the end of the buffer. */
    method SkipField(ghost m: Machine, data: seq<Octet>, i: nat, marks: Marks, ghost q0: Parser)
      returns (j: nat, ghost q: Parser)
      requires i < |data| && InCall(m, data, i, q0, marks, Some(Field)) && q0.state == Header(InField)
      requires Invariant(m.parser)
      modifies this`parser
      ensures i <= j <= |data|
      ensures parser.errno == Ok ==> InCall(m, data, j, q, marks, Some(Field))
      ensures parser.errno != Ok ==> j < |data| && Refused(settings, m, data, Coalesce(events), j) && Invariant(parser)
    {
      hide Reached, FieldFold, Coalesce, Refused, Run, Tokens;
      var p: Parser;
      p, j := ScanField(parser, settings.maxHeaderSize, data, i);
      FieldReached(settings, m, data, i, j, q0, Coalesce(events), marks);
      parser := p;
      q := FieldFold(q0, data, i, j).(nread := q0.nread + (j - i));
      CountHeaderSize(if j == |data| then j - 1 - i else j - i);
      if parser.errno != Ok {
        if j == |data| {
          j := j - 1;
        } else if q.nread > settings.maxHeaderSize {
          RefusedEarlier(settings, m, data, Coalesce(events), j - 1, j);
        }
      }
    }

    /** s_header_value: scan the value, up to the end of the line or of the buffer. */
    method SkipValue(ghost m: Machine, data: seq<Octet>, i: nat, marks: Marks, ghost q0: Parser)
      returns (j: nat, ghost q: Parser)
      requires i < |data| && InCall(m, data, i, q0, marks, Some(Value)) && q0.state == Header(InValue)
      requires Invariant(m.parser)
      modifies this`parser
      ensures i <= j <= |data|
      ensures parser.errno == Ok ==> InCall(m, data, j, q, marks, Some(Value))
      ensures parser.errno != Ok ==> j < |data| && Refused(settings, m, data, Coalesce(events), j) && Invariant(parser)
    {
      hide Reached, ValueFold, Coalesce, Refused, Run, Accepted, ValueChar;
      ghost var log := Coalesce(events);
      ReachedValue(settings, m, data, i, q0, log, marks);
      var p: Parser;
      p, j := ScanValue(parser, settings.maxHeaderSize, data, i);
      q := ValueFold(q0, data, i, j).(nread := q0.nread + (j - i));
      parser := p;
      if p.errno != Ok {
        ValueScanFails(settings, m, data, i, j, q0, log, marks);
      } else {
        if j > i + settings.maxHeaderSize {
          ValueScanFails(settings, m, data, i, j, q0, log, marks);
        } else {
          AcceptedCounted(q0, data, i, j, q0.nread + 1);
          ValueReached(settings, m, data, i, j, q0, log, marks);
        }
        CountHeaderSize(if j == |data| then j - 1 - i else j - i);
        if parser.errno != Ok {
          if j == |data| {
            j := j - 1;
          } else if q.nread > settings.maxHeaderSize && j <= i + settings.maxHeaderSize {
            RefusedEarlier(settings, m, data, log, j - 1, j);
          }
        }
      }
    }

    /** s_body_identity, s_body_identity_eof and s_chunk_data: pass over all bytes of the body but the last. */
    method SkipBody(ghost m: Machine, data: seq<Octet>, i: nat, marks0: Marks, ghost q: Parser,
                    ghost open0: Option<DataKind>)
      returns (j: nat, marks: Marks, ghost open: Option<DataKind>)
      requires i < |data| && InCall(m, data, i, q, marks0, open0) && q.errno == Ok
      requires q.state == Content(Identity) || q.state == Content(IdentityEof) || q.state == Chunk(ChunkState.Data)
      requires Invariant(m.parser)
      modifies this`parser
      ensures i <= j < |data| && InCall(m, data, j, parser, marks, open) && parser.errno == Ok
    {
      hide Reached, Coalesce, Run;
      ReachedInvariant(settings, m, data, i, q, Coalesce(events), marks0, open0);
      BodyStates(q);
      var left := |data| - i;
      var toRead := if parser.state == Content(IdentityEof) then left else Min(parser.contentLength, left);
      j, marks, open := i + toRead - 1, marks0, open0;
      if toRead > 1 {
        BodyReached(settings, m, data, i, j, q, Coalesce(events), marks0, open0);
        parser := Consumed(parser, j - i);
        marks, open := Marking(marks0, Body, i), Some(Body);
      }
    }

    /** The states that scan ahead. */
    method SkipAhead(ghost m: Machine, data: seq<Octet>, i: nat, marks0: Marks, ghost q0: Parser,
                     ghost open0: Option<DataKind>)
      returns (j: nat, marks: Marks, ghost q: Parser, ghost open: Option<DataKind>)
      requires i < |data| && InCall(m, data, i, q0, marks0, open0) && Invariant(m.parser)
      modifies this`parser
      ensures i <= j <= |data|
      ensures parser.errno == Ok ==> InCall(m, data, j, q, marks, open)
      ensures parser.errno != Ok ==> j < |data| && Refused(settings, m, data, Coalesce(events), j) && Invariant(parser)
    {
      hide Reached, Coalesce, Run, Refused, Invariant;
      ReachedAt(settings, m, data, i, q0, Coalesce(events), marks0, open0);
      FieldOpen(settings, m, data, i, q0, Coalesce(events), marks0, open0);
      j, marks, q, open := i, marks0, q0, open0;
      if parser.state == Header(InField) {
        j, q := SkipField(m, data, i, marks, q);
      } else if parser.state == Header(InValue) {
        j, q := SkipValue(m, data, i, marks, q);
      } else if parser.state == Content(Identity) || parser.state == Content(IdentityEof) ||
                parser.state == Chunk(ChunkState.Data) {
        j, marks, open := SkipBody(m, data, i, marks, q, open);
        q := parser;
      }
    }

    /** One round of the main loop. */
    method Round(ghost m: Machine, data: seq<Octet>, i: nat, marks0: Marks, ghost open0: Option<DataKind>)
      returns (j: nat, marks: Marks, stop: bool, ghost open: Option<DataKind>)
      requires i < |data| && Invariant(m.parser)
      requires Reached(settings, m, data, i, parser, Coalesce(events), marks0, open0)
      modifies this`parser, this`events
      ensures i <= j <= |data| && (parser.errno == Ok ==> i < j)
      ensures parser.errno == Ok && !stop ==> Reached(settings, m, data, j, parser, Coalesce(events), marks, open)
      ensures parser.errno == Ok && stop ==>
                Run(settings, m, data, j) == Progress(Machine(parser, Coalesce(events)), j, true) &&
                Invariant(parser) && StartOpen(parser.state).None?
      ensures parser.errno != Ok ==> j < |data| && Refused(settings, m, data, Coalesce(events), j) && Invariant(parser)
    {
      hide Coalesce, Run, Refused, Invariant, Dispatch, Report, Track, Push;
      ghost var log := Coalesce(events);
      ghost var q := parser;
      ReachedAt(settings, m, data, i, q, log, marks0, open0);
      j, marks, stop, open := i, marks0, false, open0;
      if parser.state.ParsingHeader() {
        CountHeaderSize(1);
        if parser.errno != Ok {
          TooLong(settings, m, data, i, q, log, marks, open);
          ErrorInvariant(parser);
          return;
        }
      }
      j, marks, q, open := SkipAhead(m, data, i, marks, q, open);
      if parser.errno != Ok { return; }
      if j < |data| {
        ReachedStep(settings, m, data, j, q, log, marks, open);
        var o := Dispatch(settings, parser, data[j]);
        parser := o.parser;
        if parser.errno != Ok { return; }
        marks := Perform(data, j, marks, o.actions, open);
        open, stop, j := Track(open, o.actions).value, o.stop, j + 1;
      }
    }

    /**
     * http_parser_execute. An empty buffer tells the end of the input. Otherwise the call succeeds exactly if the byte
     * machine does, and then leaves the same parser, has used as many bytes and has made the same callbacks, up to
     * where the data of one callback is cut. If it fails, it has made the callbacks of the machine up to the byte that
     * the machine refuses, but for data that is still marked, and has not used fewer bytes than came before that byte.
     */
    method Execute(data: seq<Octet>) returns (used: nat)
      requires Valid() && |data| + settings.maxHeaderSize < 0x1_0000_0000
      modifies this`parser, this`events
      ensures Valid()
      ensures old(parser.errno) != Ok ==> used == 0 && parser == old(parser) && events == old(events)
      ensures old(parser.errno) == Ok && data == [] ==>
                && used == (if MayEnd(parser.state) then 0 else 1)
                && parser == old(parser).(errno := if MayEnd(parser.state) then Ok else InvalidEofState)
                && events
                   == old(events) + (if parser.state == Content(IdentityEof) then [Note(MessageComplete)] else [])
      ensures old(parser.errno) == Ok && data != [] ==>
                var r := Run(settings, Machine(old(parser), Coalesce(old(events))), data, |data|);
                && (parser.errno == Ok <==> r.machine.parser.errno == Ok)
                && (parser.errno == Ok ==> Machine(parser, Coalesce(events)) == r.machine && used == r.used)
      ensures old(parser.errno) == Ok && data != [] && parser.errno != Ok ==>
                && used < |data|
                && Refused(settings, Machine(old(parser), Coalesce(old(events))), data, Coalesce(events), used)
    {
      hide Coalesce, Run, Reached, Push, LastIs, Invariant, Refused;
      if parser.errno != Ok { return 0; }
      if data == [] {
        used := ExecuteEnd();
        return;
      }
      ghost var m := Machine(parser, Coalesce(events));
      ghost var open := StartOpen(parser.state);
      var first := StartOpen(parser.state);
      var marks: Marks := if first.Some? then map[first.value := 0] else map[];
      Entered(settings, data, parser, Coalesce(events));
      var i: nat := 0;
      while i < |data|
        invariant i <= |data| && parser.errno == Ok && Invariant(m.parser)
        invariant Reached(settings, m, data, i, parser, Coalesce(events), marks, open)
      {
        var stop;
        i, marks, stop, open := Round(m, data, i, marks, open);
        if parser.errno != Ok {
          RefusedFails(settings, m, data, Coalesce(events), i);
          return i;
        }
        if stop {
          RunEnded(settings, m, data, i, |data|);
          return i;
        }
        ReachedInvariant(settings, m, data, i, parser, Coalesce(events), marks, open);
      }
      ReachedEnd(settings, m, data, parser, Coalesce(events), marks, open);
      Leftovers(data, marks, open);
      used := |data|;
    }

    /** The call with an empty buffer. */
    method ExecuteEnd() returns (used: nat)
      requires Valid() && parser.errno == Ok
      modifies this`parser, this`events
      ensures Valid()
      ensures used == (if MayEnd(parser.state) then 0 else 1)
      ensures parser == old(parser).(errno := if MayEnd(parser.state) then Ok else InvalidEofState)
      ensures events == old(events) + (if parser.state == Content(IdentityEof) then [Note(MessageComplete)] else [])
    {
      used := 0;
      if parser.state == Content(IdentityEof) {
        events := events + [Note(MessageComplete)];
      } else if !MayEnd(parser.state) {
        parser := parser.(errno := InvalidEofState);
        used := 1;
      }
    }
  }

  // ----- Splitting the input -----

  function Joined(pieces: seq<seq<Octet>>, n: nat): (r: seq<Octet>)
    requires n <= |pieces|
  {
    if n == 0 then [] else Joined(pieces, n - 1) + pieces[n - 1]
  }

  lemma {:induction false} JoinedLength(pieces: seq<seq<Octet>>, i: nat, n: nat)
    requires i < n <= |pieces|
    ensures |pieces[i]| <= |Joined(pieces, n)|
  {
    if i < n - 1 { JoinedLength(pieces, i, n - 1); }
  }

  /**
   * Handing over the input in pieces makes no difference: unless the input leads to an upgrade, one call with all of it
   * succeeds exactly if the calls with the pieces do; the parser is then the same, and so are the callbacks but for
   * data that is cut at the end of a piece.
   */
  method SplitChangesNothing(whole: HttpParser, parts: HttpParser, pieces: seq<seq<Octet>>)
    requires whole != parts && whole.Valid() && parts.Valid() && whole.settings == parts.settings
    requires whole.parser == parts.parser && Coalesce(whole.events) == Coalesce(parts.events)
    requires whole.parser.errno == Ok && |pieces| > 0 && forall i :: 0 <= i < |pieces| ==> pieces[i] != []
    requires |Joined(pieces, |pieces|)| + whole.settings.maxHeaderSize < 0x1_0000_0000
    modifies whole, parts
    ensures var r := Run(whole.settings, Machine(old(whole.parser), Coalesce(old(whole.events))),
                         Joined(pieces, |pieces|), |Joined(pieces, |pieces|)|);
            !r.stopped ==>
              && (whole.parser.errno == Ok <==> parts.parser.errno == Ok)
              && (whole.parser.errno == Ok ==>
                    parts.parser == whole.parser && Coalesce(parts.events) == Coalesce(whole.events))
  {
    hide Coalesce, Run, Push, LastIs, Invariant, StartOpen;
    var s := whole.settings;
    ghost var m := Machine(whole.parser, Coalesce(whole.events));
    JoinedLength(pieces, 0, |pieces|);
    var used := whole.Execute(Joined(pieces, |pieces|));
    label Parsed:
    var i: nat := 0;
    FirstRun(s, m);
    while i < |pieces|
      invariant i <= |pieces| && parts.Valid()
      invariant var r := Run(s, m, Joined(pieces, i), |Joined(pieces, i)|);
                if r.Running() then Machine(parts.parser, Coalesce(parts.events)) == r.machine
                else r.stopped || (parts.parser.errno != Ok && r.machine.parser.errno != Ok)
      invariant whole.parser == old@Parsed(whole.parser) && whole.events == old@Parsed(whole.events)
    {
      JoinedLength(pieces, i, |pieces|);
      RunSplits(s, m, Joined(pieces, i), pieces[i], |pieces[i]|);
      used := parts.Execute(pieces[i]);
      i := i + 1;
    }
  }

  lemma {:induction false} FirstRun(s: Settings, m: Machine)
    ensures Run(s, m, [], 0) == Progress(m, 0, false)
  {
  }
}

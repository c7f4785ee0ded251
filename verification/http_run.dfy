/** Runs of the byte machine, the events it reports, and which data callback is open when. */
module HttpRun {
  import opened HttpChars
  import opened HttpMachine
  import opened Options

  // ----- Events -----

  datatype Event = Piece(kind: DataKind, bytes: seq<Octet>) | Note(notice: Notice)

  /** Append an event, joining adjacent data of one kind. */
  function Push(log: seq<Event>, e: Event): seq<Event> {
    if e.Piece? && LastIs(log, e.kind)
    then log[..|log| - 1] + [Piece(e.kind, log[|log| - 1].bytes + e.bytes)]
    else log + [e]
  }

  predicate LastIs(log: seq<Event>, k: DataKind) {
    |log| > 0 && log[|log| - 1].Piece? && log[|log| - 1].kind == k
  }

  /** The events with adjacent data callbacks of a kind joined. */
  function Coalesce(events: seq<Event>): seq<Event> {
    if events == [] then [] else Push(Coalesce(events[..|events| - 1]), events[|events| - 1])
  }

  lemma {:induction false} CoalesceOne(events: seq<Event>, e: Event)
    ensures Coalesce(events + [e]) == Push(Coalesce(events), e)
  {
    assert (events + [e])[..|events|] == events;
  }

  lemma {:induction false} PushTwice(log: seq<Event>, k: DataKind, a: seq<Octet>, b: seq<Octet>)
    ensures Push(Push(log, Piece(k, a)), Piece(k, b)) == Push(log, Piece(k, a + b))
    ensures LastIs(Push(log, Piece(k, a)), k)
  {
    var one := Push(log, Piece(k, a));
    if LastIs(log, k) {
      var x := log[|log| - 1].bytes;
      assert x + a + b == x + (a + b);
      assert one[..|one| - 1] == log[..|log| - 1];
    } else {
      assert one[..|one| - 1] == log;
    }
  }

  lemma {:induction false} PushNothing(log: seq<Event>, k: DataKind)
    requires LastIs(log, k)
    ensures Push(log, Piece(k, [])) == log
  {
    var last := log[|log| - 1];
    assert last.bytes + [] == last.bytes;
    assert log == log[..|log| - 1] + [last];
  }

  // ----- The events of one byte -----

  /** The data callback that http_parser_execute marks when it is entered in state s. */
  function StartOpen(s: State): Option<DataKind> {
    match s
    case InUrl(_) => Some(Url)
    case Res(r) => if r.StatusText? then Some(Status) else None
    case Header(h) => if h.InField? then Some(Field) else if h.InValue? then Some(Value) else None
    case _ => None
  }

  /** The states in which a body callback may be open. */
  predicate BodyOpen(s: State) {
    (s.Content? && !s.content.MessageDone?) || (s.Chunk? && (s.chunk.Data? || s.chunk.DataAlmostDone?))
  }

  /** Report the actions for byte c; the byte belongs to the data callback that is open afterwards. */
  function Report(log: seq<Event>, open: Option<DataKind>, actions: Actions, c: Octet): seq<Event>
    decreases actions
  {
    match actions
    case Done => if open.Some? then Push(log, Piece(open.value, [c])) else log
    case Then(Mark(k), rest) => Report(Push(log, Piece(k, [])), Some(k), rest, c)
    case Then(Close(k), rest) => Report(log, None, rest, c)
    case Then(Deliver(k), rest) => Report(Push(log, Piece(k, [c])), None, rest, c)
    case Then(Notify(n), rest) => Report(Push(log, Note(n)), open, rest, c)
  }

  // ----- Runs -----

  datatype Machine = Machine(parser: Parser, log: seq<Event>)

  /** After some bytes: the machine, how many bytes were used, and whether it left for an upgrade. */
  datatype Progress = Progress(machine: Machine, used: nat, stopped: bool) {
    predicate Running() { machine.parser.errno == Ok && !stopped }
  }

  function StepMachine(s: Settings, m: Machine, c: Octet): Machine {
    var o := Step(s, m.parser, c);
    Machine(o.parser, Report(m.log, StartOpen(m.parser.state), o.actions, c))
  }

  /** The first n bytes of data, one at a time, until an error or an upgrade. */
  function Run(s: Settings, m: Machine, data: seq<Octet>, n: nat): (r: Progress)
    requires n <= |data|
    ensures r.used <= n && (r.Running() ==> r.used == n)
  {
    if n == 0 then Progress(m, 0, false)
    else
      var r := Run(s, m, data, n - 1);
      if !r.Running() then r
      else
        var m' := StepMachine(s, r.machine, data[n - 1]);
        if m'.parser.errno != Ok then Progress(m', n - 1, false)
        else Progress(m', n, Step(s, r.machine.parser, data[n - 1]).stop)
  }

  /** Running over x + y is running over x and, if that does not end the call, over y. */
  lemma {:induction false} RunSplits(s: Settings, m: Machine, x: seq<Octet>, y: seq<Octet>, k: nat)
    requires k <= |y|
    ensures var r := Run(s, m, x, |x|);
            var t := Run(s, m, x + y, |x| + k);
            if r.Running() then
              var u := Run(s, r.machine, y, k);
              t == Progress(u.machine, |x| + u.used, u.stopped)
            else t == r
  {
    hide Step, StepMachine;
    if k == 0 {
      RunPrefix(s, m, x, y, |x|);
    } else {
      RunSplits(s, m, x, y, k - 1);
      assert (x + y)[|x| + k - 1] == y[k - 1];
    }
  }

  lemma {:induction false} RunPrefix(s: Settings, m: Machine, x: seq<Octet>, y: seq<Octet>, n: nat)
    requires n <= |x|
    ensures Run(s, m, x + y, n) == Run(s, m, x, n)
  {
    hide Step, StepMachine;
    if n > 0 { RunPrefix(s, m, x, y, n - 1); }
  }

  /** Once a run has ended, more bytes change nothing. */
  lemma {:induction false} RunEnded(s: Settings, m: Machine, data: seq<Octet>, i: nat, n: nat)
    requires i <= n <= |data| && !Run(s, m, data, i).Running()
    ensures Run(s, m, data, n) == Run(s, m, data, i)
  {
    hide Step, StepMachine;
    if i < n { RunEnded(s, m, data, i, n - 1); }
  }
}

/**
 * How dwarf_lookup_pc lets any number of threads read the lines and functions of a unit and publish them without a
 * lock, as interleaved atomic steps on sequentially consistent memory.
 */
module Publication {
  import opened Options

  type Thread = nat

  /** The fields of a unit that are published, each with one store. */
  datatype Field = LinesCount | Functions | FunctionsCount | Lines

  /** NULL, the value -1 that marks a failure, or the block that a thread allocated. */
  datatype LinesPtr = Null | Failed | Block(owner: Thread)

  datatype Unit = Unit(lines: LinesPtr, linesCount: nat, functions: Option<Thread>, functionsCount: nat)

  /** What the debug information says about the unit, if it can be read: every thread reads the same. */
  datatype Info = Info(lines: seq<nat>, functions: seq<nat>)

  /** Where a thread is: it publishes, or it uses its pointer to the lines and has read some of the other fields. */
  datatype Local =
    | Reading
    | Publishing(lines: LinesPtr, stored: nat)
    | Using(lines: LinesPtr, got: Got)

  /** The line count, the function count and the function table, which is read twice. */
  datatype Got = Got(linesCount: Option<nat>, functionsCount: Option<nat>, functions: Option<Option<Thread>>,
                     again: Option<Option<Thread>>)

  const NOTHING := Got(None, None, None, None)

  /** The unit, the blocks of lines and of functions by the thread that allocated them, and the threads. */
  datatype State = State(u: Unit, lineBlocks: map<Thread, seq<nat>>, functionBlocks: map<Thread, seq<nat>>,
                         threads: map<Thread, Local>)

  /** The order of the four stores. */
  predicate IsOrder(order: seq<Field>) {
    |order| == 4 && forall i, j :: 0 <= i < j < 4 ==> order[i] != order[j]
  }

  /** The order of the source. */
  const SOURCE_ORDER: seq<Field> := [LinesCount, Functions, FunctionsCount, Lines]

  function Start(): State { State(Unit(Null, 0, None, 0), map[], map[], map[]) }

  function With(s: State, t: Thread, l: Local): State { s.(threads := s.threads[t := l]) }

  function Stored(u: Unit, f: Field, lines: LinesPtr, info: Option<Info>, t: Thread): Unit {
    match f
    case LinesCount => u.(linesCount := if info.Some? then |info.value.lines| else 0)
    case Functions => u.(functions := if info.Some? then Some(t) else None)
    case FunctionsCount => u.(functionsCount := if info.Some? then |info.value.functions| else 0)
    case Lines => u.(lines := lines)
  }

  /** The next of the other fields, in the order in which they are used. */
  function ReadNext(u: Unit, got: Got): Got {
    if got.linesCount.None? then got.(linesCount := Some(u.linesCount))
    else if got.functionsCount.None? then got.(functionsCount := Some(u.functionsCount))
    else if got.functions.None? then got.(functions := Some(u.functions))
    else got.(again := Some(u.functions))
  }

  /** The next step of a thread; a thread that is not there yet begins with the load of `lines`. */
  function Do(order: seq<Field>, info: Option<Info>, s: State, t: Thread): State
    requires IsOrder(order)
  {
    if t !in s.threads then With(s, t, if s.u.lines.Null? then Reading else Using(s.u.lines, NOTHING))
    else
      match s.threads[t]
      case Reading =>
        if info.None? then With(s, t, Publishing(Failed, 0))
        else
          With(s.(lineBlocks := s.lineBlocks[t := info.value.lines],
                  functionBlocks := s.functionBlocks[t := info.value.functions]),
               t, Publishing(Block(t), 0))
      case Publishing(lines, k) =>
        if k >= 4 then With(s, t, Using(lines, NOTHING))
        else With(s.(u := Stored(s.u, order[k], lines, info, t)), t, Publishing(lines, k + 1))
      case Using(lines, got) => With(s, t, Using(lines, ReadNext(s.u, got)))
  }

  /** The threads take their steps in any order. */
  function Run(order: seq<Field>, info: Option<Info>, s: State, schedule: seq<Thread>): State
    requires IsOrder(order)
    decreases |schedule|
  {
    if schedule == [] then s
    else Do(order, info, Run(order, info, s, schedule[..|schedule| - 1]), schedule[|schedule| - 1])
  }

  // ----- What must hold -----

  /** A pointer to functions that a thread may use. */
  predicate GoodFunctions(info: Option<Info>, s: State, p: Option<Thread>) {
    if info.None? then p.None?
    else p.Some? && p.value in s.functionBlocks && s.functionBlocks[p.value] == info.value.functions
  }

  predicate GoodLines(info: Option<Info>, s: State, p: LinesPtr) {
    if info.None? then p.Failed?
    else p.Block? && p.owner in s.lineBlocks && s.lineBlocks[p.owner] == info.value.lines
  }

  /** The field has its final value, or an equal one. */
  predicate Good(info: Option<Info>, s: State, f: Field) {
    match f
    case LinesCount => s.u.linesCount == if info.Some? then |info.value.lines| else 0
    case Functions => GoodFunctions(info, s, s.u.functions)
    case FunctionsCount => s.u.functionsCount == if info.Some? then |info.value.functions| else 0
    case Lines => GoodLines(info, s, s.u.lines)
  }

  predicate AllGood(info: Option<Info>, s: State) {
    Good(info, s, LinesCount) && Good(info, s, Functions) && Good(info, s, FunctionsCount)
  }

  /** What a thread has read fits the lines that it uses. */
  predicate GoodGot(info: Option<Info>, s: State, got: Got) {
    && (got.linesCount.Some? ==> got.linesCount.value == if info.Some? then |info.value.lines| else 0)
    && (got.functionsCount.Some? ==> got.functionsCount.value == if info.Some? then |info.value.functions| else 0)
    && (got.functions.Some? ==> GoodFunctions(info, s, got.functions.value))
    && (got.again.Some? ==> GoodFunctions(info, s, got.again.value))
  }

  predicate LocalOk(order: seq<Field>, info: Option<Info>, s: State, t: Thread, l: Local)
    requires IsOrder(order)
  {
    match l
    case Reading => true
    case Publishing(lines, k) =>
      && k <= 4 && GoodLines(info, s, lines) && GoodFunctions(info, s, if info.Some? then Some(t) else None)
      && forall i :: 0 <= i < k ==> Good(info, s, order[i])
    case Using(lines, got) => GoodLines(info, s, lines) && AllGood(info, s) && GoodGot(info, s, got)
  }

  predicate Invariant(order: seq<Field>, info: Option<Info>, s: State)
    requires IsOrder(order)
  {
    && (!s.u.lines.Null? ==> GoodLines(info, s, s.u.lines) && AllGood(info, s))
    && forall t :: t in s.threads ==> LocalOk(order, info, s, t, s.threads[t])
  }

  // ----- Every step keeps it -----

  /** Blocks stay as they are, and a field that is good stays good. */
  ghost predicate Grows(info: Option<Info>, s: State, s': State) {
    && (forall p :: GoodFunctions(info, s, p) ==> GoodFunctions(info, s', p))
    && (forall p :: GoodLines(info, s, p) ==> GoodLines(info, s', p))
    && (forall f :: Good(info, s, f) ==> Good(info, s', f))
  }

  lemma {:induction false} LocalStays(order: seq<Field>, info: Option<Info>, s: State, s': State, t: Thread, l: Local)
    requires IsOrder(order) && LocalOk(order, info, s, t, l) && Grows(info, s, s')
    ensures LocalOk(order, info, s', t, l)
  {
    hide GoodFunctions, GoodLines, Good;
  }

  lemma {:induction false} StepGrows(order: seq<Field>, info: Option<Info>, s: State, t: Thread)
    requires IsOrder(order) && (t in s.threads ==> LocalOk(order, info, s, t, s.threads[t]))
    ensures Grows(info, s, Do(order, info, s, t))
  {
    hide IsOrder;
  }

  /** With `lines` stored last, all other fields are stored before it. */
  lemma {:induction false} AllStored(order: seq<Field>, info: Option<Info>, s: State, k: nat)
    requires IsOrder(order) && order[3] == Lines && 3 <= k <= 4
    requires forall i :: 0 <= i < k ==> Good(info, s, order[i])
    ensures AllGood(info, s)
  {
    hide Good;
    forall f | f == LinesCount || f == Functions || f == FunctionsCount
      ensures Good(info, s, f)
    {
      assert f == order[0] || f == order[1] || f == order[2];
    }
  }

  lemma {:induction false} OwnStep(order: seq<Field>, info: Option<Info>, s: State, t: Thread)
    requires IsOrder(order) && order[3] == Lines && Invariant(order, info, s)
    ensures var s' := Do(order, info, s, t);
            LocalOk(order, info, s', t, s'.threads[t]) &&
            (!s'.u.lines.Null? ==> GoodLines(info, s', s'.u.lines) && AllGood(info, s'))
  {
    var s' := Do(order, info, s, t);
    StepGrows(order, info, s, t);
    if t in s.threads && s.threads[t].Publishing? {
      PublishStep(order, info, s, t);
    }
  }

  lemma {:induction false} PublishStep(order: seq<Field>, info: Option<Info>, s: State, t: Thread)
    requires IsOrder(order) && order[3] == Lines && Invariant(order, info, s) && t in s.threads
    requires s.threads[t].Publishing?
    ensures var s' := Do(order, info, s, t);
            LocalOk(order, info, s', t, s'.threads[t]) &&
            (!s'.u.lines.Null? ==> GoodLines(info, s', s'.u.lines) && AllGood(info, s'))
  {
    var s' := Do(order, info, s, t);
    var k := s.threads[t].stored;
    StepGrows(order, info, s, t);
    assert LocalOk(order, info, s, t, s.threads[t]);
    if k < 4 {
      forall i | 0 <= i < k + 1
        ensures Good(info, s', order[i])
      {
        if i < k { assert Good(info, s, order[i]); }
      }
      if k == 3 { AllStored(order, info, s', 4); }
    } else {
      AllStored(order, info, s, 4);
    }
  }

  lemma {:induction false} StepKeeps(order: seq<Field>, info: Option<Info>, s: State, t: Thread)
    requires IsOrder(order) && order[3] == Lines && Invariant(order, info, s)
    ensures Invariant(order, info, Do(order, info, s, t))
  {
    hide IsOrder, LocalOk, Grows, GoodLines, AllGood;
    var s' := Do(order, info, s, t);
    OwnStep(order, info, s, t);
    StepGrows(order, info, s, t);
    forall u | u in s'.threads
      ensures LocalOk(order, info, s', u, s'.threads[u])
    {
      if u != t { LocalStays(order, info, s, s', u, s.threads[u]); }
    }
  }

  // ----- Results for every interleaving -----

  lemma {:induction false} RunKeeps(order: seq<Field>, info: Option<Info>, schedule: seq<Thread>)
    requires IsOrder(order) && order[3] == Lines
    ensures Invariant(order, info, Run(order, info, Start(), schedule))
    decreases |schedule|
  {
    hide Invariant, Do, IsOrder;
    if schedule == [] {
      StartOk(order, info);
    } else {
      var before := schedule[..|schedule| - 1];
      RunKeeps(order, info, before);
      StepKeeps(order, info, Run(order, info, Start(), before), schedule[|schedule| - 1]);
    }
  }

  lemma {:induction false} StartOk(order: seq<Field>, info: Option<Info>)
    requires IsOrder(order)
    ensures Invariant(order, info, Start())
  {
  }

  /**
   * Whatever other threads do: a thread that has a pointer to lines, other than the mark of a failure, has those of the
   * unit, and every count and function table that it then reads is that of the unit.
   */
  lemma {:induction false} PublicationIsSafe(info: Option<Info>, schedule: seq<Thread>, t: Thread)
    requires var s := Run(SOURCE_ORDER, info, Start(), schedule);
             t in s.threads && s.threads[t].Using? && !s.threads[t].lines.Failed?
    ensures var s := Run(SOURCE_ORDER, info, Start(), schedule);
            var lines, got := s.threads[t].lines, s.threads[t].got;
            && info.Some? && lines.Block? && lines.owner in s.lineBlocks
            && s.lineBlocks[lines.owner] == info.value.lines
            && (got.linesCount.Some? ==> got.linesCount.value == |s.lineBlocks[lines.owner]|)
            && (got.functions.Some? ==>
                  got.functions.value.Some? && got.functions.value.value in s.functionBlocks &&
                  s.functionBlocks[got.functions.value.value] == info.value.functions)
            && (got.functionsCount.Some? ==> got.functionsCount.value == |info.value.functions|)
  {
    hide Run;
    RunKeeps(SOURCE_ORDER, info, schedule);
    var s := Run(SOURCE_ORDER, info, Start(), schedule);
    assert LocalOk(SOURCE_ORDER, info, s, t, s.threads[t]);
  }

  /** No thread uses anything wrong. */
  ghost predicate Safe(order: seq<Field>, info: Option<Info>, schedule: seq<Thread>)
    requires IsOrder(order)
  {
    var s := Run(order, info, Start(), schedule);
    forall t :: t in s.threads && s.threads[t].Using? ==>
      GoodLines(info, s, s.threads[t].lines) && GoodGot(info, s, s.threads[t].got)
  }

  lemma {:induction false} RunOne(order: seq<Field>, info: Option<Info>, schedule: seq<Thread>, t: Thread)
    requires IsOrder(order)
    ensures Run(order, info, Start(), schedule + [t]) == Do(order, info, Run(order, info, Start(), schedule), t)
  {
    hide Do, IsOrder;
    assert (schedule + [t])[..|schedule|] == schedule;
  }

  /** Publishing is safe exactly if `lines` is stored last. */
  lemma {:induction false} LinesLastIff(order: seq<Field>)
    requires IsOrder(order)
    ensures (forall info, schedule :: Safe(order, info, schedule)) <==> order[3] == Lines
  {
    hide Run, GoodLines, GoodGot;
    if order[3] == Lines {
      forall info, schedule
        ensures Safe(order, info, schedule)
      {
        RunKeeps(order, info, schedule);
        RunIsSafe(order, info, schedule);
      }
    } else {
      UnsafeRun(order);
    }
  }

  lemma {:induction false} RunIsSafe(order: seq<Field>, info: Option<Info>, schedule: seq<Thread>)
    requires IsOrder(order) && Invariant(order, info, Run(order, info, Start(), schedule))
    ensures Safe(order, info, schedule)
  {
    hide Run, IsOrder, GoodLines, GoodGot, AllGood;
    var s := Run(order, info, Start(), schedule);
    forall t | t in s.threads && s.threads[t].Using?
      ensures GoodLines(info, s, s.threads[t].lines) && GoodGot(info, s, s.threads[t].got)
    {
      assert LocalOk(order, info, s, t, s.threads[t]);
    }
  }

  /** Thread 0 has made three stores, among them that of `lines`, when thread 1 reads all fields. */
  lemma {:induction false} UnsafeRun(order: seq<Field>)
    requires IsOrder(order) && order[3] != Lines
    ensures exists info, schedule :: !Safe(order, info, schedule)
  {
    hide Run;
    var info := Some(Info([7], [8]));
    var s2 := Do(order, info, Do(order, info, Start(), 0), 0);
    var s5 := Do(order, info, Do(order, info, Do(order, info, s2, 0), 0), 0);
    ThreeStores(order, info, s2, s5);
    var s6 := Do(order, info, s5, 1);
    var s7 := Do(order, info, s6, 1);
    var s8 := Do(order, info, s7, 1);
    var s9 := Do(order, info, s8, 1);
    assert !GoodGot(info, s9, s9.threads[1].got);
    RunEmpty(order, info);
    RunOne(order, info, [], 0);
    RunOne(order, info, [] + [0], 0);
    RunOne(order, info, [] + [0] + [0], 0);
    RunOne(order, info, [] + [0] + [0] + [0], 0);
    RunOne(order, info, [] + [0] + [0] + [0] + [0], 0);
    RunOne(order, info, [] + [0] + [0] + [0] + [0] + [0], 1);
    RunOne(order, info, [] + [0] + [0] + [0] + [0] + [0] + [1], 1);
    RunOne(order, info, [] + [0] + [0] + [0] + [0] + [0] + [1] + [1], 1);
    RunOne(order, info, [] + [0] + [0] + [0] + [0] + [0] + [1] + [1] + [1], 1);
    assert !Safe(order, info, [] + [0] + [0] + [0] + [0] + [0] + [1] + [1] + [1] + [1]);
  }

  lemma {:induction false} RunEmpty(order: seq<Field>, info: Option<Info>)
    requires IsOrder(order)
    ensures Run(order, info, Start(), []) == Start()
  {
  }

  lemma {:induction false} ThreeStores(order: seq<Field>, info: Option<Info>, s2: State, s5: State)
    requires IsOrder(order) && order[3] != Lines && info == Some(Info([7], [8]))
    requires s2 == Do(order, info, Do(order, info, Start(), 0), 0)
    requires s5 == Do(order, info, Do(order, info, Do(order, info, s2, 0), 0), 0)
    ensures s5.u.lines == Block(0) && 1 !in s5.threads
    ensures order[3] == LinesCount ==> s5.u.linesCount == 0
    ensures order[3] == Functions ==> s5.u.functions == None
    ensures order[3] == FunctionsCount ==> s5.u.functionsCount == 0
  {
    assert s2.u == Start().u && s2.threads == map[0 := Publishing(Block(0), 0)];
    var s3 := Do(order, info, s2, 0);
    var s4 := Do(order, info, s3, 0);
    assert s3.threads[0] == Publishing(Block(0), 1) && s3.u == Stored(s2.u, order[0], Block(0), info, 0);
    assert s4.threads[0] == Publishing(Block(0), 2) && s4.u == Stored(s3.u, order[1], Block(0), info, 0);
    assert s5.u == Stored(s4.u, order[2], Block(0), info, 0);
    assert Lines == order[0] || Lines == order[1] || Lines == order[2];
  }

  lemma {:induction false} OneMore(info: Option<Info>, schedule: seq<Thread>, s: State, t: Thread)
    returns (schedule': seq<Thread>, s': State)
    requires Run(SOURCE_ORDER, info, Start(), schedule) == s
    ensures s' == Do(SOURCE_ORDER, info, s, t) && Run(SOURCE_ORDER, info, Start(), schedule') == s'
  {
    hide Do;
    schedule', s' := schedule + [t], Do(SOURCE_ORDER, info, s, t);
    RunOne(SOURCE_ORDER, info, schedule, t);
  }

  /**
   * The function table of the unit may change hands between two reads of it: the contents are the same, the block is
   * not. Thread 1, which began before the unit was published, publishes its table while thread 0 is using its own.
   */
  lemma {:induction false} TableMayChangeHands(info: Option<Info>)
    requires info == Some(Info([7], [8]))
    ensures exists schedule ::
              var s := Run(SOURCE_ORDER, info, Start(), schedule);
              && 0 in s.threads && s.threads[0].Using?
              && s.threads[0].got.functions == Some(Some(0)) && s.threads[0].got.again == Some(Some(1))
  {
    hide Run;
    RunEmpty(SOURCE_ORDER, info);
    var c, s := OneMore(info, [], Start(), 0);
    c, s := OneMore(info, c, s, 1);
    c, s := OneMore(info, c, s, 0);
    assert s.threads == map[0 := Publishing(Block(0), 0), 1 := Reading];
    c, s := OneMore(info, c, s, 0);
    c, s := OneMore(info, c, s, 0);
    c, s := OneMore(info, c, s, 0);
    c, s := OneMore(info, c, s, 0);
    c, s := OneMore(info, c, s, 0);
    assert s.threads == map[0 := Using(Block(0), NOTHING), 1 := Reading] && s.u == Unit(Block(0), 1, Some(0), 1);
    c, s := OneMore(info, c, s, 0);
    c, s := OneMore(info, c, s, 0);
    c, s := OneMore(info, c, s, 0);
    assert s.threads == map[0 := Using(Block(0), Got(Some(1), Some(1), Some(Some(0)), None)), 1 := Reading];
    c, s := OneMore(info, c, s, 1);
    c, s := OneMore(info, c, s, 1);
    c, s := OneMore(info, c, s, 1);
    assert s.u.functions == Some(1) && s.threads[0] == Using(Block(0), Got(Some(1), Some(1), Some(Some(0)), None));
    c, s := OneMore(info, c, s, 0);
  }
}

/**
 * The list of modules that threads extend with compare-and-swap while others walk along it, as interleaved atomic
 * steps on sequentially consistent memory.
 */
module LockFreeList {
  import opened Options

  type Node = nat
  type Thread = nat

  /** A place that holds a pointer to a node: the head of the list, or the next field of a node. */
  datatype Slot = Head | NextOf(node: Node)

  /** Where a thread is. */
  datatype Local =
    | Loading(node: Node, slot: Slot)                // appending a node: about to load the slot
    | Swapping(node: Node, slot: Slot, length: nat)  // saw NULL when the list was so long: about to compare and swap
    | Appended(node: Node)
    | Walking(slot: Slot, started: seq<Node>, seen: seq<Node>)  // reading: the list at the start, and the nodes visited
    | Walked(started: seq<Node>, seen: seq<Node>)               // reading: came to NULL

  /** The shared pointers, what each thread is doing, and the nodes in the order in which they were appended. */
  datatype State = State(head: Option<Node>, next: map<Node, Option<Node>>, threads: map<Thread, Local>,
                         list: seq<Node>)

  predicate IsSlot(s: State, slot: Slot) { slot.Head? || slot.node in s.next }

  function Load(s: State, slot: Slot): Option<Node>
    requires IsSlot(s, slot)
  {
    if slot.Head? then s.head else s.next[slot.node]
  }

  function Store(s: State, slot: Slot, node: Node): State
    requires IsSlot(s, slot)
  {
    if slot.Head? then s.(head := Some(node)) else s.(next := s.next[slot.node := Some(node)])
  }

  // ----- The steps -----

  datatype Step =
    | StartAppend(thread: Thread, node: Node)  // with a new node, whose next is NULL
    | StartWalk(thread: Thread)
    | Continue(thread: Thread)                 // the next load or compare-and-swap of a thread
    | Stop(thread: Thread)                     // a reader found what it wanted

  predicate Enabled(s: State, e: Step) {
    match e
    case StartAppend(t, n) => t !in s.threads && n !in s.next
    case StartWalk(t) => t !in s.threads
    case Continue(t) => t in s.threads && (var l := s.threads[t]; match l
                                           case Loading(_, slot) => IsSlot(s, slot)
                                           case Swapping(_, slot, _) => IsSlot(s, slot)
                                           case Walking(slot, _, _) => IsSlot(s, slot)
                                           case _ => false)
    case Stop(t) => t in s.threads && (s.threads[t].Walking? || s.threads[t].Walked?)
  }

  function With(s: State, t: Thread, l: Local): State { s.(threads := s.threads[t := l]) }

  function Do(s: State, e: Step): State
    requires Enabled(s, e)
  {
    match e
    case StartAppend(t, n) => With(s.(next := s.next[n := None]), t, Loading(n, Head))
    case StartWalk(t) => With(s, t, Walking(Head, s.list, []))
    case Stop(t) => s.(threads := s.threads - {t})
    case Continue(t) =>
      match s.threads[t]
      case Loading(n, slot) =>
        var p := Load(s, slot);
        With(s, t, if p.None? then Swapping(n, slot, |s.list|) else Loading(n, NextOf(p.value)))
      case Swapping(n, slot, _) =>
        if Load(s, slot).None? then With(Store(s, slot, n).(list := s.list + [n]), t, Appended(n))
        else With(s, t, Loading(n, Head))
      case Walking(slot, started, seen) =>
        var p := Load(s, slot);
        With(s, t, if p.None? then Walked(started, seen) else Walking(NextOf(p.value), started, seen + [p.value]))
  }

  function Start(): State { State(None, map[], map[], []) }

  /** The state after some steps, one thread at a time. */
  predicate CanRun(s: State, steps: seq<Step>)
    decreases |steps|
  {
    steps == [] || (Enabled(s, steps[0]) && CanRun(Do(s, steps[0]), steps[1..]))
  }

  function Run(s: State, steps: seq<Step>): State
    requires CanRun(s, steps)
    decreases |steps|
  {
    if steps == [] then s else Run(Do(s, steps[0]), steps[1..])
  }

  // ----- The invariant -----

  /** The pointer that follows the first i nodes of the list. */
  function Pointer(list: seq<Node>, i: nat): Option<Node> { if i < |list| then Some(list[i]) else None }

  function SlotAt(list: seq<Node>, i: nat): Slot
    requires i <= |list|
  {
    if i == 0 then Head else NextOf(list[i - 1])
  }

  /** The pointers form exactly the list, and every other node has no successor. */
  ghost predicate Chained(s: State) {
    && (forall i, j :: 0 <= i < j < |s.list| ==> s.list[i] != s.list[j])
    && (forall i :: 0 <= i < |s.list| ==> s.list[i] in s.next)
    && (forall i :: 0 <= i <= |s.list| ==> PointsOn(s, i))
    && (forall n :: n in s.next && n !in s.list ==> s.next[n].None?)
  }

  /** The slot after the first i nodes holds the pointer that it should. */
  ghost predicate PointsOn(s: State, i: nat)
    requires i <= |s.list|
  {
    var slot := SlotAt(s.list, i);
    IsSlot(s, slot) && Load(s, slot) == Pointer(s.list, i)
  }

  predicate Private(s: State, node: Node) { node in s.next && node !in s.list }

  /** The slot that a thread has come to is the one after `i` nodes. */
  ghost predicate Reached(s: State, slot: Slot, i: nat) { i <= |s.list| && slot == SlotAt(s.list, i) }

  ghost predicate LocalOk(s: State, l: Local) {
    match l
    case Loading(n, slot) => Private(s, n) && exists i :: Reached(s, slot, i)
    case Swapping(n, slot, length) => Private(s, n) && Reached(s, slot, length)
    case Appended(n) => n in s.list
    case Walking(slot, started, seen) => Reached(s, slot, |seen|) && seen <= s.list && started <= s.list
    case Walked(started, seen) => started <= seen <= s.list
  }

  /** Nodes that are being appended belong to one thread each. */
  predicate Owners(s: State) {
    forall t, u :: t in s.threads && u in s.threads && t != u && Owns(s.threads[t]) && Owns(s.threads[u]) ==>
      s.threads[t].node != s.threads[u].node
  }

  predicate Owns(l: Local) { l.Loading? || l.Swapping? }

  ghost predicate Invariant(s: State) {
    Chained(s) && Owners(s) && forall t :: t in s.threads ==> LocalOk(s, s.threads[t])
  }

  // ----- Every step keeps the invariant -----

  lemma {:induction false} SlotStays(list: seq<Node>, more: seq<Node>, i: nat)
    requires i <= |list| && list <= more
    ensures SlotAt(more, i) == SlotAt(list, i)
  {
  }

  /** What holds of a thread still holds when the list has grown and its node has not been appended. */
  lemma {:induction false} LocalStays(s: State, s': State, l: Local)
    requires LocalOk(s, l) && s.list <= s'.list
    requires Owns(l) ==> Private(s', l.node)
    ensures LocalOk(s', l)
  {
    match l
    case Loading(n, slot) =>
      var i :| Reached(s, slot, i);
      assert Reached(s', slot, i);
    case Swapping(n, slot, length) => SlotStays(s.list, s'.list, length);
    case Appended(n) =>
    case Walking(slot, started, seen) => SlotStays(s.list, s'.list, |seen|);
    case Walked(started, seen) =>
  }

  /** Only the local state of one thread changes. */
  lemma {:induction false} LocalStep(s: State, t: Thread, l: Local)
    requires Invariant(s) && LocalOk(s, l)
    requires Owns(l) ==> t in s.threads && Owns(s.threads[t]) && s.threads[t].node == l.node
    ensures Invariant(With(s, t, l))
  {
    hide LocalOk;
    var s' := With(s, t, l);
    ChainStays(s, s');
    forall u | u in s'.threads
      ensures LocalOk(s', s'.threads[u])
    {
      if u != t { SameLocal(s, s', s.threads[u]); } else { SameLocal(s, s', l); }
    }
  }

  lemma {:induction false} ChainStays(s: State, s': State)
    requires Chained(s) && s'.head == s.head && s'.next == s.next && s'.list == s.list
    ensures Chained(s')
  {
    forall i | 0 <= i <= |s'.list|
      ensures PointsOn(s', i)
    {
      assert PointsOn(s, i);
    }
  }

  lemma {:induction false} SameLocal(s: State, s': State, l: Local)
    requires LocalOk(s, l) && s'.head == s.head && s'.next == s.next && s'.list == s.list
    ensures LocalOk(s', l)
  {
    LocalStays(s, s', l);
  }

  lemma {:induction false} StartKeeps(s: State, t: Thread, n: Node)
    requires Invariant(s) && Enabled(s, StartAppend(t, n))
    ensures Invariant(Do(s, StartAppend(t, n)))
  {
    hide LocalOk;
    var s' := Do(s, StartAppend(t, n));
    assert n !in s.list;
    forall i | 0 <= i <= |s'.list|
      ensures PointsOn(s', i)
    {
      assert PointsOn(s, i);
    }
    assert Reached(s', Head, 0);
    forall u | u in s'.threads
      ensures LocalOk(s', s'.threads[u])
      ensures u != t && Owns(s'.threads[u]) ==> s'.threads[u].node != n
    {
      if u == t {
        StartsOk(s', n);
      } else {
        if Owns(s.threads[u]) { OwnedIsPrivate(s, s.threads[u]); }
        LocalStays(s, s', s.threads[u]);
      }
    }
  }

  lemma {:induction false} StartsOk(s: State, n: Node)
    requires Private(s, n)
    ensures LocalOk(s, Loading(n, Head))
  {
    assert Reached(s, Head, 0);
  }

  lemma {:induction false} OwnedIsPrivate(s: State, l: Local)
    requires LocalOk(s, l) && Owns(l)
    ensures Private(s, l.node)
  {
  }

  /** A compare-and-swap that succeeds puts the node at the end. */
  lemma {:induction false} AppendKeeps(s: State, t: Thread)
    requires Invariant(s) && t in s.threads && s.threads[t].Swapping? && Enabled(s, Continue(t))
    requires Load(s, s.threads[t].slot).None?
    ensures Invariant(Do(s, Continue(t))) && Do(s, Continue(t)).list == s.list + [s.threads[t].node]
  {
    hide LocalOk;
    var n, slot := s.threads[t].node, s.threads[t].slot;
    var s' := Do(s, Continue(t));
    SwapAtEnd(s, s.threads[t]);
    AppendChained(s, n, s');
    forall u | u in s'.threads
      ensures LocalOk(s', s'.threads[u])
    {
      if u == t {
        AppendedOk(s', n);
      } else {
        if Owns(s.threads[u]) { OwnedIsPrivate(s, s.threads[u]); }
        LocalStays(s, s', s.threads[u]);
      }
    }
  }

  lemma {:induction false} AppendedOk(s: State, n: Node)
    requires n in s.list
    ensures LocalOk(s, Appended(n))
  {
  }

  /** The slot that a thread saw to be NULL, and that still is, is the end of the list. */
  lemma {:induction false} SwapAtEnd(s: State, l: Local)
    requires Chained(s) && LocalOk(s, l) && l.Swapping? && IsSlot(s, l.slot)
    ensures Private(s, l.node) && l.length <= |s.list| && l.slot == SlotAt(s.list, l.length)
    ensures Load(s, l.slot).None? <==> l.length == |s.list|
  {
    assert PointsOn(s, l.length);
  }

  lemma {:induction false} AppendChained(s: State, n: Node, s': State)
    requires Chained(s) && Private(s, n) && IsSlot(s, SlotAt(s.list, |s.list|))
    requires var r := Store(s, SlotAt(s.list, |s.list|), n);
             s'.head == r.head && s'.next == r.next && s'.list == s.list + [n]
    ensures Chained(s')
  {
    var list := s.list;
    assert forall i :: 0 <= i < |list| ==> s'.list[i] == list[i];
    forall i | 0 <= i <= |s'.list|
      ensures PointsOn(s', i)
    {
      if i <= |list| {
        assert PointsOn(s, i);
        SlotStays(list, s'.list, i);
      }
    }
  }

  /** The slot after a node of the list leads to the next node. */
  lemma {:induction false} LoadMeans(s: State, slot: Slot, i: nat)
    requires Chained(s) && Reached(s, slot, i)
    ensures IsSlot(s, slot) && Load(s, slot) == Pointer(s.list, i)
    ensures Load(s, slot).Some? ==> Reached(s, NextOf(Load(s, slot).value), i + 1)
  {
    assert PointsOn(s, i);
  }

  lemma {:induction false} LoadingKeeps(s: State, t: Thread)
    requires Invariant(s) && t in s.threads && s.threads[t].Loading? && Enabled(s, Continue(t))
    ensures Invariant(Do(s, Continue(t)))
  {
    var n, slot := s.threads[t].node, s.threads[t].slot;
    var i :| Reached(s, slot, i);
    LoadMeans(s, slot, i);
    var p := Load(s, slot);
    LocalStep(s, t, if p.None? then Swapping(n, slot, |s.list|) else Loading(n, NextOf(p.value)));
  }

  lemma {:induction false} WalkingKeeps(s: State, t: Thread)
    requires Invariant(s) && t in s.threads && s.threads[t].Walking? && Enabled(s, Continue(t))
    ensures Invariant(Do(s, Continue(t)))
  {
    var l := s.threads[t];
    LoadMeans(s, l.slot, |l.seen|);
    var p := Load(s, l.slot);
    LocalStep(s, t,
              if p.None? then Walked(l.started, l.seen) else Walking(NextOf(p.value), l.started, l.seen + [p.value]));
  }

  /** The invariant is kept, and the list is only ever extended at its end. */
  lemma {:induction false} StepKeeps(s: State, e: Step)
    requires Invariant(s) && Enabled(s, e)
    ensures Invariant(Do(s, e)) && s.list <= Do(s, e).list
  {
    hide Invariant, Chained, LocalOk;
    match e
    case StartAppend(t, n) => StartKeeps(s, t, n);
    case StartWalk(t) => WalkStarts(s, t);
    case Stop(t) => StopKeeps(s, t);
    case Continue(t) =>
      match s.threads[t]
      case Loading(_, _) => LoadingKeeps(s, t);
      case Walking(_, _, _) => WalkingKeeps(s, t);
      case Swapping(n, slot, _) =>
        if Load(s, slot).None? { AppendKeeps(s, t); } else { RetryKeeps(s, t); }
  }

  lemma {:induction false} WalkStarts(s: State, t: Thread)
    requires Invariant(s) && Enabled(s, StartWalk(t))
    ensures Invariant(Do(s, StartWalk(t)))
  {
    LocalStep(s, t, Walking(Head, s.list, []));
  }

  lemma {:induction false} RetryKeeps(s: State, t: Thread)
    requires Invariant(s) && t in s.threads && s.threads[t].Swapping?
    ensures Invariant(With(s, t, Loading(s.threads[t].node, Head)))
  {
    OwnedIsPrivate(s, s.threads[t]);
    StartsOk(s, s.threads[t].node);
    LocalStep(s, t, Loading(s.threads[t].node, Head));
  }

  lemma {:induction false} StopKeeps(s: State, t: Thread)
    requires Invariant(s) && Enabled(s, Stop(t))
    ensures Invariant(Do(s, Stop(t)))
  {
    hide LocalOk;
    var s' := Do(s, Stop(t));
    ChainStays(s, s');
    forall u | u in s'.threads
      ensures LocalOk(s', s'.threads[u])
    {
      SameLocal(s, s', s.threads[u]);
    }
  }

  // ----- Where the nodes come from -----

  /** The thread's compare-and-swap of this node has succeeded. */
  predicate HasAppended(s: State, t: Thread, node: Node) { t in s.threads && s.threads[t] == Appended(node) }

  predicate Comes(s: State, node: Node) { exists t :: t in s.threads && HasAppended(s, t, node) }

  /** Every node of the list was appended by a thread. */
  predicate AllCome(s: State) { forall i :: 0 <= i < |s.list| ==> Comes(s, s.list[i]) }

  lemma {:induction false} StepComes(s: State, e: Step)
    requires Enabled(s, e) && AllCome(s)
    ensures AllCome(Do(s, e))
  {
    var s' := Do(s, e);
    forall i | 0 <= i < |s'.list|
      ensures Comes(s', s'.list[i])
    {
      if i < |s.list| {
        assert Comes(s, s.list[i]);
        var t :| t in s.threads && HasAppended(s, t, s.list[i]);
        assert HasAppended(s', t, s'.list[i]);
      } else {
        assert HasAppended(s', e.thread, s'.list[i]);
      }
    }
  }

  lemma {:induction false} RunComes(s: State, steps: seq<Step>)
    requires AllCome(s) && CanRun(s, steps)
    ensures AllCome(Run(s, steps))
    decreases |steps|
  {
    hide AllCome, Do, Enabled;
    if steps != [] {
      StepComes(s, steps[0]);
      RunComes(Do(s, steps[0]), steps[1..]);
    }
  }

  // ----- Results for every interleaving -----

  lemma {:induction false} RunKeeps(s: State, steps: seq<Step>)
    requires Invariant(s) && CanRun(s, steps)
    ensures Invariant(Run(s, steps)) && s.list <= Run(s, steps).list
    decreases |steps|
  {
    hide Invariant, Do;
    if steps != [] {
      StepKeeps(s, steps[0]);
      RunKeeps(Do(s, steps[0]), steps[1..]);
    }
  }

  lemma {:induction false} StartOk()
    ensures Invariant(Start())
  {
    forall i | 0 <= i <= |Start().list|
      ensures PointsOn(Start(), i)
    {
    }
  }

  /**
   * In every reachable state: following the pointers gives a list without repetition that ends in NULL; each node whose
   * compare-and-swap succeeded is in it, exactly once, and no other is.
   */
  lemma {:induction false} NothingIsLost(steps: seq<Step>)
    requires CanRun(Start(), steps)
    ensures var s := Run(Start(), steps);
            && Chained(s)
            && forall t :: t in s.threads ==>
                 (s.threads[t].Appended? ==> s.threads[t].node in s.list) &&
                 (Owns(s.threads[t]) ==> s.threads[t].node !in s.list)
    ensures var s := Run(Start(), steps);
            forall node :: node in s.list <==> Comes(s, node)
  {
    hide CanRun, Run, Chained;
    StartOk();
    RunKeeps(Start(), steps);
    RunComes(Start(), steps);
    var s := Run(Start(), steps);
    forall t | t in s.threads
      ensures s.threads[t].Appended? ==> s.threads[t].node in s.list
      ensures Owns(s.threads[t]) ==> s.threads[t].node !in s.list
    {
      assert LocalOk(s, s.threads[t]);
    }
    forall node
      ensures node in s.list <==> Comes(s, node)
    {
      if Comes(s, node) {
        var t :| t in s.threads && HasAppended(s, t, node);
        assert LocalOk(s, s.threads[t]);
      }
    }
  }

  /** A reader that comes to NULL has seen the whole list as it is then, and so all that was there when it began. */
  lemma {:induction false} ReaderSeesAll(steps: seq<Step>, t: Thread)
    requires CanRun(Start(), steps)
    requires var s := Run(Start(), steps);
             t in s.threads && s.threads[t].Walking? && Enabled(s, Continue(t)) && Load(s, s.threads[t].slot).None?
    ensures var s := Run(Start(), steps);
            s.threads[t].seen == s.list && s.threads[t].started <= s.threads[t].seen
  {
    hide CanRun, Run, Chained;
    StartOk();
    RunKeeps(Start(), steps);
    var s := Run(Start(), steps);
    assert LocalOk(s, s.threads[t]);
    LoadMeans(s, s.threads[t].slot, |s.threads[t].seen|);
  }

  /** A compare-and-swap fails exactly if another thread has appended since this one saw NULL. */
  lemma {:induction false} FailureMeansProgress(steps: seq<Step>, t: Thread)
    requires CanRun(Start(), steps)
    requires var s := Run(Start(), steps); t in s.threads && s.threads[t].Swapping?
    ensures var s := Run(Start(), steps);
            IsSlot(s, s.threads[t].slot) && (Load(s, s.threads[t].slot).Some? <==> |s.list| > s.threads[t].length)
  {
    hide CanRun, Run, Chained;
    StartOk();
    RunKeeps(Start(), steps);
    var s := Run(Start(), steps);
    assert LocalOk(s, s.threads[t]);
    LoadMeans(s, s.threads[t].slot, s.threads[t].length);
    SwapAtEnd(s, s.threads[t]);
  }

  /** No thread is ever stuck: whatever is under way can take its next step. */
  lemma {:induction false} NeverStuck(steps: seq<Step>, t: Thread)
    requires CanRun(Start(), steps)
    requires var s := Run(Start(), steps); t in s.threads && !s.threads[t].Appended? && !s.threads[t].Walked?
    ensures Enabled(Run(Start(), steps), Continue(t))
  {
    hide CanRun, Run, Chained;
    StartOk();
    RunKeeps(Start(), steps);
    var s := Run(Start(), steps);
    var l := s.threads[t];
    assert LocalOk(s, l);
    match l
    case Loading(n, slot) =>
      var i :| Reached(s, slot, i);
      LoadMeans(s, slot, i);
    case Swapping(n, slot, length) => LoadMeans(s, slot, length);
    case Walking(slot, started, seen) => LoadMeans(s, slot, |seen|);
  }
}

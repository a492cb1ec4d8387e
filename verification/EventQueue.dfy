/** The event queue of include/cpph/thread/event_queue.hxx over the condition
    variable wrapper of include/cpph/thread/event_wait.hxx, as a step system for
    any number of threads.  A step is what one thread does under one lock, or
    one access to the atomic flag; steps interleave freely.  A message that
    calls the queue while it runs is one more thread here: a running message
    holds no lock. */
module EventQueue {
  import opened Wrappers

  /** exec_one waits without limit, exec_one_until may time out, flush does not wait. */
  datatype WaitKind = Forever | Timed | Flush

  /** What a thread is about to do next. */
  datatype Pc =
    | Idle
    | Posting(node: nat)       // node built, mutex not yet taken
    | Pushing(node: nat)       // in notify_one, critical procedure next
    | Notifying                // node pushed, notification next
    | Entering(kind: WaitKind) // in wait, mutex not yet taken
    | Checking(kind: WaitKind) // holds the mutex, reads stopped_
    | Popping(kind: WaitKind)  // holds the mutex, pops
    | WillSleep(kind: WaitKind)// holds the mutex, predicate was false
    | Sleeping(kind: WaitKind) // in the wait, not notified
    | Notified(kind: WaitKind) // woken, mutex not yet retaken
    | Leaving                  // holds the mutex, returns without a message
    | HasMessage(node: nat)    // holds the mutex, returns with a message
    | Running(node: nat)       // about to invoke the message
    | Ran(node: nat)           // about to release it
    | Clearing(head: Option<nat>) // owns a detached chain
    | Stopping                 // holds the mutex, sets stopped_
    | StopSet                  // holds the mutex, notifies all

  /** Where a node is, from its allocation to its release. */
  datatype Place = Fresh(thread: nat) | Queued | Executing(thread: nat) | Chained(thread: nat) | Released

  /** History: read by no step, used to state what happened. */
  datatype Log = Log(queue: seq<nat>, chains: map<nat, seq<nat>>, place: map<nat, Place>,
                     pushed: seq<nat>, taken: seq<nat>, runs: seq<nat>, released: seq<nat>)

  datatype State = State(
    mutex: Option<nat>, stopped: bool, front: Option<nat>, back: Option<nat>,
    next: map<nat, Option<nat>>,      // next_ of every node
    fromRing: map<nat, bool>,         // is_ring_allocated_ of every node
    ring: set<nat>, heap: set<nat>,   // nodes the two stores have handed out
    pc: map<nat, Pc>, log: Log)

  datatype Step =
    | Allocate(t: nat, node: nat, inRing: bool)
    | LockPost(t: nat) | Push(t: nat) | NotifyOne(t: nat, woken: Option<nat>)
    | Enter(t: nat, kind: WaitKind) | Lock(t: nat) | ReadStopped(t: nat) | Pop(t: nat)
    | Sleep(t: nat) | GiveUp(t: nat) | Wake(t: nat) | Relock(t: nat)
    | Unlock(t: nat) | Invoke(t: nat) | Release(t: nat)
    | Detach(t: nat) | ClearOne(t: nat)
    | LockStop(t: nat) | SetStopped(t: nat) | NotifyAll(t: nat) | Restart(t: nat)

  function Init(threads: set<nat>): State {
    State(None, false, None, None, map[], map[], {}, {}, map t | t in threads :: Idle,
          Log([], map[], map[], [], [], [], []))
  }

  predicate NodeLive(s: State, n: nat) {
    n in s.ring || n in s.heap
  }

  predicate Enabled(s: State, a: Step) {
    a.t in s.pc &&
    var pc := s.pc[a.t];
    match a
    case Allocate(_, n, _) => pc == Idle && n !in s.next
    case LockPost(_) => pc.Posting? && s.mutex == None
    case Push(_) => pc.Pushing?
    case NotifyOne(_, woken) =>
      pc == Notifying
      && (match woken
          case None => forall u <- s.pc :: !s.pc[u].Sleeping?
          case Some(u) => u in s.pc && s.pc[u].Sleeping?)
    case Enter(_, _) => pc == Idle
    case Lock(_) => pc.Entering? && s.mutex == None
    case ReadStopped(_) => pc.Checking?
    case Pop(_) => pc.Popping?
    case Sleep(_) => pc.WillSleep?
    case GiveUp(_) => pc.WillSleep? && pc.kind == Timed
    case Wake(_) => pc.Sleeping?
    case Relock(_) => pc.Notified? && s.mutex == None
    case Unlock(_) => pc == Leaving || pc.HasMessage?
    case Invoke(_) => pc.Running?
    case Release(_) => pc.Ran?
    case Detach(_) => pc == Idle
    case ClearOne(_) => pc.Clearing?
    case LockStop(_) => pc == Idle && s.mutex == None
    case SetStopped(_) => pc == Stopping
    case NotifyAll(_) => pc == StopSet
    case Restart(_) => pc == Idle
  }

  function Goto(s: State, t: nat, pc: Pc): State {
    s.(pc := s.pc[t := pc])
  }

  function GotoUnlocked(s: State, t: nat, pc: Pc): State {
    s.(pc := s.pc[t := pc], mutex := None)
  }

  function GotoLocked(s: State, t: nat, pc: Pc): State {
    s.(pc := s.pc[t := pc], mutex := Some(t))
  }

  /** A node from one of the stores, not linked yet. */
  function AfterAllocate(s: State, t: nat, n: nat, inRing: bool): State {
    Goto(s.(next := s.next[n := None], fromRing := s.fromRing[n := inRing],
            ring := if inRing then s.ring + {n} else s.ring, heap := if inRing then s.heap else s.heap + {n},
            log := s.log.(place := s.log.place[n := Fresh(t)])), t, Posting(n))
  }

  /** _push_event, under msg_lock_. */
  function AfterPush(s: State, t: nat, n: nat): State {
    Goto(s.(next := match s.back case Some(b) => s.next[b := Some(n)] case None => s.next,
            back := Some(n),
            front := if s.front == None then Some(n) else s.front,
            log := s.log.(queue := s.log.queue + [n], pushed := s.log.pushed + [n], place := s.log.place[n := Queued])),
         t, Notifying)
  }

  /** The next_ of a node. */
  function NextOf(s: State, n: nat): Option<nat> {
    if n in s.next then s.next[n] else None
  }

  /** _pop_event, under msg_lock_, with n at the front. */
  function AfterPop(s: State, t: nat, n: nat): State {
    Goto(s.(front := NextOf(s, n),
            back := if s.back == Some(n) then None else s.back,
            log := s.log.(queue := Tail(s.log.queue), taken := s.log.taken + [n],
                          place := s.log.place[n := Executing(t)])),
         t, HasMessage(n))
  }

  function AfterInvoke(s: State, t: nat, n: nat): State {
    Goto(s.(log := s.log.(runs := s.log.runs + [n])), t, Ran(n))
  }

  /** _release: to the store the node's own flag names. */
  function ReleaseNode(s: State, n: nat): State {
    var inRing := n in s.fromRing && s.fromRing[n];
    s.(ring := if inRing then s.ring - {n} else s.ring,
       heap := if inRing then s.heap else s.heap - {n},
       log := s.log.(released := s.log.released + [n], place := s.log.place[n := Released]))
  }

  function AfterRelease(s: State, t: nat, n: nat): State {
    Goto(ReleaseNode(s, n), t, Idle)
  }

  /** clear(): the whole chain changes hands, under msg_lock_. */
  function AfterDetach(s: State, t: nat): State {
    Goto(s.(front := None, back := None,
            log := s.log.(queue := [], chains := s.log.chains[t := s.log.queue], taken := s.log.taken + s.log.queue,
                          place := map n | n in s.log.place
                                     :: if n in s.log.queue then Chained(t) else s.log.place[n])),
         t, Clearing(s.front))
  }

  /** One round of the loop in clear(). */
  function AfterClearOne(s: State, t: nat, n: nat): State {
    var rest := if t in s.log.chains then Tail(s.log.chains[t]) else [];
    var released := ReleaseNode(s, n);
    Goto(released.(log := released.log.(chains := s.log.chains[t := rest])), t, Clearing(NextOf(s, n)))
  }

  function AfterClear(s: State, t: nat): State {
    Goto(s.(log := s.log.(chains := s.log.chains - {t})), t, Idle)
  }

  function Tail(q: seq<nat>): seq<nat> {
    if q == [] then [] else q[1..]
  }

  function Wakened(pc: Pc): Pc {
    if pc.Sleeping? then Notified(pc.kind) else pc
  }

  function Apply(s: State, a: Step): State
    requires Enabled(s, a)
  {
    var t := a.t;
    match a
    case Allocate(_, n, inRing) => AfterAllocate(s, t, n, inRing)
    case LockPost(_) => GotoLocked(s, t, Pushing(s.pc[t].node))
    case Push(_) => AfterPush(s, t, s.pc[t].node)
    case NotifyOne(_, woken) =>
      (match woken
       case None => GotoUnlocked(s, t, Idle)
       case Some(u) => GotoUnlocked(Goto(s, u, Wakened(s.pc[u])), t, Idle))
    case Enter(_, kind) => Goto(s, t, Entering(kind))
    case Lock(_) => GotoLocked(s, t, Checking(s.pc[t].kind))
    case ReadStopped(_) => Goto(s, t, if s.stopped then Leaving else Popping(s.pc[t].kind))
    case Pop(_) =>
      (match s.front
       case Some(n) => AfterPop(s, t, n)
       case None => Goto(s, t, if s.pc[t].kind == Flush then Leaving else WillSleep(s.pc[t].kind)))
    case Sleep(_) => GotoUnlocked(s, t, Sleeping(s.pc[t].kind))
    case GiveUp(_) => Goto(s, t, Leaving)
    case Wake(_) => Goto(s, t, Notified(s.pc[t].kind))
    case Relock(_) => GotoLocked(s, t, Checking(s.pc[t].kind))
    case Unlock(_) => GotoUnlocked(s, t, if s.pc[t] == Leaving then Idle else Running(s.pc[t].node))
    case Invoke(_) => AfterInvoke(s, t, s.pc[t].node)
    case Release(_) => AfterRelease(s, t, s.pc[t].node)
    case Detach(_) => AfterDetach(s, t)
    case ClearOne(_) =>
      (match s.pc[t].head
       case Some(n) => AfterClearOne(s, t, n)
       case None => AfterClear(s, t))
    case LockStop(_) => GotoLocked(s, t, Stopping)
    case SetStopped(_) => Goto(s.(stopped := true), t, StopSet)
    case NotifyAll(_) => s.(pc := (map u | u in s.pc :: Wakened(s.pc[u]))[t := Idle], mutex := None)
    case Restart(_) => s.(stopped := false)
  }

  /** The state after a run from the start; None if some step was not enabled. */
  function Execute(threads: set<nat>, steps: seq<Step>): Option<State> {
    if steps == [] then Some(Init(threads)) else
    var before :- Execute(threads, steps[..|steps| - 1]);
    var a := steps[|steps| - 1];
    if Enabled(before, a) then Some(Apply(before, a)) else None
  }
}

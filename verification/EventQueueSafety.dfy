/** What every run of the event queue keeps: one well-formed chain, every node in
    exactly one place, push order, one run and one release per message. */
module EventQueueSafety {
  import opened Wrappers
  import opened EventQueue

  // ----- the invariant -----

  /** From head, following next, the nodes of q in order and then null. */
  ghost predicate Chain(next: map<nat, Option<nat>>, head: Option<nat>, q: seq<nat>)
    decreases |q|
  {
    if q == [] then head == None
    else head == Some(q[0]) && q[0] in next && Chain(next, next[q[0]], q[1..])
  }

  ghost predicate NoDup(q: seq<nat>) {
    forall i, j :: 0 <= i < j < |q| ==> q[i] != q[j]
  }

  /** The queue's two pointers delimit its chain. */
  ghost predicate QueueOk(s: State) {
    && Chain(s.next, s.front, s.log.queue)
    && s.back == (if s.log.queue == [] then None else Some(s.log.queue[|s.log.queue| - 1]))
  }

  /** A clearing thread owns the chain it still has to release. */
  ghost predicate ChainsOk(s: State) {
    && (forall t :: t in s.log.chains <==> t in s.pc && s.pc[t].Clearing?)
    && (forall t :: t in s.log.chains ==> Chain(s.next, s.pc[t].head, s.log.chains[t]) && NoDup(s.log.chains[t]))
  }

  /** What a thread refers to. */
  datatype Role = Nothing | Poster(node: nat) | Executor(node: nat, ran: bool) | Clearer

  function RoleOf(pc: Pc): Role {
    match pc
    case Posting(n) => Poster(n)
    case Pushing(n) => Poster(n)
    case HasMessage(n) => Executor(n, false)
    case Running(n) => Executor(n, false)
    case Ran(n) => Executor(n, true)
    case Clearing(_) => Clearer
    case _ => Nothing
  }

  ghost predicate ThreadOk(s: State, t: nat)
    requires t in s.pc
  {
    match RoleOf(s.pc[t])
    case Poster(n) => n in s.log.place && s.log.place[n] == Fresh(t)
    case Executor(n, _) => n in s.log.place && s.log.place[n] == Executing(t)
    case _ => true
  }

  ghost predicate NodeOk(s: State, n: nat)
    requires n in s.log.place
  {
    match s.log.place[n]
    case Fresh(t) => t in s.pc && RoleOf(s.pc[t]) == Poster(n)
    case Queued => n in s.log.queue
    case Executing(t) => t in s.pc && RoleOf(s.pc[t]).Executor? && RoleOf(s.pc[t]).node == n
    case Chained(t) => t in s.log.chains && n in s.log.chains[t]
    case Released => true
  }

  /** The place of a node says who refers to it, and nobody else does. */
  ghost predicate PlacesOk(s: State) {
    && (forall t :: t in s.pc ==> ThreadOk(s, t))
    && (forall n :: n in s.log.place ==> NodeOk(s, n))
    && (forall n :: n in s.log.queue ==> n in s.log.place && s.log.place[n] == Queued)
    && (forall t, n :: t in s.log.chains && n in s.log.chains[t] ==> n in s.log.place && s.log.place[n] == Chained(t))
  }

  /** A store has handed out exactly the nodes of its kind not yet released. */
  ghost predicate StoresOk(s: State) {
    && s.log.place.Keys == s.next.Keys == s.fromRing.Keys
    && (forall n :: n in s.ring <==> n in s.log.place && s.log.place[n] != Released && s.fromRing[n])
    && (forall n :: n in s.heap <==> n in s.log.place && s.log.place[n] != Released && !s.fromRing[n])
    && (forall n :: n in s.log.place && s.log.place[n].Fresh? ==> s.next[n] == None)
  }

  /** Messages leave the queue in the order they entered it, each once. */
  ghost predicate OrderOk(s: State) {
    && s.log.pushed == s.log.taken + s.log.queue
    && NoDup(s.log.pushed)
    && (forall n :: n in s.log.pushed <==> n in s.log.place && !s.log.place[n].Fresh?)
  }

  ghost predicate RanOk(s: State, n: nat) {
    n in s.log.place &&
    match s.log.place[n]
    case Released => true
    case Executing(t) => t in s.pc && RoleOf(s.pc[t]) == Executor(n, true)
    case _ => false
  }

  /** No message runs twice; one that has run is released or about to be. */
  ghost predicate RunsOk(s: State) {
    && NoDup(s.log.runs)
    && (forall n :: n in s.log.runs ==> RanOk(s, n))
    && (forall t :: t in s.pc && s.pc[t].Ran? ==> s.pc[t].node in s.log.runs)
  }

  /** Each node is released at most once. */
  ghost predicate ReleasedOk(s: State) {
    && NoDup(s.log.released)
    && (forall n :: n in s.log.released <==> n in s.log.place && s.log.place[n] == Released)
  }

  ghost predicate Holds(pc: Pc) {
    pc.Pushing? || pc == Notifying || pc.Checking? || pc.Popping? || pc.WillSleep? || pc == Leaving
    || pc.HasMessage? || pc == Stopping || pc == StopSet
  }

  /** Exactly the threads inside a critical region hold the mutex: one at most. */
  ghost predicate MutexOk(s: State) {
    forall t :: s.mutex == Some(t) <==> t in s.pc && Holds(s.pc[t])
  }

  ghost predicate Safe(s: State) {
    QueueOk(s) && ChainsOk(s) && PlacesOk(s) && StoresOk(s) && OrderOk(s) && RunsOk(s) && ReleasedOk(s) && MutexOk(s)
  }

  // ----- chains -----

  lemma {:induction false} ChainFrame(next: map<nat, Option<nat>>, after: map<nat, Option<nat>>, head: Option<nat>,
      q: seq<nat>)
    requires Chain(next, head, q)
    requires forall n :: n in q ==> n in after && (n in next ==> after[n] == next[n])
    ensures Chain(after, head, q)
    decreases |q|
  {
    if q != [] {
      ChainFrame(next, after, next[q[0]], q[1..]);
    }
  }

  lemma {:induction false} ChainExtend(next: map<nat, Option<nat>>, head: Option<nat>, q: seq<nat>, n: nat)
    requires Chain(next, head, q) && NoDup(q + [n]) && n in next && next[n] == None
    ensures q == [] ==> Chain(next, Some(n), [n])
    ensures q != [] ==> Chain(next[q[|q| - 1] := Some(n)], head, q + [n])
    decreases |q|
  {
    if q == [] {
      assert [n][1..] == [];
    } else {
      var after := next[q[|q| - 1] := Some(n)];
      assert (q + [n])[|q|] == n && (q + [n])[|q| - 1] == q[|q| - 1];
      if |q| == 1 {
        assert (q + [n])[1..] == [n] && [n][1..] == [];
      } else {
        var rest := q[1..];
        assert (q + [n])[1..] == rest + [n];
        assert forall i :: 0 <= i < |rest + [n]| ==> (rest + [n])[i] == (q + [n])[i + 1];
        assert rest[|rest| - 1] == q[|q| - 1];
        ChainExtend(next, next[q[0]], rest, n);
      }
    }
  }

  lemma NoDupAppend(q: seq<nat>, n: nat)
    requires NoDup(q) && n !in q
    ensures NoDup(q + [n])
  {
  }

  lemma NoDupSplit(a: seq<nat>, b: seq<nat>)
    requires NoDup(a + b)
    ensures NoDup(a) && NoDup(b)
    ensures forall n :: n in a ==> n !in b
  {
    assert forall i :: 0 <= i < |a| ==> (a + b)[i] == a[i];
    assert forall i :: 0 <= i < |b| ==> (a + b)[|a| + i] == b[i];
    forall i, j | 0 <= i < |a| && 0 <= j < |b|
      ensures a[i] != b[j]
    {
      assert (a + b)[i] != (a + b)[|a| + j];
    }
  }

  // ----- steps that only move a thread -----

  /** A step that changes nothing but control, the mutex and the flag, and moves
      no thread into or out of a place where it refers to a node. */
  ghost predicate Control(s: State, s': State) {
    && s'.front == s.front && s'.back == s.back && s'.next == s.next && s'.fromRing == s.fromRing
    && s'.ring == s.ring && s'.heap == s.heap && s'.log == s.log && s'.pc.Keys == s.pc.Keys
    && forall t :: t in s.pc ==> SameRole(s.pc[t], s'.pc[t])
  }

  ghost predicate SameRole(p: Pc, p': Pc) {
    RoleOf(p) == RoleOf(p') && (p.Clearing? || p.Ran? ==> p == p')
  }

  ghost predicate IsControl(a: Step) {
    a.LockPost? || a.NotifyOne? || a.Enter? || a.Lock? || a.ReadStopped? || a.Sleep? || a.GiveUp? || a.Wake?
    || a.Relock? || a.Unlock? || a.LockStop? || a.SetStopped? || a.NotifyAll? || a.Restart?
  }

  lemma ControlSteps(s: State, a: Step)
    requires Enabled(s, a) && IsControl(a)
    ensures Control(s, Apply(s, a))
  {
    hide Enabled, Apply, Control;
    if a.NotifyOne? {
      ControlNotifyOne(s, a);
    } else if a.NotifyAll? {
      ControlNotifyAll(s, a);
    } else if a.Lock? || a.ReadStopped? || a.Sleep? || a.GiveUp? || a.Wake? || a.Relock? || a.Unlock? {
      ControlWait(s, a);
    } else {
      ControlRegion(s, a);
    }
  }

  lemma ControlWait(s: State, a: Step)
    requires Enabled(s, a) && (a.Lock? || a.ReadStopped? || a.Sleep? || a.GiveUp? || a.Wake? || a.Relock? || a.Unlock?)
    ensures Control(s, Apply(s, a))
  {
    WaitRole(s, a);
    MovesOne(s, a);
    hide SameRole, RoleOf;
  }

  lemma WaitRole(s: State, a: Step)
    requires Enabled(s, a) && (a.Lock? || a.ReadStopped? || a.Sleep? || a.GiveUp? || a.Wake? || a.Relock? || a.Unlock?)
    ensures a.t in Apply(s, a).pc && SameRole(s.pc[a.t], Apply(s, a).pc[a.t])
  {
  }

  lemma ControlRegion(s: State, a: Step)
    requires Enabled(s, a) && (a.LockPost? || a.Enter? || a.LockStop? || a.SetStopped? || a.Restart?)
    ensures Control(s, Apply(s, a))
  {
    MovesOne(s, a);
  }

  lemma ControlNotifyOne(s: State, a: Step)
    requires Enabled(s, a) && a.NotifyOne?
    ensures Control(s, Apply(s, a))
  {
  }

  lemma ControlNotifyAll(s: State, a: Step)
    requires Enabled(s, a) && a.NotifyAll?
    ensures Control(s, Apply(s, a))
  {
  }

  lemma ControlChains(s: State, s': State)
    requires QueueOk(s) && ChainsOk(s) && Control(s, s')
    ensures QueueOk(s') && ChainsOk(s')
  {
    hide Chain, NoDup, RoleOf;
    forall t
      ensures t in s'.log.chains <==> t in s'.pc && s'.pc[t].Clearing?
    {
      if t in s.pc {
        ClearingIsRole(s, s', t);
      }
    }
  }

  lemma ClearingIsRole(s: State, s': State, t: nat)
    requires t in s.pc && t in s'.pc && SameRole(s.pc[t], s'.pc[t])
    ensures s.pc[t].Clearing? <==> s'.pc[t].Clearing?
    ensures s.pc[t].Ran? <==> s'.pc[t].Ran?
  {
  }

  lemma ControlPlaces(s: State, s': State)
    requires PlacesOk(s) && Control(s, s')
    ensures PlacesOk(s')
  {
    hide RoleOf;
    forall t | t in s'.pc
      ensures ThreadOk(s', t)
    {
      assert ThreadOk(s, t) && SameRole(s.pc[t], s'.pc[t]);
    }
    forall n | n in s'.log.place
      ensures NodeOk(s', n)
    {
      assert NodeOk(s, n);
    }
  }

  lemma ControlRuns(s: State, s': State)
    requires RunsOk(s) && Control(s, s')
    ensures RunsOk(s')
  {
    hide NoDup, RoleOf;
    forall n | n in s'.log.runs
      ensures RanOk(s', n)
    {
      assert RanOk(s, n);
    }
    forall t | t in s'.pc && s'.pc[t].Ran?
      ensures s'.pc[t].node in s'.log.runs
    {
      ClearingIsRole(s, s', t);
    }
  }

  lemma ControlRest(s: State, s': State)
    requires StoresOk(s) && OrderOk(s) && ReleasedOk(s) && Control(s, s')
    ensures StoresOk(s') && OrderOk(s') && ReleasedOk(s')
  {
    hide NoDup;
  }

  lemma ControlKeeps(s: State, s': State)
    requires Safe(s) && Control(s, s') && MutexOk(s')
    ensures Safe(s')
  {
    hide QueueOk, ChainsOk, PlacesOk, StoresOk, OrderOk, RunsOk, ReleasedOk, MutexOk, Control;
    ControlChains(s, s');
    ControlPlaces(s, s');
    ControlRuns(s, s');
    ControlRest(s, s');
  }

  /** The threads that hold the mutex before and after a step of one thread. */
  lemma MutexMove(s: State, s': State, t: nat)
    requires MutexOk(s) && t in s.pc && s'.pc.Keys == s.pc.Keys
    requires forall u :: u in s.pc && u != t ==> Holds(s'.pc[u]) == Holds(s.pc[u])
    requires s'.mutex == (if Holds(s'.pc[t]) then Some(t) else if Holds(s.pc[t]) then None else s.mutex)
    requires Holds(s'.pc[t]) ==> Holds(s.pc[t]) || s.mutex == None
    ensures MutexOk(s')
  {
    forall u
      ensures s'.mutex == Some(u) <==> u in s'.pc && Holds(s'.pc[u])
    {
      assert s.mutex == Some(u) <==> u in s.pc && Holds(s.pc[u]);
      assert s.mutex == Some(t) <==> Holds(s.pc[t]);
    }
  }

  /** Every step but a notification moves only its own thread. */
  lemma MovesOne(s: State, a: Step)
    requires Enabled(s, a) && !a.NotifyOne? && !a.NotifyAll?
    ensures a.t in Apply(s, a).pc && Apply(s, a).pc == s.pc[a.t := Apply(s, a).pc[a.t]]
  {
    if IsNodeStep(a) {
      NodeMovesOne(s, a);
    } else if a.Restart? {
      assert s.pc == s.pc[a.t := s.pc[a.t]];
    }
  }

  lemma NodeMovesOne(s: State, a: Step)
    requires Enabled(s, a) && IsNodeStep(a)
    ensures a.t in Apply(s, a).pc && Apply(s, a).pc == s.pc[a.t := Apply(s, a).pc[a.t]]
  {
    if a.Detach? || a.ClearOne? {
      ClearerMovesOne(s, a);
    }
  }

  lemma ClearerMovesOne(s: State, a: Step)
    requires Enabled(s, a) && (a.Detach? || a.ClearOne?)
    ensures a.t in Apply(s, a).pc && Apply(s, a).pc == s.pc[a.t := Apply(s, a).pc[a.t]]
  {
  }

  /** A step that enters or leaves a critical region takes or frees the mutex. */
  ghost predicate MutexFits(s: State, s': State, t: nat) {
    && t in s.pc && t in s'.pc
    && s'.mutex == (if Holds(s'.pc[t]) then Some(t) else if Holds(s.pc[t]) then None else s.mutex)
    && (Holds(s'.pc[t]) ==> Holds(s.pc[t]) || s.mutex == None)
  }

  ghost predicate IsNodeStep(a: Step) {
    a.Allocate? || a.Push? || a.Pop? || a.Invoke? || a.Release? || a.Detach? || a.ClearOne?
  }

  lemma MutexFollowsNode(s: State, a: Step)
    requires Enabled(s, a) && IsNodeStep(a) && (Holds(s.pc[a.t]) <==> s.mutex == Some(a.t))
    ensures MutexFits(s, Apply(s, a), a.t)
  {
    if a.Detach? || a.ClearOne? || a.Allocate? {
      MutexFollowsOutside(s, a);
    }
  }

  lemma MutexFollowsOutside(s: State, a: Step)
    requires Enabled(s, a) && (a.Detach? || a.ClearOne? || a.Allocate?) && (Holds(s.pc[a.t]) <==> s.mutex == Some(a.t))
    ensures MutexFits(s, Apply(s, a), a.t)
  {
  }

  lemma MutexFollowsWait(s: State, a: Step)
    requires Enabled(s, a) && (a.Lock? || a.ReadStopped? || a.Sleep? || a.GiveUp? || a.Wake? || a.Relock? || a.Unlock?)
    requires Holds(s.pc[a.t]) <==> s.mutex == Some(a.t)
    ensures MutexFits(s, Apply(s, a), a.t)
  {
  }

  lemma MutexFollowsRest(s: State, a: Step)
    requires Enabled(s, a) && (a.LockPost? || a.NotifyOne? || a.Enter? || a.LockStop? || a.SetStopped? || a.NotifyAll?
             || a.Restart?)
    requires Holds(s.pc[a.t]) <==> s.mutex == Some(a.t)
    ensures MutexFits(s, Apply(s, a), a.t)
  {
  }

  lemma MutexFollows(s: State, a: Step)
    requires Enabled(s, a) && (Holds(s.pc[a.t]) <==> s.mutex == Some(a.t))
    ensures MutexFits(s, Apply(s, a), a.t)
  {
    hide Apply, Holds, MutexFits;
    if IsNodeStep(a) {
      MutexFollowsNode(s, a);
    } else if a.Lock? || a.ReadStopped? || a.Sleep? || a.GiveUp? || a.Wake? || a.Relock? || a.Unlock? {
      MutexFollowsWait(s, a);
    } else {
      MutexFollowsRest(s, a);
    }
  }

  lemma NotifyHolds(s: State, a: Step)
    requires Enabled(s, a) && (a.NotifyOne? || a.NotifyAll?)
    ensures Apply(s, a).pc.Keys == s.pc.Keys
    ensures forall u :: u in s.pc && u != a.t ==> Holds(Apply(s, a).pc[u]) == Holds(s.pc[u])
  {
  }

  lemma HolderIs(s: State, t: nat)
    requires MutexOk(s) && t in s.pc
    ensures Holds(s.pc[t]) <==> s.mutex == Some(t)
  {
    hide Holds;
  }

  lemma MutexKept(s: State, a: Step)
    requires MutexOk(s) && Enabled(s, a)
    ensures MutexOk(Apply(s, a))
  {
    HolderIs(s, a.t);
    hide MutexOk, Apply, Holds;
    MutexFollows(s, a);
    if a.NotifyOne? || a.NotifyAll? {
      NotifyHolds(s, a);
    } else {
      MovesOne(s, a);
    }
    MutexMove(s, Apply(s, a), a.t);
  }

  // ----- steps that move a node -----

  /** Chains only depend on the next_ of their own nodes. */
  lemma ChainsFrame(s: State, next: map<nat, Option<nat>>)
    requires ChainsOk(s)
    requires forall t, n :: t in s.log.chains && n in s.log.chains[t] ==>
                              n in next && (n in s.next ==> next[n] == s.next[n])
    ensures forall t :: t in s.log.chains ==> Chain(next, s.pc[t].head, s.log.chains[t])
  {
    hide NoDup;
    forall t | t in s.log.chains
      ensures Chain(next, s.pc[t].head, s.log.chains[t])
    {
      ChainFrame(s.next, next, s.pc[t].head, s.log.chains[t]);
    }
  }

  /** Node n goes from one place to another because thread t moves on. */
  ghost predicate Moves(s: State, s': State, t: nat, n: nat) {
    && t in s.pc && t in s'.pc && s'.pc == s.pc[t := s'.pc[t]]
    && n in s'.log.place && s'.log.place == s.log.place[n := s'.log.place[n]]
    && (RoleOf(s.pc[t]).Poster? || RoleOf(s.pc[t]).Executor? ==> RoleOf(s.pc[t]).node == n)
    && (n in s.log.place ==> match s.log.place[n] case Fresh(u) => u == t case Executing(u) => u == t case _ => true)
  }

  /** Then it is enough to look at t and n. */
  lemma MovedPlaces(s: State, s': State, t: nat, n: nat)
    requires PlacesOk(s) && Moves(s, s', t, n)
    requires ThreadOk(s', t) && NodeOk(s', n)
    requires forall m :: m != n && m in s.log.queue <==> m != n && m in s'.log.queue
    requires forall u, m :: m != n ==>
                              (u in s.log.chains && m in s.log.chains[u]
                               <==> u in s'.log.chains && m in s'.log.chains[u])
    requires n in s'.log.queue ==> s'.log.place[n] == Queued
    requires forall u :: u in s'.log.chains && n in s'.log.chains[u] ==> s'.log.place[n] == Chained(u)
    ensures PlacesOk(s')
  {
    forall u | u in s'.pc
      ensures ThreadOk(s', u)
    {
      assert ThreadOk(s, u);
    }
    forall m | m in s'.log.place
      ensures NodeOk(s', m)
    {
      if m != n {
        assert NodeOk(s, m);
      }
    }
  }

  // Allocate

  lemma AllocateLinks(s: State, t: nat, n: nat, inRing: bool)
    requires QueueOk(s) && ChainsOk(s) && PlacesOk(s) && StoresOk(s) && t in s.pc && s.pc[t] == Idle && n !in s.next
    ensures QueueOk(AfterAllocate(s, t, n, inRing)) && ChainsOk(AfterAllocate(s, t, n, inRing))
  {
    LinkedNodes(s);
    hide PlacesOk, StoresOk, Chain, NoDup;
    var s' := AfterAllocate(s, t, n, inRing);
    ChainFrame(s.next, s'.next, s.front, s.log.queue);
    ChainsFrame(s, s'.next);
  }

  /** Nodes in the queue or in a chain have a next_. */
  lemma LinkedNodes(s: State)
    requires PlacesOk(s) && StoresOk(s)
    ensures forall n :: n in s.log.queue ==> n in s.next
    ensures forall t, n :: t in s.log.chains && n in s.log.chains[t] ==> n in s.next
  {
    hide ThreadOk, NodeOk;
  }

  lemma AllocatePlaces(s: State, t: nat, n: nat, inRing: bool)
    requires PlacesOk(s) && StoresOk(s) && t in s.pc && s.pc[t] == Idle && n !in s.next
    ensures PlacesOk(AfterAllocate(s, t, n, inRing))
  {
    var s' := AfterAllocate(s, t, n, inRing);
    assert n !in s.log.place;
    assert ThreadOk(s', t) && NodeOk(s', n);
    assert n !in s.log.queue && forall u :: u in s.log.chains ==> n !in s.log.chains[u];
    hide PlacesOk, StoresOk;
    MovedPlaces(s, s', t, n);
  }

  lemma AllocateStores(s: State, t: nat, n: nat, inRing: bool)
    requires StoresOk(s) && t in s.pc && s.pc[t] == Idle && n !in s.next
    ensures StoresOk(AfterAllocate(s, t, n, inRing))
  {
    var s' := AfterAllocate(s, t, n, inRing);
    hide StoresOk;
    StoresAdd(s, s', n, inRing);
  }

  lemma StoresAdd(s: State, s': State, n: nat, inRing: bool)
    requires StoresOk(s) && n !in s.next && s'.next == s.next[n := None] && s'.fromRing == s.fromRing[n := inRing]
    requires n in s'.log.place && s'.log.place[n].Fresh? && s'.log.place == s.log.place[n := s'.log.place[n]]
    requires s'.ring == (if inRing then s.ring + {n} else s.ring)
    requires s'.heap == (if inRing then s.heap else s.heap + {n})
    ensures StoresOk(s')
  {
  }

  lemma AllocateHistory(s: State, t: nat, n: nat, inRing: bool)
    requires StoresOk(s) && OrderOk(s) && RunsOk(s) && ReleasedOk(s) && t in s.pc && s.pc[t] == Idle && n !in s.next
    ensures OrderOk(AfterAllocate(s, t, n, inRing))
    ensures RunsOk(AfterAllocate(s, t, n, inRing)) && ReleasedOk(AfterAllocate(s, t, n, inRing))
  {
    hide NoDup;
    assert n !in s.log.place;
    hide StoresOk;
    var s' := AfterAllocate(s, t, n, inRing);
    forall m | m in s'.log.runs
      ensures RanOk(s', m)
    {
      assert RanOk(s, m);
    }
  }

  // Push

  lemma PushQueue(s: State, t: nat, n: nat)
    requires QueueOk(s) && PlacesOk(s) && StoresOk(s) && OrderOk(s) && t in s.pc && s.pc[t] == Pushing(n)
    ensures QueueOk(AfterPush(s, t, n))
  {
    hide NodeOk;
    var s' := AfterPush(s, t, n);
    var q := s.log.queue;
    assert ThreadOk(s, t);
    assert n !in q && n in s.next && s.next[n] == None;
    NoDupSplit(s.log.taken, q);
    assert q == [] <==> s.front == None;
    hide PlacesOk, StoresOk, OrderOk, ThreadOk, RoleOf;
    NoDupAppend(q, n);
    ChainExtend(s.next, s.front, q, n);
    hide Chain, NoDup;
    if q == [] {
      assert q + [n] == [n];
    } else {
      assert (q + [n])[|q + [n]| - 1] == n;
    }
  }

  lemma PushChains(s: State, t: nat, n: nat)
    requires QueueOk(s) && ChainsOk(s) && PlacesOk(s) && StoresOk(s) && t in s.pc && s.pc[t] == Pushing(n)
    ensures ChainsOk(AfterPush(s, t, n))
  {
    hide NodeOk, ThreadOk, Chain, NoDup, RoleOf;
    var s' := AfterPush(s, t, n);
    if s.log.queue != [] {
      var last := s.log.queue[|s.log.queue| - 1];
      assert last in s.log.queue && s.log.place[last] == Queued;
    }
    ChainsFrame(s, s'.next);
    hide PlacesOk, StoresOk, QueueOk;
  }

  lemma PushPlaces(s: State, t: nat, n: nat)
    requires PlacesOk(s) && t in s.pc && s.pc[t] == Pushing(n)
    ensures PlacesOk(AfterPush(s, t, n))
  {
    var s' := AfterPush(s, t, n);
    assert ThreadOk(s, t);
    assert ThreadOk(s', t) && NodeOk(s', n);
    assert forall u :: u in s.log.chains ==> n !in s.log.chains[u];
    hide PlacesOk;
    MovedPlaces(s, s', t, n);
  }

  /** The last node is a queued one. */
  lemma BackQueued(s: State)
    requires QueueOk(s) && PlacesOk(s)
    ensures s.back.Some? ==> s.back.value in s.log.place && s.log.place[s.back.value] == Queued
  {
    hide Chain, ThreadOk, NodeOk;
    if s.log.queue != [] {
      assert s.log.queue[|s.log.queue| - 1] in s.log.queue;
    }
  }

  /** What a pushing thread refers to. */
  lemma PushesFresh(s: State, t: nat, n: nat)
    requires PlacesOk(s) && t in s.pc && s.pc[t] == Pushing(n)
    ensures n in s.log.place && s.log.place[n] == Fresh(t)
  {
    assert ThreadOk(s, t);
    hide PlacesOk;
  }

  lemma PushStores(s: State, t: nat, n: nat)
    requires StoresOk(s) && t in s.pc && n in s.log.place && s.log.place[n] == Fresh(t)
    requires s.back.Some? ==> s.back.value in s.log.place && s.log.place[s.back.value] == Queued
    ensures StoresOk(AfterPush(s, t, n))
  {
  }

  lemma PushOrder(s: State, t: nat, n: nat)
    requires OrderOk(s) && t in s.pc && n in s.log.place && s.log.place[n] == Fresh(t)
    ensures OrderOk(AfterPush(s, t, n))
  {
    NoDupAppend(s.log.pushed, n);
    hide NoDup;
    assert s.log.taken + s.log.queue + [n] == s.log.taken + (s.log.queue + [n]);
  }

  lemma PushRuns(s: State, t: nat, n: nat)
    requires PlacesOk(s) && RunsOk(s) && ReleasedOk(s) && t in s.pc && s.pc[t] == Pushing(n)
    ensures RunsOk(AfterPush(s, t, n)) && ReleasedOk(AfterPush(s, t, n))
  {
    var s' := AfterPush(s, t, n);
    assert ThreadOk(s, t);
    hide NoDup, PlacesOk;
    forall m | m in s'.log.runs
      ensures RanOk(s', m)
    {
      assert RanOk(s, m);
    }
  }

  // Pop

  /** What QueueOk says when n is at the front. */
  lemma FrontIsFirst(s: State, n: nat)
    requires QueueOk(s) && OrderOk(s) && s.front == Some(n)
    ensures s.log.queue != [] && n == s.log.queue[0] && n in s.next && Chain(s.next, s.next[n], s.log.queue[1..])
    ensures n !in s.log.queue[1..]
    ensures s.back == Some(n) <==> s.log.queue[1..] == []
  {
    var q := s.log.queue;
    NoDupSplit(s.log.taken, q);
    if q[1..] != [] {
      assert q[|q| - 1] != q[0];
    }
  }

  /** The front is a queued node. */
  lemma FrontQueued(s: State, n: nat)
    requires QueueOk(s) && OrderOk(s) && PlacesOk(s) && s.front == Some(n)
    ensures s.log.queue != [] && n == s.log.queue[0] && n !in s.log.queue[1..]
    ensures n in s.log.queue && n in s.log.place && s.log.place[n] == Queued
  {
    FrontIsFirst(s, n);
    hide QueueOk, OrderOk, ThreadOk, NodeOk;
  }

  lemma PopLinks(s: State, t: nat, n: nat)
    requires QueueOk(s) && ChainsOk(s) && OrderOk(s) && t in s.pc && s.pc[t].Popping? && s.front == Some(n)
    ensures QueueOk(AfterPop(s, t, n)) && ChainsOk(AfterPop(s, t, n))
  {
    FrontIsFirst(s, n);
    hide Chain, NoDup, OrderOk;
  }

  lemma PopPlaces(s: State, t: nat, n: nat)
    requires QueueOk(s) && OrderOk(s) && PlacesOk(s) && t in s.pc && s.pc[t].Popping? && s.front == Some(n)
    ensures PlacesOk(AfterPop(s, t, n))
  {
    FrontQueued(s, n);
    hide QueueOk, OrderOk;
    PopMoves(s, t, n);
    hide PlacesOk, Moves, ThreadOk, NodeOk;
    MovedPlaces(s, AfterPop(s, t, n), t, n);
  }

  lemma PopMoves(s: State, t: nat, n: nat)
    requires PlacesOk(s) && t in s.pc && s.pc[t].Popping? && s.log.queue != [] && n == s.log.queue[0]
    requires n !in s.log.queue[1..] && n in s.log.place && s.log.place[n] == Queued
    ensures var s' := AfterPop(s, t, n);
            && Moves(s, s', t, n) && ThreadOk(s', t) && NodeOk(s', n) && n !in s'.log.queue
            && (forall m :: m != n && m in s.log.queue <==> m != n && m in s'.log.queue)
            && forall u :: u in s.log.chains ==> n !in s.log.chains[u]
  {
    var q := s.log.queue;
    assert q == [n] + q[1..];
  }

  lemma PopStores(s: State, t: nat, n: nat)
    requires StoresOk(s) && n in s.log.place && s.log.place[n] == Queued && t in s.pc
    ensures StoresOk(AfterPop(s, t, n))
  {
  }

  lemma PopOrder(s: State, t: nat, n: nat)
    requires OrderOk(s) && s.log.queue != [] && n == s.log.queue[0] && n in s.log.place && t in s.pc
    ensures OrderOk(AfterPop(s, t, n))
  {
    hide NoDup;
    var q := s.log.queue;
    assert q == [n] + q[1..];
    assert s.log.taken + q == s.log.taken + [n] + q[1..];
  }

  lemma PopRuns(s: State, t: nat, n: nat)
    requires RunsOk(s) && ReleasedOk(s) && n in s.log.place && s.log.place[n] == Queued
    requires t in s.pc && s.pc[t].Popping?
    ensures RunsOk(AfterPop(s, t, n)) && ReleasedOk(AfterPop(s, t, n))
  {
    hide NoDup;
    var s' := AfterPop(s, t, n);
    forall m | m in s'.log.runs
      ensures RanOk(s', m)
    {
      assert RanOk(s, m);
    }
  }

  // Invoke

  lemma InvokeLinks(s: State, t: nat, n: nat)
    requires QueueOk(s) && ChainsOk(s) && StoresOk(s) && OrderOk(s) && ReleasedOk(s) && t in s.pc
             && s.pc[t] == Running(n)
    ensures QueueOk(AfterInvoke(s, t, n)) && ChainsOk(AfterInvoke(s, t, n)) && StoresOk(AfterInvoke(s, t, n))
    ensures OrderOk(AfterInvoke(s, t, n)) && ReleasedOk(AfterInvoke(s, t, n))
  {
    hide Chain, NoDup;
  }

  lemma InvokePlaces(s: State, t: nat, n: nat)
    requires PlacesOk(s) && t in s.pc && s.pc[t] == Running(n)
    ensures PlacesOk(AfterInvoke(s, t, n))
  {
    var s' := AfterInvoke(s, t, n);
    assert ThreadOk(s, t);
    assert ThreadOk(s', t) && NodeOk(s', n);
    assert n !in s.log.queue && forall u :: u in s.log.chains ==> n !in s.log.chains[u];
    hide PlacesOk;
    MovedPlaces(s, s', t, n);
  }

  lemma InvokeRuns(s: State, t: nat, n: nat)
    requires PlacesOk(s) && RunsOk(s) && t in s.pc && s.pc[t] == Running(n)
    ensures RunsOk(AfterInvoke(s, t, n))
  {
    var s' := AfterInvoke(s, t, n);
    assert ThreadOk(s, t);
    assert n in s.log.runs ==> RanOk(s, n);
    NoDupAppend(s.log.runs, n);
    hide NoDup, PlacesOk;
    forall m | m in s'.log.runs
      ensures RanOk(s', m)
    {
      if m != n {
        assert RanOk(s, m);
      }
    }
  }

  // Release after running

  lemma ReleaseLinks(s: State, t: nat, n: nat)
    requires QueueOk(s) && ChainsOk(s) && t in s.pc && s.pc[t] == Ran(n)
    ensures QueueOk(AfterRelease(s, t, n)) && ChainsOk(AfterRelease(s, t, n))
  {
    hide Chain, NoDup;
  }

  lemma ReleasePlaces(s: State, t: nat, n: nat)
    requires PlacesOk(s) && t in s.pc && s.pc[t] == Ran(n)
    ensures PlacesOk(AfterRelease(s, t, n))
  {
    var s' := AfterRelease(s, t, n);
    assert ThreadOk(s, t);
    assert ThreadOk(s', t) && NodeOk(s', n);
    assert n !in s.log.queue && forall u :: u in s.log.chains ==> n !in s.log.chains[u];
    hide PlacesOk;
    MovedPlaces(s, s', t, n);
  }

  lemma ReleaseStores(s: State, t: nat, n: nat)
    requires PlacesOk(s) && StoresOk(s) && t in s.pc && s.pc[t] == Ran(n)
    ensures StoresOk(AfterRelease(s, t, n))
    ensures NodeLive(s, n) && !NodeLive(AfterRelease(s, t, n), n)
  {
    assert ThreadOk(s, t);
    hide PlacesOk;
    ReleasesOne(s, t, n);
  }

  lemma ReleasesOne(s: State, t: nat, n: nat)
    requires StoresOk(s) && t in s.pc && n in s.log.place && s.log.place[n] != Released
    ensures StoresOk(AfterRelease(s, t, n))
    ensures NodeLive(s, n) && !NodeLive(AfterRelease(s, t, n), n)
  {
  }

  lemma ReleaseOrder(s: State, t: nat, n: nat)
    requires PlacesOk(s) && OrderOk(s) && ReleasedOk(s) && t in s.pc && s.pc[t] == Ran(n)
    ensures OrderOk(AfterRelease(s, t, n)) && ReleasedOk(AfterRelease(s, t, n))
  {
    assert ThreadOk(s, t);
    assert n !in s.log.released;
    NoDupAppend(s.log.released, n);
    hide NoDup, PlacesOk, ThreadOk, RoleOf;
  }

  lemma ReleaseRuns(s: State, t: nat, n: nat)
    requires PlacesOk(s) && RunsOk(s) && t in s.pc && s.pc[t] == Ran(n)
    ensures RunsOk(AfterRelease(s, t, n))
  {
    var s' := AfterRelease(s, t, n);
    hide NoDup, PlacesOk;
    forall m | m in s'.log.runs
      ensures RanOk(s', m)
    {
      assert RanOk(s, m);
    }
  }

  // clear(): detaching

  lemma DetachLinks(s: State, t: nat)
    requires QueueOk(s) && ChainsOk(s) && OrderOk(s) && t in s.pc && s.pc[t] == Idle
    ensures QueueOk(AfterDetach(s, t)) && ChainsOk(AfterDetach(s, t))
  {
    NoDupSplit(s.log.taken, s.log.queue);
    var s' := AfterDetach(s, t);
    assert Chain(s'.next, None, []);
    hide Chain, NoDup, OrderOk;
  }

  lemma DetachPlaces(s: State, t: nat)
    requires ChainsOk(s) && PlacesOk(s) && t in s.pc && s.pc[t] == Idle
    ensures PlacesOk(AfterDetach(s, t))
  {
    hide Chain, NoDup;
    assert t !in s.log.chains;
    hide ChainsOk;
    DetachThreads(s, t);
    DetachNodes(s, t);
    DetachQueue(s, t);
    hide ThreadOk, NodeOk, AfterDetach;
  }

  lemma DetachThreads(s: State, t: nat)
    requires PlacesOk(s) && t in s.pc && s.pc[t] == Idle
    ensures forall u :: u in AfterDetach(s, t).pc ==> ThreadOk(AfterDetach(s, t), u)
  {
    hide NodeOk;
    forall u | u in AfterDetach(s, t).pc
      ensures ThreadOk(AfterDetach(s, t), u)
    {
      assert ThreadOk(s, u);
    }
  }

  lemma DetachNodes(s: State, t: nat)
    requires PlacesOk(s) && t in s.pc && s.pc[t] == Idle && t !in s.log.chains
    ensures forall m :: m in AfterDetach(s, t).log.place ==> NodeOk(AfterDetach(s, t), m)
  {
    forall m | m in AfterDetach(s, t).log.place
      ensures NodeOk(AfterDetach(s, t), m)
    {
      assert NodeOk(s, m);
      hide PlacesOk;
      DetachedNode(s, t, m);
    }
  }

  lemma DetachedNode(s: State, t: nat, m: nat)
    requires t in s.pc && s.pc[t] == Idle && t !in s.log.chains && m in s.log.place && NodeOk(s, m)
    ensures m in AfterDetach(s, t).log.place && NodeOk(AfterDetach(s, t), m)
  {
  }

  lemma DetachQueue(s: State, t: nat)
    requires PlacesOk(s) && t in s.pc && s.pc[t] == Idle && t !in s.log.chains
    ensures var s' := AfterDetach(s, t);
            && s'.log.queue == []
            && forall u, n :: u in s'.log.chains && n in s'.log.chains[u] ==>
                                n in s'.log.place && s'.log.place[n] == Chained(u)
  {
    hide ThreadOk, NodeOk;
  }

  lemma DetachStores(s: State, t: nat)
    requires StoresOk(s) && PlacesOk(s) && t in s.pc && s.pc[t] == Idle
    ensures StoresOk(AfterDetach(s, t))
  {
    hide ThreadOk, NodeOk, StoresOk;
    var s' := AfterDetach(s, t);
    assert s'.log.place.Keys == s.log.place.Keys;
    StoresSame(s, s');
  }

  lemma StoresSame(s: State, s': State)
    requires StoresOk(s) && s'.next == s.next && s'.fromRing == s.fromRing && s'.ring == s.ring && s'.heap == s.heap
    requires s'.log.place.Keys == s.log.place.Keys
    requires forall n :: n in s.log.place ==>
                           && (s'.log.place[n].Fresh? <==> s.log.place[n].Fresh?)
                           && (s'.log.place[n] == Released <==> s.log.place[n] == Released)
    ensures StoresOk(s')
  {
  }

  lemma DetachOrder(s: State, t: nat)
    requires PlacesOk(s) && OrderOk(s) && ReleasedOk(s) && t in s.pc && s.pc[t] == Idle
    ensures OrderOk(AfterDetach(s, t)) && ReleasedOk(AfterDetach(s, t))
  {
    hide NoDup, ThreadOk, NodeOk;
    var s' := AfterDetach(s, t);
    assert s'.log.place.Keys == s.log.place.Keys;
    assert s'.log.taken + s'.log.queue == s.log.taken + s.log.queue;
  }

  lemma DetachRuns(s: State, t: nat)
    requires PlacesOk(s) && RunsOk(s) && t in s.pc && s.pc[t] == Idle
    ensures RunsOk(AfterDetach(s, t))
  {
    hide NoDup, ThreadOk, NodeOk;
    var s' := AfterDetach(s, t);
    forall m | m in s'.log.runs
      ensures RanOk(s', m)
    {
      assert RanOk(s, m);
    }
  }

  // clear(): releasing one node

  ghost predicate ClearsFirst(s: State, t: nat, n: nat) {
    t in s.pc && s.pc[t] == Clearing(Some(n))
  }

  lemma ClearFirst(s: State, t: nat, n: nat)
    requires ChainsOk(s) && PlacesOk(s) && ClearsFirst(s, t, n)
    ensures t in s.log.chains && s.log.chains[t] != [] && s.log.chains[t][0] == n && n !in s.log.chains[t][1..]
    ensures n in s.next && Chain(s.next, s.next[n], s.log.chains[t][1..]) && NoDup(s.log.chains[t][1..])
    ensures n in s.log.place && s.log.place[n] == Chained(t)
  {
    hide ThreadOk, NodeOk;
    assert Chain(s.next, s.pc[t].head, s.log.chains[t]);
    assert s.log.chains[t][0] in s.log.chains[t];
  }

  lemma ClearLinks(s: State, t: nat, n: nat)
    requires QueueOk(s) && ChainsOk(s) && PlacesOk(s) && ClearsFirst(s, t, n)
    ensures QueueOk(AfterClearOne(s, t, n)) && ChainsOk(AfterClearOne(s, t, n))
  {
    ClearFirst(s, t, n);
    hide Chain, NoDup, PlacesOk;
  }

  lemma ClearMoves(s: State, t: nat, n: nat)
    requires ChainsOk(s) && PlacesOk(s) && ClearsFirst(s, t, n)
    ensures Moves(s, AfterClearOne(s, t, n), t, n)
    ensures ThreadOk(AfterClearOne(s, t, n), t) && NodeOk(AfterClearOne(s, t, n), n)
  {
    ClearFirst(s, t, n);
    hide ChainsOk, PlacesOk;
    ClearMovesOne(s, t, n);
  }

  lemma ClearMovesOne(s: State, t: nat, n: nat)
    requires ClearsFirst(s, t, n) && n in s.log.place && s.log.place[n] == Chained(t)
    ensures Moves(s, AfterClearOne(s, t, n), t, n)
    ensures ThreadOk(AfterClearOne(s, t, n), t) && NodeOk(AfterClearOne(s, t, n), n)
  {
  }

  lemma ClearsElsewhere(s: State, t: nat, n: nat)
    requires ChainsOk(s) && PlacesOk(s) && ClearsFirst(s, t, n)
    ensures t in s.log.chains && s.log.chains[t] != [] && s.log.chains[t][0] == n && n !in s.log.chains[t][1..]
    ensures n !in s.log.queue && forall u :: u in s.log.chains && u != t ==> n !in s.log.chains[u]
  {
    ClearFirst(s, t, n);
    hide Chain, NoDup, ChainsOk, ThreadOk, NodeOk;
  }

  lemma ClearKeepsSets(s: State, t: nat, n: nat)
    requires t in s.log.chains && s.log.chains[t] != [] && s.log.chains[t][0] == n && n !in s.log.chains[t][1..]
    requires forall u :: u in s.log.chains && u != t ==> n !in s.log.chains[u]
    ensures var s' := AfterClearOne(s, t, n);
            && s'.log.queue == s.log.queue
            && (forall u, m :: m != n ==>
                                 (u in s.log.chains && m in s.log.chains[u]
                               <==> u in s'.log.chains && m in s'.log.chains[u]))
            && (forall u :: u in s'.log.chains ==> n !in s'.log.chains[u])
  {
    var c := s.log.chains[t];
    assert c == [n] + c[1..];
  }

  lemma ClearPlaces(s: State, t: nat, n: nat)
    requires ChainsOk(s) && PlacesOk(s) && ClearsFirst(s, t, n)
    ensures PlacesOk(AfterClearOne(s, t, n))
  {
    ClearMoves(s, t, n);
    ClearsElsewhere(s, t, n);
    ClearKeepsSets(s, t, n);
    hide Chain, NoDup, ChainsOk, PlacesOk, ThreadOk, NodeOk, Moves, AfterClearOne;
    MovedPlaces(s, AfterClearOne(s, t, n), t, n);
  }

  lemma ClearStores(s: State, t: nat, n: nat)
    requires StoresOk(s) && n in s.log.place && s.log.place[n] == Chained(t)
    ensures StoresOk(AfterClearOne(s, t, n))
    ensures NodeLive(s, n) && !NodeLive(AfterClearOne(s, t, n), n)
  {
  }

  lemma ClearOrder(s: State, t: nat, n: nat)
    requires OrderOk(s) && ReleasedOk(s) && n in s.log.place && s.log.place[n] == Chained(t)
    ensures OrderOk(AfterClearOne(s, t, n)) && ReleasedOk(AfterClearOne(s, t, n))
  {
    assert n !in s.log.released;
    NoDupAppend(s.log.released, n);
    hide NoDup;
  }

  lemma ClearRuns(s: State, t: nat, n: nat)
    requires ChainsOk(s) && PlacesOk(s) && RunsOk(s) && ClearsFirst(s, t, n)
    ensures RunsOk(AfterClearOne(s, t, n))
  {
    ClearFirst(s, t, n);
    hide NoDup, Chain, PlacesOk, ChainsOk;
    var s' := AfterClearOne(s, t, n);
    forall m | m in s'.log.runs
      ensures RanOk(s', m)
    {
      assert RanOk(s, m);
    }
  }

  // clear(): done

  lemma ClearDoneLinks(s: State, t: nat)
    requires QueueOk(s) && ChainsOk(s) && t in s.pc && s.pc[t] == Clearing(None)
    ensures QueueOk(AfterClear(s, t)) && ChainsOk(AfterClear(s, t))
  {
    hide Chain, NoDup;
  }

  lemma ClearedChain(s: State, t: nat)
    requires ChainsOk(s) && t in s.pc && s.pc[t] == Clearing(None)
    ensures t in s.log.chains && s.log.chains[t] == []
  {
    hide NoDup;
    assert Chain(s.next, None, s.log.chains[t]);
  }

  lemma ClearDoneThreads(s: State, t: nat)
    requires PlacesOk(s) && t in s.pc && s.pc[t] == Clearing(None)
    ensures forall u :: u in AfterClear(s, t).pc ==> ThreadOk(AfterClear(s, t), u)
  {
    hide NodeOk;
    forall u | u in AfterClear(s, t).pc
      ensures ThreadOk(AfterClear(s, t), u)
    {
      assert ThreadOk(s, u);
    }
  }

  lemma ClearDoneNodes(s: State, t: nat)
    requires PlacesOk(s) && t in s.pc && s.pc[t] == Clearing(None) && t in s.log.chains && s.log.chains[t] == []
    ensures forall m :: m in AfterClear(s, t).log.place ==> NodeOk(AfterClear(s, t), m)
  {
    hide ThreadOk;
    forall m | m in AfterClear(s, t).log.place
      ensures NodeOk(AfterClear(s, t), m)
    {
      assert NodeOk(s, m);
      hide PlacesOk;
      ClearedNode(s, t, m);
    }
  }

  lemma ClearDonePlaces(s: State, t: nat)
    requires ChainsOk(s) && PlacesOk(s) && t in s.pc && s.pc[t] == Clearing(None)
    ensures PlacesOk(AfterClear(s, t))
  {
    ClearedChain(s, t);
    ClearDoneThreads(s, t);
    ClearDoneNodes(s, t);
    ClearDoneLog(s, t);
    hide Chain, NoDup, ChainsOk, PlacesOk, ThreadOk, NodeOk, AfterClear;
    SamePlaces(s, AfterClear(s, t));
  }

  lemma ClearDoneLog(s: State, t: nat)
    requires t in s.pc && s.pc[t] == Clearing(None)
    ensures var r := AfterClear(s, t);
            && r.log.queue == s.log.queue && r.log.place == s.log.place
            && forall u :: u in r.log.chains ==> u in s.log.chains && r.log.chains[u] == s.log.chains[u]
  {
  }

  lemma SamePlaces(s: State, r: State)
    requires PlacesOk(s) && r.log.queue == s.log.queue && r.log.place == s.log.place
    requires forall u :: u in r.log.chains ==> u in s.log.chains && r.log.chains[u] == s.log.chains[u]
    requires forall u :: u in r.pc ==> ThreadOk(r, u)
    requires forall n :: n in r.log.place ==> NodeOk(r, n)
    ensures PlacesOk(r)
  {
    hide ThreadOk, NodeOk;
  }

  lemma ClearedNode(s: State, t: nat, m: nat)
    requires t in s.pc && s.pc[t] == Clearing(None) && t in s.log.chains && s.log.chains[t] == []
    requires m in s.log.place && NodeOk(s, m)
    ensures NodeOk(AfterClear(s, t), m)
  {
  }

  lemma ClearDoneHistory(s: State, t: nat)
    requires StoresOk(s) && OrderOk(s) && RunsOk(s) && ReleasedOk(s) && t in s.pc && s.pc[t] == Clearing(None)
    ensures StoresOk(AfterClear(s, t)) && OrderOk(AfterClear(s, t))
    ensures RunsOk(AfterClear(s, t)) && ReleasedOk(AfterClear(s, t))
  {
    hide NoDup;
    var s' := AfterClear(s, t);
    forall m | m in s'.log.runs
      ensures RanOk(s', m)
    {
      assert RanOk(s, m);
    }
  }

  // ----- all runs -----

  lemma AllocateKeeps(s: State, a: Step)
    requires Safe(s) && Enabled(s, a) && a.Allocate?
    ensures Safe(Apply(s, a))
  {
    hide QueueOk, ChainsOk, PlacesOk, StoresOk, OrderOk, RunsOk, ReleasedOk, MutexOk, AfterAllocate;
    MutexKept(s, a);
    AllocateLinks(s, a.t, a.node, a.inRing);
    AllocatePlaces(s, a.t, a.node, a.inRing);
    AllocateStores(s, a.t, a.node, a.inRing);
    AllocateHistory(s, a.t, a.node, a.inRing);
  }

  lemma PushKeeps(s: State, a: Step)
    requires Safe(s) && Enabled(s, a) && a.Push?
    ensures Safe(Apply(s, a))
  {
    hide QueueOk, ChainsOk, PlacesOk, StoresOk, OrderOk, RunsOk, ReleasedOk, MutexOk, AfterPush;
    var n := s.pc[a.t].node;
    MutexKept(s, a);
    PushQueue(s, a.t, n);
    PushChains(s, a.t, n);
    PushPlaces(s, a.t, n);
    PushesFresh(s, a.t, n);
    BackQueued(s);
    PushStores(s, a.t, n);
    PushOrder(s, a.t, n);
    PushRuns(s, a.t, n);
  }

  lemma PopSomeKeeps(s: State, a: Step)
    requires Safe(s) && Enabled(s, a) && a.Pop? && s.front.Some?
    ensures Safe(Apply(s, a))
  {
    hide QueueOk, ChainsOk, PlacesOk, StoresOk, OrderOk, RunsOk, ReleasedOk, MutexOk, AfterPop;
    MutexKept(s, a);
    var n := s.front.value;
    FrontQueued(s, n);
    PopLinks(s, a.t, n);
    PopPlaces(s, a.t, n);
    PopStores(s, a.t, n);
    PopOrder(s, a.t, n);
    PopRuns(s, a.t, n);
  }

  lemma PopNone(s: State, a: Step)
    requires Safe(s) && Enabled(s, a) && a.Pop? && s.front.None?
    ensures Control(s, Apply(s, a))
  {
    hide Safe;
  }

  lemma PopKeeps(s: State, a: Step)
    requires Safe(s) && Enabled(s, a) && a.Pop?
    ensures Safe(Apply(s, a))
  {
    if s.front.Some? {
      hide Safe;
      PopSomeKeeps(s, a);
    } else {
      MutexKept(s, a);
      PopNone(s, a);
      hide Control, Apply, Enabled, QueueOk, ChainsOk, PlacesOk, StoresOk, OrderOk, RunsOk, ReleasedOk, MutexOk;
      ControlKeeps(s, Apply(s, a));
    }
  }

  lemma InvokeKeeps(s: State, a: Step)
    requires Safe(s) && Enabled(s, a) && a.Invoke?
    ensures Safe(Apply(s, a))
  {
    hide QueueOk, ChainsOk, PlacesOk, StoresOk, OrderOk, RunsOk, ReleasedOk, MutexOk, AfterInvoke;
    var n := s.pc[a.t].node;
    MutexKept(s, a);
    InvokeLinks(s, a.t, n);
    InvokePlaces(s, a.t, n);
    InvokeRuns(s, a.t, n);
  }

  lemma ReleaseKeeps(s: State, a: Step)
    requires Safe(s) && Enabled(s, a) && a.Release?
    ensures Safe(Apply(s, a))
  {
    hide QueueOk, ChainsOk, PlacesOk, StoresOk, OrderOk, RunsOk, ReleasedOk, MutexOk, AfterRelease;
    var n := s.pc[a.t].node;
    MutexKept(s, a);
    ReleaseLinks(s, a.t, n);
    ReleasePlaces(s, a.t, n);
    ReleaseStores(s, a.t, n);
    ReleaseOrder(s, a.t, n);
    ReleaseRuns(s, a.t, n);
  }

  lemma DetachKeeps(s: State, a: Step)
    requires Safe(s) && Enabled(s, a) && a.Detach?
    ensures Safe(Apply(s, a))
  {
    hide QueueOk, ChainsOk, PlacesOk, StoresOk, OrderOk, RunsOk, ReleasedOk, MutexOk, AfterDetach;
    MutexKept(s, a);
    DetachLinks(s, a.t);
    DetachPlaces(s, a.t);
    DetachStores(s, a.t);
    DetachOrder(s, a.t);
    DetachRuns(s, a.t);
  }

  lemma ClearOneKeeps(s: State, a: Step)
    requires Safe(s) && Enabled(s, a) && a.ClearOne?
    ensures Safe(Apply(s, a))
  {
    hide QueueOk, ChainsOk, PlacesOk, StoresOk, OrderOk, RunsOk, ReleasedOk, MutexOk, AfterClearOne, AfterClear;
    MutexKept(s, a);
    match s.pc[a.t].head {
      case Some(n) =>
        ClearFirst(s, a.t, n);
        ClearLinks(s, a.t, n);
        ClearPlaces(s, a.t, n);
        ClearStores(s, a.t, n);
        ClearOrder(s, a.t, n);
        ClearRuns(s, a.t, n);
      case None =>
        ClearDoneLinks(s, a.t);
        ClearDonePlaces(s, a.t);
        ClearDoneHistory(s, a.t);
    }
  }

  /** Every step of every thread keeps the invariant. */
  lemma StepKeeps(s: State, a: Step)
    requires Safe(s) && Enabled(s, a)
    ensures Safe(Apply(s, a))
  {
    hide Safe, Enabled, Apply;
    if IsControl(a) {
      ControlStepKeeps(s, a);
    } else {
      match a
      case Allocate(_, _, _) => AllocateKeeps(s, a);
      case Push(_) => PushKeeps(s, a);
      case Pop(_) => PopKeeps(s, a);
      case Invoke(_) => InvokeKeeps(s, a);
      case Release(_) => ReleaseKeeps(s, a);
      case Detach(_) => DetachKeeps(s, a);
      case ClearOne(_) => ClearOneKeeps(s, a);
    }
  }

  lemma ControlStepKeeps(s: State, a: Step)
    requires Safe(s) && Enabled(s, a) && IsControl(a)
    ensures Safe(Apply(s, a))
  {
    hide Apply;
    MutexKept(s, a);
    ControlSteps(s, a);
    ControlKeeps(s, Apply(s, a));
  }

  lemma InitSafe(threads: set<nat>)
    ensures Safe(Init(threads))
  {
  }

  /** In every reachable state, for any number of threads and any interleaving. */
  lemma {:induction false} RunSafe(threads: set<nat>, steps: seq<Step>)
    requires Execute(threads, steps).Some?
    ensures Safe(Execute(threads, steps).value)
    decreases |steps|
  {
    hide Safe, Enabled, Apply;
    if steps == [] {
      InitSafe(threads);
    } else {
      RunSafe(threads, steps[..|steps| - 1]);
      StepKeeps(Execute(threads, steps[..|steps| - 1]).value, steps[|steps| - 1]);
    }
  }

  /** What the two ends of the queue and every thread point to is not released:
      in particular back_ never names a popped node. */
  lemma {:induction false} NothingDangles(threads: set<nat>, steps: seq<Step>)
    requires Execute(threads, steps).Some?
    ensures var s := Execute(threads, steps).value;
            && (s.front.Some? <==> s.log.queue != []) && (s.back.Some? <==> s.log.queue != [])
            && (s.front.Some? ==> NodeLive(s, s.front.value) && s.front.value in s.log.queue)
            && (s.back.Some? ==> NodeLive(s, s.back.value) && s.back.value in s.log.queue)
            && (forall t :: t in s.pc && s.pc[t].Clearing? && s.pc[t].head.Some? ==> NodeLive(s, s.pc[t].head.value))
            && (forall t :: t in s.pc && (RoleOf(s.pc[t]).Poster? || RoleOf(s.pc[t]).Executor?) ==>
                              NodeLive(s, RoleOf(s.pc[t]).node))
  {
    hide Execute, QueueOk, ChainsOk, PlacesOk, StoresOk, OrderOk, RunsOk, ReleasedOk, MutexOk, NodeLive, RoleOf;
    RunSafe(threads, steps);
    var s := Execute(threads, steps).value;
    EndsLive(s);
    forall t | t in s.pc && s.pc[t].Clearing? && s.pc[t].head.Some?
      ensures NodeLive(s, s.pc[t].head.value)
    {
      ClearFirst(s, t, s.pc[t].head.value);
      PlacedLive(s, s.pc[t].head.value);
    }
    forall t | t in s.pc && (RoleOf(s.pc[t]).Poster? || RoleOf(s.pc[t]).Executor?)
      ensures NodeLive(s, RoleOf(s.pc[t]).node)
    {
      RoleLive(s, t);
    }
  }

  lemma PlacedLive(s: State, n: nat)
    requires StoresOk(s) && n in s.log.place && s.log.place[n] != Released
    ensures NodeLive(s, n)
  {
  }

  lemma RoleLive(s: State, t: nat)
    requires PlacesOk(s) && StoresOk(s) && t in s.pc && (RoleOf(s.pc[t]).Poster? || RoleOf(s.pc[t]).Executor?)
    ensures NodeLive(s, RoleOf(s.pc[t]).node)
  {
    assert ThreadOk(s, t);
    hide PlacesOk, StoresOk, RoleOf, NodeLive;
    PlacedLive(s, RoleOf(s.pc[t]).node);
  }

  lemma EndsLive(s: State)
    requires QueueOk(s) && PlacesOk(s) && StoresOk(s)
    ensures (s.front.Some? <==> s.log.queue != []) && (s.back.Some? <==> s.log.queue != [])
    ensures s.front.Some? ==> s.front.value in s.log.queue && NodeLive(s, s.front.value)
    ensures s.back.Some? ==> s.back.value in s.log.queue && NodeLive(s, s.back.value)
  {
    hide ThreadOk, NodeOk, StoresOk, NodeLive;
    if s.log.queue != [] {
      assert s.log.queue[0] in s.log.queue && s.log.queue[|s.log.queue| - 1] in s.log.queue;
      PlacedLive(s, s.log.queue[0]);
      PlacedLive(s, s.log.queue[|s.log.queue| - 1]);
    }
  }

  /** Messages leave in push order, none twice; no message runs twice, no node is
      released twice, and only messages that left the queue run or are released. */
  lemma {:induction false} OnceInOrder(threads: set<nat>, steps: seq<Step>)
    requires Execute(threads, steps).Some?
    ensures var log := Execute(threads, steps).value.log;
            && log.taken <= log.pushed && NoDup(log.pushed)
            && NoDup(log.runs) && (forall n :: n in log.runs ==> n in log.taken)
            && NoDup(log.released) && (forall n :: n in log.released ==> n in log.taken)
  {
    hide Execute, NoDup, Chain;
    RunSafe(threads, steps);
    var s := Execute(threads, steps).value;
    assert s.log.pushed[..|s.log.taken|] == s.log.taken;
    forall n | n in s.log.runs
      ensures n in s.log.taken
    {
      assert RanOk(s, n);
    }
  }

  /** Nothing leaks: once every thread has let go of its node and the queue is
      empty, both stores are empty and every message posted has been released. */
  lemma {:induction false} NothingLeaks(threads: set<nat>, steps: seq<Step>)
    requires Execute(threads, steps).Some?
    requires var s := Execute(threads, steps).value;
             s.log.queue == [] && forall t :: t in s.pc ==> RoleOf(s.pc[t]) == Nothing
    ensures var s := Execute(threads, steps).value;
            && s.ring == {} && s.heap == {}
            && (forall n :: n in s.log.place ==> n in s.log.released)
            && (forall n :: n in s.log.pushed <==> n in s.log.released)
  {
    hide Execute, NoDup, ChainsOk, NodeOk, ThreadOk, RoleOf, RunsOk, QueueOk;
    RunSafe(threads, steps);
    var s := Execute(threads, steps).value;
    NoChains(s);
    forall n | n in s.log.place
      ensures s.log.place[n] == Released
    {
      RestReleased(s, n);
    }
  }

  lemma NoChains(s: State)
    requires ChainsOk(s) && forall t :: t in s.pc ==> RoleOf(s.pc[t]) == Nothing
    ensures s.log.chains == map[]
  {
    hide Chain, NoDup;
    assert forall t :: t !in s.log.chains;
  }

  lemma RestReleased(s: State, n: nat)
    requires PlacesOk(s) && s.log.chains == map[] && s.log.queue == [] && n in s.log.place
    requires forall t :: t in s.pc ==> RoleOf(s.pc[t]) == Nothing
    ensures s.log.place[n] == Released
  {
    assert NodeOk(s, n);
    hide PlacesOk;
  }
}

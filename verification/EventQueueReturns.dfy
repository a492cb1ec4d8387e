/** Why a consumer of the event queue returns, and what becomes of the messages it
    took, in terms of the steps of the run. */
module EventQueueReturns {
  import opened Wrappers
  import opened EventQueue
  import opened EventQueueSafety

  // ----- the flag -----

  /** Some step has set the flag and none after it has reset it. */
  ghost predicate StoppedBy(steps: seq<Step>) {
    exists m :: 0 <= m < |steps| && steps[m].SetStopped? && forall l :: m < l < |steps| ==> !steps[l].Restart?
  }

  lemma StoppedOneMore(steps: seq<Step>, a: Step)
    ensures StoppedBy(steps + [a]) <==> a.SetStopped? || (StoppedBy(steps) && !a.Restart?)
  {
    var more := steps + [a];
    if a.SetStopped? {
      assert more[|steps|].SetStopped?;
    }
    if StoppedBy(steps) && !a.Restart? {
      var m :| 0 <= m < |steps| && steps[m].SetStopped? && forall l :: m < l < |steps| ==> !steps[l].Restart?;
      assert more[m].SetStopped?;
    }
    if StoppedBy(more) && !a.SetStopped? {
      var m :| 0 <= m < |more| && more[m].SetStopped? && forall l :: m < l < |more| ==> !more[l].Restart?;
      assert steps[m].SetStopped? && m < |steps|;
      assert !more[|steps|].Restart?;
      assert forall l :: m < l < |steps| ==> more[l] == steps[l];
    }
  }

  lemma FlagMoves(s: State, a: Step)
    requires Enabled(s, a)
    ensures Apply(s, a).stopped <==> a.SetStopped? || (s.stopped && !a.Restart?)
  {
    if IsNodeStep(a) {
      NodeKeepsFlag(s, a);
    }
  }

  lemma NodeKeepsFlag(s: State, a: Step)
    requires Enabled(s, a) && IsNodeStep(a)
    ensures Apply(s, a).stopped == s.stopped
  {
  }

  lemma LastStep(threads: set<nat>, steps: seq<Step>)
    requires steps != [] && Execute(threads, steps).Some?
    ensures var before, a := Execute(threads, steps[..|steps| - 1]), steps[|steps| - 1];
            before.Some? && Enabled(before.value, a) && Execute(threads, steps) == Some(Apply(before.value, a))
  {
    hide Enabled, Apply;
  }

  /** The flag says whether the last step that set or reset it set it. */
  lemma {:induction false} StoppedIs(threads: set<nat>, steps: seq<Step>)
    requires Execute(threads, steps).Some?
    ensures Execute(threads, steps).value.stopped <==> StoppedBy(steps)
    decreases |steps|
  {
    if steps != [] {
      var before, a := steps[..|steps| - 1], steps[|steps| - 1];
      LastStep(threads, steps);
      assert steps == before + [a];
      StoppedIs(threads, before);
      StoppedOneMore(before, a);
      FlagMoves(Execute(threads, before).value, a);
      hide StoppedBy, Execute, Enabled, Apply;
    }
  }

  // ----- why a consumer returns -----

  /** In the wait, of this kind. */
  predicate Waits(pc: Pc, kind: WaitKind) {
    pc in {Entering(kind), Checking(kind), Popping(kind), WillSleep(kind), Sleeping(kind), Notified(kind)}
  }

  /** Has taken a message and not run it yet. */
  predicate Carries(pc: Pc) {
    pc.HasMessage? || pc.Running?
  }

  /** Step k lets thread t return from a call of this kind: it runs a message, finds the
      queue stopped, gives up a timed wait, or finds nothing to flush. */
  ghost predicate Reason(threads: set<nat>, steps: seq<Step>, t: nat, kind: WaitKind, k: nat)
    requires k < |steps|
  {
    || steps[k] == Invoke(t)
    || (steps[k] == ReadStopped(t) && StoppedBy(steps[..k]))
    || (kind == Timed && steps[k] == GiveUp(t))
    || (kind == Flush && steps[k] == Pop(t)
        && Execute(threads, steps[..k]).Some? && Execute(threads, steps[..k]).value.log.queue == [])
  }

  ghost predicate Excused(threads: set<nat>, steps: seq<Step>, t: nat, kind: WaitKind, i: nat) {
    exists k :: i < k < |steps| && Reason(threads, steps, t, kind, k)
  }

  lemma ExcusedLater(threads: set<nat>, steps: seq<Step>, a: Step, t: nat, kind: WaitKind, i: nat)
    requires Excused(threads, steps, t, kind, i)
    ensures Excused(threads, steps + [a], t, kind, i)
  {
    var more := steps + [a];
    var k :| i < k < |steps| && Reason(threads, steps, t, kind, k);
    assert more[..k] == steps[..k] && more[k] == steps[k];
    hide Execute, StoppedBy;
    assert Reason(threads, more, t, kind, k);
  }

  /** One step of the thread itself: it goes on waiting, takes a message, or has a reason
      to leave. */
  lemma OwnStep(s: State, a: Step, kind: WaitKind)
    requires Enabled(s, a) && !a.Enter? && (Waits(s.pc[a.t], kind) || Carries(s.pc[a.t]))
    ensures a.t in Apply(s, a).pc
    ensures || Waits(Apply(s, a).pc[a.t], kind) || Carries(Apply(s, a).pc[a.t])
            || a.Invoke? || (a.ReadStopped? && s.stopped)
            || (a.GiveUp? && kind == Timed) || (a.Pop? && kind == Flush && s.front.None?)
  {
    hide Enabled, Apply, Waits, Carries;
    if a.Pop? || a.Unlock? || a.Invoke? {
      OwnTaking(s, a, kind);
    } else if a.Lock? || a.Relock? || a.ReadStopped? || a.GiveUp? {
      OwnWaiting(s, a, kind);
    } else {
      OwnOther(s, a, kind);
    }
  }

  lemma OwnWaiting(s: State, a: Step, kind: WaitKind)
    requires Enabled(s, a) && (a.Lock? || a.Relock? || a.ReadStopped? || a.GiveUp?)
    requires Waits(s.pc[a.t], kind) || Carries(s.pc[a.t])
    ensures a.t in Apply(s, a).pc
    ensures Waits(Apply(s, a).pc[a.t], kind) || (a.ReadStopped? && s.stopped) || (a.GiveUp? && kind == Timed)
  {
  }

  lemma OwnOther(s: State, a: Step, kind: WaitKind)
    requires Enabled(s, a) && !a.Enter? && !a.Pop? && !a.Unlock? && !a.Invoke?
    requires !a.Lock? && !a.Relock? && !a.ReadStopped? && !a.GiveUp?
    requires Waits(s.pc[a.t], kind) || Carries(s.pc[a.t])
    ensures a.t in Apply(s, a).pc && Waits(Apply(s, a).pc[a.t], kind)
  {
  }

  lemma OwnTaking(s: State, a: Step, kind: WaitKind)
    requires Enabled(s, a) && (a.Pop? || a.Unlock? || a.Invoke?) && (Waits(s.pc[a.t], kind) || Carries(s.pc[a.t]))
    ensures a.t in Apply(s, a).pc
    ensures || Waits(Apply(s, a).pc[a.t], kind) || Carries(Apply(s, a).pc[a.t])
            || a.Invoke? || (a.Pop? && kind == Flush && s.front.None?)
  {
  }

  /** Steps of other threads. */
  lemma OthersStep(s: State, a: Step, t: nat, kind: WaitKind)
    requires Enabled(s, a) && a.t != t && t in s.pc && (Waits(s.pc[t], kind) || Carries(s.pc[t]))
    ensures t in Apply(s, a).pc && (Waits(Apply(s, a).pc[t], kind) || Carries(Apply(s, a).pc[t]))
  {
    if !a.NotifyOne? && !a.NotifyAll? {
      MovesOne(s, a);
      hide Apply, Enabled;
    }
  }

  lemma EntersWaiting(s: State, a: Step)
    requires Enabled(s, a) && a.Enter?
    ensures a.t in Apply(s, a).pc && Waits(Apply(s, a).pc[a.t], a.kind)
  {
  }

  lemma FrontMeans(threads: set<nat>, steps: seq<Step>)
    requires Execute(threads, steps).Some?
    ensures var s := Execute(threads, steps).value; s.front.None? <==> s.log.queue == []
  {
    RunSafe(threads, steps);
    hide Execute, ChainsOk, PlacesOk, StoresOk, OrderOk, RunsOk, ReleasedOk, MutexOk;
  }

  /** From its last entry on, a consumer waits, carries a message, or has had a reason to
      return. */
  lemma {:induction false} WaitsOrReason(threads: set<nat>, steps: seq<Step>, t: nat, i: nat)
    requires Execute(threads, steps).Some? && i < |steps| && steps[i].Enter? && steps[i].t == t
    requires forall j :: i < j < |steps| && steps[j].t == t ==> !steps[j].Enter?
    ensures var s, kind := Execute(threads, steps).value, steps[i].kind;
            t in s.pc && (Waits(s.pc[t], kind) || Carries(s.pc[t]) || Excused(threads, steps, t, kind, i))
    decreases |steps|
  {
    hide *;
    var n := |steps| - 1;
    var before, a, kind := steps[..n], steps[n], steps[i].kind;
    LastStep(threads, steps);
    assert steps == before + [a];
    var s := Execute(threads, before).value;
    if i == n {
      EntersWaiting(s, a);
    } else {
      WaitsOrReason(threads, before, t, i);
      if Excused(threads, before, t, kind, i) {
        ThreadStays(s, a, t);
        ExcusedLater(threads, before, a, t, kind, i);
      } else if a.t == t {
        OwnStep(s, a, kind);
        OwnReason(threads, before, a, kind, i);
      } else {
        OthersStep(s, a, t, kind);
      }
    }
  }

  /** What let the thread leave is a reason. */
  lemma {:induction false} OwnReason(threads: set<nat>, before: seq<Step>, a: Step, kind: WaitKind, i: nat)
    requires Execute(threads, before).Some? && i < |before|
    ensures var s := Execute(threads, before).value;
            a.Invoke? || (a.ReadStopped? && s.stopped) || (a.GiveUp? && kind == Timed)
            || (a.Pop? && kind == Flush && s.front.None?) ==>
              Excused(threads, before + [a], a.t, kind, i)
  {
    hide Execute, StoppedBy;
    StoppedIs(threads, before);
    FrontMeans(threads, before);
    var more, n := before + [a], |before|;
    assert more[n] == a && more[..n] == before;
    if Reason(threads, more, a.t, kind, n) {
      assert Excused(threads, more, a.t, kind, i);
    }
  }

  lemma ThreadStays(s: State, a: Step, t: nat)
    requires Enabled(s, a) && t in s.pc
    ensures t in Apply(s, a).pc
  {
    if !a.NotifyOne? && !a.NotifyAll? {
      MovesOne(s, a);
      hide Apply, Enabled;
    }
  }

  /** A consumer that has returned, since it last entered, has run a message or found the
      queue stopped; a timed one may have given up, and a flushing one found it empty. */
  lemma {:induction false} ReturnsForReason(threads: set<nat>, steps: seq<Step>, t: nat, i: nat)
    requires Execute(threads, steps).Some? && i < |steps| && steps[i].Enter? && steps[i].t == t
    requires forall j :: i < j < |steps| && steps[j].t == t ==> !steps[j].Enter?
    requires t in Execute(threads, steps).value.pc && Execute(threads, steps).value.pc[t] == Idle
    ensures exists k :: i < k < |steps| && Reason(threads, steps, t, steps[i].kind, k)
  {
    hide Execute, Reason;
    WaitsOrReason(threads, steps, t, i);
  }

  // ----- flushing does not wait -----

  ghost predicate NoFlushSleeps(s: State) {
    forall t :: t in s.pc ==> s.pc[t] !in {WillSleep(Flush), Sleeping(Flush), Notified(Flush)}
  }

  lemma FlushStep(s: State, a: Step)
    requires Enabled(s, a) && NoFlushSleeps(s)
    ensures NoFlushSleeps(Apply(s, a))
  {
    var s' := Apply(s, a);
    forall t | t in s'.pc
      ensures s'.pc[t] !in {WillSleep(Flush), Sleeping(Flush), Notified(Flush)}
    {
      if a.NotifyOne? || a.NotifyAll? {
        WokenFlush(s, a, t);
      } else {
        MovesOne(s, a);
        OwnFlush(s, a);
        hide Apply, Enabled;
      }
    }
  }

  lemma WokenFlush(s: State, a: Step, t: nat)
    requires Enabled(s, a) && NoFlushSleeps(s) && (a.NotifyOne? || a.NotifyAll?) && t in Apply(s, a).pc
    ensures Apply(s, a).pc[t] !in {WillSleep(Flush), Sleeping(Flush), Notified(Flush)}
  {
  }

  lemma OwnFlush(s: State, a: Step)
    requires Enabled(s, a) && !a.NotifyOne? && !a.NotifyAll?
    requires s.pc[a.t] !in {WillSleep(Flush), Sleeping(Flush), Notified(Flush)}
    ensures a.t in Apply(s, a).pc && Apply(s, a).pc[a.t] !in {WillSleep(Flush), Sleeping(Flush), Notified(Flush)}
  {
    if IsNodeStep(a) {
      OwnFlushNode(s, a);
    }
  }

  lemma OwnFlushNode(s: State, a: Step)
    requires Enabled(s, a) && IsNodeStep(a)
    ensures a.t in Apply(s, a).pc && Apply(s, a).pc[a.t] !in {WillSleep(Flush), Sleeping(Flush), Notified(Flush)}
  {
  }

  /** In every reachable state. */
  lemma {:induction false} FlushNeverSleeps(threads: set<nat>, steps: seq<Step>)
    requires Execute(threads, steps).Some?
    ensures NoFlushSleeps(Execute(threads, steps).value)
    decreases |steps|
  {
    if steps != [] {
      LastStep(threads, steps);
      FlushNeverSleeps(threads, steps[..|steps| - 1]);
      FlushStep(Execute(threads, steps[..|steps| - 1]).value, steps[|steps| - 1]);
      hide Enabled, Apply, Execute, NoFlushSleeps;
    }
  }

  // ----- what was popped is run -----

  /** Some thread has taken the message from the front, to run it. */
  ghost predicate PoppedBy(threads: set<nat>, steps: seq<Step>, n: nat) {
    exists k :: && 0 <= k < |steps| && steps[k].Pop?
                && Execute(threads, steps[..k]).Some? && Execute(threads, steps[..k]).value.front == Some(n)
  }

  /** A message in a thread's hands, or run. */
  ghost predicate RunOrHeld(s: State, n: nat) {
    n in s.log.place && (s.log.place[n].Executing? || n in s.log.runs)
  }

  lemma HeldStep(s: State, a: Step, n: nat)
    requires Safe(s) && Enabled(s, a) && (RunOrHeld(s, n) || (a.Pop? && s.front == Some(n)))
    ensures RunOrHeld(Apply(s, a), n)
  {
    hide QueueOk, ChainsOk, PlacesOk, StoresOk, OrderOk, RunsOk, ReleasedOk, MutexOk, RunOrHeld, Apply;
    if IsControl(a) {
      ControlSteps(s, a);
      HeldSame(s, Apply(s, a), n);
    } else if a.Pop? {
      if s.front == Some(n) {
        FrontQueued(s, n);
      }
      HeldPop(s, a, n);
    } else if a.Push? {
      PushesFresh(s, a.t, s.pc[a.t].node);
      HeldPush(s, a, n);
    } else if a.Allocate? {
      NotPlaced(s, a.node);
      HeldAllocate(s, a, n);
    } else if a.Release? {
      ReleasesRun(s, a.t);
      HeldRelease(s, a, n);
    } else if a.ClearOne? {
      if s.pc[a.t].head.Some? {
        ClearFirst(s, a.t, s.pc[a.t].head.value);
      }
      HeldClear(s, a, n);
    } else {
      HeldRest(s, a, n);
    }
  }

  lemma HeldSame(s: State, s': State, n: nat)
    requires Control(s, s') && RunOrHeld(s, n)
    ensures RunOrHeld(s', n)
  {
    hide SameRole;
  }

  lemma NotPlaced(s: State, n: nat)
    requires StoresOk(s) && n !in s.next
    ensures n !in s.log.place
  {
  }

  lemma HeldPop(s: State, a: Step, n: nat)
    requires Enabled(s, a) && a.Pop? && (RunOrHeld(s, n) || s.front == Some(n))
    requires s.front == Some(n) ==> n in s.log.place
    ensures RunOrHeld(Apply(s, a), n)
  {
  }

  lemma HeldPush(s: State, a: Step, n: nat)
    requires Enabled(s, a) && a.Push? && RunOrHeld(s, n)
    requires s.pc[a.t].node in s.log.place && s.log.place[s.pc[a.t].node] == Fresh(a.t)
    ensures RunOrHeld(Apply(s, a), n)
  {
  }

  lemma HeldAllocate(s: State, a: Step, n: nat)
    requires Enabled(s, a) && a.Allocate? && RunOrHeld(s, n) && a.node !in s.log.place
    ensures RunOrHeld(Apply(s, a), n)
  {
  }

  lemma ReleasesRun(s: State, t: nat)
    requires PlacesOk(s) && RunsOk(s) && t in s.pc && s.pc[t].Ran?
    ensures s.pc[t].node in s.log.runs
    ensures s.pc[t].node in s.log.place && s.log.place[s.pc[t].node] == Executing(t)
  {
    assert ThreadOk(s, t);
    hide PlacesOk, NoDup;
  }

  lemma HeldClear(s: State, a: Step, n: nat)
    requires Enabled(s, a) && a.ClearOne? && RunOrHeld(s, n)
    requires s.pc[a.t].head.Some? ==>
               s.pc[a.t].head.value in s.log.place && s.log.place[s.pc[a.t].head.value] == Chained(a.t)
    ensures RunOrHeld(Apply(s, a), n)
  {
  }

  lemma HeldRelease(s: State, a: Step, n: nat)
    requires Enabled(s, a) && a.Release? && RunOrHeld(s, n) && s.pc[a.t].node in s.log.runs
    requires s.pc[a.t].node in s.log.place && s.log.place[s.pc[a.t].node] == Executing(a.t)
    ensures RunOrHeld(Apply(s, a), n)
  {
  }

  lemma HeldRest(s: State, a: Step, n: nat)
    requires PlacesOk(s) && Enabled(s, a) && (a.Invoke? || a.Detach?) && RunOrHeld(s, n)
    ensures RunOrHeld(Apply(s, a), n)
  {
    hide ThreadOk, NodeOk;
  }

  /** Every message that a consumer took from the queue is in its hands or has been run: it
      is not released unrun. */
  lemma {:induction false} PoppedIsRun(threads: set<nat>, steps: seq<Step>, n: nat)
    requires Execute(threads, steps).Some? && PoppedBy(threads, steps, n)
    ensures RunOrHeld(Execute(threads, steps).value, n)
    decreases |steps|
  {
    var last := |steps| - 1;
    var before, a := steps[..last], steps[last];
    LastStep(threads, steps);
    PoppedBefore(threads, steps, n);
    RunSafe(threads, before);
    hide Safe, Execute, Enabled, Apply, RunOrHeld, PoppedBy;
    if PoppedBy(threads, before, n) {
      PoppedIsRun(threads, before, n);
    }
    HeldStep(Execute(threads, before).value, a, n);
  }

  /** It was popped earlier, or is now. */
  lemma {:induction false} PoppedBefore(threads: set<nat>, steps: seq<Step>, n: nat)
    requires PoppedBy(threads, steps, n) && Execute(threads, steps[..|steps| - 1]).Some?
    ensures var before, a := steps[..|steps| - 1], steps[|steps| - 1];
            PoppedBy(threads, before, n) || (a.Pop? && Execute(threads, before).value.front == Some(n))
  {
    hide Execute;
    var before := steps[..|steps| - 1];
    var k :| 0 <= k < |steps| && steps[k].Pop?
             && Execute(threads, steps[..k]).Some? && Execute(threads, steps[..k]).value.front == Some(n);
    if k < |before| {
      assert before[..k] == steps[..k] && before[k] == steps[k];
    }
  }

  // ----- threads move -----

  /** A thread that does not sleep can take a step, unless it is about to take the mutex and
      another thread holds it. */
  lemma ThreadMoves(s: State, t: nat) returns (a: Step)
    requires t in s.pc && !s.pc[t].Sleeping?
    requires s.pc[t].Posting? || s.pc[t].Entering? || s.pc[t].Notified? ==> s.mutex == None
    ensures a.t == t && Enabled(s, a)
  {
    match s.pc[t]
    case Idle => a := Enter(t, Forever);
    case Posting(_) => a := LockPost(t);
    case Entering(_) => a := Lock(t);
    case Notified(_) => a := Relock(t);
    case Running(_) => a := Invoke(t);
    case Ran(_) => a := Release(t);
    case Clearing(_) => a := ClearOne(t);
    case Pushing(_) => a := Push(t);
    case Notifying => a := Notification(s, t);
    case Checking(_) => a := ReadStopped(t);
    case Popping(_) => a := Pop(t);
    case WillSleep(_) => a := EventQueue.Sleep(t);
    case Leaving => a := Unlock(t);
    case HasMessage(_) => a := Unlock(t);
    case Stopping => a := SetStopped(t);
    case StopSet => a := NotifyAll(t);
  }

  lemma Notification(s: State, t: nat) returns (a: Step)
    requires t in s.pc && s.pc[t] == Notifying
    ensures a.t == t && Enabled(s, a)
  {
    if u :| u in s.pc && s.pc[u].Sleeping? {
      a := NotifyOne(t, Some(u));
    } else {
      a := NotifyOne(t, None);
    }
  }

  /** An idle thread can begin any call. */
  lemma IdleBegins(s: State, t: nat, node: nat, inRing: bool, kind: WaitKind)
    requires t in s.pc && s.pc[t] == Idle && node !in s.next
    ensures Enabled(s, Allocate(t, node, inRing)) && Enabled(s, Enter(t, kind)) && Enabled(s, Detach(t))
    ensures Enabled(s, Restart(t)) && (s.mutex == None ==> Enabled(s, LockStop(t)))
  {
  }

  lemma RunOneMore(threads: set<nat>, steps: seq<Step>, s: State, a: Step)
    requires Execute(threads, steps) == Some(s) && Enabled(s, a)
    ensures Execute(threads, steps + [a]) == Some(Apply(s, a))
  {
    assert (steps + [a])[..|steps|] == steps;
    hide Enabled, Apply;
  }

  /** A thread posts a message. */
  function PostSteps(t: nat, n: nat, inRing: bool): seq<Step> {
    [Allocate(t, n, inRing), LockPost(t), Push(t), NotifyOne(t, None)]
  }

  /** Then it executes one, in whichever way. */
  function ExecSteps(t: nat, kind: WaitKind): seq<Step> {
    [Enter(t, kind), Lock(t), ReadStopped(t), Pop(t), Unlock(t), Invoke(t), Release(t)]
  }

  /** Steps one after the other from a state; None if one is not enabled. */
  function From(s: State, steps: seq<Step>): Option<State>
    decreases |steps|
  {
    if steps == [] then Some(s)
    else if Enabled(s, steps[0]) then From(Apply(s, steps[0]), steps[1..])
    else None
  }

  lemma {:induction false} FromRuns(threads: set<nat>, done: seq<Step>, s: State, steps: seq<Step>)
    requires Execute(threads, done) == Some(s) && From(s, steps).Some?
    ensures Execute(threads, done + steps) == From(s, steps)
    decreases |steps|
  {
    hide Enabled, Apply, Execute;
    if steps == [] {
      assert done + steps == done;
    } else {
      RunOneMore(threads, done, s, steps[0]);
      FromRuns(threads, done + [steps[0]], Apply(s, steps[0]), steps[1..]);
      assert done + [steps[0]] + steps[1..] == done + steps;
    }
  }

  lemma FromOne(s: State, a: Step, steps: seq<Step>)
    requires Enabled(s, a)
    ensures From(s, [a] + steps) == From(Apply(s, a), steps)
  {
    assert ([a] + steps)[1..] == steps;
    hide Enabled, Apply;
  }

  /** What a post by a lone thread leaves. */
  lemma PostRuns(s: State, t: nat, n: nat, inRing: bool)
    requires s == Init({t})
    ensures var r := From(s, PostSteps(t, n, inRing));
            && r.Some? && t in r.value.pc && r.value.pc[t] == Idle && r.value.mutex == None && !r.value.stopped
            && r.value.front == Some(n) && r.value.log.runs == [] && r.value.log.released == []
  {
    hide Enabled, Apply, Init;
    var s1, s2 := PostBegins(s, t, n, inRing);
    var s3, s4 := PostEnds(s2, t, n);
    FourFrom(s, Allocate(t, n, inRing), s1, LockPost(t), s2, Push(t), s3, NotifyOne(t, None), s4, []);
    assert PostSteps(t, n, inRing) == [Allocate(t, n, inRing), LockPost(t), Push(t), NotifyOne(t, None)] + [];
  }

  lemma PostBegins(s: State, t: nat, n: nat, inRing: bool) returns (s1: State, s2: State)
    requires s == Init({t})
    ensures Enabled(s, Allocate(t, n, inRing)) && Apply(s, Allocate(t, n, inRing)) == s1
    ensures Enabled(s1, LockPost(t)) && Apply(s1, LockPost(t)) == s2
    ensures s2.pc == map[t := Pushing(n)] && s2.front == None && !s2.stopped
    ensures s2.log.runs == [] && s2.log.released == []
  {
    s1 := AfterAllocate(s, t, n, inRing);
    s2 := GotoLocked(s1, t, Pushing(n));
  }

  lemma PostEnds(s2: State, t: nat, n: nat) returns (s3: State, s4: State)
    requires s2.pc == map[t := Pushing(n)] && s2.front == None && !s2.stopped
    ensures Enabled(s2, Push(t)) && Apply(s2, Push(t)) == s3
    ensures Enabled(s3, NotifyOne(t, None)) && Apply(s3, NotifyOne(t, None)) == s4
    ensures t in s4.pc && s4.pc[t] == Idle && s4.mutex == None && !s4.stopped && s4.front == Some(n)
    ensures s4.log.runs == s2.log.runs && s4.log.released == s2.log.released
  {
    s3 := AfterPush(s2, t, n);
    s4 := GotoUnlocked(s3, t, Idle);
  }

  lemma FourFrom(s: State, a: Step, s1: State, b: Step, s2: State, c: Step, s3: State, d: Step, s4: State,
      rest: seq<Step>)
    requires Enabled(s, a) && Apply(s, a) == s1 && Enabled(s1, b) && Apply(s1, b) == s2
    requires Enabled(s2, c) && Apply(s2, c) == s3 && Enabled(s3, d) && Apply(s3, d) == s4
    ensures From(s, [a, b, c, d] + rest) == From(s4, rest)
  {
    hide Enabled, Apply;
    assert [a, b, c, d] + rest == [a] + ([b] + ([c] + ([d] + rest)));
    FromOne(s, a, [b] + ([c] + ([d] + rest)));
    FromOne(s1, b, [c] + ([d] + rest));
    FromOne(s2, c, [d] + rest);
    FromOne(s3, d, rest);
    hide From;
  }

  /** A call that finds a message takes it from the front. */
  lemma TakeRuns(s: State, t: nat, n: nat, kind: WaitKind) returns (r: State)
    requires t in s.pc && s.pc[t] == Idle && s.mutex == None && !s.stopped && s.front == Some(n)
    ensures From(s, ExecSteps(t, kind)) == From(r, [Unlock(t), Invoke(t), Release(t)])
    ensures t in r.pc && r.pc[t] == HasMessage(n) && r.log.runs == s.log.runs && r.log.released == s.log.released
  {
    hide Enabled, Apply, From;
    var s1, s2, s3 := ChecksFirst(s, t, n, kind);
    r := PopsIt(s3, t, n, kind);
    FourFrom(s, Enter(t, kind), s1, Lock(t), s2, ReadStopped(t), s3, Pop(t), r, [Unlock(t), Invoke(t), Release(t)]);
    assert ExecSteps(t, kind) == [Enter(t, kind), Lock(t), ReadStopped(t), Pop(t)] + [Unlock(t), Invoke(t), Release(t)];
  }

  lemma PopsIt(s: State, t: nat, n: nat, kind: WaitKind) returns (r: State)
    requires t in s.pc && s.pc[t] == Popping(kind) && s.front == Some(n)
    ensures Enabled(s, Pop(t)) && Apply(s, Pop(t)) == r
    ensures t in r.pc && r.pc[t] == HasMessage(n) && r.log.runs == s.log.runs && r.log.released == s.log.released
  {
    r := AfterPop(s, t, n);
  }

  lemma ChecksFirst(s: State, t: nat, n: nat, kind: WaitKind) returns (s1: State, s2: State, s3: State)
    requires t in s.pc && s.pc[t] == Idle && s.mutex == None && !s.stopped && s.front == Some(n)
    ensures Enabled(s, Enter(t, kind)) && Apply(s, Enter(t, kind)) == s1
    ensures Enabled(s1, Lock(t)) && Apply(s1, Lock(t)) == s2
    ensures Enabled(s2, ReadStopped(t)) && Apply(s2, ReadStopped(t)) == s3
    ensures t in s3.pc && s3.pc[t] == Popping(kind) && s3.front == Some(n) && s3.log == s.log
  {
    s1 := Goto(s, t, Entering(kind));
    s2 := GotoLocked(s1, t, Checking(kind));
    s3 := Goto(s2, t, Popping(kind));
  }

  /** A message in hand is run and released. */
  lemma FinishRuns(s: State, t: nat, n: nat)
    requires t in s.pc && s.pc[t] == HasMessage(n)
    ensures var r := From(s, [Unlock(t), Invoke(t), Release(t)]);
            && r.Some? && t in r.value.pc && r.value.pc[t] == Idle
            && r.value.log.runs == s.log.runs + [n] && r.value.log.released == s.log.released + [n]
  {
    var s1, s2, s3 := RunsIt(s, t, n);
    hide Enabled, Apply;
    FromOne(s, Unlock(t), [Invoke(t), Release(t)]);
    FromOne(s1, Invoke(t), [Release(t)]);
    FromOne(s2, Release(t), []);
    assert [Unlock(t), Invoke(t), Release(t)] == [Unlock(t)] + [Invoke(t), Release(t)];
    assert [Invoke(t), Release(t)] == [Invoke(t)] + [Release(t)] && [Release(t)] == [Release(t)] + [];
    assert From(s3, []) == Some(s3);
    hide From;
  }

  lemma RunsIt(s: State, t: nat, n: nat) returns (s1: State, s2: State, s3: State)
    requires t in s.pc && s.pc[t] == HasMessage(n)
    ensures Enabled(s, Unlock(t)) && Apply(s, Unlock(t)) == s1
    ensures Enabled(s1, Invoke(t)) && Apply(s1, Invoke(t)) == s2
    ensures Enabled(s2, Release(t)) && Apply(s2, Release(t)) == s3
    ensures t in s3.pc && s3.pc[t] == Idle
    ensures s3.log.runs == s.log.runs + [n] && s3.log.released == s.log.released + [n]
  {
    s1 := GotoUnlocked(s, t, Running(n));
    s2 := AfterInvoke(s1, t, n);
    s3 := AfterRelease(s2, t, n);
  }

  /** A thread that posts a message and then executes one, by any call, runs and releases
      it: these steps are a run. */
  lemma {:induction false} PostThenExec(t: nat, n: nat, inRing: bool, kind: WaitKind)
    ensures var r := Execute({t}, PostSteps(t, n, inRing) + ExecSteps(t, kind));
            && r.Some? && t in r.value.pc && r.value.pc[t] == Idle
            && r.value.log.runs == [n] && r.value.log.released == [n]
  {
    hide Enabled, Apply, PostSteps, ExecSteps, From;
    var start := Init({t});
    assert Execute({t}, []) == Some(start);
    hide Execute;
    PostRuns(start, t, n, inRing);
    FromRuns({t}, [], start, PostSteps(t, n, inRing));
    assert [] + PostSteps(t, n, inRing) == PostSteps(t, n, inRing);
    var posted := From(start, PostSteps(t, n, inRing)).value;
    var taken := TakeRuns(posted, t, n, kind);
    FinishRuns(taken, t, n);
    FromRuns({t}, PostSteps(t, n, inRing), posted, ExecSteps(t, kind));
  }
}

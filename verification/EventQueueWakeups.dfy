/** No wake-up is lost: while messages wait, either nobody sleeps un-notified or
    enough notified threads are on their way. */
module EventQueueWakeups {
  import opened Wrappers
  import opened EventQueue
  import opened EventQueueSafety

  function Sleepers(pc: map<nat, Pc>): set<nat> {
    set t | t in pc && pc[t].Sleeping?
  }

  function Awake(pc: map<nat, Pc>): set<nat> {
    set t | t in pc && pc[t].Notified?
  }

  /** The thread in the critical region, if it is about to notify or to look into
      the queue: one wake-up in progress. */
  predicate InProgress(pc: Pc) {
    pc == Notifying || pc.Checking? || pc.Popping?
  }

  function Credit(s: State): nat {
    if s.mutex.Some? && s.mutex.value in s.pc && InProgress(s.pc[s.mutex.value]) then 1 else 0
  }

  ghost predicate EnoughAwake(s: State) {
    s.log.queue == [] || Sleepers(s.pc) == {} || |Awake(s.pc)| + Credit(s) >= |s.log.queue|
  }

  /** After stop() has notified, nobody sleeps until the restart. */
  ghost predicate StopWakes(s: State) {
    s.stopped ==> Sleepers(s.pc) == {} || exists t :: t in s.pc && s.pc[t] == StopSet
  }

  /** A thread goes to sleep only on an empty, running queue. */
  ghost predicate SleepsRightly(s: State) {
    forall t :: t in s.pc ==>
      && (s.pc[t].WillSleep? ==> s.log.queue == [] && !s.stopped)
      && (s.pc[t].Popping? ==> !s.stopped)
  }

  ghost predicate WakeOk(s: State) {
    EnoughAwake(s) && StopWakes(s) && SleepsRightly(s)
  }

  // ----- how the two sets change -----

  predicate Waits(pc: Pc) {
    pc.Sleeping? || pc.Notified?
  }

  lemma SetsSame(pc: map<nat, Pc>, t: nat, p: Pc)
    requires t in pc && !Waits(pc[t]) && !Waits(p)
    ensures Sleepers(pc[t := p]) == Sleepers(pc) && Awake(pc[t := p]) == Awake(pc)
  {
  }

  lemma SetsWake(pc: map<nat, Pc>, t: nat, p: Pc)
    requires t in pc && pc[t].Sleeping? && p.Notified?
    ensures Sleepers(pc[t := p]) == Sleepers(pc) - {t}
    ensures |Awake(pc[t := p])| == |Awake(pc)| + 1
  {
    assert Awake(pc[t := p]) == Awake(pc) + {t};
  }

  lemma SetsRelock(pc: map<nat, Pc>, t: nat, p: Pc)
    requires t in pc && pc[t].Notified? && !Waits(p)
    ensures Sleepers(pc[t := p]) == Sleepers(pc)
    ensures |Awake(pc[t := p])| == |Awake(pc)| - 1
  {
    assert Awake(pc) == Awake(pc[t := p]) + {t};
  }

  // ----- steps -----

  /** What a step does to the queue. */
  lemma QueueEffect(s: State, a: Step)
    requires Enabled(s, a) && QueueOk(s)
    ensures var q, q' := s.log.queue, Apply(s, a).log.queue;
            && (a.Push? ==> |q'| == |q| + 1)
            && (a.Pop? && s.front.Some? ==> |q'| == |q| - 1)
            && (a.Pop? && s.front.None? ==> q == [] && q' == [])
            && (a.Detach? ==> q' == [])
            && (!a.Push? && !a.Pop? && !a.Detach? ==> q' == q)
  {
    hide NoDup;
    if IsControl(a) {
      hide QueueOk, Apply, Enabled, RoleOf;
      ControlSteps(s, a);
    } else if a.Invoke? || a.Release? || a.Allocate? || a.ClearOne? {
      hide QueueOk;
      QueueKept(s, a);
    }
  }

  lemma QueueKept(s: State, a: Step)
    requires Enabled(s, a) && (a.Invoke? || a.Release? || a.Allocate? || a.ClearOne?)
    ensures Apply(s, a).log.queue == s.log.queue
  {
  }

  /** Which steps change the flag. */
  lemma FlagEffect(s: State, a: Step)
    requires Enabled(s, a)
    ensures Apply(s, a).stopped == if a.SetStopped? then true else if a.Restart? then false else s.stopped
  {
  }

  predicate MovesSets(a: Step) {
    a.Sleep? || a.Wake? || a.Relock? || a.NotifyAll? || (a.NotifyOne? && a.woken.Some?)
  }

  lemma SetsEffect(s: State, a: Step)
    requires Enabled(s, a) && !MovesSets(a)
    ensures Sleepers(Apply(s, a).pc) == Sleepers(s.pc) && Awake(Apply(s, a).pc) == Awake(s.pc)
  {
    hide Sleepers, Awake;
    assert a.t in Apply(s, a).pc;
    var p' := Apply(s, a).pc[a.t];
    assert Apply(s, a).pc == s.pc[a.t := p'] && !Waits(p') && !Waits(s.pc[a.t]);
    SetsSame(s.pc, a.t, p');
  }

  /** The wake-up in progress, before and after. */
  lemma CreditEffect(s: State, a: Step)
    requires Enabled(s, a) && MutexOk(s) && !MovesSets(a)
    ensures var s' := Apply(s, a);
            && (a.Push? ==> Credit(s') == 1 && Credit(s) == 0)
            && (a.Pop? ==> Credit(s') == 0 && Credit(s) == 1)
            && (!a.Pop? && !a.NotifyOne? && !(a.ReadStopped? && s.stopped) ==> Credit(s') >= Credit(s))
  {
    assert s.mutex == Some(a.t) <==> Holds(s.pc[a.t]);
    hide MutexOk;
  }

  lemma PlainEnough(s: State, a: Step)
    requires Safe(s) && WakeOk(s) && Enabled(s, a) && !MovesSets(a)
    ensures EnoughAwake(Apply(s, a))
  {
    QueueEffect(s, a);
    SetsEffect(s, a);
    CreditEffect(s, a);
    if a.NotifyOne? {
      assert Sleepers(s.pc) == {};
    } else if a.ReadStopped? && s.stopped {
      assert s.mutex == Some(a.t);
      assert forall t :: t in s.pc && s.pc[t] == StopSet ==> s.mutex == Some(t);
    }
    hide Apply, Enabled, Sleepers, Awake, Credit, Safe, SleepsRightly;
  }

  lemma NotifyOneEnough(s: State, a: Step)
    requires Safe(s) && WakeOk(s) && Enabled(s, a) && a.NotifyOne? && a.woken.Some?
    ensures EnoughAwake(Apply(s, a))
  {
    var u := a.woken.value;
    var mid := s.pc[u := Notified(s.pc[u].kind)];
    SetsWake(s.pc, u, mid[u]);
    SetsSame(mid, a.t, Idle);
    assert Apply(s, a).pc == mid[a.t := Idle];
    QueueEffect(s, a);
    assert s.mutex == Some(a.t);
    hide Safe, SleepsRightly, StopWakes;
  }

  lemma NotifyAllWakes(s: State, a: Step)
    requires Enabled(s, a) && a.NotifyAll?
    ensures Sleepers(Apply(s, a).pc) == {}
  {
  }

  lemma SleepEnough(s: State, a: Step)
    requires Safe(s) && WakeOk(s) && Enabled(s, a) && a.Sleep?
    ensures Apply(s, a).log.queue == [] && !Apply(s, a).stopped
  {
    hide Safe;
  }

  lemma WakeEnough(s: State, a: Step)
    requires Safe(s) && WakeOk(s) && Enabled(s, a) && a.Wake?
    ensures EnoughAwake(Apply(s, a))
    ensures Sleepers(Apply(s, a).pc) <= Sleepers(s.pc)
  {
    SetsWake(s.pc, a.t, Notified(s.pc[a.t].kind));
    hide Safe, SleepsRightly, StopWakes;
    assert s.mutex != Some(a.t) || Credit(s) == 0;
    hide Sleepers, Awake;
  }

  lemma RelockEnough(s: State, a: Step)
    requires Safe(s) && WakeOk(s) && Enabled(s, a) && a.Relock?
    ensures EnoughAwake(Apply(s, a))
    ensures Sleepers(Apply(s, a).pc) == Sleepers(s.pc)
  {
    SetsRelock(s.pc, a.t, Checking(s.pc[a.t].kind));
    hide Safe, SleepsRightly, StopWakes, Sleepers, Awake;
  }

  lemma StepEnough(s: State, a: Step)
    requires Safe(s) && WakeOk(s) && Enabled(s, a)
    ensures EnoughAwake(Apply(s, a))
  {
    hide Safe, WakeOk, Enabled, Apply, Sleepers, Awake, Credit;
    if a.Sleep? {
      SleepEnough(s, a);
    } else if a.Wake? {
      WakeEnough(s, a);
    } else if a.Relock? {
      RelockEnough(s, a);
    } else if a.NotifyAll? {
      NotifyAllWakes(s, a);
    } else if a.NotifyOne? && a.woken.Some? {
      NotifyOneEnough(s, a);
    } else {
      PlainEnough(s, a);
    }
  }

  lemma StepStop(s: State, a: Step)
    requires Safe(s) && WakeOk(s) && Enabled(s, a)
    ensures StopWakes(Apply(s, a))
  {
    hide Safe, EnoughAwake, Awake, Credit;
    var s' := Apply(s, a);
    FlagEffect(s, a);
    if a.NotifyAll? {
      NotifyAllWakes(s, a);
    } else if a.SetStopped? {
      assert s'.pc[a.t] == StopSet;
    } else if a.Sleep? {
      SleepEnough(s, a);
    } else if s'.stopped {
      FewerSleepers(s, a);
      if t :| t in s.pc && s.pc[t] == StopSet {
        StopSetStays(s, a, t);
      }
    }
  }

  lemma FewerSleepers(s: State, a: Step)
    requires Enabled(s, a) && !a.Sleep?
    ensures Sleepers(Apply(s, a).pc) <= Sleepers(s.pc)
  {
    if !MovesSets(a) {
      SetsEffect(s, a);
    }
  }

  lemma StopSetStays(s: State, a: Step, t: nat)
    requires Enabled(s, a) && !a.NotifyAll? && t in s.pc && s.pc[t] == StopSet
    ensures t in Apply(s, a).pc && Apply(s, a).pc[t] == StopSet
  {
    assert t != a.t;
    hide Enabled;
    if !a.NotifyOne? {
      MovesOne(s, a);
      hide Apply;
    } else {
      NotifyOneLeaves(s, a, t);
    }
  }

  lemma NotifyOneLeaves(s: State, a: Step, t: nat)
    requires Enabled(s, a) && a.NotifyOne? && t in s.pc && t != a.t && !s.pc[t].Sleeping?
    ensures t in Apply(s, a).pc && Apply(s, a).pc[t] == s.pc[t]
  {
  }

  lemma OthersStay(s: State, a: Step, t: nat)
    requires Enabled(s, a) && t != a.t && t in Apply(s, a).pc
    ensures t in s.pc
    ensures Apply(s, a).pc[t].WillSleep? == s.pc[t].WillSleep?
    ensures Apply(s, a).pc[t].Popping? == s.pc[t].Popping?
  {
    if !a.NotifyOne? && !a.NotifyAll? {
      MovesOne(s, a);
      hide Apply;
    }
  }

  lemma OwnNext(s: State, a: Step)
    requires Enabled(s, a)
    ensures a.t in s.pc && a.t in Apply(s, a).pc && (a.Pop? ==> s.pc[a.t].Popping?)
    ensures Apply(s, a).pc[a.t].WillSleep? ==> a.Pop? && s.front.None?
    ensures Apply(s, a).pc[a.t].Popping? ==> a.ReadStopped? && !s.stopped
  {
    if IsNodeStep(a) {
      OwnNextNode(s, a);
    } else if a.NotifyOne? || a.NotifyAll? {
      NotifierNext(s, a);
    }
  }

  lemma OwnNextNode(s: State, a: Step)
    requires Enabled(s, a) && IsNodeStep(a)
    ensures a.t in Apply(s, a).pc
    ensures Apply(s, a).pc[a.t].WillSleep? ==> a.Pop? && s.front.None?
    ensures !Apply(s, a).pc[a.t].Popping?
  {
  }

  lemma NotifierNext(s: State, a: Step)
    requires Enabled(s, a) && (a.NotifyOne? || a.NotifyAll?)
    ensures a.t in Apply(s, a).pc && Apply(s, a).pc[a.t] == Idle
  {
  }

  lemma StepSleeps(s: State, a: Step)
    requires Safe(s) && WakeOk(s) && Enabled(s, a)
    ensures SleepsRightly(Apply(s, a))
  {
    hide Safe, WakeOk, Apply, Enabled, MutexOk, QueueOk;
    var s' := Apply(s, a);
    forall t | t in s'.pc
      ensures s'.pc[t].WillSleep? ==> s'.log.queue == [] && !s'.stopped
      ensures s'.pc[t].Popping? ==> !s'.stopped
    {
      WakeParts(s);
      if t != a.t {
        OthersStay(s, a, t);
        if s.pc[t].WillSleep? || s.pc[t].Popping? {
          OtherHolder(s, a, t);
        }
        QueueEffect(s, a);
        FlagEffect(s, a);
      } else {
        OwnNext(s, a);
        QueueEffect(s, a);
        FlagEffect(s, a);
      }
    }
  }

  lemma WakeParts(s: State)
    requires Safe(s) && WakeOk(s)
    ensures MutexOk(s) && QueueOk(s) && SleepsRightly(s)
  {
    hide MutexOk, QueueOk, SleepsRightly;
  }

  /** While another thread is about to sleep or to pop, it holds the mutex: nothing is pushed
      and the flag is not set. */
  lemma OtherHolder(s: State, a: Step, t: nat)
    requires MutexOk(s) && Enabled(s, a) && t != a.t && t in s.pc && (s.pc[t].WillSleep? || s.pc[t].Popping?)
    ensures !a.Push? && !a.Pop? && !a.SetStopped?
  {
    assert s.mutex == Some(t) <==> Holds(s.pc[t]);
    assert s.mutex == Some(a.t) <==> Holds(s.pc[a.t]);
  }

  lemma StepWakes(s: State, a: Step)
    requires Safe(s) && WakeOk(s) && Enabled(s, a)
    ensures WakeOk(Apply(s, a))
  {
    StepEnough(s, a);
    StepStop(s, a);
    StepSleeps(s, a);
    hide Safe, Enabled, Apply, EnoughAwake, StopWakes, SleepsRightly;
  }

  lemma {:induction false} RunWakes(threads: set<nat>, steps: seq<Step>)
    requires Execute(threads, steps).Some?
    ensures WakeOk(Execute(threads, steps).value)
    decreases |steps|
  {
    if steps == [] {
      assert Sleepers(Init(threads).pc) == {};
    } else {
      hide Safe, WakeOk, Enabled, Apply;
      RunWakes(threads, steps[..|steps| - 1]);
      RunSafe(threads, steps[..|steps| - 1]);
      StepWakes(Execute(threads, steps[..|steps| - 1]).value, steps[|steps| - 1]);
    }
  }

  // ----- what it means -----

  /** In every reachable state with messages waiting and nobody inside a critical
      region: nobody sleeps un-notified, or at least as many notified threads are
      on their way as there are messages. */
  lemma NoLostWakeup(threads: set<nat>, steps: seq<Step>)
    requires Execute(threads, steps).Some?
    requires var s := Execute(threads, steps).value; s.log.queue != [] && s.mutex == None
    ensures var s := Execute(threads, steps).value;
            Sleepers(s.pc) == {} || |Awake(s.pc)| >= |s.log.queue|
  {
    hide Execute;
    RunWakes(threads, steps);
  }

  /** The thread in a critical region never waits inside it. */
  lemma HolderMoves(s: State, t: nat) returns (a: Step)
    requires t in s.pc && Holds(s.pc[t])
    ensures a.t == t && Enabled(s, a)
  {
    match s.pc[t]
    case Pushing(_) => a := Push(t);
    case Notifying =>
      if u :| u in s.pc && s.pc[u].Sleeping? {
        a := NotifyOne(t, Some(u));
      } else {
        a := NotifyOne(t, None);
      }
    case Checking(_) => a := ReadStopped(t);
    case Popping(_) => a := Pop(t);
    case WillSleep(_) => a := Sleep(t);
    case Stopping => a := SetStopped(t);
    case StopSet => a := NotifyAll(t);
    case Leaving => a := Unlock(t);
    case HasMessage(_) => a := Unlock(t);
  }

  /** While messages wait and someone sleeps un-notified, some thread that is no
      sleeper can move: the holder of the mutex or a notified thread. */
  lemma SomeoneMoves(threads: set<nat>, steps: seq<Step>) returns (a: Step)
    requires Execute(threads, steps).Some?
    requires var s := Execute(threads, steps).value; s.log.queue != [] && Sleepers(s.pc) != {}
    ensures var s := Execute(threads, steps).value;
            && a.t in s.pc && Enabled(s, a) && !s.pc[a.t].Sleeping?
            && (s.mutex == Some(a.t) || a.Relock?)
  {
    hide Execute;
    var s := Execute(threads, steps).value;
    RunSafe(threads, steps);
    if s.mutex.Some? {
      assert Holds(s.pc[s.mutex.value]);
      a := HolderMoves(s, s.mutex.value);
    } else {
      NoLostWakeup(threads, steps);
      assert Awake(s.pc) != {};
      var t :| t in Awake(s.pc);
      a := Relock(t);
    }
  }
}

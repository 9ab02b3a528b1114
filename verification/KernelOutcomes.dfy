/** What each operation does to the threads, queues, locks, semaphores and conditions that there are, told
    by what can be seen of them before and after, and that it does nothing else. */
module KernelOutcomes {
  import opened Sequences
  import opened Kernel

  /** Apart from these, all is as it was. */
  ghost predicate Else(s: State, u: State, threads: set<Tid>, queues: set<QueueId>, locks: set<int>) {
    && (forall x: Tid :: x !in threads ==> ThreadOf(u, x) == ThreadOf(s, x))
    && (forall q :: q !in queues ==> Queue(u, q) == Queue(s, q))
    && (forall l :: l !in locks ==> LockOf(u, l) == LockOf(s, l))
  }

  predicate SameSems(s: State, u: State) {
    u.sems == s.sems
  }

  predicate SameBounds(s: State, u: State) {
    u.waitingLock == s.waitingLock
  }

  /** The current thread goes on in its own code. */
  predicate GoesOn(s: State, u: State) {
    s.current.Some? && u.current == s.current && ThreadOf(u, s.current.value) == Thread(Running, User)
  }

  /** The current thread sleeps at the end of a queue, and nobody has the CPU. */
  predicate FallsAsleep(s: State, u: State, q: QueueId, pc: Pc) {
    && s.current.Some? && u.current == None && ThreadOf(u, s.current.value) == Thread(Blocked, pc)
    && Queue(u, q) == Queue(s, q) + [s.current.value]
  }

  /** The first thread of a queue is ready, behind all others that are. */
  predicate FirstWakes(s: State, u: State, q: QueueId) {
    && Queue(s, q) != [] && Queue(u, q) == Queue(s, q)[1..]
    && Queue(u, ReadyList) == Queue(s, ReadyList) + [Queue(s, q)[0]]
    && ThreadOf(u, Queue(s, q)[0]) == ThreadOf(s, Queue(s, q)[0]).(status := Ready)
  }

  /** Acquire, and the end of Wait: the owner goes on; a free lock becomes the thread's; for one that
      somebody else owns it waits. */
  ghost predicate Acquired(s: State, u: State, l: int)
    requires s.current.Some?
  {
    var t := s.current.value;
    && SameSems(s, u) && SameBounds(s, u)
    && match LockOf(s, l).owner
       case None => GoesOn(s, u) && LockOf(u, l) == Lock(false, Some(t)) && Else(s, u, {t}, {}, {l})
       case Some(owner) =>
         if owner == t then GoesOn(s, u) && Else(s, u, {t}, {}, {})
         else FallsAsleep(s, u, LockQueue(l), InAcquire(l)) && Else(s, u, {t}, {LockQueue(l)}, {})
  }

  /** A lock is given up by its owner only, to the thread that has waited longest if there is one. */
  ghost predicate GivenUp(s: State, u: State, l: int) {
    if LockOf(s, l).owner != s.current then LockOf(u, l) == LockOf(s, l)
    else if Queue(s, LockQueue(l)) == [] then LockOf(u, l) == Lock(true, None)
    else LockOf(u, l) == Lock(false, Some(Queue(s, LockQueue(l))[0]))
  }

  ghost predicate Released(s: State, u: State, l: int)
    requires s.current.Some?
  {
    && SameSems(s, u) && SameBounds(s, u) && GoesOn(s, u) && GivenUp(s, u, l)
    && if LockOf(s, l).owner != s.current || Queue(s, LockQueue(l)) == [] then Else(s, u, {}, {}, {l})
       else
         && FirstWakes(s, u, LockQueue(l))
         && Else(s, u, {Queue(s, LockQueue(l))[0]}, {LockQueue(l), ReadyList}, {l})
  }

  /** P, also when it tries again: it takes one and goes on, or sleeps. */
  ghost predicate Took(s: State, u: State, i: int)
    requires s.current.Some?
  {
    var t := s.current.value;
    && SameBounds(s, u)
    && (forall j :: j != i ==> Value(u, j) == Value(s, j))
    && if Value(s, i) > 0 then GoesOn(s, u) && Value(u, i) == Value(s, i) - 1 && Else(s, u, {t}, {}, {})
       else
         && FallsAsleep(s, u, SemQueue(i), InP(i)) && Value(u, i) == 0
         && Else(s, u, {t}, {SemQueue(i)}, {})
  }

  ghost predicate Posted(s: State, u: State, i: int) {
    && SameBounds(s, u) && u.current == s.current
    && (forall j :: Value(u, j) == Value(s, j) + if j == i then 1 else 0)
    && if Queue(s, SemQueue(i)) == [] then Else(s, u, {}, {}, {})
       else
         && FirstWakes(s, u, SemQueue(i))
         && Else(s, u, {Queue(s, SemQueue(i))[0]}, {SemQueue(i), ReadyList}, {})
  }

  /** A Wait that is not refused gives up the lock, and sleeps; the condition is bound to the lock. */
  ghost predicate Waited(s: State, u: State, c: int, lockArg: Option<int>)
    requires s.current.Some?
  {
    if lockArg == None || (Bound(s, c) != None && Bound(s, c) != lockArg) then u == s
    else
      var t, l := s.current.value, lockArg.value;
      && SameSems(s, u)
      && FallsAsleep(s, u, CondQueue(c), InWait(c, l)) && GivenUp(s, u, l)
      && LockOf(u, l).owner != Some(t)
      && (forall d :: Bound(u, d) == if d == c then lockArg else Bound(s, d))
      && if LockOf(s, l).owner != s.current || Queue(s, LockQueue(l)) == [] then
           Else(s, u, {t}, {CondQueue(c)}, {l})
         else
           && FirstWakes(s, u, LockQueue(l))
           && Else(s, u, {t, Queue(s, LockQueue(l))[0]}, {CondQueue(c), LockQueue(l), ReadyList}, {l})
  }

  ghost predicate Signalled(s: State, u: State, c: int, lockArg: Option<int>) {
    if lockArg == None || Queue(s, CondQueue(c)) == [] || Bound(s, c) != lockArg then u == s
    else
      && SameSems(s, u) && u.current == s.current && FirstWakes(s, u, CondQueue(c))
      && Else(s, u, {Queue(s, CondQueue(c))[0]}, {CondQueue(c), ReadyList}, {})
      && (forall d :: Bound(u, d) == if d == c && |Queue(s, CondQueue(c))| == 1 then None else Bound(s, d))
  }

  /** The first ready thread has the CPU. */
  ghost predicate Dispatched(s: State, u: State) {
    && Queue(s, ReadyList) != [] && u.current == Some(Queue(s, ReadyList)[0])
    && ThreadOf(u, Queue(s, ReadyList)[0]) == ThreadOf(s, Queue(s, ReadyList)[0]).(status := Running)
  }

  ghost predicate Yielded(s: State, u: State)
    requires s.current.Some?
  {
    var t, ready := s.current.value, Queue(s, ReadyList);
    if ready == [] then u == s
    else
      && SameSems(s, u) && SameBounds(s, u) && Dispatched(s, u)
      && ThreadOf(u, t) == ThreadOf(s, t).(status := Ready) && Queue(u, ReadyList) == ready[1..] + [t]
      && Else(s, u, {t, ready[0]}, {ReadyList}, {})
  }

  ghost predicate Outcome(s: State, u: State, st: Step)
    requires Enabled(s, st)
  {
    match st
    case Acquire(l) => Acquired(s, u, l)
    case Release(l) => Released(s, u, l)
    case P(i) => Took(s, u, i)
    case V(i) => Posted(s, u, i)
    case Wait(c, l) => Waited(s, u, c, l)
    case Signal(c, l) => Signalled(s, u, c, l)
    case Yield => Yielded(s, u)
    case Fork(child) =>
      && SameSems(s, u) && SameBounds(s, u) && u.current == s.current
      && ThreadOf(u, child) == Thread(Ready, User) && Queue(u, ReadyList) == Queue(s, ReadyList) + [child]
      && Else(s, u, {child}, {ReadyList}, {})
    case Finish =>
      && SameSems(s, u) && SameBounds(s, u) && u.current == None
      && ThreadOf(u, s.current.value).status == Destroyed && Else(s, u, {s.current.value}, {}, {})
    case Dispatch =>
      && SameSems(s, u) && SameBounds(s, u) && Dispatched(s, u)
      && Queue(u, ReadyList) == Queue(s, ReadyList)[1..]
      && Else(s, u, {Queue(s, ReadyList)[0]}, {ReadyList}, {})
    case Resume =>
      match ThreadOf(s, s.current.value).pc
      case User => false
      case InAcquire(l) =>
        && LockOf(s, l).owner == s.current
        && SameSems(s, u) && SameBounds(s, u) && GoesOn(s, u) && Else(s, u, {s.current.value}, {}, {})
      case InP(i) => Took(s, u, i)
      case InWait(_, l) => Acquired(s, u, l)
  }

  // ----- the operations -----

  lemma AcquireOutcome(s: State, l: int)
    requires Placed(s) && LocksOk(s) && s.current.Some?
    ensures Acquired(s, AcquireOp(s, l), l)
  {
    if LockOf(s, l).owner != s.current && !LockOf(s, l).free {
      SleepEffect(s, LockQueue(l), InAcquire(l));
    }
  }

  lemma ReleaseOutcome(s: State, l: int)
    requires Placed(s) && LocksOk(s) && InUserCode(s)
    ensures Released(s, ReleaseOp(s, l), l) && ReleaseOp(s, l).current == s.current
  {
    ReleaseCurrent(s, l);
    if LockOf(s, l).owner == s.current && Queue(s, LockQueue(l)) != [] {
      var v := s.(locks := s.locks[l := LockOf(s, l).(owner := Some(Queue(s, LockQueue(l))[0]))]);
      SamePlaced(s, v);
      WakeEffect(v, LockQueue(l));
    }
  }

  lemma POutcome(s: State, i: int)
    requires Placed(s) && s.current.Some?
    ensures Took(s, POp(s, i), i)
  {
    if Value(s, i) == 0 {
      SleepEffect(s, SemQueue(i), InP(i));
    }
  }

  lemma VOutcome(s: State, i: int)
    requires Placed(s)
    ensures Posted(s, VOp(s, i), i)
  {
    if Queue(s, SemQueue(i)) != [] {
      WakeEffect(s, SemQueue(i));
    }
  }

  lemma WaitOutcome(s: State, c: int, lockArg: Option<int>)
    requires Placed(s) && LocksOk(s) && InUserCode(s)
    ensures Waited(s, WaitOp(s, c, lockArg), c, lockArg)
  {
    hide Placed, LocksOk, ReleaseOp, Released, Sleep, GivenUp;
    if lockArg != None && (Bound(s, c) == None || Bound(s, c) == lockArg) {
      var l := lockArg.value;
      var v := s.(waitingLock := s.waitingLock[c := l]);
      SamePlaced(s, v);
      LocksSame(s, v);
      ReleaseOutcome(v, l);
      NotQueued(s, l);
      ReleasedThenSleeps(v, ReleaseOp(v, l), c, l);
      SameButBound(s, v, Sleep(ReleaseOp(v, l), CondQueue(c), InWait(c, l)), c, l);
    }
  }

  /** What the rest of Wait does once the condition is bound to the lock. */
  ghost predicate ReleasesAndSleeps(v: State, u: State, c: int, l: int)
    requires v.current.Some?
  {
    && SameSems(v, u) && SameBounds(v, u)
    && FallsAsleep(v, u, CondQueue(c), InWait(c, l)) && GivenUp(v, u, l)
    && if LockOf(v, l).owner != v.current || Queue(v, LockQueue(l)) == [] then
         Else(v, u, {v.current.value}, {CondQueue(c)}, {l})
       else
         && FirstWakes(v, u, LockQueue(l))
         && Else(v, u, {v.current.value, Queue(v, LockQueue(l))[0]}, {CondQueue(c), LockQueue(l), ReadyList}, {l})
  }

  lemma ReleasedThenSleeps(v: State, r: State, c: int, l: int)
    requires v.current.Some? && Released(v, r, l)
    requires Queue(v, LockQueue(l)) != [] ==> Queue(v, LockQueue(l))[0] != v.current.value
    ensures ReleasesAndSleeps(v, Sleep(r, CondQueue(c), InWait(c, l)), c, l)
  {
    SleepEffect(r, CondQueue(c), InWait(c, l));
    hide Queue, ThreadOf, Sleep;
    assert forall k :: LockOf(Sleep(r, CondQueue(c), InWait(c, l)), k) == LockOf(r, k);
  }

  lemma SameButBound(s: State, v: State, u: State, c: int, l: int)
    requires s.current.Some? && v == s.(waitingLock := s.waitingLock[c := l])
    requires ReleasesAndSleeps(v, u, c, l) && (Bound(s, c) == None || Bound(s, c) == Some(l))
    requires Queue(v, LockQueue(l)) != [] ==> Queue(v, LockQueue(l))[0] != v.current.value
    ensures Waited(s, u, c, Some(l))
  {
    assert forall q :: Queue(v, q) == Queue(s, q);
    assert forall x: Tid :: ThreadOf(v, x) == ThreadOf(s, x);
    assert forall k :: LockOf(v, k) == LockOf(s, k);
    hide Queue, ThreadOf, LockOf;
  }

  /** Whoever sleeps in Wait does not own the lock, whether it did before or not. */
  lemma SleeperOwnsNothing(s: State, u: State, c: int, l: int)
    requires s.current.Some? && Waited(s, u, c, Some(l)) && (Bound(s, c) == None || Bound(s, c) == Some(l))
    ensures u.current == None && LockOf(u, l).owner != s.current
  {
  }

  lemma NotQueued(s: State, l: int)
    requires Placed(s) && s.current.Some?
    ensures Queue(s, LockQueue(l)) != [] ==> Queue(s, LockQueue(l))[0] != s.current.value
  {
    assert ThreadOf(s, s.current.value).status == Running;
  }

  lemma SignalOutcome(s: State, c: int, lockArg: Option<int>)
    requires Placed(s)
    ensures Signalled(s, SignalOp(s, c, lockArg), c, lockArg)
  {
    if lockArg != None && Queue(s, CondQueue(c)) != [] && Bound(s, c) == lockArg {
      WakeEffect(s, CondQueue(c));
    }
  }

  lemma YieldOutcome(s: State)
    requires Placed(s) && s.current.Some?
    ensures Yielded(s, YieldOp(s))
  {
    if Queue(s, ReadyList) != [] {
      var u := ReadyToRun(s, s.current.value).(current := None);
      assert ThreadOf(s, s.current.value).status == Running;
      ReadyPlaced(s, u, s.current.value);
      RunEffect(u);
      NotReady(s);
    }
  }

  lemma NotReady(s: State)
    requires Placed(s) && s.current.Some?
    ensures s.current.value !in Queue(s, ReadyList)
  {
  }

  lemma ResumeOutcome(s: State)
    requires Placed(s) && LocksOk(s) && Enabled(s, Resume)
    ensures Outcome(s, ResumeOp(s), Resume)
  {
    match ThreadOf(s, s.current.value).pc {
      case User =>
      case InAcquire(l) => CurrentNotWaiting(s);
      case InP(i) => POutcome(s, i);
      case InWait(_, l) => AcquireOutcome(s, l);
    }
  }

  lemma SchedulingOutcome(s: State, st: Step)
    requires Placed(s) && Enabled(s, st) && (st.Fork? || st.Finish? || st.Dispatch?)
    ensures Outcome(s, Apply(s, st), st)
  {
  }

  /** Every step of the machine does this. */
  lemma ApplyOutcome(s: State, st: Step)
    requires Placed(s) && LocksOk(s) && Enabled(s, st)
    ensures Outcome(s, Apply(s, st), st)
  {
    hide Placed, LocksOk, Acquired, Released, Took, Posted, Waited, Signalled, Yielded;
    match st {
      case Acquire(l) => AcquireOutcome(s, l);
      case Release(l) => ReleaseOutcome(s, l);
      case P(i) => POutcome(s, i);
      case V(i) => VOutcome(s, i);
      case Wait(c, l) => WaitOutcome(s, c, l);
      case Signal(c, l) => SignalOutcome(s, c, l);
      case Yield => YieldOutcome(s);
      case Fork(_) => SchedulingOutcome(s, st);
      case Finish => SchedulingOutcome(s, st);
      case Dispatch => SchedulingOutcome(s, st);
      case Resume => ResumeOutcome(s);
    }
  }
}

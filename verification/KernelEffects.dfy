/** What a kernel step changes for the threads that do not take it: the program points, locks, values and
    condition queues that monitors built on the kernel can see. */
module KernelEffects {
  import opened Sequences
  import opened Kernel

  /** What happens to a thread no matter where it is: time slices, being dispatched, interrupts. */
  predicate Anywhere(step: Step) {
    step.Yield? || step.Dispatch? || step.Resume? || step.V?
  }

  /** No change that another thread could notice. */
  predicate SameSeen(a: Thread, b: Thread) {
    a.pc == b.pc && IsWaiting(a) == IsWaiting(b)
  }

  ghost predicate SameThreads(k: State, u: State) {
    forall x: Tid :: SameSeen(ThreadOf(u, x), ThreadOf(k, x))
  }

  ghost predicate OthersSame(k: State, u: State, t: Tid) {
    forall x: Tid :: x != t ==> SameSeen(ThreadOf(u, x), ThreadOf(k, x))
  }

  ghost predicate SameConditions(k: State, u: State) {
    forall c :: Queue(u, CondQueue(c)) == Queue(k, CondQueue(c))
  }

  ghost predicate OtherLocksSame(k: State, u: State, l: int) {
    forall j :: j != l ==> LockOf(u, j) == LockOf(k, j)
  }

  lemma AcquireSeen(k: State, l: int)
    requires Placed(k) && LocksOk(k) && k.current.Some?
    ensures var u, t := AcquireOp(k, l), k.current.value;
            && OthersSame(k, u, t) && OtherLocksSame(k, u, l) && SameConditions(k, u) && u.sems == k.sems
            && (ThreadOf(u, t).pc == User || ThreadOf(u, t) == Thread(Blocked, InAcquire(l)))
            && (ThreadOf(u, t).pc == User ==> LockOf(u, l).owner == Some(t))
            && (|| LockOf(u, l).owner == LockOf(k, l).owner
                || (LockOf(k, l).owner == None && LockOf(u, l).owner == Some(t)))
  {
    if LockOf(k, l).owner != k.current && !LockOf(k, l).free {
      SleepEffect(k, LockQueue(l), InAcquire(l));
    }
  }

  lemma ReleaseSeen(k: State, l: int)
    requires Placed(k) && InUserCode(k)
    ensures var u := ReleaseOp(k, l);
            && u.current == k.current && SameThreads(k, u) && OtherLocksSame(k, u, l) && SameConditions(k, u)
            && u.sems == k.sems
            && (LockOf(k, l).owner == k.current && LockOf(u, l).owner.Some? ==>
                  ThreadOf(k, LockOf(u, l).owner.value).pc == InAcquire(l))
  {
    ReleaseEffect(k, l);
    ReleaseCurrent(k, l);
    if LockOf(k, l).owner == k.current && Queue(k, LockQueue(l)) != [] {
      assert Queue(k, LockQueue(l))[0] in Queue(k, LockQueue(l));
      assert Place(ThreadOf(k, Queue(k, LockQueue(l))[0])) == Some(LockQueue(l));
    }
  }

  lemma PSeen(k: State, i: int)
    requires Placed(k) && k.current.Some?
    ensures var u, t := POp(k, i), k.current.value;
            && OthersSame(k, u, t) && u.locks == k.locks && SameConditions(k, u)
            && (if Value(k, i) == 0 then ThreadOf(u, t) == Thread(Blocked, InP(i)) else ThreadOf(u, t).pc == User)
            && (forall j :: Value(u, j) == if j == i && Value(k, i) > 0 then Value(k, i) - 1 else Value(k, j))
  {
    if Value(k, i) == 0 {
      SleepEffect(k, SemQueue(i), InP(i));
    }
  }

  lemma VSeen(k: State, i: int)
    requires Placed(k)
    ensures var u := VOp(k, i);
            && u.current == k.current && SameThreads(k, u) && u.locks == k.locks && SameConditions(k, u)
            && (forall j :: Value(u, j) == if j == i then Value(k, i) + 1 else Value(k, j))
  {
    if Queue(k, SemQueue(i)) != [] {
      WakeEffect(k, SemQueue(i));
    }
  }

  lemma WaitSeen(k: State, c: int, l: int)
    requires Placed(k) && InUserCode(k) && (Bound(k, c) == None || Bound(k, c) == Some(l))
    ensures var u, t := WaitOp(k, c, Some(l)), k.current.value;
            && OthersSame(k, u, t) && OtherLocksSame(k, u, l) && u.sems == k.sems
            && ThreadOf(u, t) == Thread(Blocked, InWait(c, l))
            && (forall d :: d != c ==> Queue(u, CondQueue(d)) == Queue(k, CondQueue(d)))
  {
    var v := k.(waitingLock := k.waitingLock[c := l]);
    SamePlaced(k, v);
    ReleaseSeen(v, l);
    SleepEffect(ReleaseOp(v, l), CondQueue(c), InWait(c, l));
  }

  /** Without a lock, or with one that others do not wait with, Wait does nothing. */
  lemma WrongWait(k: State, c: int, lockArg: Option<int>)
    requires k.current.Some? && (lockArg == None || (Bound(k, c).Some? && Bound(k, c) != lockArg))
    ensures WaitOp(k, c, lockArg) == k
  {
  }

  lemma SignalSeen(k: State, c: int, lockArg: Option<int>)
    requires Placed(k)
    ensures var u := SignalOp(k, c, lockArg);
            && u.current == k.current && u.locks == k.locks && u.sems == k.sems
            && (forall x: Tid :: ThreadOf(u, x).pc == ThreadOf(k, x).pc)
            && (forall x: Tid :: IsWaiting(ThreadOf(k, x)) && ThreadOf(k, x).pc.c != c ==> IsWaiting(ThreadOf(u, x)))
            && (forall x: Tid :: IsWaiting(ThreadOf(u, x)) ==> IsWaiting(ThreadOf(k, x)))
            && (forall d :: d != c ==> Queue(u, CondQueue(d)) == Queue(k, CondQueue(d)))
  {
    if !(lockArg == None || Queue(k, CondQueue(c)) == [] || Bound(k, c) != lockArg) {
      WakeEffect(k, CondQueue(c));
    }
  }

  lemma YieldSeen(k: State)
    requires Placed(k) && k.current.Some?
    ensures var u := YieldOp(k);
            SameThreads(k, u) && u.locks == k.locks && u.sems == k.sems && SameConditions(k, u)
  {
    if Queue(k, ReadyList) != [] {
      var u := ReadyToRun(k, k.current.value).(current := None);
      assert ThreadOf(k, k.current.value).status == Running;
      ReadyPlaced(k, u, k.current.value);
      RunEffect(u);
    }
  }

  /** Steps of the scheduler and forks change nothing of this. */
  lemma SchedulingSeen(k: State, st: Step)
    requires Placed(k) && Enabled(k, st) && (st.Yield? || st.Dispatch? || st.Fork?)
    ensures var u := Apply(k, st);
            SameThreads(k, u) && u.locks == k.locks && u.sems == k.sems && SameConditions(k, u)
  {
    match st {
      case Yield => YieldSeen(k);
      case Dispatch => RunEffect(k);
      case Fork(child) =>
    }
  }

  lemma FinishSeen(k: State)
    requires k.current.Some?
    ensures var u := FinishOp(k);
            && OthersSame(k, u, k.current.value) && u.locks == k.locks && u.sems == k.sems && SameConditions(k, u)
            && ThreadOf(u, k.current.value).pc == User
  {
  }

  /** A thread that is dispatched inside Acquire owns the lock. */
  lemma DispatchedOwns(k: State, t: Tid, l: int)
    requires Placed(k) && LocksOk(k) && k.current == Some(t) && ThreadOf(k, t).pc == InAcquire(l)
    ensures LockOf(k, l).owner == Some(t)
  {
  }
}

/** Threads, semaphores, locks and condition variables (threads/thread.cc, scheduler.cc, synch.cc) as a
    machine. Each step is one stretch of code that runs with interrupts off. A thread that has called an
    operation and gone to sleep in it keeps a program point, from which it resumes when dispatched. */
module Kernel {
  import opened Sequences

  type Tid = nat

  datatype Status = JustCreated | Running | Ready | Blocked | Destroyed

  /** Outside the operations, or asleep (or woken up) inside one. */
  datatype Pc = User | InAcquire(l: int) | InP(i: int) | InWait(c: int, l: int)

  datatype Thread = Thread(status: Status, pc: Pc)

  datatype QueueId = ReadyList | LockQueue(l: int) | SemQueue(i: int) | CondQueue(c: int)

  datatype Lock = Lock(free: bool, owner: Option<Tid>)

  /** What has happened: who joined and who left each queue, how many Vs and Ps each semaphore has seen. */
  datatype Log = Log(
    joined: map<QueueId, seq<Tid>>, left: map<QueueId, seq<Tid>>, ups: map<int, nat>, downs: map<int, nat>)

  datatype State = State(
    current: Option<Tid>,
    threads: map<Tid, Thread>,
    queues: map<QueueId, seq<Tid>>,
    locks: map<int, Lock>,
    sems: map<int, nat>,
    waitingLock: map<int, int>,
    log: Log)

  datatype Step =
    | Acquire(l: int)
    | Release(l: int)
    | P(i: int)
    | V(i: int)
    | Wait(c: int, lockArg: Option<int>)
    | Signal(c: int, lockArg: Option<int>)
    | Yield
    | Fork(child: Tid)
    | Finish
    | Dispatch
    | Resume

  // ----- looking things up; whatever has not been used yet is in its initial state -----

  function Queue(s: State, q: QueueId): seq<Tid> {
    Lookup(s.queues, q, [])
  }

  function ThreadOf(s: State, t: Tid): Thread {
    Lookup(s.threads, t, Thread(JustCreated, User))
  }

  function LockOf(s: State, l: int): Lock {
    Lookup(s.locks, l, Lock(true, None))
  }

  /** Semaphores start at zero unless the machine's first state says otherwise. */
  function Value(s: State, i: int): nat {
    Lookup(s.sems, i, 0)
  }

  function Bound(s: State, c: int): Option<int> {
    if c in s.waitingLock then Some(s.waitingLock[c]) else None
  }

  // ----- the pieces that steps are made of -----

  function Append(s: State, q: QueueId, t: Tid): State {
    s.(queues := s.queues[q := Queue(s, q) + [t]],
       log := s.log.(joined := s.log.joined[q := Lookup(s.log.joined, q, []) + [t]]))
  }

  function RemoveFirst(s: State, q: QueueId): State
    requires Queue(s, q) != []
  {
    s.(queues := s.queues[q := Queue(s, q)[1..]],
       log := s.log.(left := s.log.left[q := Lookup(s.log.left, q, []) + [Queue(s, q)[0]]]))
  }

  function SetThread(s: State, t: Tid, th: Thread): State {
    s.(threads := s.threads[t := th])
  }

  function ReadyToRun(s: State, t: Tid): State {
    Append(SetThread(s, t, ThreadOf(s, t).(status := Ready)), ReadyList, t)
  }

  /** The current thread goes to sleep in a queue, at a program point. */
  function Sleep(s: State, q: QueueId, pc: Pc): State
    requires s.current.Some?
  {
    Append(SetThread(s, s.current.value, Thread(Blocked, pc)), q, s.current.value).(current := None)
  }

  /** The first thread of a queue becomes ready. */
  function Wake(s: State, q: QueueId): State
    requires Queue(s, q) != []
  {
    ReadyToRun(RemoveFirst(s, q), Queue(s, q)[0])
  }

  /** The first thread of the ready list gets the CPU. */
  function Run(s: State): State
    requires Queue(s, ReadyList) != []
  {
    var t := Queue(s, ReadyList)[0];
    SetThread(RemoveFirst(s, ReadyList), t, ThreadOf(s, t).(status := Running)).(current := Some(t))
  }

  /** The current thread is back in its own code. */
  function Return(s: State): State
    requires s.current.Some?
  {
    SetThread(s, s.current.value, ThreadOf(s, s.current.value).(pc := User))
  }

  // ----- the operations -----

  function AcquireOp(s: State, l: int): State
    requires s.current.Some?
  {
    if LockOf(s, l).owner == s.current then Return(s)
    else if LockOf(s, l).free then Return(s.(locks := s.locks[l := Lock(false, s.current)]))
    else Sleep(s, LockQueue(l), InAcquire(l))
  }

  function ReleaseOp(s: State, l: int): State
    requires s.current.Some?
  {
    if LockOf(s, l).owner != s.current then s
    else if Queue(s, LockQueue(l)) != [] then
      Wake(s.(locks := s.locks[l := LockOf(s, l).(owner := Some(Queue(s, LockQueue(l))[0]))]), LockQueue(l))
    else s.(locks := s.locks[l := Lock(true, None)])
  }

  /** One turn of the loop in P. */
  function POp(s: State, i: int): State
    requires s.current.Some?
  {
    if Value(s, i) == 0 then Sleep(s, SemQueue(i), InP(i))
    else Return(s.(sems := s.sems[i := Value(s, i) - 1],
                   log := s.log.(downs := s.log.downs[i := Lookup(s.log.downs, i, 0) + 1])))
  }

  function Increment(s: State, i: int): State {
    s.(sems := s.sems[i := Value(s, i) + 1],
       log := s.log.(ups := s.log.ups[i := Lookup(s.log.ups, i, 0) + 1]))
  }

  function VOp(s: State, i: int): State {
    Increment(if Queue(s, SemQueue(i)) != [] then Wake(s, SemQueue(i)) else s, i)
  }

  function WaitOp(s: State, c: int, lockArg: Option<int>): State
    requires s.current.Some?
  {
    if lockArg == None || (Bound(s, c).Some? && Bound(s, c) != lockArg) then s
    else
      var l := lockArg.value;
      var released := ReleaseOp(s.(waitingLock := s.waitingLock[c := l]), l);
      Sleep(released, CondQueue(c), InWait(c, l))
  }

  function SignalOp(s: State, c: int, lockArg: Option<int>): State {
    if lockArg == None || Queue(s, CondQueue(c)) == [] || Bound(s, c) != lockArg then s
    else
      var woken := Wake(s, CondQueue(c));
      if Queue(woken, CondQueue(c)) == [] then woken.(waitingLock := woken.waitingLock - {c}) else woken
  }

  function YieldOp(s: State): State
    requires s.current.Some?
  {
    if Queue(s, ReadyList) == [] then s else Run(ReadyToRun(s, s.current.value).(current := None))
  }

  function FinishOp(s: State): State
    requires s.current.Some?
  {
    SetThread(s, s.current.value, Thread(Destroyed, User)).(current := None)
  }

  function ResumeOp(s: State): State
    requires s.current.Some?
  {
    match ThreadOf(s, s.current.value).pc
    case User => s
    case InAcquire(l) => Return(s)
    case InP(i) => POp(s, i)
    case InWait(c, l) => AcquireOp(s, l)
  }

  // ----- the machine -----

  /** Some thread is running its own code, with interrupts on. */
  predicate InUserCode(s: State) {
    s.current.Some? && ThreadOf(s, s.current.value).pc == User
  }

  predicate Enabled(s: State, step: Step) {
    match step
    case V(_) => s.current.None? || InUserCode(s)
    case Fork(child) => InUserCode(s) && child !in s.threads
    case Dispatch => s.current.None? && Queue(s, ReadyList) != []
    case Resume => s.current.Some? && !InUserCode(s)
    case _ => InUserCode(s)
  }

  /** A V may also come from an interrupt handler, while a thread runs its own code or the CPU idles. */
  function Apply(s: State, step: Step): State
    requires Enabled(s, step)
  {
    match step
    case Acquire(l) => AcquireOp(s, l)
    case Release(l) => ReleaseOp(s, l)
    case P(i) => POp(s, i)
    case V(i) => VOp(s, i)
    case Wait(c, l) => WaitOp(s, c, l)
    case Signal(c, l) => SignalOp(s, c, l)
    case Yield => YieldOp(s)
    case Fork(child) => ReadyToRun(s, child)
    case Finish => FinishOp(s)
    case Dispatch => Run(s)
    case Resume => ResumeOp(s)
  }

  // ----- where threads are -----

  /** The queue a thread must be in, going by its status and program point. */
  function Place(th: Thread): Option<QueueId> {
    match th.status
    case Ready => Some(ReadyList)
    case Blocked =>
      (match th.pc
       case User => None
       case InAcquire(l) => Some(LockQueue(l))
       case InP(i) => Some(SemQueue(i))
       case InWait(c, _) => Some(CondQueue(c)))
    case _ => None
  }

  /** Every thread is in one place, which fits its status: only the running thread has the CPU, ready
      threads are once in the ready list, blocked ones are once in the queue they sleep in. */
  ghost predicate Placed(s: State) {
    && (forall q :: Distinct(Queue(s, q)))
    && (forall q, t: Tid :: t in Queue(s, q) <==> Place(ThreadOf(s, t)) == Some(q))
    && (forall t: Tid :: ThreadOf(s, t).status == Running <==> s.current == Some(t))
    && (forall t: Tid :: ThreadOf(s, t).status == Blocked ==> ThreadOf(s, t).pc != User)
  }

  lemma SleepPlaced(s: State, q: QueueId, pc: Pc)
    requires Placed(s) && s.current.Some? && pc != User && Place(Thread(Blocked, pc)) == Some(q)
    ensures Placed(Sleep(s, q, pc))
  {
    var u, t := Sleep(s, q, pc), s.current.value;
    assert t !in Queue(s, q);
    assert forall r :: Queue(u, r) == if r == q then Queue(s, q) + [t] else Queue(s, r);
    assert forall x: Tid :: ThreadOf(u, x) == if x == t then Thread(Blocked, pc) else ThreadOf(s, x);
  }

  lemma WakePlaced(s: State, q: QueueId)
    requires Placed(s) && Queue(s, q) != [] && q != ReadyList
    ensures Placed(Wake(s, q))
  {
    var u, t := Wake(s, q), Queue(s, q)[0];
    DistinctTail(Queue(s, q));
    assert t in Queue(s, q);
    assert Place(ThreadOf(s, t)) == Some(q);
    assert forall r :: Queue(u, r) == if r == q then Queue(s, q)[1..]
                                      else if r == ReadyList then Queue(s, r) + [t] else Queue(s, r);
    assert forall x: Tid :: ThreadOf(u, x) == if x == t then ThreadOf(s, t).(status := Ready) else ThreadOf(s, x);
  }

  lemma RunPlaced(s: State)
    requires Placed(s) && Queue(s, ReadyList) != [] && s.current == None
    ensures Placed(Run(s))
  {
    var u, t := Run(s), Queue(s, ReadyList)[0];
    DistinctTail(Queue(s, ReadyList));
    assert t in Queue(s, ReadyList);
    assert forall r :: Queue(u, r) == if r == ReadyList then Queue(s, r)[1..] else Queue(s, r);
    assert forall x: Tid :: ThreadOf(u, x) == if x == t then ThreadOf(s, t).(status := Running) else ThreadOf(s, x);
  }

  lemma ReturnPlaced(s: State)
    requires Placed(s) && s.current.Some?
    ensures Placed(Return(s))
  {
    var u, t := Return(s), s.current.value;
    assert forall r :: Queue(u, r) == Queue(s, r);
    assert forall x: Tid :: ThreadOf(u, x) == if x == t then Thread(Running, User) else ThreadOf(s, x);
  }

  /** Fields other than these three do not matter for the places of threads. */
  lemma SamePlaced(s: State, u: State)
    requires Placed(s) && u.current == s.current && u.threads == s.threads && u.queues == s.queues
    ensures Placed(u)
  {
    assert forall q :: Queue(u, q) == Queue(s, q);
    assert forall t: Tid :: ThreadOf(u, t) == ThreadOf(s, t);
  }

  lemma ReadyPlaced(s: State, u: State, t: Tid)
    requires Placed(s) && Place(ThreadOf(s, t)) == None
    requires u == ReadyToRun(s, t).(current := if s.current == Some(t) then None else s.current)
    ensures Placed(u)
  {
    assert t !in Queue(s, ReadyList);
    assert forall r :: Queue(u, r) == if r == ReadyList then Queue(s, r) + [t] else Queue(s, r);
    assert forall x: Tid :: ThreadOf(u, x) == if x == t then ThreadOf(s, t).(status := Ready) else ThreadOf(s, x);
  }

  lemma FinishPlaced(s: State)
    requires Placed(s) && s.current.Some?
    ensures Placed(FinishOp(s))
  {
    var u, t := FinishOp(s), s.current.value;
    assert forall r :: Queue(u, r) == Queue(s, r);
    assert forall x: Tid :: ThreadOf(u, x) == if x == t then Thread(Destroyed, User) else ThreadOf(s, x);
  }

  lemma ReleasePlaced(s: State, l: int)
    requires Placed(s) && s.current.Some?
    ensures Placed(ReleaseOp(s, l)) && ReleaseOp(s, l).current == s.current
  {
    hide Placed;
    if LockOf(s, l).owner == s.current {
      if Queue(s, LockQueue(l)) != [] {
        var v := s.(locks := s.locks[l := LockOf(s, l).(owner := Some(Queue(s, LockQueue(l))[0]))]);
        SamePlaced(s, v);
        WakePlaced(v, LockQueue(l));
      } else {
        SamePlaced(s, ReleaseOp(s, l));
      }
    }
  }

  lemma AcquirePlaced(s: State, l: int)
    requires Placed(s) && s.current.Some?
    ensures Placed(AcquireOp(s, l))
  {
    hide Placed;
    if LockOf(s, l).owner == s.current {
      ReturnPlaced(s);
    } else if LockOf(s, l).free {
      var v := s.(locks := s.locks[l := Lock(false, s.current)]);
      SamePlaced(s, v);
      ReturnPlaced(v);
    } else {
      SleepPlaced(s, LockQueue(l), InAcquire(l));
    }
  }

  lemma PPlaced(s: State, i: int)
    requires Placed(s) && s.current.Some?
    ensures Placed(POp(s, i))
  {
    hide Placed;
    if Value(s, i) == 0 {
      SleepPlaced(s, SemQueue(i), InP(i));
    } else {
      ReturnPlaced(s);
      SamePlaced(Return(s), POp(s, i));
    }
  }

  lemma VPlaced(s: State, i: int)
    requires Placed(s)
    ensures Placed(VOp(s, i))
  {
    hide Placed;
    var v := if Queue(s, SemQueue(i)) != [] then Wake(s, SemQueue(i)) else s;
    if Queue(s, SemQueue(i)) != [] {
      WakePlaced(s, SemQueue(i));
    }
    SamePlaced(v, VOp(s, i));
  }

  lemma WaitPlaced(s: State, c: int, lockArg: Option<int>)
    requires Placed(s) && s.current.Some?
    ensures Placed(WaitOp(s, c, lockArg))
  {
    hide Placed;
    if !(lockArg == None || (Bound(s, c).Some? && Bound(s, c) != lockArg)) {
      var l := lockArg.value;
      var v := s.(waitingLock := s.waitingLock[c := l]);
      SamePlaced(s, v);
      ReleasePlaced(v, l);
      SleepPlaced(ReleaseOp(v, l), CondQueue(c), InWait(c, l));
    }
  }

  lemma SignalPlaced(s: State, c: int, lockArg: Option<int>)
    requires Placed(s)
    ensures Placed(SignalOp(s, c, lockArg))
  {
    hide Placed;
    if !(lockArg == None || Queue(s, CondQueue(c)) == [] || Bound(s, c) != lockArg) {
      WakePlaced(s, CondQueue(c));
      SamePlaced(Wake(s, CondQueue(c)), SignalOp(s, c, lockArg));
    }
  }

  lemma YieldPlaced(s: State)
    requires Placed(s) && s.current.Some?
    ensures Placed(YieldOp(s))
  {
    if Queue(s, ReadyList) != [] {
      var u := ReadyToRun(s, s.current.value).(current := None);
      assert ThreadOf(s, s.current.value).status == Running;
      ReadyPlaced(s, u, s.current.value);
      RunPlaced(u);
    }
  }

  lemma ResumePlaced(s: State)
    requires Placed(s) && s.current.Some?
    ensures Placed(ResumeOp(s))
  {
    hide Placed;
    match ThreadOf(s, s.current.value).pc {
      case User =>
      case InAcquire(l) => ReturnPlaced(s);
      case InP(i) => PPlaced(s, i);
      case InWait(c, l) => AcquirePlaced(s, l);
    }
  }

  lemma ApplyPlaced(s: State, step: Step)
    requires Placed(s) && Enabled(s, step)
    ensures Placed(Apply(s, step))
  {
    match step {
      case Acquire(l) => AcquirePlaced(s, l);
      case Release(l) => ReleasePlaced(s, l);
      case P(i) => PPlaced(s, i);
      case V(i) => VPlaced(s, i);
      case Wait(c, l) => WaitPlaced(s, c, l);
      case Signal(c, l) => SignalPlaced(s, c, l);
      case Yield => YieldPlaced(s);
      case Fork(child) =>
        assert ThreadOf(s, child).status == JustCreated;
        ReadyPlaced(s, Apply(s, step), child);
      case Finish => FinishPlaced(s);
      case Dispatch => RunPlaced(s);
      case Resume => ResumePlaced(s);
    }
  }

  /** Yield hands the CPU to the thread that has been ready longest and puts the current one behind all
      others; with nobody else ready it changes nothing. */
  lemma YieldTakesTurns(s: State)
    requires Placed(s) && s.current.Some?
    ensures var u, ready := YieldOp(s), Queue(s, ReadyList);
            if ready == [] then u == s
            else
              && u.current == Some(ready[0]) && u.current != s.current
              && Queue(u, ReadyList) == ready[1..] + [s.current.value]
              && (forall q :: q != ReadyList ==> Queue(u, q) == Queue(s, q))
              && u.locks == s.locks && u.sems == s.sems && u.waitingLock == s.waitingLock
  {
    var ready := Queue(s, ReadyList);
    if ready != [] {
      assert ready[0] in ready;
      assert Place(ThreadOf(s, ready[0])) == Some(ReadyList);
      assert (ready + [s.current.value])[1..] == ready[1..] + [s.current.value];
    }
  }

  /** A thread that is forked is ready behind all others, in its own code. */
  lemma ForkedIsLast(s: State, child: Tid)
    requires Placed(s) && Enabled(s, Fork(child))
    ensures var u := Apply(s, Fork(child));
            && Queue(u, ReadyList) == Queue(s, ReadyList) + [child] && child !in Queue(s, ReadyList)
            && ThreadOf(u, child) == Thread(Ready, User)
            && forall t: Tid :: t != child ==> ThreadOf(u, t) == ThreadOf(s, t)
  {
  }

  // ----- locks -----

  /** A lock is free exactly if it has no owner; then nobody waits for it. Its owner never waits for it. A
      thread inside Acquire that has been woken up is the owner. */
  ghost predicate LocksOk(s: State) {
    && (forall l :: LockOf(s, l).free <==> LockOf(s, l).owner == None)
    && (forall l :: LockOf(s, l).free ==> Queue(s, LockQueue(l)) == [])
    && (forall l :: LockOf(s, l).owner.Some? ==> LockOf(s, l).owner.value !in Queue(s, LockQueue(l)))
    && (forall t: Tid :: Granted(ThreadOf(s, t)) ==> LockOf(s, ThreadOf(s, t).pc.l).owner == Some(t))
  }

  predicate Granted(th: Thread) {
    th.pc.InAcquire? && (th.status == Ready || th.status == Running)
  }

  /** What sleeping does, and does not do. */
  lemma SleepEffect(s: State, q: QueueId, pc: Pc)
    requires s.current.Some?
    ensures var u, t := Sleep(s, q, pc), s.current.value;
            && u.current == None && u.locks == s.locks && u.sems == s.sems && u.waitingLock == s.waitingLock
            && (forall r :: Queue(u, r) == if r == q then Queue(s, q) + [t] else Queue(s, r))
            && (forall x: Tid :: ThreadOf(u, x) == if x == t then Thread(Blocked, pc) else ThreadOf(s, x))
  {
  }

  lemma WakeEffect(s: State, q: QueueId)
    requires Placed(s) && Queue(s, q) != [] && q != ReadyList
    ensures var u, t := Wake(s, q), Queue(s, q)[0];
            && u.current == s.current && u.locks == s.locks && u.sems == s.sems && u.waitingLock == s.waitingLock
            && ThreadOf(s, t).status == Blocked && Place(ThreadOf(s, t)) == Some(q)
            && (forall r :: Queue(u, r) == if r == q then Queue(s, q)[1..]
                                           else if r == ReadyList then Queue(s, r) + [t] else Queue(s, r))
            && (forall x: Tid :: ThreadOf(u, x) == if x == t then ThreadOf(s, t).(status := Ready) else ThreadOf(s, x))
  {
    assert Queue(s, q)[0] in Queue(s, q);
  }

  lemma RunEffect(s: State)
    requires Placed(s) && Queue(s, ReadyList) != []
    ensures var u, t := Run(s), Queue(s, ReadyList)[0];
            && u.current == Some(t) && u.locks == s.locks && u.sems == s.sems && u.waitingLock == s.waitingLock
            && ThreadOf(s, t).status == Ready
            && (forall r :: Queue(u, r) == if r == ReadyList then Queue(s, r)[1..] else Queue(s, r))
            && (forall x: Tid :: ThreadOf(u, x) == if x == t then ThreadOf(s, t).(status := Running)
                 else ThreadOf(s, x))
  {
  }

  lemma AcquireLocks(s: State, l: int)
    requires Placed(s) && LocksOk(s) && s.current.Some? && !ThreadOf(s, s.current.value).pc.InAcquire?
    ensures LocksOk(AcquireOp(s, l))
  {
    var u := AcquireOp(s, l);
    if LockOf(s, l).owner == s.current {
      LocksSame(s, u);
    } else if LockOf(s, l).free {
      Locked(s, u, l);
    } else {
      SleepEffect(s, LockQueue(l), InAcquire(l));
      SleptLocks(s, u, l);
    }
  }

  lemma Locked(s: State, u: State, l: int)
    requires Placed(s) && LocksOk(s) && s.current.Some? && LockOf(s, l).free
    requires u == Return(s.(locks := s.locks[l := Lock(false, s.current)]))
    ensures LocksOk(u)
  {
    assert forall r :: Queue(u, r) == Queue(s, r);
    assert forall x: Tid :: x != s.current.value ==> ThreadOf(u, x) == ThreadOf(s, x);
    assert forall k :: LockOf(u, k) == if k == l then Lock(false, s.current) else LockOf(s, k);
  }

  lemma SleptLocks(s: State, u: State, l: int)
    requires LocksOk(s) && s.current.Some? && !LockOf(s, l).free && LockOf(s, l).owner != s.current
    requires u.locks == s.locks
    requires forall r :: Queue(u, r) == if r == LockQueue(l) then Queue(s, r) + [s.current.value] else Queue(s, r)
    requires forall x: Tid :: ThreadOf(u, x) == if x == s.current.value then Thread(Blocked, InAcquire(l))
               else ThreadOf(s, x)
    ensures LocksOk(u)
  {
    hide Queue, ThreadOf;
    assert forall k :: LockOf(u, k) == LockOf(s, k);
  }

  lemma HandOver(s: State, u: State, l: int, h: Tid)
    requires Placed(s) && LocksOk(s) && InUserCode(s) && LockOf(s, l).owner == s.current
    requires Queue(s, LockQueue(l)) != [] && h == Queue(s, LockQueue(l))[0]
    requires ThreadOf(s, h) == Thread(Blocked, InAcquire(l))
    requires forall k :: LockOf(u, k) == if k == l then LockOf(s, l).(owner := Some(h)) else LockOf(s, k)
    requires forall k :: Queue(u, LockQueue(k)) == if k == l then Queue(s, LockQueue(l))[1..]
               else Queue(s, LockQueue(k))
    requires forall x: Tid :: ThreadOf(u, x) == if x == h then Thread(Ready, InAcquire(l)) else ThreadOf(s, x)
    ensures LocksOk(u)
  {
    hide Queue, ThreadOf, LockOf;
    DistinctTail(Queue(s, LockQueue(l)));
    assert ThreadOf(s, s.current.value).pc == User;
  }

  lemma ReleaseLocks(s: State, l: int)
    requires Placed(s) && LocksOk(s) && InUserCode(s)
    ensures LocksOk(ReleaseOp(s, l))
  {
    var u := ReleaseOp(s, l);
    if LockOf(s, l).owner == s.current {
      hide Placed, LocksOk;
      if Queue(s, LockQueue(l)) != [] {
        var h := Queue(s, LockQueue(l))[0];
        var v := s.(locks := s.locks[l := LockOf(s, l).(owner := Some(h))]);
        SamePlaced(s, v);
        WakeEffect(v, LockQueue(l));
        HandOver(s, u, l, h);
      } else {
        Unlocked(s, u, l);
      }
    }
  }

  lemma Unlocked(s: State, u: State, l: int)
    requires Placed(s) && LocksOk(s) && InUserCode(s) && LockOf(s, l).owner == s.current
    requires Queue(s, LockQueue(l)) == [] && u == s.(locks := s.locks[l := Lock(true, None)])
    ensures LocksOk(u)
  {
    assert forall r :: Queue(u, r) == Queue(s, r);
    assert forall x: Tid :: ThreadOf(u, x) == ThreadOf(s, x);
    assert forall k :: k != l ==> LockOf(u, k) == LockOf(s, k);
  }

  /** Steps that leave the locks and their queues alone, and wake nobody from them. */
  lemma LocksSame(s: State, u: State)
    requires LocksOk(s) && u.locks == s.locks
    requires forall l :: Queue(u, LockQueue(l)) == Queue(s, LockQueue(l))
    requires forall x: Tid :: Granted(ThreadOf(u, x)) ==>
               Granted(ThreadOf(s, x)) && ThreadOf(u, x).pc == ThreadOf(s, x).pc
    ensures LocksOk(u)
  {
    assert forall l :: LockOf(u, l) == LockOf(s, l);
  }

  lemma PLocks(s: State, i: int)
    requires Placed(s) && LocksOk(s) && s.current.Some?
    ensures LocksOk(POp(s, i))
  {
    if Value(s, i) == 0 {
      SleepEffect(s, SemQueue(i), InP(i));
    }
    LocksSame(s, POp(s, i));
  }

  lemma WakeLocks(s: State, q: QueueId)
    requires Placed(s) && LocksOk(s) && Queue(s, q) != [] && (q.SemQueue? || q.CondQueue?)
    ensures LocksOk(Wake(s, q))
  {
    WakeEffect(s, q);
    LocksSame(s, Wake(s, q));
  }

  lemma VLocks(s: State, i: int)
    requires Placed(s) && LocksOk(s)
    ensures LocksOk(VOp(s, i))
  {
    if Queue(s, SemQueue(i)) != [] {
      WakeLocks(s, SemQueue(i));
      LocksSame(Wake(s, SemQueue(i)), VOp(s, i));
    } else {
      LocksSame(s, VOp(s, i));
    }
  }

  lemma WaitLocks(s: State, c: int, lockArg: Option<int>)
    requires Placed(s) && LocksOk(s) && InUserCode(s)
    ensures LocksOk(WaitOp(s, c, lockArg))
  {
    if !(lockArg == None || (Bound(s, c).Some? && Bound(s, c) != lockArg)) {
      var l := lockArg.value;
      var v := s.(waitingLock := s.waitingLock[c := l]);
      LocksSame(s, v);
      SamePlaced(s, v);
      ReleaseLocks(v, l);
      ReleasePlaced(v, l);
      WaitSleepLocks(ReleaseOp(v, l), c, l);
    }
  }

  lemma WaitSleepLocks(s: State, c: int, l: int)
    requires LocksOk(s) && s.current.Some?
    ensures LocksOk(Sleep(s, CondQueue(c), InWait(c, l)))
  {
    SleepEffect(s, CondQueue(c), InWait(c, l));
    LocksSame(s, Sleep(s, CondQueue(c), InWait(c, l)));
  }

  lemma SignalLocks(s: State, c: int, lockArg: Option<int>)
    requires Placed(s) && LocksOk(s)
    ensures LocksOk(SignalOp(s, c, lockArg))
  {
    if !(lockArg == None || Queue(s, CondQueue(c)) == [] || Bound(s, c) != lockArg) {
      WakeLocks(s, CondQueue(c));
      LocksSame(Wake(s, CondQueue(c)), SignalOp(s, c, lockArg));
    }
  }

  lemma YieldLocks(s: State)
    requires Placed(s) && LocksOk(s) && InUserCode(s)
    ensures LocksOk(YieldOp(s))
  {
    if Queue(s, ReadyList) != [] {
      var u := ReadyToRun(s, s.current.value).(current := None);
      ReadyPlaced(s, u, s.current.value);
      LocksSame(s, u);
      RunEffect(u);
      LocksSame(u, Run(u));
    }
  }

  lemma ReturnLocks(s: State)
    requires LocksOk(s) && s.current.Some?
    ensures LocksOk(Return(s))
  {
    LocksSame(s, Return(s));
  }

  lemma ApplyLocks(s: State, step: Step)
    requires Placed(s) && LocksOk(s) && Enabled(s, step)
    ensures LocksOk(Apply(s, step))
  {
    hide LocksOk, Placed;
    match step {
      case Acquire(l) => AcquireLocks(s, l);
      case Release(l) => ReleaseLocks(s, l);
      case P(i) => PLocks(s, i);
      case V(i) => VLocks(s, i);
      case Wait(c, l) => WaitLocks(s, c, l);
      case Signal(c, l) => SignalLocks(s, c, l);
      case Yield => YieldLocks(s);
      case Fork(child) => LocksSame(s, Apply(s, step));
      case Finish => LocksSame(s, Apply(s, step));
      case Dispatch => RunEffect(s); LocksSame(s, Apply(s, step));
      case Resume =>
        match ThreadOf(s, s.current.value).pc {
          case User =>
          case InAcquire(l) => ReturnLocks(s);
          case InP(i) => PLocks(s, i);
          case InWait(c, l) => AcquireLocks(s, l);
        }
    }
  }

  /** The lock that a step of the current thread is to bring, if it is an Acquire or the end of one. */
  function Wanted(s: State, step: Step): Option<int> {
    match step
    case Acquire(l) => Some(l)
    case Resume =>
      if s.current.None? then None
      else (match ThreadOf(s, s.current.value).pc
            case InAcquire(l) => Some(l)
            case InWait(_, l) => Some(l)
            case _ => None)
    case _ => None
  }

  lemma AcquireReturns(s: State, l: int)
    requires LocksOk(s) && s.current.Some? && AcquireOp(s, l).current.Some?
    ensures var u := AcquireOp(s, l);
            u.current == s.current && InUserCode(u) && LockOf(u, l).owner == u.current
  {
  }

  /** Acquire and Wait return only to a thread that owns the lock: if the thread keeps the CPU, it is back
      in its own code and the lock is its own. */
  lemma ReturnsToOwner(s: State, step: Step)
    requires Placed(s) && LocksOk(s) && Enabled(s, step) && Wanted(s, step).Some?
    requires Apply(s, step).current.Some?
    ensures var u := Apply(s, step);
            u.current == s.current && InUserCode(u) && LockOf(u, Wanted(s, step).value).owner == u.current
  {
    hide Placed, LocksOk;
    var l := Wanted(s, step).value;
    if ThreadOf(s, s.current.value).pc.InAcquire? && step.Resume? {
      GrantedOwns(s);
    } else {
      AcquireReturns(s, l);
    }
  }

  lemma GrantedOwns(s: State)
    requires Placed(s) && LocksOk(s) && s.current.Some? && ThreadOf(s, s.current.value).pc.InAcquire?
    ensures LockOf(Return(s), ThreadOf(s, s.current.value).pc.l).owner == s.current && InUserCode(Return(s))
  {
  }

  // ----- semaphores -----

  /** Threads that a V has woken from inside P and that have not looked at the value again. */
  ghost function Woken(s: State, i: int): set<Tid> {
    set t: Tid | t in s.threads && IsWoken(ThreadOf(s, t), i)
  }

  predicate IsWoken(th: Thread, i: int) {
    th.pc == InP(i) && (th.status == Ready || th.status == Running)
  }

  lemma IsWokenMember(s: State, i: int)
    ensures forall t: Tid :: t in Woken(s, i) <==> IsWoken(ThreadOf(s, t), i)
  {
  }

  /** No wake-up is lost: if threads sleep in P although the value is positive, enough others have been
      woken to use it up, even if somebody else gets there first. */
  ghost predicate SemsOk(s: State) {
    forall i :: Queue(s, SemQueue(i)) != [] ==> Value(s, i) <= |Woken(s, i)|
  }

  lemma SemsSame(s: State, u: State)
    requires SemsOk(s) && u.sems == s.sems
    requires forall i :: Queue(u, SemQueue(i)) == Queue(s, SemQueue(i))
    requires forall x: Tid, i :: IsWoken(ThreadOf(u, x), i) == IsWoken(ThreadOf(s, x), i)
    ensures SemsOk(u)
  {
    forall i | Queue(u, SemQueue(i)) != []
      ensures Value(u, i) <= |Woken(u, i)|
    {
      IsWokenMember(s, i);
      IsWokenMember(u, i);
      assert Woken(u, i) == Woken(s, i);
    }
  }

  lemma PSems(s: State, i: int)
    requires Placed(s) && SemsOk(s) && s.current.Some?
    requires ThreadOf(s, s.current.value).pc == User || ThreadOf(s, s.current.value).pc == InP(i)
    ensures SemsOk(POp(s, i))
  {
    var u, t := POp(s, i), s.current.value;
    assert ThreadOf(s, t).status == Running;
    if Value(s, i) == 0 {
      SleepEffect(s, SemQueue(i), InP(i));
    } else {
      assert forall r :: Queue(u, r) == Queue(s, r);
      assert forall x: Tid :: ThreadOf(u, x) == if x == t then Thread(Running, User) else ThreadOf(s, x);
    }
    WokenOneLess(s, u, i, t);
  }

  lemma WokenOneLess(s: State, u: State, i: int, t: Tid)
    requires SemsOk(s) && (ThreadOf(s, t).pc == User || ThreadOf(s, t).pc == InP(i))
    requires !IsWoken(ThreadOf(u, t), i) && (ThreadOf(u, t).pc == User || ThreadOf(u, t).pc == InP(i))
    requires forall x: Tid :: x != t ==> ThreadOf(u, x) == ThreadOf(s, x)
    requires forall j :: Queue(u, SemQueue(j)) == Queue(s, SemQueue(j)) || (j == i && Value(u, j) == 0)
    requires forall j :: Value(u, j) == if j == i && Value(s, j) > 0 then Value(s, j) - 1 else Value(s, j)
    ensures SemsOk(u)
  {
    forall j | Queue(u, SemQueue(j)) != []
      ensures Value(u, j) <= |Woken(u, j)|
    {
      IsWokenMember(s, j);
      IsWokenMember(u, j);
      assert Woken(u, j) == if j == i then Woken(s, j) - {t} else Woken(s, j);
    }
  }

  lemma VSems(s: State, i: int)
    requires Placed(s) && SemsOk(s)
    ensures SemsOk(VOp(s, i))
  {
    hide SemsOk;
    if Queue(s, SemQueue(i)) != [] {
      WakeEffect(s, SemQueue(i));
      WokenOneMore(s, VOp(s, i), i, Queue(s, SemQueue(i))[0]);
    } else {
      WokenNone(s, i);
    }
  }

  lemma WokenNone(s: State, i: int)
    requires SemsOk(s) && Queue(s, SemQueue(i)) == []
    ensures SemsOk(VOp(s, i))
  {
    var u := VOp(s, i);
    assert forall j :: Queue(u, SemQueue(j)) == Queue(s, SemQueue(j)) && Woken(u, j) == Woken(s, j);
  }

  lemma WokenOneMore(s: State, u: State, i: int, h: Tid)
    requires SemsOk(s) && Queue(s, SemQueue(i)) != [] && ThreadOf(s, h) == Thread(Blocked, InP(i))
    requires forall j :: j != i ==> Queue(u, SemQueue(j)) == Queue(s, SemQueue(j)) && Value(u, j) == Value(s, j)
    requires Value(u, i) == Value(s, i) + 1
    requires forall x: Tid :: ThreadOf(u, x) == if x == h then Thread(Ready, InP(i)) else ThreadOf(s, x)
    ensures SemsOk(u)
  {
    forall j | Queue(u, SemQueue(j)) != []
      ensures Value(u, j) <= |Woken(u, j)|
    {
      IsWokenMember(s, j);
      IsWokenMember(u, j);
      assert Woken(u, j) == if j == i then Woken(s, j) + {h} else Woken(s, j);
    }
  }

  lemma AcquireSems(s: State, l: int)
    requires Placed(s) && SemsOk(s) && s.current.Some? && !ThreadOf(s, s.current.value).pc.InP?
    ensures SemsOk(AcquireOp(s, l))
  {
    if LockOf(s, l).owner != s.current && !LockOf(s, l).free {
      SleepEffect(s, LockQueue(l), InAcquire(l));
    }
    SemsSame(s, AcquireOp(s, l));
  }

  lemma WakeSems(s: State, q: QueueId)
    requires Placed(s) && SemsOk(s) && Queue(s, q) != [] && (q.LockQueue? || q.CondQueue?)
    ensures SemsOk(Wake(s, q))
  {
    WakeEffect(s, q);
    SemsSame(s, Wake(s, q));
  }

  lemma ReleaseSems(s: State, l: int)
    requires Placed(s) && SemsOk(s) && s.current.Some?
    ensures SemsOk(ReleaseOp(s, l))
  {
    if LockOf(s, l).owner == s.current {
      if Queue(s, LockQueue(l)) != [] {
        var v := s.(locks := s.locks[l := LockOf(s, l).(owner := Some(Queue(s, LockQueue(l))[0]))]);
        SamePlaced(s, v);
        SemsSame(s, v);
        WakeSems(v, LockQueue(l));
      } else {
        SemsSame(s, ReleaseOp(s, l));
      }
    }
  }

  lemma WaitSems(s: State, c: int, lockArg: Option<int>)
    requires Placed(s) && SemsOk(s) && InUserCode(s)
    ensures SemsOk(WaitOp(s, c, lockArg))
  {
    if !(lockArg == None || (Bound(s, c).Some? && Bound(s, c) != lockArg)) {
      var l := lockArg.value;
      var v := s.(waitingLock := s.waitingLock[c := l]);
      SemsSame(s, v);
      SamePlaced(s, v);
      ReleaseSems(v, l);
      ReleasePlaced(v, l);
      ReleaseCurrent(v, l);
      SleepEffect(ReleaseOp(v, l), CondQueue(c), InWait(c, l));
      SemsSame(ReleaseOp(v, l), WaitOp(s, c, lockArg));
    }
  }

  /** Releasing a lock leaves the current thread where it is. */
  lemma ReleaseCurrent(s: State, l: int)
    requires Placed(s) && s.current.Some?
    ensures ReleaseOp(s, l).current == s.current
    ensures ThreadOf(ReleaseOp(s, l), s.current.value) == ThreadOf(s, s.current.value)
  {
    if LockOf(s, l).owner == s.current && Queue(s, LockQueue(l)) != [] {
      assert Queue(s, LockQueue(l))[0] in Queue(s, LockQueue(l));
    }
  }

  lemma SignalSems(s: State, c: int, lockArg: Option<int>)
    requires Placed(s) && SemsOk(s)
    ensures SemsOk(SignalOp(s, c, lockArg))
  {
    if !(lockArg == None || Queue(s, CondQueue(c)) == [] || Bound(s, c) != lockArg) {
      WakeSems(s, CondQueue(c));
      SemsSame(Wake(s, CondQueue(c)), SignalOp(s, c, lockArg));
    }
  }

  lemma YieldSems(s: State)
    requires Placed(s) && SemsOk(s) && InUserCode(s)
    ensures SemsOk(YieldOp(s))
  {
    if Queue(s, ReadyList) != [] {
      var u := ReadyToRun(s, s.current.value).(current := None);
      ReadyPlaced(s, u, s.current.value);
      SemsSame(s, u);
      RunEffect(u);
      SemsSame(u, Run(u));
    }
  }

  lemma ApplySems(s: State, step: Step)
    requires Placed(s) && SemsOk(s) && Enabled(s, step)
    ensures SemsOk(Apply(s, step))
  {
    hide SemsOk, Placed;
    match step {
      case Acquire(l) => AcquireSems(s, l);
      case Release(l) => ReleaseSems(s, l);
      case P(i) => PSems(s, i);
      case V(i) => VSems(s, i);
      case Wait(c, l) => WaitSems(s, c, l);
      case Signal(c, l) => SignalSems(s, c, l);
      case Yield => YieldSems(s);
      case Fork(child) => SemsSame(s, Apply(s, step));
      case Finish => SemsSame(s, Apply(s, step));
      case Dispatch => RunEffect(s); SemsSame(s, Apply(s, step));
      case Resume =>
        match ThreadOf(s, s.current.value).pc {
          case User =>
          case InAcquire(l) => SemsSame(s, Return(s));
          case InP(i) => PSems(s, i);
          case InWait(c, l) => AcquireSems(s, l);
        }
    }
  }

  // ----- condition variables -----

  /** A condition is bound to a lock exactly while threads wait on it, and they all wait with that lock. */
  ghost predicate CondsOk(s: State) {
    && (forall c :: Bound(s, c) == None <==> Queue(s, CondQueue(c)) == [])
    && (forall t: Tid :: IsWaiting(ThreadOf(s, t)) ==> Bound(s, ThreadOf(s, t).pc.c) == Some(ThreadOf(s, t).pc.l))
  }

  predicate IsWaiting(th: Thread) {
    th.status == Blocked && th.pc.InWait?
  }

  lemma CondsSame(s: State, u: State)
    requires CondsOk(s) && u.waitingLock == s.waitingLock
    requires forall c :: Queue(u, CondQueue(c)) == Queue(s, CondQueue(c))
    requires forall x: Tid :: IsWaiting(ThreadOf(u, x)) ==> ThreadOf(u, x) == ThreadOf(s, x)
    ensures CondsOk(u)
  {
  }

  lemma WakeConds(s: State, q: QueueId)
    requires Placed(s) && CondsOk(s) && Queue(s, q) != [] && (q.LockQueue? || q.SemQueue?)
    ensures CondsOk(Wake(s, q))
  {
    WakeEffect(s, q);
    CondsSame(s, Wake(s, q));
  }

  lemma AcquireConds(s: State, l: int)
    requires CondsOk(s) && s.current.Some? && Placed(s)
    ensures CondsOk(AcquireOp(s, l))
  {
    if LockOf(s, l).owner != s.current && !LockOf(s, l).free {
      SleepEffect(s, LockQueue(l), InAcquire(l));
    }
    assert ThreadOf(s, s.current.value).status == Running;
    CondsSame(s, AcquireOp(s, l));
  }

  lemma PConds(s: State, i: int)
    requires CondsOk(s) && s.current.Some? && Placed(s)
    ensures CondsOk(POp(s, i))
  {
    if Value(s, i) == 0 {
      SleepEffect(s, SemQueue(i), InP(i));
    }
    assert ThreadOf(s, s.current.value).status == Running;
    CondsSame(s, POp(s, i));
  }

  lemma VConds(s: State, i: int)
    requires Placed(s) && CondsOk(s)
    ensures CondsOk(VOp(s, i))
  {
    if Queue(s, SemQueue(i)) != [] {
      WakeConds(s, SemQueue(i));
      CondsSame(Wake(s, SemQueue(i)), VOp(s, i));
    } else {
      CondsSame(s, VOp(s, i));
    }
  }

  lemma ReleaseConds(s: State, l: int)
    requires Placed(s) && CondsOk(s) && s.current.Some?
    ensures CondsOk(ReleaseOp(s, l))
  {
    if LockOf(s, l).owner == s.current {
      if Queue(s, LockQueue(l)) != [] {
        var v := s.(locks := s.locks[l := LockOf(s, l).(owner := Some(Queue(s, LockQueue(l))[0]))]);
        SamePlaced(s, v);
        CondsSame(s, v);
        WakeConds(v, LockQueue(l));
      } else {
        CondsSame(s, ReleaseOp(s, l));
      }
    }
  }

  /** Releasing a lock touches no condition. */
  lemma ReleaseEffect(s: State, l: int)
    requires Placed(s) && s.current.Some?
    ensures var u := ReleaseOp(s, l);
            && u.waitingLock == s.waitingLock
            && (forall c :: Queue(u, CondQueue(c)) == Queue(s, CondQueue(c)))
            && (forall x: Tid :: IsWaiting(ThreadOf(u, x)) == IsWaiting(ThreadOf(s, x)))
            && (forall x: Tid :: ThreadOf(u, x).pc == ThreadOf(s, x).pc)
  {
    if LockOf(s, l).owner == s.current && Queue(s, LockQueue(l)) != [] {
      var v := s.(locks := s.locks[l := LockOf(s, l).(owner := Some(Queue(s, LockQueue(l))[0]))]);
      SamePlaced(s, v);
      WakeEffect(v, LockQueue(l));
    }
  }

  lemma WaitConds(s: State, c: int, lockArg: Option<int>)
    requires Placed(s) && CondsOk(s) && s.current.Some?
    ensures CondsOk(WaitOp(s, c, lockArg))
  {
    if !(lockArg == None || (Bound(s, c).Some? && Bound(s, c) != lockArg)) {
      var l := lockArg.value;
      var v := s.(waitingLock := s.waitingLock[c := l]);
      var u := WaitOp(s, c, lockArg);
      SamePlaced(s, v);
      ReleasePlaced(v, l);
      ReleaseEffect(v, l);
      SleepEffect(ReleaseOp(v, l), CondQueue(c), InWait(c, l));
      assert forall d :: Bound(u, d) == if d == c then Some(l) else Bound(s, d);
      assert forall x: Tid :: x != s.current.value && IsWaiting(ThreadOf(u, x)) ==>
               IsWaiting(ThreadOf(s, x)) && ThreadOf(s, x).pc == ThreadOf(u, x).pc;
    }
  }

  /** Signal wakes the thread that has waited longest, and no other; when it was the last, the condition
      is no longer bound to a lock. */
  lemma SignalWakesLongest(s: State, c: int, l: int)
    requires Placed(s) && CondsOk(s) && Queue(s, CondQueue(c)) != [] && Bound(s, c) == Some(l)
    ensures var u := SignalOp(s, c, Some(l));
            && (forall q :: Queue(u, q) == if q == CondQueue(c) then Queue(s, q)[1..]
                                           else if q == ReadyList then Queue(s, q) + [Queue(s, CondQueue(c))[0]]
                                           else Queue(s, q))
            && (forall d :: Bound(u, d) == if d == c && |Queue(s, CondQueue(c))| == 1 then None else Bound(s, d))
            && (forall x: Tid :: ThreadOf(u, x) == if x == Queue(s, CondQueue(c))[0]
                 then ThreadOf(s, x).(status := Ready) else ThreadOf(s, x))
            && u.locks == s.locks && u.sems == s.sems && u.current == s.current
  {
    WakeEffect(s, CondQueue(c));
  }

  lemma SignalConds(s: State, c: int, lockArg: Option<int>)
    requires Placed(s) && CondsOk(s)
    ensures CondsOk(SignalOp(s, c, lockArg))
  {
    if !(lockArg == None || Queue(s, CondQueue(c)) == [] || Bound(s, c) != lockArg) {
      var u := SignalOp(s, c, lockArg);
      SignalWakesLongest(s, c, lockArg.value);
      SignalPlaced(s, c, lockArg);
      forall x: Tid | IsWaiting(ThreadOf(u, x))
        ensures Bound(u, ThreadOf(u, x).pc.c) == Some(ThreadOf(u, x).pc.l)
      {
        assert x in Queue(u, CondQueue(ThreadOf(u, x).pc.c));
      }
    }
  }

  lemma YieldConds(s: State)
    requires Placed(s) && CondsOk(s) && InUserCode(s)
    ensures CondsOk(YieldOp(s))
  {
    if Queue(s, ReadyList) != [] {
      var u := ReadyToRun(s, s.current.value).(current := None);
      assert ThreadOf(s, s.current.value).status == Running;
      ReadyPlaced(s, u, s.current.value);
      CondsSame(s, u);
      RunEffect(u);
      CondsSame(u, Run(u));
    }
  }

  lemma ApplyConds(s: State, step: Step)
    requires Placed(s) && CondsOk(s) && Enabled(s, step)
    ensures CondsOk(Apply(s, step))
  {
    hide CondsOk, Placed;
    match step {
      case Acquire(l) => AcquireConds(s, l);
      case Release(l) => ReleaseConds(s, l);
      case P(i) => PConds(s, i);
      case V(i) => VConds(s, i);
      case Wait(c, l) => WaitConds(s, c, l);
      case Signal(c, l) => SignalConds(s, c, l);
      case Yield => YieldConds(s);
      case Fork(child) => CondsSame(s, Apply(s, step));
      case Finish => CondsSame(s, Apply(s, step));
      case Dispatch => RunEffect(s); CondsSame(s, Apply(s, step));
      case Resume =>
        match ThreadOf(s, s.current.value).pc {
          case User =>
          case InAcquire(l) => CurrentNotWaiting(s); CondsSame(s, Return(s));
          case InP(i) => PConds(s, i);
          case InWait(c, l) => AcquireConds(s, l);
        }
    }
  }

  lemma CurrentNotWaiting(s: State)
    requires Placed(s) && s.current.Some?
    ensures ThreadOf(s, s.current.value).status == Running
  {
  }

  /** A Broadcast in which no other thread gets a turn: Signal until nobody waits. */
  function BroadcastOp(s: State, c: int, l: int): State
    requires Queue(s, CondQueue(c)) != [] ==> Bound(s, c) == Some(l)
    decreases |Queue(s, CondQueue(c))|
  {
    if Queue(s, CondQueue(c)) == [] then s else BroadcastOp(SignalOp(s, c, Some(l)), c, l)
  }

  /** From `s` to `u` those who wait on `c` have become ready, in the order in which they came. */
  ghost predicate AllWoken(s: State, u: State, c: int) {
    && Queue(u, CondQueue(c)) == []
    && Queue(u, ReadyList) == Queue(s, ReadyList) + Queue(s, CondQueue(c))
    && (forall q :: q != CondQueue(c) && q != ReadyList ==> Queue(u, q) == Queue(s, q))
    && (forall x: Tid :: ThreadOf(u, x) == if x in Queue(s, CondQueue(c)) then ThreadOf(s, x).(status := Ready)
         else ThreadOf(s, x))
    && u.locks == s.locks && u.sems == s.sems && u.current == s.current
  }

  lemma FirstThenRest(s: State, v: State, u: State, c: int)
    requires Queue(s, CondQueue(c)) != [] && AllWoken(v, u, c)
    requires Queue(v, CondQueue(c)) == Queue(s, CondQueue(c))[1..]
    requires Queue(v, ReadyList) == Queue(s, ReadyList) + [Queue(s, CondQueue(c))[0]]
    requires forall q :: q != CondQueue(c) && q != ReadyList ==> Queue(v, q) == Queue(s, q)
    requires forall x: Tid :: ThreadOf(v, x) == if x == Queue(s, CondQueue(c))[0] then ThreadOf(s, x).(status := Ready)
               else ThreadOf(s, x)
    requires v.locks == s.locks && v.sems == s.sems && v.current == s.current
    ensures AllWoken(s, u, c)
  {
  }

  /** It wakes all who wait, and nobody else; the condition is then bound to no lock. */
  lemma {:induction false} BroadcastWakesAll(s: State, c: int, l: int)
    requires Placed(s) && CondsOk(s) && (Queue(s, CondQueue(c)) != [] ==> Bound(s, c) == Some(l))
    ensures AllWoken(s, BroadcastOp(s, c, l), c) && Bound(BroadcastOp(s, c, l), c) == None
    decreases |Queue(s, CondQueue(c))|
  {
    if Queue(s, CondQueue(c)) != [] {
      hide Placed, CondsOk, SignalOp, AllWoken, Queue, ThreadOf, Bound;
      var v := SignalOp(s, c, Some(l));
      SignalWakesLongest(s, c, l);
      SignalPlaced(s, c, Some(l));
      SignalConds(s, c, Some(l));
      BroadcastWakesAll(v, c, l);
      FirstThenRest(s, v, BroadcastOp(v, c, l), c);
    }
  }

  /** Signal changes nothing exactly with nobody waiting, the wrong lock, or none. */
  lemma WrongLockStuck(s: State, c: int, lockArg: Option<int>)
    ensures SignalOp(s, c, lockArg) == s <==> Queue(s, CondQueue(c)) == [] || lockArg == None || Bound(s, c) != lockArg
  {
  }

  // ----- first come, first served -----

  /** Those who have joined a queue are those who have left it, in the same order, and then those who are
      in it: locks are granted, and semaphores and conditions wake, in order of arrival. */
  ghost predicate Fifo(s: State) {
    forall q :: Lookup(s.log.joined, q, []) == Lookup(s.log.left, q, []) + Queue(s, q)
  }

  lemma FifoSame(s: State, u: State)
    requires Fifo(s) && u.queues == s.queues && u.log.joined == s.log.joined && u.log.left == s.log.left
    ensures Fifo(u)
  {
  }

  lemma FifoSleep(s: State, q: QueueId, pc: Pc)
    requires Fifo(s) && s.current.Some?
    ensures Fifo(Sleep(s, q, pc))
  {
  }

  lemma FifoReady(s: State, t: Tid)
    requires Fifo(s)
    ensures Fifo(ReadyToRun(s, t))
  {
  }

  lemma FifoRemove(s: State, q: QueueId)
    requires Fifo(s) && Queue(s, q) != []
    ensures Fifo(RemoveFirst(s, q))
  {
  }

  lemma FifoWake(s: State, q: QueueId)
    requires Fifo(s) && Queue(s, q) != []
    ensures Fifo(Wake(s, q))
  {
    FifoRemove(s, q);
    FifoReady(RemoveFirst(s, q), Queue(s, q)[0]);
  }

  lemma FifoRun(s: State)
    requires Fifo(s) && Queue(s, ReadyList) != []
    ensures Fifo(Run(s))
  {
  }

  lemma FifoAcquire(s: State, l: int)
    requires Fifo(s) && s.current.Some?
    ensures Fifo(AcquireOp(s, l))
  {
    hide Fifo;
    if LockOf(s, l).owner != s.current && !LockOf(s, l).free {
      FifoSleep(s, LockQueue(l), InAcquire(l));
    } else {
      FifoSame(s, AcquireOp(s, l));
    }
  }

  lemma FifoRelease(s: State, l: int)
    requires Fifo(s) && s.current.Some?
    ensures Fifo(ReleaseOp(s, l))
  {
    hide Fifo;
    if LockOf(s, l).owner == s.current {
      if Queue(s, LockQueue(l)) != [] {
        var v := s.(locks := s.locks[l := LockOf(s, l).(owner := Some(Queue(s, LockQueue(l))[0]))]);
        FifoSame(s, v);
        FifoWake(v, LockQueue(l));
      } else {
        FifoSame(s, ReleaseOp(s, l));
      }
    }
  }

  lemma FifoP(s: State, i: int)
    requires Fifo(s) && s.current.Some?
    ensures Fifo(POp(s, i))
  {
    hide Fifo;
    if Value(s, i) == 0 {
      FifoSleep(s, SemQueue(i), InP(i));
    } else {
      FifoSame(s, POp(s, i));
    }
  }

  lemma FifoCond(s: State, step: Step)
    requires Fifo(s) && Enabled(s, step) && (step.Wait? || step.Signal?)
    ensures Fifo(Apply(s, step))
  {
    hide Fifo;
    match step {
      case Wait(c, lockArg) =>
        if !(lockArg == None || (Bound(s, c).Some? && Bound(s, c) != lockArg)) {
          var l := lockArg.value;
          var v := s.(waitingLock := s.waitingLock[c := l]);
          FifoSame(s, v);
          FifoRelease(v, l);
          FifoSleep(ReleaseOp(v, l), CondQueue(c), InWait(c, l));
        }
      case Signal(c, lockArg) =>
        if !(lockArg == None || Queue(s, CondQueue(c)) == [] || Bound(s, c) != lockArg) {
          FifoWake(s, CondQueue(c));
          FifoSame(Wake(s, CondQueue(c)), SignalOp(s, c, lockArg));
        }
    }
  }

  lemma FifoYield(s: State)
    requires Fifo(s) && s.current.Some?
    ensures Fifo(YieldOp(s))
  {
    hide Fifo;
    if Queue(s, ReadyList) != [] {
      FifoReady(s, s.current.value);
      FifoSame(ReadyToRun(s, s.current.value), ReadyToRun(s, s.current.value).(current := None));
      FifoRun(ReadyToRun(s, s.current.value).(current := None));
    }
  }

  lemma ApplyFifo(s: State, step: Step)
    requires Fifo(s) && Enabled(s, step)
    ensures Fifo(Apply(s, step))
  {
    hide Fifo;
    match step {
      case Acquire(l) => FifoAcquire(s, l);
      case Release(l) => FifoRelease(s, l);
      case P(i) => FifoP(s, i);
      case V(i) =>
        var v := if Queue(s, SemQueue(i)) != [] then Wake(s, SemQueue(i)) else s;
        if Queue(s, SemQueue(i)) != [] {
          FifoWake(s, SemQueue(i));
        }
        FifoSame(v, VOp(s, i));
      case Wait(c, l) => FifoCond(s, step);
      case Signal(c, l) => FifoCond(s, step);
      case Yield => FifoYield(s);
      case Fork(child) => FifoReady(s, child);
      case Finish => FifoSame(s, FinishOp(s));
      case Dispatch => FifoRun(s);
      case Resume =>
        match ThreadOf(s, s.current.value).pc {
          case User =>
          case InAcquire(l) => FifoSame(s, Return(s));
          case InP(i) => FifoP(s, i);
          case InWait(c, l) => FifoAcquire(s, l);
        }
    }
  }

  // ----- conservation -----

  /** A semaphore's value is what it started with, plus the Vs, less the Ps that have completed. */
  ghost predicate Counted(s: State, first: map<int, nat>) {
    forall i :: Value(s, i) + Lookup(s.log.downs, i, 0) == Lookup(first, i, 0) + Lookup(s.log.ups, i, 0)
  }

  lemma CountedSame(s: State, u: State, first: map<int, nat>)
    requires Counted(s, first) && u.sems == s.sems && u.log.ups == s.log.ups && u.log.downs == s.log.downs
    ensures Counted(u, first)
  {
  }

  lemma CountedStep(s: State, u: State, first: map<int, nat>, i: int, up: nat, down: nat)
    requires Counted(s, first)
    requires Value(u, i) == Value(s, i) + up - down
    requires Lookup(u.log.ups, i, 0) == Lookup(s.log.ups, i, 0) + up
    requires Lookup(u.log.downs, i, 0) == Lookup(s.log.downs, i, 0) + down
    requires forall j :: j != i ==> Value(u, j) == Value(s, j)
    requires forall j :: j != i ==> Lookup(u.log.ups, j, 0) == Lookup(s.log.ups, j, 0)
    requires forall j :: j != i ==> Lookup(u.log.downs, j, 0) == Lookup(s.log.downs, j, 0)
    ensures Counted(u, first)
  {
  }

  lemma CountedP(s: State, i: int, first: map<int, nat>)
    requires Counted(s, first) && s.current.Some?
    ensures Counted(POp(s, i), first)
  {
    hide Counted;
    if Value(s, i) == 0 {
      CountedSame(s, POp(s, i), first);
    } else {
      CountedStep(s, POp(s, i), first, i, 0, 1);
    }
  }

  lemma CountedV(s: State, i: int, first: map<int, nat>)
    requires Counted(s, first)
    ensures Counted(VOp(s, i), first)
  {
    hide Counted;
    var v := if Queue(s, SemQueue(i)) != [] then Wake(s, SemQueue(i)) else s;
    CountedSame(s, v, first);
    CountedStep(v, Increment(v, i), first, i, 1, 0);
  }

  lemma CountedRelease(s: State, l: int)
    requires s.current.Some?
    ensures var u := ReleaseOp(s, l); u.sems == s.sems && u.log.ups == s.log.ups && u.log.downs == s.log.downs
  {
  }

  lemma ApplyCounted(s: State, step: Step, first: map<int, nat>)
    requires Counted(s, first) && Enabled(s, step)
    ensures Counted(Apply(s, step), first)
  {
    hide Counted, ReleaseOp, Lookup;
    match step {
      case Acquire(l) => CountedSame(s, AcquireOp(s, l), first);
      case Release(l) => CountedRelease(s, l); CountedSame(s, ReleaseOp(s, l), first);
      case P(i) => CountedP(s, i, first);
      case V(i) => CountedV(s, i, first);
      case Wait(c, l) => CountedWait(s, c, l, first);
      case Signal(c, l) => CountedSame(s, SignalOp(s, c, l), first);
      case Yield => CountedSame(s, YieldOp(s), first);
      case Fork(child) => CountedSame(s, ReadyToRun(s, child), first);
      case Finish => CountedSame(s, FinishOp(s), first);
      case Dispatch => CountedSame(s, Run(s), first);
      case Resume => CountedResume(s, first);
    }
  }

  lemma CountedResume(s: State, first: map<int, nat>)
    requires Counted(s, first) && s.current.Some?
    ensures Counted(ResumeOp(s), first)
  {
    hide Counted;
    match ThreadOf(s, s.current.value).pc {
      case User =>
      case InAcquire(l) => CountedSame(s, Return(s), first);
      case InP(i) => CountedP(s, i, first);
      case InWait(c, l) => CountedSame(s, AcquireOp(s, l), first);
    }
  }

  lemma CountedWait(s: State, c: int, lockArg: Option<int>, first: map<int, nat>)
    requires Counted(s, first) && s.current.Some?
    ensures Counted(WaitOp(s, c, lockArg), first)
  {
    hide Counted, ReleaseOp;
    if !(lockArg == None || (Bound(s, c).Some? && Bound(s, c) != lockArg)) {
      CountedRelease(s.(waitingLock := s.waitingLock[c := lockArg.value]), lockArg.value);
    }
    CountedSame(s, WaitOp(s, c, lockArg), first);
  }

  // ----- every reachable state -----

  ghost predicate Inv(s: State, first: map<int, nat>) {
    Placed(s) && LocksOk(s) && SemsOk(s) && CondsOk(s) && Fifo(s) && Counted(s, first)
  }

  /** The machine as it starts: one thread, running; nothing used yet. */
  function Start(main: Tid, first: map<int, nat>): State {
    State(Some(main), map[main := Thread(Running, User)], map[], map[], first, map[], Log(map[], map[], map[], map[]))
  }

  lemma StartInv(main: Tid, first: map<int, nat>)
    ensures Inv(Start(main, first), first)
    ensures var s := Start(main, first);
            && s.current == Some(main)
            && (forall t: Tid :: ThreadOf(s, t) == Thread(if t == main then Running else JustCreated, User))
            && (forall q :: Queue(s, q) == []) && (forall l :: LockOf(s, l) == Lock(true, None))
            && (forall c :: Bound(s, c) == None)
  {
    var s := Start(main, first);
    assert forall t: Tid :: ThreadOf(s, t) == if t == main then Thread(Running, User) else Thread(JustCreated, User);
  }

  lemma ApplyInv(s: State, step: Step, first: map<int, nat>)
    requires Inv(s, first) && Enabled(s, step)
    ensures Inv(Apply(s, step), first)
  {
    hide Placed, LocksOk, SemsOk, CondsOk, Fifo, Counted;
    ApplyPlaced(s, step);
    ApplyLocks(s, step);
    ApplySems(s, step);
    ApplyConds(s, step);
    ApplyFifo(s, step);
    ApplyCounted(s, step, first);
  }

  ghost predicate Runs(s: State, steps: seq<Step>)
    decreases |steps|
  {
    steps == [] || (Enabled(s, steps[0]) && Runs(Apply(s, steps[0]), steps[1..]))
  }

  ghost function ApplyAll(s: State, steps: seq<Step>): State
    requires Runs(s, steps)
    decreases |steps|
  {
    if steps == [] then s else ApplyAll(Apply(s, steps[0]), steps[1..])
  }

  /** The invariant holds in every state that any schedule of any threads can reach. */
  lemma {:induction false} RunsKeepInv(s: State, steps: seq<Step>, first: map<int, nat>)
    requires Inv(s, first) && Runs(s, steps)
    ensures Inv(ApplyAll(s, steps), first)
    decreases |steps|
  {
    if steps != [] {
      ApplyInv(s, steps[0], first);
      RunsKeepInv(Apply(s, steps[0]), steps[1..], first);
    }
  }
}

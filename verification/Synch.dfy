/** The code of threads/synch.cc, scheduler.cc and thread.cc: each method runs with interrupts off, and
    does to the kernel's fields what the machine's step does to its state. A thread that goes to sleep
    leaves its method there; what it does when it is dispatched again is Continue. */
module Synch {
  import opened Sequences
  import opened Kernel
  import opened KernelOutcomes

  /** Yield takes the next thread off the ready list before it puts the current one on. */
  lemma YieldOrder(s: State)
    requires s.current.Some? && Queue(s, ReadyList) != []
    ensures var next := Queue(s, ReadyList)[0];
            var v := Kernel.ReadyToRun(RemoveFirst(s, ReadyList), s.current.value);
            YieldOp(s) == SetThread(v, next, ThreadOf(v, next).(status := Running)).(current := Some(next))
  {
    var r, t := Queue(s, ReadyList), s.current.value;
    assert (r + [t])[0] == r[0] && (r + [t])[1..] == r[1..] + [t];
    var v, u := Kernel.ReadyToRun(RemoveFirst(s, ReadyList), t), Kernel.ReadyToRun(s, t);
    assert v.queues == s.queues[ReadyList := r[1..] + [t]];
    assert RemoveFirst(u, ReadyList).queues == s.queues[ReadyList := r[1..] + [t]];
    assert v.log == RemoveFirst(u, ReadyList).log;
  }

  /** The step has the outcome that it should, and keeps the machine's invariant. */
  ghost predicate Keeps(s: State, u: State, st: Step) {
    && (Enabled(s, st) && Placed(s) && LocksOk(s) ==> Outcome(s, u, st))
    && (forall first :: Enabled(s, st) && Inv(s, first) ==> Inv(u, first))
  }

  lemma StepKeeps(s: State, st: Step)
    ensures forall u :: (Enabled(s, st) ==> u == Apply(s, st)) ==> Keeps(s, u, st)
  {
    hide Inv, Apply, Placed, LocksOk, Outcome;
    if Enabled(s, st) && Placed(s) && LocksOk(s) {
      ApplyOutcome(s, st);
    }
    forall u, first | Enabled(s, st) && u == Apply(s, st) && Inv(s, first)
      ensures Inv(u, first)
    {
      ApplyInv(s, st, first);
    }
  }

  class System {
    var currentThread: Option<Tid>
    var threads: map<Tid, Thread>
    var queues: map<QueueId, seq<Tid>>
    var locks: map<int, Lock>
    var values: map<int, nat>
    var waitingLock: map<int, int>
    ghost var log: Log

    ghost function Now(): State
      reads this
    {
      State(currentThread, threads, queues, locks, values, waitingLock, log)
    }

    constructor (main: Tid, initialValues: map<int, nat>)
      ensures Now() == Start(main, initialValues)
    {
      currentThread := Some(main);
      threads := map[main := Thread(Running, User)];
      queues, locks, values, waitingLock := map[], map[], initialValues, map[];
      log := Log(map[], map[], map[], map[]);
    }

    // ----- List -----

    method Enqueue(q: QueueId, t: Tid)
      modifies this`queues, this`log
      ensures Now() == Append(old(Now()), q, t)
    {
      queues := queues[q := Lookup(queues, q, []) + [t]];
      log := log.(joined := log.joined[q := Lookup(log.joined, q, []) + [t]]);
    }

    method Dequeue(q: QueueId) returns (t: Option<Tid>)
      modifies this`queues, this`log
      ensures t == if Queue(old(Now()), q) == [] then None else Some(Queue(old(Now()), q)[0])
      ensures Now() == if t == None then old(Now()) else RemoveFirst(old(Now()), q)
    {
      var list := Lookup(queues, q, []);
      if list == [] {
        return None;
      }
      log := log.(left := log.left[q := Lookup(log.left, q, []) + [list[0]]]);
      queues := queues[q := list[1..]];
      return Some(list[0]);
    }

    method IsEmpty(q: QueueId) returns (empty: bool)
      ensures empty <==> Queue(Now(), q) == []
    {
      empty := Lookup(queues, q, []) == [];
    }

    // ----- Scheduler and Thread -----

    method SetStatus(t: Tid, status: Status)
      modifies this`threads
      ensures Now() == SetThread(old(Now()), t, ThreadOf(old(Now()), t).(status := status))
    {
      threads := threads[t := Lookup(threads, t, Thread(JustCreated, User)).(status := status)];
    }

    method ReadyToRun(t: Tid)
      modifies this`threads, this`queues, this`log
      ensures Now() == Kernel.ReadyToRun(old(Now()), t)
    {
      SetStatus(t, Ready);
      Enqueue(ReadyList, t);
    }

    /** The CPU goes to the first ready thread, if there is one. */
    method FindNextToRun() returns (t: Option<Tid>)
      modifies this`queues, this`log
      ensures t == if Queue(old(Now()), ReadyList) == [] then None else Some(Queue(old(Now()), ReadyList)[0])
      ensures Now() == if t == None then old(Now()) else RemoveFirst(old(Now()), ReadyList)
    {
      t := Dequeue(ReadyList);
    }

    method Run(next: Tid)
      modifies this`currentThread, this`threads
      ensures Now() == SetThread(old(Now()), next,
                ThreadOf(old(Now()), next).(status := Running)).(current := Some(next))
    {
      currentThread := Some(next);
      SetStatus(next, Running);
    }

    /** The current thread blocks inside an operation, and the CPU is free. */
    method Sleep(pc: Pc)
      requires currentThread.Some?
      modifies this`currentThread, this`threads
      ensures Now() == SetThread(old(Now()), old(currentThread).value, Thread(Blocked, pc)).(current := None)
    {
      threads := threads[currentThread.value := Thread(Blocked, pc)];
      currentThread := None;
    }

    /** The current thread leaves the operation it was in. */
    method BackToUser()
      requires currentThread.Some?
      modifies this`threads
      ensures Now() == Return(old(Now()))
    {
      var thread := Lookup(threads, currentThread.value, Thread(JustCreated, User));
      threads := threads[currentThread.value := thread.(pc := User)];
    }

    method Yield()
      requires currentThread.Some?
      modifies this
      ensures Now() == YieldOp(old(Now()))
      ensures Keeps(old(Now()), Now(), Step.Yield)
    {
      hide Keeps;
      StepKeeps(Now(), Step.Yield);
      ghost var s := Now();
      var next := FindNextToRun();
      if next != None {
        YieldOrder(s);
        ReadyToRun(currentThread.value);
        Run(next.value);
      }
    }

    method Fork(child: Tid)
      modifies this`threads, this`queues, this`log
      ensures Now() == Kernel.ReadyToRun(old(Now()), child)
      ensures Keeps(old(Now()), Now(), Step.Fork(child))
    {
      hide Keeps;
      StepKeeps(Now(), Step.Fork(child));
      ReadyToRun(child);
    }

    method Finish()
      requires currentThread.Some?
      modifies this`currentThread, this`threads
      ensures Now() == FinishOp(old(Now()))
      ensures Keeps(old(Now()), Now(), Step.Finish)
    {
      hide Keeps;
      StepKeeps(Now(), Step.Finish);
      threads := threads[currentThread.value := Thread(Destroyed, User)];
      currentThread := None;
    }

    /** The end of Sleep: what the idle loop does as soon as a thread is ready. */
    method Dispatch()
      requires Queue(Now(), ReadyList) != []
      modifies this
      ensures Now() == Kernel.Run(old(Now()))
      ensures Keeps(old(Now()), Now(), Step.Dispatch)
    {
      hide Keeps;
      StepKeeps(Now(), Step.Dispatch);
      var next := FindNextToRun();
      Run(next.value);
    }

    // ----- Semaphore -----

    /** P up to the point where it returns or sleeps; a thread that has slept comes here again. */
    method P(i: int)
      requires currentThread.Some?
      modifies this
      ensures Now() == POp(old(Now()), i)
      ensures Keeps(old(Now()), Now(), Step.P(i))
    {
      hide Keeps;
      StepKeeps(Now(), Step.P(i));
      if Lookup(values, i, 0) == 0 {
        Enqueue(SemQueue(i), currentThread.value);
        Sleep(InP(i));
        return;
      }
      values := values[i := Lookup(values, i, 0) - 1];
      log := log.(downs := log.downs[i := Lookup(log.downs, i, 0) + 1]);
      BackToUser();
    }

    method V(i: int)
      modifies this
      ensures Now() == VOp(old(Now()), i)
      ensures Keeps(old(Now()), Now(), Step.V(i))
    {
      hide Keeps;
      StepKeeps(Now(), Step.V(i));
      var thread := Dequeue(SemQueue(i));
      if thread != None {
        ReadyToRun(thread.value);
      }
      Increment(i);
    }

    method Increment(i: int)
      modifies this`values, this`log
      ensures Now() == Kernel.Increment(old(Now()), i)
    {
      values := values[i := Lookup(values, i, 0) + 1];
      log := log.(ups := log.ups[i := Lookup(log.ups, i, 0) + 1]);
    }

    // ----- Lock -----

    method IsHeldByCurrentThread(l: int) returns (held: bool)
      ensures held <==> LockOf(Now(), l).owner == currentThread
    {
      held := Lookup(locks, l, Lock(true, None)).owner == currentThread;
    }

    method Acquire(l: int)
      requires currentThread.Some?
      modifies this
      ensures Now() == AcquireOp(old(Now()), l)
      ensures Keeps(old(Now()), Now(), Step.Acquire(l))
    {
      hide Keeps;
      StepKeeps(Now(), Step.Acquire(l));
      var held := IsHeldByCurrentThread(l);
      if held {
        BackToUser();
        return;
      }
      if Lookup(locks, l, Lock(true, None)).free {
        locks := locks[l := Lock(false, currentThread)];
        BackToUser();
      } else {
        Enqueue(LockQueue(l), currentThread.value);
        Sleep(InAcquire(l));
      }
    }

    method Release(l: int)
      requires currentThread.Some?
      modifies this`locks, this`queues, this`threads, this`log
      ensures Now() == ReleaseOp(old(Now()), l)
      ensures Keeps(old(Now()), Now(), Step.Release(l))
    {
      hide Keeps;
      StepKeeps(Now(), Step.Release(l));
      var held := IsHeldByCurrentThread(l);
      if !held {
        return;
      }
      var empty := IsEmpty(LockQueue(l));
      if !empty {
        var thread := Dequeue(LockQueue(l));
        if thread != None {
          locks := locks[l := Lookup(locks, l, Lock(true, None)).(owner := thread)];
          ReadyToRun(thread.value);
        }
      } else {
        locks := locks[l := Lock(true, None)];
      }
    }

    // ----- Condition -----

    /** Wait up to the point where it sleeps. */
    method Wait(c: int, conditionLock: Option<int>)
      requires currentThread.Some?
      modifies this
      ensures Now() == WaitOp(old(Now()), c, conditionLock)
      ensures Keeps(old(Now()), Now(), Step.Wait(c, conditionLock))
    {
      hide Keeps;
      StepKeeps(Now(), Step.Wait(c, conditionLock));
      if conditionLock == None {
        return;
      } else if c !in waitingLock {
        waitingLock := waitingLock[c := conditionLock.value];
      } else if waitingLock[c] != conditionLock.value {
        return;
      }
      assert waitingLock == old(waitingLock)[c := conditionLock.value];
      Release(conditionLock.value);
      Enqueue(CondQueue(c), currentThread.value);
      Sleep(InWait(c, conditionLock.value));
    }

    method Signal(c: int, conditionLock: Option<int>)
      modifies this`queues, this`threads, this`waitingLock, this`log
      ensures Now() == SignalOp(old(Now()), c, conditionLock)
      ensures Keeps(old(Now()), Now(), Step.Signal(c, conditionLock))
    {
      hide Keeps;
      StepKeeps(Now(), Step.Signal(c, conditionLock));
      if conditionLock == None {
        return;
      }
      var empty := IsEmpty(CondQueue(c));
      if empty {
        return;
      } else if c !in waitingLock || waitingLock[c] != conditionLock.value {
        return;
      }
      var thread := Dequeue(CondQueue(c));
      if thread != None {
        ReadyToRun(thread.value);
      }
      empty := IsEmpty(CondQueue(c));
      if empty {
        waitingLock := waitingLock - {c};
      }
    }

    /** The whole loop, when no other thread gets a turn in it. It ends only because every Signal finds the
        lock that the waiters came with. */
    method Broadcast(c: int, conditionLock: int)
      requires Placed(Now()) && CondsOk(Now())
      requires Queue(Now(), CondQueue(c)) != [] ==> Bound(Now(), c) == Some(conditionLock)
      modifies this`queues, this`threads, this`waitingLock, this`log
      ensures Now() == BroadcastOp(old(Now()), c, conditionLock)
      ensures AllWoken(old(Now()), Now(), c)
    {
      ghost var start := Now();
      var empty := IsEmpty(CondQueue(c));
      while !empty
        invariant Placed(Now()) && CondsOk(Now()) && (empty <==> Queue(Now(), CondQueue(c)) == [])
        invariant !empty ==> Bound(Now(), c) == Some(conditionLock)
        invariant BroadcastOp(start, c, conditionLock) == BroadcastOp(Now(), c, conditionLock)
        decreases |Queue(Now(), CondQueue(c))|
      {
        SignalWakesLongest(Now(), c, conditionLock);
        SignalPlaced(Now(), c, Some(conditionLock));
        SignalConds(Now(), c, Some(conditionLock));
        Signal(c, Some(conditionLock));
        empty := IsEmpty(CondQueue(c));
      }
      BroadcastWakesAll(start, c, conditionLock);
    }

    /** A dispatched thread goes on where it fell asleep, with interrupts still off: it leaves Acquire as
        the owner, tests the semaphore again, or acquires the condition's lock again. */
    method Continue()
      requires currentThread.Some?
      modifies this
      ensures Now() == ResumeOp(old(Now()))
      ensures Keeps(old(Now()), Now(), Step.Resume)
    {
      hide Keeps;
      StepKeeps(Now(), Step.Resume);
      match Lookup(threads, currentThread.value, Thread(JustCreated, User)).pc {
        case User =>
        case InAcquire(l) => BackToUser();
        case InP(i) => P(i);
        case InWait(c, l) => Acquire(l);
      }
    }
  }
}

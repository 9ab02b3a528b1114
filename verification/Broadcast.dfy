/** Condition::Broadcast (threads/synch.cc) among other threads. Interrupts are on between the loop's test
    of the queue and the Signal, and between one Signal and the next test: any other thread may run there,
    wait, signal, take and give up locks. */
module Broadcasts {
  import opened Sequences
  import opened Kernel
  import opened KernelEffects

  /** Where the broadcasting thread is in the loop. */
  datatype Point = AtTest | AtSignal | Done

  /** Thread `who` is in Broadcast of condition `c`, which it has called with `lockArg`. */
  datatype Broadcast = Broadcast(
    k: State, who: Tid, c: int, lockArg: Option<int>, at: Point, signals: nat)

  /** The broadcasting thread goes on with the loop; or the kernel does something else. */
  datatype LoopStep = Turn | Other(step: Step)

  predicate LoopEnabled(s: Broadcast, step: LoopStep) {
    && s.at != Done
    && match step
       case Turn => InUserCode(s.k) && s.k.current == Some(s.who)
       case Other(st) => Enabled(s.k, st) && (s.k.current == Some(s.who) ==> Anywhere(st))
  }

  function TurnOp(s: Broadcast): Broadcast {
    if s.at == AtSignal then s.(k := SignalOp(s.k, s.c, s.lockArg), at := AtTest, signals := s.signals + 1)
    else if Queue(s.k, CondQueue(s.c)) == [] then s.(at := Done)
    else s.(at := AtSignal)
  }

  function LoopApply(s: Broadcast, step: LoopStep): Broadcast
    requires LoopEnabled(s, step)
  {
    match step
    case Turn => TurnOp(s)
    case Other(st) => s.(k := Apply(s.k, st))
  }

  // ----- what steps do to a condition -----

  /** A condition: who waits, who has ever begun to and ceased to, and the lock that it is bound to. */
  datatype View = View(queue: seq<Tid>, joined: seq<Tid>, left: seq<Tid>, bound: Option<int>)

  function ViewOf(k: State, c: int): View {
    var q := CondQueue(c);
    View(Queue(k, q), Lookup(k.log.joined, q, []), Lookup(k.log.left, q, []), Bound(k, c))
  }

  /** A Wait on the condition that gets as far as sleeping. */
  predicate Joins(k: State, st: Step, c: int) {
    st.Wait? && st.c == c && st.lockArg != None && (Bound(k, c) == None || Bound(k, c) == st.lockArg)
  }

  /** A Signal on the condition that wakes somebody. */
  predicate Wakes(k: State, st: Step, c: int) {
    st.Signal? && st.c == c && st.lockArg != None && Queue(k, CondQueue(c)) != [] && Bound(k, c) == st.lockArg
  }

  lemma SchedulingView(k: State, st: Step, c: int)
    requires Enabled(k, st) && (st.Fork? || st.Finish? || st.Dispatch?)
    ensures ViewOf(Apply(k, st), c) == ViewOf(k, c)
  {
  }

  lemma ReturnView(k: State, c: int)
    requires k.current.Some?
    ensures ViewOf(Return(k), c) == ViewOf(k, c)
  {
  }

  lemma AcquireView(k: State, l: int, c: int)
    requires k.current.Some?
    ensures ViewOf(AcquireOp(k, l), c) == ViewOf(k, c)
  {
  }

  lemma ReleaseView(k: State, l: int, c: int)
    requires k.current.Some?
    ensures ViewOf(ReleaseOp(k, l), c) == ViewOf(k, c)
  {
  }

  lemma PView(k: State, i: int, c: int)
    requires k.current.Some?
    ensures ViewOf(POp(k, i), c) == ViewOf(k, c)
  {
  }

  lemma VView(k: State, i: int, c: int)
    ensures ViewOf(VOp(k, i), c) == ViewOf(k, c)
  {
  }

  lemma YieldView(k: State, c: int)
    requires k.current.Some?
    ensures ViewOf(YieldOp(k), c) == ViewOf(k, c)
  {
  }

  lemma SleepView(k: State, d: int, pc: Pc, c: int)
    requires k.current.Some?
    ensures var v, t := ViewOf(k, c), k.current.value;
            ViewOf(Sleep(k, CondQueue(d), pc), c) ==
              if d == c then View(v.queue + [t], v.joined + [t], v.left, v.bound) else v
  {
  }

  lemma WaitView(k: State, d: int, lockArg: Option<int>, c: int)
    requires k.current.Some?
    ensures var v := ViewOf(k, c);
            ViewOf(WaitOp(k, d, lockArg), c) ==
              if Joins(k, Step.Wait(d, lockArg), c)
              then View(v.queue + [k.current.value], v.joined + [k.current.value], v.left, lockArg) else v
  {
    hide ReleaseOp, Sleep;
    if lockArg != None && (Bound(k, d) == None || Bound(k, d) == lockArg) {
      var w := k.(waitingLock := k.waitingLock[d := lockArg.value]);
      ReleaseView(w, lockArg.value, c);
      ReleaseLeaves(w, lockArg.value);
      SleepView(ReleaseOp(w, lockArg.value), d, InWait(d, lockArg.value), c);
    }
  }

  lemma ReleaseLeaves(k: State, l: int)
    requires k.current.Some?
    ensures ReleaseOp(k, l).current == k.current
  {
  }

  lemma SignalView(k: State, d: int, lockArg: Option<int>, c: int)
    ensures var v := ViewOf(k, c);
            ViewOf(SignalOp(k, d, lockArg), c) ==
              if Wakes(k, Step.Signal(d, lockArg), c)
              then View(v.queue[1..], v.joined, v.left + [v.queue[0]], if |v.queue| == 1 then None else v.bound) else v
  {
  }

  /** Nothing but a Wait that sleeps and a Signal that wakes changes a condition. */
  lemma ApplyView(k: State, st: Step, c: int)
    requires Enabled(k, st)
    ensures var v, u := ViewOf(k, c), ViewOf(Apply(k, st), c);
            if Joins(k, st, c) then
              u == View(v.queue + [k.current.value], v.joined + [k.current.value], v.left, st.lockArg)
            else if Wakes(k, st, c) then
              u == View(v.queue[1..], v.joined, v.left + [v.queue[0]], if |v.queue| == 1 then None else v.bound)
            else u == v
  {
    hide AcquireOp, ReleaseOp, POp, VOp, YieldOp, WaitOp, SignalOp, ViewOf;
    match st {
      case Acquire(l) => AcquireView(k, l, c);
      case Release(l) => ReleaseView(k, l, c);
      case P(i) => PView(k, i, c);
      case V(i) => VView(k, i, c);
      case Wait(d, l) => WaitView(k, d, l, c);
      case Signal(d, l) => SignalView(k, d, l, c);
      case Yield => YieldView(k, c);
      case Fork(child) => SchedulingView(k, st, c);
      case Finish => SchedulingView(k, st, c);
      case Dispatch => SchedulingView(k, st, c);
      case Resume =>
        match ThreadOf(k, k.current.value).pc {
          case User =>
          case InAcquire(l) => ReturnView(k, c);
          case InP(i) => PView(k, i, c);
          case InWait(_, l) => AcquireView(k, l, c);
        }
    }
  }

  // ----- what steps do to a thread in its own code -----

  /** The thread is on the CPU or in the ready list, and in its own code. */
  predicate Alive(th: Thread) {
    th == Thread(Running, User) || th == Thread(Ready, User)
  }

  /** Unless it does something itself, such a thread stays what it is, and keeps the locks that it owns. */
  lemma StaysAlive(k: State, st: Step, t: Tid, l: int)
    requires Placed(k) && LocksOk(k) && Enabled(k, st) && Alive(ThreadOf(k, t))
    requires k.current == Some(t) ==> Anywhere(st)
    ensures Alive(ThreadOf(Apply(k, st), t))
    ensures LockOf(k, l).owner == Some(t) ==> LockOf(Apply(k, st), l).owner == Some(t)
  {
    hide Placed, LocksOk, ReleaseOp, AcquireOp;
    match st {
      case Acquire(j) => AcquireSpares(k, j, t, l);
      case Release(j) => ReleaseSpares(k, j, t, l);
      case P(i) =>
      case V(i) => WakeSpares(k, SemQueue(i), t);
      case Wait(c, lockArg) => WaitSpares(k, c, lockArg, t, l);
      case Signal(c, _) => WakeSpares(k, CondQueue(c), t);
      case Yield =>
      case Fork(child) =>
      case Finish =>
      case Dispatch =>
      case Resume => ResumeSpares(k, t, l);
    }
  }

  lemma ResumeSpares(k: State, t: Tid, l: int)
    requires LocksOk(k) && Enabled(k, Resume) && Alive(ThreadOf(k, t))
    ensures Alive(ThreadOf(ResumeOp(k), t))
    ensures LockOf(k, l).owner == Some(t) ==> LockOf(ResumeOp(k), l).owner == Some(t)
  {
    hide LocksOk, AcquireOp;
    match ThreadOf(k, k.current.value).pc {
      case User =>
      case InAcquire(_) =>
      case InP(_) =>
      case InWait(_, j) => AcquireSpares(k, j, t, l);
    }
  }

  lemma AcquireSpares(k: State, j: int, t: Tid, l: int)
    requires LocksOk(k) && k.current.Some? && k.current != Some(t) && Alive(ThreadOf(k, t))
    ensures Alive(ThreadOf(AcquireOp(k, j), t))
    ensures LockOf(k, l).owner == Some(t) ==> LockOf(AcquireOp(k, j), l).owner == Some(t)
  {
  }

  lemma ReleaseSpares(k: State, j: int, t: Tid, l: int)
    requires Placed(k) && k.current.Some? && k.current != Some(t) && Alive(ThreadOf(k, t))
    ensures Alive(ThreadOf(ReleaseOp(k, j), t)) && ReleaseOp(k, j).current == k.current
    ensures LockOf(k, l).owner == Some(t) ==> LockOf(ReleaseOp(k, j), l).owner == Some(t)
  {
    WakeSpares(k, LockQueue(j), t);
  }

  lemma WaitSpares(k: State, c: int, lockArg: Option<int>, t: Tid, l: int)
    requires Placed(k) && k.current.Some? && k.current != Some(t) && Alive(ThreadOf(k, t))
    ensures Alive(ThreadOf(WaitOp(k, c, lockArg), t))
    ensures LockOf(k, l).owner == Some(t) ==> LockOf(WaitOp(k, c, lockArg), l).owner == Some(t)
  {
    hide Placed, ReleaseOp;
    if Joins(k, Step.Wait(c, lockArg), c) {
      var v := k.(waitingLock := k.waitingLock[c := lockArg.value]);
      SamePlaced(k, v);
      ReleaseSpares(v, lockArg.value, t, l);
    }
  }

  /** Nobody sleeps in a queue who is alive. */
  lemma WakeSpares(k: State, q: QueueId, t: Tid)
    requires Placed(k) && Alive(ThreadOf(k, t)) && q != ReadyList
    ensures Queue(k, q) != [] ==> Queue(k, q)[0] != t
  {
    if Queue(k, q) != [] {
      assert Queue(k, q)[0] in Queue(k, q);
    }
  }

  // ----- runs -----

  ghost predicate LoopRuns(s: Broadcast, steps: seq<LoopStep>)
    decreases |steps|
  {
    steps == [] || (LoopEnabled(s, steps[0]) && LoopRuns(LoopApply(s, steps[0]), steps[1..]))
  }

  ghost function LoopAll(s: Broadcast, steps: seq<LoopStep>): Broadcast
    requires LoopRuns(s, steps)
    decreases |steps|
  {
    if steps == [] then s else LoopAll(LoopApply(s, steps[0]), steps[1..])
  }

  /** How many of the steps are the broadcasting thread's. */
  function Turns(steps: seq<LoopStep>): nat {
    if steps == [] then 0 else (if steps[0] == Turn then 1 else 0) + Turns(steps[1..])
  }

  /** Whoever waits on the condition owns lock `l`, as the comments in synch.h demand. */
  ghost predicate OwnersWait(s: Broadcast, steps: seq<LoopStep>, l: int)
    requires LoopRuns(s, steps)
    decreases |steps|
  {
    steps == [] ||
    (&& (steps[0].Other? && Joins(s.k, steps[0].step, s.c) ==> LockOf(s.k, l).owner == s.k.current)
     && OwnersWait(LoopApply(s, steps[0]), steps[1..], l))
  }

  /** No other thread's Signal wakes anybody from the condition. */
  ghost predicate NobodyElseWakes(s: Broadcast, steps: seq<LoopStep>)
    requires LoopRuns(s, steps)
    decreases |steps|
  {
    steps == [] ||
    (&& (steps[0].Other? ==> !Wakes(s.k, steps[0].step, s.c))
     && NobodyElseWakes(LoopApply(s, steps[0]), steps[1..]))
  }

  /** The call: the thread is at the first test. */
  ghost predicate Called(s: Broadcast, first: map<int, nat>) {
    Inv(s.k, first) && s.at == AtTest && s.signals == 0 && Alive(ThreadOf(s.k, s.who))
  }

  /** Everybody who waited will find a Signal with the lock that the waiters came with. */
  predicate RightLock(s: Broadcast) {
    Queue(s.k, CondQueue(s.c)) == [] || (s.lockArg != None && Bound(s.k, s.c) == s.lockArg)
  }

  // ----- all are woken -----

  /** Those who waited have been woken, from the front, down to those who still wait; nobody has joined. */
  predicate Woken(v: View, u: View) {
    var n := |v.queue| - |u.queue|;
    && n >= 0 && u.queue == v.queue[n..] && u.left == v.left + v.queue[..n] && u.joined == v.joined
    && (u.queue != [] ==> u.bound == v.bound)
  }

  /** The loop, called in state `s`, has come to `u`. */
  ghost predicate Going(s: Broadcast, u: Broadcast, l: int) {
    && Placed(u.k) && LocksOk(u.k) && CondsOk(u.k)
    && u.who == s.who && u.c == s.c && u.lockArg == s.lockArg
    && Alive(ThreadOf(u.k, u.who)) && LockOf(u.k, l).owner == Some(u.who)
    && Woken(ViewOf(s.k, s.c), ViewOf(u.k, s.c))
    && (u.at == Done ==> Queue(u.k, CondQueue(s.c)) == [])
  }

  /** Every Signal so far has had somebody to wake, unless another thread woke that one first. */
  predicate Spent(s: Broadcast, u: Broadcast) {
    var n := |Queue(s.k, CondQueue(s.c))|;
    && u.signals + |Queue(u.k, CondQueue(s.c))| <= n
    && (u.at == AtSignal ==> u.signals < n)
  }

  lemma WokenOne(v: View, u: View, w: View)
    requires Woken(v, u) && u.queue != []
    requires w == View(u.queue[1..], u.joined, u.left + [u.queue[0]], if |u.queue| == 1 then None else u.bound)
    ensures Woken(v, w)
  {
  }

  /** The owner broadcasts, so nobody else may wait. */
  lemma StepGoes(s: Broadcast, u: Broadcast, step: LoopStep, l: int)
    requires Going(s, u, l) && LoopEnabled(u, step)
    requires step.Other? && Joins(u.k, step.step, u.c) ==> LockOf(u.k, l).owner == u.k.current
    ensures Going(s, LoopApply(u, step), l)
  {
    hide Placed, LocksOk, CondsOk, Woken;
    var w := LoopApply(u, step);
    if step.Other? || u.at == AtSignal {
      var st := if step.Other? then step.step else Step.Signal(u.c, u.lockArg);
      assert Enabled(u.k, st) && w.k == Apply(u.k, st);
      ApplyPlaced(u.k, st);
      ApplyLocks(u.k, st);
      ApplyConds(u.k, st);
      ApplyView(u.k, st, u.c);
      if step.Other? {
        StaysAlive(u.k, st, u.who, l);
      } else {
        SignalSpares(u, l);
      }
      if Wakes(u.k, st, u.c) {
        WokenOne(ViewOf(s.k, s.c), ViewOf(u.k, s.c), ViewOf(w.k, s.c));
      }
    }
  }

  /** A Signal that finds somebody has the right lock. */
  lemma StepSpends(s: Broadcast, u: Broadcast, step: LoopStep, l: int)
    requires Going(s, u, l) && RightLock(s) && Spent(s, u) && LoopEnabled(u, step)
    requires step.Other? && Joins(u.k, step.step, u.c) ==> LockOf(u.k, l).owner == u.k.current
    ensures Spent(s, LoopApply(u, step))
  {
    hide Placed, LocksOk, CondsOk, Apply;
    if step.Other? {
      ApplyView(u.k, step.step, u.c);
    } else if u.at == AtSignal {
      ApplyView(u.k, Step.Signal(u.c, u.lockArg), u.c);
    }
  }

  lemma SignalSpares(u: Broadcast, l: int)
    requires Placed(u.k) && Alive(ThreadOf(u.k, u.who))
    ensures var k := SignalOp(u.k, u.c, u.lockArg);
            Alive(ThreadOf(k, u.who)) && LockOf(k, l).owner == LockOf(u.k, l).owner
  {
    WakeSpares(u.k, CondQueue(u.c), u.who);
  }

  lemma {:induction false} RunGoes(s: Broadcast, u: Broadcast, steps: seq<LoopStep>, l: int)
    requires Going(s, u, l) && LoopRuns(u, steps) && OwnersWait(u, steps, l)
    ensures Going(s, LoopAll(u, steps), l)
    ensures RightLock(s) && Spent(s, u) ==> Spent(s, LoopAll(u, steps))
    decreases |steps|
  {
    if steps != [] {
      hide Going, RightLock, Spent;
      StepGoes(s, u, steps[0], l);
      if RightLock(s) && Spent(s, u) {
        StepSpends(s, u, steps[0], l);
      }
      RunGoes(s, LoopApply(u, steps[0]), steps[1..], l);
    }
  }

  function Position(s: Broadcast): nat {
    2 * s.signals + if s.at == AtTest then 0 else 1
  }

  lemma {:induction false} TurnsMade(s: Broadcast, steps: seq<LoopStep>)
    requires LoopRuns(s, steps)
    ensures Position(LoopAll(s, steps)) == Position(s) + Turns(steps)
    decreases |steps|
  {
    if steps != [] {
      TurnsMade(LoopApply(s, steps[0]), steps[1..]);
    }
  }

  /** Among any other threads: who waited when Broadcast was called is woken, in order, and nobody else
      is; the loop makes at most as many Signals as there were waiters, and ends; until then its thread is
      running, or ready to run. */
  lemma AllAreWoken(s: Broadcast, steps: seq<LoopStep>, l: int, first: map<int, nat>)
    requires Called(s, first) && LockOf(s.k, l).owner == Some(s.who) && RightLock(s)
    requires LoopRuns(s, steps) && OwnersWait(s, steps, l)
    ensures var u, n := LoopAll(s, steps), |Queue(s.k, CondQueue(s.c))|;
            && Woken(ViewOf(s.k, s.c), ViewOf(u.k, s.c))
            && u.signals <= n && Turns(steps) <= 2 * n + 1
            && (Turns(steps) == 2 * n + 1 ==> u.at == Done)
            && (u.at == Done ==> Queue(u.k, CondQueue(s.c)) == [] && Bound(u.k, s.c) == None)
            && (u.at != Done ==> LoopEnabled(u, Turn) || s.who in Queue(u.k, ReadyList))
  {
    hide Placed, LocksOk, CondsOk, Fifo, Counted, LoopAll, LoopRuns, OwnersWait;
    var u := LoopAll(s, steps);
    RunGoes(s, s, steps, l);
    TurnsMade(s, steps);
    BoundWhileWaiting(u.k, s.c);
    RunningOrReady(u.k, s.who);
  }

  lemma RunningOrReady(k: State, t: Tid)
    requires Placed(k) && Alive(ThreadOf(k, t))
    ensures k.current == Some(t) || t in Queue(k, ReadyList)
  {
  }

  // ----- with another lock -----

  lemma {:induction false} StaysStuck(s: Broadcast, steps: seq<LoopStep>)
    requires s.at != Done && !RightLock(s) && LoopRuns(s, steps) && NobodyElseWakes(s, steps)
    requires Bound(s.k, s.c) != None
    ensures var u, v, w := LoopAll(s, steps), ViewOf(s.k, s.c), ViewOf(LoopAll(s, steps).k, s.c);
            u.at != Done && v.queue <= w.queue && w.left == v.left && w.bound == v.bound
    decreases |steps|
  {
    if steps != [] {
      hide Apply, Enabled;
      if steps[0].Other? {
        ApplyView(s.k, steps[0].step, s.c);
      }
      StaysStuck(LoopApply(s, steps[0]), steps[1..]);
    }
  }

  /** With a lock that the waiters did not come with, or none, the loop does not end, and wakes nobody. */
  lemma WrongLockNeverEnds(s: Broadcast, steps: seq<LoopStep>, first: map<int, nat>)
    requires Called(s, first) && !RightLock(s) && LoopRuns(s, steps) && NobodyElseWakes(s, steps)
    ensures var u, v, w := LoopAll(s, steps), ViewOf(s.k, s.c), ViewOf(LoopAll(s, steps).k, s.c);
            u.at != Done && v.queue <= w.queue && w.left == v.left && w.bound == v.bound
  {
    BoundWhileWaiting(s.k, s.c);
    StaysStuck(s, steps);
  }

  lemma BoundWhileWaiting(k: State, c: int)
    requires CondsOk(k)
    ensures Bound(k, c) == None <==> Queue(k, CondQueue(c)) == []
  {
  }

  /** So if the callers own the lock that they wait with, and nobody else wakes the waiters, Broadcast ends
      exactly with the lock that they wait with, or with nobody waiting. */
  lemma EndsIff(s: Broadcast, steps: seq<LoopStep>, l: int, first: map<int, nat>)
    requires Called(s, first) && LockOf(s.k, l).owner == Some(s.who)
    requires LoopRuns(s, steps) && OwnersWait(s, steps, l) && NobodyElseWakes(s, steps)
    requires Turns(steps) > 2 * |Queue(s.k, CondQueue(s.c))|
    ensures LoopAll(s, steps).at == Done <==> RightLock(s)
  {
    if RightLock(s) {
      AllAreWoken(s, steps, l, first);
    } else {
      WrongLockNeverEnds(s, steps, first);
    }
  }

  /** The broadcasting thread's steps, with no other thread's between them. */
  function Alone(n: nat): seq<LoopStep> {
    seq(n, i => Turn)
  }

  lemma {:induction false} StuckAlone(s: Broadcast, n: nat)
    requires s.at != Done && !RightLock(s) && InUserCode(s.k) && s.k.current == Some(s.who)
    ensures LoopRuns(s, Alone(n)) && LoopAll(s, Alone(n)).at != Done && LoopAll(s, Alone(n)).k == s.k
    decreases n
  {
    if n > 0 {
      assert Alone(n)[1..] == Alone(n - 1);
      StuckAlone(TurnOp(s), n - 1);
    }
  }

  /** Thread 0 starts thread 1, acquires lock 1 and waits on condition 0 with it; thread 1 acquires lock 2. */
  const MEETING :=
    [Step.Fork(1)] + ([Step.Acquire(1)] + ([Step.Wait(0, Some(1))] + ([Dispatch] + ([Step.Acquire(2)] + []))))

  lemma RunsStep(k: State, st: Step, rest: seq<Step>)
    requires Enabled(k, st) && Runs(Apply(k, st), rest)
    ensures Runs(k, [st] + rest) && ApplyAll(k, [st] + rest) == ApplyAll(Apply(k, st), rest)
  {
    assert ([st] + rest)[1..] == rest;
  }

  lemma ThreadWaits(k: State)
    requires k == Apply(Start(0, map[]), Step.Fork(1))
    ensures Enabled(k, Step.Acquire(1)) && Enabled(Apply(k, Step.Acquire(1)), Step.Wait(0, Some(1)))
    ensures var u := Apply(Apply(k, Step.Acquire(1)), Step.Wait(0, Some(1)));
            && u.current == None && Queue(u, ReadyList) == [1] && ThreadOf(u, 1) == Thread(Ready, User)
            && Queue(u, CondQueue(0)) == [0] && Bound(u, 0) == Some(1) && LockOf(u, 2) == Lock(true, None)
  {
    var a := Apply(k, Step.Acquire(1));
    assert a.current == Some(0) && ThreadOf(a, 0) == Thread(Running, User) && ThreadOf(a, 1) == Thread(Ready, User);
    assert LockOf(a, 1) == Lock(false, Some(0)) && LockOf(a, 2) == Lock(true, None);
    assert Queue(a, ReadyList) == [1] && Queue(a, LockQueue(1)) == [] && Queue(a, CondQueue(0)) == [];
  }

  lemma OtherRuns(k: State)
    requires k.current == None && Queue(k, ReadyList) == [1] && ThreadOf(k, 1) == Thread(Ready, User)
    requires LockOf(k, 2) == Lock(true, None)
    ensures Enabled(k, Dispatch) && Enabled(Apply(k, Dispatch), Step.Acquire(2))
    ensures var u := Apply(Apply(k, Dispatch), Step.Acquire(2));
            && u.current == Some(1) && ThreadOf(u, 1) == Thread(Running, User) && LockOf(u, 2).owner == Some(1)
            && Queue(u, CondQueue(0)) == Queue(k, CondQueue(0)) && Bound(u, 0) == Bound(k, 0)
  {
  }

  lemma Meet() returns (k: State)
    ensures Runs(Start(0, map[]), MEETING) && k == ApplyAll(Start(0, map[]), MEETING)
    ensures k.current == Some(1) && Alive(ThreadOf(k, 1)) && LockOf(k, 2).owner == Some(1)
    ensures Queue(k, CondQueue(0)) == [0] && Bound(k, 0) == Some(1)
  {
    hide Runs, ApplyAll, AcquireOp, WaitOp, Run, ReadyToRun, Queue;
    var k1 := Apply(Start(0, map[]), Step.Fork(1));
    ThreadWaits(k1);
    var k2 := Apply(k1, Step.Acquire(1));
    var k3 := Apply(k2, Step.Wait(0, Some(1)));
    OtherRuns(k3);
    var k4 := Apply(k3, Dispatch);
    k := Apply(k4, Step.Acquire(2));
    RunsNone(k);
    RunsStep(k4, Step.Acquire(2), []);
    RunsStep(k3, Dispatch, [Step.Acquire(2)] + []);
    RunsStep(k2, Step.Wait(0, Some(1)), [Dispatch] + ([Step.Acquire(2)] + []));
    RunsStep(k1, Step.Acquire(1), [Step.Wait(0, Some(1))] + ([Dispatch] + ([Step.Acquire(2)] + [])));
    RunsStep(Start(0, map[]), Step.Fork(1),
             [Step.Acquire(1)] + ([Step.Wait(0, Some(1))] + ([Dispatch] + ([Step.Acquire(2)] + []))));
  }

  lemma RunsNone(k: State)
    ensures Runs(k, []) && ApplyAll(k, []) == k
  {
  }

  /** When thread 1 then broadcasts with the lock that it owns, it goes on for ever. */
  lemma NeverEndsHere(n: nat)
    ensures var k := Start(0, map[]);
            Runs(k, MEETING) &&
            var s := Broadcast(ApplyAll(k, MEETING), 1, 0, Some(2), AtTest, 0);
            && Called(s, map[]) && LockOf(s.k, 2).owner == Some(s.who) && Queue(s.k, CondQueue(0)) == [0]
            && LoopRuns(s, Alone(n)) && LoopAll(s, Alone(n)).at != Done
  {
    hide Inv, Runs, ApplyAll, LoopRuns, LoopAll, MEETING;
    var k := Meet();
    StartInv(0, map[]);
    RunsKeepInv(Start(0, map[]), MEETING, map[]);
    StuckAlone(Broadcast(k, 1, 0, Some(2), AtTest, 0), n);
  }
}

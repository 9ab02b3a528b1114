/** The monitor of threads/synchlist.cc: threads that append to and remove from a shared list, stepping
    between the kernel's operations in any order that the scheduler allows. Other threads do as they
    like, except with the list's own lock and condition. */
module SynchLists {
  import opened Sequences
  import opened Kernel
  import opened KernelEffects
  import opened KernelOutcomes

  /** Pointers; 0 is NULL. */
  type Item = nat

  const NULL: Item := 0
  const LOCK := 0
  const LIST_EMPTY := 0

  /** Where a thread is in the code of the list: the next thing that it does there once the kernel lets
      it. A thread that waits on the condition is at the loop's test again. */
  datatype Point =
    | Outside
    | AppendAcquire(item: Item)
    | AppendItem(item: Item)
    | AppendSignal
    | AppendRelease
    | RemoveAcquire
    | RemoveTest
    | RemoveRetest
    | RemoveItem(waited: bool)
    | RemoveRelease

  datatype ListState = ListState(k: State, at: map<Tid, Point>, items: seq<Item>, appended: seq<Item>,
                                 removed: seq<Item>)

  /** A thread starts an operation; the running thread goes on with one; or the kernel does something else. */
  datatype ListStep = StartAppend(item: Item) | StartRemove | Go | Other(step: Step)

  function At(s: ListState, t: Tid): Point {
    Lookup(s.at, t, Outside)
  }

  function Move(s: ListState, p: Point): ListState
    requires s.k.current.Some?
  {
    s.(at := s.at[s.k.current.value := p])
  }

  /** The operations that the code of other monitors may use at any time. */
  predicate Foreign(step: Step) {
    match step
    case Acquire(l) => l != LOCK
    case Release(l) => l != LOCK
    case Wait(c, l) => c != LIST_EMPTY && l != Some(LOCK)
    case Signal(c, _) => c != LIST_EMPTY
    case _ => true
  }

  predicate ListEnabled(s: ListState, step: ListStep) {
    match step
    case StartAppend(item) => InUserCode(s.k) && At(s, s.k.current.value) == Outside && item != NULL
    case StartRemove => InUserCode(s.k) && At(s, s.k.current.value) == Outside
    case Go => InUserCode(s.k) && At(s, s.k.current.value) != Outside
    case Other(st) => Enabled(s.k, st) && (Anywhere(st) || (Foreign(st) && At(s, s.k.current.value) == Outside))
  }

  /** What List::Remove returns. */
  function FirstItem(s: ListState): Item {
    if s.items == [] then NULL else s.items[0]
  }

  /** One turn of the loop in Remove. */
  function TestOp(s: ListState, waited: bool): ListState
    requires s.k.current.Some?
  {
    if s.items == [] then Move(s, RemoveRetest).(k := WaitOp(s.k, LIST_EMPTY, Some(LOCK)))
    else Move(s, RemoveItem(waited))
  }

  function GoOp(s: ListState): ListState
    requires s.k.current.Some?
  {
    match At(s, s.k.current.value)
    case Outside => s
    case AppendAcquire(item) => Move(s, AppendItem(item)).(k := AcquireOp(s.k, LOCK))
    case AppendItem(item) => Move(s, AppendSignal).(items := s.items + [item], appended := s.appended + [item])
    case AppendSignal => Move(s, AppendRelease).(k := SignalOp(s.k, LIST_EMPTY, Some(LOCK)))
    case AppendRelease => Move(s, Outside).(k := ReleaseOp(s.k, LOCK))
    case RemoveAcquire => Move(s, RemoveTest).(k := AcquireOp(s.k, LOCK))
    case RemoveTest => TestOp(s, false)
    case RemoveRetest => TestOp(s, true)
    case RemoveItem(_) =>
      Move(s, RemoveRelease).(
        items := if s.items == [] then [] else s.items[1..], removed := s.removed + [FirstItem(s)])
    case RemoveRelease => Move(s, Outside).(k := ReleaseOp(s.k, LOCK))
  }

  function ListApply(s: ListState, step: ListStep): ListState
    requires ListEnabled(s, step)
  {
    match step
    case StartAppend(item) => Move(s, AppendAcquire(item))
    case StartRemove => Move(s, RemoveAcquire)
    case Go => GoOp(s)
    case Other(st) => s.(k := Apply(s.k, st))
  }

  // ----- what holds of the monitor -----

  /** The kernel operations that a thread can be in, given where it is in the list's code. */
  predicate PcFits(p: Point, pc: Pc) {
    match p
    case Outside => !(pc.InAcquire? && pc.l == LOCK) && !(pc.InWait? && (pc.c == LIST_EMPTY || pc.l == LOCK))
    case AppendItem(_) => pc == User || pc == InAcquire(LOCK)
    case RemoveTest => pc == User || pc == InAcquire(LOCK)
    case RemoveRetest => pc == User || pc == InAcquire(LOCK) || pc == InWait(LIST_EMPTY, LOCK)
    case _ => pc == User
  }

  /** The stretch of code in which a thread that is in its own code must hold the lock. */
  predicate Inside(p: Point) {
    !(p.Outside? || p.AppendAcquire? || p.RemoveAcquire?)
  }

  predicate Holds(s: ListState, t: Tid) {
    Inside(At(s, t)) && ThreadOf(s.k, t).pc == User
  }

  /** Mutual exclusion, and what it protects. */
  ghost predicate Exclusive(s: ListState) {
    && (forall t: Tid :: PcFits(At(s, t), ThreadOf(s.k, t).pc))
    && (forall t: Tid :: Holds(s, t) ==> LockOf(s.k, LOCK).owner == Some(t))
    && (forall t: Tid :: At(s, t).RemoveItem? ==> s.items != [])
  }

  /** The list is first in, first out, and holds no NULL: the assertion in Remove does not fail. */
  ghost predicate InOrder(s: ListState) {
    && s.appended == s.removed + s.items
    && (forall i :: 0 <= i < |s.appended| ==> s.appended[i] != NULL)
    && (forall t: Tid :: At(s, t).AppendItem? ==> At(s, t).item != NULL)
    && (forall t: Tid :: At(s, t).AppendAcquire? ==> At(s, t).item != NULL)
  }

  /** Removers that have slept on the condition, have been signalled and have not taken an item yet. */
  ghost function InFlight(s: ListState): set<Tid> {
    set t: Tid | t in s.at && Flying(At(s, t), ThreadOf(s.k, t))
  }

  predicate Flying(p: Point, th: Thread) {
    p == RemoveItem(true) || (p == RemoveRetest && !Waits(th))
  }

  /** Asleep on the list's condition. */
  predicate Waits(th: Thread) {
    IsWaiting(th) && th.pc.c == LIST_EMPTY
  }

  predicate SomeoneWaits(s: ListState) {
    Queue(s.k, CondQueue(LIST_EMPTY)) != []
  }

  ghost predicate SignalPending(s: ListState) {
    exists t: Tid :: At(s, t) == AppendSignal
  }

  /** No wake-up is lost: as long as someone waits, there are no more items than signalled removers in
      flight, and one while an appender is about to signal. */
  ghost predicate NoneLost(s: ListState) {
    SomeoneWaits(s) ==> |s.items| <= |InFlight(s)| + if SignalPending(s) then 1 else 0
  }

  ghost predicate ListInv(s: ListState, first: map<int, nat>) {
    Inv(s.k, first) && Exclusive(s) && InOrder(s) && NoneLost(s)
  }

  /** In particular, whenever the lock is free. */
  lemma NoneLostWhenFree(s: ListState, first: map<int, nat>)
    requires ListInv(s, first) && LockOf(s.k, LOCK).free && SomeoneWaits(s)
    ensures |s.items| <= |InFlight(s)|
  {
  }

  // ----- what other steps of the kernel do to the monitor -----

  /** Steps that any thread may take at any time change nothing that the list can see. */
  lemma AnywhereSeen(k: State, st: Step)
    requires Placed(k) && Enabled(k, st) && (st.Yield? || st.Dispatch? || st.V? || st.Fork?)
    ensures var u := Apply(k, st); SameThreads(k, u) && u.locks == k.locks && SameConditions(k, u)
  {
    if st.V? {
      VSeen(k, st.i);
    } else {
      SchedulingSeen(k, st);
    }
  }

  ghost predicate OthersAsBefore(k: State, u: State, t: Tid) {
    forall x: Tid :: x != t ==> ThreadOf(u, x).pc == ThreadOf(k, x).pc && Waits(ThreadOf(u, x)) == Waits(ThreadOf(k, x))
  }

  /** Nor do other monitors' operations, by threads that are outside the list's code. */
  lemma ForeignSeen(k: State, st: Step)
    requires Placed(k) && LocksOk(k) && Enabled(k, st) && Foreign(st) && !Anywhere(st) && !st.Fork?
    ensures var u, t := Apply(k, st), k.current.value;
            && OthersAsBefore(k, u, t)
            && PcFits(Outside, ThreadOf(u, t).pc)
            && LockOf(u, LOCK) == LockOf(k, LOCK)
            && Queue(u, CondQueue(LIST_EMPTY)) == Queue(k, CondQueue(LIST_EMPTY))
  {
    hide Placed, LocksOk, AcquireOp, ReleaseOp, POp, SignalOp, WaitOp, FinishOp;
    match st {
      case Acquire(l) => AcquireSeen(k, l);
      case Release(l) => ReleaseSeen(k, l);
      case P(i) => PSeen(k, i);
      case Wait(c, l) =>
        if l.Some? && (Bound(k, c) == None || Bound(k, c) == l) {
          WaitSeen(k, c, l.value);
        } else {
          WrongWait(k, c, l);
        }
      case Signal(c, l) => SignalSeen(k, c, l);
      case Finish => FinishSeen(k);
    }
  }

  // ----- one step -----

  /** Only `t` has moved. */
  ghost predicate OnlyMoved(s: ListState, u: ListState, t: Tid) {
    OthersAsBefore(s.k, u.k, t) && forall x: Tid :: x != t ==> At(u, x) == At(s, x)
  }

  lemma Alone(s: ListState, t: Tid)
    requires Exclusive(s) && Holds(s, t)
    ensures forall x: Tid :: x != t ==> !Holds(s, x) && !At(s, x).RemoveItem? && !At(s, x).AppendSignal?
  {
    forall x: Tid | x != t
      ensures !Holds(s, x) && !At(s, x).RemoveItem? && !At(s, x).AppendSignal?
    {
      assert PcFits(At(s, x), ThreadOf(s.k, x).pc);
    }
  }

  lemma StaysExclusive(s: ListState, u: ListState, t: Tid)
    requires Exclusive(s) && OnlyMoved(s, u, t)
    requires PcFits(At(u, t), ThreadOf(u.k, t).pc)
    requires Holds(u, t) ==> LockOf(u.k, LOCK).owner == Some(t)
    requires Holds(s, t) || (LockOf(s.k, LOCK).owner.Some? ==> LockOf(u.k, LOCK).owner == LockOf(s.k, LOCK).owner)
    requires Holds(s, t) || u.items == s.items
    requires At(u, t).RemoveItem? ==> u.items != []
    ensures Exclusive(u)
  {
    if Holds(s, t) {
      Alone(s, t);
    }
    forall x: Tid
      ensures Holds(u, x) ==> LockOf(u.k, LOCK).owner == Some(x)
    {
      assert x != t ==> Holds(u, x) == Holds(s, x);
    }
  }

  lemma InFlightChange(s: ListState, u: ListState, t: Tid)
    requires OnlyMoved(s, u, t)
    ensures InFlight(u) == InFlight(s) - {t} + if Flying(At(u, t), ThreadOf(u.k, t)) then {t} else {}
  {
  }

  /** A step that leaves the items and the sleepers alone loses no wake-up, if it drops nobody in flight. */
  lemma NothingLost(s: ListState, u: ListState, t: Tid)
    requires NoneLost(s) && OnlyMoved(s, u, t) && u.items == s.items
    requires Queue(u.k, CondQueue(LIST_EMPTY)) == Queue(s.k, CondQueue(LIST_EMPTY))
    requires Flying(At(s, t), ThreadOf(s.k, t)) ==> Flying(At(u, t), ThreadOf(u.k, t))
    requires At(s, t) == AppendSignal ==> At(u, t) == AppendSignal
    ensures NoneLost(u)
  {
    hide InFlight, SignalPending;
    InFlightChange(s, u, t);
    InFlightMember(s, t);
    NoSmaller(InFlight(s), InFlight(u));
    StillPending(s, u, t);
  }

  lemma InFlightMember(s: ListState, t: Tid)
    ensures t in InFlight(s) <==> Flying(At(s, t), ThreadOf(s.k, t))
  {
  }

  lemma NoSmaller(a: set<Tid>, b: set<Tid>)
    requires a <= b
    ensures |a| <= |b|
  {
    assert b == a + (b - a);
  }

  lemma StillPending(s: ListState, u: ListState, t: Tid)
    requires forall x: Tid :: x != t ==> At(u, x) == At(s, x)
    requires At(s, t) == AppendSignal ==> At(u, t) == AppendSignal
    ensures SignalPending(s) ==> SignalPending(u)
  {
    if SignalPending(s) {
      var x: Tid :| At(s, x) == AppendSignal;
      assert At(u, x) == AppendSignal;
    }
  }

  lemma StaysInOrder(s: ListState, u: ListState, t: Tid)
    requires InOrder(s) && OnlyMoved(s, u, t)
    requires u.items == s.items && u.appended == s.appended && u.removed == s.removed
    requires At(u, t).AppendItem? || At(u, t).AppendAcquire? ==> At(u, t).item != NULL
    ensures InOrder(u)
  {
  }

  lemma StartKeeps(s: ListState, step: ListStep)
    requires Exclusive(s) && InOrder(s) && NoneLost(s) && ListEnabled(s, step)
    requires step.StartAppend? || step.StartRemove?
    ensures var u := ListApply(s, step); Exclusive(u) && InOrder(u) && NoneLost(u)
  {
    var u, t := ListApply(s, step), s.k.current.value;
    hide Exclusive, InOrder, NoneLost;
    StaysExclusive(s, u, t);
    StaysInOrder(s, u, t);
    NothingLost(s, u, t);
  }

  lemma AcquireKeeps(s: ListState, p: Point)
    requires Placed(s.k) && LocksOk(s.k) && Exclusive(s) && InOrder(s) && NoneLost(s) && InUserCode(s.k)
    requires At(s, s.k.current.value).RemoveAcquire? || At(s, s.k.current.value).AppendAcquire?
    requires p == if At(s, s.k.current.value).RemoveAcquire? then RemoveTest
               else AppendItem(At(s, s.k.current.value).item)
    ensures var u := Move(s, p).(k := AcquireOp(s.k, LOCK)); Exclusive(u) && InOrder(u) && NoneLost(u)
  {
    var u, t := Move(s, p).(k := AcquireOp(s.k, LOCK)), s.k.current.value;
    AcquireSeen(s.k, LOCK);
    assert p.AppendItem? ==> p.item != NULL;
    hide Exclusive, InOrder, NoneLost, Placed, LocksOk, AcquireOp;
    StaysExclusive(s, u, t);
    StaysInOrder(s, u, t);
    NothingLost(s, u, t);
  }

  lemma ReleaseKeeps(s: ListState)
    requires Placed(s.k) && Exclusive(s) && InOrder(s) && NoneLost(s) && InUserCode(s.k)
    requires At(s, s.k.current.value).AppendRelease? || At(s, s.k.current.value).RemoveRelease?
    ensures var u := Move(s, Outside).(k := ReleaseOp(s.k, LOCK)); Exclusive(u) && InOrder(u) && NoneLost(u)
  {
    var u, t := Move(s, Outside).(k := ReleaseOp(s.k, LOCK)), s.k.current.value;
    ReleaseSeen(s.k, LOCK);
    hide Exclusive, InOrder, NoneLost, Placed, ReleaseOp;
    StaysExclusive(s, u, t);
    StaysInOrder(s, u, t);
    NothingLost(s, u, t);
  }

  lemma AppendKeeps(s: ListState)
    requires Exclusive(s) && InOrder(s) && NoneLost(s) && InUserCode(s.k) && At(s, s.k.current.value).AppendItem?
    ensures var u := GoOp(s); Exclusive(u) && InOrder(u) && NoneLost(u)
  {
    var u, t := GoOp(s), s.k.current.value;
    assert Holds(s, t);
    Alone(s, t);
    StaysExclusive(s, u, t);
    AppendCounts(s, u, t);
  }

  lemma AppendCounts(s: ListState, u: ListState, t: Tid)
    requires NoneLost(s) && OnlyMoved(s, u, t) && |u.items| == |s.items| + 1 && u.k == s.k
    requires At(s, t).AppendItem? && At(u, t) == AppendSignal && forall x: Tid :: x != t ==> !At(s, x).AppendSignal?
    ensures NoneLost(u)
  {
    InFlightChange(s, u, t);
    assert InFlight(u) == InFlight(s);
    assert !SignalPending(s);
  }

  lemma TakeExclusive(s: ListState)
    requires Exclusive(s) && InUserCode(s.k) && At(s, s.k.current.value).RemoveItem?
    ensures s.items != [] && Exclusive(GoOp(s))
  {
    assert Holds(s, s.k.current.value);
    StaysExclusive(s, GoOp(s), s.k.current.value);
  }

  lemma TakeInOrder(s: ListState)
    requires InOrder(s) && s.items != [] && InUserCode(s.k) && At(s, s.k.current.value).RemoveItem?
    ensures InOrder(GoOp(s)) && FirstItem(s) != NULL
  {
    assert s.items == [s.items[0]] + s.items[1..];
    assert s.appended[|s.removed|] == s.items[0];
    assert forall x: Tid :: x != s.k.current.value ==> At(GoOp(s), x) == At(s, x);
  }

  lemma TakeNoneLost(s: ListState)
    requires Exclusive(s) && NoneLost(s) && s.items != [] && InUserCode(s.k) && At(s, s.k.current.value).RemoveItem?
    ensures NoneLost(GoOp(s))
  {
    var u, t := GoOp(s), s.k.current.value;
    assert Holds(s, t);
    Alone(s, t);
    assert !SignalPending(s);
    hide Exclusive, Holds;
    InFlightChange(s, u, t);
    assert InFlight(u) == InFlight(s) - {t};
    assert |InFlight(s)| <= |InFlight(u)| + 1;
  }

  lemma TakeKeeps(s: ListState)
    requires Exclusive(s) && InOrder(s) && NoneLost(s) && InUserCode(s.k) && At(s, s.k.current.value).RemoveItem?
    ensures var u := GoOp(s); Exclusive(u) && InOrder(u) && NoneLost(u)
  {
    hide Exclusive, InOrder, NoneLost, GoOp;
    TakeExclusive(s);
    TakeInOrder(s);
    TakeNoneLost(s);
  }

  /** Whoever waits on the list's condition came with the list's lock. */
  lemma BoundToLock(s: ListState)
    requires Placed(s.k) && CondsOk(s.k) && Exclusive(s)
    ensures SomeoneWaits(s) ==> Bound(s.k, LIST_EMPTY) == Some(LOCK)
    ensures !SomeoneWaits(s) ==> Bound(s.k, LIST_EMPTY) == None
    ensures SomeoneWaits(s) ==>
              var h := Queue(s.k, CondQueue(LIST_EMPTY))[0];
              At(s, h) == RemoveRetest && Waits(ThreadOf(s.k, h)) && ThreadOf(s.k, h).pc == InWait(LIST_EMPTY, LOCK)
  {
    if SomeoneWaits(s) {
      var h := Queue(s.k, CondQueue(LIST_EMPTY))[0];
      assert h in Queue(s.k, CondQueue(LIST_EMPTY));
      assert Place(ThreadOf(s.k, h)) == Some(CondQueue(LIST_EMPTY));
      assert PcFits(At(s, h), ThreadOf(s.k, h).pc);
    }
  }

  /** The signalled remover takes over from the pending signal. */
  lemma SignalKeeps(s: ListState)
    requires Placed(s.k) && CondsOk(s.k) && Exclusive(s) && InOrder(s) && NoneLost(s)
    requires InUserCode(s.k) && At(s, s.k.current.value).AppendSignal?
    ensures var u := GoOp(s); Exclusive(u) && InOrder(u) && NoneLost(u)
  {
    hide Placed, CondsOk, InOrder, Exclusive;
    var u, t := GoOp(s), s.k.current.value;
    BoundToLock(s);
    AtFits(s, t);
    OwnsInside(s, t);
    if SomeoneWaits(s) {
      var h := Queue(s.k, CondQueue(LIST_EMPTY))[0];
      SignalWakesLongest(s.k, LIST_EMPTY, LOCK);
      assert h != t;
      SignalLands(s, u, t, h);
    } else {
      StaysExclusive(s, u, t);
      StaysInOrder(s, u, t);
    }
  }

  lemma OwnsInside(s: ListState, t: Tid)
    requires Exclusive(s) && Inside(At(s, t)) && ThreadOf(s.k, t).pc == User
    ensures Holds(s, t) && LockOf(s.k, LOCK).owner == Some(t)
  {
  }

  lemma SignalLands(s: ListState, u: ListState, t: Tid, h: Tid)
    requires Exclusive(s) && InOrder(s) && NoneLost(s) && SomeoneWaits(s)
    requires At(s, t).AppendSignal? && Holds(s, t) && h != t && At(s, h) == RemoveRetest && Waits(ThreadOf(s.k, h))
    requires u.items == s.items && u.appended == s.appended && u.removed == s.removed
    requires forall x: Tid :: At(u, x) == if x == t then AppendRelease else At(s, x)
    requires forall x: Tid :: ThreadOf(u.k, x) == if x == h then ThreadOf(s.k, x).(status := Ready)
               else ThreadOf(s.k, x)
    requires LockOf(u.k, LOCK) == LockOf(s.k, LOCK)
    ensures Exclusive(u) && InOrder(u) && NoneLost(u)
  {
    assert forall x: Tid :: x in InFlight(s) <==> Flying(At(s, x), ThreadOf(s.k, x));
    assert forall x: Tid :: x in InFlight(u) <==> Flying(At(u, x), ThreadOf(u.k, x));
    assert InFlight(u) == InFlight(s) + {h};
  }

  lemma TestKeeps(s: ListState, waited: bool)
    requires Placed(s.k) && CondsOk(s.k) && Exclusive(s) && InOrder(s) && NoneLost(s) && InUserCode(s.k)
    requires At(s, s.k.current.value) == if waited then RemoveRetest else RemoveTest
    ensures var u := TestOp(s, waited); Exclusive(u) && InOrder(u) && NoneLost(u)
  {
    var u, t := TestOp(s, waited), s.k.current.value;
    assert Holds(s, t);
    if s.items == [] {
      BoundToLock(s);
      WaitSeen(s.k, LIST_EMPTY, LOCK);
      StaysExclusive(s, u, t);
      StaysInOrder(s, u, t);
    } else {
      StaysExclusive(s, u, t);
      StaysInOrder(s, u, t);
      NothingLost(s, u, t);
    }
  }

  lemma GoKeeps(s: ListState)
    requires Placed(s.k) && LocksOk(s.k) && CondsOk(s.k) && Exclusive(s) && InOrder(s) && NoneLost(s) && InUserCode(s.k)
    ensures var u := GoOp(s); Exclusive(u) && InOrder(u) && NoneLost(u)
  {
    hide Placed, LocksOk, CondsOk, Exclusive, InOrder, NoneLost, AcquireOp, ReleaseOp, WaitOp, SignalOp;
    match At(s, s.k.current.value) {
      case Outside =>
      case AppendAcquire(item) => AcquireKeeps(s, AppendItem(item));
      case AppendItem(item) => AppendKeeps(s);
      case AppendSignal => SignalKeeps(s);
      case AppendRelease => ReleaseKeeps(s);
      case RemoveAcquire => AcquireKeeps(s, RemoveTest);
      case RemoveTest => TestKeeps(s, false);
      case RemoveRetest => TestKeeps(s, true);
      case RemoveItem(_) => TakeKeeps(s);
      case RemoveRelease => ReleaseKeeps(s);
    }
  }

  /** When a thread is dispatched inside an operation, it is let on only with the lock. */
  lemma ResumeSeen(k: State)
    requires Placed(k) && LocksOk(k) && Enabled(k, Resume)
    ensures var u, t := ResumeOp(k), k.current.value;
            && OthersAsBefore(k, u, t) && !Waits(ThreadOf(u, t)) && !Waits(ThreadOf(k, t))
            && Queue(u, CondQueue(LIST_EMPTY)) == Queue(k, CondQueue(LIST_EMPTY))
            && (|| LockOf(u, LOCK) == LockOf(k, LOCK)
                || (LockOf(k, LOCK).owner == None && LockOf(u, LOCK).owner == Some(t)))
            && match ThreadOf(k, t).pc
               case User => true
               case InAcquire(l) => ThreadOf(u, t).pc == User && LockOf(u, l).owner == Some(t)
               case InP(i) => ThreadOf(u, t).pc in {User, InP(i)}
               case InWait(_, l) =>
                 ThreadOf(u, t).pc == InAcquire(l) || (ThreadOf(u, t).pc == User && LockOf(u, l).owner == Some(t))
  {
    var t := k.current.value;
    CurrentNotWaiting(k);
    hide Placed, LocksOk, AcquireOp, POp;
    match ThreadOf(k, t).pc {
      case User =>
      case InAcquire(l) => DispatchedOwns(k, t, l);
      case InP(i) => PSeen(k, i);
      case InWait(c, l) => AcquireSeen(k, l);
    }
  }

  lemma AtFits(s: ListState, t: Tid)
    requires Exclusive(s) && InOrder(s)
    ensures PcFits(At(s, t), ThreadOf(s.k, t).pc)
    ensures At(s, t).RemoveItem? ==> s.items != []
    ensures At(s, t).AppendItem? || At(s, t).AppendAcquire? ==> At(s, t).item != NULL
  {
  }

  lemma ResumeKeeps(s: ListState)
    requires Placed(s.k) && LocksOk(s.k) && Exclusive(s) && InOrder(s) && NoneLost(s) && Enabled(s.k, Resume)
    ensures var u := s.(k := ResumeOp(s.k)); Exclusive(u) && InOrder(u) && NoneLost(u)
  {
    hide Placed, LocksOk, Exclusive, InOrder, NoneLost, ResumeOp;
    var u, t := s.(k := ResumeOp(s.k)), s.k.current.value;
    ResumeSeen(s.k);
    AtFits(s, t);
    StaysExclusive(s, u, t);
    StaysInOrder(s, u, t);
    NothingLost(s, u, t);
  }

  lemma OtherKeeps(s: ListState, st: Step)
    requires Placed(s.k) && LocksOk(s.k) && Exclusive(s) && InOrder(s) && NoneLost(s) && ListEnabled(s, Other(st))
    ensures var u := ListApply(s, Other(st)); Exclusive(u) && InOrder(u) && NoneLost(u)
  {
    var u := ListApply(s, Other(st));
    if st.Resume? {
      ResumeKeeps(s);
    } else if Anywhere(st) || st.Fork? {
      AnywhereSeen(s.k, st);
      var t: Tid := if s.k.current.Some? then s.k.current.value else 0;
      AnywhereKeeps(s, u, t);
    } else {
      ForeignSeen(s.k, st);
      ForeignKeeps(s, u, s.k.current.value);
    }
  }

  lemma AnywhereKeeps(s: ListState, u: ListState, t: Tid)
    requires Exclusive(s) && InOrder(s) && NoneLost(s) && u == s.(k := u.k) && u.k.locks == s.k.locks
    requires SameThreads(s.k, u.k)
    requires Queue(u.k, CondQueue(LIST_EMPTY)) == Queue(s.k, CondQueue(LIST_EMPTY))
    ensures Exclusive(u) && InOrder(u) && NoneLost(u)
  {
    StaysExclusive(s, u, t);
    StaysInOrder(s, u, t);
    NothingLost(s, u, t);
  }

  lemma ForeignKeeps(s: ListState, u: ListState, t: Tid)
    requires Exclusive(s) && InOrder(s) && NoneLost(s) && u == s.(k := u.k) && LockOf(u.k, LOCK) == LockOf(s.k, LOCK)
    requires At(s, t) == Outside && PcFits(Outside, ThreadOf(u.k, t).pc)
    requires OthersAsBefore(s.k, u.k, t)
    requires Queue(u.k, CondQueue(LIST_EMPTY)) == Queue(s.k, CondQueue(LIST_EMPTY))
    ensures Exclusive(u) && InOrder(u) && NoneLost(u)
  {
    StaysExclusive(s, u, t);
    StaysInOrder(s, u, t);
    NothingLost(s, u, t);
  }

  /** The kernel step that a list step makes, if any. */
  function KernelStep(s: ListState, step: ListStep): Option<Step> {
    match step
    case StartAppend(_) => None
    case StartRemove => None
    case Other(st) => Some(st)
    case Go =>
      if s.k.current.None? then None
      else
        match At(s, s.k.current.value)
        case AppendAcquire(_) => Some(Acquire(LOCK))
        case AppendSignal => Some(Signal(LIST_EMPTY, Some(LOCK)))
        case AppendRelease => Some(Release(LOCK))
        case RemoveAcquire => Some(Acquire(LOCK))
        case RemoveTest => if s.items == [] then Some(Wait(LIST_EMPTY, Some(LOCK))) else None
        case RemoveRetest => if s.items == [] then Some(Wait(LIST_EMPTY, Some(LOCK))) else None
        case RemoveRelease => Some(Release(LOCK))
        case _ => None
  }

  /** The list does nothing to the kernel except through its operations. */
  lemma ThroughKernel(s: ListState, step: ListStep)
    requires ListEnabled(s, step)
    ensures KernelStep(s, step).Some? ==> Enabled(s.k, KernelStep(s, step).value)
    ensures ListApply(s, step).k == if KernelStep(s, step).Some? then Apply(s.k, KernelStep(s, step).value) else s.k
  {
  }

  /** Every step that the monitor makes does this, and keeps all of it. */
  lemma ListApplyKeeps(s: ListState, step: ListStep, first: map<int, nat>)
    requires ListInv(s, first) && ListEnabled(s, step)
    ensures ListInv(ListApply(s, step), first)
  {
    hide Placed, LocksOk, SemsOk, CondsOk, Fifo, Counted, Exclusive, InOrder, NoneLost, Apply, GoOp;
    ThroughKernel(s, step);
    if KernelStep(s, step).Some? {
      ApplyInv(s.k, KernelStep(s, step).value, first);
    }
    match step {
      case StartAppend(_) => StartKeeps(s, step);
      case StartRemove => StartKeeps(s, step);
      case Go => GoKeeps(s);
      case Other(st) => OtherKeeps(s, st);
    }
  }

  lemma StartListInv(main: Tid, first: map<int, nat>)
    ensures ListInv(ListState(Start(main, first), map[], [], [], []), first)
  {
  }

  /** Where the running thread has got to; no other has moved. */
  ghost predicate NowAt(s: ListState, u: ListState, p: Point)
    requires s.k.current.Some?
  {
    At(u, s.k.current.value) == p && forall x: Tid :: x != s.k.current.value ==> At(u, x) == At(s, x)
  }

  predicate SameItems(s: ListState, u: ListState) {
    u.items == s.items && u.appended == s.appended && u.removed == s.removed
  }

  /** The thread owned the monitor's lock, and has given it up. */
  ghost predicate Leaves(s: ListState, u: ListState)
    requires s.k.current.Some?
  {
    && NowAt(s, u, Outside) && SameItems(s, u)
    && LockOf(s.k, LOCK).owner == s.k.current && LockOf(u.k, LOCK).owner != s.k.current
    && Released(s.k, u.k, LOCK)
  }

  /** What each stretch of Append and Remove does. */
  ghost predicate GoOutcome(s: ListState, u: ListState)
    requires s.k.current.Some?
  {
    match At(s, s.k.current.value)
    case Outside => true
    case AppendAcquire(item) => NowAt(s, u, AppendItem(item)) && SameItems(s, u) && Acquired(s.k, u.k, LOCK)
    case AppendItem(item) =>
      && NowAt(s, u, AppendSignal) && u.k == s.k && u.items == s.items + [item]
      && u.appended == s.appended + [item] && u.removed == s.removed
    case AppendSignal =>
      NowAt(s, u, AppendRelease) && SameItems(s, u) && Signalled(s.k, u.k, LIST_EMPTY, Some(LOCK))
    case AppendRelease => Leaves(s, u)
    case RemoveAcquire => NowAt(s, u, RemoveTest) && SameItems(s, u) && Acquired(s.k, u.k, LOCK)
    case RemoveTest => Tested(s, u, false)
    case RemoveRetest => Tested(s, u, true)
    case RemoveItem(_) =>
      && NowAt(s, u, RemoveRelease) && u.k == s.k && s.items != [] && u.items == s.items[1..]
      && u.removed == s.removed + [s.items[0]] && u.appended == s.appended
    case RemoveRelease => Leaves(s, u)
  }

  /** A thread that starts an operation is at its first stretch. */
  lemma StartDoes(s: ListState, step: ListStep)
    requires ListEnabled(s, step) && (step.StartAppend? || step.StartRemove?)
    ensures var u := ListApply(s, step);
            && u.k == s.k && SameItems(s, u)
            && NowAt(s, u, if step.StartAppend? then AppendAcquire(step.item) else RemoveAcquire)
  {
  }

  /** With nothing in the list the thread waits, which gives up the lock; otherwise it goes on. */
  ghost predicate Tested(s: ListState, u: ListState, waited: bool)
    requires s.k.current.Some?
  {
    && SameItems(s, u)
    && if s.items != [] then NowAt(s, u, RemoveItem(waited)) && u.k == s.k
       else
         && NowAt(s, u, RemoveRetest) && Waited(s.k, u.k, LIST_EMPTY, Some(LOCK))
         && u.k.current == None && LockOf(u.k, LOCK).owner != s.k.current
  }

  lemma GoDoes(s: ListState, first: map<int, nat>)
    requires ListInv(s, first) && ListEnabled(s, Go)
    ensures GoOutcome(s, GoOp(s))
  {
    hide AcquireOp, ReleaseOp, WaitOp, SignalOp, Acquired, Released, Signalled, Waited, Placed, LocksOk, SemsOk,
         CondsOk, Fifo, Counted, InOrder, NoneLost;
    var t := s.k.current.value;
    match At(s, t) {
      case Outside =>
      case AppendAcquire(_) => AcquireOutcome(s.k, LOCK);
      case AppendItem(_) =>
      case AppendSignal => SignalOutcome(s.k, LIST_EMPTY, Some(LOCK));
      case AppendRelease => OwnerLeaves(s);
      case RemoveAcquire => AcquireOutcome(s.k, LOCK);
      case RemoveTest => TestDoes(s, false);
      case RemoveRetest => TestDoes(s, true);
      case RemoveItem(_) => AtFits(s, t);
      case RemoveRelease => OwnerLeaves(s);
    }
  }

  lemma OwnerLeaves(s: ListState)
    requires Placed(s.k) && LocksOk(s.k) && Exclusive(s) && InUserCode(s.k)
    requires At(s, s.k.current.value).AppendRelease? || At(s, s.k.current.value).RemoveRelease?
    ensures Leaves(s, Move(s, Outside).(k := ReleaseOp(s.k, LOCK)))
  {
    assert Holds(s, s.k.current.value);
    ReleaseOutcome(s.k, LOCK);
    NotQueued(s.k, LOCK);
    hide ReleaseOp, Placed, LocksOk, Exclusive;
  }

  lemma TestDoes(s: ListState, waited: bool)
    requires Placed(s.k) && LocksOk(s.k) && CondsOk(s.k) && Exclusive(s) && InUserCode(s.k)
    requires At(s, s.k.current.value).RemoveTest? || At(s, s.k.current.value).RemoveRetest?
    ensures Tested(s, TestOp(s, waited), waited)
  {
    hide WaitOp, Waited, Placed, LocksOk, CondsOk, Exclusive;
    if s.items == [] {
      BoundToLock(s);
      WaitOutcome(s.k, LIST_EMPTY, Some(LOCK));
      SleeperOwnsNothing(s.k, WaitOp(s.k, LIST_EMPTY, Some(LOCK)), LIST_EMPTY, LOCK);
    }
  }

  ghost predicate ListRuns(s: ListState, steps: seq<ListStep>)
    decreases |steps|
  {
    steps == [] || (ListEnabled(s, steps[0]) && ListRuns(ListApply(s, steps[0]), steps[1..]))
  }

  ghost function ListApplyAll(s: ListState, steps: seq<ListStep>): ListState
    requires ListRuns(s, steps)
    decreases |steps|
  {
    if steps == [] then s else ListApplyAll(ListApply(s, steps[0]), steps[1..])
  }

  /** In every reachable state of any number of appenders, removers and other threads. */
  lemma {:induction false} ListRunsKeepInv(s: ListState, steps: seq<ListStep>, first: map<int, nat>)
    requires ListInv(s, first) && ListRuns(s, steps)
    ensures ListInv(ListApplyAll(s, steps), first)
    decreases |steps|
  {
    if steps != [] {
      ListApplyKeeps(s, steps[0], first);
      ListRunsKeepInv(ListApply(s, steps[0]), steps[1..], first);
    }
  }

  /** What a remover takes is never NULL, and is the oldest item not yet removed. */
  lemma RemoverGetsItem(s: ListState, first: map<int, nat>)
    requires ListInv(s, first) && s.k.current.Some? && At(s, s.k.current.value).RemoveItem?
    ensures FirstItem(s) != NULL
    ensures s.removed + [FirstItem(s)] <= s.appended
  {
    assert s.items == [s.items[0]] + s.items[1..];
    assert s.appended[|s.removed|] == s.items[0];
  }
}

/** The request protocol of filesys/synchdisk.cc on top of the raw disk's `active` flag
    (machine/disk.cc): any number of threads read and write sectors, the disk's interrupt comes whenever
    it comes, and other threads do as they like with other locks and semaphores. */
module SynchDiskProtocol {
  import opened Sequences
  import opened Kernel
  import opened KernelEffects
  import opened KernelOutcomes

  const LOCK := 0
  const DONE := 0

  /** Where a thread is in ReadSector or WriteSector: the next thing that it does there. */
  datatype Point = Outside | AcquireLock | MakeRequest | WaitForInterrupt | ReleaseLock

  /** `issued` and `completed` count requests; `mine` numbers the request that a thread has made. */
  datatype DiskState = DiskState(k: State, at: map<Tid, Point>, active: bool, issued: nat, completed: nat,
                                 mine: map<Tid, nat>)

  datatype DiskStep = Start | Go | Interrupt | Other(step: Step)

  function At(s: DiskState, t: Tid): Point {
    Lookup(s.at, t, Outside)
  }

  function Mine(s: DiskState, t: Tid): nat {
    Lookup(s.mine, t, 0)
  }

  function Move(s: DiskState, p: Point): DiskState
    requires s.k.current.Some?
  {
    s.(at := s.at[s.k.current.value := p])
  }

  /** Nobody else uses the disk's lock and semaphore. */
  predicate Foreign(step: Step) {
    match step
    case Acquire(l) => l != LOCK
    case Release(l) => l != LOCK
    case Wait(_, l) => l != Some(LOCK)
    case P(i) => i != DONE
    case V(i) => i != DONE
    case _ => true
  }

  predicate DiskEnabled(s: DiskState, step: DiskStep) {
    match step
    case Start => InUserCode(s.k) && At(s, s.k.current.value) == Outside
    case Go => InUserCode(s.k) && At(s, s.k.current.value) != Outside
    case Interrupt => s.active && Enabled(s.k, V(DONE))
    case Other(st) => Enabled(s.k, st) && Foreign(st) && (Anywhere(st) || At(s, s.k.current.value) == Outside)
  }

  function GoOp(s: DiskState): DiskState
    requires s.k.current.Some?
  {
    match At(s, s.k.current.value)
    case Outside => s
    case AcquireLock => Move(s, MakeRequest).(k := AcquireOp(s.k, LOCK))
    case MakeRequest =>
      Move(s, WaitForInterrupt).(active := true, issued := s.issued + 1,
        mine := s.mine[s.k.current.value := s.issued + 1])
    case WaitForInterrupt => Move(s, ReleaseLock).(k := POp(s.k, DONE))
    case ReleaseLock => Move(s, Outside).(k := ReleaseOp(s.k, LOCK))
  }

  function DiskApply(s: DiskState, step: DiskStep): DiskState
    requires DiskEnabled(s, step)
  {
    match step
    case Start => Move(s, AcquireLock)
    case Go => GoOp(s)
    case Interrupt => s.(active := false, completed := s.completed + 1, k := VOp(s.k, DONE))
    case Other(st) => s.(k := Apply(s.k, st))
  }

  // ----- what holds of the protocol -----

  predicate PcFits(p: Point, pc: Pc) {
    match p
    case Outside => pc != InAcquire(LOCK) && !(pc.InWait? && pc.l == LOCK) && pc != InP(DONE)
    case MakeRequest => pc == User || pc == InAcquire(LOCK)
    case ReleaseLock => pc == User || pc == InP(DONE)
    case _ => pc == User
  }

  /** Between acquiring and releasing the lock. */
  predicate Holds(s: DiskState, t: Tid) {
    HoldsAt(At(s, t), ThreadOf(s.k, t).pc)
  }

  predicate HoldsAt(p: Point, pc: Pc) {
    p == WaitForInterrupt || p == ReleaseLock || (p == MakeRequest && pc == User)
  }

  ghost predicate Exclusive(s: DiskState) {
    && (forall t: Tid :: PcFits(At(s, t), ThreadOf(s.k, t).pc))
    && (forall t: Tid :: Holds(s, t) ==> LockOf(s.k, LOCK).owner == Some(t))
  }

  predicate HasRequested(p: Point) {
    p == WaitForInterrupt || p == ReleaseLock
  }

  /** Where the request of the thread that holds the lock is: with the disk, or its interrupt not yet
      taken notice of, or done with. Otherwise the disk is idle. */
  predicate PhaseFits(s: DiskState) {
    var owner := LockOf(s.k, LOCK).owner;
    if owner.Some? && HasRequested(At(s, owner.value)) then
      && Mine(s, owner.value) == s.issued
      && if At(s, owner.value) == ReleaseLock && ThreadOf(s.k, owner.value).pc == User
         then !s.active && Value(s.k, DONE) == 0
         else Value(s.k, DONE) == if s.active then 0 else 1
    else !s.active && Value(s.k, DONE) == 0
  }

  ghost predicate DiskInv(s: DiskState, first: map<int, nat>) {
    Inv(s.k, first) && Exclusive(s) && PhaseFits(s) && s.issued == s.completed + if s.active then 1 else 0
  }

  /** While the disk is active, the one thread whose request it is holds the lock, and the semaphore is
      zero. It is never more than one. */
  lemma ActiveMeansOwned(s: DiskState, first: map<int, nat>)
    requires DiskInv(s, first)
    ensures s.active ==>
              && LockOf(s.k, LOCK).owner.Some?
              && HasRequested(At(s, LockOf(s.k, LOCK).owner.value))
              && Mine(s, LockOf(s.k, LOCK).owner.value) == s.issued
              && (forall t: Tid :: HasRequested(At(s, t)) ==> LockOf(s.k, LOCK).owner == Some(t))
              && Value(s.k, DONE) == 0
    ensures Value(s.k, DONE) <= 1
  {
  }

  /** A request never finds the disk busy: the assertion in ReadRequest and WriteRequest holds. */
  lemma NeverBusy(s: DiskState, first: map<int, nat>)
    requires DiskInv(s, first) && InUserCode(s.k) && At(s, s.k.current.value) == MakeRequest
    ensures !s.active
  {
  }

  /** ReadSector and WriteSector return only when their own request has completed. */
  lemma ReturnsWhenDone(s: DiskState, first: map<int, nat>)
    requires DiskInv(s, first) && InUserCode(s.k) && At(s, s.k.current.value) == ReleaseLock
    ensures Mine(s, s.k.current.value) == s.completed
  {
  }

  // ----- one step -----

  /** The kernel looks the same from the disk, but for thread `t`. */
  ghost predicate OnlyMoved(s: DiskState, u: DiskState, t: Tid) {
    && (forall x: Tid :: x != t ==> At(u, x) == At(s, x) && ThreadOf(u.k, x).pc == ThreadOf(s.k, x).pc)
    && (forall x: Tid :: x != t ==> Mine(u, x) == Mine(s, x))
  }

  lemma StaysExclusive(s: DiskState, u: DiskState, t: Tid)
    requires Exclusive(s) && OnlyMoved(s, u, t)
    requires PcFits(At(u, t), ThreadOf(u.k, t).pc)
    requires Holds(u, t) ==> LockOf(u.k, LOCK).owner == Some(t)
    requires Holds(s, t) || (LockOf(s.k, LOCK).owner.Some? ==> LockOf(u.k, LOCK).owner == LockOf(s.k, LOCK).owner)
    ensures Exclusive(u)
  {
  }

  /** A step that does not concern the disk or the thread with a request leaves the phase as it is. */
  lemma SamePhase(s: DiskState, u: DiskState, t: Tid)
    requires Exclusive(s) && PhaseFits(s) && OnlyMoved(s, u, t)
    requires u.active == s.active && Value(u.k, DONE) == Value(s.k, DONE) && u.issued == s.issued
    requires !HasRequested(At(s, t)) && !HasRequested(At(u, t))
    requires LockOf(u.k, LOCK).owner == LockOf(s.k, LOCK).owner
          || (LockOf(s.k, LOCK).owner == None && LockOf(u.k, LOCK).owner == Some(t))
    ensures PhaseFits(u)
  {
  }

  /** What the rest of the kernel does. */
  lemma ForeignSeen(k: State, st: Step)
    requires Placed(k) && LocksOk(k) && Enabled(k, st) && Foreign(st) && !st.Resume?
    ensures var u := Apply(k, st);
            && LockOf(u, LOCK) == LockOf(k, LOCK) && Value(u, DONE) == Value(k, DONE)
            && forall x: Tid :: ThreadOf(u, x).pc == ThreadOf(k, x).pc
                 || (k.current == Some(x) && !Anywhere(st) && PcFits(Outside, ThreadOf(u, x).pc))
  {
    hide Placed, LocksOk, AcquireOp, ReleaseOp, POp, VOp, WaitOp, SignalOp, YieldOp, FinishOp;
    match st {
      case Acquire(l) => AcquireSeen(k, l);
      case Release(l) => ReleaseSeen(k, l);
      case P(i) => PSeen(k, i);
      case V(i) => VSeen(k, i);
      case Wait(c, l) =>
        if l.Some? && (Bound(k, c) == None || Bound(k, c) == l) {
          WaitSeen(k, c, l.value);
        } else {
          WrongWait(k, c, l);
        }
      case Signal(c, l) => SignalSeen(k, c, l);
      case Finish => FinishSeen(k);
      case _ => SchedulingSeen(k, st);
    }
  }

  ghost predicate Good(s: DiskState) {
    Exclusive(s) && PhaseFits(s) && s.issued == s.completed + if s.active then 1 else 0
  }

  lemma AcquireKeeps(s: DiskState)
    requires Placed(s.k) && LocksOk(s.k) && Good(s) && InUserCode(s.k) && At(s, s.k.current.value) == AcquireLock
    ensures Good(GoOp(s))
  {
    AcquireSeen(s.k, LOCK);
    StaysExclusive(s, GoOp(s), s.k.current.value);
    SamePhase(s, GoOp(s), s.k.current.value);
  }

  lemma RequestKeeps(s: DiskState)
    requires Good(s) && InUserCode(s.k) && At(s, s.k.current.value) == MakeRequest
    ensures Good(GoOp(s))
  {
  }

  lemma PKeeps(s: DiskState, u: DiskState)
    requires Placed(s.k) && Good(s) && s.k.current.Some? && HasRequested(At(s, s.k.current.value))
    requires At(s, s.k.current.value) == ReleaseLock ==> ThreadOf(s.k, s.k.current.value).pc == InP(DONE)
    requires u == Move(s, ReleaseLock).(k := POp(s.k, DONE))
    ensures Good(u)
  {
    assert Holds(s, s.k.current.value);
    PSeen(s.k, DONE);
    StaysExclusive(s, u, s.k.current.value);
  }

  lemma ReleaseKeeps(s: DiskState)
    requires Placed(s.k) && Good(s) && InUserCode(s.k) && At(s, s.k.current.value) == ReleaseLock
    ensures Good(GoOp(s))
  {
    var u, t := GoOp(s), s.k.current.value;
    assert Holds(s, t);
    ReleaseSeen(s.k, LOCK);
    StaysExclusive(s, u, t);
    var owner := LockOf(u.k, LOCK).owner;
    if owner.Some? {
      assert PcFits(At(s, owner.value), ThreadOf(s.k, owner.value).pc);
    }
  }

  lemma InterruptKeeps(s: DiskState)
    requires Placed(s.k) && Good(s) && DiskEnabled(s, Interrupt)
    ensures Good(DiskApply(s, Interrupt))
  {
    VSeen(s.k, DONE);
    var u := DiskApply(s, Interrupt);
    assert forall x: Tid :: At(u, x) == At(s, x) && Holds(u, x) == Holds(s, x);
    var owner := LockOf(s.k, LOCK).owner.value;
    assert !(At(s, owner) == ReleaseLock && ThreadOf(s.k, owner).pc == User);
  }

  lemma ResumeKeeps(s: DiskState)
    requires Placed(s.k) && LocksOk(s.k) && Good(s) && Enabled(s.k, Resume)
    ensures Good(s.(k := ResumeOp(s.k)))
  {
    hide Placed, LocksOk, Good, AcquireOp, POp;
    var u, t := s.(k := ResumeOp(s.k)), s.k.current.value;
    if ThreadOf(s.k, t).pc == InP(DONE) {
      AtFits(s, t);
      PKeeps(s, Move(s, ReleaseLock).(k := POp(s.k, DONE)));
      SameAt(Move(s, ReleaseLock).(k := POp(s.k, DONE)), u);
    } else {
      ResumeElsewhere(s);
    }
  }

  lemma AtFits(s: DiskState, t: Tid)
    requires Good(s)
    ensures PcFits(At(s, t), ThreadOf(s.k, t).pc)
  {
  }

  lemma ResumeElsewhere(s: DiskState)
    requires Placed(s.k) && LocksOk(s.k) && Good(s) && Enabled(s.k, Resume)
    requires ThreadOf(s.k, s.k.current.value).pc != InP(DONE)
    ensures Good(s.(k := ResumeOp(s.k)))
  {
    hide Placed, LocksOk, Exclusive, PhaseFits, AcquireOp, POp;
    var u, t := s.(k := ResumeOp(s.k)), s.k.current.value;
    AtFits(s, t);
    match ThreadOf(s.k, t).pc {
      case User =>
      case InAcquire(l) => DispatchedOwns(s.k, t, l);
      case InP(i) => PSeen(s.k, i);
      case InWait(c, l) => AcquireSeen(s.k, l);
    }
    StaysExclusive(s, u, t);
    SamePhase(s, u, t);
  }

  lemma SameAt(s: DiskState, u: DiskState)
    requires Good(s) && u == s.(at := u.at) && forall x: Tid :: At(u, x) == At(s, x)
    ensures Good(u)
  {
  }

  lemma OtherKeeps(s: DiskState, st: Step)
    requires Placed(s.k) && LocksOk(s.k) && Good(s) && DiskEnabled(s, Other(st)) && !st.Resume?
    ensures Good(DiskApply(s, Other(st)))
  {
    ForeignSeen(s.k, st);
    ForeignKeeps(s, DiskApply(s, Other(st)));
  }

  lemma ForeignKeeps(s: DiskState, u: DiskState)
    requires Good(s) && u == s.(k := u.k)
    requires LockOf(u.k, LOCK) == LockOf(s.k, LOCK) && Value(u.k, DONE) == Value(s.k, DONE)
    requires forall x: Tid :: ThreadOf(u.k, x).pc == ThreadOf(s.k, x).pc
                              || (At(s, x) == Outside && PcFits(Outside, ThreadOf(u.k, x).pc))
    ensures Good(u)
  {
  }

  lemma StartKeeps(s: DiskState)
    requires Good(s) && DiskEnabled(s, Start)
    ensures Good(DiskApply(s, Start))
  {
  }

  lemma GoKeeps(s: DiskState)
    requires Placed(s.k) && LocksOk(s.k) && Good(s) && InUserCode(s.k)
    ensures Good(GoOp(s))
  {
    hide Placed, LocksOk, Good;
    match At(s, s.k.current.value) {
      case Outside =>
      case AcquireLock => AcquireKeeps(s);
      case MakeRequest => RequestKeeps(s);
      case WaitForInterrupt => PKeeps(s, GoOp(s));
      case ReleaseLock => ReleaseKeeps(s);
    }
  }

  /** The kernel step that a disk step makes, if any. */
  function KernelStep(s: DiskState, step: DiskStep): Option<Step> {
    match step
    case Start => None
    case Interrupt => Some(V(DONE))
    case Other(st) => Some(st)
    case Go =>
      if s.k.current.None? then None
      else
        match At(s, s.k.current.value)
        case AcquireLock => Some(Acquire(LOCK))
        case WaitForInterrupt => Some(P(DONE))
        case ReleaseLock => Some(Release(LOCK))
        case _ => None
  }

  lemma ThroughKernel(s: DiskState, step: DiskStep)
    requires DiskEnabled(s, step)
    ensures KernelStep(s, step).Some? ==> Enabled(s.k, KernelStep(s, step).value)
    ensures DiskApply(s, step).k == if KernelStep(s, step).Some? then Apply(s.k, KernelStep(s, step).value) else s.k
  {
  }

  lemma DiskApplyKeeps(s: DiskState, step: DiskStep, first: map<int, nat>)
    requires DiskInv(s, first) && DiskEnabled(s, step)
    ensures DiskInv(DiskApply(s, step), first)
  {
    hide Placed, LocksOk, SemsOk, CondsOk, Fifo, Counted, Exclusive, PhaseFits, Apply, GoOp;
    ThroughKernel(s, step);
    if KernelStep(s, step).Some? {
      ApplyInv(s.k, KernelStep(s, step).value, first);
    }
    match step {
      case Start => StartKeeps(s);
      case Go => GoKeeps(s);
      case Interrupt => InterruptKeeps(s);
      case Other(st) =>
        if st.Resume? {
          ResumeKeeps(s);
          assert Apply(s.k, st) == ResumeOp(s.k) by {
            ResumeIs(s.k);
          }
        } else {
          OtherKeeps(s, st);
        }
    }
  }

  lemma ResumeIs(k: State)
    requires Enabled(k, Resume)
    ensures Apply(k, Resume) == ResumeOp(k)
  {
  }

  /** The semaphore starts at zero, the disk idle. */
  lemma StartDiskInv(main: Tid, first: map<int, nat>)
    requires Lookup(first, DONE, 0) == 0
    ensures DiskInv(DiskState(Kernel.Start(main, first), map[], false, 0, 0, map[]), first)
  {
  }

  /** The thread is at a point, and no other has moved. */
  ghost predicate NowAt(s: DiskState, u: DiskState, p: Point)
    requires s.k.current.Some?
  {
    At(u, s.k.current.value) == p && forall x: Tid :: x != s.k.current.value ==> At(u, x) == At(s, x)
  }

  predicate SameRequests(s: DiskState, u: DiskState) {
    u.active == s.active && u.issued == s.issued && u.completed == s.completed && u.mine == s.mine
  }

  /** What each stretch of ReadSector and WriteSector does. */
  ghost predicate GoOutcome(s: DiskState, u: DiskState)
    requires s.k.current.Some?
  {
    match At(s, s.k.current.value)
    case Outside => true
    case AcquireLock => NowAt(s, u, MakeRequest) && SameRequests(s, u) && Acquired(s.k, u.k, LOCK)
    case MakeRequest =>
      && NowAt(s, u, WaitForInterrupt) && u.k == s.k
      && !s.active && u.active && u.issued == s.issued + 1 == Mine(u, s.k.current.value) && u.completed == s.completed
    case WaitForInterrupt => NowAt(s, u, ReleaseLock) && SameRequests(s, u) && Took(s.k, u.k, DONE)
    case ReleaseLock =>
      && NowAt(s, u, Outside) && SameRequests(s, u) && Released(s.k, u.k, LOCK)
      && LockOf(s.k, LOCK).owner == s.k.current && LockOf(u.k, LOCK).owner != s.k.current
  }

  lemma StartDoes(s: DiskState)
    requires DiskEnabled(s, Start)
    ensures var u := DiskApply(s, Start); u.k == s.k && SameRequests(s, u) && NowAt(s, u, AcquireLock)
  {
  }

  lemma GoDoes(s: DiskState, first: map<int, nat>)
    requires DiskInv(s, first) && DiskEnabled(s, Go)
    ensures GoOutcome(s, GoOp(s))
  {
    hide AcquireOp, ReleaseOp, POp, Acquired, Released, Took, Placed, LocksOk, SemsOk, CondsOk, Fifo, Counted;
    match At(s, s.k.current.value) {
      case Outside =>
      case AcquireLock => AcquireOutcome(s.k, LOCK);
      case MakeRequest => NeverBusy(s, first);
      case WaitForInterrupt => POutcome(s.k, DONE);
      case ReleaseLock => OwnerLeaves(s);
    }
  }

  lemma OwnerLeaves(s: DiskState)
    requires Placed(s.k) && LocksOk(s.k) && Exclusive(s) && InUserCode(s.k) && At(s, s.k.current.value) == ReleaseLock
    ensures var k := ReleaseOp(s.k, LOCK);
            && Released(s.k, k, LOCK)
            && LockOf(s.k, LOCK).owner == s.k.current && LockOf(k, LOCK).owner != s.k.current
  {
    assert Holds(s, s.k.current.value);
    ReleaseOutcome(s.k, LOCK);
    NotQueued(s.k, LOCK);
    hide ReleaseOp, Placed, LocksOk, Exclusive;
  }

  ghost predicate DiskRuns(s: DiskState, steps: seq<DiskStep>)
    decreases |steps|
  {
    steps == [] || (DiskEnabled(s, steps[0]) && DiskRuns(DiskApply(s, steps[0]), steps[1..]))
  }

  ghost function DiskApplyAll(s: DiskState, steps: seq<DiskStep>): DiskState
    requires DiskRuns(s, steps)
    decreases |steps|
  {
    if steps == [] then s else DiskApplyAll(DiskApply(s, steps[0]), steps[1..])
  }

  /** For any number of threads and any timing of the disk's interrupt. */
  lemma {:induction false} DiskRunsKeepInv(s: DiskState, steps: seq<DiskStep>, first: map<int, nat>)
    requires DiskInv(s, first) && DiskRuns(s, steps)
    ensures DiskInv(DiskApplyAll(s, steps), first)
    decreases |steps|
  {
    if steps != [] {
      DiskApplyKeeps(s, steps[0], first);
      DiskRunsKeepInv(DiskApply(s, steps[0]), steps[1..], first);
    }
  }
}

/** The code of filesys/synchdisk.cc, one stretch between calls of the kernel at a time, on the request
    flag of machine/disk.cc. */
module SynchDiskCode {
  import opened Sequences
  import opened Kernel
  import opened KernelEffects
  import opened Synch
  import opened SynchDiskProtocol

  /** The interrupt leaves the lock where it is and posts the semaphore. */
  lemma InterruptSeen(s: DiskState, first: map<int, nat>)
    requires DiskInv(s, first) && DiskEnabled(s, Interrupt)
    ensures var u := DiskApply(s, Interrupt);
            && LockOf(u.k, LOCK) == LockOf(s.k, LOCK) && Value(u.k, DONE) == 1
            && u.issued == u.completed && u.at == s.at && u.mine == s.mine
  {
    VSeen(s.k, DONE);
    ActiveMeansOwned(s, first);
  }

  class SynchDisk {
    const kernel: System
    var active: bool
    /** Where the threads are in ReadSector and WriteSector. */
    var at: map<Tid, Point>
    ghost var issued: nat
    ghost var completed: nat
    ghost var mine: map<Tid, nat>

    ghost function Now(): DiskState
      reads this, kernel
    {
      DiskState(kernel.Now(), at, active, issued, completed, mine)
    }

    /** On a machine that has just started, this is where the protocol starts. */
    constructor (kernel: System)
      ensures this.kernel == kernel && Now() == DiskState(kernel.Now(), map[], false, 0, 0, map[])
    {
      this.kernel := kernel;
      at, active, issued, completed, mine := map[], false, 0, 0, map[];
    }

    method GoTo(p: Point)
      requires kernel.currentThread.Some?
      modifies this`at
      ensures Now() == Move(old(Now()), p)
    {
      at := at[kernel.currentThread.value := p];
    }

    /** Disk::ReadRequest and Disk::WriteRequest, which assert that the disk is not busy. */
    method MakeDiskRequest()
      requires kernel.currentThread.Some? && !active
      modifies this`active, this`issued, this`mine
      ensures active && issued == old(issued) + 1 && mine == old(mine)[kernel.currentThread.value := issued]
    {
      active := true;
      issued := issued + 1;
      mine := mine[kernel.currentThread.value := issued];
    }

    /** ReadSector or WriteSector, from where the current thread is in it. When it returns, its own request
        is the one that has completed last. */
    method Access(ghost first: map<int, nat>) returns (returned: bool)
      requires DiskInv(Now(), first) && InUserCode(kernel.Now()) && At(Now(), kernel.currentThread.value) != Outside
      modifies this, kernel
      ensures Now() == GoOp(old(Now())) && DiskInv(Now(), first) && GoOutcome(old(Now()), Now())
      ensures returned ==> old(Mine(Now(), kernel.currentThread.value)) == completed && completed == old(completed)
    {
      hide DiskInv, AcquireOp, ReleaseOp, POp, GoOutcome;
      DiskApplyKeeps(Now(), Go, first);
      GoDoes(Now(), first);
      returned := false;
      match Lookup(at, kernel.currentThread.value, Outside) {
        case AcquireLock =>
          GoTo(MakeRequest);
          kernel.Acquire(LOCK);
        case MakeRequest =>
          NeverBusy(Now(), first);
          GoTo(WaitForInterrupt);
          MakeDiskRequest();
        case WaitForInterrupt =>
          GoTo(ReleaseLock);
          kernel.P(DONE);
        case ReleaseLock =>
          ReturnsWhenDone(Now(), first);
          GoTo(Outside);
          kernel.Release(LOCK);
          returned := true;
      }
    }

    /** Disk::HandleInterrupt and, through it, RequestDone: the protocol's interrupt. The request that has
        completed is the one of the thread that holds the lock, and that one's P will not block. */
    method RequestDone(ghost first: map<int, nat>)
      requires DiskInv(Now(), first) && DiskEnabled(Now(), Interrupt)
      modifies this`active, this`completed, kernel
      ensures Now() == DiskApply(old(Now()), Interrupt) && DiskInv(Now(), first)
      ensures var owner := LockOf(kernel.Now(), LOCK).owner;
              && owner.Some? && owner == LockOf(old(kernel.Now()), LOCK).owner
              && HasRequested(At(Now(), owner.value)) && Mine(Now(), owner.value) == completed
      ensures !active && completed == old(completed) + 1 == issued && Value(kernel.Now(), DONE) == 1
    {
      hide DiskInv, VOp;
      ghost var s := Now();
      DiskApplyKeeps(s, Interrupt, first);
      ActiveMeansOwned(s, first);
      InterruptSeen(s, first);
      active := false;
      completed := completed + 1;
      kernel.V(DONE);
    }
  }
}

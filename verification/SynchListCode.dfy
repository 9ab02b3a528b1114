/** The code of threads/synchlist.cc, one stretch between calls of the kernel at a time. */
module SynchListCode {
  import opened Sequences
  import opened Kernel
  import opened Synch
  import opened SynchLists

  lemma ListStepKeeps(s: ListState, first: map<int, nat>)
    requires ListEnabled(s, Go)
    ensures ListInv(s, first) ==> ListInv(GoOp(s), first) && GoOutcome(s, GoOp(s))
  {
    hide ListInv, GoOutcome;
    if ListInv(s, first) {
      ListApplyKeeps(s, Go, first);
      GoDoes(s, first);
    }
  }

  class SynchList {
    const kernel: System
    /** Where the threads are in Append and Remove. */
    var at: map<Tid, Point>
    var list: seq<Item>
    ghost var appended: seq<Item>
    ghost var removed: seq<Item>

    ghost function Now(): ListState
      reads this, kernel
    {
      ListState(kernel.Now(), at, list, appended, removed)
    }

    constructor (kernel: System)
      ensures this.kernel == kernel && Now() == ListState(kernel.Now(), map[], [], [], [])
    {
      this.kernel := kernel;
      at, list, appended, removed := map[], [], [], [];
    }

    method GoTo(p: Point)
      requires kernel.currentThread.Some?
      modifies this`at
      ensures Now() == Move(old(Now()), p)
    {
      at := at[kernel.currentThread.value := p];
    }

    /** Append, from where the current thread is in it. */
    method Append(ghost first: map<int, nat>)
      requires InUserCode(kernel.Now())
      requires var p := At(Now(), kernel.currentThread.value);
               p.AppendAcquire? || p.AppendItem? || p.AppendSignal? || p.AppendRelease?
      modifies this, kernel
      ensures Now() == GoOp(old(Now()))
      ensures old(ListInv(Now(), first)) ==> ListInv(Now(), first) && GoOutcome(old(Now()), Now())
    {
      hide GoOutcome, ListInv, AcquireOp, ReleaseOp, SignalOp;
      ListStepKeeps(Now(), first);
      match Lookup(at, kernel.currentThread.value, Outside) {
        case AppendAcquire(item) =>
          GoTo(AppendItem(item));
          kernel.Acquire(LOCK);
        case AppendItem(item) =>
          GoTo(AppendSignal);
          list := list + [item];
          appended := appended + [item];
        case AppendSignal =>
          GoTo(AppendRelease);
          kernel.Signal(LIST_EMPTY, Some(LOCK));
        case AppendRelease =>
          GoTo(Outside);
          kernel.Release(LOCK);
      }
    }

    /** Remove, from where the current thread is in it. The item that it takes is not NULL. */
    method Remove(ghost first: map<int, nat>)
      requires ListInv(Now(), first) && InUserCode(kernel.Now())
      requires var p := At(Now(), kernel.currentThread.value);
               p.RemoveAcquire? || p.RemoveTest? || p.RemoveRetest? || p.RemoveItem? || p.RemoveRelease?
      modifies this, kernel
      ensures Now() == GoOp(old(Now())) && ListInv(Now(), first) && GoOutcome(old(Now()), Now())
    {
      hide GoOutcome, ListInv, AcquireOp, ReleaseOp, WaitOp;
      ListStepKeeps(Now(), first);
      match Lookup(at, kernel.currentThread.value, Outside) {
        case RemoveAcquire =>
          GoTo(RemoveTest);
          kernel.Acquire(LOCK);
        case RemoveTest => Test(false);
        case RemoveRetest => Test(true);
        case RemoveItem(_) =>
          RemoverGetsItem(Now(), first);
          var item := if list == [] then NULL else list[0];
          assert item != NULL;
          GoTo(RemoveRelease);
          list := if list == [] then [] else list[1..];
          removed := removed + [item];
        case RemoveRelease =>
          GoTo(Outside);
          kernel.Release(LOCK);
      }
    }

    /** The test of the loop in Remove. */
    method Test(waited: bool)
      requires kernel.currentThread.Some?
      modifies this, kernel
      ensures Now() == TestOp(old(Now()), waited)
    {
      if list == [] {
        GoTo(RemoveRetest);
        kernel.Wait(LIST_EMPTY, Some(LOCK));
      } else {
        GoTo(RemoveItem(waited));
      }
    }
  }
}

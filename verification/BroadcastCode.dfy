/** The code of Condition::Broadcast (threads/synch.cc), one stretch at a time: any other thread may run
    between the test of the queue and the Signal, and between Signals. */
module BroadcastCode {
  import opened Sequences
  import opened Kernel
  import opened Synch
  import opened Broadcasts

  /** What is kept of a Broadcast that was called in state `s`, with the lock of those who wait. */
  ghost predicate Kept(s: Broadcast, u: Broadcast, l: int) {
    Going(s, u, l) && RightLock(s) && Spent(s, u)
  }

  lemma TurnKeeps(s: Broadcast, u: Broadcast, l: int)
    requires Kept(s, u, l) && LoopEnabled(u, Turn)
    ensures Kept(s, TurnOp(u), l)
  {
    StepGoes(s, u, Turn, l);
    StepSpends(s, u, Turn, l);
  }

  class Broadcasting {
    const kernel: System
    const who: Tid
    const c: int
    const conditionLock: Option<int>
    /** Where the thread is in the loop. */
    var at: Point
    ghost var signals: nat

    ghost function Now(): Broadcast
      reads this, kernel
    {
      Broadcast(kernel.Now(), who, c, conditionLock, at, signals)
    }

    /** The call, by the current thread. */
    constructor (kernel: System, c: int, conditionLock: Option<int>)
      requires kernel.currentThread.Some?
      ensures this.kernel == kernel
      ensures Now() == Broadcast(kernel.Now(), kernel.currentThread.value, c, conditionLock, AtTest, 0)
      ensures forall first :: Inv(kernel.Now(), first) && InUserCode(kernel.Now()) ==> Called(Now(), first)
    {
      this.kernel, this.who, this.c, this.conditionLock := kernel, kernel.currentThread.value, c, conditionLock;
      at, signals := AtTest, 0;
    }

    /** What the thread does next in the loop; when that is over, nobody waits. */
    method Step(ghost start: Broadcast, ghost l: int) returns (returned: bool)
      requires LoopEnabled(Now(), Turn)
      modifies this`at, this`signals, kernel
      ensures Now() == LoopApply(old(Now()), Turn)
      ensures returned <==> at == Done
      ensures returned ==> Queue(kernel.Now(), CondQueue(c)) == []
      ensures old(Kept(start, Now(), l)) ==> Kept(start, Now(), l)
    {
      hide Kept, SignalOp, Keeps;
      if Kept(start, Now(), l) {
        TurnKeeps(start, Now(), l);
      }
      if at == AtSignal {
        kernel.Signal(c, conditionLock);
        at, signals := AtTest, signals + 1;
      } else {
        var empty := kernel.IsEmpty(CondQueue(c));
        at := if empty then Done else AtSignal;
      }
      returned := at == Done;
    }
  }
}

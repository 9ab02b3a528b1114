/** The branches of Server (network/nettest.cc) for acquire, release, wait, signal and broadcast, as they
    change the server's tables in place. */
module LockServers {
  import opened Sequences
  import opened LockService

  /** The step keeps what holds between requests: first come, first served whatever clients do, and the rest
      if they behave. */
  ghost predicate Keeps(s: Server, u: Server, call: Call) {
    && (Core(s) && Disciplined(s, call) ==> Core(u))
    && (IsServer(s) && Fifo(s) ==> Fifo(u))
  }

  lemma StepKeeps(s: Server, call: Call)
    requires InScope(s, call)
    ensures Keeps(s, Apply(s, call), call)
  {
    hide Core, Fifo, Disciplined;
    if Core(s) && Disciplined(s, call) {
      ApplyKeepsCore(s, call);
    }
    if IsServer(s) && Fifo(s) {
      ApplyFifo(s, call);
    }
  }

  class LockServer {
    const lockTable: array<ServerLock>
    const conditionTable: array<ServerCondition>
    var sent: seq<Sent>
    ghost var joined: map<QueueId, seq<Option<ThreadID>>>
    ghost var left: map<QueueId, seq<Option<ThreadID>>>
    var crashed: bool

    ghost function Now(): Server
      reads this, lockTable, conditionTable
    {
      Server(lockTable[..], conditionTable[..], sent, joined, left, crashed)
    }

    constructor (locks: seq<ServerLock>, conditions: seq<ServerCondition>)
      ensures Now() == Server(locks, conditions, [], map[], map[], false)
      ensures fresh(lockTable) && fresh(conditionTable)
    {
      lockTable := new ServerLock[|locks|](i requires 0 <= i < |locks| => locks[i]);
      conditionTable := new ServerCondition[|conditions|](i requires 0 <= i < |conditions| => conditions[i]);
      sent, joined, left, crashed := [], map[], map[], false;
    }

    method SendMessage(m: Sent)
      modifies this`sent
      ensures Now() == Send(old(Now()), m)
    {
      sent := sent + [m];
    }

    method AppendToLock(l: int, id: Option<ThreadID>)
      requires 0 <= l < lockTable.Length
      modifies lockTable, this`joined
      ensures Now() == Append(old(Now()), LockQueue(l), id)
    {
      lockTable[l] := lockTable[l].(queue := lockTable[l].queue + [id]);
      joined := joined[LockQueue(l) := Lookup(joined, LockQueue(l), []) + [id]];
    }

    method AppendToCondition(c: int, id: Option<ThreadID>)
      requires 0 <= c < conditionTable.Length
      modifies conditionTable, this`joined
      ensures Now() == Append(old(Now()), CondQueue(c), id)
    {
      conditionTable[c] := conditionTable[c].(queue := conditionTable[c].queue + [id]);
      joined := joined[CondQueue(c) := Lookup(joined, CondQueue(c), []) + [id]];
    }

    /** List::Remove: NULL if there is nothing. */
    method RemoveFromLock(l: int) returns (id: Option<ThreadID>)
      requires 0 <= l < lockTable.Length
      modifies lockTable, this`left
      ensures id == First(old(Now()), LockQueue(l))
      ensures Now() == RemoveFirst(old(Now()), LockQueue(l))
    {
      var queue := lockTable[l].queue;
      if queue == [] {
        return None;
      }
      left := left[LockQueue(l) := Lookup(left, LockQueue(l), []) + [queue[0]]];
      lockTable[l] := lockTable[l].(queue := queue[1..]);
      return queue[0];
    }

    method RemoveFromCondition(c: int) returns (id: Option<ThreadID>)
      requires 0 <= c < conditionTable.Length
      modifies conditionTable, this`left
      ensures id == First(old(Now()), CondQueue(c))
      ensures Now() == RemoveFirst(old(Now()), CondQueue(c))
    {
      var queue := conditionTable[c].queue;
      if queue == [] {
        return None;
      }
      left := left[CondQueue(c) := Lookup(left, CondQueue(c), []) + [queue[0]]];
      conditionTable[c] := conditionTable[c].(queue := queue[1..]);
      return queue[0];
    }

    method SetIDs(l: int, owner: ThreadID)
      requires 0 <= l < lockTable.Length
      modifies lockTable
      ensures Now() == SetOwner(old(Now()), l, owner)
    {
      lockTable[l] := lockTable[l].(owner := owner);
    }

    /** Gives the lock to the longest waiter. */
    method GrantNext(l: int)
      requires 0 <= l < lockTable.Length && lockTable[l].queue != []
      modifies this`sent, this`left, this`crashed, lockTable
      ensures Now() == Grant(old(Now()), l)
    {
      if lockTable[l].queue[0] == None {
        crashed := true;
        return;
      }
      var id := RemoveFromLock(l);
      SetIDs(l, id.value);
      SendMessage(Success(id.value));
    }

    method NotHere(r: Request)
      modifies this`sent
      ensures Now() == Unknown(old(Now()), r)
    {
      if r.id == -1 {
        SendMessage(Forwarded(r.sender));
      } else {
        SendMessage(Error(r.client));
      }
    }

    method DoAcquire(r: Request)
      requires 0 <= r.index < lockTable.Length
      modifies this`sent, this`joined, lockTable
      ensures Now() == AcquireOp(old(Now()), r)
      ensures Keeps(old(Now()), Now(), Acquire(r))
    {
      hide Keeps;
      StepKeeps(Now(), Acquire(r));
      if !lockTable[r.index].named {
        NotHere(r);
      } else if lockTable[r.index].isDeleted || lockTable[r.index].isToBeDeleted {
        SendMessage(Error(Requester(r)));
      } else if lockTable[r.index].queue == [] && lockTable[r.index].owner == NO_OWNER {
        SetIDs(r.index, Requester(r));
        SendMessage(Success(Requester(r)));
      } else if IsOwner(lockTable[r.index], r) {
        SendMessage(Error(Requester(r)));
      } else {
        AppendToLock(r.index, Some(Requester(r)));
      }
    }

    method DoRelease(r: Request)
      requires 0 <= r.index < lockTable.Length
      modifies this`sent, this`left, this`crashed, lockTable
      ensures Now() == ReleaseOp(old(Now()), r)
      ensures Keeps(old(Now()), Now(), Release(r))
    {
      hide Keeps;
      StepKeeps(Now(), Release(r));
      if !lockTable[r.index].named {
        NotHere(r);
      } else if lockTable[r.index].isDeleted {
        SendMessage(Error(Requester(r)));
      } else if MayRelease(lockTable[r.index], r) {
        SetIDs(r.index, NO_OWNER);
        SendMessage(Success(Requester(r)));
        if lockTable[r.index].queue != [] {
          GrantNext(r.index);
        } else if lockTable[r.index].isToBeDeleted {
          lockTable[r.index] := lockTable[r.index].(isDeleted := true);
        }
      } else {
        SendMessage(Error(Requester(r)));
      }
    }

    /** The tests that Wait, Signal and Broadcast begin with. */
    method Checks(r: Request) returns (answered: bool)
      requires 0 <= r.index < conditionTable.Length
      modifies this`sent
      ensures answered <==> Check(old(Now()), r) != Here
      ensures Now() == if answered then Check(old(Now()), r).s else old(Now())
    {
      answered := true;
      if !conditionTable[r.index].named {
        NotHere(r);
      } else if r.index2 >= lockTable.Length || r.index2 < 0 {
        SendMessage(Error(Requester(r)));
      } else if conditionTable[r.index].isDeleted || conditionTable[r.index].isToBeDeleted {
        SendMessage(Error(Requester(r)));
      } else {
        answered := false;
      }
    }

    method DoWait(r: Request)
      requires CondInScope(Now(), r)
      modifies this, lockTable, conditionTable
      ensures Now() == WaitOp(old(Now()), r)
      ensures Keeps(old(Now()), Now(), Wait(r))
    {
      hide Keeps;
      StepKeeps(Now(), Wait(r));
      var answered := Checks(r);
      if !answered {
        var id := lockTable[r.index2].owner;
        SetIDs(r.index2, NO_OWNER);
        AppendToCondition(r.index, Some(id));
        if lockTable[r.index2].queue != [] {
          GrantNext(r.index2);
        }
      }
    }

    method DoSignal(r: Request)
      requires CondInScope(Now(), r)
      modifies this, lockTable, conditionTable
      ensures Now() == SignalOp(old(Now()), r)
      ensures Keeps(old(Now()), Now(), Signal(r))
    {
      hide Keeps;
      StepKeeps(Now(), Signal(r));
      var answered := Checks(r);
      if !answered {
        var id := RemoveFromCondition(r.index);
        AppendToLock(r.index2, id);
        SendMessage(Success(Requester(r)));
      }
    }

    method DoBroadcast(r: Request)
      requires CondInScope(Now(), r)
      modifies this, lockTable, conditionTable
      ensures Now() == BroadcastOp(old(Now()), r)
      ensures Keeps(old(Now()), Now(), Broadcast(r))
    {
      hide Keeps;
      StepKeeps(Now(), Broadcast(r));
      var answered := Checks(r);
      if !answered {
        ghost var start := Now();
        while conditionTable[r.index].queue != []
          invariant sent == start.sent
          invariant MoveAll(Now(), r.index, r.index2) == MoveAll(start, r.index, r.index2)
          decreases |conditionTable[r.index].queue|
        {
          var id := RemoveFromCondition(r.index);
          AppendToLock(r.index2, id);
        }
        SendMessage(Success(Requester(r)));
      }
    }
  }
}

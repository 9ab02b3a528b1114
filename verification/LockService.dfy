/** What the single lock and condition server (network/nettest.cc) does with a request for locks and
    conditions that it has itself. */
module LockService {
  import opened Sequences

  /** A client: a machine and a mailbox there. */
  datatype ThreadID = ThreadID(machineID: int, threadID: int)

  const MAX_SERVERLOCKS := 5000
  const MAX_SERVERCONDITIONS := 5000
  const NO_OWNER := ThreadID(-1, -1)
  const RELEASE_MAILBOX := 9

  /** Queues hold pointers; None is NULL. */
  datatype ServerLock = ServerLock(named: bool, owner: ThreadID, queue: seq<Option<ThreadID>>, isToBeDeleted: bool,
                                   isDeleted: bool)

  datatype ServerCondition = ServerCondition(named: bool, queue: seq<Option<ThreadID>>, isToBeDeleted: bool,
                                             isDeleted: bool)

  /** What the server sends: replies to clients, or a client's request to the message handler. */
  datatype Sent = Success(to: ThreadID) | Error(to: ThreadID) | Forwarded(client: ThreadID)

  datatype QueueId = LockQueue(l: int) | CondQueue(c: int)

  /** The tables, what has been sent, who has joined and left each queue, and whether the server has
      followed NULL. */
  datatype Server = Server(
    locks: seq<ServerLock>,
    conditions: seq<ServerCondition>,
    sent: seq<Sent>,
    joined: map<QueueId, seq<Option<ThreadID>>>,
    left: map<QueueId, seq<Option<ThreadID>>>,
    crashed: bool)

  /** A message: `client` is set if it comes through the message handler, else its machine is -1. */
  datatype Request = Request(index: int, index2: int, id: int, sender: ThreadID, client: ThreadID)

  datatype Call = Acquire(r: Request) | Release(r: Request) | Wait(r: Request) | Signal(r: Request)
                | Broadcast(r: Request)

  function Requester(r: Request): ThreadID {
    if r.client.machineID == -1 then r.sender else r.client
  }

  function Joined(s: Server, q: QueueId): seq<Option<ThreadID>> {
    Lookup(s.joined, q, [])
  }

  function Left(s: Server, q: QueueId): seq<Option<ThreadID>> {
    Lookup(s.left, q, [])
  }

  predicate IsServer(s: Server) {
    |s.locks| == MAX_SERVERLOCKS && |s.conditions| == MAX_SERVERCONDITIONS
  }

  function Queue(s: Server, q: QueueId): seq<Option<ThreadID>> {
    match q
    case LockQueue(l) => if 0 <= l < |s.locks| then s.locks[l].queue else []
    case CondQueue(c) => if 0 <= c < |s.conditions| then s.conditions[c].queue else []
  }

  function Send(s: Server, m: Sent): Server {
    s.(sent := s.sent + [m])
  }

  function SetOwner(s: Server, l: int, owner: ThreadID): Server
    requires 0 <= l < |s.locks|
  {
    s.(locks := s.locks[l := s.locks[l].(owner := owner)])
  }

  function Append(s: Server, q: QueueId, id: Option<ThreadID>): Server
    requires match q case LockQueue(l) => 0 <= l < |s.locks| case CondQueue(c) => 0 <= c < |s.conditions|
  {
    var u := s.(joined := s.joined[q := Joined(s, q) + [id]]);
    match q
    case LockQueue(l) => u.(locks := u.locks[l := u.locks[l].(queue := u.locks[l].queue + [id])])
    case CondQueue(c) => u.(conditions := u.conditions[c := u.conditions[c].(queue := u.conditions[c].queue + [id])])
  }

  /** The state after taking the first of a queue; taking from an empty list gives NULL and changes
      nothing. */
  function RemoveFirst(s: Server, q: QueueId): Server {
    if Queue(s, q) == [] then s
    else
      var u := s.(left := s.left[q := Left(s, q) + [Queue(s, q)[0]]]);
      match q
      case LockQueue(l) => u.(locks := u.locks[l := u.locks[l].(queue := u.locks[l].queue[1..])])
      case CondQueue(c) => u.(conditions := u.conditions[c := u.conditions[c].(queue := u.conditions[c].queue[1..])])
  }

  function First(s: Server, q: QueueId): Option<ThreadID> {
    if Queue(s, q) == [] then None else Queue(s, q)[0]
  }

  /** The longest waiter of a lock gets it, and is told. */
  function Grant(s: Server, l: int): Server
    requires 0 <= l < |s.locks| && Queue(s, LockQueue(l)) != []
  {
    match First(s, LockQueue(l))
    case None => s.(crashed := true)
    case Some(id) => Send(SetOwner(RemoveFirst(s, LockQueue(l)), l, id), Success(id))
  }

  /** The answer to a request for something that this server does not have. */
  function Unknown(s: Server, r: Request): Server {
    Send(s, if r.id == -1 then Forwarded(r.sender) else Error(r.client))
  }

  // ----- the requests -----

  predicate IsOwner(k: ServerLock, r: Request) {
    k.owner == r.sender || (k.owner == r.client && r.client.machineID != -1)
  }

  /** The code looks at the named entry of a table before it tests whether the index is in range. The lock
      that goes with a condition is this server's. */
  predicate InScope(s: Server, call: Call) {
    match call
    case Acquire(r) => 0 <= r.index < |s.locks|
    case Release(r) => 0 <= r.index < |s.locks|
    case Wait(r) => CondInScope(s, r)
    case Signal(r) => CondInScope(s, r)
    case Broadcast(r) => CondInScope(s, r)
  }

  predicate CondInScope(s: Server, r: Request) {
    0 <= r.index < |s.conditions| && (0 <= r.index2 < |s.locks| ==> s.locks[r.index2].named)
  }

  function AcquireOp(s: Server, r: Request): Server
    requires 0 <= r.index < |s.locks|
  {
    var k := s.locks[r.index];
    if !k.named then Unknown(s, r)
    else if k.isDeleted || k.isToBeDeleted then Send(s, Error(Requester(r)))
    else if k.queue == [] && k.owner == NO_OWNER then Send(SetOwner(s, r.index, Requester(r)), Success(Requester(r)))
    else if IsOwner(k, r) then Send(s, Error(Requester(r)))
    else Append(s, LockQueue(r.index), Some(Requester(r)))
  }

  function MayRelease(k: ServerLock, r: Request): bool {
    IsOwner(k, r) || r.sender.threadID == RELEASE_MAILBOX || r.client.threadID == RELEASE_MAILBOX
  }

  function ReleaseOp(s: Server, r: Request): Server
    requires 0 <= r.index < |s.locks|
  {
    var k := s.locks[r.index];
    if !k.named then Unknown(s, r)
    else if k.isDeleted then Send(s, Error(Requester(r)))
    else if MayRelease(k, r) then
      var u := Send(SetOwner(s, r.index, NO_OWNER), Success(Requester(r)));
      if k.queue != [] then Grant(u, r.index)
      else if k.isToBeDeleted then u.(locks := u.locks[r.index := u.locks[r.index].(isDeleted := true)])
      else u
    else Send(s, Error(Requester(r)))
  }

  /** What Wait, Signal and Broadcast have in common: requests that are answered at once. */
  datatype Checked = Here | Answer(s: Server)

  function Check(s: Server, r: Request): Checked
    requires 0 <= r.index < |s.conditions|
  {
    var k := s.conditions[r.index];
    if !k.named then Answer(Unknown(s, r))
    else if r.index2 < 0 || r.index2 >= |s.locks| then Answer(Send(s, Error(Requester(r))))
    else if k.isDeleted || k.isToBeDeleted then Answer(Send(s, Error(Requester(r))))
    else Here
  }

  /** The one that waits is whoever owns the lock: the code does not ask who has sent the request. */
  function WaitOp(s: Server, r: Request): Server
    requires 0 <= r.index < |s.conditions|
  {
    match Check(s, r)
    case Answer(u) => u
    case Here =>
      var id := s.locks[r.index2].owner;
      var u := Append(SetOwner(s, r.index2, NO_OWNER), CondQueue(r.index), Some(id));
      if Queue(u, LockQueue(r.index2)) != [] then Grant(u, r.index2) else u
  }

  /** One waiter goes from the condition's queue to the back of the lock's. */
  function MoveOp(s: Server, c: int, l: int): Server
    requires 0 <= l < |s.locks|
  {
    Append(RemoveFirst(s, CondQueue(c)), LockQueue(l), First(s, CondQueue(c)))
  }

  function SignalOp(s: Server, r: Request): Server
    requires 0 <= r.index < |s.conditions|
  {
    match Check(s, r)
    case Answer(u) => u
    case Here => Send(MoveOp(s, r.index, r.index2), Success(Requester(r)))
  }

  function MoveAll(s: Server, c: int, l: int): Server
    requires 0 <= l < |s.locks| && 0 <= c < |s.conditions|
    decreases |Queue(s, CondQueue(c))|
  {
    if Queue(s, CondQueue(c)) == [] then s else MoveAll(MoveOp(s, c, l), c, l)
  }

  function BroadcastOp(s: Server, r: Request): Server
    requires 0 <= r.index < |s.conditions|
  {
    match Check(s, r)
    case Answer(u) => u
    case Here => Send(MoveAll(s, r.index, r.index2), Success(Requester(r)))
  }

  function Apply(s: Server, call: Call): Server
    requires InScope(s, call)
  {
    match call
    case Acquire(r) => AcquireOp(s, r)
    case Release(r) => ReleaseOp(s, r)
    case Wait(r) => WaitOp(s, r)
    case Signal(r) => SignalOp(s, r)
    case Broadcast(r) => BroadcastOp(s, r)
  }

  // ----- what holds between requests -----

  function Owner(s: Server, l: int): ThreadID {
    if 0 <= l < |s.locks| then s.locks[l].owner else NO_OWNER
  }

  ghost predicate Waiting(s: Server, id: ThreadID) {
    exists q :: Some(id) in Queue(s, q)
  }

  /** A free lock has an empty queue; every client waits in at most one place, once, and not for a lock
      that it owns; queues hold no NULL and no absent owners. */
  ghost predicate Core(s: Server) {
    && IsServer(s) && !s.crashed
    && (forall q :: Distinct(Queue(s, q)))
    && (forall p, q, x :: x in Queue(s, p) && x in Queue(s, q) ==> p == q)
    && (forall q :: None !in Queue(s, q) && Some(NO_OWNER) !in Queue(s, q))
    && (forall l :: Owner(s, l) == NO_OWNER ==> Queue(s, LockQueue(l)) == [])
    && (forall l :: Some(Owner(s, l)) !in Queue(s, LockQueue(l)))
  }

  lemma AppendEffect(s: Server, q: QueueId, id: Option<ThreadID>)
    requires match q case LockQueue(l) => 0 <= l < |s.locks| case CondQueue(c) => 0 <= c < |s.conditions|
    ensures var u := Append(s, q, id);
            && (forall p :: Queue(u, p) == if p == q then Queue(s, q) + [id] else Queue(s, p))
            && (forall l :: Owner(u, l) == Owner(s, l))
            && (forall p :: Joined(u, p) == if p == q then Joined(s, q) + [id] else Joined(s, p))
            && u.left == s.left
            && u.sent == s.sent && u.crashed == s.crashed && |u.locks| == |s.locks| && |u.conditions| == |s.conditions|
  {
  }

  lemma RemoveEffect(s: Server, q: QueueId)
    requires Queue(s, q) != []
    ensures var u := RemoveFirst(s, q);
            && (forall p :: Queue(u, p) == if p == q then Queue(s, q)[1..] else Queue(s, p))
            && (forall l :: Owner(u, l) == Owner(s, l))
            && (forall p :: Left(u, p) == if p == q then Left(s, q) + [Queue(s, q)[0]] else Left(s, p))
            && u.joined == s.joined
            && u.sent == s.sent && u.crashed == s.crashed && |u.locks| == |s.locks| && |u.conditions| == |s.conditions|
  {
  }

  lemma SetOwnerEffect(s: Server, l: int, id: ThreadID)
    requires 0 <= l < |s.locks|
    ensures var u := SetOwner(s, l, id);
            && (forall p :: Queue(u, p) == Queue(s, p))
            && (forall k :: Owner(u, k) == if k == l then id else Owner(s, k))
            && u.sent == s.sent && u.crashed == s.crashed && |u.locks| == |s.locks| && |u.conditions| == |s.conditions|
  {
  }

  lemma GrantEffect(s: Server, l: int)
    requires 0 <= l < |s.locks| && Queue(s, LockQueue(l)) != [] && Queue(s, LockQueue(l))[0] != None
    ensures var u, id := Grant(s, l), Queue(s, LockQueue(l))[0].value;
            && (forall p :: Queue(u, p) == if p == LockQueue(l) then Queue(s, p)[1..] else Queue(s, p))
            && (forall k :: Owner(u, k) == if k == l then id else Owner(s, k))
            && u.sent == s.sent + [Success(id)] && u.crashed == s.crashed
            && |u.locks| == |s.locks| && |u.conditions| == |s.conditions|
  {
  }

  /** Only queues, owners and crashes matter. */
  lemma SameCore(s: Server, u: Server)
    requires Core(s) && |u.locks| == |s.locks| && |u.conditions| == |s.conditions| && !u.crashed
    requires forall q :: Queue(u, q) == Queue(s, q)
    requires forall l :: Owner(u, l) == Owner(s, l)
    ensures Core(u)
  {
  }

  // ----- Acquire -----

  /** The request is going to wait for the lock. */
  predicate WillQueue(s: Server, r: Request)
    requires 0 <= r.index < |s.locks|
  {
    var k := s.locks[r.index];
    k.named && !k.isDeleted && !k.isToBeDeleted && (k.queue != [] || k.owner != NO_OWNER) && !IsOwner(k, r)
  }

  lemma NewWaiter(s: Server, u: Server, q: QueueId, x: ThreadID)
    requires Core(s) && |u.locks| == |s.locks| && |u.conditions| == |s.conditions| && !u.crashed
    requires forall p :: Queue(u, p) == if p == q then Queue(s, q) + [Some(x)] else Queue(s, p)
    requires forall l :: Owner(u, l) == Owner(s, l)
    requires q.LockQueue? ==> Owner(s, q.l) != NO_OWNER && Owner(s, q.l) != x
    ensures Core(u) <==> x != NO_OWNER && !Waiting(s, x)
  {
    hide Queue, Owner;
    assert Some(x) in Queue(u, q);
    if x != NO_OWNER && !Waiting(s, x) {
      assert Core(u);
    } else if Waiting(s, x) {
      var p :| Some(x) in Queue(s, p);
      var i :| 0 <= i < |Queue(s, p)| && Queue(s, p)[i] == Some(x);
      assert Some(x) in Queue(u, p);
      if p == q {
        assert Queue(u, q)[i] == Queue(u, q)[|Queue(s, q)|];
      }
    }
  }

  lemma NewOwner(s: Server, u: Server, l: int, x: ThreadID)
    requires Core(s) && |u.locks| == |s.locks| && |u.conditions| == |s.conditions| && !u.crashed
    requires forall p :: Queue(u, p) == Queue(s, p)
    requires forall k :: Owner(u, k) == if k == l then x else Owner(s, k)
    requires Queue(s, LockQueue(l)) == []
    ensures Core(u)
  {
  }

  /** Acquire keeps the invariant exactly if whoever it makes wait does not wait already. */
  lemma AcquireKeepsIff(s: Server, r: Request)
    requires Core(s) && 0 <= r.index < |s.locks|
    ensures Core(AcquireOp(s, r)) <==> (WillQueue(s, r) ==> Requester(r) != NO_OWNER && !Waiting(s, Requester(r)))
  {
    var k, u := s.locks[r.index], AcquireOp(s, r);
    assert k.owner == Owner(s, r.index) && k.queue == Queue(s, LockQueue(r.index));
    if WillQueue(s, r) {
      AppendEffect(s, LockQueue(r.index), Some(Requester(r)));
      NewWaiter(s, u, LockQueue(r.index), Requester(r));
    } else if k.named && !k.isDeleted && !k.isToBeDeleted && k.queue == [] && k.owner == NO_OWNER {
      SetOwnerEffect(s, r.index, Requester(r));
      NewOwner(s, u, r.index, Requester(r));
    } else {
      SameCore(s, u);
    }
  }

  // ----- Release -----

  /** The first waiter of a lock becomes its owner. */
  lemma HandOver(s: Server, u: Server, l: int)
    requires IsServer(s) && !s.crashed && |u.locks| == |s.locks| && |u.conditions| == |s.conditions| && !u.crashed
    requires Queue(s, LockQueue(l)) != [] && Queue(s, LockQueue(l))[0] != None
    requires forall q :: Distinct(Queue(s, q))
    requires forall p, q, x :: x in Queue(s, p) && x in Queue(s, q) ==> p == q
    requires forall q :: None !in Queue(s, q) && Some(NO_OWNER) !in Queue(s, q)
    requires forall k :: k != l && Owner(s, k) == NO_OWNER ==> Queue(s, LockQueue(k)) == []
    requires forall k :: k != l ==> Some(Owner(s, k)) !in Queue(s, LockQueue(k))
    requires forall p :: Queue(u, p) == if p == LockQueue(l) then Queue(s, p)[1..] else Queue(s, p)
    requires forall k :: Owner(u, k) == if k == l then Queue(s, LockQueue(l))[0].value else Owner(s, k)
    ensures Core(u)
  {
  }

  lemma HeadIsSomeone(s: Server, q: QueueId)
    requires Core(s) && Queue(s, q) != []
    ensures First(s, q).Some? && First(s, q).value != NO_OWNER && Waiting(s, First(s, q).value)
  {
  }

  lemma NoNullHead(s: Server, q: QueueId)
    requires Core(s)
    ensures Queue(s, q) != [] ==> Queue(s, q)[0] != None && Queue(s, q)[0] in Queue(s, q)
  {
  }

  /** The lock has been given up, and the requester told. */
  function Released(s: Server, r: Request): Server
    requires 0 <= r.index < |s.locks|
  {
    Send(SetOwner(s, r.index, NO_OWNER), Success(Requester(r)))
  }

  lemma ReleasedEffect(s: Server, r: Request)
    requires 0 <= r.index < |s.locks|
    ensures var u := Released(s, r);
            && (forall p :: Queue(u, p) == Queue(s, p))
            && (forall k :: Owner(u, k) == if k == r.index then NO_OWNER else Owner(s, k))
            && u.sent == s.sent + [Success(Requester(r))] && u.crashed == s.crashed
            && |u.locks| == |s.locks| && |u.conditions| == |s.conditions|
  {
    SetOwnerEffect(s, r.index, NO_OWNER);
    SameParts(SetOwner(s, r.index, NO_OWNER), Released(s, r));
  }

  predicate Releases(s: Server, r: Request)
    requires 0 <= r.index < |s.locks|
  {
    var k := s.locks[r.index];
    k.named && !k.isDeleted && MayRelease(k, r)
  }

  /** Whether somebody waits decides who owns the lock next. */
  lemma ReleaseCases(s: Server, r: Request)
    requires 0 <= r.index < |s.locks| && Releases(s, r)
    ensures var u, v := ReleaseOp(s, r), Released(s, r);
            if Queue(s, LockQueue(r.index)) != [] then u == Grant(v, r.index)
            else u == v || u == v.(locks := v.locks[r.index := v.locks[r.index].(isDeleted := true)])
  {
  }

  lemma MarkDeletedEffect(v: Server, l: int)
    requires 0 <= l < |v.locks|
    ensures var u := v.(locks := v.locks[l := v.locks[l].(isDeleted := true)]);
            && (forall p :: Queue(u, p) == Queue(v, p))
            && (forall k :: Owner(u, k) == Owner(v, k))
  {
  }

  lemma ReleaseQueues(s: Server, r: Request)
    requires 0 <= r.index < |s.locks| && Releases(s, r)
    requires Queue(s, LockQueue(r.index)) != [] ==> Queue(s, LockQueue(r.index))[0] != None
    ensures var u, l, q := ReleaseOp(s, r), r.index, Queue(s, LockQueue(r.index));
            && (forall p :: Queue(u, p) == if p == LockQueue(l) && q != [] then q[1..] else Queue(s, p))
            && (forall k :: Owner(u, k) == if k != l then Owner(s, k) else if q == [] then NO_OWNER else q[0].value)
            && u.sent == s.sent + [Success(Requester(r))] + (if q == [] then [] else [Success(q[0].value)])
            && |u.locks| == |s.locks| && |u.conditions| == |s.conditions| && u.crashed == s.crashed
  {
    hide ReleaseOp, Queue, Owner, Grant, Released, Releases;
    var v, q := Released(s, r), Queue(s, LockQueue(r.index));
    ReleaseCases(s, r);
    ReleasedEffect(s, r);
    assert Queue(v, LockQueue(r.index)) == q;
    if q != [] {
      GrantEffect(v, r.index);
    } else {
      MarkDeletedEffect(v, r.index);
    }
  }

  lemma ReleaseKeeps(s: Server, r: Request)
    requires Core(s) && 0 <= r.index < |s.locks|
    ensures Core(ReleaseOp(s, r))
  {
    hide Queue, Owner;
    var u := ReleaseOp(s, r);
    if Releases(s, r) {
      NoNullHead(s, LockQueue(r.index));
      ReleaseQueues(s, r);
      if Queue(s, LockQueue(r.index)) != [] {
        HandOver(s, u, r.index);
      } else {
        NewOwner(s, u, r.index, NO_OWNER);
      }
    } else {
      SameParts(s, u);
    }
  }

  // ----- Wait -----

  lemma WaitQueues(s: Server, r: Request)
    requires IsServer(s) && CondInScope(s, r) && Check(s, r) == Here
    requires Queue(s, LockQueue(r.index2)) != [] ==> Queue(s, LockQueue(r.index2))[0] != None
    ensures var u, l, c := WaitOp(s, r), r.index2, r.index;
            && |u.locks| == |s.locks| && |u.conditions| == |s.conditions| && u.crashed == s.crashed
            && (forall p :: Queue(u, p) == if p == CondQueue(c) then Queue(s, p) + [Some(Owner(s, l))]
                                           else if p == LockQueue(l) && Queue(s, p) != [] then Queue(s, p)[1..]
                                           else Queue(s, p))
            && (forall k :: Owner(u, k) == if k != l then Owner(s, k)
                                           else if Queue(s, LockQueue(l)) == [] then NO_OWNER
                                           else Queue(s, LockQueue(l))[0].value)
            && u.sent == s.sent + (if Queue(s, LockQueue(l)) == [] then []
                                   else [Success(Queue(s, LockQueue(l))[0].value)])
  {
  }

  /** Wait keeps the invariant exactly if the lock has an owner and the owner does not wait already. */
  lemma WaitKeepsIff(s: Server, r: Request)
    requires Core(s) && CondInScope(s, r)
    ensures Core(WaitOp(s, r)) <==>
              (Check(s, r) == Here ==> Owner(s, r.index2) != NO_OWNER && !Waiting(s, Owner(s, r.index2)))
  {
    if Check(s, r) == Here {
      var l, q := r.index2, LockQueue(r.index2);
      if Queue(s, q) != [] {
        HeadIsSomeone(s, q);
      }
      WaitQueues(s, r);
      WaitKeeps(s, WaitOp(s, r), l, r.index);
    } else {
      SameCore(s, WaitOp(s, r));
    }
  }

  lemma WaitKeeps(s: Server, u: Server, l: int, c: int)
    requires Core(s) && |u.locks| == |s.locks| && |u.conditions| == |s.conditions| && !u.crashed
    requires forall p :: Queue(u, p) == if p == CondQueue(c) then Queue(s, p) + [Some(Owner(s, l))]
                                        else if p == LockQueue(l) && Queue(s, p) != [] then Queue(s, p)[1..]
                                        else Queue(s, p)
    requires Queue(s, LockQueue(l)) != [] ==> First(s, LockQueue(l)).Some?
    requires forall k :: Owner(u, k) == if k != l then Owner(s, k)
                                        else if Queue(s, LockQueue(l)) == [] then NO_OWNER
                                        else Queue(s, LockQueue(l))[0].value
    ensures Core(u) <==> Owner(s, l) != NO_OWNER && !Waiting(s, Owner(s, l))
  {
    var x := Owner(s, l);
    assert Some(x) in Queue(u, CondQueue(c));
    if Queue(s, LockQueue(l)) != [] {
      DistinctTail(Queue(s, LockQueue(l)));
    }
    if x != NO_OWNER && !Waiting(s, x) {
      WaitGood(s, u, l, c);
    } else if Waiting(s, x) {
      var p :| Some(x) in Queue(s, p);
      assert p != LockQueue(l);
      if p == CondQueue(c) {
        var i :| 0 <= i < |Queue(s, p)| && Queue(s, p)[i] == Some(x);
        assert Queue(u, p)[i] == Queue(u, p)[|Queue(s, p)|];
      } else {
        assert Some(x) in Queue(u, p);
      }
    }
  }

  lemma WaitGood(s: Server, u: Server, l: int, c: int)
    requires Core(s) && |u.locks| == |s.locks| && |u.conditions| == |s.conditions| && !u.crashed
    requires Owner(s, l) != NO_OWNER && !Waiting(s, Owner(s, l))
    requires forall p :: Queue(u, p) == if p == CondQueue(c) then Queue(s, p) + [Some(Owner(s, l))]
                                        else if p == LockQueue(l) && Queue(s, p) != [] then Queue(s, p)[1..]
                                        else Queue(s, p)
    requires Queue(s, LockQueue(l)) != [] ==> First(s, LockQueue(l)).Some?
    requires forall k :: Owner(u, k) == if k != l then Owner(s, k)
                                        else if Queue(s, LockQueue(l)) == [] then NO_OWNER
                                        else Queue(s, LockQueue(l))[0].value
    ensures Core(u)
  {
    hide Queue, Owner;
    var x, q := Owner(s, l), Queue(s, LockQueue(l));
    if q != [] {
      DistinctTail(q);
    }
    assert forall p :: Some(x) !in Queue(s, p);
    assert forall p, y :: y in Queue(u, p) ==> y in Queue(s, p) || (p == CondQueue(c) && y == Some(x));
  }

  // ----- Signal and Broadcast -----

  lemma MoveEffect(s: Server, c: int, l: int)
    requires IsServer(s) && 0 <= c < |s.conditions| && 0 <= l < |s.locks|
    ensures var u := MoveOp(s, c, l);
            && |u.locks| == |s.locks| && |u.conditions| == |s.conditions| && u.crashed == s.crashed && u.sent == s.sent
            && (forall p :: Queue(u, p) == if p == LockQueue(l) then Queue(s, p) + [First(s, CondQueue(c))]
                                           else if p == CondQueue(c) && Queue(s, p) != [] then Queue(s, p)[1..]
                                           else Queue(s, p))
            && (forall k :: Owner(u, k) == Owner(s, k))
  {
  }

  lemma MoveGood(s: Server, u: Server, c: int, l: int)
    requires Core(s) && Queue(s, CondQueue(c)) != [] && Owner(s, l) != NO_OWNER
    requires First(s, CondQueue(c)) != Some(Owner(s, l))
    requires |u.locks| == |s.locks| && |u.conditions| == |s.conditions| && !u.crashed
    requires forall p :: Queue(u, p) == if p == LockQueue(l) then Queue(s, p) + [First(s, CondQueue(c))]
                                        else if p == CondQueue(c) && Queue(s, p) != [] then Queue(s, p)[1..]
                                        else Queue(s, p)
    requires forall k :: Owner(u, k) == Owner(s, k)
    ensures Core(u)
  {
    hide Queue, Owner;
    var h, q := First(s, CondQueue(c)), Queue(s, CondQueue(c));
    DistinctTail(q);
    assert h in Queue(s, CondQueue(c));
    assert h !in Queue(s, LockQueue(l));
    assert forall p, y :: y in Queue(u, p) ==>
             (y in Queue(s, p) && !(p == CondQueue(c) && y == h)) || (p == LockQueue(l) && y == h);
  }

  /** Moving a waiter to a lock's queue keeps the invariant exactly if there is a waiter, and the lock has
      an owner, which is somebody else. */
  lemma MoveKeepsIff(s: Server, c: int, l: int)
    requires Core(s) && 0 <= c < |s.conditions| && 0 <= l < |s.locks|
    ensures Core(MoveOp(s, c, l)) <==>
              Queue(s, CondQueue(c)) != [] && Owner(s, l) != NO_OWNER && First(s, CondQueue(c)) != Some(Owner(s, l))
  {
    var u := MoveOp(s, c, l);
    MoveEffect(s, c, l);
    var q := Queue(u, LockQueue(l));
    assert q[|q| - 1] == First(s, CondQueue(c)) && First(s, CondQueue(c)) in q;
    if Queue(s, CondQueue(c)) != [] && Owner(s, l) != NO_OWNER && First(s, CondQueue(c)) != Some(Owner(s, l)) {
      MoveGood(s, u, c, l);
    }
  }

  lemma SignalKeepsIff(s: Server, r: Request)
    requires Core(s) && CondInScope(s, r)
    ensures Core(SignalOp(s, r)) <==>
              (Check(s, r) == Here ==>
                 && Queue(s, CondQueue(r.index)) != []
                 && Owner(s, r.index2) != NO_OWNER
                 && First(s, CondQueue(r.index)) != Some(Owner(s, r.index2)))
  {
    hide Core, MoveOp, Queue, Owner, First;
    var u := SignalOp(s, r);
    if Check(s, r) == Here {
      var v := MoveOp(s, r.index, r.index2);
      MoveKeepsIff(s, r.index, r.index2);
      SameParts(v, u);
    } else {
      SameParts(s, u);
    }
  }

  /** A broadcast moves all waiters, in their order, to the back of the lock's queue. */
  lemma {:induction false} MoveAllEffect(s: Server, c: int, l: int)
    requires IsServer(s) && 0 <= c < |s.conditions| && 0 <= l < |s.locks|
    ensures var u := MoveAll(s, c, l);
            && |u.locks| == |s.locks| && |u.conditions| == |s.conditions| && u.crashed == s.crashed && u.sent == s.sent
            && (forall p :: Queue(u, p) == if p == LockQueue(l) then Queue(s, p) + Queue(s, CondQueue(c))
                                           else if p == CondQueue(c) then [] else Queue(s, p))
            && (forall k :: Owner(u, k) == Owner(s, k))
    decreases |Queue(s, CondQueue(c))|
  {
    if Queue(s, CondQueue(c)) != [] {
      var v, q := MoveOp(s, c, l), Queue(s, CondQueue(c));
      MoveEffect(s, c, l);
      MoveAllEffect(v, c, l);
      hide Queue, Owner, MoveOp;
      assert Queue(s, LockQueue(l)) + [q[0]] + q[1..] == Queue(s, LockQueue(l)) + q;
    }
  }

  lemma {:induction false} MoveAllGood(s: Server, c: int, l: int)
    requires Core(s) && 0 <= c < |s.conditions| && 0 <= l < |s.locks|
    requires Queue(s, CondQueue(c)) == [] || (Owner(s, l) != NO_OWNER && Some(Owner(s, l)) !in Queue(s, CondQueue(c)))
    ensures Core(MoveAll(s, c, l))
    decreases |Queue(s, CondQueue(c))|
  {
    if Queue(s, CondQueue(c)) != [] {
      assert First(s, CondQueue(c)) in Queue(s, CondQueue(c));
      MoveEffect(s, c, l);
      MoveGood(s, MoveOp(s, c, l), c, l);
      MoveAllGood(MoveOp(s, c, l), c, l);
    }
  }

  /** Broadcast keeps the invariant exactly if nobody waits on the condition, or the lock has an owner, and
      that does not wait on the condition. */
  lemma BroadcastKeepsIff(s: Server, r: Request)
    requires Core(s) && CondInScope(s, r)
    ensures Core(BroadcastOp(s, r)) <==>
              (Check(s, r) == Here ==>
                 || Queue(s, CondQueue(r.index)) == []
                 || (Owner(s, r.index2) != NO_OWNER && Some(Owner(s, r.index2)) !in Queue(s, CondQueue(r.index))))
  {
    var u, q := BroadcastOp(s, r), Queue(s, CondQueue(r.index));
    if Check(s, r) == Here {
      var v := MoveAll(s, r.index, r.index2);
      MoveAllEffect(s, r.index, r.index2);
      SameParts(v, u);
      assert Queue(v, LockQueue(r.index2)) == Queue(s, LockQueue(r.index2)) + q;
      if q == [] || (Owner(s, r.index2) != NO_OWNER && Some(Owner(s, r.index2)) !in q) {
        MoveAllGood(s, r.index, r.index2);
      } else if Owner(s, r.index2) != NO_OWNER {
        assert Some(Owner(v, r.index2)) in Queue(v, LockQueue(r.index2));
      }
    } else {
      SameCore(s, u);
    }
  }

  /** Sending changes no queue and no owner. */
  lemma SameParts(v: Server, u: Server)
    requires u == v.(sent := u.sent)
    ensures forall q :: Queue(u, q) == Queue(v, q)
    ensures forall l :: Owner(u, l) == Owner(v, l)
    ensures Core(u) <==> Core(v)
  {
  }

  // ----- first come, first served -----

  /** Whoever has joined a queue has left it, in the same order, or is still in it. */
  ghost predicate Fifo(s: Server) {
    forall q :: Joined(s, q) == Left(s, q) + Queue(s, q)
  }

  lemma FifoSame(s: Server, u: Server)
    requires Fifo(s) && u.joined == s.joined && u.left == s.left && forall q :: Queue(u, q) == Queue(s, q)
    ensures Fifo(u)
  {
  }

  lemma FifoAppend(s: Server, q: QueueId, id: Option<ThreadID>)
    requires match q case LockQueue(l) => 0 <= l < |s.locks| case CondQueue(c) => 0 <= c < |s.conditions|
    requires Fifo(s)
    ensures Fifo(Append(s, q, id))
  {
    hide Queue, Joined, Append, Owner;
    AppendEffect(s, q, id);
  }

  lemma FifoRemove(s: Server, q: QueueId)
    requires Fifo(s)
    ensures Fifo(RemoveFirst(s, q))
  {
    if Queue(s, q) != [] {
      hide Queue, Left, RemoveFirst, Owner;
      var u := RemoveFirst(s, q);
      RemoveEffect(s, q);
      forall p
        ensures Joined(u, p) == Left(u, p) + Queue(u, p)
      {
        assert Joined(s, p) == Left(s, p) + Queue(s, p);
        if p == q {
          MoveOne(Left(s, q), Queue(s, q));
        }
      }
    }
  }

  lemma MoveOne(a: seq<Option<ThreadID>>, q: seq<Option<ThreadID>>)
    requires q != []
    ensures a + q == (a + [q[0]]) + q[1..]
  {
  }

  lemma FifoGrant(s: Server, l: int)
    requires 0 <= l < |s.locks| && Queue(s, LockQueue(l)) != [] && Fifo(s)
    ensures Fifo(Grant(s, l))
  {
    if First(s, LockQueue(l)).Some? {
      FifoRemove(s, LockQueue(l));
      SetOwnerEffect(RemoveFirst(s, LockQueue(l)), l, First(s, LockQueue(l)).value);
      SameParts(SetOwner(RemoveFirst(s, LockQueue(l)), l, First(s, LockQueue(l)).value), Grant(s, l));
      FifoSame(RemoveFirst(s, LockQueue(l)), Grant(s, l));
    } else {
      assert forall q :: Queue(Grant(s, l), q) == Queue(s, q);
      FifoSame(s, Grant(s, l));
    }
  }

  lemma {:induction false} FifoMoveAll(s: Server, c: int, l: int)
    requires IsServer(s) && 0 <= l < |s.locks| && 0 <= c < |s.conditions| && Fifo(s)
    ensures Fifo(MoveAll(s, c, l))
    decreases |Queue(s, CondQueue(c))|
  {
    if Queue(s, CondQueue(c)) != [] {
      FifoRemove(s, CondQueue(c));
      FifoAppend(RemoveFirst(s, CondQueue(c)), LockQueue(l), First(s, CondQueue(c)));
      FifoMoveAll(MoveOp(s, c, l), c, l);
    }
  }

  lemma FifoAcquire(s: Server, r: Request)
    requires Fifo(s) && 0 <= r.index < |s.locks|
    ensures Fifo(AcquireOp(s, r))
  {
    if WillQueue(s, r) {
      FifoAppend(s, LockQueue(r.index), Some(Requester(r)));
    } else {
      SetOwnerEffect(s, r.index, Requester(r));
      FifoSame(s, AcquireOp(s, r));
    }
  }

  lemma FifoRelease(s: Server, r: Request)
    requires Fifo(s) && 0 <= r.index < |s.locks|
    ensures Fifo(ReleaseOp(s, r))
  {
    hide Fifo;
    var k := s.locks[r.index];
    if k.named && !k.isDeleted && MayRelease(k, r) {
      var v := Send(SetOwner(s, r.index, NO_OWNER), Success(Requester(r)));
      SetOwnerEffect(s, r.index, NO_OWNER);
      SameParts(SetOwner(s, r.index, NO_OWNER), v);
      FifoSame(s, v);
      if k.queue != [] {
        FifoGrant(v, r.index);
      } else {
        FifoSame(v, ReleaseOp(s, r));
      }
    } else {
      FifoSame(s, ReleaseOp(s, r));
    }
  }

  lemma FifoWait(s: Server, r: Request)
    requires Fifo(s) && CondInScope(s, r)
    ensures Fifo(WaitOp(s, r))
  {
    if Check(s, r) == Here {
      var v := SetOwner(s, r.index2, NO_OWNER);
      SetOwnerEffect(s, r.index2, NO_OWNER);
      FifoSame(s, v);
      FifoAppend(v, CondQueue(r.index), Some(s.locks[r.index2].owner));
      var u := Append(v, CondQueue(r.index), Some(s.locks[r.index2].owner));
      if Queue(u, LockQueue(r.index2)) != [] {
        FifoGrant(u, r.index2);
      }
    } else {
      FifoSame(s, WaitOp(s, r));
    }
  }

  /** Locks are granted, and waiters moved, in the order of their arrival, whatever clients do. */
  lemma ApplyFifo(s: Server, call: Call)
    requires IsServer(s) && Fifo(s) && InScope(s, call)
    ensures Fifo(Apply(s, call))
  {
    hide Fifo;
    var r, u := call.r, Apply(s, call);
    match call {
      case Acquire(_) => FifoAcquire(s, r);
      case Release(_) => FifoRelease(s, r);
      case Wait(_) => FifoWait(s, r);
      case Signal(_) =>
        if Check(s, r) == Here {
          FifoRemove(s, CondQueue(r.index));
          FifoAppend(RemoveFirst(s, CondQueue(r.index)), LockQueue(r.index2), First(s, CondQueue(r.index)));
          SameParts(MoveOp(s, r.index, r.index2), u);
          FifoSame(MoveOp(s, r.index, r.index2), u);
        } else {
          FifoSame(s, u);
        }
      case Broadcast(_) =>
        if Check(s, r) == Here {
          FifoMoveAll(s, r.index, r.index2);
          SameParts(MoveAll(s, r.index, r.index2), u);
          FifoSame(MoveAll(s, r.index, r.index2), u);
        } else {
          FifoSame(s, u);
        }
    }
  }

  // ----- runs of clients that behave -----

  /** Clients send no request while they wait; only owners release, wait, signal or broadcast, and signals
      find a waiter. */
  ghost predicate Disciplined(s: Server, call: Call) {
    var r := call.r;
    && Requester(r) != NO_OWNER && !Waiting(s, Requester(r))
    && InScope(s, call)
    && match call
       case Acquire(_) => true
       case Release(_) => Owner(s, r.index) == Requester(r)
       case Wait(_) => UsesOwnLock(s, r)
       case Signal(_) => UsesOwnLock(s, r) && Queue(s, CondQueue(r.index)) != []
       case Broadcast(_) => UsesOwnLock(s, r)
  }

  predicate UsesOwnLock(s: Server, r: Request)
    requires 0 <= r.index < |s.conditions|
  {
    Check(s, r) == Here && Owner(s, r.index2) == Requester(r)
  }

  /** Nobody owns or waits for anything at first. */
  lemma StartCore(s: Server)
    requires IsServer(s) && !s.crashed && s.joined == map[] && s.left == map[]
    requires forall l :: 0 <= l < |s.locks| ==> s.locks[l].owner == NO_OWNER && s.locks[l].queue == []
    requires forall c :: 0 <= c < |s.conditions| ==> s.conditions[c].queue == []
    ensures Core(s) && Fifo(s)
    ensures forall q :: Queue(s, q) == []
  {
    assert forall q :: Queue(s, q) == [];
  }

  lemma MovesKeepCore(s: Server, call: Call)
    requires Core(s) && Disciplined(s, call) && (call.Signal? || call.Broadcast?)
    ensures Core(Apply(s, call))
  {
    hide Queue, Owner, Core, SignalOp, BroadcastOp;
    var r, q := call.r, Queue(s, CondQueue(call.r.index));
    assert Some(Requester(r)) !in q;
    if call.Signal? {
      assert First(s, CondQueue(r.index)) in q;
      SignalKeepsIff(s, r);
    } else {
      BroadcastKeepsIff(s, r);
    }
  }

  lemma ApplyKeepsCore(s: Server, call: Call)
    requires Core(s) && Disciplined(s, call)
    ensures Core(Apply(s, call))
  {
    match call {
      case Acquire(r) => AcquireKeepsIff(s, r);
      case Release(r) => ReleaseKeeps(s, r);
      case Wait(r) => WaitKeepsIff(s, r);
      case Signal(_) => MovesKeepCore(s, call);
      case Broadcast(_) => MovesKeepCore(s, call);
    }
  }

  ghost predicate Runs(s: Server, calls: seq<Call>)
    decreases |calls|
  {
    calls == [] || (Disciplined(s, calls[0]) && Runs(Apply(s, calls[0]), calls[1..]))
  }

  /** The server after the first `n` requests. */
  ghost function After(s: Server, calls: seq<Call>, n: nat): Server
    requires Runs(s, calls) && n <= |calls|
    decreases n
  {
    if n == 0 then s else After(Apply(s, calls[0]), calls[1..], n - 1)
  }

  /** Over any run of requests from clients that behave. */
  lemma {:induction false} RunsKeepCore(s: Server, calls: seq<Call>, n: nat)
    requires Core(s) && Fifo(s) && Runs(s, calls) && n <= |calls|
    ensures Core(After(s, calls, n)) && Fifo(After(s, calls, n))
    decreases n
  {
    hide Core, Fifo;
    IsSound(s);
    if n > 0 {
      ApplyKeepsCore(s, calls[0]);
      ApplyFifo(s, calls[0]);
      RunsKeepCore(Apply(s, calls[0]), calls[1..], n - 1);
    }
  }

  // ----- conditions that are used with one lock -----

  /** The request uses its condition with the lock that goes with it. */
  predicate KeepsPairs(call: Call, lockOf: int -> int) {
    call.Wait? || call.Signal? || call.Broadcast? ==> call.r.index2 == lockOf(call.r.index)
  }

  /** Nobody waits on a condition while owning its lock. */
  ghost predicate ConditionsApart(s: Server, lockOf: int -> int) {
    forall c :: Some(Owner(s, lockOf(c))) !in Queue(s, CondQueue(c))
  }

  /** Owners stay, or lose the lock to nobody or to somebody that waited for it; a condition's queue only
      gains its lock's owner, which then does not own it any more. */
  lemma StillApart(s: Server, u: Server, lockOf: int -> int, l: int, c: int, x: ThreadID)
    requires Core(s) && ConditionsApart(s, lockOf)
    requires forall k :: Owner(u, k) == Owner(s, k) || k == l
    requires Owner(u, l) != Owner(s, l) ==>
               forall d, y :: y in Queue(u, CondQueue(d)) ==> y != Some(Owner(u, l))
    requires forall d, y :: y in Queue(u, CondQueue(d)) ==> y in Queue(s, CondQueue(d)) || (d == c && y == Some(x))
    requires Owner(u, lockOf(c)) != x
    ensures ConditionsApart(u, lockOf)
  {
    hide Queue, Owner, Core;
  }

  lemma AcquireApart(s: Server, r: Request, lockOf: int -> int)
    requires Core(s) && ConditionsApart(s, lockOf) && Disciplined(s, Acquire(r))
    ensures ConditionsApart(AcquireOp(s, r), lockOf)
  {
    var k, u := s.locks[r.index], AcquireOp(s, r);
    if WillQueue(s, r) {
      AppendEffect(s, LockQueue(r.index), Some(Requester(r)));
    } else if k.named && !k.isDeleted && !k.isToBeDeleted && k.queue == [] && k.owner == NO_OWNER {
      SetOwnerEffect(s, r.index, Requester(r));
      SameParts(SetOwner(s, r.index, Requester(r)), u);
    } else {
      SameParts(s, u);
    }
  }

  lemma WaitsOnlyHere(s: Server, q: QueueId, id: ThreadID)
    requires Core(s) && Some(id) in Queue(s, q)
    ensures forall p :: p != q ==> Some(id) !in Queue(s, p)
  {
  }

  lemma NobodyQueues(s: Server)
    requires Core(s)
    ensures forall q :: Some(NO_OWNER) !in Queue(s, q)
  {
  }

  lemma ReleaseApart(s: Server, r: Request, lockOf: int -> int)
    requires Core(s) && ConditionsApart(s, lockOf) && Disciplined(s, Release(r))
    ensures ConditionsApart(ReleaseOp(s, r), lockOf)
  {
    hide Queue, Owner, Core;
    var q := Queue(s, LockQueue(r.index));
    if Releases(s, r) {
      NoNullHead(s, LockQueue(r.index));
      ReleaseQueues(s, r);
      NobodyQueues(s);
      if q != [] {
        WaitsOnlyHere(s, LockQueue(r.index), q[0].value);
      }
    } else {
      SameParts(s, ReleaseOp(s, r));
    }
  }

  lemma WaitApart(s: Server, r: Request, lockOf: int -> int)
    requires Core(s) && ConditionsApart(s, lockOf) && Disciplined(s, Wait(r)) && r.index2 == lockOf(r.index)
    ensures ConditionsApart(WaitOp(s, r), lockOf)
  {
    hide Queue, Owner, Core, WaitOp, Check;
    var l, q, u := r.index2, Queue(s, LockQueue(r.index2)), WaitOp(s, r);
    IsSound(s);
    NoNullHead(s, LockQueue(l));
    WaitQueues(s, r);
    NobodyQueues(s);
    if q != [] {
      WaitsOnlyHere(s, LockQueue(l), q[0].value);
      assert q[0].value != Requester(r);
    }
    StillApart(s, u, lockOf, l, r.index, Requester(r));
  }

  lemma IsSound(s: Server)
    requires Core(s)
    ensures IsServer(s) && !s.crashed
  {
  }

  lemma MovesApart(s: Server, call: Call, lockOf: int -> int)
    requires Core(s) && ConditionsApart(s, lockOf) && Disciplined(s, call) && (call.Signal? || call.Broadcast?)
    ensures ConditionsApart(Apply(s, call), lockOf)
  {
    hide Queue, Owner, Core;
    var r := call.r;
    IsSound(s);
    if call.Signal? {
      MoveEffect(s, r.index, r.index2);
      SameParts(MoveOp(s, r.index, r.index2), Apply(s, call));
    } else {
      MoveAllEffect(s, r.index, r.index2);
      SameParts(MoveAll(s, r.index, r.index2), Apply(s, call));
    }
  }

  lemma ApplyKeepsApart(s: Server, call: Call, lockOf: int -> int)
    requires Core(s) && ConditionsApart(s, lockOf) && Disciplined(s, call) && KeepsPairs(call, lockOf)
    ensures ConditionsApart(Apply(s, call), lockOf)
  {
    match call {
      case Acquire(r) => AcquireApart(s, r, lockOf);
      case Release(r) => ReleaseApart(s, r, lockOf);
      case Wait(r) => WaitApart(s, r, lockOf);
      case Signal(_) => MovesApart(s, call, lockOf);
      case Broadcast(_) => MovesApart(s, call, lockOf);
    }
  }

  /** If each condition is used with one lock, nobody ever waits on one while owning its lock. */
  lemma {:induction false} RunsKeepApart(s: Server, calls: seq<Call>, n: nat, lockOf: int -> int)
    requires Core(s) && ConditionsApart(s, lockOf) && Runs(s, calls) && n <= |calls|
    requires forall call :: call in calls ==> KeepsPairs(call, lockOf)
    ensures ConditionsApart(After(s, calls, n), lockOf)
    decreases n
  {
    hide Core, ConditionsApart, KeepsPairs;
    if n > 0 {
      assert calls[0] in calls;
      ApplyKeepsCore(s, calls[0]);
      ApplyKeepsApart(s, calls[0], lockOf);
      RunsKeepApart(Apply(s, calls[0]), calls[1..], n - 1, lockOf);
    }
  }

  // ----- one grant for each waiter -----

  predicate IsReplyTo(m: Sent, id: ThreadID) {
    m == Success(id) || m == Error(id)
  }

  /** The replies to a client, in their order. */
  function RepliesTo(sent: seq<Sent>, id: ThreadID): seq<Sent> {
    if sent == [] then [] else (if IsReplyTo(sent[0], id) then [sent[0]] else []) + RepliesTo(sent[1..], id)
  }

  lemma {:induction false} RepliesSplit(a: seq<Sent>, b: seq<Sent>, id: ThreadID)
    ensures RepliesTo(a + b, id) == RepliesTo(a, id) + RepliesTo(b, id)
  {
    if a == [] {
      assert a + b == b;
    } else {
      RepliesSplit(a[1..], b, id);
      assert (a + b)[1..] == a[1..] + b;
    }
  }

  /** What is sent from one state to a later one. */
  function Since(s: Server, u: Server): seq<Sent> {
    if |s.sent| <= |u.sent| then u.sent[|s.sent|..] else []
  }

  /** The lock at the head of whose queue the client was is its own now. */
  ghost predicate Granted(s: Server, u: Server, id: ThreadID) {
    exists l :: Owner(u, l) == id && First(s, LockQueue(l)) == Some(id)
  }

  /** A client that waits after a request is sent nothing by it; one that waits no more is sent a success,
      and nothing else, and has got the lock. */
  ghost predicate Served(s: Server, u: Server, id: ThreadID) {
    && s.sent <= u.sent
    && if Waiting(u, id) then RepliesTo(Since(s, u), id) == []
       else Waiting(s, id) ==> RepliesTo(Since(s, u), id) == [Success(id)] && Granted(s, u, id)
  }

  /** What a request does to those who wait: answers go to the requester, or an absent client, and only if
      that is not made to wait; at most one client is told that its waiting is over. */
  ghost predicate Outcome(s: Server, u: Server, r: Request, answers: seq<Sent>, head: Option<ThreadID>) {
    && u.sent == s.sent + (answers + if head == None then [] else [Success(head.value)])
    && (forall id: ThreadID :: id.machineID != -1 && (id != Requester(r) || Waiting(u, id)) ==>
         RepliesTo(answers, id) == [])
    && (forall id :: Waiting(s, id) && head != Some(id) ==> Waiting(u, id))
    && (head != None ==> Waiting(s, head.value) && !Waiting(u, head.value) && Granted(s, u, head.value))
  }

  lemma OutcomeServes(s: Server, u: Server, r: Request, answers: seq<Sent>, head: Option<ThreadID>, id: ThreadID)
    requires Outcome(s, u, r, answers, head) && id.machineID != -1 && !Waiting(s, Requester(r))
    ensures Served(s, u, id)
  {
    hide Waiting, Granted;
    var told := if head == None then [] else [Success(head.value)];
    assert Since(s, u) == answers + told;
    RepliesSplit(answers, told, id);
  }

  lemma OneAnswer(r: Request, m: Sent)
    requires m in [Success(Requester(r)), Error(Requester(r)), Error(r.client)] || m.Forwarded?
    ensures forall id: ThreadID :: id.machineID != -1 && id != Requester(r) ==> RepliesTo([m], id) == []
  {
  }

  lemma AcquireOutcome(s: Server, r: Request) returns (answers: seq<Sent>)
    requires Core(s) && Disciplined(s, Acquire(r))
    ensures Outcome(s, AcquireOp(s, r), r, answers, None)
  {
    var k, u := s.locks[r.index], AcquireOp(s, r);
    if WillQueue(s, r) {
      AppendEffect(s, LockQueue(r.index), Some(Requester(r)));
      answers := [];
    } else {
      var v := SetOwner(s, r.index, Requester(r));
      SetOwnerEffect(s, r.index, Requester(r));
      var taken := k.named && !k.isDeleted && !k.isToBeDeleted && k.queue == [] && k.owner == NO_OWNER;
      SameParts(if taken then v else s, u);
      answers := [u.sent[|s.sent|]];
      OneAnswer(r, answers[0]);
      SameWaiters(s, u);
    }
  }

  lemma SameWaiters(s: Server, u: Server)
    requires forall q :: Queue(u, q) == Queue(s, q)
    ensures forall id :: Waiting(u, id) <==> Waiting(s, id)
  {
    forall id
      ensures Waiting(u, id) <==> Waiting(s, id)
    {
      assert forall q :: Some(id) in Queue(u, q) <==> Some(id) in Queue(s, q);
    }
  }

  /** Only the head of a lock's queue stops waiting when it is taken off, and only `x` may begin to. */
  lemma HeadLeaves(s: Server, u: Server, l: int, x: Option<ThreadID>)
    requires Core(s)
    requires forall p, y :: p != LockQueue(l) && y in Queue(s, p) ==> y in Queue(u, p)
    requires forall p, y :: p != LockQueue(l) && y in Queue(u, p) ==> y in Queue(s, p) || y == x
    requires var q := Queue(s, LockQueue(l)); Queue(u, LockQueue(l)) == if q == [] then [] else q[1..]
    requires x != None ==> !Waiting(s, x.value)
    ensures forall id :: Waiting(s, id) && First(s, LockQueue(l)) != Some(id) ==> Waiting(u, id)
    ensures forall id :: Waiting(u, id) ==> Waiting(s, id) || x == Some(id)
    ensures First(s, LockQueue(l)) != None ==> !Waiting(u, First(s, LockQueue(l)).value)
  {
    var q, head := Queue(s, LockQueue(l)), First(s, LockQueue(l));
    NoNullHead(s, LockQueue(l));
    if q != [] {
      WaitsOnlyHere(s, LockQueue(l), q[0].value);
      HeadIsSomeone(s, LockQueue(l));
      DistinctOnly(s, LockQueue(l));
      DistinctTail(q);
    }
    hide Queue, Owner, Core;
    forall id | Waiting(s, id) && head != Some(id)
      ensures Waiting(u, id)
    {
      var p :| Some(id) in Queue(s, p);
      assert Some(id) in Queue(u, p);
    }
    forall id | Waiting(u, id)
      ensures Waiting(s, id) || x == Some(id)
    {
      var p :| Some(id) in Queue(u, p);
      assert Some(id) in Queue(s, p) || x == Some(id);
    }
  }

  lemma DistinctOnly(s: Server, q: QueueId)
    requires Core(s)
    ensures Distinct(Queue(s, q))
  {
  }

  lemma ReleaseOutcome(s: Server, r: Request) returns (answers: seq<Sent>, head: Option<ThreadID>)
    requires Core(s) && Disciplined(s, Release(r))
    ensures Outcome(s, ReleaseOp(s, r), r, answers, head)
  {
    hide Queue, Owner, Core;
    var u, q := ReleaseOp(s, r), Queue(s, LockQueue(r.index));
    if Releases(s, r) {
      answers := [Success(Requester(r))];
      OneAnswer(r, answers[0]);
      head := First(s, LockQueue(r.index));
      NoNullHead(s, LockQueue(r.index));
      ReleaseQueues(s, r);
      HeadLeaves(s, u, r.index, None);
      if q != [] {
        HeadIsSomeone(s, LockQueue(r.index));
      }
    } else {
      head, answers := None, [u.sent[|s.sent|]];
      OneAnswer(r, answers[0]);
      SameParts(s, u);
      SameWaiters(s, u);
    }
  }

  lemma WaitOutcome(s: Server, r: Request) returns (head: Option<ThreadID>)
    requires Core(s) && Disciplined(s, Wait(r))
    ensures Outcome(s, WaitOp(s, r), r, [], head)
  {
    hide Queue, Owner, Core, WaitOp, Check;
    var l, u := r.index2, WaitOp(s, r);
    head := First(s, LockQueue(l));
    IsSound(s);
    NoNullHead(s, LockQueue(l));
    WaitQueues(s, r);
    HeadLeaves(s, u, l, Some(Requester(r)));
    if Queue(s, LockQueue(l)) != [] {
      HeadIsSomeone(s, LockQueue(l));
    }
  }

  lemma MovesOutcome(s: Server, call: Call) returns (answers: seq<Sent>)
    requires Core(s) && Disciplined(s, call) && (call.Signal? || call.Broadcast?)
    ensures Outcome(s, Apply(s, call), call.r, answers, None)
  {
    hide Queue, Owner, Core;
    var r, u := call.r, Apply(s, call);
    var c, l := CondQueue(r.index), LockQueue(r.index2);
    IsSound(s);
    answers := [Success(Requester(r))];
    OneAnswer(r, answers[0]);
    if call.Signal? {
      MoveEffect(s, r.index, r.index2);
      SameParts(MoveOp(s, r.index, r.index2), u);
      assert forall y :: y in Queue(s, c) ==> y in Queue(u, c) || y in Queue(u, l);
      assert forall y :: y in Queue(u, l) ==> y in Queue(s, l) || y in Queue(s, c);
    } else {
      MoveAllEffect(s, r.index, r.index2);
      SameParts(MoveAll(s, r.index, r.index2), u);
    }
    MovedStillWait(s, u, c, l);
  }

  /** Those who are moved from one queue to another wait on. */
  lemma MovedStillWait(s: Server, u: Server, c: QueueId, l: QueueId)
    requires forall p, y :: p != c && y in Queue(s, p) ==> y in Queue(u, p)
    requires forall p, y :: p != l && y in Queue(u, p) ==> y in Queue(s, p)
    requires forall y :: y in Queue(s, c) ==> y in Queue(u, c) || y in Queue(u, l)
    requires forall y :: y in Queue(u, l) ==> y in Queue(s, l) || y in Queue(s, c)
    ensures forall id :: Waiting(u, id) <==> Waiting(s, id)
  {
    hide Queue;
  }

  /** Every waiter is sent exactly one message, the grant, when it is at the head of the lock's queue; and
      whoever begins to wait is not answered. */
  lemma OneGrant(s: Server, call: Call, id: ThreadID)
    requires Core(s) && Disciplined(s, call) && id.machineID != -1
    ensures Served(s, Apply(s, call), id)
  {
    hide Core, Outcome, Served;
    var r, answers, head := call.r, [], None;
    match call {
      case Acquire(_) => answers := AcquireOutcome(s, r);
      case Release(_) => answers, head := ReleaseOutcome(s, r);
      case Wait(_) => head := WaitOutcome(s, r);
      case Signal(_) => answers := MovesOutcome(s, call);
      case Broadcast(_) => answers := MovesOutcome(s, call);
    }
    OutcomeServes(s, Apply(s, call), r, answers, head, id);
  }

  lemma {:induction false} AfterNext(s: Server, calls: seq<Call>, n: nat)
    requires Core(s) && Runs(s, calls) && n < |calls|
    ensures Core(After(s, calls, n)) && Disciplined(After(s, calls, n), calls[n])
    ensures After(s, calls, n + 1) == Apply(After(s, calls, n), calls[n])
    decreases n
  {
    if n > 0 {
      ApplyKeepsCore(s, calls[0]);
      AfterNext(Apply(s, calls[0]), calls[1..], n - 1);
    }
  }

  lemma SinceSplit(s: Server, v: Server, u: Server)
    requires s.sent <= v.sent <= u.sent
    ensures s.sent <= u.sent && Since(s, u) == Since(s, v) + Since(v, u)
  {
  }

  /** Over any run: a client that the first request makes wait is sent nothing until it has the lock, and
      then exactly one success. */
  lemma {:induction false} OneGrantInRun(s: Server, calls: seq<Call>, n: nat, id: ThreadID)
    requires Core(s) && Runs(s, calls) && 1 <= n <= |calls| && id.machineID != -1
    requires Waiting(After(s, calls, 1), id)
    requires forall k: nat :: 1 <= k < n ==> Waiting(After(s, calls, k), id)
    ensures var u := After(s, calls, n);
            && s.sent <= u.sent
            && RepliesTo(Since(s, u), id) == (if Waiting(u, id) then [] else [Success(id)])
            && (Waiting(u, id) || Granted(After(s, calls, n - 1), u, id))
    decreases n
  {
    hide Core, Waiting, Granted, RepliesTo, Since, Apply, Disciplined;
    var v, u := After(s, calls, n - 1), After(s, calls, n);
    AfterNext(s, calls, n - 1);
    OneGrant(v, calls[n - 1], id);
    if n > 1 {
      OneGrantInRun(s, calls, n - 1, id);
      RepliesSplit(Since(s, v), Since(v, u), id);
      SinceSplit(s, v, u);
    }
  }

  // ----- a request that breaks the discipline -----

  /** A server with usable locks and conditions that nobody has touched. */
  function FreshServer(): Server {
    Server(seq(MAX_SERVERLOCKS, i => ServerLock(true, NO_OWNER, [], false, false)),
           seq(MAX_SERVERCONDITIONS, i => ServerCondition(true, [], false, false)), [], map[], map[], false)
  }

  /** One client acquires a lock, signals a condition that nobody waits on, and releases the lock: the server
      follows NULL. */
  lemma SignalThenReleaseCrashes()
    ensures var s, r := FreshServer(), Request(0, 0, -1, ThreadID(1, 1), NO_OWNER);
            var a := AcquireOp(s, r);
            var b := SignalOp(a, r);
            && Core(s) && Core(a) && InScope(s, Acquire(r)) && CondInScope(a, r)
            && Owner(a, 0) == Requester(r) && Owner(b, 0) == Requester(r)
            && ReleaseOp(b, r).crashed
  {
    var s, r := FreshServer(), Request(0, 0, -1, ThreadID(1, 1), NO_OWNER);
    StartCore(s);
    AcquireKeepsIff(s, r);
  }

  // ----- answers -----

  // Told by the tables themselves. The requester is the client if there is one, else the sender. What the
  // server does not have goes to the message handler or, if it comes from there, its client gets an error.

  /** A lock that is deleted: an error. A free one becomes the requester's, which is told. Its owner,
      whether it asks itself or through the message handler, gets an error. Anybody else, other threads of
      the owner's machine included, waits unanswered behind those who wait already. */
  lemma AcquireAnswers(s: Server, r: Request)
    requires Core(s) && 0 <= r.index < |s.locks|
    ensures var k, u := s.locks[r.index], AcquireOp(s, r);
            var who := if r.client.machineID == -1 then r.sender else r.client;
            if !k.named then u == s.(sent := s.sent + [if r.id == -1 then Forwarded(r.sender) else Error(r.client)])
            else if k.isDeleted || k.isToBeDeleted then u == s.(sent := s.sent + [Error(who)])
            else if k.owner == NO_OWNER then
              && u.locks == s.locks[r.index := k.(owner := who)] && u.conditions == s.conditions
              && u.sent == s.sent + [Success(who)]
            else if k.owner == r.sender || (k.owner == r.client && r.client.machineID != -1) then
              u == s.(sent := s.sent + [Error(who)])
            else
              && u.locks == s.locks[r.index := k.(queue := k.queue + [Some(who)])] && u.conditions == s.conditions
              && u.sent == s.sent
  {
    FreeIsUnqueued(s, r.index);
  }

  lemma FreeIsUnqueued(s: Server, l: int)
    requires Core(s) && 0 <= l < |s.locks|
    ensures s.locks[l].owner == NO_OWNER ==> s.locks[l].queue == []
    ensures s.locks[l].queue != [] ==> s.locks[l].queue[0] != None
  {
    assert Owner(s, l) == s.locks[l].owner && Queue(s, LockQueue(l)) == s.locks[l].queue;
  }

  /** Apart from the mailbox that the server itself releases from, only the owner gets a lock released; it
      goes to the longest waiter, which is told, or becomes free, and is deleted if it was to be. Anybody
      else gets an error, and nothing changes. */
  lemma OnlyOwnersRelease(s: Server, r: Request)
    requires Core(s) && 0 <= r.index < |s.locks|
    ensures var k, u := s.locks[r.index], ReleaseOp(s, r);
            var who := if r.client.machineID == -1 then r.sender else r.client;
            if !k.named then u == s.(sent := s.sent + [if r.id == -1 then Forwarded(r.sender) else Error(r.client)])
            else if k.isDeleted then u == s.(sent := s.sent + [Error(who)])
            else if !(|| k.owner == r.sender || (k.owner == r.client && r.client.machineID != -1)
                      || r.sender.threadID == RELEASE_MAILBOX || r.client.threadID == RELEASE_MAILBOX) then
              u == s.(sent := s.sent + [Error(who)])
            else if k.queue == [] then
              && u.locks == s.locks[r.index := k.(owner := NO_OWNER, isDeleted := k.isToBeDeleted)]
              && u.conditions == s.conditions && u.sent == s.sent + [Success(who)]
            else
              && k.queue[0] != None
              && u.locks == s.locks[r.index := k.(owner := k.queue[0].value, queue := k.queue[1..])]
              && u.conditions == s.conditions && u.sent == s.sent + [Success(who), Success(k.queue[0].value)]
  {
    FreeIsUnqueued(s, r.index);
  }

  /** Wait: the lock's owner, whoever asks, waits on the condition, and the longest waiter gets the lock. */
  lemma WaitAnswers(s: Server, r: Request)
    requires Core(s) && CondInScope(s, r)
    ensures var c, u := s.conditions[r.index], WaitOp(s, r);
            var who := if r.client.machineID == -1 then r.sender else r.client;
            if !c.named then u == s.(sent := s.sent + [if r.id == -1 then Forwarded(r.sender) else Error(r.client)])
            else if r.index2 < 0 || r.index2 >= |s.locks| || c.isDeleted || c.isToBeDeleted then
              u == s.(sent := s.sent + [Error(who)])
            else
              var k := s.locks[r.index2];
              && u.conditions == s.conditions[r.index := c.(queue := c.queue + [Some(k.owner)])]
              && (k.queue == [] ==> u.locks == s.locks[r.index2 := k.(owner := NO_OWNER)] && u.sent == s.sent)
              && (k.queue != [] ==>
                    && k.queue[0] != None
                    && u.locks == s.locks[r.index2 := k.(owner := k.queue[0].value, queue := k.queue[1..])]
                    && u.sent == s.sent + [Success(k.queue[0].value)])
  {
    if 0 <= r.index2 < |s.locks| {
      FreeIsUnqueued(s, r.index2);
    }
  }

  /** Signal: the longest waiter, or NULL, goes to the back of the lock's queue. */
  lemma SignalAnswers(s: Server, r: Request)
    requires CondInScope(s, r)
    ensures var c, u := s.conditions[r.index], SignalOp(s, r);
            var who := if r.client.machineID == -1 then r.sender else r.client;
            if !c.named then u == s.(sent := s.sent + [if r.id == -1 then Forwarded(r.sender) else Error(r.client)])
            else if r.index2 < 0 || r.index2 >= |s.locks| || c.isDeleted || c.isToBeDeleted then
              u == s.(sent := s.sent + [Error(who)])
            else
              var k := s.locks[r.index2];
              && u.sent == s.sent + [Success(who)]
              && (c.queue == [] ==>
                    && u.conditions == s.conditions
                    && u.locks == s.locks[r.index2 := k.(queue := k.queue + [None])])
              && (c.queue != [] ==>
                    && u.conditions == s.conditions[r.index := c.(queue := c.queue[1..])]
                    && u.locks == s.locks[r.index2 := k.(queue := k.queue + [c.queue[0]])])
  {
  }

  /** Broadcast: all waiters go, in their order, to the back of the lock's queue. */
  lemma BroadcastAnswers(s: Server, r: Request)
    requires CondInScope(s, r)
    ensures var c, u := s.conditions[r.index], BroadcastOp(s, r);
            var who := if r.client.machineID == -1 then r.sender else r.client;
            if !c.named then u == s.(sent := s.sent + [if r.id == -1 then Forwarded(r.sender) else Error(r.client)])
            else if r.index2 < 0 || r.index2 >= |s.locks| || c.isDeleted || c.isToBeDeleted then
              u == s.(sent := s.sent + [Error(who)])
            else
              var k := s.locks[r.index2];
              && u.sent == s.sent + [Success(who)]
              && u.conditions == s.conditions[r.index := c.(queue := [])]
              && u.locks == s.locks[r.index2 := k.(queue := k.queue + c.queue)]
  {
    if Check(s, r) == Here {
      MoveAllTables(s, r.index, r.index2);
    }
  }

  lemma {:induction false} MoveAllTables(s: Server, c: int, l: int)
    requires 0 <= l < |s.locks| && 0 <= c < |s.conditions|
    ensures var u, q := MoveAll(s, c, l), s.conditions[c].queue;
            && u.sent == s.sent
            && u.conditions == s.conditions[c := s.conditions[c].(queue := [])]
            && u.locks == s.locks[l := s.locks[l].(queue := s.locks[l].queue + q)]
    decreases |Queue(s, CondQueue(c))|
  {
    var q := s.conditions[c].queue;
    if q == [] {
      assert s.locks[l].queue + q == s.locks[l].queue;
    } else {
      var v := MoveOp(s, c, l);
      assert v.conditions[c].queue == q[1..] && v.locks[l].queue == s.locks[l].queue + [q[0]];
      MoveAllTables(v, c, l);
      assert s.locks[l].queue + [q[0]] + q[1..] == s.locks[l].queue + q;
    }
  }

  /** For instance: one client has lock 0, and another thread of its machine asks for it, or releases it. */
  lemma OtherThreadIsNoOwner()
    ensures var s, mine, other := FreshServer(), ThreadID(1, 1), ThreadID(1, 2);
            var a := AcquireOp(s, Request(0, 0, -1, mine, NO_OWNER));
            var r := Request(0, 0, -1, other, NO_OWNER);
            && a.locks[0].owner == mine
            && ReleaseOp(a, r) == a.(sent := a.sent + [Error(other)])
            && AcquireOp(a, r).locks[0].queue == [Some(other)] && AcquireOp(a, r).sent == a.sent
  {
  }
}

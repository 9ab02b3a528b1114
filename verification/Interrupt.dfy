/** The simulated clock and its interrupts (machine/interrupt.cc), kept on the sorted list of
    threads/list.cc. What handlers do is left open, except that they schedule interrupts for later and
    may ask for a context switch. */
module Interrupts {
  import opened Sequences
  import opened LinkedLists

  const SYSTEM_TICK := 10
  const USER_TICK := 1

  datatype IntStatus = IntOff | IntOn
  datatype MachineStatus = IdleMode | SystemMode | UserMode
  datatype IntType = TimerInt | DiskInt | ConsoleWriteInt | ConsoleReadInt | NetworkSendInt | NetworkRecvInt

  datatype PendingInterrupt = PendingInterrupt(handler: int, arg: int, when: int, kind: IntType)

  /** A call of Schedule. */
  datatype Scheduling = Scheduling(handler: int, arg: int, fromNow: int, kind: IntType)

  /** What a handler does as far as the clock is concerned. */
  datatype Effect = Effect(schedules: seq<Scheduling>, switches: bool)

  /** An interrupt that has been fired, and when. */
  datatype Fired = Fired(interrupt: PendingInterrupt, at: int)

  type Pending = seq<Entry<PendingInterrupt>>

  ghost predicate InFuture(e: Effect) {
    forall i :: 0 <= i < |e.schedules| ==> e.schedules[i].fromNow > 0
  }

  ghost predicate HandlersOk(effects: nat -> Effect) {
    forall n :: InFuture(effects(n))
  }

  function AsPending(s: Scheduling, now: int): PendingInterrupt {
    PendingInterrupt(s.handler, s.arg, now + s.fromNow, s.kind)
  }

  /** The interrupts that some calls of Schedule ask for. */
  ghost function Asked(ss: seq<Scheduling>, now: int): (r: seq<PendingInterrupt>)
    ensures |r| == |ss|
    ensures forall i :: 0 <= i < |ss| ==>
              && r[i].handler == ss[i].handler && r[i].arg == ss[i].arg
              && r[i].when == now + ss[i].fromNow && r[i].kind == ss[i].kind
  {
    seq(|ss|, i requires 0 <= i < |ss| => AsPending(ss[i], now))
  }

  /** Those that the handlers of the interrupts numbered from `from` until `until` ask for, all at one time. */
  ghost function AskedBy(effects: nat -> Effect, from: nat, until: nat, now: int): seq<PendingInterrupt>
    requires from <= until
  {
    if from == until then [] else AskedBy(effects, from, until - 1, now) + Asked(effects(until - 1).schedules, now)
  }

  /** One of these handlers asks for a context switch. */
  ghost predicate Switches(effects: nat -> Effect, from: nat, until: nat) {
    exists n: nat :: from <= n < until && effects(n).switches
  }

  /** The handlers numbered from `from` until `until` have run: what they ask for has been scheduled, and a context
      switch is wanted if one of them wants it, or it was before. */
  ghost predicate Handled(effects: nat -> Effect, from: nat, until: nat, now: int,
                          had: seq<PendingInterrupt>, has: seq<PendingInterrupt>,
                          wanted: bool, wants: bool)
  {
    && from <= until && has == had + AskedBy(effects, from, until, now)
    && (wants <==> wanted || Switches(effects, from, until))
  }

  lemma NoneHandled(effects: nat -> Effect, n: nat, now: int, had: seq<PendingInterrupt>, wanted: bool)
    ensures Handled(effects, n, n, now, had, had, wanted, wanted)
  {
  }

  lemma OneHandled(effects: nat -> Effect, from: nat, until: nat, now: int,
                   had: seq<PendingInterrupt>, has: seq<PendingInterrupt>, wanted: bool, wants: bool)
    requires Handled(effects, from, until, now, had, has, wanted, wants)
    ensures Handled(effects, from, until + 1, now, had, has + Asked(effects(until).schedules, now),
                    wanted, wants || effects(until).switches)
  {
    hide Asked;
  }

  lemma AskedOne(ss: seq<Scheduling>, i: nat, now: int)
    requires i < |ss|
    ensures Asked(ss[..i + 1], now) == Asked(ss[..i], now) + [AsPending(ss[i], now)]
  {
  }

  /** How many of the pending interrupts are due. */
  ghost function Due(s: Pending, now: int): nat {
    if s == [] then 0 else Due(s[..|s| - 1], now) + if s[|s| - 1].key <= now then 1 else 0
  }

  lemma {:induction false} DueConcat(a: Pending, b: Pending, now: int)
    ensures Due(a + b, now) == Due(a, now) + Due(b, now)
    decreases |b|
  {
    if b == [] {
      assert a + b == a;
    } else {
      assert (a + b)[..|a + b| - 1] == a + b[..|b| - 1];
      DueConcat(a, b[..|b| - 1], now);
    }
  }

  lemma DueInserted(s: Pending, e: Entry<PendingInterrupt>, now: int)
    ensures Due(Inserted(s, e), now) == Due(s, now) + if e.key <= now then 1 else 0
  {
    var k := FirstBigger(s, e.key, 0);
    assert s == s[..k] + s[k..];
    DueConcat(s[..k], s[k..], now);
    DueConcat(s[..k], [e], now);
    DueConcat(s[..k] + [e], s[k..], now);
    assert [e][..0] == [];
  }

  lemma DueFirst(s: Pending, now: int)
    requires s != []
    ensures Due(s, now) == Due(s[1..], now) + if s[0].key <= now then 1 else 0
  {
    assert s == [s[0]] + s[1..];
    DueConcat([s[0]], s[1..], now);
    assert [s[0]][..0] == [];
  }

  /** Every entry is filed under the time of its interrupt. */
  ghost predicate Filed(s: Pending) {
    forall i :: 0 <= i < |s| ==> s[i].key == s[i].item.when
  }

  ghost predicate AllAfter(s: Pending, now: int) {
    forall i :: 0 <= i < |s| ==> now < s[i].key
  }

  ghost function Items(s: Pending): (m: multiset<PendingInterrupt>) {
    if s == [] then multiset{} else Items(s[..|s| - 1]) + multiset{s[|s| - 1].item}
  }

  lemma {:induction false} ItemsConcat(a: Pending, b: Pending)
    ensures Items(a + b) == Items(a) + Items(b)
    decreases |b|
  {
    if b == [] {
      assert a + b == a;
    } else {
      assert (a + b)[..|a + b| - 1] == a + b[..|b| - 1];
      ItemsConcat(a, b[..|b| - 1]);
    }
  }

  lemma ItemsInserted(s: Pending, e: Entry<PendingInterrupt>)
    ensures Items(Inserted(s, e)) == Items(s) + multiset{e.item}
  {
    var k := FirstBigger(s, e.key, 0);
    assert s == s[..k] + s[k..];
    ItemsConcat(s[..k], s[k..]);
    ItemsConcat(s[..k], [e]);
    ItemsConcat(s[..k] + [e], s[k..]);
    assert [e][..0] == [];
  }

  lemma ItemsFirst(s: Pending)
    requires s != []
    ensures Items(s) == multiset{s[0].item} + Items(s[1..])
    ensures Sorted(s) ==> Sorted(s[1..])
    ensures Filed(s) ==> Filed(s[1..])
  {
    assert s == [s[0]] + s[1..];
    ItemsConcat([s[0]], s[1..]);
    assert [s[0]][..0] == [];
  }

  ghost function FiredItems(f: seq<Fired>): multiset<PendingInterrupt> {
    if f == [] then multiset{} else FiredItems(f[..|f| - 1]) + multiset{f[|f| - 1].interrupt}
  }

  lemma FiledInserted(s: Pending, e: Entry<PendingInterrupt>)
    requires Filed(s) && e.key == e.item.when
    ensures Filed(Inserted(s, e))
  {
  }

  /** The clock and the interrupts, those scheduled ever and those fired so far. */
  datatype Clock = Clock(
    pending: Pending, total: int, idle: int, system: int, user: int,
    scheduled: seq<PendingInterrupt>, fired: seq<Fired>)

  /** Time adds up, no interrupt has been fired before its time, and every interrupt ever scheduled is
      pending, or has been fired once, or is the one `inHand`. */
  ghost predicate ClockOk(c: Clock, inHand: multiset<PendingInterrupt>) {
    && Sorted(c.pending) && Filed(c.pending)
    && c.total == c.idle + c.system + c.user
    && OnTime(c.fired, c.total)
    && multiset(c.scheduled) == Items(c.pending) + inHand + FiredItems(c.fired)
  }

  ghost predicate OnTime(f: seq<Fired>, now: int) {
    forall i :: 0 <= i < |f| ==> f[i].interrupt.when <= f[i].at <= now
  }

  lemma FreshOk(c: Clock)
    requires c == Clock([], 0, 0, 0, 0, [], [])
    ensures ClockOk(c, multiset{})
  {
  }

  /** Filing the interrupt in hand. */
  lemma FileOk(c: Clock, p: PendingInterrupt)
    requires ClockOk(c, multiset{p})
    ensures ClockOk(c.(pending := Inserted(c.pending, Entry(p.when, p))), multiset{})
  {
    InsertedSorted(c.pending, Entry(p.when, p));
    FiledInserted(c.pending, Entry(p.when, p));
    ItemsInserted(c.pending, Entry(p.when, p));
  }

  lemma NewOk(c: Clock, p: PendingInterrupt)
    requires ClockOk(c, multiset{})
    ensures ClockOk(c.(scheduled := c.scheduled + [p]), multiset{p})
  {
  }

  /** Taking the first pending interrupt. */
  lemma TakeOk(c: Clock)
    requires ClockOk(c, multiset{}) && c.pending != []
    ensures c.pending[0].item.when == c.pending[0].key
    ensures ClockOk(c.(pending := c.pending[1..]), multiset{c.pending[0].item})
  {
    ItemsFirst(c.pending);
  }

  /** Firing the interrupt in hand, when its time has come. */
  lemma FireOk(c: Clock, p: PendingInterrupt)
    requires ClockOk(c, multiset{p}) && p.when <= c.total
    ensures ClockOk(c.(fired := c.fired + [Fired(p, c.total)]), multiset{})
  {
  }

  lemma AdvanceOk(c: Clock, d: Clock, inHand: multiset<PendingInterrupt>)
    requires ClockOk(c, inHand) && d == c.(total := d.total, idle := d.idle, system := d.system, user := d.user)
    requires d.total == d.idle + d.system + d.user && c.total <= d.total
    ensures ClockOk(d, inHand)
  {
  }

  lemma {:induction false} NoneDue(s: Pending, now: int)
    ensures Due(s, now) == 0 <==> AllAfter(s, now)
    decreases |s|
  {
    if s != [] {
      NoneDue(s[..|s| - 1], now);
      assert forall i :: 0 <= i < |s| - 1 ==> s[i] == s[..|s| - 1][i];
    }
  }

  /** If the first of a sorted list is not due, none is. */
  lemma FirstNotDue(s: Pending, now: int)
    requires Sorted(s) && (s == [] || now < s[0].key)
    ensures Due(s, now) == 0
  {
  }

  lemma {:induction false} OneMore(effects: nat -> Effect, n: nat, until: nat, now: int)
    requires n < until
    ensures AskedBy(effects, n, until, now) == Asked(effects(n).schedules, now) + AskedBy(effects, n + 1, until, now)
    decreases until
  {
    hide Asked;
    if n + 1 < until {
      OneMore(effects, n, until - 1, now);
    }
  }

  /** From `before` to `after`, interrupts have been fired at the present time only. */
  ghost predicate AtOnce(before: seq<Fired>, after: seq<Fired>, now: int) {
    before <= after && forall i :: |before| <= i < |after| ==> after[i].at == now
  }

  lemma FiredFirst(before: seq<Fired>, x: PendingInterrupt, after: seq<Fired>, now: int)
    requires AtOnce(before + [Fired(x, now)], after, now)
    ensures AtOnce(before, after, now) && |after| > |before| && after[|before|].interrupt == x
  {
    assert after[|before|] == (before + [Fired(x, now)])[|before|];
  }

  lemma Later(effects: nat -> Effect, n: nat)
    requires HandlersOk(effects)
    ensures forall i :: 0 <= i < |effects(n).schedules| ==> effects(n).schedules[i].fromNow > 0
  {
    assert InFuture(effects(n));
  }

  class Interrupt {
    var level: IntStatus
    const pending: List<PendingInterrupt>
    var inHandler: bool
    var yieldOnReturn: bool
    var status: MachineStatus
    var totalTicks: int
    var idleTicks: int
    var systemTicks: int
    var userTicks: int
    /** What the handler of the n-th interrupt to be fired does. */
    const effects: nat -> Effect
    var count: nat
    ghost var scheduled: seq<PendingInterrupt>
    ghost var fired: seq<Fired>

    ghost function Now(): Clock
      reads this, pending
    {
      Clock(pending.Contents(), totalTicks, idleTicks, systemTicks, userTicks, scheduled, fired)
    }

    ghost predicate Valid()
      reads this, pending, pending.Elements()
    {
      pending.Valid() && ClockOk(Now(), multiset{}) && HandlersOk(effects)
    }

    constructor (effects: nat -> Effect)
      requires HandlersOk(effects)
      ensures Valid() && level == IntOff && status == SystemMode && !inHandler && totalTicks == 0
      ensures pending.Contents() == [] && fired == [] && this.effects == effects
      ensures fresh(pending) && fresh(pending.Elements())
    {
      hide ClockOk;
      level, inHandler, yieldOnReturn, status := IntOff, false, false, SystemMode;
      totalTicks, idleTicks, systemTicks, userTicks := 0, 0, 0, 0;
      this.effects := effects;
      count, scheduled, fired := 0, [], [];
      pending := new List<PendingInterrupt>();
      new;
      FreshOk(Now());
    }

    /** Files an interrupt behind all others for the same time. */
    method Schedule(handler: int, arg: int, fromNow: int, kind: IntType)
      requires Valid() && fromNow > 0
      modifies this`scheduled, pending, pending.Elements()
      ensures Valid() && fresh(pending.Elements() - old(pending.Elements()))
      ensures var p := PendingInterrupt(handler, arg, totalTicks + fromNow, kind);
              && pending.Contents() == Inserted(old(pending.Contents()), Entry(p.when, p))
              && scheduled == old(scheduled) + [p]
    {
      hide ClockOk, HandlersOk, Inserted, Entries;
      var when := totalTicks + fromNow;
      var toOccur := PendingInterrupt(handler, arg, when, kind);
      NewOk(Now(), toOccur);
      FileOk(Now().(scheduled := scheduled + [toOccur]), toOccur);
      pending.SortedInsert(toOccur, when);
      scheduled := scheduled + [toOccur];
    }

    /** An interrupt scheduled for later is not due. */
    method ScheduleLater(s: Scheduling)
      requires Valid() && s.fromNow > 0
      modifies this`scheduled, pending, pending.Elements()
      ensures Valid() && fresh(pending.Elements() - old(pending.Elements()))
      ensures Due(pending.Contents(), totalTicks) == old(Due(pending.Contents(), totalTicks))
      ensures scheduled == old(scheduled) + [AsPending(s, totalTicks)]
    {
      hide ClockOk, HandlersOk, Due, Inserted, Entries;
      var when := totalTicks + s.fromNow;
      DueInserted(pending.Contents(), Entry(when, PendingInterrupt(s.handler, s.arg, when, s.kind)), totalTicks);
      Schedule(s.handler, s.arg, s.fromNow, s.kind);
    }

    method ScheduleAll(ss: seq<Scheduling>)
      requires Valid() && forall i :: 0 <= i < |ss| ==> ss[i].fromNow > 0
      modifies this`scheduled, pending, pending.Elements()
      ensures Valid() && fresh(pending.Elements() - old(pending.Elements()))
      ensures Due(pending.Contents(), totalTicks) == old(Due(pending.Contents(), totalTicks))
      ensures scheduled == old(scheduled) + Asked(ss, totalTicks)
    {
      hide ClockOk, HandlersOk, Due, Entries;
      for i := 0 to |ss|
        invariant Valid() && fresh(pending.Elements() - old(pending.Elements()))
        invariant Due(pending.Contents(), totalTicks) == old(Due(pending.Contents(), totalTicks))
        invariant scheduled == old(scheduled) + Asked(ss[..i], totalTicks)
      {
        AskedOne(ss, i, totalTicks);
        ScheduleLater(ss[i]);
      }
      assert ss[..|ss|] == ss;
    }

    /** What the handler of the interrupt just fired does: nothing that it schedules is due. */
    method RunHandler()
      requires Valid()
      modifies this`scheduled, this`count, this`yieldOnReturn, pending, pending.Elements()
      ensures Valid() && fresh(pending.Elements() - old(pending.Elements()))
      ensures Due(pending.Contents(), totalTicks) == old(Due(pending.Contents(), totalTicks))
      ensures scheduled == old(scheduled) + Asked(effects(old(count)).schedules, totalTicks)
      ensures yieldOnReturn <==> old(yieldOnReturn) || effects(old(count)).switches
      ensures count == old(count) + 1
    {
      hide ClockOk, HandlersOk, Due, Entries, Asked;
      var e := effects(count);
      Later(effects, count);
      ScheduleAll(e.schedules);
      if e.switches {
        yieldOnReturn := true;
      }
      count := count + 1;
    }

    /** Calls the handler of an interrupt whose time has come. */
    method Fire(toOccur: PendingInterrupt)
      requires pending.Valid() && ClockOk(Now(), multiset{toOccur}) && HandlersOk(effects) && toOccur.when <= totalTicks
      modifies this`scheduled, this`fired, this`count, this`yieldOnReturn, this`inHandler, this`status,
               pending, pending.Elements()
      ensures Valid() && fresh(pending.Elements() - old(pending.Elements()))
      ensures fired == old(fired) + [Fired(toOccur, totalTicks)] && status == old(status) && !inHandler
      ensures Due(pending.Contents(), totalTicks) == old(Due(pending.Contents(), totalTicks))
      ensures scheduled == old(scheduled) + Asked(effects(old(count)).schedules, totalTicks)
      ensures yieldOnReturn <==> old(yieldOnReturn) || effects(old(count)).switches
      ensures count == old(count) + 1
    {
      hide ClockOk, HandlersOk, Due, Entries, Asked;
      var before := status;
      inHandler := true;
      status := SystemMode;
      FireOk(Now(), toOccur);
      fired := fired + [Fired(toOccur, totalTicks)];
      RunHandler();
      status := before;
      inHandler := false;
    }

    /** Nothing more to do: the time-slice timer is all there is. */
    ghost predicate OnlyTimer()
      reads this, pending
    {
      |pending.Contents()| == 1 && pending.Contents()[0].item.kind == TimerInt
    }

    /** Whether CheckIfDue fires an interrupt. */
    ghost predicate Fires(advanceClock: bool)
      reads this, pending
    {
      && pending.Contents() != []
      && (advanceClock || pending.Contents()[0].key <= totalTicks)
      && !(status == IdleMode && OnlyTimer())
    }

    /** The time after it. */
    ghost function TimeAfter(advanceClock: bool): int
      reads this, pending
    {
      if advanceClock && pending.Contents() != [] && pending.Contents()[0].key > totalTicks
      then pending.Contents()[0].key
      else totalTicks
    }

    method PutBack(toOccur: PendingInterrupt)
      requires pending.Valid() && ClockOk(Now(), multiset{toOccur}) && HandlersOk(effects)
      modifies pending, pending.Elements()
      ensures Valid() && fresh(pending.Elements() - old(pending.Elements()))
      ensures pending.Contents() == Inserted(old(pending.Contents()), Entry(toOccur.when, toOccur))
    {
      hide ClockOk, HandlersOk, Inserted, Entries;
      FileOk(Now(), toOccur);
      pending.SortedInsert(toOccur, toOccur.when);
    }

    method TakeFirst() returns (first: Option<Entry<PendingInterrupt>>)
      requires Valid()
      modifies pending
      ensures pending.Valid() && pending.Elements() <= old(pending.Elements())
      ensures first == if old(pending.Contents()) == [] then None else Some(old(pending.Contents())[0])
      ensures pending.Contents() == if first == None then [] else old(pending.Contents())[1..]
      ensures first == None ==> Valid()
      ensures first != None ==> first.value.item.when == first.value.key && ClockOk(Now(), multiset{first.value.item})
    {
      hide ClockOk, HandlersOk, Entries;
      if Now().pending != [] {
        TakeOk(Now());
      }
      first := pending.SortedRemove();
    }

    /** With nothing to run, the time until the next interrupt is idle time. */
    method AdvanceClock(when: int, ghost inHand: PendingInterrupt)
      requires ClockOk(Now(), multiset{inHand})
      modifies this`idleTicks, this`totalTicks
      ensures ClockOk(Now(), multiset{inHand})
      ensures totalTicks == if when > old(totalTicks) then when else old(totalTicks)
      ensures idleTicks - old(idleTicks) == totalTicks - old(totalTicks)
    {
      if when > totalTicks {
        idleTicks := idleTicks + (when - totalTicks);
        totalTicks := when;
      }
    }

    /** The second half of CheckIfDue: what becomes of the interrupt taken from the list. */
    method FireOrPutBack(toOccur: PendingInterrupt, advanceClock: bool) returns (b: bool)
      requires pending.Valid() && ClockOk(Now(), multiset{toOccur}) && HandlersOk(effects) && level == IntOff
      requires !inHandler
      modifies this, pending, pending.Elements()
      ensures Valid() && fresh(pending.Elements() - old(pending.Elements()))
      ensures level == IntOff && status == old(status) && !inHandler
      ensures b <==> (advanceClock || toOccur.when <= old(totalTicks))
                     && !(status == IdleMode && toOccur.kind == TimerInt && old(pending.Contents()) == [])
      ensures totalTicks == if advanceClock && toOccur.when > old(totalTicks) then toOccur.when else old(totalTicks)
      ensures idleTicks - old(idleTicks) == totalTicks - old(totalTicks)
      ensures systemTicks == old(systemTicks) && userTicks == old(userTicks)
      ensures fired == if b then old(fired) + [Fired(toOccur, totalTicks)] else old(fired)
      ensures !b ==> scheduled == old(scheduled) && yieldOnReturn == old(yieldOnReturn) && count == old(count)
      ensures b ==> && scheduled == old(scheduled) + Asked(effects(old(count)).schedules, totalTicks)
                    && (yieldOnReturn <==> old(yieldOnReturn) || effects(old(count)).switches)
                    && count == old(count) + 1
      ensures !b ==> pending.Contents() == Inserted(old(pending.Contents()), Entry(toOccur.when, toOccur))
      ensures b ==> && toOccur.when <= totalTicks
                    && Due(pending.Contents(), totalTicks) == Due(old(pending.Contents()), totalTicks)
    {
      hide ClockOk, HandlersOk, Due, Inserted, Entries, Asked;
      if advanceClock {
        AdvanceClock(toOccur.when, toOccur);
      } else if toOccur.when > totalTicks {
        PutBack(toOccur);
        return false;
      }
      var empty := pending.IsEmpty();
      if status == IdleMode && toOccur.kind == TimerInt && empty {
        PutBack(toOccur);
        return false;
      }
      Fire(toOccur);
      return true;
    }

    /** Fires the first pending interrupt if it is due, or advances the clock to it if there is nothing
        else to do. If it does neither, the pending interrupts stay what they are. */
    method CheckIfDue(advanceClock: bool) returns (b: bool)
      requires Valid() && level == IntOff && !inHandler
      modifies this, pending, pending.Elements()
      ensures Valid() && fresh(pending.Elements() - old(pending.Elements()))
      ensures level == IntOff && status == old(status) && !inHandler
      ensures b <==> old(Fires(advanceClock))
      ensures totalTicks == old(TimeAfter(advanceClock)) && systemTicks == old(systemTicks)
      ensures userTicks == old(userTicks)
      ensures idleTicks - old(idleTicks) == totalTicks - old(totalTicks)
      ensures fired == if b then old(fired) + [Fired(old(pending.Contents())[0].item, totalTicks)] else old(fired)
      ensures !b ==> scheduled == old(scheduled) && yieldOnReturn == old(yieldOnReturn) && count == old(count)
      ensures b ==> && scheduled == old(scheduled) + Asked(effects(old(count)).schedules, totalTicks)
                    && (yieldOnReturn <==> old(yieldOnReturn) || effects(old(count)).switches)
                    && count == old(count) + 1
      ensures !b ==> pending.Contents() == if old(pending.Contents()) == [] then []
                                           else Inserted(old(pending.Contents())[1..], old(pending.Contents())[0])
      ensures Due(pending.Contents(), totalTicks) + (if b then 1 else 0) == Due(old(pending.Contents()), totalTicks)
    {
      hide ClockOk, HandlersOk, Due, Inserted, Entries, Asked;
      ghost var s := pending.Contents();
      if s != [] {
        DueFirst(s, TimeAfter(advanceClock));
        DueInserted(s[1..], s[0], TimeAfter(advanceClock));
      }
      var first := TakeFirst();
      if first == None {
        return false;
      }
      b := FireOrPutBack(first.value.item, advanceClock);
    }

    /** What is left when nothing more is fired: nothing is due, or only the timer is there to idle for. */
    lemma NothingFires()
      requires Valid() && !Fires(false)
      ensures Due(pending.Contents(), totalTicks) == 0 || (status == IdleMode && OnlyTimer())
    {
      if !(status == IdleMode && OnlyTimer()) {
        FirstNotDue(pending.Contents(), totalTicks);
      }
    }

    /** Putting back the only interrupt there is. */
    lemma SameTimer(s: Pending, t: Pending)
      requires |s| == 1 && t == Inserted(s[1..], s[0])
      ensures t == s
    {
    }

    /** The loop that fires whatever is due. It ends because handlers schedule nothing that is due. */
    method FireDue()
      requires Valid() && level == IntOff && !inHandler
      modifies this, pending, pending.Elements()
      ensures Valid() && fresh(pending.Elements() - old(pending.Elements()))
      ensures level == IntOff && status == old(status) && !inHandler
      ensures totalTicks == old(totalTicks) && idleTicks == old(idleTicks) && systemTicks == old(systemTicks)
      ensures userTicks == old(userTicks)
      ensures AtOnce(old(fired), fired, totalTicks) && count - old(count) == |fired| - |old(fired)|
      ensures Handled(effects, old(count), count, totalTicks, old(scheduled), scheduled,
                      old(yieldOnReturn), yieldOnReturn)
      ensures Due(pending.Contents(), totalTicks) == 0 || (status == IdleMode && OnlyTimer())
    {
      hide ClockOk, HandlersOk, Due, Inserted, Sorted, Entries, Asked, Handled;
      NoneHandled(effects, count, totalTicks, scheduled, yieldOnReturn);
      var more := true;
      while more
        invariant Valid() && fresh(pending.Elements() - old(pending.Elements()))
        invariant level == IntOff && status == old(status) && !inHandler && AtOnce(old(fired), fired, totalTicks)
        invariant totalTicks == old(totalTicks) && idleTicks == old(idleTicks) && systemTicks == old(systemTicks)
        invariant userTicks == old(userTicks)
        invariant count - old(count) == |fired| - |old(fired)|
        invariant Handled(effects, old(count), count, totalTicks, old(scheduled), scheduled,
                          old(yieldOnReturn), yieldOnReturn)
        invariant !more ==> Due(pending.Contents(), totalTicks) == 0 || (status == IdleMode && OnlyTimer())
        decreases Due(pending.Contents(), totalTicks), more
      {
        ghost var before, n, had, wanted := pending.Contents(), count, scheduled, yieldOnReturn;
        OneHandled(effects, old(count), n, totalTicks, old(scheduled), had, old(yieldOnReturn), wanted);
        if !Fires(false) {
          NothingFires();
        }
        more := CheckIfDue(false);
        if !more && |before| == 1 {
          SameTimer(before, pending.Contents());
        }
      }
    }

    method CountTick()
      requires Valid() && status != IdleMode
      modifies this`totalTicks, this`systemTicks, this`userTicks
      ensures Valid()
      ensures totalTicks == old(totalTicks) + if status == SystemMode then SYSTEM_TICK else USER_TICK
      ensures systemTicks == old(systemTicks) + if status == SystemMode then SYSTEM_TICK else 0
      ensures userTicks == old(userTicks) + if status == SystemMode then 0 else USER_TICK
    {
      hide ClockOk, HandlersOk, Due, Entries;
      ghost var c := Now();
      if status == SystemMode {
        totalTicks := totalTicks + SYSTEM_TICK;
        systemTicks := systemTicks + SYSTEM_TICK;
      } else {
        totalTicks := totalTicks + USER_TICK;
        userTicks := userTicks + USER_TICK;
      }
      TimeAddsUp(c);
      AdvanceOk(c, Now(), multiset{});
    }

    /** Advances the time by the cost of one instruction or of turning interrupts on, and fires what is due
        by then: afterwards all pending interrupts lie in the future. The caller yields if a handler has
        asked for it. */
    method OneTick() returns (yieldNow: bool)
      requires Valid() && level == IntOn && !inHandler && status != IdleMode
      modifies this, pending, pending.Elements()
      ensures Valid() && fresh(pending.Elements() - old(pending.Elements()))
      ensures level == IntOn && status == old(status) && !inHandler && !yieldOnReturn
      ensures totalTicks == old(totalTicks) + if status == SystemMode then SYSTEM_TICK else USER_TICK
      ensures systemTicks == old(systemTicks) + if status == SystemMode then SYSTEM_TICK else 0
      ensures userTicks == old(userTicks) + if status == SystemMode then 0 else USER_TICK
      ensures idleTicks == old(idleTicks)
      ensures AtOnce(old(fired), fired, totalTicks) && count - old(count) == |fired| - |old(fired)|
      ensures Handled(effects, old(count), count, totalTicks, old(scheduled), scheduled, old(yieldOnReturn), yieldNow)
      ensures AllAfter(pending.Contents(), totalTicks)
    {
      hide ClockOk, HandlersOk, Due, Entries, Handled;
      CountTick();
      level := IntOff;
      FireDue();
      NoneDue(pending.Contents(), totalTicks);
      level := IntOn;
      yieldNow := yieldOnReturn;
      if yieldOnReturn {
        yieldOnReturn := false;
      }
    }

    lemma TimeAddsUp(c: Clock)
      requires ClockOk(c, multiset{})
      ensures c.total == c.idle + c.system + c.user
    {
    }

    /** Turning interrupts on lets time pass. Handlers must not do it. */
    method SetLevel(now: IntStatus) returns (before: IntStatus, yieldNow: bool)
      requires Valid() && !inHandler && status != IdleMode
      modifies this, pending, pending.Elements()
      ensures Valid() && fresh(pending.Elements() - old(pending.Elements()))
      ensures level == now && before == old(level) && status == old(status) && !inHandler
      ensures if now == IntOn && before == IntOff
              then
                && AllAfter(pending.Contents(), totalTicks) && AtOnce(old(fired), fired, totalTicks)
                && totalTicks == old(totalTicks) + (if status == SystemMode then SYSTEM_TICK else USER_TICK)
                && count - old(count) == |fired| - |old(fired)|
                && Handled(effects, old(count), count, totalTicks, old(scheduled), scheduled,
                           old(yieldOnReturn), yieldNow)
              else Now() == old(Now()) && !yieldNow
    {
      hide ClockOk, HandlersOk, Entries, Handled;
      before, yieldNow := level, false;
      level := now;
      if now == IntOn && before == IntOff {
        yieldNow := OneTick();
      }
    }

    /** The second part of Idle: fires what else is due. */
    method FireRest()
      requires Valid() && level == IntOff && !inHandler && status == IdleMode
      modifies this, pending, pending.Elements()
      ensures Valid() && fresh(pending.Elements() - old(pending.Elements()))
      ensures level == IntOff && !inHandler && !yieldOnReturn && status == SystemMode
      ensures totalTicks == old(totalTicks) && idleTicks == old(idleTicks)
      ensures systemTicks == old(systemTicks) && userTicks == old(userTicks)
      ensures AtOnce(old(fired), fired, totalTicks) && count - old(count) == |fired| - |old(fired)| >= 0
      ensures scheduled == old(scheduled) + AskedBy(effects, old(count), count, totalTicks)
      ensures AllAfter(pending.Contents(), totalTicks) || OnlyTimer()
    {
      hide ClockOk, HandlersOk, Due, Entries, AskedBy;
      FireDue();
      NoneDue(pending.Contents(), totalTicks);
      yieldOnReturn := false;
      status := SystemMode;
    }

    /** With no thread to run, time goes on to the next interrupt. The machine halts exactly if there is
        none, or only the timer. */
    method Idle() returns (halted: bool)
      requires Valid() && level == IntOff && !inHandler
      modifies this, pending, pending.Elements()
      ensures Valid() && fresh(pending.Elements() - old(pending.Elements()))
      ensures halted <==> old(pending.Contents()) == [] || old(OnlyTimer())
      ensures !halted ==> && totalTicks == old(TimeAfter(true)) && status == SystemMode && level == IntOff
                          && !inHandler && !yieldOnReturn
      ensures !halted ==> && |fired| > |old(fired)| && AtOnce(old(fired), fired, totalTicks)
                          && fired[|old(fired)|].interrupt == old(pending.Contents())[0].item
      ensures !halted ==> AllAfter(pending.Contents(), totalTicks) || OnlyTimer()
      ensures idleTicks - old(idleTicks) == totalTicks - old(totalTicks)
      ensures systemTicks == old(systemTicks) && userTicks == old(userTicks)
      ensures !halted ==> && count == old(count) + |fired| - |old(fired)| > old(count)
                          && scheduled == old(scheduled) + AskedBy(effects, old(count), count, totalTicks)
    {
      hide ClockOk, HandlersOk, Due, Inserted, Entries, Asked, AskedBy, Apart, AtOnce, InsertedAt, FirstBigger, Items;
      ghost var before := pending.Contents();
      status := IdleMode;
      var any := CheckIfDue(true);
      if any {
        ghost var n := count;
        FireRest();
        OneMore(effects, n - 1, count, totalTicks);
        FiredFirst(old(fired), before[0].item, fired, totalTicks);
        return false;
      }
      return true;
    }
  }
}

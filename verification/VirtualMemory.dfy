/** What demand paging means (userprog/exception.cc, threads/system.cc, userprog/addrspace.cc): a TLB
    over an inverted page table over main memory, the swap file and the executable, seen as one flat
    memory of pages. One address space. */
module VirtualMemory {
  import opened Bytes
  import opened BitMaps

  const PAGE_SIZE := 128
  const NUM_PHYS_PAGES := 32
  const TLB_SIZE := 4
  const NUM_SWAP_PAGES := 10000
  const MAX_PAGES := 1000
  const CODE_OFFSET := 40

  datatype TlbEntry = TlbEntry(virtualPage: int, physicalPage: int, valid: bool, readOnly: bool, dirty: bool)

  datatype IptEntry = IptEntry(virtualPage: int, physicalPage: int, processID: int, valid: bool, readOnly: bool,
                               dirty: bool)

  /** The address space: its executable, which backs all its pages, and its number. */
  datatype Space = Space(executable: seq<byte>, numPages: nat, processID: int)

  /** Where a page is when it is not in memory. */
  datatype Backing = Backing(swap: seq<byte>, used: set<int>, location: seq<int>, slot: seq<int>)

  datatype Vm = Vm(tlb: seq<TlbEntry>, table: seq<IptEntry>, memory: seq<byte>, backing: Backing)

  ghost predicate IsSpace(s: Space) {
    s.numPages <= MAX_PAGES && CODE_OFFSET + PAGE_SIZE * s.numPages <= |s.executable|
  }

  // ----- searching -----

  predicate Holds(e: IptEntry, v: int, pid: int) {
    e.virtualPage == v && e.processID == pid && e.valid
  }

  /** The first entry from `i` on that holds page `v`, or -1. */
  function FrameOf(table: seq<IptEntry>, v: int, pid: int, i: nat): (r: int)
    requires i <= |table|
    ensures r == -1 ==> forall j :: i <= j < |table| ==> !Holds(table[j], v, pid)
    ensures r != -1 ==> i <= r < |table| && Holds(table[r], v, pid)
    ensures forall j :: i <= j < r ==> !Holds(table[j], v, pid)
    decreases |table| - i
  {
    if i == |table| then -1 else if Holds(table[i], v, pid) then i else FrameOf(table, v, pid, i + 1)
  }

  function EmptyFrame(table: seq<IptEntry>, i: nat): (r: int)
    requires i <= |table|
    ensures r == -1 ==> forall j :: i <= j < |table| ==> table[j].valid
    ensures r != -1 ==> i <= r < |table| && !table[r].valid
    ensures forall j :: i <= j < r ==> table[j].valid
    decreases |table| - i
  {
    if i == |table| then -1 else if !table[i].valid then i else EmptyFrame(table, i + 1)
  }

  predicate Maps(e: TlbEntry, v: int) {
    e.virtualPage == v && e.valid
  }

  /** The first TLB entry from `i` on that maps page `v`, or -1. */
  function TlbIndex(tlb: seq<TlbEntry>, v: int, i: nat): (r: int)
    requires i <= |tlb|
    ensures r == -1 ==> forall j :: i <= j < |tlb| ==> !Maps(tlb[j], v)
    ensures r != -1 ==> i <= r < |tlb| && Maps(tlb[r], v)
    ensures forall j :: i <= j < r ==> !Maps(tlb[j], v)
    decreases |tlb| - i
  {
    if i == |tlb| then -1 else if Maps(tlb[i], v) then i else TlbIndex(tlb, v, i + 1)
  }

  ghost predicate InTlb(tlb: seq<TlbEntry>, addr: int) {
    TlbIndex(tlb, addr / PAGE_SIZE, 0) != -1
  }

  // ----- pages -----

  ghost function PageAt(memory: seq<byte>, at: int): (p: seq<byte>)
    requires 0 <= at && at + PAGE_SIZE <= |memory|
    ensures |p| == PAGE_SIZE
  {
    memory[at..at + PAGE_SIZE]
  }

  lemma PageAtSplice(memory: seq<byte>, f: nat, offset: nat, t: seq<byte>, g: nat)
    requires offset + |t| <= PAGE_SIZE && (f + 1) * PAGE_SIZE <= |memory| && (g + 1) * PAGE_SIZE <= |memory|
    ensures PageAt(Splice(memory, f * PAGE_SIZE + offset, t), g * PAGE_SIZE)
         == if g == f then Splice(PageAt(memory, f * PAGE_SIZE), offset, t) else PageAt(memory, g * PAGE_SIZE)
  {
    assert g < f ==> (g + 1) * PAGE_SIZE <= f * PAGE_SIZE;
    assert f < g ==> (f + 1) * PAGE_SIZE <= g * PAGE_SIZE;
  }

  /** Swapped pages have their own slots in the swap file. */
  ghost predicate BackingOk(b: Backing) {
    && |b.swap| == PAGE_SIZE * NUM_SWAP_PAGES && |b.location| == |b.slot| == MAX_PAGES
    && b.used <= Range(NUM_SWAP_PAGES)
    && (forall v :: 0 <= v < MAX_PAGES ==> b.location[v] == 0 || b.location[v] == 1)
    && (forall v :: 0 <= v < MAX_PAGES && b.location[v] == 1 ==>
         b.slot[v] % PAGE_SIZE == 0 && b.slot[v] / PAGE_SIZE in b.used)
    && (forall v, w :: 0 <= v < w < MAX_PAGES && b.location[v] == 1 && b.location[w] == 1 ==> b.slot[v] != b.slot[w])
  }

  /** A page of the address space as the executable or the swap file has it. */
  ghost function Stored(s: Space, b: Backing, v: int): (p: seq<byte>)
    requires IsSpace(s) && BackingOk(b) && 0 <= v < s.numPages
    ensures |p| == PAGE_SIZE
  {
    if b.location[v] == 0 then PageAt(s.executable, CODE_OFFSET + v * PAGE_SIZE)
    else assert InRange(b.slot[v] / PAGE_SIZE, NUM_SWAP_PAGES); PageAt(b.swap, b.slot[v])
  }

  /** Every valid entry describes its own frame, and no two entries hold the same page. */
  ghost predicate TableOk(s: Space, table: seq<IptEntry>) {
    && |table| == NUM_PHYS_PAGES
    && forall f :: 0 <= f < |table| && table[f].valid ==>
         && 0 <= table[f].virtualPage < s.numPages
         && table[f].processID == s.processID && table[f].physicalPage == f && !table[f].readOnly
         && FrameOf(table, table[f].virtualPage, s.processID, 0) == f
  }

  /** Every valid TLB entry agrees with the table, and is dirty if the table says so. */
  ghost predicate TlbOk(tlb: seq<TlbEntry>, table: seq<IptEntry>) {
    && |tlb| == TLB_SIZE
    && forall i :: 0 <= i < |tlb| && tlb[i].valid ==>
         && 0 <= tlb[i].physicalPage < |table| && !tlb[i].readOnly
         && table[tlb[i].physicalPage].valid
         && table[tlb[i].physicalPage].virtualPage == tlb[i].virtualPage
         && (table[tlb[i].physicalPage].dirty ==> tlb[i].dirty)
         && TlbIndex(tlb, tlb[i].virtualPage, 0) == i
  }

  /** A page counts as dirty if its TLB entry says so or, if it has none, its table entry does. */
  ghost predicate IsDirty(tlb: seq<TlbEntry>, e: IptEntry) {
    var i := TlbIndex(tlb, e.virtualPage, 0);
    if i == -1 then e.dirty else tlb[i].dirty
  }

  /** The bit that counts is that of the TLB entry that maps the page, or else the table's own. */
  lemma DirtyMeans(tlb: seq<TlbEntry>, table: seq<IptEntry>, f: nat)
    requires TlbOk(tlb, table) && f < |table|
    ensures IsDirty(tlb, table[f]) <==>
              || (exists i :: 0 <= i < |tlb| && tlb[i].valid && tlb[i].virtualPage == table[f].virtualPage
                    && tlb[i].dirty)
              || (table[f].dirty &&
                  forall i :: 0 <= i < |tlb| && tlb[i].valid ==> tlb[i].virtualPage != table[f].virtualPage)
  {
    var v := table[f].virtualPage;
    assert forall i :: 0 <= i < |tlb| && Maps(tlb[i], v) ==> i == TlbIndex(tlb, v, 0);
    assert forall i :: 0 <= i < |tlb| ==> (Maps(tlb[i], v) <==> tlb[i].valid && tlb[i].virtualPage == v);
  }

  /** A clean frame equals its backing page. */
  ghost predicate CleanOk(s: Space, vm: Vm)
    requires IsSpace(s) && TableOk(s, vm.table) && BackingOk(vm.backing) && |vm.memory| == PAGE_SIZE * NUM_PHYS_PAGES
  {
    forall f :: 0 <= f < |vm.table| && vm.table[f].valid && !IsDirty(vm.tlb, vm.table[f]) ==>
      PageAt(vm.memory, f * PAGE_SIZE) == Stored(s, vm.backing, vm.table[f].virtualPage)
  }

  ghost predicate Ok(s: Space, vm: Vm) {
    && IsSpace(s) && TableOk(s, vm.table) && TlbOk(vm.tlb, vm.table) && BackingOk(vm.backing)
    && |vm.memory| == PAGE_SIZE * NUM_PHYS_PAGES
    && CleanOk(s, vm)
  }

  /** The contents of page `v` of the address space, wherever it is. */
  ghost function Page(s: Space, vm: Vm, v: int): (p: seq<byte>)
    requires Ok(s, vm) && 0 <= v < s.numPages
    ensures |p| == PAGE_SIZE
  {
    var f := FrameOf(vm.table, v, s.processID, 0);
    if f == -1 then Stored(s, vm.backing, v) else PageAt(vm.memory, f * PAGE_SIZE)
  }

  ghost function Pages(s: Space, vm: Vm): (p: seq<seq<byte>>)
    requires Ok(s, vm)
    ensures |p| == s.numPages
    ensures forall v :: 0 <= v < s.numPages ==> p[v] == Page(s, vm, v)
  {
    seq(s.numPages, v requires 0 <= v < s.numPages => Page(s, vm, v))
  }

  // ----- the effect of each step -----

  lemma {:induction false} FrameOfSame(t: seq<IptEntry>, u: seq<IptEntry>, v: int, pid: int, i: nat)
    requires |u| == |t| && i <= |t|
    requires forall j :: i <= j < |t| ==> Holds(u[j], v, pid) == Holds(t[j], v, pid)
    ensures FrameOf(u, v, pid, i) == FrameOf(t, v, pid, i)
    decreases |t| - i
  {
  }

  lemma {:induction false} TlbIndexSame(t: seq<TlbEntry>, u: seq<TlbEntry>, v: int, i: nat)
    requires |u| == |t| && i <= |t|
    requires forall j :: i <= j < |t| ==> Maps(u[j], v) == Maps(t[j], v)
    ensures TlbIndex(u, v, i) == TlbIndex(t, v, i)
    decreases |t| - i
  {
  }

  /** Invalidating a TLB entry, after handing its dirty bit to the table. */
  ghost function DropEntry(vm: Vm, i: nat): Vm
    requires i < |vm.tlb| && (vm.tlb[i].valid ==> 0 <= vm.tlb[i].physicalPage < |vm.table|)
  {
    var e := vm.tlb[i];
    vm.(tlb := vm.tlb[i := e.(valid := false)],
        table := if e.valid then vm.table[e.physicalPage := vm.table[e.physicalPage].(dirty := e.dirty)] else vm.table)
  }

  lemma DropTable(s: Space, vm: Vm, i: nat)
    requires TableOk(s, vm.table) && TlbOk(vm.tlb, vm.table) && i < TLB_SIZE
    ensures TableOk(s, DropEntry(vm, i).table)
    ensures forall v :: FrameOf(DropEntry(vm, i).table, v, s.processID, 0) == FrameOf(vm.table, v, s.processID, 0)
  {
    forall v
      ensures FrameOf(DropEntry(vm, i).table, v, s.processID, 0) == FrameOf(vm.table, v, s.processID, 0)
    {
      FrameOfSame(vm.table, DropEntry(vm, i).table, v, s.processID, 0);
    }
  }

  lemma DropTlb(vm: Vm, i: nat)
    requires TlbOk(vm.tlb, vm.table) && i < TLB_SIZE
    ensures var u := DropEntry(vm, i).tlb;
            forall v :: TlbIndex(u, v, 0) == if Maps(vm.tlb[i], v) then -1 else TlbIndex(vm.tlb, v, 0)
  {
    var u := DropEntry(vm, i).tlb;
    forall v
      ensures TlbIndex(u, v, 0) == if Maps(vm.tlb[i], v) then -1 else TlbIndex(vm.tlb, v, 0)
    {
      if Maps(vm.tlb[i], v) {
        assert TlbIndex(vm.tlb, v, 0) == i;
        assert forall j :: 0 <= j < |u| ==> !Maps(u[j], v);
      } else {
        TlbIndexSame(vm.tlb, u, v, 0);
      }
    }
  }

  lemma DropTables(s: Space, vm: Vm, i: nat)
    requires TableOk(s, vm.table) && TlbOk(vm.tlb, vm.table) && i < TLB_SIZE
    ensures var w := DropEntry(vm, i);
            && TableOk(s, w.table) && TlbOk(w.tlb, w.table)
            && (forall v :: FrameOf(w.table, v, s.processID, 0) == FrameOf(vm.table, v, s.processID, 0))
            && (forall f :: 0 <= f < |vm.table| && vm.table[f].valid ==>
                 IsDirty(w.tlb, w.table[f]) == IsDirty(vm.tlb, vm.table[f]))
  {
    DropTable(s, vm, i);
    DropTlb(vm, i);
    var e, w := vm.tlb[i], DropEntry(vm, i);
    forall f | 0 <= f < |vm.table| && vm.table[f].valid
      ensures IsDirty(w.tlb, w.table[f]) == IsDirty(vm.tlb, vm.table[f])
    {
      assert Maps(e, vm.table[f].virtualPage) ==> f == e.physicalPage;
    }
  }

  lemma DropKeeps(s: Space, vm: Vm, i: nat)
    requires Ok(s, vm) && i < TLB_SIZE
    ensures Ok(s, DropEntry(vm, i)) && Pages(s, DropEntry(vm, i)) == Pages(s, vm)
    ensures forall v :: FrameOf(DropEntry(vm, i).table, v, s.processID, 0) == FrameOf(vm.table, v, s.processID, 0)
  {
    DropTables(s, vm, i);
  }

  lemma Shape(s: Space, vm: Vm)
    requires Ok(s, vm)
    ensures |vm.tlb| == TLB_SIZE && |vm.table| == NUM_PHYS_PAGES && |vm.memory| == PAGE_SIZE * NUM_PHYS_PAGES
    ensures |vm.backing.swap| == PAGE_SIZE * NUM_SWAP_PAGES && |vm.backing.location| == |vm.backing.slot| == MAX_PAGES
    ensures IsSpace(s)
  {
  }

  /** Frame `f` may be reused: no TLB entry maps it, and if it holds a page, the page is also stored. */
  ghost predicate Reusable(s: Space, vm: Vm, f: nat)
    requires Ok(s, vm)
  {
    && f < NUM_PHYS_PAGES
    && (vm.table[f].valid ==>
          && TlbIndex(vm.tlb, vm.table[f].virtualPage, 0) == -1
          && PageAt(vm.memory, f * PAGE_SIZE) == Stored(s, vm.backing, vm.table[f].virtualPage))
  }

  /** The TLB entry found for a resident page is the one that maps its frame. */
  lemma EntryOfFrame(s: Space, vm: Vm, f: nat)
    requires Ok(s, vm) && f < NUM_PHYS_PAGES && vm.table[f].valid
    ensures var i := TlbIndex(vm.tlb, vm.table[f].virtualPage, 0); i != -1 ==> vm.tlb[i].physicalPage == f
    ensures FrameOf(vm.table, vm.table[f].virtualPage, s.processID, 0) == f
  {
  }

  /** Without its TLB entry a page is dirty if its table entry says so. */
  lemma DirtyWithoutEntry(s: Space, vm: Vm, f: nat, i: nat)
    requires Ok(s, vm) && f < NUM_PHYS_PAGES && vm.table[f].valid && i == TlbIndex(vm.tlb, vm.table[f].virtualPage, 0)
    ensures var w := DropEntry(vm, i);
            && TlbIndex(w.tlb, w.table[f].virtualPage, 0) == -1
            && w.table[f].dirty == IsDirty(vm.tlb, vm.table[f])
            && w.table[f].virtualPage == vm.table[f].virtualPage
  {
  }

  lemma CleanIsReusable(s: Space, vm: Vm, f: nat)
    requires Ok(s, vm) && f < NUM_PHYS_PAGES
    requires vm.table[f].valid ==> !vm.table[f].dirty && TlbIndex(vm.tlb, vm.table[f].virtualPage, 0) == -1
    ensures Reusable(s, vm, f)
  {
  }

  /** Page `v` with contents `p` goes to slot `k` of the swap file. */
  ghost function Swapped(b: Backing, v: int, k: int, p: seq<byte>): Backing
    requires BackingOk(b) && 0 <= v < MAX_PAGES && 0 <= k < NUM_SWAP_PAGES && |p| == PAGE_SIZE
  {
    Backing(Splice(b.swap, k * PAGE_SIZE, p), b.used + {k}, b.location[v := 1], b.slot[v := k * PAGE_SIZE])
  }

  lemma SwappedOk(s: Space, b: Backing, v: int, k: int, p: seq<byte>)
    requires IsSpace(s) && BackingOk(b) && 0 <= v < s.numPages && 0 <= k < NUM_SWAP_PAGES && |p| == PAGE_SIZE
    requires k !in b.used
    ensures BackingOk(Swapped(b, v, k, p))
    ensures forall w :: 0 <= w < s.numPages ==>
              Stored(s, Swapped(b, v, k, p), w) == if w == v then p else Stored(s, b, w)
  {
  }

  /** Saving a page to an unused slot makes its frame reusable and changes no page. */
  lemma SaveKeeps(s: Space, vm: Vm, f: nat, k: int)
    requires Ok(s, vm) && f < NUM_PHYS_PAGES && vm.table[f].valid
    requires TlbIndex(vm.tlb, vm.table[f].virtualPage, 0) == -1
    requires 0 <= k < NUM_SWAP_PAGES && k !in vm.backing.used
    ensures var w := vm.(backing := Swapped(vm.backing, vm.table[f].virtualPage, k, PageAt(vm.memory, f * PAGE_SIZE)));
            Ok(s, w) && Pages(s, w) == Pages(s, vm) && Reusable(s, w, f)
  {
    var v, p := vm.table[f].virtualPage, PageAt(vm.memory, f * PAGE_SIZE);
    SwappedOk(s, vm.backing, v, k, p);
    var w := vm.(backing := Swapped(vm.backing, v, k, p));
    assert FrameOf(vm.table, v, s.processID, 0) == f;
    forall g | 0 <= g < |w.table| && w.table[g].valid && !IsDirty(w.tlb, w.table[g])
      ensures PageAt(w.memory, g * PAGE_SIZE) == Stored(s, w.backing, w.table[g].virtualPage)
    {
      if g != f {
        assert w.table[g].virtualPage != v;
      }
    }
  }

  ghost function NewEntry(s: Space, v: int, f: nat): IptEntry {
    IptEntry(v, f, s.processID, true, false, false)
  }

  /** Page `v` is read into frame `f`, and the table says so. */
  ghost function Loaded(s: Space, vm: Vm, f: nat, v: int): Vm
    requires Ok(s, vm) && f < NUM_PHYS_PAGES && 0 <= v < s.numPages
  {
    vm.(memory := Splice(vm.memory, f * PAGE_SIZE, Stored(s, vm.backing, v)),
        table := vm.table[f := NewEntry(s, v, f)])
  }

  /** Where page `u` is once frame `f` is given to another page. */
  ghost function FrameElsewhere(s: Space, table: seq<IptEntry>, f: nat, u: int): int
    requires f < |table|
  {
    if Holds(table[f], u, s.processID) then -1 else FrameOf(table, u, s.processID, 0)
  }

  lemma LoadedTables(s: Space, vm: Vm, f: nat, v: int)
    requires Ok(s, vm) && 0 <= v < s.numPages && Reusable(s, vm, f)
    requires FrameOf(vm.table, v, s.processID, 0) == -1
    ensures var t := vm.table[f := NewEntry(s, v, f)];
            && TableOk(s, t) && TlbOk(vm.tlb, t) && FrameOf(t, v, s.processID, 0) == f
            && TlbIndex(vm.tlb, v, 0) == -1
            && forall u :: u != v && 0 <= u < s.numPages ==>
                             FrameOf(t, u, s.processID, 0) == FrameElsewhere(s, vm.table, f, u)
  {
    var t := vm.table[f := NewEntry(s, v, f)];
    assert Holds(t[f], v, s.processID);
    forall u | u != v && !Holds(vm.table[f], u, s.processID)
      ensures FrameOf(t, u, s.processID, 0) == FrameOf(vm.table, u, s.processID, 0)
    {
      FrameOfSame(vm.table, t, u, s.processID, 0);
    }
    var i := TlbIndex(vm.tlb, v, 0);
    assert i != -1 ==> Holds(vm.table[vm.tlb[i].physicalPage], v, s.processID);
    forall i | 0 <= i < TLB_SIZE && vm.tlb[i].valid
      ensures vm.tlb[i].physicalPage != f
    {
      assert TlbIndex(vm.tlb, vm.tlb[i].virtualPage, 0) == i;
    }
  }

  /** Reading a page into a reusable frame changes no page. */
  lemma LoadKeeps(s: Space, vm: Vm, f: nat, v: int)
    requires Ok(s, vm) && 0 <= v < s.numPages && Reusable(s, vm, f)
    requires FrameOf(vm.table, v, s.processID, 0) == -1
    ensures Ok(s, Loaded(s, vm, f, v)) && Pages(s, Loaded(s, vm, f, v)) == Pages(s, vm)
    ensures FrameOf(Loaded(s, vm, f, v).table, v, s.processID, 0) == f
    ensures TlbIndex(vm.tlb, v, 0) == -1
  {
    var w, p := Loaded(s, vm, f, v), Stored(s, vm.backing, v);
    LoadedTables(s, vm, f, v);
    forall g | 0 <= g < NUM_PHYS_PAGES
      ensures PageAt(w.memory, g * PAGE_SIZE) == if g == f then p else PageAt(vm.memory, g * PAGE_SIZE)
    {
      PageAtSplice(vm.memory, f, 0, p, g);
      assert Splice(PageAt(vm.memory, f * PAGE_SIZE), 0, p) == p;
    }
    assert CleanOk(s, w);
    forall u | 0 <= u < s.numPages
      ensures Page(s, w, u) == Page(s, vm, u)
    {
      if u != v && Holds(vm.table[f], u, s.processID) {
        assert FrameOf(vm.table, u, s.processID, 0) == f;
      }
    }
  }

  /** The TLB entry for a frame. */
  ghost function EntryFor(e: IptEntry): TlbEntry {
    TlbEntry(e.virtualPage, e.physicalPage, true, false, e.dirty)
  }

  /** Only the page that the new entry maps is found elsewhere. */
  lemma InsertIndex(tlb: seq<TlbEntry>, i: nat, e: TlbEntry)
    requires i < |tlb| && !tlb[i].valid && e.valid && TlbIndex(tlb, e.virtualPage, 0) == -1
    ensures forall v :: TlbIndex(tlb[i := e], v, 0) == if v == e.virtualPage then i else TlbIndex(tlb, v, 0)
  {
    var u := tlb[i := e];
    assert Maps(u[i], e.virtualPage);
    forall v | v != e.virtualPage
      ensures TlbIndex(u, v, 0) == TlbIndex(tlb, v, 0)
    {
      TlbIndexSame(tlb, u, v, 0);
    }
  }

  lemma InsertTables(s: Space, vm: Vm, i: nat, f: nat)
    requires TableOk(s, vm.table) && TlbOk(vm.tlb, vm.table)
    requires i < TLB_SIZE && f < NUM_PHYS_PAGES && vm.table[f].valid && !vm.tlb[i].valid
    requires TlbIndex(vm.tlb, vm.table[f].virtualPage, 0) == -1
    ensures var tlb := vm.tlb[i := EntryFor(vm.table[f])];
            && TlbOk(tlb, vm.table) && TlbIndex(tlb, vm.table[f].virtualPage, 0) == i
            && (forall g :: 0 <= g < NUM_PHYS_PAGES && vm.table[g].valid ==>
                 IsDirty(tlb, vm.table[g]) == IsDirty(vm.tlb, vm.table[g]))
  {
    hide TlbIndex, FrameOf;
    var v, tlb := vm.table[f].virtualPage, vm.tlb[i := EntryFor(vm.table[f])];
    InsertIndex(vm.tlb, i, EntryFor(vm.table[f]));
    assert forall g :: 0 <= g < NUM_PHYS_PAGES && vm.table[g].valid && g != f ==> vm.table[g].virtualPage != v;
  }

  /** Mapping a resident page that has no TLB entry, in place of an invalid entry, changes no page. */
  lemma InsertKeeps(s: Space, vm: Vm, i: nat, f: nat)
    requires Ok(s, vm) && i < TLB_SIZE && f < NUM_PHYS_PAGES && vm.table[f].valid && !vm.tlb[i].valid
    requires TlbIndex(vm.tlb, vm.table[f].virtualPage, 0) == -1
    ensures var w := vm.(tlb := vm.tlb[i := EntryFor(vm.table[f])]);
            Ok(s, w) && Pages(s, w) == Pages(s, vm) && TlbIndex(w.tlb, vm.table[f].virtualPage, 0) == i
  {
    InsertTables(s, vm, i, f);
  }

  /** Replacing a TLB entry by one for frame `f`. */
  ghost function Replaced(vm: Vm, i: nat, f: nat): Vm
    requires i < |vm.tlb| && (vm.tlb[i].valid ==> 0 <= vm.tlb[i].physicalPage < |vm.table|) && f < |vm.table|
  {
    var w := DropEntry(vm, i);
    w.(tlb := w.tlb[i := EntryFor(w.table[f])])
  }

  /** Replacing a TLB entry changes no page. Only a dirty bit that is set has to be handed on. */
  lemma ReplacedKeeps(s: Space, vm: Vm, i: nat, f: nat)
    requires Ok(s, vm) && i < TLB_SIZE && f < NUM_PHYS_PAGES && vm.table[f].valid
    requires TlbIndex(vm.tlb, vm.table[f].virtualPage, 0) == -1
    ensures var w := Replaced(vm, i, f);
            Ok(s, w) && Pages(s, w) == Pages(s, vm) && TlbIndex(w.tlb, vm.table[f].virtualPage, 0) == i
    ensures vm.tlb[i].valid && !vm.tlb[i].dirty ==> DropEntry(vm, i).table == vm.table
    ensures vm.tlb[i].valid ==> 0 <= vm.tlb[i].physicalPage < NUM_PHYS_PAGES
    ensures vm.tlb[i].valid ==> FrameOf(vm.table, vm.tlb[i].virtualPage, s.processID, 0) == vm.tlb[i].physicalPage
    ensures forall g :: 0 <= g < NUM_PHYS_PAGES ==> Replaced(vm, i, f).table[g].valid == vm.table[g].valid
  {
    var w := DropEntry(vm, i);
    DropKeeps(s, vm, i);
    TlbIndexSame(vm.tlb, w.tlb, vm.table[f].virtualPage, 0);
    InsertKeeps(s, w, i, f);
    if vm.tlb[i].valid && !vm.tlb[i].dirty {
      assert w.table == vm.table;
    }
  }

  /** Writing through the TLB: the entry becomes dirty, and bytes of its frame change. */
  ghost function Written(vm: Vm, i: nat, offset: nat, t: seq<byte>): Vm
    requires i < |vm.tlb| && 0 <= vm.tlb[i].physicalPage && offset + |t| <= PAGE_SIZE
    requires (vm.tlb[i].physicalPage + 1) * PAGE_SIZE <= |vm.memory|
  {
    vm.(tlb := vm.tlb[i := vm.tlb[i].(dirty := true)],
        memory := Splice(vm.memory, vm.tlb[i].physicalPage * PAGE_SIZE + offset, t))
  }

  lemma WrittenTables(s: Space, vm: Vm, i: nat)
    requires TableOk(s, vm.table) && TlbOk(vm.tlb, vm.table) && i < TLB_SIZE && vm.tlb[i].valid
    ensures var u := vm.tlb[i := vm.tlb[i].(dirty := true)];
            && TlbOk(u, vm.table)
            && FrameOf(vm.table, vm.tlb[i].virtualPage, s.processID, 0) == vm.tlb[i].physicalPage
            && IsDirty(u, vm.table[vm.tlb[i].physicalPage])
            && forall v :: TlbIndex(u, v, 0) == TlbIndex(vm.tlb, v, 0)
  {
    var u := vm.tlb[i := vm.tlb[i].(dirty := true)];
    forall v
      ensures TlbIndex(u, v, 0) == TlbIndex(vm.tlb, v, 0)
    {
      TlbIndexSame(vm.tlb, u, v, 0);
    }
  }

  lemma WrittenMemory(memory: seq<byte>, f: nat, offset: nat, t: seq<byte>, u: seq<byte>)
    requires |memory| == PAGE_SIZE * NUM_PHYS_PAGES && f < NUM_PHYS_PAGES && offset + |t| <= PAGE_SIZE
    requires u == Splice(memory, f * PAGE_SIZE + offset, t)
    ensures forall g :: 0 <= g < NUM_PHYS_PAGES && g != f ==> PageAt(u, g * PAGE_SIZE) == PageAt(memory, g * PAGE_SIZE)
    ensures PageAt(u, f * PAGE_SIZE) == Splice(PageAt(memory, f * PAGE_SIZE), offset, t)
  {
  }

  lemma WrittenOk(s: Space, vm: Vm, i: nat, offset: nat, t: seq<byte>)
    requires Ok(s, vm) && i < TLB_SIZE && vm.tlb[i].valid && offset + |t| <= PAGE_SIZE
    ensures Ok(s, Written(vm, i, offset, t))
  {
    hide BackingOk, FrameOf;
    var w := Written(vm, i, offset, t);
    WrittenTables(s, vm, i);
    WrittenMemory(vm.memory, vm.tlb[i].physicalPage, offset, t, w.memory);
    assert CleanOk(s, w);
  }

  /** A mapped page is in the frame that its TLB entry says. */
  lemma PageIsFrame(s: Space, vm: Vm, i: nat)
    requires Ok(s, vm) && i < TLB_SIZE && vm.tlb[i].valid
    ensures 0 <= vm.tlb[i].virtualPage < s.numPages && 0 <= vm.tlb[i].physicalPage < NUM_PHYS_PAGES
    ensures Page(s, vm, vm.tlb[i].virtualPage) == PageAt(vm.memory, vm.tlb[i].physicalPage * PAGE_SIZE)
  {
  }

  /** It changes just those bytes of the one page. */
  lemma WrittenChanges(s: Space, vm: Vm, i: nat, offset: nat, t: seq<byte>)
    requires Ok(s, vm) && i < TLB_SIZE && vm.tlb[i].valid && offset + |t| <= PAGE_SIZE
    ensures var w, v := Written(vm, i, offset, t), vm.tlb[i].virtualPage;
            && Ok(s, w) && 0 <= v < s.numPages
            && Pages(s, w) == Pages(s, vm)[v := Splice(Page(s, vm, v), offset, t)]
            && forall u :: TlbIndex(w.tlb, u, 0) == TlbIndex(vm.tlb, u, 0)
  {
    hide BackingOk, Stored, CleanOk, IsDirty;
    var w, v, f := Written(vm, i, offset, t), vm.tlb[i].virtualPage, vm.tlb[i].physicalPage;
    WrittenOk(s, vm, i, offset, t);
    WrittenTables(s, vm, i);
    WrittenMemory(vm.memory, f, offset, t, w.memory);
    forall u | 0 <= u < s.numPages
      ensures Page(s, w, u) == if u == v then Splice(Page(s, vm, v), offset, t) else Page(s, vm, u)
    {
      assert FrameOf(vm.table, u, s.processID, 0) == f ==> u == v;
    }
  }

  // ----- the flat memory -----

  /** A store of the user program: it stays within one page. */
  datatype Store = Store(addr: nat, bytes: seq<byte>)

  ghost predicate Fits(s: Space, w: Store) {
    w.addr / PAGE_SIZE < s.numPages && w.addr % PAGE_SIZE + |w.bytes| <= PAGE_SIZE
  }

  ghost predicate AllFit(s: Space, writes: seq<Store>) {
    forall i :: 0 <= i < |writes| ==> Fits(s, writes[i])
  }

  ghost predicate PagesOf(s: Space, p: seq<seq<byte>>) {
    |p| == s.numPages && forall v :: 0 <= v < |p| ==> |p[v]| == PAGE_SIZE
  }

  /** The pages as the executable has them. */
  ghost function Image(s: Space): (p: seq<seq<byte>>)
    requires IsSpace(s)
    ensures PagesOf(s, p)
  {
    seq(s.numPages, v requires 0 <= v < s.numPages => PageAt(s.executable, CODE_OFFSET + v * PAGE_SIZE))
  }

  /** Flat memory after some stores, in order. */
  ghost function Replay(s: Space, writes: seq<Store>): (p: seq<seq<byte>>)
    requires IsSpace(s) && AllFit(s, writes)
    ensures PagesOf(s, p)
    decreases |writes|, s
  {
    if writes == [] then Image(s)
    else
      var w := writes[|writes| - 1];
      var p := Replay(s, writes[..|writes| - 1]);
      p[w.addr / PAGE_SIZE := Splice(p[w.addr / PAGE_SIZE], w.addr % PAGE_SIZE, w.bytes)]
  }

  /** With nothing in memory and nothing swapped, the pages are the executable's. */
  lemma FreshPages(s: Space, vm: Vm)
    requires IsSpace(s) && |vm.tlb| == TLB_SIZE && |vm.table| == NUM_PHYS_PAGES
    requires |vm.memory| == PAGE_SIZE * NUM_PHYS_PAGES
    requires forall i :: 0 <= i < TLB_SIZE ==> !vm.tlb[i].valid
    requires forall f :: 0 <= f < NUM_PHYS_PAGES ==> !vm.table[f].valid
    requires |vm.backing.swap| == PAGE_SIZE * NUM_SWAP_PAGES && vm.backing.used == {}
    requires |vm.backing.location| == |vm.backing.slot| == MAX_PAGES
    requires forall v :: 0 <= v < MAX_PAGES ==> vm.backing.location[v] == 0
    ensures Ok(s, vm) && Pages(s, vm) == Replay(s, [])
  {
  }

  lemma ReplayOne(s: Space, writes: seq<Store>, w: Store)
    requires IsSpace(s) && AllFit(s, writes) && Fits(s, w)
    ensures AllFit(s, writes + [w])
    ensures Replay(s, writes + [w])
         == Replay(s, writes)[w.addr / PAGE_SIZE :=
           Splice(Replay(s, writes)[w.addr / PAGE_SIZE], w.addr % PAGE_SIZE, w.bytes)]
  {
  }

  ghost function ByteAt(s: Space, p: seq<seq<byte>>, a: int): byte
    requires PagesOf(s, p) && 0 <= a < PAGE_SIZE * s.numPages
  {
    p[a / PAGE_SIZE][a % PAGE_SIZE]
  }

  /** A store changes the bytes that it covers, and no others. */
  lemma OneStore(s: Space, writes: seq<Store>, w: Store, a: int)
    requires IsSpace(s) && AllFit(s, writes) && Fits(s, w) && 0 <= a < PAGE_SIZE * s.numPages
    ensures AllFit(s, writes + [w])
    ensures ByteAt(s, Replay(s, writes + [w]), a)
         == if w.addr <= a < w.addr + |w.bytes| then w.bytes[a - w.addr] else ByteAt(s, Replay(s, writes), a)
  {
    ReplayOne(s, writes, w);
  }

  /** The last store that covers an address, or -1. */
  ghost function LastStore(writes: seq<Store>, a: int): (r: int)
    ensures -1 <= r < |writes|
    ensures r != -1 ==> writes[r].addr <= a < writes[r].addr + |writes[r].bytes|
    ensures forall i :: r < i < |writes| ==> !(writes[i].addr <= a < writes[i].addr + |writes[i].bytes|)
    decreases |writes|
  {
    if writes == [] then -1
    else
      var w := writes[|writes| - 1];
      if w.addr <= a < w.addr + |w.bytes| then |writes| - 1 else LastStore(writes[..|writes| - 1], a)
  }

  /** A byte of flat memory is what the last store put there, or else the executable's. */
  lemma {:induction false} LastStoreWins(s: Space, writes: seq<Store>, a: int)
    requires IsSpace(s) && AllFit(s, writes) && 0 <= a < PAGE_SIZE * s.numPages
    ensures ByteAt(s, Replay(s, writes), a)
         == var r := LastStore(writes, a);
            if r == -1 then s.executable[CODE_OFFSET + a] else writes[r].bytes[a - writes[r].addr]
    decreases |writes|
  {
    if writes != [] {
      LastStoreWins(s, writes[..|writes| - 1], a);
    }
  }

  /** Storing `b` from `vaddr` on, byte by byte. */
  ghost function ByteStores(vaddr: nat, b: seq<byte>): (w: seq<Store>)
    ensures |w| == |b|
  {
    if b == [] then [] else ByteStores(vaddr, b[..|b| - 1]) + [Store(vaddr + |b| - 1, [b[|b| - 1]])]
  }

  lemma FitBefore(s: Space, writes: seq<Store>, w: Store)
    requires AllFit(s, writes + [w])
    ensures AllFit(s, writes)
  {
    assert writes == (writes + [w])[..|writes|];
  }

  lemma NoByteStores(writes: seq<Store>, vaddr: nat)
    ensures writes + ByteStores(vaddr, []) == writes
  {
  }

  lemma ByteStoresSnoc(writes: seq<Store>, vaddr: nat, b: seq<byte>, k: nat)
    requires k == |b| - 1
    ensures writes + ByteStores(vaddr, b) == writes + ByteStores(vaddr, b[..k]) + [Store(vaddr + k, [b[k]])]
  {
  }

  /** It lays `b` over flat memory. */
  lemma {:induction false} ByteStoresOverlay(s: Space, writes: seq<Store>, vaddr: nat, b: seq<byte>, a: int)
    requires IsSpace(s) && AllFit(s, writes) && AllFit(s, writes + ByteStores(vaddr, b))
    requires 0 <= a < PAGE_SIZE * s.numPages && (b != [] ==> vaddr + |b| <= PAGE_SIZE * s.numPages)
    ensures ByteAt(s, Replay(s, writes + ByteStores(vaddr, b)), a)
         == if vaddr <= a < vaddr + |b| then b[a - vaddr] else ByteAt(s, Replay(s, writes), a)
    decreases |b|
  {
    hide ByteStores, Replay, ByteAt, IsSpace, AllFit;
    if b == [] {
      NoByteStores(writes, vaddr);
    } else {
      var k := |b| - 1;
      var before := writes + ByteStores(vaddr, b[..k]);
      ByteStoresSnoc(writes, vaddr, b, k);
      FitBefore(s, before, Store(vaddr + k, [b[k]]));
      ByteStoresOverlay(s, writes, vaddr, b[..k], a);
      OneStore(s, before, Store(vaddr + k, [b[k]]), a);
    }
  }
}

/** The code that keeps the flat memory: the inverted page table (threads/system.cc), the TLB routines
    (userprog/addrspace.cc), the page fault handler and copyin/copyout (userprog/exception.cc) and the
    simulated machine's memory accesses (machine/translate.cc). */
module Paging {
  import opened Sequences
  import opened Bytes
  import opened BitMaps
  import opened VirtualMemory

  datatype ExceptionType = NoException | PageFaultException | ReadOnlyException | BusErrorException
                         | AddressErrorException

  /** How a memory access ends: with the access made, with a page fault handled, or with the machine
      halted. */
  datatype Outcome = Done | Faulted | Halted

  predicate Aligned(addr: nat, size: nat) {
    (size == 4 ==> addr % 4 == 0) && (size == 2 ==> addr % 2 == 0)
  }

  predicate IsSize(size: nat) {
    size == 1 || size == 2 || size == 4
  }

  lemma AlignedMeans(addr: nat, size: nat)
    requires IsSize(size)
    ensures Aligned(addr, size) <==> addr % size == 0
  {
  }

  /** The bytes that a store of `value` puts into memory. */
  function Encode(value: int32, size: nat): (b: seq<byte>)
    requires IsSize(size)
    ensures |b| == size
  {
    EncodeWord(ToUnsigned(value))[..size]
  }

  /** What a load makes of the bytes: single bytes are signed characters, half words are unsigned. */
  function Decode(b: seq<byte>): int32
    requires IsSize(|b|)
  {
    if |b| == 1 then (if b[0] < 0x80 then b[0] else b[0] - 0x100)
    else if |b| == 2 then (var b0: int, b1: int := b[0], b[1]; b0 + 0x100 * b1)
    else DecodeInt(b)
  }

  lemma AlignedInPage(addr: nat, size: nat)
    requires IsSize(size) && Aligned(addr, size)
    ensures addr % PAGE_SIZE + size <= PAGE_SIZE
  {
  }

  predicate Apart(a: object, b: object, c: object, d: object, e: object) {
    a != b && a != c && a != d && a != e && b != c && b != d && b != e && c != d && c != e && d != e
  }

  lemma EncodeOne(c: byte)
    ensures Encode(if c < 0x80 then c else c - 0x100, 1) == [c]
  {
  }

  /** Bringing in page `v` needs a frame, none is empty, the one filled longest ago holds a dirty page and
      the swap file is full. */
  ghost predicate NoRoom(space: Space, vm: Vm, queue: seq<int>, v: int) {
    && FrameOf(vm.table, v, space.processID, 0) == -1 && EmptyFrame(vm.table, 0) == -1
    && queue != [] && 0 <= queue[0] < |vm.table| && IsDirty(vm.tlb, vm.table[queue[0]])
    && |vm.backing.used| == NUM_SWAP_PAGES
  }

  /** The queue after a fault on a page that is in `frame`, or nowhere: a frame that the page is brought into
      goes to the end, whether it was empty or the first of the queue. */
  ghost function QueueAfter(table: seq<IptEntry>, queue: seq<int>, frame: int): seq<int> {
    if frame != -1 then queue
    else if EmptyFrame(table, 0) != -1 then queue + [EmptyFrame(table, 0)]
    else if queue == [] then [] else queue[1..] + [queue[0]]
  }

  lemma NothingMapped(tlb: seq<TlbEntry>)
    requires forall i :: 0 <= i < |tlb| ==> !tlb[i].valid
    ensures forall v :: TlbIndex(tlb, v, 0) == -1
  {
  }

  lemma NoRoomNoFrame(space: Space, vm: Vm, queue: seq<int>, v: int)
    requires NoRoom(space, vm, queue, v)
    ensures EmptyFrame(vm.table, 0) == -1
  {
  }

  /** The bytes that a load of `size` bytes reads. */
  ghost function BytesAt(pages: seq<seq<byte>>, addr: nat, size: nat): (b: seq<byte>)
    requires IsSize(size) && Aligned(addr, size) && addr / PAGE_SIZE < |pages|
    requires |pages[addr / PAGE_SIZE]| == PAGE_SIZE
    ensures |b| == size
  {
    AlignedInPage(addr, size);
    pages[addr / PAGE_SIZE][addr % PAGE_SIZE..addr % PAGE_SIZE + size]
  }

  /** The bytes of a load, one by one. */
  lemma BytesOf(space: Space, pages: seq<seq<byte>>, addr: nat, size: nat, k: nat)
    requires PagesOf(space, pages) && IsSize(size) && Aligned(addr, size) && addr / PAGE_SIZE < space.numPages
    requires k < size
    ensures addr + k < PAGE_SIZE * space.numPages
    ensures BytesAt(pages, addr, size)[k] == ByteAt(space, pages, addr + k)
  {
    AlignedInPage(addr, size);
    SamePage(addr, k);
  }

  lemma SamePage(addr: nat, k: nat)
    requires addr % PAGE_SIZE + k < PAGE_SIZE
    ensures (addr + k) / PAGE_SIZE == addr / PAGE_SIZE && (addr + k) % PAGE_SIZE == addr % PAGE_SIZE + k
  {
  }

  lemma DecodeMeans(b: seq<byte>)
    requires IsSize(|b|)
    ensures |b| == 1 ==> var b0: int := b[0]; Decode(b) == if b0 < 0x80 then b0 else b0 - 0x100
    ensures |b| == 2 ==> var b0: int, b1: int := b[0], b[1]; Decode(b) == b0 + 0x100 * b1
    ensures |b| == 4 ==>
              var b0: int, b1: int, b2: int, b3: int := b[0], b[1], b[2], b[3];
              Decode(b) % 0x1_0000_0000 == b0 + 0x100 * b1 + 0x1_0000 * b2 + 0x100_0000 * b3
  {
    if |b| == 4 {
      IntValue(b);
    }
  }

  /** The value of the bytes of a load, read from flat memory. */
  lemma LoadedValue(space: Space, pages: seq<seq<byte>>, addr: nat, size: nat)
    requires PagesOf(space, pages) && IsSize(size) && Aligned(addr, size) && addr / PAGE_SIZE < space.numPages
    ensures addr + size <= PAGE_SIZE * space.numPages
    ensures var value := Decode(BytesAt(pages, addr, size));
            && (size == 1 ==>
                  var b: int := ByteAt(space, pages, addr);
                  value == if b < 0x80 then b else b - 0x100)
            && (size == 2 ==>
                  var b0: int, b1: int := ByteAt(space, pages, addr), ByteAt(space, pages, addr + 1);
                  value == b0 + 0x100 * b1)
            && (size == 4 ==>
                  var b0: int, b1: int := ByteAt(space, pages, addr), ByteAt(space, pages, addr + 1);
                  var b2: int, b3: int := ByteAt(space, pages, addr + 2), ByteAt(space, pages, addr + 3);
                  value % 0x1_0000_0000 == b0 + 0x100 * b1 + 0x1_0000 * b2 + 0x100_0000 * b3)
  {
    hide ByteAt, BytesAt, Decode, Aligned;
    DecodeMeans(BytesAt(pages, addr, size));
    BytesOf(space, pages, addr, size, 0);
    BytesOf(space, pages, addr, size, size - 1);
    if size == 4 {
      BytesOf(space, pages, addr, size, 1);
      BytesOf(space, pages, addr, size, 2);
    }
  }

  /** The bytes of a store: the value's digits to the base 256, least significant first, in two's
      complement. */
  lemma EncodeMeans(value: int32, size: nat)
    requires IsSize(size)
    ensures var b := Encode(value, size);
            && b[0] == value % 0x100
            && (size >= 2 ==> b[1] == value / 0x100 % 0x100)
            && (size == 4 ==> b[2] == value / 0x1_0000 % 0x100 && b[3] == value / 0x100_0000 % 0x100)
  {
    hide EncodeWord;
    WordRoundTrip(ToUnsigned(value));
    Digits(EncodeWord(ToUnsigned(value)), value);
  }

  lemma Digits(b: seq<byte>, x: int)
    requires |b| == 4
    requires var b0: int, b1: int, b2: int, b3: int := b[0], b[1], b[2], b[3];
             x % 0x1_0000_0000 == b0 + 0x100 * b1 + 0x1_0000 * b2 + 0x100_0000 * b3
    ensures b[0] == x % 0x100 && b[1] == x / 0x100 % 0x100
    ensures b[2] == x / 0x1_0000 % 0x100 && b[3] == x / 0x100_0000 % 0x100
  {
    var q := x / 0x1_0000_0000;
    var b0: int, b1: int, b2: int, b3: int := b[0], b[1], b[2], b[3];
    var q3 := 0x100 * q + b3;
    var q2 := 0x100 * q3 + b2;
    var q1 := 0x100 * q2 + b1;
    assert x == 0x100 * q1 + b0;
    OneDigit(x, q1, b0);
    OneDigit(q1, q2, b1);
    OneDigit(q2, q3, b2);
    OneDigit(q3, q, b3);
    assert x / 0x1_0000 == x / 0x100 / 0x100 && x / 0x100_0000 == x / 0x1_0000 / 0x100;
  }

  lemma OneDigit(y: int, q: int, r: int)
    requires y == 0x100 * q + r && 0 <= r < 0x100
    ensures y / 0x100 == q && y % 0x100 == r
  {
  }

  /** What a store does to flat memory. */
  lemma StoredBytes(space: Space, writes: seq<Store>, addr: nat, size: nat, value: int32)
    requires IsSpace(space) && AllFit(space, writes) && IsSize(size) && Aligned(addr, size)
    requires addr / PAGE_SIZE < space.numPages && AllFit(space, writes + [Store(addr, Encode(value, size))])
    ensures addr + size <= PAGE_SIZE * space.numPages
    ensures var u := Replay(space, writes + [Store(addr, Encode(value, size))]);
            && ByteAt(space, u, addr) == value % 0x100
            && (size >= 2 ==> ByteAt(space, u, addr + 1) == value / 0x100 % 0x100)
            && (size == 4 ==>
                  && ByteAt(space, u, addr + 2) == value / 0x1_0000 % 0x100
                  && ByteAt(space, u, addr + 3) == value / 0x100_0000 % 0x100)
            && forall a :: 0 <= a < PAGE_SIZE * space.numPages && !(addr <= a < addr + size) ==>
                 ByteAt(space, u, a) == ByteAt(space, Replay(space, writes), a)
  {
    hide ByteAt, Replay, Encode, AllFit, IsSpace;
    AlignedInPage(addr, size);
    EncodeMeans(value, size);
    var w := Store(addr, Encode(value, size));
    SamePage(addr, size - 1);
    forall a | 0 <= a < PAGE_SIZE * space.numPages
      ensures ByteAt(space, Replay(space, writes + [w]), a)
           == if addr <= a < addr + size then w.bytes[a - addr] else ByteAt(space, Replay(space, writes), a)
    {
      OneStore(space, writes, w, a);
    }
  }

  /** What has been stored is loaded: a word is the same, a half word is the value modulo 2^16, and a byte is
      the signed character. */
  lemma StoreThenLoad(value: int32, size: nat)
    requires IsSize(size)
    ensures var x := Decode(Encode(value, size));
            && (size == 4 ==> x == value)
            && (size == 2 ==> x == value % 0x1_0000)
            && (size == 1 ==> -0x80 <= x < 0x80 && x % 0x100 == value % 0x100)
  {
    hide Encode, Decode;
    EncodeMeans(value, size);
    DecodeMeans(Encode(value, size));
    match size {
      case 4 => SameInt(Decode(Encode(value, 4)), value);
      case 2 => LowHalf(value);
      case _ =>
    }
  }

  lemma SameInt(x: int32, value: int32)
    requires x % 0x1_0000_0000 == value % 0x100 + 0x100 * (value / 0x100 % 0x100)
                                  + 0x1_0000 * (value / 0x1_0000 % 0x100) + 0x100_0000 * (value / 0x100_0000 % 0x100)
    ensures x == value
  {
    LowHalf(value);
    LowHalf(value / 0x1_0000);
    assert value / 0x1_0000 / 0x100 == value / 0x100_0000;
    assert value % 0x1_0000_0000 == value % 0x1_0000 + 0x1_0000 * (value / 0x1_0000 % 0x1_0000);
  }

  lemma LowHalf(value: int)
    ensures value % 0x1_0000 == value % 0x100 + 0x100 * (value / 0x100 % 0x100)
  {
    var q := value / 0x100 / 0x100;
    assert value == 0x1_0000 * q + (value % 0x100 + 0x100 * (value / 0x100 % 0x100));
  }

  lemma PartOfPage(memory: seq<byte>, base: nat, offset: nat, size: nat)
    requires base + PAGE_SIZE <= |memory| && offset + size <= PAGE_SIZE
    ensures PageAt(memory, base)[offset..offset + size] == memory[base + offset..base + offset + size]
  {
    var a, b := PageAt(memory, base)[offset..offset + size], memory[base + offset..base + offset + size];
    assert |a| == |b|;
    forall k | 0 <= k < |a|
      ensures a[k] == b[k]
    {
      assert a[k] == PageAt(memory, base)[offset + k] == memory[base + (offset + k)];
    }
  }

  /** What main memory holds where an address is translated to is what the address's page holds. */
  lemma LoadedBytes(space: Space, vm: Vm, addr: nat, size: nat)
    requires Ok(space, vm) && IsSize(size) && Aligned(addr, size) && TlbIndex(vm.tlb, addr / PAGE_SIZE, 0) != -1
    requires addr / PAGE_SIZE < space.numPages
    ensures var i := TlbIndex(vm.tlb, addr / PAGE_SIZE, 0);
            var at := vm.tlb[i].physicalPage * PAGE_SIZE + addr % PAGE_SIZE;
            && 0 <= at <= at + size <= |vm.memory|
            && vm.memory[at..at + size] == BytesAt(Pages(space, vm), addr, size)
  {
    hide BackingOk, CleanOk, Stored;
    Shape(space, vm);
    AlignedInPage(addr, size);
    var i, offset := TlbIndex(vm.tlb, addr / PAGE_SIZE, 0), addr % PAGE_SIZE;
    PageIsFrame(space, vm, i);
    PartOfPage(vm.memory, vm.tlb[i].physicalPage * PAGE_SIZE, offset, size);
  }

  lemma StoresOverlay(space: Space, writes: seq<Store>, vaddr: nat, b: seq<byte>)
    requires IsSpace(space) && AllFit(space, writes) && AllFit(space, writes + ByteStores(vaddr, b))
    requires b != [] ==> vaddr + |b| <= PAGE_SIZE * space.numPages
    ensures forall a :: 0 <= a < PAGE_SIZE * space.numPages ==>
              ByteAt(space, Replay(space, writes + ByteStores(vaddr, b)), a)
              == if vaddr <= a < vaddr + |b| then b[a - vaddr] else ByteAt(space, Replay(space, writes), a)
  {
    hide Replay, ByteStores, ByteAt, AllFit, IsSpace;
    forall a | 0 <= a < PAGE_SIZE * space.numPages
      ensures ByteAt(space, Replay(space, writes + ByteStores(vaddr, b)), a)
              == if vaddr <= a < vaddr + |b| then b[a - vaddr] else ByteAt(space, Replay(space, writes), a)
    {
      ByteStoresOverlay(space, writes, vaddr, b, a);
    }
  }

  method NewTlb() returns (tlb: array<TlbEntry>)
    ensures fresh(tlb) && tlb.Length == TLB_SIZE && forall i :: 0 <= i < TLB_SIZE ==> !tlb[i].valid
  {
    tlb := new TlbEntry[TLB_SIZE](_ => TlbEntry(0, 0, false, false, false));
  }

  method NewTable() returns (table: array<IptEntry>)
    ensures fresh(table) && table.Length == NUM_PHYS_PAGES
    ensures forall f :: 0 <= f < NUM_PHYS_PAGES ==> !table[f].valid
  {
    table := new IptEntry[NUM_PHYS_PAGES](_ => IptEntry(0, 0, 0, false, false, false));
  }

  method NewLocations() returns (pageLocation: array<int>)
    ensures fresh(pageLocation) && pageLocation.Length == MAX_PAGES
    ensures forall v :: 0 <= v < MAX_PAGES ==> pageLocation[v] == 0
  {
    pageLocation := new int[MAX_PAGES](_ => 0);
  }

  class Machine {
    const space: Space
    const tlb: array<TlbEntry>
    const table: array<IptEntry>
    const mainMemory: array<byte>
    const swapFile: array<byte>
    const swapFileMap: BitMap
    const pageLocation: array<int>
    const swapArray: array<int>
    var queue: seq<int>
    var nextTLB: int
    /** The stores of the user program so far. */
    ghost var writes: seq<Store>

    ghost function Parts(): set<object> {
      {tlb as object, table as object, mainMemory as object, swapFile as object,
       swapFileMap.words as object, pageLocation as object, swapArray as object}
    }

    ghost function State(): Vm
      requires swapFileMap.Valid()
      reads Parts()
    {
      Vm(tlb[..], table[..], mainMemory[..], Backing(swapFile[..], swapFileMap.Bits(), pageLocation[..], swapArray[..]))
    }

    /** The memory is sound, apart from the queue. */
    ghost predicate Sound()
      reads Parts()
    {
      && swapFileMap.Valid() && swapFileMap.numBits == NUM_SWAP_PAGES
      && Apart(mainMemory, swapFile, swapFileMap.words, pageLocation, swapArray)
      && Ok(space, State())
    }

    /** The queue holds each frame in use once; the flat memory is what the stores made of it. */
    ghost predicate Valid()
      reads this, Parts()
    {
      && Sound()
      && Queued(-1)
      && 0 <= nextTLB < TLB_SIZE
      && AllFit(space, writes) && Pages(space, State()) == Replay(space, writes)
    }

    /** The queue holds exactly the frames in use other than `f`. */
    ghost predicate Queued(f: int)
      reads this, table
    {
      && Distinct(queue)
      && (forall g :: g in queue ==> 0 <= g < table.Length)
      && forall g :: 0 <= g < table.Length ==> (g in queue <==> table[g].valid && g != f)
    }

    ghost function Frame(v: int): int
      reads table
    {
      FrameOf(table[..], v, space.processID, 0)
    }

    ghost predicate OldestIsDirty()
      reads this, tlb, table
    {
      queue != [] && 0 <= queue[0] < table.Length && IsDirty(tlb[..], table[queue[0]])
    }

    ghost predicate Exhausted(v: int)
      requires swapFileMap.Valid()
      reads this, Parts()
    {
      NoRoom(space, State(), queue, v)
    }

    ghost predicate Mapped(v: int)
      reads tlb
    {
      TlbIndex(tlb[..], v, 0) != -1
    }

    /** Nothing is mapped, resident or swapped at first. */
    constructor (space: Space)
      requires IsSpace(space)
      ensures this.space == space && Valid() && writes == []
      ensures fresh(Parts())
      ensures tlb.Length == TLB_SIZE && forall i :: 0 <= i < TLB_SIZE ==> !tlb[i].valid
      ensures table.Length == NUM_PHYS_PAGES && forall f :: 0 <= f < NUM_PHYS_PAGES ==> !table[f].valid
    {
      hide Ok, Pages, Image, Replay, IsSpace, SetBits, Range, FrameOf, BackingOk, TlbIndex, EmptyFrame, PagesOf;
      var entries := NewTlb();
      var frames := NewTable();
      var locations := NewLocations();
      this.space, tlb, table, pageLocation := space, entries, frames, locations;
      mainMemory := new byte[NUM_PHYS_PAGES * PAGE_SIZE];
      swapFile := new byte[NUM_SWAP_PAGES * PAGE_SIZE];
      swapFileMap := new BitMap(NUM_SWAP_PAGES);
      swapArray := new int[MAX_PAGES];
      queue, nextTLB, writes := [], 0, [];
      new;
      assert fresh(Parts());
      ghost var vm := State();
      assert vm.tlb == entries[..] && vm.table == frames[..] && vm.backing.location == locations[..];
      FreshPages(space, vm);
    }

    method SearchForEntry(v: int, processID: int) returns (index: int)
      requires table.Length == NUM_PHYS_PAGES
      ensures index == FrameOf(table[..], v, processID, 0)
    {
      index := -1;
      for i := 0 to NUM_PHYS_PAGES
        invariant index == -1 && FrameOf(table[..], v, processID, 0) == FrameOf(table[..], v, processID, i)
      {
        if table[i].virtualPage == v && table[i].processID == processID && table[i].valid {
          index := i;
          break;
        }
      }
    }

    method SearchForEmptyEntry() returns (index: int)
      requires table.Length == NUM_PHYS_PAGES
      ensures index == EmptyFrame(table[..], 0)
    {
      index := -1;
      for i := 0 to NUM_PHYS_PAGES
        invariant index == -1 && EmptyFrame(table[..], 0) == EmptyFrame(table[..], i)
      {
        if !table[i].valid {
          index := i;
          break;
        }
      }
    }

    method UpdateEntry(index: nat, v: int, process: int, validBit: bool)
      requires index < table.Length
      modifies table, this`queue
      ensures table[..] == old(table[..])[index := IptEntry(v, index, process, validBit, false, false)]
      ensures queue == old(queue) + [index]
    {
      table[index] := IptEntry(v, index, process, validBit, false, false);
      queue := queue + [index];
    }

    /** First in, first out: the frame that was filled longest ago. */
    method ChooseEvictionPage() returns (index: int)
      requires queue != []
      modifies this`queue
      ensures old(queue) == [index] + queue
    {
      index := queue[0];
      queue := queue[1..];
    }

    method SearchForTLBEntry(v: int) returns (index: int)
      requires tlb.Length == TLB_SIZE
      ensures index == TlbIndex(tlb[..], v, 0)
    {
      index := -1;
      for i := 0 to TLB_SIZE
        invariant index == -1 && TlbIndex(tlb[..], v, 0) == TlbIndex(tlb[..], v, i)
      {
        if tlb[i].virtualPage == v && tlb[i].valid {
          index := i;
          break;
        }
      }
    }

    method UpdateTLBEntry(index: nat, paddr: int, vaddr: int, dirtyBit: bool, readOnlyBit: bool, validBit: bool)
      requires index < tlb.Length
      modifies tlb
      ensures tlb[..] == old(tlb[..])[index := TlbEntry(vaddr, paddr, validBit, readOnlyBit, dirtyBit)]
    {
      tlb[index] := TlbEntry(vaddr, paddr, validBit, readOnlyBit, dirtyBit);
    }

    /** A context switch empties the TLB; the flat memory stays as it is. */
    method InvalidateAllTLB()
      requires Valid()
      modifies tlb, table
      ensures Valid()
      ensures forall i :: 0 <= i < TLB_SIZE ==> !tlb[i].valid
    {
      for i := 0 to TLB_SIZE
        invariant Sound() && Pages(space, State()) == old(Pages(space, State()))
        invariant forall g :: 0 <= g < table.Length ==> table[g].valid == old(table[g].valid)
        invariant forall j :: 0 <= j < i ==> !tlb[j].valid
      {
        ghost var vm := State();
        if tlb[i].valid {
          table[tlb[i].physicalPage] := table[tlb[i].physicalPage].(dirty := tlb[i].dirty);
        }
        tlb[i] := tlb[i].(valid := false);
        assert State() == DropEntry(vm, i);
        DropKeeps(space, vm, i);
      }
    }

    /** The frame filled longest ago is given up. Its TLB entry, if any, goes, and if its page is dirty
        the page is saved to an unused page of the swap file; without one the machine halts. */
    method Evict() returns (f: int, halted: bool)
      requires Sound() && queue != [] && Queued(-1)
      modifies this`queue, tlb, table, swapFile, swapFileMap.words, pageLocation, swapArray
      ensures old(queue) == [f] + queue && 0 <= f < NUM_PHYS_PAGES
      ensures halted <==> old(OldestIsDirty()) && |old(swapFileMap.Bits())| == NUM_SWAP_PAGES
      ensures !halted ==> && Sound() && Queued(f) && Reusable(space, State(), f)
                          && Pages(space, State()) == old(Pages(space, State()))
      ensures !halted ==> forall v :: Frame(v) == old(Frame(v))
    {
      hide Ok, Pages, Reusable, BackingOk, FrameOf, TlbIndex, Distinct;
      Shape(space, State());
      assert 0 <= queue[0] < table.Length by {
        assert queue[0] in queue;
      }
      DistinctTail(queue);
      f := ChooseEvictionPage();
      assert f == old(queue)[0] && f in old(queue);
      ghost var vm := State();
      EntryOfFrame(space, vm, f);
      var i := SearchForTLBEntry(table[f].virtualPage);
      if i != -1 {
        table[f] := table[f].(dirty := tlb[i].dirty);
        tlb[i] := tlb[i].(valid := false);
        assert State() == DropEntry(vm, i);
        DropKeeps(space, vm, i);
        DirtyWithoutEntry(space, vm, f, i);
      }
      halted := false;
      if table[f].dirty {
        halted := SavePage(f);
      } else {
        CleanIsReusable(space, State(), f);
      }
    }

    method SavePage(f: nat) returns (halted: bool)
      requires Sound() && f < NUM_PHYS_PAGES && table[f].valid && TlbIndex(tlb[..], table[f].virtualPage, 0) == -1
      modifies swapFile, swapFileMap.words, pageLocation, swapArray
      ensures halted <==> |old(swapFileMap.Bits())| == NUM_SWAP_PAGES
      ensures !halted ==> Sound() && Reusable(space, State(), f) && Pages(space, State()) == old(Pages(space, State()))
    {
      hide CleanOk, FrameOf, TlbIndex, Range, FirstClear;
      ghost var vm := State();
      var v := table[f].virtualPage;
      var k := swapFileMap.Find();
      FullIffNoneClear(vm.backing.used, swapFileMap.numBits);
      if k == -1 {
        return true;
      }
      swapArray[v] := k * PAGE_SIZE;
      forall j | 0 <= j < PAGE_SIZE {
        swapFile[k * PAGE_SIZE + j] := mainMemory[f * PAGE_SIZE + j];
      }
      pageLocation[v] := 1;
      assert State() == vm.(backing := Swapped(vm.backing, v, k, PageAt(vm.memory, f * PAGE_SIZE)));
      SaveKeeps(space, vm, f, k);
      return false;
    }

    /** Copies a page into a frame, from the executable or from the swap file. */
    method ReadPage(f: nat, v: int)
      requires Sound() && 0 <= v < space.numPages && f < NUM_PHYS_PAGES
      modifies mainMemory
      ensures mainMemory[..] == Splice(old(mainMemory[..]), f * PAGE_SIZE, Stored(space, State().backing, v))
    {
      hide TableOk, TlbOk, CleanOk;
      if pageLocation[v] == 0 {
        forall j | 0 <= j < PAGE_SIZE {
          mainMemory[f * PAGE_SIZE + j] := space.executable[CODE_OFFSET + v * PAGE_SIZE + j];
        }
      } else if pageLocation[v] == 1 {
        assert InRange(swapArray[v] / PAGE_SIZE, NUM_SWAP_PAGES);
        forall j | 0 <= j < PAGE_SIZE {
          mainMemory[f * PAGE_SIZE + j] := swapFile[swapArray[v] + j];
        }
      }
    }

    /** Fills a reusable frame with a page. */
    method LoadPage(f: nat, v: int)
      requires Sound() && 0 <= v < space.numPages && Reusable(space, State(), f) && Queued(f) && Frame(v) == -1
      modifies this`queue, table, mainMemory
      ensures Sound() && Queued(-1) && Pages(space, State()) == old(Pages(space, State()))
      ensures Frame(v) == f && queue == old(queue) + [f]
      ensures TlbIndex(tlb[..], v, 0) == -1
    {
      hide Ok, Pages, BackingOk, Stored, TlbIndex, FrameOf;
      ghost var vm := State();
      Shape(space, vm);
      ReadPage(f, v);
      UpdateEntry(f, v, space.processID, true);
      assert State() == Loaded(space, vm, f, v);
      LoadKeeps(space, vm, f, v);
    }

    /** The next TLB entry, in turn, is replaced by one for the page in frame `f`. */
    method ReplaceEntry(f: nat)
      requires Sound() && f < NUM_PHYS_PAGES && table[f].valid && 0 <= nextTLB < TLB_SIZE
      requires TlbIndex(tlb[..], table[f].virtualPage, 0) == -1
      modifies this`nextTLB, tlb, table
      ensures Sound() && Pages(space, State()) == old(Pages(space, State()))
      ensures forall g :: 0 <= g < NUM_PHYS_PAGES ==> table[g].valid == old(table[g].valid)
      ensures TlbIndex(tlb[..], old(table[f].virtualPage), 0) == old(nextTLB)
      ensures nextTLB == (old(nextTLB) + 1) % TLB_SIZE
    {
      hide Ok, Pages, CleanOk, BackingOk, IsDirty;
      ghost var vm := State();
      Shape(space, vm);
      ReplacedKeeps(space, vm, nextTLB, f);
      if tlb[nextTLB].valid && tlb[nextTLB].dirty {
        var k := SearchForEntry(tlb[nextTLB].virtualPage, space.processID);
        table[k] := table[k].(dirty := tlb[nextTLB].dirty);
      }
      assert table[..] == DropEntry(vm, nextTLB).table;
      UpdateTLBEntry(nextTLB, table[f].physicalPage, table[f].virtualPage, table[f].dirty, false, true);
      assert State() == Replaced(vm, nextTLB, f);
      nextTLB := (nextTLB + 1) % TLB_SIZE;
    }

    /** A frame to load a page into: an empty one, or else the one filled longest ago. */
    method FindFrame() returns (f: int, halted: bool)
      requires Sound() && Queued(-1)
      modifies this`queue, tlb, table, swapFile, swapFileMap.words, pageLocation, swapArray
      ensures halted <==> old(EmptyFrame(table[..], 0)) == -1 && old(OldestIsDirty())
                          && |old(swapFileMap.Bits())| == NUM_SWAP_PAGES
      ensures !halted ==> && Sound() && 0 <= f < NUM_PHYS_PAGES && Queued(f) && Reusable(space, State(), f)
                          && Pages(space, State()) == old(Pages(space, State()))
      ensures !halted ==> forall v :: Frame(v) == old(Frame(v))
      ensures !halted ==> queue + [f] == QueueAfter(old(table[..]), old(queue), -1)
    {
      hide Ok, Pages, Reusable, IsDirty, BackingOk, Distinct, FrameOf;
      Shape(space, State());
      halted := false;
      f := SearchForEmptyEntry();
      if f == -1 {
        assert 0 in queue;
        f, halted := Evict();
      } else {
        CleanIsReusable(space, State(), f);
      }
    }

    /** Brings the page of the faulting address into the TLB, and into memory first if it is not there.
        No page changes. The machine halts exactly if it has run out of room. */
    method HandlePageFault(badVAddr: nat) returns (halted: bool)
      requires Valid() && badVAddr / PAGE_SIZE < space.numPages && !Mapped(badVAddr / PAGE_SIZE)
      modifies this`queue, this`nextTLB, Parts()
      ensures halted <==> old(Exhausted(badVAddr / PAGE_SIZE))
      ensures !halted ==> Valid()
      ensures !halted ==> TlbIndex(tlb[..], badVAddr / PAGE_SIZE, 0) == old(nextTLB)
      ensures !halted ==> nextTLB == (old(nextTLB) + 1) % TLB_SIZE
      ensures !halted ==>
                queue == QueueAfter(old(table[..]), old(queue),
                  FrameOf(old(table[..]), badVAddr / PAGE_SIZE, space.processID, 0))
    {
      hide Ok, Pages, Reusable, IsDirty, BackingOk, Distinct, Replay, AllFit, TlbIndex, FrameOf, Apart;
      Shape(space, State());
      halted := false;
      var vpn := badVAddr / PAGE_SIZE;
      var iptIndex := SearchForEntry(vpn, space.processID);
      if iptIndex == -1 {
        iptIndex, halted := FindFrame();
        if halted {
          return true;
        }
        LoadPage(iptIndex, vpn);
      }
      ReplaceEntry(iptIndex);
    }

    /** The byte of flat memory at an address. */
    ghost function Flat(a: int): (b: int)
      requires Valid() && 0 <= a < PAGE_SIZE * space.numPages
      reads this, Parts()
      ensures 0 <= b < 0x100
    {
      ByteAt(space, Pages(space, State()), a)
    }

    /** The hardware's lookup. Frames in the TLB exist and are not write protected, so the only errors are
        misaligned addresses and pages that are not in the TLB. */
    method Translate(virtAddr: nat, size: nat, writing: bool) returns (exception: ExceptionType, physAddr: int)
      requires Sound() && IsSize(size)
      modifies tlb
      ensures exception == if virtAddr % size != 0 then AddressErrorException
                           else if !old(Mapped(virtAddr / PAGE_SIZE)) then PageFaultException else NoException
      ensures exception != NoException ==> tlb[..] == old(tlb[..])
      ensures exception == NoException ==>
                var i := TlbIndex(old(tlb[..]), virtAddr / PAGE_SIZE, 0);
                && physAddr == old(tlb[i].physicalPage) * PAGE_SIZE + virtAddr % PAGE_SIZE
                && tlb[..] == if writing then old(tlb[..])[i := old(tlb[i]).(dirty := true)] else old(tlb[..])
    {
      hide BackingOk, CleanOk, FrameOf;
      physAddr := 0;
      AlignedMeans(virtAddr, size);
      if (size == 4 && virtAddr % 4 != 0) || (size == 2 && virtAddr % 2 != 0) {
        return AddressErrorException, physAddr;
      }
      var vpn, offset := virtAddr / PAGE_SIZE, virtAddr % PAGE_SIZE;
      var entry := SearchForTLBEntry(vpn);
      if entry == -1 {
        return PageFaultException, physAddr;
      }
      if tlb[entry].readOnly && writing {
        assert false;
      }
      var pageFrame := tlb[entry].physicalPage;
      if pageFrame >= NUM_PHYS_PAGES {
        assert false;
      }
      if writing {
        tlb[entry] := tlb[entry].(dirty := true);
      }
      return NoException, pageFrame * PAGE_SIZE + offset;
    }

    /** Handling an exception: a page fault is repaired, anything else halts the machine. */
    method RaiseException(which: ExceptionType, badVAddr: nat) returns (outcome: Outcome)
      requires Valid() && which != NoException && badVAddr / PAGE_SIZE < space.numPages
      requires which == PageFaultException ==> !Mapped(badVAddr / PAGE_SIZE)
      modifies this`queue, this`nextTLB, Parts()
      ensures outcome != Done
      ensures outcome == Halted <==> which != PageFaultException || old(Exhausted(badVAddr / PAGE_SIZE))
      ensures outcome == Faulted ==> which == PageFaultException && Valid() && Mapped(badVAddr / PAGE_SIZE)
    {
      if which != PageFaultException {
        return Halted;
      }
      var halted := HandlePageFault(badVAddr);
      return if halted then Halted else Faulted;
    }

    /** A load yields what the last stores put into the bytes it covers. */
    method ReadMem(addr: nat, size: nat) returns (outcome: Outcome, value: int32)
      requires Valid() && IsSize(size) && addr / PAGE_SIZE < space.numPages
      modifies this`queue, this`nextTLB, Parts()
      ensures outcome == Done <==> addr % size == 0 && old(Mapped(addr / PAGE_SIZE))
      ensures outcome == Halted <==>
                addr % size != 0 || (!old(Mapped(addr / PAGE_SIZE)) && old(Exhausted(addr / PAGE_SIZE)))
      ensures outcome != Halted ==> Valid()
      ensures outcome == Done ==> addr + size <= PAGE_SIZE * space.numPages && State() == old(State())
      ensures outcome == Done && size == 1 ==> value == if Flat(addr) < 0x80 then Flat(addr) else Flat(addr) - 0x100
      ensures outcome == Done && size == 2 ==> value == Flat(addr) + 0x100 * Flat(addr + 1)
      ensures outcome == Done && size == 4 ==>
                value % 0x1_0000_0000
                == Flat(addr) + 0x100 * Flat(addr + 1) + 0x1_0000 * Flat(addr + 2) + 0x100_0000 * Flat(addr + 3)
      ensures outcome == Faulted ==> Mapped(addr / PAGE_SIZE)
    {
      hide Ok, Pages, Queued, Replay, AllFit, TlbIndex, NoRoom, Apart, Decode, ByteAt, BytesAt, Aligned;
      AlignedMeans(addr, size);
      value := 0;
      ghost var vm := State();
      var exception, physicalAddress := Translate(addr, size, false);
      assert State() == vm;
      if exception != NoException {
        outcome := RaiseException(exception, addr);
        return;
      }
      LoadedBytes(space, vm, addr, size);
      LoadedValue(space, Pages(space, vm), addr, size);
      return Done, Decode(mainMemory[physicalAddress..physicalAddress + size]);
    }

    method PutBytes(physicalAddress: nat, bytes: seq<byte>)
      requires physicalAddress + |bytes| <= mainMemory.Length
      modifies mainMemory
      ensures mainMemory[..] == Splice(old(mainMemory[..]), physicalAddress, bytes)
    {
      forall k | 0 <= k < |bytes| {
        mainMemory[physicalAddress + k] := bytes[k];
      }
    }

    /** A store changes the bytes it covers, in flat memory, and nothing else. */
    method WriteMem(addr: nat, size: nat, value: int32) returns (outcome: Outcome)
      requires Valid() && IsSize(size) && addr / PAGE_SIZE < space.numPages
      modifies this`queue, this`nextTLB, this`writes, Parts()
      ensures outcome == Done <==> addr % size == 0 && old(Mapped(addr / PAGE_SIZE))
      ensures outcome == Halted <==>
                addr % size != 0 || (!old(Mapped(addr / PAGE_SIZE)) && old(Exhausted(addr / PAGE_SIZE)))
      ensures outcome != Halted ==> Valid()
      ensures writes == if outcome == Done then old(writes) + [Store(addr, Encode(value, size))] else old(writes)
      ensures outcome == Done ==> (forall v :: Mapped(v) == old(Mapped(v))) && table[..] == old(table[..])
      ensures outcome == Done ==> addr + size <= PAGE_SIZE * space.numPages && Flat(addr) == value % 0x100
      ensures outcome == Done && size >= 2 ==> Flat(addr + 1) == value / 0x100 % 0x100
      ensures outcome == Done && size == 4 ==>
                Flat(addr + 2) == value / 0x1_0000 % 0x100 && Flat(addr + 3) == value / 0x100_0000 % 0x100
      ensures outcome == Done ==> forall a :: 0 <= a < PAGE_SIZE * space.numPages && !(addr <= a < addr + size) ==>
                Flat(a) == old(Flat(a))
      ensures outcome == Faulted ==> Mapped(addr / PAGE_SIZE)
    {
      hide Ok, Pages, Replay, AllFit, Distinct, TlbIndex, Page, Encode, NoRoom, ByteAt;
      ghost var vm := State();
      Shape(space, vm);
      var exception, physicalAddress := Translate(addr, size, true);
      if exception != NoException {
        assert State() == vm;
        outcome := RaiseException(exception, addr);
        return;
      }
      AlignedMeans(addr, size);
      AlignedInPage(addr, size);
      ghost var i := TlbIndex(vm.tlb, addr / PAGE_SIZE, 0);
      PageIsFrame(space, vm, i);
      var bytes := Encode(value, size);
      PutBytes(physicalAddress, bytes);
      assert State() == Written(vm, i, addr % PAGE_SIZE, bytes);
      WrittenChanges(space, vm, i, addr % PAGE_SIZE, bytes);
      ReplayOne(space, writes, Store(addr, bytes));
      StoredBytes(space, writes, addr, size, value);
      writes := writes + [Store(addr, bytes)];
      return Done;
    }

    method TryByte(addr: nat) returns (outcome: Outcome, data: int32)
      requires Valid() && addr < PAGE_SIZE * space.numPages
      modifies this`queue, this`nextTLB, Parts()
      ensures outcome == Done <==> old(Mapped(addr / PAGE_SIZE))
      ensures outcome == Halted <==> !old(Mapped(addr / PAGE_SIZE)) && old(Exhausted(addr / PAGE_SIZE))
      ensures outcome != Halted ==> Valid()
      ensures outcome == Done ==> data % 0x100 == ByteAt(space, Replay(space, writes), addr)
      ensures outcome == Faulted ==> Mapped(addr / PAGE_SIZE)
    {
      hide Ok, Queued, Replay, TlbIndex, Pages, AllFit, NoRoom, Apart, ByteAt;
      outcome, data := ReadMem(addr, 1);
    }

    /** Reads a byte, trying again until its page is in the TLB: one page fault is enough. */
    method ReadByte(addr: nat) returns (data: int32, halted: bool)
      requires Valid() && addr < PAGE_SIZE * space.numPages
      modifies this`queue, this`nextTLB, Parts()
      ensures halted <==> !old(Mapped(addr / PAGE_SIZE)) && old(Exhausted(addr / PAGE_SIZE))
      ensures !halted ==> Valid() && data % 0x100 == ByteAt(space, Replay(space, writes), addr)
    {
      hide Ok, Queued, Replay, TlbIndex, Pages, AllFit, NoRoom, Apart, ByteAt;
      Shape(space, State());
      ghost var pages := Replay(space, writes);
      var outcome;
      outcome, data := TryByte(addr);
      while outcome == Faulted
        invariant outcome != Halted ==> Valid()
        invariant outcome == Faulted ==> Mapped(addr / PAGE_SIZE)
        invariant outcome == Halted <==> !old(Mapped(addr / PAGE_SIZE)) && old(Exhausted(addr / PAGE_SIZE))
        invariant outcome == Done ==> data % 0x100 == ByteAt(space, pages, addr)
        decreases outcome == Faulted
      {
        outcome, data := TryByte(addr);
      }
      halted := outcome == Halted;
    }

    /** Copies from the user's memory. */
    method Copyin(vaddr: nat, len: int, buf: array<byte>) returns (result: int, halted: bool)
      requires Valid() && buf !in Parts() && len <= buf.Length && vaddr + len <= PAGE_SIZE * space.numPages
      modifies this`queue, this`nextTLB, Parts(), buf
      ensures !halted ==> Valid() && result == len
      ensures !halted ==> forall i :: 0 <= i < len ==> buf[i] == Flat(vaddr + i)
    {
      hide Queued, Replay, TlbIndex, Pages, Ok, AllFit, Apart, NoRoom, ByteAt, FrameOf, EmptyFrame;
      Shape(space, State());
      ghost var pages := Replay(space, writes);
      var n := 0;
      while n < len
        invariant 0 <= n <= (if len < 0 then 0 else len) && Valid()
        invariant forall i :: 0 <= i < n ==> buf[i] == ByteAt(space, pages, vaddr + i)
      {
        var data;
        data, halted := ReadByte(vaddr + n);
        if halted {
          return -1, true;
        }
        ghost var was := buf[..];
        buf[n] := data % 0x100;
        assert buf[..] == was[n := data % 0x100];
        n := n + 1;
      }
      return len, false;
    }

    method WriteByte(addr: nat, c: byte) returns (outcome: Outcome)
      requires Valid() && addr / PAGE_SIZE < space.numPages
      modifies this`queue, this`nextTLB, this`writes, Parts()
      ensures outcome == Done <==> old(Mapped(addr / PAGE_SIZE))
      ensures outcome == Halted ==> old(EmptyFrame(table[..], 0)) == -1
      ensures outcome != Halted ==> Valid()
      ensures writes == if outcome == Done then old(writes) + [Store(addr, [c])] else old(writes)
      ensures outcome == Done ==> (forall v :: Mapped(v) == old(Mapped(v))) && table[..] == old(table[..])
      ensures outcome == Faulted ==> Mapped(addr / PAGE_SIZE)
    {
      hide Queued, Replay, TlbIndex, Pages, Ok, AllFit, NoRoom, Apart;
      if Exhausted(addr / PAGE_SIZE) {
        NoRoomNoFrame(space, State(), queue, addr / PAGE_SIZE);
      }
      EncodeOne(c);
      var value: int := c;
      outcome := WriteMem(addr, 1, if value < 0x80 then value else value - 0x100);
    }

    /** Copies to the user's memory. Unlike Copyin it does not retry: it fails, after the bytes before,
        at the first page that is not in the TLB, although the fault has brought the page in by then. */
    method Copyout(vaddr: nat, len: int, buf: array<byte>) returns (result: int, halted: bool)
      requires Valid() && buf !in Parts() && len <= buf.Length && vaddr + len <= PAGE_SIZE * space.numPages
      modifies this`queue, this`nextTLB, this`writes, Parts()
      ensures !halted && result != -1 <==> forall a :: vaddr <= a < vaddr + len ==> InTlb(old(tlb[..]), a)
      ensures halted ==> old(EmptyFrame(table[..], 0)) == -1
      ensures !halted ==> Valid()
      ensures !halted && result != -1 ==> result == (if len < 0 then 0 else len)
      ensures !halted && result != -1 ==> writes == old(writes) + ByteStores(vaddr, buf[..result])
      ensures !halted && result != -1 ==> forall a :: 0 <= a < PAGE_SIZE * space.numPages ==>
                Flat(a) == if vaddr <= a < vaddr + result then buf[a - vaddr] else old(Flat(a))
      ensures !halted && result == -1 ==>
                exists a :: vaddr <= a < vaddr + len && !InTlb(old(tlb[..]), a)
                  && (forall b :: vaddr <= b < a ==> InTlb(old(tlb[..]), b)) && InTlb(tlb[..], a)
                  && writes == old(writes) + ByteStores(vaddr, buf[..a - vaddr])
    {
      hide Queued, Replay, TlbIndex, Pages, Ok, AllFit, NoRoom, Apart;
      Shape(space, State());
      ghost var before := writes;
      assert writes == before + ByteStores(vaddr, buf[..0]);
      var n := 0;
      while n < len
        invariant 0 <= n <= (if len < 0 then 0 else len) && Valid()
        invariant writes == before + ByteStores(vaddr, buf[..n])
        invariant (forall v :: Mapped(v) == old(Mapped(v))) && table[..] == old(table[..])
        invariant forall a :: vaddr <= a < vaddr + n ==> InTlb(old(tlb[..]), a)
      {
        var c, addr := buf[n], vaddr + n;
        n := n + 1;
        var outcome := WriteByte(addr, c);
        if outcome != Done {
          assert !InTlb(old(tlb[..]), addr);
          return -1, outcome == Halted;
        }
        assert InTlb(old(tlb[..]), addr);
        assert buf[..n][..n - 1] == buf[..n - 1];
      }
      result, halted := n, false;
      StoresOverlay(space, before, vaddr, buf[..n]);
    }
  }

  /** On a machine that has just started, copyout of a single byte fails, although the page is there by the
      time it does. */
  method CopyoutFailsAtFirst(space: Space) returns (m: Machine, result: int)
    requires IsSpace(space) && 0 < space.numPages
    ensures m.Valid() && result == -1 && m.Mapped(0) && m.writes == []
  {
    hide IsSpace;
    m := new Machine(space);
    var buf, halted := new byte[1], false;
    NothingMapped(m.tlb[..]);
    assert !m.Mapped(0) && !InTlb(m.tlb[..], 0);
    assert !m.table[..][0].valid;
    result, halted := m.Copyout(0, 1, buf);
    assert buf[..0] == [];
  }
}

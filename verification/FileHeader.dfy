/** The file header (i-node) of filesys/filehdr.cc: one disk sector holding a size and a table of
    direct data sectors. */
module FileHeaders {
  import opened Sequences
  import opened Bytes
  import opened BitMaps
  import opened Storage

  const NUM_DIRECT := 30
  const MAX_FILE_SIZE := 3840

  /** `divRoundUp(n, SectorSize)`; C division truncates, so a negative size rounds towards zero. */
  function SectorsFor(n: int32): (r: int32)
    ensures SECTOR_SIZE * r - SECTOR_SIZE < n <= SECTOR_SIZE * r
  {
    if n >= 0 then n / SECTOR_SIZE + (if n % SECTOR_SIZE > 0 then 1 else 0) else -(-(n as int) / SECTOR_SIZE)
  }

  function Max0(n: int): nat {
    if n < 0 then 0 else n
  }

  datatype Header = Header(numBytes: int32, numSectors: int32, dataSectors: seq<int32>)

  function EncodeHeader(h: Header): (b: seq<byte>)
    requires |h.dataSectors| == NUM_DIRECT
    ensures |b| == SECTOR_SIZE
  {
    EncodeInts([h.numBytes, h.numSectors] + h.dataSectors)
  }

  function DecodeHeader(b: seq<byte>): (h: Header)
    requires |b| == SECTOR_SIZE
    ensures |h.dataSectors| == NUM_DIRECT
  {
    var words := DecodeInts(b);
    Header(words[0], words[1], words[2..])
  }

  lemma HeaderRoundTrip(h: Header)
    requires |h.dataSectors| == NUM_DIRECT
    ensures DecodeHeader(EncodeHeader(h)) == h
  {
    IntsRoundTrip([h.numBytes, h.numSectors] + h.dataSectors);
  }

  /** Where the fields are in the sector. */
  lemma HeaderLayout(b: seq<byte>, k: nat)
    requires |b| == SECTOR_SIZE && k < NUM_DIRECT
    ensures DecodeHeader(b).numBytes == DecodeInt(b[0..4])
    ensures DecodeHeader(b).numSectors == DecodeInt(b[4..8])
    ensures DecodeHeader(b).dataSectors[k] == DecodeInt(b[8 + 4 * k..12 + 4 * k])
  {
    IntsAt(b, 0);
    IntsAt(b, 1);
    IntsAt(b, 2 + k);
  }

  /** The data sectors in use, in file order. */
  function Data(h: Header): (s: seq<int>)
    requires |h.dataSectors| == NUM_DIRECT && h.numSectors <= NUM_DIRECT
    ensures |s| == Max0(h.numSectors)
  {
    h.dataSectors[..Max0(h.numSectors)]
  }

  /** What FileHeader::Allocate leaves: room for the size, in different sectors that exist. */
  ghost predicate HeaderOk(h: Header) {
    && |h.dataSectors| == NUM_DIRECT
    && h.numBytes <= MAX_FILE_SIZE
    && h.numSectors == SectorsFor(h.numBytes)
    && OnDisk(Data(h))
    && Distinct(Data(h))
  }

  ghost predicate OnDisk(data: seq<int>) {
    forall i :: 0 <= i < |data| ==> 0 <= data[i] < NUM_SECTORS
  }

  /** The sectors `data`, one after the other. */
  ghost function RawBytes(d: seq<seq<byte>>, data: seq<int>): (r: seq<byte>)
    requires IsDisk(d) && OnDisk(data)
    ensures |r| == SECTOR_SIZE * |data|
  {
    if data == [] then [] else RawBytes(d, data[..|data| - 1]) + d[data[|data| - 1]]
  }

  lemma {:induction false} RawSector(d: seq<seq<byte>>, data: seq<int>, i: nat)
    requires IsDisk(d) && OnDisk(data) && i < |data|
    ensures RawBytes(d, data)[..(i + 1) * SECTOR_SIZE] == RawBytes(d, data)[..i * SECTOR_SIZE] + d[data[i]]
    decreases |data|
  {
    if i < |data| - 1 {
      RawSector(d, data[..|data| - 1], i);
    }
  }

  lemma {:induction false} RawUnchanged(d: seq<seq<byte>>, e: seq<seq<byte>>, data: seq<int>)
    requires IsDisk(d) && IsDisk(e) && OnDisk(data)
    requires forall s :: s in data ==> d[s] == e[s]
    ensures RawBytes(d, data) == RawBytes(e, data)
    decreases |data|
  {
    if data != [] {
      RawUnchanged(d, e, data[..|data| - 1]);
    }
  }

  /** Writing the `i`-th sector of a file changes just that stretch of it. */
  lemma {:induction false} RawWrite(d: seq<seq<byte>>, data: seq<int>, i: nat, sector: seq<byte>)
    requires IsDisk(d) && OnDisk(data) && Distinct(data) && i < |data| && |sector| == SECTOR_SIZE
    ensures RawBytes(d[data[i] := sector], data) == Splice(RawBytes(d, data), i * SECTOR_SIZE, sector)
    decreases |data|
  {
    var e, front := d[data[i] := sector], data[..|data| - 1];
    if i == |data| - 1 {
      RawUnchanged(d, e, front);
    } else {
      RawWrite(d, front, i, sector);
    }
  }

  lemma SizeFits(h: Header)
    requires HeaderOk(h)
    ensures Max0(h.numBytes) <= SECTOR_SIZE * |Data(h)|
  {
  }

  /** The file's value: its first `numBytes` bytes. Bytes past that in the last sector are junk. */
  ghost function Contents(d: seq<seq<byte>>, h: Header): (c: seq<byte>)
    requires IsDisk(d) && HeaderOk(h)
    ensures |c| == Max0(h.numBytes)
  {
    SizeFits(h);
    RawBytes(d, Data(h))[..Max0(h.numBytes)]
  }

  /** A file's contents depend on its data sectors only. */
  lemma SameContents(d: seq<seq<byte>>, e: seq<seq<byte>>, h: Header)
    requires IsDisk(d) && IsDisk(e) && HeaderOk(h)
    requires forall s :: s in Elements(Data(h)) ==> d[s] == e[s]
    ensures Contents(d, h) == Contents(e, h)
  {
    forall s | s in Data(h)
      ensures d[s] == e[s]
    {
      assert s in Elements(Data(h));
    }
    RawUnchanged(d, e, Data(h));
  }

  lemma ClearOneMore(marked: set<int>, data: seq<int>, i: nat)
    requires Distinct(data) && Elements(data) <= marked && i < |data|
    ensures data[i] in marked - Elements(data[..i])
    ensures marked - Elements(data[..i]) - {data[i]} == marked - Elements(data[..i + 1])
  {
  }

  lemma NoPicks(marked: set<int>, n: nat)
    ensures Picks(marked, n, 0) == [] && marked + Elements([]) == marked
  {
  }

  class FileHeader {
    var numBytes: int32
    var numSectors: int32
    const dataSectors: array<int32>

    ghost predicate Valid() {
      dataSectors.Length == NUM_DIRECT
    }

    function Value(): Header
      reads this, dataSectors
    {
      Header(numBytes, numSectors, dataSectors[..])
    }

    /** A header starts out as uninitialised memory. */
    constructor ()
      ensures Valid() && fresh(dataSectors)
    {
      dataSectors := new int32[NUM_DIRECT];
    }

    /** The table has room for `NUM_DIRECT` sectors, and the code does not check that the size fits. It
        stores past the end of the table exactly if the disk has room for a size that the table has not:
        then `overrun` is set, and what the program does from there on is undefined. */
    method Allocate(freeMap: BitMap, fileSize: int32) returns (ok: bool, overrun: bool)
      requires Valid() && freeMap.Valid() && freeMap.numBits <= INT_MAX
      modifies this, dataSectors, freeMap.words
      ensures numBytes == fileSize && numSectors == SectorsFor(fileSize)
      ensures ok <==> SectorsFor(fileSize) <= freeMap.numBits - |old(freeMap.Bits())|
      ensures overrun <==> ok && NUM_DIRECT < SectorsFor(fileSize)
      ensures !ok ==> freeMap.Bits() == old(freeMap.Bits())
      ensures ok && !overrun ==>
                && numSectors <= NUM_DIRECT
                && Data(Value()) == Picks(old(freeMap.Bits()), freeMap.numBits, Max0(numSectors))
                && freeMap.Bits() == old(freeMap.Bits()) + Elements(Data(Value()))
    {
      ghost var marked := freeMap.Bits();
      numBytes := fileSize;
      numSectors := SectorsFor(fileSize);
      ok, overrun := true, false;
      var clear := freeMap.NumClear();
      if clear < numSectors {
        return false, false;
      }
      if 0 < numSectors {
        overrun := TakeSectors(freeMap, numSectors);
      } else {
        assert Data(Value()) == [] && marked + Elements([]) == marked;
      }
      assert !overrun ==> Data(Value()) == dataSectors[..Max0(numSectors)];
    }

    /** The loop of Allocate: one Find for each table entry below `n`, up to the first store that the
        table has no entry for. */
    method TakeSectors(freeMap: BitMap, n: nat) returns (overrun: bool)
      requires Valid() && freeMap.Valid() && freeMap.numBits <= INT_MAX
      requires |freeMap.Bits()| + n <= freeMap.numBits
      modifies dataSectors, freeMap.words
      ensures overrun <==> NUM_DIRECT < n
      ensures var k := if overrun then NUM_DIRECT else n;
              && dataSectors[..k] == Picks(old(freeMap.Bits()), freeMap.numBits, k)
              && (!overrun ==> freeMap.Bits() == old(freeMap.Bits()) + Elements(dataSectors[..k]))
    {
      hide FirstClear, SetBits, Range, Picks, Elements;
      ghost var marked, numBits := freeMap.Bits(), freeMap.numBits;
      NoPicks(marked, numBits);
      for i := 0 to n
        invariant i <= NUM_DIRECT
        invariant dataSectors[..i] == Picks(marked, numBits, i)
        invariant freeMap.Bits() == marked + Elements(Picks(marked, numBits, i))
      {
        NextPick(marked, numBits, i);
        var s := freeMap.Find();
        if i == NUM_DIRECT {
          return true;
        }
        dataSectors[i] := s;
        assert dataSectors[..i + 1] == dataSectors[..i] + [s];
      }
      overrun := false;
    }

    /** The source asserts that every data sector is marked when its turn comes, which asks for the
        sectors to be different as well as marked. */
    method Deallocate(freeMap: BitMap)
      requires Valid() && freeMap.Valid() && numSectors <= NUM_DIRECT
      requires Elements(Data(Value())) <= freeMap.Bits() && Distinct(Data(Value()))
      modifies freeMap.words
      ensures freeMap.Bits() == old(freeMap.Bits()) - Elements(Data(Value()))
    {
      ghost var marked, data := freeMap.Bits(), Data(Value());
      var i := 0;
      while i < numSectors
        invariant 0 <= i <= |data|
        invariant freeMap.Bits() == marked - Elements(data[..i])
        decreases numSectors - i
      {
        ClearOneMore(marked, data, i);
        assert dataSectors[i] == data[i];
        var t := freeMap.Test(dataSectors[i]);
        assert t;
        freeMap.Clear(dataSectors[i]);
        i := i + 1;
      }
      assert data[..i] == data;
    }

    /** Reads the header over this object's memory. */
    method FetchFrom(disk: SectorDisk, sector: int)
      requires Valid() && IsDisk(disk.sectors) && 0 <= sector < NUM_SECTORS
      modifies this, dataSectors
      ensures Value() == DecodeHeader(disk.sectors[sector])
    {
      var raw := new byte[SECTOR_SIZE];
      disk.ReadSector(sector, raw, 0);
      assert raw[..] == disk.sectors[sector];
      var words := DecodeInts(raw[..]);
      numBytes, numSectors := words[0], words[1];
      forall i | 0 <= i < NUM_DIRECT {
        dataSectors[i] := words[2 + i];
      }
      assert dataSectors[..] == words[2..];
    }

    method WriteBack(disk: SectorDisk, sector: int)
      requires Valid() && IsDisk(disk.sectors) && 0 <= sector < NUM_SECTORS
      modifies disk
      ensures IsDisk(disk.sectors)
      ensures disk.sectors == old(disk.sectors)[sector := EncodeHeader(Value())]
    {
      var bytes := EncodeHeader(Value());
      var raw := new byte[SECTOR_SIZE](i requires 0 <= i < SECTOR_SIZE => bytes[i]);
      assert raw[0..SECTOR_SIZE] == bytes;
      disk.WriteSector(sector, raw, 0);
    }

    /** Which sector holds the byte at `offset`. */
    function ByteToSector(offset: nat): int
      requires Valid() && offset / SECTOR_SIZE < NUM_DIRECT
      reads this, dataSectors
    {
      dataSectors[offset / SECTOR_SIZE]
    }

    function FileLength(): int
      reads this
    {
      numBytes
    }
  }
}

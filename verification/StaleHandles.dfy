/** Writes through a file that was removed while it was open (filesys/openfile.cc on the file system of
    filesys/filesys.cc): the handle keeps its header, and its sectors may be another file's by then. */
module StaleHandles {
  import opened Bytes
  import opened BitMaps
  import opened Storage
  import opened FileHeaders
  import opened OpenFiles
  import opened Directories
  import opened FileSystemSpec
  import opened DiskLayout
  import opened DiskUpdates
  import opened FileSystems

  /** What WriteAt does to the disk, through any handle with a sound header. */
  ghost predicate Wrote(d: seq<seq<byte>>, e: seq<seq<byte>>, h: Header, position: nat, t: seq<byte>) {
    && IsDisk(d) && IsDisk(e) && HeaderOk(h) && (t != [] ==> position + |t| <= h.numBytes)
    && Contents(e, h) == Overwrite(Contents(d, h), position, t)
    && forall s :: 0 <= s < NUM_SECTORS && s !in SectorsWritten(h, position, |t|) ==> e[s] == d[s]
  }

  /** The sectors that make a listed file what it is: its own, the bitmap's and the directory's. */
  ghost function Needed(d: seq<seq<byte>>, key: Name): set<int>
    requires key in View(d).files
  {
    Sectors(View(d).files[key]) + SystemSectors(d)
  }

  ghost predicate SameOn(d: seq<seq<byte>>, e: seq<seq<byte>>, sectors: set<int>)
    requires IsDisk(d) && IsDisk(e)
  {
    forall s :: s in sectors && 0 <= s < NUM_SECTORS ==> e[s] == d[s]
  }

  lemma NeededOnDisk(d: seq<seq<byte>>, key: Name)
    requires Inv(d) && key in View(d).files
    ensures Needed(d, key) <= AllSectors()
  {
    hide Inv, View, SystemFilesOk, Names, Table, FreeMap, FileOk, Sectors;
    Sound(d);
    SystemOnDisk(d);
    ListedFile(d, key);
  }

  /** The names and the free map depend on the system's sectors only. */
  lemma SystemSame(d: seq<seq<byte>>, e: seq<seq<byte>>)
    requires SystemFilesOk(d) && IsDisk(e) && SameOn(d, e, SystemSectors(d))
    ensures SystemFilesOk(e) && SystemSectors(e) == SystemSectors(d)
    ensures Table(e) == Table(d) && FreeMap(e) == FreeMap(d)
    ensures HeaderAt(e, FREE_MAP_SECTOR) == HeaderAt(d, FREE_MAP_SECTOR)
    ensures HeaderAt(e, DIRECTORY_SECTOR) == HeaderAt(d, DIRECTORY_SECTOR)
  {
    hide SystemFilesOk, HeaderOk, Contents;
    SystemOnDisk(d);
    assert FREE_MAP_SECTOR in SystemSectors(d) && DIRECTORY_SECTOR in SystemSectors(d);
    SystemKept(d, e);
    FileUnchanged(d, e, FREE_MAP_SECTOR);
    FileUnchanged(d, e, DIRECTORY_SECTOR);
  }

  /** A file none of whose sectors is written stays as it is. */
  lemma Untouched(d: seq<seq<byte>>, e: seq<seq<byte>>, key: Name)
    requires Inv(d) && IsDisk(d) && IsDisk(e) && key in View(d).files && SameOn(d, e, Needed(d, key))
    ensures key in View(e).files && View(e).files[key] == View(d).files[key]
  {
    hide Inv, SystemFilesOk, HeaderOk, Contents, FileOk, Names, SystemSectors, Sectors;
    Sound(d);
    NeededOnDisk(d, key);
    SystemSame(d, e);
    ListedFile(d, key);
    FileUnchanged(d, e, SectorOf(Table(d), key));
  }

  // ----- exactly which files are safe -----

  lemma RawAt(d: seq<seq<byte>>, data: seq<int>, i: nat)
    requires IsDisk(d) && OnDisk(data) && i < |data|
    ensures RawBytes(d, data)[i * SECTOR_SIZE..(i + 1) * SECTOR_SIZE] == d[data[i]]
  {
    hide RawBytes;
    RawSector(d, data, i);
    var raw := RawBytes(d, data);
    assert raw[i * SECTOR_SIZE..(i + 1) * SECTOR_SIZE] == raw[..(i + 1) * SECTOR_SIZE][i * SECTOR_SIZE..];
  }

  /** Of the bytes to be written, one that lies in sector `i` of the file. */
  lemma ByteInSector(position: nat, n: nat, i: nat) returns (p: nat)
    requires 0 < n && position / SECTOR_SIZE <= i <= (position + n - 1) / SECTOR_SIZE
    ensures position <= p < position + n && i * SECTOR_SIZE <= p < (i + 1) * SECTOR_SIZE
  {
    p := if position / SECTOR_SIZE == i then position else i * SECTOR_SIZE;
  }

  ghost function WithByte(b: seq<byte>, k: nat, x: byte): (c: seq<byte>)
    requires k < |b|
    ensures |c| == |b| && c[k] == x && forall j :: 0 <= j < |b| && j != k ==> c[j] == b[j]
  {
    b[..k] + [x] + b[k + 1..]
  }

  /** Changing one byte of the file is such a write. */
  lemma OneByteWrite(d: seq<seq<byte>>, h: Header, position: nat, n: nat, i: nat, p: nat, x: byte)
    requires IsDisk(d) && HeaderOk(h) && position + n <= h.numBytes && i < |Data(h)|
    requires position <= p < position + n && i * SECTOR_SIZE <= p < (i + 1) * SECTOR_SIZE
    ensures var e := d[Data(h)[i] := WithByte(d[Data(h)[i]], p - i * SECTOR_SIZE, x)];
            var t := WithByte(Contents(d, h)[position..position + n], p - position, x);
            IsDisk(e) && Contents(e, h) == Overwrite(Contents(d, h), position, t)
  {
    hide RawBytes, Splice, Overwrite;
    var data := Data(h);
    var raw := RawBytes(d, data);
    RawAt(d, data, i);
    RawWrite(d, data, i, WithByte(d[data[i]], p - i * SECTOR_SIZE, x));
    OneByteSpliced(raw, i * SECTOR_SIZE, |Contents(d, h)|, position, n, p, x);
  }

  lemma OneByteSpliced(raw: seq<byte>, base: nat, len: nat, position: nat, n: nat, p: nat, x: byte)
    requires base + SECTOR_SIZE <= |raw| && position + n <= len <= |raw|
    requires position <= p < position + n && base <= p < base + SECTOR_SIZE
    ensures Splice(raw, base, WithByte(raw[base..base + SECTOR_SIZE], p - base, x))[..len]
         == Overwrite(raw[..len], position, WithByte(raw[..len][position..position + n], p - position, x))
  {
    hide Splice, Overwrite, WithByte;
  }

  lemma SectorIndex(h: Header, position: nat, n: nat, s: int) returns (i: nat)
    requires HeaderOk(h) && 0 < n && position + n <= h.numBytes && s in SectorsWritten(h, position, n)
    ensures position / SECTOR_SIZE <= i <= (position + n - 1) / SECTOR_SIZE && i < |Data(h)|
    ensures Data(h)[i] == s && 0 <= s < NUM_SECTORS
  {
    Span(h, position, n);
    var first, last := position / SECTOR_SIZE, (position + n - 1) / SECTOR_SIZE;
    var j :| 0 <= j < last + 1 - first && Data(h)[first..last + 1][j] == s;
    i := first + j;
  }

  /** Every sector that is written can be changed by what is written. */
  lemma SomeWriteChanges(d: seq<seq<byte>>, h: Header, position: nat, n: nat, s: int)
    returns (e: seq<seq<byte>>, t: seq<byte>)
    requires IsDisk(d) && HeaderOk(h) && 0 < n && position + n <= h.numBytes && s in SectorsWritten(h, position, n)
    ensures |t| == n && Wrote(d, e, h, position, t) && 0 <= s < NUM_SECTORS && e[s] != d[s]
  {
    hide SectorsWritten, Contents, Overwrite;
    var i := SectorIndex(h, position, n, s);
    var p := ByteInSector(position, n, i);
    var x: byte := if d[s][p - i * SECTOR_SIZE] == 0 then 1 else 0;
    OneByteWrite(d, h, position, n, i, p, x);
    e := d[s := WithByte(d[s], p - i * SECTOR_SIZE, x)];
    t := WithByte(Contents(d, h)[position..position + n], p - position, x);
    assert e[s][p - i * SECTOR_SIZE] == x;
  }

  /** A listed file is safe from all writes of `n` bytes at `position` through a handle exactly if the
      sectors that these write are none of those that make the file what it is. */
  lemma SafeIff(d: seq<seq<byte>>, h: Header, position: nat, n: nat, key: Name)
    requires Inv(d) && IsDisk(d) && key in View(d).files && HeaderOk(h) && (n > 0 ==> position + n <= h.numBytes)
    ensures (forall e, t :: |t| == n && Wrote(d, e, h, position, t) ==> SameOn(d, e, Needed(d, key)))
            <==> SectorsWritten(h, position, n) !! Needed(d, key)
  {
    hide Inv, View, Needed, SectorsWritten, Contents, Overwrite;
    var w := SectorsWritten(h, position, n);
    if s :| s in w && s in Needed(d, key) {
      NothingWritten(h, position);
      var e, t := SomeWriteChanges(d, h, position, n, s);
      assert !SameOn(d, e, Needed(d, key));
    }
  }

  lemma NothingWritten(h: Header, position: nat)
    requires HeaderOk(h)
    ensures SectorsWritten(h, position, 0) == {}
  {
  }

  // ----- what becomes of the file system -----

  /** No header of a listed file is among the sectors. */
  ghost predicate NoHeaderIn(d: seq<seq<byte>>, w: set<int>) {
    forall k :: k in View(d).files ==> View(d).files[k].sector !in w
  }

  /** The same files in the same sectors; only their contents may differ. */
  ghost predicate SamePlaces(s: FsState, u: FsState) {
    && u.free == s.free && u.system == s.system && u.files.Keys == s.files.Keys
    && forall k :: k in s.files ==>
         && u.files[k] == s.files[k].(contents := u.files[k].contents)
         && |u.files[k].contents| == |s.files[k].contents|
  }

  lemma SamePlacesOk(s: FsState, u: FsState)
    requires FsOk(s) && SamePlaces(s, u)
    ensures FsOk(u)
  {
    hide Owned, Separate;
    OwnedSame(s.files, u.files);
    assert forall k :: k in s.files ==> Sectors(u.files[k]) == Sectors(s.files[k]);
  }

  lemma HeaderStays(d: seq<seq<byte>>, e: seq<seq<byte>>, key: Name)
    requires Inv(d) && IsDisk(e) && key in View(d).files
    requires FileAtOk(d, View(d).files[key].sector) && e[View(d).files[key].sector] == d[View(d).files[key].sector]
    requires Table(e) == Table(d)
    ensures FileAtOk(e, SectorOf(Table(e), key)) && key in View(e).files
    ensures var f, g := View(d).files[key], View(e).files[key];
            g == f.(contents := g.contents) && |g.contents| == |f.contents|
  {
    hide Inv, SystemFilesOk, HeaderOk, Names, Table, FreeMap;
    Sound(d);
    ListedFile(d, key);
  }

  /** Sectors other than the system's and headers may be overwritten: the file system stays sound, and only
      files whose data is among the sectors have other contents. */
  lemma OnlyData(d: seq<seq<byte>>, e: seq<seq<byte>>, w: set<int>)
    requires Inv(d) && IsDisk(d) && IsDisk(e) && w !! SystemSectors(d) && NoHeaderIn(d, w)
    requires forall s :: 0 <= s < NUM_SECTORS && s !in w ==> e[s] == d[s]
    ensures Inv(e) && SamePlaces(View(d), View(e))
    ensures forall k :: k in View(d).files && w !! Elements(View(d).files[k].data) ==>
              k in View(e).files && View(e).files[k] == View(d).files[k]
  {
    hide Inv, View, SystemFilesOk, HeaderOk, HeaderAt, Contents, FsOk, FileOk, Names, UniqueNames, Table, FreeMap,
         SystemSectors;
    Sound(d);
    SystemSame(d, e);
    ViewOnTables(d, e);
    forall k | k in View(d).files
      ensures FileAtOk(e, SectorOf(Table(e), k)) && k in View(e).files
      ensures View(e).files[k] == View(d).files[k].(contents := View(e).files[k].contents)
      ensures |View(e).files[k].contents| == |View(d).files[k].contents|
      ensures w !! Elements(View(d).files[k].data) ==> View(e).files[k] == View(d).files[k]
    {
      ListedFile(d, k);
      SectorHere(d, k);
      HeaderStays(d, e, k);
      if w !! Elements(View(d).files[k].data) {
        Untouched(d, e, k);
      }
    }
    SamePlacesOk(View(d), View(e));
    StandsAgain(e);
  }

  lemma SectorHere(d: seq<seq<byte>>, key: Name)
    requires Inv(d) && key in View(d).files
    ensures View(d).files[key].sector == SectorOf(Table(d), key)
  {
    ListedFile(d, key);
  }

  lemma ViewOnTables(d: seq<seq<byte>>, e: seq<seq<byte>>)
    requires Table(e) == Table(d) && FreeMap(e) == FreeMap(d) && SystemSectors(e) == SystemSectors(d)
    ensures View(e).files.Keys == View(d).files.Keys
    ensures View(e).free == View(d).free && View(e).system == View(d).system
  {
  }

  lemma StandsAgain(e: seq<seq<byte>>)
    requires SystemFilesOk(e) && UniqueNames(Table(e)) && FsOk(View(e))
    requires forall k :: k in View(e).files ==> FileAtOk(e, SectorOf(Table(e), k))
    ensures Inv(e)
  {
    assert StandsFor(e, View(e));
  }

  /** The sectors hold none of the system's files and no listed file's header. */
  ghost predicate Harmless(d: seq<seq<byte>>, w: set<int>) {
    w !! SystemSectors(d) && NoHeaderIn(d, w)
  }

  /** From `d` to `e`, where only sectors in `w` have been written: a file that needs none of them is as it
      was; if moreover they hold nothing but data, the file system is sound, and only files whose data they
      hold have changed, in their contents. */
  ghost predicate Spares(d: seq<seq<byte>>, e: seq<seq<byte>>, w: set<int>) {
    && (forall k :: k in View(d).files && w !! Needed(d, k) ==>
         k in View(e).files && View(e).files[k] == View(d).files[k])
    && (Harmless(d, w) ==>
         && Inv(e) && SamePlaces(View(d), View(e))
         && forall k :: k in View(d).files && w !! Elements(View(d).files[k].data) ==>
              k in View(e).files && View(e).files[k] == View(d).files[k])
  }

  lemma WriteSpares(d: seq<seq<byte>>, e: seq<seq<byte>>, w: set<int>)
    requires Inv(d) && IsDisk(d) && IsDisk(e)
    requires forall s :: 0 <= s < NUM_SECTORS && s !in w ==> e[s] == d[s]
    ensures Spares(d, e, w)
  {
    hide Inv, View, SystemSectors, Needed, SamePlaces;
    forall k | k in View(d).files && w !! Needed(d, k)
      ensures k in View(e).files && View(e).files[k] == View(d).files[k]
    {
      Untouched(d, e, k);
    }
    if Harmless(d, w) {
      OnlyData(d, e, w);
    }
  }

  /** WriteAt through any open handle, of a file that is still listed or not. */
  method WriteStale(fs: FileSystem, file: OpenFile, from: array<byte>, at: nat, numBytes: int, position: int)
    returns (n: nat)
    requires fs.Valid() && file.disk == fs.disk && file.Valid() && 0 <= position && position + numBytes <= INT_MAX
    requires at + TransferCount(file.hdr.numBytes, numBytes, position) <= from.Length
    modifies fs.disk
    ensures file.Valid() && n == TransferCount(file.hdr.numBytes, numBytes, position)
    ensures Wrote(old(fs.disk.sectors), fs.disk.sectors, file.hdr.Value(), position, from[at..at + n])
    ensures Spares(old(fs.disk.sectors), fs.disk.sectors, SectorsWritten(file.hdr.Value(), position, n))
    ensures Harmless(old(fs.disk.sectors), SectorsWritten(file.hdr.Value(), position, n)) ==> fs.Valid()
  {
    hide Inv, View, SystemSectors, SectorsWritten, Contents, Overwrite, SystemFilesOk, HeaderOk, HeaderAt, Spares,
         NoHeaderIn;
    ghost var d := fs.disk.sectors;
    SoundDisk(d);
    n := file.WriteAt(from, at, numBytes, position);
    ghost var w := SectorsWritten(file.hdr.Value(), position, n);
    WriteSpares(d, fs.disk.sectors, w);
    if Harmless(d, w) {
      OnlyData(d, fs.disk.sectors, w);
      SystemSame(d, fs.disk.sectors);
    }
  }

  // ----- a write that lands in another file -----

  /** Which sectors Create takes depends on what is free only. */
  lemma SameSpace(d: seq<seq<byte>>, e: seq<seq<byte>>, size: int32)
    requires Inv(d) && Inv(e) && IsDisk(d) && IsDisk(e) && View(d).free == View(e).free
    ensures FileMade(d, size).sector == FileMade(e, size).sector && FileMade(d, size).data == FileMade(e, size).data
  {
    MapIsWhatIsNotFree(d);
    MapIsWhatIsNotFree(e);
  }

  lemma MapIsWhatIsNotFree(d: seq<seq<byte>>)
    requires Inv(d)
    ensures FreeMap(d) == AllSectors() - View(d).free
  {
    Sound(d);
    FreeCount(d, NUM_SECTORS);
  }

  /** A header leads to the data sectors of a listed file, and has its size. */
  ghost predicate SharesData(d: seq<seq<byte>>, h: Header, key: Name) {
    && HeaderOk(h) && key in View(d).files
    && Data(h) == View(d).files[key].data && Max0(h.numBytes) == |View(d).files[key].contents|
  }

  /** Files of the same size in the same sectors have the same contents, whichever header leads there. */
  lemma SharedContents(d: seq<seq<byte>>, h: Header, key: Name)
    requires Inv(d) && IsDisk(d) && SharesData(d, h, key)
    ensures View(d).files[key].contents == Contents(d, h)
  {
    hide Inv, SystemFilesOk, Names, Table, FreeMap;
    ListedFile(d, key);
  }

  /** The header that a handle has read is that of the file. */
  lemma OpenedHeader(d: seq<seq<byte>>, h: Header, key: Name)
    requires Inv(d) && IsDisk(d) && key in View(d).files && h == HeaderAt(d, View(d).files[key].sector)
    ensures SharesData(d, h, key)
  {
    hide Inv, SystemFilesOk, Names, Table, FreeMap;
    ListedFile(d, key);
  }

  /** The data of a listed file holds no header of a listed file and nothing of the system. */
  lemma DataIsHarmless(d: seq<seq<byte>>, key: Name, w: set<int>)
    requires Inv(d) && key in View(d).files && w <= Elements(View(d).files[key].data)
    ensures Harmless(d, w)
  {
    hide Inv, View, HeaderOk, SystemFilesOk, UniqueNames, Names, Table, FreeMap, SystemSectors;
    ListedApartFromSystem(d, key);
    forall k | k in View(d).files
      ensures View(d).files[k].sector !in w
    {
      ListedFile(d, k);
      if k != key {
        ListedApart(d, key, k);
      }
    }
  }

  /** A write through a handle whose data sectors are by now those of another file of the same size is a
      write to that file. */
  lemma LandsIn(d: seq<seq<byte>>, e: seq<seq<byte>>, h: Header, key: Name, position: nat, t: seq<byte>)
    requires Inv(d) && SharesData(d, h, key) && Wrote(d, e, h, position, t)
    requires Spares(d, e, SectorsWritten(h, position, |t|))
    ensures Harmless(d, SectorsWritten(h, position, |t|))
    ensures View(e).files.Keys == View(d).files.Keys
    ensures (t != [] ==> position + |t| <= |View(d).files[key].contents|) && key in View(e).files
    ensures View(e).files[key].contents == Overwrite(View(d).files[key].contents, position, t)
  {
    hide Inv, View, SectorsWritten, Contents, Overwrite, HeaderOk;
    DataIsHarmless(d, key, SectorsWritten(h, position, |t|));
    SharedContents(d, h, key);
    SharedContents(e, h, key);
  }

  lemma EmptyRoom()
    ensures EmptyState().files == map[] && |EmptyState().free| == NUM_SECTORS - 5
  {
    RangeSize(NUM_SECTORS);
    assert AllSectors() == EmptyState().free + SYSTEM_SECTORS;
  }

  /** Once a file is removed, a new one of the same size gets its sectors. */
  lemma SpaceReused(d: seq<seq<byte>>, e: seq<seq<byte>>, a: Name, size: int32)
    requires Inv(d) && Inv(e) && IsDisk(d) && IsDisk(e)
    requires Enabled(View(d), Op.Create(a, FileMade(d, size)))
    requires View(e) == Apply(Apply(View(d), Op.Create(a, FileMade(d, size))), Op.Remove(a))
    ensures View(e) == View(d) && FileMade(e, size).data == FileMade(d, size).data
  {
    hide View, Inv, Apply, Enabled, FileMade;
    CreateUndone(View(d), a, FileMade(d, size));
    SameSpace(d, e, size);
  }

  const A: seq<byte> := [97]
  const B: seq<byte> := [98]

  /** An open file, removed and replaced by one that gets its sectors. */
  ghost predicate Replaced(fs: FileSystem, file: OpenFile, key: Name)
    reads fs.disk, file.hdr, file.hdr.dataSectors
  {
    file.disk == fs.disk && file.hdr.Valid() && SharesData(fs.disk.sectors, file.hdr.Value(), key)
  }

  /** On an empty file system, create `a`, open it, remove it and create `b`. */
  method Replace(fs: FileSystem) returns (file: OpenFile)
    requires fs.Valid() && fs.State() == EmptyState()
    modifies fs.disk
    ensures fs.Valid() && Replaced(fs, file, Key(B)) && file.hdr.numBytes == 1
    ensures fs.State().files.Keys == {Key(B)}
  {
    hide Inv, View, SystemFilesOk, HeaderOk, HeaderAt, Contents, Names, Table, FreeMap, SystemSectors, FileMade, Key,
         EmptyState, Enabled, IsDisk, SameHeaders;
    EmptyRoom();
    ghost var d := fs.disk.sectors;
    SoundDisk(d);
    var created, overrun := fs.Create(A, 1);
    SoundDisk(fs.disk.sectors);
    file := fs.Open(A);
    OpenedHeader(fs.disk.sectors, file.hdr.Value(), Key(A));
    var removed := fs.Remove(A);
    SoundDisk(fs.disk.sectors);
    SpaceReused(d, fs.disk.sectors, Key(A), 1);
    created, overrun := fs.Create(B, 1);
  }

  /** Writing through the handle of `a` then changes `b`. */
  method HandleOutlivesFile(disk: SectorDisk, x: byte) returns (fs: FileSystem)
    requires IsDisk(disk.sectors)
    modifies disk
    ensures fs.disk == disk && fs.Valid()
    ensures fs.State().files.Keys == {Key(B)} && fs.State().files[Key(B)].contents == [x]
  {
    hide Inv, View, SystemFilesOk, HeaderOk, HeaderAt, Contents, Key, Spares, SectorsWritten, EmptyState, Harmless;
    fs := new FileSystem.Format(disk);
    var file := Replace(fs);
    SoundDisk(disk.sectors);
    ghost var d := disk.sectors;
    var from := new byte[1](_ => x);
    var n := WriteStale(fs, file, from, 0, 1, 0);
    assert from[0..0 + n] == [x];
    LandsIn(d, disk.sectors, file.hdr.Value(), Key(B), 0, [x]);
  }
}

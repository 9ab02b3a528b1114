/** FileSystem of filesys/filesys.cc: Create, Open and Remove over the bitmap and directory that are
    stored as files on the disk they describe. Calls are sequential, as the source assumes. */
module FileSystems {
  import opened Sequences
  import opened Bytes
  import opened BitMaps
  import opened Storage
  import opened FileHeaders
  import opened OpenFiles
  import opened Directories
  import opened FileSystemSpec
  import opened DiskLayout
  import opened DiskUpdates

  /** BitMap::FetchFrom (userprog/bitmap.cc): reads the file over the memory of the words. */
  method FetchBitMap(freeMap: BitMap, file: OpenFile)
    requires freeMap.Valid() && file.Valid() && 4 * freeMap.words.Length <= INT_MAX
    modifies freeMap.words
    ensures var n := TransferCount(file.hdr.numBytes, 4 * freeMap.words.Length, 0);
            var raw := EncodeWords(old(freeMap.words[..]));
            freeMap.words[..] == DecodeWords(Overwrite(raw, 0, Slice(file.Bytes(), 0, n)))
  {
    var size := 4 * freeMap.words.Length;
    var bytes := EncodeWords(freeMap.words[..]);
    var raw := new byte[size](k requires 0 <= k < |bytes| => bytes[k]);
    assert raw[..] == bytes;
    var _ := file.ReadAt(raw, 0, size, 0);
    var words := DecodeWords(raw[..]);
    forall i | 0 <= i < freeMap.words.Length {
      freeMap.words[i] := words[i];
    }
    assert freeMap.words[..] == words;
  }

  /** BitMap::WriteBack. */
  method WriteBackBitMap(freeMap: BitMap, file: OpenFile)
    requires freeMap.Valid() && file.Valid() && 4 * freeMap.words.Length <= INT_MAX
    modifies file.disk
    ensures file.Valid()
    ensures var n := TransferCount(file.hdr.numBytes, 4 * freeMap.words.Length, 0);
            file.Bytes() == Overwrite(old(file.Bytes()), 0, EncodeWords(freeMap.words[..])[..n])
    ensures forall s :: 0 <= s < NUM_SECTORS && s !in Data(file.hdr.Value())
              ==> file.disk.sectors[s] == old(file.disk.sectors)[s]
  {
    var size := 4 * freeMap.words.Length;
    var bytes := EncodeWords(freeMap.words[..]);
    var raw := new byte[size](k requires 0 <= k < |bytes| => bytes[k]);
    assert raw[..] == bytes;
    var n := file.WriteAt(raw, 0, size, 0);
    assert raw[0..n] == bytes[..n];
  }

  lemma OverwriteAll<T>(c: seq<T>, t: seq<T>)
    requires |t| == |c|
    ensures Overwrite(c, 0, t) == t
  {
  }

  lemma SoundDisk(d: seq<seq<byte>>)
    requires Inv(d)
    ensures IsDisk(d) && SystemFilesOk(d) && |Table(d)| == NUM_DIR_ENTRIES
    ensures View(d).free !! SystemSectors(d)
  {
  }

  /** A listed file's header is sound, and all its sectors are marked: Deallocate's assertion holds. */
  lemma ListedIsMarked(d: seq<seq<byte>>, key: Name)
    requires Inv(d) && key in View(d).files
    ensures FileAtOk(d, SectorOf(Table(d), key))
    ensures View(d).files[key] == FileAt(d, SectorOf(Table(d), key))
    ensures Sectors(View(d).files[key]) <= FreeMap(d) && FileOk(View(d).files[key])
  {
    ListedSectors(d, key);
    MarksExactlyWhatIsUsed(d);
  }

  /** What Create does in memory to a table and a free map when it can: the slot and the sectors it
      takes are the first free ones. */
  ghost predicate CanReserve(t: seq<DirectoryEntry>, marked: set<int>, n: nat, key: Name, size: int32) {
    && IndexOf(t, key, 0) == -1
    && FirstClear(marked, 0, n) != -1
    && FreeSlot(t, 0) != -1
    && SectorsFor(size) <= n - |marked + {FirstClear(marked, 0, n)}|
  }

  ghost function Reserved(t: seq<DirectoryEntry>, sector: int32, name: seq<byte>): (u: seq<DirectoryEntry>)
    requires FreeSlot(t, 0) != -1 && IsTable(t)
    ensures IsTable(u)
  {
    var slot := FreeSlot(t, 0);
    t[slot := DirectoryEntry(true, sector, Strncpy(t[slot].name, name))]
  }

  /** The part of Create between reading the free map and writing everything back. */
  method Reserve(directory: Directory, freeMap: BitMap, name: seq<byte>, initialSize: int32)
    returns (success: bool, overrun: bool, sector: int, hdr: FileHeader)
    requires directory.Valid() && freeMap.Valid() && freeMap.numBits <= INT_MAX
    requires IndexOf(directory.table[..], Key(name), 0) == -1
    modifies directory.table, freeMap.words
    ensures success <==>
              && CanReserve(old(directory.table[..]), old(freeMap.Bits()), freeMap.numBits, Key(name), initialSize)
              && SectorsFor(initialSize) <= NUM_DIRECT
    ensures overrun <==>
              && CanReserve(old(directory.table[..]), old(freeMap.Bits()), freeMap.numBits, Key(name), initialSize)
              && NUM_DIRECT < SectorsFor(initialSize)
    ensures fresh(hdr) && hdr.Valid() && fresh(hdr.dataSectors)
    ensures directory.Valid()
    ensures success ==>
              && sector == FirstClear(old(freeMap.Bits()), 0, freeMap.numBits)
              && directory.table[..] == Reserved(old(directory.table[..]), sector, name)
              && hdr.numBytes == initialSize && hdr.numSectors == SectorsFor(initialSize) <= NUM_DIRECT
              && Data(hdr.Value()) == Picks(old(freeMap.Bits()) + {sector}, freeMap.numBits, Max0(hdr.numSectors))
              && freeMap.Bits() == old(freeMap.Bits()) + {sector} + Elements(Data(hdr.Value()))
  {
    hdr := new FileHeader();
    sector := freeMap.Find();
    if sector == -1 {
      return false, false, sector, hdr;
    }
    var added := directory.Add(name, sector);
    if !added {
      return false, false, sector, hdr;
    }
    success, overrun := hdr.Allocate(freeMap, initialSize);
    if overrun {
      success := false;
    }
  }

  lemma CreatableMeans(d: seq<seq<byte>>, key: Name, size: int32, n: nat)
    requires Inv(d) && n == NUM_SECTORS
    ensures CanReserve(Table(d), FreeMap(d), n, key, size) <==>
              && key !in View(d).files
              && |View(d).files| < NUM_DIR_ENTRIES
              && 1 + Max0(SectorsFor(size)) <= |View(d).free|
    ensures |FreeMap(d) + {FirstClear(FreeMap(d), 0, n)}| == n - |View(d).free| + 1
  {
    hide Inv, View, FsOk, SystemFilesOk, UniqueNames, Names, Table, FreeMap, FileAtOk;
    ListedIffFound(d, key);
    FreeCount(d, n);
    FullIffNoneClear(FreeMap(d), n);
    assert FirstClear(FreeMap(d), 0, n) !in FreeMap(d);
  }

  lemma ReservableMeans(d: seq<seq<byte>>, key: Name, size: int32)
    requires CanReserve(Table(d), FreeMap(d), NUM_SECTORS, key, size)
    ensures key !in Names(Table(d)) && FreeSlot(Table(d), 0) != -1
    ensures var sector := FirstClear(FreeMap(d), 0, NUM_SECTORS);
            sector != -1 && SectorsFor(size) <= NUM_SECTORS - |FreeMap(d) + {sector}|
  {
  }

  const SWAP_FILE_SIZE := 1280000

  /** Initialize in threads/system.cc creates the swap file and asserts that this succeeds; on this file
      system it never does. */
  lemma SwapFileNeverFits(d: seq<seq<byte>>, key: Name, n: nat)
    requires Inv(d) && n == NUM_SECTORS
    ensures !CanReserve(Table(d), FreeMap(d), n, key, SWAP_FILE_SIZE)
  {
    CreatableMeans(d, key, SWAP_FILE_SIZE, n);
    FreeCount(d, n);
  }

  lemma FreeCount(d: seq<seq<byte>>, n: nat)
    requires SystemFilesOk(d) && n == NUM_SECTORS
    ensures FreeMap(d) <= Range(n)
    ensures |View(d).free| == n - |FreeMap(d)|
  {
    RangeSize(n);
    assert AllSectors() == View(d).free + FreeMap(d);
  }

  lemma ListedIffFound(d: seq<seq<byte>>, key: Name)
    requires Inv(d)
    ensures SystemFilesOk(d)
    ensures key in View(d).files <==> IndexOf(Table(d), key, 0) != -1
    ensures key in View(d).files ==> 0 <= SectorOf(Table(d), key) < NUM_SECTORS
    ensures |View(d).files| < NUM_DIR_ENTRIES <==> FreeSlot(Table(d), 0) != -1
  {
    assert View(d).files.Keys == Names(Table(d));
    CountNames(Table(d));
  }

  lemma FreshSectors(data: seq<int>, marked: set<int>, n: nat)
    requires FreshPicks(data, marked, n) && n <= NUM_SECTORS
    ensures Distinct(data) && OnDisk(data) && Elements(data) !! marked
  {
  }

  lemma OneMore(marked: set<int>, sector: int, n: nat)
    requires marked <= Range(n) && 0 <= sector < n && sector !in marked
    ensures marked + {sector} <= Range(n)
    ensures |marked + {sector}| == |marked| + 1 <= n
  {
    SubsetSize(marked + {sector}, Range(n));
    RangeSize(n);
  }

  /** The header that Allocate fills in, given the free map after the header's own sector is taken,
      describes a proper new file. */
  lemma NewHeader(marked: set<int>, sector: int, h: Header, n: nat)
    requires n <= NUM_SECTORS && marked <= Range(n) && 0 <= sector < n && sector !in marked
    requires |h.dataSectors| == NUM_DIRECT && h.numBytes <= MAX_FILE_SIZE && h.numSectors == SectorsFor(h.numBytes)
    requires Data(h) == Picks(marked + {sector}, n, Max0(h.numSectors))
    requires h.numSectors < n - |marked|
    ensures HeaderOk(h)
    ensures Elements(Data(h)) !! marked + {sector}
  {
    hide Picks, FreshPicks, Range;
    OneMore(marked, sector, n);
    PicksAreFresh(marked + {sector}, n, Max0(h.numSectors));
    FreshSectors(Data(h), marked + {sector}, n);
  }

  /** The file that Create makes of a given size. */
  ghost function FileMade(d: seq<seq<byte>>, size: int32): File
    requires IsDisk(d)
  {
    var sector := FirstClear(FreeMap(d), 0, NUM_SECTORS);
    var data := Picks(FreeMap(d) + {sector}, NUM_SECTORS, Max0(SectorsFor(size)));
    var fits := OnDisk(data) && Max0(size) <= SECTOR_SIZE * |data|;
    File(sector, data, if fits then RawBytes(d, data)[..Max0(size)] else [])
  }

  /** Storing what Reserve prepared is what CreateRefines speaks of. */
  lemma CreateDone(d: seq<seq<byte>>, e: seq<seq<byte>>, sector: int32, name: seq<byte>, h: Header, words: seq<uint32>)
    requires Inv(d) && IsDisk(d) && IsDisk(e) && HeaderOk(h) && Key(name) !in Names(Table(d))
    requires FreeSlot(Table(d), 0) != -1
    requires 0 <= sector < NUM_SECTORS && FileOk(NewFile(d, sector, h))
    requires Sectors(NewFile(d, sector, h)) <= View(d).free
    requires e[sector] == EncodeHeader(h)
    requires forall x :: 0 <= x < NUM_SECTORS && x != sector && x !in SystemData(d) ==> e[x] == d[x]
    requires FileAt(e, DIRECTORY_SECTOR).contents == EncodeTable(Reserved(Table(d), sector, name))
    requires FileAt(e, FREE_MAP_SECTOR).contents == EncodeWords(words) && BITS_IN_WORD * |words| == NUM_SECTORS
    requires SetBits(words, NUM_SECTORS) == FreeMap(d) + Sectors(NewFile(d, sector, h))
    ensures Enabled(View(d), Op.Create(Key(name), NewFile(d, sector, h)))
    ensures Inv(e) && View(e) == Apply(View(d), Op.Create(Key(name), NewFile(d, sector, h)))
    ensures SameHeaders(d, e)
  {
    hide Inv, View, Apply, Enabled, SameHeaders, HeaderOk, FileOk, Names, Table, FreeMap, FileAt, SystemData,
         SystemFilesOk, EncodeTable, EncodeWords, EncodeHeader, Key, SetBits, Strncpy, Sectors, Contents,
         HeaderAt, Zeros,
         FreeSlot;
    SoundDisk(d);
    var slot := FreeSlot(Table(d), 0);
    assert IsEntry(Table(d)[slot]);
    StrncpyKey(Table(d)[slot].name, name);
    var entry := DirectoryEntry(true, sector, Strncpy(Table(d)[slot].name, name));
    assert Reserved(Table(d), sector, name) == Table(d)[slot := entry];
    CreateRefines(d, e, slot, entry, h, words);
  }

  lemma NewFileSectors(d: seq<seq<byte>>, sector: int, h: Header, marked: set<int>)
    requires IsDisk(d) && HeaderOk(h) && sector !in Elements(Data(h))
    ensures FileOk(NewFile(d, sector, h))
    ensures Sectors(NewFile(d, sector, h)) == {sector} + Elements(Data(h))
    ensures marked + {sector} + Elements(Data(h)) == marked + Sectors(NewFile(d, sector, h))
  {
  }

  lemma ReservedOk(d: seq<seq<byte>>, sector: int, h: Header, size: int32, n: nat)
    requires SystemFilesOk(d) && n == NUM_SECTORS && sector == FirstClear(FreeMap(d), 0, n) != -1
    requires h.numSectors <= n - |FreeMap(d) + {sector}|
    requires |h.dataSectors| == NUM_DIRECT && h.numBytes == size && h.numSectors == SectorsFor(size) <= NUM_DIRECT
    requires Data(h) == Picks(FreeMap(d) + {sector}, n, Max0(h.numSectors))
    ensures HeaderOk(h) && 0 <= sector < n && sector !in Elements(Data(h))
    ensures {sector} + Elements(Data(h)) <= View(d).free
  {
    FreeCount(d, n);
    NewHeader(FreeMap(d), sector, h, n);
    DataOnDisk(h);
    FreeSectors(d, {sector} + Elements(Data(h)));
  }

  lemma DataOnDisk(h: Header)
    requires HeaderOk(h)
    ensures Elements(Data(h)) <= AllSectors()
  {
  }

  lemma FreeSectors(d: seq<seq<byte>>, s: set<int>)
    requires s !! FreeMap(d) && s <= AllSectors()
    ensures s <= View(d).free
  {
  }

  lemma ReservedFile(d: seq<seq<byte>>, sector: int, h: Header, size: int32)
    requires IsDisk(d) && HeaderOk(h) && h.numBytes == size && sector == FirstClear(FreeMap(d), 0, NUM_SECTORS)
    requires sector !in Elements(Data(h))
    requires Data(h) == Picks(FreeMap(d) + {sector}, NUM_SECTORS, Max0(h.numSectors))
    ensures NewFile(d, sector, h) == FileMade(d, size) && FileOk(FileMade(d, size))
  {
  }

  lemma SameDisk(d: seq<seq<byte>>)
    ensures SameHeaders(d, d)
  {
  }

  /** What the new file is like, and how many sectors it takes. */
  lemma CreateMade(d: seq<seq<byte>>, key: Name, size: int32)
    requires Inv(d) && Enabled(View(d), Op.Create(key, FileMade(d, size)))
    ensures var u := Apply(View(d), Op.Create(key, FileMade(d, size)));
            && key in u.files && |u.files[key].contents| == Max0(size)
            && |u.free| == |View(d).free| - (1 + Max0(SectorsFor(size)))
  {
    hide View, Inv, FsOk;
    Sound(d);
    CreateTakes(View(d), key, FileMade(d, size));
    MadeSize(d, key, size);
  }

  lemma MadeSize(d: seq<seq<byte>>, key: Name, size: int32)
    requires IsDisk(d) && FileOk(FileMade(d, size)) && Sectors(FileMade(d, size)) <= AllSectors()
    ensures |FileMade(d, size).contents| == Max0(size)
  {
  }

  lemma WriteKept(d: seq<seq<byte>>, e: seq<seq<byte>>, key: Name, position: nat, bytes: seq<byte>)
    requires Inv(d) && IsDisk(e) && key in View(d).files
    requires bytes != [] ==> position + |bytes| <= |View(d).files[key].contents|
    requires var s := View(d).files[key].sector;
             && FileAtOk(d, s)
             && Contents(e, HeaderAt(d, s)) == Overwrite(Contents(d, HeaderAt(d, s)), position, bytes)
             && forall x :: 0 <= x < NUM_SECTORS && x !in Data(HeaderAt(d, s)) ==> e[x] == d[x]
    ensures Inv(e) && View(e) == Apply(View(d), Op.Write(key, position, bytes))
    ensures SameHeaders(d, e)
    ensures HeaderAt(e, FREE_MAP_SECTOR) == HeaderAt(d, FREE_MAP_SECTOR)
    ensures HeaderAt(e, DIRECTORY_SECTOR) == HeaderAt(d, DIRECTORY_SECTOR)
    ensures key in View(e).files && View(e).files[key].sector == View(d).files[key].sector
    ensures HeaderAt(e, View(d).files[key].sector) == HeaderAt(d, View(d).files[key].sector)
  {
    hide Inv, View, HeaderOk, SystemFilesOk, Sectors, Overwrite, Names, Table, FreeMap, FileOk, Contents, SameHeaders;
    var f := View(d).files[key];
    ListedFile(d, key);
    DataWrittenTo(d, e, key);
    WriteRefines(d, e, key, position, bytes);
    HeadersKept(d, e, key);
  }

  lemma DataWrittenTo(d: seq<seq<byte>>, e: seq<seq<byte>>, key: Name)
    requires Inv(d) && IsDisk(e) && key in View(d).files
    requires FileAtOk(d, View(d).files[key].sector)
    requires forall x :: 0 <= x < NUM_SECTORS && x !in Data(HeaderAt(d, View(d).files[key].sector)) ==> e[x] == d[x]
    ensures DataWritten(d, e, key)
    ensures e[View(d).files[key].sector] == d[View(d).files[key].sector]
  {
    hide Inv, View, SystemFilesOk, Names, Table, FreeMap;
    ListedFile(d, key);
  }

  lemma HeadersKept(d: seq<seq<byte>>, e: seq<seq<byte>>, key: Name)
    requires Inv(d) && DataWritten(d, e, key)
    ensures HeaderAt(e, FREE_MAP_SECTOR) == HeaderAt(d, FREE_MAP_SECTOR)
    ensures HeaderAt(e, DIRECTORY_SECTOR) == HeaderAt(d, DIRECTORY_SECTOR)
  {
    hide Inv, View, SystemFilesOk, Names, Table, FreeMap;
    ListedApartFromSystem(d, key);
    SystemOnDisk(d);
    assert FREE_MAP_SECTOR in SystemSectors(d) && DIRECTORY_SECTOR in SystemSectors(d);
  }

  /** The first part of formatting: headers and data of the bitmap and the directory take the first
      five sectors, and the headers go to disk. The source asserts that there is room. */
  method FormatHeaders(disk: SectorDisk) returns (freeMap: BitMap)
    requires IsDisk(disk.sectors)
    modifies disk
    ensures fresh(freeMap) && freeMap.Valid() && fresh(freeMap.words)
    ensures freeMap.numBits == NUM_SECTORS && freeMap.Bits() == SYSTEM_SECTORS
    ensures SystemFilesOk(disk.sectors) && SystemSectors(disk.sectors) == SYSTEM_SECTORS
  {
    hide SystemFilesOk, SystemSectors, Picks, Elements;
    FirstSectors(NUM_SECTORS);
    freeMap := new BitMap(NUM_SECTORS);
    freeMap.Mark(FREE_MAP_SECTOR);
    freeMap.Mark(DIRECTORY_SECTOR);
    assert freeMap.Bits() == {0, 1};
    var mapHdr := AllocateSystemFile(freeMap, FREE_MAP_FILE_SIZE, {0, 1}, [2], {0, 1, 2});
    var dirHdr := AllocateSystemFile(freeMap, DIRECTORY_FILE_SIZE, {0, 1, 2}, [3, 4], SYSTEM_SECTORS);
    StoreSystemHeaders(disk, mapHdr, dirHdr);
  }

  method StoreSystemHeaders(disk: SectorDisk, mapHdr: FileHeader, dirHdr: FileHeader)
    requires IsDisk(disk.sectors) && mapHdr.Valid() && dirHdr.Valid()
    requires mapHdr.numBytes == FREE_MAP_FILE_SIZE && mapHdr.numSectors == 1 && Data(mapHdr.Value()) == [2]
    requires dirHdr.numBytes == DIRECTORY_FILE_SIZE && dirHdr.numSectors == 2 && Data(dirHdr.Value()) == [3, 4]
    modifies disk
    ensures SystemFilesOk(disk.sectors) && SystemSectors(disk.sectors) == SYSTEM_SECTORS
  {
    mapHdr.WriteBack(disk, FREE_MAP_SECTOR);
    dirHdr.WriteBack(disk, DIRECTORY_SECTOR);
    FreshHeaders(disk.sectors, mapHdr.Value(), dirHdr.Value());
  }

  /** Allocates the data of one of the two system files, and asserts that this succeeds. */
  method AllocateSystemFile(freeMap: BitMap, size: int32, ghost marked: set<int>, ghost data: seq<int>,
                            ghost after: set<int>)
    returns (hdr: FileHeader)
    requires freeMap.Valid() && freeMap.numBits == NUM_SECTORS && freeMap.Bits() == marked
    requires |marked| <= 3 && 0 < size <= DIRECTORY_FILE_SIZE
    requires data == Picks(marked, NUM_SECTORS, Max0(SectorsFor(size))) && after == marked + Elements(data)
    modifies freeMap.words
    ensures freeMap.Bits() == after
    ensures fresh(hdr) && hdr.Valid() && fresh(hdr.dataSectors)
    ensures hdr.numBytes == size && hdr.numSectors == SectorsFor(size) <= NUM_DIRECT && Data(hdr.Value()) == data
  {
    hdr := new FileHeader();
    var fits, overrun := hdr.Allocate(freeMap, size);
    assert fits && !overrun;
  }

  class FileSystem {
    const disk: SectorDisk
    const freeMapFile: OpenFile
    const directoryFile: OpenFile

    /** The two open files are those that describe this disk. */
    ghost predicate Attached()
      reads disk, freeMapFile.hdr, freeMapFile.hdr.dataSectors, directoryFile.hdr, directoryFile.hdr.dataSectors
    {
      && freeMapFile.disk == disk && freeMapFile.hdr.Valid()
      && directoryFile.disk == disk && directoryFile.hdr.Valid()
      && freeMapFile.hdr.Value() == HeaderAt(disk.sectors, FREE_MAP_SECTOR)
      && directoryFile.hdr.Value() == HeaderAt(disk.sectors, DIRECTORY_SECTOR)
    }

    ghost predicate Valid()
      reads disk, freeMapFile.hdr, freeMapFile.hdr.dataSectors, directoryFile.hdr, directoryFile.hdr.dataSectors
    {
      Attached() && Inv(disk.sectors)
    }

    ghost function State(): FsState
      reads disk
    {
      View(disk.sectors)
    }

    /** Puts an empty file system on a disk. */
    constructor Format(disk: SectorDisk)
      requires IsDisk(disk.sectors)
      modifies disk
      ensures this.disk == disk && Valid()
      ensures State() == EmptyState()
    {
      var freeMap := FormatHeaders(disk);
      var directory := new Directory(NUM_DIR_ENTRIES);
      this.disk := disk;
      freeMapFile := new OpenFile(disk, FREE_MAP_SECTOR);
      directoryFile := new OpenFile(disk, DIRECTORY_SECTOR);
      new;
      FlushFreeMap(freeMap);
      FlushDirectory(directory);
      FormatReaches(disk.sectors, directory.table[..], freeMap.words[..]);
    }

    /** Opens the two files of a disk that holds a file system. */
    constructor Mount(disk: SectorDisk)
      requires Inv(disk.sectors)
      ensures this.disk == disk && Valid()
    {
      this.disk := disk;
      freeMapFile := new OpenFile(disk, FREE_MAP_SECTOR);
      directoryFile := new OpenFile(disk, DIRECTORY_SECTOR);
    }

    /** The directory as stored. */
    method FetchDirectory() returns (directory: Directory)
      requires Attached() && SystemFilesOk(disk.sectors)
      ensures fresh(directory) && directory.Valid() && fresh(directory.table)
      ensures directory.tableSize == NUM_DIR_ENTRIES && directory.table[..] == Table(disk.sectors)
    {
      directory := new Directory(NUM_DIR_ENTRIES);
      ghost var before, stored := EncodeTable(directory.table[..]), directoryFile.Bytes();
      directory.FetchFrom(directoryFile);
      OverwriteAll(before, stored);
      assert Slice(stored, 0, DIRECTORY_FILE_SIZE) == stored;
    }

    /** The free map as stored. */
    method FetchFreeMap() returns (freeMap: BitMap)
      requires Attached() && SystemFilesOk(disk.sectors)
      ensures fresh(freeMap) && freeMap.Valid() && fresh(freeMap.words)
      ensures freeMap.numBits == NUM_SECTORS && freeMap.Bits() == FreeMap(disk.sectors)
    {
      freeMap := new BitMap(NUM_SECTORS);
      assert freeMap.words.Length == NUM_SECTORS / BITS_IN_WORD;
      ghost var before, stored := EncodeWords(freeMap.words[..]), freeMapFile.Bytes();
      FetchBitMap(freeMap, freeMapFile);
      OverwriteAll(before, stored);
      assert Slice(stored, 0, FREE_MAP_FILE_SIZE) == stored;
      assert freeMap.words[..] == DecodeWords(stored);
      assert stored == FileAt(disk.sectors, FREE_MAP_SECTOR).contents;
    }


    /** Stores a directory; the bitmap file and all other sectors stay as they are. */
    method FlushDirectory(directory: Directory)
      requires Attached() && SystemFilesOk(disk.sectors)
      requires directory.Valid() && directory.tableSize == NUM_DIR_ENTRIES
      modifies disk
      ensures Attached() && IsDisk(disk.sectors) && SystemFilesOk(disk.sectors)
      ensures FileAt(disk.sectors, DIRECTORY_SECTOR).contents == EncodeTable(directory.table[..])
      ensures FileAt(disk.sectors, FREE_MAP_SECTOR) == old(FileAt(disk.sectors, FREE_MAP_SECTOR))
      ensures SystemData(disk.sectors) == old(SystemData(disk.sectors))
      ensures SystemSectors(disk.sectors) == old(SystemSectors(disk.sectors))
      ensures forall x :: 0 <= x < NUM_SECTORS && x !in SystemData(disk.sectors) ==>
                disk.sectors[x] == old(disk.sectors)[x]
    {
      ghost var d := disk.sectors;
      directory.WriteBack(directoryFile);
      OverwriteAll(FileAt(d, DIRECTORY_SECTOR).contents, EncodeTable(directory.table[..]));
      SystemHeadersApart(d);
      SystemKept(d, disk.sectors);
      SectorsOnDisk(d, FREE_MAP_SECTOR);
      FileUnchanged(d, disk.sectors, FREE_MAP_SECTOR);
    }

    /** Stores a free map; the directory file and all other sectors stay as they are. */
    method FlushFreeMap(freeMap: BitMap)
      requires Attached() && SystemFilesOk(disk.sectors)
      requires freeMap.Valid() && freeMap.numBits == NUM_SECTORS
      modifies disk
      ensures Attached() && IsDisk(disk.sectors) && SystemFilesOk(disk.sectors)
      ensures FileAt(disk.sectors, FREE_MAP_SECTOR).contents == EncodeWords(freeMap.words[..])
      ensures FileAt(disk.sectors, DIRECTORY_SECTOR) == old(FileAt(disk.sectors, DIRECTORY_SECTOR))
      ensures SystemData(disk.sectors) == old(SystemData(disk.sectors))
      ensures SystemSectors(disk.sectors) == old(SystemSectors(disk.sectors))
      ensures forall x :: 0 <= x < NUM_SECTORS && x !in SystemData(disk.sectors) ==>
                disk.sectors[x] == old(disk.sectors)[x]
    {
      ghost var d := disk.sectors;
      WriteBackBitMap(freeMap, freeMapFile);
      OverwriteAll(FileAt(d, FREE_MAP_SECTOR).contents, EncodeWords(freeMap.words[..]));
      SystemHeadersApart(d);
      SystemKept(d, disk.sectors);
      SectorsOnDisk(d, DIRECTORY_SECTOR);
      FileUnchanged(d, disk.sectors, DIRECTORY_SECTOR);
    }

    /** The last part of Create: the header, the directory and the free map go to disk. */
    method StoreNewFile(sector: int, hdr: FileHeader, directory: Directory, freeMap: BitMap)
      requires Attached() && SystemFilesOk(disk.sectors)
      requires hdr.Valid() && 0 <= sector < NUM_SECTORS && sector !in SystemSectors(disk.sectors)
      requires directory.Valid() && directory.tableSize == NUM_DIR_ENTRIES
      requires freeMap.Valid() && freeMap.numBits == NUM_SECTORS
      modifies disk
      ensures Attached() && IsDisk(disk.sectors)
      ensures disk.sectors[sector] == EncodeHeader(hdr.Value())
      ensures FileAt(disk.sectors, DIRECTORY_SECTOR).contents == EncodeTable(directory.table[..])
      ensures FileAt(disk.sectors, FREE_MAP_SECTOR).contents == EncodeWords(freeMap.words[..])
      ensures forall x :: 0 <= x < NUM_SECTORS && x != sector && x !in old(SystemData(disk.sectors))
                ==> disk.sectors[x] == old(disk.sectors)[x]
    {
      ghost var d := disk.sectors;
      assert FREE_MAP_SECTOR in SystemSectors(d) && DIRECTORY_SECTOR in SystemSectors(d);
      hdr.WriteBack(disk, sector);
      SystemKept(d, disk.sectors);
      assert sector !in SystemData(d);
      FlushDirectory(directory);
      FlushFreeMap(freeMap);
    }

    /** What remains to be done once the slot and the sectors are reserved in memory. */
    method CommitCreate(name: seq<byte>, size: int32, sector: int, hdr: FileHeader, directory: Directory,
                        freeMap: BitMap)
      requires Attached() && Inv(disk.sectors)
      requires CanReserve(Table(disk.sectors), FreeMap(disk.sectors), NUM_SECTORS, Key(name), size)
      requires hdr.Valid() && sector == FirstClear(FreeMap(disk.sectors), 0, NUM_SECTORS)
      requires hdr.numBytes == size && hdr.numSectors == SectorsFor(size) <= NUM_DIRECT
      requires Data(hdr.Value()) == Picks(FreeMap(disk.sectors) + {sector}, NUM_SECTORS, Max0(hdr.numSectors))
      requires directory.Valid() && directory.table[..] == Reserved(Table(disk.sectors), sector, name)
      requires directory.tableSize == NUM_DIR_ENTRIES && freeMap.Valid() && freeMap.numBits == NUM_SECTORS
      requires freeMap.Bits() == FreeMap(disk.sectors) + {sector} + Elements(Data(hdr.Value()))
      modifies disk
      ensures Attached() && Inv(disk.sectors)
      ensures Enabled(old(State()), Op.Create(Key(name), FileMade(old(disk.sectors), size)))
      ensures State() == Apply(old(State()), Op.Create(Key(name), FileMade(old(disk.sectors), size)))
      ensures SameHeaders(old(disk.sectors), disk.sectors)
    {
      hide Apply, Enabled, SameHeaders, Inv, HeaderOk, FileOk, View, SystemFilesOk, Reserved, Picks, FirstClear,
           Elements, FileMade, NewFile, FreeMap, Table, FileAt, Names, FreeSlot, Key, SetBits, EncodeTable,
           EncodeWords, EncodeHeader, Data, SystemData, Sectors;
      SoundDisk(disk.sectors);
      ghost var d, h := disk.sectors, hdr.Value();
      ReservableMeans(d, Key(name), size);
      ReservedOk(d, sector, h, size, NUM_SECTORS);
      ReservedFile(d, sector, h, size);
      NewFileSectors(d, sector, h, FreeMap(d));
      ghost var words := freeMap.words[..];
      assert BITS_IN_WORD * |words| == NUM_SECTORS;
      assert SetBits(words, NUM_SECTORS) == FreeMap(d) + Sectors(NewFile(d, sector, h));
      assert sector in View(d).free;
      StoreNewFile(sector, hdr, directory, freeMap);
      CreateDone(d, disk.sectors, sector, name, h, words);
    }

    /** Creates a file of the given size. It fails, changing nothing on the disk, exactly if the name is
        taken, the directory is full or there is no room for the header and the data; otherwise header
        and data take the first free sectors. The data sectors are not cleared. Exactly if it should
        succeed with more data sectors than a header has entries for, it runs past the header's table
        in memory (`overrun`), before it has written anything to the disk. */
    method Create(name: seq<byte>, initialSize: int32) returns (success: bool, overrun: bool)
      requires Valid()
      modifies disk
      ensures Valid()
      ensures success || overrun <==> && Key(name) !in old(State()).files
                                      && |old(State()).files| < NUM_DIR_ENTRIES
                                      && 1 + Max0(SectorsFor(initialSize)) <= |old(State()).free|
      ensures overrun <==> (success || overrun) && NUM_DIRECT < SectorsFor(initialSize)
      ensures success ==> !overrun
      ensures !success ==> disk.sectors == old(disk.sectors)
      ensures success ==>
                && Enabled(old(State()), Op.Create(Key(name), FileMade(old(disk.sectors), initialSize)))
                && State() == Apply(old(State()), Op.Create(Key(name), FileMade(old(disk.sectors), initialSize)))
                && Key(name) in State().files && |State().files[Key(name)].contents| == Max0(initialSize)
                && |State().free| == |old(State()).free| - (1 + Max0(SectorsFor(initialSize)))
      ensures SameHeaders(old(disk.sectors), disk.sectors)
    {
      hide Inv, SystemFilesOk, Apply, View, Enabled, SameHeaders, FileMade, Key, Picks, FirstClear, HeaderAt, Contents,
           Reserved, Elements, IndexOf, Names, CanReserve;
      ghost var d := disk.sectors;
      SameDisk(d);
      CreatableMeans(disk.sectors, Key(name), initialSize, NUM_SECTORS);
      ListedIffFound(disk.sectors, Key(name));
      success, overrun := false, false;
      var directory := FetchDirectory();
      var found := directory.Find(name);
      if found == -1 {
        var freeMap := FetchFreeMap();
        var sector, hdr;
        success, overrun, sector, hdr := Reserve(directory, freeMap, name, initialSize);
        assert Attached();
        if success {
          CommitCreate(name, initialSize, sector, hdr, directory, freeMap);
          CreateMade(d, Key(name), initialSize);
        }
      }
    }

    /** What remains to be done once the name and the sectors are released in memory. */
    method CommitRemove(key: Name, directory: Directory, freeMap: BitMap)
      requires Attached() && Inv(disk.sectors) && key in State().files
      requires directory.Valid() && directory.tableSize == NUM_DIR_ENTRIES
      requires directory.table[..] == Without(Table(disk.sectors), key)
      requires freeMap.Valid() && freeMap.numBits == NUM_SECTORS
      requires freeMap.Bits() == FreeMap(disk.sectors) - Sectors(State().files[key])
      modifies disk
      ensures Attached() && Inv(disk.sectors)
      ensures State() == Apply(old(State()), Op.Remove(key))
      ensures SameHeaders(old(disk.sectors), disk.sectors)
    {
      hide Inv, SameHeaders, View, SystemFilesOk, HeaderAt, Table, FreeMap, FileAt, Names, Key, IndexOf, SystemData,
           Contents, Apply, EncodeTable, EncodeWords, SetBits;
      ghost var d := disk.sectors;
      SoundDisk(d);
      FlushFreeMap(freeMap);
      FlushDirectory(directory);
      RemoveRefines(d, disk.sectors, key, freeMap.words[..]);
    }

    /** The free map as it is without the sectors of the file whose header is in `sector`. */
    method FreeSectorsOf(sector: int, ghost key: Name) returns (freeMap: BitMap)
      requires Valid() && key in State().files && sector == SectorOf(Table(disk.sectors), key)
      ensures fresh(freeMap) && freeMap.Valid() && fresh(freeMap.words) && freeMap.numBits == NUM_SECTORS
      ensures freeMap.Bits() == FreeMap(disk.sectors) - Sectors(State().files[key])
    {
      hide Inv, SystemFilesOk, View, Table, FreeMap, Names, Key, IndexOf, SystemData, Contents, DecodeHeader, SetBits,
           Range;
      SoundDisk(disk.sectors);
      ListedIsMarked(disk.sectors, key);
      var fileHdr := new FileHeader();
      fileHdr.FetchFrom(disk, sector);
      freeMap := FetchFreeMap();
      fileHdr.Deallocate(freeMap);
      freeMap.Clear(sector);
    }

    /** Removes a file, if there is one of that name: its name leaves the directory, and its sectors are
        free again. */
    method Remove(name: seq<byte>) returns (success: bool)
      requires Valid()
      modifies disk
      ensures Valid()
      ensures success <==> Key(name) in old(State()).files
      ensures !success ==> disk.sectors == old(disk.sectors)
      ensures State() == Apply(old(State()), Op.Remove(Key(name)))
      ensures SameHeaders(old(disk.sectors), disk.sectors)
    {
      hide Inv, SameHeaders, SystemFilesOk, View, Table, FreeMap, Names, Key, IndexOf, SystemData, Contents,
           DecodeHeader, SetBits, Range;
      SameDisk(disk.sectors);
      ListedIffFound(disk.sectors, Key(name));
      success := false;
      var directory := FetchDirectory();
      var sector := directory.Find(name);
      if sector != -1 {
        var freeMap := FreeSectorsOf(sector, Key(name));
        var _ := directory.Remove(name);
        CommitRemove(Key(name), directory, freeMap);
        success := true;
      }
    }

    /** Opens a file by name, or returns null. */
    method Open(name: seq<byte>) returns (openFile: OpenFile?)
      requires Valid()
      ensures openFile != null <==> Key(name) in State().files
      ensures openFile != null ==> fresh(openFile) && OpenOn(openFile, Key(name)) && openFile.seekPosition == 0
    {
      ListedIffFound(disk.sectors, Key(name));
      openFile := null;
      var directory := FetchDirectory();
      var sector := directory.Find(name);
      if sector >= 0 {
        ListedIsMarked(disk.sectors, Key(name));
        openFile := new OpenFile(disk, sector);
      }
    }

    /** `file` is open on the file now listed as `key`. */
    ghost predicate OpenOn(file: OpenFile, key: Name)
      reads disk, file.hdr, file.hdr.dataSectors
    {
      && file.disk == disk && file.hdr.Valid()
      && key in State().files
      && file.hdr.Value() == HeaderAt(disk.sectors, State().files[key].sector)
    }

    /** Whatever Create, Remove and WriteThrough do, a file that is open and still listed stays open on the
        same file: no header but those of files that come or go changes. */
    twostate lemma StaysOpen(file: OpenFile, key: Name)
      requires old(OpenOn(file, key)) && unchanged(file.hdr, file.hdr.dataSectors)
      requires SameHeaders(old(disk.sectors), disk.sectors) && key in State().files
      ensures OpenOn(file, key)
    {
    }

    /** WriteAt on an open file, seen from the file system: the file's contents change as asked, and
        nothing else does; the file stays open on the same file, and the file system stays sound. */
    method WriteThrough(file: OpenFile, ghost key: Name, from: array<byte>, at: nat, numBytes: int, position: int)
      returns (n: nat)
      requires Valid() && OpenOn(file, key) && 0 <= position && position + numBytes <= INT_MAX
      requires at + TransferCount(file.hdr.numBytes, numBytes, position) <= from.Length
      modifies disk
      ensures Valid() && OpenOn(file, key)
      ensures n == TransferCount(|old(State()).files[key].contents|, numBytes, position)
      ensures State() == Apply(old(State()), Op.Write(key, position, from[at..at + n]))
      ensures SameHeaders(old(disk.sectors), disk.sectors)
    {
      hide Inv, View, Apply, SameHeaders;
      ghost var d := disk.sectors;
      ListedIsMarked(d, key);
      n := file.WriteAt(from, at, numBytes, position);
      WriteKept(d, disk.sectors, key, position, from[at..at + n]);
    }
  }
}

/** What the writes of Create, Remove and WriteAt do to the state that the disk stands for. */
module DiskUpdates {
  import opened Bytes
  import opened BitMaps
  import opened Storage
  import opened FileHeaders
  import opened OpenFiles
  import opened Directories
  import opened FileSystemSpec
  import opened DiskLayout

  ghost predicate Shows(d: seq<seq<byte>>, s: int, f: File) {
    FileAtOk(d, s) && FileAt(d, s) == f
  }

  lemma SystemKept(d: seq<seq<byte>>, e: seq<seq<byte>>)
    requires SystemFilesOk(d) && IsDisk(e)
    requires e[FREE_MAP_SECTOR] == d[FREE_MAP_SECTOR] && e[DIRECTORY_SECTOR] == d[DIRECTORY_SECTOR]
    ensures SystemFilesOk(e) && SystemSectors(e) == SystemSectors(d)
    ensures SystemData(e) == SystemData(d)
  {
    assert SystemFiles(e, FileAt(e, FREE_MAP_SECTOR), FileAt(e, DIRECTORY_SECTOR));
  }

  lemma StoredTable(e: seq<seq<byte>>, t: seq<DirectoryEntry>)
    requires IsTable(t) && FileAt(e, DIRECTORY_SECTOR).contents == EncodeTable(t)
    ensures Table(e) == t
  {
    TableRoundTrip(t);
  }

  lemma StoredMap(e: seq<seq<byte>>, words: seq<uint32>)
    requires BITS_IN_WORD * |words| == NUM_SECTORS
    requires FileAt(e, FREE_MAP_SECTOR).contents == EncodeWords(words)
    ensures FreeMap(e) == SetBits(words, NUM_SECTORS)
  {
    WordsRoundTrip(words);
  }

  lemma FilesFrom(e: seq<seq<byte>>, t: seq<DirectoryEntry>, files: map<Name, File>)
    requires files.Keys == Names(t)
    requires forall n :: n in files ==> Shows(e, SectorOf(t, n), files[n])
    ensures forall n :: n in Names(t) ==> FileAtOk(e, SectorOf(t, n))
    ensures FilesIn(e, t) == files
  {
  }

  /** A disk stands for the state after `op` if its system files do and every name leads to its file. */
  lemma Reached(s: FsState, op: Op, e: seq<seq<byte>>)
    requires FsOk(s) && Enabled(s, op)
    requires SystemFilesOk(e) && UniqueNames(Table(e)) && Names(Table(e)) == Apply(s, op).files.Keys
    requires forall n :: n in Apply(s, op).files ==> Shows(e, SectorOf(Table(e), n), Apply(s, op).files[n])
    requires AllSectors() - FreeMap(e) == Apply(s, op).free && SystemSectors(e) == s.system
    ensures Inv(e) && View(e) == Apply(s, op)
  {
    ApplyKeepsFsOk(s, op);
    FilesFrom(e, Table(e), Apply(s, op).files);
    assert StandsFor(e, Apply(s, op));
  }

  /** What the invariant says, without its details. */
  lemma Sound(d: seq<seq<byte>>)
    requires Inv(d)
    ensures FsOk(View(d)) && SystemFilesOk(d) && |Table(d)| == NUM_DIR_ENTRIES
    ensures UniqueNames(Table(d)) && Names(Table(d)) == View(d).files.Keys
    ensures View(d).free == AllSectors() - FreeMap(d) && View(d).system == SystemSectors(d)
  {
  }

  lemma ListedFile(d: seq<seq<byte>>, n: Name)
    requires Inv(d) && n in View(d).files
    ensures FileAtOk(d, SectorOf(Table(d), n))
    ensures View(d).files[n] == FileAt(d, SectorOf(Table(d), n))
    ensures FileOk(View(d).files[n]) && Sectors(View(d).files[n]) <= AllSectors()
  {
  }

  /** Listed files are out of reach of writes to free sectors and to the data of the system's files. */
  lemma ListedUnchanged(d: seq<seq<byte>>, e: seq<seq<byte>>)
    requires Inv(d) && IsDisk(e)
    requires forall x :: 0 <= x < NUM_SECTORS && x !in View(d).free && x !in SystemData(d) ==> e[x] == d[x]
    ensures forall n :: n in View(d).files ==> Shows(e, SectorOf(Table(d), n), View(d).files[n])
  {
    var owned := Owned(View(d).files);
    assert SystemData(d) <= SystemSectors(d);
    forall x | x in owned
      ensures 0 <= x < NUM_SECTORS && e[x] == d[x]
    {
      assert x in AllSectors();
    }
    forall n | n in View(d).files
      ensures Shows(e, SectorOf(Table(d), n), View(d).files[n])
    {
      assert forall x :: x in Sectors(View(d).files[n]) ==> x in owned;
      FileUnchanged(d, e, SectorOf(Table(d), n));
    }
  }

  /** Files listed on both disks have the same header in the same sector. */
  ghost predicate SameHeaders(d: seq<seq<byte>>, e: seq<seq<byte>>) {
    forall n :: n in View(d).files && n in View(e).files ==>
      && View(e).files[n].sector == View(d).files[n].sector
      && HeaderAt(e, View(d).files[n].sector) == HeaderAt(d, View(d).files[n].sector)
  }

  lemma HeadersOutOfReach(d: seq<seq<byte>>, e: seq<seq<byte>>)
    requires Inv(d) && IsDisk(e)
    requires forall x :: 0 <= x < NUM_SECTORS && x !in View(d).free && x !in SystemData(d) ==> e[x] == d[x]
    ensures forall n :: n in View(d).files ==>
              HeaderAt(e, View(d).files[n].sector) == HeaderAt(d, View(d).files[n].sector)
  {
    hide Inv, View, SystemFilesOk, SystemData, SystemSectors, UniqueNames, Names, Table, FreeMap, FileOk;
    FreeApart(d);
    Sound(d);
    forall n | n in View(d).files
      ensures HeaderAt(e, View(d).files[n].sector) == HeaderAt(d, View(d).files[n].sector)
    {
      var x := View(d).files[n].sector;
      assert x in Sectors(View(d).files[n]);
      assert x in Owned(View(d).files) && x in AllSectors();
    }
  }

  lemma HeadersStayWhere(d: seq<seq<byte>>, e: seq<seq<byte>>, op: Op)
    requires View(e) == Apply(View(d), op) && (op.Create? ==> op.name !in View(d).files)
    requires forall n :: n in View(d).files ==>
              HeaderAt(e, View(d).files[n].sector) == HeaderAt(d, View(d).files[n].sector)
    ensures SameHeaders(d, e)
  {
    hide View, Apply, HeaderAt;
    forall n | n in View(d).files && n in View(e).files
      ensures View(e).files[n].sector == View(d).files[n].sector
    {
      HeadersStay(View(d), op, n);
    }
  }

  // ----- Create -----

  /** The new file of a successful Create. */
  ghost function NewFile(d: seq<seq<byte>>, sector: int, h: Header): File
    requires IsDisk(d) && HeaderOk(h)
  {
    File(sector, Data(h), Contents(d, h))
  }

  /** What Create has done to the disk when it succeeds: the new header, the directory with one slot
      filled and the bitmap with the new sectors marked are stored, and nothing else has changed. */
  ghost predicate CreateWrote(d: seq<seq<byte>>, e: seq<seq<byte>>, slot: nat, entry: DirectoryEntry, h: Header,
                              words: seq<uint32>)
    requires HeaderOk(h)
  {
    && IsDisk(d) && IsDisk(e)
    && slot < |Table(d)| && !Table(d)[slot].inUse
    && IsEntry(entry) && entry.inUse && Key(entry.name) !in Names(Table(d))
    && FileOk(NewFile(d, entry.sector, h)) && Sectors(NewFile(d, entry.sector, h)) <= View(d).free
    && e[entry.sector] == EncodeHeader(h)
    && (forall x :: 0 <= x < NUM_SECTORS && x != entry.sector && x !in SystemData(d) ==> e[x] == d[x])
    && FileAt(e, DIRECTORY_SECTOR).contents == EncodeTable(Table(d)[slot := entry])
    && FileAt(e, FREE_MAP_SECTOR).contents == EncodeWords(words)
    && BITS_IN_WORD * |words| == NUM_SECTORS
    && SetBits(words, NUM_SECTORS) == FreeMap(d) + Sectors(NewFile(d, entry.sector, h))
  }

  /** Free sectors hold neither the headers nor the data of the system's files. */
  lemma FreeApart(d: seq<seq<byte>>)
    requires Inv(d)
    ensures IsDisk(d) && SystemFilesOk(d) && View(d).free !! SystemSectors(d) && View(d).free <= AllSectors()
    ensures FREE_MAP_SECTOR in SystemSectors(d) && DIRECTORY_SECTOR in SystemSectors(d)
    ensures SystemData(d) <= SystemSectors(d)
  {
    hide Inv, View, FileOk, SystemFilesOk, UniqueNames, Names, Table, FreeMap;
    Sound(d);
    SystemOnDisk(d);
  }

  lemma NewFileStored(d: seq<seq<byte>>, e: seq<seq<byte>>, sector: int, h: Header)
    requires IsDisk(d) && IsDisk(e) && HeaderOk(h) && 0 <= sector < NUM_SECTORS
    requires e[sector] == EncodeHeader(h)
    requires forall x :: x in Elements(Data(h)) ==> e[x] == d[x]
    ensures Shows(e, sector, NewFile(d, sector, h))
  {
    HeaderRoundTrip(h);
    SameContents(d, e, h);
  }

  lemma SystemHeadersApart(d: seq<seq<byte>>)
    requires SystemFilesOk(d)
    ensures FREE_MAP_SECTOR !in SystemData(d) && DIRECTORY_SECTOR !in SystemData(d)
  {
  }

  lemma CreateSystem(d: seq<seq<byte>>, e: seq<seq<byte>>, slot: nat, entry: DirectoryEntry, h: Header,
                     words: seq<uint32>)
    requires Inv(d) && HeaderOk(h) && CreateWrote(d, e, slot, entry, h, words)
    ensures SystemFilesOk(e) && SystemSectors(e) == SystemSectors(d)
    ensures Table(e) == Table(d)[slot := entry]
    ensures FreeMap(e) == FreeMap(d) + Sectors(NewFile(d, entry.sector, h))
  {
    hide Inv, View, HeaderOk, HeaderAt, FileOk, SystemFilesOk, UniqueNames, Names, Key, EncodeTable,
         EncodeWords, EncodeHeader, SetBits, Contents, SystemData, Elements, FreeMap, Table;
    FreeApart(d);
    SystemHeadersApart(d);
    assert entry.sector in Sectors(NewFile(d, entry.sector, h));
    SystemKept(d, e);
    StoredTable(e, Table(d)[slot := entry]);
    StoredMap(e, words);
  }

  lemma CreateStored(d: seq<seq<byte>>, e: seq<seq<byte>>, slot: nat, entry: DirectoryEntry, h: Header,
                     words: seq<uint32>)
    requires Inv(d) && HeaderOk(h) && CreateWrote(d, e, slot, entry, h, words)
    ensures Shows(e, entry.sector, NewFile(d, entry.sector, h))
    ensures forall n :: n in View(d).files ==> Shows(e, SectorOf(Table(d), n), View(d).files[n])
  {
    hide Inv, View, HeaderAt, SystemFilesOk, UniqueNames, Names, Key, EncodeTable, EncodeWords,
         EncodeHeader, SetBits, Contents, FreeMap, Table, Shows;
    FreeApart(d);
    assert Sectors(NewFile(d, entry.sector, h)) == {entry.sector} + Elements(Data(h));
    NewFileStored(d, e, entry.sector, h);
    ListedUnchanged(d, e);
  }

  /** Filling a slot of a table adds a file to those it lists. */
  lemma AddFile(e: seq<seq<byte>>, t: seq<DirectoryEntry>, slot: nat, entry: DirectoryEntry, files: map<Name, File>,
                f: File)
    requires slot < |t| && !t[slot].inUse && entry.inUse && UniqueNames(t) && Key(entry.name) !in Names(t)
    requires Names(t) == files.Keys
    requires Shows(e, entry.sector, f)
    requires forall n :: n in files ==> Shows(e, SectorOf(t, n), files[n])
    ensures var u := t[slot := entry];
            var added := files[Key(entry.name) := f];
            && UniqueNames(u)
            && Names(u) == added.Keys
            && forall n :: n in added ==> Shows(e, SectorOf(u, n), added[n])
  {
    AddName(t, slot, entry);
  }

  lemma CreateEnabled(s: FsState, t: seq<DirectoryEntry>, slot: nat, key: Name, f: File)
    requires UniqueNames(t) && Names(t) == s.files.Keys && |t| == NUM_DIR_ENTRIES
    requires slot < |t| && !t[slot].inUse && key !in Names(t)
    requires FileOk(f) && Sectors(f) <= s.free
    ensures Enabled(s, Create(key, f))
  {
    CountNames(t);
  }

  lemma CreateRefines(d: seq<seq<byte>>, e: seq<seq<byte>>, slot: nat, entry: DirectoryEntry, h: Header,
                      words: seq<uint32>)
    requires Inv(d) && HeaderOk(h) && CreateWrote(d, e, slot, entry, h, words)
    ensures Enabled(View(d), Create(Key(entry.name), NewFile(d, entry.sector, h)))
    ensures Inv(e) && View(e) == Apply(View(d), Create(Key(entry.name), NewFile(d, entry.sector, h)))
    ensures SameHeaders(d, e)
  {
    hide Inv, FsOk, SystemFilesOk, UniqueNames, Names, View, Shows, Sectors, FileOk, HeaderOk, SameHeaders, HeaderAt;
    Sound(d);
    var f := NewFile(d, entry.sector, h);
    CreateEnabled(View(d), Table(d), slot, Key(entry.name), f);
    CreateSystem(d, e, slot, entry, h, words);
    CreateStored(d, e, slot, entry, h, words);
    AddFile(e, Table(d), slot, entry, View(d).files, f);
    TakenSectors(View(d).free, FreeMap(d), Sectors(f));
    Reached(View(d), Create(Key(entry.name), f), e);
    CreateHeaders(d, e, slot, entry, h, words);
  }

  lemma CreateHeaders(d: seq<seq<byte>>, e: seq<seq<byte>>, slot: nat, entry: DirectoryEntry, h: Header,
                      words: seq<uint32>)
    requires Inv(d) && HeaderOk(h) && CreateWrote(d, e, slot, entry, h, words)
    requires View(e) == Apply(View(d), Create(Key(entry.name), NewFile(d, entry.sector, h)))
    requires Key(entry.name) !in View(d).files
    ensures SameHeaders(d, e)
  {
    hide Inv, View, FsOk, HeaderOk, HeaderAt, FileOk, Names, Key, EncodeTable, EncodeWords, EncodeHeader, SetBits,
         Contents, SystemData, FreeMap, Table, FileAt, SameHeaders, Apply;
    FreeApart(d);
    assert entry.sector in Sectors(NewFile(d, entry.sector, h));
    HeadersOutOfReach(d, e);
    HeadersStayWhere(d, e, Create(Key(entry.name), NewFile(d, entry.sector, h)));
  }

  lemma TakenSectors(free: set<int>, marked: set<int>, taken: set<int>)
    requires free == AllSectors() - marked
    ensures AllSectors() - (marked + taken) == free - taken
  {
  }

  // ----- Remove -----

  /** What Remove has done to the disk: the directory without the name and the bitmap without the
      file's sectors are stored. */
  ghost predicate RemoveWrote(d: seq<seq<byte>>, e: seq<seq<byte>>, key: Name, words: seq<uint32>)
    requires Inv(d) && key in View(d).files
  {
    && IsDisk(e)
    && (forall x :: 0 <= x < NUM_SECTORS && x !in SystemData(d) ==> e[x] == d[x])
    && FileAt(e, DIRECTORY_SECTOR).contents == EncodeTable(Without(Table(d), key))
    && FileAt(e, FREE_MAP_SECTOR).contents == EncodeWords(words)
    && BITS_IN_WORD * |words| == NUM_SECTORS
    && SetBits(words, NUM_SECTORS) == FreeMap(d) - Sectors(View(d).files[key])
  }

  lemma RemoveSystem(d: seq<seq<byte>>, e: seq<seq<byte>>, key: Name, words: seq<uint32>)
    requires Inv(d) && key in View(d).files && RemoveWrote(d, e, key, words)
    ensures SystemFilesOk(e) && SystemSectors(e) == SystemSectors(d)
    ensures Table(e) == Without(Table(d), key)
    ensures FreeMap(e) == FreeMap(d) - Sectors(View(d).files[key])
  {
    SystemKept(d, e);
    StoredTable(e, Without(Table(d), key));
    StoredMap(e, words);
  }

  lemma FreedSectors(s: FsState, marked: set<int>, key: Name)
    requires FsOk(s) && key in s.files && s.free == AllSectors() - marked
    ensures AllSectors() - (marked - Sectors(s.files[key])) == s.free + Sectors(s.files[key])
  {
  }

  /** Freeing a slot of a table takes a file from those it lists. */
  lemma DropFile(e: seq<seq<byte>>, t: seq<DirectoryEntry>, key: Name, files: map<Name, File>)
    requires UniqueNames(t) && Names(t) == files.Keys
    requires forall n :: n in files ==> Shows(e, SectorOf(t, n), files[n])
    ensures UniqueNames(Without(t, key))
    ensures Names(Without(t, key)) == (files - {key}).Keys
    ensures forall n :: n in files - {key} ==> Shows(e, SectorOf(Without(t, key), n), (files - {key})[n])
  {
    RemoveName(t, key);
  }

  /** The disk's system files and names are those of the state without the file. */
  lemma Removed(d: seq<seq<byte>>, e: seq<seq<byte>>, key: Name)
    requires FsOk(View(d)) && key in View(d).files && SystemFilesOk(e) && SystemSectors(e) == View(d).system
    requires UniqueNames(Table(e)) && Names(Table(e)) == (View(d).files - {key}).Keys
    requires forall n :: n in View(d).files - {key} ==> Shows(e, SectorOf(Table(e), n), (View(d).files - {key})[n])
    requires AllSectors() - FreeMap(e) == View(d).free + Sectors(View(d).files[key])
    ensures Inv(e) && View(e) == Apply(View(d), Remove(key))
  {
    hide Inv, FsOk, SystemFilesOk, UniqueNames, Names, View, Shows, Sectors;
    Reached(View(d), Remove(key), e);
  }

  lemma RemoveRefines(d: seq<seq<byte>>, e: seq<seq<byte>>, key: Name, words: seq<uint32>)
    requires Inv(d) && key in View(d).files && RemoveWrote(d, e, key, words)
    ensures Inv(e) && View(e) == Apply(View(d), Remove(key))
    ensures SameHeaders(d, e)
  {
    hide Inv, FsOk, SystemFilesOk, UniqueNames, Names, View, Shows, Sectors, SameHeaders, HeaderAt, Apply;
    Sound(d);
    RemoveSystem(d, e, key, words);
    FreedSectors(View(d), FreeMap(d), key);
    ListedUnchanged(d, e);
    DropFile(e, Table(d), key, View(d).files);
    Removed(d, e, key);
    HeadersOutOfReach(d, e);
    HeadersStayWhere(d, e, Remove(key));
  }

  // ----- WriteAt -----

  /** `e` is `d` after a write to the data of the file listed as `key`. */
  ghost predicate DataWritten(d: seq<seq<byte>>, e: seq<seq<byte>>, key: Name) {
    && IsDisk(e)
    && key in View(d).files
    && forall x :: 0 <= x < NUM_SECTORS && x !in Elements(View(d).files[key].data) ==> e[x] == d[x]
  }

  lemma WriteSystem(d: seq<seq<byte>>, e: seq<seq<byte>>, key: Name)
    requires Inv(d) && DataWritten(d, e, key)
    ensures SystemFilesOk(e) && SystemSectors(e) == SystemSectors(d)
    ensures Table(e) == Table(d) && FreeMap(e) == FreeMap(d)
  {
    hide Inv, View, HeaderOk, HeaderAt, FsOk, UniqueNames, Names, Contents, Elements;
    ListedApartFromSystem(d, key);
    SystemOnDisk(d);
    assert FREE_MAP_SECTOR in SystemSectors(d) && DIRECTORY_SECTOR in SystemSectors(d);
    FileUnchanged(d, e, FREE_MAP_SECTOR);
    FileUnchanged(d, e, DIRECTORY_SECTOR);
    SystemKept(d, e);
  }

  lemma SystemOnDisk(d: seq<seq<byte>>)
    requires SystemFilesOk(d)
    ensures FileAtOk(d, FREE_MAP_SECTOR) && FileAtOk(d, DIRECTORY_SECTOR)
    ensures SystemSectors(d) <= AllSectors()
  {
  }

  lemma ListedApartFromSystem(d: seq<seq<byte>>, key: Name)
    requires Inv(d) && key in View(d).files
    ensures SystemFilesOk(d)
    ensures Elements(View(d).files[key].data) !! SystemSectors(d)
  {
    hide Inv, View, HeaderOk, HeaderAt, FileAtOk, SystemFilesOk, UniqueNames, Names, Table, FreeMap;
    Sound(d);
    var s := View(d);
    assert Elements(s.files[key].data) <= Sectors(s.files[key]) <= Owned(s.files);
  }

  lemma ListedApart(d: seq<seq<byte>>, m: Name, n: Name)
    requires Inv(d) && m in View(d).files && n in View(d).files && m != n
    ensures Sectors(View(d).files[m]) !! Sectors(View(d).files[n])
  {
    hide Inv, View, HeaderOk, SystemFilesOk, UniqueNames, Names, Table, FreeMap;
    Sound(d);
  }

  lemma HeaderKept(d: seq<seq<byte>>, e: seq<seq<byte>>, s: int)
    requires FileAtOk(d, s) && IsDisk(e) && e[s] == d[s]
    ensures Shows(e, s, FileAt(d, s).(contents := FileAt(e, s).contents))
  {
  }

  lemma WriteFiles(d: seq<seq<byte>>, e: seq<seq<byte>>, key: Name)
    requires Inv(d) && DataWritten(d, e, key)
    ensures var f := View(d).files[key];
            var g := f.(contents := FileAt(e, f.sector).contents);
            forall n :: n in View(d).files ==> Shows(e, SectorOf(Table(d), n), View(d).files[key := g][n])
  {
    hide View, Inv, FileAt, Shows, Table;
    var files := View(d).files;
    var g := files[key].(contents := FileAt(e, files[key].sector).contents);
    forall n | n in files
      ensures Shows(e, SectorOf(Table(d), n), files[key := g][n])
    {
      WriteFile(d, e, key, n);
    }
  }

  lemma WriteFile(d: seq<seq<byte>>, e: seq<seq<byte>>, key: Name, n: Name)
    requires Inv(d) && DataWritten(d, e, key) && n in View(d).files
    ensures var f := View(d).files[n];
            Shows(e, SectorOf(Table(d), n), if n == key then f.(contents := FileAt(e, f.sector).contents) else f)
  {
    hide Inv, View, HeaderOk, HeaderAt, FileAtOk, SystemFilesOk, UniqueNames, Names, Table, FreeMap,
         Contents, Elements;
    ListedFile(d, n);
    var s := SectorOf(Table(d), n);
    if n == key {
      assert s !in Elements(FileAt(d, s).data);
      HeaderKept(d, e, s);
    } else {
      ListedApart(d, key, n);
      assert Sectors(View(d).files[n]) !! Elements(View(d).files[key].data);
      FileUnchanged(d, e, s);
    }
  }

  lemma WriteListed(s: FsState, key: Name, position: nat, bytes: seq<byte>, e: seq<seq<byte>>, t: seq<DirectoryEntry>)
    requires Enabled(s, Write(key, position, bytes)) && s.files.Keys == Names(t)
    requires FileAt(e, s.files[key].sector).contents == Overwrite(s.files[key].contents, position, bytes)
    requires var g := s.files[key].(contents := FileAt(e, s.files[key].sector).contents);
             forall n :: n in s.files ==> Shows(e, SectorOf(t, n), s.files[key := g][n])
    ensures var u := Apply(s, Write(key, position, bytes));
            && u.free == s.free && u.system == s.system
            && u.files.Keys == Names(t)
            && forall n :: n in u.files ==> Shows(e, SectorOf(t, n), u.files[n])
  {
  }

  /** Writing to the data of one listed file changes that file's contents and nothing else: no other
      file, no header, not the directory, not the bitmap. */
  lemma WriteRefines(d: seq<seq<byte>>, e: seq<seq<byte>>, key: Name, position: nat, bytes: seq<byte>)
    requires Inv(d) && DataWritten(d, e, key) && Enabled(View(d), Write(key, position, bytes))
    requires FileAt(e, View(d).files[key].sector).contents == Overwrite(View(d).files[key].contents, position, bytes)
    ensures Inv(e) && View(e) == Apply(View(d), Write(key, position, bytes))
    ensures SameHeaders(d, e)
  {
    hide Inv, FsOk, SystemFilesOk, UniqueNames, Names, View, Shows, Sectors, Apply, Enabled, SameHeaders, HeaderAt;
    Sound(d);
    var op := Write(key, position, bytes);
    WriteSystem(d, e, key);
    WriteFiles(d, e, key);
    WriteListed(View(d), key, position, bytes, e, Table(d));
    Reached(View(d), op, e);
    WriteHeaders(d, e, key);
    HeadersStayWhere(d, e, op);
  }

  /** Headers are not data, not even those of the file that is written. */
  lemma WriteHeaders(d: seq<seq<byte>>, e: seq<seq<byte>>, key: Name)
    requires Inv(d) && DataWritten(d, e, key)
    ensures forall n :: n in View(d).files ==>
              HeaderAt(e, View(d).files[n].sector) == HeaderAt(d, View(d).files[n].sector)
  {
    hide Inv, View, HeaderOk, SystemFilesOk, UniqueNames, Names, Table, FreeMap, Contents;
    forall n | n in View(d).files
      ensures HeaderAt(e, View(d).files[n].sector) == HeaderAt(d, View(d).files[n].sector)
    {
      var x := View(d).files[n].sector;
      Sound(d);
      ListedFile(d, n);
      assert x in Sectors(View(d).files[n]) && x in AllSectors();
      if n != key {
        ListedApart(d, key, n);
      }
    }
  }

  // ----- formatting -----

  ghost const SYSTEM_SECTORS: set<int> := {0, 1, 2, 3, 4}

  lemma FirstClearIs(marked: set<int>, n: nat, k: nat)
    requires k < n && k !in marked && forall m :: 0 <= m < k ==> m in marked
    ensures FirstClear(marked, 0, n) == k
  {
  }

  /** The first sectors go to the headers of the bitmap and the directory, then to their data. */
  lemma FirstSectors(n: nat)
    requires 5 <= n
    ensures Picks({0, 1}, n, 1) == [2]
    ensures Picks({0, 1, 2}, n, 2) == [3, 4]
    ensures {0, 1} + Elements([2]) == {0, 1, 2}
    ensures {0, 1, 2} + Elements([3, 4]) == SYSTEM_SECTORS
  {
    FirstClearIs({0, 1}, n, 2);
    FirstClearIs({0, 1, 2}, n, 3);
    FirstClearIs({0, 1, 2, 3}, n, 4);
    assert {0, 1} + Elements([]) == {0, 1} && {0, 1, 2} + Elements([]) == {0, 1, 2};
    assert {0, 1, 2} + Elements([3]) == {0, 1, 2, 3};
    assert Picks({0, 1, 2}, n, 1) == [3];
  }

  /** The headers of a fresh file system. */
  lemma FreshHeaders(e: seq<seq<byte>>, mapHdr: Header, dirHdr: Header)
    requires IsDisk(e) && |mapHdr.dataSectors| == NUM_DIRECT && |dirHdr.dataSectors| == NUM_DIRECT
    requires mapHdr.numBytes == FREE_MAP_FILE_SIZE && mapHdr.numSectors == 1 && Data(mapHdr) == [2]
    requires dirHdr.numBytes == DIRECTORY_FILE_SIZE && dirHdr.numSectors == 2 && Data(dirHdr) == [3, 4]
    requires e[FREE_MAP_SECTOR] == EncodeHeader(mapHdr) && e[DIRECTORY_SECTOR] == EncodeHeader(dirHdr)
    ensures SystemFilesOk(e) && SystemSectors(e) == SYSTEM_SECTORS
    ensures HeaderAt(e, FREE_MAP_SECTOR) == mapHdr && HeaderAt(e, DIRECTORY_SECTOR) == dirHdr
  {
    HeaderRoundTrip(mapHdr);
    HeaderRoundTrip(dirHdr);
    assert HeaderOk(mapHdr) && HeaderOk(dirHdr);
    assert Elements([2]) == {2} && Elements([3, 4]) == {3, 4};
    assert SystemFiles(e, FileAt(e, FREE_MAP_SECTOR), FileAt(e, DIRECTORY_SECTOR));
  }

  ghost function EmptyState(): FsState {
    FsState(map[], AllSectors() - SYSTEM_SECTORS, SYSTEM_SECTORS)
  }

  lemma NoNames(t: seq<DirectoryEntry>)
    requires forall i :: 0 <= i < |t| ==> !t[i].inUse
    ensures Names(t) == {} && UniqueNames(t)
  {
  }

  lemma EmptyIsOk()
    ensures FsOk(EmptyState())
  {
    assert Owned(map[]) == {};
    assert SYSTEM_SECTORS <= AllSectors();
  }

  lemma FormatReaches(e: seq<seq<byte>>, t: seq<DirectoryEntry>, words: seq<uint32>)
    requires SystemFilesOk(e) && SystemSectors(e) == SYSTEM_SECTORS
    requires IsTable(t) && (forall i :: 0 <= i < |t| ==> !t[i].inUse)
    requires FileAt(e, DIRECTORY_SECTOR).contents == EncodeTable(t)
    requires FileAt(e, FREE_MAP_SECTOR).contents == EncodeWords(words)
    requires BITS_IN_WORD * |words| == NUM_SECTORS && SetBits(words, NUM_SECTORS) == SYSTEM_SECTORS
    ensures Inv(e) && View(e) == EmptyState()
  {
    hide SystemFilesOk, FileAt, FreeMap, Table, SystemSectors, EncodeTable, EncodeWords, SetBits, FsOk, AllSectors,
         UniqueNames, Names;
    StoredTable(e, t);
    StoredMap(e, words);
    NoNames(t);
    assert View(e).files == map[];
    EmptyIsOk();
    assert StandsFor(e, EmptyState());
  }
}

/** How the disk represents the file system's state: the bitmap and the directory are files of the
    disk they describe, with headers in sectors 0 and 1 (filesys/filesys.cc). */
module DiskLayout {
  import opened Bytes
  import opened BitMaps
  import opened Storage
  import opened FileHeaders
  import opened Directories
  import opened FileSystemSpec

  const FREE_MAP_SECTOR := 0
  const DIRECTORY_SECTOR := 1
  const FREE_MAP_FILE_SIZE := 128
  const DIRECTORY_FILE_SIZE := 200

  // The functions below are total, with a dull value where a disk makes no sense.

  ghost function HeaderAt(d: seq<seq<byte>>, s: int): (h: Header)
    ensures |h.dataSectors| == NUM_DIRECT
  {
    DecodeHeader(if 0 <= s < |d| && |d[s]| == SECTOR_SIZE then d[s] else Zeros(SECTOR_SIZE))
  }

  ghost predicate FileAtOk(d: seq<seq<byte>>, s: int) {
    IsDisk(d) && 0 <= s < NUM_SECTORS && HeaderOk(HeaderAt(d, s))
  }

  ghost function FileAt(d: seq<seq<byte>>, s: int): File {
    if FileAtOk(d, s) then File(s, Data(HeaderAt(d, s)), Contents(d, HeaderAt(d, s))) else File(s, [], [])
  }

  /** A file is what its own sectors make it. */
  lemma FileUnchanged(d: seq<seq<byte>>, e: seq<seq<byte>>, s: int)
    requires FileAtOk(d, s) && IsDisk(e)
    requires forall x :: x in Sectors(FileAt(d, s)) ==> 0 <= x < NUM_SECTORS && e[x] == d[x]
    ensures FileAtOk(e, s) && FileAt(e, s) == FileAt(d, s)
  {
    assert s in Sectors(FileAt(d, s));
    SameContents(d, e, HeaderAt(d, s));
  }

  lemma SectorsOnDisk(d: seq<seq<byte>>, s: int)
    requires FileAtOk(d, s)
    ensures Sectors(FileAt(d, s)) <= AllSectors()
  {
  }

  /** `freeMap` and `directory` are the files at the two well-known sectors, with the sizes they must
      have and without a sector in common. */
  ghost predicate SystemFiles(d: seq<seq<byte>>, freeMap: File, directory: File) {
    && FileAtOk(d, FREE_MAP_SECTOR) && HeaderAt(d, FREE_MAP_SECTOR).numBytes == FREE_MAP_FILE_SIZE
    && FileAtOk(d, DIRECTORY_SECTOR) && HeaderAt(d, DIRECTORY_SECTOR).numBytes == DIRECTORY_FILE_SIZE
    && freeMap == FileAt(d, FREE_MAP_SECTOR) && FileOk(freeMap)
    && directory == FileAt(d, DIRECTORY_SECTOR) && FileOk(directory)
    && Sectors(freeMap) !! Sectors(directory)
  }

  ghost predicate SystemFilesOk(d: seq<seq<byte>>) {
    exists freeMap, directory :: SystemFiles(d, freeMap, directory)
  }

  /** The sectors the bitmap stored on the disk marks. */
  ghost function FreeMap(d: seq<seq<byte>>): set<int> {
    var words := DecodeWords(FileAt(d, FREE_MAP_SECTOR).contents);
    if BITS_IN_WORD * |words| == NUM_SECTORS then SetBits(words, NUM_SECTORS) else {}
  }

  /** The directory stored on the disk. */
  ghost function Table(d: seq<seq<byte>>): (t: seq<DirectoryEntry>)
    ensures IsTable(t)
    ensures SystemFilesOk(d) ==> |t| == NUM_DIR_ENTRIES
  {
    DecodeTable(FileAt(d, DIRECTORY_SECTOR).contents)
  }

  ghost function SystemSectors(d: seq<seq<byte>>): set<int> {
    Sectors(FileAt(d, FREE_MAP_SECTOR)) + Sectors(FileAt(d, DIRECTORY_SECTOR))
  }

  /** The sectors that hold the bitmap and the directory, without the headers. */
  ghost function SystemData(d: seq<seq<byte>>): set<int> {
    Elements(FileAt(d, FREE_MAP_SECTOR).data) + Elements(FileAt(d, DIRECTORY_SECTOR).data)
  }

  // ----- names in a table -----

  ghost function Names(t: seq<DirectoryEntry>): set<Name> {
    set i | 0 <= i < |t| && t[i].inUse :: Key(t[i].name)
  }

  ghost predicate UniqueNames(t: seq<DirectoryEntry>) {
    forall i :: 0 <= i < |t| && t[i].inUse ==> IndexOf(t, Key(t[i].name), 0) == i
  }

  /** The sector a table gives for a name, or -1. */
  ghost function SectorOf(t: seq<DirectoryEntry>, n: Name): int {
    var i := IndexOf(t, n, 0);
    if i == -1 then -1 else t[i].sector
  }

  lemma SameSlot(t: seq<DirectoryEntry>, u: seq<DirectoryEntry>, n: Name)
    requires UniqueNames(t) && UniqueNames(u) && |u| == |t| && n in Names(t)
    requires u[IndexOf(t, n, 0)] == t[IndexOf(t, n, 0)]
    ensures n in Names(u) && SectorOf(u, n) == SectorOf(t, n)
  {
  }

  lemma AddName(t: seq<DirectoryEntry>, i: nat, e: DirectoryEntry)
    requires i < |t| && !t[i].inUse && e.inUse && UniqueNames(t) && Key(e.name) !in Names(t)
    ensures var u := t[i := e];
            && UniqueNames(u)
            && Names(u) == Names(t) + {Key(e.name)}
            && SectorOf(u, Key(e.name)) == e.sector
            && forall n :: n in Names(t) ==> SectorOf(u, n) == SectorOf(t, n)
  {
    var u := t[i := e];
    assert UniqueNames(u) by {
      forall j | 0 <= j < |t| && t[j].inUse
        ensures Key(t[j].name) in Names(t)
      {
      }
    }
    assert u[i].inUse && Key(u[i].name) in Names(u);
    assert IndexOf(u, Key(e.name), 0) == i;
    forall n | n in Names(t)
      ensures n in Names(u) && SectorOf(u, n) == SectorOf(t, n)
    {
      SameSlot(t, u, n);
    }
    forall n | n in Names(u) && n != Key(e.name)
      ensures n in Names(t)
    {
      var j := IndexOf(u, n, 0);
      assert t[j] == u[j];
    }
  }

  lemma RemoveName(t: seq<DirectoryEntry>, key: Name)
    requires UniqueNames(t)
    ensures UniqueNames(Without(t, key))
    ensures Names(Without(t, key)) == Names(t) - {key}
    ensures forall n :: n in Names(t) && n != key ==> SectorOf(Without(t, key), n) == SectorOf(t, n)
  {
    var u := Without(t, key);
    forall n | n in Names(t) && n != key
      ensures n in Names(u) && SectorOf(u, n) == SectorOf(t, n)
    {
      SameSlot(t, u, n);
    }
    forall n | n in Names(u)
      ensures n in Names(t) && n != key
    {
      var j := IndexOf(u, n, 0);
      assert t[j] == u[j];
    }
  }

  lemma NamesSnoc(t: seq<DirectoryEntry>, k: nat)
    requires k == |t| - 1 && UniqueNames(t)
    ensures UniqueNames(t[..k])
    ensures Names(t) == if t[k].inUse then Names(t[..k]) + {Key(t[k].name)} else Names(t[..k])
    ensures t[k].inUse ==> Key(t[k].name) !in Names(t[..k])
  {
    hide IndexOf;
    var u := t[..k];
    assert forall i :: 0 <= i < k ==> u[i] == t[i];
    forall n | n in Names(u)
      ensures n in Names(t)
    {
      var i :| 0 <= i < |u| && u[i].inUse && Key(u[i].name) == n;
      assert t[i] == u[i];
    }
  }

  /** The number of names is the number of slots in use, so the table is full at as many names. */
  lemma {:induction false} CountNames(t: seq<DirectoryEntry>)
    requires UniqueNames(t)
    ensures |Names(t)| <= |t|
    ensures |Names(t)| == |t| <==> FreeSlot(t, 0) == -1
    decreases |t|
  {
    hide IndexOf, UniqueNames;
    if t != [] {
      NamesSnoc(t, |t| - 1);
      CountNames(t[..|t| - 1]);
      FreeSlotPrefix(t, |t| - 1);
    }
  }

  lemma FreeSlotPrefix(t: seq<DirectoryEntry>, k: nat)
    requires k == |t| - 1
    ensures FreeSlot(t, 0) == -1 <==> FreeSlot(t[..k], 0) == -1 && t[k].inUse
  {
  }

  // ----- the state a disk stands for -----

  ghost function FilesIn(d: seq<seq<byte>>, t: seq<DirectoryEntry>): map<Name, File> {
    map n | n in Names(t) :: FileAt(d, SectorOf(t, n))
  }

  /** The bitmap, the directory and every listed header make sense. */
  ghost predicate Readable(d: seq<seq<byte>>) {
    && SystemFilesOk(d)
    && UniqueNames(Table(d))
    && forall n :: n in Names(Table(d)) ==> FileAtOk(d, SectorOf(Table(d), n))
  }

  ghost function View(d: seq<seq<byte>>): FsState {
    FsState(FilesIn(d, Table(d)), AllSectors() - FreeMap(d), SystemSectors(d))
  }

  /** The invariant: the sectors the stored bitmap marks are those of the bitmap file and the directory
      file and, without overlap, those of each listed file. */
  ghost predicate Inv(d: seq<seq<byte>>) {
    exists s :: StandsFor(d, s)
  }

  ghost predicate StandsFor(d: seq<seq<byte>>, s: FsState) {
    Readable(d) && View(d) == s && FsOk(s)
  }

  lemma MarksExactlyWhatIsUsed(d: seq<seq<byte>>)
    requires Inv(d)
    ensures FreeMap(d) == SystemSectors(d) + Owned(View(d).files)
    ensures SystemSectors(d) !! Owned(View(d).files)
  {
    assert FreeMap(d) <= AllSectors();
    assert FreeMap(d) == AllSectors() - View(d).free;
  }

  lemma ListedSectors(d: seq<seq<byte>>, n: Name)
    requires Inv(d) && n in View(d).files
    ensures View(d).files[n] == FileAt(d, SectorOf(Table(d), n))
    ensures Sectors(View(d).files[n]) <= Owned(View(d).files)
  {
  }
}

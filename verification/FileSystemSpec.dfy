/** What the file system of filesys/filesys.cc means: files by name, each with its own sectors, and
    the sectors that are free. */
module FileSystemSpec {
  import opened Sequences
  import opened Bytes
  import opened BitMaps
  import opened FileHeaders
  import opened OpenFiles
  import opened Storage

  const NUM_DIR_ENTRIES := 10

  type Name = seq<byte>

  datatype File = File(sector: int, data: seq<int>, contents: seq<byte>)

  datatype FsState = FsState(files: map<Name, File>, free: set<int>, system: set<int>)

  datatype Op =
    | Create(name: Name, file: File)
    | Remove(name: Name)
    | Write(name: Name, position: nat, bytes: seq<byte>)

  ghost function AllSectors(): set<int> {
    Range(NUM_SECTORS)
  }

  ghost function Sectors(f: File): set<int> {
    {f.sector} + Elements(f.data)
  }

  ghost predicate FileOk(f: File) {
    && f.sector !in Elements(f.data)
    && Distinct(f.data)
    && (|f.contents| + SECTOR_SIZE - 1) / SECTOR_SIZE == |f.data| <= NUM_DIRECT
  }

  /** The sectors that belong to files. */
  ghost function Owned(files: map<Name, File>): set<int> {
    set n, x | n in files && x in Sectors(files[n]) :: x
  }

  ghost predicate Separate(files: map<Name, File>) {
    forall m, n :: m in files && n in files && m != n ==> Sectors(files[m]) !! Sectors(files[n])
  }

  /** Every sector of the disk is free, or belongs to the file system itself, or to exactly one file. */
  ghost predicate FsOk(s: FsState) {
    && |s.files| <= NUM_DIR_ENTRIES
    && (forall n :: n in s.files ==> FileOk(s.files[n]))
    && Separate(s.files)
    && s.free !! s.system
    && Owned(s.files) !! s.free
    && Owned(s.files) !! s.system
    && AllSectors() == s.free + s.system + Owned(s.files)
  }

  lemma OwnedWith(files: map<Name, File>, n: Name, f: File)
    requires n !in files
    ensures Owned(files[n := f]) == Owned(files) + Sectors(f)
    ensures Separate(files) && Sectors(f) !! Owned(files) ==> Separate(files[n := f])
  {
    var g := files[n := f];
    assert forall m :: m in files ==> g[m] == files[m];
    forall x | x in Sectors(f)
      ensures x in Owned(g)
    {
      assert n in g && x in Sectors(g[n]);
    }
    forall x | x in Owned(files)
      ensures x in Owned(g)
    {
      var m :| m in files && x in Sectors(files[m]);
      assert m in g && x in Sectors(g[m]);
    }
    if Separate(files) && Sectors(f) !! Owned(files) {
      forall m | m in files
        ensures Sectors(files[m]) !! Sectors(f)
      {
        assert forall x :: x in Sectors(files[m]) ==> x in Owned(files);
      }
    }
  }

  lemma OwnedWithout(files: map<Name, File>, n: Name)
    requires n in files && Separate(files)
    ensures Owned(files) == Owned(files - {n}) + Sectors(files[n])
    ensures Owned(files - {n}) !! Sectors(files[n]) && Separate(files - {n})
  {
    var g := files - {n};
    assert files == g[n := files[n]];
    OwnedWith(g, n, files[n]);
  }

  lemma OwnedSame(files: map<Name, File>, gs: map<Name, File>)
    requires files.Keys == gs.Keys
    requires forall n :: n in files ==> Sectors(gs[n]) == Sectors(files[n])
    ensures Owned(gs) == Owned(files)
    ensures Separate(files) ==> Separate(gs)
  {
  }

  ghost predicate Enabled(s: FsState, op: Op) {
    match op
    case Create(n, f) => n !in s.files && |s.files| < NUM_DIR_ENTRIES && FileOk(f) && Sectors(f) <= s.free
    case Remove(n) => n in s.files
    case Write(n, p, b) => n in s.files && (b != [] ==> p + |b| <= |s.files[n].contents|)
  }

  /** What an operation does; one that is not enabled does nothing. */
  ghost function Apply(s: FsState, op: Op): FsState {
    if !Enabled(s, op) then s else
    match op
    case Create(n, f) => s.(files := s.files[n := f], free := s.free - Sectors(f))
    case Remove(n) => s.(files := s.files - {n}, free := s.free + Sectors(s.files[n]))
    case Write(n, p, b) =>
      var f := s.files[n];
      s.(files := s.files[n := f.(contents := Overwrite(f.contents, p, b))])
  }

  lemma CreateKeepsFsOk(s: FsState, n: Name, f: File)
    requires FsOk(s) && Enabled(s, Create(n, f))
    ensures FsOk(Apply(s, Create(n, f)))
  {
    hide FileOk, Sectors, Owned, Separate;
    OwnedWith(s.files, n, f);
    assert |s.files[n := f]| == |s.files| + 1;
  }

  lemma RemoveKeepsFsOk(s: FsState, n: Name)
    requires FsOk(s) && n in s.files
    ensures FsOk(Apply(s, Remove(n)))
  {
    hide FileOk, Sectors, Owned, Separate;
    OwnedWithout(s.files, n);
    assert (s.files - {n}).Keys == s.files.Keys - {n};
  }

  lemma WriteKeepsFsOk(s: FsState, n: Name, p: nat, b: seq<byte>)
    requires FsOk(s) && Enabled(s, Write(n, p, b))
    ensures FsOk(Apply(s, Write(n, p, b)))
  {
    hide Owned, Separate, Overwrite;
    OwnedSame(s.files, Apply(s, Write(n, p, b)).files);
    assert Apply(s, Write(n, p, b)).files.Keys == s.files.Keys;
  }

  /** The partition of the disk survives every operation. */
  lemma ApplyKeepsFsOk(s: FsState, op: Op)
    requires FsOk(s)
    ensures FsOk(Apply(s, op))
  {
    if Enabled(s, op) {
      hide FsOk;
      match op {
        case Create(n, f) => CreateKeepsFsOk(s, n, f);
        case Remove(n) => RemoveKeepsFsOk(s, n);
        case Write(n, p, b) => WriteKeepsFsOk(s, n, p, b);
      }
    }
  }

  /** A file's header stays where it is for as long as the file exists. */
  lemma HeadersStay(s: FsState, op: Op, n: Name)
    requires n in s.files && n in Apply(s, op).files && !(op.Create? && op.name == n)
    ensures Apply(s, op).files[n].sector == s.files[n].sector
  {
  }

  lemma SectorCount(f: File)
    requires FileOk(f)
    ensures |Sectors(f)| == 1 + (|f.contents| + SECTOR_SIZE - 1) / SECTOR_SIZE
  {
    DistinctSize(f.data);
    assert Sectors(f) == {f.sector} + Elements(f.data);
  }

  /** A successful Create takes one free sector for the header and as many as the contents need. */
  lemma CreateTakes(s: FsState, n: Name, f: File)
    requires FsOk(s) && Enabled(s, Create(n, f))
    ensures |Apply(s, Create(n, f)).free| == |s.free| - (1 + (|f.contents| + SECTOR_SIZE - 1) / SECTOR_SIZE)
  {
    SectorCount(f);
    assert s.free == (s.free - Sectors(f)) + Sectors(f);
    assert |s.free| == |s.free - Sectors(f)| + |Sectors(f)|;
  }

  // ----- whole runs -----

  ghost predicate Runs(s: FsState, ops: seq<Op>)
    decreases |ops|
  {
    ops == [] || (Enabled(s, ops[0]) && Runs(Apply(s, ops[0]), ops[1..]))
  }

  ghost function ApplyAll(s: FsState, ops: seq<Op>): FsState
    requires Runs(s, ops)
    decreases |ops|
  {
    if ops == [] then s else ApplyAll(Apply(s, ops[0]), ops[1..])
  }

  lemma {:induction false} RunsKeepFsOk(s: FsState, ops: seq<Op>)
    requires FsOk(s) && Runs(s, ops)
    ensures FsOk(ApplyAll(s, ops))
    decreases |ops|
  {
    if ops != [] {
      ApplyKeepsFsOk(s, ops[0]);
      RunsKeepFsOk(Apply(s, ops[0]), ops[1..]);
    }
  }

  /** The file system's own sectors are never given to a file, so that no handle ever leads to them. */
  lemma {:induction false} SystemStays(s: FsState, ops: seq<Op>)
    requires FsOk(s) && Runs(s, ops)
    ensures ApplyAll(s, ops).system == s.system && Owned(ApplyAll(s, ops).files) !! s.system
    decreases |ops|
  {
    if ops != [] {
      ApplyKeepsFsOk(s, ops[0]);
      SystemStays(Apply(s, ops[0]), ops[1..]);
    }
  }

  lemma CreateCreate(s: FsState, n: Name, f: File, m: Name, g: File)
    requires Enabled(s, Create(n, f)) && m != n
    requires Enabled(Apply(s, Create(n, f)), Create(m, g))
    ensures Enabled(s, Create(m, g)) && Enabled(Apply(s, Create(m, g)), Create(n, f))
    ensures Apply(Apply(s, Create(n, f)), Create(m, g)) == Apply(Apply(s, Create(m, g)), Create(n, f))
  {
  }

  lemma CreateRemove(s: FsState, n: Name, f: File, m: Name)
    requires FsOk(s) && Enabled(s, Create(n, f)) && m != n
    requires Enabled(Apply(s, Create(n, f)), Remove(m))
    ensures Enabled(s, Remove(m)) && Enabled(Apply(s, Remove(m)), Create(n, f))
    ensures Apply(Apply(s, Create(n, f)), Remove(m)) == Apply(Apply(s, Remove(m)), Create(n, f))
  {
    var g := s.files[m];
    assert Sectors(g) <= Owned(s.files);
    assert (s.files - {m}).Keys == s.files.Keys - {m};
    assert s.files[n := f] - {m} == (s.files - {m})[n := f];
    assert s.free - Sectors(f) + Sectors(g) == s.free + Sectors(g) - Sectors(f);
  }

  lemma CreateWrite(s: FsState, n: Name, f: File, m: Name, p: nat, b: seq<byte>)
    requires Enabled(s, Create(n, f)) && m != n
    requires Enabled(Apply(s, Create(n, f)), Write(m, p, b))
    ensures Enabled(s, Write(m, p, b)) && Enabled(Apply(s, Write(m, p, b)), Create(n, f))
    ensures Apply(Apply(s, Create(n, f)), Write(m, p, b)) == Apply(Apply(s, Write(m, p, b)), Create(n, f))
  {
  }

  /** An operation on another name can be done before the file is created instead of after. */
  lemma CreateCommutes(s: FsState, n: Name, f: File, op: Op)
    requires FsOk(s) && Enabled(s, Create(n, f)) && op.name != n
    requires Enabled(Apply(s, Create(n, f)), op)
    ensures Enabled(s, op) && Enabled(Apply(s, op), Create(n, f))
    ensures Apply(Apply(s, Create(n, f)), op) == Apply(Apply(s, op), Create(n, f))
  {
    match op {
      case Create(m, g) => CreateCreate(s, n, f, m, g);
      case Remove(m) => CreateRemove(s, n, f, m);
      case Write(m, p, b) => CreateWrite(s, n, f, m, p, b);
    }
  }

  lemma CreateUndone(s: FsState, n: Name, f: File)
    requires Enabled(s, Create(n, f))
    ensures Enabled(Apply(s, Create(n, f)), Remove(n))
    ensures Apply(Apply(s, Create(n, f)), Remove(n)) == s
  {
    var t := Apply(s, Create(n, f));
    assert t.files - {n} == s.files;
    assert t.free + Sectors(f) == s.free;
  }

  /** Creating a file and removing it again, with any operations on other names in between, leaves what
      those operations alone would have left: the same files, and the same free sectors. */
  lemma {:induction false} CreateThenRemove(s: FsState, n: Name, f: File, ops: seq<Op>)
    requires FsOk(s) && Enabled(s, Create(n, f))
    requires Runs(Apply(s, Create(n, f)), ops)
    requires forall i :: 0 <= i < |ops| ==> ops[i].name != n
    ensures Runs(s, ops)
    ensures var t := ApplyAll(Apply(s, Create(n, f)), ops);
            Enabled(t, Remove(n)) && Apply(t, Remove(n)) == ApplyAll(s, ops)
    decreases |ops|
  {
    hide Enabled, Apply, FsOk;
    if ops == [] {
      CreateUndone(s, n, f);
    } else {
      CreateCommutes(s, n, f, ops[0]);
      ApplyKeepsFsOk(s, ops[0]);
      CreateThenRemove(Apply(s, ops[0]), n, f, ops[1..]);
    }
  }
}

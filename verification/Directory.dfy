/** The table of file names of filesys/directory.cc, stored as an ordinary file. */
module Directories {
  import opened Bytes
  import opened Storage
  import opened FileHeaders
  import opened OpenFiles

  const FILE_NAME_MAX_LEN := 9
  const ENTRY_SIZE := 20

  /** One slot of the table; the name field has room for a terminator. */
  datatype DirectoryEntry = DirectoryEntry(inUse: bool, sector: int32, name: seq<byte>)

  ghost predicate IsEntry(e: DirectoryEntry) {
    |e.name| == FILE_NAME_MAX_LEN + 1
  }

  ghost predicate IsTable(t: seq<DirectoryEntry>) {
    forall i :: 0 <= i < |t| ==> IsEntry(t[i])
  }

  // ----- C strings -----

  /** The byte at `i`, past the end of the characters a terminator. */
  function At(s: seq<byte>, i: nat): byte {
    if i < |s| then s[i] else 0
  }

  /** `!strncmp(a, b, n)`, from position `i` on. */
  predicate SameName(a: seq<byte>, b: seq<byte>, i: nat, n: nat)
    decreases n - i
  {
    i >= n || (At(a, i) == At(b, i) && (At(a, i) == 0 || SameName(a, b, i + 1, n)))
  }

  /** The name a string stands for in a directory: up to its terminator, cut off after nine bytes. */
  function KeyFrom(s: seq<byte>, i: nat, n: nat): (k: seq<byte>)
    ensures |k| <= if i < n then n - i else 0
    decreases n - i
  {
    if i >= n || At(s, i) == 0 then [] else [At(s, i)] + KeyFrom(s, i + 1, n)
  }

  function Key(s: seq<byte>): (k: seq<byte>)
    ensures |k| <= FILE_NAME_MAX_LEN
  {
    KeyFrom(s, 0, FILE_NAME_MAX_LEN)
  }

  /** The key is what comes before the first terminator, at most nine bytes of it. */
  lemma KeyMeans(s: seq<byte>)
    ensures var k := |Key(s)|;
            && k <= |s| && (forall i :: 0 <= i < k ==> Key(s)[i] == s[i] != 0)
            && (k == FILE_NAME_MAX_LEN || k == |s| || s[k] == 0)
  {
    KeyFromMeans(s, 0, FILE_NAME_MAX_LEN);
  }

  lemma {:induction false} KeyFromMeans(s: seq<byte>, i: nat, n: nat)
    requires i <= n
    ensures i + |KeyFrom(s, i, n)| <= |s| || KeyFrom(s, i, n) == []
    ensures forall j :: i <= j < i + |KeyFrom(s, i, n)| ==> KeyFrom(s, i, n)[j - i] == s[j] && s[j] != 0
    ensures var m := i + |KeyFrom(s, i, n)|; m == n || m >= |s| || s[m] == 0
    decreases n - i
  {
    if i < n && At(s, i) != 0 {
      KeyFromMeans(s, i + 1, n);
      var rest := KeyFrom(s, i + 1, n);
      assert KeyFrom(s, i, n) == [s[i]] + rest;
      forall j | i <= j < i + 1 + |rest|
        ensures ([s[i]] + rest)[j - i] == s[j] && s[j] != 0
      {
        if i < j {
          assert ([s[i]] + rest)[j - i] == rest[j - (i + 1)];
        }
      }
    }
  }

  /** Comparing two strings is comparing their keys: names that agree in nine bytes are one name. */
  lemma {:induction false} SameNameIsSameKey(a: seq<byte>, b: seq<byte>, i: nat, n: nat)
    ensures SameName(a, b, i, n) <==> KeyFrom(a, i, n) == KeyFrom(b, i, n)
    decreases n - i
  {
    if i < n {
      SameNameIsSameKey(a, b, i + 1, n);
      if At(a, i) != 0 {
        assert KeyFrom(a, i, n)[1..] == KeyFrom(a, i + 1, n);
      }
      if At(b, i) != 0 {
        assert KeyFrom(b, i, n)[1..] == KeyFrom(b, i + 1, n);
      }
    }
  }

  function Zeros(n: nat): (z: seq<byte>)
    ensures |z| == n
  {
    seq(n, _ => 0)
  }

  /** `strncpy(dst, src, 9)`: the key, padded with terminators; the tenth byte stays as it is. */
  function Strncpy(dst: seq<byte>, src: seq<byte>): (r: seq<byte>)
    requires |dst| == FILE_NAME_MAX_LEN + 1
    ensures |r| == |dst|
  {
    Key(src) + Zeros(FILE_NAME_MAX_LEN - |Key(src)|) + dst[FILE_NAME_MAX_LEN..]
  }

  lemma StrncpyMeans(dst: seq<byte>, src: seq<byte>)
    requires |dst| == FILE_NAME_MAX_LEN + 1
    ensures forall i :: 0 <= i < FILE_NAME_MAX_LEN ==> Strncpy(dst, src)[i] == if i < |Key(src)| then src[i] else 0
    ensures Strncpy(dst, src)[FILE_NAME_MAX_LEN] == dst[FILE_NAME_MAX_LEN]
    ensures |Key(src)| <= |src|
  {
    KeyMeans(src);
  }

  lemma {:induction false} KeyOfCopy(key: seq<byte>, s: seq<byte>, i: nat, n: nat, r: seq<byte>)
    requires i <= n && key == KeyFrom(s, i, n) && n <= |r|
    requires forall k :: i <= k < n ==> r[k] == if k - i < |key| then key[k - i] else 0
    ensures KeyFrom(r, i, n) == key
    decreases n - i
  {
    if key != [] {
      KeyOfCopy(key[1..], s, i + 1, n, r);
    }
  }

  lemma StrncpyKey(dst: seq<byte>, src: seq<byte>)
    requires |dst| == FILE_NAME_MAX_LEN + 1
    ensures Key(Strncpy(dst, src)) == Key(src)
  {
    KeyOfCopy(Key(src), src, 0, FILE_NAME_MAX_LEN, Strncpy(dst, src));
  }

  // ----- the table in memory and on disk -----

  /** The 20 bytes of a slot: flag, sector number, name, with the gaps that alignment leaves. */
  function EncodeEntry(e: DirectoryEntry): (b: seq<byte>)
    requires IsEntry(e)
    ensures |b| == ENTRY_SIZE
  {
    [if e.inUse then 1 else 0, 0, 0, 0] + EncodeInt(e.sector) + e.name + [0, 0]
  }

  function DecodeEntry(b: seq<byte>): (e: DirectoryEntry)
    requires |b| == ENTRY_SIZE
    ensures IsEntry(e)
  {
    DirectoryEntry(b[0] != 0, DecodeInt(b[4..8]), b[8..18])
  }

  lemma EntryRoundTrip(e: DirectoryEntry)
    requires IsEntry(e)
    ensures DecodeEntry(EncodeEntry(e)) == e
  {
    var b := EncodeEntry(e);
    assert b[4..8] == EncodeInt(e.sector) && b[8..18] == e.name;
    IntRoundTrip(e.sector);
  }

  function EncodeTable(t: seq<DirectoryEntry>): (b: seq<byte>)
    requires IsTable(t)
    ensures |b| == ENTRY_SIZE * |t|
  {
    if t == [] then [] else EncodeEntry(t[0]) + EncodeTable(t[1..])
  }

  function DecodeTable(b: seq<byte>): (t: seq<DirectoryEntry>)
    ensures |t| == |b| / ENTRY_SIZE && IsTable(t)
  {
    if |b| < ENTRY_SIZE then [] else [DecodeEntry(b[..ENTRY_SIZE])] + DecodeTable(b[ENTRY_SIZE..])
  }

  lemma {:induction false} TableRoundTrip(t: seq<DirectoryEntry>)
    requires IsTable(t)
    ensures DecodeTable(EncodeTable(t)) == t
  {
    if t != [] {
      var b := EncodeTable(t);
      assert b[..ENTRY_SIZE] == EncodeEntry(t[0]) && b[ENTRY_SIZE..] == EncodeTable(t[1..]);
      EntryRoundTrip(t[0]);
      TableRoundTrip(t[1..]);
    }
  }

  /** Where the fields of the slots are in the file. */
  lemma {:induction false} TableLayout(b: seq<byte>, k: nat)
    requires ENTRY_SIZE * k + ENTRY_SIZE <= |b|
    ensures var e, at := DecodeTable(b)[k], ENTRY_SIZE * k;
            && (e.inUse <==> b[at] != 0) && e.sector == DecodeInt(b[at + 4..at + 8]) && e.name == b[at + 8..at + 18]
    decreases k
  {
    hide DecodeEntry, DecodeTable;
    if k > 0 {
      var c, at := b[ENTRY_SIZE..], ENTRY_SIZE * (k - 1);
      TableLayout(c, k - 1);
      PartOfRest(b, ENTRY_SIZE, at + 4, at + 8);
      PartOfRest(b, ENTRY_SIZE, at + 8, at + 18);
      TableRest(b, k);
    } else {
      TableFirst(b);
      EntryLayout(b[..ENTRY_SIZE], b);
    }
  }

  lemma TableFirst(b: seq<byte>)
    requires ENTRY_SIZE <= |b|
    ensures DecodeTable(b)[0] == DecodeEntry(b[..ENTRY_SIZE])
  {
  }

  lemma TableRest(b: seq<byte>, k: nat)
    requires 0 < k && ENTRY_SIZE * k + ENTRY_SIZE <= |b|
    ensures DecodeTable(b)[k] == DecodeTable(b[ENTRY_SIZE..])[k - 1]
  {
    hide DecodeEntry;
  }

  lemma EntryLayout(c: seq<byte>, b: seq<byte>)
    requires |b| >= ENTRY_SIZE && c == b[..ENTRY_SIZE]
    ensures var e := DecodeEntry(c);
            (e.inUse <==> b[0] != 0) && e.sector == DecodeInt(b[4..8]) && e.name == b[8..18]
  {
    assert c[4..8] == b[4..8] && c[8..18] == b[8..18];
  }

  lemma PartOfRest(b: seq<byte>, n: nat, lo: nat, hi: nat)
    requires lo <= hi && n + hi <= |b|
    ensures b[n..][lo..hi] == b[n + lo..n + hi]
  {
  }

  // ----- what a table means -----

  predicate Matches(e: DirectoryEntry, key: seq<byte>) {
    e.inUse && Key(e.name) == key
  }

  /** The first slot from `i` on that holds `key`, or -1. */
  function IndexOf(t: seq<DirectoryEntry>, key: seq<byte>, i: nat): (r: int)
    requires i <= |t|
    ensures r == -1 ==> forall j :: i <= j < |t| ==> !Matches(t[j], key)
    ensures r != -1 ==> i <= r < |t| && Matches(t[r], key)
    ensures forall j :: i <= j < r ==> !Matches(t[j], key)
    decreases |t| - i
  {
    if i == |t| then -1 else if Matches(t[i], key) then i else IndexOf(t, key, i + 1)
  }

  /** The first slot from `i` on that is free, or -1. */
  function FreeSlot(t: seq<DirectoryEntry>, i: nat): (r: int)
    requires i <= |t|
    ensures r == -1 ==> forall j :: i <= j < |t| ==> t[j].inUse
    ensures r != -1 ==> i <= r < |t| && !t[r].inUse
    ensures forall j :: i <= j < r ==> t[j].inUse
    decreases |t| - i
  {
    if i == |t| then -1 else if !t[i].inUse then i else FreeSlot(t, i + 1)
  }

  /** The table with the slot of a name freed. */
  function Without(t: seq<DirectoryEntry>, key: seq<byte>): (u: seq<DirectoryEntry>)
    ensures |u| == |t|
    ensures IsTable(t) ==> IsTable(u)
  {
    var i := IndexOf(t, key, 0);
    if i == -1 then t else t[i := t[i].(inUse := false)]
  }

  class Directory {
    const tableSize: nat
    const table: array<DirectoryEntry>

    ghost predicate Valid()
      reads table
    {
      table.Length == tableSize && IsTable(table[..])
    }

    constructor (size: nat)
      ensures Valid() && tableSize == size && fresh(table)
      ensures forall i :: 0 <= i < size ==> !table[i].inUse
    {
      tableSize := size;
      table := new DirectoryEntry[size](_ => DirectoryEntry(false, 0, Zeros(FILE_NAME_MAX_LEN + 1)));
    }

    /** Reads the file over the memory of the table. */
    method FetchFrom(file: OpenFile)
      requires Valid() && file.Valid() && ENTRY_SIZE * tableSize <= INT_MAX
      modifies table
      ensures Valid()
      ensures var n := TransferCount(file.hdr.numBytes, ENTRY_SIZE * tableSize, 0);
              table[..] == DecodeTable(Overwrite(EncodeTable(old(table[..])), 0, Slice(file.Bytes(), 0, n)))
    {
      var size := ENTRY_SIZE * tableSize;
      var bytes := EncodeTable(table[..]);
      var raw := new byte[size](k requires 0 <= k < |bytes| => bytes[k]);
      assert raw[..] == bytes;
      var _ := file.ReadAt(raw, 0, size, 0);
      var entries := DecodeTable(raw[..]);
      forall i | 0 <= i < tableSize {
        table[i] := entries[i];
      }
      assert table[..] == entries;
    }

    method WriteBack(file: OpenFile)
      requires Valid() && file.Valid() && ENTRY_SIZE * tableSize <= INT_MAX
      modifies file.disk
      ensures file.Valid()
      ensures var n := TransferCount(file.hdr.numBytes, ENTRY_SIZE * tableSize, 0);
              file.Bytes() == Overwrite(old(file.Bytes()), 0, EncodeTable(table[..])[..n])
      ensures forall s :: 0 <= s < NUM_SECTORS && s !in Data(file.hdr.Value())
                ==> file.disk.sectors[s] == old(file.disk.sectors)[s]
    {
      var size := ENTRY_SIZE * tableSize;
      var bytes := EncodeTable(table[..]);
      var raw := new byte[size](k requires 0 <= k < |bytes| => bytes[k]);
      assert raw[..] == bytes;
      var n := file.WriteAt(raw, 0, size, 0);
      assert raw[0..n] == bytes[..n];
    }

    method FindIndex(name: seq<byte>) returns (r: int)
      requires Valid()
      ensures r == IndexOf(table[..], Key(name), 0)
    {
      for i := 0 to tableSize
        invariant IndexOf(table[..], Key(name), 0) == IndexOf(table[..], Key(name), i)
      {
        SameNameIsSameKey(table[i].name, name, 0, FILE_NAME_MAX_LEN);
        if table[i].inUse && SameName(table[i].name, name, 0, FILE_NAME_MAX_LEN) {
          return i;
        }
      }
      return -1;
    }

    method Find(name: seq<byte>) returns (sector: int)
      requires Valid()
      ensures var i := IndexOf(table[..], Key(name), 0);
              sector == if i == -1 then -1 else table[i].sector
    {
      var i := FindIndex(name);
      if i != -1 {
        return table[i].sector;
      }
      return -1;
    }

    method Add(name: seq<byte>, newSector: int32) returns (ok: bool)
      requires Valid()
      modifies table
      ensures Valid()
      ensures ok <==> IndexOf(old(table[..]), Key(name), 0) == -1 && FreeSlot(old(table[..]), 0) != -1
      ensures ok ==> var i := FreeSlot(old(table[..]), 0);
                     var entry := DirectoryEntry(true, newSector, Strncpy(old(table[i].name), name));
                     table[..] == old(table[..])[i := entry]
      ensures !ok ==> table[..] == old(table[..])
    {
      var found := FindIndex(name);
      if found != -1 {
        return false;
      }
      for i := 0 to tableSize
        invariant table[..] == old(table[..])
        invariant FreeSlot(table[..], 0) == FreeSlot(table[..], i)
      {
        if !table[i].inUse {
          assert IsEntry(table[..][i]);
          table[i] := DirectoryEntry(true, newSector, Strncpy(table[i].name, name));
          return true;
        }
      }
      return false;
    }

    method Remove(name: seq<byte>) returns (ok: bool)
      requires Valid()
      modifies table
      ensures Valid()
      ensures ok <==> IndexOf(old(table[..]), Key(name), 0) != -1
      ensures table[..] == Without(old(table[..]), Key(name))
      ensures ok ==> var i := IndexOf(old(table[..]), Key(name), 0);
                     table[..] == old(table[..])[i := old(table[i]).(inUse := false)]
      ensures !ok ==> table[..] == old(table[..])
    {
      var i := FindIndex(name);
      if i == -1 {
        return false;
      }
      assert IsEntry(table[..][i]);
      table[i] := table[i].(inUse := false);
      assert table[..] == Without(old(table[..]), Key(name));
      return true;
    }
  }
}

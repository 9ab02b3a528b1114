/** Byte-range access to an open file (filesys/openfile.cc). */
module OpenFiles {
  import opened Sequences
  import opened Bytes
  import opened BitMaps
  import opened Storage
  import opened FileHeaders

  /** How many bytes a request transfers: none if it asks for none or starts at or past the end,
      otherwise what it asks for, clipped at the end of the file. */
  function TransferCount(fileLength: int, numBytes: int, position: int): (n: nat)
    requires 0 <= position
    ensures n > 0 ==> position + n <= fileLength && n <= numBytes
    ensures 0 < numBytes && position < fileLength ==> n == numBytes || position + n == fileLength
  {
    if numBytes <= 0 || position >= fileLength then 0
    else if position + numBytes > fileLength then fileLength - position else numBytes
  }

  /** `n` bytes of `c` from `position`. */
  function Slice<T>(c: seq<T>, position: nat, n: nat): (r: seq<T>)
    requires n > 0 ==> position + n <= |c|
    ensures |r| == n && forall k :: 0 <= k < n ==> r[k] == c[position + k]
  {
    if n == 0 then [] else c[position..position + n]
  }

  /** `c` with `t` laid over it at `position`; nothing happens if `t` is empty. */
  function Overwrite<T>(c: seq<T>, position: nat, t: seq<T>): (r: seq<T>)
    requires t != [] ==> position + |t| <= |c|
    ensures |r| == |c|
    ensures forall k :: 0 <= k < |c| ==> r[k] == if position <= k < position + |t| then t[k - position] else c[k]
  {
    if t == [] then c else Splice(c, position, t)
  }

  /** Reading whole sectors into a buffer (at least where the request leaves them alone), changing the
      bytes asked for and writing the buffer back amounts to overwriting just those bytes. */
  lemma BufferedWrite(raw: seq<byte>, len: nat, base: nat, partial: seq<byte>, position: nat, t: seq<byte>)
    requires len <= |raw| && base + |partial| <= |raw|
    requires base <= position && position + |t| <= base + |partial| && position + |t| <= len
    requires forall k :: 0 <= k < |partial| && base + k < len && !(position <= base + k < position + |t|)
               ==> partial[k] == raw[..len][base + k]
    ensures Splice(raw, base, Splice(partial, position - base, t))[..len] == Splice(raw[..len], position, t)
  {
  }

  /** A request is found in the whole sectors read for it. */
  lemma BufferedRead(raw: seq<byte>, len: nat, lo: nat, hi: nat, position: nat, n: nat)
    requires lo <= position && position + n <= hi <= |raw| && position + n <= len <= |raw|
    ensures raw[lo..hi][position - lo..position - lo + n] == raw[..len][position..position + n]
  {
    var r, s := raw[lo..hi][position - lo..position - lo + n], raw[..len][position..position + n];
    assert |r| == |s| == n;
    assert forall k :: 0 <= k < n ==> r[k] == s[k];
  }

  lemma SpliceOn(raw: seq<byte>, at: nat, b: seq<byte>, m: nat, next: nat)
    requires m <= next <= |b| && at + next <= |raw|
    ensures Splice(Splice(raw, at, b[..m]), at + m, b[m..next]) == Splice(raw, at, b[..next])
  {
  }

  lemma NothingSpliced(raw: seq<byte>, at: nat, b: seq<byte>)
    requires at <= |raw|
    ensures Splice(raw, at, b[..0]) == raw
  {
  }

  /** Sector `i` of a file is written with the bytes of `b` that are its turn, after those before. */
  lemma NextSector(d: seq<seq<byte>>, data: seq<int>, raw: seq<byte>, first: nat, i: nat, b: seq<byte>)
    requires IsDisk(d) && OnDisk(data) && Distinct(data) && first <= i < |data|
    requires (i + 1 - first) * SECTOR_SIZE <= |b| && first * SECTOR_SIZE + |b| <= |raw|
    requires RawBytes(d, data) == Splice(raw, first * SECTOR_SIZE, b[..(i - first) * SECTOR_SIZE])
    ensures var sector := b[(i - first) * SECTOR_SIZE..(i - first) * SECTOR_SIZE + SECTOR_SIZE];
            && IsDisk(d[data[i] := sector])
            && RawBytes(d[data[i] := sector], data)
               == Splice(raw, first * SECTOR_SIZE, b[..(i + 1 - first) * SECTOR_SIZE])
  {
    hide RawBytes, Splice;
    var m := (i - first) * SECTOR_SIZE;
    RawWrite(d, data, i, b[m..m + SECTOR_SIZE]);
    SpliceOn(raw, first * SECTOR_SIZE, b, m, m + SECTOR_SIZE);
  }

  /** The sectors a request of `n` bytes at `position` touches. */
  lemma Span(h: Header, position: nat, n: nat)
    requires HeaderOk(h) && 0 < n && position + n <= h.numBytes
    ensures var first, last := position / SECTOR_SIZE, (position + n - 1) / SECTOR_SIZE;
            && first <= last < |Data(h)|
            && first * SECTOR_SIZE <= position < (first + 1) * SECTOR_SIZE
            && last * SECTOR_SIZE < position + n <= (last + 1) * SECTOR_SIZE
  {
  }

  method Bcopy(src: array<byte>, srcAt: nat, dst: array<byte>, dstAt: nat, n: nat)
    requires src != dst && srcAt + n <= src.Length && dstAt + n <= dst.Length
    modifies dst
    ensures dst[..] == Splice(old(dst[..]), dstAt, old(src[..])[srcAt..srcAt + n])
  {
    forall k | 0 <= k < n {
      dst[dstAt + k] := src[srcAt + k];
    }
  }

  /** `b` with the bytes of sector `i` of a file with contents `c` read over it at `at`. */
  ghost function WithSector(b: seq<byte>, at: nat, c: seq<byte>, i: nat): (r: seq<byte>)
    requires i * SECTOR_SIZE < |c| && at + SECTOR_SIZE <= |b|
  {
    var m := TransferCount(|c|, SECTOR_SIZE, i * SECTOR_SIZE);
    Overwrite(b, at, Slice(c, i * SECTOR_SIZE, m))
  }

  lemma PartialSectors(c: seq<byte>, first: nat, last: nat, n: nat, position: nat,
                       b0: seq<byte>, b1: seq<byte>, b2: seq<byte>)
    requires 0 < n && position + n <= |c| && first <= last && |b0| == |b1| == |b2| == (last + 1 - first) * SECTOR_SIZE
    requires first * SECTOR_SIZE <= position < (first + 1) * SECTOR_SIZE
    requires last * SECTOR_SIZE < position + n <= (last + 1) * SECTOR_SIZE
    requires b1 == if position != first * SECTOR_SIZE then WithSector(b0, 0, c, first) else b0
    requires b2 == if position + n != (last + 1) * SECTOR_SIZE && (first != last || position == first * SECTOR_SIZE)
                   then WithSector(b1, (last - first) * SECTOR_SIZE, c, last) else b1
    ensures forall k :: 0 <= k < |b2| && first * SECTOR_SIZE + k < |c|
              && !(position <= first * SECTOR_SIZE + k < position + n)
              ==> b2[k] == c[first * SECTOR_SIZE + k]
  {
  }

  /** The sectors that hold the `n` bytes of a file from `position`; none if the file has no such bytes. */
  ghost function SectorsWritten(h: Header, position: nat, n: nat): (w: set<int>)
    ensures HeaderOk(h) ==> forall s :: s in w ==> s in Data(h)
  {
    if !HeaderOk(h) || n == 0 || position + n > h.numBytes then {}
    else
      Span(h, position, n);
      Elements(Data(h)[position / SECTOR_SIZE..(position + n - 1) / SECTOR_SIZE + 1])
  }

  lemma WrittenAre(h: Header, position: nat, n: nat)
    requires HeaderOk(h) && 0 < n && position + n <= h.numBytes
    ensures var first, last := position / SECTOR_SIZE, (position + n - 1) / SECTOR_SIZE;
            && first <= last < |Data(h)|
            && forall s :: s in SectorsWritten(h, position, n) <==> s in Data(h)[first..last + 1]
  {
    Span(h, position, n);
  }

  class OpenFile {
    const disk: SectorDisk
    const hdr: FileHeader
    var seekPosition: int

    /** The cached header describes a file on a disk. */
    ghost predicate Valid()
      reads disk, hdr, hdr.dataSectors
    {
      hdr.Valid() && IsDisk(disk.sectors) && HeaderOk(hdr.Value())
    }

    ghost function Bytes(): (c: seq<byte>)
      requires Valid()
      reads disk, hdr, hdr.dataSectors
      ensures |c| == Max0(hdr.numBytes)
    {
      Contents(disk.sectors, hdr.Value())
    }

    constructor (disk: SectorDisk, sector: int)
      requires IsDisk(disk.sectors) && 0 <= sector < NUM_SECTORS
      ensures this.disk == disk && fresh(hdr) && hdr.Valid() && fresh(hdr.dataSectors)
      ensures hdr.Value() == DecodeHeader(disk.sectors[sector])
      ensures seekPosition == 0
    {
      this.disk := disk;
      hdr := new FileHeader();
      seekPosition := 0;
      new;
      hdr.FetchFrom(disk, sector);
    }

    method Seek(position: int)
      modifies this
      ensures seekPosition == position
    {
      seekPosition := position;
    }

    /** The loop of ReadAt: whole sectors `first` to `last` of the file, into `buf`. */
    method ReadSectors(first: nat, last: nat, buf: array<byte>)
      requires Valid() && first <= last < |Data(hdr.Value())| && buf.Length == (last + 1 - first) * SECTOR_SIZE
      modifies buf
      ensures buf[..] == RawBytes(disk.sectors, Data(hdr.Value()))[first * SECTOR_SIZE..(last + 1) * SECTOR_SIZE]
    {
      ghost var data := Data(hdr.Value());
      ghost var raw := RawBytes(disk.sectors, data);
      for i := first to last + 1
        invariant buf[..(i - first) * SECTOR_SIZE] == raw[first * SECTOR_SIZE..i * SECTOR_SIZE]
      {
        ghost var before := buf[..];
        assert hdr.ByteToSector(i * SECTOR_SIZE) == data[i];
        disk.ReadSector(hdr.ByteToSector(i * SECTOR_SIZE), buf, (i - first) * SECTOR_SIZE);
        RawSector(disk.sectors, data, i);
        assert buf[..(i + 1 - first) * SECTOR_SIZE] == before[..(i - first) * SECTOR_SIZE] + disk.sectors[data[i]];
        assert raw[first * SECTOR_SIZE..(i + 1) * SECTOR_SIZE] == raw[..(i + 1) * SECTOR_SIZE][first * SECTOR_SIZE..];
        assert raw[first * SECTOR_SIZE..i * SECTOR_SIZE] == raw[..i * SECTOR_SIZE][first * SECTOR_SIZE..];
      }
      assert buf[..] == buf[..(last + 1 - first) * SECTOR_SIZE];
    }

    /** Reads into `into[at..]`. */
    method ReadAt(into: array<byte>, at: nat, numBytes: int, position: int) returns (n: nat)
      requires Valid() && 0 <= position && position + numBytes <= INT_MAX
      requires at + TransferCount(hdr.numBytes, numBytes, position) <= into.Length
      modifies into
      ensures n == TransferCount(hdr.numBytes, numBytes, position)
      ensures 0 < numBytes && position < hdr.numBytes ==> n == numBytes || position + n == hdr.numBytes
      ensures into[..] == Overwrite(old(into[..]), at, Slice(Bytes(), position, n))
    {
      hide Contents, Splice, OnDisk;
      var fileLength := hdr.FileLength();
      if numBytes <= 0 || position >= fileLength {
        return 0;
      }
      n := numBytes;
      if position + n > fileLength {
        n := fileLength - position;
      }
      ReadInside(into, at, n, position);
    }

    /** The part of ReadAt after the request has been clipped. */
    method ReadInside(into: array<byte>, at: nat, n: nat, position: nat)
      requires Valid() && 0 < n && position + n <= hdr.numBytes && at + n <= into.Length
      modifies into
      ensures into[..] == Splice(old(into[..]), at, Bytes()[position..position + n])
    {
      var firstSector := position / SECTOR_SIZE;
      var lastSector := (position + n - 1) / SECTOR_SIZE;
      var numSectors := 1 + lastSector - firstSector;
      Span(hdr.Value(), position, n);
      var buf := new byte[numSectors * SECTOR_SIZE];
      ReadSectors(firstSector, lastSector, buf);
      BufferedRead(RawBytes(disk.sectors, Data(hdr.Value())), hdr.numBytes,
                   firstSector * SECTOR_SIZE, (lastSector + 1) * SECTOR_SIZE, position, n);
      Bcopy(buf, position - firstSector * SECTOR_SIZE, into, at, n);
    }

    /** The last loop of WriteAt: `buf` over whole sectors `first` to `last` of the file. */
    method WriteSectors(first: nat, last: nat, buf: array<byte>)
      requires Valid() && first <= last < |Data(hdr.Value())| && buf.Length == (last + 1 - first) * SECTOR_SIZE
      modifies disk
      ensures IsDisk(disk.sectors)
      ensures RawBytes(disk.sectors, Data(hdr.Value()))
           == Splice(RawBytes(old(disk.sectors), Data(hdr.Value())), first * SECTOR_SIZE, buf[..])
      ensures forall s :: 0 <= s < NUM_SECTORS && s !in Data(hdr.Value())[first..last + 1] ==>
                disk.sectors[s] == old(disk.sectors)[s]
    {
      hide Splice, RawBytes;
      ghost var data, bytes := Data(hdr.Value()), buf[..];
      ghost var raw := RawBytes(disk.sectors, data);
      NothingSpliced(raw, first * SECTOR_SIZE, bytes);
      for i := first to last + 1
        invariant IsDisk(disk.sectors)
        invariant forall s :: 0 <= s < NUM_SECTORS && s !in data[first..last + 1] ==>
                    disk.sectors[s] == old(disk.sectors)[s]
        invariant RawBytes(disk.sectors, data) == Splice(raw, first * SECTOR_SIZE, bytes[..(i - first) * SECTOR_SIZE])
      {
        ghost var m := (i - first) * SECTOR_SIZE;
        assert hdr.ByteToSector(i * SECTOR_SIZE) == data[i] == data[first..last + 1][i - first];
        NextSector(disk.sectors, data, raw, first, i, bytes);
        assert buf[m..m + SECTOR_SIZE] == bytes[m..m + SECTOR_SIZE];
        disk.WriteSector(hdr.ByteToSector(i * SECTOR_SIZE), buf, (i - first) * SECTOR_SIZE);
      }
      assert bytes == bytes[..(last + 1 - first) * SECTOR_SIZE];
    }

    /** Writes `from[at..]` at `position`. */
    method WriteAt(from: array<byte>, at: nat, numBytes: int, position: int) returns (n: nat)
      requires Valid() && 0 <= position && position + numBytes <= INT_MAX
      requires at + TransferCount(hdr.numBytes, numBytes, position) <= from.Length
      modifies disk
      ensures Valid()
      ensures n == TransferCount(hdr.numBytes, numBytes, position)
      ensures 0 < numBytes && position < hdr.numBytes ==> n == numBytes || position + n == hdr.numBytes
      ensures Bytes() == Overwrite(old(Bytes()), position, from[at..at + n])
      ensures forall s :: 0 <= s < NUM_SECTORS && s !in SectorsWritten(hdr.Value(), position, n) ==>
                disk.sectors[s] == old(disk.sectors)[s]
    {
      hide SectorsWritten, Contents, Splice, OnDisk;
      var fileLength := hdr.FileLength();
      if numBytes <= 0 || position >= fileLength {
        return 0;
      }
      n := numBytes;
      if position + n > fileLength {
        n := fileLength - position;
      }
      WriteInside(from, at, n, position);
    }

    /** The part of WriteAt after the request has been clipped. */
    method WriteInside(from: array<byte>, at: nat, n: nat, position: nat)
      requires Valid() && 0 < n && position + n <= hdr.numBytes && at + n <= from.Length
      modifies disk
      ensures IsDisk(disk.sectors)
      ensures Bytes() == Splice(old(Bytes()), position, from[at..at + n])
      ensures forall s :: 0 <= s < NUM_SECTORS && s !in SectorsWritten(hdr.Value(), position, n) ==>
                disk.sectors[s] == old(disk.sectors)[s]
    {
      hide SectorsWritten, Splice, RawBytes, OnDisk;
      var firstSector := position / SECTOR_SIZE;
      var lastSector := (position + n - 1) / SECTOR_SIZE;
      var numSectors := 1 + lastSector - firstSector;
      Span(hdr.Value(), position, n);
      WrittenAre(hdr.Value(), position, n);
      var buf := new byte[numSectors * SECTOR_SIZE];
      ReadPartial(firstSector, lastSector, n, position, buf);
      ghost var raw, partial, t := RawBytes(disk.sectors, Data(hdr.Value())), buf[..], from[..][at..at + n];
      BufferedWrite(raw, hdr.numBytes, firstSector * SECTOR_SIZE, partial, position, t);
      Bcopy(from, at, buf, position - firstSector * SECTOR_SIZE, n);
      assert buf[..] == Splice(partial, position - firstSector * SECTOR_SIZE, t);
      WriteSectors(firstSector, lastSector, buf);
      assert from[at..at + n] == t;
    }

    /** Reads the first and the last sector if they are to be partly overwritten. Afterwards every byte
        of the buffer that lies in the file, but outside the request, is the file's. */
    method ReadPartial(first: nat, last: nat, n: nat, position: nat, buf: array<byte>)
      requires Valid() && 0 < n && position + n <= hdr.numBytes && first <= last
      requires first * SECTOR_SIZE <= position < (first + 1) * SECTOR_SIZE
      requires last * SECTOR_SIZE < position + n <= (last + 1) * SECTOR_SIZE
      requires buf.Length == (last + 1 - first) * SECTOR_SIZE
      modifies buf
      ensures forall k :: 0 <= k < buf.Length && first * SECTOR_SIZE + k < hdr.numBytes
                && !(position <= first * SECTOR_SIZE + k < position + n)
                ==> buf[k] == Bytes()[first * SECTOR_SIZE + k]
    {
      hide Overwrite, Slice, Contents;
      var firstAligned := position == first * SECTOR_SIZE;
      var lastAligned := position + n == (last + 1) * SECTOR_SIZE;
      ghost var c, b0 := Bytes(), buf[..];
      if !firstAligned {
        var _ := ReadAt(buf, 0, SECTOR_SIZE, first * SECTOR_SIZE);
      }
      ghost var b1 := buf[..];
      if !lastAligned && (first != last || firstAligned) {
        var _ := ReadAt(buf, (last - first) * SECTOR_SIZE, SECTOR_SIZE, last * SECTOR_SIZE);
      }
      PartialSectors(c, first, last, n, position, b0, b1, buf[..]);
    }

    /** Reads from the seek position and moves it past what was read. */
    method Read(into: array<byte>, at: nat, numBytes: int) returns (result: nat)
      requires Valid() && 0 <= seekPosition && seekPosition + numBytes <= INT_MAX
      requires at + TransferCount(hdr.numBytes, numBytes, seekPosition) <= into.Length
      modifies into, this`seekPosition
      ensures result == TransferCount(hdr.numBytes, numBytes, old(seekPosition))
      ensures into[..] == Overwrite(old(into[..]), at, Slice(Bytes(), old(seekPosition), result))
      ensures seekPosition == old(seekPosition) + result
    {
      result := ReadAt(into, at, numBytes, seekPosition);
      seekPosition := seekPosition + result;
    }

    method Write(from: array<byte>, at: nat, numBytes: int) returns (result: nat)
      requires Valid() && 0 <= seekPosition && seekPosition + numBytes <= INT_MAX
      requires at + TransferCount(hdr.numBytes, numBytes, seekPosition) <= from.Length
      modifies disk, this`seekPosition
      ensures Valid()
      ensures result == TransferCount(hdr.numBytes, numBytes, old(seekPosition))
      ensures Bytes() == Overwrite(old(Bytes()), old(seekPosition), from[at..at + result])
      ensures forall s :: 0 <= s < NUM_SECTORS && s !in SectorsWritten(hdr.Value(), old(seekPosition), result) ==>
                disk.sectors[s] == old(disk.sectors)[s]
      ensures seekPosition == old(seekPosition) + result
    {
      result := WriteAt(from, at, numBytes, seekPosition);
      seekPosition := seekPosition + result;
    }
  }
}

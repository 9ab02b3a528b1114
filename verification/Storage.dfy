/** The disk as its callers see it once a request has completed: an array of sectors
    (machine/disk.h, filesys/synchdisk.cc). The request protocol is in SynchDiskProtocol. */
module Storage {
  import opened Bytes

  const SECTOR_SIZE := 128
  const NUM_SECTORS := 1024

  ghost predicate IsDisk(d: seq<seq<byte>>) {
    |d| == NUM_SECTORS && forall s :: 0 <= s < NUM_SECTORS ==> |d[s]| == SECTOR_SIZE
  }

  class SectorDisk {
    var sectors: seq<seq<byte>>

    /** Copies one sector to `data[at..]`. */
    method ReadSector(sector: int, data: array<byte>, at: nat)
      requires IsDisk(sectors) && 0 <= sector < NUM_SECTORS && at + SECTOR_SIZE <= data.Length
      modifies data
      ensures data[..] == Splice(old(data[..]), at, sectors[sector])
    {
      forall k | 0 <= k < SECTOR_SIZE {
        data[at + k] := sectors[sector][k];
      }
    }

    /** Overwrites one sector with `data[at..]`. */
    method WriteSector(sector: int, data: array<byte>, at: nat)
      requires IsDisk(sectors) && 0 <= sector < NUM_SECTORS && at + SECTOR_SIZE <= data.Length
      modifies this
      ensures IsDisk(sectors)
      ensures sectors == old(sectors)[sector := data[at..at + SECTOR_SIZE]]
    {
      sectors := sectors[sector := data[at..at + SECTOR_SIZE]];
    }
  }
}

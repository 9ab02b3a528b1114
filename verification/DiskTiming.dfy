/** How long requests to the simulated disk take (machine/disk.cc): seek, rotation and transfer, and the
    track buffer. Time is counted in 64 bits but kept here in an `int`. */
module DiskTiming {

  const SECTORS_PER_TRACK := 32
  const NUM_TRACKS := 32
  const NUM_SECTORS := 1024
  const ROTATION_TIME := 500
  const SEEK_TIME := 500
  const INT_MAX := 0x7fff_ffff

  /** Conversion to `int`. */
  function ToInt(x: int): (r: int)
    ensures -0x8000_0000 <= r <= INT_MAX
    ensures -0x8000_0000 <= x <= INT_MAX ==> r == x
    ensures (x - r) % 0x1_0000_0000 == 0
  {
    (x + 0x8000_0000) % 0x1_0000_0000 - 0x8000_0000
  }

  /** C division and remainder. */
  function Div(a: int, b: int): (q: int)
    requires b > 0
    ensures if a >= 0 then b * q <= a < b * q + b else b * q - b < a <= b * q
  {
    if a >= 0 then a / b else -(-a / b)
  }

  function Mod(a: int, b: int): int
    requires b > 0
  {
    a - b * Div(a, b)
  }

  function Abs(x: int): (a: nat)
    ensures a == x || a == -x
  {
    if x < 0 then -x else x
  }

  predicate IsSector(s: int) {
    0 <= s < NUM_SECTORS
  }

  /** Ticks to get to the track of a sector. */
  function Seek(lastSector: int, newSector: int): int {
    Abs(newSector / SECTORS_PER_TRACK - lastSector / SECTORS_PER_TRACK) * SEEK_TIME
  }

  /** Ticks from the end of the seek until the next sector boundary passes the head. */
  function Rotation(now: nat, seek: nat): int {
    var over := (now + seek) % ROTATION_TIME;
    if over > 0 then ROTATION_TIME - over else 0
  }

  /** Sectors of rotation from one position to another. */
  function ModuloDiff(to: int, from: int): int {
    Mod(Mod(to, SECTORS_PER_TRACK) - Mod(from, SECTORS_PER_TRACK) + SECTORS_PER_TRACK, SECTORS_PER_TRACK)
  }

  /** The first sector boundary after the seek, as the code computes it. */
  function TimeAfter(lastSector: int, now: nat, newSector: int): int {
    ToInt(now + Seek(lastSector, newSector) + Rotation(now, Seek(lastSector, newSector)))
  }

  /** The request finds its sector in the track buffer. */
  predicate Hit(lastSector: int, bufferInit: int, now: nat, newSector: int, writing: bool) {
    && !writing
    && Seek(lastSector, newSector) == 0
    && Div(ToInt(TimeAfter(lastSector, now, newSector) - bufferInit), ROTATION_TIME)
         > ModuloDiff(newSector, Div(bufferInit, ROTATION_TIME))
  }

  /** The latency if it does not. */
  function Miss(lastSector: int, now: nat, newSector: int): int {
    var seek := Seek(lastSector, newSector);
    var sectors := ModuloDiff(newSector, Div(TimeAfter(lastSector, now, newSector), ROTATION_TIME));
    seek + Rotation(now, seek) + sectors * ROTATION_TIME + ROTATION_TIME
  }

  function Latency(lastSector: int, bufferInit: int, now: nat, newSector: int, writing: bool): int {
    if Hit(lastSector, bufferInit, now, newSector, writing) then ROTATION_TIME else Miss(lastSector, now, newSector)
  }

  // ----- the turning disk -----

  /** At time `t`, a multiple of the rotation time, the head is at the start of this sector of its track. */
  predicate HeadAt(t: nat, sector: int) {
    t % ROTATION_TIME == 0 && t / ROTATION_TIME % SECTORS_PER_TRACK == sector % SECTORS_PER_TRACK
  }

  /** The first time from `from` on at which the head is at the start of a sector. */
  ghost predicate FirstAt(t: nat, from: nat, sector: int) {
    from <= t && HeadAt(t, sector) && forall u: nat :: from <= u < t ==> !HeadAt(u, sector)
  }

  /** The result is a number of sectors by which the disk turns from one position to the other, whatever
      the sign of the position. */
  lemma ModuloDiffMeans(to: nat, from: int)
    ensures 0 <= ModuloDiff(to, from) < SECTORS_PER_TRACK
    ensures (from + ModuloDiff(to, from)) % SECTORS_PER_TRACK == to % SECTORS_PER_TRACK
  {
  }

  /** It is the least such number of sectors. */
  lemma ModuloDiffLeast(to: nat, from: nat, d: nat)
    requires d < ModuloDiff(to, from)
    ensures (from + d) % SECTORS_PER_TRACK != to % SECTORS_PER_TRACK
  {
  }

  lemma SeekBounds(lastSector: int, newSector: int)
    requires IsSector(lastSector) && IsSector(newSector)
    ensures 0 <= Seek(lastSector, newSector) <= (NUM_TRACKS - 1) * SEEK_TIME
    ensures Seek(lastSector, newSector) == 0 <==> newSector / SECTORS_PER_TRACK == lastSector / SECTORS_PER_TRACK
  {
  }

  // ----- requests -----

  /** The arm takes SEEK_TIME for each track that it crosses. */
  lemma SeekMeans(lastSector: int, newSector: int)
    requires IsSector(lastSector) && IsSector(newSector)
    ensures Seek(lastSector, newSector)
         == SEEK_TIME * Abs(newSector / SECTORS_PER_TRACK - lastSector / SECTORS_PER_TRACK)
  {
  }

  /** When the disk has reached the track and a sector boundary. */
  function Boundary(lastSector: int, now: nat, newSector: int): int {
    now + Seek(lastSector, newSector) + Rotation(now, Seek(lastSector, newSector))
  }

  lemma BoundaryMeans(lastSector: int, now: nat, newSector: int)
    requires IsSector(lastSector) && IsSector(newSector)
    ensures var tracks := Abs(newSector / SECTORS_PER_TRACK - lastSector / SECTORS_PER_TRACK);
            var b, start := Boundary(lastSector, now, newSector), now + SEEK_TIME * tracks;
            && start <= b < start + ROTATION_TIME && b % ROTATION_TIME == 0
            && forall u: nat :: start <= u < b ==> u % ROTATION_TIME != 0
  {
    hide Seek, Rotation, Abs;
    SeekMeans(lastSector, newSector);
    RotationIs(now, Seek(lastSector, newSector));
    RotationMeans(now + Seek(lastSector, newSector), Rotation(now, Seek(lastSector, newSector)));
  }

  lemma RotationIs(now: nat, seek: nat)
    ensures var over := (now + seek) % ROTATION_TIME;
            Rotation(now, seek) == if over > 0 then ROTATION_TIME - over else 0
  {
  }

  /** Rotating up to the next boundary passes none on the way. */
  lemma RotationMeans(start: nat, rotation: int)
    requires rotation == if start % ROTATION_TIME > 0 then ROTATION_TIME - start % ROTATION_TIME else 0
    ensures 0 <= rotation < ROTATION_TIME && (start + rotation) % ROTATION_TIME == 0
    ensures forall u: nat :: start <= u < start + rotation ==> u % ROTATION_TIME != 0
  {
  }

  /** From a boundary `b`, the head is first at a sector after ModuloDiff sectors. */
  lemma FirstFrom(b: nat, sector: nat)
    requires b % ROTATION_TIME == 0
    ensures FirstAt(b + ModuloDiff(sector, b / ROTATION_TIME) * ROTATION_TIME, b, sector)
  {
    var q, d := b / ROTATION_TIME, ModuloDiff(sector, b / ROTATION_TIME);
    ModuloDiffMeans(sector, q);
    var t := b + d * ROTATION_TIME;
    assert t == ROTATION_TIME * (q + d);
    assert t / ROTATION_TIME == q + d;
    forall u: nat | b <= u < t && u % ROTATION_TIME == 0
      ensures !HeadAt(u, sector)
    {
      var k := u / ROTATION_TIME - q;
      assert u == ROTATION_TIME * (q + k);
      ModuloDiffLeast(sector, q, k);
    }
  }

  /** As long as time fits in an int, a request that misses the track buffer is done one sector time after
      the first time, once the seek is over, at which the head is at the sector. */
  lemma MissFinishes(lastSector: int, now: nat, newSector: int)
    requires IsSector(lastSector) && IsSector(newSector) && Boundary(lastSector, now, newSector) <= INT_MAX
    ensures var t := now + Miss(lastSector, now, newSector) - ROTATION_TIME;
            var tracks := Abs(newSector / SECTORS_PER_TRACK - lastSector / SECTORS_PER_TRACK);
            t >= 0 && FirstAt(t, now + SEEK_TIME * tracks, newSector)
  {
    var b := Boundary(lastSector, now, newSector);
    BoundaryMeans(lastSector, now, newSector);
    FirstFrom(b, newSector);
    assert Div(TimeAfter(lastSector, now, newSector), ROTATION_TIME) == b / ROTATION_TIME;
  }

  /** Once time does not fit, the code looks for the sector fourteen places off. */
  lemma OffByFourteen(b: nat)
    requires b % ROTATION_TIME == 0 && INT_MAX < b < 0x1_0000_0000
    ensures Div(ToInt(b), ROTATION_TIME) == b / ROTATION_TIME - 8589934
    ensures 8589934 % SECTORS_PER_TRACK == 14
  {
  }

  /** For times below 2^32: the request finishes when its sector has passed the head exactly if the time of
      the boundary fits in an int. */
  lemma MissFinishesIff(lastSector: int, now: nat, newSector: int)
    requires IsSector(lastSector) && IsSector(newSector) && Boundary(lastSector, now, newSector) < 0x1_0000_0000
    ensures var t := now + Miss(lastSector, now, newSector) - ROTATION_TIME;
            var tracks := Abs(newSector / SECTORS_PER_TRACK - lastSector / SECTORS_PER_TRACK);
            && t >= 0
            && (FirstAt(t, now + SEEK_TIME * tracks, newSector)
                <==> Boundary(lastSector, now, newSector) <= INT_MAX)
  {
    var b := Boundary(lastSector, now, newSector);
    BoundaryMeans(lastSector, now, newSector);
    if b <= INT_MAX {
      MissFinishes(lastSector, now, newSector);
    } else {
      OffByFourteen(b);
      var q, n := b / ROTATION_TIME, b / ROTATION_TIME - 8589934;
      ModuloDiffMeans(newSector, n);
      var d := ModuloDiff(newSector, n);
      assert b + d * ROTATION_TIME == ROTATION_TIME * (q + d);
      FourteenOff(q + d, newSector);
    }
  }

  lemma FourteenOff(x: nat, sector: nat)
    requires (x - 8589934) % SECTORS_PER_TRACK == sector % SECTORS_PER_TRACK
    ensures x % SECTORS_PER_TRACK != sector % SECTORS_PER_TRACK
  {
  }

  /** For instance, a request for sector 0 made at time 2^31, with the head on its track: the head is at the
      sector eight sector times after the next boundary, and the code waits for twenty-two. */
  lemma LateRequest()
    ensures var now := 0x8000_0000;
            var b := Boundary(0, now, 0);
            && b == INT_MAX + 353 && FirstAt(b + 8 * ROTATION_TIME, now, 0)
            && now + Miss(0, now, 0) - ROTATION_TIME == b + 22 * ROTATION_TIME && !HeadAt(b + 22 * ROTATION_TIME, 0)
  {
    hide FirstAt, HeadAt, Boundary, Miss, ModuloDiff;
    var now: nat := 0x8000_0000;
    var b := Boundary(0, now, 0);
    LateBoundary(now);
    LateMiss(now);
    BoundaryMeans(0, now, 0);
    FirstFrom(b, 0);
    LateDistance(b);
    EarlierStart(b + 8 * ROTATION_TIME, b, now, 0);
    NotThere(b);
  }

  lemma LateBoundary(now: nat)
    requires now == 0x8000_0000
    ensures Seek(0, 0) == 0 && Boundary(0, now, 0) == now + 352
  {
  }

  lemma LateMiss(now: nat)
    requires now == 0x8000_0000
    ensures Miss(0, now, 0) == 352 + 22 * ROTATION_TIME + ROTATION_TIME
  {
    LateBoundary(now);
    assert TimeAfter(0, now, 0) == ToInt(2147484000) == -2147483296;
  }

  lemma LateDistance(b: nat)
    requires b == 2147484000
    ensures ModuloDiff(0, b / ROTATION_TIME) == 8
  {
  }

  lemma EarlierStart(t: nat, b: nat, start: nat, sector: int)
    requires FirstAt(t, b, sector) && start <= b && forall u: nat :: start <= u < b ==> u % ROTATION_TIME != 0
    ensures FirstAt(t, start, sector)
  {
  }

  lemma NotThere(b: nat)
    requires b == 2147484000
    ensures !HeadAt(b + 22 * ROTATION_TIME, 0)
  {
  }

  /** No request takes less than a sector time, or more than the longest seek and a full turn. This holds
      at any time. */
  lemma LatencyBounds(lastSector: int, bufferInit: int, now: nat, newSector: int, writing: bool)
    requires IsSector(lastSector) && IsSector(newSector)
    ensures ROTATION_TIME <= Latency(lastSector, bufferInit, now, newSector, writing) <= 31999
    ensures Latency(lastSector, bufferInit, now, newSector, writing) <= Miss(lastSector, now, newSector)
  {
  }

  /** The whole of a sector has passed the head between two times. */
  ghost predicate PassedSince(start: nat, end: int, sector: int) {
    exists t: nat :: start <= t && HeadAt(t, sector) && t + ROTATION_TIME <= end
  }

  /** Below 2^32: a read finds its sector in the track buffer exactly if it is on the track that the head is
      on and the whole sector will have passed since the buffer was started; but if the buffer was started
      less than 2^31 ticks before, and, once its own time does not fit in an int, with the sector fourteen
      places further on instead. */
  lemma HitIff(lastSector: int, started: nat, now: nat, newSector: int)
    requires IsSector(lastSector) && IsSector(newSector) && Boundary(lastSector, now, newSector) < 0x1_0000_0000
    requires started % ROTATION_TIME == 0 && started <= now
    ensures var b := Boundary(lastSector, now, newSector);
            Hit(lastSector, ToInt(started), now, newSector, false) <==>
              && newSector / SECTORS_PER_TRACK == lastSector / SECTORS_PER_TRACK
              && b - started <= INT_MAX
              && PassedSince(started, b, if started <= INT_MAX then newSector else newSector + 14)
  {
    hide Boundary, PassedSince;
    SeekBounds(lastSector, newSector);
    if newSector / SECTORS_PER_TRACK == lastSector / SECTORS_PER_TRACK {
      HitOnTrack(lastSector, started, now, newSector);
    }
  }

  lemma HitOnTrack(lastSector: int, started: nat, now: nat, newSector: int)
    requires IsSector(lastSector) && IsSector(newSector) && Boundary(lastSector, now, newSector) < 0x1_0000_0000
    requires started % ROTATION_TIME == 0 && started <= now && Seek(lastSector, newSector) == 0
    ensures var b := Boundary(lastSector, now, newSector);
            Hit(lastSector, ToInt(started), now, newSector, false) <==>
              && b - started <= INT_MAX
              && PassedSince(started, b, if started <= INT_MAX then newSector else newSector + 14)
  {
    hide Boundary, Seek, Rotation, PassedSince, HeadAt, ModuloDiff, ToInt, Div;
    var b := Boundary(lastSector, now, newSector);
    var sought := if started <= INT_MAX then newSector else newSector + 14;
    var d := ModuloDiff(sought, started / ROTATION_TIME);
    ModuloDiffMeans(sought, started / ROTATION_TIME);
    BoundaryMeans(lastSector, now, newSector);
    TimeAfterIs(lastSector, now, newSector);
    SoughtFor(started, newSector);
    Elapsed(b, started);
    WholeSectors(b, started, d);
    PassedIff(started, b, sought);
  }

  lemma TimeAfterIs(lastSector: int, now: nat, newSector: int)
    ensures TimeAfter(lastSector, now, newSector) == ToInt(Boundary(lastSector, now, newSector))
  {
  }

  /** What the code's place for the sector means. */
  lemma SoughtFor(started: nat, newSector: int)
    requires IsSector(newSector) && started % ROTATION_TIME == 0 && started < 0x1_0000_0000
    ensures var sought := if started <= INT_MAX then newSector else newSector + 14;
            ModuloDiff(newSector, Div(ToInt(started), ROTATION_TIME)) == ModuloDiff(sought, started / ROTATION_TIME)
  {
    if started > INT_MAX {
      OffByFourteen(started);
      var q := started / ROTATION_TIME;
      ModuloDiffMeans(newSector, q - 8589934);
      ModuloDiffMeans(newSector + 14, q);
      SameDistance(ModuloDiff(newSector, q - 8589934), ModuloDiff(newSector + 14, q), q, newSector);
    }
  }

  lemma SameDistance(c: nat, d: nat, q: int, sector: nat)
    requires c < SECTORS_PER_TRACK && d < SECTORS_PER_TRACK
    requires (q - 8589934 + c) % SECTORS_PER_TRACK == sector % SECTORS_PER_TRACK
    requires (q + d) % SECTORS_PER_TRACK == (sector + 14) % SECTORS_PER_TRACK
    ensures c == d
  {
  }

  /** The difference of two times in ints. */
  lemma Elapsed(b: nat, started: nat)
    requires started <= b < 0x1_0000_0000
    ensures var e := ToInt(ToInt(b) - ToInt(started));
            if b - started <= INT_MAX then e == b - started else e < 0
  {
  }

  lemma PassedIff(start: nat, b: nat, sector: nat)
    requires start % ROTATION_TIME == 0
    ensures PassedSince(start, b, sector) <==>
              start + ModuloDiff(sector, start / ROTATION_TIME) * ROTATION_TIME + ROTATION_TIME <= b
  {
    FirstFrom(start, sector);
    if PassedSince(start, b, sector) {
      var u: nat :| start <= u && HeadAt(u, sector) && u + ROTATION_TIME <= b;
      assert start + ModuloDiff(sector, start / ROTATION_TIME) * ROTATION_TIME <= u;
    }
  }

  lemma WholeSectors(b: nat, start: nat, d: nat)
    requires b % ROTATION_TIME == 0 && start % ROTATION_TIME == 0 && start <= b
    ensures Div(b - start, ROTATION_TIME) > d <==> start + d * ROTATION_TIME + ROTATION_TIME <= b
  {
  }

  // ----- hits after 2^31 -----

  /** The test for a hit says of this sector of the track whether it is in the buffer. */
  ghost predicate HitRight(lastSector: int, started: nat, now: nat, newSector: int) {
    Hit(lastSector, ToInt(started), now, newSector, false)
    <==> PassedSince(started, Boundary(lastSector, now, newSector), newSector)
  }

  predicate SameTrack(a: int, b: int) {
    IsSector(a) && IsSector(b) && a / SECTORS_PER_TRACK == b / SECTORS_PER_TRACK
  }

  /** On the head's own track the boundary does not depend on the sector. */
  lemma SameBoundary(lastSector: int, now: nat, newSector: int)
    requires SameTrack(newSector, lastSector)
    ensures Boundary(lastSector, now, newSector) == Boundary(lastSector, now, lastSector)
  {
  }

  /** The sector of a track that is `d` places after a position. */
  lemma SectorAt(lastSector: int, q: nat, d: nat) returns (sector: int)
    requires IsSector(lastSector) && d < SECTORS_PER_TRACK
    ensures SameTrack(sector, lastSector) && ModuloDiff(sector, q) == d
  {
    sector := lastSector / SECTORS_PER_TRACK * SECTORS_PER_TRACK + (q + d) % SECTORS_PER_TRACK;
    ModuloDiffMeans(sector, q);
    SameRemainder(q, ModuloDiff(sector, q), d);
  }

  lemma SameRemainder(q: nat, c: nat, d: nat)
    requires c < SECTORS_PER_TRACK && d < SECTORS_PER_TRACK
    requires (q + c) % SECTORS_PER_TRACK == (q + d) % SECTORS_PER_TRACK
    ensures c == d
  {
  }

  lemma FourteenOn(sector: nat, q: nat)
    ensures var d := ModuloDiff(sector, q);
            ModuloDiff(sector + 14, q) == if d < 18 then d + 14 else d - 18
  {
    hide ModuloDiff;
    var d := ModuloDiff(sector, q);
    ModuloDiffMeans(sector, q);
    ModuloDiffMeans(sector + 14, q);
    Turned(q + d, sector);
    SameRemainder(q, ModuloDiff(sector + 14, q), if d < 18 then d + 14 else d - 18);
  }

  lemma Turned(x: nat, sector: nat)
    requires x % SECTORS_PER_TRACK == sector % SECTORS_PER_TRACK
    ensures (x + 14) % SECTORS_PER_TRACK == (sector + 14) % SECTORS_PER_TRACK
    ensures x >= 18 ==> (x - 18) % SECTORS_PER_TRACK == (sector + 14) % SECTORS_PER_TRACK
  {
    var r, a, b := x % SECTORS_PER_TRACK, x / SECTORS_PER_TRACK, sector / SECTORS_PER_TRACK;
    FullTurns(a, r + 14);
    FullTurns(a - 1, r + 14);
    FullTurns(b, r + 14);
  }

  lemma FullTurns(a: int, y: nat)
    ensures (SECTORS_PER_TRACK * a + y) % SECTORS_PER_TRACK == y % SECTORS_PER_TRACK
  {
  }

  /** With a buffer that was started past 2^31, a sector is judged by one fourteen places further on. */
  lemma HitRightIff(lastSector: int, started: nat, now: nat, newSector: int)
    requires SameTrack(newSector, lastSector) && Boundary(lastSector, now, newSector) < 0x1_0000_0000
    requires started % ROTATION_TIME == 0 && started <= now && INT_MAX < started
    ensures var m := (Boundary(lastSector, now, newSector) - started) / ROTATION_TIME;
            var d := ModuloDiff(newSector, started / ROTATION_TIME);
            HitRight(lastSector, started, now, newSector) <==>
              (m > d <==> m > if d < 18 then d + 14 else d - 18)
  {
    var b := Boundary(lastSector, now, newSector);
    var d := ModuloDiff(newSector, started / ROTATION_TIME);
    HitIff(lastSector, started, now, newSector);
    BoundaryMeans(lastSector, now, newSector);
    hide Boundary, ModuloDiff, Hit, PassedSince, ToInt;
    FourteenOn(newSector, started / ROTATION_TIME);
    PassedIff(started, b, newSector);
    PassedIff(started, b, newSector + 14);
    ModuloDiffMeans(newSector, started / ROTATION_TIME);
    WholeSectors(b, started, d);
    WholeSectors(b, started, if d < 18 then d + 14 else d - 18);
  }

  /** Such a test is right for every sector of the track exactly if no sector has passed since the buffer
      was started, or all have. */
  lemma LateHitsIff(lastSector: int, started: nat, now: nat)
    requires IsSector(lastSector) && Boundary(lastSector, now, lastSector) < 0x1_0000_0000
    requires started % ROTATION_TIME == 0 && started <= now && INT_MAX < started
    ensures var m := (Boundary(lastSector, now, lastSector) - started) / ROTATION_TIME;
            (forall newSector :: SameTrack(newSector, lastSector) ==> HitRight(lastSector, started, now, newSector))
            <==> m == 0 || m >= SECTORS_PER_TRACK
  {
    hide Boundary, ModuloDiff, HitRight, SameTrack;
    var m, q := (Boundary(lastSector, now, lastSector) - started) / ROTATION_TIME, started / ROTATION_TIME;
    BoundaryMeans(lastSector, now, lastSector);
    if m == 0 || m >= SECTORS_PER_TRACK {
      forall newSector | SameTrack(newSector, lastSector)
        ensures HitRight(lastSector, started, now, newSector)
      {
        OnTrack(newSector, lastSector);
        SameBoundary(lastSector, now, newSector);
        HitRightIff(lastSector, started, now, newSector);
        ModuloDiffMeans(newSector, q);
      }
    } else {
      var sector := SectorAt(lastSector, q, if m < 18 then m - 1 else m);
      SameBoundary(lastSector, now, sector);
      HitRightIff(lastSector, started, now, sector);
    }
  }

  lemma OnTrack(newSector: int, lastSector: int)
    requires SameTrack(newSector, lastSector)
    ensures IsSector(newSector)
  {
  }

  /** For instance, with the buffer started at the first boundary past 2^31, when the head was at sector 24:
      one sector time later a read of sector 10 counts as a hit. */
  lemma WrongHit()
    ensures var started := INT_MAX + 353;
            && HeadAt(started, 24) && Boundary(10, started + ROTATION_TIME, 10) == started + ROTATION_TIME
            && Hit(10, ToInt(started), started + ROTATION_TIME, 10, false)
            && !PassedSince(started, started + ROTATION_TIME, 10)
  {
    hide Boundary, ModuloDiff, Hit, PassedSince, ToInt, HeadAt;
    var started: nat := INT_MAX + 353;
    var b := started + ROTATION_TIME;
    LateNumbers(started);
    HitIff(10, started, b, 10);
    PassedIff(started, b, 10 + 14);
    PassedIff(started, b, 10);
  }

  lemma LateNumbers(started: nat)
    requires started == 2147484000
    ensures started % ROTATION_TIME == 0 && HeadAt(started, 24)
    ensures Boundary(10, started + ROTATION_TIME, 10) == started + ROTATION_TIME
    ensures ModuloDiff(24, started / ROTATION_TIME) == 0 && ModuloDiff(10, started / ROTATION_TIME) == 18
  {
  }

  class Disk {
    var lastSector: int
    var bufferInit: int
    var active: bool
    /** When the last request is, or was, done. */
    ghost var done: nat

    /** The track buffer was started at a sector boundary, before the last request was done. */
    ghost predicate Valid()
      reads this
    {
      IsSector(lastSector) && 0 <= bufferInit <= done && bufferInit % ROTATION_TIME == 0
    }

    constructor ()
      ensures Valid() && !active && done == 0
    {
      lastSector, bufferInit, active, done := 0, 0, false, 0;
    }

    /** Keeps track of the request for the next one. */
    method UpdateLast(newSector: int, now: nat)
      requires Valid() && IsSector(newSector) && Boundary(lastSector, now, newSector) <= INT_MAX
      modifies this`lastSector, this`bufferInit
      ensures lastSector == newSector
      ensures bufferInit == if newSector / SECTORS_PER_TRACK == old(lastSector) / SECTORS_PER_TRACK
                            then old(bufferInit) else Boundary(old(lastSector), now, newSector)
    {
      var seek := Seek(lastSector, newSector);
      if seek != 0 {
        bufferInit := ToInt(now + seek + Rotation(now, seek));
      }
      lastSector := newSector;
    }

    /** A read or write request. Its interrupt is due after the returned number of ticks, by which time the
        sector has passed the head. */
    method Request(newSector: int, writing: bool, now: nat) returns (ticks: int)
      requires Valid() && !active && done <= now
      requires IsSector(newSector) && Boundary(lastSector, now, newSector) <= INT_MAX
      modifies this
      ensures Valid() && active && lastSector == newSector
      ensures ticks == Latency(old(lastSector), old(bufferInit), now, newSector, writing)
      ensures ROTATION_TIME <= ticks <= 31999
      ensures done == now + ticks
      ensures var tracks := Abs(newSector / SECTORS_PER_TRACK - old(lastSector) / SECTORS_PER_TRACK);
              var start := Boundary(old(lastSector), now, newSector);
              if !writing && tracks == 0 && PassedSince(old(bufferInit), start, newSector) then ticks == ROTATION_TIME
              else FirstAt(done - ROTATION_TIME, now + SEEK_TIME * tracks, newSector)
    {
      LatencyBounds(lastSector, bufferInit, now, newSector, writing);
      MissFinishes(lastSector, now, newSector);
      HitIff(lastSector, bufferInit, now, newSector);
      BoundaryMeans(lastSector, now, newSector);
      BoundaryBeforeDone(lastSector, now, newSector);
      ticks := Latency(lastSector, bufferInit, now, newSector, writing);
      active := true;
      UpdateLast(newSector, now);
      done := now + ticks;
    }

    lemma BoundaryBeforeDone(lastSector: int, now: nat, newSector: int)
      requires IsSector(lastSector) && IsSector(newSector)
      ensures Boundary(lastSector, now, newSector) + ROTATION_TIME <= now + Miss(lastSector, now, newSector)
    {
    }

    /** The interrupt; it does not come early. */
    method HandleInterrupt(now: nat)
      requires Valid() && active && done <= now
      modifies this`active
      ensures Valid() && !active
    {
      active := false;
    }
  }
}

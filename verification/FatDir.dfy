/** Directory slots: where new entries go, and the inode number of the short entry. */
module FatDir {
  import opened FatLayout
  import opened FatFile
  import opened FatRead
  import Arith
  import opened Wrappers

  predicate IsFree(b: bv8) { b == 0xE5 || b == 0x00 }

  /** The slots of a directory of `n` clusters. */
  function Slots(g: Geometry, n: nat): nat { n * g.perCluster * SLOTS_PER_SECTOR }

  // ------------------------------------------------------- the search on flags

  /** Whether slot `i` is free, where slots past the end of the directory count as free. */
  ghost predicate FreeAt(flags: seq<bool>, i: nat) { i < |flags| ==> flags[i] }

  ghost predicate RunAt(flags: seq<bool>, r: nat, req: nat) {
    forall i {:trigger FreeAt(flags, i)} :: r <= i < r + req ==> FreeAt(flags, i)
  }

  /** The least start of a run of `req` free slots. */
  ghost predicate LeastRun(flags: seq<bool>, r: nat, req: nat) {
    RunAt(flags, r, req) && forall q: nat {:trigger RunAt(flags, q, req)} :: q < r ==> !RunAt(flags, q, req)
  }

  /** The state of the search before slot `idx`: the last `cnt` slots were free, and no run can
      start before them. */
  ghost predicate Scan(flags: seq<bool>, req: nat, base: nat, idx: nat, cnt: nat, final: nat) {
    && idx <= |flags| && base == |flags| && cnt < req && cnt <= idx
    && (forall i {:trigger FreeAt(flags, i)} :: idx - cnt <= i < idx ==> FreeAt(flags, i))
    && (forall q: nat {:trigger RunAt(flags, q, req)} :: q < idx - cnt ==> !RunAt(flags, q, req))
    && final == if cnt > 0 then idx - cnt else if idx > 0 then base else 0
  }

  lemma ScanTaken(flags: seq<bool>, req: nat, base: nat, idx: nat, cnt: nat, final: nat)
    requires Scan(flags, req, base, idx, cnt, final) && idx < |flags| && !flags[idx]
    ensures Scan(flags, req, base, idx + 1, 0, base)
  {
    forall q: nat | q < idx + 1 ensures !RunAt(flags, q, req) {
      if q >= idx - cnt {
        assert !FreeAt(flags, idx);
      }
    }
  }

  lemma ScanFound(flags: seq<bool>, req: nat, base: nat, idx: nat, cnt: nat, final: nat)
    requires Scan(flags, req, base, idx, cnt, final) && idx < |flags| && flags[idx]
    ensures cnt + 1 == req ==> LeastRun(flags, idx - cnt, req)
    ensures cnt + 1 < req ==> Scan(flags, req, base, idx + 1, cnt + 1, idx - cnt)
  {
    assert FreeAt(flags, idx);
  }

  lemma ScanEnd(flags: seq<bool>, req: nat, base: nat, cnt: nat, final: nat)
    requires Scan(flags, req, base, |flags|, cnt, final)
    ensures LeastRun(flags, final, req)
  {
  }

  // ------------------------------------------------------------ on the disk

  /** The slots of one sector, numbered from `idx0` on. */
  method ScanSector(sec: seq<bv8>, req: nat, base: nat, idx0: nat, cnt0: nat, final0: nat, ghost flags: seq<bool>)
    returns (found: bool, cnt: nat, final: nat)
    requires |sec| == SECTOR && req <= 255
    requires Scan(flags, req, base, idx0, cnt0, final0) && idx0 + SLOTS_PER_SECTOR <= |flags|
    requires forall i :: 0 <= i < SLOTS_PER_SECTOR ==> flags[idx0 + i] == IsFree(sec[SLOT * i])
    ensures found ==> LeastRun(flags, final, req)
    ensures !found ==> Scan(flags, req, base, idx0 + SLOTS_PER_SECTOR, cnt, final)
  {
    found, cnt, final := false, cnt0, final0;
    var i := 0;
    while i < SLOTS_PER_SECTOR
      invariant i <= SLOTS_PER_SECTOR && Scan(flags, req, base, idx0 + i, cnt, final)
    {
      assert flags[idx0 + i] == IsFree(sec[SLOT * i]);
      if !IsFree(sec[SLOT * i]) {
        ScanTaken(flags, req, base, idx0 + i, cnt, final);
        cnt := 0;
        final := base;
      } else {
        ScanFound(flags, req, base, idx0 + i, cnt, final);
        if cnt == 0 {
          final := idx0 + i;
        }
        cnt := (cnt + 1) % 256;
        if cnt == req {
          return true, cnt, final;
        }
      }
      i := i + 1;
    }
  }

  lemma SlotsBytes(g: Geometry, n: nat)
    ensures Slots(g, n) * SLOT == n * g.ClusterSize()
  {
    var a := n * g.perCluster;
    assert n * (g.perCluster * SECTOR) == a * SECTOR;
  }

  lemma SlotCovered(g: Geometry, cs: seq<nat>, idx: nat)
    requires Covers(g, cs, 0) && idx < Slots(g, |cs|)
    ensures Covers(g, cs, SLOT * idx + 1)
  {
    SlotsBytes(g, |cs|);
  }

  /** Which slots of a directory are free: the first byte of the entry says so. */
  ghost function Flags(g: Geometry, disk: Disk, cs: seq<nat>): (fs: seq<bool>)
    requires OnDisk(g, disk, cs)
    ensures |fs| == Slots(g, |cs|)
  {
    seq(Slots(g, |cs|), idx requires 0 <= idx < Slots(g, |cs|) =>
      (SlotCovered(g, cs, idx); IsFree(FileByte(g, disk, cs, SLOT * idx))))
  }

  /** The number of the first slot of sector `s` of the cluster at index `c`. */
  ghost function FirstSlot(g: Geometry, c: nat, s: nat): nat { (c * g.perCluster + s) * SLOTS_PER_SECTOR }

  lemma FirstSlotAt(g: Geometry, c: nat, s: nat, i: nat)
    ensures SLOT * (FirstSlot(g, c, s) + i) == At(g, c, s, SLOT * i)
    ensures FirstSlot(g, c, s + 1) == FirstSlot(g, c, s) + SLOTS_PER_SECTOR
    ensures FirstSlot(g, c, g.perCluster) == FirstSlot(g, c + 1, 0)
  {
    var a := c * g.perCluster;
    assert c * (g.perCluster * SECTOR) == a * SECTOR;
    Arith.MulStep(c, g.perCluster);
  }

  lemma FirstSlotInside(g: Geometry, n: nat, c: nat, s: nat)
    requires c < n && s < g.perCluster
    ensures FirstSlot(g, c, s) + SLOTS_PER_SECTOR <= Slots(g, n)
  {
    Arith.RoomForOneMore(c, n, g.perCluster);
  }

  lemma SectorFlags(g: Geometry, disk: Disk, cs: seq<nat>, c: nat, s: nat)
    requires OnDisk(g, disk, cs) && c < |cs| && s < g.perCluster
    ensures g.FirstSector(cs[c]) + s < |disk|
    ensures FirstSlot(g, c, s) + SLOTS_PER_SECTOR <= |Flags(g, disk, cs)|
    ensures forall i :: 0 <= i < SLOTS_PER_SECTOR ==>
              Flags(g, disk, cs)[FirstSlot(g, c, s) + i] == IsFree(disk[g.FirstSector(cs[c]) + s][SLOT * i])
  {
    ClusterInData(g, cs[c], s);
    FirstSlotInside(g, |cs|, c, s);
    forall i | 0 <= i < SLOTS_PER_SECTOR
      ensures Flags(g, disk, cs)[FirstSlot(g, c, s) + i] == IsFree(disk[g.FirstSector(cs[c]) + s][SLOT * i])
    {
      FirstSlotAt(g, c, s, i);
      SlotCovered(g, cs, FirstSlot(g, c, s) + i);
      FileByteAt(g, disk, cs, c, s, SLOT * i);
    }
  }

  /** The sectors of one cluster. */
  method ScanCluster(g: Geometry, disk: Disk, iter: nat, req: nat, base: nat, idx0: nat, cnt0: nat, final0: nat,
                     ghost cs: seq<nat>, ghost c: nat)
    returns (found: bool, idx: nat, cnt: nat, final: nat)
    requires OnDisk(g, disk, cs) && c < |cs| && iter == cs[c] && req <= 255 && idx0 == FirstSlot(g, c, 0)
    requires Scan(Flags(g, disk, cs), req, base, idx0, cnt0, final0)
    ensures found ==> LeastRun(Flags(g, disk, cs), final, req)
    ensures !found ==> idx == FirstSlot(g, c + 1, 0) && Scan(Flags(g, disk, cs), req, base, idx, cnt, final)
  {
    ghost var flags := Flags(g, disk, cs);
    found, idx, cnt, final := false, idx0, cnt0, final0;
    var first := g.FirstSector(iter);
    var s := 0;
    while s < g.perCluster
      invariant s <= g.perCluster && idx == FirstSlot(g, c, s) && !found
      invariant Scan(flags, req, base, idx, cnt, final)
    {
      SectorFlags(g, disk, cs, c, s);
      FirstSlotAt(g, c, s, 0);
      found, cnt, final := ScanSector(disk[first + s], req, base, idx, cnt, final, flags);
      if found {
        return;
      }
      idx := idx + SLOTS_PER_SECTOR;
      s := s + 1;
    }
    FirstSlotAt(g, c, 0, 0);
  }

  /** `fat32_dir_fcb_insert_offset`: the least place for `req` entries in a row. */
  method InsertOffset(g: Geometry, fat: seq<nat>, disk: Disk, start: nat, clusters: nat, req: nat, ghost cs: seq<nat>)
    returns (r: nat)
    requires OnDisk(g, disk, cs) && Chain(fat, g.Max(), start, cs) && clusters == |cs| && 1 <= req <= 255
    ensures LeastRun(Flags(g, disk, cs), r, req) && r <= Slots(g, |cs|)
  {
    SlotsBytes(g, clusters);
    var base := clusters * g.ClusterSize() / SLOT;
    var iter, idx, cnt := start, 0, 0;
    r := 0;
    ghost var c := 0;
    while !IsEof(iter)
      invariant c <= |cs| && (if c < |cs| then iter == cs[c] else IsEof(iter))
      invariant idx == FirstSlot(g, c, 0) && base == Slots(g, |cs|)
      invariant Scan(Flags(g, disk, cs), req, base, idx, cnt, r)
      decreases |cs| - c
    {
      var found;
      found, idx, cnt, r := ScanCluster(g, disk, iter, req, base, idx, cnt, r, cs, c);
      if found {
        LeastIsInside(Flags(g, disk, cs), r, req);
        return;
      }
      assert Link(fat, cs, c);
      iter := fat[iter];
      c := c + 1;
    }
    ScanEnd(Flags(g, disk, cs), req, base, cnt, r);
    LeastIsInside(Flags(g, disk, cs), r, req);
  }

  /** New entries never start past the end of the directory, so the write of them is accepted. */
  lemma LeastIsInside(flags: seq<bool>, r: nat, req: nat)
    requires LeastRun(flags, r, req)
    ensures r <= |flags|
  {
    assert RunAt(flags, |flags|, req);
  }

  // ------------------------------------------------- the entries of a new file

  lemma SlotStart(g: Geometry, c: nat, s: nat, o: nat, k: nat)
    requires s < g.perCluster && o < SECTOR && At(g, c, s, o) == SLOT * k
    ensures o % SLOT == 0 && o + SLOT <= SECTOR
  {
    var a := c * g.perCluster;
    assert c * (g.perCluster * SECTOR) == a * SECTOR;
    MultipleOfSlot(a + s, o, k);
  }

  lemma MultipleOfSlot(t: nat, o: nat, k: nat)
    requires t * SECTOR + o == SLOT * k && o < SECTOR
    ensures o % SLOT == 0 && o + SLOT <= SECTOR
  {
    assert o == SLOT * (k - SLOTS_PER_SECTOR * t);
  }

  /** An entry lies in one sector. */
  lemma EntryInOneSector(g: Geometry, cs: seq<nat>, k: nat, i: nat)
    requires Covers(g, cs, SLOT * k + SLOT) && i < SLOT
    ensures Covers(g, cs, SLOT * k + 1) && Covers(g, cs, SLOT * k + i + 1)
    ensures SectorOf(g, cs, SLOT * k + i) == SectorOf(g, cs, SLOT * k)
    ensures OffsetOf(g, SLOT * k + i) == OffsetOf(g, SLOT * k) + i
  {
    CoversLess(g, cs, SLOT * k + SLOT, SLOT * k + 1);
    CoversLess(g, cs, SLOT * k + SLOT, SLOT * k + i + 1);
    var c, s, o := PartsOf(g, SLOT * k);
    SlotStart(g, c, s, o, k);
    SectorAt(g, cs, c, s, o);
    SectorAt(g, cs, c, s, o + i);
  }

  /** The inode number `fat32_inode_alloc` gives to the last of `cnt` entries written at slot
      `offset` decodes to the sector and place where that entry is. */
  method NewInum(ip: Inode, g: Geometry, fat: seq<nat>, max: nat, offset: nat, cnt: nat, ghost cs: seq<nat>)
    returns (ino: nat)
    requires Chain(fat, max, ip.start, cs) && cnt > 0 && Covers(g, cs, SLOT * (offset + cnt - 1) + SLOT)
    modifies ip`end
    ensures ip.end == old(ip.end) && Covers(g, cs, SLOT * (offset + cnt - 1) + 1)
    ensures ino > 0 && InumSector(g, ino) == SectorOf(g, cs, SLOT * (offset + cnt - 1))
    ensures InumSlot(ino) * SLOT == OffsetOf(g, SLOT * (offset + cnt - 1))
  {
    var p := SLOT * (offset + cnt - 1);
    var c, s, o := Split(g, p);
    EntryPlace(g, cs, offset + cnt - 1, c, s, o);
    var target;
    ghost var asked;
    target, asked := ip.Travel(fat, max, c + 1, cs);
    var sector := g.FirstSector(target) + s;
    NumberAt(g, sector, o);
    ino := Inum(g, sector, o / SLOT);
  }

  lemma EntryPlace(g: Geometry, cs: seq<nat>, k: nat, c: nat, s: nat, o: nat)
    requires Covers(g, cs, SLOT * k + SLOT) && At(g, c, s, o) == SLOT * k && s < g.perCluster && o < SECTOR
    ensures Covers(g, cs, SLOT * k + 1) && c < |cs| && o % SLOT == 0
    ensures SectorOf(g, cs, SLOT * k) == g.FirstSector(cs[c]) + s && OffsetOf(g, SLOT * k) == o
  {
    CoversLess(g, cs, SLOT * k + SLOT, SLOT * k + 1);
    SlotStart(g, c, s, o, k);
    SectorAt(g, cs, c, s, o);
  }

  lemma NumberAt(g: Geometry, sector: nat, o: nat)
    requires sector >= g.FirstData() && o % SLOT == 0 && o < SECTOR
    ensures var ino := Inum(g, sector, o / SLOT);
            ino > 0 && InumSector(g, ino) == sector && InumSlot(ino) * SLOT == o
  {
    InumRoundTrip(g, sector, o / SLOT);
  }
}

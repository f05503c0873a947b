/** Where things are on a FAT32 volume (include/fs/fat32_disk.h): FAT entries, the sectors of a
    cluster, and the numbers given to directory slots. Sectors have 512 bytes, like the buffers
    they are read into. */
module FatLayout {
  import Arith

  const SECTOR: nat := 512
  const SLOT: nat := 32
  const SLOTS_PER_SECTOR: nat := 16

  datatype Geometry = Geometry(reserved: nat, fats: nat, fatSectors: nat, perCluster: nat, total: nat) {
    function FirstData(): nat { reserved + fats * fatSectors }

    function Clusters(): nat
      requires perCluster > 0 && FirstData() <= total
    {
      (total - FirstData()) / perCluster
    }

    /** FAT_CLUSTER_MAX. */
    function Max(): nat
      requires perCluster > 0 && FirstData() <= total
    {
      Clusters() + 1
    }

    function ClusterSize(): nat { perCluster * SECTOR }

    function FirstSector(c: nat): (s: nat)
      requires c >= 2
      ensures s >= FirstData()
    {
      (c - 2) * perCluster + FirstData()
    }

    /** A volume whose FAT has an entry for every cluster. */
    ghost predicate Valid() {
      && perCluster > 0 && fats > 0 && FirstData() <= total
      && 4 * (Max() + 1) <= fatSectors * SECTOR
    }
  }

  function EntrySector(g: Geometry, c: nat): nat { g.reserved + 4 * c / SECTOR }

  function EntryOffset(c: nat): (o: nat)
    ensures o + 4 <= SECTOR
  {
    4 * c % SECTOR
  }

  /** Different entries are in different sectors, or at least four bytes apart. */
  lemma EntriesApart(g: Geometry, c: nat, d: nat)
    requires c != d
    ensures EntrySector(g, c) != EntrySector(g, d) || EntryOffset(c) + 4 <= EntryOffset(d) || EntryOffset(d) + 4 <= EntryOffset(c)
  {
  }

  /** The entries of all clusters are in the first FAT, before the data. */
  lemma EntryInFat(g: Geometry, c: nat)
    requires g.Valid() && c <= g.Max()
    ensures g.reserved <= EntrySector(g, c) < g.reserved + g.fatSectors <= g.FirstData() <= g.total
  {
    Arith.MulAtLeast(g.fatSectors, g.fats);
    assert 4 * c / SECTOR * SECTOR <= 4 * c < g.fatSectors * SECTOR;
  }

  /** Clusters share no sector. */
  lemma ClustersDisjoint(g: Geometry, c: nat, s: nat, d: nat, t: nat)
    requires g.perCluster > 0 && c >= 2 && d >= 2 && s < g.perCluster && t < g.perCluster
    ensures g.FirstSector(c) + s == g.FirstSector(d) + t <==> c == d && s == t
  {
    if c < d {
      Arith.RoomForOneMore(c - 2, d - 2, g.perCluster);
    } else if d < c {
      Arith.RoomForOneMore(d - 2, c - 2, g.perCluster);
    }
  }

  /** The sectors of clusters 2 to FAT_CLUSTER_MAX are in the data region of the volume. */
  lemma ClusterInData(g: Geometry, c: nat, s: nat)
    requires g.Valid() && 2 <= c <= g.Max() && s < g.perCluster
    ensures g.FirstData() <= g.FirstSector(c) + s < g.total
  {
    var n := g.Clusters();
    Arith.RoomForOneMore(c - 2, n, g.perCluster);
    Arith.DivTimes(g.total - g.FirstData(), g.perCluster);
  }

  // ------------------------------------------------------------ inode numbers

  /** The number of slot `slot` of data sector `sector`; 0 is kept for the root. */
  function Inum(g: Geometry, sector: nat, slot: nat): nat
    requires sector >= g.FirstData()
  {
    (sector - g.FirstData()) * SLOTS_PER_SECTOR + slot + 1
  }

  function InumIndex(ino: nat): nat { if ino == 0 then 0 else ino - 1 }

  function InumSector(g: Geometry, ino: nat): nat { InumIndex(ino) / SLOTS_PER_SECTOR + g.FirstData() }

  function InumSlot(ino: nat): nat { InumIndex(ino) % SLOTS_PER_SECTOR }

  /** Numbering and decoding undo each other, so numbers from 1 on and slots of data sectors
      correspond one to one. */
  lemma InumRoundTrip(g: Geometry, sector: nat, slot: nat)
    requires sector >= g.FirstData() && slot < SLOTS_PER_SECTOR
    ensures var ino := Inum(g, sector, slot);
            ino > 0 && InumSector(g, ino) == sector && InumSlot(ino) == slot
  {
  }

  lemma InumOnto(g: Geometry, ino: nat)
    requires ino > 0
    ensures InumSector(g, ino) >= g.FirstData() && InumSlot(ino) < SLOTS_PER_SECTOR
    ensures Inum(g, InumSector(g, ino), InumSlot(ino)) == ino
  {
  }
}

/** The FAT as it is stored: little-endian words in sectors, read and written under masks. The
    sectors refine a table of 28-bit entries. */
module FatBytes {
  import opened FatLayout

  type Sector = s: seq<bv8> | |s| == SECTOR witness seq(SECTOR, _ => 0)
  type Disk = seq<Sector>

  const VALID: bv32 := 0x0FFF_FFFF
  const EOC: bv32 := 0xFFFF_FFFF

  // -------------------------------------------------------------------- words

  function Join(b0: bv8, b1: bv8, b2: bv8, b3: bv8): bv32 {
    b0 as bv32 | (b1 as bv32 << 8) | (b2 as bv32 << 16) | (b3 as bv32 << 24)
  }

  function Byte(v: bv32, i: nat): bv8
    requires i < 4
  {
    if i == 0 then (v & 0xFF) as bv8
    else if i == 1 then ((v >> 8) & 0xFF) as bv8
    else if i == 2 then ((v >> 16) & 0xFF) as bv8
    else ((v >> 24) & 0xFF) as bv8
  }

  lemma JoinBytes(v: bv32)
    ensures Join(Byte(v, 0), Byte(v, 1), Byte(v, 2), Byte(v, 3)) == v
  {
  }

  function Load(s: Sector, o: nat): bv32
    requires o + 4 <= SECTOR
  {
    Join(s[o], s[o + 1], s[o + 2], s[o + 3])
  }

  function Store(s: Sector, o: nat, v: bv32): Sector
    requires o + 4 <= SECTOR
  {
    s[o := Byte(v, 0)][o + 1 := Byte(v, 1)][o + 2 := Byte(v, 2)][o + 3 := Byte(v, 3)]
  }

  lemma LoadStore(s: Sector, o: nat, v: bv32, p: nat)
    requires o + 4 <= SECTOR && p + 4 <= SECTOR && (p == o || p + 4 <= o || o + 4 <= p)
    ensures Load(Store(s, o, v), p) == if p == o then v else Load(s, p)
  {
    JoinBytes(v);
  }

  // ------------------------------------------------------------------ entries

  function Cleared(s: Sector, o: nat): Sector
    requires o + 4 <= SECTOR
  {
    Store(s, o, Load(s, o) & 0xF000_0000)
  }

  /** SetFAT32ClusEntryVal: two stores, the first clears the low 28 bits. */
  function SetMasked(s: Sector, o: nat, v: bv32): Sector
    requires o + 4 <= SECTOR
  {
    Store(Cleared(s, o), o, Load(Cleared(s, o), o) | (v & VALID))
  }

  lemma MaskBits(w: bv32, v: bv32)
    ensures Merged(w, v) & VALID == v & VALID
    ensures Merged(w, v) & 0xF000_0000 == w & 0xF000_0000
  {
  }

  lemma StoreTwice(s: Sector, o: nat, u: bv32, v: bv32)
    requires o + 4 <= SECTOR
    ensures Store(Store(s, o, u), o, v) == Store(s, o, v)
  {
  }

  /** The two stores come to one, which keeps the top 4 bits. */
  function Merged(w: bv32, v: bv32): bv32 { (w & 0xF000_0000) | (v & VALID) }

  lemma ClearedLoad(s: Sector, o: nat)
    requires o + 4 <= SECTOR
    ensures Load(Cleared(s, o), o) == Load(s, o) & 0xF000_0000
  {
    LoadStore(s, o, Load(s, o) & 0xF000_0000, o);
  }

  lemma ClearedStore(s: Sector, o: nat, x: bv32)
    requires o + 4 <= SECTOR
    ensures Store(Cleared(s, o), o, x) == Store(s, o, x)
  {
    StoreTwice(s, o, Load(s, o) & 0xF000_0000, x);
  }

  lemma SetMaskedIs(s: Sector, o: nat, v: bv32)
    requires o + 4 <= SECTOR
    ensures SetMasked(s, o, v) == Store(s, o, Merged(Load(s, o), v))
  {
    ClearedLoad(s, o);
    ClearedStore(s, o, Load(Cleared(s, o), o) | (v & VALID));
  }

  /** The whole word of entry `c`, and the part of it that counts. */
  function Word(disk: Disk, g: Geometry, c: nat): bv32
    requires EntrySector(g, c) < |disk|
  {
    Load(disk[EntrySector(g, c)], EntryOffset(c))
  }

  function Entry(disk: Disk, g: Geometry, c: nat): bv32
    requires EntrySector(g, c) < |disk|
  {
    Word(disk, g, c) & VALID
  }

  function SetEntry(disk: Disk, g: Geometry, c: nat, v: bv32): Disk
    requires EntrySector(g, c) < |disk|
  {
    disk[EntrySector(g, c) := SetMasked(disk[EntrySector(g, c)], EntryOffset(c), v)]
  }

  lemma StoreWord(disk: Disk, g: Geometry, c: nat, u: bv32, d: nat)
    requires EntrySector(g, c) < |disk| && EntrySector(g, d) < |disk|
    ensures var after := disk[EntrySector(g, c) := Store(disk[EntrySector(g, c)], EntryOffset(c), u)];
            Word(after, g, d) == if d == c then u else Word(disk, g, d)
  {
    if EntrySector(g, c) == EntrySector(g, d) {
      if d != c {
        EntriesApart(g, c, d);
      }
      LoadStore(disk[EntrySector(g, c)], EntryOffset(c), u, EntryOffset(d));
    }
  }

  /** `fat32_fat_set` changes the low 28 bits of one entry and nothing else. */
  lemma SetEntryFrame(disk: Disk, g: Geometry, c: nat, v: bv32, d: nat)
    requires EntrySector(g, c) < |disk| && EntrySector(g, d) < |disk|
    ensures var after := SetEntry(disk, g, c, v);
            && (d != c ==> Word(after, g, d) == Word(disk, g, d))
            && Entry(after, g, c) == v & VALID
            && Word(after, g, c) & 0xF000_0000 == Word(disk, g, c) & 0xF000_0000
  {
    var w := Word(disk, g, c);
    MaskBits(w, v);
    SetMaskedIs(disk[EntrySector(g, c)], EntryOffset(c), v);
    StoreWord(disk, g, c, Merged(w, v), c);
    StoreWord(disk, g, c, Merged(w, v), d);
  }

  /** ... and no byte outside that word. */
  lemma SetEntryBytes(disk: Disk, g: Geometry, c: nat, v: bv32, s: nat, i: nat)
    requires EntrySector(g, c) < |disk| && s < |disk| && i < SECTOR
    requires s != EntrySector(g, c) || i < EntryOffset(c) || EntryOffset(c) + 4 <= i
    ensures SetEntry(disk, g, c, v)[s][i] == disk[s][i]
  {
  }

  // -------------------------------------------------------- the table it holds

  lemma EntriesOnDisk(g: Geometry)
    requires g.Valid()
    ensures forall c :: 0 <= c <= g.Max() ==> EntrySector(g, c) < g.total
  {
    forall c | 0 <= c <= g.Max() ensures EntrySector(g, c) < g.total {
      EntryInFat(g, c);
    }
  }

  ghost function Number(disk: Disk, g: Geometry, c: nat): nat {
    if EntrySector(g, c) < |disk| then Entry(disk, g, c) as nat else 0
  }

  /** The entries of clusters 0 to FAT_CLUSTER_MAX, as numbers. */
  ghost function Table(disk: Disk, g: Geometry): (t: seq<nat>)
    requires g.Valid() && |disk| == g.total
  {
    seq(g.Max() + 1, c requires 0 <= c <= g.Max() => Number(disk, g, c))
  }

  /** The number an entry reads back as. */
  function Stored(v: bv32): nat { (v & VALID) as nat }

  lemma KeepsSmall(v: bv32)
    requires v < 0x1000_0000
    ensures v & VALID == v
  {
  }

  /** A cluster number reads back as itself, and the end mark as an end of chain. */
  lemma StoredIs(v: bv32)
    ensures v < 0x1000_0000 ==> Stored(v) == v as nat
    ensures Stored(EOC) == 0x0FFF_FFFF
  {
    if v < 0x1000_0000 {
      KeepsSmall(v);
    }
    assert EOC & VALID == 0x0FFF_FFFF;
  }

  /** On the table, setting an entry is an update of that one number. */
  lemma SetEntryTable(disk: Disk, g: Geometry, c: nat, v: bv32)
    requires g.Valid() && |disk| == g.total && c <= g.Max() && EntrySector(g, c) < |disk|
    ensures Table(SetEntry(disk, g, c, v), g) == Table(disk, g)[c := Stored(v)]
  {
    var after := SetEntry(disk, g, c, v);
    forall d | 0 <= d <= g.Max() ensures Table(after, g)[d] == Table(disk, g)[c := Stored(v)][d] {
      EntriesOnDisk(g);
      SetEntryFrame(disk, g, c, v, d);
    }
  }

  class FatSectors {
    const g: Geometry
    const disk: array<Sector>

    ghost predicate Valid() { g.Valid() && disk.Length == g.total }

    constructor (g: Geometry, disk: array<Sector>)
      requires g.Valid() && disk.Length == g.total
      ensures Valid() && this.g == g && this.disk == disk
    {
      this.g, this.disk := g, disk;
    }

    /** `fat32_next_cluster`. */
    method NextCluster(c: nat) returns (v: bv32)
      requires Valid() && 2 <= c < g.Max()
      ensures v as nat == Table(disk[..], g)[c]
    {
      EntryInFat(g, c);
      var s := disk[EntrySector(g, c)];
      v := Load(s, EntryOffset(c)) & VALID;
    }

    /** `fat32_fat_set`. */
    method FatSet(c: nat, v: bv32)
      requires Valid() && c <= g.Max()
      modifies disk
      ensures Table(disk[..], g) == old(Table(disk[..], g))[c := Stored(v)]
      ensures forall s :: g.FirstData() <= s < disk.Length ==> disk[s] == old(disk[s])
    {
      EntryInFat(g, c);
      SetEntryTable(disk[..], g, c, v);
      var n := EntrySector(g, c);
      disk[n] := SetMasked(disk[n], EntryOffset(c), v);
      assert disk[..] == SetEntry(old(disk[..]), g, c, v);
    }
  }
}

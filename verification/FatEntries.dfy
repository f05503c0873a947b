/** Creating and deleting the directory entries of a file (`fat32_inode_alloc`,
    `fat32_inode_delete`): when the second overwrites exactly what the first wrote. */
module FatEntries {
  import opened FatLayout
  import opened FatFile
  import opened FatRead
  import opened FatDir
  import opened FatVolume
  import opened FatWrite
  import LongName
  import Arith
  import opened Wrappers

  type Name = seq<bv8>

  /** The slots that the entries of a file take: the long ones and the short one. */
  function EntryCount(name: Name, shortName: Name): nat { |LongName.LongEntries(name, shortName)| + 1 }

  /** The name kept in a table entry that held `prev` before: `strncpy` copies no terminator, so
      the tail of a longer name stays. */
  function Stored(prev: Name, name: Name): Name {
    if |name| < |prev| then name + prev[|name|..] else name
  }

  /** The first slot and the number of slots that `fat32_inode_delete` overwrites, given the slot
      of the short entry and the name kept; nothing where an assertion fails. */
  function DeletedSlots(parentOff: nat, kept: Name): Option<(nat, nat)> {
    var long := LongName.Parts(|kept|);
    if parentOff > 0 && parentOff > long then Some((parentOff - long, long + 1)) else None
  }

  /** The entry's slot in the table last held no name that is longer by an entry or more. */
  predicate KeepsLength(prev: Name, name: Name) {
    |prev| <= |name| || LongName.Parts(|prev|) == LongName.Parts(|name|)
  }

  /** Deleting covers exactly the slots `offset` to `offset + EntryCount` that creating wrote if
      and only if these do not start at slot 0, the name does not start with a dot, and the table
      entry held no longer name before. */
  lemma DeleteCoversAllocIff(prev: Name, name: Name, shortName: Name, offset: nat)
    ensures var cnt := EntryCount(name, shortName);
      DeletedSlots(offset + cnt - 1, Stored(prev, name)) == Some((offset, cnt)) <==>
        offset > 0 && !LongName.IsDotName(name) && KeepsLength(prev, name)
  {
    assert |Stored(prev, name)| == if |name| < |prev| then |prev| else |name|;
  }

  /** A file in the first slots of a directory cannot be deleted. */
  lemma DeleteAtSlotZeroFails(prev: Name, name: Name, shortName: Name)
    requires !LongName.IsDotName(name) && KeepsLength(prev, name)
    ensures DeletedSlots(0 + EntryCount(name, shortName) - 1, Stored(prev, name)) == None
  {
    assert |Stored(prev, name)| == if |name| < |prev| then |prev| else |name|;
  }

  /** Deleting ".x" at slot 5, its only entry, overwrites slot 4 as well. */
  lemma DotNameTakesNeighbour(shortName: Name)
    ensures EntryCount([0x2E, 0x78], shortName) == 1
    ensures DeletedSlots(5, Stored([], [0x2E, 0x78])) == Some((4, 2))
  {
  }

  /** So does deleting "a" in a table entry that held a name of 14 characters. */
  lemma OldNameTakesNeighbour(prev: Name, shortName: Name)
    requires |prev| == 14
    ensures EntryCount([0x61], shortName) == 2
    ensures DeletedSlots(5 + 2 - 1, Stored(prev, [0x61])) == Some((4, 3))
  {
    assert |Stored(prev, [0x61])| == 14;
  }

  // ------------------------------------------------------------ on the volume

  ghost function Lengths(ps: seq<Piece>): nat {
    if ps == [] then 0 else ps[0].length + Lengths(ps[1..])
  }

  /** The pieces of a range have as many bytes as the range. */
  lemma {:induction false} PiecesLengths(g: Geometry, cs: seq<nat>, p: nat, n: nat)
    requires Covers(g, cs, p + n)
    ensures Lengths(Pieces(g, cs, p, n)) == n
    decreases n
  {
    if n > 0 {
      var m := Min(SECTOR - OffsetOf(g, p), n);
      CoversLess(g, cs, p + n, p + 1);
      PiecesLengths(g, cs, p + m, n - m);
      var ps := Pieces(g, cs, p, n);
      assert ps[1..] == Pieces(g, cs, p + m, n - m);
    }
  }

  /** What a deletion visits. */
  ghost function DeletedPieces(g: Geometry, cs: seq<nat>, parentOff: nat, kept: Name): Option<seq<Piece>>
    requires Covers(g, cs, SLOT * (parentOff + 1))
  {
    match DeletedSlots(parentOff, kept)
    case None => None
    case Some((first, cnt)) => Some(Pieces(g, cs, SLOT * first, SLOT * cnt))
  }

  /** On the disk: the deletion visits the pieces that the creation visited, and no others, in
      exactly those cases, also when the directory has grown since. */
  lemma DeleteVisitsSameIff(g: Geometry, cs: seq<nat>, ds: seq<nat>, prev: Name, name: Name, shortName: Name, offset: nat)
    requires cs <= ds && Covers(g, cs, SLOT * (offset + EntryCount(name, shortName)))
    requires Covers(g, ds, SLOT * (offset + EntryCount(name, shortName)))
    ensures var cnt := EntryCount(name, shortName);
      DeletedPieces(g, ds, offset + cnt - 1, Stored(prev, name)) == Some(Pieces(g, cs, SLOT * offset, SLOT * cnt)) <==>
        offset > 0 && !LongName.IsDotName(name) && KeepsLength(prev, name)
  {
    var cnt := EntryCount(name, shortName);
    DeleteCoversAllocIff(prev, name, shortName, offset);
    PiecesOfLonger(g, cs, ds, SLOT * offset, SLOT * cnt);
    PiecesLengths(g, cs, SLOT * offset, SLOT * cnt);
    match DeletedSlots(offset + cnt - 1, Stored(prev, name))
    case None =>
    case Some((a, b)) => PiecesLengths(g, ds, SLOT * a, SLOT * b);
  }

  // ------------------------------------------------------------- as they run

  /** A directory fills its clusters. */
  ghost predicate IsDir(g: Geometry, f: File) {
    f.isDir && f.size == f.cnt * g.ClusterSize() && f.size < UINT32
  }

  ghost predicate DirOk(fs: FileSystem, dp: Inode, cs: seq<nat>)
    reads fs, dp
  {
    && fs.g.Valid() && fs.max == fs.g.Max()
    && Shape(fs.Abs(), fs.max) && Frontier(fs.Abs(), fs.max)
    && FileOk(fs.Abs(), fs.g, fs.max, FileOf(dp, cs))
    && IsDir(fs.g, FileOf(dp, cs))
  }

  /** A write of `cnt` slots at slot `o` is refused, or the volume has the clusters for it. */
  ghost predicate CanWrite(v: Volume, g: Geometry, max: nat, f: File, o: nat, cnt: nat, limit: nat)
    requires g.perCluster > 0
  {
    Rejected(f, SLOT * o, SLOT * cnt, limit) || (CountGrows(g, f, SLOT * o, SLOT * cnt); Room(v, max, Count(g, f, SLOT * o, SLOT * cnt) - f.cnt))
  }

  lemma CountGrows(g: Geometry, f: File, off: nat, n: nat)
    requires g.perCluster > 0
    ensures Count(g, f, off, n) >= f.cnt
  {
  }

  /** ... wherever the least run of `cnt` free slots is. */
  ghost predicate CanAdd(v: Volume, g: Geometry, max: nat, f: File, flags: seq<bool>, cnt: nat, limit: nat)
    requires g.perCluster > 0
  {
    forall o: nat :: LeastRun(flags, o, cnt) ==> CanWrite(v, g, max, f, o, cnt, limit)
  }

  /** From volume `v` and directory `f` to `w` and `h`, by a write of `cnt` slots at slot `o` that
      visits `pieces`. */
  ghost predicate Wrote(v: Volume, f: File, w: Volume, h: File, g: Geometry, max: nat, o: nat, cnt: nat, pieces: seq<Piece>) {
    && g.perCluster > 0 && Shape(v, max) && f.cs != [] && (forall i :: 0 <= i < |f.cs| ==> f.cs[i] <= max)
    && h == Written(v, g, f, SLOT * o, SLOT * cnt)
    && Visited(g, h.cs, SLOT * o, SLOT * cnt, pieces)
    && Room(v, max, h.cnt - f.cnt)
    && w == Extend(v, max, f.cs, h.cnt - f.cnt)
  }

  /** The slots `o` to `o + cnt` of a directory may be written. */
  ghost predicate SlotsAllowed(o: nat, cnt: nat, limit: nat) {
    SLOT * (o + cnt) < UINT32 && SLOT * (o + cnt) <= limit
  }

  lemma RunInside(g: Geometry, f: File, r: nat)
    requires IsDir(g, f) && r <= Slots(g, f.cnt)
    ensures SLOT * r <= f.size
  {
    SlotsBytes(g, f.cnt);
  }

  /** The entries of a new file, as `fat32_inode_alloc` places them: in the least run of free slots
      that holds them, one entry after another. Its result is the slot of the short entry. */
  method AddEntries(fs: FileSystem, dp: Inode, disk: Disk, name: Name, shortName: Name, limit: nat, ghost cs: seq<nat>)
    returns (r: Option<nat>, ghost offset: nat, ghost pieces: seq<Piece>)
    requires DirOk(fs, dp, cs) && OnDisk(fs.g, disk, cs)
    requires LongName.IsName(name) && LongName.Parts(|name|) <= LongName.CAPACITY
    requires CanAdd(fs.Abs(), fs.g, fs.max, FileOf(dp, cs), Flags(fs.g, disk, cs), EntryCount(name, shortName), limit)
    modifies fs, dp
    ensures LeastRun(Flags(fs.g, disk, cs), offset, EntryCount(name, shortName))
    ensures SlotsAllowed(offset, EntryCount(name, shortName), limit) ==>
              && r == Some(offset + EntryCount(name, shortName) - 1)
              && exists ds :: Wrote(old(fs.Abs()), old(FileOf(dp, cs)), fs.Abs(), FileOf(dp, ds), fs.g, fs.max,
                                    offset, EntryCount(name, shortName), pieces)
    ensures !SlotsAllowed(offset, EntryCount(name, shortName), limit) ==>
              r == None && fs.Abs() == old(fs.Abs()) && FileOf(dp, cs) == old(FileOf(dp, cs))
  {
    var es := LongName.FcbInit(name, shortName);
    var cnt := |es| + 1;
    var first := InsertOffset(fs.g, fs.fat, disk, dp.start, dp.cnt, cnt, cs);
    offset := first;
    r, pieces := WriteSlots(fs, dp, first, cnt, limit, cs);
    if r.Some? {
      r := Some(first + cnt - 1);
    }
  }

  method WriteSlots(fs: FileSystem, dp: Inode, first: nat, cnt: nat, limit: nat, ghost cs: seq<nat>)
    returns (r: Option<nat>, ghost pieces: seq<Piece>)
    requires DirOk(fs, dp, cs) && first <= Slots(fs.g, |cs|) && 0 < cnt < 256
    requires CanWrite(fs.Abs(), fs.g, fs.max, FileOf(dp, cs), first, cnt, limit)
    modifies fs, dp
    ensures SlotsAllowed(first, cnt, limit) ==>
              && r.Some?
              && exists ds :: Wrote(old(fs.Abs()), old(FileOf(dp, cs)), fs.Abs(), FileOf(dp, ds), fs.g, fs.max, first, cnt, pieces)
    ensures !SlotsAllowed(first, cnt, limit) ==> r == None && fs.Abs() == old(fs.Abs()) && FileOf(dp, cs) == old(FileOf(dp, cs))
  {
    ghost var v, f := fs.Abs(), FileOf(dp, cs);
    RunInside(fs.g, f, first);
    r, pieces := fs.Write(dp, SLOT * first, SLOT * cnt, limit, cs);
    if r.Some? {
      ghost var ds := Written(v, fs.g, f, SLOT * first, SLOT * cnt).cs;
      assert Wrote(v, f, fs.Abs(), FileOf(dp, ds), fs.g, fs.max, first, cnt, pieces);
    }
  }

  /** A write inside a file adds no cluster. */
  lemma InsideAddsNone(g: Geometry, f: File, off: nat, n: nat)
    requires g.perCluster > 0 && 0 < n && off + n <= f.size <= f.cnt * g.ClusterSize()
    ensures Count(g, f, off, n) == f.cnt
  {
    IndexBelow(off + n - 1, f.cnt, g.ClusterSize());
  }

  lemma IndexBelow(p: nat, n: nat, d: nat)
    requires d > 0 && p < n * d
    ensures p / d < n
  {
    var q := p / d;
    assert p == d * q + p % d;
    if q >= n {
      Arith.MulMono(n, q, d);
    }
  }

  /** A write of slots inside a directory changes neither the volume nor the directory. */
  lemma WroteInside(v: Volume, f: File, w: Volume, h: File, g: Geometry, max: nat, o: nat, cnt: nat, pieces: seq<Piece>)
    requires Wrote(v, f, w, h, g, max, o, cnt, pieces) && f.cnt == |f.cs| && 0 < cnt
    requires SLOT * (o + cnt) <= f.size <= f.cnt * g.ClusterSize()
    ensures w == v && h == f
  {
    InsideAddsNone(g, f, SLOT * o, SLOT * cnt);
    assert f.cs + Next(v, 0) == f.cs;
  }

  /** `fat32_inode_delete`, where the slot of the short entry is in the directory: nothing is
      returned where an assertion fails. */
  method RemoveEntries(fs: FileSystem, dp: Inode, parentOff: nat, kept: Name, limit: nat, ghost cs: seq<nat>)
    returns (r: Option<nat>, ghost pieces: seq<Piece>)
    requires DirOk(fs, dp, cs) && SLOT * (parentOff + 1) <= dp.size <= limit && LongName.Parts(|kept|) < 255
    modifies fs, dp
    ensures fs.Abs() == old(fs.Abs()) && FileOf(dp, cs) == old(FileOf(dp, cs))
    ensures Covers(fs.g, cs, SLOT * (parentOff + 1))
    ensures match DeletedPieces(fs.g, cs, parentOff, kept)
            case None => r == None
            case Some(ps) => r.Some? && pieces == ps
  {
    var long := LongName.Parts(|kept|);
    pieces := [];
    if !(parentOff > 0) || !(parentOff - long > 0) {
      return None, pieces;
    }
    var first := parentOff - long;
    ghost var v, f := fs.Abs(), FileOf(dp, cs);
    SlotInside(fs.g, f, first);
    InsideAddsNone(fs.g, f, SLOT * first, SLOT * (long + 1));
    r, pieces := WriteSlots(fs, dp, first, long + 1, limit, cs);
    ghost var ds :| Wrote(v, f, fs.Abs(), FileOf(dp, ds), fs.g, fs.max, first, long + 1, pieces);
    WroteInside(v, f, fs.Abs(), FileOf(dp, ds), fs.g, fs.max, first, long + 1, pieces);
  }

  lemma SlotInside(g: Geometry, f: File, o: nat)
    requires IsDir(g, f) && SLOT * o <= f.size
    ensures o <= Slots(g, f.cnt)
  {
    SlotsBytes(g, f.cnt);
  }
}

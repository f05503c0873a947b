/** Reading what was written: the inode that a write leaves lets a read of the same range through,
    which visits the pieces the write visited, and nothing that could be read before is lost. */
module FatReuse {
  import opened FatLayout
  import opened FatFile
  import opened FatRead
  import opened FatVolume
  import opened FatWrite
  import opened Wrappers

  /** After an accepted write the range is within the size, nothing shrinks, and every range that
      was within the old size has the pieces it had. */
  lemma WrittenIsReadable(g: Geometry, v: Volume, f: File, off: nat, n: nat, q: nat, m: nat)
    requires g.perCluster > 0 && f.cnt == |f.cs| && off <= f.size <= f.cnt * g.ClusterSize()
    requires Covers(g, f.cs, f.size) && Covers(g, Written(v, g, f, off, n).cs, Written(v, g, f, off, n).size)
    requires q + m <= f.size
    ensures var h := Written(v, g, f, off, n);
      && off + n <= h.size && f.size <= h.size
      && Covers(g, f.cs, q + m) && Covers(g, h.cs, q + m) && Pieces(g, h.cs, q, m) == Pieces(g, f.cs, q, m)
  {
    var h := Written(v, g, f, off, n);
    SizeIsNew(g, f, off, n);
    CoversLess(g, f.cs, f.size, q + m);
    CoversLess(g, h.cs, h.size, q + m);
    PiecesOfLonger(g, f.cs, h.cs, q, m);
  }

  /** The chain after a write covers the new size. */
  lemma WrittenCovers(g: Geometry, v: Volume, max: nat, f: File, off: nat, n: nat)
    requires g.perCluster > 0 && Shape(v, max) && FileOk(v, g, max, f) && off <= f.size
    ensures var h := Written(v, g, f, off, n); Covers(g, h.cs, h.size)
  {
    CountCovers(g, f, off, n);
    var h := Written(v, g, f, off, n);
    assert |h.cs| == Count(g, f, off, n);
  }

  /** A write and then a read of the same range. */
  method WriteThenRead(fs: FileSystem, ip: Inode, disk: Disk, off: nat, n: nat, limit: nat, ghost cs: seq<nat>, ghost ds: seq<nat>)
    returns (r: Option<nat>, out: seq<bv8>, ghost written: seq<Piece>, ghost read: seq<Piece>)
    requires off < UINT32 && n < UINT32 && fs.g.Valid() && fs.max == fs.g.Max()
    requires Shape(fs.Abs(), fs.max) && Frontier(fs.Abs(), fs.max) && FileOk(fs.Abs(), fs.g, fs.max, FileOf(ip, cs))
    requires !Rejected(FileOf(ip, cs), off, n, limit) && Room(fs.Abs(), fs.max, Count(fs.g, FileOf(ip, cs), off, n) - ip.cnt)
    requires ds == Written(fs.Abs(), fs.g, FileOf(ip, cs), off, n).cs && OnDisk(fs.g, disk, ds)
    requires SizeAfter(fs.g, FileOf(ip, cs), off, n) < UINT32
    modifies fs, ip
    ensures r == Some(n) && |out| == n && read == written
    ensures Covers(fs.g, ds, off + n) && IsRange(fs.g, disk, ds, off, out)
    ensures ip.size >= old(ip.size)
  {
    ghost var v, f := fs.Abs(), FileOf(ip, cs);
    WrittenCovers(fs.g, v, fs.max, f, off, n);
    SizeIsNew(fs.g, f, off, n);
    r, written := fs.Write(ip, off, n, limit, cs);
    ExtendKeeps(v, fs.max, f.start, cs, Count(fs.g, f, off, n) - f.cnt);
    ghost var asked;
    out, read, asked := Read(ip, fs.g, fs.fat, disk, off, n, ds);
  }
}

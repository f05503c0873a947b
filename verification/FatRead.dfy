/** `fat32_inode_read`: the nested walk over clusters and sectors returns exactly the bytes of
    the file in the range asked for. */
module FatRead {
  import opened FatLayout
  import opened FatFile
  import FatBytes
  import Arith
  import opened Wrappers

  type Disk = FatBytes.Disk

  /** Every sector of the file is on the disk. */
  ghost predicate OnDisk(g: Geometry, disk: Disk, cs: seq<nat>) {
    && g.Valid() && |disk| == g.total
    && (forall i :: 0 <= i < |cs| ==> 2 <= cs[i] <= g.Max())
  }

  lemma SectorOnDisk(g: Geometry, disk: Disk, cs: seq<nat>, p: nat)
    requires OnDisk(g, disk, cs) && Covers(g, cs, p + 1)
    ensures SectorOf(g, cs, p) < |disk|
  {
    var c, s, o := PartsOf(g, p);
    SectorAt(g, cs, c, s, o);
    ClusterInData(g, cs[c], s);
  }

  /** Byte `p` of the concatenation of the file's clusters. */
  ghost function FileByte(g: Geometry, disk: Disk, cs: seq<nat>, p: nat): bv8
    requires OnDisk(g, disk, cs) && Covers(g, cs, p + 1)
  {
    SectorOnDisk(g, disk, cs, p);
    disk[SectorOf(g, cs, p)][OffsetOf(g, p)]
  }

  /** `out` is bytes `p` to `p + |out|` of the file. */
  ghost predicate IsRange(g: Geometry, disk: Disk, cs: seq<nat>, p: nat, out: seq<bv8>)
    requires OnDisk(g, disk, cs) && Covers(g, cs, p + |out|)
  {
    forall k :: 0 <= k < |out| ==> (CoversLess(g, cs, p + |out|, p + k + 1); out[k] == FileByte(g, disk, cs, p + k))
  }

  lemma FileByteAt(g: Geometry, disk: Disk, cs: seq<nat>, c: nat, s: nat, o: nat)
    requires OnDisk(g, disk, cs) && Covers(g, cs, At(g, c, s, o) + 1) && s < g.perCluster && o < SECTOR
    ensures c < |cs| && g.FirstSector(cs[c]) + s < |disk|
    ensures FileByte(g, disk, cs, At(g, c, s, o)) == disk[g.FirstSector(cs[c]) + s][o]
  {
    Locate(g, c, s, o);
    IndexOk(g, cs, At(g, c, s, o));
    ClusterInData(g, cs[c], s);
  }

  /** The bytes of one piece are a range of the file. */
  lemma PieceIsRange(g: Geometry, disk: Disk, cs: seq<nat>, c: nat, s: nat, o: nat, m: nat)
    requires OnDisk(g, disk, cs) && c < |cs| && s < g.perCluster && o + m <= SECTOR && m > 0
    requires Covers(g, cs, At(g, c, s, o) + m)
    ensures g.FirstSector(cs[c]) + s < |disk|
    ensures IsRange(g, disk, cs, At(g, c, s, o), disk[g.FirstSector(cs[c]) + s][o..o + m])
  {
    ClusterInData(g, cs[c], s);
    var p := At(g, c, s, o);
    var bs := disk[g.FirstSector(cs[c]) + s][o..o + m];
    forall k | 0 <= k < |bs|
      ensures (CoversLess(g, cs, p + |bs|, p + k + 1); bs[k] == FileByte(g, disk, cs, p + k))
    {
      CoversLess(g, cs, p + |bs|, p + k + 1);
      FileByteAt(g, disk, cs, c, s, o + k);
    }
  }

  lemma RangesJoin(g: Geometry, disk: Disk, cs: seq<nat>, p: nat, xs: seq<bv8>, ys: seq<bv8>)
    requires OnDisk(g, disk, cs) && Covers(g, cs, p + |xs| + |ys|)
    requires IsRange(g, disk, cs, p, xs) && IsRange(g, disk, cs, p + |xs|, ys)
    ensures IsRange(g, disk, cs, p, xs + ys)
  {
    var zs := xs + ys;
    forall k | 0 <= k < |zs|
      ensures (CoversLess(g, cs, p + |zs|, p + k + 1); zs[k] == FileByte(g, disk, cs, p + k))
    {
      CoversLess(g, cs, p + |zs|, p + k + 1);
      if k < |xs| {
        assert xs[k] == FileByte(g, disk, cs, p + k);
      } else {
        assert ys[k - |xs|] == FileByte(g, disk, cs, p + |xs| + (k - |xs|));
      }
    }
  }

  // ----------------------------------------------------------------- the loops

  /** The state of the walk: the bytes read so far are those of the pieces visited. */
  ghost predicate Walk(g: Geometry, disk: Disk, cs: seq<nat>, off: nat, n: nat, c: nat, s: nat, o: nat,
                       out: seq<bv8>, pieces: seq<Piece>) {
    && OnDisk(g, disk, cs) && Visit(g, cs, off, n, c, s, o, |out|, pieces)
    && IsRange(g, disk, cs, off, out)
  }

  lemma WalkPiece(g: Geometry, disk: Disk, cs: seq<nat>, off: nat, n: nat, c: nat, s: nat, o: nat,
                  out: seq<bv8>, pieces: seq<Piece>, m: nat)
    requires Walk(g, disk, cs, off, n, c, s, o, out, pieces) && |out| < n && s < g.perCluster
    requires m == Min(SECTOR - o, n - |out|)
    ensures g.FirstSector(cs[c]) + s < |disk|
    ensures Walk(g, disk, cs, off, n, c, s + 1, 0, out + disk[g.FirstSector(cs[c]) + s][o..o + m],
                 pieces + [Piece(g.FirstSector(cs[c]) + s, o, m)])
    ensures InCluster(g, off + |out| + m - 1, c)
  {
    VisitPiece(g, cs, off, n, c, s, o, |out|, pieces, m);
    PieceIsRange(g, disk, cs, c, s, o, m);
    RangesJoin(g, disk, cs, off, out, disk[g.FirstSector(cs[c]) + s][o..o + m]);
  }

  /** The clusters whose successors a read of `n` bytes at `off` looks up: those before the
      cluster of its last byte, or of `off` if there is nothing to read. */
  ghost function Asked(g: Geometry, cs: seq<nat>, off: nat, n: nat): seq<nat>
    requires g.perCluster > 0
  {
    cs[..Min(|cs|, ClusterOf(g, if n > 0 then off + n - 1 else off))]
  }

  /** The index of the cluster of byte `p`. */
  ghost function ClusterOf(g: Geometry, p: nat): nat
    requires g.perCluster > 0
  {
    p / g.ClusterSize()
  }

  /** A prefix of a chain has its last cluster only if it is the whole chain. */
  lemma LastInPrefix(fat: seq<nat>, max: nat, start: nat, cs: seq<nat>, k: nat)
    requires Chain(fat, max, start, cs) && k <= |cs|
    ensures cs[|cs| - 1] in cs[..k] <==> k == |cs|
  {
    if k == |cs| {
      assert cs[..k][k - 1] == cs[|cs| - 1];
    } else if cs[|cs| - 1] in cs[..k] {
      var i :| 0 <= i < k && cs[..k][i] == cs[|cs| - 1];
      ChainAcyclic(fat, max, start, cs, i, |cs| - 1);
    }
  }

  /** The successor of the last cluster is looked up exactly by a read at the very end of the
      last cluster. */
  lemma LastAskedIff(g: Geometry, fat: seq<nat>, max: nat, start: nat, cs: seq<nat>, off: nat, n: nat)
    requires Chain(fat, max, start, cs) && Covers(g, cs, off + n)
    ensures cs[|cs| - 1] in Asked(g, cs, off, n) <==> off == |cs| * g.ClusterSize()
  {
    var p := if n > 0 then off + n - 1 else off;
    IndexOrEnd(g, cs, p);
    LastInPrefix(fat, max, start, cs, Min(|cs|, ClusterOf(g, p)));
  }

  lemma IndexOrEnd(g: Geometry, cs: seq<nat>, p: nat)
    requires Covers(g, cs, p)
    ensures |cs| <= ClusterOf(g, p) <==> p == |cs| * g.ClusterSize()
  {
    if Covers(g, cs, p + 1) {
      IndexOk(g, cs, p);
    } else {
      assert p == g.ClusterSize() * |cs|;
      Arith.DivModUnique(p, g.ClusterSize(), |cs|, 0);
    }
  }

  /** Reading at the end of a file of one full cluster looks up the successor of its only
      cluster. */
  lemma EndOfFileAsksPastLast(g: Geometry, fat: seq<nat>)
    requires g.Valid() && 2 < g.Max() < |fat| && g.Max() <= EOF_FROM && IsEof(fat[2])
    ensures Chain(fat, g.Max(), 2, [2]) && Covers(g, [2], g.ClusterSize())
    ensures 2 in Asked(g, [2], g.ClusterSize(), 0)
  {
    assert Link(fat, [2], 0);
    LastAskedIff(g, fat, g.Max(), 2, [2], g.ClusterSize(), 0);
  }

  /** `fat32_inode_read(off, n)`, with the clusters whose successors it looks up. */
  method Read(ip: Inode, g: Geometry, fat: seq<nat>, disk: Disk, off: nat, n0: nat, ghost cs: seq<nat>)
    returns (out: seq<bv8>, ghost pieces: seq<Piece>, ghost asked: seq<nat>)
    requires off < UINT32 && n0 < UINT32 && ip.size < UINT32
    requires OnDisk(g, disk, cs) && Chain(fat, g.Max(), ip.start, cs) && Covers(g, cs, ip.size)
    modifies ip`end
    ensures ip.end == old(ip.end)
    ensures off > ip.size || off + n0 >= UINT32 ==> out == []
    ensures off <= ip.size && off + n0 < UINT32 ==>
              && |out| == Min(n0, ip.size - off) && Covers(g, cs, off + |out|)
              && IsRange(g, disk, cs, off, out) && pieces == Pieces(g, cs, off, |out|)
              && asked == Asked(g, cs, off, |out|)
              && (cs[|cs| - 1] in asked <==> off == |cs| * g.ClusterSize())
  {
    var m := Clip(off, n0, ip.size);
    match m
    case None =>
      out, pieces, asked := [], [], [];
    case Some(n) =>
      CoversLess(g, cs, ip.size, off + n);
      LastAskedIff(g, fat, g.Max(), ip.start, cs, off, n);
      out, pieces, asked := ReadAt(ip, g, fat, disk, off, n, cs);
  }

  /** The checks: how many bytes there are to read, if any may be. */
  method Clip(off: nat, n: nat, size: nat) returns (m: Option<nat>)
    requires off < UINT32 && n < UINT32 && size < UINT32
    ensures m == if off > size || off + n >= UINT32 then None else Some(Min(n, size - off))
  {
    if off > size || (off + n) % UINT32 < off {
      return None;
    }
    return Some(if (off + n) % UINT32 > size then size - off else n);
  }

  method ReadAt(ip: Inode, g: Geometry, fat: seq<nat>, disk: Disk, off: nat, n: nat, ghost cs: seq<nat>)
    returns (out: seq<bv8>, ghost pieces: seq<Piece>, ghost asked: seq<nat>)
    requires OnDisk(g, disk, cs) && Chain(fat, g.Max(), ip.start, cs) && Covers(g, cs, off + n)
    modifies ip`end
    ensures ip.end == old(ip.end)
    ensures |out| == n && IsRange(g, disk, cs, off, out) && pieces == Pieces(g, cs, off, n)
    ensures asked == Asked(g, cs, off, n)
  {
    var c, s, o := Split(g, off);
    var iter: nat;
    iter, asked := ip.Travel(fat, g.Max(), c + 1, cs);
    VisitStart(g, cs, off, n, c, s, o);
    ghost var last;
    out, pieces, asked, last := ReadChain(g, fat, disk, off, n, iter, s, o, cs, c, asked);
    ClusterOfByte(g, if n > 0 then off + n - 1 else off, if n > 0 then last else c);
  }

  lemma ClusterOfByte(g: Geometry, p: nat, c: nat)
    requires g.perCluster > 0 && InCluster(g, p, c)
    ensures ClusterOf(g, p) == c
  {
    ClusterIndex(g, p, c);
  }

  /** The walk over the clusters, from the one that byte `off` is in. */
  method ReadChain(g: Geometry, fat: seq<nat>, disk: Disk, off: nat, n: nat, iter0: nat, s0: nat, o0: nat,
                   ghost cs: seq<nat>, ghost c0: nat, ghost asked0: seq<nat>)
    returns (out: seq<bv8>, ghost pieces: seq<Piece>, ghost asked: seq<nat>, ghost last: nat)
    requires g.Valid() && Chain(fat, g.Max(), if cs == [] then 0 else cs[0], cs)
    requires Walk(g, disk, cs, off, n, c0, s0, o0, [], []) && s0 < g.perCluster
    requires n > 0 ==> iter0 == cs[c0] && asked0 == cs[..c0]
    ensures |out| == n && IsRange(g, disk, cs, off, out) && pieces == Pieces(g, cs, off, n)
    ensures n > 0 ==> last < |cs| && InCluster(g, off + n - 1, last) && asked == cs[..last]
    ensures n == 0 ==> asked == asked0
  {
    out, pieces, asked, last := [], [], asked0, c0;
    var iter: nat, s: nat, o: nat := iter0, s0, o0;
    while !IsEof(iter) && |out| < n
      invariant Walk(g, disk, cs, off, n, last, s, o, out, pieces)
      invariant |out| < n ==> iter == cs[last] && s < g.perCluster
      invariant if n > 0 then last < |cs| && asked == cs[..last] else asked == asked0
      invariant |out| == n > 0 ==> InCluster(g, off + n - 1, last)
      decreases n - |out|
    {
      s, o, out, pieces := ReadCluster(g, disk, off, n, iter, s, o, out, cs, last, pieces);
      if |out| == n {
        break;
      }
      assert Link(fat, cs, last);
      VisitOn(g, cs, off, n, last, |out|, pieces);
      s := 0;
      asked := asked + [iter];
      iter := fat[iter];
      last := last + 1;
    }
  }

  /** The sectors of one cluster, from sector `s0`, offset `o0` on. */
  method ReadCluster(g: Geometry, disk: Disk, off: nat, n: nat, iter: nat, s0: nat, o0: nat, out0: seq<bv8>,
                     ghost cs: seq<nat>, ghost c: nat, ghost pieces0: seq<Piece>)
    returns (s: nat, o: nat, out: seq<bv8>, ghost pieces: seq<Piece>)
    requires Walk(g, disk, cs, off, n, c, s0, o0, out0, pieces0) && |out0| < n && s0 < g.perCluster
    requires iter == cs[c]
    ensures Walk(g, disk, cs, off, n, c, s, o, out, pieces)
    ensures |out| > |out0| && o == 0 && (|out| < n ==> s == g.perCluster)
    ensures InCluster(g, off + |out| - 1, c)
  {
    s, o, out, pieces := s0, o0, out0, pieces0;
    var first := g.FirstSector(iter);
    while s < g.perCluster && |out| < n
      invariant Walk(g, disk, cs, off, n, c, s, o, out, pieces)
      invariant |out| == |out0| ==> s == s0 && o == o0
      invariant |out| > |out0| ==> o == 0 && InCluster(g, off + |out| - 1, c)
      invariant |out| >= |out0|
    {
      var m := Min(SECTOR - o, n - |out|);
      WalkPiece(g, disk, cs, off, n, c, s, o, out, pieces, m);
      var bytes := disk[first + s][o..o + m];
      pieces := pieces + [Piece(first + s, o, m)];
      out := out + bytes;
      o := 0;
      s := s + 1;
    }
  }

  // -------------------------------------------------- the file as a whole

  /** `n` sectors in a row. */
  ghost function Sectors(disk: Disk, first: nat, n: nat): seq<bv8>
    requires first + n <= |disk|
  {
    if n == 0 then [] else Sectors(disk, first, n - 1) + disk[first + n - 1]
  }

  lemma {:induction false} SectorsAt(disk: Disk, first: nat, n: nat, s: nat, o: nat)
    requires first + n <= |disk| && s < n && o < SECTOR
    ensures |Sectors(disk, first, n)| == n * SECTOR && s * SECTOR + o < n * SECTOR
    ensures Sectors(disk, first, n)[s * SECTOR + o] == disk[first + s][o]
  {
    if n == 1 {
      assert Sectors(disk, first, 0) == [];
    } else if s < n - 1 {
      SectorsAt(disk, first, n - 1, s, o);
    } else {
      SectorsAt(disk, first, n - 1, 0, 0);
    }
  }

  /** The clusters of a file, put together in chain order. */
  ghost function Contents(g: Geometry, disk: Disk, cs: seq<nat>): seq<bv8>
    requires OnDisk(g, disk, cs)
  {
    if cs == [] then [] else
      var last := cs[|cs| - 1];
      ClusterInData(g, last, g.perCluster - 1);
      Contents(g, disk, cs[..|cs| - 1]) + Sectors(disk, g.FirstSector(last), g.perCluster)
  }

  lemma {:induction false} ContentsLength(g: Geometry, disk: Disk, cs: seq<nat>)
    requires OnDisk(g, disk, cs)
    ensures |Contents(g, disk, cs)| == |cs| * g.ClusterSize()
  {
    if cs != [] {
      var n := |cs| - 1;
      ContentsLength(g, disk, cs[..n]);
      ClusterInData(g, cs[n], g.perCluster - 1);
      SectorsAt(disk, g.FirstSector(cs[n]), g.perCluster, 0, 0);
      Arith.MulStep(n, g.ClusterSize());
    }
  }

  lemma {:induction false} ContentsAt(g: Geometry, disk: Disk, cs: seq<nat>, c: nat, s: nat, o: nat)
    requires OnDisk(g, disk, cs) && c < |cs| && s < g.perCluster && o < SECTOR
    ensures g.FirstSector(cs[c]) + s < |disk| && At(g, c, s, o) < |Contents(g, disk, cs)|
    ensures Contents(g, disk, cs)[At(g, c, s, o)] == disk[g.FirstSector(cs[c]) + s][o]
    decreases |cs|
  {
    var n := |cs| - 1;
    ClusterInData(g, cs[c], s);
    ContentsLength(g, disk, cs[..n]);
    if c < n {
      ContentsAt(g, disk, cs[..n], c, s, o);
    } else {
      ClusterInData(g, cs[n], g.perCluster - 1);
      SectorsAt(disk, g.FirstSector(cs[n]), g.perCluster, s, o);
    }
  }

  lemma ByteInContents(g: Geometry, disk: Disk, cs: seq<nat>, p: nat)
    requires OnDisk(g, disk, cs) && Covers(g, cs, p + 1)
    ensures p < |Contents(g, disk, cs)| && Contents(g, disk, cs)[p] == FileByte(g, disk, cs, p)
  {
    var c, s, o := PartsOf(g, p);
    FileByteAt(g, disk, cs, c, s, o);
    ContentsAt(g, disk, cs, c, s, o);
  }

  /** A range of the file is a slice of its clusters put together. */
  lemma RangeIsSlice(g: Geometry, disk: Disk, cs: seq<nat>, off: nat, out: seq<bv8>)
    requires OnDisk(g, disk, cs) && Covers(g, cs, off + |out|) && IsRange(g, disk, cs, off, out)
    ensures off + |out| <= |Contents(g, disk, cs)| && out == Contents(g, disk, cs)[off..off + |out|]
  {
    ContentsLength(g, disk, cs);
    var all := Contents(g, disk, cs);
    forall k | 0 <= k < |out| ensures out[k] == all[off + k] {
      CoversLess(g, cs, off + |out|, off + k + 1);
      ByteInContents(g, disk, cs, off + k);
    }
  }
}

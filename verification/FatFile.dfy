/** Files as chains of clusters: walking a chain, where the bytes of a file are, and reading. */
module FatFile {
  import opened FatLayout
  import Arith

  const UINT32: nat := 0x1_0000_0000

  const EOF_FROM: nat := 0x0FFF_FFF8

  /** ISEOF, for an entry read from the FAT. */
  predicate IsEof(c: nat) { c >= EOF_FROM }

  // ------------------------------------------------------------------- chains

  ghost predicate Link(fat: seq<nat>, cs: seq<nat>, i: nat)
    requires i < |cs| && cs[i] < |fat|
  {
    if i + 1 < |cs| then fat[cs[i]] == cs[i + 1] else IsEof(fat[cs[i]])
  }

  /** The clusters `cs` follow one another from `start`, and the last ends the chain. All but
      the last have a successor that is asked for, so all are numbers that may be asked about. */
  ghost predicate Chain(fat: seq<nat>, max: nat, start: nat, cs: seq<nat>) {
    && max < |fat| && max <= EOF_FROM
    && cs != [] && cs[0] == start
    && (forall i :: 0 <= i < |cs| ==> 2 <= cs[i] < max)
    && (forall i {:trigger Link(fat, cs, i)} :: 0 <= i < |cs| ==> Link(fat, cs, i))
  }

  /** The rest of a chain is the chain of its first cluster. */
  lemma ChainFrom(fat: seq<nat>, max: nat, start: nat, cs: seq<nat>, i: nat)
    requires Chain(fat, max, start, cs) && i < |cs|
    ensures Chain(fat, max, cs[i], cs[i..])
  {
    forall j | 0 <= j < |cs| - i ensures Link(fat, cs[i..], j) {
      assert Link(fat, cs, i + j);
    }
  }

  /** A start has one chain. */
  lemma {:induction false} ChainUnique(fat: seq<nat>, max: nat, start: nat, cs: seq<nat>, ds: seq<nat>)
    requires Chain(fat, max, start, cs) && Chain(fat, max, start, ds)
    ensures cs == ds
    decreases |cs|
  {
    assert Link(fat, cs, 0) && Link(fat, ds, 0);
    if |cs| > 1 {
      ChainFrom(fat, max, start, cs, 1);
      ChainFrom(fat, max, start, ds, 1);
      ChainUnique(fat, max, cs[1], cs[1..], ds[1..]);
      assert cs == [cs[0]] + cs[1..] && ds == [ds[0]] + ds[1..];
    }
  }

  /** A chain has no cluster twice. */
  lemma ChainAcyclic(fat: seq<nat>, max: nat, start: nat, cs: seq<nat>, i: nat, j: nat)
    requires Chain(fat, max, start, cs) && i < j < |cs|
    ensures cs[i] != cs[j]
  {
    if cs[i] == cs[j] {
      ChainFrom(fat, max, start, cs, i);
      ChainFrom(fat, max, start, cs, j);
      ChainUnique(fat, max, cs[i], cs[i..], cs[j..]);
    }
  }

  // -------------------------------------------------------------------- inode

  class Inode {
    var start: nat
    var end: nat
    var cnt: nat
    var size: nat
    const isDir: bool

    constructor (start: nat, isDir: bool)
      ensures this.start == start && end == start && cnt == 1 && size == 0 && this.isDir == isDir
    {
      this.start, this.isDir := start, isDir;
      end, cnt, size := start, 1, 0;
    }

    /** `fat32_fat_travel`: the cluster at position `num`, counted from 1, or the last one if there
        are fewer; for 0, the number of clusters, with the last one noted. The successors looked
        up are those of the clusters `asked`. */
    method Travel(fat: seq<nat>, max: nat, num: nat, ghost cs: seq<nat>) returns (r: nat, ghost asked: seq<nat>)
      requires Chain(fat, max, start, cs)
      modifies this`end
      ensures asked == if 0 < num <= |cs| then cs[..num - 1] else cs
      ensures num == 0 ==> r == |cs| && end == cs[|cs| - 1]
      ensures num != 0 ==> r == cs[if num <= |cs| then num - 1 else |cs| - 1] && end == old(end)
    {
      var iter, cnt, prev := start, 0, 0;
      ghost var i := 0;
      asked := [];
      while true
        invariant i <= |cs| && cnt == i && asked == cs[..i]
        invariant if i < |cs| then iter == cs[i] else IsEof(iter)
        invariant i > 0 ==> prev == cs[i - 1]
        invariant num == 0 || i < num
        invariant end == old(end)
        decreases |cs| - i
      {
        if IsEof(iter) {
          break;
        }
        cnt := cnt + 1;
        if !(num > cnt || num == 0) {
          break;
        }
        assert Link(fat, cs, i);
        prev := iter;
        iter := fat[iter];
        asked := asked + [prev];
        i := i + 1;
      }
      if num == 0 {
        end := prev;
        return cnt, asked;
      } else if num > cnt {
        return prev, asked;
      }
      return iter, asked;
    }
  }

  // ------------------------------------------------------------ byte positions

  /** A run of bytes in one sector. */
  datatype Piece = Piece(sector: nat, offset: nat, length: nat)

  ghost predicate Covers(g: Geometry, cs: seq<nat>, size: nat) {
    && g.perCluster > 0 && size <= |cs| * g.ClusterSize()
    && (forall i :: 0 <= i < |cs| ==> cs[i] >= 2)
  }

  /** The sector and offset of byte `p` of a file. */
  ghost function SectorOf(g: Geometry, cs: seq<nat>, p: nat): nat
    requires Covers(g, cs, p + 1)
  {
    IndexOk(g, cs, p);
    g.FirstSector(cs[p / g.ClusterSize()]) + p % g.ClusterSize() / SECTOR
  }

  ghost function OffsetOf(g: Geometry, p: nat): (o: nat)
    requires g.perCluster > 0
    ensures o < SECTOR
  {
    p % g.ClusterSize() % SECTOR
  }

  lemma IndexOk(g: Geometry, cs: seq<nat>, p: nat)
    requires Covers(g, cs, p + 1)
    ensures p / g.ClusterSize() < |cs|
  {
    var n, k := g.ClusterSize(), p / g.ClusterSize();
    assert p == n * k + p % n;
    if k >= |cs| {
      Arith.MulMono(|cs|, k, n);
    }
  }

  /** A byte given by cluster, sector and offset is the byte at that position. */
  lemma Locate(g: Geometry, k: nat, s: nat, o: nat)
    requires s < g.perCluster && o < SECTOR
    ensures var n, p := g.ClusterSize(), k * g.ClusterSize() + s * SECTOR + o;
            p / n == k && p % n == s * SECTOR + o && p % n / SECTOR == s && p % n % SECTOR == o
  {
    var n := g.ClusterSize();
    Arith.RoomForOneMore(s, g.perCluster, SECTOR);
    assert k * n + s * SECTOR + o == n * k + (s * SECTOR + o);
    Arith.DivModUnique(k * n + s * SECTOR + o, n, k, s * SECTOR + o);
  }

  /** The pieces that bytes `p` to `p + n` of a file are in, in order. */
  ghost function Pieces(g: Geometry, cs: seq<nat>, p: nat, n: nat): seq<Piece>
    requires Covers(g, cs, p + n)
    decreases n
  {
    if n == 0 then [] else
      var m := Min(SECTOR - OffsetOf(g, p), n);
      CoversLess(g, cs, p + n, p + 1);
      [Piece(SectorOf(g, cs, p), OffsetOf(g, p), m)] + Pieces(g, cs, p + m, n - m)
  }

  function Min(a: nat, b: nat): nat { if a < b then a else b }

  lemma CoversLess(g: Geometry, cs: seq<nat>, size: nat, less: nat)
    requires Covers(g, cs, size) && less <= size
    ensures Covers(g, cs, less)
  {
  }

  lemma SectorInCluster(g: Geometry, p: nat)
    requires g.perCluster > 0
    ensures p % g.ClusterSize() / SECTOR < g.perCluster
  {
    var q := p % g.ClusterSize();
    assert q < g.perCluster * SECTOR;
  }

  /** The position that sector `s`, offset `o` of the cluster at index `c` has in the file. */
  ghost function At(g: Geometry, c: nat, s: nat, o: nat): nat { c * g.ClusterSize() + s * SECTOR + o }

  lemma SectorAt(g: Geometry, cs: seq<nat>, c: nat, s: nat, o: nat)
    requires Covers(g, cs, At(g, c, s, o) + 1) && s < g.perCluster && o < SECTOR
    ensures c < |cs| && SectorOf(g, cs, At(g, c, s, o)) == g.FirstSector(cs[c]) + s
    ensures OffsetOf(g, At(g, c, s, o)) == o
  {
    Locate(g, c, s, o);
    IndexOk(g, cs, At(g, c, s, o));
  }

  lemma NextSector(g: Geometry, c: nat, s: nat)
    ensures At(g, c, s, SECTOR) == At(g, c, s + 1, 0)
    ensures s == g.perCluster ==> At(g, c, s, 0) == At(g, c + 1, 0, 0)
  {
    assert (c + 1) * g.ClusterSize() == c * g.ClusterSize() + g.ClusterSize();
  }

  lemma SectorOfLonger(g: Geometry, cs: seq<nat>, ds: seq<nat>, p: nat)
    requires cs <= ds && Covers(g, cs, p + 1) && Covers(g, ds, p + 1)
    ensures SectorOf(g, ds, p) == SectorOf(g, cs, p)
  {
    var c, s, o := PartsOf(g, p);
    SectorAt(g, cs, c, s, o);
    SectorAt(g, ds, c, s, o);
  }

  /** A chain that has grown since holds the same bytes in the same places. */
  lemma {:induction false} PiecesOfLonger(g: Geometry, cs: seq<nat>, ds: seq<nat>, p: nat, n: nat)
    requires cs <= ds && Covers(g, cs, p + n) && Covers(g, ds, p + n)
    ensures Pieces(g, ds, p, n) == Pieces(g, cs, p, n)
    decreases n
  {
    if n > 0 {
      CoversLess(g, cs, p + n, p + 1);
      CoversLess(g, ds, p + n, p + 1);
      SectorOfLonger(g, cs, ds, p);
      var m := Min(SECTOR - OffsetOf(g, p), n);
      PiecesOfLonger(g, cs, ds, p + m, n - m);
    }
  }

  /** The parts that the offset macros split a position into. */
  lemma Parts(g: Geometry, off: nat)
    requires g.perCluster > 0
    ensures var size := g.ClusterSize();
            off == At(g, off / size, off % size / SECTOR, off % size % SECTOR) && off % size / SECTOR < g.perCluster
  {
    var k, q := off / g.ClusterSize(), off % g.ClusterSize();
    assert off == g.ClusterSize() * k + q;
    SectorInCluster(g, off);
  }

  lemma PartsOf(g: Geometry, p: nat) returns (c: nat, s: nat, o: nat)
    requires g.perCluster > 0
    ensures p == At(g, c, s, o) && s < g.perCluster && o < SECTOR
  {
    Parts(g, p);
    var size := g.ClusterSize();
    c, s, o := p / size, p % size / SECTOR, p % size % SECTOR;
  }

  /** The cluster index, sector and offset of a position: LOGISTIC_C_NUM, LOGISTIC_S_NUM and
      LOGISTIC_S_OFFSET. */
  method Split(g: Geometry, off: nat) returns (c: nat, s: nat, o: nat)
    requires g.perCluster > 0
    ensures off == At(g, c, s, o) && s < g.perCluster && o < SECTOR && InCluster(g, off, c)
  {
    var size := g.ClusterSize();
    c, s, o := off / size, off % size / SECTOR, off % size % SECTOR;
    Parts(g, off);
    ClusterIndex(g, off, c);
  }

  // --------------------------------------------------------- visiting a range

  /** Byte `p` of a file is in the cluster at index `c`. */
  ghost predicate InCluster(g: Geometry, p: nat, c: nat)
    requires g.perCluster > 0
  {
    c * g.ClusterSize() <= p < c * g.ClusterSize() + g.ClusterSize()
  }

  lemma ClusterIndex(g: Geometry, p: nat, c: nat)
    requires g.perCluster > 0
    ensures InCluster(g, p, c) <==> p / g.ClusterSize() == c
  {
    var size, q := g.ClusterSize(), p / g.ClusterSize();
    assert p == size * q + p % size;
    if InCluster(g, p, c) {
      Arith.DivModUnique(p, size, c, p - c * size);
    }
  }

  /** `tot` of `n` bytes done, in `pieces`; the next byte, if any, is at sector `s`, offset `o` of
      the cluster at index `c`. */
  ghost predicate Visit(g: Geometry, cs: seq<nat>, off: nat, n: nat, c: nat, s: nat, o: nat, tot: nat, pieces: seq<Piece>) {
    && Covers(g, cs, off + n) && tot <= n && Covers(g, cs, off + tot)
    && pieces + Pieces(g, cs, off + tot, n - tot) == Pieces(g, cs, off, n)
    && s <= g.perCluster && o < SECTOR && (s == g.perCluster ==> o == 0)
    && (tot < n ==> c < |cs| && off + tot == At(g, c, s, o))
  }

  lemma VisitStart(g: Geometry, cs: seq<nat>, off: nat, n: nat, c: nat, s: nat, o: nat)
    requires Covers(g, cs, off + n) && off == At(g, c, s, o) && s < g.perCluster && o < SECTOR
    ensures Visit(g, cs, off, n, c, s, o, 0, [])
  {
    CoversLess(g, cs, off + n, off);
    if n > 0 {
      CoversLess(g, cs, off + n, off + 1);
      SectorAt(g, cs, c, s, o);
    }
  }

  lemma VisitPiece(g: Geometry, cs: seq<nat>, off: nat, n: nat, c: nat, s: nat, o: nat, tot: nat, pieces: seq<Piece>, m: nat)
    requires Visit(g, cs, off, n, c, s, o, tot, pieces) && tot < n && s < g.perCluster
    requires m == Min(SECTOR - o, n - tot)
    ensures Visit(g, cs, off, n, c, s + 1, 0, tot + m, pieces + [Piece(g.FirstSector(cs[c]) + s, o, m)])
    ensures InCluster(g, off + tot + m - 1, c)
  {
    CoversLess(g, cs, off + n, off + tot + 1);
    SectorAt(g, cs, c, s, o);
    CoversLess(g, cs, off + n, off + tot + m);
    NextSector(g, c, s);
    Locate(g, c, s, o + m - 1);
    assert pieces + [Piece(g.FirstSector(cs[c]) + s, o, m)] + Pieces(g, cs, off + tot + m, n - tot - m)
        == pieces + ([Piece(g.FirstSector(cs[c]) + s, o, m)] + Pieces(g, cs, off + tot + m, n - tot - m));
  }

  /** More is wanted after a whole cluster: there is a next one. */
  lemma VisitOn(g: Geometry, cs: seq<nat>, off: nat, n: nat, c: nat, tot: nat, pieces: seq<Piece>)
    requires Visit(g, cs, off, n, c, g.perCluster, 0, tot, pieces) && tot < n
    ensures c + 1 < |cs| && Visit(g, cs, off, n, c + 1, 0, 0, tot, pieces)
  {
    NextSector(g, c, g.perCluster);
    CoversLess(g, cs, off + n, off + tot + 1);
    SectorAt(g, cs, c + 1, 0, 0);
  }
}

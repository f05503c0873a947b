/** `fat32_cluster_alloc`, `fat32_inode_write` and `fat32_inode_trunc` as they run. A write visits
    the pieces that a later read of the same range visits; that it copies no bytes into them (the
    copy is commented out) does not matter here. */
module FatWrite {
  import opened FatLayout
  import opened FatFile
  import opened FatVolume
  import Arith
  import opened Wrappers

  class FileSystem {
    const g: Geometry
    const max: nat
    var fat: seq<nat>
    var lead: seq<nat>
    var nxt: nat
    var free: nat

    constructor (g: Geometry, v: Volume)
      requires g.perCluster > 0 && g.FirstData() <= g.total
      ensures this.g == g && max == g.Max() && Abs() == v
    {
      this.g, max := g, g.Max();
      fat, lead, nxt, free := v.fat, v.lead, v.nxt, v.free;
    }

    ghost function Abs(): Volume
      reads this
    {
      Volume(fat, lead, nxt, free)
    }

    /** `fat32_fat_alloc`: the loops over the sectors of the FAT and the entries of each. */
    method FatAlloc() returns (r: Option<nat>)
      requires max < |fat| && max >= 2
      modifies this`fat
      ensures r == Searched(old(fat), max, 0)
      ensures fat == if r.Some? then old(fat)[r.value := EOC28] else old(fat)
    {
      var c: nat, sec: nat := 3, 0;
      while c < max
        invariant c == 3 + sec * FAT_PER_SECTOR && fat == old(fat)
        invariant Searched(fat, max, c - 3) == Searched(fat, max, 0)
        decreases max - c
      {
        var s := 0;
        while s < FAT_PER_SECTOR
          invariant s <= FAT_PER_SECTOR && c == 3 + sec * FAT_PER_SECTOR + s && c <= max && fat == old(fat)
          invariant Searched(fat, max, c - 3) == Searched(fat, max, 0)
        {
          if fat[sec * FAT_PER_SECTOR + s] == 0 {
            fat := fat[c := EOC28];
            return Some(c);
          }
          c := c + 1;
          if c > max {
            return None;
          }
          s := s + 1;
        }
        sec := sec + 1;
      }
      return None;
    }

    /** `fat32_cluster_alloc`: nothing is returned where it panics. */
    method ClusterAlloc() returns (r: Option<nat>)
      requires Shape(Abs(), max)
      modifies this
      ensures match ClusterAlloced(old(Abs()), max)
              case None => r == None
              case Some((c, v)) => r == Some(c) && Abs() == v
    {
      if free == 0 {
        return None;
      }
      var num := nxt;
      free := free - 1;
      if lead[num] == 0 && num < max - 1 {
        fat := fat[num := EOC28];
        nxt := nxt + 1;
      } else {
        var next := FatAlloc();
        if next == None {
          return None;
        }
        nxt := next.value + 1;
      }
      lead := lead[num := 0];
      return Some(num);
    }

    /** A new cluster, linked behind `last`. */
    method Append(ip: Inode, last: nat) returns (c: nat)
      requires Shape(Abs(), max) && Frontier(Abs(), max) && Room(Abs(), max, 1) && last < |fat|
      modifies this, ip`cnt, ip`end
      ensures c == old(nxt) && Abs() == ExtendOne(old(Abs()), last)
      ensures ip.cnt == old(ip.cnt) + 1 && ip.end == c
    {
      AllocTakesNext(Abs(), max);
      var r := ClusterAlloc();
      c := r.value;
      fat := fat[last := c];
      ip.cnt := ip.cnt + 1;
      ip.end := c;
    }

    /** The loop of `fat32_inode_trunc`. */
    method CutChain(ip: Inode, ghost cs: seq<nat>)
      requires Chain(fat, max, ip.start, cs)
      modifies this`fat
      ensures fat == Cut(old(fat), cs)
      ensures forall c :: 0 <= c < |fat| ==> if c in cs then IsEof(fat[c]) else fat[c] == old(fat)[c]
    {
      var iter := ip.start;
      ghost var i := 0;
      while !IsEof(iter)
        invariant i <= |cs| && |fat| == |old(fat)|
        invariant if i < |cs| then iter == cs[i] else IsEof(iter)
        invariant forall c :: 0 <= c < |fat| ==> fat[c] == if c in cs[..i] then EOC28 else old(fat)[c]
        decreases |cs| - i
      {
        assert Link(old(fat), cs, i);
        assert cs[i] !in cs[..i] by {
          if cs[i] in cs[..i] {
            var j :| 0 <= j < i && cs[j] == cs[i];
            ChainAcyclic(old(fat), max, ip.start, cs, j, i);
          }
        }
        var next := fat[iter];
        fat := fat[iter := EOC28];
        assert cs[..i + 1] == cs[..i] + [iter];
        iter := next;
        i := i + 1;
      }
      assert cs[..|cs|] == cs;
    }

    /** The sectors of one cluster, from sector `s0`, offset `o0` on. */
    method VisitCluster(off: nat, n: nat, iter: nat, s0: nat, o0: nat, tot0: nat,
                        ghost cs: seq<nat>, ghost c: nat, ghost pieces0: seq<Piece>)
      returns (tot: nat, ghost pieces: seq<Piece>)
      requires Visit(g, cs, off, n, c, s0, o0, tot0, pieces0) && tot0 < n && s0 < g.perCluster && iter == cs[c]
      ensures tot0 < tot <= n && InCluster(g, off + tot - 1, c)
      ensures tot == n ==> Visited(g, cs, off, n, pieces)
      ensures tot < n ==> c + 1 < |cs| && Visit(g, cs, off, n, c + 1, 0, 0, tot, pieces)
    {
      var s: nat, o: nat := s0, o0;
      tot, pieces := tot0, pieces0;
      var first := g.FirstSector(iter);
      while s < g.perCluster && tot < n
        invariant Visit(g, cs, off, n, c, s, o, tot, pieces) && tot0 <= tot
        invariant tot == tot0 ==> s == s0 && o == o0
        invariant tot > tot0 ==> o == 0 && InCluster(g, off + tot - 1, c)
      {
        var m := Min(SECTOR - o, n - tot);
        VisitPiece(g, cs, off, n, c, s, o, tot, pieces, m);
        pieces := pieces + [Piece(first + s, o, m)];
        tot := tot + m;
        o := 0;
        s := s + 1;
      }
      if tot < n {
        VisitOn(g, cs, off, n, c, tot, pieces);
      }
    }

    /** How far a write has come: `j` clusters appended to chain `cs` of volume `v`, in the one at
        index `c` of the chain it will have, `ds`. */
    ghost predicate Progress(ip: Inode, v: Volume, cs: seq<nat>, k: nat, j: nat, c: nat)
      reads this, ip
    {
      && Shape(v, max) && Frontier(v, max) && Chain(v.fat, max, ip.start, cs) && Room(v, max, k) && j <= k
      && Abs() == Extend(v, max, cs, j)
      && ip.cnt == |cs| + j && ip.end == (cs + Next(v, j))[|cs| + j - 1]
      && |cs| + j == (if c < |cs| then |cs| else c + 1)
    }

    /** On to the next cluster, which is appended if the chain ends here. */
    method Advance(ip: Inode, iter: nat, ghost v: Volume, ghost cs: seq<nat>, ghost k: nat, ghost j: nat, ghost c: nat)
      returns (next: nat, ghost i: nat)
      requires Progress(ip, v, cs, k, j, c) && c + 1 < |cs| + k && iter == (cs + Next(v, k))[c]
      modifies this, ip`cnt, ip`end
      ensures Progress(ip, v, cs, k, i, c + 1) && next == (cs + Next(v, k))[c + 1]
    {
      ExtendKeeps(v, max, ip.start, cs, j);
      ghost var cur := cs + Next(v, j);
      assert Link(fat, cur, c);
      next, i := fat[iter], j;
      if IsEof(next) {
        ChainBelow(Abs(), max, ip.start, cur, c);
        next := Append(ip, iter);
        i := j + 1;
        ExtendKeeps(v, max, ip.start, cs, i);
      }
    }

    /** Bytes are left, the next one at sector `s`, offset `o` of the cluster at index `c`. */
    ghost predicate Going(off: nat, n: nat, ds: seq<nat>, c: nat, s: nat, o: nat, tot: nat, pieces: seq<Piece>) {
      tot < n && c < |ds| && s < g.perCluster && Visit(g, ds, off, n, c, s, o, tot, pieces)
    }

    /** All is visited, and the cluster at index `c` has the last byte. */
    ghost predicate Ended(off: nat, n: nat, ds: seq<nat>, c: nat, pieces: seq<Piece>) {
      n > 0 && Visited(g, ds, off, n, pieces) && InCluster(g, off + n - 1, c)
    }

    /** One cluster, and on to the next if bytes are left. */
    method WriteTurn(ip: Inode, off: nat, n: nat, iter0: nat, s: nat, o: nat, tot0: nat, ghost v: Volume, ghost cs: seq<nat>,
                     ghost k: nat, ghost ds: seq<nat>, ghost j0: nat, ghost c0: nat, ghost pieces0: seq<Piece>)
      returns (iter: nat, tot: nat, ghost pieces: seq<Piece>, ghost j: nat, ghost c: nat)
      requires Progress(ip, v, cs, k, j0, c0) && ds == cs + Next(v, k)
      requires Going(off, n, ds, c0, s, o, tot0, pieces0) && iter0 == ds[c0]
      modifies this, ip`cnt, ip`end
      ensures tot0 < tot <= n && Progress(ip, v, cs, k, j, c)
      ensures if tot == n then Ended(off, n, ds, c, pieces) else Going(off, n, ds, c, 0, 0, tot, pieces) && iter == ds[c]
    {
      iter, j, c := iter0, j0, c0;
      tot, pieces := VisitCluster(off, n, iter, s, o, tot0, ds, c, pieces0);
      if tot < n {
        iter, j := Advance(ip, iter, v, cs, k, j, c);
        c := c + 1;
      }
    }

    /** The walk over the clusters, appending as it goes; `ds` is the chain it will have. */
    method WriteChain(ip: Inode, off: nat, n: nat, iter0: nat, s0: nat, o0: nat,
                      ghost v: Volume, ghost cs: seq<nat>, ghost k: nat, ghost ds: seq<nat>, ghost j0: nat, ghost c0: nat)
      returns (tot: nat, ghost pieces: seq<Piece>, ghost j: nat, ghost c: nat)
      requires Progress(ip, v, cs, k, j0, c0) && ds == cs + Next(v, k) && c0 < |ds| && iter0 == ds[c0]
      requires if n == 0 then Covers(g, ds, off) else Going(off, n, ds, c0, s0, o0, 0, [])
      requires forall i :: 0 <= i < |ds| ==> !IsEof(ds[i])
      modifies this, ip`cnt, ip`end
      ensures Progress(ip, v, cs, k, j, c) && tot == n && Visited(g, ds, off, n, pieces)
      ensures if n == 0 then c == c0 else InCluster(g, off + n - 1, c)
    {
      var iter: nat, s: nat, o: nat := iter0, s0, o0;
      tot, pieces, j, c := 0, [], j0, c0;
      while !IsEof(iter) && tot < n
        invariant tot <= n && Progress(ip, v, cs, k, j, c)
        invariant tot < n ==> Going(off, n, ds, c, s, o, tot, pieces) && iter == ds[c]
        invariant tot == n > 0 ==> Ended(off, n, ds, c, pieces)
        invariant n == 0 ==> c == c0 && pieces == []
        decreases n - tot
      {
        iter, tot, pieces, j, c := WriteTurn(ip, off, n, iter, s, o, tot, v, cs, k, ds, j, c, pieces);
        s, o := 0, 0;
      }
    }

    /** To the cluster of byte `off`, which is appended if it is just past the chain. */
    method Seek(ip: Inode, c: nat, ghost cs: seq<nat>, ghost k: nat) returns (iter: nat, ghost j: nat)
      requires Shape(Abs(), max) && Frontier(Abs(), max) && FileOk(Abs(), g, max, FileOf(ip, cs)) && Room(Abs(), max, k)
      requires c <= |cs| && c < |cs| + k
      modifies this, ip`cnt, ip`end
      ensures Progress(ip, old(Abs()), cs, k, j, c) && iter == (cs + Next(old(Abs()), k))[c]
    {
      ghost var v := Abs();
      ghost var asked;
      iter, asked := ip.Travel(fat, max, c + 1, cs);
      j := 0;
      ExtendKeeps(v, max, ip.start, cs, 0);
      if c + 1 > ip.cnt {
        ChainBelow(v, max, ip.start, cs, |cs| - 1);
        iter := Append(ip, iter);
        j := 1;
        assert Extend(v, max, cs, 1) == ExtendOne(v, cs[|cs| - 1]);
      }
    }

    /** The part of `fat32_inode_write` after the checks: the chain and the counts. */
    method WriteAt(ip: Inode, off: nat, n: nat, ghost cs: seq<nat>, ghost k: nat, ghost ds: seq<nat>)
      returns (tot: nat, ghost pieces: seq<Piece>)
      requires g.perCluster > 0 && Shape(Abs(), max) && Frontier(Abs(), max) && FileOk(Abs(), g, max, FileOf(ip, cs))
      requires off <= ip.size && |cs| + k == Count(g, FileOf(ip, cs), off, n) && Room(Abs(), max, k)
      requires ds == cs + Next(Abs(), k)
      modifies this, ip`cnt, ip`end
      ensures tot == n && Covers(g, ds, off + n) && pieces == Pieces(g, ds, off, n)
      ensures old(Shape(Abs(), max)) && Abs() == Extend(old(Abs()), max, cs, k)
      ensures ip.cnt == |cs| + k && ip.end == ds[|ds| - 1]
    {
      ghost var v, f := Abs(), FileOf(ip, cs);
      var c, s, o := Split(g, off);
      Fits(g, v, max, f, off, n, c);
      var iter, j := Seek(ip, c, cs, k);
      VisitStart(g, ds, off, n, c, s, o);
      ghost var last;
      tot, pieces, j, last := WriteChain(ip, off, n, iter, s, o, v, cs, k, ds, j, c);
      AllAppended(g, f, off, n, last, j);
    }

    /** The new size. */
    method SetSize(ip: Inode, off: nat, tot: nat, ghost f: File)
      requires g.perCluster > 0 && f.size == ip.size && f.isDir == ip.isDir
      modifies ip`size
      ensures ip.size == SizeAfter(g, f, off, tot)
    {
      if off + tot > ip.size {
        if !ip.isDir {
          ip.size := off + tot;
        } else {
          var size := g.ClusterSize();
          ip.size := (off + tot + size - 1) / size * size;
        }
      }
    }

    /** `fat32_inode_write(off, n)`; `limit` is the number of bytes of the data region. */
    method Write(ip: Inode, off: nat, n: nat, limit: nat, ghost cs: seq<nat>) returns (r: Option<nat>, ghost pieces: seq<Piece>)
      requires off < UINT32 && n < UINT32 && g.perCluster > 0
      requires Shape(Abs(), max) && Frontier(Abs(), max) && FileOk(Abs(), g, max, FileOf(ip, cs))
      requires Rejected(FileOf(ip, cs), off, n, limit) || Room(Abs(), max, Count(g, FileOf(ip, cs), off, n) - ip.cnt)
      modifies this, ip
      ensures Rejected(old(FileOf(ip, cs)), off, n, limit) ==> r == None && Abs() == old(Abs()) && FileOf(ip, cs) == old(FileOf(ip, cs))
      ensures !Rejected(old(FileOf(ip, cs)), off, n, limit) ==>
                var k := Count(g, old(FileOf(ip, cs)), off, n) - |cs|;
                var ds := cs + Next(old(Abs()), k);
                && r == Some(n) && Covers(g, ds, off + n) && pieces == Pieces(g, ds, off, n)
                && Abs() == Extend(old(Abs()), max, cs, k)
                && FileOf(ip, ds) == Written(old(Abs()), g, old(FileOf(ip, cs)), off, n)
      ensures r == None <==> off > old(ip.size) || off + n >= UINT32 || off + n > limit
      ensures !Rejected(old(FileOf(ip, cs)), off, n, limit) ==> IsNewSize(g, old(FileOf(ip, cs)), off, n, ip.size)
    {
      pieces := [];
      if off > ip.size || (off + n) % UINT32 < off {
        return None, pieces;
      }
      if off + n > limit {
        return None, pieces;
      }
      ghost var f := FileOf(ip, cs);
      ghost var k := Count(g, f, off, n) - |cs|;
      var tot;
      tot, pieces := WriteAt(ip, off, n, cs, k, cs + Next(Abs(), k));
      SetSize(ip, off, tot, f);
      SizeIsNew(g, f, off, n);
      r := Some(tot);
    }
  }

  /** The inode's fields, with the chain they stand for. */
  ghost function FileOf(ip: Inode, cs: seq<nat>): File
    reads ip
  {
    File(ip.start, ip.end, ip.cnt, ip.size, ip.isDir, cs)
  }

  /** All pieces of the range, in order. */
  ghost predicate Visited(g: Geometry, cs: seq<nat>, off: nat, n: nat, pieces: seq<Piece>) {
    Covers(g, cs, off + n) && pieces == Pieces(g, cs, off, n)
  }

  /** The chain a write will have covers what it writes, and byte `off` is in it. */
  lemma Fits(g: Geometry, v: Volume, max: nat, f: File, off: nat, n: nat, c: nat)
    requires g.perCluster > 0 && Shape(v, max) && FileOk(v, g, max, f) && off <= f.size && InCluster(g, off, c)
    requires Room(v, max, Count(g, f, off, n) - f.cnt)
    ensures var k := Count(g, f, off, n) - f.cnt;
            var ds := f.cs + Next(v, k);
            && Covers(g, ds, off + n) && c <= f.cnt && c < f.cnt + k
            && (forall i :: 0 <= i < |ds| ==> !IsEof(ds[i]))
  {
    CountCovers(g, f, off, n);
    ClusterIndex(g, off, c);
    CountReaches(g, f, off, n);
  }

  /** Byte `off` is in the chain a write will have, or just past the one there is. */
  lemma CountReaches(g: Geometry, f: File, off: nat, n: nat)
    requires g.perCluster > 0 && off <= f.size <= f.cnt * g.ClusterSize()
    ensures off / g.ClusterSize() <= f.cnt && off / g.ClusterSize() < Count(g, f, off, n)
  {
    IndexAtMost(off, f.cnt, g.ClusterSize());
    if n > 0 {
      DivMono(off, off + n - 1, g.ClusterSize());
    }
  }

  /** A write that ended in cluster `c` has appended all it had to. */
  lemma AllAppended(g: Geometry, f: File, off: nat, n: nat, c: nat, j: nat)
    requires g.perCluster > 0 && InCluster(g, if n == 0 then off else off + n - 1, c)
    requires f.cnt + j == if c < f.cnt then f.cnt else c + 1
    ensures f.cnt + j == Count(g, f, off, n)
  {
    ClusterIndex(g, if n == 0 then off else off + n - 1, c);
  }

  lemma IndexAtMost(x: nat, n: nat, d: nat)
    requires d > 0 && x <= n * d
    ensures x / d <= n
  {
    var q := x / d;
    assert x == d * q + x % d;
    if q > n {
      Arith.MulMono(n + 1, q, d);
      Arith.MulStep(n, d);
    }
  }

  lemma DivMono(x: nat, y: nat, d: nat)
    requires d > 0 && x <= y
    ensures x / d <= y / d
  {
    var p, q := x / d, y / d;
    assert x == d * p + x % d && y == d * q + y % d;
    Arith.MulStep(q, d);
    if q < p {
      Arith.MulMono(q + 1, p, d);
    }
  }
}

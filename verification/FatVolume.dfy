/** Allocation, extension and truncation on a volume whose clusters from `nxt` on are untouched
    (their entry is free and their first byte zero), and what every run of these keeps. */
module FatVolume {
  import opened FatLayout
  import opened FatFile
  import Arith
  import opened Wrappers

  /** What EOC reads back as. */
  const EOC28: nat := 0x0FFF_FFFF

  /** The FAT, the first byte of each cluster, and the counters of the superblock. */
  datatype Volume = Volume(fat: seq<nat>, lead: seq<nat>, nxt: nat, free: nat)

  /** Files and directories: the inode fields, and for the record the chain. */
  datatype File = File(start: nat, end: nat, cnt: nat, size: nat, isDir: bool, cs: seq<nat>)

  ghost predicate Shape(v: Volume, max: nat) {
    |v.fat| == |v.lead| == max + 1 && max <= EOF_FROM && 2 <= v.nxt <= max
  }

  ghost predicate Frontier(v: Volume, max: nat)
    requires Shape(v, max)
  {
    forall c :: v.nxt <= c <= max ==> v.fat[c] == 0 && v.lead[c] == 0
  }

  // --------------------------------------------------------------- allocation

  /** `fat32_cluster_alloc` takes the next cluster: there is a free one, the next is untouched,
      and it is not the last or the last but one. Else it panics, or searches the FAT. */
  predicate TakesNext(v: Volume, max: nat) {
    v.free > 0 && v.nxt < |v.lead| && v.lead[v.nxt] == 0 && v.nxt < max - 1
  }

  function Alloc(v: Volume): Volume
    requires v.nxt < |v.fat| && v.nxt < |v.lead| && v.free > 0
  {
    v.(fat := v.fat[v.nxt := EOC28], lead := v.lead[v.nxt := 0], nxt := v.nxt + 1, free := v.free - 1)
  }

  const FAT_PER_SECTOR: nat := 128

  /** `fat32_fat_alloc` from entry `e` on: the number it gives the first free entry it comes to,
      which is three more than that of the entry, since it counts clusters from 3 while it reads
      the FAT from its first entry. It stops past cluster `max`, or at `max` before a new sector. */
  ghost function Searched(fat: seq<nat>, max: nat, e: nat): (c: Option<nat>)
    requires max < |fat|
    ensures c.Some? ==> e + 3 <= c.value <= max && fat[c.value - 3] == 0 && forall i :: e <= i < c.value - 3 ==> fat[i] != 0
    ensures c.None? ==> forall i :: e <= i < max - 3 ==> fat[i] != 0
    decreases max - e
  {
    if e + 3 > max || (e + 3 == max && e % FAT_PER_SECTOR == 0) then None
    else if fat[e] == 0 then Some(e + 3)
    else Searched(fat, max, e + 1)
  }

  /** What a call of `fat32_cluster_alloc` returns and leaves; nothing where it panics. */
  ghost function ClusterAlloced(v: Volume, max: nat): Option<(nat, Volume)>
    requires Shape(v, max)
  {
    if v.free == 0 then None
    else if TakesNext(v, max) then Some((v.nxt, Alloc(v)))
    else match Searched(v.fat, max, 0)
      case None => None
      case Some(c) =>
        Some((v.nxt, v.(fat := v.fat[c := EOC28], lead := v.lead[v.nxt := 0], nxt := c + 1, free := v.free - 1)))
  }

  /** The cluster that is returned was free, is marked, and nothing else is. */
  ghost predicate AllocIsRight(v: Volume, r: (nat, Volume)) {
    r.0 < |v.fat| && v.fat[r.0] == 0 && r.1.fat == v.fat[r.0 := EOC28]
  }

  /** An allocation is right if and only if the next cluster is free in the FAT, and is either
      taken at once or the one that the search comes to. */
  lemma AllocRightIff(v: Volume, max: nat)
    requires Shape(v, max) && ClusterAlloced(v, max).Some?
    ensures AllocIsRight(v, ClusterAlloced(v, max).value) <==>
      v.fat[v.nxt] == 0 && (TakesNext(v, max) || Searched(v.fat, max, 0) == Some(v.nxt))
  {
    if !TakesNext(v, max) {
      var c := Searched(v.fat, max, 0).value;
      var w := ClusterAlloced(v, max).value.1;
      assert w.fat[c] == EOC28;
      if c == v.nxt {
        assert w.fat == v.fat[v.nxt := EOC28];
      } else {
        assert w.fat[v.nxt] == v.fat[v.nxt];
        assert v.fat[v.nxt := EOC28][v.nxt] == EOC28;
      }
    }
  }

  /** Every allocation counts one cluster less, clears the first byte of the cluster it returns, and
      goes on behind the entry it marked; one that searches marks the entry three behind the first
      free one. */
  lemma AllocMeans(v: Volume, max: nat)
    requires Shape(v, max) && ClusterAlloced(v, max).Some?
    ensures var (c, w) := ClusterAlloced(v, max).value;
      && v.free > 0 && w.free == v.free - 1 && c == v.nxt && w.lead == v.lead[c := 0]
      && 3 <= w.nxt <= max + 1 && w.fat == v.fat[w.nxt - 1 := EOC28]
      && (w.nxt == v.nxt + 1 || (v.fat[w.nxt - 4] == 0 && forall e :: 0 <= e < w.nxt - 4 ==> v.fat[e] != 0))
  {
  }

  /** A full volume of nine clusters but for cluster 3, whose file of clusters 6 and 7 is cut: the
      search marks 6, and the call returns 9, which it has not marked. */
  lemma SearchCutsAChain(v: Volume)
    requires v.fat == [EOC28, EOC28, EOC28, 0, EOC28, EOC28, 7, EOC28, EOC28, 0, EOC28]
    requires v.lead == [0, 0, 1, 0, 1, 1, 1, 1, 1, 0, 1] && v.nxt == 9 && v.free == 2
    ensures Shape(v, 10) && Chain(v.fat, 10, 6, [6, 7])
    ensures ClusterAlloced(v, 10).Some?
    ensures var (c, w) := ClusterAlloced(v, 10).value; c == 9 && w.fat[9] == 0 && Chain(w.fat, 10, 6, [6])
  {
    assert Link(v.fat, [6, 7], 0) && Link(v.fat, [6, 7], 1);
    assert Searched(v.fat, 10, 3) == Some(6);
    assert Searched(v.fat, 10, 2) == Some(6);
    assert Searched(v.fat, 10, 1) == Some(6);
    assert Link(ClusterAlloced(v, 10).value.1.fat, [6], 0);
  }

  /** A new cluster at the end of chain `cs`. */
  function ExtendOne(v: Volume, last: nat): Volume
    requires v.nxt < |v.fat| && v.nxt < |v.lead| && v.free > 0 && last < |v.fat|
  {
    var w := Alloc(v);
    w.(fat := w.fat[last := v.nxt])
  }

  /** The clusters that `k` allocations will hand out. */
  function Next(v: Volume, k: nat): (ns: seq<nat>)
    ensures |ns| == k && forall i :: 0 <= i < k ==> ns[i] == v.nxt + i
  {
    seq(k, i => v.nxt + i)
  }

  /** There is room for `k` allocations. */
  ghost predicate Room(v: Volume, max: nat, k: nat) { v.free >= k && (k > 0 ==> v.nxt + k <= max - 1) }

  ghost function Extend(v: Volume, max: nat, cs: seq<nat>, k: nat): (w: Volume)
    requires Shape(v, max) && Room(v, max, k) && cs != [] && forall i :: 0 <= i < |cs| ==> cs[i] <= max
    ensures Shape(w, max) && w.nxt == v.nxt + k && w.free == v.free - k
  {
    if k == 0 then v else
      ExtendOne(Extend(v, max, cs, k - 1), if k == 1 then cs[|cs| - 1] else v.nxt + k - 2)
  }

  // ---------------------------------------------------------------- invariant

  ghost predicate FileOk(v: Volume, g: Geometry, max: nat, f: File) {
    && Chain(v.fat, max, f.start, f.cs)
    && f.cnt == |f.cs| && f.end == f.cs[|f.cs| - 1]
    && f.size <= f.cnt * g.ClusterSize()
  }

  ghost predicate Apart(f: File, e: File) { forall c :: c in f.cs ==> c !in e.cs }

  /** Live chains are disjoint chains, with counts that are right, and nothing beyond `nxt` has
      been touched. */
  ghost predicate Invariant(v: Volume, g: Geometry, max: nat, fs: map<nat, File>) {
    && Shape(v, max) && Frontier(v, max)
    && (forall i {:trigger fs[i]} :: i in fs ==> FileOk(v, g, max, fs[i]))
    && (forall i, j {:trigger Apart(fs[i], fs[j])} :: i in fs && j in fs && i != j ==> Apart(fs[i], fs[j]))
  }

  /** A cluster in a chain is below the frontier. */
  lemma ChainBelow(v: Volume, max: nat, start: nat, cs: seq<nat>, i: nat)
    requires Shape(v, max) && Frontier(v, max) && Chain(v.fat, max, start, cs) && i < |cs|
    ensures cs[i] < v.nxt
  {
    assert Link(v.fat, cs, i);
  }

  /** On such a volume every allocation takes the next cluster, as long as there is room. */
  lemma AllocTakesNext(v: Volume, max: nat)
    requires Shape(v, max) && Frontier(v, max)
    ensures TakesNext(v, max) <==> Room(v, max, 1)
  {
  }

  lemma AllocKeepsFrontier(v: Volume, max: nat)
    requires Shape(v, max) && Frontier(v, max) && Room(v, max, 1)
    ensures Shape(Alloc(v), max) && Frontier(Alloc(v), max)
  {
  }

  /** Setting entries of clusters outside a chain does not change it. */
  lemma ChainFrame(fat: seq<nat>, fat': seq<nat>, max: nat, start: nat, cs: seq<nat>)
    requires Chain(fat, max, start, cs) && |fat'| == |fat|
    requires forall c :: c in cs ==> fat'[c] == fat[c]
    ensures Chain(fat', max, start, cs)
  {
    forall i | 0 <= i < |cs| ensures Link(fat', cs, i) {
      assert Link(fat, cs, i) && cs[i] in cs;
    }
  }

  /** The chain after one more cluster. */
  lemma ExtendOneChain(v: Volume, max: nat, start: nat, cs: seq<nat>)
    requires Shape(v, max) && Frontier(v, max) && Chain(v.fat, max, start, cs) && Room(v, max, 1)
    ensures Chain(ExtendOne(v, cs[|cs| - 1]).fat, max, start, cs + [v.nxt])
  {
    var ds, n := cs + [v.nxt], |cs|;
    var fat := ExtendOne(v, cs[n - 1]).fat;
    forall i | 0 <= i < |ds| ensures Link(fat, ds, i) {
      if i < n {
        ChainBelow(v, max, start, cs, i);
        assert Link(v.fat, cs, i);
        if i < n - 1 {
          ChainAcyclic(v.fat, max, start, cs, i, n - 1);
        }
      } else {
        ChainBelow(v, max, start, cs, n - 1);
      }
    }
  }

  lemma ExtendOneFrontier(v: Volume, max: nat, last: nat)
    requires Shape(v, max) && Frontier(v, max) && Room(v, max, 1) && last < v.nxt
    ensures Shape(ExtendOne(v, last), max) && Frontier(ExtendOne(v, last), max)
    ensures forall c :: 0 <= c <= max && c != last && c != v.nxt ==> ExtendOne(v, last).fat[c] == v.fat[c]
  {
  }

  /** Only the last cluster of the chain and the clusters handed out got new entries. */
  ghost predicate Elsewhere(v: Volume, w: Volume, max: nat, last: nat)
    requires Shape(v, max) && Shape(w, max)
  {
    forall c :: 0 <= c < v.nxt && c != last ==> w.fat[c] == v.fat[c]
  }

  /** `k` allocations make the chain longer by the next `k` clusters, and keep the frontier. */
  lemma {:induction false} ExtendKeeps(v: Volume, max: nat, start: nat, cs: seq<nat>, k: nat)
    requires Shape(v, max) && Frontier(v, max) && Chain(v.fat, max, start, cs) && Room(v, max, k)
    ensures var w := Extend(v, max, cs, k);
            Frontier(w, max) && Chain(w.fat, max, start, cs + Next(v, k)) && Elsewhere(v, w, max, cs[|cs| - 1])
    decreases k
  {
    if k == 0 {
      assert cs + Next(v, 0) == cs;
    } else {
      ExtendKeeps(v, max, start, cs, k - 1);
      var w, ds := Extend(v, max, cs, k - 1), cs + Next(v, k - 1);
      assert cs + Next(v, k) == ds + [w.nxt];
      var last := if k == 1 then cs[|cs| - 1] else v.nxt + k - 2;
      assert ds[|ds| - 1] == last;
      ChainBelow(w, max, start, ds, |ds| - 1);
      ExtendOneChain(w, max, start, ds);
      ExtendOneFrontier(w, max, last);
    }
  }

  // -------------------------------------------------------------------- steps

  ghost predicate Rejected(f: File, off: nat, n: nat, limit: nat) {
    off > f.size || off + n >= UINT32 || off + n > limit
  }

  /** How many clusters the chain has after a write: enough for its last byte, or for byte `off`
      when there is nothing to write. */
  ghost function Count(g: Geometry, f: File, off: nat, n: nat): nat
    requires g.perCluster > 0
  {
    CountFor(g.ClusterSize(), f.cnt, off, n)
  }

  ghost function CountFor(d: nat, cnt: nat, off: nat, n: nat): nat
    requires d > 0
  {
    var need := (if n == 0 then off else off + n - 1) / d + 1;
    if need > cnt then need else cnt
  }

  ghost function SizeAfter(g: Geometry, f: File, off: nat, n: nat): nat
    requires g.perCluster > 0
  {
    if off + n <= f.size then f.size
    else if f.isDir then CeilTo(off + n, g.ClusterSize())
    else off + n
  }

  /** CEIL_DIVIDE(x, d) * d. */
  ghost function CeilTo(x: nat, d: nat): nat
    requires d > 0
  {
    (x + d - 1) / d * d
  }

  ghost function Written(v: Volume, g: Geometry, f: File, off: nat, n: nat): File
    requires g.perCluster > 0
  {
    var k := Count(g, f, off, n) - f.cnt;
    var cs := f.cs + Next(v, k);
    f.(cnt := f.cnt + k, end := if k == 0 then f.end else v.nxt + k - 1, size := SizeAfter(g, f, off, n), cs := cs)
  }

  /** The FAT after every cluster of `cs` was marked as an end. */
  ghost function Cut(fat: seq<nat>, cs: seq<nat>): seq<nat> {
    seq(|fat|, c requires 0 <= c < |fat| => if c in cs then EOC28 else fat[c])
  }

  datatype Event =
    | Create(id: nat, isDir: bool)
    | Write(id: nat, off: nat, n: nat)
    | Truncate(id: nat)
    | Data(c: nat, b: nat)

  datatype State = State(v: Volume, fs: map<nat, File>)

  /** One call of the file system; `limit` is the size of the data region. Data is written only
      into clusters that were handed out. */
  ghost predicate Step(s: State, e: Event, t: State, g: Geometry, max: nat, limit: nat) {
    var v := s.v;
    match e
    case Create(id, isDir) =>
      && id !in s.fs && Shape(v, max) && TakesNext(v, max) && g.perCluster > 0
      && t == State(Alloc(v), s.fs[id := File(v.nxt, v.nxt, 1, if isDir then g.ClusterSize() else 0, isDir, [v.nxt])])
    case Write(id, off, n) =>
      && id in s.fs && g.perCluster > 0 && Shape(v, max)
      && var f := s.fs[id];
         if Rejected(f, off, n, limit) then t == s
         else
           var k := Count(g, f, off, n) - f.cnt;
           && Room(v, max, k) && f.cs != [] && (forall i :: 0 <= i < |f.cs| ==> f.cs[i] <= max)
           && t == State(Extend(v, max, f.cs, k), s.fs[id := Written(v, g, f, off, n)])
    case Truncate(id) =>
      && id in s.fs && t == State(v.(fat := Cut(v.fat, s.fs[id].cs)), s.fs - {id})
    case Data(c, b) =>
      && c < v.nxt && c < |v.lead| && t == State(v.(lead := v.lead[c := b]), s.fs)
  }

  // --------------------------------------------------------- every step keeps

  lemma CreateKeeps(v: Volume, g: Geometry, max: nat, fs: map<nat, File>, id: nat, f: File)
    requires Invariant(v, g, max, fs) && id !in fs && TakesNext(v, max)
    requires f == File(v.nxt, v.nxt, 1, f.size, f.isDir, [v.nxt]) && f.size <= g.ClusterSize()
    ensures Invariant(Alloc(v), g, max, fs[id := f])
  {
    var w, gs := Alloc(v), fs[id := f];
    AllocKeepsFrontier(v, max);
    forall i | i in fs ensures FileOk(w, g, max, fs[i]) && v.nxt !in fs[i].cs {
      forall j | 0 <= j < |fs[i].cs| ensures fs[i].cs[j] < v.nxt {
        ChainBelow(v, max, fs[i].start, fs[i].cs, j);
      }
      ChainFrame(v.fat, w.fat, max, fs[i].start, fs[i].cs);
    }
    assert Link(w.fat, f.cs, 0);
    forall i, j | i in gs && j in gs && i != j ensures Apart(gs[i], gs[j]) {
      assert i != id && j != id ==> Apart(fs[i], fs[j]);
    }
  }

  /** The size that a write of `n` bytes at `off` has to leave: of a file the larger of the old
      size and the end of the write, of a directory the same in whole clusters, if it grows. */
  ghost predicate IsNewSize(g: Geometry, f: File, off: nat, n: nat, size: nat) {
    && g.perCluster > 0
    && (off + n <= f.size ==> size == f.size)
    && (off + n > f.size && !f.isDir ==> size == off + n)
    && (off + n > f.size && f.isDir ==> WholeClusters(g, size) && off + n <= size < off + n + g.ClusterSize())
  }

  ghost predicate WholeClusters(g: Geometry, size: nat) { exists q: nat :: size == q * g.ClusterSize() }

  lemma SizeIsNew(g: Geometry, f: File, off: nat, n: nat)
    requires g.perCluster > 0
    ensures IsNewSize(g, f, off, n, SizeAfter(g, f, off, n))
  {
    if off + n > f.size && f.isDir {
      CeilIsLeast(off + n, g.ClusterSize());
      assert SizeAfter(g, f, off, n) == ((off + n + g.ClusterSize() - 1) / g.ClusterSize()) * g.ClusterSize();
    }
  }

  lemma CeilIsLeast(x: nat, d: nat)
    requires d > 0
    ensures x <= CeilTo(x, d) < x + d
  {
    var y := x + d - 1;
    assert y == d * (y / d) + y % d;
  }

  lemma CountCovers(g: Geometry, f: File, off: nat, n: nat)
    requires g.perCluster > 0 && f.size <= f.cnt * g.ClusterSize() && off <= f.size
    ensures SizeAfter(g, f, off, n) <= Count(g, f, off, n) * g.ClusterSize()
    ensures off + n <= Count(g, f, off, n) * g.ClusterSize()
  {
    CountForCovers(g.ClusterSize(), f.cnt, f.size, off, n);
  }

  /** ... and with fewer clusters than that, if any are new, the last byte would be outside. */
  lemma CountIsLeast(g: Geometry, f: File, off: nat, n: nat)
    requires g.perCluster > 0
    ensures Count(g, f, off, n) >= f.cnt
    ensures Count(g, f, off, n) > f.cnt ==>
      (Count(g, f, off, n) - 1) * g.ClusterSize() <= if n == 0 then off else off + n - 1
  {
    var last, d := if n == 0 then off else off + n - 1, g.ClusterSize();
    Arith.DivTimes(last, d);
  }

  lemma CountForCovers(d: nat, cnt: nat, size: nat, off: nat, n: nat)
    requires d > 0 && size <= cnt * d
    ensures var count := CountFor(d, cnt, off, n);
            size <= count * d && off + n <= count * d && (n > 0 ==> CeilTo(off + n, d) <= count * d)
  {
    var count, last := CountFor(d, cnt, off, n), if n == 0 then off else off + n - 1;
    LastFits(last, d, count);
    Arith.MulMono(cnt, count, d);
    if n > 0 {
      RoundUp(off + n, last / d, d);
      Arith.MulMono(last / d + 1, count, d);
    }
  }

  lemma LastFits(x: nat, d: nat, count: nat)
    requires d > 0 && x / d + 1 <= count
    ensures x + 1 <= count * d
  {
    var q := x / d;
    assert x == d * q + x % d;
    Arith.MulStep(q, d);
    Arith.MulMono(q + 1, count, d);
  }

  /** Rounding up to a multiple of `d`. */
  lemma RoundUp(x: nat, q: nat, d: nat)
    requires d > 0 && x > 0 && q == (x - 1) / d
    ensures (x + d - 1) / d == q + 1
  {
    var r := (x - 1) % d;
    assert x - 1 == d * q + r;
    Arith.MulStep(q, d);
    Arith.DivModUnique(x + d - 1, d, q + 1, r);
  }

  lemma WriteApart(v: Volume, max: nat, f: File, e: File, k: nat, h: File)
    requires Shape(v, max) && Frontier(v, max) && Chain(v.fat, max, e.start, e.cs)
    requires Apart(f, e) && Apart(e, f) && h.cs == f.cs + Next(v, k)
    ensures Apart(h, e) && Apart(e, h)
  {
    forall j | 0 <= j < |e.cs| ensures e.cs[j] < v.nxt {
      ChainBelow(v, max, e.start, e.cs, j);
    }
  }

  lemma WriteKeeps(v: Volume, g: Geometry, max: nat, fs: map<nat, File>, id: nat, off: nat, n: nat)
    requires Invariant(v, g, max, fs) && id in fs && g.perCluster > 0 && off <= fs[id].size
    requires Room(v, max, Count(g, fs[id], off, n) - fs[id].cnt)
    ensures fs[id].cs != [] && forall i :: 0 <= i < |fs[id].cs| ==> fs[id].cs[i] <= max
    ensures Invariant(Extend(v, max, fs[id].cs, Count(g, fs[id], off, n) - fs[id].cnt), g, max, fs[id := Written(v, g, fs[id], off, n)])
  {
    var f, h := fs[id], Written(v, g, fs[id], off, n);
    var k := Count(g, f, off, n) - f.cnt;
    var w := Extend(v, max, f.cs, k);
    ExtendKeeps(v, max, f.start, f.cs, k);
    CountCovers(g, f, off, n);
    assert FileOk(w, g, max, h);
    var gs := fs[id := h];
    forall i | i in fs && i != id ensures FileOk(w, g, max, fs[i]) && Apart(h, fs[i]) && Apart(fs[i], h) {
      assert Apart(f, fs[i]) && Apart(fs[i], f);
      WriteApart(v, max, f, fs[i], k, h);
      forall j | 0 <= j < |fs[i].cs| ensures fs[i].cs[j] < v.nxt {
        ChainBelow(v, max, fs[i].start, fs[i].cs, j);
      }
      assert f.cs[|f.cs| - 1] in f.cs;
      ChainFrame(v.fat, w.fat, max, fs[i].start, fs[i].cs);
    }
    forall i, j | i in gs && j in gs && i != j ensures Apart(gs[i], gs[j]) {
      assert i != id && j != id ==> Apart(fs[i], fs[j]);
    }
  }

  /** A truncation makes every cluster of the chain the end of a chain, changes no other entry, and
      so gives no cluster back: what was not free before is not free afterwards. */
  lemma CutEnds(fat: seq<nat>, max: nat, start: nat, cs: seq<nat>, c: nat)
    requires Chain(fat, max, start, cs) && c < |fat|
    ensures |Cut(fat, cs)| == |fat|
    ensures if c in cs then IsEof(Cut(fat, cs)[c]) && Cut(fat, cs)[c] != 0 else Cut(fat, cs)[c] == fat[c]
    ensures Cut(fat, cs)[c] == 0 <==> fat[c] == 0
  {
    if c in cs {
      var i :| 0 <= i < |cs| && cs[i] == c;
      assert Link(fat, cs, i);
    }
  }

  lemma TruncateKeeps(v: Volume, g: Geometry, max: nat, fs: map<nat, File>, id: nat)
    requires Invariant(v, g, max, fs) && id in fs
    ensures Invariant(v.(fat := Cut(v.fat, fs[id].cs)), g, max, fs - {id})
  {
    var f, gs := fs[id], fs - {id};
    var w := v.(fat := Cut(v.fat, f.cs));
    forall c | v.nxt <= c <= max ensures c !in f.cs {
      if c in f.cs {
        var j :| 0 <= j < |f.cs| && f.cs[j] == c;
        ChainBelow(v, max, f.start, f.cs, j);
      }
    }
    forall i | i in gs ensures FileOk(w, g, max, gs[i]) {
      assert Apart(fs[i], f);
      ChainFrame(v.fat, w.fat, max, fs[i].start, fs[i].cs);
    }
    forall i, j | i in gs && j in gs && i != j ensures Apart(gs[i], gs[j]) {
      assert Apart(fs[i], fs[j]);
    }
  }

  lemma DataKeeps(v: Volume, g: Geometry, max: nat, fs: map<nat, File>, c: nat, b: nat)
    requires Invariant(v, g, max, fs) && c < v.nxt
    ensures Invariant(v.(lead := v.lead[c := b]), g, max, fs)
  {
    forall i | i in fs ensures FileOk(v.(lead := v.lead[c := b]), g, max, fs[i]) {
    }
  }

  /** Every step keeps the invariant, and lowers `free` by the clusters it hands out. */
  lemma StepKeeps(s: State, e: Event, t: State, g: Geometry, max: nat, limit: nat)
    requires Invariant(s.v, g, max, s.fs) && Step(s, e, t, g, max, limit)
    ensures Invariant(t.v, g, max, t.fs)
    ensures t.v.nxt >= s.v.nxt && t.v.free + t.v.nxt == s.v.free + s.v.nxt
  {
    match e
    case Create(id, isDir) =>
      CreateKeeps(s.v, g, max, s.fs, id, File(s.v.nxt, s.v.nxt, 1, if isDir then g.ClusterSize() else 0, isDir, [s.v.nxt]));
    case Write(id, off, n) =>
      if !Rejected(s.fs[id], off, n, limit) {
        WriteKeeps(s.v, g, max, s.fs, id, off, n);
      }
    case Truncate(id) => TruncateKeeps(s.v, g, max, s.fs, id);
    case Data(c, b) => DataKeeps(s.v, g, max, s.fs, c, b);
  }

  ghost predicate Run(ss: seq<State>, es: seq<Event>, g: Geometry, max: nat, limit: nat) {
    && |ss| == |es| + 1
    && (forall i :: 0 <= i < |es| ==> Step(ss[i], es[i], ss[i + 1], g, max, limit))
  }

  lemma {:induction false} EveryRunKeeps(ss: seq<State>, es: seq<Event>, g: Geometry, max: nat, limit: nat, i: nat)
    requires Run(ss, es, g, max, limit) && i < |ss| && Invariant(ss[0].v, g, max, ss[0].fs)
    ensures Invariant(ss[i].v, g, max, ss[i].fs)
    ensures ss[i].v.nxt >= ss[0].v.nxt && ss[i].v.free == ss[0].v.free - (ss[i].v.nxt - ss[0].v.nxt)
  {
    if i > 0 {
      EveryRunKeeps(ss, es, g, max, limit, i - 1);
      StepKeeps(ss[i - 1], es[i - 1], ss[i], g, max, limit);
    }
  }
}

/** The bucket allocator on the page allocator (mm/malloc.c over mm/page.c): every page the
    buckets hold is a block of its own in the page map, so the pages they are given are new to
    them, and the pages they give back are first pages of blocks. */
module HeapPages {
  import opened MallocModel
  import opened MallocInvariant
  import opened MallocRuns
  import P = PageMap

  /** The pool of pages lies in the address space, and page 0 is not in it. */
  ghost predicate PoolOk(start: nat, n: nat) {
    start % PAGE_SIZE == 0 && start != NULL && start + n * PAGE_SIZE <= ADDRESSES
  }

  ghost function PageAt(start: nat, i: nat): nat { start + i * PAGE_SIZE }

  /** Page `p` is page `i` of the map, and a block of its own. */
  ghost predicate OwnBlock(m: seq<P.Flags>, start: nat, p: nat, i: nat) {
    i < |m| && p == PageAt(start, i) && P.IsStart(m, i) && m[i].last
  }

  ghost predicate HasBlock(m: seq<P.Flags>, start: nat, p: nat) { exists i: nat :: OwnBlock(m, start, p, i) }

  /** Each of the pages `ps` is a block of its own. */
  ghost predicate Backed(ps: set<nat>, m: seq<P.Flags>, start: nat) {
    && P.MapOk(m) && PoolOk(start, |m|)
    && (forall p {:trigger HasBlock(m, start, p)} :: p in ps ==> HasBlock(m, start, p))
  }

  // ------------------------------------------------------------------ one page

  /** `page_alloc(1)` gave page `p`. */
  ghost predicate Took(m: seq<P.Flags>, start: nat, p: nat, m': seq<P.Flags>) {
    exists i: nat :: P.Fits(m, i, 1) && p == PageAt(start, i) && m' == P.Marked(m, i, 1)
  }

  /** `page_free(p)` on the first page of a block. */
  ghost predicate GaveBack(m: seq<P.Flags>, start: nat, p: nat, m': seq<P.Flags>) {
    exists i: nat, j: nat :: p == PageAt(start, i) && P.IsStart(m, i) && P.EndsAt(m, i, j) && m' == P.Cleared(m, i, j)
  }

  lemma PageIsPage(start: nat, n: nat, i: nat)
    requires PoolOk(start, n) && i < n
    ensures IsPage(PageAt(start, i))
  {
  }

  /** A block survives the allocation of another page. */
  lemma BlockStays(m: seq<P.Flags>, start: nat, p: nat, i: nat, n: nat, j: nat)
    requires P.MapOk(m) && n >= 1 && P.Fits(m, i, n) && OwnBlock(m, start, p, j)
    ensures OwnBlock(P.Marked(m, i, n), start, p, j)
  {
    assert P.PageOk(m, j);
    if j > 0 {
      assert P.PageOk(m, j - 1);
    }
  }

  /** The page that `page_alloc` gives is a page, new to the pages held, and held as a block. */
  lemma TookIsNew(ps: set<nat>, m: seq<P.Flags>, start: nat, p: nat, m': seq<P.Flags>)
    requires Backed(ps, m, start) && Took(m, start, p, m')
    ensures IsPage(p) && p !in ps && Backed(ps + {p}, m', start)
  {
    var i: nat :| P.Fits(m, i, 1) && p == PageAt(start, i) && m' == P.Marked(m, i, 1);
    PageIsPage(start, |m|, i);
    P.MarkedKeeps(m, i, 1);
    assert !HasBlock(m, start, p);
    forall q | q in ps + {p} ensures HasBlock(m', start, q) {
      if q == p {
        assert OwnBlock(m', start, q, i);
      } else {
        assert HasBlock(m, start, q);
        var j: nat :| OwnBlock(m, start, q, j);
        BlockStays(m, start, q, i, 1, j);
      }
    }
  }

  /** A page held may be given back: it is the first page of a block, and the others stay held. */
  lemma HeldGoesBack(ps: set<nat>, m: seq<P.Flags>, start: nat, p: nat) returns (m': seq<P.Flags>)
    requires Backed(ps, m, start) && p in ps
    ensures GaveBack(m, start, p, m') && Backed(ps - {p}, m', start)
  {
    assert HasBlock(m, start, p);
    var i: nat :| OwnBlock(m, start, p, i);
    m' := P.Cleared(m, i, i);
    assert P.EndsAt(m, i, i);
    GoneKeeps(ps, m, start, p, m');
  }

  lemma GoneKeeps(ps: set<nat>, m: seq<P.Flags>, start: nat, p: nat, m': seq<P.Flags>)
    requires Backed(ps, m, start) && p in ps && GaveBack(m, start, p, m')
    ensures Backed(ps - {p}, m', start)
  {
    var i: nat, j: nat :| p == PageAt(start, i) && P.IsStart(m, i) && P.EndsAt(m, i, j) && m' == P.Cleared(m, i, j);
    P.ClearedKeeps(m, i, j);
    forall q | q in ps - {p} ensures HasBlock(m', start, q) {
      assert HasBlock(m, start, q);
      var k: nat :| OwnBlock(m, start, q, k);
      P.OtherBlocksSurvive(m, i, j, k, k);
      assert OwnBlock(m', start, q, k);
    }
  }

  /** Two pages taken one after the other are what `_malloc_` needs. */
  lemma TookTwoFresh(h: Heap, m: seq<P.Flags>, start: nat, p1: nat, m1: seq<P.Flags>, p2: nat, m2: seq<P.Flags>)
    requires Backed(h.use.Keys, m, start) && Took(m, start, p1, m1) && Took(m1, start, p2, m2)
    ensures Fresh(h, p1, p2) && Backed(h.use.Keys + {p1} + {p2}, m2, start)
  {
    TookIsNew(h.use.Keys, m, start, p1, m1);
    TookIsNew(h.use.Keys + {p1}, m1, start, p2, m2);
  }

  // ------------------------------------------------------------------ the calls

  /** The pages that a `_malloc_` for bucket `o` asks for: a page for objects if no descriptor
      has one free, and before it a page for descriptors if there is none spare. */
  ghost predicate NeedsObjects(h: Heap, o: nat)
    requires Structure(h) && o < BUCKETS
  {
    Position(h, o) == |h.chain[o]|
  }

  ghost predicate NeedsDescs(h: Heap, o: nat)
    requires Structure(h) && o < BUCKETS
  {
    NeedsObjects(h, o) && h.freeDesc == NULL
  }

  /** Those pages, taken from map `m`. */
  ghost predicate Taken(h: Heap, o: nat, m: seq<P.Flags>, start: nat, p1: nat, p2: nat, m': seq<P.Flags>)
    requires Structure(h) && o < BUCKETS
  {
    if NeedsDescs(h, o) then exists m1 :: Took(m, start, p1, m1) && Took(m1, start, p2, m')
    else if NeedsObjects(h, o) then Took(m, start, p2, m')
    else m' == m
  }

  ghost function Asked(h: Heap, o: nat, p1: nat, p2: nat): set<nat>
    requires Structure(h) && o < BUCKETS
  {
    if NeedsDescs(h, o) then {p1} + {p2} else if NeedsObjects(h, o) then {p2} else {}
  }

  lemma MallocHolds(h: Heap, o: nat, p1: nat, p2: nat)
    requires Structure(h) && o < BUCKETS && Fresh(h, p1, p2)
    ensures Malloc(h, o, p1, p2).use.Keys == h.use.Keys + Asked(h, o, p1, p2)
  {
    PreparedHolds(h, o, p1, p2);
    assert Malloc(h, o, p1, p2).use == Prepared(h, o, p1, p2).use;
  }

  lemma PreparedHolds(h: Heap, o: nat, p1: nat, p2: nat)
    requires Structure(h) && o < BUCKETS && Fresh(h, p1, p2)
    ensures Prepared(h, o, p1, p2).use.Keys == h.use.Keys + Asked(h, o, p1, p2)
  {
    assert ChainOk(h, o);
    if NeedsDescs(h, o) {
      InitKeeps(h, p1);
      PushHolds(InitDescs(h, p1), o, p2);
    } else if NeedsObjects(h, o) {
      PushHolds(h, o, p2);
    }
  }

  lemma PushHolds(h: Heap, o: nat, page: nat)
    requires o < BUCKETS && |h.list| == |h.chain| == BUCKETS && h.spare != [] && h.freeDesc in h.desc
    ensures PushDesc(h, o, page).use.Keys == h.use.Keys + {page}
  {
  }

  lemma TakenBacked(h: Heap, o: nat, m: seq<P.Flags>, start: nat, p1: nat, p2: nat, m': seq<P.Flags>)
    requires Structure(h) && o < BUCKETS && Backed(h.use.Keys, m, start) && Taken(h, o, m, start, p1, p2, m')
    ensures Backed(h.use.Keys + Asked(h, o, p1, p2), m', start)
    ensures forall p :: p in Asked(h, o, p1, p2) ==> IsPage(p) && p !in h.use
    ensures NeedsDescs(h, o) ==> Fresh(h, p1, p2)
  {
    if NeedsDescs(h, o) {
      var m1 :| Took(m, start, p1, m1) && Took(m1, start, p2, m');
      TookTwoFresh(h, m, start, p1, m1, p2, m');
      assert h.use.Keys + ({p1} + {p2}) == h.use.Keys + {p1} + {p2};
    } else if NeedsObjects(h, o) {
      TookIsNew(h.use.Keys, m, start, p2, m');
    } else {
      assert h.use.Keys + {} == h.use.Keys;
    }
  }

  /** The page that a `_free_` gives up, if it was that of the descriptor's last object. */
  lemma FreeHolds(h: Heap, a: nat, o: nat, j: nat)
    requires Structure(h) && o < BUCKETS && j < |h.chain[o]|
    requires Active(h, h.chain[o][j]) && a in h.lives[h.chain[o][j]]
    ensures var d := h.chain[o][j];
            && d in h.desc && h.desc[d].block in h.use
            && Free(h, a, o, j).use.Keys == if h.lives[d] == {a} then h.use.Keys - {h.desc[d].block} else h.use.Keys
  {
    var d := h.chain[o][j];
    assert DescOk(h, d);
    ReturnKeeps(h, d, a);
    LastObject(h, a, d);
    assert ChainOk(Return(h, d, a), o);
  }

  // -------------------------------------------------------------------- runs

  /** What happens next: a call of the bucket allocator, or another user of the page allocator
      takes a block, or frees one that is its own. */
  datatype Event = Heap(e: MallocRuns.Event) | OtherTakes(i: nat, n: nat) | OtherFrees(i: nat, j: nat)

  /** The pages move as the bucket allocator asks. */
  ghost predicate PagesMove(h: Heap, m: seq<P.Flags>, start: nat, e: MallocRuns.Event, m': seq<P.Flags>)
    requires Structure(h)
  {
    match e
    case Allocate(length, p1, p2) => Bucket(length, 0) < BUCKETS ==> Taken(h, Bucket(length, 0), m, start, p1, p2, m')
    case Release(a, size, o, j) =>
      Releasable(h, a, size, o, j) ==>
        var d := h.chain[o][j];
        if h.lives[d] == {a} then GaveBack(m, start, h.desc[d].block, m') else m' == m
    case Store(_, _, _, _) => m' == m
  }

  ghost predicate Step(h: Heap, m: seq<P.Flags>, start: nat, e: Event, k: Heap, m': seq<P.Flags>) {
    match e
    case Heap(c) => MallocRuns.Step(h, c, k) && (Structure(h) ==> PagesMove(h, m, start, c, m'))
    case OtherTakes(i, n) => k == h && n >= 1 && P.Fits(m, i, n) && m' == P.Marked(m, i, n)
    case OtherFrees(i, j) =>
      k == h && P.IsStart(m, i) && P.EndsAt(m, i, j) && PageAt(start, i) !in h.use && m' == P.Cleared(m, i, j)
  }

  lemma OtherTakesKeeps(ps: set<nat>, m: seq<P.Flags>, start: nat, i: nat, n: nat)
    requires Backed(ps, m, start) && n >= 1 && P.Fits(m, i, n)
    ensures Backed(ps, P.Marked(m, i, n), start)
  {
    P.MarkedKeeps(m, i, n);
    forall q | q in ps ensures HasBlock(P.Marked(m, i, n), start, q) {
      assert HasBlock(m, start, q);
      var j: nat :| OwnBlock(m, start, q, j);
      BlockStays(m, start, q, i, n, j);
    }
  }

  lemma OtherFreesKeeps(ps: set<nat>, m: seq<P.Flags>, start: nat, i: nat, j: nat)
    requires Backed(ps, m, start) && P.IsStart(m, i) && P.EndsAt(m, i, j) && PageAt(start, i) !in ps
    ensures Backed(ps, P.Cleared(m, i, j), start)
  {
    P.ClearedKeeps(m, i, j);
    forall q | q in ps ensures HasBlock(P.Cleared(m, i, j), start, q) {
      assert HasBlock(m, start, q);
      var k: nat :| OwnBlock(m, start, q, k);
      P.OtherBlocksSurvive(m, i, j, k, k);
      assert OwnBlock(P.Cleared(m, i, j), start, q, k);
    }
  }

  lemma AllocateKeeps(h: Heap, m: seq<P.Flags>, start: nat, o: nat, p1: nat, p2: nat, m': seq<P.Flags>)
    requires Structure(h) && o < BUCKETS && Fresh(h, p1, p2) && Backed(h.use.Keys, m, start) && Taken(h, o, m, start, p1, p2, m')
    ensures Backed(Malloc(h, o, p1, p2).use.Keys, m', start)
  {
    MallocHolds(h, o, p1, p2);
    TakenBacked(h, o, m, start, p1, p2, m');
  }

  lemma ReleaseKeeps(h: Heap, m: seq<P.Flags>, start: nat, a: nat, size: nat, o: nat, j: nat, m': seq<P.Flags>)
    requires Structure(h) && Releasable(h, a, size, o, j) && Backed(h.use.Keys, m, start)
    requires PagesMove(h, m, start, Release(a, size, o, j), m')
    ensures Backed(Free(h, a, o, j).use.Keys, m', start)
  {
    FreeHolds(h, a, o, j);
    var d := h.chain[o][j];
    if h.lives[d] == {a} {
      GoneKeeps(h.use.Keys, m, start, h.desc[d].block, m');
    }
  }

  lemma StepKeeps(h: Heap, m: seq<P.Flags>, start: nat, e: Event, k: Heap, m': seq<P.Flags>)
    requires Invariant(h) && Backed(h.use.Keys, m, start) && Step(h, m, start, e, k, m')
    ensures Invariant(k) && Backed(k.use.Keys, m', start)
  {
    match e
    case Heap(c) =>
      MallocRuns.StepKeeps(h, c, k);
      match c {
        case Allocate(length, p1, p2) => AllocateKeeps(h, m, start, Bucket(length, 0), p1, p2, m');
        case Release(a, size, o, j) => ReleaseKeeps(h, m, start, a, size, o, j, m');
        case Store(_, _, _, _) =>
      }
    case OtherTakes(i, n) => OtherTakesKeeps(h.use.Keys, m, start, i, n);
    case OtherFrees(i, j) => OtherFreesKeeps(h.use.Keys, m, start, i, j);
  }

  ghost predicate Run(hs: seq<Heap>, ms: seq<seq<P.Flags>>, start: nat, es: seq<Event>) {
    && |hs| == |ms| == |es| + 1 && hs[0] == EMPTY
    && PoolOk(start, |ms[0]|) && (forall i :: 0 <= i < |ms[0]| ==> ms[0][i] == P.CLEAR)
    && (forall i {:trigger es[i]} :: 0 <= i < |es| ==> Step(hs[i], ms[i], start, es[i], hs[i + 1], ms[i + 1]))
  }

  /** In every run of both allocators, beside any other use of pages, every page of the buckets is
      a block of its own, so that what they free is a block's first page; and the pages a call is
      given are new to the buckets (TakenBacked). */
  lemma {:induction false} EveryRunBacked(hs: seq<Heap>, ms: seq<seq<P.Flags>>, start: nat, es: seq<Event>, i: nat)
    requires Run(hs, ms, start, es) && i < |hs|
    ensures Invariant(hs[i]) && Backed(hs[i].use.Keys, ms[i], start)
  {
    if i == 0 {
      EmptyOk();
      assert forall j: nat :: j < |ms[0]| ==> P.PageOk(ms[0], j);
    } else {
      EveryRunBacked(hs, ms, start, es, i - 1);
      StepKeeps(hs[i - 1], ms[i - 1], start, es[i - 1], hs[i], ms[i]);
    }
  }
}

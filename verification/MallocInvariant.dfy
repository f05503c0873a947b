/** What every call of the bucket allocator keeps, over every run of allocations, frees and
    writes by the owners of objects. */
module MallocInvariant {
  import opened MallocModel
  import Arith

  // --------------------------------------------------------------- addresses

  ghost predicate Multiple(size: nat, x: nat)
    requires size > 0
    decreases x
  {
    x == 0 || (x >= size && Multiple(size, x - size))
  }

  /** `a` is one of the objects of size `size` in page `page`. */
  ghost predicate InPage(page: nat, size: nat, a: nat)
    requires size > 0
  {
    page <= a && a + size <= page + PAGE_SIZE && Multiple(size, a - page)
  }

  lemma {:induction false} MultiplesApart(size: nat, x: nat, y: nat)
    requires size > 0 && Multiple(size, x) && Multiple(size, y) && x < y
    ensures x + size <= y
  {
    if x > 0 {
      MultiplesApart(size, x - size, y - size);
    }
  }

  lemma {:induction false} TimesIsMultiple(size: nat, k: nat)
    requires size > 0
    ensures Multiple(size, k * size)
  {
    if k > 0 {
      TimesIsMultiple(size, k - 1);
      assert k * size == (k - 1) * size + size;
    }
  }

  /** Masking any address inside a page gives the page. */
  lemma PageOfObject(page: nat, a: nat)
    requires IsPage(page) && page <= a < page + PAGE_SIZE
    ensures PageOf(a) == page
  {
  }

  lemma SamePage(p: nat, q: nat, a: nat)
    requires IsPage(p) && IsPage(q) && p <= a < p + PAGE_SIZE && q <= a < q + PAGE_SIZE
    ensures p == q
  {
    PageOfObject(p, a);
    PageOfObject(q, a);
  }

  /** Two objects of one page do not overlap. */
  lemma OneApart(page: nat, size: nat, a: nat, b: nat)
    requires size > 0 && InPage(page, size, a) && InPage(page, size, b) && a < b
    ensures a + size <= b
  {
    MultiplesApart(size, a - page, b - page);
  }

  lemma ObjectInPage(page: nat, o: nat, k: nat)
    requires o < BUCKETS && k < Capacity(o)
    ensures InPage(page, BucketSize(o), page + k * BucketSize(o))
  {
    var s := BucketSize(o);
    TimesIsMultiple(s, k);
    PageIsCut(o);
    Arith.RoomForOneMore(k, Capacity(o), s);
  }

  // ---------------------------------------------------------------- invariant

  ghost predicate Active(h: Heap, r: Ref) { r in h.role && !h.role[r].Spare? }

  ghost function BucketOf(e: Role): nat
    requires !e.Spare?
  {
    e.o
  }

  ghost predicate Shape(h: Heap) {
    && |h.list| == |h.chain| == BUCKETS
    && h.role.Keys == h.desc.Keys
    && (forall r {:trigger Active(h, r)} :: r in h.frees <==> Active(h, r))
    && (forall r {:trigger Active(h, r)} :: r in h.lives <==> Active(h, r))
    && (forall r {:trigger BucketOf(h.role[r])} :: Active(h, r) ==> BucketOf(h.role[r]) < BUCKETS)
  }

  /** The descriptors `ns`, in one list from `head` and each in it once, all with role `e`. */
  ghost predicate ListOk(h: Heap, head: Ref, ns: seq<Ref>, e: Role) {
    && Linked(h.desc, head, ns)
    && NoDup(ns)
    && (forall j :: 0 <= j < |ns| ==> ns[j] in h.role && h.role[ns[j]] == e)
  }

  ghost predicate ChainOk(h: Heap, o: nat)
    requires o < |h.list| && o < |h.chain|
  {
    ListOk(h, h.list[o], h.chain[o], InBucket(o))
  }

  /** A descriptor is in the list its role says. */
  ghost predicate Placed(h: Heap, r: Ref)
    requires r in h.role
  {
    match h.role[r]
    case InBucket(o) => o < |h.chain| && r in h.chain[o]
    case Spare => r in h.spare
    case Lost(_) => true
  }

  /** A descriptor in use: its page is cut into objects that are either threaded on its free
      list, once each, or handed out, and `blocnt` counts the latter. */
  ghost predicate ObjectsOk(d: Desc, cell: map<nat, nat>, fs: seq<nat>, ls: set<nat>) {
    && IsPage(d.block) && d.size > 0
    && Threaded(cell, d.freeptr, fs) && NoDup(fs)
    && (forall a :: a in fs ==> InPage(d.block, d.size, a) && a !in ls)
    && (forall a :: a in ls ==> InPage(d.block, d.size, a))
    && |ls| == d.blocnt
  }

  ghost predicate DescOk(h: Heap, r: Ref)
    requires Shape(h) && Active(h, r)
  {
    && ObjectsOk(h.desc[r], h.cell, h.frees[r], h.lives[r])
    && h.desc[r].size == BucketSize(BucketOf(h.role[r]))
    && |h.frees[r]| + h.desc[r].blocnt == Capacity(BucketOf(h.role[r]))
    && h.desc[r].block in h.use && h.use[h.desc[r].block] == ObjectPage(r)
  }

  ghost predicate HomeOk(use: map<nat, PageUse>, r: Ref, p: nat) {
    r != NULL && p in use && use[p] == DescPage && p <= r < p + PAGE_SIZE
  }

  /** Each page is used for one thing: descriptors, or the objects of one descriptor. */
  ghost predicate PagesOk(h: Heap)
  {
    && (forall p :: p in h.use ==> IsPage(p))
    && (forall p {:trigger h.use[p]} :: p in h.use && h.use[p].ObjectPage? ==>
          Active(h, h.use[p].d) && h.use[p].d in h.desc && h.desc[h.use[p].d].block == p)
    && h.home.Keys == h.desc.Keys
    && (forall r {:trigger h.home[r]} :: r in h.desc ==> HomeOk(h.use, r, h.home[r]))
  }

  ghost predicate Chains(h: Heap) {
    && Shape(h)
    && (forall o :: 0 <= o < BUCKETS ==> ChainOk(h, o))
    && ListOk(h, h.freeDesc, h.spare, Spare)
    && (forall r {:trigger Placed(h, r)} :: r in h.role ==> Placed(h, r))
  }

  ghost predicate Structure(h: Heap) {
    && Chains(h)
    && (forall r {:trigger DescOk(h, r)} :: Active(h, r) ==> DescOk(h, r))
    && PagesOk(h)
  }

  /** Between calls: also, no page is kept without a live object in it. */
  ghost predicate Invariant(h: Heap) {
    && Structure(h)
    && (forall r :: Active(h, r) ==> r in h.desc && h.desc[r].blocnt > 0)
  }

  // ------------------------------------------------------- one page's objects

  /** Handing out the first free object. */
  lemma TakeObjects(d: Desc, cell: map<nat, nat>, fs: seq<nat>, ls: set<nat>)
    requires ObjectsOk(d, cell, fs, ls) && d.freeptr != NULL
    ensures fs != [] && fs[0] == d.freeptr && d.freeptr in cell && d.freeptr !in ls
    ensures ObjectsOk(d.(freeptr := cell[d.freeptr], blocnt := d.blocnt + 1), cell, fs[1..], ls + {d.freeptr})
  {
    var gs := fs[1..];
    assert fs[0] in fs && Thread(cell, fs, 0);
    assert forall j :: 0 <= j < |gs| ==> gs[j] == fs[j + 1];
    forall j | 0 <= j < |gs| ensures Thread(cell, gs, j) && gs[j] != d.freeptr {
      assert Thread(cell, fs, j + 1) && Distinct(fs, 0, j + 1);
    }
    forall i, j | 0 <= i < j < |gs| ensures Distinct(gs, i, j) {
      assert Distinct(fs, i + 1, j + 1);
    }
  }

  /** Threading a handed out object back. */
  lemma ReturnObjects(d: Desc, cell: map<nat, nat>, fs: seq<nat>, ls: set<nat>, a: nat)
    requires ObjectsOk(d, cell, fs, ls) && a in ls && IsPage(d.block)
    ensures d.blocnt > 0
    ensures ObjectsOk(d.(freeptr := a, blocnt := d.blocnt - 1), cell[a := d.freeptr], [a] + fs, ls - {a})
  {
    assert ls == (ls - {a}) + {a};
    var gs, cell' := [a] + fs, cell[a := d.freeptr];
    assert forall j :: 0 < j < |gs| ==> gs[j] == fs[j - 1] && gs[j] in fs;
    forall j | 0 < j < |gs| ensures Thread(cell', gs, j) {
      assert Thread(cell, fs, j - 1);
    }
    assert Thread(cell', gs, 0);
    forall i, j | 0 <= i < j < |gs| ensures Distinct(gs, i, j) {
      assert i > 0 ==> Distinct(fs, i - 1, j - 1);
    }
  }

  lemma ObjectsFrame(d: Desc, next: Ref, c1: map<nat, nat>, c2: map<nat, nat>, fs: seq<nat>, ls: set<nat>)
    requires ObjectsOk(d, c1, fs, ls)
    requires forall a :: a in fs ==> a in c2 && (a in c1 ==> c2[a] == c1[a])
    ensures ObjectsOk(d.(next := next), c2, fs, ls)
  {
    forall j | 0 <= j < |fs| ensures fs[j] in c2 && Thread(c2, fs, j) {
      assert Thread(c1, fs, j) && fs[j] in fs;
    }
  }

  /** Objects of different pages are apart. */
  lemma PagesApart(d: Desc, e: Desc, a: nat, b: nat)
    requires IsPage(d.block) && IsPage(e.block) && d.block != e.block && d.size > 0 && e.size > 0
    requires InPage(d.block, d.size, a) && InPage(e.block, e.size, b) && a <= b
    ensures a + d.size <= b
  {
    if b < a + d.size {
      SamePage(d.block, e.block, b);
    }
  }

  lemma LinkedFrame(d1: map<Ref, Desc>, d2: map<Ref, Desc>, head: Ref, ns: seq<Ref>)
    requires Linked(d1, head, ns)
    requires forall r :: r in d1 ==> r in d2 && d2[r].next == d1[r].next
    ensures Linked(d2, head, ns)
  {
    forall j | 0 <= j < |ns| ensures Link(d2, ns, j) {
      assert Link(d1, ns, j);
    }
  }

  // ------------------------------------------------------------ what it means

  /** Live objects, of any size, never overlap. */
  lemma LiveObjectsDisjoint(h: Heap, r: Ref, a: nat, s: Ref, b: nat)
    requires Structure(h) && Active(h, r) && Active(h, s)
    requires a in h.lives[r] && b in h.lives[s] && a <= b && (a != b || r != s)
    ensures a + h.desc[r].size <= b
  {
    assert DescOk(h, r) && DescOk(h, s);
    if r == s {
      OneApart(h.desc[r].block, h.desc[r].size, a, b);
    } else {
      PagesApart(h.desc[r], h.desc[s], a, b);
    }
  }

  /** Masking a live object's address leads back to the one descriptor that owns it. */
  lemma MaskFindsOwner(h: Heap, r: Ref, a: nat, s: Ref)
    requires Structure(h) && Active(h, r) && a in h.lives[r] && Active(h, s)
    ensures h.desc[s].block == PageOf(a) <==> s == r
  {
    assert DescOk(h, r) && DescOk(h, s);
    var page := h.desc[r].block;
    assert page <= a < page + PAGE_SIZE;
    PageOfObject(page, a);
  }

  // --------------------------------------------------------- take and return

  /** No list changed. */
  ghost predicate SameLists(h: Heap, k: Heap) {
    && k.list == h.list && k.chain == h.chain && k.freeDesc == h.freeDesc && k.spare == h.spare
    && k.role == h.role && k.desc.Keys == h.desc.Keys
    && k.frees.Keys == h.frees.Keys && k.lives.Keys == h.lives.Keys
    && (forall r :: r in h.desc ==> k.desc[r].next == h.desc[r].next)
  }

  lemma ChainsFrame(h: Heap, k: Heap)
    requires Chains(h) && SameLists(h, k)
    ensures Chains(k)
  {
    assert forall r :: Active(k, r) <==> Active(h, r);
    forall o | 0 <= o < BUCKETS ensures ChainOk(k, o) {
      assert ChainOk(h, o);
      LinkedFrame(h.desc, k.desc, h.list[o], h.chain[o]);
    }
    LinkedFrame(h.desc, k.desc, h.freeDesc, h.spare);
    forall r | r in k.role ensures Placed(k, r) {
      assert Placed(h, r);
    }
  }

  lemma PagesFrame(h: Heap, k: Heap)
    requires Structure(h) && SameLists(h, k) && k.use == h.use && k.home == h.home
    requires forall r :: r in h.desc ==> k.desc[r].block == h.desc[r].block
    ensures PagesOk(k)
  {
    assert forall r :: Active(k, r) <==> Active(h, r);
    assert forall r :: r in h.desc ==> HomeOk(k.use, r, h.home[r]);
  }

  /** Nothing about descriptor `r` changed but its link. */
  ghost predicate SameDesc(h: Heap, k: Heap, r: Ref)
    requires Shape(h) && Active(h, r) && Shape(k) && Active(k, r)
  {
    && k.desc[r] == h.desc[r].(next := k.desc[r].next)
    && k.frees[r] == h.frees[r] && k.lives[r] == h.lives[r]
    && BucketOf(k.role[r]) == BucketOf(h.role[r])
    && (forall a :: a in h.frees[r] ==> a in k.cell && (a in h.cell ==> k.cell[a] == h.cell[a]))
    && h.desc[r].block in k.use && k.use[h.desc[r].block] == ObjectPage(r)
  }

  lemma DescFrame(h: Heap, k: Heap, r: Ref)
    requires Shape(h) && Active(h, r) && Shape(k) && Active(k, r) && DescOk(h, r) && SameDesc(h, k, r)
    ensures DescOk(k, r)
  {
    ObjectsFrame(h.desc[r], k.desc[r].next, h.cell, k.cell, h.frees[r], h.lives[r]);
  }

  /** Only descriptor `d` and its objects changed. */
  ghost predicate OnlyAt(h: Heap, k: Heap, d: Ref)
    requires Shape(h) && Shape(k)
  {
    && SameLists(h, k) && k.use == h.use && k.home == h.home
    && (forall r :: r in h.desc ==> k.desc[r].block == h.desc[r].block && k.desc[r].size == h.desc[r].size)
    && (forall r {:trigger SameDesc(h, k, r)} :: Active(k, r) && Active(h, r) && r != d ==> SameDesc(h, k, r))
  }

  lemma OneDescKeeps(h: Heap, k: Heap, d: Ref)
    requires Structure(h) && Shape(k) && Active(h, d) && Active(k, d) && OnlyAt(h, k, d)
    requires ObjectsOk(k.desc[d], k.cell, k.frees[d], k.lives[d])
    requires |k.frees[d]| + k.desc[d].blocnt == |h.frees[d]| + h.desc[d].blocnt
    ensures Structure(k)
  {
    ChainsFrame(h, k);
    PagesFrame(h, k);
    forall r | Active(k, r) ensures DescOk(k, r) {
      assert Active(h, r) && DescOk(h, r);
      if r != d {
        assert SameDesc(h, k, r);
        DescFrame(h, k, r);
      }
    }
  }

  /** The free objects of a descriptor have words. */
  lemma FreesHaveCells(h: Heap, r: Ref)
    requires Shape(h) && Active(h, r) && DescOk(h, r)
    ensures forall a :: a in h.frees[r] ==> a in h.cell
  {
  }

  lemma TakeSame(h: Heap, k: Heap, d: Ref, r: Ref)
    requires Shape(h) && Active(h, d) && h.desc[d].freeptr in h.cell && h.frees[d] != []
    requires k == Take(h, d) && Shape(k) && Active(k, r) && Active(h, r) && r != d && DescOk(h, r)
    ensures SameDesc(h, k, r)
  {
    FreesHaveCells(h, r);
  }

  lemma TakeOnlyAt(h: Heap, k: Heap, d: Ref)
    requires Structure(h) && Active(h, d) && h.desc[d].freeptr in h.cell && h.frees[d] != []
    requires k == Take(h, d)
    ensures Shape(k) && Active(k, d) && OnlyAt(h, k, d)
  {
    assert forall r :: Active(k, r) <==> Active(h, r);
    forall r | Active(k, r) && r != d ensures SameDesc(h, k, r) {
      assert DescOk(h, r);
      TakeSame(h, k, d, r);
    }
  }

  lemma TakeKeeps(h: Heap, d: Ref)
    requires Structure(h) && Active(h, d) && h.desc[d].freeptr != NULL
    ensures h.desc[d].freeptr in h.cell && h.frees[d] != []
    ensures Structure(Take(h, d))
  {
    assert DescOk(h, d);
    TakeObjects(h.desc[d], h.cell, h.frees[d], h.lives[d]);
    var k := Take(h, d);
    TakeOnlyAt(h, k, d);
    OneDescKeeps(h, k, d);
  }

  lemma TakeLives(h: Heap, d: Ref)
    requires Structure(h) && Active(h, d) && h.desc[d].freeptr != NULL
    ensures h.desc[d].freeptr in h.cell && h.frees[d] != []
    ensures h.desc[d].freeptr !in h.lives[d] && h.desc[d].size == BucketSize(BucketOf(h.role[d]))
  {
    assert DescOk(h, d);
    TakeObjects(h.desc[d], h.cell, h.frees[d], h.lives[d]);
  }

  lemma OtherPage(h: Heap, r: Ref, s: Ref, a: nat)
    requires Structure(h) && Active(h, r) && Active(h, s) && r != s && a in h.lives[r]
    ensures a !in h.frees[s]
  {
    assert DescOk(h, r) && DescOk(h, s);
    if a in h.frees[s] {
      PagesApart(h.desc[r], h.desc[s], a, a);
    }
  }

  lemma ReturnSame(h: Heap, k: Heap, d: Ref, a: nat, r: Ref)
    requires Shape(h) && Active(h, d) && h.desc[d].blocnt > 0
    requires k == Return(h, d, a) && Shape(k) && Active(k, r) && Active(h, r) && r != d && DescOk(h, r)
    requires a !in h.frees[r]
    ensures SameDesc(h, k, r)
  {
    FreesHaveCells(h, r);
  }

  lemma ReturnOnlyAt(h: Heap, k: Heap, d: Ref, a: nat)
    requires Structure(h) && Active(h, d) && a in h.lives[d] && h.desc[d].blocnt > 0
    requires k == Return(h, d, a)
    ensures Shape(k) && Active(k, d) && OnlyAt(h, k, d)
  {
    assert forall r :: Active(k, r) <==> Active(h, r);
    forall r | Active(k, r) && r != d ensures SameDesc(h, k, r) {
      assert DescOk(h, r);
      OtherPage(h, d, r, a);
      ReturnSame(h, k, d, a, r);
    }
  }

  lemma ReturnKeeps(h: Heap, d: Ref, a: nat)
    requires Structure(h) && Active(h, d) && a in h.lives[d]
    ensures h.desc[d].blocnt > 0
    ensures Structure(Return(h, d, a))
  {
    assert DescOk(h, d);
    ReturnObjects(h.desc[d], h.cell, h.frees[d], h.lives[d], a);
    var k := Return(h, d, a);
    ReturnOnlyAt(h, k, d, a);
    OneDescKeeps(h, k, d);
  }

  // ---------------------------------------------------- more spare descriptors

  lemma SlotsAreNew(h: Heap, page: nat)
    requires PagesOk(h) && IsPage(page) && page !in h.use
    ensures forall r :: r in DescSlots(page) ==> r !in h.desc
  {
    forall r | r in DescSlots(page) ensures r !in h.desc {
      if r in h.desc {
        SamePage(page, h.home[r], r);
      }
    }
  }

  lemma InitSpare(h: Heap, k: Heap, page: nat)
    requires Chains(h) && h.freeDesc == NULL && IsPage(page) && k == InitDescs(h, page)
    ensures ListOk(k, k.freeDesc, k.spare, Spare) && k.spare == DescSlots(page)
  {
    var slots := DescSlots(page);
    assert h.spare == [];
    assert k.spare == slots;
    assert forall j :: 0 <= j < |slots| ==> slots[j] in slots;
    forall j | 0 <= j < |slots| ensures Link(k.desc, slots, j) {
    }
    forall i, j | 0 <= i < j < |slots| ensures Distinct(slots, i, j) {
    }
  }

  lemma InitChains(h: Heap, k: Heap, page: nat)
    requires Chains(h) && h.freeDesc == NULL && IsPage(page) && k == InitDescs(h, page)
    requires forall r :: r in DescSlots(page) ==> r !in h.desc
    ensures Chains(k)
  {
    InitSpare(h, k, page);
    assert forall r :: Active(k, r) <==> Active(h, r);
    forall o | 0 <= o < BUCKETS ensures ChainOk(k, o) {
      assert ChainOk(h, o);
      LinkedFrame(h.desc, k.desc, h.list[o], h.chain[o]);
    }
    forall r | r in k.role ensures Placed(k, r) {
      assert r in h.role ==> Placed(h, r);
    }
  }

  lemma InitPages(h: Heap, k: Heap, page: nat)
    requires Structure(h) && IsPage(page) && page !in h.use && k == InitDescs(h, page)
    requires forall r :: r in DescSlots(page) ==> r !in h.desc
    ensures PagesOk(k)
  {
    assert forall r :: Active(k, r) <==> Active(h, r);
    forall r | r in k.desc ensures r in k.home && HomeOk(k.use, r, k.home[r]) {
      assert r in h.desc ==> HomeOk(h.use, r, h.home[r]);
    }
  }

  lemma InitDesc(h: Heap, k: Heap, page: nat, r: Ref)
    requires Structure(h) && page !in h.use && k == InitDescs(h, page) && Shape(k) && Active(k, r)
    requires forall r :: r in DescSlots(page) ==> r !in h.desc
    ensures DescOk(k, r)
  {
    assert DescOk(h, r);
    assert forall a :: a in h.frees[r] ==> a in h.cell;
    DescFrame(h, k, r);
  }

  lemma InitKeeps(h: Heap, page: nat)
    requires Structure(h) && h.freeDesc == NULL && IsPage(page) && page !in h.use
    ensures Structure(InitDescs(h, page)) && InitDescs(h, page).spare != []
  {
    SlotsAreNew(h, page);
    var k := InitDescs(h, page);
    InitSpare(h, k, page);
    InitChains(h, k, page);
    InitPages(h, k, page);
    forall r | Active(k, r) ensures DescOk(k, r) {
      InitDesc(h, k, page, r);
    }
  }

  // ----------------------------------------------------- a new page of objects

  /** `xs` are objects of a page, from its start, each `size` after the one before. */
  ghost predicate InOrder(page: nat, size: nat, xs: seq<nat>)
    requires size > 0
  {
    && xs != [] && xs[0] == page && NoDup(xs)
    && (forall j :: 0 <= j < |xs| ==> InPage(page, size, xs[j]))
    && (forall j {:trigger After(xs, j)} :: 0 <= j < |xs| - 1 ==> After(xs, j) == xs[j] + size)
  }

  lemma ObjectsInOrder(page: nat, o: nat)
    requires o < BUCKETS
    ensures InOrder(page, BucketSize(o), Objects(page, BucketSize(o), Capacity(o)))
  {
    var size := BucketSize(o);
    var xs := Objects(page, size, Capacity(o));
    forall j | 0 <= j < |xs| ensures InPage(page, size, xs[j]) {
      ObjectInPage(page, o, j);
    }
    forall i, j | 0 <= i < j < |xs| ensures Distinct(xs, i, j) {
      Arith.RoomForOneMore(i, j, size);
    }
    forall j | 0 <= j < |xs| - 1 ensures After(xs, j) == xs[j] + size {
      assert (j + 1) * size == j * size + size;
    }
    assert xs[0] == page + 0 * size;
  }

  /** A page freshly cut up: every object is free. */
  lemma PushObjects(page: nat, size: nat, xs: seq<nat>, next: Ref, cell: map<nat, nat>)
    requires IsPage(page) && size > 0 && InOrder(page, size, xs)
    ensures ObjectsOk(Desc(page, next, page, 0, size), ThreadPage(cell, xs, size), xs, {})
  {
    var cell' := ThreadPage(cell, xs, size);
    assert forall j :: 0 <= j < |xs| ==> xs[j] in xs;
    forall j | 0 <= j < |xs| ensures Thread(cell', xs, j) {
      assert j < |xs| - 1 ==> Distinct(xs, j, |xs| - 1) && After(xs, j) == xs[j] + size;
    }
  }

  lemma PushChain(h: Heap, k: Heap, o: nat, page: nat)
    requires Chains(h) && o < BUCKETS && h.spare != [] && k == PushDesc(h, o, page)
    ensures ChainOk(k, o)
  {
    assert ChainOk(h, o);
    var ns, d := h.chain[o], h.freeDesc;
    var ms := [d] + ns;
    assert forall j :: 0 < j < |ms| ==> ms[j] == ns[j - 1];
    forall j | 0 <= j < |ms| ensures Link(k.desc, ms, j) {
      assert j > 0 ==> Link(h.desc, ns, j - 1);
    }
    forall i, j | 0 <= i < j < |ms| ensures Distinct(ms, i, j) {
      assert i > 0 ==> Distinct(ns, i - 1, j - 1);
    }
  }

  lemma PushSpare(h: Heap, k: Heap, o: nat, page: nat)
    requires Chains(h) && o < BUCKETS && h.spare != [] && k == PushDesc(h, o, page)
    ensures ListOk(k, k.freeDesc, k.spare, Spare)
  {
    var ns, d := h.spare, h.freeDesc;
    var ms := ns[1..];
    assert Link(h.desc, ns, 0);
    assert forall j :: 0 <= j < |ms| ==> ms[j] == ns[j + 1];
    forall j | 0 <= j < |ms| ensures Link(k.desc, ms, j) && ms[j] != d {
      assert Link(h.desc, ns, j + 1) && Distinct(ns, 0, j + 1);
    }
    forall i, j | 0 <= i < j < |ms| ensures Distinct(ms, i, j) {
      assert Distinct(ns, i + 1, j + 1);
    }
  }

  lemma PushPlaces(h: Heap, k: Heap, o: nat, page: nat, r: Ref)
    requires Chains(h) && o < BUCKETS && h.spare != [] && k == PushDesc(h, o, page) && r in k.role
    ensures Placed(k, r)
  {
    if r == h.freeDesc {
      assert k.chain[o][0] == r;
    } else {
      assert Placed(h, r);
      if r in h.spare {
        assert h.spare == [h.freeDesc] + k.spare;
      }
    }
  }

  lemma PushChains(h: Heap, k: Heap, o: nat, page: nat)
    requires Chains(h) && o < BUCKETS && h.spare != [] && k == PushDesc(h, o, page)
    ensures Chains(k)
  {
    PushChain(h, k, o, page);
    PushSpare(h, k, o, page);
    assert forall r :: Active(k, r) <==> Active(h, r) || r == h.freeDesc;
    forall r | r in k.role ensures Placed(k, r) {
      PushPlaces(h, k, o, page, r);
    }
    forall i | 0 <= i < BUCKETS ensures ChainOk(k, i) {
      assert ChainOk(h, i);
      if i != o {
        forall j | 0 <= j < |h.chain[i]| ensures Link(k.desc, h.chain[i], j) {
          assert Link(h.desc, h.chain[i], j);
        }
      }
    }
  }

  lemma PushPages(h: Heap, k: Heap, o: nat, page: nat)
    requires Structure(h) && o < BUCKETS && h.spare != [] && IsPage(page) && page !in h.use
    requires k == PushDesc(h, o, page)
    ensures PagesOk(k)
  {
    var d := h.freeDesc;
    assert forall r :: Active(k, r) <==> Active(h, r) || r == d;
    assert d == h.spare[0];
    forall p | p in k.use && k.use[p].ObjectPage?
      ensures Active(k, k.use[p].d) && k.use[p].d in k.desc && k.desc[k.use[p].d].block == p {
      assert p != page ==> k.use[p] == h.use[p] && k.use[p].d != d;
    }
  }

  lemma NewPageApart(h: Heap, page: nat, size: nat, xs: seq<nat>, r: Ref)
    requires Shape(h) && Active(h, r) && DescOk(h, r) && IsPage(page) && page !in h.use
    requires size > 0 && InOrder(page, size, xs)
    ensures forall a :: a in h.frees[r] ==> a !in xs
  {
    forall a | a in h.frees[r] ensures a !in xs {
      if a in xs {
        SamePage(page, h.desc[r].block, a);
      }
    }
  }

  lemma PushDescOk(h: Heap, k: Heap, o: nat, page: nat, r: Ref)
    requires Structure(h) && o < BUCKETS && h.spare != [] && IsPage(page) && page !in h.use
    requires k == PushDesc(h, o, page) && Shape(k) && Active(k, r)
    ensures DescOk(k, r)
  {
    var d, size := h.freeDesc, BucketSize(o);
    var xs := Objects(page, size, Capacity(o));
    ObjectsInOrder(page, o);
    if r == d {
      PushObjects(page, size, xs, h.list[o], h.cell);
    } else {
      assert DescOk(h, r);
      FreesHaveCells(h, r);
      NewPageApart(h, page, size, xs, r);
      DescFrame(h, k, r);
    }
  }

  lemma PushKeeps(h: Heap, o: nat, page: nat)
    requires Structure(h) && o < BUCKETS && h.spare != [] && IsPage(page) && page !in h.use
    ensures Structure(PushDesc(h, o, page))
  {
    var k := PushDesc(h, o, page);
    PushChains(h, k, o, page);
    PushPages(h, k, o, page);
    forall r | Active(k, r) ensures DescOk(k, r) {
      PushDescOk(h, k, o, page, r);
    }
  }

  // --------------------------------------------------------- an emptied page

  /** Where the entries of an unlinked list were before. */
  ghost function Was(j: nat, i: nat): nat {
    if j == 0 then i + 1 else if i == 0 then 0 else i + j
  }

  lemma UnlinkedAt(ns: seq<Ref>, j: nat)
    requires j < |ns| && NoDup(ns)
    ensures var ms := Unlinked(ns, j);
            && |ms| == (if j == 0 then |ns| - 1 else |ns| - j)
            && (forall i :: 0 <= i < |ms| ==> Was(j, i) < |ns| && ms[i] == ns[Was(j, i)])
            && NoDup(ms)
            && (forall i :: 0 <= i < |ms| ==> ms[i] != ns[j] && (ms[i] in ns[..j] ==> i == 0))
  {
    var ms := Unlinked(ns, j);
    forall i | 0 <= i < |ms| ensures Was(j, i) < |ns| && ms[i] == ns[Was(j, i)] {
    }
    forall p, q | 0 <= p < q < |ms| ensures Distinct(ms, p, q) {
      assert Distinct(ns, Was(j, p), Was(j, q));
    }
    forall i | 0 <= i < |ms| ensures ms[i] != ns[j] {
      assert if j > 0 && i == 0 then Distinct(ns, 0, j) else Distinct(ns, j, Was(j, i));
    }
    forall i | 0 <= i < |ms| && ms[i] in ns[..j] ensures i == 0 {
      var q :| 0 <= q < j && ns[..j][q] == ms[i];
      assert i > 0 ==> Distinct(ns, q, Was(j, i));
    }
  }

  /** After the unlinking the list runs on from the head past position `j`. */
  lemma UnlinkedLinked(desc: map<Ref, Desc>, d2: map<Ref, Desc>, head: Ref, ns: seq<Ref>, j: nat)
    requires Linked(desc, head, ns) && NoDup(ns) && j < |ns|
    requires forall r :: r in desc ==> r in d2
    requires forall r :: r in desc && r != ns[0] && r != ns[j] ==> d2[r].next == desc[r].next
    requires j > 0 ==> d2[head].next == desc[ns[j]].next
    ensures Linked(d2, if j == 0 then desc[ns[0]].next else head, Unlinked(ns, j))
  {
    UnlinkedAt(ns, j);
    var ms := Unlinked(ns, j);
    assert Link(desc, ns, j);
    forall i | 0 <= i < |ms| ensures Link(d2, ms, i) {
      if i > 0 || j == 0 {
        assert Link(desc, ns, Was(j, i)) && Distinct(ns, 0, Was(j, i));
      }
    }
  }

  /** `k` is `h` after the emptied descriptor at position `j` of bucket `o` was dropped. */
  ghost predicate Dropped(h: Heap, k: Heap, o: nat, j: nat) {
    && Chains(h) && o < BUCKETS && ChainOk(h, o) && j < |h.chain[o]|
    && k == Drop(h, o, j)
  }

  lemma DropChain(h: Heap, k: Heap, o: nat, j: nat)
    requires Dropped(h, k, o, j)
    ensures ChainOk(k, o)
  {
    var ns := h.chain[o];
    assert j > 0 ==> Distinct(ns, 0, j);
    UnlinkedAt(ns, j);
    UnlinkedLinked(h.desc, k.desc, h.list[o], ns, j);
  }

  lemma SkippedRole(h: Heap, o: nat, j: nat, r: Ref)
    requires o < |h.list| && o < |h.chain| && ChainOk(h, o) && j <= |h.chain[o]| && r in h.chain[o][..j]
    ensures r in h.role && h.role[r] == InBucket(o)
  {
    var p :| 0 <= p < j && h.chain[o][p] == r;
  }

  lemma DropSpare(h: Heap, k: Heap, o: nat, j: nat)
    requires Dropped(h, k, o, j)
    ensures ListOk(k, k.freeDesc, k.spare, Spare)
  {
    var ns, d := h.spare, h.chain[o][j];
    var ms := [d] + ns;
    assert forall i :: 0 < i < |ms| ==> ms[i] == ns[i - 1];
    forall i | 0 <= i < |ms| ensures Link(k.desc, ms, i) {
      assert i > 0 ==> Link(h.desc, ns, i - 1);
    }
    forall p, q | 0 <= p < q < |ms| ensures Distinct(ms, p, q) {
      assert p > 0 ==> Distinct(ns, p - 1, q - 1);
    }
    forall i | 0 <= i < |ms| ensures ms[i] in k.role && k.role[ms[i]] == Spare {
      if ms[i] in h.chain[o][..j] {
        SkippedRole(h, o, j, ms[i]);
      }
    }
  }

  lemma DropPlaces(h: Heap, k: Heap, o: nat, j: nat, r: Ref)
    requires Dropped(h, k, o, j) && r in k.role
    ensures Placed(k, r)
  {
    assert Placed(h, r);
    var ns := h.chain[o];
    if r == ns[j] {
      assert k.spare[0] == r;
    } else if h.role[r] == InBucket(o) && k.role[r] == InBucket(o) {
      var i :| 0 <= i < |ns| && ns[i] == r;
      if i < j {
        assert ns[..j][i] == r;
        assert k.chain[o][0] == ns[0];
      } else {
        assert k.chain[o][if j == 0 then i - 1 else i - j] == r;
      }
    }
  }

  lemma DropOtherChain(h: Heap, k: Heap, o: nat, j: nat, i: nat)
    requires Dropped(h, k, o, j) && i < BUCKETS && i != o
    ensures ChainOk(k, i)
  {
    assert ChainOk(h, i);
    var ns := h.chain[o];
    forall q | 0 <= q < |h.chain[i]| ensures k.role[h.chain[i][q]] == InBucket(i) && Link(k.desc, h.chain[i], q) {
      assert Link(h.desc, h.chain[i], q);
      var r := h.chain[i][q];
      if r in ns[..j] {
        SkippedRole(h, o, j, r);
      }
    }
  }

  lemma DropShape(h: Heap, k: Heap, o: nat, j: nat)
    requires Dropped(h, k, o, j)
    ensures Shape(k) && forall r :: Active(k, r) <==> Active(h, r) && r != h.chain[o][j]
  {
    var ns := h.chain[o];
    assert ns[j] in h.role;
    forall r | r in ns[..j] ensures r in h.role && h.role[r] == InBucket(o) {
      SkippedRole(h, o, j, r);
    }
    assert forall r :: Active(k, r) <==> Active(h, r) && r != ns[j];
  }

  lemma DropChains(h: Heap, k: Heap, o: nat, j: nat)
    requires Dropped(h, k, o, j)
    ensures Chains(k)
  {
    DropShape(h, k, o, j);
    DropSpare(h, k, o, j);
    forall r | r in k.role ensures Placed(k, r) {
      DropPlaces(h, k, o, j, r);
    }
    DropChain(h, k, o, j);
    forall i | 0 <= i < BUCKETS ensures ChainOk(k, i) {
      if i != o {
        DropOtherChain(h, k, o, j, i);
      }
    }
  }

  /** A descriptor other than the dropped one may change role, but not bucket. */
  lemma DropBucket(h: Heap, k: Heap, o: nat, j: nat, r: Ref)
    requires Dropped(h, k, o, j) && Active(h, r) && r != h.chain[o][j]
    ensures r in k.role && !k.role[r].Spare? && BucketOf(k.role[r]) == BucketOf(h.role[r])
  {
    if r in h.chain[o][..j] {
      SkippedRole(h, o, j, r);
    }
  }

  lemma DropDesc(h: Heap, k: Heap, o: nat, j: nat, r: Ref)
    requires Dropped(h, k, o, j) && Shape(k) && Active(k, r) && Active(h, r)
    requires r != h.chain[o][j] && BucketOf(k.role[r]) == BucketOf(h.role[r])
    requires DescOk(h, r) && h.chain[o][j] in h.desc && h.desc[h.chain[o][j]].block != h.desc[r].block
    ensures DescOk(k, r)
  {
    assert forall a :: a in h.frees[r] ==> a in h.cell;
    DescFrame(h, k, r);
  }

  lemma DropUse(h: Heap, k: Heap, o: nat, j: nat, p: nat)
    requires Dropped(h, k, o, j) && PagesOk(h) && p in k.use && k.use[p].ObjectPage?
    requires forall r :: Active(k, r) <==> Active(h, r) && r != h.chain[o][j]
    ensures Active(k, k.use[p].d) && k.use[p].d in k.desc && k.desc[k.use[p].d].block == p
  {
    assert k.use[p] == h.use[p];
  }

  lemma DropHome(h: Heap, k: Heap, o: nat, j: nat, r: Ref)
    requires Dropped(h, k, o, j) && PagesOk(h) && Shape(h) && r in h.desc
    requires Active(h, h.chain[o][j]) && DescOk(h, h.chain[o][j])
    ensures r in k.home && HomeOk(k.use, r, k.home[r])
  {
    assert HomeOk(h.use, r, h.home[r]);
  }

  lemma DropPages(h: Heap, k: Heap, o: nat, j: nat)
    requires Dropped(h, k, o, j) && PagesOk(h) && Shape(k)
    requires forall r :: Active(k, r) <==> Active(h, r) && r != h.chain[o][j]
    requires Active(h, h.chain[o][j]) && DescOk(h, h.chain[o][j])
    ensures PagesOk(k)
  {
    forall p | p in k.use && k.use[p].ObjectPage?
      ensures Active(k, k.use[p].d) && k.use[p].d in k.desc && k.desc[k.use[p].d].block == p {
      DropUse(h, k, o, j, p);
    }
    assert k.desc.Keys == h.desc.Keys;
    forall r | r in k.desc ensures r in k.home && HomeOk(k.use, r, k.home[r]) {
      DropHome(h, k, o, j, r);
    }
  }

  lemma DropKeeps(h: Heap, o: nat, j: nat)
    requires Structure(h) && o < BUCKETS && j < |h.chain[o]| && ChainOk(h, o)
    ensures Structure(Drop(h, o, j))
  {
    var k := Drop(h, o, j);
    DropShape(h, k, o, j);
    assert Active(h, h.chain[o][j]) && DescOk(h, h.chain[o][j]);
    DropPages(h, k, o, j);
    forall r | Active(k, r) ensures DescOk(k, r) {
      DropBucket(h, k, o, j, r);
      assert DescOk(h, r) && DescOk(h, h.chain[o][j]);
      DropDesc(h, k, o, j, r);
    }
    DropChains(h, k, o, j);
  }
}

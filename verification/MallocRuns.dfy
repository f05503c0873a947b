/** Whole calls of the bucket allocator, and runs of them. */
module MallocRuns {
  import opened MallocModel
  import opened MallocInvariant

  // ------------------------------------------------------------------- malloc

  /** Two pages the page allocator may hand out next. */
  ghost predicate Fresh(h: Heap, p1: nat, p2: nat) {
    IsPage(p1) && p1 !in h.use && IsPage(p2) && p2 !in h.use && p1 != p2
  }

  /** The position of the descriptor that `_malloc_` takes an object from, or the length of the
      list if none has a free one. */
  ghost function Position(h: Heap, o: nat): (j: nat)
    requires Structure(h) && o < BUCKETS
  {
    assert ChainOk(h, o);
    WithFree(h.desc, h.chain[o], 0)
  }

  /** The heap once bucket `o` has a free object, and the descriptor that has it. */
  ghost function Prepared(h: Heap, o: nat, p1: nat, p2: nat): (k: Heap)
    requires Structure(h) && o < BUCKETS && Fresh(h, p1, p2)
  {
    if Position(h, o) < |h.chain[o]| then h
    else if h.freeDesc == NULL then
      InitKeeps(h, p1);
      PushDesc(InitDescs(h, p1), o, p2)
    else PushDesc(h, o, p2)
  }

  ghost function Chosen(h: Heap, o: nat, p1: nat, p2: nat): (d: Ref)
    requires Structure(h) && o < BUCKETS && Fresh(h, p1, p2)
  {
    if Position(h, o) < |h.chain[o]| then h.chain[o][Position(h, o)] else Prepared(h, o, p1, p2).list[o]
  }

  lemma PreparedKeeps(h: Heap, o: nat, p1: nat, p2: nat)
    requires Structure(h) && o < BUCKETS && Fresh(h, p1, p2)
    ensures var k, d := Prepared(h, o, p1, p2), Chosen(h, o, p1, p2);
            && Structure(k) && Active(k, d) && k.role[d] == InBucket(o) && k.desc[d].freeptr != NULL
  {
    assert ChainOk(h, o);
    if Position(h, o) < |h.chain[o]| {
    } else if h.freeDesc == NULL {
      InitKeeps(h, p1);
      PushKeeps(InitDescs(h, p1), o, p2);
    } else {
      PushKeeps(h, o, p2);
    }
  }

  lemma PushLives(h: Heap, o: nat, page: nat)
    requires Chains(h) && o < BUCKETS && h.spare != []
    ensures h.freeDesc !in h.lives
    ensures var k := PushDesc(h, o, page);
            k.lives == h.lives[h.freeDesc := {}] && forall r :: r in h.lives ==> r in h.desc && r in k.desc && k.desc[r] == h.desc[r]
  {
    assert h.freeDesc == h.spare[0];
    assert forall r :: r in h.lives ==> Active(h, r);
    assert !Active(h, h.freeDesc);
  }

  lemma InitLives(h: Heap, page: nat)
    requires Structure(h) && IsPage(page) && page !in h.use
    ensures var k := InitDescs(h, page);
            k.lives == h.lives && forall r :: r in h.lives ==> r in h.desc && r in k.desc && k.desc[r] == h.desc[r]
  {
    SlotsAreNew(h, page);
    assert forall r :: r in h.lives ==> Active(h, r);
  }

  lemma PreparedLives(h: Heap, o: nat, p1: nat, p2: nat)
    requires Structure(h) && o < BUCKETS && Fresh(h, p1, p2)
    ensures var k, d := Prepared(h, o, p1, p2), Chosen(h, o, p1, p2);
            && (k.lives == h.lives || (d !in h.lives && k.lives == h.lives[d := {}]))
            && (forall r :: r in h.lives ==> r in h.desc && r in k.desc && k.desc[r] == h.desc[r])
            && (Position(h, o) == |h.chain[o]| ==> d !in h.lives)
  {
    if Position(h, o) < |h.chain[o]| {
      assert forall r :: r in h.lives ==> Active(h, r);
    } else if h.freeDesc == NULL {
      InitLives(h, p1);
      InitKeeps(h, p1);
      PushLives(InitDescs(h, p1), o, p2);
    } else {
      PushLives(h, o, p2);
    }
  }

  /** A call of `_malloc_`, and the object it returns. */
  ghost function Malloc(h: Heap, o: nat, p1: nat, p2: nat): (k: Heap)
    requires Structure(h) && o < BUCKETS && Fresh(h, p1, p2)
  {
    PreparedKeeps(h, o, p1, p2);
    TakeKeeps(Prepared(h, o, p1, p2), Chosen(h, o, p1, p2));
    Take(Prepared(h, o, p1, p2), Chosen(h, o, p1, p2))
  }

  ghost function Object(h: Heap, o: nat, p1: nat, p2: nat): (a: nat)
    requires Structure(h) && o < BUCKETS && Fresh(h, p1, p2)
  {
    PreparedKeeps(h, o, p1, p2);
    Prepared(h, o, p1, p2).desc[Chosen(h, o, p1, p2)].freeptr
  }

  /** The live objects before a call, of the descriptor the call takes an object from. */
  ghost function Before(h: Heap, d: Ref): set<nat> { if d in h.lives then h.lives[d] else {} }

  lemma TookLives(h: Heap, g: Heap, k: Heap, d: Ref, a: nat)
    requires d in g.lives && (g.lives == h.lives || (d !in h.lives && g.lives == h.lives[d := {}]))
    requires k.lives == g.lives[d := g.lives[d] + {a}]
    ensures k.lives == h.lives[d := Before(h, d) + {a}] && g.lives[d] == Before(h, d)
  {
  }

  /** A call adds exactly its object to the live ones; the object was not live before, and is
      as large as the bucket says. */
  lemma MallocLives(h: Heap, o: nat, p1: nat, p2: nat)
    requires Structure(h) && o < BUCKETS && Fresh(h, p1, p2)
    ensures var k, d, a := Malloc(h, o, p1, p2), Chosen(h, o, p1, p2), Object(h, o, p1, p2);
            && a !in Before(h, d) && k.lives == h.lives[d := Before(h, d) + {a}]
            && d in k.desc && k.desc[d].size == BucketSize(o)
  {
    PreparedKeeps(h, o, p1, p2);
    PreparedLives(h, o, p1, p2);
    var g, d := Prepared(h, o, p1, p2), Chosen(h, o, p1, p2);
    TakeLives(g, d);
    TookLives(h, g, Take(g, d), d, g.desc[d].freeptr);
  }

  lemma MallocKeeps(h: Heap, o: nat, p1: nat, p2: nat)
    requires Invariant(h) && o < BUCKETS && Fresh(h, p1, p2)
    ensures Invariant(Malloc(h, o, p1, p2))
  {
    PreparedKeeps(h, o, p1, p2);
    PreparedLives(h, o, p1, p2);
    var g, d := Prepared(h, o, p1, p2), Chosen(h, o, p1, p2);
    TakeKeeps(g, d);
    var k := Take(g, d);
    forall r | Active(k, r) ensures r in k.desc && k.desc[r].blocnt > 0 {
      assert r in g.lives;
      assert r != d ==> Active(h, r);
    }
  }

  /** The object a call returns has room for the request and shares no byte with any object
      that is live. */
  lemma MallocGivesRoom(h: Heap, length: nat, p1: nat, p2: nat, r: Ref, b: nat)
    requires Invariant(h) && Bucket(length, 0) < BUCKETS && Fresh(h, p1, p2)
    requires Active(h, r) && b in h.lives[r]
    ensures var o := Bucket(length, 0);
            var k, a := Malloc(h, o, p1, p2), Object(h, o, p1, p2);
            && length <= BucketSize(o)
            && r in k.desc && (a + BucketSize(o) <= b || b + k.desc[r].size <= a)
  {
    var o := Bucket(length, 0);
    MallocKeeps(h, o, p1, p2);
    MallocLives(h, o, p1, p2);
    var k, d, a := Malloc(h, o, p1, p2), Chosen(h, o, p1, p2), Object(h, o, p1, p2);
    assert r in k.lives && b in k.lives[r] && a in k.lives[d];
    if a <= b {
      LiveObjectsDisjoint(k, d, a, r, b);
    } else {
      LiveObjectsDisjoint(k, r, b, d, a);
    }
  }

  // --------------------------------------------------------------------- free

  /** The search of `_free_(a, size)` can stop at position `j` of bucket `o`. */
  ghost predicate Found(h: Heap, a: nat, size: nat, o: nat, j: nat) {
    && o < |h.chain| && o < BUCKETS && BucketSize(o) >= size
    && j < |h.chain[o]| && h.chain[o][j] in h.desc && h.desc[h.chain[o][j]].block == PageOf(a)
  }

  /** For a live object the search stops only at its own descriptor, ... */
  lemma FoundIsOwner(h: Heap, r: Ref, a: nat, size: nat, o: nat, j: nat)
    requires Structure(h) && Active(h, r) && a in h.lives[r] && Found(h, a, size, o, j)
    ensures h.chain[o][j] == r && h.role[r] == InBucket(o)
  {
    assert ChainOk(h, o);
    var s := h.chain[o][j];
    assert h.role[s] == InBucket(o);
    MaskFindsOwner(h, r, a, s);
  }

  /** ... and finds it exactly when the descriptor is still in its list, and the size the
      caller passes is not above the size of the objects. Otherwise `_free_` panics. */
  lemma FreeFindsIff(h: Heap, r: Ref, a: nat, size: nat)
    requires Structure(h) && Active(h, r) && a in h.lives[r]
    ensures (exists o, j :: Found(h, a, size, o, j)) <==> h.role[r].InBucket? && size <= h.desc[r].size
  {
    assert DescOk(h, r);
    if h.role[r].InBucket? && size <= h.desc[r].size {
      assert Placed(h, r);
      var o := h.role[r].o;
      var j :| 0 <= j < |h.chain[o]| && h.chain[o][j] == r;
      MaskFindsOwner(h, r, a, r);
      assert Found(h, a, size, o, j);
    }
    if o, j :| Found(h, a, size, o, j) {
      FoundIsOwner(h, r, a, size, o, j);
    }
  }

  /** A call of `_free_` whose search stopped at position `j` of bucket `o`. */
  ghost function Free(h: Heap, a: nat, o: nat, j: nat): (k: Heap)
    requires Structure(h) && o < BUCKETS && j < |h.chain[o]|
    requires Active(h, h.chain[o][j]) && a in h.lives[h.chain[o][j]]
  {
    var d := h.chain[o][j];
    ReturnKeeps(h, d, a);
    var k := Return(h, d, a);
    assert ChainOk(k, o);
    if k.desc[d].blocnt == 0 then Drop(k, o, j) else k
  }

  /** The descriptor is dropped when, and only when, the object was its last. */
  lemma LastObject(h: Heap, a: nat, d: Ref)
    requires Structure(h) && Active(h, d) && a in h.lives[d]
    ensures h.desc[d].blocnt > 0
    ensures Return(h, d, a).desc[d].blocnt == 0 <==> h.lives[d] == {a}
  {
    assert DescOk(h, d);
    var rest := h.lives[d] - {a};
    assert h.lives[d] == rest + {a};
    assert rest == {} <==> |rest| == 0;
  }

  lemma PutThenRemove(m: map<Ref, set<nat>>, d: Ref, v: set<nat>)
    ensures m[d := v] - {d} == m - {d}
  {
  }

  /** A call ends the life of that one object. */
  lemma FreeLives(h: Heap, a: nat, o: nat, j: nat)
    requires Structure(h) && o < BUCKETS && j < |h.chain[o]|
    requires Active(h, h.chain[o][j]) && a in h.lives[h.chain[o][j]]
    ensures var k, d := Free(h, a, o, j), h.chain[o][j];
            k.lives == if h.lives[d] == {a} then h.lives - {d} else h.lives[d := h.lives[d] - {a}]
  {
    var d := h.chain[o][j];
    ReturnKeeps(h, d, a);
    LastObject(h, a, d);
    var g := Return(h, d, a);
    assert ChainOk(g, o);
    PutThenRemove(h.lives, d, h.lives[d] - {a});
    if h.lives[d] == {a} {
      assert Free(h, a, o, j).lives == g.lives - {d};
    } else {
      assert Free(h, a, o, j).lives == g.lives;
    }
  }

  lemma ReturnCounts(h: Heap, g: Heap, d: Ref, a: nat)
    requires Invariant(h) && Active(h, d) && h.desc[d].blocnt > 0 && g == Return(h, d, a)
    ensures forall r :: Active(g, r) && r != d ==> r in g.desc && g.desc[r].blocnt > 0
  {
    assert forall r :: Active(g, r) <==> Active(h, r);
  }

  lemma DropCounts(g: Heap, k: Heap, o: nat, j: nat)
    requires Dropped(g, k, o, j)
    requires forall r :: Active(g, r) && r != g.chain[o][j] ==> r in g.desc && g.desc[r].blocnt > 0
    ensures forall r :: Active(k, r) ==> r in k.desc && k.desc[r].blocnt > 0
  {
    DropShape(g, k, o, j);
    forall r | Active(k, r) ensures r in k.desc && k.desc[r].blocnt > 0 {
      assert k.desc[r].blocnt == g.desc[r].blocnt;
    }
  }

  lemma FreeKeeps(h: Heap, a: nat, o: nat, j: nat)
    requires Invariant(h) && o < BUCKETS && j < |h.chain[o]|
    requires Active(h, h.chain[o][j]) && a in h.lives[h.chain[o][j]]
    ensures Invariant(Free(h, a, o, j))
  {
    var d := h.chain[o][j];
    ReturnKeeps(h, d, a);
    var g := Return(h, d, a);
    assert ChainOk(g, o);
    ReturnCounts(h, g, d, a);
    if g.desc[d].blocnt == 0 {
      DropKeeps(g, o, j);
      DropCounts(g, Drop(g, o, j), o, j);
    }
  }

  // --------------------------------------------------------------------- runs

  /** The owner of object `a` of descriptor `r` writes a word at address `at` inside it. */
  ghost predicate MayWrite(h: Heap, r: Ref, a: nat, at: nat) {
    Active(h, r) && r in h.lives && r in h.desc && a in h.lives[r] && a <= at < a + h.desc[r].size
  }

  ghost function Write(h: Heap, at: nat, v: nat): Heap { h.(cell := h.cell[at := v]) }

  lemma NotFree(h: Heap, r: Ref, a: nat, at: nat, s: Ref)
    requires Structure(h) && MayWrite(h, r, a, at) && Active(h, s)
    ensures at !in h.frees[s]
  {
    assert DescOk(h, r) && DescOk(h, s);
    if at in h.frees[s] {
      SamePage(h.desc[r].block, h.desc[s].block, at);
      if a < at {
        OneApart(h.desc[r].block, h.desc[r].size, a, at);
      }
    }
  }

  /** Whatever owners write into their objects, the free lists stay intact. */
  lemma WriteKeeps(h: Heap, r: Ref, a: nat, at: nat, v: nat)
    requires Invariant(h) && MayWrite(h, r, a, at)
    ensures Invariant(Write(h, at, v))
  {
    var k := Write(h, at, v);
    ChainsFrame(h, k);
    PagesFrame(h, k);
    forall s | Active(k, s) ensures DescOk(k, s) {
      assert DescOk(h, s);
      NotFree(h, r, a, at, s);
      assert forall b :: b in h.frees[s] ==> b in h.cell;
      DescFrame(h, k, s);
    }
  }

  datatype Event =
    | Allocate(length: nat, p1: nat, p2: nat)
    | Release(a: nat, size: nat, o: nat, j: nat)
    | Store(r: Ref, a: nat, at: nat, v: nat)

  ghost predicate Releasable(h: Heap, a: nat, size: nat, o: nat, j: nat) {
    Found(h, a, size, o, j) && Active(h, h.chain[o][j]) && h.chain[o][j] in h.lives && a in h.lives[h.chain[o][j]]
  }

  /** One call, or one write by an owner. Calls that panic end the run. */
  ghost predicate Call(h: Heap, e: Event, k: Heap)
    requires Structure(h)
  {
    match e
    case Allocate(length, p1, p2) =>
      Bucket(length, 0) < BUCKETS && Fresh(h, p1, p2) && k == Malloc(h, Bucket(length, 0), p1, p2)
    case Release(a, size, o, j) => Releasable(h, a, size, o, j) && k == Free(h, a, o, j)
    case Store(r, a, at, v) => MayWrite(h, r, a, at) && k == Write(h, at, v)
  }

  /** A heap whose structure is broken could do anything next. */
  ghost predicate Step(h: Heap, e: Event, k: Heap) { Structure(h) ==> Call(h, e, k) }

  lemma StepKeeps(h: Heap, e: Event, k: Heap)
    requires Invariant(h) && Step(h, e, k)
    ensures Invariant(k)
  {
    match e
    case Allocate(length, p1, p2) => MallocKeeps(h, Bucket(length, 0), p1, p2);
    case Release(a, size, o, j) => FreeKeeps(h, a, o, j);
    case Store(r, a, at, v) => WriteKeeps(h, r, a, at, v);
  }

  const EMPTY: Heap := Heap(map[], [0, 0, 0, 0, 0, 0, 0, 0, 0, 0], NULL, map[],
                            [[], [], [], [], [], [], [], [], [], []], [], map[], map[], map[], map[], map[])

  lemma EmptyOk()
    ensures Invariant(EMPTY)
  {
  }

  ghost predicate Run(hs: seq<Heap>, es: seq<Event>) {
    && |hs| == |es| + 1 && hs[0] == EMPTY
    && (forall i :: 0 <= i < |es| ==> Step(hs[i], es[i], hs[i + 1]))
  }

  lemma {:induction false} EveryRunKeeps(hs: seq<Heap>, es: seq<Event>, i: nat)
    requires Run(hs, es) && i < |hs|
    ensures Invariant(hs[i])
  {
    if i == 0 {
      EmptyOk();
    } else {
      EveryRunKeeps(hs, es, i - 1);
      StepKeeps(hs[i - 1], es[i - 1], hs[i]);
    }
  }

  // -------------------------------------------- descriptors lost from a bucket

  /** The unlinking removes exactly the emptied descriptor if, and only if, it is the first or
      the second of its list. */
  lemma UnlinkedExactIff(ns: seq<Ref>, j: nat)
    requires j < |ns|
    ensures Unlinked(ns, j) == ns[..j] + ns[j + 1..] <==> j <= 1
  {
    if j > 1 {
      assert |Unlinked(ns, j)| == |ns| - j;
    } else if j == 1 {
      assert ns[..1] == [ns[0]];
    }
  }

  ghost predicate IsLost(h: Heap, r: Ref) { r in h.role && h.role[r].Lost? }

  /** The event empties a descriptor that is third or later in its list. */
  ghost predicate EmptiesLate(h: Heap, e: Event) {
    e.Release? && Releasable(h, e.a, e.size, e.o, e.j) && h.lives[h.chain[e.o][e.j]] == {e.a} && e.j >= 2
  }

  lemma InitLost(h: Heap, page: nat, r: Ref)
    requires Structure(h) && IsPage(page) && page !in h.use
    ensures IsLost(InitDescs(h, page), r) <==> IsLost(h, r)
  {
    SlotsAreNew(h, page);
  }

  lemma PushLost(h: Heap, o: nat, page: nat, r: Ref)
    requires Chains(h) && o < BUCKETS && h.spare != []
    ensures IsLost(PushDesc(h, o, page), r) <==> IsLost(h, r)
  {
    assert h.freeDesc == h.spare[0];
  }

  lemma MallocLost(h: Heap, o: nat, p1: nat, p2: nat, r: Ref)
    requires Structure(h) && o < BUCKETS && Fresh(h, p1, p2)
    ensures IsLost(Malloc(h, o, p1, p2), r) <==> IsLost(h, r)
  {
    assert Malloc(h, o, p1, p2).role == Prepared(h, o, p1, p2).role;
    if Position(h, o) < |h.chain[o]| {
    } else if h.freeDesc == NULL {
      InitKeeps(h, p1);
      InitLost(h, p1, r);
      PushLost(InitDescs(h, p1), o, p2, r);
    } else {
      PushLost(h, o, p2, r);
    }
  }

  lemma DropLost(g: Heap, k: Heap, o: nat, j: nat, r: Ref)
    requires Dropped(g, k, o, j)
    ensures IsLost(k, r) <==> IsLost(g, r) || (r in g.chain[o][..j] && r != g.chain[o][0])
  {
    var ns := g.chain[o];
    if r in ns[..j] {
      var q :| 0 <= q < j && ns[q] == r;
      assert Distinct(ns, q, j);
    }
  }

  lemma FreeLost(h: Heap, a: nat, o: nat, j: nat, r: Ref)
    requires Structure(h) && o < BUCKETS && j < |h.chain[o]|
    requires Active(h, h.chain[o][j]) && a in h.lives[h.chain[o][j]]
    ensures var ns := h.chain[o];
            IsLost(Free(h, a, o, j), r) <==> IsLost(h, r) || (h.lives[ns[j]] == {a} && r in ns[..j] && r != ns[0])
  {
    var d := h.chain[o][j];
    ReturnKeeps(h, d, a);
    LastObject(h, a, d);
    var g := Return(h, d, a);
    assert ChainOk(g, o);
    if g.desc[d].blocnt == 0 {
      DropLost(g, Drop(g, o, j), o, j, r);
    }
  }

  lemma SkippedLate(ns: seq<Ref>, j: nat, r: Ref)
    requires j < |ns| && r in ns[..j] && r != ns[0]
    ensures j >= 2
  {
    var q :| 0 <= q < j && ns[q] == r;
  }

  lemma ReleaseLoses(h: Heap, a: nat, size: nat, o: nat, j: nat)
    requires Structure(h) && Releasable(h, a, size, o, j)
    ensures var k := Free(h, a, o, j);
            && (forall r :: IsLost(h, r) ==> IsLost(k, r))
            && (h.lives[h.chain[o][j]] == {a} && j >= 2 ==> IsLost(k, h.chain[o][1]))
            && (forall r :: IsLost(k, r) ==> IsLost(h, r) || (h.lives[h.chain[o][j]] == {a} && j >= 2))
  {
    var k, ns := Free(h, a, o, j), h.chain[o];
    assert ChainOk(h, o);
    forall r | IsLost(h, r) ensures IsLost(k, r) {
      FreeLost(h, a, o, j, r);
    }
    forall r | IsLost(k, r) ensures IsLost(h, r) || (h.lives[ns[j]] == {a} && j >= 2) {
      FreeLost(h, a, o, j, r);
      if !IsLost(h, r) {
        SkippedLate(ns, j, r);
      }
    }
    if h.lives[ns[j]] == {a} && j >= 2 {
      assert Distinct(ns, 0, 1) && ns[..j][1] == ns[1];
      FreeLost(h, a, o, j, ns[1]);
    }
  }

  /** A descriptor is lost in a step if, and only if, the step empties one that is third or
      later in its list; once lost it stays lost. */
  lemma StepLoses(h: Heap, e: Event, k: Heap)
    requires Structure(h) && Step(h, e, k)
    ensures forall r :: IsLost(h, r) ==> IsLost(k, r)
    ensures (exists r :: IsLost(k, r)) <==> (exists r :: IsLost(h, r)) || EmptiesLate(h, e)
  {
    match e {
      case Allocate(length, p1, p2) =>
        forall r ensures IsLost(k, r) <==> IsLost(h, r) { MallocLost(h, Bucket(length, 0), p1, p2, r); }
      case Release(a, size, o, j) => ReleaseLoses(h, a, size, o, j);
      case Store(_, _, _, _) => assert forall r :: IsLost(k, r) <==> IsLost(h, r);
    }
  }

  lemma {:induction false} NothingLostIff(hs: seq<Heap>, es: seq<Event>, n: nat)
    requires Run(hs, es) && n < |hs|
    ensures (forall r :: !IsLost(hs[n], r)) <==> (forall i :: 0 <= i < n ==> !EmptiesLate(hs[i], es[i]))
  {
    if n > 0 {
      NothingLostIff(hs, es, n - 1);
      EveryRunKeeps(hs, es, n - 1);
      StepLoses(hs[n - 1], es[n - 1], hs[n]);
    }
  }

  /** `_free_(a, 0)` would find object `a`. */
  ghost predicate Freeable(h: Heap, a: nat) { exists o, j :: Found(h, a, 0, o, j) }

  ghost predicate AllFreeable(h: Heap) {
    forall r, a :: Active(h, r) && r in h.lives && a in h.lives[r] ==> Freeable(h, a)
  }

  lemma FreeableIffNotLost(h: Heap)
    requires Invariant(h)
    ensures AllFreeable(h) <==> forall r :: !IsLost(h, r)
  {
    forall r, a | Active(h, r) && r in h.lives && a in h.lives[r] ensures Freeable(h, a) <==> !IsLost(h, r) {
      FreeFindsIff(h, r, a, 0);
    }
    if r :| IsLost(h, r) {
      assert DescOk(h, r) && Active(h, r);
      assert |h.lives[r]| > 0;
      var a :| a in h.lives[r];
      assert !Freeable(h, a);
    }
  }

  /** In any run, every live object can be freed if, and only if, no free so far emptied a
      descriptor that was third or later in its list. */
  lemma AllFreeableIff(hs: seq<Heap>, es: seq<Event>, n: nat)
    requires Run(hs, es) && n < |hs|
    ensures AllFreeable(hs[n]) <==> forall i :: 0 <= i < n ==> !EmptiesLate(hs[i], es[i])
  {
    EveryRunKeeps(hs, es, n);
    FreeableIffNotLost(hs[n]);
    NothingLostIff(hs, es, n);
  }

  // ---------------------------------------------------------- the failing case

  /** The bucket whose objects are whole pages. */
  const WHOLE_PAGES: nat := 9

  /** Between calls a descriptor of whole pages has no free object. */
  lemma WholePageFull(h: Heap, r: Ref)
    requires Invariant(h) && Active(h, r) && BucketOf(h.role[r]) == WHOLE_PAGES
    ensures h.desc[r].freeptr == NULL
  {
    assert DescOk(h, r);
    assert Capacity(WHOLE_PAGES) == 1;
  }

  lemma WholePagesFull(h: Heap)
    requires Invariant(h)
    ensures Position(h, WHOLE_PAGES) == |h.chain[WHOLE_PAGES]|
  {
    var ns := h.chain[WHOLE_PAGES];
    assert ChainOk(h, WHOLE_PAGES);
    forall j | 0 <= j < |ns| ensures h.desc[ns[j]].freeptr == NULL {
      WholePageFull(h, ns[j]);
    }
  }

  lemma PushedInFront(h: Heap, o: nat, p1: nat, p2: nat)
    requires Structure(h) && o < BUCKETS && Fresh(h, p1, p2) && Position(h, o) == |h.chain[o]|
    ensures Malloc(h, o, p1, p2).chain[o] == [Chosen(h, o, p1, p2)] + h.chain[o]
  {
    assert Malloc(h, o, p1, p2).chain == Prepared(h, o, p1, p2).chain;
  }

  lemma ChosenIsNew(h: Heap, o: nat, p1: nat, p2: nat)
    requires Structure(h) && o < BUCKETS && Fresh(h, p1, p2) && Position(h, o) == |h.chain[o]|
    ensures Chosen(h, o, p1, p2) !in h.lives
  {
    PreparedLives(h, o, p1, p2);
  }

  /** An allocation that finds no free object puts a descriptor in front, with one live object. */
  lemma PushedAlone(h: Heap, o: nat, p1: nat, p2: nat)
    requires Structure(h) && o < BUCKETS && Fresh(h, p1, p2) && Position(h, o) == |h.chain[o]|
    ensures var k, d, a := Malloc(h, o, p1, p2), Chosen(h, o, p1, p2), Object(h, o, p1, p2);
            && d !in h.lives && k.lives == h.lives[d := {a}]
  {
    ChosenIsNew(h, o, p1, p2);
    MallocLives(h, o, p1, p2);
    assert {} + {Object(h, o, p1, p2)} == {Object(h, o, p1, p2)};
  }

  /** `ps` are different pages not in use. */
  ghost predicate FreshPages(h: Heap, ps: seq<nat>) {
    && NoDup(ps)
    && (forall i :: 0 <= i < |ps| ==> IsPage(ps[i]) && ps[i] !in h.use)
  }

  lemma MallocUses(h: Heap, o: nat, p1: nat, p2: nat, p: nat)
    requires Structure(h) && o < BUCKETS && Fresh(h, p1, p2) && p !in h.use && p != p1 && p != p2
    ensures p !in Malloc(h, o, p1, p2).use
  {
    assert Malloc(h, o, p1, p2).use == Prepared(h, o, p1, p2).use;
  }

  lemma StillFresh(h: Heap, o: nat, ps: seq<nat>)
    requires Structure(h) && o < BUCKETS && |ps| >= 2 && FreshPages(h, ps) && ps[0] != ps[1]
    ensures FreshPages(Malloc(h, o, ps[0], ps[1]), ps[2..])
  {
    var qs := ps[2..];
    forall i | 0 <= i < |qs| ensures qs[i] !in Malloc(h, o, ps[0], ps[1]).use {
      assert Distinct(ps, 0, i + 2) && Distinct(ps, 1, i + 2);
      MallocUses(h, o, ps[0], ps[1], ps[i + 2]);
    }
    forall i, j | 0 <= i < j < |qs| ensures Distinct(qs, i, j) {
      assert Distinct(ps, i + 2, j + 2);
    }
  }

  lemma {:induction false} SmallerBucket(o: nat)
    requires o < WHOLE_PAGES
    ensures BucketSize(o) < PAGE_SIZE
    decreases WHOLE_PAGES - o
  {
    if o == WHOLE_PAGES - 1 {
      assert BucketSize(3) == 64;
      assert BucketSize(6) == 512;
    } else {
      SmallerBucket(o + 1);
    }
  }

  lemma LargestBucket()
    ensures Bucket(PAGE_SIZE, 0) == WHOLE_PAGES
  {
    PageIsCut(WHOLE_PAGES);
    var b := Bucket(PAGE_SIZE, 0);
    if b < WHOLE_PAGES {
      SmallerBucket(b);
    }
  }

  /** Freeing the one live object of a third descriptor leaves the second one's objects stuck. */
  lemma ThirdFreed(h: Heap, o: nat, a: nat)
    requires Invariant(h) && o < BUCKETS && |h.chain[o]| >= 3
    requires h.chain[o][2] in h.lives && h.lives[h.chain[o][2]] == {a}
    ensures Releasable(h, a, 0, o, 2)
    ensures Invariant(Free(h, a, o, 2)) && !AllFreeable(Free(h, a, o, 2))
  {
    var d := h.chain[o][2];
    MaskFindsOwner(h, d, a, d);
    ReleaseLoses(h, a, 0, o, 2);
    FreeKeeps(h, a, o, 2);
    var k := Free(h, a, o, 2);
    assert IsLost(k, h.chain[o][1]);
    FreeableIffNotLost(k);
  }

  lemma AllocatePage(h: Heap, ps: seq<nat>) returns (k: Heap, d: Ref, a: nat)
    requires Invariant(h) && |ps| >= 2 && FreshPages(h, ps)
    ensures Step(h, Allocate(PAGE_SIZE, ps[0], ps[1]), k)
    ensures Invariant(k) && FreshPages(k, ps[2..])
    ensures k.chain[WHOLE_PAGES] == [d] + h.chain[WHOLE_PAGES]
    ensures d !in h.lives && k.lives == h.lives[d := {a}]
  {
    LargestBucket();
    assert Distinct(ps, 0, 1);
    var o := WHOLE_PAGES;
    k, d, a := Malloc(h, o, ps[0], ps[1]), Chosen(h, o, ps[0], ps[1]), Object(h, o, ps[0], ps[1]);
    WholePagesFull(h);
    PushedAlone(h, o, ps[0], ps[1]);
    PushedInFront(h, o, ps[0], ps[1]);
    MallocKeeps(h, o, ps[0], ps[1]);
    StillFresh(h, o, ps);
  }

  /** The heaps of a run that allocates whole pages, offered two pages of `ps` at a time. */
  ghost predicate AllocatesPages(hs: seq<Heap>, ps: seq<nat>)
    requires hs != []
  {
    |hs| == 1 || (|ps| >= 2 && Step(hs[0], Allocate(PAGE_SIZE, ps[0], ps[1]), hs[1]) && AllocatesPages(hs[1..], ps[2..]))
  }

  ghost predicate OneLive(h: Heap, r: Ref) { r in h.lives && |h.lives[r]| == 1 }

  /** `k` has `m` descriptors of whole pages in front of those of `h`, each with one live object. */
  ghost predicate PagesInFront(h: Heap, k: Heap, m: nat) {
    && |h.chain| == |k.chain| == BUCKETS
    && |k.chain[WHOLE_PAGES]| == m + |h.chain[WHOLE_PAGES]|
    && k.chain[WHOLE_PAGES][m..] == h.chain[WHOLE_PAGES]
    && (forall r :: r in h.lives ==> r in k.lives && k.lives[r] == h.lives[r])
    && (forall i :: 0 <= i < m ==> OneLive(k, k.chain[WHOLE_PAGES][i]))
  }

  lemma OneMoreInFront(h: Heap, h1: Heap, k: Heap, m: nat, d: Ref, a: nat)
    requires |h.chain| == |h1.chain| == BUCKETS && h1.chain[WHOLE_PAGES] == [d] + h.chain[WHOLE_PAGES]
    requires d !in h.lives && h1.lives == h.lives[d := {a}] && PagesInFront(h1, k, m)
    ensures PagesInFront(h, k, m + 1)
  {
    var ns := k.chain[WHOLE_PAGES];
    assert ns[m..] == [d] + h.chain[WHOLE_PAGES];
    assert ns[m] == ns[m..][0] == d;
    assert ns[m + 1..] == ns[m..][1..];
    assert d in h1.lives && |h1.lives[d]| == 1;
  }

  lemma OneMoreStep(h: Heap, rest: seq<Heap>, ps: seq<nat>)
    requires rest != [] && |ps| >= 2 && Step(h, Allocate(PAGE_SIZE, ps[0], ps[1]), rest[0]) && AllocatesPages(rest, ps[2..])
    ensures AllocatesPages([h] + rest, ps)
  {
    assert ([h] + rest)[1..] == rest;
  }

  lemma {:induction false} AllocatePages(h: Heap, ps: seq<nat>, m: nat) returns (hs: seq<Heap>)
    requires Invariant(h) && 2 * m <= |ps| && FreshPages(h, ps)
    ensures |hs| == m + 1 && hs[0] == h && AllocatesPages(hs, ps)
    ensures Invariant(hs[m]) && PagesInFront(h, hs[m], m)
    decreases m
  {
    if m == 0 {
      hs := [h];
    } else {
      var h1, d, a := AllocatePage(h, ps);
      var rest := AllocatePages(h1, ps[2..], m - 1);
      OneMoreInFront(h, h1, rest[m - 1], m - 1, d, a);
      OneMoreStep(h, rest, ps);
      hs := [h] + rest;
    }
  }

  lemma Only(ls: set<nat>) returns (a: nat)
    requires |ls| == 1
    ensures ls == {a}
  {
    a :| a in ls;
    assert |ls - {a}| == 0;
    assert ls == (ls - {a}) + {a};
  }

  /** Allocate three whole pages in any heap and free the first: some live object can no longer
      be freed. */
  lemma FreeInOrderLosesAPage(h: Heap, ps: seq<nat>) returns (hs: seq<Heap>, a: nat)
    requires Invariant(h) && |ps| == 6 && FreshPages(h, ps)
    ensures |hs| == 4 && hs[0] == h && AllocatesPages(hs, ps) && Structure(hs[3])
    ensures Releasable(hs[3], a, 0, WHOLE_PAGES, 2) && !AllFreeable(Free(hs[3], a, WHOLE_PAGES, 2))
  {
    hs := AllocatePages(h, ps, 3);
    var k := hs[3];
    assert OneLive(k, k.chain[WHOLE_PAGES][2]);
    a := Only(k.lives[k.chain[WHOLE_PAGES][2]]);
    ThirdFreed(k, WHOLE_PAGES, a);
  }
}

/** The bucket allocator (mm/malloc.c): ten size classes, a list of descriptors for each, one
    page per descriptor, and inside the page a free list threaded through the free objects
    themselves. Memory is explicit: `desc` holds the descriptors and `cell` the words stored
    at object addresses, which callers overwrite as they please while they own an object. */
module MallocModel {
  import Arith

  const PAGE_SIZE: nat := 4096
  const BUCKETS: nat := 10
  const DESC_SIZE: nat := 32
  const DESCS_PER_PAGE: nat := 128

  type Ref = nat
  const NULL: nat := 0

  datatype Desc = Desc(block: nat, next: Ref, freeptr: nat, blocnt: nat, size: nat)

  /** For the record: whether a descriptor is in a bucket list, in the list of spare ones, or
      was dropped from bucket `o` while in use. */
  datatype Role = InBucket(o: nat) | Spare | Lost(o: nat)

  /** For the record: what an allocated page is used for; `home` is the page a descriptor is in. */
  datatype PageUse = DescPage | ObjectPage(d: Ref)

  datatype Heap = Heap(
    desc: map<Ref, Desc>,
    list: seq<Ref>,
    freeDesc: Ref,
    cell: map<nat, nat>,
    chain: seq<seq<Ref>>,
    spare: seq<Ref>,
    role: map<Ref, Role>,
    frees: map<Ref, seq<nat>>,
    lives: map<Ref, set<nat>>,
    use: map<nat, PageUse>,
    home: map<Ref, nat>)

  /** How many objects of bucket `o` a page is cut into. */
  function Capacity(o: nat): (n: nat)
    requires o < BUCKETS
    ensures n >= 1
    decreases BUCKETS - o
  {
    if o == BUCKETS - 1 then 1 else 2 * Capacity(o + 1)
  }

  /** The sizes in `block_dir`: 8, 16, ..., 4096. */
  function BucketSize(o: nat): (s: nat)
    requires o < BUCKETS
    ensures s >= 8
  {
    if o == 0 then 8 else 2 * BucketSize(o - 1)
  }

  lemma {:induction false} PageIsCut(o: nat)
    requires o < BUCKETS
    ensures Capacity(o) * BucketSize(o) == PAGE_SIZE
    decreases BUCKETS - o
  {
    if o == BUCKETS - 1 {
      assert BucketSize(3) == 64;
      assert BucketSize(6) == 512;
      assert BucketSize(9) == 4096;
    } else {
      PageIsCut(o + 1);
      var n, s := Capacity(o + 1), BucketSize(o);
      assert BucketSize(o + 1) == 2 * s;
      Arith.MulAssoc(2, n, s);
    }
  }

  /** The first bucket from `o` on that is large enough, or BUCKETS. */
  ghost function Bucket(length: nat, o: nat): (b: nat)
    requires o <= BUCKETS
    ensures o <= b <= BUCKETS
    ensures b < BUCKETS ==> BucketSize(b) >= length
    ensures forall k :: o <= k < b ==> BucketSize(k) < length
    decreases BUCKETS - o, length
  {
    if o == BUCKETS || BucketSize(o) >= length then o else Bucket(length, o + 1)
  }

  /** Addresses are truncated to 32 bits before the offset in the page is masked off. */
  const ADDRESSES: nat := 0x1_0000_0000

  function PageOf(a: nat): nat
  {
    var low := a % ADDRESSES;
    low - low % PAGE_SIZE
  }

  /** What the page allocator hands out. */
  predicate IsPage(p: nat) { p % PAGE_SIZE == 0 && p != NULL && p + PAGE_SIZE <= ADDRESSES }

  // ------------------------------------------------------------- linked lists

  ghost function After(ns: seq<Ref>, j: nat): Ref {
    if j + 1 < |ns| then ns[j + 1] else NULL
  }

  ghost predicate Link(desc: map<Ref, Desc>, ns: seq<Ref>, j: nat)
    requires j < |ns| && ns[j] in desc
  {
    desc[ns[j]].next == After(ns, j)
  }

  /** The descriptors `ns`, linked in this order from `head`. */
  ghost predicate Linked(desc: map<Ref, Desc>, head: Ref, ns: seq<Ref>) {
    && head == (if ns == [] then NULL else ns[0])
    && (forall j :: 0 <= j < |ns| ==> ns[j] in desc && ns[j] != NULL)
    && (forall j {:trigger Link(desc, ns, j)} :: 0 <= j < |ns| ==> Link(desc, ns, j))
  }

  ghost predicate Thread(cell: map<nat, nat>, xs: seq<nat>, j: nat)
    requires j < |xs| && xs[j] in cell
  {
    cell[xs[j]] == After(xs, j)
  }

  /** The free objects `xs`, threaded through their own first words. */
  ghost predicate Threaded(cell: map<nat, nat>, first: nat, xs: seq<nat>) {
    && first == (if xs == [] then NULL else xs[0])
    && (forall j :: 0 <= j < |xs| ==> xs[j] in cell && xs[j] != NULL)
    && (forall j {:trigger Thread(cell, xs, j)} :: 0 <= j < |xs| ==> Thread(cell, xs, j))
  }

  ghost predicate Distinct(xs: seq<nat>, i: nat, j: nat)
    requires i < |xs| && j < |xs|
  {
    xs[i] != xs[j]
  }

  ghost predicate NoDup(xs: seq<nat>) {
    forall i, j {:trigger Distinct(xs, i, j)} :: 0 <= i < j < |xs| ==> Distinct(xs, i, j)
  }

  // ------------------------------------------------------------------- malloc

  /** The first descriptor of a list, from `j` on, that has a free object. */
  ghost function WithFree(desc: map<Ref, Desc>, ns: seq<Ref>, j: nat): (k: nat)
    requires j <= |ns| && forall i :: 0 <= i < |ns| ==> ns[i] in desc
    ensures j <= k <= |ns|
    ensures k < |ns| ==> desc[ns[k]].freeptr != NULL
    ensures forall i :: j <= i < k ==> desc[ns[i]].freeptr == NULL
    decreases |ns| - j
  {
    if j == |ns| || desc[ns[j]].freeptr != NULL then j else WithFree(desc, ns, j + 1)
  }

  /** `n` objects of a page, in address order. */
  ghost function Objects(page: nat, size: nat, n: nat): (xs: seq<nat>)
    ensures |xs| == n
    ensures forall k :: 0 <= k < n ==> xs[k] == page + k * size
  {
    seq(n, k requires 0 <= k < n => page + k * size)
  }

  /** The slots of a descriptor page. */
  ghost function DescSlots(page: nat): (xs: seq<Ref>)
    ensures |xs| == DESCS_PER_PAGE
    ensures forall k :: 0 <= k < DESCS_PER_PAGE ==> xs[k] == page + k * DESC_SIZE
  {
    seq(DESCS_PER_PAGE, k requires 0 <= k < DESCS_PER_PAGE => page + k * DESC_SIZE)
  }

  ghost function FreshDesc(page: nat, r: Ref, rest: Ref): Desc {
    Desc(NULL, if r == page + (DESCS_PER_PAGE - 1) * DESC_SIZE then rest else r + DESC_SIZE, NULL, 0, 0)
  }

  /** `Init_block_desc` on the page it was given. */
  ghost function InitDescs(h: Heap, page: nat): Heap {
    var slots := DescSlots(page);
    h.(desc := map r | r in h.desc.Keys + (set s | s in slots) :: if r in slots then FreshDesc(page, r, h.freeDesc) else h.desc[r],
       role := map r | r in h.role.Keys + (set s | s in slots) :: if r in slots then Spare else h.role[r],
       freeDesc := page,
       spare := slots + h.spare,
       use := h.use[page := DescPage],
       home := map r | r in h.home.Keys + (set s | s in slots) :: if r in slots then page else h.home[r])
  }

  /** The words that thread `xs`. */
  ghost function ThreadPage(cell: map<nat, nat>, xs: seq<nat>, size: nat): map<nat, nat>
    requires xs != []
  {
    map a | a in cell.Keys + (set x | x in xs) ::
      if a == xs[|xs| - 1] then NULL else if a in xs then a + size else cell[a]
  }

  /** A spare descriptor put in front of bucket `o`, with page `page` all free. */
  ghost function PushDesc(h: Heap, o: nat, page: nat): Heap
    requires o < BUCKETS && |h.list| == |h.chain| == BUCKETS && h.spare != [] && h.freeDesc in h.desc
  {
    var d := h.freeDesc;
    h.(desc := h.desc[d := Desc(page, h.list[o], page, 0, BucketSize(o))],
       list := h.list[o := d],
       freeDesc := h.desc[d].next,
       cell := ThreadPage(h.cell, Objects(page, BucketSize(o), Capacity(o)), BucketSize(o)),
       chain := h.chain[o := [d] + h.chain[o]],
       spare := h.spare[1..],
       role := h.role[d := InBucket(o)],
       frees := h.frees[d := Objects(page, BucketSize(o), Capacity(o))],
       lives := h.lives[d := {}],
       use := h.use[page := ObjectPage(d)])
  }

  /** Handing out the first free object of descriptor `d`. */
  ghost function Take(h: Heap, d: Ref): Heap
    requires d in h.desc && h.desc[d].freeptr in h.cell && d in h.frees && h.frees[d] != [] && d in h.lives
  {
    var a := h.desc[d].freeptr;
    h.(desc := h.desc[d := h.desc[d].(freeptr := h.cell[a], blocnt := h.desc[d].blocnt + 1)],
       frees := h.frees[d := h.frees[d][1..]],
       lives := h.lives[d := h.lives[d] + {a}])
  }

  // --------------------------------------------------------------------- free

  /** The position, from `j` on, of the descriptor whose page is `page`. */
  ghost function WithPage(desc: map<Ref, Desc>, ns: seq<Ref>, page: nat, j: nat): (k: nat)
    requires j <= |ns| && forall i :: 0 <= i < |ns| ==> ns[i] in desc
    ensures j <= k <= |ns|
    ensures k < |ns| ==> desc[ns[k]].block == page
    ensures forall i :: j <= i < k ==> desc[ns[i]].block != page
    decreases |ns| - j
  {
    if j == |ns| || desc[ns[j]].block == page then j else WithPage(desc, ns, page, j + 1)
  }

  /** Threading object `a` back into descriptor `d`. */
  ghost function Return(h: Heap, d: Ref, a: nat): Heap
    requires d in h.desc && d in h.frees && d in h.lives && h.desc[d].blocnt > 0
  {
    h.(desc := h.desc[d := h.desc[d].(freeptr := a, blocnt := h.desc[d].blocnt - 1)],
       cell := h.cell[a := h.desc[d].freeptr],
       frees := h.frees[d := [a] + h.frees[d]],
       lives := h.lives[d := h.lives[d] - {a}])
  }

  /** What the unlink code does to the list: at the front the head moves on; further back the
      head descriptor is made to skip everything up to and including position `j`. */
  ghost function Unlinked(ns: seq<Ref>, j: nat): seq<Ref>
    requires j < |ns|
  {
    if j == 0 then ns[1..] else [ns[0]] + ns[j + 1..]
  }

  /** Descriptor `chain[o][j]` has no live object: unlink it, free its page, keep it spare. */
  ghost function Drop(h: Heap, o: nat, j: nat): Heap
    requires o < BUCKETS && |h.list| == |h.chain| == BUCKETS && j < |h.chain[o]|
    requires h.chain[o][0] in h.desc && h.chain[o][j] in h.desc
  {
    var ns := h.chain[o];
    var d := ns[j];
    var desc1 := if j == 0 then h.desc else h.desc[ns[0] := h.desc[ns[0]].(next := h.desc[d].next)];
    h.(desc := desc1[d := desc1[d].(next := h.freeDesc)],
       list := if j == 0 then h.list[o := h.desc[d].next] else h.list,
       freeDesc := d,
       chain := h.chain[o := Unlinked(ns, j)],
       spare := [d] + h.spare,
       role := map r | r in h.role :: if r == d then Spare else if r in ns[..j] && r != ns[0] then Lost(o) else h.role[r],
       frees := h.frees - {d},
       lives := h.lives - {d},
       use := h.use - {h.desc[d].block})
  }
}

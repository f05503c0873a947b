/** `_malloc_` and `_free_` as they run: pointer walks over the descriptor lists, and loops that
    cut up pages. The panics are returned as `None` and `false`. */
module Allocator {
  import opened MallocModel
  import opened MallocInvariant
  import opened MallocRuns
  import opened Wrappers

  /** The first bucket large enough, or BUCKETS: the loop over `block_dir`. */
  method FindBucket(length: nat) returns (o: nat)
    ensures o == Bucket(length, 0)
  {
    o := 0;
    while o < BUCKETS && BucketSize(o) < length
      invariant o <= BUCKETS && Bucket(length, o) == Bucket(length, 0)
    {
      o := o + 1;
    }
  }

  /** `desc` after the first `n` slots of a page were linked to their successors. */
  ghost function LinkSlots(desc: map<Ref, Desc>, page: nat, n: nat): map<Ref, Desc> {
    if n == 0 then desc
    else LinkSlots(desc, page, n - 1)[page + (n - 1) * DESC_SIZE := Desc(NULL, page + n * DESC_SIZE, NULL, 0, 0)]
  }

  /** `r` is one of the first `n` slots of a page. */
  ghost predicate IsSlot(page: nat, n: nat, r: Ref) {
    page <= r < page + n * DESC_SIZE && (r - page) % DESC_SIZE == 0
  }

  lemma {:induction false} LinkedSlot(desc: map<Ref, Desc>, page: nat, n: nat, r: Ref)
    ensures var d := LinkSlots(desc, page, n);
            && (r in d <==> r in desc || IsSlot(page, n, r))
            && (r in d ==> d[r] == if IsSlot(page, n, r) then Desc(NULL, r + DESC_SIZE, NULL, 0, 0) else desc[r])
  {
    if n > 0 {
      LinkedSlot(desc, page, n - 1, r);
      assert IsSlot(page, n, r) <==> IsSlot(page, n - 1, r) || r == page + (n - 1) * DESC_SIZE;
    }
  }

  lemma SlotIndex(page: nat, r: Ref)
    ensures r in DescSlots(page) <==> IsSlot(page, DESCS_PER_PAGE, r)
  {
    var slots := DescSlots(page);
    if IsSlot(page, DESCS_PER_PAGE, r) {
      var k := (r - page) / DESC_SIZE;
      assert slots[k] == r;
    }
  }

  /** All 128 slots linked, and the last one to the old list: a page of spare descriptors. */
  lemma LinkSlotsIsInit(h: Heap, page: nat)
    ensures var last := page + (DESCS_PER_PAGE - 1) * DESC_SIZE;
            LinkSlots(h.desc, page, DESCS_PER_PAGE - 1)[last := Desc(NULL, h.freeDesc, NULL, 0, 0)] == InitDescs(h, page).desc
  {
    var last := page + (DESCS_PER_PAGE - 1) * DESC_SIZE;
    var n := DESCS_PER_PAGE - 1;
    var d1, d2 := LinkSlots(h.desc, page, n)[last := Desc(NULL, h.freeDesc, NULL, 0, 0)], InitDescs(h, page).desc;
    forall r ensures (r in d1 <==> r in d2) && (r in d1 && r in d2 ==> d1[r] == d2[r]) {
      LinkedSlot(h.desc, page, n, r);
      SlotIndex(page, r);
    }
  }

  /** `cell` after the first `n` objects were threaded to their successors. */
  ghost function LinkCells(cell: map<nat, nat>, xs: seq<nat>, size: nat, n: nat): map<nat, nat>
    requires n <= |xs|
  {
    if n == 0 then cell else LinkCells(cell, xs, size, n - 1)[xs[n - 1] := xs[n - 1] + size]
  }

  lemma {:induction false} LinkedCell(cell: map<nat, nat>, xs: seq<nat>, size: nat, n: nat, a: nat)
    requires n <= |xs|
    ensures var c := LinkCells(cell, xs, size, n);
            && (a in c <==> a in cell || a in xs[..n])
            && (a in c ==> c[a] == if a in xs[..n] then a + size else cell[a])
  {
    if n > 0 {
      LinkedCell(cell, xs, size, n - 1, a);
      assert xs[..n] == xs[..n - 1] + [xs[n - 1]];
    }
  }

  lemma LinkCellsIsThread(cell: map<nat, nat>, xs: seq<nat>, size: nat)
    requires xs != []
    ensures LinkCells(cell, xs, size, |xs| - 1)[xs[|xs| - 1] := NULL] == ThreadPage(cell, xs, size)
  {
    var n := |xs| - 1;
    var c1, c2 := LinkCells(cell, xs, size, n)[xs[n] := NULL], ThreadPage(cell, xs, size);
    assert xs == xs[..n] + [xs[n]];
    forall a ensures (a in c1 <==> a in c2) && (a in c1 && a in c2 ==> c1[a] == c2[a]) {
      LinkedCell(cell, xs, size, n, a);
    }
  }

  class Buckets {
    var desc: map<Ref, Desc>
    const list: array<Ref>
    var freeDesc: Ref
    var cell: map<nat, nat>
    ghost var h: Heap

    /** The fields are the memory of the heap `h`. */
    ghost predicate Holds()
      reads this, list
    {
      && h.desc == desc && list.Length == BUCKETS && h.list == list[..]
      && h.freeDesc == freeDesc && h.cell == cell
    }

    ghost predicate Valid()
      reads this, list
    {
      Holds() && Structure(h)
    }

    constructor ()
      ensures Valid() && h == EMPTY && fresh(list)
    {
      desc, freeDesc, cell := map[], NULL, map[];
      list := new Ref[BUCKETS](_ => NULL);
      h := EMPTY;
      EmptyOk();
      new;
      assert list[..] == EMPTY.list;
    }

    /** The walk over bucket `o` for a descriptor with a free object. */
    method FindFree(o: nat) returns (bdesc: Ref, ghost j: nat)
      requires Valid() && o < BUCKETS
      ensures j == Position(h, o)
      ensures bdesc == if j < |h.chain[o]| then h.chain[o][j] else NULL
    {
      ghost var ns := h.chain[o];
      assert ChainOk(h, o);
      bdesc, j := list[o], 0;
      while bdesc != NULL && desc[bdesc].freeptr == NULL
        invariant j <= |ns| && bdesc == if j < |ns| then ns[j] else NULL
        invariant WithFree(h.desc, ns, j) == WithFree(h.desc, ns, 0)
        decreases |ns| - j
      {
        assert Link(h.desc, ns, j);
        bdesc, j := desc[bdesc].next, j + 1;
      }
    }

    /** `Init_block_desc`: a page of descriptors, linked in address order. */
    method InitBlockDesc(page: nat)
      requires Holds()
      modifies this
      ensures Holds() && h == InitDescs(old(h), page)
    {
      var bdesc := page;
      var i := DESCS_PER_PAGE;
      while i > 1
        invariant 1 <= i <= DESCS_PER_PAGE && bdesc == page + (DESCS_PER_PAGE - i) * DESC_SIZE
        invariant freeDesc == h.freeDesc && h == old(h) && list[..] == h.list && cell == h.cell
        invariant desc == LinkSlots(h.desc, page, DESCS_PER_PAGE - i)
      {
        desc := desc[bdesc := Desc(NULL, bdesc + DESC_SIZE, NULL, 0, 0)];
        bdesc := bdesc + DESC_SIZE;
        i := i - 1;
      }
      desc := desc[bdesc := Desc(NULL, freeDesc, NULL, 0, 0)];
      freeDesc := page;
      LinkSlotsIsInit(h, page);
      h := InitDescs(h, page);
    }

    /** Threading the objects of a new page. */
    method CutPage(page: nat, size: nat, n: nat, ghost xs: seq<nat>)
      requires size > 0 && InOrder(page, size, xs) && n == |xs|
      modifies `cell
      ensures cell == ThreadPage(old(cell), xs, size)
    {
      var cp, i := page, n;
      while i > 1
        invariant 1 <= i <= n && cp == xs[n - i]
        invariant cell == LinkCells(old(cell), xs, size, n - i)
      {
        assert After(xs, n - i) == xs[n - i] + size;
        cell := cell[cp := cp + size];
        cp := cp + size;
        i := i - 1;
      }
      cell := cell[cp := NULL];
      LinkCellsIsThread(old(cell), xs, size);
    }

    /** A spare descriptor for bucket `o`, with a page of free objects. */
    method NewPage(o: nat, page: nat)
      requires Valid() && o < BUCKETS && h.spare != []
      modifies this, list
      ensures Holds() && h == PushDesc(old(h), o, page)
    {
      var bdesc := freeDesc;
      freeDesc := desc[bdesc].next;
      ObjectsInOrder(page, o);
      CutPage(page, BucketSize(o), Capacity(o), Objects(page, BucketSize(o), Capacity(o)));
      desc := desc[bdesc := Desc(page, list[o], page, 0, BucketSize(o))];
      list[o] := bdesc;
      h := PushDesc(h, o, page);
    }

    /** `_malloc_`, given the pages that its calls of the page allocator would return. */
    method Malloc(length: nat, p1: nat, p2: nat) returns (r: Option<nat>)
      requires Valid() && Fresh(h, p1, p2)
      modifies this, list
      ensures Valid()
      ensures var o := Bucket(length, 0);
              if o == BUCKETS then r == None && h == old(h)
              else r == Some(Object(old(h), o, p1, p2)) && h == MallocRuns.Malloc(old(h), o, p1, p2)
    {
      var o := FindBucket(length);
      if o == BUCKETS {
        return None;
      }
      var bdesc, j := FindFree(o);
      ghost var h0 := h;
      PreparedKeeps(h0, o, p1, p2);
      TakeKeeps(Prepared(h0, o, p1, p2), Chosen(h0, o, p1, p2));
      assert ChainOk(h0, o);
      if bdesc == NULL {
        if freeDesc == NULL {
          InitKeeps(h, p1);
          InitBlockDesc(p1);
        }
        NewPage(o, p2);
        bdesc := list[o];
      }
      assert h == Prepared(h0, o, p1, p2) && bdesc == Chosen(h0, o, p1, p2);
      r := TakeObject(bdesc);
    }

    method TakeObject(bdesc: Ref) returns (r: Option<nat>)
      requires Holds() && bdesc in h.desc && h.desc[bdesc].freeptr in h.cell
      requires bdesc in h.frees && h.frees[bdesc] != [] && bdesc in h.lives
      modifies this
      ensures Holds() && h == Take(old(h), bdesc) && r == Some(old(h).desc[bdesc].freeptr)
    {
      var a := desc[bdesc].freeptr;
      desc := desc[bdesc := desc[bdesc].(freeptr := cell[a], blocnt := desc[bdesc].blocnt + 1)];
      h := Take(h, bdesc);
      r := Some(a);
    }

    /** The walk over bucket `o` for the descriptor of page `page`. */
    method FindPage(o: nat, page: nat) returns (bdesc: Ref, prev: Ref, ghost j: nat)
      requires Valid() && o < BUCKETS
      ensures j <= |h.chain[o]|
      ensures bdesc == if j < |h.chain[o]| then h.chain[o][j] else NULL
      ensures prev == if j > 0 then h.chain[o][j - 1] else NULL
      ensures j < |h.chain[o]| ==> bdesc in desc && desc[bdesc].block == page
      ensures j == |h.chain[o]| ==> forall i :: 0 <= i < j ==> h.chain[o][i] in desc && desc[h.chain[o][i]].block != page
    {
      ghost var ns := h.chain[o];
      assert ChainOk(h, o);
      bdesc, prev, j := list[o], NULL, 0;
      while bdesc != NULL && desc[bdesc].block != page
        invariant j <= |ns| && bdesc == if j < |ns| then ns[j] else NULL
        invariant prev == if j > 0 then ns[j - 1] else NULL
        invariant forall i :: 0 <= i < j ==> ns[i] in desc && desc[ns[i]].block != page
        decreases |ns| - j
      {
        assert Link(h.desc, ns, j);
        prev := bdesc;
        bdesc, j := desc[bdesc].next, j + 1;
      }
    }

    /** The search of `_free_` over the buckets that are large enough. */
    method Find(obj: nat, size: nat) returns (o: nat, bdesc: Ref, prev: Ref, ghost j: nat)
      requires Valid()
      ensures o <= BUCKETS
      ensures o < BUCKETS ==> Found(h, obj, size, o, j) && bdesc == h.chain[o][j]
                              && prev == if j > 0 then h.chain[o][j - 1] else NULL
      ensures o == BUCKETS ==> forall p: nat, i: nat :: !Found(h, obj, size, p, i)
    {
      var page := PageOf(obj);
      o, bdesc, prev, j := 0, NULL, NULL, 0;
      while o < BUCKETS
        invariant o <= BUCKETS
        invariant forall p: nat, i: nat :: p < o ==> !Found(h, obj, size, p, i)
      {
        if BucketSize(o) >= size {
          bdesc, prev, j := FindPage(o, page);
          if bdesc != NULL {
            assert ChainOk(h, o);
            return;
          }
          assert ChainOk(h, o);
        }
        o := o + 1;
      }
    }

    method ReturnObject(bdesc: Ref, obj: nat)
      requires Holds() && bdesc in h.desc && bdesc in h.frees && bdesc in h.lives && h.desc[bdesc].blocnt > 0
      modifies this
      ensures Holds() && h == Return(old(h), bdesc, obj)
    {
      cell := cell[obj := desc[bdesc].freeptr];
      desc := desc[bdesc := desc[bdesc].(freeptr := obj, blocnt := desc[bdesc].blocnt - 1)];
      h := Return(h, bdesc, obj);
    }

    /** Taking an emptied descriptor off its list. The test that is to confirm `prev` compares a
        page with a descriptor, so it never does, and the search it starts stops at the head,
        whose link it has just overwritten. */
    method Bypass(o: nat, bdesc: Ref, prev0: Ref)
      requires o < list.Length && list[o] in desc && bdesc in desc
      requires prev0 == NULL ==> list[o] == bdesc
      requires prev0 != NULL ==> list[o] != bdesc && list[o] != NULL && prev0 in desc && desc[prev0].block != bdesc
      modifies `desc, list
      ensures old(list[o]) in old(desc)
      ensures prev0 == NULL ==> desc == old(desc) && list[..] == old(list[..])[o := old(desc)[bdesc].next]
      ensures prev0 != NULL ==> list[..] == old(list[..])
      ensures prev0 != NULL ==>
                desc == old(desc)[old(list[o]) := old(desc)[old(list[o])].(next := old(desc)[bdesc].next)]
    {
      var prev := prev0;
      if (prev != NULL && desc[prev].block != bdesc) || (prev == NULL && list[o] != bdesc) {
        prev := list[o];
        desc := desc[prev := desc[prev].(next := bdesc)];
      }
      if prev != NULL {
        desc := desc[prev := desc[prev].(next := desc[bdesc].next)];
      } else {
        list[o] := desc[bdesc].next;
      }
    }

    /** Unlinking an emptied descriptor, which becomes spare. */
    method Unlink(o: nat, bdesc: Ref, prev: Ref, ghost j: nat)
      requires Valid() && o < BUCKETS && j < |h.chain[o]| && bdesc == h.chain[o][j]
      requires prev == if j > 0 then h.chain[o][j - 1] else NULL
      requires j > 0 ==> prev in desc && desc[prev].block != bdesc
      modifies this, list
      ensures Holds() && ChainOk(old(h), o) && h == Drop(old(h), o, j)
    {
      assert ChainOk(h, o);
      assert j > 0 ==> Distinct(h.chain[o], 0, j);
      Bypass(o, bdesc, prev);
      desc := desc[bdesc := desc[bdesc].(next := freeDesc)];
      freeDesc := bdesc;
      h := Drop(h, o, j);
    }

    /** `_free_` of a live object. */
    method Free(obj: nat, size: nat, ghost r: Ref) returns (ok: bool, ghost o: nat, ghost j: nat)
      requires Valid() && Active(h, r) && obj in h.lives[r]
      modifies this, list
      ensures Valid()
      ensures ok <==> old(h).role[r].InBucket? && size <= old(h).desc[r].size
      ensures !ok ==> h == old(h)
      ensures ok ==> Releasable(old(h), obj, size, o, j) && old(h).chain[o][j] == r
      ensures ok ==> h == MallocRuns.Free(old(h), obj, o, j)
    {
      FreeFindsIff(h, r, obj, size);
      var bucket, bdesc, prev;
      bucket, bdesc, prev, j := Find(obj, size);
      o := bucket;
      if bucket == BUCKETS {
        return false, o, j;
      }
      ghost var h0 := h;
      FoundIsOwner(h, r, obj, size, o, j);
      ReturnKeeps(h, r, obj);
      ReturnObject(bdesc, obj);
      if desc[bdesc].blocnt == 0 {
        PrevIsNoPage(h, o, j, bdesc);
        Unlink(bucket, bdesc, prev, j);
        assert ChainOk(Return(h0, r, obj), o);
        DropKeeps(Return(h0, r, obj), o, j);
      }
      assert h == MallocRuns.Free(h0, obj, o, j);
      ok := true;
    }
  }

  /** A descriptor's address is never the address of a page of objects. */
  lemma PrevIsNoPage(h: Heap, o: nat, j: nat, d: Ref)
    requires Structure(h) && o < BUCKETS && j < |h.chain[o]| && d in h.desc
    ensures j > 0 ==> h.chain[o][j - 1] in h.desc && h.desc[h.chain[o][j - 1]].block != d
  {
    assert ChainOk(h, o);
    if j > 0 {
      var p := h.chain[o][j - 1];
      assert Active(h, p) && DescOk(h, p);
      if h.desc[p].block == d {
        SamePage(h.desc[p].block, h.home[d], d);
      }
    }
  }
}

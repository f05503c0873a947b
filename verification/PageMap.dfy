/** The page allocator (mm/page.c): one flag byte per page, TAKEN in bit 0 and LAST in bit 1.
    Allocation is first fit; freeing walks from a block's first page to its LAST page. */
module PageMap {
  import opened Wrappers

  const PAGE_SIZE: nat := 4096
  const RESERVED_PAGES: nat := 8

  /** The two bits of `struct Page.flags`. */
  datatype Flags = Flags(taken: bool, last: bool)
  const CLEAR := Flags(false, false)

  // -------------------------------------------------------------- the page map

  /** The map splits into free pages with no flag set and runs of taken pages, each run
      divided into blocks that end in a LAST page. */
  ghost predicate PageOk(m: seq<Flags>, i: nat)
    requires i < |m|
  {
    && (!m[i].taken ==> m[i] == CLEAR)
    && (m[i].taken && !m[i].last ==> i + 1 < |m| && m[i + 1].taken)
  }

  ghost predicate MapOk(m: seq<Flags>) {
    forall i: nat :: i < |m| ==> PageOk(m, i)
  }

  /** Page `i` is the first page of a block. */
  ghost predicate IsStart(m: seq<Flags>, i: nat) {
    i < |m| && m[i].taken && (i == 0 || !m[i - 1].taken || m[i - 1].last)
  }

  /** Pages `i` to `j` are one block or the tail of one. */
  ghost predicate EndsAt(m: seq<Flags>, i: nat, j: nat) {
    i <= j < |m| && m[j].taken && m[j].last && forall k :: i <= k < j ==> m[k].taken && !m[k].last
  }

  /** Every taken page belongs to a block that ends somewhere. */
  lemma {:induction false} BlockEnds(m: seq<Flags>, i: nat) returns (j: nat)
    requires MapOk(m) && i < |m| && m[i].taken
    ensures EndsAt(m, i, j)
    decreases |m| - i
  {
    assert PageOk(m, i);
    if m[i].last {
      j := i;
    } else {
      j := BlockEnds(m, i + 1);
    }
  }

  lemma EndUnique(m: seq<Flags>, i: nat, j: nat, k: nat)
    requires EndsAt(m, i, j) && EndsAt(m, i, k)
    ensures j == k
  {
  }

  // --------------------------------------------------------------- allocation

  /** The `n` pages from `i` on are there and free. */
  ghost predicate Fits(m: seq<Flags>, i: nat, n: nat) {
    i + n <= |m| && forall k :: i <= k < i + n ==> !m[k].taken
  }

  /** Pages `i` to `i + n - 1` marked as one block. */
  ghost function Marked(m: seq<Flags>, i: nat, n: nat): seq<Flags>
    requires n >= 1 && i + n <= |m|
  {
    seq(|m|, k requires 0 <= k < |m| =>
      if i <= k < i + n then Flags(true, m[k].last || k == i + n - 1) else m[k])
  }

  /** Pages `i` to `j` cleared. */
  ghost function Cleared(m: seq<Flags>, i: nat, j: nat): seq<Flags>
    requires i <= j < |m|
  {
    seq(|m|, k requires 0 <= k < |m| => if i <= k <= j then CLEAR else m[k])
  }

  /** A block of free pages becomes a block of its own and the map stays well formed. */
  lemma MarkedKeeps(m: seq<Flags>, i: nat, n: nat)
    requires MapOk(m) && n >= 1 && Fits(m, i, n)
    ensures MapOk(Marked(m, i, n))
    ensures IsStart(Marked(m, i, n), i) && EndsAt(Marked(m, i, n), i, i + n - 1)
  {
    var m' := Marked(m, i, n);
    forall k: nat | k < |m'| ensures PageOk(m', k) {
      assert PageOk(m, k);
      if k + 1 < |m'| {
        assert PageOk(m, k + 1);
      }
    }
    forall k | i <= k < i + n ensures !m[k].last {
      assert PageOk(m, k);
    }
    if i > 0 {
      assert PageOk(m, i - 1);
    }
  }

  /** Clearing a block that starts at `i` leaves the rest of the map as it was. */
  lemma ClearedKeeps(m: seq<Flags>, i: nat, j: nat)
    requires MapOk(m) && IsStart(m, i) && EndsAt(m, i, j)
    ensures MapOk(Cleared(m, i, j))
  {
    var m' := Cleared(m, i, j);
    forall k: nat | k < |m'| ensures PageOk(m', k) {
      assert PageOk(m, k);
    }
  }

  /** Other blocks survive a free unchanged, first page and last page alike. */
  lemma OtherBlocksSurvive(m: seq<Flags>, i: nat, j: nat, a: nat, b: nat)
    requires MapOk(m) && IsStart(m, i) && EndsAt(m, i, j) && IsStart(m, a) && EndsAt(m, a, b) && a != i
    ensures b < i || j < a
    ensures IsStart(Cleared(m, i, j), a) && EndsAt(Cleared(m, i, j), a, b)
  {
  }

  /** Allocating and freeing again restores the map. */
  lemma AllocThenFree(m: seq<Flags>, i: nat, n: nat, j: nat)
    requires MapOk(m) && n >= 1 && Fits(m, i, n) && EndsAt(Marked(m, i, n), i, j)
    ensures Cleared(Marked(m, i, n), i, j) == m
  {
    MarkedKeeps(m, i, n);
    EndUnique(Marked(m, i, n), i, j, i + n - 1);
    forall k: nat | k < |m| ensures Cleared(Marked(m, i, n), i, j)[k] == m[k] {
      assert PageOk(m, k);
    }
  }

  // ------------------------------------------------------------------ the code

  class Pages {
    const page: array<Flags>
    const allocStart: nat

    ghost predicate Valid()
      reads page
    {
      MapOk(page[..])
    }

    constructor (n: nat, start: nat)
      ensures Valid() && page.Length == n && allocStart == start && fresh(page)
      ensures forall i :: 0 <= i < n ==> page[i] == CLEAR
    {
      page := new Flags[n](_ => CLEAR);
      allocStart := start;
    }

    /** Are the pages from `i` on free, `n` of them? The inner search loop. */
    method FreeRun(i: nat, n: nat) returns (found: bool)
      requires n >= 1 && i + n <= page.Length && !page[i].taken
      ensures found <==> Fits(page[..], i, n)
    {
      var j := i + 1;
      while j < i + n
        invariant i + 1 <= j <= i + n && Fits(page[..], i, j - i)
      {
        if page[j].taken {
          return false;
        }
        j := j + 1;
      }
      return true;
    }

    method Mark(i: nat, n: nat)
      requires n >= 1 && i + n <= page.Length
      modifies page
      ensures page[..] == Marked(old(page[..]), i, n)
    {
      var k := i;
      while k < i + n
        invariant i <= k <= i + n
        invariant forall x :: 0 <= x < page.Length ==>
          page[x] == if i <= x < k then old(page[x]).(taken := true) else old(page[x])
      {
        page[k] := page[k].(taken := true);
        k := k + 1;
      }
      page[k - 1] := page[k - 1].(last := true);
    }

    /** `page_alloc`: the lowest run of `n` free pages, as an address; None only if there is
        no such run. */
    method Alloc(n: nat) returns (r: Option<nat>)
      requires Valid() && 1 <= n <= page.Length
      modifies page
      ensures Valid()
      ensures r.None? ==> page[..] == old(page[..]) && forall i: nat :: !Fits(page[..], i, n)
      ensures r.Some? ==> exists i: nat ::
        && Fits(old(page[..]), i, n) && r.value == allocStart + i * PAGE_SIZE
        && (forall i': nat :: i' < i ==> !Fits(old(page[..]), i', n))
        && page[..] == Marked(old(page[..]), i, n)
    {
      var i: nat := 0;
      while i + n <= page.Length
        invariant page[..] == old(page[..])
        invariant forall i': nat :: i' < i ==> !Fits(page[..], i', n)
        decreases page.Length - i
      {
        if !page[i].taken {
          var found := FreeRun(i, n);
          if found {
            MarkedKeeps(page[..], i, n);
            Mark(i, n);
            return Some(allocStart + i * PAGE_SIZE);
          }
        } else {
          assert !Fits(page[..], i, n);
        }
        i := i + 1;
      }
      return None;
    }

    /** `page_free` on the address of the first page `i` of a block: clears exactly the block. */
    method Free(p: nat, ghost i: nat)
      requires Valid() && p == allocStart + i * PAGE_SIZE && IsStart(page[..], i)
      modifies page
      ensures Valid()
      ensures exists j :: EndsAt(old(page[..]), i, j) && page[..] == Cleared(old(page[..]), i, j)
    {
      ghost var j := BlockEnds(page[..], i);
      ClearedKeeps(page[..], i, j);
      var k := (p - allocStart) / PAGE_SIZE;
      assert k == i;
      while page[k].taken
        invariant i <= k <= j
        invariant forall x :: 0 <= x < page.Length ==> page[x] == if i <= x < k then CLEAR else old(page[x])
        decreases j - k
      {
        if page[k].last {
          page[k] := CLEAR;
          break;
        } else {
          page[k] := CLEAR;
          k := k + 1;
        }
      }
      assert page[..] == Cleared(old(page[..]), i, j);
    }
  }

  // --------------------------------------------------------------- the layout

  /** `_align_page` on 32-bit addresses that do not wrap. */
  function AlignPage(a: nat): (r: nat)
    ensures a <= r < a + PAGE_SIZE && r % PAGE_SIZE == 0
  {
    (a + PAGE_SIZE - 1) / PAGE_SIZE * PAGE_SIZE
  }

  /** The pool that `Init_page` lays out, from the first page to behind the last. */
  function PoolEnd(heapStart: nat, heapSize: nat): nat
    requires heapSize / PAGE_SIZE >= RESERVED_PAGES
  {
    AlignPage(heapStart + RESERVED_PAGES * PAGE_SIZE) + PAGE_SIZE * (heapSize / PAGE_SIZE - RESERVED_PAGES)
  }

  /** The size that the linker script gives the heap: 32 MiB. */
  const HEAP_SIZE: nat := 0x200_0000

  /** That heap passes its end from every start that is not on a page boundary; it starts where
      .bss ends, which the linker script does not align. */
  lemma PoolPassesHeap(heapStart: nat)
    requires heapStart % PAGE_SIZE != 0
    ensures PoolEnd(heapStart, HEAP_SIZE) > heapStart + HEAP_SIZE
  {
    PoolInsideHeapIff(heapStart, HEAP_SIZE);
  }

  /** For instance 8 bytes after a page boundary in RAM. */
  lemma PoolMayPassHeap()
    ensures PoolEnd(0x8030_0008, HEAP_SIZE) > 0x8030_0008 + HEAP_SIZE
  {
    PoolPassesHeap(0x8030_0008);
  }

  /** It stays inside the heap exactly when the heap's odd bytes cover what alignment skips. */
  lemma PoolInsideHeapIff(heapStart: nat, heapSize: nat)
    requires heapSize / PAGE_SIZE >= RESERVED_PAGES
    ensures PoolEnd(heapStart, heapSize) <= heapStart + heapSize
      <==> AlignPage(heapStart) - heapStart <= heapSize % PAGE_SIZE
  {
  }
}

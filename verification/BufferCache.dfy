/** The block cache (driver/buffer.c). Its lookup never examines the last slot, and `brelse`
    never lowers `refcnt`, so a slot once bound stays bound and the first block read into the
    last slot gets a second slot later. The cache nevertheless behaves like a plain disk: as
    long as one caller holds a block at a time, `bread` returns the bytes last released.

    The transfer of a block is atomic here, as `TransferDoneOnce` of VirtioInvariant allows;
    `virtio_disk_rw` addresses the disk by `block_no` alone, so there is one device. */
module BufferCache {
  import opened PlainDisk
  import opened Wrappers

  const BUFFER_NUM: nat := 30
  const LAST: nat := 29

  datatype Slot = Slot(dev: nat, block: nat, valid: bool, dirty: bool, refcnt: nat, data: Data)

  datatype Cache = Cache(slots: seq<Slot>, disk: map<nat, Data>)

  ghost predicate Sized(c: Cache) { |c.slots| == BUFFER_NUM }

  // ------------------------------------------------------------------- bget

  /** The first loop of `bget`: slots 0 to 28, in order. LAST when it finds nothing. */
  ghost function Lookup(slots: seq<Slot>, dev: nat, block: nat, i: nat): (j: nat)
    requires |slots| == BUFFER_NUM && i <= LAST
    ensures i <= j <= LAST
    ensures j < LAST ==> slots[j].dev == dev && slots[j].block == block
    ensures forall k :: i <= k < j ==> !(slots[k].dev == dev && slots[k].block == block)
    decreases |slots| - i
  {
    if i == LAST || (slots[i].dev == dev && slots[i].block == block) then i
    else Lookup(slots, dev, block, i + 1)
  }

  /** The second loop: the highest slot below `i` that was never bound; None is the panic. */
  ghost function Unbound(slots: seq<Slot>, i: nat): (j: Option<nat>)
    requires i <= |slots|
    ensures j.Some? ==> j.value < i && slots[j.value].refcnt == 0
    ensures j.Some? ==> forall k :: j.value < k < i ==> slots[k].refcnt != 0
    ensures j.None? ==> forall k :: 0 <= k < i ==> slots[k].refcnt != 0
    decreases i
  {
    if i == 0 then None
    else if slots[i - 1].refcnt == 0 then Some(i - 1)
    else Unbound(slots, i - 1)
  }

  ghost function Bound(s: Slot, dev: nat, block: nat): Slot {
    s.(dev := dev, block := block, valid := false, refcnt := s.refcnt + 1)
  }

  /** The slot `bget` returns; None is the panic. */
  ghost function Target(c: Cache, dev: nat, block: nat): Option<nat>
    requires Sized(c)
  {
    var j := Lookup(c.slots, dev, block, 0);
    if j < LAST then Some(j) else Unbound(c.slots, |c.slots|)
  }

  /** `bget`, when it returns slot `j`. */
  ghost function Get(c: Cache, dev: nat, block: nat, j: nat): Cache
    requires Sized(c) && j < BUFFER_NUM
  {
    if Lookup(c.slots, dev, block, 0) < LAST
    then c.(slots := c.slots[j := c.slots[j].(refcnt := c.slots[j].refcnt + 1)])
    else c.(slots := c.slots[j := Bound(c.slots[j], dev, block)])
  }

  /** The read that `bread` adds when the slot is not valid. */
  ghost function Load(c: Cache, j: nat): Cache
    requires Sized(c) && j < BUFFER_NUM
  {
    var s := c.slots[j];
    if s.valid then c
    else c.(slots := c.slots[j := s.(data := BlockAt(c.disk, s.block), valid := true, dirty := false)])
  }

  ghost function Read(c: Cache, dev: nat, block: nat, j: nat): Cache
    requires Sized(c) && j < BUFFER_NUM
  {
    Load(Get(c, dev, block, j), j)
  }

  ghost function Release(c: Cache, j: nat): Cache
    requires Sized(c) && j < BUFFER_NUM
  {
    var s := c.slots[j];
    if s.dirty then Cache(c.slots[j := s.(dirty := false)], c.disk[s.block := s.data]) else c
  }

  // ------------------------------------------------------- transition system

  /** The cache, the plain disk it stands for (the bytes last released for each block), and
      the slot through which each block that has a holder is held. */
  datatype System = System(c: Cache, plain: map<nat, Data>, held: map<nat, nat>)

  datatype Action =
    | BRead(block: nat)
    | Change(block: nat, data: Data)
    | BWrite(block: nat)
    | BRelse(block: nat)

  /** Callers use one device number, not 0, and hold a block one at a time. A panic of `bget`
      ends the run. */
  ghost predicate Enabled(x: System, dev: nat, a: Action) {
    && Sized(x.c)
    && match a
       case BRead(b) => b !in x.held && Target(x.c, dev, b).Some?
       case Change(b, _) => b in x.held && x.held[b] < BUFFER_NUM
       case BWrite(b) => b in x.held && x.held[b] < BUFFER_NUM
       case BRelse(b) => b in x.held && x.held[b] < BUFFER_NUM
  }

  ghost function SetSlot(c: Cache, j: nat, s: Slot): Cache
    requires Sized(c) && j < BUFFER_NUM
  {
    c.(slots := c.slots[j := s])
  }

  ghost function Next(x: System, dev: nat, a: Action): System
    requires Enabled(x, dev, a)
  {
    match a
    case BRead(b) =>
      var j := Target(x.c, dev, b).value;
      x.(c := Read(x.c, dev, b, j), held := x.held[b := j])
    case Change(b, data) =>
      var j := x.held[b];
      x.(c := SetSlot(x.c, j, x.c.slots[j].(data := data)))
    case BWrite(b) =>
      var j := x.held[b];
      x.(c := SetSlot(x.c, j, x.c.slots[j].(dirty := true)))
    case BRelse(b) =>
      var j := x.held[b];
      System(Release(x.c, j), x.plain[b := x.c.slots[j].data], x.held - {b})
  }

  ghost predicate Initial(x: System) {
    && Sized(x.c)
    && (forall i :: 0 <= i < BUFFER_NUM ==> x.c.slots[i] == Slot(0, 0, false, false, 0, x.c.slots[i].data))
    && x.plain == x.c.disk
    && x.held == map[]
  }

  /** What a caller must do: changed bytes are handed to `bwrite` before `brelse`. Only for
      the last slot does it matter. */
  ghost predicate WritesBack(x: System, a: Action)
    requires Sized(x.c)
  {
    a.BRelse? && a.block in x.held && x.held[a.block] == LAST ==>
      x.c.slots[LAST].dirty || x.c.slots[LAST].data == BlockAt(x.plain, a.block)
  }

  ghost predicate Run(xs: seq<System>, dev: nat, acts: seq<Action>) {
    && dev != 0
    && |xs| == |acts| + 1
    && Initial(xs[0])
    && (forall i :: 0 <= i < |acts| ==> Enabled(xs[i], dev, acts[i]) && xs[i + 1] == Next(xs[i], dev, acts[i]))
  }

  // ------------------------------------------------------------ the invariant

  /** Slots are bound from the top down and never unbound; a bound slot is valid. */
  ghost predicate SlotsOk(c: Cache, dev: nat)
    requires Sized(c)
  {
    && (forall i :: 0 <= i < BUFFER_NUM ==>
          if c.slots[i].refcnt == 0 then c.slots[i].dev == 0 else c.slots[i].dev == dev && c.slots[i].valid)
    && (forall i, j :: 0 <= i < j < BUFFER_NUM && c.slots[i].refcnt != 0 ==> c.slots[j].refcnt != 0)
  }

  /** At most one of the slots that the lookup examines holds a block. */
  ghost predicate OneSlotEach(c: Cache)
    requires Sized(c)
  {
    forall i, j :: 0 <= i < j < LAST && c.slots[i].refcnt != 0 && c.slots[j].refcnt != 0 ==> c.slots[i].block != c.slots[j].block
  }

  /** The slot the lookup finds for a block, LAST if none. */
  ghost function Found(x: System, dev: nat, b: nat): nat
    requires Sized(x.c)
  {
    Lookup(x.c.slots, dev, b, 0)
  }

  /** A block has a slot that every later lookup finds, or else the disk itself is current. */
  ghost predicate BlockOk(x: System, dev: nat, b: nat)
    requires Sized(x.c)
  {
    var f := Found(x, dev, b);
    if b in x.held then
      && x.held[b] == f
      && x.c.slots[f].refcnt != 0 && x.c.slots[f].block == b
      && (f == LAST ==> BlockAt(x.c.disk, b) == BlockAt(x.plain, b))
    else if f < LAST then
      x.c.slots[f].data == BlockAt(x.plain, b) && !x.c.slots[f].dirty
    else
      BlockAt(x.c.disk, b) == BlockAt(x.plain, b)
  }

  ghost predicate Invariant(x: System, dev: nat) {
    && dev != 0
    && Sized(x.c)
    && SlotsOk(x.c, dev)
    && OneSlotEach(x.c)
    && (forall b: nat :: BlockOk(x, dev, b))
    && (x.c.slots[LAST].refcnt != 0 && !(x.c.slots[LAST].block in x.held && x.held[x.c.slots[LAST].block] == LAST) ==>
          !x.c.slots[LAST].dirty)
  }

  /** The lookup depends on `dev` and `block` only. */
  lemma {:induction false} LookupSame(slots: seq<Slot>, slots': seq<Slot>, dev: nat, b: nat, i: nat)
    requires |slots| == |slots'| == BUFFER_NUM && i <= LAST
    requires forall k :: i <= k < LAST ==>
      ((slots[k].dev == dev && slots[k].block == b) <==> (slots'[k].dev == dev && slots'[k].block == b))
    ensures Lookup(slots', dev, b, i) == Lookup(slots, dev, b, i)
    decreases LAST - i
  {
    if i < LAST && !(slots[i].dev == dev && slots[i].block == b) {
      LookupSame(slots, slots', dev, b, i + 1);
    }
  }

  lemma LookupUnique(c: Cache, dev: nat, b: nat, i: nat)
    requires Sized(c) && dev != 0 && SlotsOk(c, dev) && OneSlotEach(c)
    requires i < LAST && c.slots[i].refcnt != 0 && c.slots[i].block == b
    ensures Lookup(c.slots, dev, b, 0) == i
  {
    var j := Lookup(c.slots, dev, b, 0);
    assert j <= i;
  }

  /** Rewriting `data`, `dirty` or `refcnt` of a bound slot. */
  lemma SetSlotFound(x: System, dev: nat, j: nat, s: Slot, b: nat)
    requires Sized(x.c) && j < BUFFER_NUM && s.dev == x.c.slots[j].dev && s.block == x.c.slots[j].block
    ensures Found(x.(c := SetSlot(x.c, j, s)), dev, b) == Found(x, dev, b)
  {
    LookupSame(x.c.slots, x.c.slots[j := s], dev, b, 0);
  }

  /** A holder owns its slot: changing it disturbs no other block. */
  lemma HolderKeeps(x: System, dev: nat, b: nat, s: Slot)
    requires Invariant(x, dev) && b in x.held
    requires var j := x.held[b]; j < BUFFER_NUM && s == x.c.slots[j].(data := s.data, dirty := s.dirty)
    ensures Invariant(x.(c := SetSlot(x.c, x.held[b], s)), dev)
  {
    var j := x.held[b];
    var x' := x.(c := SetSlot(x.c, j, s));
    assert BlockOk(x, dev, b);
    forall b': nat ensures BlockOk(x', dev, b') {
      assert BlockOk(x, dev, b');
      SetSlotFound(x, dev, j, s, b');
    }
  }

  lemma ReleaseKeeps(x: System, dev: nat, b: nat)
    requires Invariant(x, dev) && Enabled(x, dev, BRelse(b)) && WritesBack(x, BRelse(b))
    ensures Invariant(Next(x, dev, BRelse(b)), dev)
  {
    var j := x.held[b];
    var x' := Next(x, dev, BRelse(b));
    assert BlockOk(x, dev, b);
    var s := x.c.slots[j];
    assert x'.c.slots == x.c.slots[j := s.(dirty := false)];
    forall b': nat ensures BlockOk(x', dev, b') {
      assert BlockOk(x, dev, b');
      LookupSame(x.c.slots, x'.c.slots, dev, b', 0);
    }
  }

  /** A hit: the slot holds the bytes last released. */
  lemma HitKeeps(x: System, dev: nat, b: nat)
    requires Invariant(x, dev) && Enabled(x, dev, BRead(b)) && Found(x, dev, b) < LAST
    ensures Invariant(Next(x, dev, BRead(b)), dev)
    ensures Next(x, dev, BRead(b)).c.slots[Found(x, dev, b)].data == BlockAt(x.plain, b)
  {
    var j := Found(x, dev, b);
    assert BlockOk(x, dev, b);
    assert x.c.slots[j].refcnt != 0;
    var x' := Next(x, dev, BRead(b));
    var s := x.c.slots[j].(refcnt := x.c.slots[j].refcnt + 1);
    assert x'.c == SetSlot(x.c, j, s);
    forall b': nat ensures BlockOk(x', dev, b') {
      assert BlockOk(x, dev, b');
      SetSlotFound(x, dev, j, s, b');
    }
  }

  /** After a miss the new slot is what the lookup finds, for this block and no other. */
  lemma MissFound(x: System, dev: nat, b: nat, j: nat, s: Slot, b': nat)
    requires Invariant(x, dev) && Found(x, dev, b) == LAST && j < BUFFER_NUM && x.c.slots[j].refcnt == 0
    requires s.dev == dev && s.block == b
    ensures Lookup(x.c.slots[j := s], dev, b', 0) == if b' == b && j < LAST then j else Found(x, dev, b')
  {
    var slots' := x.c.slots[j := s];
    if b' == b && j < LAST {
      var f := Lookup(slots', dev, b, 0);
      assert slots'[j].dev == dev && slots'[j].block == b;
    } else {
      LookupSame(x.c.slots, slots', dev, b', 0);
    }
  }

  lemma MissKeeps(x: System, dev: nat, b: nat)
    requires Invariant(x, dev) && Enabled(x, dev, BRead(b)) && Found(x, dev, b) == LAST
    ensures Invariant(Next(x, dev, BRead(b)), dev)
    ensures Next(x, dev, BRead(b)).c.slots[Target(x.c, dev, b).value].data == BlockAt(x.plain, b)
  {
    var j := Target(x.c, dev, b).value;
    assert BlockOk(x, dev, b);
    var x' := Next(x, dev, BRead(b));
    var s := Slot(dev, b, true, false, 1, BlockAt(x.c.disk, b));
    assert x'.c == x.c.(slots := x.c.slots[j := s]);
    assert SlotsOk(x'.c, dev);
    assert OneSlotEach(x'.c);
    forall b': nat ensures BlockOk(x', dev, b') {
      assert BlockOk(x, dev, b');
      MissFound(x, dev, b, j, s, b');
    }
  }

  // ---------------------------------------------------------------- every run

  lemma NextKeeps(x: System, dev: nat, a: Action)
    requires Invariant(x, dev) && Enabled(x, dev, a) && WritesBack(x, a)
    ensures Invariant(Next(x, dev, a), dev)
  {
    match a
    case BRead(b) =>
      if Found(x, dev, b) < LAST {
        HitKeeps(x, dev, b);
      } else {
        MissKeeps(x, dev, b);
      }
    case Change(b, data) => HolderKeeps(x, dev, b, x.c.slots[x.held[b]].(data := data));
    case BWrite(b) => HolderKeeps(x, dev, b, x.c.slots[x.held[b]].(dirty := true));
    case BRelse(b) => ReleaseKeeps(x, dev, b);
  }

  lemma InitialInvariant(x: System, dev: nat)
    requires Initial(x) && dev != 0
    ensures Invariant(x, dev)
  {
    forall b: nat ensures BlockOk(x, dev, b) {
      NothingFound(x.c.slots, dev, b, 0);
    }
  }

  lemma {:induction false} EveryRunKeeps(xs: seq<System>, dev: nat, acts: seq<Action>, i: nat)
    requires Run(xs, dev, acts) && i < |xs|
    requires forall k :: 0 <= k < |acts| && Sized(xs[k].c) ==> WritesBack(xs[k], acts[k])
    ensures Invariant(xs[i], dev)
    decreases i
  {
    if i == 0 {
      InitialInvariant(xs[0], dev);
    } else {
      EveryRunKeeps(xs, dev, acts, i - 1);
      NextKeeps(xs[i - 1], dev, acts[i - 1]);
    }
  }

  /** Whatever was read, changed, written and released before, `bread` hands out the bytes
      last released for the block, or those of the disk if it never was. */
  lemma ReadsLastReleased(xs: seq<System>, dev: nat, acts: seq<Action>, i: nat)
    requires Run(xs, dev, acts) && i < |acts| && acts[i].BRead?
    requires forall k :: 0 <= k < |acts| && Sized(xs[k].c) ==> WritesBack(xs[k], acts[k])
    ensures var b := acts[i].block;
      && b in xs[i + 1].held && xs[i + 1].held[b] < BUFFER_NUM && |xs[i + 1].c.slots| == BUFFER_NUM
      && xs[i + 1].c.slots[xs[i + 1].held[b]].data == BlockAt(xs[i].plain, b)
  {
    EveryRunKeeps(xs, dev, acts, i);
    var b := acts[i].block;
    if Found(xs[i], dev, b) < LAST {
      HitKeeps(xs[i], dev, b);
    } else {
      MissKeeps(xs[i], dev, b);
    }
  }

  /** The condition is exact: the next reader of a block sees what was released if and only if
      a change in the last slot was handed to `bwrite` first. */
  lemma SeenIffWrittenBack(x: System, dev: nat, b: nat)
    requires Invariant(x, dev) && Enabled(x, dev, BRelse(b)) && Enabled(Next(x, dev, BRelse(b)), dev, BRead(b))
    ensures var x1 := Next(x, dev, BRelse(b));
      var x2 := Next(x1, dev, BRead(b));
      x2.c.slots[x2.held[b]].data == BlockAt(x1.plain, b) <==> WritesBack(x, BRelse(b))
  {
    assert BlockOk(x, dev, b);
    var x1 := Next(x, dev, BRelse(b));
    if WritesBack(x, BRelse(b)) {
      ReleaseKeeps(x, dev, b);
      if Found(x1, dev, b) < LAST {
        HitKeeps(x1, dev, b);
      } else {
        MissKeeps(x1, dev, b);
      }
    } else {
      assert x1.c == x.c;
      assert Found(x1, dev, b) == LAST;
    }
  }

  /** The failing case: the first block ever read, changed, released without `bwrite`, and
      read again comes back unchanged. */
  lemma UnwrittenChangeLost(x: System, dev: nat)
    requires Initial(x) && dev != 0 && x.c.disk == map[]
    ensures Enabled(x, dev, BRead(7))
    ensures var x1 := Next(x, dev, BRead(7));
      && Enabled(x1, dev, Change(7, [1]))
      && var x2 := Next(x1, dev, Change(7, [1]));
      && Enabled(x2, dev, BRelse(7))
      && var x3 := Next(x2, dev, BRelse(7));
      && Enabled(x3, dev, BRead(7))
      && var x4 := Next(x3, dev, BRead(7));
      && BlockAt(x3.plain, 7) == [1]
      && x4.c.slots[x4.held[7]].data == []
  {
    InitialInvariant(x, dev);
    NothingFound(x.c.slots, dev, 7, 0);
    var x1 := Next(x, dev, BRead(7));
    MissKeeps(x, dev, 7);
    var x2 := Next(x1, dev, Change(7, [1]));
    var x3 := Next(x2, dev, BRelse(7));
    NothingFound(x3.c.slots, dev, 7, 0);
    assert Unbound(x3.c.slots, 29) == Some(28);
  }

  lemma {:induction false} NothingFound(slots: seq<Slot>, dev: nat, b: nat, i: nat)
    requires |slots| == BUFFER_NUM && i <= LAST
    requires forall k :: 0 <= k < LAST ==> slots[k].dev != dev
    ensures Lookup(slots, dev, b, i) == LAST
    decreases LAST - i
  {
    if i < LAST {
      NothingFound(slots, dev, b, i + 1);
    }
  }

  // ----------------------------------------------------------------- on the disk

  /** The part of the invariant that needs no caller's care: a held block is held through the slot
      that the lookup finds for it. */
  ghost predicate HeldOk(x: System, dev: nat, b: nat)
    requires Sized(x.c)
  {
    b in x.held ==>
      x.held[b] == Found(x, dev, b) && x.c.slots[x.held[b]].refcnt != 0 && x.c.slots[x.held[b]].block == b
  }

  ghost predicate Sound(x: System, dev: nat) {
    && dev != 0 && Sized(x.c) && SlotsOk(x.c, dev) && OneSlotEach(x.c)
    && (forall b: nat :: HeldOk(x, dev, b))
  }

  lemma HolderSound(x: System, dev: nat, j: nat, s: Slot, x': System)
    requires Sound(x, dev) && j < BUFFER_NUM && s == x.c.slots[j].(data := s.data, dirty := s.dirty)
    requires x'.c.slots == x.c.slots[j := s] && (forall b :: b in x'.held ==> b in x.held && x'.held[b] == x.held[b])
    ensures Sound(x', dev)
  {
    forall b: nat ensures HeldOk(x', dev, b) {
      assert HeldOk(x, dev, b);
      LookupSame(x.c.slots, x'.c.slots, dev, b, 0);
    }
  }

  lemma HitSound(x: System, dev: nat, b: nat, x': System)
    requires Sound(x, dev) && Enabled(x, dev, BRead(b)) && Found(x, dev, b) < LAST && x' == Next(x, dev, BRead(b))
    ensures Sound(x', dev)
    ensures var j := Found(x, dev, b); x'.c == SetSlot(x.c, j, x.c.slots[j].(refcnt := x.c.slots[j].refcnt + 1))
  {
    var j := Found(x, dev, b);
    assert x.c.slots[j].refcnt != 0;
    var s := x.c.slots[j].(refcnt := x.c.slots[j].refcnt + 1);
    assert x'.c == SetSlot(x.c, j, s);
    forall b': nat ensures HeldOk(x', dev, b') {
      assert HeldOk(x, dev, b');
      SetSlotFound(x, dev, j, s, b');
    }
  }

  lemma MissSound(x: System, dev: nat, b: nat, x': System)
    requires Sound(x, dev) && Enabled(x, dev, BRead(b)) && Found(x, dev, b) == LAST && x' == Next(x, dev, BRead(b))
    ensures Sound(x', dev)
    ensures var j := Target(x.c, dev, b).value;
      x.c.slots[j].refcnt == 0 && x'.c == SetSlot(x.c, j, Slot(dev, b, true, false, 1, BlockAt(x.c.disk, b)))
  {
    var j := Target(x.c, dev, b).value;
    var s := Slot(dev, b, true, false, 1, BlockAt(x.c.disk, b));
    assert x'.c == SetSlot(x.c, j, s);
    forall b': nat ensures HeldOk(x', dev, b') {
      assert HeldOk(x, dev, b');
      MissLookup(x, dev, b, j, s, b');
    }
  }

  lemma MissLookup(x: System, dev: nat, b: nat, j: nat, s: Slot, b': nat)
    requires Sound(x, dev) && Found(x, dev, b) == LAST && j < BUFFER_NUM && x.c.slots[j].refcnt == 0
    requires s.dev == dev && s.block == b
    ensures Lookup(x.c.slots[j := s], dev, b', 0) == if b' == b && j < LAST then j else Found(x, dev, b')
  {
    var slots' := x.c.slots[j := s];
    if b' == b && j < LAST {
      assert slots'[j].dev == dev && slots'[j].block == b;
    } else {
      LookupSame(x.c.slots, slots', dev, b', 0);
    }
  }

  lemma ReleaseSound(x: System, dev: nat, b: nat, x': System)
    requires Sound(x, dev) && Enabled(x, dev, BRelse(b)) && x' == Next(x, dev, BRelse(b))
    ensures Sound(x', dev)
  {
    var j := x.held[b];
    assert x'.c.slots == x.c.slots[j := x.c.slots[j].(dirty := false)];
    HolderSound(x, dev, j, x.c.slots[j].(dirty := false), x');
  }

  lemma NextSound(x: System, dev: nat, a: Action, x': System)
    requires Sound(x, dev) && Enabled(x, dev, a) && x' == Next(x, dev, a)
    ensures Sound(x', dev)
  {
    match a
    case BRead(b) =>
      if Found(x, dev, b) < LAST {
        HitSound(x, dev, b, x');
      } else {
        MissSound(x, dev, b, x');
      }
    case Change(b, data) => HolderSound(x, dev, x.held[b], x.c.slots[x.held[b]].(data := data), x');
    case BWrite(b) => HolderSound(x, dev, x.held[b], x.c.slots[x.held[b]].(dirty := true), x');
    case BRelse(b) => ReleaseSound(x, dev, b, x');
  }

  lemma {:induction false} EveryRunSound(xs: seq<System>, dev: nat, acts: seq<Action>, i: nat)
    requires Run(xs, dev, acts) && i < |xs|
    ensures Sound(xs[i], dev)
    decreases i
  {
    if i == 0 {
      InitialInvariant(xs[0], dev);
    } else {
      EveryRunSound(xs, dev, acts, i - 1);
      NextSound(xs[i - 1], dev, acts[i - 1], xs[i]);
    }
  }

  /** What a release leaves on the disk: the bytes the holder had, if the slot was marked by
      `bwrite`, and else what was there; no other block of the disk changes. */
  lemma ReleaseWrites(x: System, dev: nat, b: nat, x': System)
    requires Sound(x, dev) && Enabled(x, dev, BRelse(b)) && x' == Next(x, dev, BRelse(b))
    ensures var s := x.c.slots[x.held[b]]; x'.c.disk == if s.dirty then x.c.disk[b := s.data] else x.c.disk
    ensures BlockAt(x'.plain, b) == x.c.slots[x.held[b]].data
    ensures BlockAt(x'.c.disk, b) == BlockAt(x'.plain, b) <==>
      x.c.slots[x.held[b]].dirty || x.c.slots[x.held[b]].data == BlockAt(x.c.disk, b)
  {
    assert HeldOk(x, dev, b);
  }

  /** `bwrite` and `brelse` put the bytes of the buffer on the disk, and touch no other block. */
  lemma WrittenReachesDisk(x: System, dev: nat, b: nat)
    requires Sound(x, dev) && Enabled(x, dev, BWrite(b))
    ensures var x1 := Next(x, dev, BWrite(b));
      && Enabled(x1, dev, BRelse(b))
      && var x2 := Next(x1, dev, BRelse(b)); x2.c.disk == x.c.disk[b := x.c.slots[x.held[b]].data]
  {
    var x1 := Next(x, dev, BWrite(b));
    NextSound(x, dev, BWrite(b), x1);
    ReleaseWrites(x1, dev, b, Next(x1, dev, BRelse(b)));
  }

  // -------------------------------------------------------------- over whole runs

  /** The block is held, and marked by `bwrite`. */
  ghost predicate Marked(x: System, b: nat) {
    b in x.held && x.held[b] < |x.c.slots| && x.c.slots[x.held[b]].dirty
  }

  ghost predicate OnDisk(x: System, b: nat) { BlockAt(x.c.disk, b) == BlockAt(x.plain, b) }

  /** Held blocks have slots of their own. */
  lemma HeldApart(x: System, dev: nat, b: nat, b': nat)
    requires Sound(x, dev) && b in x.held && b' in x.held && b != b'
    ensures x.held[b] != x.held[b']
  {
    assert HeldOk(x, dev, b) && HeldOk(x, dev, b');
  }

  lemma MarkedStays(x: System, dev: nat, a: Action, x': System, b: nat)
    requires Sound(x, dev) && Enabled(x, dev, a) && x' == Next(x, dev, a) && Marked(x, b) && a != BRelse(b)
    ensures Marked(x', b)
  {
    assert HeldOk(x, dev, b);
    match a
    case BRead(b') =>
      if Found(x, dev, b') < LAST {
        HitSound(x, dev, b', x');
      } else {
        MissSound(x, dev, b', x');
      }
    case Change(b', _) =>
    case BWrite(b') =>
    case BRelse(b') => HeldApart(x, dev, b, b');
  }

  lemma OnDiskStays(x: System, dev: nat, a: Action, x': System, b: nat)
    requires Sound(x, dev) && Enabled(x, dev, a) && x' == Next(x, dev, a) && OnDisk(x, b) && a != BRelse(b)
    ensures OnDisk(x', b)
  {
    if a.BRelse? {
      ReleaseWrites(x, dev, a.block, x');
    }
  }

  lemma {:induction false} MarkedUntil(xs: seq<System>, dev: nat, acts: seq<Action>, w: nat, j: nat, b: nat)
    requires Run(xs, dev, acts) && w < j < |xs| && acts[w] == BWrite(b)
    requires forall i :: w < i < j ==> acts[i] != BRelse(b)
    ensures Marked(xs[j], b)
    decreases j
  {
    EveryRunSound(xs, dev, acts, j - 1);
    if j == w + 1 {
      assert HeldOk(xs[w], dev, b);
    } else {
      MarkedUntil(xs, dev, acts, w, j - 1, b);
      MarkedStays(xs[j - 1], dev, acts[j - 1], xs[j], b);
    }
  }

  lemma {:induction false} OnDiskUntil(xs: seq<System>, dev: nat, acts: seq<Action>, j: nat, i: nat, b: nat)
    requires Run(xs, dev, acts) && j <= i < |xs| && OnDisk(xs[j], b)
    requires forall k :: j <= k < i ==> acts[k] != BRelse(b)
    ensures OnDisk(xs[i], b)
    decreases i
  {
    if j < i {
      OnDiskUntil(xs, dev, acts, j, i - 1, b);
      EveryRunSound(xs, dev, acts, i - 1);
      OnDiskStays(xs[i - 1], dev, acts[i - 1], xs[i], b);
    }
  }

  /** In every run, whatever else callers do: once a block was handed to `bwrite` at step `w` and then
      released at step `j`, the disk has the bytes released, until it is released again. */
  lemma ReleasedIsOnDisk(xs: seq<System>, dev: nat, acts: seq<Action>, w: nat, j: nat, i: nat, b: nat)
    requires Run(xs, dev, acts) && w < j < i < |xs| && acts[w] == BWrite(b) && acts[j] == BRelse(b)
    requires forall k :: w < k < i && k != j ==> acts[k] != BRelse(b)
    ensures BlockAt(xs[i].c.disk, b) == BlockAt(xs[i].plain, b)
  {
    MarkedUntil(xs, dev, acts, w, j, b);
    EveryRunSound(xs, dev, acts, j);
    ReleaseWrites(xs[j], dev, b, xs[j + 1]);
    OnDiskUntil(xs, dev, acts, j + 1, i, b);
  }

  // ------------------------------------------------------------------ the code

  class BlockCache {
    const buf: array<Slot>
    var disk: map<nat, Data>

    ghost predicate Valid()
      reads this, buf
    {
      buf.Length == BUFFER_NUM
    }

    ghost function Abs(): (c: Cache)
      requires Valid()
      reads this, buf
      ensures Sized(c)
    {
      Cache(buf[..], disk)
    }

    /** `Init_buffer`: all slots unbound. */
    constructor (disk: map<nat, Data>)
      ensures Valid() && fresh(buf) && Initial(System(Abs(), disk, map[]))
    {
      buf := new Slot[BUFFER_NUM](_ => Slot(0, 0, false, false, 0, []));
      this.disk := disk;
    }

    /** `bget`; None is the panic. */
    method Bget(dev: nat, block: nat) returns (r: Option<nat>)
      requires Valid()
      modifies buf
      ensures Valid() && r == Target(old(Abs()), dev, block)
      ensures Abs() == if r.Some? then Get(old(Abs()), dev, block, r.value) else old(Abs())
    {
      var i := 0;
      while i < LAST
        invariant 0 <= i <= LAST && buf[..] == old(buf[..])
        invariant Lookup(buf[..], dev, block, i) == Lookup(buf[..], dev, block, 0)
      {
        if buf[i].dev == dev && buf[i].block == block {
          buf[i] := buf[i].(refcnt := buf[i].refcnt + 1);
          return Some(i);
        }
        i := i + 1;
      }
      var j := BUFFER_NUM;
      while j > 0
        invariant 0 <= j <= BUFFER_NUM && buf[..] == old(buf[..])
        invariant Unbound(buf[..], j) == Unbound(buf[..], |buf[..]|)
      {
        j := j - 1;
        if buf[j].refcnt == 0 {
          buf[j] := buf[j].(dev := dev, block := block, valid := false, refcnt := buf[j].refcnt + 1);
          return Some(j);
        }
      }
      return None;
    }

    method Bread(dev: nat, block: nat) returns (r: Option<nat>)
      requires Valid()
      modifies buf
      ensures Valid() && r == Target(old(Abs()), dev, block)
      ensures Abs() == if r.Some? then Read(old(Abs()), dev, block, r.value) else old(Abs())
    {
      r := Bget(dev, block);
      if r.Some? && !buf[r.value].valid {
        var s := buf[r.value];
        buf[r.value] := s.(data := BlockAt(disk, s.block), valid := true, dirty := false);
      }
    }

    method Bwrite(j: nat)
      requires Valid() && j < BUFFER_NUM
      modifies buf
      ensures Valid() && Abs() == SetSlot(old(Abs()), j, old(buf[j]).(dirty := true))
    {
      buf[j] := buf[j].(dirty := true);
    }

    method Brelse(j: nat)
      requires Valid() && j < BUFFER_NUM
      modifies this`disk, buf
      ensures Valid() && Abs() == Release(old(Abs()), j)
    {
      if buf[j].dirty {
        disk := disk[buf[j].block := buf[j].data];
        buf[j] := buf[j].(dirty := false);
      }
    }
  }
}

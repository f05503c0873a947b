/** The driver side of the queue as `driver/virtio.c` runs it, in place on `disk.free[]`,
    `disk.desc[]`, the rings and `disk.info[]`. Every method is proved to do exactly the step
    of VirtioModel, and the panics of `free_desc` and of the handler to be unreachable. */
module VirtioDriver {
  import opened PlainDisk
  import opened VirtioModel
  import opened VirtioInvariant
  import opened Wrappers

  datatype Index = Index(h0: nat, h1: nat, h2: nat)

  /** All entries of the used ring that the handler finds, one after the other. */
  ghost function HandleAll(s: State): (s': State)
    requires Invariant(s)
    ensures Invariant(s') && !CanHandle(s')
    ensures s'.calls == s.calls
    decreases |s.h.comps| - s.h.handled
  {
    if CanHandle(s) then
      HandlerFindsBuffer(s);
      HandleKeeps(s);
      HandleAll(Handle(s))
    else s
  }

  /** Nothing was published, transferred or completed. */
  ghost function NoHistory(disk: map<nat, Data>): History {
    History([], 0, [], 0, seq(QUEUE_SIZE, _ => NULL), seq(QUEUE_SIZE, _ => Idle), seq(QUEUE_SIZE, _ => 0), disk, [])
  }

  class VirtDisk {
    const free: array<bool>
    const desc: array<Desc>
    const ops: array<Req>
    const info: array<Info>
    const availRing: array<nat>
    const usedRing: array<nat>
    var availIdx: nat
    var usedIdx: nat
    var usedSeen: nat
    var bufs: map<Ref, Buffer>
    ghost var q: Queue

    ghost predicate Valid()
      reads this, free, desc, ops, info, availRing, usedRing
    {
      && Sized(q)
      && availRing != usedRing
      && q.free == free[..]
      && q.desc == desc[..]
      && q.ops == ops[..]
      && q.info == info[..]
      && q.availRing == availRing[..]
      && q.usedRing == usedRing[..]
      && q.availIdx == availIdx && q.usedIdx == usedIdx && q.usedSeen == usedSeen
    }

    /** The queue as `virtio_disk_init` leaves it: the page is cleared and all descriptors are
        free. With a device that has seen nothing, no call and idle buffers, it is an initial
        state of VirtioModel. */
    constructor (bufs: map<Ref, Buffer>, ghost disk: map<nat, Data>)
      requires NULL !in bufs && forall b :: b in bufs ==> !bufs[b].disk
      ensures Valid() && this.bufs == bufs
      ensures Initial(State(q, Device(0, {}, disk), bufs, map[], NoHistory(disk), false))
      ensures fresh(free) && fresh(desc) && fresh(ops) && fresh(info) && fresh(availRing) && fresh(usedRing)
    {
      free := new bool[QUEUE_SIZE](_ => true);
      desc := new Desc[QUEUE_SIZE](_ => ZERO_DESC);
      ops := new Req[QUEUE_SIZE](_ => Req(false, 0));
      info := new Info[QUEUE_SIZE](_ => Info(NULL, 0));
      availRing := new nat[QUEUE_SIZE](_ => 0);
      usedRing := new nat[QUEUE_SIZE](_ => 0);
      availIdx, usedIdx, usedSeen := 0, 0, 0;
      this.bufs := bufs;
      new;
      q := Queue(free[..], desc[..], ops[..], info[..], availRing[..], 0, usedRing[..], 0, 0);
    }

    /** `alloc_desc`; -1 when no descriptor is free. */
    method AllocDesc() returns (i: int)
      requires Valid()
      modifies this`q, free
      ensures Valid()
      ensures i == (if FirstFree(old(q).free, 0) < QUEUE_SIZE then FirstFree(old(q).free, 0) else -1)
      ensures q == if i >= 0 then old(q).(free := old(q).free[i := false]) else old(q)
    {
      i := 0;
      while i < QUEUE_SIZE
        invariant 0 <= i <= QUEUE_SIZE && Valid() && q == old(q)
        invariant FirstFree(q.free, i) == FirstFree(q.free, 0)
      {
        if free[i] {
          free[i] := false;
          q := q.(free := q.free[i := false]);
          return;
        }
        i := i + 1;
      }
      i := -1;
    }

    /** `free_desc` on a descriptor in use; its two panics are excluded by the caller. */
    method FreeOne(i: nat)
      requires Valid() && i < QUEUE_SIZE && !q.free[i]
      modifies this`q, free, desc
      ensures Valid() && q == FreeDesc(old(q), i)
    {
      desc[i] := ZERO_DESC;
      free[i] := true;
      q := FreeDesc(q, i);
    }

    /** `alloc_descs`: three descriptors, or nothing and no change. */
    method AllocDescs() returns (r: Option<Index>)
      requires Valid() && (forall i :: 0 <= i < QUEUE_SIZE && q.free[i] ==> q.desc[i] == ZERO_DESC)
      modifies this`q, free, desc
      ensures Valid() && (r.Some? <==> ThreeFree(old(q).free))
      ensures r.None? ==> q == old(q)
      ensures r.Some? ==>
        && r.value == Index(FirstFree(old(q).free, 0), Second(old(q).free), Third(old(q).free))
        && q == old(q).(free := old(q).free[r.value.h0 := false][r.value.h1 := false][r.value.h2 := false])
    {
      var i0 := AllocDesc();
      if i0 == -1 {
        return None;
      }
      var i1 := AllocDesc();
      if i1 == -1 {
        FreeOne(i0);
        assert q.free == old(q).free && q.desc == old(q).desc;
        return None;
      }
      var i2 := AllocDesc();
      if i2 == -1 {
        FreeOne(i0);
        FreeOne(i1);
        assert q.free == old(q).free && q.desc == old(q).desc;
        return None;
      }
      return Some(Index(i0, i1, i2));
    }

    /** Filling the descriptors and publishing the head: the locked part of `virtio_disk_rw`. */
    method Fill(x: Index, b: Ref, write: bool, sector: nat)
      requires Valid() && x.h0 < QUEUE_SIZE && x.h1 < QUEUE_SIZE && x.h2 < QUEUE_SIZE
      requires !q.free[x.h0] && !q.free[x.h1] && !q.free[x.h2]
      modifies this`q, this`availIdx, desc, ops, info, availRing
      ensures Valid() && q == Publish(old(q), x.h0, x.h1, x.h2, b, write, sector)
    {
      ops[x.h0] := Req(write, sector);
      desc[x.h0] := Desc(OpsAt(x.h0), REQ_SIZE, false, true, x.h1);
      desc[x.h1] := Desc(DataOf(b), BLOCK_SIZE, !write, true, x.h2);
      desc[x.h2] := Desc(StatusAt(x.h0), 1, true, false, 0);
      info[x.h0] := Info(b, 255);
      availRing[availIdx % QUEUE_SIZE] := x.h0;
      availIdx := (availIdx + 1) % IDX_SIZE;
      q := Publish(q, x.h0, x.h1, x.h2, b, write, sector);
    }

    /** `virtio_disk_rw` up to its wait loop; None is "try again later". */
    method Begin(b: Ref, write: bool, ghost s: State) returns (r: Option<Index>)
      requires Valid() && Invariant(s) && s.q == q && s.bufs == bufs && b in bufs && b !in s.calls
      modifies this`q, this`availIdx, this`bufs, free, desc, ops, info, availRing
      ensures Valid() && (r.Some? <==> Enabled(s, SubmitCall(b, write)))
      ensures r.None? ==> q == s.q && bufs == s.bufs
      ensures r.Some? ==>
        && q == Submit(s, b, write).q && bufs == Submit(s, b, write).bufs
        && Submit(s, b, write).calls[b].h0 == r.value.h0
    {
      forall i: nat | i < QUEUE_SIZE && q.free[i] ensures q.desc[i] == ZERO_DESC {
        assert OwnerOk(s, i);
      }
      r := AllocDescs();
      if r.Some? {
        ThreeFreeDistinct(s.q.free);
        Fill(r.value, b, write, bufs[b].blockNo);
        bufs := bufs[b := bufs[b].(disk := true)];
      }
    }

    /** `free_chain`. */
    method FreeChainFrom(head: nat)
      requires Valid() && FreeChain(q, head).Freed?
      modifies this`q, free, desc
      ensures Valid() && FreeChain(old(q), head) == Freed(q)
    {
      var i := head;
      while true
        invariant Valid() && FreeChain(q, i).Freed? && FreeChain(q, i) == FreeChain(old(q), head)
        decreases InUse(q.free, |q.free|)
      {
        var d := desc[i];
        FreeingLowersInUse(q.free, |q.free|, i);
        FreeOne(i);
        if d.chained {
          i := d.next;
        } else {
          return;
        }
      }
    }

    /** `virtio_disk_rw` after its wait loop. */
    method End(b: Ref, h0: nat, ghost s: State)
      requires Valid() && Invariant(s) && s.q == q && s.bufs == bufs && CanFinish(s, b) && s.calls[b].h0 == h0
      modifies this`q, free, desc, info
      ensures Valid() && q == Finish(s, b).q && Invariant(Finish(s, b))
    {
      FinishFrees(s, b);
      FinishKeeps(s, b);
      info[h0] := info[h0].(buf := NULL);
      q := q.(info := q.info[h0 := q.info[h0].(buf := NULL)]);
      FreeChainFrom(h0);
    }

    /** One used-ring entry: the status is 0 and the buffer is there. */
    method Acknowledge(ghost s: State)
      requires Valid() && Invariant(s) && s.q == q && s.bufs == bufs && CanHandle(s)
      modifies this`q, this`usedSeen, this`bufs
      ensures Valid() && q == Handle(s).q && bufs == Handle(s).bufs
    {
      HandlerFindsBuffer(s);
      var id := usedRing[usedSeen % QUEUE_SIZE];
      assert info[id].status == 0;
      var buf := info[id].buf;
      assert buf != NULL;
      bufs := bufs[buf := bufs[buf].(disk := false)];
      usedSeen := (usedSeen + 1) % IDX_SIZE;
      q := q.(usedSeen := usedSeen);
    }

    /** `virtio_disk_interrupt_handler`. */
    method Interrupt(ghost s: State)
      requires Valid() && Invariant(s) && s.q == q && s.bufs == bufs
      modifies this`q, this`usedSeen, this`bufs
      ensures Valid() && q == HandleAll(s).q && bufs == HandleAll(s).bufs
    {
      ghost var x := s;
      while usedSeen != usedIdx
        invariant Valid() && Invariant(x) && x.q == q && x.bufs == bufs
        invariant HandleAll(x) == HandleAll(s)
        decreases |x.h.comps| - x.h.handled
      {
        HandlerFindsBuffer(x);
        HandleKeeps(x);
        Acknowledge(x);
        x := Handle(x);
      }
    }
  }
}

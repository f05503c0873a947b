/** The block device queue (driver/virtio.c, include/disk/virtio.h; the split virtqueue of
    section 2.6 and the block requests of section 5.2.6 of VIRTIO 1.1): threads submit
    requests, a device serves them in any order, the interrupt handler acknowledges them, and
    the threads then give their descriptors back. Every critical section is one step, and
    each used-ring entry the handler takes is one step, so the device may run in between. */
module VirtioModel {
  import opened PlainDisk

  const QUEUE_SIZE: nat := 8
  const IDX_SIZE: nat := 65536
  const BLOCK_SIZE: nat := 512
  const REQ_SIZE: nat := 16

  type Ref = nat
  const NULL: Ref := 0

  /** What a descriptor points at: `disk.ops[i]`, `buf->data`, `disk.info[i].status`. */
  datatype Addr = Zero | OpsAt(i: nat) | DataOf(b: Ref) | StatusAt(i: nat)

  /** `next` is meaningful when flag VIRTQ_DESC_F_NEXT (`chained`) is set; `writable` is
      VIRTQ_DESC_F_WRITE. */
  datatype Desc = Desc(addr: Addr, len: nat, writable: bool, chained: bool, next: nat)
  const ZERO_DESC := Desc(Zero, 0, false, false, 0)

  datatype Req = Req(write: bool, sector: nat)
  datatype Info = Info(buf: Ref, status: nat)

  /** The memory the driver shares with the device, and `free[]`, `info[]`, `used_idx`. */
  datatype Queue = Queue(
    free: seq<bool>,
    desc: seq<Desc>,
    ops: seq<Req>,
    info: seq<Info>,
    availRing: seq<nat>,
    availIdx: nat,
    usedRing: seq<nat>,
    usedIdx: nat,
    usedSeen: nat)

  /** The device: how far it has read the available ring, what it is working on, its blocks. */
  datatype Device = Device(availSeen: nat, pending: set<nat>, disk: map<nat, Data>)

  datatype Buffer = Buffer(disk: bool, blockNo: nat, data: Data)

  /** A thread inside `virtio_disk_rw`: its `index[]`, its request, and for the record the
      length of the log and the buffer contents when it submitted. */
  datatype Call = Call(h0: nat, h1: nat, h2: nat, write: bool, sector: nat, start: nat, data: Data)

  /** One transfer that the device carried out. */
  datatype Transfer = Transfer(b: Ref, write: bool, sector: nat, data: Data)

  datatype Stage = Idle | Published | Pending | Completed | Acked

  /** For the record: everything ever published and completed, how much of it was taken, who
      owns a descriptor, the stage of the request a head starts, its place in `pubs` or
      `comps`, the blocks at the start, and all transfers. */
  datatype History = History(
    pubs: seq<nat>,
    popped: nat,
    comps: seq<nat>,
    handled: nat,
    owner: seq<Ref>,
    stage: seq<Stage>,
    place: seq<nat>,
    disk0: map<nat, Data>,
    log: seq<Transfer>)

  datatype State = State(
    q: Queue,
    dev: Device,
    bufs: map<Ref, Buffer>,
    calls: map<Ref, Call>,
    h: History,
    fault: bool)

  // -------------------------------------------------------------- descriptors

  /** `alloc_desc`: the lowest free descriptor from `i` on; QUEUE_SIZE if there is none. */
  ghost function FirstFree(free: seq<bool>, i: nat): (j: nat)
    requires |free| == QUEUE_SIZE && i <= QUEUE_SIZE
    ensures i <= j <= QUEUE_SIZE
    ensures j < QUEUE_SIZE ==> free[j]
    ensures forall k :: i <= k < j ==> !free[k]
    decreases |free| - i
  {
    if i == QUEUE_SIZE || free[i] then i else FirstFree(free, i + 1)
  }

  ghost function Second(free: seq<bool>): nat
    requires |free| == QUEUE_SIZE && FirstFree(free, 0) < QUEUE_SIZE
  {
    FirstFree(free[FirstFree(free, 0) := false], 0)
  }

  ghost function Third(free: seq<bool>): nat
    requires |free| == QUEUE_SIZE && FirstFree(free, 0) < QUEUE_SIZE && Second(free) < QUEUE_SIZE
  {
    FirstFree(free[FirstFree(free, 0) := false][Second(free) := false], 0)
  }

  /** Can `alloc_descs` get three? */
  ghost predicate ThreeFree(free: seq<bool>)
    requires |free| == QUEUE_SIZE
  {
    FirstFree(free, 0) < QUEUE_SIZE && Second(free) < QUEUE_SIZE && Third(free) < QUEUE_SIZE
  }

  // -------------------------------------------------------------------- shape

  ghost predicate Sized(q: Queue) {
    && |q.free| == QUEUE_SIZE
    && |q.desc| == QUEUE_SIZE
    && |q.ops| == QUEUE_SIZE
    && |q.info| == QUEUE_SIZE
    && |q.availRing| == QUEUE_SIZE
    && |q.usedRing| == QUEUE_SIZE
  }

  ghost predicate WellFormed(s: State) {
    && Sized(s.q)
    && |s.h.owner| == QUEUE_SIZE
    && |s.h.stage| == QUEUE_SIZE
    && |s.h.place| == QUEUE_SIZE
  }

  // ------------------------------------------------------------------- submit

  /** Filling the three descriptors, the request header and `info`, and publishing the head. */
  ghost function Publish(q: Queue, h0: nat, h1: nat, h2: nat, b: Ref, write: bool, sector: nat): Queue
    requires Sized(q) && h0 < QUEUE_SIZE && h1 < QUEUE_SIZE && h2 < QUEUE_SIZE
  {
    q.(free := q.free[h0 := false][h1 := false][h2 := false],
       ops := q.ops[h0 := Req(write, sector)],
       desc := q.desc[h0 := Desc(OpsAt(h0), REQ_SIZE, false, true, h1)]
                     [h1 := Desc(DataOf(b), BLOCK_SIZE, !write, true, h2)]
                     [h2 := Desc(StatusAt(h0), 1, true, false, 0)],
       info := q.info[h0 := Info(b, 255)],
       availRing := q.availRing[q.availIdx % QUEUE_SIZE := h0],
       availIdx := (q.availIdx + 1) % IDX_SIZE)
  }

  /** `virtio_disk_rw` up to its wait loop, when three descriptors are free. */
  ghost function Submit(s: State, b: Ref, write: bool): State
    requires WellFormed(s) && b in s.bufs && ThreeFree(s.q.free)
  {
    var h0 := FirstFree(s.q.free, 0);
    var h1 := Second(s.q.free);
    var h2 := Third(s.q.free);
    var sector := s.bufs[b].blockNo;
    s.(q := Publish(s.q, h0, h1, h2, b, write, sector),
       bufs := s.bufs[b := s.bufs[b].(disk := true)],
       calls := s.calls[b := Call(h0, h1, h2, write, sector, |s.h.log|, s.bufs[b].data)],
       h := s.h.(pubs := s.h.pubs + [h0],
                 owner := s.h.owner[h0 := b][h1 := b][h2 := b],
                 stage := s.h.stage[h0 := Published],
                 place := s.h.place[h0 := |s.h.pubs|]))
  }

  // ------------------------------------------------------------------- device

  ghost predicate CanPop(s: State) {
    s.dev.availSeen != s.q.availIdx
  }

  /** The device takes the next entry of the available ring. */
  ghost function Pop(s: State): State
    requires WellFormed(s)
  {
    var head := s.q.availRing[s.dev.availSeen % QUEUE_SIZE];
    if head >= QUEUE_SIZE then s.(fault := true)
    else
      s.(dev := s.dev.(availSeen := (s.dev.availSeen + 1) % IDX_SIZE, pending := s.dev.pending + {head}),
         h := s.h.(popped := s.h.popped + 1, stage := s.h.stage[head := Pending]))
  }

  /** What the device finds when it follows a chain: header, data buffer, status byte. */
  ghost predicate ReadsRequest(s: State, head: nat)
    requires WellFormed(s)
  {
    && head < QUEUE_SIZE
    && var d0 := s.q.desc[head];
    && d0.chained && d0.next < QUEUE_SIZE && d0.addr.OpsAt? && d0.addr.i < QUEUE_SIZE && d0.len == REQ_SIZE
    && var d1 := s.q.desc[d0.next];
    && d1.chained && d1.next < QUEUE_SIZE && d1.addr.DataOf? && d1.addr.b in s.bufs && d1.len == BLOCK_SIZE
    && d1.writable == !s.q.ops[d0.addr.i].write
    && var d2 := s.q.desc[d1.next];
    && !d2.chained && d2.addr.StatusAt? && d2.addr.i < QUEUE_SIZE && d2.len == 1 && d2.writable
  }

  /** The transfer that the chain describes, with the bytes that move. */
  ghost function Decoded(s: State, head: nat): Transfer
    requires WellFormed(s) && ReadsRequest(s, head)
  {
    var req := s.q.ops[s.q.desc[head].addr.i];
    var b := s.q.desc[s.q.desc[head].next].addr.b;
    Transfer(b, req.write, req.sector,
             if req.write then s.bufs[b].data else BlockAt(s.dev.disk, req.sector))
  }

  /** The device serves a request it holds: moves the block, stores status 0, and enters the
      head in the used ring. */
  ghost function Complete(s: State, head: nat): State
    requires WellFormed(s)
  {
    if !ReadsRequest(s, head) then s.(fault := true)
    else
      var t := Decoded(s, head);
      var st := s.q.desc[s.q.desc[s.q.desc[head].next].next].addr.i;
      s.(q := s.q.(info := s.q.info[st := s.q.info[st].(status := 0)],
                   usedRing := s.q.usedRing[s.q.usedIdx % QUEUE_SIZE := head],
                   usedIdx := (s.q.usedIdx + 1) % IDX_SIZE),
         dev := s.dev.(pending := s.dev.pending - {head},
                       disk := if t.write then s.dev.disk[t.sector := t.data] else s.dev.disk),
         bufs := if t.write then s.bufs else s.bufs[t.b := s.bufs[t.b].(data := t.data)],
         h := s.h.(comps := s.h.comps + [head],
                   stage := s.h.stage[head := Completed],
                   place := s.h.place[head := |s.h.comps|],
                   log := s.h.log + [t]))
  }

  // ------------------------------------------------------------------ handler

  ghost predicate CanHandle(s: State) {
    s.q.usedSeen != s.q.usedIdx
  }

  /** One iteration of the loop of `virtio_disk_interrupt_handler`. */
  ghost function Handle(s: State): State
    requires WellFormed(s)
  {
    var id := s.q.usedRing[s.q.usedSeen % QUEUE_SIZE];
    if id >= QUEUE_SIZE || s.q.info[id].status != 0 || s.q.info[id].buf !in s.bufs then s.(fault := true)
    else
      var b := s.q.info[id].buf;
      s.(q := s.q.(usedSeen := (s.q.usedSeen + 1) % IDX_SIZE),
         bufs := s.bufs[b := s.bufs[b].(disk := false)],
         h := s.h.(handled := s.h.handled + 1, stage := s.h.stage[id := Acked]))
  }

  // ------------------------------------------------------------------- finish

  /** `free_desc`. */
  ghost function FreeDesc(q: Queue, i: nat): Queue
    requires Sized(q) && i < QUEUE_SIZE
  {
    q.(desc := q.desc[i := ZERO_DESC], free := q.free[i := true])
  }

  /** The number of descriptors in use below `i`. */
  ghost function InUse(free: seq<bool>, i: nat): nat
    requires i <= |free|
    decreases i
  {
    if i == 0 then 0 else InUse(free, i - 1) + (if free[i - 1] then 0 else 1)
  }

  lemma {:induction false} FreeingLowersInUse(free: seq<bool>, i: nat, j: nat)
    requires i <= |free| && j < |free| && !free[j]
    ensures InUse(free[j := true], i) == InUse(free, i) - (if j < i then 1 else 0)
    decreases i
  {
    if i != 0 {
      FreeingLowersInUse(free, i - 1, j);
    }
  }

  datatype Freed = Freed(q: Queue) | Panic

  /** `free_chain`: Panic where `free_desc` panics or indexes past the table. */
  ghost function FreeChain(q: Queue, i: nat): Freed
    requires Sized(q)
    decreases InUse(q.free, |q.free|)
  {
    if i >= QUEUE_SIZE || q.free[i] then Panic
    else
      FreeingLowersInUse(q.free, |q.free|, i);
      var d := q.desc[i];
      if d.chained then FreeChain(FreeDesc(q, i), d.next) else Freed(FreeDesc(q, i))
  }

  ghost predicate CanFinish(s: State, b: Ref) {
    b in s.calls && b in s.bufs && !s.bufs[b].disk
  }

  /** `virtio_disk_rw` after its wait loop. */
  ghost function Finish(s: State, b: Ref): State
    requires WellFormed(s) && CanFinish(s, b)
  {
    var c := s.calls[b];
    if c.h0 >= QUEUE_SIZE then s.(fault := true)
    else
      match FreeChain(s.q.(info := s.q.info[c.h0 := s.q.info[c.h0].(buf := NULL)]), c.h0)
      case Panic => s.(fault := true)
      case Freed(q) =>
        s.(q := q,
           calls := s.calls - {b},
           h := s.h.(owner := seq(QUEUE_SIZE, i requires 0 <= i < QUEUE_SIZE => if s.h.owner[i] == b then NULL else s.h.owner[i]),
                     stage := s.h.stage[c.h0 := Idle]))
  }

  // -------------------------------------------------------- transition system

  /** `Touch` is the owner of a buffer that is in no request changing it. */
  datatype Action =
    | SubmitCall(b: Ref, write: bool)
    | PopEntry
    | CompleteRequest(head: nat)
    | HandleEntry
    | FinishCall(b: Ref)
    | Touch(b: Ref, blockNo: nat, data: Data)

  /** A submitter that does not get three descriptors tries again later: no step. A buffer is
      in one request at a time, as the cache hands it to one holder. */
  ghost predicate Enabled(s: State, a: Action) {
    && WellFormed(s)
    && match a
       case SubmitCall(b, _) => b in s.bufs && b !in s.calls && ThreeFree(s.q.free)
       case PopEntry => CanPop(s)
       case CompleteRequest(head) => head in s.dev.pending
       case HandleEntry => CanHandle(s)
       case FinishCall(b) => CanFinish(s, b)
       case Touch(b, _, _) => b in s.bufs && b !in s.calls
  }

  ghost function Next(s: State, a: Action): State
    requires Enabled(s, a)
  {
    match a
    case SubmitCall(b, write) => Submit(s, b, write)
    case PopEntry => Pop(s)
    case CompleteRequest(head) => Complete(s, head)
    case HandleEntry => Handle(s)
    case FinishCall(b) => Finish(s, b)
    case Touch(b, blockNo, data) => s.(bufs := s.bufs[b := s.bufs[b].(blockNo := blockNo, data := data)])
  }

  ghost predicate Initial(s: State) {
    && WellFormed(s)
    && (forall i :: 0 <= i < QUEUE_SIZE ==> s.q.free[i] && s.q.desc[i] == ZERO_DESC)
    && (forall i :: 0 <= i < QUEUE_SIZE ==> s.h.owner[i] == NULL && s.h.stage[i].Idle?)
    && s.q.availIdx == s.q.usedIdx == s.q.usedSeen == s.dev.availSeen == 0
    && s.dev.pending == {}
    && NULL !in s.bufs
    && (forall b :: b in s.bufs ==> !s.bufs[b].disk)
    && s.calls == map[]
    && s.h.pubs == s.h.comps == []
    && s.h.popped == s.h.handled == 0
    && s.h.log == []
    && s.h.disk0 == s.dev.disk
    && !s.fault
  }

  ghost predicate Run(ss: seq<State>, acts: seq<Action>) {
    && |ss| == |acts| + 1
    && Initial(ss[0])
    && (forall i :: 0 <= i < |acts| ==> Enabled(ss[i], acts[i]) && ss[i + 1] == Next(ss[i], acts[i]))
  }
}

/** What every interleaving of submitters, device and interrupt handler keeps: chains in
    flight are disjoint three-descriptor lists, `free[]` is their complement, neither ring
    loses an unread entry although the 16-bit indices wrap, no panic is reachable, and every
    call of `virtio_disk_rw` performs its own transfer exactly once between entry and return,
    against a plain sequential disk. */
module VirtioInvariant {
  import opened PlainDisk
  import opened VirtioModel
  import opened Arith

  // -------------------------------------------------------------- the invariant

  /** The unread part `[lo, hi)` of an endless sequence of heads, kept in a ring of eight. */
  ghost predicate RingHolds(ring: seq<nat>, all: seq<nat>, lo: nat) {
    && |ring| == QUEUE_SIZE
    && lo <= |all|
    && (forall i :: lo <= i < |all| ==> all[i] < QUEUE_SIZE && ring[i % QUEUE_SIZE] == all[i])
  }

  /** The heads at one stage are exactly those in the unread part, each once. */
  ghost predicate StageIs(stage: seq<Stage>, place: seq<nat>, all: seq<nat>, lo: nat, x: Stage) {
    && |stage| == |place| == QUEUE_SIZE
    && lo <= |all|
    && (forall i :: lo <= i < |all| ==> all[i] < QUEUE_SIZE && stage[all[i]] == x && place[all[i]] == i)
    && (forall h :: 0 <= h < QUEUE_SIZE && stage[h] == x ==> lo <= place[h] < |all| && all[place[h]] == h)
  }

  ghost predicate AvailOk(s: State) {
    && s.q.availIdx == |s.h.pubs| % IDX_SIZE
    && s.dev.availSeen == s.h.popped % IDX_SIZE
    && RingHolds(s.q.availRing, s.h.pubs, s.h.popped)
    && StageIs(s.h.stage, s.h.place, s.h.pubs, s.h.popped, Published)
  }

  ghost predicate UsedOk(s: State) {
    && s.q.usedIdx == |s.h.comps| % IDX_SIZE
    && s.q.usedSeen == s.h.handled % IDX_SIZE
    && RingHolds(s.q.usedRing, s.h.comps, s.h.handled)
    && StageIs(s.h.stage, s.h.place, s.h.comps, s.h.handled, Completed)
  }

  ghost predicate PendingOk(s: State)
    requires WellFormed(s)
  {
    forall h: nat :: h in s.dev.pending <==> h < QUEUE_SIZE && s.h.stage[h].Pending?
  }

  ghost predicate Uses(c: Call, i: nat) {
    i == c.h0 || i == c.h1 || i == c.h2
  }

  /** A descriptor is free exactly when no call owns it; a free one is zeroed. */
  ghost predicate OwnerOk(s: State, i: nat)
    requires WellFormed(s) && i < QUEUE_SIZE
  {
    && (s.q.free[i] <==> s.h.owner[i] == NULL)
    && (s.q.free[i] ==> s.q.desc[i] == ZERO_DESC && s.h.stage[i].Idle?)
    && (s.h.owner[i] != NULL ==> s.h.owner[i] in s.calls && Uses(s.calls[s.h.owner[i]], i))
    && (!s.h.stage[i].Idle? ==> s.h.owner[i] != NULL && s.calls[s.h.owner[i]].h0 == i)
  }

  ghost predicate OwnersOk(s: State)
    requires WellFormed(s)
  {
    forall i: nat :: i < QUEUE_SIZE ==> OwnerOk(s, i)
  }

  /** The three descriptors of a call, and the owner entries that keep calls apart. */
  ghost predicate ChainOk(s: State, b: Ref)
    requires WellFormed(s) && b in s.calls
  {
    var c := s.calls[b];
    && c.h0 < QUEUE_SIZE && c.h1 < QUEUE_SIZE && c.h2 < QUEUE_SIZE
    && c.h0 != c.h1 && c.h0 != c.h2 && c.h1 != c.h2
    && s.h.owner[c.h0] == b && s.h.owner[c.h1] == b && s.h.owner[c.h2] == b
    && s.q.desc[c.h0] == Desc(OpsAt(c.h0), REQ_SIZE, false, true, c.h1)
    && s.q.desc[c.h1] == Desc(DataOf(b), BLOCK_SIZE, !c.write, true, c.h2)
    && s.q.desc[c.h2] == Desc(StatusAt(c.h0), 1, true, false, 0)
    && s.q.ops[c.h0] == Req(c.write, c.sector)
  }

  ghost predicate Served(x: Stage) { x.Completed? || x.Acked? }

  /** `buf->disk`, `info[].buf` and `info[].status` agree with the stage of the request. */
  ghost predicate StatusOk(s: State, b: Ref)
    requires WellFormed(s) && b in s.calls && s.calls[b].h0 < QUEUE_SIZE
  {
    var c := s.calls[b];
    && b != NULL
    && b in s.bufs
    && s.q.info[c.h0].buf == b
    && !s.h.stage[c.h0].Idle?
    && (s.bufs[b].disk <==> !s.h.stage[c.h0].Acked?)
    && (s.q.info[c.h0].status == 0 <==> Served(s.h.stage[c.h0]))
  }

  /** Entry `j` of the log is the transfer of this call, and its only one. */
  ghost predicate DoneAt(s: State, b: Ref, j: nat)
    requires b in s.calls && b in s.bufs
  {
    var c := s.calls[b];
    && c.start <= j < |s.h.log|
    && s.h.log[j] == Transfer(b, c.write, c.sector, if c.write then c.data else s.bufs[b].data)
    && (forall i :: c.start <= i < |s.h.log| && s.h.log[i].b == b ==> i == j)
  }

  ghost predicate LogOk(s: State, b: Ref)
    requires WellFormed(s) && b in s.calls && s.calls[b].h0 < QUEUE_SIZE && b in s.bufs
  {
    var c := s.calls[b];
    && c.start <= |s.h.log|
    && (Served(s.h.stage[c.h0]) ==> exists j :: DoneAt(s, b, j))
    && (!Served(s.h.stage[c.h0]) ==>
          s.bufs[b].data == c.data && forall i :: c.start <= i < |s.h.log| ==> s.h.log[i].b != b)
  }

  ghost predicate CallOk(s: State, b: Ref)
    requires WellFormed(s) && b in s.calls
  {
    ChainOk(s, b) && StatusOk(s, b) && LogOk(s, b)
  }

  ghost predicate CallsOk(s: State)
    requires WellFormed(s)
  {
    forall b {:trigger CallOk(s, b)} :: b in s.calls ==> CallOk(s, b)
  }

  // ------------------------------------------------------------ the plain disk

  /** A disk after the writes of a log. */
  ghost function After(disk: map<nat, Data>, log: seq<Transfer>): map<nat, Data>
    decreases |log|
  {
    if log == [] then disk
    else
      var t := log[|log| - 1];
      var before := After(disk, log[..|log| - 1]);
      if t.write then before[t.sector := t.data] else before
  }

  /** Every read of the log returns what the writes before it left. */
  ghost predicate Sequential(disk: map<nat, Data>, log: seq<Transfer>) {
    forall j :: 0 <= j < |log| && !log[j].write ==> log[j].data == BlockAt(After(disk, log[..j]), log[j].sector)
  }

  ghost predicate DiskOk(s: State) {
    s.dev.disk == After(s.h.disk0, s.h.log) && Sequential(s.h.disk0, s.h.log)
  }

  ghost predicate Invariant(s: State) {
    && WellFormed(s)
    && !s.fault
    && NULL !in s.bufs
    && AvailOk(s)
    && UsedOk(s)
    && PendingOk(s)
    && OwnersOk(s)
    && CallsOk(s)
    && DiskOk(s)
  }

  // ------------------------------------------------------------------ the rings

  lemma IdxResidue(n: nat)
    ensures (n % IDX_SIZE) % QUEUE_SIZE == n % QUEUE_SIZE
    ensures (n % IDX_SIZE + 1) % IDX_SIZE == (n + 1) % IDX_SIZE
  {
  }

  ghost function Below(n: nat): (s: set<nat>)
    ensures |s| == n
    ensures forall i: nat :: i in s <==> i < n
    decreases n
  {
    if n == 0 then {} else Below(n - 1) + {n - 1}
  }

  /** Distinct numbers out of a set are no more than the set has. */
  lemma {:induction false} DistinctFit(xs: seq<nat>, room: set<nat>)
    requires forall i :: 0 <= i < |xs| ==> xs[i] in room
    requires forall i, j :: 0 <= i < j < |xs| ==> xs[i] != xs[j]
    ensures |xs| <= |room|
    decreases xs
  {
    if xs != [] {
      DistinctFit(xs[1..], room - {xs[0]});
    }
  }

  lemma UnreadFitsIn(stage: seq<Stage>, place: seq<nat>, all: seq<nat>, lo: nat, x: Stage, room: set<nat>)
    requires StageIs(stage, place, all, lo, x)
    requires forall h: nat :: h < QUEUE_SIZE && stage[h] == x ==> h in room
    ensures |all| - lo <= |room|
  {
    var xs := all[lo..];
    forall i | 0 <= i < |xs| ensures xs[i] == all[lo + i] && xs[i] in room {}
    forall i, j | 0 <= i < j < |xs| ensures xs[i] != xs[j] {
      assert xs[i] == all[lo + i] && xs[j] == all[lo + j];
    }
    DistinctFit(xs, room);
  }

  /** The unread part of a ring is never longer than the ring, and shorter while some head is
      elsewhere. */
  lemma UnreadFits(stage: seq<Stage>, place: seq<nat>, all: seq<nat>, lo: nat, x: Stage, h: nat)
    requires StageIs(stage, place, all, lo, x)
    ensures |all| - lo <= QUEUE_SIZE
    ensures h < QUEUE_SIZE && stage[h] != x ==> |all| - lo < QUEUE_SIZE
  {
    var room := Below(QUEUE_SIZE);
    UnreadFitsIn(stage, place, all, lo, x, room);
    if h < QUEUE_SIZE && stage[h] != x {
      UnreadFitsIn(stage, place, all, lo, x, room - {h});
    }
  }

  /** Appending to a ring that is not full overwrites nothing unread. */
  lemma PushRing(ring: seq<nat>, all: seq<nat>, lo: nat, idx: nat, h: nat)
    requires RingHolds(ring, all, lo) && |all| - lo < QUEUE_SIZE && h < QUEUE_SIZE && idx == |all| % IDX_SIZE
    ensures RingHolds(ring[idx % QUEUE_SIZE := h], all + [h], lo)
  {
    IdxResidue(|all|);
    var ring' := ring[idx % QUEUE_SIZE := h];
    forall i | lo <= i < |all| + 1 ensures ring'[i % QUEUE_SIZE] == (all + [h])[i] {
      if i < |all| {
        ResiduesDiffer(i, |all|, QUEUE_SIZE);
      }
    }
  }

  lemma PushStage(stage: seq<Stage>, place: seq<nat>, all: seq<nat>, lo: nat, x: Stage, h: nat)
    requires StageIs(stage, place, all, lo, x) && h < QUEUE_SIZE && stage[h] != x
    ensures StageIs(stage[h := x], place[h := |all|], all + [h], lo, x)
  {
  }

  /** The reader of a ring takes its oldest entry. */
  lemma TakeStage(stage: seq<Stage>, place: seq<nat>, all: seq<nat>, lo: nat, x: Stage, y: Stage)
    requires StageIs(stage, place, all, lo, x) && lo < |all| && y != x
    ensures StageIs(stage[all[lo] := y], place, all, lo + 1, x)
  {
  }

  /** A change of stage that does not involve `x`. */
  lemma OtherStage(stage: seq<Stage>, place: seq<nat>, all: seq<nat>, lo: nat, x: Stage, h: nat, y: Stage, p: nat)
    requires StageIs(stage, place, all, lo, x) && h < QUEUE_SIZE && stage[h] != x && y != x
    ensures StageIs(stage[h := y], place[h := p], all, lo, x)
    ensures StageIs(stage[h := y], place, all, lo, x)
  {
  }

  /** Comparing wrapped indices is comparing the true counts. */
  lemma IdxCompare(lo: nat, hi: nat)
    requires lo <= hi <= lo + QUEUE_SIZE
    ensures lo % IDX_SIZE == hi % IDX_SIZE <==> lo == hi
  {
    if lo < hi {
      ResiduesDiffer(lo, hi, IDX_SIZE);
    }
  }

  // -------------------------------------------------------------------- frames

  /** Everything that the record of a call speaks of is unchanged, the log aside. */
  ghost predicate Untouched(s: State, s': State, r: Ref)
    requires WellFormed(s) && WellFormed(s') && r in s.calls
  {
    var c := s.calls[r];
    && c.h0 < QUEUE_SIZE && c.h1 < QUEUE_SIZE && c.h2 < QUEUE_SIZE
    && r in s'.calls && s'.calls[r] == c
    && s'.h.owner[c.h0] == s.h.owner[c.h0] && s'.h.owner[c.h1] == s.h.owner[c.h1] && s'.h.owner[c.h2] == s.h.owner[c.h2]
    && s'.q.desc[c.h0] == s.q.desc[c.h0] && s'.q.desc[c.h1] == s.q.desc[c.h1] && s'.q.desc[c.h2] == s.q.desc[c.h2]
    && s'.q.ops[c.h0] == s.q.ops[c.h0]
    && s'.q.info[c.h0] == s.q.info[c.h0]
    && s'.h.stage[c.h0] == s.h.stage[c.h0]
    && r in s.bufs && r in s'.bufs && s'.bufs[r] == s.bufs[r]
  }

  lemma UntouchedCallOk(s: State, s': State, r: Ref)
    requires WellFormed(s) && WellFormed(s') && r in s.calls && CallOk(s, r) && Untouched(s, s', r)
    requires |s.h.log| <= |s'.h.log| && s'.h.log[..|s.h.log|] == s.h.log
    requires forall i :: |s.h.log| <= i < |s'.h.log| ==> s'.h.log[i].b != r
    ensures CallOk(s', r)
  {
    var n := |s.h.log|;
    assert forall i :: 0 <= i < n ==> s'.h.log[i] == s.h.log[i] by {
      assert forall i :: 0 <= i < n ==> s'.h.log[..n][i] == s'.h.log[i];
    }
    if Served(s.h.stage[s.calls[r].h0]) {
      var j :| DoneAt(s, r, j);
      assert DoneAt(s', r, j);
    }
  }

  /** The descriptors of a call are in use. */
  lemma CallInUse(s: State, r: Ref)
    requires WellFormed(s) && OwnersOk(s) && r in s.calls && CallOk(s, r)
    ensures var c := s.calls[r]; !s.q.free[c.h0] && !s.q.free[c.h1] && !s.q.free[c.h2] && r != NULL
  {
    var c := s.calls[r];
    assert OwnerOk(s, c.h0) && OwnerOk(s, c.h1) && OwnerOk(s, c.h2);
  }

  // ------------------------------------------------------------------- submit

  /** The three descriptors that a submitter gets are free and distinct. */
  lemma ThreeFreeDistinct(free: seq<bool>)
    requires |free| == QUEUE_SIZE && ThreeFree(free)
    ensures var h0, h1, h2 := FirstFree(free, 0), Second(free), Third(free);
      && free[h0] && free[h1] && free[h2]
      && h0 != h1 && h0 != h2 && h1 != h2
  {
    var h0 := FirstFree(free, 0);
    var f1 := free[h0 := false];
    var h1 := FirstFree(f1, 0);
    assert f1[h1] && h1 != h0;
    var f2 := f1[h1 := false];
    var h2 := FirstFree(f2, 0);
    assert f2[h2] && h2 != h1 && h2 != h0;
  }

  /** A state after a submission, with the descriptors named. */
  ghost predicate Submitted(s: State, b: Ref, write: bool, h0: nat, h1: nat, h2: nat, s': State)
    requires WellFormed(s)
  {
    && b in s.bufs && b !in s.calls
    && h0 < QUEUE_SIZE && h1 < QUEUE_SIZE && h2 < QUEUE_SIZE
    && s.q.free[h0] && s.q.free[h1] && s.q.free[h2]
    && h0 != h1 && h0 != h2 && h1 != h2
    && var sector := s.bufs[b].blockNo;
    && s'.q == Publish(s.q, h0, h1, h2, b, write, sector)
    && s'.dev == s.dev
    && s'.bufs == s.bufs[b := s.bufs[b].(disk := true)]
    && s'.calls == s.calls[b := Call(h0, h1, h2, write, sector, |s.h.log|, s.bufs[b].data)]
    && s'.h == s.h.(pubs := s.h.pubs + [h0],
                    owner := s.h.owner[h0 := b][h1 := b][h2 := b],
                    stage := s.h.stage[h0 := Published],
                    place := s.h.place[h0 := |s.h.pubs|])
    && s'.fault == s.fault
  }

  lemma SubmitAvail(s: State, b: Ref, write: bool, h0: nat, h1: nat, h2: nat, s': State)
    requires Invariant(s) && Submitted(s, b, write, h0, h1, h2, s') && OwnerOk(s, h0)
    ensures AvailOk(s')
  {
    UnreadFits(s.h.stage, s.h.place, s.h.pubs, s.h.popped, Published, h0);
    PushRing(s.q.availRing, s.h.pubs, s.h.popped, s.q.availIdx, h0);
    PushStage(s.h.stage, s.h.place, s.h.pubs, s.h.popped, Published, h0);
    IdxResidue(|s.h.pubs|);
  }

  lemma SubmitRings(s: State, b: Ref, write: bool, h0: nat, h1: nat, h2: nat, s': State)
    requires Invariant(s) && Submitted(s, b, write, h0, h1, h2, s')
    ensures AvailOk(s') && UsedOk(s')
  {
    assert OwnerOk(s, h0);
    SubmitAvail(s, b, write, h0, h1, h2, s');
    OtherStage(s.h.stage, s.h.place, s.h.comps, s.h.handled, Completed, h0, Published, |s.h.pubs|);
  }

  lemma SubmitOwner(s: State, b: Ref, write: bool, h0: nat, h1: nat, h2: nat, s': State, i: nat)
    requires WellFormed(s) && i < QUEUE_SIZE && OwnerOk(s, i)
    requires Submitted(s, b, write, h0, h1, h2, s') && b != NULL && WellFormed(s')
    requires OwnerOk(s, h0) && OwnerOk(s, h1) && OwnerOk(s, h2)
    ensures OwnerOk(s', i)
  {
    if i != h0 && i != h1 && i != h2 {
      SubmitFrame(s, b, write, h0, h1, h2, s', i);
    }
  }

  lemma SubmitOwners(s: State, b: Ref, write: bool, h0: nat, h1: nat, h2: nat, s': State)
    requires Invariant(s) && Submitted(s, b, write, h0, h1, h2, s') && b != NULL
    ensures WellFormed(s') && OwnersOk(s') && PendingOk(s')
  {
    assert OwnerOk(s, h0) && OwnerOk(s, h1) && OwnerOk(s, h2);
    forall i | 0 <= i < QUEUE_SIZE ensures OwnerOk(s', i) {
      SubmitOwner(s, b, write, h0, h1, h2, s', i);
    }
  }

  lemma SubmitFrame(s: State, b: Ref, write: bool, h0: nat, h1: nat, h2: nat, s': State, i: nat)
    requires WellFormed(s) && Submitted(s, b, write, h0, h1, h2, s') && WellFormed(s')
    requires i < QUEUE_SIZE && i != h0 && i != h1 && i != h2
    ensures s'.h.owner[i] == s.h.owner[i] && s'.q.desc[i] == s.q.desc[i] && s'.q.ops[i] == s.q.ops[i]
    ensures s'.q.info[i] == s.q.info[i] && s'.h.stage[i] == s.h.stage[i]
  {
  }

  lemma SubmitOtherCall(s: State, b: Ref, write: bool, h0: nat, h1: nat, h2: nat, s': State, r: Ref)
    requires WellFormed(s) && OwnersOk(s) && r in s.calls && CallOk(s, r)
    requires Submitted(s, b, write, h0, h1, h2, s') && WellFormed(s')
    ensures r in s'.calls && CallOk(s', r)
  {
    CallInUse(s, r);
    var c := s.calls[r];
    SubmitFrame(s, b, write, h0, h1, h2, s', c.h0);
    SubmitFrame(s, b, write, h0, h1, h2, s', c.h1);
    SubmitFrame(s, b, write, h0, h1, h2, s', c.h2);
    assert Untouched(s, s', r);
    UntouchedCallOk(s, s', r);
  }

  lemma SubmitNewCall(s: State, b: Ref, write: bool, h0: nat, h1: nat, h2: nat, s': State)
    requires Invariant(s) && Submitted(s, b, write, h0, h1, h2, s') && WellFormed(s') && b != NULL
    ensures b in s'.calls && CallOk(s', b)
  {
  }

  lemma SubmitKeeps(s: State, b: Ref, write: bool)
    requires Invariant(s) && Enabled(s, SubmitCall(b, write))
    ensures Invariant(Submit(s, b, write))
  {
    ThreeFreeDistinct(s.q.free);
    var h0, h1, h2 := FirstFree(s.q.free, 0), Second(s.q.free), Third(s.q.free);
    SubmittedKeeps(s, b, write, h0, h1, h2, Submit(s, b, write));
  }

  lemma SubmittedKeeps(s: State, b: Ref, write: bool, h0: nat, h1: nat, h2: nat, s': State)
    requires Invariant(s) && Submitted(s, b, write, h0, h1, h2, s')
    ensures Invariant(s')
  {
    SubmitRings(s, b, write, h0, h1, h2, s');
    SubmitOwners(s, b, write, h0, h1, h2, s');
    SubmitNewCall(s, b, write, h0, h1, h2, s');
    forall r | r in s'.calls ensures CallOk(s', r) {
      if r != b {
        assert CallOk(s, r);
        SubmitOtherCall(s, b, write, h0, h1, h2, s', r);
      }
    }
  }

  // ---------------------------------------------------------------------- pop

  /** The call whose request starts at a head that is not idle. */
  lemma HeadOwner(s: State, head: nat)
    requires Invariant(s) && head < QUEUE_SIZE && !s.h.stage[head].Idle?
    ensures var r := s.h.owner[head]; r in s.calls && s.calls[r].h0 == head && CallOk(s, r) && r in s.bufs && r != NULL
    ensures forall r :: r in s.calls && s.calls[r].h0 == head ==> r == s.h.owner[head]
  {
    assert OwnerOk(s, head);
    var r := s.h.owner[head];
    assert CallOk(s, r);
    forall b | b in s.calls && s.calls[b].h0 == head ensures b == r {
      assert CallOk(s, b);
    }
  }

  lemma PopTakes(s: State)
    requires Invariant(s) && CanPop(s)
    ensures s.h.popped < |s.h.pubs| && s.q.availRing[s.dev.availSeen % QUEUE_SIZE] == s.h.pubs[s.h.popped]
    ensures s.h.pubs[s.h.popped] < QUEUE_SIZE && s.h.stage[s.h.pubs[s.h.popped]].Published?
  {
    UnreadFits(s.h.stage, s.h.place, s.h.pubs, s.h.popped, Published, 0);
    IdxCompare(s.h.popped, |s.h.pubs|);
    IdxResidue(s.h.popped);
  }

  /** Only the stage of one busy head changes, between stages that mean the same for its call. */
  ghost predicate Restaged(s: State, s': State, head: nat, y: Stage)
    requires WellFormed(s)
  {
    && head < QUEUE_SIZE
    && !s.h.stage[head].Idle? && !y.Idle?
    && WellFormed(s')
    && s'.h.stage == s.h.stage[head := y]
    && s'.h.owner == s.h.owner && s'.calls == s.calls && s'.h.log == s.h.log && s'.h.disk0 == s.h.disk0
    && s'.q.free == s.q.free && s'.q.desc == s.q.desc && s'.q.ops == s.q.ops && s'.q.info == s.q.info
    && s'.dev.disk == s.dev.disk && s'.fault == s.fault
  }

  lemma RestagedOwners(s: State, s': State, head: nat, y: Stage)
    requires Invariant(s) && Restaged(s, s', head, y)
    ensures OwnersOk(s')
  {
    forall i: nat | i < QUEUE_SIZE ensures OwnerOk(s', i) {
      assert OwnerOk(s, i);
    }
  }

  lemma RestagedOther(s: State, s': State, head: nat, y: Stage, r: Ref)
    requires Invariant(s) && Restaged(s, s', head, y) && r in s.calls && r != s.h.owner[head]
    requires r in s.bufs && r in s'.bufs && s'.bufs[r] == s.bufs[r]
    ensures CallOk(s', r)
  {
    assert CallOk(s, r);
    assert Untouched(s, s', r);
    UntouchedCallOk(s, s', r);
  }

  lemma PopRings(s: State)
    requires Invariant(s) && CanPop(s)
    ensures AvailOk(Pop(s)) && UsedOk(Pop(s))
  {
    PopTakes(s);
    var head := s.h.pubs[s.h.popped];
    TakeStage(s.h.stage, s.h.place, s.h.pubs, s.h.popped, Published, Pending);
    OtherStage(s.h.stage, s.h.place, s.h.comps, s.h.handled, Completed, head, Pending, 0);
    IdxResidue(s.h.popped);
  }

  lemma PopKeeps(s: State)
    requires Invariant(s) && CanPop(s)
    ensures Invariant(Pop(s))
  {
    PopTakes(s);
    PopRings(s);
    var s' := Pop(s);
    var head := s.h.pubs[s.h.popped];
    HeadOwner(s, head);
    assert Restaged(s, s', head, Pending);
    RestagedOwners(s, s', head, Pending);
    forall r | r in s'.calls ensures CallOk(s', r) {
      assert CallOk(s, r);
      if r != s.h.owner[head] {
        RestagedOther(s, s', head, Pending, r);
      } else {
        assert s'.bufs == s.bufs;
      }
    }
  }

  // ----------------------------------------------------------------- complete

  /** The device always finds the request that the owner of the chain made. */
  lemma DeviceReadsTheRequest(s: State, head: nat)
    requires Invariant(s) && head in s.dev.pending
    ensures head < QUEUE_SIZE && s.h.stage[head].Pending?
    ensures ReadsRequest(s, head)
    ensures var r := s.h.owner[head];
      && r in s.calls && r in s.bufs && s.calls[r].h0 == head
      && Decoded(s, head) == Transfer(r, s.calls[r].write, s.calls[r].sector,
           if s.calls[r].write then s.calls[r].data else BlockAt(s.dev.disk, s.calls[r].sector))
      && s.q.desc[s.q.desc[s.q.desc[head].next].next].addr.i == head
  {
    assert head < QUEUE_SIZE && s.h.stage[head].Pending?;
    HeadOwner(s, head);
  }

  /** A state after the device served the request at `head`. */
  ghost predicate Serviced(s: State, head: nat, r: Ref, t: Transfer, s': State)
    requires WellFormed(s)
  {
    && head < QUEUE_SIZE && r in s.calls && r in s.bufs && t.b == r
    && s'.q == s.q.(info := s.q.info[head := s.q.info[head].(status := 0)],
                    usedRing := s.q.usedRing[s.q.usedIdx % QUEUE_SIZE := head],
                    usedIdx := (s.q.usedIdx + 1) % IDX_SIZE)
    && s'.dev == s.dev.(pending := s.dev.pending - {head},
                        disk := if t.write then s.dev.disk[t.sector := t.data] else s.dev.disk)
    && s'.bufs == (if t.write then s.bufs else s.bufs[r := s.bufs[r].(data := t.data)])
    && s'.calls == s.calls
    && s'.h == s.h.(comps := s.h.comps + [head],
                    stage := s.h.stage[head := Completed],
                    place := s.h.place[head := |s.h.comps|],
                    log := s.h.log + [t])
    && s'.fault == s.fault
  }

  lemma ServicedRings(s: State, head: nat, r: Ref, t: Transfer, s': State)
    requires Invariant(s) && Serviced(s, head, r, t, s') && s.h.stage[head].Pending?
    ensures AvailOk(s') && UsedOk(s')
  {
    UnreadFits(s.h.stage, s.h.place, s.h.comps, s.h.handled, Completed, head);
    PushRing(s.q.usedRing, s.h.comps, s.h.handled, s.q.usedIdx, head);
    PushStage(s.h.stage, s.h.place, s.h.comps, s.h.handled, Completed, head);
    OtherStage(s.h.stage, s.h.place, s.h.pubs, s.h.popped, Published, head, Completed, |s.h.comps|);
    IdxResidue(|s.h.comps|);
  }

  lemma ServicedOwners(s: State, head: nat, r: Ref, t: Transfer, s': State)
    requires Invariant(s) && Serviced(s, head, r, t, s') && s.h.stage[head].Pending?
    ensures WellFormed(s') && OwnersOk(s') && PendingOk(s')
  {
    forall i: nat | i < QUEUE_SIZE ensures OwnerOk(s', i) {
      assert OwnerOk(s, i);
    }
  }

  lemma ServicedOther(s: State, head: nat, r: Ref, t: Transfer, s': State, b: Ref)
    requires Invariant(s) && Serviced(s, head, r, t, s') && WellFormed(s') && r == s.h.owner[head]
    requires b in s.calls && b != r
    ensures CallOk(s', b)
  {
    assert CallOk(s, b);
    assert s'.h.log[..|s.h.log|] == s.h.log;
    assert Untouched(s, s', b);
    UntouchedCallOk(s, s', b);
  }

  lemma ServicedOwn(s: State, head: nat, r: Ref, t: Transfer, s': State)
    requires Invariant(s) && Serviced(s, head, r, t, s') && WellFormed(s') && s.calls[r].h0 == head && s.h.stage[head].Pending?
    requires t == Transfer(r, s.calls[r].write, s.calls[r].sector, if s.calls[r].write then s.calls[r].data else t.data)
    ensures CallOk(s', r)
  {
    assert CallOk(s, r);
    assert DoneAt(s', r, |s.h.log|);
  }

  lemma ServicedDisk(s: State, head: nat, r: Ref, t: Transfer, s': State)
    requires Invariant(s) && Serviced(s, head, r, t, s')
    requires !t.write ==> t.data == BlockAt(s.dev.disk, t.sector)
    ensures DiskOk(s')
  {
    var log, log' := s.h.log, s'.h.log;
    assert log'[..|log'| - 1] == log;
    forall j | 0 <= j < |log'| && !log'[j].write
      ensures log'[j].data == BlockAt(After(s.h.disk0, log'[..j]), log'[j].sector)
    {
      assert log'[..j] == log[..j];
    }
  }

  lemma ServicedKeeps(s: State, head: nat, r: Ref, t: Transfer, s': State)
    requires Invariant(s) && Serviced(s, head, r, t, s') && s.h.stage[head].Pending? && r == s.h.owner[head] && s.calls[r].h0 == head
    requires t == Transfer(r, s.calls[r].write, s.calls[r].sector,
                           if s.calls[r].write then s.calls[r].data else BlockAt(s.dev.disk, s.calls[r].sector))
    ensures Invariant(s')
  {
    ServicedRings(s, head, r, t, s');
    ServicedOwners(s, head, r, t, s');
    ServicedOwn(s, head, r, t, s');
    ServicedDisk(s, head, r, t, s');
    forall b | b in s'.calls ensures CallOk(s', b) {
      if b != r {
        ServicedOther(s, head, r, t, s', b);
      }
    }
  }

  lemma CompleteKeeps(s: State, head: nat)
    requires Invariant(s) && head in s.dev.pending
    ensures Invariant(Complete(s, head))
  {
    DeviceReadsTheRequest(s, head);
    ServicedKeeps(s, head, s.h.owner[head], Decoded(s, head), Complete(s, head));
  }

  // ------------------------------------------------------------------- handle

  /** The handler finds status 0 and the buffer of a waiting call. */
  lemma HandlerFindsBuffer(s: State)
    requires Invariant(s) && CanHandle(s)
    ensures s.h.handled < |s.h.comps| && s.q.usedRing[s.q.usedSeen % QUEUE_SIZE] == s.h.comps[s.h.handled]
    ensures var id := s.h.comps[s.h.handled];
      && id < QUEUE_SIZE && s.h.stage[id].Completed?
      && s.q.info[id].status == 0 && s.q.info[id].buf == s.h.owner[id]
      && s.q.info[id].buf != NULL && s.q.info[id].buf in s.calls && s.q.info[id].buf in s.bufs
  {
    UnreadFits(s.h.stage, s.h.place, s.h.comps, s.h.handled, Completed, 0);
    IdxCompare(s.h.handled, |s.h.comps|);
    IdxResidue(s.h.handled);
    HeadOwner(s, s.h.comps[s.h.handled]);
  }

  lemma HandleRings(s: State)
    requires Invariant(s) && CanHandle(s)
    ensures AvailOk(Handle(s)) && UsedOk(Handle(s))
  {
    HandlerFindsBuffer(s);
    var id := s.h.comps[s.h.handled];
    TakeStage(s.h.stage, s.h.place, s.h.comps, s.h.handled, Completed, Acked);
    OtherStage(s.h.stage, s.h.place, s.h.pubs, s.h.popped, Published, id, Acked, 0);
    IdxResidue(s.h.handled);
  }

  lemma HandleOwn(s: State)
    requires Invariant(s) && CanHandle(s) && s.h.handled < |s.h.comps| && s.h.comps[s.h.handled] < QUEUE_SIZE
    requires WellFormed(Handle(s))
    ensures var r := s.h.owner[s.h.comps[s.h.handled]]; r in Handle(s).calls && CallOk(Handle(s), r)
  {
    HandlerFindsBuffer(s);
    var id := s.h.comps[s.h.handled];
    HeadOwner(s, id);
    var r := s.h.owner[id];
    var j :| DoneAt(s, r, j);
    assert DoneAt(Handle(s), r, j);
  }

  lemma HandleKeeps(s: State)
    requires Invariant(s) && CanHandle(s)
    ensures Invariant(Handle(s))
  {
    HandlerFindsBuffer(s);
    HandleRings(s);
    var s' := Handle(s);
    var id := s.h.comps[s.h.handled];
    assert Restaged(s, s', id, Acked);
    RestagedOwners(s, s', id, Acked);
    HandleOwn(s);
    forall r | r in s'.calls ensures CallOk(s', r) {
      assert CallOk(s, r);
      if r != s.h.owner[id] {
        RestagedOther(s, s', id, Acked, r);
      }
    }
  }

  // ------------------------------------------------------------------- finish

  /** Three descriptors given back. */
  ghost function Free3(q: Queue, h0: nat, h1: nat, h2: nat): Queue
    requires Sized(q) && h0 < QUEUE_SIZE && h1 < QUEUE_SIZE && h2 < QUEUE_SIZE
  {
    FreeDesc(FreeDesc(FreeDesc(q, h0), h1), h2)
  }

  /** `free_chain` on a chain in flight frees exactly its three descriptors, without panic. */
  lemma FreeChainFreesThree(q: Queue, h0: nat, h1: nat, h2: nat)
    requires Sized(q) && h0 < QUEUE_SIZE && h1 < QUEUE_SIZE && h2 < QUEUE_SIZE
    requires h0 != h1 && h0 != h2 && h1 != h2 && !q.free[h0] && !q.free[h1] && !q.free[h2]
    requires q.desc[h0].chained && q.desc[h0].next == h1
    requires q.desc[h1].chained && q.desc[h1].next == h2
    requires !q.desc[h2].chained
    ensures FreeChain(q, h0) == Freed(Free3(q, h0, h1, h2))
  {
    var q1 := FreeDesc(q, h0);
    var q2 := FreeDesc(q1, h1);
    assert FreeChain(q2, h2) == Freed(FreeDesc(q2, h2));
    assert FreeChain(q1, h1) == FreeChain(q2, h2);
    assert FreeChain(q, h0) == FreeChain(q1, h1);
  }

  lemma FinishFrees(s: State, b: Ref)
    requires Invariant(s) && CanFinish(s, b)
    ensures var c := s.calls[b];
      && c.h0 < QUEUE_SIZE && c.h1 < QUEUE_SIZE && c.h2 < QUEUE_SIZE && s.h.stage[c.h0].Acked?
      && var q := s.q.(info := s.q.info[c.h0 := s.q.info[c.h0].(buf := NULL)]);
      && FreeChain(q, c.h0) == Freed(Free3(q, c.h0, c.h1, c.h2))
  {
    assert CallOk(s, b);
    CallInUse(s, b);
    var c := s.calls[b];
    FreeChainFreesThree(s.q.(info := s.q.info[c.h0 := s.q.info[c.h0].(buf := NULL)]), c.h0, c.h1, c.h2);
  }

  /** A state after the call on `b` gave its descriptors back. */
  ghost predicate Finished(s: State, b: Ref, s': State)
    requires WellFormed(s)
  {
    && b in s.calls
    && var c := s.calls[b];
    && c.h0 < QUEUE_SIZE && c.h1 < QUEUE_SIZE && c.h2 < QUEUE_SIZE
    && s'.q == Free3(s.q.(info := s.q.info[c.h0 := s.q.info[c.h0].(buf := NULL)]), c.h0, c.h1, c.h2)
    && s'.dev == s.dev && s'.bufs == s.bufs && s'.calls == s.calls - {b} && s'.fault == s.fault
    && |s'.h.owner| == QUEUE_SIZE
    && (forall i :: 0 <= i < QUEUE_SIZE ==> s'.h.owner[i] == if s.h.owner[i] == b then NULL else s.h.owner[i])
    && s'.h == s.h.(owner := s'.h.owner, stage := s.h.stage[c.h0 := Idle])
  }

  lemma FinishedRings(s: State, b: Ref, s': State)
    requires Invariant(s) && Finished(s, b, s') && s.h.stage[s.calls[b].h0].Acked?
    ensures AvailOk(s') && UsedOk(s')
  {
    var h0 := s.calls[b].h0;
    OtherStage(s.h.stage, s.h.place, s.h.pubs, s.h.popped, Published, h0, Idle, 0);
    OtherStage(s.h.stage, s.h.place, s.h.comps, s.h.handled, Completed, h0, Idle, 0);
  }

  lemma FinishFrame(s: State, b: Ref, s': State, i: nat)
    requires WellFormed(s) && Finished(s, b, s') && WellFormed(s') && i < QUEUE_SIZE && !Uses(s.calls[b], i) && s.h.owner[i] != b
    ensures s'.h.owner[i] == s.h.owner[i] && s'.q.free[i] == s.q.free[i] && s'.q.desc[i] == s.q.desc[i]
    ensures s'.q.ops[i] == s.q.ops[i] && s'.q.info[i] == s.q.info[i] && s'.h.stage[i] == s.h.stage[i]
  {
  }

  lemma FinishFreed(s: State, b: Ref, s': State, i: nat)
    requires WellFormed(s) && Finished(s, b, s') && WellFormed(s') && i < QUEUE_SIZE && Uses(s.calls[b], i) && s.h.owner[i] == b
    ensures s'.h.owner[i] == NULL && s'.q.free[i] && s'.q.desc[i] == ZERO_DESC
    ensures s'.h.stage[i] == if i == s.calls[b].h0 then Idle else s.h.stage[i]
  {
  }

  lemma FinishedOwner(s: State, b: Ref, s': State, i: nat)
    requires WellFormed(s) && b in s.calls && CallOk(s, b) && i < QUEUE_SIZE && OwnerOk(s, i)
    requires Finished(s, b, s') && WellFormed(s')
    ensures OwnerOk(s', i)
  {
    if s.h.owner[i] == b {
      FinishFreed(s, b, s', i);
    } else {
      FinishFrame(s, b, s', i);
    }
  }

  lemma FinishedOther(s: State, b: Ref, s': State, r: Ref)
    requires WellFormed(s) && b in s.calls && CallOk(s, b) && r in s.calls && CallOk(s, r) && r != b
    requires Finished(s, b, s') && WellFormed(s')
    ensures r in s'.calls && CallOk(s', r)
  {
    var c := s.calls[r];
    FinishFrame(s, b, s', c.h0);
    FinishFrame(s, b, s', c.h1);
    FinishFrame(s, b, s', c.h2);
    assert Untouched(s, s', r);
    UntouchedCallOk(s, s', r);
  }

  lemma FinishedCalls(s: State, b: Ref, s': State)
    requires WellFormed(s) && CallsOk(s) && Finished(s, b, s') && WellFormed(s')
    ensures CallsOk(s')
  {
    assert CallOk(s, b);
    forall r | r in s'.calls ensures CallOk(s', r) {
      assert CallOk(s, r);
      FinishedOther(s, b, s', r);
    }
  }

  lemma FinishedKeeps(s: State, b: Ref, s': State)
    requires Invariant(s) && Finished(s, b, s') && s.h.stage[s.calls[b].h0].Acked?
    ensures Invariant(s')
  {
    FinishedRings(s, b, s');
    assert CallOk(s, b);
    forall i: nat | i < QUEUE_SIZE ensures OwnerOk(s', i) {
      assert OwnerOk(s, i);
      FinishedOwner(s, b, s', i);
    }
    FinishedCalls(s, b, s');
  }

  lemma FinishKeeps(s: State, b: Ref)
    requires Invariant(s) && CanFinish(s, b)
    ensures Invariant(Finish(s, b))
  {
    FinishFrees(s, b);
    FinishedKeeps(s, b, Finish(s, b));
  }

  // ---------------------------------------------------------------- every run

  lemma TouchKeeps(s: State, b: Ref, blockNo: nat, data: Data)
    requires Invariant(s) && Enabled(s, Touch(b, blockNo, data))
    ensures Invariant(Next(s, Touch(b, blockNo, data)))
  {
    var s' := Next(s, Touch(b, blockNo, data));
    forall i: nat | i < QUEUE_SIZE ensures OwnerOk(s', i) {
      assert OwnerOk(s, i);
    }
    forall r | r in s'.calls ensures CallOk(s', r) {
      assert CallOk(s, r);
      assert s'.h.log[..|s.h.log|] == s.h.log;
      UntouchedCallOk(s, s', r);
    }
  }

  lemma NextKeeps(s: State, a: Action)
    requires Invariant(s) && Enabled(s, a)
    ensures Invariant(Next(s, a))
  {
    match a
    case SubmitCall(b, write) => SubmitKeeps(s, b, write);
    case PopEntry => PopKeeps(s);
    case CompleteRequest(head) => CompleteKeeps(s, head);
    case HandleEntry => HandleKeeps(s);
    case FinishCall(b) => FinishKeeps(s, b);
    case Touch(b, blockNo, data) => TouchKeeps(s, b, blockNo, data);
  }

  /** In every state of every run: no panic was reached, chains in flight are disjoint and
      `free[]` is their complement, both rings hold their unread entries, and the log of
      transfers is a history of a plain disk. */
  lemma {:induction false} EveryRunKeeps(ss: seq<State>, acts: seq<Action>, i: nat)
    requires Run(ss, acts) && i < |ss|
    ensures Invariant(ss[i])
    decreases i
  {
    if i != 0 {
      EveryRunKeeps(ss, acts, i - 1);
      NextKeeps(ss[i - 1], acts[i - 1]);
    }
  }

  /** Descriptor chains of different calls have nothing in common. */
  lemma ChainsDisjoint(s: State, a: Ref, b: Ref, i: nat)
    requires Invariant(s) && a in s.calls && b in s.calls && Uses(s.calls[a], i) && Uses(s.calls[b], i)
    ensures a == b && i < QUEUE_SIZE && !s.q.free[i]
  {
    assert CallOk(s, a) && CallOk(s, b);
    CallInUse(s, a);
  }

  /** A descriptor is free exactly when no call in flight uses it. */
  lemma FreeIsComplement(s: State, i: nat)
    requires Invariant(s) && i < QUEUE_SIZE
    ensures s.q.free[i] <==> forall b :: b in s.calls ==> !Uses(s.calls[b], i)
  {
    assert OwnerOk(s, i);
    if s.q.free[i] {
      forall b | b in s.calls ensures !Uses(s.calls[b], i) {
        assert CallOk(s, b);
        CallInUse(s, b);
      }
    }
  }

  /** A step makes one call or ends one, and changes no other. */
  lemma NextCall(s: State, a: Action, b: Ref)
    requires Enabled(s, a) && b in Next(s, a).calls
    ensures var c := Next(s, a).calls[b];
      if a.SubmitCall? && a.b == b
      then c.write == a.write && c.start == |s.h.log| && c.sector == s.bufs[b].blockNo && c.data == s.bufs[b].data
      else b in s.calls && c == s.calls[b]
  {
  }

  /** Where a call in flight comes from. */
  lemma {:induction false} Origin(ss: seq<State>, acts: seq<Action>, i: nat, b: Ref) returns (k: nat)
    requires Run(ss, acts) && i < |ss| && b in ss[i].calls
    ensures k < i && b in ss[k].bufs && acts[k] == SubmitCall(b, ss[i].calls[b].write)
    ensures ss[i].calls[b].start == |ss[k].h.log|
    ensures ss[i].calls[b].sector == ss[k].bufs[b].blockNo && ss[i].calls[b].data == ss[k].bufs[b].data
    decreases i
  {
    NextCall(ss[i - 1], acts[i - 1], b);
    if acts[i - 1].SubmitCall? && acts[i - 1].b == b {
      k := i - 1;
    } else {
      k := Origin(ss, acts, i - 1, b);
    }
  }

  /** When `virtio_disk_rw` returns, its own transfer, of the block and with the bytes of its
      own buffer at the time of the call, has been carried out between its call and its
      return, and no other transfer on that buffer has. */
  lemma TransferDoneOnce(ss: seq<State>, acts: seq<Action>, i: nat, b: Ref) returns (k: nat, j: nat)
    requires Run(ss, acts) && i < |acts| && acts[i] == FinishCall(b)
    ensures b in ss[i].calls && b in ss[i].bufs
    ensures k < i && b in ss[k].bufs && acts[k] == SubmitCall(b, ss[i].calls[b].write)
    ensures |ss[k].h.log| <= j < |ss[i].h.log|
    ensures var write := ss[i].calls[b].write;
      ss[i].h.log[j] == Transfer(b, write, ss[k].bufs[b].blockNo, if write then ss[k].bufs[b].data else ss[i].bufs[b].data)
    ensures forall j' :: |ss[k].h.log| <= j' < |ss[i].h.log| && ss[i].h.log[j'].b == b ==> j' == j
  {
    EveryRunKeeps(ss, acts, i);
    FinishFrees(ss[i], b);
    assert CallOk(ss[i], b);
    k := Origin(ss, acts, i, b);
    j :| DoneAt(ss[i], b, j);
  }
}

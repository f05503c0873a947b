/** What every step of every run keeps true of the ready queues: `in_Queue`, `order`, `state`
    and the queue contents always agree, so the removal branch of `set_Queue` is dead code,
    no queue node outlives its task, and TASK[0] runs only when nothing else can. */
module SchedInvariant {
  import opened SchedModel
  import opened Wrappers

  ghost predicate TaskOk(t: Task) {
    && -1 <= t.order <= LAST_LEVEL
    && (t.order == -1 <==> t.state.Zombie?)
    && !t.state.Stopped?
    && (t.inQueue ==> t.state.Ready? && t.counter == Counter(t.order))
  }

  ghost predicate Tasks(k: Kernel)
    requires WellFormed(k)
  {
    && (forall r :: r in k.pcb && r != k.table[0] ==> TaskOk(k.pcb[r]))
    && !k.pcb[k.table[0]].inQueue
  }

  /** A task flagged as queued is in the queue its `order` names. */
  ghost predicate FlagsQueued(k: Kernel)
    requires WellFormed(k) && Tasks(k)
  {
    forall r :: r in k.pcb && k.pcb[r].inQueue ==> r in k.queue[k.pcb[r].order]
  }

  /** A queue holds only live flagged tasks of its own level, each once. */
  ghost predicate QueuesFlagged(k: Kernel)
    requires WellFormed(k)
  {
    && (forall o, j :: 0 <= o < LEVELS && 0 <= j < |k.queue[o]| ==>
          k.pcb[k.queue[o][j]].inQueue && k.pcb[k.queue[o][j]].order == o)
    && (forall o, i, j :: 0 <= o < LEVELS && 0 <= i < j < |k.queue[o]| ==> k.queue[o][i] != k.queue[o][j])
  }

  /** The part of the invariant that also holds half way through `schedule`. */
  ghost predicate Core(k: Kernel) {
    && WellFormed(k)
    && !k.fault
    && Tasks(k)
    && FlagsQueued(k)
    && QueuesFlagged(k)
  }

  /** At most one task of slots 1 to 63 is running, and it is `current`. */
  ghost predicate OneRunning(k: Kernel)
    requires WellFormed(k)
  {
    && (forall r :: r in k.pcb && r != k.table[0] && k.pcb[r].state.Running? ==> r == k.current)
    && (k.current == k.table[0] || Cur(k).state.Running?)
  }

  ghost predicate QueueInvariant(k: Kernel) {
    Core(k) && OneRunning(k)
  }

  // -------------------------------------------------------- updates of a task

  /** Rewriting a task without touching `in_Queue` and `order` cannot disturb the queues. */
  lemma PutKeepsCore(k: Kernel, r: Ref, t: Task)
    requires Core(k) && r in k.pcb
    requires t.inQueue == k.pcb[r].inQueue && t.order == k.pcb[r].order && t.slot == k.pcb[r].slot
    requires r != k.table[0] ==> TaskOk(t)
    ensures Core(Put(k, r, t))
  {
    PutWellFormed(k, r, t);
  }

  /** A task outside the queues may change its `order` freely. */
  lemma PutUnqueuedKeepsCore(k: Kernel, r: Ref, t: Task)
    requires Core(k) && r in k.pcb && !k.pcb[r].inQueue && !t.inQueue && t.order <= LAST_LEVEL && t.slot == k.pcb[r].slot
    requires r != k.table[0] ==> TaskOk(t)
    ensures Core(Put(k, r, t))
  {
    PutWellFormed(k, r, t);
  }

  /** Rewriting many tasks at once, `in_Queue` and `order` aside. */
  lemma SameQueueFieldsKeepsCore(k: Kernel, k': Kernel)
    requires Core(k)
    requires k' == k.(pcb := k'.pcb) && k'.pcb.Keys == k.pcb.Keys
    requires forall r :: r in k.pcb ==>
      k'.pcb[r].inQueue == k.pcb[r].inQueue && k'.pcb[r].order == k.pcb[r].order && k'.pcb[r].slot == k.pcb[r].slot
    requires forall r :: r in k.pcb && r != k.table[0] ==> TaskOk(k'.pcb[r])
    ensures Core(k')
  {
    assert WellFormed(k');
    assert QueuesFlagged(k');
  }

  lemma AlterStateKeepsCore(k: Kernel)
    requires Core(k)
    ensures Core(AlterState(k))
  {
    SameQueueFieldsKeepsCore(k, AlterState(k));
  }

  lemma EnqueueSlotKeepsQueuesFlagged(k: Kernel, i: nat)
    requires Core(k) && 1 <= i < MAX_TASK && WellFormed(EnqueueSlot(k, i))
    ensures QueuesFlagged(EnqueueSlot(k, i))
  {
    var r := k.table[i];
    var k' := EnqueueSlot(k, i);
    forall o, j | 0 <= o < LEVELS && 0 <= j < |k'.queue[o]|
      ensures k'.pcb[k'.queue[o][j]].inQueue && k'.pcb[k'.queue[o][j]].order == o
    {
      if j < |k.queue[o]| {
        assert k'.queue[o][j] == k.queue[o][j];
      }
    }
  }

  lemma EnqueueSlotKeepsFlag(k: Kernel, i: nat, s: Ref)
    requires Core(k) && 1 <= i < MAX_TASK && s in EnqueueSlot(k, i).pcb && EnqueueSlot(k, i).pcb[s].inQueue
    ensures 0 <= EnqueueSlot(k, i).pcb[s].order < LEVELS
    ensures s in EnqueueSlot(k, i).queue[EnqueueSlot(k, i).pcb[s].order]
  {
    var k' := EnqueueSlot(k, i);
    var o := k'.pcb[s].order;
    if k.pcb[s].inQueue {
      assert s in k.queue[o];
      assert k.queue[o] <= k'.queue[o];
    } else {
      assert k'.queue[o][|k.queue[o]|] == s;
    }
  }

  lemma EnqueueSlotKeepsTasks(k: Kernel, i: nat)
    requires WellFormed(k) && Tasks(k) && 1 <= i < MAX_TASK && WellFormed(EnqueueSlot(k, i))
    ensures Tasks(EnqueueSlot(k, i))
  {
  }

  lemma EnqueueSlotKeepsCore(k: Kernel, i: nat)
    requires Core(k) && 1 <= i < MAX_TASK
    ensures Core(EnqueueSlot(k, i))
  {
    EnqueueSlotWellFormed(k, i);
    EnqueueSlotKeepsTasks(k, i);
    EnqueueSlotKeepsQueuesFlagged(k, i);
    var k' := EnqueueSlot(k, i);
    forall s | s in k'.pcb && k'.pcb[s].inQueue
      ensures s in k'.queue[k'.pcb[s].order]
    {
      EnqueueSlotKeepsFlag(k, i, s);
    }
  }

  /** Every runnable task of slots 1 to 63 is queued. */
  ghost predicate AllQueued(k: Kernel)
    requires WellFormed(k)
  {
    forall r :: r in k.pcb && r != k.table[0] && Runnable(k.pcb[r]) ==> k.pcb[r].inQueue
  }

  /** What `schedule` leaves alone in a task: everything but its queue fields and `counter`,
      with Running and Ready exchanged at most. */
  ghost predicate SameButQueued(t: Task, u: Task) {
    && u == t.(state := u.state, inQueue := u.inQueue, order := u.order, counter := u.counter)
    && (u.state == t.state || (Runnable(t) && Runnable(u)))
  }

  ghost predicate SameTasks(k: Kernel, k': Kernel) {
    && k'.table == k.table
    && k'.newPid == k.newPid
    && k'.pcb.Keys == k.pcb.Keys
    && (forall r :: r in k.pcb ==> SameButQueued(k.pcb[r], k'.pcb[r]))
  }

  lemma EnqueueSlotSameTasks(k: Kernel, i: nat)
    requires Core(k) && 1 <= i < MAX_TASK
    ensures SameTasks(k, EnqueueSlot(k, i))
    ensures EnqueueSlot(k, i).current == k.current
    ensures var k' := EnqueueSlot(k, i); k.table[i] != NULL && Runnable(k'.pcb[k.table[i]]) ==> k'.pcb[k.table[i]].inQueue
  {
  }

  lemma EnqueueSlotFrame(k: Kernel, i: nat, r: Ref)
    requires WellFormed(k) && 1 <= i < MAX_TASK && r in k.pcb && k.pcb[r].slot != i
    ensures EnqueueSlot(k, i).pcb[r] == k.pcb[r]
  {
  }

  lemma {:induction false} SetQueueFromKeepsCore(k: Kernel, i: nat)
    requires Core(k) && i < MAX_TASK
    ensures Core(SetQueueFrom(k, i))
    decreases i
  {
    if i != 0 {
      EnqueueSlotKeepsCore(k, i);
      var k1 := EnqueueSlot(k, i);
      assert SetQueueFrom(k, i) == SetQueueFrom(k1, i - 1);
      SetQueueFromKeepsCore(k1, i - 1);
    }
  }

  lemma SameTasksTransitive(a: Kernel, b: Kernel, c: Kernel)
    requires SameTasks(a, b) && SameTasks(b, c)
    ensures SameTasks(a, c)
  {
  }

  lemma {:induction false} SetQueueFromSameTasks(k: Kernel, i: nat)
    requires Core(k) && i < MAX_TASK
    ensures SameTasks(k, SetQueueFrom(k, i)) && SetQueueFrom(k, i).current == k.current
    decreases i
  {
    if i != 0 {
      var k1 := EnqueueSlot(k, i);
      EnqueueSlotKeepsCore(k, i);
      EnqueueSlotSameTasks(k, i);
      SetQueueFromSameTasks(k1, i - 1);
      SameTasksTransitive(k, k1, SetQueueFrom(k1, i - 1));
    }
  }

  /** Slots above `i`, and TASK[0], are not touched. */
  lemma {:induction false} SetQueueFromFrame(k: Kernel, i: nat, r: Ref)
    requires Core(k) && i < MAX_TASK && r in k.pcb && (k.pcb[r].slot == 0 || i < k.pcb[r].slot)
    ensures r in SetQueueFrom(k, i).pcb && SetQueueFrom(k, i).pcb[r] == k.pcb[r]
    decreases i
  {
    if i != 0 {
      EnqueueSlotKeepsCore(k, i);
      EnqueueSlotFrame(k, i, r);
      SetQueueFromFrame(EnqueueSlot(k, i), i - 1, r);
    }
  }

  /** Queued, if it can run. */
  ghost predicate Visited(k: Kernel, r: Ref) {
    r in k.pcb && (Runnable(k.pcb[r]) ==> k.pcb[r].inQueue)
  }

  /** The task of slot `i` is queued by its own turn of the loop. */
  lemma EnqueueSlotQueues(k: Kernel, k1: Kernel, i: nat, r: Ref)
    requires Core(k) && i < MAX_TASK && r in k.pcb && 1 <= i && k.pcb[r].slot == i && k1 == EnqueueSlot(k, i)
    ensures Visited(k1, r) && k1.pcb[r].slot == i
  {
    EnqueueSlotSameTasks(k, i);
  }

  /** A task that `set_Queue` has visited is queued if it is runnable. */
  lemma {:induction false} SetQueueFromQueues(k: Kernel, i: nat, r: Ref)
    requires Core(k) && i < MAX_TASK && r in k.pcb && 1 <= k.pcb[r].slot <= i
    ensures Visited(SetQueueFrom(k, i), r)
    decreases i
  {
    var k1 := EnqueueSlot(k, i);
    EnqueueSlotKeepsCore(k, i);
    if k.pcb[r].slot == i {
      EnqueueSlotQueues(k, k1, i, r);
      SetQueueFromFrame(k1, i - 1, r);
    } else {
      EnqueueSlotFrame(k, i, r);
      SetQueueFromQueues(k1, i - 1, r);
    }
  }

  lemma SetQueueFromQueuesAll(k: Kernel)
    requires Core(k)
    ensures Core(SetQueueFrom(k, |k.table| - 1)) && AllQueued(SetQueueFrom(k, |k.table| - 1))
  {
    var i := |k.table| - 1;
    var k' := SetQueueFrom(k, i);
    SetQueueFromKeepsCore(k, i);
    SetQueueFromSameTasks(k, i);
    forall r | r in k'.pcb && r != k'.table[0] && Runnable(k'.pcb[r]) ensures k'.pcb[r].inQueue {
      SetQueueFromQueues(k, i, r);
    }
  }

  lemma QueuedKeepsCore(k: Kernel)
    requires Core(k)
    ensures Core(Queued(k)) && SameTasks(AlterState(k), Queued(k)) && AllQueued(Queued(k))
    ensures Queued(k).current == k.current
    ensures Queued(k).pcb[k.table[0]] == k.pcb[k.table[0]]
  {
    AlterStateKeepsCore(k);
    SetQueueFromQueuesAll(AlterState(k));
    SetQueueFromSameTasks(AlterState(k), |k.table| - 1);
    SetQueueFromFrame(AlterState(k), |k.table| - 1, k.table[0]);
  }

  lemma NoneRunningWhenAllQueued(k: Kernel, r: Ref)
    requires Core(k) && AllQueued(k) && r in k.pcb && r != k.table[0]
    ensures !k.pcb[r].state.Running?
    ensures k.pcb[r].state.Ready? ==> k.pcb[r].inQueue
  {
  }

  lemma DispatchWellFormed(k: Kernel)
    requires WellFormed(k)
    ensures WellFormed(Dispatch(k))
  {
    var o := FirstLevel(k.queue, 0);
    if o < LEVELS {
      PutWellFormed(k, k.queue[o][0], k.pcb[k.queue[o][0]].(inQueue := false, state := Running));
    }
  }

  lemma DispatchKeepsQueued(k: Kernel, s: Ref)
    requires Core(k) && s in Dispatch(k).pcb && Dispatch(k).pcb[s].inQueue
    ensures s in Dispatch(k).queue[k.pcb[s].order]
  {
    var k' := Dispatch(k);
    var o := FirstLevel(k.queue, 0);
    assert s in k.queue[k.pcb[s].order];
    if o < LEVELS && k.pcb[s].order == o {
      var j :| 0 <= j < |k.queue[o]| && k.queue[o][j] == s;
      assert k'.queue[o][j - 1] == s;
    }
  }

  lemma DispatchKeepsQueuesFlagged(k: Kernel)
    requires Core(k) && WellFormed(Dispatch(k))
    ensures QueuesFlagged(Dispatch(k))
  {
    var k' := Dispatch(k);
    var f := FirstLevel(k.queue, 0);
    forall o, j | 0 <= o < LEVELS && 0 <= j < |k'.queue[o]|
      ensures k'.pcb[k'.queue[o][j]].inQueue && k'.pcb[k'.queue[o][j]].order == o
    {
      if o == f {
        assert k'.queue[o][j] == k.queue[o][j + 1];
      } else {
        assert k'.queue[o][j] == k.queue[o][j];
      }
    }
  }

  lemma DispatchKeepsCore(k: Kernel)
    requires Core(k)
    ensures Core(Dispatch(k))
  {
    DispatchWellFormed(k);
    DispatchKeepsQueuesFlagged(k);
    var k' := Dispatch(k);
    assert Tasks(k');
    forall s | s in k'.pcb && k'.pcb[s].inQueue
      ensures s in k'.queue[k'.pcb[s].order]
    {
      DispatchKeepsQueued(k, s);
    }
  }

  lemma DispatchSameTasks(k: Kernel)
    requires Core(k)
    ensures SameTasks(k, Dispatch(k))
  {
    var o := FirstLevel(k.queue, 0);
    if o < LEVELS {
      assert k.pcb[k.queue[o][0]].inQueue;
    }
  }

  lemma DispatchEstablishesInvariant(k: Kernel)
    requires Core(k) && AllQueued(k)
    ensures QueueInvariant(Dispatch(k)) && SameTasks(k, Dispatch(k))
  {
    var k' := Dispatch(k);
    DispatchKeepsCore(k);
    DispatchSameTasks(k);
    forall r | r in k'.pcb && r != k'.table[0] && k'.pcb[r].state.Running?
      ensures r == k'.current
    {
      NoneRunningWhenAllQueued(k, r);
    }
  }

  lemma ScheduleEstablishesInvariant(k: Kernel)
    requires Core(k)
    ensures QueueInvariant(Schedule(k))
    ensures SameTasks(AlterState(k), Schedule(k))
  {
    QueuedKeepsCore(k);
    DispatchEstablishesInvariant(Queued(k));
  }

  // ---------------------------------------------------------------- identity

  /** Pids are unique and bounded by `NEW_PID`, TASK[0] is pid 0, and slot 1 holds pid 1 from
      the first fork on, for ever: as a zombie its father is itself, so nobody can reap it. */
  ghost predicate Identity(k: Kernel)
    requires WellFormed(k)
  {
    && k.newPid >= 0
    && k.pcb[k.table[0]].pid == 0
    && (forall r :: r in k.pcb && r != k.table[0] ==> 1 <= k.pcb[r].pid <= k.newPid)
    && DistinctPids(k.pcb)
    && (k.newPid == 0 ==> forall i :: 1 <= i < MAX_TASK ==> k.table[i] == NULL)
    && (k.newPid >= 1 ==> k.table[1] != NULL && InitTask(k.pcb[k.table[1]]))
  }

  ghost predicate SamePid(pcb: map<Ref, Task>, r: Ref, s: Ref) {
    r in pcb && s in pcb && pcb[r].pid == pcb[s].pid
  }

  ghost predicate DistinctPids(pcb: map<Ref, Task>) {
    forall r, s :: SamePid(pcb, r, s) ==> r == s
  }

  ghost predicate InitTask(t: Task) {
    && t.pid == 1
    && (t.father == 0 || t.father == 1)
    && (t.state.Zombie? ==> t.father == 1)
  }

  ghost predicate Invariant(k: Kernel) {
    QueueInvariant(k) && Identity(k)
  }

  lemma PutKeepsIdentity(k: Kernel, r: Ref, t: Task)
    requires WellFormed(k) && Identity(k) && r in k.pcb && WellFormed(Put(k, r, t))
    requires t.pid == k.pcb[r].pid
    requires r == k.table[1] ==> InitTask(t)
    ensures Identity(Put(k, r, t))
  {
    forall u, s | SamePid(Put(k, r, t).pcb, u, s) ensures u == s {
      assert SamePid(k.pcb, u, s);
    }
  }

  /** Pid, father and being a zombie are unchanged in every task. */
  ghost predicate SameIdentity(k: Kernel, k': Kernel) {
    && k'.table == k.table
    && k'.newPid == k.newPid
    && k'.pcb.Keys == k.pcb.Keys
    && (forall r :: r in k.pcb ==>
          && k'.pcb[r].pid == k.pcb[r].pid
          && k'.pcb[r].father == k.pcb[r].father
          && (k'.pcb[r].state.Zombie? <==> k.pcb[r].state.Zombie?))
  }

  lemma SameIdentityKeepsIdentity(k: Kernel, k': Kernel)
    requires WellFormed(k) && Identity(k) && WellFormed(k') && SameIdentity(k, k')
    ensures Identity(k')
  {
    forall r, s | SamePid(k'.pcb, r, s) ensures r == s {
      assert SamePid(k.pcb, r, s);
    }
  }

  lemma AlterSameIdentity(k: Kernel)
    requires WellFormed(k)
    ensures SameIdentity(k, AlterState(k))
  {
  }

  lemma IdentityThrough(k: Kernel, k1: Kernel, k2: Kernel)
    requires SameIdentity(k, k1) && SameTasks(k1, k2)
    ensures SameIdentity(k, k2)
  {
    forall r | r in k.pcb ensures SameButQueued(k1.pcb[r], k2.pcb[r]) {
    }
  }

  lemma ScheduleSameIdentity(k: Kernel)
    requires Core(k)
    ensures QueueInvariant(Schedule(k)) && SameIdentity(k, Schedule(k))
  {
    ScheduleEstablishesInvariant(k);
    AlterSameIdentity(k);
    IdentityThrough(k, AlterState(k), Schedule(k));
  }

  lemma ScheduleKeeps(k: Kernel)
    requires Core(k) && Identity(k)
    ensures Invariant(Schedule(k))
  {
    ScheduleSameIdentity(k);
    SameIdentityKeepsIdentity(k, Schedule(k));
  }

  lemma CurrentUnqueued(k: Kernel)
    requires QueueInvariant(k)
    ensures !Cur(k).inQueue
  {
  }

  // -------------------------------------------------------------- every step

  lemma SleepKeeps(k: Kernel)
    requires Invariant(k)
    ensures Invariant(Schedule(SleepMark(k)))
  {
    var t := Cur(k).(state := Wait, signal := Cur(k).signal.(stop := true));
    CurrentUnqueued(k);
    PutKeepsCore(k, k.current, t);
    PutKeepsIdentity(k, k.current, t);
    ScheduleKeeps(SleepMark(k));
  }

  lemma WakeupKeepsQueues(k: Kernel)
    requires QueueInvariant(k)
    ensures QueueInvariant(Wakeup(k))
  {
    SameQueueFieldsKeepsCore(k, Wakeup(k));
  }

  lemma WakeupKeeps(k: Kernel)
    requires Invariant(k)
    ensures Invariant(Wakeup(k))
  {
    WakeupKeepsQueues(k);
    SameIdentityKeepsIdentity(k, Wakeup(k));
  }

  lemma TickKeeps(k: Kernel)
    requires Invariant(k)
    ensures Invariant(Tick(k))
  {
    CurrentUnqueued(k);
    PutKeepsCore(k, k.current, Ticked(Cur(k)));
    PutKeepsIdentity(k, k.current, Ticked(Cur(k)));
    if Preempts(Cur(k)) {
      ScheduleKeeps(Put(k, k.current, Ticked(Cur(k))));
    }
  }

  lemma ForkWellFormed(k: Kernel, r: Ref)
    requires WellFormed(k) && r != NULL && r !in k.pcb && FreeSlot(k.table, 1) < MAX_TASK
    ensures WellFormed(Fork(k, r))
  {
    var k' := Fork(k, r);
    var f := FreeSlot(k.table, 1);
    assert k'.table[f] == r;
  }

  lemma ForkKeepsQueues(k: Kernel, r: Ref)
    requires QueueInvariant(k) && r != NULL && r !in k.pcb && FreeSlot(k.table, 1) < MAX_TASK
    ensures QueueInvariant(Fork(k, r))
  {
    ForkWellFormed(k, r);
  }

  lemma ForkKeeps(k: Kernel, r: Ref)
    requires Invariant(k) && r != NULL && r !in k.pcb && FreeSlot(k.table, 1) < MAX_TASK
    ensures Invariant(Fork(k, r))
  {
    ForkKeepsQueues(k, r);
    var k' := Fork(k, r);
    assert k'.pcb[r].pid == k.newPid + 1;
    forall s, u | SamePid(k'.pcb, s, u) ensures s == u {
      assert s != r && u != r ==> SamePid(k.pcb, s, u);
    }
  }

  /** What the loop of `do_exit` keeps. */
  ghost predicate Exiting(k: Kernel) {
    && Core(k)
    && Identity(k)
    && k.newPid >= 1
    && k.current != k.table[0]
    && Cur(k).state.Running?
  }

  lemma TellInit(k: Kernel)
    requires WellFormed(k) && Identity(k) && k.newPid >= 1
    ensures TellFather(k, 1) == Signal(k, k.table[1])
  {
    var s := PidSlot(k, 1, 1);
    assert s == 1;
  }

  lemma SignalKeeps(k: Kernel, r: Ref)
    requires Core(k) && Identity(k) && r in k.pcb
    ensures Core(Signal(k, r)) && Identity(Signal(k, r))
  {
    PutKeepsCore(k, r, Signalled(k.pcb[r]));
    PutKeepsIdentity(k, r, Signalled(k.pcb[r]));
  }

  lemma AdoptKeeps(k: Kernel, r: Ref)
    requires Exiting(k) && r in k.pcb
    ensures Exiting(Put(k, r, k.pcb[r].(father := 1)))
  {
    var t := k.pcb[r].(father := 1);
    PutKeepsCore(k, r, t);
    PutKeepsIdentity(k, r, t);
  }

  lemma TellInitKeeps(k: Kernel)
    requires Exiting(k)
    ensures Exiting(TellFather(k, 1))
  {
    TellInit(k);
    SignalKeeps(k, k.table[1]);
  }

  lemma OrphanSlotKeeps(k: Kernel, i: nat)
    requires Exiting(k) && 1 <= i < MAX_TASK
    ensures Exiting(OrphanSlot(k, i))
  {
    var r := k.table[i];
    if r != NULL && k.pcb[r].father == Cur(k).pid {
      AdoptKeeps(k, r);
      if k.pcb[r].state.Zombie? {
        TellInitKeeps(Put(k, r, k.pcb[r].(father := 1)));
      }
    }
  }

  /** Induction over the loop of `do_exit`: what each iteration keeps, the loop keeps. */
  lemma {:induction false} OrphanFromInduction(k: Kernel, i: nat, inv: (Kernel, int) -> bool)
    requires WellFormed(k) && i < MAX_TASK && inv(k, i)
    requires forall x, j {:trigger OrphanSlot(x, j)} ::
      WellFormed(x) && 1 <= j < MAX_TASK && inv(x, j) ==> inv(OrphanSlot(x, j), j - 1)
    ensures inv(OrphanFrom(k, i), 0)
    decreases i
  {
    if i != 0 {
      assert inv(OrphanSlot(k, i), i - 1);
      OrphanFromInduction(OrphanSlot(k, i), i - 1, inv);
    }
  }

  lemma OrphanFromKeeps(k: Kernel, i: nat)
    requires Exiting(k) && i < MAX_TASK
    ensures Exiting(OrphanFrom(k, i))
  {
    var inv := (x: Kernel, _: int) => Exiting(x);
    forall x, j | WellFormed(x) && 1 <= j < MAX_TASK && inv(x, j) ensures inv(OrphanSlot(x, j), j - 1) {
      OrphanSlotKeeps(x, j);
    }
    OrphanFromInduction(k, i, inv);
  }

  /** `tell_father` after `current` became a zombie: the notified task exists, and a zombie
      whose father was pid 0 now belongs to pid 1. */
  lemma TellFatherKeeps(k: Kernel)
    requires Exiting(k)
    ensures var k' := Put(k, k.current, Exited(Cur(k)));
      var k'' := TellFather(k', Cur(k').father);
      Core(k'') && Identity(k'')
  {
    var t := Exited(Cur(k));
    PutUnqueuedKeepsCore(k, k.current, t);
    var k' := Put(k, k.current, t);
    var s := PidSlot(k', t.father, 1);
    if t.father != 0 && s < MAX_TASK {
      PutKeepsIdentity(k, k.current, t);
      SignalKeeps(k', k'.table[s]);
    } else {
      AdoptedByInit(k, k');
    }
  }

  lemma AdoptedByInit(k: Kernel, k': Kernel)
    requires Exiting(k) && k' == Put(k, k.current, Exited(Cur(k)))
    ensures var k1 := Put(k', k'.current, Cur(k').(father := 1));
      k1.table[1] != NULL && k1.table[1] in k1.pcb && WellFormed(k1) && Core(Signal(k1, k1.table[1])) && Identity(Signal(k1, k1.table[1]))
  {
    var u := Exited(Cur(k)).(father := 1);
    PutUnqueuedKeepsCore(k, k.current, u);
    PutKeepsIdentity(k, k.current, u);
    var k1 := Put(k, k.current, u);
    assert k1 == Put(k', k'.current, Cur(k').(father := 1));
    SignalKeeps(k1, k1.table[1]);
  }

  lemma ExitKeeps(k: Kernel)
    requires Invariant(k) && Cur(k).pid != 0
    ensures Core(ExitMark(k)) && Identity(ExitMark(k)) && Invariant(Schedule(ExitMark(k)))
  {
    assert Exiting(k);
    OrphanFromKeeps(k, |k.table| - 1);
    TellFatherKeeps(OrphanFrom(k, |k.table| - 1));
    ScheduleKeeps(ExitMark(k));
  }

  /** A reaped zombie is neither `current`, nor TASK[0], nor in slot 1. */
  lemma ReapedSlot(k: Kernel, pid: int)
    requires Invariant(k) && Outcome(k, pid).Reap?
    ensures var r := Outcome(k, pid).r;
      r in k.pcb && r != k.current && r != k.table[0] && r != k.table[1] && !k.pcb[r].inQueue && k.pcb[r].order == -1
    ensures SlotOf(k.table, Outcome(k, pid).r, 1) < MAX_TASK
  {
    var r := Outcome(k, pid).r;
    var i :| 0 <= i < MAX_TASK - 1 && k.table[1..][i] == r;
    assert k.table[i + 1] == r;
    assert SamePid(k.pcb, r, k.current) ==> r == k.current;
  }

  lemma ReleaseWellFormed(k: Kernel, r: Ref)
    requires WellFormed(k) && r in k.pcb && r != k.current && r != k.table[0]
    requires forall o, j :: 0 <= o < LEVELS && 0 <= j < |k.queue[o]| ==> k.queue[o][j] != r
    requires SlotOf(k.table, r, 1) < MAX_TASK
    ensures WellFormed(Release(k, r)) && Release(k, r).table[0] == k.table[0]
  {
    var s := SlotOf(k.table, r, 1);
    var k' := Release(k, r);
  }

  /** `release` frees the PCB of a task that no queue node points to. */
  lemma ReleaseKeepsQueues(k: Kernel, r: Ref)
    requires QueueInvariant(k) && r in k.pcb && r != k.current && r != k.table[0] && !k.pcb[r].inQueue
    requires SlotOf(k.table, r, 1) < MAX_TASK
    ensures QueueInvariant(Release(k, r))
  {
    ReleaseWellFormed(k, r);
    var k' := Release(k, r);
    assert QueuesFlagged(k');
  }

  lemma ReleaseKeeps(k: Kernel, r: Ref)
    requires Invariant(k) && r in k.pcb && r != k.current && r != k.table[0] && r != k.table[1] && !k.pcb[r].inQueue
    requires SlotOf(k.table, r, 1) < MAX_TASK
    ensures Invariant(Release(k, r))
  {
    ReleaseKeepsQueues(k, r);
    var k' := Release(k, r);
    var s := SlotOf(k.table, r, 1);
    assert k'.table[1] == k.table[1];
    forall u, v | SamePid(k'.pcb, u, v) ensures u == v {
      assert SamePid(k.pcb, u, v);
    }
  }

  /** Rewriting `current` without touching what the invariant speaks of. */
  lemma PutCurrentKeeps(k: Kernel, t: Task)
    requires Invariant(k)
    requires t == Cur(k).(time := t.time, signal := t.signal, waiting := t.waiting)
    ensures Invariant(Put(k, k.current, t))
  {
    PutKeepsCore(k, k.current, t);
    PutKeepsIdentity(k, k.current, t);
  }

  lemma BlockKeeps(k: Kernel, pid: int)
    requires Invariant(k)
    ensures Core(BlockMark(k, pid)) && Invariant(Schedule(BlockMark(k, pid)))
  {
    var u := Cur(k).(state := Wait, inQueue := false, waiting := Some(pid));
    CurrentUnqueued(k);
    PutKeepsCore(k, k.current, u);
    PutKeepsIdentity(k, k.current, u);
    ScheduleKeeps(BlockMark(k, pid));
  }

  lemma ReapStepKeeps(k: Kernel, r: Ref)
    requires Invariant(k)
    requires r in k.pcb && r != k.current && r != k.table[0] && r != k.table[1] && !k.pcb[r].inQueue
    requires SlotOf(k.table, r, 1) < MAX_TASK
    ensures Invariant(ReapStep(k, r))
  {
    var u := Cur(k).(waiting := None, time := Cur(k).time + k.pcb[r].time);
    ReapStepUnfold(k, r, Put(k, k.current, u));
    PutCurrentKeeps(k, u);
    ReleaseKeeps(Put(k, k.current, u), r);
  }

  lemma ReapStepUnfold(k: Kernel, r: Ref, k': Kernel)
    requires WellFormed(k) && r in k.pcb
    requires k' == Put(k, k.current, Cur(k).(waiting := None, time := Cur(k).time + k.pcb[r].time))
    ensures WellFormed(k') && ReapStep(k, r) == Release(k', r)
  {
    var t := Cur(k).(waiting := None, time := Cur(k).time + k.pcb[r].time);
    PutWellFormed(k, k.current, t);
  }

  lemma ReapKeeps(k: Kernel, pid: int, r: Ref)
    requires Invariant(k) && Outcome(k, pid) == Reap(r)
    ensures r in k.pcb && Invariant(ReapStep(k, r))
  {
    ReapedSlot(k, pid);
    ReapStepKeeps(k, r);
  }

  lemma WaitKeeps(k: Kernel, pid: int)
    requires Invariant(k)
    ensures Invariant(WaitStep(k, pid))
  {
    match Outcome(k, pid)
    case Reap(r) => ReapKeeps(k, pid, r);
    case Block => BlockKeeps(k, pid);
    case _ => PutCurrentKeeps(k, Cur(k).(waiting := None));
  }

  lemma ResumeKeeps(k: Kernel)
    requires Invariant(k) && Cur(k).waiting.Some?
    ensures Invariant(Resume(k))
  {
    PutCurrentKeeps(k, Cur(k).(signal := Cur(k).signal.(chld := false)));
    var k' := ClearChld(k);
    if Interrupted(k) {
      PutCurrentKeeps(k', Cur(k').(waiting := None));
    } else {
      WaitKeeps(k', Cur(k).waiting.value);
    }
  }

  lemma NextKeeps(k: Kernel, a: Action)
    requires Invariant(k) && Enabled(k, a)
    ensures Invariant(Next(k, a))
  {
    match a
    case ForkCall(r) => ForkKeeps(k, r);
    case ExitCall => ExitKeeps(k);
    case WaitCall(pid) => WaitKeeps(k, pid);
    case ResumeWait => ResumeKeeps(k);
    case SleepCall => SleepKeeps(k);
    case WakeupCall => WakeupKeeps(k);
    case TickCall => TickKeeps(k);
  }

  lemma InitialInvariant(k: Kernel)
    requires Initial(k)
    ensures Invariant(k)
  {
    assert forall r :: r in k.pcb ==> r == k.table[0];
  }

  /** Every state of every run satisfies the invariant; in particular no run ever reaches the
      removal branch of `set_Queue` or a NULL TASK[1]. */
  lemma {:induction false} EveryRunKeeps(ks: seq<Kernel>, acts: seq<Action>, i: nat)
    requires Run(ks, acts) && i < |ks|
    ensures Invariant(ks[i])
    decreases i
  {
    if i == 0 {
      InitialInvariant(ks[0]);
    } else {
      EveryRunKeeps(ks, acts, i - 1);
      NextKeeps(ks[i - 1], acts[i - 1]);
    }
  }

  // ------------------------------------------------------------ consequences

  /** `in_Queue` is set exactly for the tasks some queue node points to; that node is unique,
      sits in the queue numbered by `order`, and its task is READY. */
  lemma QueuedExactlyOnce(k: Kernel, r: Ref)
    requires Invariant(k) && r in k.pcb
    ensures k.pcb[r].inQueue <==> exists o, j :: 0 <= o < LEVELS && 0 <= j < |k.queue[o]| && k.queue[o][j] == r
    ensures forall o, j :: 0 <= o < LEVELS && 0 <= j < |k.queue[o]| && k.queue[o][j] == r ==>
              o == k.pcb[r].order && k.pcb[r].state.Ready?
    ensures forall o, o', j, j' :: 0 <= o < LEVELS && 0 <= o' < LEVELS && 0 <= j < |k.queue[o]| && 0 <= j' < |k.queue[o']| ==>
              k.queue[o][j] == r == k.queue[o'][j'] ==> o == o' && j == j'
  {
    if k.pcb[r].inQueue {
      assert r in k.queue[k.pcb[r].order];
    }
  }

  /** `schedule` falls back to TASK[0] exactly when, once signals are delivered, no task of
      slots 1 to 63 is READY or RUNNING; otherwise it picks a task of the least order, the
      one that has waited longest in that queue. */
  lemma IdleOnlyWhenNothingRunnable(k: Kernel)
    requires Core(k)
    ensures Schedule(k).current == k.table[0] <==>
      forall r :: r in k.pcb && r != k.table[0] ==> !Runnable(AlterState(k).pcb[r])
    ensures Schedule(k).current != k.table[0] ==>
      var q := Queued(k);
      exists o :: 0 <= o < LEVELS && q.queue[o] != [] && Schedule(k).current == q.queue[o][0]
        && forall r :: r in q.pcb && r != k.table[0] && q.pcb[r].state.Ready? ==> q.pcb[r].order >= o
  {
    QueuedKeepsCore(k);
    var q := Queued(k);
    var o := FirstLevel(q.queue, 0);
    forall r | r in k.pcb && r != k.table[0] && (Runnable(AlterState(k).pcb[r]) || q.pcb[r].state.Ready?)
      ensures o < LEVELS && q.pcb[r].order >= o
    {
      assert SameButQueued(AlterState(k).pcb[r], q.pcb[r]);
      NoneRunningWhenAllQueued(q, r);
      assert r in q.queue[q.pcb[r].order];
    }
    if o < LEVELS {
      var r := q.queue[o][0];
      assert q.pcb[r].inQueue;
      assert SameButQueued(AlterState(k).pcb[r], q.pcb[r]);
      assert Schedule(k).current == r;
    }
  }
}

/** One call of `schedule` while no task is created, ends, blocks or is woken
    (kernel/sched/sched.c): it moves exactly one task one level down until all are on the last
    level, and from then on it rotates them; a dispatched task keeps the processor for exactly
    `2 + 6 * order` ticks. TimeShare follows the calls over whole stretches of timer ticks. */
module SchedFairness {
  import opened SchedModel
  import opened SchedInvariant
  import opened Arith

  /** No blocked task has a signal that would wake it. */
  ghost predicate Quiet(k: Kernel)
    requires WellFormed(k)
  {
    forall r :: r in k.pcb && r != k.table[0] ==> Altered(k.pcb[r]) == k.pcb[r]
  }

  ghost predicate IsRunnable(k: Kernel, r: Ref)
    requires WellFormed(k)
  {
    r in k.pcb && r != k.table[0] && Runnable(k.pcb[r])
  }

  /** The state after a `schedule` that found something to run: all runnable tasks but
      `current` are queued, none of them on a level before that of `current`. */
  ghost predicate Settled(k: Kernel) {
    && QueueInvariant(k)
    && Quiet(k)
    && k.current != k.table[0]
    && (forall r :: IsRunnable(k, r) && r != k.current ==> k.pcb[r].inQueue && Cur(k).order <= k.pcb[r].order)
  }

  lemma CurrentSlot(k: Kernel)
    requires WellFormed(k) && k.current != k.table[0]
    ensures 1 <= Cur(k).slot < MAX_TASK && k.table[Cur(k).slot] == k.current
  {
  }

  lemma QuietAlterState(k: Kernel)
    requires WellFormed(k) && Quiet(k)
    ensures AlterState(k) == k
  {
    assert AlterState(k).pcb == k.pcb;
  }

  lemma SameTasksQuiet(k: Kernel, k': Kernel)
    requires WellFormed(k) && WellFormed(k') && SameTasks(k, k') && Quiet(k)
    ensures Quiet(k')
  {
    forall r | r in k'.pcb && r != k'.table[0] ensures Altered(k'.pcb[r]) == k'.pcb[r] {
      assert SameButQueued(k.pcb[r], k'.pcb[r]);
    }
  }

  /** One call of `schedule` settles any consistent state with something to run. */
  lemma ScheduleSettles(k: Kernel, r: Ref)
    requires Core(k) && Quiet(k) && IsRunnable(k, r)
    ensures Settled(Schedule(k))
  {
    QuietAlterState(k);
    QueuedKeepsCore(k);
    ScheduleEstablishesInvariant(k);
    var q := Queued(k);
    var k' := Schedule(k);
    SameTasksQuiet(k, k');
    assert SameButQueued(k.pcb[r], q.pcb[r]);
    NoneRunningWhenAllQueued(q, r);
    assert r in q.queue[q.pcb[r].order];
    DispatchSettles(q, r);
  }

  lemma DispatchSettles(q: Kernel, r: Ref)
    requires Core(q) && AllQueued(q) && r in q.pcb && q.pcb[r].inQueue
    requires WellFormed(Dispatch(q))
    ensures var k' := Dispatch(q);
      && k'.current != k'.table[0]
      && (forall s :: IsRunnable(k', s) && s != k'.current ==> k'.pcb[s].inQueue && Cur(k').order <= k'.pcb[s].order)
  {
    var k' := Dispatch(q);
    var o := FirstLevel(q.queue, 0);
    assert r in q.queue[q.pcb[r].order];
    forall s | IsRunnable(k', s) && s != k'.current ensures k'.pcb[s].inQueue && Cur(k').order <= k'.pcb[s].order {
      assert q.pcb[s].inQueue;
      assert s in q.queue[q.pcb[s].order];
    }
  }

  // ---------------------------------------------------- what one call changes

  /** Every runnable task of slots 1 to `i` other than `current` is queued already. */
  ghost predicate OthersQueued(k: Kernel)
    requires WellFormed(k)
  {
    forall r :: IsRunnable(k, r) && r != k.current ==> k.pcb[r].inQueue
  }

  /** On a settled state `set_Queue` touches nothing but `current`. */
  lemma {:induction false} SetQueueFromOthers(k: Kernel, i: nat)
    requires Core(k) && OthersQueued(k) && i < MAX_TASK && (Runnable(Cur(k)) ==> Cur(k).inQueue || Cur(k).slot == 0 || i < Cur(k).slot)
    ensures SetQueueFrom(k, i) == k
    decreases i
  {
    if i != 0 {
      assert EnqueueSlot(k, i) == k;
      SetQueueFromOthers(k, i - 1);
    }
  }

  lemma {:induction false} SetQueueFromCurrent(k: Kernel, i: nat)
    requires Core(k) && OthersQueued(k) && k.current != k.table[0] && Cur(k).state.Running? && Cur(k).slot <= i < MAX_TASK
    ensures SetQueueFrom(k, i) == EnqueueSlot(k, Cur(k).slot)
    decreases i
  {
    if i == Cur(k).slot {
      EnqueueSlotKeepsCore(k, i);
      EnqueueSlotSameTasks(k, i);
      EnqueueSlotOthers(k, i);
      SetQueueFromOthers(EnqueueSlot(k, i), i - 1);
    } else {
      assert EnqueueSlot(k, i) == k;
      SetQueueFromCurrent(k, i - 1);
    }
  }

  lemma EnqueueSlotOthers(k: Kernel, i: nat)
    requires Core(k) && OthersQueued(k) && k.current != k.table[0] && Cur(k).slot == i && 1 <= i < MAX_TASK
    requires WellFormed(EnqueueSlot(k, i))
    ensures OthersQueued(EnqueueSlot(k, i))
  {
    var k' := EnqueueSlot(k, i);
    forall r | IsRunnable(k', r) && r != k'.current ensures k'.pcb[r].inQueue {
      EnqueueSlotFrame(k, i, r);
      assert IsRunnable(k, r);
    }
  }

  /** `current` goes to the back of its next queue, and the front of the first non-empty
      queue is dispatched. */
  lemma SettledSchedule(k: Kernel)
    requires Settled(k)
    ensures Core(EnqueueSlot(k, Cur(k).slot)) && Schedule(k) == Dispatch(EnqueueSlot(k, Cur(k).slot))
    ensures Settled(Schedule(k))
  {
    CurrentSlot(k);
    QuietAlterState(k);
    assert OthersQueued(k);
    SetQueueFromCurrent(k, |k.table| - 1);
    EnqueueSlotKeepsCore(k, Cur(k).slot);
    assert IsRunnable(k, k.current);
    ScheduleSettles(k, k.current);
  }

  // -------------------------------------------------------- levels and places

  /** The level of a task after `set_Queue`: one further down if it was running, else its own. */
  ghost function LevelAfter(t: Task): int {
    if t.state.Running? && !t.inQueue && t.order < LAST_LEVEL then t.order + 1 else t.order
  }

  lemma {:induction false} SetQueueLevel(k: Kernel, i: nat, r: Ref)
    requires Core(k) && i < MAX_TASK && r in k.pcb && r != k.table[0]
    ensures r in SetQueueFrom(k, i).pcb
    ensures SetQueueFrom(k, i).pcb[r].order == if k.pcb[r].slot <= i then LevelAfter(k.pcb[r]) else k.pcb[r].order
    decreases i
  {
    if i != 0 {
      var k1 := EnqueueSlot(k, i);
      EnqueueSlotKeepsCore(k, i);
      EnqueueSlotSameTasks(k, i);
      if k.pcb[r].slot == i {
        EnqueueSlotLevel(k, k1, i, r);
        SetQueueFromFrame(k1, i - 1, r);
      } else {
        EnqueueSlotFrame(k, i, r);
        SetQueueLevel(k1, i - 1, r);
      }
    }
  }

  lemma EnqueueSlotLevel(k: Kernel, k1: Kernel, i: nat, r: Ref)
    requires Core(k) && 1 <= i < MAX_TASK && r in k.pcb && k.pcb[r].slot == i && k1 == EnqueueSlot(k, i)
    ensures r in k1.pcb && k1.pcb[r].order == LevelAfter(k.pcb[r]) && k1.pcb[r].slot == i
  {
    assert k.table[i] == r;
  }

  /** Only the task that was running falls a level; a new or woken task is queued on its own. */
  lemma LevelAfterSchedule(k: Kernel, k': Kernel, r: Ref)
    requires Core(k) && k' == Schedule(k) && r in k.pcb && r != k.table[0]
    ensures r in k'.pcb && k'.pcb[r].order == LevelAfter(k.pcb[r])
  {
    QueuedKeepsCore(k);
    QueuedLevel(k, Queued(k), r);
    DispatchLevel(Queued(k), k', r);
  }

  lemma QueuedLevel(k: Kernel, q: Kernel, r: Ref)
    requires Core(k) && q == Queued(k) && r in k.pcb && r != k.table[0]
    ensures r in q.pcb && q.pcb[r].order == LevelAfter(k.pcb[r])
  {
    AlterStateKeepsCore(k);
    SetQueueLevel(AlterState(k), |k.table| - 1, r);
  }

  lemma DispatchLevel(q: Kernel, k': Kernel, r: Ref)
    requires WellFormed(q) && k' == Dispatch(q) && r in q.pcb
    ensures r in k'.pcb && k'.pcb[r].order == q.pcb[r].order
  {
  }

  /** Nobody is overtaken within a queue: `set_Queue` adds at the back only. */
  lemma {:induction false} QueuesGrowAtBack(k: Kernel, i: nat, o: nat)
    requires WellFormed(k) && i < MAX_TASK && o < LEVELS
    ensures |SetQueueFrom(k, i).queue| == LEVELS && k.queue[o] <= SetQueueFrom(k, i).queue[o]
    decreases i
  {
    if i != 0 {
      EnqueueSlotWellFormed(k, i);
      EnqueueSlotGrows(k, i, o);
      QueuesGrowAtBack(EnqueueSlot(k, i), i - 1, o);
    }
  }

  lemma EnqueueSlotGrows(k: Kernel, i: nat, o: nat)
    requires WellFormed(k) && 1 <= i < MAX_TASK && o < LEVELS && WellFormed(EnqueueSlot(k, i))
    ensures k.queue[o] <= EnqueueSlot(k, i).queue[o]
  {
  }

  /** `schedule` takes one task from the front of one queue, and nobody else loses a place. */
  lemma PlacesKept(k: Kernel, k': Kernel, o: nat)
    requires Core(k) && k' == Schedule(k) && o < LEVELS
    ensures |k'.queue| == LEVELS
    ensures k.queue[o] <= k'.queue[o] || (k.queue[o] != [] && k'.current == k.queue[o][0] && k.queue[o][1..] <= k'.queue[o])
  {
    AlterStateWellFormed(k);
    QueuesGrowAtBack(AlterState(k), |k.table| - 1, o);
    DispatchPlaces(Queued(k), k', o);
  }

  lemma DispatchPlaces(q: Kernel, k': Kernel, o: nat)
    requires WellFormed(q) && k' == Dispatch(q) && o < LEVELS
    ensures |k'.queue| == LEVELS
    ensures k'.queue[o] == q.queue[o] || (q.queue[o] != [] && k'.current == q.queue[o][0] && k'.queue[o] == q.queue[o][1..])
  {
  }

  /** The idle task gives way at the first tick that finds something to run. */
  lemma IdleYields(k: Kernel, r: Ref)
    requires Invariant(k) && k.current == k.table[0] && IsRunnable(k, r)
    ensures Tick(k).current != k.table[0]
  {
    var k1 := Put(k, k.current, Ticked(Cur(k)));
    CurrentUnqueued(k);
    PutKeepsCore(k, k.current, Ticked(Cur(k)));
    IdleOnlyWhenNothingRunnable(k1);
    assert r in k1.pcb && Runnable(AlterState(k1).pcb[r]);
  }

  // ------------------------------------------------------------------ descent

  /** Levels that a task can still fall. */
  ghost function Credit(t: Task): int {
    if Runnable(t) then LAST_LEVEL - t.order else 0
  }

  ghost function SlotCredit(k: Kernel, i: nat): int
    requires WellFormed(k) && i < MAX_TASK
  {
    if k.table[i] == NULL then 0 else Credit(k.pcb[k.table[i]])
  }

  /** The sum over slots 1 to `i`. */
  ghost function CreditUpTo(k: Kernel, i: nat): int
    requires WellFormed(k) && i < MAX_TASK
    decreases i
  {
    if i == 0 then 0 else CreditUpTo(k, i - 1) + SlotCredit(k, i)
  }

  ghost function TotalCredit(k: Kernel): int
    requires WellFormed(k)
  {
    CreditUpTo(k, |k.table| - 1)
  }

  /** Changing the credit of one slot changes the sum by as much. */
  lemma {:induction false} CreditOfOne(k: Kernel, k': Kernel, s: nat, i: nat)
    requires WellFormed(k) && WellFormed(k') && i < MAX_TASK && 1 <= s < MAX_TASK
    requires forall j :: 1 <= j < MAX_TASK && j != s ==> SlotCredit(k', j) == SlotCredit(k, j)
    ensures CreditUpTo(k', i) == CreditUpTo(k, i) + (if s <= i then SlotCredit(k', s) - SlotCredit(k, s) else 0)
    decreases i
  {
    if i != 0 {
      CreditOfOne(k, k', s, i - 1);
    }
  }

  lemma {:induction false} CreditZero(k: Kernel, i: nat)
    requires Core(k) && i < MAX_TASK
    ensures CreditUpTo(k, i) >= 0
    ensures (forall j :: 1 <= j <= i ==> SlotCredit(k, j) == 0) <==> CreditUpTo(k, i) == 0
    decreases i
  {
    if i != 0 {
      assert SlotCredit(k, i) >= 0;
      CreditZero(k, i - 1);
    }
  }

  /** In a settled state `current` is as high up as any task, so it is on the last level only
      if all are. */
  lemma CurrentHasCredit(k: Kernel)
    requires Settled(k)
    ensures Cur(k).order < LAST_LEVEL <==> TotalCredit(k) > 0
  {
    CurrentSlot(k);
    CreditZero(k, |k.table| - 1);
    var s := Cur(k).slot;
    assert k.table[s] == k.current;
    if Cur(k).order < LAST_LEVEL {
      assert SlotCredit(k, s) != 0;
    } else {
      forall j | 1 <= j <= |k.table| - 1 ensures SlotCredit(k, j) == 0 {
        if k.table[j] != NULL && Runnable(k.pcb[k.table[j]]) {
          assert IsRunnable(k, k.table[j]);
        }
      }
    }
  }

  /** From `k` to `k'` only `current` may have changed its order. */
  ghost predicate OnlyCurrentFalls(k: Kernel, k': Kernel)
    requires WellFormed(k)
  {
    && k'.table == k.table
    && (forall r :: r in k.pcb ==>
          && r in k'.pcb
          && (Runnable(k'.pcb[r]) <==> Runnable(k.pcb[r]))
          && k'.pcb[r].order == if r == k.current then RaisedOrder(k.pcb[r]) else k.pcb[r].order)
  }

  lemma EnqueueFalls(k: Kernel, q: Kernel)
    requires Settled(k) && q == EnqueueSlot(k, Cur(k).slot)
    ensures OnlyCurrentFalls(k, q)
  {
    CurrentSlot(k);
    CurrentUnqueued(k);
  }

  lemma DispatchFalls(k: Kernel, q: Kernel, k': Kernel)
    requires WellFormed(k) && Core(q) && OnlyCurrentFalls(k, q) && k' == Dispatch(q)
    ensures OnlyCurrentFalls(k, k')
  {
    DispatchSameTasks(q);
    forall r | r in k.pcb ensures k'.pcb[r].order == q.pcb[r].order && SameButQueued(q.pcb[r], k'.pcb[r]) {}
  }

  lemma FallCredit(k: Kernel, k': Kernel)
    requires WellFormed(k) && WellFormed(k') && OnlyCurrentFalls(k, k') && Cur(k).state.Running? && Cur(k).slot >= 1
    ensures TotalCredit(k') == TotalCredit(k) - (if Cur(k).order < LAST_LEVEL then 1 else 0)
  {
    CreditOfOne(k, k', Cur(k).slot, |k.table| - 1);
  }

  lemma DispatchedFalls(k: Kernel, q: Kernel, k': Kernel)
    requires Settled(k) && Cur(k).slot >= 1 && q == EnqueueSlot(k, Cur(k).slot) && Core(q) && k' == Dispatch(q)
    ensures OnlyCurrentFalls(k, k')
  {
    EnqueueFalls(k, q);
    DispatchFalls(k, q, k');
  }

  lemma DispatchedCredit(k: Kernel, q: Kernel, k': Kernel)
    requires Settled(k) && q == EnqueueSlot(k, Cur(k).slot) && Core(q) && k' == Dispatch(q) && WellFormed(k')
    ensures TotalCredit(k) >= 0
    ensures TotalCredit(k') == if TotalCredit(k) > 0 then TotalCredit(k) - 1 else 0
  {
    CurrentSlot(k);
    CurrentHasCredit(k);
    CreditZero(k, |k.table| - 1);
    DispatchedFalls(k, q, k');
    FallCredit(k, k');
  }

  /** Each call of `schedule` lowers the sum of `4 - order` over the runnable tasks by exactly
      one, until it is zero. */
  lemma EachCallDescends(k: Kernel)
    requires Settled(k)
    ensures Settled(Schedule(k))
    ensures TotalCredit(k) >= 0
    ensures TotalCredit(Schedule(k)) == if TotalCredit(k) > 0 then TotalCredit(k) - 1 else 0
  {
    CurrentSlot(k);
    SettledSchedule(k);
    DispatchedCredit(k, EnqueueSlot(k, Cur(k).slot), Schedule(k));
  }

  // ----------------------------------------------------------------- rotation

  /** Everything that can run, in the order in which it will run, `current` last. */
  ghost function Round(k: Kernel): seq<Ref>
    requires WellFormed(k)
  {
    k.queue[LAST_LEVEL] + [k.current]
  }

  /** All runnable tasks have reached the last level. */
  ghost predicate Sunk(k: Kernel) {
    Settled(k) && TotalCredit(k) == 0
  }

  lemma SunkLevels(k: Kernel)
    requires Sunk(k)
    ensures Cur(k).order == LAST_LEVEL
    ensures forall r :: IsRunnable(k, r) ==> k.pcb[r].order == LAST_LEVEL
    ensures forall o :: 0 <= o < LAST_LEVEL ==> k.queue[o] == []
  {
    CurrentHasCredit(k);
    forall o | 0 <= o < LAST_LEVEL ensures k.queue[o] == [] {
      if k.queue[o] != [] {
        assert k.pcb[k.queue[o][0]].inQueue;
        assert IsRunnable(k, k.queue[o][0]);
      }
    }
  }

  /** A round lists each runnable task exactly once. */
  lemma RoundIsAllRunnable(k: Kernel)
    requires Sunk(k)
    ensures forall r :: r in Round(k) <==> IsRunnable(k, r)
    ensures forall i, j :: 0 <= i < j < |Round(k)| ==> Round(k)[i] != Round(k)[j]
  {
    SunkLevels(k);
    CurrentUnqueued(k);
    var q := k.queue[LAST_LEVEL];
    forall r | IsRunnable(k, r) ensures r in Round(k) {
      if r != k.current {
        assert r in q;
      }
    }
    forall r | r in Round(k) ensures IsRunnable(k, r) {
      if r in q {
        var j :| 0 <= j < |q| && q[j] == r;
        assert k.pcb[k.queue[LAST_LEVEL][j]].inQueue;
      }
    }
    forall j | 0 <= j < |q| ensures q[j] != k.current {
      assert k.pcb[k.queue[LAST_LEVEL][j]].inQueue;
    }
  }

  /** On the last level `schedule` is a rotation: the front task runs, `current` goes last. */
  lemma SunkRotates(k: Kernel, k': Kernel)
    requires Sunk(k) && k' == Schedule(k)
    ensures Sunk(k') && k'.current == Round(k)[0] && Round(k') == Round(k)[1..] + [Round(k)[0]]
  {
    CurrentSlot(k);
    SettledSchedule(k);
    EachCallDescends(k);
    DispatchedRotates(k, EnqueueSlot(k, Cur(k).slot), k');
  }

  lemma DispatchedRotates(k: Kernel, q: Kernel, k': Kernel)
    requires Sunk(k) && q == EnqueueSlot(k, Cur(k).slot) && Core(q) && k' == Dispatch(q) && WellFormed(k')
    ensures k'.current == Round(k)[0] && Round(k') == Round(k)[1..] + [Round(k)[0]]
  {
    CurrentSlot(k);
    SunkLevels(k);
    EnqueueLast(k, q);
    DispatchLast(q);
  }

  lemma EnqueueLast(k: Kernel, q: Kernel)
    requires Settled(k) && q == EnqueueSlot(k, Cur(k).slot) && Cur(k).order == LAST_LEVEL
    ensures q.queue == k.queue[LAST_LEVEL := Round(k)]
  {
    CurrentSlot(k);
    CurrentUnqueued(k);
  }

  lemma DispatchLast(q: Kernel)
    requires WellFormed(q) && q.queue[LAST_LEVEL] != [] && (forall o :: 0 <= o < LAST_LEVEL ==> q.queue[o] == [])
    ensures Dispatch(q).current == q.queue[LAST_LEVEL][0]
    ensures Dispatch(q).queue[LAST_LEVEL] == q.queue[LAST_LEVEL][1..]
  {
    assert FirstLevel(q.queue, 0) == LAST_LEVEL;
  }

  // --------------------------------------------------------------- time slice

  /** A task that `schedule` just dispatched holds a full slice. */
  lemma FullSliceOnDispatch(k: Kernel)
    requires Core(k) && Schedule(k).current != Schedule(k).table[0]
    ensures Cur(Schedule(k)).counter == Counter(Cur(Schedule(k)).order) >= 2
  {
    QueuedKeepsCore(k);
    var q := Queued(k);
    var o := FirstLevel(q.queue, 0);
    assert o < LEVELS;
    var r := q.queue[o][0];
    assert q.pcb[r].inQueue;
  }

  ghost predicate TickAt(ks: seq<Kernel>, i: nat)
    requires i + 1 < |ks|
  {
    WellFormed(ks[i]) && ks[i + 1] == Tick(ks[i])
  }

  /** Ticks in a row. */
  ghost predicate Ticks(ks: seq<Kernel>) {
    && |ks| >= 1
    && (forall i :: 0 <= i < |ks| - 1 ==> TickAt(ks, i))
  }

  lemma TickWithoutSchedule(k: Kernel)
    requires WellFormed(k) && !Preempts(Cur(k))
    ensures Tick(k) == Put(k, k.current, Ticked(Cur(k))) && WellFormed(Tick(k))
  {
    PutWellFormed(k, k.current, Ticked(Cur(k)));
  }

  /** Ticks short of the slice only count down. */
  lemma {:induction false} SliceCountsDown(ks: seq<Kernel>, m: nat)
    requires Ticks(ks) && m < |ks| && WellFormed(ks[0]) && Cur(ks[0]).pid != 0 && Cur(ks[0]).state.Running?
    requires m < Cur(ks[0]).counter
    ensures WellFormed(ks[m]) && ks[m].current == ks[0].current
    ensures Cur(ks[m]) == Cur(ks[0]).(counter := Cur(ks[0]).counter - m, time := Cur(ks[0]).time + m)
    decreases m
  {
    if m != 0 {
      SliceCountsDown(ks, m - 1);
      assert TickAt(ks, m - 1);
      TickWithoutSchedule(ks[m - 1]);
    }
  }

  /** A dispatched task is preempted by exactly the `2 + 6 * order`-th tick: the ticks before
      it leave `current` in place, and that one calls `schedule`. */
  lemma PreemptedAfterSlice(ks: seq<Kernel>, m: nat)
    requires Ticks(ks) && m < |ks| && QueueInvariant(ks[0]) && ks[0].current != ks[0].table[0] && Cur(ks[0]).pid != 0
    requires Cur(ks[0]).counter == Counter(Cur(ks[0]).order) && m < Counter(Cur(ks[0]).order)
    ensures WellFormed(ks[m]) && ks[m].current == ks[0].current
    ensures Preempts(Cur(ks[m])) <==> m == 2 + 6 * Cur(ks[0]).order - 1
  {
    SliceCountsDown(ks, m);
  }
}

/** Fathers, zombies and `waitpid` (kernel/sys.c, kernel/sched/exit.c): in every run in which
    process 1 does not exit, every task has a living father with a smaller pid, a task blocked
    in `waitpid` is never left waiting beside a matching zombie, `waitpid` returns -EINTR to no
    task but TASK[0] (Exceptions says when), and a zombie is reaped at most once. */
module Lifecycle {
  import opened SchedModel
  import opened SchedInvariant
  import opened Wrappers

  // -------------------------------------------------------------- the invariant

  /** SIG_STOP and SIG_CONT live only on a task that is asleep outside `waitpid`. */
  ghost predicate SignalOk(t: Task) {
    && (Runnable(t) ==> !t.signal.stop && !t.signal.cont)
    && (t.waiting.Some? ==> !t.signal.stop && !t.signal.cont && !t.state.Zombie?)
  }

  ghost predicate SignalsOk(k: Kernel)
    requires WellFormed(k)
  {
    forall r :: r in k.pcb && r != k.table[0] ==> SignalOk(k.pcb[r])
  }

  ghost predicate Alive(k: Kernel, s: Ref, pid: int) {
    s in k.pcb && k.pcb[s].pid == pid && !k.pcb[s].state.Zombie?
  }

  /** Some live task that is not a zombie has this pid. */
  ghost predicate HasAlive(k: Kernel, pid: int) {
    exists s :: Alive(k, s, pid)
  }

  ghost predicate FatherOk(k: Kernel, r: Ref)
    requires r in k.pcb
  {
    && k.pcb[r].father < k.pcb[r].pid
    && HasAlive(k, k.pcb[r].father)
  }

  ghost predicate Fathers(k: Kernel)
    requires WellFormed(k)
  {
    forall r {:trigger FatherOk(k, r)} :: r in k.pcb && r != k.table[0] ==> FatherOk(k, r)
  }

  /** A zombie belongs to a task other than TASK[0], and neither TASK[0] nor pid 1 is one. */
  ghost predicate Zombies(k: Kernel)
    requires WellFormed(k)
  {
    && (forall r :: r in k.pcb && k.pcb[r].state.Zombie? ==> k.pcb[r].father >= 1)
    && !k.pcb[k.table[0]].state.Zombie?
    && (k.table[1] != NULL ==> !k.pcb[k.table[1]].state.Zombie?)
  }

  ghost predicate Wanted(t: Task, z: Task) {
    && t.waiting.Some?
    && t.state.Wait?
    && z.state.Zombie?
    && z.father == t.pid
    && (if t.waiting.value > 0 then z.pid == t.waiting.value else t.waiting.value == -1)
  }

  /** `r` is blocked in `waitpid` although the zombie `z` is what it waits for. */
  ghost predicate Starves(k: Kernel, r: Ref, z: Ref) {
    r in k.pcb && z in k.pcb && Wanted(k.pcb[r], k.pcb[z])
  }

  /** Whoever waits for a zombie has SIG_CHLD pending. */
  ghost predicate Notified(k: Kernel) {
    forall r, z :: Starves(k, r, z) ==> k.pcb[r].signal.chld
  }

  /** Holds also between the parts of a step, before `schedule` runs. */
  ghost predicate Living(k: Kernel)
    requires WellFormed(k)
  {
    && SignalsOk(k)
    && Fathers(k)
    && Zombies(k)
    && Notified(k)
  }

  ghost predicate Life(k: Kernel) {
    && Invariant(k)
    && Living(k)
    && (forall r, z :: !Starves(k, r, z))
  }

  // ------------------------------------------------------------------- schedule

  /** Nothing but the queue fields and the exchange of Running and Ready. */
  lemma SameTasksLiving(k: Kernel, k': Kernel)
    requires WellFormed(k) && WellFormed(k') && SameTasks(k, k') && Living(k)
    ensures Living(k')
    ensures forall r, z :: Starves(k', r, z) ==> Starves(k, r, z)
  {
    SameTasksFathers(k, k');
    SameTasksSignals(k, k');
    forall r, z | Starves(k', r, z) ensures Starves(k, r, z) && k'.pcb[r].signal.chld {
      SameTasksStarves(k, k', r, z);
    }
  }

  lemma SameTasksStarves(k: Kernel, k': Kernel, r: Ref, z: Ref)
    requires SameTasks(k, k') && Notified(k) && Starves(k', r, z)
    ensures Starves(k, r, z) && k'.pcb[r].signal.chld
  {
    assert SameButQueued(k.pcb[r], k'.pcb[r]) && SameButQueued(k.pcb[z], k'.pcb[z]);
    assert Starves(k, r, z);
  }

  lemma SameTasksSignals(k: Kernel, k': Kernel)
    requires WellFormed(k) && WellFormed(k') && SameTasks(k, k') && SignalsOk(k) && Zombies(k)
    ensures SignalsOk(k') && Zombies(k')
  {
    forall r | r in k'.pcb
      ensures SignalOk(k.pcb[r]) ==> SignalOk(k'.pcb[r])
      ensures k'.pcb[r].state.Zombie? ==> k.pcb[r].state.Zombie? && k'.pcb[r].father == k.pcb[r].father
    {
      assert SameButQueued(k.pcb[r], k'.pcb[r]);
    }
  }

  lemma SameTasksFathers(k: Kernel, k': Kernel)
    requires WellFormed(k) && WellFormed(k') && SameTasks(k, k') && Fathers(k)
    ensures Fathers(k')
  {
    forall r | r in k'.pcb && r != k'.table[0] ensures FatherOk(k', r) {
      assert FatherOk(k, r);
      assert SameButQueued(k.pcb[r], k'.pcb[r]);
      var s :| Alive(k, s, k.pcb[r].father);
      assert SameButQueued(k.pcb[s], k'.pcb[s]);
      assert Alive(k', s, k'.pcb[r].father);
    }
  }

  /** `alter_state` wakes every notified task, so afterwards nobody waits for a zombie. */
  lemma AlterStateFeeds(k: Kernel, r: Ref, z: Ref)
    requires WellFormed(k) && Identity(k) && Zombies(k) && Notified(k)
    ensures !Starves(AlterState(k), r, z)
  {
    if Starves(AlterState(k), r, z) {
      assert r != k.table[0] ==> Starves(k, r, z);
    }
  }

  lemma AlterStateSignals(k: Kernel)
    requires WellFormed(k) && WellFormed(AlterState(k)) && SignalsOk(k) && Zombies(k)
    ensures SignalsOk(AlterState(k)) && Zombies(AlterState(k))
  {
    assert forall t :: SignalOk(t) ==> SignalOk(Altered(t));
  }

  lemma AlterStateLiving(k: Kernel)
    requires WellFormed(k) && Identity(k) && Living(k)
    ensures WellFormed(AlterState(k)) && Living(AlterState(k))
    ensures forall r, z :: !Starves(AlterState(k), r, z)
  {
    AlterStateFathers(k);
    AlterStateSignals(k);
    forall r, z ensures !Starves(AlterState(k), r, z) {
      AlterStateFeeds(k, r, z);
    }
  }

  lemma AlterStateFathers(k: Kernel)
    requires WellFormed(k) && Fathers(k)
    ensures WellFormed(AlterState(k)) && Fathers(AlterState(k))
  {
    AlterStateWellFormed(k);
    var k' := AlterState(k);
    forall r | r in k'.pcb && r != k'.table[0] ensures FatherOk(k', r) {
      assert FatherOk(k, r);
      var s :| Alive(k, s, k.pcb[r].father);
      assert Alive(k', s, k'.pcb[r].father);
    }
  }

  lemma ScheduleLife(k: Kernel)
    requires Core(k) && Identity(k) && Living(k)
    ensures Life(Schedule(k))
  {
    ScheduleKeeps(k);
    ScheduleEstablishesInvariant(k);
    AlterStateLiving(k);
    SameTasksLiving(AlterState(k), Schedule(k));
  }

  // ----------------------------------------------------------- updates of a task

  /** Every father stays alive when no task starts or stops being a zombie. */
  lemma PutFathers(k: Kernel, r: Ref, t: Task)
    requires WellFormed(k) && r in k.pcb && WellFormed(Put(k, r, t)) && Fathers(k)
    requires t.pid == k.pcb[r].pid && (t.state.Zombie? <==> k.pcb[r].state.Zombie?)
    requires t.father == k.pcb[r].father || (t.father < t.pid && HasAlive(k, t.father))
    ensures Fathers(Put(k, r, t))
  {
    var k' := Put(k, r, t);
    forall q | q in k'.pcb && q != k'.table[0] ensures FatherOk(k', q) {
      assert FatherOk(k, q);
      var s :| Alive(k, s, k'.pcb[q].father);
      assert Alive(k', s, k'.pcb[q].father);
    }
  }

  /** A change to a task that is no zombie, father and pid aside. */
  lemma PutLiving(k: Kernel, r: Ref, t: Task)
    requires WellFormed(k) && r in k.pcb && WellFormed(Put(k, r, t)) && Living(k)
    requires t.pid == k.pcb[r].pid && t.father == k.pcb[r].father
    requires !t.state.Zombie? && !k.pcb[r].state.Zombie?
    requires r != k.table[0] ==> SignalOk(t)
    requires forall z :: z in k.pcb && Wanted(t, k.pcb[z]) ==> t.signal.chld
    ensures Living(Put(k, r, t))
  {
    PutFathers(k, r, t);
    var k' := Put(k, r, t);
    assert Zombies(k');
    forall q, z | Starves(k', q, z) ensures k'.pcb[q].signal.chld {
      assert q != r ==> Starves(k, q, z);
    }
  }

  lemma CurrentAlive(k: Kernel)
    requires Life(k)
    ensures !Cur(k).state.Zombie?
    ensures k.current != k.table[0] ==> !Cur(k).signal.stop && !Cur(k).signal.cont
  {
  }

  lemma TickLife(k: Kernel)
    requires Life(k)
    ensures Life(Tick(k))
  {
    var t := Ticked(Cur(k));
    var k' := Put(k, k.current, t);
    CurrentAlive(k);
    CurrentUnqueued(k);
    PutKeepsCore(k, k.current, t);
    PutKeepsIdentity(k, k.current, t);
    forall z | z in k.pcb ensures !Wanted(t, k.pcb[z]) {
      assert !Starves(k, k.current, z);
    }
    PutLiving(k, k.current, t);
    if Preempts(Cur(k)) {
      ScheduleLife(k');
    } else {
      TickKeeps(k);
      forall r, z ensures !Starves(k', r, z) {
        assert !Starves(k, r, z);
      }
    }
  }

  lemma SleepLife(k: Kernel)
    requires Life(k) && Cur(k).waiting.None?
    ensures Life(Schedule(SleepMark(k)))
  {
    var t := Cur(k).(state := Wait, signal := Cur(k).signal.(stop := true));
    CurrentAlive(k);
    CurrentUnqueued(k);
    PutKeepsCore(k, k.current, t);
    PutKeepsIdentity(k, k.current, t);
    PutLiving(k, k.current, t);
    ScheduleLife(SleepMark(k));
  }

  lemma WakeupLife(k: Kernel)
    requires Life(k)
    ensures Life(Wakeup(k))
  {
    WakeupKeeps(k);
    var k' := Wakeup(k);
    WakeupFathers(k);
    WakeupSignals(k);
    forall r, z ensures !Starves(k', r, z) {
      WakeupStarves(k, r, z);
    }
  }

  lemma WakeupStarves(k: Kernel, r: Ref, z: Ref)
    requires WellFormed(k) && !Starves(k, r, z)
    ensures !Starves(Wakeup(k), r, z)
  {
  }

  lemma WakeupSignals(k: Kernel)
    requires WellFormed(k) && WellFormed(Wakeup(k)) && SignalsOk(k) && Zombies(k)
    ensures SignalsOk(Wakeup(k)) && Zombies(Wakeup(k))
  {
    assert forall t :: SignalOk(t) ==> SignalOk(Woken(t));
  }

  lemma WakeupFathers(k: Kernel)
    requires WellFormed(k) && WellFormed(Wakeup(k)) && Fathers(k)
    ensures Fathers(Wakeup(k))
  {
    var k' := Wakeup(k);
    forall r | r in k'.pcb && r != k'.table[0] ensures FatherOk(k', r) {
      assert FatherOk(k, r);
      var s :| Alive(k, s, k.pcb[r].father);
      assert Alive(k', s, k'.pcb[r].father);
    }
  }

  // ------------------------------------------------------------------------ fork

  lemma ForkFathers(k: Kernel, r: Ref)
    requires Life(k) && r != NULL && r !in k.pcb && FreeSlot(k.table, 1) < MAX_TASK && Invariant(Fork(k, r))
    ensures Fathers(Fork(k, r))
  {
    var k' := Fork(k, r);
    CurrentAlive(k);
    assert Alive(k', k.current, Cur(k).pid);
    forall q | q in k'.pcb && q != k'.table[0] ensures FatherOk(k', q) {
      if q != r {
        assert FatherOk(k, q);
        var s :| Alive(k, s, k.pcb[q].father);
        assert Alive(k', s, k'.pcb[q].father);
      }
    }
  }

  lemma ForkLife(k: Kernel, r: Ref)
    requires Life(k) && r != NULL && r !in k.pcb && FreeSlot(k.table, 1) < MAX_TASK
    ensures Life(Fork(k, r))
  {
    ForkKeeps(k, r);
    ForkFathers(k, r);
    ForkSignals(k, r);
    forall q, z ensures !Starves(Fork(k, r), q, z) {
      ForkStarves(k, r, q, z);
    }
  }

  lemma ForkSignals(k: Kernel, r: Ref)
    requires Life(k) && r != NULL && r !in k.pcb && FreeSlot(k.table, 1) < MAX_TASK && WellFormed(Fork(k, r))
    ensures SignalsOk(Fork(k, r)) && Zombies(Fork(k, r))
  {
  }

  lemma ForkStarves(k: Kernel, r: Ref, q: Ref, z: Ref)
    requires WellFormed(k) && r != NULL && r !in k.pcb && FreeSlot(k.table, 1) < MAX_TASK && !Starves(k, q, z)
    ensures !Starves(Fork(k, r), q, z)
  {
  }

  // ------------------------------------------------------------------------ exit

  /** Inside the loop of `do_exit`, called by a task other than pid 0 and pid 1, when slots
      above `i` have been visited. */
  ghost predicate Leaving(k: Kernel, i: nat)
    requires WellFormed(k)
  {
    && Living(k)
    && Cur(k).pid >= 2
    && Cur(k).waiting.None?
    && NoChildAbove(k, Cur(k).pid, i)
  }

  /** Telling a father is what makes up for a new zombie. */
  lemma SignalNotifies(k: Kernel, s: Ref)
    requires WellFormed(k) && SignalsOk(k) && Fathers(k) && Zombies(k) && s in k.pcb
    requires forall q, z :: Starves(k, q, z) ==> q == s || k.pcb[q].signal.chld
    ensures Living(Signal(k, s))
  {
    var k' := Signal(k, s);
    PutFathers(k, s, Signalled(k.pcb[s]));
    SignalSignals(k, s);
    forall q, z | Starves(k', q, z) ensures k'.pcb[q].signal.chld {
      assert Starves(k, q, z);
    }
  }

  lemma SignalSignals(k: Kernel, s: Ref)
    requires WellFormed(k) && SignalsOk(k) && Zombies(k) && s in k.pcb
    ensures SignalsOk(Signal(k, s)) && Zombies(Signal(k, s))
  {
  }

  /** A child moved to pid 1. */
  lemma AdoptFathers(k: Kernel, r: Ref)
    requires Exiting(k) && Living(k) && Cur(k).pid >= 2 && r in k.pcb && r != k.table[0] && k.pcb[r].father == Cur(k).pid
    ensures WellFormed(Put(k, r, k.pcb[r].(father := 1)))
    ensures Fathers(Put(k, r, k.pcb[r].(father := 1)))
  {
    AdoptKeeps(k, r);
    assert FatherOk(k, r);
    assert Alive(k, k.table[1], 1);
    PutFathers(k, r, k.pcb[r].(father := 1));
  }

  lemma AdoptNotified(k: Kernel, r: Ref, q: Ref, z: Ref)
    requires Exiting(k) && Living(k) && r in k.pcb && Starves(Put(k, r, k.pcb[r].(father := 1)), q, z)
    ensures k.pcb[q].signal.chld || (z == r && q == k.table[1])
  {
    if z != r {
      assert Starves(k, q, z);
    } else {
      assert q in k.pcb && SamePid(k.pcb, q, k.table[1]);
    }
  }

  /** A child that is no zombie is only given its new father. */
  lemma AdoptAlive(k: Kernel, r: Ref)
    requires Exiting(k) && Living(k) && Cur(k).pid >= 2 && r in k.pcb && r != k.table[0] && k.pcb[r].father == Cur(k).pid
    requires !k.pcb[r].state.Zombie?
    ensures WellFormed(Put(k, r, k.pcb[r].(father := 1)))
    ensures Living(Put(k, r, k.pcb[r].(father := 1)))
  {
    AdoptFathers(k, r);
    var k' := Put(k, r, k.pcb[r].(father := 1));
    AdoptSignals(k, r);
    forall q, z | Starves(k', q, z) ensures k'.pcb[q].signal.chld {
      AdoptNotified(k, r, q, z);
    }
  }

  /** A zombie child is given its new father, and that father is told. */
  lemma AdoptZombie(k: Kernel, r: Ref)
    requires Exiting(k) && Living(k) && Cur(k).pid >= 2 && r in k.pcb && r != k.table[0] && k.pcb[r].father == Cur(k).pid
    requires k.pcb[r].state.Zombie?
    ensures WellFormed(Put(k, r, k.pcb[r].(father := 1)))
    ensures Living(TellFather(Put(k, r, k.pcb[r].(father := 1)), 1))
  {
    AdoptKeeps(k, r);
    AdoptFathers(k, r);
    var k1 := Put(k, r, k.pcb[r].(father := 1));
    TellInit(k1);
    AdoptSignals(k, r);
    forall q, z | Starves(k1, q, z) ensures q == k1.table[1] || k1.pcb[q].signal.chld {
      AdoptNotified(k, r, q, z);
    }
    SignalNotifies(k1, k1.table[1]);
  }

  lemma AdoptSignals(k: Kernel, r: Ref)
    requires WellFormed(k) && SignalsOk(k) && Zombies(k) && r in k.pcb && WellFormed(Put(k, r, k.pcb[r].(father := 1)))
    ensures SignalsOk(Put(k, r, k.pcb[r].(father := 1))) && Zombies(Put(k, r, k.pcb[r].(father := 1)))
  {
  }

  lemma OrphanSlotLeaving(k: Kernel, i: nat)
    requires Exiting(k) && Leaving(k, i) && 1 <= i < MAX_TASK
    ensures Leaving(OrphanSlot(k, i), i - 1)
  {
    OrphanSlotKeeps(k, i);
    var r := k.table[i];
    if r != NULL && k.pcb[r].father == Cur(k).pid {
      if k.pcb[r].state.Zombie? {
        AdoptZombie(k, r);
      } else {
        AdoptAlive(k, r);
      }
    }
    OrphanSlotFathers(k, i);
    assert FatherOk(k, k.current);
    OrphanSlotKin(k, i);
    KinCurrent(k, OrphanSlot(k, i));
  }

  /** The loop body of `do_exit` in closed form. */
  lemma OrphanSlotCases(k: Kernel, i: nat)
    requires Exiting(k) && 1 <= i < MAX_TASK && k.table[i] != NULL && k.pcb[k.table[i]].father == Cur(k).pid
    ensures var r := k.table[i];
      var k1 := Put(k, r, k.pcb[r].(father := 1));
      && Exiting(k1)
      && OrphanSlot(k, i) == if k.pcb[r].state.Zombie? then Signal(k1, k1.table[1]) else k1
  {
    var r := k.table[i];
    AdoptKeeps(k, r);
    TellInit(Put(k, r, k.pcb[r].(father := 1)));
  }

  ghost predicate NoChildAbove(k: Kernel, pid: int, i: int) {
    forall r :: r in k.pcb && k.pcb[r].slot > i ==> k.pcb[r].father != pid
  }

  lemma AdoptClears(k: Kernel, r: Ref, i: nat, pid: int)
    requires WellFormed(k) && r in k.pcb && k.pcb[r].slot == i && pid >= 2 && NoChildAbove(k, pid, i)
    ensures NoChildAbove(Put(k, r, k.pcb[r].(father := 1)), pid, i - 1)
  {
    assert forall q :: q in k.pcb && k.pcb[q].slot == i ==> q == k.table[i];
  }

  lemma SignalClears(k: Kernel, s: Ref, i: int, pid: int)
    requires WellFormed(k) && s in k.pcb && NoChildAbove(k, pid, i)
    ensures NoChildAbove(Signal(k, s), pid, i)
  {
  }

  lemma OrphanSlotFathers(k: Kernel, i: nat)
    requires Exiting(k) && Cur(k).pid >= 2 && 1 <= i < MAX_TASK && NoChildAbove(k, Cur(k).pid, i)
    ensures NoChildAbove(OrphanSlot(k, i), Cur(k).pid, i - 1)
  {
    var r := k.table[i];
    if r != NULL && k.pcb[r].father == Cur(k).pid {
      OrphanSlotCases(k, i);
      AdoptClears(k, r, i, Cur(k).pid);
      var k1 := Put(k, r, k.pcb[r].(father := 1));
      SignalClears(k1, k1.table[1], i - 1, Cur(k).pid);
    } else {
      assert forall q :: q in k.pcb && k.pcb[q].slot == i ==> q == r;
    }
  }

  ghost predicate Departing(k: Kernel, i: int) {
    i >= 0 && Exiting(k) && Leaving(k, i)
  }

  lemma OrphanSlotDeparting(k: Kernel, i: nat)
    requires Departing(k, i) && 1 <= i < MAX_TASK
    ensures Departing(OrphanSlot(k, i), i - 1)
  {
    OrphanSlotKeeps(k, i);
    OrphanSlotLeaving(k, i);
  }

  lemma OrphanFromDeparting(k: Kernel, i: nat)
    requires Departing(k, i) && i < MAX_TASK
    ensures Departing(OrphanFrom(k, i), 0)
  {
    forall x, j | WellFormed(x) && 1 <= j < MAX_TASK && Departing(x, j) ensures Departing(OrphanSlot(x, j), j - 1) {
      OrphanSlotDeparting(x, j);
    }
    OrphanFromInduction(k, i, Departing);
  }

  /** `current` turned into a zombie of the given father. */
  function Corpse(t: Task, father: int): Task {
    Exited(t).(father := father)
  }

  lemma CorpseFathers(k: Kernel, f: int, w: Ref)
    requires Exiting(k) && Leaving(k, 0) && f < Cur(k).pid && Alive(k, w, f) && WellFormed(Put(k, k.current, Corpse(Cur(k), f)))
    ensures Fathers(Put(k, k.current, Corpse(Cur(k), f)))
  {
    var k' := Put(k, k.current, Corpse(Cur(k), f));
    assert Alive(k', w, f);
    forall q | q in k'.pcb && q != k'.table[0] ensures FatherOk(k', q) {
      if q != k.current {
        assert FatherOk(k, q);
        var s :| Alive(k, s, k.pcb[q].father);
        assert s != k.current;
        assert Alive(k', s, k'.pcb[q].father);
      }
    }
  }

  /** Only the father of the new zombie can be waiting for it. */
  lemma CorpseStarves(k: Kernel, f: int, w: Ref, q: Ref, z: Ref)
    requires Exiting(k) && Leaving(k, 0) && Alive(k, w, f) && Starves(Put(k, k.current, Corpse(Cur(k), f)), q, z)
    ensures q == w || k.pcb[q].signal.chld
  {
    if z == k.current {
      assert SamePid(k.pcb, q, w);
    } else {
      assert Starves(k, q, z);
    }
  }

  lemma CorpseLiving(k: Kernel, f: int, w: Ref)
    requires Exiting(k) && Leaving(k, 0) && 1 <= f < Cur(k).pid && Alive(k, w, f) && w != k.current
    ensures WellFormed(Put(k, k.current, Corpse(Cur(k), f)))
    ensures Living(Signal(Put(k, k.current, Corpse(Cur(k), f)), w))
  {
    var k' := Put(k, k.current, Corpse(Cur(k), f));
    PutWellFormed(k, k.current, Corpse(Cur(k), f));
    CorpseFathers(k, f, w);
    CorpseSignals(k, f);
    forall q, z | Starves(k', q, z) ensures q == w || k'.pcb[q].signal.chld {
      CorpseStarves(k, f, w, q, z);
    }
    SignalNotifies(k', w);
  }

  lemma CorpseSignals(k: Kernel, f: int)
    requires Exiting(k) && Leaving(k, 0) && 1 <= f && WellFormed(Put(k, k.current, Corpse(Cur(k), f)))
    ensures SignalsOk(Put(k, k.current, Corpse(Cur(k), f))) && Zombies(Put(k, k.current, Corpse(Cur(k), f)))
  {
  }

  /** `tell_father` finds the father of a task that leaves. */
  lemma FatherFound(k: Kernel, k': Kernel, w: Ref)
    requires Exiting(k) && k' == Put(k, k.current, Exited(Cur(k))) && WellFormed(k')
    requires Cur(k).father != 0 && Alive(k, w, Cur(k).father)
    ensures TellFather(k', Cur(k).father) == Signal(k', w)
  {
    var f := Cur(k).father;
    var s := PidSlot(k', f, 1);
    assert k'.table[k'.pcb[w].slot] == w && k'.pcb[w].pid == f;
    assert SamePid(k.pcb, w, k.table[s]);
  }

  lemma TellFatherLiving(k: Kernel)
    requires Exiting(k) && Leaving(k, 0)
    ensures WellFormed(Put(k, k.current, Exited(Cur(k))))
    ensures Living(TellFather(Put(k, k.current, Exited(Cur(k))), Cur(k).father))
  {
    var f := Cur(k).father;
    PutWellFormed(k, k.current, Exited(Cur(k)));
    var k' := Put(k, k.current, Exited(Cur(k)));
    assert FatherOk(k, k.current);
    if f != 0 {
      var w :| Alive(k, w, f);
      FatherFound(k, k', w);
      assert k' == Put(k, k.current, Corpse(Cur(k), f));
      CorpseLiving(k, f, w);
    } else {
      assert Alive(k, k.table[1], 1);
      assert Put(k', k'.current, Cur(k').(father := 1)) == Put(k, k.current, Corpse(Cur(k), 1));
      CorpseLiving(k, 1, k.table[1]);
    }
  }

  lemma ExitLife(k: Kernel)
    requires Life(k) && Cur(k).pid >= 2 && Cur(k).waiting.None?
    ensures Life(Schedule(ExitMark(k)))
  {
    assert Exiting(k);
    assert Leaving(k, |k.table| - 1);
    OrphanFromDeparting(k, |k.table| - 1);
    TellFatherLiving(OrphanFrom(k, |k.table| - 1));
    ExitKeeps(k);
    ScheduleLife(ExitMark(k));
  }

  // --------------------------------------------------------------------- waitpid

  lemma ReturnLife(k: Kernel)
    requires Life(k)
    ensures Life(ReturnStep(k))
  {
    var t := Cur(k).(waiting := None);
    CurrentAlive(k);
    PutCurrentKeeps(k, t);
    PutLiving(k, k.current, t);
    forall r, z ensures !Starves(ReturnStep(k), r, z) {
      assert !Starves(k, r, z);
    }
  }

  /** A task blocks only when its scan met no zombie that it waits for. */
  lemma BlockLife(k: Kernel, pid: int)
    requires Life(k) && Outcome(k, pid).Block?
    ensures Life(Schedule(BlockMark(k, pid)))
  {
    var t := Cur(k).(state := Wait, inQueue := false, waiting := Some(pid));
    CurrentAlive(k);
    CurrentUnqueued(k);
    forall z | z in k.pcb ensures !Wanted(t, k.pcb[z]) {
      BlockedWantsNone(k, pid, z);
    }
    PutKeepsCore(k, k.current, t);
    PutKeepsIdentity(k, k.current, t);
    PutLiving(k, k.current, t);
    ScheduleLife(BlockMark(k, pid));
  }

  lemma BlockedWantsNone(k: Kernel, pid: int, z: Ref)
    requires Life(k) && Outcome(k, pid).Block? && z in k.pcb
    ensures !Wanted(Cur(k).(state := Wait, inQueue := false, waiting := Some(pid)), k.pcb[z])
  {
    var j := k.pcb[z].slot;
    assert k.table[j] == z;
    assert k.pcb[z].state.Zombie? && 1 <= j ==> !Accepts(k, k.table[j], pid);
  }

  lemma ReleaseFathers(k: Kernel, r: Ref)
    requires WellFormed(k) && Fathers(k) && r in k.pcb && k.pcb[r].state.Zombie? && SlotOf(k.table, r, 1) < MAX_TASK
    requires WellFormed(Release(k, r)) && Release(k, r).table[0] == k.table[0]
    ensures Fathers(Release(k, r))
  {
    var k' := Release(k, r);
    forall q | q in k'.pcb && q != k'.table[0] ensures FatherOk(k', q) {
      assert FatherOk(k, q);
      var s :| Alive(k, s, k.pcb[q].father);
      assert Alive(k', s, k'.pcb[q].father);
    }
  }

  lemma ReleaseLiving(k: Kernel, r: Ref)
    requires Life(k) && r in k.pcb && k.pcb[r].state.Zombie? && r != k.table[0] && r != k.table[1]
    requires SlotOf(k.table, r, 1) < MAX_TASK && Invariant(Release(k, r))
    ensures Life(Release(k, r))
  {
    var s := SlotOf(k.table, r, 1);
    var k' := Release(k, r);
    assert s >= 2;
    assert k'.table[0] == k.table[0] && k'.table[1] == k.table[1];
    ReleaseFathers(k, r);
    assert SignalsOk(k') && Zombies(k');
    forall q, z ensures !Starves(k', q, z) {
      assert !Starves(k, q, z);
    }
  }

  lemma ReapLife(k: Kernel, pid: int, r: Ref)
    requires Life(k) && Outcome(k, pid) == Reap(r)
    ensures r in k.pcb && Life(ReapStep(k, r))
  {
    ReapedSlot(k, pid);
    ReapStepKeeps(k, r);
    ReapStepLife(k, r);
  }

  lemma ReapStepLife(k: Kernel, r: Ref)
    requires Life(k) && r in k.pcb && k.pcb[r].state.Zombie? && r != k.table[0] && r != k.table[1] && r != k.current
    requires SlotOf(k.table, r, 1) < MAX_TASK && Invariant(ReapStep(k, r))
    ensures Life(ReapStep(k, r))
  {
    var t := Cur(k).(waiting := None, time := Cur(k).time + k.pcb[r].time);
    var k' := Put(k, k.current, t);
    ReapStepUnfold(k, r, k');
    ChargeLife(k, t);
    ReleaseLiving(k', r);
  }

  lemma ChargeLife(k: Kernel, t: Task)
    requires Life(k) && t == Cur(k).(waiting := None, time := t.time)
    ensures Life(Put(k, k.current, t))
  {
    CurrentAlive(k);
    PutCurrentKeeps(k, t);
    PutLiving(k, k.current, t);
    forall q, z ensures !Starves(Put(k, k.current, t), q, z) {
      assert !Starves(k, q, z);
    }
  }

  lemma WaitLife(k: Kernel, pid: int)
    requires Life(k)
    ensures Life(WaitStep(k, pid))
  {
    match Outcome(k, pid)
    case Reap(r) => ReapLife(k, pid, r);
    case Block => BlockLife(k, pid);
    case _ => ReturnLife(k);
  }

  lemma ClearChldLife(k: Kernel)
    requires Life(k)
    ensures Life(ClearChld(k))
  {
    var t := Cur(k).(signal := Cur(k).signal.(chld := false));
    CurrentAlive(k);
    PutCurrentKeeps(k, t);
    forall z | z in k.pcb ensures !Wanted(t, k.pcb[z]) {
      assert !Starves(k, k.current, z);
    }
    PutLiving(k, k.current, t);
    forall q, z ensures !Starves(ClearChld(k), q, z) {
      assert !Starves(k, q, z);
    }
  }

  lemma ResumeLife(k: Kernel)
    requires Life(k) && Cur(k).waiting.Some?
    ensures Life(Resume(k))
  {
    ClearChldLife(k);
    var k' := ClearChld(k);
    if Interrupted(k) {
      assert Resume(k) == ReturnStep(k');
      ReturnLife(k');
    } else {
      WaitLife(k', Cur(k).waiting.value);
    }
  }

  // ------------------------------------------------------------------ every run

  /** Pid 1 never calls exit. */
  ghost predicate InitStays(k: Kernel, a: Action) {
    a.ExitCall? ==> k.current in k.pcb && Cur(k).pid != 1
  }

  lemma NextLife(k: Kernel, a: Action)
    requires Life(k) && Enabled(k, a) && InitStays(k, a)
    ensures Life(Next(k, a))
  {
    match a
    case ForkCall(r) => ForkLife(k, r);
    case ExitCall => ExitLife(k);
    case WaitCall(pid) => WaitLife(k, pid);
    case ResumeWait => ResumeLife(k);
    case SleepCall => SleepLife(k);
    case WakeupCall => WakeupLife(k);
    case TickCall => TickLife(k);
  }

  ghost predicate RunWithInit(ks: seq<Kernel>, acts: seq<Action>) {
    && Run(ks, acts)
    && (forall i {:trigger acts[i]} :: 0 <= i < |acts| ==> InitStays(ks[i], acts[i]))
  }

  lemma InitialLife(k: Kernel)
    requires Initial(k)
    ensures Life(k)
  {
    InitialInvariant(k);
    assert forall r :: r in k.pcb ==> r == k.table[0];
  }

  /** In every run in which pid 1 does not exit, after every step: each task of slots 1 to 63
      has a father with a smaller pid that is alive and no zombie, and no task is blocked in
      `waitpid` while a zombie it waits for exists. */
  lemma {:induction false} EveryRunLives(ks: seq<Kernel>, acts: seq<Action>, i: nat)
    requires RunWithInit(ks, acts) && i < |ks|
    ensures Life(ks[i])
    decreases i
  {
    if i == 0 {
      InitialLife(ks[0]);
    } else {
      EveryRunLives(ks, acts, i - 1);
      NextLife(ks[i - 1], acts[i - 1]);
    }
  }

  /** `waitpid` returns -EINTR to no task but possibly TASK[0]. */
  lemma NeverInterrupted(ks: seq<Kernel>, acts: seq<Action>, i: nat)
    requires RunWithInit(ks, acts) && i < |acts| && acts[i] == ResumeWait && ks[i].current != ks[i].table[0]
    ensures !Interrupted(ks[i])
  {
    EveryRunLives(ks, acts, i);
    CurrentAlive(ks[i]);
  }

  /** What the loop of `do_exit` leaves alone in a task. */
  ghost predicate SameButKin(t: Task, u: Task) {
    u == t.(father := u.father, signal := u.signal)
  }

  ghost predicate Kin(k: Kernel, k': Kernel) {
    && k'.table == k.table
    && k'.current == k.current
    && k'.pcb.Keys == k.pcb.Keys
    && (forall r :: r in k.pcb ==> SameButKin(k.pcb[r], k'.pcb[r]))
    && (k.current in k.pcb ==> Cur(k').father == Cur(k).father)
  }

  lemma AdoptKin(k: Kernel, r: Ref)
    requires WellFormed(k) && r in k.pcb && r != k.current
    ensures Kin(k, Put(k, r, k.pcb[r].(father := 1)))
  {
  }

  lemma SignalKin(k: Kernel, s: Ref)
    requires WellFormed(k) && s in k.pcb
    ensures Kin(k, Signal(k, s))
  {
  }

  lemma OrphanSlotKin(k: Kernel, i: nat)
    requires Exiting(k) && 1 <= i < MAX_TASK && Cur(k).father != Cur(k).pid
    ensures Kin(k, OrphanSlot(k, i))
  {
    var r := k.table[i];
    if r != NULL && k.pcb[r].father == Cur(k).pid {
      OrphanSlotCases(k, i);
      AdoptKin(k, r);
      var k1 := Put(k, r, k.pcb[r].(father := 1));
      SignalKin(k1, k1.table[1]);
      KinTransitive(k, k1, Signal(k1, k1.table[1]));
    }
  }

  lemma KinTransitive(a: Kernel, b: Kernel, c: Kernel)
    requires Kin(a, b) && Kin(b, c)
    ensures Kin(a, c)
  {
    forall r | r in a.pcb ensures SameButKin(a.pcb[r], c.pcb[r]) {
      assert SameButKin(a.pcb[r], b.pcb[r]) && SameButKin(b.pcb[r], c.pcb[r]);
    }
  }

  lemma KinCurrent(k: Kernel, k': Kernel)
    requires Kin(k, k') && k.current in k.pcb
    ensures Cur(k').pid == Cur(k).pid && Cur(k').father == Cur(k).father && Cur(k').waiting == Cur(k).waiting
  {
    assert SameButKin(Cur(k), Cur(k'));
  }

  lemma OrphanFromKin(k: Kernel, i: nat)
    requires Exiting(k) && i < MAX_TASK && Cur(k).father != Cur(k).pid
    ensures Kin(k, OrphanFrom(k, i))
  {
    var inv := (x: Kernel, _: int) => Exiting(x) && Kin(k, x);
    forall x, j | WellFormed(x) && 1 <= j < MAX_TASK && inv(x, j) ensures inv(OrphanSlot(x, j), j - 1) {
      OrphanSlotKeeps(x, j);
      KinCurrent(k, x);
      OrphanSlotKin(x, j);
      KinTransitive(k, x, OrphanSlot(x, j));
    }
    OrphanFromInduction(k, i, inv);
  }

  /** After `do_exit` has marked the caller, its father still waits, and for this zombie. */
  lemma ExitMarkStarves(k: Kernel, r: Ref)
    requires Life(k) && Cur(k).pid >= 2 && Cur(k).waiting.None? && r in k.pcb && r != k.table[0]
    requires k.pcb[r].state.Wait? && k.pcb[r].pid == Cur(k).father
    requires k.pcb[r].waiting == Some(-1) || k.pcb[r].waiting == Some(Cur(k).pid)
    ensures Starves(ExitMark(k), r, k.current) && ExitMark(k).table == k.table
  {
    assert FatherOk(k, k.current);
    assert Exiting(k);
    var k1 := OrphanFrom(k, |k.table| - 1);
    OrphanFromKin(k, |k.table| - 1);
    OrphanFromKeeps(k, |k.table| - 1);
    assert SameButKin(k.pcb[r], k1.pcb[r]) && SameButKin(Cur(k), Cur(k1));
    CorpseWanted(k1, r);
  }

  lemma CorpseWanted(k: Kernel, r: Ref)
    requires Exiting(k) && r in k.pcb && r != k.table[0] && r != k.current && Cur(k).father != 0
    requires k.pcb[r].state.Wait? && k.pcb[r].pid == Cur(k).father
    requires k.pcb[r].waiting == Some(-1) || (k.pcb[r].waiting == Some(Cur(k).pid) && Cur(k).pid > 0)
    ensures WellFormed(Put(k, k.current, Exited(Cur(k))))
    ensures var k' := TellFather(Put(k, k.current, Exited(Cur(k))), Cur(k).father);
      Starves(k', r, k.current) && k'.table == k.table
  {
    PutWellFormed(k, k.current, Exited(Cur(k)));
    var k2 := Put(k, k.current, Exited(Cur(k)));
    assert Alive(k, r, Cur(k).father);
    FatherFound(k, k2, r);
  }

  /** No wake-up is lost: a father blocked in `waitpid` for its child, or for any child, is
      runnable again when the child's exit is over. */
  lemma ExitWakesFather(k: Kernel, r: Ref)
    requires Life(k) && Enabled(k, ExitCall) && InitStays(k, ExitCall) && r in k.pcb && r != k.table[0]
    requires k.pcb[r].state.Wait? && k.pcb[r].pid == Cur(k).father
    requires k.pcb[r].waiting == Some(-1) || k.pcb[r].waiting == Some(Cur(k).pid)
    ensures r in Next(k, ExitCall).pcb && Runnable(Next(k, ExitCall).pcb[r])
  {
    ExitMarkStarves(k, r);
    var k1 := ExitMark(k);
    ExitKeeps(k);
    ExitMarkNotified(k);
    ScheduleEstablishesInvariant(k1);
    assert SameButQueued(AlterState(k1).pcb[r], Schedule(k1).pcb[r]);
  }

  lemma ExitMarkNotified(k: Kernel)
    requires Life(k) && Cur(k).pid >= 2 && Cur(k).waiting.None?
    ensures Living(ExitMark(k))
  {
    assert Exiting(k);
    assert Leaving(k, |k.table| - 1);
    OrphanFromDeparting(k, |k.table| - 1);
    TellFatherLiving(OrphanFrom(k, |k.table| - 1));
  }

  // -------------------------------------------------------------- reaped once

  /** The pid that an action reaps, if any. */
  ghost function Reaped(k: Kernel, a: Action): Option<int>
    requires Enabled(k, a)
  {
    match a
    case WaitCall(pid) => ReapedBy(k, pid)
    case ResumeWait =>
      if Interrupted(k) then None else ReapedBy(ClearChld(k), Cur(k).waiting.value)
    case _ => None
  }

  ghost function ReapedBy(k: Kernel, pid: int): Option<int>
    requires WellFormed(k)
  {
    match Outcome(k, pid)
    case Reap(r) => Some(k.pcb[r].pid)
    case _ => None
  }

  /** Pid `p` has been given out and no task carries it any more. */
  ghost predicate Gone(k: Kernel, p: int) {
    p <= k.newPid && forall r :: r in k.pcb ==> k.pcb[r].pid != p
  }

  /** No task appears and no pid changes. */
  ghost predicate NoNewPid(k: Kernel, k': Kernel) {
    && k'.newPid == k.newPid
    && (forall r :: r in k'.pcb ==> r in k.pcb && k'.pcb[r].pid == k.pcb[r].pid)
  }

  lemma GoneStays(k: Kernel, k': Kernel, p: int)
    requires NoNewPid(k, k') && Gone(k, p)
    ensures Gone(k', p)
  {
    forall r | r in k'.pcb ensures k'.pcb[r].pid != p {
      assert k.pcb[r].pid != p;
    }
  }

  lemma ScheduleNoNewPid(k: Kernel)
    requires Core(k)
    ensures NoNewPid(k, Schedule(k))
  {
    ScheduleSameIdentity(k);
  }

  lemma PutNoNewPid(k: Kernel, r: Ref, t: Task)
    requires r in k.pcb && t.pid == k.pcb[r].pid
    ensures NoNewPid(k, Put(k, r, t))
  {
  }

  lemma NoNewPidTransitive(a: Kernel, b: Kernel, c: Kernel)
    requires NoNewPid(a, b) && NoNewPid(b, c)
    ensures NoNewPid(a, c)
  {
  }

  lemma TellFatherNoNewPid(k: Kernel, f: int)
    requires WellFormed(k)
    ensures NoNewPid(k, TellFather(k, f))
  {
    var s := PidSlot(k, f, 1);
    if f != 0 && s < MAX_TASK {
      PutNoNewPid(k, k.table[s], Signalled(k.pcb[k.table[s]]));
    } else {
      PutWellFormed(k, k.current, Cur(k).(father := 1));
      var k' := Put(k, k.current, Cur(k).(father := 1));
      PutNoNewPid(k, k.current, Cur(k).(father := 1));
      if k.table[1] != NULL {
        PutNoNewPid(k', k'.table[1], Signalled(k'.pcb[k'.table[1]]));
        NoNewPidTransitive(k, k', Signal(k', k'.table[1]));
      }
    }
  }

  lemma OrphanSlotNoNewPid(k: Kernel, i: nat)
    requires WellFormed(k) && 1 <= i < MAX_TASK
    ensures NoNewPid(k, OrphanSlot(k, i))
  {
    var r := k.table[i];
    if r != NULL && k.pcb[r].father == Cur(k).pid {
      var k' := Put(k, r, k.pcb[r].(father := 1));
      PutWellFormed(k, r, k.pcb[r].(father := 1));
      PutNoNewPid(k, r, k.pcb[r].(father := 1));
      TellFatherNoNewPid(k', 1);
      NoNewPidTransitive(k, k', TellFather(k', 1));
    }
  }

  lemma OrphanFromNoNewPid(k: Kernel, i: nat)
    requires WellFormed(k) && i < MAX_TASK
    ensures NoNewPid(k, OrphanFrom(k, i))
  {
    var inv := (x: Kernel, _: int) => NoNewPid(k, x);
    forall x, j | WellFormed(x) && 1 <= j < MAX_TASK && inv(x, j) ensures inv(OrphanSlot(x, j), j - 1) {
      OrphanSlotNoNewPid(x, j);
      NoNewPidTransitive(k, x, OrphanSlot(x, j));
    }
    OrphanFromInduction(k, i, inv);
  }

  lemma ExitMarkNoNewPid(k: Kernel)
    requires WellFormed(k)
    ensures NoNewPid(k, ExitMark(k))
  {
    OrphanFromNoNewPid(k, |k.table| - 1);
    var k1 := OrphanFrom(k, |k.table| - 1);
    PutWellFormed(k1, k1.current, Exited(Cur(k1)));
    TellFatherNoNewPid(Put(k1, k1.current, Exited(Cur(k1))), Cur(k1).father);
  }

  lemma WaitNoNewPid(k: Kernel, pid: int)
    requires Invariant(k)
    ensures NoNewPid(k, WaitStep(k, pid))
  {
    match Outcome(k, pid)
    case Reap(r) =>
      ReapedSlot(k, pid);
      ReapStepNoNewPid(k, r);
    case Block =>
      BlockKeeps(k, pid);
      ScheduleNoNewPid(BlockMark(k, pid));
      PutNoNewPid(k, k.current, Cur(k).(state := Wait, inQueue := false, waiting := Some(pid)));
      NoNewPidTransitive(k, BlockMark(k, pid), Schedule(BlockMark(k, pid)));
    case _ => PutNoNewPid(k, k.current, Cur(k).(waiting := None));
  }

  lemma ReapStepNoNewPid(k: Kernel, r: Ref)
    requires WellFormed(k) && r in k.pcb && SlotOf(k.table, r, 1) < MAX_TASK
    ensures NoNewPid(k, ReapStep(k, r)) && r !in ReapStep(k, r).pcb
  {
    ReapStepUnfold(k, r, Put(k, k.current, Cur(k).(waiting := None, time := Cur(k).time + k.pcb[r].time)));
  }

  lemma ResumeNoNewPid(k: Kernel)
    requires Invariant(k) && Cur(k).waiting.Some?
    ensures NoNewPid(k, Resume(k))
  {
    PutCurrentKeeps(k, Cur(k).(signal := Cur(k).signal.(chld := false)));
    if !Interrupted(k) {
      WaitNoNewPid(ClearChld(k), Cur(k).waiting.value);
    }
  }

  /** A pid that is gone never comes back. */
  lemma NextKeepsGone(k: Kernel, a: Action, p: int)
    requires Invariant(k) && Enabled(k, a) && Gone(k, p)
    ensures Gone(Next(k, a), p)
  {
    match a
    case ForkCall(r) =>
    case ExitCall =>
      ExitKeeps(k);
      ExitMarkNoNewPid(k);
      ScheduleNoNewPid(ExitMark(k));
      GoneStays(k, ExitMark(k), p);
      GoneStays(ExitMark(k), Next(k, a), p);
    case WaitCall(pid) =>
      WaitNoNewPid(k, pid);
      GoneStays(k, Next(k, a), p);
    case ResumeWait =>
      ResumeNoNewPid(k);
      GoneStays(k, Next(k, a), p);
    case SleepCall => SleepKeepsGone(k, p);
    case WakeupCall =>
    case TickCall => TickKeepsGone(k, p);
  }

  lemma SleepKeepsGone(k: Kernel, p: int)
    requires Invariant(k) && Gone(k, p)
    ensures Gone(Schedule(SleepMark(k)), p)
  {
    var t := Cur(k).(state := Wait, signal := Cur(k).signal.(stop := true));
    CurrentUnqueued(k);
    PutKeepsCore(k, k.current, t);
    ScheduleNoNewPid(SleepMark(k));
    GoneStays(k, SleepMark(k), p);
    GoneStays(SleepMark(k), Schedule(SleepMark(k)), p);
  }

  lemma TickKeepsGone(k: Kernel, p: int)
    requires Invariant(k) && Gone(k, p)
    ensures Gone(Tick(k), p)
  {
    var k' := Put(k, k.current, Ticked(Cur(k)));
    CurrentUnqueued(k);
    PutKeepsCore(k, k.current, Ticked(Cur(k)));
    GoneStays(k, k', p);
    if Preempts(Cur(k)) {
      ScheduleNoNewPid(k');
      GoneStays(k', Schedule(k'), p);
    }
  }

  /** What `waitpid` reaps was alive before and is gone afterwards. */
  lemma ReapByTakes(k: Kernel, pid: int)
    requires Invariant(k) && ReapedBy(k, pid).Some?
    ensures var p := ReapedBy(k, pid).value; !Gone(k, p) && Gone(WaitStep(k, pid), p)
  {
    var r := Outcome(k, pid).r;
    ReapedSlot(k, pid);
    ReapStepNoNewPid(k, r);
    var k' := ReapStep(k, r);
    forall q | q in k'.pcb ensures k'.pcb[q].pid != k.pcb[r].pid {
      assert !SamePid(k.pcb, q, r);
    }
  }

  lemma ReapTakes(k: Kernel, a: Action)
    requires Invariant(k) && Enabled(k, a) && Reaped(k, a).Some?
    ensures var p := Reaped(k, a).value; !Gone(k, p) && Gone(Next(k, a), p)
  {
    if a.WaitCall? {
      ReapByTakes(k, a.pid);
    } else {
      PutCurrentKeeps(k, Cur(k).(signal := Cur(k).signal.(chld := false)));
      var k' := ClearChld(k);
      ReapByTakes(k', Cur(k).waiting.value);
      var p := Reaped(k, a).value;
      if Gone(k, p) {
        GoneStays(k, k', p);
      }
    }
  }

  lemma {:induction false} GoneForever(ks: seq<Kernel>, acts: seq<Action>, i: nat, j: nat, p: int)
    requires Run(ks, acts) && i <= j < |ks| && Gone(ks[i], p)
    ensures Gone(ks[j], p)
    decreases j
  {
    if i < j {
      GoneForever(ks, acts, i, j - 1, p);
      EveryRunKeeps(ks, acts, j - 1);
      NextKeepsGone(ks[j - 1], acts[j - 1], p);
    }
  }

  /** In every run, no two calls of `waitpid` return the same zombie. */
  lemma ReapedAtMostOnce(ks: seq<Kernel>, acts: seq<Action>, i: nat, j: nat)
    requires Run(ks, acts) && i < j < |acts|
    requires Reaped(ks[i], acts[i]).Some? && Reaped(ks[j], acts[j]).Some?
    ensures Reaped(ks[i], acts[i]) != Reaped(ks[j], acts[j])
  {
    EveryRunKeeps(ks, acts, i);
    EveryRunKeeps(ks, acts, j);
    ReapTakes(ks[i], acts[i]);
    ReapTakes(ks[j], acts[j]);
    GoneForever(ks, acts, i + 1, j, Reaped(ks[i], acts[i]).value);
  }
}

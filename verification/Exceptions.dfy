/** Two limits of the life cycle, stated exactly: when `waitpid` returns -EINTR, and when a
    task is left without a living father (kernel/sys.c, kernel/sched/exit.c,
    kernel/sched/sched.c). Both come from the two tasks that the loops over slots 1 to 63 and
    the reaping of zombies pass by: TASK[0] and pid 1. */
module Exceptions {
  import opened SchedModel
  import opened SchedInvariant
  import opened Lifecycle
  import opened Wrappers

  // ------------------------------------------------- the signal word of TASK[0]

  /** TASK[0] is the same task with the same signal bits. */
  ghost predicate IdleKept(k: Kernel, k': Kernel) {
    && |k.table| == |k'.table| == MAX_TASK
    && k'.table[0] == k.table[0]
    && k.table[0] in k.pcb
    && k.table[0] in k'.pcb
    && k'.pcb[k.table[0]].signal == k.pcb[k.table[0]].signal
  }

  lemma PutIdle(k: Kernel, r: Ref, t: Task)
    requires WellFormed(k) && r in k.pcb && (r == k.table[0] ==> t.signal == k.pcb[r].signal)
    ensures IdleKept(k, Put(k, r, t))
  {
  }

  lemma IdleTransitive(a: Kernel, b: Kernel, c: Kernel)
    requires IdleKept(a, b) && IdleKept(b, c)
    ensures IdleKept(a, c)
  {
  }

  /** Neither `alter_state` nor the queues touch the signals of TASK[0]. */
  lemma ScheduleIdle(k: Kernel)
    requires Core(k)
    ensures IdleKept(k, Schedule(k))
  {
    ScheduleEstablishesInvariant(k);
    var r := k.table[0];
    assert SameButQueued(AlterState(k).pcb[r], Schedule(k).pcb[r]);
  }

  lemma TellFatherIdle(k: Kernel, f: int)
    requires WellFormed(k)
    ensures IdleKept(k, TellFather(k, f))
  {
    var s := PidSlot(k, f, 1);
    if f != 0 && s < MAX_TASK {
      PutIdle(k, k.table[s], Signalled(k.pcb[k.table[s]]));
    } else {
      var t := Cur(k).(father := 1);
      PutWellFormed(k, k.current, t);
      PutIdle(k, k.current, t);
      var k' := Put(k, k.current, t);
      if k.table[1] != NULL {
        PutIdle(k', k'.table[1], Signalled(k'.pcb[k'.table[1]]));
        IdleTransitive(k, k', Signal(k', k'.table[1]));
      }
    }
  }

  lemma OrphanSlotIdle(k: Kernel, i: nat)
    requires WellFormed(k) && 1 <= i < MAX_TASK
    ensures IdleKept(k, OrphanSlot(k, i))
  {
    var r := k.table[i];
    if r != NULL && k.pcb[r].father == Cur(k).pid {
      var t := k.pcb[r].(father := 1);
      PutWellFormed(k, r, t);
      PutIdle(k, r, t);
      TellFatherIdle(Put(k, r, t), 1);
      IdleTransitive(k, Put(k, r, t), TellFather(Put(k, r, t), 1));
    }
  }

  lemma OrphanFromIdle(k: Kernel, i: nat)
    requires WellFormed(k) && i < MAX_TASK
    ensures IdleKept(k, OrphanFrom(k, i))
  {
    var inv := (x: Kernel, _: int) => IdleKept(k, x);
    forall x, j | WellFormed(x) && 1 <= j < MAX_TASK && inv(x, j) ensures inv(OrphanSlot(x, j), j - 1) {
      OrphanSlotIdle(x, j);
      IdleTransitive(k, x, OrphanSlot(x, j));
    }
    OrphanFromInduction(k, i, inv);
  }

  lemma ExitIdle(k: Kernel)
    requires Invariant(k) && Cur(k).pid != 0
    ensures IdleKept(k, Schedule(ExitMark(k)))
  {
    var k1 := OrphanFrom(k, |k.table| - 1);
    OrphanFromIdle(k, |k.table| - 1);
    PutWellFormed(k1, k1.current, Exited(Cur(k1)));
    var k2 := Put(k1, k1.current, Exited(Cur(k1)));
    PutIdle(k1, k1.current, Exited(Cur(k1)));
    IdleTransitive(k, k1, k2);
    TellFatherIdle(k2, Cur(k2).father);
    IdleTransitive(k, k2, ExitMark(k));
    ExitKeeps(k);
    ScheduleIdle(ExitMark(k));
    IdleTransitive(k, ExitMark(k), Schedule(ExitMark(k)));
  }

  lemma ReapIdle(k: Kernel, r: Ref)
    requires WellFormed(k) && r in k.pcb && r != k.table[0] && SlotOf(k.table, r, 1) < MAX_TASK
    ensures IdleKept(k, ReapStep(k, r))
  {
    var t := Cur(k).(waiting := None, time := Cur(k).time + k.pcb[r].time);
    ReapStepUnfold(k, r, Put(k, k.current, t));
    PutIdle(k, k.current, t);
  }

  lemma WaitIdle(k: Kernel, pid: int)
    requires Invariant(k)
    ensures IdleKept(k, WaitStep(k, pid))
  {
    match Outcome(k, pid)
    case Reap(r) =>
      ReapedSlot(k, pid);
      ReapIdle(k, r);
    case Block =>
      BlockKeeps(k, pid);
      PutIdle(k, k.current, Cur(k).(state := Wait, inQueue := false, waiting := Some(pid)));
      ScheduleIdle(BlockMark(k, pid));
      IdleTransitive(k, BlockMark(k, pid), Schedule(BlockMark(k, pid)));
    case _ => PutIdle(k, k.current, Cur(k).(waiting := None));
  }

  lemma ResumeIdle(k: Kernel)
    requires Invariant(k) && Cur(k).waiting.Some? && !k.pcb[k.table[0]].signal.chld
    ensures IdleKept(k, Resume(k))
  {
    var t := Cur(k).(signal := Cur(k).signal.(chld := false));
    PutCurrentKeeps(k, t);
    PutIdle(k, k.current, t);
    var k' := ClearChld(k);
    if Interrupted(k) {
      PutIdle(k', k'.current, Cur(k').(waiting := None));
    } else {
      WaitIdle(k', Cur(k).waiting.value);
    }
    IdleTransitive(k, k', Resume(k));
  }

  lemma TickIdle(k: Kernel)
    requires Invariant(k)
    ensures IdleKept(k, Tick(k))
  {
    var k' := Put(k, k.current, Ticked(Cur(k)));
    CurrentUnqueued(k);
    PutKeepsCore(k, k.current, Ticked(Cur(k)));
    PutIdle(k, k.current, Ticked(Cur(k)));
    if Preempts(Cur(k)) {
      ScheduleIdle(k');
      IdleTransitive(k, k', Schedule(k'));
    }
  }

  /** TASK[0] calls `sleep`. */
  ghost predicate IdleSleeps(k: Kernel, a: Action) {
    a.SleepCall? && |k.table| == MAX_TASK && k.current == k.table[0]
  }

  lemma SleepIdle(k: Kernel)
    requires Invariant(k)
    ensures IdleKept(SleepMark(k), Schedule(SleepMark(k)))
  {
    CurrentUnqueued(k);
    PutKeepsCore(k, k.current, Cur(k).(state := Wait, signal := Cur(k).signal.(stop := true)));
    ScheduleIdle(SleepMark(k));
  }

  /** The signal word of TASK[0]: SIG_CHLD and SIG_CONT clear, SIG_STOP as given. */
  ghost predicate IdleStopped(k: Kernel, slept: bool) {
    && |k.table| == MAX_TASK
    && k.table[0] in k.pcb
    && k.pcb[k.table[0]].signal == Signals(false, slept, false)
  }

  /** Only a `sleep` of TASK[0] itself changes its signal word, and nothing clears the bit. */
  lemma NextIdle(k: Kernel, a: Action, slept: bool)
    requires Invariant(k) && Enabled(k, a) && IdleStopped(k, slept)
    ensures IdleStopped(Next(k, a), slept || IdleSleeps(k, a))
  {
    match a
    case ForkCall(r) =>
    case ExitCall => ExitIdle(k);
    case WaitCall(pid) => WaitIdle(k, pid);
    case ResumeWait => ResumeIdle(k);
    case SleepCall => SleepIdle(k);
    case WakeupCall =>
    case TickCall => TickIdle(k);
  }

  ghost predicate IdleSleepsAt(ks: seq<Kernel>, acts: seq<Action>, j: nat)
    requires j < |acts| < |ks|
  {
    IdleSleeps(ks[j], acts[j])
  }

  /** TASK[0] has called `sleep` in the first `i` steps. */
  ghost predicate IdleSlept(ks: seq<Kernel>, acts: seq<Action>, i: nat)
    requires i <= |acts| < |ks|
  {
    exists j :: 0 <= j < i && IdleSleepsAt(ks, acts, j)
  }

  lemma {:induction false} IdleSignal(ks: seq<Kernel>, acts: seq<Action>, i: nat)
    requires Run(ks, acts) && i < |ks|
    ensures IdleStopped(ks[i], IdleSlept(ks, acts, i))
    decreases i
  {
    if i != 0 {
      IdleSignal(ks, acts, i - 1);
      EveryRunKeeps(ks, acts, i - 1);
      NextIdle(ks[i - 1], acts[i - 1], IdleSlept(ks, acts, i - 1));
      SleptStep(ks, acts, i - 1);
    }
  }

  lemma SleptStep(ks: seq<Kernel>, acts: seq<Action>, i: nat)
    requires i < |acts| < |ks|
    ensures IdleSlept(ks, acts, i + 1) <==> IdleSlept(ks, acts, i) || IdleSleepsAt(ks, acts, i)
  {
    if IdleSlept(ks, acts, i) {
      var j :| 0 <= j < i && IdleSleepsAt(ks, acts, j);
      assert 0 <= j < i + 1 && IdleSleepsAt(ks, acts, j);
    }
  }

  /** A `waitpid` that blocked returns -EINTR exactly when its caller is TASK[0] and TASK[0] has
      ever slept: nothing else leaves a signal other than SIG_CHLD pending, and nothing clears
      that one. */
  lemma InterruptedIff(ks: seq<Kernel>, acts: seq<Action>, i: nat)
    requires RunWithInit(ks, acts) && i < |acts| && acts[i] == ResumeWait
    ensures WellFormed(ks[i])
    ensures Interrupted(ks[i]) <==> ks[i].current == ks[i].table[0] && IdleSlept(ks, acts, i)
  {
    if ks[i].current == ks[i].table[0] {
      IdleSignal(ks, acts, i);
    } else {
      NeverInterrupted(ks, acts, i);
    }
  }

  // ------------------------------------------------------- a run that is interrupted

  /** `schedule` leaves pids, signals and pending waits of TASK[0] and of tasks that no signal
      wakes. */
  lemma ScheduleKeepsTask(k: Kernel, k': Kernel, r: Ref)
    requires Core(k) && k' == Schedule(k) && r in k.pcb && (r == k.table[0] || Altered(k.pcb[r]) == k.pcb[r])
    ensures k'.table == k.table && k'.newPid == k.newPid && k'.pcb.Keys == k.pcb.Keys
    ensures SameButQueued(k.pcb[r], k'.pcb[r])
  {
    ScheduleEstablishesInvariant(k);
    AlteredTask(AlterState(k), k', r);
  }

  lemma AlteredTask(k: Kernel, k': Kernel, r: Ref)
    requires SameTasks(k, k') && r in k.pcb
    ensures SameButQueued(k.pcb[r], k'.pcb[r])
  {
  }

  /** With one task beside TASK[0], `schedule` runs it if it can run. */
  lemma ScheduleOfTwo(k: Kernel, k': Kernel, r: Ref)
    requires Core(k) && k' == Schedule(k)
    requires k.pcb.Keys == {k.table[0], r} && r != k.table[0] && Altered(k.pcb[r]) == k.pcb[r]
    ensures k'.current == if Runnable(k.pcb[r]) then r else k.table[0]
  {
    IdleWhenNone(k, k');
    assert AlterState(k).pcb[r] == k.pcb[r];
    if Runnable(k.pcb[r]) {
      PicksAnother(k, k');
    }
  }

  lemma IdleWhenNone(k: Kernel, k': Kernel)
    requires Core(k) && k' == Schedule(k)
    ensures k'.current == k.table[0] <==> forall r :: r in k.pcb && r != k.table[0] ==> !Runnable(AlterState(k).pcb[r])
  {
    IdleOnlyWhenNothingRunnable(k);
  }

  lemma PicksAnother(k: Kernel, k': Kernel)
    requires Core(k) && k' == Schedule(k)
    ensures k'.current in k.pcb.Keys
  {
    ScheduleEstablishesInvariant(k);
  }

  lemma ScheduleOfOne(k: Kernel, k': Kernel)
    requires Core(k) && k' == Schedule(k) && k.pcb.Keys == {k.table[0]}
    ensures k'.current == k.table[0]
  {
    IdleOnlyWhenNothingRunnable(k);
  }

  /** TASK[0] alone, before its first fork. */
  ghost predicate Alone(k: Kernel) {
    && Invariant(k)
    && k.current == k.table[0]
    && k.table[1] == NULL
    && k.newPid == 0
    && k.pcb.Keys == {k.table[0]}
    && Cur(k).waiting.None?
  }

  lemma InitialAlone(k: Kernel)
    requires Initial(k)
    ensures Alone(k)
  {
    InitialInvariant(k);
  }

  lemma SleepAlone(k: Kernel, k': Kernel)
    requires Alone(k) && k' == Schedule(SleepMark(k))
    ensures Alone(k') && k'.table[0] == k.table[0] && Cur(k').signal.stop
  {
    SleepKeeps(k);
    CurrentUnqueued(k);
    PutKeepsCore(k, k.current, Cur(k).(state := Wait, signal := Cur(k).signal.(stop := true)));
    ScheduleOfOne(SleepMark(k), k');
    ScheduleKeepsTask(SleepMark(k), k', k.table[0]);
  }

  /** TASK[0] and its first child, at address `r`. */
  ghost predicate Pair(k: Kernel, r: Ref) {
    && Invariant(k)
    && r != k.table[0]
    && k.table[1] == r
    && k.pcb.Keys == {k.table[0], r}
    && k.pcb[r].pid == 1
    && k.pcb[r].father == 0
    && k.pcb[r].signal == NO_SIGNAL
    && k.pcb[r].waiting.None?
  }

  lemma ForkAlone(k: Kernel, r: Ref)
    requires Alone(k) && r != NULL && r != k.table[0]
    ensures Enabled(k, ForkCall(r))
    ensures var k' := Fork(k, r);
      && Pair(k', r)
      && k'.current == k'.table[0] == k.table[0]
      && k'.pcb[r].state.Ready?
      && Cur(k') == Cur(k)
  {
    assert r !in k.pcb.Keys;
    assert FreeSlot(k.table, 1) == 1;
    ForkKeeps(k, r);
  }

  /** TASK[0] finds its child alive and blocks; the child runs. */
  lemma WaitForChild(k: Kernel, r: Ref, k': Kernel)
    requires Pair(k, r) && k.current == k.table[0] && k.pcb[r].state.Ready? && k' == WaitStep(k, -1)
    ensures Pair(k', r) && k'.current == r && k'.table[0] == k.table[0]
    ensures k'.pcb[k.table[0]].waiting == Some(-1) && k'.pcb[k.table[0]].signal == k.pcb[k.table[0]].signal
  {
    BlocksOnChild(k, r);
    BlockKeeps(k, -1);
    var b := BlockMark(k, -1);
    assert b.pcb.Keys == k.pcb.Keys && b.pcb[r] == k.pcb[r];
    ScheduleOfTwo(b, k', r);
    ScheduleKeepsTask(b, k', r);
    ScheduleKeepsTask(b, k', k.table[0]);
  }

  lemma BlocksOnChild(k: Kernel, r: Ref)
    requires Pair(k, r) && k.current == k.table[0] && k.pcb[r].state.Ready?
    ensures Outcome(k, -1) == Block
  {
    var w := Outcome(k, -1);
    assert k.table[1] == r && Accepts(k, k.table[1], -1);
    if w.Reap? || w.Report? {
      ScannedIsChild(k, w.r);
    }
  }

  lemma ScannedIsChild(k: Kernel, q: Ref)
    requires WellFormed(k) && q in k.pcb && q in k.table[1..]
    ensures q != k.table[0]
  {
    var i :| 0 <= i < MAX_TASK - 1 && k.table[1..][i] == q;
    assert k.table[i + 1] == q;
  }

  /** The child sleeps, so TASK[0] is all that is left to run. */
  lemma ChildSleeps(k: Kernel, r: Ref, k': Kernel)
    requires Pair(k, r) && k.current == r && k' == Schedule(SleepMark(k))
    ensures Invariant(k') && k'.current == k'.table[0] == k.table[0]
    ensures Cur(k').waiting == k.pcb[k.table[0]].waiting && Cur(k').signal == k.pcb[k.table[0]].signal
  {
    SleepKeeps(k);
    CurrentUnqueued(k);
    PutKeepsCore(k, k.current, Cur(k).(state := Wait, signal := Cur(k).signal.(stop := true)));
    ScheduleOfTwo(SleepMark(k), k', r);
    ScheduleKeepsTask(SleepMark(k), k', k.table[0]);
  }

  ghost predicate Step(k: Kernel, a: Action, k': Kernel) {
    Enabled(k, a) && InitStays(k, a) && k' == Next(k, a)
  }

  /** There is a run from `k` to `k'` with these actions. */
  ghost predicate Reaches(k: Kernel, acts: seq<Action>, k': Kernel) {
    exists ks :: RunWithInit(ks, acts) && ks[0] == k && ks[|acts|] == k'
  }

  lemma ReachesSelf(k: Kernel)
    requires Initial(k)
    ensures Reaches(k, [], k)
  {
    assert RunWithInit([k], []);
  }

  lemma ReachesNext(k: Kernel, acts: seq<Action>, k1: Kernel, a: Action, k2: Kernel)
    requires Reaches(k, acts, k1) && Step(k1, a, k2)
    ensures Reaches(k, acts + [a], k2)
  {
    var ks :| RunWithInit(ks, acts) && ks[0] == k && ks[|acts|] == k1;
    OneMoreStep(ks, acts, a, k2);
    ReachesBy(k, acts + [a], k2, ks + [k2]);
  }

  lemma ReachesBy(k: Kernel, acts: seq<Action>, k': Kernel, ks: seq<Kernel>)
    requires RunWithInit(ks, acts) && ks[0] == k && ks[|acts|] == k'
    ensures Reaches(k, acts, k')
  {
  }

  lemma OneMoreStep(ks: seq<Kernel>, acts: seq<Action>, a: Action, k': Kernel)
    requires RunWithInit(ks, acts) && Step(ks[|acts|], a, k')
    ensures RunWithInit(ks + [k'], acts + [a])
  {
    var ks', acts' := ks + [k'], acts + [a];
    forall i | 0 <= i < |acts'| ensures Step(ks'[i], acts'[i], ks'[i + 1]) {
      if i < |acts| {
        StepOfRun(ks, acts, i);
      }
    }
    StepsAreRun(ks', acts');
  }

  lemma StepOfRun(ks: seq<Kernel>, acts: seq<Action>, i: nat)
    requires RunWithInit(ks, acts) && i < |acts|
    ensures Step(ks[i], acts[i], ks[i + 1])
  {
  }

  lemma StepsAreRun(ks: seq<Kernel>, acts: seq<Action>)
    requires |ks| == |acts| + 1 && Initial(ks[0])
    requires forall i {:trigger acts[i]} :: 0 <= i < |acts| ==> Step(ks[i], acts[i], ks[i + 1])
    ensures RunWithInit(ks, acts)
  {
    forall i {:trigger acts[i]} | 0 <= i < |acts| ensures Enabled(ks[i], acts[i]) && ks[i + 1] == Next(ks[i], acts[i]) && InitStays(ks[i], acts[i]) {
      assert Step(ks[i], acts[i], ks[i + 1]);
    }
  }

  lemma SleepStep(k: Kernel, k': Kernel)
    requires WellFormed(k) && Cur(k).waiting.None? && k' == Schedule(SleepMark(k))
    ensures Step(k, SleepCall, k')
  {
  }

  lemma ForkStep(k: Kernel, r: Ref, k': Kernel)
    requires Enabled(k, ForkCall(r)) && k' == Fork(k, r)
    ensures Step(k, ForkCall(r), k')
  {
  }

  lemma WaitCallStep(k: Kernel, pid: int, k': Kernel)
    requires WellFormed(k) && Cur(k).waiting.None? && k' == WaitStep(k, pid)
    ensures Step(k, WaitCall(pid), k')
  {
  }

  /** TASK[0] sleeps: */
  lemma IdleSleepsFirst(k: Kernel, acts: seq<Action>, k1: Kernel) returns (k': Kernel)
    requires Reaches(k, acts, k1) && Alone(k1)
    ensures Reaches(k, acts + [SleepCall], k') && Alone(k') && k'.table[0] == k1.table[0] && Cur(k').signal.stop
  {
    k' := Schedule(SleepMark(k1));
    SleepAlone(k1, k');
    SleepStep(k1, k');
    ReachesNext(k, acts, k1, SleepCall, k');
  }

  /** then forks: */
  lemma ThenForks(k: Kernel, acts: seq<Action>, k1: Kernel, r: Ref) returns (k': Kernel)
    requires Reaches(k, acts, k1) && Alone(k1) && Cur(k1).signal.stop && r != NULL && r != k1.table[0]
    ensures Reaches(k, acts + [ForkCall(r)], k') && Pair(k', r) && k'.current == k'.table[0] && k'.pcb[r].state.Ready?
    ensures Cur(k').signal.stop && Cur(k').waiting.None?
  {
    ForkAlone(k1, r);
    k' := Fork(k1, r);
    ForkStep(k1, r, k');
    ReachesNext(k, acts, k1, ForkCall(r), k');
  }

  /** then waits for its child: */
  lemma ThenWaits(k: Kernel, acts: seq<Action>, k1: Kernel, r: Ref) returns (k': Kernel)
    requires Reaches(k, acts, k1) && Pair(k1, r) && k1.current == k1.table[0] && k1.pcb[r].state.Ready?
    requires Cur(k1).signal.stop && Cur(k1).waiting.None?
    ensures Reaches(k, acts + [WaitCall(-1)], k') && Pair(k', r) && k'.current == r
    ensures var t := k'.pcb[k'.table[0]]; t.signal.stop && t.waiting.Some?
  {
    k' := WaitStep(k1, -1);
    WaitForChild(k1, r, k');
    WaitCallStep(k1, -1, k');
    ReachesNext(k, acts, k1, WaitCall(-1), k');
  }

  /** which sleeps. */
  lemma ThenChildSleeps(k: Kernel, acts: seq<Action>, k1: Kernel, r: Ref) returns (k': Kernel)
    requires Reaches(k, acts, k1) && Pair(k1, r) && k1.current == r
    requires var t := k1.pcb[k1.table[0]]; t.signal.stop && t.waiting.Some?
    ensures Reaches(k, acts + [SleepCall], k')
    ensures Enabled(k', ResumeWait) && k'.current == k'.table[0] && Interrupted(k')
  {
    k' := Schedule(SleepMark(k1));
    ChildSleeps(k1, r, k');
    SleepStep(k1, k');
    ReachesNext(k, acts, k1, SleepCall, k');
  }

  /** So the `waitpid` of TASK[0] returns -EINTR. */
  lemma InterruptedRun(k: Kernel, r: Ref) returns (k': Kernel)
    requires Initial(k) && r != NULL && r != k.table[0]
    ensures Reaches(k, [SleepCall, ForkCall(r), WaitCall(-1), SleepCall], k')
    ensures Enabled(k', ResumeWait) && k'.current == k'.table[0] && Interrupted(k')
  {
    InitialAlone(k);
    ReachesSelf(k);
    k' := IdleSleepsFirst(k, [], k);
    assert [] + [SleepCall] == [SleepCall];
    k' := ThenForks(k, [SleepCall], k', r);
    assert [SleepCall] + [ForkCall(r)] == [SleepCall, ForkCall(r)];
    k' := ThenWaits(k, [SleepCall, ForkCall(r)], k', r);
    assert [SleepCall, ForkCall(r)] + [WaitCall(-1)] == [SleepCall, ForkCall(r), WaitCall(-1)];
    k' := ThenChildSleeps(k, [SleepCall, ForkCall(r), WaitCall(-1)], k', r);
    assert [SleepCall, ForkCall(r), WaitCall(-1)] + [SleepCall] == [SleepCall, ForkCall(r), WaitCall(-1), SleepCall];
  }

  // ---------------------------------------------------------------- pid 1 exits

  /** A task at `r` that belongs to pid 1. */
  ghost predicate BelongsToInit(k: Kernel, r: Ref) {
    r in k.pcb && k.pcb[r].father == 1
  }

  lemma PutBelongs(k: Kernel, q: Ref, t: Task, r: Ref)
    requires BelongsToInit(k, r) && q in k.pcb && (t.father == k.pcb[q].father || t.father == 1)
    ensures BelongsToInit(Put(k, q, t), r)
  {
  }

  lemma TellFatherBelongs(k: Kernel, f: int, r: Ref)
    requires WellFormed(k) && BelongsToInit(k, r)
    ensures BelongsToInit(TellFather(k, f), r)
  {
    var s := PidSlot(k, f, 1);
    if f != 0 && s < MAX_TASK {
      PutBelongs(k, k.table[s], Signalled(k.pcb[k.table[s]]), r);
    } else {
      var t := Cur(k).(father := 1);
      PutWellFormed(k, k.current, t);
      PutBelongs(k, k.current, t, r);
      var k' := Put(k, k.current, t);
      if k.table[1] != NULL {
        PutBelongs(k', k'.table[1], Signalled(k'.pcb[k'.table[1]]), r);
      }
    }
  }

  /** The loop of `do_exit` gives children to pid 1 and takes none away. */
  lemma OrphanFromBelongs(k: Kernel, i: nat, r: Ref)
    requires WellFormed(k) && i < MAX_TASK && BelongsToInit(k, r)
    ensures BelongsToInit(OrphanFrom(k, i), r)
  {
    var inv := (x: Kernel, _: int) => BelongsToInit(x, r);
    forall x, j | WellFormed(x) && 1 <= j < MAX_TASK && inv(x, j) ensures inv(OrphanSlot(x, j), j - 1) {
      var q := x.table[j];
      if q != NULL && x.pcb[q].father == Cur(x).pid {
        var t := x.pcb[q].(father := 1);
        PutWellFormed(x, q, t);
        PutBelongs(x, q, t, r);
        TellFatherBelongs(Put(x, q, t), 1, r);
      }
    }
    OrphanFromInduction(k, i, inv);
  }

  lemma ExitMarkBelongs(k: Kernel, r: Ref)
    requires WellFormed(k) && BelongsToInit(k, r)
    ensures BelongsToInit(ExitMark(k), r)
  {
    var k1 := OrphanFrom(k, |k.table| - 1);
    OrphanFromBelongs(k, |k.table| - 1, r);
    PutWellFormed(k1, k1.current, Exited(Cur(k1)));
    PutBelongs(k1, k1.current, Exited(Cur(k1)), r);
    TellFatherBelongs(Put(k1, k1.current, Exited(Cur(k1))), Cur(k1).father, r);
  }

  /** The task that leaves is a zombie with its old pid. */
  lemma ExitMarkZombie(k: Kernel)
    requires Life(k) && Cur(k).pid != 0
    ensures var k' := ExitMark(k); k.current in k'.pcb && k'.pcb[k.current].pid == Cur(k).pid && k'.pcb[k.current].state.Zombie?
  {
    CurrentAlive(k);
    var k1 := OrphanFrom(k, |k.table| - 1);
    assert FatherOk(k, k.current);
    OrphanFromKin(k, |k.table| - 1);
    KinCurrent(k, k1);
    PutWellFormed(k1, k1.current, Exited(Cur(k1)));
    var k2 := Put(k1, k1.current, Exited(Cur(k1)));
    TellFatherZombie(k2, Cur(k2).father);
  }

  lemma TellFatherZombie(k: Kernel, f: int)
    requires WellFormed(k)
    ensures var k' := TellFather(k, f);
      k.current in k'.pcb && k'.pcb[k.current].pid == Cur(k).pid && k'.pcb[k.current].state == Cur(k).state
  {
  }

  /** Nobody alive has the pid of the task that left. */
  lemma NobodyAlive(k: Kernel, k': Kernel)
    requires Life(k) && Cur(k).pid != 0 && k' == Schedule(ExitMark(k))
    ensures Invariant(k') && k.current in k'.pcb && k'.pcb[k.current].state.Zombie? && !HasAlive(k', Cur(k).pid)
  {
    ExitKeeps(k);
    ExitMarkZombie(k);
    ScheduleSameIdentity(ExitMark(k));
    forall s ensures !Alive(k', s, Cur(k).pid) {
      assert SamePid(k'.pcb, s, k.current) ==> s == k.current;
    }
  }

  /** After pid 1 exits, every task that belonged to it is left with a dead father. */
  lemma InitExitOrphans(k: Kernel, k': Kernel, r: Ref)
    requires Life(k) && Cur(k).pid == 1 && BelongsToInit(k, r) && k' == Schedule(ExitMark(k))
    ensures BelongsToInit(k', r) && !HasAlive(k', 1)
  {
    NobodyAlive(k, k');
    ExitKeeps(k);
    ExitMarkBelongs(k, r);
    ScheduleSameIdentity(ExitMark(k));
  }

  /** The life cycle law survives a step exactly if the step is not an exit of pid 1. */
  lemma LifeKeptIff(k: Kernel, a: Action)
    requires Life(k) && Enabled(k, a)
    ensures Life(Next(k, a)) <==> InitStays(k, a)
  {
    if InitStays(k, a) {
      NextLife(k, a);
    } else {
      InitExitEndsLife(k, Next(k, a));
    }
  }

  /** A dead pid 1 stays in slot 1 as a zombie, which the law forbids. */
  lemma InitExitEndsLife(k: Kernel, k': Kernel)
    requires Life(k) && Cur(k).pid == 1 && k' == Schedule(ExitMark(k))
    ensures !Life(k')
  {
    NobodyAlive(k, k');
    ExitKeeps(k);
    ExitMarkTable(k);
    ScheduleSameIdentity(ExitMark(k));
    assert SamePid(k.pcb, k.current, k.table[1]);
  }

  lemma ExitMarkTable(k: Kernel)
    requires Life(k) && Cur(k).pid != 0
    ensures ExitMark(k).table == k.table
  {
    CurrentAlive(k);
    assert FatherOk(k, k.current);
    OrphanFromKin(k, |k.table| - 1);
  }
}

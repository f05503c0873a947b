/** Sleeping and being woken (kernel/sched/sched.c): a task that slept stays out until `wakeup` or
    SIG_CHLD, and after that the next `schedule` makes it runnable. */
module Wakeups {
  import opened SchedModel
  import opened SchedInvariant
  import opened Lifecycle
  import opened Kinship
  import opened WaitAnswers
  import opened Wrappers

  /** Asleep, with no signal that ends it. */
  ghost predicate Asleep(k: Kernel, r: Ref) {
    r in k.pcb && k.pcb[r].state.Wait? && k.pcb[r].signal == Signals(false, true, false) && k.pcb[r].waiting.None?
  }

  /** Out, with a signal that ends it. */
  ghost predicate Called(k: Kernel, r: Ref) {
    r in k.pcb && k.pcb[r].state.Wait? && (k.pcb[r].signal.chld || k.pcb[r].signal.cont)
  }

  /** Back, with nothing pending. */
  ghost predicate Awake(k: Kernel, r: Ref) {
    r in k.pcb && Runnable(k.pcb[r]) && k.pcb[r].signal == NO_SIGNAL
  }

  // -------------------------------------------------------------------- schedule

  /** `schedule` leaves a task that is out with no such signal alone, and wakes one with. */
  lemma ScheduleWakes(k: Kernel, k': Kernel, r: Ref)
    requires Core(k) && k' == Schedule(k) && r in k.pcb && r != k.table[0] && k.pcb[r].state.Wait?
    ensures Called(k, r) ==> Awake(k', r)
    ensures Asleep(k, r) ==> Asleep(k', r)
  {
    ScheduleEstablishesInvariant(k);
    AlterWakes(k, AlterState(k), r);
    QueuedSame(AlterState(k), k', r);
  }

  lemma AlterWakes(k: Kernel, k': Kernel, r: Ref)
    requires WellFormed(k) && k' == AlterState(k) && r in k.pcb && r != k.table[0]
    ensures r in k'.pcb && k'.pcb[r] == Altered(k.pcb[r])
  {
  }

  lemma QueuedSame(k: Kernel, k': Kernel, r: Ref)
    requires SameTasks(k, k') && r in k.pcb
    ensures r in k'.pcb && SameButQueued(k.pcb[r], k'.pcb[r])
  {
  }

  /** `wakeup` ends every sleep of slots 1 to 63. */
  lemma WakeupCalls(k: Kernel, k': Kernel, r: Ref)
    requires WellFormed(k) && k' == Wakeup(k) && r in k.pcb && r != k.table[0] && k.pcb[r].state.Wait? && k.pcb[r].signal.stop
    ensures Called(k', r) && k'.table == k.table
  {
  }

  /** So the first `schedule` after a `wakeup` makes every sleeper runnable. */
  lemma WakeupWakes(k: Kernel, r: Ref)
    requires Invariant(k) && r in k.pcb && r != k.table[0] && k.pcb[r].state.Wait? && k.pcb[r].signal.stop
    ensures WellFormed(Wakeup(k)) && Awake(Schedule(Wakeup(k)), r)
  {
    WakeupKeeps(k);
    WakeupCalls(k, Wakeup(k), r);
    ScheduleWakes(Wakeup(k), Schedule(Wakeup(k)), r);
  }

  // ------------------------------------------------------------------ every step

  /** Does the action call `schedule`? */
  ghost predicate Schedules(k: Kernel, a: Action)
    requires Enabled(k, a)
  {
    match a
    case ForkCall(_) => false
    case ExitCall => true
    case WaitCall(pid) => Outcome(k, pid).Block?
    case ResumeWait => !Interrupted(k) && Outcome(ClearChld(k), Cur(k).waiting.value).Block?
    case SleepCall => true
    case WakeupCall => false
    case TickCall => Preempts(Cur(k))
  }

  /** An exit that sends SIG_CHLD to the task at `r`. */
  ghost predicate Notifies(k: Kernel, a: Action, r: Ref)
    requires Enabled(k, a)
  {
    a.ExitCall? && r in ExitMark(k).pcb && ExitMark(k).pcb[r].signal.chld
  }

  /** From `k` to `k'` through a `schedule`: a sleeper sleeps on, and one that was called is back. */
  ghost predicate Through(k: Kernel, k': Kernel, r: Ref) {
    (Called(k, r) ==> Awake(k', r)) && (Asleep(k, r) ==> Asleep(k', r))
  }

  /** From `k` to `k'` without: it stays as it is. */
  ghost predicate Still(k: Kernel, k': Kernel, r: Ref) {
    (Called(k, r) ==> Called(k', r)) && (Asleep(k, r) ==> Asleep(k', r))
  }

  lemma SameThrough(k: Kernel, k1: Kernel, k': Kernel, r: Ref)
    requires WellFormed(k) && Core(k1) && k1.table == k.table && k' == Schedule(k1)
    requires r in k.pcb && r in k1.pcb && k1.pcb[r] == k.pcb[r] && r != k.table[0] && k.pcb[r].state.Wait?
    ensures Through(k, k', r)
  {
    ScheduleWakes(k1, k', r);
  }

  /** A task that is out is not `current`. */
  lemma OutIsNotCurrent(k: Kernel, r: Ref)
    requires QueueInvariant(k) && r in k.pcb && r != k.table[0] && k.pcb[r].state.Wait?
    ensures r != k.current
  {
  }

  lemma SleepStep(k: Kernel, k': Kernel, r: Ref)
    requires Invariant(k) && k' == Schedule(SleepMark(k)) && r in k.pcb && r != k.table[0] && k.pcb[r].state.Wait?
    ensures Through(k, k', r)
  {
    OutIsNotCurrent(k, r);
    CurrentUnqueued(k);
    PutKeepsCore(k, k.current, Cur(k).(state := Wait, signal := Cur(k).signal.(stop := true)));
    SameThrough(k, SleepMark(k), k', r);
  }

  lemma TickStep(k: Kernel, k': Kernel, r: Ref)
    requires Invariant(k) && k' == Tick(k) && r in k.pcb && r != k.table[0] && k.pcb[r].state.Wait?
    ensures if Preempts(Cur(k)) then Through(k, k', r) else Still(k, k', r)
  {
    OutIsNotCurrent(k, r);
    CurrentUnqueued(k);
    PutKeepsCore(k, k.current, Ticked(Cur(k)));
    if Preempts(Cur(k)) {
      SameThrough(k, Put(k, k.current, Ticked(Cur(k))), k', r);
    }
  }

  lemma WaitStepOf(k: Kernel, pid: int, k': Kernel, r: Ref)
    requires Invariant(k) && k' == WaitStep(k, pid) && r in k.pcb && r != k.table[0] && k.pcb[r].state.Wait?
    ensures if Outcome(k, pid).Block? then Through(k, k', r) else Still(k, k', r)
  {
    OutIsNotCurrent(k, r);
    match Outcome(k, pid)
    case Reap(q) =>
      ReapedSlot(k, pid);
      ReapStepUnfold(k, q, Put(k, k.current, Cur(k).(waiting := None, time := Cur(k).time + k.pcb[q].time)));
    case Block =>
      BlockKeeps(k, pid);
      SameThrough(k, BlockMark(k, pid), k', r);
    case _ =>
  }

  lemma ResumeStep(k: Kernel, k': Kernel, r: Ref)
    requires Invariant(k) && Enabled(k, ResumeWait) && k' == Resume(k) && r in k.pcb && r != k.table[0] && k.pcb[r].state.Wait?
    ensures if Schedules(k, ResumeWait) then Through(k, k', r) else Still(k, k', r)
  {
    OutIsNotCurrent(k, r);
    if !Interrupted(k) {
      PutCurrentKeeps(k, Cur(k).(signal := Cur(k).signal.(chld := false)));
      WaitStepOf(ClearChld(k), Cur(k).waiting.value, k', r);
    }
  }

  /** An exit calls `schedule` too, and may have sent SIG_CHLD before. */
  lemma ExitStep(k: Kernel, k': Kernel, r: Ref)
    requires Life(k) && Enabled(k, ExitCall) && k' == Schedule(ExitMark(k)) && r in k.pcb && r != k.table[0] && k.pcb[r].state.Wait?
    ensures Called(k, r) || Notifies(k, ExitCall, r) ==> Awake(k', r)
    ensures Asleep(k, r) && !Notifies(k, ExitCall, r) ==> Asleep(k', r)
  {
    OutIsNotCurrent(k, r);
    CurrentAlive(k);
    assert FatherOk(k, k.current);
    ExitKeeps(k);
    var m := ExitMark(k);
    ExitMarkReparents(k, m, r);
    ExitMarkTable(k);
    ScheduleWakes(m, k', r);
  }

  lemma ExitMarkTable(k: Kernel)
    requires Exiting(k) && Cur(k).father != Cur(k).pid
    ensures ExitMark(k).table == k.table
  {
    OrphanFromReparents(k, k.current);
  }

  /** Every step, for a task that is out. */
  lemma OutStep(k: Kernel, a: Action, k': Kernel, r: Ref)
    requires Life(k) && Enabled(k, a) && k' == Next(k, a) && r in k.pcb && r != k.table[0] && k.pcb[r].state.Wait?
    ensures Asleep(k, r) && !a.WakeupCall? && !Notifies(k, a, r) ==> Asleep(k', r)
    ensures Asleep(k, r) && a.WakeupCall? ==> Called(k', r)
    ensures Called(k, r) || Notifies(k, a, r) ==> if Schedules(k, a) then Awake(k', r) else Called(k', r)
  {
    match a
    case ForkCall(q) =>
    case ExitCall => ExitStep(k, k', r);
    case WaitCall(pid) => WaitStepOf(k, pid, k', r);
    case ResumeWait => ResumeStep(k, k', r);
    case SleepCall => SleepStep(k, k', r);
    case WakeupCall => WakeupStep(k, k', r);
    case TickCall => TickStep(k, k', r);
  }

  lemma WakeupStep(k: Kernel, k': Kernel, r: Ref)
    requires WellFormed(k) && k' == Wakeup(k) && r in k.pcb && r != k.table[0] && k.pcb[r].state.Wait?
    ensures Asleep(k, r) || Called(k, r) ==> Called(k', r)
  {
  }

  /** A task that calls `sleep` is asleep afterwards, unless SIG_CHLD was pending: then it does not
      sleep at all. */
  lemma SleepSleeps(k: Kernel, k': Kernel)
    requires Life(k) && k.current != k.table[0] && Enabled(k, SleepCall) && k' == Next(k, SleepCall)
    ensures if Cur(k).signal.chld then Awake(k', k.current) else Asleep(k', k.current)
  {
    CurrentAlive(k);
    CurrentUnqueued(k);
    PutKeepsCore(k, k.current, Cur(k).(state := Wait, signal := Cur(k).signal.(stop := true)));
    ScheduleWakes(SleepMark(k), k', k.current);
  }

  // -------------------------------------------------------------------- every run

  /** Not TASK[0]. */
  ghost predicate Numbered(k: Kernel, r: Ref) { r in k.pcb && k.pcb[r].pid > 0 }

  lemma NumberedStays(k: Kernel, a: Action, k': Kernel, r: Ref)
    requires Life(k) && Enabled(k, a) && InitStays(k, a) && k' == Next(k, a) && Numbered(k, r) && !k.pcb[r].state.Zombie?
    ensures Numbered(k', r)
  {
    if ReapedTask(k, a).Some? {
      ReapedIsDeadChild(k, a);
    }
    NextKin(k, a, k', r);
  }

  /** Step `x` neither calls `wakeup` nor sends SIG_CHLD to the task at `r`. */
  ghost predicate LetsSleep(ks: seq<Kernel>, acts: seq<Action>, x: nat, r: Ref)
    requires x < |acts| < |ks|
  {
    Enabled(ks[x], acts[x]) && !acts[x].WakeupCall? && !Notifies(ks[x], acts[x], r)
  }

  /** The task at `r`, which is not TASK[0], sleeps in state `x`. */
  ghost predicate SleepsAt(ks: seq<Kernel>, x: nat, r: Ref)
    requires x < |ks|
  {
    Asleep(ks[x], r) && Numbered(ks[x], r)
  }

  ghost predicate CalledAt(ks: seq<Kernel>, x: nat, r: Ref)
    requires x < |ks|
  {
    Called(ks[x], r) && Numbered(ks[x], r)
  }

  /** At step `i` the task at `r` calls `sleep`. */
  ghost predicate GoesToSleep(ks: seq<Kernel>, acts: seq<Action>, i: nat, r: Ref)
    requires i < |acts| < |ks|
  {
    && acts[i] == SleepCall && ks[i].current == r && Numbered(ks[i], r)
    && !ks[i].pcb[r].signal.chld
  }

  lemma FirstSleeps(ks: seq<Kernel>, acts: seq<Action>, i: nat, r: Ref)
    requires RunWithInit(ks, acts) && i < |acts| && GoesToSleep(ks, acts, i, r)
    ensures SleepsAt(ks, i + 1, r)
  {
    EveryRunLives(ks, acts, i);
    CurrentAlive(ks[i]);
    SleepSleeps(ks[i], ks[i + 1]);
    NumberedStays(ks[i], acts[i], ks[i + 1], r);
  }

  lemma SleepsOn(ks: seq<Kernel>, acts: seq<Action>, x: nat, r: Ref)
    requires RunWithInit(ks, acts) && x < |acts| && SleepsAt(ks, x, r) && LetsSleep(ks, acts, x, r)
    ensures SleepsAt(ks, x + 1, r)
  {
    EveryRunLives(ks, acts, x);
    OutStep(ks[x], acts[x], ks[x + 1], r);
    NumberedStays(ks[x], acts[x], ks[x + 1], r);
  }

  lemma IsCalled(ks: seq<Kernel>, acts: seq<Action>, x: nat, r: Ref)
    requires RunWithInit(ks, acts) && x < |acts| && SleepsAt(ks, x, r) && acts[x] == WakeupCall
    ensures CalledAt(ks, x + 1, r)
  {
    EveryRunLives(ks, acts, x);
    OutStep(ks[x], acts[x], ks[x + 1], r);
    NumberedStays(ks[x], acts[x], ks[x + 1], r);
  }

  ghost predicate SchedulesAt(ks: seq<Kernel>, acts: seq<Action>, x: nat)
    requires x < |acts| < |ks|
  {
    Enabled(ks[x], acts[x]) && Schedules(ks[x], acts[x])
  }

  lemma CalledOn(ks: seq<Kernel>, acts: seq<Action>, x: nat, r: Ref)
    requires RunWithInit(ks, acts) && x < |acts| && CalledAt(ks, x, r)
    ensures if SchedulesAt(ks, acts, x) then Awake(ks[x + 1], r) else CalledAt(ks, x + 1, r)
  {
    EveryRunLives(ks, acts, x);
    OutStep(ks[x], acts[x], ks[x + 1], r);
    NumberedStays(ks[x], acts[x], ks[x + 1], r);
  }

  // ------------------------------------------------------------------ over a run

  /** What a run is for one task: in which states it sleeps, was called, or is back, and which steps
      put it to sleep, let it sleep, call `wakeup`, or call `schedule`. */
  datatype Trace = Trace(sleeps: seq<bool>, called: seq<bool>, back: seq<bool>,
                         goes: seq<bool>, lets: seq<bool>, wakes: seq<bool>, schedules: seq<bool>)

  ghost predicate Shaped(t: Trace) {
    && |t.goes| == |t.lets| == |t.wakes| == |t.schedules|
    && |t.sleeps| == |t.called| == |t.back| == |t.goes| + 1
  }

  ghost predicate LawAt(t: Trace, x: nat)
    requires Shaped(t) && x < |t.goes|
  {
    && (t.goes[x] ==> t.sleeps[x + 1])
    && (t.sleeps[x] && t.lets[x] ==> t.sleeps[x + 1])
    && (t.sleeps[x] && t.wakes[x] ==> t.called[x + 1])
    && (t.called[x] ==> if t.schedules[x] then t.back[x + 1] else t.called[x + 1])
  }

  ghost predicate Lawful(t: Trace) {
    Shaped(t) && forall x :: 0 <= x < |t.goes| ==> LawAt(t, x)
  }

  ghost function TraceOf(ks: seq<Kernel>, acts: seq<Action>, r: Ref): Trace
    requires |ks| == |acts| + 1
  {
    Trace(
      seq(|ks|, x requires 0 <= x < |ks| => SleepsAt(ks, x, r)),
      seq(|ks|, x requires 0 <= x < |ks| => CalledAt(ks, x, r)),
      seq(|ks|, x requires 0 <= x < |ks| => Awake(ks[x], r)),
      seq(|acts|, x requires 0 <= x < |acts| => GoesToSleep(ks, acts, x, r)),
      seq(|acts|, x requires 0 <= x < |acts| => LetsSleep(ks, acts, x, r)),
      seq(|acts|, x requires 0 <= x < |acts| => acts[x].WakeupCall?),
      seq(|acts|, x requires 0 <= x < |acts| => SchedulesAt(ks, acts, x)))
  }

  lemma RunLawAt(ks: seq<Kernel>, acts: seq<Action>, r: Ref, x: nat)
    requires RunWithInit(ks, acts) && x < |acts|
    ensures Shaped(TraceOf(ks, acts, r)) && LawAt(TraceOf(ks, acts, r), x)
  {
    if GoesToSleep(ks, acts, x, r) {
      FirstSleeps(ks, acts, x, r);
    }
    if SleepsAt(ks, x, r) && LetsSleep(ks, acts, x, r) {
      SleepsOn(ks, acts, x, r);
    }
    if SleepsAt(ks, x, r) && acts[x].WakeupCall? {
      IsCalled(ks, acts, x, r);
    }
    if CalledAt(ks, x, r) {
      CalledOn(ks, acts, x, r);
    }
  }

  /** Every run in which pid 1 does not exit obeys this, for every task. */
  lemma RunIsLawful(ks: seq<Kernel>, acts: seq<Action>, r: Ref)
    requires RunWithInit(ks, acts)
    ensures Lawful(TraceOf(ks, acts, r))
  {
    var t := TraceOf(ks, acts, r);
    forall x | 0 <= x < |t.goes| ensures LawAt(t, x) {
      RunLawAt(ks, acts, r, x);
    }
  }

  /** A task that went to sleep sleeps on as long as every step lets it. */
  lemma {:induction false} SleepsUntil(t: Trace, i: nat, j: nat)
    requires Lawful(t) && i < j < |t.sleeps| && t.goes[i] && forall x :: i < x < j ==> t.lets[x]
    ensures t.sleeps[j]
    decreases j
  {
    assert LawAt(t, j - 1);
    if j > i + 1 {
      SleepsUntil(t, i, j - 1);
    }
  }

  lemma {:induction false} CalledUntil(t: Trace, j: nat, m: nat)
    requires Lawful(t) && j <= m < |t.called| && t.called[j] && forall x :: j <= x < m ==> !t.schedules[x]
    ensures t.called[m]
    decreases m
  {
    if j < m {
      CalledUntil(t, j, m - 1);
      assert LawAt(t, m - 1);
    }
  }

  /** In every run in which pid 1 does not exit: a task other than TASK[0] that goes to sleep at step
      `i` sleeps in every state up to the first `wakeup`, at step `j`, unless it gets SIG_CHLD; and
      the first step after that which calls `schedule` brings it back, runnable and with no signal
      left. */
  lemma WokenByWakeup(ks: seq<Kernel>, acts: seq<Action>, r: Ref, i: nat, j: nat, m: nat)
    requires RunWithInit(ks, acts) && i < j < m < |acts|
    requires var t := TraceOf(ks, acts, r);
      && t.goes[i] && (forall x :: i < x < j ==> t.lets[x]) && t.wakes[j]
      && (forall x :: j < x < m ==> !t.schedules[x]) && t.schedules[m]
    ensures var t := TraceOf(ks, acts, r); (forall x :: i < x <= j ==> t.sleeps[x]) && t.back[m + 1]
  {
    var t := TraceOf(ks, acts, r);
    RunIsLawful(ks, acts, r);
    WokenIn(t, i, j, m);
  }

  lemma WokenIn(t: Trace, i: nat, j: nat, m: nat)
    requires Lawful(t) && i < j < m < |t.goes|
    requires t.goes[i] && (forall x :: i < x < j ==> t.lets[x]) && t.wakes[j]
    requires (forall x :: j < x < m ==> !t.schedules[x]) && t.schedules[m]
    ensures (forall x :: i < x <= j ==> t.sleeps[x]) && t.back[m + 1]
  {
    forall x | i < x <= j ensures t.sleeps[x] {
      SleepsUntil(t, i, x);
    }
    assert LawAt(t, j) && LawAt(t, m);
    CalledUntil(t, j + 1, m);
  }
}

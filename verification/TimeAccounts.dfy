/** Processor time (timer/timer.c, kernel/sys.c): every tick is charged to one task, and a father
    takes over the time of the child it reaps, so the times of all tasks together are always the
    number of ticks since boot. */
module TimeAccounts {
  import opened SchedModel
  import opened SchedInvariant
  import opened Lifecycle
  import opened Wrappers

  ghost function SlotTime(k: Kernel, i: nat): int
    requires WellFormed(k) && i < MAX_TASK
  {
    if k.table[i] == NULL then 0 else k.pcb[k.table[i]].time
  }

  /** The times of slots 0 to `i`. */
  ghost function TimeUpTo(k: Kernel, i: nat): int
    requires WellFormed(k) && i < MAX_TASK
    decreases i
  {
    SlotTime(k, i) + if i == 0 then 0 else TimeUpTo(k, i - 1)
  }

  ghost function TotalTime(k: Kernel): int
    requires WellFormed(k)
  {
    TimeUpTo(k, |k.table| - 1)
  }

  /** Slot `s` has `d` more than before. */
  ghost predicate Charged(k: Kernel, k': Kernel, s: nat, d: int)
    requires WellFormed(k) && WellFormed(k')
  {
    forall j :: 0 <= j < MAX_TASK ==> SlotTime(k', j) == SlotTime(k, j) + if j == s then d else 0
  }

  lemma {:induction false} ChargedUpTo(k: Kernel, k': Kernel, s: nat, d: int, i: nat)
    requires WellFormed(k) && WellFormed(k') && Charged(k, k', s, d) && i < MAX_TASK
    ensures TimeUpTo(k', i) == TimeUpTo(k, i) + if s <= i then d else 0
    decreases i
  {
    if i != 0 {
      ChargedUpTo(k, k', s, d, i - 1);
    }
  }

  lemma ChargedTotal(k: Kernel, k': Kernel, s: nat, d: int)
    requires WellFormed(k) && WellFormed(k') && Charged(k, k', s, d) && s < MAX_TASK
    ensures TotalTime(k') == TotalTime(k) + d
  {
    ChargedUpTo(k, k', s, d, |k.table| - 1);
  }

  // ------------------------------------------------------ what changes no time

  ghost predicate SameTimes(k: Kernel, k': Kernel) {
    && k'.table == k.table && k'.pcb.Keys == k.pcb.Keys
    && (forall r :: r in k.pcb ==> k'.pcb[r].time == k.pcb[r].time)
  }

  lemma SameTotal(k: Kernel, k': Kernel)
    requires WellFormed(k) && WellFormed(k') && SameTimes(k, k')
    ensures TotalTime(k') == TotalTime(k)
  {
    ChargedTotal(k, k', 0, 0);
  }

  lemma SameTimesTransitive(a: Kernel, b: Kernel, c: Kernel)
    requires SameTimes(a, b) && SameTimes(b, c)
    ensures SameTimes(a, c)
  {
  }

  lemma PutSame(k: Kernel, r: Ref, t: Task)
    requires r in k.pcb && t.time == k.pcb[r].time
    ensures SameTimes(k, Put(k, r, t))
  {
  }

  lemma ScheduleSame(k: Kernel, k': Kernel)
    requires Core(k) && k' == Schedule(k)
    ensures WellFormed(k') && SameTimes(k, k')
  {
    ScheduleEstablishesInvariant(k);
    AlterSame(k, AlterState(k));
    TasksSame(AlterState(k), k');
    SameTimesTransitive(k, AlterState(k), k');
  }

  lemma AlterSame(k: Kernel, k': Kernel)
    requires WellFormed(k) && k' == AlterState(k)
    ensures SameTimes(k, k')
  {
  }

  lemma TasksSame(k: Kernel, k': Kernel)
    requires SameTasks(k, k')
    ensures SameTimes(k, k')
  {
    forall r | r in k.pcb ensures k'.pcb[r].time == k.pcb[r].time {
      assert SameButQueued(k.pcb[r], k'.pcb[r]);
    }
  }

  lemma TellFatherSame(k: Kernel, f: int)
    requires WellFormed(k)
    ensures SameTimes(k, TellFather(k, f))
  {
    var s := PidSlot(k, f, 1);
    if f != 0 && s < MAX_TASK {
      PutSame(k, k.table[s], Signalled(k.pcb[k.table[s]]));
    } else {
      var t := Cur(k).(father := 1);
      PutWellFormed(k, k.current, t);
      PutSame(k, k.current, t);
      var k' := Put(k, k.current, t);
      if k.table[1] != NULL {
        PutSame(k', k'.table[1], Signalled(k'.pcb[k'.table[1]]));
        SameTimesTransitive(k, k', Signal(k', k'.table[1]));
      }
    }
  }

  lemma OrphanSlotSame(k: Kernel, i: nat)
    requires WellFormed(k) && 1 <= i < MAX_TASK
    ensures SameTimes(k, OrphanSlot(k, i))
  {
    var r := k.table[i];
    if r != NULL && k.pcb[r].father == Cur(k).pid {
      var t := k.pcb[r].(father := 1);
      PutWellFormed(k, r, t);
      PutSame(k, r, t);
      TellFatherSame(Put(k, r, t), 1);
      SameTimesTransitive(k, Put(k, r, t), TellFather(Put(k, r, t), 1));
    }
  }

  lemma OrphanFromSame(k: Kernel, i: nat)
    requires WellFormed(k) && i < MAX_TASK
    ensures SameTimes(k, OrphanFrom(k, i))
  {
    var inv := (x: Kernel, _: int) => SameTimes(k, x);
    forall x, j | WellFormed(x) && 1 <= j < MAX_TASK && inv(x, j) ensures inv(OrphanSlot(x, j), j - 1) {
      OrphanSlotSame(x, j);
      SameTimesTransitive(k, x, OrphanSlot(x, j));
    }
    OrphanFromInduction(k, i, inv);
  }

  lemma ExitMarkSame(k: Kernel)
    requires WellFormed(k)
    ensures SameTimes(k, ExitMark(k))
  {
    var k1 := OrphanFrom(k, |k.table| - 1);
    OrphanFromSame(k, |k.table| - 1);
    PutWellFormed(k1, k1.current, Exited(Cur(k1)));
    var k2 := Put(k1, k1.current, Exited(Cur(k1)));
    PutSame(k1, k1.current, Exited(Cur(k1)));
    SameTimesTransitive(k, k1, k2);
    TellFatherSame(k2, Cur(k2).father);
    SameTimesTransitive(k, k2, ExitMark(k));
  }

  // ------------------------------------------------------------------ the steps

  /** Put and `schedule`, with `d` charged to `current`. */
  lemma PutTotal(k: Kernel, t: Task, d: int)
    requires WellFormed(k) && WellFormed(Put(k, k.current, t)) && t.time == Cur(k).time + d
    ensures TotalTime(Put(k, k.current, t)) == TotalTime(k) + d
  {
    ChargedTotal(k, Put(k, k.current, t), Cur(k).slot, d);
  }

  lemma ThenSchedule(k: Kernel, k': Kernel)
    requires Core(k) && k' == Schedule(k)
    ensures WellFormed(k') && TotalTime(k') == TotalTime(k)
  {
    ScheduleSame(k, k');
    SameTotal(k, k');
  }

  lemma TickTotal(k: Kernel)
    requires Invariant(k)
    ensures WellFormed(Tick(k)) && TotalTime(Tick(k)) == TotalTime(k) + 1
  {
    CurrentUnqueued(k);
    PutKeepsCore(k, k.current, Ticked(Cur(k)));
    PutTotal(k, Ticked(Cur(k)), 1);
    if Preempts(Cur(k)) {
      ThenSchedule(Put(k, k.current, Ticked(Cur(k))), Tick(k));
    }
  }

  lemma ForkTotal(k: Kernel, r: Ref)
    requires Invariant(k) && Enabled(k, ForkCall(r))
    ensures WellFormed(Fork(k, r)) && TotalTime(Fork(k, r)) == TotalTime(k)
  {
    ForkWellFormed(k, r);
    ChargedTotal(k, Fork(k, r), FreeSlot(k.table, 1), 0);
  }

  /** The time of the zombie goes to its father. */
  lemma ReapTotal(k: Kernel, pid: int, r: Ref)
    requires Invariant(k) && Outcome(k, pid) == Reap(r)
    ensures WellFormed(ReapStep(k, r)) && TotalTime(ReapStep(k, r)) == TotalTime(k)
  {
    ReapedSlot(k, pid);
    ReapKeeps(k, pid, r);
    var t := Cur(k).(waiting := None, time := Cur(k).time + k.pcb[r].time);
    var k1 := Put(k, k.current, t);
    ReapStepUnfold(k, r, k1);
    PutTotal(k, t, k.pcb[r].time);
    ReleaseTotal(k1, r);
  }

  lemma ReleaseTotal(k: Kernel, r: Ref)
    requires WellFormed(k) && r in k.pcb && r != k.table[0] && SlotOf(k.table, r, 1) < MAX_TASK && WellFormed(Release(k, r))
    ensures TotalTime(Release(k, r)) == TotalTime(k) - k.pcb[r].time
  {
    var k', s := Release(k, r), SlotOf(k.table, r, 1);
    ReleaseCharges(k, r, k', s);
    ChargedTotal(k, k', s, 0 - k.pcb[r].time);
  }

  lemma ReleaseCharges(k: Kernel, r: Ref, k': Kernel, s: nat)
    requires WellFormed(k) && r in k.pcb && 1 <= s < MAX_TASK && k.table[s] == r
    requires k' == k.(table := k.table[s := NULL], pcb := k.pcb - {r}) && WellFormed(k')
    ensures Charged(k, k', s, 0 - k.pcb[r].time)
  {
    forall j | 0 <= j < MAX_TASK ensures SlotTime(k', j) == SlotTime(k, j) + if j == s then 0 - k.pcb[r].time else 0 {
      assert j != s && k.table[j] != NULL ==> k.table[j] != r;
    }
  }

  lemma WaitTotal(k: Kernel, pid: int)
    requires Invariant(k)
    ensures WellFormed(WaitStep(k, pid)) && TotalTime(WaitStep(k, pid)) == TotalTime(k)
  {
    WaitKeeps(k, pid);
    match Outcome(k, pid)
    case Reap(r) => ReapTotal(k, pid, r);
    case Block =>
      BlockKeeps(k, pid);
      PutTotal(k, Cur(k).(state := Wait, inQueue := false, waiting := Some(pid)), 0);
      ThenSchedule(BlockMark(k, pid), WaitStep(k, pid));
    case _ => PutTotal(k, Cur(k).(waiting := None), 0);
  }

  lemma ResumeTotal(k: Kernel)
    requires Invariant(k) && Cur(k).waiting.Some?
    ensures WellFormed(Resume(k)) && TotalTime(Resume(k)) == TotalTime(k)
  {
    ResumeKeeps(k);
    var t := Cur(k).(signal := Cur(k).signal.(chld := false));
    PutCurrentKeeps(k, t);
    PutTotal(k, t, 0);
    var k' := ClearChld(k);
    if Interrupted(k) {
      PutTotal(k', Cur(k').(waiting := None), 0);
    } else {
      WaitTotal(k', Cur(k).waiting.value);
    }
  }

  lemma SleepTotal(k: Kernel)
    requires Invariant(k)
    ensures WellFormed(Schedule(SleepMark(k))) && TotalTime(Schedule(SleepMark(k))) == TotalTime(k)
  {
    var t := Cur(k).(state := Wait, signal := Cur(k).signal.(stop := true));
    CurrentUnqueued(k);
    PutKeepsCore(k, k.current, t);
    PutTotal(k, t, 0);
    ThenSchedule(SleepMark(k), Schedule(SleepMark(k)));
  }

  lemma ExitTotal(k: Kernel)
    requires Invariant(k) && Cur(k).pid != 0
    ensures WellFormed(Schedule(ExitMark(k))) && TotalTime(Schedule(ExitMark(k))) == TotalTime(k)
  {
    ExitKeeps(k);
    ExitMarkSame(k);
    SameTotal(k, ExitMark(k));
    ThenSchedule(ExitMark(k), Schedule(ExitMark(k)));
  }

  lemma WakeupTotal(k: Kernel)
    requires Invariant(k)
    ensures WellFormed(Wakeup(k)) && TotalTime(Wakeup(k)) == TotalTime(k)
  {
    WakeupKeeps(k);
    WakeupSame(k, Wakeup(k));
    SameTotal(k, Wakeup(k));
  }

  lemma WakeupSame(k: Kernel, k': Kernel)
    requires WellFormed(k) && k' == Wakeup(k)
    ensures SameTimes(k, k')
  {
  }

  /** Only a tick adds time, and it adds one. */
  lemma NextTotal(k: Kernel, a: Action, k': Kernel)
    requires Invariant(k) && Enabled(k, a) && k' == Next(k, a)
    ensures WellFormed(k') && TotalTime(k') == TotalTime(k) + if a.TickCall? then 1 else 0
  {
    match a
    case ForkCall(r) => ForkTotal(k, r);
    case ExitCall => ExitTotal(k);
    case WaitCall(pid) => WaitTotal(k, pid);
    case ResumeWait => ResumeTotal(k);
    case SleepCall => SleepTotal(k);
    case WakeupCall => WakeupTotal(k);
    case TickCall => TickTotal(k);
  }

  /** The ticks among the first `i` actions. */
  ghost function TicksIn(acts: seq<Action>, i: nat): nat
    requires i <= |acts|
  {
    if i == 0 then 0 else TicksIn(acts, i - 1) + if acts[i - 1].TickCall? then 1 else 0
  }

  lemma InitialTotal(k: Kernel)
    requires Initial(k)
    ensures WellFormed(k) && TotalTime(k) == 0
  {
    InitialInvariant(k);
    NothingAbove(k, |k.table| - 1);
  }

  lemma {:induction false} NothingAbove(k: Kernel, i: nat)
    requires Initial(k) && WellFormed(k) && i < MAX_TASK
    ensures TimeUpTo(k, i) == 0
    decreases i
  {
    if i != 0 {
      NothingAbove(k, i - 1);
    }
  }

  ghost function Totals(ks: seq<Kernel>): (ts: seq<int>)
    ensures |ts| == |ks|
  {
    seq(|ks|, i requires 0 <= i < |ks| => if WellFormed(ks[i]) then TotalTime(ks[i]) else 0)
  }

  ghost predicate CountsAt(ts: seq<int>, acts: seq<Action>, i: nat)
    requires i < |acts| < |ts|
  {
    ts[i + 1] == ts[i] + if acts[i].TickCall? then 1 else 0
  }

  lemma StepCounts(ks: seq<Kernel>, acts: seq<Action>, i: nat)
    requires Run(ks, acts) && i < |acts|
    ensures CountsAt(Totals(ks), acts, i)
  {
    EveryRunKeeps(ks, acts, i);
    NextTotal(ks[i], acts[i], ks[i + 1]);
  }

  lemma {:induction false} CountsTicks(ts: seq<int>, acts: seq<Action>, i: nat)
    requires i <= |acts| < |ts| && ts[0] == 0 && forall x :: 0 <= x < i ==> CountsAt(ts, acts, x)
    ensures ts[i] == TicksIn(acts, i)
    decreases i
  {
    if i != 0 {
      CountsTicks(ts, acts, i - 1);
      assert CountsAt(ts, acts, i - 1);
    }
  }

  /** In every state of every run the times of all tasks, zombies included, add up to the number of
      ticks so far. */
  lemma TimeIsConserved(ks: seq<Kernel>, acts: seq<Action>, i: nat)
    requires Run(ks, acts) && i < |ks|
    ensures WellFormed(ks[i]) && TotalTime(ks[i]) == TicksIn(acts, i)
  {
    InitialTotal(ks[0]);
    EveryRunKeeps(ks, acts, i);
    var ts := Totals(ks);
    forall x | 0 <= x < i ensures CountsAt(ts, acts, x) {
      StepCounts(ks, acts, x);
    }
    CountsTicks(ts, acts, i);
  }
}

/** Who belongs to whom (kernel/sched/fork.c, kernel/sched/exit.c, kernel/sys.c): exactly how each
    step changes pids, fathers and zombies, and what that makes of a forked child over runs. */
module Kinship {
  import opened SchedModel
  import opened SchedInvariant
  import opened Lifecycle
  import opened Wrappers

  // ------------------------------------------------------ what a step leaves alone

  /** The fields of a task that `schedule` does not touch and kinship rests on. */
  ghost predicate SameKin(t: Task, u: Task) {
    && u.pid == t.pid && u.father == t.father && u.waiting == t.waiting
    && (u.state.Zombie? <==> t.state.Zombie?)
  }

  lemma ScheduleKin(k: Kernel, k': Kernel, r: Ref)
    requires Core(k) && k' == Schedule(k) && r in k.pcb
    ensures k'.pcb.Keys == k.pcb.Keys && SameKin(k.pcb[r], k'.pcb[r])
  {
    ScheduleEstablishesInvariant(k);
    AlterKin(k, AlterState(k), r);
    KinThrough(k, AlterState(k), k', r);
  }

  lemma AlterKin(k: Kernel, k': Kernel, r: Ref)
    requires WellFormed(k) && k' == AlterState(k) && r in k.pcb
    ensures k'.pcb.Keys == k.pcb.Keys && SameKin(k.pcb[r], k'.pcb[r])
  {
  }

  lemma KinThrough(k: Kernel, k1: Kernel, k2: Kernel, r: Ref)
    requires SameTasks(k1, k2) && r in k.pcb && r in k1.pcb && SameKin(k.pcb[r], k1.pcb[r])
    ensures SameKin(k.pcb[r], k2.pcb[r])
  {
    assert SameButQueued(k1.pcb[r], k2.pcb[r]);
  }

  // -------------------------------------------------------------- exit, exactly

  /** The new father of a task when the task with pid `gone` exits. */
  function NewFather(father: int, gone: int): int { if father == gone then 1 else father }

  /** What the loop of `do_exit` leaves of a task other than `current`: only its father may
      change, and SIG_CHLD may be added. */
  ghost predicate Reparented(t: Task, u: Task, father: int) {
    && u == t.(father := father, signal := u.signal)
    && u.signal == t.signal.(chld := u.signal.chld)
    && (t.signal.chld ==> u.signal.chld)
  }

  /** ... once the loop has done the slots above `i`. */
  ghost predicate ReparentedDown(k: Kernel, x: Kernel, r: Ref, i: int) {
    && k.current in k.pcb && x.current in x.pcb && r in k.pcb && r in x.pcb
    && x.table == k.table && x.current == k.current
    && Cur(x).pid == Cur(k).pid && Cur(x).father == Cur(k).father && Cur(x).waiting == Cur(k).waiting
    && (r != k.current ==>
          Reparented(k.pcb[r], x.pcb[r], if k.pcb[r].slot > i then NewFather(k.pcb[r].father, Cur(k).pid) else k.pcb[r].father))
  }

  lemma OrphanSlotReparents(k: Kernel, x: Kernel, r: Ref, i: nat)
    requires 1 <= i < MAX_TASK && Exiting(x) && ReparentedDown(k, x, r, i) && Cur(k).father != Cur(k).pid
    ensures ReparentedDown(k, OrphanSlot(x, i), r, i - 1)
  {
    var q := x.table[i];
    if q != NULL && x.pcb[q].father == Cur(x).pid {
      var x1 := Put(x, q, x.pcb[q].(father := 1));
      AdoptKeeps(x, q);
      OrphanSlotIs(x, i, x1);
      AdoptReparents(k, x, r, i, x1);
      SignalReparents(k, x1, r, i - 1, x1.table[1]);
    } else {
      assert x.pcb[r].slot == i ==> q == r;
    }
  }

  lemma AdoptReparents(k: Kernel, x: Kernel, r: Ref, i: nat, x1: Kernel)
    requires 1 <= i < MAX_TASK && WellFormed(x) && ReparentedDown(k, x, r, i) && Cur(k).father != Cur(k).pid
    requires x.table[i] != NULL && x.pcb[x.table[i]].father == Cur(x).pid
    requires x1 == Put(x, x.table[i], x.pcb[x.table[i]].(father := 1)) && WellFormed(x1)
    ensures ReparentedDown(k, x1, r, i - 1)
  {
    assert x.pcb[r].slot == i ==> x.table[i] == r;
  }

  lemma SignalReparents(k: Kernel, x: Kernel, r: Ref, i: int, s: Ref)
    requires WellFormed(x) && ReparentedDown(k, x, r, i) && s in x.pcb
    ensures ReparentedDown(k, Signal(x, s), r, i)
  {
  }

  lemma OrphanSlotIs(x: Kernel, i: nat, x1: Kernel)
    requires Exiting(x) && 1 <= i < MAX_TASK && x.table[i] != NULL && x.pcb[x.table[i]].father == Cur(x).pid
    requires x1 == Put(x, x.table[i], x.pcb[x.table[i]].(father := 1)) && Exiting(x1)
    ensures x1.table[1] in x1.pcb
    ensures OrphanSlot(x, i) == if x.pcb[x.table[i]].state.Zombie? then Signal(x1, x1.table[1]) else x1
  {
    TellInit(x1);
  }

  /** The loop of `do_exit` gives the children of the task that leaves to pid 1, and touches no
      other father. */
  lemma OrphanFromReparents(k: Kernel, r: Ref)
    requires Exiting(k) && Cur(k).father != Cur(k).pid && r in k.pcb
    ensures ReparentedDown(k, OrphanFrom(k, |k.table| - 1), r, 0)
  {
    StartsReparented(k, r, |k.table| - 1);
    OrphanRest(k, k, r, |k.table| - 1);
  }

  lemma StartsReparented(k: Kernel, r: Ref, i: nat)
    requires Exiting(k) && r in k.pcb && i == MAX_TASK - 1
    ensures ReparentedDown(k, k, r, i)
  {
  }

  lemma {:induction false} OrphanRest(k: Kernel, x: Kernel, r: Ref, i: nat)
    requires i < MAX_TASK && Exiting(x) && ReparentedDown(k, x, r, i) && Cur(k).father != Cur(k).pid
    ensures ReparentedDown(k, OrphanFrom(x, i), r, 0)
    decreases i
  {
    if i != 0 {
      var x1 := OrphanNext(k, x, r, i);
      OrphanRest(k, x1, r, i - 1);
    }
  }

  lemma OrphanNext(k: Kernel, x: Kernel, r: Ref, i: nat) returns (x1: Kernel)
    requires 1 <= i < MAX_TASK && Exiting(x) && ReparentedDown(k, x, r, i) && Cur(k).father != Cur(k).pid
    ensures Exiting(x1) && ReparentedDown(k, x1, r, i - 1) && OrphanFrom(x, i) == OrphanFrom(x1, i - 1)
  {
    x1 := OrphanSlot(x, i);
    OrphanSlotKeeps(x, i);
    OrphanSlotReparents(k, x, r, i);
  }

  /** A task other than `current`, after `do_exit` has marked the caller. */
  lemma ExitMarkReparents(k: Kernel, k': Kernel, r: Ref)
    requires Exiting(k) && Cur(k).father != Cur(k).pid && k' == ExitMark(k) && r in k.pcb && r != k.current
    ensures r in k'.pcb && Reparented(k.pcb[r], k'.pcb[r], if k.pcb[r].slot == 0 then k.pcb[r].father else NewFather(k.pcb[r].father, Cur(k).pid))
  {
    OrphanFromReparents(k, r);
    var k1 := OrphanFrom(k, |k.table| - 1);
    var k2 := Put(k1, k1.current, Exited(Cur(k1)));
    PutWellFormed(k1, k1.current, Exited(Cur(k1)));
    TellFatherOthers(k2, Cur(k2).father, r);
  }

  /** `tell_father` adds SIG_CHLD to one task and changes no father but that of `current`. */
  lemma TellFatherOthers(k: Kernel, f: int, r: Ref)
    requires WellFormed(k) && r in k.pcb && r != k.current
    ensures var k' := TellFather(k, f); r in k'.pcb && Reparented(k.pcb[r], k'.pcb[r], k.pcb[r].father)
  {
    var s := PidSlot(k, f, 1);
    if f != 0 && s < MAX_TASK {
      SignalOthers(k, k.table[s], r);
    } else {
      PutWellFormed(k, k.current, Cur(k).(father := 1));
      var k' := Put(k, k.current, Cur(k).(father := 1));
      if k.table[1] != NULL {
        SignalOthers(k', k.table[1], r);
      }
    }
  }

  lemma SignalOthers(k: Kernel, s: Ref, r: Ref)
    requires WellFormed(k) && s in k.pcb && r in k.pcb
    ensures r in Signal(k, s).pcb && Reparented(k.pcb[r], Signal(k, s).pcb[r], k.pcb[r].father)
  {
  }

  /** The caller: a zombie with its old pid, whose father is pid 1 if it was TASK[0]. */
  lemma ExitMarkCaller(k: Kernel, k': Kernel)
    requires Life(k) && Cur(k).pid != 0 && k' == ExitMark(k)
    ensures k.current in k'.pcb && k'.pcb[k.current].state.Zombie? && k'.pcb[k.current].pid == Cur(k).pid
    ensures k'.pcb[k.current].waiting == Cur(k).waiting
    ensures k'.pcb[k.current].father == if Cur(k).father == 0 then 1 else Cur(k).father
  {
    CurrentAlive(k);
    assert FatherOk(k, k.current);
    var k1 := OrphanFrom(k, |k.table| - 1);
    var k2 := Put(k1, k1.current, Exited(Cur(k1)));
    PutWellFormed(k1, k1.current, Exited(Cur(k1)));
    OrphanFromReparents(k, k.current);
    if Cur(k).father != 0 {
      FatherStays(k, k1, k2);
    }
    TellFatherCaller(k2, Cur(k2).father);
  }

  lemma TellFatherCaller(k: Kernel, f: int)
    requires WellFormed(k)
    ensures var k' := TellFather(k, f);
      && k.current in k'.pcb && k'.pcb[k.current].pid == Cur(k).pid && k'.pcb[k.current].state == Cur(k).state
      && k'.pcb[k.current].waiting == Cur(k).waiting
      && k'.pcb[k.current].father == if f != 0 && PidSlot(k, f, 1) < MAX_TASK then Cur(k).father else 1
  {
  }

  /** A father other than TASK[0] is in one of the slots that `tell_father` searches. */
  lemma FatherStays(k: Kernel, k1: Kernel, k2: Kernel)
    requires Life(k) && Cur(k).pid != 0 && Cur(k).father != 0 && k1 == OrphanFrom(k, |k.table| - 1)
    requires k2 == Put(k1, k1.current, Exited(Cur(k1))) && WellFormed(k2) && FatherOk(k, k.current)
    ensures PidSlot(k2, Cur(k2).father, 1) < MAX_TASK
  {
    var s := AliveFather(k);
    OrphanFromReparents(k, s);
    PidFound(k2, s);
  }

  lemma AliveFather(k: Kernel) returns (s: Ref)
    requires Life(k) && Cur(k).pid != 0 && Cur(k).father != 0 && FatherOk(k, k.current)
    ensures Exiting(k) && s in k.pcb && s != k.table[0] && s != k.current && k.pcb[s].pid == Cur(k).father
  {
    CurrentAlive(k);
    s :| Alive(k, s, Cur(k).father);
  }

  lemma PidFound(k: Kernel, s: Ref)
    requires WellFormed(k) && s in k.pcb && s != k.table[0]
    ensures PidSlot(k, k.pcb[s].pid, 1) < MAX_TASK
  {
    assert k.table[k.pcb[s].slot] == s;
  }

  // ---------------------------------------------------------------- every step

  /** The father of the task at `r` after action `a`. */
  ghost function FatherAfter(k: Kernel, a: Action, r: Ref): int
    requires WellFormed(k) && r in k.pcb
  {
    var f := k.pcb[r].father;
    if !a.ExitCall? || r == k.table[0] then f
    else if r == k.current then (if f == 0 then 1 else f)
    else NewFather(f, Cur(k).pid)
  }

  ghost predicate KinTask(t: Task, u: Task, father: int, dies: bool, acts: bool) {
    && u.pid == t.pid
    && u.father == father
    && (u.state.Zombie? <==> t.state.Zombie? || dies)
    && (u.waiting == t.waiting || acts)
  }

  /** A task that is still there has its pid, the father it should have, is a zombie if it was or
      has just exited, and is inside the same `waitpid` unless it is the one that acts. */
  ghost predicate KinStep(k: Kernel, a: Action, k': Kernel, r: Ref)
    requires WellFormed(k) && r in k.pcb
  {
    && r in k'.pcb
    && KinTask(k.pcb[r], k'.pcb[r], FatherAfter(k, a, r), a.ExitCall? && r == k.current, r == k.current && (a.WaitCall? || a.ResumeWait?))
  }

  /** `schedule` at the end of a step changes nothing of this. */
  lemma ThenSchedule(k: Kernel, k': Kernel, r: Ref, t: Task, father: int, dies: bool, acts: bool)
    requires Core(k) && k' == Schedule(k) && r in k.pcb && KinTask(t, k.pcb[r], father, dies, acts)
    ensures r in k'.pcb && KinTask(t, k'.pcb[r], father, dies, acts)
  {
    ScheduleKin(k, k', r);
  }

  lemma ExitMarkKin(k: Kernel, m: Kernel, r: Ref)
    requires Life(k) && Cur(k).pid >= 2 && m == ExitMark(k) && r in k.pcb
    ensures r in m.pcb && KinTask(k.pcb[r], m.pcb[r], FatherAfter(k, ExitCall, r), r == k.current, false)
  {
    if r == k.current {
      ExitMarkCaller(k, m);
    } else {
      ExitMarkOther(k, m, r);
    }
  }

  lemma ExitMarkOther(k: Kernel, m: Kernel, r: Ref)
    requires Life(k) && Cur(k).pid >= 2 && m == ExitMark(k) && r in k.pcb && r != k.current
    ensures r in m.pcb && KinTask(k.pcb[r], m.pcb[r], FatherAfter(k, ExitCall, r), false, false)
  {
    CurrentAlive(k);
    assert FatherOk(k, k.current);
    ExitMarkReparents(k, m, r);
    assert k.pcb[r].slot == 0 <==> r == k.table[0];
  }

  lemma ExitKin(k: Kernel, k': Kernel, r: Ref)
    requires Life(k) && Cur(k).pid >= 2 && k' == Schedule(ExitMark(k)) && r in k.pcb
    ensures KinStep(k, ExitCall, k', r)
  {
    ExitMarkKin(k, ExitMark(k), r);
    ExitKeeps(k);
    ThenSchedule(ExitMark(k), k', r, k.pcb[r], FatherAfter(k, ExitCall, r), r == k.current, false);
  }

  lemma ReapKin(k: Kernel, k': Kernel, q: Ref, r: Ref)
    requires WellFormed(k) && q in k.pcb && r in k.pcb && r != q && SlotOf(k.table, q, 1) < MAX_TASK && k' == ReapStep(k, q)
    ensures r in k'.pcb && KinTask(k.pcb[r], k'.pcb[r], k.pcb[r].father, false, r == k.current)
  {
    ReapStepUnfold(k, q, Put(k, k.current, Cur(k).(waiting := None, time := Cur(k).time + k.pcb[q].time)));
  }

  lemma BlockKin(k: Kernel, pid: int, k': Kernel, r: Ref)
    requires Life(k) && k' == Schedule(BlockMark(k, pid)) && r in k.pcb
    ensures r in k'.pcb && KinTask(k.pcb[r], k'.pcb[r], k.pcb[r].father, false, r == k.current)
  {
    CurrentAlive(k);
    BlockKeeps(k, pid);
    ThenSchedule(BlockMark(k, pid), k', r, k.pcb[r], k.pcb[r].father, false, r == k.current);
  }

  lemma WaitKin(k: Kernel, pid: int, k': Kernel, r: Ref)
    requires Life(k) && k' == WaitStep(k, pid) && r in k.pcb && Outcome(k, pid) != Reap(r)
    ensures r in k'.pcb && KinTask(k.pcb[r], k'.pcb[r], k.pcb[r].father, false, r == k.current)
  {
    match Outcome(k, pid)
    case Reap(q) =>
      ReapedSlot(k, pid);
      ReapKin(k, k', q, r);
    case Block => BlockKin(k, pid, k', r);
    case _ =>
  }

  lemma ResumeKin(k: Kernel, k': Kernel, r: Ref)
    requires Life(k) && Cur(k).waiting.Some? && k' == Resume(k) && r in k.pcb
    requires Interrupted(k) || Outcome(ClearChld(k), Cur(k).waiting.value) != Reap(r)
    ensures r in k'.pcb && KinTask(k.pcb[r], k'.pcb[r], k.pcb[r].father, false, r == k.current)
  {
    if !Interrupted(k) {
      ClearChldLife(k);
      WaitKin(ClearChld(k), Cur(k).waiting.value, k', r);
    }
  }

  lemma SleepKin(k: Kernel, k': Kernel, r: Ref)
    requires Life(k) && k' == Schedule(SleepMark(k)) && r in k.pcb
    ensures r in k'.pcb && KinTask(k.pcb[r], k'.pcb[r], k.pcb[r].father, false, false)
  {
    CurrentAlive(k);
    CurrentUnqueued(k);
    PutKeepsCore(k, k.current, Cur(k).(state := Wait, signal := Cur(k).signal.(stop := true)));
    ThenSchedule(SleepMark(k), k', r, k.pcb[r], k.pcb[r].father, false, false);
  }

  lemma TickKin(k: Kernel, k': Kernel, r: Ref)
    requires Life(k) && k' == Tick(k) && r in k.pcb
    ensures r in k'.pcb && KinTask(k.pcb[r], k'.pcb[r], k.pcb[r].father, false, false)
  {
    var k1 := Put(k, k.current, Ticked(Cur(k)));
    CurrentUnqueued(k);
    PutKeepsCore(k, k.current, Ticked(Cur(k)));
    if Preempts(Cur(k)) {
      ThenSchedule(k1, k', r, k.pcb[r], k.pcb[r].father, false, false);
    }
  }

  /** The task that an action reaps. */
  ghost function ReapedTask(k: Kernel, a: Action): Option<Ref>
    requires Enabled(k, a)
  {
    match a
    case WaitCall(pid) => ReapedOf(Outcome(k, pid))
    case ResumeWait => if Interrupted(k) then None else ReapedOf(Outcome(ClearChld(k), Cur(k).waiting.value))
    case _ => None
  }

  ghost function ReapedOf(w: WaitOutcome): Option<Ref> { if w.Reap? then Some(w.r) else None }

  /** Every step changes pids, fathers and zombies exactly so, in every task it does not reap. */
  lemma NextKin(k: Kernel, a: Action, k': Kernel, r: Ref)
    requires Life(k) && Enabled(k, a) && InitStays(k, a) && k' == Next(k, a) && r in k.pcb && ReapedTask(k, a) != Some(r)
    ensures KinStep(k, a, k', r)
  {
    match a
    case ForkCall(q) =>
    case ExitCall => ExitKin(k, k', r);
    case WaitCall(pid) => WaitKin(k, pid, k', r);
    case ResumeWait => ResumeKin(k, k', r);
    case SleepCall => SleepKin(k, k', r);
    case WakeupCall =>
    case TickCall => TickKin(k, k', r);
  }

  // -------------------------------------------------------------------- children

  /** A fork makes a child of the caller, with a pid nobody has, that can run and is in no
      `waitpid`; every other task is as it was. */
  lemma ForkedChild(k: Kernel, r: Ref, k': Kernel)
    requires Invariant(k) && Enabled(k, ForkCall(r)) && k' == Next(k, ForkCall(r))
    ensures k'.pcb.Keys == k.pcb.Keys + {r} && r != k'.current && k'.current == k.current && r != k'.table[0]
    ensures forall s :: s in k.pcb ==> k'.pcb[s] == k.pcb[s] && k.pcb[s].pid != k'.pcb[r].pid
    ensures var t := k'.pcb[r];
      && t.father == Cur(k).pid && t.pid == k.newPid + 1
      && Runnable(t) && t.waiting == None && t.signal == NO_SIGNAL
      && t.time == 0 && t.order == 0 && t.priority == t.counter == Cur(k).priority
  {
  }

  /** At step `x` the task at `r` exits or is reaped, or the task with pid `f` exits. */
  ghost predicate Parts(ks: seq<Kernel>, acts: seq<Action>, x: nat, r: Ref, f: int)
    requires x < |acts| < |ks| && Enabled(ks[x], acts[x])
  {
    || ReapedTask(ks[x], acts[x]) == Some(r)
    || (acts[x].ExitCall? && (ks[x].current == r || Cur(ks[x]).pid == f))
  }

  /** Neither happens before step `j`. */
  ghost predicate Together(ks: seq<Kernel>, acts: seq<Action>, i: nat, j: nat, r: Ref, f: int)
    requires j <= |acts| < |ks|
  {
    forall x {:trigger acts[x]} :: i <= x < j ==> Enabled(ks[x], acts[x]) && !Parts(ks, acts, x, r, f)
  }

  /** The task at `r` is alive, with this pid and father. */
  ghost predicate LivesAs(k: Kernel, r: Ref, pid: int, father: int) {
    r in k.pcb && k.pcb[r].pid == pid && k.pcb[r].father == father && !k.pcb[r].state.Zombie?
  }

  lemma LivesOn(k: Kernel, a: Action, k': Kernel, r: Ref, pid: int, f: int)
    requires Life(k) && Enabled(k, a) && InitStays(k, a) && k' == Next(k, a) && LivesAs(k, r, pid, f)
    requires ReapedTask(k, a) != Some(r) && !(a.ExitCall? && (k.current == r || Cur(k).pid == f))
    ensures LivesAs(k', r, pid, f)
  {
    NextKin(k, a, k', r);
  }

  /** In every run in which pid 1 does not exit, a forked task is the child of the task that
      forked it until one of the two exits or it is reaped. */
  lemma {:induction false} ForkedBelongs(ks: seq<Kernel>, acts: seq<Action>, i: nat, j: nat, r: Ref)
    requires RunWithInit(ks, acts) && i < j <= |acts| && acts[i] == ForkCall(r) && WellFormed(ks[i])
    requires Together(ks, acts, i + 1, j, r, Cur(ks[i]).pid)
    ensures LivesAs(ks[j], r, ks[i].newPid + 1, Cur(ks[i]).pid)
    decreases j
  {
    EveryRunLives(ks, acts, j - 1);
    if j == i + 1 {
      ForkedChild(ks[i], r, ks[j]);
    } else {
      ForkedBelongs(ks, acts, i, j - 1, r);
      LivesOn(ks[j - 1], acts[j - 1], ks[j], r, ks[i].newPid + 1, Cur(ks[i]).pid);
    }
  }
}

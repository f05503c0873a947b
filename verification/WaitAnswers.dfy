/** What `waitpid` answers (kernel/sys.c), said of the tasks themselves and not of the scan:
    whose pid it returns, when it blocks, when there is no child; and that a father blocked for
    a child that exits gets the pid of that child when it resumes. */
module WaitAnswers {
  import opened SchedModel
  import opened SchedInvariant
  import opened Lifecycle
  import opened Kinship
  import opened Wrappers

  const EINTR: int := 4
  const ECHILD: int := 10

  /** The task at `r` is a child of the caller that `waitpid(pid)` may answer for. */
  ghost predicate Child(k: Kernel, r: Ref, pid: int)
    requires WellFormed(k)
  {
    && r in k.pcb && r != k.table[0] && r != k.current
    && k.pcb[r].father == Cur(k).pid
    && (pid == -1 || (pid > 0 && k.pcb[r].pid == pid))
  }

  ghost predicate DeadChild(k: Kernel, r: Ref, pid: int)
    requires WellFormed(k)
  {
    Child(k, r, pid) && k.pcb[r].state.Zombie?
  }

  ghost predicate LastDead(k: Kernel, r: Ref, pid: int)
    requires WellFormed(k)
  {
    DeadChild(k, r, pid) && forall s :: DeadChild(k, s, pid) ==> k.pcb[s].slot <= k.pcb[r].slot
  }

  /** The answer of a call in state `k` that leaves state `k'`: the pid of a dead child, of several
      the one in the highest slot, which has left the table as the only task; no child at all; or
      none yet, with the caller inside the call for a child that is alive. */
  ghost predicate Answers(k: Kernel, pid: int, k': Kernel, result: Option<int>)
    requires WellFormed(k)
  {
    match result
    case Some(q) =>
      && k'.current == k.current
      && (if q == -ECHILD then (forall r :: !Child(k, r, pid)) && k'.pcb.Keys == k.pcb.Keys
          else exists r :: LastDead(k, r, pid) && k.pcb[r].pid == q > 0 && k'.pcb.Keys == k.pcb.Keys - {r})
    case None =>
      && (exists r :: Child(k, r, pid))
      && (forall r :: Child(k, r, pid) ==> !k.pcb[r].state.Zombie?)
      && k'.pcb.Keys == k.pcb.Keys
      && k.current in k'.pcb && k'.pcb[k.current].waiting == Some(pid)
  }

  /** The answer as a function of the state, for the steps of a run. */
  ghost function Answer(k: Kernel, pid: int): Option<int>
    requires WellFormed(k)
  {
    match Outcome(k, pid)
    case Reap(r) => Some(k.pcb[r].pid)
    case Report(r) => Some(k.pcb[r].pid)
    case NoChild => Some(-ECHILD)
    case Block => None
  }

  // -------------------------------------------------------------------- the scan

  /** A child is in a slot that the scan visits, and the scan accepts exactly the children. */
  lemma ChildIsScanned(k: Kernel, r: Ref, pid: int)
    requires WellFormed(k)
    ensures Child(k, r, pid) <==> r in k.pcb && r != k.table[0] && Accepts(k, r, pid)
    ensures Child(k, r, pid) ==> 1 <= k.pcb[r].slot < MAX_TASK && k.table[k.pcb[r].slot] == r
  {
  }

  lemma ScannedIsChild(k: Kernel, j: nat, pid: int)
    requires WellFormed(k) && 1 <= j < MAX_TASK && k.table[j] != NULL && Accepts(k, k.table[j], pid)
    ensures Child(k, k.table[j], pid)
  {
  }

  lemma NoChildFound(k: Kernel, pid: int)
    requires WellFormed(k) && Outcome(k, pid).NoChild?
    ensures forall r :: !Child(k, r, pid)
  {
    forall r ensures !Child(k, r, pid) {
      ChildIsScanned(k, r, pid);
    }
  }

  lemma BlockFound(k: Kernel, pid: int)
    requires WellFormed(k) && Outcome(k, pid).Block?
    ensures exists r :: Child(k, r, pid)
    ensures forall r :: Child(k, r, pid) ==> !k.pcb[r].state.Zombie?
  {
    var j :| 1 <= j <= |k.table| - 1 && k.table[j] != NULL && Accepts(k, k.table[j], pid);
    ScannedIsChild(k, j, pid);
    forall r | Child(k, r, pid) ensures !k.pcb[r].state.Zombie? {
      ChildIsScanned(k, r, pid);
    }
  }

  lemma ReapFound(k: Kernel, pid: int, r: Ref)
    requires Invariant(k) && Outcome(k, pid) == Reap(r)
    ensures LastDead(k, r, pid) && k.pcb[r].pid > 0
  {
    ReapedSlot(k, pid);
    ChildIsScanned(k, r, pid);
    forall s | DeadChild(k, s, pid) ensures k.pcb[s].slot <= k.pcb[r].slot {
      ChildIsScanned(k, s, pid);
    }
  }

  /** No task is ever in TASK_STOP. */
  lemma NeverReports(k: Kernel, pid: int)
    requires Invariant(k)
    ensures !Outcome(k, pid).Report?
  {
  }

  /** Every call of `waitpid` answers as promised. */
  lemma WaitAnswered(k: Kernel, pid: int)
    requires Invariant(k)
    ensures Answers(k, pid, WaitStep(k, pid), Answer(k, pid))
  {
    NeverReports(k, pid);
    match Outcome(k, pid)
    case Reap(r) =>
      ReapFound(k, pid, r);
      ReapKeys(k, pid, r);
    case NoChild => NoChildFound(k, pid);
    case Block =>
      BlockFound(k, pid);
      BlockedCaller(k, pid);
  }

  lemma ReapKeys(k: Kernel, pid: int, r: Ref)
    requires Invariant(k) && Outcome(k, pid) == Reap(r)
    ensures ReapStep(k, r).pcb.Keys == k.pcb.Keys - {r} && ReapStep(k, r).current == k.current
  {
    ReapedSlot(k, pid);
    ReapStepUnfold(k, r, Put(k, k.current, Cur(k).(waiting := None, time := Cur(k).time + k.pcb[r].time)));
  }

  lemma BlockedCaller(k: Kernel, pid: int)
    requires Invariant(k)
    ensures var k' := Schedule(BlockMark(k, pid));
      k'.pcb.Keys == k.pcb.Keys && k'.pcb[k.current].waiting == Some(pid)
  {
    BlockKeeps(k, pid);
    var b := BlockMark(k, pid);
    ScheduleKin(b, Schedule(b), k.current);
  }

  // ------------------------------------------------------------- a call that blocked

  /** What a step of `waitpid` returns to its caller; None while it stays in the call. */
  ghost function StepAnswer(k: Kernel, a: Action): Option<int>
    requires Enabled(k, a) && (a.WaitCall? || a.ResumeWait?)
  {
    match a
    case WaitCall(pid) => Answer(k, pid)
    case ResumeWait => if Interrupted(k) then Some(-EINTR) else Answer(ClearChld(k), Cur(k).waiting.value)
  }

  ghost function Wanted(k: Kernel, a: Action): int
    requires Enabled(k, a) && (a.WaitCall? || a.ResumeWait?)
  {
    match a
    case WaitCall(pid) => pid
    case ResumeWait => Cur(k).waiting.value
  }

  lemma ChildClear(k: Kernel, c: Kernel, pid: int)
    requires WellFormed(k) && c == ClearChld(k) && WellFormed(c)
    ensures c.pcb.Keys == k.pcb.Keys && c.current == k.current
    ensures forall r :: r in k.pcb ==> c.pcb[r] == k.pcb[r].(signal := c.pcb[r].signal)
    ensures forall r :: Child(c, r, pid) <==> Child(k, r, pid)
    ensures forall r :: DeadChild(c, r, pid) <==> DeadChild(k, r, pid)
  {
  }

  lemma LastDeadClear(k: Kernel, c: Kernel, r: Ref, pid: int)
    requires WellFormed(k) && c == ClearChld(k) && WellFormed(c) && LastDead(c, r, pid)
    ensures LastDead(k, r, pid) && k.pcb[r].pid == c.pcb[r].pid
  {
    ChildClear(k, c, pid);
  }

  /** Clearing SIG_CHLD makes no difference to the answer. */
  lemma AnswersClear(k: Kernel, c: Kernel, pid: int, k': Kernel, result: Option<int>)
    requires WellFormed(k) && c == ClearChld(k) && WellFormed(c) && Answers(c, pid, k', result)
    ensures Answers(k, pid, k', result)
  {
    ChildClear(k, c, pid);
    if result.Some? && result.value != -ECHILD {
      var r :| LastDead(c, r, pid) && c.pcb[r].pid == result.value > 0 && k'.pcb.Keys == c.pcb.Keys - {r};
      LastDeadClear(k, c, r, pid);
      assert k'.pcb.Keys == k.pcb.Keys - {r};
    }
  }

  /** Every step of `waitpid`, the first and those after it blocked, answers as promised, but for
      the -EINTR that Exceptions describes. */
  lemma StepAnswered(k: Kernel, a: Action)
    requires Invariant(k) && Enabled(k, a) && (a.WaitCall? || (a.ResumeWait? && !Interrupted(k)))
    ensures Answers(k, Wanted(k, a), Next(k, a), StepAnswer(k, a))
  {
    match a
    case WaitCall(pid) => WaitAnswered(k, pid);
    case ResumeWait =>
      PutCurrentKeeps(k, Cur(k).(signal := Cur(k).signal.(chld := false)));
      WaitAnswered(ClearChld(k), Cur(k).waiting.value);
      AnswersClear(k, ClearChld(k), Cur(k).waiting.value, Resume(k), StepAnswer(k, a));
  }

  /** The step that removes a pid from the table returns that pid. */
  lemma RemovesReturns(k: Kernel, a: Action, s: Ref)
    requires Invariant(k) && Enabled(k, a) && (a.WaitCall? || a.ResumeWait?) && s in k.pcb && s !in Next(k, a).pcb
    ensures StepAnswer(k, a) == Some(k.pcb[s].pid)
  {
    if a.WaitCall? || !Interrupted(k) {
      StepAnswered(k, a);
    }
  }

  // -------------------------------------------------- a father and its dead child

  /** The task at `f` is blocked in `waitpid(w)`, and the task at `c` is a dead child of it that
      the call may answer for. */
  ghost predicate Due(k: Kernel, f: Ref, w: int, c: Ref, p: int) {
    && f in k.pcb && c in k.pcb && p > 0 && (w == -1 || w == p)
    && k.pcb[f].pid > 0 && k.pcb[f].waiting == Some(w) && !k.pcb[f].state.Zombie?
    && k.pcb[c].pid == p && k.pcb[c].father == k.pcb[f].pid && k.pcb[c].state.Zombie?
  }

  /** An exit makes the call of its father due. */
  lemma ExitIsDue(k: Kernel, k': Kernel, f: Ref, w: int)
    requires Life(k) && Enabled(k, ExitCall) && InitStays(k, ExitCall) && k' == Next(k, ExitCall)
    requires f in k.pcb && k.pcb[f].pid == Cur(k).father > 0 && !k.pcb[f].state.Zombie? && k.pcb[f].waiting == Some(w)
    requires w == -1 || w == Cur(k).pid
    ensures Due(k', f, w, k.current, Cur(k).pid)
  {
    NextKin(k, ExitCall, k', k.current);
    NextKin(k, ExitCall, k', f);
  }

  /** Nobody else takes the dead child away. */
  lemma NotReaped(k: Kernel, a: Action, f: Ref, w: int, c: Ref, p: int)
    requires Life(k) && Enabled(k, a) && Due(k, f, w, c, p) && !(a.ResumeWait? && k.current == f)
    ensures ReapedTask(k, a) != Some(c) && ReapedTask(k, a) != Some(f)
  {
    if ReapedTask(k, a).Some? {
      var r := ReapedTask(k, a).value;
      ReapedIsDeadChild(k, a);
      assert SamePid(k.pcb, f, k.current) ==> f == k.current;
    }
  }

  lemma ReapedIsDeadChild(k: Kernel, a: Action)
    requires Invariant(k) && Enabled(k, a) && ReapedTask(k, a).Some?
    ensures var r := ReapedTask(k, a).value; r in k.pcb && k.pcb[r].state.Zombie? && k.pcb[r].father == Cur(k).pid
  {
    var r := ReapedTask(k, a).value;
    match a
    case WaitCall(pid) => ReapFound(k, pid, r);
    case ResumeWait =>
      PutCurrentKeeps(k, Cur(k).(signal := Cur(k).signal.(chld := false)));
      ReapFound(ClearChld(k), Cur(k).waiting.value, r);
  }

  /** So the call stays due until its caller resumes. */
  lemma DueStays(k: Kernel, a: Action, k': Kernel, f: Ref, w: int, c: Ref, p: int)
    requires Life(k) && Enabled(k, a) && InitStays(k, a) && k' == Next(k, a)
    requires Due(k, f, w, c, p) && !(a.ResumeWait? && k.current == f)
    ensures Due(k', f, w, c, p)
  {
    NotReaped(k, a, f, w, c, p);
    NextKin(k, a, k', f);
    NextKin(k, a, k', c);
    CurrentAlive(k);
    if a.ExitCall? {
      assert SamePid(k.pcb, f, k.current) ==> f == k.current;
    }
  }

  /** When it resumes, a call that is due returns a dead child, the one asked for if it asked for
      one. */
  lemma DueAnswers(k: Kernel, f: Ref, w: int, c: Ref, p: int)
    requires Life(k) && Due(k, f, w, c, p) && k.current == f
    ensures Enabled(k, ResumeWait) && !Interrupted(k)
    ensures StepAnswer(k, ResumeWait).Some? && StepAnswer(k, ResumeWait).value > 0
    ensures w > 0 ==> StepAnswer(k, ResumeWait) == Some(p)
  {
    CurrentAlive(k);
    StepAnswered(k, ResumeWait);
    assert DeadChild(k, c, w);
  }

  ghost predicate Resumes(k: Kernel, a: Action, f: Ref) { a.ResumeWait? && k.current == f }

  lemma {:induction false} DueUntil(ks: seq<Kernel>, acts: seq<Action>, j: nat, m: nat, f: Ref, w: int, c: Ref, p: int)
    requires RunWithInit(ks, acts) && j <= m < |ks| && Due(ks[j], f, w, c, p)
    requires forall x {:trigger acts[x]} :: j <= x < m ==> !Resumes(ks[x], acts[x], f)
    ensures Due(ks[m], f, w, c, p)
    decreases m
  {
    if j < m {
      DueUntil(ks, acts, j, m - 1, f, w, c, p);
      EveryRunLives(ks, acts, m - 1);
      DueStays(ks[m - 1], acts[m - 1], ks[m], f, w, c, p);
    }
  }

  /** At step `j` the child with pid `p` of the task at `f`, which is blocked in `waitpid(w)` for it,
      exits. */
  ghost predicate ExitsFor(ks: seq<Kernel>, acts: seq<Action>, j: nat, f: Ref, w: int, p: int)
    requires j < |acts| < |ks|
  {
    && acts[j] == ExitCall && ks[j].current in ks[j].pcb && f in ks[j].pcb
    && Cur(ks[j]).pid == p && Cur(ks[j]).father == ks[j].pcb[f].pid > 0
    && ks[j].pcb[f].waiting == Some(w) && (w == -1 || w == p)
  }

  lemma DueAfterExit(ks: seq<Kernel>, acts: seq<Action>, j: nat, f: Ref, w: int, p: int) returns (c: Ref)
    requires RunWithInit(ks, acts) && j < |acts| && ExitsFor(ks, acts, j, f, w, p)
    ensures Due(ks[j + 1], f, w, c, p)
  {
    c := ks[j].current;
    EveryRunLives(ks, acts, j);
    assert SignalOk(ks[j].pcb[f]);
    ExitIsDue(ks[j], ks[j + 1], f, w);
  }

  /** The call answers with the pid of a dead child, and with `p` if it asked for `p`. */
  ghost predicate AnsweredAt(ks: seq<Kernel>, acts: seq<Action>, m: nat, w: int, p: int)
    requires m < |acts| < |ks|
  {
    && Enabled(ks[m], acts[m]) && acts[m].ResumeWait?
    && var q := StepAnswer(ks[m], acts[m]); q.Some? && q.value > 0 && (w > 0 ==> q.value == p)
  }

  lemma AnswersWhenDue(ks: seq<Kernel>, acts: seq<Action>, m: nat, f: Ref, w: int, c: Ref, p: int)
    requires RunWithInit(ks, acts) && m < |acts| && Due(ks[m], f, w, c, p) && Resumes(ks[m], acts[m], f)
    ensures AnsweredAt(ks, acts, m, w, p)
  {
    EveryRunLives(ks, acts, m);
    DueAnswers(ks[m], f, w, c, p);
  }

  /** In every run in which pid 1 does not exit: if a task other than TASK[0] is blocked in
      `waitpid(w)` when its child with pid `p` exits, and `w` is -1 or `p`, then the call returns
      the pid of a dead child as soon as the task resumes, and `p` if it asked for `p`. */
  lemma BlockedFatherIsAnswered(ks: seq<Kernel>, acts: seq<Action>, j: nat, m: nat, f: Ref, w: int, p: int)
    requires RunWithInit(ks, acts) && j < m < |acts| && ExitsFor(ks, acts, j, f, w, p)
    requires Resumes(ks[m], acts[m], f) && forall x {:trigger acts[x]} :: j < x < m ==> !Resumes(ks[x], acts[x], f)
    ensures AnsweredAt(ks, acts, m, w, p)
  {
    var c := DueAfterExit(ks, acts, j, f, w, p);
    DueUntil(ks, acts, j + 1, m, f, w, c, p);
    AnswersWhenDue(ks, acts, m, f, w, c, p);
  }

  /** A child whose father is TASK[0] is not its father's when it dies: pid 1 gets it. */
  lemma ChildOfIdleIsLost(k: Kernel, k': Kernel)
    requires Life(k) && Enabled(k, ExitCall) && InitStays(k, ExitCall) && k' == Next(k, ExitCall) && Cur(k).father == 0
    ensures k.current in k'.pcb && k'.pcb[k.current].state.Zombie? && k'.pcb[k.current].father == 1
  {
    NextKin(k, ExitCall, k', k.current);
  }
}

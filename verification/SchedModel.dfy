/** The task table, the five ready queues and the life cycle of a process
    (kernel/sched/sched.c, kernel/sched/exit.c, kernel/sched/fork.c, kernel/sys.c, timer/timer.c).

    Memory is explicit: a `Ref` is an address, 0 is NULL, and `pcb` maps every address that
    currently holds an allocated `task_struct` to its contents. Releasing a task removes its
    address, so a queue node that still named it would dangle.

    Each operation is a function from kernel states to kernel states. `Next` collects them
    into one transition system on a single hart; a trap is one step. */
module SchedModel {
  import opened Wrappers

  const MAX_TASK: nat := 64
  const LEVELS: nat := 5
  const LAST_LEVEL: nat := 4

  type Ref = nat
  const NULL: Ref := 0

  datatype TaskState = Running | Ready | Wait | Zombie | Stopped

  /** The bits of `signal` that the modelled code sets. */
  datatype Signals = Signals(chld: bool, stop: bool, cont: bool) {
    predicate Empty() { !chld && !stop && !cont }
  }

  const NO_SIGNAL := Signals(false, false, false)

  /** The scheduling part of a `task_struct`. `waiting` stands for the saved kernel context:
      `Some(pid)` while the task is inside the `schedule()` call of `sys_waitpid(pid)`;
      `slot` is `pcb_id`. */
  datatype Task = Task(
    pid: int,
    father: int,
    slot: nat,
    state: TaskState,
    counter: int,
    priority: int,
    time: nat,
    inQueue: bool,
    order: int,
    signal: Signals,
    waiting: Option<int>)

  /** `queue[o]` lists, front first, the tasks that the nodes of queue `o` point to.
      `fault` records that a step ran into code whose effect is undefined: the removal
      branch of `set_Queue`, or a NULL `TASK[1]` in `tell_father`. */
  datatype Kernel = Kernel(
    pcb: map<Ref, Task>,
    table: seq<Ref>,
    queue: seq<seq<Ref>>,
    current: Ref,
    newPid: int,
    fault: bool)

  // ------------------------------------------------------------------ shape

  ghost predicate WellFormed(k: Kernel) {
    && |k.table| == MAX_TASK
    && |k.queue| == LEVELS
    && NULL !in k.pcb
    && k.table[0] != NULL
    && (forall i :: 0 <= i < MAX_TASK && k.table[i] != NULL ==> k.table[i] in k.pcb && k.pcb[k.table[i]].slot == i)
    && (forall r :: r in k.pcb ==> k.pcb[r].slot < MAX_TASK && k.table[k.pcb[r].slot] == r && k.pcb[r].order <= LAST_LEVEL)
    && k.current in k.pcb
    && (forall o, j :: 0 <= o < LEVELS && 0 <= j < |k.queue[o]| ==> k.queue[o][j] in k.pcb)
  }

  ghost function Put(k: Kernel, r: Ref, t: Task): Kernel {
    k.(pcb := k.pcb[r := t])
  }

  lemma PutWellFormed(k: Kernel, r: Ref, t: Task)
    requires WellFormed(k) && r in k.pcb && t.order <= LAST_LEVEL && t.slot == k.pcb[r].slot
    ensures WellFormed(Put(k, r, t))
    ensures Put(k, r, t).pcb.Keys == k.pcb.Keys
  {
  }

  ghost function Cur(k: Kernel): Task
    requires k.current in k.pcb
  {
    k.pcb[k.current]
  }

  // ------------------------------------------------------------- scheduling

  /** The body of the loop of `alter_state`. */
  function Altered(t: Task): Task {
    if t.state.Wait? && (t.signal.chld || t.signal.cont)
    then t.(state := Ready, signal := NO_SIGNAL)
    else t
  }

  /** `alter_state`: slots 1 to 63. */
  ghost function AlterState(k: Kernel): Kernel
    requires WellFormed(k)
  {
    k.(pcb := map r | r in k.pcb :: if r == k.table[0] then k.pcb[r] else Altered(k.pcb[r]))
  }

  function Counter(order: int): int { 2 + 6 * order }

  function RaisedOrder(t: Task): int {
    if t.order < LAST_LEVEL && t.state.Running? then t.order + 1 else t.order
  }

  function Enqueued(t: Task): Task {
    t.(state := Ready, inQueue := true, order := RaisedOrder(t), counter := Counter(RaisedOrder(t)))
  }

  predicate Runnable(t: Task) { t.state.Ready? || t.state.Running? }

  /** One iteration of `set_Queue`, on slot `i`. */
  ghost function EnqueueSlot(k: Kernel, i: nat): Kernel
    requires WellFormed(k) && 1 <= i < MAX_TASK
  {
    var r := k.table[i];
    if r == NULL || k.pcb[r].order < 0 then k
    else
      var t := k.pcb[r];
      if !t.inQueue then
        if Runnable(t) then
          var o := RaisedOrder(t);
          Put(k, r, Enqueued(t)).(queue := k.queue[o := k.queue[o] + [r]])
        else k
      else if Runnable(t) then k
      else k.(fault := true)
  }

  /** `set_Queue`, slots `i` down to 1. */
  ghost function SetQueueFrom(k: Kernel, i: nat): Kernel
    requires WellFormed(k) && i < MAX_TASK
    decreases i
  {
    if i == 0 then k
    else
      EnqueueSlotWellFormed(k, i);
      SetQueueFrom(EnqueueSlot(k, i), i - 1)
  }

  lemma EnqueueSlotWellFormed(k: Kernel, i: nat)
    requires WellFormed(k) && 1 <= i < MAX_TASK
    ensures WellFormed(EnqueueSlot(k, i))
    ensures EnqueueSlot(k, i).pcb.Keys == k.pcb.Keys
  {
  }

  lemma SetQueueFromWellFormed(k: Kernel, i: nat)
    requires WellFormed(k) && i < MAX_TASK
    ensures WellFormed(SetQueueFrom(k, i))
    decreases i
  {
    if i != 0 {
      EnqueueSlotWellFormed(k, i);
      SetQueueFromWellFormed(EnqueueSlot(k, i), i - 1);
    }
  }

  /** The first non-empty queue, or LEVELS. */
  ghost function FirstLevel(queue: seq<seq<Ref>>, o: nat): (f: nat)
    requires |queue| == LEVELS && o <= LEVELS
    ensures o <= f <= LEVELS
    ensures f < LEVELS ==> queue[f] != []
    ensures forall j :: o <= j < f ==> queue[j] == []
    decreases |queue| - o
  {
    if o == LEVELS || queue[o] != [] then o else FirstLevel(queue, o + 1)
  }

  /** The selection loop of `schedule` and the switch. */
  ghost function Dispatch(k: Kernel): Kernel
    requires WellFormed(k)
  {
    var o := FirstLevel(k.queue, 0);
    if o == LEVELS then k.(current := k.table[0])
    else
      var r := k.queue[o][0];
      Put(k, r, k.pcb[r].(inQueue := false, state := Running))
        .(queue := k.queue[o := k.queue[o][1..]], current := r)
  }

  lemma AlterStateWellFormed(k: Kernel)
    requires WellFormed(k)
    ensures WellFormed(AlterState(k))
  {
  }

  /** The state in which `schedule` picks the next task. */
  ghost function Queued(k: Kernel): Kernel
    requires WellFormed(k)
    ensures WellFormed(Queued(k))
  {
    AlterStateWellFormed(k);
    SetQueueFromWellFormed(AlterState(k), |k.table| - 1);
    SetQueueFrom(AlterState(k), |k.table| - 1)
  }

  ghost function Schedule(k: Kernel): Kernel
    requires WellFormed(k)
  {
    Dispatch(Queued(k))
  }

  // ---------------------------------------------------- sleep, wakeup, tick

  ghost function SleepMark(k: Kernel): Kernel
    requires WellFormed(k)
  {
    Put(k, k.current, Cur(k).(state := Wait, signal := Cur(k).signal.(stop := true)))
  }

  function Woken(t: Task): Task {
    if t.signal.stop then t.(signal := t.signal.(stop := false, cont := true)) else t
  }

  ghost function Wakeup(k: Kernel): Kernel
    requires WellFormed(k)
  {
    k.(pcb := map r | r in k.pcb :: if r == k.table[0] then k.pcb[r] else Woken(k.pcb[r]))
  }

  /** `do_timer` before its call of `schedule`. */
  function Ticked(t: Task): Task {
    t.(time := t.time + 1, counter := if t.pid != 0 then t.counter - 1 else t.counter)
  }

  predicate Preempts(t: Task) {
    t.pid == 0 || Ticked(t).counter <= 0 || !Runnable(t)
  }

  ghost function Tick(k: Kernel): Kernel
    requires WellFormed(k)
  {
    var k' := Put(k, k.current, Ticked(Cur(k)));
    if Preempts(Cur(k)) then Schedule(k') else k'
  }

  // ------------------------------------------------------------------- fork

  /** `find_new_id`: the lowest empty slot from `i` on, or MAX_TASK. */
  ghost function FreeSlot(table: seq<Ref>, i: nat): (s: nat)
    requires |table| == MAX_TASK && i <= MAX_TASK
    ensures i <= s <= MAX_TASK
    ensures s < MAX_TASK ==> table[s] == NULL
    ensures forall j :: i <= j < s ==> table[j] != NULL
    decreases |table| - i
  {
    if i == MAX_TASK || table[i] == NULL then i else FreeSlot(table, i + 1)
  }

  /** The scheduling fields that `copy_process` fills. */
  function NewTask(pid: int, slot: nat, father: Task): Task {
    Task(pid, father.pid, slot, Ready, father.priority, father.priority, 0, false, 0, NO_SIGNAL, None)
  }

  ghost function Fork(k: Kernel, r: Ref): Kernel
    requires WellFormed(k) && r != NULL && r !in k.pcb && FreeSlot(k.table, 1) < MAX_TASK
  {
    Put(k, r, NewTask(k.newPid + 1, FreeSlot(k.table, 1), Cur(k)))
      .(table := k.table[FreeSlot(k.table, 1) := r], newPid := k.newPid + 1)
  }

  // ------------------------------------------------------------------- exit

  /** The lowest slot from `i` on whose task has this pid, or MAX_TASK. */
  ghost function PidSlot(k: Kernel, pid: int, i: nat): (s: nat)
    requires WellFormed(k) && 1 <= i <= MAX_TASK
    ensures i <= s <= MAX_TASK
    ensures s < MAX_TASK ==> k.table[s] != NULL && k.pcb[k.table[s]].pid == pid
    ensures forall j :: i <= j < s && k.table[j] != NULL ==> k.pcb[k.table[j]].pid != pid
    decreases |k.table| - i
  {
    if i == MAX_TASK || (k.table[i] != NULL && k.pcb[k.table[i]].pid == pid) then i
    else PidSlot(k, pid, i + 1)
  }

  function Signalled(t: Task): Task {
    t.(signal := t.signal.(chld := true))
  }

  ghost function Signal(k: Kernel, r: Ref): (k': Kernel)
    requires WellFormed(k) && r in k.pcb
    ensures WellFormed(k')
  {
    PutWellFormed(k, r, Signalled(k.pcb[r]));
    Put(k, r, Signalled(k.pcb[r]))
  }

  ghost function TellFather(k: Kernel, pid: int): (k': Kernel)
    requires WellFormed(k)
    ensures WellFormed(k')
  {
    PutWellFormed(k, k.current, Cur(k).(father := 1));
    var s := PidSlot(k, pid, 1);
    if pid != 0 && s < MAX_TASK then Signal(k, k.table[s])
    else
      var k' := Put(k, k.current, Cur(k).(father := 1));
      if k.table[1] == NULL then k'.(fault := true)
      else Signal(k', k.table[1])
  }

  /** One iteration of the loop of `do_exit`, on slot `i`. */
  ghost function OrphanSlot(k: Kernel, i: nat): (k': Kernel)
    requires WellFormed(k) && 1 <= i < MAX_TASK
    ensures WellFormed(k')
  {
    var r := k.table[i];
    if r == NULL || k.pcb[r].father != Cur(k).pid then k
    else
      PutWellFormed(k, r, k.pcb[r].(father := 1));
      var k' := Put(k, r, k.pcb[r].(father := 1));
      if k.pcb[r].state.Zombie? then TellFather(k', 1) else k'
  }

  ghost function OrphanFrom(k: Kernel, i: nat): (k': Kernel)
    requires WellFormed(k) && i < MAX_TASK
    ensures WellFormed(k')
    decreases i
  {
    if i == 0 then k
    else OrphanFrom(OrphanSlot(k, i), i - 1)
  }

  function Exited(t: Task): Task {
    t.(state := Zombie, counter := 0, inQueue := false, order := -1)
  }

  /** `do_exit` before its call of `schedule`. */
  ghost function ExitMark(k: Kernel): (k': Kernel)
    requires WellFormed(k)
    ensures WellFormed(k')
  {
    var k1 := OrphanFrom(k, |k.table| - 1);
    PutWellFormed(k1, k1.current, Exited(Cur(k1)));
    var k2 := Put(k1, k1.current, Exited(Cur(k1)));
    TellFather(k2, Cur(k2).father)
  }

  // ---------------------------------------------------------------- waitpid

  /** Is the task at `r` a child of `current` that `waitpid(pid)` accepts? */
  ghost predicate Accepts(k: Kernel, r: Ref, pid: int)
    requires WellFormed(k) && r in k.pcb
  {
    && r != k.current
    && k.pcb[r].father == Cur(k).pid
    && (if pid > 0 then pid == k.pcb[r].pid else pid == -1)
  }

  datatype WaitOutcome = Reap(r: Ref) | Report(r: Ref) | Block | NoChild

  /** The loop of `sys_waitpid`, slots `i` down to 1. */
  ghost function WaitScan(k: Kernel, pid: int, i: nat, flag: bool): (w: WaitOutcome)
    requires WellFormed(k) && i < MAX_TASK
    ensures w.Reap? ==> w.r in k.pcb && w.r in k.table[1..] && Accepts(k, w.r, pid) && k.pcb[w.r].state.Zombie?
    ensures w.Reap? ==> forall j :: k.pcb[w.r].slot < j <= i && k.table[j] != NULL && Accepts(k, k.table[j], pid) ==> !k.pcb[k.table[j]].state.Zombie?
    ensures w.Report? ==> w.r in k.pcb && w.r in k.table[1..] && k.pcb[w.r].state.Stopped?
    ensures w.Block? && !flag ==> exists j :: 1 <= j <= i && k.table[j] != NULL && Accepts(k, k.table[j], pid)
    ensures w.Block? || w.NoChild? ==>
      forall j :: 1 <= j <= i && k.table[j] != NULL && Accepts(k, k.table[j], pid) ==> !k.pcb[k.table[j]].state.Zombie?
    ensures w.NoChild? ==>
      !flag && forall j :: 1 <= j <= i && k.table[j] != NULL ==> !Accepts(k, k.table[j], pid)
    decreases i
  {
    if i == 0 then if flag then Block else NoChild
    else
      var r := k.table[i];
      if r == NULL || !Accepts(k, r, pid) then WaitScan(k, pid, i - 1, flag)
      else if k.pcb[r].state.Zombie? then Reap(r)
      else if k.pcb[r].state.Stopped? then Report(r)
      else WaitScan(k, pid, i - 1, true)
  }

  ghost function Outcome(k: Kernel, pid: int): (w: WaitOutcome)
    requires WellFormed(k)
  {
    WaitScan(k, pid, |k.table| - 1, false)
  }

  /** The slot `release` clears; MAX_TASK if there is none. */
  ghost function SlotOf(table: seq<Ref>, r: Ref, i: nat): (s: nat)
    requires |table| == MAX_TASK && i <= MAX_TASK
    ensures i <= s <= MAX_TASK
    ensures s < MAX_TASK ==> table[s] == r
    ensures s == MAX_TASK ==> forall j :: i <= j < MAX_TASK ==> table[j] != r
    decreases |table| - i
  {
    if i == MAX_TASK || table[i] == r then i else SlotOf(table, r, i + 1)
  }

  ghost function Release(k: Kernel, r: Ref): Kernel
    requires WellFormed(k)
  {
    var s := SlotOf(k.table, r, 1);
    if s == MAX_TASK then k.(fault := true)
    else k.(table := k.table[s := NULL], pcb := k.pcb - {r})
  }

  /** The caller is charged the time of a zombie, which is then released. */
  ghost function ReapStep(k: Kernel, r: Ref): Kernel
    requires WellFormed(k) && r in k.pcb
  {
    var t := Cur(k);
    PutWellFormed(k, k.current, t.(waiting := None, time := t.time + k.pcb[r].time));
    Release(Put(k, k.current, t.(waiting := None, time := t.time + k.pcb[r].time)), r)
  }

  ghost function ReturnStep(k: Kernel): Kernel
    requires WellFormed(k)
  {
    Put(k, k.current, Cur(k).(waiting := None))
  }

  /** `sys_waitpid` from the label `repeat` to its return or its call of `schedule`. */
  ghost function WaitStep(k: Kernel, pid: int): Kernel
    requires WellFormed(k)
  {
    match Outcome(k, pid)
    case Reap(r) => ReapStep(k, r)
    case Report(_) => ReturnStep(k)
    case NoChild => ReturnStep(k)
    case Block => Schedule(BlockMark(k, pid))
  }

  ghost function BlockMark(k: Kernel, pid: int): Kernel
    requires WellFormed(k)
  {
    Put(k, k.current, Cur(k).(state := Wait, inQueue := false, waiting := Some(pid)))
  }

  /** Does `waitpid` return -EINTR when the task runs again after its `schedule()`? */
  ghost predicate Interrupted(k: Kernel)
    requires WellFormed(k)
  {
    !Cur(k).signal.(chld := false).Empty()
  }

  ghost function ClearChld(k: Kernel): Kernel
    requires WellFormed(k)
  {
    Put(k, k.current, Cur(k).(signal := Cur(k).signal.(chld := false)))
  }

  /** `sys_waitpid` after its `schedule()` has come back. */
  ghost function Resume(k: Kernel): Kernel
    requires WellFormed(k) && Cur(k).waiting.Some?
  {
    var k' := ClearChld(k);
    if Interrupted(k) then Put(k', k.current, Cur(k').(waiting := None))
    else WaitStep(k', Cur(k).waiting.value)
  }

  // ------------------------------------------------------- transition system

  /** What `current`, or an interrupt, does next. `Fork` carries the address malloc returned. */
  datatype Action =
    | ForkCall(r: Ref)
    | ExitCall
    | WaitCall(pid: int)
    | ResumeWait
    | SleepCall
    | WakeupCall
    | TickCall

  /** Panics end a run, so a step that panics is not enabled. */
  ghost predicate Enabled(k: Kernel, a: Action) {
    && WellFormed(k)
    && match a
       case ForkCall(r) =>
         Cur(k).waiting.None? && r != NULL && r !in k.pcb && FreeSlot(k.table, 1) < MAX_TASK
       case ExitCall => Cur(k).waiting.None? && Cur(k).pid != 0
       case WaitCall(_) => Cur(k).waiting.None?
       case ResumeWait => Cur(k).waiting.Some?
       case SleepCall => Cur(k).waiting.None?
       case WakeupCall => true
       case TickCall => true
  }

  ghost function Next(k: Kernel, a: Action): Kernel
    requires Enabled(k, a)
  {
    match a
    case ForkCall(r) => Fork(k, r)
    case ExitCall => Schedule(ExitMark(k))
    case WaitCall(pid) => WaitStep(k, pid)
    case ResumeWait => Resume(k)
    case SleepCall => Schedule(SleepMark(k))
    case WakeupCall => Wakeup(k)
    case TickCall => Tick(k)
  }

  /** The boot state: only TASK[0], at address `r`, with the fields of INIT_TASK. */
  ghost predicate Initial(k: Kernel) {
    && |k.table| == MAX_TASK
    && k.table[0] != NULL
    && (forall i :: 1 <= i < MAX_TASK ==> k.table[i] == NULL)
    && k.pcb == map[k.table[0] := Task(0, 0, 0, Ready, 1, 1, 0, false, 0, NO_SIGNAL, None)]
    && k.queue == [[], [], [], [], []]
    && k.current == k.table[0]
    && k.newPid == 0
    && !k.fault
  }

  /** A run: `ks[i+1]` is the state after action `acts[i]` in `ks[i]`. */
  ghost predicate Run(ks: seq<Kernel>, acts: seq<Action>) {
    && |ks| == |acts| + 1
    && Initial(ks[0])
    && (forall i {:trigger acts[i]} :: 0 <= i < |acts| ==> Enabled(ks[i], acts[i]) && ks[i + 1] == Next(ks[i], acts[i]))
  }
}

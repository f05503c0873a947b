/** The scheduler as the kernel runs it: `TASK[]`, the five linked ready queues with their
    `tail[]` pointers, and the loops over them. `pcb` and `node` are the memory that malloc
    has handed out for `task_struct` and `struct Queue`; every access is to a live address.
    Each method is proved to compute the corresponding function of SchedModel. */
module Scheduler {
  import opened SchedModel
  import opened SchedInvariant
  import opened WaitAnswers
  import opened Wrappers

  datatype Node = Node(pid: int, task: Ref, next: Ref)

  /** The address that follows `ns[j]`. */
  ghost function After(ns: seq<Ref>, j: nat): Ref {
    if j + 1 < |ns| then ns[j + 1] else NULL
  }

  /** The nodes `ns`, linked in this order from `head`, all in memory. */
  ghost predicate Chain(node: map<Ref, Node>, head: Ref, ns: seq<Ref>) {
    && head == (if ns == [] then NULL else ns[0])
    && (forall j :: 0 <= j < |ns| ==> ns[j] in node && ns[j] != NULL)
    && (forall j :: 0 <= j < |ns| ==> node[ns[j]].next == After(ns, j))
  }

  ghost function TasksOf(node: map<Ref, Node>, ns: seq<Ref>): seq<Ref> {
    seq(|ns|, j requires 0 <= j < |ns| => if ns[j] in node then node[ns[j]].task else NULL)
  }

  ghost predicate NoDup(ns: seq<Ref>) {
    forall i, j :: 0 <= i < j < |ns| ==> ns[i] != ns[j]
  }

  /** Linking a new node behind the last one. */
  lemma AppendChain(node: map<Ref, Node>, head: Ref, ns: seq<Ref>, n: Ref, link: Node)
    requires Chain(node, head, ns) && n != NULL && n !in node && link.next == NULL && ns != [] && NoDup(ns)
    ensures var last := ns[|ns| - 1];
      var node' := node[last := node[last].(next := n)][n := link];
      Chain(node', head, ns + [n]) && TasksOf(node', ns + [n]) == TasksOf(node, ns) + [link.task]
  {
  }

  /** A chain none of whose nodes change. */
  lemma SameChain(node: map<Ref, Node>, node': map<Ref, Node>, head: Ref, ns: seq<Ref>)
    requires Chain(node, head, ns)
    requires forall j :: 0 <= j < |ns| ==> ns[j] in node' && node'[ns[j]] == node[ns[j]]
    ensures Chain(node', head, ns) && TasksOf(node', ns) == TasksOf(node, ns)
  {
  }

  lemma PopChain(node: map<Ref, Node>, head: Ref, ns: seq<Ref>)
    requires Chain(node, head, ns) && ns != [] && NoDup(ns)
    ensures Chain(node - {head}, node[head].next, ns[1..]) && TasksOf(node - {head}, ns[1..]) == TasksOf(node, ns)[1..]
  {
    assert node[ns[0]].next == After(ns, 0);
    var ns' := ns[1..];
    forall j | 0 <= j < |ns'|
      ensures ns'[j] in node - {head} && (node - {head})[ns'[j]].next == After(ns', j)
    {
      assert ns'[j] == ns[j + 1] && ns[0] != ns[j + 1];
      assert After(ns', j) == After(ns, j + 1);
    }
  }

  /** All queues, as the task addresses their nodes hold. */
  ghost function QueuesOf(node: map<Ref, Node>, nodes: seq<seq<Ref>>): seq<seq<Ref>> {
    seq(|nodes|, o requires 0 <= o < |nodes| => TasksOf(node, nodes[o]))
  }

  ghost predicate Chains(node: map<Ref, Node>, heads: seq<Ref>, nodes: seq<seq<Ref>>) {
    && |heads| == |nodes| == LEVELS
    && (forall o :: 0 <= o < LEVELS ==> Chain(node, heads[o], nodes[o]))
  }

  /** The nodes of queue `o` are distinct and in no other queue. */
  ghost predicate Separate(nodes: seq<seq<Ref>>, o: nat)
    requires |nodes| == LEVELS && o < LEVELS
  {
    && NoDup(nodes[o])
    && (forall l, i, j :: 0 <= l < LEVELS && l != o && 0 <= i < |nodes[l]| && 0 <= j < |nodes[o]| ==>
          nodes[l][i] != nodes[o][j])
  }

  /** Memory and heads after a node was linked in at the end of queue `o`. */
  ghost predicate LinkedIn(node: map<Ref, Node>, heads: seq<Ref>, ns: seq<Ref>, o: nat, n: Ref, link: Node,
                           node': map<Ref, Node>, heads': seq<Ref>)
    requires o < |heads|
  {
    if ns == [] then
      node' == node[n := link] && heads' == heads[o := n]
    else
      var last := ns[|ns| - 1];
      last in node && node' == node[last := node[last].(next := n)][n := link] && heads' == heads
  }

  lemma AppendOne(node: map<Ref, Node>, heads: seq<Ref>, nodes: seq<seq<Ref>>, o: nat, n: Ref, link: Node,
                  node': map<Ref, Node>, heads': seq<Ref>)
    requires Chains(node, heads, nodes) && o < LEVELS && Separate(nodes, o) && n != NULL && n !in node && link.next == NULL
    requires LinkedIn(node, heads, nodes[o], o, n, link, node', heads')
    ensures |heads'| == LEVELS
    ensures Chain(node', heads'[o], nodes[o] + [n]) && TasksOf(node', nodes[o] + [n]) == TasksOf(node, nodes[o]) + [link.task]
    ensures forall l :: 0 <= l < LEVELS && l != o ==>
              Chain(node', heads'[l], nodes[l]) && TasksOf(node', nodes[l]) == TasksOf(node, nodes[l])
  {
    if nodes[o] != [] {
      AppendChain(node, heads[o], nodes[o], n, link);
    }
    forall l | 0 <= l < LEVELS && l != o
      ensures Chain(node', heads'[l], nodes[l]) && TasksOf(node', nodes[l]) == TasksOf(node, nodes[l])
    {
      SameChain(node, node', heads'[l], nodes[l]);
    }
  }

  lemma AppendChains(node: map<Ref, Node>, heads: seq<Ref>, nodes: seq<seq<Ref>>, o: nat, n: Ref, link: Node,
                     node': map<Ref, Node>, heads': seq<Ref>)
    requires Chains(node, heads, nodes) && o < LEVELS && Separate(nodes, o) && n != NULL && n !in node && link.next == NULL
    requires LinkedIn(node, heads, nodes[o], o, n, link, node', heads')
    ensures var nodes' := nodes[o := nodes[o] + [n]];
      && Chains(node', heads', nodes')
      && QueuesOf(node', nodes') == QueuesOf(node, nodes)[o := QueuesOf(node, nodes)[o] + [link.task]]
  {
    AppendOne(node, heads, nodes, o, n, link, node', heads');
  }

  /** Taking the first node of queue `o` out and freeing it. */
  lemma PopChains(node: map<Ref, Node>, heads: seq<Ref>, nodes: seq<seq<Ref>>, o: nat)
    requires Chains(node, heads, nodes) && o < LEVELS && Separate(nodes, o) && nodes[o] != []
    ensures heads[o] in node
    ensures var nodes' := nodes[o := nodes[o][1..]];
      var node' := node - {heads[o]};
      && Chains(node', heads[o := node[heads[o]].next], nodes')
      && QueuesOf(node', nodes') == QueuesOf(node, nodes)[o := QueuesOf(node, nodes)[o][1..]]
  {
    PopChain(node, heads[o], nodes[o]);
    var node' := node - {heads[o]};
    forall l | 0 <= l < LEVELS && l != o
      ensures Chain(node', heads[l], nodes[l]) && TasksOf(node', nodes[l]) == TasksOf(node, nodes[l])
    {
      SameChain(node, node', heads[l], nodes[l]);
    }
  }

  lemma {:induction false} BoundedBy(s: set<Ref>) returns (m: nat)
    ensures forall r :: r in s ==> r < m
    decreases s
  {
    if s == {} {
      m := 0;
    } else {
      var r :| r in s;
      var m' := BoundedBy(s - {r});
      m := if m' <= r then r + 1 else m';
      forall x | x in s ensures x < m {
        if x != r {
          assert x in s - {r};
        }
      }
    }
  }

  /** An address that is not in use. */
  method Malloc(used: set<Ref>) returns (n: Ref)
    ensures n != NULL && n !in used
  {
    ghost var m := BoundedBy(used);
    assert m + 1 !in used && m + 1 != NULL;
    n :| n != NULL && n !in used;
  }

  lemma OrphanFromStep(k: Kernel, i: nat, k1: Kernel)
    requires WellFormed(k) && 1 <= i < MAX_TASK && k1 == OrphanSlot(k, i)
    ensures OrphanFrom(k, i) == OrphanFrom(k1, i - 1)
  {
  }

  lemma ExitMarkStep(k: Kernel, k1: Kernel)
    requires WellFormed(k) && k1 == OrphanFrom(k, |k.table| - 1)
    ensures WellFormed(Put(k1, k1.current, Exited(Cur(k1))))
    ensures ExitMark(k) == TellFather(Put(k1, k1.current, Exited(Cur(k1))), Cur(k1).father)
  {
    PutWellFormed(k1, k1.current, Exited(Cur(k1)));
  }

  class Kernel404 {
    const TASK: array<Ref>
    const head: array<Ref>
    const tail: array<Ref>
    var pcb: map<Ref, Task>
    var node: map<Ref, Node>
    var current: Ref
    var newPid: int
    ghost var table: seq<Ref>
    ghost var nodes: seq<seq<Ref>>

    ghost predicate Valid()
      reads this, TASK, head, tail
    {
      && TASK.Length == MAX_TASK && head.Length == LEVELS && tail.Length == LEVELS
      && TASK != head && TASK != tail && head != tail
      && table == TASK[..]
      && Chains(node, head[..], nodes)
      && (forall o :: 0 <= o < LEVELS && nodes[o] != [] ==> tail[o] == nodes[o][|nodes[o]| - 1])
    }

    ghost function Abs(): Kernel
      requires Valid()
      reads this, TASK, head, tail
    {
      Kernel(pcb, table, QueuesOf(node, nodes), current, newPid, false)
    }

    /** Boot: `Init_sched` on the static `init_task`. */
    constructor ()
      ensures Valid() && Initial(Abs()) && fresh(TASK) && fresh(head) && fresh(tail)
    {
      TASK := new Ref[MAX_TASK](i => if i == 0 then 1 else NULL);
      head := new Ref[LEVELS](_ => NULL);
      tail := new Ref[LEVELS](_ => NULL);
      pcb := map[1 := Task(0, 0, 0, Ready, 1, 1, 0, false, 0, NO_SIGNAL, None)];
      node := map[];
      current := 1;
      newPid := 0;
      nodes := [[], [], [], [], []];
      new;
      table := TASK[..];
      assert Abs().queue == [[], [], [], [], []];
    }

    /** Queue nodes are distinct because their tasks are. */
    lemma NodesDistinct(o: nat, i: nat, o': nat, j: nat)
      requires Valid() && Core(Abs())
      requires o < LEVELS && o' < LEVELS && i < |nodes[o]| && j < |nodes[o']| && nodes[o][i] == nodes[o'][j]
      ensures o == o' && i == j
    {
      var k := Abs();
      assert k.queue[o] == TasksOf(node, nodes[o]) && k.queue[o'] == TasksOf(node, nodes[o']);
      assert k.queue[o][i] == k.queue[o'][j];
      assert k.pcb[k.queue[o][i]].order == o && k.pcb[k.queue[o'][j]].order == o';
    }

    lemma QueueSeparate(o: nat)
      requires Valid() && Core(Abs()) && o < LEVELS
      ensures Separate(nodes, o)
    {
      forall l, i, j | 0 <= l < LEVELS && 0 <= i < |nodes[l]| && 0 <= j < |nodes[o]| && nodes[l][i] == nodes[o][j]
        ensures l == o && i == j
      {
        NodesDistinct(l, i, o, j);
      }
    }

    /** Overwrites the task at `p`. */
    method Store(p: Ref, t: Task)
      requires Valid()
      modifies this`pcb
      ensures Valid() && Abs() == Put(old(Abs()), p, t)
    {
      pcb := pcb[p := t];
    }

    // ---------------------------------------------------------------- set_Queue

    /** Appends a node for the task at `p` to queue `o`, through `tail[o]`. */
    method Append(o: nat, p: Ref)
      requires Valid() && o < LEVELS && p in pcb && Separate(nodes, o)
      modifies this`node, this`nodes, head, tail
      ensures Valid()
      ensures Abs() == old(Abs()).(queue := old(Abs()).queue[o := old(Abs()).queue[o] + [p]])
    {
      var n := Malloc(node.Keys);
      var link := Node(pcb[p].pid, p, NULL);
      ghost var node0, heads0, nodes0 := node, head[..], nodes;
      if head[o] == NULL {
        head[o] := n;
        tail[o] := n;
        node := node[n := link];
      } else {
        var last := tail[o];
        node := node[last := node[last].(next := n)][n := link];
        tail[o] := n;
      }
      nodes := nodes[o := nodes[o] + [n]];
      AppendChains(node0, heads0, nodes0, o, n, link, node, head[..]);
    }

    /** The loop body of `set_Queue` on slot `i`. Its removal branch is dead. */
    method QueueTask(i: nat)
      requires Valid() && Core(Abs()) && 1 <= i < MAX_TASK
      modifies this`pcb, this`node, this`nodes, head, tail
      ensures Valid() && Abs() == EnqueueSlot(old(Abs()), i)
    {
      var p := TASK[i];
      if p == NULL || pcb[p].order < 0 {
        return;
      }
      if !pcb[p].inQueue {
        if Runnable(pcb[p]) {
          var t := Enqueued(pcb[p]);
          QueueSeparate(t.order);
          Append(t.order, p);
          Store(p, t);
        }
      } else {
        assert Runnable(pcb[p]);
      }
    }

    method SetQueue()
      requires Valid() && Core(Abs())
      modifies this`pcb, this`node, this`nodes, head, tail
      ensures Valid() && Abs() == SetQueueFrom(old(Abs()), TASK.Length - 1)
    {
      var i: nat := TASK.Length - 1;
      while i != 0
        invariant i < MAX_TASK
        invariant Valid() && Core(Abs())
        invariant SetQueueFrom(Abs(), i) == SetQueueFrom(old(Abs()), TASK.Length - 1)
      {
        EnqueueSlotKeepsCore(Abs(), i);
        QueueTask(i);
        i := i - 1;
      }
    }

    // ----------------------------------------------------- alter_state, schedule

    method AlterAll()
      requires Valid() && WellFormed(Abs())
      modifies this`pcb
      ensures Valid() && Abs() == AlterState(old(Abs()))
    {
      ghost var k := Abs();
      var i: nat := TASK.Length - 1;
      while i != 0
        invariant i < MAX_TASK && Valid() && pcb.Keys == k.pcb.Keys
        invariant forall r :: r in k.pcb ==> pcb[r] == if k.pcb[r].slot > i then Altered(k.pcb[r]) else k.pcb[r]
      {
        var p := TASK[i];
        assert p == k.table[i];
        if p != NULL {
          var t := pcb[p];
          if t.state.Wait? && (t.signal.chld || t.signal.cont) {
            pcb := pcb[p := t.(state := Ready, signal := NO_SIGNAL)];
          }
        }
        i := i - 1;
      }
      assert pcb == AlterState(k).pcb;
    }

    /** Takes the front node of queue `o` out and frees it. */
    method Unlink(o: nat) returns (next: Ref)
      requires Valid() && o < LEVELS && Separate(nodes, o) && head[o] != NULL
      modifies this`node, this`nodes, head
      ensures Valid() && old(Abs()).queue[o] != [] && next == old(Abs()).queue[o][0]
      ensures Abs() == old(Abs()).(queue := old(Abs()).queue[o := old(Abs()).queue[o][1..]])
    {
      PopChains(node, head[..], nodes, o);
      ghost var heads := head[..];
      var q := head[o];
      next := node[q].task;
      head[o] := node[q].next;
      assert head[..] == heads[o := node[q].next];
      node := node - {q};
      nodes := nodes[o := nodes[o][1..]];
    }

    /** Runs the task at the front of the first non-empty queue. */
    method RunFront(o: nat)
      requires Valid() && Core(Abs()) && o < LEVELS && head[o] != NULL && (forall l :: 0 <= l < o ==> head[l] == NULL)
      modifies this`pcb, this`node, this`nodes, this`current, head
      ensures Valid() && Abs() == Dispatch(old(Abs()))
    {
      ghost var k := Abs();
      assert forall l :: 0 <= l < LEVELS ==> (k.queue[l] == [] <==> head[l] == NULL);
      assert FirstLevel(k.queue, 0) == o;
      QueueSeparate(o);
      var next := Unlink(o);
      Store(next, pcb[next].(inQueue := false, state := Running));
      current := next;
    }

    method RunNext()
      requires Valid() && Core(Abs())
      modifies this`pcb, this`node, this`nodes, this`current, head
      ensures Valid() && Abs() == Dispatch(old(Abs()))
    {
      var i := 0;
      while i < LEVELS && head[i] == NULL
        invariant 0 <= i <= LEVELS
        invariant forall l :: 0 <= l < i ==> head[l] == NULL
      {
        i := i + 1;
      }
      if i < LEVELS {
        RunFront(i);
      } else {
        ghost var k := Abs();
        assert forall l :: 0 <= l < LEVELS ==> k.queue[l] == [];
        assert FirstLevel(k.queue, 0) == LEVELS;
        current := TASK[0];
      }
    }

    method Reschedule()
      requires Valid() && Core(Abs())
      modifies this`pcb, this`node, this`nodes, this`current, head, tail
      ensures Valid() && Abs() == Schedule(old(Abs()))
    {
      AlterStateKeepsCore(Abs());
      AlterAll();
      SetQueueFromKeepsCore(Abs(), TASK.Length - 1);
      SetQueue();
      RunNext();
    }

    // ------------------------------------------------------- sleep, wakeup, tick

    method Sleep()
      requires Valid() && Invariant(Abs())
      modifies this`pcb, this`node, this`nodes, this`current, head, tail
      ensures Valid() && Abs() == Schedule(SleepMark(old(Abs())))
    {
      var t := pcb[current].(state := Wait, signal := pcb[current].signal.(stop := true));
      CurrentUnqueued(Abs());
      PutKeepsCore(Abs(), current, t);
      Store(current, t);
      Reschedule();
    }

    method WakeAll()
      requires Valid() && WellFormed(Abs())
      modifies this`pcb
      ensures Valid() && Abs() == Wakeup(old(Abs()))
    {
      ghost var k := Abs();
      var i: nat := TASK.Length - 1;
      while i != 0
        invariant i < MAX_TASK && Valid() && pcb.Keys == k.pcb.Keys
        invariant forall r :: r in k.pcb ==> pcb[r] == if k.pcb[r].slot > i then Woken(k.pcb[r]) else k.pcb[r]
      {
        var p := TASK[i];
        assert p == k.table[i];
        if p != NULL && !pcb[p].signal.Empty() && pcb[p].signal.stop {
          pcb := pcb[p := pcb[p].(signal := pcb[p].signal.(stop := false, cont := true))];
        }
        i := i - 1;
      }
      assert pcb == Wakeup(k).pcb;
    }

    /** Charges the tick; does it end the slice? */
    method Charge() returns (expired: bool)
      requires Valid() && WellFormed(Abs())
      modifies this`pcb
      ensures Valid() && Abs() == Put(old(Abs()), old(current), Ticked(Cur(old(Abs()))))
      ensures expired == Preempts(Cur(old(Abs())))
    {
      var t := pcb[current].(time := pcb[current].time + 1);
      expired := true;
      if t.pid != 0 {
        t := t.(counter := t.counter - 1);
        expired := !(t.counter > 0 && Runnable(t));
      }
      Store(current, t);
    }

    method DoTimer()
      requires Valid() && Invariant(Abs())
      modifies this`pcb, this`node, this`nodes, this`current, head, tail
      ensures Valid() && Abs() == Tick(old(Abs()))
    {
      CurrentUnqueued(Abs());
      PutKeepsCore(Abs(), current, Ticked(pcb[current]));
      var expired := Charge();
      if expired {
        Reschedule();
      }
    }

    // -------------------------------------------------------------- fork and exit

    /** `find_new_id` and `copy_process`; None when the table is full, where the kernel panics. */
    method ForkProcess() returns (pid: Option<int>)
      requires Valid() && WellFormed(Abs())
      modifies this`pcb, this`newPid, this`table, TASK
      ensures Valid()
      ensures pid.None? <==> FreeSlot(old(Abs()).table, 1) == MAX_TASK
      ensures pid.Some? ==> pid.value == old(newPid) + 1
      ensures pid.Some? ==> exists r :: r != NULL && r !in old(pcb) && Abs() == Fork(old(Abs()), r)
      ensures pid.None? ==> Abs() == old(Abs()).(newPid := old(newPid) + 1)
    {
      newPid := newPid + 1;
      var i: nat := 1;
      while i < MAX_TASK && TASK[i] != NULL
        invariant 1 <= i <= MAX_TASK
        invariant Valid() && FreeSlot(table, i) == FreeSlot(table, 1)
      {
        i := i + 1;
      }
      if i == MAX_TASK {
        return None;
      }
      var r := Malloc(pcb.Keys);
      TASK[i] := r;
      table := TASK[..];
      pcb := pcb[r := NewTask(newPid, i, pcb[current])];
      assert table == old(table)[i := r];
      assert Abs() == Fork(old(Abs()), r);
      return Some(newPid);
    }

    method Tell(pid: int)
      requires Valid() && WellFormed(Abs()) && Abs().table[1] != NULL
      modifies this`pcb
      ensures Valid() && Abs() == TellFather(old(Abs()), pid)
    {
      if pid != 0 {
        var i: nat := 1;
        while i < MAX_TASK
          invariant 1 <= i <= MAX_TASK && Abs() == old(Abs())
          invariant PidSlot(Abs(), pid, i) == PidSlot(Abs(), pid, 1)
        {
          var p := TASK[i];
          if p != NULL && pcb[p].pid == pid {
            Store(p, Signalled(pcb[p]));
            return;
          }
          i := i + 1;
        }
      }
      Store(current, pcb[current].(father := 1));
      Store(TASK[1], Signalled(pcb[TASK[1]]));
    }

    /** The loop body of `do_exit` on slot `i`. */
    method OrphanTask(i: nat)
      requires Valid() && Exiting(Abs()) && 1 <= i < MAX_TASK
      modifies this`pcb
      ensures Valid() && Exiting(Abs()) && Abs() == OrphanSlot(old(Abs()), i)
    {
      OrphanSlotKeeps(Abs(), i);
      var p := TASK[i];
      if p != NULL && pcb[p].father == pcb[current].pid {
        var zombie := pcb[p].state.Zombie?;
        AdoptKeeps(Abs(), p);
        Store(p, pcb[p].(father := 1));
        if zombie {
          Tell(1);
        }
      }
    }

    method OrphanAll()
      requires Valid() && Exiting(Abs())
      modifies this`pcb
      ensures Valid() && Exiting(Abs()) && Abs() == OrphanFrom(old(Abs()), TASK.Length - 1)
    {
      var i: nat := TASK.Length - 1;
      ghost var all := OrphanFrom(Abs(), i);
      while i != 0
        invariant i < MAX_TASK && Valid() && Exiting(Abs())
        invariant OrphanFrom(Abs(), i) == all
      {
        ghost var k := Abs();
        OrphanFromStep(k, i, OrphanSlot(k, i));
        OrphanTask(i);
        i := i - 1;
      }
    }

    /** `do_exit` up to its call of `schedule`. */
    method MarkExit()
      requires Valid() && Exiting(Abs())
      modifies this`pcb
      ensures Valid() && Abs() == ExitMark(old(Abs()))
    {
      OrphanAll();
      ghost var k1 := Abs();
      ExitMarkStep(old(Abs()), k1);
      Store(current, Exited(pcb[current]));
      Tell(pcb[current].father);
    }

    /** `do_exit`; true when it panics because task 0 tries to end. */
    method DoExit() returns (panicked: bool)
      requires Valid() && Invariant(Abs())
      modifies this`pcb, this`node, this`nodes, this`current, head, tail
      ensures Valid() && panicked == (Cur(old(Abs())).pid == 0)
      ensures Abs() == if panicked then old(Abs()) else Schedule(ExitMark(old(Abs())))
    {
      if pcb[current].pid == 0 {
        return true;
      }
      ExitKeeps(Abs());
      MarkExit();
      Reschedule();
      return false;
    }

    // ------------------------------------------------------------------- waitpid

    method Free(p: Ref)
      requires Valid() && WellFormed(Abs()) && SlotOf(Abs().table, p, 1) < MAX_TASK
      modifies this`pcb, this`table, TASK
      ensures Valid() && Abs() == Release(old(Abs()), p)
    {
      ghost var k := Abs();
      var i: nat := 1;
      while TASK[i] != p
        invariant 1 <= i < MAX_TASK && TASK[..] == k.table
        invariant SlotOf(k.table, p, i) == SlotOf(k.table, p, 1)
        decreases MAX_TASK - i
      {
        i := i + 1;
      }
      TASK[i] := NULL;
      table := TASK[..];
      pcb := pcb - {p};
      assert table == k.table[i := NULL];
    }

    /** The scan of `sys_waitpid`, from the highest slot down. */
    method Scan(pid: int) returns (w: WaitOutcome)
      requires Valid() && WellFormed(Abs())
      ensures w == Outcome(Abs(), pid)
    {
      var i: nat := TASK.Length - 1;
      var flag := false;
      while i != 0
        invariant i < MAX_TASK
        invariant WaitScan(Abs(), pid, i, flag) == Outcome(Abs(), pid)
      {
        var p := TASK[i];
        if p != NULL && p != current && pcb[p].father == pcb[current].pid && (if pid > 0 then pid == pcb[p].pid else pid == -1) {
          if pcb[p].state.Zombie? {
            return Reap(p);
          } else if pcb[p].state.Stopped? {
            return Report(p);
          }
          flag := true;
        }
        i := i - 1;
      }
      return if flag then Block else NoChild;
    }

    method ReapTask(p: Ref) returns (child: int)
      requires Valid() && WellFormed(Abs()) && p in pcb && SlotOf(Abs().table, p, 1) < MAX_TASK
      modifies this`pcb, this`table, TASK
      ensures Valid() && Abs() == ReapStep(old(Abs()), p) && child == old(pcb)[p].pid
    {
      var t := pcb[current].(waiting := None, time := pcb[current].time + pcb[p].time);
      child := pcb[p].pid;
      ReapStepUnfold(Abs(), p, Put(Abs(), current, t));
      Store(current, t);
      Free(p);
    }

    method BlockTask(pid: int)
      requires Valid() && Invariant(Abs())
      modifies this`pcb, this`node, this`nodes, this`current, head, tail
      ensures Valid() && Abs() == Schedule(BlockMark(old(Abs()), pid))
    {
      BlockKeeps(Abs(), pid);
      Store(current, pcb[current].(state := Wait, inQueue := false, waiting := Some(pid)));
      Reschedule();
    }

    /** `sys_waitpid` from `repeat` on: Some(result), or None after a switch away. No task is
        ever in TASK_STOP, so its third return is dead. */
    method WaitRound(pid: int) returns (result: Option<int>)
      requires Valid() && Invariant(Abs())
      modifies this`pcb, this`node, this`nodes, this`current, this`table, TASK, head, tail
      ensures Valid() && Abs() == WaitStep(old(Abs()), pid)
      ensures match Outcome(old(Abs()), pid)
        case Reap(r) => result == Some(old(pcb)[r].pid)
        case Report(_) => false
        case NoChild => result == Some(-ECHILD)
        case Block => result == None
      ensures Answers(old(Abs()), pid, Abs(), result)
    {
      WaitAnswered(Abs(), pid);
      var w := Scan(pid);
      match w
      case Reap(p) =>
        ReapedSlot(Abs(), pid);
        var child := ReapTask(p);
        result := Some(child);
      case Report(_) =>
        assert false;
      case Block =>
        BlockTask(pid);
        result := None;
      case NoChild =>
        Store(current, pcb[current].(waiting := None));
        result := Some(-ECHILD);
    }

    /** `sys_waitpid` when its `schedule()` comes back. */
    method WaitAgain() returns (result: Option<int>)
      requires Valid() && Invariant(Abs()) && pcb[current].waiting.Some?
      modifies this`pcb, this`node, this`nodes, this`current, this`table, TASK, head, tail
      ensures Valid() && Abs() == Resume(old(Abs()))
      ensures result == StepAnswer(old(Abs()), ResumeWait)
      ensures Interrupted(old(Abs())) ==> result == Some(-EINTR)
      ensures !Interrupted(old(Abs())) ==> Answers(old(Abs()), old(Abs()).pcb[old(current)].waiting.value, Abs(), result)
    {
      ghost var k := Abs();
      if !Interrupted(k) {
        StepAnswered(k, ResumeWait);
      }
      var pid := pcb[current].waiting.value;
      var t := pcb[current].(signal := pcb[current].signal.(chld := false));
      PutCurrentKeeps(Abs(), t);
      Store(current, t);
      if t.signal.Empty() {
        result := WaitRound(pid);
      } else {
        Store(current, t.(waiting := None));
        result := Some(-EINTR);
      }
    }
  }
}

/** Stretches of timer ticks (timer/timer.c, kernel/sched/sched.c) in which no task is created,
    ends, blocks or is woken: the ticks that preempt lower the feedback levels one step at a
    time, then rotate the runnable tasks, and every runnable task gets the same share of the
    ticks. */
module TimeShare {
  import opened SchedModel
  import opened SchedInvariant
  import opened SchedFairness
  import opened Turns

  /** Which ticks call `schedule`. */
  ghost function Preemptions(ks: seq<Kernel>): (fs: seq<bool>)
    ensures |fs| == |ks|
  {
    seq(|ks|, i requires 0 <= i < |ks| => WellFormed(ks[i]) && Preempts(Cur(ks[i])))
  }

  /** Who holds the processor. */
  ghost function Holders(ks: seq<Kernel>): (hs: seq<Ref>)
    ensures |hs| == |ks|
  {
    seq(|ks|, i requires 0 <= i < |ks| => ks[i].current)
  }

  ghost function Credits(ks: seq<Kernel>): (cs: seq<int>)
    ensures |cs| == |ks|
  {
    seq(|ks|, i requires 0 <= i < |ks| => if WellFormed(ks[i]) then TotalCredit(ks[i]) else 0)
  }

  ghost function Rounds(ks: seq<Kernel>): (rs: seq<seq<Ref>>)
    ensures |rs| == |ks|
  {
    seq(|ks|, i requires 0 <= i < |ks| => if WellFormed(ks[i]) then Round(ks[i]) else [])
  }

  /** What is left of the holder's slice. */
  ghost function Left(ks: seq<Kernel>): (ls: seq<int>)
    ensures |ls| == |ks|
  {
    seq(|ks|, i requires 0 <= i < |ks| => if WellFormed(ks[i]) then Cur(ks[i]).counter else 0)
  }

  /** The consecutive timer ticks of a run are such a stretch. */
  lemma StretchOfRun(ks: seq<Kernel>, acts: seq<Action>, i: nat, j: nat)
    requires Run(ks, acts) && i <= j <= |acts| && (forall t :: i <= t < j ==> acts[t] == TickCall)
    ensures Ticks(ks[i..j + 1]) && Invariant(ks[i])
  {
    var ts := ks[i..j + 1];
    forall t | 0 <= t < |ts| - 1 ensures TickAt(ts, t) {
      EveryRunKeeps(ks, acts, i + t);
      assert acts[i + t] == TickCall;
    }
    EveryRunKeeps(ks, acts, i);
  }

  // ------------------------------------------------------------------ one tick

  /** Counting a tick against `current` changes neither the levels nor the queues. */
  lemma TickedKeeps(k: Kernel, k': Kernel)
    requires Settled(k) && k' == Put(k, k.current, Ticked(Cur(k)))
    ensures Settled(k') && Round(k') == Round(k) && TotalCredit(k') == TotalCredit(k)
  {
    CurrentSlot(k);
    CurrentUnqueued(k);
    PutKeepsCore(k, k.current, Ticked(Cur(k)));
    assert forall r :: r in k'.pcb && r != k.current ==> k'.pcb[r] == k.pcb[r];
    assert Quiet(k');
    forall r | IsRunnable(k', r) && r != k'.current ensures k'.pcb[r].inQueue && Cur(k').order <= k'.pcb[r].order {
      assert IsRunnable(k, r);
    }
    CreditOfOne(k, k', Cur(k).slot, |k.table| - 1);
  }

  lemma TickSettled(k: Kernel)
    requires Settled(k)
    ensures Settled(Tick(k)) && TotalCredit(k) >= 0
    ensures TotalCredit(Tick(k)) == if Preempts(Cur(k)) && TotalCredit(k) > 0 then TotalCredit(k) - 1 else TotalCredit(k)
  {
    var k' := Put(k, k.current, Ticked(Cur(k)));
    TickedKeeps(k, k');
    CreditZero(k, |k.table| - 1);
    if Preempts(Cur(k)) {
      EachCallDescends(k');
    }
  }

  lemma TickSunk(k: Kernel)
    requires Sunk(k)
    ensures Sunk(Tick(k))
    ensures Round(Tick(k)) == if Preempts(Cur(k)) then Round(k)[1..] + [Round(k)[0]] else Round(k)
  {
    var k' := Put(k, k.current, Ticked(Cur(k)));
    TickedKeeps(k, k');
    if Preempts(Cur(k)) {
      SunkRotates(k', Schedule(k'));
    }
  }

  /** The first tick that preempts starts such a stretch from any consistent state with
      something to run. */
  lemma FirstPreemption(k: Kernel, r: Ref)
    requires Invariant(k) && Quiet(k) && IsRunnable(k, r) && Preempts(Cur(k))
    ensures var k' := Tick(k); Settled(k') && Invariant(k') && Cur(k').counter == Counter(Cur(k').order)
  {
    TickKeeps(k);
    var k' := Put(k, k.current, Ticked(Cur(k)));
    TickedQuiet(k, k', r);
    ScheduleSettles(k', r);
    FullSliceOnDispatch(k');
  }

  lemma TickedQuiet(k: Kernel, k': Kernel, r: Ref)
    requires Invariant(k) && Quiet(k) && IsRunnable(k, r) && k' == Put(k, k.current, Ticked(Cur(k)))
    ensures Core(k') && Quiet(k') && IsRunnable(k', r)
  {
    CurrentUnqueued(k);
    PutKeepsCore(k, k.current, Ticked(Cur(k)));
    assert forall s :: s in k'.pcb && s != k.current ==> k'.pcb[s] == k.pcb[s];
  }

  // -------------------------------------------------------------- every stretch

  lemma {:induction false} StaysSettled(ks: seq<Kernel>, m: nat)
    requires Ticks(ks) && Settled(ks[0]) && m < |ks|
    ensures Settled(ks[m])
    decreases m
  {
    if m != 0 {
      StaysSettled(ks, m - 1);
      assert TickAt(ks, m - 1);
      TickSettled(ks[m - 1]);
    }
  }

  lemma TickDescends(ks: seq<Kernel>, m: nat)
    requires Ticks(ks) && Settled(ks[0]) && m + 1 < |ks|
    ensures DescendsAt(Credits(ks), Preemptions(ks), m)
  {
    StaysSettled(ks, m);
    assert TickAt(ks, m);
    TickSettled(ks[m]);
  }

  /** After any number of ticks the sum of `4 - order` over the runnable tasks is what it was
      less the number of preemptions, or zero. */
  lemma TicksDescend(ks: seq<Kernel>, m: nat)
    requires Ticks(ks) && Settled(ks[0]) && m < |ks|
    ensures Settled(ks[m]) && TotalCredit(ks[0]) >= 0
    ensures var c := Count(Preemptions(ks), m);
      TotalCredit(ks[m]) == if c <= TotalCredit(ks[0]) then TotalCredit(ks[0]) - c else 0
  {
    var cs, fs := Credits(ks), Preemptions(ks);
    forall i | 0 <= i < |ks| - 1 ensures DescendsAt(cs, fs, i) {
      TickDescends(ks, i);
    }
    CreditZero(ks[0], |ks[0].table| - 1);
    DescendsToZero(cs, fs, m);
    StaysSettled(ks, m);
  }

  lemma {:induction false} StaysSunk(ks: seq<Kernel>, m: nat)
    requires Ticks(ks) && Sunk(ks[0]) && m < |ks|
    ensures Sunk(ks[m])
    decreases m
  {
    if m != 0 {
      StaysSunk(ks, m - 1);
      assert TickAt(ks, m - 1);
      TickSunk(ks[m - 1]);
    }
  }

  // ------------------------------------------------------------------- rotation

  lemma SunkTicksRotate(ks: seq<Kernel>)
    requires Ticks(ks) && Sunk(ks[0])
    ensures Rotates(Rounds(ks), Preemptions(ks))
  {
    forall m | 0 <= m < |ks| - 1 ensures RotatesAt(Rounds(ks), Preemptions(ks), m) {
      StaysSunk(ks, m);
      SunkTickRotates(ks, m);
    }
  }

  lemma SunkTickRotates(ks: seq<Kernel>, m: nat)
    requires Ticks(ks) && m + 1 < |ks| && Sunk(ks[m])
    ensures RotatesAt(Rounds(ks), Preemptions(ks), m)
  {
    assert TickAt(ks, m);
    TickSunk(ks[m]);
  }

  lemma HolderIsLast(ks: seq<Kernel>, m: nat)
    requires Ticks(ks) && Sunk(ks[0]) && m < |ks|
    ensures Rounds(ks)[m] != [] && Holders(ks)[m] == Rounds(ks)[m][|Rounds(ks)[m]| - 1]
  {
    StaysSunk(ks, m);
  }

  /** On the last level the runnable tasks take turns in the order of the round. */
  lemma SunkTakesTurns(ks: seq<Kernel>)
    requires Ticks(ks) && Sunk(ks[0])
    ensures InTurn(Holders(ks), Preemptions(ks), Round(ks[0]))
  {
    SunkTicksRotate(ks);
    RoundIsAllRunnable(ks[0]);
    forall m | 0 <= m < |ks| ensures Rounds(ks)[m] != [] && Holders(ks)[m] == Rounds(ks)[m][|Rounds(ks)[m]| - 1] {
      HolderIsLast(ks, m);
    }
    RotationTakesTurns(Rounds(ks), Preemptions(ks), Holders(ks));
  }

  lemma PlaceOf(k: Kernel, r: Ref) returns (p: nat)
    requires Sunk(k) && IsRunnable(k, r)
    ensures p < |Round(k)| && Round(k)[p] == r
  {
    RoundIsAllRunnable(k);
    p :| 0 <= p < |Round(k)| && Round(k)[p] == r;
  }

  /** Every runnable task is dispatched exactly once in any stretch of `n` preemptions, where
      `n` is the number of runnable tasks. */
  lemma OncePerRound(ks: seq<Kernel>, a: nat, b: nat, r: Ref)
    requires Ticks(ks) && Sunk(ks[0]) && IsRunnable(ks[0], r) && a <= b < |ks|
    requires Count(Preemptions(ks), b) == Count(Preemptions(ks), a) + |Round(ks[0])|
    ensures DispatchedOnce(Holders(ks), Preemptions(ks), a, b, r)
  {
    var p := PlaceOf(ks[0], r);
    SunkTakesTurns(ks);
    Turns.OncePerRound(Holders(ks), Preemptions(ks), Round(ks[0]), a, b, p);
  }

  // ------------------------------------------------------------------ the share

  /** The slice of a task on the last level, in ticks. */
  ghost const SLICE: nat := 26

  /** The start of a slice on the last level. */
  ghost predicate StartsSlice(k: Kernel) {
    Sunk(k) && Invariant(k) && Cur(k).counter == SLICE
  }

  lemma {:induction false} StaysInvariant(ks: seq<Kernel>, m: nat)
    requires Ticks(ks) && Invariant(ks[0]) && m < |ks|
    ensures Invariant(ks[m])
    decreases m
  {
    if m != 0 {
      StaysInvariant(ks, m - 1);
      assert TickAt(ks, m - 1);
      TickKeeps(ks[m - 1]);
    }
  }

  lemma SunkTickCounts(k: Kernel)
    requires Sunk(k) && Invariant(k) && 1 <= Cur(k).counter
    ensures WellFormed(Tick(k))
    ensures Preempts(Cur(k)) <==> Cur(k).counter == 1
    ensures Cur(Tick(k)).counter == if Cur(k).counter == 1 then SLICE else Cur(k).counter - 1
  {
    assert Cur(k).pid != 0;
    if Preempts(Cur(k)) {
      TickSunk(k);
      SunkDispatch(k);
    } else {
      TickWithoutSchedule(k);
    }
  }

  lemma SunkDispatch(k: Kernel)
    requires Settled(k) && Preempts(Cur(k)) && Sunk(Tick(k))
    ensures Cur(Tick(k)).counter == SLICE
  {
    var k' := Put(k, k.current, Ticked(Cur(k)));
    TickedKeeps(k, k');
    FullSliceOnDispatch(k');
    SunkLevels(Schedule(k'));
  }

  /** Every stretch comes to it: as soon as there were as many preemptions as there were levels
      to fall, the tick that preempts starts a slice on the last level. */
  lemma SharesBegin(ks: seq<Kernel>, t: nat)
    requires Ticks(ks) && Settled(ks[0]) && Invariant(ks[0]) && t + 1 < |ks|
    requires Preemptions(ks)[t] && Count(Preemptions(ks), t + 1) >= TotalCredit(ks[0])
    ensures StartsSlice(ks[t + 1])
  {
    TicksDescend(ks, t + 1);
    StaysSettled(ks, t);
    StaysInvariant(ks, t + 1);
    assert TickAt(ks, t);
    SunkDispatch(ks[t]);
  }

  lemma SunkCounts(ks: seq<Kernel>)
    requires Ticks(ks) && Sunk(ks[0]) && Invariant(ks[0])
    ensures Counts(Left(ks), Preemptions(ks), SLICE)
  {
    forall m | 0 <= m < |ks| - 1 ensures CountsAt(Left(ks), Preemptions(ks), SLICE, m) {
      StaysSunk(ks, m);
      StaysInvariant(ks, m);
      SunkCountsAt(ks, m);
    }
  }

  lemma SunkCountsAt(ks: seq<Kernel>, m: nat)
    requires Ticks(ks) && m + 1 < |ks| && Sunk(ks[m]) && Invariant(ks[m])
    ensures CountsAt(Left(ks), Preemptions(ks), SLICE, m)
  {
    assert TickAt(ks, m);
    if Left(ks)[m] >= 1 {
      SunkTickCounts(ks[m]);
    }
  }

  /** On the last level the tasks of the round hold the processor in turn, `SLICE` ticks each. */
  lemma SunkTakesSlices(ks: seq<Kernel>)
    requires Ticks(ks) && StartsSlice(ks[0])
    ensures InSlices(Holders(ks), Round(ks[0]), SLICE)
  {
    SunkTakesTurns(ks);
    SunkCounts(ks);
    TurnsInSlices(Holders(ks), Preemptions(ks), Left(ks), Round(ks[0]), SLICE);
  }

  /** Fairness: in every window of `n * SLICE` consecutive ticks, where `n` is the number of
      runnable tasks, each of them holds the processor for exactly `SLICE` ticks. */
  lemma EqualShares(ks: seq<Kernel>, r: Ref, a: nat)
    requires Ticks(ks) && StartsSlice(ks[0]) && IsRunnable(ks[0], r) && a + |Round(ks[0])| * SLICE <= |ks|
    ensures Held(Holders(ks), r, a, a + |Round(ks[0])| * SLICE) == SLICE
  {
    var p := PlaceOf(ks[0], r);
    SunkTakesSlices(ks);
    Turns.EqualShares(Holders(ks), Round(ks[0]), SLICE, p, a);
  }

  /** ... and so it is wherever in a run the timer is all that happens. */
  lemma EqualSharesInRun(ks: seq<Kernel>, acts: seq<Action>, i: nat, j: nat, r: Ref)
    requires Run(ks, acts) && i <= j <= |acts| && (forall t :: i <= t < j ==> acts[t] == TickCall)
    requires StartsSlice(ks[i]) && IsRunnable(ks[i], r) && j - i == |Round(ks[i])| * SLICE
    ensures Held(Holders(ks[i..j]), r, 0, j - i) == SLICE
  {
    StretchOfRun(ks, acts, i, j);
    var ts := ks[i..j + 1];
    EqualShares(ts, r, 0);
    assert Holders(ks[i..j]) == Holders(ts)[..j - i];
    HeldPrefix(Holders(ts), Holders(ks[i..j]), r, j - i);
  }

  lemma {:induction false} HeldPrefix(hs: seq<Ref>, gs: seq<Ref>, r: Ref, b: nat)
    requires gs <= hs && b <= |gs|
    ensures Held(gs, r, 0, b) == Held(hs, r, 0, b)
    decreases b
  {
    if b != 0 {
      HeldPrefix(hs, gs, r, b - 1);
    }
  }
}

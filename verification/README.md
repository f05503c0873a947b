# A verified model of the 404OS core

404OS is a small RISC-V teaching kernel. This project models its core in Dafny 4.11 and proves
what that core keeps over every run or for every input:

- the feedback scheduler with fork, exit, waitpid, sleep, wakeup and the timer tick;
- the page map and the bucket allocator above it;
- the virtio block queue, with the device and the interrupt handler as independent actors;
- the buffer cache;
- FAT32: the FAT at byte level, cluster chains, reading, writing, truncation, directory slots and
  long names;
- the inode table and path lookup;
- the word-at-a-time string routines of the user library;
- SLIP framing in the flashing tool.

Nothing was executed. All statements are about the model, checked by the Dafny verifier;
`dafny verify dfyconfig.toml` covers the whole project.

## How the model is built

Code that updates memory step by step is modelled twice. A pure description gives the new state as
a value (`SchedModel`, `VirtioModel`, `MallocModel`, `FatVolume`, ...), invariants and run theorems
are lemmas about that description, and a class with the loops, arrays and pointer walks of the C
code is proved to compute it (`Scheduler.Kernel404`, `VirtioDriver.VirtDisk`, `Allocator.Buckets`,
`FatWrite.FileSystem`, ...). Addresses are numbers and memory is a map from addresses to records,
so that use of a released object is something the proofs have to rule out. Fields marked "for the
record" exist only in the description: the history of published and completed requests, the chain
a list stands for, the set of live objects.

Runs are sequences of states and actions. One hart runs the kernel and traps are not interrupted,
so each system call, tick or critical section is one step; the virtio device may act between any
two steps. A call that panics ends the run.

| file | contents |
|---|---|
| SchedModel, SchedInvariant, Lifecycle, Exceptions, Kinship, WaitAnswers, Wakeups, TimeAccounts, SchedFairness, Turns, TimeShare, Scheduler | scheduler and processes |
| VirtioModel, VirtioInvariant, VirtioDriver | block device queue |
| BufferCache, PlainDisk | buffer cache |
| PageMap, MallocModel, MallocInvariant, MallocRuns, HeapPages, Allocator | memory |
| FatLayout, FatBytes, FatFile, FatRead, FatVolume, FatWrite, FatReuse, FatDir, LongName, FatEntries | FAT32 |
| InodeTable, Namex | inode table and paths |
| StringLib, Slip | string routines, SLIP |
| Arith, Wrappers | shared arithmetic facts, Option |

## What turned out false of the code

Each of these has a lemma with a concrete failing case and a lemma with the exact condition.

- A free that empties the third or a later descriptor of a bucket drops the descriptors between it
  and the head (`MallocRuns.AllFreeableIff`, `MallocRuns.FreeInOrderLosesAPage`). Live objects stay
  disjoint all the same.
- A change to a buffer in the last cache slot that is released without `bwrite` is lost
  (`BufferCache.SeenIffWrittenBack`, `BufferCache.UnwrittenChangeLost`).
- The page pool can reach past the end of the heap by what aligning its start skips: with the heap
  size of the linker script, from every start that is not on a page boundary
  (`PageMap.PoolInsideHeapIff`, `PageMap.PoolPassesHeap`, `PageMap.PoolMayPassHeap`).
- `waitpid` returns -EINTR, although nothing interrupts it, exactly to TASK[0] once TASK[0] has
  ever slept (`Exceptions.InterruptedIff`, `Exceptions.InterruptedRun`).
- The law that every task has a living father ends exactly when pid 1 exits
  (`Exceptions.LifeKeptIff`, `Exceptions.InitExitOrphans`).
- Reading looks up the successor of the last cluster of a file exactly when it starts at the end of
  that cluster (`FatRead.LastAskedIff`, `FatRead.EndOfFileAsksPastLast`).
- An allocation that has to search the FAT marks another entry than the one it found and returns a
  third cluster; when it is right (`FatVolume.AllocRightIff`), and a file that is cut
  (`FatVolume.SearchCutsAChain`).
- Following the parent link of the working directory can put a second referenced entry for one
  inode into the table (`InodeTable.DupUniqueIff`, `Namex.NoElementsUniqueIff`), and five calls from
  boot do (`Namex.ParentDuplicates`).
- Deleting a file overwrites exactly the slots that creating it wrote only if these do not start at
  slot 0, its name does not start with a dot, and its table entry held no longer name before
  (`FatEntries.DeleteCoversAllocIff`, `FatEntries.DeleteVisitsSameIff`,
  `FatEntries.DeleteAtSlotZeroFails`, `FatEntries.DotNameTakesNeighbour`,
  `FatEntries.OldNameTakesNeighbour`). No caller in the kernel passes a name with a dot in front.
- A long name of 254 characters needs 256 bytes to read back (`LongName.NameFits`,
  `LongName.LongestNameNeedsMore`).

Four more things hold of the code without exception and are easy to miss:

- When a task whose father is TASK[0] dies, it goes to pid 1, so that TASK[0] never reaps it
  (`WaitAnswers.ChildOfIdleIsLost`); every other task stays with its father
  (`Kinship.ExitMarkCaller`).
- A `sleep` with SIG_CHLD pending does not sleep; every other one does (`Wakeups.SleepSleeps`).
- A truncation gives no cluster back: it turns every cluster of the chain into a chain of its own
  (`FatVolume.CutEnds`).
- A buffer released without `bwrite` leaves the disk as it was, and one released after it does not
  (`BufferCache.ReleaseWrites`).

Where comments and code disagree the code is followed: a path that starts with any dot begins at
the parent directory, and a file name that starts with a dot gets no long entries.

## Model

| member | source | states |
|---|---|---|
| `SchedInvariant.EveryRunKeeps` | kernel/sched/sched.c:23-133 | every state of every run of fork, exit, waitpid, sleep, wakeup and tick satisfies the scheduler invariant; in particular the removal branch of set_Queue and its panic are never reached and TASK[1] is never NULL when used |
| `SchedInvariant.NextKeeps` | kernel/sched/sched.c:23-180 | each enabled action keeps the invariant |
| `SchedInvariant.ScheduleEstablishesInvariant` | kernel/sched/sched.c:108-133 | schedule restores the full invariant from its half-way part, changing no task but for queue fields and dispatch |
| `SchedInvariant.QueuedExactlyOnce` | kernel/sched/sched.c:23-91 | in_Queue is set exactly for the tasks a queue node points to; the node is unique, in the queue numbered by order, and its task is READY |
| `SchedInvariant.IdleOnlyWhenNothingRunnable` | kernel/sched/sched.c:108-133 | TASK[0] is chosen if and only if nothing else is runnable after signals are delivered; else the longest waiting task of the least order is |
| `SchedInvariant.InitialInvariant` | kernel/sched/sched.c:135-145 | the boot state satisfies the invariant |
| `SchedInvariant.ForkKeeps` | kernel/sched/fork.c:43-114 | fork keeps the invariant: the child gets a fresh pid and a free slot |
| `SchedInvariant.ExitKeeps` | kernel/sched/exit.c:9-40 | exit keeps the invariant: the zombie is in no queue and its children are given to pid 1 |
| `SchedInvariant.ReapedSlot` | kernel/sched/exit.c:42-56 | the PCB that waitpid releases is neither current, nor TASK[0], nor in slot 1, and no queue node points to it |
| `SchedInvariant.WaitKeeps` | kernel/sys.c:53-106 | a call of waitpid keeps the invariant |
| `SchedInvariant.ResumeKeeps` | kernel/sys.c:53-106 | so does continuing a waitpid that was blocked |
| `SchedInvariant.OrphanFromInduction` | kernel/sched/exit.c:15-26 | what each iteration of the re-parenting loop keeps, the loop keeps |
| `Lifecycle.EveryRunLives` | kernel/sys.c:53-106 | in every run in which pid 1 does not exit, every task has a live, non-zombie father with a smaller pid, and no task is blocked in waitpid while a zombie it waits for exists |
| `Lifecycle.NextLife` | kernel/sched/exit.c:9-73 | each action keeps this |
| `Lifecycle.NeverInterrupted` | kernel/sys.c:91-104 | waitpid's -EINTR return is unreachable for every task but TASK[0] |
| `Exceptions.InterruptedIff` | kernel/sys.c:91-104 | in every run in which pid 1 does not exit, a blocked waitpid returns -EINTR if and only if its caller is TASK[0] and TASK[0] has called sleep before |
| `Exceptions.NextIdle` | kernel/sched/sched.c:93-180 | only a sleep of TASK[0] changes its signal word, and no action clears SIG_STOP there |
| `Exceptions.IdleSignal` | kernel/sched/sched.c:159-180 | so in every state of every run SIG_STOP of TASK[0] says whether it has slept, and no other signal is pending there |
| `Exceptions.InterruptedRun` | kernel/sys.c:91-104 | a run that gets there: TASK[0] sleeps, forks and waits, its child sleeps |
| `Exceptions.LifeKeptIff` | kernel/sched/exit.c:9-40 | a step keeps the law of EveryRunLives if and only if it is not an exit of pid 1 |
| `Exceptions.InitExitOrphans` | kernel/sched/exit.c:15-40 | after an exit of pid 1 every task that belonged to it has a dead father |
| `Lifecycle.ExitWakesFather` | kernel/sched/exit.c:9-73 | a father blocked in waitpid for the exiting child is runnable when the exit is over |
| `Lifecycle.FatherFound` | kernel/sched/exit.c:58-73 | tell_father signals the father of the task that leaves |
| `Lifecycle.AlterStateFeeds` | kernel/sched/sched.c:93-106 | after signals are delivered nobody is blocked on a zombie |
| `Lifecycle.ReapTakes` | kernel/sys.c:53-106 | a waitpid that returns a zombie removes its pid from the table |
| `Lifecycle.GoneForever` | kernel/sched/fork.c:16-28 | a removed pid never comes back |
| `Lifecycle.ReapedAtMostOnce` | kernel/sys.c:53-106 | no two waitpid calls of a run return the same zombie |
| `Kinship.NextKin` | kernel/sched/exit.c:9-73 | each action changes pid, father and zombie state of every task it does not reap exactly as follows: an exit makes its caller a zombie and gives its children to pid 1, nothing else changes any of the three, and only the caller of waitpid enters or leaves it |
| `Kinship.ExitMarkReparents` | kernel/sched/exit.c:15-26 | do_exit gives exactly the children of the caller to pid 1 and changes no other father |
| `Kinship.ExitMarkCaller` | kernel/sched/exit.c:58-73 | the caller is a zombie with its old pid, and its father is the old one, or pid 1 if that was TASK[0] |
| `Kinship.ForkedChild` | kernel/sched/fork.c:43-114 | fork makes a child of the caller with a pid nobody has, no signal, no time used and the priority of the caller as its slice, that can run and is in no waitpid; every other task is as it was |
| `Kinship.ForkedBelongs` | kernel/sched/fork.c:43-114 | in every run in which pid 1 does not exit, a forked task keeps its pid and the task that forked it as its father until one of the two exits or it is reaped |
| `WaitAnswers.WaitAnswered` | kernel/sys.c:53-106 | waitpid returns the pid of a dead child that it was asked for, of several the one in the highest slot, which is the only task to leave the table; -ECHILD exactly if there is no such child; and else nothing yet, with the caller in the call and all such children alive |
| `WaitAnswers.StepAnswered` | kernel/sys.c:91-106 | so does every continuation of a blocked call that does not return -EINTR |
| `WaitAnswers.RemovesReturns` | kernel/sys.c:81-83 | the step that removes a task from the table returns its pid |
| `WaitAnswers.BlockedFatherIsAnswered` | kernel/sys.c:53-106 | in every run in which pid 1 does not exit: if a task is blocked in waitpid when a child it waits for exits, the call returns the pid of a dead child the first time the task resumes, and that very pid if it was asked for |
| `WaitAnswers.ChildOfIdleIsLost` | kernel/sched/exit.c:58-73 | a child of TASK[0] that dies becomes a child of pid 1 |
| `Wakeups.ScheduleWakes` | kernel/sched/sched.c:93-106 | schedule makes a waiting task with a wake-up signal runnable and leaves one without asleep |
| `Wakeups.WakeupWakes` | kernel/sched/sched.c:166-180 | after a wakeup the next schedule makes every sleeping task runnable |
| `Wakeups.SleepSleeps` | kernel/sched/sched.c:159-164 | a task that calls sleep sleeps afterwards if and only if it had no SIG_CHLD pending |
| `Wakeups.OutStep` | kernel/sched/sched.c:93-180 | for a task that waits, each action leaves it asleep, marks it or wakes it, and which |
| `Wakeups.RunIsLawful` | kernel/sched/sched.c:93-180 | so every run obeys these laws of sleeping and waking, for every task |
| `Wakeups.WokenByWakeup` | kernel/sched/sched.c:159-180 | in every run in which pid 1 does not exit, a task other than TASK[0] that goes to sleep sleeps in every state up to the first wakeup, unless it gets SIG_CHLD, and the first schedule after that makes it runnable with no signal left |
| `TimeAccounts.ReapTotal` | kernel/sys.c:78 | reaping moves the time of the zombie to its father |
| `TimeAccounts.NextTotal` | timer/timer.c:37-57 | only a tick changes the sum of the times of all tasks, and adds one |
| `TimeAccounts.TimeIsConserved` | timer/timer.c:37-57 | in every state of every run the times of all tasks, zombies included, add up to the number of ticks so far |
| `SchedFairness.LevelAfterSchedule` | kernel/sched/sched.c:34-60 | schedule lowers the level of the task that was running by one, down to the last level, and of no other; a new or woken task is queued at its own |
| `SchedFairness.QueuesGrowAtBack` | kernel/sched/sched.c:34-60 | set_Queue adds at the back of a queue only |
| `SchedFairness.PlacesKept` | kernel/sched/sched.c:108-133 | schedule takes one task from the front of one queue; nobody else in a queue loses a place |
| `SchedFairness.IdleYields` | timer/timer.c:47-56 | the first tick at which something is runnable ends the idle task |
| `SchedFairness.ScheduleSettles` | kernel/sched/sched.c:108-133 | one call of schedule puts every other runnable task in a queue |
| `SchedFairness.SettledSchedule` | kernel/sched/sched.c:34-60 | from then on current goes to the back of its next queue and the front of the first non-empty one runs |
| `SchedFairness.EachCallDescends` | kernel/sched/sched.c:34-60 | each further call lowers the sum of 4 - order over the runnable tasks by exactly one until it is zero |
| `SchedFairness.RoundIsAllRunnable` | kernel/sched/sched.c:108-133 | on the last level a round lists each runnable task once |
| `SchedFairness.SunkRotates` | kernel/sched/sched.c:108-133 | there each call is a rotation of the round |
| `SchedFairness.FullSliceOnDispatch` | include/sched.h:142 | a dispatched task has a full slice |
| `SchedFairness.SliceCountsDown` | timer/timer.c:47-56 | ticks short of the slice only count down |
| `SchedFairness.PreemptedAfterSlice` | timer/timer.c:47-56 | a task dispatched on level order is left alone for 2 + 6 * order - 1 ticks and preempted by the next one |
| `TimeShare.StretchOfRun` | timer/timer.c:37-57 | consecutive timer ticks of any run are such a stretch of ticks |
| `TimeShare.FirstPreemption` | timer/timer.c:37-57 | the first tick that preempts settles any state with something to run and starts a full slice |
| `TimeShare.TicksDescend` | timer/timer.c:37-57 | after any number of ticks the sum of 4 - order over the runnable tasks is its start value less the number of preemptions, or zero |
| `TimeShare.SunkTakesTurns` | timer/timer.c:37-57 | once it is zero, who holds the processor after c preemptions is the c-th task of the round, modulo its length |
| `TimeShare.OncePerRound` | timer/timer.c:37-57 | and every runnable task is dispatched exactly once in any stretch of n preemptions, n the number of runnable tasks |
| `TimeShare.SharesBegin` | timer/timer.c:37-57 | every stretch gets there: the tick of the last preemption that lowers the sum starts a slice on the last level |
| `TimeShare.SunkTakesSlices` | timer/timer.c:37-57 | from then on the tasks hold the processor in turn for 26 ticks each |
| `TimeShare.EqualShares` | timer/timer.c:37-57 | in every window of n * 26 ticks each of the n runnable tasks holds the processor for exactly 26 |
| `TimeShare.EqualSharesInRun` | timer/timer.c:37-57 | also within any run, wherever only the timer acts |
| `Turns.RotationTakesTurns` | kernel/sched/sched.c:108-133 | a list that rotates at each preemption gives its members turns in order |
| `Turns.OncePerRound` | kernel/sched/sched.c:108-133 | so each member gets one turn in any stretch with as many preemptions as members |
| `Turns.EqualShares` | kernel/sched/sched.c:108-133 | and with even slices each member holds one slice of every window of a round |
| `Scheduler.AppendChains` | kernel/sched/sched.c:41-54 | linking a new node behind a stale or current tail appends to the queue the nodes stand for |
| `Scheduler.PopChains` | kernel/sched/sched.c:117-124 | unlinking the head removes the front of the queue |
| `Scheduler.Kernel404.SetQueue` | kernel/sched/sched.c:23-91 | the loop over TASK with linked nodes computes the described queueing |
| `Scheduler.Kernel404.AlterAll` | kernel/sched/sched.c:93-106 | the signal loop computes the described states |
| `Scheduler.Kernel404.Reschedule` | kernel/sched/sched.c:108-133 | schedule on linked queues computes the described dispatch |
| `Scheduler.Kernel404.Sleep` | kernel/sched/sched.c:159-164 | sleep computes its description |
| `Scheduler.Kernel404.WakeAll` | kernel/sched/sched.c:166-180 | wakeup computes its description, which Wakeups shows to wake every sleeper at the next schedule |
| `Scheduler.Kernel404.DoTimer` | timer/timer.c:37-57 | a tick computes its description |
| `Scheduler.Kernel404.ForkProcess` | kernel/sched/fork.c:43-114 | fork computes its description, or fails when the table is full |
| `Scheduler.Kernel404.DoExit` | kernel/sched/exit.c:9-40 | exit computes its description, or panics for task 0 |
| `Scheduler.Kernel404.OrphanAll` | kernel/sched/exit.c:15-26 | the re-parenting loop computes its description |
| `Scheduler.Kernel404.Tell` | kernel/sched/exit.c:58-73 | tell_father computes its description |
| `Scheduler.Kernel404.Free` | kernel/sched/exit.c:42-56 | release clears the slot and removes the PCB |
| `Scheduler.Kernel404.WaitRound` | kernel/sys.c:53-106 | one round of the waitpid loop computes its description and returns what WaitAnswers.WaitAnswered promises: the pid of a dead child that has left the table, -ECHILD, or nothing with the caller blocked |
| `Scheduler.Kernel404.WaitAgain` | kernel/sys.c:96-104 | the code after the blocked schedule returns computes its description and returns -EINTR if interrupted, else the answer WaitAnswers.StepAnswered promises |
| `VirtioInvariant.EveryRunKeeps` | driver/virtio.c:109-263 | in every interleaving of submitters, device and handler: no descriptor panic, chains in flight disjoint, both rings hold their unread entries across 16-bit wrap, and the transfers are a history of a plain disk |
| `VirtioInvariant.NextKeeps` | driver/virtio.c:168-263 | each step keeps this |
| `VirtioInvariant.ChainsDisjoint` | driver/virtio.c:151-166 | chains of different calls share no descriptor, and none of it is free |
| `VirtioInvariant.FreeIsComplement` | driver/virtio.c:109-149 | a descriptor is free exactly when no call in flight uses it |
| `VirtioInvariant.UnreadFits` | driver/virtio.c:211-215 | the unread part of a ring never exceeds the ring |
| `VirtioInvariant.PushRing` | driver/virtio.c:211-215 | publishing overwrites no unread entry |
| `VirtioInvariant.IdxCompare` | driver/virtio.c:246-259 | comparing wrapped indices is comparing true counts |
| `VirtioInvariant.DeviceReadsTheRequest` | driver/virtio.c:181-215 | the device finds exactly the request its owner made |
| `VirtioInvariant.HandlerFindsBuffer` | driver/virtio.c:249-257 | the handler finds status 0 and the buffer of a waiting call |
| `VirtioInvariant.FreeChainFreesThree` | driver/virtio.c:124-136 | free_chain frees exactly the three descriptors of a chain |
| `VirtioInvariant.TransferDoneOnce` | driver/virtio.c:168-237 | when virtio_disk_rw returns, exactly one transfer on its buffer has been done since its call: its own sector, direction and data |
| `VirtioDriver.VirtDisk.constructor` | driver/virtio.c:69-101 | the queue after initialisation is valid and, with an idle device and no calls, an initial state of the model |
| `VirtioDriver.VirtDisk.AllocDescs` | driver/virtio.c:138-166 | three descriptors, or nothing and no change |
| `VirtioDriver.VirtDisk.Begin` | driver/virtio.c:168-221 | the submission computes its description |
| `VirtioDriver.VirtDisk.FreeChainFrom` | driver/virtio.c:109-136 | the loop of free_chain computes its description |
| `VirtioDriver.VirtDisk.End` | driver/virtio.c:232-236 | giving the chain back computes its description |
| `VirtioDriver.VirtDisk.Acknowledge` | driver/virtio.c:249-259 | one used entry: status 0, buffer found, owner released |
| `VirtioDriver.VirtDisk.Interrupt` | driver/virtio.c:239-263 | the handler takes every completed entry |
| `VirtioDriver.HandleAll` | driver/virtio.c:246-260 | afterwards none is left, and the invariant holds |
| `BufferCache.EveryRunKeeps` | driver/buffer.c:34-108 | in every run that writes back changes in the last slot, cache and disk together agree with a plain disk |
| `BufferCache.ReadsLastReleased` | driver/buffer.c:65-75 | bread hands out the bytes last released for the block |
| `BufferCache.SeenIffWrittenBack` | driver/buffer.c:34-63 | the next reader sees what was released if and only if a change in the last slot was written back |
| `BufferCache.UnwrittenChangeLost` | driver/buffer.c:40-63 | a concrete run in which it was not |
| `BufferCache.LookupUnique` | driver/buffer.c:40-48 | the lookup finds the one bound slot of a block |
| `BufferCache.HitKeeps` | driver/buffer.c:40-48 | a hit gives the bytes last released |
| `BufferCache.MissKeeps` | driver/buffer.c:50-75 | so does a miss, read from disk |
| `BufferCache.EveryRunSound` | driver/buffer.c:34-108 | in every run, whatever callers write back, at most one slot that the lookup examines holds a block, and a held block is held through the slot the lookup finds |
| `BufferCache.ReleaseWrites` | driver/buffer.c:82-108 | a release puts the bytes of the buffer on the disk if it was marked by bwrite, else leaves the disk as it is; no other block changes; afterwards the disk has the bytes released if and only if the buffer was marked or had not been changed |
| `BufferCache.WrittenReachesDisk` | driver/buffer.c:77-108 | bwrite and brelse together put the bytes of the buffer on the disk and change no other block |
| `BufferCache.ReleasedIsOnDisk` | driver/buffer.c:77-108 | in every run, a block written by bwrite and then released is on the disk with the bytes released until it is released again |
| `BufferCache.BlockCache.constructor` | driver/buffer.c:10-32 | the cache after initialisation is valid and an initial state of the model |
| `BufferCache.BlockCache.Bget` | driver/buffer.c:34-63 | the two loops of bget compute the described slot |
| `BufferCache.BlockCache.Bread` | driver/buffer.c:65-75 | bread computes its description |
| `BufferCache.BlockCache.Bwrite` | driver/buffer.c:77-80 | bwrite computes its description |
| `BufferCache.BlockCache.Brelse` | driver/buffer.c:82-108 | brelse computes its description; ReleaseWrites and ReleasedIsOnDisk say what it leaves on the disk |
| `PageMap.BlockEnds` | mm/page.c:161-183 | every taken page is in a block that ends in a LAST page |
| `PageMap.MarkedKeeps` | mm/page.c:116-155 | an allocation turns free pages into one block and keeps the map well formed |
| `PageMap.ClearedKeeps` | mm/page.c:161-183 | so does clearing a block |
| `PageMap.OtherBlocksSurvive` | mm/page.c:161-183 | a free leaves all other blocks as they were |
| `PageMap.AllocThenFree` | mm/page.c:116-183 | allocating and freeing restores the map |
| `PageMap.PoolInsideHeapIff` | mm/page.c:85-110 | the pool stays inside the heap exactly when the odd bytes of the heap cover what alignment skips |
| `PageMap.PoolPassesHeap` | 404OS.ld:43-44 | with the heap size of the linker script it passes the heap from every start off a page boundary |
| `PageMap.PoolMayPassHeap` | mm/page.c:92-96 | a start in RAM where it does |
| `PageMap.AlignPage` | mm/page.c:79-83 | the least page boundary not below the address |
| `PageMap.Pages.FreeRun` | mm/page.c:128-135 | the inner loop decides whether a run fits |
| `PageMap.Pages.Alloc` | mm/page.c:116-155 | page_alloc takes the lowest fitting run, and returns NULL only if there is none |
| `PageMap.Pages.Free` | mm/page.c:161-183 | page_free of a block start clears exactly that block |
| `MallocModel.Bucket` | mm/malloc.c:63-65 | the least bucket that is large enough |
| `MallocModel.PageIsCut` | mm/malloc.c:4-16 | each bucket size divides a page into its number of objects |
| `MallocInvariant.LiveObjectsDisjoint` | mm/malloc.c:51-181 | live objects never overlap |
| `MallocInvariant.MaskFindsOwner` | mm/malloc.c:137 | masking the address of a live object gives the page of its own descriptor and of no other |
| `MallocInvariant.TakeObjects` | mm/malloc.c:119-121 | handing out keeps count plus free list equal to the objects of the page, with no duplicate link |
| `MallocInvariant.ReturnObjects` | mm/malloc.c:157-159 | so does threading an object back |
| `MallocInvariant.PushObjects` | mm/malloc.c:103-111 | a page cut up is one free list in address order |
| `MallocInvariant.TakeKeeps` | mm/malloc.c:119-121 | handing out an object keeps the whole structure |
| `MallocInvariant.ReturnKeeps` | mm/malloc.c:157-159 | so does taking it back |
| `MallocInvariant.InitKeeps` | mm/malloc.c:28-47 | so does a new page of descriptors |
| `MallocInvariant.PushKeeps` | mm/malloc.c:87-113 | so does a new page of objects |
| `MallocInvariant.DropKeeps` | mm/malloc.c:161-179 | so does dropping an emptied descriptor, lost neighbours included |
| `MallocInvariant.UnlinkedLinked` | mm/malloc.c:162-174 | after the unlink code the list runs from the head to what followed the emptied descriptor |
| `MallocRuns.EveryRunKeeps` | mm/malloc.c:51-181 | in every run of allocations, frees and writes by owners: structure intact, live objects in pages of their own descriptor, no page without a live object |
| `MallocRuns.MallocLives` | mm/malloc.c:119-121 | a call adds exactly its object to the live ones |
| `MallocRuns.MallocGivesRoom` | mm/malloc.c:51-123 | the object has room for the request and shares no byte with a live one |
| `MallocRuns.WriteKeeps` | mm/malloc.c:103-111 | whatever owners write into their objects, the free lists stay intact |
| `MallocRuns.FoundIsOwner` | mm/malloc.c:141-151 | the search of a free stops only at the owner |
| `MallocRuns.FreeFindsIff` | mm/malloc.c:141-152 | it finds the owner if and only if that is still in its list and the size passed is not too large |
| `MallocRuns.FreeLives` | mm/malloc.c:129-181 | a free ends the life of that one object |
| `MallocRuns.FreeKeeps` | mm/malloc.c:129-181 | a free keeps the invariant |
| `MallocRuns.UnlinkedExactIff` | mm/malloc.c:162-174 | exactly the emptied descriptor is removed if and only if it is first or second |
| `MallocRuns.StepLoses` | mm/malloc.c:162-174 | a step loses a descriptor if and only if it empties one that is third or later; lost ones stay lost |
| `MallocRuns.AllFreeableIff` | mm/malloc.c:129-181 | in any run, every live object can be freed if and only if no free so far emptied a third or later descriptor |
| `MallocRuns.ThirdFreed` | mm/malloc.c:162-174 | freeing the last object of a third descriptor leaves objects that cannot be freed |
| `MallocRuns.FreeInOrderLosesAPage` | mm/malloc.c:51-181 | a concrete run: three whole pages allocated, the first one freed |
| `HeapPages.TookIsNew` | mm/page.c:116-155 | the page that page_alloc(1) gives is new to the buckets and becomes a block of its own |
| `HeapPages.TakenBacked` | mm/malloc.c:84-101 | so the pages a call of _malloc_ asks for, none, one or two, are fresh as MallocRuns takes them to be |
| `HeapPages.HeldGoesBack` | mm/malloc.c:161-179 | a page the buckets give back is the first page of a block, as page_free needs |
| `HeapPages.MallocHolds` | mm/malloc.c:51-123 | a call holds exactly the pages it asked for in addition |
| `HeapPages.FreeHolds` | mm/malloc.c:129-181 | a free gives up exactly the page of a descriptor whose last object it was |
| `HeapPages.EveryRunBacked` | mm/malloc.c:51-181 | in every run of both allocators beside any other use of pages, every page of the buckets is a block of its own and the bucket invariant holds |
| `Allocator.FindBucket` | mm/malloc.c:63-65 | the bucket loop |
| `Allocator.Buckets.FindFree` | mm/malloc.c:74-76 | the walk for a descriptor with a free object |
| `Allocator.Buckets.InitBlockDesc` | mm/malloc.c:28-47 | the linking loop makes the described page of descriptors |
| `Allocator.Buckets.CutPage` | mm/malloc.c:103-111 | the threading loop makes the described free list |
| `Allocator.Buckets.NewPage` | mm/malloc.c:87-113 | a new page in front of the bucket |
| `Allocator.Buckets.Malloc` | mm/malloc.c:51-123 | _malloc_ computes its description, or panics for a request above a page |
| `Allocator.Buckets.Find` | mm/malloc.c:141-152 | the nested search finds a match or proves there is none |
| `Allocator.Buckets.Bypass` | mm/malloc.c:162-174 | what the unlink code does to links and list head |
| `Allocator.PrevIsNoPage` | mm/malloc.c:162 | the test on prev can never confirm it |
| `Allocator.Buckets.Free` | mm/malloc.c:129-181 | _free_ of a live object computes its description, or panics exactly where the owner cannot be found |
| `FatLayout.EntriesApart` | include/fs/fat32_disk.h:137-145 | different FAT entries are in different sectors or four bytes apart |
| `FatLayout.EntryInFat` | include/fs/fat32_disk.h:137-141 | every cluster's entry is in the first FAT |
| `FatLayout.ClustersDisjoint` | include/fs/fat32_disk.h:114-118 | clusters share no sector |
| `FatLayout.ClusterInData` | include/fs/fat32_disk.h:114-131 | the sectors of clusters 2 to FAT_CLUSTER_MAX are in the data region |
| `FatLayout.InumRoundTrip` | include/fs/fat32_disk.h:235-240 | decoding undoes numbering of directory slots |
| `FatLayout.InumOnto` | include/fs/fat32_disk.h:235-240 | every number from 1 on is the number of one slot |
| `FatBytes.SetEntryFrame` | include/fs/fat32_disk.h:148-161 | the masked write sets the low 28 bits of one entry, keeps its top 4 bits and all other entries |
| `FatBytes.SetEntryBytes` | include/fs/fat32_disk.h:154-161 | and no byte outside the word |
| `FatBytes.SetEntryTable` | fs/fat32_inode.c:315-324 | on the table of entries fat_set is an update of one number |
| `FatBytes.StoredIs` | include/fs/fat32_disk.h:148-172 | a cluster number reads back as itself, EOC as an end of chain |
| `FatBytes.FatSectors.NextCluster` | fs/fat32_inode.c:212-224 | next_cluster reads the table |
| `FatBytes.FatSectors.FatSet` | fs/fat32_inode.c:315-324 | fat_set updates the table and touches no data sector |
| `FatFile.ChainUnique` | fs/fat32_inode.c:187-209 | a start cluster has one chain |
| `FatFile.ChainAcyclic` | fs/fat32_inode.c:187-209 | a chain has no cluster twice |
| `FatFile.Inode.Travel` | fs/fat32_inode.c:187-209 | the k-th cluster for k up to the length, the last beyond it, and for 0 the length with cluster_end set; and which successors are looked up |
| `FatFile.Locate` | include/fs/fat32_disk.h:245-250 | cluster, sector and offset macros invert the position of a byte |
| `FatFile.VisitPiece` | fs/fat32_inode.c:396-407 | one turn of the sector loop visits the next piece of the range |
| `FatFile.VisitOn` | fs/fat32_inode.c:408-412 | if bytes are missing after a whole cluster there is a next one |
| `FatFile.PiecesOfLonger` | fs/fat32_inode.c:396-407 | a range has the same pieces in a chain and in any chain that extends it, so a later read visits what a write visited |
| `FatRead.Read` | fs/fat32_inode.c:368-418 | read returns exactly bytes off to min(off + n, size) of the file, from exactly the pieces of that range; it looks up the successors of the clusters before the last one it needs, and that of the final cluster if and only if off is the end of that cluster |
| `FatRead.LastAskedIff` | fs/fat32_inode.c:384-413 | exactly a read at the end of the last cluster asks for its successor |
| `FatRead.EndOfFileAsksPastLast` | fs/fat32_inode.c:384-386 | a file of one full cluster, read at its end |
| `FatRead.Clip` | fs/fat32_inode.c:377-380 | the checks, with 32-bit wrap-around |
| `FatRead.ReadChain` | fs/fat32_inode.c:393-413 | the loop over clusters |
| `FatRead.ReadCluster` | fs/fat32_inode.c:396-407 | the loop over sectors |
| `FatRead.RangeIsSlice` | fs/fat32_inode.c:368-418 | such a range is a slice of the clusters put together in chain order |
| `FatVolume.AllocTakesNext` | fs/fat32_inode.c:227-247 | on an untouched frontier an allocation takes the next cluster if and only if there is room |
| `FatVolume.AllocMeans` | fs/fat32_inode.c:227-312 | an allocation lowers the count by one, returns the next cluster with its first byte cleared, marks one entry and goes on behind it; if it searches, that entry is three behind the first free one |
| `FatVolume.AllocRightIff` | fs/fat32_inode.c:227-312 | the cluster returned was free, is marked and nothing else is, if and only if the next cluster is free in the FAT and is taken at once or is the one the search comes to |
| `FatVolume.SearchCutsAChain` | fs/fat32_inode.c:283-312 | a volume where the search cuts a file and the cluster returned is not marked |
| `FatVolume.ExtendKeeps` | fs/fat32_inode.c:441-490 | k allocations lengthen the chain by the next k clusters, keep the frontier and all entries elsewhere |
| `FatVolume.CountCovers` | fs/fat32_inode.c:491-496 | the new size and the bytes written fit the clusters counted |
| `FatVolume.CountIsLeast` | fs/fat32_inode.c:441-490 | and with fewer clusters, if any are new, the last byte would be outside |
| `FatVolume.SizeIsNew` | fs/fat32_inode.c:491-496 | the size after a write is the larger of the old one and the end of the write, for a directory that grows in whole clusters with less than one to spare |
| `FatVolume.CutEnds` | fs/fat32_inode.c:734-738 | a truncation makes every cluster of the chain an end of chain, changes no other entry and makes no entry free |
| `FatVolume.WriteKeeps` | fs/fat32_inode.c:422-502 | a write keeps chains disjoint and acyclic, counts right, sizes covered and the frontier untouched |
| `FatVolume.TruncateKeeps` | fs/fat32_inode.c:727-749 | so does a truncation |
| `FatVolume.CreateKeeps` | fs/fat32_inode.c:1157-1159 | so does the first cluster of a new file |
| `FatVolume.StepKeeps` | fs/fat32_inode.c:227-280 | every step keeps this and lowers free_count by the clusters it hands out |
| `FatVolume.EveryRunKeeps` | fs/fat32_inode.c:227-280 | every run does |
| `FatWrite.FileSystem.ClusterAlloc` | fs/fat32_inode.c:227-280 | cluster_alloc computes its description, on both paths, or panics |
| `FatWrite.FileSystem.FatAlloc` | fs/fat32_inode.c:283-312 | the loops that search the FAT compute their description |
| `FatWrite.FileSystem.CutChain` | fs/fat32_inode.c:734-738 | the loop of trunc marks exactly the clusters of the chain, each an end of chain afterwards |
| `FatWrite.FileSystem.Advance` | fs/fat32_inode.c:480-489 | on to the next cluster, appended if the chain ends |
| `FatWrite.FileSystem.WriteChain` | fs/fat32_inode.c:460-490 | the loop over clusters visits the pieces of the range |
| `FatWrite.FileSystem.Write` | fs/fat32_inode.c:422-502 | a write is rejected, changing nothing, if and only if it starts behind the file, wraps 32 bits or passes the data region; else it visits exactly the pieces a later read of the range visits, updates chain and counts as described, and leaves the size that SizeIsNew characterises |
| `FatReuse.WrittenIsReadable` | fs/fat32_inode.c:422-502 | after an accepted write the range is within the size, the size has not shrunk, and every range that was readable is readable from the pieces it had |
| `FatReuse.WriteThenRead` | fs/fat32_inode.c:368-502 | a write and then a read of its range: the read returns all n bytes, from exactly the pieces the write visited |
| `FatDir.InsertOffset` | fs/fat32_inode.c:1277-1314 | the least index of a run of free slots, slots past the end counting as free, for any number of sectors and clusters |
| `FatDir.ScanSector` | fs/fat32_inode.c:1294-1308 | the loop over the slots of a sector |
| `FatDir.ScanTaken` | fs/fat32_inode.c:1295-1297 | a taken slot ends all runs so far |
| `FatDir.LeastIsInside` | fs/fat32_inode.c:1277-1314 | new entries start at or before the end, so writing them is accepted |
| `FatDir.EntryInOneSector` | fs/fat32_inode.c:1057-1059 | an entry lies in one sector |
| `FatDir.NewInum` | fs/fat32_inode.c:1051-1060 | the inode number given to a new file decodes to the sector and place of its short entry |
| `FatEntries.DeleteCoversAllocIff` | fs/fat32_inode.c:1400-1417 | delete covers exactly the slots that the entries of fat32_fcb_init took, if and only if these do not start at slot 0, the name starts with no dot and the table entry held no name longer by an entry |
| `FatEntries.DeleteVisitsSameIff` | fs/fat32_inode.c:1400-1417 | on the disk it then visits exactly the pieces that creating visited, and only then, also in a directory that has grown |
| `FatEntries.DeleteAtSlotZeroFails` | fs/fat32_inode.c:1404-1410 | a file in the first slots cannot be deleted |
| `FatEntries.DotNameTakesNeighbour` | fs/fat32_inode.c:1094-1101 | deleting .x overwrites the slot before it |
| `FatEntries.OldNameTakesNeighbour` | fs/fat32_inode.c:544 | so does deleting a short name in a table entry that held a long one |
| `FatEntries.AddEntries` | fs/fat32_inode.c:1042-1067 | creating writes the long entries and the short one into the least run of free slots that holds them, visits the pieces of that range, and returns the slot of the short entry |
| `FatEntries.RemoveEntries` | fs/fat32_inode.c:1400-1417 | deleting visits the described pieces, and changes no chain, count or size, or fails an assertion |
| `LongName.ChkSum` | fs/fat32_inode.c:843-849 | the checksum loop computes the rotate-and-add fold |
| `LongName.ChkStepRotates` | fs/fat32_inode.c:843-849 | each step of it rotates by one bit to the right, bit by bit, and adds the character |
| `LongName.ChkSumOfReadme` | fs/fat32_inode.c:843-849 | the checksum of README.TXT is 0x73 |
| `LongName.Stack.Push` | fs/fat32_stack.c:28-33 | push appends, given room |
| `LongName.Stack.Pop` | fs/fat32_stack.c:36-41 | pop removes what was pushed last |
| `LongName.FillWords` | fs/fat32_inode.c:1185-1203 | the three character loops fill one entry |
| `LongName.FcbInit` | fs/fat32_inode.c:1092-1228 | the entries of a name in disk order, last part first |
| `LongName.FourteenCharacters` | fs/fat32_inode.c:1092-1228 | the two entries of any name of 14 characters, field by field: order numbers, checksum, characters, end mark and filler |
| `LongName.FilterLongName` | fs/fat32_inode.c:789-807 | the characters of an entry up to the end mark |
| `LongName.PopStack` | fs/fat32_inode.c:809-840 | popping computes the decoding, malformed stacks included |
| `LongName.RoundTrip` | fs/fat32_inode.c:789-849 | the entries written for a name, pushed as read, decode to the name with long_valid set |
| `LongName.NameFits` | include/fs/fat32_stack.h:5 | names of up to 254 characters never overflow the stack; their bytes fit the name buffer exactly up to 253 |
| `LongName.LongestNameNeedsMore` | fs/fat32_inode.c:833-837 | a name of 254 characters takes 256 |
| `InodeTable.DupUniqueIff` | fs/fat32_inode.c:504-510 | one more reference keeps entries unique if and only if there was one already or no other entry has the inode |
| `InodeTable.GotMeans` | fs/fat32_inode.c:513-548 | getting an inode changes one entry, which stands for it: the one that did already, with one reference more, or an unused one with one reference and contents still to be read |
| `InodeTable.GotUnique` | fs/fat32_inode.c:513-548 | getting an inode keeps entries unique |
| `InodeTable.PutUnique` | fs/fat32_inode.c:702-718 | so does giving one back |
| `Namex.Skepelem` | fs/ops.c:163-208 | the next element of a path and the rest |
| `Namex.NamedStep` | fs/ops.c:231-260 | what a path names, one element at a time |
| `Namex.GotHolds` | fs/ops.c:251-259 | taking the next inode before giving back the last one moves the single reference |
| `Namex.Inodes.Get` | fs/fat32_inode.c:513-548 | the table loop finds the entry, or the first unused one |
| `Namex.Inodes.PutSlot` | fs/fat32_inode.c:702-718 | put lowers the count, and frees data exactly for the last reference to a valid entry without links |
| `Namex.Inodes.Enter` | fs/ops.c:233-259 | one turn of the lookup loop |
| `Namex.Inodes.Lookup` | fs/ops.c:210-278 | lookup on the table computes its description, of which LookupMeets states where a path starts and what it finds, from any working directory and table |
| `Namex.LookupMeets` | fs/ops.c:210-278 | for every path, tree, name matching and table, a path that begins with a slash is followed from the root, one that begins with a dot from the parent of the working directory, and any other from the working directory; the lookup ends at the inode the elements name from there and leaves every reference count as it was but one more on the result; from a start that is referenced, or has links and no twin, it keeps entries unique and frees nothing |
| `Namex.WalkedKeeps` | fs/ops.c:231-268 | the loop takes one reference, on its result, and no other |
| `Namex.WalkedNames` | fs/ops.c:231-268 | its result stands for what the elements name |
| `Namex.NoElementsUniqueIff` | fs/ops.c:221-224 | a path such as .. keeps entries unique if and only if its start was referenced or had no twin |
| `Namex.ParentDuplicates` | fs/fat32_inode.c:919-922 | from the table at boot four calls lead to a table without duplicates where looking up .. makes one, through a parent link that outlived its reference |
| `StringLib.HasZeroIff` | user/lib/string.c:4-8 | HASZERO is non-zero exactly when some byte is zero |
| `StringLib.HasIff` | user/lib/string.c:89-90 | after flipping with a spread byte, exactly when that byte occurs |
| `StringLib.StrLen` | user/lib/string.c:63-77 | the distance to the first zero, for every alignment |
| `StringLib.MemChr` | user/lib/string.c:79-97 | the first place of the byte, or nothing |
| `StringLib.StrnLen` | user/lib/string.c:99-103 | the distance to the first zero within n |
| `StringLib.StrNCpy` | user/lib/string.c:127-150 | the string up to its zero, then zeros up to n; nothing else changes |
| `Slip.TwoReplacements` | user/src/oscomp/ktool.py:761-765 | the two replacements escape every byte once |
| `Slip.SlipReader` | user/src/oscomp/ktool.py:440-473 | the reader's loops compute the byte-wise state machine on the joined chunks |
| `Slip.RoundTrip` | user/src/oscomp/ktool.py:440-473 | for every list of packets and every split into chunks the reader yields exactly the packets |
| `Slip.RecvOneReturn` | user/src/oscomp/ktool.py:770-804 | the other reader's loops compute its description |
| `Slip.ReadersAgree` | user/src/oscomp/ktool.py:770-804 | on every stream the first reader accepts, the second yields the same packets one by one |

## Left out

- Assembly, CSRs, trap dispatch, UART, PLIC, page tables, ELF loading, signals other than the three bits the scheduler sets: foreign machine state or thin code.
- A second hart, and the retry in virtio_disk_rw that does not retake its lock: a failed allocation of descriptors is modelled as trying again later.
- Contexts, open files, exit codes, timers other than the tick, and the 32-bit wrap of pids and of accumulated times.
- SchedInvariant.IdleOnlyWhenNothingRunnable: says nothing about TASK[0] itself being blocked, which the source does not prevent.
- Lifecycle.EveryRunLives: is about runs in which pid 1 does not exit; Exceptions.LifeKeptIff shows that the condition is exact.
- WaitAnswers.BlockedFatherIsAnswered: is about tasks other than TASK[0], whose dead children go to pid 1.
- Wakeups.WokenByWakeup: is about tasks other than TASK[0], which wakeup and the signal loop pass over.
- Virtio device set-up and device errors: the device is a conforming one that returns status 0; one request per buffer is in flight at a time.
- BufferCache.ReadsLastReleased: is about one non-zero device number, because the driver ignores the number, and about runs that do not hit the panic for want of a buffer.
- The links of the cache's LRU list, which are never changed after start-up, and bpin and bunpin.
- PageMap.Pages.Alloc: asks for 1 to all pages, since other counts make the loop bounds of the source wrap; page contents are not modelled.
- PageMap.Pages.Free: is called with the first page of a block, as every caller in the kernel does.
- Allocator.Buckets.Malloc: takes the pages its calls of page_alloc return as arguments; HeapPages shows that these are fresh. A page allocator that returns NULL makes it panic.
- Allocator.Buckets.Free: takes a live object; the source does not detect a second free.
- Allocator.Buckets.InitBlockDesc: gives new descriptors zero in the fields the source leaves as they are in the page, which are set before they are read.
- FatWrite.FileSystem.ClusterAlloc: works on 28-bit entries, whereas the search of the source compares whole words, so that an entry with one of its top 4 bits set does not count as free there.
- FatEntries.AddEntries: the first cluster of the new file, which is FatVolume's Create, and the bytes of the entries beyond the long ones.
- FatEntries.RemoveEntries: the name kept is bounded by the name buffer of the inode.
- FatWrite.FileSystem.Write: copies no bytes, as in the source, where the copy is commented out; its FAT is the table that FatBytes shows the FAT sectors to hold, and it runs on a volume with an untouched frontier and room, where alone the allocator is right.
- FatReuse.WriteThenRead: asks that the new size fits 32 bits, which a directory near that size would pass when rounded to whole clusters.
- FatVolume.EveryRunKeeps: the fsinfo sectors, of which only the counters are kept, and the second FAT, which the source never writes.
- FatRead.Read: the chain of the file is given, since on a cyclic FAT the source does not end; the number of bytes of the data region is taken as a parameter in writes.
- The short name of a file and its numbering, directory listing, inode contents other than chain and size, and the result of comparing names, which looks at one character only.
- LongName.FcbInit: takes the short name as given and produces the long entries only.
- Namex.Inodes.Lookup: elements as long as the name buffer are not modelled; a full table ends the lookup, as the kernel panics; what freeing the data of an unlinked start does to the tree is not modelled.
- Namex.LookupMeets: promises uniqueness and no freeing only from a start that is referenced, or has links and no twin, since the source does not have them otherwise.
- find_inode, which swaps the working directory and loses it on failure.
- strcpy, atoi and the comparisons of the user library: easy beside the routines modelled.
- The serial port, flashing and AES parts of the flashing tool, and its time-outs, which end a read.

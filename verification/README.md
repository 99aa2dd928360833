# QueenOS kernel: a Dafny model of its core

QueenOS is a small AArch64 kernel written in Rust. This project models the parts of it
whose correctness spans many operations, and proves what those parts are for.

**Address spaces.** `Paging` and `Areas` give pages, entries, the four backing policies and the
sorted area vector. `Handlers`, `AreaLoops`, `ForkLoops` and `MemorySets` are the code that updates
a page table, a frame heap and an area vector in place: `map`, `unmap`, `clone_map`, page faults,
`push`, `pop`, `pop_with_split`, `clear` and `clone`. Each method is proved against a relation of
`AddressSpaces`. `DemandPaging` runs any number of spaces on one allocator and proves that areas,
tables and frames agree in every reachable state. `FlatMemory` proves that every run is a run of a
memory without frames and faults; fork being faithful and separate follows. `UserMemory` has the
user-pointer tests and the free-area search.

**Scheduler.** `FairShare` has the fixed-point weight arithmetic with its error bounds and the
slices of a period. `VirtualTime` describes a run queue once over integers and once over wrapping
words and proves that the two agree while live values span less than 2^63. `Fairness` puts the two
together: over any run, CPU time follows the weights. `Preemption` has the choice of the next task and
the lag between two runnable ones. `RunQueues` is the queue code and work stealing
in place; `Scheduler` is the machine of all CPUs, with waking and completion as several steps under
the entity's lock.

**Process start.** `RawMemory` and `InitStack` write the initial user stack downwards and read it
upwards the way the C library does (section 3.4.1 of the System V ABI AMD64 supplement has the same
shape).

**Signals, events, waiting, timers.** `Sigsets` has the 64-bit signal set, `SignalQueue` the runs of
sends and deliveries, `SignalFrames` the frame as bytes and as a handler reads it, `SignalDelivery` the
delivery loop. `EventBus` has events and callbacks,
`WaitExit` a waiting parent among exiting processes, `WaitRuns` runs in which waiting falls short, and
`Timers` the kernel timer.

**Working directory.** `WorkDir` has the path folding of `sys_chdir` and `split_path`.

Conventions. Integers are unbounded; where the release build wraps, `Usize` and `Isize` say so. A
Rust panic that a caller can provoke is an outcome of the method; one that callers must avoid is a
`requires`. A lock-held region is one atomic step. Time, frame choice, the file's bytes and whether
a user address is writable are parameters.

Where code and comments part, the model follows the code:

- `pop_with_split` breaks the set when an end of the range falls inside a mapped page
  (`Areas.UnalignedCut`); `PopWithSplit` states the exact condition. Nothing in the repository
  calls `pop_with_split` or `find_free_area`.
- A heavier entity can age faster once the lighter one's virtual time no longer fits 64 bits
  (`FairShare.HeavierFasterWhenCut`); `HeavierNeverFasterIff` draws the line.
- An array whose size in bytes wraps can be accepted though it is not mapped
  (`UserMemory.WrappedArray`); `TestsExactlyIff` says when the tests are exact.
- `sys_wait4` for one pid looks the pid up among all processes, takes down the flag for other
  children, and returns and forgets by pid, so that an exited child whose pid was given out again is
  missed and a live child is forgotten when an earlier owner of its pid is returned; `WaitRuns` has the
  runs, and `FlagPromisedIff`, `ReturnsNonChildIff`, `FindableIff` and `NoneLostIff` the exact
  conditions. Pids are given out again because `exit` frees the thread numbers while the process stays
  in the table.
- `pop_task_to_run` compares the time a task has ever run with one slice, so once that is used up each
  choice sends the current task away and takes the earliest of the others. Two runnable tasks can drift
  apart without bound (`Preemption.LagGrows`); `ChoiceIsFairIff` says when a choice is fair, and
  `LagIsBounded` what fair choices give.
- A signal frame saves x13 in place of x11 (`SignalDelivery.SavedExactlyIff`).
- A second handler entered by the same call on the alternate stack overwrites the frame of the first
  (`SignalDelivery.SavedStateLost`); `OverwritesIff` says when.
- The pending bit of a real-time signal can be clear while the signal is queued
  (`SignalQueue.RealtimeBitLost`); `PendingIsLastSent` says what the bit means.
- `split_path` of a path made of slashes only gives `.` and an empty name.
- The lock test during a steal keeps a tid on one queue even if wakes came at any time
  (`Scheduler.TryLockIsNeeded`), but under the contract of the futures library, one live runnable per
  future, it decides nothing (`Scheduler.TryLockIsRedundant`). The invariant of `RunKeepsInv` uses of
  that contract only that a future whose completion has begun is not scheduled again.

## Model

| member | source | states |
|---|---|---|
| `Paging.PageSpan` | kernel/src/memory/paging.rs:157-198 | the pages visited by `Page::range_of` are exactly those that share a byte with the range |
| `Paging.FaultPageIsFileByte` | kernel/src/memory/handler/file.rs:62-92 | byte k of a demand-loaded page is the file byte at `address - mem_start + file_start` when that is below `file_end` and in the file, else 0, wherever the area was split |
| `Paging.LoadsExactlyIff` | kernel/src/memory/handler/file.rs:80-92 | whatever the file holds, all bytes of the page come out right if and only if the file's end is less than 2^63 away from the page, since the source subtracts as signed words |
| `Areas.OverlapsIff` | kernel/src/memory/memory_set.rs:49-55 | for an aligned area, sharing a page is sharing an address |
| `Areas.FindAreaIsBacking` | kernel/src/memory/memory_set.rs:403-409 | searching the vector for an address gives the area that backs its page, or none exactly when no area does |
| `Areas.FreeIsUnbacked` | kernel/src/memory/memory_set.rs:207-212 | a range is free exactly when none of its pages is backed |
| `Areas.InsertKeepsOrder` | kernel/src/memory/memory_set.rs:215-250 | inserting a free area at its place keeps the vector sorted, aligned and disjoint |
| `Areas.InsertAddsPages` | kernel/src/memory/memory_set.rs:215-250 | inserting adds exactly the pages of the new area and changes what backs no other page |
| `Areas.RemoveDropsPages` | kernel/src/memory/memory_set.rs:253-265 | removing one area takes away exactly its pages |
| `Areas.CutAllWellFormedIff` | kernel/src/memory/memory_set.rs:267-350 | cutting a range out of every area keeps the vector sorted, aligned, non-empty and disjoint if and only if neither end falls inside a mapped page; then exactly the pages of the range are gone and every other page keeps attribute and handler |
| `Areas.UnalignedCut` | kernel/src/memory/memory_set.rs:267-350 | a concrete unaligned cut leaves an area that claims a page whose mapping is gone |
| `UserMemory.FullSumMeansAccessible` | kernel/src/memory/memory_set.rs:26-46 | the per-area overlaps never exceed the range and add up to it exactly when every byte is in some (writable) area |
| `UserMemory.CheckArray` | kernel/src/memory/memory_set.rs:161-191 | although the loop stops at the first equal sum and size and end wrap, an array is accepted exactly when all bytes of its wrapped size are accessible; a size of 0 exactly when there is any area; an end that wraps is refused |
| `UserMemory.TestsExactlyIff` | kernel/src/memory/memory_set.rs:161-191 | for every set and address a non-empty array is accepted exactly when it is accessible, if and only if its true size fits 64 bits or what is left of it exceeds any set; byte arrays always fit |
| `UserMemory.WrappedArray` | kernel/src/memory/memory_set.rs:161-175 | 2^60 elements of 16 bytes wrap to size 0 and are accepted by any set with an area |
| `UserMemory.FindFreeAreaSucceeds` | kernel/src/memory/memory_set.rs:194-212 | the search always answers; the answer is page-aligned and free, is the rounded-up hint whenever that is free, and does not overflow when no candidate does; pushing there passes the overlap assertion and keeps the order |
| `UserMemory.FreeIsPushable` | kernel/src/memory/memory_set.rs:215-250 | a free aligned address stays free when the end is rounded up to a page, so a push there cannot fail on overlap |
| `Handlers.FrameHeap.Alloc` | kernel/src/memory/mod.rs:57-62 | some free frame becomes allocated; fails exactly when none is free; no contents change |
| `Handlers.FrameHeap.Dealloc` | kernel/src/memory/mod.rs:57-62 | an allocated frame becomes free again; freeing a free frame is excluded |
| `Handlers.FrameHeap.ClearFrom` | kernel/src/memory/handler/delay.rs:52-70 | the byte loop zeroes the rest of one frame and nothing else |
| `Handlers.PageTable.Map` | kernel/src/memory/paging.rs:6-12 | a new entry for an unmapped page; the other entries stay |
| `Handlers.PageTable.Unmap` | kernel/src/memory/paging.rs:6-12 | drops one present entry; the other entries stay |
| `Handlers.MapPage` | kernel/src/memory/handler/mod.rs:18-23 | each of the four policies leaves the entry its policy stands for, with the area's user, write, execute and device bits and present unless it is lazy; only the eager one takes a frame, and only it can fail, with nothing changed |
| `Handlers.UnmapPage` | kernel/src/memory/handler/mod.rs:23-24 | the entry goes; the frame of an eager or faulted-in page is freed, a linear or absent page frees none |
| `Handlers.ClonePage` | kernel/src/memory/handler/mod.rs:25-33 | a page that holds data gets a fresh frame with a copy; a present read-only file page and an absent page are mapped afresh and take no frame; the entry has the area's bits; failure changes nothing |
| `Handlers.CopyEagerly` | kernel/src/memory/handler/byframe.rs:25-35 | a fresh frame holds the bytes of the source frame, all other frames keep theirs |
| `Handlers.FaultIn` | kernel/src/memory/handler/delay.rs:52-70 | refused exactly unless the policy is lazy and the page absent; otherwise one frame is taken, filled with the bytes the page stood for, and only this entry changes |
| `Handlers.FillData` | kernel/src/memory/handler/file.rs:80-92 | the frame ends up with the file's bytes for the page and zeros after them |
| `AreaLoops.MapArea` | kernel/src/memory/memory_set.rs:58-63 | mapping an area page by page creates exactly its entries on distinct free frames; it succeeds exactly when the eager policy finds one frame per page |
| `AreaLoops.UnmapPages` | kernel/src/memory/memory_set.rs:65-69 | unmapping a range page by page removes exactly its entries and frees exactly the frames they owned |
| `ForkLoops.CloneArea` | kernel/src/memory/memory_set.rs:411-432 | cloning an area page by page extends the copy by exactly its pages, each with a fresh frame where data was copied |
| `MemorySets.MemorySet.Push` | kernel/src/memory/memory_set.rs:215-250 | ignored exactly for an empty range, refused exactly on overlap, out of frames exactly when an eager area needs more than are free; otherwise the set gains exactly that area and stays valid |
| `MemorySets.MemorySet.Pop` | kernel/src/memory/memory_set.rs:253-265 | finds the area with these bounds if and only if there is one, and removes its pages and frames; otherwise nothing changes |
| `MemorySets.MemorySet.CutAt` | kernel/src/memory/memory_set.rs:273-347 | each of the four cut cases replaces the area by the pieces outside the range and steps the (wrapping) index past them |
| `MemorySets.MemorySet.PopWithSplit` | kernel/src/memory/memory_set.rs:267-350 | for every range: every area is cut, exactly the pages touched are unmapped and exactly their frames freed; the loop ends by `len - i` although the index wraps below 0; the set stays valid if and only if neither end falls inside a mapped page |
| `MemorySets.MemorySet.Clear` | kernel/src/memory/memory_set.rs:375-385 | every page is unmapped and every owned frame freed |
| `MemorySets.MemorySet.HandlePageFault` | kernel/src/memory/memory_set.rs:403-409 | handled exactly when the address is in a lazy area, its page is absent and a frame is free; only that page and one frame change |
| `MemorySets.MemorySet.Clone` | kernel/src/memory/memory_set.rs:411-432 | the copy has the same areas and page by page a copied or re-delayed entry; the source is untouched; it succeeds exactly when there is a free frame for every page that holds data |
| `AddressSpaces.PushedOk` | kernel/src/memory/memory_set.rs:215-250 | a push keeps areas, table and frames in agreement: each entry has its area's user, write, execute and device bits |
| `AddressSpaces.RemovedOk` | kernel/src/memory/memory_set.rs:253-385 | removing pages keeps areas, table and frames in agreement |
| `AddressSpaces.FaultedOk` | kernel/src/memory/memory_set.rs:403-409 | a handled fault keeps areas, table and frames in agreement |
| `AddressSpaces.ForkedOk` | kernel/src/memory/memory_set.rs:411-432 | the copy made by a fork is itself a sound space on frames of its own, one for exactly each page that owns a frame whose bytes a fault would not bring back |
| `DemandPaging.ForkKeepsInv` | kernel/src/memory/memory_set.rs:411-432 | a fork leaks no frame and shares none between parent and child |
| `DemandPaging.RemoveKeepsInv` | kernel/src/memory/memory_set.rs:253-385 | freeing the frames of removed pages leaks none and frees none twice |
| `DemandPaging.StepKeepsInv` | kernel/src/memory/memory_set.rs:215-432 | with any number of spaces on one allocator, every operation keeps: areas sorted, aligned and disjoint; an entry exactly for each page of an area, with the area's user, write, execute and device bits; each allocated frame owned by exactly one entry |
| `FlatMemory.StepRefines` | kernel/src/memory/memory_set.rs:215-432 | each operation on frames and tables is the same operation on a flat memory of bytes in which a fault does nothing and fork copies a map |
| `FlatMemory.RunKeepsInv` | kernel/src/memory/memory_set.rs:215-432 | in every reachable state of every run the invariant holds and a frame is allocated exactly when some page owns it |
| `FlatMemory.RunPermissions` | kernel/src/memory/memory_set.rs:107-115 | in every reachable state of every run an address has an entry exactly when an area contains it, and the entry's user, write, execute and device bits are the area's; a linear page lies at its address plus the offset |
| `FlatMemory.RunRefines` | kernel/src/memory/memory_set.rs:215-432 | every run is, step by step, a run of the flat memory: lazy mapping cannot be told from eager mapping |
| `FlatMemory.Isolation` | kernel/src/memory/memory_set.rs:411-432 | however long a run, steps on other spaces never change what a space sees |
| `FlatMemory.ForkFaithfulAndSeparate` | kernel/src/memory/memory_set.rs:411-432 | the child starts with exactly the parent's contents, absent and re-delayed pages included; after that no store, fault or cut in one shows in the other |
| `FlatMemory.StoreIsServed` | kernel/src/memory/handler/delay.rs:52-70 | any store that the permissions allow is carried out: at once where the page is present, after one fault where it is not and a frame is free |
| `FairShare.ShiftStaysPositive` | kernel/src/task/executor/mod.rs:756-784 | the two halving loops together never use up the 32 bits of shift when `weight <= lw` or the weight is that of nice 0 |
| `FairShare.CalcDelta` | kernel/src/task/executor/mod.rs:767-784 | for all weights: delta times a rounded factor over 2^32, cut to 64 bits, as long as the loops halve 32 times at most; beyond that the shift count wraps and the result is 0 |
| `FairShare.FactorBounds` | kernel/src/task/executor/mod.rs:656-681 | the fixed-point factor is at most `weight / lw` and short of it by at most `weight + 2^k` units of 2^-32 |
| `FairShare.ScaledBounds` | kernel/src/task/executor/mod.rs:756-784 | the result never exceeds `delta * weight / lw` and falls short by less than `1 + delta * (weight + 2^k) / 2^32`; k is 0 when `weight <= lw` and at most 10 for nice 0 |
| `FairShare.CutIffTooLarge` | kernel/src/task/executor/mod.rs:784-784 | the 64-bit result is the scaled value exactly when that fits |
| `FairShare.HeavierNeverFaster` | kernel/src/task/executor/mod.rs:480-488 | with the nice-0 shortcut included, a heavier entity never ages faster than a lighter one whose scaled time fits 64 bits |
| `FairShare.HeavierNeverFasterIff` | kernel/src/task/executor/mod.rs:480-488 | up to any bound on the run time the order holds if and only if the lighter weight is at least that of nice 0, or both weights have one factor, or the lighter one's virtual time at the bound fits 64 bits |
| `FairShare.HeavierFasterWhenCut` | kernel/src/task/executor/mod.rs:480-488 | a run time beyond that bound for which nice 19 ages slower than nice 0 |
| `FairShare.NicerAgesFaster` | kernel/src/task/executor/mod.rs:728-754 | over the weight table, a nicer level ages at least as fast while its own virtual time fits 64 bits; without limit down from nice 0 |
| `FairShare.WeightSteps` | kernel/src/task/executor/mod.rs:727-740 | level 0 has weight 1024, and each level is worth a factor between 1.2 and 1.28 |
| `Fairness.AgesByCpuTime` | kernel/src/task/executor/mod.rs:515-522 | over any stretch of any run an entity that is not placed anew ages by its CPU time over its weight and by nothing else, up to the rounding of each tick |
| `Fairness.SharesFollowWeights` | kernel/src/task/executor/mod.rs:515-522 | of two entities of one CPU, the one whose virtual time has grown no more has had no more CPU time for its weight, up to that rounding |
| `Preemption.LagIsBounded` | kernel/src/task/executor/mod.rs:337-390 | of two entities that stay runnable, one that is always taken with no key earlier by more than a slack is never ahead of the other by more than slack and one turn, or what it was ahead at first |
| `Preemption.SharesAreFair` | kernel/src/task/executor/mod.rs:337-390 | so over any such stretch its CPU time for its weight is no more than the other's but for slack, turn and rounding |
| `Preemption.NeverLifted` | kernel/src/task/executor/mod.rs:490-512 | the minimum never gets far enough past an entity that stays runnable for its yields to move its virtual time |
| `Preemption.YieldSettles` | kernel/src/task/executor/mod.rs:384-390 | an entity that yields is queued under its own virtual time once its turn is accounted for |
| `Preemption.SettledStays` | kernel/src/task/executor/mod.rs:384-390 | and stays so exactly until it is popped, removed, stolen or lifted by a wake, as long as no completed one of the same tid is current |
| `Preemption.ChoiceIsFairIff` | kernel/src/task/executor/mod.rs:337-374 | the entity the code takes is the earliest up to a slack if and only if the current one is not sent away although it is earlier by more, and not kept although it is later by more |
| `Preemption.KeptIsFair` | kernel/src/task/executor/mod.rs:348-361 | an entity that is kept after its first 0.75 ms is the earliest up to its slice |
| `Preemption.StaysIff` | kernel/src/task/executor/mod.rs:344-374 | the current entity stays if and only if it is on the queue, within its slice, and has run for less than 0.75 ms or is ahead of the earliest key by no more than its slice |
| `Preemption.LagGrows` | kernel/src/task/executor/mod.rs:344-368 | a run without bound on the lag: for any n, two runnable entities with turns of 1 and 2 are n + 1 apart after n rounds, since the time ever run is compared with one slice and the earliest of the others is taken |
| `FairShare.SlicesFitPeriod` | kernel/src/task/executor/mod.rs:277-285 | for any queue whose weights add up to its load, the slices of all entities together fit in one period |
| `FairShare.SliceSumBound` | kernel/src/task/executor/mod.rs:793-799 | the slices add up to at most the exact shares of the period |
| `FairShare.PeriodIsLarger` | kernel/src/task/executor/mod.rs:786-799 | the period is the larger of the latency target and one granule per entity, and equals the formula of its comment |
| `FairShare.NewcomerFits` | kernel/src/task/executor/mod.rs:277-285 | the slice of an entity about to be queued, counted in, fits in the period beside all the others |
| `FairShare.SliceIsShare` | kernel/src/task/executor/mod.rs:277-285 | a slice, of a queued entity or of one counted in, is at most `period * weight / load` and short of it by less than `1 + period * (weight + 1) / 2^32` |
| `FairShare.SlicesFillPeriod` | kernel/src/task/executor/mod.rs:277-285 | the slices of all queued entities add up to the period but for one unit each and that rounding |
| `VirtualTime.DeltaAgreesIff` | kernel/src/task/executor/mod.rs:564-568 | the wrapped signed difference is the true one if and only if that fits 64 signed bits |
| `VirtualTime.StepAgrees` | kernel/src/task/executor/mod.rs:392-409 | while the virtual times of queue and live entities span less than 2^63, every queue operation, completion included, is on wrapping words the wrapped image of itself on unbounded integers |
| `VirtualTime.KernelRunAgrees` | kernel/src/task/executor/mod.rs:560-648 | so whole runs on wrapping words are the wrapped image of runs on integers |
| `VirtualTime.MinNeverBackwards` | kernel/src/task/executor/mod.rs:392-409 | in every such run, early wakes below zero included, `min_vruntime` never moves backwards, also by the kernel's own comparison |
| `VirtualTime.UpdateMinExact` | kernel/src/task/executor/mod.rs:392-409 | the minimum moves up to the least competing time, never past one, and stays while the current entity is off the queue or has completed |
| `VirtualTime.PlacedFairly` | kernel/src/task/executor/mod.rs:170-234 | a spawned entity starts no earlier than its parent and one slice after the minimum; a woken one keeps its time or is placed 3 ms below the minimum; the first is queued under its time, the second under that threshold |
| `VirtualTime.FlaggedIff` | kernel/src/task/executor/mod.rs:170-390 | an action puts an entity on `on_rq` exactly if it spawns, wakes or brings it, and takes it off exactly if it removes, steals or completes it |
| `VirtualTime.EntityNeverGainsTime` | kernel/src/task/executor/mod.rs:502-522 | over every run on one CPU an entity's virtual time never moves backwards until it completes |
| `VirtualTime.LeavesQueueIff` | kernel/src/task/executor/mod.rs:310-390 | a queued entity leaves the queue if and only if it is popped, removed or stolen, or a completed current one of the same tid is removed; its key changes only by a wake, a new placing or a tick of the current one of that tid |
| `VirtualTime.NoNamesakeKept` | kernel/src/task/executor/mod.rs:237-250 | no queued entity has the tid of a completed one that is still current, if and only if no action queues such a one; then putting the completed one away dequeues nobody and ticking it changes no key |
| `VirtualTime.NamesakeDequeued` | kernel/src/task/executor/mod.rs:211-248 | if a vacant tid were given out again on the same CPU before the run loop has put the completed entity away, which spawning on the own CPU only rules out, the new entity would leave the queue without having run |
| `RunQueues.CpuQueue.UpdateMinVruntime` | kernel/src/task/executor/mod.rs:392-409 | the new minimum is the one of the wrapping machine that `MinNeverBackwards` is about |
| `RunQueues.CpuQueue.Wake` | kernel/src/task/executor/mod.rs:490-512 | queue and entity change as in the machine's wake step (key at the threshold below the minimum, later of the two times kept), and no other entity changes |
| `RunQueues.CpuQueue.Spawn` | kernel/src/task/executor/mod.rs:170-234 | queue and entity change as in the machine's spawn step, with a parent on any CPU and any vacant tid, that of a completed current entity included; the entity is bound to this queue, and no other changes |
| `RunQueues.CpuQueue.ChooseNext` | kernel/src/task/executor/mod.rs:337-374 | the entity taken is the one that `ChoiceIsFairIff` is about, on wrapping words |
| `RunQueues.CpuQueue.PopTask` | kernel/src/task/executor/mod.rs:375-381 | the chosen entity leaves the ready set and becomes current |
| `RunQueues.CpuQueue.TaskTick` | kernel/src/task/executor/mod.rs:384-390 | the entity that ran ages, also if it has completed, the queue key of its tid if any follows, and the minimum is brought up to date |
| `RunQueues.CpuQueue.RemoveTask` | kernel/src/task/executor/mod.rs:310-329 | the entity leaves the ready set; the minimum is brought up to date only if it was queued or current |
| `RunQueues.CpuQueue.RemoveFinished` | kernel/src/task/executor/mod.rs:244-247 | the entry of the completed entity's tid, whoever has that tid now, leaves the ready set and the minimum is brought up to date |
| `RunQueues.CpuQueue.Finish` | kernel/src/task/executor/mod.rs:113-117 | the slot is free again; a completed current entity keeps a virtual time of its own |
| `RunQueues.CpuQueue.Complete` | kernel/src/task/executor/mod.rs:214-221 | dropping a future is a removal and a completion of the queue's machine |
| `RunQueues.RebasedKeepsLag` | kernel/src/task/executor/mod.rs:437-438 | moving a virtual time between queues keeps its lag behind the minimum, wrap-around included |
| `RunQueues.OthersUnaffected` | kernel/src/task/executor/mod.rs:384-409 | a step of one queue, spawn and completion included, leaves the state of every other queue as it was, and that queue sound |
| `RunQueues.StealTasks` | kernel/src/task/executor/mod.rs:419-449 | half of the entries are taken off the top, none after one that is left wherever the keys are in order; of these exactly the ones that are neither locked nor current move; for the victim that is a departure, for the thief an arrival with keys kept and times re-based; both queues stay sound |
| `RunQueues.NarrowIsInOrder` | kernel/src/task/executor/mod.rs:559-648 | words of virtual times that span less than 2^63 are in order |
| `VirtualTime.DepartOneByOne` | kernel/src/task/executor/mod.rs:432-445 | a departure of many is a run of single departures of the queue's machine |
| `VirtualTime.ArriveOneByOne` | kernel/src/task/executor/mod.rs:432-445 | an arrival of many is a run of single arrivals of the queue's machine |
| `RunQueues.Migrate` | kernel/src/task/executor/mod.rs:436-440 | one entry changes queue as it is; its virtual time is re-based and its queue reference set |
| `Scheduler.StealKeepsInv` | kernel/src/task/executor/mod.rs:419-449 | a steal that skips locked entities keeps every queued tid bound to the queue it is on |
| `Scheduler.StepKeepsInv` | kernel/src/task/executor/mod.rs:170-512 | spawn, wake, pop, steal and completion each keep: a queued tid is in the arena and bound to that queue, and a lock held across steps remembers the right queue |
| `Scheduler.RunKeepsInv` | kernel/src/task/executor/mod.rs:170-512 | that holds in every state of every interleaving on any number of CPUs |
| `Scheduler.NeverQueuedTwice` | kernel/src/task/executor/mod.rs:337-382 | no tid is ever queued on two CPUs, and popping one finds it in the arena |
| `Scheduler.StealConserves` | kernel/src/task/executor/mod.rs:419-449 | a steal keeps the set of queued tids and the set of live ones |
| `Scheduler.StepConservesQueued` | kernel/src/task/executor/mod.rs:170-512 | over all CPUs a step adds or takes away exactly the tid it is about, and the arena changes at spawn and completion only |
| `Scheduler.TryLockIsNeeded` | kernel/src/task/executor/mod.rs:433-443 | if a tid could be woken while it is queued, which the futures library never does, a steal that ignores the locks could queue it on two CPUs: a concrete interleaving |
| `Scheduler.LocksNeverDecide` | kernel/src/task/executor/mod.rs:433-443 | where each future has one live runnable, no queued tid is locked, so a steal may move the same tids whether it looks at the locks or not |
| `Scheduler.TryLockIsRedundant` | kernel/src/task/executor/mod.rs:419-449 | every run that obeys the library's contract and ignores the locks is a run that respects them, so it keeps the same invariants |
| `Scheduler.StealTasksIsSteal` | kernel/src/task/executor/mod.rs:419-449 | what `StealTasks` promises is one steal step of the multi-CPU machine |
| `Scheduler.NeverRunsTwice` | kernel/src/task/executor/mod.rs:237-250 | with at most one live runnable per future, no two CPUs ever poll the same future and none is queued while it is polled, whether steals look at the locks or not |
| `Scheduler.RunPollsCurrent` | kernel/src/task/executor/mod.rs:337-443 | in every run a CPU polls its current task only, so no steal takes away a task that is being polled |
| `Scheduler.PollsIff` | kernel/src/task/executor/mod.rs:237-250 | a CPU polls a task exactly from its pop until it parks or completes |
| `Scheduler.StepKeepsOneRunnable` | kernel/src/task/executor/mod.rs:170-250 | each step keeps every future in at most one of: queued, being woken, being polled |
| `RawMemory.Store` | kernel/src/process/abi.rs:63-63 | the copied bytes are where they were put and nothing outside the range changes |
| `RawMemory.LeRoundTrip` | kernel/src/process/abi.rs:56-64 | a word read back from its little-endian bytes is itself |
| `InitStack.StackWriter.PushSlice` | kernel/src/process/abi.rs:56-64 | the slice lies at the new aligned stack pointer; nothing at or above the old one is overwritten |
| `InitStack.StackWriter.PushStr` | kernel/src/process/abi.rs:65-68 | the string and its NUL lie together right under the old stack pointer |
| `InitStack.StackWriter.PushStrings` | kernel/src/process/abi.rs:17-33 | every string, those pushed before included, is intact at the address recorded for it |
| `InitStack.StackWriter.PushAux` | kernel/src/process/abi.rs:34-38 | the vector reads upwards with types descending and ends in the null entry |
| `InitStack.StackWriter.PushTable` | kernel/src/process/abi.rs:34-46 | count, argument pointers, NULL, environment pointers, NULL and vector form one gap-free table at the stack pointer |
| `InitStack.PushAt` | kernel/src/process/abi.rs:11-48 | a reader that follows the System V layout from the returned 8-aligned stack pointer recovers the argument count, arguments, environment and vector; memory outside the pushed range is untouched; the program name is kept at the top |
| `InitStack.RecoversAllIff` | kernel/src/process/abi.rs:11-48 | what the reader recovers is everything if and only if no string holds a NUL and no vector type is 0 |
| `InitStack.AuxEntriesExact` | kernel/src/process/abi.rs:36-38 | the recovered entries are those of the map with a type other than 0, in strictly descending order |
| `InitStack.ReadInitBack` | kernel/src/process/abi.rs:34-46 | any such table over intact strings reads back as the strings and map it was made from |
| `Sigsets.WordRefinesSet` | kernel/src/signal/action.rs:28-49 | the word operations are insertion, removal, union and difference on sets of the signals 1..64 |
| `Sigsets.LastSignalIsBitZero` | kernel/src/signal/action.rs:33-45 | the wrapping shift puts signal 64 on bit 0, which no other signal touches |
| `Sigsets.WordIsItsSet` | kernel/src/signal/action.rs:26-49 | different words are different sets: no bit is unused |
| `SignalQueue.StepKeepsPending` | kernel/src/signal/mod.rs:95-108 | a send or a delivery keeps pending bits and queue in agreement |
| `SignalQueue.RunKeepsPending` | kernel/src/signal/mod.rs:95-162 | in every run a pending bit implies a queued entry; for standard signals the bit is set exactly when an entry is queued, and there is at most one |
| `SignalQueue.PendingIsLastSent` | kernel/src/signal/mod.rs:95-162 | for every signal, real-time ones included, the bit is set if and only if its last event was a send |
| `SignalQueue.QueuedInOrder` | kernel/src/signal/mod.rs:95-162 | in every run the queue is an in-order subsequence of what was sent |
| `SignalQueue.RealtimeBitLost` | kernel/src/signal/mod.rs:161-162 | any signal from 32 on, sent twice and delivered once, is still queued with its bit clear |
| `SignalQueue.StandardQueuedOnce` | kernel/src/signal/mod.rs:95-108 | in every run at most one entry of a signal below 32 is queued |
| `SignalDelivery.Process.Send` | kernel/src/signal/mod.rs:95-108 | a pending standard signal is dropped without trace; any other is queued last, marked, and raises RECEIVE_SIGNAL on the bus |
| `SignalDelivery.FirstDeliverable` | kernel/src/signal/mod.rs:134-151 | the first queued entry for this thread that is not masked, or none exactly when there is none |
| `SignalDelivery.Thread.EnterHandler` | kernel/src/signal/mod.rs:189-264 | the frame saves the mask, alternate stack and registers of just before; it is written to user memory and the handler starts under it, its signal and its action's mask blocked; no frame exactly when the stack cannot be written |
| `SignalFrames.FrameIsRead` | kernel/src/signal/mod.rs:112-129 | a frame written field by field reads back by the C layout: information 8 bytes and saved state 136 bytes above the stack pointer, return address at it, return code behind |
| `SignalFrames.HoldsBeside` | kernel/src/signal/mod.rs:224-255 | writing a frame leaves any frame beside it intact |
| `SignalDelivery.HandlerFindsFrame` | kernel/src/arch/aarch64/signal.rs:126-141 | a handler starts at its action's address with the signal in x0; following x1 it reads the signal information, following x2 the interrupted mask, stack and registers (x11 apart); x3 to x30 and pstate are the interrupted ones; the word at sp is the restorer or the address of the return code |
| `SignalDelivery.FramePlace` | kernel/src/signal/mod.rs:206-230 | the frame lies right under the alternate stack's top if the action wants it and it is not disabled, else right under the stack pointer |
| `SignalDelivery.MaskAfterExact` | kernel/src/signal/mod.rs:193-200 | during a handler exactly the signals masked before, its own and those of its action are masked |
| `SignalDelivery.StackAfterExact` | kernel/src/signal/mod.rs:212-224 | using the alternate stack marks it, and disables it exactly if it disarms itself |
| `SignalDelivery.EachFindsItsFrame` | kernel/src/signal/mod.rs:132-269 | however many handlers one call enters on the ordinary stack, at its end each finds its own information and interrupted state |
| `SignalDelivery.OverwritesIff` | kernel/src/signal/mod.rs:206-230 | of two frames in one call, the first on the alternate stack, the second takes its place if and only if it goes there too and the stack does not disarm itself; otherwise it lies right under it |
| `SignalDelivery.SavedStateLost` | kernel/src/signal/mod.rs:206-264 | then the first handler reads its own start where the interrupted state should be |
| `SignalDelivery.SavedExactlyIff` | kernel/src/arch/aarch64/signal.rs:45-84 | the saved registers are the interrupted ones if and only if x11 equals x13; all others always are |
| `SignalDelivery.DeliverOne` | kernel/src/signal/mod.rs:155-266 | exits exactly on a default action of SIGALRM, SIGHUP or SIGINT; panics exactly on SIG_ERR or an unwritable stack; without a user handler the thread is unchanged |
| `SignalDelivery.HandleSignal` | kernel/src/signal/mod.rs:132-269 | terminates; on false no queued entry for this thread is unmasked; every delivery was of an unmasked entry for this thread; each signal with a user handler got its frame in order; an exit follows only a fatal default action and carries signo + 128 |
| `SignalDelivery.HandlersAreDistinct` | kernel/src/signal/mod.rs:189-200 | no signal number enters a user handler twice in one call |
| `SignalDelivery.EnteredAreBlocked` | kernel/src/signal/mod.rs:192-200 | what was masked stays masked during a call, and every entered signal is masked after it |
| `SignalDelivery.LogThins` | kernel/src/signal/mod.rs:161-162 | the queue left behind is an in-order subsequence that lacks only entries for this thread |
| `SignalDelivery.ThinnedKeepsOthers` | kernel/src/process/thread.rs:407-423 | every entry for another thread stays queued, in order |
| `SignalDelivery.CallKeepsPending` | kernel/src/signal/mod.rs:161-162 | a whole call keeps pending bits and queue in agreement |
| `EventBus.SharedBus.ChangeEvent` | kernel/src/sync/event_bus.rs:51-60 | the word is updated as `ChangedBits` says and, if it changed, exactly the callbacks that fire are dropped and their wakers called in order |
| `EventBus.ChangedBits` | kernel/src/sync/event_bus.rs:43-60 | after a change any flag is up if and only if the change sets it, or it was up and the change does not clear it |
| `EventBus.FlagsAreApart` | kernel/src/sync/event_bus.rs:20-60 | clearing the flag of a child keeps that of a signal, and the other way round |
| `EventBus.FlagIsLastChange` | kernel/src/sync/event_bus.rs:43-60 | over every run a flag is up if and only if its last change was a set |
| `EventBus.WokenForReason` | kernel/src/sync/event_bus.rs:51-60 | a change calls a waker only if the new word meets its mask, or it sleeps on any change |
| `EventBus.SharedBus.PollFor` | kernel/src/sync/event_bus.rs:84-99 | ready exactly when a masked event is present, else a callback is left |
| `EventBus.ChangedIsQuiet` | kernel/src/sync/event_bus.rs:51-60 | after any change every waiting mask is disjoint from the event word |
| `EventBus.ChangeConservesWakers` | kernel/src/sync/event_bus.rs:51-60 | a change neither loses nor repeats a waker |
| `EventBus.RunIsQuietAndFair` | kernel/src/sync/event_bus.rs:51-99 | over every run no future waits for an event that is present, and each waker left on the bus is waiting or was called exactly once |
| `WaitExit.StepKeepsInv` | kernel/src/syscall/process.rs:88-160 | every step of scanning for any child or for one pid, waiting, clearing, forking, exiting, and of others that look up, find and remove processes at different times, keeps: a process seen alive in this round cannot have passed its notification with the flag down; and table and children are what the forks and returns so far say |
| `WaitExit.RunKeepsInv` | kernel/src/process/mod.rs:145-180 | that holds in every state of every interleaving, pids given out again included |
| `WaitExit.NoLostWakeup` | kernel/src/syscall/process.rs:88-160 | in both modes, if the parent is blocked and a child that its call would find has exited, the flag is set and the parent's waker has been called |
| `WaitRuns.FlagPromisedIff` | kernel/src/syscall/process.rs:88-160 | while a call blocks, the flag is up for an exited unreturned child if and only if the call waits for any child or for that pid |
| `WaitRuns.OtherChildForgotten` | kernel/src/syscall/process.rs:106-160 | for any two pids, a wait for one of them can clear the flag that the other raised and block beside its exited child |
| `WaitExit.WaitReturnsExited` | kernel/src/syscall/process.rs:91-153 | what is returned has exited, is a child in any-child mode and has the pid asked for in the other; the call never blocks without a child to wait for |
| `WaitExit.ReturnsNonChildIff` | kernel/src/syscall/process.rs:106-115 | a wait for a pid returns a process exactly when the table names an exited one, and one that is not a child exactly when that one has another parent |
| `WaitRuns.StrangerReturned` | kernel/src/syscall/process.rs:106-132 | for any pid, a run in which an exited process of another parent is returned |
| `WaitExit.ReturnedOnce` | kernel/src/syscall/process.rs:117-132 | no process is returned to the same waiter twice, in any mix of modes and however pids are reused |
| `WaitExit.ReturnedFirstIff` | kernel/src/syscall/process.rs:117-132 | what is about to be returned is still in the table if and only if, since it was forked, its pid was not given out again and nobody was returned a process with that pid |
| `WaitRuns.ReturnedTwice` | kernel/src/syscall/process.rs:91-132 | for any pid, a run in which a child waited for by another process is returned to its parent as well |
| `WaitExit.FindableIff` | kernel/src/syscall/process.rs:91-115 | a child can be waited for by its pid if and only if, since it was forked, its pid was not given out again and nobody was returned a process with that pid; as any child if and only if it is held and the waiter was not returned one with that pid |
| `WaitExit.NoneLostIff` | kernel/src/syscall/process.rs:106-132 | every child not yet returned to anybody can be waited for by its pid if and only if pids are handed on in order: a child is returned before its pid is given out again, and no earlier owner is returned after that |
| `WaitExit.FindableUntilReturned` | kernel/src/syscall/process.rs:91-132 | while no two processes share a pid, a child can be waited for in both modes exactly until it is returned |
| `WaitExit.PushedOutIff` | kernel/src/syscall/process.rs:125-129 | a return takes another process out of the table, or out of the children, if and only if that one has the same pid and is still there |
| `WaitRuns.LiveChildLost` | kernel/src/syscall/process.rs:125-129 | for any pid, a run in which the return of an exited child takes a live child with the same pid out of table and children |
| `WaitRuns.LiveChildLostToOther` | kernel/src/syscall/process.rs:106-129 | for any pid, a run in which another process's return, looked up before and removed after the pid was given out again, takes a live child out of the table |
| `WaitRuns.ReuseLosesExit` | kernel/src/process/thread.rs:69-83 | for any pid, a run in which the pid of an exited child is given out again and the exit is lost |
| `WaitRuns.LostForGood` | kernel/src/process/mod.rs:107-115 | once nobody holds such a process, no later scan comes upon it |
| `WaitRuns.LateClearLosesWakeup` | kernel/src/syscall/process.rs:155-159 | clearing the flag after the scan instead of before it can block the parent for good next to an exited child |
| `Timers.Timer.Add` | kernel/src/task/timer.rs:26-31 | the entry goes to the first free nanosecond at or after the deadline, at most as many later as there are live timers |
| `Timers.Timer.Expire` | kernel/src/task/timer.rs:36-44 | exactly the entries with a key up to `now` are called and dropped, earliest first |
| `Timers.BumpIsBounded` | kernel/src/task/timer.rs:26-31 | by pigeonhole the bump is at most the number of live timers |
| `Timers.RunKeepsInv` | kernel/src/task/timer.rs:26-44 | in every run each request is live under one key or has fired once, never both and never neither |
| `Timers.FiresOnceAndNotEarly` | kernel/src/task/timer.rs:26-44 | over every run no waker is called twice, and none before its deadline |
| `Timers.FiresInTime` | kernel/src/task/timer.rs:36-44 | a waker has been called once `expire` has run at its deadline plus the timers live when it was added |
| `WorkDir.SegmentsJoin` | kernel/src/syscall/fs.rs:233-234 | joining two paths with a slash joins their segments |
| `WorkDir.RenderRoundTrip` | kernel/src/syscall/fs.rs:244-251 | splitting a rendered directory gives back its segments |
| `WorkDir.Process.Chdir` | kernel/src/syscall/fs.rs:216-254 | only a path that names a directory changes the working directory, and then by folding its segments |
| `WorkDir.CwdAfterCalls` | kernel/src/syscall/fs.rs:216-254 | after any sequence of calls, failing ones included, the working directory is canonical and is where walking all segments since the last absolute path leads |
| `WorkDir.ChangedIsCanonical` | kernel/src/syscall/fs.rs:227-252 | the working directory stays absolute, without empty, `.` or `..` segments |
| `WorkDir.CanonicalShape` | kernel/src/syscall/fs.rs:244-251 | a canonical directory starts with a slash and ends in one only at the root |
| `WorkDir.ChangeInTwoSteps` | kernel/src/syscall/fs.rs:227-252 | changing to `a` and then to a relative `b` is changing to `a/b` |
| `WorkDir.UpUndoesDown` | kernel/src/syscall/fs.rs:235-243 | a plain name goes one level down and `..` undoes it |
| `WorkDir.UpDropsLast` | kernel/src/syscall/fs.rs:235-251 | `..` takes off the last segment of any working directory and stays at the root |
| `WorkDir.SplitPathSameIff` | kernel/src/syscall/fs.rs:452-460 | following the directory part and then the name leads where the path leads, if and only if the path is empty or has a name in it or the working directory is the root |
| `WorkDir.SplitPathIsLast` | kernel/src/syscall/fs.rs:452-460 | the name is the last segment of the path and the directory has the others, absolute exactly if the path is; without a segment the parts are `.` and nothing |

## Left out

- Hardware and assembly: boot, MMU, TLB and cache maintenance, interrupt controller, UART, clock and device tree.
- The AArch64 page-table walker, its own table frames and the kernel mapping: a page table is a map from pages to entries.
- `GlobalFrameAlloc`: frames are conserved against the `FrameAllocator` contract; the global one adds an offset when it allocates and does not take it off when it frees.
- Entry bits for accessed, dirty, shared and swapped pages, area names, and `translate`: no operation modelled here reads them.
- FlatMemory.Isolation: a linear page is a window on physical memory; what lies behind it and stores through it are not part of the flat memory, so nothing is said about them.
- UserMemory.FindFreeAreaSucceeds: for candidates that overflow 64 bits it says nothing about the wrapped addresses the source would try.
- Address wrap-around in areas: `Push` takes ranges whose end can be rounded up below 2^64, and a range that ends at address 0 is not modelled.
- A file that changes while it is mapped: the handler carries the bytes of its inode.
- The cached `inv_weight` of a load: the source always constructs it empty.
- `nr_running` and `load` accounting: a steal updates neither and completion reaches `remove_task` twice, so the slice theorem has "load is the sum of weights" as a hypothesis.
- Which queue `try_steal_tasks` picks: `Steal` allows any. The runs of `VirtualTime` allow any pop as well; what the code pops is `Preemption.Chooses`.
- Equality of queue key and virtual time: a wake inserts an earlier key and a steal re-bases only the entity; `Preemption` says when the two are equal.
- Scheduler liveness and deadlock freedom, the idle entity, and the priority queue and arena themselves, which are a map and a set here.
- VirtualTime.MinNeverBackwards: the span below 2^63 of minimum, keys and entities that have not completed is a hypothesis on the run, as a caller can see it in those values.
- Preemption.LagIsBounded: slack and turn are hypotheses on the run; `ChoiceIsFairIff` says what slack a choice of the code needs.
- InitStack.PushAt: requires that the strings and the table fit below the stack top and that there is a first argument, which the source indexes without looking.
- Returning from a signal handler: the source has no such call.
- Sending to a process group or a signal number outside 1..64, which the source refuses with a panic.
- SignalDelivery.EachFindsItsFrame: for frames below the top of the address space, where the writability test of the source puts them.
- WaitExit.NoLostWakeup: for one waiter per parent; with several, one may clear the flag for another.
- Exit codes, process groups (0 is the same code as -1), pids below -1, which the source refuses with a panic, and the lock order of parent and child, which can deadlock.
- Which pids are free: in `WaitExit` the pid of any exited process can be given out again; after the last thread's `sys_exit` the source keeps the thread number, so that such a pid is not.
- Clock conversion to nanoseconds and `Duration` overflow: time is a natural number.
- WorkDir.ChangeInTwoSteps: for a non-empty `a` and a `b` without leading slash, because `a/b` is another path otherwise.
- File-system calls, file handles, ELF loading, the terminal and logging.

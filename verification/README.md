# ZeOS: the multiprocess kernel, modelled and proved

ZeOS is a small teaching kernel: at most ten tasks, fork and clone, a round-robin scheduler with
intrusive lists, semaphores, blocking keyboard reads, one page directory per process with
reference counts for its threads, a frame allocator that hands out every second frame, and sbrk.
Everything runs with interrupts off inside the kernel (`interrupt.c:68-70`), so a system call, a
clock interrupt or a keyboard interrupt is one step of a state machine; a call that blocks is two.

The project has two layers and a bridge.

- **The kernel as a value** (`TaskQueues`, `Paging`, `Machine`). `Machine.Apply` gives for every event
  the next state, the reply and the bytes copied to the caller. `Machine.Inv` is the invariant of all
  runs. `Calls` and `TickAccounts` say what each entry answers, changes and books without naming the
  functions that compute it. Over them stand the run theorems: `Invariants` (every step keeps the
  invariant), `Placement`, `Births` (pids), `Waiting`, `SemaphoreLedger`, `WaitAnswers` (what a blocked
  waiter is told), `KeyboardStream`, `AddressSpaces` with `SpaceRuns` and `FrameLedger`, `Stats` with
  `TickRuns`, `AsWritten` (two calls to the letter), `Boot` (the first state has the invariant) and
  `Failures` (runs from boot in which the kernel fails).
- **The kernel in place** (`Lists` over `Circles`, `Ring`, `Mm`, `Utils`, `Stats.TimeKeeper`, and
  `Zeos.System`, which is built from them). The C functions are methods over list nodes, arrays and
  fields, with the loops of the source, and book to the accounts where the source calls update_stats.
- **The bridge.** `System.Valid` ties every field to a ghost value `view`; every entry point is
  proved to take `view` to exactly the state `Machine` defines, and to book exactly what `TickRuns`
  says is due. `Zeos.System.Handle` puts them together for any entry into the kernel and keeps `Inv`;
  `Zeos.System.HandleAll` shows that serving a whole sequence of entries in place is the run of the
  machine, with the same replies, the same keys handed over and the same bookings, so each run
  theorem is one about the methods; `Zeos.System.PowerOn` starts it from the initialisers.

Integers are unbounded; where 32 bits matter the model says so (`Word`, `Signed`, `PhPage`): pids,
the program break and page numbers, semaphore values, tick accounts, `do_div` and the address
arithmetic of `get_DIR_pos`. The translation cache is a set of (page, frame) pairs that grows with
every entry of the current table, forgets nothing when an entry is removed, and is replaced when CR3
is written (Intel SDM Volume 3A, sections 4.3 and 4.10).

### Where the code does not do what it evidently means

- `sys.c:151` compares the array `dir_references` with 0, so nothing is ever freed. `Exit` takes a
  flag: `reclaims == false` is the code, `true` the intent the exit tests state
  (`README_E2.txt:17`). `SpaceRuns.CompiledExit` says exactly when the two agree, and
  `SpaceRuns.StepClean` which directories are left holding data. The frames are lost only later, when
  a fork builds its child over such a directory: `FrameLedger.StepNoLeak` is the exact condition,
  `FrameLedger.RunFrames` the account over every run, `Failures.FramesLost` a run of three calls.
- `sys.c:281-283` looks for the waiter after unlinking it. `AsWritten.SignalMeets`: the call as written
  is a signal if and only if it is refused or nobody waits (`Failures.SignalFaults`).
- `sys.c:298-299` unlinks each waiter a second time (`sched.c:79-82`), through null links.
  `AsWritten.DestroyMeets`: the call as written does its work if and only if it is refused, nobody
  waits, or page 0 is there to take the stores, as it is in every forked process and not in the first
  one (`Failures.DestroyFaults`). The runs use the calls with one unlinking;
  `AsWritten.CompletedIsStep` says that a call as written that completes makes their step.
- `sys.c:257`, `sys.c:274` and `sys.c:289` let number 20 through to a semaphore that does not exist,
  and a semaphore never initialised has a null queue; `Machine.Enabled` leaves both out.
- `sys.c:250` empties the queue of a semaphore destroyed earlier even if tasks have blocked there
  since: `Placement.StepMembers` proves that this is the only way to lose a task, and
  `Failures.TaskOrphaned` does it.
- `sys.c:313-316` takes page numbers of signed addresses: a break moved out of the signed range comes
  back as success and maps nothing. `SpaceRuns.StepCovered` proves that this is the only way to
  uncover a break, `Failures.BreakOvershoots` does it in one call.
- `sys.c:90-99` gives the child present, user, writable entries for every kernel and code page, page 0
  and the guard pages included (`mm.c:257-265`). `AddressSpaces.StoreReach` proves that a permitted
  store reaches another process exactly through such pages.
- Heap pages survive the exit of their process and fork does not copy them, so a child's break is
  covered exactly under the condition of `SpaceRuns.ChildCovered` (`Failures.ChildUncovered`).
- `circular_buffer.c:5` keeps the storage in a dead local; the ring here owns its array.
  `circular_buffer.c:13-17` leaves the counter alone: `Ring.CircularBuffer.Reset` says when that is
  right.
- `devices.c:25` and `devices.c:28` compare with the whole size, not with what is left.
  `KeyboardStream.ReadExact` proves the read exact if and only if it asks for less than the ring's
  size, and what a longer one returns; in `Failures.ReadTooLong` a read of 4096 returns 8190.
- A keystroke looks at the first waiting reader only: `KeyboardStream.LostWakeup` says exactly when that
  loses a wakeup, and `Failures.WakeupLost` does it.
- `sys.c:110` tests an unsigned for being negative; `AddressSpaces.ScratchPageExists` proves that the
  test can never matter.
- A child becomes ready in state ST_RUN (`sys.c:83`, `sys.c:227`), and a preempted idle is queued like
  any task (`sched.c:64-66`); the model does both.

## Model

| member | source | states |
|---|---|---|
| Circles.InsertChained | list.c:18-26 | splicing a node between two neighbours makes the one list longer at that place; every other circular list over the shared nodes, and every head, is as before |
| Circles.RemoveChained | list.c:62-79 | taking a node out from any position of whichever list holds it, the head never being named, shortens that list alone |
| Circles.InitChained | list.c:6-10 | a head made to point at itself is an empty list again, whatever it held, and no other list notices |
| Circles.CopyChained | sys.c:83 | overwriting both links of an unlinked task with anything leaves all lists intact |
| Circles.HeadLinks | list.c:96-99 | a head's links lead to the first and last element; they lead back to itself exactly when the list is empty |
| Lists.ListSpace.Init | list.c:6-10 | INIT_LIST_HEAD in place: that list is empty and initialised, the others are untouched |
| Lists.ListSpace.Add | list.c:36-39 | list_add prepends |
| Lists.ListSpace.AddTail | list.c:50-53 | list_add_tail appends |
| Lists.ListSpace.Del | list.c:74-79 | list_del removes the node from the list that holds it without being told which, and nulls its links |
| Lists.ListSpace.IsEmpty | list.c:96-99 | list_empty is emptiness of the sequence |
| Lists.ListSpace.First | sched.c:96-99 | list_first and list_entry give the first task of the sequence |
| Lists.ListSpace.CopyLinks | sys.c:83 | copying a task structure over an unlinked one, links included, changes no list |
| Lists.ListSpace.SignalledNode | sys.c:280-282 | with somebody waiting, the search after the unlinking, pointer by pointer, never finds a task |
| Ring.WindowPut | circular_buffer.c:35-44 | writing at head and advancing it appends to the cells from tail to head |
| Ring.WindowGet | circular_buffer.c:45-54 | advancing tail drops the first of them |
| Ring.WindowBounds | circular_buffer.c:19-29 | the two index tests mean empty and holding size - 1 elements |
| Ring.CircularBuffer.Put | circular_buffer.c:35-44 | a bounded FIFO of capacity size - 1: appends or refuses, and the separate counter stays right |
| Ring.CircularBuffer.Read | circular_buffer.c:45-54 | takes the oldest element or refuses, counter included |
| Ring.CircularBuffer.IsFull | circular_buffer.c:25-29 | full means size - 1 elements |
| Ring.CircularBuffer.NumElems | circular_buffer.c:31-33 | the counter is the number of elements |
| Ring.CircularBuffer.Reset | circular_buffer.c:13-17 | empties the ring; the counter is right afterwards exactly if it was already empty |
| Utils.CopyData | utils.c:6-20 | for disjoint regions or a destination at or below the source, words and then a tail of one to four bytes move exactly the region, all bytes as if at once, and write nothing else; a size of zero or less copies nothing |
| Utils.DoDiv | utils.c:103-115 | exact quotient and remainder for every 64-bit dividend and non-zero 32-bit base; the inner division never overflows |
| Utils.GetTicks | utils.c:121-132 | the low word of the time stamp divided by the cycles of a tick |
| Paging.AllocExact | mm.c:222-235 | n allocations succeed exactly when n frames of the stride are free, and then take n distinct free ones and no other |
| Mm.MemoryManager.AllocFrame | mm.c:222-235 | the scan loop in place takes the first free frame of the stride or reports that there is none |
| Mm.MemoryManager.AllocFrames | sys.c:64-77 | the allocation loop either gets all frames or rolls back to exactly the frame map it found |
| Mm.MemoryManager.FreeFrame | mm.c:250-254 | frees inside the strict bound, and nothing else |
| Mm.MemoryManager.constructor | mm.c:141-150 | init_mm leaves kernel frames used, kernel tables with their guard pages everywhere, and CR3 on directory 0; task 0's count is cleared again |
| Mm.MemoryManager.InitFrames | mm.c:206-218 | kernel frames used, all others free |
| Mm.MemoryManager.InitTablePages | mm.c:62-83 | every directory maps the kernel one to one, without page 0, with the two guard pages not present, and nothing else |
| Mm.MemoryManager.SetUserPages | mm.c:88-113 | the two loops in place: every code and data page gets a frame that was free, present for user code, writable only if it is data |
| Mm.MemoryManager.SetSsPag | mm.c:257-265 | one entry is overwritten; in the current table the processor may now hold its translation |
| Mm.MemoryManager.DelSsPag | mm.c:268-271 | one entry is zeroed; a translation already held stays held |
| Mm.MemoryManager.CopyPage | sys.c:125 | copying between two logical pages moves the bytes of the frames behind them, given that no stale translation can be used |
| Mm.MemoryManager.CopyThrough | sys.c:119-129 | mapping, copying, unmapping and flushing leave the father's table as it was and no translation to the child's frame behind |
| Mm.MemoryManager.BuildChild | sys.c:87-133 | the loops of fork in place: the child's whole space, bytes included, is the one the fork theorems are about |
| Mm.MemoryManager.ReleaseUserPages | mm.c:237-246 | the loop of free_user_pages frees the data frames and clears the entries |
| Mm.MemoryManager.FindSlots | sys.c:329-336 | the search finds the first unmapped pages from the heap base, in order |
| Mm.MemoryManager.GrowHeap | sys.c:315-344 | the allocating part of sbrk, with both refusals |
| Mm.MemoryManager.StoreNulls | list.c:62-66 | the stores of list_del with null links fault exactly if page 0 is not present and otherwise clear the first eight bytes behind it |
| AddressSpaces.HeapBound | mm.c:222-235 | one heap and the free frames together never exceed the 384 frames of the stride |
| AddressSpaces.ScratchPageExists | sys.c:103-113 | the father always has an unmapped page to copy through, so fork's EAGAIN exit is unreachable |
| AddressSpaces.SlotsSuffice | sys.c:329-339 | once sbrk has its frames the pages right above the heap are there for all of them |
| AddressSpaces.GrowExact | sys.c:315-344 | sbrk's growth fails exactly for want of frames and then changes nothing; otherwise the heap is longer by the pages asked for, the invariants hold and no held translation is stale |
| AddressSpaces.ForkCopies | sys.c:95-133 | the child's data pages hold the father's bytes, the pages below map to the father's frames, no other table and no byte of a used frame changes |
| AddressSpaces.ForkSound | sys.c:95-133 | after a fork data and heap frames are still exclusive, the image is complete and the translation cache agrees with the table |
| AddressSpaces.ReleaseExact | mm.c:237-254 | exactly the data frames of the directory become free, nobody else's table changes, and the strict bound of free_frame never matters |
| AddressSpaces.ForkThenRelease | mm.c:237-246 | releasing the child undoes the fork's effect on the frame map |
| AddressSpaces.StoreIsolated | sys.c:115-119 | a store to a data or heap page shows in no other data, heap or code page |
| AddressSpaces.StoreReach | sys.c:90-99 | a store a process is permitted reaches another process exactly if it is to a page below the data area that the other one has too |
| AddressSpaces.ForkWritable | mm.c:257-265 | a forked child is permitted to store to every page below the data area, kernel and code alike, and reaches the father through those the father has |
| AddressSpaces.FrameCount | mm.c:88-113 | used user frames number eight more than the mapped data and heap entries |
| Invariants.StepInv | interrupt.c:68-70 | every enabled system call, interrupt or continuation keeps the kernel invariant, and fork never lacks a directory |
| Invariants.SchedNextInv | sched.c:46-61 | dispatching restores the invariant from any state in which the running task has been put away, also when its directory is gone |
| Invariants.DirectoryAvailable | sched.c:120-132 | while a task structure is free some directory below NR_TASKS has no live user, by counting |
| Invariants.WakeAllInv | sys.c:296-300 | draining a whole queue keeps the invariant |
| Placement.OnePlace | sched.c:46-94 | in a state with the invariant a task is running, parked idle or at one position of one queue, and never at two |
| Placement.StepMembers | sys.c:243-252 | a step loses a task exactly when it re-initialises a semaphore the task is queued at, and lost tasks stay lost |
| Failures.TaskOrphaned | sys.c:243-252 | five calls from boot after which the first process is nowhere |
| Placement.RunPartition | sched.c:46-94 | over every run a task is still at its one place if and only if the run never orphaned it |
| Waiting.StepWait | sched.c:46-94 | no step raises a ready task's bound, and a tick lowers it |
| Waiting.BoundedWaiting | sched.c:46-94 | a task at position k of the ready queue is dispatched within max(1, remaining) plus the sum over the tasks ahead of max(1, quantum) ticks, whatever else happens |
| Waiting.StepWithin | sched.c:62-76 | no entry leaves the running task more than its own quantum |
| Waiting.RunWithin | sched.c:62-76 | so over every run, and no quantum ever exceeds the one task 1 starts with |
| Waiting.WaitsForQuanta | sched.c:46-76 | over every run a ready task is dispatched within the quantum of the running task plus the quanta of the tasks ahead, at least a tick each |
| Waiting.WaitsInTurn | sched.c:46-76 | over every run the task at position i of the ready queue runs before 300 * (i + 1) ticks |
| Calls.WhoRuns | sched.c:46-61 | after an exit, a block or a resumed read that blocks again the first ready task, or else idle, runs for its full quantum in its own directory; any other call leaves the running task and its time alone |
| Calls.TickExact | sched.c:62-76 | a tick takes one from the time left; at nothing left the running task goes last in the ready queue and the first takes over if there is one, else the quantum starts anew; nothing else changes |
| Calls.TasksKeep | sched.c:256-259 | a task keeps its pid until it exits and its quantum for good, whoever does what |
| Calls.MakesTask | sys.c:59-142 | fork and clone succeed exactly with a free structure and twenty frames, or accessible pointers; then they answer the child's pid, which is the next one, and the child, first of the free queue and last of the ready one, has the father's quantum and break; else the right error and no change |
| Births.RunPids | sched.c:256-259 | over every run the answers of fork and clone count on from the last pid one by one, modulo 2^32 |
| Births.PidsDiffer | sys.c:141 | so no pid is answered twice before the counter has gone round |
| Births.RunPidsOk | sched.c:256-259 | over every run in which the counter stays positive a pid names one live task at most |
| Calls.ExitLeaves | sys.c:144-157 | an exit puts the task without a pid last in the free queue and takes one user off its directory; no other task or queue changes but for the dispatch |
| Calls.SemInitExact | sys.c:243-252 | an init returns 0 exactly on a semaphore without owner, making the caller owner of an empty queue; else -119 and no change |
| Calls.SemWaitExact | sys.c:256-265 | a wait takes a unit and returns 0 if there is one, and otherwise puts the caller last in the queue and dispatches |
| Calls.SemSignalExact | sys.c:273-286 | a signal, unlinking once, returns 0 and wakes the first waiter alone or adds a unit |
| Calls.SemDestroyExact | sys.c:288-303 | a destruction, unlinking once, returns 0 to the owner alone, takes the owner away and readies all waiters in order |
| Calls.ResumeWaitExact | sys.c:266-269 | a resumed waiter gets 0 if and only if the semaphore has an owner, and -119 if and only if it has none; nothing else changes |
| WaitAnswers.StepOwner | sys.c:243-303 | the owner of a semaphore changes by a successful init or destruction and by nothing else anybody does |
| WaitAnswers.WaitAnswered | sys.c:256-271 | over every run from the call of a wait that blocks to its answer: 0 if and only if the semaphore has an owner then; so 0 if it had its owner all along, and -119 if it was destroyed and not initialised again |
| Calls.ReadAnswersOrBlocks | devices.c:18-61 | a read blocks exactly when it still wants keys and somebody is waiting or the ring holds fewer than it asked for, emptying a full ring first; otherwise it answers the number of keys handed over so far and now |
| Calls.KeyExact | interrupt.c:96-121 | a keystroke goes to the end of the ring or is dropped, and readies the first reader alone exactly when the ring then holds what that one still wants or the key was dropped; nothing else changes |
| SemaphoreLedger.WakeAllOrder | sys.c:296-300 | the draining loop, each waiter unlinked once, ends with the queue empty and all waiters behind the ready queue in order |
| SemaphoreLedger.StepLedger | sys.c:243-303 | every step of anybody balances counter, units granted, arrivals and departures of a semaphore, signal and destroy unlinking once |
| SemaphoreLedger.UnitsConserved | sys.c:256-286 | over every run, with the signal that finds its waiter, initial units plus signals are the units left plus the units granted, and the counter does not fall below zero |
| SemaphoreLedger.WaitersInOrder | sys.c:256-303 | over every run, with signal and destroy unlinking once, waiters leave in the order in which they blocked |
| SemaphoreLedger.SinceInit | sys.c:243-252 | from an init with a value that fits an int the counter is never negative and a non-empty queue means it is 0; a larger value starts negative |
| AsWritten.SignalMeets | sys.c:273-286 | the signal as written equals the signal if and only if it is refused or nobody waits |
| AsWritten.DestroyMeets | sys.c:288-303 | the destruction as written completes with the same kernel but for eight bytes if and only if it is refused, nobody waits, or page 0 of the current table is present; otherwise it faults |
| AsWritten.CompletedIsStep | sys.c:273-303 | a call as written that completes makes the step the ledger balances |
| Failures.SignalFaults | sys.c:280-283 | three calls from boot after which a signal as written faults |
| Failures.DestroyFaults | sys.c:297-299 | a run from boot after which the owner's destruction as written faults |
| KeyboardStream.StepStream | devices.c:18-61 | every step keeps the stream: unread and new keys are what was handed over and what is left |
| KeyboardStream.StreamConserved | devices.c:18-61 | over every run and any number of readers, keys handed over followed by the ring are the keys accepted, in order |
| KeyboardStream.ReadExact | devices.c:18-61 | a read is answered by one slice of exactly its length if and only if it asks for less than the ring's size; a longer one returns the next multiple of the capacity |
| KeyboardStream.ReadAnswered | devices.c:18-61 | over every run from the call of a read that blocks to its answer: a read that fits the ring is handed nothing before the answer and then one slice of the length first asked for |
| Failures.ReadTooLong | devices.c:25-51 | a run from boot in which a read of 4096 keys returns 8190 |
| KeyboardStream.LostWakeup | interrupt.c:107-117 | a waiting reader's demand becomes met without waking it exactly when a reader blocks behind another or beyond the ring's size, or when a key meets the demand of a reader that is not first |
| Failures.WakeupLost | interrupt.c:107-117 | a run of four events from boot after which a reader waits for a key that is there |
| KeyboardStream.SoloStep | interrupt.c:107-117 | with one reader at a time no wakeup is lost, and the key that completes its demand readies it in the same step |
| KeyboardStream.SoloRunWakes | devices.c:26-51 | so over every run with one reader at a time nobody waits for keys that are there |
| SpaceRuns.ForkRefused | sys.c:62-77 | fork is refused exactly for want of a task structure or of twenty frames, and then nothing has changed |
| SpaceRuns.ForkExact | sys.c:78-141 | the child is alone in a directory nobody used, queued last, with the father's bytes and shared code; no other space changes |
| SpaceRuns.ExitExact | sys.c:144-157 | frames are freed exactly when the last thread leaves (with the intended test), and no surviving task loses a page or a byte |
| SpaceRuns.CompiledExit | sys.c:151-153 | the compiled test agrees with the intended one exactly when a thread of the directory stays |
| SpaceRuns.StepKeepsData | sys.c:95-157 | no step of anybody changes the data pages of a directory that keeps a live user |
| SpaceRuns.ForkExitFrames | sys.c:144-157 | after any run in which the child's directory keeps a live user, the exit of its last thread frees exactly the frames the fork took |
| SpaceRuns.ForkThenExit | sys.c:144-157 | so if only scheduling, semaphores and typing happen in between, it restores the frame map from before the fork |
| SpaceRuns.StepClean | sys.c:144-157 | a step leaves data in a directory nobody uses exactly when it is the compiled exit of a last thread |
| SpaceRuns.RunClean | sys.c:151-153 | so over every run without such an exit dead directories hold no data and no frame is lost |
| FrameLedger.StepLeaks | sys.c:115-119 | every step keeps the set of lost frames but for a fork, which adds exactly the data frames it builds its child over |
| FrameLedger.StepNoLeak | sys.c:86-119 | a frame is lost exactly when a successful fork takes a directory that still maps data |
| FrameLedger.RunFrames | mm.c:222-254 | over every run, compiled exits included, the used user frames are eight, one for each mapped entry, and the lost ones, which are those of the forks that built over data |
| Failures.FramesLost | sys.c:86-119 | three calls from boot that lose twenty frames |
| SpaceRuns.SbrkExact | sys.c:305-349 | sbrk returns the old break and moves it, or fails exactly for want of frames and changes nothing; no other task or table changes |
| SpaceRuns.SbrkPages | sys.c:311-345 | with both breaks in the signed range: the break moves by the increment and the heap grows by the pages from that of the last byte in use to that of the new break, or -12 for want of frames and no change; a call that goes back or stays in that page maps nothing and never fails |
| SpaceRuns.SbrkSigned | sys.c:311-345 | the same for every break and increment, the addresses wrapping at 32 bits and read as signed ints |
| SpaceRuns.CoveredBytes | sys.c:310-314 | coverage is every byte between heap base and break being mapped; where it fails, the page after the heap lies below the break unmapped |
| SpaceRuns.StepCovered | sys.c:305-349 | a step of anybody uncovers the break of a live task exactly when that task moves it out of the signed range |
| SpaceRuns.SbrkOvershoots | sys.c:313-316 | such a call returns the old break as success and changes nothing but the break |
| Failures.BreakOvershoots | sys.c:313-316 | one call from boot that does it |
| SpaceRuns.RunCovered | sys.c:305-349 | over every run every heap byte below the break of a live task lies in a page that is present, for user code and writable |
| SpaceRuns.RunImages | mm.c:88-113 | over every run each live task but idle has all its code pages, on the shared frames, and all its data pages, writable and on used frames of their own, present for user code |
| SpaceRuns.ChildCovered | sys.c:59-142 | a forked child's inherited break is covered exactly when its directory still maps that many heap pages |
| Failures.ChildUncovered | sys.c:59-142 | two calls from boot after which a child's break lies over an unmapped page |
| SpaceRuns.DirPosInverts | sched.c:113-117 | get_DIR_pos inverts the array address arithmetic modulo 2^32, wherever the array lies |
| SpaceRuns.DirPosDistinguishes | sched.c:219-225 | comparing positions is comparing directories, so the switch skips CR3 exactly for threads of one process |
| SpaceRuns.NoStaleTranslation | sched.c:219-225 | in every reachable state CR3 names the current directory and every translation held is the one its table gives |
| Stats.TotalsAreElapsed | sched.c:262-272 | for every order of charges the four totals of a task are its last booking less its creation, modulo 2^32 |
| Stats.TotalsExact | sched.c:262-272 | and exactly that while its clock readings run forward |
| Stats.FromCreation | sched.c:143-153 | the child's books balance from its creation on, whatever was copied from the father |
| Stats.TaskStats.Update | sched.c:262-272 | update_stats in place charges one field, wrapping at 32 bits, and moves the time of the last booking |
| Stats.TaskStats.Init | sched.c:143-153 | init_task_stats in place empties the books at the present time |
| Stats.TimeKeeper.Update | sched.c:262-272 | everybody's accounts stay those of the list of calls made so far, each with its own reading of the clock |
| Stats.TimeKeeper.Make | sys.c:83-138 | copying the father's structure and resetting it leaves the child's account fresh and all others alone |
| TickRuns.RunTotals | sys.c:23-29 | over every run of the kernel a task that lives through it keeps its balance modulo 2^32, across traps, switches, wakeups, forks and exits, and exactly if its clock readings run forward |
| TickRuns.SwitchesBlocks | sched.c:57-60 | the outgoing task is booked exactly in the steps that preempt, exit or block |
| TickAccounts.SwitchAccount | sched.c:57-58 | the books of the outgoing task: user time up to the trap, system time from there to the switch, and a last reading as ready time; a preemption counts up to its second reading as user time |
| TickAccounts.DispatchAccount | sys.c:27-29 | the books of the task dispatched: all since its last booking is system time if it goes on in user code, else nothing is booked yet |
| TickAccounts.ReturnAccount | sys.c:23-29 | the books of a task that goes on: user time up to the trap and system time from there to the way out, whoever is made or woken in between |
| TickAccounts.WokenAccount | sched.c:89 | a woken task is charged all since its last booking as user time |
| TickRuns.BornBalanced | sys.c:138 | the step that makes a task leaves its books empty as of that reading of the clock |
| Boot.FirstFrames | mm.c:222-235 | the first allocations after boot hand out 256, 258, 260 and so on, so frame 256 is a code frame |
| Boot.UserEntries | mm.c:88-113 | set_user_pages gives each code and data page a free frame of its own, present for user code and writable only if it is data, and leaves the other entries |
| Boot.UserMapped | sched.c:180-183 | set_user_pages and set_cr3 on directory 1 turn the memory of init_mm into that of the boot state |
| Boot.BootInv | system.c:98-101 | the state in which the first process starts has the invariant, no leaked frame, no lost task and a covered break |
| Boot.BootEntries | mm.c:62-113 | every entry of every table and every bit of the frame map at boot, in numbers: present code and data of the first process, no kernel page for user code |
| Boot.BootExact | sched.c:154-206 | queues, counters, the two tasks and the semaphores at boot, in numbers |
| Boot.BootPids | sched.c:256-259 | from boot on the i-th successful fork or clone is answered 13 + i, and a pid names one live task at most |
| Boot.BootWaiting | sched.c:46-76 | from boot on, after any run, the task at position i of the ready queue runs before 300 * (i + 1) ticks |
| Boot.FromBoot | system.c:98-101 | so in every run from boot the invariant, the account of every frame and the partition hold, and frames are lost exactly as forks build over data |
| Zeos.System.constructor | sched.c:13-33 | the static storage before init_sched, over lists, ring and memory as their initialisers leave them |
| Zeos.System.Start | system.c:96-101 | init_sched, init_idle and init_task1 lead to exactly the boot state |
| Zeos.System.InitSched | sched.c:193-206 | ten tasks prepended to the free queue, the other lists empty, no semaphore initialised |
| Zeos.System.InitIdle | sched.c:154-169 | idle is the first free task, in the first free directory |
| Zeos.System.InitTask1 | sched.c:171-190 | task 1 is the next free task in the next directory, with fresh user pages, running on them with a full quantum and its break at the heap base |
| Zeos.System.AllocateDir | sched.c:120-132 | the search loop gives the task the first directory without references and counts it |
| Zeos.System.UpdateProcessState | sched.c:78-94 | a running task is linked nowhere and only appended, any other is unlinked from wherever it is first; a null destination makes it running; one made ready is booked in its first field |
| Zeos.System.TaskSwitch | sched.c:219-225 | current changes, and CR3 is written only for another directory |
| Zeos.System.SchedNextRr | sched.c:46-61 | the first ready task, or idle, is unlinked and dispatched with its quantum, the outgoing one booked twice |
| Zeos.System.NeedsSched | sched.c:70-76 | whether the quantum is over and somebody is ready; a used-up quantum is renewed otherwise |
| Zeos.System.ClockInterrupt | interrupt.c:128-132 | the clock interrupt makes the tick step, which Calls.TickExact pins field by field, counts zeos_ticks as a signed 32-bit int, and books |
| Zeos.System.SysFork | sys.c:59-142 | fork in place, with its refusals and the reset of the child's statistics, makes the fork step, whose answer and task Calls.MakesTask states and whose space SpaceRuns.ForkExact |
| Zeos.System.SysClone | sys.c:215-241 | clone in place, with its refusals and the reset of the child's statistics, makes the clone step, whose answer and task Calls.MakesTask states |
| Zeos.System.SysExit | sys.c:144-157 | exit in place, with the compiled or the intended test, makes the exit step |
| Zeos.System.SysSemInit | sys.c:243-252 | sem_init in place makes its step |
| Zeos.System.SysSemWait | sys.c:256-265 | sem_wait up to the switch, on a semaphore that exists, makes its step |
| Zeos.System.ResumeSemWait | sys.c:266-269 | the rest of a blocked wait makes the resume step, whose answer Calls.ResumeWaitExact states |
| Zeos.System.SysSemSignal | sys.c:273-286 | sem_signal, unlinking once, makes its step |
| Zeos.System.SysSemSignalWritten | sys.c:273-286 | sem_signal pointer by pointer as written: it goes on, faults on page 0, or takes what lies there for a task, as AsWritten says |
| Zeos.System.SysSemDestroy | sys.c:288-303 | sem_destroy, its loop unlinking each waiter once, terminates and makes its step |
| Zeos.System.SysSemDestroyWritten | sys.c:288-303 | sem_destroy with both unlinkings, the second storing through null links, completes or faults as AsWritten says |
| Zeos.System.SysSbrk | sys.c:305-349 | sbrk in place makes its step, which SpaceRuns.SbrkPages and SbrkSigned state in addresses |
| Zeos.System.KeyboardInterrupt | interrupt.c:96-121 | the keyboard interrupt in place makes the key step |
| Zeos.System.SysReadKeyboard | devices.c:18-61 | a read, copying loops included, makes the read step and puts exactly the keys of the step at the start of the buffer |
| Zeos.System.ResumeRead | devices.c:23-60 | the rest of a blocked read makes the resume step |
| Zeos.System.Handle | entry.S:72-118 | any trap, interrupt or continuation served in place makes the machine's step, with its reply and the keys it hands over, books all that is due on the way in and out, and keeps the invariant |
| Zeos.System.HandleAll | interrupt.c:68-70 | any sequence of entries served in place, each read keeping its caller's buffer, ends in the state of the machine's run with its replies, its slices and its bookings |
| Zeos.System.PowerOn | system.c:96-101 | the same from the initialisers on |

## Left out

- Inline assembly, register saving, kernel stacks and hand-built return frames (`entry.S`, `sched.c:226-253`, `sys.c:134-136`): below the C level; of a switch only the new current task and the CR3 decision remain.
- Boot loading, GDT, IDT, TSS and linker scripts; where the task array and its guard pages lie is a constant of unknown value.
- monoprocess_init_addr_space is not part of this model; boot starts from kernel tables without user entries.
- Screen output, sys_write, the clock display and the libc wrappers: device I/O and thin traps.
- access_ok, file-descriptor and permission checks: single-branch checks; clone takes their outcome as a parameter.
- sys_getpid, sys_gettime and sys_get_stats: reads of one field or one search.
- The scan code table of `interrupt.c:17-33`; the key step takes the translated key, and key releases do nothing.
- set_quantum: quanta are fixed per task, as no system call changes them.
- SemaphoreLedger.UnitsConserved: the runs contain the calls with one unlinking; as written a signal with a waiter never completes, so nothing is conserved across it.
- AsWritten.SemSignalWritten: ends where the kernel takes address 0 for a task, since it then follows whatever pointers lie there.
- Zeos.System.SysSemWait: number 20, which reads behind the array, and a semaphore never initialised, whose queue is null, are left out; likewise for signal and destroy.
- Zeos.System.AllocateDir: asks for a free directory, which `sched.c:126-130` does not test; Invariants.DirectoryAvailable proves that there is one at every call.
- Waiting.BoundedWaiting: a bound in clock ticks; that ticks keep coming is up to the clock.
- KeyboardStream.SoloRunWakes: claimed for one reader at a time and requests below the ring's size; with more, KeyboardStream.LostWakeup gives the exact condition, as woken readers block again while another waits (`devices.c:26`).
- Stats.TaskStats.Init: one reading of the clock serves both fields; the second reading of `sched.c:148` fills remaining_ticks, which nothing reads.
- `total_trans`, which the code does not maintain, and what the other fields of struct stats are meant to show; TickAccounts says what they hold.
- Wrap-around of `remaining_ticks` under an idle that runs alone for 2^31 ticks, and of a semaphore counter after 2^31 signals.
- The size of the kernel stack that sbrk's two local arrays need.
- Stores of user code between steps are no events of the machine; AddressSpaces.StoreReach says what they can reach. The buffer of a read is separate from kernel storage.
- The blocked queue of `devices.c:7` and `blockedqueue` of `sched.c:22`, which nothing is ever put on.

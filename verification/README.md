# Verification of the Xyris kernel

A Dafny model of the parts of the Xyris kernel (i686) whose correctness is least visible from reading one
function: the task scheduler and the primitives built on it, memory management, calendar arithmetic, the
`printf` machine, the prime sieve and the doubly linked list. Check everything with
`dafny verify dfyconfig.toml`.

## What is modelled

**Scheduler.** `SchedulerSpec` gives every operation of `tasks.cpp` as a function on values: lists are
sequences, one application is one stretch with interrupts off on one CPU. A task that does not execute has a resumption
point: it starts, or it returns into its own release; a switch leaves one behind and goes on at another, and
only the code there lowers the lock. `SchedulerRuns` proves what all
runs of operations keep: each task is in the one place its state names, the lock counters are at rest between
sections, the ready list is first in first out, and a task at position k is the (k+1)-th to be switched to.
`SchedulerEffects` says what each operation does field by field, and when time slices end.
`Scheduler` is the code itself, a class over the memory of the task blocks: all lists share one `next` field
per task, tasks are addresses, and every method is proved to do to the lists what its namesake in
`SchedulerSpec` does. `TaskLists` and `TaskMemory` hold the reasoning about chains; `SchedulerRefinement` joins
memory and runs. `ContextSwitch` is `tasks.s` on a machine with registers and word memory, and the stack that
`tasks_new` builds.

**Locks.** `Mutex`, `Semaphore` and `CxaGuard` are protocols between any number of tasks. A step is one atomic
instruction or one stretch with interrupts off; other tasks may do anything between two steps. `LockScheduling`
runs mutex and semaphore on the scheduler: their waiting lists are its waiting lists, and a step needs no more than
that the CPU runs the task and the program counter allows it.

**Memory.** `Words` and `Bitset` are the packed bitmap and its shifted two-word window. `Physical` is the frame
allocator, `Paging` the kernel page tables with their bitmap, `PageRuns` the runs of pages both search for. `AddressMap` is the flat map from pages to frames
that the virtual memory manager implements, `VirtualMemory` its two-level form.

**Library.** `Calendar` (date to epoch and back), `PrintfSpec` and `Printf` (a grammar with a rendering, and the
fall-through state machine that refines it), `PrintfLaws` (what grammar and rendering mean), `Primes` (the sieve on the packed bitmap), `LinkedList`.

Heap objects whose fields the C++ code links together (task blocks, list nodes) are modelled as one map per
field from addresses to values, with 0 as NULL, and `new` hands out an address no object has. Integers are
unbounded; where 32 bits matter the wrap-around is written out. The clock, `va_arg` words, the strings behind
pointers and memory past the end of an array are parameters.

## Where the code and its documentation disagree

The model follows the code. Each entry names the lemma that says exactly when the code does what it promises.

- `FindFirstRange` with `isSet` compares a masked window with 1, so it finds a run of set bits only for runs of
  length one (`SetSearchMeetsItsDocumentation`).
- `tasks_exit` unblocks the cleaner without looking at its state; a cleaner that is ready and not last on the
  ready list cuts off the tasks behind it, and one that is asleep, blocked or stopped stays on that list
  (`ExitKeepsPlacesIff`; `ExitLosesTask` gets to a lost task from the start).
- The cleaner locks the mutex of the page tables while it has the scheduler locked. When another task holds that
  mutex, the loop of `lock` can neither switch nor end (`LockInSectionIff`).
- A task may block on a mutex or semaphore after the last wakeup has gone by (`StrandsIff` in both modules, with
  a run each in `StrandedWaiter`).
- `findFirstFreePageRange` answers in front of its range exactly when `BelowTheRange` says so (`AnswersBelow` is such
  an answer), and can miss a run in a last partial table exactly for the ranges of `MissesIff`.
- `map` does not notice a failed search. The address it then maps lies in the last page, under the last directory
  entry. `initDirectory` writes that entry with `.present = 0` (Kernel/Memory/Virtual.cpp:106-117), so that as written
  the directory itself is written; only with the entry present is it the panic about an address in use
  (`FailedSearch`, `FailedRequest`). On success `map` returns the address behind the last page.
- `initialize` rounds a misaligned section base down and then frees a frame that begins in front of the section
  (`FreesOnlyInside`).
- `newPage` takes one page more than a size of whole pages needs (`OnePageTooMany`). Its NULL is also the address of
  page 0, which is harmless as long as early memory keeps page 0 mapped (`NullMeansFailureAlways`), but `freePage`
  can unmap it (`NullReached`).
- `freePage` looks only at the table index of the address and takes frame numbers for addresses: it unmaps the run
  it is given only in the first table (`FreesTheRunIff`), keeps mapped frames in use only on the condition of
  `FreeKeepsIff`, and undoes `newPage` only for one page on frame 0 (`AllocateFreeIff`).
- `printf_helper` steps over the end of some formats (`OverrunExactly`), ignores the width of `%x`
  (`HexWidthIff`, `HexWidthIgnored`), does not shorten `%h` numbers (`ShortPrintedIff`, `ShortOverflows`), and pads a
  NUL character one short (`CharFieldFilledIff`, `CharFieldShort`).
- A semaphore count wraps when a post finds it at its largest value (`ExactUntilOverflow`, `PostOverflows`).

## Model

| member | source | states |
|---|---|---|
| SchedulerRuns.StepSettles | Kernel/Scheduler/tasks.cpp:48-56 | every operation, from a state in which each task is in the one place its state names and the locks are at rest, ends in such a state again |
| SchedulerRuns.Run | Kernel/Scheduler/tasks.cpp:48-602 | any run of legal operations, with any clock, ends in a settled state: the place invariant over whole runs |
| SchedulerRuns.Next | Kernel/Scheduler/tasks.cpp:48-602 | one operation of a run leads from a settled state to a settled state and keeps the cleaner known |
| SchedulerRuns.InitialSettled | Kernel/Scheduler/tasks.cpp:151-187 | the state `tasks_init` leaves is settled |
| SchedulerRuns.BodyPlaced | Kernel/Scheduler/tasks.cpp:422-602 | the body of every operation keeps every task in its place, and the old ready list is a prefix of the new one |
| SchedulerRuns.StepIsBodyThenDispatch | Kernel/Scheduler/tasks.cpp:78-98 | however its locked sections nest, an operation is its body followed by one dispatch exactly when it asked for a schedule; when the dispatch switches, what follows is the code at the resumption point of the task switched to |
| SchedulerRuns.InSection | Kernel/Scheduler/tasks.cpp:78-98 | inside any nesting of acquire, schedule and release nothing moves but the counters: lock less postpone count stays 0, or 1 while idling, and the postponed flag remembers every request |
| SchedulerRuns.SectionServesRequests | Kernel/Scheduler/tasks.cpp:85-98 | the outermost release serves the requests of its section with one dispatch, made at lock one and postpone count zero and followed by whatever runs next, and dispatches nothing when there were none |
| SchedulerRuns.StepHandsOver | Kernel/Scheduler/tasks.cpp:189-200 | an operation switches at most once, at lock one and postpone count zero; the task switched to had a resumption point, and the code there, the end of its own release or `_task_starting`, leaves the lock at zero; a task put away will return into its release, a new one will start |
| SchedulerRuns.LockHandedOver | Kernel/Scheduler/tasks.cpp:78-98 | over every run from the start: all switches were made at lock one and postpone count zero, every task but the executing one has exactly one resumption point, and both counters are zero whenever a task runs between operations |
| SchedulerRuns.SwitchResumes | Kernel/Scheduler/tasks.cpp:403 | the head of the ready list has a resumption point, and going on there uses it up and takes the lock from one to zero |
| SchedulerRuns.BodyPointed | Kernel/Scheduler/tasks.cpp:289-334 | bodies touch the resumption points only of tasks they create or give back |
| SchedulerRuns.ReadyIsFifo | Kernel/Scheduler/tasks.cpp:221-255 | whatever the operation, ready tasks enter at the tail only and leave at the head only, by being switched to |
| SchedulerRuns.BoundedWaiting | Kernel/Scheduler/tasks.cpp:279-287 | over every run the task at position k of the ready list is the (k+1)-th switched to, and until then moves up one place per switch |
| SchedulerRuns.DispatchTakesHead | Kernel/Scheduler/tasks.cpp:360-403 | a dispatch makes the head of the ready list the current task and keeps the others in order |
| SchedulerRuns.DispatchSettles | Kernel/Scheduler/tasks.cpp:348-404 | a dispatch ends with exactly the current task running, or idles with the borrowed task and no time slice |
| SchedulerRuns.DuePartition | Kernel/Scheduler/tasks.cpp:459-471 | the sweep loses and duplicates no sleeping task: due and not-due tasks together are the old list |
| SchedulerRuns.DueInOrder | Kernel/Scheduler/tasks.cpp:459-471 | both parts of the sweep keep the order of the old list |
| SchedulerRuns.SweepPlaced | Kernel/Scheduler/tasks.cpp:459-471 | after the sweep every task is in its place and the ready list is its old contents followed by the due tasks in order |
| SchedulerRuns.NotifyPlaced | Kernel/Scheduler/tasks.cpp:583-599 | waking a waiting list moves all of it, in order of arrival, to the tail of the ready list and keeps every task in its place |
| SchedulerRuns.BlockPlaced | Kernel/Scheduler/tasks.cpp:560-573 | a task that blocks is on the one waiting list it blocked on |
| SchedulerRuns.SleepPlaced | Kernel/Scheduler/tasks.cpp:494-504 | a task that sleeps is on the sleeping list and nowhere else |
| SchedulerRuns.CleanPlaced | Kernel/Scheduler/tasks.cpp:529-558 | giving back all stopped tasks leaves every other task in its place |
| SchedulerRuns.NewPlaced | Kernel/Scheduler/tasks.cpp:309-333 | a new ready or paused task is in its place and disturbs no other |
| SchedulerRuns.ExitPlaced | Kernel/Scheduler/tasks.cpp:511-527 | an exit with the cleaner paused or last on the ready list keeps every task in its place |
| SchedulerRuns.ExitLosesLast | Kernel/Scheduler/tasks.cpp:520-524 | an exit with the cleaner ready and not last leaves the last ready task ready and on no list |
| SchedulerRuns.ExitStraysCleaner | Kernel/Scheduler/tasks.cpp:520-524 | an exit with the cleaner asleep, blocked or stopped makes it ready or running and leaves it on its old list |
| SchedulerRuns.ExitKeepsPlacesIff | Kernel/Scheduler/tasks.cpp:520-524 | whatever state the cleaner is in, an exit keeps the place invariant if and only if the cleaner is paused or last on the ready list |
| SchedulerRuns.ExitLosesTask | Kernel/Scheduler/tasks.cpp:520-524 | for any five tasks, a legal run of four operations from the start leads to a state in which one more exit drops the last ready task from the ready list |
| SchedulerRuns.FollowReaches | Kernel/Scheduler/tasks.cpp:511-527 | states that follow one another by legal operations are the states of a legal run |
| SchedulerRuns.TimerPlaced | Kernel/Scheduler/tasks.cpp:448-492 | the timer keeps every task in its place, whatever it wakes, and leaves the running task running |
| SchedulerEffects.YieldEffect | Kernel/Scheduler/tasks.cpp:406-414 | the running task goes to the tail and the head of the ready list runs with a whole slice; with nobody ready only the slice starts anew |
| SchedulerEffects.PauseEffect | Kernel/Scheduler/tasks.cpp:422-429 | the running task is paused and on no list, and the head of the ready list runs, or the CPU idles on its stack without a slice |
| SchedulerEffects.WakeEffect | Kernel/Scheduler/tasks.cpp:431-438 | a paused task becomes ready, at the tail, and nothing else moves |
| SchedulerEffects.SleepEffect | Kernel/Scheduler/tasks.cpp:494-504 | the running task is last on the sleeping list with the wakeup time it asked for, and gives way |
| SchedulerEffects.TimerEffect | Kernel/Scheduler/tasks.cpp:448-492 | exactly the sleepers whose time has come wake, in order; if there are some or the slice has run out the running task gives way to the head of all ready tasks, or gets a new slice when there are none; otherwise nothing but the clock moves |
| SchedulerEffects.SwitchSetsDeadline | Kernel/Scheduler/tasks.cpp:398-403 | a switch at `now` lets the task switched to run until now + 1000000 |
| SchedulerEffects.DeadlineKept | Kernel/Scheduler/tasks.cpp:473-489 | while others are ready, an operation that does not switch keeps the end of the slice, and a timer is one of them only before that end |
| SchedulerEffects.SliceRunsOut | Kernel/Scheduler/tasks.cpp:473-489 | over every run, while others are ready the running task is switched away from no later than the first timer at or after the end of its slice |
| SchedulerEffects.HeadTakesOver | Kernel/Scheduler/tasks.cpp:473-489 | and the task switched to is the one that was at the head of the ready list |
| SchedulerEffects.TicksSwitchIff | Kernel/Scheduler/tasks.cpp:473-489 | a run of timer ticks between two dispatches switches if and only if one of them comes at or after the end of the slice, and otherwise leaves everything but the clock as it was |
| SchedulerEffects.RunSliced | Kernel/Scheduler/tasks.cpp:362-400 | over every run a running task has between 1 and 1000000 of its slice left, and an idle CPU none |
| SchedulerEffects.ExitEffect | Kernel/Scheduler/tasks.cpp:511-527 | the running task is last on the stopped list, the cleaner is ready, and the head of the ready list runs |
| SchedulerEffects.CleanEffect | Kernel/Scheduler/tasks.cpp:540-558 | exactly the stopped tasks are forgotten, the cleaner is paused, and the head of the ready list runs |
| SchedulerEffects.WaitEffect | Kernel/Scheduler/tasks.cpp:560-573 | the running task is last on its waiting list, blocked, and gives way |
| SchedulerEffects.NotifyEffect | Kernel/Scheduler/tasks.cpp:575-602 | the waiting list is empty, its tasks are ready in order with the largest wakeup time, and the running task goes behind them |
| SchedulerEffects.CreateEffect | Kernel/Scheduler/tasks.cpp:322-333 | the new task is in the state asked for, at the tail of the ready list exactly when that is ready, and nothing else moves |
| SchedulerEffects.IdleEffect | Kernel/Scheduler/tasks.cpp:379-403 | the head of the ready list runs with a whole slice, and the task that lent its stack keeps its state |
| TaskLists.EnqueuedTwice | Kernel/Scheduler/tasks.cpp:221-233 | enqueueing a task that is on the list already cuts the list off behind it, and changes nothing exactly when it is the last one |
| TaskLists.LinksUnique | Kernel/Scheduler/tasks.cpp:48-56 | head and `next` fields determine the list: two readings of one chain are the same |
| TaskLists.ChainEnqueued | Kernel/Scheduler/tasks.cpp:221-233 | the writes of `_enqueue_task` leave a NULL-ended chain with `tail` its last task, also when the task was on the list |
| TaskLists.ChainDequeued | Kernel/Scheduler/tasks.cpp:235-255 | the writes of `_dequeue_task` leave the chain of the rest |
| TaskLists.ChainRemoved | Kernel/Scheduler/tasks.cpp:257-277 | the writes of `_remove_task` close the chain around the task |
| TaskMemory.RelinkedWell | Kernel/Scheduler/tasks.cpp:44-56 | relinking one list keeps all lists acyclic, NULL-ended and disjoint although they share one `next` field |
| Schedulers.Scheduler.constructor | Kernel/Scheduler/tasks.cpp:151-187 | the boot task runs, the cleaner is paused, all lists are empty |
| Schedulers.Scheduler.EnqueueTask | Kernel/Scheduler/tasks.cpp:221-233 | appends to the list and leaves every other list alone |
| Schedulers.Scheduler.DequeueTask | Kernel/Scheduler/tasks.cpp:235-255 | takes the head off the list, or answers NULL on an empty one |
| Schedulers.Scheduler.RemoveTask | Kernel/Scheduler/tasks.cpp:257-277 | takes the task at position k off the list |
| Schedulers.Scheduler.SwitchTo | Kernel/Arch/i686/Assembly/tasks.s:29-46 | a running task is requeued at the tail, the task put away will return into its release, the next one runs and is current |
| Schedulers.Scheduler.Schedule | Kernel/Scheduler/tasks.cpp:348-404 | postponed, kept running, switched or idling, as the specification has it |
| Schedulers.Scheduler.IdleEnd | Kernel/Scheduler/tasks.cpp:379-403 | when a task is ready the borrowed task is put away with its own resumption point, and the task switched to goes on at its own |
| Schedulers.Scheduler.Release | Kernel/Scheduler/tasks.cpp:85-98 | serves a postponed request at postpone count zero; lowers the lock itself only when its schedule comes back, and leaves that to the task switched to otherwise |
| Schedulers.Scheduler.Resume | Kernel/Arch/i686/Assembly/tasks.s:56-60 | the task switched to goes on where its stack says, in its own release or in `_task_starting`, and that point is used up |
| Schedulers.Scheduler.Acquire | Kernel/Scheduler/tasks.cpp:78-83 | raises both counters and nothing else |
| Schedulers.Scheduler.TasksSchedule | Kernel/Scheduler/tasks.cpp:406-414 | is the yield of the specification on the linked lists |
| Schedulers.Scheduler.TasksBlockCurrent | Kernel/Scheduler/tasks.cpp:422-429 | is the block of the specification on the linked lists |
| Schedulers.Scheduler.TasksUnblock | Kernel/Scheduler/tasks.cpp:431-438 | is the unblock of the specification for a task that is on no list, or on the ready list |
| Schedulers.Scheduler.Wakeup | Kernel/Scheduler/tasks.cpp:440-446 | the task is ready, at the tail, with the largest wakeup time and a cleared `next` |
| Schedulers.Scheduler.Sweep | Kernel/Scheduler/tasks.cpp:452-471 | the pointer walk that unlinks due tasks while appending them to the ready list, by the same `next` field, is the stable partition of the specification |
| Schedulers.Scheduler.SweepRound | Kernel/Scheduler/tasks.cpp:459-471 | one round of the walk: the pointer taken before the relinking still leads to the next sleeping task |
| Schedulers.Scheduler.Tick | Kernel/Scheduler/tasks.cpp:473-485 | a slice that is running loses the time since the last tick, or has run out exactly when that time is all of it; without a slice nothing changes |
| Schedulers.Scheduler.OnTimer | Kernel/Scheduler/tasks.cpp:448-492 | is the timer of the specification on the linked lists, whose effect `SchedulerEffects.TimerEffect` gives |
| Schedulers.Scheduler.TasksNanoSleepUntil | Kernel/Scheduler/tasks.cpp:494-504 | is the sleep of the specification on the linked lists |
| Schedulers.Scheduler.TasksExit | Kernel/Scheduler/tasks.cpp:511-527 | is the exit of the specification, also with the cleaner already ready |
| Schedulers.Scheduler.CleanAll | Kernel/Scheduler/tasks.cpp:529-558 | every stopped task is given back, the stopped list ends empty |
| Schedulers.Scheduler.CleanerRound | Kernel/Scheduler/tasks.cpp:540-558 | is the cleaner round of the specification on the linked lists |
| Schedulers.Scheduler.TasksSyncBlock | Kernel/Scheduler/tasks.cpp:560-573 | is the sync block of the specification on the linked lists |
| Schedulers.Scheduler.WakeLoop | Kernel/Scheduler/tasks.cpp:584-595 | the waiting list is woken first to last although its head and tail are stale and its `next` fields are being reused |
| Schedulers.Scheduler.TasksSyncUnblock | Kernel/Scheduler/tasks.cpp:575-602 | is the sync unblock of the specification on the linked lists |
| Schedulers.Scheduler.TasksNew | Kernel/Scheduler/tasks.cpp:322-333 | is the creation of the specification on the linked lists |
| SchedulerRefinement.Perform | Kernel/Scheduler/tasks.cpp:48-602 | every legal operation on the memory is the step of the run it stands for, and leaves the memory fit for the next one |
| SchedulerRefinement.QuietMemory | Kernel/Scheduler/tasks.cpp:48-56 | in a settled memory the current task runs and its block is on no list |
| ContextSwitch.RoundTrip | Kernel/Arch/i686/Assembly/tasks.s:17-60 | a task that switches away and is switched to again after any run of other tasks, in which stack pages may be given back and used again, returns with its stack pointer, four registers and return address |
| ContextSwitch.RoundTripStack | Kernel/Arch/i686/Assembly/tasks.s:17-60 | and finds every word of its stack as it left it |
| ContextSwitch.RunSpares | Kernel/Arch/i686/Assembly/tasks.s:29-46 | over any run of switches, code of other tasks, creations and clean-ups, a task that does not run keeps its stack, its place on it, and its page to itself |
| ContextSwitch.SelfSwitch | Kernel/Arch/i686/Assembly/tasks.s:38-60 | the idle task switching to itself returns with its registers |
| ContextSwitch.SwitchRuns | Kernel/Arch/i686/Assembly/tasks.s:29-56 | the next task is current and running under its own page directory, and the previous one is enqueued exactly when it was running |
| ContextSwitch.SwitchRequeues | Kernel/Arch/i686/Assembly/tasks.s:31-34 | the previous task becomes ready exactly when it was running, and all other tasks keep their state |
| ContextSwitch.SwitchIsScheduled | Kernel/Arch/i686/Assembly/tasks.s:29-46 | on current task, states and ready list the instructions are the switch of the scheduler |
| ContextSwitch.FirstSwitch | Kernel/Scheduler/tasks.cpp:304-322 | the first switch to a new task, however late, starts `_task_starting` with the entry, `_task_stopping` and a null frame above it |
| ContextSwitch.StartsThenStops | Kernel/Scheduler/tasks.cpp:306-316 | from there the code returns into the entry and the entry into `_task_stopping` |
| ContextSwitch.Cpu.TasksSwitchTo | Kernel/Arch/i686/Assembly/tasks.s:17-60 | the instructions put the running task away, requeue it if it was running, and take the next one up, as the switch of `SwitchRuns` and `RoundTrip` does |
| ContextSwitch.Cpu.CallSwitchTo | Kernel/Arch/i686/Assembly/tasks.s:17-60 | with the caller's pushes they are the switch the round trip speaks of; the next task is current, running and under its page directory, and the previous one is enqueued exactly when it was running |
| Mutexes.MutualExclusion | Kernel/Locking/Mutex.cpp:20-44 | over any interleaving of any number of tasks at most one is between a successful lock or tryLock and its unlock |
| Mutexes.StepSound | Kernel/Locking/Mutex.cpp:20-44 | every step keeps the flag set exactly while one task holds the mutex |
| Mutexes.StepListed | Kernel/Locking/Mutex.cpp:20-44 | every step keeps the waiting list the blocked tasks, each once |
| Mutexes.WakeAllMoves | Kernel/Scheduler/tasks.cpp:583-599 | the wake-all step moves the whole waiting list in order of arrival to the ready tail and empties it; those tasks and no others may try again |
| Mutexes.StrandsIff | Kernel/Locking/Mutex.cpp:22-23 | a step leaves a waiter with no wakeup to come if and only if it blocks after the flag was cleared and the wakeup is over |
| Mutexes.RunStrandsNobody | Kernel/Locking/Mutex.cpp:20-44 | a run without such a step ends with no waiter stranded |
| Mutexes.StrandedWaiter | Kernel/Locking/Mutex.cpp:22-41 | a legal run of five steps that ends with a waiter nobody will wake |
| Mutexes.MutexObject.LockRound | Kernel/Locking/Mutex.cpp:22-23 | one test-and-set makes the caller the only holder, or refuses exactly when some task holds the mutex |
| Mutexes.MutexObject.TryToLock | Kernel/Locking/Mutex.cpp:29-36 | takes the mutex exactly when nobody holds it, and then the caller alone does |
| Mutexes.MutexObject.ClearFlag | Kernel/Locking/Mutex.cpp:40 | nobody holds the mutex any more, whoever tries next gets it, a wakeup is due, and the invariants hold |
| Mutexes.MutexObject.SyncUnblock | Kernel/Locking/Mutex.cpp:41 | all waiting tasks may try again, nobody is stranded, and the invariants hold |
| Semaphores.Conservation | Kernel/Locking/Semaphore.cpp:15-79 | under any interleaving the count is initial plus posts less acquisitions, modulo 2^32, and exactly so without overflowing posts |
| Semaphores.ExactUntilOverflow | Kernel/Locking/Semaphore.cpp:73-75 | a step keeps the count exact if and only if it is not a post at the largest count |
| Semaphores.PostOverflows | Kernel/Locking/Semaphore.cpp:73-75 | a post at the largest count leaves a count of zero with 2^32 to take |
| Semaphores.WaitTakesOne | Kernel/Locking/Semaphore.cpp:31-43 | over any interleaving, a task has taken exactly one when its call of wait returns, and none before |
| Semaphores.ExchangeTakesOne | Kernel/Locking/Semaphore.cpp:15-21 | an exchange takes one from a count above zero or takes nothing, also when a failure reloads zero |
| Semaphores.StrandsIff | Kernel/Locking/Semaphore.cpp:35-38 | a step leaves a waiter stranded beside a positive count if and only if it blocks after the post and its wakeup |
| Semaphores.RunStrandsNobody | Kernel/Locking/Semaphore.cpp:31-79 | a run without such a step ends with no waiter stranded |
| Semaphores.StrandedWaiter | Kernel/Locking/Semaphore.cpp:31-79 | a legal run of five steps that ends with a waiter nobody will wake beside a count of one |
| Semaphores.StepListed | Kernel/Locking/Semaphore.cpp:31-79 | every step keeps the waiting list the blocked tasks, each once |
| Semaphores.SemaphoreObject.CompareExchange | Kernel/Locking/Semaphore.cpp:15-21 | succeeds exactly when the count is the expected one and then takes one from it; otherwise the expected value is reloaded and, unless zero, the exchange is tried again; the invariants hold |
| Semaphores.SemaphoreObject.LoadCount | Kernel/Locking/Semaphore.cpp:33-37 | zero is read exactly when the task goes on to block, and otherwise it goes on to an exchange that takes one if nothing steps in between; the invariants hold |
| Semaphores.SemaphoreObject.FetchAdd | Kernel/Locking/Semaphore.cpp:75 | the balance grows by one, an exact count stays exact unless it was at its largest, and a wakeup is due |
| Semaphores.SemaphoreObject.SyncUnblock | Kernel/Locking/Semaphore.cpp:76 | all waiting tasks may load the count again, nobody is stranded, and the invariants hold |
| Semaphores.SemaphoreObject.SyncBlock | Kernel/Locking/Semaphore.cpp:36 | the caller was on no list and becomes the last waiter, stranded exactly beside a positive count with no wakeup due; the invariants hold |
| Mutexes.MutexObject.SyncBlock | Kernel/Locking/Mutex.cpp:23 | the caller was on no list and becomes the last waiter, stranded exactly when no wakeup is due; the invariants hold |
| Semaphores.SemaphoreObject.TryWaitAlone | Kernel/Locking/Semaphore.cpp:45-56 | undisturbed, tryWait takes one exactly when the count was positive |
| CxaGuards.OneTimeConstruction | Kernel/Support/cxa_guard.cpp:78-103 | over any interleaving acquire returns 1 at most once per guard, every return of 0 saw the guard initialised, no task panics, and initialisers do not overlap |
| CxaGuards.InitialisedForGood | Kernel/Support/cxa_guard.cpp:80-103 | over every run an initialised guard stays so |
| CxaGuards.NoBadState | Kernel/Support/cxa_guard.cpp:86-93 | at the second check a guard is in use exactly when it is initialised, so the panic is unreachable |
| CxaGuards.GuardTable.FirstCheck | Kernel/Support/cxa_guard.cpp:80-82 | returns 0 exactly on an initialised guard, goes on to the lock otherwise, and keeps the invariants |
| CxaGuards.GuardTable.SecondCheck | Kernel/Support/cxa_guard.cpp:86-96 | never panics; returns 0 exactly on an initialised guard, and 1 to a caller that is then its only constructor |
| CxaGuards.GuardTable.SetInitialized | Kernel/Support/cxa_guard.cpp:99-103 | the guard and no other becomes initialised, nobody constructs it any more, and the invariants hold |
| CxaGuards.StepSound | Kernel/Support/cxa_guard.cpp:78-103 | every step keeps: a guard in use is initialised or has one constructor, which holds the mutex |
| LockScheduling.MutexJointRun | Kernel/Locking/Mutex.cpp:20-44 | whenever the CPU runs a task, the task may take the step its program counter allows, a waiting one its next test-and-set; every such run is a legal run of the mutex protocol, since the scheduler runs no waiting task, and ends with the two waiting lists the same |
| LockScheduling.MutexOnScheduler | Kernel/Locking/Mutex.cpp:20-44 | over every run of the kernel from the start no two tasks hold the mutex, and the waiting tasks are those on the scheduler's list |
| LockScheduling.CurrentMayLock | Kernel/Locking/Mutex.cpp:22-23 | a step that the program counter of the running task allows is a legal step of the protocol |
| LockScheduling.SemaphoreJointRun | Kernel/Locking/Semaphore.cpp:31-79 | the same of a semaphore: every such run is a legal run of its protocol and ends with the two waiting lists the same |
| LockScheduling.SemaphoreOnScheduler | Kernel/Locking/Semaphore.cpp:31-79 | over every run of the kernel from the start the count is initial plus posts less acquisitions in 32 bits, and the waiting tasks are those on the scheduler's list |
| LockScheduling.LockInSectionIff | Kernel/Scheduler/tasks.cpp:529-534 | a lock taken inside a locked section of the scheduler, as the cleaner takes that of the page tables, returns with nothing changed if and only if the flag is clear; otherwise the task is blocked while it executes, nothing is switched, and no number of rounds ends the loop |
| LockScheduling.BlockInside | Kernel/Scheduler/tasks.cpp:560-573 | `tasks_sync_block` inside a locked section enqueues and marks the task without switching, and a second call changes nothing |
| LockScheduling.MutexRuns | Kernel/Scheduler/tasks.cpp:560-602 | a step of the mutex is one operation of the scheduler and keeps its waiting list the scheduler's |
| LockScheduling.MutexRests | Kernel/Scheduler/tasks.cpp:348-558 | no other operation touches that waiting list, and a waiting task is not the one the CPU runs |
| LockScheduling.SemaphoreRuns | Kernel/Scheduler/tasks.cpp:560-602 | a step of the semaphore is one operation of the scheduler and keeps its waiting list the scheduler's |
| LockScheduling.SemaphoreRests | Kernel/Scheduler/tasks.cpp:348-558 | no other operation touches that waiting list, and a waiting task is not the one the CPU runs |
| LockScheduling.WaitingAfter | Kernel/Scheduler/tasks.cpp:348-602 | waiting lists move by sync block, at the tail, and by sync unblock, as a whole, and by nothing else |
| LockScheduling.WokenJoinReady | Kernel/Scheduler/tasks.cpp:583-599 | the woken tasks join the tail of the ready list in order of arrival |
| Words.MaskedZero | Kernel/Library/Bitset.hpp:94-102 | the masked word is zero exactly when its low bits are all clear |
| Words.SetOneBit | Kernel/Library/Bitset.hpp:40 | joining the word with a one shifted by o sets bit o and keeps the others |
| Words.ClearOneBit | Kernel/Library/Bitset.hpp:46 | masking with its complement clears bit o and keeps the others |
| Bitsets.WindowBit | Kernel/Library/Bitset.hpp:96-100 | bit p of the shifted two-word window is bit i + p of the bitmap, across word boundaries and whatever lies past the last word |
| Bitsets.WindowAccepts | Kernel/Library/Bitset.hpp:96-104 | the masked window equals `isSet` exactly when the bit-by-bit test accepts the position |
| Bitsets.SetSearchMeetsItsDocumentation | Kernel/Library/Bitset.hpp:83-102 | a search for set bits finds runs of set bits if and only if the run length is one |
| Bitsets.Bitset.constructor | Kernel/Library/Bitset.hpp:25-32 | every bit has the default value |
| Bitsets.Bitset.Set | Kernel/Library/Bitset.hpp:37-41 | sets one bit and no other |
| Bitsets.Bitset.Clear | Kernel/Library/Bitset.hpp:43-47 | clears one bit and no other |
| Bitsets.Bitset.Test | Kernel/Library/Bitset.hpp:50 | reads the bit |
| Bitsets.Bitset.FindFirstBit | Kernel/Library/Bitset.hpp:72-81 | the lowest bit of the wanted value, or npos exactly when there is none |
| Bitsets.Bitset.FindFirstRange | Kernel/Library/Bitset.hpp:91-108 | the lowest accepted window start below size - count, or npos exactly when there is none |
| Physical.TakenCount | Kernel/Memory/Physical.hpp:128-138 | a frame handed out leaves one free frame less |
| Physical.NoneFree | Kernel/Memory/Physical.hpp:130-133 | the search fails exactly when no frame is free |
| Physical.FreesOnlyInside | Kernel/Memory/Physical.hpp:61-66 | an available section frees only frames inside it if and only if its base is aligned or it is smaller than a page |
| Physical.FreesAllInside | Kernel/Memory/Physical.hpp:61-66 | with an aligned base it frees exactly the frames inside it |
| Physical.PhysicalManager.constructor | Kernel/Memory/Physical.hpp:161-165 | all memory is reserved at first |
| Physical.PhysicalManager.Initialize | Kernel/Memory/Physical.hpp:37-57 | a frame is free afterwards exactly when it was, or some available initialised section covers it |
| Physical.PhysicalManager.SetFreeSection | Kernel/Memory/Physical.hpp:61-66 | frees the pages of the section and no other |
| Physical.PhysicalManager.SetFree | Kernel/Memory/Physical.hpp:94-97 | frees the frame an address lies in and no other |
| Physical.PhysicalManager.SetUsed | Kernel/Memory/Physical.hpp:99-102 | marks the frame an address lies in and no other |
| Physical.PhysicalManager.GetPage | Kernel/Memory/Physical.hpp:128-138 | the address of the lowest free frame, now in use, or a panic exactly when none is free |
| Physical.PhysicalManager.FreePage | Kernel/Memory/Physical.hpp:145-148 | gives the frame back |
| Physical.PhysicalManager.FindNextFreePhysicalAddress | Kernel/Memory/Physical.hpp:151-154 | the index of the lowest free frame or npos |
| Paging.KernelPaging.MapKernelPage | Kernel/Memory/paging.cpp:87-128 | the four outcomes, by alignment and the entry found; bitmap, table and frames stay consistent; only a new mapping changes anything |
| Paging.KernelPaging.NewPage | Kernel/Memory/paging.cpp:167-189 | takes the first run of the table and maps it, or changes nothing when there is none; NULL exactly without run, without frames enough, or for page 0; never panics |
| Paging.OnePageTooMany | Kernel/Memory/paging.cpp:170 | the pages taken are the pages promised if and only if the size is zero or not a whole number of pages, and one more otherwise |
| Paging.NullMeansFailure | Kernel/Memory/paging.cpp:171-188 | with page 0 mapped, NULL is returned if and only if there is no run or not frames enough, and page 0 stays mapped |
| Paging.NullMeansFailureAlways | Kernel/Memory/paging.cpp:145-189 | from the mapping of early memory on, over any number of requests and until a page is given back, NULL means that the request failed |
| Paging.NullReached | Kernel/Memory/paging.cpp:167-218 | with the first table full, giving back the next page allocated unmaps page 0, and the request after it maps page 0 and returns NULL |
| Paging.KernelPaging.FreePage | Kernel/Memory/paging.cpp:202-218 | clears the entries and bits from the table index of the address on, gives back for each the frame its frame number is an address of, and stays consistent when no page left mapped has such a frame |
| Paging.FreeKeepsIff | Kernel/Memory/paging.cpp:207-213 | after giving pages back every mapped frame is in use if and only if no page left mapped has a frame that was given back |
| Paging.FreesTheRunIff | Kernel/Memory/paging.cpp:207-215 | a run given back is unmapped, and nothing else, if and only if it lies in the first table |
| Paging.AllocateFreeIff | Kernel/Memory/paging.cpp:167-218 | allocating and giving back leaves tables and frames as they were if and only if it was one page, in the first table, on frame 0 |
| Paging.NullThoughMapped | Kernel/Memory/paging.cpp:171-188 | in general, a request that maps all its pages returns NULL if and only if the pages from 0 on are unmapped |
| Paging.KernelPaging.MapRun | Kernel/Memory/paging.cpp:177-186 | the loop maps the run page by page until the frames run out |
| Paging.TakeMapsTheRun | Kernel/Memory/paging.cpp:177-186 | exactly the first pages of the run become mapped, to frames that were free; every other entry stays |
| Paging.TakeAscends | Kernel/Memory/paging.cpp:177-186 | the frames of a run ascend, so they are pairwise distinct |
| Paging.TakeUsesTheLowest | Kernel/Memory/Physical.hpp:151-154 | a free frame is taken exactly by a page of the run, and no page has a frame above one left free |
| Paging.TakeKeepsUsed | Kernel/Memory/paging.cpp:125-127 | no frame in use becomes free |
| Paging.MappedConsistent | Kernel/Memory/paging.cpp:125-127 | mapping a page keeps "bit set if and only if entry present" and "every mapped frame in use" for all pages |
| Paging.RunFound | Kernel/Memory/paging.cpp:162-165 | the window search over the bitmap finds the first run of unmapped table entries |
| AddressMap.AlignedSearch | Kernel/Memory/Virtual.cpp:129-201 | for a directory-aligned start and end the search is first fit on the flat page map |
| AddressMap.FirstFit | Kernel/Memory/Virtual.cpp:129-201 | the lowest start of enough unmapped pages, or npos exactly when no such run exists |
| AddressMap.ScanFree | Kernel/Memory/Virtual.cpp:141-190 | counting free pages in steps of one or of a whole absent table answers with the first fit |
| AddressMap.BelowTheRange | Kernel/Memory/Virtual.cpp:131-157 | the search answers in front of its range if and only if the start is unaligned, its directory is absent and a run from the directory's first page is long enough |
| AddressMap.AnswersBelow | Kernel/Memory/Virtual.cpp:141-157 | with nothing mapped, a search from page 1 on answers page 0 |
| AddressMap.MissesIff | Kernel/Memory/Virtual.cpp:131-200 | some address space makes the search miss a run of the range if and only if the end lies inside a table and the range is long enough for the request |
| AddressMap.UnalignedEnd | Kernel/Memory/Virtual.cpp:131-200 | in a given address space a run is missed if and only if the first run of the whole range ends behind the last whole table, and whatever is found is the first run |
| AddressMap.MapAutoMaps | Kernel/Memory/Virtual.cpp:7-29 | with a run found: "already in use" is unreachable, exactly the run is mapped to frames that were free, all other translations stay, frames stay apart, and it fails exactly when frames do not cover pages and missing tables |
| AddressMap.MapAutoGrants | Kernel/Memory/Virtual.cpp:7-95 | after a successful request each page of the run has a frame that was free and is in use, is writable exactly without the read-only flag, and is open to user mode, written through and not cached exactly with theirs; every other page has the frame and the rights it had |
| AddressMap.MapAllKeeps | Kernel/Memory/Virtual.cpp:7-95 | over any run of requests mapped frames and table frames are pairwise distinct and in use, and a mapped page keeps its frame and rights |
| AddressMap.FailedSearch | Kernel/Memory/Virtual.cpp:10-26 | a failed search is not noticed, for any count: nothing is mapped; without frames it runs out of memory, else it writes the last directory entry when that is absent, and panics when it is present |
| AddressMap.FailedRequest | Kernel/Memory/Virtual.cpp:10-26 | a request for more pages than the range has ends that way |
| AddressMap.MapNextKeeps | Kernel/Memory/Virtual.cpp:23-26 | one round maps one page to the lowest free frame, adds its table, and keeps all frames apart |
| AddressMap.RunCost | Kernel/Memory/Virtual.cpp:23-63 | a run takes one frame per page and one per missing table, and succeeds exactly when there are that many |
| AddressMap.RunKeeps | Kernel/Memory/Virtual.cpp:37-95 | pages outside a run and frames in use stay as they were |
| AddressMap.RunFresh | Kernel/Memory/Virtual.cpp:37-95 | every page of a run has a frame that was free and, flag by flag, the rights asked for |
| VirtualMemory.VirtualManager.FindFirstFreePageRange | Kernel/Memory/Virtual.cpp:129-201 | the two nested scans, skipping absent directories by 1024, find what first fit on the flat map finds |
| VirtualMemory.VirtualManager.ScanTable | Kernel/Memory/Virtual.cpp:162-194 | the scan of one table carries the running free range on or answers with the first fit |
| VirtualMemory.VirtualManager.SearchBelowRange | Kernel/Memory/Virtual.cpp:129-201 | the exact condition, on this manager's directory and tables, for an answer in front of its range |
| VirtualMemory.VirtualManager.MapPhysicalToVirtual | Kernel/Memory/Virtual.cpp:37-95 | on the flat map: adds a cleared table if needed, panics on a present entry, else the page has the frame given and, flag by flag, the rights asked for; under the last directory entry the entries are those of the directory |
| VirtualMemory.VirtualManager.Map | Kernel/Memory/Virtual.cpp:7-29 | is the flat request, with the size rounded up in 32 bits: with a run found exactly its pages become mapped, to frames that were free, with the rights asked for; returns the address behind the last page |
| VirtualMemory.VirtualManager.VirtualToPhysical | Kernel/Memory/Virtual.cpp:233-248 | finds a page exactly when it is mapped, and returns the frame it was mapped to; under the last directory entry it finds the tables |
| VirtualMemory.VirtualManager.constructor | Kernel/Memory/Virtual.hpp:29-37 | the range end is start plus size in 32 bits, the search starts at the range start |
| VirtualMemory.ClearedTableShowsNothing | Kernel/Memory/Virtual.cpp:48-63 | a new table, whatever its frame held, leaves the flat map unchanged |
| VirtualMemory.AbsentIsFree | Kernel/Memory/Virtual.cpp:141-158 | an absent directory entry stands for 1024 unmapped pages |
| Calendar.EpochRoundTrip | Kernel/Devices/Clock/rtc.cpp:175-191 | date and time to epoch and back gives the same six fields, for every valid date from 1970 on |
| Calendar.DateRoundTrip | Kernel/Devices/Clock/rtc.cpp:185-191 | epoch to date and back gives the same epoch |
| Calendar.EpochTicks | Kernel/Library/time.cpp:41-46 | the epoch starts at midnight, and each second more is one second later on the clock, with the carries to minutes, hours and days |
| Calendar.DateOfCounts | Kernel/Library/time.cpp:49-62 | the closed form of day n is n calendar steps from the first of January 1970 |
| Calendar.DateOfJulianDay | Kernel/Library/time.cpp:49-62 | the two closed forms are inverse to each other |
| Calendar.JulianDayStep | Kernel/Devices/Clock/rtc.cpp:175-183 | the Julian day grows by one from each day to the next, across months, leap years and centuries |
| Calendar.JulianDayCounts | Kernel/Devices/Clock/rtc.cpp:175-191 | the Julian day counts calendar days from 1970 |
| Calendar.CenturyFound | Kernel/Library/time.cpp:50 | the first division finds the century of the year that starts in March |
| Calendar.NoOverflow | Kernel/Library/time.cpp:50-55 | no intermediate leaves 32 bits up to the end of year 65535 |
| Calendar.DatesFit | Kernel/Devices/Clock/rtc.cpp:177-181 | no intermediate of the Julian day leaves 32 bits up to the end of year 65535 |
| Calendar.TimeDescriptor.ConverterEpochToDate | Kernel/Library/time.cpp:39-67 | sets the six fields to the calendar day and the time of day |
| PrintfSpec.DigitsReadBack | Kernel/Library/printf.cpp:260-273 | the digits of a number, read in their radix, are the number |
| PrintfSpec.RenderReadsBack | Kernel/Library/printf.cpp:223-325 | every printed number, with any flags and width, reads back in the radix of its conversion as its magnitude and its sign; `PrintfLaws.SignedPrinted` and `UnsignedPrinted` name the bases |
| PrintfSpec.PrintedApart | Kernel/Library/printf.cpp:223-325 | different numbers are printed differently |
| PrintfSpec.SignedValue | Kernel/Library/printf.cpp:251-257 | a signed number reads back as its magnitude, with a minus sign exactly below zero, also for the smallest integer |
| PrintfSpec.FieldsAreFilled | Kernel/Library/printf.cpp:286-325 | a number or string is as long as the wider of width and content |
| PrintfSpec.HexIsEightDigits | Kernel/Library/printf.cpp:199-216 | without -, x, X and p print exactly eight digits that read back as the word, whatever the width |
| PrintfSpec.HexWidthIff | Kernel/Library/printf.cpp:199-209 | a hexadecimal field is as long as the wider of the width asked for and its digits if and only if that width is eight, or smaller with all eight digits in use |
| PrintfSpec.HexWidthIgnored | Kernel/Library/printf.cpp:199-209 | with `%4x` the number 255 takes eight characters |
| PrintfSpec.CharFieldFilledIff | Kernel/Library/printf.cpp:275-281 | a character fills its field if and only if it is not NUL |
| PrintfSpec.CharFieldShort | Kernel/Library/printf.cpp:275-281 | with `%5c` a NUL is four spaces |
| PrintfSpec.ShortPrintedIff | Kernel/Library/printf.cpp:235-242 | what is printed for a short is right if and only if the argument is in the range of a short, signed or unsigned |
| PrintfSpec.ShortFormatIff | Kernel/Library/printf.cpp:187-242 | a whole format with the h modifier prints the short if and only if the argument is in that range |
| PrintfSpec.ShortOverflows | Kernel/Library/printf.cpp:235-242 | with `%hd` the word 70000 is not printed as the short it holds |
| PrintfSpec.OverrunExactly | Kernel/Library/printf.cpp:113-150 | a format is overrun if and only if it ends with `%`, `%0` or `%-0` behind a beginning that leaves the machine in state 0 |
| PrintfSpec.OverrunMode | Kernel/Library/printf.cpp:113-336 | a format is overrun if and only if a six-state scan of its characters ends behind a % or a zero flag |
| PrintfSpec.OverrunExample | Kernel/Library/printf.cpp:124-150 | a concrete format that is overrun, with what it has printed by then |
| PrintfSpec.SafeEnding | Kernel/Library/printf.cpp:113-150 | a format that does not end in % or 0 is never overrun |
| PrintfLaws.RadixIsBase | Kernel/Library/printf.cpp:220-228 | digits read in octal, decimal and hexadecimal are digits in base 8, 10 and 16 |
| PrintfLaws.DigitsPlain | Kernel/Library/printf.cpp:260-273 | no number but zero has a leading zero, and letters are capitals exactly when asked for |
| PrintfLaws.SignedPrinted | Kernel/Library/printf.cpp:220-257 | d and i print the signed value in base 10, with a minus sign exactly below zero |
| PrintfLaws.UnsignedPrinted | Kernel/Library/printf.cpp:199-228 | u prints the word in base 10, o in base 8, n, x, X and p in base 16, none with a sign |
| PrintfLaws.NumberLaidOut | Kernel/Library/printf.cpp:286-325 | a printed number is, in this order, blanks, sign, zeros, digits, blanks: with - only the last blanks, with 0 only the zeros, else only the first blanks, to the width |
| PrintfLaws.TextLaidOut | Kernel/Library/printf.cpp:275-325 | a string or character in its field, with blanks on the side the flag says and never zeros |
| PrintfLaws.SpelledIsParsed | Kernel/Library/printf.cpp:128-193 | a directive spelled as flags, decimal width, modifiers and conversion is parsed back, with the rest of the format left over |
| PrintfLaws.DirectiveIsPrinted | Kernel/Library/printf.cpp:105-338 | in a format a directive prints the next argument word, and the rest goes on behind one word, or two for a number with L |
| PrintfLaws.TextIsEchoed | Kernel/Library/printf.cpp:113-122 | text up to the first percent sign is echoed |
| PrintfLaws.PercentIsPrinted | Kernel/Library/printf.cpp:129-134 | two percent signs print one and take no argument |
| PrintfLaws.OneLetterFormats | Kernel/Library/printf.cpp:105-338 | the formats %d, %i, %u, %o, %n, %x, %X and %p print the first argument in the base of the letter |
| Printf.ConvertDigits | Kernel/Library/printf.cpp:196-273 | the buffer holds the digits in front of its NUL and never runs out |
| Printf.Printer.Emit | Kernel/Library/printf.cpp:286-325 | sign, padding and text come out in the order of the field |
| Printf.Printer.AtConversion | Kernel/Library/printf.cpp:195-328 | prints the rendering of the directive, which `PrintfLaws.NumberLaidOut` and `TextLaidOut` spell out, and takes its argument words |
| Printf.Printer.AtFlags | Kernel/Library/printf.cpp:128-149 | what one character changes in state 1 leaves the rest of the format to be printed as parsed |
| Printf.Printer.Round | Kernel/Library/printf.cpp:113-336 | one round prints a part and leaves the rest as parsed |
| Printf.Printer.PrintfHelper | Kernel/Library/printf.cpp:105-338 | the output is what parsing and then rendering gives, as `PrintfLaws.DirectiveIsPrinted` has it, for every format and arguments, and the result is the number of callback calls in 32 bits |
| Primes.FindPrimes | Kernel/Applications/primes.cpp:26-34 | for every bound N, bit i is set if and only if i is prime, for 2 <= i < N * N |
| Primes.CrossMultiples | Kernel/Applications/primes.cpp:30-32 | crossing out from p * p on is crossing out all multiples not crossed out before |
| Primes.PrimesAreLeft | Kernel/Applications/primes.cpp:28-33 | below N * N exactly the primes are not crossed out by a smaller divisor |
| Primes.CountPrimes | Kernel/Applications/primes.cpp:44-47 | counts exactly the primes below N * N |
| LinkedLists.LinkedList.InsertFront | Kernel/Library/LinkedList.hpp:150-159 | puts the value in front, with all links, ends and the count right |
| LinkedLists.LinkedList.InsertBack | Kernel/Library/LinkedList.hpp:161-170 | puts the value at the end |
| LinkedLists.LinkedList.InsertBefore | Kernel/Library/LinkedList.hpp:172-186 | puts the value in front of node k, or does nothing for NULL |
| LinkedLists.LinkedList.InsertAfter | Kernel/Library/LinkedList.hpp:188-202 | puts the value behind node k, or does nothing for NULL |
| LinkedLists.LinkedList.RemoveNode | Kernel/Library/LinkedList.hpp:204-215 | takes node k and its value out and keeps the rest in order |
| LinkedLists.LinkedList.RemoveFront | Kernel/Library/LinkedList.hpp:217-224 | takes the first node, or answers NULL on an empty list |
| LinkedLists.LinkedList.RemoveBack | Kernel/Library/LinkedList.hpp:226-233 | takes the last node, or answers NULL on an empty list |
| LinkedLists.LinkedList.RemoveBefore | Kernel/Library/LinkedList.hpp:235-242 | takes the predecessor |
| LinkedLists.LinkedList.RemoveAfter | Kernel/Library/LinkedList.hpp:244-251 | takes the successor |
| LinkedLists.LinkedList.Destroy | Kernel/Library/LinkedList.hpp:142-148 | deletes every node exactly once, from the back, and no other |
| LinkedLists.ChainedInserted | Kernel/Library/LinkedList.hpp:177-184 | after the writes of an insertion `next` and `prev` are mutually inverse along the longer list |
| LinkedLists.ChainedRemoved | Kernel/Library/LinkedList.hpp:206-213 | after the writes of a removal they are so along the shorter list |
| LinkedLists.RemovedInserted | Kernel/Library/LinkedList.hpp:172-215 | removing a node just inserted gives the list back |
| LinkedLists.ValuesInserted | Kernel/Library/LinkedList.hpp:172-202 | a new node at place k puts its value at place k of the values |

## Left out

- Paging.KernelPaging.NewPage: asks for fewer than 32 pages at a time, because a larger count shifts the mask by the word size, which C++ leaves undefined; the pages of a request that runs out of frames stay mapped, as in the code.
- Bitsets.Bitset.FindFirstRange: asks for a count below 32, for the same reason, and a run that ends at the last bit is never reported; `m_count` with `Any`, `All` and `None` is not modelled, since it moves also when a bit does not change.
- Printf.Printer.PrintfHelper: the callback gets each character as a byte, without the sign extension of `char`; what is read behind the end of an overrun format is not modelled; the smallest integer is negated with wrap-around, which C++ leaves undefined; `%L` prints the low 32 bits of its 64, as a 32-bit `long` does.
- Schedulers.Scheduler.TasksUnblock: asks for a task on no list or on the ready list; unblocking a sleeping or blocked task would join two lists.
- Schedulers.Scheduler.OnTimer: the clock is an argument not before the last timer time; `time_used`, idle time and tracing are left out.
- Schedulers.Scheduler.CleanAll: giving back the stack page and the block is modelled as forgetting the task; what `freePage` does to the page tables is `Paging.KernelPaging.FreePage`, and `free` is not part of this model.
- SchedulerRuns.Run: an operation is one locked section of one task; the interrupt flag is not a variable, interrupts are taken between operations only.
- ContextSwitch.RoundTrip: takes for granted that a new stack page lies on no stack in use, and that code writes to no other task's stack; when `freePage` gives back the page it was asked to is in `Paging.FreesTheRunIff`.
- ContextSwitch.StartsThenStops: takes for granted, as the calling convention has it, that `_task_starting` and the entry return with the stack pointer and the words above it unchanged; what they do to the lock is in `SchedulerRuns.StepHandsOver`.
- ContextSwitch.Cpu.CallSwitchTo: memory is words at aligned addresses; flags, segment registers and the page walk behind CR3 are left out.
- Mutexes.MutexObject.LockRound: the code path without a current task (`TASK_ONLY`) is left out: before the first task runs and while the CPU idles, `lock` in an interrupt spins on the flag, and `unlock` and `post` there skip the wakeup; progress and fairness of waiters are not claimed.
- Semaphores.Conservation: `timeWait` spins without a timer and is left out.
- CxaGuards.OneTimeConstruction: `__cxa_guard_abort` is left out, and a task does not enter a second guard while it constructs; the mutex is not recursive, so that would wait for itself.
- Memory orders: atomics are sequentially consistent on one CPU.
- VirtualMemory.VirtualManager.constructor: the constructor with a lock name leaves the range end unset and is left out.
- VirtualMemory.VirtualManager.Map: the branch with a requested address is left out, with `isPageFree` and `isPageRangeFree`, whose polarity and units do not fit their caller; a write through the last directory entry to an absent one, the end of every failed search on the directory as `initDirectory` leaves it, is not followed further; tables are reached by their directory entry, not by way of the last one.
- Paging.KernelPaging.FreePage: asks that the entries lie in the page tables; TLB invalidation is left out.
- `Physical::setUsed(Section&)` and `Physical::isFree(Section&)`: their units do not fit their callees.
- Physical.PhysicalManager.Initialize: sections lie in the 32-bit address space; the megabyte totals it logs are left out.
- Calendar.TimeDescriptor.ConverterEpochToDate: years up to 65535, the range of the clock; reading the clock chip is left out.
- LinkedLists.LinkedList.RemoveBefore: asks for a predecessor to exist, since the code dereferences it; `RemoveAfter` likewise.
- Ports, interrupt stubs, console, framebuffer, logging, `liballoc`, `RingBuffer`, `rand` and the string helpers.

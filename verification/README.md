# Trap, thread and loader kernel

This project models the small RISC-V teaching kernel of weeks 5 and 6 and proves what its labs rely on.

- **Threads and scheduling (labs 17 and 18).** `Scheduler.dfy` is the scheduler as transitions over thread
  slots, with its invariant and bounded waiting. `ThreadKernel.dfy` is the same scheduler on linked ready and
  wait lists that are changed in place; every operation is proved to do what the transition says.
  `Workers.dfy`, `LockProgram.dfy` and `RaceProgram.dfy` are the worker programs of lab 18 for any number of
  workers: mutual exclusion, no lost wake-up, termination, the exact results with and without the lock;
  `LockSchedule.dfy` is the exact order of dispatches with the lock. `Lab18.dfy` runs them on the linked kernel.
  `Lifecycle.dfy` and `Lab17Main.dfy` do the same for lab 17 and its exact number of switches.
- **Context switch (labs 16 to 18).** `Memory.dfy` and `Riscv.dfy` give byte memory and the instructions that
  the assembly uses; `ContextSwitch.dfy` proves `_swtch` over whole runs of switches; `Resumption.dfy` joins it with
  the scheduler, so that a yield and a wait return to their callers; `Spawning.dfy` joins it with `thread_spawn`;
  `Alternation.dfy` executes lab 16 instruction by instruction.
- **Traps and interrupts (lab 15).** `TrapFrame.dfy` is `trap.S` and `enter_user.S`, `TrapDispatch.dfy` is
  `trap.c` with the PLIC and the UART, `UserRun.dfy` is one trap from user mode and back, `Transparency.dfy` is a
  whole run of a user program with interrupts anywhere and bytes arriving at any time, `Probe.dfy` is the lab's own
  user program, and `TrapHandler.dfy` is the path executed in place.
  Hardware follows section 3.1.6.1 (privilege and interrupt-enable stack) of the RISC-V privileged
  architecture, version 20211203, and the chapters on claim and completion of the RISC-V PLIC specification;
  a supervisor interrupt is taken in user mode whatever SIE says.
- **Critical sections (lab 18, part C).** `Bits.dfy` and `IrqSection.dfy`.
- **ELF loader (labs 14 and 15).** `ElfFormat.dfy` reads and writes ELF64 headers (System V gABI, chapters 4 and
  5); `ElfRules.dfy` says in the numbers of the file what a loadable file is and what memory holds after a load;
  `ElfLoader.dfy` is the loader, and `ElfAcceptance.dfy` its decision in those terms.

The main results, with the statement of each in the table below:

- runs of the scheduler: `BoundedWaiting`, `YieldReturns`, `WaitReturns`, `SpawnedSlotStarts`, `RecyclingIsSafe`,
  and the refinement by the linked kernel (`Kernel.Schedule`, `Condition.Broadcast`, `Kernel.ThreadSpawn`);
- lab 18: `LockProgramCorrect`, `Terminates`, `NoLostWakeup`, `ExactSchedule`, `OthersRunMeanwhile`, `LostUpdates`,
  `EveryCountHappens`, `Main18`; lab 17: `ExactSwitchCount`, `Main17`;
- registers: `ResumesOwnContext`, `Alternates`;
- traps: `InterruptsDoNotShow`, `HandlerMasked`, `BytesConserved`, `InterruptsNeverHalt`, `NeverFails`, `Finishes`;
- critical sections: `IsrNeverSeesBroken`, `SectionsRestoreStatus`;
- loader: `LoadUserElf`, `SuccessLoadsAll`, `Confined`, `HullIsExact`, `AcceptedIff`, `WrittenFileLoads`, `EntryLoadedIff`.

The table sizes of the labs (6 and 4 threads, workers with 3, 2 and 1 rounds, 50 round trips) are parameters;
the labs' own numbers are instances. The scheduling choice is a parameter too (`pick`, a queue position): safety
is proved for every choice, termination and exact results for the kernel's own choice, position 0. The solution
branches of the sources (`LAB15_SOLUTION` and so on) are the ones modelled.

Assumptions about the surroundings, each a precondition where it is used: context blocks of different threads do
not overlap; the trap frame, the user's memory and the two shared cells do not overlap; the hart starts with the
delegation and trap vector of `boot.S` and `kernel.c`; compiled C code keeps sp, the CSRs it is not told to
write, its caller's frame and the user's memory, and may change every other register and byte; the ELF image does
not overlap the window it is loaded into.

Two things that one might expect of the code do not hold of every input; for each the exact condition is proved.
A successful load does not make the entry a loaded byte (`ElfLoader.EntryNeedNotBeLoaded`): it does, for all
entries that the loader accepts with a table, iff each PT_LOAD of the table ends at segment_end or at a byte of a
PT_LOAD (`HullCoveredIff`, `EntryIsLoaded`, `GapAdmitsEntry`, `GapIsReached`, `EntryLoadedIff`). And
lab 16's thread A gives back sp and s0 to s11 to its caller iff s1 was 0xa16 and s2 was 0 when it was called
(`Alternation.Alternates`).

## Model

| member | source | states |
|---|---|---|
| Scheduler.DispatchKeeps | week6-thread/lab17-scheduler-lifecycle/kernel.c:50-59 | Whichever READY thread is taken, the switch restores the scheduler invariant: READY iff queued exactly once, WAITING iff in exactly one wait list, exactly one RUNNING thread and it is tp, EXITED and UNUSED in no list, live_workers = number of READY, RUNNING or WAITING workers |
| Scheduler.RequeueKeeps | week6-thread/lab17-scheduler-lifecycle/kernel.c:45-48 | Between requeueing itself and the switch, the caller is queued once and nobody is RUNNING; lists and the worker count stay sound |
| Scheduler.LeaveKeeps | week6-thread/lab17-scheduler-lifecycle/kernel.c:96-97 | thread_exit removes exactly one live worker, without wrap-around, and leaves the thread in no list |
| Scheduler.SleepKeeps | week6-thread/lab17-scheduler-lifecycle/kernel.c:110-113 | The sleeping thread is in exactly one wait list and in no other |
| Scheduler.YieldKeeps | week6-thread/lab17-scheduler-lifecycle/kernel.c:61-67 | thread_yield always switches: neither the return of schedule for a thread that is still RUNNING nor its halt is ever taken, and the invariant holds afterwards |
| Scheduler.ExitKeeps | week6-thread/lab17-scheduler-lifecycle/kernel.c:93-103 | thread_exit stops the machine if and only if no thread is READY; otherwise it switches, keeps the invariant and has one live worker less |
| Scheduler.WaitKeeps | week6-thread/lab17-scheduler-lifecycle/kernel.c:107-117 | condition_wait stops the machine if and only if no thread is READY; otherwise it switches and keeps the invariant |
| Scheduler.BroadcastKeeps | week6-thread/lab17-scheduler-lifecycle/kernel.c:118-129 | Broadcast keeps the invariant: all waiters become queued once, the running thread stays |
| Scheduler.BroadcastEffect | week6-thread/lab17-scheduler-lifecycle/kernel.c:118-129 | With one condition, as in both labs: exactly the WAITING threads become READY; the running thread and the worker count do not change |
| Scheduler.SpawnKeeps | week6-thread/lab17-scheduler-lifecycle/kernel.c:68-92 | A successful spawn keeps the invariant and the worker count, which stays below 2^64 |
| Scheduler.YieldMoves | week6-thread/lab17-scheduler-lifecycle/kernel.c:42-67 | A yield changes two threads' states at most, and counts one dispatch for the thread that runs next |
| Scheduler.ScheduleAlone | week6-thread/lab17-scheduler-lifecycle/kernel.c:50-55 | schedule with an empty queue: it returns to a thread that is still RUNNING and stops the machine for any other; a caller that requeues itself is dispatched again |
| Scheduler.ExitMoves | week6-thread/lab17-scheduler-lifecycle/kernel.c:93-103 | The same for thread_exit, with one live worker less |
| Scheduler.WaitMoves | week6-thread/lab17-scheduler-lifecycle/kernel.c:107-117 | The same for condition_wait, with one condition |
| Scheduler.YieldRotates | week6-thread/lab17-scheduler-lifecycle/kernel.c:42-67 | First in, first out: running thread and queue together rotate by one place at a yield |
| Scheduler.ExitDrops | week6-thread/lab17-scheduler-lifecycle/kernel.c:93-103 | At an exit the exiting thread drops out of that line and the others keep their order |
| Scheduler.WaitDrops | week6-thread/lab17-scheduler-lifecycle/kernel.c:107-117 | The same at a wait |
| Scheduler.RecyclingIsSafe | week6-thread/lab18-race-lock-irq/kernel.c:124-127 | live_workers is zero iff no worker is READY, RUNNING or WAITING; then the ready queue and all wait lists are empty, and freeing all worker slots keeps the invariant |
| Scheduler.QueueMoves | week6-thread/lab17-scheduler-lifecycle/kernel.c:25-60 | One operation moves a queued thread one place forward if it switches, and not at all otherwise |
| Scheduler.BoundedWaiting | week6-thread/lab17-scheduler-lifecycle/kernel.c:25-60 | Over any run of yields, exits, waits, broadcasts and spawns: a thread at position k is dispatched by the (k+1)-th switch and by none before |
| ThreadKernel.ReadyList.Push | week6-thread/lab17-scheduler-lifecycle/kernel.c:25-29 | On the linked list: the thread becomes the last of the list |
| ThreadKernel.ReadyList.Pop | week6-thread/lab17-scheduler-lifecycle/kernel.c:30-37 | The head is unlinked and returned, null iff the list was empty; with and without clearing its link (lab 17 and lab 18) |
| ThreadKernel.Condition.Append | week6-thread/lab17-scheduler-lifecycle/kernel.c:110-113 | The thread becomes the last of the wait list |
| ThreadKernel.Condition.Broadcast | week6-thread/lab17-scheduler-lifecycle/kernel.c:118-129 | The loop that relinks nodes while it walks them ends; the ready list becomes the old one followed by the waiters in their order, the wait list is empty, all waiters are READY |
| ThreadKernel.Condition.Init | week6-thread/lab17-scheduler-lifecycle/kernel.c:104-106 | The wait list is empty |
| ThreadKernel.Kernel.PopReady | week6-thread/lab18-race-lock-irq/kernel.c:29-35 | The linked structure still represents the scheduler state; the head of the queue is returned |
| ThreadKernel.Kernel.SwitchTo | week6-thread/lab17-scheduler-lifecycle/kernel.c:56-59 | RUNNING thread, tp and switch_count (lab 17 only, modulo 2^64) represent the dispatched state |
| ThreadKernel.Kernel.Schedule | week6-thread/lab17-scheduler-lifecycle/kernel.c:42-60 | schedule on the linked lists does exactly what the abstract scheduler does, including its early return and its halt |
| ThreadKernel.Kernel.ThreadYield | week6-thread/lab17-scheduler-lifecycle/kernel.c:61-67 | thread_yield refines the abstract yield and never returns without a switch |
| ThreadKernel.Kernel.ThreadExit | week6-thread/lab17-scheduler-lifecycle/kernel.c:93-103 | thread_exit refines the abstract exit; it halts iff the queue was empty |
| ThreadKernel.Kernel.ConditionWait | week6-thread/lab17-scheduler-lifecycle/kernel.c:107-117 | condition_wait refines the abstract wait; it halts iff the queue was empty |
| ThreadKernel.Kernel.ConditionBroadcast | week6-thread/lab17-scheduler-lifecycle/kernel.c:118-129 | condition_broadcast refines concatenation of ready queue and wait list |
| ThreadKernel.Kernel.ConditionInit | week6-thread/lab17-scheduler-lifecycle/kernel.c:104-106 | condition_init empties one wait list and nothing else |
| ThreadKernel.Kernel.FindUnused | week6-thread/lab17-scheduler-lifecycle/kernel.c:69-73 | The loop finds the first UNUSED slot above main, or none |
| ThreadKernel.Kernel.ThreadSpawn | week6-thread/lab17-scheduler-lifecycle/kernel.c:68-92 | thread_spawn returns -1 and changes nothing iff no slot is UNUSED; otherwise the first such slot is READY, last in the queue, counted, and prepared: id, stack_low and stack_high of its own 4096 bytes, sp = stack_high rounded down to 16, ra = thread_setup, the function and the argument; in either case the prepared context of every other slot stays |
| ThreadKernel.Kernel.RecycleWorkers | week6-thread/lab18-race-lock-irq/kernel.c:125-127 | Every slot but main's becomes UNUSED |
| ThreadKernel.FreshInv | week6-thread/lab17-scheduler-lifecycle/kernel.c:139-143 | The zeroed tables with main RUNNING satisfy the invariant |
| Workers.StepKeeps | week6-thread/lab18-race-lock-irq/kernel.c:48-124 | Every step of any mix of safe and unsafe workers, under any choice of the next thread, keeps the program invariant; no halt (no runnable thread, non-owner release, return after exit) is reachable; main ends iff live_workers is zero |
| Workers.RunKeeps | week6-thread/lab18-race-lock-irq/kernel.c:48-124 | The same for whole runs of any length |
| Workers.NoLostWakeup | week6-thread/lab18-race-lock-irq/kernel.c:69-89 | If anyone waits for the lock, the lock has an owner who is READY or RUNNING, and every waiter will re-test the owner |
| Workers.ReleaseKeeps | week6-thread/lab18-race-lock-irq/kernel.c:96-107 | The releasing thread is the owner; afterwards nobody owns the lock and nobody waits |
| Workers.BlockedWorkerSleeps | week6-thread/lab18-race-lock-irq/kernel.c:88 | lock_acquire on a taken lock: under any choice the thread is WAITING, last in the lock's wait list and in no queue, and another thread runs |
| Workers.YieldGoesBehind | week6-thread/lab18-race-lock-irq/kernel.c:48 | The yields of main and the workers, also inside the critical section: the running thread goes behind the queue and its head, another thread, runs |
| Workers.ExitLeaves | week6-thread/lab18-race-lock-irq/kernel.c:62-65 | An exiting worker is in no list, and the head of the queue runs |
| Workers.ReleaseWakes | week6-thread/lab18-race-lock-irq/kernel.c:96-107 | lock_release frees the lock and puts all who wait for it behind the queue, in their order; the releaser runs on |
| Workers.OthersStay | week6-thread/lab18-race-lock-irq/kernel.c:108-123 | No other statement touches the scheduler |
| Workers.StopsIff | week6-thread/lab18-race-lock-irq/kernel.c:36-107 | For every state of the tables: a step stops the machine iff a thread releases a lock that it does not own, goes on after thread_exit, or cannot go on while the queue is empty |
| Workers.BlockedStepProgress | week6-thread/lab18-race-lock-irq/kernel.c:85-95 | A thread that finds the lock taken, or main, brings the thread that can proceed one queue place nearer |
| Workers.FreeStep | week6-thread/lab18-race-lock-irq/kernel.c:85-123 | Every other step leaves fewer statements to execute |
| Workers.Terminates | week6-thread/lab18-race-lock-irq/kernel.c:124 | wait_workers ends under first-in first-out scheduling for every number and mix of workers |
| LockProgram.MutualExclusion | week6-thread/lab18-race-lock-irq/kernel.c:85-107 | At most one thread is between lock_acquire and lock_release; it is the owner and is READY or RUNNING |
| LockProgram.StepKeepsLock | week6-thread/lab18-race-lock-irq/kernel.c:116-123 | In every step the counter equals the number of completed stores, and a thread between its load and its store holds exactly the counter's value |
| LockProgram.LockSafety | week6-thread/lab18-race-lock-irq/kernel.c:116-124 | Over every run with any scheduling choices that invariant holds, nothing halts, and if wait_workers returns the counter is n |
| LockProgram.LockProgramCorrect | week6-thread/lab18-race-lock-irq/kernel.c:116-124 | For every n the program ends under the kernel's scheduler with shared_counter = n; that each worker yields inside the critical section, and the others sleep meanwhile, is stated by OthersRunMeanwhile and ExactSchedule |
| LockSchedule.QueueOrder | week6-thread/lab18-race-lock-irq/kernel.c:36-48 | Over every run of the workers: threads are dispatched in the order of the ready queue |
| LockSchedule.OthersRunMeanwhile | week6-thread/lab18-race-lock-irq/kernel.c:116-123 | A worker that yields between its load and its store gets the processor back only after every thread queued at that time has run, in the order of the queue |
| LockSchedule.OneTurn | week6-thread/lab18-race-lock-irq/kernel.c:85-123 | One worker's turn at the lock: it takes the lock, loads and yields; every other worker finds the lock taken and falls asleep; main yields; it stores, releases, which wakes them all, and exits; main runs again |
| LockSchedule.ExactSchedule | week6-thread/lab18-race-lock-irq/kernel.c:116-124 | For every n, the exact order of all dispatches of part B and the exact number n(n + 15)/2 of statements, at whose end main finds no worker left and the counter is n |
| LockSchedule.ScheduleCounts | week6-thread/lab18-race-lock-irq/kernel.c:116-124 | In that order there are n(n + 7)/2 switches; the k-th worker is dispatched k + 2 times, counting from 0, and main 2n times |
| RaceProgram.AnyScheduleEndsBetween | week6-thread/lab18-race-lock-irq/kernel.c:108-115 | For every n >= 1 and every choice of next threads the unsafe counter ends between 1 and n |
| RaceProgram.RaceBounds | week6-thread/lab18-race-lock-irq/kernel.c:108-115 | The same from any state of the race |
| RaceProgram.LostUpdates | week6-thread/lab18-race-lock-irq/kernel.c:36-48 | Under first-in first-out scheduling the unsafe counter ends at exactly 1, for every n >= 1 |
| RaceProgram.FifoResult | week6-thread/lab18-race-lock-irq/kernel.c:108-115 | The same from any point at which all loads still precede all stores |
| RaceProgram.EveryCountHappens | week6-thread/lab18-race-lock-irq/kernel.c:108-115 | Conversely every value from 1 to n is the result of some schedule |
| Lab18.Machine.LoadCounter | week6-thread/lab18-race-lock-irq/kernel.c:110 | The load of unsafe_worker and safe_worker on the mutable state does the modelled step |
| Lab18.Machine.StoreCounter | week6-thread/lab18-race-lock-irq/kernel.c:114 | The store (with 64-bit wrap-around) does the modelled step |
| Lab18.Machine.TakeLock | week6-thread/lab18-race-lock-irq/kernel.c:89 | Leaving the acquire loop sets the owner |
| Lab18.Machine.WaitForLock | week6-thread/lab18-race-lock-irq/kernel.c:88 | The acquire loop's condition_wait on the linked kernel does the modelled step: the caller is WAITING, last in the lock's wait list, and the head of the queue runs |
| Lab18.Machine.ReleaseLock | week6-thread/lab18-race-lock-irq/kernel.c:98-102 | lock_release on the linked kernel does the modelled step |
| Lab18.Machine.YieldAt | week6-thread/lab18-race-lock-irq/kernel.c:48 | thread_yield from main and from both workers does the modelled step: another thread runs, the head of the queue, and the caller is last in it |
| Lab18.Machine.Leave | week6-thread/lab18-race-lock-irq/kernel.c:62-65 | thread_exit does the modelled step |
| Lab18.Machine.Step | week6-thread/lab18-race-lock-irq/kernel.c:108-124 | Every statement executed on the linked kernel is the modelled step; it never halts |
| Lab18.Machine.WaitWorkers | week6-thread/lab18-race-lock-irq/kernel.c:124 | The loop ends, and the state it leaves is the end of the modelled run |
| Lab18.Machine.SpawnWorkers | week6-thread/lab18-race-lock-irq/kernel.c:169-170 | n spawns fill the first n worker slots, each prepared with the given function |
| Lab18.Machine.Recycle | week6-thread/lab18-race-lock-irq/kernel.c:174 | Between the parts all worker slots are free again, the lock is new and the counter 0 |
| Lab18.Main18 | week6-thread/lab18-race-lock-irq/kernel.c:164-179 | lab18_main's parts A and B for any n that fits the table: neither failure branch is taken, and the counters 1 and n are the results of the two modelled runs |
| Lifecycle.PassKeepsMainNeed | week6-thread/lab17-scheduler-lifecycle/kernel.c:148-154 | How many rounds main still needs falls exactly when a round ends |
| Lifecycle.BeginKeepsMainNeed | week6-thread/lab17-scheduler-lifecycle/kernel.c:148-154 | The same at main's own turn, where it wakes the waiter |
| Lifecycle.Ends | week6-thread/lab17-scheduler-lifecycle/kernel.c:130-154 | From every reachable state the program ends after exactly the switches that are still due |
| Lifecycle.ExactSwitchCount | week6-thread/lab17-scheduler-lifecycle/kernel.c:130-158 | For any list of rounds the program ends after sum(r+1) + 2 + max(2, 1 + max r) switches; worker i is dispatched r_i + 1 times, the waiter twice |
| Lifecycle.LabInstance | week6-thread/lab17-scheduler-lifecycle/kernel.c:144-155 | Rounds 3, 2, 1 give 15, so fewer than 10 is never reported |
| Lab17Main.Machine.MainTurn | week6-thread/lab17-scheduler-lifecycle/kernel.c:148-154 | Main's loop body on the linked kernel is the modelled step |
| Lab17Main.Machine.ThreadTurn | week6-thread/lab17-scheduler-lifecycle/kernel.c:130-138 | A turn of worker or waiter on the linked kernel is the modelled step |
| Lab17Main.Machine.SpawnAll | week6-thread/lab17-scheduler-lifecycle/kernel.c:144-147 | The spawns reach the modelled start, and afterwards every spawned slot, the earlier ones too, is prepared with its own function and argument |
| Lab17Main.Machine.RunAll | week6-thread/lab17-scheduler-lifecycle/kernel.c:148-154 | The loop ends with switch_count at the predicted total modulo 2^64 |
| Lab17Main.Main17 | week6-thread/lab17-scheduler-lifecycle/kernel.c:139-158 | lab17_main for any rounds that fit the table: the switch count, the verdict iff it is at least 10, and 15 with PASS for the lab's rounds |
| Memory.LoadStored | week6-thread/lab17-scheduler-lifecycle/switch.S:5-33 | A 64-bit little-endian store reads back |
| Memory.LittleEndian | week5-csr-interrupt-trap/lab15-trap-frame-uart-interrupt/elf_loader.c:16-42 | Byte k of a number counts 256^k: the values of 2, 4 and 8 bytes written out |
| Memory.LoadSaved | week6-thread/lab17-scheduler-lifecycle/switch.S:5-33 | Every word of a saved block reads back, whatever memory held before |
| Memory.SaveFrame | week6-thread/lab17-scheduler-lifecycle/switch.S:5-18 | Saving a block touches no byte outside it |
| Riscv.ExecStores | week6-thread/lab17-scheduler-lifecycle/switch.S:5-18 | A block of sd instructions saves the listed registers in consecutive words |
| Riscv.ExecLoads | week6-thread/lab17-scheduler-lifecycle/switch.S:20-33 | A block of ld instructions sets the listed registers and nothing else |
| Riscv.Cpu.Execute | week6-thread/lab17-scheduler-lifecycle/switch.S:4-34 | Straight-line code executed in place does what its specification says |
| ContextSwitch.SwitchEffect | week6-thread/lab17-scheduler-lifecycle/switch.S:4-34 | _swtch stores the caller's ra, sp, s0-s11 in its own block, then holds the next thread's, with tp = a0; no other register and no other byte changes |
| ContextSwitch.SwitchLayout | week6-thread/lab17-scheduler-lifecycle/thread.h:4-18 | Word k of the caller's block is x1, x2, x8, x9, x18 to x27 of the caller, in this order, and the same registers of the next thread come from word k of its block; tp is a0 |
| ContextSwitch.SavedAreCalleeSaved | week6-thread/lab17-scheduler-lifecycle/switch.S:5-33 | The saved registers are exactly ra, sp and s0 to s11 |
| ContextSwitch.TurnWritesOwnBlock | week6-thread/lab17-scheduler-lifecycle/switch.S:5-18 | Of several disjoint blocks a switch rewrites only the block of the thread that makes it |
| ContextSwitch.BlockStays | week6-thread/lab17-scheduler-lifecycle/switch.S:4-34 | While a thread does not run its block does not change |
| ContextSwitch.ResumesOwnContext | week6-thread/lab17-scheduler-lifecycle/switch.S:4-34 | Over any sequence of switches among any number of threads, a resumed thread has the ra, sp, s0-s11 of its own last call and tp pointing to itself, whatever the others did to the registers |
| ContextSwitch.FirstDispatch | week6-thread/lab17-scheduler-lifecycle/switch.S:19-34 | A thread that never ran starts from the context prepared for it |
| ContextSwitch.SwitchToSelf | week6-thread/lab17-scheduler-lifecycle/switch.S:4-34 | Switching to itself changes no register |
| ContextSwitch.SpawnedThreadStarts | week6-thread/lab17-scheduler-lifecycle/switch.S:36-42 | The first switch to a spawned thread continues at the trampoline on its own stack top, which jumps to the start function with the start argument and with ra at thread_function_returned |
| ContextSwitch.Swtch | week6-thread/lab17-scheduler-lifecycle/switch.S:4-34 | _swtch executed in place has that effect |
| Spawning.SpawnedSlotStarts | week6-thread/lab17-scheduler-lifecycle/kernel.c:76-83 | thread_spawn and _swtch together: what thread_spawn prepared in a slot, held by the thread's object in memory, is what its first switch starts: the trampoline with sp at the top of the slot's own 4096 bytes, rounded down to 16, calling the spawned function with its argument |
| Resumption.StillWaiting | week6-thread/lab17-scheduler-lifecycle/kernel.c:25-60 | A queued thread moves one place further with every switch, and its context block keeps the registers of its call |
| Resumption.YieldReturns | week6-thread/lab17-scheduler-lifecycle/kernel.c:42-67 | Scheduler and _swtch together: a thread_yield with n threads queued returns at the (n+1)-th switch, its own included, with the caller's ra, sp, s0-s11 and tp, for every mix of yields, exits, waits, broadcasts and spawns by the others |
| Resumption.StillAsleep | week6-thread/lab17-scheduler-lifecycle/kernel.c:107-117 | From its condition_wait to the first broadcast on that condition a thread keeps its place in the wait list, and its context block the registers of its call |
| Resumption.BroadcastQueues | week6-thread/lab17-scheduler-lifecycle/kernel.c:118-129 | The broadcast puts a sleeper into the queue behind the queued threads and the sleepers before it |
| Resumption.WaitReturns | week6-thread/lab17-scheduler-lifecycle/kernel.c:107-129 | Scheduler and _swtch together: a condition_wait returns after the first broadcast on its condition, at the switch that follows as many others as threads were queued at the broadcast and slept before it, with the caller's ra, sp, s0-s11 and tp |
| Alternation.SwitchRun | week6-thread/lab16-context-switch/swtch.S:10-44 | One call of _swtch, instruction by instruction, logs one entry and continues where the next thread's ra points |
| Alternation.RunB | week6-thread/lab16-context-switch/swtch.S:79-90 | Thread B from its entry or a resumption to its next call, never failing its check; its s2 counts down from n |
| Alternation.CheckFails | week6-thread/lab16-context-switch/swtch.S:66-90 | The checks do check: a thread resumed with another s1 than its own goes to context_check_failed |
| Alternation.RunA | week6-thread/lab16-context-switch/swtch.S:64-71 | Thread A from a resumption to its next call, or out of its loop when the counter reaches 0 |
| Alternation.Leave | week6-thread/lab16-context-switch/swtch.S:72-75 | Thread A returns to the return address and stack pointer it was entered with |
| Alternation.RoundTrip | week6-thread/lab16-context-switch/swtch.S:10-44 | A switch to B and back: B runs once, A finds its saved registers and its stack word unchanged |
| Alternation.Alternates | week6-thread/lab16-context-switch/swtch.S:56-94 | For any loop constant n >= 1: the threads that enter _swtch are A, B, A, B, ... 2n in all, no instruction at or after context_check_failed is executed, and A returns to its caller with its entry sp, s0 and s3-s11, s1 = 0xa16 and s2 = 0; so it keeps to the calling convention iff s1 and s2 held these values at its entry |
| Alternation.HundredSwitches | week6-thread/lab16-context-switch/swtch.S:60 | With the constant 50 there are 100 switches |
| Alternation.ReachIsUnique | week6-thread/lab16-context-switch/swtch.S:10-94 | The machine is deterministic: this is the only run |
| Bits.BitPut | week5-csr-interrupt-trap/lab15-trap-frame-uart-interrupt/trap.c:142 | Setting one bit changes that bit and no other |
| Bits.AndNotIsPut | week5-csr-interrupt-trap/lab15-trap-frame-uart-interrupt/enter_user.S:11-12 | csrc with a one-bit mask clears that bit and no other |
| Bits.BitIsDivision | week5-csr-interrupt-trap/lab15-trap-frame-uart-interrupt/trap.c:9-17 | Bit k of a word is the last bit of the word divided by 2^k |
| TrapFrame.EntrySavesAll | week5-csr-interrupt-trap/lab15-trap-frame-uart-interrupt/trap.S:9-69 | From any user state the entry leaves in the frame all 30 general registers, the user's sp, sepc, sstatus and scause, passes the frame's address, keeps the user's sp in sscratch and touches no other memory |
| TrapFrame.ExitRestoresAll | week5-csr-interrupt-trap/lab15-trap-frame-uart-interrupt/trap.S:72-117 | The exit puts every general register back from its slot, takes sepc and sstatus from the frame, sp from sscratch, and leaves the kernel's sp in sscratch |
| TrapFrame.EntryLayout | week5-csr-interrupt-trap/lab15-trap-frame-uart-interrupt/trap_frame.h:4-37 | The entry in the words of struct trap_frame: ra at 0, x3 to x31 at 8 to 232, sp at 240, sepc, sstatus and scause at 248 to 264 |
| TrapFrame.ExitLayout | week5-csr-interrupt-trap/lab15-trap-frame-uart-interrupt/trap_frame.h:4-37 | The exit in the same words; sp comes from sscratch |
| TrapFrame.AllRegisters | week5-csr-interrupt-trap/lab15-trap-frame-uart-interrupt/trap_frame.h:4-34 | The frame's 30 slots with zero and sp are all 32 registers |
| TrapFrame.TrapThenSret | week5-csr-interrupt-trap/lab15-trap-frame-uart-interrupt/trap.S:118 | A trap from user mode and its sret leave sstatus as it was, but for SPIE |
| TrapFrame.TrapThenEnablingSret | week5-csr-interrupt-trap/lab15-trap-frame-uart-interrupt/trap.c:138-142 | With SPIE set in the saved status, the sret turns SIE on and changes nothing else |
| TrapFrame.EntryMasked | week5-csr-interrupt-trap/lab15-trap-frame-uart-interrupt/trap.S:9-69 | SIE is 0 before every instruction of the entry |
| TrapFrame.ExitMasked | week5-csr-interrupt-trap/lab15-trap-frame-uart-interrupt/trap.S:72-118 | SIE is 0 before every instruction of the exit |
| TrapFrame.EnterUser | week5-csr-interrupt-trap/lab15-trap-frame-uart-interrupt/enter_user.S:8-17 | enter_user sets sepc, sscratch and sp, clears SPP and changes no other bit, CSR, register but t0, or byte |
| TrapDispatch.BestIsBest | week5-csr-interrupt-trap/lab15-trap-frame-uart-interrupt/plic.c:56-58 | The claim presents a pending enabled source of highest priority, lowest number first, and 0 iff there is none |
| TrapDispatch.PresentsBest | week5-csr-interrupt-trap/lab15-trap-frame-uart-interrupt/plic.c:56-58 | The same in the PLIC's registers |
| TrapDispatch.HandlerOutcome | week5-csr-interrupt-trap/lab15-trap-frame-uart-interrupt/trap.c:43-70 | handle_external_interrupt returns iff the claim gives 10 and a byte is there; then it took the oldest byte, published it and noted it in lab15_last_uart_byte, noted 10 in lab15_last_claim, claimed and completed 10 once in this order, and 10 is pending again iff bytes are left |
| TrapDispatch.UartEnabledOnly | week5-csr-interrupt-trap/lab15-trap-frame-uart-interrupt/plic.c:32-47 | plic_enable_uart enables source 10 with priority 1 above threshold 0, and no other source |
| TrapDispatch.EnableOutcome | week5-csr-interrupt-trap/lab15-trap-frame-uart-interrupt/trap.c:26-41 | The enabling call in the bits of the registers: priority 1, threshold 0, enable bit 10, the receive interrupt and sie bit 9; every other bit stays |
| TrapDispatch.DispatchDecides | week5-csr-interrupt-trap/lab15-trap-frame-uart-interrupt/trap.c:94-150 | By the numbers in the frame: a null frame, every scause but 8 and 2^63 + 9, and every call but 1, 2 and 3 halt; call 3 exits with the saved a0; calls 1 and 2 return with exactly the stated words of memory changed |
| TrapDispatch.EnabledDelivers | week5-csr-interrupt-trap/lab15-trap-frame-uart-interrupt/trap.c:26-41 | After the enabling system call a waiting or arriving byte interrupts user mode |
| TrapDispatch.Board.PlicEnableUart | week5-csr-interrupt-trap/lab15-trap-frame-uart-interrupt/plic.c:32-47 | The read-modify-write of the PLIC registers: priority 1, threshold 0, bit 10 of the enables and no other |
| TrapDispatch.Board.PlicClaim | week5-csr-interrupt-trap/lab15-trap-frame-uart-interrupt/plic.c:56-58 | The claim read returns the best source, clears its pending bit and puts it in service |
| TrapDispatch.Board.PlicComplete | week5-csr-interrupt-trap/lab15-trap-frame-uart-interrupt/plic.c:67-69 | The completion write takes an enabled source out of service and lets the gateway forward again |
| TrapDispatch.Board.UartReceiveInterrupt | week5-csr-interrupt-trap/lab15-trap-frame-uart-interrupt/uart.c:27-31 | -1 iff no byte is there, else the oldest byte, which is removed |
| TrapDispatch.Board.HandleExternalInterrupt | week5-csr-interrupt-trap/lab15-trap-frame-uart-interrupt/trap.c:43-92 | The handler on mutable state and memory does what its specification says; on return lab15_last_claim is 10 and lab15_last_uart_byte the oldest byte |
| TrapDispatch.Board.EnableUartExternalInterrupt | week5-csr-interrupt-trap/lab15-trap-frame-uart-interrupt/trap.c:26-41 | Clears both user cells and enables UART, PLIC and sie.SEIE, bit by bit |
| TrapDispatch.Board.SupervisorTrapDispatch | week5-csr-interrupt-trap/lab15-trap-frame-uart-interrupt/trap.c:94-150 | The dispatcher on the frame in memory: all branches, including every halt |
| TrapDispatch.LateBytesWait | week5-csr-interrupt-trap/lab15-trap-frame-uart-interrupt/uart.c:27-31 | Bytes that arrive between the claim and the look at the UART, or between the read and the completion, have the same effect as if they had arrived right after the handler |
| TrapDispatch.DispatchBeforeLate | week5-csr-interrupt-trap/lab15-trap-frame-uart-interrupt/trap.c:94-150 | The same for the whole dispatcher: a trap ends as it would without these bytes, and they are then in the UART in their order, also when the trap is the enabling system call |
| UserRun.FrameHolds | week5-csr-interrupt-trap/lab15-trap-frame-uart-interrupt/trap.S:9-69 | After hardware and entry the frame below sscratch's stack pointer holds the interrupted user state, and the rest of memory is untouched |
| UserRun.FrameRestored | week5-csr-interrupt-trap/lab15-trap-frame-uart-interrupt/trap.S:71-118 | A frame that the handler kept gives the user back all registers and pc, and sscratch its kernel stack pointer |
| UserRun.InterruptDispatches | week5-csr-interrupt-trap/lab15-trap-frame-uart-interrupt/trap.c:104-110 | An external interrupt reaches handle_external_interrupt |
| UserRun.SyscallDispatches | week5-csr-interrupt-trap/lab15-trap-frame-uart-interrupt/trap.c:114-149 | A system call does what the user's own a7 says: 1 returns, 2 enables and returns, 3 exits with the user's a0, anything else halts; sepc advances by 4 |
| UserRun.InterruptTransparent | week5-csr-interrupt-trap/lab15-trap-frame-uart-interrupt/trap.S:9-118 | One handled interrupt, whatever the C code does to the other registers and to its own memory: the same pc, the same 31 registers, the same user memory, sscratch again the kernel sp, user mode, and the cells show (1, oldest byte) |
| UserRun.SyscallTransparent | week5-csr-interrupt-trap/lab15-trap-frame-uart-interrupt/trap.c:113-145 | One returning system call: pc + 4, the same registers and user memory; only call 2 touches cells, devices and SIE |
| UserRun.HandledThenReceived | week5-csr-interrupt-trap/lab15-trap-frame-uart-interrupt/trap.S:9-118 | A handled trap during which bytes arrive is the same trap without them, followed by their arrival |
| UserRun.HandlerMasked | week5-csr-interrupt-trap/lab15-trap-frame-uart-interrupt/trap.S:9-118 | In every handled trap SIE is 0 before each instruction of the handler's assembly, and the dispatcher returns with the CSRs as at its call; so the frame cannot be taken by another trap |
| UserRun.HandlerMaskedDuring | week5-csr-interrupt-trap/lab15-trap-frame-uart-interrupt/trap.S:9-118 | The same when bytes arrive during the handler |
| Transparency.NextKeeps | week5-csr-interrupt-trap/lab15-trap-frame-uart-interrupt/trap.c:94-150 | Every event (an instruction, a system call or an interrupt with bytes arriving inside its handler, an arrival, another source's request) keeps: sscratch = kernel sp, SPP clear, nothing in service, UART pending iff it holds a byte and may interrupt; the user's view changes by its own instruction only, bytes are accounted for, and the cells change by an interrupt or the enabling call only |
| Transparency.SyscallKeeps | week5-csr-interrupt-trap/lab15-trap-frame-uart-interrupt/trap.c:113-145 | A returning system call during which bytes arrive: pc + 4, the same registers and user memory, no byte taken, and the arrived bytes in the UART |
| Transparency.RunKeeps | week5-csr-interrupt-trap/lab15-trap-frame-uart-interrupt/trap.c:94-150 | The same over whole runs |
| Transparency.InterruptsDoNotShow | week5-csr-interrupt-trap/lab15-trap-frame-uart-interrupt/trap.S:9-118 | After any run with any interrupts at any instruction boundaries, and bytes arriving in user mode or inside any handler, the user has the pc, all registers and the memory that its program alone computes in the same number of instructions |
| Transparency.RunsAgree | week5-csr-interrupt-trap/lab15-trap-frame-uart-interrupt/trap.S:9-118 | Two runs of a program agree after equally many user instructions, whatever bytes arrive, in user mode or inside handlers, and wherever interrupts fall |
| Transparency.BytesConserved | week5-csr-interrupt-trap/lab15-trap-frame-uart-interrupt/trap.c:43-70 | Bytes arrived, in user mode or while a handler runs, = bytes taken followed by bytes still in the UART; each interrupt claimed and completed source 10 exactly once |
| Transparency.CellsShowLastByte | week5-csr-interrupt-trap/lab15-trap-frame-uart-interrupt/trap.c:17-18 | USER_IRQ_FLAG and USER_IRQ_BYTE are (1, last byte taken) from a handled interrupt to the next enabling call, and (0, 0) from there to the next interrupt |
| Transparency.RecordShowsLastByte | week5-csr-interrupt-trap/lab15-trap-frame-uart-interrupt/trap.c:23-24 | From the first byte taken on lab15_last_claim is 10 and lab15_last_uart_byte the last byte taken, in every state of a run |
| Transparency.HandledIfUart | week5-csr-interrupt-trap/lab15-trap-frame-uart-interrupt/trap.c:50-57 | An interrupt is handled iff the PLIC presents source 10; any other source stops the machine |
| Transparency.OnlyUartKept | week5-csr-interrupt-trap/lab15-trap-frame-uart-interrupt/plic.c:32-47 | The kernel never enables another source |
| Transparency.DeliveredIsHandled | week5-csr-interrupt-trap/lab15-trap-frame-uart-interrupt/trap.c:43-70 | If no other source is enabled, no delivered interrupt halts the machine, whatever bytes arrive while it is handled |
| Transparency.InterruptsNeverHalt | week5-csr-interrupt-trap/lab15-trap-frame-uart-interrupt/trap.c:43-70 | Over whole runs that start with no other source enabled: in every state a delivered interrupt is handled, whatever the C code leaves and whatever bytes arrive meanwhile |
| Transparency.EnterUserIsGood | week5-csr-interrupt-trap/lab15-trap-frame-uart-interrupt/enter_user.S:8-20 | enter_user and its sret start such a run: user mode, entry, user stack, kernel sp in sscratch |
| Transparency.OutsideKeeps | week5-csr-interrupt-trap/lab15-trap-frame-uart-interrupt/trap.c:43-70 | What one arrival or interrupt, with bytes arriving inside its handler, keeps of the user and of the bytes |
| Probe.RetireIsSane | week5-csr-interrupt-trap/lab15-trap-frame-uart-interrupt/user/interrupt_probe.S:21-70 | Every machine instruction of the user program keeps the sentinels and stays out of user_fail |
| Probe.VerifyDecides | week5-csr-interrupt-trap/lab15-trap-frame-uart-interrupt/user/interrupt_probe.S:59-70 | verify_sentinels returns to its caller if all five registers hold their sentinels, and otherwise goes to user_fail; it changes nothing but t0 |
| Probe.FailureExits | week5-csr-interrupt-trap/lab15-trap-frame-uart-interrupt/user/interrupt_probe.S:52-55 | user_fail exits with code 1 |
| Probe.NeverFails | week5-csr-interrupt-trap/lab15-trap-frame-uart-interrupt/user/interrupt_probe.S:21-70 | In every state of every run of the lab's own user program, with any arrivals, also inside handlers, and with interrupts between any two machine instructions (also inside a call and inside the li of the flag's address), the five sentinel registers hold their values and user_fail is not reached |
| Probe.ExitsWithZero | week5-csr-interrupt-trap/lab15-trap-frame-uart-interrupt/user/interrupt_probe.S:29-50 | Each of its system calls returns or exits with code 0, whatever bytes arrive during the call; the exit comes only after a handled interrupt, with the cells showing (1, last byte taken) |
| Probe.Finishes | week5-csr-interrupt-trap/lab15-trap-frame-uart-interrupt/user/interrupt_probe.S:39-50 | Once the flag is set it reaches its exit within a fixed number of its own instructions, however often it is interrupted |
| TrapHandler.HandleTrap | week5-csr-interrupt-trap/lab15-trap-frame-uart-interrupt/trap.S:9-118 | The whole path executed in place: how it ends for both kinds of trap, and, when it returns, the user's registers, memory and pc, the cells, the devices, the claim log and sstatus |
| IrqSection.IsrNeverSeesBroken | week6-thread/lab18-race-lock-irq/kernel.c:149-163 | For any program of protected updates and nested sections and interrupts wherever SIE is 1, the handler never finds event_checksum != 3 * event_count modulo 2^64 |
| IrqSection.SectionsRestoreStatus | week6-thread/lab18-race-lock-irq/kernel.c:128-148 | At the end SIE is what it was and so is every bit but SPIE and SPP, which interrupts use; without interrupts sstatus is the same word |
| IrqSection.NoInterruptInside | week6-thread/lab18-race-lock-irq/kernel.c:128-148 | No interrupt comes inside a section, however deeply nested |
| IrqSection.ProtectedUpdatesAddUp | week6-thread/lab18-race-lock-irq/kernel.c:157-163 | Every update is counted once and the checksum agrees |
| IrqSection.UnprotectedShowsBroken | week6-thread/lab18-race-lock-irq/kernel.c:152-156 | The unprotected update shows the handler a broken pair from every consistent state |
| IrqSection.Events.IrqSaveDisable | week6-thread/lab18-race-lock-irq/kernel.c:128-139 | Returns sstatus as it was and clears bit 1 and no other |
| IrqSection.Events.IrqRestore | week6-thread/lab18-race-lock-irq/kernel.c:140-148 | Sets bit 1 to what the saved value says and leaves every other bit |
| IrqSection.Events.UnprotectedEventUpdate | week6-thread/lab18-race-lock-irq/kernel.c:152-156 | Always leaves isr_saw_broken_invariant set |
| IrqSection.Events.ProtectedEventUpdate | week6-thread/lab18-race-lock-irq/kernel.c:157-163 | Leaves the flag and sstatus as they were, counts one event |
| IrqSection.Events.PartC | week6-thread/lab18-race-lock-irq/kernel.c:180-187 | Part C of lab18_main passes from every sstatus, leaves it unchanged, and ends with one event counted, its checksum, and the flag clear |
| ElfFormat.HeaderRoundTrip | week5-csr-interrupt-trap/lab15-trap-frame-uart-interrupt/elf_loader.c:16-31 | A written ELF64 header reads back, whatever follows it |
| ElfFormat.SegmentsRoundTrip | week5-csr-interrupt-trap/lab15-trap-frame-uart-interrupt/elf_loader.c:33-42 | A written program header table reads back, whatever stands around it |
| ElfRules.FieldIsNumber | week5-csr-interrupt-trap/lab15-trap-frame-uart-interrupt/elf_loader.c:16-42 | A header field is the little-endian number at its place, byte by byte |
| ElfAcceptance.HeaderCodes | week5-csr-interrupt-trap/lab15-trap-frame-uart-interrupt/elf_loader.c:65-78 | Each of the codes -1 to -5 for exactly the byte strings that pass the checks before and fail that one, in the bytes of the file |
| ElfAcceptance.TableIsInFile | week5-csr-interrupt-trap/lab15-trap-frame-uart-interrupt/elf_loader.c:80-87 | The loader's table is e_phnum headers at e_phoff, each field at its place in the file |
| ElfAcceptance.AcceptedIff | week5-csr-interrupt-trap/lab15-trap-frame-uart-interrupt/elf_loader.c:58-118 | For every byte string: status 0 iff the header and the table are right, every PT_LOAD fits the file and the window 0x80400000-0x80410000, and the entry lies between the start of one PT_LOAD and the end of one |
| ElfAcceptance.RefusalCodes | week5-csr-interrupt-trap/lab15-trap-frame-uart-interrupt/elf_loader.c:83-117 | -6 and -7 for the first bad PT_LOAD, by what is wrong with it; -8 otherwise |
| ElfLoader.RangeInsideIsInterval | week5-csr-interrupt-trap/lab15-trap-frame-uart-interrupt/elf_loader.c:44-46 | For all words range_inside is the interval test over the integers |
| ElfLoader.LastCoverIsLast | week5-csr-interrupt-trap/lab15-trap-frame-uart-interrupt/elf_loader.c:83-112 | The segment that decides a byte is the last PT_LOAD that covers it, none iff none does |
| ElfLoader.SuccessLoadsAll | week5-csr-interrupt-trap/lab15-trap-frame-uart-interrupt/elf_loader.c:83-118 | On return 0 every byte is what the last PT_LOAD that spans it says, the file's byte at p_offset plus the distance, or zero from p_filesz up to p_memsz; and unchanged if none spans it |
| ElfLoader.Confined | week5-csr-interrupt-trap/lab15-trap-frame-uart-interrupt/elf_loader.c:92-106 | On every return code no byte outside 0x80400000-0x80410000 changes, also when a later segment is refused |
| ElfLoader.HullIsExact | week5-csr-interrupt-trap/lab15-trap-frame-uart-interrupt/elf_loader.c:80-111 | segment_start and segment_end are the exact minimum and maximum over the PT_LOADs, inside the window |
| ElfLoader.EntryInHull | week5-csr-interrupt-trap/lab15-trap-frame-uart-interrupt/elf_loader.c:113-117 | After a success the entry lies between the first and the last loaded segment |
| ElfLoader.EntryNeedNotBeLoaded | week5-csr-interrupt-trap/lab15-trap-frame-uart-interrupt/elf_loader.c:113-117 | It need not be a loaded byte: an accepted file with its entry in a gap |
| ElfLoader.HullCoveredIff | week5-csr-interrupt-trap/lab15-trap-frame-uart-interrupt/elf_loader.c:83-117 | The exact condition: for every accepted table, each address from segment_start to segment_end is covered by a PT_LOAD iff every PT_LOAD ends at segment_end or at a byte of a PT_LOAD |
| ElfLoader.EntryIsLoaded | week5-csr-interrupt-trap/lab15-trap-frame-uart-interrupt/elf_loader.c:113-117 | For every accepted file whose table meets that condition the entry is a loaded byte |
| ElfLoader.GapAdmitsEntry | week5-csr-interrupt-trap/lab15-trap-frame-uart-interrupt/elf_loader.c:113-117 | For every accepted file whose table does not, there is an entry outside all PT_LOADs with which every file of that size and table is accepted |
| ElfLoader.GapIsReached | week5-csr-interrupt-trap/lab15-trap-frame-uart-interrupt/elf_loader.c:113-117 | Such a file exists whenever the table does not overlap the entry field (phoff >= 32, as in every file whose table follows the header): an accepted file of the same size and table whose entry is not a loaded byte |
| ElfLoader.EntryLoadedIff | week5-csr-interrupt-trap/lab15-trap-frame-uart-interrupt/elf_loader.c:65-117 | For well-formed files: the condition holds iff every entry with which the loader accepts the file is a loaded byte |
| ElfLoader.WrittenFileLoads | week5-csr-interrupt-trap/lab15-trap-frame-uart-interrupt/elf_loader.c:65-117 | A well-formed file is accepted iff each PT_LOAD fits file and window, there is one, and the entry lies in their hull |
| ElfLoader.Loader.CopyBytes | week5-csr-interrupt-trap/lab15-trap-frame-uart-interrupt/elf_loader.c:48-51 | The loop copies exactly count bytes and touches no other |
| ElfLoader.Loader.ZeroBytes | week5-csr-interrupt-trap/lab15-trap-frame-uart-interrupt/elf_loader.c:53-56 | The loop zeroes exactly count bytes and touches no other |
| ElfLoader.Loader.LoadSegment | week5-csr-interrupt-trap/lab15-trap-frame-uart-interrupt/elf_loader.c:92-106 | One PT_LOAD: p_filesz bytes of the file from p_offset on, zeros up to p_memsz, all others unchanged |
| ElfLoader.Loader.CheckHeader | week5-csr-interrupt-trap/lab15-trap-frame-uart-interrupt/elf_loader.c:65-78 | Return codes -1 to -5 for every byte string, and no header read outside the image |
| ElfLoader.Loader.LoadUserElf | week5-csr-interrupt-trap/lab15-trap-frame-uart-interrupt/elf_loader.c:58-118 | For every byte string the return code; on every return code the memory (byte by byte from the last covering segment among those loaded so far) and the result fields; no address sum wraps |

## Left out

- UART output (`putc`, `puts`, `uart_puts`) and its polling loops: no state that later code reads.
- Boot code, PMP and delegation setup, linker scripts, Makefiles and check scripts: configuration; their effect is assumed.
- The exercise branches and the todo checkpoints: they halt or repeat the solution branch.
- Halting loops (`kernel_unexpected_trap`, "no runnable thread", "non-owner release", the loop after `thread_exit`): one outcome that stops the machine, without what they print.
- `kernel_exit_from_user` after SYS_EXIT: the run ends with the exit code; the two messages are not modelled.
- Lab 14's reduced save area: superseded by lab 15's frame.
- Weeks 1 to 4: short programs without state that spans calls.
- Several harts, timer preemption and nested supervisor traps: not in the code.
- Requests of sources other than the UART while a handler runs: they are made in user mode only. UART bytes arrive at any time; inside a handler this is between the claim and the look at the UART, or between the read and the completion, which stand for all moments because nothing else there looks at the UART or the PLIC.
- A full UART receive FIFO: the model's FIFO is unbounded.
- User programs that read the two shared cells, in general: the transparency theorems are about programs whose memory does not include the cells; the one program of the lab that reads them is modelled itself (`Probe.dfy`).
- Instruction encodings: code is fetched from a table and not from memory. The user program of lab 15 is its machine instructions, with each call as auipc and jalr (its Makefile forbids relaxation) and the flag's address made by lui, addiw and slli; addiw is an addition, which is exact for its operands. In lab 16, where no interrupt comes, `la`, `li` and `call` are one instruction each.
- Isolation of kernel memory: lab 15 has none (`boot.S` opens all RAM to user mode), so the user program is assumed to keep to its own memory.
- Names of threads and conditions, and addresses of thread objects: a thread is its slot; the stack and trampoline addresses that `thread_spawn` stores are modelled.
- Tables of more than 2^64 threads: excluded, so that `live_workers` never wraps.
- Granularity of C statements: a worker's statement between two calls of the kernel is one step, which is exact here because threads only change at such calls.
- The program point of a thread in labs 17 and 18 is explicit state and a switch is a change of `tp`; that machine code continues where it left off is proved about `_swtch` (`ContextSwitch.dfy`) and about runs of scheduler and `_swtch` together (`Resumption.dfy`), not about compiled C code.
- Pointer alignment, compiler layout and volatile accesses: fields are decoded at fixed offsets, device registers are state.

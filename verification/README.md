# A verified model of the RPi OS kernel

The repository builds a small operating system for the Raspberry Pi 3 in six lessons. This project
models the kernel of lesson 6 (virtual memory management), and the page-freeing exit of lesson 5, and
proves what its parts promise. Line numbers in the comments and in the table below are those of the
repository's files.

## How it is organised

Most parts have three layers. A *specification* on values says what each C function or assembly
sequence does to the state, with the constants, branches and error returns of the source. *Theorems*
are proved about it, over all inputs and over all runs. The *code* layer is the same operation written
imperatively (classes whose fields the methods update, arrays written in place, the loops of the
source), and every method is proved to compute what the specification says.

| part | specification and theorems | code |
|---|---|---|
| page allocator, page tables, fork | `Limits`, `Bits`, `PhysMem`, `Mmu`, `PageTables`, `MapPages`, `SideIndexes`, `CopyMemory`, `CopyVirt`, `AddressSpaces`, `Machine`, `Runs`, `Isolation`, `FaultRun`, `AliasedFault`, `EntryPoints`, `Capacity` | `MemoryWords`, `KernelMemory` |
| boot tables | `BootTables` | `MemoryWords`, `BootCode` |
| scheduler | `Scheduler`, `SchedulerRuns`, `Lifecycle`, `Fairness`, `TickShare` | `SchedulerCode` |
| preemption protocol | `Preemption` (a step machine in which a tick may come between any two steps), `StepLifecycle`, `Starvation`, `Progress`, `Debt`, `AtomicSchedule`, `AtomicRuns` | |
| registers, exception frames, context switch | `Registers`, `StackLayout`, `KernelStacks`, `StackSafety`, `Transparency` | `RegistersCode` |
| number formatting | `Numerals`, `FormatSpec`, `Conversions` | `PrintfCode` |
| lesson 5 frame conservation | `Lesson5`, `Handouts` | `Lesson5Code` |

**Memory.** Physical memory is one sequence of 64-bit words. Translation tables, user pages and the page
of a `task_struct` are 4 KB frames in it, and `Mmu.Walk` is the four-level walk of the VMSAv8-64 chapter
of the Arm Architecture Reference Manual (DDI 0487) on those words. The proofs rest on an ownership map
from positions (the `task_struct` of task t; the node of task t's tree at a depth and key) to frames,
each frame owned once. `Isolation.ReachableStates` states the outcome without the map: on `mem_map`,
memory and the task list only. Kernel code may store to any word below LOW_MEMORY at any time, as it does
to init's stack and the kernel's variables; theorems that need a part of that memory unchanged say which
(`Isolation.Spares`). `Capacity.CodeFitsInRuns` connects the layers: in every run the imperative kernel's
preconditions hold.

**Scheduler.** A scheduling call is one step in `SchedulerRuns`; in `Preemption` the same code is taken
apart so that ticks fall between the reads of a scan, and between `current = next` and the change of
stacks. `AtomicRuns` proves that a run without ticks inside a choice of `_schedule` is a run of the first
machine. `Fairness` and `Starvation` prove no starvation on the two machines with a potential: what the
other tasks' counters, and after a refill their priorities, can still make a task wait. `Debt` shows that
the condition of `Starvation.NoStarvation` is needed: a waiting task is served without fail if and only if
its counter is not negative.

**Registers.** In `KernelStacks` the kernel's C code is any sequence of register and memory steps that
follows the calling convention and leaves exception frames and other tasks' stored contexts alone.
What is not arbitrary is the code of `entry.S`, `sched.S` and `copy_process`, which leaves the child's
number in x0; `Transparency.ParentGetsPid` follows it from there to user mode.

**History.** `Info.levels` and `Info.out` (which frames a task has on its stack, what it was switched out
with), `Task.user` and `pending` in `Lesson5`, and the stacks of `Preemption` record what has happened so
that theorems can speak of it; the kernel has no such fields.

## What turned out false, and when it holds

- `a2i` leaves its loop on `digit > base`, so in base 10 it takes `a` and `A` as the digit ten:
  `Numerals.LetterReadAsDecimalDigit` reads `5a` as 60. `Numerals.NumeralRoundTrip` gives the exact
  condition under which it undoes `ui2a`, and `Numerals.WronglyAccepted` the exact set of characters.
- `sys_clone` of lesson 5 does not look at the stack it is given. It keeps frames conserved if and only if
  that is 0 or a malloc'd page that no clone has been given (`Lesson5.CloneKeepsIff`).
  `Lesson5.OwnStackClonedIsLost` is a run from boot after which a task loses its own stack that way.
- A runnable task may wait for ever. A tick that falls into the scan of `_schedule` still lowers the counter
  of the task that scans, which may then leave the processor with a negative counter; and when all counters
  are negative `_schedule` selects init without a refill. `Debt.WaitsForEver` is the starving run, from a
  state that `Debt.DebtorReached` reaches from boot, and `Debt.ServedIff` the exact condition: a counter of
  at least 0.
- `map_page` looks at the low 48 bits of an address only, and `far_el1` can hold any address. A user task
  that touches 2^48 or above gets the page at the low 48 bits replaced by a zero page:
  `AliasedFault.FaultKeepsMappingsIff` and `AliasedFault.FaultKeepsAgreementIff` give the exact conditions,
  `AliasedFault.ProgramPageLost` the run. Other tasks are not affected (`AliasedFault.FaultTakesAlias`).
- Because of the static counter `ind`, `do_mem_abort` returns 0 if and only if it services a translation
  fault and has serviced none before (`Isolation.AbortReturnsZeroIff`). Every later abort hangs its task,
  although the page is mapped (`Isolation.SecondServicedFault`); `FaultRun.TwoFaults` is such a run from any
  boot state.

Where the repository's README and its source differ, the source is followed: the direction of the copies
in `copy_process` and `copy_virt_memory` (README.md:767, 797), and what `_schedule` does when nothing is
runnable (README.md:268): it selects task 0 at once, without refilling.

## Model

| member | source | states |
|---|---|---|
| PhysMem.GetFreePageGivesZeroedFreeFrame | l6_Virtual_Memory_Management/src/mm.c:25-36 | a page handed out was free, is the only one whose mark changes, reads as zero, nothing else changes; 0 exactly when no page is free |
| PhysMem.FirstFree | l6_Virtual_Memory_Management/src/mm.c:27-28 | the scan of mem_map finds the lowest free entry |
| PhysMem.ZeroedFrame | l6_Virtual_Memory_Management/src/mm.S:10-14 | memzero of a page clears every word of that frame and no word of another |
| Mmu.TableIndexIsVaIndex | l6_Virtual_Memory_Management/src/mm.c:53-54 | shift and mask give the index the hardware uses at that level |
| Mmu.TableDescriptor | l6_Virtual_Memory_Management/src/mm.c:57-64 | the entry for a table is valid, leads the walk to that table, and `& PAGE_MASK` gives the table back |
| Mmu.PageDescriptor | l6_Virtual_Memory_Management/src/mm.c:43-49 | the page entry translates to the frame plus the offset, normal memory, accessible from EL0 |
| MapPages.MapTablesOk | l6_Virtual_Memory_Management/src/mm.c:67-87 | the tables down to a level exist afterwards, exactly the missing ones were allocated and listed, other tasks' frames are untouched |
| MapPages.MapPageOk | l6_Virtual_Memory_Management/src/mm.c:67-91 | map_page keeps every frame owned once, the tree shape and the table list, and takes exactly the missing tables |
| MapPages.MapPageUpdatesTranslation | l6_Virtual_Memory_Management/src/mm.c:43-91 | map_page is a map update: the walk gives the page on va's page and the old answer everywhere else |
| MapPages.TranslateIsTree | l6_Virtual_Memory_Management/src/mm.c:51-91 | the hardware walk finds exactly the pages of the task's tree |
| SideIndexes.TablesIndexedAgree | l6_Virtual_Memory_Management/src/mm.c:70-87 | kernel_pages lists, without repetition, exactly the tables the walks reach |
| SideIndexes.PagesIndexedAgree | l6_Virtual_Memory_Management/src/mm.c:89-90 | user_pages lists exactly the mapped (frame, va) pairs with distinct addresses |
| SideIndexes.MapPageKeepsAgreementIff | l6_Virtual_Memory_Management/src/mm.c:67-91 | the table index always stays in agreement; the page index does if and only if va is below 2^48, aligned and unmapped |
| CopyMemory.MemCpyCopies | l6_Virtual_Memory_Management/src/mm.S:1-7 | memcpy into a frame writes exactly the words it covers with the words it reads, for every size up to a page |
| CopyVirt.CopyLoop | l6_Virtual_Memory_Management/src/mm.c:93-104 | after the loop the child has a page at every address of the parent with the parent's words, in tables of its own |
| AddressSpaces.IsTranslationFault | l6_Virtual_Memory_Management/src/mm.c:110-111 | the mask test is met exactly by the translation-fault codes 4 to 7 |
| AddressSpaces.ForkOk | l6_Virtual_Memory_Management/src/fork.c:7-41 | a fork keeps the machine invariant and every existing task's address space, words included |
| AddressSpaces.ForkCopiesMeaning | l6_Virtual_Memory_Management/src/fork.c:22-27 | right after a fork the child reads at every address what the parent reads, faults included, and the parent reads what it read before |
| Machine.MapFreshPage | l6_Virtual_Memory_Management/src/mm.c:15-23 | mapping a fresh page adds one zero page and changes nothing else any task reads |
| Machine.UserStoreUpdatesOneWord | l6_Virtual_Memory_Management/src/mm.c:43-49 | a user store through the tables changes the word at its address and no other word the task reads |
| Runs.EnterUserOk | l6_Virtual_Memory_Management/src/fork.c:43-56 | move_to_user_mode keeps the invariant, loads the image, and leaves other tasks alone |
| Runs.AbortOk | l6_Virtual_Memory_Management/src/mm.c:106-124 | do_mem_abort keeps the invariant, adds a zero page on a translation fault and changes nothing otherwise |
| Runs.StepOk | l6_Virtual_Memory_Management/src/mm.c:15-124 | every event keeps the ownership invariant and every other task's address space |
| Runs.OthersNeverChangeReads | l6_Virtual_Memory_Management/src/sched.c:58-66 | over any run, while a task is not current nothing changes what it reads |
| Isolation.ReachableStates | l6_Virtual_Memory_Management/src/mm.c:15-124 | in every reachable state each frame has one task and one role, is marked exactly when used, both side indexes agree with the walks, and ttbr0 is the current task's pgd |
| Isolation.LowMemoryKept | l6_Virtual_Memory_Management/src/mm.c:25-36 | in any run the memory below LOW_MEMORY changes only where kernel code itself stores to it: no frame handed out, table, page, image copy or user store reaches it |
| Isolation.ForkSnapshot | l6_Virtual_Memory_Management/src/fork.c:22-27 | over any run the child keeps reading the parent's memory as of the fork until it runs itself |
| Isolation.FaultAddsZeroPage | l6_Virtual_Memory_Management/src/mm.c:108-122 | a serviced fault makes the faulting page read as zero and leaves every other read as it was |
| Isolation.EnterUserLoadsImage | l6_Virtual_Memory_Management/src/fork.c:49-54 | after the first entry to user mode page 0 reads as the program image in kernel memory, zero-filled, and the rest is unchanged |
| Isolation.EnterUserLoadsBootImage | l6_Virtual_Memory_Management/src/fork.c:49-54 | if the kernel has stored to no word of the image, what page 0 reads is the image of boot time |
| Isolation.IndIsOneIff | l6_Virtual_Memory_Management/src/mm.c:106-119 | over any run ind is still 1 if and only if no fault has been serviced |
| Isolation.AbortReturnsZeroIff | l6_Virtual_Memory_Management/src/mm.c:106-121 | do_mem_abort returns 0 if and only if it services a translation fault and none was serviced before in the run |
| Isolation.LaterAbortsHang | l6_Virtual_Memory_Management/src/entry.S:187-197 | after the first serviced fault every abort returns -1 and leaves its task hanging |
| Isolation.SecondServicedFault | l6_Virtual_Memory_Management/src/mm.c:106-121 | a second serviced fault maps its page, which reads as zero, and still returns -1 and hangs the task |
| FaultRun.TwoFaults | l6_Virtual_Memory_Management/src/mm.c:106-121 | such a run exists from every boot state: a thread, its entry to user mode and two faults |
| AliasedFault.FaultKeepsMappingsIff | l6_Virtual_Memory_Management/src/mm.c:106-121 | for every 64-bit fault address: a serviced fault leaves the task's other pages alone if and only if the address is below 2^48 or no page is mapped at its low 48 bits |
| AliasedFault.FaultKeepsAgreementIff | l6_Virtual_Memory_Management/src/mm.c:67-91 | and user_pages stays in agreement with the tables if and only if the address is below 2^48 and was not mapped |
| AliasedFault.FaultTakesAlias | l6_Virtual_Memory_Management/src/mm.c:106-121 | for every fault address the page at its low 48 bits reads as zero afterwards, and no other task is affected |
| AliasedFault.ProgramPageLost | l6_Virtual_Memory_Management/src/mm.c:106-121 | the instance: from every boot state, a user task that touches 2^48 is answered with 0 and has its program's page replaced by zeros |
| EntryPoints.SwitchDoes | l6_Virtual_Memory_Management/src/sched.c:58-66 | in every run switch_to makes the given task current and ttbr0 its page table base, or does nothing for the current task; memory, mem_map and tasks stay |
| EntryPoints.CurrentIsLastSwitch | l6_Virtual_Memory_Management/src/sched.c:58-66 | in every reachable state current is the target of the last switch, or init, and ttbr0 is its page table base; before the first switch to another task it may be what boot has left |
| EntryPoints.ForkDoes | l6_Virtual_Memory_Management/src/fork.c:7-41 | for both kinds of task: the result is the old number of tasks if a page was free, and otherwise 1 with nothing changed; the child's page was free; no other task changes |
| EntryPoints.EnterUserDoes | l6_Virtual_Memory_Management/src/fork.c:43-56 | the result is 0 if and only if a page was free, and otherwise -1 with nothing changed; ttbr0 is the task's table; no other task changes |
| EntryPoints.AbortHangsIff | l6_Virtual_Memory_Management/src/entry.S:187-197 | after a data abort the task hangs if and only if do_mem_abort did not return 0; no other task changes |
| EntryPoints.AbortRefused | l6_Virtual_Memory_Management/src/mm.c:108-123 | an abort that is no translation fault, or finds no page, returns -1 and changes nothing |
| EntryPoints.FreePageUnmarks | l6_Virtual_Memory_Management/src/mm.c:38-41 | clears the mark of its page, and no other mark and no word |
| Capacity.CodeFitsInRuns | l6_Virtual_Memory_Management/src/mm.c:67-91 | in every run the fixed-size indexes have room and the imperative kernel can execute the next event |
| MemoryWords.MemZero | l6_Virtual_Memory_Management/src/mm.S:10-14 | the store-then-test loop leaves exactly what Zeroed says |
| KernelMemory.Kernel.MemCpy | l6_Virtual_Memory_Management/src/mm.S:1-7 | the load-store-test loop leaves exactly what MemCpy says, reading through the current tables |
| KernelMemory.Kernel.GetFreePage | l6_Virtual_Memory_Management/src/mm.c:25-36 | the loop over mem_map and the clearing of the page compute GetFreePage |
| KernelMemory.Kernel.FreePage | l6_Virtual_Memory_Management/src/mm.c:38-41 | clears the mark of that page only |
| KernelMemory.Kernel.MapTableEntry | l6_Virtual_Memory_Management/src/mm.c:43-49 | writes the page entry, nothing else |
| KernelMemory.Kernel.MapTable | l6_Virtual_Memory_Management/src/mm.c:51-65 | allocates and links a table only where the entry is 0 |
| KernelMemory.Kernel.MapPage | l6_Virtual_Memory_Management/src/mm.c:67-91 | the pointer-chasing code with its two indexes computes MapPage |
| KernelMemory.Kernel.AllocateUserPage | l6_Virtual_Memory_Management/src/mm.c:15-23 | 0 without a change of the address space when no page is free |
| KernelMemory.Kernel.CopyVirtMemory | l6_Virtual_Memory_Management/src/mm.c:93-104 | the loop over user_pages computes CopyFrom; the result is 0 when the child has got every page of the parent, and otherwise -1, with no page free |
| KernelMemory.Kernel.CopyProcess | l6_Virtual_Memory_Management/src/fork.c:7-41 | the child's page, address space and slot in task[], and the returned pid |
| KernelMemory.Kernel.MoveToUserMode | l6_Virtual_Memory_Management/src/fork.c:43-56 | the mapped code page, the copied image, the new ttbr0 and the result |
| KernelMemory.Kernel.DoMemAbort | l6_Virtual_Memory_Management/src/mm.c:108-124 | the masks, the mapping, the count in ind and the result |
| KernelMemory.Kernel.El0DataAbort | l6_Virtual_Memory_Management/src/entry.S:187-197 | an abort that is not answered with 0 leaves the task hanging |
| KernelMemory.Kernel.SwitchTo | l6_Virtual_Memory_Management/src/sched.c:58-66 | current and ttbr0 follow the task switched to; nothing happens for the current one |
| BootTables.TablesMade | l6_Virtual_Memory_Management/src/boot.S:95-120 | the three tables come out word for word as meant and no other word changes |
| BootTables.FillBlocksAt | l6_Virtual_Memory_Management/src/boot.S:80-93 | the loop writes the entries start to end inclusive, one section apart |
| BootTables.DirectMap | l6_Virtual_Memory_Management/src/boot.S:62-120 | an upper-half address translates exactly when it is VA_START + pa with pa < 2^30, to pa, as device memory exactly from 0x3F000000 on, never for EL0 |
| BootTables.DirectMapStays | l6_Virtual_Memory_Management/src/mm.c:25-36 | in every run in which kernel code does not store to pg_dir the direct map stays as it was built |
| BootCode.Boot.CreateTableEntry | l6_Virtual_Memory_Management/src/boot.S:71-78 | stores the link and advances the table register |
| BootCode.Boot.CreateBlockMap | l6_Virtual_Memory_Management/src/boot.S:80-93 | computes CreateBlockMap, 64-bit addition included |
| BootCode.Boot.CreatePageTables | l6_Virtual_Memory_Management/src/boot.S:95-120 | computes MakeTables |
| Scheduler.ScanFinds | l6_Virtual_Memory_Management/src/sched.c:28-36 | a scan finds the lowest-numbered runnable task of largest counter, or -1 and task 0 when all are negative |
| Scheduler.RefillEndsLoop | l6_Virtual_Memory_Management/src/sched.c:37-46 | after a scan with result 0 the refill makes the next scan find a positive counter |
| Scheduler.SettleSelects | l6_Virtual_Memory_Management/src/sched.c:25-48 | for any counters, at most two scans; the selection, and when exactly a refill happens |
| SchedulerRuns.ScheduleDecides | l6_Virtual_Memory_Management/src/sched.c:22-50 | what _schedule does to each task's counter, state, priority and preempt_count, and to current |
| SchedulerRuns.BootInv | l6_Virtual_Memory_Management/src/sched.c:7-10 | INIT_TASK alone satisfies the run invariant |
| SchedulerRuns.Step | l6_Virtual_Memory_Management/src/sched.c:22-94 | every event keeps: counters at most 2 * priority - 1, init runnable, preempt_count 0 for current and 1 for all others |
| SchedulerRuns.After | l6_Virtual_Memory_Management/src/sched.c:22-94 | the same after any run |
| SchedulerRuns.NeverTruncates | l6_Virtual_Memory_Management/src/sched.c:25-33 | in every run the assignment to `int c` loses nothing |
| Fairness.ZombieNeverRuns | l6_Virtual_Memory_Management/src/sched.c:84-95 | over any run a zombie that is not current is never current again |
| Lifecycle.DieMarks | l6_Virtual_Memory_Management/src/sched.c:84-95 | exit_process makes the current task a zombie and changes nothing else |
| Lifecycle.ForkAdds | l6_Virtual_Memory_Management/src/fork.c:29-40 | copy_process adds exactly one task at the next index, running, with counter and priority equal to its parent's priority and preempt_count 1; no other task changes |
| Lifecycle.ZombieIffExited | l6_Virtual_Memory_Management/src/sched.c:84-95 | over any run a task is a zombie if and only if it was one before or has called exit_process |
| Lifecycle.ExitIsForGood | l6_Virtual_Memory_Management/src/sched.c:84-95 | exit_process with its schedule() gives the processor away, and no run makes the task current again |
| Lifecycle.TasksOnlyGrow | l6_Virtual_Memory_Management/src/fork.c:38-40 | over any run there is one task more for each fork, and a task keeps its priority |
| Lifecycle.BootPriorities | l6_Virtual_Memory_Management/src/sched.c:7-10 | in every run from boot every task has the priority 15 of INIT_TASK |
| Lifecycle.ChildsFirstTurn | l6_Virtual_Memory_Management/src/fork.c:29-31 | an undisturbed child's first turn takes exactly its parent's priority in ticks |
| Fairness.TurnLowersPotential | l6_Virtual_Memory_Management/src/sched.c:22-82 | a tick or yield that does not select the waiting task lowers the potential |
| Fairness.ForkRaisesPotential | l6_Virtual_Memory_Management/src/fork.c:29-38 | a fork raises it by at most twice the largest priority |
| Fairness.HeldTickKeepsPotential | l6_Virtual_Memory_Management/src/sched.c:72-77 | where a scheduling call is one step: a tick that finds preemption held off between such calls never raises the potential |
| Fairness.NoStarvation | l6_Virtual_Memory_Management/src/sched.c:22-82 | where a scheduling call is one step: a waiting runnable task with a counter of at least 0 is selected within as many ticks and yields as the sum of the others' positive counters and their priorities, plus twice the largest priority per fork; held ticks between scheduling calls may come in and are not counted |
| Fairness.SolventRun | l6_Virtual_Memory_Management/src/sched.c:22-82 | in runs whose scheduling calls are one step each, the counter of a task that is not current is never negative |
| Fairness.EveryWaitEnds | l6_Virtual_Memory_Management/src/sched.c:22-82 | in such runs from boot, at any point, every runnable task is selected within that bound |
| Starvation.StepPays | l6_Virtual_Memory_Management/src/sched.c:12-82 | with ticks between any two steps of the kernel: a step that does not select the waiting task never raises its potential but by a fork, and a tick or schedule() in a task's own code lowers it |
| Starvation.NoStarvation | l6_Virtual_Memory_Management/src/sched.c:12-82 | with ticks between any two steps: a runnable task off the processor with a counter of at least 0 is selected before the others have had more turns in their own code than their counters and priorities and twice the largest priority per fork add up to |
| Progress.KernelCodeEnds | l6_Virtual_Memory_Management/src/sched.c:22-50 | while such a task waits, the kernel's code takes a bounded number of steps for each call or tick that starts some of it; so the loop of _schedule ends although ticks fall into it |
| Debt.DebtorReached | l6_Virtual_Memory_Management/src/sched.c:72-77 | from boot, through ticks that fall into scans, a task can be switched out with any negative counter |
| Debt.WaitsForEver | l6_Virtual_Memory_Management/src/sched.c:22-50 | counterexample: init calls schedule() for ever, a tick falls into each scan, and the task with the negative counter is never selected |
| Debt.ServedIff | l6_Virtual_Memory_Management/src/sched.c:22-82 | a task off the processor with counter d is always selected within a bounded number of turns if and only if d is at least 0 |
| Debt.CalmRunsServe | l6_Virtual_Memory_Management/src/sched.c:22-82 | after a run from boot with no tick inside a choice of _schedule every waiting task is served, however the ticks fall from then on |
| Fairness.CountersStayNonNegative | l6_Virtual_Memory_Management/src/sched.c:72-82 | without ticks during held preemption no counter is ever negative |
| TickShare.ProportionalShare | l6_Virtual_Memory_Management/src/sched.c:25-82 | between two consecutive refills an undisturbed task is charged exactly its priority in ticks |
| SchedulerCode.Sched.PreemptDisable | l6_Virtual_Memory_Management/src/sched.c:12-15 | raises the current preempt_count and nothing else |
| SchedulerCode.Sched.PreemptEnable | l6_Virtual_Memory_Management/src/sched.c:17-20 | lowers it and nothing else |
| SchedulerCode.Sched.SwitchTo | l6_Virtual_Memory_Management/src/sched.c:58-66 | current becomes the task found, and no task changes |
| SchedulerCode.Sched.ScanTasks | l6_Virtual_Memory_Management/src/sched.c:28-36 | the first loop computes the scan, null slots skipped |
| SchedulerCode.Sched.RefillTasks | l6_Virtual_Memory_Management/src/sched.c:41-46 | the second loop computes the refill of every task, zombies included |
| SchedulerCode.Sched.PickNext | l6_Virtual_Memory_Management/src/sched.c:27-47 | the outer loop ends and computes Settle |
| SchedulerCode.Sched.ScheduleCore | l6_Virtual_Memory_Management/src/sched.c:22-50 | computes the scheduling step, preempt counts included |
| SchedulerCode.Sched.Schedule | l6_Virtual_Memory_Management/src/sched.c:52-56 | clears the current counter first |
| SchedulerCode.Sched.TimerTick | l6_Virtual_Memory_Management/src/sched.c:72-82 | decrements, returns early on a positive counter or held preemption, otherwise schedules |
| SchedulerCode.Sched.ScheduleTail | l6_Virtual_Memory_Management/src/sched.c:68-70 | a new task takes back its own preempt_count |
| SchedulerCode.Sched.ExitProcess | l6_Virtual_Memory_Management/src/sched.c:84-95 | marks the current task found in task[] as zombie and schedules |
| SchedulerCode.Sched.AddChild | l6_Virtual_Memory_Management/src/fork.c:9-40 | the child's scheduling fields, slot and pid |
| Preemption.PreemptCountNests | l6_Virtual_Memory_Management/src/sched.c:12-82 | however ticks fall, every task that is not current has preempt_count 1 and takes it back in _schedule or schedule_tail; the current one has 1 exactly inside a section |
| Preemption.NoSwitchInsideScan | l6_Virtual_Memory_Management/src/sched.c:22-50 | current changes only in switch_to; a tick during scan or refill only decrements the scanning task's counter; no two tasks are inside at once |
| Preemption.ChoiceSurvivesTicks | l6_Virtual_Memory_Management/src/sched.c:27-48 | the task that reaches switch_to is the right one although ticks came between the reads |
| Preemption.RunKeeps | l6_Virtual_Memory_Management/src/sched.c:12-95 | every run of the step machine keeps its invariant: nesting of preempt_count, what a scan has found so far, bounded counters |
| AtomicSchedule.ScheduleRunsAtomically | l6_Virtual_Memory_Management/src/sched.c:22-50 | executed step by step without a tick, _schedule is exactly the single step of Scheduler |
| AtomicRuns.StepProjects | l6_Virtual_Memory_Management/src/sched.c:12-95 | a step other than a tick inside a choice of _schedule is one event of the machine with atomic scheduling calls, or none |
| AtomicRuns.BootRunProjects | l6_Virtual_Memory_Management/src/sched.c:12-95 | a whole run from boot without such ticks is a run of that machine, and the two agree on every field of every task whenever no choice is being made |
| AtomicRuns.NoDebtWithoutTickInside | l6_Virtual_Memory_Management/src/sched.c:72-77 | only a tick inside a choice of _schedule leaves a task off the processor with a negative counter |
| Preemption.ZombieNeverRuns | l6_Virtual_Memory_Management/src/sched.c:84-95 | also with ticks anywhere, a zombie off the processor never runs again |
| StepLifecycle.ExitingMarks | l6_Virtual_Memory_Management/src/sched.c:86-91 | with ticks between any two steps: the step in exit_process makes the task a zombie and changes nothing else |
| StepLifecycle.ForkingAdds | l6_Virtual_Memory_Management/src/fork.c:29-40 | the step in copy_process adds the child's task and stack, and changes no other task |
| StepLifecycle.ForkCallAdds | l6_Virtual_Memory_Management/src/fork.c:9-41 | a whole copy_process without a tick adds the child and leaves every other field of every task as it was |
| StepLifecycle.TickDoes | l6_Virtual_Memory_Management/src/sched.c:72-82 | a tick takes one off the current counter; if preemption is not held off and nothing is left, the counter becomes 0 and _schedule is entered; nothing else changes |
| StepLifecycle.ZombieIffExited | l6_Virtual_Memory_Management/src/sched.c:84-95 | over any run of the step machine a task is a zombie if and only if it was one before or has exited |
| StepLifecycle.ExitNeverReturns | l6_Virtual_Memory_Management/src/sched.c:84-95 | however the ticks fall, a task that has called exit_process never gets back to its own code |
| StepLifecycle.ExitIsForGood | l6_Virtual_Memory_Management/src/sched.c:84-95 | and once it is off the processor it never comes back |
| Registers.ExitUndoesEntry | l6_Virtual_Memory_Management/src/entry.S:19-78 | kernel_entry writes only its 272-byte frame in pt_regs layout; kernel_exit at that frame gives back all 31 registers, elr, spsr, sp and for EL0 sp_el0 |
| Registers.SwitchLoadsContext | l6_Virtual_Memory_Management/src/sched.S:3-24 | cpu_switch_to stores the callee-saved context of prev, only that, and loads that of next |
| Registers.EntryDoes | l6_Virtual_Memory_Management/src/entry.S:19-48 | each word of the frame, with the stack pointer of the interrupted level, and each register afterwards |
| Registers.SwitchUsesScratch | l6_Virtual_Memory_Management/src/sched.S:3-24 | of the other registers cpu_switch_to changes x8, x9 and x10 only |
| RegistersCode.Cpu.KernelEntry | l6_Virtual_Memory_Management/src/entry.S:19-48 | the instruction sequence computes KernelEntry for both levels |
| RegistersCode.Cpu.KernelExit | l6_Virtual_Memory_Management/src/entry.S:50-78 | the instruction sequence computes KernelExit for both levels |
| RegistersCode.Cpu.CpuSwitchTo | l6_Virtual_Memory_Management/src/sched.S:3-24 | the instruction sequence with the moving pointer computes CpuSwitchTo, scratch registers included |
| RegistersCode.Cpu.StartChild | l6_Virtual_Memory_Management/src/fork.c:14-35 | what copy_process stores in the child's cleared page |
| StackLayout.ForkWritesChild | l6_Virtual_Memory_Management/src/fork.c:14-35 | the child's context and frame read as intended (x19 = 0 from the zeroed page unless a kernel thread), nothing outside the page changes |
| StackSafety.StepKeeps | l6_Virtual_Memory_Management/src/entry.S:19-78 | every step keeps all exception frames, all stored contexts, and for user mode the empty kernel stack |
| Transparency.BootedInv | l6_Virtual_Memory_Management/src/boot.S:43-44 | init alone on the boot stack satisfies the run invariant |
| Transparency.SwitchIsTransparent | l6_Virtual_Memory_Management/src/sched.S:3-24 | over any run a task resumes with the x19-x28, fp, sp and return address it was switched out with |
| Transparency.TrapFillsPtRegs | l6_Virtual_Memory_Management/src/fork.c:58-62 | in user mode the kernel sp is the page + THREAD_SIZE, so the frame of a trap lies exactly at task_pt_regs, in its layout |
| Transparency.ExceptionIsTransparent | l6_Virtual_Memory_Management/src/entry.S:19-78 | over any run, interrupts, switches and forks in between included, kernel_exit gives back every word not stored through task_pt_regs |
| Transparency.ChildStartsInRetFromFork | l6_Virtual_Memory_Management/src/entry.S:199-207 | the first switch to a child arrives in ret_from_fork at its frame, and takes ret_to_user unless it is a kernel thread |
| Transparency.ForkIsTransparent | l6_Virtual_Memory_Management/src/fork.c:22-35 | the child's first return to user mode restores the parent's registers, sp, pc and pstate at the svc, with x0 = 0 |
| Transparency.ResultReachesUser | l6_Virtual_Memory_Management/src/entry.S:182-185 | x0 at ret_from_syscall is x0 in user mode, and every other register is what the frame holds |
| Transparency.X0IsCarried | l6_Virtual_Memory_Management/src/entry.S:145-148 | interrupts taken on the way, with the switches and system calls of other tasks in between, do not change x0 |
| Transparency.ParentGetsPid | l6_Virtual_Memory_Management/src/fork.c:37-40 | the parent's whole fork call, from svc to eret: copy_process leaves the child's index in x0, and over any run with interrupts in between user mode gets it in x0, with every other register, sp, pc and pstate as at the svc |
| Transparency.StoredWordIsRestored | l6_Virtual_Memory_Management/src/entry.S:182-185 | a word stored through task_pt_regs is what the next return to user mode loads |
| Transparency.KernelThreadEntersUserMode | l6_Virtual_Memory_Management/src/fork.c:43-48 | after move_to_user_mode the thread returns to EL0 at pc with sp = 2 * PAGE_SIZE |
| Numerals.DigitsWrite | l6_Virtual_Memory_Management/src/printf.c:60-76 | the numeral has digits below the base, the right value and no leading zero |
| Numerals.NumeralUnique | l6_Virtual_Memory_Management/src/printf.c:60-76 | it is the only such digit sequence |
| Numerals.DigitsFit | l6_Virtual_Memory_Management/src/printf.c:128-128 | ten decimal or eight hexadecimal digits are enough |
| Numerals.Signed | l6_Virtual_Memory_Management/src/printf.c:78-85 | sign and digits take at most 11 characters, so with NUL they fit in 12 |
| Numerals.A2i | l6_Virtual_Memory_Management/src/printf.c:98-111 | a2i takes exactly the leading run of accepted characters |
| Numerals.NumeralRoundTrip | l6_Virtual_Memory_Management/src/printf.c:60-111 | below 2^31 a2i gives back the printed number and stops after it if and only if it does not accept the next character |
| Numerals.LetterReadAsDecimalDigit | l6_Virtual_Memory_Management/src/printf.c:104-104 | counterexample: in base 10 a letter is read as the digit ten |
| Numerals.WronglyAccepted | l6_Virtual_Memory_Management/src/printf.c:103-104 | exactly the characters accepted that are no digits of the base |
| FormatSpec.PlainText | l6_Virtual_Memory_Management/src/printf.c:133-135 | a format without percent signs prints itself |
| FormatSpec.FormatAppend | l6_Virtual_Memory_Management/src/printf.c:126-202 | formats compose: a complete format prints the same whatever follows it |
| FormatSpec.SpecIsRead | l6_Virtual_Memory_Management/src/printf.c:142-149 | a percent sign, a zero flag, a width and a conversion are read as written; the width is not taken for the flag |
| FormatSpec.ZeroPaddedNumber | l6_Virtual_Memory_Management/src/printf.c:113-170 | what tfp_format prints for "%0Nd": the exact length, the sign after the zeros; so a2i reads the number back if it is not negative and only the zeros otherwise |
| Conversions.NumberConversion | l6_Virtual_Memory_Management/src/printf.c:159-187 | what tfp_format prints for %u, %x and %X with any zero flag and width: the only numeral of the argument in base 10 or 16, without leading zero, in lower or upper case, padded on the left to the exact width; a2i reads it back below 2^31 |
| Conversions.NumeralTextUnique | l6_Virtual_Memory_Management/src/printf.c:60-76 | a number has one such text in each base and case |
| Conversions.DecimalConversion | l6_Virtual_Memory_Management/src/printf.c:169-178 | %d: the two's complement value, a minus sign directly before its digits, padded |
| Conversions.TextConversion | l6_Virtual_Memory_Management/src/printf.c:191-193 | %s: the text, padded with blanks whatever the flag |
| Conversions.CharConversion | l6_Virtual_Memory_Management/src/printf.c:188-190 | %c: the one character |
| Conversions.OtherConversion | l6_Virtual_Memory_Management/src/printf.c:194-198 | %% prints a percent sign, any other conversion nothing, and neither takes an argument |
| Conversions.CutOffSpec | l6_Virtual_Memory_Management/src/printf.c:156-158 | a specification cut off by the end of the format prints nothing |
| PrintfCode.LargestPower | l6_Virtual_Memory_Management/src/printf.c:63-65 | the first loop of ui2a finds the weight of the leading digit, without overflow of the unsigned d |
| PrintfCode.Ui2a | l6_Virtual_Memory_Management/src/printf.c:60-76 | writes the canonical numeral and NUL into the buffer, nothing else |
| PrintfCode.I2a | l6_Virtual_Memory_Management/src/printf.c:78-85 | the same with sign, for every int with wrapping negation |
| PrintfCode.A2i | l6_Virtual_Memory_Management/src/printf.c:98-111 | the loop over the moving pointer computes A2i and never reads past the NUL |
| PrintfCode.Printer.Putchw | l6_Virtual_Memory_Management/src/printf.c:113-124 | max(0, width - length) pad characters, then the text |
| PrintfCode.Printer.TfpFormat | l6_Virtual_Memory_Management/src/printf.c:126-202 | emits exactly the text FormatSpec assigns to the format and arguments; every read is at or before the NUL |
| Lesson5.GetPageMarks | l5_UserProcesses_SystemCalls/src/mm.c:5-15 | get_free_page marks the page it returns and no other |
| Lesson5.CloneKeepsIff | l5_UserProcesses_SystemCalls/src/fork.c:8-44 | clone keeps frames conserved if and only if its stack is 0 or a malloc'd page not given to a clone before |
| Lesson5.OwnStackClonedIsLost | l5_UserProcesses_SystemCalls/src/sys.c:12-15 | counterexample from boot: a task clones with its own stack page, and when the clone exits that page is free while still the task's stack |
| Lesson5.ExitKeeps | l5_UserProcesses_SystemCalls/src/sched.c:85-99 | exit frees the task's own stack, which was marked, and nothing else; nobody owns it afterwards |
| Lesson5.EnterKeeps | l5_UserProcesses_SystemCalls/src/fork.c:46-59 | move_to_user_mode records the stack page it takes |
| Lesson5.FramesAreConserved | l5_UserProcesses_SystemCalls/src/sys.c:12-29 | in every run a frame is marked exactly when it is a task_struct page, a live task's stack or a malloc'd page not yet given to a clone |
| Handouts.MallocDoes | l5_UserProcesses_SystemCalls/src/sys.c:17-24 | if a page is free: the page was unmarked and nobody's, is then the only one newly marked and waits for a clone; otherwise nothing changes; tasks stay |
| Handouts.MallocsDiffer | l5_UserProcesses_SystemCalls/src/sys.c:17-24 | over any run two calls hand out different pages, unless a task that has got the first as its stack has exited in between |
| Handouts.PendingIsNobodys | l5_UserProcesses_SystemCalls/src/sys.c:17-24 | in every run a page handed out and not given to a clone is marked and is no task's task_struct or stack |
| Handouts.CloneDoes | l5_UserProcesses_SystemCalls/src/fork.c:8-44 | the new task's page was free and nobody's; its stack is the one given; nothing else changes |
| Handouts.ThreadDoes | l5_UserProcesses_SystemCalls/src/fork.c:8-44 | the same for a kernel thread, whose stack field keeps what the page held |
| Handouts.EnterDoes | l5_UserProcesses_SystemCalls/src/fork.c:46-59 | the current task's stack is a page that was free and nobody's; nothing else changes |
| Handouts.ExitDoes | l5_UserProcesses_SystemCalls/src/sched.c:85-99 | the current task becomes a zombie, and no other task changes |
| Lesson5.StackFreedOnce | l5_UserProcesses_SystemCalls/src/sched.c:85-99 | over any run a task that becomes a zombie exits, and so frees its stack, exactly once |
| Lesson5Code.Kernel.GetFreePage | l5_UserProcesses_SystemCalls/src/mm.c:5-15 | the loop computes GetPage |
| Lesson5Code.Kernel.FreePage | l5_UserProcesses_SystemCalls/src/mm.c:17-20 | computes PutPage |
| Lesson5Code.Kernel.SysMalloc | l5_UserProcesses_SystemCalls/src/sys.c:17-24 | the page, or -1 |
| Lesson5Code.Kernel.CopyProcess | l5_UserProcesses_SystemCalls/src/fork.c:8-44 | the child's page, stack field, slot and pid, or 1 when no page is free |
| Lesson5Code.Kernel.MoveToUserMode | l5_UserProcesses_SystemCalls/src/fork.c:46-59 | the recorded stack, or -1 |
| Lesson5Code.Kernel.ExitProcess | l5_UserProcesses_SystemCalls/src/sched.c:85-97 | marks the zombie and frees its stack if it has one |

## Left out

- Runs.StepOk: allocation failure half-way through `map_page` or `copy_virt_memory`, more than 16 user pages or 15 tables per task, more than 64 tasks, addresses of 2^48 and above, and program sizes outside 1..4096 are excluded by `Enabled`; the source does not recover from them. A failing first allocation (return 1, -1) is modelled.
- Fairness.NoStarvation, Fairness.SolventRun, Fairness.EveryWaitEnds: a tick inside a scheduling call is not an event of their runs; `Starvation.NoStarvation` and `Debt.ServedIff` are the results with such ticks.
- Isolation.FaultAddsZeroPage: runs have no faults at addresses of 2^48 and above; `AliasedFault` says what one such fault does, and not what the task can do afterwards.
- Runs.AbortOk: addresses of 2^48 and above as for `Runs.StepOk`; `do_mem_abort` and `move_to_user_mode` are single steps, although they run with interrupts on and preemption allowed.
- KernelMemory.Kernel.LoadWord: a kernel load from an address that does not translate gives 0 instead of a fault; no such load happens in a run.
- KernelMemory.Kernel.CopyProcess: memory and scheduling fields and registers of `copy_process` are three methods over three views of the task (`KernelMemory`, `SchedulerCode`, `RegistersCode`), not one; the early return without `preempt_enable` when no page is free is modelled for the memory only.
- TickShare.ProportionalShare: ticks that find the task itself holding preemption off are excluded.
- Preemption.PreemptCountNests: an increment or decrement of `preempt_count` and the assembly of `cpu_switch_to` are one step each, and interrupts are never masked, which allows more interleavings than the hardware does. Init never exits.
- BootTables.DirectMapStays, Isolation.EnterUserLoadsBootImage: which words the kernel's C code stores to below LOW_MEMORY is not modelled, so that it spares pg_dir and the image is a hypothesis.
- Transparency.ParentGetsPid: that the compiled code between copy_process and ret_from_syscall keeps x0 is a hypothesis (`Transparency.LeavesX0`), and task[] has room; interrupt handlers and other tasks are not restricted.
- Transparency.ExceptionIsTransparent: C code between entry and exit is assumed to come back to its frame's stack pointer and not to overwrite frames or other tasks' contexts; the kernel stack does not overflow into the `task_struct`.
- PrintfCode.A2i: signed overflow of the width wraps around; in C it is undefined.
- PrintfCode.Printer.TfpFormat: arguments match the conversions; `PRINTF_LONG_SUPPORT` with `uli2a` and `li2a` is off, as by default.
- Lesson5.FramesAreConserved: pages are handed to clones only if they came from `sys_malloc`, and only user tasks exit; without the first, `Lesson5.OwnStackClonedIsLost` shows the loss.
- Lessons 1 to 4, the UART, interrupt controller, timer hardware and start-up glue: device registers and polling loops.
- The first instructions of boot.S up to the page tables, and the switch-on of the MMU: exception-level changes.
- TLB, caches, barriers, secondary cores, memory attributes other than device or normal, and access permissions other than the EL0 bit.
- The texts of the invalid-entry messages and the system call table's dispatch; `sys_write` and user programs are arbitrary steps within their own address space.

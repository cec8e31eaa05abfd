# GooseOS kernel: a verified model

GooseOS is a RISC-V microkernel for one hart. It has no heap: its logic is state machines over
fixed arrays. This project models four of them and proves what they keep over every run.

* **Processes, IPC and scheduling** (`ProcessTable`, `Scheduler`, `Ipc`, `Lifecycle`, `Dispatch`,
  `KernelInvariant`, `ProcessView`, `KernelRuns`, `KernelReuse`, `KernelFairness`, `KernelElection`,
  `KernelAnswers`, `Kernel`). The state is the process table, CURRENT_PID, the live trap frame, satp
  and IRQ_OWNER. A step is one trap, from entry to return. `Kernel.Machine` is that state updated in
  place, one method per handler; each method is proved equal to a step function, and the theorems
  are about runs of the step function, for any table size from three up.
* **Virtual memory** (`Bits`, `PageAlloc`, `PageTable`, `PageTree`, `AddressSpaces`, `MemoryRuns`,
  `Kvm`, `UserCopy`, `ElfLoader`). The bitmap allocator refines a set; all page tables together,
  written byte by byte into one flat memory of 2^64 bytes, refine one partial map for each address
  space; user copies refine a byte-by-byte copy; the loader produces the image that the segments
  describe. Runs of system calls, spawned programs and stores by user programs keep the tables out
  of reach, under a condition that is exact for each step.
* **WebAssembly** (`Leb128`, `LebReaders`, `WasmCode`, `WasmFormat`, `WasmParser`, `WasmEncoding`,
  `WasmCursor`, `Interpreter`, `InterpreterSafety`, `WasmSemantics`, `Simulation`,
  `InterpreterCorrectness`, `InterpreterPrograms`, `InterpreterEffects`, `InterpreterTraps`,
  `InterpreterGaps`, `InterpreterMachine`, `WasmPrograms`). The parser accepts only well-formed
  modules and undoes an encoder; the interpreter never leaves its arrays, whatever the bytes, and on
  structured programs computes what a big-step semantics says, and goes on where the semantics does.
  The three are put together: a program written as a module parses and runs to its meaning.
* **VirtIO network driver** (`VirtQueue`, `VirtioNet`). Driver calls and device steps interleave
  freely; indices wrap at 2^16. Frames reach the device in order, every buffer is in one place, and
  the receive buffers that drop out are counted.

Where the code differs from what its comments or a standard promise, the model follows the code:

* `sys_yield` sets a0 of the process it switches *to* (sched.rs:65-68). `PreemptedResumesExactly`
  gives the exact condition under which a preempted process gets its registers back, and
  `YieldClobbersIncomingA0` a run from boot in which it does not.
* `sys_exit` of the last process leaves CURRENT_PID stale; the invariant allows exactly that.
* A CALL sender keeps matching RECEIVE until it is replied to, so delivery exactly once is stated
  for SEND only; for CALL the reply is what happens exactly once.
* A process blocked in SEND or CALL sleeps on when its target ends, and the slot may be spawned into
  again. `SendReachesItsTargetIff` and `CallIsAnsweredByItsTargetIff` say exactly when the message
  or the answer is still the target's; `ReusedSlotGetsTheCall` is a run from boot in which it is
  not.
* The end of a process releases the interrupt that it registered last, and interrupt 0 never
  (lifecycle.rs:526-533, 918-925). `EndReleasesIff` says which of its interrupts it gives back.
* The interpreter does not follow the standard in three places: a branch to the label of a function
  body, a branch to a loop from nested blocks, and the result of a loop. For each, a lemma says
  exactly when the machine is in the state that the semantics asks for: after a branch to the body
  it goes on with the byte behind the body, which makes up for it exactly if it is RETURN, or END in
  a function called from outside (`BodyBranchReturnsIff`); the others are
  `LoopBranchFollowsIffInnermost` and `LoopEndFollowsIffNoResults`. Another lemma gives the bytes of
  a program that means 7 and does something else; for the body there is also one where the bytes
  behind it happen to be right.
* Section 5.5 of the WebAssembly standard writes a data offset as a signed constant; wasm.rs:649
  reads it unsigned. `OffsetReadIff` says which offsets survive (all from 0 up, and by luck all
  below -2^27), and `MinusOneIsMisread` reads -1 as 127.
* The satp mask keeps 52 bits of the root's page number where the field has 44; `SatpRoundTrip` says
  for which roots satp gives the root back. The comments bound physical addresses by 2^56.
* `sys_free_pages` accepts page-table pages. `SysFreePages` states that the tables stay in order if
  and only if the freed page was not one of them.
* `sys_map` is meant to keep a process from mapping a page-table root (syscall.rs:54-58), but tables
  are allocated pages of the heap that it checks for. `TablesCanBeMapped` says so for every root,
  and `MappedTableLosesKernelPage` states what one store through such a mapping changes;
  `MapKeepsGuarded` and `FreeKeepsGuarded` say exactly which calls keep the tables out of reach.
* Nothing checks where the segments of a program lie, so that they may replace kernel mappings in
  the new address space. `LoadElf` states that its kernel half is the kernel's if and only if no
  segment reaches outside the user range.
* The check that a segment's data lie in the file (elf.rs:163-167) adds without overflow checks in a
  release build. `AcceptedInFileIff` states that it does its work if and only if the sum does not
  wrap; the loader is modelled with all its sums wrapping.
* A completion without a packet is to be offered again (virtio.rs:516), but its buffer is dropped;
  `Run` states that the buffers lost are as many as those completions.

A contract on a class method uses the two-state form: the abstract value after (`Snapshot()`,
`Pages()`, `View()`, or the ghost histories `tx`, `rx`, `frames`) is a function of the one before.

## Model
| member | source | states |
|---|---|---|
| KernelInvariant.InitialEstablishesInv | kernel/src/lifecycle.rs:620-743 | the table that `launch` leaves satisfies the joint invariant |
| KernelInvariant.NextKeepsInv | kernel/src/trap.rs:125-405 | every trap (ecall, timer, external interrupt, fault) preserves the joint invariant: no lost rendezvous, no lost interrupt, no stranded waiter, saved contexts in U-mode, CPU ownership, no panic |
| KernelInvariant.SendKeepsInv | kernel/src/ipc.rs:125-164 | SEND preserves the joint invariant on both its paths |
| KernelInvariant.CallKeepsInv | kernel/src/ipc.rs:32-72 | CALL preserves it, whether or not the server was waiting |
| KernelInvariant.ReplyKeepsInv | kernel/src/ipc.rs:84-114 | REPLY preserves it |
| KernelInvariant.ReceiveKeepsInv | kernel/src/ipc.rs:175-233 | RECEIVE preserves it: it blocks only when no eligible sender sleeps on the receiver |
| KernelInvariant.IrqNotifyKeepsInv | kernel/src/ipc.rs:242-254 | an interrupt preserves it, whatever sender the owner named |
| KernelInvariant.ReapKeepsTable | kernel/src/lifecycle.rs:905-952 | after an exit the table part holds again: breaking off at the first waiter is sound, because there is at most one |
| KernelInvariant.ExitKeepsInv | kernel/src/lifecycle.rs:905-1006 | exit preserves the invariant, including the last process with its stale CURRENT_PID |
| KernelInvariant.KillKeepsInv | kernel/src/lifecycle.rs:510-607 | a kill preserves it |
| KernelInvariant.WaitKeepsInv | kernel/src/lifecycle.rs:1016-1049 | WAIT preserves it: a process only waits on a live child of its own |
| KernelInvariant.SpawnKeepsInv | kernel/src/syscall.rs:285-418 | SPAWN into the first free slot preserves it |
| KernelInvariant.ScheduleKeepsInv | kernel/src/sched.rs:159-214 | giving up the CPU re-establishes it; the deadlock panic is not reached because the blocked process is alive |
| KernelInvariant.PreemptKeepsInv | kernel/src/sched.rs:78-113 | preemption preserves it |
| KernelInvariant.ScheduleFromIdleKeepsInv | kernel/src/sched.rs:121-140 | leaving idle preserves it; whom it runs is in `IdleRunsSomebody` |
| KernelInvariant.YieldKeepsInv | kernel/src/sched.rs:40-69 | YIELD preserves it |
| KernelRuns.EveryReachableStateIsSafe | kernel/src/trap.rs:125-405 | in every state of every run from boot: no receiver sleeps beside a sender it accepts, no interrupt is pending for a process that waits for any, each waiter's child is alive and its own, the CPU belongs to CURRENT_PID with its satp, and nothing panicked |
| KernelRuns.CallEndsByItsReply | kernel/src/ipc.rs:61-113 | a blocked caller sleeps unchanged through any run until the first REPLY by the process it called, and its a0 is then that reply's value |
| KernelRuns.RepliesNeedCalls | kernel/src/ipc.rs:32-113 | between two successful replies to a process there is a CALL by it |
| KernelRuns.SendIsDeliveredOnce | kernel/src/ipc.rs:142-223 | a blocked SEND is consumed by exactly one RECEIVE of its target, which returns the message and the sender's PID; the SEND returns 0 |
| KernelRuns.WaiterGetsExitCode | kernel/src/lifecycle.rs:905-1049 | a waiter is released by the first exit or kill of its child, with exactly that code in a0 |
| KernelRuns.SleepPreservesContext | kernel/src/sched.rs:159-214 | while a live process is off the CPU, its saved frame changes in a0 to a3 only, whatever the others do |
| KernelRuns.ReadyContextIsFrozen | kernel/src/sched.rs:98-104 | while a process stays Ready, its saved frame does not change at all |
| KernelRuns.PreemptedResumesExactly | kernel/src/sched.rs:65-110 | a preempted process resumes with its exact frame if and only if it is not resumed by a YIELD while its a0 is non-zero |
| KernelRuns.YieldClobbersIncomingA0 | kernel/src/sched.rs:65-68 | a run of three traps from boot after which a process that was preempted with 7 in a0 goes on with 0 |
| KernelReuse.LifeStep | kernel/src/lifecycle.rs:905-952 | a trap frees the slot of a live process if and only if the process exits or is killed in it |
| KernelReuse.SameLifeIff | kernel/src/lifecycle.rs:905-952 | a slot belongs to the same process over a stretch of a run if and only if its process does not end in it |
| KernelReuse.SendReachesItsTargetIff | kernel/src/ipc.rs:142-223 | a blocked SEND is received by the process it was meant for if and only if that one does not end before |
| KernelReuse.CallIsAnsweredByItsTargetIff | kernel/src/ipc.rs:61-113 | a blocked CALL is answered by the process it was meant for if and only if that one does not end before |
| KernelReuse.ReusedSlotGetsTheCall | kernel/src/syscall.rs:318-330 | a run of seven traps from boot in which a process spawned into the slot of one that exited receives the call meant for it, and answers |
| KernelFairness.SwitchesTowards | kernel/src/sched.rs:84-104 | no trap but an exit or kill moves the CPU past a Ready process in cyclic order |
| KernelFairness.BoundedWaiting | kernel/src/sched.rs:50-205 | without exits, a process that stays Ready waits for at most MAX_PROCS - 2 switches; each brings the CPU strictly nearer |
| KernelFairness.RendezvousOrderDoesNotMatter | kernel/src/ipc.rs:142-223 | in any two runs, send-then-receive and receive-then-send give the receiver the same a0 and a1, the sender 0, and leave both runnable |
| KernelFairness.CallArgumentsDependOnOrder | kernel/src/ipc.rs:53-58 | for CALL, a0 and a1 arrive in either order, a2 and a3 only if the receiver slept first |
| KernelElection.EveryTrapElects | kernel/src/sched.rs:40-214 | every trap, in every state of the invariant: it ends in idle only if nobody is Ready (or it found idle and was nobody's interrupt), and then at the idle entry, or the exit entry when nobody is alive; after an exit or a kill, and out of idle, the lowest Ready PID runs; otherwise a switch goes to the nearest Ready process; and a tick or a yield that does not switch found nobody Ready |
| KernelElection.IdleRunsSomebody | kernel/src/sched.rs:121-140 | an idle machine that takes a timer tick or an owned interrupt after which somebody is Ready runs the lowest such PID, with its frame and page table |
| KernelElection.IdleEnds | kernel/src/sched.rs:121-140 | over runs: an idle machine with a Ready process has a process on the CPU after the first tick or owned interrupt |
| KernelElection.TicksAreSwitches | kernel/src/trap.rs:373-405 | without exits, a process that stays Ready runs before MAX_PROCS - 1 timer ticks have passed |
| KernelAnswers.EveryCallIsAnswered | kernel/src/trap.rs:211-310 | every system call but exit puts its caller to sleep exactly when it must; otherwise a0 and a1 are as promised: 0, all ones for a refused request, a message and its sender, an interrupt, an exit code, a PID |
| KernelAnswers.OwnersStep | kernel/src/syscall.rs:216-244 | IRQ_OWNER changes by claims of unowned interrupts and by ends of processes only |
| KernelAnswers.ClaimIsExclusive | kernel/src/syscall.rs:216-244 | a claim succeeds if and only if nobody owns the interrupt; then the caller does |
| KernelAnswers.EndReleasesIff | kernel/src/lifecycle.rs:905-952 | the end of a process releases an interrupt of its own if and only if that is the one it registered last, and not interrupt 0 |
| KernelAnswers.FlagStep | kernel/src/ipc.rs:242-254 | the pending flag is raised by interrupts that do not find their owner asleep in RECEIVE, and lowered by a RECEIVE from anyone |
| KernelAnswers.InterruptIsDelivered | kernel/src/ipc.rs:175-254 | over runs: an interrupt that does not find its owner asleep is what the owner's next RECEIVE from anyone returns, as (irq, 0) |
| KernelAnswers.InterruptIsDeliveredOnce | kernel/src/ipc.rs:175-254 | unless another one arrives, the RECEIVE after that finds none |
| KernelAnswers.SleeperGetsInterrupt | kernel/src/ipc.rs:242-254 | an owner that slept first finds the same in a0 and a1 |
| KernelAnswers.WaitAfterEnd | kernel/src/lifecycle.rs:905-1049 | over runs: WAIT on a child that has ended returns the code with which it ended, as long as its slot was not used again |
| KernelAnswers.SpawnedProcessStarts | kernel/src/syscall.rs:388-410 | over runs: a spawned process starts at its image's entry, on its page table, with sp at the end of the loader's stack page, in U-mode with interrupts on, every other register zero |
| Scheduler.ScanPicksNearest | kernel/src/sched.rs:84-96 | the scan returns the Ready process nearest in cyclic order, or 0 if there is none |
| Scheduler.ProbeVisitsEachOnce | kernel/src/sched.rs:163-175 | the probe sequence visits each PID from 1 exactly once |
| ProcessView.BystanderStep | kernel/src/trap.rs:211-405 | what one trap does to a process that does not own the CPU, field by field: nothing, or the one effect of the event that concerns it |
| ProcessView.OwnerStep | kernel/src/trap.rs:211-405 | what one trap does to the process that owns the CPU, field by field: it keeps it with only a0 and a1 written, is saved with its request on record, or is gone |
| Kernel.Machine.constructor | kernel/src/lifecycle.rs:700-743 | the machine at boot is an initial state |
| Kernel.Machine.ScanReady | kernel/src/sched.rs:84-96 | the scan loop computes the specified scan |
| Kernel.Machine.ScheduleAway | kernel/src/sched.rs:159-214 | in place, `schedule` is its step function |
| Kernel.Machine.PreemptCurrent | kernel/src/sched.rs:78-113 | in place, `preempt` is its step function |
| Kernel.Machine.YieldCpu | kernel/src/sched.rs:40-69 | in place, `sys_yield` is its step function |
| Kernel.Machine.Call | kernel/src/ipc.rs:32-72 | in place, `sys_call` is its step function |
| Kernel.Machine.Reply | kernel/src/ipc.rs:84-114 | in place, `sys_reply` is its step function |
| Kernel.Machine.Send | kernel/src/ipc.rs:125-164 | in place, `sys_send` is its step function |
| Kernel.Machine.Receive | kernel/src/ipc.rs:175-233 | in place, `sys_receive` with its sender loop is its step function |
| Kernel.Machine.NotifyIrq | kernel/src/ipc.rs:242-254 | in place, `irq_notify` is its step function |
| Kernel.Machine.Exit | kernel/src/lifecycle.rs:905-1006 | in place, `sys_exit` is its step function |
| Kernel.Machine.Kill | kernel/src/lifecycle.rs:510-607 | in place, `kill_current` is its step function |
| Kernel.Machine.Wait | kernel/src/lifecycle.rs:1016-1049 | in place, `sys_wait` is its step function |
| Kernel.Machine.Spawn | kernel/src/syscall.rs:318-418 | in place, the table part of `sys_spawn` is its step function |
| Kernel.Machine.RegisterIrq | kernel/src/syscall.rs:216-244 | in place, `sys_irq_register` is its step function |
| Kernel.Machine.Trap | kernel/src/trap.rs:125-405 | one trap is one step of the model and keeps the joint invariant |
| PageAlloc.BitmapAllocator.constructor | kernel/src/page_alloc.rs:62-69 | a new allocator has no page allocated |
| PageAlloc.BitmapAllocator.Alloc | kernel/src/page_alloc.rs:82-101 | the lowest free page is added to the set; an error exactly when none is free, and then nothing changes |
| PageAlloc.BitmapAllocator.Free | kernel/src/page_alloc.rs:106-129 | an allocated page is removed; each error case is exact and changes nothing |
| PageAlloc.BitmapAllocator.MarkAllocated | kernel/src/page_alloc.rs:172-194 | a free page is added; each error case is exact and changes nothing |
| PageAlloc.BitmapAllocator.IsAllocated | kernel/src/page_alloc.rs:132-143 | membership in the set, for every address |
| PageAlloc.BitmapAllocator.AllocatedCount | kernel/src/page_alloc.rs:152-158 | the sum of population counts is the size of the set |
| PageAlloc.BitmapAllocator.FreeCount | kernel/src/page_alloc.rs:146-149 | allocated and free pages add up to the total |
| PageAlloc.HeapPage | kernel/src/kvm.rs:327-331 | a page is in the user heap if and only if all of its bytes are |
| PageTable.PteRoundTrip | kernel/src/page_table.rs:152-195 | an entry gives back page, flags and kind it was built from |
| PageTable.VaRoundTrip | kernel/src/page_table.rs:224-235 | splitting and joining an address is the address modulo 2^39 |
| PageTable.PartsRoundTrip | kernel/src/page_table.rs:224-235 | joining and splitting indices gives them back |
| PageTable.SatpRoundTrip | kernel/src/page_table.rs:246-249 | satp gives the root back if and only if it is page-aligned and below 2^56 |
| PageTable.SatpFields | kernel/src/page_table.rs:246-249 | the mode field is 8 for every root; below 2^56 the ASID and page-number fields hold what they should |
| PageTable.WalkLevels | kernel/src/page_table.rs:277-303 | the loop over levels is the three-level walk |
| PageTable.WalkWithinPage | kernel/src/page_table.rs:277-303 | all addresses of a page translate alike, and the offset passes through |
| PageTree.UpperEntriesBranch | kernel/src/kvm.rs:189-204 | in a well-formed table a valid upper entry is a branch to its own table, so the branch assertion never fires |
| PageTree.WalkIsLookup | kernel/src/page_table.rs:277-303 | every walk, at any address, is a lookup in the partial map |
| PageTree.CreateMid | kernel/src/kvm.rs:189-204 | installing a fresh zeroed table below the root keeps the tree alias-free and changes no last-level entry |
| PageTree.CreateLast | kernel/src/kvm.rs:189-204 | the same one level down |
| PageTree.SetLeaf | kernel/src/kvm.rs:168-185 | writing a last-level entry changes that entry only |
| AddressSpaces.ReplaceTree | kernel/src/kvm.rs:168-204 | a tree that takes in unused pages leaves every other address space as it was |
| AddressSpaces.PutLeaf | kernel/src/kvm.rs:168-185 | a leaf write is one update, or one removal, of one partial map |
| AddressSpaces.FreedPage | kernel/src/syscall.rs:167-204 | zeroing and freeing a page keeps the tables in order if and only if it is not a table |
| Kvm.VirtualMemory.AllocZeroedPage | kernel/src/kvm.rs:222-227 | a page that nobody used, zeroed, or an error exactly when none is left |
| Kvm.VirtualMemory.WalkOrCreate | kernel/src/kvm.rs:189-204 | the table an entry leads to, or a fresh one installed there |
| Kvm.VirtualMemory.MapPage | kernel/src/kvm.rs:168-185 | one update of the partial map; every other page and space unchanged; tables grow by unused pages; only tables are written |
| Kvm.VirtualMemory.SetEntry | kernel/src/kvm.rs:168-185 | writing a last-level entry is one update, or one removal, of one partial map |
| Kvm.VirtualMemory.FindEntry | kernel/src/kvm.rs:267-293 | the walk of `unmap_page` finds an entry exactly when the page is mapped |
| Kvm.VirtualMemory.UnmapPage | kernel/src/kvm.rs:267-293 | one removal, and true exactly when the page was mapped |
| Kvm.VirtualMemory.MapRange | kernel/src/kvm.rs:148-163 | a fold of single updates over the pages of the rounded range |
| Kvm.FoldIsIdentity | kernel/src/kvm.rs:148-163 | below 2^39 that fold maps exactly the range, to itself, and keeps the rest |
| Kvm.VirtualMemory.SysMap | kernel/src/syscall.rs:26-89 | the exact refusal condition, and one update in the caller's space |
| Kvm.VirtualMemory.SysUnmap | kernel/src/syscall.rs:97-128 | succeeds exactly on aligned, mapped user pages, and removes one |
| Kvm.VirtualMemory.SysFreePages | kernel/src/syscall.rs:167-204 | succeeds exactly on allocated pages; the invariant survives if and only if the page was no table |
| Kvm.VirtualMemory.SysAllocPages | kernel/src/syscall.rs:137-160 | one zeroed page that nobody used; refused exactly for another count or a full heap; no translation changes |
| Kvm.VirtualMemory.UserStore | kernel/src/page_table.rs:277-303 | a store through a writable user translation changes that byte; with the tables out of reach it changes no translation |
| Kvm.VirtualMemory.Handle | kernel/src/syscall.rs:26-204 | any memory call or store that maps or frees no table, and frees no mapped page, keeps the tables in order and out of reach and the kernel half of every space |
| Kvm.VirtualMemory.Serve | kernel/src/syscall.rs:26-160 | no run of map, unmap and alloc calls, whatever they map, changes a translation outside the user range, in any address space |
| MemoryRuns.TablesCanBeMapped | kernel/src/syscall.rs:47-62 | the heap check accepts the root of every address space |
| MemoryRuns.MapPermissions | kernel/src/syscall.rs:65-73 | argument 0 of SYS_MAP gives a page to write, 1 one to execute, and neither both |
| MemoryRuns.MappedTableLosesKernelPage | kernel/src/syscall.rs:47-89 | after a process maps its own root, which is never refused, and stores one zero byte, any page outside the user range that it picks is no longer mapped |
| MemoryRuns.MapKeepsGuarded | kernel/src/syscall.rs:26-89 | SYS_MAP keeps every user translation off the tables if and only if the page it maps is no table |
| MemoryRuns.FreeKeepsGuarded | kernel/src/syscall.rs:167-204 | freeing keeps the tables in order and out of reach if and only if the page was no table and no user translation led to it |
| MemoryRuns.StoreKeepsGuarded | kernel/src/page_table.rs:277-303 | with the tables out of reach no user store changes a translation |
| MemoryRuns.SpawnKeepsGuarded | kernel/src/syscall.rs:334-383 | loading a program leads no user translation to a table |
| MemoryRuns.StepKeepsAll | kernel/src/syscall.rs:26-383 | every step that meets these conditions keeps tables, reachability and kernel halves |
| MemoryRuns.RunKeepsKernelHalf | kernel/src/syscall.rs:26-383 | over any run of map, unmap, alloc, free and spawn calls and user stores that meet them, the address spaces are the first ones and those spawned, and in each no translation outside the user range changes while it is there |
| UserCopy.TranslateUser | kernel/src/kvm.rs:340-359 | the translation of one user byte |
| UserCopy.WalkUserRange | kernel/src/kvm.rs:388-425 | chunks exactly when at most 32 pages are touched and every byte is accessible; they cover the buffer in order, each byte at its own translation |
| UserCopy.CopyFromUser | kernel/src/kvm.rs:433-449 | a byte-by-byte read through the starting translations, or nothing; the exact success condition |
| UserCopy.CopyToUser | kernel/src/kvm.rs:455-471 | a byte-by-byte write, in order, through the starting translations, or nothing, even if pages alias or are tables |
| UserCopy.WritesWhereTheUserCould | kernel/src/kvm.rs:388-425 | a byte may be written for the user if and only if a user store would reach the same byte, it is a heap page and below the kernel half |
| UserCopy.ReadsWhereTheUserCould | kernel/src/kvm.rs:340-359 | the same for reading |
| UserCopy.OtherBytesKept | kernel/src/kvm.rs:455-471 | such a write leaves every other byte of memory alone |
| UserCopy.LastByteWins | kernel/src/kvm.rs:455-471 | where several user bytes share an address, the last one ends up there |
| ElfLoader.AcceptedInFileIff | kernel/src/elf.rs:163-167 | all bytes of a segment that the parser accepts lie in the file if and only if offset and size do not wrap |
| ElfLoader.PagesNeeded | kernel/src/elf.rs:183-188 | for every segment, with wrapping sums; where nothing wraps, the pages from the start of the first one cover the segment and end within a page of it |
| ElfLoader.LoadPage | kernel/src/syscall.rs:346-374 | a fresh page that holds the segment's bytes, mapped at its address, for every segment and with wrapping sums; no data page of anyone is changed |
| ElfLoader.LoadSegmentPages | kernel/src/syscall.rs:339-376 | every page of the table shows the last page of the segment that falls on it, modulo 2^39, and no other page changes |
| ElfLoader.MapKernelRegions | kernel/src/kvm.rs:234-260 | the fold of all kernel ranges over an empty space |
| ElfLoader.LoadElf | kernel/src/syscall.rs:334-383 | for every list of segments: reading any address through the new root gives the file byte or zero, with RX or RW flags, of the last segment page over it (the stack counts as one), and elsewhere the kernel mapping; no other space changes; the kernel half is the kernel's if and only if no segment page lies outside the user range |
| ElfLoader.SegmentReadsBack | kernel/src/syscall.rs:339-376 | every byte of a segment that shares no page with another reads back through the table as the file's byte, or zero beyond the file's part; the process may read it, execute it if and only if the segment is executable, and write it if and only if it is not |
| ElfLoader.StackReadsBack | kernel/src/syscall.rs:378-383 | the stack page reads as zeros and can be read and written but not executed |
| ElfLoader.LoadedIsNewSpace | kernel/src/kvm.rs:234-260 | the new space's user translations lead to data pages, so that loading is a step of the runs |
| ElfLoader.KernelHalfIff | kernel/src/syscall.rs:338-376 | the exact condition for an unchanged kernel half |
| ElfLoader.InUserRangeIff | kernel/src/security.rs:22-33 | for a segment below 2^39 that condition is a test of its two ends |
| ElfLoader.DisjointTop | kernel/src/lifecycle.rs:822-858 | with page-disjoint segments the last one over a page is the only one |
| Leb128.U32RoundTrip | kernel/src/interp.rs:331-345 | reading undoes the encoder, for every u32, anywhere in the code |
| Leb128.I32RoundTrip | kernel/src/interp.rs:347-365 | the same for every i32, in two's complement |
| Leb128.I64RoundTrip | kernel/src/interp.rs:367-384 | the same for every i64 |
| Leb128.UnsignedReadOfSigned | kernel/src/wasm.rs:649 | an unsigned read of a signed number gives the number, modulo 2^32, if and only if it is not negative or below -2^27 |
| LebReaders.DecodeU32 | kernel/src/interp.rs:331-345 | the accumulator loop, shared by interpreter and parser, is the recursive reader |
| LebReaders.DecodeSigned | kernel/src/interp.rs:347-384 | the signed loops, with their sign extension, are the recursive reader |
| WasmCode.SkipFindsOwnEnd | kernel/src/interp.rs:441-476 | scanning stops just after the block's own END, whatever its nesting and immediates |
| WasmCode.SkipFindsOwnElse | kernel/src/interp.rs:479-520 | scanning for ELSE stops at the block's own ELSE, and for END at its own END |
| InterpreterMachine.SkipBlock | kernel/src/interp.rs:441-520 | both scan loops are the recursive scanner |
| InterpreterSafety.StepKeepsSound | kernel/src/interp.rs:780-1004 | for any accepted module and any bytes, one step keeps every index in range and the local windows consecutive |
| InterpreterSafety.RunKeepsSound | kernel/src/interp.rs:780-1004 | the same over any number of steps |
| InterpreterSafety.SharedLocalsNeverOverflow | kernel/src/interp.rs:697-707 | the check on the shared locals array can never fire |
| InterpreterSafety.CalleeNeverTouchesCallerLocals | kernel/src/interp.rs:648-751 | until the call returns, no step changes a local or frame of a caller |
| InterpreterSafety.RunFinishedIsCallable | kernel/src/interp.rs:760-777 | after a call has finished, the interpreter is ready for another |
| InterpreterCorrectness.SimInstr | kernel/src/interp.rs:780-1004 | any structured instruction, run from its bytes, does what the big-step semantics says |
| InterpreterCorrectness.SimSeq | kernel/src/interp.rs:780-1004 | the same for sequences |
| InterpreterEffects.SelectChooses | kernel/src/interp.rs:1010-1015 | select keeps its first operand if and only if the low 32 bits of the condition are not all zero |
| InterpreterEffects.DropDrops | kernel/src/interp.rs:1008 | drop takes the top operand away |
| InterpreterEffects.ConstPushes | kernel/src/interp.rs:1136-1144 | constants are pushed as they were read |
| InterpreterEffects.ArithmeticIsApplied | kernel/src/interp.rs:1262-1290 | binary operations get their operands in the order in which they were pushed |
| InterpreterEffects.GetAfterSet | kernel/src/interp.rs:1019-1040 | local.get after local.set or local.tee gives that value at that index and the old one elsewhere |
| InterpreterEffects.NoSuchLocal | kernel/src/interp.rs:388-409 | an access to a local is refused if and only if there is none of that index |
| InterpreterEffects.StoreWrites | kernel/src/interp.rs:598-646 | a store is out of bounds if and only if its last byte is; otherwise the bytes at address plus offset spell the value modulo 256^n, lowest first, and all others are kept |
| InterpreterEffects.LoadReads | kernel/src/interp.rs:561-596 | a load is out of bounds if and only if its last byte is; otherwise it gives the number that the bytes spell, sign-extended for the signed loads |
| InterpreterEffects.LoadAfterStore | kernel/src/interp.rs:561-646 | what a store put there, a load of that width gets, modulo 256^n |
| InterpreterEffects.MemoryHasItsSize | kernel/src/interp.rs:1121-1132 | memory.size counts whole pages of 64 KiB; memory.grow always answers -1 |
| InterpreterEffects.HostIsCalled | kernel/src/interp.rs:975-1002 | a host function gets the last operands in order, and its memory and result stay |
| InterpreterEffects.PlainBytes | kernel/src/interp.rs:31-140 | exactly the opcodes of section 5.4 of the standard that the interpreter knows, each with as many immediates as there |
| InterpreterEffects.ControlBytes | kernel/src/interp.rs:31-140 | the same for control flow |
| InterpreterTraps.UnknownCodeTraps | kernel/src/interp.rs:1457 | an unknown opcode stops the machine with its number, and so does the end of the code |
| InterpreterTraps.IncompleteInstructionTraps | kernel/src/interp.rs:300-345 | cut-off immediates and missing operands stop it, with the trap for each |
| InterpreterTraps.IncompleteControlTraps | kernel/src/interp.rs:780-946 | the same for control flow |
| InterpreterTraps.BranchNeedsLabel | kernel/src/interp.rs:523-557 | a branch is refused if and only if the running function has no such label |
| InterpreterTraps.CallNeedsFunction | kernel/src/interp.rs:648-700 | a call needs a function of its number and as many operands as it has parameters |
| InterpreterTraps.LimitsAreReal | kernel/src/interp.rs:291-298 | the machine stops at a fixed size only if it has reached it: 256 operands, 32 labels, 32 frames |
| InterpreterPrograms.InterpreterRunsPrograms | kernel/src/interp.rs:760-1004 | for every supported program, function, arguments and fuel, the interpreter gives the result, memory and host state of the semantics, or its trap, or stops at a fixed limit; where the fuel runs out it is still running |
| InterpreterPrograms.EndlessProgramsGoOn | kernel/src/interp.rs:780-1004 | as long as the semantics has not ended, neither has the interpreter, unless a fixed limit stopped it |
| InterpreterGaps.LoopBranchFollowsIffInnermost | kernel/src/interp.rs:526-530 | a branch to a loop puts the machine into the state in which the semantics starts the body again if and only if no construct lies between |
| InterpreterGaps.LoopEndFollowsIffNoResults | kernel/src/interp.rs:916-927 | at its END a loop hands over what its body left, as the semantics does, if and only if that is nothing |
| InterpreterGaps.EntryOpensBody | kernel/src/interp.rs:742-748 | entering a function opens a label at the end of its body, with the height and arity of its frame |
| InterpreterGaps.BodyBranchGoesOn | kernel/src/interp.rs:523-557 | a branch to that label puts the machine behind the body, its labels closed and its frame still there |
| InterpreterGaps.BodyBranchReturnsIff | kernel/src/interp.rs:523-557 | the next instruction then does what a return would if and only if the byte behind the body is RETURN, or END in a function called from outside that has a result or nothing below it |
| InterpreterGaps.BranchToBodyReturns | kernel/src/interp.rs:742-748 | with RETURN or END behind it, the function of the next row does return 7 |
| InterpreterGaps.BranchToBodyDiverges | kernel/src/interp.rs:742-748 | the bytes of a function that means 7 and traps |
| InterpreterGaps.NestedLoopBranchDiverges | kernel/src/interp.rs:526-530 | the bytes of a function that branches to a loop from a block inside it: called with 1 it means 7, and traps after 16 instructions |
| InterpreterGaps.LoopResultDiverges | kernel/src/interp.rs:816-821 | the bytes of a function whose loop means 7, and which returns nothing |
| InterpreterMachine.Runner.constructor | kernel/src/interp.rs:266-286 | a new interpreter is the fresh machine |
| InterpreterMachine.Runner.Branch | kernel/src/interp.rs:523-557 | in place, `do_branch` is its step function |
| InterpreterMachine.Runner.EnterFrame | kernel/src/interp.rs:648-751 | in place, with its three loops, `enter_function` is its step function |
| InterpreterMachine.Runner.LeaveFrame | kernel/src/interp.rs:948-973 | in place, RETURN is its step function |
| InterpreterMachine.Runner.DoEnd | kernel/src/interp.rs:882-932 | in place, END is its step function |
| InterpreterMachine.Runner.DoIf | kernel/src/interp.rs:824-856 | in place, IF is its step function |
| InterpreterMachine.Runner.DoPlain | kernel/src/interp.rs:1008-1150 | in place, instructions without control flow are their step function |
| InterpreterMachine.Runner.Execute | kernel/src/interp.rs:780-1004 | one turn of the main loop is one step and keeps every index in range |
| InterpreterMachine.Runner.Run | kernel/src/interp.rs:780-1004 | the main loop is the step function iterated |
| InterpreterMachine.Runner.CallFunction | kernel/src/interp.rs:760-777 | `call_function`, on a new interpreter or one called before, however that ended, is the start that the program theorem speaks of, followed by that run, and leaves it ready for the next |
| WasmParser.ParsedIsAccepted | kernel/src/wasm.rs:338-389 | every module that parses has its counts within limits, type indices below the type count, and bodies and data inside the input |
| WasmEncoding.ItemRoundTrip | kernel/src/wasm.rs:393-670 | every section entry within the limits, in the encoding of the standard, is read back; of a data offset, what an unsigned read makes of it |
| WasmEncoding.OffsetReadIff | kernel/src/wasm.rs:643-654 | that is the offset, modulo 2^32, if and only if it is not negative or below -2^27 |
| WasmEncoding.MinusOneIsMisread | kernel/src/wasm.rs:643-654 | the standard's bytes for a segment at offset -1 parse as offset 127 |
| WasmEncoding.ModuleRoundTrip | kernel/src/wasm.rs:338-389 | any sequence of sections within the limits, in any order and with unknown ones between, parses to its contents |
| WasmEncoding.RangesHoldContents | kernel/src/wasm.rs:535-560 | the ranges recorded for bodies and data hold exactly their bytes |
| WasmPrograms.WrittenProgramParses | kernel/src/wasm.rs:338-389 | a module with one type and one code entry for each function of a program parses to an environment that holds the program |
| WasmPrograms.WrittenProgramRuns | kernel/src/interp.rs:760-1004 | written, parsed and called, a program does what the semantics says |
| WasmCursor.Parser.ParseType | kernel/src/wasm.rs:396-438 | in place, one type entry is read as specified |
| WasmCursor.Parser.ParseImport | kernel/src/wasm.rs:565-623 | in place, one import entry is read as specified, function imports kept |
| WasmCursor.Parser.ParseExport | kernel/src/wasm.rs:499-530 | in place, one export entry is read as specified |
| WasmCursor.Parser.ParseData | kernel/src/wasm.rs:631-667 | in place, one data segment is read as specified |
| WasmCursor.Parser.ParseListed | kernel/src/wasm.rs:393-670 | the entry loop of a section is the fold over its count |
| WasmCursor.Parser.ParseMemory | kernel/src/wasm.rs:463-494 | the memory section, with further memories read over |
| WasmCursor.Parser.ParseSections | kernel/src/wasm.rs:355-381 | the section loop ends, even if lengths lie, and is the fold over sections |
| WasmCursor.ParseModule | kernel/src/wasm.rs:338-389 | `parse` terminates on every input and is the specified parse; what it accepts is well-formed |
| VirtQueue.PostKeeps | kernel/src/virtio.rs:485-489 | offering a free buffer keeps each buffer in exactly one place |
| VirtQueue.ReapKeeps | kernel/src/virtio.rs:307-323 | taking a completion back keeps it |
| VirtQueue.FetchKeeps | kernel/src/virtio.rs:94-99 | the device taking the oldest offer keeps it |
| VirtQueue.CompleteKeeps | kernel/src/virtio.rs:120-126 | the device completing any buffer it holds keeps it |
| VirtQueue.RingsNeverFull | kernel/src/virtio.rs:64-77 | neither ring ever holds more entries than there are buffers |
| VirtQueue.PostRings | kernel/src/virtio.rs:485-489 | a post writes a slot that the device has consumed, also where the 16-bit index wraps |
| VirtQueue.EmptyByIndex | kernel/src/virtio.rs:307-323 | comparing wrapped indices tells exactly whether a ring is empty |
| VirtioNet.ReapAllFrees | kernel/src/virtio.rs:307-323 | reclaiming frees exactly the completed buffers |
| VirtioNet.ReapTakesOut | kernel/src/virtio.rs:511-541 | a completion that is taken and not offered again leaves circulation; offered again, all stay in it |
| VirtioNet.ReceiveAccounts | kernel/src/virtio.rs:514-541 | either outcome of a receive keeps the buffers lost equal to the short completions taken |
| VirtioNet.Driver.constructor | kernel/src/virtio.rs:212-230 | all buffers start with the driver |
| VirtioNet.Driver.ReclaimTx | kernel/src/virtio.rs:307-323 | the loop takes back every completion |
| VirtioNet.Header | kernel/src/virtio.rs:462-472 | the header before each frame is twelve zero bytes |
| VirtioNet.Driver.Transmit | kernel/src/virtio.rs:443-495 | succeeds exactly when ready, short enough and some buffer is idle; then the lowest such buffer is posted with header and data, and no other buffer is written |
| VirtioNet.Driver.PopulateRxQueue | kernel/src/virtio.rs:286-304 | all 32 receive buffers are on offer, in order, and none is lost |
| VirtioNet.Driver.Receive | kernel/src/virtio.rs:497-545 | hands out the oldest packet that was not handed out, without header and cut to size, and offers its buffer again; a completion of at most 12 bytes is skipped and its buffer lost; all buffers stay in circulation if and only if the completion was longer than a header |
| VirtioNet.Driver.DeviceReads | kernel/src/virtio.rs:476-495 | what the device reads is the oldest frame it has not read, byte for byte |
| VirtioNet.Driver.Run | kernel/src/virtio.rs:286-545 | in any interleaving the frames read are a prefix of those transmitted, in order; the receive buffers lost are as many as the short completions taken, so none if every completion exceeds the header |

## Left out
- net.rs beyond waking parked processes: the outcomes of the network stack are part of each trap event.
- uart.rs, plic.rs, console.rs, platform.rs, boot.rs, main.rs, driver.rs and the assembly files: device registers, printing and boot; trap entry and exit are assumed to save and restore the frame, and TLB fences and TICKS are ignored.
- wasi.rs and the arithmetic of single opcodes: host functions and the integer operations are parameters of the interpreter, so the theorems hold for any of them.
- InterpreterMachine.Runner.DoPlain: takes the integer operations as such a parameter. The semantics of the program theorem uses the same effects for instructions without control flow; `InterpreterEffects` says what they are. They follow the code, not the standard, where `i32.load8_s` fills 64 bits.
- InterpreterMachine.Runner.Run: bounds the number of instructions, because a WebAssembly program may run forever; the theorems hold for every bound, and `EndlessProgramsGoOn` is about those programs.
- InterpreterPrograms.InterpreterRunsPrograms: excludes branches to the function-body label, branches to a loop from nested labels and loops with results, which the code does not follow (see `InterpreterGaps`); it covers direct calls with at most one result.
- WasmEncoding.ModuleRoundTrip: gives data offsets as the parser reads them; `OffsetReadIff` says when that is what was written.
- elf.rs header parsing (`parse`): the loader starts from segments; only `pages_needed` and the check of the file range are modelled.
- ElfLoader.LoadElf: takes bytes read beyond the file, where the file range of a segment wraps, as given and not changed by the loading; a build with overflow checks panics where a sum wraps. PID assignment and the initial frame are in `Kernel.Machine.Spawn`.
- Running out of pages in kvm.rs is a panic in the source; here it is an error result after which the invariant still holds. A spawn that runs out of pages is no step of `MemoryRuns`.
- Kvm.VirtualMemory.Serve: has no frees and no user stores, so that it needs no condition on what is mapped; `Handle` and `RunKeepsKernelHalf` are about runs with them.
- UserCopy.CopyFromUser: takes a kernel buffer apart from the flat memory, since the source copies with `copy_nonoverlapping`, for which overlapping ranges have no meaning.
- UserCopy.CopyToUser: takes the kernel buffer as a value, for the same reason.
- SYS_REBOOT: it ends a run. Faults in S-mode and unknown interrupts are not steps.
- KernelRuns.SendIsDeliveredOnce: has no counterpart for CALL, because a caller keeps matching RECEIVE until it is replied to.
- One process owning several IRQs: the process record holds only the last one registered.
- VirtioNet.Driver.Run: has device steps between driver calls, not in the middle of one.
- The VirtIO handshake, queue registers and notifications, descriptor addresses and memory fences; receive descriptors never change after set-up and are not stored.
- wari/ and userspace/: scaffold and system-call wrappers.

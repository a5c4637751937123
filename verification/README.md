# DreamOS kernel mechanisms, modelled and proved in Dafny

DreamOS is a small RISC-V kernel. This project models its memory allocators, its Sv39 page-table code, its scheduler
with wait queues and recursive mutexes, its path normaliser and its bitmap, and proves what they promise over every
input, every run and every reachable state. `dafny verify dfyconfig.toml` checks all of it.

- **Page allocator** (`Powers`, `PageBlocks`, `PageLists`, `PageLayout`, `PageInit`, `PageAllocator`, `PageRuns`).
  `PageLists` is the free lists with their head records, links and order fields, updated in place. `PageBlocks` is the
  theory of aligned power-of-two blocks: once no two buddies of one order are both free, the free blocks are exactly the
  maximal aligned runs of free frames, so the set of free frames alone determines them. `PageAllocator` proves
  allocation, splitting, merging and initialisation against that theory; `PageRuns` runs a client through any sequence
  of requests.
- **Page tables** (`PageTable`, `Rounds`, `Landings`, `Sweeps`, `Mmu`, `MmuTheorems`). Tables of 512 entries in memory;
  `Translate` is the flat map they stand for. Create and remove are the three nested loops, proved on every range a
  caller may pass and on every way out: on which ranges each is the update of the flat map through any mixture of 1 GiB,
  2 MiB and 4 KiB leaves, and what it does to every address on the others. `Rounds` is how a loop over one table
  advances, on block boundaries and off them; `Landings` says where create sends each address, and `Sweeps` reads the
  addresses a removal clears off the tables it starts from. `HardwareWalk` is an independent definition, the walk of
  section 4.4 (Sv39) of the RISC-V Privileged Architecture manual.
- **Slabs** (`SlubPool`, `Slub`, `Heap`, `HeapRuns`). `SlubPool` is the allocator seen from outside: free chains, the
  list of pages with a free slot, the counter. `Slub` is the same in memory, with page headers, chain pointers and the
  doubly linked list. `Heap` joins it to the page allocator: the pages granted are new ones. `HeapRuns` is the general
  allocator, nine caches over one page allocator: over any run nothing handed out overlaps and nothing leaks.
- **Scheduler and mutexes** (`Scheduler`, `SchedulerSteps`, `SchedulerRuns`, `SchedulerWaits`, `KernelLists`,
  `KernelObjects`). `Scheduler` gives each call as one atomic step and the invariant all steps keep; `SchedulerSteps` is
  an independent account of a step, by what becomes of each field, list and mutex, which no other state meets.
  `SchedulerRuns` proves properties of whole runs and `SchedulerWaits` bounds the wait of a ready task under any
  activity. `KernelLists` is the intrusive circular lists, link by link; `KernelObjects` is the calls as they write
  those links and the fields.
- **Paths** (`Path`, `PathLaws`): one pass over the text with back-up, against a stack of components; and the laws of
  normalising told on texts alone.
- **Bitmaps** (`Bitmap`): search and fill by words, against single bits.

Findings about the code, each stated as a theorem:

- Initialising the page allocator ends with nothing counted as allocated exactly when the region is shorter than the
  alignment of its end; otherwise the last step overshoots (`PageInit.InitialisationSucceedsIff`). A heap of the 128 MiB
  machine on which it does is given (`PageInit.InitialisationFailsAt`).
- The superpage test of create accepts an address that is merely not in the first block. A successful create is the
  update asked for if and only if the test does not misfire on the first step; else it puts the whole block of the start
  at the target (`Mmu.Vtable.CreateMapping`, at both levels). On an unmapped range with frames enough every call does
  succeed (`MmuTheorems.CreateOnEmpty`), so also on the inputs in `MmuTheorems.CreateMisplacesMega` and
  `MmuTheorems.CreateMisplacesGiga`, and in `MmuTheorems.CreateLeavesGapMega` and `MmuTheorems.CreateLeavesGapGiga`,
  where it leaves a page of the range unmapped as well.
- The same test in remove fails in two ways: the part of the first block before the range is cleared with it, and once
  off the boundaries the head of the first table's block is skipped. A successful remove is the removal asked for if and
  only if nothing is mapped in either place (`Mmu.Vtable.RemoveMapping`; tables in `MmuTheorems.RemoveLosesPageBefore`
  and `MmuTheorems.RemoveLeavesHead`, and one level up in `MmuTheorems.RemoveLosesPageBeforeGiga` and
  `MmuTheorems.RemoveLeavesHeadGiga`).
- The slab release path leaves the counter of partial pages alone. The counter never falls below the list, so expansion
  loses no page; but after the first release it never reaches zero again, and once the list runs empty the next
  allocation reads a null page (`SlubPool.AllocationFindsPageExactlyWhen`, `SlubPool.ListRunsDry`).
- Waking a task that waits for a mutex by the plain wake-up call breaks the mutex: the lock call returns to a task that
  does not own it (`SchedulerRuns.WakeupKeepsExactlyWhen`, `SchedulerRuns.OutsideWakeupStealsReturn`), as it can after a
  run of six calls from the boot (`SchedulerRuns.StealIsReachable`).
- The scheduler's assertion fails exactly when no started task is ready (`Scheduler.SchedulableExactlyWhen`): so when
  every other task sleeps and the idle task yields (`SchedulerRuns.IdleAloneCannotYield`).
- On a map that is not a whole number of words a search for 64 bits or more can return a run that ends beyond the map
  (`Bitmap.SearchOvershootsExactlyWhen`), and a fill of zero bits fills to the end (`Bitmap.Bits.SetBits`).

## Model

| member | source | states |
|---|---|---|
| PageLists.FreeLists.constructor | src/memory/os_memory_page.c:314-341 | every list starts empty and no page has an order |
| PageLists.FreeLists.Insert | src/memory/os_memory_page.c:112-123 | the page becomes the head of that list and carries its order; the links still spell out every list in both directions, and a page has an order exactly when it is on that order's list |
| PageLists.FreeLists.Remove | src/memory/os_memory_page.c:129-139 | the page leaves the list of its order from wherever it stands, its order becomes the invalid one, and all links still spell out all lists |
| PageLists.FreeLists.Bypass | src/memory/os_memory_page.c:131-136 | exactly the two neighbouring links change, the head record's when the page was first |
| PageBlocks.CoveredRunInOneBlock | src/memory/os_memory_page.c:215-240 | when no two buddies are both free, an aligned run of free frames lies inside a single free block |
| PageBlocks.BlocksAreExactlyTheMaximalRuns | src/memory/os_memory_page.c:215-240 | a free block of an order heads at a frame if and only if the run there is free and no larger aligned run around it is |
| PageBlocks.CoverDeterminesBlocks | src/memory/os_memory_page.c:215-240 | history independence: equal sets of free frames mean equal free blocks, whatever led to them |
| PageBlocks.InsertCoalesced | src/memory/os_memory_page.c:221-236 | listing a run whose buddy is not free at its order leaves no two free buddies |
| PageBlocks.RemoveBlock | src/memory/os_memory_page.c:129-139 | unlisting a block uncovers exactly its frames and keeps the arrangement canonical |
| PageLayout.DivisionFits | src/memory/os_memory_page.c:322-330 | the records start the range; they, the alignment padding and the pages fit into it and waste at most one page |
| PageLayout.ConversionsInverse | src/memory/os_memory_page.c:43-75 | address to record and record to address are inverse on managed pages, and interior addresses find their page's record |
| PageLayout.RecordExistsInside | src/memory/os_memory_page.c:43-58 | the record lookup is null exactly outside the managed pages |
| PageLayout.BuddyIsOtherHalf | src/memory/os_memory_page.c:102-105 | flipping the order's address bit gives the other half of the enclosing block, or no record when that lies outside |
| PageLayout.SizeToOrderIsLeast | src/memory/os_memory_page.c:82-94 | the order computed is the least one, of a page at least, that holds the size |
| PageInit.StepBitsIsAlignment | src/memory/os_memory_page.c:350-364 | the order released at an address is its alignment, and at least that of a page |
| PageInit.StepRaisesAlignment | src/memory/os_memory_page.c:348-367 | the orders released strictly increase along the walk |
| PageInit.StepStaysInReach | src/memory/os_memory_page.c:348-367 | from a start in reach of the end no step overshoots it and the next address is in reach again |
| PageInit.InitialisationSucceedsIff | src/memory/os_memory_page.c:344-369 | the closing assertion that nothing is allocated holds exactly when the region is empty or shorter than the alignment of its end |
| PageInit.InitialisationFailsAt | src/memory/os_memory_page.c:304-369 | a heap start for which the 128 MiB machine fails its closing assertion, with the layout it gets |
| PageAllocator.NoBlockMeansNoRun | src/memory/os_memory_page.c:170-197 | the list scan finds nothing if and only if no aligned run of that size is free |
| PageAllocator.LargerBlockStaysApart | src/memory/os_memory_page.c:346-367 | during initialisation a block of a new largest order is listed without coalescing |
| PageAllocator.Allocator.constructor | src/memory/os_memory_page.c:304-370 | for a region in reach of its end: every frame is free, each block has the alignment of its address, nothing is allocated |
| PageAllocator.Allocator.ReleaseRegion | src/memory/os_memory_page.c:343-369 | the walk releases every frame once and brings the count of allocated pages to zero |
| PageAllocator.Allocator.Release | src/memory/os_memory_page.c:215-240 | exactly the run becomes free, free buddies are absorbed until none is left, the count falls by the run's pages; the block left stands in front of the list of its order, the lists from the returned order to that one lose one block each and no other list changes |
| PageAllocator.Allocator.Free | src/memory/os_memory_page.c:246-252 | the live block at the address becomes free, whole and nothing else, with the same effect on the lists |
| PageAllocator.Allocator.AllocOrder | src/memory/os_memory_page.c:164-198 | null exactly when no aligned run of the order is free; else the first block of the first non-empty list from that order on is taken, its first part becomes live and nothing else changes hands; each list between gets exactly the upper half split off, and no other list changes |
| PageAllocator.Allocator.Alloc | src/memory/os_memory_page.c:205-208 | completeness in bytes: null exactly when no aligned run of the least sufficient order is free; else first fit from that order on |
| PageAllocator.Allocator.SplitDown | src/memory/os_memory_page.c:180-186 | each round lists the upper half; the run kept shrinks to the wanted order and the free blocks stay canonical |
| PageAllocator.PartitionAlloc | src/memory/os_memory_page.c:164-198 | allocation keeps free and live blocks a partition of the region |
| PageAllocator.PartitionFree | src/memory/os_memory_page.c:246-252 | a live block is clear of free frames and may be released, and then the rest is still a partition |
| PageRuns.FramesLieInOneBlock | src/memory/os_memory_page.c:164-240 | every frame lies in exactly one block, and free and live blocks never share one |
| PageRuns.RunAndReturnAll | src/memory/os_memory_page.c:205-252 | after any requests and returns, once everything is given back, every order field is as before and nothing is allocated |
| PageTable.EntryFields | arch/riscv64/arch_mmu.c:19-34 | the tests for null, frame number and table pointer on the 64-bit value are the tests on the fields |
| PageTable.PathRoles | arch/riscv64/arch_mmu.c:52-106 | in every reachable table a walk goes from the first level to a second-level and then a third-level table of its own region |
| PageTable.WriteKeepsShape | arch/riscv64/arch_mmu.c:36-50 | writing a leaf or null into a table keeps the tree well-shaped |
| PageTable.MapsCompose | arch/riscv64/arch_mmu.c:95-102 | flat updates of adjoining ranges compose to the update of the whole |
| Mmu.Vtable.constructor | src/os_mmu.c:114-142 | a new table translates nothing |
| Mmu.Vtable.CreateBottom | arch/riscv64/arch_mmu.c:37-50 | the range inside one 2 MiB block goes to the target, every other address as before |
| Mmu.Vtable.CreateMiddle | arch/riscv64/arch_mmu.c:52-106 | inside one 1 GiB block, for any range, any size and every way out: each address below the 2 MiB block reached lands where the misfires of the superpage test send it, every other resolves as before; where no test misfires that is a prefix of the range, all of it on success; at most one table for each 2 MiB block is used; it fails only for want of one or where a superpage of the old tables stands |
| Mmu.Vtable.CreateMapping | arch/riscv64/arch_mmu.c:108-166 | success is the flat update of the range if and only if no superpage test misfires on the first step; otherwise the whole block of the start, earlier addresses too, translates to the target shifted; where none misfires failure maps a prefix. On every range and every way out each address below the 2 MiB block reached lands where `Landings.LandingOf` says and every other resolves as before. It fails only where a superpage of the old tables stands, or when there were fewer frames than one for each 1 GiB block and each 2 MiB block of the range |
| Mmu.Vtable.RemoveBottom | arch/riscv64/arch_mmu.c:168-180 | the range inside one 2 MiB block translates to nothing, every other address as before |
| Mmu.Vtable.RemoveMiddle | arch/riscv64/arch_mmu.c:182-228 | inside one 1 GiB block, for any range and any size: on success exactly the sweep read off the old tables is done, on failure exactly that sweep up to the block of the superpage in the way; from a start that is not astray failure unmaps a prefix and means a superpage reaches outside the range |
| Mmu.Vtable.RemoveMapping | arch/riscv64/arch_mmu.c:230-276 | success unmaps the range and nothing else if and only if nothing is mapped where the sweep read off the old tables goes wrong; failure stops at a superpage with exactly the sweep up to its block done, from a steady start that is a prefix unmapped, and cannot happen when every leaf lies inside the range; no address ever gets another mapping |
| Mmu.StraightWhenSteady | arch/riscv64/arch_mmu.c:230-276 | a removal whose first tests do not take a whole block off a boundary goes straight through the range and meets the exact condition |
| Sweeps.SweptExactly | arch/riscv64/arch_mmu.c:230-276 | what a sweep leaves behind is the removal of the range if and only if the old tables map nothing where it strays |
| Sweeps.SweepOrderly | arch/riscv64/arch_mmu.c:182-276 | a sweep strays only below the start, in its block, and in the heads of at most two blocks of the range |
| Sweeps.FirstTableIsFirst | arch/riscv64/arch_mmu.c:188-217 | a sweep off the boundaries gets back on them at the first table it meets: that entry is a table and none before it at the same offset is |
| MmuTheorems.FlatUpdate | arch/riscv64/arch_mmu.c:108-166 | after the call each address inside the part done translates to target plus offset with the permissions asked for, and as before outside |
| MmuTheorems.CreatedIsRemovable | arch/riscv64/arch_mmu.c:230-276 | no superpage that create wrote for a range reaches outside it |
| MmuTheorems.MapThenUnmap | arch/riscv64/arch_mmu.c:108-276 | with a frame for each block of an unmapped range creating on it and removing it again succeeds and restores the translation of every address, though tables stay; with fewer frames nothing but their want can stop it |
| MmuTheorems.CreateMisplacesMega | arch/riscv64/arch_mmu.c:60-67 | a call on a new table, with any three frames, on which the 2 MiB test misfires: it succeeds and leaves the page asked for a page off its target and the page before it mapped |
| MmuTheorems.CreateMisplacesGiga | arch/riscv64/arch_mmu.c:121-128 | the same for the 1 GiB test, with any 515 frames |
| MmuTheorems.CreateOnEmpty | arch/riscv64/arch_mmu.c:108-166 | on a range unmapped through its end, with a frame for each block, create succeeds; it is the flat update if and only if no test misfires, and else the whole block of the start lies at the target |
| MmuTheorems.LandsAsAsked | arch/riscv64/arch_mmu.c:108-166 | where no test misfires each address of the range lands at its own distance from the target and no other address lands |
| MmuTheorems.CreateLeavesGapMega | arch/riscv64/arch_mmu.c:60-103 | a call on a new table that succeeds, misplaces two blocks, maps the last page of the range right and leaves a page of the range unmapped |
| MmuTheorems.CreateLeavesGapGiga | arch/riscv64/arch_mmu.c:121-163 | the same one level up |
| MmuTheorems.RemoveLosesPageBefore | arch/riscv64/arch_mmu.c:190-196 | tables on which remove succeeds and a page before the range loses its translation |
| MmuTheorems.RemoveLeavesHead | arch/riscv64/arch_mmu.c:190-217 | tables on which remove succeeds and a page of the range stays mapped |
| MmuTheorems.RemoveLosesPageBeforeGiga | arch/riscv64/arch_mmu.c:236-244 | the loss of the page before one level up |
| MmuTheorems.RemoveLeavesHeadGiga | arch/riscv64/arch_mmu.c:236-272 | the page of the range left mapped one level up |
| MmuTheorems.WalkFindsPages | arch/riscv64/arch_mmu.c:547-591 | the software walk is non-null exactly where a 4 KiB leaf serves the address, and then is the kernel alias of the translation |
| MmuTheorems.WalkReadsThePage | arch/riscv64/arch_mmu.c:547-591 | in a kernel table that maps the window 0x20_0000_0000 onto memory from 0x8000_0000 the answer lies in the window and translates to where the user's table sends the address |
| MmuTheorems.HardwareAgrees | arch/riscv64/arch_mmu.h:84-98 | on every reachable table the processor's walk translates as the flat map says |
| Scheduler.SwitchKeeps | src/os_task.c:104-135 | switching keeps the invariant: one running task, each ready task once on the list of its priority, sleepers and stopped tasks on none |
| Scheduler.SchedulableExactlyWhen | src/os_task.c:85-87 | the scheduler's assertion holds exactly when some started task is ready |
| Scheduler.ScheduleKeeps | src/os_task.c:82-138 | after scheduling the current task runs and no ready task has a better priority |
| Scheduler.SleepKeeps | src/os_task.c:361-368 | sleeping takes the task off the processor and keeps the invariant |
| Scheduler.ExitKeeps | src/os_syscall.c:322-330 | exiting stops the task for good and keeps the invariant |
| Scheduler.WakeupKeeps | src/os_task.c:374-390 | a woken sleeper is ready or running, and the best task runs |
| Scheduler.StartupKeeps | src/os_task.c:324-332 | a started task is on the list of its priority once |
| Scheduler.TickKeeps | src/os_tick.c:21-35 | the tick keeps the invariant and schedules exactly when the slice is used up |
| Scheduler.LockKeeps | src/os_mutex.c:30-55 | a lock call that does not block leaves its caller the owner; one that blocks queues it last and puts it to sleep |
| Scheduler.HandoffKeeps | src/os_mutex.c:72-85 | the final unlock gives the mutex to the first waiter with count one and wakes it |
| Scheduler.UnlockKeeps | src/os_mutex.c:61-94 | locked, owned and a positive count stay one condition; waiters are never owners and only wait on locked mutexes |
| Scheduler.StepKeeps | src/os_task.c:82-390 | every step keeps the whole invariant and touches no mutex but its own |
| SchedulerSteps.StepLeads | src/os_task.c:53-390 | from every state in the invariant a step leads to a state if and only if that state follows the rules: who joins which list and where, the caller's new state, the first task of the best list runs unless the caller may run on, and what becomes of each field, list and mutex |
| SchedulerSteps.LeadsToOne | src/os_task.c:53-390 | those rules leave one state |
| SchedulerSteps.SliceFrame | src/os_task.c:115-118 | no step changes a priority or a full slice, or marks a task as started but its startup; a slice changes only for the current task: by one under a tick that finds some left, or from none to a full one when it leaves the processor or a tick finds none |
| SchedulerSteps.ExitIsFinal | src/os_syscall.c:322-330 | the caller of exit is stopped, and after any further run it is still stopped, not current and on no ready list |
| SchedulerSteps.SleepsUnlessWoken | src/os_task.c:361-390 | a sleeper sleeps on after a step if and only if the step is neither its wake-up nor a hand-over to it |
| SchedulerSteps.SleepLasts | src/os_task.c:361-368 | whoever sleeps or blocks on a lock is asleep, off the processor and on no ready list after any run that does not wake it |
| SchedulerRuns.RunKeeps | src/os_task.c:82-390 | every reachable state satisfies the invariant |
| SchedulerRuns.HeldIsDepth | src/os_mutex.c:30-94 | over any run a task's hold on a mutex changes by its lock calls minus its unlock calls |
| SchedulerRuns.RefcntIsDepth | src/os_mutex.c:30-94 | from a fresh mutex the count is the owner's nesting depth, a waiter's depth is one, everybody else's zero |
| SchedulerRuns.LockReturnsOwned | src/os_mutex.c:30-55 | whenever a lock call returns, at once or after sleeping through anything, its caller is the owner |
| SchedulerRuns.ArrivalOrder | src/os_waitqueue.c:41-66 | a waiter with i tasks ahead moves up one place per final release and owns the mutex after exactly i + 1 of them |
| SchedulerRuns.HandoffWakesOwner | src/os_mutex.c:80-85 | the task that becomes owner is running or on its ready list afterwards |
| SchedulerRuns.WakeupKeepsExactlyWhen | src/os_task.c:374-390 | the plain wake-up keeps the invariant exactly when its task is awake or waits for no mutex |
| SchedulerRuns.OutsideWakeupStealsReturn | src/os_task.c:374-390 | waking a waiter that may run at once, as no other task so good is ready, makes its lock call return to a task that is not the owner |
| SchedulerRuns.StealIsReachable | src/os_task.c:374-468 | a run from the boot, for any three tasks of falling priority, to such a state |
| SchedulerRuns.IdleAloneCannotYield | src/os_task.c:416-427 | from the boot the idle task starts another, which sleeps: the idle task runs and its yield fails the assertion |
| SchedulerRuns.BestStays | src/os_task.c:82-138 | once the best task runs, only starting a better one can change that |
| SchedulerRuns.StoppedForGood | src/os_syscall.c:322-330 | a stopped task stays stopped and never runs again |
| SchedulerRuns.RoundRobin | src/os_task.c:350-356 | with n tasks of the best priority, after j yields the j-th runs, and after n the list order is the first again with no other list or mutex changed |
| SchedulerRuns.RingTasks | src/os_task.c:82-138 | the tasks that take turns are all different |
| SchedulerRuns.ExactWait | src/os_tick.c:21-35 | driven by the timer, the j-th task runs after the sum of the remaining slices before it plus one tick each, and after no smaller number of ticks |
| SchedulerRuns.BoundedWait | src/os_tick.c:21-35 | after any run from a state of full slices, such as the boot, the j-th task runs within the sum of the full slices before it plus one tick each |
| SchedulerRuns.BootHasFullSlices | src/os_task.c:441-468 | the boot is such a state |
| SchedulerRuns.StepKeepsSlices | src/os_task.c:115-119 | no step leaves a task more than a full slice, nor takes it off the processor with none; what exactly it does is `SchedulerSteps.SliceFrame` |
| SchedulerRuns.RunKeepsSlices | src/os_task.c:115-119 | nor does any run |
| SchedulerRuns.StepIsFifo | src/os_task.c:104-113 | on each ready list tasks join at the end and leave from the front to run; no step lets one overtake another |
| SchedulerWaits.TurnComes | src/os_tick.c:21-35 | in any run of ticks, yields, sleeps, exits, starts, wake-ups, locks and unlocks in which a task of its priority always runs, a ready task runs within the remaining slices of those before it plus one tick each |
| SchedulerWaits.WaitIsBounded | src/os_tick.c:21-35 | after any run from full slices, in any such run, it runs within the full slices of those before it plus one tick each |
| KernelLists.RingAppended | include/os_list.h:61-72 | the four pointer writes of an insertion before the head turn a ring of nodes into the ring with the node at its end |
| KernelLists.RingWithout | include/os_list.h:89-104 | joining the neighbours of a node at any place gives the ring without it |
| KernelLists.Nodes.Init | include/os_list.h:27 | a head linked to itself is an empty list and no other list changes |
| KernelLists.Nodes.InsertTail | include/os_list.h:109 | the node is last on its list, the links of every list spell its contents both ways, and no other list changes |
| KernelLists.Nodes.Remove | include/os_list.h:89-104 | the node is off its list, points nowhere, and no other list changes |
| KernelLists.Nodes.Empty | include/os_list.h:115 | the test on the head's two links is emptiness of the list |
| KernelLists.Nodes.GetHead | include/os_list.h:111 | the node after the head is the first of a list that is not empty |
| KernelObjects.KernelState.constructor | src/os_task.c:441-468 | with 32 rings initialised, the idle task linked in, run and unlinked again: it runs and is started, no other task has changed, nobody is ready, there is no mutex, and the state satisfies the invariant |
| KernelObjects.KernelState.GetNextTask | src/os_task.c:53-67 | the scan of the heads' links finds the first task of the first non-empty ready list |
| KernelObjects.KernelState.Schedule | src/os_task.c:82-138 | the unlinking, linking and field writes of the switch are the scheduling step, and all links still spell all lists |
| KernelObjects.KernelState.Startup | src/os_task.c:324-332 | the pointer writes that link a new task in refine the startup step: it is last on the ready list of its priority and all links still spell all lists |
| KernelObjects.KernelState.Sleep | src/os_task.c:361-368 | in place, the sleep step |
| KernelObjects.KernelState.Exit | src/os_syscall.c:322-330 | in place, the exit step |
| KernelObjects.KernelState.Wakeup | src/os_task.c:374-390 | in place, the wake-up step |
| KernelObjects.KernelState.TickHandler | src/os_tick.c:21-35 | in place, the tick step |
| KernelObjects.KernelState.QueueAdd | src/os_waitqueue.c:19-24 | linking in a node that waits nowhere puts its task last in the queue, and leaves every other queue and ready list as it was |
| KernelObjects.KernelState.QueueWait | src/os_waitqueue.c:41-48 | the current task is last in the queue and asleep, another runs |
| KernelObjects.KernelState.QueueGetHead | src/os_waitqueue.c:83-93 | the links of the head give the first waiter in order of arrival, or none when they show an empty ring |
| KernelObjects.KernelState.QueueWakeup | src/os_waitqueue.c:54-66 | the first waiter leaves the queue and is woken; nothing happens to an empty queue |
| KernelObjects.KernelState.MutexInit | src/os_mutex.c:18-24 | a new mutex is unlocked, unowned and empty and disturbs nothing |
| KernelObjects.KernelState.MutexLock | src/os_mutex.c:30-55 | in place, the lock step |
| KernelObjects.KernelState.MutexUnlock | src/os_mutex.c:61-94 | in place, the unlock step with its hand-over |
| KernelObjects.KernelState.Do | src/os_task.c:82-390 | any call made when the kernel's assertions allow it is its step and keeps the invariant |
| SlubPool.CacheOrderFits | src/memory/os_memory_slub.c:165-170 | every size sent to the slab allocator has a cache, with the smallest objects that hold it |
| SlubPool.MaskFindsPage | src/os_memory.c:79-87 | masking an object's address gives its slab page, and no object is page-aligned itself |
| SlubPool.SlotsApart | src/memory/os_memory_slub.c:79-112 | objects and chain pointers of different slots share no byte, nor with any page header |
| SlubPool.SlotsFillPage | src/memory/os_memory_slub.c:79-112 | one slot more would not fit into a page |
| SlubPool.ExpandKeeps | src/memory/os_memory_slub.c:118-158 | expansion finds the list empty, so no page with a free slot is lost, and takes nothing out of use |
| SlubPool.TakeKeeps | src/memory/os_memory_slub.c:186-215 | the slot handed out was free, and exactly it becomes used |
| SlubPool.FreeKeeps | src/memory/os_memory_slub.c:225-274 | exactly the slot becomes unused, a released page has no slot in use, and each release adds one to the counter's lead over the list |
| SlubPool.ReleasesExactlyWhen | src/memory/os_memory_slub.c:253-273 | a page goes back exactly when its last slot in use is freed and the counter then exceeds two; it is gone then, else it stays, and no other page changes |
| SlubPool.AllocKeeps | src/memory/os_memory_slub.c:165-219 | allocation hands out an unused slot or, when no page is granted, nothing; the counter's lead stays |
| SlubPool.FreedIsNextTaken | src/memory/os_memory_slub.c:231-250 | the slot freed last into the page in front, or into a full page, is the next one taken, and then the pool is as before |
| SlubPool.TakenCanBePutBack | src/memory/os_memory_slub.c:186-250 | taking and putting back restores the pool unless the page is released |
| SlubPool.RunBalance | src/memory/os_memory_slub.c:165-274 | over any run the chains are the exact complement of the slots the callers hold, and counter minus list length grows by the releases |
| SlubPool.CounterIsListPlusReleases | src/memory/os_memory_slub.c:253-273 | the counter is the list length plus all releases so far, so expansion only ever overwrites an empty list |
| SlubPool.AllocationFindsPageExactlyWhen | src/memory/os_memory_slub.c:174-187 | an allocation does not read a null page exactly when the list is not empty or nothing was ever released |
| SlubPool.ListRunsDry | src/memory/os_memory_slub.c:174-187 | a run of seven calls on 2048-byte objects after which the next allocation reads a null page |
| Slub.Cache.constructor | src/memory/os_memory_slub.c:54-73 | an empty cache stores the empty pool |
| Slub.Cache.PageInit | src/memory/os_memory_slub.c:79-112 | the loop chains all slots in address order, ends the chain, and touches nothing outside the page |
| Slub.Cache.Expand | src/memory/os_memory_slub.c:118-158 | the first two pages granted, or as many as there are, are added and counted; headers, links and chains store the pool with them |
| Slub.Cache.Alloc | src/memory/os_memory_slub.c:165-219 | the object is the first free one of the front page, or the first of the last page just granted; null exactly when the counter is zero and no page is granted; memory stores the pool without it |
| Slub.Cache.TakeFront | src/memory/os_memory_slub.c:186-218 | the front page gives up the head of its free chain; when that was the last it leaves the front of the list to the next page |
| Slub.Cache.Free | src/memory/os_memory_slub.c:225-274 | the page is handed back if and only if no other slot of it is in use and the counter exceeds two, and only then is gone; else the object heads its page's chain before what headed it, and a page that was full heads the list; memory stores the pool with the slot back |
| Slub.Cache.ReleasePage | src/memory/os_memory_slub.c:256-272 | unlinking works from any place in the list |
| Heap.GrantPages | src/memory/os_memory_slub.c:125-155 | the pages the page allocator grants a cache are aligned, distinct and in nobody's hands, whatever pages all caches have |
| Heap.ObjectsApartFromBlocks | src/os_memory.c:42-68 | an object and a live block other than its slab page share no byte |
| Heap.RoutedByAlignment | src/os_memory.c:74-90 | the alignment test of the general free call sends objects to the slabs and blocks to the page allocator |
| HeapRuns.HeldApart | src/os_memory.c:42-68 | whatever two addresses the general allocator has handed out, objects of any caches or blocks, their bytes are disjoint |
| HeapRuns.HeldRouted | src/os_memory.c:74-90 | an address handed out is page-aligned exactly when it came from the page allocator, and else masking it gives the page of its object |
| HeapRuns.ObjectTaken | src/memory/os_memory_slub.c:165-219 | a cache that takes in the pages granted and hands out a slot leaves pages, pools and everything held in order, and the object is a new one; there is none exactly when the cache counts no page and none is granted |
| HeapRuns.ObjectReturned | src/memory/os_memory_slub.c:225-274 | so does one that takes a slot back, whether its page stays or goes back to the page allocator |
| HeapRuns.GeneralHeap.constructor | src/os_memory.c:21-26 | at the start nothing is held, no cache has a page and every frame is free |
| HeapRuns.GeneralHeap.Alloc | src/os_memory.c:42-68 | null exactly when nothing can serve the size; else a new address with at least that many bytes, from a cache exactly below half a page, and all that was held stays |
| HeapRuns.GeneralHeap.Free | src/os_memory.c:74-90 | exactly that address is no longer held, whichever of the nine caches or the page allocator it came from; a slab page released goes back too |
| HeapRuns.GeneralHeap.Run | src/os_memory.c:42-90 | over any calls in any order everything handed out is pairwise disjoint, each address is routed to where it came from, and every live block is handed out or a slab page |
| Path.NormalDirectory | src/os_vfs.c:112-177 | the directory reached has proper components only and the result is never longer than the path |
| Path.NormalIsProper | src/os_vfs.c:87-90 | the result is an acceptable path without ".", ".." or a slash at the end, except for the root |
| Path.NormalisingTwice | src/os_vfs.c:92-178 | normalising a normal path changes nothing |
| PathLaws.DotStays | src/os_vfs.c:126-132 | a component "." more leaves the normal path |
| PathLaws.PlainGoesDown | src/os_vfs.c:155-163 | a plain component more is added to the normal path |
| PathLaws.DotDotGoesUp | src/os_vfs.c:133-153 | ".." takes back the plain component before it, and at the root leaves the root |
| PathLaws.PrefixCounts | src/os_vfs.c:112-164 | what comes before a component counts only by its normal form |
| PathLaws.SlashCountsNot | src/os_vfs.c:166-173 | a slash at the end counts for nothing, and the root is normal |
| Path.BackUp | src/os_vfs.c:141-149 | backing up over ".." leaves the text of the directory above |
| Path.Trim | src/os_vfs.c:166-173 | the slash at the end is dropped except for the root |
| Path.SkipDots | src/os_vfs.c:126-153 | "." leaves the text, ".." takes off one component, elsewhere nothing happens |
| Path.Advance | src/os_vfs.c:114-164 | one round reads at least one character and keeps the text written in step with the directory reached; it stops only on an unacceptable path |
| Path.Normalize | src/os_vfs.c:92-178 | it succeeds exactly on 1 to 255 characters that start with a slash and hold no double slash and no backslash; the buffer then holds the folded components, terminated; on failure the empty string, or nothing when the path is too long |
| Bitmap.UniformBits | src/os_bitmap.c:126-140 | the first n bits all agree exactly in zero and in the all-ones number |
| Bitmap.OrMaskBit | src/os_bitmap.c:103-104 | or-ing a mask in sets its bit and no other |
| Bitmap.AndNotMaskBit | src/os_bitmap.c:103-104 | and-ing the complement clears its bit and no other |
| Bitmap.SearchIsNaive | src/os_bitmap.c:114-219 | on maps of whole words, and for runs below a word, the answer is the least run inside the map from the start on, and none means there is none |
| Bitmap.SearchAlways | src/os_bitmap.c:114-219 | on any map: no bits are never found; a run found has all its bits from the start on and ends inside the map or with its last word; no run inside the map begins before it |
| Bitmap.SearchOvershootsExactlyWhen | src/os_bitmap.c:120-162 | some map makes the search return a run beyond its end exactly when the size is not whole words and the count is between a word and the capacity |
| Bitmap.Bits.GetBit | src/os_bitmap.c:80-88 | the bit of the map |
| Bitmap.Bits.SetBit | src/os_bitmap.c:96-105 | that bit becomes the lowest bit of the value, no other changes |
| Bitmap.Bits.FindSomeOnes | src/os_bitmap.c:114-162 | the word-skipping search returns the least run accepted, and the failure value exactly when there is none |
| Bitmap.Bits.FindSomeZeros | src/os_bitmap.c:171-219 | the dual for zeros |
| Bitmap.Bits.SetBits | src/os_bitmap.c:228-268 | exactly the requested bits take the value; a count of zero wraps around and fills on to the end |

## Left out

- PageLayout.BuddyIsOtherHalf: `buddy_get` (src/memory/os_memory_page.c:102-105) has no return statement; the model takes the value it computes.
- PageAllocator.Allocator.Free: only live blocks are freed, and only sizes above zero are allocated; the original has no other defined behaviour.
- PageAllocator.Allocator.constructor: proved for regions in reach of their end, the condition under which the original's own assertion passes; `1 << size_bits` is taken without its 32-bit width, and the region lies below the end of the address space.
- Mmu.Vtable.CreateMapping: the range is whole pages below 2^38 and permissions include read, write or execute; the checks against `va_start` and `va_size` and the high-half window, where the start is truncated and the end is not, are not modelled. Tables come from a finite pool of zeroed frames; clearing the null table before the null test is not modelled.
- Mmu.Vtable.RemoveMapping: the range is whole pages below 2^38.
- MmuTheorems.HardwareAgrees: accessed and dirty bits and the checks against privilege modes are not part of the walk.
- `os_mmu_find_vaddr`, `os_mmu_create_mapping_auto`, the user-mapping copies and removal of all mappings: their bookkeeping departs from their purpose, or they add only recursion over the same tables.
- Slub.Cache.Free: fewer than 2^64 - 1 counted pages, so the overflow disjunct of the release test is never true; freeing anything but an object in use is not modelled.
- HeapRuns.GeneralHeap.Run: the run ends at the first call the code is not fit for: no bytes at all, an address not handed out, a cache whose list is empty under a positive counter (`SlubPool.AllocationFindsPageExactlyWhen`), a counter about to overflow. Clearing the bytes handed out is not modelled.
- Scheduler.StepKeeps: one processor, each call one atomic step, the switch in it; nested interrupts, lazy switching, stack checks, the unused blocking state and removal of a task's structures are not modelled. The plain wake-up is a step only for tasks that wait for no mutex, as `SchedulerRuns.WakeupKeepsExactlyWhen` shows it must be.
- KernelObjects.KernelState.Schedule: a task's fields are a value in a map the methods reassign; its list nodes are named by the task, so the node of a wait queue, on the waiting call's stack in the original, is one per task. The list of all tasks is not modelled; `started` says that a task is on it.
- Path.Normalize: characters are compared as they are; the caller's buffer holds 256 characters, as all callers provide.
- Bitmap.Bits.FindSomeOnes: words are numbers below 2^64, with shifts as division by powers of two and the mask operations as adding or taking away a power of two; creating and destroying a bitmap is not modelled.
- Assembly, traps, timer and console hardware, loading of programs, system calls other than exit, files, devices, mounting, the hash map, and number printing: plumbing or easier members.

# A verified model of MOS

MOS is a small MIPS kernel with a user library and a file server. This project models the parts
of it in which state is shared and changed step by step, and proves what they promise.

`dafny verify dfyconfig.toml` checks everything.

How the files fit together:

- `PageTables` is the machine state of `kern/pmap.c`: physical pages with their reference counts,
  the free list, two-level page tables and the TLB, with the invariant that ties them together.
  `AddressSpaces` and `MemoryCalls` add whole address spaces and refills, `VmView` shows the
  memory system calls as updates of a plain map, `Windows` is about the page-table windows and the
  handler at the refill vector, `UpperSlots` about faults in them beyond the user's tables,
  `MemoryRuns` puts all of them into runs from boot, and `PhysMem` is the same code in place, over
  arrays and the intrusive list.
- `CowFork` proves copy-on-write fork against eager copying over `VmView`'s plain map;
  `ForkCalls` ties its steps to the system calls on the page tables, `ForkLoop` is the loop of fork.
- `Queues` is `include/queue.h` on pointers. `Scheduling` is the state machine of run queue,
  environment states and IPC, `KernelCalls` says what each of its calls changes and leaves alone,
  `Fairness` and `Messages` are about its runs, `EnvTable` is the same code in place on the pointer
  queues, `EnvIds` is about ASIDs and environment ids.
- `PipeBuffer` is the ring buffer of a pipe, `PipeClose` the test for a closed one.
- `FileTree` finds the struct Files where they are, in the superblock and in the blocks of
  directories; over it `FileBlocks` is the allocator, the block maps and truncation of `fs/fs.c`,
  `BlockMaps` the taking of blocks, `Directories` what concerns directories and what clients may
  write, and `FileServer` the same code in place. `ImageBuilder` and `ImageWriter` are
  `tools/fsformat.c` as functions and in place, proved to agree with the server.
- `SegmentLoad`, `InitStack` and `PrintNum` are the layout arithmetic of `lib/elfloader.c`,
  `user/lib/spawn.c` and `lib/print.c`.

Classes are the code as it updates its fields. Their methods are tied to functions on values, and
the lemmas are about these functions.

Where the code and its comments differ, the model follows the code:

- `sys_ipc_try_send` with an unmapped page reports -E_INVAL after it has delivered the value.
- `init_stack` ends the argument pointers with the address of the last byte of the page, not with 0.
- `schedule` does not count a slice below 0, so priority 0 gets one slice per turn.
- The comment in `duppage` that asks why the child is mapped first has its answer in
  `CowFork.SwappedDupLeaks`.

Where the code does not do what it is for, there is the exact condition under which it does:

- fork isolates a child unless a frame is mapped twice, and gives it every page unless one is
  mapped below UTEMP or a page table cannot be had: duppage does not look at the result of
  `sys_mem_map`, which refuses such pages (`CowFork.CopiesExactlyWhen`,
  `CowFork.LostPageLeavesNothing`, `ForkLoop.ForkCopiesReads`).
- A pipe looks closed when it is not while a fork is half way through sharing its pages
  (`PipeClose.ClosedTestSound`).
- Blocks that were freed keep their words in the cache, and these pass for block numbers
  (`BlockMaps.MapKeepsOkExactly`, `Directories.MoreDirKeepsOkExactly`,
  `Directories.ResizeKeepsOkExactly`).
- Clients are sent any block for writing, those of directories included (`Directories.WriteKeepsOk`).
- Truncation and removal can leave blocks without an owner (`FileBlocks.TruncateLeaks`,
  `Directories.RemoveLeaks`).
- A short first page of a program segment is overwritten by zeros (`SegmentLoad.LoadSegImageExactly`).
- env_free forgets one page of the page-table windows in the TLB (`Windows.SecondViewOutlives`),
  and does not give back the pages that faults at window pages from PDX(UTOP) on have put into
  the directory (`UpperSlots.UpperRefillKeeps`, `UpperSlots.ForgottenForGood`).

## Model

| member | source | states |
|---|---|---|
| `MemoryRuns.BootRun` | kern/pmap.c:89-319 | From page_init on, after any run of memory system calls, page transfers by messages, page faults, refills by both handlers and of any page of the page-table windows, user stores, creations and deaths of environments: every pp_ref is the number of page-table entries, directory entries and directories that refer to the page; every page is free, referenced, or one that a failed sys_mem_alloc dropped, and there are as many of these as there were such failures; the pages that can never be free again are those before the first unused one and one for each fault at an empty directory slot from PDX(UTOP) on; every TLB entry of a live space is the current page-table entry |
| `MemoryRuns.DoKeepsInv` | kern/syscall_all.c:136-229 | No single operation breaks the reference counts, the free list, the TLB or the page-table windows; none loses a page other than the one sys_mem_alloc drops when page_insert fails, or puts one out of reach other than by a fault at an empty directory slot from PDX(UTOP) on |
| `PageTables.InsertKeepsInv` | kern/pmap.c:216-247 | page_insert refines a map update: on success va maps to the page with perm and PTE_V, every other translation and all user data stay; it fails exactly when there is no page table and no free page, and then changes nothing but a TLB entry |
| `PageTables.RemapKeepsInv` | kern/pmap.c:222-230 | Inserting the page already mapped there changes only the permissions, not the count |
| `PageTables.RemoveKeepsInv` | kern/pmap.c:292-308 | page_remove clears exactly one translation, keeps counts exact and the TLB coherent, and never removes a page table |
| `PageTables.NewTableKeepsInv` | kern/pmap.c:172-202 | A page table made by pgdir_walk takes the first free page, is referenced once, and changes no translation |
| `PageTables.NewTableEntry` | kern/pmap.c:190-191 | Its directory entry has PTE_V and PTE_D and no other bit |
| `PageTables.AllocKeepsInv` | kern/pmap.c:126-141 | page_alloc takes the first free page, zeroed, mapped nowhere and with count 0 |
| `PageTables.DecrefFree` | kern/pmap.c:280-288 | page_decref puts a page on the free list exactly when its last reference goes |
| `PageTables.MappableSurvives` | kern/pmap.c:234-245 | The page being inserted cannot be freed, or taken for the new page table, while the old mapping is removed |
| `PageTables.LookupIsPte` | kern/pmap.c:254-274 | page_lookup finds a page exactly when the two-level walk finds a valid entry |
| `MemoryCalls.PageInitInv` | kern/pmap.c:89-111 | After page_init exactly the pages from the first unused one on are free, and all counts are right |
| `MemoryCalls.InsertCountsUntilWrap` | include/pmap.h:14-23 | The unsigned short pp_ref records the number of references after page_insert if and only if there were fewer than 65535 before |
| `MemoryCalls.EnvSetupKeepsInv` | kern/env.c:190-215 | A new address space takes the first free page, starts empty below UTOP, has the template's entries from UTOP to UVPT, maps itself read-only at UVPT and KSEG2, is empty elsewhere, and has no TLB entry left from an earlier owner of its ASID; other spaces keep their directories; it fails, without a change, exactly when no page is free |
| `MemoryRuns.WindowsInEveryRun` | kern/env.c:209-213 | In every state that can be reached from boot, every live space maps itself at UVPT and KSEG2; vpt[VPN(va)] and the word the handler at the refill vector loads are the page-table entry of va, vpd is the directory; and what a load through any TLB entry for these windows finds is current |
| `MemoryCalls.WindowsReadPte` | kern/env.c:212-213 | In a self-mapped space the walk for UVPT + 4 * VPN(va), or KSEG2 + 4 * VPN(va), ends at the page-table entry of va, and faults exactly when va has no page table; every reachable space is self-mapped by MemoryRuns.WindowsInEveryRun |
| `MemoryCalls.VpdReadsDirectory` | user/include/lib.h:11-12 | In a self-mapped space, as every reachable one is, vpd is the page directory |
| `Windows.FastRefillIsPte` | kern/entry.S:5-29 | What the handler at the refill vector writes, through a TLB entry of the KSEG2 window, is what the slow refill would write |
| `Windows.WindowRefillKeeps` | kern/tlbex.c:40-57 | A refill of a window page, which makes the missing page table through the self-mapping, keeps counts, tables and windows right |
| `Windows.FastWindowRefillKeeps` | kern/entry.S:5-29 | So does one served by the handler at the refill vector, which may write an entry that is not valid |
| `Windows.RefillsServeExactlyWhen` | kern/entry.S:5-29 | The handler at the refill vector serves a miss if and only if the TLB has a valid entry for the window page it loads from; the other refill of a window page panics if and only if a table is missing and no page is free |
| `Windows.SetupMirrored` | kern/env.c:190-215 | A new space is self-mapped and finds no window entry of an earlier owner of its ASID |
| `Windows.SecondViewOutlives` | kern/env.c:411-412 | The directory is also at slot PDX(KSEG2), so it shows at a second page of the UVPT window; a TLB entry for that page is there after env_free exactly if it was before, and then outlives the environment, valid, while the directory goes to the free list |
| `Windows.FreeMirrored` | kern/env.c:385-412 | The invalidations of env_free leave no window entry that leads to a freed table or directory |
| `UpperSlots.UpperRefillKeeps` | kern/tlbex.c:7-57 | A fault at a page of the UVPT window whose directory slot is from PDX(UTOP) on keeps counts, tables, windows and free list right, and takes a page out of circulation if and only if the slot was empty |
| `UpperSlots.UpperPanicsExactlyWhen` | kern/tlbex.c:33-34 | It panics if and only if the slot is empty and no page is free |
| `UpperSlots.ForgottenForGood` | kern/env.c:386-408 | env_free, which looks at the slots below PDX(UTOP) only, leaves that page with count 1, not free, and with no entry of any space that leads to it |
| `MemoryCalls.TlbRefillCoherent` | kern/tlbex.c:40-57 | A refill, whatever the TLB evicts for it, leaves the TLB coherent with the entry for va in it, and a page that was missing becomes a zeroed writable page of its own |
| `MemoryCalls.RefillPanicsExactlyWhen` | kern/tlbex.c:7-57 | The kernel panics over a user's load or store if and only if the page is not mapped, and it is the one at USTACKTOP, or there is no free page, or no table for it and only one free page |
| `Mmu.Layout` | include/mmu.h:63-110 | The addresses of the layout, as numbers: the page at USTACKTOP is the last but one below UTOP, the first one that sys_mem_map accepts the last but one of the first table |
| `MemoryCalls.AllocInsert` | kern/syscall_all.c:153-155 | page_alloc followed by page_insert maps a zeroed page nobody else maps, or drops it exactly when it was the last free page and a table was missing |
| `AddressSpaces.EnvFreeKeepsInv` | kern/env.c:378-418 | env_free leaves every other space's translations and data alone, keeps all counts exact, and leaves no valid user translation for the ASID in the TLB |
| `AddressSpaces.EnvFreeConserves` | kern/env.c:386-408 | A page's count falls by exactly the references the dead environment held; the free list gains exactly the pages only it referred to, its tables and directory among them |
| `AddressSpaces.FreeTableReleases` | kern/env.c:386-406 | One round of the outer loop empties one table, gives its page back and touches nothing the space does not own |
| `VmView.MemAllocView` | kern/syscall_all.c:136-156 | Seen as a map from (space, page) to (frame, permissions), sys_mem_alloc adds a zeroed frame that nobody else maps, or fails without a change to the map; each of the four results is returned exactly under its condition, and a page is dropped exactly if it was the last one and a table was missing |
| `VmView.MemMapView` | kern/syscall_all.c:172-201 | sys_mem_map makes two addresses share a frame and keeps all data, or fails without a change; each of its four results is returned exactly under its condition, success exactly for legal addresses, a mapped source, and a table for the target or a page for one |
| `VmView.MemUnmapView` | kern/syscall_all.c:213-229 | sys_mem_unmap removes one key from the map; each of its two errors is returned exactly under its condition, and changes nothing |
| `VmView.UserStoreView` | kern/pmap.c:216-247 | A user store changes one frame of user data and no mapping or count: no table or directory is reachable through a user mapping |
| `VmView.SendPageView` | kern/syscall_all.c:438-447 | A send that reports success has mapped the page into the receiver if and only if there was a table for its address or a page for one, and otherwise has changed no mapping; a receiver that asked for no page gets it at address 0 |
| `PhysMem.PhysicalMemory.constructor` | kern/pmap.c:89-111 | The two loops of page_init over the pages array and the intrusive free list, tied to PageInit |
| `PhysMem.PhysicalMemory.PageAlloc` | kern/pmap.c:126-141 | page_alloc on the intrusive list does what PageTables.PageAlloc says, and the list stays well formed |
| `PhysMem.PhysicalMemory.PageFree` | kern/pmap.c:149-154 | The page becomes the head of a free list that stays well formed |
| `PhysMem.PhysicalMemory.PageDecref` | kern/pmap.c:280-288 | In place, tied to PageTables.PageDecref |
| `PhysMem.PhysicalMemory.PgdirWalk` | kern/pmap.c:172-202 | In place, tied to PageTables.PgdirWalk with its result and its error |
| `PhysMem.PhysicalMemory.PageLookup` | kern/pmap.c:254-274 | Finds what PageTables.PageLookup says and changes nothing |
| `PhysMem.PhysicalMemory.PageRemove` | kern/pmap.c:292-308 | In place, tied to PageTables.PageRemove |
| `PhysMem.PhysicalMemory.PageInsert` | kern/pmap.c:216-247 | In place, with its three cases, tied to PageTables.PageInsert and so to the map update |
| `PhysMem.PhysicalMemory.TlbInvalidate` | kern/pmap.c:317-319 | Removes the one TLB entry |
| `PhysMem.PhysicalMemory.EnvSetupVm` | kern/env.c:190-215 | In place, tied to MemoryCalls.EnvSetupVm |
| `PhysMem.PhysicalMemory.EnvFree` | kern/env.c:378-418 | The two nested loops over directory and tables, tied to AddressSpaces.EnvFree and so to the conservation result |
| `PhysMem.PhysicalMemory.FreeLeaves` | kern/env.c:395-399 | The inner loop of env_free |
| `PhysMem.PhysicalMemory.PassiveAlloc` | kern/tlbex.c:7-35 | In place; false where the kernel panics |
| `PhysMem.PhysicalMemory.TlbRefill` | kern/tlbex.c:40-57 | The lookup loop runs at most twice and does what MemoryCalls.TlbRefill says |
| `EnvIds.AsidTable.Alloc` | kern/env.c:32-44 | The scan of the packed bitmap finds the smallest unused ASID, and marks it alone |
| `EnvIds.AsidTable.Free` | kern/env.c:54-58 | Clears the one bit |
| `EnvIds.FullWhen64` | kern/env.c:32-44 | asid_alloc fails exactly when 64 environments are live |
| `EnvIds.AllocKeepsApart` | kern/env.c:265 | env_alloc, which ignores the failure of asid_alloc, keeps the ASIDs of live environments distinct if and only if fewer than 64 are live |
| `EnvIds.FreeKeepsApart` | kern/env.c:408-410 | Freeing an environment makes its ASID, and no other, available |
| `EnvIds.SameId` | kern/env.c:94-97 | Two calls of mkenvid make the same id exactly for the same slot and counters equal modulo 2^21 |
| `EnvIds.IdFindsItsOwner` | kern/env.c:112-145 | In every run of env_alloc and env_free from env_init on, the id a call made finds its environment exactly until that is freed, while fewer than 2^21 calls have been made since; after that it finds whoever a call with the same counter put into the slot; it is 0, the caller, exactly in slot 0 at a multiple of 2^21 |
| `EnvIds.OnlySelfAndParent` | kern/env.c:112-145 | With the permission test, in every such run, the id finds its environment only for itself and for the one whose id was its parent argument; 0 always finds the caller |
| `CowFork.RunMatches` | user/lib/fork.c:16-147 | For every run of loads, stores, demand-zero faults, copy-on-write faults and forks, interrupted anywhere between the calls of duppage, that releases no child for which a call of duppage has failed: every runnable environment reads at every page what it would read had fork copied each private page when duppage finished with it; library pages stay shared |
| `CowFork.SameExactlyWhenWhole` | user/lib/fork.c:85-92 | Under the sharing discipline a run shows every runnable environment, at every moment, what eager copying does, if and only if it releases no child for which a call of duppage has failed, below UTEMP or for want of a page for a table |
| `CowFork.LostPageLeavesNothing` | kern/syscall_all.c:172-201 | In every system, the child for which such a call has failed reads nothing at the page, where eager copying gives it what its parent has; below UTEMP the parent's mapping stays as it was |
| `CowFork.NextMatches` | user/lib/fork.c:71-94 | Every event keeps the simulation, with the child mapped before the parent is remapped, except the release of a child with lost pages |
| `CowFork.CopiesExactlyWhen` | user/lib/fork.c:71-94 | That all runs match eager copying exactly as long as they release no child with lost pages holds if and only if no frame that can be written through one mapping has another, other than library pages on both sides and the child of a page half way through duppage |
| `CowFork.EagerOfMatches` | user/lib/fork.c:71-94 | Any system that keeps the sharing discipline has an eager counterpart, so the simulation starts anywhere |
| `CowFork.CowNotWritable` | user/lib/fork.c:86-93 | Once duppage is done with a page, no mapping of a frame that is somewhere copy-on-write can be written through |
| `CowFork.CowFrameStable` | user/lib/fork.c:31-43 | No event changes a frame that is mapped copy-on-write, so the copy in cow_entry need not be atomic |
| `CowFork.TouchShowsZeros` | kern/tlbex.c:7-35 | The first access to a page shows zeros to the one that made it and changes what nobody else reads |
| `CowFork.StoreIsPrivate` | user/lib/fork.c:16-47 | A store to a private page goes through, from a copy if the page is copy-on-write, is read back, and is seen by nobody else |
| `CowFork.LibraryStoreIsSeen` | user/lib/fork.c:85-86 | A store to a library page is read by everyone who has it mapped |
| `CowFork.ForkGivesPage` | user/lib/fork.c:107-147 | A fork of one page that is not interrupted can run, ends with the child runnable and the page in it, and changes what nobody else reads |
| `CowFork.AliasedPageLeaks` | user/lib/fork.c:71-94 | In every system, when a private writable frame is mapped at two pages of the parent, the child's copy of the first, which sys_mem_map accepts, shows what the parent stores through the second after the first has been shared; eager copying does not |
| `CowFork.SwappedDupLeaks` | user/lib/fork.c:82-92 | Were the parent remapped first, a store between the two calls would leave it a writable mapping of the child's frame, for every page that the calls accept |
| `ForkCalls.CowEntryByCalls` | user/lib/fork.c:33-43 | With two free pages the four calls of cow_entry succeed on the page tables and do what the copy-on-write step of the simulation says |
| `ForkCalls.CowEntryRefused` | kern/syscall_all.c:172-179 | Below UTEMP the third call is refused and the faulting page stays as it is, so the store faults for ever; the simulation has no such store |
| `ForkCalls.DupPageByCalls` | user/lib/fork.c:85-91 | On every page that fork comes to, the first call of duppage on the page tables is the first step of the simulation; it fails with -E_INVAL below UTEMP, with -E_NO_MEM without a table or a page for one, and exactly there the step loses the page |
| `ForkCalls.RemapByCall` | user/lib/fork.c:92 | The second call, on the page tables, is the second step, also when the first has failed, and is refused below UTEMP |
| `ForkCalls.SentToZeroIsLost` | kern/syscall_all.c:438-447 | A page sent to a receiver that asked for none is mapped at its page 0, where every call of duppage is refused |
| `ForkLoop.Spaces.Fork` | user/lib/fork.c:127-135 | The nested loops come to every mapped page below USTACKTOP once, in both branches of duppage; the child gets exactly those from UTEMP on for which there is a page table or a page for one, and nothing else |
| `ForkLoop.Spaces.DupPage` | user/lib/fork.c:71-94 | duppage in place is the steps of the simulation, whether its calls succeed or are refused |
| `ForkLoop.ForkCopiesReads` | user/lib/fork.c:107-147 | After an uninterrupted fork the child reads at a page below USTACKTOP what the parent read before if and only if the parent had nothing there or the call of duppage was accepted; the parent reads what it read before |
| `ForkLoop.SparedExactlyWhen` | user/lib/fork.c:127-146 | The loop releases a child without lost pages exactly if every mapped page of the parent was accepted |
| `Queues.ListInsertHeadPrepends` | include/queue.h:140-146 | LIST_INSERT_HEAD on pointers prepends |
| `Queues.ListRemoveTakesOut` | include/queue.h:154-159 | LIST_REMOVE on pointers takes out exactly the element |
| `Queues.TailqInsertHeadPrepends` | include/queue.h:190-198 | TAILQ_INSERT_HEAD on pointers prepends, and keeps the tail pointer right |
| `Queues.TailqInsertTailAppends` | include/queue.h:200-206 | TAILQ_INSERT_TAIL on pointers appends |
| `Queues.TailqRemoveTakesOut` | include/queue.h:226-233 | TAILQ_REMOVE on pointers takes out exactly the element and keeps head and tail pointers right |
| `Queues.RemoveAbsent` | include/queue.h:226-233 | TAILQ_REMOVE of an element that is not queued is harmless if and only if its stale links still fit the queue |
| `Queues.RemoveTwiceLosesElement` | kern/env.c:417 | Removing an element twice can lose another one |
| `Queues.List.InsertHead` | include/queue.h:140-146 | The pointer assignments of the macro, in order, on arrays of next and previous pointers |
| `Queues.List.Remove` | include/queue.h:154-159 | The pointer assignments of the macro, in order, on arrays of next and previous pointers |
| `Queues.Tailq.InsertHead` | include/queue.h:190-198 | The pointer assignments of the macro, in order, with the tail pointer |
| `Queues.Tailq.InsertTail` | include/queue.h:200-206 | The pointer assignments of the macro, in order, with the tail pointer |
| `Queues.Tailq.Remove` | include/queue.h:226-233 | The pointer assignments of the macro, in order, with the tail pointer |
| `Scheduling.StepUserMode` | kern/sched.c:17-63 | Run-queue invariant: at every return to user mode the queue holds exactly the runnable environments, each once, the running one at its head, and the free list exactly the free ones; kept by tick, yield, receive, send, status change, fork and destruction |
| `Scheduling.ScheduleUserMode` | kern/sched.c:38-62 | schedule panics exactly when nothing is runnable, and otherwise restores the invariant even if the current environment has blocked or died |
| `Scheduling.DestroyBeforeSchedule` | kern/env.c:415-431 | Destroying a runnable environment leaves what schedule needs |
| `Scheduling.BootBeforeSchedule` | kern/env.c:152-169 | env_init establishes the invariant |
| `Scheduling.CreateBeforeSchedule` | kern/env.c:358-373 | env_create before anything runs keeps it |
| `KernelCalls.BootAndCreate` | kern/env.c:152-169 | After env_init all environments are free, to be taken in index order; env_create takes the first, with its priority, and puts it in front of the queue |
| `KernelCalls.FirstRun` | kern/sched.c:38-62 | Before anything has run, schedule starts the first environment in the queue |
| `KernelCalls.TickAndYield` | kern/sched.c:38-62 | The clock takes one slice off the current turn while there are any, and a yield ends the turn; then the next in the queue begins a turn with one slice less than its priority, at least 0, and the one before goes to the tail; nobody else changes |
| `KernelCalls.RecvBlocks` | kern/syscall_all.c:368-388 | sys_ipc_recv takes the current environment off the queue, receiving and not runnable, and the next one runs; it panics if and only if there is none |
| `KernelCalls.SendResults` | kern/syscall_all.c:406-449 | Each result of sys_ipc_try_send is returned if and only if its condition holds: -E_BAD_ENV without a target, -E_IPC_NOT_RECV for one that is not receiving, -E_INVAL for an illegal address or a delivery with an unmapped page; what is not a delivery changes nothing, a delivery sets the fields of the receiver alone and puts it at the tail |
| `KernelCalls.SetStatusChanges` | kern/syscall_all.c:297-304 | sys_set_env_status sets the status of the one environment, puts it at the tail if it becomes runnable, takes it out if it ceases to be, leaves the queue alone otherwise, and changes nothing else |
| `KernelCalls.ExoforkMakesChild` | kern/syscall_all.c:244-268 | sys_exofork takes the first free slot for a child that is not runnable, not queued and has its parent's priority; it fails exactly if no slot is free; nothing else changes |
| `KernelCalls.DestroyOther` | kern/env.c:385-431 | An environment destroyed by another leaves the queue, which is otherwise the same, for the head of the free list; the current one goes on |
| `KernelCalls.DestroyCurrent` | kern/env.c:422-431 | If it is the current one, the next in the queue begins its turn; the kernel panics if and only if there is none |
| `Fairness.BoundedWaiting` | kern/sched.c:17-63 | Whatever the others do, a runnable environment that nobody stops runs within a number of calls of schedule bounded by the count left and the turns of those ahead of it |
| `Fairness.WaitBound` | kern/sched.c:49 | The bound is count plus the sum of max(1, env_pri) over the environments ahead in the queue |
| `Fairness.StepProgress` | kern/sched.c:38-62 | Every call of schedule brings the bound down, and no other event raises it |
| `Fairness.TurnLength` | kern/sched.c:38-61 | An uninterrupted environment keeps the processor for exactly max(1, env_pri) slices, then the next in the queue gets it and it goes to the tail |
| `KernelCalls.ForkedChildRuns` | kern/syscall_all.c:283-306 | The last step of fork: whatever happens after sys_exofork, and after the child has been set runnable, the child gets its turn before schedule has been called as often as count and the turns of all those queued at that moment come to |
| `Messages.DeliveredOnceInOrder` | kern/syscall_all.c:368-449 | In every run, what the ipc_recv calls of an environment have returned is, in order, what was delivered to it, up to one message not yet read |
| `Messages.DeliveryOverwritesNothing` | kern/syscall_all.c:424-437 | A delivery only reaches an environment that is blocked and has read everything before; the sender sees success exactly when the value was delivered and the page argument, if any, is mapped in the sender; what becomes of the page is VmView.SendPageView |
| `Messages.UnmappedSendIsDelivered` | kern/syscall_all.c:436-445 | With an unmapped page the sender gets -E_INVAL although the value has been delivered |
| `EnvTable.Envs.constructor` | kern/env.c:152-169 | The loop of env_init leaves the free list in index order |
| `EnvTable.Envs.Schedule` | kern/sched.c:17-63 | schedule on the intrusive queue does what Scheduling.Schedule says; false where it panics |
| `EnvTable.Envs.SysIpcRecv` | kern/syscall_all.c:368-388 | In place, with -E_INVAL and no change for an illegal address, else tied to Scheduling.SysIpcRecv |
| `EnvTable.Envs.SysIpcTrySend` | kern/syscall_all.c:406-449 | In place, with all its errors in order, tied to Scheduling.SysIpcTrySend; the page of the last step is an operation of MemoryRuns, see VmView.SendPageView |
| `EnvTable.Envs.SysSetEnvStatus` | kern/syscall_all.c:283-306 | In place, with its two errors in order and without a change then, else tied to Scheduling.SysSetEnvStatus |
| `EnvTable.Envs.SysExofork` | kern/syscall_all.c:245-267 | Takes the first free environment, not runnable, with the parent's priority |
| `EnvTable.Envs.EnvCreate` | kern/env.c:358-373 | The new environment goes to the head of the run queue |
| `EnvTable.Envs.EnvDestroy` | kern/env.c:415-433 | Unlinks the environment, and schedules another one if it was the current one |
| `PipeBuffer.ReadsArePrefix` | user/lib/pipe.c:144-190 | In every interleaving of one reader and one writer between guard and byte, the bytes read are a prefix of the bytes written and at most BY2PIPE are in the buffer, for any number of bytes |
| `PipeBuffer.NextKeepsInv` | user/lib/pipe.c:144-190 | A guard that was found open stays right under the other side's steps |
| `PipeBuffer.NextMoves` | user/lib/pipe.c:144-190 | A read takes the oldest byte not yet read and a write adds one; a guard looks at the positions only; neither side touches what is the other's |
| `PipeBuffer.GuardsMeasure` | user/lib/pipe.c:145-183 | With unsigned 32-bit positions the writer's guard is exact, and the reader's is exactly when both positions lie on the same side of a wrap-around |
| `PipeBuffer.WrapHidesData` | user/lib/pipe.c:145 | At 2^32 bytes the reader takes a pipe with data for an empty one |
| `PipeBuffer.PipePage.Read` | user/lib/pipe.c:144-154 | pipe_read with its test for a closed pipe and its yields, whatever the writer puts in meanwhile: it returns what there is, in order, up to n bytes; it waits only while there is nothing, and returns nothing only from a pipe that looks closed |
| `PipeBuffer.PipePage.Write` | user/lib/pipe.c:182-193 | pipe_write with its test for a closed pipe and its yields, whatever the reader takes meanwhile: the bytes go in in order, and it stops short only at a full buffer of a pipe that looks closed |
| `PipeClose.ClosedTestSound` | user/lib/pipe.c:104-115 | Over all interleavings of the separate steps of dup, pipe_close, fork and spawn and of deaths of environments, with env_runs unchanged: the answer is closed if and only if the other end's descriptors and the operations half done number as many as the descriptors half shared; then it is right if and only if as many operations are half done as descriptors half shared, and right for good |
| `PipeClose.FinishedForkIsSound` | user/lib/fork.c:127-135 | A fork that has shared all pages of the descriptors of a pipe, whatever their ends, leaves each open in the child as in its parent and nothing half shared; then, with nothing else half done, the answer is "closed" if and only if the other end is open nowhere, which it is if and only if it was before |
| `PipeClose.DupOpens` | user/lib/fd.c:131-148 | The two steps of dup open one more slot of the same end, with both pages, and change no other |
| `PipeClose.CloseShuts` | user/lib/pipe.c:231-237 | The two steps of close shut the one slot |
| `PipeClose.SharingOpens` | user/lib/fork.c:127-135 | The two steps of fork for one descriptor open the same end in the child, also if other steps come in between |
| `PipeClose.DeathShuts` | kern/env.c:386-401 | A death shuts all slots of that environment, ends what it was in the middle of, and touches no other slot |
| `PipeClose.NextCovered` | user/lib/fd.c:131-148 | Data page before descriptor in dup, descriptor before data page in close: a mapped descriptor always has its data page |
| `PipeClose.CountsCover` | user/lib/pipe.c:96-101 | References to the data page are the readers, the writers and the descriptors half made or closed, less those that a fork has half shared |
| `PipeClose.SameRunsSameState` | user/lib/pipe.c:110-114 | An unchanged env_runs means that nothing happened to the pipe between the two reads |
| `PipeClose.NeedsRetry` | user/lib/pipe.c:109-114 | Without the retry the answer is wrong whenever another environment closes a descriptor of the checker's end between the two reads while the other end is open once |
| `PipeClose.NeedsCloseOrder` | user/lib/pipe.c:234-235 | With the two calls of pipe_close swapped the answer is wrong, env_runs unchanged, whenever the environment is interrupted between them while the other end is open once |
| `PipeClose.ForkLooksClosed` | user/lib/fork.c:127-135 | The answer is wrong whenever a fork is interrupted after sharing a descriptor of the checker's end while the other end is open once |
| `Directories.RunKeepsOk` | fs/fs.c:359-734 | In every run of mapping, resizing, truncation, naming and stores by clients, in which each step meets its exact condition, the blocks of all files that can be reached from the root are in use, belong to one place of one file, and are no metadata blocks |
| `FileTree.HomesBack` | fs/fs.c:580-641 | When a directory comes to show more blocks, what can be reached from the root grows by the struct Files in these and nothing else, if they have no blocks |
| `FileTree.StaysHome` | fs/fs.c:580-641 | No path from the root to a directory needs a block of that directory |
| `FileBlocks.HomesApart` | user/include/fs.h:26-47 | Struct Files that can be reached do not overlap, wherever directories put them |
| `FileBlocks.TruncateDrops` | fs/fs.c:693-719 | file_truncate frees exactly the blocks of the slots between the new and the old block count, and the indirect block when at most NDIRECT blocks remain; no other struct File, in a directory block or elsewhere, loses a block number |
| `FileBlocks.TruncateSlots` | fs/fs.c:693-719 | Slot by slot, what is kept, what is zeroed, and what happens beyond the old end |
| `FileBlocks.TruncateLeaks` | fs/fs.c:704-711 | Truncation leaks blocks if and only if it drops the indirect block of a file with blocks beyond its size in it, or blocks of a directory with files, in use or not, that have blocks |
| `Directories.RemoveLeaks` | fs/fs.c:785-806 | file_remove keeps the file system in order, and leaks exactly when truncation to 0 does: it does not check that a directory is empty |
| `Directories.RemoveClears` | fs/fs.c:785-806 | After file_remove the struct File has no name, size 0 and no blocks within its old size; every word of every other struct File is the same |
| `Directories.RemovedIsFound` | fs/fs.c:538-545 | A search of its block for an unused struct File then stops at it or before it |
| `BlockMaps.AllocBlockTakes` | fs/fs.c:209-242 | alloc_block takes the smallest free block from 3 on; the two errors are exact, and when map_block fails the bitmap is as before |
| `BlockMaps.MapResult` | fs/fs.c:407-431 | file_map_block finds the block that is there, or links one that was free; its errors are the documented four, the first two exactly; no other slot of any file changes |
| `BlockMaps.MapKeepsOkExactly` | fs/fs.c:359-431 | Mapping keeps a file system without leaks in order if and only if it does not turn a block whose old contents are still cached into an indirect block that lists blocks, or into a directory's block with files that have blocks |
| `BlockMaps.StaleBreaks` | fs/fs.c:137-149 | Since map_block zeroes only blocks that are not cached, such contents pass for block numbers that belong elsewhere or nowhere |
| `BlockMaps.StaleHappens` | fs/fs.c:137-149 | There are file systems in order on which that happens: one free block, cached, with any word other than 0 beyond the direct slots |
| `Directories.WriteKeepsOk` | fs/serv.c:119-138 | What a client writes to a block that it was sent at any time keeps the file system in order, whatever it writes, if and only if the block is now neither within the size of a directory nor an indirect block |
| `Directories.WriteToFile` | fs/serv.c:119-138 | For a block that its file still has, that means that the file is no directory or the block lies beyond its size; serve_map looks at neither |
| `Directories.WriteDirKeepsExactly` | fs/serv.c:119-138 | Stores to a directory's block leave every file's blocks where they are if and only if they leave the block numbers in its struct Files, and which of their blocks hold struct Files, as they were |
| `Directories.ResizeKeepsOkExactly` | fs/fs.c:722-734 | file_set_size keeps a file system without leaks in order if and only if it does not make a directory show blocks, beyond its old size, with files that have blocks |
| `Directories.ResizeSets` | fs/fs.c:722-734 | file_set_size sets the size of the one file, moves no block when it grows, and is file_truncate when it shrinks |
| `Directories.MoreDirKeepsOkExactly` | fs/fs.c:551-558 | The block that dir_alloc_file adds to a directory keeps a file system without leaks in order if and only if it is not stale: nothing clears the struct Files whose names file_create writes |
| `Directories.DirAllocFinds` | fs/fs.c:527-561 | Unless a block cannot be had, the loop of dir_alloc_file finds a struct File without a name in the directory's blocks exactly if there is one, and keeps the names there are; the file system stays in order, exactly so where a block has to be added |
| `Directories.DirAllocAdds` | fs/fs.c:549-559 | If there is none, the directory grows by one block's size, even if it gets no block, and what is returned is the first struct File of the block that is its new last one, or one of three errors |
| `FileServer.Server.FreeBlock` | fs/fs.c:190-201 | Sets the block's bit in the packed words, ignoring block 0 and blocks past the end |
| `FileServer.Server.AllocBlockNum` | fs/fs.c:209-222 | The scan takes the smallest free block from 3 on |
| `FileServer.Server.MapBlock` | fs/fs.c:137-149 | In place, tied to FileBlocks.MapBlock with its result |
| `FileServer.Server.AllocBlock` | fs/fs.c:226-242 | In place, tied to FileBlocks.AllocBlock with its result |
| `FileServer.Server.FileBlockWalk` | fs/fs.c:359-394 | Leaves a pointer to the word that holds the block's number, making the indirect block if asked to |
| `FileServer.Server.FileMapBlock` | fs/fs.c:407-431 | In place, tied to FileBlocks.FileMapBlock with its result |
| `FileServer.Server.FileClearBlock` | fs/fs.c:435-449 | In place, tied to FileBlocks.FileClearBlock with its result |
| `FileServer.Server.FileTruncate` | fs/fs.c:693-719 | Both loops and the indirect block, tied to FileBlocks.FileTruncate and so to what is freed |
| `FileServer.Server.FileSetSize` | fs/fs.c:722-734 | In place, tied to Directories.FileSetSize |
| `FileServer.Server.FileRemove` | fs/fs.c:785-798 | Truncation and the first byte of the name, tied to Directories.FileRemove |
| `FileServer.Server.DirAllocFile` | fs/fs.c:527-561 | The loops over blocks and struct Files, and the larger size before the new block, tied to Directories.DirAllocFile |
| `Bitmaps.SetBitMembers` | fs/fs.c:200 | Setting a bit of a packed word adds one number to the set and no other |
| `Bitmaps.ClearThenSet` | fs/fs.c:235-238 | Taking a block and giving it back restores the bitmap |
| `ImageBuilder.BuiltImage` | tools/fsformat.c:105-149 | An image that fits is a file system in order for the server, seen from its root: exactly [nextbno, NBLOCK) is free, no block is linked twice, none in use is without an owner, no file has blocks beyond its size, directories have all their blocks, and struct Files without a name are empty |
| `ImageBuilder.ServerFindsChunks` | tools/fsformat.c:241-270 | For every build, the server's file_map_block leads from chunk k of each file to the block with what was read for it |
| `ImageBuilder.BuildHolds` | tools/fsformat.c:266-268 | Later files and directories disturb nothing of a file already written |
| `ImageBuilder.BuildPlaces` | tools/fsformat.c:240-306 | At the end of the build whatever an item made is an entry of the directory that the item names, with the item's name, kind and size |
| `ImageBuilder.PutSucceedsExactlyWhen` | tools/fsformat.c:173-238 | An item can be put into the image if and only if its directory has been made and has an entry or room in its block map for a block of them, the file fits its block map, and there are enough blocks left for data, index and directory blocks; it uses as many |
| `ImageBuilder.AddBlockLinks` | tools/fsformat.c:173-185 | save_block_link with a new block, with or without a new indirect block, keeps the image in order and touches nothing else |
| `ImageBuilder.LinkBlockKeeps` | tools/fsformat.c:188-193 | make_link_block gives a directory sixteen empty struct Files, and keeps every file and its contents |
| `ImageBuilder.CreateKeeps` | tools/fsformat.c:208-238 | create_file finds a struct File of the directory that is empty, wherever the scan ends |
| `ImageBuilder.InitBitmapBits` | tools/fsformat.c:112-126 | The two memset calls mark exactly the blocks of the disk as free, for any disk size in whole bytes of bitmap |
| `ImageWriter.Writer.constructor` | tools/fsformat.c:105-134 | The bitmap, byte by byte, the superblock and the empty disk |
| `ImageWriter.Writer.FlushBitmap` | tools/fsformat.c:143-149 | The loop clears the bits below nextbno and no others |
| `ImageWriter.Writer.SaveBlockLink` | tools/fsformat.c:173-185 | In place, tied to ImageBuilder.SaveBlockLink; false where the disk is full or the assertion fails |
| `ImageWriter.Writer.MakeLinkBlock` | tools/fsformat.c:188-193 | In place, tied to ImageBuilder.MakeLinkBlock; false where the disk is full or the assertion fails |
| `ImageWriter.Writer.CreateFile` | tools/fsformat.c:208-238 | The scan of the directory's blocks for an unused struct File, or a new block, tied to ImageBuilder.CreateFile; false where the disk is full or the assertion fails |
| `ImageWriter.Writer.AddBlocks` | tools/fsformat.c:266-268 | In place, tied to ImageBuilder.AddBlocks; false where the disk is full or the assertion fails |
| `ImageWriter.Writer.PutItem` | tools/fsformat.c:241-292 | write_file, or write_directory before its loop, tied to ImageBuilder.PutItem |
| `SegmentLoad.LoadSegImageExactly` | lib/elfloader.c:25-59 | Loaded where nothing was mapped, byte va + k is bin[k] for k < p_filesz and 0 up to p_memsz, every page mapped, if and only if p_vaddr is page-aligned, or p_filesz reaches the end of the first page, or p_memsz <= p_filesz, or the bytes are zeros and the last page is still reached; all its pages are writable if and only if p_flags says so |
| `SegmentLoad.LoadSegImage` | lib/elfloader.c:25-59 | Under that condition the image is right whatever was mapped before |
| `SegmentLoad.LoadSegFrame` | lib/elfloader.c:25-59 | Pages outside the segment stay as they were |
| `SegmentLoad.LoadSucceedsExactlyWhen` | lib/elfloader.c:25-59 | Loading succeeds if and only if the mapper finds memory as often as there are pages to map, counted from the address and the two sizes |
| `SegmentLoad.AddressSpace.ElfLoadSeg` | lib/elfloader.c:25-59 | The two loops with their mapper calls, permissions and early returns |
| `InitStack.ArgumentReadsBack` | user/lib/spawn.c:36-57 | Each of the argc pointers on the child's stack leads to a NUL-terminated copy of its argument |
| `InitStack.HeaderReadsBack` | user/lib/spawn.c:59-72 | The entry stub loads argc and argv; the entry after the pointers is the address of the last byte of the page, not the 0 that the comment promises |
| `InitStack.NoOverlap` | user/lib/spawn.c:23-30 | For every argv that passes the size test, header, pointers and strings lie in the page without overlap, the header aligned |
| `InitStack.InitStack` | user/lib/spawn.c:8-86 | The loops with moving pointers produce that page and stack pointer; the child gets the page exactly when its mapping succeeds, and the first error among size, allocation, mapping and unmapping is the result |
| `PrintNum.DecodeRender` | lib/print.c:188-259 | For every number, base from 2 to 16, sign, width, adjustment and sensible padding character, stripping padding and sign and reading the digits gives the number back |
| `PrintNum.RenderLength` | lib/print.c:220-224 | The output is as wide as asked for, or as sign and digits need |
| `PrintNum.FieldLayout` | lib/print.c:204-251 | Where sign, digits and padding stand, for left and right adjustment and for zeros; digits beyond 9 are letters of the case asked for |
| `PrintNum.DigitCount` | lib/print.c:203-213 | There are no more digits than the number needs, and one for 0 |
| `PrintNum.PrintNum` | lib/print.c:188-259 | The digit loop, the padding and the reversal in place write that field, within the buffer |

## Left out

- The eight low bits of a page-table word other than the four flags the kernel and fork look at are one number; perm arguments are taken to fit in 12 bits.
- A directory is found through the ASID of its space, since `env_pgdir` and `env_asid` are always passed together.
- The TLB is a map from (ASID, page) to entries with arbitrary eviction; its size, its slots and entries matched by PTE_G are not modelled. Of the windows at UVPT and KSEG2 the invariant follows the pages of the user's page tables and of the directory at slot PDX(UVPT); `Windows.SecondViewOutlives` is why it cannot follow the one at slot PDX(KSEG2). TLB entries for the pages of other slots are not followed; what faults there do to the pages is `UpperSlots`.
- The shared mappings of `pages` and `envs` at UPAGES and UENVS, and what a user's stores through the windows would do.
- `env_alloc` ignores the result of `env_setup_vm`; a space is set up only when it succeeded. What ignoring `asid_alloc` does is `EnvIds.AllocKeepsApart`.
- passive_alloc below UTEMP also raises a signal; the model only has the allocation that follows.
- Runs of the memory system take references below 65535; `MemoryCalls.InsertCountsUntilWrap` says what happens at that point.
- Whether an environment may be manipulated by the caller (`checkperm`) is the argument "what envid2env found" in the system calls; `EnvIds.Envid2Env` has the test.
- cow_entry is one step of a run in `CowFork`; `CowFork.CowFrameStable` is why its pieces may be interleaved. Enough free pages for its copy are assumed there; what a lack of pages does to duppage is in the model.
- `ForkLoop` runs the loop without interruption and on the plain map; interruptions are in `CowFork`.
- Registers, trap frames, the handler set-up calls and the return values of fork.
- Destroying an environment that is blocked in a receive or was never runnable, status changes of the current environment or of a blocked receiver, and forced wake-ups: `env_free` unlinks without asking, see `Queues.RemoveAbsent`.
- EnvTable.Envs.SysIpcTrySend: the page that goes with a message is not mapped in this class, which has no page tables; that step is `VmView.SendPage`, an operation of `MemoryRuns`. It is no sys_mem_map: the receiver's address may be 0, and the result of page_insert is dropped.
- `env_runs` is unbounded in `PipeClose`; it would take 2^32 runs within one test for a wrap-around to matter. Environments are named by ids that are not used again.
- Files other than pipes in `dup` and `close`, and the error paths of `pipe` and `dup`.
- A zero-length pipe read proves nothing about a drained pipe, since emptiness and closedness are tested apart.
- PipeBuffer.PipePage.Read: takes fewer than 2^32 bytes written, since beyond that the guard may miss data, see `PipeBuffer.WrapHidesData`; the answers of the test for a closed pipe are an argument, and `PipeClose` says what they mean.
- PipeBuffer.PipePage.Write: the same.
- The words of a bitmap are sequences of 32 booleans, lowest bit first, in place of shifts and masks.
- Blocks are sequences of 1024 words of any size, which the 32 bits of the source bound; the bitmap is kept apart from its blocks, and f_dir is a word like those of the name.
- Cache against disk, dirty bits, IDE transfers, comparing file names and walking paths by them, byte order of the image. A struct File that the server works on is taken to be one that can be reached from the root.
- `read_block` ignoring a failed allocation, and its panics over blocks that do not exist or are free; failed calls of `map_block` are a count of pages still to be had.
- The superblock of an image is in its block from the start, while the builder copies it there at the end.
- ImageWriter.Writer.PutItem: the recursion of write_directory over the directories of the host is a list of items, each with the struct File of the directory that it goes to.
- Segments and stacks that wrap around the 32-bit address space; ELF header parsing; the mapper's own errors other than lack of memory.
- SegmentLoad.AddressSpace.ElfLoadSeg: a mapper that fails leaves the space as it was, while spawn_mapper, when its sys_mem_map fails, has by then unmapped what was at the page; the results are about loads that succeed.
- InitStack.InitStack: the results of its three system calls are arguments, and that of the last unmapping on the error path is not looked at, as in the source.
- Signals, whose delivery drops the rest of the pending list and whose mask is not restored on every path.
- Not modelled at all: the console, disk and clock devices, the shell and the other user programs, printing other than numbers, the tables of open files and the requests of the file server, and the wrappers that put arguments into registers for system calls.

# Nascent-OS: memory, heap, scheduler and archive, modelled and proved

This project models the four parts of the Nascent-OS kernel and its small libc that carry state worth proving things
about, and proves what they are for.

* **Virtual memory with copy-on-write fork.** Physical memory is an array of frames of 512 words, `pages[]` an array
  of (next, ref_count), an address space a PML4 frame. `Frames` is the allocator, `PageTables` the four-level walk and
  builder, `AddressSpaces` the view of the tables as maps from pages to entries, `CopyOnWrite` the fork and fault
  steps on one page, `Forking` the page loop of fork, `Teardown` clear_mapping, `Processes` the run-level state
  machine, `WholeCopy` when that is a fork that copies the whole address space, `Entries` which page-table entries its
  steps change, `KernelHalf` the kernel's half of every address space over runs, `MemoryFacts` other exact conditions,
  `DirectMap` the kernel's map at KERNBASE, and `KernelMemory` the code in its own form: arrays and fields changed in
  place, each method tied to the function that specifies it.
* **The K&R allocator.** `FreeList` is the circular, address-ordered chain of blocks in raw memory and what releasing
  and taking a block do to it; `Malloc` holds the class `Heap` with free, malloc and morecore over an array of
  headers.
* **The scheduler and the life of processes.** `Scheduler` is the state machine over fork, yield, sleep, block, exit,
  wait, tick and key, `SchedulerSteps` what each step does to every block, `SchedulerRuns` what holds over whole runs,
  `ProcessTable` the control blocks with their linked lists, changed in place. `Lists` has the chains that the frame
  list and the task lists share.
* **tarfs.** `CStrings` are NUL-terminated strings, `Tar` the archive, its octal sizes and its walk, `Files` chunked
  reads and directory enumeration, `Paths` the remover of "..".

The main results: over every run, and at every moment of it, sharing frames and copying on a write fault cannot be
told from a fork that copies the whole user half at once, exactly when each fork finds the parent's pages within its
VMAs, as it does when all accesses stay there; one access elsewhere, at the page-aligned end of the stack, is enough
for a child that lacks a page; from the loader's memory map the memory manager reaches the invariant of those runs,
and from there on every process there ever is reads all memory at KERNBASE; the heap's accounts balance after every
malloc and free, malloc takes the next block that fits within one lap, and the free list depends on the free memory
alone; a ready task runs within as many calls of schedule as it has tasks ahead of it, plus one; no task but Init,
which nothing can wake, waits for a child that is already a zombie; a zombie that is reaped is the reaper's own child
exactly when the reaper is older; the ".." remover computes the normal form of every path of dot-free names that does
not begin with "..", reads in front of its buffer exactly when such a path climbs above the root, and with names that
have dots behind the last ".." still does so exactly when these have one dot at most in all; enumerating a directory
reports each child once, exactly when no child hides the next.

Where the code does less than it seems meant to, the code is kept as it is, and a lemma says exactly when it does what
is wanted: `Frames.ReclaimConservesIff`, `MemoryFacts.ForkExactIff`, `WholeCopy.ForkCopiesAllIff`,
`WholeCopy.ForkAfterAccessIff`, `WholeCopy.WholeCopyIff`, `Processes.CompletesIff`,
`SchedulerRuns.WakeUpFindsChildIff`, `SchedulerRuns.HandedOverIff`, `SchedulerRuns.OwnChildIff`, `Tar.StepIsExactIff`,
`Files.EnumerationIff`, `Paths.NormalForm`, `Paths.DottedNamesIff`, `Paths.UnchangedIff`. Where they fail is shown by
`WholeCopy.ForkLosesEndPage`, `WholeCopy.ForkMiscounts`, `SchedulerRuns.WakesInVain`,
`SchedulerRuns.ReusedBlockAdopts`, `Tar.LargeSizeStepsBack` and `Files.ChildHidesNext`.

Ghost fields and parameters are bookkeeping: the role of a frame and the free list as a sequence, the live blocks and
the memory obtained so far, the lists as sequences. The page-table format is that of section 4.5 of the Intel 64 and
IA-32 Architectures Software Developer's Manual, Volume 3A, the fault error code that of section 4.7. The archive
layout is the "ustar Interchange Format" of the pax utility in IEEE Std 1003.1.

`dafny verify dfyconfig.toml` checks everything.

## Model

| member | source | states |
|---|---|---|
| Frames.TakeOk | sys/page.c:38-71 | allocating hands out the head of the free list, a frame that nobody uses, zeroed, and the allocator stays consistent: on the list only unused frames, once each, and unused exactly when the count is 0 |
| Frames.TakeEffect | sys/page.c:38-71 | it is counted once and wiped, the list loses its head, and no other frame changes |
| Frames.FreePageOk | sys/page.c:73-96 | free_page keeps the allocator consistent, whether it only drops a reference or reclaims the frame |
| Frames.FreePageEffect | sys/page.c:73-89 | one reference less; with the last one the frame is wiped and out of use; no other frame changes |
| Frames.RunKeepsAllocator | sys/page.c:38-96 | every run of allocations and releases keeps the allocator consistent, whatever became of the tail pointer |
| Frames.ReclaimConservesIff | sys/page.c:91-96 | reclaiming a frame adds it to the free frames and loses none if and only if the tail pointer still names the last frame of the list |
| Frames.TailStaysStale | sys/page.c:91-96 | once the tail pointer is not the last frame of the list, no run of allocations and releases ever mends it |
| Frames.ReclaimLeavesTailStale | sys/page.c:91-96 | every reclaim leaves the tail pointer stale, because the code never advances it |
| Frames.OnlyFirstReclaimConserves | sys/page.c:73-96 | after one reclaim, and whatever follows, no later reclaim conserves the frames |
| PageTables.SetAtOk | sys/virmem.c:103-148 | storing a leaf entry, tables allocated on the way as needed: that page then has the entry, every other walk of every tree, present or absent, is as before, the tree shape is kept (tables distinct, unshared, off the free list), and the tables taken are exactly those that were missing |
| PageTables.SetMappingPath | sys/virmem.c:103-132 | set_mapping's three calls of create_dir_table and its final store amount to that one store |
| PageTables.CreateDirOk | sys/virmem.c:134-148 | create_dir_table returns the table the entry leads to, on the path of the page, and otherwise keeps every table |
| AddressSpaces.SetMappingIsUpdate | sys/virmem.c:103-132 | for a page of the user half, page tables refine a map: set_mapping updates the walk of one page of one root and moves exactly one table slot |
| MemoryFacts.SetMappingByAddress | sys/virmem.c:45-148 | in terms of addresses, for the user half: an address reads the new entry if and only if it agrees with the mapped one in bits 12 to 47, all others read as before |
| MemoryFacts.KernelMappingByAddress | sys/virmem.c:103-148 | and for the kernel half, once the kernel's top entry is there: every address space that has that entry reads the new mapping at exactly those addresses, and nothing else changes |
| MemoryFacts.SameVpnIff | sys/virmem.c:48-51 | the four table indices of two addresses agree if and only if the addresses agree in bits 12 to 47 |
| KernelMemory.Memory.GetPteEntry | sys/virmem.c:45-74 | get_pte_entry reports the leaf entry of the page, or failure when any level is absent |
| KernelMemory.Memory.GetMapping | sys/virmem.c:77-101 | get_mapping returns the frame base plus the offset in the page, for a mapped address |
| KernelMemory.Memory.CreateDirTable | sys/virmem.c:134-148 | the in-place method computes the specified table and new memory |
| KernelMemory.Memory.SetMapping | sys/virmem.c:103-132 | the in-place method performs exactly the specified update |
| KernelMemory.Memory.FetchFreePage | sys/virmem.c:292-311 | the in-place allocation takes the head frame, zeroes it, counts it once, and advances the head |
| KernelMemory.Memory.AddToFreePages | sys/page.c:91-96 | the in-place relinking, with the tail pointer left where it was |
| KernelMemory.Memory.FreePage | sys/page.c:73-89 | the in-place release of one reference |
| KernelMemory.Memory.CreatePageList | sys/virmem.c:216-276 | the free list holds, in ascending order and once each, exactly the frames at or above the rounded physfree that lie strictly inside some usable region; each of these has count 0 and every other frame count 1 |
| KernelMemory.Memory.CreateVirPhyMapping | sys/virmem.c:32-43 | the loop maps every frame at its place in the direct map |
| KernelMemory.Memory.MapKernel | sys/virmem.c:15-22 | every physical address is mapped at KERNBASE, exactly 2 + ceil(n / 2^18) + ceil(n / 512) frames were needed and taken, and the copy-on-write invariant holds with exact counts |
| KernelMemory.Memory.constructor | sys/virmem.c:8-13 | memory before init_mem: frames with any content, nothing on the free list |
| KernelMemory.Memory.InitMem | sys/virmem.c:8-23 | the boot of the memory manager from the loader's memory map: with as many usable frames as the kernel's tables take, the state with no process satisfies the invariant of all runs, with exact counts, every physical address is mapped at KERNBASE, and every usable frame that no table took is free |
| DirectMap.DirectMapOk | sys/virmem.c:32-43 | from an empty PML4 the loop maps frame k at KERNBASE + 4096 k for all k below n, and needs and takes exactly 1 + ceil(n / 2^18) + ceil(n / 512) frames for tables |
| DirectMap.DirectMapReads | sys/virmem.c:77-101 | every address KERNBASE + pa below the mapped end walks to the entry of the frame of pa |
| DirectMap.BootEstablishesInvariant | sys/virmem.c:8-23 | the kernel's address space alone satisfies the invariant that fork, faults and teardown keep |
| MemoryFacts.DescriptorRoundTrip | sys/page.c:14-25 | getPA and get_page_from_PA undo each other, also with page-table flags in the low bits of the address |
| CopyOnWrite.SharePageOk | sys/process.c:60-76 | one turn of fork's page loop: the child's page becomes the parent's, neither can write it, every other page of every space reads as before, and references still cover the entries |
| Forking.NewSpaceOk | sys/proc_mngr.c:104-133 | a new PML4 maps no user page, reads at every page of the kernel half what the kernel's own PML4 reads there, and changes no other space |
| KernelHalf.KernelInEveryProcess | sys/proc_mngr.c:104-110 | over every run, every process there is, forked ones included, reads in the kernel half what the kernel's own address space reads there, and no step ever changes that |
| KernelHalf.MemoryInEveryProcess | sys/proc_mngr.c:104-110 | from the boot on: in every run after a first process was made, every process reads the whole memory of the machine at KERNBASE |
| Forking.SharePagesOk | sys/process.c:60-76 | the whole page loop, as long as each page it shares finds a free frame for every table the child lacks: the child reads the parent's visited pages, nothing else changes, mapped pages it visited are write-protected in the parent, and counts are exact if and only if they were and no mapped page was visited twice |
| Entries.SharePagesEntries | sys/process.c:60-76 | entry by entry: exactly the visited pages that the parent had mapped get the same new entry in parent and child, and no other entry of any space changes |
| Entries.SharedEntry | sys/process.c:69-74 | in that entry bit 1 is cleared and bit 8 set, the frame and all other bits stay |
| Forking.ThreePerPageLast | sys/process.c:60-76 | three free frames for each visited page that is mapped are enough for the loop; unmapped pages need none |
| KernelMemory.Memory.CopySpace | sys/process.c:43-80 | the nested VMA and page loops of fork_process do exactly that |
| KernelMemory.Memory.SharePage | sys/process.c:60-76 | the loop body in place |
| KernelMemory.Memory.NewSpace | sys/proc_mngr.c:104-133 | the allocations of a new control block's address space in place, with the kernel's entry copied |
| KernelMemory.Memory.ForkSpace | sys/process.c:18-81 | fork's new address space and VMA loop, one after the other, in place |
| CopyOnWrite.CowFaultOk | sys/pagefault.c:25-48 | after the copy-on-write branch the page is writable, no page of any address space reads differently, and each frame's references exceed its entries by as much as before; a free frame is needed, and taken, only when the frame has other users |
| Entries.CowFaultEntries | sys/pagefault.c:30-48 | the entry it leaves: the last user keeps the frame with bit 8 cleared, bits 0 and 1 set and the rest as it was, any other user gets the head of the free list with flags 7; no other entry of any space changes |
| CopyOnWrite.MapFreshOk | sys/pagefault.c:89-94 | mapping a fresh frame sets that one page and no other; the counts are exact afterwards if and only if they were and the page had not been mapped |
| Entries.MapFreshEntries | sys/pagefault.c:89-94 | its entry is the fresh frame with flags 7, and no other entry of any space changes |
| KernelMemory.Memory.CowFault | sys/pagefault.c:25-48 | the branch in place, with a free frame only where it copies |
| KernelMemory.Memory.PageFault | sys/pagefault.c:13-108 | the handler in place, without lazy loading: it kills the process exactly when no VMA contains the address, and otherwise leaves the memory that PageFaultOutcome describes; free frames are asked of the copying and the stack branch only |
| KernelMemory.Memory.CheckVma | sys/pagefault.c:142-157 | the first VMA that contains the address, its end included |
| Processes.CheckVmaIff | sys/pagefault.c:142-157 | check_vma finds a VMA if and only if some VMA contains the address, its end included |
| Processes.CheckVmaFirst | sys/pagefault.c:142-157 | and it is the first that does |
| Processes.PageFaultOutcome | sys/pagefault.c:13-108 | for every error code: which faults kill (no VMA contains the address), which load from the archive (not code 7, first such VMA text or data), and what memory the others leave |
| Processes.AccessKillsIff | sys/pagefault.c:102-107 | a user access kills its process if and only if it is not permitted and no VMA contains the address |
| Processes.PermittedIff | sys/virmem.c:134-148 | on user pages the tables above the last level never refuse an access, and no entry lacks the user bit: the leaf's present and write bits decide |
| Processes.AccessOk | sys/pagefault.c:13-108 | a user access that resumes finds its page present and permitted, an absent page filled with zeros, and no other page changed |
| Processes.CompletesIff | sys/pagefault.c:13-108 | exactly which user reads and writes complete, given the frames that a fault of theirs takes |
| Processes.GoesThroughWithoutFrames | sys/pagefault.c:25-48 | with no frame free, permitted accesses and writes to frames with no other user still complete and take none |
| Processes.StepRefines | sys/process.c:18-81 | every fork, read, write, stack fault, load, exec and reap keeps the invariant and does to what processes read what it does when each process owns its pages and fork copies those the VMAs cover |
| MemoryFacts.WriteByAddress | sys/pagefault.c:25-48 | a store by address: the process reads the word at exactly the addresses that agree in bits 3 to 47, every other word, its own and everybody's, is as before, or zero on a page that came to be |
| MemoryFacts.ForkEffect | sys/process.c:40-80 | what fork does to what processes read, without the reference: the child's VMAs, its pages and their contents |
| MemoryFacts.ReadEffect | sys/pagefault.c:89-94 | what a read does: an absent page appears, filled with zeros, and nothing else changes |
| MemoryFacts.LoadEffect | sys/pagefault.c:50-87 | a loaded page reads as it was loaded, all others as before |
| MemoryFacts.AddVmaEffect | sys/pagefault.c:142-157 | a new VMA at the end of the list is found exactly where no earlier one contains the address |
| MemoryFacts.ExecEffect | sys/virmem.c:151-213 | after exec's clearing the process has neither a page nor a VMA, the others are as before |
| MemoryFacts.ReapEffect | sys/virmem.c:151-213 | the end of a process leaves the others as they are |
| Processes.CopyOnWriteRefinesEagerCopy | sys/process.c:40-81 | over every run, what each process reads in the user half equals what it reads when each process owns its pages and fork copies at once the pages its loop visits, those that the VMAs cover |
| WholeCopy.CopyOnWriteRefinesWholeCopy | sys/process.c:40-81 | over every run whose accesses and loads are on pages of the process's VMAs, as all with start <= address < end are, it equals what it reads when fork copies the whole user half at once |
| WholeCopy.WholeCopyIff | sys/process.c:40-81 | over every run: after each of its events every process reads what it reads when fork copies the whole user half, if and only if every fork finds all pages of the parent among those its loop visits |
| WholeCopy.ForkAfterAccessIff | sys/process.c:56-60 | when all pages were within the VMAs before an access, the fork that follows it copies the whole user half if and only if the address was on a page of a VMA |
| WholeCopy.ForkCopiesAllIff | sys/process.c:56-60 | fork copies the whole user half if and only if every mapped address is on a page of a VMA |
| WholeCopy.VisitedIff | sys/process.c:56-60 | of the addresses the processor accepts, the loop visits the pages of exactly those on a page of a VMA |
| WholeCopy.ForkLosesEndPage | sys/pagefault.c:150 | runs that part from the whole copy: a process reads the page-aligned end of its stack, which check_vma accepts, and forks; it has the page, the child has not |
| WholeCopy.ProgramStackEndsOnPage | sys/process.c:210-216 | the stack that execvpe gives every program is such a stack |
| Processes.Isolation | sys/process.c:40-81 | over every run, steps of other processes never change what a process reads |
| MemoryFacts.NewProcess | sys/proc_mngr.c:112-133 | a new process starts with an empty user half, keeps the invariant, and changes nothing that others read: every run can start from the kernel's address space alone |
| MemoryFacts.SharedFramesAreSafe | sys/process.c:65-76 | in every reachable state a frame with two entries is writable through none, and a frame with an entry is counted at least as often as it has entries and is not free |
| MemoryFacts.CountsStayExact | sys/process.c:65-76 | over every run with page-disjoint VMAs each user frame's count equals the number of its page-table entries |
| MemoryFacts.ForkExactIff | sys/process.c:60-76 | fork keeps the counts exact if and only if no mapped page lies in two VMAs |
| WholeCopy.ForkMiscounts | sys/process.c:60-76 | a run that breaks exact counts: a process reads on a page that two of its VMAs share, and forks |
| MemoryFacts.SlackWriteKilledAfterFork | sys/pagefault.c:150 | a mapped address outside every VMA's byte range but on a VMA's page can no longer be written after fork, by parent or child |
| MemoryFacts.StackBranchOnMappedPage | sys/pagefault.c:89-94 | the stack branch replaces a page that is already mapped by zeros, and leaves the counts exact if and only if it was not mapped |
| Teardown.ClearMappingOk | sys/virmem.c:151-213 | clear_mapping empties exactly the user half of one tree: every other tree and entry 511 walk as before, each data frame's count drops by its entries in this tree, the tree's tables are released, and exact counts stay exact |
| Teardown.ClearedFramesBlank | sys/page.c:84-88 | every frame that clear_mapping puts out of use is all zeros |
| Teardown.NoTableLeft | sys/virmem.c:199-211 | no table below the cleared PML4 remains in use |
| KernelMemory.Memory.ClearMapping | sys/virmem.c:151-213 | the nested loops in place |
| KernelMemory.Memory.ClearTable | sys/virmem.c:157-212 | one level of the nested loops in place; the table whose entries are read and zeroed stays a table at every turn |
| FreeList.ReleasedRing | libc/malloc.c:93-104 | linking and joining a released block keeps one circular chain through base, in address order, of blocks that neither overlap nor touch |
| FreeList.ReleasedUnits | libc/malloc.c:93-104 | a release makes exactly the units of the block free |
| FreeList.UnlinkedRing | libc/malloc.c:53-56 | taking a block that fits out of the chain keeps the ring |
| FreeList.UnlinkedUnits | libc/malloc.c:53-56 | and takes exactly its units from the free ones |
| FreeList.CarvedRing | libc/malloc.c:57-62 | cutting off the end of a larger block keeps the ring |
| FreeList.CarvedUnits | libc/malloc.c:57-62 | and takes exactly the last units |
| FreeList.BlockStarts | libc/malloc.c:93-104 | a block begins exactly where a free unit follows one that is not free |
| FreeList.CanonicalList | libc/malloc.c:84-106 | the ring, block for block, is determined by the set of free units |
| Malloc.FindPlace | libc/malloc.c:89-91 | a block that overlaps no free block has a place in the chain |
| Malloc.OnePlace | libc/malloc.c:89-91 | and no other place |
| Malloc.ScanStopsIff | libc/malloc.c:89-91 | the scan of free stops at a block if and only if it is the one before that place |
| Malloc.AfterFree | libc/malloc.c:84-106 | after a release the accounts balance: live blocks keep headers and contents, free and live units are disjoint and make up all memory obtained |
| Malloc.AfterUnlink | libc/malloc.c:51-67 | the accounts after a block was taken whole |
| Malloc.AfterCarve | libc/malloc.c:51-67 | the accounts after a block was cut |
| Malloc.LapGoesOn | libc/malloc.c:49-79 | each block passed brings the search closer to the end of its lap |
| Malloc.LapEnds | libc/malloc.c:70-79 | a lap ends without a block only before morecore and only when no free block is large enough |
| Malloc.Heap.Scan | libc/malloc.c:89-91 | the scan finds the place in fewer steps than the list has blocks |
| Malloc.Heap.Join | libc/malloc.c:93-105 | the two joins in place |
| Malloc.Heap.Release | libc/malloc.c:84-106 | free: the block's units become free, nothing else changes hands, live contents stay, some free block contains the whole released block, and the next search begins behind the last block before it, or the last of all |
| Malloc.Heap.Morecore | libc/malloc.c:8-25 | max(1024, num_u) units from sbrk become free |
| Malloc.Heap.TakeBlock | libc/malloc.c:51-67 | the block handed out was free, is no longer, and nothing else changes |
| Malloc.Heap.Malloc | libc/malloc.c:32-81 | malloc ends with a new live block of the fewest units of 16 bytes that hold its header and the request, after at most one lap, or, when no free block is large enough, one request to sbrk for max(1024, that many) units and one further lap, with the blocks visited counted; it takes the end of the first large enough block behind the old freeptr, and otherwise of the free memory that contains the new region, and freeptr is then the block before; all other units keep their owner and live contents stay |
| Malloc.Heap.Search | libc/malloc.c:49-79 | the loop: as many visits as the list has blocks at most, and after morecore as many again and one; which block it ends at |
| Malloc.Heap.Store | libc/malloc.c:64-66 | what the program writes inside its blocks, behind the header, disturbs nothing |
| Malloc.SameFreeSameList | libc/malloc.c:84-106 | two heaps with the same free units have the same list, whatever calls led to them |
| Malloc.AllReleased | libc/malloc.c:84-106 | once all blocks are released the list has one block per maximal run of memory obtained |
| Malloc.AnyOrderSameList | libc/malloc.c:84-106 | the order of the releases does not matter |
| Scheduler.ScheduleSwitches | sys/process.c:305-315 | schedule takes the first ready task off the list, or Idle when it runs already and there is none, and puts the task that ran behind all others, unless it is a zombie or Idle and there already; every other block stays |
| SchedulerSteps.YieldStep | sys/process.c:305-315 | giving way is exactly that |
| SchedulerSteps.SleepStep | sys/syscalls.c:96-102 | the sleep call sets the caller's count to the seconds asked for and its state, and the caller is then asleep at the end of the list; no other block changes but the next one's state |
| SchedulerSteps.BlockStep | sys/terminal.c:78-82 | the same for waiting for input |
| SchedulerSteps.WaitReaps | sys/proc_mngr.c:222-235 | with a zombie child, wait clears the block of the first one and puts it at the end of the free list, and changes nothing else, in its first scan and in its second |
| SchedulerSteps.WaitSuspends | sys/proc_mngr.c:237-238 | without one it suspends the caller at the end of the list |
| SchedulerSteps.RescanIdles | sys/proc_mngr.c:239-252 | and the second scan changes nothing |
| SchedulerSteps.ExitStep | sys/process.c:317-343 | exit makes the caller a zombie on no list, does to the other blocks what DyingEffect says, and calls schedule |
| SchedulerSteps.TickStep | sys/pit.c:17-36 | a second: of the tasks on the list each sleeper has one second less, and is ready when none is left; every other block stays; then schedule is called |
| SchedulerSteps.KeyWakes | sys/proc_mngr.c:363-377 | a key makes the first task of the list that waits for input ready, and changes nothing else |
| SchedulerSteps.KeyIdles | sys/proc_mngr.c:363-377 | and with nobody waiting it changes nothing |
| Scheduler.StepKeeps | sys/process.c:305-343 | every step of every kind keeps the invariant on blocks, lists, states and parents |
| Scheduler.ForkKeeps | sys/process.c:18-101 | the first free block, which was nowhere else, becomes a ready child of the running task and the last of the list, every other block stays, and the invariant holds |
| Scheduler.ReapKeeps | sys/proc_mngr.c:167-206 | the zombie reaped was on no list; it joins the free list, nothing else does, and the invariant holds |
| Scheduler.DyingEffect | sys/process.c:317-342 | what exit does to every block: its own state, its parent's wake-up, its children's parent numbers |
| SchedulerRuns.BlockPartition | sys/proc_mngr.c:301-361 | in every reachable state each control block is in exactly one of the free list, the task list, running, or unreaped zombie, Idle alone may be running and listed; the lists have no duplicates |
| SchedulerRuns.PidsUnique | sys/proc_mngr.c:135 | no two blocks in use have the same pid |
| SchedulerRuns.BoundedWaiting | sys/proc_mngr.c:379-414 | a ready task at position p gets the processor within p + 1 calls of schedule, over every run |
| SchedulerRuns.StepAdvances | sys/process.c:305-315 | every step leaves a ready task ready and no further back, and a call of schedule brings it forward |
| SchedulerRuns.SleepsOn | sys/pit.c:17-31 | a task that asked for n seconds sleeps through every run with fewer than n ticks, and through every run when n is not positive |
| SchedulerRuns.WakesOnLastTick | sys/pit.c:17-36 | its n-th tick makes it ready where it stands |
| SchedulerRuns.SleeperRuns | sys/pit.c:17-36 | and it runs within as many calls of schedule as the list has tasks, never more than NUM_PCB |
| SchedulerSteps.SleepCallSleeps | sys/syscalls.c:96-102 | from the call on: sleep(n) sleeps through every run with fewer than n ticks |
| SchedulerSteps.SleepCallWakes | sys/syscalls.c:96-102 | and with the n-th tick after the call the task is ready and runs within as many calls of schedule as the list then has tasks |
| SchedulerRuns.NoLostWakeUp | sys/proc_mngr.c:222-253 | no reachable state has a task waiting for children and a zombie that is its child; Init alone may be named by such a zombie, whose parent pointer is then not Init |
| SchedulerRuns.WakeUpFindsChildIff | sys/process.c:324-341 | the exit that wakes a waiting task leaves it a child to find if and only if the exiting task's parent number is that task's |
| SchedulerRuns.WakesInVain | sys/process.c:324-341 | a state of the invariant in which an exit wakes a task that has no zombie child |
| SchedulerRuns.HandedOverIff | sys/process.c:332-341 | which children an exit hands to Init: those not ready before it, except one that the exit itself wakes; the others keep the dead process's number |
| SchedulerRuns.OwnChildIff | sys/proc_mngr.c:222-235 | over every run, the zombie a task reaps was forked by that very task if and only if the task is older than it |
| SchedulerRuns.ReusedBlockAdopts | sys/proc_mngr.c:112-164 | fork into a block whose number an orphan still carries makes the new process pass for the parent of a child it did not fork |
| SchedulerRuns.StartDated | sys/main.c:62-70 | the history that tells who forked whom can be started wherever parents' blocks precede their children's, as after the start |
| SchedulerRuns.OrphanStays | sys/proc_mngr.c:255-277 | a zombie that was handed to Init is never reaped, in any run |
| ProcessTable.Table.AddToTaskList | sys/proc_mngr.c:333-361 | the walk to the end of the list and the append, in place |
| ProcessTable.Table.FetchReadyTask | sys/proc_mngr.c:379-414 | the search for the first ready task and its removal, in place |
| ProcessTable.Table.TakeOff | sys/proc_mngr.c:400-411 | a task removed from the head keeps its old link, one removed from further back does not |
| ProcessTable.Table.WakeUpTask | sys/proc_mngr.c:363-377 | the step of KeyWakes and KeyIdles in place |
| ProcessTable.Table.FetchFreePcb | sys/proc_mngr.c:112-164 | the first free block, initialised, its sleep count left over from its last use |
| ProcessTable.Table.AppendInFreeList | sys/proc_mngr.c:301-331 | the block goes to the end of the free list |
| ProcessTable.Table.ClearPcb | sys/proc_mngr.c:167-206 | the block is reset, its pid excepted |
| ProcessTable.Table.ScanChildren | sys/proc_mngr.c:224-235 | the scan of WaitReaps and RescanIdles in place, and the child it reports |
| ProcessTable.Table.WaitForChild | sys/proc_mngr.c:222-239 | the first scan in place, with the child it returns, and the suspension when it finds nothing, as WaitReaps and WaitSuspends say |
| ProcessTable.Table.ForkProcess | sys/process.c:18-24 | the child's block: parent pointer, parent number, end of the list |
| ProcessTable.Table.SwitchTask | sys/process.c:305-312 | schedule in place, whenever the list is not empty when the task that ran comes back |
| ProcessTable.Table.SysExit | sys/process.c:317-343 | exit of the running task in place, from the start on |
| ProcessTable.Table.SleepCall | sys/syscalls.c:96-102 | the sleep call of SleepStep in place |
| ProcessTable.Table.WaitForInput | sys/terminal.c:78-82 | waiting for terminal input in place |
| ProcessTable.Table.TimerInt | sys/pit.c:7-38 | every 19th interrupt counts the sleepers down and calls schedule; the others only count |
| ProcessTable.SecondIsNineteenInterrupts | sys/pit.c:12-36 | n interrupts that find the counter at c tell (c + n) / 19 seconds |
| ProcessTable.Table.CreatePcbList | sys/proc_mngr.c:84-102 | the free list is all blocks in ascending order |
| ProcessTable.Table.StartUp | sys/main.c:59-70 | Init, Idle and the first process are blocks 0, 1 and 2 |
| ProcessTable.BootSettles | sys/main.c:62-70 | whatever forks, scans and interrupts come before the first call of schedule, and whatever causes that call, Init runs, finds no child and gives way, and then the invariant holds; the linked list can follow if and only if the first process did not die without a child |
| ProcessTable.Table.InitProcess | sys/proc_mngr.c:255-262 | Init's first wait in place: the table is then in a state of the invariant |
| ProcessTable.Table.FirstSwitches | sys/process.c:305-312 | the first process gives way and Init after it, in place, from the booted table to the invariant |
| ProcessTable.InvCanTake | sys/process.c:305-343 | from then on every enabled step can be taken in the linked form, and keeps the invariant |
| CStrings.IsSubString | sys/strings.c:19-37 | 0 exactly when the first string is a proper prefix of the second |
| CStrings.StrCompare1 | sys/strings.c:38-55 | 0 exactly when the strings are equal |
| CStrings.StringSub | sys/strings.c:94-109 | copies what follows the prefix up to the delimiter and leaves the rest of the buffer alone |
| Tar.ConvertOctInt | sys/tarfs.c:17-28 | the value that the eleven digits spell, wrapped to 32 bits |
| Tar.OctalRoundTrip | sys/tarfs.c:17-28 | reading undoes the octal printer |
| Tar.ValueAppend | sys/tarfs.c:17-28 | each further digit counts eight times less than the one before it |
| Tar.StepIsExactIff | sys/tarfs.c:30-44 | the step lands behind the padded content if and only if the padded size and one block stay below 2 GB, and otherwise 4 GB before that, in front of where it started |
| Tar.NegativeSizeSteps | sys/tarfs.c:30-44 | and where it lands for a size that wrapped to a negative number |
| Tar.LargeSizeStepsBack | sys/tarfs.c:30-44 | the smallest size with which it goes back |
| Tar.GetNextTarHeader | sys/tarfs.c:30-44 | the next header's address from the size field, with 32-bit arithmetic |
| Tar.WalkVisitsEntries | sys/tarfs.c:49-60 | the walk visits the headers of the archive in order and ends at its end |
| Tar.FileExists | sys/tarfs.c:46-63 | 1 exactly for the names in the archive, -1 otherwise |
| Files.ReadsDeliver | sys/tarfs.c:306-318 | any sequence of reads delivers the file in order and without a gap, as much as was asked for |
| Files.EmptyReadMeansWholeFile | sys/tarfs.c:306-322 | what was delivered is a prefix of the file, and a read of at least one byte delivers nothing exactly when that is the whole file |
| Files.FileTable.ReadS | sys/tarfs.c:291-325 | read_s in place: what lands in the buffer, how far the cursor moves, and that an unused descriptor delivers nothing |
| Files.FindsNextChildIff | sys/tarfs.c:457-474 | one call of read_dir finds the next child of the directory if and only if the last one's name is not a proper prefix of its name |
| Files.EnumerationIff | sys/tarfs.c:439-477 | repeated calls report exactly the children, once each and in archive order, if and only if no child's name is a proper prefix of the next child's |
| Files.ChildHidesNext | sys/tarfs.c:439-477 | an archive in which the second child is never reported |
| Files.ChildrenAreAll | sys/tarfs.c:439-477 | the list of children is ascending and has every entry directly inside the directory |
| Files.ReportedName | sys/tarfs.c:467 | what is handed out for a child is its last component, without the slash of a directory |
| Files.FileTable.ReadDir | sys/tarfs.c:439-477 | read_dir in place: the first entry that passes its test is reported and remembered, otherwise it says 1 and nothing changes |
| Files.FileTable.ListDirectory | sys/tarfs.c:559-564 | the loop over read_dir collects the names of all children in order and ends |
| Paths.RemoveD | sys/tarfs.c:97-144 | the loop stays inside its buffer if and only if RemoveDots has a value, and then that is what it leaves |
| Paths.NormalForm | sys/tarfs.c:97-144 | for every path of dot-free names and ".." that does not begin with ".." the result is what a stack of components gives, a trailing ".." leaving a slash, and the loop reads in front of its buffer exactly when the stack would be popped empty |
| Paths.UpTakesBack | sys/tarfs.c:97-144 | in that normal form a ".." takes back the name before it, wherever they stand, and leaves a slash at the end of the path |
| Paths.DottedNamesIff | sys/tarfs.c:97-144 | when names with dots follow the last "..", the normal form comes out, or there is none, if and only if the path climbs above the root or those names have at most one dot in all |
| Paths.LeadingUp | sys/tarfs.c:97-144 | a path that begins with one ".." is treated as what follows, less one character: "/../a" comes out as "/"; "/.." stays |
| Paths.RemoveDotsIdempotent | sys/tarfs.c:97-144 | on paths that do not climb above the root a second pass changes nothing |
| Paths.UnchangedIff | sys/tarfs.c:104-134 | an absolute path comes back unchanged if and only if it has at most one dot, or begins with "/.." and then ends or goes on with a third dot |

## Left out

- Frames.FreePageOk: the links of the frame list are frame numbers, which repairs the mix of virtual and physical pointers in sys/page.c:76-96 and sys/page.c:24; the tail pointer is kept as the code has it.
- Frames.TakeOk: taking a frame from an empty list, which the code only reports before it dereferences NULL (sys/page.c:40-43); availability is a precondition of every step that allocates.
- Processes.StepRefines: lazy loading in the TEXT and DATA branches (sys/pagefault.c:50-87, sys/elf.c) is one event that maps a page with given content.
- WholeCopy.CopyOnWriteRefinesWholeCopy: its guard on accesses is sufficient; what is exact over runs is WholeCopyIff, which looks at the state at each fork.
- WholeCopy.ForkAfterAccessIff: VMA bounds are addresses the processor accepts, bits 47 to 63 all alike.
- Processes.CopyOnWriteRefinesEagerCopy: covers PML4 entries below 511; the kernel half is mapped user-accessible, and heap pages from sbrk lie in it and are not copied by fork.
- Processes.StepRefines: VMAs are at most 2 GB, so that the int arithmetic of the page loop does not wrap, and control block, VMA and register copies of fork are values.
- Translation look-aside buffer and CR3 loads: invalidation is immediate. Reference counts are unbounded.
- Copies and clears of whole frames (memcopy, memset) are single steps.
- Malloc.Heap.Malloc: sbrk is abstract: it succeeds and returns memory that is new and neither contains nor touches base from below. The code dereferences NULL when morecore fails, and the kernel's sbrk hands out one page whatever was asked (sys/syscalls.c:122-126).
- Malloc.Heap.Malloc: requests stay below the 2 GB that the int parameter of sbrk can express and base is aligned like the blocks.
- ProcessTable.Table.InitProcess: when the first process dies without a child, Init is appended to an empty list and keeps the link to Idle that it has in memory (sys/proc_mngr.c:346-349); that one start is outside the linked form, as BootSettles says. Init takes no interrupt before it first waits.
- SchedulerRuns.BlockPartition: runs start once Init has given way for the first time.
- ProcessTable.Table.AddToTaskList: requires that the task has no link when the list is empty, which is exactly when the code appends that task alone.
- ProcessTable.Table.SysExit: killing another process, which leaves a zombie linked in the list (sys/syscalls.c:103-107).
- ProcessTable.Table.WaitForChild: the second scan is another ScanChildren, taken when the caller runs again; the state machine allows it at any time.
- ProcessTable.Table.ForkProcess: fork with no free block, which dereferences NULL; the `prev` pointers, which are never read.
- SchedulerRuns.SleepsOn: sleep_sec is unbounded, so a negative count does not wrap around to zero.
- Register switching, kernel stacks, file names and working directories of control blocks.
- Tar.WalkVisitsEntries: the archive ends at its last entry; the zero blocks behind it are not read as headers. Names have fewer than 100 characters.
- Files.FileTable.ReadS: descriptor 0, the terminal ring buffer; negative request sizes; a cursor that passes 2 GB.
- Files.FileTable.ReadDir: opening files and directories by path (sys/tarfs.c:255-289, sys/tarfs.c:372-418); the list printed for descriptor 25.
- Paths.RemoveD: where the code would go on reading in front of its buffer the model stops and says so. path_sanitize and the fixed size of its buffers are not modelled.
- Paths.DottedNamesIff: names with dots before the last "..".
- Paths.LeadingUp: paths that begin with two "..", of which the first takes a dot from the second; UnchangedIff and RemoveD cover them, the stack of components does not.
- Device drivers, interrupt controller setup, console and VGA output, the shell, printf formatting and the environment.

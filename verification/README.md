# Models of the xv6 memory, scheduling and synchronisation code

Dafny models of the parts of this repository whose correctness is hardest to see from the code: the shared,
reference-counted address spaces of Assignment 7, its semaphores and scheduler, exit and wait of Assignment 4, and the
deadlock and synchronisation programs of Assignments 4, 6 and 7.  `dafny verify dfyconfig.toml` checks the project.

## What is modelled

**Address spaces.**  `Sv39`, `VmState`, `PageMaps`, `VirtualMemory`, `KernelState`, `AddressSpaces` and `Overruns` model
`kernel/kalloc.c`, `kernel/vm.c` and the memory side of `kernel/proc.c` and `kernel/sysproc.c` of Assignment 7.
`VirtualMemory.Machine` holds physical memory as an array of 512-word pages, the `references` array and the free list
threaded through the first word of free pages; its methods are the functions of the two files and write page-table
entries in place.  Ghost fields give each page-table tree as a finite map from page number to frame and flags.  The
invariant `VmState.Inv` ties them together: the list is a chain of unreferenced frames without duplicates that misses
none, the count of every frame is its number of owners, the tables form one unshared tree per root, and every slot
agrees with the tree or the map.  `AddressSpaces.Kernel` adds the process table.  `KernelState.Consistent` is the
invariant of every history: every user mapping of a process lies below its rounded size, which is why any process or
thread can be torn down at any time, and the counts add up to the mappings, the kernel's own references and the frames
that were lost.  `KernelState.KernelInv` is the invariant that the address-space layout is meant to have: in addition,
no size reaches beyond SHM_VA and nothing was lost.

The panics of `kfree`, `kaddref`, `uvmunmap` and `freewalk` cannot happen in any history: their conditions are excluded
by preconditions that every caller establishes.  The "remap" panic of `mappages` and the panic of `walk` can, and are
outcomes of the calls that reach them (`Mapping.Remap`, `Outcome.Panic`); a panic ends the history.

The page-table layout is Sv39, section 4.4 of the RISC-V Privileged Architecture manual (version 20211203).  Frames are
numbered from KERNBASE and page-aligned addresses are page numbers.

**Semaphores** (`Semaphores`).  `sys_sem_init`, `sys_sem_wait` and `sys_sem_signal` over `sleep_prepare`, `sleep`,
`wakeup` and `kkill`, as steps between acquiring and releasing a lock, `wakeup` one table slot at a time.

**Scheduler** (`Scheduler`).  The scan of `scheduler`, `age_processes` and `ksetpriority` as methods on the process
table, and runs of dispatches, ticks and arbitrary other events on one CPU.

**Deadlock avoidance and detection** (`Resources`, `Banker`, `DeadlockDetection`, `WaitGraph`, `DetectorsAgree`).  The
banker of `bankers.c` on its tables and of `deadlock.c` on copies, `detect_deadlock`, and the three-colour depth-first
search of `deadlockdetect.c`, for any number of processes and resources.  A set of processes is stuck if none of them
could go on even after all others had finished; safety, deadlock and circular waiting are all related to it.

**Protocols.**  `OrderedAcquisition` (`syncdeadlock.c`, with `dining.c` as an instance), `ReadersWriters`
(`readwrite.c`), `ProducerConsumer` (`prodcons.c`), `Peterson` (`peterson.c`) and `ExitWait` (`kfork`, `reparent`,
`kexit` and `kwait` in `kernel/proc.c` of Assignment 4) are step machines with any number of processes, resources and
iterations, over atomic counting semaphores or single accesses to shared variables.

**Where the code decides.**  Assignment 7's `REPORT.md` says that threads share the page directory of their creator; the
code gives each thread a page table of its own that maps the same frames, and the model follows the code.

Some properties hold only under a condition, which is given as an equivalence together with a case that violates it:

- The bound that `growproc` and `sys_sbrk` check is `TRAPFRAME`, one page above SHM_VA.  A request that they accept keeps
  `KernelInv` if and only if the new size is at most SHM_VA (`Growproc`, `Sbrk`).  Beyond it a page of the heap can come
  to lie at SHM_VA, or the shm page inside the heap: then `kfork` and `kclone` panic instead of succeeding (`Kfork`,
  `Kclone`), eager growth panics on reaching a mapped shm page (`Growproc`), `shm_get` hands out the heap page
  (`ShmGet`), and `freeproc` loses the frame (`Freeproc`, `TearDown`).  `Run` says that nothing of this happens while no
  request crosses SHM_VA; `Overruns` says that, memory permitting, from every state beyond it some of this can be made
  to happen, and gives runs from boot.
- `kclone` walks its return address without comparing it with MAXVA: `CheckClone` says exactly when the kernel panics,
  and `Overruns.PanickingClone` is a run that gets there.
- `sys_sem_init` on a semaphore in use wakes nobody: `Semaphores.ReinitIff` says exactly when that is harmless, and
  `Semaphores.ReinitLosesWakeup` is a run in which it is not.
- A single dining philosopher waits for the fork in its own hand: `OrderedAcquisition.DiningOrdered` and
  `OrderedAcquisition.LonePhilosopherStarves`.
- The bankers do not look at the sign of a request: `Banker.GrantBounded` says exactly when a grant keeps the tables
  within their bounds, and `Banker.NegativeRequest` is one that does not.

## Model

| member | source | states |
|---|---|---|
| `Sv39.PX` | 2401MC29_RudraPratapRaikwar_Assignment7/kernel/vm.c:90-118 | an index into a table is below 512 at every level |
| `Sv39.PrefixStep` | 2401MC29_RudraPratapRaikwar_Assignment7/kernel/vm.c:90-118 | walking down a level appends the next index to the prefix and the last index completes the page number, so no two pages share a slot |
| `VmState.KallocInv` | 2401MC29_RudraPratapRaikwar_Assignment7/kernel/kalloc.c:86-101 | taking the head of the free list keeps the whole invariant: list, counts, trees, maps and slots; the frame had no owner before |
| `VmState.KfreeInv` | 2401MC29_RudraPratapRaikwar_Assignment7/kernel/kalloc.c:56-80 | giving back a reference keeps the whole invariant, and the last one may only be given back by a kernel holder |
| `VmState.KaddrefInv` | 2401MC29_RudraPratapRaikwar_Assignment7/kernel/kalloc.c:105-117 | adding a reference to a frame in use keeps the whole invariant |
| `VmState.WithSlotInv` | 2401MC29_RudraPratapRaikwar_Assignment7/kernel/vm.c:114-114 | writing the entry that the tree or the map expects restores the agreement of all slots with tree and map |
| `VmState.AddTableInv` | 2401MC29_RudraPratapRaikwar_Assignment7/kernel/vm.c:111-114 | a zeroed frame becomes the table below a slot: still one unshared tree per root, every count still the number of owners |
| `VmState.DropTableInv` | 2401MC29_RudraPratapRaikwar_Assignment7/kernel/vm.c:395-398 | a table through which nothing is mapped and with no child leaves the tree; its frame has exactly one reference |
| `VmState.AddLeafInv` | 2401MC29_RudraPratapRaikwar_Assignment7/kernel/vm.c:165-175 | a reference of the kernel becomes the user mapping of one page, and the counts still equal the owners |
| `VmState.DropLeafInv` | 2401MC29_RudraPratapRaikwar_Assignment7/kernel/vm.c:212-222 | unmapping one page turns its reference back into one of the kernel, and the frame was in use |
| `PageMaps.NewTableInv` | 2401MC29_RudraPratapRaikwar_Assignment7/kernel/vm.c:111-114 | allocating, clearing and linking a missing table changes no map, no count and no contents of any frame that holds data |
| `PageMaps.MissingTable` | 2401MC29_RudraPratapRaikwar_Assignment7/kernel/vm.c:106-117 | if a table on the path is missing, the page has no slot |
| `PageMaps.BindRangeAt` | 2401MC29_RudraPratapRaikwar_Assignment7/kernel/vm.c:163-176 | what every page maps to after a range was mapped: the named pages in order, all others as before |
| `PageMaps.MapOneInv` | 2401MC29_RudraPratapRaikwar_Assignment7/kernel/vm.c:165-170 | writing a leaf entry adds exactly that page to the map and keeps the invariant |
| `PageMaps.UnmapOneInv` | 2401MC29_RudraPratapRaikwar_Assignment7/kernel/vm.c:204-223 | unmapping finds a valid leaf entry and removes exactly that page; the frame loses one reference if it is to be freed and is not the shm page, and otherwise a reference that the mapping owned stays with the kernel; keeps the invariant |
| `PageMaps.UnbindRangeAt` | 2401MC29_RudraPratapRaikwar_Assignment7/kernel/vm.c:204-223 | what every page maps to after a range was unmapped: nothing in the range, all others as before |
| `PageMaps.SlotOfPage` | 2401MC29_RudraPratapRaikwar_Assignment7/kernel/vm.c:101-118 | a page is in the map if and only if its slot exists and is valid, and then the slot holds that mapping; an invalid slot is zero, so that a test of any other bit of it fails |
| `PageMaps.NothingBelow` | 2401MC29_RudraPratapRaikwar_Assignment7/kernel/vm.c:388-391 | below a missing table there is no table and no mapping |
| `PageMaps.RemoveTableInv` | 2401MC29_RudraPratapRaikwar_Assignment7/kernel/vm.c:395-398 | freeing an empty table and clearing its slot keeps the invariant and touches nothing that stays in use |
| `PageMaps.UnusedNoLeaf` | 2401MC29_RudraPratapRaikwar_Assignment7/kernel/vm.c:279-289 | freewalk never meets a leaf entry in a table through which nothing is mapped, so its panic cannot fire |
| `PageMaps.FreedChild` | 2401MC29_RudraPratapRaikwar_Assignment7/kernel/vm.c:281-285 | after the tables below a slot are gone and the slot is cleared the invariant holds, and exactly the tables under that slot are gone |
| `PageMaps.FilledNext` | 2401MC29_RudraPratapRaikwar_Assignment7/kernel/vm.c:238-251 | one more page allocated: exactly the wanted pages are mapped, each on a frame of its own that was free before, with the wanted flags and contents |
| `PageMaps.UndoneDealloced` | 2401MC29_RudraPratapRaikwar_Assignment7/kernel/vm.c:240-249 | undoing a partial allocation restores every map, the kernel references and the count and contents of every data frame |
| `PageMaps.UndoneShared` | 2401MC29_RudraPratapRaikwar_Assignment7/kernel/vm.c:360-362 | undoing a partial sharing restores every map, the kernel references and the count and contents of every data frame |
| `PageMaps.SharedCounts` | 2401MC29_RudraPratapRaikwar_Assignment7/kernel/vm.c:341-358 | sharing raises the count of each frame by exactly the number of shared pages that it backs |
| `PageMaps.SharedShm` | 2401MC29_RudraPratapRaikwar_Assignment7/kernel/vm.c:353-356 | if the size covers the shm page, sharing it leaves a reference with the kernel that no mapping owns |
| `PageMaps.RefsDetermined` | 2401MC29_RudraPratapRaikwar_Assignment7/kernel/kalloc.c:24-28 | the count of a frame is determined by the maps, the kernel references and the trees |
| `PageMaps.MappedLive` | 2401MC29_RudraPratapRaikwar_Assignment7/kernel/vm.c:341-358 | the frame behind a user mapping is in use and is not a page table; only at SHM_VA can it be the shm page |
| `PageMaps.AllocDeallocRoundTrip` | 2401MC29_RudraPratapRaikwar_Assignment7/kernel/vm.c:228-271 | growing and shrinking back restores every map and all data; the tables and the counts of all frames, and with them the set of free frames, come back if and only if the tree had no empty table before |
| `PageMaps.LostTable` | 2401MC29_RudraPratapRaikwar_Assignment7/kernel/vm.c:395-398 | a table that has gone has returned its frame, which had exactly one reference |
| `PageMaps.Booted` | 2401MC29_RudraPratapRaikwar_Assignment7/kernel/kalloc.c:36-49 | after freerange every frame is free and the invariant holds |
| `VirtualMemory.Machine.constructor` | 2401MC29_RudraPratapRaikwar_Assignment7/kernel/kalloc.c:36-40 | kinit: a machine with no page table, every frame from `end` on free |
| `VirtualMemory.Machine.Freerange` | 2401MC29_RudraPratapRaikwar_Assignment7/kernel/kalloc.c:43-49 | hands in the frames one by one; afterwards all of them are on the list |
| `VirtualMemory.Machine.Kalloc` | 2401MC29_RudraPratapRaikwar_Assignment7/kernel/kalloc.c:86-101 | returns 0 and changes nothing exactly when the list is empty; otherwise the head, with count 1 and junk contents, and every other frame and count as before |
| `VirtualMemory.Machine.Kfree` | 2401MC29_RudraPratapRaikwar_Assignment7/kernel/kalloc.c:56-80 | above one reference only the count drops; otherwise the frame goes to the head of the list, filled with junk; every other frame and count is as before |
| `VirtualMemory.Machine.Kaddref` | 2401MC29_RudraPratapRaikwar_Assignment7/kernel/kalloc.c:105-117 | one more reference to that frame and no other; the panic for freed pages is excluded |
| `VirtualMemory.Machine.Walk` | 2401MC29_RudraPratapRaikwar_Assignment7/kernel/vm.c:101-118 | finds the slot of a page if and only if its leaf table exists; with alloc it adds at most two tables, and fails only with fewer than two free frames; every map is unchanged |
| `VirtualMemory.Machine.Walkaddr` | 2401MC29_RudraPratapRaikwar_Assignment7/kernel/vm.c:123-141 | the frame of a page that is mapped for the user, and 0 for every other address, however large |
| `VirtualMemory.Machine.InstallPte` | 2401MC29_RudraPratapRaikwar_Assignment7/kernel/vm.c:166-170 | maps one page, runs out of memory with all maps unchanged, or panics, exactly when the page is mapped already |
| `VirtualMemory.Machine.Mappages` | 2401MC29_RudraPratapRaikwar_Assignment7/kernel/vm.c:149-177 | maps exactly the first `done` pages of the range in order; it ends with all of them mapped, or with fewer than two free frames per page, or with the remap panic, exactly when the next page is the first one that is mapped already |
| `VirtualMemory.Machine.UnmapPte` | 2401MC29_RudraPratapRaikwar_Assignment7/kernel/vm.c:205-222 | removes one page, freeing its frame or leaving it to the kernel; none of the three panics of uvmunmap can fire |
| `VirtualMemory.Machine.Uvmunmap` | 2401MC29_RudraPratapRaikwar_Assignment7/kernel/vm.c:196-224 | removes exactly the pages of a fully mapped range from one map; tables stay |
| `VirtualMemory.Machine.UvmunmapSparse` | 2401MC29_RudraPratapRaikwar_Assignment7/kernel/vm.c:367-380 | removes exactly the mapped pages of a range, holes allowed; tables stay |
| `VirtualMemory.Machine.FreeEmptyTables` | 2401MC29_RudraPratapRaikwar_Assignment7/kernel/vm.c:383-404 | removes exactly the tables below through which nothing is mapped, each once, leaves the maps alone, and tells whether the table itself is empty |
| `VirtualMemory.Machine.FreeEmptyChild` | 2401MC29_RudraPratapRaikwar_Assignment7/kernel/vm.c:395-401 | the round of free_empty_tables for a slot that leads to a lower table |
| `VirtualMemory.Machine.Freewalk` | 2401MC29_RudraPratapRaikwar_Assignment7/kernel/vm.c:276-291 | frees a table through which nothing is mapped and all tables below it, each once |
| `VirtualMemory.Machine.FreewalkChild` | 2401MC29_RudraPratapRaikwar_Assignment7/kernel/vm.c:281-285 | the round of freewalk for a slot that leads to a lower table |
| `VirtualMemory.Machine.Uvmcreate` | 2401MC29_RudraPratapRaikwar_Assignment7/kernel/vm.c:182-190 | a new root with an empty map, or 0 and nothing changed |
| `VirtualMemory.Machine.AllocPage` | 2401MC29_RudraPratapRaikwar_Assignment7/kernel/vm.c:239-250 | allocate, fill, map, and give back on failure: exactly one new mapping on a frame that was free, or, only with fewer than three free frames, nothing but empty tables; the remap panic fires exactly when a frame was free and the page is mapped already |
| `VirtualMemory.Machine.Uvmdealloc` | 2401MC29_RudraPratapRaikwar_Assignment7/kernel/vm.c:260-271 | removes exactly the pages between the rounded sizes and then exactly the empty tables of that tree; returns the new size, or the old one if the new one is not smaller |
| `VirtualMemory.Machine.Uvmalloc` | 2401MC29_RudraPratapRaikwar_Assignment7/kernel/vm.c:229-253 | up to TRAPFRAME: on success exactly the pages of the range appear, none of which was mapped, zeroed and each on a frame of its own; on failure, which needs fewer than three free frames per page, maps, kernel references, counts and data are as before; it panics only if some page of the range is mapped, and never succeeds then |
| `VirtualMemory.Machine.UndoAlloc` | 2401MC29_RudraPratapRaikwar_Assignment7/kernel/vm.c:240-249 | the way out of uvmalloc when memory runs out |
| `VirtualMemory.Machine.Uvmfree` | 2401MC29_RudraPratapRaikwar_Assignment7/kernel/vm.c:296-301 | the tree and all it mapped is gone; other trees are untouched |
| `VirtualMemory.Machine.Vmfault` | 2401MC29_RudraPratapRaikwar_Assignment7/kernel/vm.c:537-556 | a zeroed page at a faulting address below the size, or 0: at once when the address is out of range or mapped, else only with fewer than three free frames and with at most empty tables added |
| `VirtualMemory.Machine.Ismapped` | 2401MC29_RudraPratapRaikwar_Assignment7/kernel/vm.c:559-569 | true exactly for mapped pages; changes nothing |
| `VirtualMemory.Machine.CopyPage` | 2401MC29_RudraPratapRaikwar_Assignment7/kernel/vm.c:317-331 | one round of uvmcopy; a hole stays a hole |
| `VirtualMemory.Machine.Uvmcopy` | 2401MC29_RudraPratapRaikwar_Assignment7/kernel/vm.c:310-337 | on success the destination has exactly the pages of the source, same flags and bytes, on frames that were free; on failure, which needs fewer than three free frames per mapped page, nothing but empty tables is left |
| `VirtualMemory.Machine.UndoCopy` | 2401MC29_RudraPratapRaikwar_Assignment7/kernel/vm.c:334-336 | the way out of uvmcopy: nothing but empty tables is left |
| `VirtualMemory.Machine.SharePage` | 2401MC29_RudraPratapRaikwar_Assignment7/kernel/vm.c:347-357 | one round of uvmshare: a hole is skipped, a page is mapped once more, or fewer than two frames were free |
| `VirtualMemory.Machine.SharePte` | 2401MC29_RudraPratapRaikwar_Assignment7/kernel/vm.c:353-356 | the frame is mapped once more with the same flags and counted once more |
| `VirtualMemory.Machine.Uvmshare` | 2401MC29_RudraPratapRaikwar_Assignment7/kernel/vm.c:342-363 | on success the destination maps the same frames with the same flags, or, if the size covers the shm page mapped at SHM_VA, has a page there; on failure, which needs fewer than two free frames per mapped page, maps, kernel references, counts and data are as before |
| `VirtualMemory.Machine.UndoShare` | 2401MC29_RudraPratapRaikwar_Assignment7/kernel/vm.c:360-362 | the way out of uvmshare restores maps, kernel references, counts and data |
| `KernelState.Accounting` | 2401MC29_RudraPratapRaikwar_Assignment7/kernel/kalloc.c:24-117 | in every state the kernel reaches the count of a frame is its user mappings, plus one if the kernel holds it (shm page, trapframe), plus one for each time it was lost, plus one if it is a page table; it is on the free list if and only if its count is 0; the shm page has count 1 |
| `KernelState.FreeListSound` | 2401MC29_RudraPratapRaikwar_Assignment7/kernel/kalloc.c:56-101 | the free list has no duplicates and never holds a frame that a user page maps |
| `KernelState.KernelStep` | 2401MC29_RudraPratapRaikwar_Assignment7/kernel/proc.c:179-210 | an operation that changes one process and leaves the other trees alone keeps the invariant of the whole process table, up to the frames that it loses |
| `KernelState.KernelGrows` | 2401MC29_RudraPratapRaikwar_Assignment7/kernel/proc.c:282-300 | an operation that adds to the memory of one process keeps the invariant |
| `KernelState.KernelShrinks` | 2401MC29_RudraPratapRaikwar_Assignment7/kernel/proc.c:179-210 | an operation that takes from the memory of one process keeps the invariant |
| `KernelState.KernelReleased` | 2401MC29_RudraPratapRaikwar_Assignment7/kernel/proc.c:184-197 | releasing a page table keeps the invariant; it loses the frame mapped at SHM_VA unless that is the shm page, and no other |
| `KernelState.KernelDropTrapframe` | 2401MC29_RudraPratapRaikwar_Assignment7/kernel/proc.c:181-183 | freeing the trapframe first keeps the invariant |
| `KernelState.AbandonedTree` | 2401MC29_RudraPratapRaikwar_Assignment7/kernel/proc.c:228-241 | giving up on a half-built page table leaves maps, kernel references, counts and data as before |
| `KernelState.ForkedBy` | 2401MC29_RudraPratapRaikwar_Assignment7/kernel/proc.c:316-324 | after uvmcopy the child is a private copy of the parent as it was before the child was allocated |
| `KernelState.KernelShared` | 2401MC29_RudraPratapRaikwar_Assignment7/kernel/proc.c:387-391 | sharing keeps the invariant: no trapframe and not the shm page is shared unless the size covers the latter |
| `KernelState.ClonedBy` | 2401MC29_RudraPratapRaikwar_Assignment7/kernel/proc.c:385-398 | after uvmshare the thread maps the frames of its creator, each counted once more per page |
| `KernelState.KernelDealloced` | 2401MC29_RudraPratapRaikwar_Assignment7/kernel/proc.c:295-298 | shrinking keeps the invariant, so every mapping stays below the new rounded size |
| `KernelState.SeesShm` | 2401MC29_RudraPratapRaikwar_Assignment7/kernel/proc.c:327-331 | as long as its size is at most SHM_VA, what a process has mapped there is the shm page, valid, readable, writable and accessible to the user, whether it came from shm_get, fork or clone |
| `KernelState.StraysDrop` | 2401MC29_RudraPratapRaikwar_Assignment7/kernel/proc.c:184-194 | freeing a process takes exactly its own stray frame out of those that could still be lost |
| `KernelState.CountsDetermined` | 2401MC29_RudraPratapRaikwar_Assignment7/kernel/kalloc.c:24-28 | two states with the same maps, process table, lost frames and contents agree on the role and the count of every data frame |
| `KernelState.BytesThrough` | 2401MC29_RudraPratapRaikwar_Assignment7/kernel/proc.c:304-308 | what is built up and then taken down again leaves the contents of all other data frames alone |
| `KernelState.NothingLeaks` | 2401MC29_RudraPratapRaikwar_Assignment7/kernel/proc.c:179-210 | when all processes are gone, no table exists, and every frame but the shm page is free if and only if none was lost |
| `AddressSpaces.Kernel.Procinit` | 2401MC29_RudraPratapRaikwar_Assignment7/kernel/proc.c:52-69 | the shm page is allocated once, zero-filled and held; the invariant holds |
| `AddressSpaces.Kernel.MapSpecial` | 2401MC29_RudraPratapRaikwar_Assignment7/kernel/proc.c:225-241 | maps one of the pages that own no reference, or changes no map: because memory is short, or, exactly when something is mapped there, with the remap panic |
| `AddressSpaces.Kernel.ProcPagetable` | 2401MC29_RudraPratapRaikwar_Assignment7/kernel/proc.c:215-244 | a page table with just trampoline and trapframe, or 0 with everything as before |
| `AddressSpaces.Kernel.UnmapSpecials` | 2401MC29_RudraPratapRaikwar_Assignment7/kernel/proc.c:249-259 | removes the three special pages without freeing a frame or touching a table; a frame at SHM_VA that is not the shm page is left to the kernel |
| `AddressSpaces.Kernel.ProcFreepagetable` | 2401MC29_RudraPratapRaikwar_Assignment7/kernel/proc.c:249-261 | releases the page table of a process: afterwards only its tree and its pages are gone |
| `AddressSpaces.Kernel.ThreadFreepagetable` | 2401MC29_RudraPratapRaikwar_Assignment7/kernel/proc.c:185-192 | the same for a thread, through the branch of freeproc that calls freewalk itself |
| `AddressSpaces.Kernel.Freeproc` | 2401MC29_RudraPratapRaikwar_Assignment7/kernel/proc.c:179-210 | tears down any process or thread in any state the kernel reaches: exactly its map disappears, its slot is unused again, frames in use elsewhere keep their contents, and a frame mapped at SHM_VA is lost if and only if it is not the shm page |
| `AddressSpaces.Kernel.Allocproc` | 2401MC29_RudraPratapRaikwar_Assignment7/kernel/proc.c:120-173 | an unused slot gets a trapframe and a new page table with exactly the trampoline, readable and executable, and the trapframe, readable and writable, both closed to the user; otherwise maps, data frames and process table are as before and no slot was unused or fewer than six frames were free |
| `AddressSpaces.Kernel.Userinit` | 2401MC29_RudraPratapRaikwar_Assignment7/kernel/proc.c:264-277 | the first process, from any state with an unused slot and six free frames |
| `AddressSpaces.Kernel.Kfork` | 2401MC29_RudraPratapRaikwar_Assignment7/kernel/proc.c:305-331 | on success the child has a private copy, page by page, and nothing else changed; if it has a page at SHM_VA, that is the shm page, valid, readable, writable and accessible to the user, and it has one if the parent does and memory allows; on failure, which needs a full table or fewer than six free frames and three per mapped page, maps, process table and all data frames with their counts and contents are as before; if the size of the parent covers SHM_VA and a page is mapped there it never succeeds, and only then can it panic |
| `AddressSpaces.Kernel.InheritShm` | 2401MC29_RudraPratapRaikwar_Assignment7/kernel/proc.c:326-331 | the child maps the shm page only if the parent does, with read, write and user permission, and fails to only with fewer than two free frames; the kernel panics exactly when the size covers SHM_VA and a page is mapped there |
| `AddressSpaces.Kernel.CheckClone` | 2401MC29_RudraPratapRaikwar_Assignment7/kernel/proc.c:371-383 | goes on if and only if the entry point is executable and the top of the stack writable user memory below the size, and the return address executable; panics if and only if the first two pass and the return address is at or above MAXVA; refuses otherwise |
| `AddressSpaces.Kernel.Kclone` | 2401MC29_RudraPratapRaikwar_Assignment7/kernel/proc.c:364-427 | never allocates unless the checks pass and panics whenever they do; on success the thread shares every page and the shm mapping word for word, with the counts raised accordingly; on failure maps, process table and all data frames with their counts and contents are as before, and after the checks it needs a full table or fewer than eight free frames and two per mapped page; if the size covers SHM_VA and a page is mapped there it never succeeds, and only then can it panic after the checks |
| `AddressSpaces.Kernel.Growproc` | 2401MC29_RudraPratapRaikwar_Assignment7/kernel/proc.c:282-300 | the size moves by n and the pages with it, all or nothing, also in the data frames; it refuses only above the bound or with fewer than three free frames per new page; shrinking below zero leaves the size alone; it panics only if the growth reaches a page mapped at SHM_VA, and never succeeds then; a success keeps the intended invariant if and only if the new size is at most SHM_VA |
| `AddressSpaces.Kernel.GrowAndShrink` | 2401MC29_RudraPratapRaikwar_Assignment7/kernel/proc.c:282-300 | growing by n and shrinking by n restores the process, every map and every data frame; all tables and all counts come back if and only if the process had no empty page table before |
| `AddressSpaces.Kernel.Sbrk` | 2401MC29_RudraPratapRaikwar_Assignment7/kernel/sysproc.c:44-61 | eager and shrinking requests go through growproc; lazy ones move only the size and are refused only above the bound; returns the old size; a success, lazy or eager, keeps the intended invariant if and only if the new size is at most SHM_VA |
| `AddressSpaces.Kernel.Fault` | 2401MC29_RudraPratapRaikwar_Assignment7/kernel/vm.c:537-556 | a zeroed page of a lazily grown heap appears, valid, readable, writable and accessible to the user, or no map and no data frame changes: the address is outside, already mapped, or fewer than three frames were free |
| `AddressSpaces.Kernel.ShmGet` | 2401MC29_RudraPratapRaikwar_Assignment7/kernel/sysproc.c:115-126 | maps the one shm page at SHM_VA, valid, readable, writable and accessible to the user, and nothing else, or changes no map with fewer than two free frames; what is then at SHM_VA is the shm page if and only if no page of the heap was there before |
| `AddressSpaces.Kernel.Perform` | 2401MC29_RudraPratapRaikwar_Assignment7/kernel/proc.c:179-427 | each operation that does not panic does what it is meant to do (History says it for fork, clone, sbrk, program loading, page faults, shm_get, boot and exit) and changes nothing if the process does not exist; it panics only for the reason that the operation has |
| `AddressSpaces.Kernel.Run` | 2401MC29_RudraPratapRaikwar_Assignment7/kernel/proc.c:179-427 | every sequence of boot, fork, clone, sbrk, program loading, page faults, shm_get and exits, by any processes with any arguments, is a chain of states each of which comes from the one before by what the operation does, and keeps the invariant up to a panic; as long as no request reaches beyond SHM_VA nothing is lost, and only a clone whose return address is at or above MAXVA panics |
| `AddressSpaces.Kernel.TearDown` | 2401MC29_RudraPratapRaikwar_Assignment7/kernel/proc.c:179-210 | processes can be freed in any order that names them all; then every frame but the shm page is free if and only if nothing was lost before and no process had a frame other than the shm page at SHM_VA |
| `Overruns.TouchAndExit` | 2401MC29_RudraPratapRaikwar_Assignment7/kernel/proc.c:184-194 | from every state in which the size of a process covers SHM_VA and nothing is mapped there, a page fault and an exit lose a frame |
| `Overruns.TouchAndFork` | 2401MC29_RudraPratapRaikwar_Assignment7/kernel/proc.c:326-331 | from every state in which the size of a process covers SHM_VA, a page fault and a fork take the kernel down if a slot and memory for the child can be found |
| `Overruns.GrowLazily` | 2401MC29_RudraPratapRaikwar_Assignment7/kernel/sysproc.c:55-59 | lazy requests reach every size up to TRAPFRAME without touching memory |
| `Overruns.LosingRun` | 2401MC29_RudraPratapRaikwar_Assignment7/kernel/sysproc.c:55-59 | a run from boot with a lazy request up to SHM_VA + PGSIZE that leaves no process and not all frames free |
| `Overruns.PanickingFork` | 2401MC29_RudraPratapRaikwar_Assignment7/kernel/proc.c:326-331 | a run from boot with such a request that ends in the remap panic of fork |
| `Overruns.PanickingGrowth` | 2401MC29_RudraPratapRaikwar_Assignment7/kernel/proc.c:289-294 | a run from boot that attaches the shm page, grows to SHM_VA lazily and by one more page eagerly, and ends in the remap panic |
| `Overruns.PanickingClone` | 2401MC29_RudraPratapRaikwar_Assignment7/kernel/proc.c:381-383 | a run from boot that ends in the walk panic of clone(0, arg, PGSIZE, MAXVA) |
| `Semaphores.InvStep` | 2401MC29_RudraPratapRaikwar_Assignment7/kernel/sysproc.c:146-207 | every step of sem_init, sem_wait, sem_signal, kill and other kernel code keeps: a lock is held exactly by whom the program counter says, and a registered process implies value 0 or a wakeup scan that will still reach it |
| `Semaphores.RegisteredWaking` | 2401MC29_RudraPratapRaikwar_Assignment7/kernel/proc.c:805-824 | a step of wakeup leaves no registered process behind the scan |
| `Semaphores.RegisteredOther` | 2401MC29_RudraPratapRaikwar_Assignment7/kernel/sysproc.c:162-188 | any other step: nobody is registered on a semaphore with a unit unless a scan is coming |
| `Semaphores.InvAlways` | 2401MC29_RudraPratapRaikwar_Assignment7/kernel/sysproc.c:146-207 | the invariant holds after every run of any number of processes and semaphores |
| `Semaphores.NoLostWakeup` | 2401MC29_RudraPratapRaikwar_Assignment7/kernel/sysproc.c:172-185 | when the lock is free and a unit is available, nobody is registered and nobody sleeps on the semaphore |
| `Semaphores.Conservation` | 2401MC29_RudraPratapRaikwar_Assignment7/kernel/sysproc.c:184-206 | after every run from the start the value is what sem_init put in, plus the calls of sem_signal that returned 0, minus the calls of sem_wait that returned 0, counted from the events and the results of the calls, plus one while a signal is between its update and its return; it is never negative |
| `Semaphores.Accounts` | 2401MC29_RudraPratapRaikwar_Assignment7/kernel/sysproc.c:184-206 | the same between any two states of a run, with what is in flight at either end |
| `Semaphores.TraceCounts` | 2401MC29_RudraPratapRaikwar_Assignment7/kernel/sysproc.c:184-206 | the atomic trace takes a unit for every wait that returns 0 and adds one for every signal that returns 0 |
| `Semaphores.InitializedBy` | 2401MC29_RudraPratapRaikwar_Assignment7/kernel/sysproc.c:155-158 | a semaphore is initialised exactly from its sem_init on |
| `Semaphores.CallsAccounted` | 2401MC29_RudraPratapRaikwar_Assignment7/kernel/sysproc.c:162-207 | every call that was made is in progress or has returned, once |
| `Semaphores.ResultsMean` | 2401MC29_RudraPratapRaikwar_Assignment7/kernel/sysproc.c:171-206 | a signal fails exactly on a semaphore that is not initialised; a wait that returns 0 has taken a unit, and one that returns -1 has not, on such a semaphore or after a kill |
| `Semaphores.SignalWakesAll` | 2401MC29_RudraPratapRaikwar_Assignment7/kernel/sysproc.c:203-206 | when a signal returns 0 nobody is registered on the semaphore and nobody sleeps on it |
| `Semaphores.Progress` | 2401MC29_RudraPratapRaikwar_Assignment7/kernel/sysproc.c:162-207 | a process inside a call can step, or waits for a lock whose holder can, or sleeps on a semaphore with value 0 |
| `Semaphores.Quiescent` | 2401MC29_RudraPratapRaikwar_Assignment7/kernel/sysproc.c:162-207 | when nobody can step, everybody inside a call sleeps on a semaphore whose units were all taken |
| `Semaphores.ReinitIff` | 2401MC29_RudraPratapRaikwar_Assignment7/kernel/sysproc.c:155-158 | initialising again keeps the invariant if and only if it sets 0 or nobody is registered |
| `Semaphores.ReinitLosesWakeup` | 2401MC29_RudraPratapRaikwar_Assignment7/kernel/sysproc.c:155-158 | a run from the initial state, one wait on a semaphore at 0, after which initialising it to 1 leaves the process asleep with a unit available |
| `Semaphores.StepRefines` | 2401MC29_RudraPratapRaikwar_Assignment7/kernel/sysproc.c:162-207 | each step is one step of an atomic counting semaphore, or none: which one is read off the program counter and the result of the call |
| `Semaphores.Refines` | 2401MC29_RudraPratapRaikwar_Assignment7/kernel/sysproc.c:162-207 | every run is a run of atomic counting semaphores that ends with the same values; TraceCounts says that it has the same successful calls |
| `Semaphores.KilledTakesNothing` | 2401MC29_RudraPratapRaikwar_Assignment7/kernel/sysproc.c:179-182 | a wait that returns -1 was killed and took no unit |
| `Semaphores.KillRouses` | 2401MC29_RudraPratapRaikwar_Assignment7/kernel/proc.c:829-848 | kkill sets the flag and makes a sleeper runnable, which is then three steps from returning -1, and does nothing else to anybody |
| `Semaphores.KilledReturns` | 2401MC29_RudraPratapRaikwar_Assignment7/kernel/sysproc.c:178-182 | from there it returns -1 after that many steps of its own, whatever the others do |
| `Semaphores.StepsDown` | 2401MC29_RudraPratapRaikwar_Assignment7/kernel/sysproc.c:162-207 | each step of a call leaves fewer to take, unless sleep() has returned |
| `Semaphores.RousedBySignal` | 2401MC29_RudraPratapRaikwar_Assignment7/kernel/sysproc.c:203-205 | only a kill, or a signal on the very semaphore on which a process is registered, rouses it |
| `Semaphores.RetriesAreRoused` | 2401MC29_RudraPratapRaikwar_Assignment7/kernel/sysproc.c:175-183 | waiting is not busy: in every run a process comes back from sleep() at most as often as it is roused |
| `Scheduler.ScanOrder` | 2401MC29_RudraPratapRaikwar_Assignment7/kernel/proc.c:647-648 | the slot examined at each offset is the one at that circular distance from the cursor |
| `Scheduler.Cpu.PickBest` | 2401MC29_RudraPratapRaikwar_Assignment7/kernel/proc.c:643-656 | one undisturbed scan returns the lexicographic minimum of (priority, circular distance) among the runnable processes, or -1 if there is none |
| `Scheduler.Cpu.Dispatch` | 2401MC29_RudraPratapRaikwar_Assignment7/kernel/proc.c:643-669 | that process is RUNNING with its wait reset and its pid and priority kept, every other entry is as before and the cursor moves past it; otherwise nothing changes |
| `Scheduler.Cpu.AgeProcesses` | 2401MC29_RudraPratapRaikwar_Assignment7/kernel/proc.c:680-698 | in one pass, state and pid of every entry stay; an entry that is not RUNNABLE has its wait reset; a RUNNABLE one waits a tick longer, and at 30 its wait is reset and its priority number falls by one unless it is 1 |
| `Scheduler.Cpu.KSetPriority` | 2401MC29_RudraPratapRaikwar_Assignment7/kernel/proc.c:430-447 | changes exactly the first used slot with the pid, and fails exactly for a bad priority or an unknown pid |
| `Scheduler.TickAges` | 2401MC29_RudraPratapRaikwar_Assignment7/kernel/proc.c:685-695 | a tick lowers 30 * priority - wait_ticks by exactly 1 until priority 1, which stays |
| `Scheduler.RunAges` | 2401MC29_RudraPratapRaikwar_Assignment7/kernel/proc.c:680-698 | over any run that passes a process over, that quantity falls by the number of ticks |
| `Scheduler.PromotedBy` | 2401MC29_RudraPratapRaikwar_Assignment7/kernel/proc.c:680-698 | after that many ticks the priority is 1 |
| `Scheduler.PickApproaches` | 2401MC29_RudraPratapRaikwar_Assignment7/kernel/proc.c:643-664 | at priority 1 every dispatch of another process brings the cursor strictly closer |
| `Scheduler.RunApproaches` | 2401MC29_RudraPratapRaikwar_Assignment7/kernel/proc.c:643-664 | over a run the distance falls by at least the number of dispatches |
| `Scheduler.NoStarvation` | 2401MC29_RudraPratapRaikwar_Assignment7/kernel/proc.c:627-698 | a process that stays runnable is passed over in fewer dispatches than there are slots once it has waited 30 * (priority - 1) - wait_ticks ticks |
| `Scheduler.BestExists` | 2401MC29_RudraPratapRaikwar_Assignment7/kernel/proc.c:643-656 | while somebody is runnable there is exactly one process to pick |
| `Scheduler.PickedOnce` | 2401MC29_RudraPratapRaikwar_Assignment7/kernel/proc.c:658-662 | over every run, a process that was picked is RUNNING and is not picked again before some other event makes it RUNNABLE |
| `Resources.OutsideStuck` | 2401MC29_RudraPratapRaikwar_Assignment7/user/deadlock.c:65-67 | a process that can finish after processes outside a stuck set is outside it too |
| `Resources.OrderAvoidsStuck` | 2401MC29_RudraPratapRaikwar_Assignment6/Q1/bankers.c:86-97 | no safe order ever reaches a stuck set |
| `Resources.StuckNotSafe` | 2401MC29_RudraPratapRaikwar_Assignment6/Q1/bankers.c:98-100 | a non-empty stuck set means the state is not safe |
| `Resources.LeftOverStuck` | 2401MC29_RudraPratapRaikwar_Assignment6/Q1/bankers.c:98-100 | the processes a greedy search leaves over are stuck |
| `Resources.SafeOrderAppend` | 2401MC29_RudraPratapRaikwar_Assignment6/Q1/bankers.c:88-96 | a process that fits extends a safe order |
| `Resources.OrderLength` | 2401MC29_RudraPratapRaikwar_Assignment6/Q1/bankers.c:85-95 | a safe order never repeats, and is complete exactly when it is as long as there are processes |
| `Resources.SafeIffNothingStuck` | 2401MC29_RudraPratapRaikwar_Assignment6/Q1/bankers.c:68-103 | a state is safe if and only if no non-empty set of processes is stuck |
| `Banker.NeedMatrix` | 2401MC29_RudraPratapRaikwar_Assignment6/Q1/bankers.c:36-43 | need = maximum - allocation, entry by entry |
| `Banker.CanExecute` | 2401MC29_RudraPratapRaikwar_Assignment6/Q1/bankers.c:51-59 | true exactly when the need fits what is available; also fits of user/deadlock.c |
| `Banker.Reclaim` | 2401MC29_RudraPratapRaikwar_Assignment6/Q1/bankers.c:89-92 | what a process holds joins the pool |
| `Banker.Sweep` | 2401MC29_RudraPratapRaikwar_Assignment6/Q1/bankers.c:86-97 | one pass keeps a safe order with its pool; without progress nobody left fits |
| `Banker.FindOrder` | 2401MC29_RudraPratapRaikwar_Assignment6/Q1/bankers.c:68-103 | what it finds is a safe order of all processes, and unless an allocation is negative it finds one if and only if there is one |
| `Banker.GrantBounded` | 2401MC29_RudraPratapRaikwar_Assignment6/Q1/bankers.c:131-135 | a grant within the checks keeps 0 <= allocation <= maximum and nothing negative if and only if the process gives back no more than it holds; the checks do not look at the sign |
| `Banker.NegativeRequest` | 2401MC29_RudraPratapRaikwar_Assignment6/Q1/bankers.c:121-130 | a request of -1 by a process that holds nothing passes the checks and is safe to grant, and makes an allocation negative |
| `Banker.GrantConserves` | 2401MC29_RudraPratapRaikwar_Assignment6/Q1/bankers.c:131-135 | a grant leaves allocation plus available of every resource constant |
| `Banker.Grant` | 2401MC29_RudraPratapRaikwar_Assignment6/Q1/bankers.c:131-135 | the trial allocation moves exactly the requested units |
| `Banker.Revoke` | 2401MC29_RudraPratapRaikwar_Assignment6/Q1/bankers.c:148-152 | the rollback restores exactly the tables before the trial |
| `Banker.Tables.CheckSafeState` | 2401MC29_RudraPratapRaikwar_Assignment6/Q1/bankers.c:68-103 | true only if the state is safe, and then the order is a safe permutation of all processes; without negative allocations true for every safe state |
| `Banker.Tables.ProcessRequest` | 2401MC29_RudraPratapRaikwar_Assignment6/Q1/bankers.c:111-156 | what it grants is within need and available and leaves the system safe, and in a bounded state it grants every such request by which the process gives back no more than it holds; a denial changes nothing; the tables stay bounded if and only if it denies or that condition holds |
| `Banker.Tables.ProcessAll` | 2401MC29_RudraPratapRaikwar_Assignment6/Q1/bankers.c:111-156 | every sequence of requests of any sign is decided one by one, each on the tables that the ones before left; the state stays safe and the total of every resource is constant; without negative requests the tables stay bounded |
| `Banker.IsSafeState` | 2401MC29_RudraPratapRaikwar_Assignment7/user/deadlock.c:92-135 | true only if the state is safe, and without negative allocations for every safe state |
| `Banker.CheckRequest` | 2401MC29_RudraPratapRaikwar_Assignment7/user/deadlock.c:154-159 | passes exactly the requests within need and available |
| `Banker.BankerRequest` | 2401MC29_RudraPratapRaikwar_Assignment7/user/deadlock.c:138-178 | decides on copies, and exactly as process_request does, for requests of any sign |
| `DeadlockDetection.DetectStart` | 2401MC29_RudraPratapRaikwar_Assignment7/user/deadlock.c:51-58 | processes that hold nothing are in no deadlocked set |
| `DeadlockDetection.DetectNext` | 2401MC29_RudraPratapRaikwar_Assignment7/user/deadlock.c:65-69 | a process that can finish is in no deadlocked set, unless an allocation is negative |
| `DeadlockDetection.DetectEnd` | 2401MC29_RudraPratapRaikwar_Assignment7/user/deadlock.c:75-81 | when nobody can finish any more, the unfinished processes are deadlocked, and the greatest such set unless an allocation is negative |
| `DeadlockDetection.DetectSweep` | 2401MC29_RudraPratapRaikwar_Assignment7/user/deadlock.c:63-76 | one pass; it finishes somebody or leaves nobody who fits |
| `DeadlockDetection.DetectDeadlock` | 2401MC29_RudraPratapRaikwar_Assignment7/user/deadlock.c:43-89 | returns, in ascending order, a set of holding processes none of whose requests fits what is available plus what is held outside the set, and unless an allocation is negative the greatest one |
| `DeadlockDetection.GreatestIsUnique` | 2401MC29_RudraPratapRaikwar_Assignment7/user/deadlock.c:43-89 | that set is determined by the state, so the scan order does not matter |
| `WaitGraph.ConstructWaitGraph` | 2401MC29_RudraPratapRaikwar_Assignment6/Q2/deadlockdetect.c:26-48 | an edge from u to v exactly when u requests a resource that v holds |
| `WaitGraph.RankFalls` | 2401MC29_RudraPratapRaikwar_Assignment6/Q2/deadlockdetect.c:76-105 | along a walk from a finished node the finishing rank falls |
| `WaitGraph.RankedNoCycle` | 2401MC29_RudraPratapRaikwar_Assignment6/Q2/deadlockdetect.c:129-134 | if every node is finished the graph has no cycle |
| `WaitGraph.Enter` | 2401MC29_RudraPratapRaikwar_Assignment6/Q2/deadlockdetect.c:75-76 | a white node joins the trace, which stays a walk without repetition and within the array; the white nodes become fewer |
| `WaitGraph.Leave` | 2401MC29_RudraPratapRaikwar_Assignment6/Q2/deadlockdetect.c:104-104 | the last grey node leaves the trace |
| `WaitGraph.Finish` | 2401MC29_RudraPratapRaikwar_Assignment6/Q2/deadlockdetect.c:104-105 | a node all of whose successors are black is ranked above them |
| `WaitGraph.Closes` | 2401MC29_RudraPratapRaikwar_Assignment6/Q2/deadlockdetect.c:91-99 | the trace from the grey node on, closed by the edge found, is a cycle |
| `WaitGraph.Detector.Report` | 2401MC29_RudraPratapRaikwar_Assignment6/Q2/deadlockdetect.c:90-100 | the search for the start index ends, and the loop written is a closed walk of at most N + 1 nodes |
| `WaitGraph.Detector.DetectCycleDfs` | 2401MC29_RudraPratapRaikwar_Assignment6/Q2/deadlockdetect.c:72-106 | either a genuine cycle is reported, or the node is black, the trace is as before and everything reachable is black; terminates on the white nodes |
| `WaitGraph.Detector.Search` | 2401MC29_RudraPratapRaikwar_Assignment6/Q2/deadlockdetect.c:129-134 | a deadlock is reported if and only if the graph has a cycle |
| `WaitGraph.CycleIsCircularWait` | 2401MC29_RudraPratapRaikwar_Assignment6/Q2/deadlockdetect.c:26-48 | cycles of the graph are exactly the circles of processes that wait for each other |
| `WaitGraph.EvaluateScenario` | 2401MC29_RudraPratapRaikwar_Assignment6/Q2/deadlockdetect.c:112-146 | reports a deadlock if and only if some processes wait for each other in a circle, and shows such a circle |
| `DetectorsAgree.CircleDeadlocked` | 2401MC29_RudraPratapRaikwar_Assignment7/user/deadlock.c:43-89 | with single units, processes that wait in a circle are deadlocked |
| `DetectorsAgree.StuckHasCircle` | 2401MC29_RudraPratapRaikwar_Assignment6/Q2/deadlockdetect.c:72-106 | with single units, a non-empty stuck set contains a circle of waiting |
| `DetectorsAgree.Agreement` | 2401MC29_RudraPratapRaikwar_Assignment6/Q2/deadlockdetect.c:25-133 | detect_deadlock returns a non-empty set if and only if the wait-for graph has a cycle, and every process on a cycle is in the set |
| `OrderedAcquisition.InvStep` | 2401MC29_RudraPratapRaikwar_Assignment6/Q4/syncdeadlock.c:23-44 | free instances plus holders equal the capacity of every resource after every step |
| `OrderedAcquisition.SomebodyCanStep` | 2401MC29_RudraPratapRaikwar_Assignment6/Q4/syncdeadlock.c:24-33 | in every reachable state with an unfinished worker some worker can step: following who holds what climbs the order |
| `OrderedAcquisition.StepRemaining` | 2401MC29_RudraPratapRaikwar_Assignment6/Q4/syncdeadlock.c:23-46 | each step takes one off the remaining work of its worker |
| `OrderedAcquisition.RunInv` | 2401MC29_RudraPratapRaikwar_Assignment6/Q4/syncdeadlock.c:23-46 | over a run the remaining work falls by its length |
| `OrderedAcquisition.EveryRunCompletes` | 2401MC29_RudraPratapRaikwar_Assignment6/Q4/syncdeadlock.c:18-48 | a run that cannot go on has exactly the planned length, all instances back and every worker with all its cycles completed |
| `OrderedAcquisition.DiningOrdered` | 2401MC29_RudraPratapRaikwar_Assignment4/user/dining.c:10-15 | taking the lower-numbered fork first is ascending if and only if there are at least two philosophers |
| `OrderedAcquisition.LonePhilosopherStarves` | 2401MC29_RudraPratapRaikwar_Assignment4/user/dining.c:10-15 | a single philosopher takes the fork once and can then never step again |
| `OrderedAcquisition.NeighboursDoNotEat` | 2401MC29_RudraPratapRaikwar_Assignment4/user/dining.c:25-36 | neighbours never eat at the same time |
| `ReadersWriters.InvStep` | 2401MC29_RudraPratapRaikwar_Assignment4/user/readwrite.c:15-70 | every step keeps: read_count is the number of readers inside, shared_data the number of completed writes, and who owns which semaphore |
| `ReadersWriters.FirstReaderDoesNotBlock` | 2401MC29_RudraPratapRaikwar_Assignment4/user/readwrite.c:21-24 | the first reader always finds RW_LOCK free |
| `ReadersWriters.WriterExcludes` | 2401MC29_RudraPratapRaikwar_Assignment4/user/readwrite.c:51-61 | while a writer writes no reader reads and no other writer writes |
| `ReadersWriters.ReadsAreStable` | 2401MC29_RudraPratapRaikwar_Assignment4/user/readwrite.c:29-34 | shared_data does not change while a reader reads |
| `ReadersWriters.NoReaderOvertakes` | 2401MC29_RudraPratapRaikwar_Assignment4/user/readwrite.c:51-58 | while a writer has the turnstile no reader comes in |
| `ReadersWriters.NoDeadlock` | 2401MC29_RudraPratapRaikwar_Assignment4/user/readwrite.c:15-70 | in every reachable state with an unfinished process some process can step |
| `ReadersWriters.StepWorks` | 2401MC29_RudraPratapRaikwar_Assignment4/user/readwrite.c:15-70 | each step takes one off the remaining work |
| `ReadersWriters.EveryRunCompletes` | 2401MC29_RudraPratapRaikwar_Assignment4/user/readwrite.c:15-70 | a run that cannot go on has finished all processes after exactly ten steps per read and six per write, all semaphores are free and shared_data is the number of writes asked for |
| `ExitWait.InvStep` | 2401MC29_RudraPratapRaikwar_Assignment4/kernel/proc.c:291-468 | every step of fork, exit, wait, kill and other kernel code keeps the invariant of parent links, lock, registrations and zombies |
| `ExitWait.AdoptPair` | 2401MC29_RudraPratapRaikwar_Assignment4/kernel/proc.c:363-367 | a child given to init, zombie or not, keeps all parts of the invariant: init is about to be woken |
| `ExitWait.DeathPair` | 2401MC29_RudraPratapRaikwar_Assignment4/kernel/proc.c:395-406 | becoming a zombie after the two wakeups keeps the invariant: the parent is not registered |
| `ExitWait.ReapPair` | 2401MC29_RudraPratapRaikwar_Assignment4/kernel/proc.c:436-451 | freeing a zombie child keeps the invariant |
| `ExitWait.WakeStep` | 2401MC29_RudraPratapRaikwar_Assignment4/kernel/proc.c:626-645 | a step of either wakeup keeps the invariant |
| `ExitWait.QuietWaitStep` | 2401MC29_RudraPratapRaikwar_Assignment4/kernel/proc.c:419-468 | a step of kwait that frees nobody keeps the invariant: it registers only after a scan without zombies |
| `ExitWait.InvAlways` | 2401MC29_RudraPratapRaikwar_Assignment4/kernel/proc.c:291-468 | the invariant holds after every run |
| `ExitWait.NoMissedExit` | 2401MC29_RudraPratapRaikwar_Assignment4/kernel/proc.c:461-465 | whenever wait_lock is free, a parent registered on its own channel, or asleep in kwait, has no zombie child |
| `ExitWait.ParentsLive` | 2401MC29_RudraPratapRaikwar_Assignment4/kernel/proc.c:345-347 | a set parent link leads to a living process with a smaller pid, and every living or zombie process but init has one |
| `ExitWait.AncestorIsInit` | 2401MC29_RudraPratapRaikwar_Assignment4/kernel/proc.c:359-369 | following parent links ends at init: the links are a tree |
| `ExitWait.ReapedOnce` | 2401MC29_RudraPratapRaikwar_Assignment4/kernel/proc.c:436-451 | no pid is returned by kwait twice |
| `ExitWait.ReapsAChild` | 2401MC29_RudraPratapRaikwar_Assignment4/kernel/proc.c:429-451 | only a zombie child of the caller is ever freed, and then its slot is empty |
| `ExitWait.ReapsZombie` | 2401MC29_RudraPratapRaikwar_Assignment4/kernel/proc.c:434-451 | a kwait that comes to a zombie child returns its pid, empties its slot, frees wait_lock and leaves all other slots alone |
| `ExitWait.GivesUpRightly` | 2401MC29_RudraPratapRaikwar_Assignment4/kernel/proc.c:454-464 | at the end of its scan kwait has no zombie child; it returns -1 if and only if it has no child at all or was killed, and otherwise goes on to register |
| `ExitWait.LeavesScan` | 2401MC29_RudraPratapRaikwar_Assignment4/kernel/proc.c:429-460 | kwait leaves its scan with the pid of a zombie child or at its end; only a failing copyout makes it return -1 on a zombie, which then stays |
| `ExitWait.LifeCycle` | 2401MC29_RudraPratapRaikwar_Assignment4/kernel/proc.c:291-468 | what any step may do to any slot: it is taken by a fork, linked and started by its parent, put to sleep by itself, woken by an exiting child, a child given to init or a kill, ended by itself, freed by its parent or by the fork that fails; its pid and parent link change only then; nobody is moved inside a call by others |
| `ExitWait.ForkBegins` | 2401MC29_RudraPratapRaikwar_Assignment4/kernel/proc.c:296-298 | a fork takes an unused slot with a pid that no process has or has had |
| `ExitWait.ForkStep` | 2401MC29_RudraPratapRaikwar_Assignment4/kernel/proc.c:300-353 | whatever the others do, the slot stays set aside until the fork ends: either the child is ACTIVE as a child of the caller, which returns its pid, or the slot is empty and it returns -1; nobody else changes |
| `ExitWait.Adoption` | 2401MC29_RudraPratapRaikwar_Assignment4/kernel/proc.c:364-367 | an exiting process that comes to a child gives it to init and starts waking init |
| `ExitWait.ExitCompletes` | 2401MC29_RudraPratapRaikwar_Assignment4/kernel/proc.c:404-409 | a process dies as a zombie with its pid and link kept, no child left and wait_lock free; nobody else changes |
| `ExitWait.ExitNeverReturns` | 2401MC29_RudraPratapRaikwar_Assignment4/kernel/proc.c:375-413 | from kexit on a process is exiting, a zombie, or returned by a wait, in every run |
| `ExitWait.KillRouses` | 2401MC29_RudraPratapRaikwar_Assignment4/kernel/proc.c:651-669 | kkill sets the flag and makes a sleeper runnable, and does nothing else to anybody |
| `ExitWait.KilledLeaves` | 2401MC29_RudraPratapRaikwar_Assignment4/kernel/proc.c:457-466 | a killed process that comes back from sleep in kwait does not sleep again: it scans until it returns, with -1 or the pid of a zombie child, and wait_lock free |
| `ExitWait.CallBegins` | 2401MC29_RudraPratapRaikwar_Assignment4/kernel/proc.c:291-425 | a call that begins is in progress, and nothing else has changed but the slot that a fork takes |
| `ExitWait.EveryChildOnce` | 2401MC29_RudraPratapRaikwar_Assignment4/kernel/proc.c:291-451 | over every run from the start, counted from the results of the calls: no two forks return the same pid and no two waits do, a wait returns only what a fork has returned, and every child that a fork returned is either in the table, alive or a zombie, or has been returned by a wait |
| `ExitWait.StepsDown` | 2401MC29_RudraPratapRaikwar_Assignment4/kernel/proc.c:291-468 | each step of a call leaves less to do, unless sleep() has returned |
| `ExitWait.RousedByChild` | 2401MC29_RudraPratapRaikwar_Assignment4/kernel/proc.c:366-399 | only a kill, or a child that exits or is given to init, rouses a parent |
| `ExitWait.RetriesAreRoused` | 2401MC29_RudraPratapRaikwar_Assignment4/kernel/proc.c:427-467 | waiting is not busy: in every run a process comes back from sleep() at most as often as it is roused |
| `ExitWait.Progress` | 2401MC29_RudraPratapRaikwar_Assignment4/kernel/proc.c:291-468 | a process inside a call can step, or waits for wait_lock whose holder can, or sleeps in kwait |
| `ExitWait.SomebodyRuns` | 2401MC29_RudraPratapRaikwar_Assignment4/kernel/proc.c:419-468 | waiting never deadlocks: when nobody inside a call can move, a process asleep in kwait waits, through children asleep in kwait, for one that runs outside |
| `Peterson.InvStep` | 2401MC29_RudraPratapRaikwar_Assignment4/user/peterson.c:36-58 | every single access keeps: whoever is in the critical section while the other waits has the turn |
| `Peterson.MutualExclusion` | 2401MC29_RudraPratapRaikwar_Assignment4/user/peterson.c:35-62 | never both in the critical section, and 2k after k iterations each, with read and write of the counter apart |
| `Peterson.EntriesBounded` | 2401MC29_RudraPratapRaikwar_Assignment4/user/peterson.c:37-46 | while a process waits the other enters at most as often as its allowance |
| `Peterson.OvertakenAtMostOnce` | 2401MC29_RudraPratapRaikwar_Assignment4/user/peterson.c:37-46 | a waiter that has set turn is overtaken at most once |
| `Peterson.TurnGetsIn` | 2401MC29_RudraPratapRaikwar_Assignment4/user/peterson.c:44-46 | a waiter that has the turn gets in with at most one more test |
| `Peterson.FailsForAReason` | 2401MC29_RudraPratapRaikwar_Assignment4/user/peterson.c:44-46 | a test of the flag leaves a waiter waiting if and only if the other has its flag set, and a test of the turn if and only if the turn is the other's; otherwise it leads into the critical section |
| `Peterson.AloneGetsIn` | 2401MC29_RudraPratapRaikwar_Assignment4/user/peterson.c:44-46 | over every run in which the other stays in its remainder, a waiter takes at most one step that leaves it waiting |
| `Peterson.IterationAlone` | 2401MC29_RudraPratapRaikwar_Assignment4/user/peterson.c:37-58 | a process that finds the other away completes an iteration in six steps, with the counter one higher and its flag down again |
| `Peterson.ReturnGivesWay` | 2401MC29_RudraPratapRaikwar_Assignment4/user/peterson.c:37-46 | once the other comes back and sets turn again it does not enter any more before the waiter does, in any schedule, and the waiter fails at most one more test |
| `ProducerConsumer.ProducerInv` | 2401MC29_RudraPratapRaikwar_Assignment4/user/prodcons.c:60-69 | a step of the producer keeps: every item not yet consumed is in its slot, and the semaphores count the slots |
| `ProducerConsumer.ConsumerInv` | 2401MC29_RudraPratapRaikwar_Assignment4/user/prodcons.c:45-54 | a step of the consumer keeps the same |
| `ProducerConsumer.Safe` | 2401MC29_RudraPratapRaikwar_Assignment4/user/prodcons.c:43-71 | no over- or underflow, EMPTY + FULL + units in transit = size, and never both in the critical section |
| `ProducerConsumer.NoDeadlock` | 2401MC29_RudraPratapRaikwar_Assignment4/user/prodcons.c:43-71 | somebody can step until all items are consumed |
| `ProducerConsumer.EveryRunConsumesAll` | 2401MC29_RudraPratapRaikwar_Assignment4/user/prodcons.c:43-76 | the consumed items are always a prefix of the produced ones; a run that cannot go on has exactly 12 steps per item and consumed 1, 2, ..., ITERS in order |

## Left out

- Each function of `kalloc.c`, `vm.c` and the memory part of `proc.c` is one atomic operation; the locks inside them are not modelled.
- The kernel's own page table (`kvmmake`, `kvmmap`), `uvmclear`, `copyout`, `copyin`, `copyinstr` and `kexec`.
- The alignment panics of `mappages` and `uvmunmap`: page-aligned addresses are page numbers.
- Machine integers: reference counts, pids and semaphore values are unbounded; `growproc` keeps the wrap-around of a negative new size.
- AddressSpaces.Kernel.Userinit: the null pointer that `userinit` would follow if `allocproc` failed at boot.
- AddressSpaces.Kernel.Load: stands for what a program loader does through `uvmalloc`; `exec.c`, with its argument pages, guard page and replacement of the old image, is not part of this model.
- AddressSpaces.Kernel.Run: requests to `sbrk` are 32-bit, as `argint` delivers them; others are skipped.
- AddressSpaces.Kernel.Kfork: saved registers, open files and the parent link are left to the file system, trap and exit/wait code.
- Banker.FindOrder: with negative allocations the greedy search may miss a safe order; only what it finds is vouched for.
- DeadlockDetection.DetectDeadlock: with negative allocations the set listed is deadlocked but need not be the greatest.
- A second initialisation of a semaphore is not an event of `Semaphores`; `ReinitIff` treats it on its own.
- Semaphore ids out of range, a `kfork` that finds no slot and a `kkill` that finds no pid, which only return -1.
- `kjoin`, orphaned threads and the parent links of Assignment 7, whose `reparent` skips undetached threads.
- Several CPUs in the scheduler: each has a cursor of its own and scans without a global lock.
- A scan of the scheduler during which another CPU changes the table.
- The A6 kernel semaphores (`sem_create`, `sem_wait`, `sem_post`) are not part of this model; they are taken as atomic.
- The return of `fork` in the user programs and their waiting for children; weak memory ordering in `peterson.c`.
- Printing, demonstrations and argument parsing.

# adix: memory and scheduling, verified

adix is a small x86-64 kernel in C. This project models the parts of it that
keep shared state consistent and proves what they promise:

- **Page tables** (`PageBits`, `PageTree`, `PageMemory`, `PageStore`, `PageTable`).
  Four-level tables in physical memory, read and written either through the
  direct map or through the self-reference window in slot 256 of the root. The
  code works on words in memory; the specification is a tree, and the processor's
  own walk (section 5.3 of the AMD64 Architecture Programmer's Manual, Volume 2)
  is the independent reference: mapping a page is a map update as the processor
  sees it.
- **Fork** (`PageFork`, `PageForkStore`, `PageForkRoot`, `PageForkFail`). The recursive
  copy of an address space for copy-on-write, with its reference counting, and what it
  leaves of the parent when it fails.
- **Copy on write** (`SpaceTables`, `CowMemory`, `CowFaults`, `CowProgress`,
  `CowProtocol`, `CowCounts`, `CowOutside`, `CowRegions`, `FaultHandler`, `CowStorage`,
  `CowSteps`, `CowWitness`).
  The page-fault handler for user pages, kernel pages and the table window; fork,
  stores, exec, page loading and page release as a protocol over all address spaces,
  and over the one memory that holds all their tables. A writable frame has one page,
  what a process sees in a page it has changes only by its own doing, no page is a
  table, and every access is decided after at most two faults; with the exact steps
  after which reference counts are no longer exact, or pages outside their regions.
- **Physical pages** (`PhysPages`). The list of free runs against the reference
  counts kept in the chunk tables.
- **Memory regions** (`VmaList`). The sorted list of regions, gap search, mmap,
  munmap and growing stacks, in 64-bit arithmetic; exactly which faults a neighbour
  grows to serve.
- **kmalloc** (`Kmalloc`). The in-band free list of the static arena, over any run of
  calls: no block is handed out twice and no byte is lost.
- **Scheduler** (`Tasks`, `SchedRuns`, `Scheduler`, `ListRing`, `TaskRings`). The
  four rings, PIDs, the process tree, timed sleep, waiting, exit and round robin; the circular
  list of include/sys/list.h that all of the kernel's queues are made of, and the
  four rings made of its nodes, which stay apart while entries move between them.

Code that changes state is a class with methods and loops (`PageTables`,
`Handler`, `PageManager`, `MemoryMap`, `Allocator`, `Scheduler`, `ListHead`, `Rings`); each
method is proved equal to a function on values or to a stated property, and the
lemmas about whole runs are about those functions. Parameters named `t`, `d`, `u`
or `idle` are ghost: they name the tree or the state a caller is in.
`dafny verify dfyconfig.toml` checks everything.

## Where the code does not do what one would expect

Each of these is stated with the exact condition under which the code does.

- `cow_fork_level` copies only present entries into pages it does not clear. The
  child translates as the parent does if and only if those pages hold no present
  entry where the parent has none (`ForkPreservesMeaning`; `StalePageMaps` is a
  concrete page that breaks it, `ZeroedClean` the case that never does).
- `alloc_phys_pages` cannot tell page 0 from failure: if page 0 starts a free run
  that is long enough, the list loses the pages and the counts do not change
  (`AllocPhysPages`, `PageZeroLost`).
- `free_phys_page` of a page that is free already wraps its count, returns -1 and
  leaves list and counts in disagreement; so does it for a page with more than
  2^31 references, which it lists; in no other case (`FreePhysPage`,
  `FreedWhileFree`).
- `cow` gives up a reference before it looks for a frame to copy to, and before
  anybody asks whether the page may be written at all. Two kinds of write rob a frame
  of a reference that a user page still needs: one to a shared page when no frame is
  left, which ends the process but not its mapping; and a user's write to a kernel
  page, such as the page of the kernel's map of physical memory that shows a shared
  frame, which is even resolved. Exactly then the invariant breaks (`HandleInv`);
  the next writer gets the frame writable while another process has it
  (`RobbedShares`; `SharedStarves` and `DirectRobs` are concrete states). Runs are
  runs without that step.
- A fork that gives up half way leaves references without pages, and so does a page
  mapped over one that is there: exactly then counts are too high (`StepExact`).
  Frames are lost by it; a writable frame still has one page (`ShareInv`, `TakeInv`).
- A region may be taken from a page only if the page is not present
  (`UnmappingRegions`); `munmap` does not look. Such pages, and pages that the loader
  maps beyond its region, are the only ones outside regions (`StepRegions`).
- `mmap` takes any address. A process's region keeps everything in order if and only if
  it lies at user addresses, or where faults are looked up in the kernel's regions
  anyway (`MappingInv`; `OutsideAddresses` gives the address ranges, `LowestBefore` says
  when the answer of `mmap` lies in the lower half). With a region over the table window
  one read gives user code its own page tables (`WindowOpened`); with one in slot 511
  below the kernel's regions it puts a user page into tables that all processes share
  (`KernelOpened`; `WindowRun` and `LowRun` are concrete runs). Pages that the loader maps
  are in order if and only if they are for those they may be for (`LoadedInv`).
- Without such a region, a user access to the table window stops the machine instead of
  ending the process: the entry is present, so the handler looks for a privilege error in
  the region, and there is none (`WindowHalts`; `NoRegionOutcome` for all addresses outside
  regions).
- The NX bit is accepted in protections, but no-execute pages are never switched on, so
  the processor refuses every access through an entry that has it. An access to a region
  with the bit ends the process, or stops the machine, after at most two faults
  (`NoExecuteKilled`); and a read of a shared page with it makes the page writable, which
  is the other way in which handling a fault breaks the invariant (`HandleInv`).
- A page that appears shows the old contents of its frame, and with them what
  another process stored there before it gave the frame up (`DemandShows`,
  `LeftoverSeen`; `SevenSeen` is a concrete run).
- `init_free_phys_page_manager` never joins runs across chunks: its list is fully
  coalesced exactly when no two chunks meet between two free pages (`SeamLeft`).
- `mmap` asks for one byte more than it maps. It succeeds exactly when the length
  is positive and a gap of length + 1 bytes from the hint on ends within 64 bits.
- `find_vma` returns the record around the list head where its header promises
  NULL, so `find_vma_intersection` compares an unrelated field when no region ends
  above its start. The model follows the code; that field is the parameter
  `garbage`, and where the result does not depend on it the contracts do not
  mention it.
- `grow_vma_down` and `grow_vma_up` step by a page without looking at the ends of
  the address space; the list stays sorted exactly under `RoomBelow` and
  `RoomAbove`.
- `grow_vma_down` asks for one page more than it takes when the fault is at the lowest
  byte of the page below: the last page within the limit is reached by a fault at any of
  its other bytes, but not by one at that (`GrowsDownMeans`; `grow_vma_up` has no such
  case, `GrowsUpMeans`).
- `kfree` sets the link of the freed block only when a free block lies above it.
  Otherwise the link left in the header decides: the list is right if and only if
  it is empty (`Kfree`, and for whole runs `RunOk`; after the six calls of
  `StaleLink` the next one hands out a block in use, `StaleReuse`; while the end of
  the arena is free nothing goes wrong, `TopFreeRejoins`).
- `sys_fork` gives back neither the PID nor the place in the child list when it
  fails (`ForkFailed`), and does not notice that PIDs have run out. It keeps the scheduler
  in order exactly in the cases of `ForkedInv`.
- A user write to a kernel page does not always end the process: if its frame has no
  descriptor, or carries a copy-on-write flag left from an earlier use, the handler
  reports an error and `fault_handler` spins. `KernelPageKilled` says exactly when,
  `HaltsExactly` that no fault on a user page in a region without the NX bit does, and
  `FlaggedHalts` is a concrete state.

## Model

| member | source | states |
|---|---|---|
| `PageBits.PathIdentifiesPage` | include/sys/memory/page_table_helper.h:76-99 | Two canonical addresses have the same four indices if and only if they lie in the same page. |
| `PageTree.PutLookup` | sys/memory/page_table_helper.c:77-147 | Mapping is a point update of the tree: the path given gets the entry, every other path keeps what it had. |
| `PageTree.PutWellFormed` | sys/memory/page_table_helper.c:77-147 | Mapping keeps the tree well formed, self-reference slot included. |
| `PageTree.PutFrames` | sys/memory/page_table_helper.c:77-147 | Mapping adds to the table pages exactly the fresh ones it needed. |
| `PageTree.PutSeparate` | sys/memory/page_table_helper.c:77-147 | Mapping leaves every table page on one place of the tree only. |
| `PageTree.PutOpen` | sys/memory/page_table_helper.c:85-132 | Hooking in one empty table does not change what the mapping will make of the tree. |
| `PageTree.PutTwice` | sys/memory/page_table_helper.c:215-240 | A second mapping of a page replaces the first and needs no table. |
| `PageTree.GraftUnshaped` | sys/memory/page_table_helper.c:149-240 | A present entry written above the page tables, as at a window address, leaves no well-formed tree. |
| `PageMemory.HoldsDetermines` | sys/memory/page_table_helper.c:77-147 | Two memories that hold the same tree have the same words in its pages. |
| `PageMemory.StoreHolds` | sys/memory/page_table_helper.c:144-145 | Storing one word into one table page is setting one slot of the tree. |
| `PageMemory.WalkIsLookup` | sys/memory/page_table_helper.c:289-333 | The processor's walk over the words finds exactly the entry the tree has; the upper levels never take rights away. |
| `PageMemory.WindowLands` | include/sys/memory/page_table_helper.h:104-157 | A walk that passes the self-reference slot lands, writable, in the table the rest of the path reaches. |
| `PageMemory.WindowWalk` | include/sys/memory/page_table_helper.h:103-150 | Through the window the processor reaches exactly the tables whose entries are present, writable and in supervisor mode. |
| `PageMemory.WindowStored` | sys/memory/page_table_helper.c:215-224 | One word stored through the window at a window address is an entry above the page tables overwritten. |
| `PageMemory.WindowPaths` | include/sys/memory/page_table_helper.h:104-157 | Every window address used by the code addresses, at its level, the entry of its argument. |
| `PageStore.MappedUnique` | sys/memory/page_table_helper.c:77-240 | The two mapping functions do the same thing: any two ways to make a mapping give the same store. |
| `PageStore.MappedRepresents` | sys/memory/page_table_helper.c:77-240 | After a mapping the store represents a tree again, so calls can follow one another. |
| `PageStore.MappingChangesOnePage` | sys/memory/page_table_helper.c:77-240 | As the processor sees it, mapping a page changes the translation of every address in that page to the new entry and of no other address. |
| `PageStore.WindowRead` | include/sys/memory/page_table_helper.h:104-157 | A window address the code uses never faults: the walk finds, writable, the table whose entry it names, as deep as the tables go. |
| `PageStore.AnswerIsTranslation` | sys/memory/page_table_helper.c:242-333 | What the two lookups answer is where the processor's walk leads, for frames below bit 51, and minus one where it faults. |
| `PageTable.PageTables.GetZeroedPageTransObj` | sys/memory/page_table_helper.c:9-18 | The next free page, cleared and with one reference more, or page 0 cleared if there is none; nothing else changes. |
| `PageTable.PageTables.GetSelfrefPml4` | sys/memory/page_table_helper.c:20-35 | A new root that maps nothing but itself, in the next free page or else in page 0, and no other page changed. |
| `PageTable.PageTables.GetKduplicateCurrSelfRefPml4` | sys/memory/page_table_helper.c:54-75 | A new root in one fresh page with the kernel's tables of the root in use and its own self-reference; the root in use is untouched. |
| `PageTable.PageTables.TableBelow` | sys/memory/page_table_helper.c:85-134 | One level down through the direct map: the table there, or an empty one hooked in. |
| `PageTable.PageTables.UpdatePageTableIdmap` | sys/memory/page_table_helper.c:77-147 | Returns OK and makes the mapping: the tree updated at one path, only missing tables taken, no other page of memory changed. |
| `PageTable.PageTables.WindowTableBelow` | sys/memory/page_table_helper.c:161-213 | One level of the window walk: with nothing to map a missing table is an error and nothing changes; otherwise an empty one is hooked in. |
| `PageTable.PageTables.UpdateCurrPageTable` | sys/memory/page_table_helper.c:149-240 | Through the window, the same mapping; with address 0, OK exactly if the page is present and then only its permissions change. |
| `PageTable.PageTables.WindowEntry` | sys/memory/page_table_helper.c:160-214 | At an address in the window the four reads end at the entry of a table above, present exactly if the tree has it. |
| `PageTable.PageTables.UpdateCurrWindow` | sys/memory/page_table_helper.c:215-224 | With no page given, the rights of that entry are changed and nothing else, or minus one if it is not present. |
| `PageTable.PageTables.Virt2PhysSelfref` | sys/memory/page_table_helper.c:242-287 | Through the window, frame and permissions of the entry the tree has, or minus one. |
| `PageTable.PageTables.Virt2PhysIdmap` | sys/memory/page_table_helper.c:289-333 | Through the direct map, the same answer. |
| `PageTable.PageTables.ForkLeaf` | sys/memory/page_table_helper.c:341-364 | A mapped page: write cleared in the source, one reference more, flagged, and copied; it fails only if a descriptor is missing, and then the source is as `GaveUp` says. |
| `PageTable.PageTables.ForkTable` | sys/memory/page_table_helper.c:378-395 | A lower table: a page for the copy, the copy of everything below, and the entry for it; or, when that fails, what `GaveUp` says. |
| `PageTable.PageTables.CowForkLevel` | sys/memory/page_table_helper.c:335-400 | Succeeds if and only if there are pages for all lower tables and every mapped page has a descriptor; then copy, source, counts and pool are exactly as specified by `Forked`. When it fails, the source is still held in memory, each page's entry either as it was or with write cleared, nothing outside source, copy and taken pages is touched, and no count is lower. |
| `PageTable.PageTables.CowForkPageTable` | sys/memory/page_table_helper.c:402-421 | Succeeds if and only if there is one page more than the tables and every mapped page is described; then the child shares the kernel slot and everything else is a copy. When it fails, the parent's space is kept as `KeptTranslates` says. |
| `PageForkFail.HalfLookup` | sys/memory/page_table_helper.c:341-364 | In a source that a fork gave up on, every page is found as before or with write cleared. |
| `PageForkFail.GaveUpBelow` | sys/memory/page_table_helper.c:378-395 | Giving up in a lower table is giving up in this one: the part done so far and the half-done table below are together such a source. |
| `PageForkFail.KeptTranslates` | sys/memory/page_table_helper.c:402-421 | After a failed fork the process goes on with its memory: by the processor's walk every address leads where it led before, at most with less permission to write, and kernel addresses exactly. |
| `PageFork.CountPut` | sys/memory/page_table_helper.c:335-400 | Mapping a page moves exactly one reference: from the frame that was there to the new one. |
| `PageFork.ClearedLookup` | sys/memory/page_table_helper.c:342-343 | After a fork the source translates as before, less the permission to write, and the kernel's pages not even that. |
| `PageFork.ClearedCountTable` | sys/memory/page_table_helper.c:335-400 | Clearing write permissions changes no reference. |
| `PageFork.CleanFaithful` | sys/memory/page_table_helper.c:335-400 | A copy into clean pages means, path by path, what the source means. |
| `PageFork.FaithfulClean` | sys/memory/page_table_helper.c:335-400 | Conversely a faithful copy was made into clean pages. |
| `PageFork.CopyCount` | sys/memory/page_table_helper.c:341-364 | Such a copy maps every frame exactly as often as the source does. |
| `PageForkRoot.ForkPreservesMeaning` | sys/memory/page_table_helper.c:335-421 | The child translates every user page as the parent does less writing, and every kernel page exactly, if and only if the fresh pages held no present entry where the parent has none. |
| `PageForkRoot.ForkTranslates` | sys/memory/page_table_helper.c:402-421 | As the processor sees it, parent and child reach the same frames as before the fork and neither may write to user pages. |
| `PageForkRoot.ForkTreesApart` | sys/memory/page_table_helper.c:402-421 | The child's tables share no page with the parent's except below the kernel slot; its self-reference is its own. |
| `PageForkRoot.ZeroedClean` | sys/memory/page_table_helper.c:9-18 | Pages that were zero are clean. |
| `PageForkRoot.StalePageMaps` | sys/memory/page_table_helper.c:381-395 | A page with one stale entry: the copy of an empty table maps a page. |
| `SpaceTables.PutTables` | sys/memory/page_table_helper.c:149-240 | Mapping a page in one space keeps the table pages of all spaces and of the kernel apart, and in the kernel's hands. |
| `SpaceTables.KernelPutTables` | sys/memory/page_table_helper.c:149-240 | So does mapping a page of the kernel, which all spaces share. |
| `SpaceTables.AddTables` | sys/memory/page_table_helper.c:402-421 | So does a new space made of fresh pages. |
| `SpaceTables.SwapTables` | sys/memory/page_table_helper.c:335-400 | So does a tree of the same pages in place of a space, such as fork makes of the parent. |
| `SpaceTables.FullHolds` | sys/memory/page_table_helper.c:54-75 | A root with the kernel's part is in memory if and only if the space's own words and the kernel's tables are. |
| `SpaceTables.EmptyRootSpace` | sys/memory/page_table_helper.c:54-75 | The root exec switches to is well formed, has one page of its own and no user page. |
| `CowMemory.BitsMeanProt` | sys/memory/page_fault_handler.c:23-34 | Comparing permission bits with a region's protection decides whether the entry grants what the region does. |
| `CowMemory.WritableAlone` | sys/memory/page_fault_handler.c:108-156 | A frame that some page may write is mapped by that page alone in the whole system. |
| `CowMemory.OneReferenceAlone` | sys/memory/page_fault_handler.c:125-129 | A frame with one reference has at most one page. |
| `CowMemory.NoPageIsTable` | sys/memory/page_fault_handler.c:80-156 | No page of any process is a table page of any process or of the kernel. |
| `CowMemory.DemandInv` | sys/memory/page_fault_handler.c:80-100 | Giving a page a frame of its own keeps counts, flags, kernel pages and table pages right in all spaces. |
| `CowMemory.MisplacedBreaks` | sys/memory/page_table_helper.c:149-240 | A page mapped for others than it may be for, or over a page of the map of physical memory, leaves no state in order. |
| `CowMemory.WindowBreaks` | sys/memory/page_table_helper.c:149-240 | Nor does a page mapped at an address in the table window. |
| `CowMemory.CopyInv` | sys/memory/page_fault_handler.c:136-155 | A private copy of a shared page keeps them right if and only if it is not the copy of a kernel page that takes a user page's reference or a page of the map of physical memory. |
| `CowMemory.LessInv` | sys/memory/page_fault_handler.c:136-145 | A reference given up without a page breaks them if and only if every reference of the frame is a user page. |
| `CowMemory.ProtectInv` | sys/memory/page_fault_handler.c:23-34 | A page may get its region's permissions unless that lets it write a frame with other references. |
| `CowMemory.ProtectBreaks` | sys/memory/page_fault_handler.c:23-34 | And breaks them if it does let it write such a frame. |
| `CowMemory.ReleaseInv` | sys/memory/free_phys_pages.c:269-284 | Giving a page up keeps everything right. |
| `CowMemory.ShareInv` | sys/memory/page_table_helper.c:341-366 | So does what fork does to one page of the parent, whether or not the fork succeeds in the end. |
| `CowMemory.TakeInv` | sys/memory/page_table_helper.c:383-394 | So do the pages a failing fork has taken and does not give back. |
| `CowMemory.ForkDelivers` | sys/memory/page_table_helper.c:402-421 | A page-table fork into clean pages gives the protocol's child: same translations and counts, tables of its own among the pages taken, the parent's kernel part. |
| `CowMemory.ForkInv` | sys/memory/page_table_helper.c:402-421 | Fork keeps counts, flags, kernel pages and table pages right in all spaces, the child's among them; the child's regions are `StepRegion`, its pages `ForkView`. |
| `CowFaults.HandlePossible` | sys/memory/page_fault_handler.c:218-274 | In every state in order the handler can run for any of the four-index addresses; only pages for missing tables are asked for, if there is any free page. |
| `CowFaults.HandleInv` | sys/memory/page_fault_handler.c:218-274 | Handling any fault the processor can raise, at any address, keeps the invariant if and only if it does neither of two things: rob a frame (a write to a flagged frame with more than one reference that takes a reference of a user page and either finds no free frame or goes to a kernel page, or that changes a page of the map of physical memory), or grant a shared one (a read of a shared user page whose entry has the NX bit and not its region's permissions). |
| `CowFaults.RobbedShares` | sys/memory/page_fault_handler.c:136-155 | After such a fault the next write through one of two pages sharing the frame makes it writable while the other is still mapped to it. |
| `CowFaults.DemandShows` | sys/memory/page_fault_handler.c:87-99 | A page that appears shows exactly the old contents of its frame. |
| `CowFaults.HandleView` | sys/memory/page_fault_handler.c:218-274 | No fault at any address, resolved or not, changes what any process sees in a page it has; at most the page asked for appears. |
| `CowProgress.PermittedOneFault` | sys/memory/page_fault_handler.c:108-216 | An access to a user page that its region permits, the region not having the NX bit, faults at most once and then goes through, unless it needs a frame and none is left, which ends the process. |
| `CowProgress.PresentUserPageReadable` | sys/memory/page_fault_handler.c:203-216 | A present user page is refused for reading if and only if its entry has the NX bit, so otherwise the read-protection path is not reached for it. |
| `CowProgress.UserReach` | sys/memory/page_fault_handler.c:56-72 | In every state in order, what the processor lets user code touch is a user page, never a kernel page or the table window. |
| `CowProgress.NoRegionKilled` | sys/memory/page_fault_handler.c:80-85 | While pages are in regions, an access to a user page outside every region ends the process at its first fault. |
| `CowProgress.WindowHalts` | sys/interrupt/isr.c:112-120 | With no region of the process around it, a user access to the root's window page is refused, and the handler's error stops the machine. |
| `CowProgress.ReadOnlyTwice` | sys/memory/page_fault_handler.c:165-194 | A write to a read-only region, of a process or of the kernel, that faults ends the process after at most two faults and is not let through in between. |
| `CowProgress.ReadOnlyKilled` | sys/memory/page_fault_handler.c:165-194 | While pages are in regions, a write to a read-only region is never let through and ends the process after at most two faults. |
| `CowProgress.KernelPageKilled` | sys/memory/page_fault_handler.c:56-72 | A user access to a kernel region is never let through, before or after a fault. Within two faults it ends the process, if and only if the handler does not give up on the frame; otherwise it returns an error and its caller stops the machine. |
| `CowProgress.KernelOneFault` | sys/memory/page_fault_handler.c:108-216 | The kernel's own access to one of its pages that the region permits, the region not having the NX bit, faults at most once and then goes through; it stops the machine exactly if it is a write to a frame without a descriptor or flagged without a reference, and ends the process exactly if it needs a frame and none is left. |
| `CowProgress.KernelNoExecuteKilled` | sys/memory/page_fault_handler.c:23-34 | Once an access to a page of a kernel region with the NX bit has faulted it is never let through; within two faults it ends the process, if and only if the handler does not give up on the frame, and stops the machine otherwise. |
| `CowProgress.NoExecuteKilled` | sys/memory/page_fault_handler.c:23-34 | While pages are in regions, no access to a user page of a region with the NX bit is let through, before or after a fault; within two faults it ends the process, if and only if the handler does not give up on the frame, and stops the machine otherwise. |
| `CowProgress.HaltsExactly` | sys/interrupt/isr.c:112-120 | The machine stops exactly at faults on present entries in no region, and at writes to pages whose frame has no descriptor, or is flagged without a reference, or flagged with its only one while the page has all its region allows; for user pages that takes a region with the NX bit. |
| `CowProtocol.StoreView` | sys/memory/page_fault_handler.c:108-156 | A store reaches the page it is made through, no page of any other process, and no translation table. |
| `CowProtocol.ForkView` | sys/memory/page_table_helper.c:402-421 | The child sees what the parent sees, and nobody sees anything else than before. |
| `CowProtocol.ReleaseView` | sys/memory/free_phys_pages.c:269-284 | Giving a page up removes it for its process and for no other. |
| `CowProtocol.LoadedView` | sys/memory/mm_struct.c:356-374 | A page loaded shows what was loaded, and no other page changes. |
| `CowProtocol.MappingInv` | sys/syscall/syscall_handler.c:84-92 | A region that mmap makes for a process keeps everything in order if and only if it is at user addresses or where faults are looked up in the kernel's regions. |
| `CowProtocol.LoadedInv` | sys/memory/free_phys_pages.c:213-262 | Mapping a page eagerly, for a process or for the kernel and even over a page that is there, keeps everything in order if and only if it is at a user address for user code or at a kernel address not for it, and not over another page of the map of physical memory. |
| `CowProtocol.ExecedInv` | sys/scheduler/exec.c:72-82 | So does switching to an empty space. |
| `CowProtocol.StepInv` | sys/memory/page_fault_handler.c:218-274 | Every step of the protocol keeps the invariant if and only if it is not one of these: a fault that robs or grants a frame, a region of a process where it may have none, a page mapped for others than it may be for. The steps are faults at any address, stores, forks, what a failing fork leaves, releases, pages entering regions at any address and leaving them, exec, and pages mapped eagerly at any address. |
| `CowProtocol.RunInv` | sys/memory/page_fault_handler.c:218-274 | Every state of every run without those steps satisfies it. |
| `CowProtocol.CowSafety` | sys/memory/page_fault_handler.c:108-156 | In every such run from boot a frame some page may write has no other page, a user frame has at least as many references as pages, and with two or more it is flagged. |
| `CowProtocol.StepView` | sys/memory/page_fault_handler.c:218-274 | No step but a page loaded over the table window, not even one that robs a frame, changes what a process sees in a page, unless the process stores there, gives it up or has it loaded. |
| `CowProtocol.RunKeepsPage` | sys/memory/page_fault_handler.c:218-274 | Over whole runs without the steps of `StepInv`, what a process sees in a page stays until it stores there, gives it up or has it loaded. |
| `CowProtocol.ForkThenRun` | sys/memory/page_table_helper.c:402-421 | Parent and child each keep the memory as of the fork, whatever the other one writes. |
| `CowProtocol.LeftoverSeen` | sys/memory/page_fault_handler.c:87-99 | A byte stored by one process is seen by another in a page it gets later, the frame having been released in between. |
| `CowCounts.StepExact` | sys/memory/page_table_helper.c:383-394 | Exact reference counts stay exact in every step, except exactly what a failing fork does to a page and a page mapped over one that is there. |
| `CowCounts.ShareInexact` | sys/memory/page_table_helper.c:341-364 | What a failing fork does to a page leaves its frame with exactly one reference too many, and every other frame exact. |
| `CowCounts.UnmappingRegions` | sys/memory/mm_struct.c:382-389 | A page may leave its region if and only if it is not present. |
| `CowCounts.StepRegions` | sys/memory/mm_struct.c:341-389 | Pages stay within their regions, with no more rights than these grant, in every step but exactly that one and a page loaded outside its region or with other rights. |
| `CowCounts.RunTidy` | sys/memory/page_fault_handler.c:218-274 | Runs without those steps keep counts exact and pages in their regions. |
| `CowCounts.CountsExact` | sys/memory/page_fault_handler.c:108-156 | So from boot: a user frame's count is the number of pages mapped to it, and every page lies in a region that grants what its entry does. |
| `CowRegions.StepRegion` | sys/memory/mm_struct.c:341-446 | What every step does to the region of every page of every process: a forked child has its parent's, exec starts with none, mapping and unmapping change one page's, and no other step changes any. |
| `CowRegions.ChildServed` | sys/memory/mm_struct.c:428-446 | A child can do at once what its parent could: an access that the parent's region permits faults at most once in the child, whether or not the parent had the page. |
| `CowRegions.MappingServed` | sys/memory/mm_struct.c:412-426 | So can a process in a region it has just mapped at user addresses, with the protection it asked for. |
| `CowOutside.OutsideAddresses` | sys/memory/page_fault_handler.c:226-230 | The addresses at which a process may have no region are those of the table window and those of slot 511 below start_kernel. |
| `CowOutside.LowerHalf` | sys/memory/mm_struct.c:284-303 | Every address of the lower half is a user address. |
| `CowOutside.WindowFault` | sys/memory/page_fault_handler.c:23-34 | In every state in order: after mmap over the window's root page, the first user read there is resolved and gives slot 256 of the root the rights of the region. |
| `CowOutside.WindowOpened` | sys/memory/page_fault_handler.c:203-216 | Then the processor's walk leads user code to the root itself, writable if the region is. |
| `CowOutside.WindowOpenedInMemory` | sys/memory/page_table_helper.c:215-224 | So it does in the memory that update_curr_page_table leaves at that address. |
| `CowOutside.KernelOpened` | sys/memory/page_fault_handler.c:80-100 | In every state in order: after mmap in slot 511 below the kernel's regions, the first user read there is resolved, and every process has the page with the rights of the region. |
| `CowWitness.FlaggedHalts` | sys/memory/page_fault_handler.c:125-129 | A concrete state in order, with a kernel page whose frame kept its flag, in which a user write stops the machine. |
| `CowWitness.SharedStarves` | sys/memory/page_fault_handler.c:136-145 | A concrete state in order in which a write without a free frame ends the process, and the next one leaves one frame mapped twice and writable. |
| `CowWitness.DirectRobs` | sys/memory/page_fault_handler.c:165-183 | In the same state, with a free frame: a user's write to the page of the map of physical memory that shows the shared frame is resolved, takes a reference and that page, and the next write again leaves the frame mapped twice and writable. |
| `CowWitness.SevenSeen` | sys/memory/page_fault_handler.c:87-99 | A concrete run: store, release, and a fault by which another process sees the byte stored. |
| `CowWitness.WindowRun` | sys/memory/page_fault_handler.c:23-34 | A concrete state, mapping and read by which slot 256 of a root is opened to user code. |
| `CowWitness.LowRun` | sys/memory/page_fault_handler.c:80-100 | A concrete state, mapping and read by which a page of one process is writable for another. |
| `CowStorage.TranslatedIsWalk` | sys/memory/page_table_helper.c:149-287 | What the protocol takes for the processor's answer is that of its walk over memory, for every address of every space, the window included. |
| `CowStorage.NoRegionOutcome` | sys/memory/page_fault_handler.c:56-85 | An access outside every region ends the process if the processor's walk faults, and stops the machine if it does not. |
| `CowStorage.SpaceRepresented` | sys/memory/page_table_helper.c:149-240 | The page-table functions can be called on any space with any free pages. |
| `CowStorage.StepInMemory` | sys/memory/page_fault_handler.c:218-274 | After any step of the protocol one memory still holds the trees of all processes and the kernel's, changed or not. |
| `CowStorage.PageUndisturbed` | sys/memory/page_fault_handler.c:218-274 | No step writes to the words of a process's page, unless it stores through that page, gives it up or has it loaded. |
| `CowStorage.RunInMemory` | sys/memory/page_fault_handler.c:218-274 | In every state of every run one memory holds the trees of all processes and the kernel's. |
| `CowSteps.MappedInSpace` | sys/memory/page_table_helper.c:149-240 | update_curr_page_table on a whole tree rewrites the space's own part or the kernel's, and not a word of the other. |
| `CowSteps.FrameFaultIsMemStep` | sys/memory/page_table_helper.c:149-240 | What update_curr_page_table does for a demanded or copied page, after the frame is filled, is the memory side of that step. |
| `CowSteps.CopiedWords` | sys/memory/page_fault_handler.c:147-155 | After the copy of a shared user page the new frame holds the words of the old one, which keeps them, and the process sees what it saw. |
| `CowSteps.KeptFrameIsMemStep` | sys/memory/page_table_helper.c:215-224 | So it is for every resolved fault that takes no frame. |
| `CowSteps.UnresolvedIsMemStep` | sys/memory/page_fault_handler.c:218-274 | A fault that is not resolved leaves memory alone, as its step allows. |
| `CowSteps.ReleaseIsMemStep` | sys/memory/free_phys_pages.c:269-284 | What v_free_page does to the tables is the memory side of a release. |
| `CowSteps.LoadIsMemStep` | sys/memory/free_phys_pages.c:213-262 | What v_alloc_pages_at_virt does for one page, kernel stacks included, is the memory side of that step. |
| `CowSteps.LoaderIsMemStep` | sys/memory/mm_struct.c:356-374 | So is what do_mmap does for one page: map it writable, fill it, and set its rights. |
| `CowSteps.ForkIsMemStep` | sys/memory/page_table_helper.c:402-421 | So is what cow_fork_page_table does, with the same counts, and the step is possible. |
| `CowSteps.ExecIsMemStep` | sys/memory/page_table_helper.c:54-75 | So is what get_kduplicate_curr_self_ref_PML4 does. |
| `FaultHandler.KernelAddress` | sys/memory/page_fault_handler.c:226-230 | The addresses looked up in the kernel's regions are exactly the kernel pages of the protocol. |
| `FaultHandler.Handler.CheckPageProt` | sys/memory/page_fault_handler.c:23-34 | Error exactly if the entry grants what the region does already; otherwise it does from now on. |
| `FaultHandler.Handler.Cow` | sys/memory/page_fault_handler.c:108-156 | The outcomes by descriptor, flag, count and free frames, with the exact new state for each; without a frame for the copy the process ends and its reference is gone. |
| `FaultHandler.Handler.PagePresentWrite` | sys/memory/page_fault_handler.c:165-194 | State, result and termination are those of the protocol's handler, out of memory included. |
| `FaultHandler.Handler.PagePresentRead` | sys/memory/page_fault_handler.c:203-216 | The same for reads of a present page. |
| `FaultHandler.Handler.PageNotPresent` | sys/memory/page_fault_handler.c:80-100 | The same for absent pages. |
| `FaultHandler.Handler.PageFaultHandler` | sys/memory/page_fault_handler.c:218-274 | The handler as a whole, from address and error code, is the protocol's, for every canonical address. |
| `PhysPages.CanonicalUnique` | sys/memory/free_phys_pages.c:69-171 | A sorted, fully coalesced list is determined by the pages on it. |
| `PhysPages.InsertIs` | sys/memory/free_phys_pages.c:113-168 | Putting a page back keeps the list canonical and adds that page only. |
| `PhysPages.TakeIs` | sys/memory/free_phys_pages.c:78-94 | Taking the front of a run keeps the list canonical and removes those pages only. |
| `PhysPages.FirstFit` | sys/memory/free_phys_pages.c:78-94 | The first run that is long enough starts the lowest free block of that length; if there is none, no such block exists. |
| `PhysPages.PageManager.GetPhysPageDesc` | sys/memory/phys_page_manager2.c:82-96 | The chunk that describes a page, or none exactly if no chunk does. |
| `PhysPages.PageManager.IncRefCountPage` | sys/memory/phys_page_manager2.c:98-108 | One 32-bit count goes up by one modulo 2^32 and is returned as an int; or minus one and no change. |
| `PhysPages.PageManager.DecRefCountPage` | sys/memory/phys_page_manager2.c:110-120 | One 32-bit count goes down by one modulo 2^32 and is returned as an int; or minus one and no change. |
| `PhysPages.PageManager.IncThenDec` | sys/memory/phys_page_manager2.c:98-120 | A reference taken and given back leaves every count as it was, whatever it was. |
| `PhysPages.PageManager.IncRefCountPages` | sys/memory/phys_page_manager2.c:122-135 | Exactly the pages of the range have one reference more, and the results are added up. |
| `PhysPages.IncSumFree` | sys/memory/phys_page_manager2.c:122-135 | For pages without references the sum of the results is their number. |
| `PhysPages.PageManager.AllocPhysPages` | sys/memory/free_phys_pages.c:69-101 | The lowest free block of the length, referenced and off the list, or 0 if there is none; list and counts agree afterwards exactly if page 0 was not the answer. |
| `PhysPages.PageManager.PutBack` | sys/memory/free_phys_pages.c:113-170 | The page is listed, joined to the runs it touches, and the list stays canonical. |
| `PhysPages.PageManager.FreePhysPage` | sys/memory/free_phys_pages.c:103-171 | One reference less, listed with the last one; list and counts agree afterwards if and only if the page has no descriptor or had between 1 and 2^31 references. |
| `PhysPages.PageManager.FreeEach` | sys/memory/free_phys_pages.c:103-171 | A page with n references, freed m times: it is listed exactly if m = n, has n - m references, no other page changes, and list and counts agree all the while. |
| `PhysPages.PageManager.InitFreePhysPageManager` | sys/memory/free_phys_pages.c:14-67 | The list holds exactly the pages without references, and is canonical if and only if no two chunks meet between free pages. |
| `PhysPages.ScanChunk` | sys/memory/free_phys_pages.c:24-63 | The maximal free runs of one chunk, in order. |
| `PhysPages.PageManager.AllocThenFree` | sys/memory/free_phys_pages.c:69-171 | Allocating and freeing page by page in any order restores the same list and counts. |
| `PhysPages.PageManager.PageZeroLost` | sys/memory/free_phys_pages.c:83-98 | Two free pages from page 0 on: asking for one returns 0 and breaks the agreement. |
| `PhysPages.PageManager.FreedWhileFree` | sys/memory/free_phys_pages.c:103-111 | One free page, freed: an error, and a listed page with a count. |
| `PhysPages.PageManager.SeamLeft` | sys/memory/free_phys_pages.c:56-64 | Two chunks that meet: the list has two runs that touch. |
| `VmaList.InsertIs` | sys/memory/mm_struct.c:55-128 | Where a region fits between its neighbours it meets no region at all, and inserting it there keeps the list sorted. |
| `VmaList.InsertedHolds` | sys/memory/mm_struct.c:136-215 | Inserting adds the region as it was given, bounds, protection, flags and limit, and keeps every other. |
| `VmaList.MemoryMap.AddVmaGrowable` | sys/memory/mm_struct.c:136-215 | Succeeds if and only if the interval is not empty and meets no region; then it is inserted in order, whatever the record around the head holds. |
| `VmaList.MemoryMap.FindVma` | sys/memory/mm_struct.c:259-271 | The first region that ends above the address, or the head. |
| `VmaList.MemoryMap.FindVmaIntersection` | sys/memory/mm_struct.c:273-282 | When some region ends above the start, true exactly if one meets the interval; otherwise exactly if the record around the head starts below its end. |
| `VmaList.MemoryMap.GetUnmappedArea` | sys/memory/mm_struct.c:284-303 | The lowest address from the hint on with length + 1 free bytes. |
| `VmaList.LowestBefore` | sys/memory/mm_struct.c:284-303 | The lowest block from the hint on ends by a limit if and only if some block does. |
| `VmaList.MemoryMap.MmapGrowable` | sys/memory/mm_struct.c:412-426 | Succeeds if and only if the length is positive and such a block ends within 64 bits; it takes the lowest and keeps the list sorted. The answer lies in the lower half if and only if there is room there from the hint on. |
| `VmaList.MemoryMap.Munmap` | sys/memory/mm_struct.c:382-389 | The region around the address goes and no other; an address in a gap leaves the list alone. |
| `VmaList.MemoryMap.MmapThenMunmap` | sys/memory/mm_struct.c:382-426 | munmap undoes mmap. |
| `VmaList.MemoryMap.GrowVmaDown` | sys/memory/mm_struct.c:539-571 | Grows by exactly one page if and only if the region may grow down, the address lies in the page below, the limit is not reached and that page does not clash; the list stays sorted if and only if there is a page below or nothing was done. |
| `VmaList.MemoryMap.GrowVmaUp` | sys/memory/mm_struct.c:505-537 | The same upwards. |
| `VmaList.GrowsDownMeans` | sys/memory/mm_struct.c:539-571 | For a region of whole pages: the flag is set, the address lies in the page below, that page meets no region, and the region has fewer pages than its limit; one page less still if the address is the lowest of that page. |
| `VmaList.GrowsUpMeans` | sys/memory/mm_struct.c:505-537 | The same upwards, without the exception; above the last region the record around the head decides. |
| `VmaList.GrowWithin` | sys/memory/mm_struct.c:539-571 | A region of whole pages within its limit stays within it, the limit in bytes fitting 64 bits. |
| `VmaList.MemoryMap.FindRegion` | sys/memory/page_fault_handler.c:232-250 | The region around the faulting address, or its two neighbours. |
| `VmaList.MemoryMap.RegionForFault` | sys/memory/page_fault_handler.c:232-271 | The region that holds the address; or else the region below if it may grow up to it, or else the region above if it may grow down to it, grown by one page; none, and no change, if and only if there is no such region. It covers the address if it is a page away from both ends of the address space, and the list stays sorted if and only if there was room where it grew. |
| `VmaList.AnswerServed` | sys/memory/page_fault_handler.c:232-271 | That determines the answer and the new list: no two answers meet it. |
| `VmaList.MemoryMap.Faults` | sys/memory/page_fault_handler.c:232-271 | Over any sequence of faults the list stays sorted and every region within its limit, all regions lying clear of the ends of the address space. A fault is served if and only if its address is held or a neighbour may grow to it by then, if and only if it is held afterwards; and what is held stays held. |
| `VmaList.MemoryMap.CopyVmas` | sys/memory/mm_struct.c:428-446 | The child's regions are the parent's, in order. |
| `Kmalloc.ByteInOneBlock` | sys/memory/kmalloc.c:35-94 | Blocks, headers included, tile the arena: every byte lies in exactly one. |
| `Kmalloc.TakenOk` | sys/memory/kmalloc.c:58-94 | Handing out keeps the tiling and a sorted list without touching blocks; the block has between n and n + 16 bytes and no block in use changes. |
| `Kmalloc.FreedOk` | sys/memory/kmalloc.c:161-210 | Freeing with both joins keeps the tiling and a sorted list without touching blocks, and no other block in use changes; its bytes are `FreedBytes`. |
| `Kmalloc.ByteFree` | sys/memory/kmalloc.c:35-94 | A byte is free if and only if it is one of the arena in no block in use. |
| `Kmalloc.TakenBytes` | sys/memory/kmalloc.c:58-94 | Handing out a block takes exactly its bytes from the free ones. |
| `Kmalloc.FreedBytes` | sys/memory/kmalloc.c:161-210 | Freeing a block gives exactly its bytes back. |
| `Kmalloc.TakenFreed` | sys/memory/kmalloc.c:58-210 | Freeing what was just handed out restores all blocks and the list, split or whole. |
| `Kmalloc.CalledInOrder` | sys/memory/kmalloc.c:44-211 | A call leaves tiling, free list and links in order if and only if it is no free or the block freed has a free one above it or an empty link; no other block in use changes. |
| `Kmalloc.RunOk` | sys/memory/kmalloc.c:44-211 | Over any run of calls, every state has the arena tiled, free blocks apart and the linked list exactly that of the free blocks, if and only if every block freed had a free one above it or an empty link. |
| `Kmalloc.RunKeepsBlock` | sys/memory/kmalloc.c:44-211 | In such a run a block in use stays where it is, keeps its size and is not handed out again before it is freed. |
| `Kmalloc.RunLosesNothing` | sys/memory/kmalloc.c:44-211 | Over such a run the blocks in use are exactly those handed out and not yet freed, with at least the size asked for, and every byte of the arena outside them is free. |
| `Kmalloc.InsertLinked` | sys/memory/kmalloc.c:188-210 | The links in the headers give the list with the block put in if and only if a free block follows or the stale link is empty. |
| `Kmalloc.FreedStored` | sys/memory/kmalloc.c:156-211 | With both joins done the headers hold exactly the free list under the same condition, and hold every block's size regardless. |
| `Kmalloc.TopFreeRejoins` | sys/memory/kmalloc.c:188-210 | While the block at the end of the arena is free, freeing any block is fine. |
| `Kmalloc.Allocator.InitStaticPages` | sys/memory/kmalloc.c:35-42 | One free block that fills the arena. |
| `Kmalloc.Allocator.Kmalloc` | sys/memory/kmalloc.c:44-94 | First fit; 0 exactly for 0 bytes or when no free block is large enough; otherwise exactly the block's bytes are no longer free, headers and list stay right, and the state is the one of the run. |
| `Kmalloc.Allocator.KmallocList` | sys/memory/kmalloc.c:55-94 | On whatever list the links give: the first block that is large enough, and exactly which headers change. |
| `Kmalloc.Allocator.Kfree` | sys/memory/kmalloc.c:156-211 | Exactly the block's bytes are free as well, and it is joined to what it touches; the linked list is that of the free blocks if and only if one lies above or the stale link is empty. |
| `Kmalloc.Allocator.MallocThenFree` | sys/memory/kmalloc.c:44-211 | kmalloc followed by kfree restores blocks and list and leaves the linked list right. |
| `Kmalloc.Allocator.StaleLink` | sys/memory/kmalloc.c:163-166 | A run of six calls from the initial arena after which the links go on to a block in use. |
| `Kmalloc.Allocator.StaleReuse` | sys/memory/kmalloc.c:55-94 | After that run the next call hands out a block that is in use. |
| `Tasks.YieldedInv` | sys/scheduler/scheduler.c:49-60 | A yield keeps rings, count, PIDs and tree in order and leaves nobody terminated and uncleaned. |
| `Tasks.CleanedInv` | sys/scheduler/scheduler.c:163-172 | Cleaning up frees exactly the PID of the process that goes. |
| `Tasks.WokenUpInv` | sys/scheduler/scheduler.c:131-145 | A wakeup keeps all that in order. |
| `Tasks.TickInv` | sys/scheduler/scheduler.c:147-157 | So does a timer tick, and no timed-out sleeper is left behind. |
| `Tasks.WaitingInv` | sys/scheduler/scheduler.c:95-107 | So does going to sleep on a descriptor. |
| `Tasks.DozingInv` | sys/scheduler/scheduler.c:109-119 | So does going to sleep on the timer. |
| `Tasks.BereftTree` | sys/scheduler/pcb.c:310-335 | After an exit every parent left is alive and lists its child once, and the children of the one that went have none. |
| `Tasks.ExitingInv` | sys/scheduler/scheduler.c:62-91 | Exit keeps rings, count, PIDs and tree in order. |
| `Tasks.NextPid` | sys/scheduler/pcb.c:24-37 | The least PID that is free, or minus one. |
| `Tasks.ForkedChild` | sys/scheduler/pcb.c:199-308 | A fork that succeeds makes a task at the head of the run ring with the least free PID, the last child of its parent, which is the only task it changes. |
| `Tasks.ForkFailed` | sys/scheduler/pcb.c:199-308 | A fork that fails leaves rings and tasks as they were, but takes the least free PID unless it failed before, and leaves the child's name among its parent's children if it got that far. |
| `Tasks.ForkedInv` | sys/scheduler/pcb.c:199-308 | Fork keeps everything in order if and only if it succeeds below the process limit with a free PID, or fails before it took or could take one. |
| `SchedRuns.BootedInv` | sys/scheduler/cooperative_scheduler.c:8-13 | The state the boot code leaves is in order. |
| `SchedRuns.BootTurns` | sys/scheduler/cooperative_scheduler.c:8-13 | From there the daemon runs first, then the shell, then the daemon. |
| `SchedRuns.StepInv` | sys/scheduler/scheduler.c:49-183 | Every call keeps it in order and leaves nobody terminated and uncleaned. |
| `SchedRuns.StepPossible` | sys/scheduler/scheduler.c:19-40 | There always is a current process and a next one to run. |
| `SchedRuns.SchedulerSafety` | sys/scheduler/scheduler.c:49-183 | In every state reachable from boot each process is on exactly one ring and counted, the daemon is runnable, the PID table holds exactly the PIDs in use, all distinct, and the process tree is in order. |
| `SchedRuns.SleepsOn` | sys/scheduler/scheduler.c:109-157 | Whatever else happens, a timed sleeper's remaining time goes down by one per tick and it stays asleep. |
| `SchedRuns.SleepsExactly` | sys/scheduler/scheduler.c:109-157 | After a sleep of n > 0 ticks the process is runnable with the n-th tick and not before. |
| `SchedRuns.StepWaits` | sys/scheduler/scheduler.c:62-161 | A sleeper on a descriptor is made runnable by exactly the calls that wake it: a wakeup of the descriptor, or the exit of a process with a parent whose PID it is, or, if nobody waits for that, whose parent's; over all other calls it sleeps on. |
| `SchedRuns.SleepsUntilWoken` | sys/scheduler/scheduler.c:95-145 | After a sleep on a descriptor the process stays on the wait ring over any run in which nobody wakes it, and the next call makes it runnable if and only if that does. |
| `SchedRuns.WokenUpOrder` | sys/scheduler/scheduler.c:121-145 | Of two sleepers woken together the one nearer to the head of the wait ring, where sleepers are put, stands nearer to the head of the run ring. |
| `SchedRuns.StepFamily` | sys/scheduler/pcb.c:199-335 | What every call does to every other process in the tree: its PID is its own; it loses its parent with the parent's exit, learns the PID of a child that exits and lists it no more, and lists the child it forks; nothing else changes parents, children or what a wait returns. |
| `SchedRuns.ExitReported` | sys/scheduler/scheduler.c:62-91 | After the exit of a process with a parent, whoever waited for its PID is runnable, the parent holds that PID as what its wait returns, and has that child no more. |
| `SchedRuns.StepMoves` | sys/scheduler/scheduler.c:49-60 | One call moves a waiting process back by the insertions at the head and forward by its yield; at the head, the yield makes it current. |
| `SchedRuns.Position` | sys/scheduler/scheduler.c:49-183 | Until its turn a process stands at its first position plus insertions less yields. |
| `SchedRuns.TurnComes` | sys/scheduler/scheduler.c:49-183 | A process at position i becomes current with yield number i + 1 + k, k processes having been put at the head before, and with no other. |
| `Scheduler.Scheduler.constructor` | sys/scheduler/cooperative_scheduler.c:8-13 | The boot code reaches the state `Booted`. |
| `Scheduler.Scheduler.GetNextPid` | sys/scheduler/pcb.c:24-37 | The loop finds the least free PID and marks it. |
| `Scheduler.Scheduler.CleanupTerminated` | sys/scheduler/scheduler.c:163-172 | One terminated process forgotten, its PID free. |
| `Scheduler.Scheduler.SysYield` | sys/scheduler/scheduler.c:49-60 | The run ring rotated by one, then a cleanup. |
| `Scheduler.Scheduler.WakeRing` | sys/scheduler/scheduler.c:121-145 | Collecting and then waking from the back gives the matching sleepers in order followed by the old run ring; the others keep their order. |
| `Scheduler.Scheduler.SysWakeup` | sys/scheduler/scheduler.c:159-161 | The same on the wait ring, with the number woken. |
| `Scheduler.Scheduler.SysWakeupTimer` | sys/scheduler/scheduler.c:147-157 | One tick of every timed sleeper, those at 0 woken in order. |
| `Scheduler.Scheduler.SysSleep` | sys/scheduler/scheduler.c:95-107 | The current process waits on the descriptor and the next one runs; until when is `SleepsUntilWoken`. |
| `Scheduler.Scheduler.SysSleepTimer` | sys/scheduler/scheduler.c:109-119 | Minus one and no change for no time; otherwise the current process sleeps and the next one runs. |
| `Scheduler.Scheduler.RemoveParentInfoFromChildren` | sys/scheduler/pcb.c:326-335 | Exactly the listed children lose their parent. |
| `Scheduler.Scheduler.HandleWakeupOnExit` | sys/scheduler/scheduler.c:62-79 | Those waiting for the PID wake, or if there are none those waiting for the parent's; then the tree is left. |
| `Scheduler.Scheduler.SysExit` | sys/scheduler/scheduler.c:81-91 | The current process goes, with all that follows from it, and the next one runs. |
| `Scheduler.Scheduler.AddToTaskList` | sys/scheduler/scheduler.c:174-183 | Queued at the head and counted, or minus one exactly at the limit. |
| `Scheduler.Scheduler.SysFork` | sys/scheduler/pcb.c:199-308 | PID, tree and run ring of the child, with every point at which memory may run out; the scheduler is in order afterwards under exactly that condition. |
| `ListRing.RingUnique` | include/sys/list.h:12-15 | The links determine the entries. |
| `ListRing.ListAddBetween` | include/sys/list.h:26-31 | Four assignments insert an entry at a place of the sequence. |
| `ListRing.ListAdd` | include/sys/list.h:41-43 | A new first entry. |
| `ListRing.ListAddTail` | include/sys/list.h:53-55 | A new last entry. |
| `ListRing.ListDel` | include/sys/list.h:64-77 | One entry out of the sequence, its own links cleared. |
| `ListRing.ListEmpty` | include/sys/list.h:84-87 | True exactly without entries. |
| `ListRing.ListForEach` | include/sys/list.h:95-96 | Every entry once, in order. |
| `ListRing.MoveFirstToTail` | sys/scheduler/scheduler.c:53-55 | Deletion and insertion at the tail rotate the sequence by one. |
| `ListRing.AddThenDel` | include/sys/list.h:26-77 | Removing what was inserted restores the sequence. |
| `TaskRings.MoveToHead` | sys/scheduler/scheduler.c:121-124 | An entry moved from one ring to the head of another: both are rings again and have no entry in common. |
| `TaskRings.Rings.Current` | sys/scheduler/scheduler.c:29-40 | The entry at the tail of the run ring, or none. |
| `TaskRings.Rings.Yield` | sys/scheduler/scheduler.c:53-55 | The run ring rotated by one; the four rings stay rings without a common entry, as in all that follow. |
| `TaskRings.Rings.Sleep` | sys/scheduler/scheduler.c:96-99 | The current entry to the head of the wait ring. |
| `TaskRings.Rings.SleepTimer` | sys/scheduler/scheduler.c:113-116 | The current entry to the head of the timer ring. |
| `TaskRings.Rings.Exit` | sys/scheduler/scheduler.c:82-86 | The current entry to the head of the terminated ring. |
| `TaskRings.Rings.Wake` | sys/scheduler/scheduler.c:121-124 | A waiting entry to the head of the run ring. |
| `TaskRings.Rings.WakeTimed` | sys/scheduler/scheduler.c:121-124 | A timed sleeper's entry to the head of the run ring. |
| `TaskRings.Rings.Cleanup` | sys/scheduler/scheduler.c:163-166 | The first terminated entry off the rings. |
| `TaskRings.Rings.Add` | sys/scheduler/scheduler.c:174-180 | A new entry at the head of the run ring. |
| `TaskRings.YieldShows` | sys/scheduler/scheduler.c:49-60 | Rings that hold the entries of the scheduler's queues hold them again after a yield and the cleanup, the queues being those of the scheduler's yield. |
| `TaskRings.SleepShows` | sys/scheduler/scheduler.c:95-99 | The same for a sleep up to its yield. |
| `TaskRings.SleepTimerShows` | sys/scheduler/scheduler.c:109-116 | The same for a timed sleep. |
| `TaskRings.ExitShows` | sys/scheduler/scheduler.c:81-86 | The same for the ring part of an exit. |
| `TaskRings.WakeShows` | sys/scheduler/scheduler.c:121-145 | Waking the matching sleepers one by one from the back is the scheduler's wakeup. |
| `TaskRings.WakeTimedShows` | sys/scheduler/scheduler.c:121-157 | The same on the timer ring. |
| `TaskRings.AddShows` | sys/scheduler/scheduler.c:174-180 | The same for a new task with an entry of its own. |

## Left out

- UpdatePageTableIdmap: needs enough free pages for the missing tables; a failed page allocation is linked as page 0, and what that makes of page 0 is not modelled.
- UpdateCurrPageTable: the same.
- TableBelow: the same, for one level.
- WindowTableBelow: the same, for one level.
- GetKduplicateCurrSelfRefPml4: needs one free page for the root, for the same reason.
- CowForkPageTable: needs one free page for the root, for the same reason.
- HandlePossible: a fault that finds a free frame finds the pages for missing tables too, for the same reason.
- IncRefCountPages: the sum is not cut to 32 bits.
- AllocPhysPages: memory for the list nodes is taken to be there; so in the region list and in the child's region copy.
- FreePhysPage: the same for the node of a new run.
- InitFreePhysPageManager: the same for every node.
- Munmap: some region has to end above the address, or the record around the list head is read as one; the loop that releases pages steps the wrong way (sys/memory/mm_struct.c:396) and is not modelled.
- Faults: regions have limits that keep them away from the ends of the address space; without one a region grows until `RegionForFault` says the list breaks.
- Kmalloc: the growth of the arena by fresh pages after boot (sys/memory/kmalloc.c:97-145) and the panic message; writes of clients outside their own payload are not modelled.
- Kfree: only for blocks in use; freeing twice is a caller's error the code does not look for.
- WakeRing: at most 20 matching sleepers, the size of the table on the stack (sys/scheduler/scheduler.c:133).
- SysWakeup: the same.
- SysWakeupTimer: the same.
- HandleWakeupOnExit: the same.
- SysExit: the same; and the daemon never exits or sleeps, as the run ring must not become empty.
- SysSleep: not for the daemon.
- SysSleepTimer: not for the daemon.
- SchedulerSafety: the wait descriptor of a new control block, which nothing initialises, is not that of an elapsed timer.
- PageFaultHandler: regions are kept by page (finding and growing one in the list is `RegionForFault`), those of different protection do not share a page, protections are made of the R/W, U/S and NX bits, there is a current task, supervisor writes obey the read-only bit, and counts do not reach 2^32.
- UpdateCurrWindow: for `phys` 0; what mapping a page there does is stated on the tree (`WindowBreaks`), as the new page's words become a table.
- BootInv: runs start with a root of create_kernel_pgtbl (sys/memory/setup_kernel_pgtbl.c:24-64), which all user processes come from; the first root (sys/memory/setup_kernel_memory.c:211-216) maps two device pages for user code, and no user code runs under it.
- CanForkSpace: forks into pages with stale present entries are no step; what they make is `ForkPreservesMeaning`. So for StepInv, RunInv, CowSafety and RunKeepsPage.
- CowSafety: for runs without the steps of `StepInv` that break the invariant, and without such forks.
- RunKeepsPage: the same.
- RunInv: the same.
- KernelPageKilled: for the kernel's regions; the pages of slot 511 below start_kernel are in no region, and `HaltsExactly` covers them.
- StepInv: such forks are no steps, nor are the kernel's own stores through its addresses and through the window, nor the unmapping of kernel pages.
- ForkIsMemStep: for a fork that succeeds; one that fails is stated on the parent's tables (`CowForkPageTable`), and the words it leaves in pages nobody uses are not modelled.
- UnmappingRegions: for the list part of munmap.
- Process exit beyond what it does to counts and rings; it leaves the address space behind, as the code does.
- The accessed and dirty bits the processor sets, and stale translations in the TLB and interrupts in the middle of a call: an entry is in force when written, and each scheduler call is one step.
- Delivery of wait and waitpid to a parent that does not sleep yet: a child may exit before the wait, and descriptors double as PIDs, so nothing is promised; those asleep are woken (`ExitReported`).
- Register and stack switching, system call entry, timers and device drivers: machine code and hardware.
- File systems, ELF loading, the terminal, the C library and the user programs: separate subsystems that only call the ones above.
- Setup of the kernel's own tables at boot (sys/memory/setup_kernel_pgtbl.c): repeated calls of the mapping function; runs start after it.

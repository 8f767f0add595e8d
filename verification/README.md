# Verified model of the kernel's memory stack, scheduler and wait protocols

A Dafny model of how the kernel manages memory and processes, with proofs of what it keeps.

- **Lists.** `IntrusiveList` models the circular lists of `datastructures.h` as `next`/`prev`
  arrays and proves that they stand for disjoint sequences (`ListSpec`).
- **Buddy allocator.** `PagePool` gives the frame array and free lists as a value with the
  operations on it; `BuddyLaws`, `BuddyInit`, `BuddyRuns` and `BuddyDrain` prove what they
  keep; `BuddyAllocator` is the code as it updates frames and links, proved to compute those
  operations. The region starts at an unaligned page R, and MAX_ORDER (18 in the kernel) and R
  are parameters with MAX_ORDER < R <= 2^MAX_ORDER. `PageOwner` and `Memprofiler` read it.
- **Slab allocator.** `SlabSpec`, `SlabLaws`, `SlabRuns`, `SlabAddresses` and the class in `SlabAllocator`, on
  top of the buddy allocator and with its own linked lists. `SlabWitness` is a run that ends in
  a failure.
- **Address spaces.** `PageTree`, `Cow` and `CowRefinement` treat page tables as trees and
  prove that copy-on-write fork refines a fork that copies everything; `CowWitness` has runs in
  which a page is lost and permissions are gained. `Mapping` and `MapRegions` prove what the
  mapping loops do to translations and permissions. `PageMemory`, `CloneSteps`, `TableSteps`,
  `MapProgress` and `SpaceSteps` relate tables in memory to trees, and `TableMemory` and
  `AddressSpaces` are the code as it overwrites descriptors, proved to perform exactly those
  steps. `AllocatorCalls` says which calls of the page allocator each operation makes, in the
  code's order, and `TableMemory` logs those it makes; `CowOverBuddy` and `CowOnBuddy` put these calls on the buddy allocator, and
  `KernelMemory` runs processes and the slab layer on one frame array.
- **Processes.** `SchedulerSpec`, `SchedulerLaws` and `Scheduler`, `Mutex`, `KeyboardRing`, and `PriorityQueue`
  with `SleepTimer` in `SleepQueue.dfy`; `WaitQueues` runs them together. One core runs and
  exceptions mask interrupts, so each kernel entry is one step.

The translation format is that of section D8.3 (VMSAv8-64 descriptor formats) of Arm DDI 0487.

## How the parts fit

Each imperative class is proved against functions on values (`Model()` gives the value), and
the lemmas are about those functions. Choices of the allocator are arguments of the operations
on values, so what is proved holds for whatever page is picked. Addresses are in pages except
where a byte address is the point (slab objects, faults).

## Where the code and the obvious story differ

- A tail of a block that was never split has its tail mark in `state` and not in `flags`
  (`paging.c:293`); tail flags are claimed for live blocks only.
- An absorbed head keeps a free state (`paging.c:111-115`); `EqualOrderIsHead` covers it.
- A new slab clears 8 of its 16 bitmap bytes (`kmalloc.c:86`). What the others hold is an
  argument of the operations; in the 32-byte class such stale bits make objects unavailable
  until freed, which `YieldIff` accounts for.
- `userfault.c:118` converts an address that is virtual already; the intended frame is read.
- A fault on a mapped read-only page takes a page that nobody frees (`userfault.c:31-38`):
  `LeaksCounted`, with `PageLeaks` as a run.
- A page made copy-on-write comes back writable (`userfault.c:127`), and a page mapped without
  MAP_READ becomes readable (`paging.c:356`): contents are kept, permissions only as
  `ForkKeepsPermissionsIff` and `ForkKeepsReadingIff` say.
- The product in a sleep request wraps at 2^64 (`timer.c:90`): `DeadlineExactIff`, and
  `LongSleepEndsAtOnce` for one of 5.1 hours.
- A sleeper beyond the 64th is forgotten (`SixtyFifthLost`).
- A failed attempt on a mutex overwrites its owner (`mutex.c:6,27`): `OwnerHoldsIff`.
- `update_mapping` has no return statement on success (`mmap.c:372-373`).
- `scheduler_init` leaves `pid` and `waiting_on` of idle's block as the allocator gave them
  (`scheduler.c:72-80`), and the scheduler reads both: `SchedulerSafetyIff`.
- The comment at `scheduler.c:113-119` promises round robin; `OnlyTwoTakeTurns` says what
  happens instead, and `SomebodyStarves` is a run.
- `tests/README.md:147-161` lists slab failures that `kmalloc.c` no longer has; the code is
  followed.

## Model

| member | source | states |
|---|---|---|
| IntrusiveList.AddRefines | src/kernel/include/utils/datastructures.h:29-34 | the four pointer writes of list_add turn circular, pairwise disjoint lists into the same lists with the node at the front of list k |
| IntrusiveList.RemoveRefines | src/kernel/include/utils/datastructures.h:36-43 | the writes of list_remove, which is not told the list, delete exactly that node from whichever list holds it and leave it linked to itself |
| IntrusiveList.ListHeap.Add | src/kernel/include/utils/datastructures.h:29-34 | in place: the lists become Push(old, k, x), stay well formed, and no other unlinked node is disturbed |
| IntrusiveList.ListHeap.Remove | src/kernel/include/utils/datastructures.h:36-43 | in place: the lists become Delete(old, x); removing a self-linked node is a no-op; x ends self-linked |
| IntrusiveList.ListHeap.Unlinked | src/kernel/include/utils/datastructures.h:44-46 | on a node: true exactly when it is on no list |
| IntrusiveList.ListHeap.Empty | src/kernel/include/utils/datastructures.h:44-46 | true exactly when the sequence the head stands for is empty |
| Bits.FlipIsXor | src/kernel/src/memory/paging.c:92 | the buddy index differs from the page index in bit k and in no other bit |
| Bits.FlipBelow | src/kernel/src/memory/paging.c:92-98 | a buddy index never leaves the frame array |
| PagePool.MergeTestIsSound | src/kernel/src/memory/paging.c:89-124 | for a free head, the equal-order-and-free test, which never looks at the head flag, succeeds exactly when the buddy is a free head of the same order, and then the two are adjacent halves inside the array |
| PagePool.EqualOrderIsHead | src/kernel/src/memory/paging.c:101-104 | a frame whose order field equals a real order and whose state is free is a free head: tails hold a page number above every order, stale states on absorbed heads do no harm |
| PagePool.NoMergeToTop | src/kernel/src/memory/paging.c:119-122 | merging never reaches MAX_ORDER although the recursive call has no order guard |
| PagePool.SplitKeepsValid | src/kernel/src/memory/paging.c:19-53 | one halving keeps the tiling, the tail back-references and the exact free lists |
| PagePool.MergeKeepsValid | src/kernel/src/memory/paging.c:107-119 | so does one merge |
| PagePool.TakeKeepsValid | src/kernel/src/memory/paging.c:56-86 | so does handing out the front block of a list |
| BuddyInit.BootIsValid | src/kernel/src/memory/paging.c:281-335 | laying blocks by the bits of N - R from an unaligned R gives a valid, fully coalesced pool whose free pages are exactly [R, N) |
| BuddyInit.BootShape | src/kernel/src/memory/paging.c:281-300 | at boot list k holds one block exactly when bit k of N - R is set, and it lies behind the blocks of the higher bits |
| BuddyInit.BootTails | src/kernel/src/memory/paging.c:291-297 | at boot a page inside a block reads BUDDY in its state and has no tail flag |
| BuddyLaws.CoalesceUpLaw | src/kernel/src/memory/paging.c:89-124 | from a pool whose only unmerged pair involves the freed block, coalescing ends with no free buddies of one order anywhere, and changes neither live blocks nor free pages |
| BuddyLaws.BuddyFreeLaw | src/kernel/src/memory/paging.c:130-160 | freeing a live block returns exactly its pages and removes exactly it; freeing a non-head or free page changes nothing; coalescing is complete either way |
| BuddyLaws.FreedFirst | src/kernel/src/memory/paging.c:107-160 | the block that ends up holding a freed page is the first of its list, so the first to be reused |
| BuddyLaws.SplitDownLaw | src/kernel/src/memory/paging.c:19-53 | splitting down keeps pages and blocks and leaves the requested order's list starting with the block's own page; unmerged pairs involve only that page |
| BuddyLaws.AllocOrderLaw | src/kernel/src/memory/paging.c:167-187 | allocation fails exactly when no free block is large enough; otherwise it takes the front of the first non-empty list from the requested order up, removes exactly 2^order free pages, adds exactly one live block with one reference, and stays coalesced |
| BuddyLaws.PagesConserved | src/kernel/src/memory/paging.c:56-160 | every managed page is free or in exactly one live block, never both |
| BuddyLaws.LiveBlocksApart | src/kernel/src/memory/paging.c:56-86 | two live blocks share no page |
| BuddyLaws.NoTopBlock | src/kernel/src/memory/paging.c:159 | no block of order MAX_ORDER exists, because R > 0 |
| BuddyRuns.OrderFromIsLeast | src/kernel/src/memory/paging.c:171-173 | the shift loop finds the least order whose block holds the page count |
| BuddyRuns.AllocCoversRequest | src/kernel/src/memory/paging.c:167-187 | a successful allocation covers the request exactly when bytes <= 2^44 - 4096; no smaller block would then; above that the 32-bit page count has wrapped and the block is too small |
| BuddyDrain.HugeRequestGetsOnePage | src/kernel/src/memory/paging.c:169-173 | a request one can make, 2^44 bytes, is answered with a single page |
| BuddyRuns.DropRefLaw | src/kernel/src/memory/paging.c:211-235 | dropping the last reference frees exactly the block, dropping another only lowers the count |
| BuddyRuns.DropRefWraps | src/kernel/src/memory/paging.c:226-234 | a drop at zero wraps the 32-bit count and frees nothing |
| BuddyRuns.DropRefIgnoresTails | src/kernel/src/memory/paging.c:217-224 | reserved frames and non-heads are left alone |
| BuddyRuns.SetOwnerLaw | src/kernel/src/memory/paging.c:238-248 | relabelling any page of a live block relabels that block only, and moves no page |
| BuddyRuns.RunsFromBoot | src/kernel/src/memory/paging.c:19-335 | over every run of allocate, free, share, drop and relabel from boot, the tiling, the exact lists and complete coalescing hold |
| BuddyDrain.ExhaustionIsExact | tests/unit/test_buddy_invariants.c:230-280 | from boot exactly N - R single-page requests succeed, the next fails, and every block then has order 0 |
| BuddyDrain.RunsKeepAligned | src/kernel/src/memory/paging.c:19-187 | once every block is aligned to its size, every later run keeps it so |
| BuddyDrain.IntervalInBlock | tests/unit/test_buddy_invariants.c:263-280 | in a drained pool every aligned interval of the region lies in one free block |
| BuddyDrain.DrainedShape | tests/unit/test_buddy_invariants.c:263-280 | in a drained pool the blocks are exactly the maximal aligned intervals of the region |
| BuddyDrain.LargestDrainedBlock | tests/unit/test_buddy_invariants.c:263-280 | the largest free block of a drained pool has order floor(log2(N - R)), and one exists |
| BuddyDrain.FullDrain | tests/unit/test_buddy_invariants.c:263-280 | shatter the region from boot, run any operations at all, free everything: the pool is the unique maximal aligned tiling again |
| BuddyAllocator.BuddyHeap.constructor | src/kernel/src/memory/paging.c:311-335 | initialises the frame array, the lists and the blocks to the booted pool |
| BuddyAllocator.BuddyHeap.InitializeBuddyAllocator | src/kernel/src/memory/paging.c:281-300 | the loop over orders, in place, computes Boot |
| BuddyAllocator.BuddyHeap.SplitDown | src/kernel/src/memory/paging.c:19-53 | the recursion on linked lists and frames computes PagePool.SplitDown |
| BuddyAllocator.BuddyHeap.AllocAndReturn | src/kernel/src/memory/paging.c:56-86 | unlinks the front block and writes its head and tails |
| BuddyAllocator.BuddyHeap.CoalesceUp | src/kernel/src/memory/paging.c:89-124 | the recursive merge on linked lists and frames computes PagePool.CoalesceUp |
| BuddyAllocator.BuddyHeap.FreeBlock | src/kernel/src/memory/paging.c:130-160 | buddy_free in place computes PagePool.BuddyFree, including both early returns |
| BuddyAllocator.BuddyHeap.AllocBytes | src/kernel/src/memory/paging.c:167-187 | buddy_alloc in place computes BuddyRuns.BuddyAlloc, with its 32-bit page count and the search over orders; on failure nothing changes |
| BuddyAllocator.BuddyHeap.TakeFrom | src/kernel/src/memory/paging.c:177-186 | the search over the lists from the requested order up computes PagePool.AllocOrder; on failure nothing changes |
| BuddyAllocator.BuddyHeap.DecrementRef | src/kernel/src/memory/paging.c:211-235 | computes DropRef, with the C return values -2, -1 and the 32-bit count |
| BuddyAllocator.BuddyHeap.SetPageOwner | src/kernel/src/memory/paging.c:238-248 | computes SetOwner through the tail's back-reference, on any page; on a page of a live block the pool stays valid |
| BuddyAllocator.BuddyHeap.GetPageOwner | src/kernel/src/memory/paging.c:250-260 | reads OwnerOf |
| BuddyAllocator.BuddyHeap.FindHead | src/kernel/src/memory/paging.c:262-279 | reads HeadFromPage |
| PageOwner.LookupsFindBlock | src/kernel/src/memory/paging.c:250-279 | from any page of a live block the owner and head lookups find that block |
| PageOwner.FreeOfFreePage | src/kernel/src/memory/paging.c:130-147 | freeing any free page, head or tail, changes nothing |
| PageOwner.RunsKeepLabels | src/kernel/src/memory/paging.c:19-248 | over every run of the allocator's calls the slab label stays on first pages of blocks only |
| PageOwner.SlabOwnerMeansLive | src/kernel/src/memory/paging.c:250-260 | with labels so placed, a page whose owner reads as slab lies in a live slab block |
| PageOwner.SlabPagesAreLive | src/kernel/src/memory/paging.c:250-279 | after any run from boot a page's owner reads as slab exactly when its head is a live block of the slab layer, and then the head lookup finds that block and no page of it is free |
| Memprofiler.PercentFree | src/kernel/src/memory/memprofiler.c:60-75 | the walk over a moving block pointer lands exactly on the end of the array, counts exactly the free pages, and totals all frames |
| SlabSpec.ClassIsLeast | src/kernel/src/memory/kmalloc.c:62-65 | the class is the least power of two, at least 32, that holds the request |
| SlabSpec.Geometry | src/kernel/src/memory/kmalloc.c:82-88 | the objects start at the least multiple of their size that leaves room for the header and fill the rest of the block exactly |
| SlabSpec.SlabTable | src/kernel/src/memory/kmalloc.c:82-88 | class by class: 126, 63, 31, 15, 7, 7 and 7 objects, in blocks of order 0, 0, 0, 0, 0, 1 and 2 |
| SlabLaws.YieldIff | src/kernel/src/memory/kmalloc.c:40-57 | a slab yields an object exactly when inuse plus stale bits is below total; stale bits exist in the 32-byte class only |
| SlabLaws.KmallocLaw | src/kernel/src/memory/kmalloc.c:59-107 | an allocation that succeeds grants one object or block that was not granted before, of the right class and large enough, and removes none; it keeps the slab invariants, and a null result changes nothing |
| SlabLaws.KmallocFailsIff | src/kernel/src/memory/kmalloc.c:59-107 | null exactly on a request above 2^30 bytes, on a large one for which no free block is big enough, or on a small one whose first partial slab is filled by objects out and stale bits; panic exactly when there is no partial slab and no free block for one; classes 64 to 2048 never return null |
| SlabWitness.NullWithFreePages | src/kernel/src/memory/kmalloc.c:85-98 | a run from boot after which a 32-byte request returns null although pages are free |
| SlabLaws.SlabFreeLaw | src/kernel/src/memory/kmalloc.c:109-150 | freeing an object out removes exactly that object and keeps the lists exact, returning an emptied slab to the buddy |
| SlabLaws.SlabFreeSafeIff | src/kernel/src/memory/kmalloc.c:123-149 | freeing is safe (the slab invariants hold and no other object is lost) exactly when the bit is clear or belongs to an object that is out; on a stale bit it is not |
| SlabWitness.StaleFreeUnsafe | src/kernel/src/memory/kmalloc.c:85-88 | a run from boot after which freeing an address kfree accepts, the object of a stale bit, is not safe |
| SlabLaws.PoolSwap | src/kernel/src/memory/kmalloc.c:59-107 | buddy operations by others that leave slab blocks alone keep the slab invariants |
| SlabRuns.NeverOverlap | src/kernel/src/memory/kmalloc.c:59-107 | the byte ranges of two outstanding grants never overlap |
| SlabRuns.InsideBlock | src/kernel/src/memory/kmalloc.c:52 | an object lies inside its slab's block and after its header |
| SlabRuns.PagesHeld | src/kernel/src/memory/kmalloc.c:59-107 | no byte of an outstanding grant is on a free or reserved page, and the lookups kfree makes on it find its block |
| SlabRuns.FreeableIff | src/kernel/src/memory/kmalloc.c:109-127 | the addresses on which kfree is defined here are all but those inside a slab's header, which index outside the bitmap |
| SlabRuns.KfreeObject | src/kernel/src/memory/kmalloc.c:152-174 | kfree of an object's address frees exactly that object |
| SlabRuns.KfreeWhole | src/kernel/src/memory/kmalloc.c:152-174 | kfree of a whole block returns exactly its pages |
| SlabRuns.StepOutstanding | src/kernel/src/memory/kmalloc.c:59-174 | a free ends exactly the grant freed; an allocation ends none |
| SlabRuns.RunsGood | src/kernel/src/memory/kmalloc.c:59-174 | every run of kmalloc and kfree keeps the slab and buddy invariants |
| SlabRuns.LiveObjectSafety | src/kernel/src/memory/kmalloc.c:40-174 | after any run from boot any two live grants are disjoint, inside their blocks, outside the slab header and on no free or reserved page |
| SlabRuns.NothingLeaks | src/kernel/src/memory/kmalloc.c:142-149 | when all objects are freed every cache list is empty and there is no slab; with no whole blocks out either, every page of the region is free |
| SlabAddresses.ObjectAligned | tests/unit/test_slab.c:177-187 | every object is aligned to its size |
| SlabAddresses.KmallocPicks | src/kernel/src/memory/kmalloc.c:40-107 | an object comes from the first partial slab of its class, at the lowest clear bit, and the buddy allocator is not asked; with no partial slab it is the first object of a new slab |
| SlabAddresses.PageKinds | src/kernel/src/memory/paging.c:250-260 | get_page_owner reads reserved exactly below R; a page from R on is free or in one live block, whose owner it reads; a free page never reads slab |
| SlabAddresses.KfreeLaw | src/kernel/src/memory/kmalloc.c:151-174 | kfree panics exactly on an address of reserved memory other than null; null, a free page and a later page of a block change nothing; the first page of a block frees it |
| SlabAddresses.KfreeInside | src/kernel/src/memory/kmalloc.c:109-149 | any address inside an object frees exactly that object; if its bit is clear nothing happens, so freeing twice is harmless while the slab exists |
| SlabAddresses.FullSlabReturns | src/kernel/src/memory/kmalloc.c:131-136 | freeing an object of a full slab and asking for one of its class gives the same address back, with the same objects out |
| SlabAllocator.KernelHeap.AddrFromSlab | src/kernel/src/memory/kmalloc.c:40-57 | the bitmap scan finds, sets and counts the first clear bit |
| SlabAllocator.KernelHeap.SlabAlloc | src/kernel/src/memory/kmalloc.c:13-29 | takes order + 1 pages and labels them as slab pages; fails exactly when no block is large enough |
| SlabAllocator.KernelHeap.Kmalloc | src/kernel/src/memory/kmalloc.c:59-107 | in place, computes SlabSpec.Kmalloc in every branch |
| SlabAllocator.KernelHeap.KmallocPages | src/kernel/src/memory/kmalloc.c:69-76 | the whole-page branch, in place |
| SlabAllocator.KernelHeap.KmallocObject | src/kernel/src/memory/kmalloc.c:79-106 | the object branch, in place, growing the cache when it has no partial slab |
| SlabAllocator.KernelHeap.constructor | src/kernel/src/memory/kmalloc.c:30-38 | every list of every cache starts empty |
| SlabAllocator.KernelHeap.Relink | src/kernel/src/memory/kmalloc.c:101-104 | list_remove and list_add between the partial and full lists of a cache, on the linked nodes |
| SlabAllocator.KernelHeap.SlabFree | src/kernel/src/memory/kmalloc.c:109-150 | from the address: head lookup, item index, and then in place SlabSpec.SlabFree |
| SlabAllocator.KernelHeap.FreeObject | src/kernel/src/memory/kmalloc.c:126-149 | in place, on linked lists, computes SlabSpec.SlabFree for any bit, with the 16-bit count |
| SlabAllocator.KernelHeap.Kfree | src/kernel/src/memory/kmalloc.c:152-174 | in place, computes SlabSpec.Kfree for all four owners |
| PageTree.TwoLookups | src/kernel/src/memory/paging.c:342-365 | two virtual pages on one frame are counted as two references |
| PageTree.MarkLookup | src/kernel/src/memory/paging.c:355-356 | marking turns every leaf into a read-only copy-on-write leaf on the same frame and changes no other translation |
| PageTree.CopyLookup | src/kernel/src/memory/paging.c:342-365 | a copy built on other table pages maps what the original maps |
| PageTree.InsertCounts | src/kernel/src/memory/mmap.c:158-223 | adding a page adds one reference to it, if the address was unmapped, and uses exactly the missing tables |
| PageTree.InsertLookup | src/kernel/src/memory/mmap.c:158-223 | after adding a page the address maps to it, unless it was mapped already, and no other address changes |
| Cow.ForkKeepsInv | src/kernel/src/memory/paging.c:342-394 | fork keeps refcount = number of mappings for every managed page, tables in use once, and writable pages mapped once |
| Cow.FaultKeepsInv | src/kernel/src/system/userfault.c:93-143 | so does the copy-on-write fault |
| Cow.FaultKeepsView | src/kernel/src/system/userfault.c:93-143 | the fault is invisible: every process reads what it read before |
| Cow.FaultCount | src/kernel/src/system/userfault.c:122-135 | a store takes no fault on a writable page, one on a copy-on-write page with one reference, two on a shared one |
| Cow.WriteLaw | src/kernel/src/system/userfault.c:93-143 | a retried user store changes one byte of one page of one process, in no other process's view, or nothing if the page is neither writable nor copy-on-write |
| Cow.ReapTreeLaw | src/kernel/src/memory/paging.c:396-411 | teardown drops, for every frame, exactly as many references as the tree maps or uses it, freeing it exactly when that was all of them |
| Cow.ReapKeepsInv | src/kernel/src/memory/paging.c:396-411 | exit keeps the invariant |
| Cow.LazyMapInvIff | src/kernel/src/system/userfault.c:22-45 | lazy mapping keeps every page accounted for exactly when the address was unmapped; on a mapped address the page taken is leaked |
| Cow.MapFaultKeepsInv | src/kernel/src/system/userfault.c:22-45 | the handler's mapping keeps the invariant on every address it is called for, once the page it leaks on a mapped one is counted as held |
| CowWitness.PageLeaks | src/kernel/src/system/userfault.c:30-38 | a run after which a managed page is not free, mapped nowhere and no table: a fault on a mapped read-only page lost it |
| Cow.WriteKeepsRights | src/kernel/src/system/userfault.c:122-135 | a store changes nobody's right to write any page, its own included |
| Cow.ForkRights | src/kernel/src/memory/paging.c:355-356 | after fork the two processes can write exactly what the parent had mapped; nobody else's rights change |
| Cow.WriteKeepsReads | src/kernel/src/system/userfault.c:122-135 | a store changes nobody's right to read any page |
| Cow.ForkReads | src/kernel/src/memory/paging.c:355-356 | after fork the two processes can read exactly what the parent had mapped; nobody else's rights change |
| Cow.ForkThenReap | src/kernel/src/memory/paging.c:342-411 | fork followed by exit of the child restores the exact set of free pages, every used page's refcount and every view |
| CowRefinement.StepAgrees | src/kernel/src/memory/paging.c:342-411 | each step keeps agreement, in contents and in what may be read and written, between the kernel and a machine whose fork copies all memory and which decides by itself whether a store lands |
| CowRefinement.CowRefinesEager | src/kernel/src/memory/paging.c:342-411 | over every run of spawn, fork, store, handled fault and exit, every process reads through its own table exactly what it would had each fork copied all memory, its stores land exactly where they land there, and every page stays accounted for |
| CowRefinement.CowRefinesEagerFromBoot | src/kernel/src/memory/paging.c:342-411 | the same, from a machine with no processes |
| CowRefinement.CowRefinesPlain | src/kernel/src/memory/paging.c:342-411 | when all mappings are writable the copying machine needs no permissions: fork copies contents and every store to a mapped page lands |
| CowRefinement.CowRefinesPlainFromBoot | src/kernel/src/memory/paging.c:342-411 | the same, from a machine with no processes |
| CowRefinement.LeaksCounted | src/kernel/src/system/userfault.c:22-45 | over every run the pages lost are exactly one for each fault answered on a mapped address |
| CowRefinement.ForkKeepsPermissionsIff | src/kernel/src/system/userfault.c:126-128 | fork keeps which pages can be written exactly when every mapped page of the parent was writable or copy-on-write; a read-only page becomes writable |
| CowWitness.ForkGrants | src/kernel/src/system/userfault.c:126-128 | a run in which a page the process could not write becomes writable by its own fork |
| CowRefinement.ForkKeepsReadingIff | src/kernel/src/memory/paging.c:355-356 | fork keeps which pages can be read exactly when no mapped page of the parent was hidden from it; a hidden page becomes readable |
| CowWitness.ForkReveals | src/kernel/src/memory/paging.c:355-356 | a run in which a page mapped without the right to read it becomes readable by fork |
| CowOverBuddy.AllocIsTake | src/kernel/src/memory/paging.c:167-187 | a single-page allocation succeeds exactly when a page is free, and is the Take step |
| CowOverBuddy.DropRefIsDrop | src/kernel/src/memory/paging.c:211-235 | decrement_ref on the frame array is the Drop step, for managed and reserved pages |
| CowOverBuddy.ShareIsPlus | src/kernel/src/memory/paging.c:360-361 | the refcount increment of a clone is one reference more |
| CowOnBuddy.TouchesBacked | src/kernel/src/memory/paging.c:167-235 | any sequence of single-page allocations, shared and dropped references keeps the frame array in step with the address spaces' accounts, as long as each reference is on a page in use |
| CowOnBuddy.ReapIsDrops | src/kernel/src/memory/paging.c:396-411 | teardown is exactly its sequence of decrement_ref calls |
| CowOnBuddy.RootCounts | src/kernel/src/memory/paging.c:342-394 | the calls a clone makes, in the code's order (a subtree before the table above it, the top table first), take each table's page exactly once and count each leaf exactly once |
| AllocatorCalls.OnePageFork | src/kernel/src/memory/paging.c:342-394 | the calls for a process with one mapped page, in order: the top table, the lowest table, the count of the page, then the two tables above |
| CowOnBuddy.StepBacked | src/kernel/src/memory/paging.c:342-411 | each operation on address spaces, taking the pages buddy_alloc returns in the order of the code's calls, keeps the frame array in step and leaves the slab layer's blocks alone |
| KernelMemory.EventKeeps | src/kernel/src/memory/kmalloc.c:59-174 | process operations and kernel calls of kmalloc and kfree, on one frame array, in any order, keep the slab invariants, the accounting of address spaces and the counts between them |
| KernelMemory.SlabStepLeaves | src/kernel/src/memory/kmalloc.c:59-174 | no call of kmalloc or kfree touches a page that a process uses |
| KernelMemory.PagesByMalloc | src/kernel/src/memory/kmalloc.c:69-76 | a block of any order taken straight from buddy_alloc is what kmalloc of its size takes |
| KernelMemory.MemoryRuns | src/kernel/src/memory/paging.c:167-411 | over every run from boot of processes and kernel together: the pool is valid and coalesced and the slab lists exact; every page a process maps or uses as a table is a live single-page block whose count is the number of its mappings and tables; and every process reads what eager copying would give it |
| KernelMemory.KernelApart | src/kernel/src/memory/kmalloc.c:59-107 | over those runs no byte of a kernel object or kernel block lies on a page that a process maps or uses as a table |
| Mapping.InsertTranslate | src/kernel/src/memory/mmap.c:158-223 | after one loop turn the walker finds the new page at its address, and every other address translates as before |
| Mapping.InsertUses | src/kernel/src/memory/mmap.c:178-196 | only the pages taken join the tree of tables |
| Mapping.MapPagesLaw | src/kernel/src/memory/mmap.c:158-223 | over a whole range: each previously unmapped address translates to its own offset, all others as before |
| Mapping.MapBlocksLaw | src/kernel/src/memory/mmap.c:236-281 | the same for 2 MiB blocks |
| Mapping.PhysOf | src/kernel/src/memory/mmu.c:20-56 | a page, a page in a 2 MiB block and a page in a 1 GiB block: frame, frame plus page in the block, 2^18 times the frame plus page in the block |
| MapRegions.MapRights | src/kernel/src/memory/mmap.c:158-314 | map, by either loop: every address newly mapped has the permissions asked for and no copy-on-write mark, every other address keeps its own |
| MapRegions.MapShape | src/kernel/src/memory/mmap.c:294-314 | an order of 9 or more at a 2 MiB boundary enters blocks, anything else pages, each at its own frame |
| MapRegions.MapTranslates | src/kernel/src/memory/mmap.c:294-314 | map, by either loop: translation of every address |
| MapRegions.UnmappedGetsMappedIff | src/kernel/src/memory/mmap.c:236-281 | an unmapped address of the range becomes mapped exactly when its slot was free: always by pages; by blocks not under an existing level-2 table |
| MapRegions.HolesUnderTable | src/kernel/src/memory/mmap.c:236-281 | such a case: after page 1 has been mapped, mapping the 2 MiB block at 0 leaves all its other pages unmapped |
| MapRegions.MapLoLaw | src/kernel/src/boot/highhalf.c:153-175 | front pages, blocks and tail together translate exactly the requested pages, each at its own offset |
| MapRegions.MapLoRights | src/kernel/src/boot/highhalf.c:153-175 | all of them with the permissions asked for, and no other address changed |
| MapRegions.MapLoShape | src/kernel/src/boot/highhalf.c:153-175 | exactly the whole 2 MiB blocks of the range are entered as blocks, the other pages one by one |
| MapRegions.MapLoRefinesPages | src/kernel/src/boot/highhalf.c:153-175 | map_lo gives the same translation as mapping page by page |
| MapRegions.BlocksAlignedIff | src/kernel/src/boot/highhalf.c:166-173 | the blocks issued are 2 MiB aligned virtually always, physically exactly when the two addresses are congruent |
| MapRegions.UpdateLaw | src/kernel/src/memory/mmap.c:323-373 | update_mapping never changes a translation, even when it stops part-way; the pages done have the new permissions, all others keep theirs, and it stops only at an unmapped page |
| MapRegions.UpdateStopsIff | src/kernel/src/memory/mmap.c:342-373 | update_mapping does every page exactly when every page was mapped |
| PageMemory.SameTree | src/kernel/src/memory/paging.c:342-411 | a tree in memory depends only on the pages it uses |
| PageMemory.StoreEntry | src/kernel/src/memory/mmap.c:178-201 | storing one descriptor replaces that entry of the tree, if the table is used once |
| TableSteps.InsertMemTree | src/kernel/src/memory/mmap.c:158-223 | the walk that links missing tables in memory realises Insert on the tree and touches only its own and the taken pages |
| TableSteps.WalkFinds | src/kernel/src/system/userfault.c:47-91 | the walk by valid bits ends at the leaf Lookup finds |
| TableSteps.StoreAtTree | src/kernel/src/memory/mmap.c:351-366 | overwriting the descriptor found replaces that leaf and nothing else |
| MapProgress.RegionReads | src/kernel/src/memory/mmap.c:294-314 | what translate_va reads after map in memory, and the permissions it passes, for every address |
| MapProgress.RangeReads | src/kernel/src/boot/highhalf.c:153-175 | the same after map_lo |
| TableMemory.PageTables.AllocTable | src/kernel/src/memory/paging.c:194-204 | takes some free page, clears it and is logged as one call of the allocator |
| TableMemory.PageTables.NextTable | src/kernel/src/memory/mmap.c:178-182 | one level down: an existing table, or a fresh cleared one linked in |
| TableMemory.PageTables.MapPages | src/kernel/src/memory/mmap.c:158-223 | the loop in memory computes Mapping.MapPages with exactly the pages it took, and leaves other trees alone |
| TableMemory.PageTables.MapBlocks | src/kernel/src/memory/mmap.c:236-281 | the loop in memory computes Mapping.MapBlocks likewise |
| TableMemory.PageTables.Map | src/kernel/src/memory/mmap.c:294-314 | the choice of loop, in memory |
| TableMemory.PageTables.MapLo | src/kernel/src/boot/highhalf.c:153-175 | the three guarded calls, in memory, compute MapRegions.MapLo |
| TableMemory.PageTables.TranslateVa | src/kernel/src/memory/mmu.c:20-56 | the software walker reads Mapping.Translate, with 1 GiB and 2 MiB blocks and the 36-bit mask |
| TableMemory.PageTables.Walk | src/kernel/src/memory/mmap.c:350-358 | the walk by the valid bits of the upper levels |
| TableMemory.PageTables.UpdateMapping | src/kernel/src/memory/mmap.c:323-373 | refuses misaligned bounds and changes nothing then; otherwise computes MapRegions.Update and fails exactly when a page of the range is unmapped |
| TableMemory.PageTables.UpdatePages | src/kernel/src/memory/mmap.c:329-372 | the loop in memory, including where it stops |
| TableMemory.PageTables.CloneTable | src/kernel/src/memory/paging.c:342-365 | the recursive clone in memory leaves the parent marked, a copy on fresh pages, one reference more per leaf, and every page outside alone; its calls of the allocator are those of AllocatorCalls.CloneTouches in that order |
| TableMemory.PageTables.CloneVirtualMemory | src/kernel/src/memory/paging.c:373-394 | the same from the top-level table, taken first, with the calls of AllocatorCalls.RootTouches |
| TableMemory.PageTables.DecrementRef | src/kernel/src/memory/paging.c:211-235 | the Drop step |
| TableMemory.PageTables.ReapTable | src/kernel/src/memory/paging.c:396-411 | the recursive teardown of tables in memory computes Cow.ReapTree, with the calls of AllocatorCalls.ReapTouches |
| AddressSpaces.AddressSpaces.Spawn | src/kernel/src/system/process.c:58-60 | in memory: a fresh top-level table; agreement with the eager machine is kept |
| AddressSpaces.AddressSpaces.Fork | src/kernel/src/system/process.c:156 | in memory: the clone is Cow.Fork, no other process's tables change, whatever eager machine agreed before agrees after it has copied the parent, and the calls of the allocator are those of AllocatorCalls.Touches in that order |
| AddressSpaces.AddressSpaces.Exit | src/kernel/src/system/scheduler.c:220 | in memory: the teardown is Cow.Reap, with its calls of the allocator in order, and the eager machine still agrees |
| AddressSpaces.AddressSpaces.CheckCow | src/kernel/src/system/userfault.c:47-91 | finds the last-level table exactly when the page is mapped and marked |
| AddressSpaces.AddressSpaces.BreakCow | src/kernel/src/system/userfault.c:105-138 | in memory: the copy, the permission change, the dropped reference and the new address are Cow.Fault, and no process can tell; one page is taken, then one reference dropped |
| AddressSpaces.AddressSpaces.MapFresh | src/kernel/src/system/userfault.c:31-38 | in memory: lazy mapping is Cow.MapFault on every address, mapped or not, and whatever eager machine agreed before agrees after its own step; the page is taken first, then the missing tables from the top down |
| AddressSpaces.AddressSpaces.HandleEl0Fault | src/kernel/src/system/userfault.c:93-143 | each fault is answered by the copy if the page is marked, which no process can see, else by a mapping from the first region that covers the address, else not at all; the invariant is kept in every case |
| AddressSpaces.CheckVma | src/kernel/src/system/userfault.c:22-45 | finds the first region that covers the address, and none exactly when none does |
| SchedulerSpec.GuardUnreachable | src/kernel/src/system/scheduler.c:131-136 | the scheduler is never asked to schedule the current process |
| SchedulerSpec.ScheduleKeeps | src/kernel/src/system/scheduler.c:109-159 | the switch leaves one running process, the current one, and a run queue of exactly the ready ones |
| SchedulerSpec.StepKeeps | src/kernel/src/system/syscalls.c:59-367 | so do tick, fork, sleep, wake, wait and exit |
| SchedulerSpec.SchedulerSafety | src/kernel/src/system/scheduler.c:109-226 | over every run from boot with a clean block for idle: exactly the current process runs, and the run queue holds each ready process other than idle exactly once and nothing else |
| SchedulerSpec.SchedulerSafetyIff | src/kernel/src/system/scheduler.c:66-101 | this holds of every run exactly when the memory given to idle's block, whose pid and waiting_on nobody writes, held pid 0 and a waiting_on that is neither the first process nor WAITING_ALL |
| SchedulerSpec.IdleQueuesItself | src/kernel/src/system/scheduler.c:138-156 | with any other pid, a run of three steps puts idle on the run queue |
| SchedulerSpec.ExitQueuesIdle | src/kernel/src/system/scheduler.c:204-215 | with pid 0 and such a waiting_on, the first process's exit leaves idle running and on the run queue, where the switch does not take it off |
| SchedulerSpec.WaitEnds | src/kernel/src/system/syscalls.c:357-366 | a process that runs again after waiting finds its child terminated, so the wait loop blocks at most once |
| SchedulerLaws.IdleLast | src/kernel/src/system/scheduler.c:109-159 | idle gets the processor only when nobody else is ready; otherwise the front of the queue does, or with an empty queue whoever still runs |
| SchedulerLaws.TickLaw | src/kernel/src/system/scheduler.c:109-159 | with nobody else ready a tick changes nothing; otherwise the front of the queue runs and the old process is first in the queue, unless it is idle |
| SchedulerLaws.ForkLaw | src/kernel/src/system/syscalls.c:289-313 | the child has a fresh pid, the caller as parent, the caller's waiting_on, and is first in the queue; nobody else changes |
| SchedulerLaws.SleepLaw | src/kernel/src/system/scheduler.c:176-187 | the caller is blocked, off the processor and off the queue, and registered exactly if it asked |
| SchedulerLaws.WakeLaw | src/kernel/src/system/scheduler.c:189-193 | the process woken is ready, first in the queue and no longer registered |
| SchedulerLaws.WaitLaw | src/kernel/src/system/syscalls.c:339-367 | for a live child the caller is blocked with waiting_on that child, and the front of the queue runs; otherwise the caller goes on |
| SchedulerLaws.ExitLaw | src/kernel/src/system/scheduler.c:203-226 | the caller is terminated; a parent that waits for it runs next, else the front of the queue or idle |
| SchedulerLaws.StepForgets | src/kernel/src/system/scheduler.c:109-226 | a step leaves a process blocked with nobody to wake it exactly if that process blocked unregistered in it, and never frees one |
| SchedulerLaws.BlockedForAReason | src/kernel/src/system/scheduler.c:109-226 | over every run a blocked process is registered, or awaits a live child, or blocked unregistered; exactly one of these |
| SchedulerLaws.StepWaits | src/kernel/src/system/syscalls.c:357-366 | no step brings a terminated process back, and a waiting parent stays blocked until the step in which its child exits |
| SchedulerLaws.WaitsUntilGone | src/kernel/src/system/syscalls.c:357-366 | whatever happens after waiting for a live child, the caller is current or queued again only when that child is terminated |
| SchedulerLaws.ForkWaitExit | src/kernel/src/system/syscalls.c:289-367 | fork, then wait: the child runs at once; when it exits, after any run, the parent runs next |
| SchedulerSpec.TicksAlternate | src/kernel/src/system/scheduler.c:113-156 | a tick runs the front of the queue and puts the old process in front; a second tick restores the state |
| SchedulerSpec.OnlyTwoTakeTurns | src/kernel/src/system/scheduler.c:113-120 | however many ticks pass, only two processes take turns: the policy is not round robin |
| SchedulerSpec.AllTakeTurnsIff | src/kernel/src/system/scheduler.c:113-120 | by ticks alone every queued process gets its turn exactly when at most one is queued |
| SchedulerSpec.SomebodyStarves | src/kernel/src/system/scheduler.c:113-120 | a run from boot, two forks, after which a queued process never runs by ticks alone |
| Scheduler.ProcessTable.constructor | src/kernel/src/system/scheduler.c:66-101 | the lists and blocks at boot, whatever memory idle's block is given; the state is safe exactly when that memory was clean |
| Scheduler.ProcessTable.Schedule | src/kernel/src/system/scheduler.c:109-159 | on linked run-queue nodes, computes SchedulerSpec.Schedule |
| Scheduler.ProcessTable.Deschedule | src/kernel/src/system/scheduler.c:176-187 | likewise; removing the running process's unlinked node is harmless |
| Scheduler.ProcessTable.Reschedule | src/kernel/src/system/scheduler.c:189-193 | likewise |
| Scheduler.ProcessTable.AddToSchedule | src/kernel/src/system/scheduler.c:195-201 | the new block goes on the list of all processes and on the run queue, by its two nodes |
| Scheduler.ProcessTable.Fork | src/kernel/src/system/syscalls.c:289-313 | computes DoFork in place: the control block is copied and linked on the run queue, the list of all processes and the parent's list of children; these lists stay exactly the processes and the children |
| Scheduler.ProcessTable.Sleep | src/kernel/src/system/syscalls.c:59-64 | computes DoSleep on the linked run queue |
| Scheduler.ProcessTable.Wake | src/kernel/src/synchronization/wait.c:5-9 | computes DoWake on the linked run queue |
| Scheduler.ProcessTable.FindChild | src/kernel/src/system/syscalls.c:346-356 | the walk over the linked list of children finds the process exactly when it is a child of the caller |
| Scheduler.ProcessTable.WaitFor | src/kernel/src/system/syscalls.c:339-367 | computes DoWait in place, up to the first return or block; ECHILD exactly when the caller has no children |
| Scheduler.ProcessTable.Exit | src/kernel/src/system/scheduler.c:203-226 | computes DoExit in place, with the parent woken only if it waits for this process |
| Mutex.AttemptKeeps | src/kernel/src/synchronization/mutex.c:17-49 | an attempt succeeds exactly when nobody holds the mutex; either way it overwrites owner; a failed one puts the caller to sleep at the front of the wait list, and nobody else changes |
| Mutex.ReleaseKeeps | src/kernel/src/synchronization/mutex.c:51-75 | a release leaves nobody holding and wakes and unlinks the front waiter, if any; nobody else changes |
| Mutex.MutexSafety | src/kernel/src/synchronization/mutex.c:17-75 | over every run: at most one holder; when the mutex is free and somebody sleeps, somebody is awake to try it; the wait list is exactly the sleepers |
| Mutex.OwnerHoldsIff | src/kernel/src/synchronization/mutex.c:8-75 | over every run a locked owner word names the holder exactly when the process it names is not on the wait list; it is unlocked exactly when nobody holds |
| Mutex.OwnerNeedNotHold | src/kernel/src/synchronization/mutex.c:8-30 | a run after which owner names a process that does not hold the mutex |
| Mutex.KernelMutex.Acquire | src/kernel/src/synchronization/mutex.c:17-49 | in place, one turn of the loop, the wait entry linked by its own node |
| Mutex.KernelMutex.Unlock | src/kernel/src/synchronization/mutex.c:51-75 | in place, on the linked wait list, and who is woken |
| KeyboardRing.KeyEventLaw | src/kernel/src/drivers/kbd.c:64-77 | an event appends its byte exactly when there is room, overwrites nothing unread, and leaves no reader registered |
| KeyboardRing.ReadLaw | src/kernel/src/filedescriptors/filedescriptors.c:28-63 | a read returns the next bytes in order, as many as there are and as were asked for, across the end of the buffer; an empty pipe blocks and has a reader registered |
| KeyboardRing.ReadsArePrefix | src/kernel/src/filedescriptors/filedescriptors.c:28-63 | for every interleaving of events and reads, what the readers got is a prefix of the accepted bytes, at most 4096 are held, and a registered reader means nothing is held, even as the 64-bit counters wrap |
| KeyboardRing.Pipe.HandleKeyboardEvent | src/kernel/src/drivers/kbd.c:50-77 | in place, the store, the head and the wake-up of all readers |
| KeyboardRing.Pipe.WakeListeners | src/kernel/src/drivers/kbd.c:50-61 | in place, wakes and unlinks every reader, front first, on the linked reader list |
| KeyboardRing.Pipe.PipeRead | src/kernel/src/filedescriptors/filedescriptors.c:28-63 | in place, one pass of the wait loop, the reader's entry linked by its own node, and the two copies |
| WaitQueues.GuardsHold | src/kernel/src/synchronization/mutex.c:17-75 | whoever attempts or releases the mutex, sleeps or is woken by the timer meets what the separate machines ask of him |
| WaitQueues.NextKeeps | src/kernel/src/system/syscalls.c:59-367 | every system call and interrupt keeps the scheduler's invariant, those of mutex, pipe and timer, and the exact match between them |
| WaitQueues.WaitersAreTheQueues | src/kernel/src/synchronization/wait.c:5-9 | over every run from boot of scheduler, mutex, pipe and timer together: every process woken was blocked and registered, and the registered processes are exactly those on the mutex's wait list, the pipe's reader list or the sleep queue, each on exactly one of them |
| WaitQueues.NextForgets | src/kernel/src/filedescriptors/filedescriptors.c:36-47 | an event leaves its caller blocked for ever exactly if it reads an empty pipe that has a reader, or sleeps when 64 processes sleep |
| WaitQueues.BlockedAreHeld | src/kernel/src/filedescriptors/filedescriptors.c:36-47 | over every run from boot whoever is blocked is on the mutex's wait list, the pipe's reader list or the sleep queue, or awaits a live child, or made one of those two calls |
| PriorityQueue.RootIsLeast | src/kernel/src/utils/datastructures/pq.c:34-36 | the root of the heap is its minimum |
| PriorityQueue.PopShape | src/kernel/src/utils/datastructures/pq.c:27-29 | swapping the root out and shrinking leaves only the root out of place and removes exactly the minimum |
| PriorityQueue.Heap.Swim | src/kernel/src/utils/datastructures/pq.c:58-66 | restores heap order, keeping the multiset |
| PriorityQueue.Heap.Sink | src/kernel/src/utils/datastructures/pq.c:38-56 | restores heap order, keeping the multiset |
| PriorityQueue.Heap.Add | src/kernel/src/utils/datastructures/pq.c:15-20 | adds exactly the element, or nothing when full |
| PriorityQueue.Heap.Pop | src/kernel/src/utils/datastructures/pq.c:22-32 | removes and returns a node of least priority, or a zero node from an empty queue |
| PriorityQueue.Heap.Peek | src/kernel/src/utils/datastructures/pq.c:34-36 | reads a node of least priority |
| SleepTimer.DeadlineExactIff | src/kernel/src/utils/timer.c:90 | the deadline is ns / 1000 ticks from now exactly when neither the product nor the sum wraps 64 bits |
| SleepTimer.LongSleepEndsAtOnce | src/kernel/src/utils/timer.c:90 | a request for five hours and seven minutes is due at once, whenever it is made |
| SleepTimer.RunLaw | src/kernel/src/utils/timer.c:52-101 | over every run: the timer is armed, at the least deadline, exactly when somebody sleeps, and each wake-up answers a request of its own |
| SleepTimer.StepKeeps | src/kernel/src/utils/timer.c:52-69 | a timer event wakes a real sleeper with the least deadline, the one the timer was armed for |
| SleepTimer.NothingLost | src/kernel/src/utils/timer.c:88-101 | with at most 64 processes every request has been answered or is pending |
| SleepTimer.RequestKeptIff | src/kernel/src/utils/datastructures/pq.c:16 | a request is kept exactly when fewer than 64 sleepers are pending |
| SleepTimer.SixtyFifthLost | src/kernel/src/utils/datastructures/pq.c:16 | a run in which the 65th sleeper is neither pending nor ever woken |
| SleepTimer.DrainSorts | src/kernel/src/utils/timer.c:52-69 | left alone, the timer wakes all sleepers in order of deadline |
| SleepTimer.VirtualTimer.NanoSleep | src/kernel/src/utils/timer.c:88-101 | in place, on the heap and the timer register |
| SleepTimer.VirtualTimer.HandleVirtualTimer | src/kernel/src/utils/timer.c:52-69 | in place |

## Left out

- Flushes, barriers, cache and TLB maintenance and the kernel-side `map` calls that only make fresh RAM addressable are no-ops.
- Page tables and address spaces in memory take any free page (`TableMemory.PageTables` keeps a set of free pages); they share no object with the buddy allocator, but the calls they log are those that `CowOnBuddy` and `KernelMemory` make of it.
- Boot-time tables come from a bump allocator without a bound check (`highhalf.c:29-36`); map_lo is modelled with any fresh pages.
- Blocks inside user address spaces: user tables hold level-3 pages only, on single-page frames.
- A descriptor with the valid bit clear is the all-zero word; attributes other than the type bit, address, EL0 access and the copy-on-write bit are not modelled, and flags arrive as an access value.
- Exhaustion during fork or a fault, which the code does not check: enough free pages are required.
- Cow.Fork: reference counts do not wrap at 2^32 upward, unlike the frame array's own count in `RefCount.Plus1`; `KernelMemory` asks that they fit.
- Cow.FaultKeepsView: a view is what lies at a mapped address, whether or not the process may read it.
- KernelMemory.MemoryRuns: an operation on an address space is one step, before and after which the kernel may make any calls; the kernel frees no page of a process, and a kernel allocation that panics ends the run.
- WaitQueues.WaitersAreTheQueues: one mutex and one pipe; a process woken in the loop of mutex_acquire or pipe_read may make another call instead of trying again.
- BuddyAllocator.BuddyHeap.AllocBytes: requests whose page count exceeds 2^31, for which the shift loop at `paging.c:173` does not end.
- SlabAllocator.KernelHeap.SlabAlloc: on no memory the code writes the slab label through page address 0 before it panics; which frame that is depends on an address translation that is not part of this model.
- SlabAllocator.KernelHeap.Kfree: an address inside a slab's header, for which the index computed lies outside the bitmap (`FreeableIff`).
- SlabAllocator.KernelHeap.Kmalloc: list nodes and headers do not lie in the slab's own page here, so what a caller writes past its object is not modelled.
- TableMemory.PageTables.DecrementRef: the pages here are single-page blocks, so the return for a page that is no head is in `BuddyAllocator.BuddyHeap.DecrementRef` only.
- TableMemory.PageTables.UpdateMapping: ranges that end before they start, and table pages under a 2 MiB block, whose descriptor the code would follow as a table.
- Scheduler.ProcessTable.Fork: file descriptors, regions and stacks of the new control block are not modelled.
- Scheduler.ProcessTable.WaitFor: the value returned after waiting, which the code leaves undefined; the loop resumes as another call.
- Mutex.KernelMutex.Acquire: one wait entry per process stands for the entry each call makes on its stack; the spinlock has no effect with interrupts masked on one core.
- BuddyDrain.RunsKeepAligned: blocks laid at boot need not be aligned, so the shape result starts from a shattered region.
- SchedulerSpec.SchedulerSafety: process identifiers are below WAITING_ALL, and the idle loop's own call of scheduler is taken as one step although it runs with interrupts enabled. If idle's block was not clean, `SchedulerSafetyIff` says that the property fails and not what is left of it.
- Mutex.MutexSafety: the wait list starts empty, which `mutex_init` does not establish and `sys_test_mutex` does.
- KeyboardRing.ReadsArePrefix: liveness of several simultaneous readers, of which only the first is registered.
- SleepTimer.RunLaw: only an armed timer fires, and a process that sleeps is not asleep already; time itself is an argument.
- Memprofiler.PercentFree: the counts, not the fixed-point percentage that is printed.
- Fairness and multi-core behaviour: the code provides neither.
- `sys_mmap`, `sys_brk`, ELF loading, file systems, device drivers, device-tree parsing, printing, the trie, and `memset` chunking.

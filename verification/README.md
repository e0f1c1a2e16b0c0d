# The memory manager of Axel, verified

This project models the parts of the Axel kernel that hand out and map memory, and the scrolling text console, and
proves what they promise. It has four pieces.

**Frames.** `BuddySystem` gives the buddy allocator as a transition system on values: record cells, fifteen free lists,
fifteen counters. Its invariant says that block heads tile the managed frames. `BuddyCanon` shows that the free lists
are a canonical form of the set of free frames, `BuddyCorrect`, `BuddyFree` and `BuddyNew` say what each call does,
`BuddyLists` which block is cut and how the lists change, and `BuddyRun` draws the conclusions for whole runs.
`FrameAllocator` is the allocator as the kernel runs it, a class over arrays, with each method tied to the transition it
performs.

**Page tables.** `PageTables` gives physical memory, the processor's walk (section 4.5 of the Intel 64 SDM, volume 3A)
and the tree of tables of an address space. `PageMap`, `PageScan`, `PageOps`, `PageUnmap` and `AddressSpaces` describe
the operations as direct edits of such trees, over frames taken from the allocator. `PageCost` says exactly when a
list of mappings can be made, and otherwise where it stops, why, and what it has taken by then. `RecursiveAddress`
shows that the addresses the kernel computes through the recursive slot lead where a direct walk leads, and
`ActiveTables` is the code itself: a class that only reads and writes through virtual addresses, each method tied to
the direct edit. `PageRun` covers runs of all operations over any number of address spaces, and `Bystanders` shows
which frames no such run writes to.

**Boot.** `BootCarving` is the early allocator and the estimate of how many frame records a region can hold.
`KernelInit` and `KernelBoot` are the boot test and the construction of the kernel's address space, on values and in
place. `BootState` starts them from the tables the boot code leaves behind, `BootOutcome` says exactly which answer they
give, and `MemoryInit` joins all of it, from a region of memory to the kernel's address space.

**Console.** `Console` shows that the character buffer is a window onto the last rows of an unbounded page.

Conventions. An *ordinary* page or path uses no index 511, the slot through which every table refers to itself.
*OrderMatch* is a condition on a call of `free`, read off the state before the call: at each step of the merging
cascade, a buddy that is not used has the order of that step, and no merge happens at order 14. A panic is an outcome
(`Panicked`, `TestPanic`, `InitPanic`, or `false`); methods say nothing about the state after one.

## Findings

- `free` looks only at the state of a buddy, not at its order (`src/memory/buddy_system/allocator.rs:141`). With three
  frames, allocating a pair and giving it straight back already meets a buddy of a smaller order
  (`BuddyRun.PairOfThree`). `BuddyFree.FreeExactly` proves that OrderMatch is exactly what a correct call needs; the
  boot sequence meets it (`BootState.BootReleases`).
- A merge at order 14 indexes a list that does not exist (`src/memory/buddy_system/allocator.rs:138-163`): with 2^15
  frames, allocating half of them and giving them straight back panics (`BuddyRun.TwoOfTop`). OrderMatch excludes it,
  so that no bound on the number of frames is needed.
- Every table maps itself at slot 511 (`src/memory/paging/table.rs:146-148`), so that a page with last index 511 is
  refused as already mapped (`PageMap.MapSelf`), and stops any list of mappings (`PageCost.SelfFails`). A kernel
  linked at 1 MB therefore boots only if it ends at or before 0x1FF000: [0x100000, 0x200000) fails with any number of
  frames, although it is far below 2 MB (`BootOutcome.LinkedKernelExactly`).
- The frame records count as part of the kernel (`src/memory.rs:68`), so that this bound is one on the memory of the
  machine: with records of 40 bytes more than 26112 frames, 102 MB, are too many (`MemoryInit.TooManyFrames`).
- With index 511 above the last level `map` does not notice anything: it writes the frame into a table one level too
  high, where it is taken for a table (`PageMap.MisplacedLeaf`).
- `find_free_entry_index_with` does not restart its answer after a present entry
  (`src/memory/paging/table.rs:105-107`), so that for more than one slot the answer need not start a free run
  (`PageScan.AnswerCanMiss`). `PageScan.AnswerStartsRun` says exactly when it does; at its one call for several slots
  the table is always new.
- `allocate_frames` may violate its own assertion when the region does not end at a page boundary
  (`BootCarving.UnalignedEnd`); `BootCarving.CarvingExactly` says exactly when it holds.
- Pages found below a root slot of 256 or more have addresses that are not canonical. `auto_continuous_map` returns
  such a region although every access to it faults (`ByteTranslation.AutoMapBytes`); `InActivePageTable::new` and
  `with` fault on their own page.
- `map_fitting` panics from 2 MB on (`src/memory/paging/table.rs:265-267`), as `PageOps.MapFittingCorrect` and
  `PageCost.MapFittingExactly` say for every range, and `init` fails for a kernel of that size
  (`BootOutcome.InitAnswers`).
- What fails keeps the frames it took: a search for empty pages (`PageScan.FindEmptyCorrect`), a list of mappings
  (`PageCost.MapAllStops`), the boot test (`PageUnmap.FailedTestCost`).
- With 7 to 9 frames and a sound kernel range `init` reports a missing entry (`src/memory/paging/table.rs:368`), where
  the frames have run out (`BootOutcome.InitAnswers`).

## Model

| member | source | states |
|---|---|---|
| `BuddyRun.RunInvariant` | src/memory/buddy_system/allocator.rs:94-169 | in every state reached from `new` by any sequence of `allocate` and permitted `free` calls: the lists hold exactly the maximal aligned power-of-two free ranges, counters are list lengths, a frame is free exactly when no client holds it, and free plus held frames are all frames |
| `BuddyRun.HistoryIndependent` | src/memory/buddy_system/allocator.rs:94-165 | two reachable states with the same held frames have the same free blocks and counters, whatever the histories |
| `BuddyRun.AllReleased` | src/memory/buddy_system/allocator.rs:30-52 | once everything is released the free blocks are again those `new` built, and counter o is the greedy count of order o |
| `BuddyRun.StepFaithful` | src/memory/buddy_system/allocator.rs:94-165 | each call keeps the invariant, and the live blocks are exactly those the clients hold |
| `BuddyRun.Conserved` | src/memory/buddy_system/allocator.rs:167-169 | `count_free_objs` plus the number of frames in live blocks is the number of managed frames |
| `BuddyRun.PairOfThree` | src/memory/buddy_system/allocator.rs:138-143 | a reachable state with three frames in which giving back the only allocated block violates OrderMatch |
| `BuddyRun.TwoOfTop` | src/memory/buddy_system/allocator.rs:138-163 | a reachable state with 2^15 frames in which giving back the only allocated block panics on the missing list of order 15 |
| `BuddyCanon.CanonicalForm` | src/memory/buddy_system/allocator.rs:133-165 | under the invariant a list holds a block if and only if it is a maximal free range of that order |
| `BuddyCanon.FreeFramesDetermineLists` | src/memory/buddy_system/allocator.rs:133-165 | the set of free frames determines the free blocks as multisets and the counters |
| `BuddyCanon.Cohesion` | src/memory/buddy_system/allocator.rs:133-165 | every aligned free range lies inside one free block |
| `BuddyCorrect.AllocateCorrect` | src/memory/buddy_system/allocator.rs:94-131 | `allocate(r)` fails if and only if r is 15 or more or no aligned run of 2^r frames is wholly free, and then changes nothing; otherwise it hands out such a run, which becomes the one new live block |
| `BuddyLists.AllocateLists` | src/memory/buddy_system/allocator.rs:102-126 | `allocate` cuts the oldest block of the smallest stocked order that is large enough: this list loses its first block, each order in between, all of them empty before, gets the upper half of its size, and no other list changes |
| `BuddyLists.AllocateSmallest` | src/memory/buddy_system/allocator.rs:102-110 | in terms of frames: the block handed out starts a maximal free range, and no maximal range of a smaller sufficient order existed |
| `BuddyLists.LargerRangesStay` | src/memory/buddy_system/allocator.rs:102-110 | while a smaller maximal range can serve the request, every larger aligned free range stays whole |
| `BuddyLists.LargerRequestsUnaffected` | src/memory/buddy_system/allocator.rs:94-131 | ... so that a request of larger order is answered after the call if and only if it was before |
| `BuddyCorrect.SplitNeverBreaks` | src/memory/buddy_system/allocator.rs:113-123 | every half the split loop looks for is managed, so its `break` is never taken |
| `BuddyCorrect.HeadsUnique` | src/memory/buddy_system/allocator.rs:18-60 | the records determine the block heads: any two tilings the invariant allows are equal |
| `BuddySystem.InteriorIrrelevant` | src/memory/buddy_system/allocator.rs:104-116 | order and state cells inside a block may hold anything |
| `BuddyFree.FreeExactly` | src/memory/buddy_system/allocator.rs:133-165 | `free` of a live block gives back that block and nothing else, keeping the invariant, if and only if OrderMatch holds in the state before the call |
| `BuddyLists.FreeLists` | src/memory/buddy_system/allocator.rs:138-163 | under OrderMatch the halves merged with leave their lists, the others keep their order, and the maximal free range around the released block is appended to the list of its order |
| `BuddyLists.FreeClimbs` | src/memory/buddy_system/allocator.rs:138-163 | in any state, OrderMatch or not: the cascade goes up to the first order at which the other half is used or not managed; `free` panics if and only if there is none below 15, and otherwise appends the aligned block of that order around the object |
| `BuddyFree.BuddyIsHead` | src/memory/buddy_system/allocator.rs:71-92 | a managed buddy of an order-i block heads a block of order at most i and is reached by flipping bit i |
| `BuddyFree.MergeSwallows` | src/memory/buddy_system/allocator.rs:138-163 | where OrderMatch fails the cascade panics on list 15 or ends in a block that swallows the range of a smaller head |
| `BuddyNew.NewCorrect` | src/memory/buddy_system/allocator.rs:30-52 | `new` tiles all frames with free blocks whatever the cells held: one block for each bit of the count below order 14 and count / 2^14 blocks of order 14 |
| `BuddyLists.NewLists` | src/memory/buddy_system/allocator.rs:38-51 | the initial lists, in order: the top list holds the multiples of 2^14, and a list below it the one block of its bit behind those of all higher bits |
| `BuddyCount.CountIsFreeFrames` | src/memory/buddy_system/allocator.rs:167-169 | the weighted sum of the counters is the number of free frames |
| `BuddyCount.FreeXorOccupied` | src/memory/buddy_system/allocator.rs:94-165 | a managed frame is free or in a live block, never both |
| `FrameAllocator.BuddyAllocator.constructor` | src/memory/buddy_system/allocator.rs:19-60 | `new` in place on the record cells is the construction on values that NewCorrect and NewLists are about |
| `FrameAllocator.BuddyAllocator.FillBlocks` | src/memory/buddy_system/allocator.rs:38-51 | the inner loop of `new` places the blocks of one order, in place |
| `FrameAllocator.BuddyAllocator.Buddy` | src/memory/buddy_system/allocator.rs:71-92 | the buddy by exclusive or, None above the top order or outside the managed range |
| `FrameAllocator.BuddyAllocator.Allocate` | src/memory/buddy_system/allocator.rs:94-131 | state and answer are those of the transition on values that AllocateCorrect and AllocateLists are about |
| `FrameAllocator.BuddyAllocator.SplitOff` | src/memory/buddy_system/allocator.rs:113-123 | pushes the upper halves between the two orders |
| `FrameAllocator.BuddyAllocator.Free` | src/memory/buddy_system/allocator.rs:133-165 | state and panic are those of the transition FreeExactly, FreeLists and FreeClimbs are about |
| `FrameAllocator.BuddyAllocator.MergeUp` | src/memory/buddy_system/allocator.rs:138-158 | the merging loop ends with the block and the state of the cascade on values |
| `FrameAllocator.BuddyAllocator.CountFreeObjs` | src/memory/buddy_system/allocator.rs:167-169 | answers the number of free frames in every state that satisfies the invariant |
| `FrameAllocator.BuddyAllocator.AllocOne` | src/memory/buddy_system/allocator.rs:173-175 | order-0 allocation, by frame number |
| `FrameAllocator.BuddyAllocator.FreeFrame` | src/memory/buddy_system/allocator.rs:177-183 | `free` of the record of a frame number |
| `FrameAllocator.NumberFrames` | src/memory.rs:72-78 | the record at index i gets number base / 4096 + i |
| `PageEntry.SetFrameAddrIs` | src/memory/paging/entry.rs:39-45 | the masks of `set_frame_addr` amount to address, old low flags, PRESENT |
| `PageEntry.SetWritableIs` | src/memory/paging/entry.rs:30-32 | `set_flags(WRITABLE)` sets bit 1 and nothing else on words without bit 63 |
| `PageEntry.GetFrameAddrIs` | src/memory/paging/entry.rs:47-53 | `get_frame_addr` of a well-formed word is the address of the frame the processor takes from it, or None when it is not present |
| `PageEntry.FlagTests` | src/memory/paging/entry.rs:26-28 | the tests for PRESENT and HUGE_PAGE read bits 0 and 7 |
| `RecursiveAddress.IndexBits` | src/memory/paging/page_index.rs:12-30 | the shifts and masks give the base-512 digits of the page number and the offset |
| `RecursiveAddress.RecursiveWalk` | src/memory/paging/table.rs:118-133 | at every level the address computed for the next table is canonical, page-aligned, and resolved by the processor to the very frame in the followed entry |
| `RecursiveAddress.TableAddressResolves` | src/memory/paging/table.rs:70-70 | the address of the table at any path resolves to the table a direct walk reaches |
| `RecursiveAddress.NextAddressIs` | src/memory/paging/table.rs:121-121 | shift and insertion turn the address of a table into that of the table one step below |
| `RecursiveAddress.VaCanonical` | src/memory/paging/page.rs:16-26 | the sign-extended address of four indices is canonical and has these indices |
| `PageMap.AllocOneCorrect` | src/memory/paging/table.rs:141-141 | a frame for a table is refused exactly when none is free, and otherwise was free and is the only one taken |
| `PageMap.CreateNextCorrect` | src/memory/paging/table.rs:135-159 | `next_level_table_create_mut` keeps all translations and the tree; it fails exactly when a table is missing and no frame is free; a new table is empty but for its self slot |
| `PageMap.DescendCorrect` | src/memory/paging/table.rs:233-237 | the way down creates exactly the missing tables, or fails exactly when fewer frames are free |
| `PageMap.MapCorrect` | src/memory/paging/table.rs:229-250 | each of Ok, AlreadyMapped and NoPageTable if and only if its condition holds; the translation of this page changes only on Ok, no other ordinary page changes, and the cost is the number of missing tables |
| `PageMap.MapSelf` | src/memory/paging/table.rs:146-148 | a page with last index 511 is refused as mapped, even when its table is made by the same call, unless frames run out; the cost is the number of missing tables |
| `PageMap.MapExactly` | src/memory/paging/table.rs:229-250 | the three outcomes, the translations and the cost for any last index |
| `PageMap.MisplacedLeaf` | src/memory/paging/table.rs:232-244 | for a page with index 511 on level 2 the frame is written into the level-2 table as if it were a table, and the pages below this entry, unmapped before, translate to whatever its contents say |
| `PageLink.LinkedLookup` | src/memory/paging/table.rs:142-148 | hanging a new table into a free slot changes no translation |
| `PageLink.LinkedTree` | src/memory/paging/table.rs:142-148 | ... and keeps all tables of the tree different |
| `PageOps.MapAllCorrect` | src/memory/paging/table.rs:273-280 | a list of mappings run up to the first failure maps exactly a prefix: all of it when Ok, on pages that were free and different, everything else unchanged |
| `PageCost.MapAllExactly` | src/memory/paging/table.rs:273-280 | the whole list is mapped if and only if no page has last index 511, the pages are free and different, and the tables lacking for all of them together do not outnumber the free frames; it then takes exactly those |
| `PageCost.MapAllStops` | src/memory/paging/table.rs:273-280 | where a list of mappings stops, for whatever reason: it stops at the first page that is refused (last index 511, mapped already, or earlier in the list) or lacks frames, answers NoPageTable if the frames run out and AlreadyMapped otherwise, and takes the tables for all pages tried, the last one included |
| `PageCost.MapAllAnswers` | src/memory/paging/table.rs:273-280 | each error if and only if its condition on the state before the call holds |
| `PageCost.SelfFails` | src/memory/paging/table.rs:273-280 | a page with last index 511 stops a list wherever it stands |
| `PageCost.MissingIsLacking` | src/memory/paging/table.rs:233-237 | the number of tables `map` creates is the number of prefixes of the path at which no table exists |
| `PageCost.MapNodes` | src/memory/paging/table.rs:135-159 | after a `map` the tables are those from before and those on the way to the page |
| `PageOps.MapFittingCorrect` | src/memory/paging/table.rs:253-282 | from 2 MB on a panic that changes nothing; below, Ok maps the whole range linearly, a failure leaves exactly a prefix, and all other ordinary pages are unchanged |
| `PageCost.MapFittingExactly` | src/memory/paging/table.rs:253-282 | for every range: `map_fitting` succeeds if and only if the range is below 2 MB, none of its pages is mapped or has last index 511, and the tables lacking for all of them do not outnumber the free frames |
| `PageCost.MapFittingStops` | src/memory/paging/table.rs:253-282 | where `map_fitting` stops below 2 MB, with which error, and at what cost |
| `ByteTranslation.MapFittingBytes` | src/memory/paging/table.rs:253-282 | after Ok every byte of the range translates to the byte at the same offset |
| `PageScan.FindFreeEntryIndexWith` | src/memory/paging/table.rs:88-111 | the loop answers Some if and only if slots 1 to 511 contain a long enough free run, and then with the first free slot |
| `PageScan.AnswerStartsRun` | src/memory/paging/table.rs:105-107 | that answer starts such a run if and only if the free slots from the first free one on are enough |
| `PageScan.AnswerCanMiss` | src/memory/paging/table.rs:105-107 | a table and a count of two for which it does not |
| `PageScan.FreshScan` | src/memory/paging/table.rs:88-111 | in a fresh table runs of up to 510 slots are found, and start at slot 1 |
| `PageScan.FindEmptyCorrect` | src/memory/paging/table.rs:326-362 | `find_empty_pages` succeeds if and only if a root slot and three frames are free and at most 510 pages are asked for; it keeps all translations and answers with the first page of three new tables; with a free root slot it takes three frames, or as many as there are, even when it fails, and without one none |
| `PageOps.AutoMapCorrect` | src/memory/paging/table.rs:284-300 | `auto_continuous_map` never panics; it succeeds if and only if a root slot and three frames are free and the order is at most 8, and then maps the block linearly; success or not, it takes three frames or as many as there are, but none without a free root slot |
| `ByteTranslation.AutoMapBytes` | src/memory/paging/table.rs:298-299 | every byte of the answered region translates to the byte of the block at the same offset if and only if the root slot is below 256; above, every access faults |
| `PageUnmap.UnmapCorrect` | src/memory/paging/table.rs:302-319 | `unmap` of a page of a releasable block removes this translation, frees this block, and changes nothing else; an unmapped page is reported and nothing happens |
| `PageUnmap.UnmapAnswers` | src/memory/paging/table.rs:302-319 | for any frame behind the page: NoEntry if and only if the page is unmapped, a panic if and only if the frame is not managed or its release panics |
| `PageUnmap.RoundTripCorrect` | src/memory/paging.rs:98-114 | `runtime_test`: each error if and only if its condition holds; success restores every translation, gives the allocated frame back, and costs the 0 to 3 tables it made |
| `PageUnmap.FailedTestCost` | src/memory/paging.rs:98-111 | a failed test keeps the frame it allocated, and the tables |
| `PageUnmap.TestMapCorrect` | src/memory/paging.rs:100-111 | the state between mapping and unmapping: one new live frame, which is what the page translates to |
| `PageUnmap.TestWrites` | src/memory/paging.rs:107-111 | what the test writes through the page arrives in the frame behind it |
| `AddressSpaces.NewInactiveCorrect` | src/memory/paging/table.rs:412-427 | None if and only if no frame is free; success if and only if four frames and a root slot below 256 are; otherwise a panic. The new root is empty, apart from all tables of the active space, which gains one page |
| `AddressSpaces.OverrideCorrect` | src/memory/paging/table.rs:365-375 | until the closure runs: when it succeeds, what the recursive slot then selects, and that no other entry of either space matters |
| `AddressSpaces.ClosureIsolated` | src/memory/paging/table.rs:378-378 | every frame the closure changes is a table of the inactive space; no table of the active space is touched; the kept page still leads to the active root |
| `AddressSpaces.WithCorrect` | src/memory/paging/table.rs:364-388 | `with` maps a prefix of its list into the inactive space, leaves the active one as it was but for the kept page, and lets the recursive slot select the active root again; every failure by its exact condition |
| `BootOutcome.WithExactly` | src/memory/paging/table.rs:364-388 | `with` succeeds if and only if three frames and a root slot below 256 are free, no page has last index 511, the pages are free and different, and the remaining frames suffice for all lacking tables |
| `BootOutcome.WithStops` | src/memory/paging/table.rs:364-388 | where the closure stops decides what `with` answers, and that three frames and the tables for all pages tried are gone |
| `BootOutcome.WithAnswers` | src/memory/paging/table.rs:364-388 | AlreadyMapped if and only if a page is refused before the frames run out, NoPageTable if and only if the frames run out before |
| `PageRun.StepSafe` | src/memory/paging/table.rs:135-388 | every permitted operation, over any number of address spaces, keeps all of them sound, apart from each other and outside client blocks |
| `PageRun.NeverAliased` | src/memory/paging/table.rs:135-159 | in every state a run reaches, tables at any two places in any address spaces are different frames, and none is free or inside a block a client holds |
| `Bystanders.StepSpares` | src/memory/paging/table.rs:135-388 | no permitted operation writes to a frame that is neither free nor a table, or makes it one |
| `Bystanders.HeldUntouched` | src/memory/paging/table.rs:135-388 | over any run, the frames of a block keep their contents while a client holds it |
| `Bystanders.UnmanagedUntouched` | src/memory/paging/table.rs:135-388 | over any run, a frame outside the allocator that is no table keeps its contents |
| `KernelInit.InitCorrect` | src/memory/paging.rs:57-95 | when no wanted page has index 511 above the last level: if `init` succeeds, an ordinary page is mapped in the new address space if and only if it is a requested frame plus the kernel offset, and then to that frame |
| `KernelInit.FailureKeepsBootSpace` | src/memory/paging.rs:57-95 | an `init` that answers an error leaves the boot address space active, with all its translations |
| `KernelInit.WantedExactly` | src/memory/paging.rs:78-90 | the mappings asked for are those of the requested frames at their offset pages, all of them and no others |
| `SpaceSteps.WantedInOrder` | src/memory/paging.rs:78-87 | the requested frames come in the order of the requests, and one by one within each |
| `ByteTranslation.KernelBytes` | src/memory/paging.rs:78-90 | each requested physical byte appears at its address plus the kernel offset |
| `ByteTranslation.KernelImage` | src/memory/paging.rs:74-90 | after a successful `init` every byte of the kernel appears at its physical address plus the kernel offset |
| `BootState.BootSpace` | src/arch/x86_64/boot.asm:228-238 | the tables the boot code builds, with the low entry cleared, are a sound address space with its recursive slot |
| `BootState.BootKernelHalf` | src/arch/x86_64/boot.asm:232-234 | the first gigabyte appears at the kernel offset, through one huge page |
| `BootState.SecondIsBuddy` | src/memory/buddy_system/allocator.rs:94-131 | the first frame a new allocator hands out has no managed buddy, or the second one is its buddy |
| `BootState.BootReleases` | src/memory/paging.rs:98-114 | with a new allocator OrderMatch holds when the boot test gives its frame back |
| `BootState.BootInit` | src/memory/paging.rs:57-95 | InitCorrect from the real boot state, with nothing assumed about allocator or tables; again no wanted page has index 511 above the last level |
| `BootOutcome.InitExactly` | src/memory/paging.rs:57-95 | when no wanted page has index 511 above the last level: from the boot state `init` succeeds if and only if the kernel is page-aligned, not empty and below 2 MB, no wanted page has last index 511, no frame is requested twice, and there are ten frames and one for each table on the way to a wanted page |
| `BootOutcome.InitAnswers` | src/memory/paging.rs:57-114 | under the same restriction, each answer if and only if its condition holds, for n frames: NoMemory for none; NoPageTable for 1 to 3, or when the tables for the wanted frames run out before one is refused; a panic for 4 to 6, for a range that is empty or not page-aligned, and for a kernel of 2 MB or more once all requests are mapped; NoEntry for 7 to 9; AlreadyMapped when a wanted frame is 511 modulo 512 or wanted before and the frames suffice to find out. A success leaves n less ten and less the tables of the new space |
| `BootOutcome.LinkedKernelExactly` | src/memory/paging.rs:65-90 | a kernel linked at 1 MB, without further requests, boots if and only if it is page-aligned, not empty, ends at or before 0x1FF000, and thirteen frames are there; the condition of every other answer |
| `BootOutcome.NoSelfWanted` | src/memory/paging.rs:78-90 | no wanted page has last index 511 if and only if no requested frame is 511 modulo 512 |
| `MemoryInit.Init` | src/memory.rs:52-82 | up to the kernel heap, from the boot tables and a region of memory: a panic if the assertion about the region fails, and otherwise each answer exactly under the condition InitAnswers gives it, with the frames carved from the region and a kernel that ends behind their records; after a success the kernel address space is active and ten frames and its tables are gone |
| `MemoryInit.NewAllocator` | src/memory.rs:72-80 | numbered records and the allocator `new` builds over them |
| `MemoryInit.LinkedMemory` | src/memory.rs:65-82 | for a kernel linked at 1 MB success means thirteen frames, and kernel and records ending at or before 0x1FF000; the condition of every other answer |
| `MemoryInit.TooManyFrames` | src/memory.rs:97-114 | with 40-byte records more than 26112 frames push the end of a kernel linked at 1 MB beyond 0x1FF000, and the boot answers AlreadyMapped or, from 0x300000 on, panics |
| `BootOutcome.WantedDiffer` | src/memory/paging.rs:78-90 | the wanted frames are all different if and only if no two requests overlap |
| `ActiveTables.ActivePageTable.NextLevelTableAddress` | src/memory/paging/table.rs:118-125 | the address read through the recursive slot, present and not huge |
| `ActiveTables.ActivePageTable.NextLevelTableCreate` | src/memory/paging/table.rs:135-159 | through addresses alone, the edit CreateNextCorrect is about |
| `ActiveTables.ActivePageTable.ClearAllEntries` | src/memory/paging/table.rs:77-81 | all 512 entries of the frame the address leads to, whatever is written on the way |
| `ActiveTables.ActivePageTable.Map` | src/memory/paging/table.rs:229-250 | state and answer are those MapCorrect is about |
| `ActiveTables.ActivePageTable.MapRange` | src/memory/paging/table.rs:272-280 | the loop of `map_fitting` and of the remap requests maps the list of pages up to the first failure |
| `ActiveTables.ActivePageTable.MapFitting` | src/memory/paging/table.rs:253-282 | state and outcome are those MapFittingCorrect is about, the panic included |
| `ActiveTables.ActivePageTable.FindEmptyPages` | src/memory/paging/table.rs:326-362 | state and answer are those FindEmptyCorrect is about |
| `ActiveTables.ActivePageTable.AutoContinuousMap` | src/memory/paging/table.rs:284-300 | state and answer are those AutoMapCorrect is about |
| `ActiveTables.ActivePageTable.Unmap` | src/memory/paging/table.rs:302-319 | state and outcome are those UnmapCorrect is about |
| `ActiveTables.ActivePageTable.KeepPage` | src/memory/paging/table.rs:321-323 | a free page found and mapped to a given frame |
| `ActiveTables.ActivePageTable.NewInactive` | src/memory/paging/table.rs:412-427 | state and outcome are those NewInactiveCorrect is about |
| `ActiveTables.ActivePageTable.BeginWith` | src/memory/paging/table.rs:365-376 | the part of `with` before its closure, as OverrideCorrect describes it |
| `ActiveTables.ActivePageTable.EndWith` | src/memory/paging/table.rs:380-385 | the part after the closure, through the kept page |
| `ActiveTables.ActivePageTable.Switch` | src/memory/paging/table.rs:390-404 | the new root is active and the old one answered |
| `KernelBoot.RuntimeTest` | src/memory/paging.rs:98-114 | state and outcome are those RoundTripCorrect is about |
| `KernelBoot.TestPatternIs` | src/memory/paging.rs:107-111 | the pattern is 1 in each of the 1024 32-bit words of the page |
| `KernelBoot.MapKernel` | src/memory/paging.rs:74-90 | the closure: all requests, then the kernel |
| `KernelBoot.With` | src/memory/paging/table.rs:364-388 | `with` around that closure has the outcome WithCorrect is about |
| `KernelBoot.Init` | src/memory/paging.rs:57-95 | state and outcome of the transition on values, and the kernel address space on success; from the boot state each answer exactly under the condition InitAnswers gives it |
| `BootCarving.AlignUpIsCeiling` | src/memory/address/alignment.rs:10-13 | for every power of two the mask computes the least multiple that is not smaller |
| `BootCarving.AlignDownIsFloor` | src/memory/address/alignment.rs:15-18 | ... and the greatest that is not larger |
| `BootCarving.SecondPassExactly` | src/memory.rs:101-106 | for any region the count is the number of whole pages beside records for all n pages, no less and no more; where the region ends at a page boundary, count and pages of records add up to n |
| `BootCarving.Carving` | src/memory.rs:97-114 | for a page-aligned end and records up to a page, the records, rounded up to a page, and their frames fit into the region |
| `BootCarving.CarvingExactly` | src/memory.rs:110-111 | for any end the assertion holds if and only if the part page of records for all pages exceeds the part page at the end or fits into the records left out |
| `BootCarving.LargeRegionsCarve` | src/memory.rs:110-111 | 40-byte records are safe with any end once records for all pages take 103 pages |
| `BootCarving.UnalignedEnd` | src/memory.rs:110-111 | a region of one page and 4095 bytes for which the assertion fails |
| `BootCarving.EarlyAllocator.AlignAddrBegin` | src/memory/early_allocator.rs:24-26 | the begin moves to the next multiple |
| `BootCarving.EarlyAllocator.Allocate` | src/memory/early_allocator.rs:28-35 | room for the objects, aligned, right after the old begin |
| `BootCarving.EarlyAllocator.AllocateFrames` | src/memory.rs:97-114 | where the records are and how many, in terms of the region alone, and that the assertion holds exactly as CarvingExactly says, always for a page-aligned end |
| `Console.PixelFields` | src/graphic.rs:128-133 | background, foreground and character can be read back from a cell |
| `Console.BlankCell` | src/graphic.rs:156-156 | a blank cell holds the character with code 32 |
| `Console.TopRowIs` | src/graphic.rs:187-200 | the screen starts at the first row, or so that the row of the cursor is the last one on it |
| `Console.CharacterDisplay.ScreenCell` | src/graphic.rs:162-200 | cell by cell: while the page fits the screen shows it from its beginning, and otherwise row r and column c show row |page| / w - (h - 1) + r of it, with the cursor in the bottom row |
| `Console.CharacterDisplay.ClearScreen` | src/graphic.rs:155-160 | every cell is blank; with the cursor at the origin the screen shows the empty page |
| `Console.CharacterDisplay.ScrollUp` | src/graphic.rs:189-199 | the window onto the page moves down one row |
| `Console.CharacterDisplay.PrintChar` | src/graphic.rs:163-200 | from a screen that shows a page, in the sense of ScreenCell, it shows the page with one more character |
| `Console.CharacterDisplay.Print` | src/graphic.rs:162-202 | for every text and every screen of at least one cell, the screen shows the last rows of the page extended by the text, with the cursor at its end |
| `Console.CharacterDisplay.Println` | src/graphic.rs:204-207 | ... by the text and a newline |
| `Console.LineIsCells` | src/graphic.rs:166-171 | a line without newlines is laid out cell by cell, wrapping at the right edge |
| `Console.NewlineStartsRow` | src/graphic.rs:172-177 | a newline fills the rest of the row, at least one cell, with blanks, and the next character starts a row |

## Left out

- Intrusive lists, raw pointers and uninitialised memory: lists are sequences of record indices. Taking a node out of
  a list that does not hold it, which only happens where OrderMatch fails, leaves the modelled list as it is.
- The translation cache and its flushes, access permissions, the accessed and dirty bits: the walk reads memory as it
  is.
- Bit 63 of an entry: the kernel and its boot code never set it, and well-formed words in the model have no bit above
  47.
- `set_frame_addr` followed by `set_flags` on one entry is one write, so that an entry is read once for both.
- Creating a table over a huge page, which the code ends with a failed assertion: operations below a huge page are
  excluded by a precondition.
- Integer width: counters are unbounded integers, as no run can reach 2^64 frames; addresses and the masks on them are
  modelled on 64 bits.
- The closure of `with` is a list of mappings on values, and the closure of `init` in place.
- BuddyRun.StepFaithful: stops a run at a `free` that violates OrderMatch, because from there on the records no longer
  describe blocks.
- PageRun.NeverAliased: clients unmap only pages of blocks they hold and whose release meets OrderMatch; a page whose
  frame is a table of some address space is never unmapped.
- Bystanders.HeldUntouched: runs are those of PageRun; what clients write through their own pages is not part of them.
- KernelInit.InitCorrect: the physical kernel range starts at or before its end; a reversed range fails in the code
  before anything is built. No wanted page has index 511 above the last level: such frames lie in the last 2 MB of a
  gigabyte, in the last of 512 gigabytes, or beyond 127 TB, and mapping one damages the tables, as
  PageMap.MisplacedLeaf says.
- BootState.BootInit: the same two restrictions.
- BootOutcome.InitExactly: the same two restrictions.
- BootOutcome.InitAnswers: the same two restrictions; nothing is said about the state after a panic.
- KernelInit.FailureKeepsBootSpace: the same two restrictions.
- KernelBoot.MapKernel: the second of them.
- KernelBoot.With: the second of them.
- KernelBoot.Init: the same two restrictions.
- MemoryInit.Init: the same for the frames carved from the region; the region lies behind the kernel, in the kernel's
  half of the address space, and is not empty.
- PageMap.MapExactly: the first three indices are not 511, and no huge page is on the way.
- Colours are fixed for a console, and the conversion of colours to numbers is not part of this model.
- `GraphicalDisplay`, the kernel heap, regions of the boot loader, interrupts, processes and the other architectures.

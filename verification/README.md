# Zeronix: a verified model of the kernel's memory managers, scheduler and file system

Zeronix is a small x86_64 kernel. This project models its stateful core in Dafny and proves
what each component keeps over every run:

- **Buddy page allocator** (`PowersOfTwo`, `BuddyGeometry`, `BuddyLists`, `BuddySpec`, `BuddyRegion`,
  `BuddyAreas`, `BuddyAllocator`, `BuddyRefinement`). Page metadata and list heads are arrays updated in
  place; the per-order free lists are `PFN+1` codes threaded through the metadata. The invariant says that the marks describe
  aligned, pairwise disjoint blocks, and that the list of each order holds exactly the free heads of that
  order, with `next` and `prev` inverse to each other. Between two steps of an operation the invariant
  holds around a *hole*, the run of pages in flux. Allocation and release are proved against functions on
  the lists, and the round trip, the absence of mergeable buddies and the conservation of pages are proved
  of those functions. Every run of requests refines an abstract allocator of free lists and live blocks,
  reply by reply.
- **Kernel heap** (`AllocLayout`, `IntrusiveList`, `HeapSpec`, `HeapList`, `KernelHeap`). Headers, links and
  back pointers live in word-addressed memory. The free list is an address-ordered ring whose abstract
  value is a set of spans that neither overlap nor touch; there is only one such set for given bytes, so
  coalescing is canonical. The heap takes its chunks from the verified buddy allocator and needs that
  allocator's alignment and disjointness guarantees.
- **Page mapper** (`PageTables`, `EntryWords`, `PageUpdates`, `PageMapper`, `AddressSpaces`). Tables in
  frames taken from the buddy allocator form a forest with a shared kernel half. The four-level walk and
  the access rights follow sections 4.5 and 4.6 of the Intel SDM, Volume 3A. Over any interleaving of
  mappings and creations, every address space sees at every page the last mapping made through any space
  that shares the top-level slot.
- **All owners together** (`SharedAllocator`). The heap, the page tables and the owners of whole blocks draw
  on one page allocator in any order; every component stays sound, nobody ever shares a page, and user
  pages of different processes are different.
- **Scheduler** (`Scheduler`). Spawn, tick, yield and exit are atomic steps, since interrupts are off inside
  `schedule`. The structural invariant, the permanence of exit and bounded waiting hold over every run.
- **File system, descriptors and program images** (`FsTree`, `RamFs`, `FsRefinement`, `FdTable`,
  `FdRefinement`, `Elf`). The tree refines a prefix-closed map from paths to entries, and the descriptor
  table refines a table of byte streams over that map, both over every run; the image builder and parser
  (System V gABI, chapters 4 and 5) are inverse on every payload.

Four properties one might expect are false of the code. Each has its exact condition and an input:

- *A filled page allocator has no two free buddies.* If the areas fit the metadata, it has none exactly
  when no two areas meet in the middle of an aligned run of clear pages (`BuddyAreas.CoalescedIffNoSeam`);
  `BuddyAllocator.FillTwoTouchingAreas` fills one that has.
- *Freeing what was just allocated restores the heap.* It does exactly when the request was served without
  growing the heap and lost no slack (`KernelHeap.KernelHeap.AllocateThenFree`). A new chunk stays, and a
  remainder of 8 to 32 bytes leaves the accounting for good; `KernelHeap.LoseSixteenBytesFromBoot` is a
  run with both.
- *Every user leaf has the user bit on all levels, in every address space.* A mapping keeps this exactly
  when it is not a user mapping or every other root that shares the path already admits user accesses
  (`PageMapper.ClosedIff`); `AddressSpaces.SharedUserPageCounterexample` is a run from boot after which it
  fails. User pages below the kernel half always keep it (`AddressSpaces.LowPagesNeedNoOne`).
- *A failed rename changes nothing.* It changes the tree exactly when the checks before the removal passed
  and the tree before it had no place for the source (`FsRefinement.RenameLosesIff`);
  `FsRefinement.LoseHome` loses a directory of the initial tree.

Where comment and code differ, the model follows the code: opening with the truncate flag but without the
create flag creates a missing file, and `dup2` copies the offset instead of sharing it.

To verify the whole project: `dafny verify dfyconfig.toml`.

## Model

| member | source | states |
|---|---|---|
| `PowersOfTwo.XorIsBuddy` | src/mem/page/pagealloc.rs:206-206 | On a frame number aligned to order k, exclusive or with `1 << k` is plus or minus 2^k. |
| `PowersOfTwo.BuddyFacts` | src/mem/page/pagealloc.rs:270-282 | The buddy of an aligned block is aligned, taking the buddy twice returns, and the lower of the two is aligned to the next order. |
| `PowersOfTwo.XorCompletes` | src/mem/page/pagealloc.rs:270-282 | The computed buddy is the neighbour that completes the block of the next order. |
| `PowersOfTwo.XorUpperHalf` | src/mem/page/pagealloc.rs:203-206 | When splitting, the computed buddy is always the upper half. |
| `PowersOfTwo.TrailingZerosIsAlignment` | src/mem/page/pagealloc.rs:134-135 | A non-zero address is aligned to exactly the orders up to its trailing zeros. |
| `PowersOfTwo.FloorLog2Facts` | src/mem/page/pagealloc.rs:136-137 | The order taken from the page count is the largest whose block still fits. |
| `PowersOfTwo.ClearLowIsFloor` | src/mem/page/pagealloc.rs:310-315 | Masking the low bits off is rounding down to a multiple of the power of two. |
| `BuddyLists.Encode` | src/mem/page/pagealloc.rs:8-60 | The 32-bit `PFN+1` code of an optional frame number decodes back to it whenever the frame number fits. |
| `BuddyLists.ListPush` | src/mem/page/pagealloc.rs:162-172 | The three writes of a push turn a doubly linked list into the same list with one more node in front. |
| `BuddyLists.ListRemove` | src/mem/page/pagealloc.rs:295-307 | Joining the neighbours of a node takes exactly that node off the list, in the middle and at either end. |
| `BuddyLists.UnlinkOk` | src/mem/page/pagealloc.rs:295-307 | Unlinking a page, as read from its own links, removes it from its list and leaves the lists of all other orders alone. |
| `BuddyLists.ListedIsFreeHead` | src/mem/page/pagealloc.rs:162-172 | Whatever is on the list of an order is marked as a free head of that order. |
| `BuddyGeometry.BlocksDisjoint` | src/mem/page/pagealloc.rs:99-307 | In a consistent state any two blocks, free or live, are aligned, in range and disjoint. |
| `BuddyGeometry.FreePageInOneBlock` | src/mem/page/pagealloc.rs:148-156 | A page marked free lies in exactly one free block, the one its own order names. |
| `BuddyGeometry.WidenHole` | src/mem/page/pagealloc.rs:270-282 | Absorbing a neighbouring block keeps everything outside the merged pages well formed. |
| `BuddyGeometry.MarkShrinksHole` | src/mem/page/pagealloc.rs:207-221 | Marking the top of the pages in flux as one block leaves a well-formed state around the rest. |
| `BuddyRegion.NextBoundary` | src/mem/page/pagealloc.rs:118-124 | The boundary lies above the position, at most at the region end, and no reserved start lies in between. |
| `BuddyRegion.PickOrderFacts` | src/mem/page/pagealloc.rs:134-138 | The chosen order fits the pages, suits the alignment, and the next order would not. |
| `BuddyRegion.NextBlock` | src/mem/page/pagealloc.rs:118-145 | The block carved at an unreserved page is aligned, inside the region, free of reserved bytes, and could not have been larger. |
| `BuddyRegion.CutPage` | src/mem/page/pagealloc.rs:126-131 | A page skipped because less than a page remains before the boundary does hold a reserved byte. |
| `BuddyRegion.SkippedPages` | src/mem/page/pagealloc.rs:105-115 | Every page jumped over at a reserved range holds a reserved byte. |
| `BuddyRegion.CarvedIsCoalesced` | src/mem/page/pagealloc.rs:99-160 | Carving a region into an allocator with no free page leaves no two free buddies. |
| `BuddyAreas.AreaAdded` | src/mem/page/pagealloc.rs:87-95 | Adding one more area makes exactly its clear pages free and leaves the blocks of the other areas as they were. |
| `BuddyAreas.PairIsSeam` | src/mem/page/pagealloc.rs:87-160 | Two free buddies after filling come from two areas that meet between them. |
| `BuddyAreas.RunIsBlock` | src/mem/page/pagealloc.rs:99-160 | An aligned run of clear pages that does not extend to the next order inside its area is carved as exactly one block. |
| `BuddyAreas.CoalescedIffNoSeam` | src/mem/page/pagealloc.rs:69-160 | After filling there are free buddies only where two areas meet in the middle of an aligned clear run, and at every such place if the areas fit. |
| `BuddyAreas.SeamIsAdjacent` | src/mem/page/pagealloc.rs:69-160 | Such a place exists only where one area ends on the page where another begins. |
| `BuddyAreas.SeamExample` | src/mem/page/pagealloc.rs:69-160 | Two one-page areas that meet at page 1 are such a place. |
| `BuddySpec.AllocFreeSet` | src/mem/page/pagealloc.rs:188-226 | Allocation removes one free block and adds exactly the upper halves split off it. |
| `BuddySpec.AllocKeepsCoalesced` | src/mem/page/pagealloc.rs:188-226 | Splitting never leaves two free buddies. |
| `BuddySpec.FreeKeepsCoalesced` | src/mem/page/pagealloc.rs:257-293 | Releasing never leaves two free buddies. |
| `BuddySpec.MergedPlace` | src/mem/page/pagealloc.rs:266-283 | The block finally listed is aligned, not smaller than the released one, and contains it. |
| `BuddySpec.FreeFreeSet` | src/mem/page/pagealloc.rs:257-293 | Releasing adds the merged block and removes only free blocks inside it. |
| `BuddySpec.MergeUndoesSplit` | src/mem/page/pagealloc.rs:203-283 | Merging the kept part back undoes a split of any depth, list by list. |
| `BuddySpec.AllocThenFree` | src/mem/page/pagealloc.rs:188-293 | From any state without mergeable buddies, allocating and freeing the result restores the same set of free blocks. |
| `BuddySpec.FreeRunInOneBlock` | src/mem/page/pagealloc.rs:257-293 | Without mergeable buddies, an aligned run of free pages lies in one free block. |
| `BuddySpec.AllocationConserves` | src/mem/page/pagealloc.rs:188-293 | Allocation, and so release, neither gains nor loses a managed page. |
| `BuddySpec.AllocatedKeepsLive` | src/mem/page/pagealloc.rs:188-226 | An allocation leaves every live block live and makes no page free. |
| `BuddySpec.TookThen` | src/mem/page/pagealloc.rs:188-226 | Page-sized allocations add up: exactly the pages taken went from free to live, none twice. |
| `BuddySpec.SplitIsAllocation` | src/mem/page/pagealloc.rs:198-221 | All the marking of a split amounts to one block going from free to live. |
| `BuddySpec.MergeIsRelease` | src/mem/page/pagealloc.rs:266-292 | All the marking of a merge amounts to one block going from live to free. |
| `BuddyAllocator.BuddyAllocator.constructor` | src/mem/page/pagealloc.rs:69-97 | The new allocator is consistent, has no live block, and its free pages are the whole unreserved pages of the usable areas (all of them when the areas fit the metadata); it has no two free buddies if no two areas meet at a seam, and exactly then when the areas fit. |
| `BuddyAllocator.BuddyAllocator.AddRegion` | src/mem/page/pagealloc.rs:99-160 | Terminates; adds exactly the region's whole pages without a reserved byte, up to where the metadata ends, in blocks that could not have been larger; leaves no mergeable buddies if nothing was free before. |
| `BuddyAllocator.FillTwoTouchingAreas` | src/mem/page/pagealloc.rs:69-97 | An allocator filled from these two areas has two free buddies. |
| `BuddyAllocator.SkipReserved` | src/mem/page/pagealloc.rs:105-115 | Either no reserved range holds the first byte, or every page up to the returned one holds a reserved byte. |
| `BuddyAllocator.ChooseOrder` | src/mem/page/pagealloc.rs:118-138 | At an unreserved page either a reserved range begins inside it, or the chosen block is aligned, clear, inside the region and not extensible. |
| `BuddyAllocator.BuddyAllocator.PushFree` | src/mem/page/pagealloc.rs:162-172 | The page becomes the first of its list; all lists stay well formed and no mark changes. |
| `BuddyAllocator.BuddyAllocator.RemoveFromFree` | src/mem/page/pagealloc.rs:295-307 | Exactly that page leaves its list; all lists stay well formed and no mark changes. |
| `BuddyAllocator.BuddyAllocator.FindFree` | src/mem/page/pagealloc.rs:228-241 | Returns the first listed block that satisfies the predicate, or none if none does. |
| `BuddyAllocator.BuddyAllocator.MarkBlock` | src/mem/page/pagealloc.rs:148-155 | The marking loop makes the pages one block and touches no other page and no list. |
| `BuddyAllocator.BuddyAllocator.SplitDown` | src/mem/page/pagealloc.rs:203-214 | The split loop lists one upper half per order and keeps the invariant around the shrinking rest. |
| `BuddyAllocator.BuddyAllocator.AllocateWhere` | src/mem/page/pagealloc.rs:188-226 | Takes the first acceptable block of the smallest order that has one; the result is an aligned block that was free and is now the only new live block; failure means no acceptable block and no change. |
| `BuddyAllocator.BuddyAllocator.Allocate` | src/mem/page/pagealloc.rs:175-177 | Fails exactly when every list of at least the requested order is empty; otherwise takes the first block of the smallest order that has one. |
| `BuddyAllocator.BuddyAllocator.AllocateBelow` | src/mem/page/pagealloc.rs:180-186 | Succeeds exactly when some aligned run inside a free block ends at or below the limit, and then returns such a run: no block of a smaller order and none earlier on the list could have been taken instead. |
| `BuddyAllocator.NoStartNoRun` | src/mem/page/pagealloc.rs:180-241 | Testing only the start of each free block misses no aligned run below the limit. |
| `BuddyAllocator.BuddyAllocator.MergeUp` | src/mem/page/pagealloc.rs:266-283 | The merge loop absorbs free buddies until the release function's lists are reached, keeping the invariant around the growing block. |
| `BuddyAllocator.BuddyAllocator.Deallocate` | src/mem/page/pagealloc.rs:257-293 | Succeeds exactly on the head of a live block; then that block goes back, merged, and nothing else changes; otherwise no change. |
| `BuddyAllocator.BuddyAllocator.AllocateThenFree` | src/mem/page/pagealloc.rs:175-293 | On the real arrays: an allocation followed by its release restores the set of free blocks and the live blocks. |
| `BuddyRefinement.AllocatedLive` | src/mem/page/pagealloc.rs:215-225 | An allocation adds exactly one block to the map of live blocks, and a release takes exactly that one out. |
| `BuddyRefinement.ChoiceIs` | src/mem/page/pagealloc.rs:196-241 | First fit over the lists, as a recursive search, finds the block the allocator takes. |
| `BuddyRefinement.NoChoice` | src/mem/page/pagealloc.rs:196-241 | The search finds nothing exactly where the allocator fails. |
| `BuddyRefinement.RunOne` | src/mem/page/pagealloc.rs:175-293 | Each request on the real arrays replies, and changes free lists and live blocks, as the abstract allocator does. |
| `BuddyRefinement.Run` | src/mem/page/pagealloc.rs:175-293 | The same for every run of requests with any arguments; all blocks stay aligned and disjoint, the same pages are managed, and no mergeable buddies appear if there were none. |
| `AllocLayout.NormalizeLayout` | src/alloc_layout.rs:16-20 | The normalised layout is valid, at least one byte, and not below the request in size or alignment; none where the source panics. |
| `AllocLayout.NormalizedExactly` | src/alloc_layout.rs:16-20 | A request is accepted exactly if its size, at least 1, rounded to its alignment, at least the minimum, stays within the address range; size and alignment are then exactly those maxima. |
| `AllocLayout.NormalizedIsLeast` | src/alloc_layout.rs:16-20 | If any valid layout is large enough, normalising succeeds and gives the least one. |
| `AllocLayout.AlignUpFacts` | src/alloc_layout.rs:63-67 | Rounding up succeeds exactly when the sum is representable, and gives an aligned address less than one alignment away. |
| `AllocLayout.AlignUpLeast` | src/alloc_layout.rs:63-67 | The rounded address is the least aligned one not below the input. |
| `AllocLayout.PlacementFacts` | src/alloc_layout.rs:22-41 | A placement is aligned as requested, keeps header, back pointer and user bytes apart and inside the used part, and ends on a block boundary. |
| `AllocLayout.AcceptedIffRequiredFits` | src/alloc_layout.rs:22-51 | A block is accepted exactly when the required size at its address fits. |
| `AllocLayout.AcceptedIffRoom` | src/alloc_layout.rs:22-67 | A block is accepted exactly when the first aligned address behind header and back pointer leaves room up to a block boundary inside it without overflow; the placement is that one. |
| `AllocLayout.FitsMeansSmallAlignment` | src/alloc_layout.rs:43-61 | What fits a chunk at address 0 is aligned to less than a chunk. |
| `AllocLayout.ChunkAlwaysFits` | src/alloc_layout.rs:22-67 | What fits a chunk at address 0 is accepted by every block that contains an aligned chunk, also one that starts lower. |
| `IntrusiveList.RingInsert` | src/list.rs:206-213 | The four link writes of an insertion turn a ring into the ring with the node inserted. |
| `IntrusiveList.RingRemove` | src/list.rs:92-97 | The four link writes of a removal leave the ring without the node and the node as a ring of its own. |
| `IntrusiveList.Memory.InitAt` | src/list.rs:23-28 | The node becomes a one-node ring. |
| `IntrusiveList.Memory.ListEmpty` | src/list.rs:60-73 | True for null and uninitialised heads; for the head of a ring exactly when it is alone. |
| `IntrusiveList.Memory.ListInsert` | src/list.rs:206-213 | The node sits between the two given neighbours of the ring. |
| `IntrusiveList.Memory.ListAdd` | src/list.rs:78-80 | The node comes right after the head. |
| `IntrusiveList.Memory.ListAppend` | src/list.rs:85-87 | The node comes last. |
| `IntrusiveList.Memory.ListRemove` | src/list.rs:92-97 | The ring loses exactly that node. |
| `IntrusiveList.Memory.ListMove` | src/list.rs:102-107 | The node moves to the front of its own or another ring; the ring it left loses exactly it. |
| `IntrusiveList.Memory.ListMoveTail` | src/list.rs:112-117 | The node moves to the end of its own or another ring; the ring it left loses exactly it. |
| `IntrusiveList.Memory.VisitSafely` | src/list.rs:153-164 | Safe iteration whose body may remove the node it is at, by any rule, visits every node once and in order, and leaves exactly the kept nodes. |
| `HeapSpec.SeparatedIsCanonical` | src/mem/alloc.rs:160-210 | There is only one maximally coalesced set of blocks for given free bytes. |
| `HeapSpec.RemainderStaysPut` | src/mem/alloc.rs:119-125 | Re-inserting the remainder of a split merges with nothing. |
| `HeapSpec.AllocThenFreeIff` | src/mem/alloc.rs:117-129 | On the free spans that served the request, freeing gives the taken span back short by its slack, so it restores them exactly when the slack is zero. |
| `HeapSpec.FitsIff` | src/alloc_layout.rs:22-67 | What fits a free block, in terms of addresses: 32 bytes in front of an aligned address and the size in whole words behind it. |
| `HeapList.FindSlot` | src/mem/alloc.rs:160-180 | The walk stops between the last lower and the first higher block. |
| `HeapList.WriteLinks` | src/mem/alloc.rs:182-187 | The heap's own order of link writes has the effect of a list insertion. |
| `HeapList.LinkBlock` | src/mem/alloc.rs:160-187 | The block is on the ring in address order and only headers were written. |
| `HeapList.AbsorbRight` | src/mem/alloc.rs:192-214 | The left block takes over the right one exactly when they touch. |
| `HeapList.OnlyPredecessorTouches` | src/mem/alloc.rs:192-199 | Of all lower blocks only the ring predecessor can touch the inserted block. |
| `HeapList.OnlySuccessorTouches` | src/mem/alloc.rs:201-208 | Of all higher blocks only the ring successor can touch the merged block. |
| `HeapList.InsertAndCoalesce` | src/mem/alloc.rs:160-210 | The free list stays a well-formed address-ordered ring; its blocks are the coalesced form of the old ones and the new block; only headers were written. |
| `KernelHeap.PlacedIsLive` | src/mem/alloc.rs:117-129 | An accepted placement gives a block of at least 40 bytes with header, back pointer and user bytes apart; its slack is a multiple of 8 and at most 32. |
| `KernelHeap.LivesSurvive` | src/mem/alloc.rs:216-221 | Headers and back pointers of live blocks survive every write outside their blocks. |
| `KernelHeap.TakeAccounted` | src/mem/alloc.rs:117-129 | An allocation moves bytes from free to live and lost, byte by byte. |
| `KernelHeap.FreeAccounted` | src/mem/alloc.rs:49-62 | A release moves a block's bytes from live to free, byte by byte. |
| `KernelHeap.GrowAccounted` | src/mem/alloc.rs:139-157 | Growth adds one chunk of free bytes. |
| `KernelHeap.BlockIsChunk` | src/mem/alloc.rs:145-150 | A block of the top order is one aligned chunk, new to the heap and clear of its list head. |
| `KernelHeap.GrownFits` | src/mem/alloc.rs:31-47 | After growth some free block fits the request, even if the chunk merged with a lower neighbour. |
| `KernelHeap.ServedLoses` | src/mem/alloc.rs:117-129 | Serving a request cuts the front off one block; what is left goes back if it exceeds 32 bytes and is lost otherwise, a multiple of 8 and at most 32. |
| `KernelHeap.RoundTrip` | src/mem/alloc.rs:31-62 | What serving and freeing a request does to free memory, with and without growth. |
| `KernelHeap.ChunkStays` | src/mem/alloc.rs:139-157 | Once a chunk was added, freeing the request never brings back the old free memory. |
| `KernelHeap.SixteenBytesLost` | src/mem/alloc.rs:117-129 | A request for all but 48 bytes of a chunk loses 16 bytes, and freeing it does not restore the chunk. |
| `KernelHeap.Conservation` | src/mem/alloc.rs:104-157 | Bytes obtained from the buddy allocator are free bytes plus live bytes plus lost bytes. |
| `KernelHeap.KernelHeap.constructor` | src/mem/alloc.rs:65-101 | The heap starts with an empty ring and owns nothing. |
| `KernelHeap.KernelHeap.InitBlock` | src/mem/alloc.rs:87-92 | Writes the size word and a self-linked list node. |
| `KernelHeap.KernelHeap.CutBlock` | src/mem/alloc.rs:117-129 | Cutting a placement off a free block keeps the whole invariant, records the live block, and loses exactly the slack. |
| `KernelHeap.KernelHeap.AllocateFromFreeList` | src/mem/alloc.rs:104-137 | Succeeds exactly when some free block fits, takes the lowest one, and adds exactly one live block. |
| `KernelHeap.KernelHeap.GrowHeap` | src/mem/alloc.rs:139-157 | Succeeds exactly when the buddy allocator has a block of the top order; takes exactly the first of them; the new chunk is coalesced into the free list. |
| `KernelHeap.KernelHeap.GrowFor` | src/mem/alloc.rs:42-45 | Growth is attempted only for layouts a chunk can hold, takes exactly one chunk from the buddy allocator, and then makes the request fit. |
| `KernelHeap.KernelHeap.AllocRound` | src/mem/alloc.rs:37-46 | One round of the loop serves the request exactly if some free block fits, and else grows exactly if a chunk can hold it and one is left. |
| `KernelHeap.TooLargeIff` | src/mem/alloc.rs:42-43 | A chunk can hold a request exactly if the larger of 32 and the alignment plus the size in whole words does not exceed it. |
| `KernelHeap.RequestOutcome` | src/mem/alloc.rs:31-47 | What is refused, what fits and what exceeds a chunk, over the caller's own size and alignment. |
| `KernelHeap.KernelHeap.Alloc` | src/mem/alloc.rs:31-47 | Over the caller's own size and alignment: panics exactly if the layout cannot be normalised; otherwise served exactly if a free block has room, or a chunk could hold it and one is left; the pointer is aligned as asked and the bytes lie in its block. Null exactly when nothing fits and the layout exceeds a chunk or no chunk is left; grows at most once, taking exactly one chunk and nothing else from the buddy allocator; the lowest fitting block of the old or grown free memory is taken, its front is live, its rest free, its slack lost; the pointer is aligned and inside the new block. |
| `KernelHeap.KernelHeap.Dealloc` | src/mem/alloc.rs:49-62 | Null is ignored; otherwise the back pointer recovers exactly the block recorded for the pointer, which is coalesced into the free list. |
| `KernelHeap.KernelHeap.AllocateThenFree` | src/mem/alloc.rs:31-62 | Free memory afterwards is what was offered, short by the slack; it equals the old free memory exactly if that could serve the request and the slack is zero; a chunk that had to be added stays. |
| `KernelHeap.LoseSixteenBytes` | src/mem/alloc.rs:31-62 | A run from an empty free list: one round trip that brings in a chunk, and one that loses 16 bytes of it. |
| `KernelHeap.LoseSixteenBytesFromBoot` | src/mem/alloc.rs:31-62 | The same from nothing: a page allocator over 4 MiB and a heap on it. |
| `KernelHeap.KernelHeap.Relist` | src/mem/alloc.rs:56-61 | A block with an intact header goes back on the list at its recorded size. |
| `KernelHeap.KernelHeap.UserWrite` | src/mem/alloc.rs:126-129 | An owner's write to any byte of its own range keeps the whole heap invariant. |
| `KernelHeap.Run` | src/mem/alloc.rs:31-62 | Any interleaving of allocations, frees and owner writes: every operation does what it says to free, live and lost memory and to the pointers held (a request is served exactly if it can be); afterwards the free list is ordered, coalesced and disjoint from all live blocks, the books balance, and at most 32 bytes are lost per allocation request. |
| `EntryWords.SetAddrWord` | src/mem/page.rs:28-30 | Setting an entry stores the masked address or-ed with the flag bits. |
| `EntryWords.AddFlagsWord` | src/mem/page.rs:42-44 | Adding flags or-s their bits into the stored word. |
| `EntryWords.AddrWord` | src/mem/page.rs:34-36 | Masking the stored word gives the frame's address. |
| `EntryWords.PresentWord` | src/mem/page.rs:46-46 | Presence is bit 0 of the stored word. |
| `EntryWords.FlagPositions` | src/mem/page.rs:50-60 | Each flag has the bit position the source gives it. |
| `EntryWords.WordsIdentify` | src/mem/page.rs:19-48 | Different entries are stored as different words. |
| `PageTables.PageOfDigits` | src/mem/page/pagemapper.rs:34-38 | The four table indices are the base-512 digits of the page number. |
| `PageTables.KernelHalfIsUpper` | src/mem/page.rs:172-199 | The kernel half is the upper half of the 48-bit address space: it holds the kernel mapping and nothing below bit 47. |
| `PageTables.WalkPos` | src/mem/page/pagemapper.rs:45-53 | The tables met on a walk hang at the positions the indices spell out. |
| `PageTables.LeafIsUnique` | src/mem/page/pagemapper.rs:33-56 | Two walks end at the same leaf only for the same page, and below the kernel half only for the same root. |
| `PageUpdates.LinkedForest` | src/mem/page/pagemapper.rs:59-87 | Following or creating a child table keeps the tables a forest. |
| `PageUpdates.LinkedLeaf` | src/mem/page/pagemapper.rs:59-87 | Creating or promoting an intermediate entry changes no translation anywhere. |
| `PageUpdates.LinkedUserClosed` | src/mem/page/pagemapper.rs:77-82 | Promoting an intermediate entry keeps user rights closed everywhere. |
| `PageUpdates.WithLeafWalk` | src/mem/page/pagemapper.rs:55-55 | Writing a leaf changes exactly the walks that end at it. |
| `PageUpdates.WriteRightIsLeafs` | src/mem/page/pagemapper.rs:39-43 | Write access is decided by the leaf alone, as every entry above it is writable. |
| `PageUpdates.WithRootLeaf` | src/mem/page.rs:190-200 | A new address space sees the kernel half and nothing else, and existing ones see no change. |
| `PageMapper.LowHalfNotShared` | src/mem/page.rs:177-203 | Below the kernel half two address spaces never meet. |
| `PageMapper.Mapper.AllocateTable` | src/mem/page/pagemapper.rs:67-69 | A table frame is the first free page, on the list of the smallest order that has one, that ends at or below the boot limit; it is the only page taken; fails exactly if there is none. |
| `PageMapper.Mapper.GetOrCreateTable` | src/mem/page/pagemapper.rs:59-87 | Returns the child table, created empty if absent, with the rights added; no translation changes, the forest stays, and at most that one page is taken. |
| `PageMapper.Mapper.LinkPath` | src/mem/page/pagemapper.rs:45-53 | The three upper levels lead to the leaf table, with user rights on all of them if asked for; no translation changes, and at most three pages are taken, all as tables; exactly these three entries were written, all with the same flags. |
| `PageMapper.Mapper.Map` | src/mem/page/pagemapper.rs:33-56 | The page translates to the given frame and flags; no other page of any address space changes, and roots sharing the path see the same leaf; user access is allowed exactly if asked for; closure is kept exactly under its condition; of the page allocator exactly the new tables' pages are taken, at most three. |
| `PageMapper.ClosedIff` | src/mem/page/pagemapper.rs:39-82 | A mapping keeps user rights closed exactly if it adds no user leaf that another root reaches unpromoted. |
| `PageMapper.RightsUnchanged` | src/mem/page/pagemapper.rs:77-82 | Where nothing was mapped, promotion gives no new user access: a supervisor leaf stays supervisor-only. |
| `PageMapper.Mapper.CreateUserPageTable` | src/mem/page.rs:177-203 | The new root has an empty lower half and the kernel's upper half; no existing translation changes; exactly its page is taken. |
| `PageMapper.Mapper.CreateKernelPageTable` | src/mem/page.rs:107-117 | The first root has nothing mapped. |
| `PageMapper.Mapper.MapAll` | src/mem/page/pagemapper.rs:33-56 | Any sequence of mappings refines the update of a finite map; stops early only when no table frame is left. |
| `PageMapper.LowerHalfIsPrivate` | src/mem/page.rs:205-216 | Mapping in one process's lower half changes no translation of the kernel or of another process. |
| `PageMapper.Mapper.SetRange` | src/mem/page.rs:232-242 | Page k of the range translates to page k of the physical range, no other page changes. |
| `PageMapper.RangeTranslates` | src/mem/page.rs:232-242 | No later page of the range overwrites an earlier one. |
| `AddressSpaces.LowPagesNeedNoOne` | src/mem/page.rs:177-216 | Mapping user pages below the kernel half always keeps user rights closed. |
| `AddressSpaces.MapRefines` | src/mem/page/pagemapper.rs:33-56 | One mapping is seen by exactly the spaces that share the slot. |
| `AddressSpaces.MapSlots` | src/mem/page/pagemapper.rs:59-87 | Two spaces share a top-level slot of the run exactly if their entries lead to the same table. |
| `AddressSpaces.CreateRefines` | src/mem/page.rs:190-200 | A new space sees the kernel's upper half as it is and nothing else. |
| `AddressSpaces.LowerHalfIsOwn` | src/mem/page.rs:205-216 | Below the kernel half a space sees exactly the finite map of its own calls. |
| `AddressSpaces.UserLeafIsOwn` | src/mem/page.rs:205-216 | With user pages only below the kernel half, every user leaf comes from a call of the space itself. |
| `AddressSpaces.BuiltProgramsAreLow` | src/user/elf.rs:71-73 | Every program image the kernel builds loads below the kernel half. |
| `AddressSpaces.FrameCanBeTaken` | src/mem/page/pagealloc.rs:180-186 | Any free page below the limit can be had as a table frame. |
| `AddressSpaces.FramesSpent` | src/mem/page/pagemapper.rs:59-87 | Building at most n tables uses up at most n frames. |
| `AddressSpaces.MapUserPageInKernelHalf` | src/mem/page/pagemapper.rs:39-82 | The kernel maps a page, a process shares the kernel half and maps it for user access: the kernel then has a user leaf below a supervisor-only entry. Nine free frames suffice. |
| `AddressSpaces.SharedUserPageCounterexample` | src/mem/page/pagemapper.rs:39-82 | The same from boot on sixteen pages: a reachable state in which user rights are not closed. |
| `AddressSpaces.Run` | src/mem/page.rs:177-216 | From an empty state, after any interleaving of creations and mappings every address space sees at every page of both halves the last mapping made through any space sharing the top-level slot; with user pages only below the kernel half, every user leaf has the user bit on all levels; stops early only when no table frame is left. |
| `SharedAllocator.OwnersDisjoint` | src/mem/page/pagealloc.rs:188-293 | A chunk, table or held block shares no page with any other block. |
| `SharedAllocator.HeapUndisturbed` | src/mem/alloc.rs:139-157 | Allocations by anyone leave the heap's chunks held and its list head out of reach. |
| `SharedAllocator.HeldAfterTake` | src/task/proc.rs:272-274 | A block just allocated to a direct owner is none of the chunks, tables and held blocks, and clear of the heap's list head. |
| `SharedAllocator.AfterGive` | src/mem/page/pagealloc.rs:257-293 | Releasing a held block leaves all others live and the list head out of reach. |
| `SharedAllocator.Start` | src/main.rs:81-98 | Page allocator, heap and first, still empty address space are new and sound together, with the heap's list head in a reserved range. |
| `SharedAllocator.Run` | src/mem/alloc.rs:139-157 | Heap requests, operations on address spaces and direct page requests in any order on one page allocator: every operation does what it says, every component stays sound, the heap's books balance with at most 32 bytes lost per allocation, every address space stays as its operations say, no chunk, table or held block shares a page with another, user rights stay closed if user pages are mapped low, and user pages are apart if they come from held blocks. |
| `SharedAllocator.RunFromBoot` | src/main.rs:81-98 | The same from boot on. |
| `SharedAllocator.MapHeldStep` | src/task/proc.rs:293-300 | Mapping a page of a held block gives the block to that space alone. |
| `SharedAllocator.PageOfHeld` | src/task/proc.rs:272-300 | A page of a held block is no table and no page of the heap. |
| `SharedAllocator.UserPagesStayApart` | src/task/proc.rs:272-302 | User leaves of different spaces name different frames, and none names a table or a page of the heap. |
| `Scheduler.StepKeepsInv` | src/task/proc.rs:336-465 | Every step keeps: no duplicates in the queue, only ready processes in it, never the current one, everyone else exited, 1 to 5 ticks left. |
| `Scheduler.RunKeepsInv` | src/task/proc.rs:336-465 | The same over every run. |
| `Scheduler.ExitedForever` | src/task/proc.rs:336-348 | An exited process stays exited and, once switched away from, never runs again. |
| `Scheduler.ExitFindsSuccessor` | src/task/proc.rs:336-348 | While process 0 has not exited, another process's exit hands over to the head of the queue. |
| `Scheduler.StepWait` | src/task/proc.rs:350-465 | No step raises a queued process's wait bound, and every tick lowers it or runs the process. |
| `Scheduler.BoundedWaiting` | src/task/proc.rs:350-465 | A process at queue index i becomes current within the current slice plus 5*i ticks, whatever happens in between. |
| `Scheduler.SpawnedRuns` | src/task/proc.rs:324-465 | A process spawned now is new and becomes current within the rest of the current slice plus 5 ticks per queued process. |
| `Scheduler.KeepsSlice` | src/task/proc.rs:350-361 | Whatever is spawned meanwhile, a process that neither yields nor exits stays current until its slice is used up, and the queue keeps its order. |
| `Scheduler.SliceEnds` | src/task/proc.rs:350-465 | The tick that uses up the slice hands over to the head of the queue with a full slice and puts the old process last. |
| `Scheduler.ConsumeTick` | src/task/proc_layout.rs:14-25 | The slice expires exactly on its last tick and is then reloaded. |
| `Scheduler.Scheduler.Init` | src/task/proc.rs:91-114 | Process 0 becomes current once; later calls change nothing. |
| `Scheduler.Scheduler.PushReady` | src/task/proc.rs:363-368 | The process is ready and last in the queue. |
| `Scheduler.Scheduler.Schedule` | src/task/proc.rs:416-465 | With an empty queue nothing changes; otherwise the head of the queue becomes current with a full slice, the old process goes last if it still runs, and nothing else changes; the invariant is kept. |
| `Scheduler.Scheduler.OnTimerTick` | src/task/proc.rs:350-361 | One tick of the slice is used; the last one reloads it and hands over if someone waits; nothing else changes; the invariant is kept. |
| `Scheduler.Scheduler.YieldNow` | src/task/proc.rs:332-334 | Hands over to the head of the queue, or does nothing if there is none; the invariant is kept. |
| `Scheduler.Scheduler.ExitCurrent` | src/task/proc.rs:336-348 | The current process is exited and queued nowhere; the head of the queue, if any, becomes current with a full slice; all others keep state and order; the invariant is kept. |
| `Scheduler.Scheduler.SpawnProcess` | src/task/proc.rs:254-326 | A returned pid was never used, is ready with a full slice and last in the queue; all other processes, their order and the current one are kept; failure before or after the pid is taken adds no process. |
| `FsTree.PrefixClosed` | src/fs/ramfs.rs:166-176 | Whatever exists lies inside directories. |
| `FsTree.WalkOutcome` | src/fs/ramfs.rs:166-191 | A walk succeeds exactly on existing paths; a file before the end, or a missing component, decides the error. |
| `FsTree.LookPut` | src/fs/ramfs.rs:50-63 | Replacing an entry replaces everything at and below its path and nothing else. |
| `FsTree.SplitPathClean` | src/fs/ramfs.rs:200-209 | Split paths hold no empty, dot or slash-containing component. |
| `FsTree.SplitJoin` | src/fs/ramfs.rs:200-209 | Every normalised path is the result of splitting some string. |
| `FsTree.SplitAppend` | src/fs/ramfs.rs:200-209 | After a further slash comes one more component, unless it is empty or a dot. |
| `FsTree.SplitRootAndRelative` | src/fs/ramfs.rs:200-209 | The root has no components, and exactly the relative paths are invalid. |
| `FsTree.LessIsFirstDifference` | src/fs/ramfs.rs:121-126 | Names are ordered by their first difference, a prefix coming first. |
| `RamFs.LocatedHasParent` | src/fs/ramfs.rs:178-216 | Where an operation acts is an entry of an existing directory. |
| `RamFs.LocateOutcome` | src/fs/ramfs.rs:178-216 | The exact condition of every error: relative or root path, a missing component, a file on the way. |
| `RamFs.PutUpdates` | src/fs/ramfs.rs:79-95 | Writing a leaf changes that entry alone in the path map. |
| `RamFs.RamFs.constructor` | src/fs/ramfs.rs:39-48 | The initial map: the root and four directories. |
| `RamFs.RamFs.NodeAt` | src/fs/ramfs.rs:166-176 | The walking loop has the outcome of the recursive walk. |
| `RamFs.RamFs.DirAt` | src/fs/ramfs.rs:178-191 | The same, with the last node required to be a directory. |
| `RamFs.RamFs.Mkdir` | src/fs/ramfs.rs:50-63 | Exact result; success makes exactly that entry a directory, failure changes nothing. |
| `RamFs.RamFs.Touch` | src/fs/ramfs.rs:65-77 | Exact result; success keeps an existing file or makes exactly that entry an empty file. |
| `RamFs.RamFs.Write` | src/fs/ramfs.rs:79-95 | Exact result; success makes exactly that entry a file with the data. |
| `RamFs.RamFs.Append` | src/fs/ramfs.rs:97-112 | Exact result; success makes exactly that entry the old contents followed by the data. |
| `RamFs.RamFs.Read` | src/fs/ramfs.rs:114-119 | The read outcome. |
| `RamFs.ReadIsLook` | src/fs/ramfs.rs:114-119 | Reading is lookup in the path map. |
| `RamFs.ReadErrors` | src/fs/ramfs.rs:114-119 | The exact condition of every error of a read. |
| `RamFs.RamFs.List` | src/fs/ramfs.rs:121-126 | Exact result; the names, ascending, are exactly the paths one component longer. |
| `RamFs.RamFs.Remove` | src/fs/ramfs.rs:128-140 | Exact result; success removes exactly that entry, and only a file or an empty directory. |
| `RamFs.RamFs.Rename` | src/fs/ramfs.rs:142-159 | Exact condition of success and exact error; success moves the whole subtree; a failure after the removal leaves exactly the tree without the source subtree. |
| `RamFs.RenameLandsIff` | src/fs/ramfs.rs:153-157 | A started rename succeeds exactly if the destination's directory exists outside the source and the destination is free or the source itself. |
| `RamFs.RenameErrorIs` | src/fs/ramfs.rs:142-159 | The error of a rename read off the tree before it, without the removal: a destination below the source is not found. |
| `RamFs.RamFs.Copy` | src/fs/ramfs.rs:161-164 | Exact result; success makes the destination a file with the source's contents and changes nothing else. |
| `FsRefinement.TargetIsLocate` | src/fs/ramfs.rs:178-216 | Where an operation acts, or why it cannot, is determined by the path map alone: the first file on the way or the first missing component. |
| `FsRefinement.FileDataIsRead` | src/fs/ramfs.rs:114-119 | What a read returns, and its error, is determined by the path map alone. |
| `FsRefinement.BelowIsNotLeafy` | src/fs/ramfs.rs:128-140 | The emptiness test of a removal asks whether any longer path exists. |
| `FsRefinement.RenameAgrees` | src/fs/ramfs.rs:142-159 | Success, error and loss of a rename are those of the path map's rename. |
| `FsRefinement.RenameLosesIff` | src/fs/ramfs.rs:148-157 | A rename fails and changes the map exactly if it starts and the tree before it has no place for the source; then exactly the source subtree is gone. |
| `FsRefinement.RenameBelowItself` | src/fs/ramfs.rs:142-159 | Moving a directory below itself always fails and loses it with all it holds. |
| `FsRefinement.RenameOntoDirectory` | src/fs/ramfs.rs:142-159 | Renaming one top-level directory to another reports that it exists, and loses the first. |
| `FsRefinement.LoseHome` | src/fs/ramfs.rs:142-159 | On a fresh file system, renaming /home to /tmp fails and /home is gone. |
| `FsRefinement.AbsPrefixClosed` | src/fs/ramfs.rs:166-191 | Every map a tree stands for is prefix-closed. |
| `FsRefinement.RunOne` | src/fs/ramfs.rs:50-164 | Each operation on the tree reports what the same operation on the path map reports and leaves the tree standing for the resulting map. |
| `FsRefinement.Run` | src/fs/ramfs.rs:50-164 | The same for every run of operations: all results and the final map. |
| `FdTable.ChunkThenChunk` | src/syscall/fd.rs:175-194 | Two reads in a row deliver what one large read would. |
| `FdTable.OverlayThenOverlay` | src/syscall/fd.rs:196-226 | Two writes in a row leave what one write of both buffers would. |
| `FdTable.ReadBack` | src/syscall/fd.rs:175-226 | What was written reads back from the same place. |
| `FdTable.FlagBits` | src/syscall/fd.rs:11-25 | Each open flag is its own bit, and a set of flags has those of its parts. |
| `FdTable.WriteErrors` | src/syscall/fd.rs:196-226 | The exact condition of every error of a write. |
| `FdTable.CopyFromOffset` | src/syscall/fd.rs:253-260 | Copies what is left at the offset and fits, byte by byte, and leaves the rest of the buffer alone. |
| `FdTable.Patch` | src/syscall/fd.rs:210-218 | Two resizes and a copy: the buffer in its own range, the old bytes elsewhere, zeros in a gap. |
| `FdTable.FileDescriptorTable.constructor` | src/syscall/fd.rs:98-109 | The three standard streams. |
| `FdTable.FileDescriptorTable.Insert` | src/syscall/fd.rs:228-237 | The lowest free slot gets the file. |
| `FdTable.FileDescriptorTable.Open` | src/syscall/fd.rs:132-150 | Exact condition of success and error; the lowest free descriptor at offset 0; the file system changes exactly as the flags say. |
| `FdTable.FileDescriptorTable.Close` | src/syscall/fd.rs:152-158 | Frees exactly that slot, or reports a bad descriptor. |
| `FdTable.FileDescriptorTable.Dup2` | src/syscall/fd.rs:160-173 | The new slot is an independent copy of the old one; slots in between are empty; all others keep their files. |
| `FdTable.FileDescriptorTable.Read` | src/syscall/fd.rs:175-194 | Exact result for every kind of descriptor and flag; delivers the bytes left at the offset, byte by byte, and advances only that descriptor. |
| `FdTable.FileDescriptorTable.Write` | src/syscall/fd.rs:196-226 | Exact result for every kind of descriptor and flag; byte by byte, the file afterwards holds the buffer in its own range, at the offset or at the end, the old bytes elsewhere, and zeros in a gap. |
| `FdTable.FileDescriptorTable.ReadMany` | src/syscall/fd.rs:175-194 | Any run of reads with any buffer sizes, from a file or from standard input, delivers the contents from the starting offset. |
| `FdTable.FileDescriptorTable.WriteMany` | src/syscall/fd.rs:196-226 | Any run of non-append writes leaves, byte by byte, all the bytes written from the starting offset on, the old bytes elsewhere, and zeros in a gap. |
| `FdRefinement.Step` | src/syscall/fd.rs:132-226 | Each descriptor operation replies, and changes files and descriptors, as the same operation on the path map and the stream table. |
| `FdRefinement.Run` | src/syscall/fd.rs:132-226 | The same for every run of opens, closes, duplications, reads, writes and file operations, on any mix of descriptors. |
| `FdRefinement.DupIsIndependent` | src/syscall/fd.rs:160-173 | After a duplication, reading through one descriptor leaves the offset of the other alone. |
| `Elf.EntryRoundTrip` | src/user/elf.rs:71-82 | Entry addresses and programs determine each other, and nothing else is an entry address. |
| `Elf.LittleEndianRoundTrip` | src/user/elf.rs:271-298 | What was written little-endian reads back. |
| `Elf.FromLEAppend` | src/user/elf.rs:271-287 | The byte after n others counts 256 to the power n. |
| `Elf.HeaderErrorIs` | src/user/elf.rs:102-128 | Which header bytes are refused, check by check, in the source's order. |
| `Elf.Parse` | src/user/elf.rs:101-168 | The exact condition, over the bytes, of every error: too small, bad magic, unsupported, unknown program, truncated, no load segment; a parsed image has passed all checks and its first load segment, field by field, lies in the image and fits its memory size. |
| `Elf.EndedIff` | src/user/elf.rs:130-161 | Each outcome of the search for a load header has its exact condition. |
| `Elf.StopsOnce` | src/user/elf.rs:130-161 | The search stops at one header only, so the outcomes exclude each other. |
| `Elf.WriteLE` | src/user/elf.rs:288-298 | The bytes at the offset are replaced and no others. |
| `Elf.EmitZeros` | src/user/elf.rs:187-189 | The eight bytes written at 48 reach over the next two fields, which are still zero then. |
| `Elf.BuildImage` | src/user/elf.rs:170-207 | Every field before the payload, including those the parser does not read, and then exactly the payload. |
| `Elf.BuiltParses` | src/user/elf.rs:101-207 | Every image with those fields passes all checks and describes the payload. |
| `Elf.BuildThenParse` | src/user/elf.rs:101-207 | Parsing a built image recovers the program and exactly its payload. |
| `Elf.UserProgramCode` | src/user/elf.rs:209-260 | The code decodes, instruction by instruction, to the program that writes the message and exits; the patched displacement leads exactly to the message and the length operand is its length. |
| `Elf.CodeRuns` | src/user/elf.rs:209-260 | The encoded bytes decode to that program, for every displacement and length that fit 32 bits. |
| `Elf.BuildProgramImage` | src/user/elf.rs:170-260 | The installed image has the parser's fields and carries the program's code and message. |

## Left out

- Assembly, control registers, translation caches, port I/O, interrupt setup and boot code: hardware effects. The context switch is the change of the current process.
- Multiboot parsing and linker symbols: memory areas, reserved ranges and section bounds are inputs.
- `pop_free` (src/mem/page/pagealloc.rs:243-255) has no caller.
- The `flags` byte of a page's metadata is modelled by its two bits, and orders are naturals instead of bytes.
- Addresses handled by `add_region`, `set_range` and `phoff + index * phentsize` are unbounded integers: 64-bit overflow there is not modelled. Checked and saturating arithmetic of the heap is.
- Frame numbers are assumed to fit the 32-bit codes, areas to be disjoint, and reserved ranges to be non-empty.
- Memory is accessed in whole aligned words; the layout of a list node (next at 0, prev at 8) and of a block header (size, then list node) is fixed. A write to a user byte may change the whole word that holds it.
- Entries carry the six flags the source names; bits the processor sets by itself (accessed, dirty) are not modelled.
- Lazy initialisation of the heap's list head happens in the constructor.
- Where the source panics, the model returns a failure: releasing a non-head or a free block, running out of table frames, a layout that cannot be normalised.
- `init_kernel_page_table` beyond the allocation of the root, `set_identity_range` and the mapping of boot data: sequences of `map` calls, covered by `MapAll`.
- Scheduler.Scheduler.SpawnProcess: does not model the allocation of stacks and pages for a process; whether it succeeds is a parameter. Pids do not wrap at 64 bits. The blocked state is never entered by the source.
- The load address of an image is not checked, as in the source: for an image from elsewhere the closure of user rights depends on the condition of `PageMapper.ClosedIff`.
- The kernel's own mappings made at boot are not part of `SharedAllocator.Start`; they are operations of the run that follows it.
- `user_code_base`, `user_stack_top` and process contexts: address formulas and register contents.
- The file tree is a value that each operation replaces; borrowing inside the tree is not modelled.
- `set_stdin`, `stdout`, `stderr`, `install_programs`, `from_name`: one-line accessors and loops over operations that are modelled.
- Shell, commands, system-call dispatch, error numbers, serial buffer and spin lock: mostly I/O or small next to the rest; each locked section is atomic.

# A verified model of the stopwatch firmware's kernel

The firmware is a stopwatch on a vendored RT-Thread 4.0.3 kernel. This Dafny project models the
kernel's memory allocators, timers, scheduler and inter-thread communication, and the two small
arithmetic cores of the application, and proves what they promise.

`dafny verify dfyconfig.toml` checks everything.

## How it is organised

Code that updates data in place is a class whose methods do the same updates; each method is
proved against a function of the old state, and what the kernel promises is proved about those
functions, as invariants of whole runs and as exact conditions for success. Regions with
interrupts disabled, or under a lock, are atomic steps, and runs interleave the steps of all
threads and of the thread timeouts freely. A method is one call; where the code of a call is
several regions, the runs are made of those, and the method is the undisturbed call.

- `Words`: 32-bit words.
- `Blocks`, `Payloads`: the block list of an in-band heap and the contents behind its pointers,
  shared by both heaps.
- `SmallMem`, `SmallMemProps`: the small-memory heap (`mem.c`) on an array of 32-bit cells.
- `RtLists`: circular doubly linked lists threaded through memory, as refinements of sequences.
- `MemHeapSpec`, `MemHeapLayout`, `MemHeaps`, `MemHeapProps`: the memheap (`memheap.c`): a ring
  of all blocks and a ring of the free ones in the same memory.
- `PageRuns`, `ZoneSizes`, `SlabSpec`, `SlabProps`, `Slabs`: the slab allocator (`slab.c`).
- `Timers`: the skip list of timers (`timer.c`) for any number of rows, with wrapping 32-bit ticks.
- `Lists`, `Waiters`, `Semaphores`, `Mutexes`, `Events`, `Mailboxes`, `MsgQueues`: `ipc.c`.
- `ReadyBits`, `Schedulers`: `scheduler.c` with both bitmaps, `thread.c`, and the time slice of
  `clock.c`. `SchedulerRuns`: runs in which resumes, starts and suspensions of threads are taken
  apart into their regions. `Inheritance`: a mutex and the ready lists in one run.
- `Oled`: the page buffer of the display driver. `Stopwatches`: `stopwatch.c` and `timebase.c`.

## Where the code does not do what one would expect

Each of these is kept as the code has it; the exact condition that does hold is proved, with a
concrete input for the other side where it is not plain from the condition.

- `rt_malloc` (`mem.c`) refuses a last free block that fits exactly (`MallocMissesExactFit`,
  `MallocFailsExactlyWhen`). Aligning wraps around for the last three sizes below 2^32:
  `rt_malloc` answers them with a minimal block (`MallocWraps`, `MallocRoom`), and `rt_realloc`
  frees the block and returns NULL (`ReallocWraps`, `ReallocNullExactlyWhen`).
- `rt_memheap_alloc` refuses a request equal to the whole available size (`AllocMissesExactFit`,
  `AllocFailsExactlyWhen`), and answers the last three sizes with a minimal block (`AllocWraps`,
  `AllocRoom`); `rt_memheap_realloc` shrinks the block for them (`TopSizesAreSmallest`).
- The test of `rt_memheap_realloc` for growing in place wraps around for the sizes from 2^32 - 15
  to 2^32 - 4: with a free block behind, it accepts one that is too small (`GrowTestWraps`,
  `GrowTestExact`, `ReallocExactlyWhen`).
- `rt_memheap_alloc` tests the available size before it takes the lock; a call with an
  out-of-date test is served what a fresh one would refuse (`StaleTestServes`), with no harm to
  the heap (`ServeKeeps`).
- A large request to the slab allocator is refused when rounding it up to pages wraps around
  (`LargeExactlyWhen`). Power-of-two chunks larger than a page are aligned to their size only in
  zones that are so themselves (`LargeChunkMisaligned`, `ChunkAligned`).
- `rt_thread_resume` is not one region: it tests the state with interrupts enabled, unlinks the
  thread, enables interrupts again and inserts it. When two resumes of one thread overlap, or it
  times out in between, it ends READY in no list, and its bit may stand for an empty list
  (`OverlapBreaks`, `TimeoutBreaks`). Each region is right exactly at a thread that is not READY
  (`UnlinkExactlyWhen`, `InsertExactlyWhen`), a run exactly without stale steps
  (`RunExactlyWhen`). The resumes of `ipc.c` have interrupts disabled (`ResumesInRegions`).
- A priority boost outlives the waiter that caused it when that waiter times out
  (`BoostOutlivesTimeout`, `BoostExactlyWhen`, `TimeoutExactlyWhen`).
- The wrapping comparisons of the timers go wrong just outside their windows (`WindowsEnd`,
  `StopsExactly`, `ExpiredExactly`).
- `OLED_ShowImage` paints a page even for height 0 (`NoHeightPaints`) and is pixel-exact exactly
  for images that are blank below their height (`ExactExactlyWhen`). `OLED_ClearArea` does not end
  when it has a height and one of its bounds exceeds 32767 (`AreaRunsForever`, `AreaEndsExactly`).
- A stopwatch segment that starts at time 0 is not counted (`StartCounts`), and the total wraps
  around at 2^32 milliseconds (`TotalAccurate`).

## Model

| member | source | states |
|---|---|---|
| SmallMem.Heap.constructor | rt-thread/src/mem.c:204-252 | the initial heap is one free block, nothing used, `lfree` at 0 |
| SmallMem.Heap.Malloc | rt-thread/src/mem.c:272-410 | the in-band memory after the call represents exactly the block list of the first-fit specification, the tiling, coalescing, `lfree` and `used_mem` invariant holds again, `max_mem` is the high-water mark, and every payload that was live reads as before |
| SmallMem.Heap.Search | rt-thread/src/mem.c:305-314 | the loop from `lfree` stops at the lowest block that fits below the search bound, or past it if there is none |
| SmallMem.Heap.TakeBlock | rt-thread/src/mem.c:316-387 | splitting or handing out the chosen block keeps everything else, and `lfree` moves to the next free block |
| SmallMem.Heap.Free | rt-thread/src/mem.c:552-615 | exactly the freed block leaves the live set, the canonical form is restored, every other live payload is untouched; NULL and out-of-range pointers change nothing |
| SmallMem.Heap.PlugHoles | rt-thread/src/mem.c:156-193 | a freed block with possibly free neighbours is merged into the canonical form, and `lfree` stays the lowest free block |
| SmallMem.Heap.Realloc | rt-thread/src/mem.c:421-516 | the new block list is that of the specification; the first min(old, new) cells of the block are preserved, every other live payload is unchanged, and a NULL result for 1 to 2^32 - 4 bytes leaves every live payload, the block included, as it was |
| SmallMem.MallocKeeps | rt-thread/src/mem.c:272-410 | a successful call adds exactly one live block, not live before, with room for the aligned request; a failed one changes nothing; canonical form and used total are kept |
| SmallMem.FreeKeeps | rt-thread/src/mem.c:552-615 | freeing removes exactly one live block and its length from the used total, and keeps the canonical form |
| SmallMem.PayloadWrite | rt-thread/src/mem.c:95-120 | a client that writes inside its own live block disturbs neither the headers nor any other payload |
| Blocks.CarveKeeps | rt-thread/src/mem.c:316-370 | cutting a free block for a request keeps the tiling with no two free neighbours, makes one block live, and accounts for used and free cells |
| Blocks.CarveCuts | rt-thread/src/mem.c:316-370 | a block handed out is the front of a free block, to size with the rest left free if the rest can be a block, and else all of it; so the waste is less than a header and a minimal block |
| Blocks.FreedKeeps | rt-thread/src/mem.c:156-193 | marking a block free and fusing its free neighbours restores the canonical tiling and removes exactly that block from the live set |
| Blocks.ShrunkKeeps | rt-thread/src/mem.c:462-486 | cutting the tail off a used block and fusing it keeps the canonical tiling, and the block keeps its address and the wanted cells |
| Blocks.LiveDisjoint | rt-thread/src/mem.c:95-120 | the block list refines to a set of pairwise disjoint live ranges |
| SmallMemProps.MallocFailsExactlyWhen | rt-thread/src/mem.c:278-314 | NULL if and only if the request is 0, the aligned request exceeds the heap, or no free block fits other than an exactly fitting last block, which the strict search bound skips |
| SmallMemProps.MallocMissesExactFit | rt-thread/src/mem.c:305-307 | a concrete heap whose only free block fits exactly and is refused |
| SmallMemProps.MallocTakesLowest | rt-thread/src/mem.c:305-314 | the result is the lowest free block that fits below the search bound |
| SmallMemProps.RequestIs | rt-thread/src/mem.c:289-300 | what is searched for is the request rounded up to words, at least three |
| SmallMemProps.MallocCuts | rt-thread/src/mem.c:305-387 | the block handed out is the front of a free block that fits below the bound, less than a header and a minimal block larger than the request, and what is left over stays free |
| SmallMemProps.MallocRoom | rt-thread/src/mem.c:289-300 | the block has room for the bytes asked for if and only if aligning the request does not wrap around in 32 bits |
| SmallMemProps.MallocWraps | rt-thread/src/mem.c:289-300 | a concrete request of 2^32 - 1 bytes that is answered with a 12-byte block |
| SmallMemProps.ReallocOutcome | rt-thread/src/mem.c:421-516 | up to 2^32 - 4 bytes, resizing a live block either fails and changes nothing, or replaces that one block by a live block with room for the bytes asked for, all other live blocks staying; a size of 0 and the three sizes above, which wrap around to 0, free the block and return NULL |
| SmallMemProps.ReallocWhere | rt-thread/src/mem.c:444-513 | a block of the size asked for stays, a much larger one is cut to exactly that size in place, any other is moved to where malloc finds room |
| SmallMemProps.ReallocOthers | rt-thread/src/mem.c:430-455 | without a block the call is that of malloc; a pointer from outside the heap is returned with nothing changed |
| SmallMemProps.ReallocNullExactlyWhen | rt-thread/src/mem.c:430-443 | for a live block and a non-zero size, a NULL result leaves the heap unchanged if and only if the size is at most 2^32 - 4 |
| SmallMemProps.ReallocWraps | rt-thread/src/mem.c:430-443 | a concrete heap in which a request for 2^32 - 1 bytes frees the live block and returns NULL |
| SmallMemProps.RunKeepsForm | rt-thread/src/mem.c:156-615 | after every run of the locked regions of malloc, free and realloc, of any number of callers, the heap is tiled exactly from 0 to `heap_end` with no two free neighbours |
| SmallMemProps.ReallocIsSteps | rt-thread/src/mem.c:421-516 | every realloc is a sequence of at most two such regions |
| SmallMemProps.MoveAmongOthers | rt-thread/src/mem.c:507-513 | whatever others do between the malloc and the free of a moving realloc, during the copy the old and the new block are both live and apart, and in the end exactly the old one is gone |
| SmallMemProps.FreeAllRestores | rt-thread/src/mem.c:552-615 | freeing all live blocks in any order restores the single initial free block with nothing used |
| RtLists.InsertRing | rt-thread/include/rtservice.h:58-65 | inserting a node behind another one in a circular doubly linked list inserts it into the sequence of nodes |
| RtLists.RemoveRing | rt-thread/include/rtservice.h:86-92 | unlinking a node removes it from the sequence of nodes |
| RtLists.ListMemory.Init | rt-thread/include/rtservice.h:47-50 | the node becomes an empty list and no other cell changes |
| RtLists.ListMemory.InsertAfter | rt-thread/include/rtservice.h:58-65 | the pointer writes refine insertion behind a node of the sequence |
| RtLists.ListMemory.InsertBefore | rt-thread/include/rtservice.h:73-80 | the pointer writes refine insertion in front of a node; in front of the head means at the end |
| RtLists.ListMemory.Remove | rt-thread/include/rtservice.h:86-92 | the pointer writes refine removal from the sequence, and the removed node becomes an empty list |
| RtLists.ListMemory.IsEmpty | rt-thread/include/rtservice.h:98-101 | true if and only if the list head is the only node |
| RtLists.ListMemory.Len | rt-thread/include/rtservice.h:107-118 | the counting loop returns the number of nodes behind the head |
| MemHeaps.MemHeap.constructor | rt-thread/src/memheap.c:50-121 | the pool becomes one free block on the free list before a used tail block, with the initial counters |
| MemHeaps.MemHeap.Alloc | rt-thread/src/memheap.c:138-281 | the memory after the call represents exactly the state the specification gives: block ring, free ring, counters; live payloads are untouched |
| MemHeaps.MemHeap.Search | rt-thread/src/memheap.c:169-180 | the walk of the free list stops at the first entry with room, or back at the list header with none found |
| MemHeaps.MemHeap.SplitOff | rt-thread/src/memheap.c:188-232 | cutting a free block replaces it by its tail at the front of the free list and leaves live payloads alone |
| MemHeaps.MemHeap.Free | rt-thread/src/memheap.c:495-595 | the freed block is fused with free neighbours; the free list and `available_size` follow; every other live payload is untouched |
| MemHeaps.MemHeap.MergeLeft | rt-thread/src/memheap.c:540-557 | the block is absorbed by a free left neighbour, which keeps its place in the free list |
| MemHeaps.MemHeap.MergeRight | rt-thread/src/memheap.c:559-578 | a free right neighbour leaves both rings and is absorbed |
| MemHeaps.MemHeap.Realloc | rt-thread/src/memheap.c:284-492 | for every live block and size on which the 32-bit test for growing in place does not wrap around, and whenever nothing is free behind the block: the new state is that of the specification, the first min(old, new) cells are preserved, every other live payload is unchanged, and a NULL result for a non-zero size changes nothing |
| MemHeaps.MemHeap.TryGrow | rt-thread/src/memheap.c:333-403 | the test is the 32-bit one of the source; where it is safe, growing in place happens if and only if the free block behind is large enough, and moves the boundary between the two |
| MemHeaps.MemHeap.ShrinkBlock | rt-thread/src/memheap.c:432-491 | the tail is cut off, fused with a free block behind it and listed first |
| MemHeapLayout.CutInBand | rt-thread/src/memheap.c:192-213 | writing a header inside a block keeps both rings, all other headers and every payload |
| MemHeapLayout.FuseInBand | rt-thread/src/memheap.c:566-577 | unlinking a free block from both rings leaves a correct representation of the merged list, and live payloads alone |
| MemHeapLayout.UnlinksCommute | rt-thread/src/memheap.c:572-577 | unlinking from the block ring and from the free ring gives the same memory in either order |
| MemHeapSpec.AllocKeeps | rt-thread/src/memheap.c:138-281 | allocation keeps the ring tiled and coalesced, the free list a permutation of the free blocks and `available_size` the free payload; on success exactly one new live block with room for the aligned request appears |
| MemHeapSpec.FreeKeeps | rt-thread/src/memheap.c:495-595 | freeing keeps the same invariant and removes exactly one live block |
| MemHeapSpec.GrowKeeps | rt-thread/src/memheap.c:350-401 | growing in place keeps the invariant and replaces the block by one with the same address and the new size |
| MemHeapSpec.ShrinkKeeps | rt-thread/src/memheap.c:432-485 | shrinking keeps the invariant, replaces the block by its front part, and returns cells to `available_size` |
| MemHeapProps.AllocFailsExactlyWhen | rt-thread/src/memheap.c:155-183 | NULL if and only if no free block has room or the request equals the whole available size, because the test is strict |
| MemHeapProps.AllocMissesExactFit | rt-thread/src/memheap.c:155 | a concrete pool whose only free block fits exactly and is refused |
| MemHeapProps.AllocRoom | rt-thread/src/memheap.c:147-150 | the block has room for the bytes asked for if and only if aligning the request does not wrap around in 32 bits |
| MemHeapProps.RequestIs | rt-thread/src/memheap.c:147-150 | what is searched for is the request rounded up to words, at least three |
| MemHeapProps.AllocCuts | rt-thread/src/memheap.c:169-265 | the block handed out is the front of the first listed block with room, less than a header and a minimal block larger than the request, and what is left over stays free |
| MemHeapProps.FreeListOrder | rt-thread/src/memheap.c:582-586 | the free list is last in, first out: left-overs and freed blocks go to the front, unless a free block before absorbs them in its place |
| MemHeapProps.AllocWraps | rt-thread/src/memheap.c:147-150 | a concrete request of 2^32 - 1 bytes that is answered with a 12-byte block |
| MemHeapProps.TopSizesAreSmallest | rt-thread/src/memheap.c:300-303 | in every state the last three sizes below 2^32 are treated like 12 bytes, by allocation and by resizing, which shrinks the block |
| MemHeapProps.GrowTestExact | rt-thread/src/memheap.c:350 | for every reachable shape of the heap and every live block, the 32-bit test for growing in place decides as it should if and only if no free block follows or its right-hand side does not wrap around |
| MemHeapProps.GrowTestWraps | rt-thread/src/memheap.c:350 | a concrete pool in which a 12-byte block is grown to 2^32 - 12 bytes, past the end of the pool |
| MemHeapProps.ReallocOutcome | rt-thread/src/memheap.c:284-492 | unless the test for growing in place wraps around, resizing a live block either fails and changes nothing, or replaces that one block by a live block with room for the aligned size |
| MemHeapProps.ReallocWhere | rt-thread/src/memheap.c:330-491 | a block that is too small grows in place to exactly the size asked for if and only if the block behind can give it, and else is moved; one with at most a small block to spare stays; a larger one is cut to size |
| MemHeapProps.ReallocOthers | rt-thread/src/memheap.c:294-308 | without a block the call is that of alloc, with size 0 that of free |
| MemHeapProps.ReallocExactlyWhen | rt-thread/src/memheap.c:284-492 | resizing a live block keeps the heap, fails without effect or leaves room for the bytes asked for, if and only if the size is at most 2^32 - 4 and the test for growing in place does not wrap around with a free block behind |
| MemHeapProps.ReallocIsSteps | rt-thread/src/memheap.c:284-492 | every realloc on which the test for growing in place is safe is a sequence of at most two locked regions of the run model |
| MemHeapProps.ServeKeeps | rt-thread/src/memheap.c:157-281 | the locked part of an allocation keeps the invariant also when the test before the lock has become out of date |
| MemHeapProps.StaleTestServes | rt-thread/src/memheap.c:155-161 | a concrete pool in which such a call gets the whole available size, which a fresh test would refuse |
| MemHeapProps.RunKeepsAccounts | rt-thread/src/memheap.c:50-595 | over every run of locked regions, those behind an out-of-date test included, the invariant holds, `max_used_size` is the historical maximum of pool size minus available size, and every live block has the minimal size |
| MemHeapProps.FreeAllRestores | rt-thread/src/memheap.c:495-595 | freeing all live blocks in any order restores the initial state, all but the high-water mark |
| PageRuns.AllocFailsExactlyWhen | rt-thread/src/slab.c:236-270 | page allocation fails if and only if there is no contiguous stretch of that many free pages |
| PageRuns.AllocLowest | rt-thread/src/slab.c:246-264 | the pages handed out are the lowest free stretch of that length |
| PageRuns.AllocKeeps | rt-thread/src/slab.c:246-264 | a successful allocation takes exactly the returned stretch, all free before, out of the free set and keeps the list canonical |
| PageRuns.FreeKeeps | rt-thread/src/slab.c:286-318 | freeing adds exactly those pages to the free set and keeps the list canonical |
| PageRuns.CanonicalUnique | rt-thread/src/slab.c:272-322 | the list is determined by the set of free pages |
| PageRuns.AllocThenFree | rt-thread/src/slab.c:236-322 | freeing what was just allocated restores the identical list |
| PageRuns.FreesCommute | rt-thread/src/slab.c:272-322 | the order of frees does not matter |
| PageRuns.RunIsFreeSet | rt-thread/src/slab.c:236-334 | over every run the list is the canonical form of the set of pages counted free from the calls alone |
| PageRuns.AllBackRestores | rt-thread/src/slab.c:236-334 | with all pages back the list is the initial one, whatever happened before |
| PageRuns.PageAllocator.constructor | rt-thread/src/slab.c:327-334 | the page list starts as one run of all pages |
| PageRuns.PageAllocator.PageAlloc | rt-thread/src/slab.c:236-270 | the linked page heads in memory represent the list of the specification |
| PageRuns.PageAllocator.PageFree | rt-thread/src/slab.c:272-322 | the linked page heads represent the list with these pages put back, for all four ways they can meet a run or lie between two |
| ZoneSizes.ClassRange | rt-thread/src/slab.c:401-455 | the zone index stays below 72 and the chunk is at least as large as the request |
| ZoneSizes.ClassMonotone | rt-thread/src/slab.c:401-455 | a larger request never gets a smaller index or chunk |
| ZoneSizes.SmallestClass | rt-thread/src/slab.c:401-455 | no smaller chunk size would fit |
| ZoneSizes.ClassDetermined | rt-thread/src/slab.c:401-455 | two requests have the same index if and only if they get the same chunk size |
| ZoneSizes.WasteBounded | rt-thread/src/slab.c:401-455 | at most seven bytes, or less than an eighth of the request from 128 bytes on, are wasted |
| ZoneSizes.SizeIsOwnClass | rt-thread/src/slab.c:401-455 | asking for a chunk size gives that class again |
| ZoneSizes.MaskRoundsUp | rt-thread/src/slab.c:406-452 | on machine words the masks round up to a multiple of the granule |
| ZoneSizes.PowerTest | rt-thread/src/slab.c:635 | the bit trick holds exactly for numbers with one bit set |
| ZoneSizes.ChunksEnough | rt-thread/src/slab.c:635-642 | every class below the zone limit has room for at least three chunks |
| ZoneSizes.ChunkInside | rt-thread/src/slab.c:635-648 | chunks lie behind the zone header and inside the zone |
| ZoneSizes.ChunksApart | rt-thread/src/slab.c:642-648 | different chunks of a zone do not overlap |
| ZoneSizes.ChunksMost | rt-thread/src/slab.c:635-642 | a zone has as many chunks as fit, behind at most the alignment |
| ZoneSizes.LimitIs | rt-thread/src/slab.c:379-381 | a request is small if and only if it is below a quarter of a zone and below 16 KB |
| ZoneSizes.ChunkAligned | rt-thread/src/slab.c:632-636 | chunks of every power-of-two size are aligned to it if and only if their zone is |
| ZoneSizes.SmallChunkAligned | rt-thread/src/slab.c:632-636 | power-of-two chunks up to a page are naturally aligned in every zone |
| ZoneSizes.LargeChunkMisaligned | rt-thread/src/slab.c:632-636 | a concrete zone on an odd page whose chunk of 8192 bytes is not |
| SlabSpec.TakeChunkOk | rt-thread/src/slab.c:541-568 | taking a chunk keeps `z_nfree` equal to never-used plus listed chunks and makes live exactly one chunk that was not |
| SlabSpec.GiveChunkOk | rt-thread/src/slab.c:830-842 | giving a chunk back keeps the count and ends the life of exactly that chunk |
| SlabSpec.EmptyZone | rt-thread/src/slab.c:854 | a zone whose count equals its maximum has no live chunk, so it may be retired |
| SlabSpec.EmptyExactly | rt-thread/src/slab.c:854 | the count equals its maximum if and only if no chunk of the zone is live |
| SlabProps.AllocChunkKeeps | rt-thread/src/slab.c:539-577 | serving a request from a listed zone keeps lists, counts, page ownership and memusage; exactly one chunk becomes live |
| SlabProps.InstallZoneKeeps | rt-thread/src/slab.c:610-652 | making a zone of held pages keeps the invariant; its chunk 0 becomes live and is large enough |
| SlabProps.ReuseZoneKeeps | rt-thread/src/slab.c:590-652 | reusing an idle zone keeps the invariant; its chunk 0 becomes live |
| SlabProps.FreeChunkKeeps | rt-thread/src/slab.c:822-900 | freeing a chunk, including retiring and releasing its zone, keeps the invariant and ends exactly that chunk's life |
| SlabProps.ZoneRetires | rt-thread/src/slab.c:854-900 | a zone retires if and only if its last live chunk is freed while another zone of its class has free chunks; it is kept idle if fewer than two zones are, and else its pages are given up |
| SlabProps.ReserveKeeps | rt-thread/src/slab.c:599-602 | pages taken by a caller between two locked regions are owned by it alone |
| SlabProps.ReturnKeeps | rt-thread/src/slab.c:894-897 | giving held pages back keeps the invariant |
| SlabProps.InstallLargeKeeps | rt-thread/src/slab.c:495-504 | held pages become a large block that was not live |
| SlabProps.DropLargeKeeps | rt-thread/src/slab.c:797-820 | freeing a large block ends exactly its life, and memusage still knows its size |
| SlabProps.LiveChunksApart | rt-thread/src/slab.c:642-648 | any two different live chunks, of whatever zones, occupy disjoint bytes |
| SlabProps.LiveLargeApart | rt-thread/src/slab.c:493-504 | large blocks overlap neither each other nor any zone |
| SlabProps.ZoneOfAddress | rt-thread/src/slab.c:825-832 | from the address of a live chunk memusage leads back to its zone and number |
| SlabProps.LiveStays | rt-thread/src/slab.c:478-900 | a live chunk stays live until the step that frees it, whatever other callers do |
| SlabProps.RunKeeps | rt-thread/src/slab.c:478-900 | over every interleaving of locked regions: counts exact, each `zone_array[i]` lists exactly the class-i zones with free chunks, every page free or owned once, memusage right |
| Slabs.SlabHeap.constructor | rt-thread/src/slab.c:344-394 | the heap starts with one run of pages of which the first hold memusage, with zones of 32, 64 or 128 KB by its size |
| Slabs.SlabHeap.Malloc | rt-thread/src/slab.c:478-660 | one undisturbed call performs exactly the steps of the specification |
| Slabs.SlabHeap.Free | rt-thread/src/slab.c:771-904 | one undisturbed call, given only the address, frees exactly that block |
| Slabs.ServedExactlyWhen | rt-thread/src/slab.c:534-652 | a small request fails if and only if its list is empty, no zone is idle and no pages for a zone are contiguous; otherwise a fresh chunk of sufficient size is returned |
| Slabs.FreedExactly | rt-thread/src/slab.c:771-904 | a free ends exactly one life, and the pages that become free are exactly those of the large block, or of a zone that retires while two are idle |
| Slabs.LargeExactlyWhen | rt-thread/src/slab.c:493-521 | a large request fails if and only if rounding wraps around or no contiguous pages are free; otherwise the block has room |
| Timers.StopsExactly | rt-thread/src/timer.c:374-381 | the wrapping comparison of the search agrees with the order of true deadlines exactly within half the tick range |
| Timers.ExpiredExactly | rt-thread/src/timer.c:552 | the wrapping expiry test agrees with true deadlines exactly within half the tick range |
| Timers.WindowsEnd | rt-thread/src/timer.c:374-381 | concrete deadlines just outside the windows that both comparisons get wrong |
| Timers.ScanIsBound | rt-thread/src/timer.c:358-385 | the place a search must find is the one a linear scan of unbounded deadlines finds |
| Timers.InsertKeeps | rt-thread/src/timer.c:394-395 | inserting there keeps the row sorted with equal deadlines in start order |
| Timers.LinkKeeps | rt-thread/src/timer.c:358-406 | linking at those places keeps every row sorted and a subsequence of the row below |
| Timers.TimerList.FindHeads | rt-thread/src/timer.c:357-385 | the multi-row search finds in every row the place a linear scan would, for any number of rows |
| Timers.TimerList.Start | rt-thread/src/timer.c:315-428 | every row stays sorted by true deadline and a subsequence of the row below; the queue becomes the old one without the timer, with it behind all deadlines up to its own |
| Timers.TimerList.Stop | rt-thread/src/timer.c:438-462 | exactly the timer leaves the queue; an inactive one is an error without effect |
| Timers.TimerList.Check | rt-thread/src/timer.c:529-594 | only timers due on entry fire, in deadline order and never early; each of them fires unless a callback touched it; at the end every timer is as the last callback action that names it left it, or as firing left it (periodic ones re-armed), or as it was; nothing due is left; it terminates |
| Timers.FiredExactly | rt-thread/src/timer.c:529-594 | when callbacks leave timers alone, exactly the due prefix of the queue fires, in order |
| Timers.TimerList.TickIncrease | rt-thread/src/clock.c:62-89 | after every tick nothing is overdue, so runs of starts, stops and ticks stay in the window in which wrapped comparisons are right |
| Timers.TimerList.StartSettled | rt-thread/src/timer.c:315-428 | outside of callbacks a start needs no assumption about other deadlines |
| Waiters.SuspendOrdered | rt-thread/src/ipc.c:96-122 | suspending in priority order keeps the list stably sorted |
| Waiters.FifoAppends | rt-thread/src/ipc.c:92-94 | in FIFO order a thread goes to the end |
| Waiters.PlaceSeparates | rt-thread/src/ipc.c:101-120 | the place found separates the waiters at least as urgent from the less urgent ones |
| Waiters.SuspendJoins | rt-thread/src/ipc.c:84-128 | a suspended thread joins the line behind all it lets go first, and has its timer running if and only if it may not wait forever; nobody else is concerned |
| Waiters.WakeFirst | rt-thread/src/ipc.c:140-153 | resuming the first waiter for a new unit loses no wakeup |
| Semaphores.RunConserves | rt-thread/src/ipc.c:330-531 | over every run nobody waits while the value is positive, and the value of the last reset, as called, plus successful releases since equals value plus granted takes |
| Semaphores.TakeOutcome | rt-thread/src/ipc.c:342-397 | succeeds if and only if the value is positive; at value 0 it times out at once for a timeout of 0 and else waits in line |
| Semaphores.ReleaseOutcome | rt-thread/src/ipc.c:453-480 | the first waiter and nobody else is resumed; without waiters the value goes up by one, up to 65535, beyond which it is full |
| Semaphores.RunTimers | rt-thread/src/ipc.c:384-397 | after any run a waiter can time out if and only if the timeout of its last take, as the calls say, is positive; nobody waits after a reset |
| Semaphores.TimeoutOutcome | rt-thread/src/thread.c:858-880 | exactly the timed-out thread leaves the line |
| Semaphores.ReleasePicksFirst | rt-thread/src/ipc.c:460-465 | a release goes to the most urgent waiter, or among equals and in FIFO order to the first one suspended |
| Semaphores.Semaphore.constructor | rt-thread/src/ipc.c:205-227 | the initial state satisfies the invariant |
| Semaphores.Semaphore.SemTake | rt-thread/src/ipc.c:330-413 | takes a unit, times out at once, or suspends in line; the invariant is kept |
| Semaphores.Semaphore.SemRelease | rt-thread/src/ipc.c:439-487 | hands the unit to the first waiter, or counts it, or reports overflow; the invariant is kept |
| Semaphores.Semaphore.ThreadTimeout | rt-thread/src/thread.c:858-880 | exactly the timed-out thread leaves the line |
| Semaphores.Semaphore.SemReset | rt-thread/src/ipc.c:507-528 | all waiters leave and the value is set, cut to 16 bits |
| Mutexes.RunKeepsInv | rt-thread/src/ipc.c:670-933 | over all interleavings of take, nested take, release and timeout: at most one owner, `value` 0 exactly when owned, waiters stably sorted, every non-owner at its base priority |
| Mutexes.TakeOutcome | rt-thread/src/ipc.c:697-785 | a free mutex is taken, the owner goes one level deeper below 255 levels and is refused at 255, anybody else times out at once for a timeout of 0 and waits in line for any other |
| Mutexes.ReleaseOutcome | rt-thread/src/ipc.c:835-923 | only the owner releases; before its last level only the level changes |
| Mutexes.RunTimers | rt-thread/src/ipc.c:770-780 | after any run a waiter can time out if and only if the timeout of its last take is positive |
| Mutexes.RunReportsTimeout | rt-thread/src/thread.c:866-867 | a thread whose wait has timed out finds so in its error field until it calls again, whatever others do |
| Mutexes.NoInversion | rt-thread/src/ipc.c:755-767 | the owner never runs at a worse priority than a thread waiting for it |
| Mutexes.HandOff | rt-thread/src/ipc.c:864-905 | the last release restores the priority and gives the mutex to the most urgent, longest waiting thread |
| Mutexes.LevelsBalance | rt-thread/src/ipc.c:697-923 | every thread holds exactly the levels it was granted and has not released |
| Mutexes.BoostOutlivesTimeout | rt-thread/src/thread.c:858-880 | a concrete run in which the boost stays after the waiter that caused it has timed out |
| Mutexes.BoostExactlyWhen | rt-thread/src/ipc.c:755-767 | the owner runs at the best of its own priority and those of the threads waiting now if and only if everyone who waited during the ownership is matched by the owner or by a thread still waiting |
| Mutexes.TimeoutExactlyWhen | rt-thread/src/thread.c:858-880 | a timeout leaves an exact boost exact if and only if the owner or another waiter is at least as urgent as the thread that gives up |
| Mutexes.Mutex.constructor | rt-thread/src/ipc.c:546-563 | the initial state satisfies the invariant |
| Mutexes.Mutex.MutexTake | rt-thread/src/ipc.c:670-811 | the caller becomes owner, goes one level deeper, times out, or waits in line and lends the owner its priority; the invariant is kept; the overflow return of lines 730-734 is unreachable, that of lines 704-708 taken exactly at 255 levels |
| Mutexes.Mutex.MutexRelease | rt-thread/src/ipc.c:826-933 | one level is given back, with the last one the priority is restored and the first waiter becomes owner, or nobody; others than the owner get an error; the invariant is kept; the overflow returns of lines 895-899 and 913-917 are unreachable |
| Mutexes.Mutex.ThreadTimeout | rt-thread/src/thread.c:858-880 | exactly the timed-out thread leaves the line; the invariant is kept |
| Events.WalkLeavesNone | rt-thread/src/ipc.c:1106-1160 | after the walk of a send no thread that stays suspended is satisfied by what is left of the set, although CLEAR waiters shrink it on the way |
| Events.WalkGives | rt-thread/src/ipc.c:1116-1134 | each resumed thread got its full set (AND) or a non-empty subset (OR), and only bits that were set |
| Events.WalkClears | rt-thread/src/ipc.c:1149-1151 | a bit that is gone after a send was received by a CLEAR waiter |
| Events.SendOutcome | rt-thread/src/ipc.c:1088-1164 | a send turns the events on: each thread in line is resumed if and only if what those before it have left satisfies it, and receives from that; set in the end is what was set or sent but for what resumed CLEAR threads took |
| Events.SendReaches | rt-thread/src/ipc.c:1102-1157 | without CLEAR threads in front of it every satisfied thread is resumed; without any all that was sent stays set |
| Events.SatisfiedExactly | rt-thread/src/ipc.c:1116-1130 | AND wants all events set, OR at least one |
| Events.RecvOutcome | rt-thread/src/ipc.c:1201-1284 | success takes the events, and takes them out of the set if and only if CLEAR is given; else it times out at once or waits in line for what it asked for |
| Events.RunSets | rt-thread/src/ipc.c:1081-1341 | after any run an event is set if and only if it was sent since the last reset and no CLEAR thread has received it since |
| Events.RunTimers | rt-thread/src/ipc.c:1269-1277 | after any run a waiter can time out if and only if the timeout of its last receive is positive; nobody waits after a reset |
| Events.SendKeeps | rt-thread/src/ipc.c:1081-1170 | a send keeps the invariant and gives every resumed thread the right events |
| Events.RecvKeeps | rt-thread/src/ipc.c:1186-1305 | a receive succeeds if and only if the set satisfies it, gets the right events, and keeps the invariant |
| Events.RunKeeps | rt-thread/src/ipc.c:1081-1341 | in every reachable state no suspended thread is satisfied by the event set |
| Events.EventGroup.constructor | rt-thread/src/ipc.c:967-985 | the initial state satisfies the invariant |
| Events.EventGroup.EventSend | rt-thread/src/ipc.c:1081-1170 | the loop over the suspended threads wakes, in line order, exactly those satisfied by what CLEAR waiters before them left; the EINVAL return inside it is unreachable |
| Events.EventGroup.EventRecv | rt-thread/src/ipc.c:1186-1305 | succeeds if and only if the set satisfies the request, else times out or joins the line; the invariant is kept |
| Events.EventGroup.ThreadTimeout | rt-thread/src/thread.c:858-880 | exactly the timed-out thread leaves the line; the invariant is kept |
| Events.EventGroup.EventReset | rt-thread/src/ipc.c:1325-1341 | all waiters leave and the set is emptied |
| Mailboxes.RunIsFifo | rt-thread/src/ipc.c:1510-1840 | over every run: `in_offset` is `out_offset` plus `entry` modulo size, mails sent since the last reset are those received followed by those in the ring, in order, and no wakeup is lost on either side |
| Mailboxes.SendOutcome | rt-thread/src/ipc.c:1533-1630 | into a full ring a send fails at once for a timeout of 0 and else waits in line; one that finds room resumes the first receiver and nobody else |
| Mailboxes.RecvOutcome | rt-thread/src/ipc.c:1688-1785 | from an empty ring a receive times out at once for a timeout of 0 and else waits in line; one that finds a mail resumes the first sender and nobody else |
| Mailboxes.RunTimers | rt-thread/src/ipc.c:1562-1569 | after any run a waiter can time out if and only if the timeout of its last call is positive; nobody waits after a reset |
| Mailboxes.SendKeeps | rt-thread/src/ipc.c:1538-1638 | a send that finds room appends its mail and resumes a receiver; the invariant is kept |
| Mailboxes.RecvKeeps | rt-thread/src/ipc.c:1692-1795 | a receive that finds a mail removes the oldest and resumes a sender; the invariant is kept |
| Mailboxes.Mailbox.constructor | rt-thread/src/ipc.c:1362-1391 | for every size, cut to 16 bits, the initial ring is empty and satisfies the invariant |
| Mailboxes.Mailbox.MbSend | rt-thread/src/ipc.c:1510-1638 | the mail goes behind the others in the ring and a receiver is resumed, or the ring is full and the sender fails or waits; the overflow return of lines 1615-1619 is unreachable |
| Mailboxes.Mailbox.MbRecv | rt-thread/src/ipc.c:1667-1795 | the oldest mail is returned and leaves the ring and a sender is resumed, or the ring is empty and the receiver fails or waits |
| Mailboxes.Mailbox.ThreadTimeout | rt-thread/src/thread.c:858-880 | exactly the timed-out thread leaves its line; no wakeup is lost |
| Mailboxes.Mailbox.MbReset | rt-thread/src/ipc.c:1815-1840 | all waiters leave and the ring is emptied |
| MsgQueues.StepIsDeque | rt-thread/src/ipc.c:2056-2537 | every critical section keeps the invariant and acts on the queued messages as a deque: send at the back, urgent at the front, receive from the front, reset empties |
| MsgQueues.RunConserves | rt-thread/src/ipc.c:2056-2537 | over every interleaving the messages sent since the last reset are those received and those queued, in order if none was urgent; nodes are partitioned and no wakeup is lost |
| MsgQueues.GrabOutcome | rt-thread/src/ipc.c:2089-2163 | a sender gets the first free node; without one an urgent send and one with timeout 0 fail at once, any other waits in line |
| MsgQueues.LinkOutcome | rt-thread/src/ipc.c:2171-2214 | linking a message resumes the first receiver and nobody else |
| MsgQueues.PopOutcome | rt-thread/src/ipc.c:2363-2452 | a receiver gets the node at the head; from an empty queue it times out at once for a timeout of 0 and else waits in line |
| MsgQueues.ReturnOutcome | rt-thread/src/ipc.c:2457-2484 | giving a node back resumes the first sender and nobody else |
| MsgQueues.RunTimers | rt-thread/src/ipc.c:2119-2126 | after any run a waiter can time out if and only if the timeout of its last call is positive; nobody waits after a reset |
| MsgQueues.NodeCount | rt-thread/src/ipc.c:1889-1903 | free, queued and in-flight nodes always add up to `max_msgs` |
| MsgQueues.RoomToLink | rt-thread/src/ipc.c:2186-2195 | while a node is in flight the queue is shorter than the entry limit |
| MsgQueues.HeldStays | rt-thread/src/ipc.c:2160-2172 | a node in the hands of a thread, and its message, are untouched by all other threads |
| MsgQueues.ReceivedIntact | rt-thread/src/ipc.c:2436-2458 | a receiver copies out the message that was at the head when it took it, whatever happened in between |
| MsgQueues.SentIntact | rt-thread/src/ipc.c:2166-2189 | what a sender copied in is what its second critical section puts on the queue |
| MsgQueues.MessageQueue.constructor | rt-thread/src/ipc.c:1862-1913 | the free list runs through all nodes, with the sizes cut to 16 bits |
| MsgQueues.MessageQueue.SendBegin | rt-thread/src/ipc.c:2056-2164 | takes the first free node, reports full or suspends; too large messages are refused |
| MsgQueues.MessageQueue.SendCopy | rt-thread/src/ipc.c:2166-2169 | fills the node and clears its link; nothing else changes |
| MsgQueues.MessageQueue.SendEnd | rt-thread/src/ipc.c:2171-2214 | links the node at the tail, or at the head if urgent, resumes a receiver; the overflow returns of lines 2191-2195 and 2299-2303 are unreachable; head, tail and `entry` agree with the list |
| MsgQueues.MessageQueue.RecvBegin | rt-thread/src/ipc.c:2337-2452 | takes the node at the head, times out or suspends; tail and `entry` follow |
| MsgQueues.MessageQueue.RecvCopy | rt-thread/src/ipc.c:2454-2455 | the receiver gets the first bytes of the node it holds, at most the message size |
| MsgQueues.MessageQueue.RecvEnd | rt-thread/src/ipc.c:2457-2484 | puts the node back on the free list and resumes a sender |
| MsgQueues.MessageQueue.MqReset | rt-thread/src/ipc.c:2506-2537 | resumes everybody and moves all queued nodes to the free list, leaving in-flight nodes with their threads |
| MsgQueues.MessageQueue.ThreadTimeout | rt-thread/src/thread.c:858-880 | exactly the timed-out thread leaves its line |
| ReadyBits.FfsIsLowest | rt-thread/src/kservice.c:1323-1337 | `__rt_ffs` is the number, counted from one, of the lowest bit that is set, and 0 exactly for 0 |
| ReadyBits.FfsWordIsLowest | rt-thread/src/kservice.c:1323-1337 | the same on 32-bit words |
| ReadyBits.HighestIsBest | rt-thread/src/scheduler.c:153-175 | with one word or two levels, the search finds the best marked priority |
| ReadyBits.MarkOk | rt-thread/src/scheduler.c:724-728 | inserting marks exactly the thread's priority and keeps the two levels consistent |
| ReadyBits.UnmarkOk | rt-thread/src/scheduler.c:811-822 | removing the last thread unmarks exactly its priority and keeps the two levels consistent |
| Schedulers.ScheduleOutcome | rt-thread/src/scheduler.c:409-529 | after an unlocked `rt_schedule` with a thread that can run, the one RUNNING thread is in no list and no ready thread is better; the invariant is kept |
| Schedulers.ScheduleFrame | rt-thread/src/scheduler.c:409-529 | nothing happens while the scheduler is locked or nothing is ready; otherwise at most the thread that loses the processor and the one that gets it change |
| Schedulers.CurrentStays | rt-thread/src/scheduler.c:432-445 | a running thread that has not yielded keeps the processor from threads that are not better |
| Schedulers.UnlinkExactlyWhen | rt-thread/src/thread.c:833-837 | in every good state the first region of `rt_thread_resume` keeps the scheduler invariant if and only if the thread is not READY |
| Schedulers.InsertExactlyWhen | rt-thread/src/scheduler.c:699-734 | in every good state inserting a thread keeps the scheduler invariant if and only if it is not READY |
| Schedulers.UnlinkAgreesExactlyWhen | rt-thread/src/thread.c:833-837 | unlinking a thread without touching the bitmap leaves bitmap and lists in agreement if and only if it was not alone in its ready list |
| SchedulerRuns.StepExactlyWhen | rt-thread/src/thread.c:815-880 | a step of any caller, region by region, leads out of the good states if and only if it is a region of `rt_thread_resume` entered at a thread that has become READY, or, for the second, that waits with its timer running again |
| SchedulerRuns.RunExactlyWhen | rt-thread/src/thread.c:815-880 | a run of any number of interrupted callers stays in good states if and only if none of its steps is such a stale one |
| SchedulerRuns.RunKeeps | rt-thread/src/thread.c:815-880 | in every reachable state of a run in which nobody else resumes a thread, and it does not time out, while a caller is inside `rt_thread_resume` of it: each READY thread is in exactly its own list, only the current thread is RUNNING, bitmap and lists agree, threads with a running timer are suspended; after every unlocked `rt_schedule` the best thread runs |
| SchedulerRuns.SleepOutcome | rt-thread/src/thread.c:766-803 | a thread that goes to sleep can time out if and only if its timer was started with that |
| SchedulerRuns.WakeOutcome | rt-thread/src/thread.c:858-880 | a thread that wakes up has its timer stopped and goes behind the others of its priority; nothing else changes |
| SchedulerRuns.ResumesInRegions | rt-thread/src/ipc.c:140-153 | so it is when every resume is made with interrupts disabled |
| SchedulerRuns.OverlapBreaks | rt-thread/src/thread.c:824-845 | a concrete run of two overlapping resumes of one thread, after which it is READY in no list and the best bit stands for an empty list |
| SchedulerRuns.TimeoutBreaks | rt-thread/src/thread.c:824-880 | the same when the thread times out between the test and the first region |
| Schedulers.ResumePreempts | rt-thread/src/thread.c:815-850 | a resumed thread better than all others gets the processor at the next `rt_schedule` |
| Schedulers.YieldRotates | rt-thread/src/thread.c:508-521 | a yield moves the current thread behind the others of its priority |
| Schedulers.RoundRobin | rt-thread/src/thread.c:508-521 | with n top-priority threads that only yield, n yields run each exactly once and restore the order |
| Schedulers.YieldRenews | rt-thread/src/thread.c:508-521 | a yield renews the slice of the thread that yields, and no other |
| Schedulers.TickOutcome | rt-thread/src/clock.c:76-85 | a tick counts the slice down; the one that uses it up renews it and moves the thread behind the others of its priority |
| Schedulers.TimeSlicing | rt-thread/src/clock.c:62-89 | while nothing but ticks happens, each thread of the top priority in turn runs for exactly its slice |
| Schedulers.RoundRestores | rt-thread/src/clock.c:62-89 | and after a round of that the order and all slices are as before |
| Schedulers.ChangePriorityKeeps | rt-thread/src/thread.c:673-714 | changing a priority keeps the invariant; a ready thread moves to its new list |
| Schedulers.ChangePriorityOutcome | rt-thread/src/thread.c:673-714 | the thread has the new priority, and if ready is last of its new list and in no other |
| Schedulers.SuspendKeeps | rt-thread/src/thread.c:766-803 | suspending keeps the invariant; threads neither ready nor running are an error |
| Schedulers.SuspendOutcome | rt-thread/src/thread.c:766-803 | the thread leaves its list and is suspended; nothing else changes |
| Schedulers.ResumeOutcome | rt-thread/src/thread.c:815-850 | an undisturbed resume makes a suspended thread ready, last of its list; nothing else changes |
| Schedulers.StartupKeeps | rt-thread/src/thread.c:315-345 | starting a thread without interruption keeps the invariant |
| Schedulers.StartupOutcome | rt-thread/src/thread.c:315-345 | it is ready at its initial priority, last of its list, and has not yielded; nothing else changes |
| Schedulers.UnlockOutcome | rt-thread/src/scheduler.c:936-964 | one lock less; with the last the best thread runs |
| Schedulers.TickKeeps | rt-thread/src/clock.c:62-85 | counting down and using up a time slice keep the invariant; see `TickOutcome` |
| Schedulers.Scheduler.constructor | rt-thread/src/scheduler.c:182-231 | the initial state satisfies the invariant with an empty bitmap, every thread at its initial priority with a whole slice |
| Schedulers.Scheduler.InsertThread | rt-thread/src/scheduler.c:699-734 | lists, state and bitmap change together: a bit is set exactly for non-empty lists |
| Schedulers.Scheduler.RemoveThread | rt-thread/src/scheduler.c:796-826 | the thread leaves its list, and the bit of a list that becomes empty is cleared, on both levels |
| Schedulers.Scheduler.GetHighest | rt-thread/src/scheduler.c:153-175 | returns the first thread of the best non-empty list |
| Schedulers.Scheduler.Schedule | rt-thread/src/scheduler.c:409-529 | unless locked, the best thread that can run is the running one and is in no list; bitmap and lists agree |
| Schedulers.Scheduler.Yield | rt-thread/src/thread.c:508-521 | the slice is renewed and the running thread goes behind the others of its priority; the invariant and the bitmap are kept |
| Schedulers.Scheduler.ThreadSuspend | rt-thread/src/thread.c:766-803 | one undisturbed call: a ready or running thread leaves the ready table, any other is an error without effect; bitmap and lists agree |
| Schedulers.Scheduler.UnlinkThread | rt-thread/src/thread.c:833-837 | the first region of `rt_thread_resume`: the thread leaves its list, and the bitmap stays as it is |
| Schedulers.Scheduler.ThreadResume | rt-thread/src/thread.c:815-850 | one undisturbed call: a suspended thread goes to the end of its list, any other is an error without effect; bitmap and lists agree |
| Schedulers.Scheduler.ThreadTimeout | rt-thread/src/thread.c:858-880 | a timed-out thread becomes ready and the scheduler runs |
| Schedulers.Scheduler.ThreadStartup | rt-thread/src/thread.c:315-345 | one undisturbed call: the thread becomes ready at its initial priority and the scheduler runs; bitmap and lists agree |
| Schedulers.Scheduler.ThreadChangePriority | rt-thread/src/thread.c:673-714 | a ready thread leaves its old list and joins the end of its new one, with both bits right; any other only changes its priority |
| Schedulers.Scheduler.TickIncrease | rt-thread/src/clock.c:62-85 | counts the slice down and yields when it is used up |
| Schedulers.Scheduler.EnterCritical | rt-thread/src/scheduler.c:872-887 | locks one level and changes nothing else |
| Schedulers.Scheduler.ExitCritical | rt-thread/src/scheduler.c:936-964 | unlocks one level and schedules at the last |
| Inheritance.BlockAgrees | rt-thread/src/ipc.c:755-767 | after a blocking take the priorities in the ready lists are those of the mutex model, and its waiters are suspended |
| Inheritance.ReleaseAgrees | rt-thread/src/ipc.c:826-933 | so they are after a release: restored at the last level, with the first waiter resumed |
| Inheritance.TimeoutAgrees | rt-thread/src/thread.c:858-880 | so they are after the timeout of a waiter |
| Inheritance.RunAgrees | rt-thread/src/ipc.c:670-933 | over every run of takes, releases, timeouts, ticks, other waits and `rt_schedule`, mutex and ready lists agree; after an unlocked `rt_schedule` no thread less urgent than one that waits for the mutex runs while the owner could |
| Inheritance.OwnerGoesFirst | rt-thread/src/ipc.c:755-787 | after a blocking take and `rt_schedule` with the owner ready, no thread worse than the one that waits runs, so the owner goes before every thread between the two; it runs if no other ready thread is as good as the one that waits |
| Inheritance.NewOwnerRuns | rt-thread/src/ipc.c:867-930 | after the last release and `rt_schedule` all priorities are the original ones and no thread worse than the new owner runs; the new owner does if it is better than all others |
| Oled.Screen.ClearArea | qu_dong/OLED/OLED.c:211-224 | for every area on which the loops end, with 16-bit counters, exactly the on-screen pixels of the rectangle are cleared, for every position including negative ones |
| Oled.Screen.ShowImage | qu_dong/OLED/OLED.c:330-359 | for every position at which it ends and every image blank below its height, each on-screen pixel of the rectangle becomes its bit of the image and every other pixel stays; for any image, what else the pages hold is painted as well |
| Oled.PixelPerfect | qu_dong/OLED/OLED.c:330-359 | row r, column c of the image is bit r % 8 of byte (r / 8) * width + c: if it is blank below its height, exactly these are shown, and nothing around the rectangle changes |
| Oled.PagesCover | qu_dong/OLED/OLED.c:335 | the loop runs over as many pages as cover the height, and no more, but at least one |
| Oled.Screen.Blit | qu_dong/OLED/OLED.c:341-355 | one shifted byte sets exactly the pixels of its eight rows, over the two pages it meets |
| Oled.ExactExactlyWhen | qu_dong/OLED/OLED.c:330-359 | the picture is exact, bit by bit, on the screen for every position at which it ends and every background if and only if the image is blank below its height |
| Oled.NoHeightPaints | qu_dong/OLED/OLED.c:335 | a concrete image of height 0 that paints a pixel |
| Oled.OverExactlyAt | qu_dong/OLED/OLED.c:213-216 | counting in 16 bits, a loop over `size` numbers is over after exactly `size` rounds if its bound is a 16-bit number, and otherwise never |
| Oled.AreaEndsExactly | qu_dong/OLED/OLED.c:211-224 | the two loops end if and only if the height is 0 or both bounds are 16-bit numbers |
| Oled.AreaRunsForever | qu_dong/OLED/OLED.c:211-224 | a concrete area of one pixel on which the loops never end |
| Oled.Screen.DrawPoint | qu_dong/OLED/OLED.c:361-367 | sets exactly that pixel, if it is on the screen |
| Oled.Screen.GetPoint | qu_dong/OLED/OLED.c:369-379 | reads the pixel, 0 off the screen |
| Oled.ShiftLeftBit | qu_dong/OLED/OLED.c:350 | the left shift of a byte, bit by bit |
| Oled.ShiftRightBit | qu_dong/OLED/OLED.c:354 | the right shift of a byte, bit by bit |
| Oled.OrBit | qu_dong/OLED/OLED.c:350 | the or of two bytes, bit by bit |
| Oled.SetAndClearBit | qu_dong/OLED/OLED.c:220 | setting and clearing one bit through a mask, bit by bit |
| Stopwatches.AdvanceFollows | applications/timebase.c:39-42 | a read extends the 32-bit counter correctly if and only if less than 2^32 cycles passed since the last one |
| Stopwatches.MicrosExact | applications/timebase.c:43 | the result is the scaled cycle count if and only if the product fits 64 bits |
| Stopwatches.ClockIsExact | applications/timebase.c:21-48 | read often enough, the time base equals the true cycle count scaled to microseconds and never goes back |
| Stopwatches.TimeBase.GetUs | applications/timebase.c:35-44 | one read refines the 32-to-64-bit extension and scaling whose exactness `ClockIsExact` proves |
| Stopwatches.ModeIs | applications/stopwatch.c:60-111 | it is Running if and only if it was started and not stopped since; otherwise Paused if it was on since the last reset while off, and else Idle |
| Stopwatches.RunShows | applications/stopwatch.c:29-199 | after any run the shown total is the time between starts and stops since the last reset, as the events and their times alone say, less than a millisecond short for each time it was turned on, while that fits 32 bits; and the number of kept laps is that since the last reset or clearing, at most 20 |
| Stopwatches.LapShows | applications/stopwatch.c:113-136 | and a lap is the time it was on since the lap before or the clearing, to a millisecond for each time it was turned on |
| Stopwatches.TotalAccurate | applications/stopwatch.c:29-38 | the shown total is the whole one if and only if that fits 32 bits; then total*1000 <= true running microseconds < (total+n)*1000 with n segments begun since the reset |
| Stopwatches.LapsTelescope | applications/stopwatch.c:117-131 | no lap is negative, all laps telescope to the total, and the kept ones are the last min(k, 20); each is shown in 32 bits, exactly so while the total fits |
| Stopwatches.StopFreezes | applications/stopwatch.c:75-90 | stopping does not change the shown total |
| Stopwatches.StartCounts | applications/stopwatch.c:31-71 | a start turns every stopwatch on that is not, and what follows counts if and only if it does not start at time 0 |
| Stopwatches.WaitKeeps | applications/stopwatch.c:29-38 | the shown total never decreases while time goes by, until it passes 2^32 milliseconds |
| Stopwatches.RunKeeps | applications/stopwatch.c:60-199 | over every run of start, stop, lap, clear and reset in which no segment begins at time 0, however long, the fields stand for the running time, segments and laps of the history that `HistoryIs` ties to the events |
| Stopwatches.HistoryIs | applications/stopwatch.c:60-199 | that history has the running time, the segments and the laps that the events and their times alone say |
| Stopwatches.CycleRunIsRun | applications/timebase.c:35-48 | driven by the cycle counter, with only the reads the code makes, and with pauses of any length, the stopwatch behaves as one told the times the clock shows, as long as the counter is read before it comes round while the stopwatch runs |
| Stopwatches.RunningClose | applications/timebase.c:35-48 | the running time the clock shows is off from the time the stopwatch was on in true cycles, as starts, stops and resets say, by less than a microsecond for each time it was turned on, whatever rounds of the counter the clock missed in pauses |
| Stopwatches.StopwatchExact | applications/stopwatch.c:29-199 | at 72 MHz, over every such run on the cycle counter, the shown total is within a millisecond, for each time it was turned on, of the true cycles between starts and stops, and all laps add up to it |
| Stopwatches.Stopwatch.constructor | applications/stopwatch.c:40-58 | the initial state is idle with nothing counted |
| Stopwatches.Stopwatch.StopwatchStart | applications/stopwatch.c:60-73 | refines the start event of the runs in `RunKeeps`; a running stopwatch is left alone |
| Stopwatches.Stopwatch.StopwatchStop | applications/stopwatch.c:75-90 | refines the stop event of the runs in `RunKeeps`: the segment is folded into the total once |
| Stopwatches.Stopwatch.StopwatchReset | applications/stopwatch.c:92-111 | refines the reset event of the runs in `RunKeeps`: a running stopwatch begins a new segment, any other becomes idle |
| Stopwatches.Stopwatch.StopwatchLap | applications/stopwatch.c:113-136 | appends the lap, dropping the oldest of twenty |
| Stopwatches.Stopwatch.StopwatchClearLaps | applications/stopwatch.c:191-199 | refines the clear event of the runs in `RunKeeps`: later laps count from the total of now, the total is untouched |
| Stopwatches.Stopwatch.GetLap | applications/stopwatch.c:165-189 | the lap at an index, 0 beyond the last |

## Left out

- Allocation failure inside the kernel's own use of semaphores as heap locks: a take of the heap lock always succeeds.
- Small-memory heaps with less than `MIN_SIZE_ALIGNED` cells of payload and memheap pools without room for one cell: the source does not check for them and the constructors exclude them.
- `SmallMem.Heap.Realloc` and `MemHeaps.MemHeap.Realloc` are one undisturbed call, contents included; in the run models of both heaps realloc is its locked regions (`ReallocIsSteps`), over block lists without contents.
- MemHeaps.MemHeap.Realloc: sizes for which the wrapped test accepts a free block that is too small (`ReallocExactlyWhen`) are excluded, because what is written then lies outside the pool.
- `rt_realloc` of `slab.c`, `rt_calloc`, memory statistics, hooks and `RT_USING_MEMTRACE`: they add nothing harder than what is modelled.
- SlabSpec.TakeChunkOk: the chunks on a zone's free list are numbered instead of holding their addresses; `ZoneOfAddress` ties the two together.
- Slabs.SlabHeap.Malloc: one undisturbed call; interleaved calls are covered by `SlabProps.RunKeeps` over their locked regions. The links `z_next` of zone lists are sequences.
- Suspend lists, ready lists and timer rows are sequences in their modules; `RtLists` proves the links refine sequences.
- Timers.TimerList.Check: callbacks may start and stop any timer but do not change a timer's settings, and every timer is armed for at least one and less than half the tick range; a level of a new timer comes from the low bits of a counter, as in the source.
- The soft-timer thread, `rt_timer_next_timeout_tick`, detaching and deleting timers.
- Semaphores.RunConserves: the priorities of waiting threads stay as they are, as everywhere in the communication modules but for the boost of a mutex owner.
- Oled.Screen.ClearArea: areas on which the loops do not end (`AreaEndsExactly`) are excluded.
- Mutexes.RunKeepsInv: one mutex with priority-ordered waiters; FIFO mutexes, nested inheritance over several mutexes and outside changes of priority are not modelled.
- Mailboxes.RunIsFifo, MsgQueues.RunConserves: the recomputation of the remaining timeout after a resumption is not modelled; a resumed thread may go on waiting for any time.
- Events.EventGroup.EventRecv: a receive with neither AND nor OR, which the source asserts against, is excluded. Event sets are sets of bit numbers.
- Detaching and deleting of communication objects and threads, signals, symmetric multiprocessing, stack checks, debug output.
- ReadyBits.FfsIsLowest: the table of lowest bits is given by the function it tabulates; words are their bits.
- Schedulers.ScheduleOutcome: context switching is the change of the current thread; interrupt nesting is not modelled.
- SchedulerRuns.RunKeeps: overlapping resumes of one thread are excluded, for which it fails (`OverlapBreaks`). Runs are not followed behind a stale step. The links a suspended thread has in the waiting line of an object are part of the communication modules.
- Oled.Screen.ShowImage: bytes are their bits, tied to the operations on machine words by separate lemmas; sending the buffer to the display, text and fonts are not modelled.
- Stopwatches.StopwatchExact: cycle counts whose scaling exceeds 64 bits, that is more than 71 hours at 72 MHz on the clock, are excluded (`MicrosExact`).
- Stopwatches.RunKeeps: segments that begin at time 0, which the code does not count (`StartCounts`), are excluded.
- Stopwatches.TimeBase.GetUs: the lock is taken to make every operation atomic, and the current time is a parameter; the tick fallback of `timebase_get_us` without a cycle counter is not modelled.
- `mempool.c`, `object.c`, `device.c`, `idle.c`, the console and formatting functions of `kservice.c`, drivers and user interface.

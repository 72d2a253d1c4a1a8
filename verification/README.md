# RT-Thread kernel

A model of the RT-Thread kernel under `TP79_APP/rt-thread`, in the configuration of `TP79_APP/rtconfig.h`: one core,
32 priorities, 32-bit words. It covers the three heap allocators, the scheduler and the thread states, the objects for
synchronisation and communication, the memory pool, the formatter behind `rt_kprintf`, and the intrusive lists and the
bit scan under them.

Most components come in three parts. A `...Spec` module says on values what one call, or one section with interrupts
disabled, does. A `...Laws` module proves what that promises: invariants over every history or every interleaving, and
where the code does not keep a promise, the exact condition under which it does and a history that breaks it. An
`...Answers` module says, from the state before a call alone, what the call answers and everything it changes. The
module of the class changes links, headers, counters and bytes in place, as the source does, and its methods are
proved to have the effect the first part describes.

- Heaps: `Blocks`, `Stretches` (what a caller knows of a heap), `Payloads`, `MemHeapSpec`, `MemHeapLaws`, `MemHeap`
  (memheap.c); `SmallMemSpec`, `SmallMemLaws`, `SmallMem` (mem.c); `PageRuns`, `PageAllocator`, `SlabSpec`,
  `SlabLaws`, `SlabAnswers`, `Slab` (slab.c). Addresses are offsets from the start of the pool. Each header field is
  one store, a map from the header's address to its value; where payload bytes are part of the model, writing a header
  leaves arbitrary bytes in its place.
- Threads: `Sched` (the state and the calls), `SchedLaws`, `SchedRuns`, `SchedAnswers`, `ThreadLists` (one list node
  for each thread and one list head for each priority and object), `Scheduler` (the kernel object), `RoundRobin`,
  `ClockTick`.
- Objects: `WaitQueue` (wait lists), `Wakeups` (what blocked callers of one side have in common), `Waiting` (what
  waiting, being woken and timing out change), `Blocking`, and for each object its own modules. A system state holds
  the kernel, the object and the calls that have not returned; a step is one section of one caller, a timeout, a yield
  or an interrupt's call. Time is a step: a timer may run out whenever it is armed.
- Text and bytes: `FormatSpec`, `FormatLaws`, `FormatAnswers`, `Formatter`, `ByteMove`, `BitScan`. Lists: `Rings`,
  `Chains`.

Where the code and its comments disagree the model follows the code:

- `rt_realloc` of mem.c may leave a free block below `lfree`, described as the lowest free block (mem.c:131, 470-493).
- `rt_malloc` of mem.c passes over a free block that ends at `heap_end` and fits exactly (mem.c:306).
- `rt_mp_alloc` does not take a caller that has timed out off `suspend_thread_count` (mempool.c:357-358), and the next
  free takes the head of the empty list for a thread.
- a mutex with `RT_IPC_FLAG_FIFO` hands over without raising the new owner to the urgency of its waiters
  (ipc.c:851-854).
- octal conversion prints hexadecimal digits (kservice.c:574-582); with a precision of zero no number prints any
  digit, and `%s` prints its whole string.
- `rt_memheap_realloc` compares with a sum that wraps for sizes near 2 to the 32 (memheap.c:350).

## Model

| member | source | states |
|---|---|---|
| `Rings.RingInsert` | TP79_APP/rt-thread/include/rtservice.h:58-65 | the four link writes turn a ring into the ring with the new node right behind its anchor, in both directions |
| `Rings.RingRemove` | TP79_APP/rt-thread/include/rtservice.h:86-92 | the two link writes bypass exactly one node: the ring without it, in both directions |
| `Rings.RingUnique` | TP79_APP/rt-thread/include/rtservice.h:47-118 | the links determine the list: two sequences that follow the same links from the same node are equal |
| `ThreadLists.LinkLinks` | TP79_APP/rt-thread/include/rtservice.h:58-80 | linking a thread's node into one list leaves every other list and every unlinked node as it was, for all lists of the kernel at once |
| `ThreadLists.UnlinkLinks` | TP79_APP/rt-thread/include/rtservice.h:86-92 | unlinking a thread's node leaves it linked to itself and every other list as it was |
| `MemHeapLaws.InitWF` | TP79_APP/rt-thread/src/memheap.c:50-121 | the initial heap is well formed: one free block and the used tailer tile the pool, and the byte counts are exact |
| `MemHeapLaws.AllocWF` | TP79_APP/rt-thread/src/memheap.c:138-281 | allocation keeps the tiling, the separation of free blocks, the exact free list and the exact byte count, with and without a split |
| `MemHeapLaws.AllocSucceedsIff` | TP79_APP/rt-thread/src/memheap.c:155-280 | a block is returned if and only if the rounded request is strictly below the free byte count and some free block holds it; a failing call changes nothing |
| `MemHeapLaws.AllocGives` | TP79_APP/rt-thread/src/memheap.c:205-272 | the pointer is aligned, its block was free and is used now, its payload holds the rounded request with less than a header and a smallest block to spare, and no other stretch of the pool changes hands |
| `MemHeapLaws.AllocFirstFit` | TP79_APP/rt-thread/src/memheap.c:165-205 | of the free list in its order, the block handed out is the first that is large enough |
| `MemHeapLaws.RequestCovers` | TP79_APP/rt-thread/src/memheap.c:148-151 | the rounded request covers the size asked for if and only if the size is at most 0xFFFF_FFFC: beyond that the rounding wraps |
| `MemHeapLaws.AllocFreeRoundTrip` | TP79_APP/rt-thread/src/memheap.c:138-595 | freeing what was just allocated gives back the same blocks, the same set of free blocks and the same byte count |
| `MemHeapLaws.FreeWF` | TP79_APP/rt-thread/src/memheap.c:495-595 | a free keeps every invariant, whichever neighbours are free |
| `MemHeapLaws.FreeMergesFully` | TP79_APP/rt-thread/src/memheap.c:536-590 | the two local merges reach what merging every run of free blocks in the whole pool would reach |
| `MemHeapLaws.FreeGivesUp` | TP79_APP/rt-thread/src/memheap.c:495-595 | of the stretches handed out exactly the one of the block goes |
| `MemHeapLaws.HeapDetermined` | TP79_APP/rt-thread/src/memheap.c:50-595 | two well-formed heaps of one pool with the same stretches handed out have the same headers, the same free blocks and the same byte count |
| `MemHeapLaws.FreedIsReused` | TP79_APP/rt-thread/src/memheap.c:535-595 | a block freed with nothing free in front of it is the first to be handed out again |
| `MemHeapLaws.ReallocGives` | TP79_APP/rt-thread/src/memheap.c:284-492 | whenever the guard has not wrapped, the block at the pointer returned holds the rounded size with at most a header and a smallest block to spare, takes the place of the old one, and no other stretch changes hands |
| `MemHeapLaws.ReallocAnswerIff` | TP79_APP/rt-thread/src/memheap.c:284-492 | the block stays if and only if it or the free room behind it holds the size; the answer is no pointer if and only if it does not stay and an allocation of the size fails |
| `MemHeapLaws.ReallocWFIff` | TP79_APP/rt-thread/src/memheap.c:284-492 | a resize keeps every invariant if and only if the 32-bit guard of the in-place growth does not hold by wrapping; a failing resize changes nothing |
| `MemHeapLaws.OverrunsIff` | TP79_APP/rt-thread/src/memheap.c:300-350 | that guard wraps and holds exactly for sizes 0xFFFF_FFF1 to 0xFFFF_FFFC when the next block is free |
| `MemHeapLaws.OverrunBreaks` | TP79_APP/rt-thread/src/memheap.c:350-387 | in that case the new header is written inside the header of the block that was to grow |
| `MemHeapLaws.HugeResizeBreaks` | TP79_APP/rt-thread/src/memheap.c:284-404 | a history from the initial heap, one allocation and one such resize, after which the heap is not well formed |
| `MemHeapLaws.StepWFIff` | TP79_APP/rt-thread/src/memheap.c:138-595 | one call of any kind keeps the heap well formed if and only if it is not such a resize |
| `MemHeapLaws.RunWF` | TP79_APP/rt-thread/src/memheap.c:138-595 | the invariants hold after every history of calls that are not such resizes |
| `MemHeapLaws.HighWater` | TP79_APP/rt-thread/src/memheap.c:231-242 | after every such history max_used_size is the greatest usage reached, the middle of a moving resize included |
| `MemHeap.Heap.constructor` | TP79_APP/rt-thread/src/memheap.c:50-121 | the object built has the initial heap as its abstract value |
| `MemHeap.Heap.Alloc` | TP79_APP/rt-thread/src/memheap.c:138-281 | on links, flags and bytes: the abstract heap changes as specified, and no byte of a live payload changes although headers are written into the pool |
| `MemHeap.Heap.Free` | TP79_APP/rt-thread/src/memheap.c:495-595 | the same for a free |
| `MemHeap.Heap.Realloc` | TP79_APP/rt-thread/src/memheap.c:284-492 | the first min(old, new) payload bytes are at the returned pointer, no byte of another live block changes, and a failing call changes no live byte |
| `Blocks.ReleaseIsCoalesce` | TP79_APP/rt-thread/src/memheap.c:536-590 | freeing a block and merging with its two neighbours equals merging the whole sequence, if no two free blocks touched before |
| `Stretches.ExtentsDetermine` | TP79_APP/rt-thread/src/memheap.c:50-595 | a pool without neighbouring free blocks is determined, block by block, by the stretches handed out |
| `Blocks.Covers` | TP79_APP/rt-thread/src/memheap.c:88-110 | in a tiled pool every address belongs to exactly one block |
| `SmallMemLaws.InitWF` | TP79_APP/rt-thread/src/mem.c:204-257 | a heap of at least the minimal block is well formed and its hint exact |
| `SmallMemLaws.SearchHangsIff` | TP79_APP/rt-thread/src/mem.c:291-307 | on an accepted heap a request that passes the size check is searched for without end if and only if the heap is smaller than the minimal block |
| `SmallMemLaws.MallocFailsFromHintIff` | TP79_APP/rt-thread/src/mem.c:272-410 | for every well-formed heap: no block is returned if and only if the request is zero or too large or every fitting free block from lfree on is an exact fit ending at heap_end |
| `SmallMemLaws.MallocFailsIff` | TP79_APP/rt-thread/src/mem.c:272-410 | with an exact hint the same holds of all free blocks of the heap |
| `SmallMemLaws.FirstFitFromStart` | TP79_APP/rt-thread/src/mem.c:305-307 | with an exact hint the search from lfree finds the block that a search from the start of the heap finds |
| `SmallMemLaws.MallocGives` | TP79_APP/rt-thread/src/mem.c:315-398 | the pointer is aligned, its block was free and is used now, its payload holds the rounded request with less than a header and a smallest block to spare, and no other stretch of the heap changes hands |
| `SmallMemLaws.MallocFirstFit` | TP79_APP/rt-thread/src/mem.c:305-315 | no free block between the hint and the block handed out holds the request |
| `SmallMemLaws.RequestCovers` | TP79_APP/rt-thread/src/mem.c:289-300 | the rounded request covers the size asked for if and only if the size is at most 0xFFFF_FFFC |
| `SmallMemLaws.MallocFreeRoundTrip` | TP79_APP/rt-thread/src/mem.c:272-609 | freeing what was just allocated gives back the previous heap, hint and usage included |
| `SmallMemLaws.FreeGivesUp` | TP79_APP/rt-thread/src/mem.c:546-609 | of the stretches handed out exactly the one of the block goes |
| `SmallMemLaws.HeapDetermined` | TP79_APP/rt-thread/src/mem.c:204-609 | two well-formed heaps of one size with the same stretches handed out have the same headers and the same usage |
| `SmallMemLaws.ReallocGives` | TP79_APP/rt-thread/src/mem.c:421-510 | the block at the pointer returned holds the rounded size, exactly when it has not moved and else with less than a header and a smallest block to spare; it takes the place of the old one, and no other stretch changes hands |
| `SmallMemLaws.ReallocAnswerIff` | TP79_APP/rt-thread/src/mem.c:421-510 | the block stays if and only if it holds the size exactly or can be cut down to it; the answer is no pointer if and only if it does not stay and the size is zero or an allocation of it fails; only size zero gives the block up then |
| `SmallMemLaws.ReallocNothing` | TP79_APP/rt-thread/src/mem.c:433-447 | without a block a resize is an allocation, up to size 0xFFFF_FFFC |
| `SmallMemLaws.MoveWF` | TP79_APP/rt-thread/src/mem.c:500-509 | a moving resize frees the old block, found again after the allocation, if and only if the allocation succeeds, and otherwise changes nothing |
| `SmallMemLaws.RunWF` | TP79_APP/rt-thread/src/mem.c:156-609 | after every history of allocations, frees and resizes the headers tile the heap, no two free blocks touch, lfree sits on a free block or heap_end, and used_mem is the sum of the used extents |
| `SmallMemLaws.ShrinkLowestIff` | TP79_APP/rt-thread/src/mem.c:470-493 | a shrinking resize leaves no free block below lfree if and only if lfree lies below the block or is the free block right behind it |
| `SmallMemLaws.StepLowestIff` | TP79_APP/rt-thread/src/mem.c:272-609 | every other call keeps all blocks below lfree used; a call does so exactly when the condition above holds of it |
| `SmallMemLaws.RunLowest` | TP79_APP/rt-thread/src/mem.c:380-600 | in a history whose calls all meet the condition every block below lfree is used at the end |
| `SmallMemLaws.ShrinkLosesMemory` | TP79_APP/rt-thread/src/mem.c:470-493 | a history from the initial heap, one allocation and one shrinking resize, after which a request fails although a free block would hold it |
| `SmallMemLaws.HighWater` | TP79_APP/rt-thread/src/mem.c:343-372 | after every history max_mem is the greatest usage reached |
| `SmallMem.Heap.constructor` | TP79_APP/rt-thread/src/mem.c:204-257 | the object built has the initial heap as its abstract value |
| `SmallMem.Heap.PlugHoles` | TP79_APP/rt-thread/src/mem.c:156-194 | on the links: the block merges with whichever neighbours are free, lfree moves off every header that goes, and no live byte changes |
| `SmallMem.Heap.Malloc` | TP79_APP/rt-thread/src/mem.c:272-410 | the abstract heap changes as specified and no byte of a live payload changes |
| `SmallMem.Heap.Free` | TP79_APP/rt-thread/src/mem.c:546-609 | the same for a free |
| `SmallMem.Heap.Realloc` | TP79_APP/rt-thread/src/mem.c:421-510 | the first min(old, new) payload bytes are at the returned pointer, no byte of another live block changes, and a failing call changes no live byte |
| `PageRuns.CanonicalUnique` | TP79_APP/rt-thread/src/slab.c:236-322 | two canonical lists with the same free pages are the same list |
| `PageRuns.AllocPages` | TP79_APP/rt-thread/src/slab.c:236-270 | the pages handed out were free, are n in a row and stop being free; nothing else changes |
| `PageRuns.AllocLowest` | TP79_APP/rt-thread/src/slab.c:236-270 | the lowest place with n free pages in a row is taken; failure means that no such place exists |
| `PageRuns.FreePages` | TP79_APP/rt-thread/src/slab.c:272-322 | the list stays the ascending list of maximal runs, and exactly the given pages become free |
| `PageRuns.AllocFreeRoundTrip` | TP79_APP/rt-thread/src/slab.c:236-322 | freeing a run just allocated restores exactly the previous list |
| `PageRuns.FreeCommutes` | TP79_APP/rt-thread/src/slab.c:272-322 | the order in which two runs are freed does not show |
| `PageRuns.StepsConserve` | TP79_APP/rt-thread/src/slab.c:236-322 | after every history every page is either free or in exactly one run handed out |
| `PageRuns.AllReturned` | TP79_APP/rt-thread/src/slab.c:236-322 | when everything has been given back, in whatever order, the list is one run of all pages |
| `PageAllocator.PageList.constructor` | TP79_APP/rt-thread/src/slab.c:327-334 | freeing all pages at once makes a list of one run |
| `PageAllocator.PageList.Alloc` | TP79_APP/rt-thread/src/slab.c:236-270 | on the linked page headers: returns and leaves what the page list function says |
| `PageAllocator.PageList.Free` | TP79_APP/rt-thread/src/slab.c:272-322 | the same for a free, in all four of its ways |
| `SlabLaws.ZoneIndexFits` | TP79_APP/rt-thread/src/slab.c:401-459 | a request gets chunks at least as large, of the one size its list holds, with less than an eighth (or 8 bytes) to spare |
| `SlabLaws.ChunkSizeIndex` | TP79_APP/rt-thread/src/slab.c:401-459 | asking for the chunk size of a list leads to that list, for every list but the last, whose chunks are too large for a request of a zone |
| `SlabLaws.ZoneIndexMonotone` | TP79_APP/rt-thread/src/slab.c:401-459 | of two requests below 16 KB the larger one never leads to an earlier list |
| `SlabLaws.InitWF` | TP79_APP/rt-thread/src/slab.c:344-395 | after initialisation the page table has its pages and the rest is consistent and unused |
| `SlabLaws.MallocWF` | TP79_APP/rt-thread/src/slab.c:478-667 | everything stays in agreement, what is handed out was not live, and no other block changes hands |
| `SlabLaws.MallocFits` | TP79_APP/rt-thread/src/slab.c:478-667 | a block handed out holds the size asked for |
| `SlabAnswers.MallocFailsIff` | TP79_APP/rt-thread/src/slab.c:478-667 | there is no block if and only if, for a large request, no place has enough free pages in a row, and for a small one no zone of its chunk size has a free chunk, no zone is parked and no place has room for a zone |
| `SlabAnswers.MallocSource` | TP79_APP/rt-thread/src/slab.c:500-659 | large requests get just enough pages, at the lowest place; small ones a chunk of their size from a zone that has one, else from a parked zone, else from a new one at the lowest place |
| `SlabLaws.FreeWF` | TP79_APP/rt-thread/src/slab.c:771-904 | everything stays in agreement and exactly the given block stops being live; a zone is given up only without live chunks |
| `SlabAnswers.FreeParksIff` | TP79_APP/rt-thread/src/slab.c:850-901 | a zone leaves its list if and only if its last live chunk came back and another zone there has a free chunk; it is then parked, or given back when two are parked already |
| `SlabAnswers.FullZoneReuses` | TP79_APP/rt-thread/src/slab.c:826-900 | a chunk given back to a full zone is the next one handed out of its size |
| `SlabAnswers.NoPageLost` | TP79_APP/rt-thread/src/slab.c:344-904 | after every history from initialisation a page that is not free belongs to a zone, to a large allocation or to the page table |
| `SlabAnswers.ReallocAnswerIff` | TP79_APP/rt-thread/src/slab.c:678-735 | the block stays if and only if it is a chunk of the size the request is rounded to; else the answer is that of an allocation; without a block it is an allocation, without a size a free |
| `SlabLaws.ReallocWF` | TP79_APP/rt-thread/src/slab.c:678-735 | the old block is given up exactly when another one is handed out; without memory the heap stays as it is |
| `SlabLaws.ReallocFits` | TP79_APP/rt-thread/src/slab.c:697-731 | the new block holds the size asked for, and at the moment of the copy both blocks are live, apart and large enough |
| `SlabLaws.StaysPut` | TP79_APP/rt-thread/src/slab.c:478-904 | over every call a block live before and after has kept its address and size |
| `SlabLaws.NeverMoves` | TP79_APP/rt-thread/src/slab.c:478-904 | over every history a block that is never given up has kept its address and size |
| `SlabLaws.ChunkFindsZone` | TP79_APP/rt-thread/src/slab.c:771-830 | a live chunk lies inside its zone behind the header, and the page it starts on leads back to the zone |
| `SlabLaws.LiveDisjoint` | TP79_APP/rt-thread/src/slab.c:478-904 | two live blocks never overlap |
| `SlabLaws.ZonesConsistent` | TP79_APP/rt-thread/src/slab.c:344-904 | after every history from initialisation: the free count of a zone is what was never used plus what was given back, a zone is on its list if and only if it has a free chunk and is not parked, and pages are conserved |
| `Slab.Allocator.ChooseSizes` | TP79_APP/rt-thread/src/slab.c:374-381 | the zone size is the first that is not below a two-thousandth of the heap, within its limits |
| `Slab.Allocator.constructor` | TP79_APP/rt-thread/src/slab.c:344-395 | the object built has the initial heap as its abstract value |
| `Slab.Allocator.Malloc` | TP79_APP/rt-thread/src/slab.c:478-667 | on zone headers, chunk chains and page table: the abstract heap changes as specified, and the address is that of the block |
| `Slab.Allocator.Free` | TP79_APP/rt-thread/src/slab.c:771-904 | the block is found from its address alone and the abstract heap changes as specified |
| `Slab.Allocator.Realloc` | TP79_APP/rt-thread/src/slab.c:678-735 | the same for a resize |
| `BitScan.FfsIsLowest` | TP79_APP/rt-thread/src/kservice.c:1285-1330 | the byte table and the cascade give zero for zero and else one more than the lowest set bit, for every 32-bit word |
| `ByteMove.MemMove` | TP79_APP/rt-thread/src/kservice.c:293-312 | for every overlap, byte by byte: the destination ends with the old source bytes and no other byte changes |
| `FormatLaws.NumberReadsBack` | TP79_APP/rt-thread/src/kservice.c:568-775 | in base 10 and 16 the digits printed parse back to the number |
| `FormatLaws.DigitsParse` | TP79_APP/rt-thread/src/kservice.c:568-585 | the digits divide produces parse back in the base it really uses |
| `FormatLaws.OctalRightIff` | TP79_APP/rt-thread/src/kservice.c:568-585 | the digits printed for octal are the octal digits if and only if the number is below 8 |
| `FormatLaws.NumberLength` | TP79_APP/rt-thread/src/kservice.c:606-775 | a number takes exactly its field width unless it needs more; with precision zero its digits are missing |
| `FormatLaws.PlainText` | TP79_APP/rt-thread/src/kservice.c:777-1040 | text without a percent sign comes out unchanged |
| `FormatAnswers.NumberPrints` | TP79_APP/rt-thread/src/kservice.c:606-775 | for every word, width and precision but zero: padding, sign and digits; the digits read as the value without its sign, there are as many as the precision asks, and the field is filled on the side the flags name, as far as the width asks |
| `FormatAnswers.NumberWithoutDigits` | TP79_APP/rt-thread/src/kservice.c:719-775 | with precision zero: sign and padding alone |
| `FormatAnswers.NumericPrints` | TP79_APP/rt-thread/src/kservice.c:953-1020 | conversions d, i, u, x, X and o show the next argument as a signed or unsigned number of 16 or 32 bits, in base 10 or 16, with capital letters for X alone |
| `FormatAnswers.PointerPrints` | TP79_APP/rt-thread/src/kservice.c:944-958 | conversion p shows the next argument in base 16, with eight digits unless a width is given |
| `FormatAnswers.CharPrints` | TP79_APP/rt-thread/src/kservice.c:883-911 | conversion c shows the low byte of the next argument at its side of the field |
| `FormatAnswers.TextPrints` | TP79_APP/rt-thread/src/kservice.c:913-942 | conversion s shows the next argument, or a fixed text for none, cut to a positive precision, at its side of the field |
| `FormatAnswers.FlagsRead` | TP79_APP/rt-thread/src/kservice.c:815-830 | flags are read as far as they go and each counts if and only if it is given |
| `FormatAnswers.WidthRead` | TP79_APP/rt-thread/src/kservice.c:832-845 | the width is the decimal number that stands there, or the next argument, where a negative one means left-justified, or none |
| `FormatAnswers.PrecisionRead` | TP79_APP/rt-thread/src/kservice.c:847-862 | the precision is the decimal number behind the period, or the next argument, where a negative one counts as zero, or zero, or none |
| `FormatAnswers.AtoiReadsBack` | TP79_APP/rt-thread/src/kservice.c:588-595 | reading a decimal number gives back the number that was printed, and stops behind it |
| `FormatAnswers.PlainPrefix` | TP79_APP/rt-thread/src/kservice.c:805-814 | text up to the next percent sign comes out as it is, whatever follows |
| `Formatter.PrintNumber` | TP79_APP/rt-thread/src/kservice.c:606-775 | writes through the bounded buffer exactly the text of the number, padding and sign included, wherever the buffer ends |
| `Formatter.Vsnprintf` | TP79_APP/rt-thread/src/kservice.c:777-1040 | for every format, arguments and size: nothing outside the buffer changes, the result is the length of the unbounded text, and the buffer holds the longest prefix that fits and a NUL |
| `SchedLaws.HighestIs` | TP79_APP/rt-thread/src/scheduler.c:162-184 | the bitmap scan finds the lowest priority number that has a ready thread |
| `SchedLaws.ScheduleUrgent` | TP79_APP/rt-thread/src/scheduler.c:411-523 | after an unlocked call no ready thread is strictly more urgent than the running one, if and only if there was a thread to run |
| `SchedAnswers.ScheduleAnswers` | TP79_APP/rt-thread/src/scheduler.c:411-523 | the first thread of the most urgent ready list runs and the running one joins the end of its own; a running thread more urgent than every ready one stays; a locked scheduler changes nothing |
| `SchedAnswers.InsideRun` | TP79_APP/rt-thread/src/scheduler.c:822-940 | in every run that stays inside the outermost critical section the level is that of the enters not yet left, and the same thread keeps the processor |
| `SchedAnswers.LastExitSchedules` | TP79_APP/rt-thread/src/scheduler.c:855-940 | an exit calls the scheduler if and only if every enter but the outermost has been left; any other only counts down |
| `WaitQueue.ScheduleFacts` | TP79_APP/rt-thread/src/scheduler.c:411-523 | the scheduler only moves threads between ready and running: no wait list and no other field of a thread changes |
| `SchedRuns.StepGood` | TP79_APP/rt-thread/src/scheduler.c:246-940 | every call of the scheduler and of the thread functions keeps the ready structure; one that ends in an unlocked scheduler call leaves the most urgent thread running |
| `SchedRuns.ReadyStructure` | TP79_APP/rt-thread/src/scheduler.c:246-940 | in every reachable state: bit p is set if and only if ready list p is not empty, a thread is READY if and only if it is on the list of its priority, once and on no other, and the running thread is on none |
| `Scheduler.Kernel.constructor` | TP79_APP/rt-thread/src/scheduler.c:191-239 | an empty kernel: every list is linked to itself, no bit is set |
| `Scheduler.Kernel.Start` | TP79_APP/rt-thread/src/scheduler.c:246-270 | on the intrusive lists: the most urgent thread leaves its list and runs |
| `Scheduler.Kernel.Schedule` | TP79_APP/rt-thread/src/scheduler.c:411-523 | on the intrusive lists, bitmap and thread fields: the new state is that of the state function |
| `Scheduler.Kernel.InsertThread` | TP79_APP/rt-thread/src/scheduler.c:688-722 | the thread joins the end of its ready list and its bit is set |
| `Scheduler.Kernel.RemoveThread` | TP79_APP/rt-thread/src/scheduler.c:785-815 | the thread leaves its list and its bit is cleared when that was the last one |
| `Scheduler.Kernel.EnterCritical` | TP79_APP/rt-thread/src/scheduler.c:855-870 | one more level of locking |
| `Scheduler.Kernel.ExitCritical` | TP79_APP/rt-thread/src/scheduler.c:915-940 | the last level gone, the scheduler is called |
| `SchedAnswers.StartupAnswers` | TP79_APP/rt-thread/src/thread.c:288-320 | a thread not started is ready with its initial priority, last on the list of that priority; nothing else changes |
| `SchedAnswers.SuspendAnswers` | TP79_APP/rt-thread/src/thread.c:657-696 | a ready or running thread is suspended, its timer stopped, on no list; any other is refused; nothing else changes |
| `SchedAnswers.ResumeAnswers` | TP79_APP/rt-thread/src/thread.c:706-740 | a suspended thread is last on its ready list, or runs on when it still has the processor, its timer stopped; any other is refused; nothing else changes |
| `SchedAnswers.ExpireAnswers` | TP79_APP/rt-thread/src/thread.c:749-771 | the same with the timeout error |
| `SchedAnswers.ChangePriorityAnswers` | TP79_APP/rt-thread/src/thread.c:572-613 | a ready thread is last on the list of its new priority, any other stays where it is; nothing else changes |
| `SchedAnswers.CloseAnswers` | TP79_APP/rt-thread/src/thread.c:80-461 | the thread is closed, its timer stopped, on no ready and no wait list, and first on the list of closed threads if and only if its object is kept; nothing else changes |
| `Scheduler.Kernel.ThreadInit` | TP79_APP/rt-thread/src/thread.c:117-208 | a new thread is known, on no list and not started |
| `Scheduler.Kernel.Startup` | TP79_APP/rt-thread/src/thread.c:288-320 | the thread gets its initial priority and becomes ready |
| `Scheduler.Kernel.Suspend` | TP79_APP/rt-thread/src/thread.c:657-696 | refuses a thread that is neither ready nor running; else takes it off its ready list |
| `Scheduler.Kernel.Resume` | TP79_APP/rt-thread/src/thread.c:706-740 | takes a suspended thread off whichever list it is on and queues it as ready |
| `Scheduler.Kernel.Timeout` | TP79_APP/rt-thread/src/thread.c:749-771 | the same, with the timeout error, followed by the scheduler |
| `Scheduler.Kernel.ChangePriority` | TP79_APP/rt-thread/src/thread.c:572-613 | a ready thread moves to the list of its new priority; any other only changes its fields |
| `Scheduler.Kernel.Close` | TP79_APP/rt-thread/src/thread.c:331-461 | the thread leaves its list, and its object may stay on the list of closed threads |
| `Scheduler.Kernel.Exit` | TP79_APP/rt-thread/src/thread.c:80-115 | the same for the running thread, followed by the scheduler |
| `RoundRobin.RoundRobinBound` | TP79_APP/rt-thread/src/clock.c:72-98 | under ticks alone a ready thread of the top priority runs after exactly the ticks left to the running thread and to those ahead of it, and at no tick before |
| `RoundRobin.TurnEnds` | TP79_APP/rt-thread/src/clock.c:72-98 | when the ticks of the running thread are used up the next one of its priority runs, and the old one waits last with a full slice |
| `ClockTick.Ticker.Increase` | TP79_APP/rt-thread/src/clock.c:72-98 | the tick wraps at 32 bits, the slice of the running thread shrinks, and at zero it is refilled and the processor yielded |
| `WaitQueue.SortedInsert` | TP79_APP/rt-thread/src/ipc.c:88-113 | a thread goes behind every waiter at least as urgent and ahead of all others, and the list stays sorted |
| `WaitQueue.ListSuspendFacts` | TP79_APP/rt-thread/src/ipc.c:79-122 | blocking puts the thread at its slot on the list and changes no other list and no other thread |
| `WaitQueue.ListResumeFacts` | TP79_APP/rt-thread/src/ipc.c:133-146 | waking takes the first thread off the list and changes no other list and no other thread |
| `Wakeups.FailAll` | TP79_APP/rt-thread/src/ipc.c:156-184 | the list is empty afterwards, every thread that was on it is awake with an error and its timer stopped, and no other thread has changed |
| `Scheduler.Kernel.ListSuspend` | TP79_APP/rt-thread/src/ipc.c:79-122 | on the intrusive lists, the search loop included: the new state is that of the state function |
| `Scheduler.Kernel.ListResume` | TP79_APP/rt-thread/src/ipc.c:133-146 | the same for waking one thread |
| `Scheduler.Kernel.ListResumeAll` | TP79_APP/rt-thread/src/ipc.c:156-184 | the same for waking all of them |
| `SemaphoreSpec.Conserves` | TP79_APP/rt-thread/src/ipc.c:323-470 | in every run value, granted takes and units on their way to woken threads add up to the initial value and the releases; while a thread waits the value is zero |
| `SemaphoreAnswers.ConservesUnits` | TP79_APP/rt-thread/src/ipc.c:323-470 | the same with takes and releases counted from what the calls answer |
| `SemaphoreAnswers.TakeAnswers` | TP79_APP/rt-thread/src/ipc.c:323-408 | a take gets a unit if there is one, gives up if it may not wait, and else waits at its place on the list; nothing else changes |
| `SemaphoreAnswers.ReleaseAnswers` | TP79_APP/rt-thread/src/ipc.c:432-470 | a release wakes the first waiter, and only without one raises the value; nothing else changes |
| `SemaphoreAnswers.OtherAnswers` | TP79_APP/rt-thread/src/ipc.c:390-408 | a take switched back to, and a timeout, move no unit |
| `SemaphoreObject.Semaphore.Take` | TP79_APP/rt-thread/src/ipc.c:323-408 | on the object: the new state is that of the run above |
| `SemaphoreObject.Semaphore.TakeReturns` | TP79_APP/rt-thread/src/ipc.c:390-408 | a thread switched back to inside its take reports the error it was woken with |
| `SemaphoreObject.Semaphore.Release` | TP79_APP/rt-thread/src/ipc.c:432-470 | the same for a release |
| `MutexLaws.StepInv` | TP79_APP/rt-thread/src/ipc.c:653-880 | one step keeps owner, value, hold, waiters and priorities consistent; it loses the inheritance if and only if it hands the mutex to a waiter that is not the most urgent one |
| `MutexLaws.PriorityInheritance` | TP79_APP/rt-thread/src/ipc.c:653-880 | in every run with RT_IPC_FLAG_PRIO the waiters are sorted, the owner is at least as urgent as each, and every other thread has its own priority |
| `MutexLaws.SuccessMeansOwner` | TP79_APP/rt-thread/src/ipc.c:653-778 | in every run, with either flag, a blocked take that comes back without an error belongs to the owner |
| `MutexLaws.GrantedIff` | TP79_APP/rt-thread/src/ipc.c:653-778 | a take succeeds at once if and only if nobody else owns the mutex; otherwise the mutex does not change |
| `MutexLaws.LastReleaseRestores` | TP79_APP/rt-thread/src/ipc.c:789-880 | the last release gives the owner its own priority back and passes the mutex to the first waiter, or frees it |
| `MutexCount.CountsTakes` | TP79_APP/rt-thread/src/ipc.c:653-880 | in every run, with either flag, owner and hold are those of a reference that only counts the takes and releases of the holder and passes the mutex on at the last one |
| `MutexCount.KeepsUntilLast` | TP79_APP/rt-thread/src/ipc.c:653-880 | a thread that has taken the mutex n times keeps it, whatever other threads do, until its n-th release, and hold is its takes minus its releases |
| `MutexCount.LockAnswers` | TP79_APP/rt-thread/src/ipc.c:653-778 | a take is granted if and only if nobody else holds the mutex, gives up if it may not wait, and else waits, the holder running with the more urgent of the two priorities; nothing else changes |
| `MutexCount.UnlockAnswers` | TP79_APP/rt-thread/src/ipc.c:789-880 | a release is refused to all but the holder, counts down, or gives the holder its own priority back and wakes the first waiter alone; nothing else changes |
| `MutexCount.OtherAnswers` | TP79_APP/rt-thread/src/ipc.c:744-778 | a take switched back to, and a timeout, change neither the mutex nor a priority |
| `MutexFifo.FifoLosesInheritance` | TP79_APP/rt-thread/src/ipc.c:653-880 | with RT_IPC_FLAG_FIFO, from every fresh mutex: a history of six calls after which a waiter is more urgent than the owner |
| `MutexFifo.ThreeLoseInheritance` | TP79_APP/rt-thread/src/ipc.c:653-880 | a concrete system in which that history happens |
| `MutexObject.Lock.Take` | TP79_APP/rt-thread/src/ipc.c:653-778 | on the object: the new state is that of the step above |
| `MutexObject.Lock.TakeReturns` | TP79_APP/rt-thread/src/ipc.c:744-778 | a thread switched back to inside its take reports the error it was woken with |
| `MutexObject.Lock.Release` | TP79_APP/rt-thread/src/ipc.c:789-880 | on the object: the new state is that of the step above |
| `EventLaws.NobodyWaitsInVain` | TP79_APP/rt-thread/src/ipc.c:1028-1236 | in every run no suspended thread has its condition met by the current set |
| `EventLaws.WakeIsFast` | TP79_APP/rt-thread/src/ipc.c:1053-1095 | a woken receiver gets and leaves what a receive that does not wait would have got and left |
| `EventLaws.SendIsPolls` | TP79_APP/rt-thread/src/ipc.c:1028-1110 | for the word whose events are those of the set and those sent: a send serves its waiters exactly as if each of them, in list order, received once without waiting, clearing included |
| `EventBits.SetInjective` | TP79_APP/rt-thread/src/ipc.c:1049-1091 | a word is determined by its set of events, so that what is said of sets is said of words |
| `EventAnswers.SendAnswers` | TP79_APP/rt-thread/src/ipc.c:1028-1110 | in terms of sets of events: those sent join those there; in list order each waiter that is content takes its events and is woken, the others stay with what they wait for; nothing else changes |
| `EventAnswers.ReceiveAnswers` | TP79_APP/rt-thread/src/ipc.c:1126-1212 | a receiver content with the set takes away what it asked for, gives up if it may not wait, and else waits at its place; nothing else changes |
| `EventAnswers.NobodyContentWaits` | TP79_APP/rt-thread/src/ipc.c:1028-1236 | in every run no waiting thread would be content with the set |
| `EventAnswers.OtherAnswers` | TP79_APP/rt-thread/src/ipc.c:1214-1231 | a receive switched back to, and a timeout, move no event |
| `EventObject.Event.Send` | TP79_APP/rt-thread/src/ipc.c:1028-1110 | on the object, with the walk over the wait list: the new state is that of the step function |
| `EventObject.Event.Receive` | TP79_APP/rt-thread/src/ipc.c:1126-1236 | the same for a receive up to its first wait |
| `EventObject.Event.ReceiveOn` | TP79_APP/rt-thread/src/ipc.c:1214-1231 | the same for a receive that comes back from its wait |
| `MailboxLaws.Fifo` | TP79_APP/rt-thread/src/ipc.c:1441-1713 | in every run the values received are the first of those sent, in order, and the rest is in the box; in_offset is out_offset plus entry, modulo the size |
| `MailboxLaws.NoLostWakeup` | TP79_APP/rt-thread/src/ipc.c:1441-1713 | in every run while a receiver waits every value has a receiver already woken for it, and while a sender waits every free place a sender |
| `MailboxAnswers.StepOrder` | TP79_APP/rt-thread/src/ipc.c:1441-1713 | from the state before a step alone: a value enters if and only if a sender that goes on finds room, one leaves if and only if a receiver that goes on finds mail; the contents grow at the end and shrink at the front by just that |
| `MailboxAnswers.SendAnswers` | TP79_APP/rt-thread/src/ipc.c:1441-1560 | a send that goes on wakes the first waiting receiver, or gives up, or waits for room with its value; nothing else changes |
| `MailboxAnswers.ReceiveAnswers` | TP79_APP/rt-thread/src/ipc.c:1589-1713 | a receive that goes on wakes the first waiting sender, or gives up with a timeout, or waits for mail; nothing else changes |
| `MailboxAnswers.OtherAnswers` | TP79_APP/rt-thread/src/ipc.c:1441-1713 | a send in an interrupt, a call woken with an error and a timeout |
| `MailboxObject.Mailbox.Send` | TP79_APP/rt-thread/src/ipc.c:1441-1560 | on the ring buffer: the new state is that of the step function, and the call reports success if and only if its value has entered the box |
| `MailboxObject.Mailbox.SendOn` | TP79_APP/rt-thread/src/ipc.c:1514-1557 | the same for a sender switched back to |
| `MailboxObject.Mailbox.Receive` | TP79_APP/rt-thread/src/ipc.c:1589-1713 | the same for a receiver, which gets the oldest value |
| `MailboxObject.Mailbox.ReceiveOn` | TP79_APP/rt-thread/src/ipc.c:1662-1710 | the same for a receiver switched back to |
| `MessageQueueLaws.BuffersConserved` | TP79_APP/rt-thread/src/ipc.c:1963-2322 | in every run, copies outside the lock and resets included: each buffer is on exactly one of the two lists or held by exactly one caller, and entry is the length of the queue |
| `MessageQueueLaws.DeliversWhatWasSent` | TP79_APP/rt-thread/src/ipc.c:1963-2266 | what a receiver copies out is what was sent in that buffer, whatever ran in between |
| `MessageQueueLaws.StepOrder` | TP79_APP/rt-thread/src/ipc.c:1963-2322 | each step has exactly one effect on the queued messages: an ordinary one goes behind all, an urgent one ahead of all, a receiver takes the first, a reset drops all, anything else changes none |
| `MessageQueueLaws.RunOrder` | TP79_APP/rt-thread/src/ipc.c:1963-2322 | over every history, urgent messages and resets included: the queue, and what is received in which order, follow a reference in which the latest urgent message comes first and ordinary ones stay in order |
| `MessageQueueLaws.OrdinaryFifo` | TP79_APP/rt-thread/src/ipc.c:1963-2266 | without a reset the ordinary messages are received in the order in which they were sent, whatever urgent ones come between |
| `MessageQueueAnswers.GrabAnswers` | TP79_APP/rt-thread/src/ipc.c:1963-1997 | a send is accepted if and only if its message is not empty, fits a buffer and a buffer is free; it then holds one that was free, with this message and this urgency |
| `MessageQueueAnswers.CopyInAnswers` | TP79_APP/rt-thread/src/ipc.c:2002-2002 | the buffer begins with the message afterwards and no other byte of any buffer changes |
| `MessageQueueAnswers.PublishAnswers` | TP79_APP/rt-thread/src/ipc.c:2005-2123 | the buffer is linked at its end of the queue and the first waiting receiver woken; nothing else changes |
| `MessageQueueAnswers.ReceiveAnswers` | TP79_APP/rt-thread/src/ipc.c:2138-2250 | a receive that goes on holds the first queued buffer, or gives up with a timeout, or waits; nothing else changes |
| `MessageQueueAnswers.DrainAnswers` | TP79_APP/rt-thread/src/ipc.c:2253-2266 | the caller gets the stored bytes cut to its size, and its buffer is the first free one |
| `MessageQueueAnswers.ResetAnswers` | TP79_APP/rt-thread/src/ipc.c:2279-2325 | all queued buffers are free, those in flight stay, and every waiting receiver is awake with an error |
| `MessageQueueAnswers.NoLostWakeup` | TP79_APP/rt-thread/src/ipc.c:1963-2322 | in every run while a receiver waits every queued message has a receiver already woken for it |
| `MessageQueueObject.MessageQueue.constructor` | TP79_APP/rt-thread/src/ipc.c:1780-1827 | every buffer is on the free list, the last one first |
| `MessageQueueObject.MessageQueue.Grab` | TP79_APP/rt-thread/src/ipc.c:1963-1997 | first section of a send: refuses a message that is too long or a queue without free buffers, else holds the first free buffer |
| `MessageQueueObject.MessageQueue.CopyIn` | TP79_APP/rt-thread/src/ipc.c:2002-2002 | the copy outside the lock |
| `MessageQueueObject.MessageQueue.Publish` | TP79_APP/rt-thread/src/ipc.c:2005-2038 | second section: the buffer is linked behind or ahead of the queue and one receiver woken |
| `MessageQueueObject.MessageQueue.Receive` | TP79_APP/rt-thread/src/ipc.c:2161-2250 | first section of a receive: takes the first buffer, gives up or waits |
| `MessageQueueObject.MessageQueue.ReceiveOn` | TP79_APP/rt-thread/src/ipc.c:2216-2250 | the same for a receiver switched back to |
| `MessageQueueObject.MessageQueue.CopyOut` | TP79_APP/rt-thread/src/ipc.c:2253-2253 | the caller's buffer gets the stored bytes, cut to its size |
| `MessageQueueObject.MessageQueue.PutBack` | TP79_APP/rt-thread/src/ipc.c:2256-2261 | second section: the buffer is free again |
| `MessageQueueObject.MessageQueue.Reset` | TP79_APP/rt-thread/src/ipc.c:2279-2325 | the queued buffers move one by one to the free list and every waiter comes back with an error |
| `MemPoolSpec.BlocksConserved` | TP79_APP/rt-thread/src/mempool.c:304-448 | in every run a block is on the chain once or handed out, and block_free_count is the length of the chain |
| `MemPoolSpec.CountIsRightIff` | TP79_APP/rt-thread/src/mempool.c:304-448 | suspend_thread_count is the number of waiters if and only if no wait has timed out; while a thread waits every free block has a thread already woken for it |
| `MemPoolAnswers.AllocAnswers` | TP79_APP/rt-thread/src/mempool.c:304-390 | an allocation that goes on gets the first block of the chain, or gives up, or waits ahead of all others; nothing else changes |
| `MemPoolAnswers.ReleaseAnswers` | TP79_APP/rt-thread/src/mempool.c:398-448 | the block is first of the chain and the first waiter, if there is one, is woken; nothing else changes |
| `MemPoolAnswers.OtherAnswers` | TP79_APP/rt-thread/src/mempool.c:355-390 | a call woken with an error and a timeout move no block; a timeout is not taken off the count |
| `MemPoolSpec.ReleaseBreaksIff` | TP79_APP/rt-thread/src/mempool.c:398-448 | a free follows the head of the empty wait list as if it were a thread if and only if nobody waits and a wait has timed out before |
| `MemPoolSpec.TimedOutWaitBreaks` | TP79_APP/rt-thread/src/mempool.c:304-448 | in every reachable state with an empty chain: after a wait that runs out, giving back any block does that |
| `MemPoolSpec.CountGoesWrong` | TP79_APP/rt-thread/src/mempool.c:304-448 | from every newly made pool of one block: take it, wait for another until the limit, give it back; the last step does that |
| `MemPoolSpec.AlonePoolBreaks` | TP79_APP/rt-thread/src/mempool.c:304-448 | a concrete system in which that history happens |
| `MemPoolObject.BlocksInside` | TP79_APP/rt-thread/src/mempool.c:77-122 | every block with its header lies inside the pool |
| `MemPoolObject.BlocksApart` | TP79_APP/rt-thread/src/mempool.c:77-122 | blocks with their headers do not overlap |
| `MemPoolObject.MemPool.constructor` | TP79_APP/rt-thread/src/mempool.c:77-122 | the loop chains every block once, in address order |
| `MemPoolObject.MemPool.Alloc` | TP79_APP/rt-thread/src/mempool.c:304-390 | on the chain of headers: the new state is that of the step function, and the header names its pool |
| `MemPoolObject.MemPool.AllocOn` | TP79_APP/rt-thread/src/mempool.c:355-390 | the same for a caller switched back to |
| `MemPoolObject.MemPool.PoolOf` | TP79_APP/rt-thread/src/mempool.c:398-408 | the header of a block handed out leads back to its pool |
| `MemPoolObject.MemPool.Release` | TP79_APP/rt-thread/src/mempool.c:398-448 | the block becomes the first of the chain and the first waiter is woken |

## Left out

- MemHeapLaws.RunWF: histories without a resize that `MemHeapLaws.StepWFIff` shows to break the heap.
- SmallMemLaws.RunLowest: histories without a shrinking resize that `SmallMemLaws.StepLowestIff` shows to lose the hint.
- SmallMem.Heap.constructor: needs room for one block of 12 bytes; `SmallMemLaws.SearchHangsIff` says what a smaller heap does.
- MemHeap.Heap.constructor: needs room for two headers; the source subtracts them without a check.
- MemHeap.Heap.Realloc: not for the sizes of `MemHeapLaws.OverrunsIff`, after which there is no heap to describe.
- Slab.Allocator.Realloc: the bytes copied are not part of the slab model; `SlabLaws.ReallocFits` says that both blocks have room for them.
- MutexLaws.PriorityInheritance: one mutex at a time; a thread that owns a second mutex, an outside priority change of an owner or waiter, and an outside resume are not steps.
- MemPoolSpec.CountIsRightIff: only up to the free that follows the list head, after which the source's behaviour is undefined.
- RoundRobin.RoundRobinBound: runs of ticks alone; other interrupts between them are not part of the statement.
- Formatter.Vsnprintf: an argument of another kind than the conversion asks for, reading past the last argument, a NUL inside a text argument, a field width beyond the range of int, and `buf + size` beyond the address space are not described.
- Headers keep no magic number; memheap's magic shares its word with the used bit, which is modelled.
- The locks of the heaps (`heap_sem`, the memheap lock) and their timeouts: every heap call is one step.
- Pool memory as raw words: header fields are stores of their own, so that a caller who writes outside its block is not described.
- `rt_malloc`, `rt_free` and `rt_realloc` over several memheaps (memheap.c:601-712), `rt_calloc`, `rt_malloc_align`: thin layers.
- `rt_memcpy` and `rt_memset` by words, `rt_strstr` and the other string functions, `rt_slist_*`, `rt_tick_from_millisecond`: easy on their own.
- Detaching and deleting semaphores, mutexes, events, mailboxes, message queues and pools; reset of semaphore, event and mailbox: they set the object's fields anew and wake the whole list, which is covered for the message queue.
- Calls that would block while the scheduler is locked or in an interrupt: the source asserts against them.
- Overflow of the 8-bit hold and the 16-bit value, entry and count fields.
- timer.c is not part of this model: a timer is a bit of its thread, and a timeout a step that may come while it is set.
- Names and lookup of objects, hooks, debug output, assertions, context switches, stacks, errno, signals, the cores of an SMP build, device and board code.

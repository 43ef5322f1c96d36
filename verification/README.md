# HTFH-RT-Search-Cache in Dafny

A model of the two allocators and the two caches of HTFH-RT-Search-Cache, with proofs of what
they keep over whole runs. `dafny verify dfyconfig.toml` checks everything.

**The TLSF allocator** (`Bits`, `Mapping`, `TlsfPool`, `TlsfOps`, `TlsfTheorems`, `TlsfMemory`,
`TlsfHeaders`, `TlsfIndex`, `TlsfAllocator`, `TlsfChoices`). A pool is a map from header addresses to blocks
together with one free list per size class; malloc, memalign and free are functions on pools, and
the theorems are about those. `TlsfAllocator.Allocator` is the pointer code: a word-addressed
memory, the two bitmap levels and the table of list heads, changed in place. Its methods compute
the functions on pools, and its invariant says that three views agree: the physical walk, the
flag bits and back links in the headers, and the segregated lists with their bitmaps.

**The glibc-style allocator** (`GlibcHeap`, `GlibcOps`, `GlibcTheorems`, `GlibcMemory`,
`GlibcSteps`, `GlibcAllocator`, `GlibcChoices`). The same layering for the boundary-tag heap with one first-fit
list, a sentinel that moves with the break, and realloc on its four paths. Each info word is read
through its size and its used bit, so the two unused flag bits may hold leftovers of user data, as
they do in the program.

**The DLIRS cache** (`DlirsSpec`, `DlirsInvariant`, `DlirsOps`, `DlirsTheorems`, `DlirsCarry`,
`DlirsRuns`, `DlirsCache`, `DlirsRecency`, `DlirsCounts`, `DlirsInsertions`, `DlirsTables`,
`DlirsChoices`). Three
ordered tables over shared reference-counted entries, four counters and two adaptive limits.
`DlirsCache.Cache` has the counters and tables as fields and the eviction loops as loops without
guards against empty tables; that they end, and never pop an empty table, is proved from the
invariant. `DlirsTables.TableCache` is the same code on three deque hash tables, down to slots and
links. The model has bookkeeping that the program does not have: for each entry the evicted
references still outstanding and those lost by inserting the entry over itself, and the entries
that such references alone hold after their key was requested again. With it every reference is
accounted for in every run. The model never frees an entry, so the run theorems are about the
policy; that the program's counters are exact, and its entries alive exactly while a table or the
caller holds them, is the second half of `DlirsRuns.RunKeeps`, on the runs that
`DlirsCounts.RunExact` shows to be exactly the right ones.

**The deque hash table and the LRU cache** (`Probing`, `HashTable`, `OrderedMaps`, `DequeTable`,
`KeyTables`, `LruSpec`, `LruCache`). Entries are objects in an open-addressing array and in a doubly linked
list at once. The table refines an ordered map, and the LRU policy on ordered maps keeps exactly
the most recently touched keys.

The three `Choices` modules say what the operations choose, in terms of the state before: which
block, which entries, in which order, and when there is none.

`Basics`, `Words`, `Seqs` and `Walks` hold what these parts share.

## Where the code does not do what it is for

Four places are modelled as they are, with the exact condition under which they are right and an
input on which they are not.

- Inserting a key that the deque hash table already has (`src/cache/dequeue_hashtable/dq_hashtable.c:87-117`)
  is an ordered-map insertion only if the key is at the back and no deletion hole precedes it on
  its probe path. Otherwise the tail gets a successor or the key a second slot:
  `DequeTables.DequeTable.Insert`, `DequeTables.RefreshBreaks`, `DequeTables.HoleBreaks`.
- `dlirs_request` for a key that is in a table (`src/cache/dlirs/dlirs.c:304-342`) leaves a counter
  wrong, unless the key is the resident that makes room for it: `DlirsRuns.RequestExact`,
  `DlirsRuns.RequestExactBefore`, `DlirsCounts.RequestTwiceBreaks`. The driver in
  `src/main.c:151-168` requests after every failed lookup, also for keys that the lookup has just
  brought back: `DlirsRuns.RequestAfterMissBreaks`, `DlirsCounts.DriverBreaks`.
- A hit on a resident HIR entry outside the stack inserts the entry over itself and drops a
  reference that is still needed (`src/cache/dlirs/dlirs.c:265-270`). The counters are exact on
  exactly the runs without such a hit (`DlirsCounts.RunExact`); after one, unless an evicted
  handle keeps the entry alive, the next lookup of the key frees an entry that the stack holds
  (`DlirsCounts.SecondHitFrees`), which takes five operations on a new cache
  (`DlirsCounts.FiveStepsFree`). The same hit is the only insertion of a
  present key that legal runs make (`DlirsInsertions.RunInsertsAbsent`), and breaks the resident
  table unless the key is at its back and found (`DlirsTables.TableCache.Get`).
- `htfh_add_pool` admits a pool of exactly `block_size_max` bytes (`src/allocator/htfh/htfh.c:19`),
  whose class index is out of range: `Mapping.ClassInRange`. Requests within seven bytes of the
  word limit wrap around to a small block: `Mapping.AdjustedRequest`. So does an aligned request
  at alignment 2^63, and at no other power of two: `Mapping.AlignedSizeExact`.

## Model

| member | source | states |
|---|---|---|
| `Bits.FfsIsLowest` | src/allocator/htfh/htfh_utils.h:47-49 | ffs returns the lowest set bit of a nonzero word |
| `Bits.FlsUnique` | src/allocator/htfh/htfh_utils.h:51-54 | fls is the only k with 2^k <= w < 2^(k+1) |
| `Bits.FlsGeneric` | src/allocator/htfh/htfh_utils.h:57-66 | the five masked shifts count to the highest set bit of every 32-bit word (for zero, the value the code returns) |
| `Bits.FfsGeneric` | src/allocator/htfh/htfh_utils.h:69-71 | fls of the isolated low bit is ffs, for every nonzero 32-bit word |
| `Mapping.ClassHoldsSize` | src/allocator/htfh/htfh_utils.c:39-49 | every size lies in the half-open range of its own class and the second index is below 32 |
| `Mapping.ClassOrder` | src/allocator/htfh/htfh_utils.c:39-49 | a class is at or below the class of a size exactly if its smallest size is at or below that size |
| `Mapping.ClassInRange` | src/allocator/htfh/htfh_utils.c:39-49 | class indices are in range exactly for sizes below block_size_max; at that size itself the first index is one too large |
| `Mapping.GoodFit` | src/allocator/htfh/htfh_utils.c:52-57 | any block in a class at or above the searched one fits an aligned request, so the size-mismatch branch of find_free is dead |
| `Mapping.SearchMisses` | src/allocator/htfh/htfh_utils.c:52-57 | a block in a class below the searched one is smaller than r + r/32, or than r for small r |
| `Mapping.SearchLeast` | src/allocator/htfh/htfh_utils.c:52-57 | the search begins at the lowest class whose blocks are all large enough |
| `Mapping.AdjustedRequest` | src/allocator/htfh/htfh.c:115-124 | exactly which request sizes are refused, and exactly which ones wrap around the 64-bit word to a block that is too small |
| `Mapping.AlignPtrFacts` | src/allocator/htfh/htfh_utils.c:30-37 | align_ptr gives the next multiple of the alignment |
| `Mapping.GapFacts` | src/allocator/htfh/htfh.c:249-261 | for every power-of-two alignment the gap is 0 or at least one header, below align + 32, and leads to a multiple of the alignment |
| `Mapping.GapLeast` | src/allocator/htfh/htfh.c:249-261 | the aligned address is the first one that leaves no gap or one with room for a header |
| `Mapping.AlignedSizeFacts` | src/allocator/htfh/htfh.c:225-242 | the padded request is an in-range aligned size with room for the request, the alignment and a header |
| `Mapping.AlignedSizeLeast` | src/allocator/htfh/htfh.c:225-242 | the padded request is the least multiple of the alignment with that room, refused exactly if that is out of range; up to the base alignment it is the request itself |
| `Mapping.AlignedSizeExact` | src/allocator/htfh/htfh.c:235-242 | for every power of two below the word limit: the padded request has room behind any gap, or is refused, if and only if the alignment is not 2^63; there it wraps to the smallest block size |
| `TlsfPool.SplitKeeps` | src/allocator/htfh/block.c:111-130 | cutting a block in two keeps the tiling, the alignment and the lists |
| `TlsfPool.AbsorbKeeps` | src/allocator/htfh/block.c:133-142 | absorbing the next block keeps the tiling, the alignment and the lists |
| `TlsfPool.TakeOutKeeps` | src/allocator/htfh/controller.c:28-56 | taking a block off its list keeps every list equal to the free blocks of its class, minus the blocks in hand |
| `TlsfPool.PutInKeeps` | src/allocator/htfh/controller.c:59-83 | putting a block in hand on the list of its class keeps every list equal to the free blocks of its class |
| `TlsfOps.FindFits` | src/allocator/htfh/controller.c:192-213 | what the search finds is a free block with room for the request |
| `TlsfOps.FindExact` | src/allocator/htfh/controller.c:192-213 | the search fails if and only if every free block is smaller than the smallest size of the searched class |
| `TlsfOps.FindExhausted` | src/allocator/htfh/controller.c:192-213 | when the search fails, every free block is below the fragmentation bound |
| `TlsfOps.MallocKeepsInv` | src/allocator/htfh/htfh.c:150-168 | malloc keeps tiling, exact lists and the absence of free neighbours |
| `TlsfOps.MemalignKeepsInv` | src/allocator/htfh/htfh.c:215-276 | memalign keeps the same invariant, the leading and the trailing piece being listed again |
| `TlsfOps.FreeKeepsInv` | src/allocator/htfh/htfh.c:170-205 | free keeps the same invariant, coalescing on both sides |
| `TlsfTheorems.MallocMeetsRequest` | src/allocator/htfh/htfh.c:150-168 | a new aligned block with room for the request and less than 32 bytes to spare, all other live blocks as before; or failure with nothing changed, which happens if and only if the request is refused or every free block is below the searched class, and then all of them are below the fragmentation bound |
| `TlsfTheorems.MemalignMeetsRequest` | src/allocator/htfh/htfh.c:215-276 | a new block at a multiple of the alignment with room for the request and less than 32 bytes to spare, all other live blocks as before; or failure with nothing changed, which happens if and only if the padded request is zero or every free block is below the class searched for it |
| `TlsfTheorems.FreeLive` | src/allocator/htfh/htfh.c:170-205 | free removes one live block and keeps all others with their sizes |
| `TlsfTheorems.PayloadsDisjoint` | src/allocator/htfh/block.h:41-48 | no byte belongs to two live payloads, and all payloads are inside the pool |
| `TlsfTheorems.FreeUndoesMalloc` | src/allocator/htfh/htfh.c:150-205 | freeing what malloc just returned restores the same blocks and the same lists in the same order |
| `TlsfChoices.FindChooses` | src/allocator/htfh/controller.c:5-25 | the block found heads the list of its class, and no free block that suits is in a lower class |
| `TlsfChoices.MallocTakes` | src/allocator/htfh/htfh.c:150-168 | malloc takes that block and carves the request off its front: the sizes of what is used and left, all other blocks, and every list afterwards, the rest being at the head of its list |
| `TlsfChoices.MemalignTakes` | src/allocator/htfh/htfh.c:215-276 | memalign takes the block so chosen for the padded request, at the first aligned address in it that leaves no gap or one with room for a block, and lists the gap and the rest |
| `TlsfChoices.FreeJoins` | src/allocator/htfh/htfh.c:170-205 | free makes one block from the lowest to the highest free neighbour, puts it at the head of its list, takes the neighbours off theirs, and changes no other block or list |
| `Walks.WalkTiles` | src/allocator/htfh/block.c:63-73 | on any ladder of blocks, walking from a block to the sentinel meets every block at or above it once, in address order, and the steps add up to the distance |
| `TlsfTheorems.WalkTiles` | src/allocator/htfh/block.c:63-73 | the physical links of a tiled pool form such a ladder: walking block_next from the first block meets every block once in address order and accounts for every byte up to the sentinel |
| `TlsfTheorems.StepKeepsInv` | src/allocator/htfh/htfh.c:150-276 | every malloc, memalign or free of a live block keeps the invariant |
| `TlsfTheorems.RunKeepsInv` | src/allocator/htfh/htfh.c:9-276 | the invariant holds in every state of every run |
| `TlsfTheorems.FreshInv` | src/allocator/htfh/htfh.c:9-51 | the pool that add_pool sets up satisfies the invariant |
| `TlsfTheorems.NothingLiveIsFresh` | src/allocator/htfh/controller.c:100-133 | a well-formed pool with nothing live is exactly the freshly created pool |
| `TlsfTheorems.FreeAll` | src/allocator/htfh/htfh.c:170-205 | freeing all live blocks in any order gives back one free block of the whole pool |
| `TlsfMemory.Decoded` | src/allocator/htfh/block.c:3-38 | size, free bit and previous-free bit of the size word are independent: reading gives what was encoded, and each setter changes its own part only |
| `TlsfMemory.Removal` | src/allocator/htfh/controller.c:28-56 | the two link writes take exactly one block out of its list, and touch no header and no live payload |
| `TlsfMemory.Insertion` | src/allocator/htfh/controller.c:59-83 | the three link writes put a block in front of its list, and touch no header and no live payload |
| `TlsfHeaders.StoredMarkFree` | src/allocator/htfh/block.c:85-94 | the header writes of marking free represent the pool with that block free |
| `TlsfHeaders.StoredMarkUsed` | src/allocator/htfh/block.c:96-104 | the header writes of marking used represent the pool with that block used |
| `TlsfHeaders.StoredAbsorb` | src/allocator/htfh/block.c:133-142 | the header writes of absorbing represent the joined pool |
| `TlsfHeaders.StoredSplit` | src/allocator/htfh/block.c:111-130 | the header writes of a split represent the split pool, whatever the new header word held before |
| `TlsfIndex.RowSearch` | src/allocator/htfh/controller.c:5-25 | masking and ffs on a second-level word find the first non-empty list at or after an index, or show there is none |
| `TlsfIndex.ColumnSearch` | src/allocator/htfh/controller.c:5-25 | masking and ffs on the first-level word find the first non-empty row at or after an index, or show there is none |
| `TlsfAllocator.Allocator.constructor` | src/allocator/htfh/htfh.c:53-91 | a new heap holds one free block, one sentinel and empty lists elsewhere |
| `TlsfAllocator.Allocator.ClearHeads` | src/allocator/htfh/controller.c:232-246 | all lists point to the null block and both bitmap levels say so |
| `TlsfAllocator.Allocator.AddPool` | src/allocator/htfh/htfh.c:9-51 | the writes set up one listed free block and the sentinel |
| `TlsfAllocator.Allocator.RemoveFreeBlock` | src/allocator/htfh/controller.c:28-56 | one block leaves its list; heads and both bitmap levels still say exactly which lists are non-empty |
| `TlsfAllocator.Allocator.InsertFreeBlock` | src/allocator/htfh/controller.c:59-83 | one block enters its list; heads and both bitmap levels still say exactly which lists are non-empty |
| `TlsfAllocator.Allocator.MergePrev` | src/allocator/htfh/controller.c:100-116 | memory follows the merge with a free block before |
| `TlsfAllocator.Allocator.MergeNext` | src/allocator/htfh/controller.c:119-133 | memory follows the merge with a free block after |
| `TlsfAllocator.Allocator.BlockSplit` | src/allocator/htfh/block.c:111-130 | writes exactly the header words, and returns the address, that TlsfHeaders.StoredSplit shows to represent the split pool |
| `TlsfAllocator.Allocator.BlockAbsorb` | src/allocator/htfh/block.c:133-142 | writes exactly the header words that TlsfHeaders.StoredAbsorb shows to represent the joined pool |
| `TlsfAllocator.Allocator.TrimFree` | src/allocator/htfh/controller.c:136-150 | memory follows cutting off and listing the tail of a block |
| `TlsfAllocator.Allocator.TrimFreeLeading` | src/allocator/htfh/controller.c:172-190 | memory follows cutting off and listing the front of a block |
| `TlsfAllocator.Allocator.SearchSuitable` | src/allocator/htfh/controller.c:5-25 | the bitmap search returns the head of the least non-empty class at or above the target |
| `TlsfAllocator.Allocator.FindFree` | src/allocator/htfh/controller.c:192-213 | the pointer search computes the abstract search and unlists the block |
| `TlsfAllocator.Allocator.MarkUsed` | src/allocator/htfh/controller.c:215-229 | memory follows trimming and handing out a block |
| `TlsfAllocator.Allocator.Malloc` | src/allocator/htfh/htfh.c:150-168 | pointer and pool are those of the abstract malloc; no word of a live payload and none outside the pool changes |
| `TlsfAllocator.Allocator.Memalign` | src/allocator/htfh/htfh.c:215-276 | pointer and pool are those of the abstract memalign; no word of a live payload and none outside the pool changes |
| `TlsfAllocator.Allocator.Free` | src/allocator/htfh/htfh.c:170-205 | null is accepted and a free block refused with nothing changed; otherwise the pool is that of the abstract free and no word of another live payload changes |
| `GlibcHeap.GrowKeeps` | src/allocator/glibc/glibc.c:189-205 | moving the break and the sentinel keeps tiling, alignment and list |
| `GlibcHeap.SplitKeeps` | src/allocator/glibc/glibc.c:207-225 | splitting a used or free block keeps tiling, alignment and list |
| `GlibcHeap.AbsorbKeeps` | src/allocator/glibc/glibc.c:151-163 | absorbing the next block keeps tiling, alignment and list |
| `GlibcOps.CoalescePrevKeeps` | src/allocator/glibc/glibc.c:165-171 | with one possible pair of free neighbours left, coalescing with the previous block leaves none |
| `GlibcOps.FreeKeeps` | src/allocator/glibc/glibc.c:258-270 | free keeps the whole invariant and every other live block |
| `GlibcOps.NewBlockKeeps` | src/allocator/glibc/glibc.c:189-205 | the block made at the break is free, holds the request, is followed by the sentinel, and all live blocks stay |
| `GlibcOps.SplitBlockKeeps` | src/allocator/glibc/glibc.c:207-225 | the exact size after a split, with no free neighbours except the block itself |
| `GlibcOps.FirstFitFinds` | src/allocator/glibc/glibc.c:178-187 | first fit returns a listed block that fits, or every listed block is too small |
| `GlibcOps.FirstFitIsFirst` | src/allocator/glibc/glibc.c:178-187 | every block before the one found is too small |
| `GlibcOps.MallocKeeps` | src/allocator/glibc/glibc.c:227-256 | malloc keeps the invariant, hands out a block that was not live, holds the request with less than 32 bytes beyond the rounded size, and keeps all live blocks |
| `GlibcOps.MallocFails` | src/allocator/glibc/glibc.c:227-256 | malloc fails exactly if no free block is large enough and the break cannot move far enough |
| `GlibcTheorems.ReallocKeeps` | src/allocator/glibc/glibc.c:285-317 | on all four paths: the invariant holds, the result is live with room for the request and less than 32 bytes to spare, other live blocks stay; on failure the old block is live and no smaller |
| `GlibcTheorems.GrowBehind` | src/allocator/glibc/glibc.c:303-309 | moving the break behind the last block lets it reach any requested size |
| `GlibcChoices.MallocTakes` | src/allocator/glibc/glibc.c:227-256 | malloc hands out the first listed block that is large enough, and only if there is none the block at the top, the break moving by whole pages; what is left goes to the head of the list |
| `GlibcChoices.FreeJoins` | src/allocator/glibc/glibc.c:258-270 | free makes one block from the lowest to the highest free neighbour; it is listed where the block before it was, or at the head |
| `GlibcChoices.ReallocExact` | src/allocator/glibc/glibc.c:285-317 | realloc of a nonzero size returns the block itself if and only if it fits with a free block after it or, being last, with what the break gives; it fails if and only if it does not, no other free block is large enough, and the break cannot give a new one; after a failure the block has taken over the free block after it |
| `GlibcChoices.ReallocStays` | src/allocator/glibc/glibc.c:297-309 | where it stays: the break, the size of the block and the free list afterwards |
| `GlibcChoices.ReallocTakes` | src/allocator/glibc/glibc.c:311-315 | where it moves: to the first listed block that is large enough, less the one taken over, or to the top |
| `GlibcTheorems.WalkTiles` | src/allocator/glibc/glibc.c:20-20 | walking gca_next meets every block once in address order and accounts for every byte from the base to the sentinel |
| `GlibcTheorems.PayloadsDisjoint` | src/allocator/glibc/glibc.c:12-13 | payloads of different live blocks do not overlap |
| `GlibcTheorems.StepKeeps` | src/allocator/glibc/glibc.c:227-317 | every malloc, free or realloc of a live block keeps the invariant |
| `GlibcTheorems.RunKeeps` | src/allocator/glibc/glibc.c:89-317 | the invariant holds in every state of every run |
| `GlibcTheorems.NothingLiveIsFresh` | src/allocator/glibc/glibc.c:173-176 | a well-formed heap with nothing live is one free block from the base to the sentinel |
| `GlibcMemory.Retagged` | src/allocator/glibc/glibc.c:17-18 | setting size and used flag in either order gives both, whatever the word held before |
| `GlibcSteps.Removal` | src/allocator/glibc/glibc.c:98-110 | the guarded link writes take exactly one block out of the list and touch no header and no live payload |
| `GlibcSteps.Insertion` | src/allocator/glibc/glibc.c:89-96 | the link writes put a block in front of the list and touch no header and no live payload |
| `GlibcSteps.AbsorbStored` | src/allocator/glibc/glibc.c:156-161 | the header writes of coalescing represent the joined heap, the next prev_info mirroring the new curr_info |
| `GlibcSteps.SplitStored` | src/allocator/glibc/glibc.c:212-221 | the header writes of a split represent the split heap, both prev_info words mirroring their neighbours |
| `GlibcSteps.GrowStored` | src/allocator/glibc/glibc.c:195-202 | the header writes at the break represent the grown heap with its new sentinel |
| `GlibcSteps.Moved` | src/allocator/glibc/glibc.c:311-315 | through malloc, copy and free the old bytes reach the new block and no other live byte changes |
| `GlibcAllocator.Allocator.Create` | src/allocator/glibc/glibc.c:23-70 | null exactly for regions below one page; otherwise one free block and the sentinel |
| `GlibcAllocator.Allocator.AddFreeList` | src/allocator/glibc/glibc.c:89-96 | memory follows the insertion; no live payload changes |
| `GlibcAllocator.Allocator.RemoveFreeList` | src/allocator/glibc/glibc.c:98-110 | memory follows the removal; no live payload changes |
| `GlibcAllocator.Allocator.Sbrk` | src/allocator/glibc/glibc.c:120-135 | the break moves exactly if the new one is in range |
| `GlibcAllocator.Allocator.HandledSbrk` | src/allocator/glibc/glibc.c:137-149 | the old and the new break, or failure with the break unchanged |
| `GlibcAllocator.Allocator.CoalesceNext` | src/allocator/glibc/glibc.c:151-163 | memory follows the merge; it is reported exactly if the next block was free; no other live byte changes |
| `GlibcAllocator.Allocator.CoalescePrev` | src/allocator/glibc/glibc.c:165-171 | memory follows the merge with a free block before; no live byte changes |
| `GlibcAllocator.Allocator.FindFreeBlock` | src/allocator/glibc/glibc.c:178-187 | the list walk returns the first fit, or null |
| `GlibcAllocator.Allocator.SbrkNewBlock` | src/allocator/glibc/glibc.c:189-205 | memory follows the growth, or nothing changes |
| `GlibcAllocator.Allocator.SplitBlock` | src/allocator/glibc/glibc.c:207-225 | memory follows the split; the kept bytes and all other live bytes stay |
| `GlibcAllocator.Allocator.Malloc` | src/allocator/glibc/glibc.c:227-256 | pointer and heap are those of the abstract malloc; no byte of a live payload changes |
| `GlibcAllocator.Allocator.Free` | src/allocator/glibc/glibc.c:258-270 | null is refused; otherwise the heap is that of the abstract free and no other live byte changes |
| `GlibcAllocator.Allocator.Realloc` | src/allocator/glibc/glibc.c:285-317 | pointer and heap are those of the abstract realloc; on success the first min(old capacity, new size) bytes are carried over; on failure all bytes of the old block are intact; no other live byte changes |
| `GlibcAllocator.Allocator.MoveBlock` | src/allocator/glibc/glibc.c:311-316 | the moving path: nothing changes on failure, and all bytes of the old block are carried over on success |
| `GlibcAllocator.Allocator.GrowLast` | src/allocator/glibc/glibc.c:303-309 | the break path succeeds exactly if the break can move far enough, and keeps the bytes in place |
| `DlirsInvariant.PruneCore` | src/cache/dlirs/dlirs.c:169-196 | pruning keeps counters, tables and reference counts and leaves a LIR entry at the front of the stack |
| `DlirsOps.EvictLirKeeps` | src/cache/dlirs/dlirs.c:214-233 | demoting the front LIR entry keeps everything, residents included, and takes one off the LIR count |
| `DlirsOps.EvictResidentKeeps` | src/cache/dlirs/dlirs.c:235-252 | evicting the front resident removes exactly that key from the residents |
| `DlirsOps.MakeRoomOnce` | src/cache/dlirs/dlirs.c:321-328 | the nested loops of request evict exactly one entry if the cache is full and none otherwise |
| `DlirsOps.ShedResidentsOnce` | src/cache/dlirs/dlirs.c:157-160 | the eviction loop of hir_in_lirs pops a non-empty table, and at most once |
| `DlirsTheorems.StackSize` | src/cache/dlirs/dlirs.c:279-302 | the stack is no longer than residents and non-residents together, and every non-resident is in the HIR order |
| `DlirsTheorems.LimitStackKeeps` | src/cache/dlirs/dlirs.c:279-302 | limiting leaves at most twice the cache size on the stack and never pops an empty HIR order |
| `DlirsTheorems.ResizeLimits` | src/cache/dlirs/dlirs.c:198-212 | after any resize both limits are at least 1 and add up to the cache size, and the favoured one grew or is at its maximum |
| `DlirsTheorems.HitLirKeeps` | src/cache/dlirs/dlirs.c:101-117 | a hit on a LIR entry keeps the invariant and every resident |
| `DlirsTheorems.PromotionSettles` | src/cache/dlirs/dlirs.c:120-167 | a promotion leaves every reference accounted for: the one in hand goes to the stack, the evicted one to the caller |
| `DlirsTheorems.HirInLirsKeeps` | src/cache/dlirs/dlirs.c:120-167 | a key of the stack becomes LIR; nothing is evicted if it was resident, exactly one entry if it was not, which gets one handle more |
| `DlirsTheorems.HitResidentKeeps` | src/cache/dlirs/dlirs.c:254-277 | a hit on a resident HIR entry keeps the invariant and the residents |
| `DlirsChoices.EvictLirSheds` | src/cache/dlirs/dlirs.c:214-233 | the entry demoted is the first LIR entry of the stack; it goes to the back of the resident table, and the HIR entries up to the next LIR entry leave the stack |
| `DlirsChoices.ShedExact` | src/cache/dlirs/dlirs.c:151-154 | the demotion loop demotes the oldest LIR entries, exactly as many as there are too many, in their order |
| `DlirsChoices.PromotionExact` | src/cache/dlirs/dlirs.c:120-167 | a key of the stack becomes the last LIR entry; which LIR entries are demoted, the whole stack, the whole resident table, and that the evicted entry is the first of it |
| `DlirsChoices.HitLirExact` | src/cache/dlirs/dlirs.c:101-117 | a hit on a LIR entry moves it to the back, drops the HIR entries then in front, and changes no table, flag or limit otherwise |
| `DlirsChoices.ForgetExact` | src/cache/dlirs/dlirs.c:279-302 | limiting the stack forgets the first keys of the HIR order and no other |
| `DlirsChoices.HitResidentExact` | src/cache/dlirs/dlirs.c:254-277 | a hit outside the stack: the stack, the resident table and the demoted entries afterwards |
| `DlirsChoices.NewcomerExact` | src/cache/dlirs/dlirs.c:304-342 | a new entry is LIR if and only if the LIR budget is not used up and no HIR entry is resident; otherwise it goes to the back of the resident table, whose first entry a full cache evicts; the stack afterwards |
| `DlirsChoices.WarmUp` | src/cache/dlirs/dlirs.c:304-319 | a new cache fills with LIR entries first, as many as its limit allows, then with resident HIR entries, all in request order |
| `DlirsChoices.FirstEviction` | src/cache/dlirs/dlirs.c:321-328 | the first request beyond the capacity evicts the first key that did not become LIR |
| `DlirsChoices.InitialRounds` | src/cache/dlirs/dlirs.c:43-44 | the HIR limit of a new cache is the integer nearest to size times ratio and a half, ties to even, and at least 1 |
| `DlirsChoices.GetShifts` | src/cache/dlirs/dlirs.c:198-212 | a lookup moves the limits if and only if it misses on a stack key or hits a demoted entry outside the stack, and then the favoured one by the rounded quotient of the counters |
| `DlirsRuns.RequestKeeps` | src/cache/dlirs/dlirs.c:304-342 | a request for a key in no table, or for the resident leaving next, keeps the invariant, makes the key resident, and evicts one entry exactly if the cache was full; the caller gets a handle to that entry, and its handles to the old entry of the key stay |
| `DlirsRuns.RequestExact` | src/cache/dlirs/dlirs.c:304-342 | for any key: a request keeps the invariant if and only if the key is in no table once room is made |
| `DlirsRuns.RequestExactBefore` | src/cache/dlirs/dlirs.c:304-342 | the same as a condition before the call, in every state that keeps the LIR budget: the key is in no table, or is off the stack and the resident that a full cache evicts next |
| `DlirsRuns.RequestAfterMissBreaks` | src/main.c:151-168 | looking up a non-resident key of the stack and then requesting it, as the driver does, always breaks the invariant |
| `DlirsRuns.GetKeeps` | src/cache/dlirs/dlirs.c:82-99 | a lookup hits exactly for resident keys; a hit evicts nothing; a miss on a stack key brings it back for exactly one eviction; other misses change nothing; the evicted entry and no other gets a handle; exact reference counters stay exact if and only if it is not a hit on a resident entry outside the stack |
| `DlirsRuns.StepKeeps` | src/cache/dlirs/dlirs.c:82-342 | every operation keeps the invariant and the LIR budget and never lowers the number of residents; it keeps exact reference counters exact if and only if it is not a hit on a resident entry outside the stack |
| `DlirsRuns.RunKeeps` | src/cache/dlirs/dlirs.c:82-342 | the policy in every state of every run: counters name what they count, the HIR order is the HIR part of the stack, a LIR entry is in front, the stack has at most twice the cache size, a full cache stays full, and every reference is accounted for; on runs without a hit on a resident entry outside the stack, each reference counter is the tables and handles that hold its entry, and an entry is alive exactly while a table or the caller holds it |
| `DlirsRuns.CreateExact` | src/cache/dlirs/dlirs.c:35-62 | a new cache is well formed exactly if there are at least two entries and the ratio leaves room for a LIR entry |
| `DlirsRuns.ReleaseKeeps` | src/cache/dlirs/dlirs_entry.c:63-81 | destroying an evicted reference keeps the invariant, and with exact counters frees the entry if and only if it is the last handle and no table has the entry |
| `DlirsRuns.ReleaseStrayKeeps` | src/cache/dlirs/dlirs_entry.c:63-81 | the same for an evicted entry whose key has been requested again |
| `DlirsCarry.GetCarries` | src/cache/dlirs/dlirs.c:82-99 | on every state: a lookup changes no value, brings no new key into the tables, and loses a reference exactly by inserting an entry over itself |
| `DlirsCarry.RequestCarries` | src/cache/dlirs/dlirs.c:304-342 | on every state: a request stores its value, and leaves value, references and absence of every other key alone |
| `DlirsCounts.RunExact` | src/cache/dlirs/dlirs_entry.c:38-81 | over a whole run: the reference counter of every entry, in a table or not, is the number of tables and evicted handles that hold it, in every state, if and only if no step is a hit on a resident entry outside the stack |
| `DlirsCounts.GetEvictsAlive` | src/cache/dlirs/dlirs.c:82-99 | the entry that a lookup reports as evicted is alive, has one handle more, and holds the value it had |
| `DlirsCounts.RequestEvictsAlive` | src/cache/dlirs/dlirs.c:304-342 | so does the one that a request reports, also when it is the old entry of the requested key |
| `DlirsCounts.Reachable` | src/cache/dlirs/dlirs.c:35-62 | whatever a new cache with room for a LIR entry reaches is well formed and within its LIR budget; a request keeps it so exactly for untracked keys and for the resident leaving next; without a hit on a resident entry outside the stack every counter is exact and every entry alive exactly while it is held |
| `DlirsCounts.ResidentHitLosesReference` | src/cache/dlirs/dlirs.c:254-277 | after the lookup of a resident entry outside the stack, three tables hold the entry and its counter is one too small |
| `DlirsCounts.SecondHitFrees` | src/cache/dlirs/dlirs.c:120-167 | for every state: the second lookup of such a key brings its counter to zero while the stack holds the entry |
| `DlirsCounts.FiveStepsFree` | src/cache/dlirs/dlirs.c:82-342 | a run that does so: five operations on a new cache of two entries |
| `DlirsCounts.RequestTwiceBreaks` | src/cache/dlirs/dlirs.c:304-342 | requesting a key twice in a row breaks the invariant of a new cache |
| `DlirsCounts.DriverBreaks` | src/main.c:151-168 | three requests, a failed lookup of the second key and the request that the driver makes after it break the invariant of a new cache |
| `DlirsInsertions.GetInsertsAbsent` | src/cache/dlirs/dlirs.c:82-99 | every table insertion of a lookup is of an absent key if and only if it is not a hit on a resident entry outside the stack |
| `DlirsInsertions.RequestInsertsAbsent` | src/cache/dlirs/dlirs.c:304-342 | every table insertion of a request for a key in no table, or for the resident leaving next, is of an absent key, those of its eviction loops included |
| `DlirsInsertions.RunInsertsAbsent` | src/cache/dlirs/dlirs.c:82-342 | exactly which runs insert absent keys only, which is what the deque hash table takes |
| `DlirsRecency.RintNearest` | src/cache/dlirs/dlirs.c:198-212 | rounding is to a nearest integer, ties to even |
| `DlirsRecency.DeltaBounds` | src/cache/dlirs/dlirs.c:198-212 | a resize moves the limit by at least one, by at least the ratio of the counters, and by at most one more than the ratio |
| `DlirsRecency.PruneIsSuffix` | src/cache/dlirs/dlirs.c:169-196 | pruning drops exactly the HIR entries in front of the first LIR entry |
| `DlirsRecency.GetTouches` | src/cache/dlirs/dlirs.c:82-99 | every tracked key that is looked up ends up at the back of the stack |
| `DlirsRecency.RequestTouches` | src/cache/dlirs/dlirs.c:304-342 | every requested key, tracked or not, ends up at the back of the stack |
| `DlirsRecency.RunServes` | src/cache/dlirs/dlirs.c:82-342 | after any run without a hit on a resident entry outside the stack, a key in a table was there at the start or was requested, its entry is alive, and it holds the value of its last request, through every promotion, demotion and eviction |
| `DlirsCache.Cache.constructor` | src/cache/dlirs/dlirs.c:35-62 | the initial fields, and exactly when they are well formed |
| `DlirsCache.Cache.Contains` | src/cache/dlirs/dlirs.c:64-73 | true exactly for resident keys whose value is not null |
| `DlirsCache.Cache.IsFull` | src/cache/dlirs/dlirs.c:75-80 | true exactly if the residents fill the cache |
| `DlirsCache.Cache.Prune` | src/cache/dlirs/dlirs.c:169-196 | the loop computes the specified pruning on every state |
| `DlirsCache.Cache.EvictLir` | src/cache/dlirs/dlirs.c:214-233 | the field updates compute the specified demotion |
| `DlirsCache.Cache.EvictResidentHir` | src/cache/dlirs/dlirs.c:235-252 | the field updates compute the specified eviction |
| `DlirsCache.Cache.Resize` | src/cache/dlirs/dlirs.c:198-212 | the limits become the specified ones |
| `DlirsCache.Cache.LimitStack` | src/cache/dlirs/dlirs.c:279-302 | the unguarded loop ends, never pops an empty order, and computes the specified state |
| `DlirsCache.Cache.HitLir` | src/cache/dlirs/dlirs.c:101-117 | computes the specified hit and keeps the invariant |
| `DlirsCache.Cache.ShedLirs` | src/cache/dlirs/dlirs.c:151-154 | the unguarded demotion loop ends, never on an empty stack, and computes the specified state |
| `DlirsCache.Cache.ShedResidents` | src/cache/dlirs/dlirs.c:157-160 | the unguarded eviction loop ends, never on an empty table, and computes the specified state |
| `DlirsCache.Cache.HirInLirs` | src/cache/dlirs/dlirs.c:120-167 | computes the specified promotion, reports a miss exactly for a non-resident key, and keeps the invariant |
| `DlirsCache.Cache.HitHirInResidentHirs` | src/cache/dlirs/dlirs.c:254-277 | computes the specified hit and keeps the invariant |
| `DlirsCache.Cache.Get` | src/cache/dlirs/dlirs.c:82-99 | the value exactly for resident keys, nothing evicted on a hit, and the specified state |
| `DlirsCache.Cache.MakeRoom` | src/cache/dlirs/dlirs.c:321-328 | the nested unguarded loops end and compute the specified state |
| `DlirsCache.Cache.Request` | src/cache/dlirs/dlirs.c:304-342 | for every key: the loops end without popping an empty table and compute the specified state, which is well formed if and only if the key is in no table once room is made; then the key is resident, for one eviction exactly if the cache was full |
| `Probing.AwayFacts` | src/cache/hashtable/cache_hashtable.c:47-64 | stepping modulo the size reaches every slot, each at its own distance |
| `Probing.FillKeepsHoleFree` | src/cache/hashtable/cache_hashtable.c:65-71 | filling the first hole of a new key's path interrupts no other key's path |
| `Probing.HoleFreeDistinct` | src/cache/hashtable/cache_hashtable.c:78-88 | a table without interrupted paths has distinct keys |
| `Probing.OccupiedBound` | src/cache/hashtable/cache_hashtable.c:39-43 | a table that is not fully occupied has a free slot, so probes end |
| `Probing.StopUnique` | src/cache/hashtable/cache_hashtable.c:51-64 | the first slot of a probe that is free or holds the key is unique |
| `HashTables.HashTable.Get` | src/cache/hashtable/cache_hashtable.c:127-148 | null exactly if no slot holds the key, despite deletion holes |
| `HashTables.HashTable.Probe` | src/cache/hashtable/cache_hashtable.c:51-64 | the insertion probe stops at a slot that is free or holds the key, every earlier one being taken by another key |
| `HashTables.HashTable.ResizeInsert` | src/cache/hashtable/cache_hashtable.c:78-88 | the entry goes to the first hole of its path, or nothing changes and an equal key is there |
| `HashTables.HashTable.Resize` | src/cache/hashtable/cache_hashtable.c:96-125 | twice the slots, the same entries with the same values, indices right, and every probe path free of holes |
| `HashTables.HashTable.Insert` | src/cache/hashtable/cache_hashtable.c:33-76 | the return code for every key and value; the entries afterwards; at most half of the slots taken; twice the slots exactly if half of them were taken before; uniqueness of keys kept exactly if the key was absent or found; a table without interrupted paths stays without |
| `HashTables.HashTable.DeleteEntry` | src/cache/hashtable/cache_hashtable.c:150-160 | exactly one slot is emptied and its value returned |
| `HashTables.HashTable.Delete` | src/cache/hashtable/cache_hashtable.c:162-184 | the value of the entry that held the key, which is then absent; no other slot changes; null exactly if it was absent |
| `HashTables.StopDecides` | src/cache/hashtable/cache_hashtable.c:51-64 | the key is found exactly if no hole precedes it on its path |
| `HashTables.HoleFreeFinds` | src/cache/hashtable/cache_hashtable.c:51-64 | in a table without interrupted paths the insertion probe finds every key it has |
| `OrderedMaps.WithoutUnique` | src/cache/dequeue_hashtable/dq_hashtable.c:119-145 | removing a key from the ordered map removes that pair and no other, and keeps keys distinct |
| `DequeTables.DequeTable.ContentsUnique` | src/cache/dequeue_hashtable/dq_hashtable.c:59-65 | the head-to-tail list has distinct keys and no null value |
| `DequeTables.DequeTable.ContentsHas` | src/cache/dequeue_hashtable/dq_hashtable.c:59-65 | the list holds a key exactly if the table does |
| `DequeTables.DequeTable.Get` | src/cache/dequeue_hashtable/dq_hashtable.c:59-65 | the value in the ordered map, null exactly for absent keys |
| `DequeTables.DequeTable.GetFront` | src/cache/dequeue_hashtable/dq_hashtable.c:147-149 | the first value of the ordered map, or null |
| `DequeTables.DequeTable.GetLast` | src/cache/dequeue_hashtable/dq_hashtable.c:191-193 | the last value of the ordered map, or null |
| `DequeTables.DequeTable.Unlink` | src/cache/dequeue_hashtable/dq_hashtable.c:67-85 | the list without the entry is doubly linked again; the entry's own links stay |
| `DequeTables.DequeTable.Remove` | src/cache/dequeue_hashtable/dq_hashtable.c:119-145 | the ordered map without the key, its value, and the return code |
| `DequeTables.DequeTable.PopFront` | src/cache/dequeue_hashtable/dq_hashtable.c:178-189 | the ordered map without its first pair, whose value is returned |
| `DequeTables.DequeTable.PopLast` | src/cache/dequeue_hashtable/dq_hashtable.c:199-206 | the ordered map without its last pair, whose value is returned |
| `DequeTables.DequeTable.Insert` | src/cache/dequeue_hashtable/dq_hashtable.c:87-117 | null values are refused; otherwise the table stays well formed if and only if the key is absent, or is at the back and found by the probe, and is then the ordered map with the key put last; if not, a found key leaves the tail with a successor and an unfound one is in two slots |
| `DequeTables.DequeTable.PushFront` | src/cache/dequeue_hashtable/dq_hashtable.c:151-176 | the mirror image: well formed if and only if the key is absent, or is at the front and found by the probe; otherwise the head has a predecessor, or two slots hold the key |
| `DequeTables.DequeTable.Relink` | src/cache/dequeue_hashtable/dq_hashtable.c:102-113 | relinking a found entry works for the tail only; any other leaves a tail with a successor |
| `DequeTables.DequeTable.FoundWithoutHoles` | src/cache/dequeue_hashtable/dq_hashtable.c:87-117 | in a table without interrupted paths, an insertion finds every key it has |
| `DequeTables.EndsOpen` | src/cache/dequeue_hashtable/dq_hashtable.c:67-85 | whatever the list, a doubly linked one has a tail without successor and a head without predecessor |
| `DequeTables.RefreshBreaks` | src/cache/dequeue_hashtable/dq_hashtable.c:87-117 | two keys are enough: inserting the older one again gives the tail a successor, for every hash function and size |
| `DequeTables.HoleBreaks` | src/cache/dequeue_hashtable/dq_hashtable.c:87-145 | two colliding keys are enough to have a key in two slots: remove the one in their home slot and insert the other again |
| `KeyTables.KeyTable.Insert` | src/cache/dequeue_hashtable/dq_hashtable.c:87-117 | inserting an absent key puts it last and keeps the table well formed, in its own or fresh memory |
| `KeyTables.KeyTable.Refresh` | src/cache/dequeue_hashtable/dq_hashtable.c:87-117 | inserting any key: the table stays well formed if and only if the key is absent, or at the back and found; otherwise, and only then, its tail has a successor or two slots hold the key |
| `KeyTables.KeyTable.Remove` | src/cache/dequeue_hashtable/dq_hashtable.c:119-145 | the key leaves the order, and whether it was there |
| `KeyTables.KeyTable.PopFront` | src/cache/dequeue_hashtable/dq_hashtable.c:178-189 | the first key leaves the order, and the popped address leads back to it |
| `DlirsTables.TableCache.constructor` | src/cache/dlirs/dlirs.c:35-62 | three empty tables in separate memory, the initial fields, and exactly when they are well formed |
| `DlirsTables.TableCache.Prune` | src/cache/dlirs/dlirs.c:169-196 | on the hash tables: the loop computes the specified pruning |
| `DlirsTables.TableCache.EvictLir` | src/cache/dlirs/dlirs.c:214-233 | the demoted key is absent from the resident table, so the tables stay well formed and follow the specified demotion |
| `DlirsTables.TableCache.EvictResidentHir` | src/cache/dlirs/dlirs.c:235-252 | the tables follow the specified eviction |
| `DlirsTables.TableCache.LimitStack` | src/cache/dlirs/dlirs.c:279-302 | the loop ends without popping an empty table and follows the specification, and does not depend on the resident table |
| `DlirsTables.TableCache.HitLir` | src/cache/dlirs/dlirs.c:101-117 | the tables follow the specified hit and stay well formed |
| `DlirsTables.TableCache.ShedLirs` | src/cache/dlirs/dlirs.c:151-154 | the demotion loop ends and follows the specification on the tables |
| `DlirsTables.TableCache.ShedResidents` | src/cache/dlirs/dlirs.c:157-160 | the eviction loop ends and follows the specification on the tables |
| `DlirsTables.TableCache.HirInLirs` | src/cache/dlirs/dlirs.c:120-167 | the tables follow the specified promotion and stay well formed, and a miss is reported exactly for a non-resident key |
| `DlirsTables.TableCache.HitHirInResidentHirs` | src/cache/dlirs/dlirs.c:254-277 | keys and counters follow the specified hit; the resident table stays well formed if and only if the key is at its back and found, and is otherwise broken |
| `DlirsTables.TableCache.Get` | src/cache/dlirs/dlirs.c:82-99 | for every key the lookup follows the policy on the hash tables; they stay well formed if and only if it is not a hit on a resident entry outside the stack, or that entry is at the back of its table and found |
| `DlirsTables.TableCache.MakeRoom` | src/cache/dlirs/dlirs.c:321-328 | the nested eviction loops end and follow the specification on the tables |
| `DlirsTables.TableCache.Request` | src/cache/dlirs/dlirs.c:304-342 | for a key in no table, or the resident leaving next: the request follows the policy on the hash tables and keeps them well formed |
| `LruSpec.LastTouchBound` | src/cache/lru/lru.c:54-78 | the last touch of a key is a touch of it, and none comes later |
| `LruSpec.RecencyOrder` | src/cache/lru/lru.c:54-78 | the recency list holds every touched key once, with its last value, in the order of last touches |
| `LruSpec.RequestKeeps` | src/cache/lru/lru.c:54-67 | a request keeps the contents equal to the most recently touched keys |
| `LruSpec.GetKeeps` | src/cache/lru/lru.c:69-78 | a lookup keeps the contents equal to the most recently touched keys |
| `LruSpec.RunKeeps` | src/cache/lru/lru.c:54-86 | over every run: the contents are the most recently touched keys, at most the capacity; without explicit evictions as many as were touched |
| `LruSpec.CachedAreLatest` | src/cache/lru/lru.c:54-86 | every cached key was touched later than every key that is not cached, and holds the value of its last touch |
| `LruSpec.EvictedIsOldest` | src/cache/lru/lru.c:60-64 | the entry at the front, which eviction takes, is the least recently touched one |
| `LruSpec.GetServes` | src/cache/lru/lru.c:69-78 | the value returned is that of the last touch of a cached key, and null for any other |
| `LruSpec.RequestReports` | src/cache/lru/lru.c:54-67 | the return code in every case, and the value of the least recently touched key exactly if the cache is full |
| `LruSpec.EvictReports` | src/cache/lru/lru.c:80-86 | the value of the least recently touched key, which is the one that goes, or failure of an empty cache |
| `LruSpec.RunServes` | src/cache/lru/lru.c:54-86 | after any run from an empty cache a lookup returns the value of the last request for a cached key, and null exactly for the others |
| `LruCaches.LruCache.Contains` | src/cache/lru/lru.c:39-44 | true exactly for cached keys |
| `LruCaches.LruCache.IsFull` | src/cache/lru/lru.c:46-51 | true exactly at or above the capacity |
| `LruCaches.LruCache.Request` | src/cache/lru/lru.c:54-67 | return code and evicted value always those of the policy; contents too, and the table well formed, exactly if the key is absent or found at the back once room is made; otherwise the tail has a successor or two slots hold the key |
| `LruCaches.LruCache.Get` | src/cache/lru/lru.c:69-78 | contents and value are those of the policy for every key; the value is the one cached, null exactly if there is none |
| `LruCaches.LruCache.Evict` | src/cache/lru/lru.c:80-86 | contents, code and value are those of the policy |
| `LruCaches.LruCache.LegalTakes` | src/cache/lru/lru.c:54-67 | requests for absent keys are always taken |

## Left out

- TlsfAllocator.Allocator.constructor: heaps whose pool is below the minimum or at or above `block_size_max`, which the C code refuses or, at equality, accepts with an index out of range; `htfh_create` ignores the refusal and returns an allocator without a pool.
- TlsfAllocator.Allocator.AddPool: the same sizes; at exactly `block_size_max` the first index is one too large (`Mapping.ClassInRange`) and the C code writes outside its table.
- TlsfAllocator.Allocator.Memalign: alignments that are not powers of two, for which `align_up` returns 0, and alignment 2^63, for which the padded size wraps (`Mapping.AlignedSizeExact`) and the block returned need be neither aligned nor large enough.
- TlsfOps.MemalignKeepsInv: the same alignments.
- TlsfTheorems.MemalignMeetsRequest: the same alignments.
- Mapping.AlignedSizeFacts: alignment 2^63, which `Mapping.AlignedSizeExact` covers.
- TlsfAllocator.Allocator.Free: pointers that are not payloads of the pool, which the C code does not detect.
- GlibcAllocator.Allocator.Free: pointers that are not live payloads, which the C code does not detect.
- GlibcAllocator.Allocator.Malloc: word overflow of sizes and of the break; integers are unbounded, so the test for a rounded size of 0 is absent.
- GlibcAllocator.Allocator.Realloc: bytes are words of eight, as `memcpy` moves whole payloads whose sizes are multiples of sixteen.
- DlirsCache.Cache.Resize: the limits are exact integers; the float precision of very large caches is not modelled.
- HashTables.HashTable.constructor: a table of size 0, on which every probe divides by zero; so for the tables built on it.
- DlirsTables.TableCache.Request: tracked keys other than the one leaving, which put present keys into up to three tables; `DlirsRuns.RequestExactBefore` shows that the policy is lost with them, and `DequeTables.DequeTable.Insert` what becomes of a table.
- DlirsTables.TableCache.constructor: the address of an entry is a function of its key that has an inverse, which a memory with one current entry per key provides; the entries themselves are kept by key.
- DlirsRuns.RunKeeps: after a hit on a resident entry outside the stack the C code may free an entry that a table holds; the model keeps it, so what the C code does with the freed entry is not modelled.
- An evicted reference that `dlirs_request` does not set (nothing was evicted on the HIR path) is modelled as none.
- The 32-bit column of `src/allocator/htfh/constants.h`, which the include order can select; the model fixes the 64-bit one.
- `htfh_realloc` and `controller_block_trim_used`, whose status tests refuse the usual in-place cases; `htfh_calloc` and `gca_calloc`; adding a second pool.
- Null instances, null keys and failing memory allocation inside the tables; errno values and log output.
- Locks and the facade in `src/cache/cache.c`; the operations are sequential.
- `mmap` and `munmap`; a mapped region reads as zeros.
- The random cache, the heap hash table, the key codec and the hash functions; keys have equality and some hash.
- Custom key comparators other than equality.

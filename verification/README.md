# ctornado and its allocator: models and proofs

ctornado is an asynchronous network server library in C++ with a vendored copy of the jemalloc memory allocator. This
project models the parts of both where correctness rests on invariants across many operations, and proves what they
promise, for all inputs, all states that operations can reach and, where the code is concurrent, all interleavings.

| files | component |
|---|---|
| `RbShape` `RbPaths` `RbOrder` `RbInsert` `RbRemove` `RbSwap` `RbTree` | the left-leaning red-black trees of `rb.h`, with nodes rewired in place and an explicit path |
| `ArenaRuns` `ArenaIndex` `ArenaState` `ArenaEffects` `ArenaScan` `ArenaPurge` `Arena` | the page-run allocator of an arena: map, counters, indexes, coalescing, trimming, purging |
| `Bins` `BinPages` | the bins of small regions on top of it, the index computation without division, and which pages of a run were never used |
| `ProfCtx` `ProfCalls` `ProfLeak` `ProfLoss` `ProfBehind` | the lifetime of heap-profile contexts, as steps of any number of threads: the invariant, what whole calls come to, and the limbo counts, items and contexts that get lost |
| `Seqlock` | the epoch by which a dump reads counters of running threads |
| `Cuckoo` | the cuckoo hash table, and what a failed insertion does to the map it stores |
| `Extents` | recycling of chunks through two trees of extents |
| `Bitmap` | the multi-level bitmap |
| `Rtree` | the radix tree |
| `Tcache` | a bin of a thread cache: fill, flush, collection |
| `Quarantine` | the ring of quarantined objects |
| `HashBlocks` `Sha1Rounds` `Sha1` `Sha1Known` `Md5Rounds` `Md5` `Md5Known` | the incremental hashes, down to the rounds, and a known digest of each |
| `Buffer` `IOStream` | the chunked byte buffer and the stream over a non-blocking socket |
| `Base64Encode` `Base64Decode` | base64 |
| `Machine` | shared arithmetic and memcpy |

Objects that the sources update in place are classes here, and their methods are proved against functions of the old and
new state: a tree against its in-order sequence, an arena against the runs that tile its chunks and the set of those in
use, a hash context against the message it was given, a stream against the bytes received and written. What the sources
promise is then proved of those functions. Addresses and keys are integers. Whether there is memory for a chunk, a node, a
table, a ring, a context or an object, the answers of a socket and the contents of fresh memory are parameters, so every
statement is for all of them. Where the code would touch memory that is not its own, the method says so by an outcome of
its own (`crash`, `overrun`, `stray`) and states exactly when that is. Arithmetic that may wrap round is written out modulo
the word.

Some promises do not hold, and the exact condition under which they do is proved instead:

- `SHA1Update` tests for a full block in 32 bits. The test is right if and only if the bytes buffered and the data are
  together less than 2^32 (`Sha1.FullTest`, `Sha1.FullTestWraps`); otherwise the data would be copied past the end of the
  buffer (`Sha1.Context.Update`).
- A failed `ckh_insert` in `prof_lookup_global` or `prof_lookup` is taken for one that changed nothing: what was to be
  inserted is freed. The table may have kept it and lost an older item instead. Every step of every thread keeps the
  invariant of the contexts if and only if it is not such a failure with an older item lost (`ProfCtx.StepInv`), so the
  invariant holds all along a run if and only if there is none in it (`ProfCtx.RunInvExactly`). With it goes the promise
  that no step follows a pointer to a freed context or counter: from the start, after as few as four backtraces, a thread
  comes to follow one, by way of the table of contexts (`ProfLoss.LostCtx`) or of its own cache (`ProfLoss.LostCnt`).
- `arena_run_alloc_large` and `arena_run_alloc_small` promise null without memory. That is so only in the search that comes
  after the chunk allocation; if that fails the null chunk is written through before, which happens if and only if no run
  fits, there is no spare chunk and there is no memory (`Arena.Arena.RunAlloc`).
- A context that is no longer used is to be destroyed. One to which something still refers stays behind after a step,
  with no limbo count and nothing that refers to it, if and only if no limbo count was left behind on it and the step is
  that `prof_free` without a counter takes its last object, or that a dump is the last to let go of it
  (`ProfBehind.StaysBehind`).
- `prof_lookup` that runs out of memory after finding an existing context, for the counter or for the cache entry, never
  lowers its limbo count again. No other step does that: in every run that loses no older item the count is that of the
  holders and the dump if and only if there was no such step since the context was made (`ProfLeak.LeaksExactly`,
  `ProfLeak.LimboTrue`). After one the context is never freed (`ProfLeak.NeverFreedAgain`, with a run of two threads in
  `ProfLeak.LeakyRun`).
- `prof_realloc` with one and the same counter for the old and the new object lets a torn snapshot through, from any state
  in which an update can begin (`Seqlock.Torn`); with one increment before and one after each update none gets through
  (`Seqlock.SnapshotsConsistent`).
- `arena_tcache_fill_small` that gets only a part of what it asked for leaves the stack with pointers from before. It holds
  what was got if and only if the stale slots happen to name the objects left out for them (`Tcache.FillExact`); if they
  name none of the objects got, that is so if and only if the arena gave everything or nothing (`Tcache.FillPartial`,
  with an input in `Tcache.FillStale`).
- `arena_purge` is to purge down to the pages that are allowed to be dirty. It stops there unless its unsigned count of
  pages to purge wraps, which it does exactly if a chunk with adjacent free runs gives more dirty pages than are still
  wanted, or fewer pages are dirty on entry than allowed; then it goes on until no page is dirty (`Arena.Arena.Purge`, with
  an arena in `Arena.Arena.PurgesAll`).
- `arena_bin_lower_run` is there to keep the current run of a bin below all other runs with free regions. Every operation of
  a bin keeps that but `arena_bin_malloc_hard`, when it has dropped the lock for a new run: afterwards it holds if and only
  if the new run did not become the current one above a run that other threads left in the tree (`Bins.Bin.MallocHard`, with
  operations that lead there in `Bins.Bin.NotPacked`).
- The delimiter search of `read_until` tests the number of bytes where the number of chunks is meant: it ends if and only
  if the delimiter is in the buffer or the buffer holds at most one byte (`IOStream.Stream.ReadFromBuffer`). A streaming
  `read_bytes` and one of 0 bytes are never completed (`IOStream.Stream.ReadBytes`).
- `base64_decode` on strings, which otherwise skips characters outside the alphabet, fails if too little of the text comes
  before the first of them (`Base64Decoding.StrNoisy`).
- `chunk_recycle` loses the space behind the range it takes, all of it, if and only if there is space before the range too
  and no memory for a second node (`Extents.ExtentTrees.Recycle`, with an input in `Extents.ExtentTrees.LosesTrail`).
- `ckh_insert` that fails leaves the table without the item it has in hand, so it leaves the stored items as they were if
  and only if that is the new one. It fails only if both buckets of the key are full and no larger table can be had, and
  always if the whole table is full and there is no memory. If no growth succeeded before, the new item is stored and an
  older one is lost (`Cuckoo.Ckh.Insert`, with a table in `Cuckoo.Ckh.FifthItem`).
- `base64_decode_len` looks characters up in a table of 128 entries. It reads behind the table if and only if the first
  character that ends the run is beyond 127 (`Base64Decoding.DecodeLen`).

Two more things that the proofs turned up:

- What `arena_chunk_dirty_comp` calls fragmentation is the ratio of the runs that would stay after coalescing to all runs.
  The code orders by it, greatest first, so a chunk in which nothing can be coalesced is purged first
  (`ArenaIndex.DirtyOrder`, `ArenaIndex.FragmentedLast`).
- A chunk that is the spare never has dirty pages that count, so the branch of `arena_chunk_purge` for it is never taken
  (`ArenaScan.DirtyChunk`).

## Model

| member | source | states |
|---|---|---|
| RbTree.RbTree.Insert | deps/jemalloc/include/jemalloc/internal/rb.h:448-515 | the new element is put into the in-order sequence at one place and nothing else changes; search order, no red right child, no two reds in a row and equal black heights are kept, and 128 path entries suffice for any tree that fits the address space |
| RbTree.RbTree.Remove | deps/jemalloc/include/jemalloc/internal/rb.h:516-853 | exactly the given element leaves the in-order sequence; order, colours and black heights are kept |
| RbTree.RbTree.Search | deps/jemalloc/include/jemalloc/internal/rb.h:386-403 | finds an element with the key if and only if there is one |
| RbTree.RbTree.NSearch | deps/jemalloc/include/jemalloc/internal/rb.h:404-425 | the least element whose key is not below the given one, or nothing if there is none |
| RbTree.RbTree.First | deps/jemalloc/include/jemalloc/internal/rb.h:312-320 | the first element in order, or nothing for an empty tree |
| RbTree.RbTree.Next | deps/jemalloc/include/jemalloc/internal/rb.h:330-357 | the element that follows in order, found without parent links |
| RbTree.RbTree.Prev | deps/jemalloc/include/jemalloc/internal/rb.h:358-385 | the element that precedes in order |
| RbTree.RbTree.Wind | deps/jemalloc/include/jemalloc/internal/rb.h:455-467 | the path array ends where the new key belongs: all before it is smaller and all after it larger |
| RbTree.RbTree.InsertUnwind | deps/jemalloc/include/jemalloc/internal/rb.h:469-515 | unwinding the path rebuilds a balanced tree with the in-order sequence that was aimed at |
| RbTree.RbTree.WindSuccessor | deps/jemalloc/include/jemalloc/internal/rb.h:534-543 | the path is prolonged to the successor of the element to be removed |
| RbTree.RbTree.SwapSuccessor | deps/jemalloc/include/jemalloc/internal/rb.h:549-577 | exchanging the node and its successor in place gives the path of the tree in which they have changed places, also when the successor is the right child |
| RbTree.RbTree.RemoveUnwind | deps/jemalloc/include/jemalloc/internal/rb.h:611-852 | unwinding over a missing black restores balance and the in-order sequence that was aimed at |
| RbTree.RbTree.Splice | deps/jemalloc/include/jemalloc/internal/rb.h:579-597 | a node without successor is replaced by its left child, and balance is kept |
| RbRemove.RemoveStep | deps/jemalloc/include/jemalloc/internal/rb.h:614-848 | each case of the fix-up yields the subtree that RemoveFix specifies, and stops exactly when the balance is restored |
| RbInsert.InsertStep | deps/jemalloc/include/jemalloc/internal/rb.h:470-511 | each case of the insertion fix-up yields the subtree that InsertFix specifies |
| RbShape.HeightBound | deps/jemalloc/include/jemalloc/internal/rb.h:450-453 | a balanced tree of n elements has a height of at most twice the logarithm of n + 1 |
| RbPaths.PathFits | deps/jemalloc/include/jemalloc/internal/rb.h:518-521 | so a path never needs more than the 16 * sizeof(void *) entries the array has |
| RbShape.InsertFixCorrect | deps/jemalloc/include/jemalloc/internal/rb.h:470-511 | the insertion fix-up keeps the in-order sequence and the black height and leaves at most a red root over a red left child to the level above |
| RbShape.RemoveFixBalance | deps/jemalloc/include/jemalloc/internal/rb.h:614-848 | the removal fix-up restores the black height, or hands on a deficit of one exactly when it does not stop |
| RbShape.RemoveFixInorder | deps/jemalloc/include/jemalloc/internal/rb.h:614-848 | the removal fix-up keeps the in-order sequence and the set of nodes |
| ArenaRuns.TiledCovers | deps/jemalloc/src/arena.c:369-408 | runs that tile the map cover every page exactly once |
| ArenaRuns.CoalescedNeighbours | deps/jemalloc/src/arena.c:1088-1154 | coalesced means: no two neighbouring free runs have the same dirty flag, both ways |
| ArenaState.PlacedNeighbours | deps/jemalloc/src/arena.c:174-211 | the words beside a run tell exactly whether its neighbours are free |
| ArenaState.PlacedCounts | deps/jemalloc/src/arena.c:213-278 | what insert and remove add to and take from the header counters is what the map says |
| ArenaIndex.DirtyCompAntisymmetric | deps/jemalloc/src/arena.c:104-168 | arena_chunk_dirty_comp is antisymmetric, and 0 only for the same address, when chunks have available runs |
| ArenaIndex.DirtyCompTransitive | deps/jemalloc/src/arena.c:104-168 | arena_chunk_dirty_comp is transitive when chunks have available runs, so it is a strict total order |
| ArenaIndex.FragmentedLast | deps/jemalloc/src/arena.c:104-168 | a chunk without adjacent runs has the greatest ratio there is and comes before those with some |
| ArenaIndex.DirtyOrder | deps/jemalloc/src/arena.c:104-168 | the comparison by products orders chunks by the ratio of runs that would stay after coalescing, greatest first, and chunks of equal ratio by address in a direction that depends on the adjacencies |
| ArenaIndex.BestFitExists | deps/jemalloc/src/arena.c:660-680 | if any available run is large enough there is a lowest best fit |
| Arena.Arena.AvailInsert | deps/jemalloc/src/arena.c:213-244 | a free run enters runs_avail; the counters of the header and the set of dirty chunks follow |
| Arena.Arena.AvailRemove | deps/jemalloc/src/arena.c:246-278 | a free run leaves runs_avail; the counters and the set of dirty chunks follow |
| Arena.Arena.SplitRemove | deps/jemalloc/src/arena.c:369-408 | the run leaves the index, what is left over of it is entered as a free run with the same dirty flag, and nactive grows by the pages taken |
| Arena.Arena.SplitLarge | deps/jemalloc/src/arena.c:410-461 | a free run becomes a large run and a free remainder; the whole invariant of the arena is kept |
| Arena.Arena.SplitSmall | deps/jemalloc/src/arena.c:477-521 | a free run becomes a run of a small bin and a free remainder; the whole invariant is kept |
| Arena.Arena.CoalesceForward | deps/jemalloc/src/arena.c:1088-1122 | a free run absorbs the free run after it exactly if both have the same dirty flag |
| Arena.Arena.CoalesceBackward | deps/jemalloc/src/arena.c:1123-1154 | a free run is absorbed by the one before it exactly if both have the same dirty flag |
| Arena.Arena.RunDallocMap | deps/jemalloc/src/arena.c:1156-1230 | freeing a run coalesces it with both neighbours; the map, the counters and the index agree again |
| Arena.Arena.ChunkDealloc | deps/jemalloc/src/arena.c:627-657 | an entirely free chunk becomes the spare, and the spare before it goes |
| Arena.Arena.ChunkInitHard | deps/jemalloc/src/arena.c:545-608 | a new chunk is one clean free run, and its unzeroed bits tell the truth about the memory |
| Arena.Arena.ChunkAlloc | deps/jemalloc/src/arena.c:610-625 | the spare is taken back if there is one, and a new chunk entered if not; without memory for one the null chunk is written through |
| Arena.Arena.RunAllocHelper | deps/jemalloc/src/arena.c:659-680 | allocates from the lowest best fit exactly if some run fits, and changes nothing otherwise; exactly the pages of the new run leave the free ones |
| Arena.Arena.RunAlloc | deps/jemalloc/src/arena.c:682-712 | one new run of the size and kind asked for, apart from all in use, from the lowest best fit if any run fits and else from the spare or a new chunk, and then at its start; exactly its pages are no longer free, with the dirty flag of the run they come from; everything in use stays, and the unzeroed bits of clean free pages; ndirty is exact; instead of null there is a crash, exactly if no run fits, there is no spare and no memory |
| Arena.Arena.RunDallocAt | deps/jemalloc/src/arena.c:1156-1230 | exactly the given run is no longer in use, and exactly its pages have become free, dirty or clean as asked; nactive and ndirty are exact, also when the chunk becomes the spare; the other chunks stay, but for a spare that goes |
| Arena.Arena.RunDalloc | deps/jemalloc/src/arena.c:1156-1230 | the same with the purge that follows exactly if the dirty pages are then above the limit, after which they are within it; without a purge ndirty has grown by the pages freed |
| ArenaEffects.UsedDisjoint | deps/jemalloc/src/arena.c:369-408 | runs in use never overlap |
| ArenaScan.ScannedNext | deps/jemalloc/src/arena.c:824-880 | the scan moves from run to run however long they are |
| Arena.Arena.StashDirty | deps/jemalloc/src/arena.c:824-880 | stashing takes exactly the dirty free runs that the scan is to pick out of use, as many pages as Picked counts; afterwards no free runs are adjacent, and no page is dirty if all were asked for |
| Arena.Arena.PurgeStashed | deps/jemalloc/src/arena.c:882-928 | purging counts the pages and marks them, and changes no other bit |
| Arena.Arena.UnstashPurged | deps/jemalloc/src/arena.c:930-949 | the stashed runs are freed as clean; what else is in use stays |
| Arena.Arena.ChunkPurge | deps/jemalloc/src/arena.c:951-996 | of the dirty runs of a chunk all go, or those beside a free run if it has any and not all were asked for; the return value is their pages, by which ndirty falls; no run in use is touched, and no clean free page changes |
| ArenaScan.DirtyChunk | deps/jemalloc/src/arena.c:959-979 | the spare is never among the dirty chunks, so a chunk to be purged is in use |
| ArenaScan.SpareClean | deps/jemalloc/src/arena.c:610-657 | the spare has no dirty pages that count |
| Arena.Arena.ComputeNpurgatory | deps/jemalloc/src/arena.c:803-822 | purging so many pages brings ndirty down to what is allowed |
| Arena.Arena.PurgeRound | deps/jemalloc/src/arena.c:1040-1075 | each round purges the first chunk of the dirty ones, makes ndirty strictly smaller and moves npurgatory by as much as the local count, modulo the word; nothing but that chunk changes |
| Arena.Arena.Purge | deps/jemalloc/src/arena.c:998-1077 | a purge is a sequence of such rounds; it stops with the round that brings ndirty down to what is allowed, unless the count of pages still to purge wraps, exactly when a chunk with adjacent runs gives more than is wanted or fewer pages are dirty than allowed on entry; then it stops when none is dirty; npurgatory ends at its value on entry, modulo the word, on both exits |
| Arena.Arena.MaybePurge | deps/jemalloc/src/arena.c:770-791 | purges exactly if purging is on and the dirty pages that nobody is about to purge are more than the share of the active ones that is tolerated; otherwise nothing changes; afterwards ndirty is within the limit, unless purging is switched off |
| Arena.Arena.PurgeAll | deps/jemalloc/src/arena.c:1079-1086 | afterwards no more pages are dirty than other threads are about to purge; with none of them, none |
| Arena.Arena.TrimHead | deps/jemalloc/src/arena.c:1232-1262 | a large run keeps its tail; exactly the pages of the head become free, dirty or clean as asked, and ndirty is exact as long as no purge follows |
| Arena.Arena.TrimTail | deps/jemalloc/src/arena.c:1264-1295 | a large run keeps its head; the same for the pages of the tail |
| Arena.Arena.RallocShrink | deps/jemalloc/src/arena.c:1980-2008 | a large run gets smaller in place and nothing else in use changes; the pages cut off are free and dirty afterwards and ndirty has grown by as many, exactly unless that is above the limit and a purge follows |
| Arena.Arena.RallocGrow | deps/jemalloc/src/arena.c:2010-2073 | a large run grows in place exactly if the pages after it are free and enough, by the pages asked for or, with less room, up to the end of the free run; its dirty flag is that of either; otherwise nothing changes |
| Arena.Arena.PurgesAll | deps/jemalloc/src/arena.c:998-1077 | seven dirty pages, six allowed: the run of four beside a free one goes, the count wraps, and the other three go as well |
| ArenaEffects.FreedPages | deps/jemalloc/src/arena.c:1156-1230 | freeing a run makes exactly its pages free, dirty or clean as told, whatever it is joined to |
| ArenaEffects.SplitPages | deps/jemalloc/src/arena.c:369-408 | a split takes exactly the pages asked for, from the start of the run |
| ArenaScan.PickedAll | deps/jemalloc/src/arena.c:824-880 | a scan for all picks every dirty page |
| ArenaScan.PickedFragments | deps/jemalloc/src/arena.c:824-880 | without adjacent free runs a scan for adjacent ones would pick none, which is why all are asked for then |
| ArenaScan.PickedNext | deps/jemalloc/src/arena.c:894-956 | a run picked is no neighbour of the next any more, but two neighbours with the same flag there are not |
| ArenaPurge.GoingMore | deps/jemalloc/src/arena.c:1040-1075 | what is still to be purged follows the dirty pages, modulo the word, through every round |
| ArenaPurge.GoingEnds | deps/jemalloc/src/arena.c:1040-1075 | so the rounds stop where Purge says |
| ArenaState.SplitDone | deps/jemalloc/src/arena.c:369-408 | after a split the map, the tiling and the counters of the chunk agree |
| ArenaState.FreedWhole | deps/jemalloc/src/arena.c:1156-1230 | after freeing and coalescing they agree again, and nothing is left to coalesce |
| Arena.Arena.DallocBinRun | deps/jemalloc/src/arena.c:1796-1845 | an empty run of a bin goes back to the arena, also one that was never used (nextind 0); the pages behind the last region ever handed out, found from nextind, go as clean ones, and no byte of the header or of such a region is on one of them |
| BinPages.PastUntouched | deps/jemalloc/src/arena.c:1812-1816 | no byte of the header or of a region below nextind lies on a page from the computed one on |
| BinPages.PastLeast | deps/jemalloc/src/arena.c:1812-1816 | and it is the first such page: the page before it has such a byte, or, with nextind 0, the last byte of the header |
| BinPages.PastWithin | deps/jemalloc/src/arena.c:1812-1816 | the page lies behind the first one and not behind the run, for a nextind of 0, too |
| ProfCtx.StepInv | deps/jemalloc/src/prof.c:420-647 | every step of every thread keeps the invariant (links both ways, exact counts, exact limbo count, and no step reads a freed context or counter) if and only if it is not a failed insertion into bt2ctx or bt2cnt by which an older item is lost |
| ProfCtx.RunInv | deps/jemalloc/src/prof.c:420-873 | the invariant holds after every interleaving of steps of any number of threads in which no failed insertion loses an older item |
| ProfCtx.RunInvExactly | deps/jemalloc/src/prof.c:420-873 | the invariant holds all along a run if and only if no failed insertion in it loses an older item |
| ProfCalls.SampledHit | deps/jemalloc/src/prof.c:572-647 | a whole sampled allocation with the counter in the cache of the thread: the object gets the context of its backtrace, that counter grows by it, and nothing else changes |
| ProfCalls.SampledFound | deps/jemalloc/src/prof.c:605-641 | with the context made by another thread: a new counter with this object is linked into it and cached, and nlimbo is what it was |
| ProfCalls.SampledNew | deps/jemalloc/src/prof.c:516-570 | with a new backtrace: a context is made, entered in bt2ctx, with this counter and in no limbo |
| ProfCalls.FreedHit | deps/jemalloc/include/jemalloc/internal/prof.h:568-605 | a whole call of prof_free with the counter in the cache: it shrinks by the object |
| ProfCalls.FreedFound | deps/jemalloc/include/jemalloc/internal/prof.h:568-605 | with none: a new counter is linked, which then stands below zero |
| ProfCalls.FreedMerged | deps/jemalloc/include/jemalloc/internal/prof.h:568-605 | without one to be had: the merged counts of the context shrink by the object |
| ProfCalls.SampledFreed | deps/jemalloc/include/jemalloc/internal/prof.h:457-606 | sampling an object and freeing it again leaves everything as it was |
| ProfCalls.FailsOnly | deps/jemalloc/src/prof.c:516-641 | an allocation goes unsampled only for want of thread data, of memory for a context that is not there or for a counter, or after a failed insertion |
| ProfCalls.FailedEarly | deps/jemalloc/src/prof.c:516-570 | without memory for the context or its place in bt2ctx, with the new item lost, nothing changes |
| ProfCalls.FailedNew | deps/jemalloc/src/prof.c:613-634 | a context made for a call that then finds no memory is taken away again, and everything is as it was |
| ProfCalls.FailedOld | deps/jemalloc/src/prof.c:613-634 | on a context that was there the limbo count stays raised by one, and nothing else changes |
| ProfCalls.UnusedMeans | deps/jemalloc/src/prof.c:478-514 | the test in prof_ctx_merge holds exactly if nothing but the counter merged refers to the context |
| ProfCalls.Exited | deps/jemalloc/src/prof.c:1238-1281 | at thread exit a counter is merged into its context, which goes exactly if nothing else refers to it |
| ProfCalls.Flushed | deps/jemalloc/src/prof.c:589-611 | a full cache gives up a counter in the same way before the new one is linked |
| ProfCalls.Dumped | deps/jemalloc/src/prof.c:776-873 | preparing and cleaning up the dump of a context leave everything as it was |
| ProfCalls.CallEnds | deps/jemalloc/src/prof.c:516-641 | each step of a thread in a call that does anything to its place brings the call closer to its end |
| ProfCtx.GlobalFailInv | deps/jemalloc/src/prof.c:545-551 | a failed insertion into bt2ctx keeps the invariant if the item lost is the new one |
| ProfCtx.InsertFailInv | deps/jemalloc/src/prof.c:629-635 | so does one into the cache of the thread, whether the context is new or not |
| ProfCtx.LossBreaks | deps/jemalloc/src/prof.c:545-551 | a failed insertion that loses an older item breaks the invariant at once |
| ProfLoss.LostCtx | deps/jemalloc/src/prof.c:545-551 | from the start one thread that sees k backtraces, 4 to 1023, and then fails to insert a further context and loses any older one, comes to follow a pointer to the freed context when the backtrace comes again |
| ProfLoss.LostCnt | deps/jemalloc/src/prof.c:629-635 | the same for a counter and the cache of the thread |
| ProfLoss.SeenKnown | deps/jemalloc/src/prof.c:572-641 | the run in which a thread sees k backtraces leads to k contexts, each with its counter in the cache |
| ProfBehind.StaysBehind | deps/jemalloc/include/jemalloc/internal/prof.h:570-606 | of the steps without a lost item, exactly two kinds leave a context behind to which something referred: prof_free without a counter takes its last object, or a dump is the last to let go of it, each with no limbo count left behind before |
| ProfCtx.NeverFreedInUse | deps/jemalloc/src/prof.c:436-475 | in every run without such a loss a context is never freed while a linked counter, a live sampled object, a thread in limbo or a dump refers to it, it is the one found for its backtrace, and no step follows a pointer to a freed one |
| ProfCtx.Accounts | deps/jemalloc/src/prof.c:478-513 | in every such run live sampled objects equal the merged counters and the linked ones together, and nlimbo counts its holders |
| ProfCtx.UnusedNoBytes | deps/jemalloc/src/prof.c:454-458 | a context with no counters and no merged objects has no merged bytes, as the assertions demand |
| ProfCtx.MergeInv | deps/jemalloc/src/prof.c:478-514 | merging a counter into its context keeps the invariant |
| ProfCtx.DestroyInv | deps/jemalloc/src/prof.c:436-476 | destroying keeps the invariant, whether the context is still unused or was found again in between |
| ProfCtx.GlobalInv | deps/jemalloc/src/prof.c:516-569 | looking up or creating a context keeps the invariant, also if there is no memory for the context or its backtrace |
| ProfCtx.LinkInv | deps/jemalloc/src/prof.c:625-639 | linking a counter keeps the invariant |
| ProfCtx.MallocInv | deps/jemalloc/include/jemalloc/internal/prof.h:448-491 | sampling an allocation keeps the invariant |
| ProfCtx.FreeInv | deps/jemalloc/include/jemalloc/internal/prof.h:568-605 | freeing a sampled object keeps the invariant, with a counter or, if there is none, through the merged counts |
| ProfCtx.DumpInv | deps/jemalloc/src/prof.c:776-873 | preparing and cleaning up a dump keep the invariant |
| ProfCtx.FailedLookupLeaks | deps/jemalloc/src/prof.c:613-634 | no memory for the counter after an existing context was found leaves its limbo count raised with no holder |
| ProfCtx.LeakedForever | deps/jemalloc/src/prof.c:613-634 | such a count is never taken back by a step from a state in order, so the context is never freed |
| ProfLeak.LeaksExactly | deps/jemalloc/src/prof.c:605-634 | in every step of every thread the counts left behind on a context grow by one if memory runs out after an existing context was found, for the counter or, with a failed insertion of whatever outcome, for the cache entry, and stay what they were otherwise; a new context has none |
| ProfLeak.RunLeaks | deps/jemalloc/src/prof.c:605-634 | over a run they are as many as there were such steps since the context was made |
| ProfLeak.LimboTrue | deps/jemalloc/src/prof.c:605-634 | in every run without a lost item the limbo count of a context is that of its holders and the dump if and only if there was no such step since the context was made |
| ProfLeak.NeverFreedAgain | deps/jemalloc/src/prof.c:605-634 | after such a step the context is never freed, whatever follows but the loss of an item |
| ProfLeak.LeakyRun | deps/jemalloc/src/prof.c:605-634 | thirteen steps of two threads after which no thread, counter or object refers to a context, and it is still there with a limbo count of 1 |
| Seqlock.SnapshotsConsistent | deps/jemalloc/src/prof.c:795-810 | every snapshot that the dump accepts equals the counters at one moment with no update in progress, in any interleaving, as long as the epoch does not go once round: the moment when reading this very snapshot began |
| Seqlock.SnapshotBegan | deps/jemalloc/src/prof.c:795-810 | a snapshot comes of a check, and of the reading of the epoch after which the reader went on reading up to that check |
| Seqlock.StepSound | deps/jemalloc/include/jemalloc/internal/prof.h:469-491 | each field access of writer and reader keeps what the reader relies on |
| Seqlock.RunSound | deps/jemalloc/include/jemalloc/internal/prof.h:580-593 | so does every run |
| Seqlock.NoneLost | deps/jemalloc/include/jemalloc/internal/prof.h:457-567 | in whatever order updates write their fields, after any run the counters are those at the start and every change begun, each once |
| Seqlock.ReadAll | deps/jemalloc/src/prof.c:795-810 | a dump that reads without interruption accepts what is there whenever the epoch is even |
| Seqlock.ReadAgain | deps/jemalloc/src/prof.c:795-810 | a dump that finds another epoch takes nothing of what it has read, and reads all again |
| Seqlock.Torn | deps/jemalloc/include/jemalloc/internal/prof.h:494-566 | if old and new counter coincide the epoch is raised twice before the change, and from any sound state a torn snapshot is accepted |
| Cuckoo.Ckh.Search | deps/jemalloc/src/ckh.c:509-526 | the table is a finite map: a key is missing exactly if the map has no value for it, and else its value is returned |
| Cuckoo.Ckh.Insert | deps/jemalloc/src/ckh.c:454-476 | a successful insertion adds the item to the map; a failed one leaves all but the one item it has in hand, and the map as it was if and only if that is the new item; it fails only if both buckets of the key were full, and for every larger table there is memory for some attempt fails; a full table takes nothing without memory; if no growth succeeded the new item is stored and an older one is lost; it runs on only if an attempt does; the table grows only if the first attempt fails, and not beyond the first size in which none does |
| Cuckoo.Ckh.FifthItem | deps/jemalloc/src/ckh.c:454-476 | a table at which an older item goes: one full bucket and no memory |
| Cuckoo.Ckh.InsertOne | deps/jemalloc/src/ckh.c:454-476 | a table of one bucket with an empty cell takes an item, whatever the memory |
| Cuckoo.Ckh.Remove | deps/jemalloc/src/ckh.c:478-507 | removal takes exactly the key out of the map, and shrinking changes nothing of it; it tries to shrink exactly if less than a quarter of the cells are in use; while a rebuild runs on the key is gone and no other item has come, and it runs on only if an attempt to insert one of the other items in half the table makes all its turns |
| Cuckoo.Ckh.EvictRelocInsert | deps/jemalloc/src/ckh.c:123-191 | evictions keep the items of the table and the one in hand together, and every item in one of its two buckets; the outcome is that of the chain of turns from the cell the random number picks; the loop fails only when it would return to its first bucket, so the new item stays there |
| Cuckoo.Ckh.TryInsert | deps/jemalloc/src/ckh.c:193-216 | an attempt inserts the item, or both its buckets were full and the table and the item in hand together keep everything; which of these, or neither within so many turns, is told by the table, the key and the random state; if the key was new, the item in hand is then an older one |
| Cuckoo.Ckh.TryBucketInsert | deps/jemalloc/src/ckh.c:91-115 | a full bucket, and no other, is reported and not touched; otherwise the item takes an empty cell and no other cell changes |
| Cuckoo.Ckh.Rebuild | deps/jemalloc/src/ckh.c:222-243 | the scan stops within the old table because count equals the items in it; success moves all items; it fails or runs on only if an attempt does |
| Cuckoo.Ckh.Grow | deps/jemalloc/src/ckh.c:245-298 | the items stay; failure restores the old table; it fails only when memory is used up or every larger size was tried, and in each some attempt failed |
| Cuckoo.Ckh.Resize | deps/jemalloc/src/ckh.c:245-345 | the items stay; failure restores the old table, cell by cell |
| Cuckoo.Ckh.Shrink | deps/jemalloc/src/ckh.c:300-345 | the items stay; the table is halved, or as it was, which is so only without memory or if an attempt in half of it fails |
| CuckooTurns.EndsCrowded | deps/jemalloc/src/ckh.c:193-216 | an attempt fails, or makes all its turns, only if there are items to fill a bucket beside the one in hand |
| CuckooTurns.OneEnds | deps/jemalloc/src/ckh.c:193-216 | what an attempt on a table comes to is the outcome of some attempt with its items |
| Cuckoo.Ckh.ISearch | deps/jemalloc/src/ckh.c:70-89 | a key that is in neither of its buckets is nowhere in the table |
| CuckooCells.DictAdd | deps/jemalloc/src/ckh.c:454-476 | adding an item whose key is new extends the map by it |
| CuckooCells.DictRemove | deps/jemalloc/src/ckh.c:478-507 | taking an item away takes its key out of the map |
| CuckooCells.OlderGone | deps/jemalloc/src/ckh.c:174-179 | if a new item has come in and one is missing, the missing one is an older one |
| CuckooCells.Lost | deps/jemalloc/src/ckh.c:454-476 | when the item in hand is missing the table stores the map with the new item added and that one taken away |
| CuckooCells.FullBucketCount | deps/jemalloc/src/ckh.c:123-191 | a full bucket means that at least four items are stored |
| CuckooCells.DictSize | deps/jemalloc/src/ckh.c:425-432 | the map has as many keys as the table has items |
| CuckooCells.FullCount | deps/jemalloc/src/ckh.c:123-191 | a table stores as many items as it has cells exactly if no cell is empty |
| Extents.ExtentTrees.Record | deps/jemalloc/src/chunk.c:212-298 | exactly the given range is added: it joins the extents that touch it into one, and the others are as they were; extents stay disjoint, apart, aligned and in both orders, and a joined extent is zeroed exactly if all its parts are |
| Extents.ExtentTrees.Recycle | deps/jemalloc/src/chunk.c:44-136 | an aligned range that fits is cut out of the lowest best fit, from the first aligned address of it on, and none only if no extent is large enough, the size overflows or the request is for the base allocator; the space behind the range is lost if and only if there is space on both sides of it and no memory for a node, and then all of it |
| Extents.ExtentTrees.LosesTrail | deps/jemalloc/src/chunk.c:44-136 | an extent, a request and no memory by which eight bytes are lost |
| ExtentSeqs.RecordJoins | deps/jemalloc/src/chunk.c:212-298 | joining with the neighbour on either side is joining with all extents that touch the range |
| ExtentSeqs.CutLeaves | deps/jemalloc/src/chunk.c:87-118 | after a cut there are the other extents, the part before and, with a node for it, the part behind, zeroed as the extent was |
| Extents.ExtentTrees.SzadNsearch | deps/jemalloc/src/chunk.c:68-75 | the smallest extent that is large enough, the lowest of those |
| Extents.ExtentTrees.AdNsearch | deps/jemalloc/src/chunk.c:233-234 | the place in address order |
| Extents.ExtentTrees.Change | deps/jemalloc/src/chunk.c:236-246 | changing the address and size of a node in place keeps the address order |
| Extents.ExtentTrees.RecordForward | deps/jemalloc/src/chunk.c:233-265 | the range joins the extent after it exactly if they touch |
| Extents.ExtentTrees.RecordBackward | deps/jemalloc/src/chunk.c:267-286 | the range joins the extent before it exactly if they touch |
| Extents.ExtentTrees.PutBack | deps/jemalloc/src/chunk.c:87-118 | what is left before and after the part taken is put back |
| ExtentSeqs.RecordedBytes | deps/jemalloc/src/chunk.c:212-298 | joining neighbours neither loses nor adds a byte |
| ExtentSeqs.RecordedZero | deps/jemalloc/src/chunk.c:212-298 | a joined extent counts as zeroed only if all its parts are |
| ExtentSeqs.CutBytes | deps/jemalloc/src/chunk.c:76-118 | lead, taken part and trail are the bytes of the extent |
| ExtentSeqs.WrapCheck | deps/jemalloc/src/chunk.c:64-67 | the overflow test of the size to search for is exact |
| Bitmap.InfoInit | deps/jemalloc/src/bitmap.c:19-45 | the levels have the groups they need, down to one group at the root, for any number of bits |
| Bitmap.Bitmap.constructor | deps/jemalloc/src/bitmap.c:63-90 | a new bitmap has no bit set, whatever the number of levels |
| Bitmap.Bitmap.Set | deps/jemalloc/include/jemalloc/internal/bitmap.h:88-119 | exactly one logical bit is set, and every upper bit says whether its group has an unset bit |
| Bitmap.Bitmap.Unset | deps/jemalloc/include/jemalloc/internal/bitmap.h:144-179 | exactly one logical bit is unset |
| Bitmap.Bitmap.Sfu | deps/jemalloc/include/jemalloc/internal/bitmap.h:122-142 | the lowest unset bit is returned and set |
| Bitmap.Bitmap.IsFull | deps/jemalloc/include/jemalloc/internal/bitmap.h:67-74 | the root is empty exactly if all bits are set |
| Bitmap.Bitmap.Get | deps/jemalloc/include/jemalloc/internal/bitmap.h:76-86 | tells whether the bit is set |
| BitmapLevels.FullMeans | deps/jemalloc/include/jemalloc/internal/bitmap.h:67-74 | an empty root group means that every group below is empty, and the other way round |
| BitmapLevels.FirstBelow | deps/jemalloc/include/jemalloc/internal/bitmap.h:122-142 | the first bit of a level leads to the first bit of the level below |
| RegionIndex.RegIndExact | deps/jemalloc/include/jemalloc/internal/arena.h:796-866 | shifts and a multiplication by a rounded inverse give the exact index of a region, without overflow of a word, for every interval and every region of a run |
| RegionIndex.InverseExact | deps/jemalloc/include/jemalloc/internal/arena.h:819-856 | multiplying by the rounded inverse of 3 to 31 and shifting divides exactly for all offsets in a run |
| Bins.Bin.RegAlloc | deps/jemalloc/src/arena.c:280-299 | the lowest free region of a run is handed out, and only it counts as touched besides those before; the regions below nextind, and no others, have been touched |
| Bins.Bin.RegDalloc | deps/jemalloc/src/arena.c:301-325 | exactly the region of the pointer becomes free, and its index is computed exactly |
| Bins.Bin.NonFullRunGet | deps/jemalloc/src/arena.c:1354-1406 | the lowest run of the tree; if there is none, a new one, or without memory the lowest that other threads have left meanwhile |
| Bins.Bin.MallocHard | deps/jemalloc/src/arena.c:1409-1456 | without a free region in the current run, one of the lowest run of the tree; if there is none, one of the current run that another thread has set meanwhile, else of the new run, else of the lowest run left by others; the current run is the lowest with free regions afterwards if and only if it is not a new run above one that others left |
| Bins.Bin.Malloc | deps/jemalloc/src/arena.c:1600-1652 | a region that nobody has, also after other threads changed the bin in the middle, and only it is touched besides those before; every non-full run stays in exactly one place |
| Bins.Bin.UseOther | deps/jemalloc/src/arena.c:1421-1446 | if another thread has set the current run meanwhile a region of that is used, and the run found goes back to the arena if it is new and to its place in the bin if not |
| Bins.Bin.NotPacked | deps/jemalloc/src/arena.c:1408-1456 | operations of two threads after which the current run is not the lowest with a free region |
| Bins.Bin.LowerRun | deps/jemalloc/src/arena.c:1847-1866 | a run that is no longer full is in exactly one place again, like every non-full run, and a current run that was the lowest is so again |
| Bins.Bin.Dissociate | deps/jemalloc/src/arena.c:1773-1794 | without the empty run the bin is in order: every other non-full run in exactly one place, and a current run that was the lowest still is |
| Bins.Bin.Dalloc | deps/jemalloc/src/arena.c:1868-1901 | exactly the region is given back; the run goes exactly if it was the last, and with it the nextind below which all regions touched lie; a current run that was the lowest non-full one still is |
| Rtree.RadixTree.Get | deps/jemalloc/include/jemalloc/internal/rtree.h:58-97 | the value last set for a key that agrees on the top bits, and 0 if none was |
| Rtree.RadixTree.Set | deps/jemalloc/include/jemalloc/internal/rtree.h:130-168 | adds the key and value to what was set, or changes no value; it fails if and only if there is memory for fewer nodes than are missing for the key |
| RtreeBits.NewLevels | deps/jemalloc/src/rtree.c:4-59 | the bits per level are positive, bounded and sum to the bits of the keys |
| RtreeBits.SubkeyIs | deps/jemalloc/include/jemalloc/internal/rtree.h:69-74 | the two shifts pick the bits of a level, and with the bits above them give the longer prefix |
| RtreeBits.JoinedTop | deps/jemalloc/include/jemalloc/internal/rtree.h:69-87 | the subkeys of all levels together are the top bits of the key, none left out and none looked at twice |
| RtreeBits.WholeKey | deps/jemalloc/include/jemalloc/internal/rtree.h:69-87 | with the bits below they are the whole key |
| Rtree.Missing | deps/jemalloc/include/jemalloc/internal/rtree.h:72-79 | below an empty slot no value was ever set |
| Rtree.Grown | deps/jemalloc/include/jemalloc/internal/rtree.h:144-155 | a new node of zeros in an empty slot changes no value |
| Sha1Rounds.SwapReverses | src/lib/hash/sha1.c:27-33 | the two rotations and masks of blk0 reverse the bytes of a word |
| Sha1Rounds.FastLogical | src/lib/hash/sha1.c:40-45 | the shortened forms in the macros are Ch and Maj of section 4.1.1 of FIPS 180-4 |
| Sha1.Circular | src/lib/hash/sha1.c:37-38 | the circular schedule of 16 words computes the schedule of 80 words (sections 6.1.2 and 6.1.3 of FIPS 180-4) |
| Sha1.Blk | src/lib/hash/sha1.c:30-38 | a macro takes word i of the schedule and keeps it in its cell |
| Sha1.R | src/lib/hash/sha1.c:40-45 | a macro is one round of section 6.1.2 of FIPS 180-4, with the variables taking turns |
| Sha1.Transform | src/lib/hash/sha1.c:50-106 | the block function of FIPS 180-4 |
| Sha1Known.AbcDigest | src/lib/hash/sha1.c:6-8 | the digest of abc is the one that the header of the source and FIPS 180 list, which pins constants, rotations and schedule |
| Sha1.AddCount | src/lib/hash/sha1.c:129-132 | the count in two words is exact modulo 2^64 bits |
| Sha1.FullTest | src/lib/hash/sha1.c:133-134 | the 32-bit test for a full block is right if and only if buffered bytes and data are less than 2^32 |
| Sha1.Context.constructor | src/lib/hash/sha1.c:111-120 | the initial hash value, no input |
| Sha1.Context.Update | src/lib/hash/sha1.c:125-144 | the data is appended to the message: the state covers its whole blocks, the buffer holds the rest, the count is exact; the data overruns the buffer if and only if it and what is buffered are 2^32 bytes or more |
| Sha1.Context.Final | src/lib/hash/sha1.c:149-191 | the digest is the block function folded over the padded message |
| Sha1.HashPieces | src/lib/hash/sha1.c:125-144 | the digest does not depend on how the message is cut into pieces, unless a piece overruns the buffer, and exactly which do |
| Sha1.Digest | src/lib/hash.h:51-58 | the one-call form hashes all the data exactly when it has less than 2^32 bytes |
| Sha1.DigestWords | src/lib/hash/sha1.c:184-187 | the digest is the five variables in order, most significant bytes first |
| Sha1.DigestInjective | src/lib/hash/sha1.c:184-187 | so different chaining values have different digests |
| Sha1.FinalCountIsLength | src/lib/hash/sha1.c:172-175 | the eight bytes are the length in bits, most significant first |
| HashBlocks.LengthValue | src/lib/hash/sha1.c:172-175 | read as a number those bytes are the length in bits |
| Md5Rounds.FastForms | src/lib/hash/md5.c:49-53 | the shorter forms of F and G and both forms of H are the functions of section 3.4 of RFC 1321 |
| Md5Rounds.DoStep | src/lib/hash/md5.c:58-61 | STEP on its first register is one operation of section 3.4, with the registers taking turns instead of shifting |
| Md5Rounds.Round1 | src/lib/hash/md5.c:110-126 | sixteen operations of round 1, with the words, constants and shifts of the RFC |
| Md5Rounds.Round2 | src/lib/hash/md5.c:128-144 | of round 2 |
| Md5Rounds.Round3 | src/lib/hash/md5.c:146-162 | of round 3, with the two macros for H by turns |
| Md5Rounds.Round4 | src/lib/hash/md5.c:164-180 | of round 4 |
| Md5Rounds.Transform | src/lib/hash/md5.c:104-187 | one turn of the loop is the block function of RFC 1321 |
| Md5Known.AbcDigest | src/lib/hash/md5.c:104-187 | the digest of abc is the one that section A.5 of RFC 1321 lists, which pins sines, shifts and functions |
| Md5.Context.Update | src/lib/hash/md5.c:209-241 | the data is appended to the message: the state covers its whole blocks, the buffer holds the rest, the count is exact |
| Md5.Context.Body | src/lib/hash/md5.c:91-196 | one or more whole blocks go through the block function of RFC 1321 |
| Md5.Context.Final | src/lib/hash/md5.c:243-292 | the digest is the block function folded over the padded message, whether the padding takes one block or two |
| Md5.AddCount | src/lib/hash/md5.c:214-217 | the count of bytes in 29 bits and an upper word is exact modulo 2^61 |
| Md5.HashPieces | src/lib/hash/md5.c:209-241 | the digest does not depend on how the message is cut into pieces |
| Md5.DigestWords | src/lib/hash/md5.c:274-289 | the digest is the four variables in order, least significant bytes first |
| HashBlocks.FoldConcat | src/lib/hash/sha1.c:137-139 | folding goes on where a message of whole blocks ended |
| Tcache.FlushedOnce | deps/jemalloc/src/tcache.c:92-141 | a flush gives back every object exactly once |
| Tcache.FlushedHome | deps/jemalloc/src/tcache.c:114-139 | every object goes to the arena that owns it |
| Tcache.LockedOnce | deps/jemalloc/src/tcache.c:92-112 | no arena is locked twice, so the statistics are merged at most once in the loop |
| Tcache.LockedOwners | deps/jemalloc/src/tcache.c:92-105 | exactly the arenas that own an object are locked |
| Tcache.TcacheBin.Pass | deps/jemalloc/src/tcache.c:113-139 | one pass gives back the objects of one arena and moves the others down in order |
| Tcache.TcacheBin.Passes | deps/jemalloc/src/tcache.c:92-141 | the passes end, as each gives back at least the first object |
| Tcache.TcacheBin.Flush | deps/jemalloc/src/tcache.c:81-160 | the oldest objects go back, the newest stay in order, the requests are merged exactly once |
| Tcache.TcacheBin.AllocEasy | deps/jemalloc/include/jemalloc/internal/tcache.h:274-288 | the newest object; low_water follows |
| Tcache.TcacheBin.AllocSmall | deps/jemalloc/include/jemalloc/internal/tcache.h:290-333 | the newest object, or the first of a fill; after a fill that got only a part, the uppermost slot that the count reaches; nothing only if the arena gave nothing; low_water is exact, also where it says that the cache ran empty |
| Tcache.TcacheBin.AllocSmallHard | deps/jemalloc/src/tcache.c:67-79 | fills and takes the uppermost object of what the stack then is, stale or not |
| Tcache.TcacheBin.Fill | deps/jemalloc/src/arena.c:1458-1497 | the objects got are in the last of the slots that were to be filled, the first got uppermost |
| Tcache.FillExact | deps/jemalloc/src/arena.c:1473-1496 | after a fill the stack holds what was got if and only if the slots below, as many as are left stale, happen to hold the objects that are left out for them |
| Tcache.FillShape | deps/jemalloc/src/arena.c:1473-1496 | the stack after any fill: stale slots from before, and above them all but as many of the first objects got |
| Tcache.FillPartial | deps/jemalloc/src/arena.c:1473-1496 | if no stale slot names an object just got, that is so if and only if the arena gave all that was asked for, or nothing |
| Tcache.FillStale | deps/jemalloc/src/arena.c:1473-1496 | a fill of one object of two by which a pointer taken before is cached again |
| Tcache.TcacheBin.Dalloc | deps/jemalloc/include/jemalloc/internal/tcache.h:388-410 | the object goes on top; a full cache first gives back its older half; low_water falls with the count and stays otherwise |
| Tcache.TcacheBin.Collect | deps/jemalloc/src/tcache.c:27-65 | three quarters of the objects below the low water mark go back, rounded up, and the fill count stays at least one |
| Tcache.ShrSmaller | deps/jemalloc/src/tcache.c:49-57 | the test before the fill count is halved is exact |
| Quarantine.ThreadQuarantine.Quarantine | deps/jemalloc/src/quarantine.c:99-159 | objects are deallocated in the order they came, each once, and no more of them than must: while one of those that go was still there, what was left did not fit beside the new object, but for the first of a full ring that cannot grow; the queue never exceeds its size, and an object larger than it is deallocated at once, when the queue is empty; the ring grows only when it is full and nothing has gone, to twice its length |
| Quarantine.ThreadQuarantine.AllocHook | deps/jemalloc/include/jemalloc/internal/quarantine.h:52-62 | the first allocation of a thread sets up its queue if there is memory, and a queue that is there stays as it is |
| Quarantine.ThreadQuarantine.Grow | deps/jemalloc/src/quarantine.c:45-77 | a larger ring holds the same queue, copied in one piece or two; without memory one slot is freed |
| Quarantine.ThreadQuarantine.DrainOne | deps/jemalloc/src/quarantine.c:79-89 | the first object leaves the queue |
| Quarantine.ThreadQuarantine.Drain | deps/jemalloc/src/quarantine.c:91-97 | objects leave until the bound is met |
| Quarantine.ExcessLeast | deps/jemalloc/src/quarantine.c:91-97 | no more objects leave than must |
| Quarantine.DroppedFits | deps/jemalloc/src/quarantine.c:125-136 | what stays fits together with the new object, or nothing stays |
| Quarantine.DroppedLeast | deps/jemalloc/src/quarantine.c:125-136 | and no more go than must for that |
| Quarantine.GoneLeast | deps/jemalloc/src/quarantine.c:99-159 | the same with the object that goes for want of memory for a larger ring |
| Quarantine.ThreadQuarantine.Cleanup | deps/jemalloc/src/quarantine.c:161-187 | at thread exit everything is deallocated in order |
| Quarantine.RingCopy | deps/jemalloc/src/quarantine.c:58-73 | both ways of copying a ring give the same queue |
| Buffers.Buffer.MergePrefix | src/lib/buffer.cc:28-79 | the bytes stay the same and the first chunk has the length asked for, or everything if that is less |
| Buffers.Buffer.DoublePrefix | src/lib/buffer.cc:81-90 | the bytes stay the same and the first of several chunks takes in the next, and more if that does not double it |
| Buffers.Buffer.RemovePrefix | src/lib/buffer.cc:92-115 | exactly so many bytes are dropped from the front, or all, and the size stays exact |
| Buffers.Buffer.Merge | src/lib/buffer.cc:21-26 | all bytes of another buffer are appended |
| Buffers.Buffer.Push | src/lib/buffer.cc:117-123 | the bytes are appended |
| Buffers.Buffer.Pop | src/lib/buffer.cc:125-138 | the first chunk is taken from the front |
| IOStream.Stream.Deliver | src/core/iostream.cc:626-634 | bytes move from the front of the read buffer to a scheduled callback |
| IOStream.Stream.ReadToBuffer | src/core/iostream.cc:422-448 | received bytes are appended to the read buffer, or, if the stream ends, with all before them put off to a read until close; reaching the maximum closes the stream, and nothing is lost |
| IOStream.Stream.Receive | src/core/iostream.cc:336-351 | receiving goes on exactly while it brings bytes and the buffer stays below its maximum; what was received is what these turns brought, in order |
| IOStream.Stream.FindDelimiter | src/core/iostream.cc:491-512 | what is found is the first place of the delimiter in the buffer; the loop stops without it only if the buffer holds a single byte |
| IOStream.Stream.ReadFromBuffer | src/core/iostream.cc:450-553 | a count is completed exactly when so many bytes are buffered; a delimiter by the shortest beginning that ends with it; with more than one byte and no delimiter the loop goes on for ever; a streaming read is never completed |
| IOStream.Stream.TryInlineRead | src/core/iostream.cc:365-393 | what is received is what the turns of receiving brought, which end exactly as Stops says; if what is buffered is enough nothing is received, and if the stream is closed neither; a count or delimiter is completed by the shortest beginning of what was buffered and then received that has it, exactly if there is one; otherwise the read stays registered and nothing is taken; a streaming callback gets its share in order and the read never ends; the stream closes exactly by the end of the stream or an error |
| IOStream.Stream.ReadBytes | src/core/iostream.cc:100-109 | completion delivers exactly that many bytes, the first of what was buffered and then received, as soon as they are there; a read that waits stays registered with its count; with streaming or a count of 0 there is no completion |
| IOStream.Stream.ReadUntil | src/core/iostream.cc:89-98 | completion delivers bytes that end with the delimiter and have it nowhere before, exactly if the delimiter is in what was buffered and then received; a read that waits stays registered |
| IOStream.Stream.ReadUntilClose | src/core/iostream.cc:111-130 | on a closed stream this callback gets all that is buffered, at once; on an open one all that was received has been delivered or is still to come, and the read stays registered |
| IOStream.Stream.HandleRead | src/core/iostream.cc:326-357 | what is received is what the turns of receiving brought; callbacks scheduled before stay; the read in progress is completed as soon as there is enough for it, and the end of the stream completes a read until close with everything |
| IOStream.Stream.ReceiveAndServe | src/core/iostream.cc:328-357 | the same for the part that handle_read and try_inline_read share |
| IOStream.Stream.Close | src/core/iostream.cc:157-188 | a read until close is completed with all that is buffered |
| IOStream.Stream.HandleWrite | src/core/iostream.cc:584-624 | written bytes are those sent and then those buffered; the buffer is offered from its front until it is empty, an offer is not taken at all, or there is an error; a chunk offered in vain is the next one offered, unchanged; the stream closes exactly after an error, and the callback is scheduled exactly when the buffer is empty |
| IOStream.Stream.Offer | src/core/iostream.cc:592-618 | one turn: what the socket takes leaves the buffer |
| IOStream.Stream.Write | src/core/iostream.cc:132-150 | the data is appended to what was written, unless the stream is closed; what is then pending is offered as in HandleWrite |
| IOStream.InTurnMore | src/core/iostream.cc:592-618 | one more offer is what comes next of the pending bytes, or the chunk offered in vain before |
| IOStream.FindInPrefix | src/core/iostream.cc:493-496 | what is found in the first chunk is the first in the buffer |
| Base64Encoding.Encode | src/lib/binascii/base64.c:60-93 | the accumulator yields the encoding by groups that section 4 of RFC 4648 defines, in exactly the room computed for it, and nothing is written if there is less |
| Base64Encoding.Alphabet | src/lib/binascii/base64.c:21-22 | the alphabet is that of table 1 of RFC 4648 |
| Base64Encoding.GroupIs | src/lib/binascii/base64.c:72-82 | four characters are the number that their three bytes make, to base 64 |
| Base64Encoding.KnownAnswers | src/test/base64_test.cc:51-60 | the encodings that the test of the repository lists |
| Base64Encoding.EncodeLenExact | src/lib/binascii/base64.c:55-58 | the length computed is that of the encoding |
| Base64Encoding.Ready | src/lib/binascii/base64.c:72-82 | the characters that a byte makes ready are those that it completes, although the accumulator loses its higher bits |
| Base64Decoding.Decode | src/lib/binascii/base64.c:111-164 | the decoder yields what Decoded specifies, writes nothing behind the room given, and reports an error exactly where that does |
| Base64Decoding.RoundTrip | src/lib/binascii/base64.c:111-164 | decoding an encoding gives the bytes back, exactly if there is room for them |
| Base64Decoding.GarbageIgnored | src/lib/binascii/base64.c:119-142 | for a given room, decoding is the same with all characters outside the alphabet removed |
| Base64Decoding.NoisyRoundTrip | src/lib/binascii/base64.c:111-164 | an encoding with other characters put in anywhere decodes to the same bytes |
| Base64Decoding.DecodeLen | src/lib/binascii/base64.c:95-109 | the length for the characters before the first padding or invalid one; it reads behind its table if and only if that one is beyond 127 |
| Base64Decoding.DecodeLenExact | src/lib/binascii/base64.c:95-109 | for an encoding the length is exactly that of the bytes encoded |
| Base64Decoding.FindValidFrom | src/lib/binascii/base64.c:40-53 | the first valid character, if there is one |
| Base64Decoding.StrRoundTrip | src/lib/binascii.cc:77-93 | the form on strings gives back what was encoded |
| Base64Decoding.StrFills | src/lib/binascii.cc:77-93 | every text that is decoded in the room computed for it fills that room exactly |
| Base64Decoding.DecodeStr | src/lib/binascii.cc:77-93 | the form on strings yields what Decoded specifies for that room, in a buffer of that length, or fails where that does |
| Base64Decoding.StrNoisy | src/lib/binascii.cc:77-93 | with other characters in the text it succeeds if and only if enough of the text comes before the first of them |
| Base64Decoding.StrLineBreak | src/lib/binascii.cc:77-93 | a line break in front makes it fail |

## Left out

- Cuckoo.Ckh.EvictRelocInsert: that the loop of evictions ends rests on the random numbers of the code and is not proved; if it makes all the turns there is fuel for, it and every operation that contains it has the outcome Running; that this is so only if an attempt goes on so long is proved, and that what is then in the table was there before, or in hand.
- Extents.ExtentTrees.Insert: the two trees are modelled as the node ids in order, not as linked nodes; likewise the index of an arena (Arena) and the runs of a bin (Bins) are sets with the least element chosen. That the linked trees behave so is what `RbTree` proves of them, for one instance of the macros.
- Arena.Arena.ChunkAlloc: the lock that is dropped while the chunk is mapped; what other threads do to the arena meanwhile is not modelled, so neither is a run that they free for the search after it.
- Arena.Arena.Purge: one thread at a time; another thread's share of npurgatory is an arbitrary value on entry.
- Arena.Arena.ChunkPurge: without the branch for the spare, which is never taken.
- ProfCtx.StepInv: states are values and steps are lock-protected sections; which item a failed insertion loses is any choice that `Cuckoo.Ckh.Insert` allows, without the hash values; the LRU list of a thread's counters is any choice of a victim among those it caches, which is what the list holds as long as no insertion has lost an item; a freed backtrace is not distinguished from a live one as a key; accumulated counts are off, and `prof_realloc` is a free and an allocation.
- Seqlock.SnapshotsConsistent: sequential consistency between the barriers and an epoch that does not go once round during a snapshot.
- Rtree.RadixTree.Set: nodes are values in maps; `rtree_delete` is not modelled.
- Bitmap.Bitmap.Set: a group is the set of its 1 bits rather than a machine word.
- Md5.Context.Final: without the wiping of the context; words are read from the data as a little-endian machine reads them.
- Sha1.Context.Final: without the wiping of the context.
- Tcache.TcacheBin.Collect: one bin; the round robin over bins and the event counter are left out, and so are junk filling and profiling.
- Quarantine.ThreadQuarantine.Quarantine: sizes are unbounded; junk filling is left out.
- IOStream.Stream.ReadFromBuffer: an established connection; positions are unbounded where the code has int, regular expressions, the registration with the event loop and the close callback are left out.
- Red-black trees: `psearch`, `last` and the iterators, which add nothing new; the sentinel node is null.
- The event loop, sockets, HTTP, cookies, URLs, regular expressions, gzip, logging and dates of ctornado.
- The rest of jemalloc: mmap, dss, statistics, options, `bin_info_run_size_calc`, huge allocations, red zones.

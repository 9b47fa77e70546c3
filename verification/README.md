# Verified model of the memory pools, queues, thread pools and framing

This project models, in Dafny, the parts of the repository that keep state and depend on an invariant
across several functions, and proves what they are for. Nothing here runs the C++ code; the model follows it
branch by branch, and where the code and its comments disagree the model follows the code.

- **TLSF allocator** (`util/TLSF.hpp`, `util/TLSFUtility.h`, `util/fls.h`). `Words` and `BitScan`: machine
  words and the bit scans. `SizeClass`: the arithmetic of size classes. `TlsfHeap`: the heap as values and the
  full invariant (physical tiling, boundary tags, free lists, bitmaps, coalescing). `Tlsf`: the class itself.
  `TlsfTheorems`: what the invariant means for clients, which block `alloc` answers with, and exactly when it fails. Headers live in a map
  keyed by address; the links of a free block live in the words that belong to the client once the block is
  handed out, and a client may write anything there.
- **Bounded lock-free queue** (`util/LockFreeQueue.h`). `QueueMachine`: any number of threads, one atomic
  access per step, any interleaving. `QueueRuns`: what the answers of its calls mean over whole runs, the order of
  the calls, and their progress. `LockFreeQueue`: the same queue as one thread alone sees it, a bounded
  FIFO. `Ring`: positions that only grow, on the slots of a power-of-two ring.
- **Thread pools**. `ThreadPool`: the mutex pool of `thread/ThreadPool.h` with mutex, sleepers, pending
  notifications, spurious wake-ups and the destructor. `LockFreePool`: the pool of `thread/LockFreeThreadPool.*`,
  whose threads are threads of `QueueMachine`. `ThreadPoolTheorems` and `LockFreePoolTheorems`: what holds of
  their runs. `LockFreePoolCalls`: what becomes of the calls of `enqueue`. `LockFreePoolSleep`: when workers sleep and
  return. `Multisets`: sums in which elements move, for the conservation laws.
- **Ring buffer** (`util/RingBuffer.h`). `RingBuffer`: 32-bit positions that run freely and wrap.
- **Best-fit pool** (`util/MemoryPool.h`). `MemoryPool`: the multimap of free blocks, the map of used ones.
- **Frame codec** (`network/Net.cpp`, `serialization/*`). `Wire`: varints, tags and records, as in the sections
  "Base 128 Varints" and "Message Structure" of the Protocol Buffers Encoding specification. `Messages`: what
  the generated code does for a message type, given its fields (the rule "Last One Wins" included).
  `Generated`: its loops. `Frames`: the message types of this repository, both headers, and the reader loop.
  `RequestBytes`: the same messages as plain records, and every byte of their encoding, written out with literal tags.

Findings that a reader of the code may not expect, each proved:

- `findLevelForSplit` never goes back to the first column after a row in which it found nothing, so `alloc` can
  fail although a large enough block is free (`SearchIsIncomplete`); `AllocFailsExactly` gives the exact condition.
- `enqueue` of the lock-free pool notifies without the mutex: a notification between the look of the last worker at the
  queue and its falling asleep is lost, and the task is left behind (`LostWakeup`). When nothing moves any more, every
  enqueued task has run if and only if the queue is empty (`StrandedExactly`); the destructor still drains it.
- A request of 0 bytes to `MemoryPool::alloc` loses a used block exactly if one starts at the address of the
  first free entry (`MemoryPool.Alloc`, `ZeroRequest`), as after an exact fit just below it: `ZeroRequestLoses` is
  such a run.
- The two bytes the reader takes for a header are one exactly for bodies below 128 bytes (`TwoByteHeader`); of a
  larger size it sees the low seven bits (`CutHeader`), since the parse stores what it has read on past the end.
- The reader compares the size of the next frame with the *free* space of the ring buffer (`Remain`), not with
  what is buffered, so a buffer filled to the brim with whole frames is never read (`FullBufferStalls`, with a run in
  `FullBufferRun`); `Blocked` is the exact test, and `DispatchRequests` says that it is the only reason to stop early.
- The test in `queryFreeStatus` parses as `(!bitmap) & bit`; it is harmless because of the bitmap invariant.

## Model

| member | source | states |
|---|---|---|
| BitScan.FlsGeneric | util/fls.h:188-200 | the branchy scan gives floor(log2)+1 for every 32-bit word, 0 for zero |
| BitScan.ScanStep | util/fls.h:193-197 | a step of the scan loses no bit: shifting up by s when the s top bits are clear keeps the logarithm plus the position |
| BitScan.Fls | util/fls.h:208-211 | floor(log2), -1 for zero |
| BitScan.Ffs | util/fls.h:203-206 | the position of the lowest set bit, -1 for zero |
| BitScan.LowestBitMask | util/fls.h:205 | `w & (~w + 1)` is the power of two of the lowest set bit |
| BitScan.LowBitIsLowest | util/fls.h:203-206 | that bit is set and none below it is |
| BitScan.FlsSizeT | util/fls.h:217-231 | the two-half scan of a 64-bit size refines the plain logarithm |
| BitScan.BitScanReverse | util/TLSF.hpp:25-32 | the plain loop terminates for every non-zero size and gives floor(log2) |
| Words.Log2Bounds | util/TLSF.hpp:25-32 | the logarithm all scans are compared with is the one between two powers of two |
| Words.Log2Unique | util/TLSF.hpp:25-32 | and no other exponent fits |
| SizeClass.LevelSizeIncreasing | util/TLSF.hpp:130-139 | `queryLevelSize` is strictly increasing in lexicographic level order, both directions |
| SizeClass.LevelSizeStep | util/TLSF.hpp:130-139 | every level size is a multiple of 16, at least 16, and smaller than the next, across rows too |
| SizeClass.AllocLevelInTable | util/TLSF.hpp:76-103 | the level of a request is inside the 31 x 32 table if and only if the request is between 1 and 2^39; in particular 0 is not |
| SizeClass.AllocLevelSmall | util/TLSF.hpp:78-85 | up to 512 bytes the request is rounded up to a multiple of 16, and 0 wraps the second level |
| SizeClass.AllocLevelIsLeast | util/TLSF.hpp:76-103 | a request is served from the least level whose size is large enough |
| SizeClass.AllocLevelSize | util/TLSF.hpp:76-103 | the size of that level is at least the request, and the level before it is too small |
| SizeClass.InsertLevelBounds | util/TLSF.hpp:105-128 | a free block is filed in the table under L with levelSize(L) <= n < levelSize(succ(succ(L))), one step tighter on either side of 512 |
| SizeClass.FiledAboveFits | util/TLSF.hpp:76-139 | every block filed at or above the level of a request fits it, up to the full size of the level |
| TlsfHeap.UnlinkKeepsLists | util/TLSF.hpp:255-296 | unlinking any listed block leaves all lists well linked, acyclic and filed right |
| TlsfHeap.UnlinkPopped | util/TLSF.hpp:204 | removing a second time the block that was just popped writes back the values that are there |
| TlsfHeap.PushKeepsLists | util/TLSF.hpp:340-351 | pushing an unlisted free block at the head of its insert level keeps all lists |
| TlsfHeap.ClearKeepsBitmaps | util/TLSF.hpp:242-245 | clearing the bits of a list that became empty keeps both bitmaps exact |
| TlsfHeap.ClearTwice | util/TLSF.hpp:290-295 | clearing bits that are clear changes neither bitmap |
| TlsfHeap.SetKeepsBitmaps | util/TLSF.hpp:346-348 | setting the bits of a list that gets its first block keeps both bitmaps exact |
| TlsfHeap.PrevIsBefore | util/TLSFUtility.h:155-157 | `prevPhyAlloc` and `nextPhyAllocation` are inverse to each other, in both directions, inside a pool |
| TlsfHeap.SplitPhys | util/TLSF.hpp:208-221 | a split keeps the pools tiled and the boundary tags right |
| TlsfHeap.SplitFree | util/TLSF.hpp:213-222 | the rest of a split has no free neighbour, and no live block changes |
| TlsfHeap.MergePrev | util/TLSF.hpp:308-312 | merging into the free block before keeps layout, lists and live blocks, up to the back pointer still to be repaired |
| TlsfHeap.MergeNext | util/TLSF.hpp:313-326 | absorbing the free block behind repairs the back pointer and leaves no free neighbour |
| TlsfHeap.NoNext | util/TLSF.hpp:313-326 | with an allocated block or the end of the pool behind it a merged block may be listed |
| TlsfHeap.AddPool | util/TLSF.hpp:354-366 | a pool that overlaps no other enters as one free block, nothing else changes |
| Tlsf.TLSF.constructor | util/TLSF.hpp:68-73 | the empty allocator satisfies the heap invariant |
| Tlsf.TLSF.QueryFreeStatus | util/TLSF.hpp:148-157 | equals "the list is non-empty" in every consistent state, despite its operator precedence |
| Tlsf.TLSF.FindLevelForSplit | util/TLSF.hpp:181-196 | the least non-empty level among those scanned, or none exactly if all of them are empty |
| Tlsf.TLSF.QueryAllocationWithFreeLevel | util/TLSF.hpp:232-253 | takes the head of a non-empty list and keeps lists and bitmaps |
| Tlsf.TLSF.RemoveAtLevel | util/TLSF.hpp:277-296 | takes a listed block out; after a pop of the same block it changes nothing at all |
| Tlsf.TLSF.Remove | util/TLSF.hpp:255-275 | takes any listed block out of the list of its insert level |
| Tlsf.TLSF.PushFree | util/TLSF.hpp:340-352 | an unlisted free block becomes the head of its insert level |
| Tlsf.TLSF.LocatePool | util/TLSF.hpp:390-399 | the pool that contains a block |
| Tlsf.TLSF.SplitAllocation | util/TLSF.hpp:200-230 | takes the head of that list, keeps the size wanted, or all of it exactly if fewer than 32 bytes would be left, and files the rest; the other listed blocks stay listed in their order |
| Tlsf.TLSF.CutBlock | util/TLSF.hpp:208-222 | keeps exactly the size wanted and files the rest |
| Tlsf.TLSF.MergeWithPrev | util/TLSF.hpp:305-312 | first half of the coalescing in `insertFreeAllocation` |
| Tlsf.TLSF.MergeWithNext | util/TLSF.hpp:313-327 | second half: afterwards layout and back pointers are right and the merged block has no free neighbour |
| Tlsf.TLSF.InsertFreeAllocation | util/TLSF.hpp:301-352 | from a freed, unlisted block back to the full heap invariant; the merged block covers it and is the head of its list, the lists lose only what was merged, no live block changes |
| Tlsf.TLSF.Initialize | util/TLSF.hpp:354-366 | keeps the heap invariant, adds the pool as one block at the head of its list, leaves live and listed blocks alone |
| Tlsf.TLSF.QueryFreeAllocation | util/TLSF.hpp:159-179 | the head of the list of the request's own level, whole, if that list is not empty; only otherwise the head of the least non-empty level the search looks at, split; null exactly if there is none; only this block leaves the lists |
| Tlsf.TLSF.Alloc | util/TLSF.hpp:368-388 | keeps the heap invariant; answers with that very block, which becomes the one new live block, large enough; no live block is moved, resized or rewritten, and no listed one changes its place |
| Tlsf.TLSF.Free | util/TLSF.hpp:427-439 | keeps the heap invariant and removes exactly the freed block from the live ones; the free block it is now part of is the head of its list |
| Tlsf.TLSF.ClientWrite | util/TLSFUtility.h:142-145 | whatever a client writes into its block, the heap invariant holds: links are only read from free blocks |
| TlsfTheorems.ChainTiles | util/TLSFUtility.h:155-157 | walking `nextPhyAllocation` from a block meets every later block of the pool once, in order, and sizes add up |
| TlsfTheorems.PoolTiled | util/TLSF.hpp:200-388 | the blocks of a pool tile it: the sum of size + 16 is its capacity |
| TlsfTheorems.LiveDisjoint | util/TLSF.hpp:368-388 | two live blocks never overlap and lie inside one pool |
| TlsfTheorems.ChainForward | util/TLSF.hpp:340-352 | a free list runs through blocks of its own level, each ranked above the one before it, so it never comes back |
| TlsfTheorems.FreeListExact | util/TLSF.hpp:200-388 | the list of a level, walked from its head, holds exactly the free blocks of that insert level, each once |
| TlsfTheorems.RankOrdersList | util/TLSF.hpp:200-352 | the rank kept beside the lists is the order in which they are walked, both directions |
| TlsfTheorems.OrderKept | util/TLSF.hpp:200-352 | no operation reorders a list: blocks listed before and after it keep their order, and the one that is new comes first |
| TlsfTheorems.BitMeansFreeBlock | util/TLSF.hpp:63-64 | a bit is set if and only if some free block is filed under its level, a row bit if and only if its row is not empty |
| TlsfTheorems.AllFreeIsOneBlock | util/TLSF.hpp:301-352 | whenever nothing is live, every pool is one free block of its capacity less 16 |
| TlsfTheorems.AllFreeBitmaps | util/TLSF.hpp:301-352 | and with one pool exactly one bit is set in each level of the bitmaps |
| TlsfTheorems.MissedLevels | util/TLSF.hpp:181-196 | the split search passes over a level if and only if it lies in a later row, left of the start column, with no empty row between |
| TlsfTheorems.ScannedAbove | util/TLSF.hpp:181-196 | whatever the search returns is at or above the start level and so large enough |
| TlsfTheorems.AllocPrefers | util/TLSF.hpp:159-179 | in terms of free blocks: one filed at the level of the request is preferred to every other, otherwise none that is looked at is filed below the one taken, which is the one filed last under its level |
| TlsfTheorems.AllocFailsExactly | util/TLSF.hpp:159-196 | `alloc` fails if and only if every free block is filed below the level of the request or in a level passed over |
| TlsfTheorems.SearchIsIncomplete | util/TLSF.hpp:181-196 | a run in which 544 bytes are free and a request of 96 bytes fails |
| Ring.MaskSelectsSlot | util/LockFreeQueue.h:171 | masking with capacity - 1 is the remainder |
| Ring.SameSlot | util/LockFreeQueue.h:158-162 | two indices less than a round apart share a slot only if they are equal |
| Ring.WrapKeepsSlot | util/RingBuffer.h:95 | wrapping a 32-bit position does not move its slot |
| Ring.WrappedDifference | util/RingBuffer.h:78-81 | the difference of wrapped positions is exact |
| QueueMachine.InitInv | util/LockFreeQueue.h:143-163 | the constructor establishes the ticket and slot invariant |
| QueueMachine.TailCas | util/LockFreeQueue.h:184-187 | a successful tail exchange finds room, a free node, and makes it the pusher's own |
| QueueMachine.WriteValue | util/LockFreeQueue.h:189 | writing the value keeps the invariant: nobody else touches that node |
| QueueMachine.Publish | util/LockFreeQueue.h:195 | storing readIndex hands the node to the poppers |
| QueueMachine.HeadCas | util/LockFreeQueue.h:216-219 | a successful head exchange finds its ticket published and makes the node the popper's own |
| QueueMachine.MoveValue | util/LockFreeQueue.h:221 | what is moved out is what was pushed under the same ticket |
| QueueMachine.Destroy | util/LockFreeQueue.h:222 | destroying the value keeps the invariant |
| QueueMachine.Release | util/LockFreeQueue.h:224 | storing storeIndex frees the node for the ticket one round later |
| QueueMachine.PushStepInv | util/LockFreeQueue.h:165-197 | every step of Push keeps the invariant, a failing weak exchange included |
| QueueMachine.PopStepInv | util/LockFreeQueue.h:199-226 | every step of Pop keeps the invariant |
| QueueMachine.QueryStepInv | util/LockFreeQueue.h:228-252 | so do Empty and Size |
| QueueMachine.NextInv | util/LockFreeQueue.h:143-252 | every step of every thread keeps the invariant and only adds to the history |
| QueueMachine.RunInv | util/LockFreeQueue.h:143-252 | the ticket and slot invariant, head <= tail <= head + capacity included, holds in every reachable state of every interleaving |
| QueueMachine.RunExtends | util/LockFreeQueue.h:143-252 | pushed values and popped ones are never changed later in a run |
| QueueMachine.Fifo | util/LockFreeQueue.h:165-226 | in every run, the pop with the k-th head exchange returns the value of the push with the k-th tail exchange, for ever |
| QueueMachine.Delivered | util/LockFreeQueue.h:165-226 | a push and a pop that have returned true with the same ticket, in any run, have the same value |
| QueueMachine.TakenOnce | util/LockFreeQueue.h:199-226 | a ticket below head is out or held by exactly one thread, and is moved out only once |
| QueueMachine.PhaseOwners | util/LockFreeQueue.h:158-162 | each node is free, being written, published or being read, and its value has at most one owner |
| QueueMachine.QuietContents | util/LockFreeQueue.h:165-226 | with nobody inside, the queue is exactly the pushed and not popped values, published in order; all other nodes are free |
| QueueMachine.PushFails | util/LockFreeQueue.h:171-182 | at its second load a push that captured tail t fails if the pop of ticket t - capacity has not released the node; if it fails, that is so or the tail has passed t |
| QueueMachine.PopFails | util/LockFreeQueue.h:205-215 | at its second load a pop that captured head h fails if nothing is in the queue or the push of h has not published; if it fails, that is so or the head has passed h |
| QueueMachine.EmptyMeaning | util/LockFreeQueue.h:228-245 | what either answer means for the captured head: "empty" if pops have moved on, nothing is queued or its push has not published; "not empty" if it was published; while the head has not moved, exactly so |
| QueueMachine.SizeMeaning | util/LockFreeQueue.h:247-252 | Size never underflows: it counts what is queued at its second load, and on top of that what was popped since its first |
| QueueRuns.Moves | util/LockFreeQueue.h:165-252 | whatever step the machine takes, a thread that is elsewhere afterwards has made one of the moves of its call; a failed exchange leads to a new load, and false comes only from a node that was not ready |
| QueueRuns.PushReturnsFalse | util/LockFreeQueue.h:168-182 | in every run, a push that returns false captured a tail in that call, held no ticket, and found the node not ready: other pushes have moved the tail past it, or the pop of the ticket one round earlier has not released the node |
| QueueRuns.PopReturnsFalse | util/LockFreeQueue.h:203-215 | in every run, a pop that returns false captured a head in that call and found the node not published: other pops have moved the head past it, or nothing is queued, or its push has not published |
| QueueRuns.PushReturnsTrue | util/LockFreeQueue.h:165-197 | in every run, a push that returns true has put its value in with exactly one tail exchange, between its call and its return, under the ticket it returns with |
| QueueRuns.PopReturnsTrue | util/LockFreeQueue.h:199-226 | in every run, a pop that returns true has made exactly one head exchange, between its call and its return, and returns what was pushed under that ticket |
| QueueRuns.PushesInOrder | util/LockFreeQueue.h:165-197 | a push called after another has returned true gets a later ticket |
| QueueRuns.PopsInOrder | util/LockFreeQueue.h:199-226 | a pop called after another has returned true gets a later value |
| QueueRuns.EmptyReturns | util/LockFreeQueue.h:228-245 | the answer of Empty in terms of the head it loaded within the same call, over whole runs |
| QueueRuns.SizeReturns | util/LockFreeQueue.h:247-252 | Size returns what is queued when it returns plus what was popped since it loaded the head |
| QueueRuns.PushAlone | util/LockFreeQueue.h:165-197 | from any reachable state, wherever the other threads have stopped, a push left alone returns within seven steps |
| QueueRuns.PopAlone | util/LockFreeQueue.h:199-226 | and a pop within eight: no thread can block another |
| LockFreeQueue.CapacityMask | util/LockFreeQueue.h:146-152 | the loop smears the highest bit over all lower ones |
| LockFreeQueue.LeastPower | util/LockFreeQueue.h:146-153 | the capacity is the least power of two that is at least the one asked for |
| LockFreeQueue.LockFreeQueue.constructor | util/LockFreeQueue.h:143-163 | an empty queue of that capacity |
| LockFreeQueue.LockFreeQueue.Push | util/LockFreeQueue.h:165-197 | with one thread: false exactly if the queue is full, otherwise the value goes to the end; and the new state is the one the machine of `QueueMachine` reaches by a call of Push |
| LockFreeQueue.LockFreeQueue.Pop | util/LockFreeQueue.h:199-226 | with one thread: false exactly if the queue is empty, otherwise the oldest value; and the new state is the one the machine reaches by a call of Pop |
| LockFreeQueue.CallsAreRuns | util/LockFreeQueue.h:165-226 | such a call takes any run of the machine to a longer run |
| LockFreeQueue.LockFreeQueue.Empty | util/LockFreeQueue.h:228-245 | with one thread: true exactly if the queue is empty |
| LockFreeQueue.LockFreeQueue.Size | util/LockFreeQueue.h:247-252 | with one thread: the number of values, cut to 32 bits |
| ThreadPool.WorkerStepInv | thread/ThreadPool.h:28-56 | whatever a worker does keeps mutual exclusion, stop, wake-up and task order |
| ThreadPool.ClientStepInv | thread/ThreadPool.h:72-92 | every step of `enqueue` keeps it too; what it decides is stated by `EnqueueDecides` |
| ThreadPool.NotifyOneInv | thread/ThreadPool.h:90 | a spent `notify_one` leaves somebody awake while tasks are queued |
| ThreadPool.DestroyerStepInv | thread/ThreadPool.h:58-70 | so does the destructor |
| ThreadPool.RunInv | thread/ThreadPool.h:24-92 | the invariant holds in every reachable state, for any schedule and any spurious wake-ups |
| ThreadPoolTheorems.NoLostWakeup | thread/ThreadPool.h:28-92 | queued tasks imply an awake worker or a pending notification; while anybody sleeps, there are at most as many of them as workers coming for one and notifications pending; stop with a sleeping worker implies a pending notify_all |
| ThreadPoolTheorems.StuckIsSettled | thread/ThreadPool.h:28-92 | the only stuck states are "all returned" and "not stopped, queue empty, everybody idle" |
| ThreadPoolTheorems.WorkDecreases | thread/ThreadPool.h:28-92 | every step of the pool itself uses up a finite amount of work |
| ThreadPoolTheorems.EveryTaskRuns | thread/ThreadPool.h:28-92 | left to itself the pool comes to rest within that bound under any schedule, and then every accepted task has run |
| ThreadPoolTheorems.Drained | thread/ThreadPool.h:40-70 | once all workers have returned, the pool is stopped, the queue is empty and every accepted task has run |
| ThreadPoolTheorems.StopIsFinal | thread/ThreadPool.h:84-85 | after stop no task is accepted, and "stop and empty" is stable |
| ThreadPoolTheorems.OncePerTask | thread/ThreadPool.h:42-43 | each accepted task is queued in its place, or running on exactly one worker, or done |
| ThreadPoolTheorems.EnqueueDecides | thread/ThreadPool.h:81-90 | whatever step is taken, a client leaving the critical section has its task at the end of the queue and goes on to notify, unless the pool is stopped, and only then is it refused |
| ThreadPoolTheorems.NotifyDecides | thread/ThreadPool.h:90 | a notification wakes exactly one sleeper if there is one |
| ThreadPoolTheorems.WorkerDecides | thread/ThreadPool.h:36-47 | whatever step is taken, a worker sleeps only if there is nothing to do, returns only if the pool is stopped and empty, and otherwise takes the oldest task |
| ThreadPoolTheorems.EveryCallCounts | thread/ThreadPool.h:72-92 | in every run the tasks passed to `enqueue` are, with multiplicity, those accepted, those refused, and those of callers not yet through the critical section; none is refused before stop |
| ThreadPoolTheorems.CalledTasksRan | thread/ThreadPool.h:40-92 | once all workers have returned and no call is under way, every task ever passed to `enqueue` has run or was refused |
| LockFreePool.WorkerStepInv | thread/LockFreeThreadPool.cpp:9-36 | every step of a worker, inside the queue or between, keeps the invariant of the pool |
| LockFreePool.ClientStepInv | thread/LockFreeThreadPool.h:31-40 | every step of the retry loop of `enqueue` keeps the invariant of the pool |
| LockFreePool.DestroyerStepInv | thread/LockFreeThreadPool.cpp:39-48 | so does the destructor |
| LockFreePool.RecheckFinds | thread/LockFreeThreadPool.cpp:31 | after stop the second look at the queue comes out empty only if the queue is empty |
| LockFreePool.PoolRunInv | thread/LockFreeThreadPool.cpp:7-48 | the invariant holds in every reachable state of every interleaving |
| LockFreePoolTheorems.ReturnedMeansEmpty | thread/LockFreeThreadPool.cpp:31-32 | as soon as one worker has returned, head = tail |
| LockFreePoolTheorems.DrainedOnReturn | thread/LockFreeThreadPool.cpp:7-48 | once all workers have returned, every task whose Push succeeded was popped and run, and nobody is inside the queue |
| LockFreePoolTheorems.RunsOnce | thread/LockFreeThreadPool.cpp:13-19 | no task is run by two workers or twice |
| LockFreePoolTheorems.RunTasks | thread/LockFreeThreadPool.h:31-40 | in every reachable state each ticket of the queue belongs to exactly one enqueued task or push under way |
| LockFreePoolTheorems.EnqueuedTasksRun | thread/LockFreeThreadPool.cpp:7-48 | once all workers have returned, every task whose `enqueue` saw Push return true has run under a ticket of its own, and nothing else has run |
| LockFreePoolCalls.ClientGoesOn | thread/LockFreeThreadPool.h:31-39 | a client leaves the retry loop only with its task enqueued, after a failed push it notifies all and tries again, and a notification wakes one sleeper if there is one |
| LockFreePoolCalls.EveryCallCounts | thread/LockFreeThreadPool.h:31-40 | in every run the tasks passed to `enqueue` are, with multiplicity, those pushed with success and those of callers in the retry loop |
| LockFreePoolCalls.CallersBack | thread/LockFreeThreadPool.h:31-40 | with every caller back, the enqueued tasks are exactly those `enqueue` was called with |
| LockFreePoolCalls.ReturnsEnqueued | thread/LockFreeThreadPool.h:31-40 | between a caller's being in the retry loop and its being back lies the step with which its own task was enqueued |
| LockFreePoolCalls.CalledTasksRan | thread/LockFreeThreadPool.cpp:7-48 | once all workers have returned, every task ever passed to `enqueue` has been pushed, popped under a ticket of its own, and run |
| LockFreePoolSleep.WorkerComes | thread/LockFreeThreadPool.cpp:9-36 | whatever step the pool takes, a worker that is elsewhere afterwards has made one of the moves of its loop |
| LockFreePoolSleep.RunSleepInv | thread/LockFreeThreadPool.cpp:28-48 | in every run the mutex is held by exactly the thread inside the wait or the destructor's section, and once everybody has been notified of stop nobody sleeps |
| LockFreePoolSleep.SleepsWhenEmpty | thread/LockFreeThreadPool.cpp:28-30 | a worker falls asleep only after Empty, called under the mutex, has answered true, and never once stop is set |
| LockFreePoolSleep.StuckIsSettled | thread/LockFreeThreadPool.cpp:7-48 | the only reachable states in which nothing moves are "destroyed, all workers returned" and "destructor not called, all workers asleep, no call under way" |
| LockFreePoolSleep.StrandedExactly | thread/LockFreeThreadPool.cpp:28-30 | in a stuck state every enqueued task has run if and only if the queue is empty |
| LockFreePoolSleep.LostWakeup | thread/LockFreeThreadPool.h:39 | a run after which a task is in the queue, its `enqueue` has returned, the only worker sleeps, and nothing moves |
| RingBuffer.PowerTest | util/RingBuffer.h:27-32 | `n & (n - 1)` is zero exactly for powers of two |
| RingBuffer.RoundUpPowerOf2 | util/RingBuffer.h:39-56 | the least power of two that is at least max(n, 2), for n up to 2^31 |
| RingBuffer.RingBuffer.constructor | util/RingBuffer.h:59-64 | an empty buffer of that capacity |
| RingBuffer.RingBuffer.Size | util/RingBuffer.h:78-81 | the number of items, although the positions wrap |
| RingBuffer.RingBuffer.Remain | util/RingBuffer.h:82-85 | size plus remaining space is the capacity |
| RingBuffer.RingBuffer.IsEmpty | util/RingBuffer.h:70-73 | exactly if nothing is in it |
| RingBuffer.RingBuffer.IsFull | util/RingBuffer.h:74-77 | exactly if it holds its capacity |
| RingBuffer.RingBuffer.Readn | util/RingBuffer.h:87-103 | removes exactly the first min(n, size) items and delivers them in order, across the wrap |
| RingBuffer.RingBuffer.Writen | util/RingBuffer.h:105-120 | appends all n items or none, none exactly if they do not fit |
| RingBuffer.RingBuffer.Retrive | util/RingBuffer.h:122-125 | brings back exactly the last n items read, in front of the present contents, if and only if all of it fits the capacity, whatever was written since |
| RingBuffer.RingBuffer.ReadAndRetrive | util/RingBuffer.h:87-125 | reading and taking back is no change |
| MemoryPool.MemoryPool.constructor | util/MemoryPool.h:16-20 | one free block of the whole capacity |
| MemoryPool.InsertPlace | util/MemoryPool.h:66 | an entry goes in behind all entries of its size or smaller and in front of all larger ones; the others keep their order |
| MemoryPool.MemoryPool.Alloc | util/MemoryPool.h:50-71 | for every size: fails exactly if no free block is large enough; otherwise takes the front of the first entry that fits, a smallest adequate one, files the rest behind its equals, and no block boundary disappears; the pool stays consistent exactly if the size is not 0 or no used block starts at the address handed out |
| MemoryPool.MemoryPool.Free | util/MemoryPool.h:118-125 | gives back exactly the recorded block, filed behind its equals, or records an unknown address with size 0 |
| MemoryPool.AllocKeeps | util/MemoryPool.h:63-68 | cutting a free block keeps free and used blocks a tiling of the pool |
| MemoryPool.FreeKeeps | util/MemoryPool.h:120-124 | so does giving one back |
| MemoryPool.PoolTiled | util/MemoryPool.h:16-125 | in every state the entries of non-zero size are disjoint blocks, each in exactly one of the two lists, once, and the sizes in the lists add up to the capacity |
| MemoryPool.ZeroRequest | util/MemoryPool.h:50-71 | a request of 0 bytes keeps the pool explainable by a tiling if and only if no used block starts at the address of the first free entry |
| MemoryPool.ZeroRequestLoses | util/MemoryPool.h:50-71 | a run of two requests, a release, an exact fit and a request of 0 bytes after which no tiling explains the lists |
| Wire.VarintRoundTrip | serialization/Message.pb.cc:151 | reading a varint gives back the number and its length, whatever follows |
| Wire.RecordRoundTrip | serialization/Request.pb.cc:4182-4184 | reading tag and payload gives back the record, whatever follows |
| Wire.RecordPrefix | serialization/Message.pb.cc:143-151 | bytes behind the end do not change what is read, unless the record runs into them |
| Messages.Int32RoundTrip | serialization/Request.pb.cc:1161-1252 | a sign-extended int32 comes back as itself |
| Messages.ParseRecords | serialization/Request.pb.cc:4178-4252 | parsing concatenated records is applying them one after the other |
| Messages.ConcatMerges | serialization/Request.pb.cc:4178-4252 | parsing two encodings one behind the other merges the second into what the first gave |
| Messages.LastOneWins | serialization/Request.pb.cc:4186-4198 | of two values of a scalar field the last one wins, whatever stood there before |
| Messages.NestedMerge | serialization/Request.pb.cc:4198-4204 | two occurrences of a message field are one occurrence with the bytes of both |
| Messages.Restores | serialization/Request.pb.cc:4178-4306 | parsing what was serialized restores every field and unknown record, over any scalar values that stood there before |
| Messages.RestoresRepeated | serialization/Request.pb.cc:952-1014 | repeated messages come back in order |
| Messages.SerializedSize | serialization/Request.pb.cc:4308-4352 | `ByteSizeLong` is the length of what is written, for every message type |
| Generated.InternalParse | serialization/Request.pb.cc:4178-4252 | the pointer loop computes the fold of the records; it reads past the end before it notices, and a number read there is stored although the parse fails |
| Generated.Clause | serialization/Request.pb.cc:4184-4232 | one record changes nothing but its own field or the end of the unknown records; a record no clause takes is kept there as it is; a scalar field takes the value the record was written for, whatever stood there before |
| Generated.InternalSerialize | serialization/Request.pb.cc:4254-4306 | writes the set fields in order and then the unknown ones |
| Generated.WriteMessage | serialization/Request.pb.cc:4268-4274 | the length written before a nested message, computed beforehand, is the length of that message |
| Frames.SchemasOk | serialization/proto/Request.proto:1-106 | the field numbers within each message type are distinct and in range; which number belongs to which field is stated by `RequestBytes` |
| RequestBytes.FunctionCallWritten | serialization/Request.pb.cc:2496-2550 | every function call, whatever is set in it, is written with the tags 10, 18, 26, 34 and 42, each length in front of its message, and those with theirs |
| RequestBytes.FunctionRetWritten | serialization/Request.pb.cc:3840-3895 | the same for every answer |
| RequestBytes.ConnectionRetWritten | serialization/Request.pb.cc:994-1014 | the functions on offer are written one after the other, each behind a tag 10 and its length |
| RequestBytes.RequestWritten | serialization/Request.pb.cc:4254-4306 | every request is written as 8 and the call type, then behind 18, 26, 34 or 42 and a length the message it announces, in this order, and nothing else |
| RequestBytes.RequestParsed | serialization/Request.pb.cc:4178-4252 | parsing those bytes gives back the request: each tag leads to its own field, at every depth, and nothing is left over |
| RequestBytes.BytesTellRequests | serialization/Request.pb.cc:4178-4306 | no two requests have the same bytes |
| RequestBytes.MadeBytes | serialization/Parser.h:117-141 | what `MakeRequest` makes is on the wire [8, 0], or [8, 1, 26], [8, 2, 34] or [8, 3, 42] with length and body |
| RequestBytes.MadeReceived | serialization/Parser.h:117-168 | and if it is short enough for the reader it is received with every field, behind both headers |
| Frames.ParseHeader | serialization/Message.pb.cc:140-199 | a header gives back its size |
| Frames.TwoByteHeader | network/Net.cpp:44-49 | the first two bytes of a header are the header if and only if the size is below 128 |
| Frames.CutHeader | serialization/Message.pb.cc:148-176 | a size cut after its first byte reads as its low seven bits: the field is set before the failure is noticed |
| Frames.ParsedRequest | serialization/Parser.h:145-168 | despite the double header every field of a request comes back; only the unknown fields may gain the first header |
| Frames.DispatchRequests | network/Net.cpp:38-98 | a prefix of the requests is dispatched in order, with all fields, exactly the remaining frames stay buffered, and it stops exactly at the first frame larger than the free space |
| Frames.RoomForAll | network/Net.cpp:51-55 | with 125 bytes to spare beside the buffered frames nothing stops the reader |
| Frames.FullBufferStalls | network/Net.cpp:51-55 | a buffer filled to the brim with whole frames is never read |
| Frames.FullBufferRun | network/Net.cpp:38-98 | a run in which one package fills a buffer of eight bytes and the reader dispatches nothing |

## Left out

- Tlsf.TLSF.Alloc: sizes 0 and above 2^39, for which the source indexes outside its tables; `SizeClass.AllocLevelInTable` shows that these are exactly the sizes for which it does.
- Tlsf.TLSF.Initialize: pools that overlap, are smaller than 32 bytes, not a multiple of 16, or larger than the 31-bit size field can say; the source checks none of this. `TLSFVector` and its growth: the pool list is a sequence.
- `TLSF::realloc` (util/TLSF.hpp:401-425): it neither repairs the back pointer of the following block nor sets `free` nor copies data, so the heap invariant does not hold across it; and `dump`.
- Memory at byte level: headers are fields of a map entry, so two headers can not overlap; that they do not is proved (`TlsfHeap.Disjoint`), what is in the bytes of a merged header is not modelled. What a fresh block holds is not modelled either.
- Methods whose contract is one arm of a longer source function (`CutBlock`, `WriteParts`, `ClearLevel`, `UpdateBitmaps`, `AbsorbNext`, `MergeWithPrev`, `MergeWithNext`, `PushFree`): the source writes these inline.
- Weak memory order, overflow of the 64-bit counters and capacity 0 in the lock-free queue, and the older queue in comments (util/LockFreeQueue.h:12-112). The machine is sequentially consistent.
- LockFreeQueue.LockFreeQueue.Push: one thread only, like the other methods of that class; for any number of threads the statements are those of `QueueMachine`, of which it is shown to be a part. With one thread the exchange is taken to succeed at once.
- Lock-free queue and both pools: progress under unfair schedules. The mutex pool is shown to come to rest in boundedly many own steps; a push or pop left alone to return within eight; of the lock-free pool the states in which nothing moves are characterised, not how soon its retry loops end. `Join` and `join`, which do not shut a pool down properly, are not modelled.
- ThreadPool.RunInv: the critical section between two accesses to the mutex is one step; what a task does, and futures and exceptions, are not modelled.
- LockFreePoolTheorems.DrainedOnReturn: `enqueue` does not overlap the destructor, as its users must see to.
- RequestBytes.MadeBytes: what the `default` branch of `MakeRequest` leaves for a call type outside the enumeration, an empty request.
- RingBuffer.RingBuffer.Retrive: taking back more than was ever read.
- RingBuffer.RingBuffer.Readn: a destination that is too short or the buffer's own array.
- RingBuffer.RoundUpPowerOf2: capacities above 2^31, where the source shifts by 32; `WritePtr` and `ReadPtr`.
- `MemoryPool::coalesce`, which is unfinished in the source. After a request of 0 bytes that loses a block nothing more is said about the pool.
- Wire.RecordRoundTrip: groups; a parse that meets one stops, while the source keeps it as an unknown field.
- Messages.Restores: strings are bytes and doubles eight bytes; UTF-8 checks, the limit on nesting, arenas, reflection and the result of `IsInitialized`, which callers ignore, are not modelled. The protobuf runtime is not part of this model beyond what these records need.
- Generated.InternalParse: what a failed parse leaves of a string or nested message that runs past the end. Behind the end there are zeros, which is so for a whole string; inside a nested message the runtime would read on into the bytes of the outer one.
- Frames.DispatchRequests: whole frames with bodies below 128 bytes and a call type; what the dispatched functions do and the answers written back are not modelled, and frames that have arrived only in part are not handled by the reader either. The two reader loops are one method, since they differ only in what they call.
- Sockets, epoll, connections and `ReadFromSocket`; the demo clients and servers, `Player`, `Singleton`, `Random`, and the macros of serialization/Parser.h.

# KuberneTSN: rings, ownership, deadlines and pages

KuberneTSN hands packet buffers from application threads to a scheduling daemon. `sendmsg`
(`libktsn.c`) takes a buffer index from the *free ring*, fills the buffer and its metadata, and puts
the index on the *tx ring*. The daemon (`ktsnd.c`) takes bursts of indices from the tx ring, queues
them by transmission time in a binary min-heap (`src/kt_queue.c`), and each round waits, drops the
head as late, or sends it and returns its index to the free ring. Both rings are lock-free and may be
used by any number of threads at once (`src/kt_ringbuf.c`); rings and buffer pools are carved out of
shared memory by a first-fit page allocator (`src/kt_alloc.c`).

`dafny verify dfyconfig.toml` covers the whole project.

| files | what they hold |
|---|---|
| `Bits`, `Wrappers` | u32 wrap-around, `&` as a function on naturals, masks and powers of two; `Option` |
| `RingMachine`, `RingTheorems` | the ring as a step machine: any number of threads, steps of one shared access (a tail found and stored counts as one), spurious compare-and-swap failures, unbounded counters |
| `Ring32` | the same machine with u32 counters and masked slots, and its refinement to `RingMachine` |
| `RingCalls` | whole ring calls among others: what is claimed is what was asked for, once, and when a call gives up |
| `RingAlone` | ring calls that nobody disturbs, step by step |
| `RingAsWritten`, `RingAsWrittenFifo` | the step machine with the copy loops as written, when it is the intended one, and when it is still first in, first out |
| `RingCopy` | the unrolled and the wrapping copy routines on arrays, intended and as written |
| `RingBuf` | `struct kt_ringbuf` as an object, for calls that run one at a time |
| `Heap`, `HeapTheorems`, `PrioQueue` | the heap on sequences, and `struct kt_prio_queue` as an object over an array |
| `PageSpec`, `PageTheorems`, `PageAlloc`, `PageInit` | the allocator on values, as an object over arrays, and the sizing and layout made by its init |
| `System` | senders, rings, pools, heap and daemon as one transition system of ring steps, stores into the pools and loads from them |
| `SystemInv`, `SystemPlace`, `SystemData`, `SystemSteps` | the invariant of that system and its preservation by every step |
| `SystemTheorems`, `SystemBag` | what follows for every run, and the refinement to a bag of timed messages |
| `SystemSends` | what is accepted and what is on the wire, traced back to the `sendmsg` calls of the run |
| `SystemRings` | what a run of the system does to each ring is a run of that ring: u32 counters, set-up |
| `SystemOrder`, `SystemLeaving` | when the queue is a heap, when waiting is safe, and the order in which messages leave, as intended and as written |
| `SystemAsWritten` | the system with ring copies as written, and when it is the intended one |
| `SystemAlone`, `SystemFailing` | runs of one thread at a time, and two that fail as written |
| `Runtime` | set-up, the sending path and the scheduler round on the objects above |

## As intended and as written

In five places the code departs from its evident intent. Both forms are modelled.

- **Copies that wrap** (`src/kt_ringbuf.c:127-134`, `245-252`). The first loop runs to `n` instead of
  the end of the ring. `EnqueueElems`, `DequeueElems`, the step machines and `System` follow the
  intent. `EnqueueElemsAsWritten` and `DequeueElemsAsWritten` follow the code; they agree with the
  intent exactly when the block does not pass the end of the ring (`AsWrittenStoreIff`,
  `AsWrittenFetchIff`), hence in every one-element call (`SingleElementAsWritten`). The daemon's
  bursts of 8 are not of that kind. `RingAsWritten` is the step machine with these copies:
  `AsWrittenRunIff` says exactly which of its runs are runs of the intended ring, `FifoAsWrittenIff`
  exactly which are still first in, first out, and `FifoFailsAsWritten` gives one that is not.
  `SystemAsWritten` is the whole system with these copies: `AsWrittenSystemIff` says exactly which of
  its runs are runs of `System`, and `AsWrittenQueuesFreeIndex` gives one that is not.
- **Heapify** (`src/kt_queue.c:110-113`). The second `else` discards a smaller left child. Names
  ending in `AsWritten` follow the code. `ExtractMinAsWrittenOrdersIff` says exactly when it still
  leaves a heap, `ExtractMinAsWrittenHeadIff` exactly when it still leaves a least head. In `System`
  the flag `sound` chooses the form: ownership, conservation, integrity and the per-packet deadline
  bounds hold for both values. The results about order hold for every run that sinks well
  (`AllSinkWell`): with heapify as intended that is every run (`SoundSinksWell`), as written it is
  exactly the runs in which the queue is a heap throughout (`AlwaysHeapIff`).
  `AsWrittenWaitsPastDeadline` shows a run outside them.
- **Late packets** (`ktsnd.c:374-379`). The index of a dropped packet is not returned. In `System` the
  flag `recycle` chooses; `LossIsDrops` covers both values, with ring copies as intended.
- **Page-list size** (`src/kt_alloc.c:43-48`). The room test counts metadata only, and the list size
  is multiplied by the entry size twice. The layout follows the code; `InitContainedIff` says exactly
  when every page lies inside the memory.
- **Ring storage** (`ktsnd.c:254-256`). The rings are created with element size 1 and used with
  element size 8. `RingStorageFitsIff` says up to which count the rounding to pages makes up for it.

`(0 - 1) / 2` is 0 in C; `Parent` has that case written out.

## Assumptions

- Memory accesses are sequentially consistent. Where a step joins two of them, `TurnIsKept` and
  `OwnStoreUnseen` say why nobody can tell. Spin loops are steps that are not enabled yet; no
  fairness is assumed, and nothing is claimed about how long a thread waits.
- Ring sizes are powers of two. `kt_ringbuf_create` does not test this; `MaskIsRemainderIff` shows that
  the mask is right for no other size, and `HundredSlotsCollide` what happens with the size of 100
  used in `ktsnd_socket.c`.
- For the u32 counters: between loading a head and its use, fewer than 2^32 positions go by
  (`NeverLapped`). `StaleCasSucceedsIff` shows which situations that leaves out.
- Payloads are at most 2048 bytes, which `sendmsg` does not test; `PayloadStaysInsideIff` shows that
  the buffers of other messages are safe exactly then.
- Clock readings and transmission times lie in [0, 2^63), and clock readings do not decrease.
- Struct sizes are those of a 64-bit target.

## Model

| member | source | states |
|---|---|---|
| `Bits.PowerOfTwoTest` | src/kt_alloc.c:21 | `x & (x - 1)` is zero exactly for the powers of two |
| `Bits.MaskIsRemainderIff` | src/kt_ringbuf.c:22 | masking with `size - 1` is the remainder modulo `size`, for all positions, exactly when `size` is a power of two |
| `Bits.MaskedIndex` | src/kt_ringbuf.c:102 | the masked index of a head is its remainder and lies inside the ring |
| `RingMachine.EnqClaim` | src/kt_ringbuf.c:86-90 | a successful producer compare-and-swap keeps counter order, tiling of claims and stored values, whatever the other threads are doing |
| `RingMachine.DeqClaim` | src/kt_ringbuf.c:204-208 | the same for a consumer's compare-and-swap |
| `RingMachine.SlotsDiffer` | src/kt_ringbuf.c:63-81 | two unreleased positions never share a slot |
| `RingMachine.EnqWrite` | src/kt_ringbuf.c:95-141 | writing a claimed slot disturbs no stored value and no other claim |
| `RingMachine.DeqRead` | src/kt_ringbuf.c:213-259 | a slot read by a claimed dequeue yields exactly the value given for that position |
| `RingMachine.EnqPublish` | src/kt_ringbuf.c:160-164 | publishing in turn moves prod.tail over stored entries only |
| `RingMachine.DeqRelease` | src/kt_ringbuf.c:275-279 | releasing in turn extends what was taken by the next stretch of what was given |
| `RingMachine.StepInv` | src/kt_ringbuf.c:59-286 | every step of every thread keeps the whole ring invariant |
| `RingTheorems.RunInv` | src/kt_ringbuf.c:59-286 | it holds in every state of every run, and counters and histories only grow |
| `RingTheorems.ReachableTiling` | src/kt_ringbuf.c:59-286 | in every reachable state cons.tail ≤ cons.head ≤ prod.tail ≤ prod.head ≤ cons.tail + capacity, and a position is claimed, by one thread only, exactly when it lies between tail and head |
| `RingTheorems.SlotExclusion` | src/kt_ringbuf.c:95-171 | a slot being written is claimed by no other thread and holds no entry still to be read |
| `RingTheorems.Fifo` | src/kt_ringbuf.c:143-171 | over every run the values returned are a prefix of the values given, in claim order, at most a capacity behind, and a pending dequeue has read exactly its own stretch |
| `RingTheorems.ReadTailNeverBlocks` | src/kt_ringbuf.c:76-81 | the free or available count seen is never negative |
| `RingTheorems.StaleCount` | src/kt_ringbuf.c:69-78 | a stale head inflates the count seen, on either side, by exactly the distance the head has moved; a free count exceeds the capacity exactly when the head lags behind cons.tail |
| `RingTheorems.StaleCasFails` | src/kt_ringbuf.c:88-90 | once a head is stale, a compare-and-swap against it fails in every continuation, for producers and consumers |
| `RingTheorems.EnqueueGivesUpIffFull` | src/kt_ringbuf.c:80-84 | a zero return means the ring really was full (or short of room for a fixed-size call) when cons.tail was read, and with a current head also follows from it |
| `RingTheorems.DequeueGivesUpIffEmpty` | src/kt_ringbuf.c:198-202 | the same for a dequeue and unclaimed published entries |
| `RingTheorems.TurnIsKept` | src/kt_ringbuf.c:161-164 | a thread that has seen its turn to publish or release keeps it, whatever the others do |
| `RingTheorems.OldestClaimCanMove` | src/kt_ringbuf.c:160-164 | in-order publication never deadlocks: the oldest pending claim can copy or publish |
| `RingCalls.RequestKept` | src/kt_ringbuf.c:59-93 | in every run a thread inside a call still has the whole request of the last call it started, through every failed compare-and-swap, and what it has claimed is part of that request |
| `RingCalls.ClaimIsOfRequest` | src/kt_ringbuf.c:143-155 | a claim gives the ring the first values of the request it belongs to, or takes the next entries: at least one, at most as many as asked for |
| `RingCalls.OneClaimPerCall` | src/kt_ringbuf.c:66-92 | between two claims of a thread it starts a new call |
| `RingCalls.LoadsCurrentHead` | src/kt_ringbuf.c:66-90 | starting a call and trying again after a failed compare-and-swap both leave the thread with the head as it stands and its whole request |
| `RingCalls.AsksForWhatFits` | src/kt_ringbuf.c:76-86 | the number a call goes on to claim is the whole request if that much is seen, and otherwise, for a variable request only, all that is seen |
| `RingCalls.GivesUpOnlyWhenShort` | src/kt_ringbuf.c:178-211 | a call ends unclaimed only when it asked for nothing or there really was nothing, or too little for a fixed number, in the state it read; a failed compare-and-swap never ends it |
| `RingCalls.StepsPossible` | src/kt_ringbuf.c:59-286 | at each place of a call exactly the steps the code has there are possible; only the compare-and-swap and the turn to publish depend on others |
| `Ring32.DifferencesExact` | src/kt_ringbuf.c:78-78 | the u32 differences are the true ones wherever the counters stand |
| `Ring32.SlotExact` | src/kt_ringbuf.c:102-102 | the masked u32 index of a position is the position modulo the size |
| `Ring32.EnabledAgrees` | src/kt_ringbuf.c:69-90 | a step is possible with u32 counters exactly when it is with unbounded ones |
| `Ring32.StepAgrees` | src/kt_ringbuf.c:59-286 | and has the same effect |
| `Ring32.StaleCasSucceedsIff` | src/kt_ringbuf.c:88-90 | a stale u32 compare-and-swap, of a producer or a consumer, succeeds exactly when the head has moved by a positive multiple of 2^32 |
| `Ring32.RunAgrees` | src/kt_ringbuf.c:59-286 | over every run, through any number of wrap-arounds, the u32 ring and the unbounded ring can do the same and end in corresponding states |
| `Ring32.Fifo32` | src/kt_ringbuf.c:143-286 | first in, first out for the u32 ring, stated on the values offered and handed back |
| `Ring32.CountExact` | src/kt_ringbuf.c:40-46 | kt_ringbuf_count is published minus released entries in every state |
| `Ring32.HundredSlotsCollide` | ktsnd_socket.c:60-62 | with 100 entries two positions that may be occupied together share a slot |
| `RingCopy.StoreAtSlots` | src/kt_ringbuf.c:95-141 | a store reaches exactly the slots of its positions and leaves the others alone |
| `RingCopy.FetchAfterStore` | src/kt_ringbuf.c:213-259 | the dequeue copy undoes the enqueue copy, for every head and length |
| `RingCopy.StoreOneMore` | src/kt_ringbuf.c:127-130 | one more value of the block copy is one slot write of the step machine |
| `RingCopy.CopyIn` | src/kt_ringbuf.c:106-124 | groups of four plus fall-through tail copy exactly the block |
| `RingCopy.CopyInWrapping` | src/kt_ringbuf.c:125-135 | the intended two segments: up to the end of the ring, then on from slot 0 |
| `RingCopy.EnqueueElems` | src/kt_ringbuf.c:95-141 | both paths store value j in slot (head + j) mod size and touch nothing else (as intended) |
| `RingCopy.CopyOut` | src/kt_ringbuf.c:224-242 | groups of four plus tail read exactly the block |
| `RingCopy.CopyOutWrapping` | src/kt_ringbuf.c:243-253 | the intended two segments of the read |
| `RingCopy.DequeueElems` | src/kt_ringbuf.c:213-259 | both paths read slot (head + j) mod size into entry j and touch nothing else (as intended) |
| `RingCopy.EnqueueElemsAsWritten` | src/kt_ringbuf.c:125-135 | as written the copy is one block that may run past the ring |
| `RingCopy.DequeueElemsAsWritten` | src/kt_ringbuf.c:243-253 | as written the read is one block that may run past the ring |
| `RingCopy.AsWrittenStoreIff` | src/kt_ringbuf.c:106-135 | as written the copy in is right, for all contents, exactly when idx + n ≤ size |
| `RingCopy.AsWrittenFetchIff` | src/kt_ringbuf.c:224-253 | as written the copy out is right, for all contents, exactly when idx + n ≤ size |
| `RingCopy.SingleElementAsWritten` | libktsn.c:310-310 | one-element calls are right as written |
| `RingAsWritten.OneMemory` | src/kt_ringbuf.c:125-135 | as written, ring and what lies behind it are one memory: a copy stores to or reads from element head mod size + i of it, and no other step touches it |
| `RingAsWritten.SameStepIff` | src/kt_ringbuf.c:125-135 | a step of the ring as written is the intended step, whatever lies behind the ring, exactly when it copies nothing past the end |
| `RingAsWritten.SameRunEnds` | src/kt_ringbuf.c:95-286 | a run made of such steps ends in the intended state with the memory behind untouched |
| `RingAsWritten.AsWrittenRunIff` | src/kt_ringbuf.c:95-286 | over every run from rest to rest, with any number of threads, the ring as written does at each step what the intended ring does exactly when every claim has head mod size + n ≤ size |
| `RingAsWrittenFifo.AlikeRun` | src/kt_ringbuf.c:143-286 | with enqueues of one value, the ring as written makes the same claims as the intended ring in every run, and differs from it only in what dequeues read |
| `RingAsWrittenFifo.FifoAsWrittenIff` | src/kt_ringbuf.c:95-286 | over every run from rest to rest with enqueues of one value, as all are in this program: first in, first out holds as written, whatever lies behind the ring, exactly when every dequeue claim has head mod size + n ≤ size |
| `RingAsWrittenFifo.FifoFailsAsWritten` | src/kt_ringbuf.c:243-253 | in every ring of at least three slots one thread alone can break it |
| `RingBuf.Ring.constructor` | src/kt_ringbuf.c:4-33 | a new ring is empty and has room for count - 1 entries |
| `RingBuf.Ring.Count` | src/kt_ringbuf.c:40-46 | the number of entries |
| `RingBuf.Ring.MoveProdHead` | src/kt_ringbuf.c:59-93 | the head moves by the request clamped to the free room, after any number of spurious failures |
| `RingBuf.Ring.MoveConsHead` | src/kt_ringbuf.c:178-211 | the head moves by the request clamped to what is there |
| `RingBuf.Ring.EnqueueBurst` | src/kt_ringbuf.c:143-176 | as many values as fit are appended, in order |
| `RingBuf.Ring.DequeueBurst` | src/kt_ringbuf.c:261-291 | as many of the oldest values as asked for and there are removed, in order |
| `RingBuf.ContentsAreWindow` | src/kt_ringbuf.c:40-46 | at rest the object's contents are the step machine's window |
| `Heap.SiftUpOrders` | src/kt_queue.c:48-60 | sift-up restores heap order from one element too small |
| `Heap.SiftDownOrders` | src/kt_queue.c:90-122 | sift-down restores it from one element too large (as intended) |
| `Heap.DecreaseKeyCorrect` | src/kt_queue.c:78-88 | keeps the heap and replaces exactly one priority, or changes nothing |
| `Heap.InsertCorrect` | src/kt_queue.c:62-76 | keeps the heap and adds exactly one element |
| `Heap.ExtractMinCorrect` | src/kt_queue.c:124-143 | keeps the heap and removes exactly the root, which is least (as intended) |
| `Heap.ExtractMinAsWrittenContents` | src/kt_queue.c:90-143 | as written it still removes exactly the root |
| `HeapTheorems.DrainSorts` | src/kt_queue.c:124-143 | repeated extraction sorts the contents (as intended) |
| `HeapTheorems.SiftDownAsWrittenOrdersIff` | src/kt_queue.c:90-122 | heapify as written restores the order exactly when the element only has to sink through right children |
| `HeapTheorems.ExtractMinAsWrittenOrdersIff` | src/kt_queue.c:124-143 | extract_min as written leaves a heap exactly under that condition on the heap before the call |
| `HeapTheorems.ExtractMinAsWrittenHeadIff` | src/kt_queue.c:90-143 | extract_min as written leaves a least head exactly when the last element is not above the root's left child, or the right child is strictly below both |
| `HeapTheorems.AsWrittenLosesOrder` | src/kt_queue.c:110-113 | priorities 1, 2, 3, 10: after one extraction 10 is at the root |
| `HeapTheorems.SiftUpReachesRoot` | src/kt_queue.c:48-60 | an element below all others is carried all the way to the root |
| `HeapTheorems.DeletedRoot` | src/kt_queue.c:145-149 | which element delete_key brings to the root |
| `HeapTheorems.DeleteKeyCorrectIff` | src/kt_queue.c:145-150 | delete_key(i) keeps the heap, and removes exactly element i if and only if i is the root, all priorities exceed INT32_MIN (-2^31), or the root is indistinguishable from what is deleted (extraction as intended) |
| `HeapTheorems.DeleteKeyAsWrittenIff` | src/kt_queue.c:90-150 | as written it removes exactly element i under the same condition, and keeps the heap exactly when, after the decrease, the last element only has to sink through right children |
| `HeapTheorems.DeleteKeyAsWrittenLosesOrder` | src/kt_queue.c:110-150 | priorities 1, 2, 3, 10: deleting the root as written leaves 10 at the root |
| `PrioQueue.Queue.constructor` | src/kt_queue.c:4-12 | a new queue is empty |
| `PrioQueue.Queue.IsEmpty` | src/kt_queue.c:14-17 | true exactly when nothing is queued |
| `PrioQueue.Queue.GetMin` | src/kt_queue.c:42-45 | the root's priority, which is least in a heap |
| `PrioQueue.Queue.Reorder` | src/kt_queue.c:48-60 | the in-place loop performs sift-up and terminates |
| `PrioQueue.Queue.Decrease` | src/kt_queue.c:78-88 | performs decrease_key in place and keeps the heap |
| `PrioQueue.Queue.Add` | src/kt_queue.c:62-76 | -1 exactly when full, else one element more and still a heap |
| `PrioQueue.Queue.Heapify` | src/kt_queue.c:90-122 | the recursion performs sift-down and terminates (as intended) |
| `PrioQueue.Queue.HeapifyAsWritten` | src/kt_queue.c:90-122 | the recursion with both `else` branches |
| `PrioQueue.Queue.Extract` | src/kt_queue.c:124-143 | -1 exactly when empty, else the least element is removed and returned (as intended) |
| `PrioQueue.Queue.ExtractAsWritten` | src/kt_queue.c:124-143 | as written: the root is removed and returned, the other contents stay |
| `PrioQueue.Queue.Delete` | src/kt_queue.c:145-150 | keeps the heap; removes exactly element i under the condition above and no other (extraction as intended) |
| `PrioQueue.Queue.DeleteAsWritten` | src/kt_queue.c:145-150 | as written: removes exactly element i under the same condition |
| `PageSpec.FitFrom` | src/kt_alloc.c:108-118 | the lowest start of a free run, or none exactly when there is none |
| `PageSpec.ReserveKeeps` | src/kt_alloc.c:194-209 | taking a free run keeps list, mask, counter and reserved lengths in agreement |
| `PageSpec.ReleaseKeepsIff` | src/kt_alloc.c:218-255 | freeing keeps them in agreement exactly for free pages and block starts |
| `PageSpec.ReleaseUndoesReserve` | src/kt_alloc.c:194-255 | freeing the run just taken restores the exact state |
| `PageTheorems.RunIsCounted` | src/kt_alloc.c:175-180 | the early test of the counter never turns down a request that would fit |
| `PageTheorems.PagesNeededExact` | src/kt_alloc.c:171 | n pages are needed exactly when the request exceeds n - 1 pages and does not exceed n |
| `PageTheorems.ReserveUses` | src/kt_alloc.c:194-209 | taking a run makes exactly its pages used, in addition to those that were |
| `PageTheorems.ReleaseFrees` | src/kt_alloc.c:218-255 | freeing a block makes exactly its pages unused |
| `PageTheorems.AllocateFirstFit` | src/kt_alloc.c:164-216 | takes the lowest free run of the needed length (`PagesNeededExact` says which that is); fails exactly when there is none, and then changes nothing |
| `PageTheorems.AllocateSpans` | src/kt_alloc.c:164-216 | the block returned starts at the pointer, lies inside the memory, holds the size asked for and has less than a page to spare |
| `PageTheorems.NewBlockIsFresh` | src/kt_alloc.c:194-206 | a new block overlaps no live one |
| `PageTheorems.FreeUndoesAlloc` | src/kt_alloc.c:164-255 | freeing the pointer an allocation returned restores the exact prior state |
| `PageTheorems.DoubleFree` | src/kt_alloc.c:229-233 | freeing twice is freeing once |
| `PageTheorems.HistoryKeeps` | src/kt_alloc.c:164-255 | over every history: flags and mask agree, the counter counts free pages, free plus reserved is everything, live blocks are disjoint runs covering the used pages |
| `PageTheorems.SearchFindsFirstFit` | src/kt_alloc.c:119-162 | for at least one page the rounds of the search end, after at most one more than there are pages, with the lowest fit or none |
| `PageTheorems.ZeroPagesNeverEnds` | src/kt_alloc.c:127-158 | for zero pages every round resumes at the same page while a page is free |
| `PageTheorems.SearchEndsIff` | src/kt_alloc.c:119-162 | the search ends exactly when it looks for at least one page or no page is free |
| `PageAlloc.Allocator.constructor` | src/kt_alloc.c:57-75 | all pages free, list circular, state in agreement |
| `PageAlloc.Allocator.FirstFreeFrom` | src/kt_alloc.c:81-100 | the first free page from there on, or none |
| `PageAlloc.Allocator.FindAlignedPages` | src/kt_alloc.c:119-162 | wherever the search ends: the lowest fit, or none exactly when there is none; the jumps skip no fit |
| `PageAlloc.Allocator.AllocBytes` | src/kt_alloc.c:164-216 | wherever the search ends: performs the allocation in place and keeps the state in agreement; the block holds the request with less than a page to spare; a request for no bytes gets none |
| `PageAlloc.Allocator.TakeRun` | src/kt_alloc.c:194-209 | reserves a run in place |
| `PageAlloc.Allocator.MarkRun` | src/kt_alloc.c:196-200 | following `next` touches the same pages as counting indices |
| `PageAlloc.Allocator.FreePtr` | src/kt_alloc.c:218-255 | performs the free in place; agreement is kept exactly for free pages and block starts |
| `PageInit.SizePages` | src/kt_alloc.c:27-43 | the sizing loop ends for every pair of sizes, u32 wrap-around included |
| `PageInit.SizingExact` | src/kt_alloc.c:31-43 | without overflow: one page less than the most whose metadata fits, or failure exactly when that leaves none |
| `PageInit.OversizedPageWraps` | src/kt_alloc.c:27-43 | a page size above the memory size yields 2^32 - 1 pages |
| `PageInit.LayoutInOrder` | src/kt_alloc.c:47-55 | header, list, mask and aligned data area come in order and do not overlap |
| `PageInit.LayoutExact` | src/kt_alloc.c:47-55 | without overflow: the list 40 bytes after the base, the mask 576 bytes per page counted after the list, the data area at the first page boundary after the mask |
| `PageInit.InitContainedIff` | src/kt_alloc.c:18-64 | for all sizes and non-zero page sizes the initial test lets through, overflows and pages above the memory size included, in page-aligned memory: every page lies inside exactly when a page is not larger than the memory and holds header, doubled list and mask |
| `PageInit.DaemonMemoryOverruns` | ktsnd.c:232-250 | with the daemon's 1 MiB in pages of 4096: list, mask and data at base + 40, + 147496 and + 151552, and the last pages lie outside |
| `PageInit.RingStorageFitsIff` | ktsnd.c:254-256 | a ring asked for with element size 1 has room for its 8-byte entries exactly up to 496 of them |
| `SystemSteps.TxEnqueueHasRoom` | libktsn.c:337-342 | a sender's enqueue to the tx ring finds room, even among half-done calls of others |
| `SystemSteps.FreeEnqueueHasRoom` | ktsnd.c:408-409 | so does the daemon's enqueue to the free ring |
| `SystemSteps.InsertionHasRoom` | ktsnd.c:329 | and the insertion into the queue |
| `SystemSteps.StepKeeps` | ktsnd.c:319-423 | every step of every sender and of the daemon keeps the system invariant (ring copies as intended) |
| `SystemTheorems.InitKeeps` | ktsnd.c:252-271 | the state after set-up satisfies it |
| `SystemTheorems.Reachable` | ktsnd.c:252-423 | so does every state of every run (ring copies as intended) |
| `SystemRings.SetUpLeadsToInit` | ktsnd.c:256-261 | the set-up loop, run on the step machine of the empty free ring, leads to the state all runs start from |
| `SystemRings.FreeRuns` | libktsn.c:310 | what a run of the system does to the free ring is a run of the step machine |
| `SystemRings.TxRuns` | ktsnd.c:322 | what it does to the tx ring is one too |
| `SystemRings.SystemRunsOnRing32` | src/kt_ringbuf.c:59-286 | in every run of the system in which no thread is lapped, both rings with u32 counters and masks take the same steps and end in the corresponding states |
| `SystemRings.SameSeen` | src/kt_ringbuf.c:166-170 | what a caller learns from a ring call is the same with u32 counters |
| `SystemTheorems.EachIndexInOnePlace` | ktsnd.c:256-409 | in every reachable state each index is at exactly one place: free ring, one sender, tx ring, batch, queue, transmit step, return step, or lost (ring copies as intended) |
| `SystemTheorems.LossIsDrops` | ktsnd.c:374-379 | with drops as written the indices lost are as many as the packets dropped late; with drops recycled none is lost (ring copies as intended) |
| `SystemTheorems.LateDropsStarveSenders` | ktsnd.c:374-379 | with drops as written there are never more late drops than indices; once there are that many, the free ring is empty in every continuation and refuses who asks |
| `SystemTheorems.UncheckedCallsSucceed` | ktsnd.c:254-409 | in every reachable state the calls whose results are ignored find room (ring copies as intended) |
| `SystemTheorems.DeadlinesRespected` | ktsnd.c:334-384 | every packet sent was picked with 0 ≤ txtime - now ≤ 50000, every packet dropped had txtime < now |
| `SystemSends.AcceptedAreSends` | libktsn.c:299-345 | over every run from set-up, the messages accepted are, claim by claim, those handed to the last `sendmsg` of the claiming thread, and no two claims belong to one `sendmsg` (ring copies as intended) |
| `SystemSends.WireIsSends` | ktsnd.c:383-409 | over every run from set-up, each packet sent carries the payload and txtime handed to one `sendmsg` call, each late drop the txtime of one, and no call stands behind two packets, or behind a packet and a drop (ring copies as intended) |
| `SystemOrder.StepOrderIff` | ktsnd.c:325-384 | from a heap, a step of the system leads to a heap exactly when it sinks well |
| `SystemOrder.AlwaysHeapIff` | ktsnd.c:319-423 | the queue is a heap in every state of a run exactly when every extraction in it sinks well, a condition on the queue before the extraction |
| `SystemOrder.SoundSinksWell` | src/kt_queue.c:90-122 | with heapify as intended every run sinks well |
| `SystemOrder.WaitIsSafeIff` | ktsnd.c:369-372 | waiting for the head never passes over a packet that is due or late exactly when the head is least or never waited for |
| `SystemOrder.WaitAfterExtractionIff` | ktsnd.c:369-384 | after an extraction as written, exactly under a condition on the root's children and the last entry before it |
| `SystemOrder.WaitsOnlyWhenNothingIsDue` | ktsnd.c:369-372 | in every state of a run that sinks well the head is least, and the loop waits only when no queued packet is due or late |
| `SystemOrder.EarliestDeadlineFirst` | ktsnd.c:325-384 | in a run that sinks well packets leave the queue in deadline order between insertions |
| `SystemLeaving.NeverReturns` | ktsnd.c:374-409 | a message that has left the queue is never in it again |
| `SystemLeaving.LeavesFairlyIff` | ktsnd.c:369-384 | a step lets messages leave in deadline order exactly when it extracts nothing or a least entry, whichever form heapify has |
| `SystemLeaving.SinkingTakesLeast` | src/kt_queue.c:90-143 | a run that sinks well extracts least entries only |
| `SystemLeaving.QueuedTogetherLeaveInOrder` | ktsnd.c:325-409 | in a run whose extractions all find a least head, of two messages queued at one moment, if later one has left (sent or dropped) and the other has not, the one that left has the earlier or equal deadline, whatever was inserted meanwhile |
| `SystemFailing.AsWrittenWaitsPastDeadline` | ktsnd.c:369-372 | as written, for every ring size with three indices or more and every starting time at least a millisecond below the largest, some run from set-up comes to wait while a queued packet is due |
| `SystemAsWritten.SameSysStepIff` | ktsnd.c:322 | a step of the system as written is the intended one, whatever lies behind the rings, exactly when it is not a copy past the end while polling |
| `SystemAsWritten.SameSysRunEnds` | ktsnd.c:319-423 | a run of such steps ends in the intended state with the memory behind the rings untouched |
| `SystemAsWritten.AsWrittenSystemIff` | ktsnd.c:319-423 | over every run from set-up to a moment at which the daemon is not polling, the system as written does at each step what it should exactly when every burst claimed has head mod size + n ≤ size |
| `SystemFailing.AsWrittenQueuesFreeIndex` | ktsnd.c:322-330 | as written, for every ring size with three indices or more, some run from set-up has the daemon queue an index that is free at the same time |
| `SystemBag.SystemRefinesBag` | libktsn.c:309-344 | every step of the system is one step of a bag of timed messages (one taken in, one pending sent unchanged, one pending dropped late) or leaves it alone (ring copies as intended) |
| `SystemBag.SystemRunsAreBagRuns` | ktsnd.c:319-423 | from set-up, seen as the empty bag, every run of the system is a run of the bag (ring copies as intended) |
| `SystemBag.SentOnceUnchanged` | ktsnd.c:383-409 | over every run each packet sent is one accepted message with its payload and txtime, none is sent twice, none both sent and dropped (ring copies as intended) |
| `SystemBag.UnderwayUndisturbed` | libktsn.c:357-389 | from acceptance to the end of its transmission no step touches a message's buffer or metadata |
| `SystemBag.OwnStoreUnseen` | libktsn.c:328-328 | the size entry a sender stores is one that neither the daemon nor another sender is using |
| `SystemBag.PayloadStaysInsideIff` | libktsn.c:323-325 | a copy leaves the other buffers alone exactly when it is at most 2048 bytes long |
| `SystemBag.GuardsNeverBlock` | ktsnd.c:322-409 | wherever the code does not wait for another thread the next step is possible: no index, id or offset used is ever out of range, an idle sender can always start a call and the daemon its poll for 8 |
| `Runtime.FillWithIndices` | ktsnd.c:257-261 | the free ring ends up with every index once, in order |
| `Runtime.Shared.constructor` | ktsnd.c:252-271 | set-up: an empty tx ring, a free ring with every index, one buffer per index |
| `Runtime.Shared.SendMsg` | libktsn.c:309-344 | -ENOBUFS and nothing changed without a free index; otherwise the first free index holds the message, no other buffer is touched, and the index is on the tx ring |
| `Runtime.Shared.CopyPayload` | libktsn.c:323-325 | the payload goes into the buffer of its index and nowhere else |
| `Runtime.InsertAllKeeps` | ktsnd.c:323-331 | queueing a burst keeps the heap |
| `Runtime.InsertAllGains` | ktsnd.c:323-331 | queueing a burst adds, as long as there is room, each of its indices under that index's own txtime, and nothing else |
| `Runtime.Scheduler.TakeBurst` | ktsnd.c:321-331 | the oldest tx entries, at most 8, leave the tx ring in order and are queued, each under its own txtime |
| `Runtime.Scheduler.Dispatch` | ktsnd.c:334-411 | waits, drops or sends by the head's deadline and 50000 ns, with the payload that goes out, the counter, and what returns to the free ring |
| `Runtime.Scheduler.Round` | ktsnd.c:319-423 | one pass of the loop: what is queued and under which txtime, when it waits, drops or sends, the payload sent is the buffer's, the counter counts sends; when it does nothing no queued packet is due or late (heapify as intended) |

## Left out

- DPDK set-up and transmission, packet headers (`prepare_packet`), a failing `rte_pktmbuf_alloc`, and signals: calls into other code and straight-line field writes.
- Shared-memory mapping and the clock: system calls; clock readings are inputs.
- Socket interposition, interface discovery and the lists in `libktsn.c`: plumbing; the sending path starts once the interface is known.
- Metadata other than txtime and size (addresses, ports, transport): copied and never computed with.
- `ktsnd_socket.c`, `src/kt_mempool.c`, `src/kt_logger.c`, `apps/`, scripts: variants and code without logic of this kind.
- Weak memory orders and fairness of the spin loops.
- The out-parameters `free_space` and `available`, which every caller passes as NULL, and the assertion for element sizes other than 8.
- Transmission times of 2^63 and above, which the daemon would read as negative.
- A system state with u32 counters: `System` is built on the unbounded ring, and `SystemRunsOnRing32` carries the refinement to the rings of its runs.
- Bursts that pass the end of the ring as written, inside `System`: a burst there copies slot by slot as intended; `AsWrittenSystemIff` says for which runs that is no difference.
- SystemSteps.StepKeeps: ring copies as intended.
- SystemTheorems.Reachable: ring copies as intended.
- SystemTheorems.EachIndexInOnePlace: ring copies as intended; `AsWrittenQueuesFreeIndex` shows where they are not.
- SystemTheorems.UncheckedCallsSucceed: ring copies as intended.
- SystemBag.SystemRefinesBag: ring copies as intended.
- SystemBag.SystemRunsAreBagRuns: ring copies as intended.
- SystemBag.SentOnceUnchanged: ring copies as intended.
- SystemTheorems.LossIsDrops: the drop is as written, the ring copies are as intended.
- Ring32.EnabledAgrees: threads overtaken by 2^32 positions between a load and its use; `StaleCasSucceedsIff` says what happens to them.
- Ring32.StepAgrees: the same threads.
- Ring32.RunAgrees: runs with such threads.
- Ring32.Fifo32: runs with such threads.
- RingBuf.Ring.constructor: sizes that are powers of two; the code takes any, and `MaskIsRemainderIff` says that no other works.
- RingBuf.Ring.MoveProdHead: one call at a time; a head moved by others is in `RingMachine`.
- RingBuf.Ring.MoveConsHead: one call at a time, as above.
- RingBuf.Ring.EnqueueBurst: one call at a time, so the wait for the turn to publish is not seen; interleavings are in `RingMachine`.
- RingBuf.Ring.DequeueBurst: one call at a time, as above.
- Runtime.Shared.constructor: sizes that are powers of two.
- Runtime.Shared.SendMsg: one call at a time; interleaved senders are in `System`. The payload is at most 2048 bytes, which the code does not test.
- Runtime.Shared.CopyPayload: payloads of at most 2048 bytes; `PayloadStaysInsideIff` says what longer ones do.
- Runtime.Scheduler.TakeBurst: no sender runs during the call; interleavings are in `System`.
- Runtime.Scheduler.Dispatch: no sender runs during the call.
- Runtime.Scheduler.Round: no sender runs during the pass.
- PageAlloc.Allocator.FindAlignedPages: zero pages while a page is free; there the search does not end (`SearchEndsIff`).
- PageAlloc.Allocator.AllocBytes: requests of no bytes while a page is free, for the same reason.
- PageAlloc.Allocator.FreePtr: pointers into the data area only; the code follows any other pointer outside its page list.
- PageInit.SizingExact: counts whose metadata does not overflow 32 bits.
- PageInit.LayoutInOrder: the same bound; with overflow the wrapped list size may be too small for the list.
- PageInit.InitContainedIff: memory that starts on a page boundary, as a mapping does; a page size of 0 passes the test and then divides by zero.
- RingAsWrittenFifo.FifoAsWrittenIff: enqueues of one value, which are the only ones the program makes; a longer one written past the end and read from the same head comes back intact.

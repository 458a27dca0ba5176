# Market data pipeline: verified model

A Dafny model of the pipeline that carries market data from raw frames to order books, and of the lock-free
memory pool and ring beneath it. `dafny verify dfyconfig.toml` checks the whole project.

The model has four layers.

**Memory pool.** `TaggedLinks` holds the facts about chains of in-block links. `FreeListSteps` is the global free list
under any number of threads, one step per atomic load, store or compare-exchange, with spurious failures, clients that
overwrite their blocks at will, and pops that read a word another client owns; `FreeListCalls` says what each call of
a thread comes to. `MemoryPool` is the same list as an object with no other thread running, loops as written.
`CacheSpec` and `ThreadCache` are the per-thread caches in front of it. `CacheSteps` runs the caches of any number of
threads in every interleaving, with each refill, flush and shrink taken apart into its single calls of the pool.

**Ring.** `RingMath` is the arithmetic of power-of-two capacities, masks and wrapping counters. `RingSteps` is the
producer and the consumer as two threads, with copies of items that take two steps; `RingCalls` says what each call
comes to. `SpscRing` is the ring object.

**Order book.** `BookLevels` says what one side means: a map from price to quantity, with rank, best price, n-th
price, top levels and total. `BookSides` is the tree, the hash index, the cached n-th price and the pooled nodes,
`OrderBooks` the two sides with the cached top of book. The tree is a sequence kept in comparator order, the hash a
map to the same node objects.

**Reconciliation and pipeline.** `Reconciliation` states what the order book manager does with each message, on
values, and what that guarantees against the exchange's true history; `Sequencing` says what gaps and repetitions do,
in update ids alone, and what the counters tell. `OrderBookManagers` is the manager object, proved to do exactly that.
`Messages` and `Parsers` are the parser object and what it hands over. `Pipeline` interleaves connector, parser and
manager, one step per operation on a queue, a pool or a counter, with the content of the messages; that one call of a
queue or pool may count as one step is what `RunsAreBoundedFifo` and `RunsAreAtomicStack` show of the layers below.

`PriceText` is the conversion between prices and decimal text, on 64-bit integers that are proved not to overflow.

## What the code does where its comments say otherwise

- `affects_top_n` compares with the zero sentinel once: in the insert that makes a side exactly N deep, because the
  cached price is refreshed only afterwards (src/orderbook/book_side.hpp:263-271). The comment at line 516 says the
  sentinel is never used there. `FlagIsRank` gives the exact family of wrong answers; on the ask side it is every such
  insert at a positive price, and `FirstAskIsMissed` is one run of it.
- `CacheConfig` promises a shrink threshold below the cache size (src/core/memory_pool.hpp:94-100); `MakeConfig` shows
  that this holds exactly when two slots or more are asked for.
- `maybe_shrink_cache` subtracts a larger unsigned number from a smaller one (src/core/memory_pool.hpp:399-400);
  `ShrinkReturnsHalfBatch` shows that the wrapped value never decides.
- `size()` does not give the number of items while operations are in progress, because each counter is stored after its
  slot is published. At any one moment the counters differ by the number of items exactly when both threads or neither
  are between their two stores (`StoredSize`), and -1 is possible (`SizeCanReadMinusOne`). A thread loads the two
  counters at different moments and reads that much lower as pops have stored in between (`SizeReadExactly`); the result
  before wrapping can be -n for any n (`SizeCanBeFarOff`).
- `allocate_raw_batch` can take the head tag back to an earlier value (`BatchAllocationLowersTag`).
- `validate_hash_coherence` cannot fail in its second loop: the iterator made from a node always leads back to that node
  (src/orderbook/book_side.hpp:640-648). `ValidatedIndex` says what the first loop alone establishes.
- Sequence checking ignores a repeated delta, except at the largest id, where it takes it for a gap
  (`RepeatChangesNothing`).
- The parser keeps the raw frame when no message can be allocated (`FailedAllocationKeepsTheFrame`).

## Model

| member | source | states |
|---|---|---|
| TaggedLinks.ChainUnique | src/core/memory_pool.hpp:704-723 | two null-terminated chains from the same head are the same chain, so "the free list" is well defined by memory and head |
| TaggedLinks.ChainAcyclic | src/core/memory_pool.hpp:704-723 | a null-terminated chain visits no block twice |
| FreeListSteps.InitInv | src/core/memory_pool.hpp:704-723 | the list as built is the chain of all blocks in address order with no thread holding any |
| FreeListSteps.AbaSafety | src/core/memory_pool.hpp:842-859 | when the compare-exchange of a pop succeeds, the successor it read earlier is the true successor now, whatever happened to that word in between |
| FreeListSteps.PopStep | src/core/memory_pool.hpp:842-857 | a successful pop takes exactly the top block off the free stack and keeps every invariant |
| FreeListSteps.PushStep | src/core/memory_pool.hpp:974-984 | a successful single or batch push puts exactly its blocks, in order, on top of the free stack |
| FreeListSteps.ClientWriteStep | src/core/memory_pool.hpp:844-856 | a client overwriting a block it owns with any word disturbs no other thread and not the free list |
| FreeListSteps.BuildStep | src/core/memory_pool.hpp:954-967 | making free nodes of the arguments touches only blocks of the running thread; null and foreign pointers are skipped |
| FreeListSteps.StepRefines | src/core/memory_pool.hpp:837-985 | every step of any thread is one step (often none) of an atomic stack and keeps all invariants |
| FreeListSteps.RunsAreAtomicStack | src/core/memory_pool.hpp:837-985 | every interleaving of allocations, deallocations and batch deallocations replays on an atomic stack |
| FreeListSteps.NoBlockLostOrShared | src/core/memory_pool.hpp:837-985 | in every reachable state the chain from the head is finite and free of repetition, and it and the threads' blocks partition the pool |
| FreeListSteps.LoadOf | src/core/memory_pool.hpp:838-859 | every head value that a thread remembers is one that it loaded at a definite moment, with no compare-exchange of its own since |
| FreeListSteps.TagCountsWins | src/core/memory_pool.hpp:853-859 | over steps without a compare-exchange of one thread the tag grows by the number of other threads' successes, and the head is unchanged exactly when there were none |
| FreeListSteps.CasFailsIffAnotherWon | src/core/memory_pool.hpp:853-859 | in every reachable state a compare-exchange that does not fail spuriously succeeds exactly when no other thread has succeeded since this one loaded the head |
| FreeListSteps.CountNotNegative | src/core/memory_pool.hpp:853-889 | the allocation counter is never below zero in a state satisfying the invariants |
| FreeListSteps.AllocatedCount | src/core/memory_pool.hpp:853-985 | in every interleaving the counter is blocks off the list, less pops not yet counted, plus pushed blocks not yet counted; exact at rest |
| FreeListSteps.PointerAloneWouldBeUnsafe | src/core/memory_pool.hpp:850-859 | a reachable state where a pop holds a junk successor and the head pointer is the expected one: only the tag makes the exchange fail |
| FreeListCalls.NullOnlyWhenEmpty | src/core/memory_pool.hpp:842-862 | a step of an allocation ends it without a block if and only if the list is empty at that step; a lost or spurious exchange on a non-empty list goes round the loop with the new head |
| FreeListCalls.AllocationsAreAnswered | src/core/memory_pool.hpp:837-862 | in every interleaving each allocation a thread has begun has got exactly one answer, a block or an empty list, except the one still searching |
| FreeListCalls.AllocationHasOneAnswer | src/core/memory_pool.hpp:837-862 | from its first load to its end an allocation gets exactly one answer |
| FreeListCalls.AnsweredBlockIsGranted | src/core/memory_pool.hpp:853-857 | the client gets the block of that answer, which it did not hold |
| FreeListCalls.DeallocationsArePublished | src/core/memory_pool.hpp:865-985 | in every interleaving what a thread has put on the list is, call by call, the valid arguments of its deallocations in order, each call at one moment; an idle thread owes nothing |
| MemoryPool.MemoryPool.constructor | src/core/memory_pool.hpp:704-723 | the initialising loop links all blocks in address order; head tag 1 |
| MemoryPool.MemoryPool.AllocateRaw | src/core/memory_pool.hpp:837-862 | pops the head block and raises the tag by one, or returns null exactly on an empty list; spurious failures change nothing |
| MemoryPool.MemoryPool.DeallocateRaw | src/core/memory_pool.hpp:865-890 | pushes the block, writes only its link, raises the tag by one; ignores null and foreign pointers |
| MemoryPool.MemoryPool.AllocateRawBatch | src/core/memory_pool.hpp:900-941 | takes min(count, free) blocks from the front in order; the head becomes the word stored in the last of them; the tag rises exactly when that word has the larger tag |
| MemoryPool.MemoryPool.Collect | src/core/memory_pool.hpp:926-933 | copies out the taken blocks in list order and nothing else |
| MemoryPool.MemoryPool.BuildBatch | src/core/memory_pool.hpp:949-967 | links the caller's own blocks in argument order, touching no other block |
| MemoryPool.MemoryPool.Publish | src/core/memory_pool.hpp:973-984 | puts the linked run above the old list with one tag increment |
| MemoryPool.ValidBlocksHead | src/core/memory_pool.hpp:949-967 | a list headed by the valid arguments has each owned argument at the place given by the number of owned arguments before it, nothing else in front of the old list |
| MemoryPool.MemoryPool.DeallocateRawBatch | src/core/memory_pool.hpp:944-985 | the list becomes the owned arguments, each once and in argument order, then the old list; all other words unchanged |
| MemoryPool.TakeOneByOne | src/core/memory_pool.hpp:837-862 | single allocations into an array take the blocks from the front of the list in order until the array is full or the list empty |
| MemoryPool.BatchIsRepeatedPop | src/core/memory_pool.hpp:900-941 | on two pools with the same list one batch allocation and repeated single allocations return the same blocks in the same order and leave the same list |
| MemoryPool.BatchRoundTrip | src/core/memory_pool.hpp:900-985 | a batch deallocation followed by a batch allocation of its size returns the valid arguments in order and restores the list; the words of all other blocks are as before |
| MemoryPool.SinglesReverse | src/core/memory_pool.hpp:865-890 | blocks given back by single deallocations lie on the list in opposite order |
| MemoryPool.BatchAllocationLowersTag | src/core/memory_pool.hpp:920-925 | a run of the object in which a batch allocation makes the head tag smaller |
| CacheSpec.MakeConfig | src/core/memory_pool.hpp:83-101 | the clamping constructor: a legal request is kept as asked, a size or batch above its maximum becomes the maximum, a batch that does not fit becomes half the cache; bounds on every field; threshold below the cache size exactly when two slots or more are asked for |
| CacheSpec.ShrinkReturnsHalfBatch | src/core/memory_pool.hpp:390-409 | although its subtraction wraps, a shrink returns half a batch or nothing and never more than is cached |
| CacheSpec.RefillMoves | src/core/memory_pool.hpp:347-367 | a refill moves the least of a batch, the room and what the list has, from the front of the list to the top of the cache |
| CacheSpec.GiveBackMoves | src/core/memory_pool.hpp:370-387 | giving back moves that many blocks from the top of the cache to the front of the list |
| CacheSpec.AllocateTakes | src/core/memory_pool.hpp:455-480 | an allocation takes the block at the boundary of cache and list, after a refill if the cache was empty; everything else keeps its order; a refused one changes nothing |
| CacheSpec.DeallocateMoves | src/core/memory_pool.hpp:483-519 | a deallocation puts the block on top; of a full cache the lesser of a batch and what is cached goes to the list first; an elapsed shrink check gives back half a batch exactly between batch and threshold |
| CacheSpec.FreedIsNext | src/core/memory_pool.hpp:455-519 | what is given back last is handed out first, across store, bypass and flush, and the rest keeps its order |
| CacheSpec.DepletedOnlyWhenEmpty | src/core/memory_pool.hpp:455-480 | depletion is signalled exactly when the caller's cache and the global list are both empty (null instead, for a pool without caches) |
| CacheSpec.RefillKeeps | src/core/memory_pool.hpp:347-367 | a refill moves blocks between list and cache without losing or copying any, and stays within the cache size |
| CacheSpec.GiveBackKeeps | src/core/memory_pool.hpp:370-387 | a flush or shrink conserves every block |
| CacheSpec.AllocateKeeps | src/core/memory_pool.hpp:455-480 | an allocation takes out exactly the granted block; the cache stays within its size |
| CacheSpec.DeallocateKeeps | src/core/memory_pool.hpp:483-519 | a deallocation puts in exactly the given block, also across a shrink or a flush; the cache stays within its size |
| CacheSteps.BeginMoves | src/core/memory_pool.hpp:455-519 | the first step of an operation keeps every block where it was, hands it to the client, or takes it from the client, and uses no slot outside the cache |
| CacheSteps.ContinueMoves | src/core/memory_pool.hpp:347-574 | every later step exchanges at most one block with the pool, counted in a filled slot not yet in current_size_, or no longer counted in a slot already given back |
| CacheSteps.DepletionFoundNothing | src/core/memory_pool.hpp:354-366 | an allocation reports depletion exactly when its refill obtained nothing and its cache is empty, and a refill that obtains nothing has met an empty pool |
| CacheSteps.StepKeeps | src/core/memory_pool.hpp:347-574 | every step of any thread keeps each block in exactly one of pool, a thread's slots, a running operation and client hands, and every current_size_ within the cache size |
| CacheSteps.CachesConserveBlocks | src/core/memory_pool.hpp:347-574 | so does every interleaving of any number of threads' allocations, deallocations, refills, shrinks, flushes and final flushes, from a new pool |
| CacheSteps.AloneIsAllocate | src/core/memory_pool.hpp:455-480 | without another thread in between, the steps of an allocation are the specified allocation |
| CacheSteps.AloneIsDeallocate | src/core/memory_pool.hpp:483-519 | likewise those of a deallocation, with shrink or flush |
| CacheSteps.AloneIsFlushAll | src/core/memory_pool.hpp:562-574 | and those of emptying the cache |
| ThreadCache.ThreadLocalCache.RefillFromGlobal | src/core/memory_pool.hpp:347-367 | the refill loop computes the specified refill; one miss is counted |
| ThreadCache.ThreadLocalCache.ObtainBlocks | src/core/memory_pool.hpp:354-363 | the loop takes blocks from the front of the list into the slots above the cached ones until enough or empty |
| ThreadCache.ThreadLocalCache.FlushToGlobal | src/core/memory_pool.hpp:370-387 | a batch from the top of the cache ends up on the list in cache order |
| ThreadCache.ThreadLocalCache.MaybeShrinkCache | src/core/memory_pool.hpp:390-409 | returns the specified amount when the interval has elapsed, nothing otherwise; no slot is indexed outside the cache |
| ThreadCache.ThreadLocalCache.FlushAllToGlobal | src/core/memory_pool.hpp:562-574 | the cache is emptied onto the list in cache order |
| ThreadCache.ThreadLocalCache.AllocateRaw | src/core/memory_pool.hpp:455-480 | hot path, refill and depletion together compute the specified allocation; the operation and miss counters rise exactly as in the source |
| ThreadCache.ThreadLocalCache.AllocateCold | src/core/memory_pool.hpp:464-479 | the path with an empty cache |
| ThreadCache.ThreadLocalCache.DeallocateRaw | src/core/memory_pool.hpp:483-519 | store, periodic shrink, bypass and flush together compute the specified deallocation |
| RingMath.RoundUpIsLeast | src/core/spsc_ring.hpp:64-70 | the rounded capacity is the least power of two that holds the request, and at least 2 |
| RingMath.MaskIsMod | src/core/spsc_ring.hpp:138-139 | masking a sequence number is taking it modulo the capacity |
| RingMath.WrapKeepsIndex | src/core/spsc_ring.hpp:138-139 | the slot index can be taken from the counter modulo 2^64 |
| RingSteps.CheckDecides | src/core/spsc_ring.hpp:141-145 | the sequence checks of push and pop mean "not full" and "not empty", because the capacity is at least 2 |
| RingSteps.NoSlotShared | src/core/spsc_ring.hpp:147-185 | no slot is read while it is being written |
| RingSteps.StepRefines | src/core/spsc_ring.hpp:137-192 | every atomic step is a legal step of a bounded queue |
| RingSteps.RunsAreBoundedFifo | src/core/spsc_ring.hpp:137-192 | in every interleaving the popped items are a prefix, in order, of the accepted ones; refusals happen exactly when full or empty; no torn read |
| RingSteps.DeliveredInOrder | src/core/spsc_ring.hpp:137-192 | accepted items are delivered items followed by the queue, for any legal event history |
| RingCalls.PushesAreAnswered | src/core/spsc_ring.hpp:137-154 | in every interleaving each push begun is answered once and in order, by its own item accepted or by a refusal, except the one still open |
| RingCalls.PopsAreAnswered | src/core/spsc_ring.hpp:174-192 | in every interleaving each pop begun is answered once, except the one still open |
| RingSteps.StoredDifference | src/core/spsc_ring.hpp:147-204 | head minus tail is the number of items, less one while a push is between its two stores, plus one while a pop is |
| RingSteps.StoredSize | src/core/spsc_ring.hpp:200-204 | in every run: the stored counters differ by the number of items if and only if both threads or neither are between their two stores; negative if and only if the queue is empty and only the producer is; from -1 to capacity + 1 |
| RingSteps.SizeReadExactly | src/core/spsc_ring.hpp:200-204 | size() with its two loads at different moments: what it reads exactly, and that it is the number of items at the first load if and only if the pops stored in between make up for the open operations; at most capacity + 1 |
| RingSteps.SizeCanBeFarOff | src/core/spsc_ring.hpp:200-204 | for every capacity and n a run in which size() computes -n |
| RingSteps.WrappingIsInvisible | src/core/spsc_ring.hpp:138-189 | with all counters modulo 2^64 the ring has the same runs and the same outcomes as with unbounded counters |
| RingSteps.SizeCanReadMinusOne | src/core/spsc_ring.hpp:200-204 | a run after which the stored head is one behind the stored tail |
| RingSteps.OneSlotOverwrites | src/core/spsc_ring.hpp:64-66 | with one slot the same code would overwrite an unread item |
| SpscRing.Ring.constructor | src/core/spsc_ring.hpp:100-121 | an empty ring of the rounded capacity, each slot numbered by its index |
| SpscRing.Create | src/core/spsc_ring.hpp:100-109 | a request above the maximum is refused, any other gives a ring |
| SpscRing.Ring.TryPush | src/core/spsc_ring.hpp:137-154 | appends the item, or refuses exactly when full, after any history of the wrapping counters |
| SpscRing.Ring.TryPop | src/core/spsc_ring.hpp:174-192 | removes the oldest item, or refuses exactly when empty and leaves the caller's variable alone |
| SpscRing.Ring.Size | src/core/spsc_ring.hpp:200-204 | with no operation in progress, the number of items |
| PriceText.ParseInteger | src/core/price.hpp:185-193 | the digit loop gives the value of the digits, ignoring other characters, without overflow |
| PriceText.ParseFraction | src/core/price.hpp:195-208 | the first nine digits count, the rest are dropped |
| PriceText.PadFraction | src/core/price.hpp:213-217 | scales the fraction to nine places without overflow |
| PriceText.FromString | src/core/price.hpp:170-227 | computes the specified number with no intermediate overflow whenever the result fits |
| PriceText.Int64ToString | src/core/price.hpp:105-122 | the decimal digits of any value but the least |
| PriceText.ToString | src/core/price.hpp:300-336 | computes the specified text with no overflow for any value but the least |
| PriceText.PadAndTrim | src/core/price.hpp:322-330 | nine digits with leading zeros, then no trailing zeros |
| PriceText.RoundTrip | src/core/price.hpp:170-336 | reading back what was printed gives the same raw value, for every value but the least |
| PriceText.PrintInjective | src/core/price.hpp:300-336 | different prices print differently |
| PriceText.ParseTruncates | src/core/price.hpp:170-227 | a decimal number of any length is parsed to its value times 10^9 truncated toward zero |
| PriceText.ParseMonotone | src/core/price.hpp:170-227 | a larger decimal number is never parsed to a smaller price |
| PriceText.JunkIsIgnored | src/core/price.hpp:170-227 | any text reads as the number made of a leading minus sign, the digits before the first point and the digits after it |
| PriceText.PrintIsCanonical | src/core/price.hpp:300-336 | the printed text has no superfluous zero on either side, one to nine fraction digits and a point exactly when the price is not whole, and a sign exactly when it is negative |
| PriceText.PrintIsShortest | src/core/price.hpp:300-336 | no decimal number with a digit before the point that reads as the same price has fewer characters |
| BookLevels.RankIsPosition | src/orderbook/book_side.hpp:359-368 | in comparator order the place of a price is the number of better levels |
| BookLevels.TopUnique | src/orderbook/book_side.hpp:409-423 | the best n levels are one list only, in comparator order |
| BookLevels.NthOfList | src/orderbook/book_side.hpp:600-610 | the n-th entry, or the zero sentinel, is the n-th best price of the map |
| BookLevels.ComparisonIsRank | src/orderbook/book_side.hpp:479-495 | comparing with the n-th price decides whether any price, stored or not, ranks among the best n |
| BookLevels.FlagIsRank | src/orderbook/book_side.hpp:255-271 | the reported flag is "ranks among the best n" except exactly for the insert that fills the n-th place at a price worse than zero |
| BookLevels.DeepUpdateKeepsTop | src/orderbook/book_side.hpp:425-495 | an update ranking below the best n leaves the best n levels as they are |
| BookLevels.ShallowUpdateChangesTop | src/orderbook/book_side.hpp:425-495 | an update ranking among the best n that changes a quantity changes them |
| BookLevels.FlagTellsTopChange | src/orderbook/book_side.hpp:425-495 | outside the sentinel family the flag says exactly whether the best n levels change |
| BookLevels.FlagIsSameTop | src/orderbook/book_side.hpp:425-495 | outside the sentinel family the flag of an update that changes a quantity is true exactly when no list is the best n levels both before and after |
| BookLevels.InsertKeepsNth | src/orderbook/book_side.hpp:263-271 | after an insert that does not ask for a refresh the cached n-th price is still right; the flag computed with the stale price is the reported one |
| BookLevels.RemoveKeepsNth | src/orderbook/book_side.hpp:282-305 | after a removal that does not ask for a refresh the cached n-th price is still right |
| BookLevels.TotalApply | src/orderbook/book_side.hpp:233-324 | an update changes the total quantity by the change of its level |
| BookLevels.DeltasSumToTotal | src/orderbook/book_side.hpp:260-313 | over any run of updates with quantities below 2^63 the changes of the levels add up to the change of the total |
| BookSides.SameNodes | src/orderbook/book_side.hpp:630-651 | tree, hash index and held nodes are the same node objects, each once |
| BookSides.InsertStructured | src/orderbook/book_side.hpp:247-258 | inserting a node in tree and index keeps both in step with the map and in strict order |
| BookSides.RemoveStructured | src/orderbook/book_side.hpp:284-293 | erasing a node from tree and index keeps both in step with the map and in strict order |
| BookSides.BookSide.AffectsTopNIsRank | src/orderbook/book_side.hpp:479-495 | in a valid state affects_top_n is true exactly for prices with fewer than N better levels |
| BookSides.BookSide.CachedPriceIsNth | src/orderbook/book_side.hpp:600-610 | in a valid state the cached price is the N-th best price of the map, zero when there are fewer |
| BookSides.BookSide.UpdateNthPrice | src/orderbook/book_side.hpp:600-610 | recomputes the cached price from the tree |
| BookSides.ReportTells | src/orderbook/book_side.hpp:233-324 | the reported result against the levels before and after: new and deleted levels, the delta as the change of the total quantity, the flag as a change of the best levels |
| BookSides.BookSide.ApplyUpdate | src/orderbook/book_side.hpp:233-324 | the side then stands for the updated map; what it returns tells whether a level came or went, by how much the total quantity changed, and outside the sentinel family whether the best N levels changed; surviving prices keep their node; nodes come from and go to the pool exactly, and only come or only go |
| BookSides.ApplyUpdates | src/orderbook/book_side.hpp:260-313 | over any run of updates with quantities below 2^63 the deltas that the side returns add up to the change of its total quantity |
| BookSides.FirstAskIsMissed | src/orderbook/book_side.hpp:263-271 | on a new ask side that tracks one level the first insert becomes the best level and is reported as not affecting it |
| BookSides.BookSide.InsertLevel | src/orderbook/book_side.hpp:240-271 | the branch that creates a level |
| BookSides.BookSide.EraseLevel | src/orderbook/book_side.hpp:278-305 | the branch that deletes a level |
| BookSides.BookSide.ChangeLevel | src/orderbook/book_side.hpp:307-320 | the branch that changes a quantity in place |
| BookSides.BookSide.Clear | src/orderbook/book_side.hpp:498-517 | empties the side and returns exactly its nodes; the index entry looked for is always there |
| BookSides.BookSide.SetTopNDepth | src/orderbook/book_side.hpp:535-538 | changes the depth and refreshes the cached price |
| BookSides.BookSide.GetTopN | src/orderbook/book_side.hpp:409-423 | returns the best n levels of the map: entry i has exactly i better levels |
| BookSides.BookSide.KthLevel | src/orderbook/book_side.hpp:359-368 | the level with exactly k better ones, or null when there are not that many |
| BookSides.BookSide.BestIsBest | src/orderbook/book_side.hpp:327-329 | the first node carries the best price and its quantity; there is none exactly when the map is empty |
| BookSides.BookSide.Find | src/orderbook/book_side.hpp:546-549 | the node of a stored price with its quantity, null for any other |
| BookSides.BookSide.ValidateOrder | src/orderbook/book_side.hpp:612-628 | comparing neighbours decides the strict order of the whole tree |
| BookSides.BookSide.ValidateIndex | src/orderbook/book_side.hpp:630-638 | true exactly when the index finds every node of the tree |
| BookSides.ValidatedIndex | src/orderbook/book_side.hpp:630-651 | after both checks the index is free of stale entries exactly when it has the size of the tree |
| OrderBooks.TopIsUnique | src/orderbook/order_book.hpp:461-469 | two sides have one top of book |
| OrderBooks.PointersShowChange | src/orderbook/order_book.hpp:219-225 | comparing node addresses and quantities sees exactly the changes of the best price and quantity, for nodes that existed together |
| OrderBooks.UpdateShowsChange | src/orderbook/order_book.hpp:209-225 | so it does across any update, although the pool may use addresses again |
| OrderBooks.OrderBook.Notice | src/orderbook/order_book.hpp:215-232 | after the update the tops are read again; the result is true exactly when the cached top changes value, which is then right |
| OrderBooks.OrderBook.constructor | src/orderbook/order_book.hpp:179-183 | two empty sides of the given depth and an empty top |
| OrderBooks.OrderBook.UpdateCachedTob | src/orderbook/order_book.hpp:461-469 | the cached top is the one computed from both sides |
| OrderBooks.OrderBook.Update | src/orderbook/order_book.hpp:203-233 | one side takes the update, the cached top stays right, and the result is true exactly when its value changed |
| OrderBooks.OrderBook.Snapshot | src/orderbook/order_book.hpp:238-255 | the book becomes the listed levels with positive quantity, later entries winning; old nodes all returned |
| OrderBooks.OrderBook.Clear | src/orderbook/order_book.hpp:194-198 | both sides and the cached top empty, all nodes returned |
| Reconciliation.SnapshotLoads | src/orderbook/order_book.hpp:238-255 | a listing of every level, zero entries and repetitions allowed, loads exactly that side |
| Reconciliation.DeltaArrives | src/orderbook/order_book_manager.hpp:202-217 | from any id under or just before a delta's range, applying it arrives at the book of its last id |
| Reconciliation.MessageKeepsTruth | src/orderbook/order_book_manager.hpp:147-232 | one truthful message leaves an instrument with the true book of its last id, or waiting |
| Reconciliation.StepKeepsTruth | src/orderbook/order_book_manager.hpp:121-245 | so it does for all instruments, whatever comes out of the queue |
| Reconciliation.StreamKeepsTruth | src/orderbook/order_book_manager.hpp:121-245 | so does any stream of truthful messages |
| Reconciliation.NewInstrumentIsHonest | src/orderbook/order_book_manager.hpp:98-107 | an instrument as add_instrument creates it is synchronised with any history, because it waits |
| Reconciliation.ManagesTheAdded | src/orderbook/order_book_manager.hpp:98-107 | after any calls of add_instrument a new manager has exactly the instruments added, each as created |
| Reconciliation.NeverWrongWhileSynchronised | src/orderbook/order_book_manager.hpp:98-245 | a new manager, under any loss, repetition and reordering of truthful messages: every instrument not waiting for a snapshot holds the exchange's book of its last update id |
| Reconciliation.NewInstrumentWaits | src/orderbook/order_book_manager.hpp:180-184 | until its first snapshot a new instrument stays as it was created, whatever else the stream holds |
| Reconciliation.GuardIsExact | src/orderbook/order_book_manager.hpp:178-200 | applying truthful deltas first..last to the book of id k is right under every history if and only if first <= k + 1 and k <= last |
| Reconciliation.AppliedExactlyWhenSafe | src/orderbook/order_book_manager.hpp:178-200 | so, not waiting and below the largest id, the manager applies exactly the deltas that are right under every history, less those that end at its own id |
| Reconciliation.UncheckedMissesALoss | src/orderbook/order_book_manager.hpp:178-200 | without sequence checking: a new instrument, a truthful snapshot, a lost delta and a truthful delta leave a wrong book that does not wait |
| Reconciliation.OnlyOwnMessagesMatter | src/orderbook/order_book_manager.hpp:134-143 | an instrument's book and sequence state depend on its own messages only, whatever is mixed in between |
| Reconciliation.WaitingIsFrozen | src/orderbook/order_book_manager.hpp:180-184 | while waiting, nothing but a snapshot changes book or sequence state |
| Reconciliation.EveryIdIsCovered | src/orderbook/order_book_manager.hpp:186-217 | between snapshots the last id never goes back and every id passed lies in the range of a delta that was applied |
| Reconciliation.LastIdTellsApplied | src/orderbook/order_book_manager.hpp:186-217 | a delta moves the last id forward exactly when it is applied; a gap is counted exactly when waiting begins |
| Reconciliation.LosslessStaysSynchronised | src/orderbook/order_book_manager.hpp:148-217 | after a snapshot, deltas that leave no id out are all applied, with no gap |
| Reconciliation.NothingAfterTheLastId | src/orderbook/order_book_manager.hpp:187-199 | at the largest id the wrapped successor lets no delta touch the book |
| Sequencing.DeltaById | src/orderbook/order_book_manager.hpp:186-217 | a delta past the next id is counted as a gap, makes the instrument wait and changes nothing else; one with nothing new is ignored; any other is applied |
| Sequencing.DeltaAtTheLastId | src/orderbook/order_book_manager.hpp:187-199 | at the largest id only a delta from id 0 is ignored, any other is taken for a gap |
| Sequencing.UncheckedDelta | src/orderbook/order_book_manager.hpp:178-217 | without sequence checking every delta is applied |
| Sequencing.GapWaitsForSnapshot | src/orderbook/order_book_manager.hpp:180-193 | a gap is counted once and leaves the instrument waiting with its last good book until a snapshot |
| Sequencing.SnapshotEndsTheWait | src/orderbook/order_book_manager.hpp:148-173 | a truthful snapshot gives any instrument the exchange's book of its id and ends the wait |
| Sequencing.RepeatChangesNothing | src/orderbook/order_book_manager.hpp:180-199 | a delta received again at any moment before the next snapshot changes nothing, if and only if the instrument waits, is below the largest id, or the delta begins at id 0 |
| Sequencing.OnlyUpdatesMatter | src/orderbook/order_book_manager.hpp:222-232 | trades and unknown messages in between make no difference to book and sequence state |
| Sequencing.LastUpdateDecides | src/orderbook/order_book_manager.hpp:202-214 | after a delta each price has the quantity of the last update for it |
| Sequencing.LastEntryDecides | src/orderbook/order_book.hpp:238-255 | after a snapshot each price has the quantity of the last entry for it that has one |
| Sequencing.OthersAreLeftAlone | src/orderbook/order_book.hpp:238-255 | prices not mentioned keep their quantity in a delta and are absent after a snapshot |
| Sequencing.DeltaCounters | src/orderbook/order_book_manager.hpp:186-219 | a delta is counted as applied exactly when it moves the last id forward, as a gap exactly when its instrument begins to wait |
| Sequencing.CountersAddUp | src/orderbook/order_book_manager.hpp:121-245 | from a new manager on the counters are the numbers of entries of each kind, processed messages are those not left early, and the gaps counted are those of all instruments together |
| Sequencing.ChangedTopIsCounted | src/orderbook/order_book_manager.hpp:202-237 | a delta that leaves another top of the book counts one change of the top |
| OrderBookManagers.ToLevels | src/orderbook/order_book_manager.hpp:151-163 | the copying loops convert signed to unsigned quantities in order |
| OrderBookManagers.UpdateBids | src/orderbook/order_book_manager.hpp:202-207 | the bid loop applies all updates in order and reports whether any moved the top |
| OrderBookManagers.UpdateAsks | src/orderbook/order_book_manager.hpp:209-214 | the ask loop likewise |
| OrderBookManagers.ApplySnapshot | src/orderbook/order_book_manager.hpp:148-165 | the snapshot branch on one book |
| OrderBookManagers.ApplyDelta | src/orderbook/order_book_manager.hpp:202-214 | the delta branch on one book: bids, then asks |
| OrderBookManagers.OrderBookManager.AddInstrument | src/orderbook/order_book_manager.hpp:98-107 | a new instrument starts empty and waiting; a known one is left alone |
| OrderBookManagers.NewManager | src/orderbook/order_book_manager.hpp:76-107 | a manager object set up with its instruments is in the state from which the guarantees start |
| OrderBookManagers.OrderBookManager.ReceiveSnapshot | src/orderbook/order_book_manager.hpp:148-173 | changes this instrument to the specified state and no other |
| OrderBookManagers.OrderBookManager.ReceiveDelta | src/orderbook/order_book_manager.hpp:202-220 | changes this instrument to the specified state and no other |
| OrderBookManagers.OrderBookManager.Route | src/orderbook/order_book_manager.hpp:142-239 | books, sequence states and all counters of the manager after a message are the specified ones |
| OrderBookManagers.OrderBookManager.ProcessOne | src/orderbook/order_book_manager.hpp:121-245 | takes the head of the queue, follows the specification, and gives that message and no other back to the pool |
| Parsers.Parser.Normalize | src/exchanges/parser.hpp:94-125 | a valid frame: exactly one counter rises, as the fate says; the frame has no message exactly when the pool records a refusal; the message is queued or returned, the frame is returned unless no message could be allocated |
| Parsers.Parser.ProcessOne | src/exchanges/parser.hpp:79-128 | each frame taken has one fate, decided by frame, text, pool and output queue; counters, queues and pools afterwards follow from it; a delivered message carries the parsed content |
| Pipeline.StepMovesMessages | src/exchanges/parser.hpp:94-122 | no step of either thread creates, loses or duplicates a message block |
| Pipeline.StepMovesFrames | src/exchanges/parser.hpp:79-125 | nor a raw block |
| Pipeline.EveryBlockInOnePlace | src/exchanges/parser.hpp:79-128 | in every interleaving each message is in exactly one of pool, queue, parser's hand and manager's hand |
| Pipeline.FreedOnce | src/orderbook/order_book_manager.hpp:241-242 | whoever gives a message or frame back is its only holder: it is not in the pool already |
| Pipeline.StepAccounts | src/exchanges/parser.hpp:79-128 | every step keeps entries taken equal to entries counted plus the uncounted one, and to frames returned, null or set aside plus the one in hand |
| Pipeline.EveryFrameIsAccounted | src/exchanges/parser.hpp:79-128 | in every interleaving each entry taken raises exactly one of parsed, errors and drops, and its frame is returned unless its allocation failed |
| Pipeline.CauseStep | src/exchanges/parser.hpp:86-122 | each finding of the parser raises its own counter |
| Pipeline.DeliveryStep | src/exchanges/parser.hpp:105-117 | a parsed message is put at the end of the queue exactly when there is room, with the content of its frame; nothing else puts one there |
| Pipeline.CountersHaveCauses | src/exchanges/parser.hpp:79-128 | in every interleaving the errors are the null, invalid, refused and unparsable entries, the drops the messages that met a full queue, the parsed messages those that met room |
| Pipeline.StepKeepsOrder | src/exchanges/parser.hpp:105-117 | every step keeps accepted, open and waiting frames in arrival order |
| Pipeline.ManagerSeesArrivalOrder | src/orderbook/order_book_manager.hpp:121-126 | in every interleaving the manager processes the accepted messages in arrival order, each once, and all of them when queue and hand are empty |
| Pipeline.StepKeepsContents | src/exchanges/parser.hpp:79-128 | every step keeps each frame, message and processed message equal to the text of its arrival, and the manager's state that of the messages processed |
| Pipeline.InterleavedKeepsTruth | src/orderbook/order_book_manager.hpp:121-245 | in every interleaving truthful texts keep every instrument synchronised or waiting |
| Pipeline.InterleavedNeverWrong | src/orderbook/order_book_manager.hpp:98-245 | a new manager behind the parser, in every interleaving, with any drops and failures: if the texts that parse are truthful, every instrument not waiting for a snapshot holds the exchange's book of its last update id |
| Pipeline.FailedAllocationKeepsTheFrame | src/exchanges/parser.hpp:95-100 | a run in which the frame of a failed allocation is never returned |

## Left out

- `allocate_raw_batch` among several threads: it installs the tag stored in a node instead of raising the head tag (`BatchAllocationLowersTag`), so it is modelled with no other thread running.
- Wrapping of the 64-bit head tag, and weak memory ordering: tags are unbounded, and steps are sequentially consistent, one per atomic access.
- The shutdown flag, pool destruction, invalidation of caches, the registry of thread-local caches, `PoolPtr`, and object construction and destruction.
- Huge pages, mapping, prefaulting and alignment; blocks are numbers.
- The clock: whether the shrink interval has elapsed is a parameter.
- `allocate_batch` of the high-level interface and its exception path.
- A pool of capacity 0 and a tracked depth of 0 are excluded by preconditions.
- BookSides.NodePool.Construct: never runs out, because depletion of the price level pool ends the process.
- Messages.MessagePool.Allocate: may return null at any time, recording a refusal, because how many messages the pool has, and in which thread's cache, is not part of the object; `Pipeline` lets an allocation fail at any time too.
- PriceText.FromString: requires a value that fits into 64 bits, because larger ones overflow in the source.
- PriceText.ToString: excludes the least value, whose negation overflows in the source.
- Balancing of the red-black tree and hashing: the tree is a sequence in comparator order, the hash a map.
- `is_crossed`, `get_levels`, `spread` and the plain accessors: easy reads of the same state.
- Price arithmetic and comparison operators, timestamps, configuration files and floating-point statistics.
- `parse_message`: an arbitrary function of the text; JSON and the cut to 20 levels or 100 updates per message are not modelled, and a cut message counts as untruthful.
- A message whose type does not match its variant, which throws.
- InstrumentId: an opaque key, compared only.
- The `run` loops and their stop flags.

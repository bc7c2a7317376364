# A verified model of the allocators, queues and index structures of lygin/util

This Dafny project models eight components of the repository and proves what their code keeps true.
`dafny verify dfyconfig.toml` checks all of it.

Concurrent components are step machines: a state holds the shared words and one program counter per
thread, one step is one atomic load, store, exchange or fetch-and-add of one thread, and a run is a
sequence of states in which any thread may take the next step. Memory is sequentially consistent.
For each of them it is proved what every step keeps, what a call may return in any interleaving, what a
call does that runs alone from any reachable state, and that it then ends.
Sequential components are classes whose methods follow the C and C++ code statement by statement,
with a `Valid()` invariant and a ghost value the contracts speak about.

| component | files |
|---|---|
| reference-counted free list of `concurrentqueue.h` | `FreeList.dfy`, `FreeListCalls.dfy` |
| optimistic dequeue counters of `concurrentqueue.h` | `DequeueCounters.dfy` |
| DPDK ring, `rte_ring.h` | `RteRing.dfy`, `RteRingCopy.dfy`, `RteRingCalls.dfy` |
| turn ring and single-producer ring, `lockfreeQueue.h` | `TurnRing.dfy`, `TurnRingCalls.dfy`, `SpscRing.dfy` |
| slab allocator, `slab.c` | `SlabLinks.dfy`, `SlabPages.dfy`, `SlabPool.dfy` (page runs); `SlabChunks.dfy`, `SlabBlocks.dfy`, `Slab.dfy` (chunks) |
| Robin Hood hash table, `ska_hashtable.h` | `RobinHood.dfy`, `RobinHoodTable.dfy` |
| B-tree, `app/simpleBtree` | `BTreeModel.dfy`, `BTreeNodes.dfy`, `BTreeRoute.dfy`, `BTree.dfy` |
| skip list, `skiplist.h` | `SkipRanks.dfy`, `SkipList.dfy` |
| LRU cache, `lrucache.h` | `LruRing.dfy`, `LruTable.dfy`, `LruCache.dfy` |
| shared | `Bits.dfy`, `Sequences.dfy`, `Options.dfy` |

How the models represent the code:

* The free list keeps its 32-bit reference words with wrap-around. A thread may add a node only while
  it owns it, and may hand a node it owns to another thread at any time. The number of threads is
  below the range of the 31-bit count field.
* The dequeue counters and the DPDK ring keep their wrapping words beside unbounded logical indices.
  An index is taken not to move by a full turn between a load and the use of the loaded value.
* The macros of `rte_ring.h` are taken as their evident expansion: the comment at line 243 lacks a
  line continuation.
* The slab pool's addresses are indices: a descriptor is named by a `Ref`, a byte of the data area by
  its offset. The low two bits of `prev` are a separate field. Words have 64 bits and pages 4096
  bytes. `SlabPages.Pages` is the abstract pool: what every page is, the order of the free ring and
  of each slot list.
* The hash policy of the Robin Hood table is left open: any in-range index function, any growth that
  does not shrink, any lookup bound of at least four. `Insert` and `Resize` take the source's bound, the
  binary logarithm of the number of slots.
* B-tree nodes are heap objects. Their key and child arrays are sequences of the fixed lengths of the
  C struct, held in fields that the methods reassign; no two nodes share one. The ghost tree `t` says
  which keys the nodes hold; its in-order sequence is `Flat(t)`. What the program finds when it reads
  behind the key array is a parameter, `behind`.
* Skip-list nodes and cache entries are heap objects too; the ghost sequences `all`, `idle`, `busy`
  and `chains` give their order, and `times` counts the calls of `Release` and tells which was an entry's
  last.

Where the code does not do what one would expect, the exact condition is proved and a run or a call is
given in which it happens:

* `SPSCRing::size()` loads two indices in either order. It is exact if and only if the consumer has not
  passed the loaded write position, or the producer has not come a full turn past the loaded read
  position (`SizeIsExactIff`, with the run of `SizeCanMislead`).
* `SPSCRing::pop()` may be called, as its assertion says, on any ring that is not empty. A `front()` that
  only looks at its copy of the write index is then wrong if and only if the ring is empty and the copy is
  not a whole number of turns away (`FrontIsRightIff`). It is right in every run in which each popped
  element had been seen by a `front()`, and any other pop can be followed by a wrong one
  (`FrontIsOldest`, `UncoveredPopMisleads`, with the run of `FrontCanMislead`).
* The counts of `rte_ring.h` load two tails. They are exact if and only if the consumers have not passed
  the loaded `prod.tail` (`CountsAgree`, with the run of `CountCanMislead`).
* The high-water mark of `rte_ring.h` is reported when the fill, counted from a possibly stale tail,
  reaches it, not when it passes it (`QuotaIsOneEarly`, with the run of `QuotaCanMislead`).
* `ngx_slab_free` accepts an address if and only if an allocation starts there, or it is the head of a
  free page run, or a chunk under a small page's own map (`AcceptsExactlyWhen`). The head of a free run
  does no harm: it is taken off the ring and put back at its front (`Slab.Free`, `FreesNothing`). After a
  chunk under the map the next allocation from the page is handed part of the map (`MapChunkLost`,
  `FreesTheMap`).
* `ngx_slab_init` places the pages within the memory if and only if the first one does not start behind
  its end (`AreaFits`, `PageBehindTheEnd`): the correction of their number is an unsigned division.
* `del` of a key that is not stored leaves the B-tree as it is if and only if the leaf where the search
  ends, as the borrowing and merging on the way leaves it, has no stale copy of the key behind its last
  one. `BTreeRoute.Reached` computes that leaf from the tree before the call. Otherwise the greatest key
  below it is lost, or an empty tree gets -1 keys (`BTree.Delete`, `DeletesAnother`, `DeletesBelow`,
  `DeletesFromNothing`, `DeletesTwice`).
* The skip list's `RandomHeight` can return the maximal height although it asserts that it is lower;
  `Insert` is proved for that height too.

## Model

| member | source | states |
|---|---|---|
| FreeList.StepKeepsInv | cpp-util/concurrentqueue.h:1459-1538 | every atomic access of `add` and `try_get` keeps the invariant: each node is on the list, flagged and left to its last reader, or one thread's business, and its reference word is exactly what that place and the number of readers say |
| FreeList.HandOverKeepsInv | cpp-util/concurrentqueue.h:1459-1471 | a node handed from its owner to another thread is then that thread's alone, and may be added by it |
| FreeList.RunInv | cpp-util/concurrentqueue.h:1459-1538 | the invariant holds in every state of every interleaving |
| FreeList.OneOwner | cpp-util/concurrentqueue.h:1473-1513 | a node one thread owns, is adding or has just popped belongs to no other thread and is not on the list |
| FreeList.ListWellFormed | cpp-util/concurrentqueue.h:1519-1538 | following the links from the head meets distinct nodes and ends, and each carries the list's reference plus one per reader |
| FreeList.ChainUnique | cpp-util/concurrentqueue.h:1519-1538 | the links determine the list, so a node is linked at most once |
| FreeList.LinkStable | cpp-util/concurrentqueue.h:1488-1491 | no step changes the link of a node while any thread holds a counted reference to it |
| FreeList.PopTakesFirst | cpp-util/concurrentqueue.h:1490-1499 | the head exchange is free of ABA: when it succeeds the node is the first of the list and the rest is what gets installed |
| FreeList.PoppedIsUnflagged | cpp-util/concurrentqueue.h:1491-1498 | the assertion after a pop holds and giving up two references does not underflow |
| FreeList.NothingLost | cpp-util/concurrentqueue.h:1459-1538 | once all calls have returned every node is either on the list with count one or held with count zero, and no flag is left |
| FreeListCalls.TryGetFailsHonestly | cpp-util/concurrentqueue.h:1473-1513 | in every run, a try_get that returns without a node saw, at some state of the same call, a null head |
| FreeListCalls.LoneGet | cpp-util/concurrentqueue.h:1473-1513 | from every reachable state, wherever the other threads are, a try_get running alone takes the first node, with the rest left linked and the count of the list and of its own reference gone, or changes nothing on an empty list |
| FreeListCalls.LoneAdd | cpp-util/concurrentqueue.h:1459-1538 | an add running alone puts the node first on the list, or, while some reader still counts it, only sets the flag |
| FreeListCalls.EndsAlone | cpp-util/concurrentqueue.h:1459-1538 | from every reachable state a thread inside a call that runs alone ends it |
| DequeueCounters.CircularLessIsLess | cpp-util/concurrentqueue.h:477-483 | the wrapped comparison of 64-bit indices is the comparison of the logical ones |
| DequeueCounters.SomethingIsLess | cpp-util/concurrentqueue.h:1958-1991 | the emptiness tests of single and bulk dequeue agree with the logical order of count and tail, and the wrapped size is the true one |
| DequeueCounters.GrantedFits | cpp-util/concurrentqueue.h:1980-2048 | whatever overcommit was read, all grants up to any reservation fit below the tail |
| DequeueCounters.StepKeepsInv | cpp-util/concurrentqueue.h:1955-2052 | every step of single dequeue, bulk dequeue and enqueue keeps the accounts of reservations, grants, returns and claims |
| DequeueCounters.RunInv | cpp-util/concurrentqueue.h:2248-2338 | the accounts hold in every interleaving, bulk and single consumers mixed |
| DequeueCounters.NeverBeyondTail | cpp-util/concurrentqueue.h:1991-2003 | the indices claimed from headIndex never pass tailIndex |
| DequeueCounters.EachIndexOnce | cpp-util/concurrentqueue.h:1991-2003 | every index below the head was claimed by exactly one call |
| DequeueCounters.SettlesExactly | cpp-util/concurrentqueue.h:2043-2048 | with no call in progress the optimistic count less the overcommit is the head: failed reservations were given back exactly |
| DequeueCounters.LoneConsumerGetsAll | cpp-util/concurrentqueue.h:2248-2275 | a consumer alone takes exactly what is there, up to its limit, and gives up at once on an empty queue |
| DequeueCounters.LookIsExact | cpp-util/concurrentqueue.h:2250-2254 | a call goes on after its first look if and only if something lies between the corrected count and the tail it loaded, and reserves the smaller of that and its limit |
| DequeueCounters.GrantIsExact | cpp-util/concurrentqueue.h:2257-2265 | in every run, the grant of a reservation is the smaller of what was reserved and what lies, at the reload, between the earlier reservations less the overcommit read and the tail, and nothing if nothing lies there; the rest is given back |
| DequeueCounters.CallSaw | cpp-util/concurrentqueue.h:2250-2252 | the tail and the overcommit a call works with were loaded in states of the same call |
| DequeueCounters.NothingWasThere | cpp-util/concurrentqueue.h:2331-2337 | a call that reserved and returns nothing found nothing there at its reload |
| DequeueCounters.GivesBackExactly | cpp-util/concurrentqueue.h:2263-2269 | the surplus goes to the overcommit, and the grant, if there is one, is taken from the head |
| DequeueCounters.WaitFree | cpp-util/concurrentqueue.h:1955-2052 | every access brings its call nearer to its end, whatever the others do; six are enough |
| Bits.MaskIsRemainder | cpp-util/rte_ring.h:238-286 | masking with a power of two less one is the remainder |
| RteRing.CopySlotIs | cpp-util/rte_ring.h:238-286 | the slot computed from a wrapped 32-bit index is the slot of the logical index |
| RteRing.FreeEntriesIs | cpp-util/rte_ring.h:331-336 | the 32-bit computation of the free entries is exact across wrap-around |
| RteRing.EntriesIs | cpp-util/rte_ring.h:502-509 | so is that of the entries to dequeue |
| RteRing.StepKeepsInv | cpp-util/rte_ring.h:313-382 | every step of the four enqueue and dequeue bodies, multi and single, keeps the ring's invariant |
| RteRing.RunInv | cpp-util/rte_ring.h:313-611 | the invariant and the history hold in every interleaving |
| RteRing.IndicesAndReservations | cpp-util/rte_ring.h:313-382 | cons.tail <= cons.head <= prod.tail <= prod.head <= cons.tail + mask, and the reservations in flight tile both gaps exactly, one per copying thread |
| RteRing.NoOverwrite | cpp-util/rte_ring.h:360-382 | a slot about to be written holds no unread entry and is in no other producer's range |
| RteRing.BoundedFifo | cpp-util/rte_ring.h:486-547 | what was received is a prefix of what was sent, in reservation order, with at most mask entries in between |
| RteRing.DequeueReturnsItsRange | cpp-util/rte_ring.h:486-547 | a dequeue returns exactly the entries of its range |
| RteRing.EnqueueGivesUpHonestly | cpp-util/rte_ring.h:336-356 | an enqueue gives up only when at that moment there is not enough room |
| RteRing.DequeueGivesUpHonestly | cpp-util/rte_ring.h:502-523 | a dequeue gives up only when at that moment too few entries are there |
| RteRing.CountsAgree | cpp-util/rte_ring.h:900-955 | prod.tail loaded in one state and cons.tail in a later one: count and free_count are exact if and only if no consumer has passed the loaded prod.tail, and then full and empty are too; in any case the two counts add up to mask, and the other results are the remainders of the negative difference |
| RteRing.CountCanMislead | cpp-util/rte_ring.h:900-955 | a run in which a ring that is empty at both loads is counted as full |
| RteRing.QuotaIsOneEarly | cpp-util/rte_ring.h:363-370 | in every run, a producer that moved the head reports the quota exactly when the entries from the cons.tail it loaded to its new head reach the mark; so a fill that reaches it is never missed, and the default mark is never reported |
| RteRing.QuotaCanMislead | cpp-util/rte_ring.h:363-370 | a run with a report at the mark, and one below it through a stale tail |
| RteRingCalls.Called | cpp-util/rte_ring.h:313-382 | until it moves a head a call works on the objects, or the number, and the behaviour it was called with |
| RteRingCalls.EnqueueMovesExactly | cpp-util/rte_ring.h:325-356 | in every run an enqueue moves prod.head if and only if it is what the call loaded, by all its objects if fixed and else by the smaller of them and the room behind the loaded cons.tail |
| RteRingCalls.DequeueMovesExactly | cpp-util/rte_ring.h:491-528 | so does a dequeue with cons.head and the entries before the loaded prod.tail |
| RteRingCalls.EnqueueRefusedExactly | cpp-util/rte_ring.h:336-347 | an enqueue is refused, with nothing changed, if and only if there is less room than it needs and it is fixed or there is none |
| RteRingCalls.DequeueRefusedExactly | cpp-util/rte_ring.h:502-513 | a dequeue is refused if and only if there are fewer entries than it wants and it is fixed or there are none |
| RteRingCalls.EndsOnlySo | cpp-util/rte_ring.h:313-382 | a call ends only by such a refusal or by publishing its range |
| RteRingCalls.LoneEnqueue | cpp-util/rte_ring.h:313-478 | an enqueue running alone sends the objects the behaviour asks for, each in its slot, or changes nothing |
| RteRingCalls.LoneDequeue | cpp-util/rte_ring.h:486-611 | a dequeue running alone receives the oldest entries, as many as the behaviour asks for, or changes nothing |
| RteRingCalls.EndsAlone | cpp-util/rte_ring.h:313-611 | from every reachable state with no other range in flight, a thread inside a call that runs alone ends it |
| RteRingCopy.PlainCopyIs | cpp-util/rte_ring.h:238-260 | a plain modular copy puts entry j into the slot of index h + j and leaves the other slots alone |
| RteRingCopy.EnqueuePtrs | cpp-util/rte_ring.h:238-260 | the copy unrolled by four, or wrapped, equals the plain modular copy |
| RteRingCopy.DequeuePtrs | cpp-util/rte_ring.h:265-286 | the unrolled or wrapped read yields the entries of the range in order and nothing else of the table changes |
| TurnRing.StepKeepsInv | cpp-util/lockfreeQueue.h:111-212 | every step of emplace, try_emplace, pop and try_pop keeps the invariant on turns, slots and tickets |
| TurnRing.RunInv | cpp-util/lockfreeQueue.h:111-212 | it holds in every interleaving of blocking and try operations |
| TurnRing.PopReturnsItsPush | cpp-util/lockfreeQueue.h:175-184 | the pop with ticket p returns the value pushed with ticket p |
| TurnRing.ExclusiveAccess | cpp-util/lockfreeQueue.h:114-119 | from the end of its wait to the publication of the turn a thread has its slot to itself |
| TurnRing.NoValueLost | cpp-util/lockfreeQueue.h:111-119 | a value is built only into an empty slot and moved only out of a full one |
| TurnRing.TicketUsedOnce | cpp-util/lockfreeQueue.h:111-184 | once the winner of a ticket is done nobody holds it again |
| TurnRing.SawOtherTurn | cpp-util/lockfreeQueue.h:122-147 | a call about to re-read its index saw, earlier in the same call, a turn not its own |
| TurnRing.FailsHonestly | cpp-util/lockfreeQueue.h:122-147 | try_emplace and try_pop return false only if at some moment of the call the slot of the next ticket was unavailable |
| TurnRingCalls.TryFailsHonestly | cpp-util/lockfreeQueue.h:122-212 | in every run, whatever step ends a try_emplace or try_pop without a ticket, at some state of the same call its slot was unavailable |
| TurnRingCalls.LoneTryPush | cpp-util/lockfreeQueue.h:122-147 | a try_emplace running alone pushes its value if the slot of the next ticket is free, and else changes nothing |
| TurnRingCalls.LoneTryPop | cpp-util/lockfreeQueue.h:186-212 | a try_pop running alone pops the value of the next ticket if it is there, and else changes nothing |
| TurnRingCalls.LonePush | cpp-util/lockfreeQueue.h:111-119 | an emplace running alone on a free slot pushes its value |
| TurnRingCalls.LonePop | cpp-util/lockfreeQueue.h:175-184 | a pop running alone with its value there takes it |
| TurnRingCalls.EndsAlone | cpp-util/lockfreeQueue.h:111-212 | from every reachable state a thread that runs alone ends its call, unless it waits for the turn of another |
| SpscRing.StepKeepsInv | cpp-util/lockfreeQueue.h:265-336 | every step of the producer and of the consumer, with any pop that passes its assertion, keeps the invariant with stale copies of the other index |
| SpscRing.RunInv | cpp-util/lockfreeQueue.h:265-336 | it holds in every interleaving |
| SpscRing.CoveredIff | cpp-util/lockfreeQueue.h:316-336 | the pops are covered, each taking an element that a front() had seen, exactly when the read index never overtakes the consumer's copy of the write index |
| SpscRing.FrontIsOldest | cpp-util/lockfreeQueue.h:316-325 | the ring is a queue of at most capacity_ - 1 elements; what is popped is the oldest, fully built, and so is what front returns while the ring is not empty, which with covered pops is always |
| SpscRing.StaleCopiesAreSafe | cpp-util/lockfreeQueue.h:265-336 | stale copies never allow a write over an element; the assertion of pop holds until the element is destroyed, and with covered pops it holds after every front that returned a slot |
| SpscRing.TryEmplaceFailsWhenFull | cpp-util/lockfreeQueue.h:279-295 | try_emplace fails exactly when the ring is full at its load of the read index |
| SpscRing.FrontIsNullWhenEmpty | cpp-util/lockfreeQueue.h:316-325 | front is null exactly when the ring is empty at its load of the write index |
| SpscRing.EmplaceEndsSo | cpp-util/lockfreeQueue.h:265-295 | every step that ends a producer's call publishes its value, or is that of a try_emplace that finds the ring full at its load |
| SpscRing.Called | cpp-util/lockfreeQueue.h:265-295 | a producer looking for room works on the value it was called with, and waits if and only if it was called to |
| SpscRing.OnlyTryFails | cpp-util/lockfreeQueue.h:265-295 | a call that ends without its value in the ring was a try_emplace |
| SpscRing.FrontEndsSo | cpp-util/lockfreeQueue.h:316-336 | every step that ends a consumer's call: pop took one element, or front returned, with null only if the ring is empty at its load |
| SpscRing.LoneEmplace | cpp-util/lockfreeQueue.h:265-295 | running alone, a value is added if the ring is not full, and else a try_emplace changes nothing |
| SpscRing.LoneFront | cpp-util/lockfreeQueue.h:316-325 | running alone, front returns a slot unless the ring is empty and its copy a whole number of turns away |
| SpscRing.StaleCopySuffices | cpp-util/lockfreeQueue.h:265-325 | a call content with its copy is right: the room is there, or, with covered pops, the element |
| SpscRing.FrontIsRightIff | cpp-util/lockfreeQueue.h:316-325 | whatever the pops, a front content with its copy is right if and only if the ring is not empty or the copy is a whole number of turns away from the read index |
| SpscRing.UncoveredPopMisleads | cpp-util/lockfreeQueue.h:316-336 | from every reachable state, a pop that no front covered can be followed by a front that returns the slot of an empty ring |
| SpscRing.FrontCanMislead | cpp-util/lockfreeQueue.h:316-336 | one push, one pop without front: the next front returns a slot in which nothing was built |
| SpscRing.SizeIsExactIff | cpp-util/lockfreeQueue.h:338-345 | for both orders of the two loads: size is exact if and only if the consumer has not passed the loaded write position, or the producer not come a full turn past the loaded read position |
| SpscRing.SizeCanMislead | cpp-util/lockfreeQueue.h:338-345 | one run in which size reports one element of a ring empty before and after, and none of a ring with one element before and after |
| SlabLinks.UnlinkKeeps | c-util/slab.c:211-216 | unlinking a descriptor leaves a ring of the others in the same order |
| SlabLinks.PushFrontKeeps | c-util/slab.c:485-490 | linking a page in at the front keeps the ring |
| SlabLinks.ReplaceKeeps | c-util/slab.c:684-692 | the rest of a split run takes its head's place in the ring |
| SlabPages.TakeRepresents | c-util/slab.c:669-738 | after an allocation the table is tiled exactly, no two free runs touch, and ring, lists and back links agree with it |
| SlabPages.MergeRepresents | c-util/slab.c:765-817 | joining a run with a free neighbour keeps all of that |
| SlabPages.ReholdRepresents | c-util/slab.c:749-762 | so does taking a free run that is given back again off the ring |
| SlabPages.ReleaseRepresents | c-util/slab.c:819-832 | so does putting the run at the front of the free ring with its back link |
| SlabPages.DelistRepresents | c-util/slab.c:211-220 | so does taking a full or vacant page off its slot list |
| SlabPages.EnlistRepresents | c-util/slab.c:480-490 | so does putting a page on it |
| SlabPages.RightTest | c-util/slab.c:765-783 | the test on the descriptor behind a run finds a free run exactly when there is one |
| SlabPages.LeftTest | c-util/slab.c:785-817 | the test on the descriptor before a run finds the head of a free run exactly when there is one, through the back link |
| SlabPool.Pool.constructor | c-util/slab.c:66-88 | the initial pool is one free run with empty slot lists, in order |
| SlabPool.Pool.AllocPages | c-util/slab.c:669-738 | first fit: nothing changes when no run is long enough, else exactly k pages are taken from the first that is |
| SlabPool.Pool.FreePages | c-util/slab.c:743-833 | the pages of a live run, a free run or a vacant chunk page become one free run together with the free runs on both sides; every other page keeps its kind and chunk map |
| SlabPool.FitIndexIs | c-util/slab.c:675-678 | the chosen run fits and no earlier one does |
| SlabBlocks.AllocatesExactlyWhen | c-util/slab.c:675-729 | a request for k pages succeeds if and only if k consecutive free pages exist anywhere |
| SlabBlocks.OneRunWhenAllFree | c-util/slab.c:743-833 | when every page is free they are one run, alone on the ring, with the true length |
| SlabBlocks.NothingLiveIsOneRun | c-util/slab.c:743-833 | with no live allocation the whole pool is one free run |
| SlabBlocks.Disjoint | c-util/slab.c:126-403 | live allocations, chunk or page run, never overlap |
| SlabBlocks.InsidePool | c-util/slab.c:126-403 | every live allocation lies inside the data area |
| SlabBlocks.Aligned | c-util/slab.c:126-403 | a chunk is aligned to its size, a run to the page size |
| SlabBlocks.ClearOfMap | c-util/slab.c:331-353 | no small chunk overlaps the map at the start of its page |
| SlabBlocks.OneBlockAt | c-util/slab.c:436-662 | an address belongs to one live allocation at most |
| SlabBlocks.FirstPageHasRoom | c-util/slab.c:169-180 | every page on a slot list has a free chunk, so the scan never needs a second page |
| SlabChunks.MapFits | c-util/slab.c:334-347 | the map of a small page has one bit per chunk and fits in the chunks set aside for it, which are the fewest that hold it |
| SlabChunks.FullIsNoRoom | c-util/slab.c:201-221 | the three tests for a full page say exactly that no chunk is free |
| SlabChunks.VacantIsUnused | c-util/slab.c:496-521 | the three tests for a vacant page say exactly that no chunk is in use beside the map |
| SlabChunks.MarkUsed | c-util/slab.c:192-200 | setting or clearing a bit changes the one chunk and no other, in all three layouts |
| SlabChunks.FreshUsed | c-util/slab.c:331-395 | a page just cut has exactly the map and the chunk handed out in use |
| Slab.ShiftFor | c-util/slab.c:150-163 | the size class is the least power of two, from the smallest on, that holds the request |
| Slab.PagesForIs | c-util/slab.c:136 | the pages asked for are enough for the request, and one page less is not |
| Slab.FindChunk | c-util/slab.c:172-300 | the scan finds the first free chunk of the page |
| Slab.IsFull | c-util/slab.c:200-213 | the scan from the marked word on decides whether the page is full |
| Slab.IsVacant | c-util/slab.c:496-519 | the scan after a free decides whether the page is vacant |
| Slab.AcceptsExactlyWhen | c-util/slab.c:436-636 | an address is accepted if and only if an allocation starts there or it is one of the two unguarded kinds, and then the decoded block is that allocation |
| Slab.MapChunkLost | c-util/slab.c:475-519 | once a chunk under the map is marked free the page is not vacant, and the first chunk a scan finds is under the map |
| Slab.FreesNothing | c-util/slab.c:608-648 | a new pool of one page accepts offset 0, with nothing allocated before and after |
| Slab.FreesTheMap | c-util/slab.c:452-519 | a pool with one allocation of eight bytes accepts offset 0, and the next chunk found is under the map |
| Slab.AreaFits | c-util/slab.c:60-104 | slot heads, descriptors and pages follow each other; the pages end within the memory if and only if they start there |
| Slab.AreaIs | c-util/slab.c:60-104 | the table has a descriptor for every page there can be, the pages start at the next page boundary, and there are as many as fit before the end |
| Slab.PageBehindTheEnd | c-util/slab.c:95-101 | a memory for which the only page starts behind the end |
| Slab.InitPool | c-util/slab.c:37-109 | the pool is in order, empty, and has the computed pages, whenever there is one and it starts within the memory |
| Slab.Slab.constructor | c-util/slab.c:66-109 | a pool of any number of pages starts in order with nothing allocated |
| Slab.Slab.Alloc | c-util/slab.c:126-403 | exactly one new block is added to the live ones, of the right class and at least the size, or of the least number of pages that holds it; it fails if and only if the class has no page with room and no free page, or there are not that many consecutive free pages |
| Slab.Slab.Free | c-util/slab.c:436-662 | exactly the block at the address is removed from the live ones; or no block starts there and the live ones stay, also when the address heads a free run, so a page run may be freed twice |
| Slab.Slab.FreeAll | c-util/slab.c:436-833 | freeing all live allocations, in whatever order, restores one free run of the whole pool |
| RobinHood.StopIsSound | cpp-util/ska_hashtable.h:539-549 | when the search stops early the key is nowhere in the table |
| RobinHood.BeforeSentinel | cpp-util/ska_hashtable.h:842-866 | a displaced element never reaches the end sentinel |
| RobinHood.SwapIn | cpp-util/ska_hashtable.h:837-855 | displacing a nearer element keeps the distances, the places and the contents |
| RobinHood.PutBack | cpp-util/ska_hashtable.h:858-863 | putting the carried element into the new key's slot restores the old contents |
| RobinHood.GapMoves | cpp-util/ska_hashtable.h:698-706 | one backward shift keeps the distance invariant outside the moving gap |
| RobinHood.RangeOpens | cpp-util/ska_hashtable.h:685-696 | the gap a range erase opens is no longer than the next entry can move |
| RobinHoodTable.Table.constructor | cpp-util/ska_hashtable.h:789-795 | the default table is empty and in order |
| RobinHoodTable.Table.Find | cpp-util/ska_hashtable.h:539-549 | find returns the entry exactly when the key is in the map, else the end |
| RobinHoodTable.Table.Emplace | cpp-util/ska_hashtable.h:576-587 | a known key changes nothing; a new one gives exactly the old map plus it, with the right count and place and within the load, nested growth included; the table does not grow if there is room within the load and the probes; it comes to an end when the lookup bound of large enough tables exceeds the number of elements |
| RobinHoodTable.Table.EmplaceNew | cpp-util/ska_hashtable.h:824-867 | the same for the slow path, from where the search stopped |
| RobinHoodTable.Chain | cpp-util/ska_hashtable.h:842-866 | the displacement loop settles one element more, or stops with more elements than the lookup bound and all but one in place |
| RobinHoodTable.Table.Rehash | cpp-util/ska_hashtable.h:624-657 | the same map within the load, in at least the next size from the requested one on, be it smaller or bigger, and in exactly that size if there are no more elements than probes |
| RobinHoodTable.Table.Grow | cpp-util/ska_hashtable.h:869-872 | the same map in at least twice the slots |
| RobinHoodTable.RoomyIsAmple | cpp-util/ska_hashtable.h:797-801 | with the bound the source computes, a table of 2^(n+1) slots that is not over its load has room for n elements, whatever the hash |
| RobinHoodTable.Table.Insert | cpp-util/ska_hashtable.h:576-596 | with that bound every insertion comes to an end: a known key changes nothing, a new one gives exactly the old map plus it, within the load, and the table grows only if there is no room |
| RobinHoodTable.Table.Resize | cpp-util/ska_hashtable.h:624-657 | with that bound every rehash comes to an end, with the same map in the size Rehash promises |
| RobinHoodTable.Crowd | cpp-util/ska_hashtable.h:856-859 | an entry d slots from home proves d + 1 elements, so a large enough lookup bound is never hit |
| RobinHoodTable.Table.Erase | cpp-util/ska_hashtable.h:670-681 | backward shift removes exactly the one key and keeps the invariant |
| RobinHoodTable.Table.EraseKey | cpp-util/ska_hashtable.h:710-720 | erase by key removes the key and reports whether it was there |
| RobinHoodTable.Table.EraseRange | cpp-util/ska_hashtable.h:683-708 | exactly the keys of the range go, and the result is where the next element now is |
| BTreeModel.SplitKeepsFlat | app/simpleBtree/btree.cc:22-64 | a split leaves the in-order sequence as it is |
| BTreeModel.JoinKeepsFlat | app/simpleBtree/btree.cc:137-165 | so does a merge |
| BTreeModel.LendRightKeepsFlat | app/simpleBtree/btree.cc:340-361 | so does a shift to the right child |
| BTreeModel.LendLeftKeepsFlat | app/simpleBtree/btree.cc:364-386 | so does a shift to the left child |
| BTreeModel.SplitOk | app/simpleBtree/btree.cc:22-64 | a split keeps equal depth and the bounds on keys per node |
| BTreeModel.JoinOk | app/simpleBtree/btree.cc:137-165 | so does a merge of two minimal children |
| BTreeModel.LendOk | app/simpleBtree/btree.cc:340-386 | so do the shifts, which leave the poor child with M keys |
| BTreeModel.PredecessorUp | app/simpleBtree/btree.cc:245-252 | replacing a key by its predecessor and deleting that below removes the key |
| BTreeModel.SuccessorUp | app/simpleBtree/btree.cc:253-260 | the same with the successor |
| BTreeModel.Descend | app/simpleBtree/btree.cc:268-275 | a key strictly between two separators is in the child between them or nowhere |
| BTreeModel.LendRightBetween | app/simpleBtree/btree.cc:340-361 | a shift to the right leaves a key that belongs in the right child belonging there |
| BTreeModel.LendLeftBetween | app/simpleBtree/btree.cc:364-386 | so does a shift to the left for the left child |
| BTreeModel.JoinBetween | app/simpleBtree/btree.cc:137-165 | and a merge for either child |
| BTreeModel.DeleteBelow | app/simpleBtree/btree.cc:268-313 | what a deletion makes of a child's keys it makes of the tree's, for present and absent keys |
| BTreeRoute.RefitOk | app/simpleBtree/btree.cc:281-313 | whichever of the five cases applies before a descent, the tree stays in shape and the child entered has at least M keys |
| BTreeRoute.ReachedIn | app/simpleBtree/btree.cc:182-315 | the leaf the search of a deletion ends in, computed from the tree alone, is one of the tree's nodes |
| BTree.SplitChild | app/simpleBtree/btree.cc:22-64 | the writes to the three nodes store exactly the split tree |
| BTree.MergeChild | app/simpleBtree/btree.cc:137-165 | the writes store exactly the merged tree |
| BTree.ShiftToRight | app/simpleBtree/btree.cc:340-361 | the writes store exactly the tree with the key moved right |
| BTree.ShiftToLeft | app/simpleBtree/btree.cc:364-386 | the writes store exactly the tree with the key moved left |
| BTree.Predecessor | app/simpleBtree/btree.cc:318-326 | the greatest key of a subtree |
| BTree.Successor | app/simpleBtree/btree.cc:329-337 | the least key of a subtree |
| BTree.LeafDelete | app/simpleBtree/btree.cc:213-233 | for every leaf content and key: which keys are accepted, and all slots afterwards |
| BTree.DeletesTwice | app/simpleBtree/btree.cc:213-233 | two deletions of 3 from the leaf 1, 2, 3 leave 1 |
| BTree.DeletesAnother | app/simpleBtree/btree.h:78-91 | a new tree, insert -5, delete 0: the tree is empty |
| BTree.DeletesBelow | app/simpleBtree/btree.h:78-91 | a new tree, insert -5, -4, -3, -2, so that it has a root and two leaves, delete 0: -2 is gone |
| BTree.DeletesFromNothing | app/simpleBtree/btree.h:88-91 | a new tree, delete 0: -1 keys |
| BTree.BTree.constructor | app/simpleBtree/btree.cc:419-423 | the tree is empty, and its slots are zero |
| BTree.BTree.Insert | app/simpleBtree/btree.cc:107-134 | one copy more, in sorted place, duplicates included; equal depth, bounds, no node shared, count of keys right |
| BTree.BTree.InsertNonfull | app/simpleBtree/btree.cc:68-105 | the same below a node that is not full, entering only children that are not full |
| BTree.BTree.Delete | app/simpleBtree/btree.cc:182-208 | a stored key: one copy fewer, all else as before. Any other key: nothing changes if and only if the leaf it reaches, computed from the tree before the call with its slots as the way down leaves them, has no stale copy; else the greatest key below it goes, or an empty tree has -1 keys. The invariants stay, and an internal root never becomes empty |
| BTree.BTree.DeleteNonone | app/simpleBtree/btree.cc:211-315 | the same below a node that can lose a key |
| BTree.BTree.DeleteIn | app/simpleBtree/btree.cc:306-313 | the recursion enters a child only when it has at least M keys and the key belongs there, and the leaf it ends in is the one computed for that child |
| BTree.BTree.DeleteDown | app/simpleBtree/btree.cc:268-313 | a borrow or merge and the descent after it reach the leaf computed from the node before them |
| BTree.BTree.Refill | app/simpleBtree/btree.cc:283-309 | a child with M - 1 keys gets one from a sibling or by a merge, the contents unchanged; if it is a leaf, its slots are what the way down foresees |
| BTree.BTree.Find | app/simpleBtree/btree.h:98-112 | find agrees with membership |
| SkipRanks.NextAfterPut | cpp-util/skiplist.h:63-67 | which node follows which at every level after an insertion |
| SkipRanks.LevelIs | cpp-util/skiplist.h:173-199 | following a level visits exactly the nodes tall enough for it, in order |
| SkipRanks.LevelsNest | cpp-util/skiplist.h:173-199 | every level is a sublist of the one below |
| SkipList.SkipList.constructor | cpp-util/skiplist.h:16-32 | the list is empty |
| SkipList.SkipList.FindLessThan | cpp-util/skiplist.h:173-199 | the last node below the key, and its predecessor at every level |
| SkipList.SkipList.FindGreaterOrEqual | cpp-util/skiplist.h:146-169 | the first node not below the key |
| SkipList.SkipList.FindLast | cpp-util/skiplist.h:201-217 | the last node |
| SkipList.SkipList.FindPrev | cpp-util/skiplist.h:39-48 | on the fast path too, prev_ is the array a full search would produce |
| SkipList.SplicedLinked | cpp-util/skiplist.h:63-67 | after the links are written every level is linked as it should be |
| SkipList.SkipList.Insert | cpp-util/skiplist.h:37-71 | exactly the new key is added, levels, order and finger stay right, whatever the height |
| SkipList.SkipList.Contains | cpp-util/skiplist.h:73-80 | Contains agrees with the set of keys |
| SkipList.Iterator.Seek | cpp-util/skiplist.h:288-290 | the first entry not below the target, or none |
| SkipList.Iterator.Prev | cpp-util/skiplist.h:279-285 | the entry just before, or none |
| SkipList.Iterator.SeekToLast | cpp-util/skiplist.h:307-312 | the greatest entry, or none |
| SkipList.Iterator.SeekForPrev | cpp-util/skiplist.h:293-301 | the last entry not above the target, or none |
| LruRing.Remove | cpp-util/lrucache.h:231-235 | the ring of the others, in order |
| LruRing.Append | cpp-util/lrucache.h:237-244 | the ring with the entry at the end |
| LruTable.HashTable.BucketIsMasked | cpp-util/lrucache.h:95 | the masked hash is the bucket, since the length stays a power of two |
| LruTable.HashTable.FindPointer | cpp-util/lrucache.h:93-101 | the link that leads to the entry, or the end of its chain when there is none |
| LruTable.HashTable.Insert | cpp-util/lrucache.h:55-72 | the entry is added and the one with the same hash and key, if any, is returned and gone; the number of buckets changes only when the entries come to exceed it, and is then less than twice the entries (or four) |
| LruTable.HashTable.Remove | cpp-util/lrucache.h:74-84 | exactly the entry with that hash and key goes |
| LruTable.HashTable.Resize | cpp-util/lrucache.h:103-134 | the same entries in the least power of two of buckets, from four on, that is not below their number |
| LruTable.HashTable.Lookup | cpp-util/lrucache.h:50-53 | the entry with that hash and key, exactly when there is one |
| LruCache.LruCache.Accounts | cpp-util/lrucache.h:168-176 | refs is the cache's reference plus the handles out, lru_ holds exactly the cached entries with one reference, in_use_ the others; an entry ever inserted was deleted, once, exactly if it is neither cached nor held |
| LruCache.LruCache.Ref | cpp-util/lrucache.h:203-211 | one handle more, and the entry is in use; the others on lru_ keep their order |
| LruCache.LruCache.Unref | cpp-util/lrucache.h:213-229 | the entry is deleted with its last reference and idle with its last handle |
| LruCache.LruCache.Lookup | cpp-util/lrucache.h:246-254 | a handle on the cached entry, or nothing when there is none; the others on lru_ keep their order |
| LruCache.LruCache.Release | cpp-util/lrucache.h:256-260 | one handle fewer; the deleter runs exactly when it was the last reference; with its last handle a cached entry goes to the end of lru_, which otherwise stays as it is and stays in the order of the last releases |
| LruCache.LruCache.Insert | cpp-util/lrucache.h:263-297 | the new entry is cached and held, the old one with its key dropped, idle entries evicted in the order of their last release: each was released before every idle entry that stays; then usage is within capacity or every cached entry is held |
| LruCache.LruCache.FinishErase | cpp-util/lrucache.h:302-313 | an idle entry is deleted at once, a held one is left to its holders |
| LruCache.LruCache.Erase | cpp-util/lrucache.h:315-319 | exactly the entry with that hash and key leaves the cache; the others on lru_ keep their order |
| LruCache.LruCache.Prune | cpp-util/lrucache.h:321-333 | every idle entry is deleted, oldest first, and nothing else changes |

## Left out

- FreeList: the traversal without contention (head_unsafe) and the move of a whole list between objects.
- DequeueCounters, RteRing: an index is taken not to advance by a full turn of its word (half a turn for the counters) between a load and its use, as in the source's own argument.
- RteRing: requests of n = 0 and ring sizes that are not a power of two; statistics, creation flags and the burst wrappers.
- TurnRing, SpscRing: tickets and positions do not wrap at 2^64; capacity 0, which the constructors exclude or correct.
- Weak memory orders, cache-line padding and spinning hints: every access is sequentially consistent.
- The rest of concurrentqueue.h: blocks, block index, implicit producers, tokens, exception rollback.
- Slab.Slab.Free: addresses from the end of the last whole page to pool->end, for which the program reads a descriptor behind the table, and chunks under a small page's own map, for which MapChunkLost says what happens, are excluded by its precondition.
- Slab.Slab.constructor: the number of pages is a parameter, computed by InitPool; a pool without pages is not modelled, and the smallest class is from 8 to 2048 bytes.
- Slab.InitPool: without a page, or with the first page behind the end, it yields no pool, where the program goes on with one it cannot use.
- Slab: the contents of the chunks, calloc's clearing, locking and logging.
- RobinHoodTable.Table.Emplace: with a lookup bound other than the source's, `fuel` bounds the number of nested growths and nothing is said of the table when `done` is false; a hash that defeats every bound need not come to an end. Insert and Resize have neither.
- RobinHoodTable: hash policies, prime tables (the source's bound on probes is taken as the floor of the logarithm), float rounding of the load factor (a positive real here), allocators, copy, move and swap, clear and shrink.
- BTree: the degree is the M = 2 of btree.h; a failing malloc, printing and the destructor; what a tree with -1 keys does next.
- SkipList: keys are integers with their usual order; duplicate keys, which Insert excludes by an assertion; EstimateCount; readers concurrent with a writer.
- SkipList.SkipList.Insert: the height is any value from 1 to the maximum, the maximum included, not the outcome of rand().
- LruCache: capacity 0, which the source does not support, and changing the capacity; destruction, the sharded wrapper, and the hash function (hash and key come together, and entries are told apart by both).
- Other parts of the repository: the extendible hash table, the page cache, simpleDB, the thread pools, coding, bloom filters and the network code.

# A model of coin's shared-memory core

coin passes data between the processes of one machine through shared memory: an allocator hands out
blocks of a mapped region, counted handles refer to what lives there, nodes publish named objects
that other nodes discover, and publishers, subscribers, services and clients exchange messages
through rings. Inside a process a thread pool runs callbacks from single-producer queues. The
project models that core and proves what keeps it correct, over every input, every run or every
reachable state.

Two kinds of file stand side by side. *Specifications* are pure: states as values, steps as
functions, invariants and runs. *Classes* follow the source: the same fields, loops and branches,
proved to do what the specification says.

- `Powers`, `BuddyLevels`, `BuddyArena`, `BuddyHeaders`, `BuddySystem`: the allocator. An arena says
  which pages belong to which block and which blocks are on which list. The class `Buddy` works on
  headers threaded through the pages, with page numbers for pointers and -1 for null; its predicate
  `Valid` says that the headers spell out an arena. The allocator is not a textbook buddy system: two
  adjacent free blocks of one size merge whether or not they are aligned, and the halves of a split
  rejoin only if the upper one is freed first. The invariant that does hold is the tiling.
- `SharedRing`, `SubscriberRuns`, `Subscriber`, `ServiceCalls`, `Service`: the broadcast ring with a
  ghost log of everything pushed, and its readers as step systems in which pushes may fall between
  any two sections under the lock.
- `SpscQueue`, `PoolWorker`, `WorkerWakeup`: the queue of a worker with every atomic load and store a
  step, the worker that fills and empties it, and the protocol by which a worker goes to sleep and is
  woken.
- `SharedHandles`, `HandleRuns`, `HandleEffects`: the reference count of handles within shared memory,
  its operations undisturbed and interleaved step by step, and what they have achieved when they end.
- `ObjectLife`, `ObjectEffects`, `ObjectManager`, `ChannelLists`: the reference count of nodes across
  processes, what create, destroy, discovery and events come to, and the lists by which a process
  connects its readers.
- `BitWords`, `ShiftRegister`, `Crc32Table`, `Crc32`: the table-driven CRC-32 against the
  one-bit-at-a-time shift register with the polynomial of section 8 of RFC 1952, without its initial
  and final complement.
- `VectorText`: printing vectors to text and parsing them back.
- `BuddyExamples`, `SubscriberExamples`, `HandleExamples`: small runs that show the conditions below
  can fail and that operations on one block do contend.

Invariants say what never goes wrong. Beside them stand the effects, stated without the functions that
compute them: malloc is a best fit cut down to the least size, free merges until nothing is left to
merge, a turn of a reader calls back the oldest message left, an awake worker pops, a service serves
every request, a push or pop does exactly one thing, operations on handles end and cannot deadlock.

Where a promise of the code holds only under a condition, the condition is proved exact, and an input
or a run from the start is given on which it fails:

- `malloc` followed by `free` restores the lists unless the block rejoins its successor
  (`FreeUndoesMalloc`, fails in `RejoiningOccurs`);
- a freed block joins its freed neighbour unless it alone is marked as an upper half
  (`NeighboursRejoinIff`, fails in `HalvesOccur`);
- a payload lies in its block unless the request wraps around in `size_t` (`RequestFitsChosenLevel`,
  `PayloadStaysInside`, fails in `BuddyExamples.WrappingOccurs`);
- a subscriber loses nothing unless it reads while publishers are further ahead than the ring holds
  (`LosslessIffNeverOvertaken`, fails in `SubscriberExamples.LossOccurs`); between its callbacks this
  shows in every ring of at least two slots (`CallbacksAreARunIff`), in a ring of one it may not
  (`SilentLossOccurs`);
- each request is served once and in order if fewer clients are blocked than the ring has slots
  (`ServedInPushOrder`, `NoneEvictedUnserved`); with as many as slots, in a ring of any size, one may be
  skipped unserved (`EvictionOccurs`);
- a CRC excludes its range unless the end of the range wraps around (`ExcludesIff`, fails in `Crc32.WrappingOccurs`);
- a vector survives its text form unless it is empty or an element shows a comma
  (`StringsRoundTripIff`, `IntsRoundTripIff`, fails in `VectorText.LossOccurs`);
- `spin_once` returns unless a live service has been taken offline (`WorkLoopEndsIff`, fails in
  `StallOccurs`).

The whole project can be checked with `dafny verify dfyconfig.toml`.

## Model

| member | source | states |
|---|---|---|
| `BuddyLevels.CalculateWhichLevel` | src/coin-data/local/impl/buddy.cpp:181-194 | the loop returns the least level whose block holds the bytes, and one past the last level if none does |
| `BuddyLevels.CalculateBlockLevel` | src/coin-data/local/impl/buddy.cpp:156-173 | the loop returns the greatest level whose block the region contains, and the wrapped -1 below one page |
| `BuddyLevels.LevelFromIsLeast` | src/coin-data/local/impl/buddy.cpp:185-191 | the level found is characterised in both directions: all levels below it are too small and it is not |
| `BuddyLevels.BlockBytesMonotone` | src/coin-data/local/impl/buddy.cpp:65-68 | block sizes never shrink with the level, the sign-extended level 31 included |
| `BuddyLevels.RequestFitsChosenLevel` | src/coin-data/local/impl/buddy.cpp:411-420 | header plus request fit the level chosen for them if and only if the sum does not wrap around in size_t |
| `BuddyLevels.HoldsIff` | src/coin-data/local/impl/buddy.cpp:411-420 | a level an arena can have is at or above the one chosen exactly when its blocks hold the request behind a header, or the sum wraps |
| `BuddyLevels.ChosenIsLeast` | src/coin-data/local/impl/buddy.cpp:411-420 | the level chosen holds the request behind a header and the level below does not |
| `BuddyArena.FreshKeepsInv` | src/coin-data/local/impl/buddy.cpp:375-402 | an attached region is one free block, tiled, listed once, with nothing live |
| `BuddyArena.SearchFindsFirst` | src/coin-data/local/impl/buddy.cpp:423-433 | the search stops at the first non-empty list at or above the level, or past the last level with nothing found |
| `BuddyArena.SplitStep` | src/coin-data/local/impl/buddy.cpp:436-476 | taking a block apart keeps the tiling and all list invariants and touches no live block |
| `BuddyArena.SplitPages` | src/coin-data/local/impl/buddy.cpp:436-476 | a split neither creates nor loses a free page |
| `BuddyArena.SplitDownShape` | src/coin-data/local/impl/buddy.cpp:436-476 | the whole chain of splits leaves two halves at the level wanted, one upper half in every level passed, the rest as before |
| `BuddyArena.SplitDownKeeps` | src/coin-data/local/impl/buddy.cpp:436-476 | the whole chain of splits keeps the invariant and the live blocks |
| `BuddyArena.TakeStep` | src/coin-data/local/impl/buddy.cpp:479-490 | handing out the first listed block keeps the invariant and adds exactly that block to the live ones |
| `BuddyArena.MallocSucceedsIff` | src/coin-data/local/impl/buddy.cpp:411-498 | malloc succeeds exactly when there is a free block with room for the header and the request, and a failing malloc changes nothing at all |
| `BuddyArena.MallocTakesPages` | src/coin-data/local/impl/buddy.cpp:411-498 | a successful malloc adds one live block, of the least size with room for the header and the request, and takes exactly its pages from the free ones; every other live block is untouched |
| `BuddyArena.MallocLeavesOneHalfPerLevel` | src/coin-data/local/impl/buddy.cpp:436-476 | each level split through ends with exactly one fresh half and every other list is what it was |
| `BuddyArena.MallocServes` | src/coin-data/local/impl/buddy.cpp:411-498 | malloc is a best fit: null and no change if no free block holds the request, else the lowest of the smallest that do, cut down to the least size that does |
| `BuddyArena.MallocOnlySplits` | src/coin-data/local/impl/buddy.cpp:436-490 | no other block changes and every new one is a free upper half; the block handed out is marked as one only if it was and was not split |
| `BuddyArena.MergeKeepsTiling` | src/coin-data/local/impl/buddy.cpp:551-564 | joining two adjacent blocks of one level, aligned or not, keeps the region tiled without gap or overlap |
| `BuddyArena.MergeStep` | src/coin-data/local/impl/buddy.cpp:551-564 | one round of the merge keeps the invariant, doubles the carried block and stays within the attached level |
| `BuddyArena.MergePages` | src/coin-data/local/impl/buddy.cpp:551-564 | the pages that are free or carried are the same before and after a merge |
| `BuddyArena.ScanFindsPartner` | src/coin-data/local/impl/buddy.cpp:547-595 | the list walk stops at the first entry that is a partner or lies above, else at the end; related to a definition that does not mention the walk |
| `BuddyArena.InsertStep` | src/coin-data/local/impl/buddy.cpp:568-593 | inserting the carried block at the place found keeps every list ascending and the block off the live set |
| `BuddyArena.CoalesceReturnsPages` | src/coin-data/local/impl/buddy.cpp:507-602 | free, with all its merges, keeps the invariant, makes exactly the pages of that block free and leaves every other live block alone |
| `BuddyArena.FreeMergesToTheEnd` | src/coin-data/local/impl/buddy.cpp:527-597 | free leaves one free block around the one released, one level higher for each block joined, flagged like the lowest of them, in a list with no entry left to join; every block outside is what it was |
| `BuddyArena.LevelInRange` | src/coin-data/local/impl/buddy.cpp:507-602 | no block exceeds the attached level, so block_list is never indexed out of range |
| `BuddyArena.EveryPageInOneBlock` | src/coin-data/local/impl/buddy.cpp:375-602 | every page of the region lies in exactly one block |
| `BuddyArena.PagesAreConserved` | src/coin-data/local/impl/buddy.cpp:375-602 | free pages and live pages are disjoint, together are exactly the attached pages, and their numbers always add up to them |
| `BuddyArena.StepKeepsInv` | src/coin-data/local/impl/buddy.cpp:411-602 | every allowed malloc or free keeps tiling, ordered lists and agreement of lists and marks |
| `BuddyArena.RunKeepsInv` | src/coin-data/local/impl/buddy.cpp:375-602 | after any sequence of mallocs and valid frees the invariant holds, no level exceeds the attached one, and pages are conserved |
| `BuddyArena.PayloadStaysInside` | src/coin-data/local/impl/buddy.cpp:411-498 | a live payload lies in its own block exactly when its request did not wrap |
| `BuddyArena.PayloadsStayApart` | src/coin-data/local/impl/buddy.cpp:411-498 | a payload whose request did not wrap shares no byte with any other live block, header included |
| `BuddyArena.CoalesceUndoesSplits` | src/coin-data/local/impl/buddy.cpp:436-564 | re-merging after a chain of splits gives back the block the chain began with, by induction over the levels |
| `BuddyArena.MallocThenFree` | src/coin-data/local/impl/buddy.cpp:411-602 | malloc followed at once by free brings the block back to the top of its chain and carries on from there |
| `BuddyArena.FreeUndoesMalloc` | src/coin-data/local/impl/buddy.cpp:411-602 | malloc followed at once by free restores every free list if and only if the block does not rejoin its list successor; then only its is_first flag may differ |
| `BuddyArena.NeighboursRejoinIff` | src/coin-data/local/impl/buddy.cpp:527-597 | of two neighbours of one level released into an empty list, aligned or not, the second joins the first if and only if it is not the only one marked as an upper half |
| `BuddyArena.HalvesRejoinOnlyUpperFirst` | src/coin-data/local/impl/buddy.cpp:90-126 | the halves of a split rejoin when the upper one is freed first and stay two blocks when the lower one is |
| `BuddyExamples.RejoiningOccurs` | src/coin-data/local/impl/buddy.cpp:411-602 | after two mallocs and their frees in the same order a further malloc and free leave other lists than before |
| `BuddyExamples.HalvesOccur` | src/coin-data/local/impl/buddy.cpp:90-126 | two mallocs from two pages hand out both halves of a split; freed lower half first they stay two blocks, upper half first they are joined |
| `BuddyExamples.UnalignedBlockOccurs` | src/coin-data/local/impl/buddy.cpp:551-564 | four mallocs and two frees lead to a block of two pages that starts at page one |
| `BuddyExamples.WrappingOccurs` | src/coin-data/local/impl/buddy.cpp:411-420 | a request that makes the sum wrap to zero is given one page, which its payload overruns |
| `BuddyHeaders.ListsAreSound` | src/coin-data/local/impl/buddy.cpp:206-330 | read off the headers in any reachable state: each free list ends in null, is linked both ways, ascends by address and holds free blocks of its level; every free block is in exactly one list and no live block in any |
| `BuddyHeaders.UnlinkChains` | src/coin-data/local/impl/buddy.cpp:309-330 | rewriting the two neighbours takes exactly one entry out of a doubly linked list that ends in null |
| `BuddyHeaders.LinkChains` | src/coin-data/local/impl/buddy.cpp:568-593 | rewriting the neighbours puts exactly one entry into such a list at the given place |
| `BuddyHeaders.UnlinkKeepsLists` | src/coin-data/local/impl/buddy.cpp:309-330 | unlinking in one list leaves the links of all other lists intact |
| `BuddyHeaders.LinkKeepsLists` | src/coin-data/local/impl/buddy.cpp:568-593 | linking into one list leaves the links of all other lists intact |
| `BuddySystem.MergeRepresents` | src/coin-data/local/impl/buddy.cpp:551-564 | the headers written by a merge spell out the merged arena |
| `BuddySystem.SplitRepresents` | src/coin-data/local/impl/buddy.cpp:436-476 | the headers written by a split spell out the split arena |
| `BuddySystem.SplitRound` | src/coin-data/local/impl/buddy.cpp:436-476 | a round of the splitting loop only ever meets an empty list below, so the loop at lines 468-471 that would drop a list is never entered |
| `BuddySystem.Buddy.constructor` | src/coin-data/local/impl/buddy.cpp:339-366 | all list heads start out null |
| `BuddySystem.Buddy.AttachMemory` | src/coin-data/local/impl/buddy.cpp:375-402 | attaching one region of any allowed size gives the arena of its greatest contained level, one free block over all pages |
| `BuddySystem.Buddy.InitFreeBlock` | src/coin-data/local/impl/buddy.cpp:206-229 | writes one header and nothing else, and nothing at all for null |
| `BuddySystem.Buddy.InitUsedBlock` | src/coin-data/local/impl/buddy.cpp:238-254 | writes one header and nothing else, and nothing at all for null |
| `BuddySystem.Buddy.RemoveBlock` | src/coin-data/local/impl/buddy.cpp:309-330 | takes the block out of its list at whatever position it is, keeping all other lists and headers |
| `BuddySystem.Buddy.SplitBlock` | src/coin-data/local/impl/buddy.cpp:439-475 | one round over headers and list heads is one split of the arena |
| `BuddySystem.Buddy.FindLevel` | src/coin-data/local/impl/buddy.cpp:419-433 | the do-while search returns the level the specification searches for |
| `BuddySystem.Buddy.SplitTo` | src/coin-data/local/impl/buddy.cpp:436-476 | the splitting loop over headers refines the chain of splits |
| `BuddySystem.Buddy.UseHead` | src/coin-data/local/impl/buddy.cpp:479-493 | handing out the list head refines the taking of the first block |
| `BuddySystem.Buddy.WritePayload` | src/coin-data/local/impl/buddy.cpp:479-493 | whatever user code writes behind the header of a live block, even something shaped like a header, the headers still spell out the same arena |
| `BuddySystem.Buddy.Malloc` | src/coin-data/local/impl/buddy.cpp:411-498 | the pointer code refines the arena and serves the request: the payload address in the best-fitting block, cut down to the least size, or null exactly if none holds it; nothing else changes but the splits |
| `BuddySystem.Buddy.BuddyIsBuddy` | src/coin-data/local/impl/buddy.cpp:90-126 | the header test agrees with the arena test |
| `BuddySystem.Buddy.MergeWith` | src/coin-data/local/impl/buddy.cpp:551-564 | unlinking and rewriting the lower header is one merge of the arena |
| `BuddySystem.Buddy.WalkList` | src/coin-data/local/impl/buddy.cpp:547-595 | the pointer walk stops where the arena scan does |
| `BuddySystem.Buddy.PlaceOrMerge` | src/coin-data/local/impl/buddy.cpp:527-597 | one round of the outer loop inserts exactly if the block has no partner left, and otherwise leaves fewer blocks and the same final result |
| `BuddySystem.Buddy.Free` | src/coin-data/local/impl/buddy.cpp:507-602 | terminates; refines the release in the arena for a live payload and merges until nothing is left to join; reports the double free of a block still marked free and then changes no header, no list head and nothing in the arena |
| `SharedRing.SharedCircularBuffer.PushBack` | src/coin-data/local/impl/shmobj_manager.hpp:755-767 | the ring refines its push log: tail counts pushes, head trails by size minus one, every readable slot holds its own value |
| `SharedRing.SharedCircularBuffer.At` | src/coin-data/local/impl/shmobj_manager.hpp:769-782 | the index operator refers to the slot holding the log entry at the clamped index |
| `SharedRing.SharedCircularBuffer.Copy` | src/coin-data/local/impl/shmobj_manager.hpp:784-797 | copy returns the log entry at the clamped index, and its own entry for an index inside the window |
| `SharedRing.SlotsDiffer` | src/coin-data/local/impl/shmobj_manager.hpp:765-766 | indices less than the size apart never share a slot |
| `SharedRing.NextSlotIsNotReadable` | src/coin-data/local/impl/shmobj_manager.hpp:765-766 | the slot about to be written is never a readable one |
| `SharedRing.ReadStaysInWindow` | src/coin-data/local/impl/shmobj_manager.hpp:772-781 | clamping stays inside the window and is the identity in it |
| `SubscriberRuns.TraceKeepsInv` | src/coin-data/local/local_channal.hpp:389-432 | the invariant of positions, values and flags holds in every state of every interleaving with publishers |
| `SubscriberRuns.DeliveryOrder` | src/coin-data/local/local_channal.hpp:389-432 | positions never go back, a message comes at most twice and again only after an overrun between is_ready_ and invoke_, nothing from before the connection comes at all |
| `SubscriberRuns.CallbacksAreTheTaken` | src/coin-data/local/local_channal.hpp:398-425 | between rounds the callback has been given exactly the messages taken, in order; with a local buffer of size zero it is never called |
| `SubscriberRuns.NoLagNoClamp` | src/coin-data/local/local_channal.hpp:389-432 | a reader never more than size minus one behind is never clamped |
| `SubscriberRuns.ClampedIffOvertaken` | src/coin-data/local/local_channal.hpp:389-415 | the reader's index or position was ever moved by clamping if and only if some look into the ring was made while the log was further ahead of it than the ring holds |
| `SubscriberRuns.LosslessIffNeverOvertaken` | src/coin-data/local/local_channal.cpp:122-140 | between rounds every message from the connection up to the index was taken once and in order if and only if no look was made that far behind; the callbacks are then exactly those messages, and among distinct messages only then; a lag of at most size minus one is enough |
| `SubscriberRuns.CallbacksAreARunIff` | src/coin-data/local/local_channal.cpp:122-140 | in a ring of two slots or more the callbacks are a contiguous run of distinct messages from the connection on if and only if no look was made that far behind |
| `SubscriberRuns.TurnTakesOne` | src/coin-data/local/local_channal.hpp:389-425 | whatever is published meanwhile, a turn begun with a message to take ends within five reader steps and takes exactly one |
| `SubscriberExamples.LossOccurs` | src/coin-data/local/local_channal.hpp:389-432 | two messages into a ring of two slots before the reader looks: the first never arrives |
| `SubscriberExamples.RepeatOccurs` | src/coin-data/local/local_channal.hpp:389-432 | a push between is_ready_ and invoke_ makes the reader lose one message and take the next twice |
| `SubscriberExamples.SilentLossOccurs` | src/coin-data/local/local_channal.hpp:389-432 | in a ring of one slot a message can be passed over with no callback at all |
| `Subscriber.LocalPublisher.Publish` | src/coin-data/local/local_channal.hpp:323-327 | publishing appends one entry to the push log |
| `Subscriber.LocalSubscriber.IsReady` | src/coin-data/local/local_channal.hpp:389-396 | the index moves to the head if overrun, and the answer is whether a message is left from there on; the method is the run steps of is_ready_ |
| `Subscriber.LocalSubscriber.Invoke` | src/coin-data/local/local_channal.hpp:398-415 | takes the message at the clamped index into the local buffer, or drops it if there is no room for one, and advances; the method is the run step |
| `Subscriber.LocalSubscriber.Spin` | src/coin-data/local/local_channal.hpp:417-425 | the callback is given the buffered message, if there is one; the method is the run step |
| `Subscriber.LocalSubscriber.SpinOnce` | src/coin-data/local/local_channal.cpp:131-136 | one turn calls back the oldest message not passed and not overrun and moves on by one, or calls nothing if there is none; the method is its run steps in order |
| `Subscriber.TurnTakesNext` | src/coin-data/local/local_channal.cpp:131-136 | in any state of a run an undisturbed turn calls back the oldest message left, if there is one |
| `Subscriber.ReaderCatchesUp` | src/coin-data/local/local_channal.cpp:131-136 | left alone a reader calls back everything the ring still holds for it, in order, one message a turn, and is then up to date |
| `ServiceCalls.PendingAtMostBlocked` | src/coin-data/local/local_channal.hpp:615-638 | there are never more unanswered requests than blocked clients |
| `ServiceCalls.WindowHoldsPending` | src/coin-data/local/local_channal.hpp:530-554 | with at most size minus one clients blocked no unanswered request has left the window |
| `ServiceCalls.TraceKeepsInv` | src/coin-data/local/local_channal.hpp:530-638 | the service invariant holds in every state of every interleaving in which fewer clients are blocked than the ring has slots |
| `ServiceCalls.ServedInPushOrder` | src/coin-data/local/local_channal.hpp:544-554 | in such a run each request reaches the callback at most once and in push order |
| `ServiceCalls.NoneEvictedUnserved` | src/coin-data/local/local_channal.hpp:530-554 | in such a run a request not yet answered is still in its slot and never skipped |
| `ServiceCalls.TrueMeansServed` | src/coin-data/local/local_channal.hpp:615-638 | in such a run call returns true only after the callback ran on the caller's own request |
| `ServiceCalls.ServiceAdvances` | src/coin-data/local/local_channal.hpp:544-554 | with a request waiting every step of the service brings it nearer to being served and marked ready, and the last step does it |
| `ServiceCalls.EveryRequestIsServed` | src/coin-data/local/local_channal.hpp:544-554 | within seven steps of the service for each request up to it, every request pushed is served and marked ready |
| `ServiceCalls.EvictionOccurs` | src/coin-data/local/local_channal.hpp:530-554 | the bound is tight: in a ring of any size, as many blocked clients as slots make the service skip the first request unserved while its client waits for it |
| `Service.LocalService.IsReady` | src/coin-data/local/local_channal.hpp:530-537 | the index moves to the head if overrun and the answer is whether a request is left |
| `Service.LocalService.Spin` | src/coin-data/local/local_channal.hpp:544-554 | at most one request is served, the one at the clamped index, and no other request in the ring is touched |
| `Service.LocalClient.Begin` | src/coin-data/local/local_channal.hpp:615-625 | a call appends one fresh unanswered request to the push log |
| `Service.LocalClient.Poll` | src/coin-data/local/local_channal.hpp:627-637 | one look of the waiting loop: true exactly when the request is ready, false only when the service is gone or the process ends |
| `SpscQueue.LockFreeQueue.PushBack` | src/coin-commons/utils/threadpool.hpp:32-43 | a whole call: accepted exactly when fewer than capacity minus one are held, appending the value, else nothing changes |
| `SpscQueue.LockFreeQueue.PopFront` | src/coin-commons/utils/threadpool.hpp:45-55 | a whole call: finds an element exactly when one is held, the oldest, else leaves the argument |
| `SpscQueue.LockFreeQueue.Size` | src/coin-commons/utils/threadpool.hpp:57-61 | a quiescent size is pushes minus pops |
| `SpscQueue.ProducerKeepsInv` | src/coin-commons/utils/threadpool.hpp:32-43 | each single load or store of the producer keeps the invariant, and it rejects exactly when the queue was full as head was loaded |
| `SpscQueue.ConsumerKeepsInv` | src/coin-commons/utils/threadpool.hpp:45-55 | each single load or store of the consumer keeps the invariant, and it finds the queue empty exactly when it was as tail was loaded |
| `SpscQueue.StepsRefineBoundedFifo` | src/coin-commons/utils/threadpool.hpp:28-68 | every step either does nothing to or performs exactly one atomic operation of a bounded FIFO, which makes the queue linearizable |
| `SpscQueue.PushPerformsOnce` | src/coin-commons/utils/threadpool.hpp:32-43 | however the consumer goes on popping meanwhile, a push is over after three steps of its own and has done exactly one thing: accepted its own value or found the queue full |
| `SpscQueue.PopPerformsOnce` | src/coin-commons/utils/threadpool.hpp:45-55 | a pop likewise: it has delivered one value or found the queue empty |
| `SpscQueue.WrittenSlotIsNotRead` | src/coin-commons/utils/threadpool.hpp:40-52 | the slot being written is never the slot being read |
| `SpscQueue.PoppedIsPrefix` | src/coin-commons/utils/threadpool.hpp:28-68 | in every reachable state the values popped are a prefix of those accepted and at most capacity minus one are held |
| `SpscQueue.SizeCounts` | src/coin-commons/utils/threadpool.hpp:57-61 | the size expression recovers pushes minus pops from the two indices |
| `SpscQueue.IndicesDiffer` | src/coin-commons/utils/threadpool.hpp:36-48 | the indices are equal exactly when nothing is held |
| `PoolWorker.Worker.AddTask` | src/coin-commons/utils/threadpool.cpp:115-145 | a task joins the queue unless nine are waiting, when it is dropped without a word; nothing else changes |
| `PoolWorker.Worker.Drain` | src/coin-commons/utils/threadpool.cpp:194-216 | the loop runs accepted tasks once each and in the order accepted, all of them unless is_working_ is cleared first, and then as many as it had rounds |
| `WorkerWakeup.SizeIsZeroIff` | src/coin-commons/utils/threadpool.hpp:57-61 | a size computed from a stale tail is zero exactly when everything pushed by then has been popped |
| `WorkerWakeup.WorkerKeepsInv` | src/coin-commons/utils/threadpool.cpp:182-235 | every step of run_ keeps the invariant |
| `WorkerWakeup.AddTaskStepKeepsInv` | src/coin-commons/utils/threadpool.cpp:97-153 | every step of add_task_to keeps the invariant |
| `WorkerWakeup.DestructorKeepsInv` | src/coin-commons/utils/threadpool.cpp:28-36 | every step of the destructor's wake-up keeps the invariant |
| `WorkerWakeup.SpinnerKeepsInv` | src/coin-commons/utils/threadpool.cpp:165-180 | every step of spin_once keeps the invariant |
| `WorkerWakeup.TraceKeepsInv` | src/coin-commons/utils/threadpool.cpp:97-235 | the invariant holds in every reachable state, spurious wake-ups included |
| `WorkerWakeup.AsleepWithWorkIsOwedANotify` | src/coin-commons/utils/threadpool.cpp:219-232 | no lost wake-up: a worker asleep with work queued, or with the pool shutting down, is still owed a notification by someone bound to send it |
| `WorkerWakeup.OwedNotifyCanBeDelivered` | src/coin-commons/utils/threadpool.cpp:146-150 | from any such state at most three steps of the others wake the worker |
| `WorkerWakeup.AwakeWorkerPops` | src/coin-commons/utils/threadpool.cpp:182-235 | a worker that is awake pops the oldest queued task within thirteen steps of its own, stale sizes included |
| `WorkerWakeup.SleeperWithWorkPops` | src/coin-commons/utils/threadpool.cpp:97-235 | for a worker asleep on a queue that is not empty, four turns of those who notify and eleven of its own are enough to pop the oldest task |
| `WorkerWakeup.StopAdvances` | src/coin-commons/utils/threadpool.cpp:182-235 | once is_working_ is cleared each step of a worker that is up brings its exit nearer, at most ten steps away, and it pops at most one more task |
| `SharedHandles.RefsAfter` | src/coin-data/local/impl/shm_shared_ptr.hpp:186-188 | setting one handle changes the number of handles to a block by exactly the difference of that handle |
| `SharedHandles.HeldIsIntact` | src/coin-data/local/impl/shm_shared_ptr.hpp:211-237 | a block some handle refers to has a positive count and has been freed nowhere |
| `SharedHandles.SharedMemory.FromRaw` | src/coin-data/local/impl/shm_shared_ptr.hpp:27-38 | a new handle has a count of one |
| `SharedHandles.SharedMemory.Default` | src/coin-data/local/impl/shm_shared_ptr.hpp:25 | a default handle is empty |
| `SharedHandles.SharedMemory.CopyConstruct` | src/coin-data/local/impl/shm_shared_ptr.hpp:73-91 | copying keeps the counter equal to the number of handles |
| `SharedHandles.SharedMemory.MoveConstruct` | src/coin-data/local/impl/shm_shared_ptr.hpp:48-71 | moving changes no count and empties the source |
| `SharedHandles.SharedMemory.CopyAssign` | src/coin-data/local/impl/shm_shared_ptr.hpp:93-113 | assignment, to a handle of the same object as well, keeps the counter exact; assigning an empty handle does nothing |
| `SharedHandles.SharedMemory.MoveAssign` | src/coin-data/local/impl/shm_shared_ptr.hpp:115-141 | move assignment, to a handle of the same object as well, keeps the counter exact; from an empty handle or itself it does nothing |
| `SharedHandles.SharedMemory.Reset` | src/coin-data/local/impl/shm_shared_ptr.hpp:143-156 | reset empties the handle and keeps the counter exact |
| `SharedHandles.SharedMemory.Destroy` | src/coin-data/local/impl/shm_shared_ptr.hpp:40-46 | destruction removes the handle and keeps the counter exact |
| `SharedHandles.SharedMemory.Decrease` | src/coin-data/local/impl/shm_shared_ptr.hpp:211-237 | the last handle frees payload, counter and mutex once each; any other only counts down |
| `SharedHandles.DropKeepsInv` | src/coin-data/local/impl/shm_shared_ptr.hpp:211-237 | giving up a handle keeps the invariant: count equals handles, freed exactly once and only when none is left |
| `SharedHandles.GainKeepsInv` | src/coin-data/local/impl/shm_shared_ptr.hpp:239-243 | gaining a handle keeps it |
| `SharedHandles.ReleaseKeepsOther` | src/coin-data/local/impl/shm_shared_ptr.hpp:143-156 | releasing through reset or assignment keeps it |
| `SharedHandles.TakeKeepsInv` | src/coin-data/local/impl/shm_shared_ptr.hpp:59-69 | a move keeps it |
| `SharedHandles.NewBlockKeepsInv` | src/coin-data/local/impl/shm_shared_ptr.hpp:27-38 | a new block keeps it |
| `HandleRuns.StepKeepsInv` | src/coin-data/local/impl/shm_shared_ptr.hpp:40-156 | each single lock, load, store, count, free and unlock of an operation under way, whatever the others are at, keeps the invariant |
| `HandleRuns.BeginKeepsInv` | src/coin-data/local/impl/shm_shared_ptr.hpp:40-156 | beginning a destruction, reset, copy or move on handles nobody else is changing keeps it |
| `HandleRuns.TraceKeepsInv` | src/coin-data/local/impl/shm_shared_ptr.hpp:40-243 | the invariant holds in every state of every interleaving |
| `HandleRuns.FreedOnceAndLast` | src/coin-data/local/impl/shm_shared_ptr.hpp:211-237 | in every interleaving no part of a block is freed twice, nothing is freed while the count is positive or two handles refer to it, and a block no operation has in hand counts its handles exactly or is freed and has none |
| `HandleRuns.NothingIsUsedAfterFree` | src/coin-data/local/impl/shm_shared_ptr.hpp:186-243 | in every interleaving no step locks, unlocks, counts or frees a part that was freed before, and every step between lock and unlock is made by the holder of the mutex |
| `HandleRuns.MoveDoesNotFree` | src/coin-data/local/impl/shm_shared_ptr.hpp:64-70 | the decrease inside a move never finds zero |
| `HandleExamples.ContentionOccurs` | src/coin-data/local/impl/shm_shared_ptr.hpp:40-46 | two handles of one block, both given up at once: a run in which the second process is held up at the mutex after the first has counted down, and in which the block ends freed exactly once |
| `HandleRuns.QuietIsSettled` | src/coin-data/local/impl/shm_shared_ptr.hpp:40-243 | when no operation is under way the count is the number of handles, and the parts are freed once each exactly if there is none |
| `HandleEffects.NextIsOwnOrElsewhere` | src/coin-data/local/impl/shm_shared_ptr.hpp:40-156 | between two steps of an operation nobody changes its handles |
| `HandleEffects.OperationsTakeEffect` | src/coin-data/local/impl/shm_shared_ptr.hpp:40-156 | when an operation ends, in any interleaving, a copy refers to what its source referred to as it began, a moved handle too with its source empty, a reset handle is empty and a destroyed one gone |
| `HandleEffects.StepsComeToAnEnd` | src/coin-data/local/impl/shm_shared_ptr.hpp:40-243 | an operation not held up at a mutex comes nearer its end with every step and needs fifteen at most |
| `HandleEffects.NoDeadlock` | src/coin-data/local/impl/shm_shared_ptr.hpp:40-243 | in every reachable state with operations under way one of them can go on |
| `ObjectLife.CreateKeepsInv` | src/coin-data/local/impl/shmobj_manager.hpp:390-485 | create keeps every count exact |
| `ObjectLife.CountInKeepsCore` | src/coin-data/local/impl/shmobj_manager.cpp:266-305 | a discovery counts itself in exactly once |
| `ObjectLife.CountOutKeepsCore` | src/coin-data/local/impl/shmobj_manager.cpp:397-413 | a sweep counts itself out exactly once, and the object it counts out of has not been given back |
| `ObjectLife.ReclaimKeepsCore` | src/coin-data/local/impl/shmobj_manager.cpp:422-456 | the clearing loop gives back exactly the uncounted objects, and leaves none of them behind |
| `ObjectLife.UnmapKeepsCore` | src/coin-data/local/impl/shmobj_manager.hpp:528-551 | leaving the object map either releases the object or moves it to the removed map with the owner's count taken off |
| `ObjectLife.DestroyKeepsInv` | src/coin-data/local/impl/shmobj_manager.hpp:508-561 | the locked part of destroy keeps every count exact and the destroyed mark right |
| `ObjectLife.StepKeepsInv` | src/coin-data/local/impl/shmobj_manager.hpp:390-563 | every step of owner, external nodes and monitor keeps the invariant |
| `ObjectLife.TraceKeepsInv` | src/coin-data/local/impl/shmobj_manager.hpp:390-563 | the invariant holds in every reachable state |
| `ObjectLife.CountsAreExact` | src/coin-data/local/impl/shmobj_manager.hpp:390-563 | in every reachable state ref_cnt is one for the owner's map entry plus one per node listing the object; an object is released at most once, and never while listed or mapped |
| `ObjectLife.DestroyLeavesNoGarbage` | src/coin-data/local/impl/shmobj_manager.hpp:508-561 | after a destroy every object not given back is still mapped or listed by a node that can be named |
| `ObjectLife.SweepSettles` | src/coin-data/local/impl/shmobj_manager.cpp:397-413 | after a sweep with a live owner a node lists nothing but what the owner's map holds |
| `ObjectEffects.DestroyTakesEffect` | src/coin-data/local/impl/shmobj_manager.hpp:508-561 | destroy takes the object out of the map and marks it, gives it back at once if no node lists it and else keeps it with one reference per node that does; objects destroyed earlier that nobody lists any more are given back and no other object changes |
| `ObjectEffects.CreateTakesEffect` | src/coin-data/local/impl/shmobj_manager.hpp:390-485 | a create of a new name maps and holds one object counted once, any other create changes no map |
| `ObjectEffects.DiscoverTakesEffect` | src/coin-data/local/impl/shmobj_manager.hpp:565-618 | a name not known to the node is counted in and listed if the live owner maps it, else waited for; a known one changes nothing |
| `ObjectEffects.CreatedIsFound` | src/coin-data/local/impl/shmobj_manager.cpp:266-313 | a node that looks for a new object finds it and is the second to be counted |
| `ObjectEffects.NameIsFreeAgain` | src/coin-data/local/impl/shmobj_manager.hpp:489-561 | after a destroy the name can be created anew while nodes still list the old object, which is kept for them |
| `ObjectEffects.EventSettles` | src/coin-data/local/impl/shmobj_manager.cpp:377-418 | with a live owner a node lists after an event exactly what is mapped of what it listed and what it waited for, and waits for the rest; a name destroyed and created again between two events is waited for after the first |
| `ObjectManager.ShmObjManager.Create` | src/coin-data/local/impl/shmobj_manager.hpp:390-485 | a name already held or already mapped is not created again; else one new object counted once is mapped and held |
| `ObjectManager.ShmObjManager.ClearRemoveMap` | src/coin-data/local/impl/shmobj_manager.cpp:422-456 | the loop over the removed map gives back all uncounted objects at once |
| `ObjectManager.ShmObjManager.DropHandle` | src/coin-data/local/impl/shmobj_manager.hpp:489-506 | the first part of destroy lets go of the owner's handle only |
| `ObjectManager.ShmObjManager.DestroyObject` | src/coin-data/local/impl/shmobj_manager.hpp:508-561 | the second part of destroy: the name is unmapped, the object marked, given back if no node lists it and else kept for those that do; an unknown name changes nothing |
| `ObjectManager.ShmObjManager.DiscoveryShm` | src/coin-data/local/impl/shmobj_manager.cpp:266-313 | found exactly when the owner is alive and maps the name, and then counted and listed |
| `ObjectManager.ShmObjManager.Discovery` | src/coin-data/local/impl/shmobj_manager.hpp:565-618 | own lists first, which change nothing; else counted in and listed if the live owner maps the name, else waited for |
| `ObjectManager.ShmObjManager.RediscoverAll` | src/coin-data/local/impl/shmobj_manager.cpp:382-395 | the loop counts in for every awaited name that now exists, and only for those |
| `ObjectManager.ShmObjManager.SweepAll` | src/coin-data/local/impl/shmobj_manager.cpp:397-413 | the loop counts out of every listed destroyed object, and only of those |
| `ObjectManager.ShmObjManager.InotifyEvent` | src/coin-data/local/impl/shmobj_manager.cpp:377-418 | the handler is the two loops in turn; with a live owner the node afterwards lists exactly what is mapped of what it knew, as in EventSettles, and no other node is touched |
| `ObjectManager.ShmObjManager.NodeMonitor` | src/coin-data/local/impl/shmobj_manager.cpp:321-354 | for a dead owner every entry is counted out, marked destroyed and waited for; for a live one nothing changes |
| `ChannelLists.CheckedConserves` | src/coin-data/local/local_channal.cpp:159-216 | connecting and disconnecting lose no live reader and enter none twice |
| `ChannelLists.CheckedKeepsInv` | src/coin-data/local/local_channal.cpp:159-216 | each reader is in one list at most, connected readers hold their object, waiting ones do not, and after a check every connected one is online |
| `ChannelLists.CheckTakesEffect` | src/coin-data/local/local_channal.cpp:187-216 | after a check exactly those readers are connected that are alive and online and were connected, or were waiting for an object that exists when the maps had changed; every other live one waits, and the time of the maps is remembered |
| `ChannelLists.CheckKeepsOrder` | src/coin-data/local/local_channal.cpp:187-216 | those connected before come first and the new ones after them, each in the order held |
| `ChannelLists.KeptCount` | src/coin-data/local/local_channal.cpp:161-181 | an entry kept by a loop keeps its number of occurrences, any other has none left |
| `ChannelLists.LocalChannal.CheckConnectImmediately` | src/coin-data/local/local_channal.cpp:159-185 | the erasing loop connects exactly the live waiting readers whose object exists, in order, forgets the dead, and remembers the time of the maps |
| `ChannelLists.LocalChannal.CheckConnectStatus` | src/coin-data/local/local_channal.cpp:187-216 | connects what can be if the maps changed, then moves exactly the offline readers back to waiting, in order; the result is that of CheckTakesEffect |
| `ChannelLists.LocalChannal.SpinLists` | src/coin-data/local/local_channal.cpp:118-157 | every live reader is spun once in list order, then every live service, and the dead are forgotten; whoever is asked whether it is ready holds its object, and so does whoever is connected afterwards |
| `ChannelLists.WorkLoopEndsIff` | src/coin-data/local/local_channal.cpp:142-156 | the loop over the services ends if and only if every live service is online: an offline one is never passed over |
| `ChannelLists.StallOccurs` | src/coin-data/local/local_channal.cpp:142-156 | one live service with its flag down is enough for the loop never to end |
| `Crc32Table.TableIsEightShifts` | src/coin-commons/utils/crc32.cpp:48-101 | each of the 256 constants is eight single-bit shifts of its index |
| `Crc32.AddCharFeedsEightBits` | src/coin-commons/utils/crc32.cpp:103-106 | one table look-up does the work of feeding the eight bits of the byte |
| `Crc32.AddCharExtends` | src/coin-commons/utils/crc32.cpp:103-106 | one look-up extends the check by one byte |
| `Crc32.CalculateCrc32` | src/coin-commons/utils/crc32.cpp:113-124 | for every seed and buffer the loop returns the bit-at-a-time CRC |
| `Crc32.ExcludeOffset` | src/coin-commons/utils/crc32.cpp:126-141 | the excluding loop returns the CRC of the buffer with the range read as zero, its end computed in size_t |
| `Crc32.ExclusionIsExact` | src/coin-commons/utils/crc32.cpp:126-141 | a byte influences the result exactly when it lies outside the excluded range |
| `Crc32.ExcludesIff` | src/coin-commons/utils/crc32.cpp:126-141 | the range is excluded exactly when its end does not wrap around, or the bytes in question are zero anyway |
| `Crc32.WrappingOccurs` | src/coin-commons/utils/crc32.cpp:126-141 | a range whose end wraps to zero excludes nothing, and the CRC differs from that of the blanked buffer |
| `ShiftRegister.FeedingIsShifting` | src/coin-commons/utils/crc32.cpp:9-35 | up to 32 bits fed one by one are the bits added at once and shifted through |
| `ShiftRegister.BitCrcOneToOne` | src/coin-commons/utils/crc32.cpp:9-35 | the register loses nothing: after equal messages equal registers were equal before |
| `ShiftRegister.CrcConcat` | src/coin-commons/utils/crc32.cpp:108-124 | the CRC of a concatenation chains through the seed |
| `ShiftRegister.BurstChangesCrc` | src/coin-commons/utils/crc32.cpp:108-124 | two messages that differ only within 32 consecutive bits always have different CRCs |
| `ShiftRegister.FourBytesChangeCrc` | src/coin-commons/utils/crc32.cpp:108-124 | two buffers that differ only within four consecutive bytes always have different CRCs |
| `ShiftRegister.OneByteChangesCrc` | src/coin-commons/utils/crc32.cpp:108-124 | changing one byte always changes the CRC |
| `ShiftRegister.SeedChangesCrc` | src/coin-commons/utils/crc32.cpp:108-124 | no two seeds give one buffer the same CRC |
| `BitWords.ShiftLinear` | src/coin-commons/utils/crc32.cpp:14-35 | the shift of a sum is the sum of the shifts |
| `BitWords.ShiftOneToOne` | src/coin-commons/utils/crc32.cpp:14-35 | the shift loses nothing |
| `VectorText.ToString` | src/coin-commons/parmeter/impl/anydata/anydata_adapter_toml.hpp:180-191 | the printing loop appends every element and a comma to what the string held, cuts the last character and adds brackets |
| `VectorText.FromString` | src/coin-commons/parmeter/impl/anydata/anydata_adapter_toml.hpp:193-209 | the parsing loop appends one parsed element per field; the empty string is out of range |
| `VectorText.GetLine` | src/coin-commons/parmeter/impl/anydata/anydata_adapter_toml.hpp:201 | a line is the text up to the next comma, and the stream ends exactly when there is none |
| `VectorText.JoinedFields` | src/coin-commons/parmeter/impl/anydata/anydata_adapter_toml.hpp:198-206 | splitting loses nothing: fields joined with commas are the text |
| `VectorText.FieldsOfJoined` | src/coin-commons/parmeter/impl/anydata/anydata_adapter_toml.hpp:180-209 | comma-free texts joined with commas are the fields |
| `VectorText.FieldsComeBackIff` | src/coin-commons/parmeter/impl/anydata/anydata_adapter_toml.hpp:180-209 | the printed texts come back as the fields if and only if there is one, none holds a comma, and the target string was empty |
| `VectorText.StringsRoundTripIff` | src/coin-commons/parmeter/impl/anydata/anydata_adapter_toml.hpp:121-209 | a vector of strings survives printing and parsing if and only if it is not empty and comma-free |
| `VectorText.StringsReprintIff` | src/coin-commons/parmeter/impl/anydata/anydata_adapter_toml.hpp:121-209 | printing what was parsed gives the text back if and only if it is in brackets |
| `VectorText.LossOccurs` | src/coin-commons/parmeter/impl/anydata/anydata_adapter_toml.hpp:121-209 | neither the empty vector nor a string with a comma comes back |
| `VectorText.IntReadsBack` | src/coin-commons/parmeter/impl/anydata/anydata_adapter_toml.hpp:72-84 | reading a printed int gives it back, whatever the variable held before, and the nearest int beyond the range |
| `VectorText.ReadsNumber` | src/coin-commons/parmeter/impl/anydata/anydata_adapter_toml.hpp:78-84 | whatever the field, spaces, a sign and the digits up to the first other character give the number, clamped to int; no digits give zero |
| `VectorText.ReadsNothing` | src/coin-commons/parmeter/impl/anydata/anydata_adapter_toml.hpp:78-84 | a field of spaces leaves the variable as it was |
| `VectorText.SpacedIntsReadBack` | src/coin-commons/parmeter/impl/anydata/anydata_adapter_toml.hpp:193-209 | spaces before and after the numbers do no harm |
| `VectorText.DecimalReadsBack` | src/coin-commons/parmeter/impl/anydata/anydata_adapter_toml.hpp:72-76 | the decimal digits of a number have that number as their value |
| `VectorText.IntsRoundTripIff` | src/coin-commons/parmeter/impl/anydata/anydata_adapter_toml.hpp:72-209 | a vector of ints survives printing and parsing if and only if it is not empty |

## Left out

- BuddySystem.Buddy.AttachMemory: one region only, of at least a page, for which the source would index its lists with -1, and of less than 2^63 bytes, as the repository attaches one; inserting into a non-empty list by `buddy_insert_blcok` is not modelled.
- BuddySystem.Buddy.Free: takes only an address whose block has a readable header, as the source does; the checksum test is left out because its function returns a constant, and the owner fields are those of the one process that attached.
- BuddySystem.Buddy.Malloc: a request beyond every level makes the search read up to two entries past the 32 list heads; the model gives the array these entries and keeps them null, which the source does not guarantee.
- The allocator's process-shared lock: one call is one step.
- `dump_buddy`, `buddy_memory_check`, and the size of the control structure.
- SharedRing.SharedCircularBuffer.PushBack: head and tail are unbounded counters, so a run of 2^64 pushes is outside the model; the lock is always obtained.
- SubscriberRuns.LosslessIffNeverOvertaken: the subscriber aborts on an empty pointer, and publishing one leaves the slot as it was; publishing empty pointers is left out.
- ServiceCalls.TraceKeepsInv: that fewer clients are blocked than the ring has slots is a hypothesis on the run, which nothing in the code enforces; the service stays online and clients do not give up waiting; what happens to a request abandoned by its client is left out.
- Service.LocalClient.Poll: the waiting loop with its sleep is one look per call, so that other processes can act between two looks.
- Service.LocalService.Spin: the callback is an unknown function of the request and its answer that touches nothing else.
- Closing a publisher or service, which resets the slots of its ring one by one.
- SpscQueue.PoppedIsPrefix: memory is sequentially consistent; the weaker orders of the atomics are left out, and so is overflow of an index, which stays below the capacity.
- WorkerWakeup.TraceKeepsInv: one worker only, and its calls are steps rather than methods; the growing vector of workers, starting and joining threads, status and time stores and the watcher thread are left out.
- PoolWorker.Worker.AddTask: one worker without its thread, so starting a thread, the look at its status and the notification are left out (`WorkerWakeup` has the notification); the future of a dropped task never becomes ready; the model has the drop, not the future.
- PoolWorker.Worker.Drain: nothing is added while the loop runs; when is_working_ is found cleared is a parameter.
- SharedHandles.SharedMemory.CopyAssign: the operation runs undisturbed, as in every method of the class; a mutex is always obtained, and a handle built from a null raw pointer is left out.
- HandleRuns.TraceKeepsInv: a handle that one operation writes is used by no other until that ends, since the mutex belongs to the block and not to the handle; a handle may be read by several at once.
- ObjectLife.TraceKeepsInv: keys of the removed map are unique, locks are always obtained, an owner is either alive or dead for all nodes at once, and external nodes do not die.
- ObjectLife.DestroyLeavesNoGarbage: says nothing about handles that external code keeps after its node has given up the count.
- ObjectManager.ShmObjManager.Create: the handle returned is not modelled as a value; the source takes up again one it remembered under the same name, if there is one.
- ObjectManager.ShmObjManager.DropHandle: a handle still used elsewhere is remembered by the source in the owner's list of removed handles; the model has no such list.
- ObjectManager.ShmObjManager.Discovery: the handle returned to the caller is its node's entry, not a value of its own; one owner and its external nodes; files, memory mapping, key files, notification events, the owner looking up its own objects, the owner's list of removed handles, and checks of type, process and release function are left out.
- ChannelLists.LocalChannal.SpinLists: who is alive and online does not change during one call, and connecting to an object that exists succeeds.
- ChannelLists.WorkLoopEndsIff: the method that runs the loop requires that it ends; the lemma says when it does.
- Crc32Table.Table: the constants are laid out in rows of sixteen.
- VectorText.FromString: stream extraction and `std::getline` are modelled from their standard definitions in the classic locale; only elements of type `int` and `std::string` are treated.
- The empty vector's text, which reads back as one element, is covered by the round-trip conditions only.
- The TOML tables behind encode and decode, environment and regular-expression parsing, process launching, shared-memory and file plumbing.
- Lock timeouts, robust mutexes and dead lock holders.

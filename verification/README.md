# tinynet: models of its lock-free structures, strings, conversions and framing

This project models the parts of tinynet where correctness is hardest to see from
reading one function: the queues and hash tables that threads share without locks, the
semaphore in front of the kernel's, the copy-on-write strings and integer conversions of
the folly copy it ships, and the loop that cuts the byte stream of a socket into packets.

## How it is built

Each concurrent structure has two main modules. The first (`MpmcQueue`, `HashArray`, ...) is a
state machine: the shared memory, a program counter with locals for every thread, and one
transition per atomic access. It proves an inductive invariant over every access, lifts it
to every schedule of any number of threads, and states the theorems about all reachable
states and all runs. Values that no program variable holds (tickets, orders, what was
taken) are history fields, named as such.

The second (`MpmcProgram`, `HashArrayProgram`, ...) is the source's own code: a class whose
methods loop over local variables and read and write the fields in place. Between any two
accesses it calls `Others`, whose contract lets the other threads run any schedule; its
body moves nobody, but callers see only the contract. A ghost log holds every step taken
since the object was made; `Valid()` says that the fields are those of the state that the
machine reaches by that log, so the theorems about reachable states apply between any two
calls (`IsReachable`). Every operation ensures `CallRan`: some schedule leads from the state
it was called in to the state it returns in, in which the thread starts this call, once, and
afterwards only goes on with it. Its answers are tied to that run: what a miss, a refusal or
a hit says was so in one of its states (`CallGave`, `RefusedCall`, `CallSaw` and the like).

Those meanings are theorems about the machines, over whole calls in any run
(`HashArrayCalls`, `HashMapCalls`, `UnorderedMapCalls`, and the last section of the other
machines).

Sequential code is modelled in place from the start: `Framing.Session` with its receive
buffer, `FbStringCore.Strings` with the blocks on the heap and the 24-byte objects, the
loops of `FbStringFind`, `ConvPrint` and `ConvParse`. Each is proved against an independent
definition: `Frames` of a byte string, `Plain` operations on sequences, the first
occurrence of a needle, and decimal notation in `Decimal`.

| files | what |
|---|---|
| `MpmcQueue`, `MpmcProgram` | bounded ring for many producers and consumers |
| `HashArray`, `HashArrayCalls`, `HashArrayChecks`, `HashArrayProgram` | open-addressing array with the two-stage full protocol |
| `HashMapSizes`, `HashMap`, `HashMapCalls`, `HashMapProgram` | growth by sub-maps, each a `HashArray` |
| `UnorderedMap`, `UnorderedMapCalls`, `UnorderedMapChecks`, `UnorderedMapProgram` | insert-only chained map |
| `MpscQueue`, `MpscProgram` | intrusive queue with a stub node |
| `SpscLinkedQueue`, `SpscLinkedProgram` | unbounded queue that recycles nodes |
| `SpscRing`, `SpscRingProgram` | fixed ring for one producer and one consumer |
| `Semaphore`, `SemaphoreProgram` | counter in front of a kernel semaphore |
| `FbStringLayout`, `FbStringCore`, `FbStringFind` | storage union, copy on write, search |
| `Decimal`, `ConvPrint`, `ConvParse` | integer printing and parsing |
| `Framing` | receive framing of a session |
| `Common` | ring positions, counting, bitwise and |

## Where the code and its documentation differ

- `signal(0)` passes its assertion but posts a token to a waiter without a matching count.
  `Semaphore.ExecInvIffCareful` says exactly when the balance holds, and
  `Semaphore.SignalZeroBreaksConservation` shows a run where it does not.
- The default `read_packet` returns all bytes there are, so packets follow the cuts of
  `recv`; `Framing.ChunkIndependentIffStable` says for which readers they do not.
- A reader that announces more bytes than there are makes the framing loop spin;
  `Framing.LoopEndsIff` gives the exact condition, `Framing.GreedyReaderSpins` a reader that
  does it, and `OnReadable` is stated under the condition.
- The hash array's debug check that a cell about to be waited for is not empty fails when
  a value constructor throws in that cell at the wrong moment; the code after it handles
  that case. `HashArrayChecks.StepSafeIff` and `RunSafeIff` say exactly when, counting for
  each thread only its first access in the waiting loop, which is the check.
  `FailsAfterLostLock` and `FailsAfterLockedKey` are two runs where it fails, and without
  throwing constructors it never does (`CheckHoldsWithoutThrows`).
- The remark that a new slot is often its own bucket and linked by one compare-and-swap:
  the word the first attempt expects was loaded before the slot was allocated, and
  allocating it changes the word. `UnorderedMap.OwnBucketWinsIff` says exactly when such an
  attempt wins; for the first one the slot must already have been marked when the word was
  loaded, and `UnorderedMapChecks.FirstAttemptCanWin` is a run where another thread had it then
  and gave it back.
- That `findOrConstruct` finds no slot does not mean that the slots near its bucket are in use:
  the compare-and-swap of an empty slot also fails when a key is linked into the list that the
  slot is the bucket of. `UnorderedMapCalls.AnswerIsJustified` says what it does mean, and
  `UnorderedMapChecks.FreeSlotIsLost` is a run where a free slot is lost in this way.
- A new sub-map is made with the load factor that the primary reports, its limit divided by its
  capacity, which is not the one configured; `HashMapSizes` follows the code.
- A func that throws in `findOrConstruct` leaves its slot marked for good
  (`UnorderedMap.ThrownSlotIsLost`).
- `reserveSmall` with the small-string optimisation disabled copies the text without
  looking at the requested capacity. `ReserveSmall` and `Reserve` answer whether the copy
  fits, and say that it does if and only if the size is below what the allocator gives;
  `ServedByEveryAllocator` says what that asks of a caller, and `ReserveOverruns` is a call
  that does not fit. In `Legal` only such calls on small strings are excluded.

## Model

| member | source | states |
|---|---|---|
| MpmcQueue.ExecInv | libs/mpmc_queue.hpp:57-107 | every atomic access of every thread keeps the ring invariant: which cell is free, being filled, full or being emptied, for each ticket |
| MpmcQueue.RunInv | libs/mpmc_queue.hpp:57-107 | so does every schedule of any number of threads |
| MpmcQueue.CellHasOneOwner | libs/mpmc_queue.hpp:57-107 | in every reachable state two threads between their winning compare-exchange and their sequence store work on different cells |
| MpmcQueue.WinnersLoadIsCurrent | libs/mpmc_queue.hpp:65-71 | a compare-exchange that can still win finds the cell's sequence number as the thread loaded it earlier: the ticket, or the ticket plus one |
| MpmcQueue.TicketsMatch | libs/mpmc_queue.hpp:57-107 | dequeue ticket k returned what enqueue ticket k wrote, no ticket was returned twice, and the two positions are at most the size apart |
| MpmcQueue.FalseMeansFullOrEmpty | libs/mpmc_queue.hpp:73-74 | a false enqueue saw the ticket one lap back not yet handed back; a false dequeue saw its ticket not yet published |
| MpmcQueue.StepsRefineFifo | libs/mpmc_queue.hpp:57-107 | seen from the contents, winning an enqueue appends, winning a dequeue removes the oldest, and no other step changes anything |
| MpmcQueue.EnqueueCall | libs/mpmc_queue.hpp:57-81 | over the whole run of a call: true means a new, published ticket with the value, false that the ring was crowded at an instant of the call |
| MpmcQueue.DequeueCall | libs/mpmc_queue.hpp:83-107 | over the whole run of a call: a value comes from a ticket taken by this call, nothing means that the next ticket was unpublished at an instant of the call |
| MpmcQueue.EnqueueProgress | libs/mpmc_queue.hpp:57-81 | lock-freedom over every run: an enqueue still on its way has taken at most three steps plus three for every ticket handed out since it began and for every spurious failure |
| MpmcQueue.DequeueProgress | libs/mpmc_queue.hpp:83-107 | the same for a dequeue and the tickets of dequeuers |
| MpmcQueue.MaskedIndex | libs/mpmc_queue.hpp:45-46 | the constructor's power-of-two test makes masking the residue |
| MpmcProgram.OthersKeep | libs/mpmc_queue.hpp:57-107 | whatever other threads do, a thread's own position in its call and the values already ticketed stay |
| MpmcProgram.Queue.constructor | libs/mpmc_queue.hpp:41-50 | sets each cell's sequence number in its loop and starts the state machine |
| MpmcProgram.Queue.Enqueue | libs/mpmc_queue.hpp:57-81 | the retry loop as written, others running between any two accesses: from the state it is called in there is a run in which the thread starts this one call and only goes on with it, and which ends where the method does; true means the value stands under a published ticket not handed out when the call began, false that the run passes through a state where the ticket one lap back was not handed back; without an answer after n retries, more than n tickets were handed out meanwhile, its spurious failures counted in |
| MpmcProgram.Queue.Dequeue | libs/mpmc_queue.hpp:83-107 | the same for dequeue: the value is the one of a ticket this call took; an empty answer has a state on the run where the next ticket was not published; without an answer after n retries, more than n dequeue tickets were, in the same way |
| HashArray.Anchor | libs/folly/folly/AtomicHashArray.h:421-426 | the anchor is a cell of the array, by mask or by residue |
| HashArray.Probe | libs/folly/folly/AtomicHashArray.h:46-66 | both probe functions stay inside the array |
| HashArray.PathIsOffset | libs/folly/folly/AtomicHashArray.h:46-66 | after j probes a search is at the anchor plus j, or plus the j-th triangular number, modulo the capacity |
| HashArray.LinearProbesEveryCell | libs/folly/folly/AtomicHashArray-inl.h:85-89 | linear probing looks at every cell exactly once before it gives up |
| HashArray.ExecInv | libs/folly/folly/AtomicHashArray-inl.h:121-297 | every access of every insert, erase and find keeps the probe-chain, lock, pending and full invariants, throwing constructors included |
| HashArray.RunInv | libs/folly/folly/AtomicHashArray-inl.h:121-297 | so does every schedule of any number of threads |
| HashArray.ProbeChain | libs/folly/folly/AtomicHashArray-inl.h:121-232 | a live key is in one cell only, where its probes lead, and every cell before it on that way holds another key or an erased one |
| HashArray.LockedCellHasOneOwner | libs/folly/folly/AtomicHashArray-inl.h:159-197 | a locked cell has exactly one thread constructing in it, and while there is one no insert has got past the wait for pending inserts |
| HashArray.FullIsFinal | libs/folly/folly/AtomicHashArray-inl.h:128-231 | once an insert of k returned the capacity, by either route, k is in no cell in any later state of any run |
| HashArray.StepsRefineSet | libs/folly/folly/AtomicHashArray-inl.h:121-297 | the set of keys gains exactly the key a thread unlocks, loses exactly the key an erase swaps out, and no other step changes it |
| HashArray.FindNeverMisses | libs/folly/folly/AtomicHashArray-inl.h:68-91 | a key that is in the array all through a find is found, whatever the other threads insert, erase or throw |
| HashArray.EraseNeverMisses | libs/folly/folly/AtomicHashArray-inl.h:254-297 | a key that is in the array until an erase of it returns is erased by that call |
| HashArrayCalls.AnswerIsJustified | libs/folly/folly/AtomicHashArray-inl.h:68-297 | over the whole run of any call, every answer was right at an instant of it: Inserted, that a step of this call put the key with the value given into that cell when it was in none; Existing and Found, that the cell held it; Removed, that a step of this call took it out; NotFound and NotRemoved, that no cell held it; Full, that it is refused for good; Threw, that its constructor threw; and a call that does not report a change made none to the key's place |
| HashArrayCalls.ValueWasGiven | libs/folly/folly/AtomicHashArray-inl.h:159-197 | in every run, a live cell holds the key and value of one insert: some thread began an insert of just these, put them into the cell when the key was in none, and the cell has held them since |
| HashArrayCalls.AnswerNamesGiven | libs/folly/folly/AtomicHashArray-inl.h:68-211 | so a find's hit and an insert's refusal, after any run, name a cell that at an instant of the call held the key with the value of the insert that added it |
| HashArrayCalls.RefusedOnlyWhenFull | libs/folly/folly/AtomicHashArray-inl.h:128-231 | in every run a key is refused only because every cell on its way holds another key or an erased one, or because keys were put into the array at least maxEntries times |
| HashArrayChecks.StepSafeIff | libs/folly/folly/AtomicHashArray-inl.h:202-202 | the debug check that the cell is not empty, exactly: while nobody who is about to make it looks at an empty cell, a step keeps that so if and only if it is not a value constructor that throws in a cell some thread is about to check |
| HashArrayChecks.RunSafeIff | libs/folly/folly/AtomicHashArray-inl.h:121-232 | over every run: everybody about to make the check is safe all along if and only if no step of the run is such a throw |
| HashArrayChecks.CheckHoldsWithoutThrows | libs/folly/folly/AtomicHashArray-inl.h:202-202 | in every run without throwing constructors the check never fails |
| HashArrayChecks.DisturbedCanFail | libs/folly/folly/AtomicHashArray-inl.h:181-202 | after every such throw the check fails in a run that goes on with at most one step of the thread that makes it |
| HashArrayChecks.FailsAfterLostLock | libs/folly/folly/AtomicHashArray-inl.h:163-202 | a run in which it fails: the lock is lost, then the winner's constructor throws |
| HashArrayChecks.FailsAfterLockedKey | libs/folly/folly/AtomicHashArray-inl.h:131-202 | a run in which it fails for a thread that loaded a locked key and never tried the lock |
| HashArrayChecks.OtherChecksHold | libs/folly/folly/AtomicHashArray-inl.h:173-191 | the other two checks hold in every reachable state: a thread that constructs finds its cell locked, one that has stored its key finds it there or erased |
| HashArrayProgram.AtomicHashArray.InsertInternal | libs/folly/folly/AtomicHashArray-inl.h:121-232 | the probe loop as written, in place: a run of the machine from the state it is called in, with this one call of the thread; its answer is justified by that run as AnswerIsJustified says, so a cell reported as new got the key and the value given, and a refused key is known as refused; an insert throws only if its constructor does, and without an answer it was held up more than spins times by pending inserts, a locked cell or an emptied one |
| HashArrayProgram.AtomicHashArray.LeaveFull | libs/folly/folly/AtomicHashArray-inl.h:137-157 | the wait for pending inserts, the store and the second look at the cell, as further steps of the insert's run; a refusal is recorded for good |
| HashArrayProgram.AtomicHashArray.TryLockCell | libs/folly/folly/AtomicHashArray.h:415-419 | the compare-exchange that locks an empty cell, as a further step of the insert's run: it wins exactly when the cell is then locked by this thread |
| HashArrayProgram.AtomicHashArray.FindInternal | libs/folly/folly/AtomicHashArray-inl.h:68-91 | the find loop as written, as such a run: a hit means that the cell held the key at a state of the run, a miss that at a state of the run no cell did |
| HashArrayProgram.AtomicHashArray.EraseKey | libs/folly/folly/AtomicHashArray-inl.h:254-297 | the erase loop as written, as such a run: 1 means that a step of this call took the key out, 0 that at a state of the run no cell held it |
| HashMap.ExecInv | libs/folly/folly/AtomicHashMap-inl.h:106-180 | every step of every insert, find and erase over the sub-maps keeps the map's invariant, built on that of each array |
| HashMap.RunInv | libs/folly/folly/AtomicHashMap-inl.h:106-180 | so does every schedule of any number of threads |
| HashMap.GrowthSafety | libs/folly/folly/AtomicHashMap-inl.h:127-166 | sub-maps below the count exist, those above do not, and at most one thread is creating the one at the count |
| HashMap.AllocatedOnce | libs/folly/folly/AtomicHashMap.h:459-466 | a pointer goes from null to a thread's mark to that thread's array and never changes again |
| HashMap.OneSubMapPerKey | libs/folly/folly/AtomicHashMap-inl.h:106-180 | a key is in at most one sub-map in every reachable state |
| HashMap.KeyStaysHome | libs/folly/folly/AtomicHashMap-inl.h:106-180 | a key that does not leave the map does not change its sub-map |
| HashMap.FindNeverMisses | libs/folly/folly/AtomicHashMap-inl.h:240-262 | a key that is in the map all through a find is found, while others insert, erase and grow the map |
| HashMap.EraseNeverMisses | libs/folly/folly/AtomicHashMap-inl.h:309-319 | an erase does not give up on a key that is in the map all along |
| HashMapCalls.AnswerIsJustified | libs/folly/folly/AtomicHashMap-inl.h:106-319 | over the whole run of any call, every answer was right at an instant of it: a new index, that a step of this call put the key with the value given into that cell of that sub-map when it was nowhere in the map; an old one, that it was in that cell; removed, that a step of this call took it out of the map; missing, that it was nowhere; full, that every sub-map the map can have had refused it; threw, that its constructor threw; and a call that does not report a change changed nothing about the key |
| HashMapCalls.ValueWasGiven | libs/folly/folly/AtomicHashMap-inl.h:106-180 | in every run, a live cell of any sub-map holds the key and value of one insert: some thread began an insert of just these, put them there when the key was nowhere in the map, and the cell has held them since |
| HashMapCalls.AnswerNamesGiven | libs/folly/folly/AtomicHashMap-inl.h:106-262 | so a find's hit and an insert's refusal, after any run, name a cell of a sub-map that at an instant of the call held the key with the value of the insert that added it |
| HashMapCalls.RefusedOnlyWhenFull | libs/folly/folly/AtomicHashMap-inl.h:106-133 | in every run a sub-map refuses a key only because every cell on its way there holds another key or an erased one, or because keys were put into that sub-map at least maxEntries times |
| HashMap.IndexRoundTrip | libs/folly/folly/AtomicHashMap-inl.h:279-293 | findAtInternal undoes encodeIndex under the checks that encodeIndex makes |
| HashMapSizes.PrimaryIsUsable | libs/folly/folly/AtomicHashMap-inl.h:41-53 | the primary sub-map has a cell, and what it reports as its load factor times its capacity is its limit and passes the checks of create() |
| HashMapSizes.NumCellsIs | libs/folly/folly/AtomicHashMap-inl.h:137-139 | the power counts, rounded down, the cells there are if every sub-map adds the growth fraction of those before it, and never fewer than the primary's |
| HashMapSizes.NewSubMapIs | libs/folly/folly/AtomicHashMap-inl.h:127-155 | in numbers: a new sub-map has the most cells with which it holds, at the load that the primary reports, no more than the growth fraction of the cells there are, and the hash and probe functions of the primary |
| HashMapSizes.NewCapacityPositive | libs/folly/folly/AtomicHashMap-inl.h:130-142 | the growth test makes every new sub-map have at least one cell |
| HashMapSizes.MaskIs | libs/folly/folly/AtomicHashArray-inl.h:38-47 | the anchor mask is one less than the least power of two that reaches the capacity |
| HashMap.MadeToMeasure | libs/folly/folly/AtomicHashMap-inl.h:127-155 | in every run the sub-map at index i has the capacity CapacityFor(NewSize(NumCells(primary, growth, i), growth), load) for i >= 1, at least one cell, the limit and mask that go with it, and the primary's hash and probe functions; and if the growth fraction of the primary is less than a cell, no other sub-map is ever made |
| HashMapProgram.AtomicHashMap.InsertInternal | libs/folly/folly/AtomicHashMap-inl.h:106-180 | the loop over sub-maps with growth and restart, as written, the size of a new sub-map computed from the primary: a run of the machine from the state it is called in, with this one call of the thread, so MadeToMeasure and ValueWasGiven hold of it; its answer is justified by that run as AnswerIsJustified says, a new index with the value given; an insert throws only if its constructor does, and without an answer it has taken at least spins steps |
| HashMapProgram.AtomicHashMap.GrowthLeft | libs/folly/folly/AtomicHashMap-inl.h:129-134 | the test on the primary's capacity and the growth fraction is CanGrow of the settings |
| HashMapProgram.AtomicHashMap.NewConfig | libs/folly/folly/AtomicHashMap-inl.h:137-155 | what is computed from the primary sub-map is the configuration for the sub-map's place |
| HashMapProgram.AtomicHashMap.FindInternal | libs/folly/folly/AtomicHashMap-inl.h:240-262 | the primary sub-map first, then those that exist by then, as written and as such a run: a hit means that the cell of the sub-map held the key at a state of the run, a miss that at a state of the run the key was nowhere in the map; without an answer it has taken at least spins steps |
| HashMapProgram.AtomicHashMap.EraseKey | libs/folly/folly/AtomicHashMap-inl.h:309-319 | the erase loop over the sub-maps, as written and as such a run: 1 means that a step of this call took the key out of the map, 0 that at a state of the run it was nowhere in it; without an answer it has taken at least spins steps |
| UnorderedMap.KeyToSlotIdx | libs/folly/folly/AtomicUnorderedMap.h:417-424 | the subtraction loop computes the masked hash modulo the number of slots |
| UnorderedMap.ExecInv | libs/folly/folly/AtomicUnorderedMap.h:267-312 | every access of every find and findOrConstruct keeps the invariant of slots, chains and map |
| UnorderedMap.RunInv | libs/folly/folly/AtomicUnorderedMap.h:267-312 | so does every schedule of any number of threads |
| UnorderedMap.ChainsEndAtZero | libs/folly/folly/AtomicUnorderedMap.h:426-435 | from any bucket's head the links lead through slots in use with keys of that bucket and end at slot 0 |
| UnorderedMap.ChainsAreAcyclic | libs/folly/folly/AtomicUnorderedMap.h:426-435 | on that way no slot and no key is met twice |
| UnorderedMap.KeyLinkedOnce | libs/folly/folly/AtomicUnorderedMap.h:281-312 | a key is linked at most once in the whole map |
| UnorderedMap.UnlinkedIsUnreachable | libs/folly/folly/AtomicUnorderedMap.h:304-309 | no slot of a chain is empty, and a slot in a thread's hands is in a chain only between its link and its state update |
| UnorderedMap.BitsKeptApart | libs/folly/folly/AtomicUnorderedMap.h:383-390 | state updates keep the head bits, links keep the state bits of the bucket unless it is the new slot itself |
| UnorderedMap.LinkedKeyIsNew | libs/folly/folly/AtomicUnorderedMap.h:281-298 | a head word that is back at the loaded value means an unchanged chain, so a link adds a key the map did not have |
| UnorderedMap.StepsOnlyAdd | libs/folly/folly/AtomicUnorderedMap.h:281-298 | the map changes only by a link, which adds one absent key |
| UnorderedMap.RunOnlyAdds | libs/folly/folly/AtomicUnorderedMap.h:267-312 | a key in the map stays there, in its slot, in every run |
| UnorderedMapCalls.OneWinnerPerKey | libs/folly/folly/AtomicUnorderedMap.h:267-312 | over every run, with the answers of all finished calls on record: no two calls, of one thread or of two, answered that they inserted the same key, a thread's standing answer is on record, and all answers agree on the slot |
| UnorderedMapCalls.EveryKeyWasWon | libs/folly/folly/AtomicUnorderedMap.h:267-312 | over every run: a key is in the map if and only if one call has answered that it inserted it or a thread has linked it and answers so with its next step; never both, and never two such threads |
| UnorderedMap.FindIsMembership | libs/folly/folly/AtomicUnorderedMap.h:426-435 | a find answers exactly the membership that held when it loaded the bucket's head |
| UnorderedMap.OwnBucketWinsIff | libs/folly/folly/AtomicUnorderedMap.h:281-292 | in every reachable state the compare-and-swap of a slot that is its own bucket wins if and only if the word it expects was loaded with the slot marked as under construction and no node was linked since |
| UnorderedMapChecks.FirstAttemptCanWin | libs/folly/folly/AtomicUnorderedMap.h:267-312 | a reachable state and a run from it in which a thread that has loaded its bucket's word then allocates the bucket's own slot and links it by its first compare-and-swap |
| UnorderedMap.ThrownSlotIsLost | libs/folly/folly/AtomicUnorderedMap.h:276-279 | a func that throws leaves its slot marked as under construction: in every later run nobody allocates it and it is never linked |
| UnorderedMapCalls.AnswerIsJustified | libs/folly/folly/AtomicUnorderedMap.h:267-312 | over the whole run of any call, every answer was right at an instant of it: a find tells the membership at a state of the run and where the key is; an insert that says so linked the key with its value by its own step when the map did not hold it; one that failed saw the map without the key; bad_alloc, that each of the bucket's slot and the seven after it that exist was in use at an instant, or the head of its list moved; and only a call that says it inserted changed anything about the key |
| UnorderedMapCalls.ValueWasGiven | libs/folly/folly/AtomicUnorderedMap.h:267-312 | in every run, the value at a key's slot is the one of the insert that won: a thread began an insert of just that key and value, linked them there when the map did not hold the key, and there they are ever since |
| UnorderedMapChecks.FreeSlotIsLost | libs/folly/folly/AtomicUnorderedMap.h:437-470 | bad_alloc does not mean that the slots near the bucket were in use: a reachable state and a call that fails although the bucket's own slot, the first one tried, was free throughout |
| UnorderedMapProgram.InsertMap.Find | libs/folly/folly/AtomicUnorderedMap.h:426-435 | the chain walk as written, in place, with its termination: a run of the machine from the state it is called in, with this one call of the thread; 0 means that at a state of the run the map did not hold the key, anything else is where it is |
| UnorderedMapProgram.InsertMap.AllocationAttempt | libs/folly/folly/AtomicUnorderedMap.h:452-470 | the first eight tries are the start and the slots after it, as far as there are any; others are slots of the map |
| UnorderedMapProgram.InsertMap.AllocateNear | libs/folly/folly/AtomicUnorderedMap.h:437-450 | up to a thousand tries to mark an empty slot, near the bucket first, as further steps of the insert's run: a slot other than 0 that is now this thread's and not linked, or bad_alloc |
| UnorderedMapProgram.InsertMap.FindOrConstruct | libs/folly/folly/AtomicUnorderedMap.h:267-312 | look, allocate, construct or throw, link or look again and give up, as written and as such a run: the answer is where the key is, and new means that a step of this call linked a key the map did not hold and that its slot has the value given; without an answer the word of its bucket changed more than spins times during the call |
| MpscQueue.RunInv | libs/intrusive_mpmc_link_queue.h:31-68 | every schedule of producers, each perhaps stalled between exchange and link, and one consumer keeps the chain invariant |
| MpscQueue.PoppedInPushOrder | libs/intrusive_mpmc_link_queue.h:31-68 | user nodes are popped once each in the order of their head exchanges, and no node, the stub included, is in the chain twice |
| MpscQueue.StepsRefineFifo | libs/intrusive_mpmc_link_queue.h:31-68 | an exchange appends its node, a returning pop removes the oldest, and nothing else changes the queue |
| MpscQueue.QueuedMeansInChain | libs/intrusive_mpmc_link_queue.h:31-68 | the ticket test for being queued is membership in the chain |
| MpscQueue.ReturnedNodeIsFree | libs/intrusive_mpmc_link_queue.h:40-68 | a returned node is out of the chain and no stalled push will still write to it, so it may be pushed again |
| MpscQueue.NothingMeansCalm | libs/intrusive_mpmc_link_queue.h:44-68 | a pop that returns nothing has seen an instant with no user node or a half-finished push |
| MpscQueue.EmptyPopHasReason | libs/intrusive_mpmc_link_queue.h:40-68 | that instant is a state of the run during the pop |
| MpscQueue.PopCall | libs/intrusive_mpmc_link_queue.h:40-68 | over the whole run of one pop from any state: nothing means such a state after the pop began |
| MpscProgram.Queue.Push | libs/intrusive_mpmc_link_queue.h:31-38 | push as written, others running between any two accesses: a run of the machine from the state it is called in, with this one call of the producer; the node has a new place in the order of exchanges |
| MpscProgram.Queue.Pop | libs/intrusive_mpmc_link_queue.h:40-68 | pop as written, with its push of the stub, as such a run: the node returned is the next in order, and nothing means that the run passes through a state with no user node or a half-finished push |
| SpscLinkedQueue.RunInv | libs/spscqueue.h:68-134 | every interleaving of the two sides keeps the node invariant |
| SpscLinkedQueue.PointersInOrder | libs/spscqueue.h:100-134 | first_, tail_copy_, tail_ and head_ stay in that order on one chain of all nodes |
| SpscLinkedQueue.QueueIsFifo | libs/spscqueue.h:68-90 | what was removed is a prefix of what was linked, and the nodes after the tail hold the rest |
| SpscLinkedQueue.EmptyIsExact | libs/spscqueue.h:80-89 | try_dequeue answers false exactly when there is no item |
| SpscLinkedQueue.DequeueCall | libs/spscqueue.h:78-90 | over the whole run of a try_dequeue, false means that at an instant of it there was no item |
| SpscLinkedQueue.AllocNeverReusesLiveNode | libs/spscqueue.h:114-134 | alloc_node hands out a node before the tail or a new one, never one the consumer can still reach |
| SpscLinkedQueue.AllocOnlyWhenAllInUse | libs/spscqueue.h:132-133 | a node is allocated only when every node but one holds an item |
| SpscLinkedQueue.Preallocate | libs/spscqueue.h:40-54 | the preallocating constructor ends empty with one node more than asked for |
| SpscLinkedQueue.PreallocatedRun | libs/spscqueue.h:40-54 | with n + 1 nodes no run allocates while the queue holds fewer than n items |
| SpscLinkedQueue.Destroy | libs/spscqueue.h:56-66 | the destructor's walk frees every node exactly once |
| SpscLinkedProgram.SpscQueue.AllocNode | libs/spscqueue.h:114-134 | alloc_node as written, the consumer running meanwhile, as further steps of the enqueue's run: a node that the consumer cannot reach |
| SpscLinkedProgram.SpscQueue.Enqueue | libs/spscqueue.h:68-75 | enqueue as written: a run of the machine from the state it is called in, with this one call; exactly its value joins the queue |
| SpscLinkedProgram.SpscQueue.TryDequeue | libs/spscqueue.h:78-90 | try_dequeue as written, as such a run: the oldest value, or nothing and a state of the run without items |
| Semaphore.ExecInvIffCareful | libs/atomicops.h:570-649 | a step keeps the balance of signals exactly when it does not signal zero to a waiter that has gone below zero |
| Semaphore.RunInv | libs/atomicops.h:570-649 | every run without such a signal keeps it |
| Semaphore.WaitsNeverExceedSignals | libs/atomicops.h:570-649 | successful waits never exceed initial plus signalled, and the count never drops below -1 |
| Semaphore.SuccessesNeverExceedSignals | libs/atomicops.h:570-649 | the same counted on the calls of a run alone: no more waits answer true than the initial count plus the counts given to the signals whose addition has been made, and with no wait in progress the counter is exactly the difference |
| Semaphore.NoTokenLeftOver | libs/atomicops.h:591-609 | with the waiter outside there is no kernel token and no post on its way, and the count is what is left |
| Semaphore.TimeOutLeavesNoTrace | libs/atomicops.h:601-606 | a timed-out wait restores the count and consumes nothing |
| Semaphore.SleepsOnlyWithoutSignals | libs/atomicops.h:586-595 | a waiter blocked with no token and no post on its way has no unconsumed signal |
| Semaphore.RedoFindsSignal | libs/atomicops.h:607-608 | after a failed undo the second decrement always finds the raised count |
| Semaphore.WaitCall | libs/atomicops.h:570-638 | over the whole run of a wait, a failed try and a time-out mean that at an instant of it every signal was consumed |
| Semaphore.SignalZeroBreaksConservation | libs/atomicops.h:640-649 | with a signal of zero a wait succeeds although nothing was signalled |
| Semaphore.CarelessBreaks | libs/atomicops.h:586-649 | from every reachable state in which a signal of zero finds the count below zero, a run in which more waits succeed than there are signals |
| SemaphoreProgram.LightweightSemaphore.Wait | libs/atomicops.h:570-638 | poll, spin ten thousand times, decrement, block and on time-out undo, as written: a run of the machine from the state it is called in, with this one call; true took one signal, false took none and has a state of the run where every signal was consumed; one that still waits has found the kernel semaphore empty at least patience times |
| SemaphoreProgram.LightweightSemaphore.TryWait | libs/atomicops.h:619-627 | one poll, as written and as such a run: false has a state of the run where every signal was consumed |
| SemaphoreProgram.LightweightSemaphore.Signal | libs/atomicops.h:640-649 | raise the count and post if a waiter was below zero, as written and as such a run, for every count; the run has the step of the addition, which found the count below zero or not, and the semaphore stays sound if and only if the count given was not zero or the addition did not find it below zero |
| SpscRing.RunInv | libs/spscqueue.hpp:75-162 | every interleaving of the two sides keeps the ring invariant |
| SpscRing.RingIsFifo | libs/spscqueue.hpp:75-107 | what was removed is a prefix of what was published, at most size_ - 1 items are in the ring, and the records hold exactly them |
| SpscRing.HoldsItsCapacity | libs/spscqueue.hpp:45-148 | in every run of a ring made for n items it has n + 1 records and holds at most n items, and enqueue() refuses and isFull() says so exactly when it holds n |
| SpscRing.SidesNeverShareRecord | libs/spscqueue.hpp:81-105 | the sides never work on the same record; the producer constructs in raw memory, the consumer moves out the oldest value |
| SpscRing.RefusalsAreExact | libs/spscqueue.hpp:78-148 | full and empty answers are exact at the second index load |
| SpscRing.SizeGuessBounds | libs/spscqueue.hpp:150-162 | sizeGuess is never too low for the producer and never too high for the consumer, in either order of its loads |
| SpscRing.ProducerCall | libs/spscqueue.hpp:75-162 | over the whole run of a producer's call: a refusal and a full ring mean size_ - 1 items at an instant of it, and sizeGuess is the exact size at an instant of it |
| SpscRing.ConsumerCall | libs/spscqueue.hpp:92-162 | over the whole run of a consumer's call: nothing and an empty ring mean no items at an instant of it, and sizeGuess is the exact size at an instant of it |
| SpscRingProgram.Ring.Enqueue | libs/spscqueue.hpp:75-89 | enqueue as written: a run of the machine from the state it is called in, with this one call; the value joins the queue exactly when the call says so, and a refusal has a state of the run in which the ring held as many items as it was made for |
| SpscRingProgram.Ring.TryDequeue | libs/spscqueue.hpp:92-107 | try_dequeue as written, as such a run: the oldest value, or nothing and a state of the run without items |
| SpscRingProgram.Ring.PopFront | libs/spscqueue.hpp:121-131 | popFront as written, as such a run, removes the oldest value |
| SpscRingProgram.Ring.IsEmpty | libs/spscqueue.hpp:133-136 | as such a run: a false answer to the consumer stays right, a true one was right at a state of the run |
| SpscRingProgram.Ring.IsFull | libs/spscqueue.hpp:138-148 | as such a run: a false answer to the producer stays right, a true one was right at a state of the run |
| SpscRingProgram.Ring.ProducerSizeGuess | libs/spscqueue.hpp:155-162 | as such a run: the exact size at a state of the run, and an upper bound on the size when the call returns, in either order of its loads |
| SpscRingProgram.Ring.ConsumerSizeGuess | libs/spscqueue.hpp:155-162 | as such a run: the exact size at a state of the run, and a lower bound on the size when the call returns, in either order of its loads |
| Framing.Session.Store | detail/epollnet.hpp:273-273 | received bytes join the pending ones |
| Framing.Session.MoveDown | detail/epollnet.hpp:312-312 | memmove to the front, ranges overlapping or not |
| Framing.Session.OnReadable | detail/epollnet.hpp:271-325 | the framing loop in place delivers exactly the packets of the pending bytes and the chunk, keeps exactly the tail, and leaves room if a full buffer always holds a packet |
| Framing.Session.ReceiveAll | detail/epollnet.hpp:271-325 | over any cut of the stream, a session with a prefix-stable reader delivers the packets of the whole stream |
| Framing.FramesConserve | detail/epollnet.hpp:276-323 | delivered packets followed by the kept tail are the bytes received |
| Framing.PacketsAreRead | detail/epollnet.hpp:276-323 | each packet stands in the bytes right after the packets before it and is as long as the reader says of the bytes from there on |
| Framing.RestIsIncomplete | detail/epollnet.hpp:307-317 | the kept tail is empty or holds no packet |
| Framing.LoopEndsIff | detail/epollnet.hpp:276-323 | the loop ends if and only if no announced length goes past the bytes there are |
| Framing.GreedyReaderSpins | detail/epollnet.hpp:276-323 | a reader that names one byte more than there is keeps the loop going for ever on one byte |
| Framing.FramesAppend | detail/epollnet.hpp:271-325 | framing a prefix and then its tail with the rest is framing the whole, for a prefix-stable reader |
| Framing.ChunkIndependentIffStable | detail/epollnet.hpp:271-325 | packets are independent of how recv cuts the stream if and only if the reader is prefix-stable |
| Framing.DefaultReaderFollowsChunks | detail/epollnet.hpp:820-823 | the default read_packet is bounded and does depend on the cut |
| FbStringFind.ComputeSkip | libs/folly/folly/FBString.h:2099-2104 | the lazily computed distance back to the previous occurrence of the needle's last character |
| FbStringFind.SkipPassesNoMatch | libs/folly/folly/FBString.h:2093-2107 | skipping by it passes no occurrence |
| FbStringFind.Find | libs/folly/folly/FBString.h:2060-2119 | the least index at or after pos where the needle occurs, or npos if there is none, wrap-around of pos included (section 21.4.7.2 of ISO C++11) |
| FbStringLayout.SmallRoundTrip | libs/folly/folly/FBString.h:659-668 | setting a small size keeps the text, the terminator and the category, at size 23 in one byte |
| FbStringLayout.MlRoundTrip | libs/folly/folly/FBString.h:615-632 | pointer, size, capacity and category packed into 24 bytes read back as they were |
| FbStringLayout.CategoryBits | libs/folly/folly/FBString.h:610-613 | the category mask is the top two bits of the last byte |
| FbStringLayout.SizeShortcut | libs/folly/folly/FBString.h:477-491 | the branch-free size() agrees with the category |
| FbStringCore.ChangeOne | libs/folly/folly/FBString.h:315-983 | giving one string a new representation, with counts that follow, keeps every other string's text |
| FbStringCore.ReplaceInv | libs/folly/folly/FBString.h:808-822 | making a block and giving up the old one keeps counts and texts |
| FbStringCore.ShareInv | libs/folly/folly/FBString.h:725-731 | sharing a block raises its count and gives the same text |
| FbStringCore.OwnInv | libs/folly/folly/FBString.h:825-855 | the only owner of a block may rewrite, resize and move it unnoticed |
| FbStringCore.BlocksAreOwned | libs/folly/folly/FBString.h:555-562 | corollary of the invariant that Step and Run keep: a block exists exactly as long as a string owns it |
| FbStringCore.NothingLeft | libs/folly/folly/FBString.h:555-562 | corollary of the same invariant: without strings there are no blocks |
| FbStringCore.InitSmall | libs/folly/folly/FBString.h:735-778 | a small string has the text given, by words or by characters, whatever follows it in memory |
| FbStringCore.Strings.Init | libs/folly/folly/FBString.h:357-370 | small, medium or large storage exactly by size, with the text and its terminator |
| FbStringCore.Strings.Acquire | libs/folly/folly/FBString.h:386-403 | taking over a malloc block, or freeing it when the size is zero |
| FbStringCore.Strings.Copy | libs/folly/folly/FBString.h:331-348 | the copy has the text; a small string touches no block, a medium one gets a block of its own, a large one shares the block, whose count goes up by one |
| FbStringCore.Strings.Move | libs/folly/folly/FBString.h:350-355 | the new string has the text and the storage, the old one is empty, no block is touched |
| FbStringCore.Strings.Swap | libs/folly/folly/FBString.h:409-413 | the texts change places, for a string with itself too, and no block is touched |
| FbStringCore.Strings.Destroy | libs/folly/folly/FBString.h:372-377 | the string is gone; its block loses one owner, and goes with the last one |
| FbStringCore.Strings.Unshare | libs/folly/folly/FBString.h:808-822 | same text in a block of its own, capacity not smaller, and the old block loses one owner |
| FbStringCore.Strings.MutableData | libs/folly/folly/FBString.h:420-430 | same text, and nobody else's data behind the pointer; a string that owns its data alone stays as it is |
| FbStringCore.Strings.Write | libs/folly/folly/FBString.h:825-831 | one character of one string changes, whoever shared its block |
| FbStringCore.Strings.Reserve | libs/folly/folly/FBString.h:451-466 | capacity as asked for and the text unchanged, in all three categories; it goes past a block exactly when ReserveSmall does |
| FbStringCore.Strings.ReserveSmall | libs/folly/folly/FBString.h:891-920 | from the object into a medium or large block, terminator included; it goes past the block if and only if the small-string optimisation is disabled and the size is not below what the allocator gives for the request |
| FbStringCore.Strings.ReserveMedium | libs/folly/folly/FBString.h:858-888 | reallocation, or conversion to a large string |
| FbStringCore.Strings.ReserveLarge | libs/folly/folly/FBString.h:834-855 | unsharing, or reallocation in place |
| FbStringCore.ServedByEveryAllocator | libs/folly/folly/FBString.h:891-908 | whatever the allocator rounds to, the copy of a small string fits if and only if the request is at least the size |
| FbStringCore.ReserveOverruns | libs/folly/folly/FBString.h:891-908 | two characters, nothing asked for and an allocator that does not round: the copy goes past the block |
| FbStringCore.Strings.Size | libs/folly/folly/FBString.h:477-491 | the length of the text |
| FbStringCore.Strings.Capacity | libs/folly/folly/FBString.h:493-509 | the room of a string that owns its data alone, the size of one that shares it |
| FbStringCore.Strings.ExpandNoinit | libs/folly/folly/FBString.h:923-955 | the old text stays in front of the new room, nobody else changes, room to write is not shared, the block stays if it has room and grows by half if asked to |
| FbStringCore.Strings.Append | libs/folly/folly/FBString.h:473-475 | the text grows by exactly the characters given |
| FbStringCore.Strings.Shrink | libs/folly/folly/FBString.h:439-448 | the text loses its last characters, without a new block unless the block is shared, which stays as it is |
| FbStringCore.Strings.CopyMedium | libs/folly/folly/FBString.h:710-722 | a medium string's copy has its own block with the text and terminator |
| FbStringCore.Strings.ShrinkLarge | libs/folly/folly/FBString.h:974-983 | a shared string is replaced by a new shorter one; the shared block is not written |
| FbStringCore.Strings.Reallocate | libs/folly/folly/FBString.h:582-599 | the text and terminator survive reallocation, in place or elsewhere |
| FbStringCore.Strings.CStr | libs/folly/folly/FBString.h:432-437 | the text followed by the terminator |
| FbStringCore.Strings.Step | libs/folly/folly/FBString.h:315-983 | any one operation does to all strings what it does to plain sequences |
| FbStringCore.Strings.Run | libs/folly/folly/FBString.h:315-983 | so does any sequence of operations, and when the last string is gone so is the last block |
| Decimal.ValueOfDigits | libs/folly/folly/Conv.h:363-371 | reading decimal notation back gives the number |
| Decimal.DigitsOfValue | libs/folly/folly/Conv.h:363-371 | writing down a number that was read gives the same text, if that has no leading zero |
| Decimal.LengthBounds | libs/folly/folly/Conv.h:289-294 | the decimal length lies between the powers of ten |
| ConvPrint.EstimateOk | libs/folly/folly/Conv.h:338-345 | the estimate 1 + 77 * bits / 256 is the length or one less, for every number of bits |
| ConvPrint.Digits10Table | libs/folly/folly/Conv.h:329-345 | digits10 by estimate and table is the exact decimal length |
| ConvPrint.Digits10Loop | libs/folly/folly/Conv.h:349-358 | digits10 by steps of four is the exact decimal length |
| ConvPrint.ToBuffer | libs/folly/folly/Conv.h:376-393 | the backwards writer fills exactly the decimal notation and returns its length |
| ConvPrint.AppendSigned | libs/folly/folly/Conv.h:557-571 | appends the signed notation, the most negative value included |
| ConvParse.WidthFacts | libs/folly/folly/Conv.cpp:47-75 | the table of largest values is the largest value of each width, one digit longer than what is always safe |
| ConvParse.LexIsNumeric | libs/folly/folly/Conv.cpp:540-544 | comparing digit strings of one length as text compares their values |
| ConvParse.PassesIffFits | libs/folly/folly/Conv.cpp:527-545 | the length test and the text comparison let a string through exactly when its value fits |
| ConvParse.Finalize | libs/folly/folly/Conv.cpp:463-478 | the wrapped signed result is the value, or the overflow of its sign |
| ConvParse.AccumulateFours | libs/folly/folly/Conv.cpp:552-563 | four digits at a time, nothing ever wraps |
| ConvParse.Accumulate | libs/folly/folly/Conv.cpp:550-603 | the digit tables and the tail give the value, or refuse a non-digit |
| ConvParse.DigitsTo | libs/folly/folly/Conv.cpp:509-607 | for every integer type and every non-empty string: the number if the type holds it, else the error that says why not; empty strings are errors |
| ConvParse.FindFirstNonDigit | libs/folly/folly/Conv.cpp:37-45 | the end of the run of digits |
| ConvParse.StrToIntegral | libs/folly/folly/Conv.cpp:659-703 | white space, sign, digits and rest as specified, and nothing consumed on an error |
| ConvParse.SignedDigitsMeaning | libs/folly/folly/Conv.cpp:509-607 | parsing the printed form of any value of any type gives the value |
| ConvParse.ParseOfPrinted | libs/folly/folly/Conv.cpp:659-703 | also inside a text: any white space before, any text after that does not start with a digit, which is what is left |
| ConvParse.ParsedTextMeans | libs/folly/folly/Conv.cpp:659-703 | what an accepted text gave up is white space, an allowed sign and all its digits, which denote the value |
| ConvParse.ReadTextParses | libs/folly/folly/Conv.cpp:659-703 | the converse: every text of white space, a sign that the type takes, digits and a rest that does not go on with a digit gives the signed value and the rest, or the overflow of its sign and the whole text |
| ConvParse.OtherTextsRefused | libs/folly/folly/Conv.cpp:659-703 | which of the other texts get which code, in characters, both ways: empty, a wrong first character, a sign alone, a sign or nothing before a non-digit; nothing is taken off |
| ConvParse.EveryTextIsRead | libs/folly/folly/Conv.cpp:659-703 | there are no texts besides these |
| ConvParse.SignAndDigits | libs/folly/folly/Conv.cpp:509-607 | digits_to on a sign that the type takes and any digits gives the signed value or the overflow of the sign |
| ConvParse.OtherDigitsRefused | libs/folly/folly/Conv.cpp:509-525 | the strings that digits_to refuses by their first character or for want of digits, in characters, both ways |
| ConvParse.NonDigitRefused | libs/folly/folly/Conv.cpp:527-607 | a non-digit among the digits is named as such unless the length and text tests already say overflow |
| ConvParse.RangesAre | libs/folly/folly/Conv.cpp:47-75 | the ranges of the types, in numbers |

## Left out

- Weak memory orders: interleavings are sequentially consistent, and a weak compare-exchange may fail for no reason.
- Wrap-around of tickets, positions and counts: they are unbounded numbers. (The unsigned arithmetic of the parser and of sizes in the string search is written out.)
- Termination of retry and wait loops under interference: the program classes bound them by `spins` or `patience`. A call cut off by the bound answers None: it is a run of that call so far, and says what kept it from ending.
- MpmcProgram.Queue.Enqueue: a call comes to an end only if other threads and spurious failures let it; `MpmcQueue.EnqueueProgress` bounds its steps by theirs, and so for `MpmcProgram.Queue.Dequeue`.
- HashArrayProgram.AtomicHashArray.InsertInternal: the cells carry two history fields (holder and number of probes) next to key and value.
- HashMapProgram.AtomicHashMap.InsertInternal: the inside of a sub-map is the state of its own machine; a sub-map constructor that throws, which leaves its pointer marked, is not modelled.
- SemaphoreProgram.LightweightSemaphore.Others: everybody else signals at least one at a time, or zero only when no waiter is below zero.
- SpscLinkedQueue.Preallocate: the constructor's calls run alone on values, since no other thread has the queue yet; so does `SpscLinkedQueue.Destroy`.
- Framing.Session.OnReadable: asks that no announced length goes past the bytes there are, since the loop does not end otherwise (`Framing.LoopEndsIff`).
- FbStringCore.Strings.Reserve: allocation failure is not modelled; requests are ones the allocator can serve, and capacities stay below 2 to the 62.
- FbStringCore.Strings.Init: one-byte characters on a 64-bit little-endian machine; the reference count under owners in several threads is left out.
- ConvParse.DigitsTo: characters above 127 count as non-digits, where the source indexes a table of 256 entries with a char that may be signed.
- FbStringFind.Find: sizes and positions are below 2 to the 64; searching backwards and for sets of characters is left out.
- ThreadCachedInt is one atomic number, and `numEntries_.readFast()` any answer that is not above it; `size` is left out.
- HashMapProgram.AtomicHashMap.constructor: asks for a size of at least one, as a primary of no cells has no anchor; load factors, growth fractions and powers are real numbers, without rounding.
- AtomicHashArray and AtomicHashMap `clear`, `destroy`, iterators and lookup by other key types.
- AtomicUnorderedInsertMap iterators and `MutableAtom`; after the first eight tries `allocationAttempt` may propose any slot.
- Conversions of floating point, booleans and enums, and `toAppend` of 8, 16 and 128 bit types.
- Sockets, epoll, handlers that packets are passed to, and the kqueue and IOCP copies of the framing loop.
- Send buffers, object pools, message queues, sessions and threads of tinynet outside the framing loop.
- Kernel semaphores, futexes, allocators and fences.

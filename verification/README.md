# Verified models of the concurrent hash tables

This project models the algorithms behind the hash tables that the repository
compares, and proves what they promise: over every interleaving where threads
are involved, over every table and every input where they are not.

| files | subject |
|---|---|
| `LockFreeBucket*.dfy` | the lock-free CLHT bucket: three slots controlled by one compare-and-swap word |
| `CuckooIndex`, `CuckooTable`, `CuckooSearch`, `CuckooPath`, `CuckooMap` | the bucketized cuckoo table as a sequential class that refines a map: breadth-first search with a packed path code, replay of the path, expansion, counters |
| `CuckooThreads*.dfy` | the same table under any number of threads: striped locks, stale paths, counters, clear, and expansions by concurrent insertion threads |
| `HazardPointers*.dfy` | when a replaced cuckoo table may be freed, and when it is |
| `Chains`, `Resize*.dfy` | the lock-based CLHT table while a resizer freezes, copies and replaces it |
| `Bits`, `Growth` | masks, rounding to powers of two, and why growth never overflows a three-entry bucket |
| `Hopscotch.dfy` | the repository's own hopscotch table, used by one thread |
| `PackedChain.dfy` | one bin of the packed CLHT table, under its lock |
| `TicketLock.dfy` | the ticket lock with its 32-bit counters |
| `Counters` | the per-core counters, which wrap around at 2^64 |
| `Arith`, `Sums` | small arithmetic lemmas |

## How the models are built

A concurrent algorithm is a state machine: every thread has a program counter
and its locals, and a turn (`LockFreeBucket.Act`, `CuckooThreads.Next`,
`HazardPointers.Next`, `Resize.Next`, `TicketLock.Next`) performs one access to
shared memory, or what one critical section does while its locks are held.  A run
is any sequence of enabled turns.  Each machine has an inductive invariant, and
the main results are stated about the end of an arbitrary run.  History that no
step reads (past values, places drawn, instants of the map) is kept in the state
where a result speaks about instants inside a call.  The `*Calls.dfy` files
relate what threads call to what takes effect and is answered, and say what a
call does that nobody interrupts.

Code that changes buffers or counters in place is a class or a method with loop
invariants, proved against functions on sequences and maps: `BQueue`,
`CuckooHashMap`, `HashTable`, `Clht`, `LFHash`, `Bin`.

Assumptions, all about the surroundings of the modelled code:

- Memory is sequentially consistent.
- Lock-free bucket: the 32-bit version does not wrap around between the moment an
  operation reads the snapshot and its swap (fewer than 2^32 validating swaps in
  that window, the predicate `Calm`), and put is called with a nonzero value,
  since 0 is the answer for a missing key.  Only the results about hits need that
  no value is put twice; for any value put under two keys there is a run in which
  they fail.
- Cuckoo table: SLOT_PER_BUCKET is any number that the static asserts allow.  The
  hash function is arbitrary.  `hashsize` shifts a 32-bit 1, so the hash power is
  below 32.
- Resizing table: the resizer's `ht_old` is the current table (one resizer), keys
  are not 0, and CLHT_HELP_RESIZE and CLHT_DO_CHECK_STATUS are 0 as in the header.
- Hazard pointers: pushing the replaced table and scanning happen under one
  mutex.
- Hopscotch table: one thread, a compare-and-swap that does not fail spuriously,
  and an array that extends more than ADD_RANGE past TotalBuckets.
- Ticket lock: fewer than 2^32 threads.

Where the code and its comments disagree, the code is modelled:

- concurrent_hash_map.h:911 wants the tag to be nonzero; for hash power 0 and the
  largest hash value it is 0.  Nothing depends on it: the involution holds for
  every tag.
- concurrent_hash_map.h:917-928 takes partial keys for the simple key types and 0
  for the others, the other way round from the comment; since partial keys are
  then compared only where all of them are 0, comparing them never excludes a key
  and is omitted.
- LFHash.h:213-222 sets bit 16 of a 16-bit set; the answer is modelled as
  "some bit was set".

## Model

| member | source | states |
|---|---|---|
| LockFreeBucket.EmptyIndex | OtherTables/src/clht/include/clht_lf.h:187-198 | the first slot marked MAP_INVLD in the snapshot, and -1 exactly when there is none |
| LockFreeBucketSafety.SameVersion | OtherTables/src/clht/include/clht_lf.h:258-265 | with fewer than 2^32 validating swaps in between, equal 32-bit versions mean that no validating swap happened |
| LockFreeBucketSafety.SwapIsQuiet | OtherTables/src/clht/src/clht_lf.c:295-340 | a claiming, validating or removing swap that succeeds finds that since its snapshot no validating swap happened and no pair valid then was removed, although removals do not bump the version |
| LockFreeBucketSafety.SwapFindsKeyAbsent | OtherTables/src/clht/src/clht_lf.c:295-302 | when the validating swap succeeds, no valid slot holds the key at that instant |
| LockFreeBucketSafety.ActGuarantees | OtherTables/src/clht/src/clht_lf.c:240-344 | every access of one operation changes only slots it owns or a mark through a successful swap, as seen by all others (the guarantee of the rely-guarantee argument) |
| LockFreeBucketSafety.LocalStable | OtherTables/src/clht/src/clht_lf.c:240-344 | what an operation knows survives any turn of another operation |
| LockFreeBucketSafety.TurnKeepsInv | OtherTables/src/clht/src/clht_lf.c:181-344 | a turn of any operation keeps the invariant: valid slots hold different keys, every slot marked MAP_INSRT is owned by exactly one put, every operation's knowledge is right |
| LockFreeBucketSafety.AfterKeepsInv | OtherTables/src/clht/src/clht_lf.c:181-344 | so does every event, calls included |
| LockFreeBucketRuns.RunKeepsInv | OtherTables/src/clht/src/clht_lf.c:181-344 | the invariant holds at every instant of every run of any number of gets, puts and removes |
| LockFreeBucketRuns.SlotsHaveOneOwner | OtherTables/src/clht/src/clht_lf.c:273-299 | in every run two valid slots never hold the same key, and each MAP_INSRT slot belongs to exactly one put in flight |
| LockFreeBucketRuns.ValidatingAddsPair | OtherTables/src/clht/src/clht_lf.c:295-302 | a successful validating swap adds the put's pair under a key that was absent at that instant, and ends the put with true |
| LockFreeBucketRuns.RemovingTakesPair | OtherTables/src/clht/src/clht_lf.c:323-335 | a successful removing swap removes exactly the pair whose value remove returns, and ends the remove |
| LockFreeBucketRuns.TurnRefinesMap | OtherTables/src/clht/src/clht_lf.c:181-344 | each shared-memory access is one step of a map: those two swaps are the only ones that change what any key is mapped to |
| LockFreeBucketRuns.PastWasMapped | OtherTables/src/clht/src/clht_lf.c:181-344 | the history kept for a call records only values its key had at some instant inside the call |
| LockFreeBucketRuns.MissesLinearize | OtherTables/src/clht/src/clht_lf.c:181-218 | a get or remove that answers 0 had its key absent at some instant inside the call, also when clht_bucket_search gave up because the value changed under it; a remove that answers a value had its key mapped to it |
| LockFreeBucketRuns.HitsLinearize | OtherTables/src/clht/src/clht_lf.c:181-264 | when no value is put twice, a get that answers a value had its key mapped to it inside the call, and a put that answers false had its key present |
| LockFreeBucketReuse.HitNeedsFreshValues | OtherTables/src/clht/src/clht_lf.c:187-203 | that condition is needed: for any two keys and any value there is a run whose only puts are of that value under these two keys and in which a get answers the value for a key that was never in the bucket |
| LockFreeBucketCalls.OperationsAreCalls | OtherTables/src/clht/src/clht_lf.c:181-344 | in every run the operations are the calls that were made, in order, with their arguments |
| LockFreeBucketCalls.SuccessIsOneChange | OtherTables/src/clht/src/clht_lf.c:240-344 | exactly once: a put that has answered true, or a remove that has answered a value, has changed the map in exactly one of its own turns, by its pair; a call that has not ended or has answered anything else has changed nothing |
| LockFreeBucketCalls.ChangesAreSuccesses | OtherTables/src/clht/src/clht_lf.c:240-344 | every change of the map in a run is the turn with which one put or remove ends in success |
| LockFreeBucketCalls.AloneAnswers | OtherTables/src/clht/src/clht_lf.c:181-344 | a call during which no other operation takes a turn answers as a map does, reused values or not, and ends within 17 of its turns; only a put that finds neither its key nor a free slot never ends |
| LockFreeBucketCounts.ActCountsFailures | OtherTables/src/clht/src/clht_lf.c:274-340 | a swap fails only when the word is not the expected one, and a word that was changed under an operation is paid for by one failure at most |
| LockFreeBucketCounts.FailuresArePaidFor | OtherTables/src/clht/src/clht_lf.c:240-344 | each call changes the word at most twice, and its failed swaps number at most the changes others made since it was called |
| LockFreeBucketCounts.TotalFailuresBounded | OtherTables/src/clht/src/clht_lf.c:240-344 | M started calls change the word at most 2M times and fail at most 2M^2 swaps in all |
| CuckooIndex.XorLowBits | OtherTables/src/hashtable-tbb/concurrent_hash_map.h:909-915 | the arithmetic used for `(a ^ b) & mask` is the exclusive or bit by bit |
| CuckooIndex.AltIsInvolution | OtherTables/src/hashtable-tbb/concurrent_hash_map.h:904-915 | alt_index(alt_index(i)) == i for every hash value, bucket and hash power, as promised at alt_index |
| CuckooTable.StoredAtHome | OtherTables/src/hashtable-tbb/concurrent_hash_map.h:898-915 | a stored key is found in one of its two home buckets |
| CuckooTable.InsertAbs | OtherTables/src/hashtable-tbb/concurrent_hash_map.h:1322-1333 | writing a new key into a free slot of a home bucket adds exactly that pair to the map and keeps keys unique and at home |
| CuckooTable.EraseAbs | OtherTables/src/hashtable-tbb/concurrent_hash_map.h:1362-1381 | clearing an occupied slot removes exactly its key |
| CuckooTable.UpdateAbs | OtherTables/src/hashtable-tbb/concurrent_hash_map.h:1383-1401 | overwriting a value changes exactly that key's value |
| CuckooTable.MoveAbs | OtherTables/src/hashtable-tbb/concurrent_hash_map.h:1197-1202 | moving a pair to the other home bucket of its key does not change the map |
| CuckooSearch.AtLeastFourSlots | OtherTables/src/hashtable-tbb/concurrent_hash_map.h:954-983 | the static asserts on SLOT_PER_BUCKET leave at least four slots |
| CuckooSearch.BQueue.Enqueue | OtherTables/src/hashtable-tbb/concurrent_hash_map.h:1002-1006 | the ring holds its old contents followed by the new element |
| CuckooSearch.BQueue.Dequeue | OtherTables/src/hashtable-tbb/concurrent_hash_map.h:1008-1013 | the first element leaves the ring, the rest stays in order |
| CuckooSearch.BQueue.Full | OtherTables/src/hashtable-tbb/concurrent_hash_map.h:1019-1021 | the ring is full exactly with 511 elements |
| CuckooSearch.DequeuedIsShallow | OtherTables/src/hashtable-tbb/concurrent_hash_map.h:1034-1060 | for every allowed SLOT_PER_BUCKET a record of depth MAX_BFS_PATH_LEN-1 is never dequeued: the ring is full before |
| CuckooSearch.DeepRecordsAreLate | OtherTables/src/hashtable-tbb/concurrent_hash_map.h:1034-1060 | a record of depth d comes no earlier than all records of smaller depth |
| CuckooSearch.EverySlotIsTried | OtherTables/src/hashtable-tbb/concurrent_hash_map.h:1036-1040 | the slots tried from the starting slot on are all slots of the bucket |
| CuckooSearch.ChildCode | OtherTables/src/hashtable-tbb/concurrent_hash_map.h:1052-1058 | a queued record's code and depth are those of its parent with one more base-S digit |
| CuckooSearch.TrySlots | OtherTables/src/hashtable-tbb/concurrent_hash_map.h:1038-1060 | the inner loop finds a free slot, or queues a record for each slot; it returns holding no lock although the table changes between looks |
| CuckooSearch.SlotSearch | OtherTables/src/hashtable-tbb/concurrent_hash_map.h:1028-1065 | the search ends with no lock held, depth below MAX_BFS_PATH_LEN-1, at a free slot whose code encodes how it was reached; in an unchanged table all earlier records' buckets were full, and it answers -1 exactly when every slot looked at before the ring fills is taken |
| CuckooPath.DecodeSlots | OtherTables/src/hashtable-tbb/concurrent_hash_map.h:1079-1083 | decoding the code gives back the slots of every ancestor record and leaves 0 or 1 for i1 or i2 |
| CuckooPath.CodeStep | OtherTables/src/hashtable-tbb/concurrent_hash_map.h:1080-1083 | dividing by SLOT_PER_BUCKET steps from a record's code to its parent's |
| CuckooPath.FollowPath | OtherTables/src/hashtable-tbb/concurrent_hash_map.h:1089-1130 | buckets follow by alt_index from the keys read, no lock is left; in an unchanged table the path retraces the search to its end |
| CuckooPath.EndIsShortest | OtherTables/src/hashtable-tbb/concurrent_hash_map.h:1028-1065 | no chain of evictions to a free slot is shorter than the depth where the search ended |
| CuckooPath.ShortestDoesNotRepeat | OtherTables/src/hashtable-tbb/concurrent_hash_map.h:1073-1131 | a shortest path visits no bucket twice |
| CuckooPath.ExhaustedHasNoShortPath | OtherTables/src/hashtable-tbb/concurrent_hash_map.h:1028-1065 | when the search fails in an unchanged table, no chain of evictions to a free slot is as short as the levels it went through completely |
| CuckooPath.CuckooPathSearch | OtherTables/src/hashtable-tbb/concurrent_hash_map.h:1073-1131 | any path returned fits CuckooRecord[5], starts in i1 or i2 and moves each key to its other bucket, however the table changed; in an unchanged table it is a shortest path to a free slot, and -1 is answered exactly when every slot the search looks at is taken |
| CuckooMap.ReplayKeepsMap | OtherTables/src/hashtable-tbb/concurrent_hash_map.h:1141-1217 | cuckoopath_move keeps the map for every path of that shape, however stale, and on success leaves path[0] free |
| CuckooMap.ShortestCanBeFollowed | OtherTables/src/hashtable-tbb/concurrent_hash_map.h:1141-1217 | in an unchanged table the path found can always be replayed to its end |
| CuckooMap.CuckooHashMap.TryFindInsertBucket | OtherTables/src/hashtable-tbb/concurrent_hash_map.h:1339-1360 | false exactly when the bucket holds the key; otherwise the first free slot, or -1 when there is none |
| CuckooMap.CuckooHashMap.Locate | OtherTables/src/hashtable-tbb/concurrent_hash_map.h:1427-1455 | looking at both home buckets decides membership in the map |
| CuckooMap.CuckooHashMap.Find | OtherTables/src/hashtable-tbb/concurrent_hash_map.h:1427-1439 | find answers as the map does |
| CuckooMap.CuckooHashMap.Erase | OtherTables/src/hashtable-tbb/concurrent_hash_map.h:1553-1567 | erase succeeds exactly on a present key and removes only it; the counters stay right |
| CuckooMap.CuckooHashMap.UpdateFn | OtherTables/src/hashtable-tbb/concurrent_hash_map.h:1586-1602 | update succeeds exactly on a present key and maps only its value |
| CuckooMap.CuckooHashMap.Size | OtherTables/src/hashtable-tbb/concurrent_hash_map.h:1626-1635 | the wrapped sum of inserts minus that of deletes is the number of pairs modulo 2^64 |
| Counters.BumpCounts | OtherTables/src/hashtable-tbb/concurrent_hash_map.h:1332-1332 | one more counted insert keeps inserts minus deletes equal to the number of pairs, across wrap-around |
| CuckooMap.CuckooHashMap.Clear | OtherTables/src/hashtable-tbb/concurrent_hash_map.h:1612-1624 | clear leaves the empty map and matching counters |
| CuckooMap.CuckooHashMap.CuckooPathMove | OtherTables/src/hashtable-tbb/concurrent_hash_map.h:1141-1217 | the moves keep keys unique and at home and keep the map; success leaves path[0] free |
| CuckooMap.CuckooHashMap.RunCuckoo | OtherTables/src/hashtable-tbb/concurrent_hash_map.h:1226-1281 | a slot of i1 or i2 is freed, and the map unchanged, exactly when some slot within the reach of the search is free; otherwise the table is unchanged |
| CuckooMap.FewAreNotBlocked | OtherTables/src/hashtable-tbb/concurrent_hash_map.h:1464-1521 | a table with fewer pairs than a bucket has slots blocks no key |
| CuckooMap.CuckooHashMap.CuckooInsert | OtherTables/src/hashtable-tbb/concurrent_hash_map.h:1464-1521 | Duplicate exactly for a present key; table full exactly for an absent key whose home buckets are full and whose search finds no free slot, and then nothing changes; otherwise the pair is added |
| CuckooMap.CuckooHashMap.Insert | OtherTables/src/hashtable-tbb/concurrent_hash_map.h:1527-1551 | insertion with expansion ends, answers Duplicate exactly for a present key and otherwise adds the pair, unless a table of 2^31 buckets that holds part of the map has no place for one of its keys |
| CuckooMap.RangesPartition | OtherTables/src/hashtable-tbb/concurrent_hash_map.h:1678-1689 | the ranges of the insertion threads contain every old bucket, for every number of threads |
| CuckooMap.RangesAscend | OtherTables/src/hashtable-tbb/concurrent_hash_map.h:1678-1689 | the ranges follow each other without gap or overlap |
| CuckooMap.NextSlot | OtherTables/src/hashtable-tbb/concurrent_hash_map.h:1645-1657 | the next slot's key has not been reinserted before, so no reinsertion collides |
| CuckooMap.CuckooHashMap.InsertIntoTable | OtherTables/src/hashtable-tbb/concurrent_hash_map.h:1645-1657 | a thread's range adds exactly the pairs of its old buckets, unless a table of 2^31 buckets has no place for one of them |
| CuckooMap.CuckooHashMap.CopyByThreads | OtherTables/src/hashtable-tbb/concurrent_hash_map.h:1678-1692 | all ranges, one after the other, rebuild the map of the old table and never shrink the new one, with the same exception |
| CuckooMap.CuckooHashMap.ExpandSimple | OtherTables/src/hashtable-tbb/concurrent_hash_map.h:1664-1704 | under expansion exactly when the demanded hash power is not larger; otherwise the new table has at least that hash power and represents the same map, or nothing changes and a table of 2^31 buckets would not do |
| CuckooThreads.LockTwo | OtherTables/src/hashtable-tbb/concurrent_hash_map.h:697-712 | distinct stripes in ascending order, exactly those of the two buckets |
| CuckooThreads.LockThree | OtherTables/src/hashtable-tbb/concurrent_hash_map.h:725-769 | distinct stripes in ascending order, exactly those of the three buckets, in all cases of colliding stripes |
| CuckooThreads.LockAll | OtherTables/src/hashtable-tbb/concurrent_hash_map.h:864-866 | all stripes in ascending order |
| CuckooThreadsSafety.SwapIsTableStep | OtherTables/src/hashtable-tbb/concurrent_hash_map.h:1162-1202 | a swap of any path, however stale, changes only buckets whose stripes are held and keeps the map |
| CuckooThreadsSafety.StepIsTableStep | OtherTables/src/hashtable-tbb/concurrent_hash_map.h:1141-1521 | every critical section keeps each key at home and unique, writes only under its locks, and changes the map only as its own operation may |
| CuckooThreadsSafety.LastKeepsPc | OtherTables/src/hashtable-tbb/concurrent_hash_map.h:1203-1216 | a successful cuckoopath_move holds exactly the stripes of i1 and i2, also where stripes collide |
| CuckooThreadsSafety.FirstKeepsPc | OtherTables/src/hashtable-tbb/concurrent_hash_map.h:1144-1160 | the same for a path of length 0 |
| CuckooThreadsSafety.StepKeepsPc | OtherTables/src/hashtable-tbb/concurrent_hash_map.h:815-874 | a turn keeps what the thread knows: ascending lock requests, the locks its next critical section needs, none between operations |
| CuckooThreadsSafety.StepIsLockStep | OtherTables/src/hashtable-tbb/concurrent_hash_map.h:687-784 | a turn moves locks only between nobody and the thread itself, and the thread's record of its locks stays exact |
| CuckooThreadsSafety.OthersKeepPc | OtherTables/src/hashtable-tbb/concurrent_hash_map.h:1141-1217 | a turn leaves alone what other threads know, a freed slot they are about to fill included |
| CuckooThreadsSafety.AllLocksExclude | OtherTables/src/hashtable-tbb/concurrent_hash_map.h:853-874 | while a thread holds all stripes of the current table, no other thread is between its re-check and its last write |
| CuckooThreadsSafety.WorkKeepsCounters | OtherTables/src/hashtable-tbb/concurrent_hash_map.h:1322-1381 | an insertion or erasure is counted once, in the critical section that performs it, and nothing else is |
| CuckooThreadsSafety.ClearIsTableStep | OtherTables/src/hashtable-tbb/concurrent_hash_map.h:1612-1624 | clear, under all locks, leaves the empty map |
| CuckooThreadsSafety.StepKeepsCounters | OtherTables/src/hashtable-tbb/concurrent_hash_map.h:1141-1624 | every critical section keeps inserts minus deletes equal to the number of pairs, across wrap-around |
| CuckooThreadsSafety.InstallKeepsSafe | OtherTables/src/hashtable-tbb/concurrent_hash_map.h:1694-1704 | installing an expanded table keeps the invariant and the map |
| CuckooThreadsSafety.NextKeepsInv | OtherTables/src/hashtable-tbb/concurrent_hash_map.h:815-1521 | every turn of every thread keeps the invariant |
| CuckooThreadsRuns.CompletesLegally | OtherTables/src/hashtable-tbb/concurrent_hash_map.h:1427-1521 | the turn in which an operation completes does to the current map what a sequential map does, and the answer is right: no insertion after run_cuckoo duplicates a key |
| CuckooThreadsRuns.OtherTurnsKeepMap | OtherTables/src/hashtable-tbb/concurrent_hash_map.h:1141-1281 | all other turns (moves, installing an expanded table, restarts, work on replaced tables) leave the current map unchanged |
| CuckooThreadsRuns.RunsLinearize | OtherTables/src/hashtable-tbb/concurrent_hash_map.h:815-1704 | every run of any number of threads is a run of a sequential map, operation by operation, clear included |
| CuckooThreadsRuns.OneEventForEachCall | OtherTables/src/hashtable-tbb/concurrent_hash_map.h:1427-1624 | the events of a thread in a run are numbered by its calls, in order: each call takes effect exactly once between its beginning and its return |
| CuckooThreadsCalls.EventsAreCalls | OtherTables/src/hashtable-tbb/concurrent_hash_map.h:1427-1624 | the i-th operation of a thread that takes effect is the i-th one it called, with the same arguments, and a clear exactly where it called clear; only the call it is in may be missing |
| CuckooThreadsCalls.AloneEnds | OtherTables/src/hashtable-tbb/concurrent_hash_map.h:1141-1624 | a thread that nobody interrupts can always go on and gets through its call within a bounded number of turns: a keyed operation whose stripes are free, a clear, a cuckoo path that can be followed to its insertion, and the way to an expansion |
| CuckooThreadsCalls.SearchGoesOn | OtherTables/src/hashtable-tbb/concurrent_hash_map.h:1226-1281 | an insertion without room goes on along a path that can be followed, or demands the next hash power when there is none |
| CuckooThreadsCalls.ShortestGoesOn | OtherTables/src/hashtable-tbb/concurrent_hash_map.h:1141-1217 | a shortest path in the table can be followed |
| CuckooThreadsCalls.ExpansionGrows | OtherTables/src/hashtable-tbb/concurrent_hash_map.h:1694-1704 | installing the expanded table makes it the current one, with the same map and a larger hash power, and the insertion starts over |
| CuckooThreadsRuns.SizeIsConserved | OtherTables/src/hashtable-tbb/concurrent_hash_map.h:1626-1635 | at every instant of every run the counters of the current table sum up to the number of pairs, modulo 2^64 |
| Counters.CountsDiffer | OtherTables/src/hashtable-tbb/concurrent_hash_map.h:1626-1635 | the difference that cuckoo_size takes in 64-bit words is the number of pairs modulo 2^64 whenever the counters agree with it |
| CuckooThreadsExpansion.CopyKeysDiffer | OtherTables/src/hashtable-tbb/concurrent_hash_map.h:1645-1692 | no two reinsertions of an expansion are of the same key, also from different threads |
| CuckooThreadsExpansion.PairIsCopied | OtherTables/src/hashtable-tbb/concurrent_hash_map.h:1678-1692 | every stored pair is reinserted by some thread |
| CuckooThreadsExpansion.CopyRebuilds | OtherTables/src/hashtable-tbb/concurrent_hash_map.h:1678-1692 | however the insertion threads interleave, none finds its key present and the new table's map is the old one's |
| CuckooThreadsExpansion.ConcurrentExpansion | OtherTables/src/hashtable-tbb/concurrent_hash_map.h:1664-1704 | for any number of insertion threads running concurrently on the new table, once all have returned it has the old table's map, at least the demanded hash power, counters that agree and no lock taken: it is a table that an expansion may install |
| CuckooThreadsRuns.InitialIsOk | OtherTables/src/hashtable-tbb/concurrent_hash_map.h:1606-1610 | a new table satisfies the invariant |
| CuckooThreadsRuns.ChainEnds | OtherTables/src/hashtable-tbb/concurrent_hash_map.h:697-769 | following waiting threads to the owners of the locks they wait for ends at a thread that holds a lock and does not wait |
| CuckooThreadsRuns.NotWaitingCanGo | OtherTables/src/hashtable-tbb/concurrent_hash_map.h:815-1521 | a thread that is not waiting for a lock and not installing a table can take a turn |
| CuckooThreadsRuns.SomeThreadCanGo | OtherTables/src/hashtable-tbb/concurrent_hash_map.h:697-874 | no reachable deadlock: while an operation is unfinished, some thread can take a turn or is about to install an expanded table |
| HazardPointers.FreedIsUnused | OtherTables/src/hashtable-tbb/concurrent_hash_map.h:325-336 | when delete_unused reaches the end of the hazard pointers for a table, no thread relies on it |
| HazardPointers.NextKeepsInv | OtherTables/src/hashtable-tbb/concurrent_hash_map.h:313-363 | every access to table_info, a hazard pointer or the list of replaced tables keeps the invariant |
| HazardPointers.CheckedTablesStayLive | OtherTables/src/hashtable-tbb/concurrent_hash_map.h:796-836 | in every run, from the re-check until the thread clears or abandons its hazard pointer, the table it checked is live and still the same allocation, with addresses reused |
| HazardPointers.NoTableIsLost | OtherTables/src/hashtable-tbb/concurrent_hash_map.h:1696-1702 | at every instant of every run the live tables are exactly the current one, those on the list and those about to be put there, each in one place: none is leaked or freed twice |
| HazardPointersScan.FreedUnlessMet | OtherTables/src/hashtable-tbb/concurrent_hash_map.h:325-336 | a table on the list when a delete_unused starts is still there, the same allocation, exactly if a comparison has found it in a hazard pointer; otherwise it has been freed, whatever the other threads do meanwhile |
| HazardPointersScan.UnannouncedIsFreed | OtherTables/src/hashtable-tbb/concurrent_hash_map.h:325-336 | a table that is in no hazard pointer in any state of the scan is freed |
| HazardPointersScan.HeldIsKept | OtherTables/src/hashtable-tbb/concurrent_hash_map.h:325-336 | a table that one hazard pointer holds throughout the scan is kept |
| HazardPointersScan.MovingAnnouncementIsMissed | OtherTables/src/hashtable-tbb/concurrent_hash_map.h:325-336 | a run in which a table is always in some hazard pointer, but not always in the same one, and is freed |
| HazardPointersScan.ScannerInRuns | OtherTables/src/hashtable-tbb/concurrent_hash_map.h:325-336 | in every run the scan belongs to exactly one thread, and the conditions of these results hold |
| HazardPointersScan.ScanEnds | OtherTables/src/hashtable-tbb/concurrent_hash_map.h:325-336 | a scan of r tables ends within (r + 1) * (h + 1) comparisons with h hazard pointers |
| HazardPointersScan.CheckSucceeds | OtherTables/src/hashtable-tbb/concurrent_hash_map.h:796-836 | a thread that loads, announces and checks while nobody replaces the table may use it; when it leaves, its pointer is clear again and nothing else has changed |
| ResizeSafety.EffectIsChange | OtherTables/src/clht/src/clht_lb_res.c:324-433 | under its lock, put adds an absent key or rejects a present one, remove takes a present pair and returns its value; no other key is affected |
| Chains.PutInFind | OtherTables/src/clht/src/clht_lb_res.c:436-467 | clht_put_seq's first free entry, or new bucket, adds exactly the new pair |
| Chains.RemoveFind | OtherTables/src/clht/src/clht_lb_res.c:417-428 | clearing an entry's key removes exactly that key |
| ResizeSafety.WorkIsOnCurrent | OtherTables/src/clht/include/clht_lb_res.h:298-333 | a thread with the UPDATE lock is on the current table |
| ResizeSafety.CopyEntry | OtherTables/src/clht/src/clht_lb_res.c:470-494 | after each copied entry the new table holds exactly the pairs copied so far |
| ResizeSafety.SwapKeepsBase | OtherTables/src/clht/src/clht_lb_res.c:575-604 | at the swap of h->ht the new table's map equals the old one's, and every old bucket is frozen |
| ResizeSafety.NextKeepsBase | OtherTables/src/clht/src/clht_lb_res.c:292-605 | every turn keeps tables well formed, lock bytes exact and the copy in step |
| ResizeRuns.FrozenStays | OtherTables/src/clht/include/clht_lb_res.h:335-350 | a bucket with the RESIZE lock keeps its contents and its lock for good |
| ResizeRuns.ExistsIsRight | OtherTables/src/clht/src/clht_lb_res.c:272-289 | bucket_exists, without a lock and perhaps on a replaced table, answers for an instant inside the call |
| ResizeRuns.NextKeepsInv | OtherTables/src/clht/src/clht_lb_res.c:272-605 | every turn keeps the full invariant, history included |
| ResizeRuns.OnlyEffectsChange | OtherTables/src/clht/src/clht_lb_res.c:292-434 | no turn changes the map but the effect of a put or remove that succeeds |
| ResizeRuns.ChangesMakeTheMap | OtherTables/src/clht/src/clht_lb_res.c:292-605 | in every run the current table holds what the recorded changes, each a correct step of a map, make of the first table |
| ResizeRuns.ResultsAreRight | OtherTables/src/clht/src/clht_lb_res.c:292-434 | every answer is right: a rejected put saw its key present and a vain remove saw it absent at an instant inside the call, and each success made its own change during it |
| ResizeRuns.AnswersOwnChanges | OtherTables/src/clht/src/clht_lb_res.c:292-434 | exactly once: a call that answers success has made exactly one change, between its beginning and its return, and one that answers failure has made none |
| ResizeRuns.ChangesAreOwned | OtherTables/src/clht/src/clht_lb_res.c:292-434 | each change was made by exactly one call, which has returned success or is about to |
| ResizeCalls.AnswersAreCalls | OtherTables/src/clht/src/clht_lb_res.c:292-434 | the answers of a thread are those to its calls, one by one in order, each right about the instants since that call began; only the call it is in has none |
| ResizeCalls.ResizeReplaces | OtherTables/src/clht/src/clht_lb_res.c:520-605 | a resize to n buckets that has ended, whatever the others did meanwhile, has made the next table current, with n buckets, and has set table_new of the old one |
| ResizeCalls.AloneAnswers | OtherTables/src/clht/src/clht_lb_res.c:292-434 | a put or remove that nobody interrupts, also one that waits for a replaced table, can always go on, ends within a bounded number of turns and answers as a map does |
| ResizeCalls.AloneResizes | OtherTables/src/clht/src/clht_lb_res.c:470-605 | a resize that nobody interrupts can always go on and ends within a number of turns that the table determines |
| ResizeRuns.SomeThreadCanGo | OtherTables/src/clht/include/clht_lb_res.h:298-350 | no reachable deadlock: while a call or a resize is unfinished some thread can take a turn, and threads wait for table_new only while a resizer is at work |
| Bits.MaskIsRemainder | OtherTables/src/clht/src/clht_lf_res.c:177-187 | masking with num_buckets-1 is the remainder, for powers of two |
| Bits.Pow2RoundUp | OtherTables/src/clht/include/utils.h:426-437 | the least power of two that is not less than x for 1 <= x <= 2^31, 1 for 0, and 0 above by 32-bit wrap-around |
| Growth.OneSource | OtherTables/src/clht/src/clht_lf_res.c:389-404 | under power-of-two growth the keys of a new bucket come from one old bucket only |
| Growth.EntryHasRoom | OtherTables/src/clht/src/clht_lf_res.c:369-387 | hence the entry being copied finds a free slot among the first j+1 |
| Growth.HashTable.PutSeq | OtherTables/src/clht/src/clht_lf_res.c:369-387 | puts the pair into the first free slot, and fails exactly when there is none |
| Growth.HashTable.BucketCpy | OtherTables/src/clht/src/clht_lf_res.c:389-404 | copying a bucket never fails and adds exactly its pairs |
| Growth.Clht.ResizePes | OtherTables/src/clht/src/clht_lf_res.c:407-482 | growing a quiet table by a power of two never fails, keeps the size a power of two and keeps every key-value pair |
| Growth.EntryCopied | OtherTables/src/clht/src/clht_lb_res_no_next.c:380-419 | the same step without map bytes: one more pair in the new table, and room left for the rest |
| Growth.GrowBy | OtherTables/src/clht/src/clht_lf_res.c:537-563 | the growth chosen by ht_status for three-entry buckets is always a doubling |
| Hopscotch.HeaderIsNeverTwo | OurTable/src/LFHash.h:106-124 | the sign-extended header never equals 2, so BucketInsert's branch for removed entries is never taken |
| Hopscotch.TagOfKey | OurTable/src/LFHash.h:70-90 | shifting the state bits away gives the key back |
| Hopscotch.LFHash.Contains | OurTable/src/LFHash.h:206-224 | exact for every nonzero key; for key 0 it answers whether the neighbourhood has an empty slot |
| Hopscotch.MoveKeepsKeys | OurTable/src/LFHash.h:193-201 | moving a key within its neighbourhood loses and duplicates nothing |
| Hopscotch.StuckAt | OurTable/src/LFHash.h:171-204 | where relocation ends in the resize exit: the same keys are stored, every slot from the base to the claimed one is taken, and no key of the H slots before it may live in it |
| Hopscotch.LFHash.Relocate | OurTable/src/LFHash.h:171-204 | moves exactly when some key of the H slots before may live in the claimed slot, and then the first such key; the claim gets strictly closer, no key is lost and all stay near their base |
| Hopscotch.LFHash.BucketInsert | OurTable/src/LFHash.h:106-140 | stores into the first free slot of the neighbourhood, and reaches the rehash exit exactly when there is none |
| Hopscotch.LFHash.Add | OurTable/src/LFHash.h:141-169 | an add that returns has stored its key (key 0 is never stored), lost none, keeps every key once and within H slots; it returns whenever a slot of the neighbourhood is free; the insertion-failure exit is taken exactly when no slot among the first 255 is free, the resize exit exactly when the claim cannot be moved near the base, and the rehash exit never |
| PackedChain.SwapWithLastRemoves | OtherTables/src/clht/src/clht_lb_packed.c:345-356 | filling the hole with the last item removes exactly one pair |
| PackedChain.Bin.Exists | OtherTables/src/clht/src/clht_lb_packed.c:225-247 | exact despite the early exit at the first bucket that is not full |
| PackedChain.Bin.Get | OtherTables/src/clht/src/clht_lb_packed.c:187-223 | the value of the key, or nothing, despite the early exit |
| PackedChain.Bin.Size | OtherTables/src/clht/src/clht_lb_packed.c:421-436 | the number of items in the bin, despite the early exit |
| PackedChain.Bin.Put | OtherTables/src/clht/src/clht_lb_packed.c:250-309 | appends the pair exactly when the key is absent and keeps the chain packed |
| PackedChain.Bin.LastBucket | OtherTables/src/clht/src/clht_lb_packed.c:339-347 | the bucket to take from is the last nonempty one, and its counter is not 0 |
| PackedChain.Bin.Remove | OtherTables/src/clht/src/clht_lb_packed.c:313-370 | returns the value of the key, takes out exactly that pair and keeps the chain packed |
| TicketLock.QueueIsShort | OtherTables/include/lock_if.h:285-335 | fewer than 2^32 places are ever taken and not served |
| TicketLock.EntersInTurn | OtherTables/include/lock_if.h:325-331 | a waiting thread sees its ticket exactly when its place is the next one, across wrap-around |
| TicketLock.TryLockNeedsFree | OtherTables/include/lock_if.h:337-353 | the compare-and-swap of trylock succeeds only on a free lock, whatever values the word took in between |
| TicketLock.NextKeepsInv | OtherTables/include/lock_if.h:285-364 | every turn of lock, trylock and unlock keeps tickets and places in step |
| TicketLock.AtMostOneHolder | OtherTables/include/lock_if.h:285-364 | in every run at most one thread holds the lock |
| TicketLock.ServedInOrder | OtherTables/include/lock_if.h:285-364 | requesters are served in the order of their tickets |
| TicketLock.FirstInLineCanGo | OtherTables/include/lock_if.h:325-364 | while threads are queued, the first of them holds the lock or may enter |
| TicketLock.LockEnters | OtherTables/include/lock_if.h:285-335 | a thread that has called lock holds it after its next turn, and all before it have left by then |
| TicketLock.TryLockEnters | OtherTables/include/lock_if.h:337-353 | a trylock that finds the lock free enters exactly if nobody has taken a place before its swap (fewer than 2^32 places in between), and otherwise fails |
| TicketLock.TryLockFails | OtherTables/include/lock_if.h:337-353 | a trylock on a lock that is not free changes nothing |
| TicketLock.UnlockLeaves | OtherTables/include/lock_if.h:355-364 | an unlock, whatever the others do between its accesses, leaves the thread outside and the next place to be served |

## Left out

- CuckooMap.CuckooHashMap.Insert: a table of 2^32 buckets is out of the source's reach, since `hashsize` shifts a 32-bit 1; TooBig stands for a run that would ask for one, as an adversarial hash function can make it do.
- CuckooMap.CuckooHashMap.ExpandSimple: the class runs the insertion threads of an expansion one after another; `CuckooThreadsExpansion.ConcurrentExpansion` is about any interleaving of them, and relies on the same of the expansions that the new table itself goes through meanwhile.
- CuckooThreadsRuns.RunsLinearize: one turn loads the table, publishes the hazard pointer and re-checks; the single accesses are in `HazardPointers`.
- CuckooThreadsRuns.SizeIsConserved: cuckoo_size reads the counters one by one without locks; the sum is that of one instant, which is what it reads when no operation is in flight.
- CuckooThreadsRuns.SomeThreadCanGo: a thread about to install an expanded table counts as able to go on; its insertion threads are a run of their own, on the new table.
- CuckooThreadsRuns.NotWaitingCanGo: a search without locks may always give up, which leads to an expansion; that it finds a path in an unchanged table is stated by `CuckooPath.CuckooPathSearch`.
- CuckooThreadsCalls.AloneEnds: the looks of a search, which change nothing, are not counted, and the insertion threads of an expansion are a run of their own.
- LockFreeBucketCalls.AloneAnswers: without interference only; how often others can make a call retry is bounded by `LockFreeBucketCounts.FailuresArePaidFor`.
- HazardPointers.CheckedTablesStayLive: allocating, filling and storing an expanded table is one turn, and an expander's unlocking of the old table after its own hazard pointer is cleared is not modelled.
- LockFreeBucketRuns.HitsLinearize: needs values that are never put twice, as `LockFreeBucketReuse.HitNeedsFreshValues` shows.
- Growth.Clht.ResizePes: the lock-free table's copy while nothing else runs; concurrent updates during it are not modelled.
- ResizeRuns.ResultsAreRight: put and remove only; clht_get without a lock, garbage collection of old tables and overlapping resizes are not modelled.
- Hopscotch.LFHash.Add: one thread only; Remove and its markers are not modelled, and the exits of the source are outcomes after which nothing is claimed.
- PackedChain.Bin.Exists: under the lock; searches without it, which a removal can move a key past, are not modelled.
- Cuckoo iterators, reserve arithmetic on doubles, upsert and move semantics: combinations of the modelled operations or outside their logic.
- Weak memory, fences, prefetching, hardware transactions and processor-specific branches.
- The other table variants, benchmark drivers, allocators, barriers, timing and energy measurement.

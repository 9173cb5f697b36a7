# CustomPartitionVertex: bucket routing for Hive's bucket map joins and SMB joins

This project models the Tez vertex manager `CustomPartitionVertex` of Apache Hive in Dafny and proves properties of the model.
The vertex manager decides how many tasks a join vertex runs, which task reads which bucket, and which splits of every input each task receives.
Tez calls `onRootVertexInitialized` once per root input:

- the main work (the big table);
- in an SMB join, one call for each small table.

The model follows that code callback by callback.

- **Split classification** (`Classification`, `BucketMapping`, `Bytes`, `Arith`):
  - The event loop files each Hive split under its bucket id, or under -1 when it has none.
  - The store is a sorted map of sorted sets, ordered by unsigned lexicographic comparison of the splits' equality bytes.
  - `getBucketSplitMapForBucket` then re-keys the buckets modulo the input's bucket count.
  - If any bucket id is missing, it falls back to round-robin over the sorted keys.
  - For an SMB side table whose bucket count k differs from the big table's n, it redistributes by remainder classes modulo gcd(n, k).
- **Routing table** (`Routing`, `Vertex`): `processAllEvents` gives every grouped split of the main input the next task index.
  - It records (bucket, task) in `bucketToTaskMap`.
  - It computes the per-task input counts.
  - It emits one data event per split, or one per sub-split after second-level grouping, targeted at the split's position.
- **Side-input dispatch** (`Routing`, `Vertex`): `processAllSideEvents` sends every destination task of a bucket a copy of every split of that bucket, numbered from 1.
  - It accumulates the per-task counts in an `int` array.
- **The coordinator** (`Manager`, `Lifecycle`): the class `CustomPartitionVertex` holds the fields the Java object mutates.
  - Its methods do the work with the same loops and branches.
  - Each method is proved to end in the state given by a step function on a snapshot of the fields (`ManagerState`).
  - The calls the manager makes on its Tez context are appended to a ghost log `calls`:
    - `addRootInputEvents`;
    - `setVertexParallelism`;
    - `sendEventToProcessor`.
  - `Lifecycle` folds the step over a whole sequence of callbacks.

The properties proved:

- **Classification:**
  - The event loop fails exactly on the event sequences it does not accept.
  - Every data event's split is filed under its bucket id.
  - Nothing else is filed.
  - Each bucket holds a strictly sorted set.
- **Bucket mapping:**
  - The explicit and fallback paths keep every split and put it under exactly the bucket the Java arithmetic names.
  - The SMB redistribution gives big bucket b exactly the splits of the small buckets s whose rows can hash into b, that is s + j·k ≡ b (mod n) for some j ≥ 0.
  - That condition is proved equivalent to s ≡ b (mod gcd(n, k)). The source comment's 6-and-4-buckets example is checked.
- **Routing:**
  - After the main input, every task index below `taskCount` sits under exactly one bucket (equal multisets).
  - Each task's events are the splits of that task's position, with source index and target index.
  - On a side input, each task receives the numbered copies of exactly its own bucket's splits, and its count is that bucket's size.
  - Each task receives exactly one processor event, and decoding its 8-byte payload yields `numBuckets` and the task's bucket.
- **Coordination:**
  - An invariant (`ValidState`) holds between callbacks and is preserved by every successful callback. It says:
    - the routing table stays valid, and the queue of side inputs holds each input name at most once;
    - side inputs wait only in an SMB join and only while the main work has no spec;
    - the parallelism has been set at most once, and never before all inputs were seen.
  - In the single-input case, the parallelism call precedes every bucket-id event.
  - Over a whole run in which every input arrives once, one of them being the main work, the parallelism is set exactly once (`Lifecycle.ParallelismSetOnce`).
  - Side inputs that arrive before the main work, and so wait in the queue, end in the same state as the same side inputs arriving after it (`Lifecycle.SideInputOrder`).
  - A side input queued twice keeps its last splits (`Vertex.QueuePutTwice`).

Where the code differs from what the class's comments suggest, the model follows the code:

- The code increments `numInputsSeenSoFar` at the start of `onRootVertexInitialized` (line 156), not after the input's processing.
- With more than one input, the code can finalise only from two places:
  - the drain of the queue in `processAllEvents` (line 442);
  - a side input that arrives after the main work's spec (line 308).

  The third call site, line 448, serves only the bucket map join with a single input.

  With an empty main work name and more than one input, every input counts as the main work. Nothing is ever queued, so the parallelism is never set.
  `ParallelismSetOnce` therefore assumes the main work is named, or is the only input.
- In the single-input case with a repeated callback, `sendBucketIdsToProcessor` runs even when the parallelism gate stays shut (lines 447-451). The model keeps this. `BucketIdsAfterParallelism` states the ordering only for the first callback.

## Model

| member | source | states |
|---|---|---|
| Bytes.LexCompareZeroIffEqual | ql/src/java/org/apache/hadoop/hive/ql/exec/tez/CustomPartitionVertex.java:78-84 | the unsigned lexicographic comparator returns zero exactly on equal byte arrays, so a TreeSet ordered by it merges splits with equal bytes |
| Bytes.LexCompareAntisymmetric | ql/src/java/org/apache/hadoop/hive/ql/exec/tez/CustomPartitionVertex.java:78-84 | swapping the two arrays negates the comparison |
| Bytes.LexCompareTransitive | ql/src/java/org/apache/hadoop/hive/ql/exec/tez/CustomPartitionVertex.java:78-84 | "compares below" is transitive, so the comparator is a strict order |
| Bytes.DecodeEncodeInt32 | ql/src/java/org/apache/hadoop/hive/ql/exec/tez/CustomPartitionVertex.java:459-461 | reading back the four big-endian bytes putInt writes yields the original int, negative values included |
| Splits.CompareSplits | ql/src/java/org/apache/hadoop/hive/ql/exec/tez/CustomPartitionVertex.java:78-84 | the split comparator is zero iff the equality bytes are equal and is antisymmetric |
| Arith.JavaRem | ql/src/java/org/apache/hadoop/hive/ql/exec/tez/CustomPartitionVertex.java:542 | Java's truncating remainder: non-negative and below the divisor's magnitude for a non-negative dividend, non-positive for a negative one |
| Arith.Bezout | ql/src/java/org/apache/hadoop/hive/ql/exec/tez/CustomPartitionVertex.java:565 | coefficients x, y with x·a + y·b = gcd(a, b), the witness for the redistribution rule |
| Arith.GcdDivides | ql/src/java/org/apache/hadoop/hive/ql/exec/tez/CustomPartitionVertex.java:565 | a positive gcd divides both bucket counts |
| Arith.ReachesOnlySameRemainder | ql/src/java/org/apache/hadoop/hive/ql/exec/tez/CustomPartitionVertex.java:558-563 | a row of small bucket s whose hash s + j·k lands in big bucket b has s ≡ b modulo gcd(n, k) |
| Arith.SameRemainderReaches | ql/src/java/org/apache/hadoop/hive/ql/exec/tez/CustomPartitionVertex.java:558-563 | conversely, when s ≡ b modulo gcd(n, k) some hash s + j·k lands in big bucket b |
| Arith.ReachesIffSameRemainder | ql/src/java/org/apache/hadoop/hive/ql/exec/tez/CustomPartitionVertex.java:558-563 | the redistribution rule of the source comment: small bucket s reaches big bucket b iff s and b agree modulo gcd(n, k) |
| BucketMapping.GcdInt | ql/src/java/org/apache/hadoop/hive/ql/exec/tez/CustomPartitionVertex.java:565 | BigInteger.gcd(...).intValue(): zero only for two zero counts, otherwise the gcd of the absolute values |
| BucketMapping.BucketSplitMap | ql/src/java/org/apache/hadoop/hive/ql/exec/tez/CustomPartitionVertex.java:519-583 | fails with a missing bucket mapping exactly when the input is neither the main work nor an SMB input in inputToBucketMap, fails with division by zero exactly for a non-empty table and a zero bucket count, and otherwise yields a well-formed multimap |
| BucketMapping.MainInputMap | ql/src/java/org/apache/hadoop/hive/ql/exec/tez/CustomPartitionVertex.java:522-545 | for the main work with a positive bucket count every split is kept (same multiset of values) and every key lies in [0, numBuckets) |
| BucketMapping.ExplicitPath | ql/src/java/org/apache/hadoop/hive/ql/exec/tez/CustomPartitionVertex.java:531-545 | with no negative key and no redistribution, a split is under bucket k iff its classified bucket's Java remainder by inputBucketSize is k |
| BucketMapping.FallbackPath | ql/src/java/org/apache/hadoop/hive/ql/exec/tez/CustomPartitionVertex.java:531-556 | with a negative key the partial map is dropped, and the i-th bucket in key order goes whole to bucket i mod inputBucketSize |
| BucketMapping.RekeyKeepsValues | ql/src/java/org/apache/hadoop/hive/ql/exec/tez/CustomPartitionVertex.java:544 | re-keying by remainder loses and duplicates no split |
| BucketMapping.SpreadKeepsValues | ql/src/java/org/apache/hadoop/hive/ql/exec/tez/CustomPartitionVertex.java:553 | the fallback loses and duplicates no split |
| BucketMapping.RekeyGet | ql/src/java/org/apache/hadoop/hive/ql/exec/tez/CustomPartitionVertex.java:542-544 | a split is under k after re-keying iff its entry's key has Java remainder k |
| BucketMapping.SpreadGet | ql/src/java/org/apache/hadoop/hive/ql/exec/tez/CustomPartitionVertex.java:550-555 | a split is under k after the fallback iff its entry's position has Java remainder k |
| BucketMapping.RekeyKeysBounded | ql/src/java/org/apache/hadoop/hive/ql/exec/tez/CustomPartitionVertex.java:542 | with non-negative keys, re-keyed buckets lie in [0, divisor) |
| BucketMapping.SpreadKeysBounded | ql/src/java/org/apache/hadoop/hive/ql/exec/tez/CustomPartitionVertex.java:552 | fallback buckets lie in [0, divisor) |
| BucketMapping.SpreadingGet | ql/src/java/org/apache/hadoop/hive/ql/exec/tez/CustomPartitionVertex.java:574-577 | big bucket b below numBuckets receives exactly the splits of remainder class b mod gcd, and no other key is created |
| BucketMapping.RedistributeGet | ql/src/java/org/apache/hadoop/hive/ql/exec/tez/CustomPartitionVertex.java:565-579 | after redistribution a split is under big bucket b iff b is in range and the split's small bucket agrees with b modulo the gcd |
| BucketMapping.RedistributedTable | ql/src/java/org/apache/hadoop/hive/ql/exec/tez/CustomPartitionVertex.java:558-580 | after redistribution a split is under big bucket b iff a hash of its small bucket can land in b |
| BucketMapping.SmbSideRedistribution | ql/src/java/org/apache/hadoop/hive/ql/exec/tez/CustomPartitionVertex.java:558-580 | for an SMB side table with k ≠ n buckets and every bucket id present, the map is the redistribution, with keys in [0, numBuckets), and b holds exactly the splits whose small bucket reaches b |
| BucketMapping.RedistributedFallback | ql/src/java/org/apache/hadoop/hive/ql/exec/tez/CustomPartitionVertex.java:547-580 | after the fallback and the redistribution, a split is under big bucket b iff b is in range and a hash of its entry's position modulo k can land in b |
| BucketMapping.SmbSideFallbackRedistribution | ql/src/java/org/apache/hadoop/hive/ql/exec/tez/CustomPartitionVertex.java:547-580 | for an SMB side table with k ≠ n buckets and a missing bucket id, the fallback map is redistributed: keys in [0, numBuckets), and b holds exactly the splits whose position modulo k reaches b |
| BucketMapping.SixAndFourBuckets | ql/src/java/org/apache/hadoop/hive/ql/exec/tez/CustomPartitionVertex.java:559-563 | the comment's example: with 6 big and 4 small buckets, small bucket 1 reaches exactly big buckets 1, 3 and 5 |
| Classification.InsertSplitElements | ql/src/java/org/apache/hadoop/hive/ql/exec/tez/CustomPartitionVertex.java:219-221 | TreeSet.add keeps the set when a split with equal bytes is present, and otherwise adds exactly the new split |
| Classification.InsertSplitKeys | ql/src/java/org/apache/hadoop/hive/ql/exec/tez/CustomPartitionVertex.java:219-221 | after TreeSet.add the set's byte keys are the old ones plus the new split's |
| Classification.InsertSplitSorted | ql/src/java/org/apache/hadoop/hive/ql/exec/tez/CustomPartitionVertex.java:219-221 | TreeSet.add keeps the set strictly sorted |
| Classification.AddToBucketGet | ql/src/java/org/apache/hadoop/hive/ql/exec/tez/CustomPartitionVertex.java:218-221 | computeIfAbsent(bucket).add(split) changes only that bucket's set |
| Classification.AddToBucketSorted | ql/src/java/org/apache/hadoop/hive/ql/exec/tez/CustomPartitionVertex.java:190-221 | the TreeMap stays strictly sorted by key with non-empty, sorted sets |
| Classification.ClassifyErrPersists | ql/src/java/org/apache/hadoop/hive/ql/exec/tez/CustomPartitionVertex.java:192-222 | once an event has thrown, later events change nothing |
| Classification.ClassifyEvents | ql/src/java/org/apache/hadoop/hive/ql/exec/tez/CustomPartitionVertex.java:189-223 | the loop returns what the event-by-event classification gives: the first failing event's error, or the accumulated table |
| Classification.ClassifyOkIffAccepted | ql/src/java/org/apache/hadoop/hive/ql/exec/tez/CustomPartitionVertex.java:192-222 | the loop succeeds exactly when there is no update-payload event, only Hive splits and no configure event after a data event; and then dataSeen says whether any data event occurred |
| Classification.ClassifySorted | ql/src/java/org/apache/hadoop/hive/ql/exec/tez/CustomPartitionVertex.java:190-221 | the table is a sorted map of strictly sorted split sets |
| Classification.ClassifyOnlyFromEvents | ql/src/java/org/apache/hadoop/hive/ql/exec/tez/CustomPartitionVertex.java:209-221 | every split in bucket k came from a data event and has bucket key k |
| Classification.ClassifyFilesEverySplit | ql/src/java/org/apache/hadoop/hive/ql/exec/tez/CustomPartitionVertex.java:209-221 | every data event's split is in the set of its bucket id (or -1) |
| Vertex.GroupingWf | ql/src/java/org/apache/hadoop/hive/ql/exec/tez/CustomPartitionVertex.java:247-268 | the grouped map is a well-formed multimap of grouped splits |
| Vertex.GroupingGet | ql/src/java/org/apache/hadoop/hive/ql/exec/tez/CustomPartitionVertex.java:252-282 | bucket k of the grouped map holds exactly the grouper's groups for bucket k's initial splits, and no new bucket appears |
| Vertex.GroupingKeysInRange | ql/src/java/org/apache/hadoop/hive/ql/exec/tez/CustomPartitionVertex.java:247-268 | grouping keeps the buckets in [0, numBuckets) |
| Vertex.GroupBuckets | ql/src/java/org/apache/hadoop/hive/ql/exec/tez/CustomPartitionVertex.java:247-282 | the grouping loop builds the grouped map bucket by bucket |
| Vertex.InitialSplits | ql/src/java/org/apache/hadoop/hive/ql/exec/tez/CustomPartitionVertex.java:189-230 | when classification, bucket mapping and the range check pass, the initial map is well formed with keys in [0, numBuckets) |
| Vertex.QueuePut | ql/src/java/org/apache/hadoop/hive/ql/exec/tez/CustomPartitionVertex.java:304 | HashMap.put on the queue: the names stay distinct, the input's only entry is the new one, and every entry of another name stays |
| Vertex.QueuePutTwice | ql/src/java/org/apache/hadoop/hive/ql/exec/tez/CustomPartitionVertex.java:304 | putting the same input twice leaves the queue as the second put alone would: the last splits win |
| Vertex.QueuePutNew | ql/src/java/org/apache/hadoop/hive/ql/exec/tez/CustomPartitionVertex.java:304 | a name not yet in the queue is added after every queued input |
| Vertex.SideCallsAddEvents | ql/src/java/org/apache/hadoop/hive/ql/exec/tez/CustomPartitionVertex.java:438-441 | draining the queue makes one addRootInputEvents call per queued input, with that input's side events |
| Vertex.CopyToTasks | ql/src/java/org/apache/hadoop/hive/ql/exec/tez/CustomPartitionVertex.java:336-346 | for every destination task, the bucket's splits numbered from 1 and targeted at the task; numSplitsForTask[task] rises by the bucket's size |
| Vertex.DispatchSideSplits | ql/src/java/org/apache/hadoop/hive/ql/exec/tez/CustomPartitionVertex.java:317-350 | the per-task counts and events of a side input are the specified ones: Routing.SideCounts and Routing.SideEvents |
| Vertex.AssignTaskIndices | ql/src/java/org/apache/hadoop/hive/ql/exec/tez/CustomPartitionVertex.java:361-379 | each grouped split gets the next task index under its bucket, taskCount rises by the number of splits, finalSplits gains them in order, and the counts are the widths |
| Vertex.RouteBucket | ql/src/java/org/apache/hadoop/hive/ql/exec/tez/CustomPartitionVertex.java:363-378 | one bucket's splits get consecutive task indices starting at taskCount |
| Vertex.MainInputEvents | ql/src/java/org/apache/hadoop/hive/ql/exec/tez/CustomPartitionVertex.java:405-432 | the main input's events are the specified ones, including the IOException for a sub-split that is not grouped |
| Vertex.RoutedAfterAssign | ql/src/java/org/apache/hadoop/hive/ql/exec/tez/CustomPartitionVertex.java:361-379 | routing the main input keeps the routing table valid: every task index once, keys in range, fresh tasks below the new taskCount |
| Vertex.AssignTasksInRange | ql/src/java/org/apache/hadoop/hive/ql/exec/tez/CustomPartitionVertex.java:368 | recorded buckets stay in [0, numBuckets) |
| Routing.Widths | ql/src/java/org/apache/hadoop/hive/ql/exec/tez/CustomPartitionVertex.java:369-376 | a task's expected input count is 1, or its grouped split's number of sub-splits after second-level grouping |
| Routing.OnceStep | ql/src/java/org/apache/hadoop/hive/ql/exec/tez/CustomPartitionVertex.java:367-378 | adding the fresh indices taskCount .. taskCount + w - 1 under one bucket keeps every task index below the new count exactly once |
| Routing.AssignTasksOnce | ql/src/java/org/apache/hadoop/hive/ql/exec/tez/CustomPartitionVertex.java:363-379 | after the main input every task index below taskCount sits under exactly one bucket |
| Routing.AssignTasksRoutes | ql/src/java/org/apache/hadoop/hive/ql/exec/tez/CustomPartitionVertex.java:363-379 | task t is under bucket k iff it was before, or t is a fresh index whose split lies in bucket k |
| Routing.AssignTasksGet | ql/src/java/org/apache/hadoop/hive/ql/exec/tez/CustomPartitionVertex.java:368 | a bucket gains one task per grouped split of that bucket |
| Routing.AssignTasksWf | ql/src/java/org/apache/hadoop/hive/ql/exec/tez/CustomPartitionVertex.java:368 | the routing table stays a well-formed multimap |
| Routing.AssignTasksKeys | ql/src/java/org/apache/hadoop/hive/ql/exec/tez/CustomPartitionVertex.java:368 | the routing table gains only buckets of the grouped map |
| Routing.OwnerOf | ql/src/java/org/apache/hadoop/hive/ql/exec/tez/CustomPartitionVertex.java:332 | with every task routed once, each task index has exactly one bucket |
| Routing.SubSplitEventsSpec | ql/src/java/org/apache/hadoop/hive/ql/exec/tez/CustomPartitionVertex.java:411-422 | the sub-split loop succeeds iff every sub-split is a grouped split, and then emits one event per sub-split targeted at the split's position |
| Routing.MainEventsOk | ql/src/java/org/apache/hadoop/hive/ql/exec/tez/CustomPartitionVertex.java:405-432 | the main input's events fail, with an unexpected split type, exactly when second-level grouping left a sub-split that is not grouped |
| Routing.MainEventsTargets | ql/src/java/org/apache/hadoop/hive/ql/exec/tez/CustomPartitionVertex.java:405-432 | the events targeted at task t are exactly those of finalSplits[t]: one, or one per sub-split |
| Routing.FirstInputRouting | ql/src/java/org/apache/hadoop/hive/ql/exec/tez/CustomPartitionVertex.java:361-432 | for the first main input, task t sits under the bucket of its split alone and receives exactly that split's events |
| Routing.CopiesForTask | ql/src/java/org/apache/hadoop/hive/ql/exec/tez/CustomPartitionVertex.java:336-346 | a destination task receives the bucket's numbered copies iff it is among the bucket's tasks |
| Routing.SideEventsForTask | ql/src/java/org/apache/hadoop/hive/ql/exec/tez/CustomPartitionVertex.java:331-347 | a task routed once receives exactly its own bucket's splits, numbered from 1 |
| Routing.AddCountAt | ql/src/java/org/apache/hadoop/hive/ql/exec/tez/CustomPartitionVertex.java:345 | numSplitsForTask[task] rises by the bucket's size for a destination task and is unchanged otherwise |
| Routing.SideCountForTask | ql/src/java/org/apache/hadoop/hive/ql/exec/tez/CustomPartitionVertex.java:317-346 | a task's count is its bucket's number of splits; buckets without tasks add nothing |
| Routing.SideDispatch | ql/src/java/org/apache/hadoop/hive/ql/exec/tez/CustomPartitionVertex.java:317-350 | with the routing table valid, every task's side events and count are exactly those of the one bucket that owns it |
| Routing.BucketPayloadRoundTrip | ql/src/java/org/apache/hadoop/hive/ql/exec/tez/CustomPartitionVertex.java:459-462 | the 8-byte payload decodes to numBuckets and the bucket number |
| Routing.BucketIdEventsTasks | ql/src/java/org/apache/hadoop/hive/ql/exec/tez/CustomPartitionVertex.java:455-466 | one processor event per (bucket, task) pair, in routing-table order |
| Routing.SentToOwner | ql/src/java/org/apache/hadoop/hive/ql/exec/tez/CustomPartitionVertex.java:455-466 | a task routed once receives exactly one processor event, carrying its own bucket |
| Routing.SentToNone | ql/src/java/org/apache/hadoop/hive/ql/exec/tez/CustomPartitionVertex.java:455-466 | a task in no bucket receives no processor event |
| Routing.BucketIdsDelivered | ql/src/java/org/apache/hadoop/hive/ql/exec/tez/CustomPartitionVertex.java:454-468 | with the routing table valid, every task below taskCount receives one event whose payload decodes to numBuckets and its bucket |
| Manager.SetParallelismCount | ql/src/java/org/apache/hadoop/hive/ql/exec/tez/CustomPartitionVertex.java:470-487 | the parallelism is set exactly when numInputsSeenSoFar equals the configured count, the pending splits are then dropped, and with the gate shut the state is unchanged |
| Manager.DispatchCount | ql/src/java/org/apache/hadoop/hive/ql/exec/tez/CustomPartitionVertex.java:311-355 | dispatching a side input, draining the queue and sending bucket ids never set the parallelism |
| Manager.RouteStepRouted | ql/src/java/org/apache/hadoop/hive/ql/exec/tez/CustomPartitionVertex.java:361-382 | the routing step keeps the routing table valid |
| Manager.GroupedSplits | ql/src/java/org/apache/hadoop/hive/ql/exec/tez/CustomPartitionVertex.java:247-291 | the grouped map is well formed, has keys in [0, numBuckets) and holds grouped splits |
| Manager.SideInputKeepsValid | ql/src/java/org/apache/hadoop/hive/ql/exec/tez/CustomPartitionVertex.java:297-309 | a side input keeps the routing table valid and, in an SMB join with the gate not yet used, the invariant |
| Manager.SideSpecsKeys | ql/src/java/org/apache/hadoop/hive/ql/exec/tez/CustomPartitionVertex.java:438-441 | draining the queue only adds input specs |
| Manager.DrainAndSetCount | ql/src/java/org/apache/hadoop/hive/ql/exec/tez/CustomPartitionVertex.java:438-444 | after the drain the queue is empty, every spec survives, and the parallelism is set only if something was queued and all inputs were seen |
| Manager.BucketMapJoinCount | ql/src/java/org/apache/hadoop/hive/ql/exec/tez/CustomPartitionVertex.java:446-451 | the bucket map join step sets the parallelism only with one configured input seen once, and leaves queue and specs alone |
| Manager.BucketIdsAfterParallelism | ql/src/java/org/apache/hadoop/hive/ql/exec/tez/CustomPartitionVertex.java:446-451 | in a bucket map join the step appends the setVertexParallelism call and then one processor event per routed task, in table order, and the pending splits are gone |
| Manager.MainInputKeepsValid | ql/src/java/org/apache/hadoop/hive/ql/exec/tez/CustomPartitionVertex.java:357-452 | the main input keeps the routing table valid and, when it succeeds, the invariant |
| Manager.RootStepDispatches | ql/src/java/org/apache/hadoop/hive/ql/exec/tez/CustomPartitionVertex.java:154-291 | a callback counts its input and either fails with the error of classification, bucket mapping or the range check, or dispatches its grouped splits to the main or the side path; a side input that gets that far belongs to an SMB join |
| Manager.RootInputKeepsValid | ql/src/java/org/apache/hadoop/hive/ql/exec/tez/CustomPartitionVertex.java:154-295 | every callback keeps the routing table valid, and a successful one keeps the invariant |
| Manager.BucketIdSends | ql/src/java/org/apache/hadoop/hive/ql/exec/tez/CustomPartitionVertex.java:454-468 | the two loops send the specified processor events |
| Manager.BuildInitialMap | ql/src/java/org/apache/hadoop/hive/ql/exec/tez/CustomPartitionVertex.java:189-230 | event loop, bucket mapping and range check yield the initial map or the first error |
| Manager.CustomPartitionVertex.constructor | ql/src/java/org/apache/hadoop/hive/ql/exec/tez/CustomPartitionVertex.java:110-131 | a fresh manager has every collection empty and satisfies the invariant |
| Manager.CustomPartitionVertex.OnRootVertexInitialized | ql/src/java/org/apache/hadoop/hive/ql/exec/tez/CustomPartitionVertex.java:154-295 | the callback counts the input, builds and groups the initial map, dispatches to the main or the side path, ends in the specified state, and keeps the invariant on success |
| Manager.CustomPartitionVertex.ProcessAllSideEventsSetParallelism | ql/src/java/org/apache/hadoop/hive/ql/exec/tez/CustomPartitionVertex.java:297-309 | without the main work's spec the side input is queued; otherwise it is dispatched and the gate is tried |
| Manager.CustomPartitionVertex.ProcessAllSideEvents | ql/src/java/org/apache/hadoop/hive/ql/exec/tez/CustomPartitionVertex.java:311-355 | the input's spec becomes the per-task counts and one addRootInputEvents call carries the copies |
| Manager.CustomPartitionVertex.ProcessAllEvents | ql/src/java/org/apache/hadoop/hive/ql/exec/tez/CustomPartitionVertex.java:357-452 | routing, the main events, the drain of the queue and the bucket map join case, in the source's order |
| Manager.CustomPartitionVertex.RouteMainInput | ql/src/java/org/apache/hadoop/hive/ql/exec/tez/CustomPartitionVertex.java:361-382 | the routing table, taskCount, finalSplits and the main input's spec are updated, keeping the routing table valid |
| Manager.CustomPartitionVertex.DrainQueue | ql/src/java/org/apache/hadoop/hive/ql/exec/tez/CustomPartitionVertex.java:438-441 | every queued side input is dispatched in turn |
| Manager.CustomPartitionVertex.DrainSideInputs | ql/src/java/org/apache/hadoop/hive/ql/exec/tez/CustomPartitionVertex.java:438-443 | with side inputs queued, each is dispatched, the gate is tried once and the queue is cleared; the routing table stays valid |
| Manager.CustomPartitionVertex.FinishBucketMapJoin | ql/src/java/org/apache/hadoop/hive/ql/exec/tez/CustomPartitionVertex.java:447-451 | with one configured input, the gate is tried and the bucket ids are sent; otherwise nothing changes |
| Manager.CustomPartitionVertex.SetVertexParallelismAndRootInputSpec | ql/src/java/org/apache/hadoop/hive/ql/exec/tez/CustomPartitionVertex.java:470-487 | the gated setVertexParallelism call with taskCount, the pending splits and the specs, then finalSplits is cleared |
| Manager.CustomPartitionVertex.SendBucketIdsToProcessor | ql/src/java/org/apache/hadoop/hive/ql/exec/tez/CustomPartitionVertex.java:454-468 | one sendEventToProcessor call per (bucket, task) pair |
| Lifecycle.Run | ql/src/java/org/apache/hadoop/hive/ql/exec/tez/CustomPartitionVertex.java:152-156 | a run of callbacks keeps the routing table valid |
| Lifecycle.InitialValid | ql/src/java/org/apache/hadoop/hive/ql/exec/tez/CustomPartitionVertex.java:91-108 | the freshly initialised state satisfies the invariant |
| Lifecycle.RunKeepsValid | ql/src/java/org/apache/hadoop/hive/ql/exec/tez/CustomPartitionVertex.java:470-475 | a successful run never sets the parallelism twice, nor before all inputs were seen |
| Lifecycle.MainRootStep | ql/src/java/org/apache/hadoop/hive/ql/exec/tez/CustomPartitionVertex.java:250-269 | the main input counts itself, registers its spec and sets the parallelism only through the drain or the single-input case |
| Lifecycle.SideRootStep | ql/src/java/org/apache/hadoop/hive/ql/exec/tez/CustomPartitionVertex.java:270-309 | a side input before the main work is queued and sets nothing; after it, it keeps the main spec and sets the parallelism only if all inputs were seen |
| Lifecycle.MainStepCount | ql/src/java/org/apache/hadoop/hive/ql/exec/tez/CustomPartitionVertex.java:357-452 | processAllEvents adds its own spec and sets the parallelism once per open gate |
| Lifecycle.SideStepCount | ql/src/java/org/apache/hadoop/hive/ql/exec/tez/CustomPartitionVertex.java:297-309 | processAllSideEventsSetParallelism queues or dispatches, setting the parallelism only at the gate |
| Lifecycle.StepWaiting | ql/src/java/org/apache/hadoop/hive/ql/exec/tez/CustomPartitionVertex.java:297-306 | a callback before the last one sets nothing, and the side inputs before the main work wait in the queue |
| Lifecycle.LastStep | ql/src/java/org/apache/hadoop/hive/ql/exec/tez/CustomPartitionVertex.java:438-451 | the last callback sets the parallelism exactly once |
| Lifecycle.RunFromWaiting | ql/src/java/org/apache/hadoop/hive/ql/exec/tez/CustomPartitionVertex.java:154-309 | from a waiting state, the remaining callbacks set the parallelism exactly once |
| Lifecycle.RunAppend | ql/src/java/org/apache/hadoop/hive/ql/exec/tez/CustomPartitionVertex.java:152-156 | a run of two sequences of callbacks is the run of the first followed, unless it failed, by the run of the second |
| Lifecycle.SidesQueued | ql/src/java/org/apache/hadoop/hive/ql/exec/tez/CustomPartitionVertex.java:297-305 | side inputs arriving before the main work fail exactly when one does not map to buckets, and otherwise are counted and wait in the queue in arrival order, nothing else changing |
| Lifecycle.SidesDispatched | ql/src/java/org/apache/hadoop/hive/ql/exec/tez/CustomPartitionVertex.java:297-309 | side inputs arriving after the main work fail exactly when one does not map to buckets, and otherwise each is dispatched and the gate tried in turn |
| Lifecycle.MainStep | ql/src/java/org/apache/hadoop/hive/ql/exec/tez/CustomPartitionVertex.java:357-442 | with more than one input, the main work's callback fails exactly when its splits or events do, and otherwise routes, sends its events, then drains the queue and tries the gate |
| Lifecycle.QueuedFirst | ql/src/java/org/apache/hadoop/hive/ql/exec/tez/CustomPartitionVertex.java:297-442 | side inputs then the main work: the run passes iff all map to buckets and the main events succeed, and ends with the queue of side inputs drained after the main work's routing |
| Lifecycle.MainFirst | ql/src/java/org/apache/hadoop/hive/ql/exec/tez/CustomPartitionVertex.java:297-442 | the main work then side inputs: the same pass condition, and the side inputs are dispatched one by one after the main work's routing |
| Lifecycle.SideInputOrder | ql/src/java/org/apache/hadoop/hive/ql/exec/tez/CustomPartitionVertex.java:297-442 | side inputs deferred until the main work arrives give the same outcome and the same final state, context calls included, as the same side inputs arriving after it |
| Lifecycle.ParallelismSetOnce | ql/src/java/org/apache/hadoop/hive/ql/exec/tez/CustomPartitionVertex.java:473-486 | when every input arrives once, exactly one is the main work, and the main work is named or alone, a successful run sets the vertex parallelism exactly once |

## Left out

- Payload handling is not modelled: the MR payload rewrite and setGroupingEnabled (lines 159-187), initialize()'s CustomVertexConfiguration.readFields (the configuration is a parameter, `VertexConf`), and split deserialisation.
  - A data event carries its split already decoded; a split that is not a HiveInputSplit is an error.
  - Split serialisation (createSplitProto) is an injective wrapper, `SerializedSplit`.
- The SplitGrouper (generateGroupedSplits, group) is a parameter: two total functions from splits to groups. Each group becomes one grouped split.
  - Nothing is assumed about the groups, so no lemma claims that grouping keeps every split.
  - createTaskLocationHints is replaced by the pending splits themselves in the setVertexParallelism call.
- Waves, available slots and resources (lines 233-241) only feed the grouper and are left out, as is the Configuration.
- getBytePayload, CustomEdgeConfiguration and the emMap scan of edge properties (lines 384-401) depend on Tez edge descriptors; they and vertexType are not part of this model.
  - The setVertexParallelism call in the log has no edge-manager map.
- onVertexStarted, the empty callbacks, logging, and the wrapping of exceptions in RuntimeException are left out.
  - Every exception of a callback becomes a `Fail` outcome with its kind.
  - The state at the point of failure is kept, and a run stops at the first failure.
- configureVertexTaskEvent is written but never read by the core; only the protocol check on it is modelled.
- The iteration orders of Guava's HashMultimap, of the ArrayListMultimaps keyed by bucket (lines 529, 566 and 573) and of HashMap are unspecified. The model iterates multimaps and the side-input queue in insertion order.
  - `Lifecycle.SideInputOrder` with several side inputs relies on that order: the queue is drained in arrival order.
  - Properties about a single task or bucket do not depend on that order.
  - The order of events across buckets in the log is the model's choice.
- HashMultimap's merging of equal (bucket, task) pairs is not modelled. Task indices are fresh, so equal pairs never arise.
- totalInputsCount only sizes an ArrayList and is left out.
- The intermediate bucketToSerializedSplitMap of processAllSideEvents is folded into the dispatch loop.
- The int counters taskCount and numInputsSeenSoFar are unbounded integers. Their 32-bit overflow, after two billion tasks or callbacks, is not modelled.
- Lifecycle.ParallelismSetOnce: assumes the main work is named or is the only input. With an empty main work name and several inputs, the source never sets the parallelism.

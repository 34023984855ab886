# Verified model of the two metrics consumers

This project models the two services that sit behind the Kafka metrics topics and proves what they keep
over every run:

- the **cache service**: `consume_loop` parses messages into operations and puts them on a bounded queue;
  `redis_batch_worker` drains the queue, flushes batches to Redis through `CacheRepository`, retries after
  failures, commits offsets and drains on shutdown;
- the **storage service**: `KafkaBatchConsumer` polls into per-topic buffers, `process_batches` inserts one
  batch per topic concurrently with bounded retries and commits only if nothing failed;
- the **backoff loops** that both use when they start.

## How it is built

Each pipeline appears twice, tied together by shared specification functions.

*As a state machine.* `CacheProtocol` and `InsertCycle` list the steps that can happen between two `await`s.
A run is any legal list of events, so the theorems quantify over every interleaving and every failure. For
Redis that means: any single command may be rejected, or the connection may break before or after any command
or trim, any number of times, and the batch may grow between two attempts. For ClickHouse a failed attempt
may have stored any part of the batch. `StorageRuns` puts polls, insert cycles and commits together into runs
of the whole storage service, with a ledger that says for each message where it ended up.

*As the program itself.* `Repository`, `Worker`, `StorageConsumer` and `Processor` hold classes whose methods
change fields and lists in place, loop by loop as the source does, with nondeterministic outcomes (`*`) where
the source talks to Kafka, Redis or ClickHouse. Their contracts name the same specification functions:
`Applied` (a command list run once and trimmed), `Poll` (one `consume_batch`), `Run` (an insert cycle) and
`After` (a whole storage run). Both loops refine their machines: `Worker.CacheService` records every step it
takes, and its invariant says that the record is a legal run of `CacheProtocol` leading to exactly its fields and
its store, so the theorems about runs hold of `RedisBatchWorker`; `Processor.StorageService.ProcessBatches`
is proved to produce exactly a run of `StorageRuns`.

Redis is one map from (window key, field) slots to values plus two sets of window starts; a hash exists
exactly while it has a field. `TopN` is the algebra of the trimmed indices. `KeySpace` and `RedisKeys` show
that spelling keys and values as text loses nothing, so the rest can work on structured keys. History
fields (`flushed`, `dropped`, `lost`, the ledger sets) are read by no step.

Readings of the clock are inputs of the worker's steps: any values that never decrease. Timestamps, JSON
numbers and text formatting come from an environment (`MessageParser.Env`, `isFloat`,
`iso`), so each result holds for every such function. Outcomes of I/O are parameters or nondeterministic.

## Where the code and its documentation disagree

Both services call `commit()` without offsets, which commits the consumer's current position rather than the
end of the batch just written.

- docs/modules/cache/README.md:92 says that offsets are committed only after successful Redis writes. The
  position also covers what is still queued or blocked in `queue.put`. `CacheTheorems.CommitCoversExactly`
  gives the exact condition under which a commit keeps the documented order,
  `CacheTheorems.CommitGapIsBounded` bounds what can be committed and not yet persisted, and
  `CacheTheorems.DocumentedCommitOrderFails` is a run without any fault in which the slogan is false.
  What that costs after a crash is `CacheGap.RestartExactly`: the restarted service has the store of the full
  history if and only if every field and both indices survive the gap, that is, the operations that were
  committed and not persisted. `CacheRestart.RestartRecovers` is the case without a gap, and
  `CacheRestart.CommittedGapIsLost` a fault-free run in which a field does not survive.
- docs/modules/storage/README.md:92 says that after an insert failure offsets are not committed and messages
  will reprocess. There is no seek back, so the next cycle that commits passes over the failed messages.
  `StorageTheorems.PassedOverByNextCommit` gives the exact condition,
  `StorageTheorems.StoredUnlessNamed` and `StorageTheorems.StoredUnlessUnclean` say when "committed means
  stored" holds, by message and by pass, `StorageRestart.StoredAcrossLives` what is stored over crashes, and
  `StorageTheorems.DocumentedReprocessingFails` is a run in which the slogan is false.

One more expectation fails without being documented: that every window a reader finds in an index can be shown.
Redis may reject an `hset` and run the `zadd` after it (`HashPresence.RejectedHSetLeavesGap`).
`HashPresence.MissingHashExactly` says exactly when an indexed window lacks its hash, leaving expiry aside: in
`CacheProtocol` a hash lives for ever. `HashExpiry` adds the time to live. `HashExpiry.YoungHashesAreVisible`
says that the results of `HashPresence` are exact until the first deadline of the window,
`HashExpiry.HashVisibleExactly` when a hash can be seen after that, and `HashExpiry.VisibleHasHash` that expiry
only ever removes hashes.

## Model

| member | source | states |
|---|---|---|
| TopN.TopSize | services/cache/src/infrastructure/redis/repository.py:111-115 | retention keeps exactly min(N, size) window starts |
| TopN.TopUnique | services/cache/src/infrastructure/redis/repository.py:111-115 | "min(N, size) members, everything left out smaller than everything kept" has only one solution, the retained set |
| TopN.DropExcessIsTop | services/cache/src/infrastructure/redis/repository.py:112-115 | removing ranks 0 to excess-1 of an over-full index leaves exactly its N largest window starts |
| TopN.TopAbsorb | services/cache/src/infrastructure/redis/repository.py:64-77 | trimming early does not change what a later trim retains, so retention does not depend on how operations are batched |
| TopN.TopOfTop | services/cache/src/infrastructure/redis/repository.py:111-132 | narrowing to N and then to a smaller limit is narrowing to the limit at once |
| TopN.EvictedStaysOut | services/cache/src/infrastructure/redis/repository.py:111-115 | a window that one trim evicts is out after the next additions and trim, even if they add it again |
| TopN.FullIndexFloorRises | services/cache/src/infrastructure/redis/repository.py:111-115 | adding to a full index and trimming it never lowers its smallest retained window |
| CacheIndices.EvictedStaysOutOverRuns | services/cache/src/infrastructure/kafka/worker.py:52-75 | over every run: a window that a trim removes is out of its index after every later successful flush, whatever late operations and retries add again |
| CacheIndices.FullIndexFloorRisesOverRuns | services/cache/src/infrastructure/kafka/worker.py:52-75 | over every run: from one successful flush to any later one the smallest window of a full index never decreases |
| CacheIndices.IndicesComeFromOps | services/cache/src/infrastructure/redis/repository.py:57-70 | in every reachable state an index holds only initial windows and windows of operations taken from the queue |
| CacheIndices.DequeuedGrows | services/cache/src/infrastructure/kafka/worker.py:40-75 | what was taken from the queue stays taken, in the same order, over every run |
| CacheIndices.LaterFlushTrimsEarlier | services/cache/src/infrastructure/kafka/worker.py:52-75 | between two successful flushes an index changes exactly by adding windows and trimming |
| TopN.ZRevRangeListsTop | services/cache/src/infrastructure/redis/repository.py:132 | a range read of `limit` ids lists exactly the `limit` largest members, each once, strictly descending |
| TopN.ZRevRangeIgnoresTrim | services/cache/src/infrastructure/redis/repository.py:111-132 | the ids of a read of at most N windows are the same before and after a pending trim |
| CacheModel.AppliedConcat | services/cache/src/infrastructure/redis/repository.py:54-77 | flushing two batches one after the other is flushing their concatenation once |
| CacheModel.AbsorbCommand | services/cache/src/infrastructure/redis/repository.py:57-72 | a command that already ran leaves no trace if the batch containing it is applied again |
| CacheModel.AbsorbTrim | services/cache/src/infrastructure/redis/repository.py:73-77 | an early trim of an index the batch touches leaves no trace either |
| CacheModel.ReplayIsIdempotent | services/cache/src/infrastructure/redis/repository.py:54-77 | whatever commands and trims of a failed attempt took effect, applying an extension of the batch gives the state of applying that extension once to the store from before the attempt |
| CacheModel.CommandsMeanLastWrites | services/cache/src/infrastructure/redis/repository.py:57-70 | the queued commands leave in each field the value of the last operation naming it, and add exactly the operations' windows to their own index |
| CacheModel.CommandsInTriples | services/cache/src/infrastructure/redis/repository.py:57-70 | each operation contributes exactly three commands, in batch order: its fields to the hash of its own type and window, an expire of that hash, and the window added to the index of its type |
| CacheModel.AppliedMeansLastWrites | services/cache/src/infrastructure/redis/repository.py:47-77 | a store is the result of a flush if and only if every field holds the last write (or its old value) and each touched index holds the N largest of its old and new windows |
| RedisKeys.WindowKeyInjective | shared/constants/redis_keys.py:21-32 | a window key determines both its metric type and its window start |
| RedisKeys.WindowKeyRoundTrip | shared/constants/redis_keys.py:21-32 | the window start is recovered by stripping the pattern and calling int |
| RedisKeys.WindowKeyIsNotIndexKey | shared/constants/redis_keys.py:5-12 | no window key is the key of any sorted-set index |
| Decimal.ParseOfPrint | services/cache/src/infrastructure/redis/repository.py:64 | int undoes str on every window start, negative ones included |
| Decimal.PrintInjective | services/cache/src/infrastructure/redis/repository.py:64 | two window starts never print alike, so member text identifies the window |
| Decimal.PrintIsDecimal | services/cache/src/infrastructure/redis/repository.py:64 | str prints the decimal digits of the number, most significant first, after a minus sign if it is negative |
| Decimal.ParseAcceptsExactly | services/cache/src/infrastructure/redis/repository.py:121 | int accepts exactly an optional sign followed by digits |
| Decimal.LeadingZero | services/cache/src/infrastructure/redis/repository.py:121 | leading zeros do not change what int reads |
| KeySpace.KeyTextInjective | services/cache/src/infrastructure/redis/repository.py:61-67 | event and performance windows, of any start, never share a hash key |
| KeySpace.KeyTextIsNotIndexKey | services/cache/src/infrastructure/redis/repository.py:61-70 | hash commands and sorted-set commands of a batch never address the same key |
| KeySpace.SpelledWrites | services/cache/src/infrastructure/redis/repository.py:61-68 | writing structured slots and then printing them is writing the printed slots: the text keyspace refines the structured one |
| KeySpace.ConvertUndoesEncode | services/cache/src/infrastructure/redis/repository.py:117-127 | a stored value reads back as itself if and only if it is an integer or its float text does not parse as an integer |
| KeySpace.ConvertExactly | services/cache/src/infrastructure/redis/repository.py:117-127 | a stored text becomes an integer if int reads it, else a float if float does, else it stays text |
| KeySpace.KeysAreSpelled | shared/constants/redis_keys.py:5-12 | the literal spelling of the event and performance window keys and of their indices |
| MessageParser.ParsedWritesFootprint | services/cache/src/infrastructure/kafka/message_parser.py:16-43 | every accepted message writes exactly the two measures of its tag in its window, never an empty hash |
| MessageParser.FootprintsDisjoint | services/cache/src/infrastructure/kafka/message_parser.py:23-42 | messages for different topics, windows or tags write disjoint fields, even if tags contain dots or suffixes |
| MessageParser.EventMessageParsed | services/cache/src/infrastructure/kafka/message_parser.py:16-27 | an event message with a start, a tag and two counts (0 if missing) becomes exactly the operation of that window with these two fields; an integer start is the window as it is, a text its ISO time |
| MessageParser.PerfMessageParsed | services/cache/src/infrastructure/kafka/message_parser.py:28-43 | the same for a performance message and its two load times (0.0 if missing) |
| MessageParser.SkippedExactly | services/cache/src/infrastructure/kafka/message_parser.py:16-48 | a message is skipped if and only if its topic is not handled (session metrics among them), it is empty, or it is an object without a usable start or without a tag |
| ConsumeLoop.StopsAtFirstFatal | services/cache/src/infrastructure/kafka/consumer.py:132-149 | over every run: the loop is stopped if and only if it was stopped from outside or received a fatal message (no object, or named and with a measure that does not convert), never both; a fatal message is the last one delivered and no operation delivered before it is lost |
| ConsumeLoop.RaisesExactly | services/cache/src/infrastructure/kafka/message_parser.py:16-43 | the parser raises exactly on a truthy non-object of a handled topic, or on a message with start and tag of which a measure does not convert |
| RoundTrip.AppliedFieldReadsBack | services/cache/src/infrastructure/redis/repository.py:47-88 | a field just flushed is in the hash read back, as the conversion of its own text, whatever was stored before |
| RoundTrip.EventMessageReadsBack | services/cache/src/infrastructure/kafka/message_parser.py:16-27 | from message to reader: an event message's count and user count, 0 if missing, come back as integers under its event type |
| RoundTrip.PerfMessageReadsBack | services/cache/src/infrastructure/kafka/message_parser.py:28-43 | from message to reader: the two load times, 0.0 if missing, come back as the same floats if and only if their text does not parse as an integer |
| RoundTrip.DistinctMessagesCommute | services/cache/src/infrastructure/kafka/message_parser.py:16-43 | two adjacent accepted messages that differ in topic, window or tag can be applied in either order, anywhere in a history |
| CacheSafety.ConservedStep | services/cache/src/infrastructure/kafka/worker.py:36-96 | every step of either coroutine keeps delivered = flushed ++ batch ++ queue ++ pending put ++ cancelled put, in order |
| CacheSafety.HandsStep | services/cache/src/infrastructure/kafka/worker.py:40-96 | except at the end of a flush no step makes anything persisted, and what the worker holds only grows at its end |
| FlushTiming.FlushStartsExactly | services/cache/src/infrastructure/kafka/worker.py:40-52 | after each wait or item the loop starts a flush if and only if the batch, with the item, is not empty and the commit interval has passed since last_flush or the batch is full |
| FlushTiming.EnterWithNothingQueued | services/cache/src/infrastructure/kafka/worker.py:40-42 | with nothing queued the loop waits; when stopped it ends, with one last flush if a batch is in hand |
| FlushTiming.LastFlushIsItsTest | services/cache/src/infrastructure/kafka/worker.py:49-74 | the clock is read at each test and nowhere else, and last_flush becomes the reading of the test that started a successful flush of the loop, and changes at no other step |
| FlushTiming.NoDueBatchIsKept | services/cache/src/infrastructure/kafka/worker.py:40-75 | over every run: at a loop head with a batch in hand less than the interval had passed at the last test and the batch is not full, or its flush has failed, and then it is still due |
| ConsumeLoop.DeliveryExactly | services/cache/src/infrastructure/kafka/consumer.py:132-137 | a skipped message only moves the position, an operation goes to the end of the queue or blocks if redis_queue_max_size are in it, a raise stops the loop |
| ConsumeLoop.PutsExactly | services/cache/src/infrastructure/kafka/consumer.py:132-137 | messages are taken exactly while the loop runs and no put is blocked, and a blocked put goes through exactly when the queue has room |
| CacheSafety.FlushTrimmed | services/cache/src/infrastructure/redis/repository.py:73-77 | each trim of a flush without errors brings the store to the next stage, the last one to the goal, and keeps it replayable |
| CacheSafety.RedisStep | services/cache/src/infrastructure/kafka/worker.py:40-75 | every step, failing or not, keeps the store replayable: applying what is not yet persisted gives the fold of everything dequeued |
| CacheSafety.CommitBoundedStep | services/cache/src/infrastructure/kafka/worker.py:65-72 | every step keeps the committed and the in-flight position at most queue plus one blocked put beyond the persisted operations |
| CacheSafety.BatchBoundedStep | services/cache/src/infrastructure/kafka/worker.py:40-75 | every step keeps the batch within its limit plus the number of consecutive failed flushes |
| CacheSafety.InvariantHolds | services/cache/src/infrastructure/kafka/worker.py:36-96 | all four invariants hold after every legal run from any initial store |
| CacheTheorems.FlushRefinesFold | services/cache/src/infrastructure/kafka/worker.py:52-75 | right after every successful flush the hashes are the in-order fold of all dequeued operations and each touched index is its N largest windows, whatever failed before |
| CacheTheorems.NothingLostOrReordered | services/cache/src/infrastructure/kafka/consumer.py:130-152 | in every reachable state each delivered operation is in exactly one place, in delivery order |
| CacheTheorems.ExitAccounting | services/cache/src/infrastructure/kafka/worker.py:77-96 | at exit delivered = flushed ++ dropped ++ at most one cancelled put; something is dropped if and only if the final flush failed; with nothing dropped the store is exactly the fold, otherwise the dropped batch would complete it |
| CacheTheorems.DroppedByFinalFlush | services/cache/src/infrastructure/kafka/worker.py:78-95 | in every reachable state operations have been dropped if and only if the flush after the loop has raised, however many flushes failed before |
| CacheTheorems.NoFaultNoDrop | services/cache/src/infrastructure/kafka/worker.py:52-95 | in a run in which Redis never fails no flush fails, nothing is retried and nothing is dropped |
| CacheTheorems.BatchStaysBounded | services/cache/src/infrastructure/kafka/worker.py:40-63 | in every reachable state the batch is at most its limit plus the failed flushes since it was cleared, one less at the loop head |
| CacheTheorems.CommitGapIsBounded | services/cache/src/infrastructure/kafka/worker.py:52-75 | what is committed but not persisted is one contiguous run of delivered operations, at most redis_queue_max_size + 1 long |
| CacheTheorems.CommitCoversExactly | services/cache/src/infrastructure/kafka/worker.py:65-72 | a commit covers the persisted operations, the queue and the blocked or cancelled put of the moment it was sent; it covers only persisted operations if and only if those were all empty |
| CacheTheorems.DocumentedCommitOrderFails | docs/modules/cache/README.md:92 | for any two messages: a fault-free run with batch size one in which the committed position covers the second while it is still queued |
| CacheRestart.RedeliveryIsAbsorbed | services/cache/src/infrastructure/redis/repository.py:54-77 | replaying operations that were persisted long ago, before those still open, gives the same store |
| CacheRestart.SafeMeansNoGap | services/cache/src/infrastructure/kafka/worker.py:65-72 | nothing unpersisted is committed exactly if the committed position covers no more operations than were flushed |
| CacheRestart.RestartRecovers | services/cache/src/infrastructure/kafka/worker.py:24-96 | one crash: a service that dies in any reachable state without a gap, even mid-flush, and is restarted on the store it left with everything from the committed position delivered again: once that is flushed the store is the fold, over the very first store, of all operations of both lives |
| CacheRestart.CommittedGapIsLost | docs/modules/cache/README.md:92 | a witness: after a fault-free run of two messages with batch size one and queue size two the service dies with both committed; nothing is delivered again, and a field that only the second message writes still has its old value |
| CacheRestart.SafeStoreCompletes | services/cache/src/infrastructure/kafka/worker.py:24-96 | whatever way a service died in a state without a gap, applying the log from its committed position to the store it left gives the fold of the whole log, for any continuation of the log |
| CacheRestart.LivesComplete | services/cache/src/infrastructure/kafka/worker.py:24-96 | the same after any number of lives, each ending anywhere, even without having flushed what was delivered to it again |
| CacheRestart.LastLifeRecovers | services/cache/src/infrastructure/kafka/worker.py:24-96 | when the last of any number of lives has flushed the rest of the log, the store is the fold of all of it over the very first store |
| CacheGap.GapIsNotRedelivered | services/cache/src/infrastructure/kafka/worker.py:65-72 | in every reachable state with a gap the delivered operations are the persisted ones, the gap, and what a restart delivers again |
| CacheGap.RestartExactly | services/cache/src/infrastructure/kafka/worker.py:24-96 | for a service that dies in any reachable state, mid-flush or not: a field of the restarted store has the value of the full history if and only if it is written again, the gap does not write it, or it already holds what the gap writes; and the store is that of the full history if and only if every field does so and each index has at most N windows and has kept each window of the gap or N larger ones, or the gap does not touch it |
| CacheGap.RestartSkipsGap | services/cache/src/infrastructure/kafka/worker.py:24-96 | if the service died between flushes, the restarted store is the fold with exactly the gap left out |
| CacheGap.CutOffFlushLeaves | services/cache/src/infrastructure/redis/repository.py:57-77 | in every reachable state, however a pipeline was cut off, each field holds what the persisted operations left or what some operation in the worker's hands writes there |
| CacheGap.SlotAfterRestart | services/cache/src/infrastructure/redis/repository.py:57-77 | a field has the value of the full history exactly if it survives, for any store that operations run in part can leave |
| CacheGap.IndexAfterRestart | services/cache/src/infrastructure/redis/repository.py:57-77 | an index is that of the full history exactly if each window of the gap is in it or outranked by N others |
| CacheGap.RetainedIsSame | services/cache/src/infrastructure/redis/repository.py:111-115 | adding windows and trimming leaves an index alone if and only if it is not over-full and each of them is there or outranked by N members |
| CacheDrain.StoppedIsDraining | services/cache/src/infrastructure/kafka/consumer.py:142-151 | in every reachable state with stop set there is no producer left and a final flush has nothing behind it |
| CacheDrain.DrainStep | services/cache/src/infrastructure/kafka/worker.py:40-96 | after stop every possible step, failing or not, brings the end closer in a well-founded order |
| CacheDrain.DrainNeverStuck | services/cache/src/infrastructure/kafka/worker.py:40-96 | after stop some step is possible until the worker is done |
| CacheDrain.DrainEnds | services/cache/src/infrastructure/kafka/worker.py:40-96 | however steps and failures are chosen, a stopped worker that keeps stepping reaches its end |
| CacheDrain.DrainIterations | services/cache/src/infrastructure/kafka/worker.py:40-63 | after stop the loop condition is tested at most queue length + 1 times, even if every write fails |
| CacheReads.PairsNeverTear | services/cache/src/infrastructure/redis/repository.py:57-72 | in every reachable state, mid-pipeline included, fields that operations write together hold the values of one single delivered operation or the initial ones |
| CacheReads.ParserWritesTogether | services/cache/src/infrastructure/kafka/message_parser.py:16-43 | the parser's operations write both measures of a tag or neither |
| CacheReads.CountAndUsersNeverTear | services/cache/src/infrastructure/kafka/message_parser.py:23-26 | in every reachable state the two measures of one tag in one window come from one message |
| CacheReads.FoldShowsLast | services/cache/src/infrastructure/redis/repository.py:57-72 | after applying a history such a group of fields is that of the last operation writing it |
| CacheReads.FlushShowsLastMessage | services/cache/src/infrastructure/kafka/worker.py:52-75 | after every successful flush such a group is the last flushed operation's, or still the initial one |
| CacheReads.FlushShowsLastMeasures | services/cache/src/infrastructure/kafka/message_parser.py:16-43 | the same with the real parser, for every window and tag |
| CacheReads.IndependentOpsCommute | services/cache/src/infrastructure/redis/repository.py:57-77 | neighbouring operations on different fields commute, retention included |
| CacheReads.TrimIsInvisible | services/cache/src/infrastructure/redis/repository.py:111-115 | in every reachable state a trim in progress changes no hash and no range read of at most N ids |
| HashPresence.HashExists | services/cache/src/infrastructure/redis/repository.py:57-72 | in every reachable state a window has a hash if and only if it had one initially or one of its hset commands has run (expiry aside) |
| HashPresence.IndexedWereAnswered | services/cache/src/infrastructure/redis/repository.py:57-70 | in every reachable state an indexed window was indexed initially or its hset has been answered, run or rejected |
| HashPresence.MissingHashExactly | services/cache/src/infrastructure/redis/repository.py:57-70 | an indexed window lacks its hash if and only if it had none initially, one of its hset commands was rejected and none has run (expiry aside) |
| HashPresence.IndexedWindowsHaveHashes | services/cache/src/infrastructure/redis/repository.py:57-70 | every indexed window has a hash if and only if each of them with a rejected hset had one initially or has also had an hset that ran (expiry aside) |
| HashPresence.RejectedHSetLeavesGap | services/cache/src/infrastructure/redis/repository.py:57-72 | one message whose hset is rejected and whose zadd runs leaves an indexed window without a hash, and a read shows no row for it |
| HashPresence.FlushRestoresHashes | services/cache/src/infrastructure/redis/repository.py:57-77 | right after a successful flush every indexed window has a hash, whatever was rejected before (expiry aside) |
| HashPresence.ReadFindsEveryWindow | services/cache/src/infrastructure/redis/repository.py:129-139 | an id taken in one reachable state has its hash any number of steps later if and only if it had one initially or an hset of it has run by then; it always has one if no hset of it had been rejected when the ids were taken (expiry aside) |
| HashPresence.WholeReadReturnsListed | services/cache/src/infrastructure/redis/repository.py:129-139 | a whole read racing with flushes, its hashes fetched at any later points of the run, returns exactly the listed windows if and only if each had an initial hash or an hset that ran before its fetch; it does if no hset of a listed window had been rejected (expiry aside) |
| HashPresence.ParsedOpsHaveFields | services/cache/src/infrastructure/kafka/message_parser.py:16-43 | the parser never makes an operation without fields |
| HashPresence.ParsedWindowsAreFound | services/cache/src/infrastructure/redis/repository.py:129-139 | with the real parser a listed window is missed exactly if its hset was rejected before the ids were taken and it neither had an initial hash nor an hset that ran (expiry aside) |
| HashExpiry.VisibleHasHash | services/cache/src/infrastructure/redis/repository.py:63 | a hash that can be seen with expiry has been written: expiry only removes hashes |
| HashExpiry.YoungHashesAreVisible | services/cache/src/infrastructure/redis/repository.py:63 | until the first deadline of a window, it can be seen if and only if it has a hash without expiry |
| HashExpiry.RenewalsFollowWrites | services/cache/src/infrastructure/redis/repository.py:61-63 | unless an hset of the window was rejected, each expire that ran came right after an hset that ran |
| HashExpiry.VisibleAfterWrite | services/cache/src/infrastructure/redis/repository.py:62-63 | a window written and then renewed can be seen until the time to live after the renewal, unless its old deadline fell between the two commands |
| HashExpiry.HashVisibleExactly | services/cache/src/infrastructure/redis/repository.py:129-139 | over every timed run without a rejected hset of the window: after its last expire the hash can be seen if and only if less than the time to live has passed, unless its old deadline fell between that hset and expire |
| HashExpiry.BatchRenewsLast | services/cache/src/infrastructure/redis/repository.py:61-69 | the last thing a batch does to a window that it writes is to renew it, right after writing it |
| HashExpiry.FlushRenewsItsWindows | services/cache/src/infrastructure/redis/repository.py:57-72 | over every timed run: right after a successful flush each window of its batch was last written and then renewed by that very flush |
| HashExpiry.FlushedHashVisibility | services/cache/src/infrastructure/redis/repository.py:57-72 | so after each successful flush, and whatever follows without touching the window again, its hash can be seen if and only if less than the time to live has passed since that renewal, unless its old deadline fell between the write and the renewal |
| Repository.RedisServer.Call | services/cache/src/infrastructure/redis/repository.py:26-31 | one round trip: the command ran once, or the call raised and it ran or not |
| Repository.RedisServer.OtherClients | services/cache/src/infrastructure/redis/repository.py:134-136 | other traffic between two reads may change values and indices but removes no field |
| Repository.RedisServer.ExecutePipeline | services/cache/src/infrastructure/redis/repository.py:72 | a non-transactional pipeline runs or rejects a prefix of its commands, one by one; success means all of them ran in order and the last reply arrived |
| Repository.RedisServer.ZCard | services/cache/src/infrastructure/redis/repository.py:112 | an answer is the size of the index |
| Repository.RedisServer.ZRemRangeByRank | services/cache/src/infrastructure/redis/repository.py:115 | an answer means the lowest ranks are gone; an exception leaves either state |
| Repository.CacheRepository.constructor | services/cache/src/infrastructure/redis/repository.py:18-21 | keeps the connection and the retention count |
| Repository.CacheRepository.TrimIndex | services/cache/src/infrastructure/redis/repository.py:111-115 | on success the index is its N largest members; on an exception it is that or untouched; hashes and the other index never change |
| Repository.CacheRepository.PipelineApply | services/cache/src/infrastructure/redis/repository.py:47-77 | on success every command of the batch ran once, in order, then one trim of each touched index, and the store is exactly the batch applied once; on an exception it is what some of the batch's own commands and trims made of it; either way the attempt is a legal run of the state machine from any state about to flush this batch |
| Repository.CacheRepository.QueueCommands | services/cache/src/infrastructure/redis/repository.py:54-70 | the loop queues the commands of the operations in order, and its two flags say exactly which indices they touch |
| FlushSteps.PipelineRun | services/cache/src/infrastructure/redis/repository.py:72 | whatever Redis answers and wherever the connection breaks, a pipeline is a legal run that ends in a retry, a drop or the first trim |
| FlushSteps.TrimRun | services/cache/src/infrastructure/redis/repository.py:111-115 | so is a trim, whatever its outcome |
| FlushSteps.RunConcat | services/cache/src/infrastructure/kafka/worker.py:40-75 | legal runs can be put one after the other |
| Repository.CacheRepository.StoreWindow | services/cache/src/infrastructure/redis/repository.py:24-44 | on success the hash was written, renewed, indexed and the index trimmed, in this order; otherwise the single-window writers meet the contract of a batch of one |
| Repository.ConvertTypes | services/cache/src/infrastructure/redis/repository.py:117-127 | every field of the hash and no other is converted, independently of order |
| Repository.GetLastWindows | services/cache/src/infrastructure/redis/repository.py:129-139 | for every limit: if no round trip raises, the result is the rows of the ids that Redis lists at the first one, each hash as it was at its own fetch, none of them having lost a field; if one raises there is no result |
| Repository.NonPositiveLimit | services/cache/src/infrastructure/redis/repository.py:132 | a limit of 0 lists every window and a negative one drops exactly that many of the smallest |
| Repository.PositiveLimit | services/cache/src/infrastructure/redis/repository.py:132 | a positive limit lists exactly that many of the largest windows, or all there are |
| Repository.GetLatestEventWindow | services/cache/src/infrastructure/redis/repository.py:80-88 | the same for the newest event window: None exactly if there is no indexed window or its hash is missing |
| Repository.FetchRow | services/cache/src/infrastructure/redis/repository.py:134-138 | one fetch: the row of a hash that is there, nothing for one that is not, or an exception |
| Repository.RowsFollowIds | services/cache/src/infrastructure/redis/repository.py:133-139 | the rows of a read name some of its ids, at most one each, in strictly descending order |
| Repository.RowsCoverIds | services/cache/src/infrastructure/redis/repository.py:133-139 | the rows are exactly the listed windows if and only if each had a hash when fetched |
| Repository.RowsAreNonEmpty | services/cache/src/infrastructure/redis/repository.py:137-138 | no returned row is without measures |
| Repository.RowsShowHashes | services/cache/src/infrastructure/redis/repository.py:134-138 | every row shows a listed window with exactly the fields of its hash at its fetch, each value converted |
| Repository.HashOfExactly | services/cache/src/infrastructure/redis/repository.py:136 | the hash under a key has exactly the fields stored there, with their values |
| Repository.ReadIsStable | services/cache/src/infrastructure/redis/repository.py:111-139 | for limit at most N a read returns at most limit windows, strictly descending, all among the newest, and the same ids whether or not a pending trim ran first |
| Worker.CacheService.constructor | services/cache/src/infrastructure/kafka/consumer.py:55-58 | a new service is at the start of the state machine |
| Worker.CacheService.HandleMessage | services/cache/src/infrastructure/kafka/consumer.py:132-137 | one pass of the message loop is a step of the machine that grows log and queue at the end only |
| Worker.CacheService.StopProducer | services/cache/src/infrastructure/kafka/consumer.py:148-149 | stopping is one step of the machine, taken once; a blocked put is cancelled and its operation is the lost one |
| Worker.CacheService.FinishPut | services/cache/src/infrastructure/kafka/consumer.py:137 | a blocked put goes through only when the queue has room, at its end |
| Worker.CacheService.Suspend | services/cache/src/infrastructure/kafka/worker.py:42-67 | at an await of the worker the consume loop makes any number of legal steps, none after stop, and changes nothing the worker holds |
| Worker.CacheService.Take | services/cache/src/infrastructure/kafka/worker.py:42-52 | the head of the queue moves to the end of the batch, and a flush starts exactly if the batch is then full or the clock shows that the commit interval has passed |
| Worker.CacheService.Wait | services/cache/src/infrastructure/kafka/worker.py:42 | on an empty queue the worker only waits |
| Worker.CacheService.GetItem | services/cache/src/infrastructure/kafka/worker.py:41-52 | after the wait, with an item or a timeout, the clock is read and a flush starts exactly if the batch is not empty and the commit interval has passed or the batch is full |
| Worker.CacheService.ReadClock | services/cache/src/infrastructure/kafka/worker.py:49 | the monotonic clock never goes back |
| Worker.CacheService.Flush | services/cache/src/infrastructure/kafka/worker.py:53-74 | a successful flush makes the store the fold of everything dequeued, empties the batch, commits what had been delivered when it resumed, or nothing, and sets last_flush to the reading of its test; a failed one changes neither and keeps the batch for a retry, or drops it after the loop |
| Worker.CacheService.Apply | services/cache/src/infrastructure/kafka/worker.py:55-63 | pipeline_apply as legal steps of the machine on every outcome, with messages arriving before its first command |
| Worker.CacheService.TakePosition | services/cache/src/infrastructure/kafka/worker.py:65-67 | the position is what had been delivered when the worker resumed after the flush, at that step of the trace |
| Worker.CacheService.Commit | services/cache/src/infrastructure/kafka/worker.py:65-75 | the commit is for that position; a positive answer makes it the committed one, and otherwise nothing changes |
| Worker.CacheService.RedisBatchWorker | services/cache/src/infrastructure/kafka/worker.py:24-96 | the whole worker ends, and all it and the consume loop did is a legal run of the state machine; at exit delivered = flushed ++ dropped ++ cancelled put, something is dropped if and only if the final flush failed, dropped is within the batch bound, the store needs exactly the dropped batch to be the fold, and the commit gap is at most the queue bound plus one |
| StorageConsumer.ScanAppends | services/storage/src/infrastructure/kafka/consumer.py:42-54 | a message loop, also one that raises, appends to each buffer exactly the decoded records of its topic among the messages it got through |
| StorageConsumer.ScanStops | services/storage/src/infrastructure/kafka/consumer.py:42-46 | once a message raises, the rest of the poll is not looked at |
| StorageConsumer.PollRaisesExactly | services/storage/src/infrastructure/kafka/consumer.py:42-54 | a poll raises if and only if some message is an error other than the end of a partition, an undecodable value or of an unknown topic; the first such message and nothing before it is where it stops; broken JSON never raises |
| StorageConsumer.PollReturnsExactly | services/storage/src/infrastructure/kafka/consumer.py:36-58 | a poll without messages or one that raises returns nothing; any other returns for every topic what was buffered and then everything it decoded, and leaves empty buffers |
| StorageConsumer.DecodedExactly | services/storage/src/infrastructure/kafka/consumer.py:47-52 | the records of a topic are exactly its data messages, each with its own place and normalised fields |
| StorageConsumer.DecodedInOrder | services/storage/src/infrastructure/kafka/consumer.py:42-52 | they are in delivery order |
| StorageConsumer.NormalizeExactly | services/storage/src/infrastructure/kafka/consumer.py:13-20 | a record keeps its fields, except that a text under one of the four timestamp names that parses becomes its time |
| StorageConsumer.PollMovesRecords | services/storage/src/infrastructure/kafka/consumer.py:36-58 | one poll: returned ++ left in the buffer = buffered before ++ decoded now, per topic and in order |
| StorageConsumer.PollConservation | services/storage/src/infrastructure/kafka/consumer.py:36-58 | over any sequence of polls, raising and empty ones included, everything returned followed by the buffer is exactly what the examined messages decode to |
| StorageConsumer.KafkaBatchConsumer.constructor | services/storage/src/infrastructure/kafka/consumer.py:24-34 | one new empty buffer per topic |
| StorageConsumer.KafkaBatchConsumer.NormalizeInPlace | services/storage/src/infrastructure/kafka/consumer.py:49-51 | the in-place rewrite replaces exactly the parseable string timestamps |
| StorageConsumer.KafkaBatchConsumer.Append | services/storage/src/infrastructure/kafka/consumer.py:52 | one record goes to the end of its own topic's list and no other list changes |
| StorageConsumer.KafkaBatchConsumer.CopyBuffers | services/storage/src/infrastructure/kafka/consumer.py:55 | equal contents in new lists that alias neither the buffers nor each other |
| StorageConsumer.KafkaBatchConsumer.ClearBuffers | services/storage/src/infrastructure/kafka/consumer.py:56-57 | every buffer is emptied in place |
| StorageConsumer.KafkaBatchConsumer.HandleMessage | services/storage/src/infrastructure/kafka/consumer.py:43-54 | one message: skipped, appended, or raised with the buffers untouched |
| StorageConsumer.KafkaBatchConsumer.HandleMessages | services/storage/src/infrastructure/kafka/consumer.py:42-54 | the loop stops at the first raising message and keeps what was buffered before it |
| StorageConsumer.KafkaBatchConsumer.ConsumeBatch | services/storage/src/infrastructure/kafka/consumer.py:36-58 | the object does what the specification of a poll says, and the returned lists stay intact when the buffers are used again |
| InsertCycle.FlagStep | services/storage/src/services/processor.py:96-134 | every step keeps: the flag is set exactly if a task has failed three times, tasks are skipped only while it is set, and it never resets |
| InsertCycle.CounterStep | services/storage/src/services/processor.py:100-145 | every step keeps permits, gauge and counters equal to totals over the tasks |
| InsertCycle.TableStep | services/storage/src/services/processor.py:105-118 | every step keeps the copies of each row within what its own task's attempts allow |
| InsertCycle.InvariantHolds | services/storage/src/services/processor.py:92-155 | all of these hold over every interleaving of the tasks and every pattern of failures |
| InsertCycle.SemaphoreAndGauge | services/storage/src/services/processor.py:92-145 | free permits + holders = the configured limit, the gauge equals the holders, and both are restored when gather returns |
| InsertCycle.CommitMeansAllInserted | services/storage/src/services/processor.py:154-160 | when gather has returned the flag is clear if and only if every batch was acknowledged, and set if and only if some batch failed three times |
| InsertCycle.ThreeAttempts | services/storage/src/services/processor.py:106-118 | counted in the schedule: a task has failed if and only if exactly three of its inserts raised, and is acknowledged if and only if one returned, after at most two that raised |
| InsertCycle.FirstStepExactly | services/storage/src/services/processor.py:97-100 | the first step of a task skips it if and only if the flag is set, and otherwise it inserts or waits for a permit |
| InsertCycle.AcquireExactly | services/storage/src/services/processor.py:100-106 | a task that waited for the semaphore inserts as soon as it has a permit, even if the flag has been set meanwhile |
| InsertCycle.RowMultiplicity | services/storage/src/services/processor.py:105-118 | a row of an acknowledged batch is in the table one to three times per consumption, a row of a skipped batch not at all, any row at most three times |
| InsertCycle.CountersAddUp | services/storage/src/services/processor.py:112-132 | acknowledged + failed + skipped = tasks created, retries = failed attempts, and records is the number of rows in acknowledged batches |
| InsertCycle.CycleIsFinite | services/storage/src/services/processor.py:105-155 | no schedule makes more than eight steps per task |
| InsertCycle.CycleNeverStuck | services/storage/src/services/processor.py:96-155 | with at least one permit some task can always run until all have finished |
| InsertCycle.SingleTaskSucceeds | services/storage/src/services/processor.py:105-121 | a schedule in which the only batch is inserted at once exists |
| InsertCycle.SingleTaskRecovers | services/storage/src/services/processor.py:105-121 | a schedule in which the only batch raises twice and is stored by its third attempt exists |
| InsertCycle.SingleTaskFails | services/storage/src/services/processor.py:105-132 | a schedule in which the only batch fails three times and sets the flag exists |
| StorageRuns.IncreasingSize | services/storage/src/services/processor.py:121 | a buffer or batch names each of its records by a different place |
| StorageRuns.RowsCountRecords | services/storage/src/services/processor.py:121 | each task of a cycle has as many rows as its batch has records |
| StorageRuns.TaskTopicsInOrder | services/storage/src/services/processor.py:147-152 | tasks are created in dictionary order |
| StorageTheorems.RecordsCountAcknowledged | services/storage/src/services/processor.py:121 | STORAGE_RECORDS grows in a pass by the sum of the lengths of its acknowledged batches |
| StorageRuns.PollPlaces | services/storage/src/infrastructure/kafka/consumer.py:36-58 | a poll moves each examined record to exactly one buffer or batch and empties the buffers if it returns batches |
| StorageRuns.PollAccounted | services/storage/src/infrastructure/kafka/consumer.py:36-58 | a poll keeps the ledger: every message polled is in exactly one place |
| StorageRuns.CycleAccounted | services/storage/src/services/processor.py:92-165 | a finished cycle moves every row in hand to acknowledged or unacknowledged, the former at least once into the table |
| StorageRuns.PassAccounted | services/storage/src/services/processor.py:78-165 | one pass of the loop keeps the ledger, and buffers are empty after a commit |
| StorageRuns.LedgerHolds | services/storage/src/services/processor.py:78-165 | over whole runs every message polled so far is exactly one of: acknowledged, in an unacknowledged batch, undecodable, unexamined after a raise, or buffered; the last never below the committed position |
| StorageTheorems.LossesHaveCauses | services/storage/src/services/processor.py:130-165 | a message becomes unacknowledged only in a cycle that set the flag, unexamined only in a poll that raised, undecodable only if its own JSON is broken |
| StorageTheorems.CommitPoint | services/storage/src/services/processor.py:157-160 | at every commit the position covers all messages polled, buffers are empty, the cycle added no unacknowledged message, and the four fates partition the log |
| StorageTheorems.PassCommitsExactly | services/storage/src/services/processor.py:84-160 | a pass moves the committed position, to everything polled, if and only if its poll returned a record, the insert of every batch was acknowledged and the commit was accepted |
| StorageTheorems.StoredUnlessNamed | services/storage/src/services/processor.py:78-165 | every message below the committed position was acknowledged and is in the table one to three times, if and only if none below it is in an unacknowledged batch, undecodable or unexamined |
| StorageTheorems.StoredUnlessUnclean | services/storage/src/services/processor.py:78-165 | everything below the committed position is stored if and only if, in every pass up to the last commit, no cycle set the flag, no data was left unexamined by a raising poll and no examined JSON was broken |
| StorageTheorems.NamedGrow | services/storage/src/services/processor.py:78-165 | a pass adds messages to the three fates if and only if it was not clean, and only from the committed position on |
| StorageTheorems.NamedByPass | services/storage/src/services/processor.py:78-165 | every message with one of the fates got it in some pass that was not clean, behind the position committed at that time |
| StorageTheorems.UncleanNames | services/storage/src/services/processor.py:78-165 | every pass that was not clean leaves a message with one of the fates for good |
| StorageTheorems.CommittedMoves | services/storage/src/infrastructure/kafka/consumer.py:63-64 | the committed position moves only at commits, and then past everything polled before |
| StorageTheorems.PassedOverByNextCommit | services/storage/src/services/processor.py:157-165 | a message polled but not stored falls below the committed position if and only if some later pass commits |
| StorageTheorems.DocumentedReprocessingFails | docs/modules/storage/README.md:92 | a failed cycle followed by a good one leaves a never acknowledged message below the committed position |
| StorageRestart.LifeCopies | services/storage/src/services/processor.py:105-118 | one life, cut off anywhere, puts each row into the table at most three times, and only rows it has polled |
| StorageRestart.CopiesAreBounded | services/storage/src/services/processor.py:64-186 | over any number of crashes and restarts a message polled in k lives has at most 3k copies |
| StorageRestart.AckedIsStored | services/storage/src/services/processor.py:105-121 | a message acknowledged in some life is in the table |
| StorageRestart.StoredAcrossLives | services/storage/src/services/processor.py:64-186 | each data message below the final committed position was committed by exactly one life; its insert was acknowledged if and only if that happened in an earlier life or it has none of the three fates in that one |
| StorageRestart.PolledNoMore | services/storage/src/infrastructure/kafka/consumer.py:63-64 | a message below the committed position is never delivered again |
| Processor.InsertTasks.constructor | services/storage/src/services/processor.py:92-94 | a new cycle: flag clear, all permits free, no task started |
| Processor.InsertTasks.Start | services/storage/src/services/processor.py:97-103 | the first step of a task is a step of the machine: skip, enter or wait |
| Processor.InsertTasks.EnterBody | services/storage/src/services/processor.py:100-106 | takes one permit and raises the gauge, attempts at zero |
| Processor.InsertTasks.LeaveBody | services/storage/src/services/processor.py:141-145 | returns the permit and lowers the gauge on every outcome |
| Processor.InsertTasks.FinishAttempt | services/storage/src/services/processor.py:108-132 | the end of an attempt is a step of the machine: acknowledged and counted with the length of the batch, sleep and retry, or failed with the flag set |
| Processor.InsertTasks.Step | services/storage/src/services/processor.py:96-145 | every scheduling of a task is a step the machine allows |
| Processor.InsertTasks.Gather | services/storage/src/services/processor.py:154-155 | gather terminates under every schedule and its outcome is a legal run of the machine with all tasks finished |
| Processor.StorageService.constructor | services/storage/src/services/processor.py:66-67 | a new service has an empty ledger |
| Processor.StorageService.CollectTasks | services/storage/src/services/processor.py:82-152 | one task per non-empty batch in dictionary order, with its records; no records means no tasks |
| Processor.StorageService.InsertAll | services/storage/src/services/processor.py:92-155 | the flag and the record count read after gather are those of a finished run of the machine |
| Processor.StorageService.InsertAndCommit | services/storage/src/services/processor.py:92-165 | the consumer position is committed only if no task failed, and otherwise nothing is |
| Processor.StorageService.PollForTasks | services/storage/src/services/processor.py:81-152 | one poll and its tasks: exactly the non-empty batches of the specification, none after a raise |
| Processor.StorageService.RunPass | services/storage/src/services/processor.py:78-182 | one pass of the real loop, raising, empty or full, is one pass of the ledger machine, keeps the service accounted and counts its acknowledged records |
| Processor.StorageService.ProcessBatches | services/storage/src/services/processor.py:64-182 | the whole loop produces exactly a run of the ledger machine for the given polls, and counts the acknowledged records of that run |
| ClickHouse.ZipOfProject | services/storage/src/infrastructure/clickhouse/client.py:40 | zipping the columns with a projected tuple gives exactly the listed columns, None where the row lacks one |
| ClickHouse.RowRoundTrip | services/storage/src/infrastructure/clickhouse/client.py:36-40 | a row is reconstructed exactly if and only if it has the first row's key set |
| ClickHouse.InsertKeepsRows | services/storage/src/infrastructure/clickhouse/client.py:31-43 | row count and order are kept, the columns are the first row's keys in order, each cell is the row's value for its column or None, and all rows are reconstructed if and only if all share the first row's key set |
| ClickHouse.NothingSentForNoRows | services/storage/src/infrastructure/clickhouse/client.py:32-33 | nothing is sent if and only if there are no rows |
| Backoff.DoublingIsClosedForm | shared/utils/retry.py:25-32 | the iterated delay equals the closed form min(base * 2^k, cap) that the topic waiter computes |
| Backoff.SumsAreBounded | shared/utils/retry.py:25-32 | n sleeps last at most n * cap * (1 + jitter) in total |
| Backoff.SleepIsBounded | shared/utils/retry.py:18-35 | a call with `retries` attempts sleeps at most (retries - 1) * cap * (1 + jitter) |
| Backoff.Retry | shared/utils/retry.py:18-35 | calls at most `retries` times, returns the first success, lets a foreign exception through, re-raises the last failure, reaches its final raise exactly if retries <= 0, and sleeps within the closed-form bounds |
| Backoff.StartConsumer | services/cache/src/infrastructure/kafka/consumer.py:24-45 | at most seven attempts, success at the first that works, RuntimeError only after all failed, each delay the closed form with cap 30 |
| Backoff.MissingDelay | services/storage/src/infrastructure/kafka/topic_waiter.py:38-40 | the closed-form delay with jitter is one the doubling loop could sleep |
| Backoff.DelaysAreThese | services/cache/src/infrastructure/kafka/consumer.py:24-44 | the start retries wait 1, 2, 4, 8, 16 and then 30 seconds, and topic checks that start at 5 wait 5, 10, 20, 40 and then 60, apart from jitter |
| Backoff.DelayInClosedForm | services/storage/src/infrastructure/kafka/topic_waiter.py:38-46 | a topic check may be followed by exactly these sleeps: the closed-form delay with cap 60, up to jitter, if topics are missing, and the initial delay after an exception |
| Backoff.WaitForTopics | services/storage/src/infrastructure/kafka/topic_waiter.py:20-56 | succeeds if and only if some check within the limit sees all topics, and sleeps after each other check as the doubling loop with cap 60 would, or the initial delay after an exception |

## Left out

- Worker.CacheService.RedisBatchWorker: is given a number of waits on an empty queue after which the service is stopped, because a loop that is never stopped has no final state; runs of any length are covered by the state machine.
- Worker.CacheService.Apply: messages that arrive during a pipeline are handled before its first or after its last command; the state machine has them at any point.
- Processor.StorageService.ProcessBatches: the polls are given as a finite list, for the same reason; `LedgerHolds` covers runs of any length. A pass interrupted by cancellation is not modelled.
- Repository.RedisServer.OtherClients: no hash expires between two fetches; `HashExpiry` covers expiry by time.
- HashPresence.HashExists: leaves expiry aside; `HashExpiry` has it.
- HashPresence.MissingHashExactly: leaves expiry aside; `HashExpiry` has it.
- HashPresence.IndexedWindowsHaveHashes: leaves expiry aside; `HashExpiry` has it.
- HashPresence.FlushRestoresHashes: leaves expiry aside; `HashExpiry` has it.
- HashPresence.ReadFindsEveryWindow: leaves expiry aside; `HashExpiry` has it.
- HashPresence.WholeReadReturnsListed: leaves expiry aside; `HashExpiry` has it.
- HashPresence.ParsedWindowsAreFound: leaves expiry aside; `HashExpiry` has it.
- Repository.CacheRepository.StoreWindow: stands for both `store_event_window` and `store_performance_window`, which differ only in the key.
- Backoff.Retry: delays are reals, without float rounding, and `on_retry` callbacks are left out because their exceptions are swallowed.
- Backoff.StartConsumer: delays are reals, as everywhere in the backoff loops; the final error is the result false.
- Backoff.WaitForTopics: the final failure is the result false, without its message.
- Expiry of window hashes: EXPIRE changes nothing in `CacheProtocol`, so results about stored values hold until the first deadline of the window; `HashExpiry` says when a hash can be seen, not which fields it has after an expiry.
- Several cache instances on one Redis: the two round trips of `_trim_index` are not atomic, so exact retention needs a single writer.
- Commands of a broken connection that reach Redis after the retry has started.
- Sorted-set scores are integers; Redis keeps them as doubles, which are exact below 2^53 in magnitude.
- An `hset` with an empty field map, which redis-py refuses; the parser never produces one (`ParsedWritesFootprint`).
- A JSON boolean as window start is treated as 0 or 1; the code prints it as True or False in the hash key.
- `int()` on text with white space, underscores or non-ASCII digits; nothing the services write looks like that.
- ISO timestamps, JSON decoding, float text and the text of JSON values in f-strings: uninterpreted functions.
- A `kafka_consumer` of None: the same as a commit that never succeeds.
- Time: whether a wait times out is nondeterministic, how long steps take is not bounded, and idle sleeps between passes and between insert attempts have no length.
- A second cancellation while the consume loop waits for its worker, and cancellation of the worker itself.
- Rebalances, several partitions and asynchronous commit delivery: one delivery order and one position per consumer.
- In the storage consumer, decoded JSON values that are not objects: a list or a string is buffered by the code as if it were a record.
- Negative settings, such as a negative retention count or semaphore limit.
- Readiness events, metrics other than the storage counters and gauge, logging, publish/subscribe, FastAPI endpoints, health servers and settings: plumbing around the core.
- `_ensure_tables` and the driver lock of the ClickHouse client: inserts are atomic events here.
- The Flink jobs: declarative calls into a library whose semantics are not in the repository.

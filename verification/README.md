# Stellabill backend: verified models

A Dafny project that models the concurrent and algorithmic core of the Stellabill
backend and proves what it promises. Each protocol is a state machine whose steps
are the atomic calls of the Go code, and each theorem about it quantifies over every
run. The Go code that updates state step by step is also written as Dafny classes
and methods, proved against the same functions the theorems are about.

`dafny verify dfyconfig.toml` checks everything.

## What is modelled

- **Outbox** (`Outbox*.dfy`, `Bytes.dfy`): several publishers drain one event table,
  each behind its own high-water mark. `OutboxProtocol` is the step machine, in which an
  acknowledgement is a READ COMMITTED transaction: it reads the other marks one by one, as
  committed at that moment, and shows its own writes when it commits. `OutboxDelivery`,
  `OutboxCompletion`, `OutboxRetryLaw`, `OutboxAttempts` and `OutboxStranding` hold its
  invariants and exact conditions, `OutboxTheorems` the results over runs, `OutboxExamples`
  runs that show why their premises are needed, `OutboxDispatcher` the repository and the
  drain loop as they run.
- **Change data capture** (`PgOutput*.dfy`): the pgoutput decoder, an encoder for
  the layout it reads, the proof that the first inverts the second, and what becomes of
  streams that are malformed (`PgOutputErrors`) or end early (`PgOutputCuts`).
- **Sharding** (`HashRing.dfy`, `Shard*.dfy`): the consistent hash ring, and shard
  ownership through PostgreSQL advisory locks: `ShardLocks` is the protocol,
  `ShardDispatcher` the calls as they run, `ShardRuns` shows them to be runs of it.
- **Read path** (`CachedRepo.dfy`, `Loader.dfy`, `TenantLoader.dfy`): the
  read-through subscription cache and request batching.
- **Requests** (`Idempotency*.dfy`, `Keys.dfy`, `TokenBucket.dfy`, `Pagination.dfy`):
  the idempotency store and middleware, the rate limiter's bucket, keyset pagination.
- **Publishing limits and audit** (`AdaptiveLimiter.dfy`, `AuditChain.dfy`).

## Findings

Where a promise does not hold, the project keeps the code as it is, shows a run or an
input on which it fails, and states exactly when it holds.

- The comment on `MarkPublished` promises completion once every publisher has reached the
  event. An event can be passed by every mark without being completed: its acknowledgement
  is rolled back and a later one commits (`RolledBackAckStrands`), or two publishers
  acknowledge it at once and neither transaction sees the other's mark
  (`OverlappingAcksStrand`). `CompletedIff` says exactly which events are completed,
  `CompletableIff` that an event can be completed exactly while some mark is below it, and
  `PassedIsStranded` that nothing attempts or completes it afterwards. All this takes a
  batch size of at least one; the dispatcher accepts any, and with a smaller one fetches
  nothing (`AttemptedIff`).
- Completion need not mean delivery. An event is safe with a publisher exactly when it is
  stored above that publisher's mark and everything it has in hand (`DeliveredIff`); ids are
  random in the code, so nothing ensures that (`LateIdBreaksDelivery`). And a failed attempt,
  even one transient failure, is repeated only until the publisher acknowledges a later
  event (`AttemptedIff`, `FailedAttemptBreaksDelivery`). A failed event that nobody
  requeues is attempted again exactly if it has a retry time, which a dead letter is not
  given (`AttemptedUnaidedIff`).
- The pgoutput decoder steps one byte past an origin or type message
  (`OriginAndTypeLoseAByte`). What follows, unless its second byte happens to be a message
  type, is then decoded rightly exactly when it has no effect (`SeenBehindIff`,
  `OriginHidesCommit`). It also reads column flags after the
  column's name and type, where section 55.9 of the PostgreSQL 16 documentation puts
  them first; the encoder here follows the decoder.
- A row change for a relation that was not announced ends its batch with an error, and
  nothing else does among messages that are otherwise well formed (`CompleteIff`). A stream
  that ends in the middle of a row or of a relation's columns is accepted, with the missing
  fields or columns left out (`MissingFieldsPass`, `CutRelationIsStored`).
- A stop right after its start releases what that locked exactly when every granted shard is
  owned and listed once, and no owned shard that is not listed was locked before
  (`StopUndoesStartIff`). For a new dispatcher that is when no granted shard is repeated in
  the configured list. A start that fails part-way breaks it: it disowns a refused shard and
  keeps it listed, so the next start locks it, lists it no more, and its stop leaves it
  locked (`FailedStartLeaksLock`). After a failed ping, which empties
  the list, it releases nothing (`StopAfterLostPingIff`, `FailedPingLeaksLock`), and closing
  the connection returns the session with its locks to the pool. `ReleaseUndoesIff` is the
  condition for any list at the time of the stop.
- Acquiring is sound exactly when the owned set is contained in the list
  (`KeptAreLockedIff`). Two dispatchers given the same `OwnedShards` slice break that,
  because the list is rebuilt in its array (`SharedArrayBreaksOwnership`).
- A running instance whose start succeeded, and into whose list no other dispatcher writes,
  owns what it lists exactly until its session ends, provided that no start begins while an
  earlier stop has yet to release its locks (`OwnsIffSessionLives`,
  `LateReleaseBreaksOwnership`). A failed start leaves an instance that is marked as running
  and may list shards that it has not locked (`Start`).
- Joined cache and idempotency keys collide exactly when one first part with the
  separator begins the other (`JoinsCollideIff`). A cached read by id and tenant is right
  in every coherent cache exactly when no other row has its key (`ServedRightIff`).
- A read that finds a stale entry and fails to purge it answers with that entry, because the
  guarded load does not look at staleness (`FindByID`).
- Idempotent answers stay right exactly as long as no handler finishes while another
  request holds its key's reservation, other than with the response already stored there
  (`AnswersRightIff`); a handler slower than its
  reservation can (`LateFinishCorrupts`).
- Removing idempotency entries is invisible exactly when all of them have expired
  (`RemovalInvisibleIff`). The PostgreSQL purge also takes entries at the instant they
  expire, when a request still honours them, and is visible exactly then
  (`SqlPurgeInvisibleIff`).
- A batched subscription lookup without a tenant sees every tenant's rows, unlike the
  single lookup (`BatchIsDirectIff`).
- The previous-page cursor leads to the preceding items exactly when a whole page of
  them exists and the item before has a cursor (`PreviousIff`). A walk ends early exactly
  when its first page holds one item, with neither id nor sort value, and there are more
  (`WalkIsComplete`, `FixedWalkIsTheList`).
- The adaptive limiter's best time is the least it has seen exactly if no success took no
  time, or the last one did; after a success in no time the next one replaces the best
  (`BestIsLeastIff`).
- A loader starts a new timer whenever one id is pending, also when that id is asked for
  again, and then leaves the earlier timer running (`LoadStarts`).
- An audit log is accepted exactly when the scanner can take all its lines
  (`WrittenLogsVerify`). The sink writes longer ones, and after a restart it refuses every
  further event (`RefusedIff`).

## Model

| member | source | states |
|---|---|---|
| OutboxTheorems.CompletedWasPublished | internal/outbox/dispatcher.go:232-292 | in every run, for every publisher that an event was stored ahead of: if it never failed the event and none gave it up, its mark at or past the event means that it published it, and so does the event's completion, whichever acknowledgements were lost |
| OutboxTheorems.InOrderIsAhead | internal/outbox/repository.go:243-253 | in runs with ids visible in increasing order every event is stored ahead of every publisher |
| OutboxDelivery.DeliveredIff | internal/outbox/repository.go:243-253 | in any reachable state, no run moves a publisher's mark past a pending event about to be stored, unpublished and without a failed attempt, if and only if that mark and everything the publisher has in hand lie below the event |
| OutboxTheorems.CompletedIsReached | internal/outbox/repository.go:303-324 | in every run a completed event has every publisher's mark at or past it |
| OutboxTheorems.CompletedIsFinal | internal/outbox/repository.go:135-148 | in every run a completed event stays completed until its row is cleaned up: no late failure turns it back |
| OutboxTheorems.NoAttemptAfterAck | internal/outbox/repository.go:243-273 | in every run all attempts of a publisher after one of its acknowledgements are on later ids, so it never attempts that event again, requeued or not |
| OutboxTheorems.CompletedIff | internal/outbox/repository.go:303-367 | in every run, acknowledgements of different publishers overlapping in any way, an event in the table is completed if and only if one of its own acknowledgements committed whose publisher, while acknowledging it, had read every other mark after that was committed at or past the event |
| OutboxTheorems.PassedIsStranded | internal/outbox/repository.go:303-347 | an event every mark has passed without completing it is never attempted or completed in any continuation |
| OutboxStranding.CompletableIff | internal/outbox/dispatcher.go:241-274 | in any reachable state a pending or failed event is completed by some continuation, in batches of the configured size, if and only if that size is at least one and some mark is still below the event; for a size below one, from states with nothing in hand |
| OutboxAttempts.AttemptedIff | internal/outbox/dispatcher.go:241-261 | in any reachable state a publisher attempts a stored event in some continuation if and only if it has it in hand, or the batch size is at least one, its mark is below the event and the row is pending or failed; so a failed attempt can be repeated exactly until the publisher acknowledges a later event |
| OutboxAttempts.AttemptedUnaidedIff | internal/outbox/repository.go:243-253 | in any reachable state a publisher attempts a stored event in some continuation in which that is not requeued if and only if it has it in hand, or the batch size is at least one, its mark is below the event and the row is pending, or failed with a retry time |
| OutboxRuns.BringUp | internal/outbox/dispatcher.go:241-274 | batch after batch of the configured size, a publisher with nothing in hand can acknowledge its way to any event above its mark that is pending, or failed with its retry time come, leaving other marks and that event as they were, and requeueing nothing |
| OutboxTheorems.DeadLettersExactly | internal/outbox/dispatcher.go:294-329 | in every run a transient failure dead-letters exactly at every MaxRetries-th one since the publisher's last success or restart, permanent ones always and without counting; the counter stays below the limit |
| OutboxRetryLaw.BacksOffIff | internal/outbox/dispatcher.go:232-239 | after the n-th transient failure in a row, counted modulo the limit, whatever others do meanwhile, a publisher with nothing in hand fetches again exactly from the delay for n on, and at once if the event was given up |
| OutboxExamples.RolledBackAckStrands | internal/outbox/dispatcher.go:270-274 | a run without failures that leaves a pending event reached by every mark, after a rolled-back acknowledgement |
| OutboxExamples.OverlappingAcksStrand | internal/outbox/repository.go:287-301 | a run without failures or rollbacks that does so: both publishers acknowledge the event at once and each reads the other's mark before the other commits |
| OutboxExamples.FailedAttemptBreaksDelivery | internal/outbox/dispatcher.go:303-329 | a run that completes an event one publisher never published, after one transient failure below the retry limit, with nothing given up or requeued |
| OutboxExamples.LateIdBreaksDelivery | internal/outbox/repository.go:501-502 | a run without failures that does so, with the smaller id stored while a publisher has a later one in hand |
| OutboxProtocol.StepSafe | internal/outbox/dispatcher.go:232-329 | every step, the single reads of an acknowledgement included, keeps: batches ascending and beyond the mark, what open acknowledgements have read still true, completed events reached, acknowledgements recorded in the marks, attempts advancing |
| OutboxProtocol.RowExactly | internal/outbox/repository.go:135-208 | every column of an event's row after every step: what a requeue, a finishing acknowledgement and a saved dead letter write, that nothing else changes it, and that only an old completed row is removed |
| OutboxProtocol.OthersKeepMine | internal/outbox/dispatcher.go:108-112 | other publishers' steps leave a publisher's work in hand, open acknowledgement, backoff and mark as they were |
| OutboxDelivery.StepNoGap | internal/outbox/repository.go:243-253 | every step keeps, unless it stores the event not ahead of the publisher: a clean event before one in the publisher's batch is published by it or in the batch |
| OutboxDelivery.StepBehindMark | internal/outbox/repository.go:326-347 | every step keeps, likewise: a clean event behind a publisher's mark was published by it |
| OutboxCompletion.StepCompletedExactly | internal/outbox/repository.go:303-367 | every step keeps the exact description, by what acknowledgements read, of the completed events |
| OutboxCompletion.StepReadsExact | internal/outbox/repository.go:349-367 | every step keeps what an open acknowledgement knows equal to what its reads saw committed |
| OutboxRetryLaw.StepCountsRetries | internal/outbox/dispatcher.go:303-329 | every step keeps each counter equal to the transient failures since the last success, modulo the limit |
| OutboxRetry.Delay | internal/outbox/dispatcher.go:318-325 | every backoff lies between 1 and 3600 seconds |
| OutboxRetry.DelayLaw | internal/outbox/dispatcher.go:318-325 | the backoff is factor^k whole seconds between one second and an hour, clamped outside, and with a factor of at least one no shorter after more failures |
| OutboxTables.BatchUnique | internal/outbox/repository.go:244-253 | the publisher query's conditions, order and limit leave one possible batch |
| OutboxTables.FetchedIff | internal/outbox/repository.go:244-253 | column by column: a row is in the batch if and only if it is pending, or failed with its retry time come, its id is beyond the mark, and fewer such rows than the limit have smaller ids |
| Uuid.TextOrder | internal/outbox/repository.go:362-364 | text order, byte order and numeric order of UUIDs coincide |
| Uuid.TextLayout | internal/outbox/repository.go:362-364 | a UUID's text has 36 characters: each octet as two lower-case hexadecimal digits at its place, and hyphens before octets 4, 6, 8 and 10 |
| OutboxDispatcher.Repository.Store | internal/outbox/repository.go:37-75 | inserts a row, and fails on a duplicate id; it is the protocol's step |
| OutboxDispatcher.Repository.UpdateStatus | internal/outbox/repository.go:135-148 | sets status, message and time of one row unconditionally, and leaves its retry columns and every other row alone |
| OutboxDispatcher.Repository.GetPendingEventsForPublisher | internal/outbox/repository.go:243-273 | returns in id order exactly the rows that are pending, or failed with their retry time come, beyond the mark, and among the first of these up to the limit; or fails |
| OutboxDispatcher.Repository.PublisherProgressReached | internal/outbox/repository.go:349-367 | the loop of text comparisons reads the marks as they are at each read, and stops at the first that is short of the event |
| OutboxDispatcher.Repository.MarkPublished | internal/outbox/repository.go:277-324 | one transaction among others that commit meanwhile: adds its mark, never moved back, to what is committed at its end, and completes the event if all its reads were at or past it; rolled back it adds nothing |
| OutboxDispatcher.Repository.RequeueEvent | internal/outbox/repository.go:402-424 | resets a failed row to pending without retries, retry time or message, touches no other, and is the protocol's step |
| OutboxDispatcher.Repository.DeleteCompletedEvents | internal/outbox/repository.go:196-208 | removes exactly the completed rows older than the cutoff, counts them, and is the protocol's step |
| OutboxDispatcher.Dispatcher.HandleDrainPublishError | internal/outbox/dispatcher.go:294-329 | takes the protocol's failure step: dead-letter or back off, with the counters updated |
| OutboxDispatcher.Dispatcher.DrainOnceForPublisher | internal/outbox/dispatcher.go:232-292 | respects the backoff, fetches unless that fails, and attempts every fetched event in order until one is cancelled: its calls are a legal run of the protocol, one piece per attempt that fits its outcome, that leaves no work in hand |
| OutboxDispatcher.Dispatcher.DrainBatch | internal/outbox/dispatcher.go:247-291 | the batch loop performs the steps of each attempt's outcome, in order |
| OutboxDispatcher.Dispatcher.AcknowledgeOne | internal/outbox/dispatcher.go:264-274 | success resets the counters, and the acknowledgement reads the marks and commits or is rolled back, as protocol steps |
| OutboxDispatcher.Dispatcher.PublisherNames | internal/outbox/dispatcher.go:331-338 | returns exactly the configured publishers, in alphabetical order |
| Names.PrecedesIff | internal/outbox/dispatcher.go:336 | one name precedes another if and only if it is smaller at the first place where they differ, or is a proper prefix |
| PgOutputTheorems.DecodeInvertsEncode | internal/cdc/pgoutput.go:49-171 | decoding a frame of any well-formed batch returns exactly its changes in order, the relations it leaves, and the highest commit LSN, or the frame's start LSN if none is above zero |
| PgOutputTheorems.DecodeUnframed | internal/cdc/pgoutput.go:53-61 | a well-formed batch without a frame decodes to the same, without a start LSN; of fewer than 25 bytes it is refused |
| PgOutputErrors.CompleteIff | internal/cdc/pgoutput.go:72-171 | for messages that are well formed except that relations may be unknown, decoding a frame completes if and only if the relation of every row change is known from before or announced by an earlier message; otherwise it ends with that error |
| PgOutputErrors.UnknownRelationFails | internal/cdc/pgoutput.go:277-280 | after any well-formed prefix, whatever follows, an insert, update or delete of an unknown relation ends decoding with that error, with exactly the changes and relations of the prefix and its highest commit LSN, not the frame's start |
| PgOutputErrors.InsertNeedsNew | internal/cdc/pgoutput.go:266-275 | likewise an insert without its new-tuple marker, its relation known or not |
| PgOutputErrors.BadMarkerFails | internal/cdc/pgoutput.go:392-423 | likewise a field whose marker is none of the three, at any place in any tuple of any row change |
| PgOutputErrors.FailsThere | internal/cdc/pgoutput.go:109-139 | likewise any message that fails |
| PgOutputErrors.ReadRowless | internal/cdc/pgoutput.go:296-379 | an update or delete that goes on with no tuple is a change without rows, and the byte in its place is taken for the next message |
| PgOutputErrors.ReadExtraFields | internal/cdc/pgoutput.go:392-395 | fields beyond the relation's columns are not read |
| PgOutputCuts.CutHeaderStops | internal/cdc/pgoutput.go:91-107 | a begin or commit cut short ends the batch quietly with what came before, the frame's start LSN not reported |
| PgOutputCuts.CutRelationFails | internal/cdc/pgoutput.go:109-115 | a relation cut before its columns ends decoding with an error and with what came before |
| PgOutputCuts.ReadCutRelation | internal/cdc/pgoutput.go:174-214 | which error that is, by the part that is missing |
| PgOutputCuts.CutRelationIsStored | internal/cdc/pgoutput.go:216-263 | a relation cut anywhere in its columns is accepted with the columns before the cut |
| PgOutputCuts.ReadCutColumn | internal/cdc/pgoutput.go:219-244 | a column cut short is dropped, with the exact place where reading goes on |
| PgOutputCuts.CutRowHeadFails | internal/cdc/pgoutput.go:266-349 | a row change cut in its relation id or right behind it is an error |
| PgOutputCuts.ReadCutTuple | internal/cdc/pgoutput.go:392-421 | a tuple cut anywhere is accepted as the row of the fields before the cut, with the exact number of bytes consumed |
| PgOutputCuts.CutInsertIsReported | internal/cdc/pgoutput.go:266-293 | so an insert cut in its row is reported as an insert of the fields before the cut |
| PgOutputCuts.MissingFieldsPass | internal/cdc/pgoutput.go:392-396 | a frame that ends between two fields of an insert decodes as complete, the last row without the missing fields |
| PgOutputTheorems.SplitIsInvisible | internal/cdc/pgoutput.go:72-171 | for any well-formed prefix and any bytes after it, decoding the whole equals decoding the prefix and then the rest with relations carried over |
| PgOutputTheorems.ReadMessage | internal/cdc/pgoutput.go:81-140 | each encoded message, whatever follows it, is consumed exactly and yields its own relation, change or LSN |
| PgOutputTheorems.RowIsFaithful | internal/cdc/pgoutput.go:390-424 | with distinct column names a decoded row holds each field under its column, unchanged and null values as null, and nothing else |
| PgOutputTheorems.BatchLsn | internal/cdc/pgoutput.go:98-107 | the batch LSN bounds every commit LSN and is one of them unless zero |
| PgOutputTheorems.OriginAndTypeLoseAByte | internal/cdc/pgoutput.go:141-158 | what follows an origin or type message is decoded from its second byte |
| PgOutputTheorems.SeenBehindIff | internal/cdc/pgoutput.go:141-164 | behind an origin or type message a well-formed batch whose second byte is not a message type is decoded as on its own if and only if it has no changes, alters no relations and commits nothing above zero |
| PgOutputTheorems.OriginHidesCommit | internal/cdc/pgoutput.go:141-147 | a commit above zero right behind an origin message is not seen, whatever its other fields, if its flags are not a message type |
| PgOutputCodec.ReadEncodedRelation | internal/cdc/pgoutput.go:174-263 | an encoded relation message is read back with its columns, types and flags |
| PgOutputCodec.ReadEncodedTuple | internal/cdc/pgoutput.go:382-427 | an encoded tuple of at most as many fields as columns is read back as its row |
| PgOutput.DecodeRelation | internal/cdc/pgoutput.go:174-263 | on every input, consumes at least 10 bytes and no more than it was given |
| PgOutput.DecodeTuple | internal/cdc/pgoutput.go:382-427 | on every input, consumes no more than it was given |
| PgOutput.DecodeInsert | internal/cdc/pgoutput.go:266-293 | on every input, consumes no more than it was given |
| PgOutput.DecodeUpdate | internal/cdc/pgoutput.go:296-342 | on every input, consumes no more than it was given |
| PgOutput.DecodeDelete | internal/cdc/pgoutput.go:345-379 | on every input, consumes no more than it was given |
| PgOutput.DecodeMessage | internal/cdc/pgoutput.go:81-164 | every message consumes at least one byte, so decoding ends on every input |
| PgOutputDecoder.Decoder.ReadOneColumn | internal/cdc/pgoutput.go:219-254 | reads one column as specified, or reports where the data runs out |
| PgOutputDecoder.Decoder.ReadColumns | internal/cdc/pgoutput.go:218-255 | the cursor loop reads the columns as specified, within bounds, stopping where the data runs out |
| PgOutputDecoder.Decoder.ReadRelation | internal/cdc/pgoutput.go:174-263 | returns the specified relation or error, within bounds |
| PgOutputDecoder.Decoder.ReadTuple | internal/cdc/pgoutput.go:382-427 | the cursor loop returns the specified row or error, within bounds |
| PgOutputDecoder.Decoder.ReadInsert | internal/cdc/pgoutput.go:266-293 | returns the specified change or error against the current relations |
| PgOutputDecoder.Decoder.ReadUpdate | internal/cdc/pgoutput.go:296-342 | returns the specified change or error against the current relations |
| PgOutputDecoder.Decoder.ReadDelete | internal/cdc/pgoutput.go:345-379 | returns the specified change or error against the current relations |
| PgOutputDecoder.Decoder.ReadMessage | internal/cdc/pgoutput.go:81-164 | one iteration: the specified effect, with a new relation stored at once |
| PgOutputDecoder.Decoder.DecodeWAL | internal/cdc/pgoutput.go:72-171 | the offset loop returns the specified changes, LSN and ending, and leaves the specified relations |
| PgOutputDecoder.Decoder.Decode | internal/cdc/pgoutput.go:49-69 | framed and unframed input, and input that is too short: the specified changes, LSN, ending and relations, which the theorems above describe for well-formed, malformed and cut streams |
| HashRing.GrowByOne | internal/outbox/hash.go:26-61 | adding partition N leaves every key where it was or moves it to N, for every hash function, collisions included |
| HashRing.Grow | internal/outbox/hash.go:9-13 | growing from N to M partitions moves keys only to partitions N and later |
| HashRing.RingInRange | internal/outbox/hash.go:40-61 | a ring names only its own partitions and is not empty |
| HashRing.RingExactly | internal/outbox/hash.go:26-61 | a ring holds exactly the positions of its virtual nodes, and where partitions collide the last one has the position |
| HashRing.NodeKeyParts | internal/outbox/hash.go:53-65 | the hashed bytes are the partition and then the replica, big-endian |
| HashRing.NodeKeyInjective | internal/outbox/hash.go:53-65 | below 2^32 no two virtual nodes have the same bytes |
| HashRing.OwnerUnique | internal/outbox/hash.go:67-70 | the owner of a key is determined by the ring |
| HashRing.SuccessorIsNearest | internal/outbox/hash.go:79-90 | the owning node is the one at the least clockwise distance on the circle of 2^32 positions |
| HashRing.Search | internal/outbox/hash.go:83-85 | the binary search returns the first position at or after the hash |
| HashRing.SortPositions | internal/outbox/hash.go:43-45 | the positions in order, as a rearrangement |
| HashRing.ConsistentHashRing.constructor | internal/outbox/hash.go:26-48 | builds the ring of the given partitions and replicas, with the defaults 1 and 150 |
| HashRing.ConsistentHashRing.AddPartition | internal/outbox/hash.go:50-61 | adds the partition's virtual nodes, a colliding one taking the earlier one's place |
| HashRing.ConsistentHashRing.GetPartition | internal/outbox/hash.go:71-91 | search with wrap-around finds the nearest node clockwise, and a partition in range |
| ShardLocks.ServingIsExclusive | internal/outbox/sharded_dispatcher.go:91-270 | in every interleaving of starts, stops, failures, lost sessions, heartbeats and writes of other dispatchers into shared lists, a started instance with a live lock connection and a list no other has written into lists only shards its session has locked, and no two such instances list the same shard |
| ShardLocks.RunKeeps | internal/outbox/sharded_dispatcher.go:91-270 | every run keeps sessions exclusive and the locks of owned shards held as far as the walk has got |
| ShardLocks.OwnsIffAlive | internal/outbox/sharded_dispatcher.go:91-270 | in every run a started instance that lists shards, in a list no other has written into, has locked all of them if and only if its connection is there and its session has not ended |
| ShardLocks.OwnsIffSessionLives | internal/outbox/sharded_dispatcher.go:160-183 | in every run in which no start begins before an earlier stop has released its locks, a running, started instance that lists shards has locked all of them if and only if its session has not ended |
| ShardLocks.LateReleaseBreaksOwnership | internal/outbox/sharded_dispatcher.go:160-183 | a run in which a stop still waiting at the next start leaves a running instance listing an unlocked shard |
| ShardRuns.StartWalks | internal/outbox/sharded_dispatcher.go:91-120 | the calls of a start that tries every shard are a run of the protocol to the state that Start promises, up or not, with the rebuilt list unlocked again if the table is missing |
| ShardRuns.StartBreaks | internal/outbox/sharded_dispatcher.go:195-207 | likewise of a start that fails at a query, whether or not the server had granted that lock |
| ShardRuns.StartUnconnected | internal/outbox/sharded_dispatcher.go:100-107 | likewise of a start without a connection |
| ShardRuns.StopRefines | internal/outbox/sharded_dispatcher.go:160-183 | likewise of a stop, to the state and lock table that Stop promises |
| ShardRuns.PingRefines | internal/outbox/sharded_dispatcher.go:259-270 | likewise of a failed ping |
| ShardRuns.OverwriteRefines | internal/outbox/sharded_dispatcher.go:210-215 | likewise of another dispatcher's rebuild in a shared list |
| ShardDispatcher.KeptAreLockedIff | internal/outbox/sharded_dispatcher.go:195-222 | acquiring lists only locked shards, for every lock table, if and only if the owned set is contained in the list |
| ShardDispatcher.ReleaseUndoesIff | internal/outbox/sharded_dispatcher.go:195-238 | releasing by any list restores the lock table that acquiring by another found if and only if each shard the session could lock is named as often in both, or more often in the first if it was not locked before |
| ShardDispatcher.StopUndoesStartIff | internal/outbox/sharded_dispatcher.go:225-238 | a stop that walks the list its start rebuilt restores the lock table if and only if every granted shard is owned and listed once, and no owned shard that is not listed was locked by the session before |
| ShardDispatcher.FirstStopUndoesStartIff | internal/outbox/sharded_dispatcher.go:225-238 | for a dispatcher that owns what it lists, if and only if no granted shard is repeated |
| ShardExamples.FailedStartLeaksLock | internal/outbox/sharded_dispatcher.go:195-207 | a start that is refused one shard and fails at the next disowns the first and keeps it listed; the next start locks it without listing it, and its stop leaves it locked |
| ShardDispatcher.StopAfterLostPingIff | internal/outbox/sharded_dispatcher.go:259-270 | a stop after a failed ping restores it if and only if the start had been granted nothing |
| ShardExamples.FailedPingLeaksLock | internal/outbox/sharded_dispatcher.go:259-270 | a start, a failed ping and a stop that leave a lock held |
| ShardExamples.SharedArrayBreaksOwnership | internal/outbox/sharded_dispatcher.go:210-215 | two dispatchers over one configured array: the first one's rebuild in place leaves the second running and listing a shard it never tried to lock |
| ShardDispatcher.ShardedDispatcher.NewShardedDispatcher | internal/outbox/sharded_dispatcher.go:49-86 | rejects exactly the configurations without shards, with one out of range, or without a database; the dispatcher keeps the configured array |
| ShardDispatcher.ShardedDispatcher.AcquireShardLocks | internal/outbox/sharded_dispatcher.go:195-222 | locks what is granted, drops what is refused, rebuilds the list in order and in place, and fails when nothing is left or a query fails |
| ShardDispatcher.ShardedDispatcher.ReleaseAllLocks | internal/outbox/sharded_dispatcher.go:225-238 | unlocks the listed shards in turn, as often as each is listed, on an open connection |
| ShardDispatcher.ShardedDispatcher.Start | internal/outbox/sharded_dispatcher.go:91-120 | the whole new state of every start, the shared array and failed starts included; a successful one whose owned shards are in its list lists only locked shards |
| ShardDispatcher.ShardedDispatcher.Stop | internal/outbox/sharded_dispatcher.go:160-183 | releases the locks and drops the connection |
| ShardDispatcher.ShardedDispatcher.VerifyLockHealth | internal/outbox/sharded_dispatcher.go:259-270 | a failed ping empties the list and the owned set |
| CachedRepo.CachedSubscriptionRepo.FindByID | internal/repository/cached_subscription_repo.go:73-120 | keeps the cache coherent and answers with the backend's row, or that there is none, whatever sets and deletes were lost before, unless it meets a stale entry it cannot purge; an unexpired one is then the answer; what it answers is cached afterwards unless the set is lost |
| CachedRepo.CachedSubscriptionRepo.FindByIDAndTenant | internal/repository/cached_subscription_repo.go:123-170 | likewise per tenant, except that a row with the same key may be the answer where there is another one |
| CachedRepo.CachedSubscriptionRepo.UpdateStatus | internal/repository/cached_subscription_repo.go:182-188 | on success the row has the new status, its tenant and the next version, and every other row is unchanged; otherwise nothing changes; the cache stays coherent even if both deletes are lost |
| CachedRepo.UpdateThenRead | internal/repository/cached_subscription_repo.go:182-188 | read-after-write: once an update is accepted, a read by id that can purge and reach the backend answers with the new status and version, even if both deletes were lost; a read by id and tenant too, if no other row has its key |
| CachedRepo.CachedSubscriptionRepo.Delete | internal/repository/cached_subscription_repo.go:192-208 | dates both keys as invalidated |
| CachedRepo.CachedSubscriptionRepo.TryCache | internal/repository/cached_subscription_repo.go:76-94 | an unexpired entry not older than its key's invalidation is a hit; after a miss no entry is left under the key, unless a stale one could not be purged; hits, misses and stale entries are counted |
| CachedRepo.CachedSubscriptionRepo.GetOrLoad | internal/cache/cache.go:102-130 | what the cache still holds, fresh or not, or else the backend's answer, stored with its time and expiry |
| CachedRepo.UpdateKeepsCoherent | internal/repository/cached_subscription_repo.go:47-52 | after an update, dating its two keys makes every entry that disagrees with the backend stale |
| CachedRepo.SetKeepsCoherentByTenant | internal/repository/cached_subscription_repo.go:145-156 | storing the backend's answer under a tenant key keeps the cache coherent, shared keys included |
| CachedRepo.ServedRightIff | internal/repository/cached_subscription_repo.go:42-44 | a fresh entry is the backend's answer for an id and tenant, in every coherent cache, if and only if no other row has the same key |
| CachedRepo.PlainPartsAreAlone | internal/repository/cached_subscription_repo.go:42-44 | no key is shared if the ids, or the tenants, are free of the separator |
| CachedRepo.InMemory.Get | internal/cache/cache.go:36-56 | a hit exactly on an unexpired item; an expired one is dropped |
| CachedRepo.InMemory.Set | internal/cache/cache.go:58-73 | stores an item with its expiry, none without a TTL |
| Keys.JoinsCollideIff | internal/repository/cached_subscription_repo.go:42-44 | two first parts can share a joined key if and only if one with the separator begins the other |
| Keys.JoinInjective | internal/middleware/idempotency_store.go:254-255 | first parts free of the separator make joined keys injective |
| Keys.JoinInjectiveLast | internal/repository/cached_subscription_repo.go:42-44 | so do second parts free of the separator |
| Idempotency.PurgeIsInvisible | internal/middleware/idempotency_store.go:329-345 | purges of expired entries inserted anywhere in any run change none of its answers |
| Idempotency.AgreeStep | internal/middleware/idempotency_store.go:250-345 | agreement on unexpired entries is a bisimulation for every operation |
| Idempotency.RemovalInvisibleIff | internal/middleware/idempotency_store.go:335-343 | removing entries is invisible to every later request if and only if all of them have expired |
| Idempotency.SqlPurgeInvisibleIff | internal/middleware/idempotency_store.go:193-200 | a purge by the SQL condition is invisible if and only if it takes no entry at the very instant that this expires |
| IdempotencyMiddleware.AnswersRightIff | internal/middleware/idempotency.go:96-147 | in every run, late handlers included, every answer at every point is justified by the requests so far if and only if no handler finishes while another request holds its key's reservation, other than with the response already stored; handlers that finish in time suffice |
| IdempotencyMiddleware.ReachesHandlerIff | internal/middleware/idempotency.go:96-117 | in every such run a request reaches the handler if and only if no earlier one with its stored key is within its reservation without having failed |
| IdempotencyMiddleware.ReplayedIff | internal/middleware/idempotency_store.go:279-283 | in every such run, with a stored response still within its reservation, a request with the same stored key is replayed exactly that response if its method, path and body hash are those of the request that was handled, and is otherwise rejected as a mismatch |
| IdempotencyMiddleware.ReplaysAreGenuine | internal/middleware/idempotency.go:118-124 | in every such run a replay carries exactly the status and body of a successful request with the same stored key, method, path and body hash, and with the same scope and key if scopes are free of the separator |
| IdempotencyMiddleware.HarmIsVisible | internal/middleware/idempotency.go:138-147 | any other finish makes the next request with that key wrongly answered |
| IdempotencyMiddleware.LateFinishCorrupts | internal/middleware/idempotency.go:138-147 | a run in which a handler that outlives its reservation has its response replayed to another request |
| IdempotencyMiddleware.StepsAreStoreCalls | internal/middleware/idempotency_store.go:250-345 | each step of the protocol does to the store what the call does that it stands for |
| IdempotencyStore.InMemoryIdempotencyStore.GetOrInsert | internal/middleware/idempotency_store.go:250-284 | reserves, reports in flight, rejects or replays, an entry counting up to and at its expiry instant; only a reservation changes the store |
| IdempotencyStore.InMemoryIdempotencyStore.UpdateResponse | internal/middleware/idempotency_store.go:287-297 | records the response of an existing key and leaves its binding and expiry alone |
| IdempotencyStore.InMemoryIdempotencyStore.DeleteExpiredBatch | internal/middleware/idempotency_store.go:329-345 | removes only expired entries, at most the batch size, and all of them if the batch was not filled |
| IdempotencyStore.InMemoryIdempotencyStore.CountExpiredPending | internal/middleware/idempotency_store.go:348-360 | counts the expired entries |
| IdempotencyStore.Middleware.Serve | internal/middleware/idempotency.go:43-148 | the response and the store after every kind of request, in the request's own fields: 409 while in flight, 422 for another method, path or body hash under a key with a response, the stored response otherwise, and what is stored for a day or removed after the handler; unreadable bodies and store failures included |
| IdempotencyStore.SettledAnswers | internal/middleware/idempotency.go:138-147 | a failed request leaves the store as if it had not been made; a successful one is replayed until its reservation ends |
| Loader.NoWaiterStranded | internal/repository/loader.go:159-317 | in every run pending work has a dispatch due, and every waiter is outstanding with nothing sent or has exactly one result |
| Loader.DeliversLookups | internal/repository/loader.go:186-233 | a batch's waiters are sent what a lookup of their id finds in the table as it was when the batch was queried, or that the query failed, in every interleaving |
| Loader.QuerySeesLastWrite | internal/repository/loader.go:290-295 | a batch that is queried sees the table as last written |
| Loader.LoadStarts | internal/repository/loader.go:252-266 | a load starts a timer exactly when no other id is pending, and a dispatch exactly when the batch is full |
| Loader.TakeStops | internal/repository/loader.go:276-289 | a dispatch that finds work takes all of it and stops the timer; one that finds none does nothing |
| Loader.BatchIsDirectIff | internal/repository/loader.go:290-312 | batched and single lookups agree on every table if and only if the tenant is named |
| Loader.StepDispatchDue | internal/repository/loader.go:162-198 | every step keeps a timer armed or a dispatch on its way while work is pending |
| TenantLoader.IndexedIsLookup | internal/repository/loader.go:297-312 | indexing the rows of a batch, in any order, and looking an id up is a lookup in the table |
| TenantLoader.TenantQueue.Load | internal/repository/loader.go:249-266 | queues the waiter; the timer starts at one pending id, a dispatch at the batch limit |
| TenantLoader.TenantQueue.Dispatch | internal/repository/loader.go:276-317 | empties the queue and sends each of its waiters exactly one result, the lookup of its id or the query's failure; others get nothing |
| TenantLoader.RequestLoader.GetOrCreateSubLoader | internal/repository/loader.go:129-143 | one queue per tenant, found again, never shared by two |
| Pagination.WalkIsComplete | internal/pagination/cursor.go:71-124 | over a strictly sorted list that changes between pages, a finished walk returns items in strictly increasing order, and every item present throughout if and only if its first page does not end on an item with the empty cursor with more to come |
| Pagination.FixedWalkIsTheList | internal/pagination/cursor.go:98-114 | on a fixed list the walk ends, its pages concatenate to the list under the same condition and only then, and all but the last are full |
| Pagination.PreviousIff | internal/pagination/cursor.go:126-143 | a page's previous cursor leads to the preceding items if and only if a whole page of them exists and the item before those does not have the empty cursor; the first page has none |
| Pagination.PageIs | internal/pagination/cursor.go:71-143 | every field of a page: its slice of the list, whether there is more, and both cursors, with a limit of 10 for none |
| Pagination.BeforeDecides | internal/pagination/cursor.go:83 | the sort value decides the order, then the id |
| Pagination.StartAfter | internal/pagination/cursor.go:77-88 | a non-empty cursor of an item starts the list right after it |
| Pagination.FindStart | internal/pagination/cursor.go:77-88 | the search loop finds the first item whose sort value, or at an equal one whose id, is greater than the cursor's, or that there is none |
| Pagination.PaginateSlice | internal/pagination/cursor.go:71-124 | the search and slicing return the specified page, the cursors to both sides included |
| Pagination.EmptyKeyEndsWalk | internal/pagination/cursor.go:19-22 | under exactly that condition a walk stops after one item although there are more |
| TokenBucket.TotalBound | internal/middleware/ratelimit.go:96-138 | in every interleaving of refills and takes, grants since creation are at most burst + rate * elapsed |
| TokenBucket.WindowBound | internal/middleware/ratelimit.go:107-138 | grants in any window that begins with a refill stay below burst + rate * window + 1 |
| TokenBucket.RunBalance | internal/middleware/ratelimit.go:107-138 | tokens stay between 0 and burst, and tokens plus grants never exceed what was there plus what accrued |
| TokenBucket.RoundingLosesLessThanHalf | internal/middleware/ratelimit.go:112-122 | a top-up discards less than half of the accrued tokens |
| TokenBucket.RefillAdds | internal/middleware/ratelimit.go:112-122 | a refill leaves min(burst, tokens + floor(rate * elapsed)), dated exactly when it adds anything; a clock that went back changes nothing |
| TokenBucket.RunYields | internal/middleware/ratelimit.go:107-138 | in every interleaving that cannot fill the bucket, at least half of what accrues is granted or still there |
| TokenBucket.SpacedAreGranted | internal/middleware/ratelimit.go:126-138 | requests that leave the time for one token to accrue between them are all granted |
| TokenBucket.LiveBucket.RefillAt | internal/middleware/ratelimit.go:108-123 | tops up by the whole tokens accrued, capped at the burst |
| TokenBucket.LiveBucket.AllowRequest | internal/middleware/ratelimit.go:126-138 | a refill and a take, allowed exactly when the take is granted |
| AdaptiveLimiter.StaysBounded | internal/outbox/limiter.go:61-133 | in every run the limit stays within its bounds, at most floor(max) tokens are out, and an idle limiter grants |
| AdaptiveLimiter.FailuresHalve | internal/outbox/limiter.go:97-105 | k failures without a success between them, whatever is acquired meanwhile, bring the limit to max(min, limit / 2^k) |
| AdaptiveLimiter.SuccessesGrow | internal/outbox/limiter.go:107-130 | k successes without a failure between them, within twice the best time and whatever is acquired meanwhile, add k times the smoothing, up to the maximum |
| AdaptiveLimiter.SuccessLimit | internal/outbox/limiter.go:107-130 | the limit after any success: the smoothing is added to the limit if it took at most twice the best time, to half of it from four times on, to the proportional part between, within the bounds |
| AdaptiveLimiter.BestIsLeastIff | internal/outbox/limiter.go:107-109 | in every run the best time is the least of the successes so far if and only if none took no time or the last one did |
| AdaptiveLimiter.Gradient2Limiter.TryAcquire | internal/outbox/limiter.go:62-78 | grants exactly while fewer than floor(limit) tokens are out, and counts them |
| AdaptiveLimiter.Gradient2Limiter.ReleaseToken | internal/outbox/limiter.go:90-133 | gives a token back and adapts the limit; the counter stays the number of tokens out |
| AuditChain.WrittenLogsVerify | internal/audit/sink.go:38-101 | through any writes, failed writes and restarts, the log holds exactly the events whose writes succeeded, in order, and is accepted if and only if the scanner can take all its lines |
| AuditChain.RefusedIff | internal/audit/sink.go:38-69 | after any such history a write that could have been made is refused if and only if the process has restarted since and the file does not open or has a line too long to scan |
| AuditChain.EndDeterminesLog | internal/audit/sink.go:14-20 | with an injective, never empty hash, two chained logs that end in the same hash are the same, event for event |
| AuditChain.AcceptedFilesAgree | internal/audit/sink.go:150-183 | two accepted files that end in the same hash hold the same events |
| AuditChain.AcceptsIff | internal/audit/sink.go:157-182 | verification accepts exactly the logs that can be scanned and parsed and whose events are chained |
| AuditChain.RejectsFirstFault | internal/audit/sink.go:157-182 | a rejected log is rejected for its first line that is too long, does not parse, does not name the hash before it or does not carry its own, for the first of these reasons, and with that line's number |
| AuditChain.Verify | internal/audit/sink.go:150-183 | the loop returns the specified verdict, with the line at fault, for every file, unreadable ones included |
| AuditChain.FileSink.LoadLastHash | internal/audit/sink.go:38-69 | takes the hash of the last non-blank line, or fails if the file does not open, a line is too long or that line does not parse; a missing file is no error |
| AuditChain.FileSink.WriteEvent | internal/audit/sink.go:71-101 | appends a sealed event, or changes nothing in the file |

## Left out

- OutboxDispatcher.Dispatcher.DrainOnceForPublisher: one uninterrupted drain; interleaving with other publishers is the subject of the protocol, and OthersKeepMine says that it leaves the drain's own state alone.
- OutboxDispatcher.Dispatcher.AcknowledgeOne: likewise uninterrupted between its reads; MarkPublished states what a transaction does when others commit meanwhile.
- ShardLocks.ServingIsExclusive: claims nothing of an instance into whose list another dispatcher has written; SharedArrayBreaksOwnership shows that it can fail there.
- OutboxStranding.CompletableIff: for a batch size below one it is stated from states with nothing in hand; what is in hand can still be completed.
- AdaptiveLimiter.Gradient2Limiter.TryAcquire: one pass of the acquire loop; waiting and cancellation between passes change nothing.
- CachedRepo.CachedSubscriptionRepo.FindByID: reads and invalidations are atomic; a reader that races an invalidation can store an old row, since the guarded load does not look at staleness again.
- IdempotencyStore.Middleware.Serve: one request from arrival to response; overlapping requests are the subject of the protocol in IdempotencyMiddleware.
- TenantLoader.TenantQueue.Load: the timer and the waiting select are steps of the protocol in Loader; a waiter that gives up is not modelled because nothing depends on it.
- Several unsharded dispatcher processes at once: each publisher has one drain at a time, as in one process. An id is stored once.
- Outbox storage: payload columns, the partition column, deduplication and the disabled dispatch path (processEvent and its retry columns).
- Sharded draining combined with publisher cursors: cursors are not kept per shard, so only ownership is claimed.
- The CDC consumer's connection loop and its sinks; changes are decoded without the LSN and timestamp fields the decoder leaves unset.
- What a stream decodes to behind a tuple with more fields than columns, or behind a cut that is not the end of the data: the rest is read as messages.
- The PostgreSQL idempotency store, apart from its purge condition; the cached plan repository and the plan loader, which repeat the subscription ones.
- Rate limit headers, bucket keys and per-route configuration.
- Publishers, signing, encryption, authentication, HTTP handlers, configuration, metrics and logging.
- JSON, base64, FNV and SHA-256 are not modelled: encodings are faithful round trips, the ring's and the log's hashes are parameters. Floating-point numbers are reals, times are integers or reals given by the caller.
- Audit writes that leave part of a line behind.

# Bond server: cache update and batch notification stages

This project models the two bookkeeping stages of the bond server's pipeline.

- The **cache update stage** (`CacheUpdateWorker`) gives every bond id a dense, stable slot in first-seen order. It writes each record's JSON serialisation into that slot of a fixed table of `MAX_BONDS` = 1 000 000 entries, updating in place. It exposes the written prefix through `GetLatestStatuses`, and for every record it pushes one `BondUpdate` onto the next queue. An unseen id that arrives with the table full raises "Maximum number of bonds exceeded".
- The **batch notification stage** (`BatchNotificationWorker`) coalesces the stream of `BondUpdate`s into windows of `batchSize` raw updates. Within a window a repeated id overwrites its entry and a new id is appended. When the window is full, the stage broadcasts one message (each entry followed by a newline, in window order) and starts an empty window.

Files:

- `model.dfy` (`BondModel`): the records `Bond`, `BondWithStatistics` and `BondUpdate`, plus `Option`/`Result`.
- `first_seen.dfy` (`FirstSeenOrder`): the first-seen order of a sequence and maps that index it. Both stages assign positions this way.
- `update_stream.dfy` (`UpdateStream`): what a stream of updates says about each bond. `LatestStatus` gives the last status per id. `Coalesce` gives the latest status of every distinct id, in first-seen order. This is the reference definition against which both stages are proved.
- `cache_update_worker.dfy` (`CacheUpdate`): the cache stage as a class. `latestStatuses` is an array updated in place; `numBonds` and the id-to-slot map are fields.
- `batch_notification_worker.dfy` (`BatchNotification`): the batch stage. Its `Run` loop keeps the window in locals, as the source does.
- `pipeline.dfy` (`Pipeline`): the two stages connected by their queue, and the three-update scenario run through both.

Main results:

- The cache's snapshot is always `Coalesce` of everything it has emitted. A run completes exactly when the input has at most `MAX_BONDS` distinct ids; otherwise it stops at the first record that would need slot `MAX_BONDS`.
- For `batchSize >= 1`, the batch stage's `k`-th message is `Format(Coalesce(block k))`. Block `k` is raw updates `k*batchSize .. k*batchSize + batchSize` of its input. When no status contains a newline, reading a message back line by line yields the coalesced entries.

## Model

| member | source | states |
|---|---|---|
| CacheUpdate.Notifications | BondsServer/CacheUpdateWorker.cs:52-56 | one notification per record, in order, carrying the record's id and its serialisation |
| CacheUpdate.NotificationsConcat | BondsServer/CacheUpdateWorker.cs:26-56 | the notifications for two stretches of input are those of each, joined |
| CacheUpdate.CacheUpdateWorker.constructor | BondsServer/CacheUpdateWorker.cs:13-20 | a fresh table of MAX_BONDS empty slots, no bonds, an empty dictionary, nothing emitted; the invariant holds |
| CacheUpdate.CacheUpdateWorker.Process | BondsServer/CacheUpdateWorker.cs:26-57 | fails exactly when the id is unseen and numBonds == MAX_BONDS, and then nothing changes. A seen id keeps its slot and the count. An unseen id gets slot numBonds, recorded in the map, and the count grows by one. Only that slot is rewritten, with the record's serialisation. Exactly one update with that same string is emitted. Every slot below numBonds is written before the write, between the write and the raise, and after the raise. The invariant is preserved |
| CacheUpdate.CacheUpdateWorker.Run | BondsServer/CacheUpdateWorker.cs:22-58 | completes iff the whole input has at most MAX_BONDS distinct ids. Otherwise it stops at a record whose unseen id finds exactly MAX_BONDS ids already seen. The pushed updates are the notifications of exactly the records processed, and the invariant is kept |
| CacheUpdate.CacheUpdateWorker.GetLatestStatuses | BondsServer/CacheUpdateWorker.cs:60-66 | returns slots [0, numBonds) of the table. Its length is the number of distinct ids seen, and entry i is the latest status of the i-th id in first-seen order (none is unwritten) |
| CacheUpdate.CacheUpdateWorker.SlotsAreBijection | BondsServer/CacheUpdateWorker.cs:29-49 | map values lie below numBonds and are pairwise distinct, and every slot below numBonds belongs to exactly one id |
| CacheUpdate.CacheUpdateWorker.SeenIds | BondsServer/CacheUpdateWorker.cs:29-49 | the map's keys are exactly the ids emitted so far, and numBonds is their number, at most MAX_BONDS |
| CacheUpdate.CapacityExceeded | BondsServer/CacheUpdateWorker.cs:31-34 | with MAX_BONDS distinct ids seen, one more unseen id puts any continuation over capacity |
| CacheUpdate.ConsistentAfterOverwrite | BondsServer/CacheUpdateWorker.cs:29-42 | rewriting a seen id's slot keeps the slot order, map and count, and the table becomes the coalescing of the longer stream |
| CacheUpdate.ConsistentAfterAppend | BondsServer/CacheUpdateWorker.cs:34-49 | writing slot numBonds for an unseen id and then raising the count keeps the state consistent |
| CacheUpdate.TableOverwrite | BondsServer/CacheUpdateWorker.cs:41-42 | writing a slot inside the exposed prefix replaces exactly that entry |
| CacheUpdate.TableAppend | BondsServer/CacheUpdateWorker.cs:42-49 | every slot below the count is written before the write, after the write and after the raise. The raise then exposes exactly the new entry. Raising the count before the write would expose an unwritten slot |
| FirstSeenOrder.FirstSeenSpec | BondsServer/CacheUpdateWorker.cs:29-37 | the first-seen order lists each id of the stream exactly once and nothing else |
| FirstSeenOrder.FirstSeenSnoc | BondsServer/CacheUpdateWorker.cs:29-37 | a record extends the order by its id exactly when the id is new |
| FirstSeenOrder.FirstSeenPrefix | BondsServer/CacheUpdateWorker.cs:36-37 | slot indices never change: the order of a prefix is a prefix of the order of any extension |
| FirstSeenOrder.IndexesOrderIsBijection | BondsServer/CacheUpdateWorker.cs:36-37 | a map indexing a duplicate-free order is injective and inverts that order |
| FirstSeenOrder.IndexesOrderSnoc | BondsServer/BatchNotificationWorker.cs:38-41 | mapping a new id to the current length keeps the map an index of the extended order |
| UpdateStream.BondIdsConcat | BondsServer/BatchNotificationWorker.cs:28-42 | the ids of two joined streams are the ids of each, joined |
| UpdateStream.LatestStatusFound | BondsServer/CacheUpdateWorker.cs:29-42 | a latest status exists exactly for the ids that occur in the stream |
| UpdateStream.LatestStatusIsLast | BondsServer/CacheUpdateWorker.cs:29-42 | the latest status is carried by an update for that id with no later update for it |
| UpdateStream.LatestStatusSnoc | BondsServer/CacheUpdateWorker.cs:41-42 | one more update sets its own id's latest status and leaves every other id's alone |
| UpdateStream.LastWriteWins | BondsServer/CacheUpdateWorker.cs:29-42 | after U1 then U2 for an id, and any updates for other ids, the id's latest status is U2's |
| UpdateStream.CoalesceEntries | BondsServer/BatchNotificationWorker.cs:32-41 | the coalescing has one entry per distinct id in first-seen order, each that id's latest status |
| UpdateStream.CoalesceSize | BondsServer/BatchNotificationWorker.cs:32-44 | a stream coalesces to at most as many entries as it has updates, and at least one if it is nonempty |
| UpdateStream.CoalesceOverwrite | BondsServer/BatchNotificationWorker.cs:34-36 | an update for a seen id replaces that id's entry in place; the length and other entries are unchanged |
| UpdateStream.CoalesceAppend | BondsServer/BatchNotificationWorker.cs:38-41 | an update for an unseen id appends its status at the end |
| BatchNotification.FormatConcat | BondsServer/BatchNotificationWorker.cs:49-54 | formatting distributes over concatenation of entry lists |
| BatchNotification.FirstLine | BondsServer/BatchNotificationWorker.cs:49-54 | a newline-free entry followed by a newline reads back as the first line |
| BatchNotification.LinesOfFormat | BondsServer/BatchNotificationWorker.cs:49-54 | when no entry contains a newline, splitting a message at its newlines gives back exactly the window's entries, in order |
| BatchNotification.ConcatSnoc | BondsServer/BatchNotificationWorker.cs:46-63 | the updates of one more window follow those of the earlier windows |
| BatchNotification.BlocksOfConcat | BondsServer/BatchNotificationWorker.cs:44-63 | windows of exactly batchSize updates followed by a shorter tail split back into those windows and that tail |
| BatchNotification.BlockCount | BondsServer/BatchNotificationWorker.cs:44-46 | the complete windows cover all but fewer than batchSize trailing updates |
| BatchNotification.BlockAt | BondsServer/BatchNotificationWorker.cs:44-46 | window k is raw updates k*batchSize to k*batchSize + batchSize |
| BatchNotification.RestAfterBlocks | BondsServer/BatchNotificationWorker.cs:44-63 | the unsent window is the suffix after the last complete window |
| BatchNotification.EmptyWindowHolds | BondsServer/BatchNotificationWorker.cs:24-26 | the empty list and map describe the empty window |
| BatchNotification.WindowAfterOverwrite | BondsServer/BatchNotificationWorker.cs:32-36 | overwriting a seen id at its recorded position keeps list and map describing the window |
| BatchNotification.WindowAfterAppend | BondsServer/BatchNotificationWorker.cs:38-41 | appending a new id with map entry equal to the old length keeps list and map describing the window |
| BatchNotification.PositionInRange | BondsServer/BatchNotificationWorker.cs:32-36 | a recorded position lies inside the list |
| BatchNotification.WindowBijection | BondsServer/BatchNotificationWorker.cs:32-46 | the map's keys are exactly the window's distinct ids. Its values are pairwise distinct list positions, and every list position is the value of the id first seen at that position, so the map is a bijection onto the positions. Each position holds that id's last status in the window |
| BatchNotification.DeliveredSnoc | BondsServer/BatchNotificationWorker.cs:46-63 | a full window closes with its formatted coalescing as the next message |
| BatchNotification.AccumulateStep | BondsServer/BatchNotificationWorker.cs:32-44 | taking an update into a window that is not full keeps the loop state exact and raises the count by one |
| BatchNotification.FlushStep | BondsServer/BatchNotificationWorker.cs:46-63 | at count == batchSize, the message is sent and list, map and count are reset, so the next window holds only later updates |
| BatchNotification.DrainedOutcome | BondsServer/BatchNotificationWorker.cs:28-65 | once the input is drained, message k is the formatted coalescing of block k, and the open window is the coalescing of the unsent rest |
| BatchNotification.FormatPrefixStep | BondsServer/BatchNotificationWorker.cs:49-54 | one more appended entry and newline extend the message for the entries before it |
| BatchNotification.MessageSize | BondsServer/BatchNotificationWorker.cs:32-46 | a window of 1 to batchSize updates coalesces to 1 to batchSize entries |
| BatchNotification.SentMessageSize | BondsServer/BatchNotificationWorker.cs:44-57 | every sent message lists between 1 and batchSize entries. When no status contains a newline, a subscriber reads between 1 and batchSize lines from it |
| BatchNotification.CoalesceTwo | BondsServer/BatchNotificationWorker.cs:38-41 | two updates for different ids coalesce to both statuses, in arrival order |
| BatchNotification.FormatTwo | BondsServer/BatchNotificationWorker.cs:49-54 | the message for two entries is each followed by a newline |
| BatchNotification.CoalescingExample | BondsServer/BatchNotificationWorker.cs:32-53 | A->s1, B->s2, A->s3 coalesce to [s3, s2], and the message is "s3\ns2\n" |
| BatchNotification.Accumulate | BondsServer/BatchNotificationWorker.cs:30-42 | a seen id is overwritten at its position and a new id is appended at the old length. The result is the coalescing of the window with the update added |
| BatchNotification.BuildMessage | BondsServer/BatchNotificationWorker.cs:48-54 | the buffer ends up as the entries in list order, each followed by a newline. When no entry contains a newline, it reads back as exactly those entries |
| BatchNotification.BatchNotificationWorker.constructor | BondsServer/BatchNotificationWorker.cs:14-20 | the worker keeps the given batch size |
| BatchNotification.BatchNotificationWorker.Run | BondsServer/BatchNotificationWorker.cs:21-66 | fails exactly when batchSize is negative, where the list allocation throws. With batchSize 0 nothing is ever sent. Otherwise exactly one message per complete block of batchSize raw updates is sent, in order, and message k is the newline-terminated coalescing of block k |
| Pipeline.RunPipeline | BondsServer/Main.cs:17-37 | the batch stage consumes exactly the updates the cache stage pushed: the notifications of every record, or of those before the capacity failure. The snapshot is their coalescing, and the messages are the coalesced blocks of them |
| Pipeline.ThreeUpdates | BondsServer/Main.cs:17-37 | A, B, then A again with batch size 3: the snapshot is [A's newer status, B's], and the single message is A's newer status then B's, newline-terminated |

## Left out

- Threads, locks and the blocking queues (BondsServer/CacheUpdateWorker.cs:46-49, 62-65). Each stage is a sequential method over a finite input sequence. A queue becomes a returned sequence: the cache's pushed updates, and the batch stage's broadcast messages in send order. The one ordering fact that matters to a concurrent reader is kept: `Process` asserts after each of the two steps that every slot below `numBonds` is written, so the slot is written before the count that exposes it is raised. Its other invariants are established at the end of each record.
- The endless `foreach` over the consuming enumerable becomes a loop over the given input. The last, partial window of the batch stage is never sent, as in the source, and the model states what it holds.
- JSON serialisation is a function value supplied to the cache's constructor. The model relies on no property of it, not even injectivity. Field casing and formatting are not modelled.
- `BondWithStatistics.yield` is a C# `float`; it is an opaque `real` here, and nothing depends on it. The analytics that compute it (BondsServer/StatCalculationWorker.cs) are not part of this model.
- BondsServer/DummyInventoryProvider.cs, the HTTP controller, the WebSocket fan-out in BondsServer/Main.cs and the broadcast callback's I/O are not part of this model. The callback is the append to the returned message list, and a failing callback is not modelled; the source has no handler for one.
- CacheUpdate.CacheUpdateWorker.Run: the source leaves `Run` by throwing the capacity exception; the model returns `Stopped(at, error)` with the state at that point. The id-to-slot dictionary, a local of the source's `Run`, is a field here. So only a single `Run` per worker is modelled: a second call in the source would start with an empty dictionary over a nonempty table.
- CacheUpdate.CacheUpdateWorker.GetLatestStatuses returns a copy of the prefix rather than a `Memory<string>` view sharing the array. Later writes through the view are not modelled.
- BatchNotification.BuildMessage builds the message in a fresh buffer per message. The source reuses one `StringBuilder` and clears it after each send, which yields the same string.
- BatchNotification.BatchNotificationWorker.Run keeps the window in the loop's locals, as the source does, and accepts any batch size. A negative size fails as `new List<string>(batchSize)` does; other list capacities are not modelled.
- BatchNotification.BatchNotificationWorker.Run: the raw-update counter is an unbounded integer, while the source's is a 32-bit `int`. With a positive batch size the two agree, because the counter is reset on reaching the batch size. With a batch size of 0 the source's counter would wrap after 2^32 updates and then trigger a send; the model sends nothing.
- `CacheUpdateWorker` has no entry point for seeding the table in bulk, and nothing catches an exception from `broadcastToClients` (BondsServer/BatchNotificationWorker.cs:57), so a failing broadcast ends `Run`. The model has neither a seeding operation nor a failing broadcast.
- Integer widths: `numBonds` never exceeds MAX_BONDS, so its 32-bit type cannot overflow, and it is an unbounded integer here.

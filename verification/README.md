# A verified model of the Lotus chain syncer, its blockstores and its sector codecs

This project models four parts of Lotus, a Filecoin node, and proves what they guarantee.

* **The sync scheduler** (`chain/sync_manager.go`). `Schedule` is its event loop as a state machine;
  map iteration order and sync outcomes are arbitrary. `ScheduleRuns` proves properties of every run,
  and `ScheduleProgress` what becomes of every head, pending tip and deferred target. `SyncBuckets`,
  `SyncBuffer` and `SyncManager` hold the mutable objects. Each handler of `SyncManager.Manager` is
  proved to take exactly one step of the machine.
* **Header collection and fork resolution** (`chain/sync.go`, `chain/badtscache.go`). `ChainView` is
  the content-addressed block tree with a local store and an exchange client as partial views of it.
  `SyncFork`, `WayBack`, `CollectHeaders` and `ChainSafety` cover `collectHeaders`, `syncFork` and the
  deny list.
  `Messages`, `FetchMessages` and `IterFullTipsets` cover the fetching of messages.
* **Blockstores** (`blockstore/`). `Autobatch` is the write-back store as a system of interleaved
  atomic steps, and `AutobatchStore` its operations, recorded as runs of that system. `TimedCache` is
  the generational cache. `Layers`, `LayerLoops` and `LayerWrites` cover memory, identity, buffered and
  union stores nested in one another.
* **Generated codecs** (`api/cbor_gen.go`). `Cbor` is the item layer, following sections 3, 3.1 and
  3.3 of RFC 8949, and the map-struct loop; `CborStructs` and `CborPieces` hold the structs. `CborWire`
  says which bytes are written and which are accepted, without reference to the reader.

`dafny verify dfyconfig.toml` checks the whole project.

## Where a promise needs a condition

* A deferred target is not always served. `selectDeferredSyncTarget` decides inside its loop over the
  active workers, so when the last worker ends, every deferred bucket is popped and dropped
  (`LastWorkerDropsDeferred`). `DeferredServedIff` gives the exact condition, another active worker,
  and `DroppedForkRun` a run that drops a fork heavier than everything synced. The queues are still
  empty whenever the scheduler is idle (`NothingStranded`), for this very reason.
* A checkpoint at our own head is not always kept. The branch for siblings of the head returns before
  the checkpoint is looked at. A collected target keeps the checkpoint if and only if no sibling of the
  head is on its way back (`CheckpointAtHead`); `SiblingLeavesCheckpoint` is a call that leaves it.
  With the checkpoint below the head, `CheckpointSafety` holds without exception.
* A fork is not always collected when it may end where the chains meet. A stored tipset is appended
  whatever its height, so when the way back from a head is stored from above our height down to an
  ancestor of ours, the walk ends at the meeting point itself, and the search for a fork starts below
  it. Such a head is collected if and only if the fork may end one tipset further down (the clause with
  `RunsOnto` and `RoomBelow` of `CollectHeaders`); at the checkpoint it is always refused and put on the
  deny list. `JumpIsRefused` and `StoredRunIsRefused` are such calls, over one and over two stored
  tipsets. In general, with peers that answer in full, what was walked is collected if and only if it
  ends next to our head or the chains meet behind it, within the threshold, where a fork may end (the
  clause with `LinkAllowed`). `NearestDecides` reads this off the nearest meeting point: if the walk
  ended above it, the fork must be allowed to end there; if at it, one tipset further down. The clause
  with `Plan` is a sufficient condition that does not mention the walk.
* A fetch of messages does not always end in success or an error. The client accepts a shorter answer
  than requested, and `fetchMessages` has a loop to go on after one, but it indexes every answer by the
  requested tipsets. `OutcomeIff` gives the exact condition for running past the end of an answer: the
  first try that is answered and not unfit is shorter than its request, with messages that all fit.
  `PartialAnswerFaults` is such an answer; with answers at full length it cannot happen.
* The timed cache promises to keep a block for at least the interval. `Retention` proves this for every
  time before one interval after the last put. At exactly one interval later a block that was put at
  the very instant of a rotation, just before it, is already gone; `RetentionAtInterval` gives the
  exact condition and `GoneAtInterval` a run.
* `Has` and `Get` of nested stores agree on all cids if and only if no union of zero stores occurs in
  the nesting (`AgreementIff`): such a union returns neither a block nor an error.
* `BufferedBlockstore.GetSize` asks the write store again when the read store's size is 0, which is
  also the size that comes with an error. `SizeAgrees` says what is returned: the size of what `Get`
  returns for decodable cids of content that is not empty; what the store without its read sides would
  return for empty content, and for an undecodable cid that no memory store holds. `BufferedSizeIff`
  covers every cid: a buffered layer gets the size right if and only if the answers of its two sides
  fit. `SizesAgreeIff` covers every cid and any nesting: a size that is reported is right, and `GetSize`
  agrees with `Get` if and only if it makes no difference that the read sides are asked first. `WrongSizes`
  gives a store and a cid for an empty block and for an undecodable cid.
* A field that comes twice in an encoded struct is not always read as its second value. An empty list and
  a null leave the first value (`RefsTwice`, `PointerTwice`); after an empty byte string the reader takes
  as many bytes as the first value had from what follows the struct (`ValueTwice`).

## Assumptions

* Content addressing: a tipset key stands for one tipset, a multihash for one byte string, and heights
  strictly fall from a tipset to its parents. The exchange client returns a non-empty linked segment
  of at most the requested length that starts at the requested key. The local store does not change
  during one call.
* `GetChainMessages` returns at least one and at most as many entries as requested, with one index list
  per block and every index in range, as `chain/exchange/client.go` checks.
* Codecs of other packages (cids, deal proposals, piece infos) round-trip and never start with the
  null byte. `computeMsgMeta` is a function of the two lists of message cids, injective where that is
  said.
* A worker reports its end once. A known tipset is never collected against itself: `collectHeaders`
  indexes an empty slice when `incoming` equals `known`.
* Steps of concurrent code are its critical sections and its calls on other stores.

## Model

| member | source | states |
|---|---|---|
| SyncBuckets.AddKeepsBucketGood | chain/sync_manager.go:642-678 | adding a tipset that is on a bucket's chain keeps the bucket connected under parent/child links and free of equal tipsets |
| SyncBuckets.InsertKeepsGood | chain/sync_manager.go:561-569 | after an insert every bucket is still non-empty, connected and duplicate-free, and the tipset is related to the set |
| SyncBuckets.InsertAllLaws | chain/sync_manager.go:561-569 | after any sequence of inserts into an empty set all buckets are connected and the set holds exactly the inserted tipsets, up to equality |
| SyncBuckets.InsertConserves | chain/sync_manager.go:561-569 | an insert loses no tip and adds none but the inserted one |
| SyncBuckets.UnrelatedLaws | chain/sync_manager.go:597-609 | what PopRelated leaves is exactly the unrelated buckets |
| SyncBuckets.RelatedTipsLaws | chain/sync_manager.go:597-609 | what PopRelated returns is exactly the tips of all related buckets, and nil exactly when there is no related bucket |
| SyncBuckets.PopRelatedConserves | chain/sync_manager.go:597-609 | the tips before are the returned tips and the remaining tips together, as multisets |
| SyncBuckets.InsertedPairs | chain/sync_manager.go:627-678 | parent and child share a bucket in whichever order they come, an equal tipset changes nothing, an unrelated one gets its own bucket |
| SyncBuckets.TiesGoToTheFirst | chain/sync_manager.go:571-595 | of equally heavy tips, and of buckets with equally heavy tips, the first counts |
| SyncBuckets.SameChainAs | chain/sync_manager.go:627-640 | true exactly when some tip equals the tipset, is its parent or is its child |
| SyncBuckets.AddTo | chain/sync_manager.go:642-678 | appends the tipset unless an equal one is there (no coalescing) |
| SyncBuckets.HeaviestTipSet | chain/sync_manager.go:680-692 | the first tip of maximal weight, or nothing for an empty bucket |
| SyncBuckets.SyncBucketSet.RelatedToAny | chain/sync_manager.go:552-559 | true exactly when some bucket is on the same chain |
| SyncBuckets.SyncBucketSet.Insert | chain/sync_manager.go:561-569 | the buckets become the specified insertion: into the first related bucket, else a new one at the end |
| SyncBuckets.SyncBucketSet.Pop | chain/sync_manager.go:571-595 | removes exactly one bucket, whose heaviest tip is maximal over the set, the first such |
| SyncBuckets.SyncBucketSet.PopRelated | chain/sync_manager.go:597-609 | removes exactly the related buckets and returns their tips merged, or nothing |
| SyncBuckets.SyncBucketSet.Heaviest | chain/sync_manager.go:611-621 | the heaviest tip of the bucket that Pop would take, or nothing for the empty set |
| SyncBuffer.Ring.Push | chain/sync_manager.go:506-510 | the ring holds the newest pushes of the whole history, whatever wrapped around |
| SyncBuffer.Ring.Synced | chain/sync_manager.go:512-520 | true exactly when one of the newest pushes, as many as the ring has slots, equals the tipset or is heavier |
| Schedule.SelectDeferredFacts | chain/sync_manager.go:454-490 | whatever the iteration order, the choice touches only the queues, keeps pending buckets tied to workers, never picks a recently synced target, and finds none only when deferred is drained |
| Schedule.SelectNextFacts | chain/sync_manager.go:426-450 | the same for the choice after a worker's end |
| Schedule.InsertedAnchored | chain/sync_manager.go:378-396 | queueing behind an active or pending target keeps every pending bucket on the chain of some worker |
| Schedule.AddTargetKeepsInv | chain/sync_manager.go:362-422 | a peer head after start-up keeps the scheduler invariant and starts no backward work |
| Schedule.PeerHeadKeepsInv | chain/sync_manager.go:197-236 | so does any peer head event |
| Schedule.WorkerDoneKeepsInv | chain/sync_manager.go:238-276 | so does any worker report, success or failure |
| Schedule.RampUpFacts | chain/sync_manager.go:278-295 | the ramp-up loop keeps the invariant, adds only forward work, and leaves deferred targets only at the worker limit |
| Schedule.StepKeepsInv | chain/sync_manager.go:176-195 | every step of the event loop keeps the invariant and starts no backward work |
| ScheduleRuns.WorkConservation | chain/sync_manager.go:185-190 | in every run, once the ramp-up tick has been handled, deferred targets exist only while exactly five workers are active |
| ScheduleRuns.NothingStranded | chain/sync_manager.go:238-276 | in every reachable state each pending bucket is on the chain of an active worker, and no workers means both queues are empty |
| ScheduleRuns.ResourceBounds | chain/sync_manager.go:197-312 | in every reachable state: at most one worker before and five after the initial sync, ids below nextWorker, no empty bucket, heads kept only before the first spawn |
| ScheduleRuns.SyncedIsSuccesses | chain/sync_manager.go:256-262 | what has been pushed to the ring is the list of successfully reported targets of the run |
| ScheduleRuns.NoBackwardWorkInRun | chain/sync_manager.go:366-370 | every target a run starts differs from, and is at least as heavy as, each of the last ten successes |
| ScheduleRuns.WorkersAccounted | chain/sync_manager.go:297-312 | in every run the number of spawned workers is the number active plus the number of reports |
| ScheduleRuns.WorkerLifetime | chain/sync_manager.go:238-312 | ids are never reused and targets never change: an id active at two moments was active with the same target all the time between |
| ScheduleRuns.LastWorkerDropsDeferred | chain/sync_manager.go:454-490 | when the only worker ends, no deferred target is started: the next one is a pending tip of the ended chain, or all deferred targets are dropped |
| ScheduleRuns.DeferredServedIff | chain/sync_manager.go:471-486 | a best deferred target that nothing speaks against is started if and only if some worker is active |
| ScheduleRuns.DroppedForkRun | chain/sync_manager.go:454-490 | a run of three events after which a heavier fork has been deferred and dropped without being synced |
| ScheduleProgress.NovelIff | chain/sync_manager.go:512-520 | a tipset passes the check against the ring exactly when none of the last ten successes equals it or is heavier |
| ScheduleProgress.OutweighedIff | chain/sync_manager.go:406-411 | a head is outweighed by the pending set exactly when some pending tip is heavier |
| ScheduleProgress.HeadDecided | chain/sync_manager.go:362-422 | what every peer head after the first worker leads to, as a condition on the state alone: ignored, started (always when nobody works), queued on an active or pending chain, or deferred |
| ScheduleProgress.HeadNotLost | chain/sync_manager.go:362-422 | a head that is new and that nothing at work or pending outweighs is at work, pending or deferred afterwards |
| ScheduleProgress.FirstHeadDecided | chain/sync_manager.go:198-220 | before that, heads are kept by peer until there are as many as the threshold; then one worker starts on a head that no other outweighs |
| ScheduleProgress.NextOnChain | chain/sync_manager.go:426-450 | after a worker ends, the heaviest tip pending on its chain is started, unless the ended target, an active one or a recent success speaks against it |
| ScheduleProgress.NextOffChain | chain/sync_manager.go:426-450 | otherwise exactly the tips pending on that chain are dropped and a deferred target is looked for |
| ScheduleProgress.DeferredAccounted | chain/sync_manager.go:454-490 | every deferred bucket stays, or its heaviest tip is started, queued, or dropped for one of the named causes; no pending tip is lost; what is started is a heaviest deferred tip and nothing left is heavier |
| ScheduleProgress.TickServes | chain/sync_manager.go:278-295 | a tick does nothing during the initial sync; after it, with fewer than five workers, the best deferred target that nothing speaks against gets a worker |
| SyncManager.SortByHeight | chain/sync_manager.go:342-344 | a permutation sorted by height |
| SyncManager.HeaviestBucketIsBestHead | chain/sync_manager.go:346-356 | the heaviest tip of the buckets built from the peer heads is matched or beaten by no peer head |
| SyncManager.BestOf | chain/sync_manager.go:332-357 | the initial target is one of the heads and no head is heavier, up to equal tipsets |
| SyncManager.Manager.HandlePeerHead | chain/sync_manager.go:197-236 | takes exactly one peer-head step of the machine, so HeadDecided and FirstHeadDecided say what it does |
| SyncManager.Manager.TrackHead | chain/sync_manager.go:198-220 | before the first worker: records the head, and starts on the best one once enough peers are known |
| SyncManager.Manager.HandleWorkerStatus | chain/sync_manager.go:238-276 | takes exactly one worker-done step, so NextOnChain, NextOffChain and DeferredAccounted say what it does |
| SyncManager.Manager.HandleTick | chain/sync_manager.go:185-190 | takes exactly one tick step (TickServes) |
| SyncManager.Manager.HandleInitialSyncDone | chain/sync_manager.go:278-295 | is a ramp-up: spawning turns until the limit or until no deferred target is left |
| SyncManager.Manager.SpawnWorker | chain/sync_manager.go:297-312 | adds one worker under the next id |
| SyncManager.Manager.SelectInitialSyncTarget | chain/sync_manager.go:332-357 | clears the heads and returns the best of them |
| SyncManager.Manager.AddSyncTarget | chain/sync_manager.go:362-422 | refines the specified decision: ignore, queue, defer or start, for every iteration order |
| SyncManager.Manager.SelectSyncTarget | chain/sync_manager.go:426-450 | refines the specified choice of the next target |
| SyncManager.Manager.SelectDeferredSyncTarget | chain/sync_manager.go:454-490 | refines the specified loop over deferred buckets |
| BadBlocks.LinkedAllKeepsRoot | chain/badtscache.go:29-43 | however often a reason is linked on, the root reason stays at depth one and the text shows the last reason and the root |
| ChainView.BackFalls | chain/sync.go:732-867 | farther back on a chain is strictly lower |
| SyncFork.SkipForkTip | chain/sync.go:917-918 | a fork tipset above our side is no ancestor of our head, so it may be skipped |
| SyncFork.SkipOwnTip | chain/sync.go:919-936 | our side, not below the fork tipset and different from it, is no tipset of the fork, so it may be walked past |
| SyncFork.FindCommonAncestor | chain/sync.go:896-940 | nearest common ancestor, both ways: success returns the fork down to its highest tipset that is a proper ancestor of known; failure means none is reachable within the threshold, above genesis and before the checkpoint; each error names its cause |
| WayBack.GrownBound | chain/sync.go:808-811 | appending only tipsets above known never passes an ancestor at or below the height where the walk ends |
| WayBack.RunEnds | chain/sync.go:746-766 | a walk over stored tipsets ends exactly at the first that is not above the height above known |
| WayBack.SearchDecided | chain/sync.go:879-940 | with complete answers the search behind the walked chain can end exactly where the chains meet there, within the threshold and where a fork may end |
| WayBack.NearestDecides | chain/sync.go:746-940 | the nearest meeting point decides this: walked to above it, the fork must be allowed to end there; walked to it, one tipset further down |
| WayBack.PlannedIsFound | chain/sync.go:746-940 | for a planned fork it is so however the walk went |
| WayBack.JumpedForkIff | chain/sync.go:896-940 | when the walk ended at the meeting point itself, the search over any non-empty answer finds a fork if and only if it may end one tipset further down |
| CollectHeaders.Syncer.CheckBeacons | chain/sync.go:707-730 | order error exactly when the first block's rounds decrease, mismatch exactly when blocks differ |
| CollectHeaders.Syncer.CheckStart | chain/sync.go:694-730 | passes exactly clean heads, and says exactly which blocks are put on the deny list and why |
| CollectHeaders.Syncer.Denounce | chain/sync.go:747-756 | marks exactly the blocks accepted in the rounds so far, none of them marked before, each on the chain of the head above the bad block, with a reason linked to it |
| CollectHeaders.WalkDeniedJustified | chain/sync.go:747-824 | such marks lead straight to the root reason of a bad block below them |
| CollectHeaders.Syncer.AppendSegment | chain/sync.go:808-825 | appends the linked tipsets not below the cut-off, none of which has a block on the deny list, and reports where it stopped or which block was bad |
| CollectHeaders.Syncer.NextSegment | chain/sync.go:771-806 | asks for exactly the gap, or 500 tipsets if that is less; fails only when that request does |
| CollectHeaders.Syncer.FetchSegment | chain/sync.go:771-827 | extends the linked chain from the network by tipsets that are not on the deny list, without passing the first tipset at or below the height above known; a bad block it meets is not below that either |
| CollectHeaders.Syncer.WalkRound | chain/sync.go:746-827 | one round keeps the chain linked, clean and exactly accounted for, and goes down; a bad block it meets denies exactly the blocks accepted in the rounds so far; a stored tipset is appended without a request |
| CollectHeaders.Syncer.FetchRound | chain/sync.go:771-827 | the same for a round that makes a request |
| CollectHeaders.Syncer.WalkBack | chain/sync.go:732-830 | terminates; success is a linked chain from incoming down to the height above known with no tipset after incoming on the deny list, through any mix of local and network segments, ending at the first ancestor not above that height or just above it, and exactly there without any request when the way is stored; with a clean path it succeeds when that is so or peers are honest; a bad block met marks exactly the blocks that the rounds up to it accepted, and the only other failure is an unanswered request |
| CollectHeaders.Syncer.ResolveFork | chain/sync.go:879-940 | refuses at a checkpointed head, and otherwise returns what the search over the fetched tipsets means |
| CollectHeaders.Syncer.LinkUp | chain/sync.go:831-867 | the collected chain ends at a child of known, a child of its parent or a proper ancestor; which of these is decided by the walked chain; fork failures mark exactly the head's blocks when the fork is too long or crosses the checkpoint |
| CollectHeaders.Syncer.CollectHeaders | chain/sync.go:684-868 | success is such a chain from incoming, and what was walked has no tipset after incoming on the deny list; a head that extends known by n tipsets over a clean path yields exactly n headers; with peers that answer in full a walked chain is collected if and only if it ends next to known or the chains meet behind it where a fork may end; a stored run onto an ancestor of known is collected if and only if there is room below it, and refused at the checkpoint, but nothing is refused for a checkpoint that is to be ignored; new marks are on incoming's chain above a block that was bad before, except the two verdicts on the head itself, and each failure says exactly how the deny list changed |
| ChainSafety.CollectedFalls | chain/sync.go:684-868 | heights strictly fall along collected headers |
| ChainSafety.CheckpointSafety | chain/sync.go:831-867 | with the checkpoint a proper ancestor of known and not ignored, every collected target, by any of the three branches, descends from it |
| ChainSafety.CheckpointAtHead | chain/sync.go:842-849 | with the checkpoint at known, a collected target descends from it if and only if no sibling of known is on its way back |
| ChainSafety.SiblingLeavesCheckpoint | chain/sync.go:842-849 | a syncer whose checkpoint is the head, and a call that succeeds with a target not descending from it |
| ChainSafety.JumpIsRefused | chain/sync.go:759-766 | a syncer with honest peers and a head on its checkpoint, where the fork may end, that is refused for leaving the checkpoint and put on the deny list |
| ChainSafety.StoredRunIsRefused | chain/sync.go:759-766 | the same with another stored tipset between the head and the checkpoint |
| Messages.CheckMsgMeta | chain/sync.go:1029-1056 | accepts exactly when every block is within the message limit and its messages hash to its root |
| Messages.PassesMeans | chain/sync.go:1029-1056 | the same spelled out: at most 10000 messages per block, and each root that of the cids at its indices, BLS first |
| Messages.Zip | chain/sync.go:383-415 | succeeds exactly on messages that fit the header, and then gives each block, in order, the messages its indices name, which it commits to |
| FetchMessages.CommitKeepsInv | chain/sync.go:1112-1115 | a chunk's write keeps: slots of finished chunks are written once and checked, others not at all |
| FetchMessages.ChunkLayout | chain/sync.go:1062-1080 | the chunks are of eight tipsets each, the last one of what is left, and every slot is in exactly the chunk that its number says |
| FetchMessages.FetchedExactlyOnce | chain/sync.go:1058-1134 | under every interleaving no slot is written twice; when all goroutines have ended, an error was recorded or every slot was written once with messages that pass for its own tipset |
| FetchMessages.Request | chain/sync.go:1083-1111 | how the retry loop ends: with the first answer that fits, with none, or past the end of one |
| FetchMessages.OutcomeIff | chain/sync.go:1083-1111 | it gives up exactly when every try failed or did not fit, runs past the end exactly when the first other answer is short and fits, and otherwise has an answer of full length that passes; never past the end of answers of full length |
| FetchMessages.FiveTries | chain/sync.go:1083-1111 | refused throughout means in each of five tries |
| FetchMessages.PartialAnswerFaults | chain/sync.go:1094-1097 | a request for two tipsets answered with one that fits runs past the end |
| FetchMessages.RunChunk | chain/sync.go:1070-1124 | one goroutine is one step of the concurrent system: its slots hold its answer and no other slot changes, or its request was refused throughout; or it runs past the end of an answer, and nothing is written |
| FetchMessages.FetchMessages | chain/sync.go:1058-1134 | in any order of chunks: runs past the end if and only if some chunk does, fails if and only if none does and some chunk is refused throughout, and otherwise returns for each chunk its first fitting answer, which passes for every tipset |
| IterFullTipsets.HandOver | chain/sync.go:995-1019 | a fetched header goes to the callback with its messages, and succeeds only if the callback and persisting both do |
| IterFullTipsets.DeliverBatch | chain/sync.go:995-1021 | pairs each header with the messages fetched for that header, from the end of the batch to its start, and stops at the first failure |
| IterFullTipsets.FetchBatch | chain/sync.go:978-1021 | fetches exactly the headers of the batch, at most 128, and hands them over |
| IterFullTipsets.Iterate | chain/sync.go:961-1027 | the callback runs once per header, oldest first, each with the messages that the store had or that were fetched and fit; on success it accepted every one and what was fetched was persisted; on failure it ran on a prefix of that and all calls before the last succeeded; without failures around it, it succeeds |
| IterFullTipsets.DeliveryDetermined | chain/sync.go:961-1027 | with an injective message root, two iterations over the same headers hand over the same messages block by block, whatever the stores held and the peers answered |
| Autobatch.NextKeepsInv | blockstore/autobatch.go:67-150 | every atomic step keeps: each added cid is in exactly one of buffered, flushing and flushed, list and map of a batch agree without repeats, flushed blocks are backed |
| Autobatch.RunInv | blockstore/autobatch.go:67-150 | that partition and the batch laws hold in every reachable state |
| Autobatch.StepIsMapStep | blockstore/autobatch.go:67-150 | the union of backing, flushing and buffered changes only at a put, as a plain map would |
| Autobatch.RunRefinesMap | blockstore/autobatch.go:67-150 | after any interleaving with any failures the store stands for the plain map that saw only the puts |
| Autobatch.GetLinearizes | blockstore/autobatch.go:172-200 | whatever happens between its three looks, Get answers as the plain map would at some moment during the call |
| Autobatch.GetFindsEarlierPut | blockstore/autobatch.go:172-200 | a block put before the locked look is found, with its data |
| Autobatch.FlushIsDurable | blockstore/autobatch.go:117-150 | a flush that clears its batch leaves every block put before its take step in the backing store, across any earlier failures and retries |
| AutobatchStore.AutobatchBlockstore.Put | blockstore/autobatch.go:67-88 | is one put step; the bytes counted are those of all blocks ever added, and the signal is given exactly when a block that was not there brings them to the capacity |
| AutobatchStore.AutobatchBlockstore.PutManyBacking | blockstore/autobatch.go:124-142 | writes any blocks of the batch in any order, mixed with other threads' puts, and fails, or writes all of it and succeeds |
| AutobatchStore.AutobatchBlockstore.Retry | blockstore/autobatch.go:117-129 | after a failed flush writes that batch again, and only then touches the backing store; an error is left exactly when that failed too |
| AutobatchStore.AutobatchBlockstore.DoFlush | blockstore/autobatch.go:117-150 | is a run of the step system; fails exactly when its retry or its own write fails; success without retryOnly backs every cid added before the call; with retryOnly what is buffered stays buffered, and nothing is written unless the last flush failed |
| AutobatchStore.AutobatchBlockstore.TryStep | blockstore/autobatch.go:67-150 | another thread's step is taken exactly when the step system allows it |
| AutobatchStore.AutobatchBlockstore.Get | blockstore/autobatch.go:172-200 | at any moment of a flush, with any steps of other threads between its looks, the answer is that of the plain map at some moment of the call; a cid ever added is found |
| AutobatchStore.ContentsGrow | blockstore/autobatch.go:67-150 | nothing ever leaves the contents |
| TimedCache.ReadableIff | blockstore/timed.go:88-156 | a block is read, as last put, exactly until two rotations have happened, and is active exactly until one has |
| TimedCache.UnputIsAbsent | blockstore/timed.go:127-166 | a hash never put, or not put since its deletion, is not found |
| TimedCache.Retention | blockstore/timed.go:16-24 | with a rotation per interval: readable at every time before one interval after the last put, gone at every time more than two intervals after it |
| TimedCache.RetentionAtInterval | blockstore/timed.go:16-24 | at exactly one interval the block is gone if and only if it was put at the instant of a rotation, before it, and the next but one rotation has just happened |
| TimedCache.GoneAtInterval | blockstore/timed.go:16-24 | a run on schedule in which a block is gone exactly one interval after its put |
| TimedCache.TimedCacheBlockstore.Rotate | blockstore/timed.go:88-94 | the active generation becomes the inactive one and the new active one is empty |
| TimedCache.TimedCacheBlockstore.Put | blockstore/timed.go:96-102 | the block goes into the active generation, even when the inactive one has it |
| TimedCache.TimedCacheBlockstore.Get | blockstore/timed.go:127-135 | the active generation first, then the inactive one |
| TimedCache.TimedCacheBlockstore.Has | blockstore/timed.go:147-156 | true exactly when Get finds a block |
| TimedCache.TimedCacheBlockstore.DeleteBlock | blockstore/timed.go:162-166 | removes the hash from both generations |
| TimedCache.TimedCacheBlockstore.AllKeys | blockstore/timed.go:174-191 | lists every multihash for which Has holds exactly once, and no other |
| Layers.HasAgreesWithGet | blockstore/buffered.go:118-162 | in every nesting without an empty union Has says yes, no or error exactly when Get finds, misses or fails |
| Layers.AgreementIff | blockstore/union.go:22-38 | Has and Get agree on all cids if and only if no union of zero stores is nested anywhere |
| Layers.GetIsSound | blockstore/buffered.go:118-128 | whatever is read is the content of the multihash asked for |
| Layers.HasAfterPut | blockstore/idstore.go:92-103 | after a put of a decodable cid exactly its multihash has been added, at any depth of layers |
| Layers.OthersUndisturbed | blockstore/union.go:58-65 | a put changes no read of another multihash, whether it succeeds or not |
| Layers.PutThenGet | blockstore/buffered.go:118-150 | put then get returns the block's data, under every cid with its multihash |
| Layers.HasAfterPutMany | blockstore/idstore.go:113-132 | after a PutMany of decodable cids exactly their multihashes have been added |
| Layers.PutManyIsPuts | blockstore/idstore.go:113-132 | no read can tell a PutMany of decodable cids from one Put after the other |
| Layers.SizeAgrees | blockstore/buffered.go:130-137 | over any nesting GetSize is the size of what Get returns for decodable cids of non-empty content, and for empty content or an undecodable cid held nowhere of what the store without its read sides returns |
| Layers.BufferedSizeIff | blockstore/buffered.go:130-137 | for every cid: above sides that are right, GetSize is the size of what Get returns if and only if the sides' answers fit |
| Layers.CalmSizes | blockstore/buffered.go:130-137 | if they fit at every buffered layer of a nesting, GetSize is right for it |
| Layers.SizesAgreeIff | blockstore/buffered.go:118-137 | for every cid and any nesting: a reported size is right, and GetSize agrees with Get if and only if asking the read sides first makes no difference |
| Layers.WrongSizes | blockstore/buffered.go:130-137 | an empty block and an undecodable cid for which GetSize says missing and Get does not |
| LayerLoops.MemBlockstore.Put | blockstore/mem.go:63-77 | the map changes at the block's multihash only |
| LayerLoops.MemBlockstore.PutMany | blockstore/mem.go:81-86 | the puts one after the other |
| LayerLoops.MemBlockstore.DeleteMany | blockstore/mem.go:25-30 | exactly the listed multihashes are gone and the others unchanged |
| LayerLoops.UnionHas | blockstore/union.go:22-29 | the first yes or error decides |
| LayerLoops.UnionGet | blockstore/union.go:31-38 | the first answer other than not-found decides, else the last one |
| LayerLoops.UnionPut | blockstore/union.go:58-65 | writes the stores in order up to the first failure |
| LayerLoops.PutEachReaches | blockstore/union.go:58-65 | a broadcast that fails at one store has written all before it and none after it |
| LayerLoops.UnionPutMany | blockstore/union.go:67-74 | writes the stores in order up to the first failure |
| LayerLoops.PutManyEachReaches | blockstore/union.go:67-74 | a PutMany that fails at one store has written all before it and none after it |
| LayerLoops.ToPut | blockstore/idstore.go:113-127 | fails exactly when some cid does not decode, else keeps exactly the items not inlined in their cid |
| LayerWrites.UnionPutReachesAll | blockstore/union.go:58-65 | after a put every single store of a union has exactly that multihash more |
| LayerWrites.UnionPutManyReachesAll | blockstore/union.go:67-74 | after a PutMany every single store of a union has exactly the given multihashes more |
| LayerWrites.FirstAnswerWins | blockstore/union.go:31-38 | the first store with an answer other than not-found answers for the union, else the last one |
| LayerWrites.FirstHolderWins | blockstore/union.go:22-29 | the first store that says yes or fails answers Has for the union |
| LayerWrites.BufferedPut | blockstore/buffered.go:139-150 | a put never writes the read side; it changes nothing when the read side has the block, fails when that cannot tell, and else the write side has exactly that multihash more |
| LayerWrites.BufferedPutMany | blockstore/buffered.go:169-171 | a PutMany goes to the write side whole, whatever the read side has |
| LayerWrites.WriteSideFirst | blockstore/buffered.go:118-162 | the write side answers Get and Has unless it has nothing |
| LayerWrites.IdAnswers | blockstore/idstore.go:23-77 | for an identity hash the answers come from the cid alone, an error if it does not decode; for any other cid they are those of the inner store |
| LayerWrites.IdPut | blockstore/idstore.go:92-103 | an inlined block is not stored, an undecodable cid is refused, any other block goes to the inner store |
| LayerWrites.IdPutMany | blockstore/idstore.go:113-132 | with an undecodable cid nothing is stored; else the inner store has exactly the multihashes that are not inlined more |
| LayerWrites.MemPutReplaces | blockstore/mem.go:63-77 | a basic block replaces what is there, any other does not |
| Cbor.HeaderRoundTrip | api/cbor_gen.go:195-256 | a header followed by anything reads back, and what follows is left |
| Cbor.HeaderCanonical | api/cbor_gen.go:258-349 | the header reader accepts nothing but what the header writer writes |
| Cbor.IntRoundTrip | api/cbor_gen.go:1131-1287 | every int64 reads back, the least one included, with the source's wrapping arithmetic |
| Cbor.UnmarshalMap | api/cbor_gen.go:258-349 | the loop over map entries computes the specified reader |
| Cbor.MapRoundTrip | api/cbor_gen.go:258-349 | a map of distinct handled fields reads back as the fold of its entries |
| Cbor.MapOrderIrrelevant | api/cbor_gen.go:258-349 | whatever the order of its entries, a well-formed map reads back as the same struct |
| Cbor.AnyOrderAnyExtras | api/cbor_gen.go:258-349 | unknown fields between the known ones, in any order, do not change what is read |
| CborStructs.RefRoundTrip | api/cbor_gen.go:195-349 | decoding an encoded SealedRef followed by anything returns it and what follows |
| CborStructs.RefAnyOrder | api/cbor_gen.go:195-349 | so does decoding its fields in any order with unknown fields among them |
| CborStructs.RefUnknownField | api/cbor_gen.go:342-345 | in particular with any field the struct does not have, at any place |
| CborStructs.RefsRoundTrip | api/cbor_gen.go:350-464 | a SealedRefs is written exactly when its list is within the limit, and then reads back with its nested list |
| CborStructs.RefsAnyOrder | api/cbor_gen.go:350-464 | so does decoding it with unknown fields in any order |
| CborStructs.SealingRoundTrip | api/cbor_gen.go:465-774 | SealTicket and SealSeed, which have the same fields: written exactly when the value is within the limit, and then read back |
| CborStructs.SealingAnyOrder | api/cbor_gen.go:465-774 | the same for any order of fields with unknown ones among them |
| CborStructs.ScheduleRoundTrip | api/cbor_gen.go:1131-1287 | a DealSchedule reads back, for all int64 epochs |
| CborStructs.ScheduleAnyOrder | api/cbor_gen.go:1131-1287 | the same for any order of fields with unknown ones among them |
| CborPieces.InfoRoundTrip | api/cbor_gen.go:775-1007 | a PieceDealInfo reads back, with nil pointers and the nested schedule |
| CborPieces.InfoAnyOrder | api/cbor_gen.go:775-1007 | the same for any order of fields with unknown ones among them |
| CborPieces.PieceRoundTrip | api/cbor_gen.go:1008-1130 | a SectorPiece reads back through three levels of nesting, with its deal info or nil |
| CborPieces.PieceAnyOrder | api/cbor_gen.go:1008-1130 | the same for any order of fields with unknown ones among them |
| CborWire.HeaderOnWire | api/cbor_gen.go:195-256 | the bytes of every header: the major type times 32 plus the argument or its size code, then the argument in 1, 2, 4 or 8 base-256 digits, most significant first |
| CborWire.NumbersOnWire | api/cbor_gen.go:1149-1187 | unsigned integers are major type 0, negative ones major type 1 with argument -1 - e |
| CborWire.StringsOnWire | api/cbor_gen.go:350-524 | byte strings are major type 2, text strings 3, arrays 4, maps 5, each with its length |
| CborWire.ListOnWire | api/cbor_gen.go:376-386 | a list is written element by element, first to last |
| CborWire.NumbersAccepted | api/cbor_gen.go:1230-1280 | the readers of numbers accept nothing but these bytes for the number they return |
| CborWire.StringsAccepted | api/cbor_gen.go:283-300 | so do those of booleans and strings, and a string is within its limit |
| CborWire.MapAccepted | api/cbor_gen.go:258-285 | a struct is read from a map of at most 8192 entries and nothing else |
| CborWire.ListAccepted | api/cbor_gen.go:426-455 | a list field is read from an array of at most 8192 items and nothing else |
| CborWire.BytesAccepted | api/cbor_gen.go:562-584 | bytes are read from a byte string of at most 2097152 and nothing else |
| CborWire.RefOnWire | api/cbor_gen.go:195-256 | the bytes of a SealedRef: 0xa3, then its three names, spelled out in bytes, each followed by its number |
| CborWire.RefExample | api/cbor_gen.go:195-256 | one SealedRef, byte for byte |
| CborWire.RefsOnWire | api/cbor_gen.go:350-387 | the bytes of a SealedRefs, and that more than 8192 items are not written |
| CborWire.SealingOnWire | api/cbor_gen.go:465-523 | the bytes of a SealTicket or SealSeed, and that more than 2097152 bytes are not written |
| CborWire.ScheduleOnWire | api/cbor_gen.go:1131-1187 | the bytes of a DealSchedule |
| CborWire.InfoOnWire | api/cbor_gen.go:775-873 | the bytes of a PieceDealInfo, with 0xf6 for a nil pointer |
| CborWire.PieceOnWire | api/cbor_gen.go:1008-1052 | the bytes of a SectorPiece |
| CborWire.RefsTwice | api/cbor_gen.go:426-455 | a list that comes twice is the second one, unless that is empty |
| CborWire.ValueTwice | api/cbor_gen.go:562-584 | bytes that come twice are the second ones, but an empty second string is replaced by what follows the struct |
| CborWire.PointerTwice | api/cbor_gen.go:1100-1120 | a pointer that comes twice is the second one, unless that is null |

## Left out

- Coalescing of tipsets in a bucket, which is off by default.
- The history of ended workers, State(), stages, metrics, logging, and the stopping of the scheduler.
- Wrap-around of the uint64 worker counter: ids are unbounded.
- Aliasing of buckets and batches: they are values held by the objects that own them, so sharing of a backing array between slices is not captured.
- Eviction from the bad-block cache: the deny list is a map during a call.
- collectHeaders with incoming equal to known, which fails on an empty slice in the source.
- persistMessages and copyBlockstore: outcomes of the environment in IterFullTipsets.
- The chain store, the exchange client, consensus validation and the VM are not part of this model; they enter through the contracts under Assumptions.
- Shutdown of the write-back store and its flush worker loop: any sequence of flush calls is covered, when they are made is not.
- Errors other than not-found from the backing store of the write-back store on reads.
- Stores below a layer are values in a tree: a store reachable through two layers, and updates through one that show in the other, are not captured.
- View, HashOnRead, AllKeysChan of the layered stores, DeleteBlock and DeleteMany of the identity, buffered and union stores: the same dispatch as the reads and writes modelled.
- The switch that makes the buffered store write to its read store (LOTUS_DISABLE_VM_BUF).
- TimedCache: blocks are basic blocks; the ticker is an event, its punctuality a condition of Retention.
- The PaymentInfo codec and the codecs of other packages; ScanForLinks is any function that moves past an item.
- Marshalling writes to a byte sequence: errors of the writer, and the distinction between end of file and unexpected end of file, are not modelled.
- Duplicate map keys: laws are stated for the fields whose second reading depends on the first, one of each kind; any other field is read anew.

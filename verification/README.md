# Verified model of the camera media server

The repository moves camera video through a node: RTSP ingest turns RTP packets into pooled, reference-counted
packets; one pump per stream fans them out to viewers, recorders, an HLS segmenter and relays; around that
stand a single-flight idempotency cache, session leases, a two-tier permission cache, user sessions and a
protocol registry. This project models those parts in Dafny and proves what they are for: over every input,
over every run, and for the stream pipeline, the idempotency cache, the layered permission store and the lease
store over every interleaving of the calls that share them.

`dafny verify dfyconfig.toml` checks the whole project. Nothing here executes the server.

| file | what it models |
|---|---|
| Options, Packets, Sequences, Bytes | shared values: optional results, packet contents, subsequences, big-endian numbers |
| Pipeline | ingest channel, pump, subscribers and close as atomic steps over any kind of packet; who holds a packet |
| Memory, Fanout, FanoutTrace | the packet heap with reference counts and the pool; all goroutines interleaved; the main results, and what the moves of a run say by themselves |
| Values, Refinement | the same pipeline passing values, its delivery record, and the mapping from pointers to values |
| Objects, LiveStream | the packet, pool, subscriber and stream objects, updated in place, against those steps |
| Flv, FlvReader, Hls, H264, Ingest | FLV writer and reader, the HLS window, H.264 framing, the RTP video callback and clocks |
| Idempotency, DoTrace, IdempotencyStore | the single-flight cache as a concurrent machine, the story of one call, and the table as an object |
| Rbac, RbacRuns, RbacTrace | both permission stores and warming; layered writes and warmings of many requests, cut between the tiers; what the moves say about every table |
| RbacStores, AuthService | the permission stores as objects, with failing Redis writes and reads; role updates |
| Accounts, AccountStore | users and sessions, and their store as objects |
| Registry | validation, three indexes, order, negotiation |
| Lease, LeaseRuns | signed tokens, renewal and the memory store; overlapping calls of Issue and Reattach |

How it is put together:

- The pipeline's control is one machine (`Pipeline`) that never looks into a packet. Run over pointers with a
  heap it is the zero-copy pipeline (`Fanout`); run over contents it is a pipeline that copies (`Values`). As the
  steps are the same, every run of the first is a run of the second with contents read through the pointers,
  and delivery is proved once, on the second. The stream object stands where such a run ends, whatever methods
  are called on it.
- An object whose methods update fields is a class, and each method's contract gives the new state as a function
  of the old one; the properties over runs are lemmas about those functions.
- In `Fanout`, `Idempotency`, `RbacRuns` and `LeaseRuns` calls overlap: a call is cut between the operations by
  which it touches what it shares (a lock, a channel, a Redis command, a store access), and the runs quantified
  over are sequences of such pieces. The methods of `LiveStream`, `RbacStores`, `AuthService` and `LeaseService`
  describe a call that meets no other.

- Machines and objects share step functions, so what a step does is also stated without them: by the moves of a run
  and their positions, as folds over the moves, or by explicit bytes and conditions (`FanoutTrace`, `DoTrace`,
  `RbacTrace`, the last sections of `Accounts`, `Ingest` and `LeaseRuns`).

Where the code differs from its comments or from what one would expect, the model follows the code:

- The frame builders call the composition time "already zero" (`internal/rtsp/ingester.go:382`,
  `internal/rtsp/ingester.go:445`), but the pool hands out old buffers. `H264.BuildVideoFrame` states what those
  bytes are: zeros in a new buffer, the old bytes in a reused one.
- The permission cache writes Redis and then memory without a lock across the two
  (`internal/auth/rbac_layered.go:55-88`). Memory can then grant what Redis does not: after overlapping requests
  (`RbacRuns.OverlapOvergrants`), a lost removal (`RbacRuns.LostRemovalOvergrants`), a renaming
  (`RbacRuns.RenamingOvergrants`, `RbacRuns.LostRenameOvergrants`) or a warming after one
  (`RbacRuns.StaleRecallOvergrants`). `RbacRuns.GrantsBreakExactly` and `RbacRuns.RolesBreakExactly` say for every
  move exactly when it does so, and `RbacRuns.LeftOverExactly` and `RbacRuns.SettledExactly` for every run which
  writes' halves leave a user a role.
- A role update passes over failed removals, and removes only roles that memory knows of
  (`internal/auth/service.go:353-355`): `AuthService.Service.UpdateUserRoles` gives the roles left in both stores, and
  `AuthService.ReplacedExactly` when those are exactly the named ones.
- A lease's end moves back exactly when a renewal was overtaken by one that read the clock later
  (`LeaseRuns.ShortensExactly`, run: `LeaseRuns.OverlapShortens`), and a removed lease returns exactly when a renewal
  did Get before and Save after an access past its end (`LeaseRuns.ReturnsExactly`, run:
  `LeaseRuns.RemovedLeaseReturns`). A skew under a second can end a lease early (`LeaseRuns.SkewNeeded`, run:
  `LeaseRuns.ShortSkewCutsALease`).
- Audio milliseconds are right for all 32-bit offsets exactly when the sample rate is at least 1000
  (`Ingest.AudioClock`).

Assumptions: clocks do not run backward within a process; ids from the UUID generator never repeat; claims
encode and decode faithfully and the token alphabet has no dot (`Leases.Sound`); writes to HLS segments succeed; a
Redis write is done, refused, or done with its reply lost.

## Model

| member | source | states |
|---|---|---|
| Pipeline.Ledger | internal/stream/fanout.go:59-159 | conservation: across any step, a packet's slots after plus releases equal its slots before plus retains plus what came in |
| Memory.ApplyCounts | internal/stream/types.go:74-84 | releases and retains in source order change each count by exactly their number, never touch a dead packet, and pool a packet exactly at zero |
| Refinement.ViewStep | internal/stream/fanout.go:59-159 | a pipeline step on pointers, seen through memory, is the same step on contents |
| Fanout.KeepsInv | internal/stream/types.go:29-84 | every move of every goroutine keeps each reference count equal to the number of holders |
| Fanout.CountsAreHolders | internal/stream/types.go:29-84 | in every reachable state refs is the number of holders, a packet is pooled exactly when it has none, an abandoned one is never reused |
| Fanout.ReferencesAreLive | internal/stream/types.go:75-84 | every retain and release a reachable state can take finds a live reference, so no count passes below zero |
| Fanout.QuiescentPoolIsFull | internal/stream/fanout.go:59-103 | once queues drain and caches close, the pool holds exactly the packets that were not abandoned |
| Fanout.PooledRefinesValues | internal/stream/fanout.go:59-103 | every run of the pooled pipeline is a run of the value-passing one, ending in the same queues, caches and record |
| Fanout.WrittenInIngestOrder | internal/stream/fanout.go:59-103 | what any subscriber wrote with success is a subsequence of what was ingested, byte for byte; every other packet it consumed was a failure or released by the final drain |
| Fanout.ViewerDropsAreFailures | internal/subscriber/livestream.go:55-61 | a viewer's drop counter is the number of packets its callback failed on |
| Fanout.ChannelAccounts | internal/subscriber/storage.go:62-132 | for a channel subscriber, due = consumed + in hand + queued + dropped + about to be offered, and waiting packets keep their bytes |
| Fanout.CacheIsLatestGroup | internal/subscriber/livestream.go:94-120 | a viewer's cache is the newest 256 packets since its latest video keyframe (or its last close) |
| FanoutTrace.AbandonedExactly | internal/stream/fanout.go:91-103 | in every run a packet is abandoned if and only if its check came after closing began or its send found 64 packets waiting |
| FanoutTrace.SentExactly | internal/stream/fanout.go:91-103 | what entered the stream is exactly what producers filled into the packets whose sends found room, in order |
| FanoutTrace.NothingIsLost | internal/stream/fanout.go:91-103 | a run that does not begin to close and never fills the channel abandons nothing, and every send enters in order |
| FanoutTrace.SubscribersAsTold | internal/subscriber/storage.go:79-132 | who is attached, who has left its loop, and which consumed packets were written, told by the moves |
| FanoutTrace.CacheAsTold | internal/subscriber/livestream.go:94-120 | told by the moves: a viewer's cache is the latest group of what it was given since its last close; a subscriber was due exactly the packets whose round found it attached |
| FanoutTrace.RoundIsOverTheAttached | internal/stream/fanout.go:66-72 | the pump goes round exactly the subscribers attached when it gets the lock |
| FanoutTrace.OfferedExactly | internal/subscriber/storage.go:62-69 | an offered packet is queued last if and only if the channel (512, 512, 256 or 128 places) has room, else counted as dropped; no other subscriber is touched |
| Values.GopByPositions | internal/subscriber/livestream.go:94-120 | the cache by positions: at most 256 newest, no later video keyframe, and begun by one unless cut or at the start |
| Values.GopGrows | internal/subscriber/livestream.go:94-120 | one cache update turns the latest group of a history into the latest group of the history with that packet |
| Values.Keeps | internal/stream/fanout.go:59-159 | every step keeps the delivery record true for every subscriber |
| LiveStream.Stream.KeepsTheRecord | internal/stream/fanout.go:59-159 | a stream object, whatever methods were called on it, stands where a run of the pipeline ends, and the pipeline's invariant holds of it |
| LiveStream.Stream.Ingest | internal/stream/fanout.go:91-103 | appended to the channel, or abandoned exactly when the stream is closed or the channel is full |
| LiveStream.Stream.AddSubscriber | internal/stream/fanout.go:105-114 | attaches under the subscriber's id, replacing another without closing it |
| LiveStream.Stream.RemoveSubscriber | internal/stream/fanout.go:116-129 | the subscriber of that id is closed and detached, every other left alone |
| LiveStream.Stream.PumpOnce | internal/stream/fanout.go:62-73 | one round gives the packet exactly once to every attached subscriber and leaves every other alone; caches reset exactly on video keyframes |
| LiveStream.Stream.FanOut | internal/stream/fanout.go:67-72 | the loop delivers once to each subscriber found under the lock |
| LiveStream.Stream.Close | internal/stream/fanout.go:141-159 | the first call closes every attached subscriber (empties a viewer's cache, closes a channel subscriber's done) and detaches all; later calls change nothing |
| Objects.PacketPool.NewAVPacket | internal/stream/types.go:29-42 | a packet with one reference and size bytes: zeros when the buffer is new, the old bytes when it is reused |
| Objects.PacketPool.Release | internal/stream/types.go:80-84 | one reference less; back in the pool exactly at zero |
| Objects.LivestreamSubscriber.UpdateGOP | internal/subscriber/livestream.go:94-120 | the cache changes as the pipeline's offer step; every reference that is not the cache's stays |
| Objects.LivestreamSubscriber.Close | internal/subscriber/livestream.go:63-70 | each cached reference released once, no other; nothing left for a second Close to release |
| Objects.LivestreamSubscriber.Deliver | internal/subscriber/livestream.go:55-61 | caches, shows the callback the packet as it is or counts its failure, and gives up exactly the caller's reference |
| Objects.ChannelSubscriber.Deliver | internal/subscriber/storage.go:62-69 | queues and keeps the caller's reference, or when full counts a drop and releases it |
| Objects.ChannelSubscriber.Close | internal/subscriber/storage.go:71-77 | done is closed, once however often it is called |
| Objects.ChannelSubscriber.TakeAndRelease | internal/subscriber/relay.go:79-109 | takes the oldest packet, writes it unless draining, releases it; a relay leaves its loop on a failed write: the pipeline's Recv and Process steps |
| Objects.ChannelSubscriber.Drain | internal/subscriber/storage.go:79-90 | on exit everything still queued is released once, in order, and nothing else |
| Flv.TagRoundTrip | internal/flv/writer.go:47-78 | a written tag reads back as its packet, leaving what followed, if and only if the payload fits 24 bits |
| Flv.FileRoundTrip | internal/flv/reader.go:19-72 | a written file reads back as its packets and a clean end, if and only if every payload fits |
| Flv.Truncation | internal/flv/reader.go:32-72 | cut anywhere after its header, a file yields exactly the packets wholly before the cut, with a bare EOF exactly on a tag boundary |
| Flv.TruncatedHeader | internal/flv/reader.go:19-30 | a file cut inside its header is refused, never as a clean end |
| Flv.HeaderExactly | internal/flv/reader.go:19-28 | a source has a header if and only if it has 13 bytes that begin with FLV; else which error |
| Flv.TagFailsExactly | internal/flv/reader.go:32-72 | how reading a tag fails or what it takes, from what is left and the size claimed |
| Flv.BackwardWalk | internal/flv/writer.go:47-78 | PreviousTagSize walked from the end back finds the boundaries written forward |
| Flv.Writer.WriteFileHeader | internal/flv/writer.go:30-45 | appends the 13 header bytes |
| Flv.Writer.WriteTag | internal/flv/writer.go:47-78 | appends exactly the tag of the packet |
| FlvReader.Reader.NewReader | internal/flv/reader.go:19-28 | consumes the 13-byte header, or refuses a short or foreign one with its error |
| FlvReader.Reader.Next | internal/flv/reader.go:32-72 | a pooled packet with one reference, exactly the decoded tag; or the error, with every packet taken from the pool back in it |
| Hls.NamesAreFiles | internal/subscriber/hls.go:112-117 | the model's names are one to one with file names, none is the playlist's, and different indices have different names |
| Hls.RunKeepsWindow | internal/subscriber/hls.go:87-195 | over every run the listed segments are the window, the files on disk are the window and the open segment, each with exactly its packets, and other files are untouched |
| Hls.FilesAreTheWindow | internal/subscriber/hls.go:87-195 | from an empty directory, after t ticks, the files are exactly the newest finished segments, at most maxSegments, and the open one |
| Hls.PlaylistExactly | internal/subscriber/hls.go:168-195 | the playlist lists exactly those finished segments, oldest first, and on close the last one too |
| Hls.PlaylistIsServable | internal/subscriber/hls.go:168-195 | the playlist is consecutive, at most maxSegments long (one more on close), and every entry exists |
| Hls.SegmentsHoldTheStream | internal/subscriber/hls.go:152-166 | segments in order are the dequeued packets, and each segment on disk reads back as its share |
| Hls.HlsSubscriber.Rotate | internal/subscriber/hls.go:168-183 | the ticker case moves the window by one as the step function says |
| Hls.HlsSubscriber.Run | internal/subscriber/hls.go:152-195 | the loop's state is the run's state, with the window invariant, and it stops at Done |
| H264.AvccRoundTrip | internal/rtsp/ingester.go:447-453 | length-prefixed units parse back, in order, if and only if every length fits 32 bits |
| H264.FilterOrder | internal/rtsp/ingester.go:410-424 | the carried units are a subsequence of the access unit |
| H264.FilterCounts | internal/rtsp/ingester.go:410-424 | every non-empty unit whose low five bits are not 7, 8 or 9 is carried as often as it occurs, no other ever |
| H264.ConfigRoundTrip | internal/rtsp/ingester.go:387-401 | the configuration record decodes to its SPS and PPS if and only if both fit 16-bit lengths |
| H264.FrameDecodes | internal/rtsp/ingester.go:403-455 | a frame body decodes to exactly its carried units, is marked AVC, and is a keyframe, in FLV too, if and only if a unit has type 5 |
| H264.HeaderDecodes | internal/rtsp/ingester.go:370-385 | a sequence header decodes to exactly its SPS and PPS |
| H264.BuildVideoFrame | internal/rtsp/ingester.go:409-455 | nil if and only if no unit is carried; else the buffer is filled exactly by the frame; keyframe if and only if a unit has type 5; composition-time bytes as left in the buffer |
| H264.BuildVideoSeqHeader | internal/rtsp/ingester.go:374-385 | the packet is exactly a sequence header for the SPS and PPS |
| Ingest.VideoClock | internal/rtsp/ingester.go:281-288 | video milliseconds are the floor of true time across 32-bit wrap, under 1 ms behind, never backward |
| Ingest.AudioClock | internal/rtsp/ingester.go:321-326 | audio milliseconds are the floor of true time for all offsets if and only if the rate is at least 1000 |
| Ingest.AudioNeverRunsBackward | internal/rtsp/ingester.go:321-326 | with such a rate the audio clock is under 1 ms behind and nondecreasing |
| Ingest.ExtractSPSPPS | internal/rtsp/ingester.go:486-499 | the unit of type 7, and of type 8, after which there is no other, wherever it stands; none if and only if there is none |
| Ingest.DecoderIsConfigured | internal/rtsp/ingester.go:217-290 | at every point of every run, with the last units of types 7 and 8 received so far (else the session description's) complete, the last sequence header decodes to exactly them |
| Ingest.InForceByPositions | internal/rtsp/ingester.go:260-268 | there is always such a set in force, and OneInForce says only one |
| Ingest.HeaderPrecedesFrame | internal/rtsp/ingester.go:248-290 | that header is out before the frame, also of the same access unit |
| Ingest.OutputsExactly | internal/rtsp/ingester.go:248-290 | an access unit brings a header if and only if it has a unit of type 7 or 8 and the sets are complete, a frame if and only if it has a unit to carry, nothing else |
| Ingest.FramesAreTimed | internal/rtsp/ingester.go:276-289 | every frame carries the milliseconds since the first frame's RTP timestamp, wrap included |
| Ingest.VideoTrack.constructor | internal/rtsp/ingester.go:217-224 | the session description's parameter sets, when complete, are announced before any frame |
| Ingest.VideoTrack.OnAccessUnit | internal/rtsp/ingester.go:248-290 | the callback is a step of the track relation |
| Idempotency.SingleFlight | internal/ha/idempotency.go:51-161 | in every interleaving a pending mapped entry has exactly one producer, a producer's entry is current, and a waiter waits on a closed channel or a current pending entry |
| Idempotency.OneProducerPerKey | internal/ha/idempotency.go:51-79 | no key is produced twice at once |
| Idempotency.FinalizeFindsItsEntry | internal/ha/idempotency.go:138-161 | finalizing always finds its own entry current and its channel open, so the stale return is dead and each channel closes once |
| Idempotency.ProducersAreSpacedOut | internal/ha/idempotency.go:90-161 | a later producer of a key starts at least ttl after the earlier success, unless that was evicted or failed |
| Idempotency.SuccessWasProduced | internal/ha/idempotency.go:138-161 | every successful entry holds the response of a producer that finalized it |
| Idempotency.ReplayIsAFreshSuccess | internal/ha/idempotency.go:60-66 | every replay is the response of a producer that succeeded less than ttl earlier, and carries no error |
| Idempotency.CapacityOverRuns | internal/ha/idempotency.go:90-202 | after each insertion the table is within capacity or all pending, no pending entry was lost, no ready survivor is older than a victim |
| Idempotency.PrepareOnTable | internal/ha/idempotency.go:90-119 | an inserting call takes the expired entries out, puts its pending one in, then evicts: what the object's PrepareEntry does |
| Idempotency.PrepareFinds | internal/ha/idempotency.go:100-109 | any other call takes the expired entries out and replays the live success or waits for the pending entry it finds |
| Idempotency.FinalizeOnTable | internal/ha/idempotency.go:138-161 | in every reachable state finalizing drops the failed entry or makes it a success for ttl: what the object's FinalizeEntry does |
| Idempotency.EvictionPossible | internal/ha/idempotency.go:179-202 | from every table the eviction loop can finish |
| Idempotency.EvictionSize | internal/ha/idempotency.go:179-202 | how many entries go: the excess, or every ready one when that is not enough |
| Idempotency.NobodyIsStuck | internal/ha/idempotency.go:51-79 | every call can move, or waits for a producer that can |
| DoTrace.CallsAsTold | internal/ha/idempotency.go:51-80 | in every run every call stands where its own moves brought it: its key, the clock it read, what its producer brought |
| DoTrace.CallEndsAsTold | internal/ha/idempotency.go:60-78 | the producer's caller gets what its last Produce brought, failure or success; a replay is for its key at its own clock reading; a cancellation is its own last move's |
| DoTrace.CallStandsAsTold | internal/ha/idempotency.go:59-79 | what follows a Finalize, a Reply, a Cancel and a Wake |
| DoTrace.ReplayAge | internal/ha/idempotency.go:121-127 | a replay's response succeeded less than ttl before the call's own clock reading |
| DoTrace.CollectsExactly | internal/ha/idempotency.go:90-119 | each prepareEntry clears exactly the ready entries past their end at its clock reading, beside victims of capacity |
| DoTrace.ProducersWaitTheirTurn | internal/ha/idempotency.go:90-161 | by moves: a producer is let go only after the earlier one of its key was finalized, and a ttl later unless that failed or the key was evicted |
| SingleFlightStore.IdempotencyStore.Collect | internal/ha/idempotency.go:171-177 | removes exactly the expired ready entries |
| SingleFlightStore.IdempotencyStore.EnforceMaxKeys | internal/ha/idempotency.go:179-202 | the nested loop performs a finished eviction |
| SingleFlightStore.IdempotencyStore.PrepareEntry | internal/ha/idempotency.go:90-119 | replays a live success, waits for a pending entry, or inserts its own and evicts |
| SingleFlightStore.IdempotencyStore.FinalizeEntry | internal/ha/idempotency.go:138-161 | nothing for a stale entry; else one close, a failure leaves the table, a success stays for ttl |
| Rbac.WarmedCacheIsExact | internal/auth/rbac_store.go:198-220 | warming an empty L1 gives each listed role exactly L2's non-empty resolved names, duplicates included, and no user any permission |
| RbacRuns.WholeWrite | internal/auth/rbac_layered.go:55-88 | a write that meets no other is its Redis move and its memory move |
| RbacRuns.WholeWarming | internal/auth/rbac_store.go:198-220 | a warming that meets no other, on any answers, is a run of the machine's moves |
| RbacRuns.RunConsistent | internal/auth/rbac_store.go:73-170 | ids, names and listings of both stores agree in every run, whatever overlaps or fails |
| RbacTrace.MemoryHoldsTheLast | internal/auth/rbac_store.go:73-104 | in every run L1's tables of roles and permissions, by name and by id, hold exactly what was last applied since the last restart |
| RbacTrace.RoleNameKnownExactly | internal/auth/rbac_store.go:98-111 | by positions: a role name is known if and only if a role of that name was applied since the last restart, and leads to the last such role |
| RbacTrace.RedisHoldsTheLast | internal/auth/rbac_redis.go:41-142 | Redis lists and holds a role or permission if and only if a save of its id reached it, with the last value; role permissions likewise |
| RbacTrace.RoleHasExactly | internal/auth/rbac_store.go:123-138 | a role has a name in L1 if and only if some move since the last restart gave it |
| RbacRuns.ShownExactly | internal/auth/rbac_store.go:150-170 | a user has a role in L1 if and only if an assignment was applied and no removal or restart since |
| RbacRuns.GoneExactly | internal/auth/rbac_redis.go:163-169 | a user lacks a role in Redis if and only if none was assigned, or a removal reached it and no assignment since |
| RbacRuns.RolesBreakExactly | internal/auth/rbac_layered.go:55-74 | a move keeps each role's L1 names within those L2 resolves if and only if it neither orphans a name in L2 nor gives a role, in L1, a name L2 does not resolve for it |
| RbacRuns.RolesContainedThroughout | internal/auth/rbac_layered.go:55-74 | over runs: contained throughout if and only if no move broke it |
| RbacRuns.GrantsBreakExactly | internal/auth/rbac_layered.go:55-88 | a move keeps what L1 grants any user within what L2 grants if and only if it is none of the listed ones: exact for saves, removals, assignments of both kinds and warmed names |
| RbacRuns.GrantsContainedThroughout | internal/auth/rbac_layered.go:55-88 | over runs: L1 never grants more than L2 if and only if no move broke that |
| RbacRuns.NamesContained | internal/auth/rbac_layered.go:55-74 | without renaming, each role's L1 names are L2's in every state, whatever overlaps, fails or restarts |
| RbacRuns.LeftOverExactly | internal/auth/rbac_layered.go:76-88 | in every state of every run, L1 gives a user a role that L2 does not if and only if an assignment's halves and a later removal's L2 half leave it over |
| RbacRuns.SettledExactly | internal/auth/rbac_layered.go:76-88 | with nothing under way that is so if and only if the removal's reply was lost or the two writes reached L1 in the reverse of their L2 order |
| RbacRuns.OvergrantIsLeftOver | internal/auth/rbac_layered.go:55-88 | without renaming, any overgrant comes from such a left-over role |
| RbacRuns.CacheNeverOvergrants | internal/auth/rbac_layered.go:55-88 | without renaming, lost removals and reversed writes, whenever nothing is under way what L1 grants L2 grants |
| RbacRuns.OverlapOvergrants | internal/auth/rbac_layered.go:76-88 | a run of two overlapping requests, nothing failing, that ends with an overgrant |
| RbacRuns.LostRemovalOvergrants | internal/auth/rbac_layered.go:83-88 | such a run with one lost removal |
| RbacRuns.RenamingOvergrants | internal/auth/rbac_store.go:73-79 | such a run with one renaming |
| RbacRuns.LostRenameOvergrants | internal/auth/rbac_layered.go:55-74 | such a run in which no save orphans a name |
| RbacRuns.StaleRecallOvergrants | internal/auth/rbac_store.go:206-217 | such a run through a warming |
| RbacStores.InMemRBACStore.UserHasPermission | internal/auth/rbac_store.go:185-194 | true exactly when some role of the user has the permission |
| RbacStores.InMemRBACStore.WarmFrom | internal/auth/rbac_store.go:198-220 | the loops do what the warming function says |
| RbacStores.RedisRBACStore.RolePermissionNames | internal/auth/rbac_redis.go:146-159 | exactly the non-empty names of the role's permission ids that could be read |
| RbacStores.RedisRBACStore.UserHasPermission | internal/auth/rbac_redis.go:195-213 | true exactly when some readable id of some readable role resolves to the permission: never without a grant, and exact when no read fails |
| RbacStores.LayeredRBACStore.WriteMem | internal/auth/rbac_layered.go:55-88 | the second half of a write, as the machine's memory move |
| RbacStores.LayeredRBACStore.Write | internal/auth/rbac_layered.go:55-88 | L2 first, L1 only after L2 reported success; success reported exactly when both took it |
| RbacStores.LayeredRBACStore.WarmFrom | internal/auth/rbac_layered.go:92-99 | warms L1 with what L2 answers: all it holds when no read fails, else a part |
| AuthService.Service.GetSessionInfo | internal/auth/service.go:227-248 | the permissions reported are exactly those for which the permission check is true |
| AuthService.Service.UpdateUserRoles | internal/auth/service.go:342-379 | from any run of the store: role not found if and only if the user is known and some name has had no role applied since the last restart; the user's roles in both stores on success and on a failed assignment; with nothing kept, exactly the named roles' permissions; no other user is affected |
| AuthService.ReplacedExactly | internal/auth/service.go:352-361 | after a success, each store has exactly the named roles if and only if what it kept is among them |
| AuthService.Service.DeleteUser | internal/auth/service.go:329-339 | the user's roles left in both stores, then the user deleted from both indexes if it exists |
| Accounts.IndexesAgree | internal/auth/store.go:26-71 | in every run the name index and the id index are mutually inverse |
| Accounts.AddKeepsInverse | internal/auth/store.go:26-35 | adding keeps them inverse if and only if the name is taken or the id is not in use |
| Accounts.CreatedExactly | internal/auth/store.go:26-71 | after a creation both indexes hold exactly that user if and only if the name was free and the user not deleted since |
| Accounts.NamesHeldExactly | internal/auth/store.go:26-42 | the name index leads to whoever was created under the name while free and not deleted since |
| Accounts.HolderByPositions | internal/auth/store.go:26-71 | and which operation that was |
| Accounts.RejectionIsPermanent | internal/auth/service.go:195-224 | a session that is logged out, expired or without its user is rejected in every later state |
| Accounts.RevocationIsPermanent | internal/auth/service.go:195-224 | after a logout, a user deletion or the lifetime, an issued session is rejected for ever |
| Accounts.AcceptedExactlyWhile | internal/auth/service.go:154-224 | told by the operations alone: a token is accepted if and only if its user was created under a free name, is active, logged in with the right password, was not deleted, the token not logged out, and its lifetime not over; expired and invalid exactly otherwise |
| AccountStore.Store.AddUser | internal/auth/store.go:26-35 | refuses a taken name, else fills both indexes |
| AccountStore.Store.DeleteUser | internal/auth/store.go:61-71 | removes the user from both indexes, or reports that there is none |
| AccountStore.Store.InvalidateToken | internal/auth/store.go:86-96 | marks the session in place, true the first time only |
| AccountStore.Store.Validate | internal/auth/service.go:195-218 | the verdict on a verified token id, with its error cases |
| Registry.OneRegistry | internal/protocol/taxonomy.go:257-282 | registries of the same adapters in any order are equal: lookups and per-class order |
| Registry.AcceptanceIgnoresOrder | internal/protocol/taxonomy.go:257-304 | whether a list of adapters is accepted does not depend on its order |
| Registry.ValidExactly | internal/protocol/taxonomy.go:142-162 | exactly which adapters are valid |
| Registry.OneOrder | internal/protocol/taxonomy.go:270-279 | a class has one listing that increases by priority, then id |
| Registry.ProtocolRegistry.Register | internal/protocol/taxonomy.go:284-303 | accepted exactly when compatible with those before; refused without a change |
| Registry.ProtocolRegistry.NewRegistry | internal/protocol/taxonomy.go:257-282 | succeeds exactly for compatible adapters, with all three indexes agreeing and every class sorted |
| Registry.ProtocolRegistry.LookupWire | internal/protocol/taxonomy.go:316-322 | the adapter of that class and wire name, or none when there is none |
| Registry.ProtocolRegistry.AdaptersForClass | internal/protocol/taxonomy.go:325-333 | exactly the class's adapters, strictly increasing |
| Registry.ProtocolRegistry.Negotiate | internal/protocol/taxonomy.go:361-384 | the least adapter of the class that the client listed by wire name or id; fails if and only if there is none |
| Registry.OneAnswer | internal/protocol/taxonomy.go:361-384 | that answer is unique |
| Registry.AnswerMeans | internal/protocol/taxonomy.go:361-384 | no adapter of the class that the client listed has a lower priority number, nor the same one and a smaller id |
| Registry.StringLessMeans | internal/protocol/taxonomy.go:277-278 | ids compare by their first difference, or the end of the shorter |
| Registry.NegotiationIgnoresOrder | internal/protocol/taxonomy.go:361-384 | nor does it depend on the order of registration |
| Leases.ParseUndoesSign | internal/ha/lease.go:200-235 | a signed token parses to its claims exactly when lease id and stream key are not empty |
| Leases.AcceptedIsSigned | internal/ha/lease.go:210-235 | only a payload followed by its own digest is accepted |
| Leases.AdmittedExactly | internal/ha/lease.go:151-165 | a token is admitted exactly from its issue less the skew up to its end plus the skew, in whole seconds |
| Leases.TokenSays | internal/ha/lease.go:137-143 | what a lease's token says of it, to the second |
| Leases.TrimTakesSpaces | internal/ha/lease.go:116-124 | trimming takes off the spaces at both ends, all of them and nothing else |
| Leases.TrimmedToNothing | internal/ha/lease.go:116 | a stream key is trimmed to nothing exactly when it is all space |
| LeaseRuns.IdentityIsKept | internal/ha/lease.go:110-198 | over every run of overlapping calls a lease keeps all fields but its times, in the store and in every call about to save it |
| LeaseRuns.ShortensExactly | internal/ha/lease.go:151-198 | a save moves a lease's end back if and only if its call was overtaken: the last saver began later, at a later clock reading, and saved first |
| LeaseRuns.EndsOnlyGrow | internal/ha/lease.go:151-198 | over a run in which no save was overtaken, an end never moves back |
| LeaseRuns.StoredExactly | internal/ha/lease.go:284-308 | a lease is stored if and only if no access of the store since its last save came after its end |
| LeaseRuns.ReturnsExactly | internal/ha/lease.go:151-198 | a renewal brings a removed lease back if and only if an access between its Get and its Save came after the end and its new end is not over |
| LeaseRuns.RenewalGrantedExactly | internal/ha/lease.go:165-178 | a Get grants a renewal if and only if stream and viewer match and no access since the last save, itself included, came after the end |
| LeaseRuns.RenewalIsLatest | internal/ha/lease.go:180-198 | what a save leaves: the latest lease, a lifetime from its call's clock reading, of the same identity |
| LeaseRuns.CallsStartedWith | internal/ha/lease.go:110-198 | every pending call has what its start gave it: input and id, or an admitted token's claims |
| LeaseRuns.StartsExactly | internal/ha/lease.go:151-165 | a Reattach gets past its first check if and only if its token is admitted at its clock reading |
| LeaseRuns.LatestTokenAccepted | internal/ha/lease.go:151-198 | in every state that overlapping calls reach, exactly when the latest token of a lease is accepted |
| LeaseRuns.AcceptedUpToTheEnd | internal/ha/lease.go:151-198 | with a skew of at least 1 s and one reading a call, exactly up to the lease's end |
| LeaseRuns.SkewNeeded | internal/ha/lease.go:151-165 | the latest token is good up to the end if and only if the skew covers the truncated part of a second |
| LeaseRuns.OverlapShortens | internal/ha/lease.go:151-198 | a run of two overlapping renewals that moves an end back |
| LeaseRuns.RemovedLeaseReturns | internal/ha/lease.go:151-198 | a run in which a lease returns after another call was told it is missing |
| LeaseRuns.ShortSkewCutsALease | internal/ha/lease.go:151-165 | a run whose lease is refused at its own end while it is stored |
| Leases.LeaseService.Issue | internal/ha/lease.go:110-149 | saves a lease whose every field is the trimmed input's, hls by default, and signs its claims |
| Leases.LeaseService.Reattach | internal/ha/lease.go:151-198 | renews and signs anew exactly when every check passes, with the source's error otherwise |

## Left out

- Viewers' initial replay (`internal/subscriber/livestream.go:75-87`): it copies cached pointers without retaining them, so it has no place in the reference ledger.
- A viewer's Close and cache update run whole, as under their mutex; the pump's steps around them interleave with everything else.
- LiveStream.Stream.PumpOnce: one round without interference; interference is in Fanout, where the same steps interleave with all others.
- Objects.LivestreamSubscriber.Deliver: what the callback does with the packet it is shown.
- Reference counts are unbounded integers, not 32-bit; no run here needs more references than slots.
- Engine and ingest restarts (`internal/stream/engine.go`, session cleanup in `internal/rtsp/ingester.go:99-145`): concurrent restarts replace each other, so stable-id claims do not hold there.
- MinIO uploads: its subscriber is modelled as a queue consumer; the buffer and upload are opaque.
- HLS: file errors, segment durations and the text of the playlist beyond its list of names. The media sequence number is the constant 0 (`internal/subscriber/hls.go:230`), so conformance with section 6.2.2 of RFC 8216 is not claimed.
- RTP decoding: access units are arbitrary lists of NAL units. Audio builders are byte prefixes without a hard property.
- Idempotency: producers that panic. A call's Do loop is modelled by its steps rather than as a method, as it has to stop between them.
- Redis: pipelines done in part, a second node writing to the same Redis, and creation times.
- Rbac.WarmedCacheIsExact: L2 stands still meanwhile and no read fails, as at start-up; what other warmings may do is in RbacRuns.
- AuthService.Service.UpdateUserRoles: one update without interference; requests that overlap it are in RbacRuns, write by write.
- Accounts: password hashing, JWT verification (its own expiry can only reject more) and user fields without effect on validation.
- Registry.ProtocolRegistry.NewRegistry: the library sort appears as an insertion sort; Registry.OneOrder shows that any sort gives the same list. Capabilities are not modelled.
- LeaseRuns.LatestTokenAccepted: the call that presents the token meets no other between its two parts; when it does, LeaseRuns.RenewalGrantedExactly applies. The Redis lease store is not modelled.
- HTTP, configuration, logging, tracing, node selection, relay session reaping, retries, camera validation and health: plumbing, or facts visible in one body.

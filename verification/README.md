# Arcade client: verified models

A browser arcade keeps six pieces of state whose code is short and whose promises are not.
This project models each in Dafny 4.11 and proves the promise for every input, every run or
every interleaving.

1. **The hosted-disc chunk store** is an LRU cache with a pinned boot region, written once for
   the page and once for a worker. The page keeps a mirror of the worker's membership and
   prefetches chunks by a plan. A JavaScript `Map` is a duplicate-free sequence whose order is
   the recency order; what the file system answers is an argument of each operation.
2. **The cabinet spatial index** is a uniform grid that has to answer like a scan of every
   cabinet. Coordinates are reals and cells use `Floor`.
3. **The realtime socket**, with the cabinet replica and the room-full rollover beside it:
   request and acknowledgement, reconnects, a versioned replica, a walk through the registry.
   Each event is one uninterrupted stretch of code, and a run is any sequence of events.
4. **Movement and layout**: the statue packer and four collision resolvers.
5. **The interpolation buffer** of a remote player.
6. **Launching and the session lifecycle.**

Code that changes fields or arrays of its object is a class whose methods are proved equal to a
specification function; the properties are proved of those functions, over whole runs.

| files | component |
|---|---|
| `RecencyOrder`, `DiscStore` | the `Map` as a recency order; both stores |
| `DiscLru`, `DiscInclusion`, `DiscAgreement` | eviction, inclusion between capacities, page against worker |
| `DiscMirror`, `DiscInterleaving` | the mirror protocol, unqueued page puts |
| `DiscPrewarm`, `DiscWarming` | the prefetch plan, and what warming with a plan leaves stored |
| `DiscOutcomes` | both stores, the mirror's channels and warming, outcome by outcome |
| `SpatialIndex`, `SpatialQueries`, `SpatialSort` | the grid, its two queries, the order of results |
| `RealtimeSocket`, `RealtimeSafety`, `RealtimeDelivery`, `RealtimeReconnect` | the socket, acknowledgements, what becomes of each send, the connection |
| `CabinetReplica`, `RoomRollover` | the replica, moving on from full rooms |
| `StatuePacking`, `StatuePlaces` | the packer, and the points it places |
| `PartitionWalls`, `PartitionOpenings` | the partition walls, and their openings in metres |
| `ArenaBowl` | the arena's stands |
| `CircularColliders`, `ColliderCascades`, `ZeldaRing`, `SquareRoot` | circular machines, when one push is enough, the temple's ring |
| `Interpolation`, `InterpolationRuns` | the sample buffer |
| `GameSession`, `SessionRecord` | the session, and what its record says |
| `GameLauncher`, `LaunchGates` | the launcher, and what a session has to pass |
| `Wrappers`, `Plane` | optional values; points, distances and a frame's longest step |

## Where the code does not keep its promise

Each item gives the exact condition under which the promise holds, both ways, and the member
that shows an input on which it fails.

- *The two stores are documented as identical* (emulators/disc-range-cache.js:167-169,
  emulators/disc-cache-worker.js:17-19). Their orders part on exactly three failures: a
  wrong-sized chunk whose file cannot be deleted, a chunk of the right size whose bytes fail to
  arrive while it is not the newest, and a new chunk whose file cannot be opened for writing.
  What their caller is told parts on exactly two: bytes that fail to arrive, and any failed
  write of a chunk there was room for, which the page throws and the worker reports quietly
  (`DiscAgreement.StoresAgreeExactly`, `DiscAgreement.RunsAgreeExactly`; failing inputs in
  `DiscAgreement.StoresCanPart`). Warming a disc notices: `DiscPrewarm.FailedWritePartsWarming`.
- *The mirror* shows a chunk the worker has dropped exactly while some failed put's eviction has
  not been undone (`DiscMirror.MirrorIsAlwaysASuperset`; `DiscMirror.FailedPutLeavesAStaleChunk`).
- *The page store has no queue*. A stored chunk leaves exactly by eviction, by a wrong-sized read
  of it, or by the failing write of a put that began without it
  (`DiscInterleaving.ChunkLeavesExactly`), so a failing put can take out a chunk that another put
  has already reported stored (`DiscInterleaving.FailingPutDropsAnothersChunk`).
- *The room rollover* tries every room of the registry exactly when it starts in one of them and,
  unless that is the only room, holds no room full from an earlier start but those it comes to
  before its last (`RoomRollover.RolloverCoversExactly`). It fails from an unregistered room
  (`RoomRollover.UnlistedStartMissesTheLast`) and, in a registry of several rooms, on every retry
  after an all-full stop, because a start does not forget the attempts
  (`RoomRollover.RetryGivesUpAtOnce`).
- *The replica and the join snapshot*. The snapshot a join sends carries neither zone nor
  revision (server/src/index.ts:452, cloudflare/src/index.ts:449). After it the replica agrees
  with its recorded revision exactly when the server's states were the same at both, and takes
  the next delta exactly when both are one (`CabinetReplica.ZonelessSnapshotAgreesExactly`;
  `CabinetReplica.LateJoinerRefusesDeltas`). Delivered in order, the unversioned notices sent
  beside the deltas make up for it (`CabinetReplica.JoinedClientFollows`).
- *`switchRoom` after a disconnect* brings the client back exactly when a ticket, a live
  WebSocket or an armed timer is left (`RealtimeReconnect.SwitchRoomRevivesExactly`;
  `RealtimeReconnect.SwitchRoomTooLate`).
- *`dispose` and `stop`* succeed exactly when the session has left CREATED, although the
  transition table lets CREATED go straight to DISPOSED; a session just created is the failing
  input (`GameSession.StopAndDisposeOutcome`).
- *The launcher* leaves every session within reach exactly when no start ever succeeds while
  another session is active, over every run and with any number of launches under way together
  (`GameLauncher.HeldExactly`). A second launch carried through loses the first session for good
  (`GameLauncher.SecondLaunchLosesTheFirst`); stopped in time, it does not
  (`GameLauncher.StoppedInTimeIsHeld`).
- *Warming a disc* fetches its plan so that it is there when the game starts. With every fetch and
  write succeeding, all of it ends there exactly when evictions stop short of the coldest chunk of
  the plan that was passed over as stored and of the chunks put
  (`DiscWarming.PlanIsWarmedExactly`), because a chunk passed over is not made newer: warming can
  evict its own first chunk (`DiscWarming.WarmingEvictsItsOwnChunk`).
- *Dropping samples*, arrivals being in order, shows in what a frame draws exactly when a sample
  still due has been dropped and the whole history would not put the player at the oldest sample
  left, however close the samples are (`InterpolationRuns.ForgettingShowsExactly`); a burst past
  the cap shows it (`Interpolation.BurstDropsASampleStillDue`).
- *Drawing the path*. A frame draws the piecewise-linear position of the whole history exactly
  when the two samples it draws between satisfy `Interpolation.Smooth`, as long as no sample still
  due has been dropped, and after that exactly while the path is at the oldest sample left
  (`InterpolationRuns.RunDrawsPathExactly`). Close samples lag with nothing dropped, because their
  span is never taken to be under a millisecond (`Interpolation.CloseSamplesLag`).
- *One push is enough* exactly when different machines are at least twice the reach apart, for
  every list and already for steps within a frame (`ColliderCascades.SolidExactlyWhenSpacedOut`;
  for any other list `ColliderCascades.CloseMachinesCascade` gives the position and the step).
  The two rooms' machines are (`CircularColliders.SonicRowIsSpacedOut`,
  `ZeldaRing.ZeldaRingIsSpacedOut`).

## Model

First what is proved of the specifications, then the methods and what each is proved to do.

| member | source | states |
|---|---|---|
| `DiscLru.MakeRoomEvictsInTurn` | emulators/disc-range-cache.js:193-210 | measured against a log of uses the store never sees, each victim in turn is the unpinned chunk used longest ago |
| `DiscLru.MakeRoomCounts` | emulators/disc-range-cache.js:235-242 | making room conserves chunks (kept plus evicted), evicts no pin, stops as soon as one more fits, and gives up only when nothing but pins is left |
| `DiscLru.RunKeepsColdestFirst` | emulators/disc-range-cache.js:180-192 | after any run of gets and puts, failing or not, insertion order is last-use order |
| `DiscLru.VictimsAreLeastRecentlyUsed` | emulators/disc-range-cache.js:193-242 | after any run, the next operation evicts least recently used unpinned chunks, in turn |
| `DiscLru.PutContents` | emulators/disc-range-cache.js:235-256 | what a put keeps, adds and evicts: exact membership, conservation of the count, when it refuses, and that a new chunk leaves at most the capacity |
| `DiscLru.RunStaysBounded` | emulators/disc-range-cache.js:235-256 | no run lists a chunk twice or grows past the larger of the size at open and the capacity |
| `DiscLru.PinsSurvive` | emulators/disc-range-cache.js:193-200 | a pinned chunk survives every run that does not find it to be the wrong size |
| `DiscInclusion.SharedVictim` | emulators/disc-range-cache.js:198-210 | two stores in inclusion evict the same chunk, or the larger one evicts a chunk the smaller lacks |
| `DiscInclusion.RoomKeepsIncluded` | emulators/disc-range-cache.js:235-242 | making room keeps the inclusion and the slack between the capacities |
| `DiscInclusion.WriteKeepsIncluded` | emulators/disc-range-cache.js:235-256 | a write keeps the inclusion, whichever of the two stores has the chunk |
| `DiscInclusion.LargerStoreIncludesSmaller` | emulators/disc-range-cache.js:183-256 | LRU inclusion with pins: after any history the smaller recency order is a subsequence of the larger, which holds at most the difference of capacities more |
| `DiscInclusion.MoreCapacityNeverFewerHits` | emulators/disc-range-cache.js:219-256 | so no history shows Belady's anomaly: more capacity never costs a hit |
| `DiscAgreement.DeclinesWhenPinsFillIt` | emulators/disc-range-cache.js:235-242 | a new chunk is declined exactly when the pinned chunks alone fill the capacity |
| `DiscAgreement.StoresAgreeExactly` | emulators/disc-range-cache.js:167-169 | from one order, page and worker always evict the same; they end in the same order exactly outside three failures, and tell their caller the same exactly outside two |
| `DiscAgreement.StoresCanPart` | emulators/disc-cache-worker.js:114-156 | each kind of failure does part them, shown on concrete orders |
| `DiscAgreement.RunsAgreeExactly` | emulators/disc-cache-worker.js:17-19 | a shared history goes the same way in both stores, in every recency order and every answer, exactly when none of its operations is one of those failures |
| `DiscOutcomes.PageGetExactly` | emulators/disc-range-cache.js:219-234 | a get answers bytes exactly for a hit, throws exactly when the bytes fail, and null otherwise; it drops exactly a wrong-sized chunk that could be deleted and makes a chunk read the newest |
| `DiscOutcomes.PagePutExactly` | emulators/disc-range-cache.js:235-256 | a put is refused exactly when the pins leave a new chunk no room, stored, as the newest, exactly when it was written, and throws otherwise; overwriting evicts nothing |
| `DiscOutcomes.WorkerRepliesExactly` | emulators/disc-cache-worker.js:114-156 | the worker's replies say bytes exactly for a hit, removed exactly for a wrong size, ok exactly for a chunk written, and name the chunks evicted unless the write failed |
| `DiscMirror.ServeIsFaithful` | emulators/disc-cache-worker.js:114-156 | each reply tells how the worker's set moved, except the victims of a failed put |
| `DiscMirror.StepKeepsInv` | emulators/disc-range-cache.js:133-159 | calls, served requests and deliveries in any interleaving keep the replies in flight leading from what the client last saw to what the worker holds |
| `DiscOutcomes.CallsAnsweredInOrder` | emulators/disc-cache-worker.js:171-175 | every call is answered once and in order: the chunks called for are, in order, those delivered, those on their way back and those still to be served |
| `DiscMirror.MirrorIsAlwaysASuperset` | emulators/disc-range-cache.js:133-159 | after every delivery the mirror covers the worker's set right after that operation, overshoots by exactly the victims of failed puts not since put back, dropped or re-reported, and is exact while no put has failed |
| `DiscMirror.QuietMirrorMissesNothing` | emulators/disc-range-cache.js:133-141 | with no reply in flight, `has` never denies a stored chunk, and is exact while no put has failed |
| `DiscMirror.FailedPutLeavesAStaleChunk` | emulators/disc-cache-worker.js:147-154 | a failed put can leave the mirror showing an evicted chunk |
| `DiscInterleaving.InterleavedPutsStayBounded` | emulators/disc-range-cache.js:235-256 | puts and gets interleaved at every await list no chunk twice, stay within the larger of size at open and capacity, and evict no pin |
| `DiscInterleaving.UninterruptedPutIsSequential` | emulators/disc-range-cache.js:235-256 | the steps between awaits, run without interruption, are the sequential put |
| `DiscInterleaving.ChunkLeavesExactly` | emulators/disc-range-cache.js:198-256 | a chunk leaves in a step exactly by eviction, by a wrong-sized read of it, or by the failing write of a put that began without it |
| `DiscInterleaving.SettledChunkStays` | emulators/disc-range-cache.js:251-254 | a stored chunk that no put in flight began without is safe from every later write |
| `DiscInterleaving.FailingPutDropsAnothersChunk` | emulators/disc-cache-worker.js:171-174 | what the worker's queue prevents and the page allows, for any chunk and any store with room that lacks it: a failing put drops a chunk another put has reported stored |
| `DiscPrewarm.PlanIsSound` | emulators/disc-range-cache.js:303-328 | no plan repeats a chunk, leaves the disc or exceeds its budget |
| `DiscOutcomes.PlanExactly` | emulators/disc-range-cache.js:312-328 | chunk by chunk: the plan is the usable first touches up to the budget, or the opening chunks when none is usable |
| `DiscOutcomes.TouchesInOrder` | emulators/disc-range-cache.js:303-324 | first touches stand in the order the chunks were first touched |
| `DiscOutcomes.KeptExactly` | emulators/disc-range-cache.js:316-318 | of a list of any values exactly the safe integers are considered |
| `DiscPrewarm.RecordedBootIsReplayed` | emulators/disc-range-cache.js:330-348 | for any history, limit and budget: the plan made from the recording is the plan made from the raw reads exactly when the recording kept all the disc's chunks touched, or as many as are budgeted, or none while the opening chunks come to the same |
| `DiscPrewarm.PinnedPlanIsWarmedExactly` | emulators/disc-range-cache.js:276-301 | the case where nothing of the plan can be evicted: a plan of pinned chunks ends wholly stored exactly when the pins held and its missing part fit the capacity together, and no other pin changes |
| `DiscPrewarm.OpeningPlanIsWarmed` | emulators/disc-range-cache.js:276-301 | with room for as many chunks as are pinned, warming leaves every opening chunk of the disc stored |
| `DiscPrewarm.MeasuredBootIsReplayed` | emulators/disc-range-cache.js:303-324 | so a boot that stays on its disc is planned in the order it was read, earliest first, by any budget within the recorder's limit |
| `DiscWarming.PlanIsWarmedExactly` | emulators/disc-range-cache.js:282-300 | with every fetch and write succeeding, any plan, over any store, whatever part of it is stored already: all of it ends stored exactly when evictions, counted turn by turn without running the store, stop short of the coldest chunk passed over and of the chunks put |
| `DiscWarming.NewPlanIsWarmedExactly` | emulators/disc-range-cache.js:282-300 | a plan none of which is stored ends wholly stored exactly when it fits beside the pins held |
| `DiscWarming.RoomTakesTheColdest` | emulators/disc-range-cache.js:198-242 | making room takes just as many of the coldest unpinned chunks as are needed and leaves the others in order, or fails exactly when there are too few |
| `DiscWarming.RecordedBootIsWarmedExactly` | emulators/disc-range-cache.js:303-348 | a recorded boot warmed into an empty store is all stored, first touches up to the budget, exactly when the store has room for that many |
| `DiscWarming.WarmingEvictsItsOwnChunk` | emulators/disc-range-cache.js:285 | a full store of three, a plan of two, one of them stored and coldest, nothing failing: warming evicts it |
| `DiscWarming.AnyListIsAPlan` | emulators/disc-range-cache.js:312-324 | any chunks of the disc listed once each are a measured plan, so such plans arise |
| `DiscPrewarm.PinnedPlansWarmAlike` | emulators/disc-range-cache.js:276-301 | while no write fails, a plan inside the pinned region leaves the same chunks and reports the same number either way |
| `DiscPrewarm.FailedWritePartsWarming` | emulators/disc-range-cache.js:291-298 | one failed write parts them: the page's warming stops at nothing, the worker's goes on and counts a chunk it did not store |
| `DiscOutcomes.WarmingStopsThere` | emulators/disc-range-cache.js:283-299 | warming goes no further than an abort, a failed fetch or a failed write, and what came before stands, in the store and in the number reported |
| `DiscOutcomes.WarmedCountsPuts` | emulators/disc-range-cache.js:293 | the number reported is how many chunks were not stored at their turn |
| `SpatialIndex.RemovedKeepsValid` | cabinets/cabinet-spatial-index.js:59-68 | removal keeps each live id in exactly one bucket, the one its coordinates name, with no empty bucket, and removes that id only |
| `SpatialIndex.InsertedKeepsValid` | cabinets/cabinet-spatial-index.js:45-57 | insertion or re-insertion keeps the same and leaves no stale copy |
| `SpatialIndex.GridHoldsExactlyTheLive` | cabinets/cabinet-spatial-index.js:49-73 | after any inserts, removes and clears the grid holds exactly the live entries |
| `SpatialIndex.BucketsKeepOrder` | cabinets/cabinet-spatial-index.js:49-68 | buckets keep the order of insertion, which decides between entries equally near |
| `SpatialIndex.OccupiedCells` | cabinets/cabinet-spatial-index.js:38 | the cells counted are exactly those some live entry's coordinates name |
| `SpatialQueries.WindowCoversRadius` | cabinets/cabinet-spatial-index.js:84-85 | any entry within the radius is bucketed in a cell of the window scanned, for every cell size |
| `SpatialQueries.NearestAgreesWithBruteForce` | cabinets/cabinet-spatial-index.js:79-98 | `nearest` is null exactly when no live entry is within the radius, and otherwise a live entry none is closer than |
| `SpatialQueries.QueryFindsExactlyTheLiveWithin` | cabinets/cabinet-spatial-index.js:101-117 | the entries collected are exactly the live ones within the radius, each once |
| `SpatialSort.SortIsStable` | cabinets/cabinet-spatial-index.js:118 | a stable ascending arrangement exists |
| `SpatialSort.StableSortIsUnique` | cabinets/cabinet-spatial-index.js:118 | and is the only one, so what a stable sort returns is fully specified |
| `SpatialSort.QueryAgreesWithBruteForce` | cabinets/cabinet-spatial-index.js:100-119 | `queryRadius` after any changes: exactly the live entries within the radius, each once, with its distance, nearest first, headed by the very entry `nearest` returns |
| `SpatialSort.QueryIsEuclidean` | cabinets/cabinet-spatial-index.js:101-119 | in coordinates: an entry is returned exactly when it is live and within the radius by Euclid, and its distance is the nonnegative root of that |
| `RealtimeSafety.AcknowledgedExactlyOnce` | realtime/realtime-socket.js:75-131 | over any interleaving, each send with a callback is in exactly one place, once: fired, pending or queued; so no callback fires twice and none is lost |
| `RealtimeSafety.RepliesReachTheirSender` | realtime/realtime-socket.js:106-117 | every reply acted on reached the callback of the send its id was issued to |
| `RealtimeSafety.AnsweredByClose` | realtime/realtime-socket.js:75-81 | nothing is pending while not connected, and a close leaves every request answered or already queued for its refusal |
| `RealtimeDelivery.OpenSendIsPending` | realtime/realtime-socket.js:91-103 | from every reachable state, a send on an open connection adds one pending request, its own callback and style under an id later than any pending or answered, and queues nothing |
| `RealtimeDelivery.OtherSendIsRefused` | realtime/realtime-socket.js:86-91 | any other send queues exactly one refusal, or nothing when it wants no answer |
| `RealtimeDelivery.PendingIsAnswered` | realtime/realtime-socket.js:94-117 | a reply to a pending request fires just that request's callback with the reply, in its own style; a timeout does so exactly when the request has one |
| `RealtimeDelivery.StrayIdChangesNothing` | realtime/realtime-socket.js:106-117 | an id that is unknown or answered already changes nothing |
| `RealtimeDelivery.ClosingAnswersAll` | realtime/realtime-socket.js:75-81 | a close event and a disconnect tell every pending request so, in order and in its own style; a queued refusal tells its send |
| `RealtimeDelivery.EveryAnswerInItsOwnStyle` | realtime/realtime-socket.js:85-131 | over any run every callback is called error first exactly when it was sent so |
| `RealtimeReconnect.SingleConnectionToken` | realtime/realtime-socket.js:53-83 | in every reachable state at most one of ticket wait, live WebSocket and armed timer exists |
| `RealtimeReconnect.TokenIsConserved` | realtime/realtime-socket.js:38-83 | every event keeps that token or gives it up, and gives it up exactly in the five listed situations |
| `RealtimeDelivery.WireMoves` | realtime/realtime-socket.js:38-83 | each arrow of the WebSocket, exactly when it is taken |
| `RealtimeDelivery.ConnectionMoves` | realtime/realtime-socket.js:69-81 | the client becomes connected exactly when its opening WebSocket opens, and ceases to be exactly at the close event |
| `RealtimeDelivery.RetryMoves` | realtime/realtime-socket.js:53-83 | each arrow of the ticket wait and of the retry timer, exactly when it is taken |
| `RealtimeDelivery.ClosedExactly` | realtime/realtime-socket.js:38-49 | the client counts as closed exactly when its last word was a disconnect and not a room switch |
| `RealtimeReconnect.NeverStranded` | realtime/realtime-socket.js:75-81 | a client never asked to disconnect always has a connection open, coming or due, whatever server and network do |
| `RealtimeReconnect.LostForGood` | realtime/realtime-socket.js:38-49 | once the token is gone no event brings it back |
| `RealtimeReconnect.SwitchRoomRevivesExactly` | realtime/realtime-socket.js:45-49 | `switchRoom` can lead to an open connection exactly when a token is left |
| `RealtimeReconnect.DelayGrows` | realtime/realtime-socket.js:134-136 | the base delay is monotone in the attempt and between minimum and maximum |
| `RealtimeDelivery.DelayDoubles` | realtime/realtime-socket.js:134-136 | the base delay starts at the minimum, doubles four times and stays, never past the maximum |
| `RealtimeDelivery.RetriesStartOver` | realtime/realtime-socket.js:69-72 | after a successful open the first retry waits the minimum again |
| `RealtimeReconnect.BackoffIsMonotoneAndBounded` | realtime/realtime-socket.js:133-139 | in any run, between opens the base delays never shrink and stay within the configured bounds |
| `RealtimeReconnect.SwitchRoomTooLate` | realtime/realtime-socket.js:38-49 | a concrete loss: no ticket, a disconnect while the retry was due, then a room switch, and no event ever opens a connection again |
| `CabinetReplica.ListedRoundTrip` | server/src/cabinets/cabinet-manager.ts:94-96 | listing states by cabinet and setting them one by one gives the same states back |
| `CabinetReplica.SnapshotRestores` | server/src/cabinets/cabinet-state-sync.ts:9-15 | a snapshot of any revision restores exactly the server's states at that revision |
| `CabinetReplica.StepKeepsInv` | cabinets/cabinet-visual-state.js:3-23 | any message the servers send, versioned or not, arriving at any time, keeps the invariant |
| `CabinetReplica.ReplicaAgrees` | cabinets/cabinet-visual-state.js:3-23 | under any loss, repetition and reordering of every message, a replica that has taken a zoned snapshot and nothing unversioned since holds exactly the server's states at the revision it has recorded |
| `CabinetReplica.StartsInSync` | cabinets/cabinet-visual-state.js:2 | the blank replica starts such runs |
| `CabinetReplica.DeltaIsAllOrNothing` | cabinets/cabinet-visual-state.js:18-23 | a delta is accepted exactly when it is the next one; then the replica is at its revision, otherwise untouched |
| `CabinetReplica.UnversionedApply` | cabinets/cabinet-visual-state.js:14-17 | an unversioned `apply` keeps the agreement exactly when it says nothing new |
| `CabinetReplica.SnapshotResynchronises` | cabinets/cabinet-visual-state.js:3-13 | a zoned snapshot puts a replica in any state back in step |
| `CabinetReplica.SnapshotIsTakenWhole` | cabinets/cabinet-visual-state.js:3-13 | any snapshot with its array makes the replica ready with just the states it lists and records one revision, under its zone or the legacy one |
| `CabinetReplica.JunkChangesNothing` | cabinets/cabinet-visual-state.js:4-5 | a snapshot without its array and a malformed delta are refused and change nothing |
| `CabinetReplica.ApplySetsOne` | cabinets/cabinet-visual-state.js:14-17 | an unversioned `apply` sets its own cabinet and touches nothing else |
| `CabinetReplica.ResetForgets` | cabinets/cabinet-visual-state.js:24-27 | a reset forgets states, revisions and readiness |
| `CabinetReplica.ZonelessSnapshotAgreesExactly` | server/src/index.ts:452 | the join snapshot, without zone or revision, brings its states but leaves the recorded revision, which only a zone named legacy sees set to 0: the replica agrees exactly when the server's states were the same at both revisions, and the next delta is accepted exactly when they are one revision |
| `CabinetReplica.JoinedClientFollows` | server/src/index.ts:360-369 | joined by such a snapshot and sent every later change in order, as delta and notice, a client holds the server's states at every revision; it accepts the deltas exactly when it joined before the first change |
| `CabinetReplica.LateJoinerRefusesDeltas` | cloudflare/src/index.ts:449 | one taken and freed cabinet is enough: a client joining in between refuses the next delta and disagrees with its recorded revision |
| `RoomRollover.ItineraryIsARoute` | multiplayer-client.js:247-248 | the registry walked round from the starting room follows the code's next-room step and repeats nothing, whether or not that room is registered |
| `RoomRollover.FullWalks` | multiplayer-client.js:236-252 | whatever rooms were held full before, k full answers put the client at stop k of its route with exactly the earlier stops answered, until its last answer |
| `RoomRollover.NoRoomIsRetried` | multiplayer-client.js:237-252 | until its last answer the client is trying, in a room that has not answered since it started |
| `RoomRollover.RolloverCoversExactly` | multiplayer-client.js:236-249 | when it stops it has tried every registered room exactly when it started in one and held none full, from an earlier start, but stops it reaches before its last |
| `RoomRollover.SnapshotRestarts` | multiplayer-client.js:258-259 | a snapshot restarts the measure from any state |
| `RoomRollover.RolloverEnds` | multiplayer-client.js:238-246 | at its last answer it stops, having tried the first so many rooms of its route, each once |
| `RoomRollover.OtherEvents` | multiplayer-client.js:253-259 | any other error stops the client, a snapshot only forgets what was full, and a start while started changes nothing |
| `RoomRollover.FreshRolloverTriesThemAll` | multiplayer-client.js:236-249 | holding none full, it takes exactly n answers and, from a registered room, tries all n |
| `RoomRollover.RetryGivesUpAtOnce` | multiplayer-client.js:240-245 | after an all-full stop, the next start gives up at its first full answer, in a registry of any size |
| `RoomRollover.UnlistedStartMissesTheLast` | multiplayer-client.js:247-248 | from an unregistered room the last of two rooms is given up on untried |
| `StatuePacking.PackedLineIsSound` | arcade.js:3495-3529 | for any widths above the gap and any walls: every figure lies wholly inside its wall, walls are used in order, neighbours on a wall are in order and at least the gap apart, and the figures placed are a prefix of the cast |
| `StatuePlaces.EveryStatueStands` | arcade.js:3513-3527 | of the points returned: each statue is on its wall's line, wholly between its ends, with its own name and its wall's turn, and two on one wall are at least the gap apart edge to edge |
| `StatuePlaces.PackedTightly` | arcade.js:3513-3527 | nothing is wasted: the next statue stands exactly the gap further along, or did not fit there nor on any wall skipped and opens its wall from the very start |
| `StatuePlaces.RoomPlaces` | arcade.js:3476-3529 | the five points of the room's own statues, in metres |
| `StatuePacking.PackedInside` | arcade.js:3513-3527 | the same containment from any cursor on any wall |
| `StatuePacking.PackedApart` | arcade.js:3513-3527 | the same order and gap from any cursor on any wall |
| `StatuePacking.DroppedFitsNowhere` | arcade.js:3519-3523 | the first figure dropped is wider than every wall not used |
| `StatuePacking.NarrowFigureLeavesTheWall` | arcade.js:3519-3526 | for any width not above the gap there is a list it breaks: a figure that narrow is set past the end of its wall |
| `StatuePacking.CentredHoldsExactly` | arcade.js:3502-3512 | started centred, a first wall of any length has room for exactly the prefix measured for it |
| `StatuePacking.FirstWallIsCentred` | arcade.js:3502-3527 | the first wall holds exactly the longest prefix that fits, with equal margins at both ends |
| `StatuePacking.WholeCastOnTheSouthWall` | arcade.js:3476-3499 | with the room's constants all five statues stand on the south wall and none is left out |
| `PartitionWalls.WallsAreSolid` | arcade.js:4772-4797 | a bounded step changes side of a wall line exactly when it crosses it inside an opening or ends past the wall; a player not let through never stands in its thickness; z never moves |
| `PartitionOpenings.WestWallHolds` | arcade.js:4772-4797 | in metres: a step meeting the west wall ends where it tries to within 1.26 of -25.2, -8 or 8 or within 1.86 of -25.2, and otherwise 0.52 from the wall on the side it came from |
| `PartitionOpenings.EastWallHolds` | arcade.js:4772-4797 | the same for the east wall, within 1.26 of -25.2 or between -33.7 and -12.1 |
| `PartitionOpenings.NearWallsKeepsOff` | arcade.js:4783-4795 | a step that meets neither wall is moved exactly off a face it ends too close to, outside that wall's openings |
| `PartitionOpenings.PastTheColumnsIsFree` | arcade.js:4777-4780 | north and south of the columns nobody is held |
| `PartitionWalls.HeldIsNearest` | arcade.js:4792-4795 | a player held is moved as little as possible, and one let through not at all |
| `PartitionWalls.WallsAreSolidOverRuns` | arcade.js:4772-4797 | over any run of bounded steps, wherever they go, the player is on the other side of a wall line exactly when an odd number of steps crossed it inside an opening or past its end |
| `ArenaBowl.LeavesTheMiddle` | arcade.js:5022 | no bounded step across the stands ends in the very middle, where the division would fail |
| `ArenaBowl.OutsideTheRegion` | arcade.js:5011 | the early exit never skips a crossing |
| `ArenaBowl.BowlIsSolid` | arcade.js:5010-5025 | a bounded step ends across the stands exactly when it went across them and ended in the tunnel's lane |
| `ArenaBowl.PushedToTheRim` | arcade.js:5020-5024 | a player is moved exactly then, along the ray from the middle, onto the rim of the side they came from |
| `ArenaBowl.InMetres` | arcade.js:4955 | the stands are the ellipse of half-axes 38.7 and 29.7 about (27, -108.45), and the lane is three metres wide, on the doorway's side of z = -93.6 only |
| `ArenaBowl.BowlIsSolidOverRuns` | arcade.js:5010-5025 | over any run of bounded steps, wherever they go, the player is on the other side of the stands exactly when an odd number of steps crossed them in the tunnel's lane |
| `ColliderCascades.SolidExactlyWhenSpacedOut` | arcade.js:4852-4862 | for every list of machines: one push is enough after every step a frame can take, exactly when different machines are at least twice the reach apart |
| `ColliderCascades.CloseMachinesCascade` | arcade.js:4855-4861 | any list holding two different machines closer than that has a position clear of all and a frame's step from it that ends inside one |
| `ColliderCascades.ClearMeeting` | arcade.js:4852-4862 | such a list always has two circles that meet clear of every machine |
| `CircularColliders.CollidersDoNotCascade` | arcade.js:4852-4862 | among machines twice the reach apart or at one place, a player clear of all stays clear of all after one push |
| `CircularColliders.MovesExactlyWhoeverIsInside` | arcade.js:4855-4861 | and is moved exactly when the step ended inside one |
| `CircularColliders.PushIsShortest` | arcade.js:4859-4860 | a push is the shortest way out of the machine, by exactly the depth the step went in |
| `CircularColliders.ResolvedIsPushed` | arcade.js:4852-4862 | for any list, a step ending inside a machine is pushed out of the first it is inside of |
| `CircularColliders.PushIsStraight` | arcade.js:4859-4860 | straight, and by exactly the depth it went in |
| `CircularColliders.DeadCentreGoesBack` | arcade.js:4856-4858 | from dead centre the player is put back where they were; the reach is 1.16 m |
| `CircularColliders.SonicRowIsSpacedOut` | arcade.js:3818-3851 | the garden row meets the spacing |
| `CircularColliders.BeyondTheRow` | arcade.js:4871 | where the resolver looks no further every machine of the row is out of reach |
| `CircularColliders.SpacedRingIsSolid` | arcade.js:4847-4863 | spaced out anywhere on the temple's ring, machines never keep a player, early exit included |
| `ZeldaRing.ZeldaRingIsSpacedOut` | arcade.js:3688-3704 | the twelve machines, placed by cosine and sine of their bearings, meet the spacing |
| `ZeldaRing.SpotIsOnTheRing` | arcade.js:3688-3704 | and each lies on the ring |
| `ZeldaRing.ZeldaRingIsSolid` | arcade.js:4847-4863 | so nobody is left inside one of the temple's machines, with no assumption on the step |
| `InterpolationRuns.TimelyRunsDrawHistory` | multiplayer-client.js:101-122 | and with samples a millisecond apart, that is the piecewise-linear position of the whole history |
| `InterpolationRuns.CapSpansTheDelay` | multiplayer-client.js:67 | eight samples 75/7 ms apart span the interpolation delay |
| `InterpolationRuns.WellSpacedRunsAreTimely` | multiplayer-client.js:67 | so at that spacing the cap never drops a sample still to be drawn, in any run |
| `InterpolationRuns.ForgettingShowsExactly` | multiplayer-client.js:101-122 | after any run, forgetting shows in the position a frame draws exactly when a sample still due was dropped and the whole history would not put the player at the oldest sample left |
| `InterpolationRuns.ForgettingKeepsTheSamples` | multiplayer-client.js:106 | after any run, a frame keeps the samples it would keep of everything received exactly while none still due was dropped |
| `InterpolationRuns.RunDrawsPathExactly` | multiplayer-client.js:101-122 | after any run, the exact condition for a frame to draw the piecewise-linear position of everything received, whether or not a sample still due was dropped |
| `InterpolationRuns.HistoryGrows` | multiplayer-client.js:56-68 | what each event adds: the place seen, the last place again for a status change, nothing for a frame, which renders 75 ms in the past |
| `InterpolationRuns.TimelyRunsNeverShowForgetting` | multiplayer-client.js:101-122 | with samples and frames in order and a cap that drops only what is no longer due, every frame of every run draws what it would draw had nothing been dropped |
| `Interpolation.TrimmedIsTail` | multiplayer-client.js:106 | trimming drops only samples that come before the last one due |
| `Interpolation.FrameDrawsHistory` | multiplayer-client.js:107-120 | a frame still holding its lower bracketing sample draws the piecewise-linear position of the full history exactly when the two samples drawn between are smooth |
| `Interpolation.FrameDrawsPathExactly` | multiplayer-client.js:107-120 | the exact condition for any frame: smoothness while no sample still due was dropped, and after that the path being at the oldest sample left |
| `Interpolation.DroppingShowsExactly` | multiplayer-client.js:101-122 | a frame draws from what is left what it would draw from the whole history exactly when no sample still due was dropped or the history too puts the player at the oldest sample left |
| `Interpolation.DrawsTheOldest` | multiplayer-client.js:106-120 | once a sample still due is dropped, a frame draws the oldest sample left |
| `Interpolation.TrimmedAlike` | multiplayer-client.js:106 | a frame trims what is left of a history to the samples it would trim the whole history to, exactly while none still due was dropped, at any spacing |
| `Interpolation.DrawnDividesTheWay` | multiplayer-client.js:107-121 | between samples a millisecond apart the point drawn divides the way as the render time divides their times; outside them it is the nearer sample |
| `Interpolation.CloseSamplesLag` | multiplayer-client.js:109 | two samples half a millisecond apart and nothing dropped: the frame between them lags |
| `Interpolation.BurstDropsASampleStillDue` | multiplayer-client.js:67 | nine samples in a burst: the cap drops one still due and the frame shows it |
| `GameSession.StopAndDisposeOutcome` | games/game-session.js:23-32 | `stop` and `dispose` succeed exactly from every status but CREATED, ending terminal and DISPOSED |
| `GameSession.TransitionsAreBounded` | games/game-session.js:1-32 | a run that enters p pauses enters at most 7 + 2p statuses, less the rank left |
| `GameSession.BoundIsReached` | games/game-session.js:1-32 | for every p some run reaches that bound |
| `GameSession.TimelineHolds` | games/game-session.js:12-22 | with a clock that never goes back, created <= preflight <= first active <= ended, and the end is recorded exactly in the terminal statuses |
| `SessionRecord.RecordTellsTheRun` | games/game-session.js:12-32 | over any run: the start is the clock of the first call that entered ACTIVE, preflight's end of the latest that entered READY, the pause of the latest that entered PAUSED, the end of the first that entered a terminal status, and the reason the last one an effective call brought |
| `SessionRecord.EnteredExactlyFrom` | games/game-session.js:1-5 | each status is entered exactly from the statuses listed for it: FAILED from all seven that are not terminal |
| `SessionRecord.RepeatIsIdle` | games/game-session.js:13 | a transition to the status held writes nothing, whatever it brings |
| `SessionRecord.CallWrites` | games/game-session.js:12-32 | what one call writes, told by the statuses it enters |
| `GameSession.HistoryIsFinal` | games/game-session.js:17-19 | start and end, once recorded, never change, and a disposed session never moves |
| `GameSession.StepKeepsHistory` | games/game-session.js:12-32 | no call rewrites a recorded start or end, takes back a status entered, or moves a disposed session |
| `GameSession.RunIsLegal` | games/game-session.js:1-32 | the statuses entered by the transitions actually made are always a walk through the table |
| `GameSession.WalkSpendsRank` | games/game-session.js:1-5 | along any walk each step spends rank, of which a pause gives two back |
| `GameSession.WalkIsARun` | games/game-session.js:12-22 | every walk through the table is the path of some run |
| `GameLauncher.LauncherNeverLeaks` | games/game-launcher.js:91-158 | with any number of launches under way and any failures, as long as no start succeeds over an active session, every session created is disposed of exactly once or is still starting, active and held, or stopping |
| `LaunchGates.EverySessionPassedTheGates` | games/game-launcher.js:91-117 | over any run every session belongs to a launch that resolved and whose entitlement and then preflight settled ok, and no launch has two |
| `LaunchGates.RefusedLaunchEnds` | games/game-launcher.js:99-110 | a launch refused at its entitlement, its preflight or its session has ended and never has a session, whatever follows |
| `LaunchGates.LaunchesAreResolvedCalls` | games/game-launcher.js:91-97 | a call that does not resolve begins nothing |
| `LaunchGates.LaunchMoves` | games/game-launcher.js:91-129 | each step a launch can take, exactly when it is taken |
| `LaunchGates.SessionMoves` | games/game-launcher.js:112-158 | each change of a session, exactly when it happens |
| `GameLauncher.HeldExactly` | games/game-launcher.js:91-158 | over every run, every session is still within reach exactly when no start ever succeeded over an active session; otherwise one is lost |
| `GameLauncher.StepKeepsHeld` | games/game-launcher.js:91-158 | every other step, of any launch, stop or disposal, keeps every session within reach |
| `GameLauncher.EverySessionCanFinish` | games/game-launcher.js:137-158 | the calls still owed to any session within reach end with it disposed of, once |
| `GameLauncher.LostSessionStaysLost` | games/game-launcher.js:137-149 | a session active but held by nobody is never disposed of, whatever happens |
| `GameLauncher.SecondLaunchLosesTheFirst` | games/game-launcher.js:126 | a second launch carried through over an active session loses the first for good |
| `GameLauncher.StoppedInTimeIsHeld` | games/game-launcher.js:138-149 | launched over an active session that is stopped before the new one has started, nothing is lost |
| `DiscMirror.ClientMirror.constructor` | emulators/disc-range-cache.js:133-134 | the mirror starts as the keys the worker listed |
| `DiscMirror.ClientMirror.GetResolved` | emulators/disc-range-cache.js:142-146 | a resolved get takes out exactly a removed chunk |
| `DiscMirror.ClientMirror.PutResolved` | emulators/disc-range-cache.js:152-158 | a resolved put adds its chunk and then drops the evicted ones, or changes nothing |
| `DiscPrewarm.BootChunkOrder` | emulators/disc-range-cache.js:312-328 | the loop over the measured list, whatever its entries are, gives its usable first touches up to the budget, or the opening chunks when none is usable |
| `DiscPrewarm.BootChunkRecorder.constructor` | emulators/disc-range-cache.js:335-338 | a recorder starts empty |
| `DiscPrewarm.BootChunkRecorder.Record` | emulators/disc-range-cache.js:339-343 | after any reads, of whatever values, the list is the first touches among the safe integers, cut at the limit |
| `DiscPrewarm.PrewarmDiscRanges` | emulators/disc-range-cache.js:282-300 | the warming loop over the page's store, every fetch and write free to fail or be aborted: final order and the number reported |
| `DiscPrewarm.PrewarmThroughWorker` | emulators/disc-range-cache.js:282-300 | the same loop over the worker's store and the client's mirror: final order, final mirror and the number reported |
| `DiscPrewarm.PutThroughWorker` | emulators/disc-range-cache.js:152-158 | the client's put: the worker serves it and the mirror moves by its reply |
| `SpatialSort.CabinetSpatialIndex.constructor` | cabinets/cabinet-spatial-index.js:27-35 | the index of the definitions that have a point, as if each had been inserted in turn |
| `SpatialSort.CabinetSpatialIndex.Remove` | cabinets/cabinet-spatial-index.js:59-68 | both private maps after a removal |
| `SpatialSort.CabinetSpatialIndex.Insert` | cabinets/cabinet-spatial-index.js:49-57 | both private maps after an insertion |
| `SpatialSort.CabinetSpatialIndex.Clear` | cabinets/cabinet-spatial-index.js:70-73 | nothing is left |
| `SpatialSort.CabinetSpatialIndex.Nearest` | cabinets/cabinet-spatial-index.js:79-98 | the nested loops keep the first strictly closest entry of the window; a negative radius finds nothing |
| `SpatialSort.CabinetSpatialIndex.QueryRadius` | cabinets/cabinet-spatial-index.js:101-119 | the nested loops and the sort give a stable arrangement of the window's entries within the radius |
| `SpatialSort.CabinetSpatialIndex.Build` | cabinets/cabinet-spatial-index.js:27-35 | construction fails exactly for a cell size that is not positive |
| `CabinetReplica.CabinetVisualState.constructor` | cabinets/cabinet-visual-state.js:2 | a blank replica |
| `CabinetReplica.CabinetVisualState.ApplySnapshot` | cabinets/cabinet-visual-state.js:3-13 | a snapshot replaces all states and records its revision, or a malformed one changes nothing |
| `CabinetReplica.CabinetVisualState.Apply` | cabinets/cabinet-visual-state.js:14-17 | one state is overwritten, no revision moves |
| `CabinetReplica.CabinetVisualState.ApplyDelta` | cabinets/cabinet-visual-state.js:18-23 | a delta is applied whole or not at all, and a well-formed one refused asks for a resync |
| `CabinetReplica.CabinetVisualState.Reset` | cabinets/cabinet-visual-state.js:24-27 | back to blank |
| `RoomRollover.MultiplayerClient.constructor` | multiplayer-client.js:34-36 | a client that has not started and found no room full |
| `RoomRollover.MultiplayerClient.RoomError` | multiplayer-client.js:236-257 | a room-full answer moves on to the next registered room or stops with the all-full error; any other error stops |
| `RoomRollover.MultiplayerClient.RoomJoined` | multiplayer-client.js:258-259 | a snapshot forgets the attempts |
| `RoomRollover.MultiplayerClient.Begin` | multiplayer-client.js:160-178 | a start takes the room asked for or placed in and forgets no attempt; a second start while started changes nothing |
| `StatuePacking.PackMegaManStatues` | arcade.js:3500-3529 | the two loops place the packing of the whole list, starting where the longest prefix fitting the first wall is centred |
| `StatuePacking.FillFirst` | arcade.js:3504-3510 | the first loop finds the longest prefix that fits and its length |
| `StatuePacking.PlaceAlong` | arcade.js:3511-3527 | the second loop places the packing from its cursor |
| `PartitionWalls.Player.ResolvePartitionWalls` | arcade.js:4772-4797 | the position after both walls have been considered in turn |
| `PartitionWalls.Player.HoldAgainst` | arcade.js:4780-4795 | the position after one wall has been considered |
| `ArenaBowl.Player.ResolvePokemonBowl` | arcade.js:5010-5025 | the position after the resolver, on every path, for steps of any length that leave a direction to push in |
| `CircularColliders.Player.ResolveCabinets` | arcade.js:4852-4862 | the loop both rooms share: the position after at most one push |
| `CircularColliders.Player.ResolveZeldaCabinets` | arcade.js:4847-4863 | the temple's early exit, then the loop |
| `CircularColliders.Player.ResolveSonicCabinets` | arcade.js:4869-4882 | the garden's early exit, then the loop; of the garden's own row, nobody who was clear is left inside a machine |
| `Interpolation.RemotePlayer.constructor` | multiplayer-client.js:61 | a new remote player has no samples |
| `Interpolation.RemotePlayer.AddSample` | multiplayer-client.js:66-67 | a sample is appended and at most one dropped |
| `Interpolation.RemotePlayer.StatusChanged` | multiplayer-client.js:273-281 | a status change repeats the latest position, uncapped |
| `Interpolation.RemotePlayer.Interpolate` | multiplayer-client.js:101-124 | what a frame keeps and the position it draws, 75 ms in the past and 1.65 below the eye |
| `GameSession.GameSession.constructor` | games/game-session.js:8-11 | a created session |
| `GameSession.GameSession.Transition` | games/game-session.js:12-22 | record and statuses entered after a legal transition, no change for a repeated one, an error otherwise |
| `GameSession.GameSession.Stop` | games/game-session.js:23-27 | record and statuses entered after stopping, or the error and no change |
| `GameSession.GameSession.Dispose` | games/game-session.js:28-32 | record and statuses entered after disposing, or the error and no change |
| `GameLauncher.GameLauncher.constructor` | games/game-launcher.js:55-63 | a launcher holding nothing |
| `GameLauncher.GameLauncher.BeginLaunch` | games/game-launcher.js:91-99 | a launch that resolves waits on its entitlement, beside any others |
| `GameLauncher.GameLauncher.OnEntitlement` | games/game-launcher.js:99-103 | a refused entitlement ends the launch |
| `GameLauncher.GameLauncher.OnPreflight` | games/game-launcher.js:106-110 | a failed preflight ends the launch |
| `GameLauncher.GameLauncher.OnSession` | games/game-launcher.js:112-116 | a created session starts; one that cannot be used is disposed of |
| `GameLauncher.GameLauncher.OnStart` | games/game-launcher.js:117-126 | a started session is held; a failed start disposes of it |
| `GameLauncher.GameLauncher.OnCleanup` | games/game-launcher.js:118-124 | the failed launch ends once its cleanup has |
| `GameLauncher.GameLauncher.Stop` | games/game-launcher.js:138-143 | a stop gives up the held session at once, or is a no-op |
| `GameLauncher.GameLauncher.OnStopped` | games/game-launcher.js:144-146 | whether stopping returned or threw, the session is disposed of |
| `GameLauncher.GameLauncher.SafeDispose` | games/game-launcher.js:151-154 | one more `dispose` call on that session and no other |
| `GameLauncher.GameLauncher.OnDisposed` | games/game-launcher.js:151-158 | whether disposing returned or threw, the session is done |
| `DiscStore.PageStore.constructor` | emulators/disc-range-cache.js:183-187 | what was on disk at open, in listing order, is the initial recency order |
| `DiscStore.PageStore.Touch` | emulators/disc-range-cache.js:188-192 | a stored chunk becomes the newest and every other keeps its place; an unknown one changes nothing |
| `DiscStore.PageStore.EvictOne` | emulators/disc-range-cache.js:198-210 | the coldest unpinned chunk leaves, or nothing does when all are pinned |
| `DiscStore.PageStore.GetChunk` | emulators/disc-range-cache.js:219-234 | new recency order and answer for every outcome of opening, measuring and reading the file |
| `DiscStore.PageStore.PutChunk` | emulators/disc-range-cache.js:235-256 | the eviction loop in place equals making room and then placing: final order, victims in turn, and stored, refused or thrown |
| `DiscStore.WorkerStore.constructor` | emulators/disc-cache-worker.js:33-40 | the worker starts from the same listing |
| `DiscStore.WorkerStore.Touch` | emulators/disc-cache-worker.js:47-51 | as in the page |
| `DiscStore.WorkerStore.EvictOne` | emulators/disc-cache-worker.js:53-65 | as in the page |
| `DiscStore.WorkerStore.GetChunk` | emulators/disc-cache-worker.js:114-129 | new order and the message posted back, for every outcome of the read |
| `DiscStore.WorkerStore.PutChunk` | emulators/disc-cache-worker.js:131-156 | new order, victims in turn and the message posted back; a failed write reports no victims |
| `RealtimeSocket.NativeRealtimeSocket.constructor` | realtime/realtime-socket.js:5-16 | a new client is disconnected and waiting on its ticket |
| `RealtimeSocket.NativeRealtimeSocket.CloseForGood` | realtime/realtime-socket.js:38-43 | `disconnect`: the timer is cancelled, the WebSocket closing, everything pending answered |
| `RealtimeSocket.NativeRealtimeSocket.MoveToRoom` | realtime/realtime-socket.js:45-49 | `switchRoom`: the client is no longer closed and its WebSocket closes; what is pending stays |
| `RealtimeSocket.NativeRealtimeSocket.TicketArrives` | realtime/realtime-socket.js:53-68 | `connect` after its await: retry, give up or open |
| `RealtimeSocket.NativeRealtimeSocket.OnOpen` | realtime/realtime-socket.js:69-73 | an open connection resets the backoff |
| `RealtimeSocket.NativeRealtimeSocket.OnClose` | realtime/realtime-socket.js:75-81 | a close answers everything pending and schedules a retry unless the client closed itself |
| `RealtimeSocket.NativeRealtimeSocket.OnError` | realtime/realtime-socket.js:82 | an error starts the close |
| `RealtimeSocket.NativeRealtimeSocket.SendEvent` | realtime/realtime-socket.js:85-104 | a send registers one pending request under a fresh id, or queues one refusal |
| `RealtimeSocket.NativeRealtimeSocket.OnRequestTimeout` | realtime/realtime-socket.js:94-99 | a timeout answers its own request if it is still pending |
| `RealtimeSocket.NativeRealtimeSocket.OnReply` | realtime/realtime-socket.js:106-117 | a reply answers its own request if it is still pending; unknown and repeated ids change nothing |
| `RealtimeSocket.NativeRealtimeSocket.RejectPending` | realtime/realtime-socket.js:125-131 | every pending request is answered once, in order |
| `RealtimeSocket.NativeRealtimeSocket.ScheduleReconnect` | realtime/realtime-socket.js:133-139 | one timer is armed with the doubled, capped base delay |
| `RealtimeSocket.NativeRealtimeSocket.OnReconnectTimer` | realtime/realtime-socket.js:138 | the timer starts a connect unless the client is closed |

## Left out

- Real OPFS, fetch, WebSocket, timers and DOM: only their outcomes appear, as arguments or events.
- Several opens of one disc store, call timeouts and the worker capability handshake: the mirror protocol assumes one open and no timeout.
- `discCacheKey`, `fetchDiscRange` and its retries, and the checks `prewarmDiscRanges` makes before its loop: hashing, networking and single-branch guards.
- Other readers and writers of a store while it is being warmed: the warming loop is modelled alone.
- Floating-point rounding, NaN and infinities: coordinates and times are reals. `Math.sqrt` and `Math.hypot` are any function giving the nonnegative root; `Math.cos` and `Math.sin` any pair with the difference formula, the symmetries and the monotony listed in `ZeldaRing.IsTrig`.
- `ArenaBowl.Player.ResolvePokemonBowl`: does not model the one step, longer than any frame's, that goes from outside exactly onto the middle, because the code's result there is not a number.
- Object identity of spatial entries: `bucket.indexOf` compares values, which agree with identity because a bucket never holds an id twice.
- The nested loops of the spatial queries are one method per loop level.
- Random jitter on the reconnect delay, the date prefix of request ids, payloads and listeners: no property depends on them.
- Acknowledgement callbacks that call back into the socket.
- The socket's ticket wait, WebSocket and timer are one flag or field each; that no second one ever exists to be hidden is what `RealtimeReconnect.SingleConnectionToken` and `RealtimeReconnect.TokenIsConserved` show.
- Several zones in one replica. Zoned snapshots have the form server/src/cabinets/cabinet-state-sync.ts gives them; no server sends one under the event the client applies, so for the servers as wired the results about join snapshots are the ones that apply.
- `CabinetReplica.ReplicaAgrees`: says nothing between an unversioned message and the next zoned snapshot; `CabinetReplica.UnversionedApply` and `CabinetReplica.ZonelessSnapshotAgreesExactly` say what such a message does.
- Avatar rotation and the choice of walking animation: they do not affect the position drawn.
- The other resolvers, raycast floors, rendering and asset loading.
- `GameLauncher.resolve`, failure messages and `interpret`: lookups with one branch each.
- Session fields no transition reads (ids, replay and score status).

# Verification of the NYC taxi backend

A Dafny model of the concurrent protocols and hand-written wire codecs of the Go backend, with proofs
about all inputs, all runs and all interleavings. `dafny verify dfyconfig.toml` checks everything.

| part | source | modules |
|---|---|---|
| Atomic dispatch under READ COMMITTED | `dispatch/`, `CreateTrip` | Fleet, DispatchProtocol, DispatchSafety, DispatchLiveness, DispatchWitness, DispatchCounting, AssignTrip |
| Bounded worker pool and retrying client | `workers/`, `mlclient/` | MLClient, WorkerPool, WorkerPoolApi, WorkerPoolResults |
| Redis client: codec, reader, connection pool | `cache/redis_client.go` | Bytes, Resp, RespReader, RedisPool, RedisClient |
| WebSocket framing and hub | `wsserver/` | WebSocketFrames, WebSocketConn, Hub, HubObject |
| Rate limiter, prediction cache and endpoint, histogram | `ratelimit/`, `cache/`, `handlers/`, `metrics/` | RateLimit, PredictionKeys, PredictionCache, PredictHandler, Histogram |

**Two views of each concurrent part.** Where goroutines, transactions or clients interleave, a state
machine has one event for each atomic action and the results are lemmas over every run of it. Beside it
stands the code in its own form (classes that update their fields, loops with invariants), whose methods
are tied to the machine's steps or to the functions the lemmas are about. Every module is in the file of its
name. `AssignTrip.Session` goes
further: its method is proved under arbitrary commits of other transactions between its statements, and
`AssignTrip.OthersKeepRely` shows that the machine's transactions do nothing else.

**Assumptions.** PostgreSQL runs at READ COMMITTED: an UPDATE sees the rows committed when it starts,
waits for a locked row and then re-checks its WHERE on the committed row; rollback restores rows.
Distance is any real-valued function of two places. The pool has at least one worker and a live context,
and no Submit overlaps Shutdown (the order in `backend/cmd/server/main.go`, lines 143-151). The Redis
server sends one well-formed reply per command, in the Redis serialization protocol, and no non-empty
array to a GET. SHA-1 and the library's minute layout are injective, JSON is a faithful round trip, and
one clock that never runs backwards serves the limiter and Redis.

**Where code and documentation part.**

- `AssignTrip` may be told that COMMIT failed when only its acknowledgement was lost. The row is then
  DISPATCHED while `CreateTrip` replies, and logs, that the trip stays pending (handlers.go, lines
  280-287). `AssignTrip.CreateTrip` proves that this is the exact condition: reply and row agree if and
  only if no acknowledgement was lost. "A failed transaction changed nothing" holds for every other
  error (`AssignTrip.Session.AssignTrip`), and infrastructure errors come only from failing statements.
- A transaction that waited for a driver row and lost the re-check may go on holding that row's lock
  until it ends. So "a waiter for a driver row holds no lock" is false: `DispatchWitness.WaiterMayHoldLock`
  is a reachable run against it. `DispatchLiveness.WaiterHoldsNothingIff` says exactly when it is true
  and `DispatchLiveness.WaiterHolds` what is held otherwise. Deadlock freedom is proved for both
  behaviours.
- `GetOrNil` reads only the first line of an array reply and pools the connection; `Resp.GetStaysInStep`
  gives the exact condition, `Resp.GetArrayReplyLeavesBytes` a reply that violates it.
- The cache key formats the pickup time in its own UTC offset, so trips hours apart can share a key
  (`PredictionKeys.OffsetsCanCollide`); the exact condition is `PredictionKeys.ParsedKeysAgreeIff`. The
  key also omits vendor_id and store_and_fwd_flag, so cache results speak of equal keys only.
- No exclusivity is claimed for the in-memory dispatcher, where find and claim are separate.

## Model

| member | source | states |
|---|---|---|
| `DispatchSafety.StepKeepsInv` | backend/internal/dispatch/postgres_repository.go:176-256 | every step of every transaction keeps: tables linked, no driver claimed or trip written by two transactions, candidate lists cover all AVAILABLE drivers although read from older snapshots, NoDrivers outcomes still true |
| `DispatchSafety.NoDoubleAssignment` | backend/internal/dispatch/postgres_repository.go:171-256 | from a freshly seeded fleet or any linked tables (`FreshFleetIsLinked`), in every committed state of every interleaving, `driver_id` is a one-to-one correspondence between DISPATCHED trips and BUSY drivers |
| `DispatchSafety.CommitTakesNearest` | backend/internal/dispatch/postgres_repository.go:190-252 | the committed driver is the minimum by (distance, id) over the drivers AVAILABLE just before that commit, and the distance returned is its own |
| `DispatchSafety.NoDriversMeansNone` | backend/internal/dispatch/postgres_repository.go:206-208 | a transaction that ended with ErrNoAvailableDrivers, at once or after losing every candidate, is only seen in committed states with no AVAILABLE driver |
| `DispatchSafety.AllOrNothing` | backend/internal/dispatch/postgres_repository.go:176-252 | no step of a transaction that does not end up committed touches a table; one that commits changes exactly its trip and its driver, in one step |
| `DispatchSafety.OutcomeHasCause` | backend/internal/dispatch/postgres_repository.go:176-256 | a transaction ends in an infrastructure error only by one of its own statements failing, is refused only when its trip is not PENDING, gives up only when no driver is AVAILABLE |
| `DispatchSafety.DoneStays` | backend/internal/dispatch/postgres_repository.go:240-252 | a finished transaction never moves again, so outcomes are final |
| `DispatchSafety.CommitKeepsLinked` | backend/internal/dispatch/postgres_repository.go:218-250 | marking an AVAILABLE driver BUSY and a PENDING trip DISPATCHED to it keeps the correspondence |
| `DispatchLiveness.WaitRankGrows` | backend/internal/dispatch/postgres_repository.go:217-243 | whoever is waited for has a strictly higher rank than the waiter and is not finished |
| `DispatchLiveness.NoWaitCycle` | backend/internal/dispatch/postgres_repository.go:217-243 | no reachable state contains a circle of transactions waiting for each other |
| `DispatchLiveness.WaiterHolds` | backend/internal/dispatch/postgres_repository.go:219-243 | one waiting for a driver row holds exactly the locks of re-checks it lost and kept, all on BUSY rows; one waiting for a trip row holds those and its claim, the only AVAILABLE driver among them |
| `DispatchLiveness.WaiterHoldsNothingIff` | backend/internal/dispatch/postgres_repository.go:219-232 | a waiter for a driver row holds no lock if and only if it has not lost a re-check and kept that row's lock |
| `DispatchLiveness.KeptMeansLost` | backend/internal/dispatch/postgres_repository.go:226-229 | an unfinished transaction keeps precisely the locks of the re-checks it lost and kept |
| `DispatchWitness.WaiterMayHoldLock` | backend/internal/dispatch/postgres_repository.go:217-232 | a concrete reachable run at whose end a transaction waits for one driver row while it holds the lock of another |
| `DispatchLiveness.SomeoneCanMove` | backend/internal/dispatch/postgres_repository.go:176-256 | while some transaction is unfinished, an unfinished one can take a real step |
| `DispatchLiveness.StepUsesWork` | backend/internal/dispatch/postgres_repository.go:217-256 | every transaction step lowers the remaining work of the whole system, since each candidate is tried at most once |
| `DispatchLiveness.EveryTransactionFinishes` | backend/internal/dispatch/postgres_repository.go:176-256 | at most 2 * drivers + 4 steps per transaction in any run, and a run that cannot go on has none unfinished |
| `DispatchCounting.StepConserves` | backend/internal/dispatch/postgres_repository.go:219-249 | AVAILABLE drivers plus committed transactions is unchanged by every step |
| `DispatchCounting.RunConserves` | backend/internal/dispatch/postgres_repository.go:176-256 | the same over whole runs |
| `DispatchCounting.RunKeepsTripsUntouched` | backend/internal/dispatch/postgres_repository.go:234-247 | with distinct trips, a request that has started and not committed finds its trip PENDING and is never told otherwise |
| `DispatchCounting.ExactlyMinAssigned` | backend/internal/dispatch/postgres_repository.go:183-256 | k distinct trips, each PENDING when its transaction takes its snapshot, and n AVAILABLE drivers end with exactly min(k, n) of the trips DISPATCHED in any interleaving without infrastructure errors |
| `AssignTrip.OthersKeepRely` | backend/internal/dispatch/postgres_repository.go:176-256 | any step of another transaction in a reachable state only turns AVAILABLE drivers BUSY and PENDING trips DISPATCHED, never a row this transaction has locked nor, with distinct trips, the trip it is to assign |
| `AssignTrip.TurnAnswers` | backend/internal/dispatch/postgres_repository.go:217-252 | ending a turn with its candidate is a right answer: the first candidate of the stale list that is still AVAILABLE is the nearest driver |
| `AssignTrip.LoopInvIsStable` | backend/internal/dispatch/postgres_repository.go:217-230 | what the candidate loop relies on survives every commit of the others |
| `AssignTrip.Session.SelectAvailable` | backend/internal/dispatch/postgres_repository.go:183-205 | the snapshot lists every AVAILABLE driver exactly once |
| `AssignTrip.Session.RankCandidates` | backend/internal/dispatch/postgres_repository.go:190-215 | the candidate list, sorted in place, holds every AVAILABLE driver in strict (distance, id) order |
| `AssignTrip.Session.UpdateDriver` | backend/internal/dispatch/postgres_repository.go:219-230 | the conditional claim matches exactly if the row is AVAILABLE when it is locked |
| `AssignTrip.Session.UpdateTrip` | backend/internal/dispatch/postgres_repository.go:236-246 | the conditional trip update matches exactly if the trip is PENDING |
| `AssignTrip.Session.CommitTx` | backend/internal/dispatch/postgres_repository.go:249-252 | the commit publishes both rows together and is recorded as this session's own |
| `AssignTrip.Session.TryCandidate` | backend/internal/dispatch/postgres_repository.go:217-252 | one turn of the loop: an answer that keeps all promises and has committed exactly what it says, or nothing committed and the loop invariant intact; an infrastructure error if and only if one of its statements ended in one |
| `AssignTrip.Session.Claim` | backend/internal/dispatch/postgres_repository.go:217-232 | a candidate is given up exactly when it is no longer AVAILABLE, and that is no error |
| `AssignTrip.Session.AssignClaimed` | backend/internal/dispatch/postgres_repository.go:234-252 | once a driver is claimed: success commits this pair, a refused trip was not PENDING, an error means that one of its statements ended in one |
| `AssignTrip.Session.CommitAssignment` | backend/internal/dispatch/postgres_repository.go:249-252 | with both rows written only COMMIT remains: it takes effect on exactly these two rows, acknowledged or not, or not at all |
| `AssignTrip.Session.AssignTrip` | backend/internal/dispatch/postgres_repository.go:176-256 | an infrastructure error if and only if one of its own statements ended in one; otherwise it commits exactly this trip with the then nearest driver, once, or there is no AVAILABLE driver, or the trip was not PENDING; every error but a lost COMMIT acknowledgement commits nothing |
| `AssignTrip.CreateTrip` | backend/internal/handlers/handlers.go:276-293 | the reply equals the stored row if and only if no COMMIT acknowledgement was lost; the session commits this trip's assignment or nothing; a fresh trip is never refused, so without a failing statement it is assigned or no driver is AVAILABLE |
| `AssignTrip.FallbackDispatcher.CreateTrip` | backend/internal/handlers/handlers.go:294-311 | the fallback assigns exactly if a driver is AVAILABLE and the store accepts the write; otherwise the driver is released; reply and stored row agree |
| `AssignTrip.InsertKeepsLinked` | backend/internal/handlers/handlers.go:273-276 | inserting a PENDING trip keeps trips and drivers linked |
| `Fleet.BeforeIsStrictTotal` | backend/internal/dispatch/postgres_repository.go:210-215 | (distance, id) is a strict total order, so the sort has one result |
| `Fleet.NearestMeans` | backend/internal/dispatch/driver.go:101-110 | nearest in terms of distances and ids alone: nobody AVAILABLE is closer, and among equally close ones the id comes first at the first differing character |
| `Ordering.LexLessIff` | backend/internal/dispatch/postgres_repository.go:210-215 | the string order is decided by the first difference |
| `Fleet.NearestIsUnique` | backend/internal/dispatch/driver.go:95-116 | at most one driver is nearest, so the scan has the same answer for every iteration order of the map |
| `Fleet.Repository.FindNearestAvailable` | backend/internal/dispatch/driver.go:95-116 | the scan, in any order, returns the nearest AVAILABLE driver with its distance, and an error exactly if there is none |
| `Fleet.RankingHeadIsNearest` | backend/internal/dispatch/postgres_repository.go:206-217 | the head of the sorted candidate list is that same driver, and the list is empty exactly if none is AVAILABLE |
| `Fleet.RankingExists` | backend/internal/dispatch/postgres_repository.go:183-215 | every table of drivers has such a list |
| `Fleet.RankingLength` | backend/internal/dispatch/postgres_repository.go:190-205 | the list has one entry per AVAILABLE driver |
| `Fleet.SortedRowsAreRanking` | backend/internal/dispatch/postgres_repository.go:190-215 | sorting one row per AVAILABLE driver yields the list |
| `Fleet.Repository.Seed` | backend/internal/dispatch/driver.go:64-77 | all given positions are stored with generated ids and AVAILABLE where those are missing, the last of equal ids wins, all other drivers stay |
| `Fleet.SeededPosition` | backend/internal/dispatch/driver.go:67-76 | in the table, a missing id is the generated one, a missing status AVAILABLE, and the rest is as given |
| `Fleet.Repository.SetStatus` | backend/internal/dispatch/driver.go:120-129 | changes the status of exactly one driver, or nothing if the id is unknown |
| `Ordering.SortBySorts` | backend/internal/dispatch/postgres_repository.go:210-215 | the sort yields a sorted permutation for every strict total order |
| `MLClient.Predict` | backend/internal/mlclient/client.go:64-99 | the retry loop ends within maxRetries * timeout + 100ms * (2^(maxRetries-1) - 1), makes at most maxRetries calls starting at once with pauses 100, 200, 400 ms, none after the context ended, and returns the last call's answer; an ended context is reported at once or at the end of the call under way |
| `MLClient.SpentClosedForm` | backend/internal/mlclient/client.go:70-98 | the doubling pauses add up to that closed form |
| `WorkerPool.StepKeepsInv` | backend/internal/workers/pool.go:68-153 | the queue is exactly the accepted jobs not started, in order; every started job is held by one worker or resolved once; the counters are exact |
| `WorkerPool.StepCountsWorkers` | backend/internal/workers/pool.go:75-117 | the busy counter moves only with the start and end of `process` |
| `WorkerPoolResults.PoolIsBounded` | backend/internal/workers/pool.go:46-132 | queue <= capacity; in-flight calls <= busyWorkers <= N; accepted = queued + held + delivered + dropped; unfinished <= capacity + N; dropped only if the job's context ended |
| `WorkerPoolResults.JobsStartInOrder` | backend/internal/workers/pool.go:75-88 | jobs start in submission order, each once |
| `WorkerPoolResults.ShutdownHasDrained` | backend/internal/workers/pool.go:134-153 | once every worker has exited: queue empty, nobody busy, each accepted job processed once, with one result unless its own context ended |
| `WorkerPoolResults.DrainTerminates` | backend/internal/workers/pool.go:137-153 | after the close the workers have a fixed number of steps left, and one can step until all have exited |
| `WorkerPoolResults.WaitIsBounded` | backend/internal/workers/pool.go:68-132 | a job accepted behind q queued jobs starts within (q / N + 1) services |
| `WorkerPoolResults.WorstCaseWait` | backend/internal/mlclient/client.go:70-98 | hence within ceil(capacity / N) times the bound of the retry loop |
| `WorkerPoolResults.TimeNeverSticks` | backend/internal/workers/pool.go:75-117 | the bound is not vacuous: when time cannot pass a worker can step, and no call is cut short |
| `WorkerPoolApi.Pool.constructor` | backend/internal/workers/pool.go:57-73 | a started pool is empty, open and idle |
| `WorkerPoolApi.Pool.Submit` | backend/internal/workers/pool.go:119-132 | never blocks: accepted exactly if open and a worker is parked or a place free, and then handed over or queued last as a new job; otherwise nothing changes |
| `WorkerPoolApi.Pool.Receive` | backend/internal/workers/pool.go:75-88 | takes the oldest job, exits if closed and drained, else stays blocked |
| `WorkerPoolApi.Pool.Resolve` | backend/internal/workers/pool.go:107-116 | sends the one result, or drops it only if the caller's context has ended |
| `WorkerPoolApi.Pool.Process` | backend/internal/workers/pool.go:90-117 | the job ends resolved once and the busy count is restored |
| `WorkerPoolApi.Pool.Shutdown` | backend/internal/workers/pool.go:137-139 | closes the queue and changes nothing else |
| `WorkerPoolApi.Pool.Stats` | backend/internal/workers/pool.go:163-169 | reports a queue length within the capacity and a busy count between 0 and N |
| `Bytes.AtoiInvertsItoa` | backend/internal/cache/redis_client.go:140-143 | what `%d` prints is read back by `Atoi`, over all 64-bit integers |
| `Bytes.NoLeadingZero` | backend/internal/cache/redis_client.go:110-115 | no length or number is printed with a leading zero |
| `Resp.RepliesOnTheWire` | backend/internal/cache/redis_client.go:119-165 | each kind of reply in the protocol's own bytes |
| `Resp.TypeIsFirstByte` | backend/internal/cache/redis_client.go:126-131 | the type returned is the reply's first byte |
| `Resp.CutReplyIsBad` | backend/internal/cache/redis_client.go:119-165 | every proper prefix of a well-formed reply, nested arrays included, is an error |
| `Resp.MalformedIsError` | backend/internal/cache/redis_client.go:124-164 | unknown types, bulk lengths that are no numbers and empty lines are errors |
| `Resp.CutGetIsBroken` | backend/internal/cache/redis_client.go:211-235 | a reply to GET that is cut off is an error and the connection is given up |
| `Resp.ReadReplyInvertsEncode` | backend/internal/cache/redis_client.go:119-165 | for every well-formed reply, nested arrays included, and any following bytes: its value (last element of an array) is returned and exactly the following bytes are left |
| `Resp.ReadElemsInvertsEncode` | backend/internal/cache/redis_client.go:148-161 | the element loop consumes exactly the elements |
| `Resp.ReadGetReads` | backend/internal/cache/redis_client.go:211-235 | what GetOrNil's own parser makes of every kind of reply |
| `Resp.GetStaysInStep` | backend/internal/cache/redis_client.go:211-235 | GetOrNil hands back a connection with nothing of the reply unread if and only if the reply is not a non-empty array |
| `Resp.GetArrayReplyLeavesBytes` | backend/internal/cache/redis_client.go:216-219 | a concrete array reply of which GetOrNil leaves an element unread |
| `Resp.WriteCommand` | backend/internal/cache/redis_client.go:109-117 | the loop builds the array-of-bulk-strings encoding |
| `Resp.ParseCommandInverts` | backend/internal/cache/redis_client.go:109-117 | a server that insists on CR LF and on plain decimal lengths reads a written command back to the same arguments, whatever bytes they hold |
| `Resp.CommandOnTheWire` | backend/internal/cache/redis_client.go:109-117 | PING, byte for byte |
| `RespReader.Reader.NextLine` | backend/internal/cache/redis_client.go:167-173 | returns the next line, trimmed, and leaves what follows it |
| `RespReader.Reader.ReadFull` | backend/internal/cache/redis_client.go:175-185 | fills the buffer with exactly the next bytes, however reads split them, or fails exactly if too few come |
| `RespReader.Reader.NextReply` | backend/internal/cache/redis_client.go:119-165 | the recursive reader equals the specification parser in outcome and in what it leaves |
| `RespReader.Reader.NextElements` | backend/internal/cache/redis_client.go:148-161 | so does the loop over array elements |
| `RespReader.Reader.NextGet` | backend/internal/cache/redis_client.go:211-235 | so does GetOrNil's reader |
| `RedisPool.StepKeepsInv` | backend/internal/cache/redis_client.go:53-107 | every take, dial, write, read, failure and release keeps the pool sound |
| `RedisPool.InterpretsOwnReply` | backend/internal/cache/redis_client.go:97-107 | on a connection holding its own reply a caller gets the promised answer and leaves nothing |
| `RedisPool.RepliesAreOwn` | backend/internal/cache/redis_client.go:79-107 | over every run with failures, a caller's result is an error or the server's answer to its own command |
| `RedisPool.ErrorsComeFromFailures` | backend/internal/cache/redis_client.go:79-107 | a caller gets an error of the client only when dialling, writing or reading failed for it |
| `RedisPool.ReadReleases` | backend/internal/cache/redis_client.go:63-75 | after a reply the connection is back in the pool, open and with nothing unread, if there is room, and closed otherwise |
| `RedisPool.NoAnswerWithoutWrite` | backend/internal/cache/redis_client.go:80-95 | a caller that never wrote its command never returns a value |
| `RedisPool.EveryConnectionAccountedFor` | backend/internal/cache/redis_client.go:53-75 | pool within poolSize, no duplicates, pooled connections have nothing unread, every open connection is pooled or held by exactly one caller |
| `RedisClient.Client.GetConn` | backend/internal/cache/redis_client.go:53-61 | a pooled connection if there is one, a dialled one otherwise, clean either way |
| `RedisClient.Client.PutConn` | backend/internal/cache/redis_client.go:63-75 | pooled if healthy and there is room, else closed |
| `RedisClient.Client.Do` | backend/internal/cache/redis_client.go:79-107 | returns type and value of the reply to its own command, or the server's error, exactly if connecting, writing and reading succeed; the pool is sound again on every path |
| `RedisClient.Client.GetOrNil` | backend/internal/cache/redis_client.go:196-236 | a bulk string is a hit, a nil one a miss, anything else an unexpected reply, exactly if connecting, writing and reading succeed; assumes no non-empty array |
| `WebSocketFrames.XorDiffers` | backend/internal/wsserver/websocket.go:185-189 | a bit of the masked byte is set exactly where byte and key differ |
| `WebSocketFrames.XorIsUnique` | backend/internal/wsserver/websocket.go:185-189 | and no other byte has those bits |
| `WebSocketFrames.ZeroKeyKeeps` | backend/internal/wsserver/websocket.go:185-189 | a zero key changes nothing |
| `WebSocketFrames.HeaderBits` | backend/internal/wsserver/websocket.go:90-93 | FIN set, reserved bits clear, the opcode; the mask bit clear from the server and set from a client |
| `WebSocketFrames.BrowserReadsFrame` | backend/internal/wsserver/websocket.go:90-115 | a receiver that follows section 5.2 of RFC 6455 to the letter accepts every frame written and gets opcode and payload |
| `WebSocketFrames.FramesOnTheWire` | backend/internal/wsserver/websocket.go:90-115 | frames of section 5.7 of RFC 6455, byte for byte |
| `WebSocketFrames.CutFrameIsReadError` | backend/internal/wsserver/websocket.go:151-192 | every proper prefix of a frame is a read error |
| `WebSocketFrames.CutStreamIsBroken` | backend/internal/wsserver/websocket.go:127-149 | a stream that ends inside a frame is an error, after the pings before it are answered |
| `WebSocketFrames.EveryPingOnce` | backend/internal/wsserver/websocket.go:136-143 | the pings answered are all those of the frames, in their order, with their payloads |
| `WebSocketConn.PongsOnTheWire` | backend/internal/wsserver/websocket.go:136-143 | the pongs on the wire are frames with opcode 10 and the pings' payloads |
| `WebSocketFrames.XorUndoes` | backend/internal/wsserver/websocket.go:185-189 | masking a byte twice restores it |
| `WebSocketFrames.MaskUndoes` | backend/internal/wsserver/websocket.go:185-189 | masking a payload twice with one key restores it |
| `WebSocketFrames.BigEndianRoundTrip` | backend/internal/wsserver/websocket.go:95-107 | the big-endian length fields read back |
| `WebSocketFrames.AnnouncedIsLength` | backend/internal/wsserver/websocket.go:95-107 | the chosen form announces the payload's length |
| `WebSocketFrames.ShortestForm` | backend/internal/wsserver/websocket.go:95-107 | no legal length form for that length is shorter (section 5.2 of RFC 6455) |
| `WebSocketFrames.ParseInvertsEncode` | backend/internal/wsserver/websocket.go:90-115 | readFrame inverts writeFrame for every opcode and payload and consumes exactly the frame |
| `WebSocketFrames.ParseInvertsMasked` | backend/internal/wsserver/websocket.go:151-192 | and inverts the masked client encoding for every 4-byte key (section 5.3 of RFC 6455) |
| `WebSocketFrames.ReceivesFirstMessage` | backend/internal/wsserver/websocket.go:127-149 | on any stream of well-formed frames with a text or close frame: the first of them decides the result, one pong per earlier ping in order with its payload, the rest unread |
| `WebSocketFrames.KeepsReading` | backend/internal/wsserver/websocket.go:127-149 | without one, the loop goes on with what follows, having answered every ping |
| `WebSocketConn.Conn.WriteFrame` | backend/internal/wsserver/websocket.go:90-115 | header and payload, in two writes, are exactly the frame; after a failed write a prefix of it has been sent |
| `WebSocketConn.Conn.Unmask` | backend/internal/wsserver/websocket.go:185-189 | unmasks the payload buffer in place |
| `WebSocketConn.Conn.ReadFrame` | backend/internal/wsserver/websocket.go:151-192 | the reader equals the frame parser in outcome and in what it leaves |
| `WebSocketConn.Conn.ReadMessage` | backend/internal/wsserver/websocket.go:127-149 | with every write succeeding, result, unread bytes and pongs written are those due; a write error is reported if and only if one of the writes of those pongs fails |
| `WebSocketConn.ReadFromStream` | backend/internal/wsserver/websocket.go:127-149 | on a stream of client frames: the first text message or EOF, a pong per earlier ping, the rest unread; an error if and only if a pong's write fails |
| `Hub.StepKeepsInv` | backend/internal/wsserver/hub.go:36-102 | every interleaved step of joining, leaving, pumping and broadcasting keeps the hub sound |
| `Hub.ChannelsAreSafe` | backend/internal/wsserver/hub.go:36-102 | no send on a closed channel, at most 32 buffered, messages taken and written are prefixes of those enqueued |
| `Hub.SkippedOnlyWhenFull` | backend/internal/wsserver/hub.go:92-102 | a broadcast skips only a registered client with 32 messages pending at that moment |
| `Hub.BroadcastReachesEveryone` | backend/internal/wsserver/hub.go:88-102 | a finished broadcast was enqueued exactly once for each client registered when it began and not skipped, and for nobody else |
| `Hub.RegistryFrozenDuringBroadcast` | backend/internal/wsserver/hub.go:92-95 | the set of registered clients is fixed while a broadcast runs |
| `Hub.UndisturbedBroadcast` | backend/internal/wsserver/hub.go:92-102 | a broadcast nothing interrupts offers the message once to every registered client and to nobody else, in any order |
| `Hub.ConnectedIsPumped` | backend/internal/wsserver/hub.go:45-47 | a connected client none of whose writes failed has a pump at work |
| `HubObject.HubClients.Broadcast` | backend/internal/wsserver/hub.go:92-102 | appends to every channel with room, skips exactly the full ones, in any visiting order, never on a closed channel |
| `HubObject.HubClients.Join` | backend/internal/wsserver/hub.go:36-42 | a new client is registered with an empty open channel |
| `HubObject.HubClients.Leave` | backend/internal/wsserver/hub.go:50-54 | the client is out of the map before its channel is closed, so registered channels stay open |
| `RateLimit.KeysAreDistinct` | backend/internal/ratelimit/limiter.go:42-43 | (identifier, window) to key is injective, identifiers with colons included |
| `RateLimit.CounterIsExact` | backend/internal/ratelimit/limiter.go:45-54 | a running window is never reset by expiry: its counter is the number of INCRs applied to it |
| `RateLimit.KeyExpires` | backend/internal/ratelimit/limiter.go:49-54 | after a first request without an error the key expires windowSeconds later, whatever follows |
| `RateLimit.VerdictIsWindowCount` | backend/internal/ratelimit/limiter.go:41-56 | a request passes exactly if INCR failed or its window's count is within the limit |
| `RateLimit.PassesPerWindow` | backend/internal/ratelimit/limiter.go:16-20 | an identifier's passes in a window are exactly min(requests, limit) if none of those requests met an INCR error, and never more than the limit by count |
| `RateLimit.SpanIsBounded` | backend/internal/ratelimit/limiter.go:22-26 | any span of m windows admits at most (m + 1) * limit plus the requests let through by errors |
| `RateLimit.Redis.IncrKey` | backend/internal/ratelimit/limiter.go:45-48 | INCR with loss of the command or of its reply |
| `RateLimit.Redis.ExpireKey` | backend/internal/ratelimit/limiter.go:49-54 | EXPIRE, possibly lost |
| `RateLimit.Limiter.AllowRequest` | backend/internal/ratelimit/limiter.go:41-56 | the method yields the specified store and verdict after any history of requests |
| `PredictionKeys.FormatFixedInjective` | backend/internal/cache/prediction_cache.go:39-40 | equal `%.4f` texts come from equal rounded coordinates |
| `PredictionKeys.RawKeyInjective` | backend/internal/cache/prediction_cache.go:39-43 | the text hashed determines coordinates, passenger count and bucket text |
| `PredictionKeys.KeysAgreeIff` | backend/internal/cache/prediction_cache.go:37-46 | two requests share a key if and only if those agree |
| `PredictionKeys.ParsedKeysAgreeIff` | backend/internal/cache/prediction_cache.go:48-58 | for parsed times, if and only if the wall-clock minutes of the slots agree |
| `PredictionKeys.WallClockKeysAgreeIff` | backend/internal/cache/prediction_cache.go:48-58 | the same in terms of the slot's start: at most the local minute, less than ten minutes before it, counted in UTC |
| `PredictionKeys.UnparsableKeysAgreeIff` | backend/internal/cache/prediction_cache.go:48-55 | times that do not parse share a key if and only if the requests are equal |
| `PredictionKeys.MixedKeysAgreeIff` | backend/internal/cache/prediction_cache.go:48-58 | a time that does not parse shares a key with one that does if and only if its text is that of the slot's start |
| `PredictionKeys.OffsetsCanCollide` | backend/internal/cache/prediction_cache.go:56-57 | two trips two hours apart, with different UTC offsets, that share a key |
| `PredictionKeys.SameOffsetKeysAgreeIff` | backend/internal/cache/prediction_cache.go:48-58 | with equal offsets, UTC in particular, if and only if floor(t / 600 s) agrees |
| `PredictionCache.StepKeepsInv` | backend/internal/handlers/handlers.go:91-170 | every interleaved step of handlers, expiry and failing reads and writes keeps cache entries and pending answers genuine |
| `PredictionCache.HitsComeFromTheModel` | backend/internal/handlers/handlers.go:91-99 | a cache hit equals, but for CacheHit, an answer the ML client gave earlier for the same key |
| `PredictionCache.StoredAnswerIsServed` | backend/internal/handlers/handlers.go:91-99 | what was stored is what a later readable lookup with that key is served, until it expires or is replaced |
| `PredictionCache.ReturnedByTheModel` | backend/internal/handlers/handlers.go:125-139 | the record of those answers contains nothing else |
| `PredictHandler.Cache.Get` | backend/internal/cache/prediction_cache.go:64-74 | an unreadable or missing entry is a miss, anything else is returned as stored: an answer of the ML client for that key, CacheHit cleared |
| `PredictHandler.Cache.Set` | backend/internal/cache/prediction_cache.go:79-85 | stores under the key or, on failure, leaves the cache as it was |
| `PredictHandler.Handler.Predict` | backend/internal/handlers/handlers.go:79-170 | a hit is served with CacheHit set; a full or closed queue gives 503; an answer is served and stored with CacheHit cleared; a client error gives 502, a lost caller nothing (502 in synchronous mode), neither touching the cache; hits + misses counts the valid requests; the record of the ML client's answers grows by exactly the answer taken |
| `Histogram.CountIsCardinality` | backend/internal/metrics/metrics.go:122-132 | a bucket counts exactly the observations at most its bound |
| `Histogram.TotalAdds` | backend/internal/metrics/metrics.go:122-132 | the sum starts at zero and grows by each observation |
| `Histogram.CountsNeverDecrease` | backend/internal/metrics/metrics.go:122-132 | counts at most a bound never decrease as the bound grows and never exceed the observations |
| `Histogram.ExpositionIsCumulative` | backend/internal/metrics/metrics.go:260-282 | so the lines emitted never decrease, the +Inf line included |
| `Histogram.Histogram.constructor` | backend/internal/metrics/metrics.go:115-120 | bounds given in any order are sorted into a private copy, all counts zero |
| `Histogram.Histogram.Observe` | backend/internal/metrics/metrics.go:122-132 | after any observations, counts[i] is the number of them at most the i-th smallest bound |
| `Histogram.Histogram.Write` | backend/internal/metrics/metrics.go:260-282 | one line per bound in ascending order, +Inf equal to the number of observations, with their sum and count |

## Left out

- Interleaved protocols are stated on values: a Dafny method cannot be pre-empted, so runs over many goroutines are sequences of states, and the classes beside them run one call at a time (`AssignTrip.Session` excepted). Aliasing between goroutines is not captured.
- Scheduling inside one broadcast or one Redis exchange in the class forms: `HubObject` and `RedisClient` take each call whole; the machines `Hub` and `RedisPool` have the interleavings.
- Great-circle distance, floating-point rounding and NaN: distances and observations are reals, coordinates are sign and ten-thousandths.
- DispatchProtocol has no OFFLINE changes and no release of drivers while assignments run, because the production path has neither; the tables may hold OFFLINE drivers.
- `SeedIfEmpty`; limits of the database connection pool; CHECK and foreign-key constraints.
- PostgreSQL errors are outcomes of a statement (`Fail`), not modelled by kind; a connection lost during COMMIT appears as a commit that took effect (`LoseAck`) or as `Fail`.
- AssignTrip.CreateTrip: does not model a failing insertion of the trip, because the handler then returns before any dispatch.
- Cancellation of the pool's context, `Submit` racing `Shutdown`, a second `Shutdown`, and the expiry of `Shutdown`'s own deadline.
- WorkerPool time passes in whole milliseconds and only while no idle worker could take a queued job; scheduler delays and the time spent outside the ML call are taken as zero.
- `doOnce` (HTTP, status codes, decoding) is a parameter: how long the call takes and what it returns.
- Use of the Redis client after `Close`, connection deadlines, `Ping` and `SetEX` (a `Do` with other arguments), malformed replies beyond the parser's error outcomes.
- WebSocket handshake, fragmentation and oversized control frames (unsupported by the code), and the byte interleaving of pongs with pump writes on one connection.
- `ReadMessage` on a 64-bit length with the top bit set is kept only as a crash outcome. Positive lengths beyond what the allocator grants, on which `make` also panics, count as reads that end early, in `Resp.ReadBulk` and `WebSocketFrames.ParseBody` alike.
- PredictHandler.Handler.Predict: takes the outcome of validation, the answer of the worker or client and cache failures as parameters, because the worker runs in its own goroutine; JSON, HTTP and logging are left out.
- Rate-limiter clock skew between server and Redis, and eviction of keys by memory pressure.
- Counters, gauges, label vectors and the text format of `/metrics`: one branch each.
- Trip repositories, the simulator, the load tester, `frontend/` and `ml-service/`.

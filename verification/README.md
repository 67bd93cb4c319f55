# Nice BiDi-WiFi integration: a verified model

This project models, in Dafny, the parts of the Nice gate integration where behaviour depends
on state, time, interleaving or arithmetic, and proves what they promise. `dafny verify
dfyconfig.toml` checks all of it.

* **Routes** (`Connection`, `Client`, `ClientRuns`, `ClientLaws`, `Router`, `RouterRuns`,
  `RouterSchedule`, `RouterEdges`). The router picks the LAN or the relay for every operation, on
  top of two clients that open transports, perform the CONNECT handshake, number requests and
  retry reads. `Connection`, `Client` and `Router` hold the source's mutable objects as classes,
  each method proved equal to a step function on a value; the `...Runs` modules prove what those
  steps keep over every sequence of operations, `ClientLaws` and `RouterSchedule` tell from the
  environment and the history what single steps mean, and `RouterEdges` says where the router's
  promises end. The environment decides every connection attempt, handshake, reply and clock
  reading.
* **Frames** (`Framing`, `Transport`, `StrictReader`). STX/ETX framing of byte streams: what it
  means for a stream to consist of frames, the incremental reader of the integration and the
  strict reader of the proxy.
* **Responses** (`Dispatcher`, `DispatcherRuns`). One reader serves many exchanges. The lock-held
  regions are the atomic steps, among them the one in which a waiter's answer is fixed and the later
  one in which it leaves, and the results hold for every interleaving of them.
* **Positions** (`Position`, `PositionRuns`, `PositionLaws`, `Encoder`, `TargetStop`, `LiveStatus`).
  Where the displayed position comes from, how it is animated between reports, encoder arithmetic
  in both orientations, and the watcher that sends Stop at a target.
* **Calibration and T4 frames** (`Sorting`, `Estimator`, `Calibration`, `T4Frames`). Choice of the
  calibration sample, medians, interpolated stop positions, and DMP and DEP frames with their
  lengths and checksums.

Where a class method is proved equal to a step function, the function's own meaning is stated by
the lemmas of the matching `...Runs`, `...Laws` or `...Schedule` module, or of the same module, in
terms of inputs, history and published results rather than of the function.

## What the code does not do

Some plausible promises are false of the code; each is stated exactly.

* `set_route_state` stores the new state before it rejects an activation, so a rejected call can
  leave a disconnected route active (`Connection.ConsistencyKeptIff`).
* The local route stays selected at the failure threshold when the failure that reaches it is an
  authentication failure, and only then (`RouterRuns.ThresholdReachedIff`; two refused reads do it,
  `RouterRuns.AuthFailuresReachThreshold`), until a local call succeeds or fails on a connection
  error (`RouterRuns.ThresholdLeftIff`). Runs without local authentication failures are free of it
  (`RouterRuns.BelowWithoutAuthFailures`).
* The coordinator reads the active route and reports on it without the router's lock. A late report
  that calls a route connected which is no longer selected makes it active; no other late report
  does harm (`RouterRuns.LateReportAgreesIff`, `RouterRuns.LateReportCanDisagree`; a run that gets
  there is `RouterEdges.LateReportRun`).
* The gate of the event callbacks is read without the lock too. Inside an operation it lets events
  of an unselected route through exactly in the read that completes the recovery, while the cloud
  is still active, and events of a disconnected route exactly while an operation takes the
  connection from the active one (`RouterEdges.EventsInsideOperations`).
* While the cloud is selected, a local probe that fails to authenticate ends the read and stays
  due. As long as the local route refuses, every read fails and the cloud is never asked
  (`RouterEdges.RefusalsBlockTheCloud`; such runs are those of `RouterEdges.RefusalsRun`).
* Exchanges are compared by value when a waiter leaves the list. If an earlier exchange has equal
  fields it is removed instead, and its response can be given to the one that left
  (`DispatcherRuns.LeaveExactIff`, `DispatcherRuns.EqualTwinsAreConfused`). The client never
  gets there, because its request identifiers are distinct (`DispatcherRuns.ClientIdentifiersDistinct`).
* A waiter fixes what it returns in one lock-held region and leaves the list in a later one. Its
  response, routed in between, is lost: it is consumed, not published, and not returned. A response
  after the answer is published exactly when its waiter has left by then or had a response before
  (`DispatcherRuns.LateResponsePublishedIff`, `DispatcherRuns.LateResponseIsLost`; such a run is
  `DispatcherRuns.LateResponseCanBeLost`).
* A matched response is lost when 64 or more frames are routed to its exchange before the waiter
  wakes (`DispatcherRuns.RightAnswer`; such runs are those of `DispatcherRuns.AnswerCanBeLost`).
* The animation never reaches an endpoint the gate was not at, but the display, rounded to one
  decimal, shows it when the anchor was within 0.05 of it (`PositionRuns.EndpointShownIff`; a run
  that does is `PositionRuns.EndpointShownAwayFromIt`).
* A Stop sent while moving does not freeze the display when the status held at its acceptance has
  another position (`PositionRuns.StopFreezesIff`); the display can jump back
  (`PositionRuns.StopCanJumpBack`).
* Without a planned delay the watcher has no reason to end when the gate moved and then, short of
  the stop point or without a position, rests partially open, moves the other way or reports an
  unknown state; it polls for ever (`TargetStop.PartiallyOpenNeverEnds`).
* A calibration sample does not always decide the stop for its target: of equal targets the first
  accepted one does, and at 100 the open end does (`Calibration.CalibratedStopHitsSamples`,
  `Calibration.CalibratedStopOfSample`).
* `build_dmp_write_frame` lets values of 243 to 255 bytes through its length check although their
  frames cannot be built (`T4Frames.WriteBuildableIff`), and the header of a DEP frame balances only
  for targets whose bytes XOR to 3 (`T4Frames.DepFrameShape`).
* The greatest value of a register size is written as it is and reads back as unavailable
  (`T4Frames.WriteReadsBack`).

## Model

| member | source | states |
|---|---|---|
| Connection.NiceConnectionHealth.FromPolicy | custom_components/nice_bidiwifi/connection.py:42-60 | configured routes start unknown, others not configured, and no route is active |
| Connection.NiceConnectionHealth.SetRouteState | custom_components/nice_bidiwifi/connection.py:62-91 | the exact new health and verdict, including what a rejected activation has already stored; an accepted update keeps "active implies connected" |
| Connection.NiceConnectionHealth.MarkOverallState | custom_components/nice_bidiwifi/connection.py:93-110 | an overall state lands on one route, and is accepted exactly for configured routes |
| Connection.ConsistencyKeptIff | custom_components/nice_bidiwifi/connection.py:62-91 | the exact call that loses "active implies connected" |
| Connection.RejectedUpdateCanBreakConsistency | custom_components/nice_bidiwifi/connection.py:81-88 | a concrete rejected call that loses it |
| Connection.UpdateMeans | custom_components/nice_bidiwifi/connection.py:62-91 | which updates are accepted, and what each does to its route, the active route and the other one |
| Connection.OverallLands | custom_components/nice_bidiwifi/connection.py:93-110 | what a reported overall state makes of its route, of the active route and of the other one |
| Client.NiceBidiClient.OpenLocked | custom_components/nice_bidiwifi/client.py:401-434 | at most three attempts, stopping at the first success or unexpected error |
| Client.NiceBidiClient.ConnectLocked | custom_components/nice_bidiwifi/client.py:436-466 | CONNECT goes out with identifier 0; only a granted session installs id, key and sequence 1 |
| Client.NiceBidiClient.EnsureConnectedLocked | custom_components/nice_bidiwifi/client.py:468-477 | reuses a live session, else closes, opens and connects; success means a transport and a key |
| Client.NiceBidiClient.RunWithReconnect | custom_components/nice_bidiwifi/client.py:367-386 | the two-attempt loop with a close and one counted reconnect in between |
| Client.NiceBidiClient.RunCommandOnce | custom_components/nice_bidiwifi/client.py:388-399 | one attempt; authentication and connection errors close the session |
| ClientRuns.RunKeeps | custom_components/nice_bidiwifi/client.py:367-508 | over every run the wire is legal: CONNECT first and once per transport, increasing identifiers, nothing on a closed transport |
| ClientRuns.Perform | custom_components/nice_bidiwifi/client.py:367-399 | the client object takes the step of the run and keeps the wire legal through any operation |
| ClientRuns.IdentifiersNeverReused | custom_components/nice_bidiwifi/client.py:505-531 | on one transport identifiers strictly increase, only CONNECT has 0, all others are at least 256 |
| ClientRuns.ConnectComesFirst | custom_components/nice_bidiwifi/client.py:436-477 | every request on a transport is preceded by CONNECT on it |
| ClientRuns.NoTransportLeak | custom_components/nice_bidiwifi/client.py:401-496 | transports opened minus closed is exactly the one still held, at every boundary of every run |
| ClientRuns.RequestIdDecodes | custom_components/nice_bidiwifi/client.py:505-508 | an identifier decodes to its sequence and session byte |
| ClientRuns.CommandAtMostOnce | custom_components/nice_bidiwifi/client.py:388-399 | a command frame is handed over at most once, exactly once on success, with the next identifier of its session, at most one CONNECT and no retry |
| ClientRuns.ReadRunsAtMostTwice | custom_components/nice_bidiwifi/client.py:367-386 | a read sends no command, makes a second attempt exactly when the first fails on a connection error, so CONNECTs, queries and the counted reconnect are bounded by those attempts, and leaves nothing open after a final one |
| ClientLaws.SessionReady | custom_components/nice_bidiwifi/client.py:401-477 | a live session is used as it is; otherwise the outcome, the wire, the granted identifier and the sequence of a new one |
| ClientLaws.CommandOnWire | custom_components/nice_bidiwifi/client.py:388-399 | the exact frames of a command over a live or a new session; lost, it closes the session |
| ClientLaws.CommandNotHanded | custom_components/nice_bidiwifi/client.py:388-399 | how a command ends that is not handed over, and which endings cost the session |
| ClientLaws.AttemptEnds | custom_components/nice_bidiwifi/client.py:367-386 | how one attempt of a read ends |
| ClientLaws.ReadOnLiveSession | custom_components/nice_bidiwifi/client.py:367-386 | a successful read over a live session sends its queries there, with the next identifiers, and nothing else |
| ClientLaws.ReadStartsOver | custom_components/nice_bidiwifi/client.py:367-386 | a read that loses its connection starts over on a new session once, and how that ends |
| ClientLaws.CloseForgets | custom_components/nice_bidiwifi/client.py:479-496 | closing closes the transport once and forgets session, key and sequence |
| Router.NiceConnectionRouter.constructor | custom_components/nice_bidiwifi/connection_router.py:25-72 | the initial state for a valid policy, with clients for the configured endpoints only |
| Router.NiceConnectionRouter.Call | custom_components/nice_bidiwifi/connection_router.py:143-160 | one client call and the marks its outcome deserves |
| Router.NiceConnectionRouter.Read | custom_components/nice_bidiwifi/connection_router.py:162-219 | the read policy of the three modes |
| Router.NiceConnectionRouter.ReadLocalFirst | custom_components/nice_bidiwifi/connection_router.py:169-185 | local first, failing over at the threshold within the same read |
| Router.NiceConnectionRouter.Probe | custom_components/nice_bidiwifi/connection_router.py:188-218 | the recovery probe: back-off, counting and return |
| Router.NiceConnectionRouter.ReadCloudFirst | custom_components/nice_bidiwifi/connection_router.py:187-219 | probe when due, then the cloud unless the probe ended the read |
| Router.NiceConnectionRouter.Write | custom_components/nice_bidiwifi/connection_router.py:221-237 | one call on the selected route, failing over for later operations only |
| Router.NiceConnectionRouter.Report | custom_components/nice_bidiwifi/coordinator.py:231-246 | the coordinator's state lands on the active route, or nowhere |
| RouterRuns.RunAgrees | custom_components/nice_bidiwifi/connection_router.py:132-237 | at every boundary of every run the active route is none or the selected one and is connected, and unconfigured routes stay so |
| RouterRuns.Perform | custom_components/nice_bidiwifi/connection_router.py:162-331 | the router object takes the step of the run and keeps the agreement through any operation |
| RouterRuns.LateReportAgreesIff | custom_components/nice_bidiwifi/coordinator.py:231-246 | a report on a route read earlier keeps the agreement exactly when it does not call an unselected route connected |
| RouterRuns.LateReportCanDisagree | custom_components/nice_bidiwifi/coordinator.py:231-246 | one read in between that completes the recovery is enough |
| RouterRuns.ReadAgrees | custom_components/nice_bidiwifi/connection_router.py:162-219 | a successful read leaves active = selected = the route that answered |
| RouterRuns.WriteAgrees | custom_components/nice_bidiwifi/connection_router.py:221-237 | the same for writes |
| RouterRuns.EventsOnlyFromSelectedRoute | custom_components/nice_bidiwifi/connection_router.py:291-325 | at every operation boundary events pass only from the selected, connected route |
| RouterRuns.CountersSummariseHistory | custom_components/nice_bidiwifi/connection_router.py:132-141 | failures, recovery successes and probe interval are functions of the call history, the interval being the capped doubling by failed probes since the last return |
| RouterRuns.NoFlapping | custom_components/nice_bidiwifi/connection_router.py:162-237 | every return is at least 60 s after the failover before it; switches alternate; a run of length T has at most 2*floor(T/60)+1 of them |
| RouterRuns.WriteCallsOneRouteOnce | custom_components/nice_bidiwifi/connection_router.py:221-237 | a write reaches one route's client once and leaves the other untouched |
| RouterRuns.ReadCallsEachRouteOnce | custom_components/nice_bidiwifi/connection_router.py:162-219 | exactly which calls a read makes, each route at most once, none on the cloud after an authentication failure, and the last one answers |
| RouterRuns.OneRouteModes | custom_components/nice_bidiwifi/connection_router.py:164-167 | one-route modes never call, probe or switch to the other route |
| RouterRuns.ThresholdReachedIff | custom_components/nice_bidiwifi/connection_router.py:153-185 | a step leaves the local route selected at the threshold if and only if one failure is counted and its local call fails to authenticate |
| RouterRuns.ThresholdLeftIff | custom_components/nice_bidiwifi/connection_router.py:153-185 | and a step ends that if and only if its local call succeeds or fails on a connection error |
| RouterRuns.ThresholdMissedOnlyByAuth | custom_components/nice_bidiwifi/connection_router.py:153-185 | over every run local is selected at the threshold only while its last counted call is an authentication failure |
| RouterRuns.BelowWithoutAuthFailures | custom_components/nice_bidiwifi/connection_router.py:153-185 | runs without local authentication failures stay below the threshold while local is selected |
| RouterRuns.AuthFailuresReachThreshold | custom_components/nice_bidiwifi/connection_router.py:153-155 | and two refused reads do that |
| RouterRuns.ShutdownCloses | custom_components/nice_bidiwifi/connection_router.py:327-331 | after any run closing the router leaves no transport of its clients open, and changes nothing else |
| RouterSchedule.RunOnTime | custom_components/nice_bidiwifi/connection_router.py:176-218 | over every run the next probe is due when the history tells: 30 s after a failover or a good probe, the doubled and capped back-off after a bad one |
| RouterSchedule.ProbesOnSchedule | custom_components/nice_bidiwifi/connection_router.py:187-219 | with the cloud selected a read calls the local route first if and only if that time has come |
| RouterSchedule.BadProbeBacksOff | custom_components/nice_bidiwifi/connection_router.py:200-204 | a probe that fails on a connection error puts the next one off by the back-off of one more bad probe |
| RouterRuns.WriteSendsAtMostOnce | custom_components/nice_bidiwifi/connection_router.py:221-237 | one router write hands at most one command frame to any transport of either route, one on success |
| RouterRuns.ReadSendsNoCommand | custom_components/nice_bidiwifi/connection_router.py:162-219 | reads never send a command frame |
| RouterRuns.CommandsNeverMultiply | custom_components/nice_bidiwifi/connection_router.py:221-237 | over any run no more command frames than writes |
| RouterRuns.BothWiresStayLegal | custom_components/nice_bidiwifi/connection_router.py:143-160 | under the router both clients keep legal wires |
| RouterEdges.EventsInsideOperations | custom_components/nice_bidiwifi/connection_router.py:143-237 | over all moments of an operation, exactly when the gate lets events of an unselected or of a disconnected route through |
| RouterEdges.LateReportRun | custom_components/nice_bidiwifi/coordinator.py:231-246 | a run from the start after which a late report makes the unselected cloud active |
| RouterEdges.RefusalsBlockTheCloud | custom_components/nice_bidiwifi/connection_router.py:187-219 | over every run of reads whose due probes are refused the cloud is never asked and the probe stays due |
| RouterEdges.RefusalsRun | custom_components/nice_bidiwifi/connection_router.py:187-219 | such runs of every length follow a failover |
| RouterEdges.EnvironmentsExist | custom_components/nice_bidiwifi/client.py:401-466 | peers that are unreachable, grant or refuse end a read with a connection error, a success or an authentication failure, whatever the session |
| Framing.IndexOf | custom_components/nice_bidiwifi/transport/lan.py:58-69 | the first position of a byte from an offset, or its absence |
| Framing.ExtractIsUnique | custom_components/nice_bidiwifi/transport/lan.py:58-72 | a stream reads as junk and frames in one way only, and extraction finds it |
| Framing.ExtractReads | custom_components/nice_bidiwifi/transport/lan.py:58-72 | every stream reads that way |
| Framing.ExtractSplits | custom_components/nice_bidiwifi/transport/lan.py:58-92 | taking frames out early and keeping the remainder gives the frames of the whole stream |
| Framing.FrameRoundTrip | custom_components/nice_bidiwifi/protocol/nhk/codec.py:50-62 | a framed payload comes back, and is one frame exactly when it holds no ETX |
| Framing.PayloadStrips | custom_components/nice_bidiwifi/protocol/nhk/codec.py:53-62 | what is taken off any bytes: one leading STX and one trailing ETX |
| Framing.StreamRoundTrip | custom_components/nice_bidiwifi/protocol/nhk/codec.py:50-62 | any list of ETX-free payloads, with STX-free junk in between, arrives as sent |
| Transport.SocketFrameTransport.BufferedFrame | custom_components/nice_bidiwifi/transport/lan.py:58-72 | takes one frame out of the buffer in place, or trims it to the start of one |
| Transport.SocketFrameTransport.ReceiveLoop | custom_components/nice_bidiwifi/transport/lan.py:82-92 | the receiving loop over chunks, timeouts, end of stream and errors |
| Transport.SocketFrameTransport.ReadFrame | custom_components/nice_bidiwifi/transport/lan.py:74-92 | delivers the next frame of the stream; otherwise the buffer is empty or starts with STX and holds no ETX |
| Transport.SocketFrameTransport.Close | custom_components/nice_bidiwifi/transport/lan.py:94-100 | detaches the socket and discards the buffer |
| Transport.ReadAccounts | custom_components/nice_bidiwifi/transport/lan.py:74-92 | what was buffered or arrived is the returned frame followed by what is buffered now |
| Transport.ReadReturns | custom_components/nice_bidiwifi/transport/lan.py:58-92 | when a read returns: with the first frame as soon as it is complete, with nothing on a timeout, raising on a closed or broken connection |
| Transport.ChunkingDoesNotMatter | custom_components/nice_bidiwifi/transport/lan.py:58-92 | whatever the chunks and timeouts, delivered frames and those still in the buffer are the frames of the whole stream, for every continuation |
| Transport.SameBytesSameFrames | custom_components/nice_bidiwifi/transport/lan.py:58-92 | drained sessions over the same bytes delivered the same frames |
| StrictReader.FrameReader.ReadFrame | scripts/nhk_tls_proxy.py:49-68 | the strict read; no frame above the limit, buffer at most limit + 65536 |
| StrictReader.ReadMeans | scripts/nhk_tls_proxy.py:49-68 | whatever the chunks, a returned frame is cut off the front of the stream, and EOF means nothing is left |
| StrictReader.ReadAnswers | scripts/nhk_tls_proxy.py:49-68 | the answer to a read is told by the stream alone: its first ETX, its first byte and the limit |
| StrictReader.AcceptsExactly | scripts/nhk_tls_proxy.py:42-68 | a stream is accepted, independently of chunks, exactly when it is a concatenation of complete frames within the limit |
| StrictReader.ReadersAgree | scripts/nhk_tls_proxy.py:42-68 | on accepted streams both readers yield the same frames |
| Dispatcher.FirstMatch | custom_components/nice_bidiwifi/transport/dispatcher.py:161-166 | the earliest registered unmatched exchange that wants the frame |
| Dispatcher.FirstEqual | custom_components/nice_bidiwifi/transport/dispatcher.py:247-249 | the list entry that removal by value finds |
| Dispatcher.PendingExchange.Append | custom_components/nice_bidiwifi/transport/dispatcher.py:192-200 | a bounded window, oldest frame dropped |
| Dispatcher.ResponseDispatcher.Register | custom_components/nice_bidiwifi/transport/dispatcher.py:212-223 | refused when closed or failed, else appended last |
| Dispatcher.ResponseDispatcher.RouteFrame | custom_components/nice_bidiwifi/transport/dispatcher.py:158-190 | the routing region: correlate with one exchange or publish to all windows |
| Dispatcher.ResponseDispatcher.AppendToAll | custom_components/nice_bidiwifi/transport/dispatcher.py:180-183 | an unsolicited frame enters every open window |
| Dispatcher.ResponseDispatcher.ReaderFails | custom_components/nice_bidiwifi/transport/dispatcher.py:139-146 | a failure is recorded unless the dispatcher is closed |
| Dispatcher.ResponseDispatcher.Leave | custom_components/nice_bidiwifi/transport/dispatcher.py:245-256 | removal from the list, by value |
| Dispatcher.ResponseDispatcher.PollExchange | custom_components/nice_bidiwifi/transport/dispatcher.py:228-244 | what a waiter finds when it holds the lock |
| Dispatcher.ResponseDispatcher.Await | custom_components/nice_bidiwifi/transport/dispatcher.py:228-244 | one region of the waiting loop: the answer is fixed, or the waiter goes on waiting and nothing changes |
| Dispatcher.ResponseDispatcher.Close | custom_components/nice_bidiwifi/transport/dispatcher.py:264-271 | the closed flag, and nothing else |
| DispatcherRuns.RunTracks | custom_components/nice_bidiwifi/transport/dispatcher.py:158-262 | over every interleaving each window is the last 64 frames routed to it, and a match is the first wanted one |
| DispatcherRuns.MatchedAtMostOnce | custom_components/nice_bidiwifi/transport/dispatcher.py:160-178 | no exchange is ever matched twice |
| DispatcherRuns.FrameGoesOneWay | custom_components/nice_bidiwifi/transport/dispatcher.py:158-190 | a frame goes to the earliest unmatched exchange that wants it and to nobody else, or to every window and the subscribers |
| DispatcherRuns.FramesConserved | custom_components/nice_bidiwifi/transport/dispatcher.py:131-190 | frames consumed or published are exactly the frames obtained, once and in order |
| DispatcherRuns.RightAnswer | custom_components/nice_bidiwifi/client.py:548-557 | an unmatched exchange has no answer; a matched one is answered with the correlated frame exactly when fewer than 64 frames followed it |
| DispatcherRuns.AnswerCanBeLost | custom_components/nice_bidiwifi/transport/dispatcher.py:192-200 | a run of a request, its response and 64 or more other frames whose waiter returns a full window without the response |
| DispatcherRuns.WaiterIsTold | custom_components/nice_bidiwifi/transport/dispatcher.py:228-244 | frames are returned only from a live dispatcher, after the match or the deadline; without listening time a matched waiter does not wait |
| DispatcherRuns.WaiterListens | custom_components/nice_bidiwifi/transport/dispatcher.py:228-244 | told by the actions, when a waiter is answered and until when it waits: its deadline, or the listening time since its response was routed |
| DispatcherRuns.ConsumedAnswers | custom_components/nice_bidiwifi/protocol/nhk/codec.py:65-78 | the response an exchange is matched with answers what it was registered with |
| DispatcherRuns.LeaveExactIff | custom_components/nice_bidiwifi/transport/dispatcher.py:245-249 | leaving keeps the list exact if and only if no earlier entry equals the leaving one |
| DispatcherRuns.EqualTwinsAreConfused | custom_components/nice_bidiwifi/transport/dispatcher.py:245-249 | two equal exchanges are confused |
| DispatcherRuns.DiscerningRunsAreExact | custom_components/nice_bidiwifi/transport/dispatcher.py:202-262 | with different pending expectations the list is always exactly the waiters |
| DispatcherRuns.DecimalInjective | custom_components/nice_bidiwifi/protocol/nhk/codec.py:65-78 | the text of an id attribute names one identifier |
| DispatcherRuns.LateResponsesHarmless | custom_components/nice_bidiwifi/transport/dispatcher.py:160-190 | a response that comes after its waiter left the list is published, never consumed |
| DispatcherRuns.ResponseFate | custom_components/nice_bidiwifi/transport/dispatcher.py:158-190 | over every interleaving a response is consumed by its request exactly when that was registered, has not left and had none before; otherwise it is published |
| DispatcherRuns.FrameFate | custom_components/nice_bidiwifi/transport/dispatcher.py:158-190 | the fate of every frame told by what was asked for: response, identifier and type |
| DispatcherRuns.AnswersTold | custom_components/nice_bidiwifi/transport/dispatcher.py:228-244 | a waiter is answered at most once, with its window of that moment, which before a match holds nothing it wanted |
| DispatcherRuns.LateResponsePublishedIff | custom_components/nice_bidiwifi/transport/dispatcher.py:228-249 | a response after its waiter's answer is published exactly when the waiter left before it or had a response already |
| DispatcherRuns.LateResponseIsLost | custom_components/nice_bidiwifi/transport/dispatcher.py:228-249 | a response consumed after its waiter's answer is in no answer |
| DispatcherRuns.LateResponseCanBeLost | custom_components/nice_bidiwifi/transport/dispatcher.py:228-249 | a concrete run in which that happens |
| DispatcherRuns.ForeignResponsesHarmless | custom_components/nice_bidiwifi/transport/dispatcher.py:160-190 | a consumed frame carries its owner's identifier and no other request's |
| DispatcherRuns.ClientIdentifiersDistinct | custom_components/nice_bidiwifi/client.py:505-541 | the client's requests on one transport meet what those results need |
| Position.ResolveValue | custom_components/nice_bidiwifi/models/position.py:46-127 | through all branches the value is simulation, else report, else last known, and what is called estimated |
| Position.PositionController.StartSimulation | custom_components/nice_bidiwifi/position.py:308-338 | the animation started, or nothing without an observed position |
| Position.PositionController.RebaseSimulation | custom_components/nice_bidiwifi/position.py:446-473 | the animation anchored anew at a report |
| Position.PositionController.SyncFromStatus | custom_components/nice_bidiwifi/position.py:394-437 | start, confirm, rebase, hold or clear from a status |
| Position.PositionController.ApplyRecentStopHint | custom_components/nice_bidiwifi/position.py:150-166 | masking of stale states after a stop |
| Position.PositionController.NormalizeForDisplay | custom_components/nice_bidiwifi/position.py:168-231 | live scalar, invalidation and endpoint inference |
| Position.PositionController.ReceiveStatus | custom_components/nice_bidiwifi/coordinator.py:269-272 | hint, normalize, store, publish |
| Position.PositionController.ReceiveUpdate | custom_components/nice_bidiwifi/controllers/events.py:153-202 | an event merged into the current status; processed if it changes anything, else republished |
| Position.PositionController.StopAccepted | custom_components/nice_bidiwifi/coordinator.py:497-535 | what an accepted stop does with the flag and position captured before it was awaited |
| PositionRuns.AnimatedIsLine | custom_components/nice_bidiwifi/position.py:367-392 | the animation is a straight line from the anchor to its goal |
| PositionRuns.AnimationMonotone | custom_components/nice_bidiwifi/position.py:367-392 | monotone in time in the commanded direction, never behind the anchor, never past the target, always a percentage |
| PositionRuns.NoBareEndpoint | custom_components/nice_bidiwifi/position.py:379-391 | without a target an endpoint is reached only from itself |
| PositionRuns.EndpointShownIff | custom_components/nice_bidiwifi/position.py:242-246 | the rounded display shows an endpoint exactly from anchors within 0.05 of it |
| PositionRuns.EndpointShownAwayFromIt | custom_components/nice_bidiwifi/position.py:308-338 | a run that displays 100 while the animation is at 99.96 and has no target |
| PositionRuns.ClosingMirrorsOpening | custom_components/nice_bidiwifi/position.py:376-392 | closing is the mirror image of opening |
| PositionRuns.GoalBeforeDeadline | custom_components/nice_bidiwifi/position.py:318-338 | the goal is reached half a minute before the deadline |
| PositionRuns.RunKeeps | custom_components/nice_bidiwifi/position.py:308-490 | over every run the animation is all set or all clear, and everything kept or displayed is a percentage |
| PositionRuns.Perform | custom_components/nice_bidiwifi/coordinator.py:248-273 | the controller object takes the step of the run and keeps its invariant through any event |
| PositionRuns.ClearedOnlyAfterArrival | custom_components/nice_bidiwifi/position.py:350-360 | over every run the deadline clears only animations that have shown their goal |
| PositionRuns.NoNumberNoPosition | custom_components/nice_bidiwifi/position.py:248-254 | without any numeric report no animation ever starts and nothing is displayed |
| PositionRuns.StartIsSeamless | custom_components/nice_bidiwifi/position.py:308-338 | starting an animation does not move the display |
| PositionRuns.StopFreezesIff | custom_components/nice_bidiwifi/coordinator.py:497-535 | whatever arrives while a stop is awaited, it freezes the position captured when it was sent exactly when the status held at acceptance has no position or that one |
| PositionRuns.StopCanJumpBack | custom_components/nice_bidiwifi/coordinator.py:497-535 | a run in which the display shows 60 when the stop is sent and 50 after it |
| PositionRuns.RestFreezes | custom_components/nice_bidiwifi/position.py:415-444 | a report of rest without a number freezes the display where it was |
| PositionRuns.RecentStopMasks | custom_components/nice_bidiwifi/position.py:150-166 | over every run, for 20 s after a stop sent from motion stale motion is shown as stopped, starts no animation and leaves the display to the last known position |
| PositionRuns.BroughtIsDisplayed | custom_components/nice_bidiwifi/position.py:168-231 | a position a status brings is what is displayed, at once when moving and until the next event at rest, except while a commanded animation is in its start grace |
| PositionRuns.EndpointIsDisplayed | custom_components/nice_bidiwifi/position.py:182-193 | an endpoint without a number is displayed as that endpoint once positions were seen, outside the three exceptions named |
| PositionLaws.LivePositionReads | custom_components/nice_bidiwifi/position.py:203-231 | the percentage published for a raw live position stands for it, in both orientations |
| PositionLaws.LivePositionOrder | custom_components/nice_bidiwifi/position.py:203-231 | and a raw position nearer to open is never published lower |
| PositionLaws.MoveAnimates | custom_components/nice_bidiwifi/coordinator.py:519-531 | a command animates from where the display is, at the pace and to the target it should, until half a minute after it could arrive |
| PositionLaws.ReportAnimates | custom_components/nice_bidiwifi/position.py:446-473 | a position reported in motion anchors the animation anew; a target survives in its direction only |
| PositionLaws.NumberlessMotion | custom_components/nice_bidiwifi/position.py:394-424 | movement without a number starts, confirms or leaves an animation |
| PositionLaws.EndsAnimation | custom_components/nice_bidiwifi/position.py:394-437 | exactly which reports without movement end an animation |
| PositionLaws.UpdatePublishes | custom_components/nice_bidiwifi/controllers/events.py:153-202 | what an event takes over into the published status |
| PositionLaws.StopTakesEffect | custom_components/nice_bidiwifi/coordinator.py:497-535 | what a stop remembers when sent and does when accepted |
| PositionLaws.MoveEndsMasking | custom_components/nice_bidiwifi/coordinator.py:526-528 | a movement command ends the masking |
| PositionLaws.StopExpires | custom_components/nice_bidiwifi/position.py:150-158 | a stop is forgotten once its 20 s are over, and not before |
| PositionLaws.PublishedStatus | custom_components/nice_bidiwifi/position.py:168-231 | everything a status publishes |
| PositionLaws.SourceIs | custom_components/nice_bidiwifi/models/position.py:46-127 | where a displayed position is said to come from, and with what confidence |
| Encoder.RawRoundTrip | custom_components/nice_bidiwifi/position.py:715-732 | raw to percent to raw is the identity inside the bounds, both orientations |
| Encoder.PercentRoundTrip | custom_components/nice_bidiwifi/position.py:715-732 | percent to raw to percent errs by at most half a raw step |
| Encoder.RawInBounds | custom_components/nice_bidiwifi/position.py:715-722 | the raw position of a percentage lies inside the bounds |
| Encoder.RawReachedAgrees | custom_components/nice_bidiwifi/position.py:734-742 | comparing raws inside the bounds is comparing percentages |
| Encoder.ClampRawKeepsPercent | custom_components/nice_bidiwifi/position.py:744-751 | clamping a raw position changes no percentage |
| Encoder.StatusPosition | custom_components/nice_bidiwifi/protocol/t4/status.py:32-61 | a polled position exists only with usable endpoints and is a percentage |
| Encoder.StatusPositionReads | custom_components/nice_bidiwifi/protocol/t4/status.py:32-61 | and stands for the encoder's raw position, within half a tenth, in both orientations |
| Encoder.StatusPositionOrder | custom_components/nice_bidiwifi/protocol/t4/status.py:32-61 | raw positions nearer to open never read lower |
| TargetStop.StopAtPosition | custom_components/nice_bidiwifi/position.py:604-705 | the watcher loop, and the number of Stops it hands over |
| TargetStop.TurnDeadline | custom_components/nice_bidiwifi/position.py:659-675 | the stop deadline never moves later |
| TargetStop.PlannedStop | custom_components/nice_bidiwifi/position.py:604-705 | with a delay every normal completion is one Stop, no poll follows one at the planned time, and the loop ends within the half seconds of the delay |
| TargetStop.BlindStopIsOnTime | custom_components/nice_bidiwifi/position.py:677-683 | without live positions Stop goes out at the first poll at or after the planned time |
| TargetStop.PlannedStopHasCause | custom_components/nice_bidiwifi/position.py:637-679 | a started watcher sends no Stop without a crossed position, the planned time, or a live position that had the time to arrive |
| TargetStop.RemainingReaches | custom_components/nice_bidiwifi/position.py:542-556 | after the remaining time a gate at calibrated speed is at the stop point |
| TargetStop.UnplannedEnding | custom_components/nice_bidiwifi/position.py:637-689 | without a delay the watcher ends exactly at the first poll whose readings give a reason, and with that reason |
| TargetStop.PartiallyOpenNeverEnds | custom_components/nice_bidiwifi/position.py:616-689 | once the gate moved, the watch goes on for ever exactly when every poll is short of the stop point and neither at an end nor stopped |
| TargetStop.PlannedEnding | custom_components/nice_bidiwifi/position.py:622-689 | with a delay the watcher ends exactly at the first poll that fails, misses its endpoints, has crossed by encoder or plausible live position, or is at or after the least of the planned and predicted times |
| Sorting.SortSorts | custom_components/nice_bidiwifi/calibration_estimator.py:42-45 | the sort orders by key and permutes |
| Sorting.SortStable | custom_components/nice_bidiwifi/calibration_estimator.py:42-45 | the sort is stable |
| Estimator.AttemptsStable | custom_components/nice_bidiwifi/calibration_estimator.py:107-126 | true exactly when some window is all successful |
| Estimator.SelectSample | custom_components/nice_bidiwifi/calibration_estimator.py:129-248 | strategy, optimal latest window, least error first, fall-backs, reported numbers and errors |
| Estimator.StableMeans | custom_components/nice_bidiwifi/calibration_estimator.py:107-126 | stability in terms of the attempts' errors |
| Estimator.SelectionMeans | custom_components/nice_bidiwifi/calibration_estimator.py:129-248 | what each strategy selects, in terms of the attempts' errors and validity |
| Estimator.IgnoredAll | custom_components/nice_bidiwifi/calibration_estimator.py:129-153 | the numbers reported as ignored are those of all outliers, and of all invalid attempts, in order |
| Estimator.AbsErrorMeans | custom_components/nice_bidiwifi/calibration_estimator.py:70-77 | errors count without their sign, and missing ones as 1000 |
| Estimator.AverageTimesLength | custom_components/nice_bidiwifi/calibration_estimator.py:155-176 | the average of a window is the sum of its errors over its length |
| Estimator.SelectionUnique | custom_components/nice_bidiwifi/calibration_estimator.py:129-248 | that promise determines the selection |
| Estimator.AppendNeverHurts | custom_components/nice_bidiwifi/calibration_estimator.py:155-176 | one more attempt never raises the average of the chosen window |
| Estimator.AppendKeepsStable | custom_components/nice_bidiwifi/calibration_estimator.py:107-126 | one more attempt keeps stability |
| Calibration.MedianSelected | custom_components/nice_bidiwifi/calibration_estimator.py:10-62 | the selected sample lasts as long as the median, which splits the valid samples in halves |
| Calibration.TimedAll | custom_components/nice_bidiwifi/calibration_estimator.py:10-40 | the timed samples are all those with a positive duration, in order |
| Calibration.InterpolateStopPercent | custom_components/nice_bidiwifi/calibration_estimator.py:251-275 | the scan over the points; a percentage unless there are none |
| Calibration.InterpolatesLinearly | custom_components/nice_bidiwifi/calibration_estimator.py:251-275 | a target between two points stops on the line through them, one before the first on the line through the first two |
| Calibration.InterpolatesPastTheEnd | custom_components/nice_bidiwifi/calibration_estimator.py:251-275 | and one behind the last where the last one does |
| Calibration.PassesThroughPoints | custom_components/nice_bidiwifi/calibration_estimator.py:251-275 | with increasing targets every point is hit (clamped) |
| Calibration.InterpolationMonotone | custom_components/nice_bidiwifi/calibration_estimator.py:251-275 | with ordered targets and stops a farther target never stops earlier |
| Calibration.CalibratedStopPercent | custom_components/nice_bidiwifi/calibration.py:2136-2176 | absent exactly without accepted samples, else an interpolated percentage |
| Calibration.CalibratedStopHitsSamples | custom_components/nice_bidiwifi/calibration.py:2149-2176 | at every target that samples or ends have, the first of them in list order decides, the second at the least target |
| Calibration.CalibratedStopOfSample | custom_components/nice_bidiwifi/calibration.py:2149-2176 | so the first accepted sample of a positive target decides except at 100, and at 0 unless a target is negative |
| Calibration.TravelSpeed | custom_components/nice_bidiwifi/calibration.py:2202-2251 | a calibrated speed is positive |
| Calibration.SpeedsAll | custom_components/nice_bidiwifi/calibration.py:2202-2251 | the speeds averaged are the distances over the times of all usable movements |
| Calibration.TravelSpeedAverages | custom_components/nice_bidiwifi/calibration.py:2202-2251 | the speed is the measured one, else that average |
| T4Frames.DmpChecksum | custom_components/nice_bidiwifi/protocol/t4/codec.py:28-33 | the loop computes the XOR of the bytes |
| T4Frames.DmpFrameShape | custom_components/nice_bidiwifi/protocol/t4/dmp.py:60-117 | when a DMP frame can be built, and its lengths, balanced header and checksum |
| T4Frames.WriteBuildableIff | custom_components/nice_bidiwifi/protocol/t4/dmp.py:90-117 | exactly 1 to 242 value bytes can be written |
| T4Frames.DepFrameShape | custom_components/nice_bidiwifi/protocol/t4/actions.py:184-207 | the shape of DEP frames, and for which targets the header balances |
| T4Frames.FramesCarry | custom_components/nice_bidiwifi/protocol/t4/dmp.py:60-117 | what stands where in a frame: target, register, operation, index, value, command |
| T4Frames.RequestsDecode | custom_components/nice_bidiwifi/protocol/t4/dmp.py:125-151 | built requests decode to their group, parameter and operation, without a value |
| T4Frames.ResponseDecodes | custom_components/nice_bidiwifi/protocol/t4/dmp.py:125-151 | a response gives back its register, type and value, and no value when it is cut short |
| T4Frames.OthersDecode | custom_components/nice_bidiwifi/protocol/t4/dmp.py:125-151 | what all other bytes decode to |
| T4Frames.BytesRoundTrip | custom_components/nice_bidiwifi/protocol/t4/dmp.py:171-178 | big-endian bytes read back, and only the greatest number of a size is all 0xFF |
| T4Frames.WriteReadsBack | custom_components/nice_bidiwifi/client.py:322-340 | which register writes are sent, and what their value reads back as |
| T4Frames.RequestsAreNotLive | custom_components/nice_bidiwifi/protocol/t4/live.py:34-64 | no built frame is taken for a message of the controller |
| T4Frames.ControllerMessages | custom_components/nice_bidiwifi/protocol/t4/live.py:34-64 | messages of the controller are accepted in both forms and give back what they hold |
| T4Frames.OnlyControllerMessages | custom_components/nice_bidiwifi/protocol/t4/live.py:34-64 | and nothing else is |
| T4Frames.XorStreamInverse | custom_components/nice_bidiwifi/protocol/t4/codec.py:16-19 | decrypting is encrypting again, for any digest |
| LiveStatus.LivePosition | custom_components/nice_bidiwifi/protocol/t4/live.py:67-77 | a percentage, present exactly in range |
| LiveStatus.LivePositionPercent | custom_components/nice_bidiwifi/protocol/t4/live.py:80-116 | a live event carries a state or a percentage, and raw value and scale come with a position only |
| LiveStatus.StateBytes | custom_components/nice_bidiwifi/protocol/t4/dmp.py:19-30 | which byte means which state |
| LiveStatus.LiveMessagesReport | custom_components/nice_bidiwifi/protocol/t4/live.py:80-116 | what status and position messages report, for both targets |
| LiveStatus.RawScaleMonotone | custom_components/nice_bidiwifi/protocol/t4/live.py:67-73 | the raw scale runs from 0 to 100 percent in order |

## Left out

- Home Assistant entities, configuration flow, diagnostics, redaction, registry migration and cloud account import: user interface and library calls.
- TLS, sockets and real threads: lock-held regions are atomic steps; the liveness of the reader thread and of `join` is not modelled, nor the race between an idle reader's exit and a new exchange.
- Router.NiceConnectionRouter.Report: in the runs, reading the active route and reporting on it is one step between router operations; `RouterRuns.LateReportAgreesIff` says what a later report does, and reports that fall inside a router operation are not modelled.
- Router.NiceConnectionRouter.Read: `test_connection`, which chains up to three client reads, is not modelled; a client call is one read, one command or a close.
- Client.NiceBidiClient.ConnectLocked: the challenge, password digest and request signature are not computed; the environment says whether the handshake grants a session.
- XML, regular expressions, base64, UTF-8 and SHA-256: frames are abstracted to whether they are a response, their type, their id and a payload; `xml_payload` is modelled on bytes.
- Dispatcher.ResponseDispatcher.RouteFrame: callbacks are not called; a published frame is recorded in the log once, and exceptions of callbacks are not modelled.
- Position.PositionController.ReceiveStatus: of the registers only those that influence positions are kept; task handles, polling intervals and refresh scheduling are not modelled.
- Position.PositionController.SendMove: target planning in `async_set_position` is not modelled; the watcher takes its plan as an input. Of a failed command only the cleared animation is modelled.
- IEEE floating point: percentages, times and errors are exact reals, and `round` is rounding half to even.
- Estimator.SelectSample: negative stability counts and NaN errors are not modelled; a stability count of zero divides by zero, as in the source.
- Calibration procedures, reports and their lifecycle table, capability discovery, action and register catalogues: long scripts over timed input and output, or tables, that would add only easy members.

# SecureEdgeVision in Dafny

SecureEdgeVision is a small distributed protocol: privacy workers turn camera frames into signed detection events, a
network carries them, and one aggregator process authenticates, de-duplicates, audits and stores them. This project
models that protocol and proves what it promises, over every input, every interleaving and every run. All statements
are scoped to the lifetime of one aggregator process, as `docs/threat-model.md` scopes the replay guarantee.

`dafny verify dfyconfig.toml` checks the whole project.

## How the model is laid out

| file | what it models |
|---|---|
| `ReplayPolicy.dfy` | the replay and freshness policy: object, full-history specification, interleaved calls |
| `Ingestion.dfy`, `IngestionSafety.dfy` | one request step by step, three-valued commits, the ingestor object, and what all interleavings guarantee |
| `Worker.dfy`, `Sampling.dfy` | event assembly, the acquisition loop, the sampling gate |
| `Heartbeat.dfy` | the signed worker's run with its heartbeat thread, as interleaved steps of two threads, and the lifecycle object |
| `EndToEnd.dfy` | workers, network and aggregator composed |
| `Registry.dfy`, `Monitoring.dfy` | node seeding and heartbeats over the same table |
| `Events.dfy`, `Persistence.dfy` | wire contracts, canonical signed bytes, the stored record |
| `CanonicalForm.dfy` | the form of the signed text: compact, sorted, minimally escaped, timestamps written out |
| `Json.dfy`, `Utf8.dfy`, `Base64.dfy`, `Timestamps.dfy`, `Digits.dfy` | the codecs those rest on |
| `Api.dfy`, `Vision.dfy` | decimal and body-size gates; box clipping and detector output conversion |
| `Prelude.dfy` | result types and facts about finite sets |

Conventions:

- Time is in integer microseconds within the range Python's `datetime` can hold, so the overflow exits exist.
- A commit has three outcomes: done, failed and not durable, failed but durable. The caller cannot tell the last two
  apart.
- Concurrent operations are step relations over explicit phases: everything a call does before it takes its lock (or
  its database write lock) is one step, the critical section another. Runs are arbitrary sequences of such steps. The
  objects' methods are then proved equal to one uninterrupted pass through the same steps.
- Signatures are ideal: a signature verifies under exactly the key that made it and exactly the bytes it was made over.
- The base64 decoder that contracts.py and crypto.py each carry is one function here: they accept the same strings and
  differ in messages only.
- Clocks, identifier factories, the detector, the source, the sink, waits and commits are parameters.

## Results worth knowing before reading the code

- The lock-protected part of the replay policy prunes lazily, yet answers exactly as if nothing were ever forgotten
  (`ReplayPolicy.EveryDecisionIsFullHistory`), and that rests on the high-water mark: without it a late call can be
  accepted twice (`ReplayPolicy.HighWaterMarkIsNeeded`).
- Every durable row in the name of a node whose key only its own pipeline holds is an event that node's worker assembled, stored at
  most once, and a replay rejection of such an event is always a redelivery (`EndToEnd`).
- The first monotonic reading of the heartbeat loop is taken outside its `try` block. When it fails the thread dies
  without latching the failure flag, and a run can still return a count. `Heartbeat.FirstClockFailureIsNotLatched` is
  such a run; `Heartbeat.ClockFailureLatchedUnlessFirst` says exactly which clock failures are latched.
- Base64 validation alone is not one-to-one (`Base64.ValidationAloneIsNotInjective`); the re-encoding check refuses
  exactly the strings with a non-zero unused bit (`Base64.ReencodingChecksUnusedBits`).
- A heartbeat call that reports failure leaves the table alone unless the database kept the commit it reported as
  failed (`Monitoring.OnlyKeptHeartbeatsChangeRows`).

## Model

| member | source | states |
|---|---|---|
| `EndToEnd.RowsAreAssembled` | secureedge/ingestion.py:142-176 | in every run of workers, network (drop, duplicate, reorder, delay, alter) and aggregator, each durable row in an honest node's name is an event that node's worker assembled |
| `EndToEnd.RowsAreDistinct` | secureedge/worker.py:366-408 | no event is stored twice, and an honest node's rows have pairwise distinct sequence numbers, event ids and nonces |
| `EndToEnd.ReplayRejectionIsRedelivery` | secureedge/security.py:191-206 | a first delivery is never rejected as a replay: if an honest node's event is, another request carrying that same event had been reserved |
| `EndToEnd.GenuineIsAssembled` | secureedge/crypto.py:90-139 | an envelope that verifies under an honest node's key carries an event that node assembled, whatever the network did |
| `EndToEnd.RunsKeepInvariant` | secureedge/transport.py:152-169 | every run keeps: lawful worker histories, every honest signature made over an assembled event, only presentable requests past the door |
| `EndToEnd.CanonicalIsProper` | secureedge/canonical.py:13-49 | the results above ask only that no two events are signed as the same bytes, and the canonical bytes meet that |
| `ReplayPolicy.ReplayFreshnessPolicy.constructor` | secureedge/security.py:125-131 | a new policy is valid and has accepted nothing |
| `ReplayPolicy.ReplayFreshnessPolicy.Admit` | secureedge/security.py:143-175 | clock reading, inclusive window, expiry and overflow exits, equal to the specification for every reading |
| `ReplayPolicy.ReplayFreshnessPolicy.ReserveLocked` | secureedge/security.py:191-212 | the critical section returns the full-history outcome and changes nothing unless it accepts |
| `ReplayPolicy.ReplayFreshnessPolicy.AcceptVerifiedEvent` | secureedge/security.py:133-214 | the whole call: every failing call leaves the map and the high-water mark as they were |
| `ReplayPolicy.PreparedAdmissible` | secureedge/security.py:155-175 | whatever passes is within the skew of its reading and protected until max(now + ttl, event time + skew) |
| `ReplayPolicy.PreparedExactly` | secureedge/security.py:143-175 | a call reaches the lock exactly when its reading is UTC, the event within the inclusive skew of it and every sum in range; it is stale or future exactly when outside the window on that side of a usable reading |
| `ReplayPolicy.KeysAreFields` | secureedge/security.py:176-185 | the two keys of a claim stand for exactly its node with its event id and its node with its nonce |
| `ReplayPolicy.SecondIsCalendar` | secureedge/security.py:153 | a second of the skew and TTL settings is a second of the calendar |
| `ReplayPolicy.ReserveRefinesFullHistory` | secureedge/security.py:191-212 | deciding on the pruned map equals deciding on the list of all acceptances, and keeps the two in step |
| `ReplayPolicy.EveryDecisionIsFullHistory` | secureedge/security.py:191-212 | the same in every state any interleaving reaches |
| `ReplayPolicy.CriticalSectionAnswers` | secureedge/security.py:191-214 | in every reachable state, on the claim's own fields: an event id is refused exactly while an acceptance from the same node with that event id is protected, a nonce likewise when the event id is not, a clock behind any acceptance is a fault, and everything else is accepted |
| `ReplayPolicy.NodesNeverCollide` | secureedge/security.py:176-185 | with no protected acceptance from its own node a claim is never refused as a replay |
| `ReplayPolicy.HighWaterMarkIsNeeded` | secureedge/security.py:192-202 | without the high-water mark a late call for a pruned event is accepted again; with it the call fails and changes nothing |
| `ReplayPolicy.CallsKeepInvariant` | secureedge/security.py:133-214 | order, separation and pruning hold after any interleaving of any calls with any clock readings |
| `ReplayPolicy.WholeRunReplaySafety` | secureedge/security.py:143-214 | in every interleaving, two acceptances from one node with the same event id or the same nonce are separated by the first one's expiry, and no claim is ever accepted twice |
| `ReplayPolicy.SameClaimNeverTwice` | secureedge/security.py:168-175 | a fixed signed timestamp can never be accepted again, however the clock moves |
| `ReplayPolicy.ReplayHasCause` | secureedge/security.py:203-206 | a replay rejection points at an unlapsed acceptance of the same identifier |
| `ReplayPolicy.ReservedRefused` | secureedge/security.py:198-206 | once accepted, a claim is refused at every instant its window still admits |
| `ReplayPolicy.SeenIsLive` | secureedge/security.py:198-211 | the map's keys are exactly the identifiers of the acceptances not yet lapsed |
| `ReplayPolicy.SeenIsTwicePerLive` | secureedge/security.py:208-211 | the map holds two keys per live acceptance, no more and no fewer |
| `ReplayPolicy.PairedExpiries` | secureedge/security.py:208-211 | both keys of a live acceptance carry that acceptance's expiry |
| `ReplayPolicy.ReplayMapBound` | secureedge/security.py:168-212 | in every reachable state the map is that size and every live acceptance lies within max(ttl, 2 * skew) of the latest |
| `Ingestion.DetectionEventIngestor.constructor` | secureedge/ingestion.py:109-128 | an ingestor starts with empty tables over the policy it is given |
| `Ingestion.DetectionEventIngestor.Ingest` | secureedge/ingestion.py:130-190 | one uninterrupted call is exactly the request's four steps; each answer is given exactly when the body's own timestamp and identifiers, the reading, the history and the commit call for it, and a row is added exactly when the event is admitted and kept |
| `Ingestion.DetectionEventIngestor.IngestVerified` | secureedge/ingestion.py:158-176 | after verification: reservation, then the row; the reservation stays whatever the commit did |
| `Ingestion.DetectionEventIngestor.RecordRejection` | secureedge/ingestion.py:192-222 | the alert is committed first; only a confirmed commit lets the rejection out |
| `Ingestion.DetectionEventIngestor.StoreEvent` | secureedge/ingestion.py:168-176 | a row is there iff the commit was durable; an acceptance is returned only when it was confirmed |
| `Ingestion.ScriptIsCall` | secureedge/ingestion.py:142-176 | the step relation run without interruption equals the call's decision tree |
| `Ingestion.ClockAnswers` | secureedge/security.py:143-175 | whatever else is in flight, a verified request reaches the lock exactly when its body's timestamp is fresh at a usable reading, and is refused as stale or future exactly when outside the window on that side |
| `Ingestion.CallAnswers` | secureedge/ingestion.py:142-176 | for every history of acceptances, each of the seven answers to a call and the row it adds, decided on the request's own fields |
| `Ingestion.RunsKeepInvariant` | secureedge/ingestion.py:130-222 | every interleaving, clock and commit pattern keeps reservations genuine, rows backed and answers accounted for |
| `Ingestion.AlertNamesReason` | secureedge/ingestion.py:49-63 | reason codes are distinct and each alert category covers exactly its own reasons |
| `IngestionSafety.OneRowPerSignedEvent` | secureedge/ingestion.py:158-176 | at most one durable row per signed event even after failed-but-durable commits; rows of one node sharing an event id or a nonce are over a TTL apart |
| `IngestionSafety.RowsAreFresh` | secureedge/security.py:155-166 | every durable row was accepted within the skew of its own signed timestamp |
| `IngestionSafety.AcceptedMeansStored` | secureedge/ingestion.py:168-176 | a returned acceptance names a durable row holding that request's own authentic event |
| `IngestionSafety.RejectedMeansAudited` | secureedge/ingestion.py:201-222 | an exposed rejection has exactly one durable alert with the mapped category and reason, stored no event, and its reason is the true one |
| `IngestionSafety.Conservation` | secureedge/ingestion.py:158-176 | acceptances returned <= event rows <= reservations made |
| `IngestionSafety.RedeliveryRefused` | secureedge/ingestion.py:130-138 | once an event is reserved no later delivery gets through the lock, whatever became of its commit |
| `IngestionSafety.ReplayRejectionHasCause` | secureedge/ingestion.py:158-164 | a replay rejection is never spurious: an authentic request reserved that identifier |
| `IngestionSafety.AuthenticationBeforeReservation` | secureedge/ingestion.py:144-166 | erasing all unknown-node and bad-signature requests from a run leaves policy, reservations, rows and every other answer unchanged |
| `IngestionSafety.ProjectStep` | secureedge/ingestion.py:144-166 | step by step: an unauthenticated step is invisible, any other commutes with the erasure |
| `Worker.PrivacyWorkerPipeline.constructor` | secureedge/worker.py:319-321 | a new pipeline has issued nothing |
| `Worker.PrivacyWorkerPipeline.ProcessFrame` | secureedge/worker.py:329-408 | equals assembly as a function of the state; a failing frame changes none of the three issue fields |
| `Worker.PrivacyWorkerPipeline.HandleFrame` | secureedge/worker.py:439-448 | sample, assemble, check, deliver, check for one captured frame; what was sent is what was assembled from it |
| `Worker.PrivacyWorkerPipeline.ReadFrame` | secureedge/worker.py:434-438 | a frame comes out exactly when both checks pass and the read neither raises nor ends |
| `Worker.PrivacyWorkerPipeline.TurnFrame` | secureedge/worker.py:439-448 | the rest of a turn that read a frame: the run goes on with it, or can no longer complete |
| `Worker.PrivacyWorkerPipeline.Turn` | secureedge/worker.py:433-448 | one turn of the loop: it goes on, ends with the run complete, or fails, and then no completion exists |
| `Worker.PrivacyWorkerPipeline.Acquire` | secureedge/worker.py:427-448 | the loop stops exactly at the bound or at the end of the source and delivers, in order, the events assembled from the frames the gate selects; when it fails there is no way the run could have completed |
| `Worker.PrivacyWorkerPipeline.Run` | secureedge/worker.py:410-453 | Ok if and only if the arguments are valid, everything opens and closes and some completion exists: every frame up to the bound or the end of the source usable, in time order, assembled if selected, checked and delivered; the count is the sink calls made, the greedy sample of the frames read, and the bound is not passed by any earlier read |
| `Worker.AssembleLawful` | secureedge/worker.py:366-408 | an assembled event is the next its worker may issue |
| `Worker.AssembleReports` | secureedge/worker.py:377-403 | an assembled event carries that frame's own detections, instant and identifiers, and non-negative durations |
| `Worker.AssemblesExactly` | secureedge/worker.py:332-403 | exactly when a frame becomes an event: usable, ordered readings, a result within the contract, safe and unused identifiers |
| `Worker.SequenceInvariant` | secureedge/worker.py:319-408 | as many ids as nonces as sequence numbers; events carry 0, 1, 2, ... with distinct ids and nonces |
| `Worker.DeliveredWithoutGaps` | secureedge/worker.py:433-448 | what one run hands to its sink is a gap-free range of sequence numbers |
| `Worker.BlockedNeverCompletes` | secureedge/worker.py:433-448 | a turn that does not go through leaves no way for the run to complete |
| `Worker.CompletionCounts` | secureedge/worker.py:433-453 | a completed run delivered the greedy sample of a non-decreasing timeline, with every check made by then passed |
| `Worker.SelectedCount` | secureedge/worker.py:439-440 | the frames selected are as many as the greedy choice over the sample times read |
| `Sampling.SamplingGate.constructor` | secureedge/worker.py:473-477 | a new gate is open with interval 1 / rate |
| `Sampling.SamplingGate.Accept` | secureedge/worker.py:479-487 | accepts exactly as the greedy choice over everything observed; bad or backward timing changes nothing |
| `Sampling.GreedySamplingIsOptimal` | secureedge/worker.py:479-487 | for every non-decreasing timeline the accepted frames are an interval apart and no other such choice is larger |
| `Sampling.RateBound` | secureedge/worker.py:472-487 | over a span T at most floor(T * rate) + 1 frames pass |
| `Heartbeat.HealthyComesFirst` | secureedge/transport.py:252-266 | in every interleaving a delivered healthy heartbeat precedes everything else sent |
| `Heartbeat.FailureIsLatched` | secureedge/transport.py:332-334 | the failure flag, once set, stays set |
| `Heartbeat.LoopSendsNothingAfterFailure` | secureedge/transport.py:315-318 | once the loop has caught a failure, been told to stop or died it sends nothing more |
| `Heartbeat.DegradedOnceAfterJoin` | secureedge/transport.py:290-299 | a degraded heartbeat is sent at most once, only after the thread was joined and never after a latched failure |
| `Heartbeat.CountMeansAllDelivered` | secureedge/transport.py:369-385 | a returned count is the detections delivered, and every heartbeat and detection attempted was delivered |
| `Heartbeat.DoomedExactlyAfterRaise` | secureedge/worker.py:430-453 | in every run the worker's thread is on its exception path if and only if one of its steps raised |
| `Heartbeat.ReturnedMeansNothingRaised` | secureedge/transport.py:377-385 | a run that returned a count had no failing body, delivery, check, source close or transport close at any position |
| `Heartbeat.EndsExactly` | secureedge/transport.py:377-385 | a finished run raised if and only if some step raised |
| `Heartbeat.DegradedExactly` | secureedge/transport.py:290-299 | a run that raised attempted exactly one degraded heartbeat if it had started, no failure is latched and the transport's close was not what failed; otherwise none |
| `Heartbeat.BodyFailureIsAnnounced` | secureedge/transport.py:382-385 | a run whose body failed with no failure latched attempted exactly one degraded heartbeat, after the join |
| `Heartbeat.GoodReadingGoesOn` | secureedge/transport.py:310-314 | the loop goes on from a reading if and only if it is usable and not back in time |
| `Heartbeat.UnlatchedEnd` | secureedge/transport.py:301-318 | a loop that ended with no failure latched was told to stop, or its first reading failed |
| `Heartbeat.ClockFailureLatchedUnlessFirst` | secureedge/transport.py:301-318 | a failing clock reading is latched if and only if it is not the one taken before the try block |
| `Heartbeat.FirstClockFailureIsNotLatched` | secureedge/transport.py:301-302 | a run in which the first reading raises, nothing is latched, and a count is returned |
| `Heartbeat.RunsKeepInvariant` | secureedge/transport.py:206-385 | every interleaving of the two threads keeps the invariants behind these results |
| `Heartbeat.WorkerHeartbeatLifecycle.constructor` | secureedge/transport.py:233-241 | nothing sent, nothing failed, not started |
| `Heartbeat.WorkerHeartbeatLifecycle.Enter` | secureedge/transport.py:252-266 | one entry is the initial send, the thread start and the check, as steps |
| `Heartbeat.WorkerHeartbeatLifecycle.SendInitialHeartbeat` | secureedge/transport.py:255-256 | the initial send; started is set exactly when it was delivered |
| `Heartbeat.WorkerHeartbeatLifecycle.Start` | secureedge/transport.py:257-265 | a start that fails sets stop and the failure flag |
| `Heartbeat.WorkerHeartbeatLifecycle.Check` | secureedge/transport.py:286-288 | fails exactly when a failure is latched |
| `Heartbeat.WorkerHeartbeatLifecycle.Exit` | secureedge/transport.py:268-284 | stop, join, check: clean only when the body was clean and nothing failed |
| `Heartbeat.WorkerHeartbeatLifecycle.BestEffortDegraded` | secureedge/transport.py:290-299 | sends at most once and only when started, unfailed and not yet sent |
| `Heartbeat.WorkerHeartbeatLifecycle.TakeTurn` | secureedge/transport.py:303-318 | one turn of the thread's loop is its wait, clock, send, latch and stop steps |
| `Heartbeat.WorkerHeartbeatLifecycle.RunLoop` | secureedge/transport.py:301-318 | the thread's body run to its end equals the step relation over all its turns |
| `Registry.NodeRegistry.CollectById` | secureedge/persistence.py:434-440 | collects the batch by node exactly when all registrations are valid and agree with each other |
| `Registry.NodeRegistry.AddMissing` | secureedge/persistence.py:446-466 | adds and counts exactly the missing nodes; refuses exactly when a stored key differs |
| `Registry.NodeRegistry.Transact` | secureedge/persistence.py:376-394 | the session commits whole or not at all |
| `Registry.NodeRegistry.SeedNodeRegistry` | secureedge/persistence.py:418-467 | for every store and batch, contents and result are a function of which registrations the batch holds, so order and repetition do not matter |
| `Registry.SeedCounts` | secureedge/persistence.py:443-467 | stored rows survive every seed; a successful one counts exactly the nodes that are new |
| `Registry.ReseedingAddsNothing` | secureedge/persistence.py:425-429 | seeding the same registrations again returns 0 and changes nothing |
| `Registry.NewNodeCarries` | secureedge/persistence.py:460-465 | a node a seed adds has the key it registered, the seeding instant and no heartbeat |
| `Registry.ConflictChangesNothing` | secureedge/persistence.py:437-458 | two keys for one node, in the batch or against the store, leave the store unchanged |
| `Registry.CollectsOne` | secureedge/persistence.py:435-440 | one more registration keeps the batch consistent exactly when its node's key agrees |
| `Monitoring.HeartbeatService.constructor` | secureedge/monitoring.py:163-176 | a new service has committed nothing |
| `Monitoring.HeartbeatService.Record` | secureedge/monitoring.py:178-232 | one uninterrupted call is its admission step and its update step |
| `Monitoring.HeartbeatService.CheckFresh` | secureedge/monitoring.py:191-199 | clock and window of a heartbeat, equal to the specification for every reading |
| `Monitoring.WindowIsExact` | secureedge/monitoring.py:191-199 | a heartbeat passes exactly when it is within the inclusive skew of a usable reading, and is stale or future exactly when outside on that side |
| `Monitoring.AcceptsNewer` | secureedge/monitoring.py:201-209 | the text comparison lets through exactly the heartbeats newer, as instants, than the last one kept |
| `Monitoring.HeartbeatsNeverRegress` | secureedge/monitoring.py:201-218 | over every interleaving a node's committed heartbeats are strictly increasing |
| `Monitoring.RowShowsNewest` | secureedge/persistence.py:149-163 | every row reads back without the partial-state error, as the newest heartbeat committed for its node with its status |
| `Monitoring.RecordedMeansKept` | secureedge/monitoring.py:216-218 | a confirmed heartbeat was kept by the database |
| `Monitoring.OnlyKeptHeartbeatsChangeRows` | secureedge/monitoring.py:187-232 | a call changes the table only by its own newer heartbeat; refused calls never do |
| `Monitoring.OutOfOrderExactly` | secureedge/monitoring.py:216-217 | out of order is answered exactly when one at least as new was already kept |
| `Monitoring.NewerIsKept` | secureedge/monitoring.py:201-218 | a newer heartbeat past the window is kept exactly when its update runs and the commit is durable, and answered as recorded exactly when confirmed |
| `Monitoring.RecordAnswers` | secureedge/monitoring.py:187-218 | one whole call decided on the heartbeat's own fields: when it is recorded, and when and how it is refused |
| `Monitoring.IdentityIsPermanent` | secureedge/persistence.py:140-147 | no run of seeds and heartbeats removes a node or changes its key or registration time |
| `Monitoring.RunsKeepInvariant` | secureedge/monitoring.py:187-232 | rows, committed heartbeats and answers stay consistent over every run |
| `Timestamps.NextDayIsADayLater` | secureedge/persistence.py:68-89 | the next calendar day, across month ends, leap days and year ends, is 86400 seconds later |
| `Timestamps.MicrosByTheClock` | secureedge/persistence.py:68-89 | within a day microseconds go by the clock |
| `Timestamps.CalendarStarts` | secureedge/persistence.py:68-89 | days count from 1 January of year 1 |
| `Timestamps.StoredTextOrder` | secureedge/persistence.py:74-79 | for all UTC instants the stored text compares as a string exactly as the instants compare |
| `Timestamps.StoredRoundTrip` | secureedge/persistence.py:81-89 | stored text reads back as the same instant |
| `Timestamps.WireRoundTrip` | secureedge/contracts.py:13-23 | the signed timestamp text reads back as the same instant |
| `Timestamps.Chronology` | secureedge/persistence.py:68-89 | calendar order of the fields is order of microseconds since year 1, leap years included |
| `Persistence.DetectionColumnRoundTrip` | secureedge/persistence.py:718-739 | the JSON column gives back the same detections in the same order |
| `Persistence.RecordRoundTrip` | secureedge/persistence.py:212-272 | every valid event is storable column by column and reads back equal, with its acceptance instant |
| `Persistence.AcceptedOrder` | secureedge/monitoring.py:325-332 | ordering by the text column is chronological order of acceptance |
| `Json.ParseEmit` | secureedge/canonical.py:35-49 | for every JSON tree with unique keys, parsing the compact text gives the tree back |
| `Json.ParsedWellFormed` | apps/aggregator/api.py:75-95 | whatever the parser accepts has unique keys everywhere and valid number tokens |
| `Json.ParseCanonical` | secureedge/canonical.py:35-49 | the sorted compact text parses back to the sorted tree, so it never trips the duplicate-key refusal |
| `Json.CanonicalTextDecides` | secureedge/canonical.py:35-49 | two trees have the same canonical text if and only if they are equal up to key order |
| `Json.SortKeysSame` | secureedge/canonical.py:38-44 | sorting keys at every level changes nothing Python's equality sees |
| `CanonicalForm.CanonicalIsCompact` | secureedge/canonical.py:38-44 | the canonical text has no white space outside its strings |
| `CanonicalForm.EscapedExactly` | secureedge/canonical.py:42 | exactly the quote, the backslash and control characters are escaped (section 7 of RFC 8259) |
| `CanonicalForm.SortKeysSorts` | secureedge/canonical.py:40 | every object printed, at every depth, has its keys in code point order |
| `CanonicalForm.TimestampShape` | secureedge/persistence.py:74-79 | both timestamp texts written out: dashes, T, colons, six fraction digits (none on the wire when zero), Z |
| `Events.SameEvent` | secureedge/contracts.py:139-154 | validation does not depend on key order |
| `Events.EventWireNames` | secureedge/contracts.py:139-154 | each field of the signed body travels under its own name |
| `Events.NestedWireNames` | secureedge/contracts.py:83-154 | the nested model, frame, detections and timings travel under their own names |
| `Events.DetectionWireNames` | secureedge/contracts.py:104-112 | each part of a detection travels under its own name, the box as x_min, y_min, x_max, y_max |
| `Events.EventRoundTrip` | secureedge/contracts.py:139-154 | validating the dump of a valid event gives the event |
| `Events.CanonicalEventRoundTrip` | secureedge/canonical.py:13-49 | the signed bytes decode, parse and validate back to the event |
| `Events.CanonicalEventBytesInjective` | secureedge/canonical.py:13-49 | different valid events are never signed as the same bytes |
| `Utf8.DecodeEncode` | secureedge/canonical.py:49 | strict decoding undoes encoding |
| `Base64.GroupIsBigEndian` | secureedge/contracts.py:44 | three bytes and their four symbols are the same 24-bit number, most significant first (section 4 of RFC 4648) |
| `Base64.AcceptsExactlyEncodings` | secureedge/contracts.py:36-46 | for every length the decoder accepts exactly the encodings of that many bytes and undoes them |
| `Base64.AcceptedStringsDiffer` | secureedge/crypto.py:153-166 | distinct accepted strings decode to distinct bytes |
| `Base64.ReencodingChecksUnusedBits` | secureedge/contracts.py:44-45 | a string that validates fails re-encoding exactly when an unused bit is set |
| `Base64.ValidationAloneIsNotInjective` | secureedge/crypto.py:157-158 | without the re-encoding check every way of setting the four unused bits after one byte is taken and decodes alike |
| `Api.ExceedsIsGreater` | apps/aggregator/api.py:139-144 | stripping zeros and comparing length then text decides exactly int(raw) > maximum |
| `Api.ContentLengthIsNumeric` | apps/aggregator/api.py:133-145 | the declared length is refused or is its numeric value |
| `Api.BoundedLimitIsNumeric` | apps/aggregator/api.py:175-191 | a limit is taken exactly when it is the only parameter and a number from 1 to the maximum |
| `Api.ReadStream` | apps/aggregator/api.py:150-163 | reads the concatenation exactly when no chunk raises and the total fits; stops at the first crossing chunk; never keeps more than the maximum |
| `Api.ReadBoundedBody` | apps/aggregator/api.py:148-166 | the body is taken exactly when the header is sound, the stream ends within the bound and they agree, with the status each failure has |
| `Api.UniqueObject` | apps/aggregator/api.py:75-81 | an object is built exactly when its keys are distinct, holding exactly the pairs |
| `Vision.AcceptedExactlyWhenOverlapping` | secureedge/vision.py:450-461 | a box is taken exactly when it shares area with the frame |
| `Vision.NormalizedIsIntersection` | secureedge/vision.py:456-468 | the result is strictly ordered in the unit square and scaled back is exactly box intersect frame |
| `Vision.NormalizedExactly` | secureedge/vision.py:450-468 | clipping and scaling give a box if and only if it is the part of the given box inside the frame, so at most one |
| `Vision.ClassNameExactly` | secureedge/vision.py:471-485 | a name is found if and only if it is the table's non-blank entry for that class, number before numeral |
| `Vision.ReadTabulates` | secureedge/vision.py:341-369 | the table read holds the one result's own rows, confidences, classes, tracks and names |
| `Vision.TabulatedIsRead` | secureedge/vision.py:341-369 | and whatever has that shape is read |
| `Vision.ReadRowsFit` | secureedge/contracts.py:104-128 | a row that reads well can fail the detection contract only by its name's length |
| `Vision.RowMeaning` | secureedge/vision.py:371-387 | reading a row gives a detection if and only if it is what the row says: its own confidence in [0, 1], class, the table's name for that class, track, and the part of its own box that lies in the frame |
| `Vision.ConvertResults` | secureedge/vision.py:333-403 | fails exactly when the output is misshapen or some row, of any confidence, says nothing or too long a name; else the detections are what the rows passing the threshold say, in order |

## Left out

- Ed25519 arithmetic, PEM loading and key generation: signatures are ideal, keys are opaque names.
- HTTPX, FastAPI, Uvicorn, command lines, dashboard and experiments: plumbing. Delivery of one detection is one attempt that the sink takes or refuses.
- OpenCV capture, YOLO loading, frame and weight checks, tensor conversion: foreign code, parameters here; a missing attribute or a tensor that is no list is not told apart from a misshapen one.
- SQLAlchemy sessions, schema checks and queries: tables are maps and sequences with an atomic three-valued commit; record ids are row counts.
- Alert identifiers and the alert clock: an alert that cannot be built or committed is a failed commit.
- A dependency failure while looking up a node or loading its key is one flag of the request's first step.
- Process restart and several aggregator processes: replay state is process-local by design.
- Heartbeat.State: the two threads' positions and the log are values of a step relation; the lifecycle object's methods are proved equal to uninterrupted passes through it, so in-place interleaving of the object's fields is covered by the relation and not by the class.
- Heartbeat.WorkerHeartbeatLifecycle.Enter: covers the first entry; entering a started lifecycle again is refused before anything is sent and is not modelled.
- Worker.PrivacyWorkerPipeline.Run: sources are finite lists of reads, so runs that never end are not modelled; the sink and the lifecycle are described by when they first refuse.
- KeyboardInterrupt and other exceptions outside Exception.
- IEEE rounding: sampling and clipping are over exact reals, and no claim is made about -0.0 and 0.0 having equal bytes.
- Json.Parse: number tokens are opaque and their ranges unchecked, so overflow to infinity is not modelled; a \u escape of a surrogate is refused, where Python would build a lone surrogate or join a pair; recursion depth is unbounded.
- Persistence.DeserializeDetections: the stored column is read by the same duplicate-refusing parser, where the code uses a plain one; the column's own text never has duplicate keys.
- Timestamps.ParseWire: reads the two forms the system writes; other ISO 8601 spellings that fromisoformat takes are refused.
- The wire JSON of the signature envelope and of heartbeats: only the event body is modelled as JSON.
- Error messages and their sanitisation (refusals that differ only in their message are one value), and settings validation: skew and TTL are bounded integers.
- list_node_health, get_aggregator_health and the alert listing: read-only projections that would only add easy members.

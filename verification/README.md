# Edge Node data path: a Dafny model

This project models the IoTKit Edge Node from a submitted envelope to the MQTT Broker, together
with the stores that bound and identify what the node holds, and proves what holds over every run:
every input list, every interleaving of retries, crashes, lost acknowledgements, operator changes
and backward clocks.

`dafny verify dfyconfig.toml` checks everything.

| files | what they model |
|---|---|
| `Definition`, `Evaluator`, `EvaluatorRuns` | pipeline definitions; calibration, hysteresis, debounce and counting of one input, and of whole input lists |
| `Ordering`, `Engine`, `EngineRuns`, `EngineEffects`, `PipelineTrace` | series, sequence numbers and outbox rows; create, update, delete, reset, import, reconcile, deliver |
| `OutputSession`, `OutputRuns`, `OutputTheorems` | the MQTT session as an object, then session, client, link and Broker as one state machine |
| `Wire`, `Spool`, `SpoolRuns` | envelopes and acknowledgements; the retrying bounded spool |
| `Dedup`, `Staging`, `StagingRuns` | the claim table and the staging table, both bounded, with their eviction loops |
| `Registry`, `RegistryRuns` | key, alias and catalog resolution, and the series it materialises |
| `Collector`, `CollectorActor`, `CollectorRuns`, `CollectorInvariants`, `CollectorAnswers`, `Delivery` | one transaction per envelope, the resolution cache, and the composition with the spool |
| `Custody`, `Activation` | custody-aware retention purge; activation of the node |
| `Capacity`, `CapacityRuns`, `Credentials` | capacity debt; credential lifecycles |
| `Transition`, `Listener` | the listener holder as an object; the supervisor's switchover protocol |

The database is a value: an operation maps the tables it is given to the tables it leaves, and an
error leaves them as they were. Nondeterminism (clocks, failures, the network, the operator) is
carried by the events of a run, so a statement about `Run(start, events)` for all `events` is a
statement about every behaviour. Loops and objects of the node are Dafny loops and classes, each
proved equal to a function, and the theorems are about those functions.

## What is proved

- **Debounce and counting.** A state is left if and only if an unbroken stretch of inputs past its
  threshold began at least that direction's debounce earlier, clocks going backwards included; state and count pipelines on one signal move together and the counter is the number of
  rising edges, up to exactly the input that would pass 2^53 - 1.
- **Series.** Over any run of operator changes and inputs every series is published 1, 2, 3, ...
  with exactly the values the evaluator emits for the inputs it was fed, each under the definition
  in force at that input; a series that ended never resumes; import, reconcile and deliver do
  exactly what they say, pipeline by pipeline.
- **Broker.** Over every interleaving, running or shut down, at most one row is under way, a row is
  deleted only after a PUBACK for that row, and each topic and each series is read in enqueue order
  without a gap, repeats of the latest row aside; undisturbed, every row is received and the outbox
  drained.
- **Exactly once.** Retries, duplicates and aborts leave no trace; a pair commits once while its
  claim is held; Final(Accepted) is only given for an envelope that itself committed,
  Final(Duplicate) only if one of that id did.
- **Answers.** Which device an item belongs to, why it is refused, staged, quarantined or stored,
  and what a stored item becomes in readings, pipelines and publications, on its own fields; a
  transient failure is retried with the same envelope, and every outcome has its reason.
- **Tables.** From an empty database every run of requests and operator changes keeps rows linked,
  namespaces disjoint and bounds respected, and stores exactly as many readings as it acknowledged.
- **Cache.** The caching collector answers and stores exactly what a collector without a cache does.
- **Identity.** A subject's readings of one declared key never split over two keys, nor over two
  channels of a single-channel measurement.
- **Bounds.** Exactly when and why staging refuses, and that it evicts no more than it must; newcomers
  within the reserve are never refused; what a claim may evict; no run leaves a publication without its reading, and cleanup batches leave
  exactly the readings they should.
- **Authority.** Debt bounds every overage; credential times stay ordered under any clock; at most
  one listener accepts, and it enforces the applied generation on disk; an undisturbed switchover
  completes; a revoked credential is never honoured again.

Two expectations turned out not to hold of the code as it stands; each has its exact condition:

- The acknowledgement of the graceful `offline` (`edge-node/apps/node/src/output_mqtt.rs:214-236`)
  can be reported although `offline` never arrived, because clearing the pending list lets the next
  written packet be mistaken for it. `OutputTheorems.OfflineAckExact` proves that it can be trusted
  if and only if no publication is waiting for its packet id at shutdown, and
  `OutputTheorems.OfflineAckCanMislead` that this happens right after the first connection.
- A constant input settles after a transition, except when both thresholds equal the calibrated
  value, which validation accepts: then every input selects the opposite state
  (`EvaluatorRuns.TransitionSettlesExact`, with the example `EvaluatorRuns.CoincidingThresholdsToggle`).

Where code and comments disagree the code is followed: an evaluator error leaves the evaluation
state alone, but a series started for that input stays (`edge-node/core/pipeline/src/engine.rs:210-212`
against `251-260`); and the engine publishes every measurement, changed or not
(`edge-node/core/pipeline/src/evaluator.rs:52-53` against `edge-node/core/pipeline/src/engine.rs:271-274`).

## Model

| member | source | states |
|---|---|---|
| Evaluator.Evaluate | edge-node/core/pipeline/src/evaluator.rs:58-144 | the field-by-field evaluation, its early returns included, computes the specification function that the lemmas below pin down on the signal itself |
| EvaluatorRuns.AcceptedExact | edge-node/core/pipeline/src/evaluator.rs:58-144 | an input is rejected iff its time is negative, the scale 0, the value not finite, detector or trigger missing, or the edge past the counter limit |
| EvaluatorRuns.DetectorExact | edge-node/core/pipeline/src/evaluator.rs:146-180 | on the signal `input * scale + offset`: which side of the thresholds starts active, which threshold ends each state in each mode, and which debounce governs it |
| EvaluatorRuns.DebounceOnSignal | edge-node/core/pipeline/src/evaluator.rs:81-114 | for every input list and any clock: an input past the threshold ends the state held iff an unbroken stretch of such inputs began at least that direction's debounce earlier |
| EvaluatorRuns.MeasurementExact | edge-node/core/pipeline/src/evaluator.rs:70-77 | a measurement publishes `input * scale + offset` of every accepted input |
| EvaluatorRuns.ValidNeverFails | edge-node/core/pipeline/src/definition.rs:143-217 | with a valid definition a finite input at a non-negative time fails only at the counter limit |
| EvaluatorRuns.DebounceExact | edge-node/core/pipeline/src/evaluator.rs:81-114 | for every input list and any clock: a transition is confirmed iff some unbroken run selecting it began at least the debounce time before |
| EvaluatorRuns.DebounceSound | edge-node/core/pipeline/src/evaluator.rs:81-114 | a confirmed transition has a window start: no input of the run was received before it and the last came at least the debounce time after it |
| EvaluatorRuns.PendingDiffers | edge-node/core/pipeline/src/evaluator.rs:88-104 | a pending wait always waits for the state the pipeline is not in |
| EvaluatorRuns.DeadBandHolds | edge-node/core/pipeline/src/evaluator.rs:146-163 | between the thresholds the state is kept and any wait dropped |
| EvaluatorRuns.TransitionSettlesExact | edge-node/core/pipeline/src/evaluator.rs:146-163 | after a transition the same input selects the new state again iff the thresholds do not both equal the calibrated value |
| EvaluatorRuns.CoincidingThresholdsToggle | edge-node/core/pipeline/src/evaluator.rs:146-163 | a valid definition whose state toggles on every repetition of one input |
| EvaluatorRuns.StateAlternates | edge-node/core/pipeline/src/evaluator.rs:116-122 | publications of a state pipeline alternate and the last is the state held |
| EvaluatorRuns.CountFollowsState | edge-node/core/pipeline/src/evaluator.rs:123-141 | state and count pipelines on one signal pass through the same states; counts published are 1, 2, 3, ... and equal the rising edges |
| EvaluatorRuns.CounterLimitExact | edge-node/core/pipeline/src/evaluator.rs:133-135 | the counter limit is reported iff the next edge would pass 2^53 - 1 |
| Ordering.SortIds | edge-node/core/pipeline/src/store.rs:104-143 | lists ids in primary-key order, each once |
| Engine.CheckIds | edge-node/core/pipeline/src/engine.rs:164-173 | the loop finds a repeated id iff there is one, and otherwise collects exactly the ids |
| Engine.RunImport | edge-node/core/pipeline/src/engine.rs:155-186 | the four loops of import compute the specification: all valid, distinct, drop and clear, insert and start |
| Engine.RunReconcile | edge-node/core/pipeline/src/engine.rs:190-205 | the reconcile loop computes its specification |
| Engine.RunDeliver | edge-node/core/pipeline/src/engine.rs:213-242 | the delivery loop computes its specification |
| EngineRuns.SeriesAreNumbered | edge-node/core/pipeline/src/engine.rs:244-353 | over any run each series carries sequences 1..n in outbox order, one pipeline and kind, counts equal to sequence - 1; its state has next sequence n + 1 and the value and time published last |
| EngineRuns.RetiredSeriesStaysRetired | edge-node/core/pipeline/src/engine.rs:292-324 | a series no pipeline holds is never held nor published again |
| EngineRuns.UpdateKeepsSeries | edge-node/core/pipeline/src/engine.rs:107-126 | an update keeps series, sequence and evaluation state iff id, kind, input, trigger and unit are those the series started with |
| EngineEffects.DeliveryIsIsolated | edge-node/core/pipeline/src/engine.rs:213-242 | over any run delivery reaches, in id order, exactly the pipelines with the reading's adapter, key and channel and no other subject, and each gets the state, the outcome and the outbox rows it would get alone: exactly if it continues its series, up to the number of the new series if it starts one |
| EngineEffects.ReconcileRepairs | edge-node/core/pipeline/src/engine.rs:190-205 | afterwards every definition continues a series, those that did are untouched, the others are reported in id order on consecutive unused series, and a second reconcile does nothing |
| EngineEffects.ImportReplaces | edge-node/core/pipeline/src/engine.rs:155-186 | import succeeds iff all are valid and distinct, leaves exactly the imported definitions on new series, and clears exactly the topics that disappear, in id order |
| EngineEffects.ValidExact | edge-node/core/pipeline/src/definition.rs:143-217 | what validation demands of each kind, on the fields |
| EngineEffects.StructuralExact | edge-node/core/pipeline/src/definition.rs:219-236 | two definitions continue one series iff id, kind, input, trigger and unit agree |
| EngineEffects.StartExact | edge-node/core/pipeline/src/engine.rs:292-324 | a new series opens with fresh evaluation state; an accumulated count publishes 0 as its first observation, any other kind nothing |
| EngineEffects.CreateExact | edge-node/core/pipeline/src/engine.rs:91-106 | create succeeds iff valid and new; it stores the definition on an unused series and touches no other pipeline |
| EngineEffects.UpdateExact | edge-node/core/pipeline/src/engine.rs:107-126 | update succeeds iff valid, stored and of the same kind; it stores the definition and at most starts a series of it |
| EngineEffects.TuningKeepsSeries | edge-node/core/pipeline/src/engine.rs:91-126 | create then update keeps the series iff input, trigger and unit stayed |
| EngineEffects.DeleteExact | edge-node/core/pipeline/src/engine.rs:128-140 | delete succeeds iff stored; definition and state go and exactly its topic is cleared |
| EngineEffects.ResetExact | edge-node/core/pipeline/src/engine.rs:142-153 | reset succeeds iff stored; the pipeline starts afresh on an unused series, nothing else moves |
| PipelineTrace.ProcessDrivesEvaluator | edge-node/core/pipeline/src/engine.rs:244-290 | one input moves the evaluation state as the evaluator says and appends its emission, if any, as the next observation on the right topic |
| PipelineTrace.EmissionExact | edge-node/core/pipeline/src/engine.rs:262-290 | a measurement publishes its calibrated value, a state its new state when it changes, a count the next count on a rise, and a rejected input nothing |
| PipelineTrace.OutcomeExact | edge-node/core/pipeline/src/engine.rs:213-290 | a missing value or failed evaluation is reported, an emission is published as the series' next observation at the reading's time, anything else is silent |
| PipelineTrace.SeriesIsEvaluation | edge-node/core/pipeline/src/engine.rs:244-353 | over any run of any operations each series holds exactly what the evaluator emits for the inputs fed to it, each under the definition then in force, an accumulated count preceded by 0; while it is held, its state is the evaluator's |
| PipelineTrace.UntunedFeeds | edge-node/core/pipeline/src/engine.rs:244-290 | for a series whose definition was never changed this is the evaluation of its input list that the debounce and counting theorems are about |
| PipelineTrace.RowsAreAddressed | edge-node/core/pipeline/src/engine.rs:326-366 | over any run every outbox row is retained on the topic of its own pipeline and kind |
| OutputSession.Session.constructor | edge-node/apps/node/src/output_mqtt.rs:149-157 | a disconnected session with nothing pending or in flight |
| OutputSession.Session.Publish | edge-node/apps/node/src/output_mqtt.rs:303-326 | a queued publication becomes pending without packet id; a failed one frees the in-flight slot |
| OutputSession.Session.PublishNextOutboxRow | edge-node/apps/node/src/output_mqtt.rs:274-301 | sends the oldest row unless one is in flight or the read fails; that it does send is `OutputRuns.NotificationSends` and `OutputRuns.OutboxDrains` |
| OutputSession.Session.Find | edge-node/apps/node/src/output_mqtt.rs:328-349 | the first pending entry with the given packet id, or none |
| OutputSession.Session.NotePacketWritten | edge-node/apps/node/src/output_mqtt.rs:328-336 | the first entry without packet id gets it |
| OutputSession.Session.NotePuback | edge-node/apps/node/src/output_mqtt.rs:340-373 | removes the entry, deletes its row, frees the slot and sends the next row; that the next row is under way is `OutputRuns.PubackSendsNext` |
| OutputSession.Session.OnConnAck | edge-node/apps/node/src/output_mqtt.rs:166-175 | a new connection forgets what was pending, publishes status, then the oldest row |
| OutputSession.Session.OnError | edge-node/apps/node/src/output_mqtt.rs:179-189 | a lost connection forgets what was pending and in flight and keeps every outbox row |
| OutputSession.Session.BeginShutdown | edge-node/apps/node/src/output_mqtt.rs:214-215 | shutdown clears what is pending and publishes `offline` |
| OutputRuns.BrokerReceivesInOrder | edge-node/apps/node/src/output_mqtt.rs:163-206 | over every interleaving the Broker receives rows in enqueue order repeating only the latest, and every deleted row was received |
| OutputRuns.AtMostOneInFlight | edge-node/apps/node/src/output_mqtt.rs:274-301 | in every state, running or stopped, request queue, link and unread acknowledgements together carry at most one outbox row, and it is the oldest stored; while connected at most one is pending |
| OutputRuns.DeletedOnlyAfterPuback | edge-node/apps/node/src/output_mqtt.rs:340-373 | a step that removes a row reports the PUBACK of a packet carrying that row, and removes it alone |
| OutputRuns.NotificationSends | edge-node/apps/node/src/output_mqtt.rs:190-195 | in every reachable connected state with rows stored, a notification leaves the oldest row under way and in flight |
| OutputRuns.PubackSendsNext | edge-node/apps/node/src/output_mqtt.rs:352-372 | a PUBACK that removes row d while rows remain leaves row d + 1 under way and in flight |
| OutputRuns.FailedDeleteResends | edge-node/apps/node/src/output_mqtt.rs:352-372 | in every reachable state, a row whose PUBACK arrives but whose deletion fails stays the oldest stored and is under way and in flight again |
| OutputRuns.HeartbeatSends | edge-node/apps/node/src/output_mqtt.rs:196-203 | a heartbeat or fault change queues a status |
| OutputRuns.OutboxDrains | edge-node/apps/node/src/output_mqtt.rs:163-206 | undisturbed and in any order of steps, only boundedly many steps do anything, and when none can any more every row ever enqueued has been received and deleted |
| OutputTheorems.TopicInOrder | edge-node/core/pipeline/src/outbox.rs:19-59 | for engine and session together: what arrives on a topic is what was enqueued for it, in order, repeats aside |
| OutputTheorems.StatusComesFirst | edge-node/apps/node/src/output_mqtt.rs:166-175 | on every connection of every run the status is queued first, then the oldest row |
| OutputTheorems.SeriesReadsFromOne | edge-node/core/pipeline/src/engine.rs:326-353 | for engine and session together: the Broker reads every series as 1, 2, 3, ... without a gap |
| OutputTheorems.OfflineAckExact | edge-node/apps/node/src/output_mqtt.rs:211-236 | the acknowledgement of `offline` can be trusted, however the network goes on, iff no publication waits for its packet id at shutdown |
| OutputTheorems.OfflineAckCanMislead | edge-node/apps/node/src/output_mqtt.rs:211-236 | right after the first connection shutdown is not safe: some continuation without a crash reports `offline` acknowledged although it never arrived |
| Spool.Client.constructor | edge-node/ingest/client/src/inproc.rs:199-210 | an empty, running client |
| Spool.Client.TrySubmit | edge-node/ingest/client/src/inproc.rs:135-163 | admits, or hands the very envelope back as full or closed |
| Spool.Client.PushBounded | edge-node/ingest/client/src/inproc.rs:329-366 | takes the oldest queued entry; a full spool hands back its oldest first |
| Spool.Client.ScheduleRetry | edge-node/ingest/client/src/inproc.rs:374-395 | the next attempt is due after the backoff step and at most a quarter more; spool, queue and resolutions stay |
| Spool.Client.DrainQueue | edge-node/ingest/client/src/inproc.rs:411-420 | the loop hands back every queued entry, in order |
| Spool.Client.DrainSpool | edge-node/ingest/client/src/inproc.rs:421-430 | the loop hands back every spooled entry, in order |
| Spool.Client.AbandonEverything | edge-node/ingest/client/src/inproc.rs:406-431 | closes admission, then hands back queue and spool |
| Spool.Client.Receive | edge-node/ingest/client/src/inproc.rs:286-323 | input goes to the spool; with no sender left everything is handed back |
| Spool.Client.SubmitHead | edge-node/ingest/client/src/inproc.rs:215-285 | computes the specification of a reply, whose meaning is `SpoolRuns.TransientIsRetried`, `SpoolRuns.FinalIsFinal` and `SpoolRuns.ClosedEndsEverything` |
| Spool.Client.Drive | edge-node/ingest/client/src/inproc.rs:207-325 | the client loop computes the fold of its turns |
| SpoolRuns.EnvelopesAreConserved | edge-node/ingest/client/src/inproc.rs:207-327 | while running, admitted = resolved + spooled + queued in ticket order; after exit each is resolved exactly once; the spool stays within a cap of at least 1 |
| SpoolRuns.FinalsFollowSubmission | edge-node/ingest/client/src/inproc.rs:211-280 | finals come in submission order, attempts never go back, and every submitted or returned envelope is the admitted one |
| SpoolRuns.BackoffIsBounded | edge-node/ingest/client/src/inproc.rs:374-395 | a retry waits its step and at most a quarter more, and steps never shrink |
| SpoolRuns.BackoffSteps | edge-node/ingest/client/src/inproc.rs:374-395 | the steps are 100, 500, 2000 and then 5000 milliseconds |
| SpoolRuns.JitterExact | edge-node/ingest/client/src/inproc.rs:374-395 | the delay is the step plus the unwrapped sum of the id's character codes, reduced to 64 bits and then to a quarter of the step |
| SpoolRuns.TransientIsRetried | edge-node/ingest/client/src/inproc.rs:215-274 | over any run, NoAck, an untrusted clock, stale authentication and Deferred cost an attempt and nothing else, and the next submission, unless something is resolved in between, is of the same envelope |
| SpoolRuns.FinalIsFinal | edge-node/ingest/client/src/inproc.rs:230-238 | a final answer resolves exactly the head with it, resets the backoff, and the next envelope is ready at once |
| SpoolRuns.ClosedEndsEverything | edge-node/ingest/client/src/inproc.rs:275-283 | a closed collector ends the client and hands back everything, queue before spool |
| SpoolRuns.WaitingTakesInput | edge-node/ingest/client/src/inproc.rs:286-323 | a waiting client takes the oldest queued entry, giving up the oldest spooled one only at the cap, and leaves iff no sender and no input is left |
| SpoolRuns.AdmissionExact | edge-node/ingest/client/src/inproc.rs:123-163 | admitted iff the client runs and the queue has room; otherwise handed back as closed or full, and nothing changes |
| SpoolRuns.OutcomesAreJustified | edge-node/ingest/client/src/inproc.rs:211-324 | over any run a final status was the answer to that very envelope, CollectorClosed needs a closed reply, ClientShutdown that no sender is left, SpoolOverflow a spool at its cap with input waiting |
| SpoolRuns.AnswersDrain | edge-node/ingest/client/src/inproc.rs:211-324 | with final answers only, two turns per queued and one per spooled envelope resolve all of them finally |
| Wire.CheckKey | edge-node/ingest/contract/src/measurement_key.rs:60-78 | the loop over dot-separated segments accepts exactly the keys that the character rule accepts |
| Dedup.TryClaim | edge-node/core/timeseries/src/lib.rs:212-263 | the claim with its eviction loop terminates and computes the specification |
| Dedup.ClaimKeepsBounds | edge-node/core/timeseries/src/lib.rs:212-263 | keys stay unique, both row bounds are kept, and the pair is held in window afterwards |
| Dedup.ClaimExact | edge-node/core/timeseries/src/lib.rs:212-263 | a refused claim changes nothing; a first one leaves the pair claimed once, as of now, and adds nothing else |
| Dedup.DuplicateExact | edge-node/core/timeseries/src/lib.rs:219-227 | a claim is refused iff the pair is already held in window |
| Dedup.EvictionIsJustified | edge-node/core/timeseries/src/lib.rs:235-257 | an evicted claim has, counting itself, `principal_rows` claims of its principal or `global_rows` claims overall received no earlier |
| Staging.MeasureEnvelope | edge-node/core/timeseries/src/lib.rs:448-497 | the loops compute rows, bytes, inherited pins and the pin of each sighting |
| Staging.EvictUntilFits | edge-node/core/timeseries/src/lib.rs:533-567 | the eviction loop terminates and computes the specification |
| Staging.DeleteUnstagedSightings | edge-node/core/timeseries/src/lib.rs:575-578 | the loop removes exactly the sightings of removed, no longer staged, non-legacy subjects |
| Staging.InsertRows | edge-node/core/timeseries/src/lib.rs:568-574 | the loop appends one row per sighting with its inherited pin |
| Staging.RunFinish | edge-node/core/timeseries/src/lib.rs:568-579 | inserts the envelope, cleans up sightings and reports both counts |
| Staging.RunAdmit | edge-node/core/timeseries/src/lib.rs:506-579 | everything after the checks computes the specification |
| Staging.RunStage | edge-node/core/timeseries/src/lib.rs:441-579 | the whole procedure computes the specification, refusals included |
| StagingRuns.VictimIsOldest | edge-node/core/timeseries/src/lib.rs:613-636 | the victim is the evictable subject with the earliest row, lowest id among equals; none iff nothing is evictable |
| StagingRuns.StageExact | edge-node/core/timeseries/src/lib.rs:441-579 | staging succeeds iff the envelope fits the reserve, inherited pins fit, and unexpired rows of pinned and current subjects leave room |
| StagingRuns.StageRefusals | edge-node/core/timeseries/src/lib.rs:441-504 | too large iff more rows or bytes than the reserve; pin growth iff inherited pins would eat into the reserve of the table or the principal |
| StagingRuns.EvictionIsForced | edge-node/core/timeseries/src/lib.rs:506-567 | each evicted subject had to go while a limit was passed, the principal's own first, and had the earliest row of those that may go; both counts reported are exact |
| StagingRuns.LoadExact | edge-node/core/timeseries/src/lib.rs:506-532 | every total is the count of the selected rows and of their bytes |
| StagingRuns.StageSuccess | edge-node/core/timeseries/src/lib.rs:506-579 | success leaves principal and table within limits, each sighting as its own row with its subject's pin, no pinned or current subject evicted, and no expired row of an unpinned subject |
| StagingRuns.NewcomersAreAdmitted | edge-node/core/timeseries/src/lib.rs:581-611 | every reachable state keeps pins within limit minus reserve and one pin per subject, so an envelope within the reserve with unstaged subjects is never refused |
| StagingRuns.PinKeeps | edge-node/core/timeseries/src/lib.rs:658-712 | pinning and unpinning keep the reserve free and one pin per subject |
| StagingRuns.PinExact | edge-node/core/timeseries/src/lib.rs:658-712 | refused iff the subject has no rows, or newly pinning them would eat into the reserve; otherwise exactly its rows carry the pin |
| StagingRuns.SightingsOutliveRows | edge-node/core/timeseries/src/lib.rs:638-656 | a sighting goes iff its subject had rows, none of its hardware is staged any more, and it is not a legacy one |
| Registry.ReleaseSeriesQuarantine | edge-node/core/ledger/src/store.rs:604-643 | the two update passes release exactly the matching series whose channel fits and relabel the others |
| RegistryRuns.NamespacesStayDisjoint | edge-node/core/registry/src/store.rs:267-447 | over any run keys and aliases are disjoint, aliases never dangle, and evaluation never fails on them |
| RegistryRuns.HistoryIsNotSplit | edge-node/core/registry/src/policy.rs:32-80 | all readings ever stored for one subject and declared key are stored under one key |
| RegistryRuns.SingleChannelIsOneSeries | edge-node/core/registry/src/policy.rs:131-178 | once the key has a single-channel definition, no channel and channel 0 always reach one series |
| RegistryRuns.AliasReleases | edge-node/core/registry/src/store.rs:406-447 | a new alias releases exactly the series quarantined as unknown under its key whose channel the definition has, relabels those whose channel it lacks, and touches no other |
| RegistryRuns.EvaluateFacts | edge-node/core/registry/src/policy.rs:32-80 | evaluation leaves series alone, only adds definitions, and accepts under the settled key and canonical channel |
| RegistryRuns.VerdictExact | edge-node/core/registry/src/policy.rs:23-209 | over any run: unknown iff no entry, alias or catalog has the key; rejected iff the type cannot hold the values; undeclared iff the definition lacks the channel; out of range iff beyond the series' bound, else the site's, else the physical one; and the channel it is stored under |
| RegistryRuns.DefinitionsExact | edge-node/core/registry/src/store.rs:315-447 | when a custom entry or an alias is accepted, and that it adds that definition and nothing else |
| CollectorActor.RecordReading | edge-node/core/collector/src/actor.rs:987-1030 | exactly one reading is appended, then pipelines, then at most one publication; a quarantined reading changes nothing else; what each receives is `CollectorAnswers.RecordExact` |
| CollectorActor.RunStoreItem | edge-node/core/collector/src/actor.rs:932-1039 | registry verdict, cached series and stored reading computed as specified |
| CollectorActor.RunItem | edge-node/core/collector/src/actor.rs:821-1039 | subject resolution through the cache, screening and storing computed as specified |
| CollectorActor.RunItems | edge-node/core/collector/src/actor.rs:603-615 | the item loop computes the fold, or stops at the storage failure |
| CollectorActor.RecordSightings | edge-node/core/collector/src/actor.rs:632-635 | the loop records each staged hardware under the principal |
| CollectorActor.StagePending | edge-node/core/collector/src/actor.rs:616-644 | unknown subjects are staged together at the end |
| CollectorActor.Actor.constructor | edge-node/core/collector/src/actor.rs:228-231 | an actor starts with an empty cache |
| CollectorActor.Actor.Transact | edge-node/core/collector/src/actor.rs:592-646 | the transaction after the claim; any storage failure drops tables and cache alike |
| CollectorActor.Actor.Handle | edge-node/core/collector/src/actor.rs:516-659 | one request: preflight, generation check, claim, items, commit or rollback, and the fate of the cache |
| CollectorActor.Actor.Unreachable | edge-node/core/collector/src/actor.rs:320-326 | storage out of reach costs the cache and changes nothing else |
| CollectorRuns.CachedRefines | edge-node/core/collector/src/actor.rs:569-574 | one request with a sound cache gives the tables and answer of the collector without cache, and a sound cache |
| CollectorRuns.CacheIsInvisible | edge-node/core/collector/src/actor.rs:232-327 | over any run answers and tables agree with the collector without cache, and a current cache names only existing devices and series |
| CollectorInvariants.ProcessKeeps | edge-node/core/collector/src/actor.rs:516-659 | every request keeps numbering, namespaces, row links, staging reserve and claim bounds; one status per item and as many readings as the statuses say |
| CollectorInvariants.EveryRunKeeps | edge-node/core/collector/src/actor.rs:232-659 | from an empty database, over any run of requests, pipeline, registry, device, pin and admission changes and claim purges, all of this holds and the readings stored are exactly as many as acknowledged |
| CollectorAnswers.AliveExact | edge-node/core/ledger/src/store.rs:352-382 | the first device of that hardware that is not retired, if there is one |
| CollectorAnswers.RegisteredExact | edge-node/core/ledger/src/store.rs:383-400 | the device of that id unless retired |
| CollectorAnswers.RefusalsExact | edge-node/core/collector/src/actor.rs:516-568 | stale token, foreign source, more than 256 items, device time without a trusted clock: each answer iff its reason, in this order, and no trace left |
| CollectorAnswers.NoAckExact | edge-node/core/collector/src/actor.rs:592-659 | a claimed envelope is not acknowledged iff storage fails or its unknown subjects cannot be staged |
| CollectorAnswers.HintExact | edge-node/core/collector/src/actor.rs:830-862 | whose item it is: the hinted hardware, else the principal's only subject, else unknown |
| CollectorAnswers.StatusMeans | edge-node/core/collector/src/actor.rs:830-931 | forbidden subject, malformed key, non-finite value, lapsed time, unknown subject: each status iff its reason, in this order; staged iff a discovering adapter names unknown hardware in a well-formed item, with its own text; only the rest is stored |
| CollectorAnswers.StoredExact | edge-node/core/collector/src/actor.rs:932-1039 | quarantined for the registry's reason, else for the device's, else durable |
| CollectorAnswers.RecordExact | edge-node/core/collector/src/actor.rs:767-800 | reading row with the item's values, device and event times spelled out; pipelines, if the source is mapped, get the item's own adapter, subject, key, channel, values and times; publication of that reading under the current epoch |
| CollectorAnswers.ReadingIsItem | edge-node/core/collector/src/actor.rs:932-1039 | a stored item is recorded so, under the series of its subject, variant and the registry's key and channel; a series it opens is held iff definition or channel is missing |
| CollectorAnswers.StagedTogether | edge-node/core/collector/src/actor.rs:616-644 | unknown subjects are staged in one go, and each is on record for the principal |
| Delivery.ValidationPredicts | edge-node/core/collector/src/actor.rs:645-652 | validation writes nothing and answers what a first submission would |
| Delivery.RetriesLeaveNoTrace | edge-node/core/collector/src/actor.rs:516-659 | over any run the product tables equal those of a run without claims, retries or failures over the committed requests in commit order |
| Delivery.CommittedOnce | edge-node/core/timeseries/src/lib.rs:212-263 | while every retried claim is in its window and not evicted, no pair commits twice |
| Delivery.CommittedOnceInWindow | edge-node/core/timeseries/src/lib.rs:212-263 | in particular up to `principal_rows` events within one window commit each pair at most once |
| Delivery.ReceiptsAreTruthful | edge-node/ingest/client/src/inproc.rs:211-324 | with spool and collector composed, acknowledgements lost and transactions aborted, Final(Accepted) is only given for an envelope that itself committed, Final(Duplicate) only if an envelope of that id committed |
| Delivery.DuplicateIsSameEnvelope | edge-node/ingest/client/src/inproc.rs:211-324 | if no committed request uses the id for another envelope, Final(Duplicate) too is only given for an envelope that itself committed |
| Delivery.ReusedIdIsSwallowed | edge-node/core/collector/src/actor.rs:575-591 | Duplicate is answered iff the id is claimed and in its window, whatever the envelope holds, and then nothing is stored |
| Custody.TakeSome | edge-node/apps/node/src/retention.rs:36-50 | any batch up to the limit, the whole set if it is short |
| Custody.PurgeBatch | edge-node/apps/node/src/retention.rs:61-95 | one round selects, prunes and deletes a batch of what is doomed |
| Custody.PurgeReadings | edge-node/apps/node/src/retention.rs:30-104 | the batch loop terminates and equals one set deletion, with its count |
| Custody.PurgeKeepsCustody | edge-node/apps/node/src/retention.rs:30-104 | with an archive exactly the old readings that are quarantined or not owed go, without one all old ones; exactly acknowledged publications and those of deleted readings go; what is owed keeps both, and no measurement publication dangles |
| Activation.StepForward | edge-node/core/publish/src/activation.rs:131-285 | the state only moves standalone, discovery-only, active, one step at a time |
| Activation.InstallExact | edge-node/core/publish/src/activation.rs:131-175 | a target is installed iff its cursor is unused and the node is standalone, without target and never published |
| Activation.RemoveExact | edge-node/apps/nodectl/src/cmd/target.rs:41-148 | a target is added iff there is none, and leaves iff everything of the epoch is acknowledged or custody is abandoned |
| Activation.RequestExact | edge-node/core/publish/src/activation.rs:62-79 | what a request must look like, character by character |
| Activation.InsertExact | edge-node/core/publish/src/store.rs:45-58 | over any run a reading gets an unused number and, unless quarantined or discovery-only, a publication with an unused number and the current epoch |
| Activation.NoteExact | edge-node/core/publish/src/store.rs:60-127 | annotations and smoke tests are published unless discovery-only, naming no reading |
| Activation.ActivationSucceeds | edge-node/core/publish/src/activation.rs:127-285 | over any run, target removal and epoch renewal included, a discovery-only node has published nothing, and a request is applied iff it is valid, for this node and its current epoch, and the one target has an unused cursor; its boundary is the highest reading, and the first publication is number 1 |
| Activation.ActivationReplays | edge-node/core/publish/src/activation.rs:177-285 | replaying the request any time later returns the stored result and changes nothing iff the ledger epoch is still the request's, and is refused otherwise; any other request is refused |
| Activation.CleanupIsSafe | edge-node/core/publish/src/activation.rs:287-339 | in any reachable state and batch size, cleanup deletes only readings at or below the boundary and none a publication names; reporting none means none is left |
| Activation.CleanupCounts | edge-node/core/publish/src/activation.rs:322-339 | the count reported is the number of readings deleted |
| Activation.CleanupCompletes | edge-node/core/publish/src/activation.rs:287-339 | batches of any sizes leave as many pre-activation readings as there were less the sum of the sizes, lowest deleted first; once the sum covers them exactly the readings above the boundary remain |
| Activation.CustodyHolds | edge-node/core/publish/src/activation.rs:287-339 | over any run of inserts, purges, cleanups, acknowledgements, activations and target changes no measurement publication points at a reading that is gone |
| Capacity.RequiredCapacity | edge-node/core/ops/src/device_credentials.rs:952-965 | class by class with checked arithmetic equals the row-by-row total, overflowing iff the total does |
| Capacity.TotalByClass | edge-node/core/ops/src/device_credentials.rs:940-965 | the row-by-row total of the triggers is the sum of count times weight |
| CapacityRuns.ReplacementIsExact | edge-node/core/ops/src/device_credentials.rs:967-1019 | the prospective status (minus old, plus new) is the status recomputed after the change, overflow included |
| CapacityRuns.NewIsExact | edge-node/core/ops/src/device_credentials.rs:1021-1037 | the same for a new principal |
| CapacityRuns.ActivationIsExact | edge-node/core/ops/src/device_credentials.rs:1039-1070 | the same for a principal that becomes live |
| CapacityRuns.DebtBoundsOverage | edge-node/core/ops/src/device_credentials.rs:1112-1240 | in every reachable state that exceeds capacity exactly one debt is active and its overage bounds the actual one on both axes |
| CapacityRuns.StatusExact | edge-node/core/ops/src/device_credentials.rs:940-965 | required is the sum of class weights over principals with device, scope and credential, or an overflow of 64 bits |
| CapacityRuns.ApprovalExact | edge-node/core/ops/src/device_credentials.rs:1072-1093 | approval is needed iff an axis exceeds capacity and no active debt covers both |
| CapacityRuns.AddExact | edge-node/core/ops/src/device_credentials.rs:359-407 | a device is added iff its id is new and its class fits, is covered or approved; an approved excess becomes the active debt |
| CapacityRuns.IssueExact | edge-node/core/ops/src/device_credentials.rs:409-471 | a credential is issued on the same terms to a scoped device that has none |
| CapacityRuns.ChangesExact | edge-node/core/ops/src/device_credentials.rs:1167-1222 | a class change or configuration is accepted on the same terms and is then in force |
| CapacityRuns.WithdrawExact | edge-node/core/ops/src/device_credentials.rs:796-851 | withdrawal takes exactly what it names from exactly the principals named, which then require nothing |
| CapacityRuns.DebtEnds | edge-node/core/ops/src/device_credentials.rs:1167-1240 | after a class change, configuration or withdrawal the active debt is the actual status if that exceeds capacity and there is none otherwise; a recovery ends the debt in the same case and otherwise changes nothing |
| CapacityRuns.EndedDebtsStay | edge-node/core/ops/src/device_credentials.rs:1167-1240 | every operation keeps a debt that has ended on record as it ended |
| Credentials.LifecyclesAreOrdered | edge-node/core/ops/src/device_credentials.rs:637-855 | for any clock readings issued <= last used, proven, confirmed <= revoked; one current and one pending per principal; no replacement current unproven |
| Credentials.PromotionNeedsProof | edge-node/core/ops/src/device_credentials.rs:708-767 | only a confirmation of a proven pending credential makes it current |
| Credentials.AuthenticateExact | edge-node/core/ops/src/device_credentials.rs:637-706 | a token is honoured iff its credential is not revoked, of the current epoch and usable; that proves a pending one and notes the use at most once a minute; a refusal leaves no trace |
| Credentials.IssueExact | edge-node/core/ops/src/device_credentials.rs:409-471 | a first or replacement credential is issued iff its id is new and the principal has none in that state |
| Credentials.ConfirmExact | edge-node/core/ops/src/device_credentials.rs:708-767 | confirmed iff it is the principal's own proven pending one; it becomes current and the old one is revoked at one time after all of theirs; nothing else changes |
| Credentials.RevokeExact | edge-node/core/ops/src/device_credentials.rs:769-851 | revoke takes any live credential of the principal, abandon only a pending one, and it alone |
| Credentials.CloseExact | edge-node/core/ops/src/device_credentials.rs:796-851 | closing revokes every live credential of the principals named and no other |
| Credentials.RevokedStaysOut | edge-node/core/ops/src/device_credentials.rs:637-706 | over any run a revoked credential, or one of an earlier epoch, is never honoured again |
| Transition.ListenerTransition.constructor | edge-node/ingest/http/src/transition.rs:13-21 | nothing desired, applied or active |
| Transition.ListenerTransition.RestoreApplied | edge-node/ingest/http/src/transition.rs:36-49 | restores a non-zero generation not ahead of the desired one and puts the listener in service, or refuses and changes nothing |
| Transition.ListenerTransition.ObserveDesired | edge-node/ingest/http/src/transition.rs:51-57 | the desired generation never goes back and nothing else moves |
| Transition.ListenerTransition.PrepareGeneration | edge-node/ingest/http/src/transition.rs:62-68 | succeeds iff the generation is newer than the applied and not behind the desired one; what is applied and in service does not move |
| Transition.ListenerTransition.CommitReused | edge-node/ingest/http/src/transition.rs:72-81 | success advances the applied generation strictly, to the desired one, on the listener already held |
| Transition.ListenerTransition.CommitReplaced | edge-node/ingest/http/src/transition.rs:85-96 | success advances the applied generation strictly, to the desired one, on the new listener, and returns the old one |
| Transition.ListenerTransition.CommitDisabled | edge-node/ingest/http/src/transition.rs:100-110 | success applies the desired generation with no listener in service and returns the old one |
| Transition.ListenerTransition.Invalidate | edge-node/ingest/http/src/transition.rs:208-218 | returns the listener and forgets the applied generation, never the desired one |
| Transition.GenerationsAdvance | edge-node/ingest/http/src/transition.rs:36-110 | over any calls what is applied was desired and a listener in service has a generation; without a restore the desired generation never goes back, and without invalidation neither does the applied one |
| Listener.AtMostOneAccepts | edge-node/apps/node/src/ingress.rs:287-446 | at every step at most one listener accepts, and it enforces the applied generation on disk, which never exceeds the committed one |
| Listener.AppliedAdvancesInSilence | edge-node/apps/node/src/ingress.rs:497-546 | the applied generation advances only by a publication, while no listener accepts, to the generation committed at that moment |
| Listener.FailedPublicationRestores | edge-node/apps/node/src/ingress.rs:319-334 | after a failed publication generation and policies are unchanged and the old listener accepts again unless it has exited |
| Listener.SwitchoverCompletes | edge-node/apps/node/src/ingress.rs:287-446 | undisturbed, from every reachable idle state with a newer generation, any six or more steps leave it applied on disk and in memory with its listener accepting under its policy, or with none if disabled |
| Listener.RestartServes | edge-node/apps/node/src/ingress.rs:448-472 | a restart serves the applied generation again iff it can be bound and ingress is enabled; otherwise nothing accepts |
| Listener.InvalidationStops | edge-node/apps/node/src/ingress.rs:637-646 | in every reachable idle state, giving up the listener leaves none accepting, nothing applied in memory, and nothing applied durably if that could be written |

## Left out

- Sockets, TLS material, task scheduling and real clocks: times and event order are inputs of a run.
- SQL text, migrations and indexes: tables are values; a live device is the first row with its hardware id, and pipeline ids are numbers, of which only equality and order matter.
- f64 rounding and overflow: values are reals, with one value standing for NaN and the infinities.
- SHA-256 and UUIDs: structural hashes are the structural fields themselves, new ids come from a counter.
- i64 saturation in claim and staging arithmetic: integers are unbounded there; capacity arithmetic keeps its overflow checks.
- UTF-8: payload sizes and name lengths count characters, and the retry jitter sums character codes.
- rumqttc and the Broker: a first-in first-out queue with fresh packet ids, and no request, packet or acknowledgement of one connection survives into the next; packet attribution depends on this.
- Packet-id reuse after 65535 packets: ids are unbounded.
- Faults, health, logs and audit events: nothing reads them back.
- Signal strength, battery level and the wire text of reason codes: carried along unread.
- Authentication proof at serialisation: whether it is still current is an input of the transaction.
- `insert_staged_reading`: a legacy path outside the staging limits.
- Round trip of `last_value` through the state table: counts decode as measurements there.
- Retained value after an import that reuses an id with another kind: import clears only topics of ids that disappear.
- State and count pipelines after the counter limit: the rejected input leaves only one of them behind.
- Publication cursors, batch selection and the recovery rebuild of the publication log: they would add table lookups only.
- Nodes migrated into the active state without a boundary: activation runs start from an unused node.
- Ledger operations other than series, generation and quarantine release: any change they make is an event that bumps the generation.
- Registry alias kinds, units and revisions: carried along unread.
- Validation reports: a rearrangement of the acknowledgement that `Delivery.ValidationPredicts` is about.
- Device, credential and flow-class commands: only their effect on principals, debt and credentials is modelled, with the triggers of `edge-node/core/ops/migrations/0015_device_credentials.sql` as one reconciliation at the end.
- Stopping of a dropped listener: it stops accepting at once, whereas its service notices the signal a little later.
- Listener configuration checks, TLS custody and exposure: one flag of an event.
- HTTP admission, the BravePI codec, sensor drivers, the scripts and all of nodectl but adding and removing a target: outside the data path above.
- Collector.Record: readings are append-only in the collector's tables; deletion is modelled in `Custody` and `Activation`.

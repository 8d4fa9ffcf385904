# Verified models of the SWAR call-protection platform

Dafny models of the parts of SWAR whose correctness spans many steps, with machine-checked proofs:

- **Risk verdicts** (`RiskEngine`, `Hysteresis`, `EvidenceTable`, `Decisions`, `OnceOnly`): evidence is recorded with
  supersession, evaluated window by window through a threshold matrix with hysteresis, and written out as assessments,
  risk events, interventions and outbox rows.
- **Streaming audio** (`RollingWindow`, `Windowing`, `LatestQueue`, `Normalizer`, `LossyStream`,
  `LossyRuns`): the sliding buffer, the lossy frame queue and the normalizer that leaves room for lost frames, against
  an unbounded timeline.
- **Leases and guarded updates** (`Outbox`, `OutboxRuns`, `OutboxBackoff`, `OutboxService`, `CallBinding`,
  `CallBindingRuns`, `CallRepository`, `Interventions`, `InterventionRuns`, `InterventionsService`,
  `RefreshSessions`): several workers, users and jobs whose steps interleave freely and who may stop between any two.
- **Equal error rate** (`EqualErrorRate`), **keyset pagination** (`Pagination`) and **FLAC metadata** (`Flac`).

Code that updates state is a class or a method with loops, proved against a function of its inputs or old state; the
properties are lemmas about those functions. Protocols are state machines: a serializable transaction is one step, a
guarded update is one step, and every property is about all runs. `Wrappers`, `Leases` and `Arithmetic` hold shared
definitions.

Clocks, random identifiers, provider answers and the database's choice of candidate rows are parameters or steps;
hashes are modelled by the data they hash; floating-point scores and samples are reals.

Where the code does not do what its documentation or its tables promise, the model follows the code and a lemma shows
the concrete case:

- The policy parser does not order clear below enter; chatter is excluded exactly when they are ordered
  (`Hysteresis.ChatterFreeExactly`).
- A redelivered event is refused once its row has been superseded or was stale, because the comparison includes the
  status (`EvidenceTable.RedeliveryExact`).
- Under the schema's unique indexes the order of delivery can decide the verdict (`EvidenceTable.OrderDecidesState`); it
  cannot exactly when no newest event is contended (`EvidenceTable.OrderIndependentExactly`).
- A state change assessed while the newest window is insufficient is not announced (`OnceOnly.SilentChangeHappens`), and
  consumers stay without it until the state moves again (`OnceOnly.UntrackedUntilRegained`).
- An outbox row whose last attempt loses its worker is PENDING for good (`OutboxRuns.SettlesExactly`), and the
  backoff is kept exactly with one attempt or one worker that never stops (`OutboxBackoff.BackoffKeptExactly`).
- Three writers bypass the session transition table (`CallBindingRuns.StatusWrites`), and an ended call can keep an
  open session (`CallBindingRuns.EndingClearsExactly`).
- The executor's final failure violates the schema's lifecycle check, so a dead letter is never written
  (`InterventionRuns.NothingEverFails`).
- Cursors carry milliseconds while the columns keep microseconds (`Pagination.AlwaysCompleteExactly`).

Check everything with `dafny verify dfyconfig.toml`.

## Model

| member | source | states |
|---|---|---|
| `RiskEngine.SelectLatest` | backend/src/modules/risk/risk-engine.ts:63-85 | the loop over a map and the sort compute the specified selection, for every list of events |
| `RiskEngine.SelectExact` | backend/src/modules/risk/risk-engine.ts:63-85 | unless newest events tie, the selected events are exactly those of which no event of the same window and type is newer by (revision, eventSequence) |
| `RiskEngine.SelectOrderIndependent` | backend/src/modules/risk/risk-engine.ts:63-85 | unless newest events tie, the selection depends only on which events arrived, not on order or repetition, and can be computed from any sub-collection that keeps the newest event of every key |
| `RiskEngine.UsableExactly` | backend/src/modules/risk/risk-engine.ts:88-172 | a window passes all gates exactly when no event reports insufficient audio or a pipeline error, an identity and a spoof score name the wanted target or its opposite, a direction and a value in [0, 1], and every component is ready and of sufficient quality |
| `RiskEngine.MeasuredScores` | backend/src/modules/risk/risk-engine.ts:88-172 | the measured identity score is the probability of the expected speaker that the identity event shows, and the spoof score weighs both spoof probabilities or is the only readable one; a score counts as it stands when direction and target agree with what is asked or are both reversed, else as its complement |
| `RiskEngine.MeasureInUnitInterval` | backend/src/modules/risk/risk-engine.ts:87-172 | whatever the recorded targets and directions, the two scores of a usable window lie in [0, 1], a fused one up to the tolerance the parser allows the weights |
| `RiskEngine.GroupByWindow` | backend/src/modules/risk/risk-engine.ts:199-215 | grouping a sorted selection through a map yields the windows in ascending order, each with its own events |
| `RiskEngine.FoldWindows` | backend/src/modules/risk/risk-engine.ts:204-248 | the loop with its five variables computes the fold of all windows |
| `RiskEngine.EvaluateRiskEvidence` | backend/src/modules/risk/risk-engine.ts:199-288 | the whole evaluation computes the specified verdict, or the error for no evidence |
| `Hysteresis.HysteresisExact` | backend/src/modules/risk/risk-engine.ts:211-248 | after every window of every run pendingCount is the length of the longest run of windows ending there that all decide pendingState under one state with gaps of at most maximumWindowGap + 1, and the state switches exactly when that run reaches the required length |
| `Hysteresis.SwitchesAfterExactly` | backend/src/modules/risk/risk-engine.ts:216-248 | from a state with nothing pending, n contiguous windows naming another quadrant move the state exactly when n reaches the entry count, or the clear count for a recovery |
| `Hysteresis.Settles` | backend/src/modules/risk/risk-engine.ts:173-248 | from any fold state, max(entry, clear) contiguous windows outside the bands that name one quadrant leave the state there |
| `Hysteresis.BandLock` | backend/src/modules/risk/risk-engine.ts:173-248 | while all usable scores stay inside both bands no run changes the state |
| `Hysteresis.ChatterFreeExactly` | backend/src/modules/risk/risk-engine.ts:173-189 | for a policy the parser accepts and scores in [0, 1], deciding again on unchanged scores never contradicts the decision exactly when clear <= enter for both scores, which the parser does not check |
| `Hysteresis.ChatterForever` | backend/src/modules/risk/risk-engine.ts:173-248 | with clear above enter and single-window counts, constant scores flip the state at every window |
| `Hysteresis.ConstantEvidenceMovesOnce` | backend/src/modules/risk/risk-engine.ts:173-248 | with ordered thresholds, unchanged scores move the state at most once, from any fold state |
| `Hysteresis.TransitionBound` | backend/src/modules/risk/risk-engine.ts:199-248 | over any run transitions * min(entry, clear) is at most the number of decided windows plus the initial count |
| `Hysteresis.IncrementalEqualsBatch` | backend/src/modules/risk/risk-engine.ts:199-288 | evidence for later windows only continues the same fold from the saved state: the verdict over everything equals the continued one |
| `Hysteresis.LaterErrorHidesOutcome` | backend/src/modules/risk/risk-engine.ts:117-248 | a pipeline error in a later window keeps the verdict's state and makes its outcome insufficient |
| `EvidenceTable.EvidenceRepository.RecordWithClient` | backend/src/modules/evidence/evidence.repository.ts:135-226 | the step-by-step transaction equals the recording function on rows, answer and every error, including the unique indexes |
| `EvidenceTable.VerdictSeesKept` | backend/src/modules/evidence/evidence.repository.ts:154-226 | whatever plain events with distinct keys are delivered in whatever order, under the unique indexes the verdict over the accepted rows is that over the deliveries the indexes did not refuse; without the indexes the same holds unless newest events tie |
| `EvidenceTable.VerdictSeesEverything` | backend/src/modules/evidence/evidence.repository.ts:154-191 | unless a newest event of a window and type is contended, evaluating the accepted rows equals evaluating every event ever delivered, kept or refused |
| `EvidenceTable.OrderIndependentExactly` | backend/src/modules/evidence/evidence.repository.ts:154-226 | whatever the policy, every delivery order of the same events, with any repeats, leaves the same verdict exactly when no newest event of a window and type contends with another event: under the indexes by event sequence or by revision, without them by a tie |
| `EvidenceTable.OrderDecidesState` | backend/prisma/migrations/20260828000000_initial_swar_schema/migration.sql:720-723 | under the indexes the order of two spoof events of one revision decides between VERIFIED and CRITICAL |
| `EvidenceTable.OutrankedCollisionHarmless` | backend/prisma/migrations/20260828000000_initial_swar_schema/migration.sql:720-723 | a collision of events that a later revision outranks makes no difference, so colliding alone is not the condition |
| `EvidenceTable.DeliverLinks` | backend/src/modules/evidence/evidence.repository.ts:166-226 | supersession links and superseded rows correspond: each link names a superseded row of lower revision and every superseded row is named |
| `EvidenceTable.IndexedOneAccepted` | backend/src/modules/evidence/evidence.repository.ts:166-226 | with the schema's unique indexes no two rows of one window and type are ever accepted together |
| `EvidenceTable.UnindexedTwoAccepted` | backend/src/modules/evidence/evidence.repository.ts:166-226 | the repository code alone lets two rows of equal revision stay accepted |
| `EvidenceTable.RedeliveryExact` | backend/src/modules/evidence/evidence.repository.ts:62-108 | redelivery changes nothing; an event the indexes refused is refused again, and one that was kept is answered with its row exactly while no later revision of its window and type has been kept |
| `Decisions.HeadlessRiskPipeline.RecordDecision` | backend/src/modules/risk/headless-risk-pipeline.service.ts:227-492 | evaluation, replay check, gates and writes equal the specified decision on all tables |
| `Decisions.HeadlessRiskPipeline.IngestAcceptedEvidence` | backend/src/modules/risk/headless-risk-pipeline.service.ts:143-198 | with up to three attempts, an ingest either is one whole transaction or, when all attempts abort, leaves no trace |
| `Decisions.InterventionTypesExact` | backend/src/modules/risk/headless-risk-pipeline.service.ts:402-409 | an intervention is created exactly when the mode is not shadow, it was proposed, and a hold has an action to hold |
| `OnceOnly.DecisionsConsistent` | backend/src/modules/risk/headless-risk-pipeline.service.ts:143-492 | along every run of ingests assessments are unique per accepted set, chained from state to state, risk events are numbered 1..n and announce exactly the changes, and outbox rows are 1 in shadow mode or 2 + interventions otherwise |
| `OnceOnly.ExactlyOneAssessment` | backend/src/modules/risk/headless-risk-pipeline.service.ts:227-300 | for a parsing policy, after every ingest each non-empty accepted set has exactly one assessment |
| `OnceOnly.RedeliveryAddsNothing` | backend/src/modules/risk/headless-risk-pipeline.service.ts:143-198 | presenting a known key again adds no row to any table |
| `OnceOnly.EventsGated` | backend/src/modules/risk/headless-risk-pipeline.service.ts:302-303 | no event of any run is in production mode unless every gate is open, the policy activated and the evidence calibrated; in a production environment none is in another mode |
| `OnceOnly.TrackingAfterExactly` | backend/src/modules/risk/headless-risk-pipeline.service.ts:296-368 | whether consumers have the session state after an ingest, from the state before and the event alone: unchanged unless the ingest moves the state, and then exactly when the newest window is usable or the move silently leads back to the state last announced |
| `OnceOnly.TrackingBreaksExactly` | backend/src/modules/risk/headless-risk-pipeline.service.ts:296-368 | from a tracked state, one ingest makes the announced and the assessed state of a session differ exactly when its event is accepted, its set not yet assessed, the mode permitted, the verdict state another one and the newest window unusable |
| `OnceOnly.UntrackedUntilRegained` | backend/src/modules/risk/headless-risk-pipeline.service.ts:296-368 | over whole runs a session whose consumers lost its state stays that way exactly until a move that is announced or that silently undoes what they missed |
| `OnceOnly.MaskedChange` | backend/src/modules/risk/headless-risk-pipeline.service.ts:296-368 | with an entry count of one, an error of a later window followed by identity and spoof evidence of an earlier one moves the state and announces nothing |
| `OnceOnly.SilentChangeHappens` | backend/src/modules/risk/headless-risk-pipeline.service.ts:366-368 | a concrete run of ingests ends in HIGH_RISK with no risk event |
| `OnceOnly.NewSetUnassessed` | backend/src/modules/risk/headless-risk-pipeline.service.ts:273-300 | along every run the set a new accepted event completes has not been assessed |
| `OnceOnly.TrackingWithoutSilence` | backend/src/modules/risk/headless-risk-pipeline.service.ts:296-368 | runs without silent assessments keep announced and assessed state equal |
| `RollingWindow.Load` | ml/app/audio/config.py:70-80 | every configuration the loader accepts has at least one sample per stride, strides no longer than a window and room for a window |
| `RollingWindow.FullWindowsQuotient` | ml/app/audio/rolling_window.py:109-118 | the number of full windows in n samples is (n - window) / stride + 1 once there is one |
| `RollingWindow.RollingWindowBuffer.Append` | ml/app/audio/rolling_window.py:58-126 | append on the bounded buffer emits and remembers what the unbounded timeline says, for every input and error; the second limit check never fires |
| `RollingWindow.RollingWindowBuffer.BufferedBelowWindow` | ml/app/audio/rolling_window.py:109-126 | between calls fewer samples than a window are buffered |
| `RollingWindow.RollingWindowBuffer.Finish` | ml/app/audio/rolling_window.py:128-149 | finish emits exactly the unseen remainder as one partial window, or nothing, and closes |
| `RollingWindow.RollingWindowBuffer.Clear` | ml/app/audio/rolling_window.py:151-155 | clearing zeroes every buffered sample and closes for good |
| `RollingWindow.RollingWindowBuffer.DiscardConsumedPrefix` | ml/app/audio/rolling_window.py:201-210 | discarding keeps exactly the samples from the next window on and zeroes the old buffer |
| `Windowing.ChunkingInvariant` | ml/app/audio/rolling_window.py:58-126 | two ways of cutting the same segments, however many and however begun, into accepted chunks emit the same windows, before and after finishing |
| `Windowing.WindowsAreSlices` | ml/app/audio/rolling_window.py:75-199 | a run of any number of segments emits, segment after segment, exactly the windows timeline[start + k*stride .. start + k*stride + window], (L - W) / S + 1 of them per segment, the first carrying the marks of the interruption |
| `Windowing.NumberedInOrder` | ml/app/audio/rolling_window.py:174-199 | whatever is appended, refused or interrupted, windows are numbered on across segments without a hole |
| `Windowing.FinishCovers` | ml/app/audio/rolling_window.py:128-149 | after finishing a run without discontinuity, however its segment began, every appended sample lies in a window that shows it, and at most one window is partial and shorter than a window |
| `LatestQueue.BoundedLatestQueue.PutLatest` | ml/app/media/audio_stream.py:57-65 | a full queue drops its oldest frame and zeroes and empties its payload in place, and touches no other |
| `LatestQueue.BoundedLatestQueue.Get` | ml/app/media/audio_stream.py:52-55 | the oldest item is taken; waiting for one is a take that has not happened yet |
| `LatestQueue.BoundedLatestQueue.Clear` | ml/app/media/audio_stream.py:67-73 | clearing empties the queue and zeroes and empties the payload of every queued frame in place |
| `LatestQueue.QueueHoldsNewest` | ml/app/media/audio_stream.py:32-65 | along every interleaving of arrivals and takes the queue holds exactly the newest frames within its bound, taken frames are in order, and taken + queued + dropped = arrived |
| `Normalizer.MonoAt` | ml/app/audio/pcm_normalizer.py:99-106 | output frame i is mixed from the i-th group of interleaved samples |
| `Normalizer.MonoInvertsEncoding` | ml/app/audio/pcm_normalizer.py:94-106 | decoding inverts the 16-bit little-endian encoding: each output frame is the word, or the mean of the two words, over full scale |
| `Normalizer.StreamingPcmNormalizer.PushFrame` | ml/app/audio/pcm_normalizer.py:257-386 | on the native path push places, marks and mixes a frame as specified, and every error closes the stream |
| `Normalizer.StreamingPcmNormalizer.Clear` | ml/app/audio/pcm_normalizer.py:344-348 | clearing forgets the pending gap and closes for good |
| `LossyStream.AudioPreprocessor.PushFrame` | ml/app/audio/pipeline.py:29-55 | normalizer and buffer together do what their specifications compose to, and an error clears both |
| `LossyStream.FramePlacement` | ml/app/audio/pcm_normalizer.py:264-321 | for frames of one length, surviving frame s starts at (s - s0) * n and is marked with exactly the samples lost before it |
| `LossyStream.LossyRunsAgree` | ml/app/audio/pipeline.py:29-67 | whatever the queue drops, every window emitted, and the final partial one, is the slice [start, end) of the lossless stream from the first surviving frame |
| `LossyRuns.LossyWindowsExact` | ml/app/audio/pipeline.py:29-67 | the survivors decide exactly which windows there are: every maximal run of r survivors has the (r * n - window) / stride + 1 slices of its own audio, the first marked with what was lost before it, and nothing else is emitted; without a refused frame finishing covers the last run; the preprocessor closes exactly when a survivor is refused |
| `Outbox.ClaimNeedsFreeLease` | backend/src/modules/security-events/security-event-outbox.repository.ts:73-99 | with any number of workers stopping anywhere, no claim succeeds while an unexpired lease stands, however stale the claiming query |
| `Outbox.PublishUnderLease` | backend/src/modules/security-events/security-event-outbox.service.ts:57-61 | the publisher is only called while the worker's own lease on the pending row still stands |
| `Outbox.Reachable` | backend/src/modules/security-events/security-event-outbox.service.ts:41-104 | the invariant of leases, attempts and traces holds in every reachable state of every number of workers |
| `OutboxRuns.PublishesBounded` | backend/src/modules/security-events/security-event-outbox.repository.ts:50-150 | a row is published at most once per attempt and at most maximumAttempts times, is DELIVERED only after the publisher accepted it, and PENDING without lease implies attempts left |
| `OutboxRuns.SettledForever` | backend/src/modules/security-events/security-event-outbox.repository.ts:104-150 | DELIVERED and FAILED are final and nothing is published after them |
| `OutboxRuns.OneMarker` | backend/src/modules/security-events/security-event-outbox.repository.ts:104-150 | at any time at most one worker can mark a row; a worker whose row was claimed again changes nothing |
| `OutboxRuns.SettlesExactly` | backend/src/modules/security-events/security-event-outbox.repository.ts:58-99 | with all workers idle a pending row can still be settled exactly when it has an attempt left |
| `OutboxRuns.OrphanedForever` | backend/src/modules/security-events/security-event-outbox.repository.ts:58-99 | a row whose last attempt lost its worker stays PENDING in every continuation |
| `OutboxRuns.LastAttemptCanBeLost` | backend/src/modules/security-events/security-event-outbox.service.ts:41-104 | for every maximum number of attempts such a row is reachable: a worker stops after each claim |
| `OutboxBackoff.BackoffKeptExactly` | backend/src/modules/security-events/security-event-outbox.repository.ts:58-99 | for every configuration, all runs keep the backoff of all rows exactly when one attempt is allowed, nobody works, or there is a single worker and it never stops |
| `OutboxBackoff.DueClaimsKeepBackoff` | backend/src/modules/security-events/security-event-outbox.repository.ts:73-99 | with any number of workers stopping anywhere, the backoff is kept while every claim finds nextAttemptAt due and no earlier lease on the row |
| `OutboxBackoff.BrokenByHastyClaim` | backend/src/modules/security-events/security-event-outbox.repository.ts:73-99 | a run that breaks the backoff holds a claim that found the row not due or still leased |
| `OutboxBackoff.BackoffKept` | backend/src/modules/security-events/security-event-outbox.repository.ts:129-147 | with one worker that never stops, attempt k starts no earlier than base * (2^(k-1) - 1) after the first, and no mark is ever lost |
| `OutboxBackoff.CrashBreaksBackoff` | backend/src/modules/security-events/security-event-outbox.repository.ts:58-99 | in every configuration with two attempts, a worker that claims late, stops and returns starts two attempts at the same time |
| `OutboxBackoff.TwoWorkersBreakBackoff` | backend/src/modules/security-events/security-event-outbox.repository.ts:73-93 | in every configuration with two attempts, without anyone stopping, two workers start two attempts at the same time although a failure and a delay were recorded in between, because the claim does not look at nextAttemptAt again |
| `OutboxService.SecurityEventOutboxRepository.ClaimDispatchable` | backend/src/modules/security-events/security-event-outbox.repository.ts:50-102 | the claiming loop is a run of the interleaving model and delivers nothing |
| `OutboxService.SecurityEventOutboxRepository.MarkDelivered` | backend/src/modules/security-events/security-event-outbox.repository.ts:104-122 | marking delivered settles the row exactly when the lease is still owned |
| `OutboxService.SecurityEventOutboxRepository.MarkFailed` | backend/src/modules/security-events/security-event-outbox.repository.ts:124-150 | marking failed writes the backoff or the final failure exactly when the lease is still owned |
| `OutboxService.SecurityEventOutboxService.Flush` | backend/src/modules/security-events/security-event-outbox.service.ts:41-104 | a flush is a run of the interleaving model, counts exactly the rows it turned DELIVERED and leaves no lease behind |
| `EqualErrorRate.SweepFalls` | ml/evaluation/metrics/common.py:80-99 | false-accept minus false-reject starts at 1, ends at -1 and strictly decreases along the thresholds |
| `EqualErrorRate.ComputeEqualErrorRate` | ml/evaluation/metrics/common.py:75-108 | for every valid input the curves are met and their meeting point returned, so the end of the loop is unreachable; invalid input is the only error |
| `EqualErrorRate.OneScore` | ml/evaluation/metrics/common.py:78-79 | the special case for one distinct score is what the general construction gives |
| `EqualErrorRate.MeetsUnique` | ml/evaluation/metrics/common.py:100-108 | there is only one meeting point, rate and threshold |
| `EqualErrorRate.RateInUnit` | ml/evaluation/metrics/common.py:75-108 | the rate lies in [0, 1] |
| `EqualErrorRate.ZeroExactlyWhenSeparated` | ml/evaluation/metrics/common.py:75-108 | the rate is 0 exactly when every positive scores above every negative |
| `EqualErrorRate.RescoringInvariant` | ml/evaluation/metrics/common.py:75-108 | any strictly increasing rescoring leaves the rate unchanged |
| `EqualErrorRate.OrientationInvariant` | ml/evaluation/metrics/common.py:111-118 | negating the scores and swapping the labels gives the same rate at the negated threshold |
| `CallBindingRuns.OneActiveBinding` | backend/src/modules/calls/call.repository.ts:405-566 | along every interleaving a call has at most one ACTIVE binding, it carries the greatest revision, every open session belongs to it and there is at most one open session per call |
| `CallBindingRuns.StatusWrites` | backend/src/modules/domain/domain-state-machines.ts:51-81 | every session status write of every step is in analysisTransitions or one of three named bypasses; terminal sessions are frozen and none re-opens |
| `CallBindingRuns.EscapesExactly` | backend/src/modules/domain/domain-state-machines.ts:51-81 | a step writes a session status outside the table exactly when it unpublishes the track of a STOPPING session, expires a due STARTING session, or ends the call of an open session |
| `CallBindingRuns.TableIsBypassed` | backend/src/modules/calls/call.repository.ts:590-649 | all three bypasses are reachable: STARTING to EXPIRED by the expiry job, an open session to STOPPED by endCall, STOPPING to REVOKED by unpublishing |
| `CallBindingRuns.TerminalForever` | backend/src/modules/calls/call.repository.ts:674-714 | terminal session states are absorbing over every run |
| `CallBindingRuns.ClosedForever` | backend/src/modules/calls/call.repository.ts:674-714 | a session that has left the open states never becomes open again |
| `CallBindingRuns.StartActivatesCurrent` | backend/src/modules/analysis/analysis.service.ts:122-134 | a start that succeeds activates the session of the call's current binding |
| `CallBindingRuns.RepublishIdempotent` | backend/src/modules/calls/call.repository.ts:443-475 | publishing the same track with the same key again returns the same session and changes nothing |
| `CallBindingRuns.EndCallClearsForever` | backend/src/modules/calls/call.repository.ts:716-758 | after endCall no binding or session of the call is ever active or open again |
| `CallBindingRuns.OverRun` | backend/src/modules/calls/call.repository.ts:405-440 | once a call is ENDING, in every continuation nothing new is bound to it or opened for it |
| `CallBindingRuns.EndingClearsExactly` | backend/src/modules/calls/calls.service.ts:318-347 | from ENDING on, in every continuation, the call is cleared exactly when it is ENDED, each of its active bindings has been unpublished (or endCall has run) and each of its sessions has reached a terminal state |
| `CallBindingRuns.EndedCallCanStayOpen` | backend/src/modules/calls/calls.service.ts:318-347 | with neither, an ENDED call keeps an ACTIVE binding and an open session |
| `CallRepository.CallTables.BindTrackAndCreateAnalysis` | backend/src/modules/calls/call.repository.ts:405-566 | the transaction, update by update, equals the model's step, including replay and conflicts |
| `CallRepository.CallTables.CloseVerifiedTrack` | backend/src/modules/calls/call.repository.ts:590-649 | the transaction equals the model's step |
| `CallRepository.CallTables.EndCallNow` | backend/src/modules/calls/call.repository.ts:716-758 | the transaction equals the model's step |
| `CallRepository.CallTables.TransitionAnalysisSession` | backend/src/modules/calls/call.repository.ts:674-714 | the guarded update equals the model's step: it writes from the expected status only, accepts a repeat and refuses everything else |
| `CallRepository.CallTables.ExpireStaleSessions` | backend/src/modules/maintenance/backend-maintenance.service.ts:43-49 | the bulk update expires exactly the due open sessions |
| `CallRepository.AnalysisService.Start` | backend/src/modules/analysis/analysis.service.ts:29-159 | an undisturbed start is a run of the model and reports active exactly when the session is |
| `CallRepository.AnalysisService.Stop` | backend/src/modules/analysis/analysis.service.ts:161-249 | an undisturbed stop is a run of the model and reports success only for a terminal session |
| `InterventionRuns.WritesFollowTable` | backend/src/modules/domain/domain-state-machines.ts:83-110 | under every interleaving every intervention status write is in interventionTransitions, attempts never exceed the maximum, and SATISFIED implies a PASSED challenge of that intervention |
| `InterventionRuns.TerminalForever` | backend/src/modules/risk/risk.repository.ts:623-674 | a resolved intervention is frozen over every run |
| `InterventionRuns.PassedForever` | backend/src/modules/risk/risk.repository.ts:768-797 | a passed challenge stays passed |
| `InterventionRuns.NothingEverFails` | backend/src/modules/interventions/engineering-intervention-executor.service.ts:166-186 | with the schema's lifecycle check in force no intervention is ever FAILED, because the last failure is refused |
| `InterventionRuns.LastFailureStrands` | backend/prisma/migrations/20260828000000_initial_swar_schema/migration.sql:1089-1091 | for every maximum number of attempts the last failure strands the row REQUIRED with the check, without any crash, and fails it without the check |
| `InterventionRuns.StrandedByExecutors` | backend/src/modules/interventions/engineering-intervention-executor.service.ts:65-80 | no executor step, and for rows without expiry no expiry step, ever touches a stranded row again |
| `InterventionRuns.DispatchLostExactly` | backend/src/modules/interventions/engineering-intervention-executor.service.ts:109-152 | over every run, the update after a successful dispatch leaves the intervention unmoved exactly when a step of somebody else took the row away between the claim and now; the executor goes on either way |
| `InterventionRuns.DispatchedButAcknowledged` | backend/src/modules/interventions/engineering-intervention-executor.service.ts:109-152 | at every attempt an action can be dispatched although the intervention never goes into progress |
| `InterventionsService.RiskTables.UpdateInterventionStatus` | backend/src/modules/risk/risk.repository.ts:623-674 | the guarded update writes exactly the moved row or reports the conflict |
| `InterventionsService.RiskTables.CompleteVerificationChallenge` | backend/src/modules/risk/risk.repository.ts:768-797 | a pending, unexpired challenge is completed, a repeated result is accepted and everything else conflicts |
| `InterventionsService.RiskTables.ExpireStaleRecords` | backend/src/modules/maintenance/backend-maintenance.service.ts:50-67 | the bulk updates expire exactly the due challenges and interventions |
| `InterventionsService.InterventionActions.AcknowledgeIntervention` | backend/src/modules/interventions/interventions.service.ts:27-58 | acknowledge is the model's read and write, and succeeds exactly when the row is acknowledged |
| `InterventionsService.InterventionActions.CancelIntervention` | backend/src/modules/interventions/interventions.service.ts:60-102 | cancel is the model's read and write, and refuses interventions in progress |
| `InterventionsService.InterventionActions.HoldAction` | backend/src/modules/interventions/interventions.service.ts:104-162 | hold changes the row only after the provider has held the action |
| `InterventionsService.InterventionActions.ReleaseAfterIndependentVerification` | backend/src/modules/interventions/interventions.service.ts:164-236 | release satisfies the intervention only on a passed, unexpired challenge of it |
| `InterventionsService.EngineeringInterventionExecutor.ExecutePending` | backend/src/modules/interventions/engineering-intervention-executor.service.ts:53-220 | a batch is a run of the interleaving model, also when a refused update ends it |
| `RefreshSessions.RefreshSessionRepository.CreateSession` | backend/src/modules/auth/refresh-session.repository.ts:67-104 | creation equals the specified step: a new family with one active session, or nothing |
| `RefreshSessions.RefreshSessionRepository.RotateSession` | backend/src/modules/auth/refresh-session.repository.ts:106-178 | rotation equals the specified transaction on all five outcomes, and the lost-race branch is dead |
| `RefreshSessions.RefreshSessionRepository.RevokeTokenFamily` | backend/src/modules/auth/refresh-session.repository.ts:180-193 | revocation equals the specified step on all sessions of the token's family |
| `RefreshSessions.OneActivePerFamily` | backend/src/modules/auth/refresh-session.repository.ts:67-193 | along every run a family has at most one ACTIVE session and it is the newest |
| `RefreshSessions.PresentationExact` | backend/src/modules/auth/refresh-session.repository.ts:106-178 | presenting a known token leaves its family alive exactly when it was active, unexpired and its identity active |
| `RefreshSessions.ReuseClosesFamily` | backend/src/modules/auth/refresh-session.repository.ts:106-193 | once a token that is not active is presented, or a token revoked, no session of the family is ever ACTIVE again |
| `Pagination.ListPage` | backend/src/modules/calls/call.repository.ts:370-403 | sorting, cutting and the cursor produce the page the query defines, and only a page size out of range is refused |
| `Pagination.ItemsDescend` | backend/src/modules/risk/risk.repository.ts:549-621 | rows come in strictly descending order across all pages of a table that changes in between, so none twice |
| `Pagination.FollowingEnds` | backend/src/modules/risk/risk.repository.ts:549-621 | all pages but the last are full and together fit the finite set of rows below the first cursor |
| `Pagination.ReachesEnd` | backend/src/modules/risk/risk.repository.ts:549-621 | on a static table following the cursors reaches null, whatever the page size |
| `Pagination.AlwaysCompleteExactly` | backend/src/database/pagination.ts:31-36 | on a static table every page size from 1 to 100 returns every visible row exactly when no visible row is hidden by the cursor of another one above it |
| `Pagination.FollowedComplete` | backend/src/modules/risk/risk.repository.ts:549-621 | on a changing table every row present throughout is returned unless the cursor of a row met on the way hides it |
| `Pagination.StaticTable` | backend/src/modules/risk/risk.repository.ts:549-621 | on a static table without hidden rows the pages concatenate to the sorted filtered table |
| `Pagination.WholeMillisecondsGapless` | backend/src/database/pagination.ts:31-36 | times that are whole milliseconds hide no row |
| `Pagination.SubMillisecondLoss` | backend/src/database/pagination.ts:31-36 | cursors keep milliseconds, the column microseconds: a row can be on no page |
| `Flac.InspectFlac` | ml/scripts/data_governance.py:296-324 | the loop over the file handle ends and computes the specified reading, error for error |
| `Flac.ReaderInvertsLayout` | ml/scripts/data_governance.py:296-324 | for any blocks before STREAMINFO and any bytes after it the reader returns exactly the encoded rate, channels and length |
| `Flac.AcceptedMeansEncoded` | ml/scripts/data_governance.py:296-324 | every file the reader accepts is laid out by the encoder with exactly the numbers returned |

## Left out

- HTTP controllers, request validation, audit records, logging, telemetry and timers: no lasting effect on the modelled state.
- The policy document parser and the environment schema: their ranges appear as `Parsed`, `Accepted` and `Valid`.
- The resampled path of the normalizer and 32-bit float payloads: the runtime sends 16-bit PCM; other rates go through a foreign resampler.
- Normalizer.StreamingPcmNormalizer.PushFrame: requires that the frame is not at an allowed rate other than 16 kHz, because such a frame is resampled.
- LossyStream.AudioPreprocessor.PushFrame: requires the same.
- LossyRuns.LossyWindowsExact: is about frames of one length from one sender; other lengths are covered by `Windowing`.
- Counting of clipped input samples: 16-bit samples are never clipped (`Normalizer.SampleInRange`).
- Voice activity and quality scores of windows: floating-point heuristics.
- Reconnection of a media session: each attempt starts a new preprocessor; one connection is modelled.
- EvidenceTable.OrderIndependentExactly: is about deliveries that ask to be accepted and name no row to supersede; `Record` models the other requests too, and the closing of a session in between is not modelled. Accepted rows that tie without the indexes are loaded in insertion order, which the source leaves to the database.
- Decisions: expiry of interventions, alert payloads and external event identifiers are not modelled; call, policy and gate do not change within a run.
- Outbox: replay and acknowledgement of delivered events, failure codes, and the ordering of candidates within the batch limit are not modelled.
- OutboxService.SecurityEventOutboxService.Flush: takes database errors that keep markDelivered from being applied; an error after it is applied, in the claim or in markFailed ends the flush, which the machine models as a crash and this method does not.
- OutboxBackoff.BackoffKept: states the lower bound on starts; how late a poll comes after it is up to the timer.
- CallBinding: participants joining and leaving, room and media grants, and revocation of voiceprint sessions by the enrollment repository, which only writes open sessions to REVOKED, are not modelled.
- Interventions: risk events written through the alternate transition writer are not modelled; a provider answer is a boolean.
- RefreshSessions: tokens are their own hashes; the alternate session writer with a family supplied by its caller is not modelled.
- Pagination.AlwaysCompleteExactly: whether the database client fills the time default itself, and decoding of malformed cursors, are not modelled.
- FLAC audio frames and the WAV reader are not part of this model.
- The in-memory idempotency service and the two data-leakage gates: independent smaller checks.

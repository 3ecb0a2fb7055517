# Wingman Autopilot: models of its retry, lease, grant and repair logic

A Dafny 4.11 project that models the parts of the repository whose job is to keep durable or remote state right under
retries, restarts and interleaving, and proves what they promise. `dafny verify dfyconfig.toml` checks all of it.

Tower (the remote authority) and SQLite are small explicit environments. Tower's side is assumed, never proved: it keeps
the greatest accepted sequence of an activity, answers "stale" to equal or lower ones and "terminal" after the end.
SQLite tables are maps and every statement or transaction is one atomic step. Calls into libraries (URL, Date, Number,
npub and token decoding) are arbitrary functions collected in `Json.Library`, so every result holds for all of them.

| file | models |
|---|---|
| OutboxTable.dfy, OutboxRows.dfy | the publication table: claim, accept, fail, defer, migrate, pending; what each does to each row |
| OutboxProtocol.dfy, OutboxRecovery.dfy, Paths.dfy | publishers, recovery passes and Tower, interleaved with lost replies and restarts; one recovery pass over the rows |
| Commentary.dfy, CommentaryScan.dfy, FairRetry.dfy | commentary sources and the scans that publish from them; one scan; recovery passes over them |
| Lease.dfy, LeaseTrace.dfy, ActivityPublisher.dfy | one heartbeat against any replies; whole runs of heartbeats and publishes; the publisher class that runs them |
| BeatAnswers.dfy, PublisherStory.dfy | a heartbeat told by its exchanges alone; the life of a publisher told by what happened before each publication |
| HealthOutbox.dfy, HealthDrain.dfy | the session-health outbox and its concurrent drains; one drain row by row |
| Json.dfy, AgentConnect.dfy, AccessGrant.dfy, GrantImport.dfy | from a signed grant event to the imported identities |
| GrantReading.dfy, PackageReading.dfy | which events and packages are read how, told by tags and fields |
| TowerVerify.dfy, GrantProcess.dfy | asking Tower about a grant or a revocation; processing events that overlap |
| TowerAnswers.dfy, GrantOutcomes.dfy | what each answer of Tower and each call for an event come to, told by fields, statuses and signers |
| GrantSchedule.dfy, GrantWitness.dfy | the calls for one event on any schedule; an event that decodes and passes every check, and what becomes of it |
| InboxOrigins.dfy, InboxRetraction.dfy | the origin log: turns, retractions, snapshots at dispatch; what a retraction undoes |
| ProfileStore.dfy, ProfileDefaults.dfy | profiles and their default bindings; how long a chosen default lasts |
| PublisherRepair.dfy, RepairSteps.dfy | the publisher-key repair command; its plan, where it stops and what it leaves |
| FipsText.dfy, FipsConfig.dfy, FipsBootstrap.dfy, FipsIdempotence.dfy, FipsScalars.dfy | the FIPS bootstrap insertion and the readers of its result |
| FipsPaths.dfy, FipsInsertion.dfy, FipsPatterns.dfy | which line a path of keys names; where the inserted peer goes and what its text is; what the two pattern searches look for |
| TextEdits.dfy, BrokerPacer.dfy | right-to-left text edits; the pacing of broker calls |

## What turned out not to hold as it stands

- Outbox convergence holds exactly when no migrated-away event key is ever claimed again
  (`OutboxProtocol.ConvergenceExactlyUnderDiscipline`), and commentary is lost in no run exactly when no commentary key
  equals a legacy key (`Commentary.NothingLostExactly`). The publisher's own key formats satisfy both as long as a
  session id does not begin, up to its first colon, like a creation time (`OutboxProtocol.PublisherKeysDisciplined`,
  `Commentary.NamesApartSuffices`).
- Every renewal of every run of heartbeats and publishes carries a sequence above all that was adopted in its epoch
  before it exactly when no adopted epoch returns after another one took its place (`LeaseTrace.RunsRiseExactly`).
- Session health is delivered in the order of saving, in every run of processes with given generations, exactly when no
  process has an earlier generation than one before it (`HealthOutbox.OrderKeptExactly`). The generation is the clock
  at start-up (src/agent-chat/agent-direct-lifecycle-controller.ts:15), so a clock that is set back can break it. A
  single run is in order at every moment exactly when each save finds no accepted row of a later generation and each
  delivery finds all earlier rows accepted (`HealthOutbox.RunInOrderExactly`).
- In a version 5 package that is silent on the workspace service, the imported workspace service equals the grant's
  exactly when the grant states it as non-empty text without surrounding white space
  (`GrantImport.WorkspaceServiceKeptExactly`); a signed event that pads it passes every check and is imported with
  another one (`GrantWitness.PaddedServiceIsImportedDifferently`).
- While Tower confirms access, it also confirms a revocation exactly when only a listing names the workspace and the
  `/me` endpoint of the grant's workspace id denies it (`TowerVerify.BothConfirmedExactly`); such a Tower exists for a
  grant that a signed event decodes to (`GrantWitness.SplitTowerConfirmsBoth`).
- Whatever the schedule of the calls for one importable event, some answers of Tower and the manager import it twice
  exactly when one of its calls starts while another one has not stopped (`GrantSchedule.ImportableTwiceExactly`); the
  live subscription does start calls without waiting (src/nostr/access-grant-listener.ts:109-111). Among all runs that
  leave no call for a dedupe key in flight, whatever other calls do, a key is imported twice exactly in those in which
  two calls that will import under it are in flight together (`GrantProcess.ImportedTwiceExactly`); that happens to
  events that decode and pass every check (`GrantWitness.SomeEventImportedTwice`).
- An import whose follow-up synchronisation fails is reported as failed but never tried again; every other failure is
  tried again by a later call, until the access the event announces has expired
  (`GrantProcess.RetriedExactlyWhenNotImported`).
- Bootstrap insertion is idempotent exactly when the edited line is `peers: []`, or ends with a newline, or what follows
  it is an active entry once it starts on a new line; the validator accepts the result exactly in the first two cases or
  when it accepts what follows on its own (`FipsIdempotence.IdempotentExactly`, `FipsIdempotence.AuthenticatedExactly`).
  An unterminated final `peers:` breaks both (`FipsIdempotence.UnterminatedPeersIsBroken`).
- Retracting a turn undoes it in every session and run history, whatever happened in between
  (`InboxRetraction.RetractionUndoesTurn`). Worker histories are as if the turn had never been recorded at every moment of
  the run exactly when no dispatch of the run was for a worker without rows and saw the turn: from the turn's own session, never dispatched itself, with no newer turn of the
  subscription standing and the one before it, if any, naming another notification
  (`InboxRetraction.WorkersUndoneExactly`, `InboxRetraction.SeesTurnExactly`).
- docs/handoffs/2026-09-08-agent-activity-reliability.md lets Tower take a late comment after the end of an activity;
  the protocol model allows that answer as well, and convergence does not depend on it.

## Model

| member | source | states |
|---|---|---|
| OutboxTable.OutboxRunInvariant | src/agent-chat/agent-activity-publication-store.ts:62-169 | over every run of claims, renames, failures, deferrals and acceptances with any bases: sequences are distinct per activity, a row keeps its sequence, a new row exceeds all earlier ones, payloads carry their row's sequence, accepted is absorbing |
| OutboxTable.StepKeepsTableOk | src/agent-chat/agent-activity-publication-store.ts:102-169 | one statement keeps sequences distinct and payloads in step with their rows |
| OutboxTable.StepEvolves | src/agent-chat/agent-activity-publication-store.ts:62-169 | one statement loses no row and gives a new row a sequence above all its activity had |
| OutboxTable.EvolvesTransitive | src/agent-chat/agent-activity-publication-store.ts:116-136 | a row that was newer than all before it stays so through any later growth of the table |
| OutboxTable.ReplayedRowsAreDurable | src/agent-chat/agent-activity-publication-store.ts:108-114 | whatever is offered for replay carries its row's sequence, is no heartbeat, and is never an older row in disguise |
| OutboxTable.BackoffDoubles | src/agent-chat/agent-activity-publication-store.ts:143-159 | retry delays start at the base and double until the cap |
| OutboxRows.ClaimExactly | src/agent-chat/agent-activity-publication-store.ts:116-136 | a claim of an accepted event changes nothing; any other leaves one row emitted, new with the next sequence or the same with one attempt more, and all others alone |
| OutboxRows.MarkExactly | src/agent-chat/agent-activity-publication-store.ts:161-169 | acceptance and failure, row by row: acceptance is for good, failure leaves it alone, neither makes a row |
| OutboxRows.DeferExactly | src/agent-chat/agent-activity-publication-store.ts:143-159 | attempts and due time after a deferral, with sixteen doublings at most |
| OutboxRows.DelaysExactly | src/agent-chat/agent-activity-publication-store.ts:143-159 | with the store's own limits, the waiting time after any number of attempts |
| OutboxRows.MigrateExactly | src/agent-chat/agent-activity-publication-store.ts:62-66 | a rename moves one row as it is, to a free key only |
| OutboxRows.OfferedExactly | src/agent-chat/agent-activity-publication-store.ts:108-114 | a row is offered for replay if and only if it is not accepted, has a payload, is due, and its event does not start with `heartbeat:` in letters of any case |
| OutboxTable.PublicationStore.MaxSequence | src/agent-chat/agent-activity-publication-store.ts:116-136 | the scan finds the greatest stored sequence of the activity, floored at the base |
| OutboxTable.PublicationStore.Claim | src/agent-chat/agent-activity-publication-store.ts:116-136 | the claim transaction's answer and new table, and that a fresh claim's row holds the answered sequence |
| OutboxTable.PublicationStore.MarkAccepted | src/agent-chat/agent-activity-publication-store.ts:161-164 | the new table; a missing row is left missing |
| OutboxTable.PublicationStore.MarkFailed | src/agent-chat/agent-activity-publication-store.ts:166-169 | the new table; an accepted row stays accepted |
| OutboxTable.PublicationStore.DeferAfterFailure | src/agent-chat/agent-activity-publication-store.ts:143-159 | the new due time and attempt count, and the due time it returns |
| OutboxTable.PublicationStore.MigrateLegacyCommentary | src/agent-chat/agent-activity-publication-store.ts:62-66 | the row under the legacy key takes the new key unless that is taken |
| OutboxTable.PublicationStore.HasPending | src/agent-chat/agent-activity-publication-store.ts:57-60 | the scan answers whether the activity has a row that is neither accepted nor a heartbeat, with or without a payload |
| OutboxTable.PendingStays | src/agent-chat/agent-activity-publication-store.ts:57-169 | what waits keeps waiting through any statements until a row of its activity is accepted, as long as renames do not go to heartbeat keys |
| OutboxTable.PendingIsClaimed | src/agent-chat/agent-activity-publication-store.ts:57-169 | an activity starts to wait only when one of its events that is no heartbeat is claimed, as long as renames do not come from heartbeat keys |
| OutboxTable.OfferedWhileWaiting | src/agent-chat/agent-activity-publication-store.ts:57-114 | for rows that have payloads, an activity waits exactly if some row of it is offered for replay at some time |
| OutboxTable.PublicationStore.Pending | src/agent-chat/agent-activity-publication-store.ts:108-114 | due rows with payloads, no heartbeats, by sequence, at most the limit, none left out that precedes one listed |
| OutboxRecovery.RecoverRows | src/agent-chat/agent-activity-recovery.ts:55-77 | the loop over pending rows: which rows one pass tries, and the table it leaves |
| OutboxRecovery.PassExactly | src/agent-chat/agent-activity-recovery.ts:55-77 | row by row: what converged is accepted, what failed waits for its next due time, what has no identity and every other row is untouched, and no due row that was left out precedes one that was tried |
| OutboxRecovery.PassIsAPath | src/agent-chat/agent-activity-recovery.ts:55-77 | a pass taken as a whole is a path of protocol steps, so convergence covers it |
| OutboxProtocol.RunsConverge | src/agent-chat/agent-activity-recovery.ts:55-77 | in every interleaving of publishers, recovery passes, lost replies, renames and restarts, rows marked accepted are covered by Tower, if keys are disciplined |
| OutboxProtocol.ReclaimingDiverges | src/agent-chat/agent-activity-publisher.ts:436-446 | a key that is renamed away and claimed again lets a run mark an uncovered row accepted |
| OutboxProtocol.ConvergenceExactlyUnderDiscipline | src/agent-chat/agent-activity-publisher.ts:327-390 | all runs converge if and only if no renamed-away key is claimed again |
| OutboxProtocol.PublisherKeysDisciplined | src/agent-chat/agent-activity-publisher.ts:266 | the key formats the publisher builds meet that condition when session ids do not begin like timestamps |
| OutboxProtocol.CommentaryIsNotLegacy | src/agent-chat/agent-activity-publisher.ts:436-446 | a commentary key never equals a legacy one under that condition |
| OutboxProtocol.TracksKeptByRename | src/agent-chat/agent-activity-publication-store.ts:62-66 | a rename never hands a waiting worker's key to a row with another sequence |
| OutboxProtocol.InvKept | src/agent-chat/agent-activity-recovery.ts:55-77 | every protocol step keeps the invariant behind convergence |
| Commentary.NoCommentaryLost | src/agent-chat/agent-activity-publisher.ts:423-446 | in every interleaving a source no longer pending was read to its end in its latest generation and each of its activities of the turn has its outbox row, if commentary keys and legacy keys are apart |
| Commentary.NothingLostExactly | src/agent-chat/agent-activity-publisher.ts:423-446 | that holds in all interleavings if and only if no commentary key of a session equals a legacy key of an instant |
| Commentary.NamesApartSuffices | src/agent-chat/agent-activity-publisher.ts:436-446 | which is so when no session id begins like a creation time |
| Commentary.RunKeepsInv | src/agent-chat/agent-activity-publication-store.ts:80-100 | the invariant behind it, over saves, reads, publishes, finishes and touches |
| Commentary.CommentaryRowsStay | src/agent-chat/agent-activity-publication-store.ts:62-66 | no statement removes a commentary row under its new key |
| CommentaryScan.EntryExactly | src/agent-chat/agent-activity-publisher.ts:436-446 | row by row: an entry of the turn gets its row under its new key, the one there or the moved legacy row or a new one, and an older entry does nothing |
| CommentaryScan.ScanIsAPath | src/agent-chat/agent-activity-publisher.ts:423-446 | a scan that nothing interleaves with saves the next generation, publishes every entry and ends the waiting, and is a path of the interleaved steps |
| CommentaryScan.SaveExactly | src/agent-chat/agent-activity-publication-store.ts:80-86 | the saved source in full, and no other |
| CommentaryScan.FinishExactly | src/agent-chat/agent-activity-publication-store.ts:88-90 | the waiting ends if the generation is still the one that was read; nothing else changes |
| Commentary.CommentarySources.Save | src/agent-chat/agent-activity-publication-store.ts:80-86 | a save raises the generation above every earlier one of the activity |
| Commentary.CommentarySources.Finish | src/agent-chat/agent-activity-publication-store.ts:88-90 | only the generation that was read is finished |
| FairRetry.EverySourceAttempted | src/agent-chat/agent-activity-recovery.ts:41-54 | each of n pending sources is attempted within any ceil(n/limit) consecutive passes, however ties fall |
| FairRetry.WindowProgress | src/agent-chat/agent-activity-publication-store.ts:96-100 | how many sources are still waiting after k passes, exactly |
| FairRetry.PassProgress | src/agent-chat/agent-activity-publication-store.ts:96-100 | one pass attempts all that are left or exactly the limit of them |
| FairRetry.PassExactly | src/agent-chat/agent-activity-recovery.ts:41-42 | a pass stamps each source it chose with its own time and changes nothing else |
| FairRetry.Recovery.PendingSources | src/agent-chat/agent-activity-publication-store.ts:96-100 | the least recently attempted pending sources, in that order, at most the limit |
| FairRetry.Recovery.RecoverSources | src/agent-chat/agent-activity-recovery.ts:37-54 | one pass touches exactly its selection; a pass already running makes it a no-op |
| Lease.BeatIsShort | src/agent-chat/agent-activity-publisher.ts:186-252 | whatever Tower answers or loses, a beat sends at most ten lease requests |
| Lease.TenRequestsReached | src/agent-chat/agent-activity-publisher.ts:186-252 | some answers do make it send ten |
| LeaseTrace.NoneAbove | src/agent-chat/agent-activity-publisher.ts:135-144 | while no adopted epoch returns, the lease has at least every sequence adopted in its epoch |
| LeaseTrace.RunRenewsAboveAdopted | src/agent-chat/agent-activity-publisher.ts:135-252 | in every run of beats and publishes of one publisher whose adopted epochs do not return, each renewal sent carries a sequence above every one adopted in its epoch before it |
| LeaseTrace.RunsRiseExactly | src/agent-chat/agent-activity-publisher.ts:135-252 | for every sequence of usable epochs: all runs that adopt leases of these epochs renew above what they adopted if and only if no epoch returns |
| LeaseTrace.ReturnRepeats | src/agent-chat/agent-activity-publisher.ts:135-205 | every return of an epoch has a run that renews at a sequence already adopted there |
| LeaseTrace.RunFollows | src/agent-chat/agent-activity-publisher.ts:186-252 | each renewal has the epoch of the lease adopted last before it and a greater sequence |
| LeaseTrace.BeatTells | src/agent-chat/agent-activity-publisher.ts:186-252 | the record of a beat holds exactly its renewals, in order, and adopts to the lease it ends with |
| Lease.AtMostOneStale | src/agent-chat/agent-activity-publisher.ts:213-230 | without rivals or losses, once a stale answer is adopted no later one is stale |
| Lease.NoStaleAfterStale | src/agent-chat/agent-activity-publisher.ts:213-230 | a beat then meets at most one stale answer |
| Lease.RenewedInTwo | src/agent-chat/agent-activity-publisher.ts:186-234 | a live lease is renewed within two requests from any local state |
| ActivityPublisher.Publisher.AdoptLease | src/agent-chat/agent-activity-publisher.ts:135-144 | the lease after one reported row, and the record of renewals and adoptions |
| ActivityPublisher.Publisher.RenewsAboveAdopted | src/agent-chat/agent-activity-publisher.ts:135-252 | the record any publisher object has kept over all its calls: renewals are above what was adopted in their epoch, if no epoch returned |
| ActivityPublisher.Publisher.Deliver | src/agent-chat/agent-activity-publisher.ts:327-361 | whether one of two attempts gets through, how many are made, and what the answer that counts teaches about lease and lease capability |
| ActivityPublisher.Publisher.PublishNow | src/agent-chat/agent-activity-publisher.ts:254-396 | when nothing is published, and otherwise the table, flags, sequence, lease and lease capability that a claim and two attempts leave |
| ActivityPublisher.Publisher.LeaseCall | src/agent-chat/agent-activity-publisher.ts:146-184 | one call with its single retry, as the specification has it |
| ActivityPublisher.Publisher.ResumeLease | src/agent-chat/agent-activity-publisher.ts:236-252 | challenge and resume after expiry, as the specification has it, and what is adopted |
| ActivityPublisher.Publisher.JudgeReply | src/agent-chat/agent-activity-publisher.ts:204-230 | the verdict on an answer and what it teaches about the lease |
| ActivityPublisher.Publisher.RunRound | src/agent-chat/agent-activity-publisher.ts:193-232 | one round equals the specification's round |
| ActivityPublisher.Publisher.RunRounds | src/agent-chat/agent-activity-publisher.ts:193-234 | the loop over rounds equals the specification's |
| ActivityPublisher.Publisher.RunBeat | src/agent-chat/agent-activity-publisher.ts:186-234 | the lease requests of a beat equal the specification's, stay within ten, and extend the record by exactly its renewals and adoptions |
| ActivityPublisher.Publisher.Heartbeat | src/agent-chat/agent-activity-publisher.ts:186-211 | the whole beat: after a Legacy outcome an ordinary heartbeat row is published and its answer learnt from, after any other nothing is published |
| ActivityPublisher.PublishNowIsAPath | src/agent-chat/agent-activity-publisher.ts:254-396 | a publish taken as a whole is a path of protocol steps, so convergence covers it |
| PublisherStory.PublishExactly | src/agent-chat/agent-activity-publisher.ts:254-396 | over the life of a publisher, from its creation and whatever others do to the table in between: a publication is left out if and only if the activity has ended for it and it has no source, or it repeats the last working body that reached Tower, or it ends a turn that the publisher does not own and that has no row waiting; a publication left out changes nothing, every other one leaves its row, accepted exactly if it was before or an attempt reached Tower |
| PublisherStory.FlagsTell | src/agent-chat/agent-activity-publisher.ts:262-396 | what has ended, been established and been said last, told by the moments before and never by the flags, is what the flags hold |
| PublisherStory.OwnedEndIsPublished | src/agent-chat/agent-activity-publisher.ts:258-266 | the owner of an activity that has not ended leaves a row for the end of its turn, under state name, colon and body |
| PublisherStory.StrangerDoesNotEnd | src/agent-chat/agent-activity-publisher.ts:261-265 | without owning the activity and without a row waiting, an end changes neither table nor flags |
| PublisherStory.EndIsFinal | src/agent-chat/agent-activity-publisher.ts:187-256 | once an end has reached Tower or Tower has said in a heartbeat that the activity has ended, publications without a source change nothing and heartbeats send nothing and answer terminal |
| PublisherStory.RepetitionIsSilent | src/agent-chat/agent-activity-publisher.ts:258-259 | a working body without a source that was said last is not said again |
| PublisherStory.ProgressIsPublished | src/agent-chat/agent-activity-publisher.ts:254-396 | every other publication that ends no turn leaves its row |
| PublisherStory.PublishTeaches | src/agent-chat/agent-activity-publisher.ts:327-361 | the lease that the first answer to arrive reports is adopted and its contract version settles lease capability; nothing else teaches anything |
| PublisherStory.HeartbeatExactly | src/agent-chat/agent-activity-publisher.ts:186-211 | over that life: a heartbeat sends nothing exactly after the end or when Tower is known to have no lease route, and falls back to an ordinary row exactly in the latter case or when it is told so now |
| BeatAnswers.OutcomeExactly | src/agent-chat/agent-activity-publisher.ts:186-252 | the outcome of a heartbeat is what its last exchange says, by status and code |
| BeatAnswers.TerminalExactly | src/agent-chat/agent-activity-publisher.ts:213-217 | a publisher learns in a heartbeat that its activity has ended if and only if the last exchange is a renewal answered with the terminal code and a status that is not handled before |
| BeatAnswers.NothingAfterEnd | src/agent-chat/agent-activity-publisher.ts:187 | every heartbeat after one that learnt this has an empty log and the terminal outcome |
| BeatAnswers.CapableExactly | src/agent-chat/agent-activity-publisher.ts:198-213 | what a heartbeat leaves known of lease routes, told by the answers that are taken in |
| BeatAnswers.RequestsExactly | src/agent-chat/agent-activity-publisher.ts:146-252 | which request follows which, with which epoch and sequence, and that a heartbeat goes on exactly as long as its answers ask for more, for three renewals at most |
| Lease.AdoptExactly | src/agent-chat/agent-activity-publisher.ts:135-144 | a reported lease counts if both numbers are safe integers; within an epoch the greater sequence stays |
| HealthOutbox.AcceptedInSavedOrder | src/agent-chat/agent-direct-lifecycle-controller.ts:268-296 | in every interleaving of drains, failures and restarts with generations that never fall, a session's accepted rows are a prefix of its saved rows |
| HealthOutbox.RunKeepsInv | src/agent-chat/agent-direct-lifecycle-controller.ts:268-296 | the invariant over drains in flight behind it |
| HealthOutbox.OrderKeptExactly | src/agent-chat/agent-direct-lifecycle-controller.ts:15-296 | for every sequence of process generations: all runs of such processes, one after the other, deliver in the order of saving if and only if the generations never fall |
| HealthOutbox.RunInOrderExactly | src/agent-chat/agent-direct-lifecycle-controller.ts:51-296 | a run is in order at every moment if and only if each save finds no accepted row of a later generation and each delivery finds all rows before its own accepted |
| HealthOutbox.StepKeepsOrderExactly | src/agent-chat/agent-direct-lifecycle-controller.ts:51-296 | the same for one step, whatever the drains in flight |
| HealthOutbox.FallingGenerationBreaksOrder | src/agent-chat/agent-direct-lifecycle-controller.ts:15-296 | wherever a sequence of generations falls, some run of processes with exactly these generations delivers a row before an earlier one |
| HealthOutbox.HealthStore.NextSequence | src/agent-chat/agent-direct-lifecycle-controller.ts:77-81 | one above the greatest sequence of the generation |
| HealthOutbox.HealthStore.Pending | src/agent-chat/agent-direct-lifecycle-controller.ts:71-75 | exactly the rows not accepted, by generation and sequence |
| HealthOutbox.HealthStore.Save | src/agent-chat/agent-direct-lifecycle-controller.ts:51-57 | the new table after a save |
| HealthOutbox.LifecycleController.PublishHealth | src/agent-chat/agent-direct-lifecycle-controller.ts:268-296 | saves a last row, then accepts the pending ones in order up to the first failure and no further |
| HealthDrain.RunCounts | src/agent-chat/agent-direct-lifecycle-controller.ts:77-81 | in every interleaving, the sequences of a session and generation are 1, 2, 3 and so on, none used twice or left out |
| HealthDrain.DrainLeaves | src/agent-chat/agent-direct-lifecycle-controller.ts:268-296 | after one drain the session's unaccepted rows are those it did not get to, all later than what it delivered; other sessions' rows are as they were |
| HealthDrain.DrainIsAPath | src/agent-chat/agent-direct-lifecycle-controller.ts:268-296 | a publication taken as a whole is a path of the interleaved steps, so the results on order cover it |
| AgentConnect.ParsedHasNoCredentials | src/agent-chat/pg-workspace-descriptor.ts:51-88 | a descriptor that parses has no path through nested objects that ends in a refused name |
| AgentConnect.CredentialsExactly | src/agent-chat/pg-workspace-descriptor.ts:26-49 | the recursive search finds a credential field if and only if there is such a path |
| AccessGrant.ParsingKeepsTheRest | src/access-grants/sbip0009.ts:259-317 | parsing changes no field but those it normalises or fills in |
| AccessGrant.ParsingKeepsWhatIsStated | src/access-grants/sbip0009.ts:306-316 | a recipient or issuer given as an object, and every field of the app but a missing npub, stay as signed |
| AccessGrant.CheckEnvelope | src/access-grants/sbip0009.ts:332-358 | passing means the right event kind, a valid signature by a well-formed, named signer, and a tagged recipient that is the reader |
| AccessGrant.NormalisingIsStable | src/access-grants/sbip0009.ts:239-257 | action and status, once normalised, normalise to themselves |
| GrantReading.TextExactly | src/access-grants/sbip0009.ts:206-208 | a value says a text exactly if it is that text with white space around it |
| GrantReading.TaggedExactly | src/access-grants/sbip0009.ts:157-171 | the key an event is tagged for is that of its first marked p tag, or without one of its first p tag |
| GrantReading.EnvelopeExactly | src/access-grants/sbip0009.ts:332-358 | the checks before decryption pass if and only if kind, signature, signer and the tagged key, of the first marked p tag or else the first one, are right |
| GrantReading.EnvelopeRefusals | src/access-grants/sbip0009.ts:332-358 | which code answers which of them, in order |
| GrantReading.ParsesExactly | src/access-grants/sbip0009.ts:259-317 | a decrypted text is a payload if and only if its kind, protocol, namespace, app, parties, time, service, workspace and, for a grant, package are there |
| GrantReading.ParseRefusals | src/access-grants/sbip0009.ts:259-317 | every other one is refused as an invalid payload, or as an invalid grant if its app key cannot be read at all |
| GrantReading.FillsExactly | src/access-grants/sbip0009.ts:239-317 | what parsing makes of action, status, package, grant id, parties and app |
| GrantReading.TagsExactly | src/access-grants/sbip0009.ts:360-402 | the cross-checks pass if and only if no tag contradicts the payload, the signer is its issuer and the reader its recipient |
| GrantReading.GrantReads | src/access-grants/sbip0009.ts:396-430 | every field of the decoded grant, told by the payload and the grant tag |
| GrantReading.DecodesExactly | src/access-grants/sbip0009.ts:332-430 | an addressed event with a sealed payload decodes if and only if the payload is one, its tags fit, a stated key is the one its identities make, and an announcement has not expired |
| GrantReading.DecodeContinues | src/access-grants/sbip0009.ts:360-430 | and is otherwise refused as a mismatch or as stale, in that order |
| GrantReading.OthersDoNotDecode | src/access-grants/sbip0009.ts:332-372 | an event that is not addressed, cannot be decrypted or is no JSON is refused with the code for it |
| PackageReading.MatchesV5Exactly | src/access-grants/sbip0009.ts:446-499 | a package of version 5 matches a grant if and only if it and its connection token name the grant's backend, Tower, owner, app and, where they name them, workspace, workspace service and namespace |
| PackageReading.MatchesV6Exactly | src/access-grants/sbip0009.ts:461-478 | one of version 6 does if and only if it and its workspace descriptor do |
| PackageReading.ScopedExactly | src/access-grants/sbip0009.ts:501-545 | every field of the rescoped package and of its parts: the grant's identities, its own values where it gives them, and the package's everywhere else |
| PackageReading.ValidatesExactly | src/agent-chat/agent-connect-import.ts:101-230 | a package is imported as its version says, field by field, if and only if it is complete and its token or descriptor agrees with it |
| PackageReading.DescriptorExactly | src/agent-chat/pg-workspace-descriptor.ts:51-88 | a descriptor parses to what its locator says in either spelling, if and only if it is complete, has a usable address and no credential path |
| GrantImport.ParsedIsComplete | src/access-grants/sbip0009.ts:259-317 | a parsed payload names issuer, recipient, service, workspace, owner and app, has a known action, and a package when it grants |
| GrantImport.DecodedSaysWhatPayloadSays | src/access-grants/sbip0009.ts:332-430 | whatever tags an event carries, every identity of the decoded grant is the signed payload's, the issuer is the signer, the recipient is the reader, and the dedupe key is derived from them |
| GrantImport.ImportedIsVerified | src/access-grants/sbip0009.ts:461-545 | a matching grant whose rescoped package validates, in version 5 or 6, is imported with the grant's owner, Tower service, app, backend URL and workspace id (or none), and in version 6 its workspace service |
| GrantImport.ImportedV5 | src/access-grants/sbip0009.ts:480-545 | the version 5 half |
| GrantImport.ImportedV6 | src/access-grants/sbip0009.ts:461-478 | the version 6 half |
| GrantImport.WorkspaceServiceKeptExactly | src/access-grants/sbip0009.ts:486 | the imported workspace service equals the grant's if and only if the grant states it as trimmed text |
| GrantWitness.PaddedServiceIsImportedDifferently | src/access-grants/sbip0009.ts:332-545 | a signed event whose payload pads its workspace service: it decodes, its package matches and validates, and the imported workspace service is another text |
| GrantWitness.EventPasses | src/access-grants/sbip0009.ts:332-545 | some signed event decodes, and its package matches and validates after rescoping |
| GrantWitness.PaddedTexts | src/access-grants/sbip0009.ts:501-545 | there are texts these witnesses can be built from |
| GrantImport.ImportedIsSigned | src/access-grants/sbip0009.ts:332-545 | from signed event to import: the imported identities are those of the decrypted payload |
| TowerVerify.VerifyAccess | src/access-grants/sbip0009.ts:760-827 | the request sequence of access verification equals its specification, for every combination of answers |
| TowerVerify.VerifyRevocation | src/access-grants/sbip0009.ts:829-1046 | so does the revocation verifier, with its accumulators |
| TowerAnswers.AccessExactly | src/access-grants/sbip0009.ts:610-638 | access is given by this payload if and only if the verify endpoint, or where that is lacking the grant's me_url, answers 2xx with one of the five marks for a body that fits the grant, or, where both say nothing, a listing is the first to list it |
| TowerAnswers.IdentityExactly | src/access-grants/sbip0009.ts:640-711 | a body passes the identity check if and only if every text in it about tower, workspace service, owner, workspace, app and recipient is the grant's |
| TowerAnswers.UnmarkedGivesNone | src/access-grants/sbip0009.ts:610-793 | a 2xx verify answer without any of the five marks gives no access |
| TowerAnswers.MarkedGivesAccess | src/access-grants/sbip0009.ts:610-620 | any one of the marks added to a body that fits makes it give access |
| TowerAnswers.MarksRead | src/access-grants/sbip0009.ts:713-743 | what a body confirms is told by its deletion marks and texts first and its loss marks and texts second |
| TowerAnswers.LossMarkRevokes | src/access-grants/sbip0009.ts:728-878 | a 2xx verify answer that denies access by a mark gives no access and confirms a revocation of membership |
| TowerAnswers.VerifyDecides | src/access-grants/sbip0009.ts:829-908 | what each verify answer makes of a revocation, by status and body |
| TowerAnswers.MeDecides | src/access-grants/sbip0009.ts:909-1003 | where verify is lacking, what the first me answer that does not leave it open makes of it |
| TowerAnswers.ListingsDecide | src/access-grants/sbip0009.ts:1004-1046 | and where all leave it open, what the listings make of it |
| TowerVerify.AnswerVouchesForOneIdentity | src/access-grants/sbip0009.ts:610-711 | an answer that names tower, workspace service, owner and recipient allows access for one such combination only |
| TowerVerify.DeletionMarkDecides | src/access-grants/sbip0009.ts:713-727 | an answer that marks deletion confirms deletion, whatever else it says |
| TowerVerify.MembershipMarkConfirms | src/access-grants/sbip0009.ts:728-743 | an answer that marks lost membership confirms that, unless it confirms deletion anyway |
| TowerVerify.OtherFieldsConfirmNothing | src/access-grants/sbip0009.ts:713-743 | no other field changes what an answer confirms |
| TowerVerify.DirectAccessIsActive | src/access-grants/sbip0009.ts:760-827 | access confirmed by the verify endpoint or the grant's me_url is access_active for the revocation, with the same payload |
| TowerVerify.ListedAccess | src/access-grants/sbip0009.ts:955-1046 | access confirmed by a listing is access_active without a workspace id; with one, exactly unless that workspace's /me denies |
| TowerVerify.BothConfirmedExactly | src/access-grants/sbip0009.ts:829-1046 | access and revocation are both confirmed if and only if that happens |
| GrantWitness.SplitTowerConfirmsBoth | src/access-grants/sbip0009.ts:955-1046 | a Tower that confirms both access and revocation of a grant that a signed event decodes to |
| TowerVerify.SilenceConfirmsNothing | src/access-grants/sbip0009.ts:829-1046 | a Tower that only fails confirms neither access nor revocation |
| GrantProcess.DedupeKeyIsInjective | src/access-grants/sbip0009.ts:319-326 | two identity quadruples without colons never share a dedupe key |
| GrantProcess.ColonsCollide | src/access-grants/sbip0009.ts:319-326 | with colons they can |
| GrantProcess.ImportAndRevocationKeysDiffer | src/access-grants/sbip0009.ts:1048-1195 | an import and a revocation never claim the same processed key |
| GrantProcess.CompletedImportWasChecked | src/access-grants/sbip0009.ts:1048-1195 | a completed import passed decode, issuer, status, Tower and package checks, and its identities are the grant's |
| GrantProcess.RetriedExactlyWhenNotImported | src/access-grants/sbip0009.ts:1120-1195 | a later call for an event that got as far as importing, at whatever time: refused as stale once the announced access has expired, else tried again exactly when the import did not go through |
| GrantProcess.LaterDecoding | src/access-grants/sbip0009.ts:332-430 | an event that decodes decodes to the same grant at any other time, unless it is a grant that has expired by then |
| GrantProcess.DecodingIgnoresTime | src/access-grants/sbip0009.ts:332-430 | an event decodes to the same grant whenever it decodes |
| GrantProcess.EachEventImportedOnce | src/access-grants/sbip0009.ts:1048-1195 | in every run of calls whatsoever: what is imported passed every check, and an event imported twice for one recipient had calls for its own key that overlapped |
| GrantProcess.KeyImportedOnce | src/access-grants/sbip0009.ts:1120-1195 | per key, whatever other calls do: a key whose own calls never overlap is imported at most once |
| GrantSchedule.ImportableTwiceExactly | src/nostr/access-grant-listener.ts:73-111 | for any schedule of calls for an importable event: there are answers of Tower and the manager that import it twice if and only if one of its calls starts while another one has not stopped |
| GrantSchedule.TwoImportsExactly | src/access-grants/sbip0009.ts:1120-1195 | the same for the bare bookkeeping of recorded key, open calls and imports |
| GrantSchedule.PlayedIsRun | src/access-grants/sbip0009.ts:1048-1195 | what a schedule plays is a run of the processor |
| GrantProcess.StepMade | src/access-grants/sbip0009.ts:1120-1195 | a step loses no import made or on its way, and only an importing call that begins before any was made adds one |
| GrantProcess.OverlapImportsTwice | src/nostr/access-grant-listener.ts:109-111 | two overlapping calls for one importable event import it twice |
| GrantWitness.SomeEventImportedTwice | src/nostr/access-grant-listener.ts:109-111 | a signed event to which that happens |
| GrantWitness.SomeCallImports | src/access-grants/sbip0009.ts:1048-1195 | some call does import: the results about completed imports apply to it |
| GrantProcess.ProcessIsBeginThenEnd | src/access-grants/sbip0009.ts:1048-1195 | a call without interleaving is its begin step followed by its end step |
| GrantProcess.GrantProcessor.Process | src/access-grants/sbip0009.ts:1048-1195 | reply and processed keys after one call, for every answer of Tower and the manager |
| GrantProcess.GrantProcessor.ProcessRevocation | src/access-grants/sbip0009.ts:1071-1118 | the revocation branch, which records its key only after every handler went through |
| GrantOutcomes.EveryImportIsAuthorized | src/access-grants/sbip0009.ts:432-444 | in every run of overlapping calls, each import is of an event whose signer its caller's check accepts or, without a check, is the manager, and which Tower gave access |
| GrantOutcomes.UntrustedIsRefused | src/access-grants/sbip0009.ts:1062-1069 | a decoded event of any other signer is answered `unauthorized_issuer` whatever Tower would say, and records nothing |
| GrantOutcomes.UntrustedLeavesNoTrace | src/access-grants/sbip0009.ts:1062-1069 | among other calls it asks nothing and changes nothing |
| GrantOutcomes.TrustedIsNotRefused | src/access-grants/sbip0009.ts:1062-1069 | a trusted signer never gets that code, unless the manager itself uses it |
| GrantOutcomes.ImportsExactly | src/access-grants/sbip0009.ts:1120-1195 | a call imports under the key of event, identities and action if and only if the grant is trusted, active, new, confirmed by Tower, matched by its package and accepted by the importer |
| GrantOutcomes.GrantReplies | src/access-grants/sbip0009.ts:1120-1195 | every reply to a trusted grant, told by what stopped it or what followed the import |
| GrantOutcomes.RevocationReplies | src/access-grants/sbip0009.ts:1071-1118 | every reply to a trusted revocation, and that it is recorded if and only if Tower confirms it and every handler goes through |
| InboxOrigins.RecordedOriginNeverChanges | src/agent-chat/agent-inbox-origins.ts:76-91 | a worker's or run's recorded origin survives every later operation |
| InboxOrigins.RowsAreWrittenOnce | src/agent-chat/agent-inbox-origins.ts:76-91 | in every run, a worker or pipeline run has one row at most |
| InboxOrigins.DispatchSnapshots | src/agent-chat/agent-inbox-origins.ts:272-278 | a first dispatch records exactly the parent's current origin |
| InboxOrigins.NoSnapshotNoOrigin | src/agent-chat/agent-inbox-origins.ts:242-250 | a worker without a snapshot acts for nothing |
| InboxOrigins.WorkersActForDeliveredTurns | src/agent-chat/agent-inbox-origins.ts:242-278 | along any chain of dispatches every worker row goes back to a bound turn some session was given |
| InboxOrigins.WorkerLineage | src/agent-chat/agent-inbox-origins.ts:263-278 | so does a worker's current origin, in the subscription asked for |
| InboxRetraction.RetractionUndoesTurn | src/agent-chat/agent-inbox-origins.ts:62-100 | recording and later retracting a turn leaves every session and run history as if it had never been recorded, whatever turns, retractions and dispatches come in between |
| InboxRetraction.WorkersUndoneExactly | src/agent-chat/agent-inbox-origins.ts:62-278 | worker histories are as if it had never been recorded at every moment of a run if and only if no dispatch of the run is affected |
| InboxRetraction.SeesTurnExactly | src/agent-chat/agent-inbox-origins.ts:242-278 | a dispatch would pass on another origin without the turn if and only if a guard holds that can be read off the log before it |
| InboxRetraction.UnaffectedRetractionUndoesAll | src/agent-chat/agent-inbox-origins.ts:62-278 | without an affected dispatch every history ends up as if the turn had never been recorded |
| InboxRetraction.TwinsAreRuns | src/agent-chat/agent-inbox-origins.ts:62-100 | the two runs compared are runs of the log, the second with row ids renamed |
| InboxRetraction.SnapshotOutlivesRetraction | src/agent-chat/agent-inbox-origins.ts:167-170 | for any turn with a notification, any session and worker: a dispatch right after it is affected, and its snapshot outlives the retraction |
| InboxOrigins.IdsStayBelowNext | src/agent-chat/agent-inbox-origins.ts:62-73 | row ids are never reused |
| InboxOrigins.OriginStore.RecordRun | src/agent-chat/agent-inbox-origins.ts:76-91 | a run's row is written once |
| InboxOrigins.OriginStore.SnapshotWorker | src/agent-chat/agent-inbox-origins.ts:272-278 | the log after a snapshot |
| InboxOrigins.OriginStore.RetractRejectedTurn | src/agent-chat/agent-inbox-origins.ts:167-170 | retracts only on proof that the prompt was never accepted |
| ProfileStore.EveryRunKeepsStoreOk | src/agent-chat/agent-definition-store.ts:149-311 | from the empty store, no bot identity belongs to two profiles and every manager with an eligible profile has a binding |
| ProfileStore.DeletedDefaultPassesToOldest | src/agent-chat/agent-definition-store.ts:286-302 | deleting the bound default makes the oldest eligible profile, by creation time then id, the default |
| ProfileStore.DeleteKeepsOtherDefaults | src/agent-chat/agent-definition-store.ts:286-302 | deleting any other profile leaves the default alone |
| ProfileStore.SaveKeepsDefaults | src/agent-chat/agent-definition-store.ts:180-261 | a save never moves an existing default |
| ProfileStore.OldestIsUnique | src/agent-chat/agent-definition-store.ts:286-302 | the oldest eligible profile is unique |
| ProfileStore.AgentDefinitionStore.SaveProfile | src/agent-chat/agent-definition-store.ts:180-261 | the new tables, and refusal exactly when the bot is bound elsewhere |
| ProfileStore.AgentDefinitionStore.SetDefaultFor | src/agent-chat/agent-definition-store.ts:161-178 | the new binding, and refusal exactly for an ineligible profile |
| ProfileDefaults.SetDefaultBinds | src/agent-chat/agent-definition-store.ts:161-178 | choosing a fit profile makes it the default and changes nothing else; choosing any other changes nothing |
| ProfileDefaults.ChoiceLasts | src/agent-chat/agent-definition-store.ts:149-311 | the choice lasts through every run whose operations do not choose another fit profile, delete this one or save it unfit |
| ProfileDefaults.DefaultLostExactly | src/agent-chat/agent-definition-store.ts:149-311 | one operation takes a default away if and only if it is one of these |
| ProfileDefaults.SaveStores | src/agent-chat/agent-definition-store.ts:180-261 | every row of both tables after a save |
| ProfileDefaults.DeleteTakesOut | src/agent-chat/agent-definition-store.ts:286-302 | a deletion takes out one profile, and no binding to another one |
| ProfileDefaults.SuccessorExactly | src/agent-chat/agent-definition-store.ts:286-302 | the next default after a deletion is the fit profile with the earliest creation time, then id |
| ProfileStore.AgentDefinitionStore.DeleteProfile | src/agent-chat/agent-definition-store.ts:286-302 | the new tables, and whether there was a profile |
| ProfileStore.AgentDefinitionStore.Oldest | src/agent-chat/agent-definition-store.ts:286-302 | the oldest eligible profile if there is one |
| PublisherRepair.CrashesKeepAgreement | clis/appctl.ts:498-579 | after any number of runs cut off anywhere, Tower's key is the current or the pending one |
| PublisherRepair.ActivatesOnlyWhatTowerHolds | clis/appctl.ts:498-579 | from any world at all, a pending key is activated only once Tower holds it |
| PublisherRepair.RerunFinishes | clis/appctl.ts:498-579 | an uninterrupted rerun ends with both sides on one key and nothing pending |
| PublisherRepair.DriftIsRefused | clis/appctl.ts:498-579 | without agreement the command refuses, and activates nothing |
| PublisherRepair.Installation.RepairPublisher | clis/appctl.ts:498-579 | world and result of one run, and that it keeps agreement |
| RepairSteps.PlanFollowed | clis/appctl.ts:498-579 | a run makes the requests its keys call for, in order, up to the first that does not work |
| RepairSteps.ResultExactly | clis/appctl.ts:498-579 | it answers with the request that stopped it, and otherwise with a missing binding, identity drift or success |
| RepairSteps.WorldExactly | clis/appctl.ts:498-579 | the keys it leaves are those that the requests made, each as far as it took effect |
| FipsBootstrap.EnsureBootstrap | scripts/ensure-fips-bootstrap.py:25-39 | the returned text and flag, for either answer of the search |
| FipsBootstrap.EditLines | scripts/ensure-fips-bootstrap.py:29-38 | the first peers line is edited and no other |
| FipsPatterns.ActiveExactly | scripts/ensure-fips-bootstrap.py:26-28 | the insertion finds an active bootstrap exactly if the text has a piece, from the start of a line to the end of one, that is a dash, white space and the peer's field with or without quotes |
| FipsPatterns.AcceptsExactly | scripts/validate-fips-config.py:34-49 | the validator accepts a text exactly if the first and longest header of the peer is followed, before the next peer, by indented lines with address and policy |
| FipsInsertion.InsertGrows | scripts/ensure-fips-bootstrap.py:16-39 | the insertion writes the whole peer, in the line's own newline style, below the first line that holds a list of peers and changes nothing else |
| FipsInsertion.InsertsExactly | scripts/ensure-fips-bootstrap.py:29-39 | it succeeds if and only if there is such a line |
| FipsIdempotence.IdempotentExactly | scripts/ensure-fips-bootstrap.py:25-39 | for any text: a second insertion changes nothing if and only if the edited line is empty peers or ends with a newline, or the text below it holds an active entry once it starts on a new line |
| FipsIdempotence.ActiveBelowAtStart | scripts/ensure-fips-bootstrap.py:26-28 | such an entry can only be right at the start of that text |
| FipsIdempotence.NewlinesIdempotentExactly | scripts/ensure-fips-bootstrap.py:25-39 | where newlines are the only line breaks, it comes down to the edited line alone |
| FipsIdempotence.FreshBlockIsActive | scripts/ensure-fips-bootstrap.py:26-28 | the forward half, for text with any line breaks |
| FipsIdempotence.FreshBlockIsAuthenticated | scripts/validate-fips-config.py:34-49 | the validator accepts the changed result when the edited line is empty peers or ends with a newline, for text with any line breaks |
| FipsIdempotence.AuthenticatedExactly | scripts/validate-fips-config.py:34-49 | for any text: the validator accepts the changed result if and only if the edited line is empty peers or ends with a newline, or it accepts the text below that line on its own |
| FipsIdempotence.NewlinesAuthenticatedExactly | scripts/validate-fips-config.py:34-49 | where newlines are the only line breaks, it comes down to the edited line alone |
| FipsIdempotence.PeerIsBlock | scripts/validate-fips-config.py:34-42 | the peer the validator finds is the inserted block, body and all |
| FipsIdempotence.NoneBeforeBlock | scripts/ensure-fips-bootstrap.py:26-28 | nothing before the block starts to match because of the edit |
| FipsIdempotence.UnterminatedPeersIsBroken | scripts/ensure-fips-bootstrap.py:35-38 | a file of one unterminated peers line: inserted, but neither stable nor accepted |
| FipsIdempotence.PinnedNpubIsNpub | scripts/ensure-fips-bootstrap.py:14 | the results apply to the pinned npub |
| FipsConfig.ScalarAtPath | scripts/validate-fips-config.py:16-31 | the indent-stack scan equals its recursive specification |
| FipsPaths.ScalarExactly | scripts/validate-fips-config.py:16-31 | the scalar at a path is that of the first line whose key, after the keys of the lines it is nested under, is that path |
| FipsPaths.EntryExactly | scripts/validate-fips-config.py:18-28 | which lines have a key, which key, and how far it is indented |
| FipsPaths.ScalarReads | scripts/validate-fips-config.py:30 | a scalar is the text before a comment without surrounding white space and quotes |
| FipsConfig.InsertedBelow | scripts/validate-fips-config.py:16-31 | rewriting a top-level key's value and adding lines below it changes no path that starts elsewhere |
| FipsScalars.OtherScalarsKept | scripts/ensure-fips-bootstrap.py:25-39 | when the edited line starts at the margin, every scalar whose path does not start with peers is unchanged, terminated or not |
| FipsText.SplitLine | scripts/ensure-fips-bootstrap.py:29 | what a split line is: no break inside it, and closed unless it is the last |
| FipsText.JoinSplit | scripts/ensure-fips-bootstrap.py:29-38 | joining the kept line ends gives the text back |
| TextEdits.ApplyEdits | scripts/build-pipeline-elk.ts:8-20 | splicing disjoint edits from right to left equals replacing all intervals at once |
| TextEdits.SpliceAll | scripts/build-pipeline-elk.ts:18-20 | the loop over the sorted edits |
| TextEdits.SortedDescends | scripts/build-pipeline-elk.ts:18 | the sort puts starts in descending order |
| BrokerPacer.ReleasesAreSpaced | scripts/isolated-test/fips-client-probe.ts:11-24 | calls n apart are released at least n intervals of 650 ms apart |
| BrokerPacer.AtMost93PerMinute | scripts/isolated-test/fips-client-probe.ts:11-24 | any 60-second window holds at most 93 releases, below 120 |
| BrokerPacer.ReleasedExactly | scripts/isolated-test/fips-client-probe.ts:11-24 | a call is released as soon as every earlier one is the interval times their distance behind it |
| BrokerPacer.Pacer.Pace | scripts/isolated-test/fips-client-probe.ts:11-24 | the wait returned leads to exactly the release time the specification gives |

## Left out

- Times, error texts and `created_at` columns of the tables; the live activity hub; logging; HTTP; timers and abort signals.
- Tower's server side and the server side of the publisher-key rotation: their rules are assumptions of the state machines.
- Fairness of `pending()` rows: rows without an available identity are neither delivered nor deferred.
- Body normalisation and the building of activity requests: a publish starts from the normalised text.
- A requested publisher-key repair step that arrives after its run has ended, in the middle of a later run.
- Publishers that run at the same time for one activity share the outbox in OutboxProtocol; their leases are followed for one publisher only.
- Timers that oversleep: the pacer's releases happen when their wait is over.
- BrokerPacer.Pacer.Pace: covers one probe process; several of them would each keep their own pace.
- ProfileStore.DeletedDefaultPassesToOldest: `localeCompare` is an arbitrary total order on text; texts that differ but compare as equal are not covered.
- A default binding that points at a profile disabled later: such a binding stays, as in the source.
- Agent Connect packages given as text (only the parsed object is modelled), and the columns of an import that are copied through: relay and documentation URLs, capabilities, the token reference.
- AgentConnect.Validate: error messages are not distinguished, since the caller reports every failure the same way.
- AccessGrant.CheckEnvelope: an npub that the library cannot decode is reported as `invalid_npub` whichever way the library fails.
- Signatures, NIP-44 decryption, SHA-256 and npub encoding are results given with the event or arbitrary functions.
- TowerVerify.BothConfirmedExactly: both verifiers are given the same answers, although the bodies they post differ in two fields.
- FipsBootstrap.EnsureBootstrap: the regular-expression engine is replaced by what its patterns mean; the file is written by code that is not modelled.
- FipsConfig.ScalarAtPath: lines keep their breaks, which stripping removes before they are looked at.
- TextEdits.ApplyEdits: finding the template literals to edit is the TypeScript parser's work.
- Menus, other command-line tools, server wiring, browser fixtures and Docker scripts.

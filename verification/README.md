# Verified model of the batch control plane

A Dafny model of the parts of the repository that decide what happens to a batch: the
pull-based lifecycle over unreliable workers, the scheduler and the submission gates that
must agree with it, the merging of worker inventories into the catalogue, usage ingestion
and its outbox, and the sequential algorithms around them. `dafny verify dfyconfig.toml`
checks everything.

## How it is laid out

| file | subject |
|---|---|
| `Lifecycle.dfy`, `HandlerEffects.dfy` | the protocol as a state machine: tables, one atomic step per handler, legal runs; and what each step does, from the tables |
| `ControlPlane.dfy` | the same handlers and the nested sweep as methods on the tables, each proved to be that step |
| `LifecycleSafety.dfy`, `LifecycleLiveness.dfy`, `FreedWork.dfy`, `Draining.dfy`, `ProgressCounters.dfy`, `Redelivery.dfy` | what every run keeps, and exactly when it does not |
| `SmallRuns.dfy` | short concrete runs from the empty tables, used to show the latter |
| `Catalogue.dfy`, `Scheduler.dfy`, `SubmissionGates.dfy` | classification, hosting, fit, the pick, the dispatched name, gates 4b to 4d |
| `Eligibility.dfy`, `PolledJobs.dfy`, `DispatchedNames.dfy` | what they come to, from rows and cards; where check and name part |
| `Reconciliation.dfy`, `InventoryTheorems.dfy`, `ReportedRows.dfy` | the inventory pass, what it keeps, and every row after it |
| `Heartbeats.dfy`, `BeatRows.dfy` | the heartbeat around it, and every row after that |
| `Slugs.dfy`, `SlugWords.dfy`, `Adoption.dfy` | naming, adoption, the auto-adopt pass |
| `FileValidator.dfy`, `AcceptedLines.dfy`, `FileFaults.dfy`, `AcceptedFiles.dfy` | the validator's pass, the lines it takes, and what it decides |
| `KeyedRows.dfy`, `UsageIngest.dfy`, `OverlappingRuns.dfy`, `Outbox.dfy` | tables with a unique key, chunked ingestion, two runs at once, its retries |
| `IdentityResolver.dfy`, `ListingWalks.dfy`, `ResolverCache.dfy` | the paginated listing and the answer caches |
| `RateLimit.dfy`, `Membership.dfy`, `MembershipRules.dfy`, `OrganizationHandlers.dfy`, `TokenWindow.dfy` | the limiter, organizations, the line clipper |

Handlers are atomic. What a handler cannot choose travels as a parameter: the clock, fresh
ids, the order of rows with equal timestamps, whether a worker is within its hours, what a
registry answers, at which commit a run dies. A rejected request leaves the state as it was.
A nullable string column holds "" for NULL where the code only tests it for truth. Stored
digests are lower case, bare or with the `sha256:` prefix. An organization's foreign key is
taken as enforced.

In `Lifecycle` a heartbeat or registration replaces what is known of a worker's runtimes by an
arbitrary value, so its theorems hold whatever `Heartbeats` computes.

## Where the code does not keep a promise

Each of these is proved, with the exact condition or on a concrete case:

- `docs/reference/api.md:355` says a crashed daemon never strands a batch. The sweep looks at silence
  only: a batch whose worker reports no end stays with it exactly until a sweep finds that worker
  silent. A daemon restarted within the timeout has forgotten its batch, registers and beats again, and
  keeps it (`scripts/gpu-daemon.service:22` restarts it after ten seconds); so does one whose failure report was lost,
  although `daemon/daemon/client.py:391-392` counts on the sweeper there. A worker handed a batch
  while it is offline, which `poll_job` does not refuse, is found silent by no sweep until it
  beats again, and one removed before that keeps the batch for good.
- A drained worker is put back to work by registering again, and one swept while draining may poll again.
- Messages carry no attempt number, so a repeated failure report can cost the next attempt,
  repeated progress can take a running batch's counters above its total, and late progress can
  raise those of a completed batch.
- The name sent with a job can belong to another runtime than the one whose capabilities were checked.
- A token count of `Infinity` escapes the per-line skip (`int` raises OverflowError), so its file
  is never ingested and the sweeper gives up after five tries.
- A second ingestion run, as a replayed upload starts one, that dies after the first has finished can
  leave older values in the table than the totals count; and of two runs that both end, the one that
  commits last may have read its sums while the other was still at work, and commits totals the table contradicts.
- A row verified through a secondary file of a pinned entry is available and linked to it, yet never
  dispatched for its own entry.
- A file in which no row names a model is accepted and then never picked, which `backend/scheduler.py:425` takes to be excluded.
- `{}` as a file's first object makes the validator raise; its batch gets no verdict.
- The early stop of the file listing does not see an adapter file on a later page.
- The share card draws no ellipsis where the clipper reports a cut, when nothing follows the last kept newline.

## Model

| member | source | states |
|---|---|---|
| `ControlPlane.Server.RequeueOrFailBatch` | backend/sweeper.py:32-63 | One lost attempt: counters zeroed and the batch listed again, or failed with all prompts counted failed once three attempts are spent; the assignment goes either way, nothing else changes. |
| `ControlPlane.Server.PollJob` | backend/routers/workers.py:367-428 | A poll is a legal step of the protocol, and its reply, said from the tables alone: refused to strangers, nothing for a draining worker or one that may take nothing, else the oldest validated batch the worker may run (any with the model in memory before all others), marked running and assigned in the same step, under a name the worker serves for that batch's entry, without a '/' if there is one. |
| `ControlPlane.Server.HandOut` | backend/routers/workers.py:396-428 | Status, assignment and name change together, exactly as the protocol's dispatch; the name is a profiled one the worker lists with compatible bytes if it lists any, else one of the pinned file, never the legacy column as a fallback. |
| `PolledJobs.PollsAreAnswered` | backend/routers/workers.py:367-428 | That answer, for every legal poll. |
| `PolledJobs.PickMeans` | backend/scheduler.py:414-443 | The scheduler's pick is the oldest waiting batch the worker may run, one with its model in memory before all others. |
| `PolledJobs.ResolvedNameMeans` | backend/scheduler.py:130-167 | The resolved name is listed by a ready runtime of the worker: profiled under compatible bytes if any is, else with exactly the pinned bytes, without a '/' unless every such name has one, and the first of these in the order of runtimes and rows. |
| `ControlPlane.Server.ReportProgress` | backend/routers/workers.py:432-462 | Counters move to the maximum of stored and reported values, only for the batch's assigned worker. |
| `ControlPlane.Server.UploadResults` | backend/routers/workers.py:492-557 | First upload stores the file and completes the batch; a replay on a completed batch returns the stored file and changes nothing. |
| `ControlPlane.Server.HandleFailureReport` | backend/routers/workers.py:574-592 | A failure report costs an attempt only when the assigned worker's batch may make that transition. |
| `ControlPlane.Server.RegisterWorker` | backend/routers/workers.py:95-192 | A known (organization, host name) keeps its row and comes online; otherwise a new row appears; batches are untouched. |
| `ControlPlane.Server.WorkerHeartbeat` | backend/routers/workers.py:201-223 | A heartbeat renews liveness and never undoes a drain. |
| `ControlPlane.Server.DrainWorker` | backend/routers/organizations.py:525-547 | Only a worker that is not offline becomes draining. |
| `ControlPlane.Server.UndrainWorker` | backend/routers/organizations.py:550-568 | Only a draining worker comes back online. |
| `ControlPlane.Server.RemoveWorkerRow` | backend/routers/organizations.py:656-690 | Only an offline worker's row is removed; its assignments stay. |
| `ControlPlane.Server.PersistResult` | backend/services/batch_validator.py:448-494 | The verdict is written without looking at the status it replaces. |
| `ControlPlane.Server.SweepStaleWorkers` | backend/sweeper.py:66-107 | The nested loops over silent workers and their assignments compute the one-step sweep: all silent workers offline, every running batch they held reclaimed once, both returned counts exact, and the coupling of the tables kept. |
| `HandlerEffects.CreatingABatch` | backend/routers/batches.py:56-89 | A new batch is validating, empty and untried, and nothing else changes. |
| `HandlerEffects.FinishingAValidation` | backend/services/batch_validator.py:448-494 | A verdict sets status, prompts and needs, and the model only when the file names one; it is dropped when the batch is gone. |
| `HandlerEffects.ReportingProgress` | backend/routers/workers.py:432-462 | Refused unless the batch is assigned to that worker of that organization; else each counter becomes the larger value and nothing else changes. |
| `HandlerEffects.UploadingResults` | backend/routers/workers.py:492-557 | The first upload on a running batch stores file and reported counts and leaves its usage to be ingested; on a completed one the stored file is returned; on any other it is refused, as it is to a worker without the assignment. |
| `HandlerEffects.ReportingFailure` | backend/routers/workers.py:574-592 | On a running batch of the worker one attempt is lost: listed again with its counters at zero, or failed with all prompts at the third; the error is kept to 2000 characters; anything else is refused. |
| `HandlerEffects.Registering` | backend/routers/workers.py:95-192 | A known host name keeps its row and comes online with what it reports; an unknown one gets a new row. |
| `HandlerEffects.Beating` | backend/routers/workers.py:201-223 | Heard now, with what it reports, and online unless draining. |
| `HandlerEffects.ReportingModelProgress` | backend/routers/workers.py:467-488 | A sign of life that does not bring an offline worker back. |
| `HandlerEffects.DrainingAndUndraining` | backend/routers/organizations.py:525-568 | Draining is refused to an offline worker, undraining to one that is not draining; nothing but the status changes. |
| `HandlerEffects.Removing` | backend/routers/organizations.py:656-690 | Only an offline worker's row goes. |
| `HandlerEffects.Sweeping` | backend/sweeper.py:66-107 | Exactly the workers not heard for more than 120 seconds go offline, and exactly the running batches assigned to them lose an attempt and their assignment. |
| `LifecycleSafety.StepMovesRows` | backend/routers/workers.py:31-47 | Every step changes every existing batch by exactly one named move, and only from a row where that move is possible. |
| `LifecycleSafety.StepKeepsInv` | backend/routers/workers.py:31-47 | One step of any handler, validation result or sweep keeps the coupling of batches, assignments, validation tasks and files. |
| `LifecycleSafety.ReachableStatesAreConsistent` | backend/routers/workers.py:366-410 | In every state any interleaving reaches: assigned exactly when running or completed; an output file exactly when completed, owned by one batch; fewer than three attempts unless failed; a batch failed by its attempts has three, none completed and all prompts failed; counters are zero before dispatch. |
| `LifecycleSafety.EveryStatusChangeIsAllowed` | backend/routers/workers.py:31-47 | Every status write of every step obeys the transition table, including the two writers that never consult it. |
| `LifecycleSafety.DispatchBalance` | backend/sweeper.py:32-63 | Over any run a batch has been handed out once per recorded attempt, plus once if it is assigned, and at most three times. |
| `LifecycleSafety.StatusChangesAreBounded` | backend/routers/workers.py:31-47 | No run changes one batch's status more than seven times. |
| `LifecycleSafety.TerminalIsForever` | backend/routers/workers.py:491-557 | Once completed or failed, a batch keeps status, file, attempts and holder under every continuation; only progress counters may still move. |
| `LifecycleSafety.ReplayedUploadChangesNothing` | backend/routers/workers.py:505-520 | A replayed upload, after any further steps, is answered with the file of the first one and stores nothing. |
| `LifecycleSafety.LateMessagesAreFenced` | backend/routers/workers.py:75-90 | A progress, upload or failure message from a worker the batch is not assigned to is refused whole. |
| `Redelivery.RunsOnMeansHandedOut` | backend/routers/workers.py:75-90 | Over any run, a batch that was not running is running on a worker if and only if the run handed it to that worker and nothing has ended that attempt. |
| `Redelivery.StaleFailureHitsTheNextAttempt` | backend/routers/workers.py:573-592 | After an accepted failure report and any legal run of further steps, the same report delivered again is refused and harmless if and only if the worker is gone or has no unended hand-out of the batch since; otherwise it costs that later attempt, whole. |
| `Redelivery.AReportDeliveredTwiceIsChargedTwice` | backend/routers/workers.py:573-592 | A legal run from the empty tables in which one report about the first attempt, delivered twice, leaves two attempts charged. |
| `LifecycleLiveness.WorkIsWatchedExactlyWithoutOfflineDispatch` | backend/routers/workers.py:376-380 | When every running batch is with an existing worker that is not offline, a step keeps that so if and only if it is not the poll of an offline worker for which the scheduler has a pick. |
| `LifecycleLiveness.NoWorkIsStranded` | backend/sweeper.py:66-107 | Over every run without such a hand-out, the worker a running batch is assigned to exists and is online or draining, so the next sweep that finds it silent will free the batch; whether it is still at work is not said. |
| `FreedWork.FreedExactlyBySilence` | backend/sweeper.py:66-107 | Over every legal run in which its worker sends no upload and no failure report about it, a running batch stays with that worker if and only if no sweep finds the worker silent: nothing else frees lost work, and a sweep that finds the worker offline already, or removed, frees nothing. |
| `FreedWork.ARestartedDaemonKeepsItsBatch` | backend/routers/workers.py:157-177 | For every n a legal run from the empty tables, handing nothing to an offline worker: the daemon takes a batch, registers again within the timeout and beats n times with a sweep after each; the batch is still running on an online worker. |
| `FreedWork.ALostFailureReportKeepsTheBatch` | daemon/daemon/client.py:385-414 | The same without the restart, when the one failure report never arrived: no number of beats and sweeps reclaims the job. |
| `Draining.DrainingTakesNothing` | backend/routers/workers.py:376-377 | A draining worker is handed nothing, so a batch it runs after a step is one it ran before. |
| `Draining.DrainEndsExactly` | backend/routers/organizations.py:525-568 | Over every legal run a drain lasts if and only if its owner does not lift it, the daemon does not register again, and no sweep finds the worker silent; while it lasts the worker runs no batch it did not run at the start. |
| `LifecycleLiveness.SweepLeavesNoSilentHolder` | backend/sweeper.py:66-107 | Unless work was stranded before, after a sweep no running batch is with a worker silent for more than 120 seconds. |
| `LifecycleLiveness.SweepReclaimsFromTheSilent` | backend/sweeper.py:66-107 | A batch held by a silent worker loses exactly one attempt and is listed again, or fails at the third. |
| `LifecycleLiveness.SweepIsIdempotent` | backend/sweeper.py:66-107 | A second sweep at the same moment changes nothing. |
| `LifecycleLiveness.StrandedForever` | backend/routers/organizations.py:656-690 | A running batch whose worker row was removed is never freed by anything that follows. |
| `LifecycleLiveness.AnOfflinePollCanStrandABatch` | backend/routers/workers.py:376-380 | A concrete legal run that ends there: a worker is swept offline, polls, is handed a batch, and its row is removed. |
| `ProgressCounters.JoinIsLeast` | backend/routers/workers.py:446-462 | Counters are the least upper bound of the start and the reports delivered. |
| `ProgressCounters.JoinIgnoresOrderAndRepetition` | backend/routers/workers.py:446-462 | Reordering and repeating reports changes nothing. |
| `ProgressCounters.CountersAreTheJoin` | backend/routers/workers.py:446-462 | Over any run in which only reports reach a batch, its counters are that join. |
| `ProgressCounters.ProgressStaysWithinTotal` | backend/routers/workers.py:446-462 | One attempt's reports, lost, repeated or reordered, show zero or one of the reports made and never more than the total. |
| `ProgressCounters.JoinFitsExactly` | backend/routers/workers.py:446-462 | The counters fit a total if and only if each completed count among start and reports fits with each failed count. |
| `ProgressCounters.RunningCountersAreTheJoin` | backend/routers/workers.py:446-462 | In every reachable state, requeues included, a running batch's counters are the join, from zero, of the reports delivered since it was handed out, whichever attempt they were made in. |
| `ProgressCounters.CountersStayWithinTotalExactly` | backend/routers/workers.py:446-462 | In every reachable state a running batch's counters stay within its total if and only if no completed and no failed count delivered since the hand-out exceed it together. |
| `ProgressCounters.MixedAttemptsCanExceedTheTotal` | backend/routers/workers.py:446-462 | A legal run from the empty tables that exceeds it with reports each within the total: a report of the first attempt is delivered again after the requeue. |
| `ProgressCounters.LateProgressMovesFinalCounters` | backend/routers/workers.py:446-462 | A report after the upload leaves the final counters alone if and only if it is not above them. |
| `Scheduler.ScanHosts` | backend/scheduler.py:66-104 | The loop answers whether some artifact is this entry's: matching bytes, or a served name with no contradicting digest. |
| `Scheduler.PinnedHostingIsDigestEquality` | backend/scheduler.py:66-104 | For a pinned entry and fully hashed rows, hosting holds if and only if some row's digest equals the pin. |
| `Scheduler.FirstHostingIsFirst` | backend/scheduler.py:284-309 | The runtime whose capabilities are checked is the first schedulable one that hosts the entry. |
| `Scheduler.ScanHostingRuntime` | backend/scheduler.py:284-309 | The loop finds that runtime. |
| `Scheduler.FindBestBatch` | backend/scheduler.py:414-443 | The pick is the first servable batch in queue order whose model is loaded, else the first servable one; none only if no batch is servable. |
| `Scheduler.BestIsUnique` | backend/scheduler.py:414-443 | That rule leaves no choice. |
| `Scheduler.ScanProfiled` | backend/scheduler.py:130-167 | The loop collects exactly the served names held under compatible bytes. |
| `Scheduler.ScanExact` | backend/scheduler.py:130-167 | The loop collects exactly the names under which the pinned bytes are held. |
| `Scheduler.ResolveRuntimeModelId` | backend/scheduler.py:130-167 | Profiled names before exact ones before the legacy column, a bare name before a path. |
| `Scheduler.ResolvedNameIsHosted` | backend/scheduler.py:130-167 | If the worker hosts the entry, the resolved name is that of an artifact hosting accepted: never the legacy fallback. |
| `Scheduler.DispatchedNameIsServed` | backend/scheduler.py:369-400 | Whenever a batch may be given to a worker, the name sent belongs to an available row of a schedulable runtime with bytes compatible with the pin. |
| `Eligibility.CanServeMeans` | backend/scheduler.py:369-400 | Eligibility, from the worker's rows and cards: within hours and size limit, the first ready runtime that lists an artifact of the entry has every capability asked for, and room. |
| `Eligibility.FitsMeans` | backend/scheduler.py:217-277 | Room: one card of known size alone holds the model, or the machine's total when no size is known; only for llamacpp spare RAM is added, which is free RAM less the larger of 4 GB and a fifth of the machine's, and zero when unknown. |
| `Eligibility.RamAndFurtherCardsDoNotMatter` | backend/scheduler.py:217-250 | For every other engine neither RAM nor a further card no larger than a known one changes any answer. |
| `Eligibility.HostingRuntimeMeans` | backend/scheduler.py:284-309 | The runtime that counts is the first ready one with an available row that is the entry's: answered to by name under compatible bytes, or the pinned bytes under any name. |
| `DispatchedNames.NamesStartAtTheCheckedRuntime` | backend/scheduler.py:130-167 | The resolver's candidates are those of the checked runtime followed by those of later ones; earlier runtimes offer none. |
| `DispatchedNames.NameIsOnTheCheckedRuntimeExactly` | backend/scheduler.py:130-167 | On every worker, mixed ones included, the name sent is served by the runtime whose capabilities were checked if and only if no runtime offers a name the resolver ranks above that runtime's best. |
| `DispatchedNames.DispatchedNameIsOnTheCheckedRuntime` | backend/scheduler.py:284-309 | In particular it is whenever only one schedulable runtime hosts the entry. |
| `DispatchedNames.DispatchedNameCanMissTheCheckedRuntime` | backend/scheduler.py:130-167 | A mixed worker on which it is not: the checked runtime has the capability, and the name sent is served by the other one only. |
| `Catalogue.PinFormsMeanEqualBare` | backend/reconciliation.py:45-62 | On stored forms the two-value SQL filter is equality of bare digests. |
| `Catalogue.BareMeans` | backend/identity_resolver.py:100-105 | The bare form is what follows the first ':', or everything. |
| `Catalogue.FirstPinnedIsPinned` | backend/reconciliation.py:45-62 | The entry found by hash pins that hash, and none is found only if none does. |
| `Reconciliation.ReadItem` | backend/reconciliation.py:209-237 | A report overwrites the evidence it carries and leaves the rest of the row. |
| `Reconciliation.WorkerRows.ReportInventory` | backend/reconciliation.py:190-252 | The loops over items and runtimes compute the pass row by row; an empty report changes nothing. |
| `Reconciliation.MarkUnseen` | backend/reconciliation.py:238-252 | Rows not named in the report become missing, unlinked and unloaded, unless they were missing already; named rows are untouched. |
| `InventoryTheorems.RowsAfterItems` | backend/reconciliation.py:190-252 | A row's state after any run of items is the classification of all evidence about it, however items interleave. |
| `InventoryTheorems.ReportedRowsAreJudged` | backend/reconciliation.py:190-252 | After a full report every row of a reported runtime is exactly its classification, or missing. |
| `ReportedRows.ClassifyMeans` | backend/reconciliation.py:82-103 | The verdict from the catalogue's rows: without a hash available; with one some entry pins or some file carries, available and linked to such an entry, pins before files; else unregistered if and only if no entry is called so, drift if and only if some is and each of them pins other bytes, and available when one of them pins nothing. |
| `ReportedRows.EveryRowAfterAReport` | backend/reconciliation.py:190-252 | Every row after a report: one it is about has the last hash and facts reported that are not empty, the last loaded flag, and that verdict; one of a reported runtime it is not about is missing, unlinked and unloaded unless missing before; every other row is unchanged. Items go to the last runtime of their tag, else the first. |
| `ReportedRows.NewAliasesAreReportedNames` | backend/reconciliation.py:130-150 | Every alias a report adds is the name of an item whose row was matched with that entry, in the first profile of its runtime's engine. |
| `InventoryTheorems.UnreportedRuntimesAreUntouched` | backend/reconciliation.py:190-252 | Runtimes the report does not mention keep every row. |
| `InventoryTheorems.InventoryKeepsRowsUnique` | backend/reconciliation.py:190-252 | (runtime, name) stays a key, even with duplicate items. |
| `InventoryTheorems.AliasesDoNotClassify` | backend/reconciliation.py:82-103 | Growing aliases moves no classification. |
| `InventoryTheorems.InventoryOnlyGrowsAliases` | backend/reconciliation.py:130-150 | The pass changes the catalogue in one way only, adding aliases, and no classification moves. |
| `InventoryTheorems.EveryItemIsSettled` | backend/reconciliation.py:130-150 | After the pass every matched entry answers to its row's name, or has no profile to extend. |
| `InventoryTheorems.InventoryIsIdempotent` | backend/reconciliation.py:190-252 | Reporting the same inventory twice is reporting it once, duplicates and conflicting hashes included. |
| `Heartbeats.WorkerHeartbeat` | backend/routers/workers.py:225-361 | Liveness, loaded flags, unknown models, inventory and the empty-beat counter, in that order, compute the heartbeat. |
| `Heartbeats.HeartbeatMovesCounters` | backend/routers/workers.py:231-250 | A heartbeat moves a runtime's counter as its eligibility and report say, and never lifts a runtime's drain. |
| `BeatRows.StatusAfterABeat` | backend/routers/workers.py:231-258 | Every runtime's status is the last one the beat reports for its engine, the last runtime of several; a drain stands, an unreported one keeps its status. |
| `BeatRows.CounterAfterABeat` | backend/routers/workers.py:333-350 | A beat that hears the engine and tags any artifact resets its counter when it lists one there and raises it by one when it does not; any other beat leaves it. |
| `BeatRows.EveryRowAfterABeat` | backend/routers/workers.py:260-358 | Every row after a beat: loaded if and only if the beat lists the name, a bare row added where the beat's tag sends an unknown loaded name, then whatever the inventory says, then missing when it was available at a second empty beat. |
| `Heartbeats.HeartbeatKeepsRowsUnique` | backend/routers/workers.py:260-312 | No heartbeat gives a runtime two rows of one name. |
| `Heartbeats.CounterCountsEmptyBeats` | backend/routers/workers.py:333-358 | Over any run since registration the counter is the number of eligible empty beats since the last eligible beat that listed artifacts. |
| `Heartbeats.DelistingNeedsTwoEmptyBeats` | backend/routers/workers.py:345-358 | Counting changes a row if and only if it was available and the count reached two. |
| `Heartbeats.DelistedModelsWereSilentTwice` | backend/routers/workers.py:333-358 | A model is taken out by counting only after two different eligible empty beats with no listing in between. |
| `Adoption.ReclassifiedFleet` | backend/reconciliation.py:255-266 | Every row of the hash gets its classification under the catalogue as it was, missing rows included; every other row is untouched and the catalogue only gains aliases. |
| `Adoption.AdoptKeepsPinsUnique` | backend/catalog_service.py:124-211 | Adoption adds exactly one entry and keeps weights digests unique across entries. |
| `Adoption.AdoptionsAreGrantedExactly` | backend/catalog_service.py:153-188 | An adoption goes through if and only if the id is good and free, no entry or file carries the hash, every name asked for is one the hash is reported under (when it is reported at all), and the organization exists; each refusal has its reason. |
| `Adoption.AdoptedEntryIsAsRequested` | backend/catalog_service.py:189-211 | The new entry states what was asked, unverified and enabled as asked, answers to every name given, and every other entry grows aliases only. |
| `Adoption.AdoptedCandidateIsEntered` | backend/catalog_service.py:318-383 | A candidate the pass adopts is entered under one new id with the served name, the other names, the memory and every file proposed. |
| `Adoption.AdoptedRowsAreServable` | backend/catalog_service.py:153-211 | Afterwards every worker row of that hash is available, linked to the new entry and an artifact of it under any name; every other row is as it was. |
| `Adoption.AutoAdoptPass` | backend/catalog_service.py:293-404 | The loop over candidates computes the pass; a refused candidate leaves the catalogue unchanged. |
| `Adoption.PassCountsItsEntries` | backend/catalog_service.py:293-404 | The count returned is the number of entries created, in order, with pins unique throughout. |
| `Adoption.CandidateKeepsServed` | backend/catalog_service.py:293-404 | A candidate that is adopted is served; one that is not changes nothing; hashes served before stay served. |
| `Adoption.PassServesWhatItAdopts` | backend/catalog_service.py:293-404 | Whatever the rest of the pass does, a hash it adopted is served at its end. |
| `Adoption.AutoAdoptFailsOnlyForTwoReasons` | backend/catalog_service.py:226-404 | A confirmed candidate whose name leaves a stem, and whose quantization is absent or has a slug, is refused, wherever in the pass it comes up, only because its id would name a runtime or the bytes are pinned already; that its names are reported follows from their being drawn from the quarantined rows of the hash. |
| `Adoption.VerifiedRowIsDispatchable` | backend/scheduler.py:66-104 | A row that classification links to an entry can be dispatched for that entry if and only if its bytes are some entry's weights, or the entry pins nothing and answers to the row's name. Verified through another file of a pinned entry it is available, linked, and never dispatched for its own entry. |
| `Adoption.AFileMatchIsServedForAnotherEntry` | backend/reconciliation.py:45-62 | Such a row, reached by an inventory report for any hashes and names: no host with it is given a batch of its own entry, and the same row runs batches of an unpinned entry that answers to its name. |
| `Adoption.InventoryMakesUnpinnedRowsDispatchable` | backend/reconciliation.py:130-150 | After an inventory a hashed row of an unpinned entry is dispatchable whenever the entry has a profile for its engine. |
| `Slugs.DraftFollowsTheRules` | backend/catalog_service.py:80-92 | A drafted slug obeys the naming rules if and only if the quantization is absent or has a slug and something of the name is left. |
| `Slugs.CandidatesDiffer` | backend/catalog_service.py:95-105 | Differently numbered candidates are different ids. |
| `Slugs.TriedAreDistinct` | backend/catalog_service.py:95-105 | n failed probes are n different ids, so the catalogue bounds the search. |
| `Slugs.FirstUnused` | backend/catalog_service.py:95-105 | The first unused candidate exists and has a number at most one more than the catalogue has ids. |
| `Slugs.FindUniqueSlug` | backend/catalog_service.py:95-105 | The loop returns that id within one probe more than the catalogue has ids. |
| `Slugs.CandidatesFollowTheRules` | backend/catalog_seed.py:69-84 | Numbering a slug keeps it within the naming rules. |
| `Slugs.UniqueDraftsFollowTheRules` | backend/catalog_service.py:80-105 | Drafting and disambiguating together give an unused id within the rules. |
| `SlugWords.SlugifyJoinsWords` | backend/catalog_service.py:76-77 | A slug is the text's maximal runs of letters and digits, lower case, joined by single dashes. |
| `SlugWords.DraftsKeepTheWords` | backend/catalog_service.py:80-92 | A draft is the words before the first ':', those after it unless they spell the quantization, and the quantization as one word. |
| `SlugWords.IdsAreAcceptedExactly` | backend/catalog_seed.py:69-84 | An id is accepted if and only if it is words joined by single dashes, none a runtime's name, ending in the quantization when there is one; or, without a quantization, that with a newline at the end. |
| `SlugWords.UniqueSlugIsTheFirstUnused` | backend/catalog_service.py:95-105 | The id chosen is the slug, or its stem with the first number from two on that is not taken and the quantization again. |
| `FileValidator.ErrorLog.AddErrors` | backend/services/batch_validator.py:69-73 | Every error is counted and the first hundred are kept, in order. |
| `FileValidator.CrossFileContext.TakeRow` | backend/services/batch_validator.py:318-358 | The cross-line checks of one row: its duplicate and mixed-model errors and the context later rows are held to. |
| `FileValidator.ScanLines` | backend/services/batch_validator.py:507-566 | The loop with its early exits computes the pass, and its log holds all errors of the file. |
| `AcceptedLines.LinesWithoutFaults` | backend/services/batch_validator.py:122-343 | A line passes if and only if it has only the four keys, a textual custom id, method POST, one of the three endpoints and a body naming a textual or null model, and the body fits its endpoint, field by field. |
| `AcceptedLines.LineFaultsMean` | backend/services/batch_validator.py:122-343 | The faults reported of a line are exactly those rules it breaks; the endpoint's are looked at only when the schema holds. |
| `FileFaults.FileFaultsMean` | backend/services/batch_validator.py:507-566 | A file read to its end is reported exactly its lines' faults, a duplicate id when two lines share one, a mismatch when two name different models, and emptiness when all are blank. |
| `AcceptedLines.WantedMeans` | backend/services/batch_validator.py:285-296 | What a line needs of a runtime, each once in the table's order: logprobs when asked for, completions by its endpoint, prompt scoring when it echoes there. |
| `AcceptedLines.AskingMeans` | backend/services/batch_validator.py:549-556 | A line asks for several answers if and only if its n is set and is not one. |
| `AcceptedFiles.AcceptableMeans` | backend/services/batch_validator.py:507-566 | A file passes if and only if it has 1 to 50000 non-blank lines, each such a request, with pairwise different custom ids and at most one model named. |
| `AcceptedFiles.GatesMean` | backend/services/batch_validator.py:568-648 | The gates, from catalogue and workers: the model is offered, no line asks an Ollama entry for several answers, and no worker heard within two minutes hosts the model or one of them may run the file. |
| `AcceptedFiles.BackfillMeans` | backend/services/batch_validator.py:416-434 | The startup scan's list holds exactly what the lines need. |
| `AcceptedFiles.PassAcceptsExactly` | backend/services/batch_validator.py:507-566 | The pass reports nothing if and only if there are 1 to 50000 non-blank lines, each passing schema and endpoint rules, with pairwise different custom ids and at most one model named. |
| `AcceptedFiles.PassRaisesExactly` | backend/services/batch_validator.py:539-562 | The pass raises if and only if the file's first object is the empty one, before the line limit. |
| `AcceptedFiles.BackfillListsWants` | backend/services/batch_validator.py:416-434 | The startup scan lists a capability if and only if some line asks for it, each once. |
| `AcceptedFiles.BackfillKeepsOrder` | backend/services/batch_validator.py:416-434 | Capabilities asked for by earlier lines come first. |
| `AcceptedFiles.BackfillRepeatsTheScan` | backend/services/batch_validator.py:397-435 | On a file without errors that list is the validator's, in the same order. |
| `AcceptedFiles.AcceptedFilesRunExactlyWithAModel` | backend/services/batch_validator.py:568-582 | Some host could be given an accepted file under some catalogue if and only if a row of it names a model; one that names none is accepted all the same. |
| `AcceptedFiles.ValidateBatchFile` | backend/services/batch_validator.py:497-655 | A file is accepted if and only if it is readable, acceptable and, when it names a model, passes the catalogue gates; the verdict carries the agreed model, the number of requests and the capability list. |
| `SubmissionGates.OnlineHosts` | backend/services/batch_validator.py:378-394 | Exactly the workers online by heartbeat that could take a plain batch of the entry at some hour. |
| `SubmissionGates.SizeGate` | backend/services/batch_validator.py:633-648 | Refused with the largest limit if and only if no capable host takes the size; that limit is exact. |
| `SubmissionGates.CapabilityRefusal` | backend/services/batch_validator.py:605-632 | The missing needs are exactly those no host meets alone, in the order the file raised them; the need named is the first of them in that order, else the first of all. |
| `SubmissionGates.CheckGates` | backend/services/batch_validator.py:582-648 | A file that passes the n>1 gate is admitted if and only if no online worker hosts the model or some online worker takes it with its capabilities and size, hours aside. |
| `SubmissionGates.RefusedFilesAreNeverDispatched` | backend/services/batch_validator.py:605-648 | A refused file would never be picked for any of those workers, at any hour, whatever else is queued. |
| `SubmissionGates.AdmittedFilesHaveATaker` | backend/services/batch_validator.py:605-648 | A file admitted because of an online host is picked for some online worker within its hours. |
| `KeyedRows.CollapsedPutAll` | backend/services/usage_ingest.py:118-124 | Collapsing duplicates before an upsert changes nothing in the table. |
| `KeyedRows.RestartedPutAll` | backend/services/usage_ingest.py:111-136 | Writing a prefix and then everything gives the table of one clean write. |
| `KeyedRows.FindPutAll` | backend/services/usage_ingest.py:111-136 | After an upsert a key holds its last written value, else its old one. |
| `UsageIngest.UsageStore.Upsert` | backend/services/usage_ingest.py:126-136 | The statement is given distinct keys only; existing keys keep their place, new ones are appended. |
| `UsageIngest.UsageStore.UpsertChunk` | backend/services/usage_ingest.py:111-136 | A chunk with duplicates is written as if row by row. |
| `UsageIngest.UsageStore.WriteRecords` | backend/services/usage_ingest.py:202-215 | For every chunk size the table holds a prefix of the file's usable records, whole chunks of it unless the run ended; the run ends only if no line raises. |
| `UsageIngest.UsageStore.Ingest` | backend/services/usage_ingest.py:179-252 | A run that ends clears the flag and recomputes the sums; one that raises keeps the flag and counts; one that dies keeps all but its committed chunks. After a run that ended, the row of every id is what the last line counted for it states, every other row is as it was, and the totals are the column sums. Without database faults a run raises if and only if some line does. |
| `UsageIngest.LinesRaiseExactly` | backend/services/usage_ingest.py:18-47 | A line raises instead of being skipped if and only if it would be counted and the first count that cannot be read is an infinity. |
| `UsageIngest.CountedLinesAreUsable` | backend/services/usage_ingest.py:18-108 | A line is counted if and only if it is a result with an id, no error and a usage, its prompt and completion counts are absent, empty or a number, and its total is absent or a number; it then counts those, zero for nothing, and the stated total or else their sum. |
| `UsageIngest.RecordsAreTheLastStated` | backend/services/usage_ingest.py:50-108 | What a file writes for an id is what the last line counted for it states, and it writes for no other id. |
| `UsageIngest.SumsAreColumns` | backend/services/usage_ingest.py:227-240 | The totals are the three columns summed over the batch's rows. |
| `UsageIngest.RestartsConverge` | backend/services/usage_ingest.py:202-215 | However often runs over one file were cut short, a run to the end leaves what one clean run would. |
| `UsageIngest.BatchesDoNotMix` | backend/services/usage_ingest.py:111-136 | Runs for other batches in between do not touch a batch's rows. |
| `OverlappingRuns.OverlappingRunsAgree` | backend/routers/workers.py:505-520 | Two complete runs over one file at once, as after a replayed upload, leave the very table of one, however their writes interleave. |
| `OverlappingRuns.TotalsInReadingOrder` | backend/services/usage_ingest.py:227-242 | If of two such runs the one that commits last also read the sums last, the totals are the sums over that table. |
| `OverlappingRuns.TotalsSurviveAnyOrderExactly` | backend/services/usage_ingest.py:227-242 | The totals are those sums under every interleaving of records, readings and commits if and only if no id is stated with two different counts. |
| `OverlappingRuns.TwoCompleteRunsLoseATotal` | backend/services/usage_ingest.py:227-242 | For every chunk size, an interleaving of whole chunks on which they are not: both runs end well, the table holds two tokens and the totals one. |
| `UsageIngest.IngestedUsageIsLastWriteWins` | backend/services/usage_ingest.py:202-242 | A batch whose own writes are interrupted runs followed by a complete one, among other batches' chunks in any order, holds exactly the last-write-wins map of its file, and its sums are over that map. |
| `OverlappingRuns.SecondRunIsHarmlessExactly` | backend/routers/workers.py:505-520 | A second run over the file that overlaps the first and dies after j records leaves the table right under every interleaving if and only if no key among those records gets another value later in the file. |
| `OverlappingRuns.ADyingSecondRunLeavesAStaleRow` | backend/services/usage_ingest.py:202-242 | For every chunk size, an input on which it does not: a file that states an id once more than a chunk holds, and a second run that dies after its first chunk, the j at which a commit can leave it. The table ends at the first value while the totals hold the second and the flag is clear. |
| `OverlappingRuns.IngestedDespiteASecondRun` | backend/services/usage_ingest.py:202-242 | Under that condition a batch ingested by interrupted runs and a complete one holds its last-write-wins map although a second run overlapped them and died. |
| `Outbox.OldestPending` | backend/sweeper.py:126-131 | The query's result: at most five eligible batches, oldest first, none eligible left out while there is room. |
| `Outbox.SweepPendingIngestions` | backend/sweeper.py:110-143 | One sweep retries exactly those, completed batches still pending whose ingestion raised fewer than five times, and returns how many had a file to read; the flag is cleared on every terminal outcome and only there. |
| `Outbox.EverySweepMakesProgress` | backend/sweeper.py:110-143 | While any batch is eligible a sweep strictly lowers the sum of retries still owed. |
| `Outbox.RetriesAreBounded` | backend/services/usage_ingest.py:151-176 | Over any run the sweeper retries one batch at most five times, whatever completes between sweeps, whatever the batches' own runs do, and whether or not the database refuses a retry. |
| `Outbox.OldBatchesAreNotStarved` | backend/sweeper.py:110-143 | However many newer batches complete between sweeps, after as many sweeps as retries were owed to the batches completed by then, an older one is ingested or given up. |
| `Outbox.TheOutboxDrains` | backend/sweeper.py:110-143 | With no upload in between, after as many sweeps as that sum nothing is eligible, and a completed batch is still pending if and only if it was and its file raises every time or its attempts were already spent. |
| `IdentityResolver.ResolveTree` | backend/identity_resolver.py:395-447 | The paginated loop computes the walk over at most a hundred pages. |
| `IdentityResolver.KeptPathIsFirst` | backend/identity_resolver.py:428-429 | The path kept for a hash is the first listed one. |
| `IdentityResolver.EarlyStopIsFullScan` | backend/identity_resolver.py:408-447 | Without an adapter file the early stop answers as a full scan, on every error-free listing: confirmed if and only if every required hash is listed, with the same path. |
| `IdentityResolver.EarlyStopMissesAdaptersExactly` | backend/identity_resolver.py:424-431 | With an adapter file it differs from the full scan if and only if all required hashes were seen on earlier pages, and then confirms. |
| `ListingWalks.WalksEndAtOnePage` | backend/identity_resolver.py:395-447 | Whatever the pages are, errors included, the walk ends at the first that is no list, names an adapter, completes the required hashes or is the last, at most the hundredth, with exactly the answer that page gives. |
| `ResolverCache.Resolver.Resolve` | backend/identity_resolver.py:277-357 | One request: a confirmed answer is repeated and never replaced, a first confirmed answer is stored, and the caches stay disjoint. |
| `ResolverCache.RunKeepsInv` | backend/identity_resolver.py:337-357 | Over any run the caches hold only answers a source gave, and never both kinds for one key. |
| `ResolverCache.ConfirmedAnswersAreFinal` | backend/identity_resolver.py:337-353 | Once confirmed, every later request for the key gets that answer. |
| `ResolverCache.NegativeAnswersExpire` | backend/identity_resolver.py:345-357 | A negative answer is fresh, or repeats one within its time to live. |
| `ResolverCache.RequestsRepeatTheLastAnswer` | backend/identity_resolver.py:337-357 | A request reaches its source if and only if nothing was heard for its key yet or what was heard last was negative and is older than its 900 seconds, 60 for a passing failure; else it gets that answer again. |
| `RateLimit.Limiter.Sweep` | backend/rate_limit.py:31-44 | At most once a window: users with nothing recent are forgotten, others are pruned. |
| `RateLimit.Limiter.CheckKeyCreationRate` | backend/rate_limit.py:47-67 | With a clock that does not go back, a call is accepted if and only if fewer than ten accepted calls of the user lie in the last hour, sweep or no sweep. |
| `RateLimit.LiveLater` | backend/rate_limit.py:31-44 | Pruning changes nothing a later call sees. |
| `RateLimit.AllowedExactly` | backend/rate_limit.py:47-67 | A call is let through if and only if fewer than ten accepted calls of the user are less than 3600 seconds old. |
| `RateLimit.TenAcceptancesTakeAnHour` | backend/rate_limit.py:47-67 | Over any run, acceptances ten apart are at least an hour apart. |
| `OrganizationHandlers.Directory.AddMember` | backend/routers/organizations.py:733-842 | An existing user becomes a member at once, an unknown email gets one pending invite; only owners confer ownership. |
| `OrganizationHandlers.Directory.Revoke` | backend/routers/organizations.py:881-901 | Only an unaccepted invite of that organization is deleted. |
| `OrganizationHandlers.Directory.Accept` | backend/routers/organizations.py:1099-1147 | An invite makes one membership; for a member already there it is used up without one. |
| `OrganizationHandlers.Directory.LeaveOrganization` | backend/routers/organizations.py:908-930 | The only owner cannot leave: every organization keeps an owner and one row per member. |
| `OrganizationHandlers.Directory.TransferOwnership` | backend/routers/organizations.py:933-964 | The heir becomes owner and the caller admin; nothing changes for a caller without an owner row or transferring to themself. |
| `OrganizationHandlers.Directory.UpdateMemberRole` | backend/routers/organizations.py:969-995 | The only owner cannot be demoted: every organization keeps an owner and one row per member. |
| `OrganizationHandlers.Directory.Remove` | backend/routers/organizations.py:1000-1030 | The only owner cannot be removed, nor any owner by an admin; every organization keeps an owner and one row per member. |
| `Membership.EveryOrganizationStaysOwned` | backend/routers/organizations.py:83-87 | Over every run of sign-ups and requests each organization has an owner and each user at most one membership of it. |
| `MembershipRules.RequestsAreGrantedExactly` | backend/routers/organizations.py:733-1147 | Every request is granted if and only if the roles, invites and accounts say so; in particular an owner may go or be demoted if and only if there is another one. |
| `MembershipRules.RolesAfterARequest` | backend/routers/organizations.py:733-1147 | A granted request changes exactly the roles it names: an invitee gets the invited role, an heir becomes owner and the former owner admin, and nobody else's role moves. |
| `MembershipRules.TablesAfterARequest` | backend/routers/organizations.py:733-1147 | What it does to organizations, accounts and invites, an invite being open for seven days. |
| `Membership.AnInviteAdmitsOnce` | backend/routers/organizations.py:1099-1147 | Over every run an invite becomes a membership at most once, and never after it is spent. |
| `Membership.OwnershipComesFromOwners` | backend/routers/organizations.py:744-749 | A user becomes an owner only through an owner or superadmin, by founding the organization, or by an invite that offered it. |
| `Membership.OffersComeFromOwners` | backend/routers/organizations.py:744-749 | Only an owner or superadmin issues such an invite. |
| `TokenWindow.ClipIsCut` | app/dashboard/playgroundLib.js:378-382 | Clipping text to n lines is cutting it before its nth newline. |
| `TokenWindow.KeptLines` | app/dashboard/playgroundLib.js:378-382 | What is kept when the clipper cuts has n lines. |
| `TokenWindow.LineWindow` | app/dashboard/playgroundLib.js:351-376 | For every tokenization the kept tokens join to exactly the clipped text, each under its own number; for non-empty tokens the ellipsis is drawn if and only if the clipper cut and something follows the nth newline. |

## Left out

- OverlappingRuns.TotalsSurviveAnyOrderExactly: records interleave one at a time, finer than the chunks they are committed in, so a file whose restatements cancel within every chunk is counted as unsafe.
- Outbox.OldBatchesAreNotStarved: batches that complete in the same second as the older one are not newer, as the clock has no finer grain; retries whose failure could not be recorded are not charged and not part of the runs.
- Adoption.AutoAdoptPass: which alias the pass serves and what the resolver answers are one input per candidate, a proposal or none.
- Lifecycle steps: concurrent transactions inside one handler, and messages the database itself would serialize, are not modelled.
- Digest normalization: white space and letter case of incoming digests; stored forms are assumed.
- Time zones and HH:MM windows: being within hours is a parameter.
- Row statuses `downloading` and `error`, and worker status `error`, which no modelled handler assigns.
- Table rows are values in map and sequence fields, so aliasing between loaded rows is not modelled.
- Timestamps of rows (`created_at`, `updated_at`), usage record ids and log messages.
- Error wording and the index inside an error's field name.
- File reading, encodings and JSON parsing: validation and ingestion start from parsed lines; not-a-number literals and over-long integers are not among the parsed values.
- Database integer widths: token counts are unbounded.
- `custom_id` values that are not strings enter ingestion as the string they are converted to.
- Letters outside ASCII in slugs count as separators.
- Catalogue seeding beyond the naming rules: profile and file synchronisation and renames.
- Parsing and rendering of runtime model names, and the single-manifest registry lookup.
- Concurrent resolver requests: the cache theorems are about one request after another.
- VRAM estimation and task inference for adopted entries.
- `tokenWindow` around marked tokens, `firstDivergence`, `quantSweep` and the other presentation helpers.
- Pool capacity snapshots and dashboard summaries, thin layers over `can_serve`.
- Authentication, API keys other than their rate limit, email, CORS, migrations and the user interface.
- Sending the invitation email, which is best effort after the invite is stored.

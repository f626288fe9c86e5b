# Erasure certification, account closure and export: a verified model

This project models the core of a GDPR service: the ledger that decides whether an erasure may be
called DELETED (Article 17 of Regulation (EU) 2016/679), the account closures that drive it, the
idempotent intake in front of it, the restore re-queue behind it, the assembly and single-use
download of data exports (Articles 15 and 20), and the clocks and budgets around them
(Article 12(3)).

## How it is built

* `Ledger.dfy` holds the rows, `Protocol.dfy` the steps as functions on the tables, and
  `Service.dfy` the orchestrator as it runs: a class whose methods change the tables with the
  source's branches and loops, each proved equal to its step. What the code reads from outside
  (configuration, drawn uuids, the host's erasure strategy, providers that raise, emits that fail)
  is an argument of the step.
* `Runs.dfy` composes the steps into a machine: any order, any configuration at each step, host
  writes to user rows, holds, the clock. `Reachable` means reachable from empty tables. `Micro.dfy`
  splits each step into table writes; `Invariants.dfy` proves the machine's invariant once per kind
  of write; `Frames.dfy` says what steps leave alone.
* `Verdicts`, `Executions`, `Effects` and `Subjects` say what the steps do in the tables' own terms,
  field by field: when a certificate is issued and on what terms, where an execution ends, what is
  opened, announced, cancelled or refused, and whose data a request is about.
* The theorems over runs are in `Certification`, `Delivery`, `Handlers`, `Intake`, `Accounts`, `EventLog`,
  `Sweeps`, `Restores` and `Windows`. `Handlers`, `Intake`, `Initiations` and `ExportRaces` split calls where the
  code is not atomic and interleave the pieces.
* `Inventory`, `Subprocessors`, `Exports`, `BusinessDays` and `Throttle` model owners.py,
  subprocessors.py, the export row, the acknowledgement clock and the intake budget.
* `Service.Orchestrator.Perform` and `PerformAll` show the class executing the machine, so theorems
  about runs hold of it.
* `Witnesses.dfy` gives short concrete runs into the situations below.

Tables are append-only sequences whose index is the primary key. A `mutate_and_emit` block is all or
nothing. Moments are integer seconds.

## Where the code and its documentation part

The model follows the code. Each of these is a theorem, with the exact condition where there is one.

* A certificate can rest on nothing. Slots are a snapshot at opening, the inventory is read again at
  certification, so a closure executed under an empty inventory and executed again later is complete
  without a receipt (`Certification.CompleteWithoutReceipts`). The exact condition is fixed when the
  request is opened: a complete erasure has a receipt of every owner in a set if and only if the
  opening inventory lists all of them as claimants, and has any receipt if and only if that inventory
  had a claimant (`Certification.ReceiptsIff`). The empty certificate needs a second
  `execute_deletion` on a DELETING closure, which no caller in the repository makes: as long as
  closures are executed by the grace sweep alone, every complete erasure has a receipt
  (`Accounts.SweptErasureHasReceipts`).
* A last receipt that meets a broken inventory strands the request for ever
  (`Witnesses.ReceiptMeetsBrokenInventory`, `Certification.StrandedForEver`). An open entity erasure
  can still complete if and only if some slot is not DONE (`Certification.CompletableIff`).
* The comment in `execute_deletion` and its docstring say the grace sweep retries a closure left in
  DELETING. It selects GRACE only: `Accounts.NeverRetried`, `Witnesses.ProviderRaisesOnce`. For every
  DELETING closure, `Accounts.ClosableIff`: it can still be closed without another call if and only if
  its local work is done and its request is open and waits for some owner.
* A deadline sweep that stops half-way loses timeouts (`Witnesses.SweepFailsOnce`). Slots and requests
  stay in step under a sweep if and only if it completes (`Sweeps.AccountedIff`); a request it flipped
  but did not reach can be timed out later if and only if another slot of it was still inside its
  deadline (`Sweeps.LostTimeout`), and in general an open request can time out if and only if some slot
  is pending (`Sweeps.TimesOutIff`).
* The restore command is called idempotent. It adds nothing if and only if its window is covered or
  its first announcement raises (`Restores.AddsNothingIff`); a clone that completed is itself cloned by the same command line
  (`Witnesses.SameCommandTwice`).
* The intake budget is not a rolling hour: a steady caller is refused with one admission in the past
  hour (`Throttle.SteadyCallerIsRefused`); the exact admission rule is `Throttle.AdmittedIff`.
* A download token is spent at most once, and the archive may still not be delivered: the purge takes
  consumed rows that still name an archive (`ExportRaces.TokenSpentForNothing` is a run,
  `ExportRaces.PurgeStarvesWinner` the general case). The winner is served if and only if the archive
  was stored and no expiry or loss of its key came before the read (`ExportRaces.ServedIff`).
* "Erased everywhere by" can lie before the erasure was complete: if and only if our own deadline
  does, every declared processor was recorded before the completion, and so do their due dates
  (`Windows.ErasedEverywhere`). With no processor declared a late completion is enough
  (`Witnesses.LateWithoutProcessors`); with one declared it takes an owner that recorded it early,
  since recording again does not move the date (`Witnesses.LateWithEarlyProcessor`).
* The orchestrator is said to guard against concurrent active closures. Two calls that both test
  before either inserts leave two (`Initiations.TwoAtOnce`); over every interleaving the guard holds
  if and only if no call commits over an active closure of its user begun since its own test
  (`Initiations.OneEachIff`).

## Model

| member | source | states |
|---|---|---|
| `Inventory.Declarations` | owners.py:170-207 | keeps exactly the first entry of each non-blank name, in declaration order, over both shapes of the setting and the legacy list |
| `Inventory.NormalizeSubjects` | owners.py:159-167 | the non-blank names once each, in the order of their first occurrence; just `account` exactly when there is none |
| `Inventory.DataOwnerReport` | owners.py:210-245 | per declaration one owner: its name, the kind it says or local exactly when a provider is registered, its hours or the default, its subjects or the account; `missing` is exactly the local owners without a provider, `undeclared` the providers nobody declared |
| `Inventory.EntriesMean` | owners.py:170-207 | what each entry of either shape, and each legacy service, declares |
| `Inventory.InferredIsReachable` | owners.py:222-236 | an owner whose kind was not said is never missing |
| `Inventory.SoundInventory` | owners.py:121-140 | no problems if and only if somebody is declared, every local owner is registered and every provider declared |
| `Inventory.ProblemsSay` | owners.py:121-140 | each problem is there exactly when its cause is, and names it |
| `Inventory.ClaimNamesAreOwnersFor` | owners.py:117-119 | `owners_for` yields exactly the owners that claim the subject |
| `Subprocessors.DeclaredSubprocessors` | subprocessors.py:34-56 | the loop with its `seen` set computes the declared pairs |
| `Subprocessors.PairsAreTheDeclaredNames` | subprocessors.py:34-56 | names are distinct and are exactly the wanted, non-blank declared names |
| `Subprocessors.WindowsAreDeclared` | subprocessors.py:34-56 | the window of a name is the one of its first entry, none for a bare name |
| `Subprocessors.RecordObligations` | subprocessors.py:59-81 | adds the missing obligations only and counts exactly those it wrote |
| `Subprocessors.RecordingIsIdempotent` | subprocessors.py:59-81 | re-recording all processors or any subset, later, changes nothing |
| `Subprocessors.FullyErasedBy` | models.py:414-426 | the latest of the request's own deadline and every obligation's |
| `Subprocessors.ErasedEverywhereBy` | models.py:414-426 | after a recording over any ledger: the later of what it was and the anchor plus the longest window among the processors not yet recorded |
| `Subprocessors.PublishedBeforeIff` | models.py:414-426 | it lies before the anchor exactly when our deadline does, every declared processor is already recorded and their dates do too |
| `Windows.CompletionRecords` | orchestrator.py:985-998 | only a receipt or an execution completes a request, and it records the declared processors at that moment |
| `Windows.RecordingSays` | subprocessors.py:59-81 | a recording adds one obligation per missing declared name, due its window after completion or now, and changes nothing else |
| `Windows.OneWindowPerProcessor` | orchestrator.py:994-1005 | at completion one obligation per declared processor besides earlier ones, and all of them stay in every continuation |
| `Windows.ErasedEverywhere` | models.py:414-426 | at every completion: the maximum of `due_at`, the earlier due dates and completion plus the longest window among processors not yet recorded; and exactly when it lies before the completion |
| `Witnesses.LateWithoutProcessors` | models.py:414-426 | a run after which the published date lies before the completion |
| `Witnesses.LateWithEarlyProcessor` | subprocessors.py:59-81 | a run in which a processor recorded early leaves the published date before the completion |
| `Ledger.CompleteMeans` | models.py:393-412 | `outcome` is complete if and only if DELETED, un-waived and every slot DONE |
| `Ledger.OutcomeMeans` | models.py:393-412 | pending while open; incomplete exactly when timed out, waived or missing a receipt |
| `Ledger.AccessMeans` | lifecycle.py:290-305 | the four access states, read off the user's closures |
| `Ledger.FindGrace` | orchestrator.py:557-561 | the first closure of the user still in grace, or none exists |
| `Service.OpenSlots` | orchestrator.py:787-796 | the slots the loop creates are one per claiming owner |
| `Service.Orchestrator.OpenErasure` | orchestrator.py:703-827 | new tables and answer equal the atomic step, whose outcome and content are those of `Effects.OpensIff` and `Effects.OpenedSays` |
| `Service.GatherBlockers` | orchestrator.py:935-945 | problems first, then "nobody claims", then the owners without a receipt |
| `Service.Orchestrator.FinalizeIfCertain` | orchestrator.py:903-1021 | certifies, records obligations and closes off the closure as the step does, whose verdict is that of `Verdicts.ReceiptVerdict` and `Executions.ExecutionVerdict` |
| `Service.Orchestrator.SectionErased` | orchestrator.py:829-861 | a receipt fills the named slot once and re-checks; strangers and repeats change nothing |
| `Service.RecordLocalReceipts` | orchestrator.py:863-875 | receipts exactly for local owners that claim the subject, are registered and did not fail |
| `Service.RunDeletionInprocess` | orchestrator.py:1060-1076 | the two provider loops yield the failed sections, anonymize failures first, deletes added once |
| `Service.FlipOverdue` | orchestrator.py:1088-1096 | flips exactly the overdue slots, remembers who was silent, counts them |
| `Service.Orchestrator.SweepDeadlines` | orchestrator.py:1078-1124 | tables and count equal the sweep step; it raises exactly when it cannot announce every losing request |
| `Service.Orchestrator.TimeOutLosers` | orchestrator.py:1101-1123 | one outbox unit per losing request, up to the first emit that raises |
| `Service.Orchestrator.Initiate` | orchestrator.py:493-540 | the closure, the deactivation and both events, or nothing |
| `Service.Orchestrator.Cancel` | orchestrator.py:542-581 | cancels the grace closure with its event, or nothing |
| `Service.Orchestrator.EraseRow` | lifecycle.py:234-287 | runs the strategy and succeeds only if no identifying value survived |
| `Service.Orchestrator.Claim` | orchestrator.py:617-657 | DELETING, one correlation id, and the closure's own request found or opened, for the closure's own user (`Subjects.ClosureErasesItsUser`) |
| `Service.Orchestrator.EraseHere` | orchestrator.py:659-697 | providers, receipts, identity, announcement and re-check in that order, stopping where the code stops |
| `Service.Orchestrator.Execute` | orchestrator.py:583-697 | the whole of `execute_deletion` equals its step, which ends as `Executions.ExecutionEnds` says |
| `Service.Orchestrator.ExpireGracePeriods` | tasks.py:206-229 | executes the closures selected at the start, in order, whatever raises, and keeps the invariant |
| `Service.Orchestrator.RequeueErasures` | management/commands/gdpr_requeue_after_restore.py:66-116 | tables and both counters equal the command's step, dry run and aborting emit included; what it adds is that of `Restores.RunCovers` |
| `Service.Orchestrator.RecordProcessors` | subprocessors.py:59-81 | updates one request's ledger and returns the number of new rows |
| `Service.Orchestrator.Perform` | orchestrator.py:493-1124 | whichever step the class performs, it keeps the invariant, takes nothing back and stays on a run of the machine |
| `Service.Orchestrator.PerformAll` | orchestrator.py:493-1124 | performing any run leaves exactly the tables of that run |
| `Invariants.StepKeeps` | orchestrator.py:493-1124 | every step keeps the invariant (rows, foreign keys, unique columns, correlation, closures, newest-is-active) and takes nothing back |
| `Invariants.ReachableIsSound` | models.py:331-347 | the invariant holds in every reachable state |
| `Verdicts.ReceiptVerdict` | orchestrator.py:903-1011 | a receipt that fills an awaited slot certifies if and only if the request is due and either inventory and receipts are complete or the hatch is on; waived exactly when they are not; the closure takes the same verdict |
| `Verdicts.BlockersSay` | orchestrator.py:935-945 | the blockers, in order, with exactly the owners without a receipt |
| `Verdicts.ReceiptWritesSlot` | orchestrator.py:847-856 | which slot a receipt fills, with what id, time and counts; everything else is untouched |
| `Verdicts.EraseIdentityMeans` | lifecycle.py:255-287 | erased if and only if nobody is on file, or the strategy did not raise and left no identifying value as it was |
| `Verdicts.FailedMeans` | orchestrator.py:1060-1076 | a provider fails if it raises in either pass, listed once |
| `Executions.ExecutionEnds` | orchestrator.py:583-697 | where an execution ends, exactly: held, not opened, providers failed, identity survives, emit raised, or through |
| `Executions.ExecutionVerdict` | orchestrator.py:659-697 | the slots an execution fills, and its verdict under every inventory and either position of the hatch |
| `Executions.ExecutionWritesRows` | orchestrator.py:617-695 | what it writes on closure, users and log by where it ended |
| `Effects.OpensIff` | orchestrator.py:743-821 | a call opens if and only if the type is declared, the key unused and the emit goes out; every other answer exactly |
| `Effects.OpenedSays` | orchestrator.py:768-796 | the row carries every argument, the deadline and the inventory version; one slot per claimant with its kind and its own time |
| `Effects.InitiateMeans` | orchestrator.py:514-539 | each refusal exactly, and what an accepted closure writes: thirty days, inactive user, both events |
| `Effects.CancelMeans` | orchestrator.py:557-580 | cancels a grace closure, reactivates its user, one event; nothing otherwise |
| `Effects.SelectedMeans` | tasks.py:215-223 | the sweep selects exactly the unheld grace closures whose time has come |
| `Effects.HoldsMean` | models.py:702-718 | a hold counts from its placing until its own release |
| `Effects.TokenMeans` | views.py:380-425 | a token decides exactly by signature, expiry, subject and being the newest closure's |
| `Effects.TokenAnswers` | views.py:550-568 | which answer a caller with a token gets, exactly |
| `Certification.CompleteIsReceipted` | models.py:393-412 | in every reachable state a complete erasure has a receipt in every slot |
| `Certification.CompleteIsPermanent` | orchestrator.py:903-998 | it stays complete over the same receipts in every continuation |
| `Certification.OpeningSnapshot` | orchestrator.py:763-796 | a step opens at most one request, with one slot per owner claiming its subject then |
| `Certification.CertifyingInventory` | orchestrator.py:935-970 | un-waived certification happens only in a receipt or an execution that read an inventory with a claimant |
| `Certification.EveryClaimingOwner` | orchestrator.py:763-795 | with an unchanged set of claimants, complete means a receipt from each of them, and there is one |
| `Certification.ReceiptsIff` | orchestrator.py:763-796 | for every opening step and every continuation that ends complete: a set of owners has receipts if and only if the opening inventory lists them as claimants; any receipt if and only if there was a claimant |
| `Certification.EntityErasureHasReceipts` | orchestrator.py:847-861 | without a closure a complete erasure rests on at least one receipt |
| `Certification.StrandedForEver` | orchestrator.py:847-861 | all slots DONE but open and without a closure: nothing ever certifies it |
| `Certification.CompletableIff` | orchestrator.py:903-998 | an open entity erasure can still complete if and only if some slot is not DONE |
| `Certification.CompleteWithoutReceipts` | orchestrator.py:631-697 | a concrete run, the first execution after the grace period, that ends complete with no slots at all |
| `Subjects.ClosureErasesItsUser` | orchestrator.py:633-657 | in every reachable state a closure's request is the account erasure of that closure's user: type, decimal key, requester, origin, grace end |
| `Subjects.NumeralsDiffer` | orchestrator.py:636-638 | a subject key names one user |
| `Subjects.CloneErasesItsSource` | management/commands/gdpr_requeue_after_restore.py:88-97 | in every reachable state a restore clone erases what its source erased |
| `Accounts.SweptErasureHasReceipts` | tasks.py:220-226 | over every run in which only the grace sweep executes closures, a complete erasure has at least one receipt |
| `Delivery.DeliveryIsExact` | orchestrator.py:829-861 | over every run in which the request's own receipts meet a sound inventory and no sweep finds it overdue: a slot is DONE exactly when its owner confirmed, the request DELETED and un-waived exactly when all are |
| `Delivery.Confluence` | orchestrator.py:829-861 | two deliveries covering the same owners certify alike |
| `Delivery.InFlightMeans` | orchestrator.py:877-901 | `_still_in_flight` means sound inventory, somebody outstanding, nobody late |
| `Delivery.InFlightArrives` | orchestrator.py:877-901 | a sweep then leaves the request alone, and after it the outstanding receipts complete it, among any other steps that do not disturb it |
| `Delivery.OpenRequestMeansOpenClosure` | orchestrator.py:1007-1011 | no closure is closed off while its own request is open |
| `Handlers.MovesLoseNothing` | orchestrator.py:847-861 | with handlers split into record, judge and write, a full set of receipts is certified or in the hands of a handler |
| `Handlers.AllHandlersDone` | orchestrator.py:829-998 | once all handlers have finished, the erasure is complete, for every interleaving |
| `Handlers.VerdictsAgree` | orchestrator.py:985-998 | a verdict written again leaves the certificate, the receipts and every obligation as they are; the completion date is that of the last verdict written |
| `Intake.Linearizable` | orchestrator.py:746-821 | each move of a split call either changes nothing or is one atomic get-or-create under the configuration, uuid and emit outcome that very call met |
| `Intake.OneRequestPerKey` | models.py:342-346 | a non-empty key has one request and one announcement, and every call with it is given that request for ever |
| `Intake.RacesAreAbsorbed` | orchestrator.py:810-821 | a keyed or unkeyed delivery never surfaces a constraint violation |
| `Accounts.DeletedClosure` | orchestrator.py:918-933 | a DELETED closure has a DELETED erasure of its own, local work done and an erased identity, the hatch notwithstanding |
| `Accounts.MarkedByVerification` | orchestrator.py:673-684 | the identity mark is set only by an execution after which no identifying value is left |
| `Accounts.DeletedOnlyIfVerified` | lifecycle.py:255-287 | for every host strategy, a run that ends DELETED contains such an execution |
| `Accounts.ReExecution` | orchestrator.py:617-657 | one correlation id and one request per closure in every continuation, DONE slots never change |
| `Accounts.OneActiveClosure` | orchestrator.py:514-528 | at most one GRACE or DELETING closure per user, always the newest |
| `Initiations.OneEachIff` | models.py:172-173 | with calls split into test and insert: no user ever has two active closures if and only if no call commits over one begun since its own test |
| `Initiations.TwoAtOnce` | orchestrator.py:514-528 | two overlapping calls that leave two active closures |
| `Initiations.AloneIsAtomic` | orchestrator.py:493-540 | a call nobody comes between is one atomic initiation |
| `Accounts.TokenCancelsItsClosure` | views.py:550-568 | an accepted token cancels the closure it names and touches no other; "not found" exactly when that one left its grace |
| `Accounts.DeniedMeans` | lifecycle.py:290-314 | denial is the existence of a DELETING or DELETED closure |
| `Accounts.DenialIsIrreversible` | lifecycle.py:290-314 | once denied, denied in every continuation, whatever is written to the user row |
| `Accounts.GraceSweepIsARun` | tasks.py:206-229 | the task is a run of enabled executions of selected closures |
| `Accounts.NeverRetried` | tasks.py:220-223 | a closure whose execution stopped half-way stays DELETING for ever under the sweep alone |
| `Accounts.AbandonedForEver` | orchestrator.py:910-933 | a DELETING closure with no open, waiting request stays that way for ever under the sweep alone |
| `Accounts.ClosableIff` | tasks.py:220-223 | every DELETING closure can be closed without another call if and only if its local work is done and its request is open and waits for somebody |
| `EventLog.LogIsAProjection` | orchestrator.py:523-539 | in every reachable state, emits failing or not, the events are one for one the rows: requests, closures, cancellations, timeouts, local erasures |
| `EventLog.OneAnnouncementEach` | orchestrator.py:768-809 | the pk-th announcement is that of request pk |
| `EventLog.EventsSayWhatRowsSay` | orchestrator.py:797-809 | in every reachable state every event carries its row's own fields, one by one, and each request is announced by exactly one |
| `EventLog.CancelledPerUser` | orchestrator.py:565-580 | per user, cancelled events equal CANCELLED closures |
| `Sweeps.CountIsExact` | orchestrator.py:1088-1098 | the returned number is the number of overdue slots |
| `Sweeps.CompletedSweep` | orchestrator.py:1078-1124 | nothing overdue is left, exactly the open requests that lost a slot are TIMEOUT, with one event each naming exactly the owners flipped |
| `Sweeps.SweepSays` | orchestrator.py:1088-1123 | slot by slot and event by event: exactly the late slots are TIMEOUT, exactly the open requests that lost one, each told of once with its late owners |
| `Sweeps.SweepIsIdempotent` | orchestrator.py:1078-1124 | sweeping again at the same moment changes nothing |
| `Sweeps.TimeoutsAccounted` | orchestrator.py:1078-1124 | over runs of completed sweeps a TIMEOUT slot belongs to a TIMEOUT request or a waived DELETED one |
| `Sweeps.AccountedIff` | orchestrator.py:1088-1123 | slot and request agree after a sweep if and only if the sweep completed |
| `Sweeps.TimesOutIff` | orchestrator.py:1088-1123 | an open request can still be timed out if and only if some slot is pending |
| `Sweeps.LostTimeout` | orchestrator.py:1093-1123 | a request the sweep flipped but did not reach stays open and out of step; it can be timed out later if and only if another slot was inside its deadline |
| `Restores.OneCloneEach` | models.py:332-336 | at most one clone per request, younger than its source |
| `Restores.HistoryRises` | models.py:332-336 | source links are acyclic: each history rises to its request from one without a source |
| `Restores.HistoriesAreChains` | models.py:332-336 | two histories sharing a request are prefixes of one another |
| `Restores.RunCovers` | management/commands/gdpr_requeue_after_restore.py:66-116 | after a run every erasure of a declared type completed since a day before the restore has a clone; every row added repeats the type, key, workspace and requester of a wanted erasure and carries the restore date; both counters add up |
| `Restores.CandidateMeans` | management/commands/gdpr_requeue_after_restore.py:66-77 | what the command looks for: completed no earlier than a day before the restore point, with no restore clone yet |
| `Restores.DryRunCounts` | management/commands/gdpr_requeue_after_restore.py:79-86 | a dry run counts them and writes nothing |
| `Restores.RequeueIsARun` | management/commands/gdpr_requeue_after_restore.py:66-116 | the command, with any of its emits failing, is a run of the machine |
| `Restores.AddsNothingIff` | management/commands/gdpr_requeue_after_restore.py:66-116 | for any emits, a run adds nothing if and only if its window is covered or its first announcement raises |
| `Restores.SecondRunAddsNothing` | management/commands/gdpr_requeue_after_restore.py:66-116 | a later run over the same or a narrower window adds nothing, whatever its emits do, unless an erasure completed since |
| `Restores.CloneIsClonedAgain` | management/commands/gdpr_requeue_after_restore.py:71-77 | a completed clone is cloned again |
| `Witnesses.ReceiptMeetsBrokenInventory` | orchestrator.py:935-970 | a two-step run into a stranded request |
| `Witnesses.SweepFailsOnce` | orchestrator.py:1093-1123 | a run, opened, waited out and swept with a failing emit, into a timeout nothing can announce any more |
| `Witnesses.ProviderRaisesOnce` | orchestrator.py:661-669 | a run driven by the grace sweep alone into a closure that nothing can close any more |
| `Witnesses.SameCommandTwice` | management/commands/gdpr_requeue_after_restore.py:66-116 | a reachable state in which the same command adds rows twice |
| `Exports.LabelIsExact` | orchestrator.py:355-363 | partial if and only if the inventory has a problem or somebody asked has no DONE part; the list names exactly those, once, declared owners first |
| `Exports.CollectingServices` | orchestrator.py:101-112 | declared owners first, then the rest, once each, nothing lost |
| `Exports.ExportDesk.RequestExport` | orchestrator.py:121-154 | refused exactly during the cooldown; otherwise one row with one pending part per service, kept even when the publish raises |
| `Exports.ExportDesk.RunProviders` | orchestrator.py:176-204 | fills exactly the registered, not yet DONE parts of a runnable export |
| `Exports.ExportDesk.TryAssemble` | orchestrator.py:253-344 | assembles exactly when due under the lock; a failure returns the row to PROCESSING |
| `Exports.ExportDesk.MarkPartReady` | orchestrator.py:208-241 | only an awaited, acceptable part of a known export changes the row and leads on to assembly; everything else changes nothing |
| `Exports.ExportDesk.ConsumeDownloadToken` | models.py:106-122 | true exactly for the unspent token, and never again |
| `Exports.ExportDesk.PurgeExpiredExports` | tasks.py:69-101 | expires exactly the closed windows and consumed archives, leaves none, and counts them |
| `ExportRaces.RacesAreSound` | orchestrator.py:228-344 | mutex, minting and winners hold after every interleaving |
| `ExportRaces.LookMeans` | views.py:275-309 | which readers get past the row: the subject's own unspent token, ready, inside the window |
| `ExportRaces.BeginMeans` | orchestrator.py:260-270 | an assembly begins exactly for a waiting export that is complete, overdue or forced |
| `ExportRaces.SpendMeans` | models.py:106-122 | an attempt wins exactly when the token is there and unspent at its update |
| `ExportRaces.PartsMean` | orchestrator.py:186-204 | what providers and callbacks write to parts |
| `ExportRaces.StoreMeans` | views.py:302-324 | when an archive is found, read and removed; a failed assembly goes back to processing |
| `ExportRaces.AssembledOnce` | orchestrator.py:253-280 | at most one assembly in flight, at most one ready event |
| `ExportRaces.ReadyIsFinal` | orchestrator.py:325-344 | after the ready event nothing is assembled or announced again |
| `ExportRaces.BeginsWhenDue` | orchestrator.py:243-266 | assembly begins only with all parts DONE or the deadline passed, forced callers included |
| `ExportRaces.OneArchive` | models.py:106-122 | at most one response carries the archive, and it answers the minted token |
| `ExportRaces.RefusalsNeverSpend` | views.py:275-331 | whatever was refused before, the token delivers the archive as long as nobody won, the window is open and the archive is stored |
| `ExportRaces.PurgeStarvesWinner` | tasks.py:90-97 | whenever an attempt has won and the row names its archive, the purge can remove the archive before the read |
| `ExportRaces.ServedIff` | views.py:312-331 | for every interleaving after the conditional update: the winner's response carries the archive if and only if it was stored and no expiry or loss of its key came before the read |
| `ExportRaces.TokenSpentForNothing` | tasks.py:90-97 | a run from a fresh export in which the token is spent and the response is empty |
| `ExportRaces.StarvedForEver` | views.py:319-331 | then no response ever carries it |
| `BusinessDays.BusinessDaysFrom` | models.py:580-595 | the loop terminates and lands on the n-th weekday |
| `BusinessDays.ClosedForm` | models.py:580-595 | n days plus two per Friday passed |
| `BusinessDays.WeekendStart` | models.py:580-595 | a weekend start lands where the preceding Friday would |
| `BusinessDays.Additive` | models.py:580-595 | m + n days are m days and then n days |
| `BusinessDays.FirstDay` | models.py:580-595 | the result is the first day by which n weekdays have passed |
| `BusinessDays.NeverLater` | models.py:580-595 | for every holiday set, never later than the deadline that skips holidays too |
| `BusinessDays.AcknowledgementWindow` | models.py:688-696 | the acknowledgement falls due three to five days after receipt, before the resolution |
| `Throttle.IntakeBudget.Spend` | throttling.py:76-108 | one caller's entry in one scope changes as decided, nothing else does, a failing cache admits |
| `Throttle.CounterIsStreak` | throttling.py:76-108 | the cached counter is the number of admissions without an hour's pause |
| `Throttle.AdmittedIff` | throttling.py:76-108 | admitted if and only if that streak is below the limit |
| `Throttle.BudgetHolds` | throttling.py:76-108 | at most the limit in any window shorter than an hour |
| `Throttle.RefusalsAreFree` | throttling.py:90-101 | a refusal changes nothing, and the wait it announces ends exactly when the entry expires |
| `Throttle.BudgetReturns` | throttling.py:76-108 | an hour after the last admission the full budget is back |
| `Throttle.SteadyCallerIsRefused` | throttling.py:76-108 | a caller refused with one admission in the past hour |

## Left out

- HTTP views other than the token decision, the cancel handler and the download, with serializers, DTOs, URLs, admin, translations and code generation: presentation.
- The ORM, Celery, the bus and the outbox transport: table updates and an event log stand for them.
- Storage, ZIP building, bucket paths and file permissions: foreign I/O; export completeness is about DONE parts, so a failed bucket download is not visible.
- HMAC, SHA-256 and token signing: a token is an opaque value or a decoded payload.
- Boot checks, declaration discovery, migrations, mails, the DSAR staff workflow, owner probes, inactivity and retention jobs: little state, no hard invariant.
- Whitespace trimming of names: names are taken as already trimmed.
- `uuid4` and `token_urlsafe`: drawn values are arguments assumed fresh where the machine needs it.
- The text of local receipts (owner and timestamp) and of the re-queue note: a fixed string stands for each.
- Lists that are sorted only for display: they are sets here.
- Database failures inside `_maybe_finalize`, between the request's save and the closure's save: a certification is one write.
- Stale in-memory rows: outside the modules that split calls, a method is one step, and `Accounts.OneActiveClosure` is about such steps.
- Post-commit clean-up of an assembly is taken not to fail, and a worker that dies while assembling leaves the row ASSEMBLING: no liveness is claimed.
- The label of an archive is evaluated at one instant, where the code reads parts several times.
- `unanswered_owners` and the FAILED slot state, which no modelled code writes: a display and an unused value.
- Liveness of closures left in DELETING: none is claimed beyond `Accounts.ClosableIff`.

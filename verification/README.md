# Verified model of the fiscal document collector

The repository collects Brazilian fiscal documents. This project models the parts of it that carry real state
machines, and two small codecs, and proves what they promise. Each module follows one service:

| modules | what they model |
|---|---|
| `NsuServer` | the SEF/SC distribution service as a collector sees it |
| `NfceScControl`, `NfceScRuns`, `NfceScRecovery`, `NfceScProgress`, `NfceScRecoveryProgress`, `NfceScService`, `NfceScFilter` | the NFC-e collector: main mode and interval recovery over one control row |
| `NfeScControl`, `NfeScRuns`, `NfeScProgress`, `NfeScService`, `NfeScFilter` | the NF-e collector with its per-document ledger |
| `RequestLimits` | its eight request slots and its start-rate limiter |
| `NfeAutomacao`, `NfeManifestacao`, `NfeManifestacaoRuns`, `NfeManifestacaoResults`, `NfeManifestacaoMeaning`, `NfeManifestacaoConcurrency`, `NfeManifestacaoService` | manifestation of the recipient of an NF-e and the authorisation of automatic Science |
| `AccessKey` | the check digit of an access key |
| `CteListing`, `CteKeys`, `CteCollapse`, `CteFilter` | the CT-e listing: collapse of duplicates, rewriting of query filters |
| `CancellationRepair`, `CancellationRepairScript`, `CancellationRepairResults` | the repair script for stale NFS-e cancellations |
| `Texts` | trimming of white space |
| `Sessions`, `AccessTimeReport` | login sessions and the access-time report |
| `XmlEntities` | escaping and decoding of XML entities (XML 1.0, section 4.6) |

Where the source changes rows, fields, arrays or maps step by step, a class or a method with loops does the same
and is proved against functions on values; what the source promises is then proved about those functions, and for
the protocols about every run of a transition system whose steps are single database statements or single calls.

## Assumptions

- The SEF/SC service holds a finite set of positive NSUs that only grows above what it already has. A download above
  a cursor returns the fifty smallest NSUs above it, or code 117 when there are none; it may also refuse or fail.
  Every entry of a lot decodes. Under this model the filtering and sorting of a recovery lot change nothing. The
  set is the one that the control's filter (issuer, recipient, either, both) selects, and `NfceScRuns` and `NfeScRuns`
  keep one filter throughout. `NfceScFilter` and `NfeScFilter` let it change, with every execution keeping the filter
  it has read, and assume nothing about how the sets of two filters are related.
- A lease, which is an instant, is never issued twice to the same control. Persisting a document is idempotent and
  may fail at any document; an execution may vanish between any two steps.
- The NFC-e runs hold for any number of processes: the in-memory set of running controls only ever suppresses a
  start, which the model covers by letting a started execution vanish. The NF-e runs hold for one process, whose
  expiry sweep reuses the expired lease and relies on that set.
- A manifestation call checks and creates in one step, an answer or a reconciliation is one step, and imported
  events are arbitrary in every step. The unique indexes of the attempts table are part of the model, and an update
  that breaks one is refused. `NfeManifestacaoConcurrency` takes check and creation apart, with other steps in
  between, and says what is left of the limit; there the random request id of an automatic check is a fresh one.
- Each session call is one step that reads the clock once; the clock never goes back. Tokens stand for their hashes.
- The repair script sees every document with a unique pair of ambiente and key, as the schema demands.

## Where the code falls short

Each of these is proved, with the exact condition where there is one.

- A resend of Science whose answers are both lost blocks its document for good: the unique index lets only one of
  the two attempts become accepted, reconciliation fails on the other on every call, and while it is pending no
  manifestation of any kind goes out (`ResendCanBlock`, `BlockedForever`, `ReconcilesFullyExactly`).
- A late answer overwrites an official confirmation: an accepted attempt keeps its row on every later run exactly
  when no answer to it is outstanding (`AcceptanceIsFinalExactly`).
- A duplicate (573) is kept open for reconciliation on the manual path and recorded as rejected on the automatic one
  (`PathsDifferExactlyOnDuplicates`).
- Conclusive requests of different types that are checked on one table before any is created all get through.
  Without accepted conclusive events from the distribution, k of them keep the limit of two exactly when what was
  accepted before and k add up to at most two (`CheckedTogetherCount`); in general exactly when the sum foreseen on
  that table does (`CheckedTogetherExactly`). A second request of one type is refused (`SameTypeIsRefused`), and
  as long as no creation is overtaken by another one for its document the limit holds (`LimitHoldsUnlessOvertaken`).
- The repair script's own description keeps the date of a cancellation that has genuine evidence. It clears it when
  the evidence is relinked from the same page of 200 or a later one; the condition is read off the database before
  the run (`DateClearedThoughGenuine`, `RepairedExactly`, `DateIsLostWithinAPage`).
- The NFC-e collector lets its filter change and keeps the cursor: what the new filter selects at or below the
  cursor is never fetched by the main mode, nor by what was under way, and is complete exactly when it was there
  already (`FilterChangeSkipsExactly`).
- A recovery request that read the row before another request carried the same interval on, and is written after it,
  takes cursor and total back to what it read (`OvertakenRequestFallsBack`, and exactly then,
  `RequestGoesOnWhereItRead`); without such an overtaken request no progress is lost (`ProgressIsNeverLost`).
- The guard of the NF-e collector, which lets the filter change only at cursor zero, is not enough. An execution that
  was paused while it held or awaited a lot still writes one entry under the filter it read
  (`PausedExecutionLeavesItsEntry`), and the guard is checked before the filter is written, so that the cursor can
  move in between (`GuardIsOvertaken`). After a filter is applied the control stays in step with it exactly when cursor,
  total and ledger, together with that pending entry, are in step with it already (`ApplyingKeepsLedgerExactly`); at
  cursor zero, when what the ledger holds and what is pending comes first under the new filter, and no download under
  the old one still waits for its first document (`GuardKeepsLedgerExactly`).
- The access-time report counts no session as active, ever: the end of an open session is capped at the present
  (`ActiveSessionsAreNeverCounted`).
- The check digit misses errors exactly when it is zero and the wrong key's remainder is 0 or 1 (`ChangedDigit`,
  `SwappedDigits`).
- Two CT-e documents of one ambiente that carry no data besides their keys fold into one output of the listing
  (`BlankDocumentsCollapse`, with `SharesExactly` for when documents fold at all), and two whose data only reads the
  same, because a field has a colon in it, share a key (`SnapshotsCanCollide`). Sharing a key is not transitive
  (`CopiesAreNotTransitive`), and two outputs of the listing can share one (`OutputsCanShare`). Documents that share a
  key all meet in one output exactly when every document that shares keys with two earlier ones finds them already
  joined by a chain of shared keys among the earlier ones (`CopiesMeetExactly`).
- Outside the shapes the services build, removing event clauses from a filter can lose or gain rows
  (`MixedOrLosesRows`, `VacuousNotAndEmptyOrGainRows`); at one OR and at one NOT the rows are exactly known
  (`MixedOrLosesExactly`, `MixedOrKeepsExactly`, `EmptiedOrKeepsExactly`, `NotForgetsVacuous`, `NotKeepsExactly`).

## Model

| member | source | states |
|---|---|---|
| NsuServer.LotIsConsecutive | src/modules/nfe-sc/nfe-sc.service.ts:325-335 | a lot leaves no gap, holds at most fifty entries, and is shorter only when nothing is left above it |
| NsuServer.LotConsumes | src/modules/nfce-sc/nfce-sc.service.ts:761-780 | after a full lot fifty fewer NSUs are waiting, after a shorter one none |
| NfceScControl.RecoveredLot | src/modules/nfce-sc/nfce-sc.service.ts:575-636 | what recovery persists of a lot is exactly the interval up to the cursor it stores, also when the lot runs beyond the interval |
| NfceScControl.RefusalKeepsCursor | src/modules/nfce-sc/nfce-sc.service.ts:771-811 | a refused download keeps cursor and total, gives up the lease, and waits one hour under an error status, or twelve active without documents; only a 9999 may be retried at once |
| NfceScControl.CommitMeans | src/modules/nfce-sc/nfce-sc.service.ts:764-814 | what every result of a download leaves: lease after a full lot, otherwise the status by result and the exact instant from which the next run, or a recovery, can start |
| NfceScControl.StopMainMeans | src/modules/nfce-sc/nfce-sc.service.ts:818-831 | a failed execution keeps cursor and total and can be followed by another from an hour later, at once after a 9999 |
| NfceScControl.StopRecoveryMeans | src/modules/nfce-sc/nfce-sc.service.ts:668-685 | a failed recovery keeps interval, cursor and total, and the control can be used again from an hour later |
| NfceScControl.ConclusionMeans | src/modules/nfce-sc/nfce-sc.service.ts:612-666 | a lot concludes the recovery exactly when it goes beyond the interval, reaches its end or is short; then the control can be used from twelve hours later |
| NfceScControl.PauseMeans | src/modules/nfce-sc/nfce-sc.service.ts:307-326 | a pause keeps what both modes have done, and the control can be used at once |
| NfceScControl.ClaimsAreSwept | src/modules/nfce-sc/nfce-sc.service.ts:833-885 | a claim holds for five minutes and is swept exactly from then on |
| NfceScControl.RenewalsMean | src/modules/nfce-sc/nfce-sc.service.ts:532-543 | only the holder renews a lease and moves nothing else; a sweep takes it over in the same way |
| NfceScControl.ConfigurationMeans | src/modules/nfce-sc/nfce-sc.service.ts:290-304 | a configuration makes the control startable at once and keeps all progress |
| NfceScControl.ReplyMeans | src/modules/nfce-sc/nfce-sc.service.ts:764-780 | 117 exactly when nothing is above the cursor, otherwise 118 with documents |
| NfceScRuns.NextKeepsInv | src/modules/nfce-sc/nfce-sc.service.ts:240-465 | every step of every execution, call, sweep and publication keeps the invariant of row, store and local states |
| NfceScRuns.RecoveryIsExact | src/modules/nfce-sc/nfce-sc.service.ts:412-685 | on every run the recovery cursor stays inside its interval, its total is the number of NSUs passed, all persisted; once concluded that is the whole interval |
| NfceScRuns.MainIsExact | src/modules/nfce-sc/nfce-sc.service.ts:712-816 | on every run everything up to the main cursor is persisted and counted exactly once |
| NfceScRuns.OneHolder | src/modules/nfce-sc/nfce-sc.service.ts:342-448 | main and recovery never run together and at most one execution holds the stored lease of either |
| NfceScRuns.OnlyHolderCommitsMain | src/modules/nfce-sc/nfce-sc.service.ts:800-814 | only the holder of the main lease moves the main cursor or total, and never backwards |
| NfceScRuns.OnlyHolderCommitsRecovery | src/modules/nfce-sc/nfce-sc.service.ts:620-637 | only the holder of the recovery lease, or a new request, moves the recovery cursor or total |
| NfceScRuns.CursorNeverDecreases | src/modules/nfce-sc/nfce-sc.service.ts:743-755 | over any run the main cursor, its total and the store never shrink |
| NfceScRuns.RecoveryLeavesMainAlone | src/modules/nfce-sc/nfce-sc.service.ts:503-685 | while a recovery runs, up to the step that ends it, main cursor and total stay as they were |
| NfceScRuns.FullLotsAdvance | src/modules/nfce-sc/nfce-sc.service.ts:604-611 | in every reachable state the guards against a full lot that does not advance are dead, in both modes |
| NfceScProgress.NoDeadEnd | src/modules/nfce-sc/nfce-sc.service.ts:307-383 | from every state in order, whatever runs or holds a lease, some run stores and counts everything that is published |
| NfceScProgress.MainCanFinish | src/modules/nfce-sc/nfce-sc.service.ts:712-816 | an execution that holds the lease can bring everything in |
| NfceScProgress.ExpiredMainIsFinished | src/modules/nfce-sc/nfce-sc.service.ts:866-885 | an expired lease is taken over by one sweep and the work goes on to its end |
| NfceScProgress.FailedDownloadStops | src/modules/nfce-sc/nfce-sc.service.ts:732-744 | a failed download gives the lease up, keeps cursor, total and store, and waits an hour in error |
| NfceScProgress.RefusedDownloadStops | src/modules/nfce-sc/nfce-sc.service.ts:771-811 | so does a refused one, under the status that the refusal calls for |
| NfceScProgress.FailedPersistStops | src/modules/nfce-sc/nfce-sc.service.ts:747-762 | so does a document that cannot be stored; what was stored before it stays |
| NfceScProgress.LoserOfMainStops | src/modules/nfce-sc/nfce-sc.service.ts:717-728 | an execution whose lease is no longer stored stops at its next look and changes nothing in the row |
| NfceScProgress.CallsAreChecked | src/modules/nfce-sc/nfce-sc.service.ts:275-411 | the calls of the runs begin exactly past the checks of their service methods |
| NfceScRecoveryProgress.NoIntervalIsLost | src/modules/nfce-sc/nfce-sc.service.ts:385-639 | from every state in order some run concludes the recovery of any valid interval, with all of it stored and counted and the main mode as it was |
| NfceScRecoveryProgress.RecoveryCanFinish | src/modules/nfce-sc/nfce-sc.service.ts:503-639 | a recovery that holds the lease can bring in the rest of its interval |
| NfceScRecoveryProgress.ExpiredRecoveryIsFinished | src/modules/nfce-sc/nfce-sc.service.ts:836-864 | an expired lease of a recovery is taken over by one sweep and the work goes on where it stood |
| NfceScRecoveryProgress.FailedRecoveryStops | src/modules/nfce-sc/nfce-sc.service.ts:545-574 | a failed or refused download leaves the recovery in error where it stood, to be resumed an hour later |
| NfceScRecoveryProgress.CrashedRecoveryStops | src/modules/nfce-sc/nfce-sc.service.ts:484-501 | so does a document that cannot be stored, through the lease that the handler reads |
| NfceScRecoveryProgress.LoserOfRecoveryStops | src/modules/nfce-sc/nfce-sc.service.ts:505-543 | an execution whose lease is no longer stored stops and changes nothing in the row |
| NfceScRecovery.RequestGoesOnWhereItRead | src/modules/nfce-sc/nfce-sc.service.ts:412-446 | a request that names an interval that is running or stopped midway, by a pause or an error, goes on with cursor and total as it read them; any other starts just below its first NSU with total zero; the stored cursor falls back exactly when it moved in between |
| NfceScRecovery.ProgressIsNeverLost | src/modules/nfce-sc/nfce-sc.service.ts:412-446 | over every run whose requests name the stored interval and are not overtaken, its cursor and total never decrease until it is concluded, whatever pauses, errors, crashes and expiries interleave |
| NfceScRecovery.OvertakenRequestFallsBack | src/modules/nfce-sc/nfce-sc.service.ts:385-446 | an overtaken request takes the cursor of a concluded interval back |
| NfceScService.Collector.SetUp | src/modules/nfce-sc/nfce-sc.service.ts:240-305 | refused in either running mode; otherwise the control is active, due and startable at every instant, with no lease in force; cursor, total and the recovery fields are kept either way |
| NfceScService.Collector.PauseAll | src/modules/nfce-sc/nfce-sc.service.ts:307-326 | after a pause no lease of either mode is held |
| NfceScService.Collector.Run | src/modules/nfce-sc/nfce-sc.service.ts:328-383 | starts exactly when no mode runs and the control is due or its last error was 9999, and then holds the main lease for five minutes; each refusal has its own ground |
| NfceScService.Collector.ReprocessNsus | src/modules/nfce-sc/nfce-sc.service.ts:385-465 | starts exactly for a valid interval below the main cursor on an idle, due control; an interval that stopped midway goes on where it stopped, any other starts just below its first NSU with total zero; each refusal has its own ground |
| NfceScService.Collector.ProcessBatch | src/modules/nfce-sc/nfce-sc.service.ts:716-815 | one turn persists and counts one lot, moves the cursor to its end, and goes on exactly after a full lot |
| NfceScService.Collector.ProcessAllAvailableBatches | src/modules/nfce-sc/nfce-sc.service.ts:712-816 | with k documents waiting an undisturbed execution downloads floor(k/50)+1 times, persists and counts exactly those, and leaves nothing waiting |
| NfceScService.Collector.StoreInRange | src/modules/nfce-sc/nfce-sc.service.ts:589-602 | persists exactly the documents before the first one beyond the interval |
| NfceScService.Collector.RecoverBatch | src/modules/nfce-sc/nfce-sc.service.ts:505-638 | one turn of the recovery loop, with all its ways to conclude |
| NfceScService.Collector.ProcessNsuRecovery | src/modules/nfce-sc/nfce-sc.service.ts:503-639 | an undisturbed recovery persists and counts exactly its interval, leaves the main cursor alone, and needs an exact number of downloads |
| NfceScFilter.FilterChangeSkipsExactly | src/modules/nfce-sc/nfce-sc.service.ts:294-301 | after the filter changed under a kept cursor, with any executions still under way, what it selects at or below the cursor is all there on a later run of the main mode if and only if it was all there at the change |
| NfceScFilter.ConfigurationWrites | src/modules/nfce-sc/nfce-sc.service.ts:294-301 | writing a configuration makes the control active and due with the new filter and keeps cursor, total and what is under way |
| NfeScRuns.NextKeepsInv | src/modules/nfe-sc/nfe-sc.service.ts:290-460 | every step in one process keeps cursor, total, ledger and worker in step |
| NfeScRuns.LedgerIsExact | src/modules/nfe-sc/nfe-sc.service.ts:331-363 | on every run the ledger is exactly the NSUs up to the cursor, plus at most the next one; the total is their number |
| NfeScRuns.CursorMovesToNextOnly | src/modules/nfe-sc/nfe-sc.service.ts:345-356 | one step moves the cursor to the very next NSU or not at all, and only under the stored lease |
| NfeScRuns.CursorNeverDecreases | src/modules/nfe-sc/nfe-sc.service.ts:237-288 | whatever pause, configuration, start, sweep or failure interleaves, cursor and ledger never shrink |
| NfeScRuns.DormantUntilConfigured | src/modules/nfe-sc/nfe-sc.service.ts:263-284 | after a pause, or a completion with code 632, no start, sweep, restart or execution still under way brings the control back or moves its cursor; only a new configuration does |
| NfeScRuns.WhatMakesDormant | src/modules/nfe-sc/nfe-sc.service.ts:237-245 | a step puts a control to rest if and only if it is a pause or a completion with code 632 under the stored lease |
| NfeScRuns.LotsAreInOrder | src/modules/nfe-sc/nfe-sc.service.ts:325-369 | the guards against an empty or oversized lot, an NSU out of order and a lot that does not advance are dead |
| NfeScProgress.NoDeadEnd | src/modules/nfe-sc/nfe-sc.service.ts:237-288 | from every state in order some run ends with the ledger exactly what is published, all stored and counted |
| NfeScProgress.CanFinish | src/modules/nfe-sc/nfe-sc.service.ts:290-400 | an execution that holds the lease can bring everything in |
| NfeScProgress.ExpiredIsFinished | src/modules/nfe-sc/nfe-sc.service.ts:415-424 | an expired lease whose execution is gone is taken over by the sweep and the work goes on to its end |
| NfeScProgress.FailedDownloadStops | src/modules/nfe-sc/nfe-sc.service.ts:318-320 | a failed download gives the lease up, keeps everything recorded, and waits an hour in error |
| NfeScProgress.RefusedDownloadCompletes | src/modules/nfe-sc/nfe-sc.service.ts:384-399 | a refused one ends the execution with the completion of its code |
| NfeScProgress.FailedDocumentStops | src/modules/nfe-sc/nfe-sc.service.ts:336-360 | so does a document that cannot be stored; what was recorded before it stays |
| NfeScProgress.CrashStops | src/modules/nfe-sc/nfe-sc.service.ts:448-460 | an unexpected failure stops whatever lease the handler finds |
| NfeScProgress.LosersStop | src/modules/nfe-sc/nfe-sc.service.ts:293-304 | an execution whose lease is no longer stored stops and changes nothing but the entry of a document already filed |
| NfeScProgress.CallsAreChecked | src/modules/nfe-sc/nfe-sc.service.ts:187-258 | the calls of the runs begin exactly past the checks of their service methods |
| NfeScControl.CompletionMeans | src/modules/nfe-sc/nfe-sc.service.ts:384-399 | what every result of a download leaves: the status by result, and the exact instant from which the control can be started again, never after 632 |
| NfeScControl.StopMeans | src/modules/nfe-sc/nfe-sc.service.ts:402-413 | a failed execution keeps cursor and total and can be followed by another from an hour later |
| NfeScControl.ClaimMeans | src/modules/nfe-sc/nfe-sc.service.ts:259-284 | a claim or a renewal holds the control for five minutes; the check before it refuses no control that could be claimed |
| NfeScService.Collector.PauseControl | src/modules/nfe-sc/nfe-sc.service.ts:237-248 | after a pause no lease is held |
| NfeScService.Collector.Run | src/modules/nfe-sc/nfe-sc.service.ts:250-288 | starts exactly when idle and due, and without a due date only when active; each refusal has its own ground |
| NfeScService.Collector.StoreLot | src/modules/nfe-sc/nfe-sc.service.ts:330-363 | commits documents one by one and stops before the first that is not above the cursor, keeping what came before |
| NfeScService.Collector.ProcessBatch | src/modules/nfe-sc/nfe-sc.service.ts:293-399 | one turn records one lot in ledger and store and goes on exactly after a full lot |
| NfeScService.Collector.ProcessAllAvailableBatches | src/modules/nfe-sc/nfe-sc.service.ts:290-400 | with k documents waiting an undisturbed execution downloads floor(k/50)+1 times and records exactly those |
| NfeScFilter.GuardKeepsLedgerExactly | src/modules/nfe-sc/nfe-sc.service.ts:187-192 | at cursor zero, in any reachable state, an applied filter keeps ledger, cursor and total in step on every later run if and only if what the ledger holds and what a paused execution has pending comes first under it, and no such execution waits for a first document |
| NfeScFilter.WithoutGuardEntriesAreMissing | src/modules/nfe-sc/nfe-sc.service.ts:190-192 | above zero a newly selected document at or below the cursor that the ledger lacks puts it out of step |
| NfeScFilter.ConfigurationMeans | src/modules/nfe-sc/nfe-sc.service.ts:187-219 | a configuration passes only while the control does not run, and with another filter only at cursor zero; written, it makes the control active with that filter and keeps cursor, total, ledger and what is under way |
| NfeScFilter.ApplyingKeepsLedgerExactly | src/modules/nfe-sc/nfe-sc.service.ts:194-234 | an applied filter, whatever state a run has reached, keeps the control in step with it on every later run if and only if cursor, total and ledger with the pending entry are in step with it before |
| NfeScFilter.StaysInStepExactly | src/modules/nfe-sc/nfe-sc.service.ts:290-363 | the same without a change: a control stays in step with its filter if and only if it is in step with it, the pending entry included |
| NfeScFilter.FittingRunsAreInStep | src/modules/nfe-sc/nfe-sc.service.ts:290-363 | on a run in which every applied filter fits, the ledger is exact for the filter of the row at every moment |
| NfeScFilter.PausedExecutionLeavesItsEntry | src/modules/nfe-sc/nfe-sc.service.ts:345-358 | a run from a new control to a pause at cursor zero with an empty ledger, where the guard lets another filter through and the old entry follows |
| NfeScFilter.GuardIsOvertaken | src/modules/nfe-sc/nfe-sc.service.ts:176-194 | a run in which the guard is checked at cursor zero and the filter is written at cursor one |
| RequestLimits.SlotsStayGood | src/modules/nfe-sc/nfe-sc.service.ts:476-496 | over any acquires and releases, repeated ones too: the counter is the number of unreleased grants, at most eight, granted in order of arrival, and nobody waits while a slot is free |
| RequestLimits.ClampNeverActs | src/modules/nfe-sc/nfe-sc.service.ts:489-494 | the lower clamp on the counter never takes effect |
| RequestLimits.SlotsMean | src/modules/nfe-sc/nfe-sc.service.ts:476-496 | an acquire is granted at once exactly while fewer than eight grants are unreleased; a first release hands the slot to the first who waits or frees it, any other does nothing |
| RequestLimits.WaitMeans | src/modules/nfe-sc/nfe-sc.service.ts:466-473 | the wait ends 125 ms after the last start, or at once if that has passed |
| RequestLimits.RequestSlots.AcquireRequestSlot | src/modules/nfe-sc/nfe-sc.service.ts:476-482 | is the acquire step on the fields of the service, and is immediate exactly when the slot is granted |
| RequestLimits.RequestSlots.ReleaseRequestSlot | src/modules/nfe-sc/nfe-sc.service.ts:484-496 | is the release step on the fields of the service, and does nothing the second time |
| RequestLimits.WindowIsBounded | src/modules/nfe-sc/nfe-sc.service.ts:462-474 | starts that are 125 ms apart put at most ceil(W/125) into any window of W ms |
| RequestLimits.StartRateIsBounded | src/modules/nfe-sc/nfe-sc.service.ts:462-474 | over any run starts are in order of arrival, at least 125 ms apart, at most ceil(W/125) in W ms and eight in a second |
| RequestLimits.RequestStartQueue.StartFirst | src/modules/nfe-sc/nfe-sc.service.ts:466-473 | the first caller in the queue starts, at least 125 ms after the last start |
| NfeAutomacao.RunKeepsGood | src/modules/nfe/nfe-manifestacao.service.ts:117-254 | in every run the authorisation is active exactly when Science is automatic and when the trail's last grant or revocation is a grant; an active one has its date, the current term and no revocation; every trail entry is faithful |
| NfeAutomacao.NoSilentChange | src/modules/nfe/nfe-manifestacao.service.ts:139-190 | switching the authorisation on or off always leaves the matching entry, and only an express update under the current term switches it on |
| NfeAutomacao.UpdateTakesEffect | src/modules/nfe/nfe-manifestacao.service.ts:126-183 | an update is refused exactly without express acceptance of the current term; accepted, Science, recovery and authorisation are as asked, with the dates, users and term of a grant or a withdrawal |
| NfeAutomacao.UpdateIsRecorded | src/modules/nfe/nfe-manifestacao.service.ts:141-189 | every accepted update adds one entry that says who decided what and what the row says since |
| NfeAutomacao.RevocationTakesEffect | src/modules/nfe/nfe-manifestacao.service.ts:223-254 | a revocation switches an existing row off, dates it, keeps the grant and recovery, and is recorded |
| NfeAutomacao.AutomationSettings.UpdateAutomationSettings | src/modules/nfe/nfe-manifestacao.service.ts:117-193 | refused exactly without express acceptance of the current term; otherwise row and trail change together |
| NfeAutomacao.AutomationSettings.RevokeAutomationAuthorization | src/modules/nfe/nfe-manifestacao.service.ts:223-254 | switches an existing row off and records it |
| NfeAutomacao.AutomationSettings.ScheduleManualRecovery | src/modules/nfe/nfe-manifestacao.service.ts:1263-1290 | leaves XML recovery switched on and everything else as it was: Science, the authorisation in force and the trail; row and trail go on agreeing |
| NfeManifestacao.PathsDifferExactlyOnDuplicates | src/modules/nfe/nfe-manifestacao.service.ts:952-958 | manual and automatic path record every answer alike except a duplicate |
| NfeManifestacaoMeaning.ManualAnswersMean | src/modules/nfe/nfe-manifestacao.service.ts:917-958 | which HTTP status, lot code and event code, or which error, leaves which status on the manual path |
| NfeManifestacaoMeaning.AutomaticAnswersMean | src/modules/nfe/nfe-manifestacao.service.ts:1096-1132 | the same for the automatic path |
| NfeManifestacaoMeaning.RegisteredScienceIsAccepted | src/modules/nfe/nfe-manifestacao.service.ts:952-977 | a Science whose answer says 200, 128 and 135 or 136 is accepted exactly if the document has no other one in transmission or accepted, and always while it is in transmission itself |
| NfeManifestacaoMeaning.NoScienceAfterwards | src/modules/nfe/nfe-manifestacao.service.ts:865-868 | from then on its row stays and no Science goes out for its document, on any run |
| NfeManifestacaoMeaning.PreparationMeans | src/modules/nfe/nfe-manifestacao.service.ts:513-577 | what preparing a recovery task comes to, outcome by outcome, read off the attempts and events |
| NfeManifestacaoMeaning.AutomaticSendsExactly | src/modules/nfe/nfe-manifestacao.service.ts:1008-1067 | automatic Science goes out if and only if client, document, eligibility, certificate, ten days and authorisation are there, nothing is pending or accepted, and there is no earlier Science or the latest failed locally |
| NfeManifestacaoMeaning.DecisionMeans | src/modules/nfe/nfe-manifestacao.service.ts:793-886 | a manual registration is refused with the first of its nineteen checks that fails, repeats the attempt of a used request id, or goes out with the next number |
| NfeManifestacaoMeaning.StaleMarkedExactly | src/modules/nfe/nfe-manifestacao.service.ts:713-727 | exactly the listed attempts in transmission for ten minutes become indeterminate |
| NfeManifestacaoMeaning.ReconciliationMeans | src/modules/nfe/nfe-manifestacao.service.ts:708-771 | a reconciliation touches only pending attempts of the document and client, which lose hope after ten minutes or are accepted as an imported event of their type and number says |
| NfeManifestacaoMeaning.OfficialIsFirst | src/modules/nfe/nfe-manifestacao.service.ts:733-738 | the official word is that of the first event that confirms the attempt |
| NfeManifestacaoMeaning.LastNumberIsHighest | src/modules/nfe/nfe-manifestacao.service.ts:856-882 | the last number of a type is the highest of its accepted attempts and events, one for an event without a number; those of the conclusive types add up to what counts towards the limit |
| NfeManifestacaoMeaning.OtherStepsMean | src/modules/nfe/nfe-manifestacao.service.ts:117-254 | a lost answer only ends the waiting for it, and a change of the settings only moves the row and trail of its scope |
| NfeManifestacaoRuns.NextKeepsInv | src/modules/nfe/nfe-manifestacao.service.ts:793-1006 | registrations, answers, lost answers, reconciliations and authorisation changes keep the invariant of the attempts |
| NfeManifestacaoRuns.ConclusiveManifestationsAreBounded | src/modules/nfe/nfe-manifestacao.service.ts:857-886 | on every run the highest accepted sequences of the three conclusive types add up to at most two, even if all that is unconfirmed is accepted later; every sequence sent is 1 or 2, of Science 1 |
| NfeManifestacaoRuns.TableStaysInOrder | src/modules/nfe/nfe-manifestacao.service.ts:888-915 | on every run at most one attempt per document is in transmission, at most one Science is in transmission or accepted, and no request id is sent twice |
| NfeManifestacaoRuns.SendDiscipline | src/modules/nfe/nfe-manifestacao.service.ts:825-872 | nothing goes out while something is in transmission, while an imported event is unclear, or while a result is unknown, except a confirmed resend of Science without imported Science; Science never follows an accepted event; an automatic send is Science under an authorisation in force for the document's own client, establishment and environment |
| NfeManifestacaoRuns.ManualSendsInOrder | src/modules/nfe/nfe-manifestacao.service.ts:816-886 | what the checks of a manual registration guarantee when they all pass |
| NfeManifestacaoRuns.SendsExactlyWhenDue | src/modules/nfe/nfe-manifestacao.service.ts:793-886 | a manual registration goes out if and only if all its conditions hold, whatever the order of the checks |
| NfeManifestacaoRuns.AutomaticSendsInOrder | src/modules/nfe/nfe-manifestacao.service.ts:513-540 | the automatic path repeats nothing that is pending |
| NfeManifestacaoRuns.AuthorisedMeans | src/modules/nfe/nfe-manifestacao.service.ts:1054-1067 | the authorisation read before an automatic send was expressly granted under the current term and not revoked since |
| NfeManifestacaoRuns.CreateNeverClashes | src/modules/nfe/nfe-manifestacao.service.ts:888-915 | in a run of single steps no index refuses an attempt that the checks let through |
| NfeManifestacaoRuns.SequenceNeverExhausted | src/modules/nfe/nfe-manifestacao.service.ts:881-886 | the last check on the sequence number never refuses anything |
| NfeManifestacaoRuns.RepeatedRequestSendsNothing | src/modules/nfe/nfe-manifestacao.service.ts:816-822 | a request id that was used sends nothing again |
| NfeManifestacaoResults.SettledIsFinal | src/modules/nfe/nfe-manifestacao.service.ts:959-977 | an attempt with a result and no outstanding answer never changes again |
| NfeManifestacaoResults.AcceptedOnOfficialWord | src/modules/nfe/nfe-manifestacao.service.ts:731-748 | reconciliation accepts an attempt only on an imported event of its type and number |
| NfeManifestacaoResults.ReconcilesFullyExactly | src/modules/nfe/nfe-manifestacao.service.ts:708-748 | reconciliation accepts everything the events confirm exactly unless they confirm Science and a pending Science attempt of the client has a rival |
| NfeManifestacaoResults.AcceptanceIsFinalExactly | src/modules/nfe/nfe-manifestacao.service.ts:961-977 | an accepted attempt keeps its row on every later run if and only if no answer to it is outstanding, on either path |
| NfeManifestacaoResults.ResendCanBlock | prisma/migrations/20261026180000_allow_confirmed_nfe_science_retry/migration.sql:6-10 | a Science and its resend, both answers lost, and one imported event lead to a document with an accepted and a forever unknown Science |
| NfeManifestacaoResults.BlockedForever | src/modules/nfe/nfe-manifestacao.service.ts:1546-1556 | for such a document nothing is ever sent again, on any run |
| NfeManifestacaoConcurrency.LimitHoldsUnlessOvertaken | src/modules/nfe/nfe-manifestacao.service.ts:825-915 | with check and creation apart and anything in between, the limit of two and one transmission per document hold as long as no creation is overtaken by another one for its document |
| NfeManifestacaoConcurrency.ScienceIsNeverLate | src/modules/nfe/nfe-manifestacao.service.ts:856-868 | on such runs Science is never created after an accepted Science or conclusive attempt of the document, nor against imported events that told of one when it was checked |
| NfeManifestacaoConcurrency.CheckedTogetherExactly | src/modules/nfe/nfe-manifestacao.service.ts:856-911 | any number of conclusive requests of different types checked on one table pass all indexes; what they come to is foreseen on that table, and the limit is kept if and only if that is at most two |
| NfeManifestacaoConcurrency.CheckedTogetherCount | src/modules/nfe/nfe-manifestacao.service.ts:856-886 | without accepted conclusive events, k of them end k above what was accepted, within the limit if and only if the two add up to at most two |
| NfeManifestacaoConcurrency.SameTypeIsRefused | prisma/migrations/20261026180000_allow_confirmed_nfe_science_retry/migration.sql:1-4 | the second of two requests of one type is never created while the first is in transmission |
| NfeManifestacaoConcurrency.ChecksThenCreations | src/modules/nfe/nfe-manifestacao.service.ts:888-915 | the run that checks all of them first and creates them afterwards ends in exactly the table these results are about |
| NfeManifestacaoConcurrency.SplitStepsMean | src/modules/nfe/nfe-manifestacao.service.ts:825-915 | a check remembers what its checks let through, a creation makes it if the indexes admit it |
| NfeManifestacaoService.HighestAttempt | src/modules/nfe/nfe-manifestacao.service.ts:881-881 | the reduce over accepted attempts is their highest sequence number |
| NfeManifestacaoService.HighestImported | src/modules/nfe/nfe-manifestacao.service.ts:882-882 | the reduce over accepted imported events is their highest number, one where it is missing |
| NfeManifestacaoService.ManifestacaoService.Registrar | src/modules/nfe/nfe-manifestacao.service.ts:793-915 | is the manual step of the runs, with the first failing check as its refusal |
| NfeManifestacaoService.ManifestacaoService.RegisterAutomaticScience | src/modules/nfe/nfe-manifestacao.service.ts:1008-1095 | is the automatic step of the runs, and says what becomes of the recovery task when nothing is sent |
| NfeManifestacaoService.ManifestacaoService.Answer | src/modules/nfe/nfe-manifestacao.service.ts:917-977 | is the answer step of the runs, including updates the database refuses; the automatic path does the same at lines 1096-1132, without the exception for a duplicate |
| NfeManifestacaoService.ManifestacaoService.ReconcileImportedManifestations | src/modules/nfe/nfe-manifestacao.service.ts:708-771 | the two reconciliation loops are the reconciliation step of the runs |
| AccessKey.IsValidAccessKey | src/modules/nfe/nfe-manifestacao.service.ts:1646-1657 | the loop accepts exactly the 44-digit keys whose last digit is the modulo-11 check digit of the weighted rest |
| AccessKey.ExactlyOneCheckDigit | src/modules/nfe/nfe-manifestacao.service.ts:1655-1657 | every 43-digit prefix has exactly one accepted last digit |
| AccessKey.ChangedDigit | src/modules/nfe/nfe-manifestacao.service.ts:1650-1657 | one wrong digit is missed exactly when the check digit is zero and the new remainder 0 or 1 |
| AccessKey.SwappedDigits | src/modules/nfe/nfe-manifestacao.service.ts:1650-1657 | the same for two distinct neighbouring digits exchanged |
| AccessKey.NonzeroCheckDigitDetects | src/modules/nfe/nfe-manifestacao.service.ts:1650-1657 | with a nonzero check digit no wrong digit and no exchange of neighbours is accepted |
| AccessKey.ZeroCheckDigitCanMiss | src/modules/nfe/nfe-manifestacao.service.ts:1655-1655 | a zero check digit does miss a wrong digit |
| CteCollapse.DeduplicateDocumentosForList | src/modules/cte/cte.service.ts:930-973 | every document is folded with an earlier one it shares a key with, if there is one, and opens a slot otherwise; each slot shows its earliest most preferred document; the output is their stable listing order; the slots are exactly the classes if and only if sharing is transitive |
| CteCollapse.SlotIsConnected | src/modules/cte/cte.service.ts:934-953 | any two documents folded into one output are joined by a chain of shared keys inside it |
| CteCollapse.RichestIsShown | src/modules/cte/cte.service.ts:945-949 | no document folded into an output has more fields filled than the one shown; among those with as many it is the last updated, then the last created, then the first |
| CteCollapse.OneOutputPerClass | src/modules/cte/cte.service.ts:934-953 | when sharing is transitive outputs share no key and every document has exactly one output of its class |
| CteCollapse.ClassesAreTransitive | src/modules/cte/cte.service.ts:934-953 | slots can only be the classes when sharing is transitive |
| CteCollapse.OutputsCanShare | src/modules/cte/cte.service.ts:934-953 | a third document that is a preferred copy of two that are no copies of one another leaves two outputs with a common key |
| CteCollapse.CopiesMeetExactly | src/modules/cte/cte.service.ts:934-953 | documents that share a key are all folded into one output if and only if any two earlier copies of a document are already joined by a chain of shared keys among the documents before it |
| CteCollapse.TogetherOutputsShareNothing | src/modules/cte/cte.service.ts:934-953 | and then no two outputs share a key |
| CteCollapse.SeparatedSlotsAreClasses | src/modules/cte/cte.service.ts:951-952 | slots whose keys the map keeps apart are exactly the classes of documents sharing a key |
| CteListing.SortIsOrderedPermutation | src/modules/cte/cte.service.ts:955-967 | the final sort is an ordered permutation of the selected documents and keeps documents with equal dates in their order |
| CteListing.PreferenceMeans | src/modules/cte/cte.service.ts:1073-1121 | a copy is preferred exactly when more of its thirteen fields are filled, or as many and it was updated later, or that too and it was created later |
| CteListing.ListingOrderMeans | src/modules/cte/cte.service.ts:955-967 | listing order is newest first: by issue, then creation, then update |
| CteKeys.SharesExactly | src/modules/cte/cte.service.ts:990-1051 | two documents share a key exactly when they have the same access key, a hash in common, or the same data, which without content only counts within one ambiente |
| CteKeys.TextMeans | src/modules/cte/cte.service.ts:991-993 | a text is the value without the blanks around it |
| CteKeys.SnapshotMeans | src/modules/cte/cte.service.ts:1022-1046 | for fields with equally many colons two snapshots are equal exactly when model, number, series, issue date, parties and value are |
| CteKeys.SnapshotsCanCollide | src/modules/cte/cte.service.ts:1037-1045 | otherwise they can be equal although the data differs |
| CteKeys.ContentMeans | src/modules/cte/cte.service.ts:1033-1048 | colons and blanks alone are no content |
| CteKeys.BlankDocumentsCollapse | src/modules/cte/cte.service.ts:1022-1035 | documents of one ambiente without data share a key whatever their access keys |
| CteKeys.CopiesAreNotTransitive | src/modules/cte/cte.service.ts:990-1051 | a document with the access key of one and a hash of another is a copy of both, which are no copies of one another |
| CteFilter.CleanedMentionsNoEvents | src/modules/cte/cte.service.ts:1329-1384 | the cleaned tree mentions events nowhere, whatever the tree |
| CteFilter.CleanedAwayIsVacuous | src/modules/cte/cte.service.ts:1383-1383 | a condition is cleaned away exactly when it says nothing about the columns |
| CteFilter.CleanKeepsMeaning | src/modules/cte/cte.service.ts:1329-1384 | on safe trees the cleaned filter matches exactly the rows the original matches with its event clauses taken as true |
| CteFilter.CleanNeverLosesRows | src/modules/cte/cte.service.ts:1329-1384 | on safe trees without events under NOT it never loses a row |
| CteFilter.ConjunctiveIsSafe | src/modules/cte/cte.service.ts:1342-1381 | event clauses in conjunctive positions only, without empty OR and empty conditions under OR or NOT, are such trees |
| CteFilter.CleanIsIdempotent | src/modules/cte/cte.service.ts:1329-1384 | cleaning twice is cleaning once |
| CteFilter.SyncFilterIsConjunctive | src/modules/cte/cte.service.ts:630-678 | every filter of the event synchronisation has that shape |
| CteFilter.SyncFilterMeans | src/modules/cte/cte.service.ts:630-678 | exactly which documents the synchronisation asks for |
| CteFilter.CleanedSyncFilter | src/modules/cte/cte.service.ts:643-645 | cleaning it gives the filter built without the restriction to documents that have no events |
| CteFilter.MixedOrLosesExactly | src/modules/cte/cte.service.ts:1358-1365 | at an OR of safe alternatives of which some but not all are cleaned away, the rows that remain are exactly those that an alternative with content matches |
| CteFilter.MixedOrKeepsExactly | src/modules/cte/cte.service.ts:1358-1365 | such an OR keeps its meaning on a row if and only if an alternative with content matches whenever one without does |
| CteFilter.NotForgetsVacuous | src/modules/cte/cte.service.ts:1367-1381 | at a NOT over safe operands the cleaned filter matches exactly the rows that no operand with content matches |
| CteFilter.NotKeepsExactly | src/modules/cte/cte.service.ts:1367-1381 | such a NOT keeps its meaning on a row if and only if an operand with content matches whenever one without does |
| CteFilter.SingleNotKeepsExactly | src/modules/cte/cte.service.ts:1374-1381 | a NOT over one safe operand keeps its meaning on a row if and only if the operand has content or does not match |
| CteFilter.EmptiedOrKeepsExactly | src/modules/cte/cte.service.ts:1358-1365 | an OR without content lets every row through once cleaned, while the original matches exactly the rows of one of its alternatives |
| CteFilter.MixedOrLosesRows | src/modules/cte/cte.service.ts:1358-1365 | an OR that mixes event and column clauses loses rows |
| CteFilter.VacuousNotAndEmptyOrGainRows | src/modules/cte/cte.service.ts:1362-1380 | an event clause under NOT and an empty OR let every row through |
| CancellationRepair.OneMoreRepair | scripts/fix-nfse-stale-cancelamento.js:233-257 | repairing one more document, read in an older state than it is changed in, adds exactly its own repair to what was repaired |
| CancellationRepair.OrphansStay | scripts/fix-nfse-stale-cancelamento.js:183-198 | repairing other documents never changes the orphans of a document |
| CancellationRepair.OwnEvidenceAfter | scripts/fix-nfse-stale-cancelamento.js:247-252 | a document's evidence afterwards is its own from before plus what was relinked to it |
| CancellationRepair.CancellationEventsAre | scripts/fix-nfse-stale-cancelamento.js:84-103 | an event counts exactly if, combining marks and casing aside, its trimmed type is e101101 or its type or description contains "cancelamento" or "cancelada" |
| CancellationRepairScript.NfseDatabase.RepairOrphans | scripts/fix-nfse-stale-cancelamento.js:241-257 | every orphan goes to the owner of its key or is deleted, each counted once |
| CancellationRepairScript.NfseDatabase.ProcessDocument | scripts/fix-nfse-stale-cancelamento.js:180-261 | what one document needs is judged by what the page read; all seven counters |
| CancellationRepairScript.NfseDatabase.ProcessPage | scripts/fix-nfse-stale-cancelamento.js:141-263 | one page of up to 200 documents, all read before the first is changed |
| CancellationRepairScript.NfseDatabase.FixStaleCancelamento | scripts/fix-nfse-stale-cancelamento.js:139-264 | the database ends with exactly the flagged documents repaired, or unchanged without `--apply`; the report counts them, their orphans, the documents confirmed by their own evidence and those left for review |
| CancellationRepairResults.EvidenceForEveryCancellation | scripts/fix-nfse-stale-cancelamento.js:186-196 | after a run every processed document that still looks cancelled without being marked so has a linked event of its own key |
| CancellationRepairResults.RepairedExactly | scripts/fix-nfse-stale-cancelamento.js:183-231 | a run repairs a document if and only if it looks cancelled without evidence of its own and no document repaired on an earlier page holds evidence for it, read off the database before the run |
| CancellationRepairResults.SettledIsKept | scripts/fix-nfse-stale-cancelamento.js:186-196 | a document marked cancelled, or linked to a cancellation event of its own key, is left as it is by a run, and so is that event |
| CancellationRepairResults.StaleDateIsCleared | scripts/fix-nfse-stale-cancelamento.js:233-239 | a listed document with a date, not marked cancelled, for whose key there is no cancellation event loses the date |
| CancellationRepairResults.EventFates | scripts/fix-nfse-stale-cancelamento.js:241-257 | an event is deleted exactly when it is an orphan cancellation of a repaired document without owner, relinked with one, untouched otherwise |
| CancellationRepairResults.DocumentFates | scripts/fix-nfse-stale-cancelamento.js:233-239 | only repaired documents change, only in their date; no status changes |
| CancellationRepairResults.SecondRunChangesNothing | scripts/fix-nfse-stale-cancelamento.js:139-264 | a second run flags nothing and changes nothing |
| CancellationRepairResults.DateClearedThoughGenuine | scripts/fix-nfse-stale-cancelamento.js:141-239 | a document loses its date and ends up with evidence if and only if it has a date, is repaired, and a repaired document of its own page or a later one holds the evidence, all read off the database before the run |
| CancellationRepairResults.DateIsLostWithinAPage | scripts/fix-nfse-stale-cancelamento.js:33-35 | that does happen |
| CancellationRepairResults.PagesAre | scripts/fix-nfse-stale-cancelamento.js:141-154 | pages hold two hundred documents |
| Sessions.RunKeepsGood | src/modules/auth/auth.service.ts:178-253 | in every run a session ends at most once, by logout or revocation, within its own lifetime |
| Sessions.EndedIsFinal | src/modules/auth/auth.service.ts:688-759 | a session that has ended never changes at all |
| Sessions.UnusableIsFinal | src/modules/auth/auth.service.ts:688-708 | an unusable session never becomes usable again, whatever is called |
| Sessions.RecordedEndIsExact | src/modules/auth/auth.service.ts:698-730 | the end recorded for an overdue session, however late it is noticed, is the instant at which it stopped being usable |
| Sessions.VerifiedIsFresh | src/modules/auth/auth.service.ts:747-759 | a successful interactive verification leaves a mark younger than the touch interval |
| Sessions.LifetimeUntouched | src/modules/auth/auth.service.ts:202-215 | exactly how long a login or a renewal carries a session, and that a logout ends it |
| Sessions.RefusedCallsLeaveNoTrace | src/modules/auth/auth.service.ts:178-200 | a refused call changes nothing but to revoke an overdue session, or to mark one seen whose user only was refused |
| Sessions.OneVerificationCarries | src/modules/auth/auth.service.ts:316-334 | after it, with passive use only, the session is usable for the idle time less the touch interval unless it expires, and unusable once the idle time has passed, however often it is renewed |
| Sessions.TokenWorksOnce | src/modules/auth/auth.service.ts:185-232 | a refresh token renews its session once |
| Sessions.VerificationMeans | src/modules/auth/auth.service.ts:284-334 | a verification succeeds exactly for a genuine, unexpired token, a session that is open and within its lifetime and idle time, and an accepted user who is the session's own |
| Sessions.RenewalMeans | src/modules/auth/auth.service.ts:178-232 | a renewal succeeds exactly for an accepted user of such a session with its token, and leaves the new token and lifetime |
| Sessions.VerificationMarks | src/modules/auth/auth.service.ts:747-759 | an accepted verification moves only the mark of last use, exactly when interactive and the mark is as old as the touch interval |
| Sessions.CallsAreLocal | src/modules/auth/auth.service.ts:237-253 | a call touches only the session it names; a reset ends exactly the open sessions of its user |
| Sessions.ResetEndsAllSessions | src/modules/auth/auth.service.ts:441-466 | after a password reset none of the user's sessions is ever usable again and nobody else's changed |
| Sessions.AuthService.EnsureSessionIsUsable | src/modules/auth/auth.service.ts:688-708 | says exactly whether the session is usable and leaves it checked |
| Sessions.AuthService.RefreshSession | src/modules/auth/auth.service.ts:178-232 | is the refresh call of the runs |
| Sessions.AuthService.VerifyAccessToken | src/modules/auth/auth.service.ts:284-334 | is the verification call of the runs: a token that is not genuine or has expired touches no session, and only the session's own user is accepted |
| Sessions.AuthService.LogoutSession | src/modules/auth/auth.service.ts:237-253 | is the logout call of the runs |
| Sessions.AuthService.ResetPasswordOf | src/modules/auth/auth.service.ts:441-466 | is the password reset of the runs |
| AccessTimeReport.OverlapIsIntersection | src/modules/auth/auth.service.ts:606-614 | the overlap is the part of the period the session covers, instant by instant |
| AccessTimeReport.CountedTimeIsUse | src/modules/auth/auth.service.ts:819-834 | a session counts up to its logout or else its revocation; an open one while it was usable and up to the present |
| AccessTimeReport.LeftOutHasNoOverlap | src/modules/auth/auth.service.ts:547-570 | a session the query leaves out has no time in the period |
| AccessTimeReport.QueryMeans | src/modules/auth/auth.service.ts:547-570 | the query asks for the sessions that began by the end of the period and do not end before it |
| AccessTimeReport.QueryKeepsReport | src/modules/auth/auth.service.ts:545-646 | the report over the queried sessions is the report over all sessions |
| AccessTimeReport.ListAccessTimeReport | src/modules/auth/auth.service.ts:588-654 | each row sums up exactly its user's positive overlaps; the rows' sessions and durations add up to those of all sessions; the rows come by duration, then by name |
| AccessTimeReport.GroupSessions | src/modules/auth/auth.service.ts:605-646 | the loop over the sessions computes exactly the rows the report is defined by |
| AccessTimeReport.SortKeepsSums | src/modules/auth/auth.service.ts:648-654 | the final sort is ordered, lists every user once and keeps the totals |
| AccessTimeReport.ActiveSessionsAreNeverCounted | src/modules/auth/auth.service.ts:804-834 | the count of active sessions is zero in every row of every report |
| AccessTimeReport.ReportIsUnique | src/modules/auth/auth.service.ts:591-646 | there is only one report for given sessions |
| AccessTimeReport.NoticedExpiryChangesNothing | src/modules/auth/auth.service.ts:815-834 | the report does not depend on whether an overdue session was already noticed and revoked |
| XmlEntities.EscapeIsWithEntities | src/integrations/nfe-distribuicao/real-nfe-distribuicao.client.ts:475-482 | the escaping passes write exactly the special characters as entities |
| XmlEntities.PatternIsFound | src/integrations/nfe-distribuicao/real-nfe-distribuicao.client.ts:978-985 | an entity is decoded in any casing of its letters |
| XmlEntities.DecodeUndoes | src/integrations/nfe-distribuicao/real-nfe-distribuicao.client.ts:978-985 | the five decoding passes undo any writing that covers the ampersand |
| XmlEntities.RoundTrip | src/integrations/cte-consulta/real-cte-consulta.client.ts:617-624 | decoding undoes the five-entity and the three-entity escape for every text |
| XmlEntities.EscapeIsInjective | src/integrations/cte-consulta/real-cte-consulta.client.ts:582-587 | different texts are never escaped to the same text |

## Left out

- TLS, SOAP, HTTP, gzip, certificates, the file store and the database client: foreign calls, replaced by the service, row and persist steps above; certificate and eligibility checks are inputs of a call.
- NFC-e entries that do not decode, which its client drops silently (src/integrations/nfce-sc/real-nfce-sc.client.ts:217): outside the server assumption, and then an NSU passed is not an NSU persisted.
- NF-e collector across processes: its sweep does not claim a new lease, so nothing is claimed for more than one process.
- Messages, diagnostics, logs and last-execution dates: no branch depends on them except the 9999 prefix, which is modelled.
- Interleaving inside one manifestation or session call: each call is one step, apart from the time between sending and answering and the time between checking and creating.
- Statuses of the XML recovery tasks: they depend on `nfe.service.ts`, which is not part of this model.
- The establishment check before a change of the automation settings and the fields of an attempt that no check reads.
- Creation times of attempts: the instant of sending stands for them where the latest Science is sought.
- Unicode in the repair script: texts are taken as already decomposed, so that only combining marks are left to remove, and letters are lowered in ASCII only.
- The item lists of the repair report: they repeat documents that are counted.
- User fields of the access-time report: copied, never computed with; the order of names is a parameter.
- Three-valued logic of the database: a column condition under NOT is true or false here, never unknown as over a null column.
- CteFilter.CleanKeepsMeaning: safety is sufficient, not necessary, for a whole tree, because necessity depends on which column conditions are tautologies or exclude one another; at one OR and at one NOT the condition is exact (`MixedOrKeepsExactly`, `EmptiedOrKeepsExactly`, `NotKeepsExactly`).
- Recovery under a changed NFC-e filter: `FilterChangeSkipsExactly` is about the main mode, since a recovery requested afterwards can fetch what was skipped.
- Invalid dates: every date in the model is a number.
- Regular-expression XML parsers, password hashing and token signatures: the first would be about a regex engine, the others are libraries.
- Controllers, DTOs, alerts and the frontend: thin.

# Simple Linux Updater: verified model of its critical logic

Simple Linux Updater manages package updates on a fleet of servers. This project models the parts of it
whose mistakes would lose data or let someone in, and proves what they promise over every input and every
run: scheduled backups, backup retention, restore as a fault-tolerant transaction, the encrypted archive
format, sign-in sessions and second factors, rate limiting, vulnerability-scan cancellation and the audit
sanitizer. `dafny verify dfyconfig.toml` checks everything.

| modules | what they model |
|---|---|
| `CivilTime` | wall-clock times across daylight-saving changes; the next backup occurrence |
| `Scheduler`, `SchedulerMachine`, `SchedulerRuns`, `SchedulerAdmission`, `SchedulerOutcomes` | the durable backup state machine, with save failures and crashes at any point; the program's methods; what every run keeps; the shared-lock check; what each tick leaves behind |
| `Retention` | removal of old archives |
| `Restore`, `RestoreLifecycle` | replacing live files with rollback, every step able to fail; the maintenance window around it |
| `Common` | what several modules share |
| `Sessions`, `SessionRuns`, `LoginRuns` | session, account and tombstone tables with their triggers; every interleaving of requests, account changes and restores, as the tables alone guard it; logins in flight |
| `LeasedRuns`, `Revocations` | the same under the maintenance leases that keep restores and requests apart, as the service runs; what each transaction takes away |
| `Windows`, `RateLimiter`, `Factors`, `Tallies`, `FactorRuns` | fixed-window limits; one-time codes, recovery codes and login challenges; attempt counters that a restore replaces |
| `Scans` | cancel against commit, and capacity slots |
| `JsonStrings`, `JsonValues`, `JsonReader` | the streaming JSON readers and the grammar they must undo |
| `Base64`, `Envelope`, `EnvelopeParser`, `EnvelopeFields`, `EnvelopeWriter` | the encrypted archive's envelope: parser, meaning of its fields, writer, round trip |
| `NameLists`, `Archives` | the two archive inspectors and the builder |
| `MetaJson`, `AuditText`, `Redaction`, `RetainedMeta`, `Previews` | audit metadata: encoding and its grammar, redaction, retained facts, longest preview |

The main results are `SchedulerRuns.EveryRunIsSound`, `SchedulerAdmission.PrefilterIsExact`,
`CivilTime.ResolutionIsCorrectExactlyWhen`, `CivilTime.NextIsLeastUpcoming`, `Retention.RetentionIsSafe`, `Restore.Restorer.Apply`,
`RestoreLifecycle.Lifecycle.RestoreBackup`, `SessionRuns.EveryReachableStateIsSound`,
`LeasedRuns.EveryRevokedLoginFails`, `LeasedRuns.DeletedTokenNeverReturns`,
`FactorRuns.FactorsAreNeverReplayed`, `FactorRuns.RestoreKeepsLimitExactlyWhen`, `Factors.AcceptedExactlyWhen`,
`SchedulerOutcomes.FinishedRunIsRecorded`, `Revocations.TransactionTakesExactly`, `EnvelopeWriter.DecryptsExactlyWhen`,
`RateLimiter.AdmissionsAreBounded`, `Scans.CancelAndCommitExclude`, `JsonValues.ReadRawReturnsValue`,
`EnvelopeFields.ParseMeaning`, `EnvelopeWriter.DecryptInvertsEncrypt`, `Archives.InspectorsAgree`,
`Archives.BuiltArchiveIsAccepted` and `Previews.StoredIsCleanAndShort`.

## How the model is built

State that the program updates in place is a class; its methods are proved equal to functions on values,
and the run lemmas are about those functions. A database transaction is one step. Everything a step learns
from outside (clock, time zone, file system, network, randomness, whether a save works) is a parameter, so
a statement for all parameters is a statement for all behaviours of the environment. Bytes are characters
below 256; text in the audit modules is Unicode scalar values.

Where the code does not meet a property one would expect, the project gives the condition under which it does:

- The shared-lock check is exact if and only if no temporary archive is stranded: left over, the approved
  destination not there to remove it from, and nothing due (`SchedulerAdmission.PrefilterIsExact`).
- A retention pass loses the file of an archive it keeps if and only if an older entry that it removes has
  the same name (`Retention.SurvivorLostExactlyWhen`). The program draws names at random, so its own
  register never repeats one.
- A wall time is resolved correctly if and only if every solution lies under a sampled offset, or the least
  one and another do (`CivilTime.ResolutionIsCorrectExactlyWhen`); one offset change within 36 hours is enough.
- A round of the search for the next occurrence looks at its local day if and only if the drifts of the clock
  at the two noons it uses stay within half a day together (`CivilTime.SearchVisitsExactlyWhen`). Offsets within 6 hours of each
  other over a month are enough; some bound is needed, since a move across the date line makes the search miss
  today (`CivilTime.DateLineMoveMissesToday`).
- The two archive inspectors differ only on manifests over 1 MiB, and do differ there (`Archives.InspectorsAgree`,
  `Archives.LargeManifestDiffers`).
- A failed restore is called incomplete although its snapshots are gone and its targets reverted if and only
  if the forward reopening fails with an error that already says so and the rollback is accepted throughout
  (`Restore.Restorer.Apply`, `Restore.TypedRejection`). After a rollback the targets equal their snapshots when
  persistence is given back; the hand-off then writes its marker into the database.
- An administrator remains if and only if no database without one is restored (`SessionRuns.AdministratorRemains`).
- At most 20 second-factor checks get through in 600 seconds, over a restore too, if and only if the restored
  counter covers the checks since its window began and, with ten more, those of the last ten minutes
  (`FactorRuns.RestoreKeepsLimitExactlyWhen`, `FactorRuns.ChecksAreLimited`, `FactorRuns.LostCounterExample`).

The tables alone do not make revocation final over a restore: the archive may know neither a deleted token nor
a later generation. `SessionRuns.TokenReturnsExactlyWhen` and `LoginRuns.AheadLoginInserts` say exactly what a
request would need to profit from that. In the running service no request can: `LeasedRuns` adds the maintenance
leases and the closed database of requests in flight, and proves both guarantees without conditions on restores.

## Model

| member | source | states |
|---|---|---|
| `CivilTime.ResolveLocal` | internal/apptime/module.go:250-284 | The two loops over sampled offsets compute the resolution: nonexistent, ambiguous or valid, with the earliest match. |
| `CivilTime.CollectOffsets` | internal/apptime/module.go:256-261 | The set of offsets in force at the five sampled instants around the wall time. |
| `CivilTime.SampledExactly` | internal/apptime/module.go:256-261 | The offsets looked at are those at the time, half a day and a day and a half before and after. |
| `CivilTime.WallClockReads` | backup_automation.go:150-156 | A wall time reads as its day, hour and minute. |
| `CivilTime.MatchesMeaning` | internal/apptime/module.go:262-271 | For whole-minute offsets, an instant matches iff its wall clock shows the time and its offset was sampled. |
| `CivilTime.ResolutionIsCorrectExactlyWhen` | internal/apptime/module.go:250-284 | For every whole-minute zone: the answer is right (nonexistent iff no instant shows the time, ambiguous iff two do, the least returned) iff every solution was sampled, or the least one and another were. |
| `CivilTime.ResolutionIsCorrect` | internal/apptime/module.go:250-284 | With at most one transition within 36 hours: nonexistent iff no instant shows the wall time, ambiguous iff two do, and the least is returned. |
| `CivilTime.HiddenExcursionMisleads` | internal/apptime/module.go:256-261 | A zone with two transitions between samples for which the earlier of two solutions is missed: the one-transition condition is needed. |
| `CivilTime.NextBackupOccurrence` | backup_automation.go:140-162 | The fifteen-round search loop computes the first qualifying day's occurrence, or zero. |
| `CivilTime.WeekGoesRound` | backup_automation.go:152-153 | Weekdays follow each other from Thursday 1 January 1970. |
| `CivilTime.SearchVisitsExactlyWhen` | backup_automation.go:149-152 | In any zone, round n looks at the n-th local date after today iff the drifts of the clock at today's noon and at the noon it is moved to stay within half a day together. |
| `CivilTime.SearchVisitsEachDay` | backup_automation.go:149-152 | Moving local noon on by n calendar days visits exactly the n-th following local date, across offset changes. |
| `CivilTime.DateLineMoveMissesToday` | backup_automation.go:149-161 | In a zone that moves a day forward during the morning, the search never looks at today and misses today's occurrence. |
| `CivilTime.NextIsLeastUpcoming` | backup_automation.go:140-162 | The result is the least first occurrence strictly after the given instant on a matching day of the next fifteen; zero iff there is none. |
| `SchedulerMachine.Automation.Save` | backup_automation.go:194-201 | A save is stored, lost, or stored although an error is reported; the stored state is the last one written. |
| `SchedulerMachine.Automation.RebaseTimezone` | backup_automation.go:995-1004 | A changed time zone recomputes the next occurrence only; a pending one is kept. |
| `SchedulerMachine.Automation.RecoverInterrupted` | backup_automation.go:729-743 | A claim found still running is stored as failed and its occurrence is given up, before anything else. |
| `SchedulerMachine.Automation.DeferLocked` | backup_automation.go:745-780 | Defers for five minutes, or ends the episode one hour after the occurrence; nothing happens before the retry time. |
| `SchedulerMachine.Automation.ClaimAndExport` | backup_automation.go:631-654 | The claim, with the schedule moved on, is durable before the export starts; a failed save means no export. |
| `SchedulerMachine.Automation.FinishRun` | backup_automation.go:655-727 | Ownership, result, clean-up and lease outcomes are stored in this order, and the claim always ends. |
| `SchedulerMachine.Automation.CompleteRun` | backup_automation.go:683-703 | The final state for every combination of publication, success and clean-up. |
| `SchedulerMachine.Automation.RunDue` | backup_automation.go:565-654 | The guarded part of a tick: suspend, expire, skip a missed occurrence, defer or claim, exactly as specified. |
| `SchedulerMachine.Automation.CleanAndRun` | backup_automation.go:545-654 | A left-over temporary file is dealt with first, and a failed clean-up stops the tick. |
| `SchedulerMachine.Automation.ExclusiveBody` | backup_automation.go:532-727 | The whole exclusive tick produces exactly the specified effects, in order. |
| `SchedulerMachine.Automation.SharedBodyTick` | backup_automation.go:494-530 | A tick refused the exclusive lease can only recover, rebase or defer. |
| `SchedulerMachine.Automation.NeedsExclusiveTick` | backup_automation_admission.go:13-40 | The shared-lock check and its own rebase. |
| `SchedulerMachine.Automation.Tick` | backup_automation.go:483-727 | A tick is the check, then either the exclusive or the shared body. |
| `SchedulerMachine.Automation.Configure` | backup_automation.go:418-456 | Reconfiguration revalidates the destination, drops any pending occurrence and reschedules. |
| `SchedulerMachine.Automation.SuspendAfterRestore` | backup_automation.go:457-472 | Restored settings lose approval, pending occurrence and temporary name. |
| `SchedulerRuns.DeferKeeps` | backup_automation.go:745-780 | Every prefix of a deferral's effects, whatever the save does, keeps the run invariant. |
| `SchedulerRuns.ClaimKeeps` | backup_automation.go:631-727 | Every prefix of a claim, export and completion keeps the run invariant, so a crash anywhere does. |
| `SchedulerRuns.ExclusiveKeeps` | backup_automation.go:532-727 | Every prefix of an exclusive tick keeps the run invariant. |
| `SchedulerRuns.SharedKeeps` | backup_automation.go:494-530 | Every prefix of a shared tick keeps the run invariant. |
| `SchedulerRuns.EventKeeps` | backup_automation.go:418-743 | Every prefix of every event keeps the run invariant. |
| `SchedulerRuns.RunKeeps` | backup_automation.go:483-743 | The invariant holds after any chronological run of events, each possibly cut short by a crash. |
| `SchedulerRuns.EveryRunIsSound` | backup_automation.go:480-780 | Over any run with save failures and crashes: scheduled occurrences exported strictly increase, every export starts within the hour after its occurrence, and an episode has at most 12 deferrals at least 5 minutes apart. |
| `SchedulerAdmission.PrefilterNeverHidesWork` | backup_automation_admission.go:13-40 | When the check says no, the exclusive tick would do nothing but the rebase, whatever else fails. |
| `SchedulerAdmission.PrefilterIsExact` | backup_automation_admission.go:13-40 | Check and tick agree iff no temporary archive is stranded: left over, the approved destination not there, nothing due. Saving an unchanged row is no work. |
| `SchedulerAdmission.StrandedExample` | backup_automation.go:545-561 | Stranded states exist for any destination, unreachable or merely not approved: the check asks for a tick that can do nothing. |
| `SchedulerAdmission.LateDeferralEndsEpisode` | backup_automation.go:745-780 | A deferral evaluated past its retry time ends the episode iff an hour has passed, and never exports. |
| `SchedulerAdmission.DueOccurrenceIsExported` | backup_automation.go:631-654 | A healthy, approved, due tick stores the claim and exports the pending occurrence. |
| `SchedulerOutcomes.FinishedRunIsRecorded` | backup_automation.go:655-727 | A run whose result is stored ends as a success iff the export succeeded and no temporary file is left; the last success moves iff the export succeeded; nothing stays pending; success is recorded iff so, and a lease that cannot be given back turns the stored result into a failure. |
| `SchedulerOutcomes.UnapprovedTickSuspends` | backup_automation.go:574-599 | A due tick that finds another destination than the approved one exports nothing and takes the approval away. |
| `SchedulerOutcomes.LateTickGivesUp` | backup_automation.go:604-630 | An occurrence found an hour late or more is given up: stored as failed, nothing pending, the schedule moved on. |
| `SchedulerOutcomes.BusyTickDefers` | backup_automation.go:631-633 | While other work is active the occurrence stays pending for another five minutes and nothing is exported. |
| `SchedulerOutcomes.RefusedTickDefers` | backup_automation.go:494-530 | Refused the exclusive lease, a due tick defers its occurrence or, once an hour late, gives it up. |
| `SchedulerOutcomes.InterruptedRunHasFailed` | backup_automation.go:729-743 | A run found still going is stored as failed before anything else, under either lease, and is not tried again. |
| `SchedulerOutcomes.ZoneChangeReschedules` | backup_automation.go:995-1004 | A change of zone reschedules by the new zone and changes nothing else. |
| `SchedulerOutcomes.CheckStoresOnlyTheZone` | backup_automation_admission.go:13-40 | The check under the shared lock stores at most a change of zone, and not while there is a run or a file to clean up after. |
| `SchedulerOutcomes.ConfigurationTakesEffect` | backup_automation.go:418-456 | A configuration is stored iff it is valid and, if enabled, its destination is there; nothing of the old schedule stays pending. |
| `SchedulerOutcomes.RestoredSettingsWait` | backup_automation.go:457-472 | Restored settings keep their schedule and do nothing, under either lease, until approved again. |
| `Retention.Reverse` | backup_automation.go:918-920 | The in-place reversal of the kept list. |
| `Retention.Register.Retain` | backup_automation.go:893-923 | The backwards loop performs the specified sweep; a failed removal leaves the register unchanged. |
| `Retention.SweepMeaning` | backup_automation.go:893-923 | For any register, position by position: only doomed files are removed, survivors are kept in order, nothing is removed until `keep` archives are kept. |
| `Retention.RetentionIsSafe` | backup_automation.go:893-923 | For any register: a complete pass removes exactly our intact archives older than the newest `keep`; nothing foreign, altered or unregistered is touched; the newest stays registered; a failure part-way removed only doomed files. |
| `Retention.SurvivorLostExactlyWhen` | backup_automation.go:893-923 | A complete pass loses the file of an archive it keeps iff a doomed entry has the same name; a failed pass only then. |
| `Retention.DistinctNamesKeepSurvivors` | backup_automation.go:893-923 | With distinct names no survivor's file is lost. |
| `Retention.RegisterStaysDistinct` | backup_automation.go:648-668 | Publishing a freshly drawn name and a retention pass keep names distinct. |
| `Retention.RepeatedNameLosesSurvivor` | backup_automation.go:893-923 | A register that names one file twice, for which a pass removes the file it keeps registered. |
| `Restore.Restorer.WriteFile` | internal/backup/file_restore.go:295-333 | Atomic replacement that may fail before or after taking effect; a marked database stays marked. |
| `Restore.Restorer.RemoveSidecars` | internal/backup/backup.go:844-851 | Removes both sidecars and nothing else. |
| `Restore.Restorer.TakeSnapshots` | internal/backup/file_restore.go:259-293 | Success means every target's content is recorded. |
| `Restore.Restorer.RestoreSnapshots` | internal/backup/file_restore.go:335-349 | Success means every target equals its snapshot; other files are untouched; the marker survives every intermediate crash. |
| `Restore.Restorer.Rollback` | internal/backup/file_restore.go:419-443 | Either every target is back when persistence is reopened and the cause is returned, or recovery is incomplete and all snapshots are kept. |
| `Restore.Restorer.Replace` | internal/backup/file_restore.go:444-457 | Success means the prepared database, no sidecars, and the archived known hosts if included. |
| `Restore.Restorer.ReplaceAndReopen` | internal/backup/file_restore.go:413-467 | Replacement with rollback ends in one of the three ways. |
| `Restore.Restorer.SnapshotAndReplace` | internal/backup/file_restore.go:401-467 | Without snapshots the originals are reopened; otherwise replacement with rollback. |
| `Restore.Restorer.Apply` | internal/backup/file_restore.go:351-467 | For every pattern of failures: success with the archive in place; an ordinary error with every target as it was when persistence is given back; or an incomplete recovery with all snapshots kept once replacement began. The snapshots are gone under an incomplete error iff no file operation fails, the forward reopening is rejected with a typed error and the rollback is accepted; success iff nothing fails. The marker is on disk at every crash point. |
| `Restore.TypedRejection` | internal/backup/file_restore.go:458-466 | A run with that ending: only the reload is rejected, typed; every target is as it was. |
| `Restore.SnapshotFacts` | internal/backup/file_restore.go:253-293 | Snapshots of the database, both sidecars and, if archived, known hosts determine the reverted disk, and hold each of them. |
| `Restore.MarkingLosesNothing` | internal/backup/file_restore.go:438-442 | The maintenance hand-off sets the marker; the database keeps its rows and every other file its content. |
| `RestoreLifecycle.Lifecycle.RestoreBackup` | backup_operation_lifecycle.go:386-564 | Maintenance is released exactly once after activation, and never exactly when recovery is incomplete; it reopens only over replaced or fully reverted files. |
| `RestoreLifecycle.Lifecycle.Activate` | backup_operation_lifecycle.go:428-445 | Activation stores the marker in the live database, or changes nothing. |
| `Sessions.Store.DeleteSessions` | internal/auth/session_store.go:25-28 | Deleting sessions leaves a tombstone for each. |
| `Sessions.Store.Commit` | internal/auth/session_store.go:43-77 | The guarded upsert and the insert trigger; a guarded login that affects no row is reported. |
| `Sessions.Store.UpdatePasswordHash` | internal/auth/identity_schema.go:44-48 | A password change advances both login generations. |
| `Sessions.Store.ClearSessions` | internal/auth/auth.go:321-345 | Clears an account's sessions, sparing some, advances its login generation and returns the number of rows deleted. |
| `Sessions.Store.RevokeSession` | internal/auth/auth.go:407-454 | Deletes exactly the named session of the account, with its tombstone. |
| `Sessions.Store.UpdateAccount` | internal/auth/identities.go:116-129 | Role or disabled changes run both triggers, or abort for the last administrator. |
| `Sessions.Store.InvalidateIdentity` | internal/auth/mfa.go:141-149 | Drops an account's sessions and advances the installation's login generation. |
| `Sessions.Store.ConfirmMfa` | internal/auth/mfa.go:85-123 | Enrollment succeeds once for a pending factor and revokes earlier logins. |
| `Sessions.Store.DisableMfa` | internal/auth/mfa.go:150-166 | Disabling a factor revokes earlier logins. |
| `Sessions.Store.ResetLocalFactors` | internal/auth/local_recovery.go:70-123 | The local recovery transaction, for password, factor or both. |
| `Sessions.Store.ClearDatabaseSessions` | internal/backup/backup.go:1008-1046 | An archived database loses its sessions, leaving tombstones, every account moves on, and a new epoch is set. |
| `Sessions.Installation.ReplaceDatabase` | internal/backup/file_restore.go:469-482 | The readied archive takes the place of the live database. |
| `SessionRuns.TransactKeeps` | internal/auth/identity_schema.go:43-63 | Every account transaction keeps the table invariant, deletes only with tombstones and moves generations forward. |
| `SessionRuns.CommitKeeps` | internal/auth/session_store.go:43-77 | Every commit of staged data, however late, keeps the world invariant. |
| `SessionRuns.RestoreKeeps` | internal/backup/file_restore.go:469-482 | So does replacing the database by any archive, with requests in flight. |
| `SessionRuns.NextKeeps` | internal/auth/session_store.go:16-176 | Every step keeps it; within one epoch generations only advance, an epoch once left never returns, no token changes hands. |
| `SessionRuns.RunKeeps` | internal/auth/session_store.go:16-176 | So does every interleaving, restores included. |
| `SessionRuns.EveryReachableStateIsSound` | internal/auth/session_store.go:16-126 | In every reachable state, whatever is restored: live tokens and tombstones are disjoint, and every identity-bound session speaks for an enabled account at its current generation and epoch. |
| `SessionRuns.KnownTokenNeverReturns` | internal/auth/session_store.go:24-33 | Without leases: a token with a tombstone never gets a session while every archive restored knows it. |
| `SessionRuns.TokenReturnsExactlyWhen` | internal/auth/session_store.go:43-77 | Without leases: a request that outlived a restore would bring its token back iff the archive does not know it and the session it carries is anonymous and unguarded, or guarded by the archive's login generation. |
| `SessionRuns.DeletedSessionNeverReturns` | internal/auth/session_store.go:43-77 | A deleted token that spoke for an account never gets a session again, whatever is restored. |
| `SessionRuns.AdministratorRemains` | internal/auth/identity_schema.go:49-55 | An enabled administrator is there in every state of a run iff no database without one is restored on the way. |
| `SessionRuns.RestoreMayTakeAdmins` | internal/backup/file_restore.go:20-72 | A database without accounts can be restored over any installation: validation looks at other tables. |
| `LoginRuns.RevokingMovesOn` | internal/auth/identity_schema.go:43-63 | Within one epoch every revoking event moves one of the account's generations on and none back. |
| `LoginRuns.RevokedIsStale` | internal/auth/session_store.go:58-65 | Any revocation makes every reading of the account that is not ahead of it stale for good: by its generations, or by the epoch after a restore. |
| `LoginRuns.RevokedLoginNeverInserts` | internal/auth/session_store.go:43-99 | Without leases: a login with sane readings never gets a session for its account after a revocation or a restore, before staging or between staging and commit, whatever else is interleaved. |
| `LoginRuns.LoginIsSane` | internal/auth/session_store.go:140-158 | Readings are sane if no restore came between opening the session and making them. |
| `LoginRuns.UnleasedRevokedLoginFails` | internal/auth/session_store.go:43-176 | Both together, over every run of a fresh installation. |
| `LoginRuns.AheadLoginInserts` | internal/auth/session_store.go:58-65 | Without leases that condition is exact: a complete login of an enabled account whose readings are not sane could get a session after a revocation. |
| `LoginRuns.RestoreBetweenReadings` | auth_session_commands.go:509-522 | Such a login would come from restoring an older database between reading the account and reading the epoch. |
| `LoginRuns.UndisturbedLoginSucceeds` | internal/auth/session_store.go:43-99 | Events on other accounts that keep the epoch never refuse a login: it stages and its commit stores the session. |
| `LeasedRuns.MoveKeeps` | auth_session.go:446-480 | Every move of the running service keeps the invariant: handlers read and stage under a shared lease, a restore needs them all returned and cuts off requests in flight, and so does one that is rolled back. |
| `LeasedRuns.MoveKeepsPresent` | runtime_composition.go:165-172 | After every move each request in flight holds only what was read under the present epoch and is not ahead of its account: a session loaded before a restore is never committed after it. |
| `LeasedRuns.EveryServiceStateIsLive` | internal/maintenance/coordinator.go:120-141 | Both hold in every state the service reaches from a fresh installation. |
| `LeasedRuns.DeletedTokenNeverReturns` | internal/auth/session_store.go:16-35 | In every run of the service a token once deleted never has a session again, whatever is restored, rolled back or in flight. |
| `LeasedRuns.EveryRevokedLoginFails` | internal/auth/session_store.go:43-176 | In every run of the service: a login whose account is revoked, a restore included, at any time after it read the account and before its session is stored, never obtains a session for it. |
| `LeasedRuns.LeasedLoginSucceeds` | internal/maintenance/coordinator.go:120-141 | Under its lease a login is cost its session neither by changes to other accounts nor by restores tried meanwhile. |
| `LeasedRuns.LoginGoesThrough` | auth_session_commands.go:509-522 | From any state, a request that enters, reads, stages and commits signs in to any enabled account, and gives its lease back. |
| `Revocations.TransactionTakesExactly` | internal/auth/identity_schema.go:43-63 | Every account transaction deletes exactly the sessions it should, with a tombstone each: all of the account but the spared ones, the named one, or all on a role change, a factor change or a reset that takes effect; every other row is untouched. |
| `Revocations.ClearedAccountHasNoOther` | internal/auth/auth.go:321-345 | After clearing, the account has no session but spared ones; spared rows and other accounts' rows are unchanged. |
| `Revocations.TakenSessionIsGone` | internal/auth/auth.go:321-345 | In every run of the service a session so deleted never exists again. |
| `Revocations.AbortsForTheLastAdmin` | internal/auth/identity_schema.go:49-55 | The trigger aborts iff there is no other enabled administrator. |
| `Revocations.AccountAfter` | internal/auth/identity_schema.go:43-63 | Every account, field by field, after every transaction: role, factor, last step and both generations change exactly with the transactions that own them. |
| `Revocations.NewAccounts` | internal/auth/identities.go:90-115 | Accounts appear only by creation under a free name and an unused id, enabled and without a factor; the first is an administrator. |
| `Revocations.RestoredAccounts` | internal/backup/backup.go:1008-1046 | A restore brings every archived account back at its next generation, without a pending enrollment and with used steps raised; no session, and every archived token barred. |
| `Revocations.CommitStoresExactlyWhen` | internal/auth/session_store.go:43-77 | A commit stores its session iff the token has no tombstone, the identity is current, and a new session is still wanted; otherwise nothing changes. |
| `Windows.AtMostTwoWindowsFull` | internal/auth/auth.go:153-176 | Any 2*cap+1 admissions in a row of a fixed-window limiter span more than one window. |
| `RateLimiter.Limiter.AllowCall` | internal/auth/auth.go:153-176 | Admission and counting in a fixed window. |
| `RateLimiter.Limiter.LimitedCall` | internal/auth/auth.go:187-198 | The read-only answer, dropping an expired bucket. |
| `RateLimiter.Limiter.RecordFailureCall` | internal/auth/auth.go:200-219 | Counting without admission. |
| `RateLimiter.Limiter.CleanupExpired` | internal/auth/auth.go:117-123 | The sweep drops exactly the expired buckets. |
| `RateLimiter.CleanupIsInvisible` | internal/auth/auth.go:117-139 | Removing all cleanups from any chronological run changes no answer. |
| `RateLimiter.AdmissionsAreBounded` | internal/auth/auth.go:153-219 | Without a reset of the key, at most 2*max(1, max) calls succeed in any stretch of one window, also with recorded failures and cleanups. |
| `RateLimiter.AllowanceIsExact` | internal/auth/auth.go:153-219 | Of the attempts within one window exactly the allowance is admitted, and always the first. |
| `RateLimiter.FailuresLimitExactly` | internal/auth/auth.go:153-219 | After failures within one window a caller is limited until it is over iff there were as many as the limit. |
| `RateLimiter.ResetForgets` | internal/auth/auth.go:153-219 | A reset forgets the key, and no call touches another key. |
| `Factors.TotpStep` | internal/auth/mfa.go:38-53 | The loop finds the earliest unused matching step within one of now, or -1. |
| `Factors.AcceptedStep` | internal/auth/mfa.go:38-53 | An accepted step matches, is later than the last and is the least such in range; a matching six-digit code is never refused. |
| `Factors.AcceptedExactlyWhen` | internal/auth/mfa.go:179-230 | A factor check is passed iff this is one of the first ten attempts in its window, the account is enabled, and it has no factor, or the trimmed code is the current one of an unused step, or one of its recovery codes; which of these is used up. |
| `Factors.IssuedChallengeIsLive` | internal/auth/mfa.go:231-269 | A challenge is issued iff the login has read the account and the epoch as they are, and is live for five minutes; others are unaffected. |
| `Factors.EnrolledExactlyWhen` | internal/auth/mfa.go:85-123 | A factor is enrolled iff the code is a current one of the pending secret in its ten minutes on an enabled account without a factor. |
| `Factors.EnrollmentIsOffered` | internal/auth/mfa.go:60-84 | A pending secret is offered for ten minutes to an enabled account without a factor. |
| `Factors.DisabledFactorIsGone` | internal/auth/mfa.go:150-166 | Disabling a factor leaves no secret, code, challenge or pending enrollment. |
| `Factors.RestoredFactorIsFenced` | internal/backup/backup.go:1021-1043 | A restored account keeps its factor, but no code current at the restore, no recovery code and no challenge passes it. |
| `Factors.Store.ConsumeFactor` | internal/auth/mfa.go:167-230 | The attempt is counted first; then a step or a recovery code is spent; the caller passes iff the factor check is passed. |
| `Factors.Store.ConfirmMfa` | internal/auth/mfa.go:85-123 | The enrollment code's step becomes the last one used. |
| `Factors.Store.NewLoginChallenge` | internal/auth/mfa.go:231-269 | A challenge is issued only while account and installation epoch are what the login read. |
| `Factors.Store.CompleteLoginChallenge` | internal/auth/mfa.go:270-291 | A live challenge is spent by its first answer, right or wrong; the caller passes iff the challenge is live and the factor check is passed. |
| `Factors.Store.ClearArchived` | internal/backup/backup.go:1021-1043 | A restored account loses codes, challenges and pending factor, starts past the current step and gets the new epoch; its attempts stay as archived. |
| `FactorRuns.StepsKept` | internal/backup/backup.go:1033-1040 | No step is accepted twice for a secret, even when a restore brings an older row back, because it starts past the clock. |
| `FactorRuns.RunKeeps` | internal/auth/mfa.go:60-291 | Steps, codes, challenges and the attempt limit stay sound over any run. |
| `Tallies.CountingKeepsTally` | internal/auth/mfa.go:179-193 | One more attempt keeps the log of checks in step with the counter, its window and what a restored counter had already counted. |
| `Tallies.RestoringKeepsTally` | internal/backup/backup.go:1021-1043 | So does replacing the counter by any archived one, whatever it has counted. |
| `Tallies.CoveredIsLimited` | internal/auth/mfa.go:179-193 | If a restored counter covers the checks since its window began, and with ten more those of the last ten minutes, at most 20 checks fall into any 600 seconds, over the restore. |
| `FactorRuns.FactorsAreNeverReplayed` | internal/auth/mfa.go:38-291 | Over any run with restores of any rows: accepted steps strictly increase per secret, the enrollment code's included; no recovery code or challenge is accepted twice; since the last restore at most 20 checks reach verification in any 600 seconds. |
| `FactorRuns.CheckRecordsExactly` | internal/auth/mfa.go:179-230 | A check records and uses up a step iff the code is current, a recovery code iff the account has it and it is not current; otherwise only the counter moves. |
| `FactorRuns.ChecksAreLimited` | internal/auth/mfa.go:179-193 | If every restore on the way keeps the limit, at most 20 checks reach verification in any 600 seconds of the whole run. |
| `FactorRuns.ChecksSinceAreLimited` | internal/auth/mfa.go:179-193 | From any restore on, whatever was lost before it, the checks since then are within the limit if every later restore keeps it among them. |
| `FactorRuns.RestoreKeepsLimitExactlyWhen` | internal/auth/mfa.go:179-193 | With c the archived count, at most 10 (0 if its window is over), and S the start of that window (now if it is over): every later run without another restore keeps the limit iff at most c checks came at S or later and at most 10 + c in the last 600 seconds. |
| `FactorRuns.LostCounterExample` | internal/auth/mfa.go:179-193 | After ten checks at once, restoring an account without a counter loses the limit at the same instant and keeps it a second later. |
| `FactorRuns.AnswerSpendsChallenge` | internal/auth/mfa.go:270-291 | Answering a live challenge uses it up and counts, whatever the code. |
| `FactorRuns.PastEpochGetsNoChallenge` | internal/auth/mfa.go:248-262 | A login that read an epoch gone by gets no challenge. |
| `FactorRuns.RevisedAccountRefusesChallenge` | internal/auth/mfa.go:270-291 | A challenge issued before the account moved on, or before a restore, can no longer be answered. |
| `Scans.Lifecycle.CancelScan` | vulnerability_scan_lifecycle.go:368-378 | Cancel is refused once the scan is finishing or no longer active. |
| `Scans.Lifecycle.CommitCheckpoint` | vulnerability_scan_lifecycle.go:229-239 | A checkpoint commits only while the scan is active, running and not finishing. |
| `Scans.Lifecycle.CommitResult` | vulnerability_scan_lifecycle.go:269-280 | The result commits under the mutex, closing the scan to cancellation. |
| `Scans.Lifecycle.Settle` | vulnerability_scan_lifecycle.go:281-315 | The terminal intent, cancel first. |
| `Scans.SlotsKept` | vulnerability_scan_lifecycle.go:126-164 | Slots in use equal the scans holding one, through admission, abandonment and release. |
| `Scans.SlotsAreGiven` | vulnerability_scan_lifecycle.go:126-164 | A slot is given iff fewer than two are in use, to a scan that nothing has happened to. |
| `Scans.RunKeeps` | vulnerability_scan_lifecycle.go:117-325 | Every interleaving of scans, cancels and timeouts keeps the protocol invariant. |
| `Scans.CancelAndCommitExclude` | vulnerability_scan_lifecycle.go:117-378 | After an accepted cancel nothing of that scan commits and it ends as cancelled; after a committed result every cancel is refused; at most two slots, each given back once. |
| `Scans.ProtocolMakesProgress` | vulnerability_scan_lifecycle.go:200-280 | An undisturbed cancel is honoured, an undisturbed checkpoint and result commit. |
| `Scans.SettledExactly` | vulnerability_scan_lifecycle.go:269-325 | How a scan left alone ends its job: cancelled if requested, interrupted if its context was cancelled otherwise, a success iff its result is committed and the scanner was there, a failure in all other cases. |
| `Scans.JobsEndAsTheyWent` | vulnerability_scan_lifecycle.go:269-325 | In every run a job ends as cancelled iff a cancel was accepted, and as a success only with a committed result. |
| `JsonStrings.RuneRoundTrip` | internal/backup/file_pipeline.go:650-654 | The UTF-8 written for any scalar value reads back as it. |
| `JsonStrings.ReadItemComplete` | internal/backup/file_pipeline.go:588-666 | Each well-formed element, surrogate pairs included, is read back as itself. |
| `JsonStrings.ReadStringInverts` | internal/backup/file_pipeline.go:554-667 | For every escaping of every string: the reader returns the string iff it fits the bound, and refuses otherwise. |
| `JsonStrings.ReadStringSound` | internal/backup/file_pipeline.go:554-667 | Whatever is accepted is a well-formed escaping of the returned string, within the bound. |
| `JsonReader.Reader.ReadHexRune` | internal/backup/file_pipeline.go:669-689 | Four hexadecimal digits, or failure. |
| `JsonReader.Reader.ReadEscape` | internal/backup/file_pipeline.go:601-657 | One escape, a whole surrogate pair included, as the specification reads it. |
| `JsonReader.Reader.ReadJsonString` | internal/backup/file_pipeline.go:554-667 | The byte loop equals the string specification and never returns more than its bound. |
| `JsonReader.Reader.SkipWhitespace` | internal/backup/file_pipeline.go:691-701 | Leaves the first byte that is not white space unread. |
| `JsonReader.Reader.Follow` | internal/backup/file_pipeline.go:726-748 | Depth, string and escape flags after one byte. |
| `JsonReader.Reader.ReadRawValue` | internal/backup/file_pipeline.go:703-755 | The byte loop equals the raw-value specification, trimming and size check included. |
| `JsonValues.PassJson` | internal/backup/file_pipeline.go:711-749 | By induction on the grammar: a whole value leaves the scanner's depth and state where they were. |
| `JsonValues.ReadRawReturnsValue` | internal/backup/file_pipeline.go:703-755 | For every well-formed value with any white space inside and around: exactly that value is returned and the delimiter stays unread, iff it fits and passes the grammar check. |
| `JsonValues.ReadRawIsBounded` | internal/backup/file_pipeline.go:703-755 | Whatever is accepted fits, passed the grammar check and stops before a comma or brace. |
| `Base64.RoundTrip` | internal/backup/file_pipeline.go:435-445 | Decoding the encoding of any bytes gives them back. |
| `Base64.EncodedShape` | internal/backup/backup.go:43-45 | The encoding is visible ASCII of length four per three bytes begun. |
| `Base64.LineBreaksAreIgnored` | internal/backup/file_pipeline.go:921-922 | Line breaks anywhere do not change the decoded bytes. |
| `EnvelopeParser.OneField` | internal/backup/file_pipeline.go:810-860 | One key, colon and value with every limit check. |
| `EnvelopeParser.Fields` | internal/backup/file_pipeline.go:793-875 | The field loop equals its specification, trailing commas refused. |
| `EnvelopeParser.ParseEnvelope` | internal/backup/file_pipeline.go:757-934 | The whole parser equals its specification. |
| `EnvelopeFields.ReadFieldsMeaning` | internal/backup/file_pipeline.go:793-875 | Any rendering of any fields, whatever the white space and escaping, is read as exactly what the fields mean, failures included. |
| `EnvelopeFields.ParseMeaning` | internal/backup/file_pipeline.go:757-934 | Parsing an envelope depends on the meaning of its fields alone. |
| `EnvelopeFields.OrderDoesNotMatter` | internal/backup/file_pipeline.go:793-875 | Any permutation of the fields gathers the same state, or fails alike. |
| `EnvelopeFields.ReorderedEnvelopesParseAlike` | internal/backup/file_pipeline.go:757-934 | Reordered envelopes parse to the same header and ciphertext. |
| `EnvelopeFields.AcceptedExactlyWhen` | internal/backup/file_pipeline.go:815-860 | The field-by-field checks hold iff every field is sound, keys are distinct, there are at most 32 and the metadata totals at most 1 MiB. |
| `EnvelopeFields.RepeatedKeyIsMalformed` | internal/backup/file_pipeline.go:819-822 | An envelope with a repeated key is malformed, however the key is escaped. |
| `EnvelopeWriter.WriteEnvelope` | internal/backup/file_pipeline.go:423-459 | The payload is spliced in where the header's object ended; the size limit is checked. |
| `EnvelopeWriter.SpliceIsDocument` | internal/backup/file_pipeline.go:397-459 | What is written is a rendering of the six fields, within the upload limit. |
| `EnvelopeWriter.WrittenEnvelopeParses` | internal/backup/file_pipeline.go:397-459 | For every ciphertext within the limit, no size check of writer or parser fails, and parsing returns the same header and ciphertext. |
| `EnvelopeWriter.DecryptInvertsEncrypt` | internal/backup/file_pipeline.go:369-460 | Decrypting what was encrypted with the same passphrase returns the archive, for every archive the exporter accepts. |
| `EnvelopeWriter.WrongPassphraseIsRefused` | internal/backup/file_pipeline.go:974-978 | A written archive is refused as a wrong passphrase iff the cipher refuses to open it under that passphrase. |
| `EnvelopeWriter.DecryptsExactlyWhen` | internal/backup/file_pipeline.go:941-981 | For every text: a plaintext iff the envelope parses with this program's own parameters, a salt, a 12-byte nonce, and the cipher opens it to that plaintext within the limit; a wrong passphrase iff the cipher refuses; unsupported iff the parameters differ. |
| `NameLists.CompactStrings` | internal/backup/backup.go:764-775 | The in-place compaction of a list. |
| `NameLists.SortedAndCompacted` | internal/backup/backup.go:723-724 | Sorting and compacting any list gives its elements in strictly ascending order. |
| `NameLists.AscendingIsUnique` | internal/backup/backup.go:723-724 | Such a list is determined by its elements, so the order of discovery does not show. |
| `Archives.UnpackInMemory` | internal/backup/backup.go:641-681 | The loop accepts iff the stream is intact, names are known and distinct, entries regular, and both limits hold; the files are the entries' data. |
| `Archives.UnpackToFiles` | internal/backup/file_pipeline.go:1020-1059 | The extracting loop accepts the same streams and records size and hash of each file. |
| `Archives.RequiredMissing` | internal/backup/backup.go:691-700 | The required files that are absent or undeclared. |
| `Archives.CheckDeclaredInMemory` | internal/backup/backup.go:706-722 | In any visiting order: accepted iff every declared file is restorable and matches; the absent ones are collected. |
| `Archives.CheckDeclaredFiles` | internal/backup/file_pipeline.go:1087-1102 | The same from the recorded sizes and hashes. |
| `Archives.InspectInMemory` | internal/backup/backup.go:641-731 | The verdict is the one the archive deserves: rejected iff not acceptable, else contents, manifest, compatibility and ascending missing list. |
| `Archives.InspectFiles` | internal/backup/file_pipeline.go:996-1108 | The same verdict, with the manifest limit of 1 MiB. |
| `Archives.InspectorsAgree` | internal/backup/file_pipeline.go:996-1108 | Both inspectors return equal verdicts iff the manifest is at most 1 MiB or the archive is rejected anyway; a larger one is rejected by the extracting inspector alone. |
| `Archives.LargeManifestDiffers` | internal/backup/file_pipeline.go:1060-1071 | A manifest over 1 MiB that declares no files, alone in its archive, is accepted in memory and rejected by the extracting inspector. |
| `Archives.AcceptedExactlyWhen` | internal/backup/backup.go:641-731 | Entry by entry: accepted iff the stream is intact, every entry is a regular file of one of the four names, once and within the limits, the manifest declares only the three data files, every declared entry has the declared size and hash, and known hosts are declared; compatible iff format and version are this program's. |
| `Archives.MissingExactlyWhen` | internal/backup/backup.go:691-727 | A name is reported missing iff it is required and absent or undeclared, or declared and absent. |
| `Archives.HashSources` | internal/backup/file_pipeline.go:248-272 | In any order: accepted iff names are restorable and the total fits. |
| `Archives.BuildArchive` | internal/backup/file_pipeline.go:241-354 | Built iff the sources are known, fit with the manifest, did not change between hashing and copying, and the compressed result fits. |
| `Archives.BuildableExactlyWhen` | internal/backup/file_pipeline.go:241-354 | The builder's conditions with names and limits spelled out. |
| `Archives.BuiltArchiveIsAccepted` | internal/backup/file_pipeline.go:241-354 | Every archive built is accepted as compatible by both inspectors, with the archived contents; nothing is missing iff both required files were given. |
| `Redaction.RedactionIsExact` | internal/audit/audit.go:687-732 | For every path: what lies under a sensitive name is gone, everything else is kept. |
| `Redaction.SameLowerSameClass` | internal/audit/audit.go:713-732 | Names that differ only in case are classified alike. |
| `Redaction.PaddingIsIgnored` | internal/audit/audit.go:713-732 | White space around a name does not change its classification. |
| `Redaction.RedactedIsClean` | internal/audit/audit.go:687-711 | Redacted values have no sensitive name at any depth. |
| `Redaction.CleanMeans` | internal/audit/audit.go:687-732 | No path through a clean value uses a sensitive name. |
| `Redaction.SensitiveExactlyWhen` | internal/audit/audit.go:713-732 | A lower-case name is sensitive iff it holds password, secret or token anywhere, or its first or last word is a pass or a key, and it does not begin with precheck; one token identifier is exempt. |
| `AuditText.QuoteReadsBack` | internal/audit/audit.go:641-649 | Every text is written so that a JSON reader reads it back as itself, escapes, control characters and UTF-8 included. |
| `AuditText.EncodingIsJson` | internal/audit/audit.go:641-649 | Every value is written exactly as the JSON grammar renders it. |
| `AuditText.WrittenIsWellFormed` | internal/audit/audit.go:641-649 | What is written is one well-formed JSON value if its numbers are. |
| `AuditText.SizeIsBytes` | internal/audit/audit.go:650-651 | Sizes are counted in UTF-8 bytes. |
| `RetainedMeta.StatusesSurvive` | internal/audit/operational_meta.go:63-123 | Optional check texts change no check's name or outcome, and never push the record past the larger of its size without them and the cap less 256 bytes. |
| `RetainedMeta.FactsAreRetained` | internal/audit/operational_meta.go:8-31 | Every small operational fact is in the final record with the source's value, whatever else is retained; other fields are unchanged. |
| `RetainedMeta.ChecksAreRetained` | internal/audit/operational_meta.go:67-101 | Every supported check of the source is listed in the final record with its name and its last outcome. |
| `RetainedMeta.PackagesAreWhole` | internal/audit/operational_meta.go:47-61 | The approved packages are retained whole, in at most 1024 bytes and leaving 1024 more, or not at all. |
| `RetainedMeta.DiscoveryIsRetained` | internal/audit/operational_meta.go:33-46 | Of the discovery data exactly the two package counts are retained, if they are numbers. |
| `RetainedMeta.LastNamedMeans` | internal/audit/operational_meta.go:67-90 | The result reported for a check is the last one of that name. |
| `RetainedMeta.TextIsKeptIfItFits` | internal/audit/operational_meta.go:102-123 | An optional text is added, cut to 128 characters, iff the whole record then leaves 256 bytes; nothing else changes. |
| `RetainedMeta.RetainedIsClean` | internal/audit/operational_meta.go:7-124 | Facts retained from redacted metadata bring in no sensitive name. |
| `MetaJson.TextAddsItsSize` | internal/audit/audit.go:669-670 | Putting a text into a record adds exactly its escaped size to the encoding. |
| `MetaJson.EscapingGrows` | internal/audit/audit.go:669-670 | Escaping never makes text shorter. |
| `Previews.ShorterFits` | internal/audit/audit.go:659-682 | If a preview fits, every shorter one does. |
| `Previews.WholeNeverFits` | internal/audit/audit.go:650-682 | Text over the limit never fits whole. |
| `Previews.LongestPreview` | internal/audit/audit.go:659-682 | The binary search returns the record with the longest preview that fits, or the fallback when none does. |
| `Previews.SanitizeMeta` | internal/audit/audit.go:631-685 | Absent metadata gives an empty object; short metadata its redacted text; long metadata the longest preview. |
| `Previews.StoredIsCleanAndShort` | internal/audit/audit.go:631-732 | What is stored is the text of a record with no sensitive name at any depth, in at most 4096 bytes. |
| `Previews.CutKeepsFacts` | internal/audit/audit.go:652-682 | Whatever preview is chosen, every small fact of the redacted metadata stands beside it unchanged. |
| `Previews.CutKeepsChecks` | internal/audit/audit.go:652-682 | And so is every supported health check with its last outcome. |
| `Previews.CutSaysSo` | internal/audit/audit.go:652-670 | A cut record holds the flag, the original length in bytes, the number of fields, and a preview that begins as the redacted text does. |
| `Previews.DecimalReads` | internal/audit/audit.go:652-658 | The lengths are written in decimal. |
| `Previews.FallbackExactlyWhen` | internal/audit/audit.go:659-682 | No preview fits iff the retained facts leave no room for the three dots of an empty one. |

## Left out

- CivilTime.ResolutionIsCorrect: a sufficient condition (one transition in the sampled window, offsets of at most a day that differ by less than 36 hours within a month); the exact one is CivilTime.ResolutionIsCorrectExactlyWhen.
- CivilTime.NextIsLeastUpcoming: assumes offsets that differ by less than 6 hours within a month, so a zone that changes sides of the date line is outside it.
- CivilTime.SearchVisitsEachDay: the same bound of 6 hours.
- SchedulerRuns.EveryRunIsSound: a restored settings row is suspended in the same step that brings it in. No tick can come between: the exclusive lease is held, and after a crash the marker that Restore.Restorer.Apply shows to be on disk keeps every lease from being granted. The clock is assumed past the first hour of year 1.
- SchedulerMachine.Automation.Save: the message texts, job identifiers and the archive list of the state are not part of it; retention of the archive list is modelled on its own.
- Retention.Register.Retain: the inspection of a file is one value; symbolic links, inode identity and permission bits are not modelled.
- Restore.Restorer.Apply: the paths of the targets are taken to be distinct; validation and re-encryption of the archived database are one outcome.
- Sessions.Store.Commit: session expiry, the session metadata table and the user name stored beside the identity are not modelled.
- LeasedRuns.MoveKeeps: a request is cut off in the same step as the restore that closes its database; closing comes before the replacement is opened, so nothing it does in between reaches either database. Account changes and commits are single transactions and take no lease of their own in the model.
- Sessions.Store.InvalidateIdentity: login challenges are modelled with the second factors; personal access tokens are left out of every account transaction.
- Sessions.Store.ClearDatabaseSessions: archives are taken to have the current schema, which validation brings about; personal access tokens are left out.
- FactorRuns.FactorsAreNeverReplayed: an archive's attempt window is of the past; random secrets, codes, challenges and epochs are never drawn twice.
- Factors.Store.ConsumeFactor: the clock is read once per transaction, and decryption of the stored secret always succeeds.
- Scans.RunKeeps: progress reports, diagnostics, audit records and reconciliation of older observations are left out.
- Base64.LineBreaksAreIgnored: text after padding is always refused; the streaming decoder of the standard library may miss it at a buffer boundary.
- EnvelopeParser.ParseEnvelope: temporary files are values, so failures to create or write them are left out; typed decoding of the five raw values is a function of the environment.
- EnvelopeWriter.WrittenEnvelopeParses: assumes the standard decoder reads back the five header values the standard encoder wrote, and a time stamp of at most 64 visible characters.
- EnvelopeWriter.DecryptInvertsEncrypt: key derivation and authenticated encryption are functions whose opening inverts sealing and whose tag takes 16 bytes.
- Archives.BuildArchive: the gzip and tar byte formats are left out: a tar stream is a sequence of entries that may break off, and the compressed size is a function of the environment.
- Archives.BuiltArchiveIsAccepted: assumes the manifest decodes to what was encoded, takes at most 1 MiB, and that hashes are not empty.
- Archives.InspectInMemory: error texts are not modelled; a rejected archive is one verdict.
- RetainedMeta.StatusesSurvive: the retained facts are functions on values; the program fills the same maps in place.
- Redaction.RedactionIsExact: lower-casing is exact for letters whose lower case is ASCII, which is all the classification looks at.
- HTTP handlers, middleware, cookies, templates, route permissions: plumbing and finite tables.
- AES-GCM, scrypt, argon2id, SHA-256, HMAC: functions of the environment.
- Publishing archives, the backup catalog and its file identity checks: foreign calls.
- Password and username rules, account listing, token scopes: would only add easy members.
- SSH transport, package update jobs, approvals, remediation, notifications, policies: their guarantees rest on packages outside this model.
- Time-zone name detection: only the offset function matters.

# Verification of Fig's protocols and algorithms

This project models parts of Fig, a configuration server for .NET, in Dafny and proves what they
promise. It covers the code of the repository where a small mistake would be hard to see: locks,
caches, state machines, re-encryption and in-place edits. `dafny verify dfyconfig.toml` checks
the whole project.

| file | what it models |
|---|---|
| `RegistrationLock.dfy` | the per-client registration lock and its background cleaner, as a step system |
| `Uptime.dfy` | the uptime report: pairing of session events, merging, outages, peak |
| `Encryption.dfy` | encryption with a current and a previous API secret |
| `ReEncryption.dfy`, `Migration.dfy`, `Checkpoints.dfy` | the batch loops that re-encrypt event logs, setting history and checkpoints |
| `RotationState.dfy`, `RotationService.dfy` | the persisted state of a rotation and the service that keeps it |
| `RotationRuns.dfy`, `RotationHosts.dfy` | all runs of a migration, and hosts that compete for it |
| `SavedStores.dfy` | setting clients, web hook clients and deferred changes, which are saved back whatever their age |
| `TrackedStages.dfy`, `MigratedStores.dfy`, `PerformMigration.dfy` | the stages tracked in the row, what they mean for each store, and the whole migration over the six stores |
| `SettingGroups.dfy`, `SettingGroupService.dfy` | setting groups under registration, validation and removal |
| `HashCache.dfy`, `HasherRuns.dfy` | the hash validation cache and the code hasher that asks it, under all interleavings |
| `DataGrid.dfy`, `Masking.dfy` | masking and restoring secret columns |
| `ClientExport.dfy` | full export and import of setting values |
| `SettingApplier.dfy` | value-only import into a client |
| `SecretAgreement.dfy` | creating a client secret in a cloud store from several processes, as a step system |
| `SecretAbandonment.dfy` | when such a creation leaves a secret without a version |
| `SecretProvider.dfy` | the same as one process runs it, with the others in between |
| `Histogram.dfy` | the histogram of the load test |
| `Text.dfy`, `Linq.dfy` | string and list operations of the .NET runtime |

Classes with mutable fields stand for the source's services and entities; their methods are proved
against functions, and the properties are proved about those functions. Protocols with several
threads, processes or hosts are step systems, and their theorems hold for every run. The cipher, hashes and
JSON are parameters with laws: decrypting inverts encrypting, a wrong key fails, and rendering is
inverted by parsing.

## What the proofs found

- `EncryptionService.Decrypt` in lenient mode does not catch the ApplicationException that
  decryption with two keys ends in. With a previous secret configured, Base64 text that no key
  opens is not passed through; it stops a migration. A value from before the last but one rotation
  is such a text (`Encryption.LenientDecryptFails`, `Encryption.ForeignTextFails`,
  `Migration.PerformEventLogMigration`).
- A migration saves only the setting clients in the filter of the administrator who runs it, and
  still records completion. Other clients are unreadable once the previous secret is taken out,
  unless they were readable without it before (`MigratedStores.PreviousSecretIsRedundantExactlyIf`,
  `PerformMigration.MigrateWithFilteredClient`).
- A failure between two stages of a migration marks a completed stage as failed and leaves the last completed stage
  stale; a failure inside a stage never does (`RotationRuns.FailureKeepsLastCompleted`,
  `RotationRuns.StaleRun`).
- A host that dies while migrating, or fails before its stages begin, leaves the rotation in
  progress for good, and nothing else does (`RotationHosts.VanishBlocksForever`,
  `RotationHosts.BlockedExactlyIfVanished`, `RotationHosts.VanishingRun`).
- The early return for a migration that is already completed (EncryptionMigrationService.cs:74-78)
  is never taken (`RotationService.Service.MarkMigrationStarted`).
- The cap on the uptime never fires; when an active session was last seen does not matter; the peak
  can be too low with unmatched expiries and with active sessions from before the range (`Uptime.UptimeInRange`,
  `Uptime.AddActiveSessions`, `Uptime.PeakMayUndercount`, `Uptime.PeakMissesPreexisting`; exactly when:
  `Uptime.PeakIsEnoughExactlyIf`).
- Removing a client undoes its registration except that an empty group it touched is deleted
  (`SettingGroups.RemovalUndoesRegistration`).
- Cache entries for the previous API secret share the key space of client and setting names. Where
  names clash, a code that only the previous secret matches can be found invalid
  (`HasherRuns.MisleadingInput`; exactly when: `HasherRuns.HasherRightExactlyIf`).
- Masking and exporting overwrite the entity's own rows (`Masking.GetDataGridDataContract`,
  `ClientExport.Export`); a placeholder submitted for a setting without a value is stored
  (`Masking.PlaceholderSurvives`); a grid that is secret as a whole is lost by export and import
  (`ClientExport.ComesBackUnchanged`). The client library allows secrets on strings only
  (SettingDefinitionFactory.cs:164-166, 558-563, 759-767), where nothing is lost
  (`ClientExport.StringSecretsSurvive`), so a losing setting comes from a registration made without it.
- A two-step secret creation whose second step is lost makes the key unusable for good. That takes
  a transient error, a failure or a crash at one place, and can happen to every absent key
  (`SecretAbandonment.AbandonedForever`, `AbandonedExactlyIfLost`, `CanBeAbandonedExactlyIf`).

## Model

| member | source | states |
|---|---|---|
| `RegistrationLock.MutualExclusion` | src/api/Fig.Api/Services/ClientRegistrationLockService.cs:10-83 | In every state of every interleaving at most one thread is in the critical section of a client name, and it is under the entry the dictionary maps, even after removal and re-creation |
| `RegistrationLock.PermitAccounting` | src/api/Fig.Api/Services/ClientRegistrationLockService.cs:37-69 | The free permit and the holders of a live entry, a cleaner included, make exactly one; a disposed entry has none; the active count is the number of owners of a releaser |
| `RegistrationLock.CleanerSeesNoActiveUser` | src/api/Fig.Api/Services/ClientRegistrationLockService.cs:43-52 | While a cleaner holds the permit the active count is 0, so the test of it never fails |
| `RegistrationLock.RemovalTakesOwnEntry` | src/api/Fig.Api/Services/ClientRegistrationLockService.cs:54-64 | Removal by key takes out the very entry that this cleaner holds and compared, and never fails |
| `RegistrationLock.DisposedNeverAcquired` | src/api/Fig.Api/Services/ClientRegistrationLockService.cs:58-63 | A disposed entry stays disposed, out of the dictionary, and is never held again |
| `RegistrationLock.OnlyWaitingBlocks` | src/api/Fig.Api/Services/ClientRegistrationLockService.cs:18-19 | No semaphore is released above its maximum, and a thread inside a call is only ever stopped by waiting for a permit |
| `RegistrationLock.RecentUseProtects` | src/api/Fig.Api/Services/ClientRegistrationLockService.cs:51-69 | A thread that asked for the lock or released it protects the entry from cleaning for 30 minutes |
| `RegistrationLock.ReachableInv` | src/api/Fig.Api/Services/ClientRegistrationLockService.cs:10-129 | Every state of every run satisfies the invariant that the theorems above rest on |
| `RegistrationLock.StepKeepsInv` | src/api/Fig.Api/Services/ClientRegistrationLockService.cs:10-129 | Each single dictionary, semaphore, counter or clock operation keeps it |
| `Uptime.BuildSessionIntervals` | src/api/Fig.Api/Reports/UptimeCalculator.cs:56-111 | Over every instant of the range there are as many intervals as the events say, whatever open start an expiry is paired with, plus one for each active session started by then; if every expiry closes a known session, the events say starts by then less expiries by then |
| `Uptime.PairEvents` | src/api/Fig.Api/Reports/UptimeCalculator.cs:63-91 | The loop with its stack of open starts keeps intervals plus open starts equal to what the events say at each instant |
| `Uptime.EventCoverIs` | src/api/Fig.Api/Reports/UptimeCalculator.cs:56-98 | What the events say at an instant: starts by then less expiries by then, plus, for each expiry that closes no start, one if it comes later and its reported up time reaches back |
| `Uptime.DepthIsExcess` | src/api/Fig.Api/Reports/UptimeCalculator.cs:56-98 | The sessions open after some events are the greatest excess of starts over expiries among the last events, and none if there is none |
| `Uptime.CloseOpenStarts` | src/api/Fig.Api/Reports/UptimeCalculator.cs:93-98 | Closing the open starts adds exactly them |
| `Uptime.AddActiveSessions` | src/api/Fig.Api/Reports/UptimeCalculator.cs:100-108 | Over every instant of the range exactly one interval is added for each active session that started by then: an active session counts to the end of the range, whenever it was last seen |
| `Uptime.PairingIsHarmless` | src/api/Fig.Api/Reports/UptimeCalculator.cs:56-98 | With no unmatched expiry the intervals built from events cover an instant as often as sessions started by then less those expired by then: no pairing, clamping or order on the right-hand side |
| `Uptime.MergeIntervals` | src/api/Fig.Api/Reports/UptimeCalculator.cs:176-198 | Merged intervals are non-empty, strictly separated, inside the range, and cover exactly what was covered before |
| `Uptime.SeparatedUnique` | src/api/Fig.Api/Reports/UptimeCalculator.cs:176-198 | No other separated list covers the same instants: the merged list is canonical |
| `Uptime.BuildOutages` | src/api/Fig.Api/Reports/UptimeCalculator.cs:158-174 | Online intervals and outages tile the range: every instant lies in exactly one, and their durations add up to it |
| `Uptime.TotalIsInstants` | src/api/Fig.Api/Reports/UptimeCalculator.cs:31-33 | The summed durations of separated intervals are the number of instants they cover |
| `Uptime.UptimeInRange` | src/api/Fig.Api/Reports/UptimeCalculator.cs:35-36 | The uptime never exceeds the range, so the cap never fires |
| `Uptime.ComputePeakConcurrentSessions` | src/api/Fig.Api/Reports/UptimeCalculator.cs:117-156 | The peak is the least number that explains the deepest nesting, any unmatched expiry and the sessions from before the range; all active sessions if that is 0 |
| `Uptime.PeakBoundsCover` | src/api/Fig.Api/Reports/UptimeCalculator.cs:117-156 | With no unmatched expiry that reports an up time the peak is at least the number of sessions the events report as running, at any instant |
| `Uptime.PeakIsEnoughExactlyIf` | src/api/Fig.Api/Reports/UptimeCalculator.cs:113-156 | The peak is at least the number of running sessions throughout the range, those from before it included, exactly if at each of the finitely many starts the reported sessions are no more than are open at the end, or with those from before no more than the deepest nesting, or than one where some expiry is unmatched |
| `Uptime.PeakMayUndercount` | src/api/Fig.Api/Reports/UptimeCalculator.cs:126-146 | With two unmatched expiries that overlap the reported peak is 1 although both ran |
| `Uptime.PeakMissesPreexisting` | src/api/Fig.Api/Reports/UptimeCalculator.cs:148-150 | With an active session from before the range and one that starts and ends in it the reported peak is 1 although both ran: the former is added to the sessions open at the end only |
| `Uptime.Calculate` | src/api/Fig.Api/Reports/UptimeCalculator.cs:13-54 | The error exactly for a range that ends before it starts; otherwise uptime is the number of instants with a session online, downtime the sum of the outages, and the percentages are exact; every instant at or after the start of an active session is online, whenever it was last seen, and the others exactly as the events say |
| `Encryption.DecryptWithKeys` | src/common/Fig.Common.NetStandard/Cryptography/Cryptography.cs:76-98 | The keys are tried in the given order; a single key passes its own error on, several end in an ApplicationException |
| `Encryption.DecryptIs` | src/api/Fig.Api/Services/EncryptionService.cs:24-50 | Every result in both modes: the key that opens the text decides; otherwise text that is no Base64, or that one configured secret does not open, is passed through or ends in its own error, and with two secrets an ApplicationException in either mode |
| `Encryption.LenientDecryptFails` | src/api/Fig.Api/Services/EncryptionService.cs:24-50 | Lenient decryption fails exactly for Base64 text that none of two configured secrets opens, with an ApplicationException that is caught in neither mode |
| `Encryption.ForeignTextFails` | src/api/Fig.Api/Services/EncryptionService.cs:24-50 | Any non-empty text sealed under a secret that is no longer configured, with a previous secret configured, is such a text |
| `Encryption.ThrowingDecryptFails` | src/api/Fig.Api/Services/EncryptionService.cs:24-50 | Decryption that passes nothing through fails exactly on text that no configured key opens |
| `Encryption.KeyOrderIsIrrelevant` | src/api/Fig.Api/Services/EncryptionService.cs:24-50 | With an authenticated cipher the key order changes no result |
| `Encryption.DecryptInvertsSeal` | src/api/Fig.Api/Services/EncryptionService.cs:19-50 | What was encrypted under either configured secret reads back, in either order |
| `Encryption.GetDecryptionKeys` | src/api/Fig.Api/Services/EncryptionService.cs:119-134 | The distinct configured keys, the one asked for first in front |
| `Encryption.DecryptWithValidation` | src/api/Fig.Api/Services/EncryptionService.cs:52-95 | Strict mode returns v exactly when one distinct configured key yields a valid v; first-valid mode takes the first such key; the cause of a failure is that of the first key |
| `Encryption.StrictIsOrderIndependent` | src/api/Fig.Api/Services/EncryptionService.cs:52-95 | Strict outcomes for both values of tryFallbackFirst agree, up to the cause of a failure |
| `Encryption.FirstValidAgrees` | src/api/Fig.Api/Services/EncryptionService.cs:66-86 | First-valid mode agrees with strict mode wherever strict mode returns or finds none |
| `Encryption.AuthenticNeverMultiple` | src/api/Fig.Api/Services/EncryptionService.cs:80-86 | With an authenticated cipher several valid keys occur for no non-empty text |
| `Encryption.StrictTextIsOutcome` | src/api/Fig.Api/Services/EncryptionService.cs:52-95 | The function that the migration of JSON values rests on is exactly the outcome of strict validated decryption, in either key order |
| `Encryption.LawfulCipherExists` | src/common/Fig.Common.NetStandard/Cryptography/Cryptography.cs:35-133 | The laws asked of the cipher can be met |
| `ReEncryption.Repository.Fetch` | src/api/Fig.Api/Datalayer/Repositories/EventLogRepository.cs:224-233 | A batch of at most the limit of distinct pending records; none only if none is pending |
| `ReEncryption.Repository.Update` | src/api/Fig.Api/Datalayer/Repositories/EventLogRepository.cs:235-261 | Each record of the batch is encrypted, stamped later than the date and stored; no other is touched |
| `ReEncryption.PerformBatch` | src/api/Fig.Api/Services/EncryptionMigrationService.cs:115-194 | One pass of the loop: the pending set strictly shrinks unless the batch is empty, which leaves it alone and means nothing is pending |
| `ReEncryption.PerformBatches` | src/api/Fig.Api/Services/EncryptionMigrationService.cs:103-204 | The loop terminates; it completes exactly if all pending records open; then exactly they are migrated and the total is their number; a failure leaves whole batches migrated |
| `Migration.ResealedReadsSame` | src/api/Fig.Api/Services/EncryptionService.cs:19-50 | A text re-encrypted under the current secret reads the same under it alone and with both secrets in either order, pass-through text included |
| `Migration.EventLogPreserved` | src/api/Fig.Api/ExtensionMethods/EventLogBusinessEntityExtensions.cs:8-23 | A migrated event log reads under the current secret alone as it read with both before |
| `Migration.EventLogStops` | src/api/Fig.Api/ExtensionMethods/EventLogBusinessEntityExtensions.cs:18-23 | An event log stops a migration exactly if there is a previous secret and one of its values is non-empty text on which every configured key fails cryptographically |
| `Migration.LogsStop` | src/api/Fig.Api/Services/EncryptionMigrationService.cs:103-204 | The pending event logs are not all readable exactly if one of them is such; a value sealed under a secret that is no longer configured is enough |
| `Migration.PerformEventLogMigration` | src/api/Fig.Api/Services/EncryptionMigrationService.cs:103-204 | After completion every event log that was pending reads as before and the total is their number; after a failure every event log still reads as before with both secrets; it fails exactly if a pending event log is undecipherable, so always if one holds a value sealed under a secret that is no longer configured |
| `Migration.HistoryPreserved` | src/api/Fig.Api/ExtensionMethods/SettingValueBusinessEntityExtensions.cs:11-37 | A migrated history value reads under the current secret alone as it read with both before |
| `Migration.HistoryStops` | src/api/Fig.Api/ExtensionMethods/SettingValueBusinessEntityExtensions.cs:22-37 | A history value stops a migration exactly if there is one and the number of distinct configured keys that yield JSON of a setting value is not one |
| `Migration.DeserializeAndDecrypt` | src/api/Fig.Api/ExtensionMethods/SettingValueBusinessEntityExtensions.cs:22-37 | The entity gets the value that the migration function says, in either key order; an exception exactly where the function has none, and then the entity is unchanged |
| `Migration.PerformSettingHistoryMigration` | src/api/Fig.Api/Services/EncryptionMigrationService.cs:275-370 | The same as for event logs, for setting history |
| `Checkpoints.MigrateCheckPointData` | src/api/Fig.Api/Services/EncryptionMigrationService.cs:516-569 | In the text of an export exactly the secret strings, and the cells that are not null under columns marked secret, are sealed anew, everything else is what it was; the text is left to the letter if it is no export or nothing in it is secret; it fails exactly if one of these is undecipherable |
| `Checkpoints.MigrateGrid` | src/api/Fig.Api/Services/EncryptionMigrationService.cs:545-560 | Column by column over the rows in place gives what row by row gives, a column named twice included |
| `Checkpoints.MigratedSettingIs` | src/api/Fig.Api/Services/EncryptionMigrationService.cs:525-563 | A migrated setting differs in nothing but the text of a secret string and the cells under columns marked secret that are not null: each is its plain text sealed under the current secret |
| `Checkpoints.SettingPreserved` | src/api/Fig.Api/Services/EncryptionMigrationService.cs:525-563 | A migrated setting of an export reads under the current secret alone as it read with both |
| `Checkpoints.CheckpointPreserved` | src/api/Fig.Api/Services/EncryptionMigrationService.cs:415-569 | A migrated checkpoint, outer text and inner secrets, reads under the current secret alone as it read with both |
| `Checkpoints.CheckpointStops` | src/api/Fig.Api/Services/EncryptionMigrationService.cs:415-569 | A checkpoint stops a migration exactly if it, or a secret string of the export it holds, or a cell under a column marked secret, is undecipherable, columns listed twice included |
| `Checkpoints.PerformCheckPointMigration` | src/api/Fig.Api/Services/EncryptionMigrationService.cs:415-514 | The same as for event logs, for checkpoints |
| `SavedStores.DeserializeAndDecryptValue` | src/api/Fig.Api/ExtensionMethods/SettingsClientBusinessEntityExtensions.cs:139-153 | What strict validated decryption of a setting value or change set gives, in either key order |
| `SavedStores.DeserializeAndDecrypt` | src/api/Fig.Api/ExtensionMethods/SettingsClientBusinessEntityExtensions.cs:45-62 | The loop over the settings of a client decrypts all values in place, and fails exactly if one cannot be read |
| `SavedStores.ClientPreserved` | src/api/Fig.Api/ExtensionMethods/SettingsClientBusinessEntityExtensions.cs:36-62 | All values of a client that was saved back read under the current secret alone as they read with both |
| `SavedStores.ClientStops` | src/api/Fig.Api/ExtensionMethods/SettingsClientBusinessEntityExtensions.cs:139-153 | A client stops a migration exactly if the number of distinct configured keys that yield JSON is not one for some value |
| `SavedStores.WebHookPreserved` | src/api/Fig.Api/ExtensionMethods/WebHookClientBusinessEntityExtensions.cs:8-19 | The secret of a web hook client that was saved back reads under the current secret alone as it read with both |
| `SavedStores.WebHookStops` | src/api/Fig.Api/ExtensionMethods/WebHookClientBusinessEntityExtensions.cs:14-19 | A web hook client stops a migration exactly if no configured key opens its secret; text that is not encrypted counts |
| `SavedStores.ChangePreserved` | src/api/Fig.Api/ExtensionMethods/DeferredChangeBusinessEntityExtensions.cs:15-62 | A deferred change that was saved back reads under the current secret alone as it read with both |
| `SavedStores.ChangeStops` | src/api/Fig.Api/ExtensionMethods/DeferredChangeBusinessEntityExtensions.cs:47-62 | A deferred change stops a migration exactly if the number of distinct configured keys that yield JSON of a change set is not one |
| `MigratedStores.PreviousSecretIsRedundantExactlyIf` | src/api/Fig.Api/Datalayer/Repositories/SettingClientRepository.cs:191-193 | After a completed run every client reads under the current secret alone as with both before, exactly if that was so already for the clients outside the filter of the user who ran it |
| `MigratedStores.FilteredClientIsLost` | src/api/Fig.Api/Datalayer/Repositories/SettingClientRepository.cs:191-193 | A value sealed under the previous secret, of a client outside that filter, is unreadable once the previous secret is taken out, although the run completed |
| `PerformMigration.FilteredClientStopsNothing` | src/api/Fig.Api/Datalayer/Repositories/SettingClientRepository.cs:191-193 | Adding a client outside the filter, whatever its values, changes nothing in whether a migration can complete |
| `PerformMigration.MigrateWithFilteredClient` | src/api/Fig.Api/Services/EncryptionMigrationService.cs:58-101 | A migration that may start and meets nothing stuck completes, and a value under the previous secret of a client outside the filter is unreadable without that secret |
| `RotationState.CreatedStages` | src/api/Fig.Api/Services/EncryptionMigrationStages.cs:15-27 | Seven pending stages with distinct ids and names, in index order |
| `RotationRuns.MigrationRuns` | src/api/Fig.Api/Services/EncryptionMigrationService.cs:80-100 | In every state of every run, wherever an exception strikes: stages completed, then at most one running or failed, then pending; the record count is the sum; in progress the last completed stage is the highest; a finished run has all completed |
| `RotationRuns.StepKeepsInv` | src/api/Fig.Api/Services/ApiSecretRotationStateService.cs:208-402 | Each stage operation, live report, completion or failure keeps the invariant of a run |
| `RotationRuns.FailureKeepsLastCompleted` | src/api/Fig.Api/Services/ApiSecretRotationStateService.cs:324-359 | Recording a failure keeps the last completed stage right exactly if the current stage was not completed, which is so exactly inside a stage or before the first; otherwise the stage completed last becomes Failed and is still named as the last completed one |
| `RotationRuns.StaleRun` | src/api/Fig.Api/Services/ApiSecretRotationStateService.cs:324-359 | For each stage, a run that fails right after it: the row has the stage failed and names it as the last completed one |
| `RotationRuns.SnapshotInRun` | src/api/Fig.Api/Services/ApiSecretRotationStateService.cs:421-452 | What readers are shown never has fewer records than stored, never touches a completed stage and keeps the stages in order |
| `RotationHosts.OneHostMigrates` | src/api/Fig.Api/Services/ApiSecretRotationStateService.cs:143-181 | Of any number of hosts at most one is between a successful start and its end, the row names it, and readers then prefer the previous secret |
| `RotationHosts.KeyOrderFollowsEvents` | src/api/Fig.Api/Services/ApiSecretRotationStateService.cs:72-80 | Readers prefer the current secret exactly if the last start, completion or recorded failure was a completion |
| `RotationHosts.VanishBlocksForever` | src/api/Fig.Api/Services/ApiSecretRotationStateService.cs:154-155 | A host that vanishes while it migrates leaves the rotation in progress for good: every later start is refused |
| `RotationHosts.BlockedExactlyIfVanished` | src/api/Fig.Api/Services/EncryptionMigrationService.cs:72-101 | In every state of every run the rotation is in progress with nobody at work exactly if some host has vanished before |
| `RotationHosts.VanishingRun` | src/api/Fig.Api/Services/EncryptionMigrationService.cs:72-80 | It takes a start and the end of that host: any host can block the rotation |
| `RotationService.Service.MarkMigrationStarted` | src/api/Fig.Api/Services/ApiSecretRotationStateService.cs:143-181 | A start is refused exactly if rotation is not configured or a host has it in progress; otherwise the row is fresh, the throttle is empty and the returned status is never completed |
| `RotationService.Service.InitializeMigrationProgress` | src/api/Fig.Api/Services/ApiSecretRotationStateService.cs:183-206 | The row gets fresh progress: the given stages reset to pending with nothing processed and their totals kept, sorted by index with ties in order, no current and no last completed stage, count 0; the rest of the row is kept |
| `RotationService.Service.MarkMigrationStageStarted` | src/api/Fig.Api/Services/ApiSecretRotationStateService.cs:208-231 | The stage is in progress with nothing processed and is the current one, no other stage changed, records and last completed stage follow; it fails exactly without a rotation, a row or such a stage |
| `RotationService.Service.MarkMigrationProgress` | src/api/Fig.Api/Services/ApiSecretRotationStateService.cs:233-254 | A report is dropped exactly if it is not forced, the stage was reported under the interval ago and with fewer than five new records; a dropped report changes nothing, any other is recorded in its stage as in progress |
| `RotationService.Service.ReportLiveMigrationProgress` | src/api/Fig.Api/Services/ApiSecretRotationStateService.cs:256-273 | The live entry is replaced, if rotation is configured |
| `RotationService.Service.MarkMigrationStageCompleted` | src/api/Fig.Api/Services/ApiSecretRotationStateService.cs:275-295 | The stage is completed with the records given and is the current one, no other stage changed, records and last completed stage follow; it fails exactly without a rotation, a row or such a stage |
| `RotationService.Service.MarkMigrationCompleted` | src/api/Fig.Api/Services/ApiSecretRotationStateService.cs:297-322 | Stages in progress are completed, no other changes, nothing is current, no error is left, the last completed stage is not written again, and live progress is gone |
| `RotationService.Service.MarkMigrationFailed` | src/api/Fig.Api/Services/ApiSecretRotationStateService.cs:324-359 | Without a configured rotation or a row nothing is recorded; otherwise the current stage has failed, whatever it was, no other stage changed, the last completed one is not written again, and the error is noted |
| `RotationService.Service.GetSnapshot` | src/api/Fig.Api/Services/ApiSecretRotationStateService.cs:49-109 | What is shown is what is stored, with an entry of live progress overlaid only while the migration runs, for ten minutes, on a stage that is not completed and has no more records; any other entry of a migration that does not run, or too old, is dropped |
| `PerformMigration.ValidateActiveApiHosts` | src/api/Fig.Api/Services/EncryptionMigrationService.cs:615-636 | It passes exactly if no host that has a name reports a different secret |
| `TrackedStages.BatchStage` | src/api/Fig.Api/Services/EncryptionMigrationService.cs:103-204 | A stage that works in batches completes exactly if every pending record opens; then exactly these are migrated, and the row moves to the next stage with their number; else the failure is recorded |
| `TrackedStages.ResaveStage` | src/api/Fig.Api/Services/EncryptionMigrationService.cs:372-413 | A stage that loads and saves back completes exactly if every record can be decrypted and the database takes every save; nothing is saved unless all were decrypted; the forced reports in between keep the row in its stage |
| `TrackedStages.PreparedResaveStages` | src/api/Fig.Api/Services/EncryptionMigrationService.cs:206-273 | The same in two stages, with the number of clients on both |
| `TrackedStages.SaveAll` | src/api/Fig.Api/Services/EncryptionMigrationService.cs:244-264 | After each save exactly the records so far are encrypted anew; a refused save leaves the rest alone |
| `PerformMigration.AllStages` | src/api/Fig.Api/Services/EncryptionMigrationService.cs:82-90 | The seven stages in order over the six stores: completed exactly if everything can be read and saved; a failure leaves the later stores alone; the row has the number of records of each stage |
| `PerformMigration.CanMigrateExactlyIf` | src/api/Fig.Api/Services/EncryptionMigrationService.cs:82-90 | A migration completes exactly if no accessible client value, web hook secret, pending event log, pending history value, pending checkpoint or deferred change is stuck in the sense above and the database takes every save |
| `PerformMigration.PerformMigration` | src/api/Fig.Api/Services/EncryptionMigrationService.cs:58-101 | The whole migration: without a previous secret it migrates all event logs and never fails there; otherwise it does nothing and says why, or completes with every record of the six stores reading under the current secret alone as before, except for clients the user has no access to, and the row fully completed, or records a failure with every record still readable |
| `SettingGroups.LeafNameIgnoresPrefix` | src/api/Fig.Api/Services/SettingGroupService.cs:353-360 | The leaf name is what stands behind the last arrow with something behind it, trimmed: no prefix and no trailing arrows change it |
| `SettingGroups.RegisterItemJoins` | src/api/Fig.Api/Services/SettingGroupService.cs:236-267 | Registering an item whose group exists: if the first grouped setting that has its leaf name, by its name or by one of its sources, is number k, only k changes, and then refers to the client and setting; a grouped setting is added exactly if no name and no source in the group has the leaf name |
| `SettingGroups.RegisterItemCreates` | src/api/Fig.Api/Services/SettingGroupService.cs:268-289 | An item whose group does not exist makes a group with one grouped setting of its own name |
| `SettingGroups.JoinKeepsMatches` | src/api/Fig.Api/Services/SettingGroupService.cs:243-266 | Adding an item changes, for no leaf name, which of the grouped settings have it by their name or a source |
| `SettingGroups.RegistrationIsIdempotent` | src/api/Fig.Api/Services/SettingGroupService.cs:230-292 | Registering any part of a list of items again adds nothing |
| `SettingGroups.RegisterSettles` | src/api/Fig.Api/Services/SettingGroupService.cs:230-291 | After registration, for every item, the first group with its name has, in its first grouped setting with the leaf name by name or source, a reference to the client and setting |
| `SettingGroups.RegisterExtends` | src/api/Fig.Api/Services/SettingGroupService.cs:230-291 | Registration leaves groups that no item names alone, adds only references of the client to the others, and creates groups with such references only |
| `SettingGroups.RemovedIs` | src/api/Fig.Api/Services/SettingGroupService.cs:140-166 | A group goes with a client exactly if it had grouped settings and none of their sources is another client's |
| `SettingGroups.ValidatedIs` | src/api/Fig.Api/Services/SettingGroupService.cs:183-221 | A group goes with a validation exactly if it had grouped settings, and each had sources, all of them the client's and to unregistered settings |
| `SettingGroups.RemovalLeavesOthers` | src/api/Fig.Api/Services/SettingGroupService.cs:140-166 | Removal leaves exactly the references of other clients, in their order |
| `SettingGroups.ValidationLeavesRegistered` | src/api/Fig.Api/Services/SettingGroupService.cs:187-221 | Validation leaves exactly the references of other clients and those to registered settings, in their order |
| `SettingGroups.RemovalUndoesRegistration` | src/api/Fig.Api/Services/SettingGroupService.cs:132-172 | Registration then removal restores exactly the original groups if and only if they had no reference to the client, no empty grouped setting, and no empty group that an item names |
| `SettingGroups.RemovalAbsorbsRegistration` | src/api/Fig.Api/Services/SettingGroupService.cs:132-172 | Registration then removal is removal, exactly if no group that an item names was empty |
| `SettingGroups.RegistrationConsumesEmptyGroup` | src/api/Fig.Api/Services/SettingGroupService.cs:156-160 | An empty group is lost when the first client to use it is removed |
| `SettingGroups.RemovalIsIdempotent` | src/api/Fig.Api/Services/SettingGroupService.cs:132-172 | Removing a client twice is removing it once |
| `SettingGroups.RemovalChangesNothing` | src/api/Fig.Api/Services/SettingGroupService.cs:142-154 | Removal leaves groups alone exactly if they have no reference to the client and no empty grouped setting |
| `SettingGroups.RemovalAbsorbsValidation` | src/api/Fig.Api/Services/SettingGroupService.cs:174-228 | Validating before a removal makes no difference |
| `SettingGroups.ValidationChangesNothing` | src/api/Fig.Api/Services/SettingGroupService.cs:189-206 | Validation leaves groups alone exactly if they have no reference of the client to an unregistered setting |
| `SettingGroups.ValidationIsIdempotent` | src/api/Fig.Api/Services/SettingGroupService.cs:174-228 | Validating twice is validating once, and no orphaned reference is left |
| `SettingGroups.RegistrationSurvivesValidation` | src/api/Fig.Api/Services/SettingGroupService.cs:174-292 | What a client registered survives a validation against names that include it |
| `SettingGroups.RegisterKeepsDistinct` | src/api/Fig.Api/Services/SettingGroupService.cs:233-289 | Registration never makes two group names that differ in case only |
| `SettingGroupService.Service.RemoveClientFromGroups` | src/api/Fig.Api/Services/SettingGroupService.cs:132-172 | The loops over entities, grouped settings and references give exactly the removal function, deleting emptied groups; left are the references whose client differs by more than case |
| `SettingGroupService.Service.ValidateClientRegistrationGroups` | src/api/Fig.Api/Services/SettingGroupService.cs:174-228 | The loops give exactly the validation function; left are the references of other clients and those to names that are registered and not blank |
| `SettingGroupService.Service.HandleInitialRegistrationGroups` | src/api/Fig.Api/Services/SettingGroupService.cs:230-292 | It fails, before any change, exactly if two group names differ in case only; otherwise it gives exactly the registration function, and every item is referenced from the first grouped setting with its leaf name, by name or source, of the first group with its name |
| `HashCache.TransparentExactlyIfCoherent` | src/api/Fig.Api/Services/HashValidationCache.cs:28-138 | Over all interleavings with invalidation and cleanup every answer is that of direct verification, exactly if calls that share an entry have the same answer |
| `HashCache.OneApiSecretIsCoherent` | src/api/Fig.Api/Services/HashValidationCache.cs:62-94 | With one hash function and injective fingerprints that always holds, although client and setting names can compose the same key |
| `HashCache.KindsNeverCollide` | src/api/Fig.Api/Services/HashValidationCache.cs:145-153 | Keys of client secrets and of code hashes are never equal |
| `HashCache.HasherCoherentExactlyIf` | src/api/Fig.Api/Validators/CodeHasher.cs:50-76 | The calls that the hasher makes when answered right are coherent exactly if not all of this holds: a different previous secret is configured, some code has a hash under it only, and one setting shares its key with the previous-secret key of another |
| `HasherRuns.HasherRightExactlyIf` | src/api/Fig.Api/Validators/CodeHasher.cs:50-76 | Over all interleavings of threads that ask the hasher, with removals in between, every answer is that of the overload without a cache, exactly under the same condition |
| `HasherRuns.MisleadingRun` | src/api/Fig.Api/Validators/CodeHasher.cs:59-75 | For clashing names and a code that only the previous secret matches, one thread that asks about both settings is told that the second code is invalid |
| `HasherRuns.MisleadingInput` | src/api/Fig.Api/Validators/CodeHasher.cs:59-75 | Two settings of one client and a hash function for which that happens |
| `HasherRuns.StepKeepsInv` | src/api/Fig.Api/Validators/CodeHasher.cs:50-76 | Each question, answer and step of the cache keeps threads at the call that their stage says, and answers right, where the calls are coherent |
| `HashCache.ClashingNames` | src/api/Fig.Api/Validators/CodeHasher.cs:10-10 | Such names exist |
| `HashCache.ValidatedIsDirect` | src/api/Fig.Api/Services/HashValidationCache.cs:28-94 | An uninterrupted validation answers directly and keeps the cache truthful |
| `HashCache.HashValidationCache.ValidateClientSecret` | src/api/Fig.Api/Services/HashValidationCache.cs:28-60 | An entry under the client key that is not older than the expiry and was made for the same hash and fingerprint answers and stays; otherwise the answer is direct and is stored; without a cache it is direct |
| `HashCache.HashValidationCache.ValidateCodeHash` | src/api/Fig.Api/Services/HashValidationCache.cs:62-94 | The same for code hashes, under a key of client and setting name; the direct answer is whether hash and HMAC are Base64 of the same bytes |
| `HashCache.HashValidationCache.InvalidateClient` | src/api/Fig.Api/Services/HashValidationCache.cs:96-117 | Exactly the client key and the keys with the client prefix are removed, all else is unchanged |
| `HashCache.HashValidationCache.CleanupExpiredEntries` | src/api/Fig.Api/Services/HashValidationCache.cs:119-138 | Exactly the expired entries are removed |
| `HashCache.InvalidatedKeys` | src/api/Fig.Api/Services/HashValidationCache.cs:96-111 | An invalidation covers all settings of the client, also under the previous API secret, but not the key of its previous client secret |
| `HashCache.CodeHasher.IsValid` | src/api/Fig.Api/Validators/CodeHasher.cs:50-76 | Going through the cache gives the answer of the overload that uses none, for coherent calls; the exception exactly for a missing API secret |
| `HashCache.UncachedIs` | src/api/Fig.Api/Validators/CodeHasher.cs:33-48 | With an API secret configured, the overload without a cache accepts a code exactly if neither is blank and the hash is that of the code under the current secret, or under a previous one that is neither blank nor the same |
| `Masking.GetDataGridDataContract` | src/api/Fig.Api/Converters/SettingConverter.cs:117-133 | The rows handed in are themselves masked and passed on: text under a column marked secret is blank or the placeholder afterwards, and every other cell unchanged; repeated rows and columns do no harm |
| `Masking.MaskingHides` | src/api/Fig.Api/Converters/SettingConverter.cs:123-128 | After masking the only text in a secret column is blank or the placeholder |
| `Masking.GetDataGridBusinessEntity` | src/api/Fig.Api/Converters/SettingConverter.cs:85-115 | In each submitted row a placeholder under a column marked secret is replaced by the original cell of its place, and nothing else changes, unless there is no definition or the setting had no value |
| `Masking.MaskThenRestoreIsIdentity` | src/api/Fig.Api/Converters/SettingConverter.cs:85-133 | Submitting a masked grid unchanged stores the original grid |
| `Masking.PlaceholderSurvives` | src/api/Fig.Api/Converters/SettingConverter.cs:88-111 | A secret cell is stored as the placeholder exactly if it was submitted as such and the original cell was the placeholder or the setting had no value |
| `Masking.PlaceholderStoredWithoutOriginal` | src/api/Fig.Api/Converters/SettingConverter.cs:88-89 | A placeholder submitted for a setting without a value is stored |
| `DataGrid.SecretColumnsAre` | src/api/Fig.Api/Converters/SettingConverter.cs:119-119 | The names of secret columns are exactly those that some column marked secret has |
| `DataGrid.SecretColumnsInOrder` | src/api/Fig.Api/Converters/ClientExportConverter.cs:184-184 | They are listed in the order of the definition, as often as they are marked |
| `ClientExport.ExportThenImport` | src/api/Fig.Api/Converters/ClientExportConverter.cs:100-128 | Importing an export where its secret is among the keys gives exactly the value described below, for any text format of numbers and times; it fails exactly if the text of a secret one does not parse |
| `ClientExport.ExportHidesSecrets` | src/api/Fig.Api/Converters/ClientExportConverter.cs:171-195 | No export has a secret in the open: a secret text, and every cell that is not null under a column marked secret, is sealed under the current secret and the export marked; every other cell is as it was |
| `ClientExport.ComesBackUnchanged` | src/api/Fig.Api/Converters/ClientExportConverter.cs:171-195 | A value comes back unchanged exactly if it is not a grid that is secret as a whole, nor a grid with a non-text value under a column marked secret, nor a secret number or time that its text does not say exactly |
| `ClientExport.StringSecretsSurvive` | src/client/Fig.Client/SettingDefinitionFactory.cs:558-563 | Where only strings are secret, as the client library requires, every value survives an export and an import |
| `ClientExport.RowRoundTrip` | src/api/Fig.Api/Converters/ClientExportConverter.cs:112-124 | Secret columns named several times are encrypted and decrypted as often, and cancel out |
| `ClientExport.ImportOpens` | src/api/Fig.Api/Converters/ClientExportConverter.cs:236-262 | The import opens what the exporting secret sealed, with a custom key or among the configured ones |
| `ClientExport.ImportDecryptIs` | src/api/Fig.Api/Converters/ClientExportConverter.cs:236-262 | Text of an import is opened by the custom key alone if there is one, otherwise by either configured secret, and nothing is passed through |
| `ClientExport.Export` | src/api/Fig.Api/Converters/ClientExportConverter.cs:171-195 | The export holds the row objects of the setting, whose own cells under columns marked secret are now sealed, and no others |
| `ClientExport.Import` | src/api/Fig.Api/Converters/ClientExportConverter.cs:100-128 | The import succeeds exactly if every text and cell can be decrypted and parsed; each cell is decrypted once for every column of its name marked secret, others stay; a grid keeps its row objects |
| `ClientExport.RoundTrip` | src/api/Fig.Api/Converters/ClientExportConverter.cs:100-195 | Export then import gives the value that comes back, in the same row objects, so the entity is restored too |
| `SettingApplier.GetImportMatch` | src/api/Fig.Api/DataImport/SettingApplier.cs:76-153 | The exact name first; otherwise the rename source, only if unregistered and without a migration method; what is handled and warned of |
| `SettingApplier.ResolveIs` | src/api/Fig.Api/DataImport/SettingApplier.cs:76-153 | A setting takes entry i exactly if i is the first entry of its name that has the name of the setting, or, there being none, the name it was renamed from, which no setting has, and no migration method is required |
| `SettingApplier.RegisteredEntriesAreOwn` | src/api/Fig.Api/DataImport/SettingApplier.cs:93-97 | Two settings with different names take the same entry only if both are renamed from its name and no setting has it any more |
| `SettingApplier.NeverOpenedTwice` | src/api/Fig.Api/DataImport/SettingApplier.cs:162-225 | However many settings resolve to an entry, it is decrypted at most once, from what was imported |
| `SettingApplier.OpenedIs` | src/api/Fig.Api/DataImport/SettingApplier.cs:162-225 | An entry that is not marked as encrypted stays; of a grid the cells under columns marked secret are decrypted; another value under such columns stays, still marked; without such columns the text of the value is decrypted |
| `SettingApplier.EachSettingSettles` | src/api/Fig.Api/DataImport/SettingApplier.cs:37-74 | If the entry that a setting resolves to has a value that is not null, says something else than the old one and can be converted, the setting ends with the converted value and is listed as changed; otherwise it keeps its old value and is not |
| `SettingApplier.HandledOrMissing` | src/api/Fig.Api/Services/ImportExportService.cs:440-453 | Every imported name is handled or reported missing, never both |
| `SettingApplier.ApplyEntry` | src/api/Fig.Api/DataImport/SettingApplier.cs:43-70 | Decrypting and taking one entry is one step of the import function |
| `SettingApplier.ApplySettings` | src/api/Fig.Api/DataImport/SettingApplier.cs:37-74 | The loop gives exactly the import function; it fails only when an entry that a setting takes cannot be decrypted; else every setting ends as in the row before, and the changed names are exactly those of settings whose value was replaced |
| `SettingApplier.UpdateClient` | src/api/Fig.Api/Services/ImportExportService.cs:436-458 | After a successful import every setting is settled in the same sense and exactly the unhandled names are reported |
| `SecretAgreement.Agreement` | src/client/Fig.Client.SecretProvider.Google/GoogleSecretProvider.cs:40-223 | Over processes, threads, transient failures, retries and crashes all calls that return for one key return the same string, the latest in the store |
| `SecretAgreement.AtMostOneVersionAdded` | src/client/Fig.Client.SecretProvider.Google/GoogleSecretProvider.cs:113-169 | An existing secret gains no version, any other at most one, although creation takes two steps |
| `SecretAgreement.UnexpectedIsUnreachable` | src/client/Fig.Client.SecretProvider.Aws/AwsSecretProvider.cs:95-180 | The exception behind the retry loop is never thrown |
| `SecretAbandonment.AbandonedForever` | src/client/Fig.Client.SecretProvider.Google/GoogleSecretProvider.cs:120-143 | Once a secret has no version and nobody is about to add one, no call for the key ever returns again |
| `SecretAbandonment.AbandonedExactlyIfLost` | src/client/Fig.Client.SecretProvider.Google/GoogleSecretProvider.cs:120-143 | In every run a secret is so exactly if it was so at first or the second step of its creation was lost: the first took effect behind a transient error, the second failed without an effect, or the process died between them |
| `SecretAbandonment.AbandoningRun` | src/client/Fig.Client.SecretProvider.Google/GoogleSecretProvider.cs:201-209 | Seven steps suffice over any store without the secret: the creation takes effect but reports a transient error |
| `SecretAbandonment.CompletingRun` | src/client/Fig.Client.SecretProvider.Google/GoogleSecretProvider.cs:113-169 | Without errors one thread carries a creation through: from any store without the secret to the new secret as its one version, returned, with the addition exactly in two-step stores |
| `SecretAbandonment.CanBeAbandonedExactlyIf` | src/client/Fig.Client.SecretProvider.Google/GoogleSecretProvider.cs:101-143 | Over a store of complete secrets some run abandons the key of a client exactly if creation takes two steps, some process creates secrets, and the secret is not there yet |
| `SecretAbandonment.OnlyAllowedCreate` | src/client/Fig.Client.SecretProvider.Google/GoogleSecretProvider.cs:101-110 | Only processes with auto-creation are ever at work on a creation |
| `SecretAbandonment.OneStepNeverAbandons` | src/client/Fig.Client.SecretProvider.Aws/AwsSecretProvider.cs:105-110 | With one-step creation that cannot happen |
| `SecretAgreement.OneThreadPerProcess` | src/client/Fig.Client.Contracts/ClientSecretProviderBase.cs:39-58 | In each process at most one thread at a time talks to the store |
| `SecretAgreement.StepKeepsInv` | src/client/Fig.Client.SecretProvider.Google/GoogleSecretProvider.cs:40-223 | Each store call, cache access and retry keeps the invariant behind agreement |
| `SecretAgreement.KeyIgnoresSpaces` | src/client/Fig.Client.SecretProvider.Google/GoogleSecretProvider.cs:42-42 | Spaces in the name of a client do not change the key of its secret; without them it is the upper-case name between fixed ends |
| `SecretProvider.Provider.GetSecret` | src/client/Fig.Client.Contracts/ClientSecretProviderBase.cs:39-58 | With others acting in between, a returned secret is cached and the latest version in the store; a cached one is returned without a call to the store; otherwise the calls are those of the next row. If no reply is an error and nobody interferes, a secret is returned exactly if there was a usable one, or none at all and this process creates secrets |
| `SecretProvider.Provider.GetOrCreateSecretInternal` | src/client/Fig.Client.SecretProvider.Google/GoogleSecretProvider.cs:40-111 | One read, and a second one exactly after a transient error; a usable value is returned; an error ends the call; without auto-creation nothing usable is not-found; with it a creation follows, in at most three attempts and under the own key only |
| `SecretProvider.Provider.CreateSecretWithRetry` | src/client/Fig.Client.SecretProvider.Google/GoogleSecretProvider.cs:113-223 | A creation that found the secret absent is followed at once by the addition of its version, where that is a step of its own, and that by the verifying read. The call fails only on an error that is not transient, or when all attempts are used: the last one met an error, or found a secret without a usable value |
| `SecretProvider.OthersRely` | src/client/Fig.Client.SecretProvider.Google/GoogleSecretProvider.cs:113-143 | What the provider relies on others for is what every run of the step system keeps to |
| `Histogram.RoundMs` | src/tools/Fig.LoadTest/LoadTestRunner.cs:147-151 | The nearest millisecond, halves away from zero |
| `Histogram.GetAutoBinCount` | src/tools/Fig.LoadTest/LoadTestRunner.cs:181-185 | The ceiling of the square root of the number of samples, between 5 and 50 |
| `Histogram.IndexInBounds` | src/tools/Fig.LoadTest/LoadTestRunner.cs:158-163 | The index of every sample is inside the array, and the sample lies in its bin |
| `Histogram.BinsFit` | src/tools/Fig.LoadTest/LoadTestRunner.cs:156-158 | There are at most as many bins as chosen |
| `Histogram.FillBins` | src/tools/Fig.LoadTest/LoadTestRunner.cs:158-164 | Each bin counts exactly its samples, and the counts add up to the number of samples |
| `Histogram.PrintHistogram` | src/tools/Fig.LoadTest/LoadTestRunner.cs:141-178 | All of this for every list of samples: the bins start at the smallest, cover all samples, none is surplus, and they have the least width for which the chosen number covers the range |
| `Linq.OrderByStable` | src/api/Fig.Api/Reports/UptimeCalculator.cs:65-65 | OrderBy keeps the order of equal keys, which with sortedness determines it |

## Left out

- Registration lock: liveness; a thread that fetched an entry before a cleaner disposed it can wait for ever. Each releaser is disposed once, by one owner.
- Ciphers: AES in CBC mode without authentication opens wrong-key text with small probability; the model's cipher fails on every wrong key. BCrypt, SHA-256 and HMAC are functions.
- JSON: texts are parsed and rendered by functions that invert each other; the rotation progress that fails to parse, and so reads as empty, is not modelled.
- Times: instants are integers; `DateTime` limits, time zones and the text of durations are not modelled, except that the uptime of an expired session is given as already parsed.
- Uptime percentages: exact rationals instead of floating point.
- Repositories: NHibernate, transactions and ordering of rows; a fetch returns some pending records and an update stores them. Row access to the rotation state is serialised; two hosts that both find no row are not modelled.
- TrackedStages.BatchStage: the progress reports inside the batch loops, and all live reports, are in the runs only; a database that refuses a save is modelled for the stages that save records one by one.
- SavedStores: the hashes of display scripts that saving a client recomputes; its other fields are kept.
- InitializeMigrationProgress failing by itself, and exceptions other than those of decryption and saving, are the vanishing host of the host model.
- Rotation state: timestamps, current item and action texts, progress messages and the status contract.
- Setting groups: creating, editing and listing groups by hand, permissions, and names with letters beyond ASCII; the times of modification.
- Hash cache: `StartsWith` compares by culture in the source and by character here.
- Setting values: the conversions between contract and entity types that copy a value, date and number formats, and defaults of secret columns, which an export masks.
- Full exports: the fields that are copied, and the order of settings by name.
- ClientExport.RoundTrip: cells that are no strings are known by their text, so different types with one text are not told apart.
- SettingApplier.ApplySettings: rows of an imported grid are read into dictionaries of their own, as for JSON arrays; a list of dictionaries handed over in process would be edited in place. The time of the last change is not recorded.
- Deferred imports, import of whole clients, and the event log and history that an import writes.
- Secret providers: the dictionary cache is read and written atomically, and nobody but the providers writes to the store. Azure and Docker overwrite or check and then write, so agreement does not apply to them.
- Histogram: the printed bars and labels; the range of the samples fits an integer.
- Controllers, middleware, web hooks, telemetry, reports other than uptime, setting definitions and the client library's settings binding.

# Orvix verification model

Orvix is a mail platform. This project models the parts of it whose behaviour is decided by state,
branching and arithmetic, and proves what those parts are for. Each module stands for one component:

| file | component |
|---|---|
| `BackupEnvelope.dfy`, `EnvelopeFiles.dfy` | the chunked, authenticated envelope of an encrypted backup; writing and reading it while any I/O call may fail |
| `RestoreService.dfy` | restoring a backup over a live system, with the walk that takes the safety backup and with the rollback, when any step may fail |
| `RestoreCoordinator.dfy` | the external coordinator: durable job and result files, statuses, overlapping submissions, crashes |
| `ArchiveFormat.dfy`, `ArchiveWriter.dfy` | the canonical archive: its strict validator and its writer |
| `BackupRoundTrip.dfy` | from a live state to an encrypted backup and back to what a restore stages |
| `AuthLimits.dfy`, `AuthBudgets.dfy` | the limiter of authentication attempts and its two stores; what it can admit over whole runs |
| `SendLedger.dfy`, `SendQuota.dfy` | the ledger of outgoing mail; the daily quota under interleaved transactions |
| `InvoiceMerge.dfy` | merging invoice events that arrive late, twice and in any order |
| `WebhookEvents.dfy` | claim-and-apply processing of provider events |
| `Subscriptions.dfy`, `SubscriptionRaces.dfy`, `SubscriptionScheduler.dfy` | the life of a subscription, concurrent changes to it, and the scheduler |
| `MigrationOrder.dfy` | the table order of the database migration (Kahn's algorithm) |
| `Credentials.dfy`, `CredentialRuns.dfy` | access tokens, API keys and their revocation |
| `MfaChallenges.dfy` | challenges of the second factor |
| `Outcomes.dfy`, `Collections.dfy`, `Text.dfy`, `Sums.dfy`, `SubscriptionStatus.dfy` | shared datatypes, sets and sequences, string operations, sums over maps, subscription states |

## How it is modelled

- Objects that the source updates in place are classes with the same fields; each method is proved
  against a function of the old state, and the theorems are lemmas about those functions and about runs
  of them. Tables are maps or sequences of rows, a guarded `UPDATE` or a serial transaction is one step.
  Where calls overlap (`SendQuota`, `SubscriptionRaces`, `WebhookEvents.System`, `CredentialRuns`,
  `MfaChallenges`, the submissions of `RestoreCoordinator`) every statement that matters is a step of its own
  and the steps interleave freely.
- Beside the laws over runs, every rule that decides an outcome is also written out in the source's own terms,
  with its constants: which entries an archive may hold, who is admitted, who may send, which transitions there
  are, what is due, which accounts, keys, tokens and roles are accepted, which jobs are taken up. These are the
  lemmas named `...Exactly`; the table lists those that say more than one such rule.
- Time, random numbers, hashes, month arithmetic and the outcome of every I/O call are parameters, so the
  theorems hold for all of them. A timeout is a failed step without later effect.
- Cryptography is ideal: `BackupEnvelope.Ideal` says that opening succeeds exactly on the nonce, data and
  associated data that were sealed (section 7 of NIST SP 800-38D gives the real operation).
- Integers are unbounded; the length word and the chunk index of the envelope are the exceptions and are
  written out with their widths.

## What the proofs found in the code

Where a promise holds only under a condition, the condition is proved exact or a lemma gives the input that
breaks it:

- An envelope's records are bound to their places but not to their file, and its terminator is not
  authenticated. Accepted is exactly what consists of sealings for their places (`AcceptedExactly`): cuts,
  extensions and, with fresh nonces, exchanged records are always rejected, but the records of two backups
  sealed under one key can be mixed (`SplicedAccepted`), contrary to the comment in
  `internal/backup/encryption.go:86-89`, and a shorter run of one backup's records opens under another
  terminator (`AcceptedAlone`).
- Unpacking ignores copy errors (`internal/backup/service.go:2376-2381`): a restore that reports success left
  the backup live if and only if no copy fell short (`RestoreBackup`, `ShortCopyUnnoticed`).
- The walk that takes the safety backup swallows its errors (`internal/backup/service.go:2319-2343`):
  `WalkedWhole` says exactly when it has taken everything. A restore reported as rolled back is undone if and
  only if that was so and the keys come back (`RestoreBackup`). Without encryption the safety backup carries no
  keys, while the validator still accepts an archive with key files that its manifest lists
  (`KeysWithoutEncryption`, `KeyFileAccepted`), so that a key it has overwritten stays overwritten
  (`KeyNotBroughtBack`).
- A crash during an activation leaves a half-activated state, and the job is taken up again. What "rolled back"
  then brings back is that state: the one from before the job exactly if the crash had changed nothing that
  counts, while the safety backup of the first attempt still holds it (`RestoreAfterCrash`, `CrashKeepsHalf`).
- A valid verdict does not say that an archive can be activated: exactly the valid archives with a database and
  readable mail and attachments can (`ActivatesExactly`, `AcceptedInParts`).
- The scan for an active job and the writing of the new job's result are not one step. Exactly the runs in
  which no submission is overtaken in between have one restore at a time (`OneRestoreExactly`,
  `OverlapLeavesTwo`).
- A small archive file that starts with `sha256:` is taken at its word (`ValidVerdict`, `MarkedAccepted`).
- A fixed window of budget `max` lets up to `2 * max - 1` attempts pass within one window's length, twice that
  when the distributed store fails in between, and both bounds are met (`HitsWithinOneWindow`,
  `BoundIsReached`, `DoubleBoundIsReached`).
- An event id that belongs to a bounce is granted without a reservation (`GrantedMeansReserved`). A finalisation
  checks no limit: a run stays within all limits if and only if every insertion and every finalisation has room
  on its day (`RunsWithinExactly`, `LaterFinalisationOverruns`). A finalisation that finds its reservation
  already taken still counts (`OverlappingFinalisation`).
- An unpaid invoice's status follows the order of delivery, equal event times mix two events, and an event
  without a time makes the row start over, so that the newest event wins if and only if it has been delivered
  after the last event without a time (`StatusFollowsDelivery`, `EqualTimesMix`, `NewestWinsExactly`).
- An event that shares an idempotency key with another is answered as processed on SQLite although its change
  is never made (`SharedKeySwallowed`).
- As long as no write of a tenant comes between a transition's reading and its update, statuses change only by
  valid transitions and renewals of ended subscriptions (`UndisturbedRunsLegal`). Otherwise a transition can write
  a status that the new one does not allow, and so end a renewed subscription (`StaleTransitionEndsRenewal`);
  `LegalRunsExactly` gives the exact runs.
- The scheduler moves rows while its result set is open. Over a pool of a single connection, which is what
  `internal/config/database.go:53` gives SQLite, the first due row makes it wait until its context ends, and
  then that row alone is moved (`RunAll`).
- The recovery commands look an account up again by its address as stored: they reach exactly the accounts whose
  address is stored in lower case (`SecondLookupExactly`, `RunResetPassword`, `RunRecover`).
- The check of an API key looks at the owner last: a granted check is one that its moment would grant, exactly if
  the key is still enabled and in time and the address is allowed (`GrantedAcceptable`,
  `DisabledMeanwhileGranted`).
- A revocation store that cannot be read counts as empty (`ValidateAccessToken`); a raised version is not affected
  by that (`RevokedForGood`).

## Model

| member | source | states |
|---|---|---|
| BackupEnvelope.BigEndianReadsBack | internal/backup/encryption.go:142-144 | a length or index word of a given width reads back as the number written |
| BackupEnvelope.BigEndianWritesBack | internal/backup/encryption.go:213-216 | every word is the encoding of the number read from it |
| BackupEnvelope.AadInjective | internal/backup/encryption.go:79-84 | different chunk indexes below 2^64 have different associated data |
| BackupEnvelope.IdealExists | internal/backup/encryption.go:64-77 | the assumptions on the cipher can be met for any set of sealings |
| BackupEnvelope.ChunksJoin | internal/backup/encryption.go:124-152 | the chunks of a file are nonempty, none is longer than the chunk size, and together they are the file |
| BackupEnvelope.FramedReadsBack | internal/backup/encryption.go:203-246 | reading laid-out records opens exactly those records, in order, each under its index |
| BackupEnvelope.AcceptedIsFramed | internal/backup/encryption.go:203-246 | whatever the reader accepts is a list of records and a terminator |
| BackupEnvelope.AcceptedIsPrefixFree | internal/backup/encryption.go:217-222 | any nonempty addition to an accepted file is rejected as trailing data |
| BackupEnvelope.OwnRecordsOpen | internal/backup/encryption.go:134-148 | every run of the writer's records opens to its chunks, also when the key has sealed more |
| BackupEnvelope.OnlyOwnRecordsOpen | internal/backup/encryption.go:226-237 | whatever else the key has sealed under other nonces, records under the writer's nonces that open from an index on are the writer's records from that index on |
| BackupEnvelope.LoggedOpen | internal/backup/encryption.go:226-237 | sealings for their places open, whichever envelopes they come from |
| BackupEnvelope.OpenedAreLogged | internal/backup/encryption.go:226-237 | and nothing else opens: every record that opens is a sealing of its plaintext for its place |
| BackupEnvelope.FreshNoncesApart | internal/backup/encryption.go:134-148 | what the exchange theorem asks of the nonces holds if the key has used every nonce once, or has sealed this file only |
| BackupEnvelope.WrittenIsFramed | internal/backup/encryption.go:20-24 | no written chunk exceeds the reader's size limit |
| BackupEnvelope.FormatExactly | internal/backup/encryption.go:79-161 | the format of a file, byte by byte: magic, nonce, length and sealed chunk for every chunk, and the terminator; magic and index are what each chunk is bound to |
| BackupEnvelope.ChunksExactly | internal/backup/encryption.go:124-152 | every chunk but the last is four mebibytes, and the last is what remains |
| BackupEnvelope.RoundTrip | internal/backup/encryption.go:90-247 | decrypting what was written yields the plaintext, for every plaintext and every choice of nonces |
| BackupEnvelope.FirstRecordsOpen | internal/backup/encryption.go:203-246 | the first k records under any terminator open to the first k chunks |
| BackupEnvelope.AcceptedExactly | internal/backup/encryption.go:180-247 | for any set of sealings under the key: a file is accepted, with a given result, if and only if it is records of which each is a sealing for its place, joined to that result, under any terminator nonce |
| BackupEnvelope.AcceptedAlone | internal/backup/encryption.go:180-247 | under a key that has sealed this file only, accepted are exactly the first k records of the written envelope, for any k, under any terminator nonce |
| BackupEnvelope.SplicedAccepted | internal/backup/encryption.go:79-89 | the first k records of one backup and the rest of another under the same key open to the mixed plaintext |
| BackupEnvelope.CutOrExtendedRejected | internal/backup/encryption.go:190-246 | every strict prefix and every proper extension of a written envelope is rejected |
| BackupEnvelope.ExchangedRejected | internal/backup/encryption.go:226-237 | however much else the key has sealed under other nonces, an envelope with two records exchanged is accepted only if the two records are equal |
| EnvelopeFiles.ReadFull | internal/backup/encryption.go:127-133 | a full read fills the buffer with the next bytes as far as the file goes |
| EnvelopeFiles.WriteEnvelope | internal/backup/encryption.go:119-161 | the loop writes exactly the envelope of the file, and only a failing call stops it |
| EnvelopeFiles.EncryptBackupFile | internal/backup/encryption.go:90-176 | success means exactly the envelope at the destination; after an error the files are unchanged if and only if no temporary file was made or its removal did not fail, and else only that file differs; on a reliable device it succeeds exactly for a 32-byte key and an existing source |
| EnvelopeFiles.ReadEnvelope | internal/backup/encryption.go:207-246 | the loop writes the opened chunks to the destination and reports the envelope's own error |
| EnvelopeFiles.DecryptBackupFile | internal/backup/encryption.go:180-247 | success means the whole envelope opened into a new file; after an error the files are unchanged if and only if the destination was not made or its removal did not fail, and else only the destination differs; on a reliable device the outcome is the envelope's |
| RestoreService.ArrivedWhole | internal/backup/service.go:2347-2384 | an unpacked tree is the archived one if and only if no copy fell short |
| RestoreService.Service.ActivateArchiveDir | internal/backup/service.go:1751-1796 | success puts the unpacked tree in place; failure leaves the old directory or none |
| RestoreService.Service.RestoreKeyMaterial | internal/backup/service.go:1842-1858 | archived keys are put back path by path, other keys are untouched |
| RestoreService.Service.ActivateStagedRestore | internal/backup/service.go:1669-1713 | succeeds exactly when no step is stopped, and then database, mail, attachments and keys are the staged ones |
| RestoreService.Service.Activate | internal/backup/service.go:1546-1548 | a successful activation leaves the backup live if and only if nothing was torn |
| RestoreService.Service.BringUp | internal/backup/service.go:1546-1564 | activation, restart and health check in this order, up to the first failure |
| RestoreService.Service.RollbackRestore | internal/backup/service.go:1581-1638 | rolled back is reported exactly when the safety backup came up, and then it is live |
| RestoreService.ArchiveDir | internal/backup/service.go:2308-2345 | the walk packs exactly the matching files it took before it ended, each with its content, or leaves an archive that cannot be unpacked |
| RestoreService.WalkedWhole | internal/backup/service.go:2319-2343 | exactly when a walk has taken the whole directory, although its errors are swallowed |
| RestoreService.Service.StageKeys | internal/backup/service.go:474-492 | staging succeeds exactly if every registered key file exists, and the last key path of a base name gives the content |
| RestoreService.Service.CreateSafetyBackup | internal/backup/service.go:408-599 | a safety backup is a snapshot of the live state: the database if dumped, what the two walks took, and with encryption the staged keys; it fails exactly when a registered key is missing or a step fails |
| RestoreService.Service.StagedKeyValues | internal/backup/service.go:474-492 | every staged key has its own content if and only if keys that share a base name have the same content |
| RestoreService.Service.RollbackUndoes | internal/backup/service.go:1530-1638 | a completed rollback undoes the restore, up to mail store files that are not messages, if and only if the snapshot was whole and the keys come back: with encryption unless two of one base name differ, without it unless the broken activation changed one |
| RestoreService.Service.RestoreBackup | internal/backup/service.go:1487-1573 | exactly when a restore reports activated or rolled back and what is live then; an archive that failed validation, and a restore that is not set up, change nothing at all; a rolled back restore is undone if and only if the snapshot was whole and the keys come back; nothing live changes before an activation begins, and no key does when none is registered |
| RestoreService.Service.ActivatedExactly | internal/backup/service.go:1487-1573 | everything it takes to be activated: set up, valid, of this product and format, all parts there, a safety backup, and no failing step up to the health check |
| RestoreService.Service.CoveredIsWhole | internal/backup/service.go:2308-2345 | walks that take everything make the safety backup whole: all messages and all attachments |
| RestoreService.SmoothWalkCovers | internal/backup/service.go:2308-2345 | a walk on which nothing goes wrong takes every file with the extension |
| RestoreService.SkippedLeftOut | internal/backup/service.go:2319-2330 | a file that cannot be read about is left out and ends nothing |
| RestoreService.KeyNotBroughtBack | internal/backup/service.go:1842-1858 | a concrete restore without encryption that is reported as rolled back and leaves another key |
| RestoreService.ShortCopyUnnoticed | internal/backup/service.go:2347-2384 | a concrete restore that reports success over a state that is not the backup's |
| RestoreService.Service.CrashInActivation | internal/backup/service.go:1530-1548 | a crash in an activation leaves the safety backup, a snapshot of the state before it, and the database as far as the activation came |
| RestoreService.Service.BringsBackBoth | cmd/orvix/restore_run.go:110-125 | what brings one state back brings another one back if and only if the two do not differ in what counts |
| RestoreService.Service.RestoreAfterCrash | cmd/orvix/restore_run.go:110-125 | a job taken up again after a crash: success still means the backup is live; rolled back means back to the state the crash left, which is the one before the job if and only if the crash had left it unchanged; the first safety backup holds that one |
| RestoreService.CrashKeepsHalf | cmd/orvix/restore_run.go:110-125 | a concrete second attempt that is rolled back and keeps the database of the backup |
| RestoreCoordinator.StatusOrder | cmd/orvix/restore_run.go:145-235 | the statuses of a run: activating, restarting, verifying, rolling back, one terminal status; success only after verifying without rollback |
| RestoreCoordinator.RunJobAlone | cmd/orvix/restore_run.go:145-235 | a run of one job leaves results, files and starts of all the others alone |
| RestoreCoordinator.Coordinator.RunOneRestoreJob | cmd/orvix/restore_run.go:145-235 | a job is restored only when its result is not terminal, every status is written in order, a recorded success is a live backup, and a service without key paths, as `cmd/orvix/restore_run.go` builds it, leaves the keys alone |
| RestoreCoordinator.Coordinator.FailJobResult | cmd/orvix/restore_run.go:237-249 | a job that cannot be served is recorded as failed if it has a result |
| RestoreCoordinator.Coordinator.RecordProgress | cmd/orvix/restore_run.go:162-191 | the hooks write one result per status, and failing writes have no effect |
| RestoreCoordinator.NeverRestoredAgain | cmd/orvix/restore_run.go:110-235 | over any interleaving of submission steps, invocations and crashes a job with a terminal result stays so and is never restored again |
| RestoreCoordinator.OneRestoreAtATime | internal/restorecoord/coordinator.go:137-224 | as long as submissions do not overlap, no sequence of submission steps, invocations and crashes leads to two active jobs |
| RestoreCoordinator.OneRestoreExactly | internal/restorecoord/coordinator.go:137-176 | exactly which runs have one active job throughout: those in which no submission is overtaken between its scan and its result |
| RestoreCoordinator.OverlapLeavesTwo | internal/restorecoord/coordinator.go:137-176 | two submissions that both scan before either writes leave two active jobs |
| ArchiveFormat.ChecksumsReadBack | internal/backup/service.go:1320-1324 | the checksum list the writer prints is the list the validator reads |
| ArchiveFormat.CheckEntry | internal/backup/service.go:1951-2058 | an entry raises no problem exactly when kind, path, name, size and manifest are in order, and what is kept of it |
| ArchiveFormat.ReadEntries | internal/backup/service.go:1937-2059 | the first pass finds no problem exactly when every entry is in order given the earlier manifests |
| ArchiveFormat.ParseChecksums | internal/backup/service.go:2074-2085 | the checksum map holds the last line of every path |
| ArchiveFormat.VerifyDigests | internal/backup/service.go:2070-2113 | no problem exactly when every file but the list has the digest listed for it |
| ArchiveFormat.VerifyPresence | internal/backup/service.go:2114-2144 | no problem exactly when every listed path is in the archive |
| ArchiveFormat.ValidateArchive | internal/backup/service.go:1882-2165 | the verdict is valid if and only if the archive is acceptable, independently defined |
| ArchiveFormat.ValidVerdict | internal/backup/service.go:2089-2145 | names match in both directions, and a listed digest is the file's own exactly unless a small file wrote its own |
| ArchiveFormat.AcceptedStaysInside | internal/backup/service.go:1951-1977 | nothing in an accepted archive is a link, and no name of a file is absolute, has a part that leads up, or leads out of the directory it is unpacked in |
| ArchiveFormat.FileOkExactly | internal/backup/service.go:1951-2058 | exactly which files an archive may hold, up to which size, with and without encryption |
| ArchiveWriter.Builder.WriteKeys | internal/backup/service.go:1250-1263 | keys are archived in order; success means that none is missing, and on a reliable disk it is exactly that |
| ArchiveWriter.Builder.WriteData | internal/backup/service.go:1197-1230 | database if there is one, mail store and attachments; on a reliable disk it succeeds exactly if both directories are there |
| ArchiveWriter.Builder.WriteDescription | internal/backup/service.go:1264-1335 | the manifest of what was written, the instructions, and a checksum line for each of them |
| ArchiveWriter.Builder.WritePayloads | internal/backup/service.go:1197-1263 | success means all payload files in their order with none of the required ones missing, and on a reliable disk it is exactly that |
| ArchiveWriter.Builder.WriteAll | internal/backup/service.go:1197-1341 | the whole archive, exactly when nothing required is missing on a reliable disk |
| ArchiveWriter.CreateArchive | internal/backup/service.go:1129-1367 | every call may fail: success means a complete backup in the complete archive, payloads, manifest, instructions and checksums of all of them, with its checksum file beside it; after an error neither is left unless its removal failed, and nothing else changes; on a reliable disk it succeeds exactly for a complete backup |
| ArchiveWriter.OpensExactly | internal/backup/service.go:1351-1367 | with its own checksum file an archive is opened, and with the one of another archive if and only if that has the same digest |
| ArchiveWriter.EverythingFiled | internal/backup/service.go:1961-1988 | every name the writer uses passes the validator's path and allow-list checks |
| ArchiveWriter.NothingLeftOut | internal/backup/service.go:1197-1325 | every part of a backup is in its archive under its name and with its content, and the manifest lists them all |
| ArchiveWriter.ShapedAccepted | internal/backup/service.go:1882-2165 | an archive of listed files is accepted if and only if sizes, manifest and computed digests agree |
| ArchiveWriter.WrittenAccepted | internal/backup/service.go:1129-1349 | with good names, what the writer packages is valid if and only if files are within their limits and no small file starts like another digest |
| ArchiveWriter.MarkedAccepted | internal/backup/service.go:2101-2108 | any word is accepted as the digest of a file that names it |
| ArchiveWriter.KeysWithoutEncryption | internal/backup/service.go:1978-1986 | without encryption key files are accepted exactly when a manifest before them lists them |
| ArchiveWriter.KeyFileAccepted | internal/backup/service.go:1978-1986 | a valid archive without encryption that brings any key |
| BackupRoundTrip.BackupRoundTrip | internal/backup/service.go:408-599 | a backup that is packaged, encrypted, opened and unpacked is staged as it was, whatever else the key has sealed, and is valid if and only if files are within their limits and no small file starts like another digest |
| BackupRoundTrip.WrittenStaged | internal/backup/service.go:1640-1667 | what is staged of a written archive is what the backup directory held |
| BackupRoundTrip.SnapshotReturns | internal/backup/service.go:1487-1573 | a whole snapshot of a live state, packaged, encrypted, opened, staged and restored, brings back the database, every message, every attachment and, with encryption, every registered key |
| BackupRoundTrip.ProperPlaces | internal/backup/service.go:2386-2420 | names without empty parts and dots are unpacked to different places exactly if they differ |
| BackupRoundTrip.ActivatesExactly | internal/backup/service.go:1669-1713 | an accepted archive can be activated if and only if it holds a database and readable mail and attachments |
| BackupRoundTrip.AcceptedInParts | internal/backup/service.go:2114-2165 | an accepted archive that cannot be activated |
| AuthLimits.MemoryLimitStore.Sweep | internal/auth/authlimit_store.go:114-120 | exactly the elapsed windows are dropped |
| AuthLimits.MemoryLimitStore.Incr | internal/auth/authlimit_store.go:78-104 | count, new window, sweep and refusal to grow as specified |
| AuthLimits.RedisLimitStore.Incr | internal/auth/authlimit_redis.go:31-42 | INCR and EXPIRE NX, with partial effects when the pipeline fails |
| AuthLimits.RedisLimitStore.Reset | internal/auth/authlimit_redis.go:45-53 | the counter is deleted unless the store fails |
| AuthLimits.AuthLimiter.constructor | internal/auth/authlimit.go:95-112 | an unusable policy is replaced by the default one |
| AuthLimits.AuthLimiter.Incr | internal/auth/authlimit.go:221-235 | the primary answers, or else the fallback |
| AuthLimits.AuthLimiter.Check | internal/auth/authlimit.go:246-284 | every dimension is charged and the first exhausted one is reported |
| AuthLimits.AuthLimiter.ResetAccount | internal/auth/authlimit.go:292-306 | account and pair are cleared in both stores |
| AuthBudgets.MemorySpends | internal/auth/authlimit_store.go:78-104 | a hit that passes is taken out of what the window and its successor can still let pass |
| AuthBudgets.RedisSpends | internal/auth/authlimit_redis.go:31-42 | the same for the distributed store under every partial failure |
| AuthBudgets.HitsWithinOneWindow | internal/auth/authlimit.go:221-284 | any interleaving of hits within one window's length passes at most 2 * max - 1 on a key, twice that under any primary failures |
| AuthBudgets.AdmittedWithinOneWindow | internal/auth/authlimit.go:246-284 | the same bound for admitted attempts per address, account and pair |
| AuthBudgets.VerdictExactly | internal/auth/authlimit.go:246-284 | exactly which attempts are admitted: those whose three counters, in the store that answers, are below the budgets; any other is told the first that is not |
| AuthBudgets.UnavailableExactly | internal/auth/authlimit.go:250-260 | exactly when an attempt is refused without a verdict: neither store can count its address |
| AuthBudgets.SharedCounters | internal/auth/authlimit.go:199-209 | two attempts share a counter if and only if they come from the same address, for the same account, or for the same pair |
| AuthBudgets.FullStoreExactly | internal/auth/authlimit_store.go:92-103 | a new key in a full store is counted if and only if elapsed windows leave it room |
| AuthBudgets.BoundIsReached | internal/auth/authlimit.go:221-284 | with a window that is about to elapse, in either store, a run passes exactly 2 * max - 1 hits |
| AuthBudgets.DoubleBoundIsReached | internal/auth/authlimit.go:221-284 | and one passes twice that when the distributed store fails in between |
| AuthBudgets.CountedOrRefused | internal/auth/authlimit.go:221-284 | in any state and under any failure of the primary, a hit is counted by the store that answers it, or that store is full and answers its size |
| AuthBudgets.RefusedStillCharged | internal/auth/authlimit.go:240-284 | under any failures of the primary, an attempt that is not cut short, admitted or refused, is counted in each dimension the fallback can count, or the store that answers is full; and no other hit of the attempt takes that back |
| AuthBudgets.ChargedByOne | internal/auth/authlimit.go:240-284 | while the primary answers and has room, an attempt adds one to each of its counters |
| AuthBudgets.KeysApart | internal/auth/authlimit.go:199-209 | the keys of the three dimensions differ for every hash |
| AuthBudgets.ResetSparesOthers | internal/auth/authlimit.go:286-306 | a reset clears the account and the pair and leaves every other counter, the address's included |
| AuthBudgets.MemoryStaysBounded | internal/auth/authlimit_store.go:92-103 | over any hits and resets the memory store never outgrows its bound |
| AuthBudgets.LiveWindowsSurvive | internal/auth/authlimit_store.go:78-120 | a hit never forgets a live window |
| AuthBudgets.StoresAgree | internal/auth/authlimit_store.go:11-24 | both stores answer alike to every sequence of hits and resets with no more keys than the memory store may hold |
| SendLedger.SendEnforcer.SumUsed | internal/billing/send_enforcer.go:156-162 | the query adds up sends and reservations since a day |
| SendLedger.SendEnforcer.ReserveSend | internal/billing/send_enforcer.go:98-214 | refusals in order, existing reservations answered, new ones stored |
| SendLedger.SendEnforcer.FinalizeSendReservation | internal/billing/send_enforcer.go:216-266 | a reservation becomes a send once and is counted, or is deleted |
| SendLedger.SendEnforcer.CancelSendReservation | internal/billing/send_enforcer.go:268-276 | only a reservation is deleted |
| SendLedger.SendEnforcer.RecordSend | internal/billing/send_enforcer.go:278-322 | a new event is stored and counted, a known one is not |
| SendLedger.SendEnforcer.RecordBounce | internal/billing/send_enforcer.go:324-357 | a new bounce is stored and counted, a known event is not |
| SendLedger.RunBalanced | internal/billing/send_enforcer.go:216-357 | after any run of operations every day, month and bounce counter equals the sum over its events |
| SendLedger.EmptyBalanced | internal/billing/send_enforcer.go:216-357 | the empty tables are balanced |
| SendLedger.RetryChangesNothing | internal/billing/send_enforcer.go:98-357 | a retried call changes nothing while its event exists, whatever time and count it is retried with |
| SendLedger.GrantedMeansReserved | internal/billing/send_enforcer.go:113-214 | granted means reserved, except exactly for an id that belongs to a bounce |
| SendLedger.ServedExactly | internal/billing/send_enforcer.go:142-154 | exactly which subscriptions may send: not the suspended, cancelled and expired ones, and all the others |
| SendLedger.ReplyExactly | internal/billing/send_enforcer.go:98-214 | exactly when a reservation is granted, answered as existing, or refused for which reason |
| SendLedger.OthersKept | internal/billing/send_enforcer.go:98-357 | no operation touches another event or a plan |
| SendLedger.FinalisedExactly | internal/billing/send_enforcer.go:216-266 | only a reservation changes, to a send of what was accepted, counted on that day and in that month, or to nothing |
| SendLedger.RecordedExactly | internal/billing/send_enforcer.go:268-357 | a cancellation removes a reservation and nothing else, and a send or a bounce is recorded once |
| SendLedger.TotalOfOne | internal/billing/send_enforcer.go:156-162 | what one event counts for in each total, with days of the UTC calendar |
| SendLedger.OverlappingFinalisation | internal/billing/send_enforcer.go:216-266 | a finalisation that overlaps another leaves the counters equal to their sums if and only if its reservation is still there |
| SendQuota.InsertKeeps | internal/billing/send_enforcer.go:142-214 | inserting under the row lock keeps every day within the limit |
| SendQuota.QuotaHolds | internal/billing/send_enforcer.go:98-276 | in every interleaving of reservations, cancellations, bounces and same-day finalisations no day exceeds its limit |
| SendQuota.ReservedOnce | internal/billing/send_enforcer.go:172-208 | until it is deleted, an event id is reserved at most once and its row is never replaced |
| SendQuota.SerialReservation | internal/billing/send_enforcer.go:98-214 | undisturbed, the statements do what the whole reservation does |
| SendQuota.StartsWithin | internal/billing/send_enforcer.go:98-214 | empty tables with nonnegative limits satisfy the invariant |
| SendQuota.LaterFinalisationOverruns | internal/billing/send_enforcer.go:241-246 | a finalisation on a later day doubles a full day |
| SendQuota.StepWithinExactly | internal/billing/send_enforcer.go:98-276 | from within all limits, a statement stays within them if and only if what it puts has room on its day |
| SendQuota.RunsWithinExactly | internal/billing/send_enforcer.go:98-276 | exactly which interleavings stay within all limits throughout, finalisations on later days included |
| InvoiceMerge.InvoiceService.UpsertFromProviderEvent | internal/billing/invoice_service.go:71-155 | every invoice of a provider has a row of its own: an accepted event makes it or is merged into it and leaves every other row alone; a refused one changes nothing and is told why |
| InvoiceMerge.InvoicesApart | internal/billing/invoice_service.go:88-149 | a delivery touches the row of its own invoice only, and keeps its id, tenant and creation |
| InvoiceMerge.MergedExactly | internal/billing/invoice_service.go:95-142 | details are the last event's, paid stays unless voided or given up, and an earlier event changes neither amounts nor time nor id |
| InvoiceMerge.RowsFold | internal/billing/invoice_service.go:88-149 | an invoice's row depends only on that invoice's events, in order |
| InvoiceMerge.FoldedIsNewest | internal/billing/invoice_service.go:95-142 | of the newest dated events the last delivered gives the amounts and the first the id |
| InvoiceMerge.NewestWins | internal/billing/invoice_service.go:87-149 | in every order and repetition of identified dated events the row ends with amounts, time and id of the newest |
| InvoiceMerge.OrderIrrelevant | internal/billing/invoice_service.go:87-149 | two deliveries of the same events end with the same amounts, time and id |
| InvoiceMerge.FoldedStatus | internal/billing/invoice_service.go:97-100 | the status is paid exactly while a payment stands, else the last delivered |
| InvoiceMerge.PaidStays | internal/billing/invoice_service.go:97-100 | without void and uncollectible events one paid event decides |
| InvoiceMerge.StatusFollowsDelivery | internal/billing/invoice_service.go:97-100 | two unpaid events: the later delivery decides |
| InvoiceMerge.EqualTimesMix | internal/billing/invoice_service.go:101-141 | equal times: amounts of one event, id of the other |
| InvoiceMerge.UndatedForgets | internal/billing/invoice_service.go:131-141 | an event without a time lets an older event win |
| InvoiceMerge.UndatedRestarts | internal/billing/invoice_service.go:101-142 | for every list: time, id and amounts are those of the events after the last one without a time, and the last amounts without a time if there are none |
| InvoiceMerge.NewestWinsExactly | internal/billing/invoice_service.go:101-142 | the newest event gives time, id and amounts if and only if it has been delivered after the last event without a time |
| WebhookEvents.WebhookService.RecordEvent | internal/billing/webhook.go:85-127 | the record is normalised and the claim succeeds exactly for a new id and a new idempotency key |
| WebhookEvents.WebhookService.MarkProcessed | internal/billing/webhook.go:161-171 | exactly the row of the normalised provider and id is marked |
| WebhookEvents.WebhookService.ProcessEvent | internal/billing/webhook.go:128-155 | claim, change and mark are committed together or nothing is |
| WebhookEvents.CommitsExactly | internal/billing/webhook.go:128-155 | exactly when a delivery commits, and that otherwise the database is unchanged |
| WebhookEvents.EventsApart | internal/billing/webhook.go:85-155 | events are told apart by provider and id, a commit makes one row and leaves every other alone, and exactly which outcome has which reason |
| WebhookEvents.CommittedOnce | internal/billing/webhook.go:128-155 | over any run an event's change is committed at most once, and the data are what the committed changes make |
| WebhookEvents.RetryCommits | internal/billing/webhook.go:128-131 | whatever is delivered between a failure and its retry, the change is committed once if and only if one of those deliveries committed it or nothing of theirs blocks the retry; the data are what that commit makes |
| WebhookEvents.SharedKeySwallowed | internal/billing/webhook.go:112-125 | a shared idempotency key swallows the second event |
| WebhookEvents.CommittedOnceSideBySide | internal/billing/webhook.go:128-155 | in every interleaving of deliveries no event is committed twice, and no two events of a provider with one idempotency key |
| Subscriptions.Service.CreateSubscription | internal/billing/service.go:165-296 | a new row, a renewal in place, or a refusal; the table stays sound |
| Subscriptions.Service.ChangePlan | internal/billing/service.go:298-313 | only plan and limits change; a tenant without row is reported |
| Subscriptions.Service.TransitionState | internal/billing/service.go:315-356 | a valid transition writes status and dates, an invalid one changes nothing |
| Subscriptions.Service.BackfillSubscriptions | internal/billing/service.go:374-419 | existing rows are untouched, only eligible tenants get rows, on the plan that was theirs, by the month and without a trial; on success all of them have one, and the count is right |
| Subscriptions.MovedConsistent | internal/billing/service.go:334-355 | a transition writes consistent dates even when the row changed since it was read |
| Subscriptions.NeverBack | internal/billing/service.go:315-356 | no number of transitions leads back into a trial or out of the end |
| Subscriptions.TransitionExactly | internal/billing/service.go:315-356 | exactly the tenant's row changes, to the status and the dates of that status, and exactly when it is refused |
| Subscriptions.CreatedExactly | internal/billing/service.go:165-296 | exactly what a creation makes: a new row, the old one over again, or a refusal |
| SubscriptionRaces.AlwaysSound | internal/billing/service.go:205-441 | in every interleaving a tenant has at most one row, dates fit the status, and a renewal finds an ended subscription |
| SubscriptionRaces.CallsAreSteps | internal/billing/service.go:165-356 | undisturbed, the steps do what the calls do |
| SubscriptionRaces.UndisturbedRunsLegal | internal/billing/service.go:315-356 | in every interleaving in which no write comes between a transition's reading and its update of the same tenant, statuses change only by valid transitions and renewals of ended subscriptions |
| SubscriptionRaces.LegalRunsExactly | internal/billing/service.go:315-356 | and exactly in those in which every transition still fits the row it is written to |
| SubscriptionRaces.StaleTransitionEndsRenewal | internal/billing/service.go:315-356 | a stale transition can end a renewed subscription |
| SubscriptionScheduler.Scheduler.Earliest | internal/billing/scheduler.go:33-83 | the earliest due row that is not yet selected |
| SubscriptionScheduler.Scheduler.SelectDue | internal/billing/scheduler.go:33-83 | the query answers at most a hundred distinct due tenants, earliest first, and all of them if there are fewer |
| SubscriptionScheduler.Scheduler.TransitionRows | internal/billing/scheduler.go:85-98 | exactly the rows read before the context ends move, except failing ones, and the count is theirs; over a single connection that is the first row alone, and without an end of the context the call never returns |
| SubscriptionScheduler.Scheduler.Process | internal/billing/scheduler.go:33-98 | one rule: select, then move; over a single connection at most the row that waits moves, and without an end of the context it returns only if nothing is due or its query fails |
| SubscriptionScheduler.Scheduler.RunAll | internal/billing/scheduler.go:100-132 | the four rules in order; a failing one does not stop the others; the total is the number of moved rows; over a single connection no more rows move than the context ends, and a round ends only if nothing was due under a rule whose query works and whose context lives |
| SubscriptionScheduler.RankRises | internal/billing/scheduler.go:33-98 | every status change strictly raises a rank |
| SubscriptionScheduler.MovedOneStep | internal/billing/scheduler.go:33-98 | whatever a rule moves was due, a cancelled row after thirty days, and goes one step on |
| SubscriptionScheduler.MovedOncePerRound | internal/billing/scheduler.go:100-132 | a round shorter than seven days moves no subscription twice |
| SubscriptionScheduler.TrialSuspendedLate | internal/billing/scheduler.go:33-70 | whenever the rules run, no trial is suspended before its end plus fourteen days |
| SubscriptionScheduler.NothingStaysDue | internal/billing/scheduler.go:100-132 | at a frozen time as many rounds as the table has hundreds of rows leave nothing due |
| MigrationOrder.BuildGraph | cmd/orvix/migrate.go:370-381 | in-degrees and reverse graph count every declared dependency |
| MigrationOrder.ReleaseDependents | cmd/orvix/migrate.go:392-397 | releasing a table's dependents queues exactly those whose last dependency it was |
| MigrationOrder.DependencyOrder | cmd/orvix/migrate.go:367-401 | distinct tables, dependencies first, exactly the tables without a chain into a cycle or out of the plan; a permutation if there is none |
| MigrationOrder.ChainsDescend | cmd/orvix/migrate.go:367-401 | from a placed table every chain of dependencies goes to strictly earlier places |
| MigrationOrder.PlacedExactlyUnblocked | cmd/orvix/migrate.go:367-401 | a table is placed if and only if it is not blocked |
| MigrationOrder.ListedInOrderUnblocked | cmd/orvix/migrate.go:330-345 | a plan listed in dependency order blocks nothing |
| MigrationOrder.DefaultPlanUnblocked | cmd/orvix/migrate.go:229-316 | the default plan blocks nothing |
| Credentials.Directory.LoadAuthorizationSnapshot | internal/auth/auth.go:532-585 | the account's state exactly when role, tenant and status are in order |
| Credentials.Directory.GenerateAccessTokenForUser | internal/auth/auth.go:616-626 | a token of the role and version of one reading, exactly for an authorized account |
| Credentials.Directory.GenerateAccessToken | internal/auth/auth.go:243-255 | the token is accepted, until it expires or is revoked, exactly if the account's version was read or had never been raised |
| Credentials.Directory.ValidateAccessToken | internal/auth/auth.go:353-492 | accepted exactly when unexpired, not revoked as far as the revocations can be read, and of the account's current version, which must be readable |
| Credentials.Directory.Generate | internal/auth/apikey.go:149-215 | a key is stored exactly for an authorized owner and his current role |
| Credentials.Directory.RevalidateOwner | internal/auth/apikey.go:284-334 | exactly when version, role, tenant and tenant status of the owner agree with the key |
| Credentials.Directory.Validate | internal/auth/apikey.go:237-273 | accepted exactly when usable and vouched for, with the owner's current role |
| Credentials.Directory.Rotate | internal/auth/apikey.go:377-507 | the replacement is stored and the old key disabled together, or nothing changes |
| Credentials.NewKeyAccepted | internal/auth/apikey.go:149-334 | a key that has just been stored is accepted, for as long as it lasts and from an allowed address, if and only if it is for its owner's tenant and that is in order |
| CredentialRuns.GrantedIsCurrent | internal/auth/apikey.go:237-334 | whatever happened since a check read its key, it is granted exactly if the owner vouches for the key as stored at the decision, and what it grants are the owner's role, version and tenant of that moment |
| CredentialRuns.GrantedAcceptable | internal/auth/apikey.go:237-273 | a granted check would be granted at its decision if and only if the key is still enabled and in time and the address is allowed |
| CredentialRuns.DisabledMeanwhileGranted | internal/auth/apikey.go:237-273 | a key that is disabled during its check still passes |
| Credentials.Directory.LookupExactlyOneUser | cmd/orvix/admin_recovery.go:213-250 | the only account with an address, if it is in use |
| Credentials.SoleExactly | cmd/orvix/admin_recovery.go:213-250 | an account is found if and only if it is in use and no other has the address, in whatever case |
| Credentials.Directory.ResetPassword | cmd/orvix/admin_recovery.go:398-447 | exactly when it succeeds; password, version, sessions and audit change together or not at all |
| Credentials.Directory.Recover | cmd/orvix/admin_recovery.go:518-579 | exactly when it succeeds; the account becomes an authorized platform administrator, or nothing changes |
| Credentials.Directory.DeleteUserSessions | cmd/orvix/admin_recovery.go:333-338 | exactly the account's sessions end |
| Credentials.MixedCaseNeverFound | cmd/orvix/admin_recovery.go:411-417 | the second lookup never finds an address stored with capital letters |
| Credentials.SecondLookupExactly | cmd/orvix/admin_recovery.go:411-417 | the second lookup finds the account of the first if and only if its address is stored in lower case |
| Credentials.Directory.RunResetPassword | cmd/orvix/admin_recovery.go:341-396 | exactly when the command sets the password, what then changes, and that otherwise nothing does |
| Credentials.Directory.RunRecover | cmd/orvix/admin_recovery.go:450-514 | exactly when the command recovers the account, what then changes, and that otherwise nothing does |
| CredentialRuns.StepKeeps | internal/auth/auth.go:262-286 | nothing issued or under way carries a version its account has not reached, and versions never fall |
| CredentialRuns.RevokedForGood | internal/auth/auth.go:389-410 | after a raise of the version nothing issued, or being issued, before it is accepted in any later state, whatever the revocation store answers |
| CredentialRuns.RecoveryRevokes | cmd/orvix/admin_recovery.go:419-446 | a recovery command ends all tokens, keys and sessions of the account |
| CredentialRuns.CallsAreSteps | internal/auth/apikey.go:149-215 | undisturbed, the steps of a run do what the calls do |
| MfaChallenges.MfaChallengeStore.IssueChallenge | internal/auth/mfa_challenge.go:96-108 | a challenge with no attempts, unless the id is taken |
| MfaChallenges.MfaChallengeStore.BeginChallenge | internal/auth/mfa_challenge.go:116-140 | the guarded update counts an attempt exactly when it is allowed, else the refusal is explained |
| MfaChallenges.MfaChallengeStore.ExplainRejection | internal/auth/mfa_challenge.go:142-170 | the error is one that can be true at that moment, with a condition of its own for each error |
| MfaChallenges.MfaChallengeStore.ConsumeChallenge | internal/auth/mfa_challenge.go:175-194 | the guarded update completes a challenge exactly when it is open and in time |
| MfaChallenges.MfaChallengeStore.PurgeChallenges | internal/auth/mfa_challenge.go:198-204 | exactly the challenges expired for a day are removed |
| MfaChallenges.RefusalExplained | internal/auth/mfa_challenge.go:142-170 | a refusal that is explained later is unknown exactly if there is no such challenge of the user's, and otherwise names a condition that blocks every later attempt too |
| MfaChallenges.StepsExactly | internal/auth/mfa_challenge.go:95-204 | exactly which attempts and completions succeed, the owner's in time, and what each step changes |
| MfaChallenges.FiveAttemptsOneSuccess | internal/auth/mfa_challenge.go:95-204 | in every interleaving at most five attempts and one completion of an issued challenge succeed |
| MfaChallenges.NothingAfterSuccess | internal/auth/mfa_challenge.go:172-194 | after a completion no attempt and no completion succeeds |
| MfaChallenges.NothingPastExpiry | internal/auth/mfa_challenge.go:116-194 | past its expiry nothing succeeds, whatever happened before |
| MfaChallenges.AttemptsAreGranted | internal/auth/mfa_challenge.go:116-131 | attempts of the owner in time succeed until five are used up |
| Text.FieldsOfPair | internal/backup/service.go:1320-1324 | two words with two blanks between them are read back as those words |
| Text.FieldsOfTrimmed | internal/backup/service.go:2076-2085 | trimming a line does not change its words |
| Text.NormalizeTwice | internal/billing/webhook.go:161-171 | normalising a provider name twice changes nothing more |
| Text.NormalizeExactly | internal/billing/webhook.go:161-171 | the normal form is the string without surrounding white space and capitals |
| Sums.SumPut | internal/billing/send_enforcer.go:156-162 | writing a row replaces its old term of a sum by the new one |

## Left out

- Letter case beyond ASCII: `Text.ToLower` lowers the Latin letters only, while the white space of `Text.IsSpace` is that of Unicode.
- Real cryptography, hashing, JSON, tar, gzip, `pg_dump`, `pg_restore`, SMTP, webhooks and systemd: each is an uninterpreted function or a step that succeeds or fails.
- The client address's canonical form (`internal/auth/authlimit.go:157-197`) and the CIDR check of API keys: parameters.
- BackupEnvelope.ExchangedRejected: that random nonces do not repeat is an assumption (`NoncesApart`); how likely it is, is not modelled.
- Symbolic links, file modes, ownership and free space in the restore; a directory that is missing and one whose nested archive is torn are both failures of that directory.
- RestoreService.Service.RestoreBackup: no other writer, as the maintenance check demands; a file that shrinks while the walk reads it counts as cut off; a restore path that is not configured counts as a failing step; the registry row of the safety backup inside the live database is not modelled.
- RestoreCoordinator.NeverRestoredAgain: says that a finished job is never restored again, not that its result file is never rewritten, because a job that later cannot be read is recorded as failed.
- RestoreCoordinator.OneRestoreExactly: an invocation of the helper is one step relative to the submissions.
- ArchiveWriter.WrittenAccepted: manifest fields the validator does not read (times, host, sizes, commit) are not modelled, and an encrypted archive that already exists is not rebuilt.
- AuthLimits.MemoryLimitStore.Incr: the mutex makes it one step; changing the bound of a running store is not modelled.
- AuthLimits.RedisLimitStore.Incr: a counter is taken to be gone once its expiry is reached, and time is in whole seconds.
- AuthBudgets.AdmittedWithinOneWindow: needs stores larger than the budget, because a full store answers its size, and a fallback that does not fail, because an account that neither store can count is not refused.
- SendLedger.RunBalanced: transactions are serial, as on the single-connection SQLite pool (`OverlappingFinalisation` says what overlapping ones do); other writers of the usage table are not modelled, and neither is the preview in `internal/billing/send_enforcer.go:47-96`.
- SendQuota.QuotaHolds: the insert and its commit are one step, the limit is fixed, and `RecordSend`, which checks no limit, does not occur.
- WebhookEvents.CommittedOnceSideBySide: tracks claims and commits only; how the changes themselves interleave inside the database is not modelled. Signature verification is left out.
- Subscriptions.Service.CreateSubscription: the month after a date is a parameter, days are 86400 seconds, and the payment provider's columns are not modelled.
- BackupRoundTrip.ActivatesExactly: an entry whose name has empty parts or dots is unpacked elsewhere than under the name the validator files it, and a file where a directory is needed fails the unpacking; both are outside of it.
- The validator's verdict is a parameter of `RestoreBackup`; what it says is `ArchiveFormat.ValidateArchive`, and what it is for a written backup `BackupRoundTrip`.
- RestoreService.Service.RestoreAfterCrash: one crash, in the first activation; a crash in a rollback is not modelled.
- SubscriptionScheduler.Scheduler.TransitionRows: other users of the connection pool are not modelled, and the rows of the result set are those of the moment of the query.
- CredentialRuns.RevokedForGood: tokens of releases before versions existed carry no version and are outside of it; account ids are not reused; refresh tokens and opaque sessions appear only as rows that recovery deletes.
- Credentials.Directory.RunResetPassword: the rules for the new password itself are left out, here and in `RunRecover`.
- Credentials.Directory.Rotate: keys are addressed by the hash of their secret instead of by row id.
- MigrationOrder.DependencyOrder: copying the rows of a table and its column mapping are left out.
- Routing, HTTP handlers, the command line, retention, usage counters, plan versions and the malware scanner: they would only add easy members, or in the scanner's case a framing that does not hold for large inputs.

# Verification of the Dahua adapter

A Dafny model of the adapter that sits between Dahua access-control devices and the Device Service (DS), with
proofs of what its parts promise. Each module follows one source file or one concern of it:

- the durable event queue, delivery to the DS and the runtime around it (`EventStore`, `Delivery`, `QueueDrain`,
  `DeliveryProtocol`, `BackfillPaging`, `Registry`, `PushAuth`, `Runtime`, `RuntimeSteps`, `LeaseApplication`,
  `RuntimeDelivery`);
- creating, verifying, restoring and pruning backup bundles on an abstract file tree (`FileTree`, `TreeMoves`,
  `BundleFiles`, `Checksums`, `Manifests`, `BackupVerify`, `BackupIntegrity`, `BackupCopies`, `BackupCreate`,
  `BackupRestore`, `RestoreSafety`, `RestoreTotality`, `BackupRoundTrip`, `RestoreOfBackup`, `BackupTrim`,
  `BackupPrune`, `BackupRetention`);
- the streaming and structured parsers and the digest handshake (`Text`, `Multipart`, `MultipartRoundTrip`,
  `SemicolonSplit`, `SemicolonGrammar`, `DigestText`, `DigestAuth`, `DigestHandshake`, `DigestRejection`,
  `DigestDialects`; section 3.2 of RFC 2617 and section 3.4 of RFC 7616 for the digest, section 5.1.1 of RFC 2046
  for the loose multipart form);
- the algorithms that talk to devices (`PagedFind`, `Backfill`, `ServicePaging`, `ExportMerge`, `BulkCreate`,
  `WriteSteps`, `IdentityWrite`, `IdentityCalls`).

Objects the source updates in place are classes (`SqliteStore`, `DeliveryService`, `AssignmentRegistry`,
`PushAuthRegistry`, `AdapterRuntime`, `FileSystem`, `MultipartStreamParser`, `DigestAuthClient`,
`DigestAuthServer`, `BackfillService`, `Fleet`, `WriteResult`, `IdentityWriteService`). Their methods are proved
equal to functions on values, and the properties are lemmas about those functions. A protocol that interleaves is
a state machine whose invariants hold over every run.

What lies outside is a parameter: clocks, hashes, random nonces, file times, settings parsing, JSON text, and the
answers of devices and of the DS, which may fail, be lost, or arrive after the request took effect. A path is a
sequence of names; a file tree maps paths to nodes and directories are explicit. A failed file operation is
reported, and after a failure nothing is promised about the tree unless the contract says so.

## What came out

- A reply acks rows by event id alone while rows are keyed by device and id, so two devices sharing an id can make
  a truthful reply ack the wrong device's row (`DeliveryProtocol.SharedIdAcksWrongDevice`). Every truthful reply acks
  soundly exactly when, for each recorded row of the batch, the first row with the same id is recorded or gone
  (`DeliveryProtocol.TruthfulRepliesAckSoundlyExactly`); distinct ids in the batch, or a DS that records the whole
  batch before it replies, are enough.
- The digest client cuts a quoted value at its first equals sign. The handshake therefore succeeds exactly when the
  realm has no equals sign (`DigestHandshake.HandshakeSucceedsExactly`), and both sides use the same password and method
  and the nonce is live (`DigestRejection.HandshakeNeedsCredentials`).
- Joining what the semicolon splitter returns gives the input back except for one trailing separator; splitting a
  join gives the tokens back exactly under the condition in `SemicolonSplit.SplitInvertsJoinExactly`.
- A paged search that receives a token but no rows, or is asked for none, is never stopped on the device
  (`PagedFind.StoppedOnceOrNever`).
- The backfill cursor is not applied to the device's own records, so a row the reader has passed can be handed out
  again (`Backfill.PassedRowComesBack`, for every record and whatever the hash). It happens exactly when the local rows
  are fewer than the limit, the device is assigned with readable settings that enable record backfill and answers, and
  one of its unseen events within the room left has the row's key (`Backfill.PassedRowComesBackExactly`). The project's
  notes still describe record-number event ids and filtering by them; the code builds ids from timestamp and user only
  (`Backfill.SameEventId`), and the model follows the code.
- Reading a device's history page by page from the last event returned is exact when pages come from the table alone
  (`BackfillPaging.PagingIsExact`), but a page of the service may end with a record of the device. The reading is exact
  exactly when no stored row of the device lies between the place where a page starts and the last row handed out
  (`ServicePaging.ServedPagingIsExactly`). A page whose last event is not stored is followed from the beginning again,
  so rows are repeated while any is still stored (`ServicePaging.NextPageIsExactly`, `ServicePaging.RecordRepeatsRow`);
  a record that is stored after another event makes the reader skip that event (`ServicePaging.RecordSkipsRow`).
- Repeating a bulk creation does not repair everything. A retry whose requests are all accepted completes a person
  exactly when the device does not have the user (`BulkCreate.RetryCompletesExactly`), that is, for a new person,
  exactly when the first run's user write was not carried out (`BulkCreate.RetryAfterFirstRun`). After a lost reply
  (`BulkCreate.LostReplyIsNeverCompleted`) and after a user step that succeeded with a card or face step that failed,
  every later run skips the person. One unreachable device ends a bulk creation and no report is returned
  (`IdentityWrite.AbortsExactlyWhenUnreachable`).
- A negative count of log backups is rejected only after old bundles were removed (`BackupPrune.PruneBackups`).
- A negative number of log files is accepted when a bundle is created, and the bundle then never verifies
  (`BackupRoundTrip.BundleVerifiesExactly`).
- A restore of a bundle that verifies can stop half way, with the data directory replaced and the kept logs not put
  back (`RestoreTotality.RestoreStopsHalfWay`). It goes through exactly when the safety directory can be made and no
  file stands above a destination when its turn comes (`RestoreTotality.RestoreGoesThrough`); for a bundle made by
  `createBackup` this is read off the tree backed up, at and below targets already restored, and the tree restored over
  elsewhere (`RestoreOfBackup.RestoreOfBackupGoesThrough`). So a backup taken without logs stops half way when a file of
  its data directory stands above the present log directory (`RestoreOfBackup.RestoreOfBackupStopsHalfWay`).
- A bundle that survives a prune and verified before verifies again, except one whose trimmed logs held another
  captured section (`BackupPrune.SurvivorsVerify`). There are such bundles (`BackupTrim.TrimmedBundleCanFail`), but
  `createBackup` makes none (`BackupRoundTrip.TrimmedBackupStaysValid`).

## Model

| member | source | states |
|---|---|---|
| EventStore.SqliteStore.UpsertEvent | src/infra/store/sqlite-store.ts:27-43 | a new (device, event) key is appended under a fresh sequence number; a stored key changes nothing; keys stay unique and rows ordered |
| EventStore.SqliteStore.ListPending | src/infra/store/sqlite-store.ts:45-60 | the oldest unacked rows up to the limit, in sequence order without repetition |
| EventStore.SqliteStore.MarkAcked | src/infra/store/sqlite-store.ts:62-77 | exactly the row of that device and event becomes acked and the device's cursor moves to it |
| EventStore.SqliteStore.SetLastAckedEventId | src/infra/store/sqlite-store.ts:86-95 | the device has this cursor afterwards; every other cursor and every row is unchanged |
| EventStore.SqliteStore.GetBackfill | src/infra/store/sqlite-store.ts:97-138 | the device's rows beyond the cursor row, in order and without a gap, at most the limit, all of them when the page is not full; from the beginning when the cursor is empty or not stored |
| EventStore.SqliteStore.PurgeExpired | src/infra/store/sqlite-store.ts:140-143 | removes exactly the rows whose expiry has come and counts them |
| EventStore.SelectKeepsOrder | src/infra/store/sqlite-store.ts:186-199 | what a query selects keeps the sequence order and the uniqueness of keys |
| EventStore.FindKeyMeaning | src/infra/store/sqlite-store.ts:111-113 | looking a key up succeeds exactly when it is stored, and then gives its row |
| EventStore.UpsertKeepsWellFormed | src/infra/store/sqlite-store.ts:186-199 | the table constraints survive every insert |
| Delivery.DeliveryService.ApplyAckResults | src/app/delivery/delivery-service.ts:84-95 | the reply loop leaves the table that acking each positive result's first matching row gives |
| Delivery.DeliveryService.StartDelivery | src/app/delivery/delivery-service.ts:26-46 | the batch is the oldest pending rows, and nothing is sent when not running, unregistered or idle |
| Delivery.DeliveryService.FinishDelivery | src/app/delivery/delivery-service.ts:45-68 | only a reply acks rows; only a permanent lease error asks for re-registration |
| Delivery.ReplyAcksExactly | src/app/delivery/delivery-service.ts:84-95 | the rows acked by a reply are exactly those of the keys it selects, whatever the order of results |
| Delivery.AckedByReplyExactly | src/app/delivery/delivery-service.ts:84-99 | row by row: a stored row is acked after a reply exactly when it was before, or has the key of the first batch row with its event id and some result calls that id inserted or duplicate; nothing else about it changes |
| Delivery.CursorFollowsReply | src/infra/store/sqlite-store.ts:62-77 | a device's cursor ends at the event of the last result that acks one of its rows |
| Delivery.CursorStays | src/infra/store/sqlite-store.ts:62-77 | and stays where it was when no result does |
| Delivery.CoveringReplyAcksFirsts | src/app/delivery/delivery-service.ts:84-95 | a reply covering the batch acks exactly the first row of every distinct event id |
| QueueDrain.RoundRemovesDistinctIds | src/app/delivery/delivery-service.ts:84-95 | a covered round takes exactly as many rows off the queue as its batch has event ids |
| QueueDrain.RoundProgress | src/app/delivery/delivery-service.ts:84-95 | the queue gets shorter exactly when it is not empty and the batch limit is not zero |
| QueueDrain.DrainsWithinPendingRounds | src/infra/store/sqlite-store.ts:45-60 | n pending rows are gone after at most n covered rounds even when devices share ids |
| QueueDrain.DrainsInFullBatches | src/infra/store/sqlite-store.ts:45-60 | with distinct ids k rounds empty the queue exactly when k times the limit reaches n |
| DeliveryProtocol.RunsKeepInvariant | src/app/delivery/delivery-service.ts:26-95 | over every interleaving of ingest, lost requests and replies, redelivery, crashes, purge and leases, for a DS whose replies are truthful and that records no row of a batch while an earlier one with the same id is open: acked rows are recorded by the DS, nothing is lost except by expiry, and the DS holds each ingested key once and no other |
| DeliveryProtocol.LeavesQueueDeliveredOrExpired | src/infra/store/sqlite-store.ts:140-143 | a key stops being pending only when the DS has it or it expired |
| DeliveryProtocol.PurgeExpiresExactly | src/infra/store/sqlite-store.ts:140-143 | a purge takes exactly the expired keys off the queue |
| DeliveryProtocol.ExpiredWereIngested | src/infra/store/sqlite-store.ts:140-143 | over every run only ingested events expire |
| DeliveryProtocol.TruthfulRepliesAckSoundlyExactly | src/app/delivery/delivery-service.ts:84-95 | every truthful reply acks only recorded rows exactly when, for each recorded row of the batch, the first row with its event id is recorded or no longer stored |
| DeliveryProtocol.DistinctIdsAckSoundly | src/app/delivery/delivery-service.ts:84-95 | with distinct event ids in the batch every truthful reply acks only recorded rows |
| DeliveryProtocol.RecordedBatchIsAnswerable | src/app/delivery/delivery-service.ts:84-95 | a DS that records a whole request before it answers meets what the protocol expects of it, with any results |
| DeliveryProtocol.RedeliveryRepairsLostReply | src/app/delivery/delivery-service.ts:26-99 | after a lost reply a recorded batch with distinct ids is sent again and, answered with nothing but duplicates, leaves the queue |
| DeliveryProtocol.SharedIdAcksWrongDevice | src/app/delivery/delivery-service.ts:89 | a truthful reply can ack the unrecorded row of another device with the same event id |
| BackfillPaging.PagingIsExact | src/infra/store/sqlite-store.ts:97-138 | paging by the last returned id under concurrent inserts and purges skips no stored row, repeats none, and a short page means the end |
| BackfillPaging.StatementRunsEvolve | src/infra/store/sqlite-store.ts:27-143 | any run of store statements only appends rows under later numbers, drops rows, or acks them, so paging is exact under all of them |
| BackfillPaging.StatementsEvolve | src/infra/store/sqlite-store.ts:27-143 | every statement only appends rows under later numbers, drops rows, or acks them, which is all paging needs |
| BackfillPaging.RestartsExactlyWhenCursorLost | src/infra/store/sqlite-store.ts:97-118 | a page starts from the beginning exactly when its cursor is empty or not stored |
| Registry.ByDeviceIsLastWins | src/app/assignment-registry.ts:14 | the registry holds the last assignment given for each device, in order of first mention |
| Registry.AssignmentRegistry.Apply | src/app/assignment-registry.ts:13-47 | the new registry, and added, updated and removed lists that hold exactly what their names say, once per device |
| Registry.DiffPatches | src/app/assignment-registry.ts:19-34 | carrying the difference out on the old registry gives the new one |
| PushAuth.UsersResolveToLastCarrier | src/app/push-auth-registry.ts:19-31 | a username resolves exactly when some assignment carries it, and to the last that does |
| PushAuth.SettingsForParsedDevices | src/app/push-auth-registry.ts:19-31 | settings are indexed for exactly the assignments that parse, and the others are the failures |
| PushAuth.RebuildAgrees | src/app/push-auth-registry.ts:14-33 | after a rebuild every username leads to an assigned device whose parsed settings carry it, and both indexes agree |
| PushAuth.PushAuthRegistry.RebuildFrom | src/app/push-auth-registry.ts:14-33 | the rebuilding loop gives the rebuilt indexes and the list of failures |
| Runtime.RunsKeepInvariant | src/app/adapter-runtime.ts:207-324 | over all interleavings: one ingest call, one heartbeat and one re-register loop at most, flags equal to task positions, bounded timer chains, and registry and push indexes of the latest lease at every await point |
| Runtime.OneStartNeverOverlaps | src/app/adapter-runtime.ts:212-217 | in every run with a single start no heartbeat timer is pending while a heartbeat is under way |
| Runtime.NoTaskIsStuck | src/app/adapter-runtime.ts:296-324 | every task holding a flag can move, or the loop it waits for can |
| Runtime.RetryDelayDoublesToCap | src/app/runtime-lease.ts:33-40 | the pause doubles from one second and is thirty seconds exactly from the sixth failure on |
| RuntimeSteps.HeartbeatsGoOn | src/app/adapter-runtime.ts:207-240 | in every run without a stop and without a re-registration given up, once the start is done one heartbeat timer is pending or one heartbeat is under way, and never both |
| RuntimeSteps.FailedHeartbeatLeadsOn | src/app/adapter-runtime.ts:226-240 | an invalid lease, while running, leaves the heartbeat waiting for the live re-register loop, which is started unless there is one; any other failure leaves a pending timer |
| RuntimeSteps.FailedDeliveryLeadsOn | src/app/adapter-runtime.ts:296-324 | the same for a delivery whose lease is invalid, which otherwise ends |
| RuntimeSteps.WaitsForLoopExactly | src/app/adapter-runtime.ts:301-304 | a waiting heartbeat or delivery goes on exactly when the loop it waits for is over |
| RuntimeSteps.WaitingEnds | src/app/adapter-runtime.ts:226-240 | then its flag is clear, and a heartbeat whose loop was given up arms no timer |
| RuntimeSteps.DeliveryStartsExactly | src/app/adapter-runtime.ts:257-262 | a tick starts a delivery exactly while running, with an adapter id and none under way |
| RuntimeSteps.HeartbeatStartsExactly | src/app/adapter-runtime.ts:207-240 | a timer starts a heartbeat exactly while running, with an adapter id and none under way; otherwise it is armed again, or gone after a stop |
| RuntimeSteps.LeaseIsTaken | src/app/adapter-runtime.ts:280-294 | after a reply adapter id, batch limit, registry and push indexes are those of its lease |
| RuntimeSteps.StartAndStop | src/app/adapter-runtime.ts:94-140 | a start while running does nothing and otherwise registers; a stop clears at most one pending timer and leaves every task where it is |
| RuntimeSteps.AttemptsAlternate | src/app/runtime-lease.ts:13-47 | a failed attempt is followed by the pause for one failure more, and the pause by the next attempt or, after a stop, by the end |
| RuntimeSteps.PausesComeAfterFailures | src/app/runtime-lease.ts:33-40 | in every run a pause has counted at least one failure |
| LeaseApplication.AdapterRuntime.ApplyLease | src/app/adapter-runtime.ts:280-294 | a lease replaces registry, cursors and push indexes together |
| LeaseApplication.LeaseOverwritesCursors | src/app/adapter-runtime.ts:287-289 | every assigned device's cursor becomes the leased one, also an older one or none; no other cursor and no row changes |
| RuntimeDelivery.AdapterIsNeverRefused | src/app/adapter-runtime.ts:257-278 | whatever the adapter's own guards let it do the queue protocol allows: it never sends while a request is outstanding and never ends one it has not sent |
| RuntimeDelivery.RunsKeepInvariant | src/app/adapter-runtime.ts:257-278 | over every run of adapter, queue and DS together both invariants hold, and a request is outstanding exactly while a delivery task stands at its call |
| FileTree.EnsureDirMeaning | src/ops/backup/backup-utils.ts:15-17 | a directory can be made exactly when no file stands on its path, and then only the path is added |
| FileTree.CopyPathMeaning | src/ops/backup/backup-utils.ts:23-31 | a copy to a free place goes through exactly when no file blocks the way, puts everything there and changes nothing else |
| FileTree.MergeMeaning | src/ops/backup/backup-utils.ts:23-31 | a copy onto what exists fails exactly without a source, into itself, or when a file meets a directory, and otherwise puts the copied nodes over what was there |
| FileTree.ReplacePathMeaning | src/ops/backup/backup-utils.ts:33-36 | replacing leaves exactly the source's contents at the destination |
| FileTree.FileSystem.Copy | src/ops/backup/backup-utils.ts:23-31 | the two steps of a copy give the copied tree |
| FileTree.FileSystem.Replace | src/ops/backup/backup-utils.ts:33-36 | removal and copy give the replaced tree |
| BundleFiles.WalkFiles | src/ops/backup/backup-utils.ts:69-80 | every file below a directory exactly once |
| BundleFiles.ListBundleFiles | src/ops/backup/backup-checksums.ts:54-59 | the relative names of exactly the bundle's files other than the checksum list |
| BundleFiles.RenderReadBack | src/ops/backup/backup-checksums.ts:56 | a relative path survives being written with slashes |
| BackupCopies.CopyDirectoryFiltered | src/ops/backup/backup-utils.ts:38-57 | the directory without everything at or below the excluded place, and no other change |
| BackupCopies.CopySelectedFiles | src/ops/backup/backup-utils.ts:59-67 | exactly the selected files and the directories leading to them |
| Checksums.FormatThenParse | src/ops/backup/backup-checksums.ts:61-76 | reading a written list gives the same entries in order |
| Checksums.LineReadExactly | src/ops/backup/backup-checksums.ts:61-76 | a line is an entry exactly when it is 64 lower-case hexadecimal digits, two spaces and a path without line terminators |
| Checksums.AgreementIsBijection | src/ops/backup/backup-checksums.ts:25-38 | equal counts and every file listed leave no repeated and no foreign entry |
| Checksums.VerificationIsExact | src/ops/backup/backup-checksums.ts:18-39 | a list passes exactly when the paths are the same and every hash is |
| Checksums.AnyChangeIsRejected | src/ops/backup/backup-checksums.ts:18-39 | unless the hash confuses a file's old and new content, any added, removed or edited file makes the list fail |
| Checksums.WriteChecksums | src/ops/backup/backup-checksums.ts:9-16 | the text lists each file's hash and path in order |
| Checksums.VerifyChecksums | src/ops/backup/backup-checksums.ts:18-39 | the checking loops report no failure exactly when the list passes |
| BackupVerify.VerifyBackup | src/ops/backup/backup-verify.ts:14-39 | the manifest exactly when it reads, every included section is present, the version fits and the checksums pass |
| BackupVerify.WriteBundleChecksums | src/ops/backup/backup-checksums.ts:9-16 | afterwards the bundle's list passes and only the list changed |
| BackupVerify.SameInventory | src/ops/backup/backup-checksums.ts:54-59 | the list itself is not part of what it lists |
| BackupVerify.VerifyOnlyReadsBundle | src/ops/backup/backup-verify.ts:14-39 | verification depends on nothing outside the bundle |
| BackupIntegrity.VerifiesExactly | src/ops/backup/backup-verify.ts:14-39 | a bundle verifies exactly when its manifest is complete, every included section is there, the version rule holds, and the list has one entry per file with its hash |
| BackupIntegrity.ChangeIsDetected | src/ops/backup/backup-verify.ts:14-39 | of two bundles with the same list, when one verifies and a file of the other is added, removed or has another hash, the other does not verify |
| Sorting.SortMeaning | src/ops/backup/backup-create.ts:160 | sorting permutes and orders newest first |
| Sorting.SortIsStable | src/ops/backup/backup-create.ts:160 | equal keys keep their order |
| BackupCreate.NewestFirst | src/ops/backup/backup-create.ts:155-162 | the selected logs are as many as allowed, and none left out is strictly newer than one selected |
| BackupCreate.CopyAdapterSection | src/ops/backup/backup-create.ts:83-96 | the section holds the data directory without the logs, counted |
| BackupCreate.CopyConfigSection | src/ops/backup/backup-create.ts:98-110 | the section holds `.env` and nothing else |
| BackupCreate.CopyLicenseSection | src/ops/backup/backup-create.ts:112-135 | the whole license directory when it is configured and present, and no change otherwise |
| BackupCreate.CopyLogSection | src/ops/backup/backup-create.ts:137-174 | the newest logs; fails exactly when logs are wanted and a file stands in place of their directory |
| BackupCreate.CreateBackup | src/ops/backup/backup-create.ts:36-81 | goes through exactly when nothing stands in the way; then the bundle holds each section as it was, its manifest, a passing list and nothing else, and nothing outside changed; missing inputs are noticed before anything is written |
| BackupCreate.Advance | src/ops/backup/backup-create.ts:48-56 | storing one section disturbs no other section and nothing outside the bundle |
| BackupRestore.RestoreBackup | src/ops/backup/backup-restore.ts:19-59 | refuses while the service runs or the bundle does not verify, leaving the tree alone; otherwise gives the restored tree and the restored paths |
| BackupRestore.CreateSafetyCopy | src/ops/backup/backup-restore.ts:89-115 | every existing target of an included section is copied, and the report written |
| BackupRestore.PrepareSafety | src/ops/backup/backup-restore.ts:117-125 | logs are preserved when the bundle restores the data directory and has no logs of its own |
| BackupRestore.KeepsLogsExactly | src/ops/backup/backup-restore.ts:35-39 | current logs are kept exactly when a data section is restored and the log section brings none |
| BackupRestore.RestoredInOrder | src/ops/backup/backup-restore.ts:41-59 | the reported paths are those of the included sections in order |
| RestoreSafety.RestoreIsReversible | src/ops/backup/backup-restore.ts:33-53 | the safety directory holds the exact previous contents of every replaced section, and outside targets, kept logs and safety directory nothing changes but directories leading there |
| RestoreSafety.RestoredTree | src/ops/backup/backup-restore.ts:41-53 | every place of the final tree is decided by the last move at or above it |
| TreeMoves.ReplaceAllMeaning | src/ops/backup/backup-restore.ts:41-49 | replacing section after section gives the tree read off move by move |
| TreeMoves.SaveAllMeaning | src/ops/backup/backup-restore.ts:97-107 | saving target after target into a fresh directory loses none |
| RestoreTotality.RestoreGoesThrough | src/ops/backup/backup-restore.ts:19-59 | on the tree before the call: a restore that may start goes through exactly when the safety directory can be made and no file stands above a destination when its turn comes |
| RestoreTotality.RestoreStopsHalfWay | src/ops/backup/backup-restore.ts:19-59 | with whatever hash and contents there is a tree whose bundle verifies and whose restore replaces the data directory and then fails, because the kept logs cannot be put back |
| RestoreTotality.PrepareGoesThrough | src/ops/backup/backup-restore.ts:89-125 | the safety copy can be made exactly when its directory can |
| BackupRoundTrip.RestoreUndoesChanges | src/ops/backup/backup-create.ts:36-174 | after creating a bundle and any change outside it, restoring brings data (without logs), `.env` and license back exactly; logs are the captured ones if any, else the ones found, else what the other sections bring back; for sections nested in one another as long as the log directory does not contain the data directory |
| RestoreOfBackup.RestoreOfBackupGoesThrough | src/ops/backup/backup-restore.ts:19-59 | that restore goes through exactly when the safety directory can be made and every place above each target in turn is free or a directory, read in the tree backed up at and below targets already restored and in the current tree elsewhere |
| RestoreOfBackup.RestoreOfBackupStopsHalfWay | src/ops/backup/backup-restore.ts:19-59 | a backup with an id and no negative log limit, taken without logs, verifies, and its restore fails when a file of its data directory stands above the present log directory; with the other ways clear every section has been replaced by then |
| BackupRoundTrip.BundleVerifiesExactly | src/ops/backup/backup-verify.ts:14-39 | a finished bundle verifies exactly when its id is not empty, its log count is not negative and the version fits or may differ |
| BackupRoundTrip.TrimmedBackupStaysValid | src/ops/backup/backup-prune.ts:87-117 | trimming a bundle made by creation takes no other captured section with it |
| BackupTrim.TrimBundle | src/ops/backup/backup-prune.ts:98-114 | logs are gone, manifest and list are rewritten, nothing else changes; untouched without captured logs; fails exactly when a directory stands at the list's place, and then only the list is not rewritten |
| BackupTrim.TrimKeepsBundleValid | src/ops/backup/backup-prune.ts:98-114 | a trimmed bundle that verified before still does exactly when the removed logs held no other captured section |
| BackupTrim.TrimmedBundleCanFail | src/ops/backup/backup-prune.ts:98-114 | with whatever hash and contents there is a bundle that verifies, has its logs trimmed, and does not verify afterwards |
| BackupTrim.OtherSectionsKept | src/ops/backup/backup-prune.ts:103-107 | captured sections apart from the logs keep their contents |
| BackupTrim.UncaptureMeaning | src/ops/backup/backup-prune.ts:99-110 | only the first log section changes, to not included and empty |
| BackupTrim.TrimmedManifestSays | src/ops/backup/backup-prune.ts:99-113 | the manifest of a trimmed bundle says that no logs are captured and is otherwise the same |
| BackupTrim.TrimsExactly | src/ops/backup/backup-prune.ts:98-104 | the logs of the first log section are trimmed exactly when it is included and they are there |
| BackupTrim.TrimmedOnce | src/ops/backup/backup-prune.ts:98-104 | a trimmed bundle has no logs to trim |
| BackupTrim.TrimAll | src/ops/backup/backup-prune.ts:98-114 | every candidate is trimmed or untouched and no other place changes; a failure leaves the earlier ones done, one half done and the rest untouched |
| BackupPrune.Group | src/ops/backup/backup-prune.ts:27-43 | the readable, non-private bundle directories of each mode, once each |
| BackupPrune.NewestStay | src/ops/backup/backup-prune.ts:59-67 | the number removed is what exceeds the number to keep, and none removed is strictly newer than one kept |
| BackupPrune.PruneGroup | src/ops/backup/backup-prune.ts:59-67 | removes the directories past the kept ones and reports them |
| BackupPrune.PruneBackups | src/ops/backup/backup-prune.ts:20-57 | per mode the newest stay, of those only the newest keep logs, every other place is unchanged, and the report is right; each error with exactly what it leaves behind |
| BackupPrune.SurvivorsVerify | src/ops/backup/backup-prune.ts:20-117 | a bundle not removed that verified before verifies again, with the manifest it had or, when trimmed, with the one that says so, and fails exactly when trimmed logs held another captured section |
| BackupRetention.CreatedManifestIsRead | src/ops/backup/backup-create.ts:56-79 | the manifest in a finished bundle has the id, time, mode, versions and log limit of the call and says whether logs were captured; it reads back exactly when there is an id and the limit is not negative |
| BackupRetention.CapturedExactly | src/ops/backup/backup-create.ts:109-194 | the license is captured exactly when its directory is configured, not empty and there; of the logs as many as the limit allows when they are asked for and there |
| BackupRetention.CreatedBundleIsGrouped | src/ops/backup/backup-prune.ts:27-43 | a finished bundle counts for the mode it was made with and no other, with the time it was made, unless its name is private or its manifest cannot be read |
| BackupRetention.NewestBackupSurvivesPrune | src/ops/backup/backup-prune.ts:20-57 | a finished backup newer than every other bundle is whole and verifies after a prune that keeps at least one of its mode and the logs of at least one |
| Multipart.MultipartStreamParser.Push | src/infra/dahua/parsers/multipart.ts:14-54 | the loop returns the parts complete in the buffer and keeps the rest |
| Multipart.ChunksMayBeSplitAnywhere | src/infra/dahua/parsers/multipart.ts:14-54 | pushing two chunks gives the parts and the buffer of pushing their concatenation |
| Multipart.AnyChunkingEqualsOnePush | src/infra/dahua/parsers/multipart.ts:14-54 | any cutting of the input gives the result of one push |
| MultipartRoundTrip.PrintThenParse | src/infra/dahua/parsers/multipart.ts:32-69 | printed parts parse back to the same headers, with lower-cased names, and bodies, in order |
| MultipartRoundTrip.PrintThenStream | src/infra/dahua/parsers/multipart.ts:14-54 | the same however the printed text is cut |
| MultipartRoundTrip.HeaderLineIsRead | src/infra/dahua/parsers/multipart.ts:57-69 | a header line is cut at its first colon and its name lower-cased; a line without a colon adds nothing |
| MultipartRoundTrip.LineFeedPartIsRead | src/infra/dahua/parsers/multipart.ts:37-50 | a header block that ends with bare line feeds is read as well |
| MultipartRoundTrip.NoBlankLineNoPart | src/infra/dahua/parsers/multipart.ts:32-42 | text between boundaries without a blank line is no part |
| SemicolonSplit.SplitBySemicolon | src/infra/dahua/parsers/access-control-push.ts:201-241 | the scanning loop gives the tokens of the scan |
| SemicolonSplit.SplitThenJoin | src/infra/dahua/parsers/access-control-push.ts:201-241 | joining the tokens gives the input, or the input less one trailing top-level separator |
| SemicolonSplit.JoinThenSplit | src/infra/dahua/parsers/access-control-push.ts:201-241 | splitting the join of well-formed tokens gives the tokens |
| SemicolonSplit.SplitInvertsJoinExactly | src/infra/dahua/parsers/access-control-push.ts:201-241 | and only of well-formed tokens |
| SemicolonGrammar.SplitReadsGrammar | src/infra/dahua/parsers/access-control-push.ts:201-241 | tokens made of plain characters, single or double quotations with escaped marks, and nested braces come back as they were |
| DigestText.PrintThenRead | src/http/digest-auth-server.ts:82-93 | printed fields are read back one by one |
| DigestText.ReadRecord | src/http/digest-auth-server.ts:82-93 | the matching loop fills the record of the fields read |
| DigestAuth.DigestAuthServer.MakeChallengeHeader | src/http/digest-auth-server.ts:26-32 | collects, stores the nonce with its expiry and prints the challenge |
| DigestAuth.DigestAuthServer.ReadAuthorization | src/http/digest-auth-server.ts:34-54 | the header's record, rejected when it is absent, of another scheme, or lacks a field |
| DigestAuth.DigestAuthServer.Validate | src/http/digest-auth-server.ts:56-70 | accepts exactly realm, quality and a live nonce with the expected response |
| DigestAuth.DigestAuthServer.Gc | src/http/digest-auth-server.ts:72-79 | exactly the expired nonces are dropped |
| DigestAuth.DigestAuthClient.Answer | src/infra/dahua/auth/digest-auth.ts:59-60 | reads the challenge, counts up and prints the authorization |
| DigestHandshake.ClientReadsChallenge | src/infra/dahua/auth/digest-auth.ts:120-139 | the client reads the server's challenge with the realm cut at its first equals sign, and rejects it when that leaves none |
| DigestHandshake.ServerReadsAuthorization | src/http/digest-auth-server.ts:34-54 | the server reads the client's authorization field by field |
| DigestHandshake.HandshakeSucceedsExactly | src/infra/dahua/auth/digest-auth.ts:74-139 | for quote-free, trimmed, non-empty credentials the answer to a live challenge validates exactly when the realm has no equals sign |
| DigestAuth.NonceLives | src/http/digest-auth-server.ts:26-80 | an issued nonce survives any other challenges and collections until it expires |
| DigestAuth.NonceLivesExactly | src/http/digest-auth-server.ts:26-80 | a nonce not drawn again is in the table exactly as long as no challenge and no validation came at or after its expiry |
| DigestHandshake.HandshakeAcrossOtherRequests | src/http/digest-auth-server.ts:26-80 | and does so across any other challenges and collections before the nonce expires |
| DigestHandshake.AnswerIsRead | src/infra/dahua/auth/digest-auth.ts:74-117 | what the server reads of the answer: user, realm, nonce, address and the response computed from password and method |
| DigestRejection.HandshakeNeedsCredentials | src/http/digest-auth-server.ts:56-70 | when the hash does not confuse the texts hashed, the handshake succeeds exactly when the realm has no equals sign, the nonce is live, and both sides use the same password and method |
| DigestRejection.OtherResponseIsRejected | src/http/digest-auth-server.ts:66-69 | a response other than the client's own, letter case aside, is rejected |
| DigestRejection.OtherAddressIsRejected | src/http/digest-auth-server.ts:66-69 | an answer whose address was changed is rejected |
| DigestDialects.DeviceChallengeIsRead | src/infra/dahua/auth/digest-auth.ts:120-139 | from any printed challenge, in any order and notation and any case of the scheme, the client takes realm, nonce, quality and opaque text, and refuses it without realm or nonce |
| DigestDialects.OffersAuthExactly | src/infra/dahua/auth/digest-auth.ts:84 | `auth` is used exactly when it is among the listed qualities |
| DigestDialects.OldAnswer | src/infra/dahua/auth/digest-auth.ts:86-110 | without a quality the older response is sent, and this server does not read such an answer |
| DigestDialects.CountReadsBack | src/infra/dahua/auth/digest-auth.ts:81-82 | the counter reads back from its hexadecimal text of at least eight digits, exactly eight below 16 to the eighth |
| DigestDialects.UpperChangesCaseOnly | src/http/digest-auth-server.ts:67 | upper-casing the method changes letter case only |
| DigestDialects.OtherSchemeIsRejected | src/http/digest-auth-server.ts:38-40 | an authorization of another scheme is not read |
| PagedFind.RunAccessFind | src/infra/dahua/dahua-client.ts:211-264 | rows and requests of the whole search, including a failed request after which the search is still stopped |
| PagedFind.SearchIsSlice | src/infra/dahua/dahua-client.ts:225-262 | on a device that serves a list at least up to its caps, for any offset and limit: the mock's slice, asked for as the range from the offset to the limit, in pages of the caps or else the limit, and in the fewest of them |
| PagedFind.CappedSearchIsSlice | src/infra/dahua/dahua-client.ts:225-262 | on a device that cuts every page at its caps the search still returns the whole slice |
| PagedFind.CapsAreKept | src/infra/dahua/dahua-client.ts:229-244 | whatever the device answers, no request asks for more than its caps or the limit, or beyond the total |
| PagedFind.PagesNeverOverlap | src/infra/dahua/dahua-client.ts:236-255 | whatever the device answers, pages stay in the range, never overlap, and are at most as many as places in it |
| PagedFind.StoppedOnceOrNever | src/infra/dahua/dahua-client.ts:225-262 | a token is stopped exactly once when rows exist and are wanted, and never otherwise |
| Backfill.BackfillService.Fetch | src/domain/backfill/backfill-service.ts:24-86 | the page for the table, the assignment and the device's answer; rejected only for unparsable settings |
| Backfill.DedupeByEventId | src/domain/backfill/backfill-service.ts:88-100 | keeps first occurrences |
| Backfill.UnseenMeaning | src/domain/backfill/backfill-service.ts:88-100 | kept keys are exactly those not seen before, once each |
| Backfill.UnseenInOrder | src/domain/backfill/backfill-service.ts:88-100 | each kept event is the first with its key, and order is kept |
| Backfill.MergedPage | src/domain/backfill/backfill-service.ts:77-78 | local rows first and complete, then the device's unseen events up to the limit |
| Backfill.RemoteInRecordOrder | src/domain/backfill/backfill-service.ts:52-75 | the device's events come in record-number order, and equal numbers keep the device's order |
| Backfill.EveryPage | src/domain/backfill/backfill-service.ts:24-86 | local rows are a prefix, no key repeats and the limit holds on every normal return |
| Backfill.PassedRowComesBackExactly | src/domain/backfill/backfill-service.ts:24-86 | a page hands out a stored row at or before the cursor again exactly when the local rows leave room, the device is assigned, enabled and answers, and one of its unseen events within the room has the row's key |
| Backfill.PassedRowComesBack | src/domain/backfill/backfill-service.ts:46-78 | for every record and whatever the hash: when the reader's cursor is the record's own event, stored as the only row, the page after it is that event again |
| Backfill.CursorDoesNotFilterRecords | src/domain/backfill/backfill-service.ts:46-78 | a merged page that is not full holds the key of every record the device gave, whatever the cursor |
| Backfill.SameEventId | src/domain/backfill/backfill-service.ts:110-121 | ids agree exactly when timestamp and user do |
| Backfill.PageIsMadeOf | src/domain/backfill/backfill-service.ts:46-75 | behind the local rows each event of a page is made of a record the device gave for the look-back window, with its time, person or card, direction, payload and id |
| Backfill.RejectedExactly | src/domain/backfill/backfill-service.ts:24-42 | a request is rejected exactly when the local rows leave room and the assigned device has settings that cannot be read; when the device is not asked or fails the page is the local rows |
| ServicePaging.ServedPagingIsExactly | src/domain/backfill/backfill-service.ts:24-86 | whatever statements run between the requests and whatever devices answer: after every request the rows handed out are in order, skip no stored row and are complete when the page was short, exactly when at each request no stored row of the device lies between the start of the page and the last row handed out |
| ServicePaging.NextPageIsExactly | src/domain/backfill/backfill-service.ts:24-86 | after a page whose last event is not stored the next page keeps the reading exact exactly when no row handed out is stored any more; after one whose last event is stored, exactly when no stored row lies between that row and the last one handed out |
| ServicePaging.RowIsContinued | src/domain/backfill/backfill-service.ts:24-86 | a page that ends with a table row still stored is continued exactly |
| ServicePaging.RecordRepeatsRow | src/domain/backfill/backfill-service.ts:24-86 | with a device's record at the end of the page and not stored, the second page hands the same row out again |
| ServicePaging.RecordSkipsRow | src/domain/backfill/backfill-service.ts:24-86 | when the record is stored behind another event, the second page is short and never hands that event out |
| ExportMerge.MergeUsersAndCards | src/domain/identity-export/identity-export-service.ts:119-150 | the two loops give the merged entries in map order |
| ExportMerge.MergedIsOuterJoin | src/domain/identity-export/identity-export-service.ts:119-150 | one row per key in first-seen order, users first; user fields from the last user record, card fields from the last card with a value, the name falling back to the first card name, each source once |
| ExportMerge.CardJoinsUser | src/domain/identity-export/identity-export-service.ts:128-141 | when a card meets a user or another card: equal id texts, or without an id the card number, with the placeholder for a user without id |
| ExportMerge.NumbersTellCardsApart | src/domain/identity/identity-records.ts:5-11 | cards without an id are one row exactly when their numbers read the same |
| ExportMerge.UserMeetsCard | src/domain/identity-export/identity-export-service.ts:119-150 | a user and a card with one id are exported as one person with the user's name and the card's number |
| ExportMerge.NullIdsStayApart | src/domain/identity/identity-records.ts:5-11 | a user and a card that both have a null id are exported separately |
| BulkCreate.FaceCarries | src/domain/identity-write/identity-write-support.ts:84-97 | a face request carries pictures or else links, and nothing exactly when all given ones are blank |
| BulkCreate.ReportIsTruthful | src/domain/identity-write/identity-write-service.ts:132-200 | reported success means the device took that write; a failed user step leaves the others skipped; status is success exactly when every requested step is |
| BulkCreate.ExistingUsersAreNotWritten | src/domain/identity-write/identity-write-service.ts:140-142 | a run writes nothing about a user the device already has |
| BulkCreate.RepeatWritesNothing | src/domain/identity-write/identity-write-service.ts:109-149 | on one device, repeating the import writes nothing for a person whose user step succeeded, and reports a skip wherever the lookup is answered |
| BulkCreate.SecondMentionIsNotCreated | src/domain/identity-write/identity-write-service.ts:123-125 | a later mention of a person whose user step succeeded changes nothing on the device |
| BulkCreate.NoUserIsCreatedTwice | src/domain/identity-write/identity-write-service.ts:123-149 | in any run, whatever happens to the requests, the device carries out at most one creation per user id |
| BulkCreate.RetryCompletesExactly | src/domain/identity-write/identity-write-service.ts:140-148 | a retry whose requests are all accepted carries out the person's user, card and face writes exactly when the device does not have the user, and otherwise writes nothing |
| BulkCreate.RetryAfterFirstRun | src/domain/identity-write/identity-write-service.ts:132-149 | for a new person that is exactly when the first run's user write was not carried out: the lookup failed or the write was rejected |
| BulkCreate.RetryOfListCompletes | src/domain/identity-write/identity-write-service.ts:123-126 | of a whole list such a retry completes exactly the persons the device does not have, each at its first mention |
| BulkCreate.LostReplyIsNeverCompleted | src/domain/identity-write/identity-write-service.ts:140-148 | after a lost reply no repetition writes the person's card or face |
| WriteSteps.PersonIsWritten | src/domain/identity-write/identity-write-service.ts:159-230 | for creation and update: the writes carried out and the report of each step, from the fates of the single requests; an update asks for the face first and updates or creates it |
| WriteSteps.DeviceKnowsWhatItTook | src/domain/identity-write/identity-write-service.ts:159-230 | users and faces on a device are those it had and those a write it took brought |
| WriteSteps.FaceCarriesNonBlank | src/domain/identity-write/identity-write-support.ts:84-97 | a face request carries the pictures that are not blank or else the links that are not blank |
| WriteSteps.NonBlankInOrder | src/domain/identity-write/identity-write-support.ts:88-91 | they are sent in the order given |
| IdentityWrite.IdentityWriteService.ApplyWrite | src/domain/identity-write/identity-write-service.ts:159-200 | device and result object after the steps of one person, for creation and update |
| IdentityWrite.IdentityWriteService.UpsertAccessFace | src/domain/identity-write/identity-write-service.ts:214-230 | a face is updated when the device has one and created otherwise |
| IdentityWrite.IdentityWriteService.BulkCreateForPerson | src/domain/identity-write/identity-write-service.ts:132-149 | device and report for one person |
| IdentityWrite.IdentityWriteService.BulkCreateToAssignment | src/domain/identity-write/identity-write-service.ts:109-130 | reports for one device, missing-device reports when unassigned, and no report when it cannot be reached |
| IdentityWrite.IdentityWriteService.BulkCreate | src/domain/identity-write/identity-write-service.ts:42-57 | validation and target errors touch no device; otherwise the reports of all devices found, then of those missing |
| IdentityWrite.WriteResult.MarkFailure | src/domain/identity-write/identity-write-service.ts:202-212 | that step, the status and the code say failure; the other steps are unchanged |
| IdentityWrite.AbortsExactlyWhenUnreachable | src/domain/identity-write/identity-write-service.ts:50-52 | the call fails exactly when some device found cannot be reached |
| IdentityWrite.ReportsOnEveryone | src/domain/identity-write/identity-write-service.ts:123-126 | a call that ends normally reports on every person once per device, device by device and in the order of the persons |
| IdentityCalls.ValidExactly | src/domain/identity-write/identity-write-support.ts:23-49 | persons are accepted exactly when there is one and each has an id, a name, a number for its card and a picture or link for its face, white space not counting |
| IdentityCalls.TargetsAreSplit | src/domain/identity-write/identity-write-service.ts:42-57 | every device asked for is written to when assigned and reported missing when not, once per mention |
| IdentityCalls.MissingDevicesAreReported | src/domain/identity-write/identity-write-service.ts:53-56 | for each missing device every person is reported failed with nothing done, in order |
| IdentityWrite.ExistingUsersAreNotWrittenAnywhere | src/domain/identity-write/identity-write-service.ts:140-142 | over all devices, users present before are not written |
| IdentityWrite.RepeatedCallWritesNothing | src/domain/identity-write/identity-write-service.ts:109-149 | after a call, any later call over any devices writes nothing on a device for a user reported there as a success, and reports it there only as skipped or, without an answer to the lookup, as failed |

## Left out

- HTTP routes and schemas, the development UI, logging, metrics text and environment parsing: plumbing.
- SQL itself, WAL, transactions and the legacy table migration: each store method is one atomic step on a row sequence.
- The network: a request is accepted, rejected, or carried out without its reply; retries inside the HTTP clients are not modelled.
- Runtime.RunsKeepInvariant: the coroutines of the runtime are steps of a state machine on values, not methods of a class, because they interleave at await points; the code between two awaits is one step.
- The text of JSON manifests: a file holds either text or a manifest value; the checks of `parseManifest` that a typed value can still fail are kept.
- Path components "." and "..": here they are ordinary names, while in the source a manifest whose place for the logs is "." would make trimming delete the whole bundle.
- File metadata, symbolic links, permissions and concurrent changes during one operation.
- Backups whose log directory contains or equals the data directory: creation then captures an empty data section; the log directory is taken to be strictly inside the data directory or not above it.
- BackupRoundTrip.RestoreUndoesChanges: takes bundle and safety directory to be outside every section and new, and the log directory not to contain the data directory.
- File names with slashes, backslashes, line terminators or white space at their ends, where the checksum list could not be read back.
- The order of lines in the checksum list, sorted in the source by code units: no check depends on it.
- BundleFiles.ListBundleFiles: states the set of names and not their sorted order.
- createdAt and file times are integers in place of ISO strings and millisecond floats; only their order matters.
- Non-ASCII lower-casing, and the full Unicode behaviour of trimming beyond the white space listed in `Text`.
- `flattenObject`, the JSON and regular-expression based body parsers, face-record parsing and the mock push emitter.
- Identity lookup by target, photos, and the single-person create and update calls over several devices; the per-person steps of both operations are modelled.
- URL parsing in the digest client: the request URI is a parameter, and separators around header fields other than a comma and a space are not explored.
- A repeated client object across challenges of several servers; `DigestAuthClient` keeps one challenge and its counter.
- Record keys named like prototype members of language objects.
- Wrapper scripts, release and install scripts, command-line option parsing, and the legacy manifest conversions.

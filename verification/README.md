# Verification of the encrypted password manager

A Dafny model of the parts of this repository whose correctness depends on order: the encrypted
sync protocol between a server and its devices, the mobile vault controller, the mobile snapshot
journal, the browser's chain of seals; and of the data formats around them: the CSV reader, the
authenticated-data encodings, base64url and the password generator.

`dafny verify dfyconfig.toml` checks the whole project.

## How it is organised

**Sync.** `SyncHistory` defines a vault by the sequence of mutations that it has applied and proves
what every such sequence satisfies. `SyncServer` says what a server answers to a batch and to a pull,
as functions of that sequence. `SyncStore` is the server as it is written, a loop over a compacted
record table and a mutation log, proved to give the same answers.

`SyncClient` says what a device does, as functions of a `World`: the history of the server, what the
device has stored durably, and two oracles. `net` lists for each request what other devices commit
before it arrives and whether request and answer get through; `disk` lists which durable writes
succeed. A run that uses an oracle up is a crash at that point, so the lemmas cover every
interleaving with other devices and every place where a sync can be cut short. `SyncDevice` and
`SyncRestoring` are the same operations as loops over mutable state, each proved equal to its function.

`SyncInvariant` states the invariant that ties cursors, revisions, outbox bases and version stamps to
the history; `SyncQueue`, `SyncResolve` and `SyncSafety` prove that every step and every run keeps it.
On it rest `SyncOutcomes` (local work survives, rejected pushes surface), `SyncConvergence`,
`SyncOwnWork` (what a completed sync pushes), `SyncPaging` (paged pulls beside concurrent pushes),
`SyncRestore` (enabling and restoring), `SyncInterruption`, `SyncCompletion` (when a sync completes)
and `SyncAnswers` (what it answers).

**Vault lifecycle.** `VaultControl` is the mobile controller as a state machine whose steps are the
stretches of code between two awaits, `VaultController` the class that performs them, and `VaultCalls`
says when its calls begin. `JournalNames`,
`Journal` and `JournalStore` are the snapshot journal, with failures at every step and other programs
in the same directory. `SealQueue` is the chain of seals of an unlocked vault in the browser.

**Formats.** `Csv` and `CsvImport`, `Utf8`, `Aad` and `AadLayout`, `Base64Url`, `Passwords` and
`PasswordReach`.

## What the proofs found

- **An interrupted pull can delete a remote login.** A pull saves its metadata page by page and seals
  the document only after the last page. If it is cut short in between, the metadata describes versions
  that the sealed document does not hold, and the next sync takes the difference for the user's own
  edits: a login that arrived in the interrupted pull is uploaded as deleted, without a conflict.
  `SyncOwnWork.CompletedSyncDeletes` says exactly which records a completed sync deletes, from what is
  stored before it; `SyncInterruption.NextSyncDeletesExactly` says which of them an interrupted pull is
  to blame for, and `SyncInterruption.NextSyncDeletesRemoteLogin` works through a concrete case. In the
  same way a login that the document still holds in an older version is uploaded over the newer one
  that a saved page delivered (`SyncInterruption.NextSyncOverwritesExactly`).
- **A login edited twice can conflict with its own upload.** If a sync is cut short after it has queued
  an edit, and the login is edited again, the next sync pushes the queued edit and then reads it back as
  the remote version of a changed record: it ends in a conflict between two edits of one device
  (`SyncCompletion.EditedWhilePendingConflicts`, and a concrete case in
  `SyncCompletion.EditedTwiceConflicts`).
  `SyncCompletion.UndisturbedSyncCompletesExactly` says exactly when a sync that nothing disturbs completes.
- **A published write that is reported as failed** leaves the mobile controller showing the old items
  (`VaultControl.StrayedShowsOldItems`). `VaultControl.ShowsNewestExactly` says exactly when the items
  shown are those of the newest durable vault. The journal refuses the next write in that case
  (`Journal.WriteThenLoad`).
- **A journal store that has loaded once** goes on accepting writes after a later load fails
  and covers the snapshot that it could not read (`Journal.WriteAfterFailedLoad` gives the exact condition,
  `Journal.UnreadableIsCovered` a run). This is about the interface of the store: its only caller,
  `apps/mobile/src/controller.ts:58`, reaches it only if a controller initializes twice.

## Assumptions

- Encryption and key derivation are ideal: opening returns exactly what was sealed. An envelope is
  named by the plaintext it opens to.
- A request fingerprint determines its mutation, and mutation ids drawn at random are never drawn twice.
- Other devices send what request validation accepts, and seal a login under its own id.
- The ids in a document are unique. Where logins and not only their versions are compared, two versions
  of a login with the same id and `updatedAt` are equal.
- One sync runs at a time on a device, on the document that is sealed, for one vault.
- The server database is never rolled back, and the cursor of a new vault is 0.
- A mobile controller loads its store once.

## Model

| member | source | states |
|---|---|---|
| `SyncHistory.RevisionCounts` | apps/web/src/lib/sync-store.server.ts:339-413 | The current revision of a record is the number of its mutations that were applied: revisions never skip or go back |
| `SyncHistory.RevisionsAreConsecutive` | apps/web/src/lib/sync-store.server.ts:339-413 | The k-th applied mutation of a record has revision k and base k - 1 |
| `SyncHistory.RevisionsIncrease` | apps/web/src/lib/sync-store.server.ts:347-359 | A later mutation of the same record has a strictly higher revision |
| `SyncHistory.RevisionNamesMutation` | apps/web/src/lib/sync-store.server.ts:347-359 | One mutation wrote each revision of a record |
| `SyncHistory.RevisionIsHighest` | apps/web/src/lib/sync-store.server.ts:347-390 | No log entry of a record is above its current revision, and exactly the current one reaches it |
| `SyncHistory.DistinctIds` | apps/web/src/lib/sync-store.server.ts:315-337 | A mutation id is applied at most once |
| `SyncHistory.ExtendsLastIndex` | apps/web/src/lib/sync-store.server.ts:292-435 | Later pushes leave a record as it was or give it a newer cursor and no lower revision |
| `SyncServer.PushOneSound` | apps/web/src/lib/sync-store.server.ts:313-413 | One accepted mutation: appended with the next cursor if its id is new, otherwise nothing changes; the result reports where it is |
| `SyncServer.AcceptedBatch` | apps/web/src/lib/sync-store.server.ts:313-428 | Every result of an accepted batch names the cursor, revision and record at which its mutation stands, and nothing else is new |
| `SyncServer.BatchIsAtomic` | apps/web/src/lib/sync-store.server.ts:292-435 | All or nothing: every mutation of the batch is in the vault, or the vault is unchanged |
| `SyncServer.CommittedBatchReplays` | apps/web/src/lib/sync-store.server.ts:315-337 | Exactly once: pushing a committed batch again, after any other pushes, changes nothing and answers the original revisions and cursors as replayed |
| `SyncServer.RefusedAsStale` | apps/web/src/lib/sync-store.server.ts:347-355 | A mutation is refused as a revision conflict exactly when its id is new and its base is not the current revision |
| `SyncServer.PushOneAnswers` | apps/web/src/lib/sync-store.server.ts:313-413 | Every answer to one mutation and exactly when it is given: replayed, id reused, revision conflict with both revisions, cursor exhausted, applied |
| `SyncServer.BatchAcceptedExactly` | apps/web/src/lib/sync-store.server.ts:292-435 | A batch is accepted exactly if each mutation is acceptable after those before it; the vault grows by those that it did not hold, and the results say which; otherwise the first that is not decides the error |
| `SyncServer.FeedIsRows` | apps/web/src/lib/sync-store.server.ts:249-258 | The pull query returns the current rows after a cursor, each record once, in cursor order, none missing |
| `SyncServer.PageIsRows` | apps/web/src/lib/sync-store.server.ts:271-289 | A page delivers exactly the records whose current cursor it passes; hasMore advances the cursor and is set exactly if more rows follow, otherwise the page ends at the vault cursor |
| `SyncServer.PageRecordsDiffer` | apps/web/src/lib/sync-store.server.ts:249-258 | A page never repeats a record |
| `SyncStore.CursorsAreUsedOnce` | apps/web/src/lib/sync-store.server.ts:310-413 | The log entries use each cursor 1 .. next_cursor exactly once |
| `SyncStore.RevisionsFollowCursors` | apps/web/src/lib/sync-store.server.ts:391-406 | Once every pushed batch was validated, log entries of one record have increasing revisions in cursor order |
| `SyncStore.RowIsNewestLogEntry` | apps/web/src/lib/sync-store.server.ts:361-406 | Once every pushed batch was validated, a record's log entries carry exactly the revisions 1 .. k and its table row is the k-th of them |
| `SyncStore.RecordCursorsDiffer` | apps/web/src/lib/sync-store.server.ts:361-390 | No two records share a cursor, and all lie in 1 .. next_cursor |
| `SyncStore.TurnOnTables` | apps/web/src/lib/sync-store.server.ts:313-359 | What the tables say about one mutation (replayed, reused id, conflict, exhausted) is what the history says |
| `SyncStore.Store.PushMutations` | apps/web/src/lib/sync-store.server.ts:292-435 | The transaction loop over the tables commits and answers exactly as the history does; a refused batch leaves every table as it was, and batches of validated mutations keep the history valid |
| `SyncStore.Store.PullChanges` | apps/web/src/lib/sync-store.server.ts:238-290 | The paged pull over the compacted table answers exactly as the history does |
| `SyncStore.SelectAfter` | apps/web/src/lib/sync-store.server.ts:249-263 | Selecting by cursor order with a limit yields the first rows of the feed |
| `SyncInvariant.OthersPushing` | apps/web/src/lib/sync-client.ts:417-573 | Whatever other devices push, the device invariant stays |
| `SyncInvariant.HeadApplied` | apps/web/src/lib/sync-client.ts:560-562 | The server applying the queued head, with the answer lost, keeps the invariant |
| `SyncInvariant.HeadAcknowledged` | apps/web/src/lib/sync-client.ts:563-570 | Acknowledging the head keeps the invariant and leaves nothing queued that the server has applied |
| `SyncInvariant.ChangeKeptAside` | apps/web/src/lib/sync-client.ts:457-474 | A remote version of a pending or changed record becomes a stored conflict and the invariant stays |
| `SyncInvariant.ChangeTakenOver` | apps/web/src/lib/sync-client.ts:475-491 | Taking a remote version over keeps the invariant, records its revision and leaves the record unblocked |
| `SyncInvariant.ChangesProcessed` | apps/web/src/lib/sync-client.ts:449-492 | After the changes of a page every one of them is known at its revision |
| `SyncInvariant.PageTaken` | apps/web/src/lib/sync-client.ts:449-495 | Saving a page with its cursor keeps the knowledge invariant |
| `SyncSafety.PullTurnKeeps` | apps/web/src/lib/sync-client.ts:432-496 | One turn of the pull loop keeps the invariant whether the request, or the save, succeeds; a further turn has advanced the cursor |
| `SyncSafety.PullKeeps` | apps/web/src/lib/sync-client.ts:417-499 | A pull keeps the invariant wherever it stops; one that finishes has read to the end of the history, saved its metadata and sealed its document |
| `SyncSafety.HeadPushed` | apps/web/src/lib/sync-client.ts:560-562 | Pushing the head, for every fate of request and answer: accepted means applied; rejected means nothing queued is applied, and a conflict means that the recorded revision is not current |
| `SyncSafety.DrainKeeps` | apps/web/src/lib/sync-client.ts:553-573 | Draining keeps the invariant wherever it stops, and ends empty, at a refused head, or given up |
| `SyncSafety.AppliedIsAcknowledgedFirst` | apps/web/src/lib/sync-client.ts:553-573 | A mutation that is applied but not acknowledged is the head, blocks every resolution, and is acknowledged before the sync pulls |
| `SyncSafety.SyncKeeps` | apps/web/src/lib/sync-client.ts:619-719 | A sync keeps the invariant wherever it ends |
| `SyncSafety.PerformKeeps` | apps/web/src/lib/sync-client.ts:306-719 | Every operation of a run keeps the invariant and only extends the server history |
| `SyncSafety.RunKeeps` | apps/web/src/lib/sync-client.ts:306-719 | Over all runs of edits, syncs, resolutions and foreign pushes, with any requests and writes failing, the invariant holds: known revisions, one pending mutation per record built on the recorded revision, unacknowledged only at the head |
| `SyncSafety.RunKnowsUpToCursor` | apps/web/src/lib/sync-client.ts:449-495 | In every run each record written up to the saved cursor is known at exactly the server's current revision, recorded or as a conflict |
| `SyncQueue.AllChangesQueued` | apps/web/src/lib/sync-client.ts:509-550 | Every record that is new, changed or missing locally is queued, and nothing is queued twice |
| `SyncQueue.NewMutationsAre` | apps/web/src/lib/sync-client.ts:501-551 | What is queued is an upload or a deletion of a changed record, on its recorded revision, under a fresh id |
| `SyncQueue.QueuedInOrder` | apps/web/src/lib/sync-client.ts:509-550 | Changed logins are queued in the order of the document, then the deletions in the order of the records |
| `SyncQueue.QueueingKeeps` | apps/web/src/lib/sync-client.ts:501-551 | Queueing the local changes keeps the invariant |
| `SyncOutcomes.PullSparesLocalWork` | apps/web/src/lib/sync-client.ts:449-492 | A record that is pending or changed when a pull starts has the same local item when it ends, and every remote version of it that the pull received is a stored conflict |
| `SyncOutcomes.PullStoresRemoteVersions` | apps/web/src/lib/sync-client.ts:417-499 | After a completed first pull the current server version of such a record, if newer than the known one, is a stored conflict |
| `SyncOutcomes.StalePushSurfaces` | apps/web/src/lib/sync-client.ts:652-683 | If draining ends in a revision conflict, the pull that follows and completes stores a conflict for that very record |
| `SyncOutcomes.UnblockedPull` | apps/web/src/lib/sync-client.ts:700-712 | A pull that starts with nothing pending or changed, as the second pull of a sync does, never creates a conflict, whatever is pushed meanwhile |
| `SyncConvergence.DrainCounts` | apps/web/src/lib/sync-client.ts:559-572 | The answered count is the number of mutations taken off the queue; one that is cut short leaves the rest in order |
| `SyncConvergence.UploadSettles` | apps/web/src/lib/sync-client.ts:501-573 | Once the local changes are queued and acknowledged no record counts as changed |
| `SyncConvergence.SettledAgrees` | apps/web/src/lib/sync-client.ts:195-205 | A settled device that has read to the end of the history holds the server's versions |
| `SyncConvergence.CompletedSyncConverges` | apps/web/src/lib/sync-client.ts:700-719 | A sync that reaches its final return leaves no pending mutation, no conflict, no local change, all of it stored, and the server's versions at the last page |
| `SyncConvergence.EveryCompletedSyncConverges` | apps/web/src/lib/sync-client.ts:619-719 | The same at the end of every run |
| `SyncConvergence.CompletedSyncHoldsLiveLogins` | apps/web/src/lib/sync-client.ts:700-719 | The returned document, as a map from ids to logins, is the map of the live server records at the last page |
| `SyncConvergence.CompletedDevicesAgree` | apps/web/src/lib/sync-client.ts:619-719 | Two devices that both complete a sync with no push in between hold the same logins |
| `SyncInterruption.InterruptedPullLeavesChanges` | apps/web/src/lib/sync-client.ts:493-497 | A pull that starts clean leaves a record counted as changed exactly when it was cut short after a saved page delivered a version of it under another stamp than the document holds |
| `SyncInterruption.NextSyncDeletesExactly` | apps/web/src/lib/sync-client.ts:493-549 | After such a pull the next completed sync deletes a record exactly if a saved page delivered it last as a login and the document holds none |
| `SyncInterruption.NextSyncOverwritesExactly` | apps/web/src/lib/sync-client.ts:493-527 | After such a pull the next completed sync uploads a login of the document exactly if a saved page last delivered a version of it under another stamp, which it thereby overwrites |
| `SyncInterruption.FirstSyncIsInterrupted` | apps/web/src/lib/sync-client.ts:495-497 | A concrete sync, from a start that meets the hypotheses of the two lemmas above, whose page is saved and whose seal fails |
| `SyncInterruption.NextSyncDeletesRemoteLogin` | apps/web/src/lib/sync-client.ts:528-549 | The sync after it deletes a remote login that this device never showed |
| `SyncOwnWork.DrainPushesQueue` | apps/web/src/lib/sync-client.ts:559-572 | A drain that finishes has applied exactly the queued mutations that were not applied before |
| `SyncOwnWork.PullKeepsChanges` | apps/web/src/lib/sync-client.ts:449-492 | A record counts as changed after a pull exactly if it did before, and then holds the same item |
| `SyncOwnWork.CompletedSyncDeletes` | apps/web/src/lib/sync-client.ts:652-719 | A completed sync deletes a record exactly if its deletion was pending, or the metadata records a login that the document lacks |
| `SyncOwnWork.CompletedSyncUploads` | apps/web/src/lib/sync-client.ts:652-719 | A completed sync uploads a login exactly if it was pending, or the document holds it and the metadata does not record it under its stamp |
| `SyncCompletion.UndisturbedDrain` | apps/web/src/lib/sync-client.ts:553-573 | With every request and write succeeding, a drain finishes exactly if each queued mutation is applied already or has a current base, and otherwise ends at a stale one; nothing but the queue is added to the history |
| `SyncCompletion.UndisturbedPull` | apps/web/src/lib/sync-client.ts:417-499 | With every request and write succeeding, a pull finishes within a page for each unread entry and one more, and meets a conflict exactly if a pending or changed record has a version that it has not read |
| `SyncCompletion.UndisturbedSyncCompletesExactly` | apps/web/src/lib/sync-client.ts:619-719 | When nobody else pushes and every request and write succeeds, a sync is never given up: it completes exactly if no conflict is stored, each pending base is current, and no changed record is pending or has an unread remote version; otherwise it asks the user |
| `SyncCompletion.EditedWhilePendingConflicts` | apps/web/src/lib/sync-client.ts:449-474 | A login that is edited again while its last edit is pending ends such a sync in a conflict with the upload of this very device |
| `SyncCompletion.EditedTwiceConflicts` | apps/web/src/lib/sync-client.ts:449-474 | A concrete device that meets the hypotheses: its only conflict is with its own upload |
| `SyncCompletion.CursorResetReadsAll` | apps/web/src/lib/sync-client.ts:432-448 | A device whose cursor is ahead of the server starts over, reads the current version of every record and ends at the end of the history |
| `SyncAnswers.SyncIsTruthful` | apps/web/src/lib/sync-client.ts:652-719 | Wherever a sync ends, the document that it answers is the sealed one, and the conflicts that it counts are those stored |
| `SyncAnswers.PullCounts` | apps/web/src/lib/sync-client.ts:428-499 | A pull counts exactly the received versions of records that were not blocked when it began |
| `SyncAnswers.SyncCounts` | apps/web/src/lib/sync-client.ts:652-719 | What the counts of an answer say: a completed sync pushed what was pending and what it queued, and pulled what its two pulls took over; one that stops at a conflict reports no push |
| `SyncAnswers.PullWrites` | apps/web/src/lib/sync-client.ts:432-498 | A finished pull makes one request and one save for each page, and seals the vault exactly if it took something over |
| `SyncAnswers.PullLeavesOthers` | apps/web/src/lib/sync-client.ts:207-222 | A pull leaves the logins that it received nothing about as they were and in their order |
| `SyncAnswers.PageTakenInOrder` | apps/web/src/lib/sync-client.ts:449-491 | The logins that a page brings come last, in the order of the page, behind the others in theirs |
| `SyncAnswers.PullDates` | apps/web/src/lib/sync-client.ts:207-222 | A pulled document is dated by the newest of what it held and what was taken over |
| `SyncDocuments.TakeOverLeavesRest` | apps/web/src/lib/sync-client.ts:207-222 | Taking a version over puts its login last and leaves everything else in place |
| `SyncResolve.LatestIsHighest` | apps/web/src/lib/sync-client.ts:254-268 | The conflict offered for a record is its numerically highest stored revision |
| `SyncResolve.OnlyHighestResolves` | apps/web/src/lib/sync-client.ts:324-339 | Only that revision can be resolved: anything else is answered as not found or stale |
| `SyncResolve.RebasedKeeps` | apps/web/src/lib/sync-client.ts:349-360 | Taking the remote version as the base keeps the invariant and removes what was pending for the record |
| `SyncResolve.KeepingLocal` | apps/web/src/lib/sync-client.ts:362-386 | Keeping the local version queues one mutation, of the local login or a tombstone, on the remote revision |
| `SyncResolve.UsingRemote` | apps/web/src/lib/sync-client.ts:388-392 | Using the remote version puts it under its id, changes nothing under the others, and leaves the record unblocked |
| `SyncResolve.HighestIsUnique` | apps/web/src/lib/sync-client.ts:254-268 | The stored conflicts of a record hold one version of the highest revision, so it does not matter which is selected |
| `SyncResolve.ResolutionKeeps` | apps/web/src/lib/sync-client.ts:306-415 | However a resolution ends the invariant holds. Keeping local succeeds exactly if the revision fits and the save works, and then the vault is as it was and the metadata queues what it holds on the remote version; using remote succeeds exactly if the seal and the save work, and then the vault holds the remote version and nothing else is changed, the metadata records it, and the record is unblocked; the rollback error is raised exactly if the seal works and the save and the second seal fail, and then the vault is new and the metadata old; any other failure leaves both old |
| `SyncResolve.UsingRemoteAgain` | apps/web/src/lib/sync-client.ts:388-412 | After a failed resolution with the remote version, a failed rollback included, trying again leaves exactly what success at once would have left |
| `SyncPaging.PagedPullIsComplete` | apps/web/src/lib/sync-store.server.ts:238-290 | Pages with arbitrary pushes between them: at the end the last envelope received for every record written after the cursor is the current one, and no other record was received |
| `SyncPaging.QuietPullEnds` | apps/web/src/lib/sync-store.server.ts:274-280 | Once pushes stop a paged pull ends |
| `SyncPaging.QuietPullIsFeed` | apps/web/src/lib/sync-store.server.ts:238-290 | Pages of a history that nobody extends are, put together, its feed |
| `SyncRestore.RestoredItemsFind` | apps/web/src/lib/vault-adapter.ts:305-325 | Later envelopes win and tombstones remove: the fold finds under each id what the newest envelope of the record says |
| `SyncRestore.UpsertKeepsPlaces` | apps/web/src/lib/vault-adapter.ts:305-325 | A login that is met again keeps its place, a new one comes last |
| `SyncRestore.RestoredTimeIsLatest` | apps/web/src/lib/vault-adapter.ts:305-335 | The restored document is dated by its newest record or tombstone, or by the creation of the vault |
| `SyncRestore.RestoreIsLiveVault` | apps/web/src/lib/sync-client.ts:721-767 | A restore with pushes between the pages yields exactly the live logins at the last page and metadata that satisfies the invariant with nothing locally changed and its cursor at that page |
| `SyncRestore.EnablingStarts` | apps/web/src/lib/sync-client.ts:594-614 | Enabling sync starts a device that satisfies the invariant; a document with a repeated id is refused |
| `SyncRestore.QuietDrainAppends` | apps/web/src/lib/sync-client.ts:553-573 | Draining while nobody else pushes appends the queue to the history in order |
| `SyncRestore.ConvertUploadRestore` | packages/vault-core/src/record-crypto.ts:515-555 | Converting a version 1 vault, uploading it and restoring it returns the same logins in the same order, for every page size |
| `SyncRestoring.FetchRemoteVault` | apps/web/src/lib/sync-client.ts:735-744 | The fetch loop equals the specification of paged fetching, pushes between the pages included |
| `SyncRestoring.RestoreDocument` | apps/web/src/lib/vault-adapter.ts:305-335 | The restore loop computes the specified fold |
| `SyncRestoring.ConvertVault` | packages/vault-core/src/record-crypto.ts:521-554 | The conversion loops equal the specification: refused exactly on a repeated id |
| `SyncDevice.TakeChanges` | apps/web/src/lib/sync-client.ts:449-492 | The loop over the changes of a page computes the specified fold and leaves the outbox alone |
| `SyncDevice.Device.DrainOutbox` | apps/web/src/lib/sync-client.ts:553-573 | The drain loop over mutable metadata equals its specification |
| `SyncDevice.Device.PullRemote` | apps/web/src/lib/sync-client.ts:417-499 | The pull loop equals its specification |
| `SyncDevice.Device.EnqueueLocalChanges` | apps/web/src/lib/sync-client.ts:501-551 | The two queueing loops equal their specification |
| `SyncDevice.Device.QueueAndSave` | apps/web/src/lib/sync-client.ts:700-701 | Queueing and saving equal their specification, a revision above the wire limit included |
| `SyncDevice.Device.SyncNow` | apps/web/src/lib/sync-client.ts:619-719 | A sync over mutable state equals its specification |
| `SyncDevice.Device.ResolveConflict` | apps/web/src/lib/sync-client.ts:306-415 | A resolution over mutable state equals its specification |
| `SyncDevice.Device.ResolveUsingRemote` | apps/web/src/lib/sync-client.ts:388-414 | The seal, save and roll back sequence equals its specification |
| `VaultControl.EveryRun` | apps/mobile/src/controller.ts:17-216 | In every interleaving: at most one operation in flight; inactive or locked means no session and no items, and when idle no document in memory |
| `VaultControl.ShowsNewestExactly` | apps/mobile/src/controller.ts:74-216 | In every run, unlocked with no published write about to return: the items shown are those of the newest durable vault exactly if the last published write was answered as a success, or there was none, or it held the items shown |
| `VaultControl.StrayedShowsOldItems` | apps/mobile/src/controller.ts:193-208 | The exception is real: a published write that is reported as failed leaves the old items shown |
| `VaultControl.RunKeeps` | apps/mobile/src/controller.ts:74-216 | The controller invariant over every interleaving of its steps |
| `VaultControl.LockIsFinal` | apps/mobile/src/controller.ts:78-84 | After a lock no continuation unlocks, shows an item or keeps a session or a draft, unless a new authentication begins |
| `VaultControl.OldCallShowsNothing` | apps/mobile/src/controller.ts:106-131 | A call from before a lock resumes into a locked vault and leaves it locked, whatever began since |
| `VaultControl.OpensExactly` | apps/mobile/src/controller.ts:85-144 | A locked vault is opened exactly by a successful unlock or a published creation with no lock in between, and shows what the vault holds |
| `VaultControl.PreparedRemovalIsCurrent` | apps/mobile/src/controller.ts:162-169 | A confirmed removal acts only on the very state for which it was prepared, otherwise it answers false and changes nothing |
| `VaultControl.ChangeIsAllOrNothing` | apps/mobile/src/controller.ts:170-214 | A change answers true exactly if its write succeeded with no lock in between, and then its items are shown and are those of the newest durable vault, whatever happened before; otherwise the old items or none are shown |
| `VaultControl.ChangedFinds` | apps/mobile/src/controller.ts:145-161 | What saving and removing do to the login under each id, and when they are refused; ids stay unique |
| `VaultCalls.ChangeBegins` | apps/mobile/src/controller.ts:170-192 | A change is being written exactly if the vault is open and idle, the change applies to what is shown, and sealing works; what is written is the changed vault; otherwise the answer is false and nothing is different |
| `VaultCalls.AuthenticationBegins` | apps/mobile/src/controller.ts:85-103 | Creating or unlocking begins exactly if the controller is active, ready, idle and locked and a vault is missing or present as asked; otherwise nothing is different |
| `VaultCalls.CreationWrites` | apps/mobile/src/controller.ts:106-116 | A creation writes an empty vault exactly if key derivation works and no lock came in between; otherwise it ends and keeps nothing |
| `VaultCalls.LoadShows` | apps/mobile/src/controller.ts:56-73 | The first load makes the controller ready exactly if it succeeds, an empty store included, and shows a vault exactly if there is one |
| `VaultCalls.ReadyAndActive` | apps/mobile/src/controller.ts:56-77 | In every run the controller is ready exactly if its load has succeeded, and as active as it was last told |
| `VaultCalls.FailedWriteLeaves` | apps/mobile/src/controller.ts:132-144 | After a write that is reported as failed everything is as it was, but for a session that was being created |
| `VaultController.Controller.Lock` | apps/mobile/src/controller.ts:78-84 | Locking discards every owned session and every draft, one by one |
| `VaultController.Controller.SetActive` | apps/mobile/src/controller.ts:74-77 | Going inactive locks |
| `VaultController.Controller.Authenticate` | apps/mobile/src/controller.ts:85-103 | The stretch before the key derivation equals its specification |
| `VaultController.Controller.AfterYield` | apps/mobile/src/controller.ts:106-133 | The stretch after the yield equals its specification |
| `VaultController.Controller.Mutate` | apps/mobile/src/controller.ts:170-192 | The stretch of a change up to the write equals its specification |
| `VaultController.Controller.AfterWrite` | apps/mobile/src/controller.ts:114-214 | The stretch after a write, of a creation or of a change, equals its specification |
| `VaultController.Controller.ConfirmRemoval` | apps/mobile/src/controller.ts:165-168 | Equals its specification |
| `JournalNames.NameOrderIsNumeric` | apps/mobile/src/storage.ts:27-34 | Snapshot names sort as their numbers do, and a number has one name |
| `JournalNames.EntryNameReads` | apps/mobile/src/storage.ts:67-69 | The padded name of a number is a snapshot name, reads back as that number, and a pending name is none |
| `Journal.LoadReadsHighest` | apps/mobile/src/storage.ts:35-51 | A load answers the numerically highest snapshot or fails; it answers that there is none exactly if there is none |
| `Journal.WriteAfterFailedLoad` | apps/mobile/src/storage.ts:35-75 | After a failed load every write is refused if no load has ever succeeded; otherwise an undisturbed one goes through exactly if limit, vault, number and pending name allow it, and the next load answers it |
| `Journal.UnreadableIsCovered` | apps/mobile/src/storage.ts:35-75 | A concrete run in which an unreadable snapshot is reported and then covered by a new one |
| `Journal.WriteNeverOverwrites` | apps/mobile/src/storage.ts:55-74 | Whatever fails in a write and whatever others do meanwhile, every snapshot that it finds stays as it was; a refused write touches nothing |
| `Journal.WriteTakesNewNumber` | apps/mobile/src/storage.ts:65-74 | A written snapshot has a number above all that were there and above all that the store used before |
| `Journal.ForeignChangesAreRefused` | apps/mobile/src/storage.ts:58-62 | A write is refused as changed externally exactly when the highest number is not the one last loaded or published |
| `Journal.WriteThenLoad` | apps/mobile/src/storage.ts:35-75 | After an undisturbed write a load answers the new snapshot if it was moved, and otherwise what it would have answered before |
| `Journal.RunKeepsSnapshots` | apps/mobile/src/storage.ts:20-78 | Over every run beside others that only add files no snapshot is ever overwritten or removed |
| `Journal.RunKeepsVault` | apps/mobile/src/storage.ts:63-64 | Once a store has seen a vault it writes snapshots of that vault only, until it loads again |
| `Journal.LoadFixesVault` | apps/mobile/src/storage.ts:35-51 | After a load that read a vault every write of another is refused as such; after one that found none any vault may be written; a failed one changes neither |
| `Journal.LoadedVaultIsKept` | apps/mobile/src/storage.ts:49-64 | From a load that read a vault on, whatever is written until the next load is of that vault |
| `Journal.UndisturbedWriteExactly` | apps/mobile/src/storage.ts:55-74 | An undisturbed write goes through exactly if the store has loaded, there is room, nothing changed, the vault is the known one and the next number is free; it adds that snapshot only and fixes the vault |
| `Journal.FailedWriteCounts` | apps/mobile/src/storage.ts:67-74 | A write that fails on the way has used its number up and changes nothing else in the store |
| `JournalStore.LastEntry` | apps/mobile/src/storage.ts:33-38 | The last of the filtered and sorted names |
| `JournalStore.JournalStore.Load` | apps/mobile/src/storage.ts:35-51 | Loading updates the counters and answers as specified |
| `JournalStore.JournalStore.Refusal` | apps/mobile/src/storage.ts:56-66 | The refusals, in their order, over the listed directory |
| `JournalStore.JournalStore.Write` | apps/mobile/src/storage.ts:52-77 | Writing updates the counters and the directory as specified, at every point of failure |
| `SealQueue.QueueRefines` | apps/web/src/lib/vault-adapter.ts:225-241 | Over every sequence of seals, failures and closes, with calls between the two stretches of a seal, the stored envelopes are the successful documents in call order, each sealed against the one stored before it |
| `SealQueue.AcceptsUntilClosed` | apps/web/src/lib/vault-adapter.ts:225-241 | A seal is accepted exactly if no close was called before it, and it changes nothing before its turn |
| `SealQueue.SealsNeverOverlap` | apps/web/src/lib/vault-adapter.ts:230-239 | In every run at most one seal is under way, no other may start, and the session and the envelope that it read before the encryption are still current when it finishes |
| `SealQueue.FirstUnsettledGoesOn` | apps/web/src/lib/vault-adapter.ts:230-239 | In every run the first seal that has not settled is under way or may start, whether the one before it succeeded or failed |
| `SealQueue.ClosedRefuses` | apps/web/src/lib/vault-adapter.ts:225-228 | Once a close was called the vault answers every seal with a refusal, and no later step adds one |
| `SealQueue.DestroyedExactlyOnce` | apps/web/src/lib/vault-adapter.ts:284-291 | The session is destroyed at most once, after a close and every accepted seal, and nothing happens after that; once closed and settled, the next turn has destroyed it; a further close changes nothing |
| `SealQueue.UnlockedVault.StartSeal` | apps/web/src/lib/vault-adapter.ts:230-234 | The stretch before the encryption, which reads the session and the envelope |
| `SealQueue.UnlockedVault.FinishSeal` | apps/web/src/lib/vault-adapter.ts:234-238 | The stretch after the encryption updates session and envelope only if it stored |
| `Csv.ParseCsv` | apps/web/src/lib/chrome-csv-import.ts:58-147 | The index loop over mutable fields equals the reader that works on what is left of the text |
| `Csv.WrittenTableReadsBack` | apps/web/src/lib/chrome-csv-import.ts:58-147 | Every table in quoted or bare fields, with LF, CRLF or CR ends and an optional byte order mark, reads back field by field, with the line of each row one plus the line breaks before it |
| `Csv.AcceptsExactlyTables` | apps/web/src/lib/chrome-csv-import.ts:58-147 | The reader accepts exactly the texts of written tables: whatever else it is given is refused |
| `Csv.RefusesWithLine` | apps/web/src/lib/chrome-csv-import.ts:84-146 | A refused text is well written up to a quote in a bare field, text behind a closing quote, or a quote that is not closed, and the error names that fault and its line |
| `Csv.QuotedTableReadsBack` | apps/web/src/lib/chrome-csv-import.ts:84-111 | Every table of non-empty rows, fully quoted, reads back as it was, embedded quotes, commas and line breaks included |
| `Csv.ScanQuoted` | apps/web/src/lib/chrome-csv-import.ts:84-100 | A quoted body reads back as its text and counts its physical line breaks |
| `CsvImport.Prepare` | apps/web/src/lib/chrome-csv-import.ts:241-298 | The marking loop over mutable key sets equals its specification |
| `CsvImport.PreparedMarksExactly` | apps/web/src/lib/chrome-csv-import.ts:258-298 | A row is a duplicate of the vault exactly if the vault has its key, otherwise of the file exactly if an earlier row has it |
| `CsvImport.PreparedShowsAll` | apps/web/src/lib/chrome-csv-import.ts:258-298 | The preview holds every row once, in order, apart by whether it can be imported |
| `CsvImport.SkippingImportsNewKeysOnce` | apps/web/src/lib/chrome-csv-import.ts:317-343 | Skipping duplicates imports each new key once and leaves no key of the file out |
| `CsvImport.ImportingAgainAddsNothing` | apps/web/src/lib/chrome-csv-import.ts:197-343 | Importing the same file again, skipping duplicates, adds nothing |
| `CsvImport.CountIsWhatIsAdded` | apps/web/src/lib/chrome-csv-import.ts:308-343 | The announced number is what applying adds, after the logins that were there |
| `CsvImport.ChosenRowsArrive` | apps/web/src/lib/chrome-csv-import.ts:317-343 | Under both strategies the logins of the chosen rows themselves are imported, in order, behind the old ones |
| `Utf8.IsWellFormedUtf16` | packages/sync-protocol/src/aad.ts:14-27 | The index loop accepts exactly the strings in which every surrogate is half of a pair |
| `Utf8.EncodeUtf8` | apps/mobile/src/crypto.ts:29-53 | The mobile encoder produces the UTF-8 encoding of the code points, lone surrogates replaced |
| `Utf8.EncodedIsShortest` | apps/mobile/src/crypto.ts:34-48 | Each code point is encoded in the shortest form of RFC 3629 for its range |
| `Utf8.EncodingIsInjective` | apps/mobile/src/crypto.ts:34-48 | No two sequences of code points have the same bytes |
| `Utf8.Utf8IsInjective` | packages/sync-protocol/src/aad.ts:48-52 | Well-formed strings have the same bytes exactly if they are equal |
| `Utf8.EncodesRepaired` | apps/mobile/src/crypto.ts:29-53 | Every string has the bytes of the well-formed string in which each lone surrogate is U+FFFD, and a well-formed string is that string itself |
| `Utf8.LoneSurrogatesCollide` | packages/sync-protocol/src/aad.ts:14-27 | Without the check for lone surrogates different strings would share their bytes |
| `Aad.DecimalIsInjective` | packages/sync-protocol/src/validation.ts:112-129 | Two accepted decimals name the same number only if they are the same string |
| `Aad.ConcatParts` | packages/sync-protocol/src/aad.ts:54-64 | The buffer filled part by part is the concatenation |
| `Aad.LpCut` | packages/sync-protocol/src/aad.ts:48-52 | A length-prefixed string can be cut off again: equal bytes mean equal strings and equal rests |
| `Aad.EncodeRecordAad` | packages/sync-protocol/src/aad.ts:72-84 | The record layout as built in one buffer, the first failing field reported |
| `Aad.RecordAadIsInjective` | packages/sync-protocol/src/aad.ts:72-84 | Two record inputs with the same bytes are equal field by field |
| `Aad.VaultKeyAadIsInjective` | packages/sync-protocol/src/aad.ts:96-113 | Two vault-key inputs with the same bytes are equal field by field |
| `Aad.KindsNeverCollide` | packages/sync-protocol/src/aad.ts:72-113 | No record shares its bytes with a vault key |
| `AadLayout.AcceptedDecimals` | packages/sync-protocol/src/validation.ts:112-129 | Exactly the decimals of the numbers up to the wire limit are accepted |
| `AadLayout.RecordLayout` | packages/sync-protocol/src/aad.ts:66-84 | The record fields stand one after another in the documented order, each readable at its offset; encoding succeeds exactly if each field fits, and the first that does not decides the error |
| `AadLayout.VaultKeyLayout` | packages/sync-protocol/src/aad.ts:95-113 | The same for the ten fields of the vault key data |
| `Base64Url.AcceptedExactly` | packages/sync-protocol/src/validation.ts:136-190 | A text is accepted exactly if it is the encoding of non-empty bytes whose number fits the limits |
| `Base64Url.OneTextEach` | packages/sync-protocol/src/validation.ts:163-190 | Every non-empty byte string has exactly one accepted text, which decodes to it |
| `Base64Url.NotCanonicalMeansUnusedBits` | packages/sync-protocol/src/validation.ts:173-179 | The comparison with the canonical text fails exactly for unused bits that are set |
| `Base64Url.EncodedText` | packages/sync-protocol/src/validation.ts:173-179 | The length of an encoding, its letters, and that they stand for the bits of the bytes in order |
| `Base64Url.RefusedBecause` | packages/sync-protocol/src/validation.ts:145-189 | What each kind of refusal means for the text |
| `Passwords.PasswordIsWellFormed` | packages/vault-core/src/operations.ts:162-222 | A password has the requested length, only enabled characters, and one of each enabled set |
| `Passwords.GeneratesExactly` | packages/vault-core/src/operations.ts:165-216 | A password is generated exactly if the length is in bounds, a set is enabled, and every index drawn is below the bound it was asked for |
| `Passwords.GeneratePassword` | packages/vault-core/src/operations.ts:162-222 | Fill and shuffle over an array equal their specification |
| `Passwords.Shuffle` | packages/vault-core/src/operations.ts:206-220 | The in-place shuffle equals its specification |
| `Passwords.OrderNamesSwaps` | packages/vault-core/src/operations.ts:206-220 | On distinct entries different swap indices give different orders |
| `Passwords.EveryOrderIsReached` | packages/vault-core/src/operations.ts:206-220 | Every order is reached by some choice of swap indices |
| `PasswordReach.PasswordsExactly` | packages/vault-core/src/operations.ts:162-222 | Some draws generate a text exactly if the options are valid and the text has the length, enabled characters only and one of each enabled set |
| `PasswordReach.FillNamesDraws` | packages/vault-core/src/operations.ts:190-205 | Character k of the fill is the one that the k-th draw names in its set |
| `PasswordReach.FillNamesItsDraws` | packages/vault-core/src/operations.ts:190-205 | Two runs that fill alike have drawn alike |
| `PasswordReach.CharacterSetsFit` | packages/vault-core/src/operations.ts:166-171 | The sets in use are those enabled, without a common or repeated character |
| `Passwords.EveryIndexIsEquallyLikely` | packages/vault-core/src/operations.ts:151-160 | Every index has exactly limit / bound accepted 32-bit candidates, and fewer than the bound are rejected |
| `Passwords.SecureRandomIndex` | packages/vault-core/src/operations.ts:151-160 | The loop answers the first candidate below the limit, reduced to the bound |

## Left out

- Vault ids and the errors about a vault, a record or a conflict of another vault: there is one vault.
- Failing decryption or encryption inside a sync: for what is stored it is a failing save at the same place.
- The time at which a conflict was detected, and the summaries shown for conflicts.
- Creating a vault on the server and the answer that one exists; enabling starts at the saved queue.
- Ids drawn before the queueing loop meets a revision above the wire limit; the model draws all of them.
- SyncStore.RowWithCursor: stands for the index on cursors; SQL text, locking and isolation are not modelled.
- SyncCompletion.CursorResetReadsAll: says what is read again after a server rollback, not that the device then agrees with it, as revisions are not comparable.
- SyncRestore.ConvertUploadRestore: assumes that nobody else pushes between the upload and the restore, as order is otherwise that of the pushes.
- SyncCompletion.UndisturbedSyncCompletesExactly: counts a request for every unread entry, the worst case; a sync with fewer may complete too, as a page brings up to 100 rows.
- SyncConvergence.CompletedSyncConverges: compares version stamps; that logins are equal too needs the assumption about equal stamps and is CompletedSyncHoldsLiveLogins.
- Two tabs or two syncs at once on one device, and clock ties between versions.
- Messages and listeners of the mobile controller, and the wiping of passwords and keys in memory.
- Overlapping loads and writes of the journal: its queue runs them one after another.
- Calls that encrypt or decrypt for sync while a vault closes: closing waits for seals only.
- Picking the columns of an imported file, its size limits, and URL parsing, which is a key function of the model.
- Csv.WrittenTableReadsBack: a line that ends in CR must not be followed by an LF, and a lone empty bare field after the last line end is no row; such texts read back as another table, with CRLF or without that row.
- Password strength; the model says that indices are drawn fairly, not that they are unpredictable.
- HTTP handlers, authentication, signup policy, the extension, the desktop shell and all user interfaces.
- Real cryptography and native code.

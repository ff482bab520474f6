# Virtroid, modelled in Dafny

Virtroid runs Android sessions on node machines. A node keeps a session's data directory while its
container runs, saves it as an encrypted snapshot when the session stops, and commits the snapshot's
manifest at the control plane. This project models the parts where a mistake would cost data or money
and proves what the code promises about them, for all inputs and all runs.

| files | what they model |
|---|---|
| `Lifecycle.dfy`, `LifecycleSafety.dfy`, `LifecycleRuns.dfy`, `LifecycleErasure.dfy`, `LifecycleFallback.dfy`, `LifecycleProgress.dfy`, `LifecycleLimits.dfy` | start, stop, wipe and delete of one runtime as a step machine: a crash may fall between any two effects, every call may fail, and a status report may take effect though its reply is lost |
| `Paths.dfy`, `Archive.dfy`, `ArchiveWalk.dfy`, `ArchiveSafety.dfy`, `ArchiveRoundTrip.dfy`, `ArchiveMeaning.dfy`, `ArchiveBounds.dfy`, `ArchiveLoops.dfy`, `ArchiveLimits.dfy` | turning a directory tree into archive entries and extracting entries under a root |
| `Chunks.dfy`, `Manifests.dfy`, `ManifestMeaning.dfy`, `Snapshot.dfy`, `Stores.dfy`, `EndToEnd.dfy` | the encrypted file, its chunks, the authenticated manifest, both stores, and the whole way from a tree to a committed manifest and back |
| `SiaAccounts.dfy` | uploads, prunes and connects on shared Sia accounts, interleaved step by step |
| `Journal.dfy`, `JournalLimits.dfy` | deleting renterd objects and the journal of deletions that failed |
| `Backup.dfy` | the database backup's chunked AEAD stream |
| `Viewer.dfy` | the encrypted viewer connection and its handshake messages |
| `Treasury.dfy`, `TreasuryMeaning.dfy`, `Decimals.dfy`, `DecimalsMeaning.dfy` | sweeps, exchange payments under a rolling daily cap, exact decimal amounts |
| `Zip.dfy`, `ZipWriting.dfy`, `Relay.dfy`, `Callbacks.dfy` | the archive directory check, relay leases, replay protection of callbacks |

`dafny verify dfyconfig.toml` checks everything.

## Assumptions

- Hashes, MACs and ciphers are functions with the laws of ideal ones. The manifest MAC is a value that
  holds its key and the manifest it was made over. AEADs open what they sealed; where authenticity
  matters, the hypothesis is that nothing in the given bytes opens under a nonce that was not sealed
  under it, and for digests that no stored content collides with a part of the snapshot.
- tar with gzip is a lossless packing of a list of entries that keeps whole seconds.
- In the lifecycle: removing a directory is one step and reading one does not fail; a report takes
  effect, if at all, before its call returns; snapshot ids never repeat; the control plane moves a
  runtime off "stopped" when it accepts a start; discarding a tainted session is a deliberate loss whose
  container removal succeeds; the node's own edits of the data directory change no session contents.
- In the treasury: one process with a clock that never goes back, a broadcast that lands exactly when it
  returns an ID, IDs that differ, and a chain that shows a transfer with its real amount.

## Where a property does not hold as it stands

- A start that restores the fallback and fails before its container starts leaves the older data in the
  directory; a stop then saves it as the newest generation (`LifecycleLimits.FallbackCanLoseTheSession`).
- A network migration under an assignment that still says "stopped" takes the session for saved and
  drops it (`LifecycleLimits.MigrationCanLoseTheSession`). Such a migration can lose nothing until the
  next pass exactly when the session was committed and its container had exited when the pass began
  (`LifecycleLimits.MigrationHarmlessIff`); committed alone is not enough, because a running guest may
  still write before it is stopped.
- For whole runs, these two branches are all there is: nothing is ever lost if and only if every
  committed save is of the last session and no migration drops an uncommitted one
  (`LifecycleSafety.NeverLostIff`). `NothingIsLost` gives conditions a caller can see to instead.
- A legacy snapshot file can be removed by a resumed cleanup that has no manifest to keep
  (`LegacyCanBeLost`, `LegacyGoesUncommittedIff`).
- After a wipe, the node numbers above the phone's floor while the control plane expects 1, so the save
  is refused (`LifecycleLimits.NumberCanBeRefused`); numbers are accepted exactly when no floor is above
  the committed generation (`LifecycleRuns.NumberAcceptedIff`).
- A directory whose path is exactly 4096 bytes long is archived but not extracted
  (`ArchiveLimits.DeepTreeIsLost`); the round trip holds exactly when no directory path is that long
  (`ArchiveRoundTrip.ArchiveRoundTrips`).
- A ZIP archive whose directory is exactly 65535 bytes long is refused as ZIP64, whatever its number of
  entries (`ZipWriting.DirectoryOf65535BytesIsRefused`); what is written by the format is accepted exactly
  when it has few enough entries and no such value (`ZipWriting.WrittenAcceptedIff`).
- A callback is accepted again at the instant its five minutes end (`Callbacks.ReplayAtTheInstant`), and
  exactly then (`Callbacks.AcceptedAgainIff`).
- A manifest that is not a valid renterd manifest is journaled all the same when its deletion fails, and
  then the journal does not load any more, exactly in that case (`Journal.RenterdBlobStore.DeleteAny`).
  A version 1 manifest that carries another runtime's id is one: its own runtime restores from it
  (`JournalLimits.MisnamedIsNotOwn`, `JournalLimits.OneDeleteBlocksTheJournal`).

## Model

| member | source | states |
|---|---|---|
| LifecycleSafety.NothingIsLost | backend/cmd/virtnoded/main.go:2172-2299 | With automatic snapshots, in every state of any run (crashes, failed calls, lost replies, user requests, fallbacks) the last session is on disk under its unsaved mark or equals the committed snapshot, provided no migration acts on an assignment that says "stopped" and no save is committed of a restored fallback no container started on |
| LifecycleSafety.NeverLostIff | backend/cmd/virtnoded/main.go:2172-2299 | Over any run with automatic snapshots, migrations and fallbacks included, nothing is lost in any state if and only if every committed save is of the last session and every drop of an unsaved directory under "stopped" finds it committed |
| LifecycleSafety.CommittedIsNeverDeleted | backend/cmd/virtnoded/blobstore.go:677-729 | Over every run, the objects of the committed manifest's primary are in their store unless a wipe or delete removed them |
| LifecycleSafety.StepKeeps | backend/cmd/virtnoded/main.go:1869-1880 | Every single step of control plane, guest, machine and node keeps the invariant behind both results |
| LifecycleSafety.EventsKeep | backend/cmd/virtnoded/main.go:2053-2115 | The invariant holds after any sequence of events, of any length |
| LifecycleSafety.RunRestoreKeeps | backend/cmd/virtnoded/blobstore.go:322-429 | Restoring the primary, or turning to the fallback the floor allows, keeps the invariant |
| LifecycleSafety.StopPersistKeeps | backend/cmd/virtnoded/blobstore.go:492-558 | Saving, or finding nothing to save, keeps the invariant before anything is reported |
| LifecycleSafety.StopCommitKeepsData | backend/cmd/virtnoded/main.go:2241-2268 | A commit keeps the session whether its reply arrives, is lost, or the report is refused |
| LifecycleSafety.StopCleanKeepsData | backend/cmd/virtnoded/blobstore.go:677-764 | Cleanup after a commit, or resumed after a crash, keeps the session |
| LifecycleSafety.StopDirectoryKeeps | backend/cmd/virtnoded/main.go:2269-2299 | The plaintext directory and its mark go only once the session is committed |
| LifecycleSafety.RemoveSnapshotsKeeps | backend/cmd/virtnoded/main.go:2315-2382 | Wipes and deletes keep the invariant; what they remove is accounted for |
| LifecycleErasure.RemovalErases | backend/cmd/virtnoded/main.go:2315-2382 | Over every run, when the report of a wipe or delete takes effect there is no directory, mark, container, manifest or legacy file left, and the committed snapshot and its fallback are gone from their stores |
| LifecycleErasure.WipedNeverComesBack | backend/cmd/virtnoded/main.go:2315-2357 | However long after a wipe and whatever fails in between, the first container started begins with an empty directory |
| LifecycleErasure.StopErases | backend/cmd/virtnoded/main.go:2269-2299 | Over every run, when a stop acknowledges its cleanup no plaintext, mark or container is left, nor the legacy file and the generation its save replaced |
| LifecycleErasure.DiscardErases | backend/cmd/virtnoded/main.go:2153-2170 | A discarded tainted session leaves no directory, mark or container |
| LifecycleErasure.SessionsContinue | backend/cmd/virtnoded/blobstore.go:322-429 | Over every run that loses nothing, a container starts on exactly what the session before it held, unless only the fallback could be restored |
| LifecycleFallback.FallbackIsKept | backend/cmd/virtnoded/blobstore.go:677-729 | Over every run, wipes and deletes apart, the generation kept across a store switch stays in its store until a start deletes it |
| LifecycleFallback.FallbackGoesAfterRestore | backend/cmd/virtnoded/blobstore.go:375-395 | A start gets to that deletion only with the directory just filled from the committed snapshot |
| LifecycleProgress.StartSucceeds | backend/cmd/virtnoded/main.go:1945-2150 | When nothing fails, a start ends with the guest running on the unsaved session, else the committed snapshot, else the legacy file, and nothing else changed |
| LifecycleProgress.StopSucceeds | backend/cmd/virtnoded/main.go:2172-2299 | When nothing fails, a stop ends with the session committed under the next number, its objects in the store, the previous one kept only as fallback of a switch, and nothing left on the machine |
| LifecycleProgress.StoppedSessionComesBack | backend/cmd/virtnoded/main.go:1945-2299 | Stopped and started again with nothing failing, a session goes on with the contents it had, whichever store held it |
| LifecycleProgress.RemovalSucceeds | backend/cmd/virtnoded/main.go:2315-2382 | When nothing fails, a wipe or delete removes everything and the control plane learns it |
| LifecycleRuns.RestoreHonoursFloor | backend/cmd/virtnoded/blobstore.go:334-374 | Over any run, what a start restores, primary or fallback, is authenticated and no older than the highest floor noted when the start was checked |
| LifecycleRuns.FloorIsHighestNoted | backend/cmd/virtnoded/blobstore.go:2563-2581 | The floor the node holds is the highest one noted since the last restart |
| LifecycleRuns.HighestNotedCovers | backend/cmd/virtnoded/blobstore.go:2551-2572 | That highest floor is at least every floor a phone sent since, up to the clamp |
| LifecycleRuns.GenerationsRise | backend/internal/store/store.go:7145-7169 | While something stays committed, over any run committed generations never fall, and an equal number is the same snapshot |
| LifecycleRuns.SavesPassWhatPhonesSaw | backend/cmd/virtnoded/blobstore.go:2549-2614 | Across wipes, lost data and restarts of the session: once a phone sent the newest generation it saw, every save until the node process ends is numbered above it |
| LifecycleRuns.GenerationsFit | backend/internal/store/store.go:7145-7169 | Over any run committed numbers never pass the last int64 |
| LifecycleRuns.ReportAdvances | backend/internal/store/store.go:6882-7137 | An observation keeps the committed number, moves it up by one, or clears it |
| LifecycleRuns.NextIsNewer | backend/cmd/virtnoded/blobstore.go:2586-2598 | In every reachable state the next number is above the committed one and the noted floor and fits an int64; it is refused exactly when the committed number is negative or the last int64 |
| Common.NextSnapshotGeneration | backend/cmd/virtnoded/blobstore.go:2586-2598 | A next number is above the previous one and above the floor, and without a floor it is the very next |
| LifecycleRuns.HighestNotedFits | backend/cmd/virtnoded/blobstore.go:2551-2560 | Clamping leaves every noted floor below the last int64, over any run |
| LifecycleRuns.NumberAcceptedIff | backend/internal/store/store.go:7145-7169 | The control plane takes the node's next number if and only if no floor is above the committed generation |
| LifecycleRuns.SaveAboveFloorIsRefused | backend/cmd/virtnoded/main.go:2241-2268 | A save numbered beyond the committed generation's successor is never committed and stays on disk under its mark |
| LifecycleLimits.NumberCanBeRefused | backend/cmd/virtnoded/blobstore.go:2586-2614 | A concrete run: generation 5 committed and noted by a phone, a wipe, a start and a write; the stop saves generation 6 and no report of it is committed |
| LifecycleLimits.FallbackCanLoseTheSession | backend/cmd/virtnoded/blobstore.go:375-429 | A concrete run, without wipe, delete or taint, in which a restored fallback replaces the last session |
| LifecycleLimits.MigrationCanLoseTheSession | backend/cmd/virtnoded/main.go:1960-1968 | A concrete run in which two migrations in one operation lose the second session |
| LifecycleLimits.MigrationHarmlessIff | backend/cmd/virtnoded/main.go:2172-2187 | After a migration under "stopped", no continuation up to the next pass loses anything if and only if the session was committed and its container had exited when the pass began |
| LifecycleLimits.LegacyCanBeLost | backend/cmd/virtnoded/blobstore.go:677-729 | A concrete run in which a resumed cleanup removes the only copy, a legacy file |
| LifecycleLimits.LegacyGoesUncommittedIff | backend/cmd/virtnoded/blobstore.go:677-729 | Cleanup removes the legacy file with nothing committed in its place exactly when it cleared the manifest or resumed without one |
| Paths.CleanIsIdentityIff | backend/cmd/virtnoded/blobstore.go:3232-3257 | A path is its own cleaned form and not "." or above the root exactly when every component is a plain name |
| Paths.CanonicalIff | backend/cmd/virtnoded/blobstore.go:3232-3257 | An archive name is accepted exactly when it is short enough and made of plain names, and is then returned unchanged apart from a directory's slash |
| Paths.CanonicalStaysBelow | backend/cmd/virtnoded/blobstore.go:3232-3257 | What is accepted has only plain components, no backslash, no NUL and no drive letter |
| ArchiveSafety.ExtractNeverFollowsLinks | backend/cmd/virtnoded/blobstore.go:3050-3187 | For every archive, extraction follows no link, makes only descendants of the root under real directories, and changes no existing node's kind |
| ArchiveSafety.CreateSafe | backend/cmd/virtnoded/blobstore.go:3267-3294 | After the check for links, creating parents and leaf crosses no link and keeps the tree a tree |
| ArchiveSafety.ExtractEntrySafe | backend/cmd/virtnoded/blobstore.go:3059-3159 | One entry of any kind, accepted or refused, keeps all that |
| ArchiveSafety.DeepestFirstOrders | backend/cmd/virtnoded/blobstore.go:3160-3167 | The metadata pass goes from deeper to shallower directories and by whole name among equally deep ones, over exactly the listed directories |
| ArchiveSafety.DeepestFirstKeeps | backend/cmd/virtnoded/blobstore.go:3160-3167 | Ordering loses and adds no directory |
| ArchiveRoundTrip.ArchiveRoundTrips | backend/cmd/virtnoded/blobstore.go:2738-3187 | For every tree the walker archives, extraction rebuilds exactly that tree without sockets, pipes and devices if no directory path fills the limit, and stops otherwise |
| ArchiveRoundTrip.FittingTreeComesBack | backend/cmd/virtnoded/blobstore.go:2795-2866 | The rebuilt tree is the flattened tree, every file, link and directory at its path |
| ArchiveMeaning.ArchivedTreeComesBack | backend/cmd/virtnoded/blobstore.go:3188-3230 | Said of the two trees alone: each entry stands where it was with the same contents, owner, group, nine permission bits and nearest whole second, nothing else is there, and this holds exactly when every directory path leaves room for its slash |
| ArchiveMeaning.SameMetaIsUnique | backend/cmd/virtnoded/blobstore.go:3206-3230 | What a restore may make of a file's metadata is one value |
| ArchiveRoundTrip.LongDirectoriesAreArchived | backend/cmd/virtnoded/blobstore.go:2884-2890 | A directory path of the full length is archived under a name extraction refuses |
| ArchiveLimits.DeepTreeIsLost | backend/cmd/virtnoded/blobstore.go:2884-2890 | Seventeen nested directories with names of 240 bytes are archived, and their extraction stops |
| ArchiveBounds.CompleteIsBounded | backend/cmd/virtnoded/blobstore.go:3050-3159 | Whatever the archive, a restore goes through only with at most a million entries, at most 32 GiB of files, every name once, and nothing but whole files, directories and links with usable targets |
| ArchiveBounds.ArchivedIsBounded | backend/cmd/virtnoded/blobstore.go:2795-2866 | A snapshot is taken only of a tree within the limits on entries, bytes and depth |
| ArchiveLoops.SnapshotTarWalker.WalkDirectory | backend/cmd/virtnoded/blobstore.go:2795-2827 | The walker's fields follow the walk: entries written, entries counted, bytes counted, and failure |
| ArchiveLoops.SnapshotTarWalker.AddEntry | backend/cmd/virtnoded/blobstore.go:2829-3000 | One entry of each kind, with the count and size limits |
| ArchiveLoops.ArchiveDirectory | backend/cmd/virtnoded/blobstore.go:2738-2793 | A fresh walker gives the archive the round trip is about |
| ArchiveLoops.EnsureNoSymlinks | backend/cmd/virtnoded/blobstore.go:3267-3294 | The component loop accepts a path exactly when no existing component is a link and none but the last is anything but a directory |
| ArchiveLoops.CreateNode | backend/cmd/virtnoded/blobstore.go:3083-3090 | Checking for links, making the parents and adding the entry is the creation the safety results are about |
| ArchiveLoops.ExtractNext | backend/cmd/virtnoded/blobstore.go:3059-3159 | One turn of the extraction loop, with its limits, duplicate names and every kind of entry |
| ArchiveLoops.ExtractTarToRoot | backend/cmd/virtnoded/blobstore.go:3050-3187 | The extraction loop does what the round trip is about, and its result is a tree that kept everything there was |
| ArchiveLoops.ApplyMetadata | backend/cmd/virtnoded/blobstore.go:3168-3185 | The metadata loop opens each listed directory once, in order |
| Chunks.ChunkKeyIsPlain | backend/cmd/virtnoded/blobstore.go:1389-1407 | Under a plain namespace and snapshot id a chunk's key is the parts joined as they are |
| Chunks.ChunkKeysDiffer | backend/cmd/virtnoded/blobstore.go:1097-1130 | Different chunks of a snapshot have different keys |
| Chunks.CutParts | backend/cmd/virtnoded/blobstore.go:1097-1130 | Cutting loses no byte; every part but the last is full and none is empty |
| Chunks.SizesSum | backend/cmd/virtnoded/blobstore.go:1304-1325 | Listed sizes sum to the file's length |
| Chunks.ChunkHasher.Read | backend/cmd/virtnoded/blobstore_sia.go:499-516 | After any read of any size the hasher holds exactly the closed chunks of what was read so far |
| Chunks.ChunkHasher.CloseChunk | backend/cmd/virtnoded/blobstore_sia.go:518-528 | Closing lists the open bytes as the next chunk of the stream |
| Chunks.ChunkHasher.Finish | backend/cmd/virtnoded/blobstore_sia.go:530-535 | The final list is the one of the whole stream |
| Chunks.HashReads | backend/cmd/virtnoded/blobstore_sia.go:488-535 | However a stream is split into reads, the chunk list is that of cutting the whole stream, and its sizes sum to the total |
| Chunks.PersistChunks | backend/cmd/virtnoded/blobstore.go:1097-1130 | The local loop lists and stores the same cut; it fails exactly on an empty file or one of at least 4096 full chunks |
| Manifests.SumSizes | backend/cmd/virtnoded/blobstore.go:1304-1322 | The loop accepts exactly lists of valid chunks whose sizes stay within the limit, and returns their sum |
| Manifests.ValidateBlobManifestForRuntime | backend/cmd/virtnoded/blobstore.go:1240-1351 | Validation accepts exactly the manifests with a valid header, chunks in order under their keys summing to the total, a fitting store, and an unnested valid fallback in another store |
| Manifests.MacCoversEverything | backend/cmd/virtnoded/blobstore.go:2676-2724 | Two manifests under one MAC that both verify are equal, fallback included |
| Manifests.VerifiesIffAuthenticated | backend/cmd/virtnoded/blobstore.go:2683-2724 | A version 3 manifest verifies exactly when it was authenticated with this key and is in this key's namespace |
| Manifests.OtherKeyIsRefused | backend/cmd/virtnoded/blobstore.go:2700-2719 | A manifest authenticated with another MAC key does not verify |
| Manifests.VerifiesForOneKey | backend/cmd/virtnoded/blobstore.go:2700-2724 | A manifest that verifies with two key sets was made with both: they are the same |
| Manifests.WithinQuotaIff | backend/cmd/virtnoded/blobstore.go:582-617 | A save is within the quota exactly when the account's use stays within it once the save replaced the current manifest |
| ManifestMeaning.ValidForOneRuntime | backend/cmd/virtnoded/blobstore.go:1240-1303 | A manifest of any version is valid for one runtime at most |
| ManifestMeaning.ValidKeysAreItsOwn | backend/cmd/virtnoded/blobstore.go:1304-1325 | A valid manifest's objects all lie under its own snapshot, each at its place, all different |
| ManifestMeaning.ValidIsBounded | backend/cmd/virtnoded/blobstore.go:1280-1322 | At most 4096 objects of at most 16 MiB, none empty, that add up to a total of at most 16 GiB |
| ManifestMeaning.ValidIsWellFormed | backend/cmd/virtnoded/blobstore.go:1240-1325 | Compression, object type, digests and generation are in form, and the snapshot id is one path component |
| ManifestMeaning.OldVersionsAreBare | backend/cmd/virtnoded/blobstore.go:1250-1351 | Before version 3 there is no MAC, namespace or fallback, and none is on Sia |
| ManifestMeaning.FallbackIsElsewhere | backend/cmd/virtnoded/blobstore.go:1327-1351 | A fallback is a valid snapshot of the same runtime in another store with nothing behind it |
| Manifests.RenumberedIsTrusted | backend/cmd/virtnoded/blobstore.go:523-545 | A store's manifest, numbered, given a trusted fallback and authenticated again, is trusted |
| Manifests.FallbackOf | backend/cmd/virtnoded/blobstore.go:529-541 | The previous manifest becomes a trusted fallback for the same snapshot with nothing behind it |
| Manifests.Complete | backend/cmd/virtnoded/blobstore.go:523-545 | The completed manifest is valid and authentic after its last change, numbered next, and keeps the previous snapshot as fallback exactly across a store switch |
| Manifests.PersistSessionData | backend/cmd/virtnoded/blobstore.go:492-617 | A save succeeds exactly when there is a next number and the kept bytes fit the quota; its result is trusted and is the candidate's snapshot |
| Manifests.SaveAll | backend/cmd/virtnoded/blobstore.go:492-558 | Over any sequence of saves and store switches every manifest is trusted and numbers strictly rise |
| Snapshot.SealedFileOpens | backend/cmd/virtnoded/blobstore.go:2361-2456 | The file written for a payload opens to that payload |
| Snapshot.OnlySealedFileOpens | backend/cmd/virtnoded/blobstore.go:2361-2456 | Whatever stands in a snapshot's place, only the sealed file opens, byte for byte, short of a forged tag |
| Snapshot.XorTwice | backend/cmd/virtnoded/blobstore.go:2473-2504 | Decrypting with the same key stream undoes encrypting |
| Snapshot.WriteSnapshot | backend/cmd/virtnoded/blobstore.go:2292-2359 | Writing succeeds exactly when the tree can be archived and the file fits the limit |
| Snapshot.SnapshotRoundTrips | backend/cmd/virtnoded/blobstore.go:2292-2456 | Restoring a written file rebuilds the tree exactly when every directory path leaves room for its slash |
| Snapshot.RebuiltRestores | backend/cmd/virtnoded/blobstore.go:2292-2456 | What a saved tree restores to is that tree in the sense above, or an error exactly when a directory path is too long |
| Snapshot.ListedKeyIsValid | backend/cmd/virtnoded/blobstore.go:1389-1407 | The key chunks are listed under is the one validation expects |
| Snapshot.FreshManifestValidIff | backend/cmd/virtnoded/blobstore.go:1076-1140 | A file's fresh manifest validates exactly when the file is neither empty nor too long for its chunk size, and it verifies |
| Stores.ReadChunks | backend/cmd/virtnoded/blobstore.go:1179-1201 | The local read succeeds exactly when every chunk file is there with its size and digest, and returns them in order |
| Stores.LowerOfHex | backend/cmd/virtnoded/blobstore.go:1353-1373 | A digest written in capitals is the same digest |
| Stores.HeldPartsAreRead | backend/cmd/virtnoded/blobstore.go:1353-1373 | From a disk that holds the parts, the saved file is read back |
| Stores.ChangedPartsAreRefused | backend/cmd/virtnoded/blobstore.go:1353-1373 | From any other disk an error or the saved file comes back, short of a digest collision |
| Stores.ReadStream | backend/cmd/virtnoded/blobstore_sia.go:364-373 | The streamed read succeeds exactly when the object is the listed chunks and nothing more |
| Stores.SavedStreamMatches | backend/cmd/virtnoded/blobstore_sia.go:384-400 | The uploaded file passes the streamed checks |
| Stores.ChangedStreamIsRefused | backend/cmd/virtnoded/blobstore_sia.go:384-400 | Any object that passes is the uploaded file, short of a digest collision |
| EndToEnd.FinishManifest | backend/cmd/virtnoded/blobstore.go:1132-1140 | Authenticating and validating a fresh manifest fails only for a file too long or a blank runtime id |
| EndToEnd.PersistLocal | backend/cmd/virtnoded/blobstore.go:1035-1153 | Local persisting succeeds exactly when the snapshot fits; the disk then holds its chunks and everything from before |
| EndToEnd.MadeElsewhereIsRefused | backend/cmd/virtnoded/blobstore.go:2700-2724 | A manifest authenticated with another key, or for another namespace, does not verify |
| EndToEnd.RestoreLocal | backend/cmd/virtnoded/blobstore.go:1155-1207 | Local restoring checks store, validity, MAC and every chunk before it extracts; a manifest made with another key is an error |
| EndToEnd.HeldSnapshotRestores | backend/cmd/virtnoded/blobstore.go:1155-1207 | Any manifest that lists a held snapshot's chunks, now or later as a fallback, restores the tree |
| EndToEnd.ChangedDiskRestoresNothingElse | backend/cmd/virtnoded/blobstore.go:1353-1373 | A disk that was changed restores the tree or nothing, short of a digest collision |
| EndToEnd.LocalRoundTrip | backend/cmd/virtnoded/blobstore.go:492-558 | Persist, number and authenticate, restore: the committed manifest rebuilds the tree, contents and metadata, whatever was committed before and whatever else changed on the disk |
| EndToEnd.PersistSia | backend/cmd/virtnoded/blobstore_sia.go:228-323 | Sia persisting succeeds exactly when the snapshot fits the account's quota and chunk limit and the upload read all of it |
| EndToEnd.RestoreSia | backend/cmd/virtnoded/blobstore_sia.go:325-380 | Sia restoring checks store, validity, MAC, length, every chunk and the end of the stream; a manifest made with another key is an error |
| EndToEnd.UploadedSnapshotRestores | backend/cmd/virtnoded/blobstore_sia.go:325-380 | The uploaded file passes and rebuilds the tree |
| EndToEnd.ChangedObjectRestoresNothingElse | backend/cmd/virtnoded/blobstore_sia.go:325-380 | An object that was changed restores the tree or nothing, short of a digest collision |
| EndToEnd.SiaRoundTrip | backend/cmd/virtnoded/blobstore_sia.go:228-380 | The same whole way for Sia, for every way the upload reads the file |
| SiaAccounts.NoPruneDuringUpload | backend/cmd/virtnoded/blobstore_sia.go:473-486 | In every interleaving, no prune of an account runs while one of its uploads is between start and end |
| SiaAccounts.OneLockOneClient | backend/cmd/virtnoded/blobstore_sia.go:160-219 | In every interleaving, operations share lock and client exactly when they share the account, and the client is open |
| SiaAccounts.LosersAreClosed | backend/cmd/virtnoded/blobstore_sia.go:205-219 | A connected client is closed exactly when it is neither kept nor about to be registered |
| SiaAccounts.UploadWaitsOnlyForPrune | backend/cmd/virtnoded/blobstore_sia.go:276-283 | In every interleaving, an operation with its client may upload exactly when no prune of its account is running |
| SiaAccounts.PruneGoesAheadIff | backend/cmd/virtnoded/blobstore_sia.go:473-486 | In every interleaving, a prune goes ahead exactly when nothing of its account is uploading or pruning, and is skipped otherwise |
| SiaAccounts.RunKeepsInvariant | backend/cmd/virtnoded/blobstore_sia.go:160-219 | Every run of steps keeps lock, client and exclusion invariants |
| SiaAccounts.ExclusiveKept | backend/cmd/virtnoded/blobstore_sia.go:276-283 | A lock's readers are the uploads in flight, its writer the prune, never both |
| SiaAccounts.AccountedKept | backend/cmd/virtnoded/blobstore_sia.go:205-219 | Every client connected so far is kept, about to be registered, or closed |
| Journal.DeleteChunks | backend/cmd/virtnoded/blobcleanup.go:40-46 | Every object is tried; success means every one was removed |
| Journal.FailuresAre | backend/cmd/virtnoded/blobcleanup.go:91-99 | The filter keeps an entry exactly when its deletion failed |
| Journal.FailuresStayDistinct | backend/cmd/virtnoded/blobcleanup.go:91-99 | Filtering keeps identities different |
| Journal.RenterdBlobStore.DeleteManifestObjects | backend/cmd/virtnoded/blobcleanup.go:26-47 | Success exactly for a valid manifest of this bucket whose objects were all removed; nothing else disappears |
| Journal.RenterdBlobStore.LoadJournal | backend/cmd/virtnoded/blobcleanup.go:113-160 | A journal loads exactly when it is within limits and holds valid renterd manifests |
| Journal.RenterdBlobStore.Enqueue | backend/cmd/virtnoded/blobcleanup.go:49-74 | At most one entry is added, at the end, for an identity not there yet; success means the identity is listed |
| Journal.RenterdBlobStore.constructor | backend/cmd/virtnoded/blobcleanup.go:113-124 | A store without a journal file meets the invariant, whatever the bucket holds |
| Journal.RenterdBlobStore.DeleteManifest | backend/cmd/virtnoded/blobstore.go:1848-1857 | With a journal path, every manifest asked for has no object left, is in the journal, or its caller got a journal error; without one, a failed delete is reported and remembered nowhere; the journal stays loadable and distinct |
| Journal.RenterdBlobStore.FilterInPlace | backend/cmd/virtnoded/blobcleanup.go:91-99 | The in-place filter returns exactly the failures in order |
| Journal.RenterdBlobStore.Drain | backend/cmd/virtnoded/blobcleanup.go:76-104 | A drain keeps all that; the journal becomes exactly the entries whose deletion failed, or stays as it was when writing it fails; success means it is empty |
| Journal.RenterdBlobStore.DeleteAny | backend/cmd/virtnoded/blobstore.go:1848-1857 | After a delete of any manifest there is room for, the journal loads if and only if the manifest is a valid renterd manifest |
| JournalLimits.MisnamedIsNotOwn | backend/cmd/virtnoded/blobstore.go:1240-1351 | A version 1 manifest valid for one runtime under another runtime's id is refused by every delete |
| JournalLimits.OneDeleteBlocksTheJournal | backend/cmd/virtnoded/blobstore.go:1848-1857 | A manifest a runtime restores from whose one delete, on an empty journal and with nothing failing, leaves a journal that does not load |
| JournalLimits.IdentityIff | backend/cmd/virtnoded/blobcleanup.go:106-111 | Without NUL in their fields, two manifests have one identity exactly when they name the same snapshot of the same runtime in the same place |
| JournalLimits.SnapshotsHaveOneIdentity | backend/cmd/virtnoded/blobcleanup.go:49-74 | If no snapshot id was used for two lists of objects, an identity stands for one list |
| Backup.NoncesDiffer | backend/cmd/virtroid-admin/backup.go:139-147 | Number and last mark are determined by the nonce |
| Backup.BackupsShareNoNonce | backend/cmd/virtroid-admin/backup.go:139-157 | Backups whose headers differ behind the salt share no nonce |
| Backup.HeaderParts | backend/cmd/virtroid-admin/backup.go:149-157 | A header gives back its salt and its nonce prefix |
| Backup.BackupRoundTrips | backend/cmd/virtroid-admin/backup.go:149-240 | Sealing then opening is the identity for every plaintext a seal accepts |
| Backup.SealSucceedsIff | backend/cmd/virtroid-admin/backup.go:166-192 | A seal fails exactly when it needs more than 2^32 chunks |
| Backup.OnlySealedChunksOpen | backend/cmd/virtroid-admin/backup.go:207-239 | Whatever stands after the header, what opens is a prefix, and success means the sealed chunks themselves |
| Backup.OnlySealedFilesOpen | backend/cmd/virtroid-admin/backup.go:195-240 | Among any sealed backups, opening succeeds only on one of their files byte for byte, and whatever is written is a prefix of it |
| Backup.SealChunks | backend/cmd/virtroid-admin/backup.go:164-192 | The look-ahead loop writes the specified chunks, and a prefix of them when reading fails |
| Backup.OpenChunks | backend/cmd/virtroid-admin/backup.go:206-239 | The opening loop writes what the specification opens, and a prefix of it when reading fails |
| Backup.SealBackup | backend/cmd/virtroid-admin/backup.go:149-193 | Header and chunks make the specified file |
| Backup.OpenBackup | backend/cmd/virtroid-admin/backup.go:195-240 | The header is checked, then the chunks are opened as specified |
| Viewer.FrameNoncesDiffer | backend/cmd/viewercrypt/main.go:549-553 | Below 2^64 frames no nonce repeats |
| Viewer.NoncesIdentifyFrames | backend/cmd/viewercrypt/main.go:549-553 | If what opens under a nonce was sealed under that nonce, what opens as frame n is frame n |
| Viewer.FillKeepsStep | backend/cmd/viewercrypt/main.go:499-521 | Whatever bytes arrive, as long as what opens as frame n is frame n, what was opened is the log up to the next number, errors included |
| Viewer.DeliveredIsPrefix | backend/cmd/viewercrypt/main.go:499-521 | For any arrivals and reads in which only sealed bytes open under their nonces, what was delivered is a prefix of what was sealed |
| Viewer.WrittenFramesAreReadable | backend/cmd/viewercrypt/main.go:523-547 | Every written frame passes the reader's length check and opens, whatever follows it |
| Viewer.FillReadsFrames | backend/cmd/viewercrypt/main.go:499-521 | On what the peer wrote, a read fails only when nothing is left |
| Viewer.PiecesAddUp | backend/cmd/viewercrypt/main.go:527-545 | A write is cut into frames that add up to it |
| Viewer.EncryptedConn.Write | backend/cmd/viewercrypt/main.go:523-547 | A write seals its pieces under consecutive numbers and puts their frames on the wire; a failed one sealed a part of it |
| Viewer.EncryptedConn.Read | backend/cmd/viewercrypt/main.go:499-521 | A read delivers from the buffer, opening frames first when it is empty, and consumes what it read on an error |
| Viewer.ReadToEnd | backend/cmd/viewercrypt/main.go:499-521 | Reading to the end delivers everything written, in reads of any size |
| Viewer.SendAndReceive | backend/cmd/viewercrypt/main.go:465-547 | Over a network that delivers what it is given, everything written by one side is received by the other, for writes and reads of any size |
| Viewer.Exchange | backend/cmd/viewercrypt/main.go:465-547 | In every interleaving of writes, arrivals and reads, whichever writes fail, delivered bytes are a prefix of what was sealed, and of what was written when no write fails |
| Viewer.HandshakeRoundTrips | backend/cmd/viewercrypt/main.go:371-410 | A handshake message is written exactly for keys of 1 to 2048 bytes and read back with the stream going on after it |
| Viewer.HandshakeReadsWhatWasWritten | backend/cmd/viewercrypt/main.go:371-390 | What is read is the only message those bytes can be |
| Treasury.PaymentKeepsCap | backend/cmd/virtroid-payments/treasury.go:301-321 | A payment within what the last day leaves keeps every 24-hour window within the cap |
| Treasury.SentCoversTheDay | backend/cmd/virtroid-payments/treasury.go:397-420 | However many payments the chain has confirmed, what counts as sent covers all payments of the day |
| Treasury.NeedsInOrder | backend/cmd/virtroid-payments/treasury.go:423-545 | Live swaps deliver only to the treasury or a configured address, whatever the control plane reports |
| TreasuryMeaning.NeedsAre | backend/cmd/virtroid-payments/treasury.go:423-545 | TRX is needed exactly below its floor, Siacoin exactly for a short wallet that is the configured one, ETH exactly for short credits, each with its destination |
| Treasury.SwapAmount | backend/cmd/virtroid-payments/treasury.go:344-359 | A swap is within its own bounds, the pair's minimum and the budget; it differs from what is wanted only at a bound, and there is none exactly when no amount fits |
| Treasury.ReadExchanges | backend/cmd/virtroid-payments/treasury.go:283-299 | The report is refused exactly when an unexpired amount is unreadable; the sum is that of the unexpired amounts, and in flight are exactly the unfinished pairs |
| Treasury.KeepRecent | backend/cmd/virtroid-payments/treasury.go:408-419 | The filter keeps the payments of the day in order and adds up the unconfirmed ones |
| Treasury.Treasury.Sweep | backend/cmd/virtroid-payments/treasury.go:206-252 | Exactly when live and no transaction is waited for: the missing fee to the watched address, or its whole USDT balance signed with its own key; its last transaction has finished by then or is 10 minutes old |
| Treasury.Treasury.SentSince | backend/cmd/virtroid-payments/treasury.go:397-420 | The total is at least everything this process paid in the day |
| Treasury.Treasury.Pay | backend/cmd/virtroid-payments/treasury.go:386-392 | A payment is signed as agreed and remembered when it got an ID |
| Treasury.Treasury.Swap | backend/cmd/virtroid-payments/treasury.go:323-393 | A swap takes exactly the planned amount off the budget, signs a payment exactly when the exchange made is the one asked for, and keeps the cap over every window |
| Treasury.Treasury.SwapAll | backend/cmd/virtroid-payments/treasury.go:311-320 | The needs in order sign exactly a payment for each whose currency is not in flight and whose swap settles on the budget the ones before left |
| Treasury.Treasury.Convert | backend/cmd/virtroid-payments/treasury.go:264-321 | A convert step keeps the cap over every window, and signs exactly what its needs call for on the smaller of the balance and what the day leaves of the cap, when all inputs can be read and there is TRX to send with |
| TreasuryMeaning.ConvertedOnce | backend/cmd/virtroid-payments/treasury.go:283-321 | No convert step pays for a currency with an exchange in flight, nor for one twice, nor more than budget and balance |
| TreasuryMeaning.BoughtIsNeeded | backend/cmd/virtroid-payments/treasury.go:311-392 | Every payment is for a need not in flight, in the needs' order, for an amount the exchange asks for and delivered as asked |
| TreasuryMeaning.NeedIsBought | backend/cmd/virtroid-payments/treasury.go:311-392 | Every need not in flight whose swap settles on the budget left before it is paid for |
| TreasuryMeaning.DeliversHome | backend/cmd/virtroid-payments/treasury.go:423-545 | What is paid for goes to the treasury for TRX and to the configured addresses for the rest |
| TreasuryMeaning.OwnDestinationIff | backend/cmd/virtroid-payments/treasury.go:374-384 | An own destination is, but for case, the treasury's address or a configured one |
| TreasuryMeaning.SweptIff | backend/cmd/virtroid-payments/treasury.go:192-252 | Of a list that names no address twice, exactly those deposit addresses get a transaction that are not waited for and call for one, and it is the one they call for |
| TreasuryMeaning.SweptOnlyLive | backend/cmd/virtroid-payments/treasury.go:229-248 | Unless the treasury is live, nothing is signed for any address |
| Treasury.CalledForIs | backend/cmd/virtroid-payments/treasury.go:225-245 | A watched address calls for a transaction exactly when it is the fee missing on it, or its whole USDT balance under the key it derives from |
| Treasury.Treasury.Cycle | backend/cmd/virtroid-payments/treasury.go:176-202 | A cycle keeps cap, settled addresses and permitted signatures, and signs exactly the sweeps its watch list calls for, in order, and then what its convert step signs; off signs nothing |
| Decimals.MicroRoundTrips | backend/cmd/virtroid-payments/treasury.go:603-626 | Every amount written as a decimal is read back exactly, whichever way reading rounds, and a negative one is refused |
| Decimals.ReadingRounds | backend/cmd/virtroid-payments/treasury.go:612-626 | What is read is the amount rounded down or up to a whole millionth |
| DecimalsMeaning.ReadsPointed | backend/cmd/virtroid-payments/treasury.go:612-617 | Digits with a point are worth the whole part plus the fraction over the power of ten of its length |
| DecimalsMeaning.ReadsWhole | backend/cmd/virtroid-payments/treasury.go:612-617 | Digits alone are worth their number |
| DecimalsMeaning.SignedReads | backend/cmd/virtroid-payments/treasury.go:612-617 | A sign in front of digits keeps or turns their worth |
| DecimalsMeaning.TrailingZero | backend/cmd/virtroid-payments/treasury.go:612-626 | A zero behind the fraction changes no amount read |
| Zip.FindDirectoryEnd | backend/cmd/virtnoded/main.go:4268-4292 | The search finds the last end record whose comment fits, if there is one |
| Zip.CountHeaders | backend/cmd/virtnoded/main.go:4341-4373 | The walk counts the expected number exactly when the directory is that many headers without a gap |
| Zip.ValidateEntryLimit | backend/cmd/virtnoded/main.go:4258-4375 | An archive is accepted exactly when its directory ends at its end record, splits without a gap into recordsTotal headers, and has at most maxEntries |
| ZipWriting.WrittenAcceptedIff | backend/cmd/virtnoded/main.go:4258-4375 | From the writing side: prefix, data, headers, end record and comment, laid out as sections 4.3.12 and 4.3.16 of the APPNOTE say, are accepted exactly when there are at most maxEntries headers, no value stands for ZIP64, and nothing in front passes for the directory |
| ZipWriting.OrdinaryAcceptedIff | backend/cmd/virtnoded/main.go:4258-4375 | An archive with nothing in front and no comment is accepted exactly when it has at most maxEntries headers |
| ZipWriting.DirectoryOf65535BytesIsRefused | backend/cmd/virtnoded/main.go:4301-4305 | A directory of one header and 65535 bytes is refused whatever the limit |
| ZipWriting.DirectoryReads | backend/cmd/virtnoded/main.go:4341-4373 | Written headers are read as that many headers |
| ZipWriting.EndReads | backend/cmd/virtnoded/main.go:4289-4296 | A written end record reads back field by field |
| Zip.HeadersTile | backend/cmd/virtnoded/main.go:4344-4370 | The number of headers bounds the directory's size from both sides |
| Zip.HeadersCountOnce | backend/cmd/virtnoded/main.go:4344-4370 | The bytes alone decide how many headers there are |
| Zip.AbsoluteOffsetIsRefused | backend/cmd/virtnoded/main.go:4321-4336 | An offset that looks absolute never agrees with the end record, so that branch can only refuse |
| Relay.RelayLeases.Claim | backend/cmd/virtnoded/main.go:1660-1671 | A claim takes the session over, and what it replaced is live, newest before it and to be stopped by it alone |
| Relay.RelayLeases.StopPrevious | backend/cmd/virtnoded/main.go:1669-1671 | A replaced lease is stopped once |
| Relay.RelayLeases.Release | backend/cmd/virtnoded/main.go:1672-1678 | Giving a claim up removes it from the map exactly when it is still the one there |
| Relay.RelayLeases.LateReleaseIsHarmless | backend/cmd/virtnoded/main.go:1672-1678 | A late release finds a newer lease or none |
| Relay.RelayLeases.AtMostOneLive | backend/cmd/virtnoded/main.go:1654-1679 | Once pending stops ran, a session has at most one live tunnel, the one in the map |
| Relay.ClaimKeepsMap | backend/cmd/virtnoded/main.go:1660-1668 | The map holds exactly the newest claimant of each session that has not given up |
| Relay.ClaimKeepsStops | backend/cmd/virtnoded/main.go:1666-1671 | A lease that is not the newest was replaced by the next claim or had given up, and only a replaced one is stopped, once |
| Callbacks.HandleAll | backend/cmd/virtnoded/main.go:1089-1104 | On a clock that never goes back, forgetting expired nonces decides every callback as remembering all of them would |
| Callbacks.CallbackNonces.Require | backend/cmd/virtnoded/main.go:1055-1104 | One callback is decided as the whole history would decide it |
| Callbacks.Purge | backend/cmd/virtnoded/main.go:1094-1098 | The loop drops exactly the expired nonces |
| Callbacks.AcceptedAtMostOnce | backend/cmd/virtnoded/main.go:1055-1066 | The same callback is accepted a second time only at the instant its window closes |
| Callbacks.AcceptedAgainIff | backend/cmd/virtnoded/main.go:1055-1104 | An accepted callback that comes again in time is accepted if and only if the clock is exactly at that instant |
| Callbacks.ReplayAtTheInstant | backend/cmd/virtnoded/main.go:1055-1104 | One callback delivered when sent and again 300 seconds later is accepted both times |
| Callbacks.AcceptedIsTimely | backend/cmd/virtnoded/main.go:1055-1066 | What is accepted is dated within five minutes of the clock either way, and not before the second the process started in |
| Callbacks.SentBeforeRestartIsRefused | backend/cmd/virtnoded/main.go:1055-1066 | A callback sent before a restart is refused after it, though its nonce is forgotten |
| Callbacks.NewIsAcceptedIff | backend/cmd/virtnoded/main.go:1055-1104 | With a nonce not seen before, being timely is all it takes |

## Left out

- Reconciling on the machine itself: start, stop, wipe and delete are steps on values rather than methods on objects, so that a crash can fall between any two effects; aliasing of in-memory structures is not captured.
- Sia account caching on the machine itself: critical sections are steps on values, so that operations can interleave; credentials and their expiry are whatever account an operation ends up with.
- HTTP handlers, Docker, ADB, the renterd and Sia clients, TronGrid, SimpleSwap and Aleph: their answers are parameters.
- Real cryptography, key derivation from recovery phrases, attestation and TLS.
- renterd persisting and restoring: same file and manifest as the local store, over a client that is a parameter.
- The claim that no snapshot is ever left behind: clearing the local store goes by runtime id while chunks live under the namespace.
- Failures of the file system while archiving or extracting, and changes of the tree meanwhile.
- How much Siacoin or ETH is missing, and quotes: a swap's wanted amount is an input.
- Decimal texts with exponents, fractions, other bases or surrounding space: reading covers sign, digits and a point.
- Replays within the second of a restart, and callbacks handled at the same time.
- Case folding of addresses beyond the letters A to Z.
- Payments of an earlier treasury process: they count through the chain's transfers only.
- Treasury.Treasury.Cycle: a broadcast that lands although it reported an error is outside the assumption, so it is not counted until the chain shows it.
- Journal.RenterdBlobStore.DeleteManifest: without a journal path nothing is promised about a failed delete but its error, as the source keeps no record; "in the journal" goes by identity, with the assumption that a snapshot id is never used for other objects.
- Manifests.Verifies: a MAC written in upper-case hexadecimal is not told apart from one in lower case.

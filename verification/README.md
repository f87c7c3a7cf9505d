# jkbase: verified models

jkbase keeps tenants' objects in a store made of a transactional index and immutable byte segments,
forwards their UDP datagrams into microVMs, and carries their logs from the guest to disk. This project
models those parts in Dafny and proves what they promise. Every file belongs to one program;
`dafny verify dfyconfig.toml` checks it.

- **The index** (`Tables`, `Lifecycle`, `Integrity`, `Runs`, `Index`, `Effects`). `Tables` gives each write transaction as
  a function on the seven tables. `Index` is the class that updates the tables row by row and rolls back on an
  error; each of its methods is proved to be the transaction. The lemmas are about whole runs: where a segment
  id can be, which way it moves, what every mutation reports as retired, which rows exist together. `Effects` says
  of each mutation, row by row and with every limit written out, when it commits and what it leaves.
- **The protocol** (`Protocol`, `ProtocolRuns`). Writers, late discards, deleters, the sweeper and readers take
  turns on one store, with a crash after any step.
- **The byte store** (`SegmentFiles`, `Segments`, `SegmentRuns`, `SegmentLeaks`). Every file call of any number of writers and deletes,
  in any interleaving, with the process killed or the power lost after any of them. A power loss may take whatever
  has not been flushed: file contents, directory entries, directories. `Segments` holds the handle, the writer, the write
  loop and the streaming read; `SegmentRuns` puts the index protocol on top of the files.
- **Listing** (`Search`, `Listing`, `Folding`, `Scan`, `Pages`). The seeking range scan against "filter, fold, sort"; `Folding` says
  which keys are objects and which strings are folders by where the delimiter first occurs.
- **The migration** (`Migration`, `MigrationCost`, `Migrator`, `Stem`). File operations and transactions one by one; a process may
  die after any of them, and the next one starts over.
- **The land-forward** (`Transit`, `Flows`, `LandForward`, `Deliveries`). Readiness gate, replay buffer, replay windows, eviction; `Deliveries`
  says what becomes of each frame in epochs, nonces, numbers of flows and milliseconds.
- **Logs** (`Logs`, `LogSink`, `LogPolling`, `LogFiles`, `LogDisk`, `LogStore`). The guest's two rings and the host's rotated files.
- **Codecs** (`Text`, `Escaping`, `Markup`, `Cors`, `CorsRoundTrip`, `CorsAcceptance`, `Preamble`, `CivilDate`).

Names contain no NUL and keys no 0xFF byte (they are UTF-8); ids handed to `add_pending` are new; upload ids are
unique across buckets; stored rows parse. MD5, SHA-256 and HMAC are arbitrary functions; clocks, the `/proc` probe,
socket and join results are inputs.

Where the code and its comments differ, the model follows the code:

- `index.rs:450` says a listing reads at most `max_keys + 1` rows. It can read one more. `Pages.RowBound` says exactly
  when, `Pages.TwoRowsBeyond` is an instance.
- `logstore.rs:11-12` says a project's files take at most `MAX_FILE_BYTES * (MAX_ROTATED + 1)`, 20 MiB. They can take more:
  a batch is never split (`LogDisk.OneBatchExceeds`), and the egress files are not counted
  (`LogStores.StreamsTogetherExceed`, where no file outgrows its size). `LogDisk.WithinExactly` says, for every run of file
  operations, exactly when they stay within it; `LogDisk.FootprintBound` is the bound that holds.
- `log_sink.rs` takes an app line's number before it locks the ring. A poll in between can move the poller's cursor past the
  number, and the line is then never returned (`LogSink.LateLine` is an instance). `LogPolling.WhatAPollerMisses` says, for every
  run, that these are exactly the retained lines a poller misses.
- `segments.rs:59` and `segments.rs:68-70` say a committed segment survives a power loss. A `commit` that finds its fan directory
  already there does not flush the root, so it can return while the directory's own entry, made by another writer a moment
  ago, is not on stable storage (`SegmentFiles.RaceLoses`, `SegmentFiles.RaceFromBlank`). `SegmentFiles.AckExactly` and `DurableRuns.LastsExactly` say exactly
  when the promise holds, `DurableRuns.EveryMove` proves it for whole runs, and `DurableRuns.FindingFlushedSettles` that it
  is enough for every directory found to have been flushed.
- `segments.rs:153-154` says a delete that returned is not undone by a crash, so that a forgotten segment never comes back. A
  delete that finds no file flushes nothing, so it leaves an earlier delete's unlink, whose flush never happened, to be undone:
  `SegmentFiles.ReturnsExactly` says exactly when, `SegmentFiles.DeleteUndone` and `DurableLeaks.ForgottenComesBack` give the runs, and
  `DurableLeaks.TrackedExactly` says for whole runs when nothing forgotten comes back.
- A writer that outlives `PENDING_ORPHAN_AGE` can leave bytes that the index has lost. `ProtocolRuns.LeaksExactly` says which
  step does it, `ProtocolRuns.SlowWriterLeaks` is an instance, and `ProtocolRuns.NothingLeaks` excludes it for punctual writers.

## Model

| member | source | states |
|---|---|---|
| `IndexStore.Index.CreateBucket` | crates/jkbase-objectstore/src/index.rs:196-209 | the transaction `Tables.CreateBucket`: one new row, or an error and no change |
| `IndexStore.Index.EnsureBucket` | crates/jkbase-objectstore/src/index.rs:212-224 | adds the row only if there is none |
| `IndexStore.Index.DeleteBucket` | crates/jkbase-objectstore/src/index.rs:227-248 | refused, with the removed row rolled back, while an object or upload row lies in the bucket's range |
| `IndexStore.Index.SetCors` | crates/jkbase-objectstore/src/index.rs:275-291 | sets or clears the policy; clearing on a missing bucket succeeds without effect |
| `IndexStore.Index.AddPending` | crates/jkbase-objectstore/src/index.rs:296-304 | the loop stamps exactly the given ids |
| `IndexStore.Index.DiscardPending` | crates/jkbase-objectstore/src/index.rs:311-324 | only ids still pending become garbage, and exactly those are returned |
| `IndexStore.Index.ClaimDue` | crates/jkbase-objectstore/src/index.rs:331-352 | stale pending ids become garbage first, then the first `limit` garbage ids in table order are returned |
| `IndexStore.Index.ForgetSegments` | crates/jkbase-objectstore/src/index.rs:355-363 | drops the garbage rows named |
| `IndexStore.Index.CommitObjects` | crates/jkbase-objectstore/src/index.rs:408-427 | all rows or none: every segment must be pending and named once, replaced manifests are retired |
| `IndexStore.Index.DeleteObject` | crates/jkbase-objectstore/src/index.rs:430-445 | object and manifest rows go together and the manifest's segments are retired: the transaction of which `IndexEffects.DeleteObjectDoes` states each table |
| `IndexStore.Index.CreateUpload` | crates/jkbase-objectstore/src/index.rs:550-566 | inserts unless asked to keep an existing row |
| `IndexStore.Index.CommitPart` | crates/jkbase-objectstore/src/index.rs:580-614 | cap on staged parts, pending id taken, a replaced part retired |
| `IndexStore.Index.CompleteUpload` | crates/jkbase-objectstore/src/index.rs:621-697 | the whole transaction, each refusal with its error and the tables as they were; when it commits and what it leaves: `IndexEffects.CompletesExactly`, `CompletedMetadata`, `CompletedDoes` |
| `IndexStore.Index.AbortUpload` | crates/jkbase-objectstore/src/index.rs:699-706 | drops the upload's rows and retires its parts |
| `IndexStore.Index.AbortUploadsBefore` | crates/jkbase-objectstore/src/index.rs:732-767 | collects stale uploads up to a limit, drops them until enough parts were retired |
| `IndexStore.Index.TakePending` | crates/jkbase-objectstore/src/index.rs:796-806 | succeeds exactly if every id is pending and none repeats |
| `IndexStore.Index.RetireManifest` | crates/jkbase-objectstore/src/index.rs:808-823 | every segment of the manifest becomes garbage and is reported, in order |
| `IndexStore.Index.DropUpload` | crates/jkbase-objectstore/src/index.rs:826-854 | every part row in the upload's range goes and its segment is retired; the upload row goes |
| `IndexStore.Index.List` | crates/jkbase-objectstore/src/index.rs:451-462 | `NoSuchBucket` for a missing bucket, else a page that shows exactly the first `max_keys` objects and folders: an object is a key without the delimiter after the prefix, a folder ends at its first occurrence there |
| `Keys.RangeIsExact` | crates/jkbase-objectstore/src/index.rs:858-883 | the range from `b\0` to `b\1` holds exactly the keys whose first part is `b` |
| `Keys.SplitJoined` | crates/jkbase-objectstore/src/index.rs:858-868 | a composite key splits back into its two parts |
| `Lifecycle.CompleteMoves` | crates/jkbase-objectstore/src/index.rs:621-697 | completing moves listed parts into one manifest and everything else it held to garbage, one way only |
| `Lifecycle.CommitRowsMoves` | crates/jkbase-objectstore/src/index.rs:408-427 | committing any list of rows keeps each id in one place and reports exactly what became garbage |
| `Lifecycle.DropStaleMoves` | crates/jkbase-objectstore/src/index.rs:732-767 | so does dropping any number of stale uploads |
| `IndexRuns.StepExclusive` | crates/jkbase-objectstore/src/index.rs:196-767 | every operation: each id in one place, moves only forward, none lost but by `forget_segments`, and the returned list is exactly what moved to garbage |
| `IndexRuns.StepIntegrity` | crates/jkbase-objectstore/src/index.rs:196-767 | every operation keeps referential integrity and the staged-part cap |
| `IndexRuns.EveryRun` | crates/jkbase-objectstore/src/index.rs:1-14 | over every run both hold, and no id moves back: garbage is never referenced again, a forgotten id never returns |
| `IndexRuns.ExactlyOnePlace` | crates/jkbase-objectstore/src/index.rs:8-14 | after any run from an empty index, an id ever recorded is in exactly one place unless the run forgot it, and a referenced one is named by exactly one slot |
| `IndexRuns.LostOnlyIfForgotten` | crates/jkbase-objectstore/src/index.rs:354-363 | over every run the index loses track of an id only by forgetting it |
| `IndexRuns.NeverLost` | crates/jkbase-objectstore/src/index.rs:354-363 | an id stays tracked through every run with no forget that names it |
| `IndexRuns.CommitNeedsPending` | crates/jkbase-objectstore/src/index.rs:796-806 | a commit succeeds if and only if the bucket exists and its segments are pending and distinct |
| `IndexRuns.CommitsNeedPending` | crates/jkbase-objectstore/src/index.rs:796-806 | a commit of any rows naming an id that is not pending, or of such a part, aborts |
| `IndexRuns.ClaimedCannotCommit` | crates/jkbase-objectstore/src/index.rs:326-352 | once an id has been claimed as stale, after any further run every commit of objects or of a part that names it aborts |
| `IndexEffects.CompletesExactly` | crates/jkbase-objectstore/src/index.rs:621-668 | a complete commits if and only if the bucket and the upload are there, the upload is for this key, and the list is not empty, strictly rising, and of parts that are there, all but the last of 5 MiB or more; else the error of the first of these that fails |
| `IndexEffects.CompletedMetadata` | crates/jkbase-objectstore/src/index.rs:653-684 | the object's metadata field by field: the upload's content type and cache control, the time, the sum of the listed sizes, an etag of the listed digests in listed order and their number |
| `IndexEffects.CompletedDoes` | crates/jkbase-objectstore/src/index.rs:653-697 | every table after a complete: the upload's rows are gone, the key holds the listed segments in order, the unlisted parts' and the replaced manifest's segments are retired in that order, nothing else changed |
| `IndexEffects.DeleteObjectDoes` | crates/jkbase-objectstore/src/index.rs:430-445 | after a delete the key is in neither table, every other row of every table is as it was, and the ids of the old manifest, in order, are returned and garbage |
| `IndexEffects.CommitsExactly` | crates/jkbase-objectstore/src/index.rs:408-427 | rows commit if and only if the bucket is there and the ids they name are pending and all different |
| `IndexEffects.CommitPuts` | crates/jkbase-objectstore/src/index.rs:408-427 | every key written holds its last row, every other key what it held |
| `IndexEffects.CommitRowDoes` | crates/jkbase-objectstore/src/index.rs:408-427 | one row: both its table rows are put and the ids of the manifest that was there are retired in order |
| `IndexEffects.CreateUploadDoes` | crates/jkbase-objectstore/src/index.rs:550-566 | the upload's row is put, unless asked to keep one that is there; nothing else changes |
| `IndexEffects.CommitPartDoes` | crates/jkbase-objectstore/src/index.rs:580-614 | a part is staged if and only if bucket and upload are there, it replaces one or fewer than 100,000 are staged, and its segment is pending; the replaced part's segment alone is retired |
| `IndexEffects.AbortUploadDoes` | crates/jkbase-objectstore/src/index.rs:699-706 | the upload's row and exactly its parts' rows go, and the parts' segments are retired in key order |
| `IndexEffects.AbortUploadsBeforeDoes` | crates/jkbase-objectstore/src/index.rs:732-767 | which uploads are dropped, in which order and where it stops, with each one's rows and segments |
| `IndexEffects.ClaimDueDoes` | crates/jkbase-objectstore/src/index.rs:331-352 | exactly the pending ids past their age become garbage, and no other row changes |
| `IndexEffects.ClaimDueLists` | crates/jkbase-objectstore/src/index.rs:331-352 | the ids returned are the least `limit` of the garbage, in order |
| `IndexEffects.AddPendingDoes` | crates/jkbase-objectstore/src/index.rs:296-304 | exactly the ids given are pending as of now; nothing else changes |
| `IndexEffects.ForgetSegmentsDoes` | crates/jkbase-objectstore/src/index.rs:355-363 | exactly the ids named leave the garbage; nothing else changes |
| `IndexEffects.DiscardPendingDoes` | crates/jkbase-objectstore/src/index.rs:311-324 | the ids returned are those named that were pending, once each in the order first named, and exactly these change tables |
| `IndexEffects.CreateBucketDoes` | crates/jkbase-objectstore/src/index.rs:196-209 | refused if and only if the bucket is there; else one row, without a policy, is put |
| `IndexEffects.EnsureBucketDoes` | crates/jkbase-objectstore/src/index.rs:212-224 | a row that is there is kept; else one is put |
| `IndexEffects.DeleteBucketDoes` | crates/jkbase-objectstore/src/index.rs:227-248 | a bucket goes if and only if it is there and no key of an object or upload begins with its name and a NUL |
| `IndexEffects.SetCorsDoes` | crates/jkbase-objectstore/src/index.rs:275-291 | the policy of one row is replaced and its creation time kept; nothing else changes |
| `SegmentStore.LocalSegments.Create` | crates/jkbase-objectstore/src/segments.rs:126-139 | a run of the file calls; refused for a bad id, a replaced root or a file that cannot be created; nothing becomes visible |
| `SegmentStore.LocalWriter.Commit` | crates/jkbase-objectstore/src/segments.rs:195-214 | a run of the file calls, whichever of them fails: on `Ok` exactly the bytes given become visible, never over an existing segment, and outlive a power loss if no flush of the root was outstanding; on `Err` all of them are visible or none |
| `SegmentStore.WriteStream` | crates/jkbase-objectstore/src/store.rs:970-1008 | a body arriving in chunks becomes visible whole or not at all, wherever the stream, a write or the commit fails, and does if nothing fails |
| `SegmentStore.Stream` | crates/jkbase-objectstore/src/store.rs:187-210 | a range read over the manifest is exactly that range of the object, and with a segment missing or short an error, never fewer bytes |
| `SegmentFiles.EveryCall` | crates/jkbase-objectstore/src/segments.rs:126-223 | in every interleaving of file calls, kills and power losses, each entry's file holds what its writer was given, flushed, and no writer can reach it |
| `SegmentFiles.VisibleSteps` | crates/jkbase-objectstore/src/segments.rs:195-214 | short of a power loss what is readable changes by a link, which adds every byte given to its writer, and by an unlink |
| `SegmentFiles.SurvivesExactly` | crates/jkbase-objectstore/src/segments.rs:68-70 | a segment outlives every power loss, with its bytes, if and only if its entry and its fan directory's are flushed |
| `SegmentFiles.AckExactly` | crates/jkbase-objectstore/src/segments.rs:205-213 | a committed segment outlives every power loss if and only if its fan directory's entry was flushed when `commit` returned |
| `SegmentFiles.RaceLoses` | crates/jkbase-objectstore/src/segments.rs:205-208 | two writers of one new fan directory can always run so that a committed segment is lost |
| `SegmentFiles.RaceFromBlank` | crates/jkbase-objectstore/src/segments.rs:205-208 | the same from an empty store, for any two ids that share a fan directory |
| `SegmentFiles.FansStep` | crates/jkbase-objectstore/src/segments.rs:205-208 | a writer past its fan directory has a flushed one, if every one found was |
| `SegmentFiles.ReturnsExactly` | crates/jkbase-objectstore/src/segments.rs:153-162 | a delete that returned can be undone if and only if it found no file and an earlier unlink was not flushed |
| `SegmentFiles.DeleteUndone` | crates/jkbase-objectstore/src/segments.rs:153-162 | from an empty store, for any id: a second delete returns and a power loss undoes it |
| `DurableRuns.LinkIsAStep` | crates/jkbase-objectstore/src/segments.rs:210-210 | a commit's link is the protocol's `LinkBytes` with the bytes given |
| `DurableRuns.RemoveIsAStep` | crates/jkbase-objectstore/src/segments.rs:157-157 | a delete's unlink is the protocol's `DeleteBytes` |
| `DurableRuns.OtherIsNoStep` | crates/jkbase-objectstore/src/segments.rs:126-223 | every other file call leaves the protocol's state alone, and a restart is its crash |
| `DurableRuns.PowerLossLasting` | crates/jkbase-objectstore/src/segments.rs:63-72 | a power loss keeps every referenced segment whole and every acknowledged pending one |
| `DurableRuns.EveryMove` | crates/jkbase-objectstore/src/segments.rs:63-72 | over every run of transactions, file calls, kills and power losses in which commits return with their fan directory flushed, what the index references is on disk |
| `DurableRuns.ObjectsOutliveThePower` | crates/jkbase-objectstore/src/index.rs:3-14 | after any such run from an empty store every object is readable, with as many bytes as its metadata says |
| `DurableRuns.LastsExactly` | crates/jkbase-objectstore/src/segments.rs:68-70 | every power loss leaves all referenced segments on disk if and only if each is flushed together with its fan directory |
| `DurableRuns.FindingFlushedSettles` | crates/jkbase-objectstore/src/segments.rs:205-208 | if every fan directory found has been flushed, every commit returns with its own flushed |
| `DurableLeaks.MoveLeaksExactly` | crates/jkbase-objectstore/src/store.rs:322-342 | exactly two moves lose track of a file that is or can come to be: a link of an id already forgotten, a forget of an id whose file is there or was unlinked and not flushed |
| `DurableLeaks.TrackedExactly` | crates/jkbase-objectstore/src/segments.rs:153-154 | in every run, kills and power losses included, the index knows of every such file if and only if no move is one of the two |
| `DurableLeaks.NothingComesBack` | crates/jkbase-objectstore/src/segments.rs:153-154 | it does if writers are punctual and every delete is flushed before it is forgotten |
| `DurableLeaks.ForgottenComesBack` | crates/jkbase-objectstore/src/segments.rs:153-162 | from an empty store, for any id: a run in which a forgotten segment comes back |
| `Protocol.StepSafe` | crates/jkbase-objectstore/src/store.rs:541-600 | every step of any party keeps: referenced implies on disk, no live writer's or confirmed reader's bytes are deleted |
| `ProtocolRuns.EveryInterleaving` | crates/jkbase-objectstore/src/index.rs:3-14 | so it holds in every interleaving, with a crash after any step |
| `ProtocolRuns.ObjectsAreWhole` | crates/jkbase-objectstore/src/index.rs:3-6 | every object's segments are on disk and add up to its size |
| `ProtocolRuns.CompletedObject` | crates/jkbase-objectstore/src/index.rs:621-697 | a completed object's bytes are the listed parts' bytes in listed order |
| `ProtocolRuns.CompletedLeavesNothing` | crates/jkbase-objectstore/src/index.rs:668-676 | no row of the upload remains |
| `ProtocolRuns.CompletedRetires` | crates/jkbase-objectstore/src/index.rs:668-697 | exactly the unlisted parts and the replaced object's segments are retired |
| `ProtocolRuns.BytesAreImmutable` | crates/jkbase-objectstore/src/segments.rs:68-72 | no step changes the bytes under an id |
| `ProtocolRuns.ReaderKeepsItsBytes` | crates/jkbase-objectstore/src/store.rs:681-705 | a reader that confirmed its pins reads the same content until it lets go, whatever else runs |
| `ProtocolRuns.LeaksExactly` | crates/jkbase-objectstore/src/index.rs:326-363 | a step leaves unaccounted bytes if and only if it is one of two kinds, each told before the step |
| `ProtocolRuns.NothingLeaks` | crates/jkbase-objectstore/src/index.rs:12-14 | if no writer outlives the orphan age, everything on disk stays accounted for |
| `ProtocolRuns.SlowWriterLeaks` | crates/jkbase-objectstore/src/index.rs:326-352 | a concrete run, of an id the store accepts, in which a slower writer's bytes are lost to the index |
| `Listing.SeekIsExact` | crates/jkbase-objectstore/src/index.rs:446-450 | seeking to `folder ++ 0xFF` skips all keys of the folder and nothing else |
| `Listing.EntryMonotone` | crates/jkbase-objectstore/src/index.rs:485-512 | folding keeps key order |
| `Folding.FolderIs` | crates/jkbase-objectstore/src/index.rs:485-490 | a key in which the delimiter first occurs at `i` after the prefix folds to the key cut after that occurrence |
| `Folding.FolderExactly` | crates/jkbase-objectstore/src/index.rs:466-490 | a key does not fold if and only if the delimiter is absent, empty, or occurs nowhere after the prefix; the folder is the one above |
| `Folding.EntryExactly` | crates/jkbase-objectstore/src/index.rs:485-512 | the entries of a listing are exactly those objects and folders |
| `Scan.ReadRows` | crates/jkbase-objectstore/src/index.rs:477-514 | the inner loop against "what is collected so far" |
| `Scan.ScanRows` | crates/jkbase-objectstore/src/index.rs:469-519 | the scan ends, with the first `max_keys + 1` entries and the exact number of rows read |
| `Pages.List` | crates/jkbase-objectstore/src/index.rs:451-538 | exactly the first `max_keys` entries above `start_after`, truncated exactly when there are more; its objects are the keys in which the delimiter does not occur after the prefix, with their rows, its folders the keys cut after the first occurrence |
| `Pages.PageIsExact` | crates/jkbase-objectstore/src/index.rs:521-538 | such a page shows exactly those keys as objects and those strings as folders, each list in order |
| `Pages.NextPage` | crates/jkbase-objectstore/src/index.rs:521-527 | asking from a page's token lists exactly what was not shown |
| `Pages.PagesAreComplete` | crates/jkbase-objectstore/src/index.rs:466-527 | for any page size of at least one the pages end and concatenate to the complete listing |
| `Pages.ReadPages` | crates/jkbase-objectstore/src/index.rs:451-538 | a client loop over `List` collects every object and folder once, in order |
| `Pages.RowBound` | crates/jkbase-objectstore/src/index.rs:446-450 | at most `max_keys + 2` rows, and at most `max_keys + 1` if and only if a stated condition holds |
| `Pages.TwoRowsBeyond` | crates/jkbase-objectstore/src/index.rs:446-450 | a listing of one entry that reads three rows |
| `Migration.DropBytesKeeps` | crates/jkbase-objectstore/src/legacy.rs:161-164 | unlinking bytes whose row has committed changes no key's value |
| `Migration.LinkKeeps` | crates/jkbase-objectstore/src/legacy.rs:142-143 | linking bytes under a pending id changes no key's value |
| `Migration.CommitKeeps` | crates/jkbase-objectstore/src/legacy.rs:144-160 | committing a batch changes no key's value and every object of it is now served by the index |
| `MigrationRun.Migrator.ReadDir` | crates/jkbase-objectstore/src/legacy.rs:123-134 | every servable object is listed once, sidecars without bytes are removed, and the count is exactly the number of sidecars left that cannot be read; at most one step per sidecar |
| `MigrationRun.Migrator.MoveBatch` | crates/jkbase-objectstore/src/legacy.rs:136-165 | pending, link, commit, unlink: values kept wherever it stops |
| `MigrationRun.Migrator.MigrateBucket` | crates/jkbase-objectstore/src/legacy.rs:108-194 | values kept and nothing unreadable lost wherever it stops; when it ends the directory is gone; it ends unless the process had fewer steps than `DirCost` |
| `MigrationRun.Migrator.Migrate` | crates/jkbase-objectstore/src/legacy.rs:62-82 | hidden directories first, then plain ones, then the layout stamp; a process with as many steps as `Cost` counts finishes |
| `MigrationRun.Migrator.Restarts` | crates/jkbase-objectstore/src/legacy.rs:1-45 | any number of interrupted runs keep every key's value and every unreadable sidecar together with its bytes; once one process lived long enough for the initial cost, the migration is done, the index alone serves every value, and all that could not be read is set aside |
| `MigrationRun.PutAside` | crates/jkbase-objectstore/src/legacy.rs:180-188 | moving a directory aside keeps every value and every unreadable object |
| `Migration.ServedExactly` | crates/jkbase-objectstore/src/legacy.rs:14-18 | what a finished migration serves: an object of an unstarted directory, or else of a half-migrated one, with its own bytes, their number as its size and the rest as its sidecar says; any other key as before |
| `MigrationRun.ReadableExactly` | crates/jkbase-objectstore/src/legacy.rs:204-228 | a sidecar can be migrated if and only if it parses and names a key of 1 to 1024 bytes without NUL whose file this is |
| `MigrationCost.CostShrinks` | crates/jkbase-objectstore/src/legacy.rs:62-82 | where no directory became more work the steps left are no more |
| `MigrationCost.CostDrops` | crates/jkbase-objectstore/src/legacy.rs:62-82 | steps done on one directory come off the steps left |
| `Stem.Encode64` | crates/jkbase-objectstore/src/legacy.rs:313-323 | the two loops compute the encoding chunk by chunk |
| `Stem.B64Injective` | crates/jkbase-objectstore/src/legacy.rs:311-323 | unpadded base 64 tells apart any two byte strings |
| `Stem.AlphabetsAre` | crates/jkbase-objectstore/src/legacy.rs:311-327 | the two alphabets: which characters are in them, and that they are numbered in byte order |
| `Stem.HexAt` | crates/jkbase-objectstore/src/legacy.rs:325-327 | each byte's two digits, the high one first |
| `Stem.B64At` | crates/jkbase-objectstore/src/legacy.rs:313-323 | which bits of which bytes each character of the base-64 form stands for, at every length |
| `Stem.StemForms` | crates/jkbase-objectstore/src/legacy.rs:288-309 | the three forms with their marks and the lengths at which they change |
| `Stem.StemFits` | crates/jkbase-objectstore/src/legacy.rs:288-309 | a stem and its suffix never exceed 255 bytes |
| `Stem.SameStem` | crates/jkbase-objectstore/src/legacy.rs:294-309 | two keys share a stem if and only if they are equal, or are long, agree in 153 bytes and collide |
| `Transit.Buffer.Seal` | crates/jkbase-common/src/l4_transit.rs:97-105 | the caller's buffer is refilled with the one frame for header and payload |
| `Transit.OpensExactlySealed` | crates/jkbase-common/src/l4_transit.rs:114-133 | `open` accepts exactly the frames `seal` makes for the same secret and direction |
| `Transit.OtherDirection` | crates/jkbase-common/src/l4_transit.rs:17-25 | a frame opens on the other leg if and only if the two tags collide |
| `Transit.MessageIsInjective` | crates/jkbase-common/src/l4_transit.rs:77-93 | the messages authenticated differ for any two directions, headers or payloads |
| `Transit.OnTheWire` | crates/jkbase-common/src/l4_transit.rs:35-105 | the frame byte by byte, and the message its tag digests |
| `Flows.RefusedWhileItStays` | crates/jkbase-agent/src/l4_forward.rs:402-416 | a frame sent in the flow's present stay is refused; after the flow has left, the same frame begins a new stay (what a stay is: `LandForwarding.StayExactly`) |
| `Flows.Logged` | crates/jkbase-agent/src/l4_forward.rs:417-428 | sending a newer datagram keeps epochs and nonces rising |
| `Flows.Oldest` | crates/jkbase-agent/src/l4_forward.rs:495-501 | some least recently active flow |
| `LandForwarding.LandForward.OnInbound` | crates/jkbase-agent/src/l4_forward.rs:308-336 | gate and buffer exactly, with a clock reading for each place the code takes one; all invariants kept |
| `LandForwarding.LandForward.PollReadiness` | crates/jkbase-agent/src/l4_forward.rs:340-361 | replay on a bind, drop and negative-cache on a timeout, with the deadline test and the cache entry on their own clock readings |
| `LandForwarding.LandForward.DrainPending` | crates/jkbase-agent/src/l4_forward.rs:364-370 | each held frame delivered in turn, oldest first |
| `LandForwarding.LandForward.HoldOne` | crates/jkbase-agent/src/l4_forward.rs:373-382 | held within both caps, else counted as overflow |
| `LandForwarding.LandForward.DeliverOne` | crates/jkbase-agent/src/l4_forward.rs:386-469 | authenticated and routed: exactly one of sent on or dropped, with the exact effect on map, counters and stays; which of the two, by epoch and nonce: `Deliveries.KnownFlow`, `NewFlow`, `Forged` |
| `Deliveries.KnownFlow` | crates/jkbase-agent/src/l4_forward.rs:402-469 | a genuine datagram of a known flow is sent on if and only if its nonce is higher under the same epoch, or its epoch is higher and a socket is to be had; otherwise exactly one counter rises: replays, stale epochs or failed binds |
| `Deliveries.NewFlow` | crates/jkbase-agent/src/l4_forward.rs:471-571 | one of an unknown flow is sent on if and only if a socket opens; at 256 flows a least recently active one makes room and is counted |
| `Deliveries.Forged` | crates/jkbase-agent/src/l4_forward.rs:386-393 | a frame nobody sealed for this leg counts one authentication failure and does nothing else |
| `Deliveries.InboundExactly` | crates/jkbase-agent/src/l4_forward.rs:308-336 | delivered, held (at most 4 frames and 8 KiB) or refused, by what is known of the guest, with the 10 s and 30 s deadlines |
| `Deliveries.PollExactly` | crates/jkbase-agent/src/l4_forward.rs:340-361 | a bind delivers the held frames in order; a deadline drops and counts them and refuses for 30 s; otherwise nothing |
| `Deliveries.SweepExactly` | crates/jkbase-agent/src/l4_forward.rs:574-608 | exactly the flows idle for longer than the time to live leave |
| `LandForwarding.LandForward.Replace` | crates/jkbase-agent/src/l4_forward.rs:429-466 | a higher epoch replaces the entry, on the old socket, a new one, or not at all; the stay continues unless the flow is lost |
| `LandForwarding.LandForward.CreateFlowOn` | crates/jkbase-agent/src/l4_forward.rs:480-571 | room made by evicting a least recently active flow, never past 256 |
| `LandForwarding.LandForward.SweepIdle` | crates/jkbase-agent/src/l4_forward.rs:574-608 | exactly the flows idle for longer than the time to live leave, and their stays end |
| `LandForwarding.LandForward.Run` | crates/jkbase-agent/src/l4_forward.rs:282-303 | every run: one exact step per event, through the deliveries in between; at every index each frame received was sent on, is waiting or was dropped, and all bounds hold; while a flow is in the map its datagrams rise and one already sent is refused |
| `LandForwarding.NoReplays` | crates/jkbase-agent/src/l4_forward.rs:402-413 | in every run of deliveries, a datagram sent on is refused for as long as its flow is in the map, and whatever the flow sends on in that time is newer |
| `LandForwarding.StayExactly` | crates/jkbase-agent/src/l4_forward.rs:402-467 | two datagrams of a flow belong to one stay if and only if the flow was in the map at every step between them |
| `LogSinks.FloodKeepsAllows` | crates/jkbase-agent/src/log_sink.rs:152-163 | through any run of pushes that are not Allow no Allow row is lost or changed, but for one if all 512 were |
| `LogSinks.DenyKeepsAllows` | crates/jkbase-agent/src/log_sink.rs:126-170 | one such push, whether it folds, joins or evicts |
| `LogSinks.AllowLeavesOnlyAFullRing` | crates/jkbase-agent/src/log_sink.rs:152-163 | no push of any kind removes an Allow row unless all 512 rows are Allow |
| `LogSinks.LogSink.TakeSeq` | crates/jkbase-agent/src/log_sink.rs:99-100 | a number no line or pending push has |
| `LogSinks.LogSink.Insert` | crates/jkbase-agent/src/log_sink.rs:101-112 | the ring keeps the last 1000 lines buffered |
| `LogSinks.LogSink.PushEgress` | crates/jkbase-agent/src/log_sink.rs:126-170 | fold or join exactly (row by row: `LogSinks.PushExactly`); length plus drops equals the pushes that did not fold; numbers stay distinct |
| `LogSinks.PushExactly` | crates/jkbase-agent/src/log_sink.rs:126-170 | every row after a push: the first of the last 128 with the same function, host, port and verdict has its counts and bytes added up to 64 bits and its status and address replaced if given; else the row is added, and of 512 the first that is not an Allow makes room |
| `LogSinks.LinesExactly` | crates/jkbase-agent/src/log_sink.rs:174-210 | what readers see of each row, and the marker once rows were dropped |
| `LogSinks.LogSink.GetLogs` | crates/jkbase-agent/src/log_sink.rs:213-225 | the newest `limit` lines of both rings in order |
| `LogSinks.LogSink.GetLogsSince` | crates/jkbase-agent/src/log_sink.rs:229-245 | exactly the retained lines above the cursor, strictly sorted |
| `LogSinks.LogSink.LateLine` | crates/jkbase-agent/src/log_sink.rs:99-101 | a line buffered after the cursor passed its number is retained but not returned |
| `LogPolling.Serve` | crates/jkbase-agent/src/log_sink.rs:227-245 | any run of pushes and polls: what was given is what the polls returned, each number once and in order, and after each poll a retained number is missing if and only if its line came late |
| `LogPolling.WhatAPollerMisses` | crates/jkbase-agent/src/log_sink.rs:99-165 | in every run the retained numbers missing after a poll are those buffered at or below the cursor; they stay missing, and are never an egress row's or the marker's |
| `Logs.SortBySeq` | crates/jkbase-agent/src/log_sink.rs:222-222 | the same lines in order, strictly if their numbers differ |
| `LogFiles.TwoFilesTell` | crates/jkbase-control/src/logstore.rs:247-262 | the newest lines of the active and the first rotated file give the highest number ever written |
| `LogFiles.FlatRenamed` | crates/jkbase-control/src/logstore.rs:218-224 | a rotation's rename moves no line |
| `LogFiles.FlatHas` | crates/jkbase-control/src/logstore.rs:143-153 | reading every file finds exactly what the files hold |
| `LogStores.LogStore.HighestSeqOnDisk` | crates/jkbase-control/src/logstore.rs:251-256 | equals the number a process that never restarted holds |
| `LogStores.LogStore.Rotate` | crates/jkbase-control/src/logstore.rs:213-230 | all files shifted by one; wherever it stops the retained lines are the end of what was written |
| `LogStores.LogStore.AppendStream` | crates/jkbase-control/src/logstore.rs:190-210 | rotation exactly when the active file has reached its size, then the batch at its end |
| `LogStores.LogStore.Partition` | crates/jkbase-control/src/logstore.rs:93-111 | numbers in arrival order, split by stream |
| `LogStores.LogStore.Append` | crates/jkbase-control/src/logstore.rs:78-122 | a batch continues the numbering, restart or not; a batch of one stream leaves the other's files alone |
| `LogStores.BatchExactly` | crates/jkbase-control/src/logstore.rs:93-122 | every file after a batch: each line, numbered on in arrival order, in its own stream; 5 MiB moves a stream's files on by one, 3 rotated app files and 11 egress files are kept |
| `LogStores.AppendedExactly` | crates/jkbase-control/src/logstore.rs:190-230 | file by file what an append leaves of one stream |
| `LogStores.LogStore.Process` | crates/jkbase-control/src/logstore.rs:78-122 | one process: which batches it acknowledged, what exactly they added, and that only too short a life stops it |
| `LogStores.LogStore.Read` | crates/jkbase-control/src/logstore.rs:131-169 | exactly the lines of the service that a file of either stream holds and that were asked for, merged in order |
| `LogStores.LogStore.Run` | crates/jkbase-control/src/logstore.rs:78-122 | over any sequence of processes, each dying anywhere: the logs are exactly the acknowledged batches, renumbered on, and at most the app half of one interrupted batch each; each stream retains a suffix; the footprint is bounded by the longest write, which no batch given exceeds, and is within the documented bound if and only if every write fits |
| `LogDisk.WithinExactly` | crates/jkbase-control/src/logstore.rs:11-12 | over every run of file operations the files stay within a bound if and only if before each write what was retained left room for it |
| `LogDisk.FootprintBound` | crates/jkbase-control/src/logstore.rs:26-29 | after any run of file operations that rotates in time, both streams' files together take at most sixteen times the rotation size and the run's longest write |
| `LogDisk.OneBatchExceeds` | crates/jkbase-control/src/logstore.rs:11-12 | one batch that breaks the documented bound |
| `LogStores.StreamsTogetherExceed` | crates/jkbase-control/src/logstore.rs:11-12 | five one-line batches, four of app lines and one of egress, that break it with no file above its size |
| `Escaping.UnescapeEscape` | crates/jkbase-objectstore/src/cors.rs:296-308 | the four replacements in reverse order undo the escaping, on every string |
| `Escaping.EscapesByCharacter` | crates/jkbase-objectstore/src/cors.rs:296-301 | the four replacements escape each character on its own |
| `Escaping.UnescapesInOnePass` | crates/jkbase-objectstore/src/cors.rs:303-308 | the four replacements read each entity once, from the left, on every string: nothing read makes up another entity |
| `Text.TrimExactly` | crates/jkbase-objectstore/src/cors.rs:287-287 | trimming takes off the white space at both ends and nothing else |
| `Escaping.EscapedIsTight` | crates/jkbase-objectstore/src/cors.rs:296-301 | escaped text hides no tag and gains no outer whitespace |
| `Markup.FindsTag` | crates/jkbase-objectstore/src/cors.rs:203-206 | a search lands on the first such tag of a printed document |
| `Cors.CollectTags` | crates/jkbase-objectstore/src/cors.rs:279-294 | the loop computes the recursive reading |
| `Cors.ParseCorsConfigXml` | crates/jkbase-objectstore/src/cors.rs:200-247 | the loop with its early returns computes the recursive reading, error for error; what that accepts and refuses: `CorsAcceptance.ParseExactly` |
| `CorsRoundTrip.CorsConfigToXml` | crates/jkbase-objectstore/src/cors.rs:250-276 | the text printed is the rendering of the configuration's tokens |
| `CorsRoundTrip.ParsedOk` | crates/jkbase-objectstore/src/cors.rs:200-247 | whatever is accepted is within the limits, with trimmed non-empty values and valid methods |
| `CorsRoundTrip.PrintThenParse` | crates/jkbase-objectstore/src/cors.rs:200-276 | every such configuration is read back from its own text |
| `CorsRoundTrip.RoundTrip` | crates/jkbase-objectstore/src/cors.rs:200-308 | for every text accepted, printing the result and parsing again gives the same |
| `CorsAcceptance.AcceptsExactly` | crates/jkbase-objectstore/src/cors.rs:200-276 | a configuration is read back from its own text if and only if it has 1 to 100 rules, each with 1 to 100 origins and methods, at most 100 headers and exposed headers, all trimmed and not empty, methods among GET, PUT, POST, DELETE and HEAD in any case, and an age of at most 2592000 |
| `CorsAcceptance.ParseExactly` | crates/jkbase-objectstore/src/cors.rs:200-247 | every text: accepted, with the rules in it, if and only if there are 1 to 100, each within these limits and closed; else the error of the first thing wrong in the order of the text |
| `CorsAcceptance.FaultExactly` | crates/jkbase-objectstore/src/cors.rs:219-238 | when one rule is refused, and for what: origin, method, method names, lengths, in this order |
| `CorsAcceptance.RuleExactly` | crates/jkbase-objectstore/src/cors.rs:209-218 | which texts of a rule end up in which of its lists, by the tags around them |
| `CorsAcceptance.AgeExactly` | crates/jkbase-objectstore/src/cors.rs:214-217 | the first age counts, capped at 2592000 |
| `Preambles.Encode` | crates/jkbase-common/src/db_preamble.rs:178-198 | refused exactly for an empty or overlong field |
| `Preambles.RoundTrip` | crates/jkbase-common/src/db_preamble.rs:119-198 | an encoding followed by anything is read back, consuming its own bytes |
| `Preambles.CompleteReencodes` | crates/jkbase-common/src/db_preamble.rs:119-174 | a complete result encodes to exactly the bytes consumed |
| `Preambles.Layout` | crates/jkbase-common/src/db_preamble.rs:15-20 | the encoding byte by byte |
| `Preambles.HeadVerdicts` | crates/jkbase-common/src/db_preamble.rs:119-140 | the verdict on the mark, the version, the access key and its length, with every limit written out |
| `Preambles.BodyVerdicts` | crates/jkbase-common/src/db_preamble.rs:140-153 | then on the secret and its length |
| `Preambles.TailVerdicts` | crates/jkbase-common/src/db_preamble.rs:154-174 | then on the exporter, and what a complete preamble holds |
| `Preambles.Utf8Exactly` | crates/jkbase-common/src/db_preamble.rs:140-153 | the strings accepted are exactly the encodings of sequences of Unicode scalar values |
| `Preambles.VerdictStands` | crates/jkbase-common/src/db_preamble.rs:115-174 | a verdict never changes when bytes are appended |
| `Preambles.PrefixIsIncomplete` | crates/jkbase-common/src/db_preamble.rs:119-174 | every strict prefix of an encoding is incomplete |
| `Preambles.IncompleteIsShort` | crates/jkbase-common/src/db_preamble.rs:50-52 | an incomplete buffer is shorter than the read ceiling |
| `Preambles.CtEq` | crates/jkbase-common/src/db_preamble.rs:202-211 | the accumulating loop decides equality |
| `CivilDate.DaysAreCounted` | crates/jkbase-agent/src/objectstore_host.rs:305-312 | the closed form equals a day count by the leap-year rule, for every Gregorian date |
| `CivilDate.IsoReads` | crates/jkbase-agent/src/objectstore_host.rs:288-313 | a moment's text reads as its seconds since 1970, 0 before |
| `CivilDate.LaterReadsHigher` | crates/jkbase-agent/src/objectstore_host.rs:288-313 | later moments from 1970 on read strictly higher |

## Left out

- The layout number in the `meta` table, the read-only queries (`get_meta`, `get_cors`, `list_buckets`, `list_uploads`, counts): one-line lookups.
- Rows that do not parse and keys that are not UTF-8: the index never writes either.
- Overflow of `u64` sizes, counters and sequence numbers (but for the saturating counters of the log rings, which are modelled).
- Error texts: an error is its kind.
- Quotas, upload deadlines and checksums in `store.rs`; a reader's limit of sixteen retries (a reader may retry for ever).
- Migration of staged uploads and CORS sidecars, and an older binary writing between two runs of the migration.
- Index transactions and the migration's and log store's file operations are durable when they return; flushing is modelled for the byte store.
- `derived_source_port`, socket binding, the reply pump's framing: a reply only stamps the flow's activity.
- Torn log writes, I/O errors while a log process lives on, `clear`, and two project ids that sanitize to one directory.
- CORS matching of origins, methods and headers, and the wildcard dialect.
- `MigrationRun.Migrator.MigrateBucket`: staged uploads and the CORS sidecar of the bucket are not migrated here.
- `LogStores.LogStore.Append`: an I/O error stops the process; one that leaves it alive, with its counter advanced, is not modelled.
- `SegmentStore.LocalWriter.Commit`: the check that the root is still the one opened is an input.
- `DurableRuns.EveryMove`: a cancelled request's discard comes after its last file call; a link already handed to the blocking pool may come later. Segments adopted by the migration are not among its writers.

# Soul backup, chat memory and carrier: a verified model

Three parts of the repository are modelled here and proved correct.

**Soul backup and restore** (`packages/soul/src/backup`, `packages/soul/src/recovery`).
`BackupScheduler` compares a scan of the data directory with the last manifest, uploads what
changed, carries the other entries over, hashes everything into a Merkle root, links the
manifest to its parent by CID, anchors it on chain and saves the new head. Recovery walks the
parent links, or the on-chain records, applies the manifests oldest first, removes what the
latest one no longer lists, and checks every hash.

**Chat compaction** (`packages/claw-mem`). Hooks capture chat rows; compaction passes read a
batch, wait for a summarizer, then roll the batch up into one row and may delete the
originals. Passes overlap with captures and with each other.

**Carrier** (`packages/soul/src/carrier`). A daemon runs resurrection flows for offline agents,
and a monitor watches for agents going offline.

## How the model is built

Code that works step by step is a `class` or a method with loops, proved against a function of
the inputs or of the old state; the interleaved protocols are state machines whose steps are
the code between two awaits, and the class methods and the steps share those functions. The
main results are statements about every run of these machines.

| file | contents |
|---|---|
| `Types.dfy` | options and results, paths, CIDs, digests, blobs, manifests, the content-addressed store |
| `Ordering.dfy`, `Merkle.dfy` | string order; the Merkle tree, the leaf encoding, the data root, which leaf lists share a root |
| `FileSystem.dfy` | path resolution, the directory tree a restore writes to |
| `ChangeDetector.dfy`, `Uploader.dfy`, `ManifestBuilder.dfy` | change detection, uploads and carry-over, manifest building |
| `Scheduler.dfy`, `SchedulerSafety.dfy`, `Overlap.dfy` | the scheduler object and its runs; what they keep, how long the chain gets, and when a call may begin |
| `Decisions.dfy`, `BackupContents.dfy`, `ParentDiff.dfy`, `CompleteBackup.dfy` | what each backup decides, which entries its manifest has, full or incremental against which parent, and an undisturbed backup from call to end |
| `Chain.dfy`, `Downloader.dfy`, `Landing.dfy` | walking a chain, applying it, which of its files land |
| `IntegrityChecker.dfy`, `StateRestorer.dfy`, `RoundTrip.dfy` | checking and restoring; backup followed by restore, and two ways to lose files |
| `CidResolver.dfy`, `IndexRuns.dfy` | CID resolution, and calls that write the local index at the same time |
| `Walks.dfy`, `ChainResolver.dfy`, `Recovery.dfy`, `AutoRestore.dfy` | when following links ends, the walk over on-chain records, recovery by agent id |
| `Archive.dfy`, `ArchiveProofs.dfy` | the local archive, alone and beside the scheduler |
| `ObservationStore.dfy`, `ChatCompactor.dfy`, `CompactionRuns.dfy` | the observation table, the compactor, its interleavings and what they keep |
| `PassEffects.dfy`, `DrainBound.dfy`, `DedupSpacing.dfy` | what a pass selects, rolls up and deletes; the drain bound; duplicate spacing |
| `Resurrection.dfy`, `CompletedResurrection.dfy` | the resurrection flow, and what one that completed guarantees of the files |
| `CarrierDaemon.dfy`, `OfflineMonitor.dfy` | the daemon, the offline monitor |
| `SimpleTar.dfy` | the directory archive format, the encryption frame |

Assumptions. SHA-256 and Keccak-256 are free constructors, so equal digests have equal
preimages. The hash of a leaf and the hash of a pair are different constructors, as the 0x00
and 0x01 prefixes make them (the same prefixes as in section 2.1 of RFC 6962; the treatment
of an odd node is different, and is modelled as the code has it). A store never gives one CID
two contents. A sealed file opens only under the key it was sealed with. Manifests survive
serialization, whose length is an input. What the chain, IPFS, the clock, the summarizer, the
operating system and the shutdown signal answer is always an input, including failure. A
rejected promise that nobody handles ends the process, as when the working directory of a
resurrection cannot be made.

## Where the code falls short

Each of these is a lemma below, with the exact condition where there is one.

- A backup whose manifest serializes to more than 10 MiB completes and is anchored, but no
  restore can fetch it, nor any later backup of its chain (`BackupIsAccepted`; from every state
  in which such a manifest is stored: `OversizeBackupIsLost`).
- A path that was a file in one backup of a chain and a directory in another makes every
  restore of that chain report errors (`ErrorFreeIffPrefixFree`). The restored files are still
  the captured ones exactly when every file of the latest manifest lands, that is, when no file
  that landed before is nested with it (`RestoredIffRestorable`). One nested with a file of the
  full backup never does (`FileTurnedDirectoryIsNotRestored`); others may
  (`NestedYetRestorable`).
- A file whose encryption setting changes while its content does not keeps its old entry: backed up
  in plain text once, it stays so until its content changes or a full backup comes
  (`EntriesAreMarked`).
- Deleting an obsolete path also deletes a restored file that the path resolves to
  (`ApplyChainClosedForm`; a chain: `AliasedPathIsDeleted`); canonical paths are safe
  (`CanonicalChainIsExact`).
- The Merkle root of a raw list of leaves does not bind it: an odd list and the same list with
  its last leaf repeated agree (`OddLevelCollision`; all collisions: `RootsCollideExactly`). The
  data root binds because leaves of different paths differ (`DataMerkleRootBinds`).
- The walk over on-chain records and the archive's chain count have no guard against cycles:
  each ends exactly when its links never lead back (`WalkEndsIffNotCyclic`,
  `CountEndsIffNotCyclic`), as they do for histories the scheduler writes (`OnChainWalkAgrees`,
  `ArchiveCountMatchesScheduler`).
- Registering or caching a CID while the local index cannot be read, though it can be written,
  drops every other entry of the index (`RegisterKeepsIndexIff`, `ResolveKeepsIndexIff`; an
  input: `FailedReadLosesEntry`), and likewise for the MFS map (`UnreadableMapIsReplaced`).
- Two calls that write the index at the same time can lose an entry even if every read succeeds:
  what was just written stays, whatever follows, exactly when no call that writes another entry
  holds an index read before (`WrittenLastsIff`). Nothing is lost while such calls do not overlap
  (`SerialRunsLoseNothing`).
- Two messages with equal content can be captured at the same second when a prune deletes the
  first: the window holds in every run exactly when the configuration rules that out
  (`SpacingHoldsExactly`). The defaults do not: rows below 0.7 are deleted, and scores go down to
  about 0.1 (`packages/claw-mem/src/observer/importance.ts`).
- If at least as many rows are to be kept as one pass reads, compaction never does anything
  (`SmallPullNeverCompacts`). The limits admit this: `triggerEvery` 4 with the default of 20
  rows to keep is such a configuration.
- A check that is under way when an agent is taken off the watch list can still mark it offline,
  and silence the next notification for it; without such a check that cannot happen
  (`RemovalIsCleanIff`).
- The daemon's key does not separate agent and request ids when the longer agent id holds a
  colon (`KeysAreUnambiguous`, `ColonsCollide`).
- Stopping the daemon reaches a flow, whatever follows, exactly when its working directory has
  been made: one still preparing looks the signal up later, and gets that of the next start
  (`StopReachesIff`).
- A resurrection completes although the verification of the restored files failed. Of the captured
  files exactly those are there that land (`CompletedResurrectionRestores`), except that a restored
  `RECOVERY_CONTEXT.md`, which backups include, is overwritten afterwards (`ContextIsReplaced`).
- `runBackup` looks at `running` only after an await, so a call that is still reading the state
  file can overwrite the head and the counter of one that has finished. Manifests stay complete
  (`EveryRunIsSafe`), and the counter counts the chain in every run whose initializations do not
  overlap (`ChainLengthIsBounded`). One more call then leaves it sound if and only if the scheduler
  is initialized or idle (`CallIsHarmlessIff`); from every other state some run breaks the count
  (`OverlapBreaksCount`).
- `change-detector.ts` announces a pre-filter by modification time; its code hashes every file,
  and so does the model.

## Model

| member | source | states |
|---|---|---|
| RoundTrip.BackupsRestoreExactly | packages/soul/src/recovery/state-restorer.ts:23-144 | after any run of the scheduler (edits, failures, crashes, restarts, overlapping calls), restoring any stored manifest into a fresh target is accepted exactly when its chain can be fetched and the key is not blank where one is needed; it then adds exactly the captured path to bytes map if and only if every file of the latest manifest lands, and merkleVerified says so in both cases; it meets no error exactly when the chain's paths are prefix-free, and then filesRestored and totalBytes are the sums over the chain |
| RoundTrip.RestoredIffRestorable | packages/soul/src/recovery/downloader.ts:62-115 | for a stored chain and a fresh target, the captured files are restored, and verification passes, if and only if the paths of the chain let every latest file land |
| Landing.ExactIffRestorable | packages/soul/src/recovery/downloader.ts:32-53 | the same for any readable chain of canonical, prefix-free manifests: applied exactly if and only if no file that landed before stands in the way of a latest one |
| Landing.ChainLeaves | packages/soul/src/recovery/downloader.ts:95-108 | what such a chain leaves in any case: the target as it was plus the landed files of the latest manifest, with their contents |
| Landing.PrefixFreeLands | packages/soul/src/recovery/downloader.ts:45-46 | a chain without nested paths lands whole |
| RoundTrip.BackupIsAccepted | packages/soul/src/recovery/state-restorer.ts:36-95 | exactly when the checks before any write let a scheduler-written chain through |
| Shortfalls.OversizeBackupIsLost | packages/soul/src/backup/scheduler.ts:271-288 | from every state in which a manifest too large to be read back is stored, it can be anchored and saved as the head like any other, and then every restore of it is refused, from any store that holds it |
| RoundTrip.ExactRestoreVerifies | packages/soul/src/recovery/integrity-checker.ts:35-79 | after an exact restore the final verification passes, and each file hashes to its entry |
| RoundTrip.ChainWritesBytes | packages/soul/src/recovery/downloader.ts:46-49 | without errors, the reported bytes are the plain sizes of all files of the chain, whatever the listing order |
| RoundTrip.StoredBytes | packages/soul/src/backup/uploader.ts:44-60 | a manifest's totalBytes exceeds those plain sizes by one 60-byte frame header per encrypted file |
| RoundTrip.FileTurnedDirectoryIsNotRestored | packages/soul/src/recovery/downloader.ts:45-52 | a latest file nested, either way, with a file of the full backup is not restored, and verification says so |
| RoundTrip.NestedYetRestorable | packages/soul/src/recovery/downloader.ts:76-93 | a chain of three manifests that is not prefix-free and is restored all the same |
| SchedulerSafety.EveryRunIsSafe | packages/soul/src/backup/scheduler.ts:97-139 | in every interleaving: one backup executes at a time, each stored manifest covers exactly the paths of its scan with entries that open to bytes of the recorded hash, every parent was stored before, every on-chain record repeats a stored manifest and follows its parent's record |
| SchedulerSafety.StepKeepsInv | packages/soul/src/backup/scheduler.ts:194-288 | each step between two awaits, including failure, crash, lost state file and stale patch, keeps all of that |
| SchedulerSafety.BeginUploadsOk | packages/soul/src/backup/scheduler.ts:229-270 | what is carried over plus what is to be uploaded covers exactly the scanned paths, with sound carried entries; `Decisions.ScanDecides` says which are which, and when nothing is uploaded |
| Decisions.ScanDecides | packages/soul/src/backup/scheduler.ts:231-270 | a backup is skipped if and only if it is not full and the scan has exactly the paths and hashes of the last manifest; otherwise exactly the new and changed files are uploaded, each once, and exactly the others keep their entries |
| Decisions.ForceIsKept | packages/soul/src/backup/scheduler.ts:97-139 | initialization neither drops nor adds the request for a full backup |
| Decisions.EnterDecides | packages/soul/src/backup/scheduler.ts:100-111 | a call goes in exactly when none is inside, and otherwise ends |
| Decisions.EndingFreesGuard | packages/soul/src/backup/scheduler.ts:112-116 | however a backup ends, the guard is free, the call gone, and nothing else changed but for an anchor whose answer was lost |
| Decisions.DigestRepeatsBackup | packages/soul/src/backup/scheduler.ts:271-274 | the manifest has the agent, time, parent and entries of its backup |
| Decisions.StateFileNamesItsBackup | packages/soul/src/backup/scheduler.ts:171-192 | the state file is given the CID of the backup just anchored and the counter, whatever became of the head meanwhile |
| BackupContents.EntriesAreMarked | packages/soul/src/backup/scheduler.ts:249-270 | after any run, of every stored manifest: a file with the hash it had in the earlier stored manifest it was compared with has that entry, mark and all; any other has the mark and category of the scan; the stored bytes are sealed under the key if and only if the entry is marked |
| ParentDiff.IncrementalsExtendTheirParent | packages/soul/src/backup/scheduler.ts:229-274 | while initializations do not overlap, the manifest compared with is the parent: an entry is the parent's for exactly the files with the parent's hash |
| ParentDiff.FullIsDecided | packages/soul/src/backup/scheduler.ts:224-229 | a backup is full if and only if it is forced, there is no head, or the chain behind the head has more than maxIncrementalChain manifests; otherwise it is compared with the manifest under the head |
| ParentDiff.DecisionIsPublished | packages/soul/src/backup/scheduler.ts:272-274 | the manifest of a full backup has no parent, that of an incremental one the head it was compared with |
| ParentDiff.RestartResumesChain | packages/soul/src/backup/scheduler.ts:119-139 | after a crash the next call takes up the saved head and counter if the saved manifest can be fetched, and otherwise starts without |
| CompleteBackup.UndisturbedBackupCompletes | packages/soul/src/backup/scheduler.ts:194-305 | from an idle scheduler, and while nothing fails, a backup that is full or finds a change ends with its manifest stored, recorded on chain and head in memory and in the state file, the counter set, the guard free |
| CompleteBackup.UploadsLead | packages/soul/src/backup/uploader.ts:21-68 | the upload steps of the machine leave, over what was carried, what uploadFiles returns |
| SchedulerSafety.AnchorKeepsWorld | packages/soul/src/backup/anchor.ts:31-48 | anchoring a stored manifest whose parent is anchored keeps every record consistent and makes the CID a legitimate head |
| SchedulerSafety.RecordsDescribeBackups | packages/soul/src/backup/anchor.ts:31-48 | every record names its manifest's hash, data root, number of files, sum of stored sizes, and its parent or none |
| Overlap.CallIsHarmlessIff | packages/soul/src/backup/scheduler.ts:97-139 | after any run without overlapping initializations, one more call keeps the counter true to the chain, in all that follows, if and only if the scheduler is initialized or has no call under way; given three CIDs not in use and maxIncrementalChain of at least 1, as the schema has it |
| Overlap.OverlapBreaksCount | packages/soul/src/backup/scheduler.ts:119-138 | from every state in which a second call initializes beside a first, at either of its awaits, some run without further overlap ends with a counter that does not count the chain |
| ChainBound.ChainLengthIsBounded | packages/soul/src/backup/scheduler.ts:225-286 | while initializations do not overlap, the chain behind the head, in memory and in the state file, has incrementalCount + 1 manifests and at most maxIncrementalChain + 1 |
| SchedulerObject.BackupScheduler.OnStateRead | packages/soul/src/backup/scheduler.ts:119-127 | the fields after the persisted state was read |
| SchedulerObject.BackupScheduler.OnManifestFetched | packages/soul/src/backup/scheduler.ts:127-138 | the fields after hydration succeeded, or fell back to a full backup |
| SchedulerObject.BackupScheduler.TryEnter | packages/soul/src/backup/scheduler.ts:100-111 | a call enters exactly when none is running |
| SchedulerObject.BackupScheduler.ChooseBase | packages/soul/src/backup/scheduler.ts:224-229 | full when forced, without a manifest, or when the chain is at its limit; else a diff against the last manifest |
| SchedulerObject.BackupScheduler.OnAnchored | packages/soul/src/backup/scheduler.ts:279-286 | the new head and counter after the anchor |
| ChangeDetector.DetectChanges | packages/soul/src/backup/change-detector.ts:219-253 | the loop computes the classification of every scanned file and the deleted paths |
| ChangeDetector.ChangesPartitionTheScan | packages/soul/src/backup/change-detector.ts:238-253 | each scanned path is uploaded or carried over and never both; deleted paths are neither |
| ChangeDetector.NothingChangedIff | packages/soul/src/backup/scheduler.ts:232-235 | the change set is empty exactly when paths and hashes equal those of the last manifest |
| Uploader.UploadFiles | packages/soul/src/backup/uploader.ts:21-68 | the entries, totalBytes, count and store after all files, or the store after the files before the first exception; and for the last file of each path: its mark and category in the entry, the hash of the bytes read, and a stored blob that is sealed under the key if and only if the file is marked |
| Uploader.UploadsAreMarked | packages/soul/src/backup/uploader.ts:42-62 | the same of the entries and the store of every batch, also one that re-adds contents |
| Uploader.UploadedBytesAddUp | packages/soul/src/backup/uploader.ts:52-66 | the reported bytes are the recorded sizes of the uploaded entries |
| Uploader.UploadsAreSound | packages/soul/src/backup/uploader.ts:31-62 | the entries cover the files' paths, and every one opens, under the key, to bytes with the recorded hash, also when the batch re-adds earlier contents |
| Uploader.CarryOverEntries | packages/soul/src/backup/uploader.ts:74-86 | the loop keeps the previous entries of the untouched paths |
| Uploader.CarriedEntriesDescribeTheScan | packages/soul/src/backup/uploader.ts:70-86 | a carried entry still opens to the bytes that the new scan hashed, under the same key |
| ManifestBuilder.BuildManifest | packages/soul/src/backup/manifest-builder.ts:85-116 | root, totals and count of the manifest, for every order in which the properties are listed |
| ManifestBuilder.CountEntries | packages/soul/src/backup/manifest-builder.ts:93-98 | the accumulated total is the sum over the entries, whatever the order |
| Merkle.BuildMerkleRoot | packages/soul/src/backup/manifest-builder.ts:39-53 | the nested loops compute the root |
| Merkle.BuildNextLevel | packages/soul/src/backup/manifest-builder.ts:44-50 | one round pairs neighbours and pairs a last odd node with itself |
| Merkle.NextLevelCollidesExactly | packages/soul/src/backup/manifest-builder.ts:45-49 | two levels pair up alike exactly when equal, or when one is the other, of odd length, with its last node twice |
| Merkle.RootBindsLeaves | packages/soul/src/backup/manifest-builder.ts:39-53 | equal roots mean equal leaf lists, if the lists have equal length or no repetitions |
| Merkle.OddLevelCollision | packages/soul/src/backup/manifest-builder.ts:47 | without those conditions they need not |
| MerklePadding.RootsCollideExactly | packages/soul/src/backup/manifest-builder.ts:39-53 | two lists of leaves have the same root if and only if repeating last blocks until the sizes are powers of two makes the lists equal |
| Merkle.LengthPrefixedParses | packages/soul/src/backup/manifest-builder.ts:60-65 | a length-prefixed field can be read back whatever follows it |
| Merkle.LittleEndian32Digits | packages/soul/src/backup/manifest-builder.ts:60-65 | the prefix has the least significant byte first |
| Merkle.PrefixIsWidth | packages/soul/src/backup/manifest-builder.ts:60-65 | the prefix of a hash field counts the bytes that follow |
| Ordering.FirstDifferenceDecides | packages/soul/src/backup/manifest-builder.ts:69 | paths are sorted by the first unit that differs, a beginning first |
| Merkle.LeafIsUnambiguous | packages/soul/src/backup/manifest-builder.ts:70-79 | a leaf determines path, CID and content hash |
| Merkle.ComputeDataMerkleRoot | packages/soul/src/backup/manifest-builder.ts:68-82 | the root does not depend on insertion order |
| Merkle.DataMerkleRootBinds | packages/soul/src/backup/manifest-builder.ts:68-82 | equal roots if and only if equal path to (CID, hash) maps |
| Chain.ResolveChainFromCid | packages/soul/src/recovery/chain-resolver.ts:126-145 | the loop terminates on every store and computes the resolved chain |
| Chain.ResolveChainOutcome | packages/soul/src/recovery/chain-resolver.ts:126-145 | circular error exactly when the parent walk revisits a CID, missing manifest exactly when it meets one, otherwise the whole walk, oldest first |
| Chain.RankedChainResolves | packages/soul/src/recovery/chain-resolver.ts:134-142 | where parents were stored first the circular error is unreachable, and the chain is found exactly when each manifest is small enough |
| Paths.CanonicalPathsDoNotAlias | packages/soul/src/recovery/downloader.ts:34-37 | different canonical paths resolve to different files, all of them inside a target other than the root |
| FileSystem.FileStore.WriteFile | packages/soul/src/recovery/downloader.ts:45-46 | when making the parents and writing succeeds, and what the disk is afterwards in either case |
| FileSystem.FileStore.Unlink | packages/soul/src/recovery/downloader.ts:102-106 | removes that file unless the system refuses |
| FileSystem.AfterWriteKeepsTree | packages/soul/src/recovery/downloader.ts:45-46 | writing keeps the disk a tree |
| Downloader.DownloadManifestFiles | packages/soul/src/recovery/downloader.ts:19-56 | the loop's disk, counters and errors, file by file |
| Downloader.ApplyManifestChain | packages/soul/src/recovery/downloader.ts:62-115 | the disk, counters and errors after the whole chain and the removal of obsolete paths |
| Downloader.RemoveFiles | packages/soul/src/recovery/downloader.ts:95-108 | removes exactly the obsolete paths strictly inside the target |
| Downloader.ChainStaysInside | packages/soul/src/recovery/downloader.ts:34-37 | whatever the manifests say, nothing outside the target changes |
| Paths.GoingUpIsRefused | packages/soul/src/recovery/downloader.ts:34-36 | a path that goes up out of the target is refused unless it comes straight back |
| Downloader.ApplyChainClosedForm | packages/soul/src/recovery/downloader.ts:62-115 | an error-free chain leaves the initial directory minus all paths of the chain plus the latest manifest's contents, if and only if no obsolete path aliases a latest one; filesWritten is the sum of the manifest sizes |
| Shortfalls.AliasedPathIsDeleted | packages/soul/src/recovery/downloader.ts:98-108 | a full backup with "./a" and an incremental with "a": no error, and "a" is gone afterwards |
| Downloader.CanonicalChainIsExact | packages/soul/src/recovery/downloader.ts:95-108 | canonical paths meet that condition |
| Downloader.ErrorFreeIffPrefixFree | packages/soul/src/recovery/downloader.ts:45-52 | into a fresh target, a readable chain of canonical paths applies without error if and only if no path is a directory above another |
| IntegrityChecker.VerifyManifestMerkleRoot | packages/soul/src/recovery/integrity-checker.ts:26-29 | true exactly when the recomputed root is the recorded one |
| IntegrityChecker.VerifyRestoredFiles | packages/soul/src/recovery/integrity-checker.ts:35-79 | valid exactly when every file is present, inside the target, with the recorded hash, and the root is right; each file's verdict likewise |
| StateRestorer.CheckManifests | packages/soul/src/recovery/state-restorer.ts:39-48 | reports the first manifest whose root does not match its entries |
| StateRestorer.RestoreFromManifestCid | packages/soul/src/recovery/state-restorer.ts:23-144 | the result and the final disk; `RefusalsAreExact` and `AnchorReasonIsExact` say which refusal and which report is given when |
| StateRestorer.RefusalsAreExact | packages/soul/src/recovery/state-restorer.ts:36-95 | for every store and chain client: the chain error exactly when the chain does not resolve, tampering at i exactly when i is the first manifest whose root does not match, a key asked for exactly when one is needed and blank, an anchor mismatch exactly when the record of this very manifest names another root; each leaves the disk as it was |
| StateRestorer.AnchorReasonIsExact | packages/soul/src/recovery/state-restorer.ts:56-99 | which of the five anchor reasons a restore reports when, and what its two flags mean |
| StateRestorer.BlankIffSpaces | packages/soul/src/recovery/state-restorer.ts:52 | a key is blank if and only if it consists of white-space characters |
| StateRestorer.AnchoredRestoreIsAuthentic | packages/soul/src/recovery/state-restorer.ts:62-131 | for any store: if the anchor check and the verification both passed, every path of the anchored manifest holds content with the hash recorded at backup time |
| StateRestorer.RestoreStaysInside | packages/soul/src/recovery/state-restorer.ts:39-105 | a refused restore changes nothing, and no restore changes anything outside the target |
| CidResolution.CidResolver.Resolve | packages/soul/src/recovery/cid-resolver.ts:101-141 | the answer layer by layer, and what is cached, also when the index cannot be read, the first or the second time the call reads it |
| CidResolution.CidResolver.Register | packages/soul/src/recovery/cid-resolver.ts:143-171 | success needs a matching hash and a writable index; which layers change, also when the index cannot be read |
| CidResolution.CidResolver.CacheLocally | packages/soul/src/recovery/cid-resolver.ts:177-187 | the index that could be read and the new entry are written, or nothing changes |
| CidResolution.LayersSuffice | packages/soul/src/recovery/cid-resolver.ts:101-141 | a CID is found if and only if the readable index has it, or MFS or the registry answers with it and the index can be written; and when resolving throws |
| CidResolution.RegisterReachesLayers | packages/soul/src/recovery/cid-resolver.ts:143-171 | success exactly with a matching hash and a writable index; then the index, and MFS and the registry where they answer, know the CID, and no entry of the registry changes |
| CidResolution.ResolveFillsIndex | packages/soul/src/recovery/cid-resolver.ts:113-137 | what was found elsewhere is in the index afterwards, and nothing else changes |
| CidResolution.AnswersAreCoherent | packages/soul/src/recovery/cid-resolver.ts:101-141 | an answer always hashes to the request, so warm and cold answers agree, and only verified entries enter the cache |
| CidResolution.ResolvingChangesNoAnswer | packages/soul/src/recovery/cid-resolver.ts:117-131 | filling the cache changes the answer to another request if and only if the index could be read first and not a second time and only the index knew that answer; if it kept its entries, it answers as before once it can be read again |
| CidResolution.RegisteredStaysResolvable | packages/soul/src/recovery/cid-resolver.ts:143-151 | after a successful register the CID resolves whenever the index can be read, over a corrupt entry and whatever happens to the other layers, and otherwise when they answer; other verified entries resolve as before if the index could be read when registering |
| CidResolution.RegisterKeepsIndexIff | packages/soul/src/recovery/cid-resolver.ts:45-55 | registering keeps every verified entry of the index if and only if the index could be read, or knew nothing else |
| CidResolution.ResolveKeepsIndexIff | packages/soul/src/recovery/cid-resolver.ts:177-187 | so does resolving, which writes only after an answer from MFS or the registry, and depends on the second read |
| CidResolution.FailedReadLosesEntry | packages/soul/src/recovery/cid-resolver.ts:45-55 | an index that holds one CID, a failed read while another is registered, and the first no longer resolves |
| CidResolution.UnreadableMapIsReplaced | packages/soul/src/recovery/cid-resolver.ts:197-214 | the MFS map keeps its other entries exactly when it could be read or had none |
| IndexRuns.UndisturbedWriteIsCached | packages/soul/src/recovery/cid-resolver.ts:177-187 | a read and a write with nothing in between are the resolver's one step |
| IndexRuns.EntryLastsIff | packages/soul/src/recovery/cid-resolver.ts:177-187 | in every state with calls under way, an entry stays in the index, whatever they and later calls do while reads succeed, if and only if the index has it and so has everything read by calls that write another entry |
| IndexRuns.WrittenLastsIff | packages/soul/src/recovery/cid-resolver.ts:143-151 | after any run, what a call has just written stays if and only if no call that writes another entry holds an index without it |
| IndexRuns.SerialRunsLoseNothing | packages/soul/src/recovery/cid-resolver.ts:57-61 | while no read fails, and none comes between the read and the write of another call, nothing is lost |
| ChainResolver.FetchHistory | packages/soul/src/recovery/chain-resolver.ts:27-39 | the pages for the count that was read, each as the history stood when it was asked for |
| ChainResolver.PagesArePrefix | packages/soul/src/recovery/chain-resolver.ts:34-39 | while the chain only grows, the pages are a beginning of the history and miss nothing of what was counted |
| ChainResolver.BuildIndex | packages/soul/src/recovery/chain-resolver.ts:41-45 | the index holds the last record of each CID |
| ChainResolver.WalkRecords | packages/soul/src/recovery/chain-resolver.ts:47-61 | the loop computes the parent walk, or the broken-chain error, whenever the walk is not cyclic |
| ChainResolver.WalkFollowsPath | packages/soul/src/recovery/chain-resolver.ts:47-61 | the walk gives the path of parents of the latest record, or the parent that breaks it off |
| ChainResolver.RecoveryFollowsPath | packages/soul/src/recovery/chain-resolver.ts:22-84 | which error is given when, from that path: no records, a missing parent, a path that does not begin with a full backup; otherwise its manifests |
| ChainResolver.ManifestsOrFirstError | packages/soul/src/recovery/chain-resolver.ts:67-83 | the manifests of all records in order, or the first error that one of them gives |
| ChainResolver.WalkEndsIffNotCyclic | packages/soul/src/recovery/chain-resolver.ts:52-61 | the loop ends, within as many rounds as there are records and one, if and only if the parents of the latest record never lead back to a record |
| ChainResolver.FindManifestByCidHash | packages/soul/src/recovery/chain-resolver.ts:90-120 | the manifest behind a hash, or why there is none |
| ChainResolver.ResolveBackupChain | packages/soul/src/recovery/chain-resolver.ts:22-84 | the whole of it, with the first error in chain order |
| ChainResolver.SelfParentNeverStops | packages/soul/src/recovery/chain-resolver.ts:52-61 | the shortest cycle: a record that is its own parent |
| ChainRecoveryProofs.RegisteringKeepsExactly | packages/soul/src/recovery/cid-resolver.ts:177-187 | after any series of registrations the index holds a CID if and only if it was registered, or known before, and no read of the index failed before a later one |
| ChainRecoveryProofs.RegisteringMakesFindable | packages/soul/src/backup/anchor.ts:70-77 | registering CIDs in any order, over any index, makes each findable, as long as no read of the index fails on the way |
| ChainRecoveryProofs.OnChainWalkAgrees | packages/soul/src/recovery/chain-resolver.ts:22-84 | for any history the scheduler anchored, read page by page while it may still grow, the on-chain walk ends and succeeds exactly when the CID walk from the last record read does, with the same manifests in the same order, a full backup first, each record naming the one before |
| ChainRecovery.RestoreFromChain | packages/soul/src/recovery/state-restorer.ts:150-220 | which CID is restored, or which error is thrown, and the final disk |
| ChainRecovery.RecoveryErrorsAreExact | packages/soul/src/recovery/state-restorer.ts:160-219 | which error is thrown when, an inactive soul and one without backups included, and that any error leaves the disk as it was; otherwise the restore of the CID that the resolver leads to |
| ChainRecoveryProofs.LastAnchoredBackupIsRecovered | packages/soul/src/recovery/state-restorer.ts:150-220 | by agent id alone, the manifest anchored last is asked for and restored, as for any stored manifest, and its anchor reported verified |
| AutoRestoration.AutoRestore | packages/soul/src/recovery/orchestrator.ts:47-103 | the recovery's result or error, and the disk with the context file, if it could be made, and the marker, without which the whole fails |
| AutoRestoration.AutoRestoreIsExact | packages/soul/src/recovery/orchestrator.ts:47-103 | success exactly when the recovery went through and the place of the marker can be written; which two files may differ from what the recovery left |
| Archive.ArchiveStore.Insert | packages/claw-mem/src/db/archive-store.ts:66-99 | a second row for the same CID is refused |
| Archive.ArchiveStore.CountIncrementalChain | packages/claw-mem/src/db/archive-store.ts:143-158 | the loop computes the count whenever the rows it follows are not cyclic |
| Archive.CountEndsIffNotCyclic | packages/claw-mem/src/db/archive-store.ts:146-156 | the loop ends if and only if following parents from the given CID never comes back to a row |
| ArchiveProofs.RecordingKeepsRecords | packages/soul/src/backup-manager.ts:143-172 | every row stays the record of a stored manifest, with its parent, as finished backups are recorded, at any later time and also under an unknown agent id, and as rows are pruned; recording adds just that row, pruning removes just those |
| ArchiveProofs.RecordsSurviveGrowth | packages/soul/src/backup-manager.ts:143-172 | the archive stays true to the manifests as the scheduler goes on |
| ArchiveProofs.ArchiveCountMatchesScheduler | packages/claw-mem/src/db/archive-store.ts:143-158 | over every joint run of scheduler and archive without overlapping initializations, counting from the scheduler's head ends, finds at most incrementalCount + 1 rows, and exactly that many when, and only when, none of the chain is missing |
| ArchiveProofs.SelfParentKeepsCounting | packages/claw-mem/src/db/archive-store.ts:146-156 | the shortest cycle: a row that is its own parent |
| ObservationTable.ObservationStore.Insert | packages/claw-mem/src/db/observation-store.ts:26-66 | a fresh id, never used before, and the row at the second of the clock |
| ObservationTable.ObservationStore.IsDuplicate | packages/claw-mem/src/db/observation-store.ts:68-79 | true exactly when a row with this hash began its second less than the window ago |
| ObservationTable.Chronological | packages/claw-mem/src/db/observation-store.ts:118-130 | lists the selected ids once each, in one total order that refines the epoch |
| ObservationTable.ObservationStore.MarkCompacted | packages/claw-mem/src/db/observation-store.ts:136-147 | marks the ids that still exist and counts them |
| ObservationTable.ObservationStore.PruneCompactedLowValue | packages/claw-mem/src/db/observation-store.ts:156-194 | deletes exactly the compacted chat rows of the agent below the threshold that are not among the newest |
| ChatCompactor.BeginCompaction | packages/claw-mem/src/observer/chat-compactor.ts:56-88 | the rows a pass will compact |
| ChatCompactor.FinishCompaction | packages/claw-mem/src/observer/chat-compactor.ts:131-162 | the table after commit, rollback, prune and failed prune, and the reported counts |
| ChatCompactor.Capture | packages/claw-mem/src/hooks/index.ts:202-204 | a row is inserted if and only if every row with this hash lies a whole window back |
| ObservationTable.DuplicateExactly | packages/claw-mem/src/db/observation-store.ts:68-79 | comparing rounded-down seconds with a rounded-down cutoff amounts to this window |
| PassEffects.CaptureIsExact | packages/claw-mem/src/hooks/index.ts:202-204 | a message becomes a row, with its agent, kind, content and score, if and only if every row with its content lies a whole window back, and otherwise changes nothing |
| PassEffects.SelectionIsExact | packages/claw-mem/src/observer/chat-compactor.ts:56-88 | a pass selects raw rows of the agent, as many as min(raw, 200, 5 max(1, triggerEvery)) exceeds keepRecentRaw, and the oldest ones |
| PassEffects.CommitIsExact | packages/claw-mem/src/observer/chat-compactor.ts:131-142 | a commit adds one compaction row and marks the rows of the batch that still exist, and nothing else |
| PassEffects.PruneIsExact | packages/claw-mem/src/db/observation-store.ts:156-194 | a prune deletes exactly the compacted chat rows of the agent below the threshold that have the number to keep of newer ones |
| PassEffects.FailureTouchesNoRow | packages/claw-mem/src/observer/chat-compactor.ts:131-154 | a rolled-back pass, or a restart, ends passes and touches no row |
| ChatCompactor.CompactionTrigger.Tick | packages/claw-mem/src/observer/chat-compactor.ts:177-185 | fires on every max(1, triggerEvery)-th tick, never when disabled |
| CompactionSafety.NewestIffFewNewer | packages/claw-mem/src/db/observation-store.ts:163-172 | a chat row is among the newest k exactly when fewer than k are newer |
| CompactionSafety.SelectedAreSettled | packages/claw-mem/src/observer/chat-compactor.ts:67-88 | each row a pass selects is uncompacted and has keepRecentRaw newer chat rows of its agent |
| CompactionSafety.PruneKeepsSettled | packages/claw-mem/src/db/observation-store.ts:162-194 | pruning never makes an old row one of the newest |
| CompactionSafety.StepKeepsInv | packages/claw-mem/src/observer/chat-compactor.ts:131-154 | each step, whatever stale batches are in flight, keeps the invariant of the table |
| CompactionSafety.NewestChatIsNeverCompacted | packages/claw-mem/src/observer/chat-compactor.ts:73-88 | in every interleaving the newest keepRecentRaw chat rows of every agent are raw, and no step compacts, changes or deletes one |
| CompactionSafety.EveryRowIsAccountedFor | packages/claw-mem/src/observer/chat-compactor.ts:131-154 | every row ever inserted is there raw, or rolled up into an existing compaction row of its agent, or was deleted after that for low importance; other rows are never touched |
| CompactionSafety.StaleCommitHitsNoFreshRow | packages/claw-mem/src/db/migrations.ts:15 | a late commit changes only rows of its own batch, kind and agent |
| DrainBound.PassIsTwoSteps | packages/claw-mem/src/observer/chat-compactor.ts:56-162 | an undisturbed pass is the read step followed by the commit step |
| DrainBound.BacklogDrains | packages/claw-mem/src/observer/chat-compactor.ts:65-88 | with P rows read and K kept, P greater than K, a backlog of U greater than K reaches K after ceil((U - K) / (P - K)) passes, no earlier, and stays there |
| DrainBound.SmallPullNeverCompacts | packages/claw-mem/src/observer/chat-compactor.ts:67-88 | with P at most K no pass selects anything; otherwise a pass selects exactly when more than K are uncompacted |
| DedupSpacing.CaptureIsSpaced | packages/claw-mem/src/db/observation-store.ts:68-79 | a captured row is the window away from every equal row in the table, in whole seconds rounded down |
| DedupSpacing.SpacingHoldsExactly | packages/claw-mem/src/hooks/index.ts:202-204 | over whole runs, spacing holds if and only if the configuration cannot delete a compacted row, whose score is never below the scorer's least, or has a window under a second |
| DedupSpacing.ForgetfulRun | packages/claw-mem/src/observer/chat-compactor.ts:144-150 | under any other configuration, a run of messages with the least score that captures the same content twice at once |
| ResurrectionFlow.WaitForReadiness | packages/soul/src/carrier/resurrection-flow.ts:255-299 | watched for any number of rounds: success means polls and sleeps ending in a poll that answered ready; still polling means that no round gave a reason to leave; at most ceil(timeout / poll) polls when the clock advances |
| ResurrectionFlow.WaitEnds | packages/soul/src/carrier/resurrection-flow.ts:260-293 | with such a clock the loop always ends, whatever the chain answers |
| ResurrectionFlow.ExecuteResurrectionFlow | packages/soul/src/carrier/resurrection-flow.ts:86-242 | for every behaviour of the surroundings, also one that keeps it polling for ever: a flow that is not polling completed if and only if the agent is offline, the request is its own and unexecuted, the carrier is confirmed, the last poll came in time, uninterrupted and ready, recovery and spawn went through, the health check passed, completion was accepted, and no shutdown was seen before download, spawn or completion; each act happens exactly when it is due, the heartbeat and the stop of an unhealthy agent included; every error is explained by the act before it and by the shutdown or timeout found then; completion at most once; and a truthful report |
| ResurrectionFlow.CompletionReportsRestore | packages/soul/src/carrier/resurrection-flow.ts:138-224 | a flow that completed called a recovery that went through, and reports its counts |
| CompletedResurrection.CompletedResurrectionRestores | packages/soul/src/carrier/resurrection-flow.ts:138-168 | after any run of the scheduler that anchored something, a completed resurrection recovered the manifest anchored last; each captured file is there with its bytes if and only if it lands, the two files the recovery writes aside; verification passed if and only if all land, and completion does not depend on it |
| CompletedResurrection.ContextIsReplaced | packages/soul/src/recovery/context-injector.ts:14-24 | a context file that the restore brought back is overwritten |
| CarrierDaemons.CarrierDaemon.Start | packages/soul/src/carrier/carrier-daemon.ts:91-106 | starting makes a new shutdown controller and adds every pending request, and does nothing when running |
| CarrierDaemons.CarrierDaemon.Stop | packages/soul/src/carrier/carrier-daemon.ts:109-113 | stopping aborts the current controller, and does nothing when stopped |
| CarrierDaemons.SignalsReachRunningFlows | packages/soul/src/carrier/carrier-daemon.ts:191-218 | in every reachable state a flow past its preparation has been told to stop if and only if the daemon is stopped or was started again since the flow got its signal |
| CarrierDaemons.StopReachesIff | packages/soul/src/carrier/carrier-daemon.ts:109-217 | in every reachable state of a running daemon, stop reaches a flow, whatever follows, if and only if the flow is past its preparation |
| CarrierDaemons.CarrierDaemon.AddRequest | packages/soul/src/carrier/carrier-daemon.ts:134-164 | the answer, and the entry added when accepted |
| CarrierDaemons.RefusalsAreExact | packages/soul/src/carrier/carrier-daemon.ts:134-151 | which refusal is given when, over the live flows of every reachable state |
| CarrierDaemons.StartServesPending | packages/soul/src/carrier/carrier-daemon.ts:97-99 | after start every pending pair has a flow as far as there are places, earlier pairs first, and no other flow began |
| CarrierDaemons.CarrierDaemon.RecordResult | packages/soul/src/carrier/carrier-daemon.ts:220-233 | the trimming loop keeps the last hundred |
| CarrierDaemons.FinishedIsRecorded | packages/soul/src/carrier/carrier-daemon.ts:220-235 | a finished flow leaves one record of its own, as the last of at most a hundred |
| CarrierDaemons.StepsAreMethods | packages/soul/src/carrier/carrier-daemon.ts:91-164 | each step of the runs does to the fields what the method of the class does |
| CarrierDaemons.DaemonStaysExact | packages/soul/src/carrier/carrier-daemon.ts:91-164 | over any interleaving the limit holds, the table lists exactly the flows not yet forgotten, one per key, and the history is the last hundred results in completion order |
| CarrierDaemons.CompletionRemovesOnlyItsOwn | packages/soul/src/carrier/carrier-daemon.ts:159-161 | deleting by key removes the finished flow's own entry and no other |
| CarrierDaemons.FreePlaceIsGiven | packages/soul/src/carrier/carrier-daemon.ts:134-164 | a request is accepted exactly when running, a place is free and no live flow has its key |
| CarrierDaemons.KeysAreUnambiguous | packages/soul/src/carrier/carrier-daemon.ts:139 | two pairs share a key if and only if they are equal or a colon inside the longer agent id takes the place of the separator |
| CarrierDaemons.ColonsCollide | packages/soul/src/carrier/carrier-daemon.ts:139 | two such pairs |
| OfflineMonitoring.OfflineMonitor.OnChecked | packages/soul/src/carrier/offline-monitor.ts:98-115 | handlers are called exactly on the way from known online to offline |
| OfflineMonitoring.OnlyConfiguredIsJudged | packages/soul/src/carrier/offline-monitor.ts:92-98 | an agent without a configuration on chain is passed over |
| OfflineMonitoring.KnownOfflineIsTheLastWord | packages/soul/src/carrier/offline-monitor.ts:91-120 | knownOffline is the last word on each agent, and notifications are exactly its turns to offline |
| OfflineMonitoring.NotificationsAreDebounced | packages/soul/src/carrier/offline-monitor.ts:91-120 | between two notifications for an agent it was seen online or removed, also with overlapping polls |
| OfflineMonitoring.QuietRemovalIsClean | packages/soul/src/carrier/offline-monitor.ts:47-50 | without such a check, in every run the first offline status after the agent is watched again is heard |
| OfflineMonitoring.LateCheckSilencesAgent | packages/soul/src/carrier/offline-monitor.ts:98-115 | from every state with a check of an agent under way, a run in which the agent is removed and watched again and its next offline status goes unheard |
| OfflineMonitoring.RemovalIsCleanIff | packages/soul/src/carrier/offline-monitor.ts:43-54 | in every reachable state, removing an agent is harmless in this sense if and only if no check of it is under way |
| SimpleTar.BuildSimpleTar | packages/soul/src/backup/binary-handler.ts:166-190 | the archive, or failure when the index does not fit 32 bits |
| SimpleTar.BigEndianDigits | packages/soul/src/backup/binary-handler.ts:182-183 | the header has the most significant byte first |
| SimpleTar.TarRoundTrips | packages/soul/src/backup/binary-handler.ts:166-207 | extracting what was built gives the same files in the same order, for every list that can be built |
| CryptoFrame.FrameRoundTrips | packages/soul/src/crypto.ts:39-76 | decrypting an encrypted frame under the same key gives the plaintext |
| CryptoFrame.FrameLayout | packages/soul/src/crypto.ts:39-51 | salt, vector, tag and ciphertext at bytes 0, 32, 44 and 60, sealed under the key derived from the secret, its kind and the salt |
| CryptoFrame.OnlyFramesDecrypt | packages/soul/src/crypto.ts:58-76 | data decrypts exactly when it is a frame that encrypting under that key produces |

## Left out

- ChainResolver.WalkRecords: says nothing of cyclic histories, on which the source never returns; `WalkEndsIffNotCyclic` says which histories those are.
- Archive.ArchiveStore.CountIncrementalChain: the same for the archive, with `CountEndsIffNotCyclic`.
- Uploader.UploadFiles: which exceptions there are; each ends the backup and is the step `Failed` of the scheduler's runs.
- Archive.ArchiveStore.Prune: which rows the retention rule selects; the results hold for any selection.
- ChainResolver.ResolveBackupChain: cyclic histories, as WalkRecords; and an index file that can be read for one lookup of the walk, or one moment of it, and not for the next.
- IndexRuns.WrittenLastsIff: the MFS map, which is read and written in the same way, and a write of the index file that is cut short.
- CidResolution.CidResolver.Resolve: other calls that write the index between its two reads; `IndexRuns` has them.
- CarrierDaemons.DaemonStaysExact: a process that installs its own handler for unhandled rejections and goes on.
- ChangeDetector.DetectChanges: the walk itself, the file rules, modification times and the database snapshots; the scan and the uploaded bytes are inputs, with distinct canonical paths of which none is a directory above another.
- CompactionSafety.NewestChatIsNeverCompacted: manual deletion (`deleteBySession`, the prune command), which removes rows regardless of age.
- RoundTrip.BackupsRestoreExactly: file modes, times, symbolic links, and disks that fail half way through a write.
- Lengths of CIDs are counted in UTF-8 bytes; the client counts UTF-16 code units, which differ only for CIDs outside ASCII.
- The order of `Array.prototype.sort` on UTF-16 code units and on UTF-8 bytes differ outside the Basic Multilingual Plane; the proofs use only that it is a total order.
- Timers, backoff and `scheduleNext`; heartbeats carry no state.
- Fields of the state file other than the head and the counter, the recovery package, and a second process writing the same state file, except as the stale patch the runs include.
- Blockchain or IPFS calls that take effect after the process that made them has crashed.
- The semantic digest of a manifest, which no root covers.
- Real cryptography, SQL, FTS search, JSON text, network clients and the contracts: inputs or free terms.
- The summarizers, extractors, importance scores, context recall and Markdown: heuristics without a specification.
- Handlers of the offline monitor, process spawning and stopping: one recorded act each.
- The command line, configuration files, node and key management: option parsing and plumbing.

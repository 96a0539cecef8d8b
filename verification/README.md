# OptiFS: deduplication proved invisible

OptiFS is a loopback filesystem. When a written file is closed, it hashes the file's blocks; if that content
is already known, it replaces the file by a hard link to an existing copy, and it keeps attributes of its own
for every path so that users still see distinct files. Four pieces of state have to stay in step through the
branches of `Release`: the content-keyed, reference-counted map of metadata, the path-keyed maps, the pending
buffers of block hashes, and the underlying tree with its inodes and link counts.

The project has three layers.

* **On values.** `Underlying` is the tree underneath, with link(), rename(), unlink(), open(), pwrite(), stat(),
  mkdir() and rmdir() after chapter 3 of the System Interfaces volume of POSIX.1-2017, including the clause by
  which renaming between two links to one file does nothing. `StoreModel` is the metadata package and `Session`
  the virtual filesystem: every operation is a function of the whole state and of what the kernel answers, so
  each call can fail. `Respond` is one event, `After` a whole run. Extended-attribute maps are kept in a heap
  with addresses, so sharing one by accident is visible.
* **In place.** `MetadataStore` and `Vfs` are the same code as it runs: records, entries and node entries are
  objects reached through maps and assigned to field by field, with the source's loops and early exits. Each
  method is proved against its function on values (`view == F(old(view))`,
  `Res(State(), reply) == Respond(H, old(State()), e)`).
* **Theorems.** About every run of the functions on values, and so about what the classes do.

The main results, each for every run of its kind:

* `Transparency.DeduplicationIsInvisible`: users see the plain filesystem, whichever calls of Release fail.
* `Counting.OneInodePerContent`, `LinkCountIsReferenceCount`, `OwnershipBijection`, `ReferencesCountFiles` and
  `OneCopyStored`: sharing is exactly by content, and every count agrees.
* `OwnAttributes.AttributesPersist` and `WhatIsSetStaysSet`, `Uniqueness.IndependenceCondition`: files that are
  links to one inode have independent attributes; with failing Releases, exactly when their keys differ. Reading
  through a handle renews the access time of whichever file has the handle's key by then
  (`OwnAttributes.ReadLeavesRecord`).
* `CrashSafety.ReleaseIsCrashSafe` and `NothingLeftBehind`: stopped between any two system calls, nothing is lost.
* `Recovery.RecoveryRestoresInvariant`: whenever the process stops and whatever it has open, the sweep at
  start-up repairs any loss of names.
* `SequentialRuns.*`: the store is well-formed in all sequential runs, rewrites, links and renames included.
* `StableInode.LookupInoIsStable`, `Renames.RenameMovesLookup`, `XAttrListing.ListingRoundTrip`.
* `OwnAttributes.ReleaseGivesOwnAttributes`: a released file looks like a file of its own, field by field.
* `AttributeCalls` and `CallEffects`: in any state, what each call answers, shows and changes, field by field and
  apart from the functions that compute it.
* `Readers.ReadersSeeTheFile`: invisible through open descriptors too. `Ownership.OwnerIsTheCreator`: who owns a file.
* `Limits` and `AttributeMaps`: outside write-once runs, the exact conditions, as if-and-only-ifs on what a caller
  can check before the call, under which users keep their own bytes (`Limits.ReleaseKeepsBytes`,
  `WriteReachesLinks`, `RenameOverCopy`), and a file its record, its name in it, its entry and its own attributes.
* `Scenarios` and `Counterexamples`: runs that exist, and sequential runs in which each of these promises fails.

Hypotheses. **Hashing**: the hash function is an uninterpreted parameter; no two distinct inputs hashed in
this run collide and none of them hashes to zero (`Fingerprints.CollisionFree`). A **sequential run** lets each
operation finish before the next, with room left in the two counters. A **write-once run** (`WriteOnceRun`)
further writes each regular file through the one handle Create returned, in order from offset 0 and completely;
unlinks no file while that handle is open; has no rename, hard link or reopening for writing; uses no name that
ends in `~(TMP)` or `~(SPARE)`; and lets the unlink() of a scratch name succeed. The other calls of Release may
fail, and the process may stop and restart at any moment, with any files open: a file that was being written is
then *left behind*, as far as it was written, and never released. A **clean run** (`CleanRun`) is a write-once
run in which they succeed. `Limits` and `Counterexamples` show what goes wrong without these hypotheses.

## Model

| member | source | states |
|---|---|---|
| Fingerprints.DigestsDetermineBlocks | code/OptiFS/filesystem/vfs/node.go:1146-1172 | The buffer of concatenated 64-byte digests, however many Writes built it up, determines the sequence of blocks. |
| Fingerprints.FingerprintIdentifiesBlocks | code/OptiFS/filesystem/vfs/node.go:1230-1254 | Two final hashes are equal if and only if the block sequences are, and then the bytes are; the hash is zero exactly when no block was written. |
| Fingerprints.SameBytesDifferentBlocks | code/OptiFS/filesystem/vfs/node.go:1146-1172 | The converse fails: the same two bytes in one block or in two have different fingerprints. |
| Underlying.LinkEffect | code/OptiFS/filesystem/vfs/node.go:1313-1316 | link(): exactly one more name for the inode, link counts still right, all bytes as before. |
| Underlying.RenameEffect | code/OptiFS/filesystem/vfs/node.go:1336-1344 | rename() over a name of another file: that name now shows the renamed file, its old inode goes when no name or descriptor is left, nothing else changes. |
| Underlying.RestartIsUnlinking | code/OptiFS/filesystem/metadata/persistence_api.go:352-404 | Names vanishing behind the process's back and a restart are the same as unlinking them one at a time in any order. |
| Underlying.RenameFolderBack | code/OptiFS/filesystem/vfs/node.go:1570-1586 | Renaming a folder to a free name takes every name below it along with its file; renaming it back restores the tree. |
| Underlying.RenameFolderKeepsWF | code/OptiFS/filesystem/vfs/node.go:1570-1586 | The names of an inode are relabelled one to one, so its link count stays true. |
| Underlying.ExchangeTwice | code/OptiFS/filesystem/vfs/node.go:1594-1658 | An exchange keeps the tree well-formed, leads each of the two names and all below them to where the other was, and done again restores the tree. |
| StoreModel.ClaimWF | code/OptiFS/filesystem/metadata/regular_file_metadata_api.go:293-338 | Adding a record keeps the map well-formed and hands out a reference that is not live: one above the counter. |
| StoreModel.RemoveLive | code/OptiFS/filesystem/metadata/regular_file_metadata_api.go:106-129 | Removing takes exactly that (hash, reference) out, nothing at all from the empty-file class, and leaves every surviving counter. |
| StoreModel.RecentIsLargest | code/OptiFS/filesystem/metadata/regular_file_metadata_api.go:50-68 | On a well-formed entry RetrieveRecent returns the record with the largest live reference. |
| Basics.CountersWrap | code/OptiFS/filesystem/metadata/regular_file_metadata_api.go:320-338 | Both counters go up and down modulo their width. |
| RecentScan.ScanStops | code/OptiFS/filesystem/metadata/regular_file_metadata_api.go:50-68 | The loop whose guard `indx >= 0` always holds stops if and only if the entry has a record, counting the wrap-around of its uint64. |
| RecentScan.ScanFindsNewest | code/OptiFS/filesystem/metadata/regular_file_metadata_api.go:50-68 | On a well-formed entry it stops before it wraps around, after exactly counter - r + 1 rounds, at the largest live reference r. |
| StoreRuns.RunsKeepWF | code/OptiFS/filesystem/metadata/regular_file_metadata_api.go:106-129 | Any sequence of adding, removing and assigning keeps ReferenceCount equal to the number of records and at least 1, and all references within 1..IndexCounter. |
| StoreRuns.NoReissue | code/OptiFS/filesystem/metadata/regular_file_metadata_api.go:320-338 | While an entry lives its IndexCounter never falls, and a reference that is not live and not above it stays dead. |
| StoreRuns.ReleaseThenUnlink | code/OptiFS/filesystem/metadata/regular_file_metadata_api.go:106-129 | Adding a reference to non-empty content, then anything else on other keys, then removing it leaves the map as if neither had happened when the content was unique, and with only IndexCounter one larger when it was a duplicate. |
| StoreRuns.EmptyClassOnlyGrows | code/OptiFS/filesystem/metadata/regular_file_metadata_api.go:25-46 | Under the zero hash the records are always exactly 1..IndexCounter, ReferenceCount equals IndexCounter, and earlier records survive. |
| StoreRuns.SweepOrderIrrelevant | code/OptiFS/filesystem/metadata/persistence_api.go:352-404 | InsureIntegrity gives the same store for every order in which the map is iterated. |
| StoreRuns.SweepIdempotent | code/OptiFS/filesystem/metadata/persistence_api.go:352-404 | Sweeping twice against the same tree is sweeping once. |
| StoreRuns.SweepTakes | code/OptiFS/filesystem/metadata/persistence_api.go:352-404 | In any well-formed store the sweep takes exactly the entries of the missing paths, the records of the directories among them and the records under the keys of the files among them. |
| SequentialRuns.StoreWellFormed | code/OptiFS/filesystem/metadata/regular_file_metadata_api.go:106-129 | Between any two operations of any sequential run, rewrites, hard links, renames and failed Releases included, every entry is well-formed. |
| SequentialRuns.NoReferenceReissued | code/OptiFS/filesystem/metadata/regular_file_metadata_api.go:320-338 | In any sequential run, as long as an entry lives, its counter never falls and no dead reference comes back. |
| SequentialRuns.ReleaseKeepsRecords | code/OptiFS/filesystem/vfs/node.go:1206-1440 | No Release, on any branch, in any state, touches a record that was there before it. |
| SequentialRuns.EmptyFileClass | code/OptiFS/filesystem/metadata/regular_file_metadata_api.go:12-46 | In any sequential run the empty-file class is exactly 1..IndexCounter and never loses a record. |
| SequentialRuns.EmptyFilesAreNeverLinked | code/OptiFS/filesystem/vfs/node.go:1256-1295 | In any state, closing a file through which nothing was written changes no name, no bytes and no link count; at most an inode without a name is freed. |
| SequentialRuns.EmptyRecordsAreNeverSources | code/OptiFS/filesystem/metadata/regular_file_metadata_api.go:12-46 | In any state, what a Release does to the tree and what it replies does not depend on the records of the empty-file class. |
| SequentialRuns.RecentIsDefined | code/OptiFS/filesystem/vfs/node.go:1298-1312 | In every state of a sequential run RetrieveRecent finds the newest live record of any content on file. |
| DedupTree.ReplaceByLink | code/OptiFS/filesystem/vfs/node.go:1313-1345 | Linking a copy to a temporary name and renaming it over the file redirects that file and changes nothing else. |
| DedupTree.GivingUpKeepsTree | code/OptiFS/filesystem/vfs/node.go:1313-1345 | A duplicate Release that gives up leaves the tree as it found it. |
| DedupTree.FinishKeepsTree | code/OptiFS/filesystem/vfs/node.go:1352-1388 | The spare file comes and goes, whichever of its calls fail. |
| WriteOnceRelease.RecordedCopy | code/OptiFS/filesystem/vfs/node.go:1298-1316 | The file that a duplicate Release links to is another, closed file with the same blocks and bytes, on another inode. |
| Transparency.StepKeepsInv | code/OptiFS/filesystem/vfs/node.go:1206-1440 | Every step of a write-once run keeps the invariant that ties buffers, keys, records and tree together. |
| Transparency.DeduplicationIsInvisible | technical_manual/technical_manual.md:340-352 | After every write-once run, whichever of Release's fstat, link, lstat, rename, open and stat calls failed and whenever the process stopped and restarted, every path shows the bytes written to it: Create makes it empty, Write appends, Unlink removes it, Release changes nothing. |
| Readers.ReadersSeeTheFile | technical_manual/technical_manual.md:340-352 | A descriptor opened for reading on a file, closed or still being written, reads the bytes of the plain filesystem under that path at every later moment of a write-once run until the file is removed, the descriptor closed or the process restarted, although Release may give the path another inode. |
| Readers.ReleaseKeepsReaders | code/OptiFS/filesystem/vfs/node.go:1206-1440 | On any branch, every descriptor but the one released still leads to its inode and reads the same bytes. |
| Transparency.RecordsNameTheirFiles | code/OptiFS/filesystem/vfs/node.go:1206-1440 | Every live record of non-empty content with a Path names an existing closed file that holds its key, and whose bytes have that fingerprint. |
| Sharing.CleanRunsAreFull | code/OptiFS/filesystem/vfs/node.go:1265-1345 | In clean runs every released file has a record with its own name, and two names share an inode exactly when their content class is the same. |
| Counting.OneInodePerContent | code/OptiFS/filesystem/vfs/node.go:1265-1345 | Two files share one inode if and only if both are released, not empty and have equal fingerprints. |
| Counting.LinkCountIsReferenceCount | code/OptiFS/filesystem/vfs/node.go:1265-1345 | The link count of a released non-empty file's inode is the ReferenceCount of its content. |
| Counting.OwnershipBijection | code/OptiFS/filesystem/metadata/persistence_api.go:39-67 | Released paths and live records of non-empty content correspond one to one through (ContentHash, RefNum), and each record's Path is its owner. |
| Counting.ReferencesCountFiles | code/OptiFS/filesystem/metadata/structs.go:16-21 | All ReferenceCounts of non-empty content together are as many as the released non-empty files. |
| Counting.OneCopyStored | technical_manual/technical_manual.md:340-346 | With no file open, the inodes underneath are one for each content and one for each file that is empty or was left behind by a restart, no more. |
| Uniqueness.AttributeMapsAreDistinct | code/OptiFS/filesystem/metadata/regular_file_metadata_api.go:262-289 | In every write-once run, failures included, no two live records point to one attribute map. |
| Uniqueness.AttributesAreIndependent | code/OptiFS/filesystem/vfs/node.go:383-435 | Setattr, Setxattr or Removexattr on one path leaves Getattr and the attribute map of every other path as they were, even when both are links to one inode. |
| Uniqueness.IndependenceCondition | code/OptiFS/filesystem/vfs/node.go:1313-1345 | When Releases may fail: no attribute operation on p reaches q if and only if p has no record or q's key differs from p's. |
| Ownership.StepNotes | code/OptiFS/filesystem/vfs/node.go:928-937 | In any state: whoever is noted first for a name, by a Create or else by a Write, stays noted until the name is closed after writing or the process restarts. |
| Ownership.OwnerIsTheCreator | code/OptiFS/filesystem/vfs/node.go:928-937 | In any run: the owner that Release will find is the caller of a Create if and only if nothing was pending for the name at that Create, or the same owner was. |
| Ownership.PendingIsFirstNoted | code/OptiFS/filesystem/vfs/node.go:1150-1171 | In a write-once run it is the caller of the file's Create; if that had none, the first writer, or nobody. |
| OwnAttributes.ReleaseGivesOwnAttributes | code/OptiFS/filesystem/metadata/regular_file_metadata_api.go:262-289 | At the last Release of any file in any clean run, field by field: Getattr shows one link, the owner noted since its Create, its own size, blocks and block size, its release time, no extended attributes, and mode, access time and device as a file made at that moment has them, whether its content was new (its own fstat) or it became a link (the spare file's stat). The inode number in the record is the node's for new content, 0 for a link. |
| OwnAttributes.TwinsAreKnown | code/OptiFS/filesystem/vfs/node.go:1265-1274 | Which of the two it is: content is known if and only if another released, non-empty file was written by the same blocks. |
| OwnAttributes.AttributesPersist | technical_manual/technical_manual.md:346-352 | From its release to its removal, a file keeps its key, and its record and attributes survive everything done to other files in any clean run, restarts with files open included; but for the access time, which changes only if somebody reads through a handle that holds the file's key. |
| OwnAttributes.ReadLeavesRecord | code/OptiFS/filesystem/vfs/file.go:66-98 | In any state: a Read leaves a path's record as it was if and only if it does not go through a handle with the path's key, or there is no record, or the time is the one already there; otherwise it renews the access time and nothing else. |
| OwnAttributes.StepKeepsOwned | code/OptiFS/filesystem/vfs/file.go:66-98 | One event of a clean run, exactly: a released file that nobody operates on keeps its whole record and attribute map if and only if the event is not such a Read at a new time. |
| OwnAttributes.ReadReachesOwnFile | code/OptiFS/filesystem/vfs/file.go:66-98 | As long as the file a descriptor was opened on exists, reading through it touches no other file's record. |
| OwnAttributes.WhatIsSetStaysSet | code/OptiFS/filesystem/vfs/node.go:383-435 | What one event of a clean run set, change time and UTIME_OMIT markers included, Getattr shows at the end of the run, whatever happened to other files meanwhile; the access time, if no handle with the file's key was read through. |
| AttributeCalls.GetattrShows | code/OptiFS/filesystem/vfs/node.go:308-380 | In any state, field by field: with a record each attribute is the record's; without one the inode number, link count and length of the bytes are those of the file, by name or through a descriptor, and the rest is the kernel's answer; nothing is shown if and only if there is nothing to look at. |
| AttributeCalls.UnreleasedShows | code/OptiFS/filesystem/vfs/node.go:308-380 | In every write-once run a file not yet released shows as many bytes as the plain filesystem has under its path, through its name and through its descriptor, and one link while it is written. |
| AttributeCalls.SetattrShows | code/OptiFS/filesystem/vfs/common.go:23-251 | In any state: the reply is OK if and only if there is no record, no owner is asked for or the owner is known, and EINVAL otherwise. If OK, Getattr shows each requested attribute, the change time by what is asked back, the UTIME_OMIT marker for a missing time, and the others as before; if EINVAL, the requested mode and everything else as before. No other record and no attribute map changes. |
| AttributeCalls.SetxattrSets | code/OptiFS/filesystem/metadata/common.go:82-118 | In any state and for any flags: EEXIST if and only if XATTR_CREATE is set and the name is there; ENODATA if and only if XATTR_REPLACE alone is set and it is not; then nothing changes. Otherwise the name has the data, whatever it had before, and every other name of every map what it had. |
| AttributeCalls.RemovexattrRemoves | code/OptiFS/filesystem/metadata/common.go:121-144 | In any state: ENODATA if and only if the name is not there, and nothing changes then; otherwise that name goes and no other. |
| AttributeCalls.XattrWithoutMap | code/OptiFS/filesystem/vfs/node.go:547-661 | Without a map both calls answer ENODATA and change nothing; for the root they answer OK and change nothing. |
| AttributeCalls.RemovexattrUndoesSetxattr | code/OptiFS/filesystem/metadata/common.go:82-144 | Removing a name that has just been added restores the whole state. |
| CrashSafety.CallsAreReleaseDuplicate | code/OptiFS/filesystem/vfs/node.go:1298-1399 | The sequence of single system calls, run to its end, leaves the tree and the error of the atomic Release. |
| CrashSafety.StoppingIsSafe | code/OptiFS/filesystem/vfs/node.go:1313-1388 | Stopped after any number of system calls, every path still reads its bytes and the only extra name is one `~(TMP)` or one `~(SPARE)`. |
| CrashSafety.NothingLeftBehind | code/OptiFS/filesystem/vfs/node.go:1313-1388 | Once it has returned, on any branch, neither scratch name is left, if and only if the unlink() that removes it did not fail. |
| CrashSafety.ReleaseIsCrashSafe | code/OptiFS/filesystem/vfs/node.go:1298-1399 | Any duplicate Release of any write-once run is safe to stop after any number of its system calls, whether or not its clean-ups fail. |
| CrashSafety.ReleaseLeavesNothingBehind | code/OptiFS/filesystem/vfs/node.go:1298-1399 | When it returns, whichever calls failed, every path shows its bytes, and no scratch name is left if and only if there was nothing to link or the clean-up its branch needs did not fail. |
| Recovery.RecoveryRestoresInvariant | code/OptiFS/filesystem/metadata/persistence_api.go:352-404 | At any moment of a clean run, whatever files are open and whatever names vanish, the sweep restores the whole invariant: node entries for exactly the existing names, link counts equal to ReferenceCounts, every survivor with its node, record, attributes and bytes; a file that was being written is there without a record. |
| Recovery.RecoveryIsDeterministic | code/OptiFS/filesystem/metadata/persistence_api.go:352-404 | It gives that same store for every iteration order, and again when repeated. |
| StableInode.LookupInoIsStable | code/OptiFS/filesystem/vfs/common.go:283-357 | From Create to Unlink of a path, any two Lookups report the same inode number, although Release may swap the inode, calls of it may fail and the process may restart. |
| StableInode.LookupPanics | code/OptiFS/filesystem/vfs/common.go:343-349 | Lookup dereferences nil if and only if the path is a released file whose record is gone. |
| StableInode.CleanLookupsSucceed | code/OptiFS/filesystem/vfs/node.go:211-243 | In clean runs every Lookup of an existing file succeeds. |
| StableInode.DifferentNumbers | code/OptiFS/filesystem/vfs/node.go:186-203 | Two nodes of one device get the same number if and only if the first eight bytes of the digests of their keys agree; and different paths with one inode number or one length, and different inode numbers under one path, have different keys. |
| StableInode.NumbersClash | code/OptiFS/filesystem/vfs/node.go:186-203 | The condition is needed: on device 1 a path with inode 15 and the path with a `1` after it with inode 5 get one number, whatever the hash function. |
| StableInode.NumberIsFirstEight | code/OptiFS/filesystem/vfs/node.go:195 | The number is the first eight bytes of the digest, the first of them the most significant. |
| CallEffects.LookupOfFile | code/OptiFS/filesystem/vfs/common.go:283-375 | In any state: a missing name gives an error and changes nothing; a file never released gets an entry numbered by path, device and inode, and nothing else changes; one with a key keeps everything, and a missing record takes the process down. |
| CallEffects.LookupOfFolder | code/OptiFS/filesystem/vfs/common.go:283-375 | In any state: a folder never seen gets an entry and a record that shows what lstat() says of it, under the number in the entry, with an empty attribute map; a known one keeps everything, and without a record the reply is ENODATA. |
| CallEffects.MkdirShows | code/OptiFS/filesystem/vfs/node.go:772-857 | In any state: a new directory shows its caller as owner, mode, size and times of its stat(), the number in its entry and an empty attribute map, and no other node changes; the reply is OK if and only if the kernel makes the folder and can stat it, and otherwise no entry is made. |
| CallEffects.MkdirOverEntry | code/OptiFS/filesystem/vfs/node.go:772-857 | The same where an entry of a removed folder has stayed behind: its record is filled in anew and keeps its attribute map; which entries lead to ENODATA and which to a nil dereference. |
| CallEffects.RmdirRemoves | code/OptiFS/filesystem/vfs/node.go:1046-1105 | In any state: folder, entry and record go if and only if the kernel agrees. |
| CallEffects.UnlinkRemoves | code/OptiFS/filesystem/vfs/node.go:967-1043 | In any state: the name, its entry and exactly the record under its key go if and only if the kernel agrees; nothing goes from the empty-file class. |
| CallEffects.CreateMakes | code/OptiFS/filesystem/vfs/node.go:881-964 | In any state: the name leads to its inode, empty if new or cut off, the handle to that inode with the key of the path, and the entry is new unless the path has a key; OK without any of these if open() fails, OK and the file alone if fstat() fails; a nil dereference if and only if the path has a key without a record. |
| CallEffects.OpenMakes | code/OptiFS/filesystem/vfs/node.go:439-486 | In any state: the handle has the path's key of that moment, bytes are cut off if and only if asked for, and the reply is OK if and only if the kernel opens the file. |
| CallEffects.HardLinkMakes | code/OptiFS/filesystem/vfs/node.go:1727-1776 | In any state: the exact reply, a second name for the same inode, entry, record and attributes, and the whole state as before on every error path. |
| CallEffects.ParentsAreStamped | code/OptiFS/filesystem/vfs/node.go:1576-1586 | In any state, for Create, Unlink, Rmdir, Link and Rename: modification and change time of the directories around the names become the time of the call if and only if it gets that far, a failed rename included, and no other directory changes. |
| CallEffects.OpendirRenews | code/OptiFS/filesystem/vfs/node.go:246-283 | In any state: the access time of that directory's record, and nothing else. |
| CallEffects.ReadRenews | code/OptiFS/filesystem/vfs/file.go:66-98 | In any state: the access time of the record under the handle's key, and nothing else; EBADFD without a handle. |
| CallEffects.WriteMakes | code/OptiFS/filesystem/vfs/node.go:1117-1192 | In any state: the digest of the whole block goes to the buffer, with its owner kept or taken from the caller; the inode has the bytes taken, byte by byte with zeros in a gap, if and only if the write lands. |
| CallEffects.WriteLeavesRecord | code/OptiFS/filesystem/vfs/node.go:1174-1189 | In any state: a Write leaves a path's record as it was if and only if it does not land through a handle with the path's key, or there is no record, or the time is the one already there; otherwise it renews the modification time and nothing else. |
| CallEffects.RewriteShows | code/OptiFS/filesystem/vfs/node.go:1401-1434 | In any state, after a file with a record was rewritten with new content and released: Getattr shows mode, owner and inode number of before, size, links, blocks and access time of the file as it is, `now` for modification and change, and the extended attributes of before. |
| CallEffects.FailedStatLeaks | code/OptiFS/filesystem/vfs/node.go:1401-1410 | If fstat() fails there: an error, the descriptor still open without a handle, and a record at its defaults. |
| CallEffects.ReleaseReplies | code/OptiFS/filesystem/vfs/node.go:1206-1440 | In any state: the reply of Release, from the names in the tree and the calls that fail. |
| CallEffects.ReadReleaseCloses | code/OptiFS/filesystem/vfs/node.go:1213-1223 | In any state: closing without write intent gives up handle and descriptor and nothing else. |
| Renames.RenameMovesLookup | code/OptiFS/filesystem/vfs/node.go:1552-1575 | In every sequential run, renaming a file or directory with success, whatever the new path led to (nothing, a file, an empty folder, a node it changes places with): the new path has the StableAttr, entry, record and attributes the old one had, nothing is left under the old one, the content map is untouched, and every other lookup is as before up to the parents' times. |
| Renames.RenameReply | code/OptiFS/filesystem/vfs/node.go:1527-1591 | In any state: exactly when a rename succeeds and what error it gives otherwise; one that fails changes nothing but the parents' times. |
| Renames.RenameOntoItself | code/OptiFS/filesystem/vfs/node.go:1552-1575 | A file renamed onto itself keeps its lookup; a directory loses its record, which is copied to the new name and then taken out under the old. |
| Renames.RenameBackRestores | code/OptiFS/filesystem/vfs/node.go:1552-1575 | In every sequential run, renaming back restores both path-keyed maps up to the parents' times. |
| Renames.RenameBackRestoresTree | code/OptiFS/filesystem/vfs/node.go:1535-1551 | Underneath, renaming back restores the tree. |
| XAttrListing.SplitUndoesJoin | code/OptiFS/filesystem/metadata/common.go:146-186 | Splitting a listing of NUL-free names at its NULs gives the names back. |
| XAttrListing.IncreasingIsUnique | code/OptiFS/filesystem/metadata/common.go:146-186 | Only one strictly increasing list has a given set of names. |
| XAttrListing.ListCustomXAttr | code/OptiFS/filesystem/metadata/common.go:146-186 | The method answers, through a buffer modified in place, as `Answer` says for the sorted names of the map. |
| XAttrListing.ListingRoundTrip | code/OptiFS/filesystem/metadata/common.go:146-186 | Below 2^32 bytes: the size is the sum of (length + 1), the first size bytes split into exactly the names, bytes past them are untouched, and for a non-empty map ERANGE occurs if and only if the buffer is shorter. |
| XAttrListing.ListingIsDeterministic | code/OptiFS/filesystem/metadata/common.go:146-186 | Size, error and bytes depend on the set of names alone. |
| XAttrListing.OverflowIsNotNoticed | code/OptiFS/filesystem/metadata/common.go:146-186 | The exact condition: for a map with names, every buffer shorter than 2^32 bytes is refused exactly when the listing does not fit, if and only if the listing is shorter than 2^32 bytes. |
| XAttrListing.OverflowIsReached | code/OptiFS/filesystem/metadata/common.go:146-186 | There are names of 28 bytes each for which it fails: a buffer that is too short gets a cut-off listing and no error. |
| Scenarios.TwoCopiesShareAnInode | code/OptiFS/filesystem/filesystem_test.go:124-234 | A clean run exists in which two users' files with the same content end up on one inode with link count 2. |
| Scenarios.StoppedWhileWriting | code/OptiFS/filesystem/metadata/persistence_api.go:352-404 | A clean run in which the process stops while a file is being written: after the restart the file shows what had been written, has no record, and can be looked up. |
| Scenarios.StaleHandleRead | code/OptiFS/filesystem/vfs/file.go:66-98 | A clean run in which a file is opened, unlinked, and its key given to another file: reading the file that is gone renews the other's access time. |
| Scenarios.FailedLinkMakesLookupPanic | code/OptiFS/filesystem/vfs/common.go:343-349 | A write-once run with one failed link() after which a Lookup of the file dereferences nil. |
| Scenarios.FailedLinkReissuesKey | code/OptiFS/filesystem/vfs/node.go:1313-1322 | A write-once run with one failed link() ends with two paths holding the key of one live record: the key withdrawn from the map stays in the node entry and is issued again. |
| Scenarios.FailedLinkCausesCrosstalk | code/OptiFS/filesystem/vfs/node.go:1313-1322 | In that run an attribute operation on one of the two paths changes what the other shows. |
| Limits.WriteReachesLinks | code/OptiFS/filesystem/vfs/node.go:1117-1192 | In any state: a Write changes exactly the names that lead to the descriptor's inode, if the kernel takes bytes that differ; so every other name keeps its bytes if and only if the call fails, no other name leads there, or the bytes are there already. |
| Limits.TruncationReachesLinks | code/OptiFS/filesystem/vfs/node.go:439-486 | The same for opening with O_TRUNC, which empties every link. |
| Limits.RewriteReachesCopies | code/OptiFS/filesystem/vfs/node.go:1117-1192 | After any clean run: opening a released non-empty file and writing to it changes another user's file if and only if that file was written by the same blocks and the write changes any byte. |
| Limits.ReleaseKeepsBytes | code/OptiFS/filesystem/vfs/node.go:1206-1440 | In any state, the whole of Release with working clean-ups: users see what they saw before if and only if nothing was open for writing, the content is new, linking gives up, or the path exists, is not a link to the file its content's newest record names, and that file holds the same bytes; otherwise exactly what is shown instead. |
| Limits.ReleaseLeavesRecord | code/OptiFS/filesystem/vfs/node.go:1256-1434 | In any state, closing a written file leaves it with a record if and only if its content is new, or the link was made and it had none; and with one that bears its own name if and only if moreover fstat(), or the spare file's open() and stat(), succeed and an old record that is continued bore that name. |
| Limits.ReleaseLeavesTmp | code/OptiFS/filesystem/vfs/node.go:1313-1351 | In any state in which it was free, `~(TMP)` is there after the whole Release if and only if a link was made and either its clean-up failed or the record names a link to the very file. |
| Limits.RenameKeepsNames | code/OptiFS/filesystem/vfs/node.go:1527-1589 | A rename leaves every record with its owner's name if and only if what is moved has no named record, both names are the same, the exchange is not allowed, or the kernel refuses. |
| Limits.RenameKeepsEntries | code/OptiFS/filesystem/vfs/node.go:1527-1589 | A rename leaves node entries for exactly the names that exist if and only if it is refused, goes nowhere, or moves one name only: not a folder with anything in it, not an exchange, not a file over another link to it. |
| Limits.RenameShows | code/OptiFS/filesystem/vfs/node.go:1527-1589 | What users see of renaming a file is what they asked for if and only if the target is not a link to it already; if it is, both names stay, the old one without an entry. |
| Limits.RenameOverCopy | code/OptiFS/filesystem/vfs/node.go:1527-1589 | So after any clean run: renaming a file over another one works if and only if they are not copies of each other. |
| Limits.UnlinkKeepsRecord | code/OptiFS/filesystem/vfs/node.go:1010-1031 | Unlinking one file leaves the record of another as it was if and only if there is none, the kernel refuses, the unlinked file has no key of non-empty content, or the two keys differ. |
| Limits.HardLinkSharesKey | code/OptiFS/filesystem/vfs/common.go:254-280 | Source and target of a hard link have attributes of their own if and only if no link was made or the source has no record. |
| Limits.HardLinkKeepsNames | code/OptiFS/filesystem/vfs/common.go:254-280 | If every record bears the name of its file, a hard link leaves it so if and only if no link was made or the source has no named record. |
| AttributeMaps.ReleaseSharesMap | code/OptiFS/filesystem/vfs/node.go:1401-1434 | In a state where all live records have attribute maps of their own, a Release leaves them so if and only if it does not continue, with content that is new, the record of a file that has a map. |
| AttributeMaps.StepSharesMap | code/OptiFS/filesystem/metadata/regular_file_metadata_api.go:202-230 | No other event of a sequential run, rename and hard link included, makes two records share a map. |
| AttributeMaps.MapsStayDistinct | code/OptiFS/filesystem/metadata/regular_file_metadata_api.go:202-230 | So in every sequential run without such a Release all live records have maps of their own. |
| AttributeMaps.RunsKeepHeap | code/OptiFS/filesystem/metadata/structs.go:26-45 | In every sequential run records point to maps that exist. |
| Counterexamples.RenameLosesBytes | code/OptiFS/filesystem/vfs/node.go:1313-1322 | A sequential run in which no call reports an error and bytes are lost: x is written to a, a is renamed to b, y is written to a, x is written to c; c then shows y, because the record of x still names a. |
| Counterexamples.WriteReachesTheCopy | code/OptiFS/filesystem/vfs/node.go:1117-1192 | A clean run ends with two copies; one is opened again and written to; the other, which nobody touched, shows it. |
| Counterexamples.UnlinkedFileComesBack | code/OptiFS/filesystem/vfs/node.go:1313-1345 | A run without errors: a file unlinked while it is open, whose content is known, is back under its name once it is closed, without a node entry. |
| Counterexamples.BlockOrderIsNotPlace | code/OptiFS/filesystem/vfs/node.go:1146-1172 | A run without errors: x then y written to a in order and to b back to front have one fingerprint, and b shows a's bytes once it is closed. |
| Counterexamples.ShortWriteSpreads | code/OptiFS/filesystem/vfs/node.go:1173-1180 | A run without errors: a pwrite() takes part of a block, whose whole has been hashed; another file, written in full, is cut off the same way once it is closed. |
| Counterexamples.RenameOverCopyKeepsBoth | code/OptiFS/filesystem/vfs/node.go:1527-1589 | Two copies, one renamed over the other: the call succeeds, both names stay, the old one has no entry. |
| Counterexamples.RewriteLeavesTmp | code/OptiFS/filesystem/vfs/node.go:1336-1351 | A run of one file, written, reopened and written with the same block: `~(TMP)` is left, the file has no record, and its next Lookup dereferences nil. |
| Counterexamples.RewriteSharesMap | code/OptiFS/filesystem/vfs/node.go:1413-1415 | A run of one file, written, reopened and written with another block: two live records point to one attribute map. |
| Counterexamples.UnlinkTakesLinkedRecord | code/OptiFS/filesystem/vfs/node.go:1026-1031 | A run of one file and a hard link to it: their attributes are not independent, and once the file is unlinked a Lookup of the link dereferences nil. |
| Counterexamples.FailedCreateKeepsOwner | code/OptiFS/filesystem/vfs/node.go:921-937 | A run in which one user's Create fails at open() and another user's Create of the name succeeds: the file belongs to the first user. |
| MetadataStore.MapEntryMetadata.CopyStat | code/OptiFS/filesystem/metadata/common.go:14-52 | Field by field, the record becomes what stat and the stable attributes say. |
| MetadataStore.MapEntryMetadata.MigrateRegular | code/OptiFS/filesystem/metadata/regular_file_metadata_api.go:202-230 | Name, owner, mode, change time and attribute map (shared, not copied) from the old record, the rest from fstat. |
| MetadataStore.MapEntryMetadata.MigrateDuplicate | code/OptiFS/filesystem/metadata/regular_file_metadata_api.go:233-259 | The same for a duplicate; Ino, Gen and Mtim stay. |
| MetadataStore.MapEntryMetadata.InitialiseDuplicate | code/OptiFS/filesystem/metadata/regular_file_metadata_api.go:262-289 | Size and blocks from the link, owner from the caller, the rest from the spare file, with a new attribute map. |
| MetadataStore.MapEntryMetadata.FillAttr | code/OptiFS/filesystem/metadata/general_api.go:23-44 | What is copied out, cut to the widths of fuse.Attr. |
| MetadataStore.MetadataStore.constructor | code/OptiFS/filesystem/metadata/metadata.go:12-26 | The three maps start out empty. |
| MetadataStore.MetadataStore.UpdateTime | code/OptiFS/filesystem/metadata/general_api.go:72-96 | Assigns the times that are given to this record, and to no other place of the store. |
| MetadataStore.MetadataStore.UpdateOwner | code/OptiFS/filesystem/metadata/general_api.go:48-68 | The same for the owner. |
| MetadataStore.MetadataStore.UpdateMode | code/OptiFS/filesystem/metadata/general_api.go:164-180 | The same for the mode. |
| MetadataStore.MetadataStore.UpdateSize | code/OptiFS/filesystem/metadata/general_api.go:124-140 | The same for the size. |
| MetadataStore.MetadataStore.UpdateAllFromStat | code/OptiFS/filesystem/metadata/common.go:14-52 | Fills a record in from stat and gives it an attribute map unless it has one. |
| MetadataStore.MetadataStore.IsContentHashUnique | code/OptiFS/filesystem/metadata/regular_file_metadata_api.go:25-46 | True if and only if the hash is zero or not in the map. |
| MetadataStore.MetadataStore.RetrieveRecent | code/OptiFS/filesystem/metadata/regular_file_metadata_api.go:50-68 | The descending loop terminates on every entry with a reference at or below its counter, and on one whose counter is zero, and returns the very record of the largest such reference. |
| MetadataStore.MetadataStore.LookupRegularFileMetadata | code/OptiFS/filesystem/metadata/regular_file_metadata_api.go:71-85 | The record of a live (hash, reference), ENODATA otherwise. |
| MetadataStore.MetadataStore.LookupRegularFileEntry | code/OptiFS/filesystem/metadata/regular_file_metadata_api.go:90-102 | The entry of a hash, ENODATA otherwise. |
| MetadataStore.MetadataStore.RemoveRegularFileMetadata | code/OptiFS/filesystem/metadata/regular_file_metadata_api.go:106-129 | Removes the record and, with the last one, its entry; refuses the zero hash, reference 0 and anything not live. |
| MetadataStore.MetadataStore.CreateRegularFileMapEntry | code/OptiFS/filesystem/metadata/regular_file_metadata_api.go:293-316 | The entry of a hash, made if there is none. |
| MetadataStore.MetadataStore.CreateRegularFileMetadata | code/OptiFS/filesystem/metadata/regular_file_metadata_api.go:320-338 | A new record under the next reference, both counters one up with wrap-around. |
| MetadataStore.MetadataStore.InitialiseNewDuplicateFileMetadata | code/OptiFS/filesystem/metadata/regular_file_metadata_api.go:262-289 | A duplicate's record is filled in with an attribute map that nothing else points to. |
| MetadataStore.MetadataStore.StoreRegFileInfo | code/OptiFS/filesystem/metadata/persistence_api.go:21-27 | Replaces the path's node entry by one for a regular file. |
| MetadataStore.MetadataStore.StoreDirInfo | code/OptiFS/filesystem/metadata/persistence_api.go:30-36 | Replaces the path's node entry by one for a directory. |
| MetadataStore.MetadataStore.UpdateNodeInfo | code/OptiFS/filesystem/metadata/persistence_api.go:39-67 | Assigns the given fields of an existing node entry in place; an unknown path is ignored. |
| MetadataStore.MetadataStore.RetrieveNodeInfo | code/OptiFS/filesystem/metadata/persistence_api.go:70-85 | The node entry of a path, ENODATA otherwise. |
| MetadataStore.MetadataStore.RemoveNodeInfo | code/OptiFS/filesystem/metadata/persistence_api.go:88-98 | Removes the node entry of a path and nothing else. |
| MetadataStore.MetadataStore.InsureIntegrity | code/OptiFS/filesystem/metadata/persistence_api.go:352-404 | The collecting loop and the deleting loop, over whatever order the map yields, come to the one sweep. |
| MetadataStore.MetadataStore.CreateDirEntry | code/OptiFS/filesystem/metadata/directory_metadata_api.go:12-20 | A new record with a new attribute map under the path. |
| MetadataStore.MetadataStore.LookupDirMetadata | code/OptiFS/filesystem/metadata/directory_metadata_api.go:24-35 | The record of a directory, ENODATA otherwise. |
| MetadataStore.MetadataStore.UpdateDirEntry | code/OptiFS/filesystem/metadata/directory_metadata_api.go:39-54 | Fills the record of a directory in from stat, ENODATA if there is none. |
| MetadataStore.MetadataStore.RemoveDirEntry | code/OptiFS/filesystem/metadata/directory_metadata_api.go:59-65 | Removes the record of a directory and nothing else. |
| MetadataStore.MetadataStore.SetCustomXAttr | code/OptiFS/filesystem/metadata/common.go:82-118 | Sets one name in one map as the flags allow; ENODATA, EEXIST as in the code. |
| MetadataStore.MetadataStore.RemoveCustomXAttr | code/OptiFS/filesystem/metadata/common.go:121-144 | Removes one name from one map, ENODATA if it is not there. |
| Vfs.OptiFS.constructor | code/OptiFS/filesystem/vfs/node.go:1108-1115 | The filesystem starts out empty. |
| Vfs.OptiFS.Lookup | code/OptiFS/filesystem/vfs/node.go:211-243 | State and reply equal `Session.LookupPath`: an existing name gets the node entry it has or, if never released, a recomputed one; a missing name changes nothing. The theorems above are about that function, and so in the rows below. |
| Vfs.OptiFS.Getattr | code/OptiFS/filesystem/vfs/node.go:308-380 | The custom record when there is one; otherwise lstat, or fstat when the request comes through an open handle. |
| Vfs.OptiFS.SetAttributes | code/OptiFS/filesystem/vfs/common.go:23-251 | The branch with custom metadata, the only one Setattr calls it for: its early exit for an unknown owner, and the change time renewed only when no attributes are asked back. |
| Vfs.OptiFS.Setattr | code/OptiFS/filesystem/vfs/node.go:383-435 | State and reply equal `Session.Setattr`: only the record behind the path is assigned to; a path without one is left alone and reported as success. |
| Vfs.OptiFS.Open | code/OptiFS/filesystem/vfs/node.go:439-486 | State and reply equal `Session.OpenFile`: the handle carries the key the path has at that moment. |
| Vfs.OptiFS.Setxattr | code/OptiFS/filesystem/vfs/node.go:547-602 | State and reply equal `Session.Setxattr`: one name in the one map the path's record points to; the root ignores it. |
| Vfs.OptiFS.Removexattr | code/OptiFS/filesystem/vfs/node.go:605-661 | State and reply equal `Session.Removexattr`, likewise. |
| Vfs.OptiFS.Listxattr | code/OptiFS/filesystem/vfs/node.go:664-719 | The listing of the path's attribute map, ENODATA without one, nothing for the root. |
| Vfs.OptiFS.Mkdir | code/OptiFS/filesystem/vfs/node.go:772-857 | State and reply equal `Session.MakeDir`: folder, node entry, record, owner and attribute map are made together; a failing stat() leaves the folder alone. |
| Vfs.OptiFS.Create | code/OptiFS/filesystem/vfs/node.go:881-964 | State and reply equal `Session.Create`: inode, handle, node entry without a key, remembered creator, O_TRUNC on a name that exists; the error of open() is lost. |
| Vfs.OptiFS.Unlink | code/OptiFS/filesystem/vfs/node.go:967-1043 | State and reply equal `Session.Unlink`: the maps change only if the kernel's unlink() succeeded, and then lose exactly that path and its reference. |
| Vfs.OptiFS.Rmdir | code/OptiFS/filesystem/vfs/node.go:1046-1105 | State and reply equal `Session.RemoveDir`: node entry and record of the folder go, if the kernel agreed. |
| Vfs.OptiFS.Write | code/OptiFS/filesystem/vfs/node.go:1117-1192 | State and reply equal `Session.Write`: the digest is appended to the path's buffer before the bytes are written, and stays there if writing fails. |
| Vfs.OptiFS.Read | code/OptiFS/filesystem/vfs/file.go:66-98 | State and reply equal `Session.Read`: the record found by the key in the handle gets a new access time. |
| Vfs.OptiFS.Opendir | code/OptiFS/filesystem/vfs/node.go:246-283 | State and reply equal `Session.OpenDir`: the directory's record gets a new access time once the kernel has opened it. |
| Vfs.OptiFS.ReleaseDuplicate | code/OptiFS/filesystem/vfs/node.go:1298-1399 | State and reply equal `Session.ReleaseDuplicate`: link, lstat, rename and spare file with every early exit, its error and its clean-up. |
| Vfs.OptiFS.ReleaseUnique | code/OptiFS/filesystem/vfs/node.go:1401-1434 | State and reply equal `Session.ReleaseUnique`: the new record is filled in from fstat, or stays at its defaults with the descriptor open when that fails. |
| Vfs.OptiFS.Release | code/OptiFS/filesystem/vfs/node.go:1206-1440 | State and reply equal `Session.Release`: the whole of Release, step by step over buffers, maps, records, handles and tree. |
| Vfs.OptiFS.Rename | code/OptiFS/filesystem/vfs/node.go:1527-1658 | State and reply equal `Session.RenamePath`, from the look-up of the node on, RENAME_EXCHANGE included: a directory without a record ends it before the parents' times are set. |
| Vfs.OptiFS.Link | code/OptiFS/filesystem/vfs/node.go:1727-1776 | State and reply equal `Session.HardLink`: the link is taken back when its source is unknown or its name is known already. |
| Vfs.OptiFS.HandleHardlinkInstantiation | code/OptiFS/filesystem/vfs/common.go:254-280 | The new path gets the key and StableAttr of its source, ENOENT and EEXIST as in the code. |
| Vfs.OptiFS.HandleNodeInstantiation | code/OptiFS/filesystem/vfs/common.go:283-375 | A new node gets a new StableAttr and record, a known one keeps its own, a released file without a record panics. |
| Vfs.OptiFS.Mount | code/OptiFS/filesystem/metadata/persistence_api.go:352-404 | A restart at any moment after names have vanished, ending in the sweep. |
| Vfs.OptiFS.Serve | code/OptiFS/filesystem/vfs/node.go:211-1776 | Every event of a run moves the running state exactly as `Respond` moves the state on values. |

## Left out

- Permission checks and the sysadmin group: every call is taken as already authorised.
- Thread interleavings inside one call, and the lock gaps between decrement and delete in RemoveRegularFileMetadata and inside Release: operations are atomic, except for the system calls of a duplicate Release in `CrashSafety`.
- Saving and loading the maps with gob, the periodic saver, flags and logging: a restart keeps the maps as they are.
- BLAKE3: an uninterpreted function, with the hypothesis stated above.
- The replacement of inode number 0 by go-fuse: the record of a linked file has inode number and generation 0 (code/OptiFS/filesystem/metadata/regular_file_metadata_api.go:262-289), which Getattr answers; what go-fuse makes of it is not part of this model.
- Mknod and Symlink, which make a kernel node and instantiate it as HandleNodeInstantiation does for a file (Mknod sets the parent's times too): the tree here has regular files and folders only.
- FUSE plumbing, Flush, Fsync, file locks, Statfs, Readdir, Readlink, Access, Getxattr: pass-through calls or single look-ups.
- The bytes of a Read are fetched by go-fuse through the descriptor after Read has returned; `Readers` says what they are.
- The root is modelled in Setxattr, Removexattr and Listxattr, which ignore it; elsewhere it is a directory like others.
- Errors of close(), and what SetAttributes would do without custom metadata: nothing calls it so.
- Vfs.OptiFS.SetAttributes: models the branch with custom metadata only, as Setattr ignores a request for a node without any.
- UpdateLocation, UpdateLinkCount, UpdateMemoryPadding, UpdateGenNumber, UpdateFullRegularFileMetadata and the field UnderlyingInode: nothing modelled here uses them.
- The entries of hashHashMap are kept as map values; nothing else in the source points to one.
- MetadataStore.MetadataStore.RetrieveRecent: requires a reference at or below the counter, because on an entry without one the source's loop runs on; `RecentScan.ScanStops` says exactly when, and `SequentialRuns.RecentIsDefined` that sequential runs never get there.
- Vfs.OptiFS.Release: requires that the scan of RetrieveRecent stops and that the next reference is not 0, for the same reason; both follow from well-formed maps with room in the counters.
- Vfs.OptiFS.Serve: does not say which of the objects in use afterwards are newly allocated, so it is stated for one event at a time.
- Vfs.OptiFS.Touch: the parent's record is looked up when its times are set and not on entry; nothing in between replaces it.
- Renames.RenameMovesLookup: requires that the path has a directory record if and only if its entry is a directory's, as the entries that the code makes have; a directory without a record has none to move.
- Renames.RenameBackRestores: the same. The second parent of a rename is the key under which the code looks its record up, a path relative to the mount point (code/OptiFS/filesystem/vfs/node.go:1503), so there its times may be set on another directory or on none.
- SequentialRuns.StoreWellFormed: runs have room in the uint32 and uint64 counters before each Release; wrap-around itself is modelled.
- Where the code differs from what its comments say, the model follows the code: Create loses the error of open() and reports success without a node (code/OptiFS/filesystem/vfs/node.go:921-926); a time that is not given is stored as the UTIME_OMIT marker, and the change time is not renewed when attributes are asked back (code/OptiFS/filesystem/vfs/common.go:23-251); the number called unique is not (code/OptiFS/filesystem/vfs/node.go:200; `StableInode.NumbersClash`); a failing fstat() in Release leaks the descriptor (code/OptiFS/filesystem/vfs/node.go:1401-1410); a duplicate rewrite removes the new reference instead of the old (code/OptiFS/filesystem/vfs/node.go:1346-1351).

# kin-vfs in Dafny

kin-vfs serves a graph-owned repository as files and folds writes back into the graph. This project
models the parts where correctness is decided, and proves what each promises over every input, run or
interleaving.

| file | part |
|---|---|
| `VfsPaths.dfy` | byte-exact paths, their components and the directory order |
| `Membership.dfy`, `TreeContract.dfy`, `TreeLookup.dfy` | a flat artifact map becomes a validated directory index with membership hashes |
| `Succession.dfy`, `DaemonProvider.dfy`, `Requests.dfy` | which snapshot replaces which, verified bodies, the request loop |
| `Staging.dfy`, `AdmissionProtocol.dfy`, `AdmissionLimits.dfy`, `AdmissionProgress.dfy` | staged writes and their admission into the graph |
| `Overlay.dfy` | graph truth with staged paths in front of it |
| `ReadStability.dfy`, `StraddlingReads.dfy`, `StabilityLimits.dfy` | reads across an admission, over the protocol's own runs |
| `ReadCache.dfy`, `Lru.dfy`, `ByteRanges.dfy` | the version-scoped read cache and the range cuts |
| `Containment.dfy` | where a projected write may land, against the kernel's own resolution |
| `PathMap.dfy`, `Inodes.dfy`, `WireFrame.dfy` | host paths and graph keys, synthetic inodes, the write frame |
| `FuseHandles.dfy` | dirty FUSE handles and the wait for the graph |
| `Wrappers.dfy`, `ByteStrings.dfy` | results, byte order, big-endian integers |

`dafny verify dfyconfig.toml` checks everything.

## How the parts are modelled

- Objects that change in place are classes (`KinDaemonWriter`, `KinDaemonProvider`, `VfsCache`,
  `VirtualFileTree`, `KinFuseFs`); loops are loops; concurrency is a state machine whose runs are
  arbitrary event sequences.
- The protocol and the writer class share the functions that mark, snapshot, clear and record a failure, so
  what is proved of one step of the protocol is proved of the class's staging.
- The admission protocol interleaves host effects, marks, snapshots, the daemon's reads, publication,
  acknowledgement and failure, for any number of mutators and admissions. A reply can be lost while the
  commit goes on. Revisions are addresses that are handed out again once nothing refers to them. Three mode
  flags switch off, one at a time, the assumptions the results need: a snapshot that holds its revisions,
  a daemon that runs one commit at a time, and no host effect between a restat and its mark. For each a
  reachable run shows that it is needed.
- SHA-256 is an uninterpreted function. Where equality of digests is used, the two inputs concerned are
  assumed not to collide, nothing more.
- A filesystem is a map from canonical paths to file, directory or symlink. `canonicalize` and
  `symlink_metadata` are functions of it and of the kernel's symlink limit.
- Provider answers, host refusals, clocks, polls, endpoints and server responses are parameters, so every
  result holds for all of them.

## Findings

Where a natural reading of the promise is not what the code does, the code is modelled as it is, and the
exact condition is proved.

- Degraded health can name no path when two admissions overlap (`OverlappingFailureNamesNothing`): exactly
  when nothing is staged any more (`FailureNamesWhatIsStaged`). With one admission at a time it cannot
  (`FreshWriterNamesAPath`).
- A writer degraded with nothing staged, nothing to mark and no admission in flight stays degraded until
  another write (`StuckIsReachable`); from every other state it can still settle (`CanSettleIff`).
- A staged removal does not answer the same after admission when the path came back as a directory
  (`RemovedFileComesBackAsDirectory`); it does exactly when the working copy has no file below it
  (`RemovalIsStableIff`).
- A mark made from a restat that another writer has overtaken stages an outdated length, and the overlay
  cuts the file there until the admission (`StaleMarkCutsTheFile`); the exact condition is in
  `ReadsAreStableIff`.
- A read of a staged file looks at the staging area twice. An acknowledgement between the looks makes it
  answer not-found for a file that exists all along (`StraddlingReadFindsNothing`), and only that does
  (`StraddlingReadIff`).
- A whole-file replacement whose truncate is refused after its write was accepted answers an error and
  leaves the new bytes on the old tail, staged for admission (`RefusedTruncateMixes`). It leaves exactly the
  data when the old file was no longer (`TailSurvives`), and nothing changed in exactly the cases of
  `FailedReplacementChangesNothingIff`.
- The overlay lists a directory that is itself staged as removed while the graph still has it
  (`RemovedDirectoryListsAndDoesNotExist`, and exactly then: `RemovedDirectoryStillLists`).
- Over several roots success does not depend on their order, but the kind of failure does
  (`FailureKindDependsOnOrder`); every order gives the same answer exactly when there is at most one cause
  (`OrderIsIrrelevantIff`).
- A cached range whose end wraps at 2^64 panics (`CachedSliceIsRange`).
- `VirtualFileTree` with root `/` maps `/` and `//a` but not `/a`; the graph key mapping maps all three
  (`SlashRootMapsLess`). The paths it does map are exactly those of `TreeMappingAnswersIff`.
- A FUSE write that arrives without an open handle is not tracked, so no `flush` waits for it
  (`WriteThenClose`, both ways).
- A range that starts at or past the advertised size is empty even where the cached body is longer
  (`ShortSizeEmptiesTheRange`, and exactly then: `DaemonRangeIsCutIff`).

## Model

| member | source | states |
|---|---|---|
| `VfsPaths.FromBytes` | crates/kin-vfs-core/src/path.rs:86-99 | accepts exactly the valid paths, returns their bytes unchanged, and names the first fault of the others |
| `VfsPaths.NameFromBytes` | crates/kin-vfs-core/src/path.rs:232-243 | accepts exactly the valid names, returns their bytes unchanged, and names the fault of the others |
| `VfsPaths.PathsAreSpellings` | crates/kin-vfs-core/src/path.rs:86-99 | a byte string is a valid path if and only if it is the slash-join of some sequence of valid components |
| `VfsPaths.PathOfNames` | crates/kin-vfs-core/src/path.rs:42-53 | every sequence of valid components spells a valid path whose components are that sequence |
| `VfsPaths.NamesOfPath` | crates/kin-vfs-core/src/path.rs:121-126 | every valid path is the spelling of its components, and `components` yields exactly them |
| `VfsPaths.ParentThenJoin` | crates/kin-vfs-core/src/path.rs:128-161 | off the root, joining `parent` and `file_name` gives the path back |
| `VfsPaths.JoinThenParent` | crates/kin-vfs-core/src/path.rs:128-161 | `parent` and `file_name` of a join are what was joined |
| `VfsPaths.AncestorIsPrefix` | crates/kin-vfs-core/src/path.rs:164-175 | `is_ancestor_of` is strict prefix on component sequences, both ways |
| `VfsPaths.StripLeavesRest` | crates/kin-vfs-core/src/path.rs:178-187 | what `strip_dir_prefix` leaves is the valid spelling of the remaining components |
| `VfsPaths.ChainEnumeratesAncestors` | crates/kin-vfs-core/src/path.rs:139-175 | iterating `parent` visits exactly the ancestors |
| `VfsPaths.ChainEndsAtRoot` | crates/kin-vfs-core/src/path.rs:139-148 | the parent chain has one element per component, strictly shortens and ends at the root |
| `VfsPaths.ChildIsUnique` | crates/kin-vfs-core/src/path.rs:150-187 | a path is at or below exactly one child of each of its ancestors, the one its first remaining component names |
| `VfsPaths.DescendantsAreContiguous` | crates/kin-vfs-daemon/src/tree_contract.rs:215-232 | in the byte order of the artifact map, whatever lies between two descendants of a directory is a descendant of it |
| `VfsPaths.CollidingPathsNeedNotBeNeighbours` | crates/kin-vfs-daemon/src/tree_contract.rs:118-124 | a file and the contents of a directory of the same name need not be adjacent in byte order, so a collision is not visible from neighbours |
| `Membership.StreamInjective` | crates/kin-vfs-daemon/src/tree_contract.rs:250-351 | equal hashed byte streams imply the same directory and the same ordered descendants with equal path, id, entry, size and mtime |
| `Membership.RecordsInjective` | crates/kin-vfs-daemon/src/tree_contract.rs:262-290 | the concatenated descendant records, followed by any eight-byte count, determine the descendants |
| `Membership.PinnedBytes` | crates/kin-vfs-daemon/src/tree_contract.rs:274-287 | the tag byte of each kind of entry, the executable flag, and the length before a gitlink target |
| `Membership.DomainIsText` | crates/kin-vfs-daemon/src/tree_contract.rs:253-253 | the domain separator is that text and a NUL |
| `TreeContract.FromSnapshot` | crates/kin-vfs-daemon/src/tree_contract.rs:89-133 | succeeds exactly for a valid identity with distinct, valid, non-root paths none of which is an ancestor of another; then it carries exactly those artifacts and their index |
| `TreeContract.BuildDirectoryIndex` | crates/kin-vfs-daemon/src/tree_contract.rs:210-242 | an accepted map yields the full index: the directories are the root and all proper ancestors, each with its listing and the hash of its stream; it fails only for a kind clash or too many descendants |
| `TreeContract.FeedAncestors` | crates/kin-vfs-daemon/src/tree_contract.rs:220-232 | one artifact is fed to exactly the builders of its ancestors, once each |
| `TreeContract.BuildBuilders` | crates/kin-vfs-daemon/src/tree_contract.rs:215-232 | after the pass every ancestor holds a builder fed with exactly its descendants in path order |
| `TreeContract.FeedHashes` | crates/kin-vfs-daemon/src/tree_contract.rs:262-290 | the bytes a builder has hashed are the header and the records of its descendants, in order |
| `TreeContract.FeedKinds` | crates/kin-vfs-daemon/src/tree_contract.rs:292-313 | the child every descendant is reached through is listed, as a directory or with the type of the artifact |
| `TreeContract.FeedListsOnly` | crates/kin-vfs-daemon/src/tree_contract.rs:292-313 | nothing else is listed |
| `TreeContract.FeedFails` | crates/kin-vfs-daemon/src/tree_contract.rs:299-312 | feeding fails only where a child is both an artifact and an ancestor of one, or the count overflows |
| `TreeContract.FinishedLists` | crates/kin-vfs-daemon/src/tree_contract.rs:316-340 | a finished listing is strictly sorted, names exactly the children something is at or below, and types them |
| `TreeContract.CollectPaths` | crates/kin-vfs-daemon/src/tree_contract.rs:96-114 | the collected map holds exactly the artifacts, at distinct paths; only an unacceptable document is refused |
| `TreeContract.IndexPaths` | crates/kin-vfs-daemon/src/tree_contract.rs:116-124 | the index is returned exactly when no artifact is the root or lies above another, and there are fewer than 2^64 |
| `TreeContract.AcceptableIsPrefixFree` | crates/kin-vfs-daemon/src/tree_contract.rs:116-124 | acceptability of the wire document is prefix-freedom of the collected map |
| `TreeContract.IndexExists` | crates/kin-vfs-daemon/src/tree_contract.rs:210-242 | every prefix-free map of fewer than 2^64 artifacts has an index |
| `TreeLookup.TreeIsCoherent` | crates/kin-vfs-daemon/src/tree_contract.rs:144-207 | in a validated tree a child exists if and only if its directory lists its name |
| `TreeLookup.StatTells` | crates/kin-vfs-daemon/src/tree_contract.rs:173-189 | what a stat says of a file, a link, a boundary, a directory and an absent path, field by field |
| `TreeLookup.ListTells` | crates/kin-vfs-daemon/src/tree_contract.rs:192-207 | a listing answers for exactly the directories, with not-a-directory for an artifact and not-found for nothing |
| `TreeLookup.ListedKindIsStatKind` | crates/kin-vfs-daemon/src/tree_contract.rs:144-207 | in a validated tree every listed entry has the kind a stat of that child shows |
| `TreeLookup.ListingUnique` | crates/kin-vfs-daemon/src/tree_contract.rs:316-340 | a directory has only one possible listing |
| `TreeLookup.TreeUnique` | crates/kin-vfs-daemon/src/tree_contract.rs:89-133 | two trees of one document are equal: the acceptance contract leaves nothing open |
| `TreeLookup.RootMembershipPinsArtifacts` | crates/kin-vfs-daemon/src/tree_contract.rs:316-351 | two validated trees have equal root membership if and only if their artifact maps are equal, absent a hash collision between their two root streams |
| `ByteRanges.SliceVerifiedBlob` | crates/kin-vfs-daemon/src/tree_contract.rs:522-542 | answers exactly the requested range of a body, for every offset and length |
| `ByteRanges.SliceStaged` | crates/kin-vfs-daemon/src/kin_writer.rs:469-472 | the cut of a staged file is exactly the requested range |
| `ByteRanges.CachedSliceIsRange` | crates/kin-vfs-core/src/tree.rs:116-124 | the cut of a cached body is the requested range if and only if the end does not wrap at 2^64 or the offset is past the body; otherwise it panics |
| `Succession.EtagRoundTrip` | crates/kin-vfs-daemon/src/tree_contract.rs:423-444 | a header parses to an etag exactly when it is that etag between two quotes, and the etag is visible ASCII, space or tab, and not empty; the request header quotes it so |
| `Succession.SuccessionDecision` | crates/kin-vfs-daemon/src/tree_contract.rs:369-420 | over two validated trees, on their fields: installed if and only if the identities are equal, the version is higher, the workspace generation is not lower, and higher if the artifacts differ; refused if and only if, and with the error of, a changed identity, a fallen generation, artifacts that differ at one generation, or one version with two etags or bindings; retained otherwise; absent a hash collision of the two root streams |
| `Succession.RefreshDecides` | crates/kin-vfs-daemon/src/kin_provider.rs:382-408 | a presentable document that may replace the installed snapshot leaves exactly its own tree installed; one that contradicts it fails and changes nothing; any other succeeds and changes nothing |
| `Succession.NewestIsInstalled` | crates/kin-vfs-daemon/src/kin_provider.rs:342-409 | over any run of refreshes no valid snapshot is passed over: a document that does not contradict what is installed when it arrives has its version or a later one installed at every later instant |
| `Succession.InstalledIsSuccessor` | crates/kin-vfs-daemon/src/tree_contract.rs:369-420 | what is installed over a snapshot strictly advances the version, never lowers the workspace generation, keeps both identities, and at an unchanged generation has the same artifacts |
| `Succession.RefreshKeepsOrInstalls` | crates/kin-vfs-daemon/src/kin_provider.rs:342-409 | a completed refresh leaves the snapshot untouched or installs a validated one; a failed one always leaves it untouched |
| `Succession.RunsOnlyMoveForward` | crates/kin-vfs-daemon/src/kin_provider.rs:342-409 | over any run of refreshes with any responses, every later snapshot is a successor of every earlier one, absent a hash collision between two of them |
| `Succession.RunIsIndexed` | crates/kin-vfs-daemon/src/kin_provider.rs:382-408 | every snapshot ever installed is fully validated |
| `Succession.AnswersAreAFunctionOfVersion` | crates/kin-vfs-daemon/src/kin_provider.rs:534-546 | the reported version never falls, and two instants of equal version hold the same snapshot |
| `DaemonProvider.KinDaemonProvider.constructor` | crates/kin-vfs-daemon/src/kin_provider.rs:140-156 | a fresh provider has no snapshot and an empty body cache |
| `DaemonProvider.KinDaemonProvider.EnsureTree` | crates/kin-vfs-daemon/src/kin_provider.rs:342-409 | the installed snapshot stays validated and becomes what the response says: for a presentable document its own tree if and only if the fields of the two allow the succession, else the old one, with success exactly if there is no contradiction |
| `DaemonProvider.KinDaemonProvider.Succeed` | crates/kin-vfs-daemon/src/kin_provider.rs:401-408 | installed, refused or retained as the fields of the two snapshots decide, with an error changing nothing |
| `DaemonProvider.KinDaemonProvider.FetchVerifiedBlob` | crates/kin-vfs-daemon/src/kin_provider.rs:423-459 | a body is returned only with the asked digest, a fetched one only with the advertised size too; the cache gains nothing else |
| `DaemonProvider.KinDaemonProvider.Read` | crates/kin-vfs-daemon/src/kin_provider.rs:463-532 | for each operation and each kind of path, on the artifact map and the directories: which digest an Ok body has, when there is none, and the exact error for a directory, a boundary, a file asked for its target and an absent path |
| `DaemonProvider.NextKeepsInv` | crates/kin-vfs-daemon/src/kin_provider.rs:423-532 | every interleaved step of readers, refreshes and fetches keeps all cached bodies verified, all answers genuine, and every answer or error what the consulted snapshot owes that kind of path |
| `DaemonProvider.EveryByteIsVerified` | crates/kin-vfs-daemon/src/kin_provider.rs:423-532 | in every run, every answered call returned bytes of a body whose digest its own snapshot held for its path, and every error is the one its kind of path owes |
| `DaemonProvider.ConsultedWasInstalled` | crates/kin-vfs-daemon/src/kin_provider.rs:412-419 | the snapshot a call consulted was the installed one at an earlier instant of the run |
| `DaemonProvider.KinDaemonProvider.ReadInstalled` | crates/kin-vfs-daemon/src/kin_provider.rs:463-532 | the same against the installed snapshot, and exactly which body the cache gains |
| `DaemonProvider.OutcomeReadsAs` | crates/kin-vfs-daemon/src/kin_provider.rs:463-532 | the outcome of a read is that table of kinds and operations, for any bodies at hand and any reply |
| `DaemonProvider.ShortSizeEmptiesTheRange` | crates/kin-vfs-daemon/src/kin_provider.rs:472-484 | a provider that installs a snapshot with two files of one content, one advertised as empty, and reads the first: for the second it answers the byte to a read and nothing to a range |
| `Lru.LruCache.Put` | crates/kin-vfs-core/src/cache.rs:51-59 | inserting evicts exactly the least recently used key, and only from a full cache |
| `Lru.LruCache.Get` | crates/kin-vfs-core/src/cache.rs:39-49 | a hit becomes the most recently used key and changes nothing else |
| `Lru.WithoutSplit` | crates/kin-vfs-daemon/src/kin_provider.rs:429-457 | taking a key out of the recency order leaves the others in theirs |
| `ReadCache.Lookup` | crates/kin-vfs-core/src/cache.rs:39-49 | an entry is answered only under its own version; one of another version is dropped |
| `ReadCache.VfsCache.constructor` | crates/kin-vfs-core/src/cache.rs:29-34 | the cache starts empty and holds at least one entry |
| `ReadCache.VfsCache.Get` | crates/kin-vfs-core/src/cache.rs:39-49 | the class does exactly the lookup |
| `ReadCache.VfsCache.Put` | crates/kin-vfs-core/src/cache.rs:51-59 | the class does exactly the insertion |
| `ReadCache.VfsCache.Invalidate` | crates/kin-vfs-core/src/cache.rs:61-66 | the given paths are gone and nothing else is |
| `ReadCache.VfsCache.InvalidateAll` | crates/kin-vfs-core/src/cache.rs:68-70 | nothing is left |
| `ReadCache.HitIsFresh` | crates/kin-vfs-core/src/tree.rs:68-85 | an entry of the version read during a call was given by the provider at that instant or later |
| `ReadCache.KeepsInv` | crates/kin-vfs-core/src/tree.rs:68-127 | every step of any reader, version bump, eviction, late insertion or invalidation keeps the cache and all calls justified by the provider |
| `ReadCache.EveryAnswerIsTheProviders` | crates/kin-vfs-core/src/tree.rs:68-127 | in every interleaving, each completed stat or read equals the provider own answer at some instant between the start and the end of the call; a range is that too, or is cut from a read of such an instant, which is the same where the provider ranges are cuts of its reads |
| `ReadCache.EveryCallCanComplete` | crates/kin-vfs-core/src/tree.rs:68-133 | from every state of every interleaving a new stat, read or range that the provider answers can run to its end: with what the provider answers where the cache has nothing of this version, and with the cached body, cut to the range, where it has |
| `ReadCache.WorldMovesOn` | crates/kin-vfs-core/src/cache.rs:61-71 | time passes while the provider has a further state, and an invalidation drops exactly the entries it names |
| `ReadCache.DaemonIsSteady` | crates/kin-vfs-daemon/src/kin_provider.rs:534-546 | every run of refreshes supplies the premise of the cache result: a version that never falls, and metadata and bodies that are a function of it; and over bodies no longer than advertised, ranges that are cuts |
| `ReadCache.DaemonSourceTells` | crates/kin-vfs-daemon/src/kin_provider.rs:534-546 | with nothing installed the version is zero and every answer a provider error; otherwise they are those of the snapshot |
| `ReadCache.DaemonRangeIsCutIff` | crates/kin-vfs-daemon/src/kin_provider.rs:472-484 | where a read succeeds, a range is the cut of it if and only if the range is empty, starts before the advertised size, or starts past the body |
| `ReadCache.VirtualFileTree.constructor` | crates/kin-vfs-core/src/tree.rs:24-34 | the tree starts with an empty cache |
| `ReadCache.VirtualFileTree.Stat` | crates/kin-vfs-core/src/tree.rs:68-85 | with the provider at rest, the result through the cache is the provider result, success or error |
| `ReadCache.VirtualFileTree.Read` | crates/kin-vfs-core/src/tree.rs:88-108 | with the provider at rest, the result is the provider read, or its stat error when only the stat fails |
| `ReadCache.VirtualFileTree.ReadRange` | crates/kin-vfs-core/src/tree.rs:111-127 | with the provider at rest, the result is the provider own range answer or cut from its own read, the same where its ranges are cuts; it panics only where the end of the range wraps at 2^64 |
| `Staging.KinDaemonWriter.constructor` | crates/kin-vfs-daemon/src/kin_writer.rs:113-120 | a fresh writer owes nothing |
| `Staging.KinDaemonWriter.MarkEntry` | crates/kin-vfs-daemon/src/kin_writer.rs:243-255 | the path is staged under a revision that existed nowhere before, the touch is set and the error cleared |
| `Staging.KinDaemonWriter.WriteAt` | crates/kin-vfs-daemon/src/kin_writer.rs:347-363 | where the host accepts it the file holds the data at the offset, zeros in any hole and its old bytes elsewhere, and an empty write changes no byte; it is Ok and staged with its new length exactly when the restat succeeds too; a refused write changes nothing |
| `Staging.KinDaemonWriter.SetLen` | crates/kin-vfs-daemon/src/kin_writer.rs:381-388 | where the host accepts it the file is cut or zero-extended; it is Ok and staged exactly when the restat succeeds too |
| `Staging.KinDaemonWriter.Remove` | crates/kin-vfs-daemon/src/kin_writer.rs:395-405 | the file is gone and the path is staged as removed |
| `Staging.KinDaemonWriter.Rename` | crates/kin-vfs-daemon/src/kin_writer.rs:407-416 | where the host accepts it the contents move and the source is staged as removed; the target is staged, and the result Ok, exactly when its restat succeeds; also when both are one path |
| `Staging.KinDaemonWriter.ReplaceWholeFile` | crates/kin-vfs-daemon/src/server.rs:771-794 | Ok if and only if the body is within the bound and both host calls and both restats succeed, and then the file is exactly the data; the exact contents and staging after every failure; a failure changes nothing if and only if the write did not reach the file, or reached it unrestated with a prefix of what it held |
| `Staging.KinDaemonWriter.MarkPresent` | crates/kin-vfs-daemon/src/kin_writer.rs:257-262 | a successful restat stages what it found, a failed one stages nothing |
| `Staging.FileStatTells` | crates/kin-vfs-daemon/src/kin_writer.rs:230-240 | what a restat says of a regular file, field by field, and that it describes exactly that file |
| `Staging.TailSurvives` | crates/kin-vfs-daemon/src/server.rs:782-786 | a write without its truncate leaves the data and then the old tail; this is the data exactly when the old file was no longer |
| `Staging.RefusedTruncateMixes` | crates/kin-vfs-daemon/src/server.rs:787-793 | replacing two bytes by one with the truncate refused leaves a file that is neither |
| `Staging.FailedReplacementChangesNothingIff` | crates/kin-vfs-daemon/src/server.rs:787-793 | a failed replacement leaves the working copy alone exactly when the write did not land, or landed bytes the file already began with |
| `Staging.WriteThenTruncate` | crates/kin-vfs-daemon/src/server.rs:782-793 | for every old content, writing at zero and truncating to the length gives exactly the data |
| `Staging.KinDaemonWriter.Admit` | crates/kin-vfs-daemon/src/kin_writer.rs:485-583 | alone, an admission succeeds exactly when an attempt commits; it then carries the change id, branch and file count of the attempt that committed and the staged paths, is remembered, and leaves nothing staged; a failure keeps every entry and records exactly the reason of the endpoint or of the last attempt |
| `Staging.KinDaemonWriter.RequestAdmission` | crates/kin-vfs-daemon/src/kin_writer.rs:511-536 | the request is repeated at most once, without the author, exactly when the first answer refuses the author field |
| `Staging.KinDaemonWriter.ClearAdmitted` | crates/kin-vfs-daemon/src/kin_writer.rs:567-581 | exactly the carried entries whose revision is still the snapped one are dropped; the touch is cleared when none is left |
| `Staging.UninterruptedClear` | crates/kin-vfs-daemon/src/kin_writer.rs:564-583 | an admission nothing interrupts clears everything |
| `Staging.MarkPostponesAdmission` | crates/kin-vfs-daemon/src/kin_writer.rs:585-594 | an admission is due after a mark exactly when the debounce has passed since it, and never with nothing staged |
| `AdmissionProtocol.NoMarkedMutationIsLost` | crates/kin-vfs-daemon/src/kin_writer.rs:485-583 | in every interleaving, with recycled revision identities, a marked mutation is staged until a successful admission read its path after its host effect; so settled means every marked mutation was read |
| `AdmissionProtocol.KeepsInv` | crates/kin-vfs-daemon/src/kin_writer.rs:243-255 | every protocol step keeps the five invariants behind that result |
| `AdmissionProtocol.FreshRevision` | crates/kin-vfs-daemon/src/kin_writer.rs:122-131 | a new mark never gets a revision an outstanding snapshot still holds |
| `AdmissionProtocol.KeepsOwed` | crates/kin-vfs-daemon/src/kin_writer.rs:564-583 | clearing by revision never drops a mutation that was not read after its host effect |
| `AdmissionProtocol.TouchTracksStaging` | crates/kin-vfs-daemon/src/kin_writer.rs:243-255 | in every reachable state of every mode the last touch is set exactly when something is staged |
| `AdmissionProtocol.SettledGraphIsTheWorkingCopy` | crates/kin-vfs-daemon/src/kin_writer.rs:596-609 | when the daemon runs one commit at a time, a settled writer with no unmarked host effect means the graph holds the working copy contents of every path ever mutated |
| `AdmissionProtocol.ClearedIsCovered` | crates/kin-vfs-daemon/src/kin_writer.rs:564-583 | what an acknowledged admission clears is in the graph as of its latest host effect |
| `AdmissionProtocol.AcknowledgedIsAdmitted` | crates/kin-vfs-daemon/src/kin_writer.rs:564-583 | what an acknowledgement is about to clear is in the graph with the bytes the working copy has now |
| `AdmissionProtocol.GraphHoldsWhatIsNotOwing` | crates/kin-vfs-daemon/src/kin_writer.rs:485-583 | with one commit at a time, in every reachable state the graph holds exactly the working copy contents of every path that is neither staged nor about to be marked |
| `AdmissionProtocol.KeepsTruthful` | crates/kin-vfs-daemon/src/kin_writer.rs:257-262 | while no host effect comes between a restat and its mark, what is staged describes the working copy |
| `AdmissionLimits.FreshWriterNamesAPath` | crates/kin-vfs-daemon/src/server.rs:818-852 | from a fresh writer, one admission at a time, degraded health never names nothing |
| `AdmissionLimits.DegradedNamesAPath` | crates/kin-vfs-daemon/src/server.rs:818-852 | while admissions run one at a time, degraded health always names at least one path |
| `AdmissionLimits.FailureNamesWhatIsStaged` | crates/kin-vfs-daemon/src/kin_writer.rs:619-623 | a failed admission never changes the entries, and names no path exactly when nothing is staged any more |
| `AdmissionLimits.OverlappingFailureNamesNothing` | crates/kin-vfs-daemon/src/kin_writer.rs:596-609 | a reachable degraded state that names no path, with nothing to mark and no admission in flight |
| `AdmissionProgress.CanSettleIff` | crates/kin-vfs-daemon/src/kin_writer.rs:485-583 | from every reachable state of every mode, some run without another host effect settles the writer, if and only if it is not degraded with nothing staged, nothing to mark and no admission in flight |
| `AdmissionProgress.WorkingCopyCanReachTheGraph` | crates/kin-vfs-daemon/src/kin_writer.rs:485-583 | with one commit at a time, from every reachable state some run without another host effect marks everything, leaves nothing staged, and puts exactly the present working copy into the graph |
| `AdmissionProgress.StuckIsReachable` | crates/kin-vfs-daemon/src/kin_writer.rs:485-497 | the degraded state that nothing but another write ends is reached by two overlapping admissions |
| `AdmissionProgress.KeepsBusy` | crates/kin-vfs-daemon/src/kin_writer.rs:243-262 | a mutation stays under way only while it has a path to mark |
| `AdmissionLimits.WeakSnapshotLosesAWrite` | crates/kin-vfs-daemon/src/kin_writer.rs:486-493 | were the snapshot not to hold its revisions, a reachable settled state would have lost a marked mutation |
| `AdmissionLimits.OverlappingCommitsLeaveTheGraphStale` | crates/kin-vfs-daemon/src/kin_writer.rs:485-583 | were the daemon to overlap commits, a reachable settled state would leave the graph behind the working copy |
| `Overlay.StagedChildren` | crates/kin-vfs-daemon/src/kin_writer.rs:426-458 | the added and removed names are exactly the direct children staged as present and as removed, each once, with the staged types |
| `Overlay.DirectChild` | crates/kin-vfs-daemon/src/kin_writer.rs:434-442 | a staged path is a direct child exactly when the stripped remainder has no separator, and the remainder is then its name |
| `Overlay.OverlayReadDir` | crates/kin-vfs-core/src/writer.rs:222-245 | answers exactly where the graph does or for a staged directory the graph does not know; over a coherent graph the names are exactly those that exist through the overlay, each once; each entry is the graph entry or the staged one |
| `Overlay.Merge` | crates/kin-vfs-core/src/writer.rs:239-243 | added names are appended once, and only where not already listed |
| `Overlay.Retain` | crates/kin-vfs-core/src/writer.rs:238-238 | exactly the entries not removed are kept |
| `Overlay.RetainLast` | crates/kin-vfs-core/src/writer.rs:238-238 | what is kept keeps its order |
| `Overlay.ListingIsExact` | crates/kin-vfs-core/src/writer.rs:222-253 | graph names less removed plus added are exactly the names for which `exists` answers true |
| `Overlay.TreeGraphIsCoherent` | crates/kin-vfs-daemon/src/tree_contract.rs:144-207 | every validated snapshot is a coherent graph, which supplies the premise of the listing result |
| `Overlay.RemovedDirectoryStillLists` | crates/kin-vfs-core/src/writer.rs:222-253 | a listing answers for a directory that does not exist exactly when the directory is staged as removed while the graph still has it |
| `ReadStability.ReadsAreStableIff` | crates/kin-vfs-core/src/writer.rs:192-253 | in every run, across every acknowledgement, a cleared path answers read, range and existence from the graph as it did from the staging area if and only if what was staged reads as the file does and, for a removal, no published file lies below it |
| `ReadStability.FileReadsAreStable` | crates/kin-vfs-core/src/writer.rs:192-210 | while no host effect comes between a restat and its mark, a file answers the same before and after every acknowledgement |
| `ReadStability.RemovalIsStableIff` | crates/kin-vfs-core/src/writer.rs:192-253 | a removal with nothing below it still owed, in particular one that settles the writer, answers the same if and only if it is not the root and the working copy has no file below it |
| `ReadStability.PublishedBelow` | crates/kin-vfs-daemon/src/kin_writer.rs:564-583 | with nothing below a path owed, the graph has a file below it exactly when the working copy does |
| `ReadStability.StagedAnswers` | crates/kin-vfs-core/src/writer.rs:192-253 | what a staged path answers, from its disposition and the working copy |
| `ReadStability.ServedAnswers` | crates/kin-vfs-daemon/src/kin_provider.rs:463-509 | what a validated snapshot answers for each path, from the files it serves |
| `StabilityLimits.RemovedFileComesBackAsDirectory` | crates/kin-vfs-core/src/writer.rs:247-253 | for any path: removed, with a file created below it, it does not exist before the acknowledgement and exists after it |
| `StabilityLimits.RemovedDirectoryListsAndDoesNotExist` | crates/kin-vfs-core/src/writer.rs:222-253 | for any path: its one file removed and then itself, the overlay lists it and says it does not exist |
| `StabilityLimits.StaleMarkCutsTheFile` | crates/kin-vfs-daemon/src/kin_writer.rs:257-262 | were a host effect to come between a restat and its mark, a reachable state would read a file cut short, and whole after the acknowledgement |
| `StraddlingReads.StraddlingReadIff` | crates/kin-vfs-core/src/writer.rs:192-210 | while a staged file is left alone, a read or range that looks at the staging area twice answers what the overlay answers at some instant of the call if and only if no acknowledgement clears the path between the looks |
| `StraddlingReads.StraddlingRead` | crates/kin-vfs-daemon/src/kin_writer.rs:460-473 | such a read gives the file if the entry is still there at the second look, and not-found otherwise |
| `StraddlingReads.AnsweredThroughout` | crates/kin-vfs-core/src/writer.rs:192-253 | at every instant while a staged file is left alone the overlay answers its bytes, staged or admitted |
| `StraddlingReads.StraddlingReadFindsNothing` | crates/kin-vfs-daemon/src/kin_writer.rs:464-468 | for any path but the root: an admission published and acknowledged between the looks makes a read find nothing, though the overlay answers the file before and after |
| `Containment.Resolve` | crates/kin-vfs-core/src/containment.rs:70-114 | the loop computes the component walk from the canonical root |
| `Containment.ContainedTarget` | crates/kin-vfs-core/src/containment.rs:46-48 | the target is exactly the walk, to which the lemmas below apply; an Ok lies under the canonical root and crosses no symlink; an existing result is where the kernel resolves root and path; where the kernel resolves them, the result is that place or a refusal |
| `Containment.ContainedEntry` | crates/kin-vfs-core/src/containment.rs:56-58 | an entry is the resolved target of its parent, symlink-free and as the kernel resolves it, with the last name appended unresolved; it fails with the parent error |
| `Containment.TargetIsContained` | crates/kin-vfs-core/src/containment.rs:70-114 | for every filesystem an accepted target is under the canonical root with no symlink among its existing prefixes |
| `Containment.TargetIsCanonical` | crates/kin-vfs-core/src/containment.rs:70-114 | where canonicalizing root and path succeeds, the target equals it if no prefix leaves the root, and is refused as escaping otherwise |
| `Containment.AcceptedTargetIsKernels` | crates/kin-vfs-core/src/containment.rs:70-114 | an accepted target is what canonicalizing root and path gives under a large enough symlink limit, and is absent there exactly when it does not exist |
| `Containment.TargetRefusedIffBlocked` | crates/kin-vfs-core/src/containment.rs:97-110 | a target is refused, with which error, exactly when some component lies below a file or is a symlink that resolves nowhere or outside |
| `Containment.EntryIsParentTarget` | crates/kin-vfs-core/src/containment.rs:92-95 | an entry is the target of its parent with the last name appended, with the same errors |
| `Containment.Decompose` | crates/kin-vfs-core/src/containment.rs:97-110 | kernel resolution of a concatenation is resolution of its parts in turn |
| `Containment.MoreSymlinks` | crates/kin-vfs-core/src/containment.rs:103-103 | a larger symlink limit changes no resolution but the refusals for too many symlinks |
| `Containment.KernelLooksUp` | crates/kin-vfs-core/src/containment.rs:75-103 | one lookup of the kernel resolution: a relative symlink leads on from the directory holding it, an absolute one from the root, each spending one of those allowed; a dot-dot leads to the parent; a file and a missing name fail each in its own way |
| `PathMap.Components` | crates/kin-vfs-core/src/pathmap.rs:65-88 | the loop computes the drive prefix and cleaned components, or the first fault |
| `PathMap.WorkspaceGraphKey` | crates/kin-vfs-core/src/pathmap.rs:62-127 | the loops compute the graph key, which KeyIff characterises; the final validation never fails |
| `PathMap.KeyIff` | crates/kin-vfs-core/src/pathmap.rs:62-127 | a path has a key under a root if and only if its components are those of the root followed by those of the key, on a drive with drive and root components in lower case; it is outside the root if and only if there is no such key; a path or root that does not parse gives its own fault |
| `PathMap.SiblingIsOutside` | crates/kin-vfs-core/src/pathmap.rs:100-111 | a name that only begins with the last component of the root is outside it, with everything below |
| `PathMap.OnlyBelowTheRoot` | crates/kin-vfs-core/src/pathmap.rs:62-127 | `/a/b` has the key `b` under `/a` and is outside every other single-component root |
| `PathMap.CleanedPiece` | crates/kin-vfs-core/src/pathmap.rs:74-86 | the empty piece and `.` vanish, `..` and NUL are refused each with its own fault, and every other piece is a component |
| `PathMap.ParseIsCleaned` | crates/kin-vfs-core/src/pathmap.rs:66-73 | which bytes are absolute, with which drive, and that nothing else is not-absolute |
| `PathMap.KeyRoundTrip` | crates/kin-vfs-core/src/pathmap.rs:261-271 | joining any key onto any root that parses and mapping it back is the identity |
| `PathMap.JoinTells` | crates/kin-vfs-core/src/pathmap.rs:261-271 | an absolute second part stands alone and any other is appended behind one separator |
| `PathMap.ParseJoin` | crates/kin-vfs-core/src/pathmap.rs:65-88 | what is appended below a root adds exactly its own cleaned components |
| `PathMap.KeyFromRoots` | crates/kin-vfs-core/src/pathmap.rs:140-170 | the loop computes the scan over the roots |
| `PathMap.RootOrderIsIrrelevant` | crates/kin-vfs-core/src/pathmap.rs:140-170 | success with a key means some root gives it and every root gives it or is passed over; so it does not depend on order or repetition of the roots |
| `PathMap.FailureHasACause` | crates/kin-vfs-core/src/pathmap.rs:147-163 | any other failure has one of two causes: an unusable root, or two roots that disagree |
| `PathMap.EveryCauseCanBeReported` | crates/kin-vfs-core/src/pathmap.rs:147-163 | each cause present is what some permutation of the roots reports |
| `PathMap.OrderIsIrrelevantIff` | crates/kin-vfs-core/src/pathmap.rs:140-170 | every permutation of the roots gives the same answer, success or failure of any kind, if and only if there is at most one cause |
| `PathMap.ScanSkips` | crates/kin-vfs-core/src/pathmap.rs:155-169 | where every root is passed over, the failure is not-absolute exactly when some root gave it, and outside-root otherwise |
| `PathMap.FailureKindDependsOnOrder` | crates/kin-vfs-core/src/pathmap.rs:147-163 | a concrete path and three roots whose order decides between two kinds of failure |
| `PathMap.WorkspaceRoot` | crates/kin-vfs-core/src/tree.rs:24-28 | exactly trailing separators are stripped, and none is left beyond the first byte |
| `PathMap.RelativePath` | crates/kin-vfs-core/src/tree.rs:42-58 | the loop computes the tree mapping |
| `PathMap.MappingsAgree` | crates/kin-vfs-core/src/tree.rs:42-58 | for a root that starts with a separator and parses, whatever key the tree mapping answers, the graph key mapping answers the same |
| `PathMap.RelativeKeyIff` | crates/kin-vfs-core/src/tree.rs:42-58 | the tree mapping answers a key if and only if the path is the root, or the root, one separator, the key and any number of separators |
| `PathMap.TreeMappingAnswersIff` | crates/kin-vfs-core/src/tree.rs:42-58 | of the paths with a graph key the tree mapping answers exactly those so spelled, with that key |
| `PathMap.SlashRootMapsLess` | crates/kin-vfs-core/src/tree.rs:42-58 | under the root of the filesystem, two paths with keys in both mappings and one with only a graph key |
| `Inodes.SyntheticInode` | crates/kin-vfs-core/src/pathmap.rs:179-186 | the loop computes the FNV-1a hash of the bytes |
| `Inodes.SuffixKeepsCollisions` | crates/kin-vfs-core/src/pathmap.rs:179-186 | appending one suffix to two paths neither creates nor removes a collision |
| `Inodes.OneByteApart` | crates/kin-vfs-core/src/pathmap.rs:179-186 | paths that differ in exactly one byte never share an inode |
| `Inodes.MixInjective` | crates/kin-vfs-core/src/pathmap.rs:182-183 | one round is injective in the hash so far and in the byte |
| `Inodes.XorBits` | crates/kin-vfs-core/src/pathmap.rs:182-182 | the modelled exclusive or is the exclusive or of each pair of bits |
| `Inodes.TimesInverse` | crates/kin-vfs-core/src/pathmap.rs:183-183 | multiplication by the prime modulo 2^64 is undone by its inverse |
| `WireFrame.RequestRoundTrip` | crates/kin-vfs-core/src/protocol.rs:369-408 | every encodable write, remove or rename decodes to itself, with its paths validated again |
| `WireFrame.DecodeIff` | crates/kin-vfs-core/src/protocol.rs:155-161 | the modelled decoder accepts exactly the spellings of a request: its own tag, then each field behind a length of any width that holds it, paths valid, integers short or marked, and nothing after |
| `WireFrame.PinnedEncodings` | crates/kin-vfs-core/src/protocol.rs:385-387 | the three pinned encodings, byte for byte |
| `WireFrame.WriteFits` | crates/kin-vfs-core/src/protocol.rs:46-67 | a body up to the bound and a path up to 65520 bytes always fit one frame |
| `WireFrame.PathBoundIsSharp` | crates/kin-vfs-core/src/protocol.rs:491-503 | for a body at the bound with no byte below 0x80, the frame fits if and only if the path has at most 65520 bytes |
| `FuseHandles.AwaitGraph` | crates/kin-vfs-fuse/src/filesystem.rs:195-233 | the loop ends at the first poll that reports the expected digest or absence or comes at or after the deadline, succeeds exactly if that poll does, and polls at most once per ten milliseconds |
| `FuseHandles.ProjectionDigest` | crates/kin-vfs-fuse/src/write.rs:265-278 | the digest is of the whole file, however the host chunks the reads |
| `FuseHandles.KinFuseFs.constructor` | crates/kin-vfs-fuse/src/filesystem.rs:103-123 | a fresh mount has no handle and starts numbering at one |
| `FuseHandles.KinFuseFs.AllocateHandle` | crates/kin-vfs-fuse/src/filesystem.rs:130-143 | the number handed out was never handed out before, and the new handle is clean |
| `FuseHandles.KinFuseFs.MaterializeForWrite` | crates/kin-vfs-fuse/src/filesystem.rs:147-169 | a missing projection file gets the bytes of the graph file, and nothing else changes |
| `FuseHandles.KinFuseFs.Write` | crates/kin-vfs-fuse/src/filesystem.rs:705-749 | succeeds if and only if the mount is writable, the offset is not negative, the handle may write or the inode is known, the host accepts, the end is below 2^64 and the file is there, unknown to the graph, or brought over, with the errno of the first that fails; it then lands on the real bytes and dirties exactly its handle; every refusal leaves handles and history alone |
| `FuseHandles.KinFuseFs.Converge` | crates/kin-vfs-fuse/src/filesystem.rs:172-181 | the graph is asked until it reports the digest of the file just measured, or its absence, or the deadline comes; success exactly in the first case, and then every earlier write of the path is settled |
| `FuseHandles.KinFuseFs.Flush` | crates/kin-vfs-fuse/src/filesystem.rs:754-776 | a dirty handle is cleared and Ok exactly when the graph took its file: the last thing seen is a stat of the path with the digest of the file as it stands, or not-found for no file; EIO means every report up to the deadline was of something else; any error leaves it dirty |
| `FuseHandles.KinFuseFs.Fsync` | crates/kin-vfs-fuse/src/filesystem.rs:803-825 | the same read-back for any handle, dirty or not, and for a bare inode |
| `FuseHandles.KinFuseFs.Release` | crates/kin-vfs-fuse/src/filesystem.rs:782-800 | the handle goes; a dirty one is still offered to the graph |
| `FuseHandles.WriteThenClose` | crates/kin-vfs-fuse/src/filesystem.rs:705-776 | a write to a projected file succeeds, and a close that answers Ok has seen the graph take it if and only if it came through an open handle; without one the close always answers Ok |
| `FuseHandles.StaysClean` | crates/kin-vfs-fuse/src/filesystem.rs:63-69 | events that are not writes of a clean handle leave it without an unsettled write |
| `FuseHandles.SettlesAll` | crates/kin-vfs-fuse/src/filesystem.rs:183-233 | a measurement followed by a matching report settles every write before it |
| `Requests.SendWithAuthRetry` | crates/kin-vfs-daemon/src/kin_provider.rs:192-241 | the loop computes the attempt and its log, and ends under every sequence of outcomes |
| `Requests.SendsAreBounded` | crates/kin-vfs-daemon/src/kin_provider.rs:192-241 | at most three sends, and each retry budget spent at most once |
| `Requests.ThreeSendsHappen` | crates/kin-vfs-daemon/src/kin_provider.rs:192-241 | the bound is reached |
| `Requests.EverySendIsGuarded` | crates/kin-vfs-daemon/src/kin_provider.rs:198-207 | every send directly follows a preflight and the resolution of that very endpoint |
| `Requests.RefreshesWhatFailed` | crates/kin-vfs-daemon/src/kin_provider.rs:207-239 | a token refresh follows exactly the first 401, an endpoint refresh exactly the first transport failure, and neither anything else |
| `Requests.RecordsWhatItReturns` | crates/kin-vfs-daemon/src/kin_provider.rs:207-239 | an endpoint is recorded at most once, last, and it is that of the last send, whose outcome is returned; it is not recorded only where a turn failed before sending |

## Left out

- HTTP, sockets, named pipes, task scheduling, serde internals, environment and git configuration reads, mounting, NFS, the CLI and the shell hooks.
- The model crate's own snapshot validation: its verdict and identity are inputs of `FromSnapshot`.
- The asynchronous provider, which keeps the same contract as the synchronous one.
- Canary registry, announcements, lookup log, inode table, token precedence, write-notify text and temp-file naming.
- Directories, symlinks and implicitly created parents in the staging area: host operations are on regular files and each completes or has no effect; only its restat may fail after it.
- The changes a write through a symlink inside the repository makes to another path than the one marked.
- Within one admission a lost reply, a refusal and a read failure are single steps; the text of reasons and of the commit message is opaque.
- Filesystem changes between resolution and open, permission errors, trailing slashes in symlink targets and relative roots, in `Containment`.
- Windows path prefixes beyond the drive form of the graph key mapping.
- An overlay read that overlaps a change of the same path: it is characterised while the path is left alone.
- The read cache over the overlay: staging does not change the version, so its premise does not hold there.
- `VirtualFileTree` listing, link and existence calls, which bypass the cache.
- FUSE rename, truncate, chmod, mkdir and their rollbacks, and directory listing; handle numbers are unbounded here.
- WireFrame.DecodeIff: the modelled decoder refuses MessagePack forms the encoder never emits, other than longer length headers.
- DaemonProvider.KinDaemonProvider.FetchVerifiedBlob: claims the length only for a fetched body, because a cached one is not measured again.
- FuseHandles.KinFuseFs.Release: promises nothing when the graph does not take the file, because the code ignores that outcome.
- Containment.AcceptedTargetIsKernels: names one sufficient symlink limit, not the least.

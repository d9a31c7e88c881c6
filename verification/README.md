# cacheshfs: the chunked cache and the cache-backed filesystem

cacheshfs mounts a remote directory tree and keeps attributes, listings and file chunks in a persistent cache. This
project models the cache store, the virtual filesystem on top of it, the remote path type, the ssh_config resolver and
the Windows path resolver, and proves what they promise: that the cache agrees with the remote it stands for.

How the modules fit together:

- `Base`, `Ascii`, `RemotePaths`, `Chunks`: shared types, letter case, path validity and `join`, chunk arithmetic.
- `CacheIndex`, `CacheModel`, `CacheReads`, `CacheAnswers`, `CacheShort`: the index sections of the store, its
  operations as functions of (index in memory, index on disk, objects on disk), what a read guarantees, when it fails,
  and what it returns under a size that the file does not have. `Store` is the store as an object with loops and fields,
  each method proved equal to its function.
- `Machine` and its companions: the same sections as steps of concurrent threads, with remote answers, deletions,
  persists and crashes as steps of their own. `MachineTheorems`, `MachineRenames` and `MachineDisk` hold the results,
  `MachineLimits` runs that show which assumptions cannot be dropped. `MachineSequential` and `VfsCrashes` prove that
  the operations of the store and of the filesystem are runs of the machine, so that its results hold for them.
- `VfsModel`: the operations of `CacheVfs` as functions on a world (configuration, cache, session, log of remote calls,
  clock), and runs of them. `Vfs` is the object, each method proved equal to its function. `VfsNodes`, `VfsFreshness`,
  `VfsReports`, `VfsNegative`, `VfsDurable`, `VfsOffline`, `VfsListing`, `VfsEviction`, `VfsSlots` and `VfsGuarantees`
  prove what holds over whole runs, and `VfsAnswers` what callers are told; `VfsRemote`, `VfsMirror`, `VfsRefinement`
  and `VfsDirectories` put a remote tree beside the run and prove that reading and listing through the cache is reading
  and listing the remote; `VfsLimits` gives the exact conditions where a plainer statement would be false, and `VfsRuns`
  and `VfsOrphanRun` concrete runs that go past them.
- `SshConfig`, `WinPath`: the two resolvers against their declarative meaning.

Assumptions, each stated where it is used:

- Size and modification time identify contents: coherence of a path under outside changes assumes that it never returns
  to a version it had (`Rules.versionsNeverRecur`), that its chunks are fetched under attributes the remote reported for
  it, which excludes reads through a handle renamed onto it or away from it (`Rules.ownAttributes`), and that no rename
  carries cached content onto it (`Rules.nothingMovedOnto`). The single-writer results need none of the three.
- Crash safety at every step assumes successful persists, and that a fetch begins only after a revalidation, for a chunk
  that is neither cached nor being fetched, and that no rename carries content onto a path being fetched
  (`Rules.slotsFree`). In sequential use all of that holds while the chunk size never changes and no read goes through a
  renamed handle.
- A remote read answers with a prefix of the requested slice, empty only at the end of the file (`CacheModel.Honest`).
- A failed remote call changes nothing, create is exclusive, and rename does not replace a target (`VfsRemote.Changes`).
- The sequential model persists successfully; the concurrent one also covers failed persists.
- The single-writer results for listings assume that the remote lists every child (`VfsDirectories.Complete`).

Where the code and its documentation differ, the model follows the code: content is cached in chunks, not as whole files
(crates/cacheshfs-core/README.md:38-40), and a comment is recognised by the first `#` of a line only
(crates/cacheshfs-cli/src/ssh_config.rs:85-94).

## Model

| member | source | states |
|---|---|---|
| `RemotePaths.JoinAccepted` | crates/cacheshfs-core/src/lib.rs:224-259 | `join` succeeds exactly on valid component names, and every path it builds is one `new` accepts |
| `RemotePaths.JoinExact` | crates/cacheshfs-core/src/lib.rs:245-259 | `join` refuses exactly the empty name, the two dots and names with a slash or backslash, always as invalid input, and otherwise puts one slash between base and name |
| `RemotePaths.NewExact` | crates/cacheshfs-core/src/lib.rs:224-236 | `new` accepts exactly the paths that begin with a slash and have no part that is two dots |
| `RemotePaths.JoinInjective` | crates/cacheshfs-core/src/lib.rs:245-259 | a joined path determines its slash-trimmed base and its last component |
| `RemotePaths.WithinChild` | crates/cacheshfs-core/src/lib.rs:240-259 | joining a valid name onto a path within the root stays strictly below the root |
| `RemotePaths.BelowNotRoot` | crates/cacheshfs-core/src/lib.rs:245-259 | a joined path is never the path it was joined from, so the root's key belongs to the root alone |
| `RemotePaths.OneParent` | crates/cacheshfs-core/src/lib.rs:245-259 | a path of the mount has one parent and one name |
| `RemotePaths.DescendantsByPrefix` | crates/cacheshfs-core/src/store.rs:284-290 | on paths of one mount, `starts_with(from + "/")` holds if and only if the key is reachable from `from` by one or more joins |
| `Chunks.InRange` | crates/cacheshfs-core/src/store.rs:507-510 | a chunk is in `chunk_range` if and only if it overlaps `[offset, end)` |
| `Chunks.RangeExact` | crates/cacheshfs-core/src/store.rs:474-486 | the per-chunk pieces tile `[offset, end)` without gap or overlap: concatenated they are the exact slice of the file |
| `Chunks.RangeFits` | crates/cacheshfs-core/src/store.rs:329-333 | over the whole read path no subtraction underflows and no `as u32` cast truncates |
| `Chunks.WrapsOnlyAtTheEnd` | crates/cacheshfs-core/src/store.rs:403-408 | `chunk_start + chunk_size` fits 64 bits for a whole range if and only if it does for the last chunk; file size plus chunk size at most 2^64 suffices |
| `CacheIndex.ShedsOwned` | crates/cacheshfs-core/src/store.rs:194-219 | a section that gives content up splits the owned ids exactly into those still owned and those it returns for deletion |
| `CacheIndex.RecordListingContent` | crates/cacheshfs-core/src/store.rs:229-248 | a listing drops the cached content of exactly the paths it lists under another version than the cached one, and touches no other content |
| `CacheIndex.RecordListingSheds` | crates/cacheshfs-core/src/store.rs:229-248 | the objects it returns for deletion are exactly those of the content it dropped |
| `CacheIndex.MovedOwned` | crates/cacheshfs-core/src/store.rs:278-283 | moving an entry loses exactly the objects the target key held before |
| `CacheIndex.CommitOwned` | crates/cacheshfs-core/src/store.rs:423-453 | recording a chunk adds exactly the fresh id and drops exactly what is deleted, with no id shared |
| `CacheIndex.RenameExact` | crates/cacheshfs-core/src/store.rs:274-302 | a rename evicts exactly the entries below `from`, moves `from`'s own entry and listing when `to` is outside it, and leaves every other key alone; a listing below `from` goes if and only if its directory has an entry |
| `CacheModel.DownloadExact` | crates/cacheshfs-core/src/store.rs:401-416 | however short the remote's answers, a download that ends well holds the whole slice it asked for |
| `CacheModel.DownloadEvents` | crates/cacheshfs-core/src/store.rs:406-414 | a download asks only for bytes of its own chunk, never for zero bytes or more than a `u32` holds |
| `CacheModel.RenameOk` | crates/cacheshfs-core/src/store.rs:274-302 | after a rename every referenced object is on disk, owned once and below the allocator |
| `CacheModel.FetchChunkOk` | crates/cacheshfs-core/src/store.rs:379-456 | so it is after fetching a chunk, and no surviving object changed its bytes |
| `CacheReads.ReadExact` | crates/cacheshfs-core/src/store.rs:321-340 | a successful read over true content and an honest remote is exactly the requested slice, clipped at the end of the file, and keeps the content true |
| `CacheAnswers.ReadTells` | crates/cacheshfs-core/src/store.rs:321-340 | a read succeeds if and only if every download call it made was answered; otherwise its last call is the one that failed, and it answers with that error |
| `CacheAnswers.CachedTells` | crates/cacheshfs-core/src/store.rs:344-362 | a read that must not call succeeds if and only if content of the chunk size in use is cached and every chunk that the range touches is among it; otherwise it is unavailable; `CollectFails` gives the error when an object file is missing |
| `CacheShort.ReadOfOther` | crates/cacheshfs-core/src/store.rs:321-340 | a successful read under a version that is not cached, from honest answers, is what reading the file cut off at the given size would be, whatever size the file has |
| `CacheReads.ReadMinimal` | crates/cacheshfs-core/src/store.rs:334-338 | a read asks for needed chunks missing under the current version only, a successful one asked for all of those, and afterwards all are cached, also after a version or chunk-size change |
| `CacheReads.RereadIsFree` | crates/cacheshfs-core/src/store.rs:334-339 | reading any part of a range again makes no remote call and changes nothing |
| `CacheReads.ReopenedReadExact` | crates/cacheshfs-core/src/store.rs:344-362 | what was hydrated is served from the directory alone after a restart, byte for byte |
| `StoreModule.Store.constructor` | crates/cacheshfs-core/src/store.rs:134-145 | opening a directory starts from the persisted index, with a chunk size of at least one |
| `StoreModule.Store.StoreAttrs` | crates/cacheshfs-core/src/store.rs:194-211 | attributes replaced; content of another version dropped and reported |
| `StoreModule.Store.PutAttrs` | crates/cacheshfs-core/src/store.rs:184-190 | the same, persisted before the objects are deleted |
| `StoreModule.Store.RemoveObjects` | crates/cacheshfs-core/src/store.rs:221-225 | exactly the given objects disappear from disk |
| `StoreModule.Store.RecordListing` | crates/cacheshfs-core/src/store.rs:229-248 | the loop over the children refines `CacheModel.Cache.RecordListing`, skipping names that do not join |
| `StoreModule.Store.InvalidateChildren` | crates/cacheshfs-core/src/store.rs:251-256 | drops the listing, persisting only if there was one |
| `StoreModule.Store.Remove` | crates/cacheshfs-core/src/store.rs:259-270 | drops entry and listing, then the content objects |
| `StoreModule.Store.Rename` | crates/cacheshfs-core/src/store.rs:274-302 | the move and the eviction loop refine `CacheIndex.Rename`, in whatever order the keys come |
| `StoreModule.Store.InvalidateContent` | crates/cacheshfs-core/src/store.rs:305-318 | drops content only, persisting only if objects were given up |
| `StoreModule.Store.DownloadChunk` | crates/cacheshfs-core/src/store.rs:401-416 | the download loop terminates under short reads and refines `CacheModel.Download`, call by call |
| `StoreModule.Store.Commit` | crates/cacheshfs-core/src/store.rs:423-454 | the closing section refines `CacheIndex.Commit` |
| `StoreModule.Store.FetchChunk` | crates/cacheshfs-core/src/store.rs:379-456 | allocate, download, commit: refines `CacheModel.Cache.FetchChunk` with the exact calls made |
| `StoreModule.Store.ReadObject` | crates/cacheshfs-core/src/store.rs:489-504 | however little each file read returns, the result is the part of the range the object has |
| `StoreModule.Store.ReadCachedRange` | crates/cacheshfs-core/src/store.rs:458-487 | the loop over the copied chunk map refines `CacheModel.Cache.ReadRange`, errors included |
| `StoreModule.Store.HydrateRange` | crates/cacheshfs-core/src/store.rs:334-338 | the loop over missing chunks refines `CacheModel.Cache.Hydrate` |
| `StoreModule.Store.Read` | crates/cacheshfs-core/src/store.rs:321-340 | refines `CacheModel.Cache.Read`, with the exact calls made |
| `StoreModule.Store.ReadCached` | crates/cacheshfs-core/src/store.rs:344-362 | refines `CacheModel.Cache.ReadCached`; nothing changes |
| `MachineTheorems.CoherenceTheorem` | crates/cacheshfs-core/src/store.rs:184-211 | in every interleaving of threads, external changes, renames, failed persists, crashes and restarts: if the versions of one path never recur, its chunks are fetched under attributes reported for it, and no rename carries content onto it, then its cached label, when equal to the remote's version, vouches for every cached chunk, in memory and in the index a restart would load; other paths are unrestricted |
| `MachineRenames.RenameFollowsFile` | crates/cacheshfs-core/src/vfs.rs:592-597 | the old path obeys the three rules of the coherence theorem, and its file moves on the remote; other threads then take any steps, crashes included, except committing a late download of the old path under the moved file's version, carrying content of that version onto the old path, or putting another file at the new one; and then the store renames the old path, which still has an entry: the new path is coherent in memory, and on disk too if the rename was persisted |
| `MachineTheorems.OwnershipTheorem` | crates/cacheshfs-core/src/store.rs:390-395 | in every interleaving each id below the allocator is exactly one of referenced, in flight, leaked or freed, where a restart counts every unreferenced one as freed; none is referenced twice, and ids leak only through a rename onto cached content |
| `MachineDisk.DiskTheorem` | crates/cacheshfs-core/src/store.rs:221-225 | in every interleaving each object file on disk is exactly one of: referenced, downloaded and not yet committed, waiting for deletion, leaked by a rename, being replaced by the open commit, or stray; a download still going on, and an id not yet allocated, has a file only if that is a stray one |
| `MachineDisk.CrashLeaves` | crates/cacheshfs-core/src/store.rs:134-145 | with successful persists, the stray files after a restart are exactly the files of downloads not committed, of the commit in progress, of what waited for deletion or had leaked, and those stray before |
| `MachineDisk.NoCrashNoStray` | crates/cacheshfs-core/src/store.rs:442-454 | while fetches begin on free slots and nothing crashes, no stray file comes into being |
| `MachineTheorems.FreedForever` | crates/cacheshfs-core/src/store.rs:221-225 | a freed id is never referenced again in the session |
| `MachineTheorems.SnapshotTheorem` | crates/cacheshfs-core/src/store.rs:458-487 | a completed concurrent range read is cut from chunks that were all recorded under one version |
| `MachineTheorems.SnapshotExact` | crates/cacheshfs-core/src/store.rs:458-487 | if that version is still the remote's, and the path obeys the three rules of the coherence theorem, the bytes are exactly the requested range |
| `MachineTheorems.CrashSafety` | crates/cacheshfs-core/src/store.rs:159-190 | with successful persists, and fetches that follow a revalidation and do not race, a crash at any step, inside commits too, leaves the old or the new index, and it names only objects that exist and are complete; `RevalidationFreesSlots` says which slots a revalidation makes free |
| `MachineTheorems.OneChunkSizeRun` | crates/cacheshfs-core/src/store.rs:429-450 | over any run that keeps the chunk size, all recorded content has it |
| `VfsSlots.FetchesStartFree` | crates/cacheshfs-core/src/vfs.rs:470-475 | in sequential use, with the chunk size kept and reads through handles whose nodes have not moved, every chunk download of a read starts on a free slot and the read deletes no object |
| `MachineSequential.RangeReads` | crates/cacheshfs-core/src/store.rs:458-487 | whenever the sequential store reads a cached range, the machine's reader can run to its end, and returns the same bytes |
| `MachineSequential.FetchReaches` | crates/cacheshfs-core/src/store.rs:379-456 | fetching a chunk into a free slot is a run of the machine, one step for each critical section and each answer, whatever the remote answers within what was asked; `SectionReaches` says so of the other operations of the store |
| `VfsCrashes.OperationReaches` | crates/cacheshfs-core/src/vfs.rs:293-616 | in sequential use, with the chunk size kept, reads through handles whose nodes have not moved, and no answer longer than asked, every operation of the file system, and a restart, is a run of the machine that obeys the rules of the crash theorem, as far as the cache directory is concerned |
| `VfsCrashes.CrashesMidway` | crates/cacheshfs-core/src/store.rs:157-169 | so after any step inside any operation of any such run from an empty directory a crash leaves the index of memory, or the one from before the commit in progress, and it names only objects that exist and are complete |
| `MachineTheorems.CrashTheorem` | crates/cacheshfs-core/src/store.rs:442-454 | without those conditions on fetches, but with no crash inside an earlier commit: all objects named by the saved index exist if and only if no commit is between deleting and persisting |
| `MachineLimits.RecurringVersionBreaksCoherence` | crates/cacheshfs-core/src/store.rs:203-204 | a run in which a version recurs and the cache serves a wrong byte under it |
| `MachineLimits.BorrowedAttributesBreakCoherence` | crates/cacheshfs-core/src/store.rs:379-385 | a run in which a chunk is fetched under attributes of another path, as through a renamed handle, and its label later becomes current |
| `MachineLimits.MovedContentBreaksCoherence` | crates/cacheshfs-core/src/store.rs:278-280 | a run in which a rename carries content under a label that the new path's file also has |
| `MachineLimits.CrashInsideCommitLosesAChunk` | crates/cacheshfs-core/src/store.rs:442-454 | a run in which two threads race for one chunk and a crash inside the second commit leaves an index naming a deleted object |
| `VfsNodes.NodesStep` | crates/cacheshfs-core/src/vfs.rs:57-93 | every operation keeps the node table inverse-consistent and rooted; outside a restart no node loses its path and no id is reused; only rename changes a node's path |
| `VfsNodes.NodesRun` | crates/cacheshfs-core/src/vfs.rs:121-141 | over any run of a session, and the root node stays the mount root |
| `VfsNodes.RenameBijective` | crates/cacheshfs-core/src/vfs.rs:87-92 | a rename keeps paths and nodes a bijection if and only if it does not move a known node onto another known node's path |
| `VfsNodes.RenameKeepsNode` | crates/cacheshfs-core/src/vfs.rs:579-605 | looking up the new name after a successful rename yields the node that had the old one |
| `VfsNodes.ChildConfined` | crates/cacheshfs-core/src/vfs.rs:207-209 | a child path, when it is one, lies strictly below the root and is the parent's path extended by the valid name |
| `VfsDirectories.NodesAfterRename` | crates/cacheshfs-core/src/vfs.rs:87-92 | exactly one node follows a renamed path; a node names an existing path afterwards if and only if it is that one, or named an existing path outside the renamed one, or its dead path lies at or under the new name where the move brought something; `DescendantsAreStale` draws the consequence for nodes below a renamed directory |
| `VfsNodes.ConfinedRun` | crates/cacheshfs-core/src/vfs.rs:207-209 | over any run, whatever names callers pass, every path sent to the remote is the root or the root extended by valid components |
| `VfsNodes.MountOk` | crates/cacheshfs-core/src/vfs.rs:112-143 | a fresh mount satisfies these invariants |
| `VfsFreshness.LookupFreshness` | crates/cacheshfs-core/src/vfs.rs:293-345 | after any run that has been tidy for the path since some moment without a live stamp for it, attributes an online lookup serves without a remote call were reported by the remote for that same path less than the time-to-live ago; untidy are a rename onto its live stamp, a relisting of the path itself while its attributes are cached, and a read through a renamed handle that finds a live stamp without attributes |
| `VfsFreshness.GetattrFreshness` | crates/cacheshfs-core/src/vfs.rs:347-376 | the same for getattr, under the same tidiness |
| `VfsReports.CachedListingFreshness` | crates/cacheshfs-core/src/vfs.rs:214-239 | under the same tidiness an entry of a cached listing is fresh if its own stamp is live, and only if it is, once older reports have expired and while nothing has taken the stamp away |
| `VfsFreshness.FreshStep` | crates/cacheshfs-core/src/vfs.rs:182-190 | every tidy operation keeps the invariant behind this: a live stamp means the remote confirmed the cached attributes since it was set |
| `VfsLimits.RenameFreshExactly` | crates/cacheshfs-core/src/vfs.rs:597-603 | after a rename the moved attributes pass as fresh for the target if and only if the target's old stamp is live |
| `VfsLimits.ListingFreshExactly` | crates/cacheshfs-core/src/vfs.rs:430-430 | a listing re-stamps the directory without new attributes for it, so its own attributes outlive their time-to-live, if and only if that is not zero |
| `VfsLimits.BorrowedFreshExactly` | crates/cacheshfs-core/src/vfs.rs:461-473 | a read through a renamed handle that fetches for a path without attributes gives it those of the node's new path, and they count as fresh if and only if an old stamp is live |
| `VfsRuns.BorrowedAttributesStayFresh` | crates/cacheshfs-core/src/vfs.rs:461-473 | a run in which such attributes, never reported for the path, are then served for it without a call |
| `VfsLimits.ListedDirectoryStaysFresh` | crates/cacheshfs-core/src/vfs.rs:378-432 | a run in which a directory's attributes are served without a call fifteen ticks after they were reported with a time-to-live of ten |
| `VfsLimits.CachedListingOutlivesItsTtl` | crates/cacheshfs-core/src/vfs.rs:381-385 | a run in which a getattr re-stamps a directory and an expired listing is served again |
| `VfsNegative.NegativeSound` | crates/cacheshfs-core/src/vfs.rs:296-304 | a not-found served without a call is backed by an event on that very name, less than the time-to-live and one second ago, that showed or made it missing, and no lookup has found it and no create, mkdir or rename made it since; listings do not count |
| `VfsNegative.ListingDoesNotRestore` | crates/cacheshfs-core/src/vfs.rs:296-304 | a listing, even one that shows the name, leaves a trusted negative entry in force |
| `VfsRuns.ListedNameStaysMissing` | crates/cacheshfs-core/src/vfs.rs:403-431 | a run in which a listed name is still reported missing |
| `VfsNegative.RestoredIsAsked` | crates/cacheshfs-core/src/vfs.rs:520-527 | a name found or made since it was last missing has no negative entry |
| `VfsDurable.DurableRun` | crates/cacheshfs-core/src/store.rs:157-169 | in sequential use the directory always holds the entries and listings memory holds, and every referenced object |
| `VfsOffline.OfflineRun` | crates/cacheshfs-core/src/vfs.rs:149-195 | over whole offline runs the store is unchanged and only refused mutations were sent; `OfflineStep` says so of each operation, and that mutations fail |
| `VfsOffline.OfflineReadsBack` | crates/cacheshfs-core/src/vfs.rs:463-467 | any part of a range hydrated online reads back byte for byte offline with the same chunk size |
| `VfsOffline.ReadHydrates` | crates/cacheshfs-core/src/store.rs:329-339 | a successful online read leaves its range hydrated |
| `VfsRefinement.MirrorsStep` | crates/cacheshfs-core/src/vfs.rs:434-616 | every tidy operation answered by a single-writer remote keeps the cache a mirror: cached paths exist, live stamps mean current versions, cached content is the remote's under its version; untidy are a rename of a path due for revalidation onto a live stamp, a caching read through a renamed handle whose path names another file, and a download that is answered although the stat before it was not, under cached attributes that are out of date |
| `VfsRefinement.StaleFetchMirrorsExactly` | crates/cacheshfs-core/src/vfs.rs:470-475 | a caching read through a handle that was not renamed breaks the mirror if and only if it could not be revalidated, the cached attributes it goes by are out of date, and its first download ends well; `StaleFetchMislabels` says what is then cached: content under the outdated version |
| `VfsRefinement.CachingReadExact` | crates/cacheshfs-core/src/vfs.rs:470-475 | a successful caching read returns exactly the remote's bytes, if and only if it did not fall back, unreachable, to a cached size less than what the file has of the range; in any case it returns what the file has up to the size it went by, whether or not the downloads were answered |
| `VfsRefinement.ReadsRefinePassThrough` | crates/cacheshfs-core/src/vfs.rs:454-476 | after any tidy single-writer run from an empty cache, restarts and same-version writes included, a successful read through an unrenamed handle, itself tidy or not, is of a path that exists, and of a file it returns what pass-through returns, in every mode; in the caching modes if and only if it did not fall back, unreachable, to a cached size less than what the file has of the range |
| `VfsRuns.FallbackReadsPastAnOldEnd` | crates/cacheshfs-core/src/vfs.rs:371-374 | a single-writer run in which that fallback returns nothing although the file has a byte |
| `VfsRuns.FallbackReadsATruncatedFile` | crates/cacheshfs-core/src/vfs.rs:470-475 | a single-writer run in which that fallback, with the download answered, returns one byte of a file that has two, and in which the one byte stays cached and is read again from the cache alone |
| `VfsRuns.RenamedHandleReadsNothing` | crates/cacheshfs-core/src/vfs.rs:461-473 | a single-writer run in which a read through a renamed handle returns nothing although the file at its path has a byte; `VfsLimits.RenamedHandleIsClipped` says so of every such read |
| `VfsRefinement.OfflineReadExact` | crates/cacheshfs-core/src/vfs.rs:467-467 | offline reads that succeed are exact too |
| `VfsRefinement.PassThroughRead` | crates/cacheshfs-core/src/vfs.rs:465-465 | what one honest pass-through answer can be |
| `VfsMirror.SetattrKeepsBytes` | crates/cacheshfs-core/src/vfs.rs:607-616 | content that survives a setattr belongs to a file whose bytes it did not change |
| `VfsLimits.RenameMirrorsExactly` | crates/cacheshfs-core/src/vfs.rs:592-603 | a rename breaks the mirror at its target if and only if the target's stamp is live and the moved attributes are out of date |
| `VfsLimits.RenameOntoAStampServesTheOldSize` | crates/cacheshfs-core/src/vfs.rs:551-605 | a run, from a cache that mirrors the remote, in which that happens: an outdated size is served for the renamed file |
| `VfsListing.ListingReplays` | crates/cacheshfs-core/src/vfs.rs:214-239 | a listing the remote gave with distinct names is served again with the same names, order, nodes and attributes, after any run that changes no name in the directory and neither moves a child nor learns other attributes of one; listing or changing a child directory does not matter |
| `VfsListing.ListingShows` | crates/cacheshfs-core/src/vfs.rs:403-431 | what the cache and the node table hold after an online listing |
| `VfsListing.SparesKeeps` | crates/cacheshfs-core/src/vfs.rs:293-616 | which operations leave a path's attributes and node alone, and which leave the names in a directory alone |
| `VfsDirectories.ListingStep` | crates/cacheshfs-core/src/vfs.rs:378-616 | every operation answered by a single-writer remote that lists completely keeps cached listings true, exactly the names that exist there now, provided a rename has no listing below it whose directory has no attributes |
| `VfsDirectories.CachedListingTrue` | crates/cacheshfs-core/src/vfs.rs:214-239 | after any such run from an empty cache a cached listing shows a name if and only if the remote has that child and its attributes are cached |
| `VfsDirectories.OrphanListingStays` | crates/cacheshfs-core/src/store.rs:285-298 | a listing below a renamed directory is evicted if and only if its own attributes were cached; otherwise it outlives its directory |
| `VfsOrphanRun.OrphanListingRun` | crates/cacheshfs-core/src/store.rs:285-298 | a single-writer run in which that happens |
| `VfsDirectories.ListingWithoutAttributes` | crates/cacheshfs-core/src/store.rs:118-121 | a listing is recorded without the directory's own attributes |
| `VfsEviction.RenameEvictsExactly` | crates/cacheshfs-core/src/vfs.rs:594-596 | in every run the cache's keys lie within the root, so directory renames evict exactly |
| `VfsAnswers.ServerIsAuthoritative` | crates/cacheshfs-core/src/vfs.rs:241-247 | after any run from an empty cache, every operation that calls the remote fails with exactly the error of a call that failed, but for a stat or a read_dir that found it unreachable; and if all calls were answered it succeeds, but for a listing with something in it that is not a name; `WriteAnswers`, `MkdirAnswers`, `SetattrAnswers`, `RemoveAnswers` and `RenameAnswers` say which one call each change makes and what it answers |
| `VfsAnswers.LookupAnswers` | crates/cacheshfs-core/src/vfs.rs:293-345 | when a lookup asks (exactly when it is online, the name not known missing within the time-to-live and one second, and no confirmed attributes cached), the answer is the remote's attributes or error, and only unreachable is replaced by what is cached; when it does not ask, the cached attributes or not-found; the node is the one the tables have for the path; `GetattrAnswers` is the counterpart for a known node |
| `VfsAnswers.ReaddirAnswers` | crates/cacheshfs-core/src/vfs.rs:378-432 | when a listing asks, the caller gets the entries of the remote without the dot entries, in its order, with its attributes, or the remote's error; only unreachable is replaced by the cached listing, which shows, in order, the listed names whose attributes are cached; `ListingConfirms`: a listing told in full confirms its directory, one that broke off does not |
| `VfsAnswers.OpenAnswers` | crates/cacheshfs-core/src/vfs.rs:434-452 | open gives out a handle nobody has, bound to the node and its path; truncation is one call that sets the size to zero and nothing else, and if it fails nothing has happened |
| `VfsAnswers.ReadAnswers` | crates/cacheshfs-core/src/vfs.rs:470-475 | a caching read succeeds if and only if its revalidation did and every download was answered, and fails with the error of the one that was not; `PlainReadAnswers` says what the other modes and unknown handles answer |
| `VfsAnswers.CreateAnswers` | crates/cacheshfs-core/src/vfs.rs:506-532 | create answers with the remote's attributes, the node of the new path and a handle bound to both, or with the remote's error and no other effect |
| `VfsAnswers.ReadOnlyDenies` | crates/cacheshfs-core/src/vfs.rs:198-204 | a read-only mount denies every change, and opening for one, before anything happens |
| `VfsAnswers.UnresolvedRefused` | crates/cacheshfs-core/src/vfs.rs:59-61 | unknown nodes are not found, unknown handles and bad names invalid, and nothing happens |
| `VfsGuarantees.HandleStable` | crates/cacheshfs-core/src/vfs.rs:78-83 | a handle stays bound to its node and path until released |
| `VfsGuarantees.ReleasedForever` | crates/cacheshfs-core/src/vfs.rs:501-504 | a released handle is never valid again |
| `VfsGuarantees.ReadOnlyRun` | crates/cacheshfs-core/src/vfs.rs:198-204 | whatever is asked of it, only queries reach the remote |
| `VfsGuarantees.ConfirmedIsServed` | crates/cacheshfs-core/src/vfs.rs:317-327 | attributes just returned by the remote are served without a call until the time-to-live is over |
| `VfsGuarantees.ListedIsServed` | crates/cacheshfs-core/src/vfs.rs:416-431 | so are those of every listed entry |
| `VfsGuarantees.RemovedIsMissing` | crates/cacheshfs-core/src/vfs.rs:557-561 | a name just removed or renamed away is missing without a call for one second or the time-to-live |
| `VfsGuarantees.WrittenIsAsked` | crates/cacheshfs-core/src/vfs.rs:488-493 | after a write the next getattr makes exactly one stat call, and the cached contents are gone even for reads that must not call |
| `VfsModule.CacheVfs.constructor` | crates/cacheshfs-core/src/vfs.rs:112-143 | a mount starts with the root node alone and the persisted store |
| `VfsModule.CacheVfs.Intern` | crates/cacheshfs-core/src/vfs.rs:66-75 | refines `VfsModel.Intern`: a known path keeps its node, a new one gets the next id |
| `VfsModule.CacheVfs.OpenHandle` | crates/cacheshfs-core/src/vfs.rs:78-83 | refines `VfsModel.OpenHandle` |
| `VfsModule.CacheVfs.RenamePath` | crates/cacheshfs-core/src/vfs.rs:87-92 | refines `VfsModel.RenamePath` |
| `VfsModule.CacheVfs.FreshNegative` | crates/cacheshfs-core/src/vfs.rs:193-195 | by the shorter of time-to-live and one second |
| `VfsModule.CacheVfs.Lookup` | crates/cacheshfs-core/src/vfs.rs:293-345 | refines `VfsModel.Lookup`: state, calls and result |
| `VfsModule.CacheVfs.Getattr` | crates/cacheshfs-core/src/vfs.rs:347-376 | refines `VfsModel.Getattr` |
| `VfsModule.CacheVfs.ReaddirFromCache` | crates/cacheshfs-core/src/vfs.rs:214-239 | both loops refine `VfsModel.ReaddirFromCache` |
| `VfsModule.CacheVfs.Readdir` | crates/cacheshfs-core/src/vfs.rs:378-432 | refines `VfsModel.Readdir`, the early exit at a bad name included |
| `VfsModule.CacheVfs.Open` | crates/cacheshfs-core/src/vfs.rs:434-452 | refines `VfsModel.Open` |
| `VfsModule.CacheVfs.Read` | crates/cacheshfs-core/src/vfs.rs:454-476 | refines `VfsModel.Read` in all four modes |
| `VfsModule.CacheVfs.Write` | crates/cacheshfs-core/src/vfs.rs:478-494 | refines `VfsModel.Write` |
| `VfsModule.CacheVfs.Release` | crates/cacheshfs-core/src/vfs.rs:501-504 | forgets exactly this handle |
| `VfsModule.CacheVfs.Create` | crates/cacheshfs-core/src/vfs.rs:506-532 | refines `VfsModel.Create` |
| `VfsModule.CacheVfs.Mkdir` | crates/cacheshfs-core/src/vfs.rs:534-549 | refines `VfsModel.Mkdir` |
| `VfsModule.CacheVfs.Unlink` | crates/cacheshfs-core/src/vfs.rs:551-563 | refines `VfsModel.Unlink` |
| `VfsModule.CacheVfs.Rmdir` | crates/cacheshfs-core/src/vfs.rs:565-577 | refines `VfsModel.Rmdir` |
| `VfsModule.CacheVfs.Rename` | crates/cacheshfs-core/src/vfs.rs:579-605 | refines `VfsModel.Rename` |
| `VfsModule.CacheVfs.Setattr` | crates/cacheshfs-core/src/vfs.rs:607-616 | refines `VfsModel.Setattr` |
| `SshConfig.GlobExact` | crates/cacheshfs-cli/src/ssh_config.rs:128-144 | the recursive search accepts a text if and only if some assignment of runs to `*` and single characters to `?` spells it |
| `SshConfig.HostPatternsMatch` | crates/cacheshfs-cli/src/ssh_config.rs:113-125 | a host line is active if and only if some plain pattern matches and no negated one does |
| `SshConfig.WordsExact` | crates/cacheshfs-cli/src/ssh_config.rs:115-115 | whatever blanks stand before, between and after the patterns, exactly the patterns come back, in order and undivided |
| `SshConfig.Resolve` | crates/cacheshfs-cli/src/ssh_config.rs:33-83 | each scalar is the first usable value of an active line, identity files accumulate in order, the nearest block line above decides activity, and `Match` deactivates |
| `SshConfig.LineMeans` | crates/cacheshfs-cli/src/ssh_config.rs:45-79 | a line of a keyword in any case, any blanks and equals signs, and a value, quoted or not, with blanks before and blanks or a comment behind: hostname, user, port and identityfile give the value to that field and no other, host opens a block with it, match opens one that never applies, and any other keyword says nothing; `LineSaysNothing`: so do blank lines, comment lines and a keyword by itself (`SeparatorsExact` says which characters are blank) |
| `SshConfig.LinesExact` | crates/cacheshfs-cli/src/ssh_config.rs:40-40 | a text is cut at its line feeds, a carriage return before one goes with it, and the lines come back in order |
| `SshConfig.ResolveText` | crates/cacheshfs-cli/src/ssh_config.rs:33-40 | the same for a whole text, split into lines |
| `SshConfig.MeaningUnique` | crates/cacheshfs-cli/src/ssh_config.rs:28-33 | a config has one meaning for an alias |
| `SshConfig.AppendKeeps` | crates/cacheshfs-cli/src/ssh_config.rs:30-32 | appending lines never changes a field that is set and only adds identity files |
| `SshConfig.AppendTextKeeps` | crates/cacheshfs-cli/src/ssh_config.rs:30-32 | the same for text appended after a complete line |
| `SshConfig.SplitsBack` | crates/cacheshfs-cli/src/ssh_config.rs:98-108 | keyword and value are recovered whatever mix of blanks and `=` separates them; `UnquotesBack` recovers a quoted value with its blanks |
| `SshConfig.CommentExact` | crates/cacheshfs-cli/src/ssh_config.rs:87-94 | only the first `#` counts: the line is cut there if it stands first or after whitespace, and otherwise kept whole |
| `SshConfig.PortRoundTrip` | crates/cacheshfs-cli/src/ssh_config.rs:68-74 | a port is read back from its decimal digits, with or without a plus sign or a leading zero, and numbers above 65535 are not ports |
| `SshConfig.PortExact` | crates/cacheshfs-cli/src/ssh_config.rs:68-74 | nothing else is a port: what is read as one is an optional plus sign, zeros and the decimal digits of a number below 65536 |
| `WinPath.ComponentsOfPrint` | crates/cacheshfs-windows/src/path.rs:21-28 | components undo the canonical printing |
| `WinPath.SeparatorsAlike` | crates/cacheshfs-windows/src/path.rs:21-28 | slashes and backslashes separate alike, and the canonical spelling has backslashes only (`CanonicalBackslashes`) |
| `WinPath.SameIgnoringCaseExact` | crates/cacheshfs-windows/src/path.rs:44-44 | names are the same but for case if and only if they are so letter by letter, A-Z against a-z and nothing else |
| `WinPath.ComponentExact` | crates/cacheshfs-windows/src/path.rs:35-52 | the exact name wins; only if it is not found the directory is listed, and the first entry that has the name but for case is taken under its own name |
| `WinPath.WalkFollows` | crates/cacheshfs-windows/src/path.rs:56-71 | resolving looks up each component in the node the one before led to, starting at the root, and stops with the error of the first that cannot be looked up; `RootAnswers` says what the root answers |
| `WinPath.FindComponent` | crates/cacheshfs-windows/src/path.rs:35-52 | exact lookup, then the first entry equal but for ASCII case; other errors are passed on |
| `WinPath.Resolve` | crates/cacheshfs-windows/src/path.rs:56-71 | the loop refines the walk over the components and prints the real names |
| `WinPath.ResolveParent` | crates/cacheshfs-windows/src/path.rs:79-94 | the loop refines the walk over all components but the last |
| `WinPath.CanonicalIsFixpoint` | crates/cacheshfs-windows/src/path.rs:56-71 | resolving a canonical path gives the same metadata and the same string, and its components are the given ones but for ASCII case |
| `WinPath.ParentAgrees` | crates/cacheshfs-windows/src/path.rs:79-94 | resolving the parent and looking up the leaf agrees with resolving the path, in success and in failure |
| `WinPath.CaseBlindExactly` | crates/cacheshfs-windows/src/path.rs:30-52 | a directory resolves names without regard to case if and only if no two of its names differ in case alone |
| `WinPath.WalkCaseBlind` | crates/cacheshfs-windows/src/path.rs:60-66 | over such directories, paths that differ in case alone resolve alike |

## Left out

- The SFTP transport, the FUSE and WinFsp adapters, and the command line: they translate calls and depend on foreign libraries.
- JSON encoding, file I/O and fsync: the index and the objects on disk are values, and persisting replaces the index at once. Local I/O errors while downloading a chunk are not modelled.
- An unreadable or partly written index file, which the source treats as an empty cache.
- The legacy whole-file object, beyond being one more id that is freed with its content.
- Mutex poisoning, symbolic links, hard links and access times.
- `flush`, which does nothing.
- Tilde expansion of identity files, and UTF-16 conversion of Windows paths: paths arrive as character sequences.
- 64-bit wrap-around of node, handle and object counters: they are unbounded here. `Chunks.WrapsOnlyAtTheEnd` says when the chunk arithmetic fits.
- The clock inside one operation: each VFS operation happens at one instant, so a stamp is not later than the answer it belongs to.
- Concurrent VFS calls: the VFS results are about sequences of operations; the store's concurrency is modelled in full.
- Error message texts: errors are kinds.

# Verification of bb-action-router

A Dafny model of the parts of bb-action-router that rewrite remote-execution actions so that they run inside
user-supplied docker images, with proofs about every input, every run and every reachable state. Four parts are
modelled; `dafny verify dfyconfig.toml` checks all of them.

**The root cache** (`pkg/fetcher/server.go`). `RootFetcherServer` has the mutex-protected sections as methods of a
class; each is proved equal to a function on the value of the cache (`RootCache`). `RootCacheRuns` puts a step system
on top: one program counter per `Acquire` call, singleflight groups, fetch slots, evictions, releases and background
deletions, interleaved in any order. Every step keeps an invariant, `RootCacheTheorems` draws the conclusions for
whole runs, and `RootCacheProgress` shows that no run gets stuck. Assumed of the environment: lease tokens are unique,
the clock does not run backwards, the rename to a trash name succeeds, and a materialized root gets a path that was not
on disk (cmd/bb_docker_root_fetcher/main.go renames it there).

**The layer extractor** (`pkg/blobstore/cas_uploading_layer_extractor.go`). `LayerTree` is the flat file system, a map
from paths to entries on which each tar event acts path by path, and the merge that section "Whiteouts" of the OCI
image layer specification defines. `HardLinks` is the resolution of hard links in an order that map iteration leaves
open. `LayerExtractor` is the heap of directory nodes that the handlers update in place, proved to represent the flat
tree after every call. `LinkWalks` and `LinkKnots` are the orders in which its recursion can come across the links,
and when all or some of these succeed. `RemoteExecution`, `UploadedTree` and `LayerUpload` are the upload as a
Merkle tree and reading it back. `ImageExtraction` composes them from tar entries to root digest, and `DirTreeVerifier`
is the reader's side.

**The action pipeline** (`pkg/actionrouter`). `Pipeline` says what each operation does and what follows for every list
of operations; `PipelineMeaning` states what that comes to, position by position; `ActionHandling` is the mutable
`pipelineState` and `HandleAction`; `MergeRoot` and `ImageRoots` are the merge operation and its lookup of image roots.
Templates are functions of the state they can read: platform properties, working directory and request metadata.

**The text layer of the helper.** `ChrootConfig` and `CommandLine` are the flag and config file parser
(`cmd/bb_chroot_helper/config.cc`), `WrappedCommand` joins it to the pipeline that wrapped the command, and `IdEntry`
is the rewriter of `/etc/passwd` and `/etc/group` (`pkg/blobstore/build_user_injecting_visitor.go`).

Digests are an injective function on stored values under which no directory contains itself, the CAS is a map from
digests to blobs, and TOML is a map of typed values. `Text` and `Sorting` hold string order, decimal numerals and the
contract of `slices.SortFunc`: an ordered permutation, ties in any order.

Four promises do not hold as stated, and the model follows the code:

- The OCI specification applies a whiteout to the lower layers only, whatever its place in the archive. The extractor
  applies it when it comes along, so that it also erases what the same layer wrote before. `LateWhiteoutDiffers` is an
  example, and `StreamIsMerge` gives the exact condition under which the two agree.
- The outcome of hard-link resolution does not depend on iteration order, but whether it succeeds does.
  `SuccessDependsOnOrder` is an example. Over the orders that the recursion can take, it never fails if and only if
  every target is there, and is no link or a link in a directory above (`EveryWalkSucceedsIff`); and it can succeed if
  and only if every target is there and in no directory do names wait for one another (`SomeWalkSucceedsIff`).
- Rewriting `/etc/passwd` twice is not always the same as once: the second pass fails when a line does not fit the
  buffer of `bufio.Scanner` together with its newline. `LongNameFails` is an example and `SecondRunSucceedsIff` the
  exact condition.
- The visitor names the build user in `/etc/passwd` only where the tar header spells the name `etc/passwd`.
  `OtherSpellingIsKept` is an example and `NamesUserIff` the exact condition on an entry;
  `UploadedPasswdNamesTheBuildUser` is the exact condition on an image, by the last entry that wrote the file.

## Model

| member | source | states |
|---|---|---|
| `RootFetcherServer.NewServer` | pkg/fetcher/server.go:105-143 | refused exactly when the distinct prefetched images take half of the slots or more; otherwise an empty cache with valid boosts |
| `RootFetcherServer.NormalizedOptions` | pkg/fetcher/server.go:106-123 | what each configured limit and boost becomes: positive values stay, others get their defaults, and the ceiling is no less than one boost |
| `RootFetcherServer.Server.TouchLocked` | pkg/fetcher/server.go:245-255 | the new virtual last use is the decayed, boosted and capped one |
| `RootFetcherServer.Server.AcquireCachedRoot` | pkg/fetcher/server.go:218-227 | leases and touches the cached root, nothing on a miss |
| `RootFetcherServer.Server.AttachLease` | pkg/fetcher/server.go:232-241 | leases exactly when the object is still the one cached under the reference |
| `RootFetcherServer.Server.ReleaseLease` | pkg/fetcher/server.go:179-191 | removes the token, and only the last release sets idleSince |
| `RootFetcherServer.Server.DiscardLocked` | pkg/fetcher/server.go:345-361 | the directory moves to the next trash name, or is deleted in place |
| `RootFetcherServer.Server.ReapDiscarded` | pkg/fetcher/server.go:355-360 | deletes one discarded directory and nothing else |
| `RootFetcherServer.Server.FindVictim` | pkg/fetcher/server.go:308-325 | the scan, in any map order, finds the first evictable root by virtual last use and reference, or that there is none |
| `RootFetcherServer.Server.EvictOneIdleLocked` | pkg/fetcher/server.go:307-338 | exactly the victim leaves the map, the gauge follows and its directory is discarded; or there is none and nothing changes |
| `RootFetcherServer.Server.FinishFetchRef` | pkg/fetcher/server.go:268-301 | an existing root is returned and nothing leaves; a cache with room only gains the new root; from a full one the victim leaves and the root enters, or there is no victim and the cache stays as it is |
| `RootFetcherServer.Server.MakeRoom` | pkg/fetcher/server.go:283-289 | a cache with room is left alone; a full one loses exactly the victim of the scan, or nothing |
| `RootFetcherServer.Server.FinishMissing` | pkg/fetcher/server.go:283-300 | a reference that is not cached enters with or without an eviction, or is refused with the cache as it was |
| `RootFetcherServer.Server.InsertRoot` | pkg/fetcher/server.go:291-300 | the new root is leased to the leader and counted |
| `RootCache.TrashNameInjective` | pkg/fetcher/server.go:346-348 | trash names with different numbers differ, whatever they were made from |
| `RootCache.VictimUnique` | pkg/fetcher/server.go:310-322 | there is at most one victim, so map order does not matter |
| `RootCache.TouchBounds` | pkg/fetcher/server.go:245-255 | after an acquire at t the virtual last use is in [t+UseBoost, t+MaxUseBoost], and it never decreases |
| `RootCache.TouchExactly` | pkg/fetcher/server.go:245-255 | the three cases by value: credit used up, credit left, and credit at its ceiling |
| `RootCache.CreditIsCappedSum` | pkg/fetcher/server.go:245-255 | n acquires at one instant give exactly min(n*UseBoost, MaxUseBoost) |
| `RootCacheRuns.FinishStepIsFinishFetch` | pkg/fetcher/server.go:268-301 | the step that ends a fetch is the critical section of the server |
| `RootCacheRuns.InitInv` | pkg/fetcher/server.go:135-142 | the empty cache satisfies the invariant |
| `RootCacheRuns.ReadyIsEnabled` | pkg/fetcher/server.go:148-177 | in reachable states a step needs only what its own call can see |
| `RootCacheRuns.OwnerAttaches` | pkg/fetcher/server.go:171-174 | a claim on an inserted root keeps it cached, so attaching succeeds |
| `RootCacheRuns.StepKeeps` | pkg/fetcher/server.go:148-361 | every step of every call keeps the invariant on references, flights, leases, credit, disk and capacity |
| `RootCacheTheorems.RunInv` | pkg/fetcher/server.go:148-361 | the invariant holds in every state of every run |
| `RootCacheTheorems.HoldersAreSafe` | pkg/fetcher/server.go:148-191 | every acquire not yet released has its token in the leases of the very object cached under its reference, and its directory is on disk, not trash |
| `RootCacheTheorems.HeldDirectoryStays` | pkg/fetcher/server.go:148-191 | over a whole run that directory keeps its name and contents while the lease is held |
| `RootCacheTheorems.LeasesAreExact` | pkg/fetcher/server.go:155-191 | every lease belongs to a call still running or not yet released |
| `RootCacheTheorems.InserterAttaches` | pkg/fetcher/server.go:171-176 | a leader whose fetch inserted the root never fails to attach |
| `RootCacheTheorems.SecondReleaseIsNoOp` | pkg/fetcher/server.go:183-185 | a repeated release changes nothing, not even idleSince or a newer root |
| `RootCacheTheorems.OneFetchPerReference` | pkg/fetcher/server.go:162-164 | at most one call at a time leads a fetch of a reference |
| `RootCacheTheorems.OwnershipIsExclusive` | pkg/fetcher/server.go:257-361 | every directory on disk belongs to exactly one cached root, one unfinished fetch, or the trash |
| `RootCacheTheorems.DeletionSparesLiveRoots` | pkg/fetcher/server.go:345-361 | a background deletion leaves every live directory as it is |
| `RootCacheTheorems.TrashNamesAreNew` | pkg/fetcher/server.go:345-352 | the next trash name was on disk in no earlier state of the run |
| `RootCacheTheorems.CapacityHolds` | pkg/fetcher/server.go:283-299 | at most MaxRoots roots, the gauge counts them, fetches stay within their limit |
| `RootCacheTheorems.RoomMeansNoEviction` | pkg/fetcher/server.go:283-299 | in every step of every run a cache with room keeps all its roots; from a full one at most one leaves, and it is the victim; what stays is the same object |
| `RootCacheTheorems.InsertedRootIsNew` | pkg/fetcher/server.go:291-300 | an inserted root is a new object, leased to its leader alone, with no credit yet |
| `RootCacheTheorems.PinnedRootsStay` | pkg/fetcher/server.go:314-316 | a cached pinned root is the same object in all later states |
| `RootCacheTheorems.RefusalMeansBusy` | pkg/fetcher/server.go:125-133 | then more than half of the slots are unpinned roots with distinct live leases |
| `RootCacheTheorems.UnusedIsLeased` | pkg/fetcher/server.go:291-298 | a root nobody acquired yet is leased to its fetcher |
| `RootCacheTheorems.EvictableWasUsed` | pkg/fetcher/server.go:307-322 | every evictable root has been acquired since insertion, with credit to match |
| `RootCacheTheorems.RecentUseProtects` | pkg/fetcher/server.go:243-255 | of two evictable roots, one acquired more than MaxUseBoost-UseBoost later is not the victim |
| `RootCacheTheorems.EqualBoostsAreLRU` | pkg/fetcher/server.go:112-120 | with equal boosts the victim is exactly the least recently acquired root, ties by reference |
| `RootCacheTheorems.CreditNeverDecreases` | pkg/fetcher/server.go:245-255 | over a run no virtual last use goes back |
| `RootCacheProgress.ScanExists` | pkg/fetcher/server.go:307-325 | a scan for a victim always has a result |
| `RootCacheProgress.StepsGoForward` | pkg/fetcher/server.go:148-177 | each step of Acquire brings its own call, which has at most seven of them, nearer to the end and moves no other |
| `RootCacheProgress.RunLed` | pkg/fetcher/server.go:162-164 | in every state of every run a pending flight has a leader at work |
| `RootCacheProgress.NeverStuck` | pkg/fetcher/server.go:148-301 | in every reachable state with an unfinished Acquire some Acquire can take a step, whatever holders and deletions do |
| `LayerTree.ApplyPointwise` | pkg/blobstore/cas_uploading_layer_extractor.go:44-133 | an event changes its path, what lies beneath or above as directories, and nothing else |
| `LayerTree.ApplyWellFormed` | pkg/blobstore/cas_uploading_layer_extractor.go:204-227 | the result is a tree again: parents are directories |
| `LayerTree.StreamPointwise` | pkg/blobstore/cas_uploading_layer_extractor.go:221-227 | a stream of events is last-writer-wins at every path |
| `LayerTree.StreamWellFormed` | pkg/blobstore/cas_uploading_layer_extractor.go:44-133 | a whole layer keeps the tree a tree |
| `LayerTree.StreamIsMerge` | pkg/blobstore/cas_uploading_layer_extractor.go:52-108 | streaming a consistent layer is the OCI merge if and only if whatever its whiteouts erase of it is written again |
| `LayerTree.OrderedLayerIsMerge` | pkg/blobstore/cas_uploading_layer_extractor.go:56-71 | whiteouts before their siblings are enough |
| `LayerTree.LateWhiteoutDiffers` | pkg/blobstore/cas_uploading_layer_extractor.go:58-65 | a late opaque whiteout removes a file that the standard keeps |
| `HardLinks.SuccessIsResolved` | pkg/blobstore/cas_uploading_layer_extractor.go:229-280 | any successful order makes every link a copy of what its chain finally names |
| `HardLinks.SuccessCopiesEnds` | pkg/blobstore/cas_uploading_layer_extractor.go:242-270 | every link has a chain of targets, all links but the last; a file or symlink at its end is copied as it is, a directory gives a symlink with the text of the last link, and nothing else changes |
| `HardLinks.ResolutionIsUnique` | pkg/blobstore/cas_uploading_layer_extractor.go:229-280 | two successful orders give the same tree |
| `HardLinks.ResolvedIsClean` | pkg/blobstore/cas_uploading_layer_extractor.go:242-270 | no link is left, other entries are untouched, the tree stays a tree |
| `HardLinks.OrderSucceedsIff` | pkg/blobstore/cas_uploading_layer_extractor.go:230-270 | an order succeeds if and only if each target is there and is no link, or one handled before |
| `HardLinks.DirectLinksAlwaysResolve` | pkg/blobstore/cas_uploading_layer_extractor.go:242-270 | links to what is no link resolve in every order |
| `HardLinks.CyclesAlwaysFail` | pkg/blobstore/cas_uploading_layer_extractor.go:260-269 | a cycle of links fails in every order |
| `HardLinks.SuccessDependsOnOrder` | pkg/blobstore/cas_uploading_layer_extractor.go:230-270 | an example where one order succeeds and the other fails |
| `HardLinks.ExtractionIsOciImage` | pkg/blobstore/cas_uploading_layer_extractor.go:135-140 | any list of settled layers extracts to the image that the standard defines |
| `HardLinks.LaterLayersKeepCopies` | pkg/blobstore/cas_uploading_layer_extractor.go:136-140 | a later layer that overwrites a link's target leaves the former link alone |
| `LinkWalks.WalkTo` | pkg/blobstore/cas_uploading_layer_extractor.go:229-280 | for any link there is an order that the recursion can take and that reaches it with only links in directories above done |
| `LinkWalks.MisplacedFails` | pkg/blobstore/cas_uploading_layer_extractor.go:229-280 | a target that is missing, or a link not in a directory above, makes some order of the recursion fail |
| `LinkWalks.EveryWalkSucceedsIff` | pkg/blobstore/cas_uploading_layer_extractor.go:229-280 | every order that the recursion can take succeeds if and only if no link has such a target |
| `LinkKnots.SuccessHasNoKnot` | pkg/blobstore/cas_uploading_layer_extractor.go:229-280 | when an order of the recursion succeeds, no names of a directory wait for one another in a circle |
| `LinkKnots.SomeWalkSucceedsIff` | pkg/blobstore/cas_uploading_layer_extractor.go:229-280 | some order that the recursion can take succeeds if and only if every target is there and there is no such circle |
| `LinkKnots.LinkDownFails` | pkg/blobstore/cas_uploading_layer_extractor.go:272-276 | a link to a link further down fails in every order of the recursion |
| `LayerExtractor.UploadDirState.Delete` | pkg/blobstore/cas_uploading_layer_extractor.go:221-227 | the name is gone from all four maps, the others stay |
| `LayerExtractor.Extractor.constructor` | pkg/blobstore/cas_uploading_layer_extractor.go:34-41 | an empty tree |
| `LayerExtractor.Extractor.GetOrCreateChildDirState` | pkg/blobstore/cas_uploading_layer_extractor.go:204-219 | all directories on the way exist, replacing other entries; the node returned stands at the path |
| `LayerExtractor.Extractor.GetChildDirState` | pkg/blobstore/cas_uploading_layer_extractor.go:187-199 | finds the node exactly when the tree has a directory there |
| `LayerExtractor.Extractor.OnDirectorySeen` | pkg/blobstore/cas_uploading_layer_extractor.go:44-49 | the heap represents the tree with the directory; nodes unshared, names disjoint |
| `LayerExtractor.Extractor.OnFileSeen` | pkg/blobstore/cas_uploading_layer_extractor.go:52-108 | ".wh." and a name removes that name and all beneath it, ".wh..wh..opq" all beneath the directory, any other name is a file with the digest and the executable bit; a failed upload has already removed the old entry |
| `LayerExtractor.FileMeaning` | pkg/blobstore/cas_uploading_layer_extractor.go:56-105 | what the name of a tar file stands for, with the whiteout texts written out, and what is then in the tree |
| `LayerExtractor.Extractor.OnLinkSeen` | pkg/blobstore/cas_uploading_layer_extractor.go:111-117 | the heap represents the tree with the pending link |
| `LayerExtractor.Extractor.OnSymlinkSeen` | pkg/blobstore/cas_uploading_layer_extractor.go:120-133 | the heap represents the tree with the symlink |
| `LayerExtractor.Extractor.FindSource` | pkg/blobstore/cas_uploading_layer_extractor.go:231-269 | what a link is replaced by is decided by the tree at its target |
| `LayerExtractor.Extractor.ResolveOne` | pkg/blobstore/cas_uploading_layer_extractor.go:230-270 | one link becomes a copy of its target, or nothing changes |
| `LayerExtractor.Extractor.ResolveHardlinks` | pkg/blobstore/cas_uploading_layer_extractor.go:229-280 | the links beneath a directory are handled in an order that takes its own first and then one subtree after the other, and no others; failure means a misplaced target |
| `LayerExtractor.Extractor.OnLayerComplete` | pkg/blobstore/cas_uploading_layer_extractor.go:136-140 | success makes every link a copy of the end of its chain, keeps everything else, and was reached by such an order; failure means a misplaced target, and that some such order fails |
| `LayerExtractor.Extractor.Reset` | pkg/blobstore/cas_uploading_layer_extractor.go:150-151 | a new, empty tree |
| `LayerExtractor.MkDirsIsApply` | pkg/blobstore/cas_uploading_layer_extractor.go:208-217 | creating directories one level at a time is one event |
| `LayerExtractor.PutIsDeleteThenSet` | pkg/blobstore/cas_uploading_layer_extractor.go:111-133 | delete then set is last-writer-wins, with everything beneath gone |
| `LayerExtractor.WhiteoutIsDelete` | pkg/blobstore/cas_uploading_layer_extractor.go:66-69 | a whiteout is the removal of a path and what is beneath it |
| `LayerExtractor.OpaqueIsClear` | pkg/blobstore/cas_uploading_layer_extractor.go:59-65 | clearing the four maps removes exactly what lies beneath |
| `LayerUpload.ToSlice` | pkg/blobstore/cas_uploading_layer_extractor.go:351-357 | every value once, in some order of the keys |
| `LayerUpload.AssertNoDuplicateNames` | pkg/blobstore/cas_uploading_layer_extractor.go:282-306 | passes if and only if no name occurs twice, in one list or in two |
| `LayerUpload.Upload` | pkg/blobstore/cas_uploading_layer_extractor.go:308-348 | the digest names a canonical Merkle tree for the directory; nothing stored before changes |
| `LayerUpload.UploadDirectories` | pkg/blobstore/cas_uploading_layer_extractor.go:144-152 | the whole tree is stored and the extractor starts over empty |
| `RemoteExecution.SortDirectory` | pkg/blobstore/cas_uploading_layer_extractor.go:332-341 | the three lists are ordered permutations of the input |
| `RemoteExecution.SortedFormKeeps` | pkg/actionrouter/pipeline.go:278-288 | sorting keeps what every name leads to, and unique names |
| `RemoteExecution.CanonicalUnique` | pkg/blobstore/cas_uploading_layer_extractor.go:332-341 | a canonical directory is determined by what its names lead to |
| `Text.LessIff` | pkg/blobstore/cas_uploading_layer_extractor.go:332-341 | the order of names: at the first difference one name ends or has the smaller character |
| `UploadedTree.ReadBack` | pkg/blobstore/cas_uploading_layer_extractor.go:308-348 | following digests from the root finds exactly the tree's directories, files with their digest and executable bit, and symlinks with their target |
| `UploadedTree.DigestIsCanonical` | pkg/blobstore/cas_uploading_layer_extractor.go:308-348 | equal trees get equal digests, whatever the iteration order or the store |
| `UploadedTree.DigestDeterminesTree` | pkg/blobstore/cas_uploading_layer_extractor.go:308-348 | one digest stands for one tree only, in whatever stores |
| `ImageExtraction.InjectUser` | pkg/blobstore/build_user_injecting_visitor.go:47-68 | passwd and group are rewritten, or refused for a line that is too long; other files pass as they are |
| `ImageExtraction.InjectedTexts` | pkg/blobstore/build_user_injecting_visitor.go:47-68 | the passwd and group texts for an image without entries, letter by letter: the first by uid and gid, the second by gid; other headers pass |
| `ImageExtraction.VisitEntry` | pkg/docker/layer_extractor.go:52-76 | refused exactly when a file's contents cannot be rewritten or uploaded; otherwise the entry's event, its contents stored |
| `ImageExtraction.ProcessTar` | pkg/docker/layer_extractor.go:37-80 | succeeds exactly when every entry is accepted; the tree is then that of the layer's stream of events, and all contents are stored |
| `ImageExtraction.ExtractLayer` | pkg/docker/layer_extractor.go:23-35 | the events, then links resolved and none left; failure means a refused entry or a misplaced link target |
| `ImageExtraction.ExtractLayers` | pkg/actionrouter/image_to_cas_uploader.go:126-134 | the loop leaves a tree that the layers extract to, every entry accepted and stored, or stops at a layer that can fail |
| `ImageExtraction.UploadImage` | pkg/actionrouter/image_to_cas_uploader.go:126-143 | the root digest stands for a tree that the layers extract to, every entry was accepted, all of it is in the CAS and nothing there is lost; failure means that a layer can fail |
| `ImageExtraction.UploadedImageIsOci` | pkg/actionrouter/image_to_cas_uploader.go:126-143 | for settled layers, paths from the uploaded root lead to what the OCI image has there, and to nothing else |
| `ImageExtraction.LastEntryDecides` | pkg/docker/layer_extractor.go:52-76 | for every path, the last tar entry of the image that touches it decides what the uploaded root has there: its file, symlink or directory, or nothing after a whiteout or when no entry touches it |
| `ImageExtraction.UploadIsDeterministic` | pkg/actionrouter/image_to_cas_uploader.go:126-143 | two uploads of an image give the same digest |
| `ImageExtraction.StoredIsComplete` | pkg/actionrouter/image_to_cas_uploader.go:126-143 | once its files' contents are stored, an uploaded image is complete |
| `ImageExtraction.UploadedPasswdNamesTheBuildUser` | pkg/actionrouter/image_to_cas_uploader.go:126-143 | the file found at etc/passwd from the uploaded root has the helper's search text if and only if the last entry of the image that wrote it spells its header etc/passwd or had the text before |
| `ImageExtraction.NamesUserIff` | pkg/blobstore/build_user_injecting_visitor.go:48-67 | a file's contents name the build user if and only if its header spells etc/passwd or they did so before |
| `ImageExtraction.OtherSpellingIsKept` | pkg/blobstore/build_user_injecting_visitor.go:48-67 | a header ./etc/passwd passes the visitor by |
| `DirTreeVerifier.VerifyFiles` | pkg/blobstore/dir_tree_verifier.go:93-121 | succeeds if and only if all contents are present; the code tells missing from malformed |
| `DirTreeVerifier.VerifyDirectory` | pkg/blobstore/dir_tree_verifier.go:62-91 | terminates on acyclic digests and succeeds if and only if everything that any path leads to is in the CAS; an error has a path to its culprit |
| `DirTreeVerifier.CompleteIff` | pkg/blobstore/dir_tree_verifier.go:45-60 | complete means: every directory that a path leads to can be read, and every file has its contents stored |
| `DirTreeVerifier.CompleteUnfolds` | pkg/blobstore/dir_tree_verifier.go:78-88 | a tree is complete if and only if its root can be read, its files are there and its subtrees are complete |
| `DirTreeVerifier.CompleteIsStable` | pkg/blobstore/dir_tree_verifier.go:45-60 | a complete tree means the same in every larger store |
| `DirTreeVerifier.UploadedIsComplete` | pkg/blobstore/dir_tree_verifier.go:45-60 | what the extractor uploads, the verifier accepts |
| `ImageRoots.RootLookup.GetVerifiedFromRefStore` | pkg/actionrouter/op_merge.go:176-187 | a stored digest is returned if and only if its tree is complete; an error has a path to its culprit |
| `ImageRoots.RootLookup.LookUp` | pkg/actionrouter/op_merge.go:155-166 | the stored root if it is complete; an upload exactly for a ref that is not stored or whose tree lacks something, recorded unless a step fails |
| `ImageRoots.RootLookup.GetDirDigest` | pkg/actionrouter/op_merge.go:140-174 | every cached digest is the root of its ref's image and was complete when cached, and is complete now unless something was lost; a ref that is not stored or whose tree lacks something is uploaded and recorded again |
| `ImageRoots.RootIsUnique` | pkg/actionrouter/op_merge.go:154-169 | stored, cached and uploaded root digests of an image are the same |
| `ImageRoots.FoundRootsAreReady` | pkg/actionrouter/op_merge.go:107-114 | what the lookup promises of a root, during whatever upload, is what the pipeline's results on input roots need |
| `MergeRoot.AssertDirectoryDoesntContainName` | pkg/actionrouter/op_merge.go:189-206 | passes if and only if the name leads to nothing |
| `MergeRoot.PutDirectory` | pkg/actionrouter/pipeline.go:278-295 | stores an ordered permutation under its digest |
| `MergeRoot.Merge` | pkg/actionrouter/op_merge.go:111-134 | refused exactly when the image directory cannot be read or has an entry bazel_exec_root |
| `MergeRoot.MergePreservesMeaning` | pkg/actionrouter/op_merge.go:111-136 | bazel_exec_root/p leads to what p led to in the old input root, every other path to what it led to in the image, both directions |
| `MergeRoot.MergeOfCompleteTrees` | pkg/actionrouter/op_merge.go:111-136 | for complete trees the meaning is the one before the merge |
| `MergeRoot.MergeIsComplete` | pkg/actionrouter/op_merge.go:111-136 | and the merged tree is complete |
| `MergeRoot.MergeNests` | pkg/actionrouter/op_merge.go:124-127 | the input root stays reachable in every larger store |
| `MergeRoot.MergeIsCanonical` | pkg/actionrouter/op_merge.go:116-132 | unique image names give unique, sorted names and only one possible digest |
| `Pipeline.ArgvIsWrapped` | pkg/actionrouter/operations.go:166-200 | after any operations argv is the non-empty prepends, later ones outermost, the original argv verbatim, and the appends |
| `Pipeline.FlagsAreSound` | pkg/actionrouter/pipeline.go:76-93 | flags are never cleared, and what is not flagged has not changed |
| `Pipeline.InputRootIsNested` | pkg/actionrouter/op_merge.go:134-136 | after any operations the original input root lies as many levels down as images were merged, and the working directory has moved along |
| `Pipeline.InputRootStaysComplete` | pkg/actionrouter/op_merge.go:107-134 | complete images and a complete input root give a complete input root after any operations |
| `Pipeline.EditedEnvironment` | pkg/actionrouter/operations.go:226-256 | removed variables are gone, assigned ones have just their rendered value, the rest stay |
| `PipelineMeaning.AssertedPlatform` | pkg/actionrouter/operations.go:36-42 | changes nothing, and passes exactly if the pattern accepts the first value of the property, or the empty string without one |
| `PipelineMeaning.MappedPlatform` | pkg/actionrouter/operations.go:57-68 | position by position: exactly the values of its property that have a replacement are replaced; the flag goes up exactly if there is one |
| `PipelineMeaning.EditedPlatform` | pkg/actionrouter/operations.go:99-129 | the properties whose names are not removed, in their order, then each addition with its own name and the value that its template renders with all before it in place |
| `PipelineMeaning.EditedCommand` | pkg/actionrouter/operations.go:166-200 | the non-empty renderings of one list, in order, before the arguments, those of the other after them |
| `PipelineMeaning.MergedImage` | pkg/actionrouter/op_merge.go:93-138 | bazel_exec_root leads to the old input root, every other path to the image that the template names; the working directory gets the prefix bazel_exec_root/ |
| `PipelineMeaning.GetIsFirst` | pkg/actionrouter/pipeline.go:152-159 | the value of the first property of the name, or the empty string |
| `PipelineMeaning.TruthyIff` | pkg/actionrouter/pipeline.go:171-177 | false exactly for nothing, a zero or the word false in any case, with any white space around it |
| `PipelineMeaning.ConditionDecides` | pkg/actionrouter/pipeline.go:56-65 | a condition that says true lets the operation apply, one that says false leaves the action as it is |
| `PipelineMeaning.PlatformOrder` | pkg/actionrouter/pipeline.go:226-237 | sorted means by name, and by value where names are equal |
| `Pipeline.RunsAreAlike` | pkg/actionrouter/operations.go:226-256 | two runs stay equal in platform, argv, working directory, flags and set of variables, whatever the map order |
| `Pipeline.RootsAreSame` | pkg/actionrouter/op_merge.go:107-134 | and, with unique names in the image roots, in input root and store |
| `Pipeline.PlatformOrderUnique` | pkg/actionrouter/pipeline.go:226-237 | only one (name, value)-sorted permutation exists |
| `Pipeline.EnvironmentOrderUnique` | pkg/actionrouter/pipeline.go:239-244 | with unique names only one sorted environment exists |
| `ActionHandling.Compact` | pkg/actionrouter/operations.go:107-113 | removal in place is filtering |
| `ActionHandling.PipelineState.GetCommand` | pkg/actionrouter/pipeline.go:95-101 | loads once, and loading later gives what loading now would |
| `ActionHandling.PipelineState.GetProperty` | pkg/actionrouter/pipeline.go:152-159 | the first property of the name, or the empty string |
| `ActionHandling.PipelineState.Apply` | pkg/actionrouter/pipeline.go:56-65 | each operation succeeds exactly when its templates, command and image allow, and then has its specified effect |
| `ActionHandling.SucceedsIff` | pkg/actionrouter/pipeline.go:56-65 | an operation succeeds in a state if and only if it has a result there |
| `ActionHandling.PipelineState.ApplyMap` | pkg/actionrouter/operations.go:57-68 | replaces exactly the matching values and flags exactly when there were any |
| `ActionHandling.PipelineState.ApplyEditPlatform` | pkg/actionrouter/operations.go:99-129 | succeeds exactly when every addition renders, and is then the specified edit, whose meaning EditedPlatform states |
| `ActionHandling.PipelineState.RenderArguments` | pkg/actionrouter/operations.go:166-178 | the non-empty renderings in order, or an error if any fails |
| `ActionHandling.PipelineState.ApplyEditCommand` | pkg/actionrouter/operations.go:180-200 | prepends and appends around the old argv |
| `ActionHandling.PipelineState.ApplyEditEnvironment` | pkg/actionrouter/operations.go:226-256 | filtered variables, then the assigned ones in some order |
| `ActionHandling.PipelineState.ApplyMerge` | pkg/actionrouter/op_merge.go:93-138 | looks the image up, which may add it to the store, then the new input root, the moved working directory and the raised flag, or an error |
| `ActionHandling.HandleAction` | pkg/actionrouter/pipeline.go:181-224 | unchanged when the condition is not met; otherwise the sorted and stored result of a complete run, or an error because an operation failed |
| `ActionHandling.OutputIsSound` | pkg/actionrouter/pipeline.go:207-221 | without a flag the platform or command digest is the input's; a flagged platform is the final one, sorted by name and value; a flagged command is the final one, stored under its digest, its variables sorted, its working directory kept and its argv wrapped; the input root is the final one |
| `ActionHandling.OutputIsDeterministic` | pkg/actionrouter/pipeline.go:201-223 | with unique input variable names, platform and command digest do not depend on map order |
| `ActionHandling.WholeOutputIsDeterministic` | pkg/actionrouter/pipeline.go:201-223 | with unique names in the image roots, too, the whole action and all that is stored are the same |
| `ActionHandling.OutputIsComplete` | pkg/actionrouter/pipeline.go:201-223 | the input root of the result is complete if the original one and the images are |
| `ChrootConfig.AtMostOneFlag` | cmd/bb_chroot_helper/config.cc:291-305 | no word is accepted by two flags |
| `ChrootConfig.MatchFlag` | cmd/bb_chroot_helper/config.cc:291-305 | finds the flag that a word spells, and its value |
| `ChrootConfig.SpelledIff` | cmd/bb_chroot_helper/config.cc:291-305 | the flag found is the one that accepts the word, wherever it stands in the table |
| `ChrootConfig.ParseId` | cmd/bb_chroot_helper/config.cc:213-226 | one to nine digits and nothing else, read without overflow of a 32-bit int |
| `ChrootConfig.SameIdRange` | cmd/bb_chroot_helper/config.cc:147-162 | flags can name exactly the ids that the file may hold |
| `ChrootConfig.ParseUserFlag` | cmd/bb_chroot_helper/config.cc:228-235 | accepts exactly UID:GID and sets both |
| `ChrootConfig.UserRoundTrip` | cmd/bb_chroot_helper/config.cc:213-235 | printed ids are read back |
| `ChrootConfig.GetUserTable` | cmd/bb_chroot_helper/config.cc:194-210 | an absent table keeps the default, a present one must have both ids and no other key, and gives just those |
| `ChrootConfig.GetStringArray` | cmd/bb_chroot_helper/config.cc:164-191 | all elements are single path components, in order |
| `ChrootConfig.ParseConfigFile` | cmd/bb_chroot_helper/config.cc:323-364 | accepted exactly when every key is known, typed and complete; sets what the file has and keeps the rest |
| `ChrootConfig.FileMeanings` | cmd/bb_chroot_helper/config.cc:349-363 | an accepted file spells the settings that it leads to, key by key: users with uid and gid, etc-files in place of its list, keep-dirs on top of its set; an absent key changes nothing |
| `CommandLine.ApplyFlag` | cmd/bb_chroot_helper/config.cc:250-285 | the effect of one flag, or an error for a bad value |
| `CommandLine.ScanFlags` | cmd/bb_chroot_helper/config.cc:366-388 | finds the first separator and the last --config, and rejects words that are no flags |
| `CommandLine.ApplyFlags` | cmd/bb_chroot_helper/config.cc:400-407 | the flags take effect from left to right |
| `CommandLine.ParseCommandLine` | cmd/bb_chroot_helper/config.cc:366-409 | succeeds exactly when the words before the separator lead to settings; these, and the start of the command |
| `CommandLine.UnwrapsTheCommand` | cmd/bb_chroot_helper/config.cc:370-388 | words after the first separator are never read as flags; the command is exactly what follows |
| `CommandLine.WrapIsUndone` | cmd/bb_chroot_helper/config.cc:366-409 | a helper path, accepted flags and a separator come off any command again |
| `CommandLine.LastFlagWins` | cmd/bb_chroot_helper/config.cc:400-407 | every setting is that of its last flag, or what it was |
| `CommandLine.LastWordDecides` | cmd/bb_chroot_helper/config.cc:250-305 | the last word that starts with --name= decides the setting of that name with all that follows the equals sign; uid before and gid after the colon |
| `CommandLine.LastNetworkWordDecides` | cmd/bb_chroot_helper/config.cc:275-284 | the last of --network-isolation and --no-network-isolation decides |
| `CommandLine.NoWordNoChange` | cmd/bb_chroot_helper/config.cc:400-407 | a setting without a word of its own is what the file left |
| `CommandLine.LastFileDecides` | cmd/bb_chroot_helper/config.cc:378-398 | the last --config= names the file whose keys are spelled out; without one nothing changes |
| `CommandLine.SpelledAllIff` | cmd/bb_chroot_helper/config.cc:370-377 | the words are accepted if and only if every one of them is a flag |
| `CommandLine.FlagsThenFileThenDefaults` | cmd/bb_chroot_helper/config.cc:366-409 | last flag, else the file of the last --config, else the default; the image ref only from its flag |
| `CommandLine.AcceptedIff` | cmd/bb_chroot_helper/config.cc:400-407 | the flags are accepted if and only if every mode and user value is well-formed |
| `CommandLine.ConfigPositionIsFree` | cmd/bb_chroot_helper/config.cc:378-398 | the place of --config among the flags does not matter |
| `WrappedCommand.HelperRunsTheAction` | cmd/bb_chroot_helper/config.cc:366-409 | for a command wrapped by the pipeline, the helper reads the router's flags and runs the client's argv, whatever words it holds |
| `IdEntry.SetIDEntry` | pkg/blobstore/build_user_injecting_visitor.go:87-116 | fails exactly on a line beyond the scanner's limit, which is one longer for a last line without a newline; otherwise the kept lines and one entry |
| `IdEntry.LinesAreText` | pkg/blobstore/build_user_injecting_visitor.go:93-94 | the lines with their newlines are the file, but for a missing last newline |
| `IdEntry.OtherLinesStay` | pkg/blobstore/build_user_injecting_visitor.go:93-115 | any non-empty line of the file that does not carry the id, also a last one without a newline, is a line of the result, without the carriage return before its newline |
| `IdEntry.KeptInOrder` | pkg/blobstore/build_user_injecting_visitor.go:109-109 | the lines kept are those that do not carry the id, at rising positions |
| `IdEntry.LastLineNames` | pkg/blobstore/build_user_injecting_visitor.go:99-107 | the last line for the id gives the name, its seventh field the shell, its fourth the members |
| `IdEntry.NobodyNamed` | pkg/blobstore/build_user_injecting_visitor.go:90-92 | without such a line the owner is the default one |
| `IdEntry.EntryTexts` | pkg/blobstore/build_user_injecting_visitor.go:50-60 | the two entries as text, field by field |
| `IdEntry.NewEntries` | pkg/blobstore/build_user_injecting_visitor.go:87-116 | the result for an empty file, letter by letter |
| `IdEntry.LongestLine` | pkg/blobstore/build_user_injecting_visitor.go:93-113 | 65536 characters for a last line without a newline, 65535 for others |
| `IdEntry.AtoiShape` | pkg/blobstore/build_user_injecting_visitor.go:97-98 | whatever reads as an id is an optional sign and digits, in the range of a 64-bit int |
| `IdEntry.AtoiDigits` | pkg/blobstore/build_user_injecting_visitor.go:97-98 | digits read as their decimal value, negated after a minus sign |
| `IdEntry.JoinSplit` | pkg/blobstore/build_user_injecting_visitor.go:95-95 | splitting a line into fields loses nothing |
| `IdEntry.ReadLines` | pkg/blobstore/build_user_injecting_visitor.go:93-113 | the loop keeps the lines for other ids and takes name, shell and members from the last one for this id |
| `IdEntry.ReadEntry` | pkg/blobstore/build_user_injecting_visitor.go:95-108 | whether the third field reads as the id, and which fields the line gives |
| `IdEntry.PasswdStable` | pkg/blobstore/build_user_injecting_visitor.go:50-52 | a passwd entry is one line, carries the id and prints the same when read back |
| `IdEntry.GroupStable` | pkg/blobstore/build_user_injecting_visitor.go:58-60 | the same for a group entry |
| `IdEntry.ExactlyOneEntry` | pkg/blobstore/build_user_injecting_visitor.go:93-115 | exactly the lines for other ids, then the only line for this id |
| `IdEntry.RewriteIsIdempotent` | pkg/blobstore/build_user_injecting_visitor.go:87-116 | a second rewrite that succeeds changes nothing |
| `IdEntry.SecondRunSucceedsIff` | pkg/blobstore/build_user_injecting_visitor.go:93-113 | and it succeeds if and only if the entry and every kept line leave room for a newline |
| `IdEntry.LongNameFails` | pkg/blobstore/build_user_injecting_visitor.go:93-113 | a user name over the limit makes the second run fail |
| `IdEntry.PasswdNamesTheBuildUser` | cmd/bb_chroot_helper/main.cc:188-196 | whatever the image's file was, the result has the ":x:UID:GID:" text that the helper searches for |

## Left out

- Timeouts, contexts and cancellation in Acquire; a materialization may fail at any time instead.
- The wrap-around of the 64-bit trash counter.
- RootFetcherServer.Server.DiscardLocked: a rename that fails although the directory is there is not covered; the runs assume that the rename to a trash name succeeds.
- Metrics other than the gauge of roots, and logging.
- Raw path strings, filepath.Clean and splitPath: paths start as sequences of components, beside the name in the tar header.
- Registry pulls, gzip and tar decoding, temporary files, chunking, batching, protobuf encoding and hashing.
- LayerUpload.Upload: storage errors are not modelled; they end the upload with that error.
- ImageExtraction.UploadImage: blobs are stored one by one; the batches and their final flush are not modelled.
- ImageExtraction.UploadedPasswdNamesTheBuildUser: says nothing where the last entry that wrote etc/passwd is a hard link, which is a copy of whatever its target holds.
- ImageRoots.RootLookup.GetDirDigest: covers one instance name and digest function, for which a ref always gives the same layers; the expiry of cached digests and the sharing of one lookup by concurrent actions are not modelled.
- The parsing of Go templates, regular expressions and TOML, and the building of operations from configuration.
- ActionHandling.PipelineState.Apply: rendering a template that reads the working directory loads the command as a side effect; here it reads what would be loaded, which is the same value.
- ActionHandling.PipelineState.ApplyMerge: the lookup is a function of ref and store that stands for one outcome of getDirDigest; its cache and its choice among iteration orders are in ImageRoots.
- ActionHandling.HandleAction: on an error nothing is said about the caller's action, parts of which may have been edited already.
- The rules of validate_config on the finished settings, the usage text and error messages: they would only add easy members.
- IdEntry.SetIDEntry: strings are sequences of characters, so the line limit counts characters where the code counts bytes.
- Namespaces, mounts, signals and the execution of the command: kernel calls.

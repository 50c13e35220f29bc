# merkle-lan-sync: a verified model

merkle-sync keeps one folder identical on two machines of a local network. Every file is a *leaf*: a path, a
SHA-256 content hash, a mode, an mtime, a deleted flag and a *version vector* that counts each device's edits. The
leaves form a Merkle tree whose root tells two peers at a glance whether they hold the same folder. Peers exchange
indexes, diff the two trees, resolve every differing path by one deterministic rule, fetch what they lack block by
block, keep deletions as *tombstones* until both sides hold them, and keep the losing side of a conflict as a copy.

This project models that logic in Dafny and proves what it promises. `dafny verify dfyconfig.toml` checks it all.

| file | what it covers |
|---|---|
| `Basics.dfy` | bytes, big-endian integers, the bytewise order |
| `VersionVector.dfy` | sorted counter lists against the function from device to count |
| `FileInfo.dfy` | path components, the leaf record, the byte strings that are hashed |
| `Tree.dfy`, `TreeBuild.dfy` | building, looking up and incrementally updating the hash tree |
| `RootOracle.dfy` | what equal hashes say |
| `Diff.dfy` | the pruned diff against the naive one |
| `Conflict.dfy`, `Resolve.dfy` | the conflict order and the resolver; one exchange of a pair |
| `Convergence.dfy` | whole records: rest and equal roots |
| `Rounds.dfy`, `Losses.dfy` | one round of the engine over whole records: what it loses, when it leaves nothing to do; two rounds that lose |
| `Detection.dfy` | rescan and restart, per path and as list algorithms |
| `Tombstones.dfy`, `Engine.dfy` | tombstone GC and the de-pair sweep; the engine's record and cached tree as a class with all its handlers |
| `Resurrection.dfy` | whole runs of two peers at one path |
| `Apply.dfy` | verdicts carried out on a disk whose every operation may fail |
| `Echo.dfy` | a task, its completions and the next rescan |
| `Pairing.dfy` | bucketing, rename pairing and dispatch of one reconcile |
| `RecordDiff.dfy` | one reconcile from record to record: trees, diff, verdicts, dispatch |
| `Blocks.dfy` | block requests, response routing, the fetch loop |
| `Escape.dfy` | Windows-safe names |
| `Wire.dfy`, `Messages.dfy`, `Framing.dfy` | the wire grammar, the envelopes, the frames and the reader loop |
| `WireFormat.dfy` | the agreed bytes, written out |
| `Transport.dfy` | the goroutines of one connection, interleaved |

## How it is modelled

- Code that updates state step by step is a class or a loop with invariants (`Engine.Core`, `Apply.Puller`,
  `Pairing.PeerQueue`, `Blocks.Router`, `Wire.Reader`, `Messages.Encbuf`, the vector, tree, diff and codec loops),
  proved against a function; the promises are lemmas about that function.
- Concurrent code is a state machine: `Resurrection` interleaves the events of two peers, `Transport` the goroutines
  of one connection. A run is any list of steps; a step that is not enabled does nothing.
- SHA-256 is an arbitrary function `H`. Nothing assumes it is injective: a result that needs distinct hashes holds
  or names two distinct byte strings, hashed inside the two trees at hand, that collide. A mere claim that some
  collision exists would be empty, since 32-byte outputs always have one.
- Directory hashing is domain separated with the 0x00 and 0x01 prefixes of section 2.1.1 of RFC 9162.
- Counters, sizes, IDs and lengths have their Go widths, and additions wrap where Go's do.
- Every lemma turns Dafny's automatic induction off: each induction is spelled out in the lemma that makes it.
- Outcomes of I/O steps, free queue slots, arrivals of responses, the scan of the disk, the copy's timestamp format and
  the path canonicalisation are parameters: results hold for all of them. Scheduling is the choice of the run.

## What turned out different from the documentation

- *A deleted file can come back.* handleCompletion records a finished fetch without asking whether its path is still
  in flight (`internal/reconcile/engine.go:1092-1104`), so a task for a superseded version that completes late
  overwrites the tombstone. Such a task may be left over from a replaced connection; its mark may have been taken off
  by another task at the path; or it may be a conflict copy's, which is never marked
  (`internal/reconcile/engine.go:931-943`). The reconcile at the end of the handler buries the path again only if a
  connection is up, the peer's deletion is in view and it is applied at once (lines 1108-1114).
  `Resurrection.NoResurrection` shows that nothing else brings a version back, `BuriedForGood` gives the condition on
  the state (no superseded task pending on either peer), `DeletedFileReturns` is such a run, and
  `CheckedNeverResurrects` shows that looking at the mark would prevent it; since a copy's path is never marked, an
  engine that did so would have to mark copies as enqueueRename does its new path.
- *Conflict copies can overwrite.* A copy is recorded at its path whatever is there: content is lost when that path was
  not free (`Rounds.RoundLosesNothing`), as when one device makes two losing edits of a path within one second
  (`Conflict.CopiesAreNamedApart`, `Losses.ACopyIsOverwritten`).
- *A losing symbolic link is not preserved.* hasLocalContent counts regular files only
  (`internal/reconcile/engine.go:899-908`), so its side takes the branch that removes it
  (`Losses.LosingLinkIsLost`); this is the other way a round loses content.
- *Links and clashes stay as they are.* materialise refuses links and reconcileWithPeer skips file-versus-directory
  clashes, so peers at rest need not agree there; `Rounds.RoundConverges` says when a round leaves nothing to do.
- *The rescan's second loop ignores the in-flight mark* (`internal/reconcile/engine.go:1221-1230`): a file missing
  while its path is in flight is tombstoned.
- *A rescan after an apply is silent only if the advertised size is right*: the apply verifies the hash, the rescan
  also compares sizes. And a deletion whose file could not be removed (`internal/reconcile/engine.go:985`) is undone by
  the next rescan (`Echo.ApplyThenRescan`).
- *Restart and live detection differ* on brand-new paths (no history after a restart, one bump live) and on records
  whose size alone is wrong (healed by a rescan, not bumped by a restart).
- *When a conflict copy cannot be named* both peers keep both versions and stay in conflict.
- *PeerConnected may follow PeerDisconnected*, exactly when the connection ends before it is announced
  (`Transport.LifecycleOrder`), and during teardown a message may be emitted without either.

## Model

| member | source | states |
|---|---|---|
| VersionVectors.Get | internal/protocol/versionvector.go:87-93 | the binary search returns the device's count in the pointwise view, 0 when it has none |
| VersionVectors.Bump | internal/protocol/versionvector.go:108-121 | the copy carries the raised counter in its sorted place; BumpDominates says what that means |
| VersionVectors.BumpDominates | internal/protocol/versionvector.go:105-121 | bumping raises only self's count; the result is canonical and strictly newer exactly when the counter is below 2^64-1 (at the limit it wraps to a zero counter) |
| VersionVectors.Merge | internal/protocol/versionvector.go:127-154 | the two-pointer merge, for any two lists; MergedIsLub says what it is |
| VersionVectors.MergedIsLub | internal/protocol/versionvector.go:123-154 | the merge is canonical, the pointwise maximum, an upper bound of both and below every other upper bound |
| VersionVectors.MergedCommutes | internal/protocol/versionvector.go:127-154 | both peers merge a pair to one list, whichever order they hold it in |
| VersionVectors.Compare | internal/protocol/versionvector.go:158-200 | the two-pointer walk with early exit decides the causal order |
| VersionVectors.OrderPointwise | internal/protocol/versionvector.go:156-200 | each of the four answers holds exactly when the pointwise counts are so related; Equal exactly when the lists are identical |
| VersionVectors.Unique | internal/protocol/versionvector.go:42-62 | two sorted zero-free lists with the same counts are the same list |
| VersionVectors.IsEqual | internal/protocol/versionvector.go:204-214 | true exactly when the lists are equal, which is exactly when Compare answers Equal |
| VersionVectors.DropFromVV | internal/reconcile/tombstone.go:133-141 | the filter stays canonical, loses the dropped device's count and keeps every other |
| VersionVectors.DropIsHomomorphism | internal/reconcile/tombstone.go:131-141 | dropping a device keeps the causal order and commutes with merge |
| VersionVectors.DropsArePruned | internal/reconcile/tombstone.go:93-129 | dropping the devices outside a set one after the other, in any order, from any vector, is pruning it to the set |
| VersionVectors.PrunedOrder | internal/reconcile/tombstone.go:93-129 | after pruning to the live devices, order is decided by their counts alone: a dropped device can no longer make two vectors concurrent, and no order among live devices is lost |
| Paths.SplitPathComponents | internal/merkle/tree.go:66-80 | succeeds exactly on non-empty keys whose components are non-empty and at most 65535 bytes |
| Paths.JoinOfSplit | internal/merkle/tree.go:66-80 | joining the components of any key gives the key back, so distinct keys have distinct components |
| FileInfos.ModeByteTells | internal/merkle/fileinfo.go:37-57 | two leaves have one mode byte exactly when both or neither are symbolic links, and both or neither are regular files with an owner, group or other execute bit |
| StructuralCodec.LeafEncodingInjective | internal/merkle/codec.go:30-42 | two leaves have one encoding exactly when hash, mode byte, deleted flag and vector agree |
| StructuralCodec.NodeEncodingInjective | internal/merkle/codec.go:56-65 | the entry list of a directory can be read back from its encoding, for any number of children |
| Trees.InsertMeaning | internal/merkle/tree.go:25-56 | inserting succeeds exactly where no present key equals, contains or is contained in the new one, and then changes the lookup at that key only |
| Trees.TreeUnique | internal/merkle/node.go:50-94 | two hashed trees without empty directories that look up the same leaves are the same tree, hash for hash |
| Trees.UpsertMeaning | internal/merkle/tree.go:82-157 | a successful upsert into a hashed tree yields a correctly hashed tree whose lookup changed at the one key only |
| Trees.UpsertSucceeds | internal/merkle/tree.go:82-157 | an upsert fails exactly when another key equals, contains or is contained in the new one (its own key apart) |
| TreeBuild.HashFromChildren | internal/merkle/node.go:82-94 | collect, sort and hash gives the directory hash whatever order the map is walked in |
| TreeBuild.Rehash | internal/merkle/node.go:63-72 | recomputes every hash below a node bottom-up and changes nothing else |
| TreeBuild.BuildTree | internal/merkle/tree.go:25-56 | succeeds exactly when all keys are well formed, distinct and none is a component prefix of another; the result holds exactly the given leaves, correctly hashed |
| TreeBuild.TreeOfUnique | internal/merkle/tree.go:20-56 | a leaf set has one tree: input order does not show in any node or hash |
| TreeBuild.CowUpsert | internal/merkle/tree.go:126-157 | the copy-on-write recursion, for any key and leaf; UpsertMeaning says what it is |
| TreeBuild.Update | internal/merkle/tree.go:101-119 | one incremental update from a tree or from none; UpdateIsRebuild says what it is |
| TreeBuild.UpdateIsRebuild | internal/merkle/tree.go:82-119 | from the tree of any set, or from the nil tree, Update fails exactly when building the upserted set would, and otherwise gives that set's tree |
| TreeBuild.UpdatesAreRebuild | internal/merkle/tree.go:82-157 | any sequence of updates, from a tree or from the nil tree, ends in exactly the tree, node hashes included, that building the final set gives, and fails exactly when some prefix is unbuildable |
| TreeBuild.LookupPath | internal/merkle/tree.go:170-186 | the walk finds the leaf at a key, and nothing at the empty key or in an empty tree |
| RootOracle.EqualHashes | internal/merkle/node.go:31-94 | node hashes are equal exactly when the leaves below agree on the hashed fields, or two distinct strings hashed inside these two trees have one hash |
| RootOracle.RootIsFaithful | internal/merkle/node.go:31-94 | roots are equal exactly when both sets map the same paths to the same hash, mode byte, deleted flag and vector, or a collision inside the two trees is exhibited |
| RootOracle.RootSeesLeaf | internal/merkle/node.go:31-94 | replacing one leaf by another of different hashed fields changes the root, or a collision is exhibited |
| RootOracle.RootSeesExecutability | internal/merkle/fileinfo.go:44-57 | a file that becomes executable, or stops being so, changes the root, or a collision is exhibited |
| RootOracle.RootIgnoresOtherModeBits | internal/merkle/fileinfo.go:44-57 | no other change of the mode changes the root |
| Diff.UnionChildren | internal/merkle/differ.go:137-155 | the child names of both sides, each once, in ascending order |
| Diff.DiffTrees | internal/merkle/differ.go:38-135 | the recursive walk that appends over string paths emits exactly the specified entries; RecordDiff.EntriesAreDistinct says that their string paths differ |
| Diff.DiffComplete | internal/merkle/differ.go:73-135 | where equal hashes mean equal leaves below (DiffCorrect exhibits a collision otherwise), every structurally differing place that is not below a clash is reported, with the true leaf of each side |
| Diff.DiffSound | internal/merkle/differ.go:73-135 | under the same hypothesis, every reported entry is such a place |
| Diff.DiffSorted | internal/merkle/differ.go:38-41 | entries come in strictly ascending component order, so none twice |
| Diff.DiffCorrect | internal/merkle/differ.go:38-155 | the pruned diff of any two hashed trees equals the naive one entry for entry and in order, or a collision inside the two trees is exhibited |
| Diff.NothingMissed | internal/merkle/differ.go:73-135 | a path whose hashed fields differ is reported with both leaves, unless a prefix of it is reported as a file-versus-directory clash |
| Conflict.ComputeAuthor | internal/reconcile/conflict.go:65-77 | the loop finds the author, if there is one |
| Conflict.AuthorMeaning | internal/reconcile/conflict.go:58-77 | the author is the highest device at which a exceeds b; there is none exactly when a is below b |
| Conflict.AuthorsCompareHighest | internal/reconcile/conflict.go:30-77 | for concurrent vectors both authors exist and differ, and the smaller one belongs to the vector that is smaller at the highest device where they differ |
| Conflict.AWinsIsBeats | internal/reconcile/conflict.go:30-40 | on rivals aWins is the order newer mtime, then highest differing device, then content hash, and exactly one side wins |
| Conflict.AWinsStrictTotalOrder | internal/reconcile/conflict.go:17-40 | aWins is total, asymmetric and transitive on pairwise rivals |
| Conflict.TournamentBeatsAll | internal/reconcile/conflict.go:42-56 | pairwise resolution of an n-way conflict ends with a version that beats every other |
| Conflict.TournamentOrderIrrelevant | internal/reconcile/conflict.go:17-56 | it ends with the same version whatever order the versions are met in |
| Conflict.CopyNameIsNew | internal/reconcile/conflict.go:86-93 | a copy's key differs from the original key whenever canonicalisation keeps the minted name |
| Conflict.LoserAuthorMeaning | internal/reconcile/apply.go:125-145 | the author in a copy's name is the highest device at which the loser exceeds the winner or, when there is none, the largest device of the loser's vector |
| Conflict.CopyNameReads | internal/reconcile/conflict.go:79-93 | a whole name: dir/a.txt of author 1f becomes dir/a.sync-conflict-STAMP-000000000000001f.txt |
| Conflict.CopiesAreNamedApart | internal/reconcile/conflict.go:79-93 | with fixed-width stamps that tell seconds apart, two copies of one path get one name exactly when their mtimes fall in the same second and their authors are the same |
| Conflict.PathsAreNamedApart | internal/reconcile/conflict.go:79-93 | copies of different paths never get one name, extensions included, when stamps also have no dot and no slash |
| Conflict.ComputeMaxShortID | internal/reconcile/apply.go:137-145 | the loop returns the largest device of a vector, 0 for an empty one |
| Resolve.ConflictSymmetric | internal/reconcile/apply.go:51-123 | both peers mint one and the same verdict from a conflicting pair; it is a no-op exactly when the copy cannot be named |
| Resolve.WhatIsInstalled | internal/reconcile/apply.go:51-90 | a newer leaf is installed whole, an unknown live one as it comes, an unknown tombstone not at all; between concurrent versions of one content each side keeps its own leaf, mode and mtime included, under the merged vector |
| Resolve.PairConverges | internal/reconcile/apply.go:51-123 | after one exchange two leaves agree on content, deleted flag and vector exactly when the copy could be named, and resolving again does nothing |
| Resolve.ExchangeConverges | internal/reconcile/apply.go:51-84 | with absent leaves allowed: the live views agree and a second exchange is a no-op on both sides; otherwise (unnameable copy) both keep what they had |
| Resolve.NeverOlder | internal/reconcile/apply.go:51-123 | no verdict moves a path to a causally older vector |
| Resolve.NothingLost | internal/reconcile/apply.go:86-123 | a live content whose vector was not strictly dominated stays at the path on both sides or in one identical conflict copy |
| Resolve.RestIsConvergence | internal/reconcile/apply.go:51-84 | two records give no peer anything to do exactly when every path is settled: agreement, a tombstone only one side knows, or an unnameable conflict |
| Rounds.RoundConverges | internal/reconcile/engine.go:712-858 | one round over whole records as the engine carries it out (type clashes and links refused, copies made only by a side that has the content on record), with its copies recorded on both sides, leaves nothing to do exactly when no path is unfinished: one content under concurrent versions as a file here and a link there, a losing link whose regular twin left the record, or a copy displaced while its conflict lingers because a link won it |
| Rounds.RegularRoundConverges | internal/reconcile/engine.go:712-858 | records of regular files come to rest in one round, and every path at which the resolver is asked is then settled |
| Rounds.RestIsSettled | internal/reconcile/engine.go:712-858 | for regular files a path rests exactly when it is settled |
| Rounds.RoundLosesNothing | internal/reconcile/engine.go:824-858 | whichever copy of one path is recorded last, no undominated live content of a side is lost, exactly when no copy's path is the home of other content and no losing content gives way without a live regular file of it on record |
| Rounds.KeptUnlessDisplaced | internal/reconcile/engine.go:824-858 | leaf by leaf and for given copies: an undominated live content is at its path, or at its copy's path, in its side's next record (and in the other's where no side may refuse) exactly when no copy of other content is recorded over it and it does not give way uncopied |
| Rounds.NewNamesLoseNothing | internal/reconcile/conflict.go:79-93 | when canonicalisation keeps the minted names and neither side has such a path yet, all that is lost are losing links without a regular twin: two conflicts of a round never mint one name |
| Losses.LosingLinkIsLost | internal/reconcile/engine.go:834-857 | whatever link loses to a deletion: its copy is named, every copy's path is free, and its content is in neither next record |
| Losses.ALinkIsLost | internal/reconcile/engine.go:834-857 | two concrete records, for any content of the link |
| Losses.CopyDisplaces | internal/reconcile/engine.go:1092-1104 | whatever leaf of other content is at the path of a losing file's copy: it is undominated, the path is not free, and its content is in neither next record |
| Losses.ACopyIsOverwritten | internal/reconcile/conflict.go:79-93 | two concrete records, for any three contents: a device's second losing edit within one second overwrites the copy of the first |
| Convergence.CopiesAgree | internal/reconcile/apply.go:104-123 | both peers mint the same copy, or none, at every path |
| Convergence.RootsTellReplicas | internal/reconcile/engine.go:503-517 | two records have equal roots exactly when they agree at every path, mode bytes included, or a collision inside the two trees is exhibited |
| Convergence.RestIsReplicas | internal/reconcile/engine.go:503-517 | records at rest are such replicas exactly when no lone tombstone, unnameable conflict or differing mode byte is left |
| Convergence.ShortCircuitIsSound | internal/reconcile/engine.go:503-517 | skipping the index exchange on equal roots leaves no work undone, or a collision is exhibited; clean rest always makes the roots equal |
| Detection.RescanAgreesWithDisk | internal/reconcile/engine.go:1185-1254 | off in-flight paths the record agrees with the scan; an authored path carries the old vector with only self's counter raised by one, all others keep theirs; vanished files are tombstones |
| Detection.RescanRecords | internal/reconcile/engine.go:1185-1254 | a file found is authored exactly when it is new, comes back or differs in content, type or size; the new record is then all of what was scanned but the vector, otherwise the old record with the new mtime |
| Detection.VanishedRecords | internal/reconcile/engine.go:1221-1230 | a vanished file's tombstone keeps path, mode, mtime and type, with zero hash and size |
| Detection.RescanInFlight | internal/reconcile/engine.go:1185-1254 | a present in-flight path is never authored; a vanished one is tombstoned all the same |
| Detection.RescanIdempotent | internal/reconcile/engine.go:1185-1254 | at each path, detecting the same disk again authors and changes nothing |
| Detection.RescanAfterApply | internal/reconcile/engine.go:1069-1105 | for a recorded leaf whose verified content is on disk, detection authors the path exactly when the advertised size is not the true one |
| Detection.RestoreVVs | internal/reconcile/engine.go:299-327 | every scanned path gets its snapshot vector back, bumped exactly when it was changed or recreated while down |
| Detection.SynthesizeDeletions | internal/merkle/scanner.go:106-127 | snapshot paths that are gone are kept as tombstones, deleted by this device if they were live |
| Detection.Recover | internal/reconcile/engine.go:262-287 | start-up recovery of the whole record, path by path |
| Detection.RestartAgreesWithRescan | internal/reconcile/engine.go:299-327 | recovery gives the content, type and deleted flag a live rescan from the snapshot would; the vectors differ exactly for brand-new paths and torn records |
| Detection.DownEditIsAccepted | internal/reconcile/engine.go:289-327 | a file recreated over a tombstone, or edited, while the daemon was down supersedes the snapshot: a peer still holding that installs the file and this side keeps it |
| Tombstones.DropsArePruning | internal/reconcile/tombstone.go:93-129 | dropping every unpaired device found on record, one after the other, is pruning every vector to the paired devices |
| Tombstones.ForgottenOnlyOnEveryWord | internal/reconcile/tombstone.go:14-55 | without a connected peer nothing is forgotten; a path is forgotten exactly when it held a tombstone, some peer is connected, and each connected peer's index has a deletion there whose counts are pointwise at least the tombstone's |
| Tombstones.DropsTouchCounts | internal/reconcile/tombstone.go:76-129 | dropping a device, or sweeping the unpaired ones, keeps every path and changes only the counts of the devices that go, to 0 |
| Engine.TreeExists | internal/merkle/tree.go:25-56 | every buildable set has a tree |
| Engine.UnhashedKeepsCoherence | internal/reconcile/engine.go:1200-1206 | updating only mtimes never makes the cached root stale, so skipping the rebuild is sound |
| Engine.Core.RebuildLocked | internal/reconcile/engine.go:365-376 | afterwards the cached root is the root of the recorded files whenever they have a tree; an unbuildable record leaves the old tree |
| Engine.Core.GcTombstonesLocked | internal/reconcile/tombstone.go:33-55 | offline the record is unchanged; otherwise a path leaves it exactly when it held a tombstone and every connected peer's index shows a deletion there with pointwise at least its counts; reports exactly whether anything changed |
| Engine.Core.AckedByAll | internal/reconcile/tombstone.go:14-55 | true exactly when every connected peer advertises the deletion with a vector equal to or above it |
| Engine.Core.DropCounterLocked | internal/reconcile/tombstone.go:80-91 | drops the device from every vector and reports exactly whether anything changed |
| Engine.Core.DropCounter | internal/reconcile/tombstone.go:57-74 | the same, and the cached root stays the record's root |
| Engine.Core.SweepDepairedCountersLocked | internal/reconcile/tombstone.go:106-129 | with a known paired set every vector is pruned to it, otherwise nothing changes |
| Engine.Core.StartupReconcile | internal/reconcile/engine.go:262-287 | for any snapshot and scan, path by path the record is the recovered one, pruned when the paired set is known, and the cached root is its root |
| Engine.Core.CollectTombstones | internal/reconcile/engine.go:810-814 | the tombstone step of a reconcile keeps the cached root coherent |
| Engine.Core.ApplyTombstone | internal/reconcile/engine.go:983-995 | records the tombstone and re-advertises exactly it, exactly when the same tombstone was not already recorded |
| Engine.Core.HandleCompletion | internal/reconcile/engine.go:1069-1114 | records the leaf exactly on success or a deferred deletion, broadcasts exactly a landed conflict copy or a new deletion and never a plain apply, unmarks the path at the peer, and keeps the cached root coherent |
| Engine.Core.OnLocalChange | internal/reconcile/engine.go:1123-1179 | a watcher hint does at its path exactly what a rescan would, and nothing anywhere while the path is in flight, internal, a directory or unreadable; it broadcasts exactly the leaf it authored |
| Engine.Core.Rescan | internal/reconcile/engine.go:1185-1254 | two loops, tombstone collection and at most one rebuild: the record is detection at every path followed by collection, the broadcast delta holds exactly the authored leaves, and the cached root is coherent even when the rebuild was skipped |
| Engine.RescanSettles | internal/reconcile/engine.go:1185-1254 | over the whole record, tombstone collection included: a second rescan of the same disk changes no leaf and its delta is empty |
| Engine.InternalByName | internal/reconcile/engine.go:1321-1335 | a path is our own temp or probe file exactly when its last component starts with the prefix, in any directory |
| Engine.Core.RescanTwice | internal/reconcile/engine.go:1185-1254 | two rescans of one scan in a row broadcast what the first alone does and end in the same record |
| Engine.Core.DoReseed | internal/reconcile/engine.go:676-706 | un-authored live leaves take the peer's live history, bumped when content differs; everything else is untouched; it broadcasts exactly those leaves; the cached root is coherent |
| Engine.Core.Run | internal/reconcile/engine.go:382-431 | any sequence of handlers keeps the cached root equal to the record's root |
| Engine.ReseedKeepsTheEdit | internal/reconcile/engine.go:670-706 | a reseeded leaf never conflicts with the peer's: equal content becomes agreement, other content supersedes the peer's and is taken by it, where the un-reseeded leaf would have been replaced |
| Engine.ReseedTouches | internal/reconcile/engine.go:676-706 | a reseed changes a leaf's vector only, only for live content without history against live content of the peer, to the peer's vector when the content is equal and to it bumped when not |
| Resurrection.StepKeeps | internal/reconcile/engine.go:492-588 | every event of two peers (connect, disconnect, delivery, verdict, collection, completion, reseed, a copy queued by a conflict elsewhere, lost task) except a successful superseded completion keeps the order of superseded versions and tombstone in records, indexes, queues and channels |
| Resurrection.TurnStands | internal/reconcile/engine.go:1069-1114 | a turn of the loop (a completion with the reconcile and collection that follow it, an index message with its own, a rescan's) lets a superseded version onto the record exactly when it revives one; needs no order of messages or queues |
| Resurrection.DeletionStarts | internal/merkle/fileinfo.go:69-76 | deleting a live file whose version nothing in the system exceeds starts such a run |
| Resurrection.NoResurrection | internal/reconcile/tombstone.go:7-55 | over every run of turns without new versions, a superseded version returns on the deleting peer, or on the other after it buried the path, exactly when a superseded task completes successfully there and the reconcile of the same turn does not undo it: no connection is up, or no deletion that beats it is in view, or it is not applied now |
| Resurrection.StaleLeaves | internal/reconcile/engine.go:1069-1114 | such a completion leaves the superseded version on record, or an empty record exactly when the turn undoes it |
| Resurrection.BuriedForGood | internal/reconcile/engine.go:1069-1114 | a condition on the state: once the other peer has buried the path, every continuation in which no conflict elsewhere queues a copy there keeps it buried on both, exactly when no superseded task is pending on either |
| Resurrection.StaleIsUnmarked | internal/reconcile/engine.go:878-897 | at such a completion the path is never marked in flight |
| Resurrection.CheckedNeverResurrects | internal/reconcile/engine.go:1092-1104 | an engine that treated the completion of an unmarked path as a failure would never bring the file back, in any run (it would refuse conflict copies too, unless it marked their paths) |
| Resurrection.NeverLiveAgain | internal/reconcile/engine.go:641-668 | in every run without such a turn the path is never live on the deleting peer, nor on the other once it has applied the deletion |
| Resurrection.DeletedFileReturns | internal/reconcile/engine.go:1069-1114 | a concrete run of seventeen turns, with a connection replaced twice and a puller that renames only after the removals and between connections, ends with a deleted file live on both records and no tombstone left |
| Apply.ComputeHasLocalContent | internal/reconcile/engine.go:899-908 | true exactly when a live regular file of that content is on record |
| Apply.LoserIsCoupled | internal/reconcile/engine.go:824-858 | the side holding the losing content couples its copy to the winner's step, or refuses, exactly when a live regular file of that content is on record; a regular file's loser always is |
| Apply.WinnerStays | internal/reconcile/engine.go:824-858 | the side that holds the winner installs it again or removes it again; a copy rides along exactly when a live loser's content is on record here too |
| Apply.LosingSymlinkIsRemoved | internal/reconcile/engine.go:834-857 | a symbolic link that loses to a deletion is removed although the resolver named a copy for it |
| Apply.Puller.AtomicWriteVerify | internal/reconcile/transfer.go:89-131 | it succeeds exactly when every step does and the written bytes have the expected hash; then the destination changes in one step, otherwise the whole disk is as before |
| Apply.Puller.LocalSource | internal/reconcile/transfer.go:197-218 | the candidate is offered exactly when its bytes on disk have the wanted hash, and it is never the leaf itself |
| Apply.Puller.Materialise | internal/reconcile/transfer.go:231-278 | it lands exactly when the content is already there or, without a name clash, can be copied locally or fetched; then the content is at the path, otherwise nothing changed; with a clash and other content at the path it fails with disk and history unchanged; no other path is touched; one report says which |
| Apply.Puller.RunFetch | internal/reconcile/engine.go:1022-1039 | copy before destroy, for every outcome of every I/O step: the leaf path changes, and its deferred deletion is reported, only when the preserve path already holds the preserved content; if the copy does not land the task aborts with the disk untouched; with a clash and other content at the path the leaf fails with nothing changed; if the wire behaves the leaf lands |
| Apply.CopyOrOriginal | internal/reconcile/engine.go:1022-1039 | after a coupled task, whether or not its deletion is then carried out, the content the copy preserves is still at its old path or at the copy's |
| Apply.Puller.CarryOutConflict | internal/reconcile/engine.go:931-972 | a conflict carried out end to end, whatever fails, leaves the losing content on disk; when its copy can land it is at the copy's path |
| Echo.ScanDisk | internal/merkle/scanner.go:22-79 | lists every file of the disk once, with the hash and size of its bytes |
| Echo.ApplyThenRescan | internal/reconcile/engine.go:1022-1114 | a puller task, its completions handled by the loop, then a rescan of the disk: a landed path is authored exactly when the advertised size was wrong, a deleted one exactly when its file could not be removed, and neither while in flight |
| Echo.EchoAt | internal/reconcile/engine.go:1185-1254 | the same for one completion and any delta of a rescan |
| Pairing.BucketComplete | internal/reconcile/engine.go:743-769 | every install verdict of a diff lands in the bucket of its kind |
| Pairing.BucketPaths | internal/reconcile/engine.go:743-769 | all bucketed creates and tombstones are at different paths, each the path of an entry, for entries at different paths (RecordDiff.EntriesAreDistinct: those of any two built trees) |
| Pairing.PeerQueue.FindPartner | internal/reconcile/engine.go:764-790 | the first tombstone that is unpaired, not in flight and whose old bytes are the create's, or none if there is no such tombstone |
| Pairing.PeerQueue.EnqueueFetch | internal/reconcile/engine.go:910-920 | a path in flight is left alone; otherwise one task is queued and its path marked exactly when the queue has room |
| Pairing.PeerQueue.EnqueueRename | internal/reconcile/engine.go:959-972 | when neither path is in flight, one coupled task is queued and both paths marked exactly when the queue has room; otherwise nothing at all happens |
| Pairing.PeerQueue.ExecuteConflict | internal/reconcile/engine.go:824-858 | a conflict verdict buries the winner's path, queues its task if there is room and nothing is in flight there, or does nothing; no other path is touched |
| Pairing.PeerQueue.DispatchAll | internal/reconcile/engine.go:764-808 | every create and tombstone not in flight is dispatched exactly once, alone or in one pair of equal content, and no other; no create is fetched alone while a tombstone that holds its bytes is removed alone; the queue gains exactly what was dispatched and found room, in order; only tombstones dispatched alone are removed, so a dropped pair removes nothing |
| Pairing.PeerQueue.ReconcileEntries | internal/reconcile/engine.go:743-808 | for the entries of a diff: the paths with a create or tombstone verdict that are not in flight are dispatched exactly once each, no other path is, and no rename is missed |
| RecordDiff.EntriesAreDistinct | internal/merkle/differ.go:38-135 | the entries of the diff of any two built trees are at different string paths, and the leaves they show carry that path |
| RecordDiff.InstallsAreWanted | internal/reconcile/engine.go:712-769 | without a collision, the create and tombstone verdicts of the diff are exactly those the resolver has for the two records, path by path, at every path where no file of one side is strictly above or below it on the other |
| RecordDiff.ReconcileRecords | internal/reconcile/engine.go:712-808 | both trees built, diffed, resolved and dispatched: every wanted path not in flight exactly once and no other, or a collision inside the two trees is exhibited; nothing is fetched alone while a live regular file of that very content is removed alone; it gives up exactly when a record has no tree |
| Blocks.GuardIsExact | internal/reconcile/transfer.go:73-81 | for real file sizes the source's guard accepts exactly the non-empty ranges inside the file and within the chunk limit: no wrap-around lets one past |
| Blocks.ServeAnswers | internal/reconcile/transfer.go:345-382 | a missing file, a range outside the file or over the chunk limit, and a good request get the codes 2, 1 and 0; only the last gets bytes, exactly the range's |
| Blocks.BlocksTile | internal/reconcile/transfer.go:62-81 | the requested blocks cover the file without gap or overlap and the source accepts each |
| Blocks.TilingIsExact | internal/reconcile/transfer.go:62-67 | the block count is right exactly when its rounding addition does not wrap; then it is zero |
| Blocks.IdsDiffer | internal/reconcile/transfer.go:317-345 | two requests of a connection share an ID exactly when a multiple of 2^32 lies between them |
| Blocks.Router.Route | internal/reconcile/engine.go:598-609 | a response without a waiting request, or for a filled slot, changes nothing |
| Blocks.Router.RequestChunk | internal/reconcile/transfer.go:317-345 | the answer is the first arrival with the request's own ID, if any; late, foreign and repeated ones never are; the slot is released |
| Blocks.FetchOverWire | internal/reconcile/transfer.go:284-310 | for any advertised size, succeeds exactly when every block is answered properly, and then holds the answers' bytes in block order (none when the block count wrapped to zero) |
| Blocks.HonestSourceAnswers | internal/reconcile/transfer.go:317-345 | when every arrival answers a request of the connection, of this or any other file, at most 2^32-1 requests back, what is taken for a request's answer is the answer to it |
| Blocks.HonestFetchIsExact | internal/reconcile/transfer.go:284-382 | from such a source with an unchanged file of the advertised size, a successful fetch is exactly the file |
| Escape.IsWindowsUnsafe | internal/pathnorm/windows.go:66-80 | true exactly for names with a reserved or control byte, a reserved device stem, or a final space or dot |
| Escape.EscapeForWindows | internal/pathnorm/windows.go:104-133 | the builder loop and its two repairs compute the escape for every byte string |
| Escape.EscapedByteByByte | internal/pathnorm/windows.go:82-133 | for every name, byte i comes out as itself exactly when it is not a percent sign, not reserved or control, not a final space or dot and not the first byte of a reserved device name; otherwise as one triplet |
| Escape.LeftAlone | internal/pathnorm/windows.go:93-133 | a name is its own escaped form exactly when it is safe and has no percent sign |
| Escape.EscapedLength | internal/pathnorm/windows.go:104-133 | the escaped form is two bytes longer for each byte that is not kept |
| Escape.EscapeReads | internal/pathnorm/windows.go:82-133 | the triplets of a colon, a percent sign and a final dot, in upper-case hex |
| Escape.DeviceReads | internal/pathnorm/windows.go:20-133 | a device name changes in its first byte only: con becomes %63on |
| Escape.UnescapeFromWindows | internal/pathnorm/windows.go:151-170 | the decoding loop, with its shortcut for names without a percent sign |
| Escape.UnescapeReads | internal/pathnorm/windows.go:135-170 | a triplet reads as the byte of its two digits, in either case of letters |
| Escape.RoundTrip | internal/pathnorm/windows.go:104-170 | unescaping an escaped name gives it back, for every byte string |
| Escape.EscapeInjective | internal/pathnorm/windows.go:104-133 | two names never share an escaped form |
| Escape.EscapeIsLegal | internal/pathnorm/windows.go:60-133 | an escaped name is never unsafe |
| Wire.DecodeVersionVector | internal/protocol/versionvector.go:237-267 | the in-place loop accepts exactly the complete canonical vectors and reports the bytes consumed |
| Wire.VVRoundTrip | internal/protocol/versionvector.go:216-267 | an encoded canonical vector of at most 65535 entries decodes to itself, whatever follows it |
| Wire.VVAcceptsOnlyCanonical | internal/protocol/versionvector.go:232-267 | whatever bytes arrive, an accepted vector is canonical and re-encodes to exactly the bytes read |
| Wire.DecodeFileInfo | internal/merkle/codec.go:103-140 | the sticky-error reader and the checks after it accept exactly the specified grammar |
| Wire.PathIsCanonicalised | internal/merkle/codec.go:77-140 | decoding the encoding of any record with a canonical vector and a path of at most 65535 bytes is refused exactly when canonicalisation refuses the path; otherwise it gives the record at the canonical path, and its own length |
| Wire.InfoRoundTrip | internal/merkle/codec.go:77-140 | a record with a fixed-point path and a canonical vector decodes to itself with its own length, whatever follows it |
| Wire.EncodeFileInfos | internal/merkle/codec.go:144-155 | the counted concatenation of the records; refused exactly when some path is too long |
| Wire.DecodeFileInfos | internal/merkle/codec.go:160-179 | the offset loop decodes the whole list and refuses trailing bytes; every accepted path is a canonical form of bytes read |
| Wire.IndexRoundTrip | internal/merkle/codec.go:142-179 | a list of sendable records decodes to itself with every byte consumed |
| Wire.IndexArrives | internal/merkle/codec.go:142-179 | an encoded index is refused exactly when canonicalisation refuses one of its paths; otherwise every record arrives at its canonical path, in order |
| Wire.ListCanonical | internal/merkle/codec.go:128-179 | whatever bytes arrive, an accepted list has the announced length, canonical vectors only, and no path but what canonicalisation makes of bytes read |
| WireFormat.BigEndian | internal/merkle/codec.go:72-100 | byte i of an encoded integer is its digit of that weight in base 256, heaviest first |
| WireFormat.GoldenVector | internal/protocol/versionvector_test.go:220-240 | the bytes of the vector {1: 2, 5: 3} and of the empty one |
| WireFormat.GoldenLeaf | internal/merkle/merkle_test.go:127-157 | the bytes of a plain file's leaf, and that its hash is taken behind a zero byte |
| WireFormat.GoldenNode | internal/merkle/merkle_test.go:159-172 | the bytes of a directory with one child |
| WireFormat.DirectoryEntries | internal/merkle/node.go:74-94 | a directory hashes each child once, by name in ascending byte order, with the child's own hash |
| Basics.LessMeaning | internal/merkle/node.go:74-94 | the order of names: up to the first difference two names are equal, and there the lesser has the smaller byte or ends |
| WireFormat.GoldenRecord | internal/merkle/codec.go:72-100 | the bytes of a record whose size, mode and mtime tell their bytes apart |
| WireFormat.GoldenMessages | internal/protocol/messages.go:136-226 | the payloads of Hello, Index, IndexUpdate, Close and Ping |
| WireFormat.GoldenTransfer | internal/protocol/messages.go:184-212 | the payloads of Request and Response |
| WireFormat.GoldenFrame | internal/protocol/framing.go:88-105 | a frame is the length of type and payload, the type, the payload; a keepalive is five bytes |
| Messages.EncodeMessage | internal/protocol/messages.go:231-238 | the sticky-error encoder yields the payload, or the first violated limit |
| Messages.DecodeMessage | internal/protocol/messages.go:255-330 | the type dispatch and the sticky-error decoders compute the specified parse of any bytes |
| Messages.MessageRoundTrip | internal/protocol/messages.go:225-330 | whatever encodes decodes to itself, for all seven envelopes |
| Messages.TruncationIsNoticed | internal/protocol/messages.go:250-330 | any proper prefix of an encoded Hello, Request or Close is refused as short; only the empty Close still decodes |
| Messages.TrailingIsIgnored | internal/protocol/messages.go:250-330 | bytes after a Hello, Request or Close with a reason are not looked at |
| Framing.ReadFrame | internal/protocol/framing.go:64-86 | reads exactly one frame and leaves the stream right behind it; zero, oversized and torn frames are told apart before the body is read |
| Framing.FrameOutcomes | internal/protocol/framing.go:64-86 | which of the five outcomes reading a frame has, from the number of bytes and the number the first four make; a frame read is the type byte and payload right behind the length |
| Framing.Sink.WriteFrame | internal/protocol/framing.go:94-105 | writes the whole frame, or refuses an oversized one without writing a byte |
| Framing.Sink.WriteMessage | internal/protocol/messages.go:242-248 | the same for a message, refusing also what cannot be encoded |
| Framing.BudgetsAgree | internal/protocol/framing.go:11-105 | what the sender may write the receiver accepts, and what it may not write would be refused as too large |
| Framing.ChunkLimitIsExact | internal/protocol/framing.go:24-29 | a response fits a frame exactly when its data is within the chunk limit |
| Framing.ReadLoop | internal/transport/conn.go:109-144 | hands on every dispatchable message in order, skips unassigned types, and stops with the first error |
| Framing.StreamRoundTrip | internal/protocol/framing.go:55-105 | a stream of written messages interleaved with frames of unassigned types is read as exactly those messages in order, and reading goes on behind it |
| Framing.BadFrameStops | internal/transport/conn.go:109-144 | a frame of the reserved type, or one that does not decode, ends the stream there: all messages before it are handed on, none after it |
| Framing.CutStream | internal/protocol/framing.go:55-86 | a stream that ends after any number of bytes yields exactly the messages of its whole frames |
| Transport.NextKeeps | internal/transport/conn.go:65-188 | every step of reader, writer, registrar, supervisor and closers keeps the invariant |
| Transport.EventOrder | internal/transport/conn.go:109-167 | in every interleaving the messages handed on are a prefix of the dispatchable frames in wire order, none follows PeerDisconnected, and that carries the first close cause |
| Transport.CalmRunsTellTheEnd | internal/transport/conn.go:108-184 | in every interleaving without shedding, cuts and teardown, PeerDisconnected comes after every message of the stream was handed on and carries what ended the stream: nothing for an end between two frames, else the read error, the fatal frame type or the decode error |
| Transport.ConnectedComesFirst | internal/transport/transport.go:225-245 | every message follows PeerConnected, except exactly when teardown made PeerConnected get lost and the reader still handed a message on; so always before teardown |
| Transport.EveryConnectionReports | internal/transport/transport.go:256-261 | once registrar and supervisor are done without teardown, both lifecycle events are out and the connection is off the table |
| Transport.LifecycleOrder | internal/transport/transport.go:218-261 | in every interleaving PeerDisconnected precedes PeerConnected exactly when the supervisor departed while the registrar had listed the connection but not announced it, and PeerConnected went out after all; never once a message followed a PeerConnected that was not lost |
| Transport.DisconnectMayComeFirst | internal/transport/transport.go:225-261 | a run, of a peer that hangs up at once, in which PeerDisconnected precedes PeerConnected |
| Transport.TeardownMayLoseTheIntroduction | internal/transport/transport.go:214-245 | a run, during teardown, in which a message is emitted although PeerConnected never is |

## Left out

- TLS, certificates, the allow-list, the HELLO handshake, dialling, discovery, the file watcher, debouncing and timers: library and I/O plumbing.
- Walking directories, hashing files, the snapshot file, probing case sensitivity and listing directories for the no-clobber check: a scan is a list of distinct live leaves, a clash an arbitrary outcome.
- Unicode normalisation, case folding and path cleaning: a path is a byte string, canonicalisation an arbitrary partial function; paths that are sent are required to be fixed points of it (the source's drive-letter stripping need not be idempotent, internal/pathnorm/pathnorm.go:47-57). Upper-casing of device stems is ASCII; no other character upper-cases into a reserved stem.
- The format of a copy's timestamp: any function of the mtime in whole seconds; the results about names say what they need of it.
- Update in place of tree nodes: a tree is a value, so sharing of unchanged subtrees between two trees is not modelled, only that the old tree stays as it was.
- The comparison counter of the diff and its cost.
- Two tasks writing one path at the same time: the puller of a connection runs one task after the other, and edits of a preserve path by others during a task are not modelled.
- Engine.Core.BroadcastUpdate: keeps what is broadcast; which connections accept the message is not modelled.
- Engine.Core.ApplyTombstone: the record only; Echo.HandleReport adds the removal on disk for deletions handed over by the puller.
- Engine.Core.HandleCompletion: the reconcile it ends with is an event of its own here (RecordDiff.ReconcileRecords); Resurrection.Turn has the two together.
- Echo.ApplyThenRescan: the completions are handled without the reconcile that follows each, which may bury or queue a path again before the rescan; Echo.EchoAt holds for any record in which the completion still stands.
- Engine.Core.ClearInflight: peerByShort takes any peer with that short ID, as map iteration may.
- Engine.Core.Run: reconciling inside the handlers is left to Pairing, RecordDiff and Resurrection; here a verdict arrives as an event of its own.
- Resurrection.NoResurrection: two peers, one path and one connection at a time; restarts and local edits do not occur during the run, a conflict elsewhere can queue a copy of a superseded version at the path, and a reset of the in-flight set happens only with a new connection.
- Resurrection.DeletedFileReturns: there is no disk in this model; the run is the engine's when the puller's rename comes after the removals, which may already be past its last block when they happen.
- Apply.Puller.AtomicWriteVerify: the temp file is not part of the disk map, so a partial write cannot show there.
- Conflict.CopiesAreNamedApart: assumes of the time format what YYYYMMDD-HHMMSS does, a fixed width and different text for different seconds.
- RecordDiff.ReconcileRecords: conflict verdicts are executed by Pairing.PeerQueue.ExecuteConflict; here only creates and tombstones are counted.
- Tombstone GC with three or more peers: the gate asks only connected peers, so there is no such guarantee to prove.
- Resolve.PairConverges: agreement is on content, deleted flag and vector; concurrent leaves of one content keep their own mode byte, which the root does hash (Convergence.RestIsReplicas says so).
- Rounds.RoundConverges: speaks of the peers' actual records; a peer's index of the other may be stale after an apply, which is not re-advertised. Every I/O step of the round succeeds, every queue has room, and no copy's path exceeds the Windows limit.
- Rounds.RoundLosesNothing: a copy reaches the peer that lacks it as an ordinary update; where its path was not free there, the model records it as its holder does instead of resolving once more. Content is followed to its own path or its copy's; that the same bytes lie elsewhere by chance does not count.
- A tombstone for a path the other peer never had is ignored there and never acknowledged: Settled allows for it.
- Records that cannot be built (a live path below a recorded tombstone): the cached tree then stays as it was, and nothing is claimed of it.
- Blocks.HonestFetchIsExact: a late response from exactly 2^32 requests earlier would carry the same ID; the honest source is not that late.
- Transport.NextKeeps: each goroutine's close and its exit are separate steps, but setting the closing flag and closing the transport's channel are one.
- The bodies of Index and IndexUpdate are opaque in Messages; Wire covers them.

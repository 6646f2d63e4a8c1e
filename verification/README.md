# Verified model of the inode tree, its transactions and its upload tokens

The service keeps a POSIX-like tree of inodes. An inode is a row with a link count and a
content: inline file data, a directory listing, a symlink target, a bucket/key reference to
an object, or the drive a mount leads to. Names exist only inside directory listings. Paths
are resolved by a caching resolver that splices symlink targets into path strings and starts
over from the drive's root, stops at mounts, and hands over from drive to drive. `rm` and
`mv` change the shared graph while they keep resolving paths in it, inside transactions that
nest by joining. Uploads of large objects go through expiring tokens.

## How the model is built

| file | of the repository | what is in it |
|---|---|---|
| `Paths.dfy` | `internal/vfs/path.go` | white space trimming, splitting, cleaning and joining of path strings |
| `Inodes.dfy`, `Graph.dfy`, `Moves.dfy` | `internal/core/node` | rows, listings, the set of entries (`Links`), the invariant (`Inv`), and what removing, adding and moving entries do to all of them |
| `Walk.dfy`, `Resolver.dfy` | `internal/vfs/path.go` | the resolver as a function of the store, the component walk it amounts to, and the class `Resolver` with its cache, loops and recursion |
| `Mounts.dfy` | `internal/vfs/path.go`, `internal/vfs/service.go` | resolution across drives |
| `NodeOps.dfy` | `internal/core/node/operation.go` | the class `NodeOperation`: Link, Unlink, MoveEntry, Save, Delete on handles that are copies of rows |
| `Vfs.dfy` | `internal/vfs` | the class `Service`: Resolve, Stat, Lstat, Mkdir, Touch, Write, WriteLarge, Symlink, Hardlink, Mount |
| `Removal.dfy`, `Rm.dfy` | `internal/vfs/rm.go`, `internal/vfs/mount.go` | what `rm -r` removes, and the recursion that removes it; Unmount |
| `Batch.dfy`, `Mv.dfy`, `MoveFacts.dfy`, `BatchFacts.dfy` | `internal/vfs/mv.go` | `mvOne` and `mvBatch` through cached handles; what they deliver, keep and lose; a closed form of a batch and what follows from it |
| `Run.dfy` | `internal/vfs` | runs of any requests, each in its own transaction or all in one, and the invariants of every state along them |
| `Tx.dfy` | `internal/entx/manager.go` | the class `Database`: committed rows, the rows and tombstones of the open transaction, and transactions that nest by joining |
| `EntRepo.dfy`, `EntRm.dfy`, `EntMv.dfy` | `internal/core/node/ent.go`, `internal/vfs/rm.go`, `internal/vfs/mv.go` | the database repository with its revisions and committed reads, and `rm` and `mv` on it |
| `Upload.dfy`, `Registry.dfy` | `internal/upload` | the upload protocol, the two token registries |
| `Itoa.dfy` | `internal/auth/session.go` | the decimal printer |
| `Witnesses.dfy` | | small stores and runs on which a natural statement fails |

Code that changes state is a class or a method, proved against a function or predicate on
values: `Resolver.ResolvePath` against `Walk.ResolvePath`, `Unlink` and the whole of `rm`
against `Graph.Cut`, `MvOne` and `MvBatch` against `Batch.MoveOne` and `Batch.MoveMany`, the
service against `Runs.Takes`, the upload service against `Uploads.Advances`. The theorems are
about those.

What such a function computes is in turn stated by laws that do not mention it:
`Graph.EntryAdded`, `NodeOps.EntryRemoved` and `Moves.EntryMoved` say row by row what a link,
an unlink and a move change, `MoveFacts.MoveOneIff` and `MoveFacts.MoveManyIff` when a move
goes through, `Walk.Derives` and `Mounts.Literally` what resolution finds, `Vfs.NewIsFound`
and `Vfs.WriteThenRead` what is found after a change, `Uploads.OnlyByRight` who completes an
upload.

Every modelled operation that the repository wraps in `WithTx` begins and ends its transaction
through `Transactions.Database`: Link, Unlink, MoveEntry, Rm, Mv and the commit of an upload. Inside a
transaction they join it; on their own they commit or roll back, and begin, commit and
rollback may each fail (`Faults`). Node rows and tombstones are in one transaction.

Three definitions carry most statements. `Links(fs)` is the set of all directory entries.
`Cut(fs, c)` is the store with exactly the entries `c` removed: every inode loses one link
for each of them, inodes that lose their last link go, nothing else changes. `Inv` says that
listings are well formed and point at existing inodes, that drive roots have no entry, that
no link count is below the number of entries, that only files and objects have several
links, and that entries stay inside one drive. `Exact` adds that link counts equal the
number of entries, `Acyclic` that directories can be ranked.

### Where the code differs from what is said about it

The model follows the code, and each difference has the condition under which it shows.

* `MoveEntry` says it moves an entry between directories. Its loop over the destination's
  listing skips the overwritten name and never copies the other entries, so a move from one
  directory into another leaves the destination with the moved entry alone
  (`internal/core/node/operation.go:351-361`). Inodes whose entry is dropped stay, with a
  link too many. `Moves.MoveKeepsExact`, `MoveFacts.MoveOneKeepsExact`,
  `MoveFacts.BatchKeepsExact` and `MoveFacts.BatchDelivers` give the exact conditions, and
  `Witnesses.MvDropsListing` and `Witnesses.MvBatchKeepsLast` are examples.
* `mvOne` does not check that a directory is moved into its own subtree, and `mvBatch`
  compares only the node itself (`internal/vfs/mv.go:130-134`). Since every move of a batch
  replaces the destination's listing, only its last source can close a cycle, and it does so
  exactly when a way from it down to the destination uses no entry the batch moved away:
  `MoveFacts.MoveOneKeepsAcyclic`, `BatchFacts.BatchKeepsAcyclic`, `Witnesses.MvIntoItself`,
  `Witnesses.MvBatchCycle`.
* `rm` returns a reference for an object that keeps links, and `captureOverwriteRef` ignores
  both link counts and moves onto the same inode: `Removal.SharedObjectTombstoned`,
  `MoveFacts.MoveOneTombstones`, `MoveFacts.BatchTombstones`, `BatchFacts.BatchSparesSurvivors`,
  `Witnesses.RmTombstonesSurvivor`, `Witnesses.MvTombstonesItself`.
* A symlink or a drive seen twice is reported as a cycle even where the path is finite:
  `Witnesses.FiniteButCyclic`, `Witnesses.ReturnIsCycle`.
* `cleanPath` trims white space each time it is called, so it is not idempotent, and
  `resolveParent` may look in another directory than the path names:
  `Paths.CleanPathIdempotent`, `Walk.ParentPathComps`.
  So can `rm`: a path it resolves to a file may name a directory's entry, which it then
  removes without the recursive flag (`Witnesses.RmTakesDirectory`); on tidy names it never
  does (`Remove.FlatSparesDirs`).
* Resolution with following off is said to stop at the first symlink and return it. It does
  so only at the last name; a symlink before it makes Lstat fail
  (`internal/vfs/path.go:66-69`, `Mounts.LstatIsLiteral`, `Mounts.LstatStopsAtLink`).
* `rm -r` unlinks every entry by a path string that is resolved anew. A path through symlinks
  may lead through the very tree that is being removed; it succeeds exactly if it still leads
  there when each entry's turn comes, for which the last entry decides:
  `Remove.RmRecursive`, `Remove.LastDecides`, `Remove.LastTurn`.
* The database repository reads committed rows but writes to the transaction, and refuses
  the second change of a row it has read twice. On it `rm` succeeds exactly when each path
  leads to something and names an entry, and no two of the entries it is to remove, in one
  path or across paths, share a directory or name one inode; `rm /x /y` of two files in one
  directory, or `rm -r` of a directory with two entries, is refused and rolled back:
  `EntRepo.EntRepository.Rewrite`, `EntRemove.Rm`, `Witnesses.RmSiblingsRefused`. On plain
  paths it then does what the other files say (`EntRemove.RmAllAtOnce`). Through symlinks
  there is a difference the other way: a later path may lead through an entry an earlier one
  removes, and is still resolved (`Witnesses.RmStaleLink`). `mv` is never refused there: its
  directories are shared handles, whose revisions follow their own writes, and it ends as
  on a repository that sees its own writes (`EntMove.Mv`). The other files are about
  such a repository, as the code of `rm` and `mv` expects.
* A token can make two inodes. The deletion of a token comes after the commit, so a second
  completion may have passed its checks by then. Between the two commits some other request
  must have freed the name: `Uploads.SecondInode`, `Uploads.SecondIffTwice`,
  `Witnesses.TokenTwice`. It cannot happen while completions of one token do not overlap and
  deletions do not fail (`Uploads.OneInodePerToken`), nor while nothing but uploads runs
  (`Uploads.OneInodeUndisturbed`).

## Model

| member | source | states |
|---|---|---|
| `Paths.JoinParts` | internal/vfs/path.go:291-300 | the builder loop yields the parts with one slash between each two, and none at the ends |
| `Paths.CleanPathComponents` | internal/vfs/path.go:108-118 | for every string: the cleaned path is absolute and its components, those the walker visits, are proper names, so its empty, dot and dot-dot branches and its error cannot be reached; which components these are say the three rows below |
| `Paths.TrimIsCore` | internal/vfs/path.go:283-306 | trimming leaves an infix of the string: everything before and after it is cut, and at neither end of it is there anything left to cut |
| `Paths.CleanPathBlanks` | internal/vfs/path.go:305-309 | any amount of white space around a path makes no difference to its cleaned form and its components |
| `Paths.CleanPathOfTidy` | internal/vfs/path.go:305-315 | a path without outer white space has exactly the components that its own, split at slashes, reduce to, and cleans to their join |
| `Paths.SplitJoinRoundTrip` | internal/vfs/path.go:281-300 | splitPath and "/" + joinParts undo each other, both ways, on cleaned paths and on lists of names |
| `Paths.CleanPathIdempotent` | internal/vfs/path.go:305-315 | cleaning twice is cleaning once iff the last component of the cleaned path has no trailing white space |
| `Paths.CleanPathNotIdempotent` | internal/vfs/path.go:306-306 | the path "/a /" cleans to "/a " and that to "/a" |
| `Paths.ReduceRelative` | internal/vfs/path.go:160-170 | cleaning a relative path and rooting it later gives what rooting it first gives, dot-dot included |
| `Paths.CutAtLastSlash` | internal/vfs/path.go:258-269 | cutting a cleaned path at its last slash yields the path of all components but the last, and the last |
| `Walk.ResolvePlace` | internal/vfs/path.go:88-179 | the inode found sits at the canonical path reported, and something is left over only at a mount |
| `Walk.WalkFollows` | internal/vfs/path.go:139-173 | with follow on, from a root that is a directory, the walk never ends on a symlink |
| `Walk.ResolveSound` | internal/vfs/path.go:88-179 | every success of the splicing, restarting resolver is a derivation of a component walk that never restarts and has no visited set and no budget; it follows at most 40 symlinks, all distinct |
| `Walk.ResolveComplete` | internal/vfs/path.go:88-179 | every derivation that follows at most 40 symlinks, all distinct, is what the resolver returns: same inode, same place, same remainder |
| `Walk.SplicedMeans` | internal/vfs/path.go:148-171 | the spliced and re-cleaned string has the components: directory climbed to, what the target adds there, suffix |
| `Walk.RestartIsResume` | internal/vfs/path.go:139-173 | for a relative target without dot-dot the restart resumes in the symlink's own directory with target and then suffix |
| `Walk.FollowResumes` | internal/vfs/path.go:171-173 | the walk restarted from the root gives the very result of the walk resumed in place |
| `Walk.ResolveWithin` | internal/vfs/path.go:88-278 | removing entries never redirects a resolution: it finds what it found before, or fails |
| `Walk.LockStep` | internal/vfs/path.go:253-278 | if the parent resolved for a path has a non-symlink under the last name, resolving the path ends on exactly that inode, whatever symlinks the parent portion contains |
| `Walk.ParentIsReached` | internal/vfs/path.go:253-278 | resolveParent returns a directory and a name iff that is the last name of the path and the component walk of `Walk.ResolveSound`, symlinks followed, takes all names before it to that inode |
| `Walk.ParentPathComps` | internal/vfs/path.go:258-275 | resolveParent walks all components but the last iff the one before it does not end in white space |
| `Walk.ParentOfUntidy` | internal/vfs/path.go:258-275 | for "/x /y" the parent looked up is /x |
| `Walk.ResolvePlain` | internal/vfs/path.go:88-179 | a path of names through directories only resolves to where its names lead |
| `Resolvers.Resolver.LoadByID` | internal/vfs/path.go:40-50 | with rows unchanged, loads return the row as it is, and every load of one id returns the same object |
| `Resolvers.Resolver.ResolvePath` | internal/vfs/path.go:80-82 | whatever is cached, the answer is that of the uncached resolution; the cache stays coherent and only grows |
| `Resolvers.Resolver.ResolvePathInner` | internal/vfs/path.go:88-179 | the same with symlinks already seen, and it terminates on every store |
| `Resolvers.Resolver.WalkParts` | internal/vfs/path.go:105-175 | the loop over the components computes the walk from the root |
| `Resolvers.Resolver.FollowSymlink` | internal/vfs/path.go:139-173 | a symlink seen before, or the forty-first, is a cycle; any other is resolved anew with the target spliced in |
| `Resolvers.Resolver.ResolveParent` | internal/vfs/path.go:253-278 | the directory and last name of the path, or the exact error; nothing for a path that cleans to the root |
| `Mounts.ResolveIffChain` | internal/vfs/path.go:191-243 | resolution returns a drive and an inode iff the path passes through a chain of at most 32 pairwise distinct drives, each entered by the mount met in the one before, that ends there |
| `Mounts.HopLimitUnreachable` | internal/vfs/service.go:96-96 | with at most 32 drives in play "max mount hops exceeded" is never returned |
| `Mounts.LstatStat` | internal/vfs/service.go:140-149 | if Lstat returns a non-symlink, Stat returns the same drive and inode, across any number of mounts; what Lstat returns says the next row |
| `Mounts.LstatIsLiteral` | internal/vfs/service.go:140-149 | Lstat returns a drive and an inode iff the names of the path, looked up one by one, lead there: from directory to directory and on from a mount to the root of its drive, through at most 32 drives, none twice, and to the last entry itself, be it a symlink; for every path whose cleaned form is clean |
| `Mounts.LstatOfEntry` | internal/vfs/service.go:140-149 | in a directory that Lstat finds it finds every entry under its name, whatever its kind |
| `Mounts.LstatStopsAtLink` | internal/vfs/path.go:119-122 | with a symlink before the last name Lstat fails |
| `Mounts.ResolveFollows` | internal/vfs/ln.go:51-61 | following resolution never returns a symlink, so Hardlink's symlink test never fires |
| `Mounts.PermissionAcrossMount` | internal/vfs/service.go:117-138 | when resolution crosses a mount, permission resolution returns another drive and a nonempty rest, and resolving that rest there gives the drive and inode of the whole resolution |
| `Mounts.PermissionWithinDrive` | internal/vfs/service.go:117-138 | with no mount crossed the request comes back unchanged, unless the path ends on a mount itself, which is resolved to the mount's inode |
| `Vfs.Service.GetRootNodeID` | internal/vfs/service.go:151-160 | the root inode of a known drive, an error for any other |
| `Vfs.Service.ResolveWithMounts` | internal/vfs/path.go:191-243 | the loop over hops, with a new resolver for each drive, returns what resolution across drives is specified to return |
| `Vfs.Service.Resolve` | internal/vfs/service.go:98-107 | the drive and inode that following resolution across drives finds, never a symlink, or its error |
| `Vfs.Service.Stat` | internal/vfs/stat.go:12-21 | that inode, or that error |
| `Vfs.Service.Lstat` | internal/vfs/service.go:140-149 | the drive and inode to which the names of the path literally lead, as in `Mounts.LstatIsLiteral`, and an error iff they lead nowhere |
| `Inodes.OneParent` | ent/schema/node.go:13-16 | a directory, symlink or mount has at most one entry in the whole store |
| `Inodes.AtUnique` | ent/schema/node.go:13-16 | at most one canonical path leads from a drive's root to a directory, symlink or mount |
| `Inodes.DrivesDisjoint` | ent/schema/node.go:13-16 | the trees of distinct drives, mounts not crossed, share no inode |
| `Graph.CutKeepsInv` | internal/core/node/operation.go:170-234 | removing any set of entries keeps the invariant |
| `Graph.CutKeepsExact` | internal/core/node/operation.go:170-234 | removing entries keeps link counts exact iff no directory goes with entries still in it |
| `Graph.CutCut` | internal/core/node/operation.go:170-234 | removing entries step by step is removing them at once |
| `Graph.AddLinkKeepsInv` | internal/core/node/operation.go:96-133 | a new entry for a new inode, or for a file or object of the same drive, keeps the invariant |
| `Graph.AddLinkCounts` | internal/core/node/operation.go:96-133 | and keeps link counts exact |
| `Graph.AddLinkKeepsAcyclic` | internal/core/node/operation.go:96-133 | and makes no directory cycle |
| `Moves.MoveLinks` | internal/core/node/operation.go:311-378 | the entries after a move: the old ones, without the source entry and without everything the destination listed, and the new one |
| `Moves.MoveRows` | internal/core/node/operation.go:311-397 | a move row by row: the source listing without the entry, inside one directory with the entry in the place of the one overwritten or at the end; another destination listing with the moved entry alone; the overwritten inode with its content and a link less, or gone with its last one; everything else as before |
| `Moves.MoveKeepsInv` | internal/core/node/operation.go:257-406 | a move inside one drive keeps the invariant, overwriting included |
| `Moves.MoveKeepsExact` | internal/core/node/operation.go:351-397 | a move keeps link counts exact iff the destination, if another directory, lists nothing but the overwritten name, and an overwritten directory is empty |
| `Moves.MoveKeepsAcyclic` | internal/core/node/operation.go:257-406 | a move keeps the directory graph acyclic iff the destination is not inside the moved directory |
| `NodeOps.NodeOperation.Link` | internal/core/node/operation.go:96-133 | succeeds iff the parent is a directory, the name is not empty and not taken, and the transaction, joined or its own, lasts; then the parent lists its old entries and after them the new one, the child has its content and one link more, and every other row is as before; else all rows are |
| `NodeOps.NodeOperation.RemoveEntry` | internal/core/node/dir.go:149-164 | the listing loses exactly the entry of that name |
| `NodeOps.NodeOperation.Unlink` | internal/core/node/operation.go:170-234 | succeeds iff the directory lists the name and the transaction lasts; then exactly that entry is cut: the listing is as before without it, the child has its content and one link less, or is deleted and returned iff it was its last link, and every other row is as before |
| `NodeOps.NodeOperation.MoveEntry` | internal/core/node/operation.go:257-406 | inside a transaction the exact error, on its own also that of the transaction; on success the exact rows and handles after the move, also when the handles are older than the rows; on an error the rows as they were; always an error where both names are listed for different inodes of different kinds |
| `NodeOps.NodeOperation.NewSourceEntries` | internal/core/node/operation.go:311-336 | the loop drops the source entry, and inside one directory puts the moved entry where the overwritten one was |
| `NodeOps.NodeOperation.NewDestinationEntries` | internal/core/node/operation.go:351-356 | the loop over the destination listing keeps none of its entries |
| `Vfs.Service.ResolveEditableParent` | internal/vfs/path.go:323-342 | the parent directory and name, an error if the parent is no directory |
| `Vfs.Service.LinkNew` | internal/vfs/mkdir.go:13-29 | all or nothing: under a free name, the last of the path, the directory its parent leads to has one entry more, after the old ones, for a new inode with the content asked for and one link, and every other row is as before; or the store is as it was, also when the link's transaction fails; link counts stay exact and directories acyclic |
| `Vfs.Service.Mkdir` | internal/vfs/mkdir.go:13-29 | the same for an empty directory |
| `Vfs.Service.Touch` | internal/vfs/touch.go:13-29 | the same for an empty file |
| `Vfs.Service.Symlink` | internal/vfs/ln.go:16-32 | the same for a symlink; an empty target is refused |
| `Vfs.Service.WriteLarge` | internal/vfs/write.go:58-71 | the same for an object; an incomplete reference or a negative size is refused |
| `Vfs.Service.Mount` | internal/vfs/mount.go:24-65 | the same for a mount; the drive itself, an unknown drive and a soft-deleted one are refused |
| `Vfs.Service.Hardlink` | internal/vfs/ln.go:45-76 | succeeds iff the source is a file or object, the new name is free in a directory and the transaction lasts; the inode then has one more entry, one more link and its content as before, and every other row but the directory is as before |
| `Vfs.HardlinkKeeps` | internal/vfs/ln.go:45-76 | source and new name are on one drive, so drives stay disjoint, counts exact and directories acyclic |
| `Vfs.HardlinkIsFound` | internal/vfs/ln.go:45-76 | after a hard link both paths resolve to the inode the source led to, with its content |
| `Vfs.NewIsFound` | internal/vfs/mkdir.go:13-29 | what has been made at a path is what resolving that path finds afterwards, whatever symlinks the parent portion contains |
| `Vfs.Service.Write` | internal/vfs/write.go:19-54 | succeeds iff the path leads to a file, or to nothing in a directory and the transaction of the link lasts; then the data of that file alone is replaced, or a new file linked |
| `Vfs.WriteThenRead` | internal/vfs/write.go:19-54 | after a write the path leads to a file with exactly the data written, and no other inode but the directory of a new file has changed |
| `Removal.RemoveNext` | internal/vfs/rm.go:102-124 | removing one more entry of a directory, with all below it, is exactly removing that name's part of the subtree, although siblings are gone already |
| `Removal.RmIsExact` | internal/vfs/rm.go:44-131 | the entries left are exactly the others, and an inode no removed entry touches is as it was |
| `Removal.RmRemovesTree` | internal/vfs/rm.go:94-131 | unless the path names a symlink, every directory at or below its target is gone |
| `Removal.RemovedClosed` | internal/vfs/rm.go:94-131 | what is removed is closed: a directory goes only with all its entries |
| `Removal.RmAllKeepsExact` | internal/vfs/rm.go:20-131 | after any list of paths the invariant holds and link counts are exact |
| `Removal.RmIsOneCut` | internal/vfs/rm.go:20-131 | removing path after path, each on what the ones before it left, comes to one cut of the store before, and its references are those of that cut |
| `Removal.ParedKeeps` | internal/vfs/rm.go:20-131 | whatever entries below a root an rm removes, on any strings and wherever it stops, the invariant stays and no directory cycle appears |
| `Removal.ParedSpares` | internal/vfs/rm.go:20-131 | every inode of every other drive is exactly as it was: rm goes through no mount |
| `Removal.RmTombstones` | internal/vfs/rm.go:20-131 | when every object has one link, the tombstones are exactly the references of the objects deleted |
| `Removal.RmGarbageMeans` | internal/vfs/rm.go:81-91 | what an rm records are exactly the references, with bucket and key, of the objects that removed entries named |
| `Removal.RmSparesSurvivors` | internal/vfs/rm.go:20-131 | if also no two inodes share a reference, no surviving inode is tombstoned |
| `Removal.SharedObjectTombstoned` | internal/vfs/rm.go:20-131 | over all paths of one rm, an object survives and is tombstoned iff some, but not all, of its links are removed |
| `Remove.UnlinkLeaf` | internal/vfs/rm.go:66-80 | succeeds iff the parent, resolved anew, lists the last name; exactly that entry is cut, whatever has changed since the path was first resolved |
| `Remove.RmLeaf` | internal/vfs/rm.go:65-92 | succeeds iff the resolved parent lists the name; exactly that entry is cut, and the reference is that of the deleted inode or, when links remain, of the resolved one |
| `Remove.RmRecursive` | internal/vfs/rm.go:94-131 | from a directory tracked by its path string, through symlinks or not: succeeds iff the path leads there at the turn of each entry and then names an entry; exactly the entries at and below it and its own entry are removed, and exactly their objects' references returned |
| `Remove.RmEntries` | internal/vfs/rm.go:94-124 | the loop over the listing read at the start removes exactly what lies below, iff the path leads there at the turn of each entry |
| `Remove.LastTurn` | internal/vfs/rm.go:94-124 | at the turn of the last entry exactly what lies below the directory is gone, but for that entry |
| `Remove.LastDecides` | internal/vfs/rm.go:94-124 | a path that leads there at the turn of the last entry led there at every turn |
| `Remove.PlainGoes` | internal/vfs/rm.go:94-131 | a path without symlinks leads there to the end |
| `Remove.NextChild` | internal/vfs/rm.go:102-108 | when the turn of an entry comes, the directory is where it was and still lists that entry with the inode read at the start |
| `Remove.ChildLeaf` | internal/vfs/rm.go:66-80 | the parent resolved anew from the child's path string, on the store as it is by then, is the directory the child was read from |
| `Remove.RmPath` | internal/vfs/rm.go:44-60 | with reads that see the transaction's writes: without the recursive flag a path that leads to a directory is refused and nothing changes; where the path leads to anything else, on any strings, it succeeds iff the path names an entry, and cuts exactly that; on tidy ones it succeeds iff the path leads to something, a directory only with the flag, names an entry, and a directory's removal gets through as `TreeGoes` says, and then exactly `RemovedLinks` of the path went. On the database repository: `EntRemove.RmPath` |
| `Remove.Rm` | internal/vfs/rm.go:20-42 | one transaction, begun and ended or joined: an error of a path, the tombstone insert, begin or commit leaves committed rows and tombstones as they were; on any strings, nothing but entries of that drive goes; it succeeds iff each path is removable in its turn and neither recorder, begin nor commit fails; then exactly what the paths remove in order is gone, and exactly their references were recorded. Without the recursive flag no path leads to a directory at its turn, and every directory stays, with all directories it listed. On the database repository: `EntRemove.Rm` |
| `Remove.FlatSparesDirs` | internal/vfs/rm.go:53-59 | a list of paths that can be removed without the recursive flag leads to no directory at any turn, and removing them leaves every directory with all directories it listed |
| `Remove.AllPlainRemovable` | internal/vfs/rm.go:20-42 | paths without symlinks, each leading to a file, an object or a directory when its turn comes, are all removable |
| `Remove.Unmount` | internal/vfs/mount.go:73-115 | succeeds iff the path leads to a mount, its parent lists the last name and the transaction lasts; exactly that entry is cut, with the mount or the symlink it names |
| `Batch.OverlayStep` | internal/core/node/operation.go:257-406 | the invariant survives a move through handles that are older than the rows, even when a row deleted by an earlier move is written back |
| `Batch.MoveOneKeepsInv` | internal/vfs/mv.go:43-77 | the invariant after mvOne, whatever it moved |
| `Batch.MoveManyKeepsInv` | internal/vfs/mv.go:79-145 | the invariant after mvBatch, whatever it moved and overwrote |
| `Move.CaptureOverwriteRef` | internal/vfs/mv.go:171-188 | the reference of the object under the name, whatever its link count |
| `Move.ApplyMoveEntry` | internal/vfs/mv.go:151-169 | one move through the handles, with the captured reference, or the error and nothing changed |
| `Move.MvOne` | internal/vfs/mv.go:43-77 | the store, result and error of `Batch.MoveOne`; the invariant is kept |
| `Move.GatherSources` | internal/vfs/mv.go:98-128 | the loop resolves every source, in order, and refuses a mount crossed or a basename met before |
| `Move.MoveSources` | internal/vfs/mv.go:136-143 | the loop moves the sources through handles that all come from one cache, so later moves see earlier ones, up to the first that is refused; the invariant is kept at each turn |
| `Move.MovesIntoItself` | internal/vfs/mv.go:130-134 | true iff some source is the destination itself |
| `Move.MvBatch` | internal/vfs/mv.go:79-145 | the store, result and error of `Batch.MoveMany`; after an error the rows hold exactly the moves before it, for the transaction to undo; the invariant is kept |
| `Move.Mv` | internal/vfs/mv.go:18-41 | one transaction, begun and ended or joined: all sources moved and their references recorded, or committed rows and tombstones as they were, as the first error of a move, of the recorder, of begin or of commit decides; joined, an error leaves exactly the moves before it to the outer transaction; a source that would overwrite an inode of another kind is always refused, with rows and tombstones as before |
| `MoveFacts.MoveOneIff` | internal/vfs/mv.go:43-77 | mvOne goes through iff the source resolves without crossing a mount, both parents resolve, the new one to a directory, the old one lists the source, and the new name is free, or leads to that inode already, or to one of its kind |
| `MoveFacts.GatherIff` | internal/vfs/mv.go:98-128 | the sources of a batch are gathered iff each path leads to an inode of this drive and has a parent, and no two have the same basename; they are these inodes, directories and names, in order |
| `MoveFacts.MoveManyIff` | internal/vfs/mv.go:79-145 | mvBatch goes through iff the destination is a directory, every path has such a source other than it, all are listed, those from the first that is not in place on in other directories, and that first one overwrites nothing of another kind |
| `MoveFacts.ClashRefused` | internal/core/node/operation.go:315-316 | a move that would overwrite an inode of another kind, by its one source or by the first of a batch that is not in place, is refused as a type mismatch before anything is written |
| `MoveFacts.MoveOneRows` | internal/vfs/mv.go:43-77 | a move of one source changes the rows exactly as `Moves.MoveRows` says, or, if it is in place, not at all |
| `MoveFacts.MoveOneDelivers` | internal/vfs/mv.go:43-77 | the inode arrives at the new name and leaves the old one; inodes other than the two directories and the overwritten one are untouched |
| `MoveFacts.MoveOneKeepsExact` | internal/vfs/mv.go:43-77 | mv of one source keeps link counts exact iff it was in place or drops nothing |
| `MoveFacts.MoveOneKeepsAcyclic` | internal/vfs/mv.go:43-77 | mv of one source keeps directories acyclic iff it was in place or does not contain the destination |
| `MoveFacts.MoveOneTombstones` | internal/vfs/mv.go:151-188 | the tombstones of a move are the references of the objects it deleted iff the new name led to no object, or to another inode whose last link it was |
| `MoveFacts.MoveOneCaptures` | internal/vfs/mv.go:171-188 | what a move hands to the recorder is the reference, with bucket and key, of the object the new name led to, or nothing |
| `MoveFacts.MoveOneSparesSurvivors` | internal/vfs/mv.go:151-188 | with one link for each object and one object for each reference, no surviving inode is tombstoned iff the new name led to no object or the entry really moved |
| `MoveFacts.BatchDelivers` | internal/vfs/mv.go:79-145 | a successful batch puts every source at destination/basename iff it has at most one source or all were there already |
| `MoveFacts.BatchKeepsLast` | internal/vfs/mv.go:136-143 | a batch that moves anything leaves the destination with its last source and nothing else |
| `BatchFacts.BatchMoves` | internal/vfs/mv.go:136-143 | every source moved has lost its old entry; every row but the directories and the inode the first move overwrote is untouched; no inode is lost but that one, and that one iff it was its last link |
| `BatchFacts.BatchOrder` | internal/vfs/mv.go:136-143 | two successful orders of one set of sources give the same store iff all sources were in place, or the same sources are moved, the same one last, and the first move overwrites the same inode |
| `BatchFacts.BatchOrderIntoFree` | internal/vfs/mv.go:136-143 | when the destination lists none of the basenames, two orders give the same store iff they end with the same source |
| `MoveFacts.BatchKeepsExact` | internal/vfs/mv.go:79-145 | a batch keeps link counts exact iff all sources were in place, or all but the last and moving that one drops nothing |
| `BatchFacts.BatchKeepsAcyclic` | internal/vfs/mv.go:79-145 | a batch keeps directories acyclic iff all sources were in place, or no way from the last source down to the destination is free of entries the batch moved away |
| `MoveFacts.BatchTombstones` | internal/vfs/mv.go:79-188 | with one link for each object and one object for each reference, the tombstones of a batch are those of the objects it deleted iff no source in place before the first move is an object |
| `BatchFacts.BatchSparesSurvivors` | internal/vfs/mv.go:79-188 | under the same conditions no surviving inode is tombstoned iff no source in place before the first move is an object |
| `Runs.Serve` | internal/vfs/service.go:29-63 | each request changes the store as `Runs.Takes` says, unless it fails inside its caller's transaction, which then has to undo it; the invariant is kept in any case |
| `Runs.TakesKeeps` | internal/vfs/service.go:29-63 | what any request does, on any strings and whatever fails, keeps the invariant, and exact counts and acyclicity under `Counted` and `Outward` |
| `Runs.RunIsSafe` | internal/vfs/service.go:29-63 | from what each request does alone: in every state of every run that starts consistent, directories, symlinks and mounts have one entry at most, roots none, drives are disjoint; counts stay exact and directories acyclic while the requests respect the conditions |
| `Runs.Run` | internal/vfs/service.go:29-63 | whatever requests the service serves, the committed states it passes through are such a run |
| `Runs.Transact` | internal/entx/manager.go:19-41 | any list of requests inside one transaction, all of whose own transactions join it: on success the committed rows before and after are the ends of such a run, on any error committed rows and tombstones are as they were |
| `Transactions.Database.Begin` | internal/entx/manager.go:19-27 | joins the open transaction, or begins one unless that fails |
| `Transactions.Database.End` | internal/entx/manager.go:30-40 | a joined call changes nothing and passes its error on; the outermost commits rows and tombstones iff work and commit succeed, else both are again as committed; the error is that of the work, of the rollback or of the commit |
| `Transactions.Database.WithTx` | internal/entx/manager.go:19-41 | around any callback: outermost, the committed rows and tombstones see all writes of the callback with its nested transactions taken out, iff begin, work and commit succeed, else none; nested, the work has its plain meaning and nothing is committed |
| `Transactions.Database.Do` | internal/entx/manager.go:19-41 | work under an open transaction has its meaning on the transaction's rows, at any nesting, and leaves the committed ones alone |
| `EntRepo.EntRepository.Get` | internal/core/node/ent.go:24-33 | the committed row, not what the transaction has written |
| `EntRepo.EntRepository.Save` | internal/core/node/ent.go:37-113 | inserts a row the transaction lacks, updates one whose revision is the one read, else refuses and changes nothing |
| `EntRepo.EntRepository.Rewrite` | internal/core/node/ent.go:24-113 | a read, change and save through a handle of its own succeeds iff the transaction has not written the row before, or has deleted it |
| `EntRepo.RewriteTwice` | internal/core/node/ent.go:88-113 | of two such writes of one row the second is refused and the first stays |
| `EntRepo.EntRepository.Unlink` | internal/core/node/operation.go:170-221 | on this repository, after any unlinks of the transaction: goes through iff the directory lists the name and none of the entries removed before was in the same directory or named the same inode; the transaction then is the committed store without all these entries |
| `EntRemove.RmTree` | internal/vfs/rm.go:94-131 | on this repository: the directory a path leads to, through symlinks or not, is removed iff no two of the entries below it, and then the entry the path names, share a directory or name one inode, and none meets an entry removed before |
| `EntRemove.RmPath` | internal/vfs/rm.go:44-60 | the same for any path, which must lead to something and name an entry; one that leads to a directory is refused without the recursive flag, with nothing written |
| `EntRemove.Rm` | internal/vfs/rm.go:20-42 | rm succeeds iff every path is such and no two of all entries to be removed, within and across paths, share a directory or name one inode; then the committed rows are the store without exactly these entries, else they are as they were; without the recursive flag no path leads to a directory, and every directory stays, with all directories it listed |
| `EntRemove.RmAllAtOnce` | internal/vfs/rm.go:20-131 | where it succeeds on plain paths, the result is that of removing path after path with reads that see what was removed before |
| `EntMove.MoveEntry` | internal/core/node/operation.go:257-406 | on this repository, through handles that can be saved: the errors and the effect are those of `NodeOps.NodeOperation.MoveEntry`, the handles can be saved again, and every other row is as it was; entries of different kinds for different inodes are refused as a type mismatch |
| `EntMove.ApplyMoveEntry` | internal/vfs/mv.go:151-169 | one move through the handles of one cache is the step of `Batch.Step`, with its captured reference; all cached directories can still be saved, overwritten and rewritten ones included |
| `EntMove.MoveSources` | internal/vfs/mv.go:136-143 | the loop over the sources ends as `Batch.Apply` says |
| `EntMove.MvBatch` | internal/vfs/mv.go:79-145 | the result, error and rows of `Batch.MoveMany` |
| `EntMove.MvOne` | internal/vfs/mv.go:43-77 | the result, error and rows of `Batch.MoveOne` |
| `EntMove.Mv` | internal/vfs/mv.go:18-41 | one transaction: it ends as `Batch.MoveSpec` says, with the moves committed or, on its errors alone, the rows as they were; a revision conflict is never among them; overwriting an inode of another kind is refused with the committed rows as they were |
| `EntMove.MoveSpecErrors` | internal/vfs/mv.go:18-145 | no error of mv on a repository that sees its own writes is a revision conflict |
| `Uploads.KeysDistinct` | internal/upload/service.go:105-106 | distinct uploads have distinct object keys, whatever their drives are called |
| `Uploads.KeyParts` | internal/upload/service.go:106-106 | the key of an upload to a drive with a proper name has the components drives, drive, uploads and id |
| `Uploads.UploadService.InitiateUpload` | internal/upload/service.go:96-139 | succeeds iff the drive has a bucket, the registry takes the token and the URL can be signed; the new token is live iff it was stored and not taken back, nothing else changes; a withdrawal that fails leaves it live though an error is returned |
| `Uploads.UploadService.CheckUpload` | internal/upload/service.go:141-164 | passes iff the token is live, for that user and drive, the size agrees if it was given, and the object is in the store |
| `Uploads.UploadService.CommitUpload` | internal/upload/service.go:166-202 | one transaction, begun and ended or joined, that Link joins: succeeds iff the reference is complete, the size not negative, the name free in a directory and the transaction lasts; then the tree has exactly the new entry, else it is as it was |
| `Uploads.UploadService.CompleteUpload` | internal/upload/service.go:141-209 | an inode is made iff all of that holds; without one tree and token are as before, with one the token is gone unless its deletion failed, which is reported |
| `Uploads.NameIsTaken` | internal/upload/service.go:166-202 | after one completion has committed, the path of another resolves to the same place and finds the name taken |
| `Uploads.AdvanceKeeps` | internal/upload/service.go:96-209 | every step of any number of requests at once, and anything other requests do to the tree, keeps the bookkeeping of tokens |
| `Uploads.MadeIffGoes` | internal/upload/service.go:166-202 | a token makes an inode exactly at the steps at which a transaction of one of its completions goes through |
| `Uploads.OnlyByRight` | internal/upload/service.go:96-202 | over every run a token makes an inode only by a completion of the user, on the drive and, if a size was given, with the length that its upload was initiated with, checked before the token's time ran out and with the object put; what it makes is the entry at the path initiated, for that object |
| `Uploads.TakenStays` | internal/upload/service.go:166-202 | no step of the upload protocol frees a name |
| `Uploads.SecondInode` | internal/upload/service.go:141-209 | over every run: between two inodes of one token another request has freed the name, and the completion that makes the second had passed its check before the token was first gone |
| `Uploads.SecondIffTwice` | internal/upload/service.go:141-209 | over every run a new token comes to a second inode iff the transactions of two of its completions go through: each past its check, the name free, the reference complete, no fault |
| `Uploads.OneInodeUndisturbed` | internal/upload/service.go:141-209 | over every run without other requests a token makes at most one inode, however its completions overlap and whatever fails |
| `Uploads.OneInodePerToken` | internal/upload/service.go:141-209 | over every run in which no completion of a token is checked while another one of it is under way and no deletion fails, a token makes at most one inode, whatever other requests do |
| `Uploads.RunKeysDistinct` | internal/upload/service.go:105-106 | over every run no two uploads share an object key |
| `Uploads.Run` | internal/upload/service.go:96-209 | whatever steps the upload service takes, in any interleaving of checks, commits and deletions, the committed worlds it passes through are such a run, in which other requests do what `Runs.Takes` says |
| `Registry.MemoryRegistry.Put` | internal/upload/memory.go:27-37 | the token and its expiry are stored, replacing any before; nothing else changes |
| `Registry.MemoryRegistry.Get` | internal/upload/memory.go:39-52 | returns a token iff the last thing done to that id was to put that token and its time has not run out, over every history |
| `Registry.MemoryRegistry.Delete` | internal/upload/memory.go:54-64 | the id is gone, nothing else changes |
| `Registry.ValkeyRegistry.Put` | internal/upload/valkey.go:42-53 | the key lives for the whole seconds of its time to live |
| `Registry.ValkeyRegistry.Get` | internal/upload/valkey.go:55-77 | a token is found iff the server still has it and it has not expired itself; one found expired is deleted |
| `Registry.ValkeyLives` | internal/upload/valkey.go:42-53 | a key of a token not expired itself is there exactly as long as its time to live, rounded towards zero to whole seconds by less than one |
| `Registry.ValkeyImpliesMemory` | internal/upload/valkey.go:42-77 | over any calls the upload service makes at any times, every token Valkey returns is one memory returns too |
| `Registry.Compare` | internal/upload/memory.go:27-64 | the answers of both registries to one sequence of calls are the two sequences that are compared |
| `Registry.ValkeyIsEarlier` | internal/upload/valkey.go:42-77 | after one put the two differ iff memory's time has not run out and the whole seconds since the put, or the token's own expiry, have |
| `Itoa.Itoa` | internal/auth/session.go:52-72 | for every 64-bit integer but the smallest the output parses back to it, without leading zeros; the smallest prints "-"; never more than 20 characters |
| `Itoa.WriteDigits` | internal/auth/session.go:61-66 | the loop stays inside the 20-byte buffer, leaves a byte for the sign, and writes exactly the digits |
| `Itoa.DigitsUnique` | internal/auth/session.go:52-72 | the printed form is the only one without leading zeros that parses to the number |
| `Itoa.FitsBuffer` | internal/auth/session.go:60-60 | 64-bit integers need at most 19 digits |
| `Witnesses.SampleHealthy` | ent/schema/node.go:13-16 | a store with a directory and files in it satisfies the invariant, has exact link counts and no directory cycle; each witness on mv and rm below starts from such a store |
| `Witnesses.MvDropsListing` | internal/core/node/operation.go:351-361 | a move into a directory with another file succeeds, and that file keeps its row and loses its entry |
| `Witnesses.MvBatchKeepsLast` | internal/vfs/mv.go:136-143 | a batch of two files leaves the first without an entry anywhere |
| `Witnesses.MvIntoItself` | internal/vfs/mv.go:43-77 | a directory moved to a name inside itself becomes its own parent |
| `Witnesses.MvBatchCycle` | internal/vfs/mv.go:130-143 | with directories /a and /a/b and a file /x, moving x and then a into /a/b leaves a and b in each other; a and then x leaves no cycle |
| `Witnesses.RmTombstonesSurvivor` | internal/vfs/rm.go:81-91 | removing one of two names of an object tombstones its reference, and the object stays |
| `Witnesses.RmTakesDirectory` | internal/vfs/rm.go:44-80 | with directories "x" and "x ", a directory y in the first and a file y in the second, rm of "/x /y" without the recursive flag finds the file and removes the directory |
| `Witnesses.RmSiblingsRefused` | internal/core/node/ent.go:88-113 | two files of one directory: rm of both goes through where reads see what was removed before, and is refused on the database repository |
| `Witnesses.RmStaleLink` | internal/core/node/ent.go:24-33 | a link and a link to it: rm of both goes through on the database repository, and fails where reads see what was removed before |
| `Witnesses.MvTombstonesItself` | internal/vfs/mv.go:171-188 | moving one name of an object onto the other changes nothing and tombstones its reference |
| `Witnesses.FiniteButCyclic` | internal/vfs/path.go:139-146 | a path through one symlink twice is reported as a cycle, though a derivation for it exists |
| `Witnesses.ReturnIsCycle` | internal/vfs/path.go:191-243 | a path that comes back to its first drive is reported as a cycle, though it leads to a file |
| `Witnesses.TokenTwice` | internal/upload/service.go:141-209 | two completions of one token pass their checks; with the first's file removed in between, both commit: the token has made two inodes |

## Left out

- Ls, Cat, ResolveNodeID, PresignDownload, DeleteObject and the bulk node operations: resolution followed by a read, or loops over operations that are modelled.
- Timestamps, sizes, flags, MIME types, checksums, the 4 KiB cap and the JSON form of contents.
- Permission checks, logging, error texts and error kinds; where several checks fail, contracts of the operations that add entries and of uploads say that an error is returned, not which. Resolution and mv give the exact error.
- Context cancellation and the registry's mutexes: each operation is one atomic step. Interleaving is modelled between the check, the commit and the deletion of uploads.
- The garbage collector that drains tombstones, the object store but for the set of keys it holds, and storage lookup but for a drive's bucket.
- The Valkey network and its SCAN, its refusal of a time to live under one second, and the encoding of tokens.
- Generated code, HTTP, OIDC, OpenFGA, cookies, cryptography, configuration and the command line.
- Randomness and clocks: new ids, the moments of calls, and every failure of a recorder, a begin, commit or rollback, a URL signature, a registry put or delete are parameters. Single statements inside a transaction do not fail by themselves, a registry put that fails stores nothing, and a rollback that reports an error has still undone the transaction.
- White space: the statements about rm, Unmount and the component walk are for names, symlink targets and paths whose components have no outer white space (`TidyStore`, `TidyTargets`, `AllTidy`), because the code trims a path at each call; resolution itself, mv, the invariant, acyclicity and all-or-nothing are for all strings.
- Walk.ResolveSound: assumes tidy symlink targets and a tidy path, see white space above.
- Walk.ResolveComplete: assumes tidy symlink targets and a tidy path, see white space above.
- Walk.LockStep: assumes tidy symlink targets and a tidy path, see white space above.
- Walk.ParentIsReached: assumes tidy symlink targets and a tidy path, see white space above.
- Mounts.LstatIsLiteral: is for paths that clean to a clean path, see white space above.
- Vfs.NewIsFound: assumes tidy symlink targets and a tidy path, see white space above, and is not about new symlinks, which resolution follows.
- Vfs.WriteThenRead: assumes tidy symlink targets and a tidy path, see white space above.
- Mounts.PermissionAcrossMount: assumes tidy symlink targets and a tidy path, see white space above.
- Remove.Rm: what exactly is removed and recorded, and which removals succeed, is stated for tidy stores and paths; on other strings, that nothing but entries of the drive goes.
- Paths.CleanPathComponents: characters are Unicode code points, white space is the fixed set of the Go library's IsSpace.
- Remove.RmPath: is about a repository whose reads see the transaction's writes; on the database repository the exact condition is that of `EntRemove.RmPath`.
- EntRemove.Rm: is for tidy stores and paths, see white space above, and leaves out the references handed to the recorder, which on plain paths are those of `Removal.RmGarbage`, and the faults of begin, commit and recorder, which are in `Remove.Rm`.
- EntMove.Mv: leaves out the faults of begin, commit and recorder, which are in `Move.Mv`; the references for the recorder are its result.
- Vfs.Service.LinkNew: the node operations run on a repository whose reads see the transaction's writes and whose writes are not refused; the database repository is modelled separately in `EntRepo`, `EntRemove` and `EntMove`; bulk operations and single Link calls are not.
- NodeOps.NodeOperation.MoveEntry: revision conflicts are not part of it; that mv meets none on the database repository is `EntMove.Mv`.
- Itoa.Itoa: models a 64-bit int, as on the platforms the service is built for.

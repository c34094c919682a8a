# Verification of go-galaxy's protocols, planners and caches

go-galaxy installs Ansible collections and roles from a shared cache. This project
models the parts of it where a wrong step is hard to see and proves what they
promise: the distributed lock on an S3 bucket, the incremental re-solve, install
levels and their scheduling, the parallel pager and role walk, prefetched temporary
files, archive extraction with its directory memo and symlink rules, the gzip member
walk and its limit, the metadata cache, the extract marker, percent-encoding, and
cleanup's reachability, removal and keep set.

`dafny verify dfyconfig.toml` checks everything. One file holds one component:

| file | component |
|---|---|
| `LockProtocol.dfy`, `LockUntimed.dfy`, `LockTimed.dfy`, `LockTight.dfy`, `LockProgress.dfy` | the S3 lock as a transition system; what holds in every interleaving; what holds under the timing constants; why those are exact; takeover from a crashed holder |
| `LockLoss.dfy`, `AcquireLoop.dfy` | the loss signal against release, cancellation and the run's verdict; the acquire loop |
| `CollectionKeys.dfy`, `IncrementalResolve.dfy` | collection keys; the merge of a preserved subgraph with a fresh solve |
| `InstallLevels.dfy`, `InstallRun.dfy` | topological levels; dispatch, failure and cancellation |
| `RoleWalk.dfy`, `Pager.dfy` | the concurrent role walk and the prefetching pager against their sequential forms |
| `Prefetch.dfy`, `InstallRecovery.dfy` | ownership of prefetched temps across goroutines; one install's attempts and temps |
| `ArchivePaths.dfy`, `ArchiveExtract.dfy`, `ArchiveSafety.dfy`, `ArchiveContents.dfy`, `ArchiveUnpacks.dfy` | entry names and symlink targets; extraction with the memo and its budgets; containment; duplicates and file contents; when an archive unpacks, and into what |
| `ReaderStack.dfy` | the gzip member walk and the limit over it |
| `ApiCache.dfy`, `Marker.dfy`, `PercentEncoding.dfy` | metadata freshness; the extract marker; key encoding |
| `CleanupScan.dfy`, `Closure.dfy`, `CleanupReachable.dfy`, `CleanupRemove.dfy`, `CleanupRun.dfy` | what is read; what is kept; what is removed and swept; the whole run |
| `Text.dfy`, `Wrappers.dfy` | splitting and joining text; optional values and results |

## How things are modelled

Goroutines and clients are interleaved steps; whatever a step's caller cannot decide
(the order workers finish in, whether a call fails, how a server answers) is a
parameter over which every theorem is universally quantified. Loops that update
variables are methods proved against a function or a relation; objects whose methods
update their fields are classes.

**The lock.** Each S3 verb is one atomic effect; a client is a program counter with
the values it read. Assumptions: an ETag is unique to its write; a call takes effect
before it returns or times out; time may pass while a client waits or is inside a
call, but not past the expiry of the context it is in, and a due heartbeat starts at
once; tokens are unique; object headers are well formed. The number of heartbeats that
may fail in a row, before and after the first that lands, the clock skew and whether a
DELETE may land, lose its reply and be sent again are parameters, because the result
depends on them:

- With the shipped constants, mutual exclusion needs the *first* heartbeat to land.
  One later failure in a row is covered; a failing first one is not, since the
  deadline was computed before the wait for the lock (up to the wait ceiling) ended.
- A DELETE whose reply is lost is retried (`internal/cache/s3/client.go:269-290`,
  `retry.go:41-78`). If the object was deleted the first time and another client
  acquires the lock in between, the retry deletes that client's object. This breaks
  mutual exclusion whatever the timing.
- Both lifetime conditions are tight to the nanosecond: `LockTight.dfy` builds the
  run with two holders from any configuration that misses one.

**Install recovery.** `installCollection` returns before it touches the prefetched
temp when `newInstallTarget` refuses the identifiers, so that temp is dropped. The
contract of `InstallRecovery.Installer.InstallCollection` says that this is the only
path on which one is.

**Pager.** A first full page that declares more than 10000 versions is refused at
once; a one-page-at-a-time walk might have ended on a later short page
(`Pager.DisagreementHappens`). The two agree exactly outside that case
(`Pager.PrefetchAgrees`), and always on a server whose pages are consistent
(`Pager.HonestList`).

**Role walk.** The concurrent walk fails exactly when the sequential one does, but it does
not always report the same failure: it resolves a whole level before it merges any of it.
The two reports differ exactly when the concurrent walk stops at a level where, before the
first role that does not resolve, another one's metadata cannot be read or exceeds the cap
(`RoleWalk.WalksAgree`); `RoleWalk.CausesMayDiffer` is such a level.

**Extraction.** No object is ever removed or replaced by another, but the contents of a
file that was there can change: a regular entry truncates a file that is writable, and
any file when the process is root. Contents survive every archive exactly when neither
is the case (`ArchiveContents.ContentsSurviveExactly`); otherwise the archive of that one
file overwrites it.

**Percent-encoding.** `encodePath` maps the empty path and `/` to the same text; it is
injective otherwise.

**Marker.** The running tally is an `int64` and wraps. A count that wraps to a negative
number is written in a form that no check accepts, so such a tree is extracted again
every time. Writing removes the old marker first, so a failed write leaves the old one
untouched, or none, or a line that breaks off; such a line matches the tree it was
written for exactly when all of it but its end got out and no count wrapped to a negative
number (`Marker.CheckAfterFailedWrite`).

## Model

| member | source | states |
|---|---|---|
| LockUntimed.EachVersionTakenOnce | internal/cache/s3/lock.go:141-268 | in every interleaving, without any clock assumption, no version of the key is consumed by two successful conditional PUTs, a takeover follows the taker's own reading of exactly that object as expired, and every holder saw its own token after a PUT of its own |
| LockUntimed.SecondHolderNeedsAnExpiry | internal/cache/s3/lock.go:179-257 | without clock assumptions two clients hold the lock at once only after some client read a deadline as expired (or a DELETE landed twice) |
| LockUntimed.NothingLeftBehind | internal/cache/s3/lock.go:141-391 | in every interleaving an object on the key belongs to a client that is still acquiring, holding or releasing, or has crashed: a failed acquisition, a loss and a release leave none behind unless the release itself fails |
| LockUntimed.EndsOnlyBy | internal/cache/s3/lock.go:73-268 | an acquisition ends only by its ceiling, a failed call, a crash or the grant, or, when its own write is gone again, if the key is empty; losing a race never ends it; holding ends only by the release, a foreign token that a tick saw on the key, or a crash, and a client that lost the lock releases nothing |
| LockUntimed.RunKeepsHistory | internal/cache/s3/lock.go:141-257 | every reachable state's log of effects is a compare-and-swap history and every client's phase agrees with it |
| LockTimed.AtMostOneHolder | internal/cache/s3/lock.go:73-257 | for any number of clients and every timed run: at most one holder, whoever relies on the key finds its own token there, and no heartbeat meets a foreign token, if the lifetime covers the first and every later stretch without a landed refresh |
| LockTimed.RunKeepsTimed | internal/cache/s3/lock.go:349-460 | every client's last sure deadline, recorded in whole seconds, is kept ahead of its next possible refresh in every timed run |
| LockTight.MutualExclusionIffLongEnough | internal/cache/s3/lock.go:73-460 | mutual exclusion holds in all timed runs if and only if the lifetime covers both stretches to the nanosecond and no DELETE lands twice |
| LockTight.ShippedConstants | internal/cache/s3/variables.go:84-99 | the shipped constants are safe if and only if the first heartbeat lands, at most one later heartbeat in a row fails, skew is within 29.5 s and no DELETE lands twice |
| LockTight.DeleteLandsTwice | internal/cache/s3/client.go:269-290 | from any configuration in which a DELETE may be sent again after it landed, a state with two holders is reached |
| LockTight.FirstStretchTooLong | internal/cache/s3/lock.go:349-391 | from any configuration whose lifetime is too short for wait ceiling and first heartbeats, a state with two holders is reached |
| LockTight.LaterStretchTooLong | internal/cache/s3/lock.go:394-413 | the same for the stretch after a heartbeat that landed |
| LockProgress.CrashedHolderIsReclaimed | internal/cache/s3/lock.go:141-257 | from every timed state in which all clients are idle or have crashed, an idle one can come to hold the lock by its own steps at most one lifetime and the skew later |
| LockLoss.LossIsNeverMasked | internal/galaxy/cache/locklost.go:14-29 | once a tick that saw a foreign token canceled the holder, every later judgement with a live parent is the loss, whatever the work returned and wherever release stands |
| LockLoss.ReleaseReportsExactlyTheLoss | internal/cache/s3/lock.go:349-391 | release reports the loss if and only if some tick saw a foreign token, and then it deletes nothing |
| LockLoss.VerdictNamesOnlyRealLosses | internal/galaxy/cache/locklost.go:14-29 | the verdict is the loss if and only if a tick canceled the holder for one under a live parent and the parent still is live, and else the work's own error; with no holder it is always the work's own |
| LockLoss.HistoryIsExact | internal/cache/s3/lock.go:349-413 | a foreign token counts as seen if and only if a tick saw one, a loss as recorded under a live parent if and only if a tick canceled the holder before the parent was canceled, and the bucket as asked if and only if release decided to before any tick flagged a loss |
| LockLoss.ReleaseNeverOverwritesALoss | internal/cache/s3/lock.go:349-413 | release's own cancellation never becomes the holder's cause when a tick saw a foreign token |
| AcquireLoop.Loop | internal/cache/s3/lock.go:73-136 | the loop ends at the first round that acquires, fails or exhausts the wait; any other round goes on at once if and only if it says so and is within eight such rounds in a row, and else backs off; an ended wait counts as contention if and only if some round observed a holder |
| CollectionKeys.ParseRender | internal/galaxy/collections/resolve.go:526-532 | every text is the rendering of one canonical key, which it parses to, and every canonical key parses back from its text |
| InstallLevels.BuildInstallLevels | internal/galaxy/collections/resolve.go:1063-1117 | succeeds if and only if the graph, duplicate edges allowed, has no cycle; the levels then partition all nodes, each node above all its dependencies and directly above one |
| InstallLevels.BuildDependencyIndex | internal/galaxy/collections/resolve.go:1068-1087 | in-degrees count the edges with repetition and the reverse lists hold each parent as often as it names the dependency |
| InstallLevels.TopologicalLevels | internal/galaxy/collections/resolve.go:1089-1117 | peeling the levels off a correct index ends with every node placed or with a cycle |
| InstallLevels.LevelIsLongestChain | internal/galaxy/collections/resolve.go:1089-1117 | a node's level is the length of its longest dependency chain: one of that length exists and none is longer |
| InstallLevels.LayeredIsAcyclic | internal/galaxy/collections/resolve.go:1063-1066 | a graph that can be layered has no cycle |
| InstallLevels.StuckIsCyclic | internal/galaxy/collections/resolve.go:1108-1116 | nodes that each wait for another of them hold a cycle |
| InstallRun.DependenciesFirst | internal/galaxy/collections/install_command.go:139-205 | whenever an install starts, in any interleaving and whatever fails or is canceled, every dependency's install has returned without error, and it was never started before |
| InstallRun.BoundedWorkers | internal/galaxy/collections/install_command.go:167-170 | at most max(Workers, 1) workers are under way |
| InstallRun.CompleteUnlessStopped | internal/galaxy/collections/install_command.go:139-156 | no worker outlives the return, and a run without failure, missing collection or cancellation installed every node |
| InstallRun.ReturnsForAReason | internal/galaxy/collections/install_command.go:139-205 | a missing collection is reported only if a key of the level has none; otherwise, unless canceled, every level below the one it stopped at is installed, and it stopped there only after a failure, with every key of that level tried |
| InstallRun.RecordsAreExact | internal/galaxy/collections/install_command.go:189-202 | a key counts as installed if and only if its install returned without error, as failed if and only if with one, and the run as canceled if and only if it was |
| InstallRun.FailureStopsNextLevel | internal/galaxy/collections/failures.go:33-49 | after a failure no later level is begun |
| InstallRun.CancellationStopsDispatch | internal/galaxy/collections/install_command.go:173-190 | after a cancellation at most the one key already past its check is handed out, on this level and all later ones |
| InstallRun.EveryRunReturns | internal/galaxy/collections/install_command.go:139-205 | the install never hangs, whatever fails or is canceled: until it has returned some step but a cancellation can be taken, and their number is bounded by the plan |
| IncrementalResolve.TryIncrementalResolve | internal/galaxy/collections/resolve.go:605-645 | a success solves all current roots when the snapshot solved its own and the nested solve the changed ones, keeps unchanged roots at their versions, and is closed with one version per collection whatever the snapshot holds; its edge lists repeat nothing when the halves' do not; on valid halves it succeeds if and only if they want no two versions of one collection; what the new half does not have is the snapshot's collection, source included |
| IncrementalResolve.BuildPreservedSnapshot | internal/galaxy/collections/resolve.go:673-732 | the part of the snapshot that the unchanged roots reach and no more, each key with its graph entry and a matching resolved entry; fails exactly when one is missing |
| IncrementalResolve.PreservedRootKeys | internal/galaxy/collections/resolve.go:699-710 | the unchanged roots' keys at their snapshot versions, or failure exactly when one has none |
| IncrementalResolve.CollectGraphKeys | internal/galaxy/collections/resolve.go:534-557 | the least set that holds the roots and is closed under the graph's edges, cycles and missing nodes included |
| IncrementalResolve.SameDeps | internal/galaxy/collections/resolve.go:560-575 | true if and only if the two lists are equal as multisets |
| IncrementalResolve.MergeResolvedGraphs | internal/galaxy/collections/resolve.go:734-761 | the union of both halves, a shared collection with the fresh entry; fails if and only if they differ on a version or on a node's dependencies as multisets |
| IncrementalResolve.ExpandGraphFromSnapshot | internal/galaxy/collections/resolve.go:763-819 | brings in exactly the snapshot nodes that closing the graph takes, with their collections, and nothing where both halves are closed; fails if and only if one of those is missing from the snapshot or does not fit what is resolved |
| IncrementalResolve.ValidateMergedGraph | internal/galaxy/collections/resolve.go:821-833 | accepts exactly the graphs whose every node names the resolved version of its collection |
| IncrementalResolve.SolverResultToGraph | internal/galaxy/collections/solve.go:91-178 | the solver's versions become collections: a pinned one from its pin whatever else names it, an unpinned one from its binding, an unbound one from its root's non-empty source, and only the rest from the first server; the edges become a closed graph with one node for every collection, exactly those edges, and none twice however often the answer repeats it; fails if and only if a name is no collection's or an edge is not between resolved ones |
| IncrementalResolve.RecordedIsRebuilt | internal/galaxy/collections/resolve.go:949-982 | a recorded collection is rebuilt with its own source if that is a pinned locator or a server, with the run's server if it has none, and not at all if its locator is not pinned or it has no version |
| IncrementalResolve.UnionSolves | internal/galaxy/collections/resolve.go:734-761 | two solutions that agree on versions together solve both sets of roots |
| IncrementalResolve.PreservedSolves | internal/galaxy/collections/resolve.go:673-697 | the preserved part of a valid snapshot solves the unchanged roots |
| IncrementalResolve.OneVersionGivesOneEdgeList | internal/galaxy/collections/resolve.go:746-759 | for valid halves agreement on versions is agreement on edge lists, so a merge never fails for its edges |
| RoleWalk.ResolveRoles | internal/galaxy/collections/role_resolve.go:52-87 | one result for every order in which fetches finish, its failure included; it succeeds if and only if the sequential first-in-first-out walk does, with the same roles in the same order, and ends on cyclic dependencies |
| RoleWalk.WalksAgree | internal/galaxy/collections/role_resolve.go:63-82 | both walks report the same outcome if and only if the level walk does not stop at a level it cannot resolve, or every role of that level before the first that fails has room and readable metadata |
| RoleWalk.MergeIsFifo | internal/galaxy/collections/role_resolve.go:69-82 | merging a level that resolved as a whole is the sequential walk over it, its failures included |
| RoleWalk.StuckLevel | internal/galaxy/collections/role_resolve.go:63-68 | at a level that does not resolve as a whole the sequential walk fails too, and for the same role's reason if and only if nothing stops it before that role |
| RoleWalk.ResolveRoleLevel | internal/galaxy/collections/role_resolve.go:150-169 | answers in input order, or the first failure in input order |
| RoleWalk.DropDuplicates | internal/galaxy/collections/role_resolve.go:109-129 | dropping a level's taken and repeated names before resolving changes nothing in the sequential walk's result |
| RoleWalk.FirstDeclarationWins | internal/galaxy/collections/role_resolve.go:109-129 | of all requests for a free name the earliest is the one resolved |
| RoleWalk.ResolutionIsClosed | internal/galaxy/collections/role_resolve.go:52-87 | a successful resolution lists each name once, holds every root, is closed under declared dependencies and holds nothing that no chain of declarations asked for |
| RoleWalk.ResolutionFailsForAReason | internal/galaxy/collections/role_resolve.go:52-87 | it fails only if a request that some chain of declarations asks for does not resolve or declares what cannot be read, and names that one, or if those chains ask for more names than the cap; where neither is so it succeeds |
| RoleWalk.WantedInOrder | internal/galaxy/collections/role_resolve.go:212-231 | what a role wants is what its dependencies want one after another, in the order declared: the request of an installed one, nothing of a local role or a collection's, and no answer at all if one cannot be read |
| RoleWalk.FillRoleDeps | internal/galaxy/collections/role_resolve.go:245-263 | for every resolved role with a pin in the memo, the declared dependencies that are in the resolution, itself left out, in order; nothing for a role without one |
| RoleWalk.RecordedAreDeclared | internal/galaxy/collections/role_resolve.go:245-263 | the names recorded for a resolved role are exactly what it declares but itself; where dependencies are not walked, those of them that were resolved anyway |
| RoleWalk.CausesMayDiffer | internal/galaxy/collections/role_resolve.go:63-82 | two roots for which the level walk reports the second, which does not resolve, and the sequential walk the first, whose metadata cannot be read |
| Pager.VersionsPager.CollectAll | internal/galaxy/collections/resolve.go:336-356 | the walk's own result unless the first page declares too much, for any server and any order of completion; every offset requested at most once, at most 100 requests, and from a server that pages one list none past its end |
| Pager.VersionsPager.PrefetchScheduled | internal/galaxy/collections/resolve.go:359-372 | every page the declared total schedules, each requested once, in input order whatever order they come in |
| Pager.VersionsPager.WalkPages | internal/galaxy/collections/resolve.go:377-400 | the sequential walk's result, prefetched pages or not |
| Pager.WalkMeans | internal/galaxy/collections/resolve.go:377-400 | for any server the walk's result is given by the first page that ends the list: that page's failure if it failed, and else the versions of every page up to it |
| Pager.NoPageEndsIt | internal/galaxy/collections/resolve.go:377-400 | the walk ends in the paging error if and only if no page within the bound ends the list |
| Pager.PrefetchAgrees | internal/galaxy/collections/resolve.go:336-356 | prefetching and walking agree if and only if the first page does not declare too much or no page within the bound ends the list |
| Pager.DisagreementHappens | internal/galaxy/collections/resolve.go:344-346 | a full first page that declares 10001 versions before an empty page: the walk returns the first page, the pager the paging error |
| Pager.HonestList | internal/galaxy/collections/resolve.go:377-400 | from a server that pages one list both return the whole list, or the paging error exactly when it is longer than 10000 |
| Pager.AtMostPages | internal/galaxy/collections/resolve.go:377-400 | distinct page offsets below n pages are at most n requests |
| Prefetch.EachTempInOnePlace | internal/galaxy/collections/prefetch.go:219-281 | in every interleaving each downloaded temp is in exactly one place: stashed, held by one Wait's caller, dropped, or released once |
| Prefetch.FirstWaitGetsIt | internal/galaxy/collections/prefetch.go:219-236 | a Wait is handed the temp if and only if a download stored it and neither another Wait nor Close took it since |
| Prefetch.ReleasedExactlyOnce | internal/galaxy/collections/prefetch.go:239-252 | after Close and all callers, each downloaded temp was released exactly once, or never if its caller dropped it; every temp of a collection whose identifiers are accepted was released exactly once |
| Prefetch.NothingAfterClose | internal/galaxy/collections/prefetch.go:239-252 | Close is final and idempotent: nothing is stashed afterwards |
| Prefetch.CompletionFiresOnce | internal/galaxy/collections/prefetch.go:261-285 | a registered key's completion channel is closed at most once, and is closed exactly when its task is past the workers |
| Prefetch.NoWaitBlocksForever | internal/galaxy/collections/prefetch.go:165-236 | as long as a Wait cannot return some worker can move, and workers move at most three times per task |
| Prefetch.WorkersBounded | internal/galaxy/collections/prefetch.go:165-180 | at most max(DownloadWorkers, 1) tasks are under way |
| InstallRecovery.Installer.InstallCollection | internal/galaxy/collections/install.go:33-87 | every temp obtained or handed over is freed exactly once on every path, but for a handed-over one when the target is refused; at most two attempts and one eviction |
| InstallRecovery.Installer.PrepareWithRecovery | internal/galaxy/collections/install.go:234-268 | succeeds if and only if the first attempt works or it was a recoverable cache hit and a forced one works; each losing payload is freed once and only the winner stays open; when it evicts: exactly after a repairable failure of a cached copy online, and of a locked collection only when the cache itself found the mismatch |
| InstallRecovery.Installer.PrepareInstall | internal/galaxy/collections/install.go:141-193 | a prefetched temp wins unless forced; a failed attempt leaves no temp behind |
| ArchivePaths.SanitizedNames | internal/galaxy/archive/archive.go:355-370 | a sanitized name is a path of plain components where the name leads, sanitizing is idempotent, and a name is refused if and only if it is empty, rooted or leads out |
| ArchivePaths.SymlinkTargets | internal/galaxy/archive/archive.go:416-443 | an accepted target leads exactly where the link name leads, below the destination and at no step outside it; accepted if and only if the link name is relative, not "." in disguise and leads to such a place |
| ArchivePaths.WalkCleaned | internal/galaxy/archive/archive.go:424-429 | cleaning a relative path does not change where it leads from any base |
| ArchivePaths.RelLeadsBack | internal/galaxy/archive/archive.go:435-442 | the relative path between two places leads from the one to the other |
| ArchiveExtract.Extractor.Extract | internal/galaxy/archive/archive.go:130-157 | extraction with the directory memo leaves the tree and the contents that extraction with a fresh look at every component leaves, for every entry sequence; every memoized path is a real directory at every step |
| ArchiveExtract.Extractor.EnsureNoSymlinkParents | internal/galaxy/archive/archive.go:375-391 | the memoized component check gives the answer of a fresh walk |
| ArchiveExtract.Extractor.EnsureDir | internal/galaxy/archive/archive.go:215-224 | the memoized creation leaves what a fresh one leaves, and memoizes only real directories |
| ArchiveExtract.Extractor.HandleEntry | internal/galaxy/archive/archive.go:176-203 | one entry's effect and outcome are those without the memo |
| ArchiveSafety.CheckPathMeans | internal/galaxy/archive/archive.go:375-413 | the component check passes if and only if no component is a symlink and none above the last is a file, and never looks through a symlink itself |
| ArchiveSafety.EntryIsContained | internal/galaxy/archive/archive.go:176-291 | whatever the entry: no object is removed or replaced by another, every object sits in a real directory, each new one is below the destination, a new symlink climbs no higher than it, and no call goes through a symlink |
| ArchiveSafety.UnpackIsContained | internal/galaxy/archive/archive.go:130-157 | for every archive, wherever it stops, no object is removed or replaced by another and all else that holds of one entry |
| ArchiveContents.EntryWrites | internal/galaxy/archive/archive.go:176-256 | an entry writes contents if and only if it is a regular one with a sane name, whose component check and parent directories succeed, whose open is let through, and whose path is free or holds a file that is writable or met by root; the path then holds that file; a regular entry succeeds if and only if it writes its whole body |
| ArchiveContents.TakenPathIsWritten | internal/galaxy/archive/archive.go:226-256 | over a taken path that is if and only if it is a regular entry, the open is let through, and a file is there that is writable or met by root; what is written is that file |
| ArchiveContents.UnpackWrites | internal/galaxy/archive/archive.go:130-157 | every file an archive's entries write to was made by them, or is writable under some name it had, or is met by root |
| ArchiveContents.ContentsSurviveExactly | internal/galaxy/archive/archive.go:226-245 | the contents of a file that was there, under all its hard links, survive every archive if and only if it is read-only and the process is not root, or no header is allowed at all |
| ArchiveContents.OneFileOverwrites | internal/galaxy/archive/archive.go:226-245 | otherwise the archive of that one regular file unpacks without a failure and overwrites it |
| ArchiveSafety.UnpackedLinksStayInside | internal/galaxy/archive/archive.go:258-270 | after unpacking any archive, no path below the destination, resolved through any number of symlinks as the system does, climbs above it |
| ArchiveContents.NoPathTwice | internal/galaxy/archive/archive.go:226-256 | in an archive that an unprivileged process unpacks over no writable file, two entries share a path only when both are directories |
| ArchiveUnpacks.MkdirSucceeds | internal/galaxy/archive/archive.go:215-224 | directories are made down to a path if and only if every object on the way is a directory and none of the missing ones is refused |
| ArchiveUnpacks.EntryUnpacks | internal/galaxy/archive/archive.go:176-291 | each kind of entry succeeds if and only if its name is sane and the tree before it allows it; then its path holds the directory, file, symlink target or the hard link's own file, the directories above are there, and nothing else has changed |
| ArchiveUnpacks.ArchiveUnpacksIff | internal/galaxy/archive/archive.go:130-157 | an archive unpacks if and only if it can be read to its end, has no more headers than allowed, each of an allowed size and all of them together, and every entry may be unpacked into the tree the ones before it left |
| ArchiveExtract.BudgetsHold | internal/galaxy/archive/archive.go:130-174 | declared bytes never pass their cap; the header count passes its own by at most the one header that is refused; an unpacked archive's headers are all charged, each within the per-entry cap, and are no more than allowed; the sum fits 63 bits |
| ReaderStack.Reader.Read | internal/gzipstream/gzipstream.go:61-98 | for any chunking: never reads past a member's end without Reset and disarming, delivers the members' concatenation up to the first empty or broken one, and repeats its verdict; a read that asks for bytes from a source that is not idle gets some or the verdict |
| ReaderStack.Reader.ReadToEnd | internal/gzipstream/gzipstream.go:61-98 | reading on always reaches a verdict, the stream's own, after all of its data |
| ReaderStack.LimitReader.Read | internal/galaxy/archive/archive.go:109-128 | delivers a prefix of that, never more than the limit, drawing at most one byte more; its verdict is the limit's if and only if the stream holds more than the limit, else the stream's own after all of it; a read that asks for bytes from a source that is not idle gets some or the verdict |
| ReaderStack.LimitReader.ReadToEnd | internal/galaxy/archive/archive.go:109-128 | reading on always reaches a verdict: the limit's if and only if the stream holds more, and else the stream's own after all of its data |
| ReaderStack.StreamMeans | internal/gzipstream/gzipstream.go:61-98 | what a stream yields, by the first member that stops the walk: an empty clean one is refused, a broken one ends it after what it had, and past the last one it ends as the stream does |
| ReaderStack.EndReached | internal/gzipstream/gzipstream.go:78-96 | at a member's end the walk either has delivered all the stream yields, with the stream's verdict, or goes on to the next member |
| ReaderStack.DataSplits | internal/gzipstream/gzipstream.go:61-98 | what a stream yields is the members passed so far and what the rest yields |
| ApiCache.WhatIsServedIsFresh | internal/galaxy/cache/api_cache.go:26-164 | in every run, with any origin updates and concurrent readers, a served body was the origin's at an instant no older than one request budget after a request, than the TTL and one budget from the cache |
| ApiCache.EntriesAreBacked | internal/galaxy/cache/api_cache.go:143-164 | every entry's body was current for the URL it names during the request it was last written by |
| ApiCache.CacheIsLastWrite | internal/galaxy/cache/api_cache.go:96-164 | in every run the cache holds under each key exactly the reply last stored there, a 304 renewing the time |
| ApiCache.ServedAtOnce | internal/galaxy/cache/api_cache.go:57-82 | in every run, colliding keys included, a read is served without a request if and only if its policy reads and the last reply stored under its key was for its URL, decodes and is no older than its TTL; it is served that reply's body |
| ApiCache.FetchedIsServed | internal/galaxy/cache/api_cache.go:26-137 | where keys do not collide, what a writing reader fetched is what the next read of that URL within its TTL is served at once, unless a newer reply was stored in between |
| ApiCache.ReadMeans | internal/galaxy/cache/api_cache.go:41-82 | a read is answered at once if and only if its policy reads, the key's entry is for its URL, not empty and decodes, and the TTL is zero or the age between zero and it; otherwise it starts one request, which revalidates the entry if only its age is wrong |
| ApiCache.AnswerMeans | internal/galaxy/cache/api_cache.go:96-137 | a reply's body is the origin's at the instant it speaks for: handed over once if it decodes, as a 304's always does, and stored, decodable or not, if and only if the policy writes; a failure does neither |
| ApiCache.EveryReaderIsAccountedFor | internal/galaxy/cache/api_cache.go:26-137 | in every run the reads begun are those handed one body, those whose request is under way, and those whose fetch failed or brought a 200 that does not decode |
| ApiCache.StepKeeps | internal/galaxy/cache/api_cache.go:55-137 | every read, reply and origin change keeps entries and served bodies backed |
| Marker.ParseFormat | internal/galaxy/collections/marker.go:77-117 | parsing gives back what was written exactly when no count is negative |
| Marker.FormatFits | internal/galaxy/collections/marker.go:36-38 | a written marker always fits the read cap |
| Marker.CheckAfterWrite | internal/galaxy/collections/marker.go:148-236 | after writing, a check of any tree matches if and only if its tally is the one written, and otherwise reports drift with both tallies |
| Marker.CheckAfterFailedWrite | internal/galaxy/collections/marker.go:148-163 | a failed write left the marker's directory alone or took the old marker with it; then a check of a tree with the tally to be written matches if and only if all of the line but its end got out and no count is past 63 bits, and a check of any other only if that tree has the same entries and directories and fewer bytes |
| Marker.CutOffLine | internal/galaxy/collections/marker.go:84-117 | a marker line cut off anywhere reads, if at all, as the same entries and directories and at most the bytes, equal only if nothing is missing |
| Marker.RoleMarkerMatches | internal/galaxy/collections/marker.go:40-71 | a marker written into the tree it describes does not change its tally, so it matches |
| Marker.MatchMeansEqualTotals | internal/galaxy/collections/marker.go:220-236 | for trees whose totals fit 63 bits a match means equal entries, directories and bytes |
| Marker.Target.WriteExtractMarker | internal/galaxy/collections/marker.go:148-163 | succeeds if and only if scan, removal and write do; every other name in the directory keeps its node, and the marker's own is the whole text, what got out of it, nothing, or, if the removal was not reached, what it was |
| Marker.ScanTree | internal/galaxy/collections/marker.go:42-71 | the running 64-bit tally of the walk is the wrapped total count, top-level markers left out |
| Marker.CountMeans | internal/galaxy/collections/marker.go:42-71 | the total counts, of all that lies below but for markers at the top and what is under them, the directories, everything else, and the length of all contents |
| PercentEncoding.DecodeEncode | internal/cache/s3/client.go:886-909 | decoding gives back every byte string, slashes encoded or not |
| PercentEncoding.EncodeIsInjective | internal/cache/s3/client.go:886-909 | no two byte strings are encoded alike |
| PercentEncoding.EncodeDecode | internal/cache/s3/client.go:886-909 | every canonical text is the encoding of what it decodes to |
| PercentEncoding.EncodingIsCanonical | internal/cache/s3/client.go:886-909 | output is unreserved bytes, kept slashes and uppercase triplets of the others only |
| PercentEncoding.UnreservedAre | internal/cache/s3/client.go:882-909 | unreserved bytes are the letters, the digits and the four marks - . _ ~ |
| PercentEncoding.SegmentsAreEncoded | internal/cache/s3/client.go:873-880 | a path encoded with its slashes kept splits into its encoded segments; with them encoded it is one segment |
| PercentEncoding.EncodePathCollisions | internal/cache/s3/client.go:873-880 | two paths are encoded alike if and only if they are equal or both are the empty path or the root |
| PercentEncoding.AwsURIEncode | internal/cache/s3/client.go:889-909 | the builder's single pass yields the encoding all the above is about |
| Reachability.BuildReachable | internal/galaxy/cleanup/reachable.go:25-67 | fails if and only if some project's scan does, or else some project's requirements cannot be read; otherwise the index holds every project's copies and the result is the least closed sets of keys and roles over every project's roots |
| CleanupScan.Scanner.ScanAll | internal/galaxy/cleanup/reachable.go:43-55 | every project's copies under their names and keys, no others, a key's dependencies being the ones scanned last; fails if and only if some scan does |
| Reachability.Walker.GitRootKeys | internal/galaxy/cleanup/reachable.go:119-168 | a git requirement keeps its pin's installed collections, narrowed to the named one, or without a pin exactly the installed ones recorded from that directory of the repository or just below |
| Reachability.Walker.UrlRootKeys | internal/galaxy/cleanup/reachable.go:173-204 | a URL requirement keeps its pinned collection if installed, or without a pin exactly the installed ones recorded from that URL |
| Reachability.Walker.MarkReachable | internal/galaxy/cleanup/reachable.go:299-322 | the worklist makes the reached set the least closed one with one more key, parsed constraints memoized |
| Reachability.Walker.SelectInstalled | internal/galaxy/cleanup/reachable.go:265-296 | with the memo, every copy's key for an empty or unparseable constraint, and else those of the copies with a semantic version that the constraint admits |
| Reachability.Walker.MarkCollectionRoots | internal/galaxy/cleanup/reachable.go:71-99 | closes the reached set anew over one project's Galaxy, git and URL roots |
| Reachability.RoleMarker.MarkReachableRoles | internal/galaxy/cleanup/roles.go:188-201 | the same least closed set for role names |
| Reachability.OrderDoesNotMatter | internal/galaxy/cleanup/reachable.go:52-66 | the same projects in any order, recorded any number of times, keep the same keys and roles |
| Reachability.EveryProjectIsServed | internal/galaxy/cleanup/reachable.go:52-66 | each project's own roots and all they need are kept |
| Reachability.KeptIsNeeded | internal/galaxy/cleanup/reachable.go:52-66 | what is kept is exactly what some project needs: what every closed set over all roots holds |
| Reachability.KeysKeptAreLeast | internal/galaxy/cleanup/reachable.go:52-67 | the collections kept are the least set with the copies that each project's requirements admit and that each member's recorded dependencies admit |
| Reachability.RolesKeptAreLeast | internal/galaxy/cleanup/reachable.go:52-67 | the roles kept are the least set with every role a project lists, every role under the roles path of a project whose list cannot be read, and all that an installed copy of a member depends on |
| CleanupRemove.Shelf.RemoveUnused | internal/galaxy/cleanup/remove.go:19-70 | wherever it ends: the unused keys dealt with are a prefix in key order, with every copy and record, nothing of any other key is touched but some copies of the one a removal failed at, and a dry run counts the same and changes nothing (removeUnusedRoles, roles.go:206-239, is the same loop); it comes to its end if and only if no cancellation is seen on the way and every unused copy can be removed |
| CleanupRemove.ExtractedKeepSet | internal/galaxy/cleanup/sweep.go:118-143 | the checksums of records that stay and of warmed ones, no others |
| CleanupRemove.RoleKeepSHAs | internal/galaxy/cleanup/roles.go:267-279 | the same for roles |
| CleanupRemove.SweptExactlyWhenUnnamed | internal/galaxy/cleanup/sweep.go:85-110 | an artifact is swept if and only if no surviving record of either kind and no warmed one names it and content was ever recorded |
| CleanupRemove.Cache.Cleanup | internal/galaxy/cleanup/cleanup.go:78-107 | a run that gets past the removals removed exactly the unused keys and sweeps what a dry run plans, up to a cancellation and but for entries that would not go; one that does not sweeps nothing; a dry run changes nothing; it gets past the removals if and only if neither is canceled or meets a copy that cannot be removed |
| CleanupRemove.Cache.Sweep | internal/galaxy/extracted/store.go:327-358 | the planned entries before the cancellation that can be removed go, in order and past failures, and nothing else |
| CleanupRemove.SweptInFull | internal/galaxy/extracted/store.go:327-358 | a sweep takes only what was planned, and all of it if and only if no entry sees the cancellation and none refuses to go |
| CleanupRun.CleanupProjects | internal/galaxy/cleanup/cleanup.go:78-107 | wherever a run ends, every copy and record of a collection or role that some project needs is as it was; a run that cannot learn what some project needs changes nothing; after one that gets past its removals, what was scanned and is left is needed; the extracted store keeps whatever a record that is left names |

## Left out

- Late effects of an S3 call that timed out or was canceled, ETag reuse, scheduling delays between two steps of one client, and lock objects with a missing or malformed deadline or ETag (`lock.go:446-460` falls back to Last-Modified for the first).
- HTTP transport, request signing, retries other than a DELETE sent twice, and JSON, XML and YAML decoding.
- The PubGrub solver: its result enters `IncrementalResolve` as a structured graph; versions and constraints are an opaque satisfaction relation there and opaque ranges in `Reachability`.
- Splitting roots into changed and unchanged ones, signatures over requirements, and reuse of a whole snapshot (`resolve.go:43-155`, `647-671`, `838-1044`).
- LockProgress.CrashedHolderIsReclaimed: says that a takeover can happen, not that a scheduler lets it; random backoff is not modelled.
- CleanupRun.CleanupProjects: takes that the scan found what is on disk and that nobody else changes it meanwhile.
- The order of keys inside an install level and of prefetch tasks, which is latency only.
- InstallRun.DependenciesFirst: `waiting` merges a worker blocked in Wait with one about to call it; Wait's return is Prefetch's subject.
- Role resolution per kind, its pins and its memo (`role_resolve.go:173-192`, `265-505`): a request resolves to the same answer whenever it is asked.
- What the scan for prefetching schedules (`prefetch.go:97-151`) is not modelled; tasks are any set of keys.
- Skip checks, checksum choice, pin and signature verification and extraction inside `installCollection`: each is one answer of an attempt.
- ArchiveExtract.Extractor.Extract: a file's contents are one number, whole or broken off; ownership, permissions other than the write bits, a Lstat that fails on an existing path, and changes to the destination by others are not modelled; contexts appear as an archive that breaks off.
- Empty and "." components in `ensureNoSymlinkParents`, which the source calls unreachable for sanitized names.
- ReaderStack.Reader.ReadToEnd: repeated reads stand for a caller that reads to the end, of a source that neither pauses nor hands out empty chunks; LimitReader.ReadToEnd likewise.
- ReaderStack.Reader.Read: a chunk that comes with an error is not modelled; the decompressor reports ends and faults with no bytes.
- ReaderStack.LimitReader.Read: the context reader above it.
- ApiCache.WhatIsServedIsFresh: clock skew between hosts, entries from before the run, and the delay between a reply and its time stamp are not modelled.
- Marker.CheckAfterWrite: scan failures and unreadable files during a check; a symlink is an entry with its own length.
- Canonical query encoding (`client.go:849-871`).
- Reading one workspace or roles path (`cleanup/scan.go`, `roles.go:48-182`): each gives a list of manifests or roles, or fails. Locators and the parent of a subdirectory are opaque, and role scan results are taken with their recorded dependencies.
- Reachability.OrderDoesNotMatter: is about roots over one index; in the scan two copies of one key whose manifests disagree count with the dependencies scanned last, and projects are scanned in sorted order.
- CleanupRemove.Shelf.RemoveUnused: the best-effort deletes of cached artifacts, dependency entries and `.info` directories are not modelled.
- CleanupRemove.Cache.Cleanup: the legacy artifact sweep, an extracted store that cannot be listed or opened, and the final save are not modelled; an entry whose removal fails counts as still there.
- Command line, configuration, progress, metrics, dry-run reports and message texts.

# A RAID 1 network filesystem, modelled and verified

A FUSE client keeps one directory tree on several servers. Every mutation goes to all live servers
in the order of their slots; a server that does not answer is marked down and moved one slot back;
a watcher thread pings it and, after a timeout, puts the hotswap server in its place; a server that
comes back is emptied and rebuilt from its predecessor before it is used again. When a file is
opened its replicas are compared by digest and time and repaired from each other. The client has a
cache of file contents in front of slot 0.

The code is modelled as written. Where it does not do what its comments, its names or the
repository's README promise, a lemma gives an input on which it fails, and another lemma gives the
exact condition under which it does what is promised.

## Modules

| file | what it holds |
|---|---|
| `Octets.dfy` | bytes |
| `Trees.dfy` | paths, directory trees, the path operations, the tree that a rebuild leaves |
| `Replication.dfy` | the client protocol as a state machine: slots, watchers, hotswap, disks, lost requests |
| `ReplicationSafety.dfy` | invariants of every run, any number of servers |
| `Watching.dfy` | every server that goes down is watched until all pings have failed |
| `Descriptors.dfy` | which descriptors an open leaves in the slots |
| `FanOut.dfy` | rotation, and which servers a fan-out reaches |
| `Mirror.dfy`, `TreeMirror.dfy` | when the UP replicas hold what one server would hold |
| `ThreeServers.dfy` | two runs of three servers in which they do not, or in which an UP server is given up |
| `Cluster.dfy` | the client's loops over an array of slots, proved to make the steps of the state machine |
| `SlotRecord.dfy` | the descriptor table of a slot and the watcher thread |
| `FileServer.dfy` | a server: its requests, digests, emptying, recursive copy |
| `OpenRepair.dfy` | the repair loop of `client_open` |
| `Wire.dfy`, `Listing.dfy` | file images, framed payloads, packed directory listings |
| `CacheModel.dfy`, `Cache.dfy` | the cache as a sequence, and as a linked list, with the accounting as written |
| `CacheBudget.dfy` | the accounting as meant, over every run, and the accounting as written against it |
| `CacheCoherence.dfy`, `CachedClient.dfy` | the cache against the files it shadows; the client's read, write and rename through it |

The network is an input: for every request it says whether it was answered or lost, and a lost
request leaves any disk at all on its server, so it may have had its effect, no effect or half of
it. Pings, the clock, the digest function, uninitialised memory and the caller's `filler` are inputs
too. Between two client calls any watcher may make a step.

## What the code does and what it says

- A failed server moves at most one place, because the loop guard tests `servers[i + 1]`
  (client/client.c:48). The live servers stay a prefix exactly when the failed one was the last or
  the last but one of them (`RotationKeepsPrefixExactlyNearItsEnd`). The client shuts down exactly
  when slot 0 fails and slot 1 is down (`ShutsDownIffFirstIsCutOff`); of two servers then none is
  live, of more only if all slots from 2 on are down (`ShutdownLeavesNoneLiveIff`), and three servers
  that start UP can come to a shutdown with one of them UP (`ThreeServersCanShutDownWithOneUp`).
- After a lost rebuild `*j--` moves the pointer and not the index (client/client.c:74). An UP server
  that stands directly behind a slot that waits for its rebuild can be skipped; this is the only way
  to miss a server (`FanOutIsExactlyOnceIffOrdered`). With two servers it does not happen while one
  of them is UP; with three it does, in a run in which every rebuild copies an UP slot without loss
  (`ThreeServersCanDiverge`).
- The repository's README (line 195) promises a full duplication. A rebuild creates a directory only
  on the way to a regular file, so it is complete exactly when every directory has a file below it
  (`RebuiltExactlyWhenFileBacked`), and an empty directory makes two UP replicas differ
  (`EmptyDirectoryBreaksTheMirror`). A call that rebuilds the second of two servers leaves a mirror
  exactly when every directory of the resulting tree has a file below it, but for the one that a
  `mkdir` makes (`RebuildKeepsMirrorIff`).
- The repository's README (line 193) says that a file damaged on both servers is declared damaged.
  In the code the content of slot 1 is taken for both and its digest is stored anew (`Winner`,
  `ClientOpen`). With more servers an intact copy can be overwritten by a damaged one; where no
  stored time is still to come, the exact condition is `Salvageable`, a statement about the replicas
  before the call.
- The repair loop of `client_open` ends for all replicas with stored times up to some limit exactly
  when the clock reaches that limit (`EndsIffClockPasses`).
- The cache never counts what it inserts, so its budget is not kept (`BudgetCanBeExceeded`); what its
  counter does hold is `EveryRunCountsEvictions`. Whether a write is refused depends on the low 32
  bits of a difference (`RefusedIffOutgrows`): with a budget of 2 GB rewriting the head of a cached
  file empties the cache (`RewriteCanBeRefused`), and so does, with one of 1 MB, appending a
  byte once 2 GB have been evicted (`AppendCanBeRefused`). The writes that it treats as meant are given by `WrittenIsMeantIff`,
  and the accounting as meant keeps the budget over every run (`EveryRunIsWithinBudget`).
- `truncate` leaves the stored digest as it was (`HandledKeepsIntactIff`) and `truncate` and `unlink`
  leave the cache as it was (`TruncateIsCoherentIff`, `UnlinkIsCoherentIff`). A rename leaves an entry
  that is there for the new path (`RenameIsCoherentIff`).

## Model

| member | source | states |
|---|---|---|
| ReplicationSafety.EveryRunIsSafe | client/client.c:44-124 | over every run of calls and ticks against any network, for any number of servers: a running client has a live slot 0, watchers sit on distinct slots that are DOWN, names are distinct and their multiset with the hotswap is unchanged, every descriptor was issued by the server now named in its slot |
| ReplicationSafety.NextIsSafe | client/client_config.c:149-190 | one call or one tick keeps all of that |
| ReplicationSafety.ReconnectLeavesWatchedSlots | client/client.c:44-58 | no swap in `reconnect` moves or changes a slot with a running watcher |
| ReplicationSafety.ReconnectPermutesNames | client/client.c:47-52 | the swaps permute whole slots: the multiset of names is unchanged |
| Replication.ReconnectIsWatched | client/client.c:53-57 | after a reconnect the failed server is down in some slot, and there is one more watcher, on that slot, at its first try, unless the client shuts down |
| Watching.EveryDownSlotIsWatchedOrGivenUp | client/client_config.c:149-190 | over every run: while the client runs, each slot that is DOWN has exactly one watcher, or the last pings logged for it, a whole round to the former server and a whole round to the present one, have all failed |
| Watching.RunIsAttended | client/client_config.c:149-190 | the invariant behind it: each watcher has behind it as many failed pings as its tries say, and an exchange if it says so |
| Descriptors.OpenRecordsEachServersAnswer | client/client.c:274-279 | after an open from an ordered state each UP slot of a running client holds under the handle the descriptor that its own server answered in this call |
| Descriptors.OpenKeepsOtherHandles | client/client_config.c:126-138 | and each slot holds under all other handles what the slot of the same server held |
| ReplicationSafety.InitialIsSafe | client/client_config.c:62-75 | the state with all servers UP is safe |
| Replication.DemotionCostsOneLiveSlot | client/client.c:44-58 | a reconnect makes exactly the slot it ends in not live, so the number of live slots falls by one |
| Replication.VisitedCosts | client/client.c:109-122 | every iteration, `i--` included, lowers live slots plus remaining indices: the fan-out ends |
| Replication.SourceIsCyclic | client/client.c:64 | the slot a rebuild copies from is `(n + i - 1) % n` |
| FanOut.RotationKeepsTheOthersInOrder | client/client.c:47-52 | the failed server is in its new slot, DOWN, and without it the slots are the same sequence as before |
| FanOut.RotationKeepsPrefixExactlyNearItsEnd | client/client.c:48 | from a prefix of live servers, the live ones stay a prefix if and only if the failed one was among the last two of them; and then shutdown exactly when it was the only one |
| FanOut.ShutsDownIffFirstIsCutOff | client/client.c:48-56 | from any running state, shutdown exactly when slot 0 fails and slot 1 is down or not there |
| FanOut.ShutdownLeavesNoneLiveIff | client/client.c:53-56 | a shutdown leaves no live server exactly when all slots from 2 on are down, with two servers always |
| ThreeServers.ThreeServersCanShutDownWithOneUp | client/client.c:44-58 | a run from three UP servers, two lost requests long, that ends in a shutdown with an UP server that has executed the first of them |
| FanOut.FanOutIsAtMostOnce | client/client.c:106-124 | no server is sent a request twice, whether or not it was answered, for any state and network; only servers that were sent it answer |
| FanOut.OrderedFanOutIsExactlyOnce | client/client.c:106-124 | without a waiting slot directly before an UP slot every server UP at the end was sent the request once and answered it, and nobody was sent it twice |
| FanOut.ExposedServerIsMissed | client/client.c:70-75 | with such a slot there is a network against which the UP server behind it is never asked and keeps its old disk |
| FanOut.FanOutIsExactlyOnceIffOrdered | client/client.c:62-124 | that holds against every network if and only if no waiting slot stands directly before an UP slot |
| Mirror.CallKeepsMirror | client/client.c:106-257 | one call, any number of servers: from an ordered state, with rebuilds that copy UP slots without loss, all UP replicas step from the old disk to the new one, replicas that join in the middle included |
| Mirror.CallKeepsMirrorIffOrdered | client/client.c:62-124 | the order of the slots before the call is not only enough but needed, against some network |
| Mirror.ReplicasMirrorOneServer | client/client.c:44-257 | any number of servers, every run whose calls start ordered: all UP replicas hold what a single server would |
| Mirror.TwoServersMirrorOne | client/client.c:44-257 | two servers, every run in which some replica is UP all the time and no rebuild loses anything: the UP replicas hold what a single server would, and slot 0 is one of them |
| Mirror.TwoServersMirrorOneIfRebuildsCopyAll | client/client.c:62-80 | with rebuilds that duplicate everything the only hypothesis left is that some replica is UP |
| ThreeServers.ThreeServersCanDiverge | client/client.c:44-80 | for any two mutations of which the second changes the disk, a run of three servers, with lossless rebuilds from UP slots, that ends with an UP server left behind |
| TreeMirror.TwoFileServersMirrorOne | client/client.c:106-257 | the mirror theorem for directory trees and the path operations the client fans out |
| TreeMirror.PathOperationsAreLawful | server/server_methods.c:104-188 | every path operation keeps trees well formed and, done twice, does no more than once |
| TreeMirror.RebuildIsFullIffFileBacked | server/server_methods.c:330-337 | a rebuild loses nothing exactly when every directory leads to a regular file |
| TreeMirror.RebuildKeepsMirrorIff | server/server_methods.c:330-337 | a call that rebuilds the second of two servers leaves a mirror if and only if every directory of the tree after the operation leads to a file, but for the root and the one that the operation itself makes |
| TreeMirror.CopySufficesIff | server/server_methods.c:330-337 | the operation, executed again on the rebuilt tree, gives back the tree under exactly that condition |
| TreeMirror.EmptyDirectoryBreaksTheMirror | server/server_methods.c:332-336 | with an empty directory a rebuild leaves two UP replicas different, and the next `mknod` in it makes their files differ |
| Trees.RebuiltExactlyWhenFileBacked | server/server_methods.c:302-342 | the rebuilt tree is well formed, has the same files and no new directory, and is the source if and only if every directory has a file below it |
| Trees.ApplyIsIdempotent | server/server_methods.c:104-188 | executing an operation again on its result changes nothing |
| Trees.ApplyKeepsWellFormed | server/server_methods.c:104-188 | operations keep every parent a directory and no path both file and directory |
| Trees.MovedAt | server/server_methods.c:142-151 | what a rename leaves at every path |
| Trees.RenameMovesAt | server/server_methods.c:142-151 | when a rename does something, and what it leaves at every place below the new path, below the old one and elsewhere |
| Trees.WriteLandsAt | server/server_methods.c:175-182 | a write as an operation on trees: where its bytes land and that nothing else changes |
| Trees.TruncateCutsAt | server/server_methods.c:104-109 | a truncate as an operation on trees, by length and position |
| Trees.MakingMakesOne | server/server_methods.c:119-140 | mknod and mkdir make one thing, only where nothing is, in a directory |
| Trees.RemovingRemovesOne | server/server_methods.c:153-173 | unlink removes one file, rmdir one directory with nothing below it |
| Trees.OverwrittenAt | server/server_methods.c:175-182 | what a write leaves at every position, gaps as zeros |
| Cluster.Storage.Reconnect | client/client.c:44-58 | the loop of swaps over the array makes the reconnect step: the failed server and a live successor change places and nothing else moves; there is one more watcher, on the slot where the failed server now is, or the client shuts down |
| Cluster.Storage.RestoreAll | client/client.c:62-80 | the state after a rebuild that copied, was refused or was lost; one that copied leaves the slot UP and on its server what copying the cyclic predecessor gives, and nothing else changed |
| Cluster.Storage.Send | client/client.c:274-279 | an answered open sets exactly this handle of this slot to the descriptor answered, a lost one to the error; a mutation has its effect on this server's disk; all other slots and disks stay |
| Cluster.Storage.Visit | client/client.c:110-121 | one iteration: a slot whose rebuild did not succeed is not asked, a lost request leaves the index where it is |
| Cluster.Storage.FanOut | client/client.c:106-124 | the loop over the slots, whose index also moves back, ends in the state of the specified call |
| Cluster.Storage.Query | client/client.c:82-102 | the loop over slot 0 alone, which does not look whether it is down, ends in the state of the specified call, with slot 0 live if the client still runs; an answer of an UP slot 0 leaves all slots as they were |
| Cluster.Storage.WatcherTick | client/client_config.c:156-188 | one ping and what follows it: STARTING and the end of the watcher, one more try, the exchange with the hotswap and an empty table, or the end with the slot down; other slots stay |
| SlotRecord.Server.InsertFdWrapper | client/client_config.c:126-138 | the entry with the key is overwritten in place or a new one put at the end; the table is the old one with this key set; keys stay unique and in their order |
| SlotRecord.Server.GetServerFd | client/client_config.c:140-147 | the value of the key, or -1 |
| SlotRecord.LookupFindsLastInserted | client/client_config.c:126-147 | after any sequence of inserts into a table keys are unique and the entry of a key, which the lookup finds, has the value inserted last |
| SlotRecord.Server.ReconnectThread | client/client_config.c:149-190 | the thread ends; how many pings it makes, whether the names are exchanged and the table emptied, and its last state, in terms of the first ping that succeeds |
| SlotRecord.Server.Watch | client/client_config.c:192-201 | the thread a reconnect starts, to its end: at most twice the timeout pings, all but the last failing, first to the server and then to the spare one; STARTING exactly when the last one succeeded; names exchanged and table emptied exactly when the first round failed |
| SlotRecord.WatchEnds | client/client_config.c:149-190 | the same of the outcome that the thread is specified by |
| SlotRecord.TicksAreTheThread | client/client_config.c:149-190 | tick by tick a watcher of the state machine ends where the thread ends |
| FileServer.HandledIsApplied | server/server_methods.c:104-188 | seen without digests and times each request has the effect of its path operation |
| FileServer.HandledKeepsIntactIff | server/server_methods.c:104-109 | stored digests stay right except, exactly, after a truncate that changes the size |
| FileServer.RunsKeepIntact | server/server_methods.c:119-342 | over every run of the other requests, restores and whole rebuilds no file becomes corrupt: no open reports ERRHASH |
| FileServer.RunsAreApplied | server/server_methods.c:104-188 | over every run of requests, truncate included, contents are those of the path operations |
| FileServer.Server.Write | server/server_methods.c:175-188 | the length, every byte and the time of the written file, with the digest of its new content; all other files and the directories stay |
| FileServer.Server.Truncate | server/server_methods.c:104-109 | the length, every byte and the time of the cut or padded file, with its old digest; all else stays |
| FileServer.Server.Rename | server/server_methods.c:142-151 | when it does something, and then: everything at or below the old path is at the same place of the new path, nothing is left, all else stays |
| FileServer.Server.Rmdir | server/server_methods.c:164-173 | the directory goes exactly if there is nothing below it |
| FileServer.Server.Mknod | server/server_methods.c:119-131 | the new disk; the digest is stored even if the file was there |
| FileServer.Server.SaveHash | server/server_hasher.c:34-41 | the digest of the file's present content is stored |
| FileServer.Server.Open | server/server_methods.c:32-49 | ERRHASH exactly when the stored digest is not that of the content; the digest and the time of the file |
| FileServer.Server.ReadAll | server/server_methods.c:240-268 | the image of the file; of a missing one the image of an empty one |
| FileServer.Server.MkdirRecursive | server/server_methods.c:197-213 | ends; succeeds exactly if the parent is missing and no ancestor is a file, and then exactly the proper ancestors exist too; otherwise changes nothing |
| FileServer.Server.Restore | server/server_methods.c:215-238 | when it succeeds; the file has the content of the source and a right digest, its ancestors exist, all else is unchanged |
| FileServer.Server.RestoreThenOpen | server/server_methods.c:215-238 | an open after a restore reports no ERRHASH and the digest of the source's content |
| FileServer.Server.EmptyDirectory | server/server_methods.c:270-300 | the recursion ends, succeeds and removes exactly what is below the path |
| FileServer.Server.CopyListing | server/server_methods.c:321-339 | the loop over a listing brings exactly the files below the path and the directories on the way |
| FileServer.Server.RestoreAll | server/server_methods.c:302-342 | the whole rebuild ends and leaves the files of the source, the root and the ancestors of those files, and every stored digest right; the disk, with digests and times, is the one the runs above assume |
| OpenRepair.ClientOpen | client/client.c:260-310 | two or more live servers that hold the file, a clock that at some visit has passed all stored times (not needed for two), any restores failing: the loop ends, and every replica has its file or, with a right digest, a content that was there. If all restores fail, one visit to each slot and no change. If none fails, all replicas are intact and agree, on that of an intact replica if the first one was intact or the last one's content was that of an intact one, and only if, when the times have passed at the start; of two replicas the intact one wins, then the later one, then the first; agreement is of contents where digests have no collisions |
| OpenRepair.OpenOne | client/client.c:274-304 | one iteration over the array of servers and of replies, case by case: who is restored from whom, with which time, and where the index goes; a restore that fails changes nothing and the index goes on past the slot |
| OpenRepair.PassedCosts | client/client.c:286-299 | whatever restores fail, each iteration lowers a number made of the slots whose content would go back, moves the index on, or leaves a slot that asks no more |
| OpenRepair.VisitGoesOn | client/client.c:290-299 | the measure of the loop: frontier, then phase, then distance within it |
| OpenRepair.VisitIsLocated | client/client.c:282-300 | what is known about the replicas at every index the loop can be at |
| OpenRepair.VisitKeeps | client/client.c:287-297 | from a salvageable start only contents of intact replicas are passed on, whatever the times |
| OpenRepair.VisitProgresses | client/client.c:266-304 | until the clock has passed all times the visits left fall, then the measure of the loop does |
| OpenRepair.VisitSpreads | client/client.c:287-297 | otherwise the content of the last replica takes every slot |
| OpenRepair.VisitDecides | client/client.c:286-298 | the winner of two replicas |
| OpenRepair.EndsIffClockPasses | client/client.c:290-299 | the loop ends for all replicas with times up to a limit if and only if the clock reaches the limit; for every clock that does not there are three replicas between which it goes on |
| OpenRepair.IntactCopyCanLose | client/client.c:287 | three replicas of which the middle one is intact, and no intact content survives |
| OpenRepair.TruncateThenOpen | client/client.c:218-236 | after a truncate of agreeing replicas the next open makes all digests right and keeps the truncated content |
| Wire.ImageRoundTrip | server/server_methods.c:215-268 | image, length, frame and restore give back every content that fits an `int` |
| Wire.ImageLengthIsExact | server/server.c:61-65 | the length recomputed from an image is the length of the image |
| Wire.FrameRoundTrip | protocol.c:108-193 | what is sent behind a header is what arrives |
| Listing.ServerReaddir | server/server_methods.c:51-92 | the buffer, grown and filled in place, is a listing of the names, for every sequence of NUL-free names whose size fits an `int` |
| Listing.PayloadLengthIsExact | server/server.c:46-50 | the length recomputed from the buffer is the length of the buffer, of an empty listing too |
| Listing.ListingIsUnambiguous | server/server_methods.c:71-91 | a buffer is the listing of one sequence of names only |
| Listing.ClientReaddir | client/client.c:455-466 | every access is inside the buffer, and the caller is handed the names in order up to the first it refuses |
| Listing.ListDirectory | client/client.c:437-470 | listing, length, frame and decoding together give back the names |
| CacheModel.EveryRunCountsEvictions | client/client_cache.c:55-104 | the counter is always minus the bytes that refused writes have evicted, modulo 2^64 |
| CacheModel.RefusedIffOutgrows | client/client_cache.c:86-95 | for all sizes below 2^63: a write is refused if and only if its entry changes size, what it grows beyond all bytes ever evicted is not between 0 and the budget modulo 2^64, and by how much that exceeds the budget has positive low 32 bits |
| CacheModel.SmallRefusedIffEntryOutgrows | client/client_cache.c:86-95 | while all sizes together are below 2 GB: a write is refused if and only if its entry grows by more than the budget and all bytes ever evicted |
| CacheModel.WriteKeepsBudgetIff | client/client_cache.c:70-104 | for all sizes below 2^63, the exact condition under which what is cached after a write is within the budget |
| CacheModel.BudgetCanBeExceeded | client/client_cache.c:76-104 | two files of the size of the budget are both kept |
| CacheBudget.FreedMakesRoom | client/client_cache.c:55-68 | `get_space` as meant, counting down what it has still to free, takes the shortest prefix of oldest entries that frees enough |
| CacheBudget.EveryRunIsWithinBudget | client/client_cache.c:55-134 | with the accounting as meant, over every run of writes, reads and renames from the empty cache, the counter is the sum of the entries and never exceeds the budget |
| CacheBudget.WriteAsMeant | client/client_cache.c:70-104 | as meant, a write is refused exactly when it alone exceeds the budget, and otherwise evicts the fewest of the oldest others that make room |
| CacheBudget.WrittenIsMeantIff | client/client_cache.c:70-104 | for all sizes below 2^63: the code does what is meant if and only if it refuses a write that grows its entry and alone exceeds the budget, or accepts one that does not overflow the cache |
| CacheBudget.RewriteCanBeRefused | client/client_cache.c:86-95 | with a budget of 2 GB rewriting the head of a cached file, which needs no room, is refused and empties the cache |
| CacheBudget.AppendCanBeRefused | client/client_cache.c:86-95 | with a budget of 1 MB, once 2 GB have been evicted, appending one byte is refused and empties the cache |
| CacheModel.UsedBecomesNewest | client/client_cache.c:42-134 | a read that finds its entry, even one too short, and an accepted write make it the newest and keep the order of the others |
| CacheModel.RenameKeepsPathsUniqueIff | client/client_cache.c:127-134 | a rename keeps paths unique if and only if the new path is not that of another entry |
| Cache.Cache.Find | client/client_cache.c:26-32 | the first node with the path, in the order of the list, or none |
| Cache.Cache.InsertNew | client/client_cache.c:34-40 | the entry is the last of the list, which stays doubly linked |
| Cache.Cache.RemoveEntry | client/client_cache.c:42-53 | the entry is out of the list and its data handed over, the others keep their order |
| Cache.Cache.GetSpace | client/client_cache.c:55-68 | evicts nothing or everything |
| Cache.Cache.CacheWrite | client/client_cache.c:70-104 | the relinked list is the specified sequence, and the result says whether the write was refused: then nothing is cached, else the newest entry has the path, the end of the write as its length, the bytes written and the old ones before them, and the others are as they were |
| Cache.Cache.CacheRead | client/client_cache.c:106-125 | it hits exactly if there is an entry for the path that reaches to the end of the read, and gives its bytes; an entry for the path becomes the newest, hit or not |
| CacheModel.WrittenIsHit | client/client_cache.c:70-125 | after an accepted write a read of the same bytes hits and gives what was written |
| Cache.Cache.CacheRename | client/client_cache.c:127-134 | the entry has the new path, in its place |
| CacheCoherence.EveryRunServesTheFiles | client/client.c:191-373 | over every run of reads and writes that leave no gap in an entry and renames onto paths that are not cached, reads are served exactly the server's bytes, across evictions and refusals |
| CacheCoherence.WriteIsCoherentIff | client/client_cache.c:96-100 | a write keeps the cache coherent, whatever uninitialised memory holds, if and only if it is refused or starts inside or at the end of what is cached |
| CacheCoherence.ServedIsTheFile | client/client.c:323-337 | a hit gives the bytes the server would |
| CacheCoherence.ReadAgainHits | client/client.c:323-329 | a read that hit, or missed and was cached, hits the next time and gives the bytes of the file |
| CachedClient.Mount.Read | client/client.c:323-337 | through the linked list: the cached bytes if there are enough, else those of the server, which are then cached; the bytes of the file while the cache is coherent |
| CachedClient.Mount.Write | client/client.c:341-373 | the server's file and the cache after a write |
| CachedClient.Mount.Rename | client/client.c:191-215 | the server's files and the cache after the rename of a file |
| CacheCoherence.TruncateIsCoherentIff | client/client.c:218-236 | the cache stays coherent after a truncate exactly if the cached part of the file is kept |
| CacheCoherence.UnlinkIsCoherentIff | client/client.c:148-166 | the cache stays coherent after an unlink exactly if the file is not cached |
| CacheCoherence.RenameIsCoherentIff | client/client.c:211-213 | the cache stays coherent after the rename of a file exactly if the new path is not cached, or its stale entry is a prefix of the file |

## Left out

- Mirror.TwoServersMirrorOne: runs in which no replica is UP at some moment are not covered; then a rebuild copies a slot that is down or itself waiting.
- OpenRepair.ClientOpen: servers that are down, waiting or without the file are not in the loop.
- OpenRepair.OpenOne: a restore that fails half way, with the target already truncated.
- FileServer.Server.RestoreAll: the source answers every request and its disk holds only regular files and directories of which each file fits an image; a child that fails is overwritten in `retval` by the status of the next one, so a partial rebuild can report success.
- FileServer.Server.Open: a missing file is not opened; its digest buffers are uninitialised in the code.
- FileServer.Server.Write: the descriptor names the file at the path; a handle opened before a restore or an exchange of servers may name a file that is gone.
- Listing.ServerReaddir: a directory that cannot be opened; names that the directory gains or loses between the two passes.
- The rebuild reads a listing as the sequence of names that `Listing` proves it to be, not as bytes.
- `client_open` compares each reply with the one of the slot before it, and reads a NULL pointer when that slot was down or its rebuild failed and the slot itself is live (client/client.c:268-280); the state machine goes on there as the other loops do.
- `client_open` appears twice: in the state machine it records descriptors and leaves contents alone, which is what the repair loop does to replicas that agree; the repair itself is `OpenRepair`.
- `client_opendir` rebuilds a slot whose directory is missing and tries again, for ever if the directory is empty (client/client.c:422-428).
- Cluster.Storage.FanOut: `client_write` returns EBADF when a slot has no descriptor for the handle, and a server may no longer know the descriptor it once issued; writes here are those through handles opened since every live slot was last rebuilt.
- Early returns of EBADF in `client_read` and `client_readdir`; the empty path, which the cache's sentinels carry.
- Error numbers returned to the caller; a fan-out returns the status of the last server it asked.
- A read that is lost is put into the cache before it is recognised as lost (client/client.c:326-331), and `strcpy` ends a read at the first NUL byte (client/client.c:334).
- `parse_storage` can store a negative ping result as a state (client/client_config.c:65); runs start with all servers UP and equal disks.
- A failed send or receive that leaves an open socket number as the status (protocol.c:142-153) is taken as a lost request.
- Partial sends and receives, sockets, epoll, threads that run during a client call, FUSE, mounting.
- CacheCoherence.RenameIsCoherentIff: the rename of a directory, which leaves the entries of all files below it under their old paths.
- MD5 itself, permissions, modes, device numbers, access times, `utime`, hard and symbolic links.
- Memory management, fixed buffer sizes, logging, configuration parsing.

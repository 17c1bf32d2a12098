# DHMP file system: a verified model

DHMP is a FUSE file system that keeps its data in the memory of several remote
servers. This project models the five parts of it whose correctness is not
visible in any one function, and proves what they promise. `dafny verify
dfyconfig.toml` checks all of it.

## The parts

**Files over a cache over banks.** A byte of a file goes from its offset through a
four-level index to a chunk, from the chunk to a bank, and from the bank through a
direct-mapped write-back cache to the remote copies. `FileIndex` has the
arithmetic, with all sizes as parameters (`SHIPPED` holds the values the program
is built with). `BankCache` shows when the cache is invisible to readers: how each
of its remote calls comes out is a parameter, and the condition on them is exact.
`FileTraffic` has the log of the calls that writing and reading make, and
`RemoteStore` ties their outcomes to the servers of the replication protocol.
`FileSpec`, `FileProofs` and `FileTheorems` have chunk allocation, the index, the
ownership invariant and the write loop, `FileRuns` reading, creating and
resetting, `FileHistory` whole runs, and `FileRoom` the exact condition for a
write to have room. `CacheClient` and `FileClient` are the same as classes whose
loops change arrays, maps and counters in place; each method is proved against
the functions the results are about.

**Directory tree.** `PathSpec` has the splitting of paths; `TreeSpec` the inodes
with a hash map and a sibling list each, and the operations; `TreeProofs` and
`TreeDelete` what they keep, including the recursive delete pruned by `son_nums`;
`TreeTheorems` what they do to the resolution of every path, and `TreeTable` that
all of it holds over the hash tables of the directories. `TreeClient` is the
imperative side, from the character loops of `deal` and `search_d_hash` to the
recursion of `dhmpDeleteALL`.

**The file system as a whole.** `SystemSpec` and `SystemHistory` put tree and
files together over one inode table and one slab: over any run of calls whose
remote calls come out well the system is a map from paths to byte sequences.
`SharedHistory` is the top result, the same with the servers as part of the state:
runs of calls among failures and recoveries, in which each miss finds connected
servers.

**Hash map.** `HashSpec` and `HashClient`: buckets with an inline first entry and a
chain, growing and shrinking tables, and the finite map they stand for.

**Replication.** `Replication` is the protocol of writes, failures and recovery as
a state machine over any number of servers and any values; `ReplicaClient` the
code of the client, where other threads may write or see a read fail between any
two steps of a recovery, its reconnections included. `ReplicationSteps` says in plain
terms which servers each step touches, and what it is for a method to run a
sequence of steps.

**Allocator.** `BuddySizes`, `BuddySpec`, `BuddyProofs` and `BuddyTheorems` treat
one area of the server's buddy system, for any number of orders; `BuddyArea` and
`BuddyServer` the area object with its cached `max_index` and the request handlers
over several areas and whole regions.

**Placement.** `Placement` and `PlacementClient`: which regions a client asks to
move into DRAM, and why no other choice would have served more accesses.

`Basics` holds the few definitions that several parts share.

## Where the code does not do what it should

Each of these is modelled as the code has it, with the exact condition proved.

- After a cache miss a write visits the cache a second time with the type of a
  read (src/dhmp_fs_io.c:447; the hit path at line 443 passes the type of a
  write). The type is the parameter `again` everywhere. As shipped (`Read`) a
  write is right for every content if and only if every bank it will visit is
  resident before the call (`FileTheorems.ShippedWriteExactly`). With the type of
  the hit path (`Write`) it is right whenever its remote calls come out well
  (`FileTheorems.WriteFile`). The run theorems cover both: for the shipped type
  they ask of every write that its banks be resident.
- An eviction gives the cache line to the new bank before it reads it
  (src/dhmp_fs_io.c:110-114). A read that nobody answers leaves the buffer as it was
  (lines 617-620 and 636-638), so the old bank's bytes pass for the new bank's;
  one that a stale server answers is kept as clean data. The line counts as clean
  whether or not any server stored the write-back (lines 107 and 117, and 74-75 in
  the rewriter). `BankCache.ExpelKeepsIff`, `BankCache.FlushKeepsIff` and
  `BankCache.ReadRightIff` have the exact conditions in terms of the two calls,
  `RemoteStore.MissKeepsIff` and `RemoteStore.RewriteKeepsIff` in terms of the
  servers. It happens with every server answering: all through a recovery from one
  survivor nobody is CONNECTED (`RemoteStore.SurvivorDisconnects`,
  `RemoteStore.StaysDisconnected`), and `RemoteStore.MissDuringRecovery` is a
  concrete loss.
- Recovery copies all banks only if `use_bank_len` is `BANK_NUM`, and otherwise
  those named in a journal. The code that raises one and fills the other is
  commented out (src/dhmp_fs_io.c:459-475), so as shipped nothing is copied
  (`Replication.ShippedRecoveryCopiesNothing`). `Replication.ReplayEndExact` and
  `Replication.SingleEndExact` say exactly when the end of a recovery is right;
  the safety theorem is about recoveries that copy every bank.
- Between the last test of the replay loop (src/dhmp_fs_recovery.c:155) and the
  reconnection of the donor (line 202) a write is queued at the donor and never
  replayed, and up to line 203 it passes the returning server over: both end
  CONNECTED without it (`Replication.ClosingWriteLost`). Nothing holds writers
  off. `Replication.DonorBackIff` and `Replication.FinishIff` are exact about it,
  step by step.
- The nodes of a donor's queue are freed without being unlinked
  (src/dhmp_fs_recovery.c:194-198), and the list's head is set up only once
  (src/dhmp_fs.c:148). The next write handed to that donor links its node behind a
  freed one (src/dhmp_fs_io.c:550), and the next replay loop with that donor reads
  a freed node in its first round. `Replication.MeetsFreedIff` and
  `Replication.LinksFreedIff` say exactly when, over all runs,
  `Replication.FreedNodeMet` is a concrete run, and
  `ReplicaClient.Client.FuseRecover` does not succeed there. The safety theorem asks
  for donors without freed nodes.
- With one server alive a recovery ends without a replay. Writers do not take the
  lock meant to hold them off (src/dhmp_fs_io.c:522), so a write during that copy
  is lost (`Replication.SingleCopyLosesWrite`).
- A recovery that finds no connected server returns without clearing
  `recovery_in_use` (src/dhmp_fs_recovery.c:64-67): no later one ever starts
  (`Replication.StuckForever`).
- A read does not avoid servers marked DISCONNECT when it picks its first one
  (`ReplicaClient.StaleReader`; `ReplicaClient.ReadLatestIff` has the exact
  condition).
- A read whose offset is past the end of a file but in its last chunk passes the
  unsigned comparison at src/dhmp_fs_io.c:342-344 (`FileRuns.ReadOverruns`). What it
  reads is nothing the model knows.
- The two blocks of order 0 of a fresh area are buddies and stay unmerged
  (dhmp_client/src/dhmp_server.c:35). This is the one exception in
  `BuddyTheorems.GrantedIffRoom` and `BuddyTheorems.FreeUndoesGrant`.
- Rename puts the inode back into its own directory whatever directory the new
  path names, and over a used name it leaves the old inode in the sibling list
  only (src/dhmp_fs_dir_ops.c:509-514; `TreeTheorems.RenameArrivesIff`,
  `TreeProofs.RenameKeepsIff`, and on path strings `TreeClient.RenameCallExact`).
- The two loops of `dhmp_handle_cache_model` leave one entry unexamined when the
  indices meet on it (`Placement.AllRequestedIff`, `Placement.SingleEntryMissed`).

## What is taken for granted

- A call is one step: sub-call interleavings of threads on cache and files are
  not modelled, and a bank write to all servers is atomic with respect to the
  steps of a recovery. Those steps are one bank copied, one queued write replayed,
  the test that ends a loop, the freeing of the queue, and each of the two
  reconnections.
- In the runs of files and of the whole system the remote calls of writes, reads
  and flushes come out well; the outcomes are part of the call, and `Legal` says
  which are meant. In the runs of `SharedHistory` each of them finds connected
  servers. What happens otherwise is said call by call, above.
- Files are written without holes: an offset is at most the current length.
- Callers of write give an open file, room on the disk and an end inside the
  largest file; `FileRoom.PlannedIff` turns the last two into a count of free
  chunks. Without room the program dereferences a null pointer, and the model
  has no result.
- Regions sent back to the server are regions that are out.
- The sort before the exchange loop is the C library's; its result is a parameter.
- Addresses of fresh inodes, contents of fresh remote memory, the server a read
  picks, which servers answer, how the cache's remote calls come out, and whether
  memory is available are parameters. The outcome of a write-back that a clean
  line does not need counts as stored.

The invariants are not empty: `SystemHistory.InitialOk`, `BuddyTheorems.InitialInv`
and the constructors establish them, and `FileIndex.ShippedOk` shows that the
shipped sizes meet the divisibility conditions asked of the parameters.

## Model

| member | source | states |
|---|---|---|
| SharedHistory.RunRefinesTogether | src/dhmp_fs_io.c:193-639 | in any run of calls over their servers, among failed reads and careful recoveries of other threads, even between a write-back and the read after it, in which each remote call that a call makes finds connected servers: every path has the bytes of the map, the servers hold what the cache takes for stored, and every read returns the bytes of its time |
| SharedHistory.CallTogether | src/dhmp_fs_io.c:514-639 | such a call is legal, all its remote calls come out well, and it leaves servers that hold what the cache then takes for stored |
| SharedHistory.InitialTogether | src/dhmp_fs.c:131-252 | fresh servers and the state set up at start are such a pair, with no file at any path |
| SystemHistory.RunRefines | src/dhmp_fs_io.c:193-390 | after any run of mknod, mkdir, delete, same-directory rename, write, read and cache flush, in which the cache's remote calls come out well (a line written back is stored by some server, a bank loaded is as last stored), every path has exactly the bytes that a plain map from paths to bytes gives it, and every read returned the bytes of its time |
| SystemHistory.StepOk | src/dhmp_fs_dir_ops.c:55-254 | every such call keeps the whole system: the tree, chunk ownership and sizes, the cache, one inode table and one slab shared by tree and files, and the bytes of every file |
| SystemHistory.StepAbs | src/dhmp_fs_dir_ops.c:55-254 | every such call changes the contents seen at paths as specified, at every path |
| SystemHistory.MadeContent | src/dhmp_fs_dir_ops.c:87-124 | creating puts an empty file (or nothing, for a directory) at the new path and changes the content at no other |
| SystemHistory.RemovedContent | src/dhmp_fs_dir_ops.c:171-254 | deleting leaves nothing at the path or below it and changes no other path |
| SystemHistory.MovedContent | src/dhmp_fs_dir_ops.c:490-517 | renaming moves everything at and below the old path to the new one and changes no other path |
| SystemHistory.WriteContent | src/dhmp_fs_io.c:193-295 | new bytes of one inode are seen at its one path and at no other |
| SystemHistory.ReadReturns | src/dhmp_fs_io.c:297-390 | a read of a path at an offset up to its length, its remote calls coming out well, returns exactly the bytes there, up to the count and the end of the file |
| SystemHistory.WriteLinked | src/dhmp_fs_index.c:241-402 | a write allocates chunks but neither adds nor removes inodes and leaves the slab alone |
| SystemHistory.InitialOk | src/dhmp_fs.c:176-245 | the state set up at start satisfies the whole invariant, with no file at any path |
| SystemSpec.ResetFilesKeeps | src/dhmp_fs_index.c:95-144 | resetting a list of distinct inodes in use appends them to the slab in that order and clears the bitmap of exactly the chunks in their context lists; ownership and sizes stay right |
| SystemSpec.ResetFilesEmpties | src/dhmp_fs_index.c:95-144 | each of them ends with size 0, no index slot and no context; every other inode is unchanged |
| SystemSpec.ResetFilesOther | src/dhmp_fs_index.c:95-144 | every file not in the list keeps all its bytes |
| FileHistory.RunRefines | src/dhmp_fs_io.c:193-390 | the file layer alone refines a map from open inodes to byte sequences over any run of creates, writes, reads, removals and flushes whose remote calls come out well; a write as shipped needs its banks resident and then makes none |
| FileHistory.StepHolds | src/dhmp_fs_io.c:193-390 | one such step does to the files what the specification says and a read returns the right bytes |
| FileHistory.RemovedOther | src/dhmp_fs_index.c:95-144 | removing one file leaves every other byte for byte as it was |
| FileHistory.InitialHolds | src/dhmp_fs.c:176-252 | the initial bitmap, contexts, slab and cache satisfy the invariant, with nothing stored remotely yet |
| FileHistory.InitialExact | src/dhmp_fs.c:176-245 | at the start every inode is empty and in the slab, in order, every chunk is free with the cursor on the first, and line k holds bank k as clean zeros |
| FileTheorems.WriteFile | src/dhmp_fs_io.c:193-295 | a write at an offset up to the length overlays its bytes on the file if every bank it touches is resident, or if the visit after a miss is a write and the remote calls come out well |
| FileTheorems.WriteOther | src/dhmp_fs_io.c:193-295 | it changes no byte and no length of any other file, if every bank it touches is resident or its remote calls come out well |
| FileTheorems.WriteKeepsByte | src/dhmp_fs_io.c:193-295 | nor any byte of its own file outside its range, even as shipped where it loses its own bytes |
| FileTheorems.ShippedWriteExactly | src/dhmp_fs_io.c:435-451 | the write as shipped, whose visit after a miss is a read, is right for every content of that length if and only if all banks of its plan are resident before the call, however its remote calls come out |
| FileTheorems.LostContent | src/dhmp_fs_io.c:435-451 | otherwise two contents of that length that differ leave the very same state, so that one of them is lost |
| FileTheorems.RunsIffPlanned | src/dhmp_fs_io.c:215-282 | the write loop gets through exactly when its plan, which looks at neither the bytes nor the cache, does |
| FileRoom.PlannedIff | src/dhmp_fs_index.c:179-198 | a write gets through if and only if it ends inside the largest file and the bitmap has as many free chunks as it needs new ones |
| FileRuns.ReadFile | src/dhmp_fs_io.c:297-390 | a read at an offset up to the length, its remote calls coming out well, returns exactly the bytes from there, up to the count and the end |
| FileRuns.ReadKeeps | src/dhmp_fs_io.c:297-390 | such a read changes no file, nor does one that runs past the written end of a chunk, whose bank it still visits |
| FileRuns.ReadOverruns | src/dhmp_fs_io.c:342-346 | a read of a file without holes runs past the written end of a chunk if and only if it starts past the end and its offset still falls into the last chunk, however its remote calls come out; it has then done nothing but bring that chunk's bank into the cache. From later offsets it returns nothing |
| FileRuns.CreateKeeps | src/dhmp_fs_index.c:149-166 | taking an inode from the slab, or a new one, gives an empty inode not in use and disturbs no other |
| FileRuns.ResetKeeps | src/dhmp_fs_index.c:95-144 | a reset inode has no slot left, its chunks and only those are unmarked, and ownership and sizes stay right |
| FileRuns.ReleaseAllChunks | src/dhmp_fs_index.c:123-133 | the reset loop frees exactly the chunks of the context list and touches no other context |
| FileRuns.ReleaseAllSlots | src/dhmp_fs_index.c:123-133 | it empties exactly the slots its back pointers name and changes no other inode |
| FileSpec.AllocatesIffFree | src/dhmp_fs_index.c:179-198 | the scan from the moving cursor fails exactly when no chunk is free |
| FileSpec.AllocatesFirstFree | src/dhmp_fs_index.c:179-262 | otherwise it takes the first free chunk from the cursor on, going around once, marks it, leaves the cursor there, and makes it the slot's chunk and the inode's first context |
| FileSpec.AllocateKeeps | src/dhmp_fs_index.c:256-262 | linking a free chunk into an empty slot keeps: marked chunk, one slot, one context list, back pointer to that slot |
| FileSpec.GrowKeeps | src/dhmp_fs_io.c:254-276 | raising a context size and the inode size together keeps the inode size equal to the sum over its contexts |
| FileTraffic.WriteRan | src/dhmp_fs_io.c:215-282 | the remote calls of a write loop are those its log has, in order, one outcome each, and if they come out well what counts as stored afterwards is what the log wrote |
| FileTraffic.ReadRan | src/dhmp_fs_io.c:334-366 | the same for a read loop |
| FileProofs.RoundFile | src/dhmp_fs_io.c:215-282 | one round of the write loop overlays its segment on a file without holes |
| FileProofs.RoundOther | src/dhmp_fs_io.c:215-282 | and leaves every other file alone |
| FileIndex.LocateIsChunk | src/dhmp_fs_index.c:241-400 | the four branches with their chained divisions put an offset into the slot of chunk number offset / chunk size, at offset mod chunk size, and reject exactly the offsets beyond the largest file |
| FileIndex.SlotOfIsOneToOne | src/dhmp_fs_index.c:241-400 | every chunk number has an in-range slot of its own |
| FileIndex.SlotOfIsOnto | src/dhmp_fs_index.c:241-400 | every slot of the four levels belongs to a chunk number |
| FileIndex.ChunkInBank | src/dhmp_fs_io.c:232-233 | a chunk lies inside one bank |
| FileIndex.ChunksDisjoint | src/dhmp_fs_io.c:232-233 | different chunks occupy disjoint byte ranges |
| BankCache.ReadExact | src/dhmp_fs_io.c:398-411 | a read through the cache returns what every byte was last given and changes no byte, on a hit always and on a miss if a dirty line in the way gets stored and the bank is loaded as last stored |
| BankCache.WriteExact | src/dhmp_fs_io.c:435-448 | a write stores its bytes if the bank is resident or the visit after a miss is a write; it changes no byte outside its range under the same condition on the remote calls |
| BankCache.ExpelKeeps | src/dhmp_fs_io.c:88-121 | under that condition an eviction, with write-back of a dirty line and reload, loses no byte of any bank |
| BankCache.FlushKeeps | src/dhmp_fs_io.c:66-81 | the rewrite of a line loses none if the line is clean or somebody stores it |
| BankCache.ExpelKeepsIff | src/dhmp_fs_io.c:107-117 | the condition is exact: an eviction keeps every byte of every content if and only if a dirty line in the way gets stored and a bank ever stored is loaded as last stored |
| BankCache.FlushKeepsIff | src/dhmp_fs_io.c:71-75 | so is the other: a rewrite keeps every byte of every content if and only if the line is clean or somebody stores it |
| BankCache.FlushBelowExact | src/dhmp_fs_io.c:66-82 | such a pass changes nothing in the lines but the dirty flags, and its calls are those of the lines that were dirty |
| BankCache.ReadRightIff | src/dhmp_fs_io.c:398-411 | a read of a stored bank is right for every content if and only if the bank is resident or is loaded as last stored |
| BankCache.ShippedWriteExact | src/dhmp_fs_io.c:443-447 | the write as shipped takes effect if and only if the bank is resident, or those bytes are both stored and what the load leaves already; after a miss the caller's buffer gets what the load left |
| BankCache.ShippedWriteIffResident | src/dhmp_fs_io.c:443-447 | it is right for every content if and only if the bank is resident |
| CacheClient.Cache.constructor | src/dhmp_fs.c:180-195 | line k holds bank k as clean zeros, and no remote call was made |
| CacheClient.Cache.TryVisitCache | src/dhmp_fs_io.c:23-53 | a miss changes nothing; a hit copies out of the line, or puts the bytes into it at the offset and marks it dirty, and leaves every other line alone |
| CacheClient.Cache.ExpelCacheRewrite | src/dhmp_fs_io.c:88-121 | the line ends under the wanted bank's tag, clean, with what the read left in its buffer, after the old one was handed to the write-back if dirty, however the two calls came out |
| CacheClient.Cache.ReadFromCache | src/dhmp_fs_io.c:398-411 | visit, evict on a miss, visit again, as the store function that the results are about |
| CacheClient.Cache.WriteToCache | src/dhmp_fs_io.c:435-448 | the same for writes, with the type of the second visit as the parameter again |
| CacheClient.Cache.RewriteDirtyCache | src/dhmp_fs_io.c:66-82 | one pass makes one write for each dirty line, in order, and leaves no line dirty, however its writes come out, and every byte of every bank as it was if they came out well |
| RemoteStore.WellIff | src/dhmp_fs_io.c:514-639 | the remote calls of an eviction or a rewrite come out well if and only if a connected server stores what is written back and what is read comes from a connected one |
| RemoteStore.EvictionServed | src/dhmp_fs_io.c:88-121 | over the servers an eviction leaves in the line what the read got, or the old bank's bytes if it got nothing, and what the cache takes for stored is what the servers hold if somebody stored the write-back |
| RemoteStore.MissKeepsIff | src/dhmp_fs_io.c:88-121 | an eviction keeps every byte of every content if and only if a connected server stores the line written back, if it is dirty, and the read of a bank ever stored ends at a connected server |
| RemoteStore.RewriteKeepsIff | src/dhmp_fs_io.c:71-75 | a rewrite of a dirty line keeps every byte of every content if and only if a connected server answers; then what counts as stored is what the servers hold, and each connected one holds the line's bytes |
| RemoteStore.WriteBackHeld | src/dhmp_fs_io.c:514-606 | after a write-back exactly the connected servers that answered are connected, and each of them holds its bytes |
| RemoteStore.ExchangeUnder | src/dhmp_fs_io.c:88-121 | over servers that hold what the cache takes for stored, an eviction among any careful steps of other threads, before the write-back and before the read, meets the conditions of these results |
| RemoteStore.ConnectedSuffices | src/dhmp_fs_io.c:514-639 | one connected server that answers is enough for an eviction to be served well |
| RemoteStore.ServedKeeps | src/dhmp_fs_io.c:514-639 | all remote calls of a call come out well if and only if each finds connected servers, and they leave servers that hold what they wrote back |
| RemoteStore.NobodyServes | src/dhmp_fs_io.c:608-639 | with no connected server no write-back is stored and a read gets nothing or a stale bank |
| RemoteStore.SurvivorDisconnects | src/dhmp_fs_recovery.c:40-93 | a recovery from one survivor leaves no server connected |
| RemoteStore.StaysDisconnected | src/dhmp_fs_recovery.c:97-150 | and no step before its reconnections connects one |
| RemoteStore.MissDuringRecovery | src/dhmp_fs_io.c:107-117 | a concrete recovery, reached by two writes and its start, in which both servers answer and yet a read through the cache returns a byte of the bank it evicts, and a written byte is gone |
| FileClient.FileSystem.GetFreeChunk | src/dhmp_fs_index.c:179-198 | the cursor scan marks and returns the first free chunk going around, or -1 and no change |
| FileClient.FileSystem.Level3LocalIndex | src/dhmp_fs_index.c:241-402 | context and residual offset of a file offset; allocates only when writing and only for an empty slot |
| FileClient.FileSystem.Write | src/dhmp_fs_io.c:193-295 | the loop over chunks, for any outcomes of its remote calls; any file without holes gets the bytes overlaid under the conditions above |
| FileClient.FileSystem.ReadAt | src/dhmp_fs_io.c:297-390 | the loop over chunks, for any outcomes of its remote calls; if they come out well, exactly the bytes of a file without holes, and no file changes |
| FileClient.FileSystem.TakeInode | src/dhmp_fs_index.c:149-166 | an inode not in use that is the empty file |
| FileClient.FileSystem.ResetInode | src/dhmp_fs_index.c:95-144 | the loop over the context list: inode emptied, appended to the slab, exactly its chunks unmarked |
| PathSpec.DealCovers | src/dhmp_fs_dir_ops.c:319-338 | directory name and file name put together are the path, up to one trailing slash, and the file name holds no slash |
| PathSpec.DealAgreesWithWalk | src/dhmp_fs_dir_ops.c:126-167 | for every absolute path but "/", the segments walked are those of its directory name and then its file name |
| PathSpec.RelativePathsDisagree | src/dhmp_fs_dir_ops.c:319-338 | a concrete relative path for which they are not |
| TreeClient.SearchByDeal | src/dhmp_fs_dir_ops.c:126-167 | search_d_hash of an absolute path is the lookup of its file name in what search_d_hash finds for its directory name |
| TreeProofs.CreateKeeps | src/dhmp_fs_dir_ops.c:68-80 | creating under a free name keeps: hash map and sibling list of every directory hold the same inodes, keys are file names, son count not below the sons, every inode with one father, no cycle |
| TreeProofs.RenameKeepsIff | src/dhmp_fs_dir_ops.c:503-516 | a rename keeps that invariant if the new name is free or the old one, and otherwise leaves what meets it for no shape at all |
| TreeDelete.PrunedIsEmpty | src/dhmp_fs_dir_ops.c:232-235 | a son whose recursion is skipped has no sons, although son_nums is never set back |
| TreeDelete.OrderHas | src/dhmp_fs_dir_ops.c:216-241 | the recursive walk resets exactly the live inodes from which climbing leads to one of the siblings |
| TreeDelete.OrderOnce | src/dhmp_fs_dir_ops.c:216-241 | and resets each of them once |
| TreeDelete.SubtreeOnce | src/dhmp_fs_dir_ops.c:171-212 | a delete gives back the deleted inode and everything under it, each once, the deleted one last |
| TreeDelete.DeleteFrame | src/dhmp_fs_dir_ops.c:171-212 | the whole state after a delete: who is still live, what the slab gained, which records changed and how |
| TreeDelete.DeleteKeeps | src/dhmp_fs_dir_ops.c:171-241 | a delete keeps the tree invariant |
| TreeTheorems.SamePath | src/dhmp_fs_dir_ops.c:126-167 | every inode has one path from the root |
| TreeTheorems.CreateResolves | src/dhmp_fs_dir_ops.c:55-124 | the new path resolves to the new inode, nothing is below it, and every path that does not go through it resolves as before |
| TreeTheorems.DeleteResolves | src/dhmp_fs_dir_ops.c:171-254 | the path and all below it are missing, every other path resolves as before |
| TreeTheorems.RenameResolves | src/dhmp_fs_dir_ops.c:490-517 | what was found below the old path is found below the new one, nothing below the old, every other path as before |
| TreeTheorems.RenameArrivesIff | src/dhmp_fs_dir_ops.c:509-516 | the path asked for resolves to the renamed inode if and only if it names the directory the inode was in |
| TreeClient.MakeCallExact | src/dhmp_fs_dir_ops.c:55-124 | mknod and mkdir succeed if and only if the path does not resolve and its directory does; then it resolves to an inode not in use before, the first of the slab or a new one, a directory for mkdir and a file for mknod, empty and under that name; below it nothing resolves, and no path outside it changes |
| TreeClient.MakeCallAnswers | src/dhmp_fs_dir_ops.c:55-124 | which of their answers they give, each if and only if: 0 for the root, 1 for a free name in a directory, -1 for a used name or a missing directory, a crash below a file, where mkdir answers -1 if the file is the father |
| TreeClient.DeleteCallExact | src/dhmp_fs_dir_ops.c:244-254 | delete answers 0 for the root, 1 if and only if the path resolves, crashes if and only if the path of its directory runs through a file, and answers -1 otherwise; after 1 the path is missing and no path outside it changes, after anything else nothing has changed |
| TreeClient.RenameCallAnswers | src/dhmp_fs_dir_ops.c:490-517 | rename answers 0 if and only if the old path resolves, -17 if and only if only its directory does, crashes if and only if that does not or is a file, and changes nothing unless it answers 0 |
| TreeClient.RenameCallExact | src/dhmp_fs_dir_ops.c:490-517 | a rename that answers 0 keeps the tree if and only if the new name is free in the old directory; all at and below the old path is found under the new name there, hence under the path asked for if and only if that names the same directory, and paths clear of both names resolve as before |
| TreeClient.Namespace.Deal | src/dhmp_fs_dir_ops.c:319-338 | the two copying loops give the prefix up to the last inner slash and the rest without a trailing slash |
| TreeClient.Namespace.SearchHash | src/dhmp_fs_dir_ops.c:126-167 | the loop over characters walks the segments of the path |
| TreeClient.Namespace.AddToFather | src/dhmp_fs_dir_ops.c:18-24 | the inode goes to the front of the sibling list and into the hash map |
| TreeClient.Namespace.DelFromFather | src/dhmp_fs_dir_ops.c:26-53 | the scan takes the inode out of the sibling list and lowers the count only if it was there |
| TreeClient.Namespace.Make | src/dhmp_fs_dir_ops.c:55-124 | the invariant is kept and state and return code are those the exact result is about, error cases included |
| TreeClient.Namespace.DeleteAll | src/dhmp_fs_dir_ops.c:216-241 | the recursion terminates and resets exactly what lies below, in the proved order |
| TreeClient.Namespace.DelFromInode | src/dhmp_fs_dir_ops.c:171-212 | -1 and no change for a file or a missing name, otherwise the whole subtree is given back |
| TreeClient.Namespace.DeletePath | src/dhmp_fs_dir_ops.c:244-254 | the same by path, with the invariant kept |
| TreeClient.Namespace.RenamePath | src/dhmp_fs_dir_ops.c:490-517 | remove under the old key, new name into the inode, put under the new key; -17 for a missing source; the invariant is kept when the new name is free or the call fails |
| TreeTable.WalkThroughTables | src/dhmp_fs_dir_ops.c:126-167 | walking a path by lookups in the hash tables of the directories ends where walking it through their maps does |
| TreeTable.CreateIndexed | src/dhmp_fs_dir_ops.c:55-124 | a put into the father's table, and an empty table for a new directory, give the tables of the new tree |
| TreeTable.DeleteIndexed | src/dhmp_fs_dir_ops.c:171-212 | a removal from the father's table gives those of the tree after a delete |
| TreeTable.RenameIndexed | src/dhmp_fs_dir_ops.c:503-516 | a removal and a put on one table give those of the tree after a rename |
| TreeTable.RekeyEntry | src/dhmp_fs_dir_ops.c:506-514 | on the hash map object itself: -17 for a missing name, else the renamed directory's map, resizes included |
| TreeTable.MakeEntry | src/dhmp_fs_dir_ops.c:104-115 | -1 for a name taken, else the map of the directory with the new entry |
| TreeTable.DropEntry | src/dhmp_fs_dir_ops.c:180-195 | -1 for a missing name, else its inode and the map without the entry |
| HashSpec.PutRepresents | src/dhmp_fs_hashmap.c:93-125 | a put updates the represented map at the key and nowhere else; each key stays once and in its bucket, and no chain hangs on an empty head |
| HashSpec.GetRepresents | src/dhmp_fs_hashmap.c:141-153 | lookup in the bucket is lookup in the map |
| HashSpec.RemoveRepresents | src/dhmp_fs_hashmap.c:172-210 | a removal drops the key and nothing else, whether it was the head, in the chain or absent |
| HashSpec.RehashKeepsMap | src/dhmp_fs_hashmap.c:267-323 | the entries copied out are as many as the keys, and putting them all into an empty table gives the same map |
| HashClient.HashMap.constructor | src/dhmp_fs_hashmap.c:237-264 | an empty map of the default or the given list size |
| HashClient.HashMap.Exists | src/dhmp_fs_hashmap.c:155-170 | true exactly for the keys of the map |
| HashClient.HashMap.Get | src/dhmp_fs_hashmap.c:141-153 | the value last put, nothing for an absent key |
| HashClient.HashMap.Put | src/dhmp_fs_hashmap.c:93-139 | the map is updated at one key, size stays the number of keys, the list doubles exactly when a new key fills it, and the resize discipline is kept |
| HashClient.HashMap.Remove | src/dhmp_fs_hashmap.c:172-215 | the map loses the key, and the list is halved exactly when a removed key leaves it less than half full and the half is not below the default |
| HashClient.HashMap.Resize | src/dhmp_fs_hashmap.c:267-323 | the map survives; below the default size the table is left alone |
| HashClient.HashMap.CopyOut | src/dhmp_fs_hashmap.c:273-296 | exactly size temporaries are filled, within bounds |
| HashClient.HashMap.PutBack | src/dhmp_fs_hashmap.c:313-319 | none of the puts of a rebuild resizes the table again |
| Replication.RunSafe | src/dhmp_fs_recovery.c:30-225 | in every state of every run of writes, failed reads, recoveries, copies, replays, aborts, freed queues and reconnections in which recoveries copy every bank from a donor without freed nodes in its queue and nobody writes while one is closing, every CONNECTED server holds the latest value of every written bank and no replay meets a freed node |
| Replication.WriteKeeps | src/dhmp_fs_io.c:514-606 | a write at any moment of a recovery keeps the protocol invariant |
| Replication.StartKeeps | src/dhmp_fs_recovery.c:40-93 | so does the start of a recovery |
| Replication.CopyKeeps | src/dhmp_fs_recovery.c:97-133 | one copied bank, with any outcome of its two calls |
| Replication.ReplayKeeps | src/dhmp_fs_recovery.c:155-192 | one replayed write, with any outcome |
| Replication.EndCopyToReplayKeeps | src/dhmp_fs_recovery.c:137-138 | and the change from copying to replaying |
| Replication.EndCopyToCloseKeeps | src/dhmp_fs_recovery.c:137-147 | or, with one server alive, to the reconnections |
| Replication.EndReplayKeeps | src/dhmp_fs_recovery.c:155-193 | and the last test of the replay loop |
| Replication.FreeQueueKeeps | src/dhmp_fs_recovery.c:194-198 | and the freeing of the queue's nodes |
| Replication.DonorBackExact | src/dhmp_fs_recovery.c:202 | connecting the donor is safe if and only if it has every bank written since that test, or with one server alive since the copy began; surely if there is none |
| Replication.DonorBackIff | src/dhmp_fs_recovery.c:202 | whatever the donor may hold of the banks it missed, connecting it is safe if and only if it missed none |
| Replication.FinishExact | src/dhmp_fs_recovery.c:203-204 | connecting the returning server is safe if and only if it has every written bank that was neither copied nor replayed or was written since; surely if there is none |
| Replication.FinishIff | src/dhmp_fs_recovery.c:203 | whatever the returning server may hold of the banks that did not reach it, connecting it is safe if and only if every written bank was copied or replayed and none written since |
| Replication.SingleEndExact | src/dhmp_fs_recovery.c:140-150 | so the end of a recovery with one server alive is safe if and only if the donor has every bank written meanwhile and the returning server those and every one not copied |
| Replication.ReplayEndExact | src/dhmp_fs_recovery.c:194-204 | and that of one with a third server, with no write in between, if and only if the returning server has every bank that was neither copied nor replayed |
| Replication.StuckForever | src/dhmp_fs_recovery.c:64-67 | a recovery that finds no connected server blocks every later one |
| Replication.ShippedRecoveryCopiesNothing | src/dhmp_fs_recovery.c:118-134 | a concrete run in which the journal branch, as shipped, connects a server without the data |
| Replication.SingleCopyLosesWrite | src/dhmp_fs_recovery.c:140-150 | a concrete run in which a write during a copy from the only server is lost |
| Replication.ClosingWriteLost | src/dhmp_fs_recovery.c:155-203 | a concrete run with three servers in which a write between the last test of the replay loop and the reconnection of the donor is lost on two of them |
| Replication.FreedIff | src/dhmp_fs_recovery.c:194-198 | in every run, careful or not, a server's queue has freed nodes if and only if it was the donor of a recovery that freed a queue with nodes in it; none is ever unlinked |
| Replication.MeetsFreedIff | src/dhmp_fs_recovery.c:155-159 | so a replay reads a freed node, in its first round, if and only if its donor had ended an earlier replay with nodes in its queue |
| Replication.LinksFreedIff | src/dhmp_fs_io.c:550 | and a write links its node behind a freed one if and only if some server still RECOVERING had |
| Replication.FreedNodeMet | src/dhmp_fs_recovery.c:155-159 | a concrete second recovery by the same donor, in a run careful up to its start and with a third server connected, whose replay loop reads a freed node |
| Replication.FullCopyCovers | src/dhmp_fs_recovery.c:97-117 | a full copy that runs to its end reaches every bank |
| ReplicationSteps.WriteExact | src/dhmp_fs_io.c:538-596 | what a bank write leaves in each server, by its state and answer: stored, marked down, queued or untouched |
| ReplicationSteps.FailReadExact | src/dhmp_fs_io.c:612-628 | a failed read marks down that server alone, unless it takes part in a recovery |
| ReplicationSteps.StartExact | src/dhmp_fs_recovery.c:40-93 | a recovery copies from the first connected server but the returning one, which gets fresh memory; it is alone if no other is connected, and with no donor only the returning server's state changes |
| ReplicationSteps.CopyExact | src/dhmp_fs_recovery.c:97-133 | one copied bank gives the returning server the donor's content and changes nothing else; with every bank in use a failed call marks down exactly the server it went to and ends the recovery, from the journal it marks nobody |
| ReplicationSteps.ReplayExact | src/dhmp_fs_recovery.c:155-192 | one replayed write gives donor and returning server the third one's content of that bank and changes nothing else; a failed call marks down exactly the server it went to and ends the recovery |
| ReplicationSteps.FreeQueueExact | src/dhmp_fs_recovery.c:194-198 | the freeing of the queue frees all its nodes, unlinks none, and touches no other server |
| ReplicationSteps.LeadsOnward | src/dhmp_fs_recovery.c:30-225 | what a method runs continues any run of the system, so the results on runs hold of it |
| ReplicaClient.ReadLatest | src/dhmp_fs_io.c:608-639 | a remote read that ends at a connected server returns the latest value, and a read gets nothing exactly when nobody that may be asked answers |
| ReplicaClient.ReadLatestIff | src/dhmp_fs_io.c:608-639 | the exact condition: whatever a picked server marked DISCONNECT may hold, a remote read of a written bank returns the latest value if and only if it ends at a connected server |
| ReplicaClient.StaleReader | src/dhmp_fs_io.c:612-634 | a concrete run in which that server serves an old value |
| ReplicaClient.Client.FindAliveServer | src/dhmp_fs_recovery.c:20-27 | the first connected server |
| ReplicaClient.Client.HandOut | src/dhmp_fs_io.c:538-575 | the first pass: donors queue the bank, connected servers are noted |
| ReplicaClient.Client.Collect | src/dhmp_fs_io.c:577-596 | the second pass: what each server stores and which are marked down, and how many copies were stored |
| ReplicaClient.Client.WriteToRemote | src/dhmp_fs_io.c:514-606 | both passes together are the protocol's write step, and the answer is the number of connected servers that answered |
| ReplicaClient.Client.ReadFromRemote | src/dhmp_fs_io.c:608-639 | the retry loop ends at the server named by the reader function and leaves every server as AfterRead has it |
| ReplicaClient.AfterReadExact | src/dhmp_fs_io.c:612-634 | exactly these servers are marked down: the picked one if it may be asked and is silent, and if it did not answer, every silent connected server before the first connected one that answers, all of them if none does; nothing else changes |
| ReplicaClient.ReadAsEvents | src/dhmp_fs_io.c:608-639 | what a read marks down are failed reads of the protocol, each of a server it asked in vain |
| ReplicaClient.Client.CopyBanks | src/dhmp_fs_recovery.c:97-134 | the copy loops, with other threads running between their rounds: they run exactly the steps of the script they are given, and unless given up flag every bank, or those the journal names |
| ReplicaClient.Client.ReplayQueue | src/dhmp_fs_recovery.c:155-192 | the replay loop runs exactly the steps of its script; it may abort, having marked the failed server down, finish, dereference no third server, or read a freed node, and surely does if the donor's queue has one |
| ReplicaClient.Client.Close | src/dhmp_fs_recovery.c:202-204 | both reconnections, with other threads before each, are exactly those steps; a recovery that has every bank ends in the invariant if none of them writes |
| ReplicaClient.Client.FreeAndClose | src/dhmp_fs_recovery.c:194-204 | the same after the freeing of the queue, with other threads before that too |
| ReplicaClient.Client.FuseRecover | src/dhmp_fs_recovery.c:30-225 | a recovery, with writes and failed reads of other threads between any two of its steps, is a run of the protocol, step by step, with the outcomes its calls had. One that copies every bank keeps the promise whether it succeeds or not, except for writes from the end of its replay loop on; it is given up only after a failed call of its own, with the failed server marked down, and gets stuck only without a third server or on freed nodes in its donor's queue, on which it cannot succeed |
| BuddyTheorems.InitialInv | dhmp_client/src/dhmp_server.c:70-105 | the layout built for a new area satisfies the invariant, for any number of orders |
| BuddyTheorems.RunKeepsInv | dhmp_client/src/dhmp_transport.c:150-501 | in every state of every run of grants and frees, free and live blocks tile the area, each aligned to its size, every free list is strictly increasing, and no buddies are left unmerged but the initial pair |
| BuddyTheorems.GrantedIffRoom | dhmp_client/src/dhmp_transport.c:150-216 | a block of an order is granted if and only if some aligned range of that size is entirely free, the range of the never merged initial pair aside |
| BuddyTheorems.Quiescent | dhmp_client/src/dhmp_transport.c:399-479 | with nothing granted the free lists are the initial ones or the fully merged ones |
| BuddyTheorems.RunIdleLayouts | dhmp_client/src/dhmp_transport.c:399-479 | so whenever a run has given everything back; and once merged, never the initial layout again |
| BuddyTheorems.FreeUndoesGrant | dhmp_client/src/dhmp_transport.c:452-488 | freeing what was just granted restores the free lists exactly, if and only if it was not one of the initial pair of order 0 |
| BuddyProofs.TakeShape | dhmp_client/src/dhmp_transport.c:157-210 | closed form of the split retry: the lowest non-empty order at or above the wanted one gives its first block, and each order between gets the right half |
| BuddyProofs.TakePartition | dhmp_client/src/dhmp_transport.c:157-204 | a grant moves exactly one block of the wanted order from the free ones to the live ones |
| BuddyProofs.SplitTiles | dhmp_client/src/dhmp_transport.c:180-192 | replacing a block by its halves keeps the tiling |
| BuddyProofs.MergeTiles | dhmp_client/src/dhmp_transport.c:426-438 | replacing two buddies, found by alignment and distance, by their parent keeps it |
| BuddyProofs.FreeKeeps | dhmp_client/src/dhmp_transport.c:399-479 | giving a live block back, with all cascading merges, keeps the invariant |
| BuddyProofs.GrantKeeps | dhmp_client/src/dhmp_transport.c:150-216 | so does granting one |
| BuddyAreas.HighestDecides | dhmp_client/src/dhmp_transport.c:206-212 | a block of an order can be had exactly when the cached highest order reaches it |
| BuddyAreas.Area.constructor | dhmp_client/src/dhmp_server.c:70-105 | the nested loops build the initial free lists |
| BuddyAreas.Area.GetFreeBlock | dhmp_client/src/dhmp_transport.c:150-216 | the retry loop grants as proved, succeeds exactly when max_index reaches the order, and leaves max_index exact |
| BuddyAreas.Area.RecycleFreeBlock | dhmp_client/src/dhmp_transport.c:399-450 | one step of a free: insert in address order, or merge with the buddy and go on above |
| BuddyAreas.Area.FreeBlock | dhmp_client/src/dhmp_transport.c:452-488 | the merging retry and the scan for max_index; the block is no longer live |
| BuddyServer.OrderOf | dhmp_client/src/dhmp_transport.c:225-227 | the smallest order whose blocks hold the request |
| BuddySizes.ShippedSizes | dhmp_client/src/dhmp_server.c:35-37 | the table of block sizes as shipped, and twice the last for an area |
| BuddyServer.LengthFor | dhmp_client/src/dhmp_transport.c:303-327 | the length answered is the smallest size of a block or an area that holds the request, or the request itself above that; it is below twice the request, the smallest block aside |
| BuddyServer.Server.constructor | dhmp_client/src/dhmp_server.c:233 | the server starts with one area in its initial layout, the current one, and no grant |
| BuddyServer.Server.Accept | dhmp_client/src/dhmp_transport.c:1652 | a new connection starts with nvm_used_size 0, and no other's changes |
| BuddyServer.Server.GrantsDisjoint | dhmp_client/src/dhmp_transport.c:303-337 | no two regions that are out share a byte |
| BuddyServer.Server.ChooseArea | dhmp_client/src/dhmp_transport.c:229-252 | the current area if it can serve, else the first in the list that can, else a new one in its initial layout |
| BuddyServer.Server.GrantBlock | dhmp_client/src/dhmp_transport.c:254-270 | the block is the one the proved take gives, under the key of its area, and the area keeps the free lists that take leaves |
| BuddyServer.Server.MallocOneBlock | dhmp_client/src/dhmp_transport.c:218-275 | fails exactly when no area can serve the order and there is no memory for another; otherwise the chosen area, and no other, loses the block that the proved take gives |
| BuddyServer.Server.MallocRequest | dhmp_client/src/dhmp_transport.c:303-350 | routing by size; the new region is disjoint from all others, and nvm_used_size of the asking connection grows by its length, no other connection's changes |
| BuddyServer.Server.FreeOneBlock | dhmp_client/src/dhmp_transport.c:452-501 | the area of its key gets exactly the free lists of the proved release, every other area stays as it was, and the block leaves the books |
| BuddyServer.Server.FreeOneArea | dhmp_client/src/dhmp_transport.c:503-535 | the region becomes a buddy area in its initial layout, first in the list, or goes back to the system with the areas as they were |
| BuddyServer.Server.FreeMoreArea | dhmp_client/src/dhmp_transport.c:537-558 | the region leaves the list of whole regions |
| BuddyServer.Server.FreeRequest | dhmp_client/src/dhmp_transport.c:560-592 | the length alone routes every region: a block to its area, a region as large as an area to the front of the area list if its bookkeeping can be had, anything else to the system with all areas as they were; nvm_used_size of the sending connection falls by it, and over all connections the sizes add up to what is out |
| BuddyServer.Server.FreeThenMalloc | dhmp_client/src/dhmp_transport.c:303-592 | after a region as large as an area was freed, the next request of up to the largest block is granted even with no other memory left |
| Placement.ExchangeLeavesSuffix | dhmp_client/src/dhmp_poll.c:42-64 | after the exchange the entries in DRAM are exactly the suffix of the count-sorted entries with the original cardinality |
| Placement.PlacementIsBest | dhmp_client/src/dhmp_poll.c:42-64 | no other set of as many entries has more accesses |
| Placement.EvenSwap | dhmp_client/src/dhmp_poll.c:50-62 | as many entries are fetched as dropped |
| Placement.RequestsDistinct | dhmp_client/src/dhmp_poll.c:33-78 | over both loops no entry is requested twice, none is in DRAM already, none is also dropped |
| Placement.AllRequestedIff | dhmp_client/src/dhmp_poll.c:66-77 | every entry outside DRAM that meets the threshold is requested, unless the last one below the cut meets it, is outside DRAM, and has no entry in DRAM next to it; the cut is as far from the end as there are entries in DRAM |
| Placement.LengthsAddUp | dhmp_client/src/dhmp_poll.c:58-73 | the total length asked for adds up entry by entry |
| Placement.SingleEntryMissed | dhmp_client/src/dhmp_poll.c:42-67 | a single hot entry is never requested |
| PlacementClient.RequestsMeetThreshold | dhmp_client/src/dhmp_poll.c:176-192 | every requested entry meets the threshold |
| PlacementClient.SelectedExact | dhmp_client/src/dhmp_poll.c:176-192 | the walk enters exactly the regions whose counts do not add up to 0 and that meet the threshold or are in DRAM, each once and in table order, with its address, length, added counts and place |
| PlacementClient.PollAsksIff | dhmp_client/src/dhmp_poll.c:42-78 | an accessed region outside DRAM that meets the threshold is asked for, unless it is the last below the cut and has no entry in DRAM next to it |
| PlacementClient.PollDropsIff | dhmp_client/src/dhmp_poll.c:42-64 | over a poll of distinct regions an accessed region in DRAM is asked to be dropped if and only if, from its place in the sort on, there are more entries than accessed regions in DRAM |
| PlacementClient.PollDropsOnly | dhmp_client/src/dhmp_poll.c:42-64 | and nothing else is: each region to be dropped was accessed and is in DRAM |
| PlacementClient.PollAsksForAllIff | dhmp_client/src/dhmp_poll.c:164-192 | a poll over distinct regions asks for every accessed region outside DRAM that meets the threshold, unless the last entry below the cut is outside DRAM and has none in DRAM next to it |
| PlacementClient.NodePoll.Collect | dhmp_client/src/dhmp_poll.c:125-196 | the walk fills the sort array with the competing regions and starts all counts again |
| PlacementClient.NodePoll.Exchange | dhmp_client/src/dhmp_poll.c:42-64 | the two indices meet with the cold and hot lists of the closed form written, in order |
| PlacementClient.NodePoll.HandleCacheModel | dhmp_client/src/dhmp_poll.c:33-78 | both loops write exactly the proved lists, and req_dram_size is the sum of the hot lengths |

## Left out

- RDMA, connection management, epoll, timers, threads and their flags, logging, configuration and the vendored headers: input and output.
- `nr_free`: frees never update it (dhmp_client/src/dhmp_transport.c:399-501), so it says nothing.
- Intrusive lists are sequences, and inodes are values in a map under their addresses: pointer surgery and aliasing of records are not captured. Keys of the directory hash map are the file names themselves, so the sharing of the key with the inode's buffer is seen only in the order of rename's steps.
- No class holds the hash tables of all directories: TreeTable proves the walk and the calls over tables as values, and for the hash map object of one directory what a call does to it.
- The contexts released by a recursive delete are proved on values (SystemSpec) and, for one inode, in the FileClient class; no class holds tree and files together.
- ReplicaClient.Client.WriteToRemote: a node linked behind a freed one is as good as any other in the model; in the code linking it writes freed memory. Replication.LinksFreed says when that is, and careful runs have none.
- The uninitialised part of `actual_write_servers` (src/dhmp_fs_io.c:535-536, where the memset counts bytes): every server not asked counts as not asked. In the code an entry that happens to read 1 makes the client join a thread and read and free an argument record that this call did not make (lines 577-596).
- Queued sizes and offsets: every remote write is a whole bank at offset 0 (src/dhmp_fs_io.c:74, 107).
- `bank_id & (CACHE_SIZE - 1)` is taken modulo the number of lines, which is a power of two as built; so is the cursor step of `getFreeChunk`.
- The head check of read and write for directories and closed files, file times, `space`, and locks of files.
- Failed `malloc` calls, except where a parameter says whether memory is there (`memOk`, `buildOk`).
- FILE_NAME_LEN and the length of `deal`'s buffers.
- The result of `defaultRemove` as "found": it is the key of the bucket's head even for an absent key (src/dhmp_fs_hashmap.c:178, 214), so only the change of the map is stated.
- `defaultClear` beyond the reset of a directory, and the hash functions, which are a parameter.
- getattr, readdir, access, chmod, chown, statfs and truncate: they read one record or do nothing.
- DRAM messages on the server, threshold tuning in floating point, the SSD build, `naive_rewrite_thread` (never called).
- SystemHistory.RunRefines: runs consist of calls that meet their callers' duties and whose remote calls come out well, as listed above; refused calls, which change nothing, are covered call by call in TreeClient, and remote calls that come out otherwise in BankCache and RemoteStore.
- FileHistory.RunRefines: the same for the file layer alone.
- SharedHistory.RunRefinesTogether: the runs are those in which each remote call finds connected servers; a server that a read finds silent may be marked down at any later step, where the code does so at once.
- Replication.RunSafe: the recoveries of the run copy every bank from a donor without freed nodes, and nobody writes while one is closing nor during a copy from the only server alive; without these the exact lemmas say what happens.
- TreeClient.Namespace.RenamePath: it does not keep the tree for a used target name, because the code does not; the lemma TreeProofs.RenameKeepsIff says when it does.

# Verified models of xv6 with loopback sockets

Dafny models of the parts of this xv6 kernel and its user programs that carry the hardest
promises, with machine-checked proofs. `dafny verify dfyconfig.toml` checks everything.

What is proved, hardest first:

- **Crash-safe log** (`Log`, `GroupCommit`, `LogCode`). `commit()` and `recover_from_log()` are one
  machine that writes one disk block per step and may crash between any two, any number of times.
  What recovery restores is the state before the commit or all of it, the latter exactly when a
  non-empty header reached the disk. Under every interleaving of operations the recovered disk is a
  prefix of the log_writes that splits no operation, and what is durable stays durable. When the last
  operation ends, its commit runs to the end and leaves everything durable and the log open; a crash
  at any moment is recovered from to exactly the durable writes. `LogManager` is log.c in place; its
  loops are proved to make exactly the machine's steps, and its end_op exactly that run.
- **Files after a crash** (`FsImage`, `FsCrash`). Operations that change files, the log below them and
  crashes together: whatever has happened, a crash and the recovery after it leave on the disk, inode
  blocks included, the file system after a whole number of operations, with every block accounted for;
  what has once been kept is kept for good, and an operation that ends on a system at rest is kept. What
  makes this work is that an operation logs every block it changes, which is proved of the code.
- **Log space.** If every operation keeps to MAXOPBLOCKS, logged blocks plus unused reservations
  never exceed LOGSIZE. A `log_write` then panics exactly when the log holds min(LOGSIZE, nlog - 1)
  blocks, whether the block is new or not, and for every log size a run that panics is constructed:
  up to LOGSIZE (mkfs.c's choice) on a new block, above it on one already logged. Operations that
  keep to MAXOPBLOCKS - 1 blocks in a log area larger than LOGSIZE never panic.
- **Buffer cache** (`BufferCache`). The linked list is a ring ordered by last release, the victim is
  the clean unreferenced buffer released longest ago, and a read always sees the plain array that
  the writes describe: the disk overlaid with the dirty buffers, which are the blocks the log pins.
- **Files** (`FsLayout` … `FsCode`, `FsSpace`, `Directory`). Every block in use has exactly one owner;
  files refine byte sequences through `writei`, `readi` and `itrunc`; whatever these change, on a block
  or in the inode, is logged; a write panics exactly when fewer blocks are free than it needs, and takes
  just those; one filewrite transaction logs at most MAXOPBLOCKS blocks; a directory is a finite map.
- **Heap** (`Heap`, `HeapCode`). One address-ordered ring, no two free blocks touching, blocks that
  tile exactly the units obtained from sbrk, both searches terminating.
- **Address spaces** (`VmState`, `VmSpace`, `VmKernel`, `VmFrames`, `VmCode`). Every frame has exactly
  one use; the two-level tables refine a flat map; allocuvm, setupkvm and copyuvm fail exactly when
  fewer frames are free than their pages and page tables need, and then roll back exactly; freevm
  returns every frame of the space once.
- **Sleep locks** (`SleepLock`, `SleepRun`). For any number of processes and CPUs, one memory access
  per step, with sleeping on other channels inside and outside the lock: mutual exclusion, no lost
  wakeup, and sched()'s panics out of reach, over every run. Each operation, run alone, does what it
  is for, and a lock handed from one process to a sleeping one is a run from the initial state.
- **Sockets** (`SockTable`, `SockCode`, `SockRun`, `SockDelivery`). The table's invariants over every
  run, exact meanings of the error codes, peers that name each other; exactly which steps wake a
  sleeper for the wrong reason; in-order delivery in both directions over every run without such a
  step, and in one direction whenever only one is used; and both ways a wrong wakeup shows: a
  message lost, and a recv that returns a message nobody sent.
- **Shell parser** (`Shell`, `ShellWords`, `ShellCode`). Parsing undoes printing for every tree, every
  accepted line gives such a tree, nulterminate cuts the words apart without harming any, and every
  line means what it means with > for each >>.
- **Pipe** (`Pipe`, `PipeCode`). First-in first-out across the wrap of the 32-bit counters; in every
  run each call of pipewrite has stored exactly its own bytes so far, and reading to the end delivers
  every byte stored; and the exact condition under which a reader is left asleep over data.
- **grep's matcher** (`Grep`) decides the declarative meaning of `^ . * $` patterns.

A kernel panic is an outcome (`panicked`, `Panic`, `None`) or, where a caller's duty is what keeps it
away, a precondition named in the comment. Ghost fields record owners and histories.

Where the code and its documentation differ, the code is modelled and the exact condition proved.
`connect` accepts every prefix of "localhost" and of "127.0.0.1", also the empty host, while README.md
promises those two hosts only (`SockTable.HostExactly`, from the strncmp loop in `SockCode.StrNCmp`).
README.md promises that send blocks until earlier data has been read and that recv blocks while there
is none; both hold exactly as long as no process is woken by the other direction's traffic
(`SockDelivery.WronglyWokenExactly`, `TwoWayOverwrites`, `EmptyReceive`). log.c's comments suggest
that a reservation guarantees log space; it does not, whatever the log's size
(`GroupCommit.LogWritePanicsExactly`, `SmallLogPanics`, `LargeLogPanics`). A pipe writer that cannot
go on (killed, or no reader) and finds some room, but not enough, returns without waking readers
(`Pipe.LostWakeupExactly`). The shell reads >> as >: it does not append (`Shell.AppendIsOutput`).

## Model

| member | source | states |
|---|---|---|
| Log.StepOutcome | log.c:69-202 | one block write of commit or recovery keeps the machine well formed, and only the write of a non-empty header changes what would survive a crash |
| Log.PhaseOfHeader | log.c:99-122 | a non-empty header is on disk exactly from write_head until the log is erased |
| Log.CrashAtomicity | log.c:69-202 | for every transaction and every run with any number of crashes in commit and in recovery, each home block would be restored to its contents before the commit, or to the transaction's, the latter exactly if a non-empty header reached the disk |
| Log.RecoveryCompletes | log.c:115-122 | when such a run comes to rest, the home blocks themselves hold that outcome |
| GroupCommit.BlankDisk | mkfs.c:110-111 | the all-zero disk mkfs starts from has an empty log and stands for itself |
| GroupCommit.NextInv | log.c:125-233 | begin_op, log_write, end_op, a block write or a crash by anyone keeps the invariant of the whole log |
| GroupCommit.GroupCommitSafe | log.c:125-233 | from power-on, in every interleaving: the recovered disk is the old one with a prefix of all log_writes applied, no operation straddles the cut or still runs behind it, committing excludes running operations, and end_op's panic and log_write's "outside of trans" are unreachable |
| GroupCommit.DurableNeverLost | log.c:192-202 | the durable prefix only ever grows |
| GroupCommit.LogSpace | log.c:125-141 | if operations keep to MAXOPBLOCKS distinct blocks, logged blocks plus unused reservations stay within LOGSIZE and every slot is inside the log area |
| GroupCommit.LogWritePanicsExactly | log.c:213-233 | in every disciplined run a log_write of a home block by a running operation, new or repeated, panics exactly if the log holds min(LOGSIZE, nlog - 1) blocks, and then with "too big a transaction"; a log of LOGSIZE blocks means every running operation has spent its whole reservation |
| GroupCommit.NewBlockFits | log.c:213-233 | in particular, with nlog above LOGSIZE a disciplined operation can always log a block new to it |
| GroupCommit.ThriftyNeverPanics | log.c:125-141 | with nlog above LOGSIZE and operations of at most MAXOPBLOCKS - 1 distinct blocks, no run panics, on new or repeated blocks |
| GroupCommit.SmallLogPanics | log.c:213-221 | with nlog at most LOGSIZE there is a disciplined run that ends in the "too big a transaction" panic, on a new block |
| GroupCommit.LargeLogPanics | log.c:213-229 | with nlog above LOGSIZE there is one too, on a block the operation has already logged, since the size is checked before the block is looked for |
| LogCode.StepsAreRun | log.c:192-202 | the straight-line code is one of the machine's runs |
| LogCode.TraceIsRun | log.c:192-202 | so is every disk it passes through |
| LogCode.CommitPhases | log.c:177-202 | after j block writes of a commit of n blocks the code is at a known place |
| LogCode.CommitTurnsAtHeader | log.c:192-202 | stopping after j writes yields the old contents for j up to n, the new ones after |
| LogCode.LastOutCommits | log.c:143-202 | from every state of the whole log in which one operation runs, its end_op, the 2n+2 block writes and the clearing of log.committing lead to a log at rest: empty, everything written durable, the next operation admitted, the disk the one those writes make |
| LogCode.EndedState | log.c:143-174 | whichever operation ends, its end_op leaves the count one lower, the log not committing, and the log and disk as they were or, for the last one out, empty and committed |
| LogCode.CrashRecovers | log.c:53-122 | a crash in any state of the whole log, in commit or in recovery, followed by the block writes of recovery and the start of processes, leads to a log at rest whose home blocks hold exactly the durable writes |
| LogCode.LogManager.constructor | log.c:53-66 | initlog finishes an interrupted commit by exactly the machine's recovery steps and leaves the log empty and ready |
| LogCode.LogManager.BeginOp | log.c:125-141 | an operation is admitted exactly when nobody commits and its reservation fits |
| LogCode.LogManager.LogWrite | log.c:213-233 | panics exactly when the log is full or no operation runs; otherwise absorbs or appends the block and pins it |
| LogCode.LogManager.WriteHead | log.c:101-113 | one block write puts the in-memory header on disk |
| LogCode.LogManager.ReadHead | log.c:85-96 | reads back exactly the header on disk |
| LogCode.LogManager.WriteLog | log.c:177-190 | its loop makes the machine's first n steps, disk by disk |
| LogCode.LogManager.InstallTrans | log.c:69-82 | its loop makes the machine's install steps, disk by disk |
| LogCode.LogManager.Commit | log.c:192-202 | passes through exactly the machine's 2n+2 disks, or does nothing for an empty log |
| LogCode.LogManager.RecoverFromLog | log.c:115-122 | is the machine entered at install_trans with the header found on disk |
| LogCode.LogManager.EndOp | log.c:143-174 | the last operation out commits through the machine's disks and empties the log; otherwise nothing is written and nothing unpinned; panics exactly if a commit is under way; in every state of the whole log that this object stands for, the object ends where that run of the whole log ends |
| BufferCache.UnlinkCorrect | bio.c:131-134 | taking a buffer out of the list leaves the ring without it |
| BufferCache.PushCorrect | bio.c:134-138 | putting it behind the head leaves the ring with it in front |
| BufferCache.ReleaseToFront | bio.c:127-139 | moving the released buffer to the front keeps the ring complete and ordered by last release |
| BufferCache.ReuseAgrees | bio.c:66-91 | taking a reference or recycling a clean buffer keeps the cache in agreement with the array |
| BufferCache.ContentExact | bio.c:96-116 | the array the cache stands for is the disk overlaid with the dirty buffers |
| BufferCache.PinsAfter | log.c:213-233 | changing one buffer pins its block if it is dirty now, unpins it if it was, and changes no other |
| BufferCache.ReusePins | bio.c:61-93 | taking a reference or recycling pins and unpins nothing, and a buffer in use keeps its block |
| BufferCache.FillAgrees | bio.c:97-106 | reading an invalid buffer from disk fetches the current contents |
| BufferCache.StoreAgrees | log.c:213-233 | a write through or a pinned write changes the array at that block and nowhere else |
| BufferCache.Cache.constructor | bio.c:38-56 | the initial list is a ring of all buffers and the array is the disk |
| BufferCache.Cache.Find | bio.c:66-75 | finds the buffer of a block exactly if there is one |
| BufferCache.Cache.FindVictim | bio.c:78-90 | the recyclable buffer released longest ago, or none exactly if none is recyclable |
| BufferCache.Cache.Bget | bio.c:61-93 | returns the block's buffer, recycling only the clean unreferenced one released longest ago, which is then unlocked, invalid and has one reference; a buffer in use keeps its block; panics exactly if impossible |
| BufferCache.Cache.Bread | bio.c:96-106 | locks the buffer and returns the array's contents of its block, which no method changes while the buffer is referenced |
| BufferCache.Cache.Bwrite | bio.c:109-116 | updates the array and the disk; unpins the buffer; panics exactly if the caller does not hold its lock |
| BufferCache.Cache.LogWrite | log.c:213-233 | updates the array, not the disk, and pins the block |
| BufferCache.Cache.Brelse | bio.c:118-141 | drops a reference and, at zero, makes the buffer the most recently released; panics exactly if the caller does not hold its lock |
| FsLayout.OwnershipIsExclusive | fs.c:363-401 | no two slots of any inodes hold the same block, and the set bits of the data area are exactly the held blocks |
| FsLemmas.AttachDirect | fs.c:379-382 | storing a new block in a direct slot keeps every block owned once |
| FsLemmas.AttachEntry | fs.c:392-397 | so does storing one in the indirect block |
| FsLemmas.FreeIsUnowned | fs.c:55-78 | a block whose bit is clear belongs to nobody and is never block 0 |
| FsCode.FileSystem.constructor | mkfs.c:66-167 | an empty file system satisfies all invariants and no file has a hole |
| FsCode.FileSystem.Balloc | fs.c:55-78 | marks and zeroes the first free block; panics exactly if none is free |
| FsCode.FileSystem.Bfree | fs.c:80-96 | clears and logs exactly that bit; panics exactly if it was clear |
| FsCode.FileSystem.Bmap | fs.c:373-401 | yields the block of the n-th slot, allocating and logging just what is missing, and keeps all ownership; panics exactly if fewer blocks are free than are missing, so never on a mapped slot |
| FsCode.FileSystem.Iupdate | fs.c:217-237 | the inode on disk is the one in memory |
| FsBytes.OverwriteTwice | fs.c:499-504 | consecutive writes amount to one |
| FsBytes.LogBound | file.c:126-136 | at most three blocks' worth of bytes at any offset touches at most MAXOPBLOCKS distinct blocks |
| FsCode.FileSystem.Writei | fs.c:479-512 | fails exactly on an offset beyond the end, a wrapped range or one past MAXFILE; otherwise panics exactly if fewer blocks are free than the range needs, and else the file is the overwritten or extended byte sequence, every other file is unchanged, no file without holes gets one, just the needed blocks are taken, and every block changed, the block of every byte written and the changed inode's block are logged |
| FsCode.FileSystem.WriteRange | fs.c:494-509 | the part of writei behind its checks, with the same promises |
| FsCode.FileSystem.SetSize | fs.c:506-509 | a file that has grown gets its size and its inode goes to the disk, logged; nothing else happens |
| FsCode.FileSystem.Readi | fs.c:450-477 | returns exactly the bytes asked for that exist, allocates nothing and changes nothing |
| FsCode.FileSystem.Itrunc | fs.c:403-436 | the file, with holes or without, becomes empty, exactly its blocks become free, every block changed and the inode's are logged, every other file is unchanged, and "freeing free block" is unreachable |
| FsTrunc.Truncated | fs.c:403-436 | afterwards every remaining block is owned exactly once |
| FsSpace.SpareIsFree | fs.c:55-78 | the free blocks are those of the data area whose bit is clear: their number is what is left of it besides the owned blocks |
| FsSpace.FullExactly | fs.c:61-77 | balloc finds no clear bit exactly if that number is 0 |
| FsSpace.ChunkNeed | fs.c:379-397 | the blocks that bmap must allocate for a chunk of a file without holes are exactly those by which the file's new size exceeds what it holds |
| FsSpace.ChunkFits | file.c:126-152 | no chunk of filewrite needs more blocks, together with those before it, than all the bytes that fit do |
| FsSpace.FreedBlocks | fs.c:403-436 | the blocks free after a truncation are those free before and the ones the file owned |
| FsBytes.ChunkRefused | file.c:126-152 | where filewrite's loop stops is exactly the start of the first chunk that does not fit |
| FsCode.FileSystem.WriteTransaction | file.c:139-145 | each transaction of filewrite logs at most MAXOPBLOCKS blocks, among them every block it changed, that of every byte it wrote and the inode's if it changed, which is what an operation must log to survive a crash; panics exactly if the chunk needs more blocks than are free |
| FsCode.FileSystem.FileWrite | file.c:115-156 | panics exactly if the chunks that fit need more blocks than are free; otherwise succeeds exactly when the range fits; writes all of it then, else exactly the whole chunks that fit; there is one transaction for each chunk and every one keeps to MAXOPBLOCKS |
| FsImage.PutInodeExact | fs.c:217-237 | storing an inode in its block stores that inode and leaves the block's other inodes, and the fields that are not the operation's, alone |
| FsImage.SameFiles | fs.h:29-36 | what a disk holds determines the files |
| FsImage.LoggedSuffices | log.c:204-233 | if an operation's changed blocks and inodes are all among the blocks it logs, writing those and no others carries the disk from the old state to the new |
| FsImage.NewDisk | mkfs.c:92-120 | zeroed inode blocks and a free map with just the reserved blocks marked hold n empty files, every block accounted for |
| FsCrash.ChangeApplied | log.c:204-233 | so do its log_writes, in any order and with repetitions, if the last one of each block has its final contents |
| FsCrash.NewStart | mkfs.c:92-120 | with an empty log this is a start of the runs below |
| FsCrash.StepInv | log.c:53-233 | every begin, change, end, block write and crash keeps the durable cut at the end of an operation's change |
| FsCrash.CrashLeaves | log.c:53-122 | from every such state a crash and the recovery after it lead to a system at rest whose disk holds the last kept state, and whose history is what was kept |
| FsCrash.FilesSurviveCrash | log.c:53-233 | so after every run from power-on the disk holds, once recovered, the file system after a whole number of operations, every block owned once |
| FsCrash.KeptForGood | log.c:192-202 | an operation a crash would leave is never lost again |
| FsCrash.AllKeptAtRest | log.c:143-174 | whenever no operation runs and no commit is under way, a crash would leave the latest files |
| FsCrash.OperationKept | log.c:125-233 | an operation run on a system at rest, with no more blocks than the log takes, takes effect and leads back to rest, from where a crash leaves its files |
| Directory.NameCmp | fs.c:517-521 | compares the name cut to 14 bytes with the stored one |
| Directory.WriteEntry | fs.c:570-576 | writing one encoded entry changes exactly that entry |
| Directory.BindingOf | fs.c:526-549 | every live entry is the binding of its name |
| Directory.AddBinding | fs.c:553-579 | filling a free slot or appending adds exactly one binding and keeps names distinct |
| Directory.RemoveBinding | sysfile.c:207-212 | clearing a slot removes exactly one binding |
| Directory.Dir.constructor | sysfile.c:262-275 | an empty directory is the empty map |
| Directory.Dir.Lookup | fs.c:523-549 | finds the inode number exactly if the cut name is bound |
| Directory.Dir.FindEmpty | fs.c:565-570 | the first free slot, or the end |
| Directory.Dir.Link | fs.c:551-579 | refuses exactly a bound name; otherwise adds the binding in the first free slot or appends |
| Directory.Dir.Clear | sysfile.c:207-220 | removes exactly the entry's binding |
| Heap.BlocksApart | umalloc.c:9-21 | blocks never overlap |
| Heap.SpotTest | umalloc.c:30-32 | free's loop stops exactly at the block's place in address order |
| Heap.InsertCore | umalloc.c:24-44 | linking a block there keeps one ordered ring |
| Heap.FuseCore | umalloc.c:33-42 | joining two touching neighbours keeps the ring and the tiling |
| Heap.TakeWhole | umalloc.c:75-76 | unlinking an exact fit keeps the invariant |
| Heap.TakeTail | umalloc.c:77-81 | splitting off the tail keeps the invariant and the front block |
| Heap.FreeCorrect | umalloc.c:24-44 | after coalescing on both sides no two free blocks touch and live blocks are untouched |
| Heap.UnitsConserved | umalloc.c:63-90 | free units plus live units are exactly the units obtained from sbrk |
| HeapCode.BlockLargeEnough | umalloc.c:69 | the computed block is large enough exactly for requests up to 0xfffffff8 bytes |
| HeapCode.SbrkArgExact | umalloc.c:53-56 | sbrk is asked for the intended amount exactly below 2^28 units |
| HeapCode.Allocator.constructor | umalloc.c:21-22 | before the first call nothing is allocated |
| HeapCode.Allocator.FindSpot | umalloc.c:30-32 | the search terminates, also across the wrap, at the block's place |
| HeapCode.Allocator.Free | umalloc.c:24-44 | the block's units become free, no other block changes, and the invariant holds |
| HeapCode.Allocator.Coalesce | umalloc.c:33-43 | does exactly the joins on both sides |
| HeapCode.Allocator.MoreCore | umalloc.c:46-61 | adds at least the units asked for to the free list, or nothing |
| HeapCode.Allocator.Search | umalloc.c:74-89 | the loop terminates with at most one call of morecore, made only if no free block is large enough, and finds a block in the lap after a successful one |
| HeapCode.Allocator.Malloc | umalloc.c:63-90 | returns a new block of the computed size, disjoint from all live ones, or fails with nothing lost; asks for memory and fails only if no free block is large enough; asks for the wrong amount exactly for 2^28 units or more that no free block has |
| VmState.FramesExclusive | vm.c:36-80 | no two user pages of any spaces share a frame |
| VmState.StoreEntry | vm.c:36-80 | storing a table entry changes the flat map at that page only |
| VmState.AttachTable | vm.c:43-53 | adding a zeroed table changes no page of any space |
| VmState.MapUser | vm.c:61-80 | mapping a page gives its frame exactly one use |
| VmState.UnmapUser | vm.c:256-279 | clearing the entry takes that use away |
| VmState.Push | kalloc.c:60-77 | kfree's link puts the frame on the list once |
| VmState.Pop | kalloc.c:83-95 | kalloc's unlink takes the first frame off |
| VmSpace.DropPage | vm.c:266-276 | kfree and then clearing the entry frees exactly that page |
| VmSpace.GrowStep | vm.c:234-246 | filling and mapping one more frame extends the user map by that page only |
| VmSpace.GrowUndone | vm.c:236-244 | taking the new pages back restores the user map and all frames in use |
| VmSpace.AttemptUndone | vm.c:128-134 | freevm of an unfinished space restores every frame's use and contents |
| VmSpace.ReturnedOnce | vm.c:281-298 | after freevm the list holds its old frames and the space's pages, tables and directory, each once |
| VmSpace.RestoredExactly | vm.c:340-345 | after a failed copyuvm or setupkvm the free list holds the same frames as before and every space maps what it did |
| VmKernel.RowsApart | vm.c:105-115 | the kernel's rows do not overlap and lie above KERNBASE |
| VmKernel.BuildStep | vm.c:127-134 | after k rows the space is the flat map of those rows |
| VmFrames.KernelTables | vm.c:105-115 | wherever the kernel's data begin, its rows need 64 page tables, all above the user's |
| VmFrames.UserTablesIs | vm.c:32-55 | mapping n user pages from 0 in a space with kernel tables only needs a table for every 1024 pages begun |
| VmCode.Machine.constructor | kalloc.c:26-44 | every page from the kernel's end to PHYSTOP is on the list |
| VmCode.Machine.Freerange | kalloc.c:46-53 | frees exactly the whole pages of the range |
| VmCode.Machine.Kfree | kalloc.c:55-77 | the frame is junk-filled and first on the list |
| VmCode.Machine.Kalloc | kalloc.c:79-95 | the first frame, or 0 exactly if the list is empty |
| VmCode.Machine.WalkPgdir | vm.c:32-55 | the table of the page, added only if asked for; 0 exactly if missing and not to be had, and then nothing changed |
| VmCode.Machine.MapPage | vm.c:67-77 | fails, changing nothing, exactly when a table is needed and no frame is free |
| VmCode.Machine.MapPages | vm.c:57-80 | maps the whole range exactly if there are frames for the tables it lacks, else a prefix |
| VmCode.Machine.SetupKvm | vm.c:117-136 | 0, with every frame as before, exactly if fewer than 65 frames are free; otherwise a new space with exactly the kernel's mappings, on 65 frames |
| VmCode.Machine.DeallocUvm | vm.c:251-279 | unmaps and frees exactly the user pages of the range, skipping missing tables |
| VmCode.Machine.FreeVm | vm.c:281-298 | every frame of the space is free, no other frame changed |
| VmCode.Machine.AllocUvm | vm.c:219-249 | fails exactly if fewer frames are free than the new pages and the tables they lack; otherwise all new pages, zeroed, with PTE_W and PTE_U, on frames that were free, and just that many frames fewer; on failure the user map as it was and every data frame back |
| VmCode.Machine.CopyUvm | vm.c:313-345 | 0, with every frame as before, exactly if fewer frames are free than the directory, the kernel's and the user's tables and the pages need; otherwise the child has the parent's bytes and flags below sz on frames that were free, and the kernel's mappings, and just that many frames are taken |
| SleepLock.StepInv | proc.c:325-500 | every step of every CPU - locks, sleep and wakeup on this and on other channels, kill, yield, scheduler - keeps the invariant |
| SleepLock.MutualExclusion | sleeplock.c:22-42 | in every reachable state at most one process owns the lock |
| SleepLock.LockedHasOwner | sleeplock.c:22-42 | and one does whenever `locked` is set |
| SleepLock.NoLostWakeup | proc.c:419-476 | whoever sleeps on the lock, or has released the spinlock on the way there, waits for a held lock or for a wakeup still to come; so with the lock and its spinlock free nobody does |
| SleepLock.HoldingExact | sleeplock.c:44-53 | holdingsleep's test is true exactly for the owner |
| SleepLock.SchedSafe | proc.c:360-384 | at every switch the CPU holds ptable.lock only and the process is no longer RUNNING: sched's panics are unreachable |
| SleepLock.ReleaseByHolder | proc.c:325-454 | each release is by the holder, also across the hand-over between process and scheduler |
| SleepLock.Wakeup1 | proc.c:456-467 | wakes exactly the processes asleep on the channel |
| SleepLock.WakeLoop | proc.c:456-467 | the waker's steps amount to that in one go |
| SleepRun.TakesLock | sleeplock.c:22-32 | run alone, acquiresleep of a free lock makes the caller its holder |
| SleepRun.SleepsOnHeld | sleeplock.c:25-27 | of a held lock, it puts the caller to sleep on the lock, the spinlock given back and ptable.lock left to the scheduler |
| SleepRun.Resumes | proc.c:445-453 | a woken sleeper, scheduled again, holds the spinlock and tests again |
| SleepRun.Releases | sleeplock.c:34-42 | releasesleep frees the lock and makes every process asleep on it runnable, and no other |
| SleepRun.YieldsAway | proc.c:386-394 | yield leaves the caller runnable and its CPU in the scheduler |
| SleepRun.SwitchesIn | proc.c:325-354 | the scheduler resumes a runnable process that yielded where it left off, with ptable.lock released |
| SleepRun.Scans | proc.c:325-354 | the scheduler passes over a process that is not runnable, and after the last lets go of ptable.lock and starts again |
| SleepRun.Kills | proc.c:479-500 | kill makes a sleeping process runnable, whatever it sleeps on, and changes no other |
| SleepRun.GoesAway | proc.c:419-454 | sleep on another channel, inside the lock or outside, leaves the lock alone |
| SleepRun.ComesBack | proc.c:419-454 | and the way back leads to where it was called |
| SleepRun.Signals | proc.c:469-476 | a wakeup on another channel makes its sleeper runnable and changes nothing else |
| SleepRun.Asks | sleeplock.c:44-53 | holdingsleep changes nothing |
| SleepRun.HandOver | sleeplock.c:22-42 | from the initial state there is a run in which one process takes the lock, another finds it held and sleeps, and, once it is released, is woken and takes it |
| SockTable.StringRoundTrip | string.c:68-79 | a message that fits with its NUL is read back as written |
| SockTable.FindFrom | sock.c:202-212 | the slot open at the port, or none |
| SockTable.FindExact | sock.c:202-212 | getsock finds the one open slot at the port |
| SockTable.EndsExact | sock.c:124-133 | send and recv go ahead exactly on the caller's own connected socket with an open, connected peer port |
| SockTable.FreePortExists | sock.c:261-268 | getfreeport never fails |
| SockTable.HostExactly | sock.c:87-91 | connect accepts exactly the prefixes of the two names, so it keeps its promise exactly for hosts that are no proper prefix; the empty host is accepted |
| SockTable.ListenCodes | sock.c:60-80 | E_INVALID_ARG exactly for a port out of range, E_FAIL exactly if the table is full, E_ACCESS_DENIED exactly if the port is open, else a new listener; nobody is woken |
| SockTable.ConnectCodes | sock.c:82-115 | E_INVALID_ARG exactly for a bad port or host, and each other code exactly under its condition; on success two ends that name each other, on an unused port, and exactly the listener is woken |
| SockTable.RefusedCodes | sock.c:120-165 | send and recv refuse with E_INVALID_ARG exactly for a port out of range, E_NOTFOUND exactly if nobody is at the port or at the peer's, E_ACCESS_DENIED exactly for somebody else's socket, E_WRONG_STATE exactly if the socket or its peer is not connected |
| SockTable.DisconnectCodes | sock.c:183-197 | E_INVALID_ARG, E_NOTFOUND and E_ACCESS_DENIED each exactly under its condition, with nothing changed; otherwise 0, exactly that socket is closed, its port free again and its channel woken |
| SockTable.SendRestCodes | sock.c:135-147 | after its sleep a send fails with E_CONNECTION_RESET, and closes its socket, exactly if nobody is at the peer's port any more; otherwise the message is in the remote slot, which is full, and no other slot has changed |
| SockTable.RecvRestCodes | sock.c:167-181 | after its sleep a recv empties its slot and wakes its channel; it fails with E_CONNECTION_RESET, and closes its socket, exactly if nobody is at the peer's port any more |
| SockTable.ListenInv | sock.c:60-80 | listen keeps count, ports and ids right |
| SockTable.ConnectInv | sock.c:82-115 | so does connect |
| SockTable.SendRestInv | sock.c:135-147 | and send |
| SockTable.RecvRestInv | sock.c:167-181 | and recv |
| SockTable.DisconnectInv | sock.c:183-197 | and disconnect |
| SockTable.CloseLeavesNone | sock.c:303-314 | after closeprocsocks the process owns no socket, all others are unchanged, and exactly the closed slots were woken, in order |
| SockCode.StrLen | string.c:96-104 | the number of characters before the NUL |
| SockCode.StrNCmp | string.c:58-66 | 0 exactly if the first n characters of the two strings are the same |
| SockCode.CheckHost | sock.c:87-91 | the two comparisons decide exactly the accepted hosts |
| SockCode.Stable.constructor | sock.c:53-58 | all slots closed |
| SockCode.Stable.GetSock | sock.c:202-212 | the loop finds the first open slot at the port |
| SockCode.Stable.AllocSock | sock.c:220-236 | takes the first closed slot exactly if the port is free |
| SockCode.Stable.GetFreePort | sock.c:261-268 | the highest unused port, never 0 |
| SockCode.Stable.RemoveSock | sock.c:270-280 | closes exactly that slot and wakes its channel |
| SockCode.Stable.GetProcSock | sock.c:288-296 | the process's first socket |
| SockCode.Stable.CloseProcSocks | sock.c:303-314 | closes all of the process's sockets, waking each, in order |
| SockCode.Stable.Listen | sock.c:60-80 | does to the table in place what listen promises |
| SockCode.Stable.Connect | sock.c:82-115 | the same for connect |
| SockCode.Stable.Send | sock.c:117-147 | the same for send up to its sleep |
| SockCode.Stable.SendFinish | sock.c:135-147 | and after it |
| SockCode.Stable.Recv | sock.c:149-181 | the same for recv up to its sleep |
| SockCode.Stable.RecvFinish | sock.c:167-181 | and after it |
| SockCode.Stable.Disconnect | sock.c:183-197 | does to the table in place what disconnect promises, the wakeup included |
| SockRun.StepInv | sock.c:53-314 | every event of any process keeps table, blocked calls and pairs in order |
| SockRun.TableAlways | sock.c:53-280 | in every run countSock is the number of open slots, open ports are distinct and in range, and a free port is left |
| SockRun.PeersAlways | sock.c:104-112 | in every run the two ends of a connect find each other while both are open |
| SockRun.ConnectExact | sock.c:82-115 | in a run a successful connect joins the new socket and the listener's and wakes exactly the listener; a failed one changes nothing |
| SockRun.ExitExact | sock.c:303-314 | exit leaves the process without sockets, everybody else's as they were, and wakes exactly the sleepers on its sockets |
| SockRun.DisconnectExact | sock.c:183-197 | disconnect does this for the one socket |
| SockRun.CloseReachesPeer | sock.c:135-181 | a peer blocked in send or recv on a socket that is closed, by disconnect or exit, is woken, and when it goes on its own socket is closed and its call delivers nothing |
| SockDelivery.WronglyWokenExactly | sock.c:135-181 | for a pair neither side closes, a step leaves every woken sender an empty buffer and every woken receiver a full one exactly if it completes no write on an end whose peer sleeps sending to it and no read on an end whose peer sleeps receiving |
| SockDelivery.WronglyWokenLoses | sock.c:135-181 | a sender or receiver that goes on after a wrong wakeup does break the order |
| SockDelivery.StepKeepsOrder | sock.c:117-181 | every other step keeps a pair in order |
| SockDelivery.TwoWayDelivery | sock.c:117-181 | over every run without such a step, whatever else happens, what is received is what was sent, in order, at most one in flight, in both directions |
| SockDelivery.OneWayCalm | sock.c:117-181 | use in one direction only never has such a step |
| SockDelivery.OneWayDelivery | sock.c:117-181 | so under every interleaving of one-way use what is received is what was sent, in order, at most one in flight |
| SockDelivery.TwoWayOverwrites | sock.c:135-144 | from any pair at rest, a run with both ends sending loses a message whose send returned 0 |
| SockDelivery.EmptyReceive | sock.c:167-179 | from any pair at rest, a run in which both ends receive and one recv returns 0 although nothing was sent to it |
| SockDelivery.RestReachable | sock.c:60-115 | listen, connect and the listener's return lead from the empty table to such a pair |
| Shell.ParseLine | sh.c:344-359 | parsing terminates on every string and never moves backwards |
| Shell.RedirsRead | sh.c:374-397 | printed redirections are read back in order |
| Shell.ArgsRead | sh.c:428-444 | so are printed arguments |
| Shell.AtLevel | sh.c:344-446 | a tree printed for a grammar level is read back at that level |
| Shell.ParsePrint | sh.c:327-446 | parsing the printed form of any good tree yields the tree |
| Shell.AppendIsOutput | sh.c:265-397 | every line parses, or panics, just as it does with > and a space in place of each >> |
| ShellWords.PrintParse | sh.c:327-446 | every accepted line gives a good tree with its words in place, and printing and parsing that tree again changes nothing |
| ShellWords.WordsSurvive | sh.c:448-493 | after nulterminate every word is intact and followed by a NUL |
| ShellCode.Parser.constructor | sh.c:327-332 | the cursor starts at the line's beginning |
| ShellCode.Parser.PeekFor | sh.c:310-320 | skips blanks and tells whether one of the characters follows |
| ShellCode.Parser.NextToken | sh.c:265-308 | the next token, the cursor behind it and the blanks after it |
| ShellCode.Parser.Redirs | sh.c:374-397 | the loop reads what the grammar's redirections say |
| ShellCode.Parser.ExecCmd | sh.c:415-446 | the same for a simple command or block |
| ShellCode.Parser.Args | sh.c:428-444 | the argument loop, panicking at the tenth argument |
| ShellCode.Parser.Block | sh.c:399-413 | a parenthesised line with redirections |
| ShellCode.Parser.PipeCmd | sh.c:361-372 | a pipeline |
| ShellCode.Parser.Ampersands | sh.c:349-353 | the loop over ampersands |
| ShellCode.Parser.LineCmd | sh.c:344-359 | a line |
| ShellCode.Parser.Parse | sh.c:327-342 | the whole line or a panic |
| ShellCode.NulTerminate | sh.c:448-493 | writes a NUL at the end of every word and nowhere else |
| ShellCode.ParseAndCut | sh.c:327-342 | parse, then the buffer with all words cut |
| Pipe.ZeroMeansEnd | pipe.c:100-121 | piperead of n > 0 returns 0 exactly if the ring is drained and the write end closed |
| Pipe.StepInv | pipe.c:59-121 | every stay in the lock keeps first-in first-out order, and no writer sleeps unless the ring is full and the read end open |
| Pipe.FifoForever | pipe.c:78-121 | in every run bytes read followed by the ring are the bytes stored, never more than PIPESIZE apart |
| Pipe.StayExact | pipe.c:78-98 | a stay in pipewrite from byte i stores the bytes from i on that fit, and sleeps before the first that does not, fails or ends exactly as it should |
| Pipe.CallsMade | pipe.c:78-98 | the calls on record are exactly those made, with their bytes |
| Pipe.EveryCallStored | pipe.c:78-98 | in every run, of any writers, each call has stored exactly its own bytes: all once it has returned their number, those before byte i while it is blocked there, a prefix if it failed |
| Pipe.SingleWriter | pipe.c:78-98 | with one writer the bytes stored are those of its calls one after the other |
| Pipe.WritersBytes | pipe.c:78-121 | both, for every run of a new pipe |
| Pipe.ReadExact | pipe.c:100-121 | a stay in piperead takes as many of the oldest bytes as there are, up to n, and wakes the writers; on an empty ring still written to it sleeps, or fails if killed |
| Pipe.CloseExact | pipe.c:59-75 | closing an end closes that end, wakes whoever waits for it and loses no byte |
| Pipe.EverythingRead | pipe.c:100-121 | whatever the run so far, once the write end is closed reading to the end delivers every byte ever stored and empties the ring |
| Pipe.LostWakeupExactly | pipe.c:85-95 | a step leaves a reader asleep over data exactly when a reader sleeps and a writer is killed or has no reader and finds some room but less than it needs |
| Pipe.NoLostWakeup | pipe.c:78-121 | in a run without such a step no reader ever sleeps over data or a closed write end |
| Pipe.SleepingOverData | pipe.c:85-92 | the failing run, with a killed writer |
| PipeCode.SlotWraps | pipe.c:93 | a counter's slot survives its 32-bit wrap |
| PipeCode.PipeRing.constructor | pipe.c:33-36 | a new pipe is empty and open at both ends |
| PipeCode.PipeRing.FullTest | pipe.c:85-106 | the full and empty tests are exact also after a wrap |
| PipeCode.PipeRing.Put | pipe.c:93 | appends the byte to the ring's contents |
| PipeCode.PipeRing.Take | pipe.c:116 | removes the oldest byte |
| PipeCode.PipeRing.Write | pipe.c:78-98 | stores the bytes from i on that fit and then returns, fails or sleeps before the first that does not, as promised |
| PipeCode.PipeRing.Read | pipe.c:100-121 | hands out the oldest bytes, fails or sleeps as promised |
| PipeCode.PipeRing.Close | pipe.c:59-75 | closes that end only, wakes the other end's sleepers, and frees the pipe exactly if the other end was closed already |
| Grep.HereCorrect | grep.c:84-96 | matchhere accepts exactly the texts with a cut that fits the pattern's items |
| Grep.StarCorrect | grep.c:98-106 | so does matchstar |
| Grep.Match | grep.c:72-82 | match returns 1 exactly if the pattern fits at the start (with ^) or somewhere |
| Grep.MatchHereAt | grep.c:84-96 | the recursive code computes that matcher |
| Grep.MatchStarAt | grep.c:98-106 | and so does the loop of matchstar |

## Left out

- Panics that end a run for lack of resources (no buffers, no blocks, no inodes) are outcomes with their exact conditions; no discipline of callers that avoids them is modelled.
- `log_write` is one atomic step: its test of the log's size reads `lh.n` before taking the lock, and that race is not modelled. Changing a buffer and log_writing it is one step too.
- ilock, iget, iput, ialloc, the inode cache and namex/skipelem: only easy members beside the ones here; inodes are locked by their users in the model.
- Device inodes (T_DEV) in readi and writei, reference counts of the file table, and nlink.
- FsCode.FileSystem.Writei: only for a file without holes, as files grown from empty by writei are; mkfs rounds up the size of the root directory it writes.
- FsCode.FileSystem.Readi: likewise; bmap would allocate a block for a hole.
- FsCode.FileSystem.Iupdate: the object keeps the inodes on disk in a list of their own; how they lie in their blocks is `FsImage.PutInodeExact`.
- FsCrash.FilesSurviveCrash: operations overlap in the log but change the file system one after the other; that inode and buffer locks make concurrent changes look like that is not shown. An inode's type, nlink and device numbers are not part of the state.
- FsCode.FileSystem.constructor: the image mkfs writes, without the root directory and the programs it copies in.
- BufferCache.Cache.Bget: blocks of the root device only; binit leaves every buffer as device 0, block 0, and that device has duplicates.
- HeapCode.Allocator.Malloc: the reply of sbrk is a parameter, taken to lie above all memory obtained before; a request of 2^28 units or more, whose size wraps on the way to sbrk, ends in the outcome Corrupt, exactly when no free block has that many, and is followed no further.
- VmCode.Machine.MapPages: ranges below KERNBASE are of one page, as all callers pass them; the physical address is page-aligned, as all callers pass it, and a size of 0 is excluded; a page that is already mapped (panic "remap") is a precondition.
- VmCode.Machine.AllocUvm: page-table pages added for a failed growth stay, as in the code.
- VmCode.Machine.DeallocUvm: sizes up to KERNBASE, which is what all callers pass.
- Kernel pointers to pages are frame numbers and memset is one assignment; inituvm, loaduvm, clearpteu, copyout and the hardware's own page walk are not modelled.
- SleepLock.StepInv: a wakeup on another channel is one step; spinlocks are atomic flags and interrupts come only where none is held; exit, wait and fork are not steps, and kill is that of a process without sockets.
- Kill of a process that owns sockets: kill calls closeprocsocks with ptable.lock held, and removesock then takes that lock again.
- SockCode.Stable.Send: lengths up to the size of the receive buffer, past which strncpy overwrites the slot's other fields; the system call's own fetching of its arguments is not modelled.
- SockCode.Stable.SendFinish: likewise.
- SockTable.SendRestInv: likewise.
- SockDelivery.TwoWayDelivery: nothing is claimed for ports or slots reused after a close, or for progress.
- SockTable.ListenInv: socket ids are unbounded; the wrap of nextsid after 2^31 sockets is not modelled.
- Executing the shell's commands, and the shell's main loop.
- pipealloc's failure paths; a negative count passed to pipewrite or piperead.
- grep's reading of lines from a file, which drops a partial line that fills the buffer.
- ide.c, memide.c, boot, trap, console, uart, apic, exec.c, mkfs.c's host I/O, the system-call layer and the other user programs.
- Deadlock freedom and fairness anywhere.

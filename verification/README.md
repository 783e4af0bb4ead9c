# Verified model of an xv6 derivative

A Dafny model of the kernel and user algorithms of a RISC-V xv6 derivative that adds process
suspend/resume: the crash-safe file system stack, Sv39 address spaces, the blocking protocols,
process hibernation, the user-level memory allocator and grep. `dafny verify dfyconfig.toml`
checks the whole project.

How to read it:

- Code that changes things step by step is a class or a set of methods with loops, proved
  against functions on values (disks, volumes, page tables, rings, sequences of bytes).
- Code that runs concurrently is a step system: `State`, `Step`, `Enabled`, `Next`, an invariant,
  a lemma that every step keeps it, and lemmas about every run. A region under a spinlock is one
  step, except in `SleepWakeup` and `WaitExit`, where single lock operations are the steps.
- A panic is a result of the model. Where a panic is excluded by a precondition instead, the
  member is named under "Left out".
- What an operation needs is counted: pages and tables from the free list (`Need`), blocks from
  the bitmap (`BlocksFor`). So running out is an exact condition on the state before the call.
- The disk is a sequence of blocks written atomically; a crash keeps the disk and nothing else.

The modules, by subject:

| subject | modules |
|---|---|
| redo log and group commit | `Blocks`, `RedoLog`, `LogDriver`, `LogMachine` |
| buffer cache | `BufferCache`, `CacheMachine` |
| block allocation and files | `Volume`, `VolumeProofs`, `BlockNeeds`, `Files`, `Truncate`, `FileSystem`, `InodeBlocks` |
| files across crashes | `CrashedWrite` |
| directories and link counts | `Directories`, `LinkCounts` |
| page tables and user memory | `PageTable`, `TableSteps`, `PhysicalMemory`, `Paging`, `Mapping`, `UserSpace`, `Teardown`, `UserCopy` |
| pipes, disk ring, processes | `Pipe`, `PipeMachine`, `Virtio`, `VirtioMachine`, `SleepWakeup`, `WaitExit` |
| hibernation | `Hibernate` |
| malloc and grep | `FreeList`, `Umalloc`, `Regex`, `Grep` |

Properties that the code does not have, each with the exact condition under which it does:

- The log is crash-safe with more than LOGSIZE log blocks (`StepRefines`). mkfs makes exactly
  LOGSIZE: a run inside all budgets reaches the panic of `log_write` (`SmallLogPanics`), and since
  that test is made without the lock, another writes past the end of the log
  (`SmallLogOverflows`). See also `BudgetedWriteFits`, `PanicOnlyWhenSpent` and
  `FullLogPanicsOnAbsorption`.
- Recovery drops a pin it never took (`RecoverBlock`), so the buffer cache is a plain block array
  exactly as long as no recovery has installed a block: `CacheMachine.StepInv`,
  `BreadReturnsLastStored`, `RecoveryLosesUpdates`.
- `uvmunmap` with size 0 at a page-aligned address runs on to a panic, which `uvmcopy` reaches when
  it fails at its first page: `UvmUnmap`, `UvmCopy`, `CopyCanPanic`.
- `proc_freepagetable` frees no table when sz is 0, which is how a failing fork calls it:
  `ProcFreePageTable`, `FreeProc`.
- A killed writer at a full pipe leaves without waking readers: `PipeMachine.StepInv`,
  `KilledWriterStrandsReader`.
- `readi` and `writei` report n bytes even when a copy failed: `Readi`, `Writei`.
- Resume undoes suspend only for a process with its guard page right below its last page, of at
  most 67 pages; `ksuspend` and `kresume` do not notice otherwise: `KSuspend`, `KResume`,
  `RoundTrip`.
- grep stops at a line that fills its buffer: `GrepFile`, `FittingLines`, `PrintedAll`,
  `LongLineLost`.
- `exit` may give init a child that goes on to wake its former parent, so init can sleep past a
  zombie: `NoMissedChild` says which children, `InitMisses` shows one. The comments at
  kernel/proc.c:338-342 and 372-376 take the early wakeup of init to make up for this.

The file layer and the log meet in `CrashedWrite`: `CrashLeavesChunks` says what a crash in the middle
of a `filewrite` leaves of the file, read back from the disk blocks.

## Model

| member | source | states |
|---|---|---|
| RedoLog.HeadRoundTrip | kernel/log.c:85-112 | the log header written to disk reads back as the same list of block numbers, for every list that fits |
| RedoLog.InstalledAt | kernel/log.c:68-82 | installing the first k log entries gives each block its last entry among them and leaves every other block alone, log included |
| RedoLog.RecoverAt | kernel/log.c:115-122 | recovery as a whole, home block by home block: replayed from its last log entry, or untouched |
| RedoLog.RecoveredIsClean | kernel/log.c:115-122 | recovery leaves an empty log header, and recovering again changes no home block |
| RedoLog.RecoverAfterPrefix | kernel/log.c:68-122 | a recovery that is cut off after any number of block writes can be run again: the home blocks end the same |
| RedoLog.CrashedRecoveries | kernel/log.c:68-122 | any number of crashed recoveries, cut anywhere, followed by a complete one, equals one complete recovery |
| RedoLog.LoggedAt | kernel/log.c:177-190 | what is on disk after k blocks have been copied to the log: the cached contents in the log blocks, home blocks and header untouched |
| RedoLog.HeaderWriteRecovers | kernel/log.c:192-202 | the header write is the commit point: from then on recovery restores exactly the pinned buffers on top of the old home blocks |
| RedoLog.CommitTailIsRecovery | kernel/log.c:192-202 | every later block write of commit is, write for write, what recovery would do |
| RedoLog.CrashAtomicity | kernel/log.c:68-202 | crash atomicity: cut commit after any of its block writes, crash any number of recoveries, finish one; home blocks are exactly the old or exactly the new state, decided by the header write |
| RedoLog.CommitCompletes | kernel/log.c:192-202 | an uninterrupted commit installs every pinned buffer and empties the log |
| LogDriver.Log.ReadHead | kernel/log.c:85-97 | the in-memory header equals the list on disk |
| LogDriver.Log.WriteLog | kernel/log.c:177-190 | the loop performs exactly the specified sequence of block writes |
| LogDriver.Log.InstallTrans | kernel/log.c:68-82 | the loop performs exactly the specified sequence of home writes, in order |
| LogDriver.Log.Commit | kernel/log.c:192-202 | the sequence of disk states that commit passes through is exactly the trace that CrashAtomicity cuts |
| LogDriver.Log.RecoverFromLog | kernel/log.c:115-122 | the sequence of disk states is exactly the recovery trace, and the log in memory is empty |
| LogDriver.Log.BeginOp | kernel/log.c:125-142 | an operation is admitted exactly when no commit runs and MAXOPBLOCKS more blocks per open operation still fit |
| LogDriver.Log.EndOp | kernel/log.c:145-174 | the last operation to end commits everything logged: the disk passes through exactly the states of a commit and the log is empty; any other end changes the count only; the panic is the case of a running commit |
| LogDriver.Log.LogWrite | kernel/log.c:213-234 | by a process that is not overtaken between the unlocked tests and the lock, log_write keeps the list inside the log on disk: it succeeds exactly when an operation is open and there is room for one more block, and a refusal changes nothing |
| LogDriver.Log.LogAppend | kernel/log.c:223-233 | under the lock a block is pinned and listed once (absorption); the list stays inside the log on disk exactly when it is shorter than the log, header included |
| LogMachine.InitInv | kernel/log.c:54-66 | a machine that boots on any valid disk satisfies the invariant of the whole protocol |
| LogMachine.StepRefines | kernel/log.c:125-234 | with more than LOGSIZE log blocks, every step of every interleaving, the unlocked tests of log_write and crashes included, keeps the invariant and refines a transactional disk on which a group of operations becomes durable at once |
| LogMachine.RunInv | kernel/log.c:125-234 | with more than LOGSIZE log blocks, the invariant holds in every state of every run |
| LogMachine.GroupCommit | kernel/log.c:125-234 | in every run, with a log of any size and as long as the header on disk lists no more blocks than the log has: no operation is open while a commit runs (so end_op's panic is unreachable), nothing is logged when no operation is open and no commit runs, logged numbers are distinct, and logged blocks plus all unspent budgets stay within LOGSIZE |
| LogMachine.OpenMeansRunning | kernel/log.c:145-156 | an open operation excludes a running commit |
| LogMachine.CommitExcludesOps | kernel/log.c:125-174 | while a commit or a recovery runs, nothing is open |
| LogMachine.DurableIsQuiescent | kernel/log.c:115-202 | in every run, with more than LOGSIZE log blocks, what recovery would restore is the file system as it stood at one earlier moment with no operation open: the last header write |
| LogMachine.CommitIsDurable | kernel/log.c:145-202 | once commit or recovery is done, the durable state is the current state |
| LogMachine.QuietIsDurable | kernel/log.c:145-202 | in every run with more than LOGSIZE log blocks, whenever no operation is open and no commit runs, everything written is durable |
| LogMachine.EndStarts | kernel/log.c:145-166 | end_op starts a commit if and only if it ends the last open operation; otherwise it only closes its own |
| LogMachine.EndCommits | kernel/log.c:145-202 | the last end_op's commit, step by step: its block writes in order, the disks between them those of the commit trace, and at the end the state that `LogDriver.Log.EndOp` leaves |
| LogMachine.EndQuietly | kernel/log.c:192-202 | the last end_op with nothing logged writes nothing |
| LogMachine.BudgetedWriteFits | kernel/log.c:126-142 | an operation inside its budget never meets the size panic when the log has more than LOGSIZE blocks |
| LogMachine.PanicOnlyWhenSpent | kernel/log.c:213-219 | with more than LOGSIZE log blocks the panic is exactly LOGSIZE blocks logged, and then every open operation has spent its budget |
| LogMachine.SmallLogPanics | mkfs/mkfs.c:25 | with at most LOGSIZE log blocks, which is what mkfs makes, a run inside all budgets reaches the panic |
| LogMachine.FullLogPanicsOnAbsorption | kernel/log.c:213-224 | the size test comes before absorption: logging a block that is already logged can reach the panic too |
| LogMachine.SmallLogOverflows | kernel/log.c:177-190 | the size condition of the refinement is needed: with 2 to LOGSIZE log blocks, a run inside all budgets in which two unlocked tests pass before either append; write_log then writes the block behind the log, which no operation wrote, and its durable contents change |
| BufferCache.Bcache.constructor | kernel/bio.c:35-52 | after binit the two-way ring holds every buffer once, the last one first |
| BufferCache.Bcache.BGet | kernel/bio.c:57-87 | a hit is the first buffer in ring order with the block and gains a reference; a miss recycles the last unreferenced one; the panic is reached only with neither; the ring is unchanged |
| BufferCache.Bcache.Recycle | kernel/bio.c:74-86 | the backward scan finds the unreferenced buffer nearest the tail |
| BufferCache.Bcache.BRelse | kernel/bio.c:122-134 | one reference less (mod 2^32); at zero the buffer is relinked at the front and the order of all others is kept |
| BufferCache.Bcache.BPin | kernel/bio.c:137-142 | unless the count wraps, no bget takes the pinned buffer for another block; the ring is as it was |
| BufferCache.Unlink | kernel/bio.c:126-127 | taking a buffer out of the two-way ring leaves a two-way ring of the others |
| BufferCache.LinkFront | kernel/bio.c:128-131 | relinking it behind the head puts it in front of the others |
| CacheMachine.StepInv | kernel/bio.c:57-149 | each step of any process keeps: reference counts equal the real references, one buffer per block of a nonzero device, buffers and disk agree with a plain block array, ring in order of last release; the one step that breaks it, and always does, is the bunpin of recovery |
| CacheMachine.RunInv | kernel/bio.c:57-149 | the same in every state of every run that boots on an empty log header |
| CacheMachine.BreadReturnsLastStored | kernel/bio.c:89-101 | in every run that boots on an empty log header, a filled buffer holds what was last stored in its block by anyone, whatever was evicted and reread in between |
| CacheMachine.PinnedIsKept | kernel/log.c:222-230 | a referenced or pinned buffer is never recycled, whatever step is made; a pin goes only when the disk holds the block's current contents |
| CacheMachine.QuiescentDisk | kernel/log.c:68-82 | with no buffer being changed and none pinned, the disk is the plain array |
| CacheMachine.RecyclesOldest | kernel/bio.c:74-85 | recycling is least recently used: no unreferenced buffer was released earlier |
| CacheMachine.StepsAreCalls | kernel/bio.c:57-149 | the steps on counts and ring are bget, brelse, bpin and bunpin as the cache specifies them, and the time of release changes only when brelse drops the last reference |
| CacheMachine.LogAndInstall | kernel/log.c:74-80 | bread, bpin, brelse and then bread, bunpin, brelse find the same buffer, keep its block, and leave the count as it was |
| CacheMachine.NoBuffers | kernel/bio.c:86 | bget panics only when each buffer has a process that waits for it, holds it or is letting it go, or a pin |
| CacheMachine.RecoverBlock | kernel/log.c:68-82 | recovery's bunpin without a bpin: after bread, bunpin, brelse the count is 0 if and only if the block was cached with exactly one reference; a buffer recycled for it ends with 2^32 - 1 |
| CacheMachine.RecoveryLosesUpdates | kernel/log.c:74-80 | the condition on the log header is needed: for a cache of any size and any two blocks, a run in which recovery has installed a block and a later store to it ends in no buffer and not on the disk |
| Volume.BlockBitAfter | kernel/fs.c:65-104 | setting or clearing a bit of a bitmap block changes that bit and no other |
| Volume.OwnershipMeans | kernel/fs.c:65-104 | the ownership invariant in plain terms: all block numbers held by all inodes, directly or through indirect blocks, are distinct, marked and outside the metadata, and every marked data block is held |
| VolumeProofs.PutAddr | kernel/fs.c:378-391 | giving a newly allocated block to an inode's slot keeps ownership and every other slot |
| VolumeProofs.PutEntry | kernel/fs.c:392-406 | the same for an entry of an indirect block |
| VolumeProofs.PokeKeeps | kernel/fs.c:497-512 | writing data into an owned data block changes no slot and no mark |
| Files.SpliceTwice | kernel/fs.c:497-512 | writing in two pieces is writing at once |
| Files.WrotePatch | kernel/fs.c:497-506 | one chunk of a write changes exactly its bytes of its file and no byte of another |
| Files.WroteContents | kernel/fs.c:486-518 | chunks that cover a range amount to a splice of the flat file |
| Truncate.FreeStep | kernel/fs.c:413-440 | freeing one block of the inode frees that block and keeps what is left consistent |
| Truncate.AllFreed | kernel/fs.c:413-440 | when every slot is freed the volume is consistent without the inode's blocks and other files are unchanged |
| FileSystem.Fs.FirstFree | kernel/fs.c:65-87 | the nested bitmap scan finds the lowest unmarked block, or there is none |
| FileSystem.Fs.Balloc | kernel/fs.c:65-87 | the lowest free block is marked and zeroed and nothing else changes; failure means all blocks are marked |
| FileSystem.Fs.Bfree | kernel/fs.c:90-104 | succeeds exactly on a marked block and unmarks only that |
| FileSystem.Fs.Bmap | kernel/fs.c:378-406 | the block for a file position, allocated if need be; ownership kept, exactly that position newly mapped, the blocks logged bounded; it succeeds if and only if the free blocks cover the block and the indirect block that are missing |
| FileSystem.Fs.Readi | kernel/fs.c:459-482 | readi is the slice of the flat contents clipped at the size, across direct and indirect blocks; it never allocates and returns the clipped length even when a copy fails |
| FileSystem.Fs.Writei | kernel/fs.c:486-518 | writei is the splice of the bytes that could be copied; other files unchanged, ownership kept even when a copy fails, n returned all the same, and the number of logged blocks bounded; -1 exactly when out of bounds, panic exactly when the free blocks do not cover the blocks that the range lacks; when no copy fails, every block and inode that changed has been logged |
| FileSystem.Fs.Itrunc | kernel/fs.c:413-440 | exactly the inode's blocks are unmarked, once each (no bfree panic), no other file changes, every changed block and the inode's go through the log, and nothing else is logged but bitmap blocks: at most size / BPB + 2 blocks |
| FileSystem.Fs.Filewrite | kernel/file.c:148-175 | every transaction of the chunk loop logs at most MAXOPBLOCKS blocks, for any offset; a panic means that the free blocks do not cover the blocks that the range lacks. When no copy fails: each transaction ends with the file spliced with whole chunks and all its changes logged, done is complete exactly when the write fits and otherwise the next chunk was out of bounds, and within bounds the panic is exact |
| FileSystem.ChunkFits | kernel/file.c:149-157 | the arithmetic of the budget: three blocks of data anywhere, with bitmap, indirect and inode blocks, stay within MAXOPBLOCKS |
| BlockNeeds.RoomIs | kernel/fs.c:65-87 | the unmarked blocks are counted exactly by the data blocks that no inode slot holds |
| BlockNeeds.NeedsOn | kernel/fs.c:378-406 | the blocks that two overlapping or adjacent ranges of a file need, one after the other, are the blocks that the whole range needs at the start |
| FileSystem.WriteOn | kernel/file.c:155-172 | two writes one after the other are one write of both, in contents and in blocks |
| BlockNeeds.PartTaken | kernel/fs.c:378-406 | mapping a part of a range takes exactly what the part needs off what the whole range needs |
| InodeBlocks.DinodeRoundTrip | kernel/fs.c:222-238 | iupdate stores an inode in its slot of its disk block, field by field, and leaves the other fifteen alone |
| InodeBlocks.ReadsContents | kernel/fs.c:459-482 | a block image that holds a consistent volume reads as the files of that volume |
| CrashedWrite.CompleteStands | kernel/fs.c:486-518 | no change escapes the log: the disk image before a transaction, with the blocks it logged, is the image after it |
| CrashedWrite.DrivenSound | kernel/file.c:148-175 | in every run of the log driven by filewrite, whatever other processes do besides writing, the durable image is that of the volume after some of the transactions that have ended |
| CrashedWrite.CrashLeavesChunks | kernel/file.c:148-175 | crash at any block write of a filewrite, on a log with more than LOGSIZE blocks: what recovery leaves on the disk reads as the old files, but for this one, into which a whole number of chunks has been spliced |
| CrashedWrite.CanComplete | kernel/fs.c:222-238 | every transaction whose inodes fit into struct dinode has block contents to log |
| FreeList.Conservation | user/umalloc.c:24-90 | live units plus free units are all units |
| FreeList.InsertNode | user/umalloc.c:28-31 | a block inserted at its place keeps the list sorted and made of blocks, and coalesced except at the two joints next to it |
| FreeList.TakeNode | user/umalloc.c:70-74 | taking a whole block off the list leaves the others, sorted and coalesced, and adds exactly that block to those in use |
| Umalloc.Heap.HeapIsSound | user/umalloc.c:24-90 | blocks in use and free blocks never overlap, and together they are all units obtained from sbrk |
| Umalloc.Heap.FindPlace | user/umalloc.c:28-31 | the search over the circular address-ordered list ends at the free block that precedes the address, wrap included |
| Umalloc.Heap.Free | user/umalloc.c:24-43 | exactly that block leaves the blocks in use, nothing is lost, and the list is sorted, circular and fully coalesced again |
| Umalloc.Heap.Morecore | user/umalloc.c:46-60 | a new block of at least the units asked for is on the list afterwards, so the next search succeeds |
| Umalloc.Heap.Carve | user/umalloc.c:72-81 | the block found is taken whole or split at its tail, and the pieces tile it |
| Umalloc.Heap.Malloc | user/umalloc.c:63-90 | returns a block disjoint from all others with the units asked for, the tail of the first block on the list behind freep that is large enough; morecore is called at most once, and only when nothing on the list fits; 0 only when sbrk refuses |
| PageTable.LeafTableIs | kernel/vm.c:61-91 | the three-level walk is a flat index: page v is served by exactly the table number v/512 of that root |
| PageTable.SlotsDiffer | kernel/vm.c:65-91 | two pages of any two address spaces never share an entry |
| PageTable.NodeUnique | kernel/vm.c:73-91 | a place in a tree is taken by one page only |
| PageTable.UserPageOwned | kernel/vm.c:96-114 | a user-accessible page belongs to exactly its place in its address space |
| PageTable.EntryFields | kernel/riscv.h:330-341 | page number and flags of an entry come back as they went in |
| PageTable.EntryBits | kernel/riscv.h:330-334 | PTE_V and PTE_U are bits 0 and 4 of an entry, and a leaf entry is one with a bit among 1 to 3 |
| TableSteps.LinkMap | kernel/vm.c:84-87 | adding an empty table changes no translation of any address space |
| TableSteps.LeafPut | kernel/vm.c:163 | writing one leaf entry changes one translation of one address space |
| TableSteps.UnmapTrees | kernel/vm.c:193-197 | clearing an entry keeps all trees well formed, with its page free or out of the tree |
| PhysicalMemory.Memory.Kalloc | kernel/kalloc.c:67-82 | a page leaves the free list, filled with 5s, and no page in use changes; null exactly when the list is empty |
| PhysicalMemory.Memory.Kfree | kernel/kalloc.c:46-62 | the page joins the list, filled with 1s, and the list still holds each free page once; the panic is exactly a page outside the managed range |
| Paging.Walk | kernel/vm.c:73-91 | finds the slot that serves v, with or without adding tables; translations and used pages unchanged; panic exactly at MAXVA; exactly the missing tables are added, and failure means that the free list is shorter than their number |
| Mapping.MapPages | kernel/vm.c:146-170 | for every size: on success exactly the requested entries changed and were free before, and the tables added are those that were missing; when memory runs out the first `done` entries are there and the free list was shorter than the tables needed; panic exactly on a mapped or too high page |
| Mapping.UvmUnmap | kernel/vm.c:172-203 | returns if and only if the last page PGROUNDDOWN(va + size - 1), in 64 bits, is not behind the first and every page between is mapped; then exactly these entries are gone and exactly these data pages changed hands; size 0 at a page-aligned address panics |
| Mapping.EmptyRange | kernel/vm.c:176-186 | with size 0 the last page is the first one when va is not page-aligned; when it is, the last page is behind the first or past MAXVA |
| Mapping.UvmClear | kernel/vm.c:344-355 | exactly one entry loses its user bit; nothing else changes |
| UserSpace.UvmAlloc | kernel/vm.c:233-260 | succeeds if and only if no page of the range is mapped or past MAXVA and the free list covers its pages and the tables missing for them; then exactly these pages are added, each all zeros and by bits 0 to 4 of its entry valid, readable, writable, executable and user-accessible, and exactly that much is spent; when memory runs out all leaf mappings and all data pages are as before and only new tables remain |
| UserSpace.UvmDealloc | kernel/vm.c:262-277 | exactly the pages between the sizes are unmapped and freed; a panic means that one was not mapped |
| UserSpace.AddedUndone | kernel/vm.c:248-257 | undoing added pages leaves only new tables behind |
| UserSpace.UvmCopy | kernel/vm.c:308-342 | on success, which is exactly a fully mapped parent and enough free pages, the child has the parent's pages with equal flags and bytes on free pages; running out after the first page undoes everything; for a fully mapped parent, a panic if and only if sz > 0 and the free list does not cover page 0 of the child and its missing tables |
| UserSpace.CopyCanPanic | kernel/vm.c:337-341 | there is a valid state with a fully mapped parent in which uvmcopy meets that panic |
| UserCopy.WalkAddr | kernel/vm.c:93-114 | 0 exactly when user code has no such page |
| UserCopy.CopyOut | kernel/vm.c:357-380 | succeeds exactly when user code can access the whole range; a prefix is stored and no other byte of any address space changes |
| UserCopy.CopyIn | kernel/vm.c:382-405 | succeeds exactly when the range is accessible and returns what user code sees there |
| UserCopy.CopyInAfterCopyOut | kernel/vm.c:357-405 | copyin after copyout returns the bytes written, and copyin from another address space is unaffected |
| UserCopy.ForkCopies | kernel/vm.c:314-342 | after uvmcopy parent and child see equal bytes with equal permissions, and the parent sees what it did |
| Teardown.FreeWalk | kernel/vm.c:279-297 | on a subtree without leaves, each of its tables is freed once, nothing else is touched, and the panic is not reached |
| Teardown.UvmFree | kernel/vm.c:299-306 | for sz > 0 every table and data page of the address space is free afterwards and no other page changed hands |
| Teardown.ProcFreePageTable | kernel/proc.c:205-214 | for sz > 0 each page of the process returns to the free list exactly once without a panic; for sz == 0 no table page is freed; the trapframe page may be in use or free already |
| Teardown.FreeProc | kernel/proc.c:163-170 | freeing the trapframe while it is still mapped, and then the page table, either of which may be missing: afterwards the trapframe and, for sz > 0, every page of the process are free, no other page changed hands, and the page tables are sound again |
| Pipe.Ring.WriteSome | kernel/pipe.c:76-100 | between two waits the writer appends a run of its bytes to the queue, with counters modulo 2^32, and stops done, or full |
| Pipe.Ring.ReadSome | kernel/pipe.c:102-127 | between two waits the reader takes the oldest bytes in order, and waits exactly when the pipe is empty and writable |
| Pipe.WrapCompare | kernel/pipe.c:85 | comparing the wrapped counters is as good as comparing the true counts |
| PipeMachine.StepInv | kernel/pipe.c:58-127 | a sleeping writer means full and readopen, a sleeping reader empty and writeopen; a step breaks this if and only if a killed writer leaves after putting bytes past a sleeping reader |
| PipeMachine.RunInv | kernel/pipe.c:58-127 | the same in every run without such an exit |
| PipeMachine.WhoWakes | kernel/pipe.c:58-127 | a sleeping reader is woken if and only if a writer ends or blocks, the write end is closed or it is killed, and a writer the other way round; nobody else's state changes |
| PipeMachine.Fifo | kernel/pipe.c:58-127 | in every run, bytes received followed by bytes buffered are the bytes sent, in order |
| PipeMachine.SleepingReaderMissesNothing | kernel/pipe.c:109-116 | whenever a reader sleeps, everything sent has been received and the write end is open |
| PipeMachine.KilledWriterStrandsReader | kernel/pipe.c:86-89 | a run in which the exit without wakeup leaves 512 bytes and a sleeping reader |
| Virtio.Descriptors.Alloc3 | kernel/virtio_disk.c:154-166 | the three lowest free descriptors, or none and the table as it was |
| Virtio.Descriptors.Format | kernel/virtio_disk.c:206-224 | the three descriptors form a chain, and no other link changes |
| Virtio.Descriptors.FreeChain | kernel/virtio_disk.c:141-152 | following the links frees exactly the three descriptors of the chain and reaches no panic |
| VirtioMachine.AtMostTwo | kernel/virtio_disk.c:168-187 | three requests in progress would need nine descriptors |
| VirtioMachine.NothingHidden | kernel/virtio_disk.c:256 | comparing ring indices modulo NUM sees a completion if and only if there is one |
| VirtioMachine.InterruptHitsFinished | kernel/virtio_disk.c:257-265 | what the handler reads from the used ring is a finished request not yet reported |
| VirtioMachine.FetchHitsQueued | kernel/virtio_disk.c:230-236 | what the device reads from the available ring is a request it has not fetched: the driver never overwrites an unread slot |
| VirtioMachine.StepInv | kernel/virtio_disk.c:168-269 | each descriptor is free or in exactly one chain of three, the rings hold what is queued and unseen, each request is reported at most once; kept by every driver and device step |
| VirtioMachine.RunInv | kernel/virtio_disk.c:168-269 | the same in every run |
| VirtioMachine.FinishedOnce | kernel/virtio_disk.c:240-246 | a request that returns was reported exactly once, and its chain is intact and in use, so free_desc's panics are unreachable |
| SleepWakeup.StepInv | kernel/proc.c:565-611 | every lock operation, switch and dispatch of every process keeps the invariant of sleep and wakeup, for any assignment of channels to locks |
| SleepWakeup.NoLostWakeup | kernel/proc.c:565-611 | when a wakeup made under the lock ends, no process that let that lock go in sleep is still asleep, or about to sleep, on the channel |
| SleepWakeup.EverySleeperWoken | kernel/proc.c:597-611 | the same at the end of every wakeup of every run: such a process is runnable or running |
| SleepWakeup.WhoWakes | kernel/proc.c:597-611 | a sleep on a channel ends if and only if the process is killed or a wakeup of that channel comes to its slot; a wakeup of another channel leaves it as it was |
| SleepWakeup.SleepKeepsLocked | kernel/proc.c:575-595 | sleep holds the process's own lock when it lets lk go, and returns with lk held |
| WaitExit.StepInv | kernel/proc.c:321-465 | every lock operation, scan step and switch in wait, exit and reparent keeps the invariant of locks, states and parents: a process in exit has the parent it read, unless it was given to init since |
| WaitExit.StepFamilies | kernel/proc.c:321-465 | and what each process knows about its children: in exit, that none is left in the slots it has passed; in wait, whether it has any |
| WaitExit.NoMissedChild | kernel/proc.c:413-465 | a parent asleep in wait with a zombie child is init, and the child was given to init after it had read, in exit, who its parent is |
| WaitExit.FreedIsOffCpu | kernel/proc.c:436-450 | wait frees only a zombie child of the caller that has left its CPU for good |
| WaitExit.RunSafe | kernel/proc.c:321-465 | both in every state of every run |
| WaitExit.RunFamilies | kernel/proc.c:321-465 | in every run: past slot i of reparent no process below i has the exiting one as parent; a zombie or unused slot is nobody's parent; who sleeps in wait has a child; wait that saw no child returns to a process without one, unless it is init |
| WaitExit.WhoWakes | kernel/proc.c:351-411 | a sleeper is woken if and only if it is asleep in wait and is init when an exit starts or the parent read when one ends, or somebody else wakes it |
| WaitExit.WhoSleeps | kernel/proc.c:458-464 | a process falls asleep only in wait, on itself, or by its own call of sleep elsewhere |
| WaitExit.InitMisses | kernel/proc.c:320-343 | a run of three processes after which init is asleep in wait past such a zombie child |
| Directories.DirLookup | kernel/fs.c:528-553 | the first slot in use with the name, if any |
| Directories.DirLink | kernel/fs.c:556-584 | fails exactly when the name is there; otherwise takes the first unused slot or extends the directory; the panic is exactly a directory of the largest size without an unused slot |
| Directories.IsDirEmpty | kernel/sysfile.c:231-245 | true exactly when no slot behind the first two is used |
| LinkCounts.StepInv | kernel/sysfile.c:177-352 | create, the two halves and the undo of link, unlink and the freeing in iput, in any order, keep nlink equal to the number of entries other than "." in live directories plus links under way |
| LinkCounts.RunInv | kernel/sysfile.c:177-352 | exact link counts in every run from a new file system |
| LinkCounts.FreedIsUnnamed | kernel/fs.c:333-359 | an inode that iput may free is named by no live directory |
| LinkCounts.NamedHasLink | kernel/sysfile.c:279-280 | the panic on nlink < 1 is unreachable |
| LinkCounts.EmptyHasOneLink | kernel/sysfile.c:281-297 | an empty directory that is unlinked has one link and its parent is the directory that names it |
| LinkCounts.Tree.SysUnlink | kernel/sysfile.c:269-306 | refused exactly for dots, absent names and directories in use, and then nothing changes; otherwise exactly the unlink step |
| LinkCounts.Tree.Ialloc | kernel/fs.c:197-216 | the first free inode, or the panic exactly when there is none |
| LinkCounts.Tree.SysCreate | kernel/sysfile.c:318-352 | a new name is exactly the create step on the first free inode, or a panic when there is no inode or no room for the name; an existing name changes nothing and is returned exactly for a file or device when a file is asked for |
| LinkCounts.Tree.SysLink | kernel/sysfile.c:197-228 | refused exactly for a directory or a taken name, and then the undo restores everything; the panic is exactly a full directory; otherwise the state is that of the two link steps in a row |
| Hibernate.LeRoundTrip | kernel/proc.h:109-115 | little-endian fields read back as written |
| Hibernate.HeaderRoundTrip | kernel/proc.c:760-769 | the header read by kresume is the header written by ksuspend |
| Hibernate.FrameRoundTrip | kernel/proc.c:838-875 | all 36 saved registers read back as written |
| Hibernate.KSuspend | kernel/proc.c:760-773 | for a process as exec leaves it, the file gets header, registers, code and data, and stack spliced in, whole if and only if they fit into a file; for a picture that fits, the panic is exactly a disk with too few free blocks; for any process the header and the registers are there and other files unchanged |
| Hibernate.LoadSeg | kernel/proc.c:25-51 | the pages get exactly the bytes that the file has there; a file that ends too early is reported; the panic is exactly an unaligned address, or a missing page reached before the file ends |
| Hibernate.KResume | kernel/proc.c:805-834 | -1 exactly when the file is too short for header and registers; otherwise a panic if and only if the free list does not cover the pages and tables; and if not, size, name, registers, every accessible byte and an inaccessible guard page come from the file, with zeros where it has ended, and every other address space keeps its translations and bytes |
| Hibernate.RoundTrip | kernel/proc.c:740-885 | for a process as exec leaves it, of at most 67 pages, resume undoes suspend if and only if disk and memory have room: registers, size, name and every accessible byte are back; access rights are the same if and only if the process is as exec leaves it; of more than 67 pages the last byte always comes back as 0; the system call return changes a0 unless it was 0; the other address spaces keep their translations and bytes |
| Hibernate.PictureFits | kernel/proc.c:760-773 | a file holds the picture of a process exactly up to 67 pages |
| Regex.MatchHere | user/grep.c:82-94 | matches here if and only if the text from here splits into pieces that the tokens describe |
| Regex.MatchStar | user/grep.c:96-104 | tries every number of repetitions: sound and complete for c* followed by the rest |
| Regex.ShownTokens | user/grep.c:82-94 | a pattern is the written form of its tokens, so reading it loses nothing, and they are a list that a pattern can have |
| Regex.TokensShown | user/grep.c:82-94 | a token list is read back from its written form if and only if it is such a list |
| Regex.StarText | user/grep.c:96-104 | c*re matches here if and only if re matches behind some run of c, or of any characters when c is a dot |
| Regex.CharText | user/grep.c:82-94 | another character, not a final $, matches itself, or any one character when it is a dot, and then the rest has to match |
| Regex.EndText | user/grep.c:82-94 | the empty pattern matches everywhere, and $ exactly at the end of the text |
| Regex.AnchorText | user/grep.c:70-80 | ^re matches if and only if re matches at the start, any other pattern if and only if it matches somewhere |
| Regex.PlainText | user/grep.c:70-94 | a pattern without special characters matches if and only if it occurs in the text |
| Regex.Match | user/grep.c:70-80 | true if and only if the declarative meaning of ^ . * $ and literals holds |
| Grep.Lines | user/grep.c:20-28 | prints the selected ones of the complete lines in the buffer, in order, and keeps the unfinished one |
| Grep.GrepFile | user/grep.c:10-34 | for NUL-free input, however read splits it: exactly the selected lines in order, up to the first line that does not fit into the buffer |
| Grep.FittingLines | user/grep.c:7-34 | when every line has at most 1023 bytes with its newline, the printed lines are all selected lines of the input |
| Grep.PrintedAll | user/grep.c:10-34 | what is selected is what is printed followed by what is selected behind the first line that does not fit; so everything selected is printed if and only if nothing is selected there |
| Grep.LongLineLost | user/grep.c:16-20 | an input of two lines, the first too long for the buffer, of which the empty pattern selects both and grep prints neither |

## Left out

- Boot, traps, device registers, consoles, the PLIC and UART, assembly: register plumbing. A context switch is one atomic step.
- The spinlock implementation and weak memory: a spinlock gives an atomic critical section.
- Deadlock freedom and fairness: only safety is stated; a process that waits for a lock may wait forever.
- ksuspend's search for the victim and its change of the process state, and the unlocking after end_op in kresume: `Hibernate` starts where the victim is known and not running.
- The inode cache (iget, ilock, iunlock) and path lookup (namex, skipelem): `LinkCounts` starts where the parent directory is known, and Free stands for the moment when the last reference in memory goes.
- Directory creation inside an already unlinked directory: every step of `LinkCounts` has a parent with nlink > 0.
- The 16-bit width of nlink: link counts are unbounded in `LinkCounts`.
- LinkCounts.Tree.SysUnlink: one call at a time; the interleavings are in `LinkCounts.StepInv`, where the two halves of sys_link are separate steps.
- proc_pagetable, uvmcreate, uvminit, exec's ELF loading and kvminit: they only call what is modelled.
- freerange and kinit: the free list starts as any list of distinct pages.
- copyinstr: copyin with an extra stop at NUL.
- PhysicalMemory.Memory.Kfree: requires that the page is not free already, which the code cannot tell.
- Teardown.FreeWalk: requires a tree without leaf entries; the panic on a leaf is excluded, and `UvmFree` shows that no caller reaches it.
- Teardown.ProcFreePageTable: requires that trampoline and trapframe are mapped; proc_pagetable ignores it when mappages fails, and the panic that follows is outside. Memory is sequential here: another CPU that allocates the freed trapframe page before it is unmapped is not modelled.
- Umalloc.Heap.Malloc: requires a size whose byte count, rounded up to units, does not overflow an int; sbrk would be called with a negative count.
- CacheMachine.StepInv: requires callers that follow the rule modify, log_write or bwrite, brelse, and fewer than 2^32 - 3 waiting processes. writei breaks the rule when a copy fails: it lets the changed buffer go without log_write (kernel/fs.c:500-503).
- LogDriver.Log.LogAppend: requires fewer than LOGSIZE blocks listed or a block that is listed; the array overrun otherwise is outside, and `LogMachine.GroupCommit` shows that no run inside the budgets reaches it.
- CrashedWrite.CrashLeavesChunks: only one process writes during the filewrite; others may begin and end operations. Copies that fail are outside, as they leave a changed block that is not logged.
- FileSystem.Fs.Filewrite: when a copy fails, the panic is stated one way: it means too few free blocks for the whole range.
- Directories.DirLink: the panic of balloc when the disk is full is not part of the directory model.
- UserSpace.UvmAlloc: requires newsz at most 2^64 - PGSIZE, so that rounding up does not wrap.
- Hibernate.KSuspend: requires a size below 2^31, which is what the int fields of the header hold, and at least two pages.
- Hibernate.KResume: requires a header as ksuspend writes it, as far as the file has one; the freeing of the old address space at the end is `ProcFreePageTable`.
- VirtioMachine.StepInv: the device completes each chain it fetched once, with status 0; the panic on a nonzero status is outside.
- Page contents are either 512 entries or 4096 bytes; the byte image of a table page is not modelled.
- user/sh.c, the other user programs, mkfs and system call tracing.

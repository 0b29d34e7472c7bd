# Verification of xv6

A Dafny model of the xv6 teaching kernel for x86, with its priority scheduler, its disk image builder (mkfs) and two of
its user programs (the allocator of umalloc.c and the shell's parser), and proofs of what they promise.

The model follows the source's form. State that the C code updates in place is a class whose methods make the same
updates in the same order, with the same loops; each method is proved equal to a step of a specification. Concurrency is
a transition system whose steps are the sections that locks make atomic, and its theorems quantify over every run.

| file | models |
|---|---|
| LogDisk, LogProtocol, Log | the redo log: crash points of a commit and of recovery; operations of any number of processes; the code |
| BufferCache, Bio, LogCache | the buffer cache: users of buffers in any interleaving; the linked list and its code; the cache and the log together |
| FileBlocks, FileSys, File, FullDisk | bitmap, block maps and file contents; the code of fs.c; filewrite; a nearly full disk |
| Directory, Path | directory records and names; path names |
| Links, SysFile | link counts and the directory tree over create, link, unlink; the code |
| Mkfs | building the file system image |
| ProcTable, Proc, Scheduler | the process table, its code, the scheduler |
| SleepLock | sleep, wakeup and sleep locks, one lock operation at a time |
| PipeBuffer | pipes |
| PageTables, AddressSpace, Vm | physical pages and two-level page tables; address spaces; kalloc.c and vm.c |
| FreeList, Umalloc | the circular free list; malloc and free |
| ShellParser, ShellPrinter, Shell | the shell's grammar, a printer for it, the parser's code and nulterminate |

Conventions. A panic, or mkfs exiting, is a result that the caller can see (`ok == false`, HEAD for "no buffers") or a
precondition that names the panic. Integers are unbounded except where the source's width matters: pipe counters,
malloc's request arithmetic, readi's and writei's offset checks and the entries of page tables are written out. Disk
blocks are written atomically. A device is `iderw` on an array of blocks, as memide.c has it.

Where the source does not keep a property, the model keeps the source and states exactly when the property holds:

- log_write makes its test of the log's size before it takes `log.lock`, so two operations can pass it together and the
  log then runs over the block after its area. Group commit is safe if and only if the area is larger than LOGSIZE or
  has no data block at all (`LogProtocol.GroupCommitExactly`); mkfs makes it exactly LOGSIZE blocks.
- The same test compares with `log.size - 1`, and mkfs makes the log area exactly LOGSIZE blocks, so an operation
  within its budget can panic on a block not logged yet (`LogProtocol.FirstWritesFitExactly`).
- A name made in a directory that has been removed breaks the link counts (`Links.KeptExactly`).
- mkfs rounds the root directory's size up to a block that may not exist (`Mkfs.Image.RoundSize`,
  `Mkfs.Image.Build`, and on an image of its own size `Mkfs.ThirtyFiles`).
- copyuvm loses a page when it runs out of memory at a page table (`Vm.Machine.Copyuvm`).
- malloc's rounding wraps around for the largest requests (`Umalloc.RequestIsEnough`), and for requests above 2^31 - 16 bytes
  sbrk's int argument is not positive, so that morecore frees memory it does not have (`Umalloc.MorecoreGetsMemory`,
  `Umalloc.MallocOutside`).
- The scheduler starves a process of the highest priority behind one of a lower priority (`Scheduler.ServedExactly`).
- A writer that is killed leaves a pipe without waking its readers (`PipeBuffer.StrandsExactly`,
  `PipeBuffer.ReadersWaitExactly`).
- create of ".." in a removed directory meets ilock's panic if the parent has been freed (`SysFile.Namespace.Create`,
  `SysFile.CreateMeetsPanic`).

## Model

| member | source | states |
|---|---|---|
| LogDisk.RecoveryIsIdempotent | log.c:115-122 | Crashing inside recovery after any number of its writes, any number of times, leaves a disk that recovers to the same disk |
| LogDisk.RecoveryRestarts | log.c:69-122 | One recovery cut off after any of its writes leaves a header and log that recover to the same disk |
| LogDisk.HeadRoundTrip | log.c:84-113 | The header that write_head writes is the one that read_head reads back |
| LogDisk.CommitPointBeforeHeader | log.c:177-197 | A crash before the header write leaves a disk that recovers to the old home blocks |
| LogDisk.CommitPointAfterHeader | log.c:197-202 | A crash from the header write on leaves a disk that recovers to all the new home blocks |
| LogDisk.CommitIsAtomic | log.c:177-202 | At every crash point of commit the disk recovers to all old or all new home blocks, and the header write decides which |
| LogDisk.CrashSafety | log.c:69-202 | Crash a commit anywhere, then crash the recoveries any number of times: the home blocks end all old or all new |
| LogDisk.CommitCompletes | log.c:192-202 | A commit that is not interrupted leaves the new home blocks and an empty log |
| LogProtocol.StepInv | log.c:125-233 | Every step of begin_op, log_write's unlocked test, its locked append, end_op, commit and a crash keeps the log, space, history and sleep invariants over every log area, and the disk and view invariants over one that fits |
| LogProtocol.ReachableInv | log.c:125-233 | The invariants hold in every state of every run of any number of processes, with crashes anywhere |
| LogProtocol.CommitExcludes | log.c:125-174 | In every run over every log area: committing excludes operations in progress and processes inside log_write, logged blocks are distinct and fit the header, and what is durable ends at a moment with no open operation |
| LogProtocol.GroupCommit | log.c:125-202 | Over a log area that fits, the disk of every run, with crashes anywhere, recovers to the logical state at a moment with no open operation |
| LogProtocol.OverrunLosesABlock | log.c:216-232 | A run, for every area of 2 to LOGSIZE blocks: two operations pass the test together, the commit overwrites a home block before the header is written, and the disk then recovers to no moment of the history |
| LogProtocol.GroupCommitExactly | log.c:216-232 | Every disk of every run recovers to some moment with no open operation if and only if the log area is larger than LOGSIZE or is the header alone |
| LogProtocol.AllOrNothing | log.c:125-174 | Such a moment holds every write of an operation or none of them |
| LogProtocol.DurableGrows | log.c:177-202 | What a run has made durable stays durable, also over a crash |
| LogProtocol.SleeperWillBeWoken | log.c:129-140 | A process asleep in begin_op would have to wait, and an operation or commit in progress will wake it |
| LogProtocol.ReservationHolds | log.c:132 | Under the reservation of begin_op, an operation within MAXOPBLOCKS finds a free slot in the header when it writes a block not logged yet |
| LogProtocol.FirstWriteCanPanic | log.c:218-219 | A run in which an operation within its budget panics on a block not logged yet, for every log area of at most LOGSIZE blocks |
| LogProtocol.FirstWritesFitExactly | log.c:218-219 | In all runs first writes within budget escape the panic if and only if the log area is larger than LOGSIZE |
| LogProtocol.AbsorbedWriteCanPanic | log.c:218-228 | The guard runs before absorption: a run in which a block that is logged already is turned away |
| Log.Log.constructor | log.c:53-66 | initlog leaves the recovered disk and an empty, valid log |
| Log.Log.TryBegin | log.c:129-140 | One turn of begin_op admits the operation exactly when no commit runs and its reservation fits |
| Log.Log.LogGuard | log.c:218-221 | The two panics of log_write, tested on whatever the log is at that moment |
| Log.Log.LogAppend | log.c:223-232 | The block number is appended unless it is there and the buffer is pinned with its data; the log stays valid |
| Log.Log.EndOpLocked | log.c:150-163 | The caller that takes the count to zero, and only that one, must commit |
| Log.Log.CopyToLog | log.c:177-190 | write_log: after each block write the disk is the next write point of the log area |
| Log.Log.PutHeader | log.c:101-113 | write_head turns the header block into the encoding of the in-memory header, in one block write |
| Log.Log.InstallTrans | log.c:69-82 | Each block write is the next install point; every logged buffer is unpinned |
| Log.Log.Commit | log.c:192-202 | The sequence of disks after each of its block writes is exactly the sequence of commit points that CommitIsAtomic is about; the log is valid and empty afterwards |
| Log.Log.EndOp | log.c:145-174 | The last operation to end leaves the disk at the final commit point and the log empty; any other changes nothing but the count |
| Log.Log.ReadHead | log.c:85-96 | The in-memory header becomes the one on disk |
| Log.Log.RecoverFromLog | log.c:115-122 | The disks after each block write are exactly the recovery points; the last is the recovered disk |
| BufferCache.StepInv | bio.c:61-141 | Get, lock, read, change, log_write, bwrite, unlock and drop keep: reference counts, lock owners, one buffer per block, data and list order |
| BufferCache.ReachableInv | bio.c:61-141 | These hold in every state of every interleaving of any number of users |
| BufferCache.ReadsLastWritten | bio.c:95-106 | Whoever holds a valid, unchanged buffer sees the data last passed to log_write or bwrite for its block: the cache is a flat array |
| BufferCache.FlatIsLastWritten | bio.c:108-116 | The flat array of a run is, block by block, the last data written in the run |
| BufferCache.HoldersDiffer | bio.c:61-93 | Two users never hold the same block of a real device |
| BufferCache.PendingIsDirty | bio.c:61-116 | In every run a block waits for its bwrite after a log_write if and only if a buffer that caches it is dirty |
| BufferCache.LoggedStays | bio.c:61-93 | In every run, from log_write until the bwrite of it, a block has exactly one buffer: valid, dirty, found by bget and never recycled, with the data last written unless its holder is changing it |
| BufferCache.EvictsOldest | bio.c:78-91 | The buffer that is recycled was released longest ago of those that may be recycled |
| LogCache.MapIsTheBuffers | log.c:69-82 | In every history of cache and log together a block is in the log's map if and only if it is noted and not yet installed, and if and only if it has a valid dirty buffer; that is the only one bget finds, and holds what the map has for the block |
| LogCache.PinnedIsPending | log.c:177-232 | The map holds, for exactly the blocks passed to log_write and not written home since, the data last logged |
| Bio.SpliceLinked | bio.c:132-137 | The pointer updates of brelse keep the list a cycle through every buffer, moving one to the front and keeping the order of the others |
| Bio.Bcache.constructor | bio.c:38-56 | The loop of binit builds a cycle through all buffers; the cache is the empty one |
| Bio.Bcache.Lookup | bio.c:68-76 | Finds a buffer of the block if any exists |
| Bio.Bcache.FindVictim | bio.c:78-91 | Finds the last unused clean buffer of the list, or shows there is none |
| Bio.Bcache.Bget | bio.c:61-93 | One step of the transition system; the panic exactly when the block is not cached and every buffer is in use or dirty |
| Bio.Bcache.AcquireSleep | sleeplock.c:22-32 | Takes the lock of a buffer exactly when it is free |
| Bio.Bcache.IdeRw | memide.c:35-60 | A dirty buffer goes to the disk and becomes clean; one that is not valid gets the disk's data |
| Bio.Bcache.Bread | bio.c:95-106 | Leaves the holder a valid buffer, read from the disk only if it was not valid |
| Bio.Bcache.Bwrite | bio.c:108-116 | The block's data reaches the disk and the flat array |
| Bio.Bcache.MarkDirty | log.c:231 | log_write's mark makes the data the block's contents for all users without a disk write |
| Bio.Bcache.ReleaseSleep | sleeplock.c:34-42 | The holder gives up the lock |
| Bio.Bcache.MoveToFront | bio.c:132-137 | The six pointer assignments realise the move to the front |
| Bio.Bcache.Brelse | bio.c:118-141 | Drops the reference; a buffer nobody uses becomes the most recently released |
| FileBlocks.AllocateDirect | fs.c:379-383 | A fresh block in an empty direct slot keeps every block in one slot of one inode and marked used |
| FileBlocks.AllocateIndirect | fs.c:386-397 | The same for a word of the indirect block |
| FileBlocks.AllocatedNoLeak | fs.c:373-401 | Allocation leaves no used block outside the inodes |
| FileBlocks.WordOfSetWord | fs.c:391-394 | The little-endian words of an indirect block are independent |
| FileBlocks.PatchBytes | fs.c:499-505 | Copying into one data block changes those bytes of that file and no byte of any file besides |
| FileSys.WriteIsSplice | fs.c:482-512 | The bytes copied and the new size together splice the old contents; other files keep theirs; the inode is unchanged unless the file grows |
| FileSys.TruncatedWf | fs.c:408-436 | After freeing an inode's slots the ownership invariant holds, nothing is leaked, other files keep their bytes |
| FileSys.FileSystem.constructor | fs.c:171-187 | A disk that meets the invariant becomes a file system that does |
| FileBlocks.MissingJoin | fs.c:373-401 | What two ranges of file blocks lack one after the other is what they lack together |
| FileSys.FileSystem.Balloc | fs.c:55-78 | Takes the first free block and zeroes it; fails exactly when no block is free |
| FileSys.FileSystem.Bmap | fs.c:373-401 | The block of the file, allocated if missing with its indirect block; other blocks, contents and files unchanged; exactly what is logged; fails exactly beyond the largest file or when fewer blocks are free than are missing |
| FileSys.FileSystem.Iupdate | fs.c:217-237 | The inode on disk becomes the one in memory |
| FileSys.FileSystem.Writei | fs.c:479-512 | A splice of the flat file across direct and indirect blocks; inodes on disk equal those in memory; exactly the blocks taken, their bitmap blocks, the data blocks, the indirect block if a word is set and the inode if it grows are logged; halts exactly when fewer blocks are free than are missing; -1 exactly for offsets beyond the size or the limit |
| FileSys.LogBound | fs.c:479-512 | What a write logs, with its inode, is within a budget by offset and length |
| FileSys.FileSystem.Readi | fs.c:450-477 | A slice of the flat file; nothing is allocated or changed |
| FileSys.FileSystem.Bfree | fs.c:80-96 | Clears the bit of a block marked used |
| FileSys.FileSystem.Itrunc | fs.c:403-436 | Frees exactly the inode's blocks, none of them already free, and keeps every other file |
| File.ChunkFitsBudget | file.c:126-135 | A chunk of filewrite at any offset logs at most MAXOPBLOCKS blocks |
| File.WriteTen | file.c:126-148 | The budget is used up: a chunk that starts inside block 9 and makes the indirect block logs exactly MAXOPBLOCKS blocks when the four free blocks are in four bitmap blocks |
| FullDisk.TenBlocks | file.c:126-148 | Such a write on a disk that is written out in full |
| File.FileWrite | file.c:116-156 | The file is overlaid with the bytes written, all of them exactly if they fit, and how many otherwise; each operation logs at most MAXOPBLOCKS distinct blocks; other files unchanged; halts exactly when fewer blocks are free than those bytes lack |
| Directory.Strncmp | string.c:58-66 | 0 exactly when the first n characters up to NUL agree; else the difference of the first that differ |
| Directory.Strncpy | string.c:68-79 | The key of the copy is the key of the name, and the rest is NUL |
| Directory.AddsName | fs.c:551-579 | A record written into a free slot adds exactly one name to the map that the bytes stand for |
| Directory.RemovesName | sysfile.c:218-220 | Clearing a record removes exactly that name |
| Directory.DirFile.Dirlookup | fs.c:523-549 | The inode and offset of the name's key in the map; 0 exactly when the key is absent |
| Directory.DirFile.Dirlink | fs.c:551-579 | Fails exactly when the key is present; else adds only that key, and the file grows only if no record is free |
| Directory.DirFile.Clear | sysfile.c:218-220 | Removes the name whose record dirlookup found |
| Directory.DirFile.IsDirEmpty | sysfile.c:167-181 | True exactly when the map has no name but "." and ".." |
| Path.SplitsText | fs.c:585-620 | Splitting any list of names joined by any numbers of slashes gives the list back |
| Path.EveryPathIsText | fs.c:585-620 | Every path is its elements joined by slashes, so the split is the only one |
| Path.Skipelem | fs.c:597-620 | The first element cut to DIRSIZ characters and the start of the second; the end is reached exactly after the last element |
| Path.ParentThenLast | fs.c:661-672 | Looking up a path is looking up its last element in the directory that nameiparent finds, though the tree may change between lookups; failures and the panic agree |
| Path.Namex | fs.c:622-659 | The walk that the elements spell from the root or the working directory, each lookup in the tree of its moment, with its failures and ilock's panic; the name left is the last element |
| Links.StepInv | sysfile.c:117-284 | create, both sections of link, unlink and the last iput keep: each count is the number of entries naming the inode plus links in progress; live directories form a tree |
| Links.ReachableInv | sysfile.c:117-284 | This holds in every run in which names are made in directories that have not been removed |
| Links.KeptExactly | sysfile.c:241-284 | A call that makes a name keeps the counts and the tree if and only if its directory still has a link; the other calls always do |
| Links.RemovedWorkingDirectory | sysfile.c:241-284 | A run: make a directory, remove it, make a file in it; no tree fits the counts afterwards |
| Links.OrphanedDirectory | sysfile.c:184-239 | A run: make two directories, one inside the other, remove both and free the outer one; the ".." of the inner one names a freed inode |
| Links.UpReachesRoot | sysfile.c:270-276 | Following ".." from any live directory reaches the root |
| Links.UnlinkFindsLinked | sysfile.c:207-212 | The inode that unlink finds has a link: its panic cannot happen |
| Links.UnlinkedIsUnnamed | fs.c:332-353 | An inode whose count is zero is named nowhere, so freeing it leaves no dangling entry |
| SysFile.Namespace.constructor | mkfs.c:117-128 | The tree with the root alone meets the invariant |
| SysFile.Namespace.Create | sysfile.c:241-284 | The create step for a free name; a taken one is returned exactly for a regular file where a regular file is; create's panics cannot happen, ilock's happens exactly at the ".." of a removed directory whose parent has been freed; the invariant is kept if the directory is live |
| SysFile.CreateMeetsPanic | sysfile.c:252-254 | A run that keeps the invariant and ends in a state where create of ".." meets that panic |
| SysFile.Namespace.LinkCount | sysfile.c:133-142 | Directories are refused, other inodes get the count of a link to come |
| SysFile.Namespace.LinkName | sysfile.c:144-164 | The name is added, or the count is taken back if the name is there |
| SysFile.Namespace.Unlink | sysfile.c:184-239 | Removes the name exactly when it is not a dot name, is there and is not a non-empty directory; the invariant is kept |
| Mkfs.Image.constructor | mkfs.c:108-111 | The blank image meets the ownership invariant |
| Mkfs.Image.MapBlock | mkfs.c:269-286 | Maps the file block, taking exactly the missing blocks in order, zero; nothing else moves; fails exactly when the image has fewer left |
| Mkfs.Image.IAppend | mkfs.c:255-297 | The file becomes its old contents followed by the new bytes; every other file is unchanged; ownership holds and nothing is leaked; fails exactly when the file becomes too large or its blocks do not fit the image |
| Mkfs.Image.IAlloc | mkfs.c:223-235 | The next inode, blank, with its type and one link |
| Mkfs.Image.RoundSize | mkfs.c:158-163 | The rounded image meets the kernel's invariant if and only if the directory was not a whole number of blocks; its contents are padded with zeros |
| Mkfs.Image.Build | mkfs.c:117-165 | The root lists the files and each has its bytes, type and one link; the invariant holds if and only if the number of entries is not a multiple of 32; succeeds if and only if no file is too large and the blocks of root and files fit the image and one bitmap block |
| Mkfs.ThirtyFiles | mkfs.c:117-165 | An image of 1000 blocks with thirty empty files does not meet the invariant: the root's size covers a second block that it does not have |
| ProcTable.StepInv | proc.c:76-512 | Each section under the table lock keeps: running processes are the CPUs' current ones, pids differ, parents are alive, a waiting parent has a child and no zombie child |
| ProcTable.ReachableInv | proc.c:76-512 | This holds in every run of any number of processes and CPUs |
| ProcTable.ExitInv | proc.c:231-272 | exit hands its children to init, wakes whoever must be woken and keeps the invariants |
| ProcTable.ParentsLeadToInit | proc.c:184-272 | From every process in use the chain of parents ends at init |
| Proc.PTable.constructor | proc.c:124-158 | The table after userinit: init alone |
| Proc.PTable.Wakeup1 | proc.c:472-480 | Exactly the sleepers of the channel become runnable |
| Proc.PTable.Allocproc | proc.c:75-94 | The first unused slot with a new pid, or a full table |
| Proc.PTable.PassChildren | proc.c:256-263 | After the loop every child of the process has init as its parent, and init is woken exactly if one of them was a zombie |
| Proc.PTable.ExitCurrent | proc.c:251-270 | Waking the parent, passing on the children and becoming a zombie are the exit step |
| Proc.PTable.Sched | proc.c:380-397 | The process leaves its CPU; "sched running" is its requirement |
| Proc.PTable.WaitOnce | proc.c:276-316 | Reaps the first zombie child, fails exactly without children or when killed, or sleeps |
| Proc.PTable.KillPid | proc.c:494-512 | Marks the first process with the pid and makes it runnable if it sleeps; -1 exactly if there is none |
| Scheduler.Pick | proc.c:326-371 | The dispatched process is RUNNABLE with the least priority value, and which one of those |
| Scheduler.PickIsUnique | proc.c:326-371 | The choice is determined by the table and the scan position |
| Scheduler.FairIsServed | proc.c:326-371 | A slot of highest priority with no lower-priority RUNNABLE slot between the first of highest priority and it is dispatched within as many dispatches as there are slots, whatever else changes between scans |
| Scheduler.RoundRobin | proc.c:326-371 | With equal priorities a process that stays RUNNABLE is dispatched within as many dispatches as there are slots |
| Scheduler.ServedExactly | proc.c:326-371 | In a table that stays the same, a RUNNABLE slot is dispatched within as many dispatches as there are slots from every position if and only if it is such a slot |
| Scheduler.Starves | proc.c:341-367 | Every other RUNNABLE slot is not dispatched in any number of dispatches from some position |
| Scheduler.MixedPrioritiesStarve | proc.c:341-367 | Three slots: a process of the highest priority that is never chosen, for any number of dispatches |
| SleepLock.ReachableInv | sleeplock.c:22-42 | In every run, lock by lock: each lock is held by exactly the process whose position says so, and nobody sleeps on a free lock unless a wakeup is coming |
| SleepLock.OneHolder | sleeplock.c:22-42 | A sleep lock has at most one holder |
| SleepLock.NoLostWakeup | proc.c:432-489 | Whenever the inner lock is free, a sleeper implies another process owns the sleep lock, also with kills |
| SleepLock.ReleasingFirstLosesWakeups | proc.c:443-455 | If sleep released the lock before taking the table lock, a run would lose a wakeup |
| PipeBuffer.WrapKeepsIndex | pipe.c:93 | Wrapping counters index the ring as unbounded ones would |
| PipeBuffer.CountersCompare | pipe.c:85 | Counters that have wrapped compare as the counts they stand for |
| PipeBuffer.WriteSection | pipe.c:78-98 | A section of pipewrite puts in as many bytes as there is space for and in order; what is left decides whether it returns, sleeps or fails, and who is woken |
| PipeBuffer.ReadsNext | pipe.c:113-117 | The copy loop of piperead takes exactly the bytes written next, as many as asked for or there |
| PipeBuffer.StepInv | pipe.c:59-121 | Every section of write, read and close, and a kill, keeps the ring and its counters, who may sleep, and when the pipe is freed |
| PipeBuffer.ReachableInv | pipe.c:59-121 | This holds in every run of any number of readers and writers |
| PipeBuffer.BytesInOrder | pipe.c:78-121 | In every run the bytes read are a prefix of the bytes written, the wrapped counters differ by the bytes in the pipe, at most PIPESIZE, and a read of everything completes the prefix |
| PipeBuffer.NeverBothAsleep | pipe.c:59-121 | In every run a sleeping writer implies a full pipe that is open for reading; unless a step has stranded readers, a sleeping reader implies an empty one open for writing, and never both sleep |
| PipeBuffer.StrandsExactly | pipe.c:84-96 | A step leaves readers asleep on a pipe with bytes in it if and only if it is a killed writer's with more than PIPESIZE bytes to go while readers sleep |
| PipeBuffer.ReadersWaitExactly | pipe.c:84-96 | Readers sleep only on an empty pipe throughout a run if and only if no step of the run is such a writer's |
| PipeBuffer.FreedIsLeftAlone | pipe.c:59-75 | The pipe is freed exactly when both ends are closed, and then nobody sleeps on it and no section can run |
| PipeBuffer.KilledWriterStrandsReader | pipe.c:86-89 | A run with a killed writer after which a reader sleeps although the pipe is full |
| PipeBuffer.Pipe.constructor | pipe.c:22-45 | An empty pipe with both ends open |
| PipeBuffer.Pipe.Write | pipe.c:78-98 | The loop over the ring is the write section; appends bytes until done, or sleeps or fails only at a full pipe; and exactly when it strands readers |
| PipeBuffer.Pipe.Read | pipe.c:100-121 | The loop over the ring is the read section; returns the next bytes in order; sleeps only at an empty open pipe; wakes the writers |
| PipeBuffer.Pipe.Close | pipe.c:59-75 | Closes one end and wakes whoever waits for it; frees the pipe exactly with its second end, and nothing can use it then |
| PageTables.EntryParts | vm.c:73 | An entry gives back its page and flags |
| PageTables.AddTableInv | vm.c:45-52 | A new page table changes no mapping and keeps every page in one place |
| PageTables.MapPageInv | vm.c:73 | An entry for a page in hand changes exactly that mapping; no page is shared or lost |
| PageTables.UnmapInv | vm.c:269-276 | Freeing a page and clearing its entry changes exactly that mapping and frees exactly that page |
| PageTables.ScanShrinks | vm.c:265-277 | A page-by-page scan frees exactly the directory's pages of the range and keeps every other mapping and page |
| Vm.Machine.constructor | kalloc.c:31-37 | Before kinit no page is free |
| Vm.Machine.Freerange | kalloc.c:46-53 | Exactly the pages of the range become free |
| Vm.Machine.Kalloc | kalloc.c:79-95 | The first page of the linked free list, 0 exactly when it is empty |
| Vm.Machine.Kfree | kalloc.c:59-77 | The page is filled with junk and becomes the first of the list |
| Vm.Machine.Walkpgdir | vm.c:35-55 | The table of the page; a new zeroed one if asked and memory is left; no mapping changes |
| Vm.Machine.Mappages | vm.c:60-80 | The page in hand becomes the next page of the directory, or no page was left for a table and nothing changed |
| Vm.Machine.Deallocuvm | vm.c:255-279 | With its skip over missing tables it leaves exactly what the page-by-page scan leaves |
| Vm.Machine.Allocuvm | vm.c:221-249 | Exactly if enough pages are free for the new range and the tables it lacks, the range is mapped to zeroed pages that were free; else the old mappings are back, every new user page is free again and the result is 0 |
| Vm.Machine.Freevm | vm.c:283-298 | Each user page, table and the directory is on the free list once; every other page and mapping is untouched |
| Vm.Machine.Copyuvm | vm.c:315-343 | Succeeds exactly when enough pages are free; else the copy is gone and a page is lost exactly when memory ran out at a table, by the number of free pages |
| Vm.Machine.CopyWithOnePage | vm.c:315-343 | With one free page the copy of anything takes that page and loses it |
| Vm.CopyIsSeparate | vm.c:315-343 | A successful copy has equal contents and flags on pages that the original does not map |
| FreeList.LinkRing | umalloc.c:33-42 | A block linked into its gap keeps the ring circular, address-ordered and disjoint |
| FreeList.MergeRing | umalloc.c:33-41 | So does merging two blocks that touch |
| FreeList.UnlinkRing | umalloc.c:76-77 | So does taking a whole block out |
| Umalloc.FreeSummary | umalloc.c:24-44 | free covers exactly the old free units and the block's, fully coalesced, with as many units |
| Umalloc.RequestIsEnough | umalloc.c:69 | The units asked for suffice if and only if the rounding does not wrap around |
| Umalloc.RequestFitsSbrk | umalloc.c:54 | The requests for which sbrk gets a positive byte count |
| Umalloc.MorecoreGetsMemory | umalloc.c:46-61 | When sbrk succeeds, the units that morecore frees are part of the process if and only if the request is at most 2^31 - 16 bytes, or so large that its rounding wraps |
| Umalloc.Allocator.constructor | umalloc.c:21-22 | Before the first call the allocator is empty and valid |
| Umalloc.Allocator.FindGap | umalloc.c:29-32 | The search ends at the gap that holds the block |
| Umalloc.Allocator.Relink | umalloc.c:33-42 | The header updates are: link the block into the gap, then merge each neighbour that it touches |
| Umalloc.Allocator.Free | umalloc.c:24-44 | The block leaves the allocated ones and its units become free; ring, coalescing, disjointness and unit count are kept |
| Umalloc.Allocator.Morecore | umalloc.c:46-61 | At least the units asked for from sbrk become free |
| Umalloc.Allocator.Malloc | umalloc.c:63-90 | A new block of the right size disjoint from all others, in memory that sbrk has returned; morecore at most once; failure only if sbrk fails and nothing free is large enough; for every request |
| Umalloc.MallocOutside | umalloc.c:46-90 | For every process size, a first request of 2 GB returns a block that is wholly outside the process |
| ShellPrinter.RoundTrip | sh.c:327-446 | Parsing the printed form of any command with at most 9 words per command, parentheses only where needed, gives the command back |
| ShellParser.LineWords | sh.c:344-446 | Every word of a parsed command is a maximal token of the line |
| Shell.NextToken | sh.c:265-308 | gettoken computes the lexer of the grammar |
| Shell.PeekAt | sh.c:310-320 | peek skips blanks and tells whether one of the characters is next |
| Shell.Redirections | sh.c:374-397 | parseredirs computes the grammar's redirections |
| Shell.ExecCommand | sh.c:415-446 | parseexec computes the grammar's simple commands and terminates |
| Shell.BlockCommand | sh.c:399-413 | parseblock computes the grammar's blocks, with its syntax errors |
| Shell.PipeCommand | sh.c:361-372 | parsepipe computes the grammar's pipelines |
| Shell.LineCommand | sh.c:344-359 | parseline computes the grammar's lists and background commands |
| Shell.NulTerminate | sh.c:448-493 | Writes a NUL at the end of every word and nowhere else |
| Shell.WordsReadBack | sh.c:448-493 | Afterwards every word reads as exactly its token though all share one buffer |
| Shell.ParseCommand | sh.c:327-342 | On every buffer: the parse of the line, or its error; every argument and file name reads as its token |

## Left out

- exec, ELF loading, system-call argument fetching, traps, context switches and segment set-up: assembly or glue.
- Devices other than the memory disk, device inodes, the console.
- The inode cache (iget, iput's reference counts, ilock): inodes are numbered records; the last iput is a step of Links.
- The bytes of the bitmap and of the inode blocks: a bitmap is a sequence of bits, an inode a record with its words.
- The interplay of inode locks: calls on one directory are taken as the sections that its inode lock makes atomic.
- setupkvm and the kernel half of page tables: a directory that setupkvm made is a parameter of copyuvm.
- mappages of more than one page, which only setupkvm asks for.
- nlink's 16-bit width, and pids beyond 31 bits.
- The other user programs, printf, usertests.c and its relatives.
- Umalloc.Allocator.Malloc: requires memory that sbrk returns to be above all it returned before, which a later call breaks once sbrk has shrunk the process.
- Vm.Machine.Deallocuvm: is stated for sizes up to KERNBASE, where every caller stays; above it the skip would wrap around.
- Vm.Machine.Mappages: is stated for the next page of a growing range, which is how its user callers use it.
- Bio.Bcache.Bread: requires a block of the disk; iderw panics on any other.
- Directory.DirFile.Dirlink: takes inode numbers from 1 to 65535, which is what a record can hold.
- Mkfs.Image.IAlloc: takes a free inode number within the table, which mkfs does not check.
- Proc.PTable.Sched: leaves out the panics about the table lock, the lock depth and the interrupt flag, which the model has no state for.
- LogProtocol.StepInv: when the log overruns its area, what memory holds of a home block that is overwritten and also logged stays as logged; the disk has what the code writes up to the header.
- Log.Log.LogAppend: requires a free header slot for a block not logged yet, which CommitExcludes' bound gives in every run; the code does not test for it under the lock.
- FullDisk.TenBlocks: needs a disk of four bitmap blocks; on one of mkfs's size, with one bitmap block, a write logs fewer.
- LogCache.MapIsTheBuffers: is about log areas that the log does not overrun: bwrite of a log block is within the area.

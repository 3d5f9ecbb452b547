# Verified models of the xv6 kernel

A Dafny model of the parts of xv6 (RISC-V) whose code is far from its specification, and proofs that the
code meets that specification: the write-ahead log and the buffer cache, file contents and block
allocation, Sv39 page tables and the frame allocator, sleep/wakeup with exit/wait and the scheduler, the
user-level allocator, the virtio descriptor protocol, pipes, and grep's matcher.

Verify the project with `dafny verify dfyconfig.toml`.

## How the code is represented

* Code that changes things in place is a class whose methods have the source's branches and loops: the log
  (`LogDriver`), the cache list (`BufferCache`), page tables and frames (`Vm`, `UserSpace`, `UserCopy`,
  `UserAccess`, `Kalloc`), the file system (`FileSystem`, `FileWrites`, `FileRuns`), the heap (`Malloc` over `FreeList`),
  the disk queue (`Virtio`, `VirtioRuns`), the pipe (`Pipe`). Each method is proved against functions and
  predicates on values, and the laws are lemmas about those. The pipe, the disk queue and the files are each
  proved to answer any sequence of calls as a simple reference does: a queue of bytes, a queue of requests,
  plain byte sequences. `Riscv` has the address macros, `Words`, `Bytes`, `Counting` and `Fifo` small shared
  helpers.
* Concurrency is a state machine over atomic steps with an invariant over all reachable states: group commit
  with crashes (`LogRuns`), the cache under concurrent users (`BufferRuns`), processes and CPUs
  (`ProcMachine`, `ProcLocks`, `ProcCore`, `ProcSleep`, `ProcWait`, `ProcRuns`, `ProcFamily`). In `ProcMachine` every
  spinlock acquire and release is a step of its own; the process lock is held by a CPU and is handed over
  through swtch, as in the source; a timer interrupt may make a thread yield at every point at which it holds
  no spinlock. `Pipe` and `Virtio` take as one step what a call does between taking its lock and giving it
  up, and the device steps in between.
* What such a machine promises to those outside is stated over whole runs, from the steps taken or from the
  program points and the tables that everybody sees, and not through the histories the machine keeps:
  `LogTraces` (group commit is an atomic disk), `LogProgress` (it never gets stuck), `BufferLaws` (the cache is
  transparent and recycles the least recently used buffer), `ProcLaws` (sleep locks, wait, exit, fork, kill,
  interrupts), `ProcSched` (the state diagram, the locks of the table, the order of the schedulers). What the
  disk does with a request follows from the flags of its descriptors in `Virtio`, and file blocks are tied to
  what must be logged by position in `FsState`.
* `panic` is an outcome (`stuck`, `panic`, `Halted`), not a precondition, and where a panic is possible its
  exact condition is part of the contract.
* Each disk block write is atomic. A crash forgets memory and runs recovery, which may crash again.
* I/O and outside decisions are parameters: whether sbrk fails and where its region lies, how much of a user
  buffer can be read or written, when a process notices that it was killed, which request the device
  completes next.

## Where the code falls short of what one expects

* **log_write can panic inside its reservation.** The size test in `log_write` comes before the search for
  a block that is already in the log, and compares with `log.size - 1`; mkfs makes the log region, header
  included, just LOGSIZE = 3 * MAXOPBLOCKS blocks. `BudgetDoesNotPreventPanic` shows, for every disk of that
  shape, three operations within MAXOPBLOCKS each that reach the panic; `BuiltDiskPanics` is the case of the
  disk mkfs builds. `PanicsExactlyWhen` gives the exact condition in every run.
* **A write whose copy faults leaves its bytes in the cache.** When `either_copyin` fails, `writei` releases
  the buffer without logging it, and `copyin` may have moved the bytes of the first page already. The next
  bread of the block returns them although they are neither on disk nor in the log, until the buffer is
  recycled. `FaultingWrite` is such a run, from every initial state; `ReleaseSettles` and
  `BreadReturnsOverlay` say exactly when a buffer is as the overlaid disk, `CarefulRunIsSettled` that all are
  in runs without such a write.
* **A killed writer can strand a reader.** `pipewrite` returns -1 for a killed process without waking
  readers, although it may have put bytes into the pipe. `StrandedReader` shows it; `WriteTurn` has the exact
  condition, and `NobodyStranded` says that nobody is left asleep in runs without such a writer.
* **sbrk takes an int.** `morecore` passes an unsigned byte count; `NarrowingIsExact` says for which sizes
  sbrk gets the number meant, `NarrowingFails` is a request for which it is negative.
* **A byte can be lost on a bad read buffer.** `piperead` removes a byte before copying it out; `ReadTurn`
  says exactly when a byte is lost, and `LostByte` is a run.
* **A page can be freed twice.** `kfree` accepts a page that is on the free list; `FreedTwice` shows that it
  is then handed out twice, and `Kfree` that the list stays intact exactly otherwise.

## Model

| member | source | states |
|---|---|---|
| LogFormat.SetHead | kernel/log.c:102-114 | the header block after write_head lists exactly the logged blocks; stale entries behind them stay |
| LogFormat.LogSlotWriteKeeps | kernel/log.c:178-191 | writing a log slot beyond the committed list does not change what recovery restores |
| LogFormat.CommitPoint | kernel/log.c:99-114 | writing the header is the commit point: one block write makes all logged copies take effect |
| LogFormat.InstallKeeps | kernel/log.c:68-83 | copying one committed slot home does not change what recovery restores |
| LogFormat.ClearKeeps | kernel/log.c:193-203 | once all slots are home, clearing the header leaves the same contents and an empty log |
| LogDriver.Log.constructor | kernel/log.c:54-65 | mounting recovers: from any disk image whose header write_head wrote, the home blocks hold what the image promises and the log is empty |
| LogDriver.Log.ReadHead | kernel/log.c:86-97 | the in-memory header is the one on disk, whatever blocks it lists |
| LogDriver.Log.WriteHead | kernel/log.c:102-114 | one disk write that puts the in-memory list into the header block |
| LogDriver.Log.InstallTrans | kernel/log.c:68-83 | every disk image along the loop recovers to the same contents; at the end all home blocks are current |
| LogDriver.Log.RecoverFromLog | kernel/log.c:116-123 | recovery interrupted at any write still recovers to the same contents; completed, it leaves them in place with an empty log |
| LogDriver.Log.WriteLog | kernel/log.c:178-191 | copies the pinned blocks to the log; every image on the way recovers to the old contents |
| LogDriver.Log.Publish | kernel/log.c:196-198 | one block write turns a disk that recovers to the old contents into one that recovers to the overlaid contents |
| LogDriver.Log.Commit | kernel/log.c:193-203 | crash atomicity: before one particular write every image recovers to the old contents, from it on every image recovers to old contents overlaid with the whole transaction |
| LogDriver.Log.BeginOp | kernel/log.c:126-142 | an operation is admitted exactly when no commit runs and the log has room for every admitted operation's maximum |
| LogDriver.Log.LogWrite | kernel/log.c:214-235 | absorbs a block already listed, pins and appends a new one, panics exactly under the size and transaction tests |
| LogDriver.Log.EndOp | kernel/log.c:146-175 | only the last operation commits, atomically against crashes; a commit in progress is a panic |
| LogRuns.HeadWriteCommits | kernel/log.c:102-114 | in the group-commit machine the header write moves the durable contents from the old groups to the old groups and the new one |
| LogRuns.DiskStep | kernel/log.c:68-235 | every step of every process, of the committer and of recovery keeps the disk recoverable to the committed groups |
| LogRuns.SlotStep | kernel/log.c:126-175 | every step keeps used log entries plus unused budgets of open operations within LOGSIZE |
| LogRuns.OpStep | kernel/log.c:126-235 | every step keeps each operation's writes together in one group |
| LogRuns.QuietStep | kernel/log.c:146-203 | every step keeps: without a crash no write is dropped, and nothing is left uncommitted when the last operation ends |
| LogRuns.FaultKeeps | kernel/fs.c:497-503 | a copy that fails halfway into a block that is logged already changes what the open group will commit and nothing committed |
| LogRuns.EveryRunIsAtomic | kernel/log.c:126-235 | after any interleaving, with failing copies into logged blocks, and any crashes, recovery restores the initial contents plus the whole groups the machine recorded as committed; no commit overlaps an open operation; an operation's writes are in one group or none; that the records are what the steps did is `LogTraces.EveryRunIsAtomicDisk` |
| LogRuns.EveryFinishedWriteIsDurable | kernel/log.c:146-203 | durability: whenever the machine runs and no operation is open, every write recorded since the last crash is in a committed group; the same for what the steps wrote is `LogTraces.LastWriteIsOnDisk` |
| LogRuns.EveryRecoveryIsExact | kernel/log.c:116-123 | whenever the machine runs again after crashes, home blocks hold exactly the committed groups and the log is empty |
| LogRuns.EveryRunReserves | kernel/log.c:126-175 | in every state lh.n plus unused budgets fits LOGSIZE, log slots lie in the log region, and a new block always finds a header entry |
| LogRuns.RoomForNewBlock | kernel/log.c:214-235 | an operation within MAXOPBLOCKS distinct blocks never overflows the header array |
| LogRuns.CommittedStays | kernel/log.c:193-203 | a committed group is in every later state |
| LogRuns.PanicsExactlyWhen | kernel/log.c:219-223 | in every run log_write panics if and only if the list has size - 1 entries, or LOGSIZE entries and the block is already listed |
| LogRuns.BudgetDoesNotPreventPanic | kernel/log.c:219-223 | for every disk with log.size == LOGSIZE == 3 * MAXOPBLOCKS, a run in which an operation within its budget panics on a block new to the log |
| LogRuns.BuiltDiskPanics | kernel/param.h:9-12 | the same on the disk that mkfs builds: 30 log blocks, 1000 blocks |
| LogTraces.EveryRunIsAtomicDisk | kernel/log.c:68-235 | every run, whatever its interleaving, crashes and failing copies, is a run of an atomic disk told from the steps alone: a write is seen at once by every reader, all that is seen becomes durable together at a moment at which no operation is open, a crash goes back to what is durable, and with no operation open everything is durable and at home |
| LogTraces.DurableIsACut | kernel/log.c:126-203 | what a crash restores is what was seen at some earlier moment at which no operation was open, so of each operation all writes or none |
| LogTraces.LastWriteIsOnDisk | kernel/log.c:146-235 | of a step list: when the machine runs with no operation open, the home block holds the data of the last write of it since the last crash, also if the block was written before in the same group |
| LogProgress.DiskWorkEnds | kernel/log.c:68-123 | from every state of every run that is neither running nor stopped by a panic, at most 2 * LOGSIZE + 5 disk operations end the commit or the recovery, with the committed contents at home and an empty log |
| LogProgress.EveryoneGetsIn | kernel/log.c:126-175 | in every state of every run, whoever calls begin_op gets in once the open operations end and the log commits, if and only if MAXOPBLOCKS is at most LOGSIZE |
| BufferCache.Hit | kernel/bio.c:65-73 | the first buffer in list order that holds the block |
| BufferCache.Victim | kernel/bio.c:75-87 | the least recently used buffer nobody references |
| BufferCache.Relinked | kernel/bio.c:126-133 | brelse's six pointer assignments move exactly that buffer to the front and keep the circle |
| BufferCache.ToFrontPermutes | kernel/bio.c:117-137 | moving to the front loses and duplicates no buffer |
| BufferCache.Cache.constructor | kernel/bio.c:36-53 | binit links all buffers into one circle, all for device 0 block 0 |
| BufferCache.Cache.Bget | kernel/bio.c:58-89 | a hit takes a reference, a miss recycles the least recently used unreferenced buffer, and it panics exactly when there is none |
| BufferCache.Cache.Recycle | kernel/bio.c:76-88 | the backward scan finds the last unreferenced buffer in list order |
| BufferCache.Cache.Brelse | kernel/bio.c:116-137 | panics exactly when the caller does not hold the buffer's lock; else drops a reference, and a buffer without references becomes the most recent |
| BufferCache.Cache.Bpin | kernel/bio.c:139-144 | takes a reference, changes nothing else |
| BufferCache.Cache.Bunpin | kernel/bio.c:146-151 | drops a reference, changes nothing else |
| BufferRuns.InvStep | kernel/bio.c:58-151 | every step of every user, a release of an unlogged change included, keeps reference counts, unique names and agreement of unchanged buffers with the overlaid disk |
| BufferRuns.VictimIsUnused | kernel/bio.c:75-87 | a buffer bget recycles is named by no handle and pinned by no log entry |
| BufferRuns.CacheAgreesWithDisk | kernel/bio.c:58-112 | in every reachable state a block of a device other than 0 is in at most one buffer, and a valid buffer without unlogged changes, its block not in the log, equals its disk block |
| BufferRuns.BreadReturnsOverlay | kernel/bio.c:91-103 | bread returns what an uncached disk overlaid with logged writes would return, if and only if the buffer has no unlogged change or one that changed nothing |
| BufferRuns.ReleaseSettles | kernel/bio.c:116-137 | brelse leaves a buffer that the next user takes for the overlaid block if and only if its changes were logged or written, or changed nothing |
| BufferRuns.CarefulRunIsSettled | kernel/bio.c:58-151 | in every run whose users log what they changed before brelse, every unlocked buffer holds the overlaid block |
| BufferRuns.FaultingWrite | kernel/fs.c:497-503 | from every initial state, a run of writei with a faulting copy: the unlocked, unlogged buffer holds the copied bytes, and differs from the disk unless they were there already |
| BufferRuns.InUseIsNotRecycled | kernel/bio.c:58-89 | a referenced or pinned buffer keeps naming the same block across every step |
| BufferLaws.BreadGivesLast | kernel/bio.c:58-137 | the cache is transparent: in every run whose users log or write what they changed before brelse, bread gives the block as the last change of it in the step list left it, or as it was on disk, whatever was recycled, logged, written or read again meanwhile |
| BufferLaws.DiskIsWritten | kernel/bio.c:91-112 | in such runs the disk holds each block as it was when bwrite was last called for it, and nothing else changes it |
| BufferLaws.DiskStep | kernel/bio.c:105-112 | bwrite puts the buffer's data on its block and changes no other block; no other step changes the disk |
| BufferLaws.ListIsInOrder | kernel/bio.c:28-33 | over every run, of two buffers the one last released for good later is nearer to the front of the list |
| BufferLaws.RecyclesLeastRecent | kernel/bio.c:75-87 | over every run, a block that is not cached gets, of the buffers nobody references, one that was released for good longest ago, and no other buffer changes |
| FsState.PutBit | kernel/fs.c:90-103 | changing the bit of one block changes no other bit |
| FsState.BitLogged | kernel/fs.h:50-51 | setting or clearing the bit of a block changes one row of the bitmap, and that is the row of the block BBLOCK names |
| FsState.InodeChanged | kernel/fs.h:44-45 | storing an inode changes one place, and the block with that place, counted by position, is the one IBLOCK names |
| FsState.AttachAddr | kernel/fs.c:383-395 | storing a fresh block in addrs changes what that one slot refers to and no other |
| FsState.AttachVia | kernel/fs.c:396-401 | storing a fresh block in an indirect block changes what that one slot refers to and no other |
| FsState.AttachBytes | kernel/fs.c:377-405 | a zeroed block in place of a hole changes no byte of any file |
| FsState.WriteStep | kernel/fs.c:497-506 | a chunk written in one block is seen at its place in that file and nowhere else |
| FsState.Truncated | kernel/fs.c:409-437 | with pointers and size cleared one file is empty and all others own what they did |
| FileSystem.BitmapIsExact | kernel/fs.c:61-103 | a bitmap bit is set exactly when the block is metadata or some inode or indirect slot refers to it, and then exactly one does |
| FileSystem.Fs.Balloc | kernel/fs.c:64-86 | the first free block, marked and zeroed; whatever differs on disk, told by position of bitmap row and block, is logged, and just two blocks are; a panic exactly when none is free |
| FileSystem.Fs.Bfree | kernel/fs.c:89-103 | clears one bit, with the bitmap block that changed logged; a panic exactly when it is clear |
| FileSystem.Fs.Bmap | kernel/fs.c:377-405 | returns the block of a file block, looking up only if it is there, else attaching zeroed blocks; no file byte changes; every bitmap row and block that differs afterwards is logged, and only those of the new blocks are; it panics exactly past the largest file or when the blocks missing outnumber the free ones |
| FileSystem.MappedNew | kernel/fs.c:383-401 | a fresh block attached to one slot has the effect bmap promises |
| FileSystem.Fs.BmapDirect | kernel/fs.c:383-387 | the same for a block in the inode |
| FileSystem.Fs.BmapIndirect | kernel/fs.c:389-402 | the same through the indirect block, which is allocated first if missing |
| FileSystem.MappedAfterInd | kernel/fs.c:389-402 | a new indirect block followed by a block in it has the combined effect bmap promises |
| FileSystem.Fs.FreeDirect | kernel/fs.c:416-421 | the direct blocks of the file, and only they, lose their bits |
| FileSystem.Fs.FreeWords | kernel/fs.c:423-429 | the blocks listed in the indirect block, and only they, lose their bits |
| FileSystem.Fs.Itrunc | kernel/fs.c:407-437 | never frees a free block; the file is empty, its blocks are free, every other file keeps its blocks; every bitmap row and inode that differs afterwards is logged, by position, and only the bitmap blocks of the freed blocks and the inode block are |
| FileSystem.TruncationBound | kernel/fs.c:407-437 | itrunc logs at most the bitmap blocks and one more, however large the file |
| FileSystem.Fs.Readi | kernel/fs.c:455-477 | returns exactly the slice of the file's byte sequence, clipped at the end, and allocates or changes nothing; -1 exactly when the destination is too short, after it was filled |
| FileSystem.Fs.Iupdate | kernel/fs.c:221-237 | the on-disk inode is the in-memory one, no other changes, and the block that holds its position is logged |
| FileWrites.ChainStep | kernel/fs.c:497-506 | successive bmap calls return successive blocks of the file, each new exactly if it was missing at the start |
| FileWrites.NotYet | kernel/fs.c:497-506 | writei maps no block twice |
| FileWrites.StillEmpty | kernel/fs.c:497-506 | a slot of any file that was empty at the start of writei, apart from those of the mapped blocks and the indirect block, is empty still |
| FileWrites.MissingNext | kernel/fs.c:497-506 | what each bmap call of writei has to allocate can be told from the state at its start |
| FileWrites.Writei | kernel/fs.c:486-517 | overwrites one file's byte sequence, extending it if need be; other files unchanged; exact refusals; of the bytes that can be read, those of a chunk that fails halfway are in the file up to its end but are neither counted nor logged; every bitmap row, block and inode that differs afterwards is logged, by position, apart from the block of such a chunk; a panic exactly when the blocks missing under the write outnumber the free ones |
| FileWrites.WriteLoop | kernel/fs.c:497-506 | the loop stops at n or at the first chunk the user copy fails for, whose readable bytes are in the block; it panics exactly when the blocks it asks for, the indirect block included, outnumber the free ones |
| FileWrites.WriteLogged | kernel/fs.c:497-515 | what differs on disk after the loop is logged, except the one block whose copy failed |
| FileWrites.Resized | kernel/fs.c:508-509 | raising the size over present blocks makes no hole |
| FileWrites.WroteFiles | kernel/fs.c:486-517 | the byte-level effect of writei is the overwrite of one byte sequence, cut at its new end |
| FileWrites.ReachedWith | kernel/fs.c:497-506 | after writei exactly the blocks under it are there that were not before, and the free blocks are fewer by just these and the indirect block |
| FileWrites.TransactionBound | kernel/file.c:148-175 | a chunk of at most three blocks, at any offset of a file without holes, logs at most MAXOPBLOCKS distinct blocks |
| FileTight.BoundIsReached | kernel/file.c:148-175 | a file system and a write of three blocks that logs exactly MAXOPBLOCKS distinct blocks |
| FileTight.TenDistinct | kernel/file.c:148-155 | the ten blocks: inode, last data block, three new data blocks, new indirect block, four bitmap blocks |
| FileRuns.NeedSplit | kernel/file.c:154-172 | the blocks two overlapping writes in a row need are those one write over both needs |
| FileRuns.WriteOp | kernel/file.c:161-167 | one transaction of filewrite is one writei call and logs at most MAXOPBLOCKS blocks; exact panic condition |
| FileRuns.FileWrite | kernel/file.c:135-181 | what the file, the offset and the result are, from the arguments alone: the readable bytes up to the largest size are written, n is returned exactly if that is all of them and -1 otherwise; the states between the transactions, each one writei call of at most three blocks apart with at most MAXOPBLOCKS blocks logged, those that differ among them, the last one being the final state; a panic exactly when the blocks missing under the whole write outnumber the free ones at the start |
| FileRuns.StopsAt | kernel/fs.c:497-506 | how many bytes a faulting write counts is determined by the chunk boundaries |
| FileRuns.Run | kernel/fs.c:407-517 | any sequence of writei, itrunc and readi on any files, with user copies that fail anywhere, answers as plain byte sequences would, up to the first write for which the free blocks do not suffice |
| Riscv.PteRoundTrip | kernel/riscv.h:347-352 | a page address and flags packed in an entry come back |
| Riscv.EntryParts | kernel/vm.c:154 | the entry mappages makes has the page address and the flags it was made of, and PTE_V |
| Riscv.EntryFlags | kernel/riscv.h:341-352 | testing PTE_V or PTE_U in an entry, and clearing PTE_U, is doing so in its flags, and leaves the address alone |
| Riscv.RoundUp | kernel/riscv.h:338 | the first page boundary at or above, unless the sum wraps |
| Riscv.RoundDown | kernel/riscv.h:339 | the last page boundary at or below |
| Riscv.IndicesRebuild | kernel/riscv.h:354-357 | the three indices and the page offset make up a 39-bit address |
| Riscv.DigitsRebuild | kernel/riscv.h:354-357 | the same of the indices as arithmetic, as the page tables use them |
| Kalloc.Kmem.constructor | kernel/kalloc.c:26-31 | after kinit the list holds exactly the whole pages of the range, each once |
| Kalloc.Kmem.FreeRange | kernel/kalloc.c:33-40 | puts exactly the whole pages of the range on the list |
| Kalloc.Kmem.Kfree | kernel/kalloc.c:46-63 | pushes a page; a panic exactly when it is not a page of the range; the list stays a list exactly unless the page was on it |
| Kalloc.Kmem.Kalloc | kernel/kalloc.c:68-82 | follows the list pointer, whatever the pointers are; if they spell out a list, pops the page freed last, or 0 when there is none |
| Kalloc.Kmem.FreedTwice | kernel/kalloc.c:46-82 | after two kfree calls for a page the next two kalloc calls both return it |
| PageTree.HangKeepsTree | kernel/vm.c:87-95 | hanging an empty table keeps the tree: every table page has one parent entry |
| PageTree.HangKeepsLookup | kernel/vm.c:87-95 | making a missing table changes no translation |
| PageTree.SetEntry | kernel/vm.c:97-98 | writing a bottom-level entry changes the lookup of that path only |
| PageTree.PruneKeepsTree | kernel/vm.c:270-277 | clearing an entry cuts off exactly the subtree below it |
| Vm.PathDigits | kernel/riscv.h:354-357 | the three indices are the base-512 digits of the page number, from `DigitsRebuild` |
| Vm.PathInjective | kernel/riscv.h:354-357 | two pages never share a path |
| Vm.SetPage | kernel/vm.c:97-98 | writing one entry changes the translation of one page |
| Vm.Memory.NewTable | kernel/vm.c:90-94 | a fresh table from a free frame, hung where the walk needs it |
| Vm.Memory.Walk | kernel/vm.c:80-98 | finds the entry of va, making missing tables if asked; no translation changes, frames move only from the free list into the tree, one for each missing table; null exactly when a table is missing and may not be made, or the missing tables outnumber the free frames; panic exactly beyond MAXVA |
| Vm.Memory.WalkAddr | kernel/vm.c:103-121 | the frame of a page below MAXVA whose entry is valid and has the PTE_U bit, else null |
| Vm.Memory.MapPages | kernel/vm.c:137-160 | insertion of a run of pages into the finite map from pages to frame and flags; every other translation unchanged; takes exactly one frame for each table the run lacks; succeeds exactly when the run is not empty, lies below MAXVA, has no mapped page and the tables it lacks do not outnumber the free frames; fails only for lack of frames, panics only otherwise |
| Vm.Memory.UvmUnmap | kernel/vm.c:165-187 | deletion of a run of pages, giving back exactly their frames if asked; panics exactly at an unmapped or non-leaf page |
| Vm.Memory.FreeWalk | kernel/vm.c:266-282 | gives back exactly the table frames of the subtree, each once; a panic exactly when a page is still mapped there |
| Vm.Memory.UvmCreate | kernel/vm.c:191-200 | an empty address space, or null exactly when no frame is free |
| Vm.Memory.AllocPage | kernel/vm.c:229-242 | one page mapped to a fresh frame, or the mappings as before and the frame back; succeeds exactly when there are frames for it and its missing tables |
| Vm.UsedTwice | kernel/vm.c:80-98 | frames taken for tables by successive walks add up to the tables all of them lack together |
| Vm.CostsMore | kernel/vm.c:229-242 | a page for which a frame is missing makes the whole request cost more than was free |
| UserSpace.UvmDealloc | kernel/vm.c:250-262 | gives back exactly the frames of the pages above the new size |
| UserSpace.UvmAlloc | kernel/vm.c:220-244 | all new pages zeroed and mapped, or 0 with the old mappings restored; no frame lost either way; succeeds exactly when the new pages and the tables missing for them do not outnumber the free frames |
| UserSpace.UvmFree | kernel/vm.c:286-292 | gives back exactly the frames the address space holds |
| UserSpace.Lifetime | kernel/vm.c:191-292 | created, grown and shrunk in any order, failed growth included, then freed: the free frames are those at the start |
| UserSpace.CopyPage | kernel/vm.c:308-321 | one page copied to a frame of its own with the same flags, or nothing changed |
| UserSpace.UndoCopy | kernel/vm.c:325-327 | the pages copied so far are unmapped and their frames given back |
| UserSpace.UvmCopy | kernel/vm.c:300-328 | equal contents and flags in disjoint frames, or nothing mapped and all frames back but tables; the parent untouched; succeeds exactly when the pages and their tables do not outnumber the free frames |
| UserCopy.CopyOut | kernel/vm.c:346-366 | succeeds exactly when every page of the range is a mapped user page; writes exactly the range, or exactly its bytes before the first page that is not, and changes no frame of another address space |
| UserCopy.CopyIn | kernel/vm.c:371-391 | succeeds exactly when every page is a mapped user page; then returns the bytes of the range |
| UserCopy.CopyRoundTrip | kernel/vm.c:346-391 | copyout then copyin over any page-crossing range returns the bytes written |
| UserCopy.CopyInStr | kernel/vm.c:397-434 | succeeds exactly when a NUL lies within max bytes on accessible pages; returns the bytes up to the first NUL |
| UserCopy.Scan | kernel/vm.c:412-427 | the inner loop copies up to the first NUL of one page |
| UserAccess.UvmClear | kernel/vm.c:330-341 | one entry loses the PTE_U bit and nothing else changes; a panic exactly when the page has no table |
| UserAccess.ClearedRange | kernel/vm.c:103-121 | after uvmclear a range is accessible if and only if it was before and has no byte of that page |
| UserAccess.GuardPage | kernel/exec.c:67-76 | copies to and from a range that reaches into a cleared page fail, copyout writes at most the bytes before it, and copyinstr finds no string that goes on into it |
| UserAccess.NewPagesAccessible | kernel/vm.c:220-244 | the pages uvmalloc adds can be copied to and from |
| UserAccess.CopyReadsSame | kernel/vm.c:300-328 | the copied address space reads as the original at every byte and is as accessible |
| UserAccess.ForkIsolates | kernel/vm.c:300-366 | after uvmcopy, whatever the child writes with copyout, the parent reads every byte as before, and the child reads what it wrote and else what the parent had |
| ProcLocks.LockMove | kernel/proc.c:437-503 | what one CPU does to its own locks keeps: a lock is held exactly by the CPU whose thread is at a point that holds it |
| ProcCore.LockedElsewhere | kernel/proc.c:437-492 | a process whose lock another CPU holds is running or on no CPU |
| ProcCore.CoreMove | kernel/proc.c:269-597 | a step of a thread that respects the locks keeps lock ownership, one CPU per process and fork's slot |
| ProcCore.ThreadFits | kernel/proc.c:104-597 | every step of yield, sleep, wakeup, kill, fork, exit, wait, acquiresleep and releasesleep respects the locks |
| ProcCore.FitsYield | kernel/trap.c:152-154 | a timer interrupt at any point without a spinlock, the scans of fork and kill and the way back from sleep included, respects the locks and fork's slot |
| ProcCore.SchedulerCore | kernel/proc.c:437-492 | every scheduler step and context switch, with the lock handed over, keeps those invariants |
| ProcSleep.Exclusive | kernel/proc.c:528-573 | two CPUs never hold the same spinlock |
| ProcSleep.NoLostKept | kernel/sleeplock.c:21-41 | every thread step keeps: who waits for a sleep lock finds it held or a wakeup scan still to come |
| ProcSleep.SleepThread | kernel/sleeplock.c:21-41 | every step of every thread keeps the sleep-lock invariant |
| ProcWait.NewChild | kernel/proc.c:323-379 | making a ZOMBIE, or init adopting one, never leaves its parent asleep without a wakeup to come |
| ProcWait.WaitThread | kernel/proc.c:323-428 | every step of every thread keeps the exit/wait invariant |
| ProcRuns.OneCpuPerProcess | kernel/proc.c:437-465 | in every reachable state a RUNNING process is current on exactly one CPU |
| ProcRuns.SafeToSchedule | kernel/proc.c:447-462 | the scheduler never switches to a process while any CPU is on its kernel stack |
| ProcRuns.SafeToReuse | kernel/proc.c:104-167 | no slot is freed by wait, given up by fork or handed out by allocproc while any CPU is on its kernel stack |
| ProcRuns.NoLostWakeup | kernel/sleeplock.c:21-41 | in every reachable state a process SLEEPING on a sleep lock finds it held, or a releaser whose wakeup scan has not passed it; what the lock is good for is `ProcLaws.SleepLockExcludes` |
| ProcRuns.NoMissedExit | kernel/proc.c:323-428 | whenever wait_lock is free no process sleeps, or is about to, in wait while it has a ZOMBIE child, adopted ones included |
| ProcRuns.ReapedOnce | kernel/proc.c:383-428 | whenever wait reaps, it is a ZOMBIE child of its caller whose pid was never returned before; the slot becomes UNUSED and the pid is recorded |
| ProcRuns.OnlyWaitReaps | kernel/proc.c:383-428 | the record of returned pids changes only in a step in which wait reaps |
| ProcRuns.EveryPidReturnedOnce | kernel/proc.c:336-428 | in no run does wait return a pid twice, to whichever parents |
| ProcRuns.NextInv | kernel/proc.c:269-597 | every step of the machine keeps the whole invariant |
| ProcFamily.ParentLives | kernel/proc.c:321-334 | in every reachable state the parent of a process is alive: nobody is left an orphan, and after an exit the parent is init |
| ProcFamily.WaitGivesUp | kernel/proc.c:383-428 | wait gives up if and only if its caller has no children or is killed, and otherwise sleeps; either way none of the children is a ZOMBIE |
| ProcLaws.SleepLockExcludes | kernel/sleeplock.c:21-41 | mutual exclusion over whole runs by program points: between two returns from acquiresleep of one lock, whoever calls, it is given up in releasesleep |
| ProcLaws.AcquireLocks | kernel/sleeplock.c:21-31 | acquiresleep returns only from its check, from a lock that was free and is then taken, and sleeps only on a taken one |
| ProcLaws.BlocksOnlyIfTaken | kernel/sleeplock.c:21-31 | who sleeps in acquiresleep does so for a lock that somebody took and nobody gave up since |
| ProcLaws.ReleaseStarts | kernel/sleeplock.c:33-41 | releasesleep gives the lock up before it wakes anybody |
| ProcLaws.WaitReturns | kernel/proc.c:383-428 | wait returns only by giving up or after it found a ZOMBIE |
| ProcLaws.WaitEnds | kernel/proc.c:399-417 | wait comes to its end only with a ZOMBIE child of the caller, whose slot it frees and whose pid it records, unless the copy of the status failed, which leaves the child as it was |
| ProcLaws.ExitIsFinal | kernel/proc.c:336-379 | exit never returns: the process stays in it, a ZOMBIE from when it leaves the CPU |
| ProcLaws.KillHits | kernel/proc.c:575-599 | kill that returns 0 marked the process with that pid, which is then not asleep, and touched no other |
| ProcLaws.KillPasses | kernel/proc.c:583-599 | kill passes over a slot only if its pid is another, and returns -1 only at the end of the table |
| ProcLaws.KilledStays | kernel/proc.c:150-167 | only kill marks a process, by its pid, and the mark stays until the slot is freed |
| ProcLaws.ForkReturns | kernel/proc.c:271-319 | fork returns with a child, or after giving back the slot it had claimed, or at the end of the table |
| ProcLaws.ForkPasses | kernel/proc.c:104-118 | allocproc passes over a slot only if it is in use |
| ProcLaws.ForkMakesChild | kernel/proc.c:305-319 | fork returns with a RUNNABLE child of the caller that starts in the kernel, with a pid that nobody has and wait never returned |
| ProcLaws.InterruptComesBack | kernel/trap.c:152-160 | a thread that yields at a timer interrupt comes back to the point where it was, over any run |
| ProcSched.StateDiagram | kernel/proc.h:83-89 | in every run a process changes state only along the edges of the diagram, each made by a thread at the one place for it, on a CPU that holds the lock of the process, or by a scheduler that holds it and starts a RUNNABLE process; a sleeper gets up only by a wakeup on its own channel or by kill |
| ProcSched.RowIsGuarded | kernel/proc.h:88-93 | state, channel, killed flag and pid of a process change only in steps of a CPU that holds the lock of the process |
| ProcSched.ParentIsGuarded | kernel/proc.h:95-96 | the parent of a process changes only in steps of a CPU that holds wait_lock |
| ProcSched.InTurn | kernel/proc.c:444-464 | over every run a scheduler looks at the processes one after the other, around the table |
| ProcSched.EveryoneIsExamined | kernel/proc.c:444-464 | while a scheduler lets go of as many processes as the table has, it looks at every one |
| ProcSched.FoundIsRun | kernel/proc.c:448-463 | a process the scheduler finds RUNNABLE stays so until the scheduler runs it; it is let go of unrun only if it is not RUNNABLE |
| FreeList.LinkIn | user/umalloc.c:34-42 | linking a block in keeps the list circular, ordered and without touching blocks |
| FreeList.LinkOver | user/umalloc.c:34-42 | merging or unlinking keeps the list circular, ordered and without touching blocks |
| FreeList.FreedParts | user/umalloc.c:33-42 | after free every unit of memory still belongs to exactly one block |
| FreeList.TailParts | user/umalloc.c:78-82 | splitting off a tail keeps the partition |
| Malloc.Heap.Find | user/umalloc.c:30-32 | the circular search ends at the node the block belongs after |
| Malloc.Heap.Free | user/umalloc.c:24-44 | the block and its touching free neighbours become one free block; list order, separation and the exact partition kept; freep is the free block just below it |
| Malloc.Heap.MoreCore | user/umalloc.c:46-61 | a region of exactly the size asked for, at least 4096 units, joins the free list, so that a block of the size is there; exact outcome for sizes sbrk's int cannot hold |
| Malloc.Heap.Search | user/umalloc.c:74-88 | the search ends, and finds a block if and only if some free block is large enough; it is the first such behind freep |
| Malloc.Heap.Malloc | user/umalloc.c:63-90 | a block not in use before, of exactly the units needed; from the memory at hand if some free block has room, then the tail of the first one behind freep, where the next search starts, and exactly otherwise from one new region; null if and only if nothing has room and sbrk fails |
| Malloc.Run | user/umalloc.c:24-90 | after every call of any sequence of malloc and free, the user's blocks, as the results give them, lie in memory obtained from sbrk and do not overlap; null only where sbrk fails, new memory only with a block and of the exact size; the heap returned is the ordered circular list without touching neighbours, and free list and user's blocks partition the memory obtained |
| Malloc.UnitsFor | user/umalloc.c:69 | the units asked for hold the payload and a header, with less than a header to spare |
| Malloc.AtLeastPage | user/umalloc.c:52-53 | the request or 4096 units, whichever is more |
| Malloc.NarrowingIsExact | user/umalloc.c:54 | sbrk gets the intended byte count if and only if fewer than 2^27 units are asked for |
| Malloc.NarrowingFails | user/umalloc.c:54 | a request for which sbrk is told to shrink the process |
| Virtio.Disk.AllocDesc | kernel/virtio_disk.c:144-154 | takes the first free descriptor; -1 exactly when none is free |
| Virtio.Disk.FreeDesc | kernel/virtio_disk.c:157-170 | clears and frees a descriptor; panics exactly when out of range or free |
| Virtio.Disk.Alloc3Desc | kernel/virtio_disk.c:189-201 | three descriptors or none; fails exactly when fewer than three are free |
| Virtio.Disk.Submit | kernel/virtio_disk.c:203-269 | queues a request on three free descriptors whose addresses and direction flags let the device carry it out, or must sleep exactly when NUM / 3 requests are outstanding |
| Virtio.Disk.DeviceTake | kernel/virtio_disk.c:259-265 | the device reads the oldest request exactly as submitted, however often the 16-bit index wraps |
| Virtio.Disk.DeviceComplete | kernel/virtio_disk.c:283-302 | the device may complete any request it has read: it moves the data the way the flags allow and sets the status; no used-ring entry in use is overwritten |
| Virtio.ExecutesShown | kernel/virtio_disk.c:226-253 | a device that goes by header and descriptor flags, refusing a data descriptor whose direction does not fit the request, carries out exactly the request that was formed |
| Virtio.Disk.HandleOne | kernel/virtio_disk.c:299-312 | the oldest completion is handled once, for its own buffer, and never with a bad status |
| Virtio.Disk.CompleteAll | kernel/virtio_disk.c:289-299 | the device completes any list of the requests it has read, in any order |
| Virtio.Disk.Round | kernel/virtio_disk.c:299-312 | one round during which the device first completes any list of requests |
| Virtio.Disk.Intr | kernel/virtio_disk.c:282-315 | with any completions arriving before any round, the interrupt handler reports in completion order what was there and what came in, up to the first round that finds the used ring empty; the data moved are those of the requests that completed |
| Virtio.Disk.FreeChain | kernel/virtio_disk.c:173-185 | frees exactly the three descriptors of the chain and never a free one |
| Virtio.Disk.Finish | kernel/virtio_disk.c:271-279 | gives the chain back and leaves every other chain alone |
| Virtio.Disk.FewOutstanding | kernel/virtio_disk.c:203-315 | at most NUM / 3 requests are outstanding, so no ring slot in use is overwritten |
| Virtio.NewChain | kernel/virtio_disk.c:219-251 | each descriptor stays free or in exactly one in-flight chain when a request is formed |
| Virtio.DropChain | kernel/virtio_disk.c:173-185 | and when its chain is given back |
| Virtio.LinePop | kernel/virtio_disk.c:299-311 | a 16-bit consumer index finds the oldest entry and tells an empty ring |
| VirtioRuns.Run | kernel/virtio_disk.c:203-315 | in every run, with completions in any order and indices wrapping, the driver and the device answer as a queue of at most NUM / 3 requests does: each request accepted, started as submitted, reported, and with the data of the block in the buffer or of the buffer in the block when the caller wakes up |
| VirtioRuns.StartedInOrder | kernel/virtio_disk.c:259-265 | the device starts the accepted requests in order, each as it was made |
| VirtioRuns.ReportedInOrder | kernel/virtio_disk.c:299-312 | reports come in completion order, each completion is reported or still waits, none twice |
| VirtioRuns.ReportedOnce | kernel/virtio_disk.c:299-312 | every report answers an open request for its buffer, and no buffer has two |
| VirtioRuns.BlockChanges | kernel/virtio_disk.c:203-279 | a block changes only when a write of it completes, to what the buffer held, and a read leaves the block in its buffer |
| VirtioRuns.BufferChanges | kernel/virtio_disk.c:255-274 | while its request is in flight a buffer changes only when that completes |
| VirtioRuns.BlockStays | kernel/virtio_disk.c:203-315 | over any acts without a completed write of it a block holds what was written last |
| VirtioRuns.DoRw | kernel/virtio_disk.c:203-269 | a call of virtio_disk_rw is accepted, sleeps or waits for its buffer as in the queue |
| Pipe.Pipe.WriteTurn | kernel/pipe.c:76-103 | appends what fits, sleeps exactly when full, fails exactly when the readers are gone or the writer is killed; leaves a reader stranded exactly when the writer is killed after a byte, before it is done, fills the pipe up or faults |
| Pipe.Pipe.ReadTurn | kernel/pipe.c:105-130 | returns the next bytes of the history, sleeps exactly when empty with writers open, loses one byte exactly when the buffer ends before the bytes do |
| Pipe.Pipe.Close | kernel/pipe.c:58-74 | wakes the other side; the pipe goes away exactly when both sides are closed |
| Pipe.Pipe.Do | kernel/pipe.c:58-130 | every turn does to the pipe, and answers, what the queue of bytes says |
| Pipe.Counters | kernel/pipe.c:88-95 | wrapped 32-bit counters tell full, empty and the ring slot exactly |
| Pipe.Run | kernel/pipe.c:58-130 | any turns of readers and writers, faulting buffers included, are answered as the queue of bytes answers them, however often the counters wrap |
| Pipe.FirstInFirstOut | kernel/pipe.c:76-130 | bytes leave in the order they came; what leaves is what is delivered and the byte lost per failed copy; at most PIPESIZE are inside |
| Pipe.NobodyStranded | kernel/pipe.c:58-130 | in runs in which no writer is killed halfway, nobody sleeps on a pipe that could serve it |
| Pipe.StrandedReader | kernel/pipe.c:84-87 | a run in which a killed writer leaves a reader asleep on a pipe with data |
| Pipe.LostByte | kernel/pipe.c:120-126 | a run in which a byte is delivered to nobody |
| Grep.HereAtom | user/grep.c:91-92 | one character, then the rest of the pattern |
| Grep.HereStar | user/grep.c:96-104 | a starred character takes up any run that fits it |
| Grep.MatchHere | user/grep.c:83-94 | true exactly when the text begins with a string of the pattern's language |
| Grep.MatchStar | user/grep.c:97-104 | true exactly when some run of c is followed by a match of the rest |
| Grep.Match | user/grep.c:70-80 | true exactly when the text contains a string of the pattern's language, with ^ and $ |
| Grep.ParseRender | user/grep.c:83-94 | a pattern written from characters, starred characters and a final $ is read as just those |
| Grep.EveryPatternIsWritten | user/grep.c:83-94 | every string is such a pattern |
| Grep.LiteralMatches | user/grep.c:70-94 | of a literal: alone it matches the texts that contain it, after ^ those that begin with it, before $ those that end in it, between both itself only |
| Grep.StarMatches | user/grep.c:96-104 | c* stands for any number of c, .* for anything |
| Grep.DotMatches | user/grep.c:91-92 | a dot stands for exactly one character |

## Left out

- LogDriver.Log.constructor: the header must list at most LOGSIZE distinct home blocks, as write_head writes it; the source reads any header, past the end of its array if the count is larger.
- LogDriver.Log.ReadHead: a count of at most LOGSIZE, the length of the array it fills.
- LogDriver.Log.RecoverFromLog: the same headers as the constructor.
- LogDriver.Log.BeginOp: one pass of the waiting loop; the sleep and the wakeup in end_op are steps of `LogRuns`, not of the method.
- BufferRuns.InvStep: of the callers it is assumed that bwrite never contradicts the log and that a buffer is unpinned after it was written home, as in install_trans.
- FileWrites.Writei: the unlogged bytes of a chunk that failed halfway are seen here from then on, as long as their block stays cached; that they are gone when the buffer is recycled is not modelled here, how the buffer differs from disk and log is `BufferRuns.FaultingWrite`. After a panic for lack of blocks nothing is said about the disk.
- FileWrites.WriteLoop: the same.
- FileRuns.FileWrite: the same.
- FileRuns.Run: the same.
- Vm.Memory.FreeWalk: entries of a bottom table are readable, writable or executable, as all callers of mappages make them; freewalk would take others for pointers to tables.
- UserSpace.UvmAlloc: sizes up to TRAPFRAME; above it mappages would find the trapframe mapped and panic, and those mappings are not modelled.
- UserSpace.UvmCopy: table frames made for the new address space before a failure stay in it and come back with uvmfree.
- Malloc.Heap.Malloc: sizes are unbounded, so a size field beyond 32 bits is not modelled; sbrk regions are aligned to headers and lie above earlier ones.
- Blocks have typed views (bits, block numbers, bytes) in `FsState`, and frames have two (page table, bytes) in `Vm`; the byte layout that relates the views is not modelled.
- The index macros of `Riscv` are there on 64-bit words and as arithmetic; that both give the same numbers is stated through how they rebuild an address, not bit by bit. Page table entries are a frame number, a valid mark and the other flag bits; `EntryParts` and `EntryFlags` say how these lie in the word.
- BufferLaws.BreadGivesLast: for users that log or write what they changed before brelse; what happens otherwise is `BufferRuns.FaultingWrite`.
- BufferLaws.DiskIsWritten: the same.
- LogProgress.EveryoneGetsIn: that the others do end their operations, and that the waiter is then the next to run, is up to them and the scheduler.
- ProcSched.EveryoneIsExamined: a CPU whose process never gives it up has no such turns; the timer makes it yield.
- `Vm` keeps the free list as a sequence of frames; that the list threaded through the pages behaves so is `Kalloc`.
- Bit masks inside bitmap bytes; inode fields other than addrs and size; link counts, directories and path lookup; ialloc and the inode cache.
- "No holes below the size" is part of the initial state of the file system; mkfs rounds up the size of the root directory by itself.
- Kernel page tables, the trampoline and trapframe mappings, growproc, exec apart from its guard page; user sizes are unbounded up to TRAPFRAME.
- Spinlock internals, memory fences and interrupt disabling; pids are unbounded; wakeups on channels other than sleep locks and wait.
- Short critical sections in `ProcMachine` are an acquire step and one step for the body with its release.
- In `LogRuns` and `BufferRuns` a process does one cache or log operation per step; the locks that make it so are not modelled there.
- MMIO registers, feature negotiation, and lengths in descriptors; a sector is one value in `Virtio`, and the disk is a sequence of blocks in the log and cache models.
- console, UART, PLIC, traps other than the timer's yield, printf, sysfile.c, the shell and the other user programs, mkfs apart from the layout it fixes.
- Junk fill of freed pages and lock names.

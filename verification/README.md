# xv6 with kernel threads: a verified model

Dafny models of the parts of an xv6 kernel, extended with kernel threads, mutexes and a tournament
tree, whose correctness is hardest to see from the code, with proofs of what they promise. The
whole project is checked by `dafny verify dfyconfig.toml`.

| files | what they model |
|---|---|
| Blocks, Sets, RedoLog, Log, GroupCommit, TracedLog | the write-ahead log: block formats, crash and recovery, log.c as code, every interleaving of system calls, commits, crashes and recoveries, and log.c as a run of those |
| FsSpec, FsCount, FileSystem, FileWrite, TightChunk, LoggedFiles | block and inode allocation, files as byte sequences, exact accounts of free and logged blocks, write transactions and what a crash leaves of them when their calls overlap |
| BufferCache | the LRU buffer cache |
| Umalloc | the user-level allocator |
| Mutexes, Scheduler, SleepWakeup | kernel mutexes with direct handoff, process and thread states, sleep and wakeup |
| Tournament, TreeOnKernel | the tournament tree, alone and on top of the kernel's mutexes |
| VmSpec, VmCount, Vm | page tables and the page allocator |
| Pipes, Regex, Shell, ShellParser | pipes, grep's matcher, the shell's parser |

Code that updates state in place is modelled by classes whose methods follow the source's loops and
branches and are proved against specification functions; protocols are state machines whose steps are
the stretches of code between acquire and release (log_write's test, made without the lock, is a step of
its own), and results about them hold in every state of every run. A panic of the kernel is an outcome
(`Panic`, `None`, a flag), and when it happens, or that it cannot, is proved. Input from outside (what
sbrk answers, who was killed, where a crash falls) is a parameter.

Where the code does less than its comments or its documentation say, the model follows the code and
the exact condition is proved:

- An on-disk log of LOGSIZE blocks, which mkfs.c makes, is one block short of what begin_op reserves
  (`GroupCommit.BudgetsHonouredIff`), and a log that is full refuses even a block it already holds
  (`GroupCommit.FullLogRefusesAbsorption`).
- log_write tests the size of the log before it takes the lock, so with a log of 2 to LOGSIZE blocks
  two calls can pass the test together and make the log too long for its area; with more than LOGSIZE
  blocks the reservations alone keep it inside (`GroupCommit.LogBoundedIff`). With 2 to LOGSIZE-1
  blocks commit then writes past the area, into a home block. With LOGSIZE blocks it does not: such a
  log pins all NBUF buffers, and bget panics before commit has written anything, so that a crash still
  loses nothing (`GroupCommit.CrashSafeIff`, `GroupCommit.CommitMayPanicIff`).
- malloc near 2 GB and 4 GB asks sbrk for a negative or zero amount, or returns a block without payload
  (`Umalloc.RequestHonoured`, `Umalloc.RequestMisread`).
- A tournament tree of depth 32 or more has fewer nodes than its depth calls for
  (`Tournament.TreeSizeRight`). The tree accepts ids that have no leaf (`Tournament.LeafInRange`), and
  its `tid` is not initialised: it is right from the first acquire on (`Tournament.TidStartsUnset`,
  `Tournament.CriticalSection`).
- The shell opens the file of `>>` exactly like that of `>` (`ShellParser.Parser.ParseRedirs`).

## Model

| member | source | states |
|---|---|---|
| Blocks.WordOfPutWord | fs.c:391-396 | storing one 32-bit word of a 512-byte block and reading any word back: only that word has changed |
| Blocks.BitOfPutBit | fs.c:64-75 | setting or clearing one bit of a bitmap block changes that bit and no other of the 4096 |
| RedoLog.HeadOfPutHead | log.c:84-113 | write_head and read_head are inverse: the list of logged block numbers survives the on-disk header |
| RedoLog.RecoverTwice | log.c:115-122 | a finished recovery leaves an empty log, and a second recovery changes nothing |
| RedoLog.RecoverAfterPrefix | log.c:115-122 | recovery stopped after any number of its block writes and run again ends in the very same disk |
| RedoLog.UpdatedAt | log.c:69-82 | installing a transaction gives each logged block its new data and leaves every other block alone |
| RedoLog.CommitLogOnly | log.c:177-202 | up to the header write a commit has touched log blocks only, and they hold the data in order |
| RedoLog.AtCommitPoint | log.c:192-202 | at the header write no home block has changed, and what the commit has left to write is exactly what a recovery would write |
| RedoLog.AfterCommitPoint | log.c:192-202 | from the header write on, a crash after any write recovers to the whole transaction |
| RedoLog.CrashAtomicity | log.c:69-122 | the machine stops after any prefix of commit's writes and recovery is interrupted any number of times: a finished recovery leaves the home blocks all as before when the header was not written, all as after when it was |
| RedoLog.CommitCompletes | log.c:192-202 | an uninterrupted commit leaves an empty log and the transaction in its home blocks |
| RedoLog.CommitIsLogThenRecover | log.c:192-202 | after its header write a commit does what a recovery does, write for write |
| Log.Log.BeginOp | log.c:125-141 | admits an operation exactly when no commit runs and LOGSIZE covers what is logged plus a full budget for everyone |
| Log.Log.EndOp | log.c:145-174 | panics exactly when a commit is under way; otherwise the last operation out, and only it, claims the commit |
| Log.Device.Bread | bio.c:58-106 | during a commit only pinned buffers are in use: no buffer exactly when the block is not pinned and NBUF others are; else the pinned contents, or the disk's |
| Log.Log.LogTest | log.c:218-221 | the tests made before the lock is taken, with the exact panic condition |
| Log.Log.LogAppend | log.c:223-232 | the locked part, which does not test again: the block list gains the block once (absorption) and its buffer is pinned; the list has room if the block is new and fewer than LOGSIZE are logged |
| Log.Log.LogWrite | log.c:213-233 | test and locked part with nothing in between: the block list gains the block once (absorption), its buffer is pinned, and the exact panic condition; a panic changes nothing |
| Log.Log.WriteLog | log.c:177-190 | panics exactly when there is something to log and every buffer is pinned, with nothing written; else the loop issues the first n writes of the commit, in order, and unpins nothing |
| Log.Log.WriteHead | log.c:101-113 | panics exactly when every buffer is pinned; else the loop writes one block: the header holding the current list |
| Log.Log.ReadHead | log.c:85-96 | panics exactly when every buffer is pinned; else the in-memory list becomes the list the on-disk header holds, whatever blocks that names |
| Log.Log.InstallTrans | log.c:69-82 | panics exactly when there is something to install and every buffer is pinned; else the loop issues the home writes of a recovery, in order, and unpins those blocks |
| Log.Log.Commit | log.c:192-202 | panics exactly when the log is not empty and every buffer is pinned, and then nothing has been written; else the sequence of block writes issued is CommitWrites, the one crash atomicity is proved about; an empty log writes nothing |
| Log.Log.RecoverFromLog | log.c:115-122 | never panics, since a fresh boot has pinned nothing: the sequence of block writes issued is RecoverWrites, and the disk afterwards is the recovered disk |
| GroupCommit.RunInv | log.c:125-233 | begin_op, the unlocked test and the locked part of log_write as separate steps, end_op, every single commit write, commit's panic when all buffers are pinned, crash and every single recovery write keep the protocol's invariant over every interleaving, for every log area of at least LOGSIZE blocks (or only its header) |
| GroupCommit.RecoverableNow | log.c:115-122 | in whatever phase, recovering the disk as it stands gives the durable part of the history |
| GroupCommit.CrashSafety | log.c:125-233 | every state of every run with a log area of at least LOGSIZE blocks: recovery yields the effect of a prefix of the history that splits no system call; while calls run no uncommitted data is in a home block; readers see the latest writes; committing implies nobody is outstanding |
| GroupCommit.DurableGrows | log.c:145-202 | for every log size, what is durable stays durable through all later crashes and recoveries |
| GroupCommit.EndOpNeverPanics | log.c:145-174 | for every log size, in no run does end_op find a commit under way |
| GroupCommit.LogStaysInBounds | log.c:125-233 | in every run, for every log size, although the size test is made without the lock: logged blocks plus the unused budgets of outstanding operations fit LOGSIZE, and the list is duplicate-free and names home blocks; with more than LOGSIZE blocks it also fits its area |
| GroupCommit.ListHasRoom | log.c:223-230 | for every log size, an operation within its budget finds room in the in-memory list, which log_write does not test under the lock |
| GroupCommit.OvershootRun | log.c:218-230 | for every log size, in every run the log is at most two blocks too long for its area, as many as calls can pass the test together with the one that fills it |
| GroupCommit.NewBlockFits | log.c:213-220 | with more than LOGSIZE blocks in the on-disk log, an operation within its budget never meets the size panic |
| GroupCommit.BudgetsHonouredIff | log.c:125-141 | every operation can use its whole budget in every run if and only if the on-disk log has more than LOGSIZE blocks (mkfs makes it LOGSIZE) |
| GroupCommit.FullLogRefusesAbsorption | log.c:213-220 | a run that fills the log to LOGSIZE and whose next write, of a block already in the log, panics: the size test comes before absorption |
| GroupCommit.TwoWriters | log.c:218-230 | for every log area of 2 to LOGSIZE blocks, a run in which two calls pass the size test before either takes the lock, both log, and the log names as many blocks as its area has |
| GroupCommit.LogBoundedIff | log.c:213-233 | the log stays inside its area in every run if and only if the area has more than LOGSIZE blocks or only its header |
| GroupCommit.OverrunLosesHome | log.c:177-190 | for every log area of 2 to LOGSIZE-1 blocks, a run in which commit writes past the area: a crash then leaves the first home block after it changed although nothing has become durable |
| GroupCommit.CrashSafeIff | log.c:125-233 | recovery yields the durable part of the history in every state of every run if and only if the log area has at least LOGSIZE blocks or only its header: a log that fills an area of LOGSIZE blocks fills the buffer cache as well, and commit panics before it writes |
| GroupCommit.CommitMayPanicIff | log.c:177-190 | in some run commit finds every buffer pinned and panics, if and only if the log area has at least LOGSIZE-1 blocks (NBUF is LOGSIZE, and mkfs makes the area LOGSIZE) |
| TracedLog.Traced.BeginOp | log.c:125-141 | on the log object, with a log area of at least LOGSIZE blocks, this is the protocol's begin step, or it sleeps and nothing happens |
| TracedLog.Traced.LogTest | log.c:218-221 | on the log object this is the protocol's test step, or it panics exactly when the log is too full |
| TracedLog.Traced.LogAppend | log.c:223-232 | on the log object this is the protocol's append step; within the budget the list never overflows |
| TracedLog.Traced.EndOp | log.c:145-163 | on the log object this is the protocol's end step, and it never panics |
| TracedLog.Traced.Commit | log.c:164-202 | on the log object this is the rest of the protocol's commit: it panics exactly when NBUF blocks are logged, and a crash then leaves what is durable; else the object stays a run of the protocol, every call so far is durable and nothing is pinned |
| TracedLog.Traced.CrashNow | log.c:115-202 | between any two operations on the log object, recovering its disk yields a prefix of the calls so far, each whole |
| FsSpec.DinodeOfPut | fs.c:222-238 | storing inode i of an inode block and reading inode j back |
| FsSpec.SlotsDistinct | fs.c:374-402 | no block is reachable through two slots, direct, table or indirect, of any inodes |
| FsSpec.BitmapMeansOwned | fs.c:57-97 | a bitmap bit is set if and only if its block is metadata or in an inode slot |
| FsSpec.AllocatedGood | fs.c:57-79 | a block whose bit is clear is owned by no inode; allocating it disturbs no owner and no file contents |
| FsSpec.FreedBits | fs.c:82-97 | a detached block has its bit set, so bfree cannot panic, and freeing it keeps bitmap and ownership in step |
| FsSpec.AllocAttach | fs.c:380-390 | allocating a block into a direct slot or as the indirect table keeps all invariants |
| FsSpec.AllocAttachEntry | fs.c:391-398 | allocating a block into an entry of the indirect table keeps all invariants |
| FsSpec.GrownContents | fs.c:374-402 | mapping new blocks into an inode changes no file's bytes and creates no hole below a size that had none |
| FsSpec.DataWritten | fs.c:500-506 | rewriting one data block changes those 512 bytes of that file and nothing of any other |
| FsSpec.InodeWritten | fs.c:222-238 | rewriting an inode block disturbs no slot, bit or file byte |
| FsSpec.WritingInside | fs.c:483-513 | a finished write inside the old size never changed the inode, so skipping iupdate is right, and the contents are the overwritten ones |
| FsSpec.WritingPast | fs.c:483-513 | a finished write past the end leaves, with the new size, no hole and the overwritten contents |
| FsSpec.Emptied | fs.c:409-437 | once an inode's slots are cleared every other file is as before and the invariants hold |
| FileSystem.FileSys.Balloc | fs.c:57-79 | both loops: the first block whose bit is clear, zeroed and marked, and exactly two blocks logged; panics exactly when every bit is set |
| FileSystem.FileSys.Bfree | fs.c:82-97 | panics exactly on a clear bit; otherwise clears it and changes nothing else |
| FileSystem.FileSys.Ialloc | fs.c:196-216 | the first free inode gets the type and an empty body, no file's contents change; panics exactly when none is free |
| FileSystem.FileSys.Iupdate | fs.c:222-238 | the on-disk inode equals the in-memory one afterwards, other inodes of the block unchanged |
| FileSystem.FileSys.Bmap | fs.c:374-402 | the block of a mapped file block without any change, or a new block with every invariant kept, no other slot touched and exactly the listed blocks logged; panics exactly beyond MAXFILE or when fewer blocks are free than it lacks (the block, and the indirect table if that is missing) |
| FileSystem.FileSys.Itrunc | fs.c:409-437 | frees exactly the blocks the inode owned, bfree never panics on the way, other files unchanged, memory and disk inode equal |
| FileSystem.FileSys.Ifree | fs.c:333-354 | iput's last reference: the inode is free on disk and owns nothing, all other files unchanged |
| FileSystem.FileSys.Readi | fs.c:454-478 | returns exactly content[off..off+n] cut at the end of file, -1 exactly when the offset is out of range or off+n wraps, and changes nothing |
| FsCount.FreeIsUnowned | fs.c:57-79 | between operations the number of clear bitmap bits is the number of data blocks minus the number of owned ones |
| FsCount.NeedSplit | fs.c:500-506 | a write cut in two, also inside a block, allocates in all exactly what it would have allocated at once |
| FsCount.TurnLogs | fs.c:500-506 | the blocks logged by the turns so far and by the next turn are exactly those of one turn more |
| FileSystem.FileSys.WriteTurn | fs.c:500-506 | one turn panics exactly when the blocks free at the start are fewer than the write needs up to here; otherwise the account of mapped, allocated and logged blocks stays exact |
| FileSystem.FileSys.Writei | fs.c:483-513 | replaces exactly content[off..off+n] or returns -1 with nothing changed; panics exactly when it is not refused and fewer blocks are free than the missing file blocks plus a missing indirect table; every other inode keeps its contents; the disk inode equals the memory inode; no mapped block moves, the free count drops by exactly what was missing, and exactly the listed blocks are logged |
| FileSystem.WriteSetCost | fs.c:483-513 | the blocks a write logs are at most its cost: data blocks, their bitmap blocks, the indirect table and its bitmap block, the inode |
| FileSystem.ChunkStep | fs.c:500-502 | a turn of the loop covers one more file block and ends at a block boundary unless it ends the write |
| FileWrite.ChunkFitsReservation | file.c:126-138 | at every offset a chunk logs at most MAXOPBLOCKS distinct blocks, counting data, indirect, bitmap and inode blocks |
| TightChunk.FullChunk | file.c:126-146 | the bound is met: on every disk with four bitmap blocks and an inode per twelve data blocks, a well-formed file system and a file such that writing one full chunk at its unaligned end logs exactly MAXOPBLOCKS distinct blocks |
| TightChunk.WellFormed | fs.c:374-402 | the disk built for it is a well-formed file system: every block but the free ones is owned, once, and the bitmap agrees |
| TightChunk.SizeCovers | fs.c:374-402 | each inode of that disk has exactly the blocks its size reaches over |
| TightChunk.GainedWasFree | fs.c:57-79 | each block that write gained was one of the free ones, of which each of four bitmap blocks has one |
| FileWrite.OverwriteTwice | file.c:135-152 | writing a chunk and then the next one is writing both at once |
| FileWrite.ChunkAccepted | file.c:133-152 | where the first refused chunk starts: the accepted bytes are all of them, or the whole chunks that fit below the largest file size |
| FileWrite.File.Filewrite | file.c:117-156 | exactly the accepted bytes are written at the old offset, which moves past them, and the call succeeds exactly if they are all; it panics exactly when the accepted bytes need more blocks than are free; every transaction logged at most MAXOPBLOCKS blocks |
| FileWrite.File.Transaction | file.c:140-146 | one chunk: all of it or, with -1, nothing, within the reservation; panics exactly when it needs more blocks than are free |
| LoggedFiles.LogAll | log.c:213-233 | the run of the logging protocol in which a call hands over any list of home block writes that passes log_write's size tests, while any other calls are under way: no panic, nothing becomes durable on the way, and afterwards readers see those writes |
| LoggedFiles.LoggedFs.WriteChunk | file.c:134-146 | a chunk written by filewrite while other calls are under way, its writes handed to log_write in writei's order: whether they all pass the size tests is told exactly; if so readers see the file system with the chunk, if not log_write panics; either way a crash leaves the blocks of the last commit |
| LoggedFiles.LoggedFs.EndCall | log.c:145-202 | end_op of such a call: while others go on nothing reaches the disk; the last one panics exactly when NBUF blocks are logged, else commits; in every state on the way a crash leaves the blocks of the last commit or those with every chunk since, all whole |
| LoggedFiles.LoggedFs.SoleChunk | file.c:134-152 | a chunk whose call is alone, for every log area of more than MAXOPBLOCKS blocks: neither log_write nor commit panics, and in every state from begin_op to the end of the commit a crash leaves the blocks from before or with the whole chunk |
| BufferCache.Unlink | bio.c:132-133 | the two stores take a buffer out of the ring and leave a ring of the rest |
| BufferCache.PushFront | bio.c:134-137 | the four stores put a buffer at the front of the ring |
| BufferCache.CachedOnce | bio.c:69-76 | two buffers for one block of a non-zero device are the same buffer |
| BufferCache.EvictionKeepsContents | bio.c:78-91 | recycling an eligible buffer changes the logical contents of no block and unpins none |
| BufferCache.MovedStamps | bio.c:130-138 | the ring stays a permutation of the buffers sorted by time of last release |
| BufferCache.NoBufferIffAllPinned | bio.c:61-93 | while only pinned buffers are in use, as in a commit, bget finds no buffer exactly when NBUF blocks are pinned and the block is not one of them |
| BufferCache.Cache.constructor | bio.c:38-56 | the loop links all NBUF buffers, none cached |
| BufferCache.Cache.Bget | bio.c:61-93 | the cached buffer if there is one, else the least recently released eligible one, else none; the panic condition exactly; logical contents of all blocks unchanged |
| BufferCache.Cache.FindCached | bio.c:69-76 | the forward walk finds the block if and only if it is cached |
| BufferCache.Cache.FindVictim | bio.c:81-91 | the backward walk ends at the least recently released eligible buffer, or proves there is none |
| BufferCache.Cache.Bread | bio.c:96-106 | panics exactly when the block is not cached and no buffer is eligible; sleeps exactly when another holds its buffer; else a locked valid buffer with the block's logical contents; no block's contents or pin changes |
| BufferCache.Cache.ModifyAndLog | log.c:228-231 | a logged change is what every later reader sees, and pins exactly that block |
| BufferCache.Cache.ModifyAndBwrite | bio.c:109-116 | a written change reaches the disk at once and unpins exactly that block |
| BufferCache.Cache.Brelse | bio.c:120-141 | with nobody between releasesleep and the lock: the last release moves the buffer to the front, the others keep their order, and stamps it; contents and pins unchanged |
| BufferCache.Cache.ReleaseLock | bio.c:120-125 | up to releasesleep: the buffer has no holder and is still in use, so bget cannot recycle it |
| BufferCache.Cache.DropUser | bio.c:127-140 | the part under bcache.lock, when another thread may already hold the buffer: one user less, and the last one moves it to the front; contents and pins unchanged |
| Umalloc.UnitsEnough | umalloc.c:69-69 | the block is large enough for the request if and only if rounding up does not wrap 32 bits; if it wraps the block has no payload at all |
| Umalloc.RequestHonoured | umalloc.c:52-54 | the request means the same to malloc, morecore and sbrk's signed argument if and only if it is at most 2 GB - 16 |
| Umalloc.RequestMisread | umalloc.c:52-69 | requests for which sbrk is asked to shrink, to do nothing, or the block is one bare header |
| Umalloc.MergeTiles | umalloc.c:33-42 | coalescing two adjacent blocks keeps blocks disjoint and covering all memory |
| Umalloc.CutTiles | umalloc.c:79-81 | splitting a block keeps blocks disjoint and covering all memory |
| Umalloc.TotalIsOwned | umalloc.c:46-61 | the sizes of any set of blocks add up to the units they own |
| Umalloc.Freed | umalloc.c:33-43 | after free's two ifs the ring is circular, in address order with one wrap, no two free blocks touch, and live blocks are where they were |
| Umalloc.Taken | umalloc.c:76-77 | an exact fit leaves the ring with every invariant kept |
| Umalloc.Split | umalloc.c:78-82 | a split keeps every invariant and gives out the tail, which was no block before |
| Umalloc.PlaceStep | umalloc.c:30-32 | free's search ends at exactly one entry of the ring, the one after which the block belongs |
| Umalloc.SearchNext | umalloc.c:74-88 | malloc's search visits every entry once before it comes back to freep, and then none is big enough |
| Umalloc.UnitsConserved | umalloc.c:46-61 | units live plus units free equal the units obtained from sbrk, the free ones being exactly those on the list |
| Umalloc.LiveDisjoint | umalloc.c:63-90 | no two blocks handed out share a unit |
| Umalloc.Heap.FindPlace | umalloc.c:29-32 | the search loop ends, at the right place |
| Umalloc.Heap.Free | umalloc.c:24-44 | the block leaves the live set, all memory stays accounted for, other live blocks and their contents are untouched |
| Umalloc.Heap.Morecore | umalloc.c:46-61 | on success a block of the size asked for is on the list and the units obtained grow by exactly the amount asked; on failure nothing changes |
| Umalloc.Heap.Malloc | umalloc.c:63-90 | null if and only if no block on the list is big enough and sbrk fails; otherwise a new live block of exactly the rounded size; sbrk is used at most once and only if no block is big enough; nothing in a live block is written |
| Umalloc.Heap.UserStore | umalloc.c:24-90 | writes of a program inside a block it holds keep the allocator's invariant |
| Mutexes.FirstFree | proc.c:888-901 | the first mutex that is not allocated, or none |
| Mutexes.Scan | proc.c:1053-1079 | the nearest waiter for the mutex after the caller in cyclic slot order, or none |
| Mutexes.ScanReaches | proc.c:1053-1079 | the search passes no waiter: it ends at or before every waiter of the process |
| Mutexes.LockInv | proc.c:957-1015 | kthread_mutex_lock keeps the invariant, whether it returns, fails or sleeps |
| Mutexes.ResumeInv | proc.c:997-1012 | a sleeper that runs again owns the mutex and does not panic |
| Mutexes.UnlockInv | proc.c:1017-1087 | kthread_mutex_unlock keeps the invariant, with and without a handoff |
| Mutexes.StepInv | proc.c:881-1087 | every step of every thread (mutex calls, thread creation, exit, join, fork) keeps the invariant |
| Mutexes.MutualExclusion | proc.c:957-1087 | in every reachable state a mutex has at most one owner in the whole system, also between handoff and resumption, and the panic has not happened |
| Mutexes.WaiterMeansLocked | proc.c:993-998 | in every reachable state a blocked waiter's mutex is allocated, locked by another slot, and registered to the waiter's process only |
| Mutexes.OneRegistration | proc.c:881-956 | in every reachable state a mutex is registered to at most one process, and to none when it is free |
| Mutexes.DeallocStrandsNobody | proc.c:909-956 | a deallocation that succeeds leaves no waiter and no owner |
| Mutexes.WaiterAdvances | proc.c:1053-1087 | nobody barges in: until an unlock the owner stays and the waiter waits; every unlock gives the mutex to the waiter or to a slot strictly nearer to it |
| Mutexes.BoundedWait | proc.c:1053-1087 | in every run a waiter owns the mutex after at most its cyclic distance from the holder, so at most NTHREAD-1, unlocks |
| Mutexes.Kernel.Alloc | proc.c:881-905 | the loop takes the first free mutex and registers it; -1 exactly when all are taken |
| Mutexes.Kernel.Dealloc | proc.c:909-956 | refines the machine's deallocation step, result included |
| Mutexes.Kernel.Lock | proc.c:957-1015 | refines the machine's lock step, result included |
| Mutexes.Kernel.Unlock | proc.c:1017-1087 | refines the machine's unlock step, result included |
| Mutexes.Kernel.FindWaiter | proc.c:1053-1079 | the loop ends at the waiter nearest in cyclic order, or at the caller exactly when there is none |
| Scheduler.LeaveInv | proc.c:560-568 | taking a thread off its CPU keeps the invariant when the process state is set as yield, sleep, kthread_exit and exit set it |
| Scheduler.SleepInv | proc.c:593-653 | sleep marks the process SLEEPING only when no other thread is busy |
| Scheduler.WokenInv | proc.c:658-680 | wakeup1 keeps the invariant and changes no thread that was not asleep |
| Scheduler.StepInv | proc.c:273-878 | each of twenty-one kinds of step (scheduling, yield, sleep, wakeup, both halves of kthread_exit, create, join, wait, handoff, kill, exit, fork) keeps the invariant; while a CPU is in the inner scheduling loop nobody else takes ptable.lock |
| Scheduler.ProcessStates | proc.c:593-680 | in every reachable state a SLEEPING process has no runnable, running or embryo thread and a RUNNING process has a thread on some CPU |
| Scheduler.RunningOnOneCpu | proc.c:499-518 | in every reachable state a thread is RUNNING exactly when it is on a CPU and not exiting, and on one CPU at most |
| Scheduler.NotHidden | proc.c:496-501 | a runnable thread is never hidden for good by the test of p->state unless exit has ended its process: the process is never SLEEPING or UNUSED, EMBRYO only for the first thread of a fork under way, RUNNING only with a thread on a CPU, and becomes RUNNABLE as soon as any of its threads leaves a CPU; in a ZOMBIE process a runnable thread is allowed, and the scheduler passes it over |
| Scheduler.FilterPassesSleepers | proc.c:658-680 | wakeup1 skips UNUSED, EMBRYO and ZOMBIE processes, and yet in every reachable state it makes every thread asleep on the channel runnable, and its process too, unless exit has ended the process; it changes no other thread |
| Scheduler.ReapInv | proc.c:425-456 | wait clears the slot of a finished child and keeps the invariant |
| Scheduler.ProcTable.Wakeup1 | proc.c:658-680 | both loops wake exactly the threads asleep on the channel and make exactly their processes RUNNABLE |
| Scheduler.ProcTable.WakeThreads | proc.c:666-675 | the inner loop computes the woken process |
| Scheduler.ProcTable.AnyBusy | proc.c:626-632 | the loop finds out whether another thread is busy |
| SleepWakeup.StepInv | proc.c:593-689 | every lock operation of sleepers and wakers keeps the invariant, for lk different from ptable.lock and for lk equal to it |
| SleepWakeup.NoLostWakeup | proc.c:612-653 | whenever the condition holds and no wakeup is still to come, nobody is asleep and nobody who found it false is on the way to sleep |
| SleepWakeup.WakeupReachesAll | proc.c:658-689 | wakeup1 never runs while a thread is between its test and SLEEPING, and leaves none asleep |
| SleepWakeup.LocksExclude | proc.c:618-652 | lk and ptable.lock each have at most one holder in every reachable state |
| Tournament.LeafInRange | tournament_tree.c:76-76 | the leaf index is inside the tree if and only if the id is below 2^depth (the code only tests for ids above 16) |
| Tournament.NodeRange | tournament_tree.c:60-76 | every level of a path has its own index range, inside the tree, ending at the root |
| Tournament.AcquireFollowsPath | tournament_tree.c:60-69 | the recursion of acquire locks exactly the path from a level to the root |
| Tournament.ReleaseIsReverse | tournament_tree.c:84-93 | the recursion of release unlocks the same nodes in the opposite order |
| Tournament.PathOrders | tournament_tree.c:60-102 | for a valid id acquire takes levels 0 to depth-1 and release gives them back from the root down |
| Tournament.StepInv | tournament_tree.c:60-102 | every step of every thread keeps the tree's invariant |
| Tournament.CriticalSection | tournament_tree.c:71-102 | in every reachable state one thread at most is in the critical section and tree->tid is its id; once written, tree->tid is -1 whenever there is none |
| Tournament.TidStartsUnset | tournament_tree.c:14-30 | a tree just allocated may have any tree->tid, with nobody in the critical section |
| Tournament.HeldIsPrefix | tournament_tree.c:84-93 | in every reachable state a thread holds exactly a leaf-side prefix of its path |
| Tournament.AtMostTwo | tournament_tree.c:60-69 | in every reachable state at most two threads hold or wait at any node |
| Tournament.WaiterHoldsLarger | tournament_tree.c:60-69 | a thread blocked at a node holds only nodes with larger indices |
| Tournament.NoDeadlock | tournament_tree.c:60-102 | in every reachable state in which a thread is inside, some thread can step |
| Tournament.AllocTree | tournament_tree.c:14-44 | all the mutexes of the size computed in 32 bits, distinct and registered, or none with every allocation as before; success exactly when that many are free; a negative size succeeds with no mutex |
| Tournament.TreeSizeRight | tournament_tree.c:18 | the size computed in 32 bits is 2^depth-1 exactly up to depth 31; depth 32 gives -1 and depth 33 a single node |
| Tournament.DeallocTree | tournament_tree.c:45-58 | the loop frees mutexes up to the first that cannot be freed |
| Tournament.DeallocUndoesAlloc | tournament_tree.c:45-58 | freeing a tree nobody is in succeeds and undoes its allocation |
| Tournament.DeallocRunStrandsNobody | tournament_tree.c:45-58 | freeing a tree that succeeds strands no holder and no waiter at any node |
| TreeOnKernel.AllocatedIsInit | tournament_tree.c:14-30 | what trnmnt_tree_alloc leaves behind is a tree ready for use |
| TreeOnKernel.HandoffIs | proc.c:1053-1079 | the kernel's search for the next waiter of a node's mutex finds exactly the tree machine's waiters at that node |
| TreeOnKernel.LockSim | tournament_tree.c:62-66 | a lock call on the kernel is a lock step of the tree machine and does not fail |
| TreeOnKernel.UnlockSim | tournament_tree.c:86-92 | an unlock call on the kernel is an unlock step of the tree machine and does not fail |
| TreeOnKernel.Simulated | tournament_tree.c:60-102 | forward simulation: whatever the tree code and the kernel mutexes do together, the tree machine can do, and no call fails |
| TreeOnKernel.OtherSim | proc.c:881-1087 | any other kernel step of any thread or process (mutex calls on other mutexes, create, exit, join, fork), also of the thread in the critical section, is invisible to the tree |
| TreeOnKernel.RunIsTreeRun | tournament_tree.c:60-102 | every run of the tree code on the kernel's mutexes, with any threads taking up and giving back any of the ids and whatever else happens meanwhile, is a run of the tree machine |
| TreeOnKernel.CriticalSectionOnKernel | tournament_tree.c:71-102 | on the kernel's mutexes, in every run: mutual exclusion, tree->tid right, no call failed, no panic |
| TreeOnKernel.NoDeadlockOnKernel | tournament_tree.c:60-102 | on the kernel's mutexes, in every run: whenever a thread is inside the tree one inside can step, unless the one in the critical section waits for a mutex that is not the tree's |
| Pipes.CounterTests | pipe.c:86-115 | the comparisons of wrapped 32-bit counters mean full and empty |
| Pipes.PutInRing | pipe.c:94-94 | storing a byte overwrites no unread byte |
| Pipes.Pipe.WriteTurn | pipe.c:79-99 | writes as many bytes as fit, in order; sleeps or fails exactly when the pipe is full, fails exactly when no reader is left or the caller was killed |
| Pipes.Pipe.ReadTurn | pipe.c:101-122 | takes the oldest unread bytes, as many as there are up to n; sleeps exactly when empty with a writer left |
| Pipes.Pipe.Close | pipe.c:60-76 | closes one end; the pipe is freed exactly when both are closed |
| Pipes.ShareOfAppend | pipe.c:79-99 | appending bytes of one writer extends that writer's share and nobody else's |
| Pipes.Interleave | pipe.c:79-122 | for every order of turns of many readers and writers: bytes read are a prefix of bytes written, at most PIPESIZE are unread, and each writer's bytes are there complete and in order |
| Regex.ItemMatches | grep.c:85-106 | a pattern that starts with an item matches exactly where the item and then the rest match |
| Regex.OneMatches | grep.c:93-94 | a literal or . matches exactly one fitting character and then the rest |
| Regex.StarMatches | grep.c:89-90 | c* matches exactly when the rest matches after some number of fitting characters |
| Regex.EndMatches | grep.c:91-92 | $ alone matches exactly at the end of the text |
| Regex.Match | grep.c:72-82 | true if and only if the text contains a match of what the pattern denotes, at the start only after ^ |
| Regex.MatchHere | grep.c:85-96 | true if and only if a prefix of the text is in the pattern's language |
| Regex.MatchStar | grep.c:99-106 | the loop: true if and only if some number of fitting characters can be skipped |
| Shell.Skip | sh.c:272-273 | stops at the first character that is not white space |
| Shell.LexRender | sh.c:265-308 | lexing rendered tokens gives the tokens back |
| Shell.ExecReadBack | sh.c:399-446 | a printed simple command or block, with its redirections, is read back as the same tree |
| Shell.LineReadBack | sh.c:344-372 | a printed list, background command or pipe is read back as the same tree, up to what follows it |
| Shell.RoundTrip | sh.c:327-446 | parse(print(c)) == c for every command tree with at most nine arguments per command, printed with parentheses only where needed |
| Shell.PrintNormalises | sh.c:327-446 | every line that parses gives a printable tree, and printing and parsing it again gives the same tree |
| ShellParser.Parser.Peek | sh.c:310-320 | skips white space and consumes no token |
| ShellParser.Parser.GetToken | sh.c:265-308 | consumes exactly the next token; a word's span is a maximal run of word characters |
| ShellParser.Parser.ParseRedirs | sh.c:374-397 | the loop reads the redirections of the grammar, >> like > |
| ShellParser.Parser.ParseArgs | sh.c:429-445 | the loop reads the arguments and redirections of the grammar; the tenth argument is refused |
| ShellParser.Parser.ParseExec | sh.c:415-446 | reads a simple command or a block of the grammar |
| ShellParser.Parser.ParseBlock | sh.c:399-413 | reads a parenthesised line and its redirections |
| ShellParser.Parser.ParsePipe | sh.c:361-372 | reads a pipe of the grammar |
| ShellParser.Parser.ParseLine | sh.c:344-359 | reads a line of the grammar; the mutual recursion ends by the number of tokens left |
| ShellParser.NulTerminate | sh.c:449-493 | writes a NUL at the end of every word of the tree and changes no other character |
| ShellParser.TreeReadsBack | sh.c:449-493 | with NULs at the ends, every argv and file of the tree read as a C string is its word |
| ShellParser.ParseCmd | sh.c:327-342 | accepts exactly the lines of the grammar with nothing left over, and afterwards the tree read as C strings is the parsed tree |
| VmSpec.SetPteLookup | vm.c:70-80 | writing one entry changes the mapping of that virtual page in that directory only |
| VmSpec.AddTabGood | vm.c:46-55 | a new page table for an empty slot keeps ownership and changes no mapping |
| VmSpec.MapUserGood | vm.c:71-75 | mapping a loose page for the user makes it that directory's and nobody else's |
| VmSpec.UnmapGood | vm.c:274-281 | unmapping a user page makes it loose |
| VmSpec.DetachGood | vm.c:288-303 | a directory with no user page left can be given up without touching others |
| VmSpec.FreedUndoes | vm.c:288-303 | freeing a directory made from free pages restores the ownership of every page |
| VmSpec.PagesConserved | kalloc.c:59-95 | every page is on the free list, loose, or used by exactly one live directory as itself, a table or a user page |
| Vm.Machine.constructor | kalloc.c:46-53 | the loop puts every page of the range on the free list once |
| Vm.Machine.Kalloc | kalloc.c:82-95 | null exactly when the list is empty; otherwise a page that was free |
| Vm.Machine.Kfree | kalloc.c:59-77 | the page goes back to the list; the panic is unreachable for owned pages |
| Vm.Machine.Walk | vm.c:37-57 | the page table for an address, made if asked, null exactly when it is missing and there is no page for it; no mapping changes, and only free pages are taken |
| VmCount.TabNeedStep | vm.c:37-57 | mapping the next page of a range takes a table exactly when the need of the range grows |
| Vm.Machine.Mappages | vm.c:62-82 | the loop maps the whole range as asked and takes exactly the missing page tables, and fails exactly when there are fewer free pages than missing tables, with no mapping outside the range touched; from an unmapped range it never reaches the remap panic |
| Vm.Machine.Setupkvm | vm.c:120-138 | succeeds exactly when 65 pages are free, and takes 65: a directory with all kernel regions and no user page; otherwise every page and mapping is as before |
| Vm.Machine.Allocuvm | vm.c:226-254 | zeroed user pages for exactly the new range, exactly when the free pages cover the new pages and the missing page tables; otherwise every mapping is as before |
| Vm.Machine.Deallocuvm | vm.c:260-284 | frees exactly the user pages of the range, also across missing page tables |
| Vm.Machine.Freevm | vm.c:288-303 | gives back exactly the pages of the directory; all other directories untouched |
| Vm.Machine.Copyuvm | vm.c:320-350 | every user page of the parent copied with equal bytes and flags to a different page, the parent unchanged; out of memory exactly when fewer pages are free than the directory, the copies up to the first unmapped page and their tables, with every page as before; otherwise a panic exactly when some page below sz is not mapped |

## Left out

- Device and CPU code (ide.c, memide.c, uart.c, lapic.c, ioapic.c, the assembly files): the disk is a sequence of blocks written one at a time, and a context switch is a step.
- Path names, directories and the inode cache (dirlookup, dirlink, namex, iget, ilock): only inode bodies and blocks are modelled; device inodes (T_DEV) in readi and writei are not.
- Spinlocks and memory ordering: a stretch of code between acquire and release is one step, except in SleepWakeup, which goes down to single lock operations.
- exit, wait, kill and exec's kill_threads in the mutex model: they can wake a mutex waiter without a handoff, so the mutex results are for runs without them. The scheduler model has kill, exit, wait and the wake-ups of kill_threads.
- Several joiners of one thread, and kernel stacks after kthread_exit: the scheduler model joins a zombie, and wait clears a child, only once its threads are off their CPUs, which the code does not check. Parents are left out: any process may wait for any finished one.
- allocproc drops ptable.lock before it marks the slot: claiming a slot is one step here.
- growproc, exec, trap handling, copyout and uva2ka, clearpteu, the console, the other user programs.
- grep's line buffering (grep.c:10-36) and sh's execution of commands (runcmd): only matching and parsing.
- Allocation failure in user programs: sh.c and tournament_tree.c use the result of malloc unchecked.
- TreeOnKernel.RunIsTreeRun: a thread uses one id of the tree at a time, does not exit in the critical section, and nobody uses the tree's own mutexes except through the tree.
- GroupCommit.RunInv: for log areas of 2 to LOGSIZE-1 blocks the invariant is false (see CrashSafeIff); recovery is modelled for headers that fit the area only. Buffers in use outside system calls are not counted: they can only make commit panic earlier, and then as here before its header write or, after it, with a log that recovery finishes.
- GroupCommit.LogBoundedIff: requires as many blocks after the log area as in it, so that there is something to log and to lose.
- GroupCommit.CrashSafeIff: requires the same.
- GroupCommit.CommitMayPanicIff: requires LOGSIZE blocks after the log area.
- Log.Log.LogAppend: requires room in the list for a new block; TracedLog.Traced.LogAppend proves it for calls within their budget.
- Log.Log.ReadHead: requires a header of at most LOGSIZE blocks; more would overrun the in-memory list, which the code does not check.
- Log.Log.RecoverFromLog: requires a header that names home blocks and fits the log area, which holds of every disk the log has written and is not checked by the code.
- LoggedFiles.LoggedFs.WriteChunk: calls overlap in any way, but the block writes of one chunk are not interleaved with those of another; that is GroupCommit.CrashSafety, on writes rather than on files.
- SleepWakeup.WakeupReachesAll: threads have no process there, so wakeup1's test of p->state is left out; Scheduler.FilterPassesSleepers proves what it lets through.
- Tournament.AllocTree: the array of node numbers is a sequence; what malloc answers for a size that wraps is left out, and C leaves shifts of 32 and more open: the count is taken modulo 32, as x86 does.
- Umalloc.Heap.Malloc: requires of a successful sbrk that the byte count reached it unchanged (see RequestHonoured) and that the memory is new and above the program's data, aligned to a header.
- Umalloc.Heap.Free: requires a block that malloc returned and that has not been freed since.
- Vm.Machine.Allocuvm: requires the new range to be unmapped; otherwise the code panics. Page tables made before a failure stay with the directory.
- Vm.Machine.Deallocuvm: clears an entry and frees its page as one step; entries hold a page and the writable and user bits, the hardware's accessed and dirty bits are left out.

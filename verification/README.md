# A verified model of the kernel's storage, memory and process core

This project models, in Dafny, the parts of a small Unix-like kernel and of its first user
programs whose correctness spans many functions and many steps, and proves what they are
for. The sources are those of the tree `Implement Virtual Memory and CPU Scheduling`.

**Redo log and buffer cache** (`Params`, `Sets`, `Blocks`, `LogDisk`, `BufferCache`, `Bcache`,
`CacheRuns`, `Log`, `GroupCommit`, `LogSpace`, `LogProgress`). The disk changes one block write
at a time. The cache is a ring of buffers linked in both directions, in arrays, and refines a
flat map from block numbers to contents; `CacheRuns` interleaves the calls of any number of
processes, which wait for each other's buffers. `Log` runs begin_op, log_write, end_op and
commit over that cache. `GroupCommit` is the machine of all processes, each of whose steps
holds log.lock or is one that does not, with a crash possible between any two block writes of
a commit or of a recovery. Wherever it stops, recovery gives the effect of a prefix of the
logged writes that cuts no operation in two; `LogSpace` says for which sizes of the log.

**Files** (`Bytes`, `Files`, `FileData`, `FileWrite`, `FileSteps`, `FileLog`, `FileOps`). Inodes over
direct and indirect pointers, indirect blocks as little-endian words, and the free map as
bits. Every block is free or owned by exactly one slot of one inode; readi and writei are
slice and splice on a byte sequence, for files with and without holes; each transaction of
filewrite logs every block that it changes, and at most seven.

**The allocator of user programs** (`FreeList`, `Umalloc`). The circular free list of section
8.7 of The C Programming Language, second edition, in a memory of headers.

**Page tables** (`Paging`, `PagingSteps`, `Spaces`, `VmSteps`, `Demand`, `Vm`). Two-level tables of
32-bit entries, as in section 4.3 of the Intel Software Developer's Manual, volume 3A, in
frames from a free list. Every frame is on the free list once or has exactly one use, and
growing or copying an address space fails exactly when there are too few.

**Pipes, processes and the scheduler** (`Pipes`, `PipeRuns`, `Procs`, `ProcTree`, `Fairness`,
`Scheduler`, `Waking`). A ring with counters that wrap at 2^32, and who sleeps on it; the tree of
processes under fork, exit and wait; least virtual runtime first.

**The shell's parser and the matcher of grep** (`ShellSyntax`, `ShellAlike`, `Shell`,
`ShellRoundTrip`, `ShellConcrete`, `ShellPanics`, `ShellReadBack`, `Grep`). A cursor parser
against the grammar, writing and reading back, NULs put in place; and backtracking against a
regular language.

Methods on classes follow the C code statement by statement and are proved against functions
on values; the theorems are about those functions and about whole runs.

Places where the code does not do what one would like, each with its exact condition:

- mkfs gives the log LOGSIZE blocks, so log_write halts at `log.size - 1` blocks although
  begin_op reserves for LOGSIZE: `LogSpace.PanicIff` says when that can happen.
- log_write tests for room before it takes log.lock, so two processes can pass on the last
  place: `LogSpace.OutgrowIff`. In a log of fewer than NBUF blocks commit then overwrites the
  block after it: `LogSpace.SafeIff`. In that of mkfs it finds no buffer and panics first.
- malloc's rounding wraps for requests close to 2^32 bytes, and sbrk takes a signed number:
  `Umalloc.UnitsSuffice`, `Umalloc.UnitsTooFew` and `Umalloc.SbrkGrows`.
- A killed writer can leave a full pipe beside a sleeping reader: `PipeRuns.StepCalm`,
  `PipeRuns.NoLostWakeup` and `PipeRuns.KilledWriterStrands`.
- filewrite reports -1 for a write that does not fit, after writing the chunks that do:
  `FileSteps.CompleteIff`, `FileSteps.CompleteInPart` and `FileOps.FileSystem.Filewrite`.
- wakeup1 gives a woken process less than the least runtime, in unsigned words, so that the
  low word may wrap and the process comes last instead of first: `Waking.WokenFirst`.
- The shell has a token for `>>`, but parses it as `>`, on every line:
  `ShellAlike.AppendIsOverwrite` and `ShellAlike.AppendLost`.

## Model

| member | source | states |
|---|---|---|
| `LogDisk.HeaderRoundTrip` | Implement Virtual Memory and CPU Scheduling/log.c:102-113 | The header block written by write_head, read back by read_head, gives the same list of block numbers |
| `LogDisk.RecoverAtShape` | Implement Virtual Memory and CPU Scheduling/log.c:70-82 | After k turns of install_trans the first k logged blocks are home, with the contents kept in the log, and no other block has moved |
| `LogDisk.RecoveredShape` | Implement Virtual Memory and CPU Scheduling/log.c:116-122 | A completed recovery replaces exactly the home blocks named by the header and leaves an empty header |
| `LogDisk.RecoveryRestartable` | Implement Virtual Memory and CPU Scheduling/log.c:116-122 | A recovery stopped after any number of its writes can be run again with the same outcome for every home block |
| `LogDisk.CommitAtProgress` | Implement Virtual Memory and CPU Scheduling/log.c:183-207 | After k of the 2n+2 block writes of commit the disk is in the state that the order log, header, home, header implies |
| `LogDisk.CrashDuringCommit` | Implement Virtual Memory and CPU Scheduling/log.c:198-207 | The header write is the commit point: recovery gives all home blocks old before it and all new after it |
| `LogDisk.Reboots` | Implement Virtual Memory and CPU Scheduling/log.c:116-122 | Any number of interrupted recoveries leaves a disk with a valid header and the same recovered home blocks |
| `LogDisk.CrashAtomicity` | Implement Virtual Memory and CPU Scheduling/log.c:68-122 | A crash after any number of the writes of commit, then any number of crashes inside recovery, then a full recovery: every home block is old or every one is new, decided by whether the header was written |
| `BufferCache.BootGood` | Implement Virtual Memory and CPU Scheduling/bio.c:39-56 | binit establishes the cache invariant: one buffer per block, coherent contents, a ring in order of last use |
| `BufferCache.ClaimGood` | Implement Virtual Memory and CPU Scheduling/bio.c:66-87 | Counting a reference on a cached buffer, whoever has it locked, or recycling one for the block keeps the cache invariant: one buffer per block, coherent contents |
| `BufferCache.ClaimKeeps` | Implement Virtual Memory and CPU Scheduling/bio.c:69-87 | The claim adds one reference on the one buffer of the block and changes no lock, no contents of a buffer in use, and no other buffer |
| `BufferCache.AcquireGood` | Implement Virtual Memory and CPU Scheduling/bio.c:73 | Taking the sleep lock of a claimed buffer, once it is free, keeps the cache invariant |
| `BufferCache.AcquirerSeesLatest` | Implement Virtual Memory and CPU Scheduling/bio.c:97-106 | Whoever gets the lock, after waiting or not, returns from bread with the latest contents of the block |
| `BufferCache.BreadGood` | Implement Virtual Memory and CPU Scheduling/bio.c:97-106 | bread of a block that nobody has locked keeps the cache invariant, for hits, recycled buffers and blocks read from the disk |
| `BufferCache.BreadLatest` | Implement Virtual Memory and CPU Scheduling/bio.c:62-106 | bread of a block that nobody has locked returns the contents last given to log_write or bwrite, and neither the disk nor any other buffer changes |
| `BufferCache.BreadPanics` | Implement Virtual Memory and CPU Scheduling/bio.c:81-92 | bget panics if and only if the block is not cached and no buffer is unreferenced and clean |
| `BufferCache.BreadPanicsFull` | Implement Virtual Memory and CPU Scheduling/bio.c:81-92 | That is, if and only if the block is not cached and NBUF different blocks are referenced or pinned |
| `BufferCache.RecyclesLeastRecent` | Implement Virtual Memory and CPU Scheduling/bio.c:80-91 | Among the buffers that may be recycled, bget takes the one whose reference count fell to zero longest ago |
| `BufferCache.BwriteGood` | Implement Virtual Memory and CPU Scheduling/bio.c:110-116 | bwrite keeps the cache invariant: the block has its latest contents on the disk and is no longer pinned |
| `BufferCache.PinGood` | Implement Virtual Memory and CPU Scheduling/log.c:236 | Marking a held, valid buffer dirty, with its data as the latest contents of the block, keeps the cache invariant |
| `BufferCache.UnlockGood` | Implement Virtual Memory and CPU Scheduling/bio.c:126 | Giving up the lock of a buffer that was logged or written after its last change keeps the cache invariant |
| `BufferCache.DropGood` | Implement Virtual Memory and CPU Scheduling/bio.c:129-140 | Giving back the reference keeps the cache invariant, also while a process that waited has the lock by now |
| `BufferCache.BrelseGood` | Implement Virtual Memory and CPU Scheduling/bio.c:121-141 | brelse keeps the cache invariant if the buffer was logged or written after its last change |
| `BufferCache.NotPinnedOnDisk` | Implement Virtual Memory and CPU Scheduling/bio.c:80-83 | A block that no dirty buffer pins has its latest contents on the disk; so recycling loses nothing |
| `BufferCache.RoomForMiss` | Implement Virtual Memory and CPU Scheduling/bio.c:80-92 | A miss finds a buffer whenever fewer than NBUF blocks are pinned or in use |
| `BufferCache.WriteThrough` | Implement Virtual Memory and CPU Scheduling/bio.c:110-116 | Overwriting a held buffer and writing it unpins exactly its block, on the disk and in the abstract map |
| `BufferCache.BrelseAlone` | Implement Virtual Memory and CPU Scheduling/bio.c:121-141 | A release changes no contents and no pin |
| `CacheRuns.ClaimInv` | Implement Virtual Memory and CPU Scheduling/bio.c:66-87 | A claim beside any number of other calls keeps: one holder per lock, as many references as calls, and the buffer of each call holding its block |
| `CacheRuns.AcquireInv` | Implement Virtual Memory and CPU Scheduling/bio.c:73 | The end of a wait keeps that invariant |
| `CacheRuns.ReleaseInv` | Implement Virtual Memory and CPU Scheduling/bio.c:129-140 | The second half of brelse keeps that invariant, whoever has the lock in between |
| `CacheRuns.StepInv` | Implement Virtual Memory and CPU Scheduling/bio.c:62-141 | Every step of bread, log_write, bwrite and brelse, by any call, in any order, keeps that invariant |
| `CacheRuns.FinishInv` | Implement Virtual Memory and CPU Scheduling/bio.c:97-106 | In every reachable state a call that returns from bread has the latest contents of its block |
| `CacheRuns.ClaimKept` | Implement Virtual Memory and CPU Scheduling/bio.c:71 | Along any run, whatever others do, a claimed buffer is not recycled and keeps its block until its claimant gives the reference back |
| `CacheRuns.ReleaseShared` | Implement Virtual Memory and CPU Scheduling/bio.c:129-130 | A release while another call has a claim leaves the buffer referenced and in its place on the ring |
| `CacheRuns.WaiterHasHolder` | Implement Virtual Memory and CPU Scheduling/bio.c:72-73 | A call that cannot go on waits for another that has exactly that lock |
| `CacheRuns.TwoOnOneBlock` | Implement Virtual Memory and CPU Scheduling/bio.c:69-75 | A run in which two calls are on one block, one with the lock and one waiting, with two references |
| `CacheRuns.StepFlat` | Implement Virtual Memory and CPU Scheduling/bio.c:62-141 | Of all steps of all calls only log_write and bwrite change what a block holds, and only bwrite the disk: to its clients the cache is a map from blocks to contents |
| `CacheRuns.PinnedKept` | Implement Virtual Memory and CPU Scheduling/bio.c:79-82 | Along any run a logged block stays in its buffer, and its old contents on the disk, until some call writes that block |
| `CacheRuns.LeastRecentlyUsed` | Implement Virtual Memory and CPU Scheduling/bio.c:78-91 | After any run from boot, bread of a block that is not cached takes, of the unclaimed clean buffers, one whose claims fell to zero longest ago, by the events of the run alone; never claimed counts as longest |
| `CacheRuns.RingMoves` | Implement Virtual Memory and CPU Scheduling/bio.c:130-138 | The step in which the claims on a buffer fall to zero puts it first on the ring and keeps the others in their order; no other step moves a buffer |
| `Bcache.LinksInverse` | Implement Virtual Memory and CPU Scheduling/bio.c:47-55 | In the ring of NBUF buffers and head, next and prev are inverse |
| `Bcache.InsertFirst` | Implement Virtual Memory and CPU Scheduling/bio.c:134-137 | The assignments that put a buffer behind head keep one circular doubly linked ring |
| `Bcache.Unlink` | Implement Virtual Memory and CPU Scheduling/bio.c:132-133 | The assignments that take a buffer off the ring keep the rest one ring |
| `Bcache.Bcache.constructor` | Implement Virtual Memory and CPU Scheduling/bio.c:39-56 | binit links every buffer into one ring, in the state the specification calls Boot |
| `Bcache.Bcache.FindCached` | Implement Virtual Memory and CPU Scheduling/bio.c:69-76 | The walk along next finds the buffer of the block, or none if there is none |
| `Bcache.Bcache.FindVictim` | Implement Virtual Memory and CPU Scheduling/bio.c:81-91 | The walk along prev finds the recyclable buffer nearest the end of the ring |
| `Bcache.Bcache.Claim` | Implement Virtual Memory and CPU Scheduling/bio.c:66-92 | The part of bget under bcache.lock refines the pure claim: hit, locked by another or not, recycled buffer, or panic |
| `Bcache.Bcache.Acquire` | Implement Virtual Memory and CPU Scheduling/bio.c:73 | acquiresleep of a claimed buffer that is not locked |
| `Bcache.Bcache.Finish` | Implement Virtual Memory and CPU Scheduling/bio.c:101-105 | The end of bread reads the block only if the buffer is not valid, and refines the pure cache |
| `Bcache.Bcache.Bread` | Implement Virtual Memory and CPU Scheduling/bio.c:97-106 | bread without a wait, the three parts together, gives the state of the pure bread and keeps ring and invariant |
| `Bcache.Bcache.Iderw` | Implement Virtual Memory and CPU Scheduling/memide.c:39-60 | A dirty buffer is written to its block of the disk and is clean; any other is filled from it; its requires are the negations of the panics |
| `Bcache.Bcache.Bwrite` | Implement Virtual Memory and CPU Scheduling/bio.c:110-116 | bwrite refines the pure cache; one disk write is recorded |
| `Bcache.Bcache.MoveToFront` | Implement Virtual Memory and CPU Scheduling/bio.c:132-137 | The buffer moves to the front of the ring, the others keep their order |
| `Bcache.Bcache.Drop` | Implement Virtual Memory and CPU Scheduling/bio.c:129-140 | The count falls, also under the lock of another process, and only zero moves the buffer to the front |
| `Bcache.Bcache.Brelse` | Implement Virtual Memory and CPU Scheduling/bio.c:121-141 | brelse refines the pure cache; only a count that falls to zero moves the buffer |
| `Log.Log.constructor` | Implement Virtual Memory and CPU Scheduling/log.c:54-66 | initlog leaves the recovered disk, an empty log and nothing pinned |
| `Log.Log.WriteHead` | Implement Virtual Memory and CPU Scheduling/log.c:102-113 | One write of the header block, and of no other, beside any readers of blocks outside the log |
| `Log.Log.WriteLog` | Implement Virtual Memory and CPU Scheduling/log.c:183-195 | Each logged block is copied, from the cache, to its place in the log, in order, beside readers of other blocks |
| `Log.Log.InstallTrans` | Implement Virtual Memory and CPU Scheduling/log.c:70-82 | Each logged block is copied from the log to its home, beside readers of other blocks |
| `Log.Log.RecoverFromLog` | Implement Virtual Memory and CPU Scheduling/log.c:116-122 | Recovery leaves the disk that LogDisk calls Recovered; every disk state on the way is recorded |
| `Log.CommitTraceAtomic` | Implement Virtual Memory and CPU Scheduling/log.c:198-207 | Every disk state that commit passes through recovers to all old or all new home blocks |
| `Log.Log.Commit` | Implement Virtual Memory and CPU Scheduling/log.c:198-207 | commit brings every latest block home, empties the log, and passes only through states that recover to all or nothing, while processes outside any operation hold buffers of other blocks |
| `Log.Log.TryBeginOp` | Implement Virtual Memory and CPU Scheduling/log.c:131-145 | begin_op admits exactly when no commit runs and LOGSIZE has room for every outstanding operation and one more |
| `Log.Log.LogWrite` | Implement Virtual Memory and CPU Scheduling/log.c:219-238 | One call of log_write, by itself, absorbs a block already logged, pins the buffer, and panics exactly when the log is full or no operation is open |
| `Log.Log.EndOp` | Implement Virtual Memory and CPU Scheduling/log.c:151-179 | The last end_op commits everything; others only count down; the disk passes only through all-or-nothing states; readers outside any operation may hold buffers meanwhile |
| `GroupCommit.OneCommitter` | Implement Virtual Memory and CPU Scheduling/log.c:151-179 | While a process commits, no other commits and no operation is running |
| `GroupCommit.StepInv` | Implement Virtual Memory and CPU Scheduling/log.c:125-238 | Every step of begin_op, end_op, commit, crash and recovery, the change of a buffer, the test of log_write without the lock and its section with the lock, by any process, keeps the invariant |
| `GroupCommit.RunInv` | Implement Virtual Memory and CPU Scheduling/log.c:125-238 | The invariant of the log, the cache and the processes holds in every reachable state |
| `GroupCommit.CrashSafety` | Implement Virtual Memory and CPU Scheduling/log.c:68-238 | Wherever a run of any processes stops, unless commit has written past the log, a crash and a recovery give the effect of a prefix of the logged writes, one that cuts no operation in two; LogSpace says exactly when commit can write past the log |
| `GroupCommit.Durability` | Implement Virtual Memory and CPU Scheduling/log.c:198-207 | The committed prefix only grows; no crash undoes it |
| `GroupCommit.CommitIsSynchronous` | Implement Virtual Memory and CPU Scheduling/log.c:170-178 | When the end_op that commits returns, all that was logged is on the disk and the log is empty |
| `GroupCommit.OnlyRoom` | Implement Virtual Memory and CPU Scheduling/log.c:157-158 | The panic of end_op, and that of log_write outside a transaction, are unreachable; those for want of room in the log, the cache or the disk are left |
| `GroupCommit.RunBuffers` | Implement Virtual Memory and CPU Scheduling/bio.c:80-92 | In every reachable state at most NBUF blocks are pinned by the log or held by operations |
| `GroupCommit.NeverOverflows` | Implement Virtual Memory and CPU Scheduling/log.c:228-235 | Although the test for room is made before the lock is taken, the array lh.block is never overrun, by any number of processes: the block too many would have found no buffer |
| `GroupCommit.QuietLog` | Implement Virtual Memory and CPU Scheduling/log.c:151-179 | A commit implies that no operation is outstanding; with neither, lh is empty; lh has no duplicates and is the set of blocks logged since the last commit |
| `GroupCommit.LogBudget` | Implement Virtual Memory and CPU Scheduling/log.c:126-146 | If each operation adds at most MAXOPBLOCKS blocks, lh.n plus the unused budgets of all outstanding operations never exceeds LOGSIZE |
| `GroupCommit.RunFits` | Implement Virtual Memory and CPU Scheduling/log.c:131-145 | If each adds at most q of them, 0 < q, that sum never exceeds MAXOPBLOCKS + 2q, because begin_op reserves MAXOPBLOCKS for each |
| `LogSpace.NoPanic` | Implement Virtual Memory and CPU Scheduling/log.c:219-226 | Without the condition Panics no run comes to any panic, of log_write, bget or iderw |
| `LogSpace.Contained` | Implement Virtual Memory and CPU Scheduling/log.c:219-238 | If operations add at most MAXOPBLOCKS blocks and MAXOPBLOCKS + 2q is less than the size of the log, lh.n never exceeds log.size - 1, although the test is made without the lock, and every run is crash safe at every moment |
| `LogSpace.NeverSpills` | Implement Virtual Memory and CPU Scheduling/log.c:183-195 | Without the condition Spills no commit writes a block past the log |
| `LogSpace.FilewriteFits` | Implement Virtual Memory and CPU Scheduling/file.c:127-133 | In particular not by operations of at most seven blocks, the bound proved for the transactions of filewrite |
| `LogSpace.PanicIff` | Implement Virtual Memory and CPU Scheduling/log.c:223-224 | For every layout of the log: some run panics with too big a transaction if and only if an operation may add q > 0 blocks and log.size - 1, or LOGSIZE, is at most MAXOPBLOCKS + 2q |
| `LogSpace.OutgrowIff` | Implement Virtual Memory and CPU Scheduling/log.c:223-235 | For every layout: some run gets lh.n above log.size - 1 if and only if 2 <= log.size <= LOGSIZE and log.size <= MAXOPBLOCKS + 2q; two processes then pass the test on the last place |
| `LogSpace.TornNotSafe` | Implement Virtual Memory and CPU Scheduling/log.c:183-195 | When commit has written past the log, the disk recovers to the effect of no prefix of the writes |
| `LogSpace.SafeIff` | Implement Virtual Memory and CPU Scheduling/log.c:68-238 | For every layout: all runs are crash safe at every moment if and only if the log cannot be outgrown or has at least NBUF blocks; in the second case commit finds no buffer and panics before it writes |
| `LogSpace.WithMkfs` | Implement Virtual Memory and CPU Scheduling/mkfs.c:23-26 | With the layout of mkfs the log can be outgrown, and log_write can panic, if and only if an operation may add MAXOPBLOCKS blocks; in no case is anything written past the log |
| `LogProgress.NoStranding` | Implement Virtual Memory and CPU Scheduling/log.c:131-145 | From any reachable state a process waiting in begin_op gets in by steps of the others alone: no wakeup is lost; only the panic of another process in log_write, or an outgrown log, can prevent it, and neither occurs without Panics |
| `LogProgress.SleepersRefused` | Implement Virtual Memory and CPU Scheduling/log.c:161-177 | In every reachable state a process that sleeps in begin_op would not be let in: every end_op that makes room wakes them |
| `FreeList.InsertOrdered` | Implement Virtual Memory and CPU Scheduling/umalloc.c:25-44 | Putting a block in its gap and coalescing on both sides keeps the list address-ordered with no two adjacent blocks |
| `FreeList.InsertUnits` | Implement Virtual Memory and CPU Scheduling/umalloc.c:25-44 | The free units grow by exactly the units of the block |
| `FreeList.TakeOrdered` | Implement Virtual Memory and CPU Scheduling/umalloc.c:76-85 | Cutting the tail of a block, or removing it whole, keeps the list ordered |
| `FreeList.TakeUnits` | Implement Virtual Memory and CPU Scheduling/umalloc.c:76-85 | The free units shrink by exactly the units handed out |
| `FreeList.FindGap` | Implement Virtual Memory and CPU Scheduling/umalloc.c:30-32 | Every block off the list has a gap it belongs in |
| `FreeList.GapUnique` | Implement Virtual Memory and CPU Scheduling/umalloc.c:30-32 | No block belongs in two gaps of the list |
| `Umalloc.UnitsSuffice` | Implement Virtual Memory and CPU Scheduling/umalloc.c:69 | The unit count holds the bytes asked for if and only if the rounding does not wrap at 2^32 |
| `Umalloc.UnitsTooFew` | Implement Virtual Memory and CPU Scheduling/umalloc.c:69 | A request close to 2^32 bytes is counted as one bare header |
| `Umalloc.SbrkGrows` | Implement Virtual Memory and CPU Scheduling/umalloc.c:47-57 | sbrk is asked for the bytes morecore goes on to use exactly when the request is short of 2^31 bytes or wraps; in between its argument is not positive |
| `Umalloc.CoreEnough` | Implement Virtual Memory and CPU Scheduling/umalloc.c:52-53 | morecore takes what it is asked for, or 32768 bytes if that is more |
| `Umalloc.FreedValid` | Implement Virtual Memory and CPU Scheduling/umalloc.c:25-44 | free keeps the heap invariant: one ordered cycle through base, blocks disjoint from each other and from live ones, neighbours merged |
| `Umalloc.AdoptedValid` | Implement Virtual Memory and CPU Scheduling/umalloc.c:57-59 | Taking in core from sbrk, above all that was there, keeps the heap invariant |
| `Umalloc.CutOffValid` | Implement Virtual Memory and CPU Scheduling/umalloc.c:76-87 | Cutting off a block to hand it out keeps the heap invariant, and the block was in no live one |
| `Umalloc.LiveCount` | Implement Virtual Memory and CPU Scheduling/umalloc.c:76-87 | The units that belong to some block handed out number the sum of the sizes of those blocks |
| `Umalloc.Conservation` | Implement Virtual Memory and CPU Scheduling/umalloc.c:25-90 | The sizes of the free blocks and of the blocks handed out add up to the units obtained from sbrk |
| `Umalloc.Heap.FindPlace` | Implement Virtual Memory and CPU Scheduling/umalloc.c:30-32 | The search of free ends at the gap of the block, in fewer steps than there are free blocks |
| `Umalloc.Heap.Free` | Implement Virtual Memory and CPU Scheduling/umalloc.c:25-44 | The pointer assignments of free do what the specification says, and set freep |
| `Umalloc.Heap.Morecore` | Implement Virtual Memory and CPU Scheduling/umalloc.c:47-61 | 0, and nothing changed, if sbrk fails; else the new core is on the list, coalesced, and freep is a block from which the search goes on to find it |
| `Umalloc.NextFitUnique` | Implement Virtual Memory and CPU Scheduling/umalloc.c:74-76 | From a given start exactly one block can be the next that is large enough |
| `Umalloc.Heap.Malloc` | Implement Virtual Memory and CPU Scheduling/umalloc.c:64-90 | malloc ends; it calls morecore at most once, only if no block is large enough; it returns 0 if and only if that fails; else the block returned is disjoint from every live one, and comes from the next block after freep, or after where the new core was put, that is large enough |
| `Umalloc.Heap.Search` | Implement Virtual Memory and CPU Scheduling/umalloc.c:74-89 | The loop of malloc, from freep, or from where morecore leaves it, whether or not new core coalesces into the block it stands on |
| `Umalloc.Heap.TakeFrom` | Implement Virtual Memory and CPU Scheduling/umalloc.c:77-86 | The tail of a block, or the whole block, leaves the list and becomes live |
| `Bytes.SetWordAt` | Implement Virtual Memory and CPU Scheduling/fs.c:389-394 | A block pointer stored in an indirect block is read back, and no other changes |
| `Bytes.LittleEndian` | Implement Virtual Memory and CPU Scheduling/fs.c:389-394 | A word is stored with its least byte first, and no other byte changes |
| `Bytes.SetBitAt` | Implement Virtual Memory and CPU Scheduling/fs.c:66-69 | Marking a block used changes the bit of no other block |
| `Bytes.ClearBitAt` | Implement Virtual Memory and CPU Scheduling/fs.c:89-93 | Freeing a block changes the bit of no other block |
| `Bytes.MaskIs` | Implement Virtual Memory and CPU Scheduling/fs.c:66 | Bit k of a byte of the free map is 1 << k |
| `Files.AssignSlots` | Implement Virtual Memory and CPU Scheduling/fs.c:372-397 | Giving a fresh block to an empty slot, direct, indirect or an entry, changes that slot of that file and no other |
| `Files.AssignInv` | Implement Virtual Memory and CPU Scheduling/fs.c:372-397 | Every block stays free in the bitmap or owned by exactly one slot of one inode |
| `Files.FileBlockIs` | Implement Virtual Memory and CPU Scheduling/fs.c:376-394 | Block bn of a file is pointer bn of the inode for bn < 12, and word bn - 12 of the indirect block after that |
| `Files.FreeOne` | Implement Virtual Memory and CPU Scheduling/fs.c:82-95 | A block that itrunc comes to free is still marked: the panic for freeing a free block is unreachable |
| `Files.TruncatedInv` | Implement Virtual Memory and CPU Scheduling/fs.c:407-435 | After itrunc every block is again free or owned once, and no other slot has changed |
| `FileData.MapOne` | Implement Virtual Memory and CPU Scheduling/fs.c:378-396 | bmap through a direct pointer, or an entry of an indirect block that is there, maps the block and keeps everything that any file holds |
| `FileData.MapTwo` | Implement Virtual Memory and CPU Scheduling/fs.c:387-394 | bmap that allocates the indirect block and then the entry maps the block and keeps everything that any file holds |
| `FileData.MappedBytes` | Implement Virtual Memory and CPU Scheduling/fs.c:372-400 | No byte of any file is changed by bmap: a fresh block reads as the zeros that were read before |
| `FileData.MappedDense` | Implement Virtual Memory and CPU Scheduling/fs.c:372-400 | bmap at the end of a file without holes leaves none |
| `FileWrite.WriteStep` | Implement Virtual Memory and CPU Scheduling/fs.c:498-504 | One turn of the loop of writei writes its bytes where they belong and moves nothing else |
| `FileWrite.WroteContent` | Implement Virtual Memory and CPU Scheduling/fs.c:482-511 | writei as a whole splices the bytes into the file; all other files keep theirs |
| `FileWrite.WroteNoHoles` | Implement Virtual Memory and CPU Scheduling/fs.c:498-510 | A file without holes stays without, and its saved inode equals the one in memory although iupdate runs only on growth |
| `FileWrite.TouchedCount` | Implement Virtual Memory and CPU Scheduling/file.c:127-133 | A write of up to 1536 bytes logs at most seven blocks on a disk whose free map is one block |
| `FileSteps.FreshInv` | Implement Virtual Memory and CPU Scheduling/mkfs.c:94-103 | A disk whose free map marks only the blocks without file data satisfies the ownership invariant, and its empty inodes have no holes |
| `FileSteps.TruncatedContent` | Implement Virtual Memory and CPU Scheduling/fs.c:407-435 | itrunc empties one file; the contents and density of the others stay |
| `FileSteps.SpliceTwice` | Implement Virtual Memory and CPU Scheduling/file.c:133-152 | Two writes one after the other are one write of both |
| `FileSteps.SpliceAt` | Implement Virtual Memory and CPU Scheduling/fs.c:498-511 | A write gives the longer of the two lengths, the bytes written at their positions, and the bytes that were there elsewhere |
| `FileSteps.RangeOfSplice` | Implement Virtual Memory and CPU Scheduling/fs.c:453-511 | Reading where one has written gives what one has written |
| `FileSteps.ChunkIs` | Implement Virtual Memory and CPU Scheduling/file.c:127-133 | The chunks of filewrite are 1536 bytes, the most whole blocks for which the blocks it allows for stay within MAXOPBLOCKS |
| `FileLog.LogsBits` | Implement Virtual Memory and CPU Scheduling/log.c:219-236 | A transaction that logs all it changes logs the block of the free map of every bit that it changes |
| `FileSteps.CompleteStops` | Implement Virtual Memory and CPU Scheduling/file.c:133-152 | filewrite stops after exactly the whole chunks that fit below the largest file size |
| `FileSteps.CompleteIff` | Implement Virtual Memory and CPU Scheduling/file.c:117-156 | All n bytes are written if and only if n is 0, or the offset is not past the end and off + n is at most the largest file size |
| `FileSteps.CompleteInPart` | Implement Virtual Memory and CPU Scheduling/file.c:144-155 | An input for which some bytes are written and -1 is returned |
| `FileOps.FileSystem.Balloc` | Implement Virtual Memory and CPU Scheduling/fs.c:56-78 | The least free block, marked and zeroed; it panics exactly when none is free |
| `FileOps.FileSystem.Bfree` | Implement Virtual Memory and CPU Scheduling/fs.c:81-95 | Exactly that bit is cleared; the block must be marked |
| `FileOps.FileSystem.Iupdate` | Implement Virtual Memory and CPU Scheduling/fs.c:220-236 | The inode in memory is saved, and only its block is logged |
| `FileOps.FileSystem.Bmap` | Implement Virtual Memory and CPU Scheduling/fs.c:372-400 | The block is there afterwards, nothing else that a file holds has changed; the blocks logged are at most those of the map, the indirect block and the block itself, and every block that has changed is logged; it panics only out of range or out of blocks |
| `FileOps.FileSystem.Itrunc` | Implement Virtual Memory and CPU Scheduling/fs.c:407-435 | Exactly the blocks of the inode are freed, the inode is empty in memory and on disk, and every block of the free map and of inodes that has changed is logged |
| `FileOps.FileSystem.Readi` | Implement Virtual Memory and CPU Scheduling/fs.c:453-476 | The bytes from off, up to n or the end; -1 past the end or when off + n wraps; no contents change even where a hole is filled, what changes then is logged, and nothing changes at all in a file without holes |
| `FileOps.FileSystem.Writei` | Implement Virtual Memory and CPU Scheduling/fs.c:482-511 | For every off and n: refused without effect, or spliced in, with every other file, every hole-free file and the saved inode as promised; every block that changes is logged, and every block the bytes lie in even if it does not; and no others than its own |
| `FileOps.FileSystem.WriteChunk` | Implement Virtual Memory and CPU Scheduling/file.c:140-146 | Each transaction of filewrite is one writei; it logs all that it changes and the blocks of its bytes, and at most seven blocks |
| `FileOps.FileSystem.Filewrite` | Implement Virtual Memory and CPU Scheduling/file.c:117-156 | The chunks together write exactly the requested bytes in order, or the whole chunks that fit; f->off advances by as much; -1 unless all are written; from before the first transaction to after the last, each logs all that it changes |
| `Paging.FreshInv` | Implement Virtual Memory and CPU Scheduling/kalloc.c:52-58 | After freerange every frame is on the free list once and the invariant holds |
| `Paging.TakenInv` | Implement Virtual Memory and CPU Scheduling/kalloc.c:87-101 | kalloc keeps the frame partition: every frame is on the free list once, or has exactly one use |
| `Paging.GivenInv` | Implement Virtual Memory and CPU Scheduling/kalloc.c:64-82 | kfree of a frame in no use keeps the frame partition |
| `Paging.AddTableInv` | Implement Virtual Memory and CPU Scheduling/vm.c:44-60 | A new page table under an empty directory entry keeps the frame partition |
| `Paging.AddPageInv` | Implement Virtual Memory and CPU Scheduling/vm.c:76-80 | A new page under an empty table entry keeps the frame partition |
| `Paging.DropPageInv` | Implement Virtual Memory and CPU Scheduling/vm.c:290-297 | Clearing the entry of a page keeps the frame partition |
| `Paging.AddTableLookup` | Implement Virtual Memory and CPU Scheduling/vm.c:49-59 | A new empty table changes no translation of any directory |
| `Paging.AddPageLookup` | Implement Virtual Memory and CPU Scheduling/vm.c:80 | A mapped page changes the translation of that page alone |
| `Paging.DropPageLookup` | Implement Virtual Memory and CPU Scheduling/vm.c:297 | Clearing the entry of a page changes the translation of that page alone |
| `Paging.AllowedBy` | Implement Virtual Memory and CPU Scheduling/vm.c:53-58 | What the user may do with a page, by the directory entry and the table entry together, is what the table entry says, since a new table is entered with all permissions |
| `PagingSteps.OthersSame` | Implement Virtual Memory and CPU Scheduling/vm.c:240-301 | Changes under one directory leave every other address space with the same pages, flags and contents |
| `PagingSteps.WithTableChanged` | Implement Virtual Memory and CPU Scheduling/vm.c:44-60 | walkpgdir with alloc changes no translation and takes one frame |
| `PagingSteps.FreedChanged` | Implement Virtual Memory and CPU Scheduling/vm.c:290-297 | One turn of deallocuvm unmaps one page and frees its frame |
| `Spaces.BesideSame` | Implement Virtual Memory and CPU Scheduling/vm.c:338-369 | Beside a new address space every old one has the pages and contents it had |
| `Spaces.GoneFreed` | Implement Virtual Memory and CPU Scheduling/vm.c:305-321 | Each frame of a freed address space is on the free list exactly once |
| `Spaces.SameFree` | Implement Virtual Memory and CPU Scheduling/vm.c:366-368 | Where the uses are the same the free list has the same frames |
| `VmSteps.Restored` | Implement Virtual Memory and CPU Scheduling/vm.c:253-267 | Undoing what allocuvm mapped restores the old translation |
| `VmSteps.CopyStep` | Implement Virtual Memory and CPU Scheduling/vm.c:347-363 | One turn of copyuvm copies flags and contents to a frame that was not in use |
| `Vm.PhysicalMemory.Kalloc` | Implement Virtual Memory and CPU Scheduling/kalloc.c:87-101 | The head of the free list, or failure exactly when it is empty |
| `Vm.PhysicalMemory.Kfree` | Implement Virtual Memory and CPU Scheduling/kalloc.c:64-82 | Every byte of the frame is 1 and it heads the free list |
| `VmSteps.UpPageIs` | Implement Virtual Memory and CPU Scheduling/vm.c:250 | PGROUNDUP gives the least page boundary that is not below the address |
| `Vm.PhysicalMemory.Walkpgdir` | Implement Virtual Memory and CPU Scheduling/vm.c:38-61 | The table for the address, made if asked; it fails exactly when it is not there and cannot be made |
| `Vm.PhysicalMemory.MapPage` | Implement Virtual Memory and CPU Scheduling/vm.c:74-85 | One page is mapped, or nothing changes for want of memory |
| `Vm.PhysicalMemory.Mappages` | Implement Virtual Memory and CPU Scheduling/vm.c:66-87 | A region of the kernel part is mapped page by page to consecutive frames; it fails if and only if there are fewer free frames than missing tables |
| `Vm.PhysicalMemory.Setupkvm` | Implement Virtual Memory and CPU Scheduling/vm.c:126-145 | A new directory with the kernel map and no user page; it fails if and only if there are fewer free frames than a directory and the tables of the kernel map, and then the same frames are in use as before |
| `Vm.PhysicalMemory.Allocuvm` | Implement Virtual Memory and CPU Scheduling/vm.c:240-270 | Fresh zeroed pages between the sizes, which the user can read and write by the flags of both levels; it fails if and only if there are fewer free frames than pages and missing tables, and then every translation, flag and content is as before |
| `Vm.PhysicalMemory.Deallocuvm` | Implement Virtual Memory and CPU Scheduling/vm.c:276-301 | No page is left between the sizes, all others are as they were, through tables that are there or not |
| `Vm.PhysicalMemory.Copyuvm` | Implement Virtual Memory and CPU Scheduling/vm.c:338-369 | On success equal contents, flags and effective permissions on fresh frames and an unchanged parent; it fails if and only if there are fewer free frames than the directory, the kernel tables, the pages and their tables, and then no frame is lost |
| `Demand.MapTook` | Implement Virtual Memory and CPU Scheduling/vm.c:38-80 | Mapping a page adds its table to the directory, and takes a frame from the free list for it, exactly if it was not there |
| `Demand.SpanStep` | Implement Virtual Memory and CPU Scheduling/vm.c:258-268 | What a range of pages needs in tables is what its first page needs and what the rest then needs |
| `Demand.CopySpare` | Implement Virtual Memory and CPU Scheduling/vm.c:344-363 | A fork of n pages needs one frame for the directory, one for each table of the kernel map, n for the pages and one for every 1024 of them |
| `Vm.PhysicalMemory.Freevm` | Implement Virtual Memory and CPU Scheduling/vm.c:305-321 | The address space is gone and every other use and content is untouched |
| `Pipes.Tests` | Implement Virtual Memory and CPU Scheduling/pipe.c:85 | The tests for full and empty on the wrapping counters mean what they say |
| `Pipes.PutHolds` | Implement Virtual Memory and CPU Scheduling/pipe.c:93 | A byte put at nwrite modulo 512 joins the queue, even where the counter wraps |
| `Pipes.GetHolds` | Implement Virtual Memory and CPU Scheduling/pipe.c:116 | The byte at nread modulo 512 is the oldest of the queue |
| `Pipes.PipeBuffer.constructor` | Implement Virtual Memory and CPU Scheduling/pipe.c:33-37 | A new pipe is empty and open at both ends |
| `Pipes.PipeBuffer.Write` | Implement Virtual Memory and CPU Scheduling/pipe.c:79-98 | From lock to release or sleep pipewrite accepts the next bytes, in order, all of them or until the ring is full, and returns, fails or sleeps as the state says |
| `Pipes.PipeBuffer.Read` | Implement Virtual Memory and CPU Scheduling/pipe.c:101-121 | piperead returns the oldest bytes of the queue, in order, as many as asked or all there are, or sleeps exactly on an empty open pipe, not killed |
| `PipeRuns.StepInv` | Implement Virtual Memory and CPU Scheduling/pipe.c:59-121 | Every step of any process keeps at most 512 bytes queued |
| `PipeRuns.FirstInFirstOut` | Implement Virtual Memory and CPU Scheduling/pipe.c:79-121 | In every run what reads have returned is a prefix of what writes have put in, at most 512 bytes behind |
| `PipeRuns.ReaderGets` | Implement Virtual Memory and CPU Scheduling/pipe.c:113-121 | A reader that wants bytes and has its turn on a pipe with some returns with as many as it wants or with all |
| `PipeRuns.WriterPuts` | Implement Virtual Memory and CPU Scheduling/pipe.c:84-98 | A turn of a writer ends with all its bytes accepted or the pipe full, and with some accepted if there is room |
| `PipeRuns.StepCalm` | Implement Virtual Memory and CPU Scheduling/pipe.c:86-91 | A step leaves a process asleep for no reason if and only if a killed writer gives up on a pipe that it filled while a reader slept |
| `PipeRuns.NoLostWakeup` | Implement Virtual Memory and CPU Scheduling/pipe.c:59-121 | In exactly the runs without such a writer a sleeping reader implies empty and open, a sleeping writer full and open |
| `PipeRuns.NeverBothAsleep` | Implement Virtual Memory and CPU Scheduling/pipe.c:84-112 | Then a reader and a writer are never asleep together |
| `PipeRuns.KilledWriterStrands` | Implement Virtual Memory and CPU Scheduling/pipe.c:86-89 | A run in which a killed writer leaves 512 bytes that a sleeping reader is not told of |
| `Procs.Ptable.Allocproc` | Implement Virtual Memory and CPU Scheduling/proc.c:132-189 | The first unused slot, or none if all are used |
| `Procs.Ptable.Wakeup1` | Implement Virtual Memory and CPU Scheduling/proc.c:640-646 | Exactly the processes asleep on the channel become runnable, and nothing else of any slot changes |
| `Procs.ExitSlotIs` | Implement Virtual Memory and CPU Scheduling/proc.c:343-362 | Slot by slot: who exits is a zombie, its parent is woken if it waits, init if it waits and is given a zombie, init has the children, and nothing else changes |
| `Procs.Ptable.Exit` | Implement Virtual Memory and CPU Scheduling/proc.c:343-362 | The parent is woken, children pass to init, init is woken if one has exited, and the process is a zombie |
| `Procs.Ptable.Wait` | Implement Virtual Memory and CPU Scheduling/proc.c:380-416 | The first zombie child is reaped and its slot is unused, without parent, number or mark of being killed; else -1 without children or if killed; else the process sleeps on itself |
| `ProcTree.StepInv` | Implement Virtual Memory and CPU Scheduling/proc.c:254-417 | fork, in its four steps, exit, wait, sleep, wakeup and kill, by any process, keep the tree and its waiters |
| `ProcTree.RunInv` | Implement Virtual Memory and CPU Scheduling/proc.c:254-417 | In every reachable state the parent links are a tree and nobody sleeps in wait for nothing |
| `ProcTree.RootedAtInit` | Implement Virtual Memory and CPU Scheduling/proc.c:278 | From every process the parent links lead to init through processes that are alive |
| `ProcTree.AncestorsDistinct` | Implement Virtual Memory and CPU Scheduling/proc.c:348-359 | No process occurs twice among the ancestors of a process, nor among its own |
| `ProcTree.ZombiesAreSeen` | Implement Virtual Memory and CPU Scheduling/proc.c:343-362 | A zombie has no children, and its parent is alive and not asleep in wait |
| `ProcTree.SleepInWait` | Implement Virtual Memory and CPU Scheduling/proc.c:407-415 | wait sleeps only with a child, and with no child that has exited |
| `ProcTree.RunPids` | Implement Virtual Memory and CPU Scheduling/proc.c:145-147 | In every reachable state no two processes have the same number |
| `ProcTree.StepPids` | Implement Virtual Memory and CPU Scheduling/proc.c:145-147 | No step changes the number of a process that stays |
| `ProcTree.WakeupWakes` | Implement Virtual Memory and CPU Scheduling/proc.c:640-669 | wakeup leaves nobody asleep on its channel, and changes nobody else |
| `ProcTree.SleepsOn` | Implement Virtual Memory and CPU Scheduling/proc.c:575-669 | Of all steps of all processes only a wakeup on its channel and a kill end a sleep outside wait |
| `ProcTree.KillWakes` | Implement Virtual Memory and CPU Scheduling/proc.c:675-693 | kill marks one process and wakes it wherever it sleeps, and leaves a process that does not sleep as it was |
| `ProcTree.ForkEnds` | Implement Virtual Memory and CPU Scheduling/proc.c:254-316 | A fork ends with one runnable child of the process that forks, or with its slot unused again |
| `Scheduler.CompareIff` | Implement Virtual Memory and CPU Scheduling/proc.c:424-439 | Comparing the two words compares the numbers they stand for |
| `Scheduler.TickedAdds` | Implement Virtual Memory and CPU Scheduling/trap.c:136-153 | A tick adds exactly 1024000/weight, carrying from the low word to the high one; with slice 0 it yields |
| `Scheduler.NiceSteps` | Implement Virtual Memory and CPU Scheduling/proc.c:11-60 | Nice 20 has weight 1024, and one step of nice divides the weight by between 1.19 and 1.29 |
| `Scheduler.NicerRunsSlower` | Implement Virtual Memory and CPU Scheduling/trap.c:141 | The smaller nice, the less a tick adds to the virtual runtime, over the whole table |
| `Scheduler.RunsItsSlice` | Implement Virtual Memory and CPU Scheduling/trap.c:136-153 | A process runs until its ticks make up its slice, and is preempted by that tick |
| `Scheduler.TotalExceeds` | Implement Virtual Memory and CPU Scheduling/proc.c:496 | With two runnable processes the slice computes to 0 |
| `Scheduler.AloneOrShared` | Implement Virtual Memory and CPU Scheduling/proc.c:496 | A process alone gets a slice of ten ticks, and beside any other a slice of 0, which the first tick ends |
| `Scheduler.Cpu.Pick` | Implement Virtual Memory and CPU Scheduling/proc.c:474-485 | The scan finds a runnable process of least virtual runtime |
| `Scheduler.Cpu.RunLeast` | Implement Virtual Memory and CPU Scheduling/proc.c:466-504 | It is dispatched, and runs until its first tick |
| `Scheduler.Cpu.Run` | Implement Virtual Memory and CPU Scheduling/proc.c:458-506 | Over n ticks each goes to a process of least virtual runtime |
| `Scheduler.Gap` | Implement Virtual Memory and CPU Scheduling/trap.c:141-152 | The greatest gap between virtual runtimes never exceeds the larger of the first gap and the largest increment |
| `Scheduler.ShareByNice` | Implement Virtual Memory and CPU Scheduling/proc.c:473-487 | Over any number of ticks, what two processes are given, weighted by 1024000 over the table entries of their nice values, differs by at most twice the gap |
| `Scheduler.NicerNotBehind` | Implement Virtual Memory and CPU Scheduling/proc.c:473-487 | A process with a smaller nice value falls behind another by a bounded number of ticks only |
| `Waking.Wake` | Implement Virtual Memory and CPU Scheduling/proc.c:610-660 | Each process woken gets the least runtime of the runnable ones less a tick of its own, in words that wrap, or 0 if none is runnable |
| `Waking.WokenFirst` | Implement Virtual Memory and CPU Scheduling/proc.c:645-658 | It comes before all runnable ones if and only if the low word of the least is at least that tick; otherwise it comes after the least by more than three times 10^9 |
| `Fairness.GapBound` | Implement Virtual Memory and CPU Scheduling/proc.c:473-487 | Under any schedule that always serves the least, no two virtual runtimes are further apart than at first or than one increment |
| `Fairness.Share` | Implement Virtual Memory and CPU Scheduling/proc.c:473-487 | Ticks are shared in proportion to the weights, up to twice the gap, however long the run |
| `Fairness.NotStarved` | Implement Virtual Memory and CPU Scheduling/proc.c:473-487 | While a process waits no other is given more than twice the gap |
| `ShellSyntax.TokenAt` | Implement Virtual Memory and CPU Scheduling/sh.c:276-300 | A token is not empty; a symbol is one of the seven or the double > |
| `ShellSyntax.Characters` | Implement Virtual Memory and CPU Scheduling/sh.c:262-263 | The blanks and symbols of the shell are these, and all else makes words |
| `ShellSyntax.Redirs` | Implement Virtual Memory and CPU Scheduling/sh.c:375-397 | Redirections consume a prefix of the tokens, and their files come from it |
| `ShellAlike.AppendIsOverwrite` | Implement Virtual Memory and CPU Scheduling/sh.c:385-393 | With every >> replaced by > a line gives the same command, or the same panic, for all tokens |
| `ShellAlike.AppendLost` | Implement Virtual Memory and CPU Scheduling/sh.c:389-393 | a >> b overwrites b: it gives the tree of a > b |
| `ShellSyntax.Line` | Implement Virtual Memory and CPU Scheduling/sh.c:345-359 | The grammar of a line: what is parsed comes from a prefix of the tokens |
| `ShellSyntax.Args` | Implement Virtual Memory and CPU Scheduling/sh.c:429-446 | Words and redirections of a command up to a symbol that ends it; fewer than MAXARGS words |
| `Shell.Parser.Peek` | Implement Virtual Memory and CPU Scheduling/sh.c:311-320 | Whether the next token starts with one of the symbols; only blanks are skipped |
| `Shell.Parser.Gettoken` | Implement Virtual Memory and CPU Scheduling/sh.c:266-308 | The next token of the line, its extent, and the cursor at the one after |
| `Shell.Parser.ParseLine` | Implement Virtual Memory and CPU Scheduling/sh.c:345-359 | parseline on the cursor agrees with the grammar of lines, in result, rest and panic; the recursion ends on every input |
| `Shell.Parser.ParsePipe` | Implement Virtual Memory and CPU Scheduling/sh.c:362-372 | parsepipe on the cursor agrees with the grammar of pipes, in result, rest and panic |
| `Shell.Parser.ParseRedirs` | Implement Virtual Memory and CPU Scheduling/sh.c:375-397 | parseredirs on the cursor agrees with the grammar of redirections; it panics exactly for a missing file name |
| `Shell.Parser.ParseBlock` | Implement Virtual Memory and CPU Scheduling/sh.c:400-413 | parseblock on the cursor agrees with the grammar of parenthesised lines, with or without the closing parenthesis |
| `Shell.Parser.ParseExec` | Implement Virtual Memory and CPU Scheduling/sh.c:416-446 | parseexec on the cursor agrees with the grammar of commands, with its panics for a stray symbol and too many words |
| `Shell.Parser.NulTerminate` | Implement Virtual Memory and CPU Scheduling/sh.c:450-493 | A NUL is put at the end of each word of the command, and nowhere else |
| `Shell.ReadBack` | Implement Virtual Memory and CPU Scheduling/sh.c:450-493 | No word ends inside another, so each reads back whole |
| `Shell.Parser.ParseCmd` | Implement Virtual Memory and CPU Scheduling/sh.c:328-342 | A line is a command or a panic as the grammar says; then each argument and file name reads back from the buffer as exactly its text |
| `ShellRoundTrip.Lex` | Implement Virtual Memory and CPU Scheduling/sh.c:266-308 | The tokens of a printed command are the printed words and symbols |
| `ShellRoundTrip.RoundTrip` | Implement Virtual Memory and CPU Scheduling/sh.c:265-493 | In the grammar every command tree, printed with parentheses around each part, valid words and fewer than MAXARGS of them, is parsed back to the same tree |
| `ShellConcrete.LexSpaced` | Implement Virtual Memory and CPU Scheduling/sh.c:266-308 | The tokens of a line are those it was written with, for any blanks between them, and none where none are needed |
| `ShellConcrete.ReadsAsWritten` | Implement Virtual Memory and CPU Scheduling/sh.c:328-446 | Every line that follows the levels of the grammar, with chains of |, &, ;, redirections before, among and after the words and after parentheses, spaced in any way, is read as the command it says: | to the right, & before ;, later redirections outermost |
| `ShellConcrete.MinimalRoundTrip` | Implement Virtual Memory and CPU Scheduling/sh.c:328-446 | Every command tree, written with parentheses only where a level needs them, is parsed back to the same tree |
| `ShellConcrete.MinimalPlain` | Implement Virtual Memory and CPU Scheduling/sh.c:345-372 | What can be written without parentheses is |
| `ShellPanics.TooManyWords` | Implement Virtual Memory and CPU Scheduling/sh.c:437-442 | MAXARGS words in a row are a panic |
| `ShellPanics.RedirectionWithoutFile` | Implement Virtual Memory and CPU Scheduling/sh.c:381-383 | So is a redirection without a file |
| `ShellPanics.NotClosed` | Implement Virtual Memory and CPU Scheduling/sh.c:408-409 | a parenthesis that is not closed |
| `ShellPanics.NotOpened` | Implement Virtual Memory and CPU Scheduling/sh.c:336-339 | one that was not opened |
| `ShellPanics.NothingAfterAmp` | Implement Virtual Memory and CPU Scheduling/sh.c:350-358 | a command after & without a ; |
| `ShellPanics.ParenAfterWord` | Implement Virtual Memory and CPU Scheduling/sh.c:435-436 | and a parenthesis among words |
| `ShellReadBack.HeldMeaning` | Implement Virtual Memory and CPU Scheduling/sh.c:450-493 | If each word reads back from the buffer as its text, the command found there is the one that was parsed |
| `ShellReadBack.ReadPrinted` | Implement Virtual Memory and CPU Scheduling/sh.c:328-342 | Every such command, printed into a buffer and parsed there by parsecmd, is found in the buffer again, its words as C strings |
| `ShellReadBack.ReadWritten` | Implement Virtual Memory and CPU Scheduling/sh.c:328-342 | So is every line that follows the levels of the grammar, spaced in any way |
| `Grep.InStar` | Implement Virtual Memory and CPU Scheduling/grep.c:99-106 | The words of c* are the texts whose every character fits c |
| `Grep.PrefixStar` | Implement Virtual Memory and CPU Scheduling/grep.c:99-106 | A match of c* followed by a pattern, as a number of characters to skip |
| `Grep.LettersFound` | Implement Virtual Memory and CPU Scheduling/grep.c:72-82 | A pattern of plain letters is found where the text has them |
| `Grep.LettersAnchored` | Implement Virtual Memory and CPU Scheduling/grep.c:74-92 | after ^ at the start of the text, before $ at its end, and with both only if they are the text |
| `Grep.DotAndStar` | Implement Virtual Memory and CPU Scheduling/grep.c:89-106 | A dot stands for any one character, c* for any number of c, and .* for any text |
| `Grep.Matchhere` | Implement Virtual Memory and CPU Scheduling/grep.c:85-96 | matchhere holds exactly when some prefix of the text is in the language of the pattern |
| `Grep.Matchstar` | Implement Virtual Memory and CPU Scheduling/grep.c:99-106 | matchstar holds exactly when some prefix of the text is a word of c* followed by a word of the pattern |
| `Grep.Match` | Implement Virtual Memory and CPU Scheduling/grep.c:72-82 | match holds exactly when the text has a word of the pattern at its start, for ^, or anywhere |

## Left out

- Umalloc.Heap.Malloc: sbrk that is asked for a number of bytes that is not the size morecore uses, zero or negative as a signed 32-bit number, may only fail; `Umalloc.SbrkGrows` says exactly which requests those are. The addresses of the heap are unbounded numbers, and core from sbrk lies above all earlier core.
- FileOps.FileSystem.Readi: for a file with holes, reading outside a transaction reaches log_write, which halts when no operation is outstanding; that halt is not part of its result. Files without holes are not affected: nothing is logged.
- FileOps.FileSystem.Readi and Writei leave out the dispatch of devices (T_DEV); bread, log_write and brelse inside the file layer are plain reads and writes of a block, and the set of logged blocks is kept beside them.
- FileOps.FileSystem.Filewrite: no other process writes the file between two chunks; the dispatch to pipes is left out, as are locks, reference counts and fileread.
- Log.Log.EndOp: while the commit runs, processes outside any operation may hold buffers of blocks that are neither in the log nor in the transaction, as many as leave a buffer to copy with; the commit would wait for a reader of one of its own blocks, and `BufferCache.BreadPanicsFull` says when it would panic for want of a buffer. Waking the waiters is in `GroupCommit`. The array of block numbers in the log header is a sequence, and the header block is its 32-bit words.
- BufferCache.BreadGood, BufferCache.BreadLatest and Bcache.Bcache.Bread are for a block that no other process has locked, so that bread does not wait; with a wait between its parts they are `CacheRuns`. The link fields of a buffer are two arrays, and iderw is the synchronous one of memide.c, atomic for one block.
- GroupCommit.StepInv: an operation changes and logs one block at a time, and what it has changed is its own until log_write, as the buffer is locked; buffers that it only reads, and readers outside operations, are left out. The two reads of lh.n and the one of outstanding in the test of log_write are one step. Each operation may add a bounded number of new blocks, the parameter of the configuration. The machine stops at a panic, and after the first block that commit writes past the log. The cache is the flat map that `CacheRuns.StepFlat` describes; the two machines are not composed.
- LogSpace.PanicIff, LogSpace.OutgrowIff and LogSpace.SafeIff: the disk has LOGSIZE blocks to spare after the log; the panic of iderw at the end of the disk is left out of them. Panics of bget at NBUF pinned blocks are in the machine, but only `LogSpace.NoPanic` says when there is none.
- PipeRuns.StepInv: a process in a call holds a descriptor of its end, so that end is not closed under it; the copying of single bytes between user memory and the ring is one step with the lock held. Freeing the pipe is left out.
- ProcTree.StepInv: `born` orders processes by allocation and is not in the C code. The virtual runtimes that wakeup1 sets are in `Waking`; open files, the working directory and map_fork are left out; chan keeps its last value while a process does not sleep. A process woken from wait may do anything next, of which scanning again is one case.
- Procs.Ptable.Allocproc: the kernel stack, trap frame and context, and the fields of the scheduler, are left out.
- Scheduler.Cpu.Run: one processor, a fixed set of two or more runnable processes that neither sleep nor change nice, and no overflow of the high word within the run. swtch and interrupts are the call and return of a tick.
- Vm.PhysicalMemory.Allocuvm: no page is mapped beforehand between the two sizes, as for a process whose pages end at its size. The free list is a sequence of frames and not a chain through them; freemems is left out.
- Vm.PhysicalMemory.Mappages: the loop for the kernel map, on page boundaries; a user page is one turn of it, MapPage. The rows of kmap are a parameter, of pages above KERNBASE that do not overlap; where the kernel's data starts is not part of this model.
- Vm.PhysicalMemory.Copyuvm: every page below the size is there; the panics for one that is not are left out.
- Shell.Parser.ParseExec: the C code fills the arguments of an exec node that redirections already point to; the model puts the finished node inside them. A command is a value, so the calls of malloc are left out.
- ShellReadBack.ReadPrinted: the printer is part of the specification; the shell has none.
- Grep.Match: the loop that refills the buffer of grep is left out; texts and patterns hold no NUL.
- mmap, munmap and the page-fault handler take a lock twice and add a base twice, so no invariant of their area table holds; they are left out.
- The swap path of the page-replacement tree does not keep its ring and its frames apart; it is left out.
- Paging.FreshInv and FileSteps.FreshInv: the loop of freerange is not modelled, only the free list it leaves; mkfs also writes a root directory and programs, which the state here does not hold.
- Directories and path names, exec, device drivers, console, system-call arguments, boot code and user utilities are left out.
- Spin locks and memory ordering are left out: a stretch of code under a lock is one step.

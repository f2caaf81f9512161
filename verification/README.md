# xv6 with user threads: a Dafny model

This project models the stateful core of xv6, extended with a signal-driven user-thread
library and semaphores, and proves what that code is for: crash-atomic transactions, a
buffer cache that behaves as the disk, files that behave as byte sequences, page tables that
behave as flat maps, and schedulers, semaphores, pipes and a process table that keep their
promises in every interleaving. `dafny verify dfyconfig.toml` checks all of it.

Each component has up to three layers. A value layer gives the state and the effect of each
operation as functions. Lemmas about it state the properties, most of them over every run of
a state machine. A code layer (the `...Code` modules) keeps the loops, arrays and fields of
the C code in classes and proves each method equal to its function or to an outright
statement of its result.

| component | source | modules |
|---|---|---|
| write-ahead log | log.c, memide.c | Disk, LogDisk, LogSystem, LogOverflow, LogCode |
| buffer cache | bio.c | Bio, BioSystem, BioCode |
| user threads and semaphores | uthread.c, usemaphore.c | UThread, UThreadRuns, UThreadLife, Semaphore, SemAlloc, UThreadCode |
| heap | umalloc.c | Heap, HeapRuns, HeapCode |
| blocks, inodes and files | fs.c, file.c | FsBlocks, FsCount, FsAlloc, FsBytes, FsTrunc, FsRuns, FsCode, FsInodes |
| pages and page tables | vm.c, kalloc.c | VmMem, VmSteps, VmRights, VmOps, VmCount, VmKernel, VmUser, VmGrow, VmCopy, VmRuns, VmCode, KallocCode |
| processes | proc.c | Proc, ProcRuns, ProcLife, ProcCode |
| pipes | pipe.c, proc.c | Pipe, PipeRuns, PipeCode |
| pattern matcher | grep.c | Grep |

Options, Search and Sums hold small shared definitions.

## What the code does not do

Five promises fail; each has a failing run or state and an exact condition.

- Log region. log_write tests the log size before it takes log.lock (log.c:216-221), so two
  operations within their budgets can both pass the test and the second append lands on the
  block after the log. `LogOverflow.RegionBoundExactly`: in-budget operations keep the log in
  its region unless the region has 2 to LOGSIZE blocks (with one block every log_write
  panics). mkfs gives it LOGSIZE (mkfs.c:25). filewrite sizes its chunks from LOGSIZE rather
  than MAXOPBLOCKS (file.c:133), so the budget itself is an assumption of these lemmas.
  `LogSystem.PanicExactly` says when log_write panics.
- Wakeup of readers. pipewrite returns -1 to a killed writer without waking readers
  (pipe.c:85-88). `PipeRuns.LostWakeup` gives the run, `PipeRuns.ReadersOkExactly` the exact
  condition.
- Pages on failure. setupkvm returns 0 without freeing its directory (vm.c:139-141), and
  copyuvm does not free the page in hand when mappages fails (vm.c:340-341). With f free
  pages, setupkvm fails exactly when f < 65 and then loses all f (`VmRuns.CreateLoss`).
  copyuvm of n pages loses all f when f < 65, one page when f == 66 + 1025 k for some k with
  1024 k < n, and otherwise none (`VmRuns.ForkLoss`, `VmRuns.StopsExactly`).
  `VmRuns.ForkLossRun` is such a run from boot, and `VmRuns.AllReturned` accounts for every
  other page.
- Born killed. kill does not look at the state of a slot, and unused slots carry pid 0 or the
  pid of a fork that failed; allocproc does not clear the mark (proc.c:140-163, 543-561). So
  kill(0) marks an unused slot, and the next process in it is born killed
  (`ProcLife.BornKilled`). `ProcLife.BornKilledExactly`: a new process is unmarked exactly
  when no kill has found its slot since it was last reaped.
- allocSem keeps the first binary semaphore when there is no second one
  (usemaphore.c:10-13). `SemAlloc.AllocPairExactly`: a semaphore is lost exactly when one is
  free. `SemAlloc.LoneSemaphoreLost` is such a state.

## Model

| member | source | states |
|---|---|---|
| `Disk.WordAfterSet` | fs.c:354-382 | storing a 32-bit word in a block changes that word and no other (indirect blocks, log headers) |
| `Disk.BitAfterPut` | fs.c:56-96 | setting or clearing one bit of a byte changes that bit and no other |
| `Disk.MapBitAfterSet` | fs.c:56-96 | marking one block in a free-map block leaves every other mark alone |
| `Disk.WordBytes` | fs.c:368-378 | a 32-bit number in a block is its four bytes, least significant first |
| `Disk.MapBitDigit` | fs.c:56-96 | bit i of a free-map block is binary digit i % 8 of byte i / 8 |
| `LogDisk.HeadRoundTrip` | log.c:85-113 | read_head returns exactly the block list that write_head stored |
| `LogDisk.HeadLayout` | log.c:101-113 | the header block holds the count in its first word and then the block numbers in order |
| `LogDisk.Slot` | log.c:222-225 | the absorption scan finds the first log position of a block, or the end if there is none |
| `LogDisk.LogRunShape` | log.c:175-188 | write_log puts the newest contents of block i in log block i and touches neither the header nor a home block |
| `LogDisk.InstallRunShape` | log.c:69-82 | after k iterations exactly the first k home blocks hold their log copies; nothing else changed |
| `LogDisk.InstallUnpins` | log.c:69-82 | an installed block is no longer pinned; every other pinned block stays so |
| `LogDisk.InstallKeepsRec` | log.c:69-82 | a crash at any point of installing leaves the same blocks recoverable |
| `LogDisk.ClearKeepsRec` | log.c:115-122 | erasing the header after installing changes no recovered block |
| `LogDisk.RecoverKeepsRec` | log.c:115-122 | any cut of recovery keeps what will be recovered; a whole recovery installs it and empties the log |
| `LogDisk.CommitTrailParts` | log.c:190-200 | the disk images of commit are those of write_log, write_head, install_trans and write_head in that order |
| `LogDisk.CommitCut` | log.c:175-200 | a crash after any k of commit's writes leaves the whole old state or the whole new state recoverable, switching at the header write |
| `LogDisk.HeadWritten` | log.c:101-113 | the header write is the commit point |
| `LogDisk.CommitDone` | log.c:190-200 | after commit every home block equals what bread gave before it and nothing stays pinned |
| `LogDisk.RebootsRecover` | log.c:115-122 | any number of boots that crash inside recovery, then one that completes, install the recoverable state |
| `LogDisk.CrashAtomicity` | log.c:69-122 | crash after any prefix of commit's writes, then any number of crashes inside recovery: the completed recovery leaves all home blocks as before or all as after the transaction, and an empty log |
| `LogSystem.CountsStep` | log.c:125-172 | every step keeps: outstanding counts the operations in progress, committing implies none is, and all operations in progress belong to the current transaction |
| `LogSystem.DiskInvStep` | log.c:125-200 | every step, crashes included, keeps the disk in a recoverable shape, logged blocks distinct |
| `LogSystem.RefinesAtomicStore` | log.c:125-231 | each step is a step of a two-copy store: an append changes one viewed block, the header write makes the view durable at once with no operation in progress, a crash falls back to the durable copy, nothing else changes either |
| `LogSystem.ReservedStep` | log.c:125-141 | logged blocks plus all unspent budgets never exceed LOGSIZE |
| `LogSystem.SoloStep` | log.c:211-231 | when at most one process is between the size test and the append, the log stays inside its region |
| `LogSystem.RunSafe` | log.c:125-231 | group commit over every disciplined run of any number of processes and crashes: counters, transaction membership, region bound, reservation and recoverability |
| `LogSystem.DurableUntilCommit` | log.c:125-231 | between two header writes of a run nothing changes what the disk recovers to |
| `LogSystem.PanicExactly` | log.c:145-172 | end_op never panics; log_write panics exactly when the region or the header array is full, and an operation with budget left never meets the second |
| `LogSystem.AdmitsExactly` | log.c:125-141 | an idle or running log admits exactly when what is logged plus MAXOPBLOCKS for every operation, the new one included, is at most LOGSIZE; the newcomer joins the current transaction and nothing else changes |
| `LogSystem.RefusedMeansBusy` | log.c:125-141 | in every run a refused begin_op finds a commit or recovery under way or an operation that has still to end |
| `LogSystem.LastOutCommits` | log.c:145-172 | end_op starts the commit of everything logged exactly when it is the last operation out |
| `LogSystem.LogWriteExactly` | log.c:211-231 | past its test log_write pins the new contents and notes the block number once |
| `LogOverflow.Overflow` | log.c:216-221 | a run in which two in-budget operations both pass the size test and the log leaves its region |
| `LogOverflow.RegionBoundExactly` | log.c:211-231 | in-budget operations keep the log inside its region, for every layout, except exactly when it has 2 to LOGSIZE blocks on some disk |
| `LogCode.Log.constructor` | log.c:53-66 | initlog: an idle log whose device reads as what the disk had committed, through exactly the recovery images |
| `LogCode.Log.WriteLog` | log.c:175-188 | performs exactly the n log-block writes, in order |
| `LogCode.Log.InstallTrans` | log.c:69-82 | performs exactly the n home-block writes, in order |
| `LogCode.Log.WriteHead` | log.c:101-113 | writes the in-memory header in one image |
| `LogCode.Log.ReadHead` | log.c:85-96 | loads exactly the on-disk block list |
| `LogCode.Log.RecoverFromLog` | log.c:115-122 | produces exactly the images of the recovery run and an empty log |
| `LogCode.Log.Commit` | log.c:190-200 | produces exactly the 2n+2 images of the commit run, or nothing for an empty transaction |
| `LogCode.Log.CommitBlocks` | log.c:190-200 | the four phases of a transaction that is not empty, image by image |
| `LogCode.Log.BeginOp` | log.c:125-141 | admits exactly when no commit runs and n + (outstanding + 1) * MAXOPBLOCKS is at most LOGSIZE; that is the Begin step of LogSystem, and the state after it |
| `LogCode.Log.LogWrite` | log.c:211-231 | panics exactly on its three tests; otherwise pins the data and appends the block number unless it is there |
| `LogCode.Log.EndOp` | log.c:145-172 | the last operation out commits everything logged, any other only leaves |
| `LogCode.Log.Bread` | bio.c:96-106 | reads the newest contents: the pinned copy if there is one, else the disk |
| `LogCode.Log.Bwrite` | memide.c:38-60 | writes one block through, as one disk image, and unpins it |
| `Bio.Find` | bio.c:69-76 | the first buffer in most-recent order that holds the block, or none |
| `Bio.FindIdle` | bio.c:81-91 | the last buffer in that order that is unreferenced and clean, or none |
| `Bio.BgetExactly` | bio.c:61-93 | bget panics exactly when no buffer holds the block and every buffer is referenced or dirty; else one buffer gains a reference, a holder of the block if there is one, otherwise an idle clean buffer made invalid, and nothing else changes |
| `Bio.BputExactly` | bio.c:120-141 | brelse gives one reference back; exactly at zero the buffer moves to the front, the rest of the ring in its old order |
| `Bio.MoveToFrontKeeps` | bio.c:130-138 | moving a buffer to the front permutes the ring |
| `BioSystem.StepKeepsInv` | bio.c:61-141 | in every interleaving: the ring is a permutation of all buffers, one buffer per block, references match holders, an unlocked valid clean buffer equals the disk |
| `BioSystem.StepExactly` | bio.c:61-141 | bread ends with the block locked and filled from its disk block, log_write pins, bwrite is the only step that writes the disk and writes that block, brelse gives back lock and reference |
| `BioSystem.HolderSeesLatest` | bio.c:96-106 | a holder reads the latest contents and is the only holder of that block |
| `BioSystem.RefinesBlockMap` | bio.c:61-141 | of all steps only a holder's own change alters the map from blocks to contents, and only at its block |
| `BioSystem.GetRefines` | bio.c:61-93 | recycling a buffer changes no block's contents |
| `BioSystem.PinnedStays` | bio.c:78-91 | a dirty or referenced buffer is never recycled, and dirt leaves only by a write of its data |
| `BioSystem.CacheIsDevice` | bio.c:96-116 | outside a holder's changes the cache reads as disk plus pinned blocks, which is what the log layer uses |
| `BioSystem.ByAgeStep` | bio.c:120-141 | every step keeps the ring ordered by time of last release |
| `BioSystem.VictimIsOldest` | bio.c:81-91 | a recycled buffer is the least recently released of all idle ones |
| `BioSystem.RunKeepsInv` | bio.c:38-141 | both invariants hold in every state of every run |
| `BioCode.Unlink` | bio.c:132-133 | the two stores of an unlink remove exactly that buffer from the doubly linked ring |
| `BioCode.PushFront` | bio.c:134-137 | the four stores of an insertion put the buffer right after the head |
| `BioCode.BCache.constructor` | bio.c:38-56 | binit links every buffer, the last one first |
| `BioCode.BCache.Scan` | bio.c:69-76 | returns the buffer that holds the block or the head |
| `BioCode.BCache.ScanIdle` | bio.c:81-91 | returns the least recent idle buffer or the head |
| `BioCode.BCache.Get` | bio.c:61-93 | bget succeeds exactly when a buffer holds the block or is idle; hit, recycle or panic, with the new cache state |
| `BioCode.BCache.ToFront` | bio.c:132-137 | the in-place list surgery moves the buffer to the front |
| `BioCode.BCache.Put` | bio.c:120-141 | brelse: drops a reference and at zero moves the buffer to the front |
| `UThread.Choose` | uthread.c:26-43 | the first eligible thread in cyclic order after the current one, or none |
| `UThread.Waiter` | uthread.c:252-260 | the lowest-numbered thread blocked on the semaphore, or none |
| `UThreadRuns.StepKeepsTable` | uthread.c:67-263 | every operation keeps: only slot ct may run, blocked means exactly one of semaphore and join is set, a raised semaphore has no waiter, nobody joins a terminated thread, tids are distinct |
| `UThreadRuns.StepKeepsMutex` | uthread.c:232-263 | bracketed down and up keep at most one thread inside, through direct hand-off |
| `UThreadRuns.JoinBlocksOnLive` | uthread.c:67-82 | join blocks exactly when a live thread has that tid, and on it |
| `UThreadRuns.ReadyComesCloser` | uthread.c:113-133 | a ready thread stays ready until dispatched, and each scheduling call for someone else brings its turn strictly closer |
| `UThreadRuns.RunKeepsTable` | uthread.c:148-195 | the thread-table invariant holds in every state of every run |
| `UThreadRuns.RunKeepsMutex` | uthread.c:232-263 | mutual exclusion in every bracketed run |
| `UThreadLife.CountIsLive` | uthread.c:45-53 | getThreadCount is the number of slots that have not terminated |
| `UThreadLife.LastThread` | uthread.c:84-94 | a live caller is alone exactly when every other slot has terminated |
| `UThreadLife.ScheduleExactly` | uthread.c:26-133 | dispatches the nearest runnable thread after the current one in cyclic order, itself last; with none nothing changes; no other slot changes but a running caller becomes ready |
| `UThreadLife.CreateExactly` | uthread.c:148-177 | the lowest terminated slot becomes ready under a fresh tid; with none nothing changes |
| `UThreadLife.ExitExactly` | uthread.c:84-111 | the caller is terminated, exactly the threads joined on it become ready, every other slot is as it was, and one live thread fewer is left |
| `UThreadLife.WakeExactly` | uthread.c:220-263 | bsem_free readies every waiter and unallocates; bsem_up hands over to the waiter in the lowest slot or raises the semaphore |
| `UThreadLife.SlotCause` | uthread.c:56-263 | each step changes a slot only for its cause: terminated by create, sleeping and ready by dispatch, joined by that exit, blocked by up or free |
| `UThreadLife.JoinReturnsAfterExit` | uthread.c:67-111 | in every run a join ends only after the joined thread has exited |
| `UThreadLife.SleepsItsTime` | uthread.c:56-65 | in every run a sleeper is next dispatched by a scheduling call no earlier than ticks after its call |
| `UThreadLife.WaiterLeavesByUp` | uthread.c:220-263 | in every run a semaphore waiter goes on only by up or free of that semaphore |
| `UThreadLife.SlotStaysTerminated` | uthread.c:84-133 | in every run an exited slot is not dispatched until create reuses it |
| `UThreadLife.ExitIsFinal` | uthread.c:84-177 | in every run no slot ever again holds a live thread with the tid of an exited one |
| `UThreadRuns.BoundedBypass` | uthread.c:26-43 | a ready thread not yet dispatched has seen fewer than MAX_UTHREADS scheduling calls |
| `Semaphore.StepKeepsInv` | usemaphore.c:28-42 | every step of every thread inside down and up keeps value == start + ups - downs >= 0, the mutex count and the gate token count |
| `Semaphore.RunKeepsInv` | usemaphore.c:8-42 | the value is never negative and is start + ups - downs in every run |
| `Semaphore.CallsCount` | usemaphore.c:28-42 | in every run the calls of down, and of up, are those that have changed the value plus those still about to |
| `Semaphore.QuietValue` | usemaphore.c:28-42 | with nobody inside, the value is the start plus calls of up minus calls of down |
| `Semaphore.EachCallCountsOnce` | usemaphore.c:28-42 | per thread: a finished down has taken one from the value and a finished up has added one |
| `Semaphore.CallsEnd` | usemaphore.c:28-42 | a call takes at most eight steps of its own thread |
| `Semaphore.NeverRaisedTwice` | usemaphore.c:28-42 | the gate is raised only when it is down, the mutex only when it is taken |
| `Semaphore.ValueIsProtected` | usemaphore.c:28-42 | at most one thread is between taking and releasing the inner mutex |
| `Semaphore.TokenMeansPositive` | usemaphore.c:28-35 | a thread that passed the gate can count on a positive value |
| `Semaphore.StepExists` | usemaphore.c:28-42 | a thread that is not waiting has a step to take |
| `Semaphore.NoDeadlock` | usemaphore.c:28-42 | no state has a positive value, a thread waiting on the gate, and nobody able to step |
| `Semaphore.DownIsTake` | uthread.c:232-245 | bsem_down is the take step the semaphore proof uses and blocks exactly on a taken semaphore |
| `Semaphore.UpIsGive` | uthread.c:248-263 | bsem_up is the give step: direct hand-off to the lowest waiter, else the semaphore is raised |
| `UThreadCode.ThreadLib.constructor` | uthread.c:179-195 | one running thread, all semaphores free |
| `UThreadCode.ThreadLib.ChooseNextThread` | uthread.c:26-43 | finds the first eligible thread cyclically, wakes a due sleeper, else stays or returns -1 |
| `UThreadCode.ThreadLib.UthreadSchedule` | uthread.c:113-133 | one turn of the busy-wait dispatches that thread, and reports whether any was eligible |
| `UThreadCode.ThreadLib.GetThreadCount` | uthread.c:45-53 | counts the threads that have not terminated |
| `UThreadCode.ThreadLib.GetNextSpot` | uthread.c:139-146 | the first terminated slot or -1 |
| `UThreadCode.ThreadLib.UthreadCreate` | uthread.c:148-177 | 0 and a new ready thread with the next tid exactly when some slot is terminated, else -1 and no change |
| `UThreadCode.ThreadLib.UthreadSleep` | uthread.c:56-65 | the current thread sleeps until now + ticks; no other slot changes |
| `UThreadCode.ThreadLib.UthreadJoin` | uthread.c:67-82 | the scan blocks the caller on a live thread or does nothing |
| `UThreadCode.ThreadLib.UthreadExit` | uthread.c:84-111 | the process ends exactly when every other slot has terminated; else the caller is terminated, exactly its joiners become ready, and no other slot changes |
| `UThreadCode.ThreadLib.BsemAlloc` | uthread.c:209-218 | raises the first free semaphore; -1 exactly when none is free |
| `UThreadCode.ThreadLib.BsemFree` | uthread.c:220-229 | readies exactly the waiters and sets the semaphore to -1 |
| `UThreadCode.ThreadLib.BsemDown` | uthread.c:232-245 | takes the semaphore or blocks the caller |
| `UThreadCode.ThreadLib.BsemUp` | uthread.c:248-263 | hands over to the first waiter or raises the semaphore |
| `UThreadCode.ThreadLib.AllocSem` | usemaphore.c:8-20 | succeeds exactly when two semaphores are free and takes two that were, a raised mutex and a gate at min(1, value); loses one exactly when one is free |
| `SemAlloc.AllocPairExactly` | usemaphore.c:8-20 | allocSem succeeds exactly when two are free, loses a semaphore exactly when one is, and leaves n - 2 or none free |
| `SemAlloc.TwoFree` | usemaphore.c:10-13 | at least two are free exactly when two different ones are |
| `SemAlloc.LoneSemaphoreLost` | usemaphore.c:10-13 | after 127 allocations from the start, allocSem returns 0 and no semaphore is free any more |
| `Heap.Place` | umalloc.c:30-32 | the list position a freed block belongs after |
| `Heap.InsertOk` | umalloc.c:24-44 | freeing keeps the list address-ordered and fully coalesced |
| `Heap.InsertTotal` | umalloc.c:24-44 | freeing adds exactly the block's units |
| `Heap.InsertApart` | umalloc.c:24-44 | a live block stays disjoint from every free block |
| `Heap.TakeOk` | umalloc.c:75-84 | taking n units keeps the list sound and yields a block disjoint from it |
| `Heap.TakeTotal` | umalloc.c:75-84 | taking removes exactly n units |
| `Heap.TakeApart` | umalloc.c:75-84 | the new block is disjoint from every other live block |
| `HeapRuns.GrowKeeps` | umalloc.c:46-61 | new memory keeps the whole heap invariant |
| `HeapRuns.CarveKeeps` | umalloc.c:63-90 | an allocation keeps it |
| `HeapRuns.ReleaseKeeps` | umalloc.c:24-44 | a free keeps it |
| `HeapRuns.RunKeepsHeap` | umalloc.c:24-90 | after any sequence of malloc and free: list ordered and coalesced, free and live blocks pairwise disjoint, units from sbrk equal free plus live |
| `HeapRuns.UnitsConserved` | umalloc.c:24-90 | in every run each address obtained from sbrk, and no other, is free or in a live block, never both |
| `HeapCode.ThreadRight` | umalloc.c:33-37 | the right-hand merge leaves the headers linked but for one |
| `HeapCode.ThreadLeft` | umalloc.c:38-42 | the left-hand merge completes the cycle |
| `HeapCode.FreeSplice` | umalloc.c:33-43 | all stores of free together thread the list with the block inserted |
| `HeapCode.ThreadTake` | umalloc.c:76-82 | unlinking an exact fit, or shortening the block, threads the smaller list |
| `HeapCode.ScanHere` | umalloc.c:74-89 | each turn of malloc's circular scan is a hit, may go on, or proves the whole list was scanned once |
| `HeapCode.Allocator.constructor` | umalloc.c:21-22 | an empty heap |
| `HeapCode.Allocator.Search` | umalloc.c:30-32 | the search stops, wherever freep points, at the place of the block |
| `HeapCode.Allocator.Relink` | umalloc.c:33-42 | stores the headers that both merges call for, given the successor of p |
| `HeapCode.Allocator.Insert` | umalloc.c:24-44 | the list afterwards is the old one with the block inserted, and other headers are untouched |
| `HeapCode.Allocator.Free` | umalloc.c:24-44 | exactly the block leaves the live set and its units join the list |
| `HeapCode.Allocator.MoreCore` | umalloc.c:46-61 | obtains at least 4096 units and frees them; afterwards a large enough block lies ahead of the scan |
| `HeapCode.Allocator.Take` | umalloc.c:75-85 | hands out n units as a new live block |
| `HeapCode.Allocator.Malloc` | umalloc.c:63-90 | always ends: a fresh block of at least nbytes, or null only when sbrk failed and no free block was large enough; it asks sbrk exactly when no free block is large enough |
| `FsBlocks.FileLayout` | fs.c:354-382 | block bn of a file is named by addrs[bn], or from 12 on by the little-endian word at 4 * (bn - 12) of the indirect block |
| `FsBlocks.FreeMapLayout` | fs.c:56-96 | block b is marked by one bit of free-map block b / 4096 |
| `FsBlocks.OwnershipMeans` | fs.c:56-96 | no block is referenced from two places, and a block is marked in use if and only if it is metadata or referenced |
| `FsAlloc.BitsAfterSet` | fs.c:56-96 | setting a mark in the bitmap changes the mark of that block alone |
| `FsAlloc.FirstFree` | fs.c:63-76 | the first unmarked block, all before it being marked; or none |
| `FsAlloc.BallocOk` | fs.c:56-78 | balloc takes a block nobody owns, zeroes it and disturbs no file |
| `FsAlloc.LinkDirect` | fs.c:360-363 | storing it in a direct slot makes that slot its owner and adds that block to the file |
| `FsAlloc.LinkIndirect` | fs.c:369-370 | storing it as the indirect block changes no file |
| `FsAlloc.LinkEntry` | fs.c:371-377 | storing it in an indirect entry makes that entry its owner |
| `FsAlloc.PutData` | fs.c:484-487 | writing a mapped block changes that block of that file alone |
| `FsAlloc.BmapCount` | fs.c:354-382 | bmap fails exactly when fewer blocks are free than the block and, if it is missing, the indirect block; else it takes exactly those |
| `FsAlloc.BmapOk` | fs.c:354-382 | bmap returns the block of that position, keeps ownership, changes no file except that a missing block becomes zeros, and fails exactly for lack of the blocks it has to make |
| `FsBytes.WriteLoopOk` | fs.c:484-490 | the loop stores the source bytes at the offset and no other byte of any file changes |
| `FsBytes.WriteiSplices` | fs.c:467-497 | writei is a splice with size max(size, off + n); types and all other inodes and files unchanged; refused exactly past the end or past the largest size; panics exactly when fewer blocks are free than it adds |
| `FsBytes.WriteLoopCount` | fs.c:484-490 | the loop adds exactly the missing blocks of the range and the indirect block if needed, and fails exactly when fewer are free |
| `FsBytes.FileWriteCount` | file.c:133-153 | filewrite panics exactly when fewer blocks are free than the chunks that fit the largest file add |
| `FsBytes.ReadiReads` | fs.c:432-463 | readi returns exactly the range clipped to the size, allocates nothing, and is refused exactly past the end or on 32-bit overflow |
| `FsBytes.WriteThenRead` | fs.c:432-497 | readi gives back what writei stored |
| `FsBytes.FileWriteSplices` | file.c:133-153 | a chunked filewrite equals one splice; it stops early exactly when the whole write would not fit, with exactly the chunks that fit written; types and other inodes unchanged; panics exactly as FileWriteCount says |
| `FsInodes.RecordLayout` | fs.h:29-36 | an inode record is four 16-bit fields, the size and thirteen block numbers, little-endian, from byte 64 * i of its block |
| `FsInodes.IupdateThenIlock` | fs.c:208-224 | on the raw blocks, ilock reads back exactly what iupdate stored, and every other inode is as it was |
| `FsInodes.InodeDisk.Iupdate` | fs.c:208-224 | field by field into the block: the disk shows the new inode, all other inodes and blocks as before |
| `FsInodes.InodeDisk.Ilock` | fs.c:286-299 | reads the stored inode; panics exactly on one without a type |
| `FsTrunc.FreedBits` | fs.c:81-96 | freeing a list of blocks clears exactly their marks |
| `FsTrunc.BlocksOfExact` | fs.c:389-417 | the blocks itrunc visits are exactly those of the inode, each once and each marked, so bfree never panics |
| `FsTrunc.ItruncReturnsBlocks` | fs.c:389-417 | itrunc returns exactly the inode's blocks, empties the file, keeps its type and leaves every other inode, file and mark alone |
| `FsRuns.StepRefines` | fs.c:389-497 | each operation keeps the invariant and every type, and does to the files what it does to byte sequences |
| `FsRuns.RunRefines` | fs.c:354-497 | over every run of writes, chunked writes and truncations the file system is a table of typed byte sequences |
| `FsCode.FileSystem.FindFree` | fs.c:63-76 | the two nested scans over bitmap blocks and bits find the first free block |
| `FsCode.FileSystem.Balloc` | fs.c:56-78 | marks and zeroes that block; panics exactly on a full disk |
| `FsCode.FileSystem.Bfree` | fs.c:81-96 | clears the mark; panics exactly on a free block |
| `FsCode.FileSystem.Bmap` | fs.c:354-382 | returns and allocates as BmapOk states; panics exactly for lack of the blocks it has to make, or past the largest file |
| `FsCode.FileSystem.Enter` | fs.c:371-379 | returns the entry of the indirect block, allocating it if missing |
| `FsCode.FileSystem.Writei` | fs.c:467-497 | returns -1, the count or a panic exactly as the splice of WriteiSplices, with the same new state; no type and no other inode changes |
| `FsCode.FileSystem.Readi` | fs.c:432-463 | returns -1, a panic, or exactly the bytes of ReadiReads |
| `FsCode.FileSystem.Filewrite` | file.c:133-153 | returns n or -1 with the offset and state that FileWriteSplices speaks of |
| `FsCode.FileSystem.Itrunc` | fs.c:389-417 | the two loops reach exactly the state of ItruncReturnsBlocks, and no bfree in them panics |
| `FsCode.FileSystem.FreeEntries` | fs.c:403-409 | frees every entry of the indirect block, none of which is already free |
| `VmMem.PutElsewhere` | vm.c:44-64 | rewriting a page that is no directory and no table changes no mapping of any address space |
| `VmMem.TableOf` | vm.c:44-64 | a present directory entry names a table page of its own |
| `VmSteps.KallocOk` | kalloc.c:82-95 | kalloc hands out a page that nobody holds and changes no mapping |
| `VmSteps.KfreeOk` | kalloc.c:59-77 | kfree puts a held page back once and changes no mapping and no other page |
| `VmSteps.InstallOk` | vm.c:52-61 | a zeroed table in an empty directory entry changes no mapping and becomes owned by that entry |
| `VmSteps.SetPteView` | vm.c:82 | storing an entry changes that virtual page of that directory and no other entry of any directory |
| `VmSteps.MapOk` | vm.c:82 | mapping a held page makes that mapping its one owner |
| `VmSteps.UnmapOk` | vm.c:274-280 | clearing a mapping releases exactly its page |
| `VmSteps.Disown` | vm.c:296-302 | a directory without user pages can be let go without disturbing any other |
| `VmOps.WalkOk` | vm.c:44-64 | walkpgdir changes no mapping and fails exactly when a table is missing and no page is free, changing nothing; the entry it leaves has flags P, W and U, and a new table is the first free page, zeroed |
| `VmRights.RightsOfEntry` | vm.c:44-64 | in every live directory the rights the two levels grant together are those of the table entry |
| `VmRights.ClearpteuOk` | vm.c:307-316 | takes user access to one page away and changes no other mapping; panics exactly when the page has no table |
| `VmOps.MapUserPage` | vm.c:69-89 | mappages of a user page changes that virtual page alone and panics exactly when it is mapped |
| `VmOps.MapKernelRange` | vm.c:69-89 | a kernel range is mapped frame by frame and nothing else changes; a panic needs an entry in use |
| `VmCount.MapPageCount` | vm.c:44-89 | mapping a page takes a free page exactly when its table is absent, and fails exactly when it then finds none |
| `VmCount.RangeCount` | vm.c:69-89 | a kernel range takes one free page for each absent table and fails exactly when there are fewer |
| `VmKernel.MapAllCount` | vm.c:137-141 | the loop over kmap takes 64 table pages whatever the layout, or fails and leaves none free |
| `VmKernel.KernelPart` | vm.c:114-124 | the kernel mappings in closed form, nothing below KERNBASE |
| `VmKernel.SetupkvmOk` | vm.c:127-143 | setupkvm never panics; it fails exactly with fewer than 65 free pages and keeps them all, else takes the first 65 and maps exactly the kernel part, with exactly its rights |
| `VmKernel.KernelRights` | vm.c:114-124 | no kernel page is open to user mode and only the text is read-only |
| `VmUser.DropRangeOk` | vm.c:267-282 | the page-by-page scan frees exactly the user pages of the range, panics nowhere, changes no other mapping or page |
| `VmUser.JumpIsScan` | vm.c:270-271 | jumping over an absent table equals scanning its pages |
| `VmUser.FreevmOk` | vm.c:288-303 | freevm panics nowhere and returns exactly the directory's user pages, tables and itself, each once |
| `VmGrow.GrowRangeOk` | vm.c:236-252 | the loop maps zeroed free pages from the old size up and leaves everything else alone |
| `VmGrow.GrowRangeCount` | vm.c:236-252 | the loop runs short exactly when fewer pages are free than the new pages and their absent tables |
| `VmGrow.ShortRestores` | vm.c:238-250 | a failed growth restores every mapping and frees every user page it took; only table pages stay |
| `VmGrow.AllocuvmOk` | vm.c:226-254 | allocuvm: refused, shrunk, grown or restored, each with its exact result; new pages are zeroed and user mode may read and write them; it grows exactly when enough pages are free for the new pages and their absent tables |
| `VmCopy.CopyRangeOk` | vm.c:329-342 | the loop gives the child private copies of pages, flags included, and changes nothing of the parent |
| `VmCopy.CopyRangeCount` | vm.c:329-342 | the loop finishes exactly with enough pages, and ends with a page in hand exactly when the last free page went to a copy without a table |
| `VmCopy.CopyuvmOk` | vm.c:320-348 | a copy has equal bytes, flags and rights on pages that were free, plus the kernel part; exact free-page counts for success, for failing in setupkvm, and for losing the last page |
| `VmRuns.StepConserves` | vm.c:226-348 | no valid operation panics; every page stays free, owned, held or lost, and no other address space changes |
| `VmRuns.UserReachesOnlyItsMemory` | vm.c:104-348 | in every reachable state of any address space: exactly the pages below the process size are mapped and writable, user mode reaches nothing else, and the kernel part has exactly its rights |
| `VmRuns.RunConserves` | vm.c:127-348 | that holds over every run of setupkvm, allocuvm, deallocuvm, copyuvm, freevm, kalloc, kfree and stores by processes |
| `VmRuns.AllReturned` | vm.c:288-303 | when no address space is left the free list holds, once each, exactly the pages neither held nor lost |
| `VmRuns.BootReachable` | kalloc.c:31-43 | the memory that kinit leaves is where runs start |
| `VmRuns.CreateLoss` | vm.c:127-143 | setupkvm loses pages exactly with 1 to 64 free, and then all of them; it builds a directory exactly with 65 or more |
| `VmRuns.ForkLoss` | vm.c:320-348 | over every free count f and page count n: which pages copyuvm loses, that it loses some exactly when 0 < f < 65 or the last page falls on a missing table, and that it copies exactly with enough pages |
| `VmRuns.StopsExactly` | vm.c:337-341 | the one-page case as an equation: f == 66 + 1025 k for some k with 1024 k < n |
| `VmRuns.LastPageLost` | vm.c:133-141 | with one free page setupkvm takes it, fails, and the page is gone |
| `VmRuns.ForkPageLost` | vm.c:337-347 | in any sound state with 66 free pages, a fork of a process with memory loses the last of them |
| `VmRuns.ForkLossRun` | vm.c:320-348 | a run from boot that ends with one page lost |
| `KallocCode.PushLinked` | kalloc.c:72-74 | the two stores of kfree extend the list threaded through the pages |
| `KallocCode.PopLinked` | kalloc.c:89-91 | following the link stored in the first free page gives the rest of the list |
| `KallocCode.Kmem.constructor` | kalloc.c:31-36 | an empty free list |
| `KallocCode.Kmem.Kfree` | kalloc.c:59-77 | panics exactly on an unaligned or unmanaged address; otherwise junk-fills and pushes the page |
| `KallocCode.Kmem.Kalloc` | kalloc.c:82-95 | pops the most recently freed page, or returns 0 exactly when none is free |
| `KallocCode.Kmem.Freerange` | kalloc.c:45-52 | frees every whole page of the range, once |
| `KallocCode.Kinit` | main.c:20-38 | kinit1 on the first 4 megabytes and kinit2 on the rest: exactly the managed pages are free |
| `VmCode.Machine.Kalloc` | kalloc.c:82-95 | returns the head of the free list; -1 exactly when it is empty |
| `VmCode.Machine.Kfree` | kalloc.c:59-77 | pushes a managed page, junk-filled; panics exactly on any other |
| `VmCode.Machine.Walkpgdir` | vm.c:44-64 | yields the table of the address; without alloc nothing changes, with alloc the state is that of WalkOk; a new entry names the first free page with flags 7 |
| `VmCode.Machine.Mappages` | vm.c:69-89 | maps every page the byte range touches, to consecutive frames; -1 and the partial state when memory ran out; panics exactly on a remap |
| `VmCode.Machine.MapOne` | vm.c:78-82 | one turn of the loop: the page is mapped, or -1 with nothing changed, or a remap panic |
| `VmCode.Machine.Setupkvm` | vm.c:127-143 | returns the directory of SetupkvmOk, or -1 in its failure state |
| `VmCode.Machine.Deallocuvm` | vm.c:260-284 | the loop with its jump equals the page-by-page scan |
| `VmCode.Machine.DropTurn` | vm.c:268-282 | one turn, whether it jumps or frees a page, leaves the rest of the scan to do |
| `VmCode.Machine.Unmap` | vm.c:272-281 | frees what the entry maps and clears it; panics exactly on an unmanaged page |
| `VmCode.Machine.Freevm` | vm.c:288-303 | reaches the state of FreevmOk, or panics exactly where kfree would |
| `VmCode.Machine.Clearpteu` | vm.c:307-316 | the state of ClearpteuOk, or its panic |
| `VmCode.Machine.Allocuvm` | vm.c:226-254 | returns the size and state of AllocuvmOk on every path, both failure exits included |
| `VmCode.Machine.Copyuvm` | vm.c:320-348 | returns the copy of CopyuvmOk, or -1 in its failure state |
| `Proc.FreeSlot` | proc.c:149-154 | the first unused slot, or none |
| `Proc.ZombieChild` | proc.c:353-369 | the first zombie child of the caller, or none |
| `Proc.Victim` | proc.c:549-557 | the first slot with that pid, or none |
| `ProcRuns.StepKeepsInv` | proc.c:248-382 | every lock-granularity step keeps the process tree, distinct pids, and that no process asleep in wait has a zombie child |
| `ProcRuns.ExitWaits` | proc.c:299-339 | after an exit with its reparenting and wakeups, whoever still sleeps in wait has no zombie child |
| `ProcRuns.RunKeepsInv` | proc.c:188-561 | that invariant holds in every state of every run |
| `ProcRuns.DescendsFromInit` | proc.c:299-339 | every live process reaches init through its parents |
| `ProcRuns.OnlyParentReaps` | proc.c:343-382 | a zombie leaves the table only by its current parent's wait, once |
| `ProcLife.ExitExactly` | proc.c:299-339 | the caller is a zombie, its children have init as parent, its parent is woken if asleep in wait, init if asleep in wait and given a zombie, and nothing else changes |
| `ProcLife.WaitExactly` | proc.c:343-382 | reaps when there is a zombie child; else sleeps exactly when there is a child and it was not killed |
| `ProcLife.StepExactly` | proc.c:143-295 | fork claims an unused slot under the next pid, sets its parent and makes it runnable or gives it up; sleep, dispatch and yield set the state of their process |
| `ProcLife.SlotCause` | proc.c:143-561 | each step changes a slot only for its cause, wakes exactly the sleepers it should, kill on any channel included, and sets killed by kill and clears it by wait alone |
| `ProcLife.KilledExactly` | proc.c:543-561 | in every run a slot is marked killed exactly when kill found it and it has not been reaped since |
| `ProcLife.SleepEnds` | proc.c:470-561 | in every run a sleep ends only by wakeup on its channel, the exit wait is for, or a kill |
| `ProcLife.ZombieStays` | proc.c:343-382 | in every run a zombie stays until its parent reaps it |
| `ProcLife.EndsByExit` | proc.c:299-382 | in every run a process ends only by its own exit |
| `ProcLife.BornKilledExactly` | proc.c:140-184 | a new process is marked killed exactly when a kill has found its slot since it was last reaped |
| `ProcLife.BornKilled` | proc.c:543-561 | a run in which kill(0) makes the next process born killed |
| `ProcCode.ProcTable.constructor` | proc.c:188-222 | init is the only process |
| `ProcCode.ProcTable.Wakeup1` | proc.c:521-529 | readies exactly the sleepers on the channel |
| `ProcCode.ProcTable.AllocProc` | proc.c:143-184 | claims the first unused slot with the next pid, or finds none |
| `ProcCode.ProcTable.Exit` | proc.c:299-339 | wakes the parent, hands exactly its children to init, wakes init for zombies, becomes a zombie; no pid or mark changes |
| `ProcCode.ProcTable.WaitScan` | proc.c:343-382 | reaps the first zombie child, reports no children, or sleeps |
| `ProcCode.ProcTable.Kill` | proc.c:543-561 | marks the first slot with the pid and readies it if asleep, and changes no other; fails exactly when no slot has the pid |
| `Pipe.PutAppends` | pipe.c:93 | storing a byte appends it to the contents, across counter wrap-around |
| `Pipe.DropRemoves` | pipe.c:116 | taking a byte removes the oldest one |
| `Pipe.StoreAppends` | pipe.c:83-94 | a writer appends exactly as many bytes as fit, in order |
| `Pipe.FetchTakes` | pipe.c:113-117 | a reader takes exactly the oldest bytes it asked for and that there are |
| `PipeRuns.StepKeepsInv` | pipe.c:59-121 | every step keeps bytes read followed by bytes buffered equal to bytes written, at most PIPESIZE buffered, and no writer asleep unless the pipe is full and readable |
| `PipeRuns.ReadersOkExactly` | pipe.c:78-98 | a step keeps every sleeping reader's pipe empty and writable if and only if it is not a killed writer filling it |
| `PipeRuns.RunKeepsInv` | pipe.c:59-121 | both over every run, the reader half for runs without such a step |
| `PipeRuns.ReadZeroMeansEof` | pipe.c:100-121 | nothing buffered and a writer left: -1 when killed, else sleep; any other read returns the oldest bytes up to n; a read of n > 0 returns 0 exactly when the pipe is empty and the write end closed |
| `PipeRuns.WriteExactly` | pipe.c:78-98 | stores what fits; returns exactly when all of it fits, nobody can read or the writer was killed; otherwise sleeps, having woken every reader |
| `PipeRuns.ClosedStays` | pipe.c:59-75 | in every run a closed end stays closed |
| `PipeRuns.KilledNeverSleeps` | pipe.c:78-121 | in every run a killed process is not asleep on the pipe |
| `PipeRuns.LostWakeup` | pipe.c:85-89 | a run that ends with a reader asleep on a full pipe |
| `PipeCode.PipeBuf.constructor` | pipe.c:22-57 | an empty open pipe |
| `PipeCode.PipeBuf.WriteTurn` | pipe.c:78-98 | copies what fits and then finishes, gives up or sleeps |
| `PipeCode.PipeBuf.ReadTurn` | pipe.c:100-121 | sleeps, gives up, or returns the oldest bytes |
| `PipeCode.PipeBuf.Close` | pipe.c:59-75 | closes one end; the pipe is freed exactly when both are closed |
| `Grep.HereThen` | grep.c:85-96 | an item followed by a pattern matches at the head if and only if some word of the item is a prefix and the rest matches after it |
| `Grep.HereStar` | grep.c:99-106 | a starred item, read before the end anchor, matches through some run of accepted characters |
| `Grep.HereOne` | grep.c:85-96 | a plain item matches one accepted character and then the rest |
| `Grep.MatchesCaret` | grep.c:72-82 | under a caret only prefixes count |
| `Grep.MatchesAnywhere` | grep.c:72-82 | without one every start position counts |
| `Grep.MatchHere` | grep.c:85-96 | true if and only if a prefix of the text is in the pattern's language; the recursion ends |
| `Grep.MatchStar` | grep.c:99-106 | true if and only if zero or more accepted characters lead to a match of the rest |
| `Grep.Match` | grep.c:72-82 | true if and only if some substring is in the pattern's language, a prefix under ^ and a suffix under a final $ |

## Left out

- Device, boot and trap code, trap frames, raw stacks, signal delivery: hardware and assembly.
- Spin locks and memory ordering: each step of a state machine is what runs under one lock hold.
- LogSystem.RunSafe: assumes the operations stay within MAXOPBLOCKS with a region larger than LOGSIZE, or that size test and append are not interleaved; LogOverflow shows why.
- The log sleeps in begin_op are retries of one admission test; a refused one always has someone to wait for, but fairness of admission is not stated.
- In FsBlocks the inode table is a sequence of records; FsInodes gives their layout in disk blocks. ialloc, iget, iput, link counts, directories and paths are not modelled.
- UThreadCode.ThreadLib.AllocSem: the malloc of the structure is not modelled; on failure the code does not free it either.
- ProcCode.ProcTable.AllocProc: the part under the lock; a failed kernel-stack allocation is a step of ProcRuns.
- PipeCode.PipeBuf.Close: the wakeups are steps of PipeRuns.
- FsCode.FileSystem.Writei: device inodes are not modelled; the user's buffer is a byte sequence.
- FsCode.FileSystem.Readi: likewise.
- FsCode.FileSystem.Filewrite: begin_op, end_op and the inode lock around each chunk are not modelled; the file system is modelled one operation at a time.
- The file system is modelled on blocks as the buffer cache shows them; BioSystem.CacheIsDevice is the link to the cache.
- HeapCode.Allocator.Malloc: sbrk is a parameter that returns memory above all earlier memory or fails; unit arithmetic does not wrap.
- Thread ids, process ids and semaphore values are unbounded integers; wrap-around is not modelled.
- UThreadCode.ThreadLib.UthreadSchedule: the time is a parameter and one call is one turn of the busy-wait; register and stack switching is not modelled.
- join, exit, sleep and bsem_free of threads are single steps: they do not mask the alarm, so finer interleavings are not covered.
- Semaphore.RunKeepsInv: the start value is non-negative and the semaphore is not freed while in use.
- KallocCode.Kmem.Kfree: freeing a page that is already free is excluded by its precondition; the code does not detect it.
- VmCode.Machine.Deallocuvm: oldsz is at most KERNBASE; above it the jump can wrap around.
- VmCode.Machine.Copyuvm: sz is at most KERNBASE.
- VmGrow.AllocuvmOk: the pages above the process size are unmapped, as every caller has them.
- inituvm, loaduvm, copyout, growproc, exec and segment setup.
- A process that trap marks killed itself (trap.c:87) is not a step of ProcRuns.
- sched, the context switch and the CPU-local state of proc.c: a process is dispatched and gives up the CPU in single steps.
- PipeCode.PipeBuf.WriteTurn: one stretch with the lock held; sleeping and waking are steps of PipeRuns.
- PipeCode.PipeBuf.ReadTurn: likewise.
- The line buffering of grep, the shell, user programs, mkfs and the console.

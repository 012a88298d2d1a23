# A verified model of the modified xv6 kernel

The repository's main program is an x86 teaching kernel, xv6, with its scheduler
replaced by a choice of policies. This project models its self-contained state
machines and proves what they are for. Each module is one component; a `...Spec`
module holds the values and definitions the others share.

- **Crash-safe storage.** `LogSpec` says what a commit and a recovery write, and
  proves that cutting either short anywhere is harmless. `BufferCache` and `RedoLog`
  are the buffer cache and the log as code, proved to issue exactly those writes.
  `LogMachine` interleaves any number of processes, evictions, commits, crashes and
  half-done recoveries, one block write at a time. `LogReserve` does the accounting
  that decides when `log_write` can panic.
- **File system.** `FsSpec` and `FsBlocks` are the free map, the block maps and
  `itrunc`; `FsBytes` and `FsFiles` are `readi` and `writei` over them; `FileWrite`
  is `filewrite` and its transactions; `FsImage` is the image mkfs starts from;
  `DirSpec`, `DirTree` and `DirRuns` are directories and the steps of `link`,
  `unlink`, `create` and `mkdir`; `DirNames` is what names find; `DirLinks` and
  `DirLoss` are what the link counts are worth.
- **Scheduling.** `RingSpec` and `RunQueue` are the five ring queues; `MlfqSpec`,
  `MlfqRuns`, `MlfqPass`, `MlfqEffects` and `MlfqLoss` the multi-level feedback queue
  scheduler;
  `Pbs` the priority scheduler; `SleepWakeup` sleep, wakeup and sleep locks.
- **Memory.** `PageSpec`, `PageSteps`, `PageViews` and `PageTables` are the frame
  allocator and the two-level page tables; `PageCounts` counts the frames each
  operation takes, which decides how it ends; `SpaceSpec`, `ExecSpec` and
  `AddressSpaces` are what `growproc`, `fork` and `exec` do to the page tables and
  sizes of all processes, and `PageLoss` what another caller could do; `HeapSpec` and
  `Malloc` are the user-level allocator of section 8.7 of The C Programming Language.
- **User and pipe code.** `ShellSpec`, `Shell`, `ShellText`, `ShellGrammar`,
  `ShellRound`, `ShellShow` and `ShellStrings` are the shell's parser; `Pipe` the pipe
  ring; `Grep` and `GrepLaws` the matcher.

Code that changes things in place is a class whose methods are proved against
functions on values; everything concurrent is a state machine whose invariant is
proved to hold in every state of every run. A panic is an `ok` result that is false,
and the contracts say exactly, or as exactly as the caller can know, when it happens.

## Where the code does not do what it is meant to do

Each is kept as it is and answered with an if-and-only-if.

- **A runnable process can be lost.** `push` scans every queue for the process before
  appending it. For an empty queue `face` and `back` are both -1, so the scan reads
  the word before that row of the array, which is the last slot of the queue above.
  A stale pointer there makes `push` return without queueing. `YieldKeepsIff`,
  `ReadyKeepsIff`, `WakeupKeepsIff` and `KillKeepsIff` say exactly when;
  `LossReachable` gives a run from boot, of three processes that only wake each other
  and sleep, in which a wakeup loses one; `Placement` carries the lost processes along.
- **remove of an absent process** empties a queue whose one entry is another process
  (`RemovedWindow`). The scheduler never calls it so.
- **The log is one block too small.** `log_write` also panics at `log.size - 1`, and
  mkfs makes the log LOGSIZE blocks. Operations inside their reservation are safe
  from that panic exactly when the on-disk log is larger (`PanicFreeIff`).
- **link and create do not check that the parent directory still has a link.** No
  count gets too low by it and the directories stay a tree, but counts become too
  high: they stay exact if and only if the parent's `nlink` is positive when it is
  locked (`LinkNeedsLinkedParent`, `CreateNeedsLinkedParent`, `CreateCall`). `LinkLoses`
  and `CreateLoses` give the runs; with the check the counts are exact in every run
  (`CheckedCounts`).
- **malloc fails for large requests** in two ways. For the seven largest sizes the
  computation of the units wraps and the block has no room (`EnoughIff`, `TooSmall`).
  From 0x7ffffff1 bytes on `morecore` passes `sbrk` a number that is not positive as an
  int, which adds no memory and may take some away (`AskedIff`, `AddedIff`,
  `Shrinks`). `ServedIff` says which requests are served.
- **A failed allocuvm unmaps every page between the two sizes**, which restores the
  mappings if and only if none of those pages was mapped before (`RestoredIff`).
  `RollbackLoses` gives calls from boot that end so: no frame is free, page 0 is not
  mapped and page 1 is, and growing from 0 to 8192 bytes fails and unmaps page 1. No
  caller in the kernel does this. exec.c:52, exec.c:66 and proc.c:183 pass a size above
  which nothing is mapped, and `GrowProc` and `Exec` prove it.
- **growproc reports failure when it has given everything back.** `deallocuvm` returns
  the new size, 0, which growproc takes for an error: all pages are gone and the size
  stays. This happens if and only if n is negative and the sum is 0; after every other
  call the user pages are exactly those below the size (`GrowProc`). `fork` panics
  exactly for a process this has happened to, given frames to start with (`Fork`).
- **mkfs leaves a hole** at the end of the root directory exactly when its entries fill
  whole blocks (`RootRounded`). 30 files and the two dot entries do (`RootHole`).

## Model

| member | source | states |
|---|---|---|
| LogSpec.DecodeEncoded | xv6 modified/log.c:86-113 | a header block written for a list of blocks reads back as that list |
| LogSpec.RecoveryRestartable | xv6 modified/log.c:69-122 | a recovery cut short after any of its writes leaves a disk whose recovery ends in the very image the first was heading for |
| LogSpec.RecoveryConverges | xv6 modified/log.c:116-122 | any number of boots, each cut short anywhere, do not change what recovery arrives at |
| LogSpec.CommitPrefixBefore | xv6 modified/log.c:177-190 | before the header write the disk still recovers to the old home blocks |
| LogSpec.RecoverAtCommitPoint | xv6 modified/log.c:193-202 | right after the header write, recovery has exactly the commit's remaining writes to do and reaches the new home blocks |
| LogSpec.CommitPrefixAfter | xv6 modified/log.c:193-202 | a commit cut short anywhere after the header write recovers to the new home blocks |
| LogSpec.CrashAtomicity | xv6 modified/log.c:69-202 | crash after any k writes of a commit, then any number of interrupted boots: every home block is as before or every one is as after, and "after" exactly when the header write was among the k |
| LogSpec.CommitComplete | xv6 modified/log.c:193-202 | an uninterrupted commit installs the transaction and leaves an empty log |
| BufferCache.Bcache.constructor | xv6 modified/bio.c:39-56 | every buffer starts unreferenced, clean and empty |
| BufferCache.Bcache.BGet | xv6 modified/bio.c:62-93 | the one buffer of the block, or an unreferenced clean one taken over when no buffer has it; fails exactly when there is neither; never caches a block twice |
| BufferCache.Bcache.IdeRw | xv6 modified/memide.c:39-60 | one synchronous block transfer, and each of the driver's four panics |
| BufferCache.Bcache.BRead | xv6 modified/bio.c:97-106 | a locked valid buffer holding the cached contents, or the disk's |
| BufferCache.Bcache.BWrite | xv6 modified/bio.c:110-116 | the buffer's contents reach the disk as one write; refused when it is not locked |
| BufferCache.Bcache.BRelse | xv6 modified/bio.c:121-141 | unlocks; the last reference moves the buffer to the recently used end; an unlocked clean buffer agrees with the disk |
| RedoLog.Log.BeginOp | xv6 modified/log.c:126-141 | an operation is admitted exactly when no commit runs and a full reservation for it and all open ones still fits |
| RedoLog.Log.EndOp | xv6 modified/log.c:146-174 | only the last open operation commits, others leave the disk and the list alone; it panics exactly during a commit, or where the commit finds no buffer |
| RedoLog.Log.LogWrite | xv6 modified/log.c:214-233 | a block is listed once however often it is logged, its buffer is pinned, and the panics are exactly a full log and no open operation |
| RedoLog.Log.ReadHome | xv6 modified/bio.c:97-106 | bread gives the latest logged contents of a home block, wherever they are, and fails exactly when the block is not cached and no buffer can be taken over |
| RedoLog.Log.WriteLog | xv6 modified/log.c:178-190 | copies the pinned blocks, in list order, to the log blocks; if the machine stops, a prefix of that; one buffer to take over is enough |
| RedoLog.Log.WriteHead | xv6 modified/log.c:102-113 | one write, of the header for the current list, unless no buffer can be had for it |
| RedoLog.Log.InstallTrans | xv6 modified/log.c:70-82 | copies each log block home in list order and unpins its buffer; if the machine stops, a prefix of that; two buffers to take over are enough, or one while the targets are pinned |
| RedoLog.Log.Commit | xv6 modified/log.c:193-202 | issues exactly the commit's writes, or a prefix; stopping after any of them is atomic in the sense of CrashAtomicity; while nobody has a log block's buffer it completes exactly when nothing is pending or a buffer can be taken over |
| RedoLog.Log.ReadHead | xv6 modified/log.c:86-96 | the in-memory list becomes the one the header block encodes |
| RedoLog.Log.RecoverFromLog | xv6 modified/log.c:116-122 | the disk becomes the recovered image, or a prefix of the recovery's writes has been done; with two buffers to take over, as at every boot, it completes |
| LogMachine.StepKeepsInv | xv6 modified/log.c:69-233 | every step of every process, of the commit, of recovery, and a crash keeps the storage invariant |
| LogMachine.CrashSafety | xv6 modified/log.c:69-233 | in every state of every run the disk recovers to the contents the file system had at a moment with no operation open |
| LogMachine.CommitIsolation | xv6 modified/log.c:126-202 | what a crash would leave changes at the header write only, to the current contents with no operation open; during a commit no operation is open and neither the list nor the contents grow |
| LogMachine.CacheCoherence | xv6 modified/bio.c:61-141 | in every run: a valid, unmodified buffer of a home block holds the latest logged contents, a dirty buffer's block is in the list, a pending block stays pinned, no block is cached twice |
| LogMachine.Durability | xv6 modified/log.c:146-202 | in every run, once the header of a commit is written and whenever no block is pending, the disk recovers to the latest logged contents: what a finished operation wrote is not lost |
| LogMachine.ContentsLogged | xv6 modified/log.c:214-233 | the latest contents of a block change with log_write of it, to what its buffer holds, and with a crash, to what the disk recovers to, and by nothing else |
| LogMachine.ModifiedStays | xv6 modified/log.c:204-213 | what a process puts in a buffer is there until it puts something else or logs it |
| LogMachine.LoggedPinned | xv6 modified/log.c:214-233 | log_write lists the block, pins its buffer and leaves its contents |
| LogMachine.CommitStarts | xv6 modified/log.c:146-174 | the last operation to end has a commit of two writes a block and two for the header before it |
| LogMachine.CommitAdvances | xv6 modified/log.c:69-202 | each disk write of a commit or recovery is the next of them, and no other step changes what is left; after the last the log is empty |
| LogMachine.Reopens | xv6 modified/log.c:126-174 | once a commit or a recovery is over an operation can begin |
| LogReserve.Reservation | xv6 modified/log.c:126-174 | in every run of operations that log at most MAXOPBLOCKS blocks each, listed blocks plus all unused reservations fit in LOGSIZE, and a commit starts with none open |
| LogReserve.PanicFreeIff | xv6 modified/log.c:214-221 | no operation with reservation to spare meets a log_write panic, exactly when the on-disk log is larger than LOGSIZE |
| LogReserve.FullLogPanics | xv6 modified/log.c:214-221 | on a large enough log, log_write panics exactly when the list is full, and then every open operation has used its whole reservation |
| LogReserve.FullLogReachable | xv6 modified/log.c:214-231 | that state is reachable: re-logging a block already listed can panic |
| FsSpec.WordSet | xv6 modified/fs.c:390-393 | storing a 32-bit word into an indirect block changes that word and no other |
| FsSpec.AllocatedOwns | xv6 modified/fs.c:57-78 | taking a free block keeps every ownership fact, and no slot of any inode names it |
| FsSpec.PointedOwns | xv6 modified/fs.c:379-388 | pointing an empty address at an unowned block keeps ownership; for the indirect pointer this needs the block to be zeroed |
| FsSpec.WordPointedOwns | xv6 modified/fs.c:389-394 | the same for a word of the indirect block |
| FsSpec.EmptiedOwns | xv6 modified/fs.c:408-435 | freeing exactly an inode's blocks and clearing its addresses keeps ownership and leaves every other inode's slots alone |
| FsBlocks.Blocks.BAlloc | xv6 modified/fs.c:57-78 | the lowest free block, marked and zeroed, with its map block logged; panics exactly when no block is free |
| FsBlocks.Blocks.BFree | xv6 modified/fs.c:82-95 | clears one bit and no other; panics exactly on a block already free |
| FsBlocks.Blocks.BMap | xv6 modified/fs.c:373-400 | the block of a file block, one new owned block (and a new zeroed indirect block if needed) where there was none, every other slot as it was; panics exactly past MAXFILE or with fewer blocks free than it takes; every map block and data block it changes is logged |
| FsBlocks.Blocks.ITrunc | xv6 modified/fs.c:408-435 | calls bfree on exactly the inode's blocks, once each, and never meets a free one; other inodes keep every block; every map block and inode block it changes is logged |
| FsBytes.StoredBytes | xv6 modified/fs.c:498-503 | storing a piece in one block splices it into the file's byte sequence |
| FsBytes.StoredOthers | xv6 modified/fs.c:498-503 | and leaves every other file's bytes alone |
| FsFiles.ReadI | xv6 modified/fs.c:453-476 | returns the slice of the file's bytes clipped at its size, allocates and logs nothing; refuses an offset past the end or a sum that wraps |
| FsFiles.WriteI | xv6 modified/fs.c:482-511 | splices the bytes into the file and extends it, all other files unchanged, no holes left and the disk inode in step; every block it changes, of data, of the map or of inodes, is logged, and no more than the count says; each refusal changes nothing; it panics exactly when fewer blocks are free than the bytes take |
| FsFiles.ChunkFits | xv6 modified/file.c:127-138 | a chunk of at most (MAXOPBLOCKS-1-1-2)/2 blocks, at any offset, logs at most MAXOPBLOCKS blocks |
| FileWrite.WriteChunk | xv6 modified/file.c:136-145 | one transaction of filewrite: the chunk is in the file at the offset, the offset advances, every block changed and at most MAXOPBLOCKS blocks were logged; panics exactly when writei does |
| FileWrite.FileWrite | xv6 modified/file.c:118-156 | there is one transaction for each chunk that went in and one for a chunk refused; each stays in its reservation, the chunks together are one splice, every block changed is in one of the transactions, and a short write stops exactly where writei refuses; where it panics, the next chunk needs more blocks than are free, or the device took less than it was given |
| FsImage.MarkUsed | xv6 modified/mkfs.c:238-251 | the free map has the bits of the blocks below `used` set and no others |
| FsImage.Mkfs | xv6 modified/mkfs.c:94-132 | the first image: block ownership, files without holes and disk inodes equal to the cached ones all hold, and the root directory is the block given |
| FsImage.RootRounded | xv6 modified/mkfs.c:158-163 | rounding up the root directory leaves no hole exactly when its length is no multiple of the block size |
| FsImage.RootHole | xv6 modified/mkfs.c:158-163 | an input with the hole: with 32 entries the directory's bytes are all there before the rounding and not after |
| DirSpec.DirLookup | xv6 modified/fs.c:525-548 | finds the first entry in use with the name, or says there is none |
| DirSpec.DirLink | xv6 modified/fs.c:552-578 | refused exactly when the name is there; otherwise fills the first hole or appends |
| DirSpec.IsDirEmpty | xv6 modified/sysfile.c:169-181 | true exactly when nothing but the first two entries is in use |
| DirRuns.LinkStartKeeps | xv6 modified/sysfile.c:133-142 | raising the count before the entry exists keeps the invariant and what each count has over |
| DirRuns.LinkEnterKeeps | xv6 modified/sysfile.c:144-152 | entering the name keeps it, whether or not the parent still has a name of its own |
| DirRuns.DownKeeps | xv6 modified/sysfile.c:158-163 | so does the rollback |
| DirRuns.UnlinkFinds | xv6 modified/sysfile.c:204-212 | the entry unlink found, in a linked directory or not, names an allocated inode with a link: two panics cannot happen |
| DirRuns.UnlinkKeeps | xv6 modified/sysfile.c:213-225 | clearing the entry, with the parent's count lowered for a directory, keeps it |
| DirRuns.CreateStartKeeps | xv6 modified/sysfile.c:249-267 | allocating the inode and setting its count keeps it, whatever has become of the parent |
| DirRuns.MkdirCountKeeps | xv6 modified/sysfile.c:269-271 | raising the parent's count for ".." keeps it |
| DirRuns.MkdirDotsKeeps | xv6 modified/sysfile.c:272-274 | so do the two dot entries, one at a time |
| DirRuns.CreateEnterKeeps | xv6 modified/sysfile.c:277-278 | and the entry in the parent |
| DirRuns.ReclaimKeeps | xv6 modified/fs.c:332-352 | freeing an unreferenced inode without links keeps it, and with it the counts of what a directory without a name still names are never too low |
| DirRuns.StepKeepsInv | xv6 modified/sysfile.c:119-283 | every step of every interleaving of the calls keeps counts from being too low, the directories free of cycles and the locks in order |
| DirNames.UnlinkRemoves | xv6 modified/sysfile.c:204-225 | after unlink the name is not found, every other name in every directory finds what it did, and the inode to lose a link is the one the name found |
| DirNames.LinkEnters | xv6 modified/sysfile.c:144-152 | after link the new name, not found before, finds the file; every other name finds what it did |
| DirNames.CreateAllocates | xv6 modified/sysfile.c:259-267 | create takes a free inode, of the kind asked for and empty; no name finds anything else |
| DirNames.DotsEnter | xv6 modified/sysfile.c:272-274 | "." comes to find the new directory and ".." its parent; every other name finds what it did |
| DirNames.CreateEnters | xv6 modified/sysfile.c:277-278 | the name, not found before, finds the new inode; every other name finds what it did |
| DirNames.ReclaimFrees | xv6 modified/fs.c:332-352 | a freed directory finds nothing; every other finds what it did |
| DirNames.FoundIff | xv6 modified/fs.c:525-548 | where no name is used twice, a name finds an inode exactly when an entry says so |
| DirNames.NamesOnce | xv6 modified/fs.c:552-578 | in every state of every run no name is in a directory twice |
| DirNames.LinkAlone | xv6 modified/sysfile.c:119-164 | a call of link with nothing in between: the new name and one link more, or, where the name is taken, everything as it was |
| DirNames.UnlinkAlone | xv6 modified/sysfile.c:185-235 | a call of unlink with nothing in between: the name gone and one link less, for a directory also in its parent |
| DirLinks.LinkCounts | xv6 modified/sysfile.c:119-283 | in every state of every run no count is below the number of entries other than "." that name the inode in linked directories, plus the links in flight |
| DirLinks.DirectoryTree | xv6 modified/sysfile.c:119-283 | in every state of every run exactly one entry names each directory that can be reached from the root, in the directory its ".." names, which can be reached too, and going up ends at the root |
| DirLinks.LinkedIff | xv6 modified/sysfile.c:185-283 | while the counts are exact, a directory can be reached exactly when its count exceeds the links to it in flight |
| DirLinks.LinkNeedsLinkedParent | xv6 modified/sysfile.c:144-152 | link leaves the counts exact if and only if the count of its locked parent is positive |
| DirLinks.CreateNeedsLinkedParent | xv6 modified/sysfile.c:277-278 | the same for the last step of create, of a file and of a directory |
| DirLinks.CreateCall | xv6 modified/sysfile.c:247-278 | the same for a whole call of create, whatever other threads do meanwhile: the count that matters is the one the parent had when it was locked |
| DirLinks.CheckedCounts | xv6 modified/sysfile.c:119-283 | in every state of every run in which link and create enter names only under a parent with a positive count, each count is exactly the entries in linked directories plus the links in flight |
| DirLoss.CreateAlone | xv6 modified/sysfile.c:242-283 | create of a file or directory with nothing in between: the run exists, and ends with exact counts if and only if the parent had a link |
| DirLoss.LinkLoses | xv6 modified/sysfile.c:144-152 | a reachable state with exact counts in which link goes on and leaves them wrong |
| DirLoss.CreateLoses | xv6 modified/sysfile.c:247-278 | the same for create, of a file and of a directory |
| RingSpec.PushedWindow | xv6 modified/proc.c:873-920 | push of a process in no queue appends it exactly when the scan meets no stale word and there is room; otherwise nothing changes |
| RingSpec.TakeFirstWindow | xv6 modified/proc.c:946-963 | pop takes the front of the sequence, for every position of the ring |
| RingSpec.RemovedWindow | xv6 modified/proc.c:1047-1148 | remove is order-preserving deletion for every wrap geometry, exactly when the queue is not a single entry other than the process |
| RunQueue.RunQueue.constructor | xv6 modified/main.c:24-29 | five empty queues |
| RunQueue.RunQueue.Push | xv6 modified/proc.c:873-920 | the flat array, face and back become those of the specification, other rows untouched |
| RunQueue.RunQueue.Pop | xv6 modified/proc.c:946-963 | the first entry comes out and the rest stay in order; null from an empty queue |
| RunQueue.RunQueue.Remove | xv6 modified/proc.c:1047-1148 | the shifting loops delete the first live occurrence, for each layout of the ring |
| MlfqSpec.PushPlaces | xv6 modified/proc.c:873-920 | a runnable process in no queue joins its queue's tail, or is lost, the latter exactly when the scan meets a stale word: "queue full" cannot happen |
| MlfqSpec.AgeOneWindows | xv6 modified/proc.c:494-504 | looking at one process promotes it to the tail of the queue above exactly when it waited over 18 ticks, and keeps both queues in order |
| MlfqRuns.AgingPass | xv6 modified/proc.c:488-530 | after a pass every queue is what it kept followed by what the next one gave it, in order, and no one left in queues 1 to 4 has waited over 18 ticks |
| MlfqRuns.StepPlaced | xv6 modified/proc.c:198-809 | fork, yield, sleep, wakeup, kill, exit, wait, tick and dispatch each keep the placement invariant and bring no lost process back |
| MlfqRuns.Placement | xv6 modified/proc.c:534-589 | in every run a process is in a queue exactly when it is runnable and not lost, then in one slot, of the queue numbered qn |
| MlfqRuns.DispatchRuns | xv6 modified/proc.c:534-560 | in every reachable state the process popped is runnable and is run, and the rest of its queue stays in order |
| MlfqLoss.YieldKeepsIff | xv6 modified/proc.c:562-583 | a process whose slice is used up goes one queue down, from the last to it again, with fresh times; it is at that queue's tail exactly when push meets no stale word; no other process or queue changes |
| MlfqLoss.ReadyKeepsIff | xv6 modified/proc.c:232-239 | a forked child is runnable in the top queue, at its tail exactly when push meets no stale word |
| MlfqLoss.WakeupKeepsIff | xv6 modified/proc.c:759-782 | of the processes wakeup finds asleep, each is queued exactly when push meets no stale word at its turn |
| MlfqLoss.KillKeepsIff | xv6 modified/proc.c:788-809 | a sleeping process that is killed is runnable in the queue it had, at its tail exactly when push meets no stale word |
| MlfqLoss.LossReachable | xv6 modified/proc.c:759-884 | a state reachable from boot, by forks, sleeps, wakeups and dispatches alone, in which a process just woken is in no queue |
| MlfqEffects.WakeupWakes | xv6 modified/proc.c:759-782 | wakeup makes exactly the sleepers on the channel runnable, and appends those it does not lose to their queues in slot order |
| MlfqEffects.SleepsUntilWoken | xv6 modified/proc.c:720-782 | a process that slept is runnable in its queue after a wakeup on its channel and sleeps on through one on another |
| MlfqEffects.ExitWakes | xv6 modified/proc.c:265-288 | exit leaves a zombie and makes a parent asleep in wait runnable, and init where dead children pass to it; nobody else changes |
| MlfqEffects.TickCounts | xv6 modified/proc.c:1013-1035 | a tick is one more run for a running process and one more waited for every other |
| MlfqEffects.SliceUsedUp | xv6 modified/trap.c:141-146 | a process just dispatched is made to yield after exactly 1, 2, 4, 8 or 16 ticks, by its queue |
| MlfqEffects.DispatchTakes | xv6 modified/proc.c:534-560 | after the aging pass the head of the highest queue that is not empty is run, with fresh times; nothing else changes |
| MlfqPass.Scheduler.Push | xv6 modified/proc.c:873-920 | push with the times it resets, as one step of the machine |
| MlfqPass.Scheduler.AgeQueue | xv6 modified/proc.c:489-526 | whatever remove shifts meanwhile, the loops look at each entry the queue had once, in order, for both layouts |
| MlfqPass.Scheduler.AgingPass | xv6 modified/proc.c:488-530 | the loops do the aging pass of the specification |
| MlfqPass.Scheduler.Dispatch | xv6 modified/proc.c:488-560 | one turn of the scheduler loop is the machine's dispatch step; it idles exactly when every queue is empty |
| Pbs.Choose | xv6 modified/proc.c:606-628 | a runnable process of least priority value, the first of them in cyclic order from the cursor |
| Pbs.Next | xv6 modified/proc.c:601-630 | a pass goes on exactly while an entry from the cursor on is runnable, and then runs the pick from the cursor |
| Pbs.StaysAhead | xv6 modified/proc.c:601-643 | a waiting process nearer the cursor than another stays nearer until it is run |
| Pbs.RoundRobin | xv6 modified/proc.c:597-648 | between two runs of a process, every process of least priority value that stays runnable is run |
| SleepWakeup.StepKeepsInv | xv6 modified/proc.c:720-809 | every lock step, sleep step, wakeup step, dispatch and kill keeps the invariant |
| SleepWakeup.NoLostWakeup | xv6 modified/proc.c:720-782 | in every state of every run, a process asleep on a channel whose condition holds is one some waker has yet to reach |
| SleepWakeup.WakerRuns | xv6 modified/proc.c:720-782 | that waker is itself running and not on its way to sleep, in every run in which a process that has made a condition true goes to its wakeup without sleeping before |
| SleepWakeup.WokenIff | xv6 modified/proc.c:759-809 | a step wakes a sleeper exactly if it is the turn, at that sleeper, of a wakeup on its own channel, or a kill of it |
| SleepWakeup.SleepEntersLocked | xv6 modified/proc.c:720-738 | a process enters sleep holding the condition's lock with the condition false |
| SleepWakeup.SleepReturnsLocked | xv6 modified/proc.c:738-754 | and leaves it holding that lock again, with no channel |
| SleepWakeup.SleepLocks | xv6 modified/sleeplock.c:23-42 | in every run a sleep lock has at most one holder, is locked while it has one, and nobody sleeps on a free one once no release is under way |
| PageTables.Memory.constructor | xv6 modified/kalloc.c:32-44 | no frame is free and none is mapped before freerange |
| PageTables.Memory.FreeRange | xv6 modified/kalloc.c:47-53 | exactly the frames of the range become free |
| PageTables.Memory.KfreeHeld | xv6 modified/kalloc.c:60-77 | a frame its holder gives up heads the free list, filled with junk; no mapping, no table and no other data changes, and free, owned and held frames still partition memory |
| PageTables.Memory.Kalloc | xv6 modified/kalloc.c:83-95 | a free frame nobody owns, or failure exactly when none is free; no mapping or page content changes |
| PageTables.Memory.WalkPgdir | xv6 modified/vm.c:36-55 | the table of the page, entered writable and for the user, made if asked and a frame is free; no page's mapping changes; fails exactly when there is none and none may or can be made |
| PageTables.Memory.MapPages | xv6 modified/vm.c:61-80 | the pages get consecutive frames with the given flags, user pages taking theirs over from the holder, and no other page of any directory changes; it stops at the first page that is mapped already, with the panic, or for which no table can be had; the free frames it took are exactly the tables that were missing |
| PageTables.Memory.SetupKvm | xv6 modified/vm.c:104-136 | a new directory with the kernel's four ranges and no user page, made of exactly 65 frames; it fails exactly when fewer are free, and then every frame is free again |
| PageTables.Memory.AllocUvm | xv6 modified/vm.c:222-249 | done exactly when no page between the sizes is mapped and the free frames are at least the pages and the missing tables, and then each page has a zeroed frame of its own and that many frames were taken; it panics exactly when the frames last until the first mapped page with one to spare; otherwise the pages between the sizes are unmapped and everything else is as before |
| PageCounts.MissingIs | xv6 modified/vm.c:36-55 | the count of missing tables is the number of directory entries without a table among those of the pages |
| PageViews.RestoredIff | xv6 modified/vm.c:232-247 | what a failed allocuvm leaves is the mappings as before exactly when none of those pages was mapped |
| PageViews.OnlyTablesLost | xv6 modified/vm.c:232-247 | after a failed allocuvm a frame that was free is free again or is one of the page tables just made |
| PageTables.Memory.DeallocUvm | xv6 modified/vm.c:256-279 | exactly the user pages between the sizes go, whatever tables are missing, and their frames are free |
| PageTables.Memory.FreeVm | xv6 modified/vm.c:284-298 | every frame the directory had is free, once; other directories and held frames keep theirs |
| PageTables.Memory.CopyUvm | xv6 modified/vm.c:316-345 | done exactly when no page below the size is missing and there are 65 frames plus one for each page and each table of them, and then the new directory has the kernel's mappings and pages with the same contents and flags on frames of its own; it panics exactly when the frames last until the first missing page; otherwise everything is as before |
| PageViews.FreeAgain | xv6 modified/vm.c:342-344 | "as before" means that the same frames are free |
| PageLoss.RollbackLoses | xv6 modified/vm.c:222-249 | calls from boot after which a failed allocuvm has unmapped a page it had not mapped |
| AddressSpaces.Processes.UserInit | xv6 modified/proc.c:143-146 | the first process has page 0 and size PGSIZE, exactly when 67 frames are free |
| AddressSpaces.Processes.GrowProc | xv6 modified/proc.c:175-194 | never meets allocuvm's panic; growing fails exactly when address space or frames are short, and shrinking exactly when the size or the sum is 0; a failure leaves every mapping as it was, and every call keeps every process's user pages exactly those below its size, except when all is given back |
| AddressSpaces.Processes.Fork | xv6 modified/proc.c:213-219 | the child has the parent's size and copies of its pages; panics exactly for a process that has given all back; otherwise fails exactly when frames are short, changing nothing |
| AddressSpaces.Processes.LoadSegment | xv6 modified/exec.c:46-58 | a segment is taken exactly when its header is good and address space and frames suffice; allocuvm does not panic and every page loaduvm fills is there |
| AddressSpaces.Processes.Exec | xv6 modified/exec.c:38-109 | succeeds exactly when all headers are good, the image ends below KERNBASE and the free frames are at least what it takes; then the process has the new directory and the image's size, with exactly the pages below it, and the old directory is freed; otherwise nothing has changed |
| AddressSpaces.Processes.Reap | xv6 modified/proc.c:310-316 | the dead process's directory is freed and every other process keeps its pages |
| SpaceSpec.GrowEnds | xv6 modified/proc.c:182-184 | from sizes that say which pages there are, however allocuvm ends it is no panic and the sizes say so again |
| SpaceSpec.ShrinkEnds | xv6 modified/proc.c:185-189 | the same for deallocuvm, with the process that gave all back set apart |
| ExecSpec.ImageNeed | xv6 modified/exec.c:52-67 | growing the image in steps takes in all the frames of one step |
| HeapSpec.MergeTile | xv6 modified/umalloc.c:33-41 | joining two touching blocks keeps the tiling of the arena |
| HeapSpec.SplitTile | xv6 modified/umalloc.c:78-82 | so does cutting the tail off a block |
| HeapSpec.GrowTile | xv6 modified/umalloc.c:52-59 | so does new memory above all there is |
| HeapSpec.PutBack | xv6 modified/umalloc.c:29-32 | a freed block takes its place by address; only it may touch its neighbours |
| HeapSpec.CircleWith | xv6 modified/umalloc.c:36-42 | two pointer updates put an entry on the circular list |
| HeapSpec.CircleWithout | xv6 modified/umalloc.c:39-41 | one pointer update takes one off |
| Malloc.Allocator.FindSpot | xv6 modified/umalloc.c:30-32 | from any starting entry the search stops, at the one entry after which the block belongs |
| Malloc.Allocator.Free | xv6 modified/umalloc.c:25-44 | the block leaves use and nothing else changes hands; the list stays ordered with no two touching free blocks |
| Malloc.Allocator.MoreCore | xv6 modified/umalloc.c:47-61 | the new units join the free list and make a large enough block; null exactly when sbrk refuses; otherwise it goes wild exactly when the byte count is no positive int, and then nothing is promised |
| Malloc.Allocator.Malloc | xv6 modified/umalloc.c:64-90 | a block of exactly the units asked for, disjoint from all in use; sbrk is asked exactly when no free block is large enough, once, and the search after it succeeds; null and going wild each have their exact condition; the arena stays in order unless it goes wild |
| Malloc.EnoughIff | xv6 modified/umalloc.c:69-69 | the units hold the bytes asked for exactly when the size computation does not wrap |
| Malloc.TooSmall | xv6 modified/umalloc.c:69-69 | the seven largest requests get a header and no room |
| Malloc.AddedIff | xv6 modified/umalloc.c:52-58 | sbrk adds the bytes morecore takes from it exactly when their number is a positive int, and otherwise adds none |
| Malloc.AskedIff | xv6 modified/umalloc.c:52-69 | which requests give a number that is no positive int |
| Malloc.ServedIff | xv6 modified/umalloc.c:64-90 | the process has, or gets unless sbrk refuses, memory for the bytes asked for exactly up to 0x7ffffff0 bytes, or 0xfffffff8 where a free block is large enough |
| Malloc.Shrinks | xv6 modified/umalloc.c:52-58 | a request that takes memory away from the process |
| Shell.Parser.GetToken | xv6 modified/sh.c:266-308 | reads one token of the line's token list, and advances unless at the end |
| Shell.Parser.Peek | xv6 modified/sh.c:311-320 | skips spaces only, which changes no token, and looks at one character |
| Shell.Parser.ParseRedirs | xv6 modified/sh.c:375-397 | reads every redirection there is, as the token grammar does, or fails with it |
| Shell.Parser.ParseExec | xv6 modified/sh.c:416-446 | terminates and agrees with the token grammar, on success and on failure |
| Shell.Parser.ParseBlock | xv6 modified/sh.c:400-413 | the same for a parenthesised line |
| Shell.Parser.ParsePipe | xv6 modified/sh.c:362-372 | the same for a pipeline |
| Shell.Parser.ParseLine | xv6 modified/sh.c:345-359 | the same for a line |
| Shell.Parser.ParseCmd | xv6 modified/sh.c:328-342 | the same for a whole command with nothing left over |
| ShellGrammar.ItemsParse | xv6 modified/sh.c:416-446 | words and redirections in any order are a command with those words inside those redirections, the first innermost |
| ShellGrammar.AcceptsIff | xv6 modified/sh.c:328-446 | a line is accepted exactly when its tokens derive from the grammar, and the tree is the one they derive |
| ShellText.LineCommute | xv6 modified/sh.c:345-446 | parsing by position and reading the text afterwards is parsing the text |
| ShellRound.LexSame | xv6 modified/sh.c:266-308 | the tokens found by position are the tokens of the text |
| ShellRound.RoundTrip | xv6 modified/sh.c:265-446 | parsing the printed form of any command tree with at most nine arguments per command gives that tree back |
| ShellShow.ShowRoundTrip | xv6 modified/sh.c:265-446 | the same for the form with parentheses only where the grammar needs them |
| ShellStrings.Reprints | xv6 modified/sh.c:265-446 | whatever line is accepted, its tree has at most nine real words per command, so it prints, and parsing what is printed gives the tree again |
| ShellStrings.CmdWords | xv6 modified/sh.c:266-446 | whatever the line, every place a parse records is a whole word of it |
| ShellStrings.NulTerminate | xv6 modified/sh.c:450-493 | stores NUL at each recorded word's end and nowhere else |
| ShellStrings.CStrings | xv6 modified/sh.c:450-493 | afterwards each recorded word is a C string equal to its token |
| Pipe.Tests | xv6 modified/pipe.c:85-114 | the full and empty tests are exact however often the 32-bit counters wrap |
| Pipe.SamePlace | xv6 modified/pipe.c:93-116 | wrapping does not move a byte's place, because PIPESIZE divides 2^32 |
| Pipe.Ring.constructor | xv6 modified/pipe.c:33-36 | an empty pipe with both ends open |
| Pipe.Ring.Write | xv6 modified/pipe.c:79-98 | the bytes go in in order behind those stored; it stops early only on a full ring, and fails exactly when the reader is gone or the writer killed |
| Pipe.Ring.Read | xv6 modified/pipe.c:101-121 | returns the oldest buffered bytes in order, as many as asked for or there are; sleeps or fails only when empty with the write end open |
| Pipe.Ring.Close | xv6 modified/pipe.c:60-75 | shuts one end, keeps the bytes, and frees the pipe exactly when both are shut |
| Grep.FirstItem | xv6 modified/grep.c:85-96 | the language of a pattern is the first item's words followed by the rest's |
| Grep.StarItem | xv6 modified/grep.c:99-106 | a starred item takes nothing, or one fitting character and then more |
| GrepLaws.EndLaw | xv6 modified/grep.c:85-96 | the empty pattern matches anywhere, $ at the end only |
| GrepLaws.CharLaw | xv6 modified/grep.c:85-96 | a character matches itself, a dot any one |
| GrepLaws.StarLaw | xv6 modified/grep.c:99-106 | a starred character matches any number of it |
| GrepLaws.PlainFound | xv6 modified/grep.c:73-96 | a pattern without special signs matches exactly the texts that contain it, after ^ those that begin with it |
| Grep.Match | xv6 modified/grep.c:73-82 | terminates, and is true exactly when some suffix (after ^, the whole text) has a prefix in the pattern's language |
| Grep.MatchHere | xv6 modified/grep.c:85-96 | true exactly when a prefix of the text, or all of it before $, is in the language |
| Grep.MatchStar | xv6 modified/grep.c:99-106 | the same for a starred character followed by a pattern |

## Left out

- Hardware, boot and assembly: device registers, interrupt controllers, segments and `swtch`; a context switch and acquiring or releasing a lock are single steps.
- System call plumbing, `uva2ka` and `copyout`, and user programs other than the shell's parser and grep's matcher: thin wrappers that would add easy members.
- `skipelem` and `namex`: path walking adds no invariant to the directories it reads.
- The FCFS and round-robin schedulers, `showps`, `waitx` and the `sz[]` counts: easy, or for display only.
- `mkfs`: its copying of files into the image; what it promises is used for the initial states of the runs.
- grep's line buffering and the other assignments' programs.
- BufferCache.Bcache.BGet: that "no buffers" cannot happen is not claimed over whole runs; it depends on how many unrelated readers hold buffers. The doubly linked list is the sequence of its buffers.
- RedoLog.Log.EndOp: how long a caller of `begin_op` sleeps is not modelled.
- RedoLog.Log.Commit: where somebody has a log block's buffer, which no code but the log's asks for, only the sufficient condition is stated.
- LogMachine.CrashSafety: a block write is atomic and writes reach the disk in the order issued, as `iderw` of the memory disk does.
- FsBlocks.Blocks.BMap: the count of logged blocks allows for the indirect block of a file even where a direct block is mapped; the bound on a transaction does not need better.
- FileWrite.FileWrite: the pipe branch is Pipe.Ring.Write; a write by another process between two chunks is not modelled; a device's answer is a parameter, and the byte count is not negative.
- DirNames.NamesOnce: mkfs does not check that the files it is given have different names; that they have is a premise.
- DirRuns.StepKeepsInv: a step is what happens while the inodes' locks are held; the 16-bit range of `nlink` and a directory too large to grow are not modelled.
- MlfqRuns.Placement: process memory, files and the parent tree are left out; which child `exit` abandons and what `wait` finds are parameters of the step, and any number of processors may dispatch.
- Pbs.RoundRobin: one CPU's passes; the process table may change in any way between events.
- SleepWakeup.WakerRuns: that a process goes from making a condition true to its wakeup without sleeping is a premise; it is how the kernel's callers are written.
- SleepWakeup.NoLostWakeup: as `sleep` demands, a condition becomes true only under its lock and a wakeup follows.
- PageTables.Memory.Kalloc: the free list is a sequence instead of links stored in the free frames, and a frame holds either a table's entries or data.
- AddressSpaces.Processes.Fork: the frame of the child's kernel stack, which `allocproc` takes before, is not counted.
- AddressSpaces.Processes.Exec: program headers are given; the bytes read into the pages, the flag `clearpteu` clears on the guard page and pushing the arguments are parameters or left out.
- AddressSpaces.Processes.UserInit: with 65 or 66 free frames `inituvm` goes on without its page; the model stops there.
- Malloc.Allocator.Malloc: memory is counted in header units; what sbrk answers is a parameter, above all memory there is.
- Malloc.Allocator.MoreCore: once it has gone wild, what the stray store of the header destroys is not followed.
- Malloc.Allocator.Free: of a pointer malloc did not return is not modelled.
- Shell.Parser.ParseExec: nodes are values made when complete instead of allocated and filled in; running out of memory is not modelled.
- ShellRound.RoundTrip: the printed form parenthesises every command, and words contain no spaces, symbols or NUL, as no token can.
- Pipe.Ring.Write: copying from user memory and being killed are parameters; a writer that sleeps resumes where it stopped.

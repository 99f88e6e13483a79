# A verified model of the xv6 kernel's hard parts

This project models, in Dafny 4.11, the parts of the RISC-V xv6 kernel and its user library whose correctness
does not show in any one function, and proves what they are for. `dafny verify dfyconfig.toml` checks all of it.

## What is modelled

* **The log** (`LogMachine`, `LogSafety`, `LogReservation`, `Log`). kernel/log.c as a machine whose steps are
  single disk writes, with a crash possible between any two, and as the imperative code whose every method
  extends a run of that machine. Group commit is atomic over whole runs, recovery can itself crash, and the
  condition under which "too big a transaction" never fires is exact.
* **The buffer cache** (`BufList`, `Bio`, `BioUse`, `BioReads`, `LogHeader`, `LogDisk`, `BioCommit`). The doubly linked
  list of kernel/bio.c as two arrays of links, and the pins of the current transaction, one for each header entry. A
  valid, unlocked buffer outside the transaction equals its disk block, with one exception below. bread, brelse, a turn
  of writei and a whole commit are carried out through the cache, and the disk after any bwrite of a commit recovers to
  the one before or after.
* **Files** (`FsBytes`, `FsImage`, `FsContent`, `Fs`, `File`). Bitmap, inodes, direct and indirect blocks;
  readi and writei refine a flat byte sequence, every block has one owner, and each chunk of filewrite stays
  within its log budget.
* **Links** (`LinkCount`, `LinkSteps`, `Links`). Directory entries and link counts through sys_link, sys_unlink,
  create, iput and ireclaim, with all failure paths. `Volume` joins names and blocks: iput and ireclaim free exactly
  the blocks of the inodes they free.
* **Memory** (`VmTable`, `VmFree`, `VmChange`, `VmBytes`, `VmReach`, `VmSpace`, `VirtualMemory`). The page allocator and
  three-level Sv39 tables (section 4.4 of the RISC-V Privileged Architecture, version 20211203). Every page has
  one owner, tables refine a finite map, growth and copying are all or nothing, and lazily allocated memory
  cannot be told from zero-filled memory.
* **The memory of processes** (`ProcMemory`). allocproc, freeproc, fork, exec, sbrk in both forms, page faults,
  copyin and copyout over the process table: every page is free, or belongs to exactly one process, trapframes
  included, or has been taken by the kernel itself, on all paths.
* **exec** (`ExecImage`, `Exec`). Image replacement, all or nothing, and the layout of the argument stack.
* **The user heap** (`HeapLayout`, `Umalloc`). The allocator of section 8.7 of Kernighan and Ritchie, second
  edition.
* **Processes** (`ProcMachine`, `ProcSafety`). fork, exit, wait, sleep and wakeup as a machine whose steps are
  single lock operations and table entries.
* **Pipes** (`Pipe`) and **the disk driver** (`VirtioQueue`, `VirtioSteps`, `VirtioDisk`; sections 2.6.5, 2.6.6,
  2.6.8 and 5.2.6 of VIRTIO 1.1), with counters that wrap. Each method is one stretch of code that runs with the
  lock held, or one move of the device; any other may come between two calls.
* **grep** (`Regex`, `Grep`) and **the shell's parser** (`ShellGrammar`, `ShellLex`, `ShellText`, `Shell`), against a
  language and a grammar defined without reference to the code, and trees that say what the text says.

A panic is either a result of the method that can raise it, or the negation of its precondition where every
caller is shown to meet that.

## Where a property does not hold of the code

* log_write tests for a full header before it looks for an earlier entry of the same block (kernel/log.c:221).
  An operation that logs ten blocks and then one of them again can be stopped although it needs no more space.
  `LogReservation.BudgetIsExact` gives the exact condition, `LogReservation.RewriteCanPanic` the case.
* LOGBLOCKS equals NBUF (kernel/param.h:14-15), and readers take no part in transactions (kernel/file.c:88-130).
  bget panics exactly if the block is not cached and the blocks of the header still to be installed and the unpinned
  buffers in use are NBUF together (`Bio.BufferCache.Get`). Operations that keep to their budgets can fill the
  header (`LogReservation.CommitWithHeader`), and then, or with fewer blocks and some readers, the commit's own
  bread of a log block panics: `BioUse.CommitFindsNoBuffer`.
* writei releases a buffer into which a copy from user memory has failed half way, without logging it
  (kernel/fs.c:545-548). A valid, unlocked buffer of no transaction, a stray, may then differ from its disk block:
  `BioUse.StrayBuffer`. `BioUse.WriteTurn` says when: if and only if the block was not in the transaction already and
  the bytes that came through differ from those that were there. A turn whose copy succeeds, bread and commit leave
  no such buffer.
* A writer found killed after it has put bytes into a pipe returns without a wakeup (kernel/pipe.c:84-87), so a
  reader can sleep on a pipe that is not empty: `Pipe.KilledWriterMissesWakeup`. `Pipe.PipeBuffer.Write` says for
  which calls this happens, and for no others; `Read`, `Close` and `Kill` say when it is mended.
* A name made in a directory that has been removed, but is still some process's current directory, breaks the
  link counts: `Links.FileTree.Create` and `Links.FileTree.LinkName` say if and only if, and
  `Links.FileInRemovedDirectory` gets there from an empty disk. Opening ".." there panics in ilock if and only if the
  parent has been freed too: `Links.FileTree.Create` and `Links.DotDotPanics`.
* The lazy branch of sbrk does not check that the new size stays below the trapframe (kernel/sysproc.c:55-61). A
  process beyond it cannot fork: uvmcopy comes to the trapframe, which the child has already, and panics in mappages
  (kernel/vm.c:165-166), if and only if there is memory for all before it: `ProcMemory.ProcTable.Fork`, and
  `ProcMemory.ForkMeetsTrapframe` for the case. A page fault panics in walk (kernel/vm.c:100-101) if and only if its
  address is below the size and MAXVA or more: `ProcMemory.ProcTable.Fault` and `ProcMemory.FaultMeetsMaxva`. Growth in
  the eager branch panics in mappages if and only if the new size is beyond the trapframe and memory is left after all
  pages below have been mapped: `ProcMemory.ProcTable.GrowProc` and `ProcMemory.SbrkMeetsTrapframe`.
* kexec writes ustack[argc] after its loop (kernel/exec.c:109). With exactly MAXARG arguments whose strings fit, and
  only then, that is past the array: the result `Overflow` of `Exec.Proc.PushArgs` and `Exec.Proc.KExec`. sys_exec
  never passes that many.
* kkill(0) finds an unused table entry, for its pid is 0, and marks it as killed (kernel/proc.c:594-603); allocproc
  leaves the mark, so the next child is born killed: `ProcSafety.BornKilled`. In every run a child is born killed if
  and only if its entry was so hit since it was last freed: `ProcSafety.KilledAtBirth`.
* kwait tests killed(p) and only then lets sleep take the process's lock (kernel/proc.c:404-410). A kkill in between
  finds the process awake, and it then sleeps although it is killed: `ProcSafety.KilledSleeps`, and
  `ProcSafety.KilledAsleep` for if and only if.
* nlink is a short, and sys_link increments it without a test (kernel/sysfile.c:145). The 32768th name makes it
  negative, and an unlink of any of them panics: `Links.CountOverflows`. `Links.FileTree.LinkStart` says if and only
  if.
* morecore passes its byte count to sbrk, which takes an int (user/umalloc.c:54, user/ulib.c:152). From 2 GB on, sbrk is
  asked for something else, and malloc hands out a block that lies beyond the memory obtained, so that blocks can
  overlap: `Umalloc.BlocksOverlap`. `Umalloc.Allocator.Malloc` says if and only if.

## Model

| member | source | states |
|---|---|---|
| `LogSafety.StepKeepsInv` | kernel/log.c:66-236 | every step of every operation, commit, crash and recovery keeps the log invariant |
| `LogSafety.RunKeepsInv` | kernel/log.c:66-236 | hence every state of every interleaving satisfies it |
| `LogSafety.RecoveryYieldsDurable` | kernel/log.c:117-124 | what recovery would produce from the disk is at all times the contents made durable so far |
| `LogSafety.GroupCommitSafety` | kernel/log.c:127-236 | in every interleaving with crashes, the recovered disk is the effect of a prefix of the logged writes, and that prefix holds each operation wholly or not at all and no write of an unfinished one |
| `LogSafety.CommittedForever` | kernel/log.c:194-204 | the durable prefix only ever grows, through later commits and crashes |
| `LogSafety.CommitMakesPermanent` | kernel/log.c:194-204 | when commit returns, all writes logged so far are durable, at home, and the on-disk header is empty |
| `LogSafety.CrashAtomicity` | kernel/log.c:66-204 | from the start of a commit, through crashes between any two of its disk writes and inside any number of recoveries, recovery gives all blocks their old contents or all their new ones |
| `LogSafety.CommitOrNot` | kernel/log.c:194-204 | the durable contents stay or become the committed ones, never a mixture |
| `LogSafety.RecoveryCompletes` | kernel/log.c:117-124 | a recovery that completes leaves the durable contents at home and an empty header |
| `LogReservation.ReservationHolds` | kernel/log.c:128-143 | if each operation has logged fewer than MAXOPBLOCKS distinct blocks at each log_write, header entries plus unspent budgets never exceed LOGBLOCKS and the check never fires, in any interleaving |
| `LogReservation.BudgetIsExact` | kernel/log.c:215-236 | the exact condition on one operation's list of blocks for the check never to fire: each is logged after fewer than MAXOPBLOCKS distinct ones |
| `LogReservation.OverBudgetPanics` | kernel/log.c:216-222 | otherwise there is an interleaving in which the check fires |
| `LogReservation.RewriteCanPanic` | kernel/log.c:216-236 | for example ten blocks and then one of them again, because the check comes before absorption |
| `LogReservation.PlannedNeverPanics` | kernel/log.c:128-236 | if every operation logs the blocks of a list of its own, each after fewer than MAXOPBLOCKS distinct ones, the check never fires, in any interleaving of any number of operations and across crashes |
| `LogReservation.CommitWithHeader` | kernel/log.c:147-192 | and yet, with every operation within its budget, a commit can start with any header of up to LOGBLOCKS distinct blocks |
| `Log.LogManager.constructor` | mkfs/mkfs.c:110-111 | on the zeroed disk that mkfs makes, the header is empty: the first state of a run |
| `Log.LogManager.BeginOp` | kernel/log.c:127-143 | an operation is let in exactly if no commit is running and the log has room for one more reservation |
| `Log.LogManager.ChangeBuffer` | kernel/log.c:206-214 | a change to a locked buffer is a step of the run |
| `Log.LogManager.FindEntry` | kernel/log.c:226-229 | finds the block's entry in the header, or the end |
| `Log.LogManager.Write` | kernel/log.c:215-236 | panics exactly on a full header; otherwise the block is in the header once, absorbed if it was there |
| `Log.LogManager.CopyToLog` | kernel/log.c:183-191 | one cached block is in its log slot, as one atomic disk write |
| `Log.LogManager.WriteLog` | kernel/log.c:179-192 | every block of the header is in the log, and neither header nor home blocks have changed |
| `Log.LogManager.WriteHead` | kernel/log.c:103-115 | one disk write makes the transaction durable |
| `Log.LogManager.CopyHome` | kernel/log.c:71-83 | one log block is at home and in the cache |
| `Log.LogManager.InstallTrans` | kernel/log.c:66-84 | home blocks and cache are what installing the log gives |
| `Log.LogManager.EraseHead` | kernel/log.c:199-203 | the transaction is forgotten on disk only when home equals the cache |
| `Log.LogManager.CommitLogged` | kernel/log.c:194-204 | a commit of a non-empty header ends with home equal to the cache and an empty header |
| `Log.LogManager.Commit` | kernel/log.c:194-204 | in addition, each state on the way recovers to the contents before or to those after |
| `Log.LogManager.EndOp` | kernel/log.c:147-176 | the last operation out commits everything; others change no disk block |
| `Log.LogManager.Crash` | kernel/log.c:117-124 | only the disk survives |
| `Log.LogManager.ReadHead` | kernel/log.c:87-98 | the header in memory is the one on disk |
| `Log.LogManager.RecoverFromLog` | kernel/log.c:117-124 | home holds what the log called for, and the header is empty |
| `Log.LogManager.InitLog` | kernel/log.c:53-63 | on whatever disk a stop of the machine has left, at any point of any run, recovery is completed and the log is empty |
| `BufList.Unlink` | kernel/bio.c:128-129 | taking a node out of the doubly linked list leaves one ring through all the others |
| `BufList.InsertFront` | kernel/bio.c:130-133 | putting a node behind the head gives one ring through all and it |
| `BufList.MoveFront` | kernel/bio.c:128-133 | both together permute the list of all buffers |
| `Bio.BufferCache.constructor` | kernel/bio.c:36-53 | after binit all buffers are on the list, unused |
| `Bio.BufferCache.LinkAll` | kernel/bio.c:43-52 | each buffer in turn goes to the front, and all are linked once |
| `Bio.BufferCache.Find` | kernel/bio.c:64-73 | finds a buffer that has the block, or none has it |
| `Bio.BufferCache.Victim` | kernel/bio.c:75-88 | the unused buffer released longest ago; none exactly if all are in use |
| `Bio.BufferCache.Get` | kernel/bio.c:58-89 | panics exactly if the block is not cached and the blocks of the header still to be installed, which are pinned one to one, and the unpinned buffers in use make up all NBUF; at most one buffer per block of a device other than 0; a buffer in use is never recycled, and the one recycled is unlocked and the least recently released |
| `Bio.BufferCache.Refer` | kernel/bio.c:67-69 | one more reference to the buffer that has the block |
| `Bio.BufferCache.Recycle` | kernel/bio.c:78-84 | a buffer nobody uses takes the block; no other buffer has it |
| `Bio.BufferCache.Lock` | kernel/bio.c:70-84 | a process with a reference gets the sleep-lock exactly if it is free, and otherwise changes nothing |
| `Bio.BufferCache.ReadIn` | kernel/bio.c:92-103 | afterwards the buffer is valid; if it was read now it equals its disk block, and otherwise it is as it was |
| `Bio.BufferCache.Modify` | kernel/log.c:206-214 | only the holder of the lock changes a buffer, and a locked buffer is never a stray |
| `Bio.BufferCache.Write` | kernel/bio.c:106-112 | the disk block equals the buffer, and no other block has changed |
| `Bio.BufferCache.Unlock` | kernel/bio.c:117-122 | the lock goes; the cache stays free of strays if and only if the buffer is of the transaction or equals its disk block |
| `Bio.BufferCache.LogWrite` | kernel/log.c:215-236 | the block joins the header and its buffer is pinned, exactly once however often it is logged; panics exactly with a full header |
| `Bio.BufferCache.Enter` | kernel/log.c:230-234 | a new entry and a pin, together |
| `Bio.BufferCache.Unpin` | kernel/log.c:70-84 | the next block of the header loses the transaction's pin; the cache stays free of strays if and only if the buffer is locked or equals its disk block |
| `Bio.BufferCache.Clear` | kernel/log.c:194-204 | the header is empty again once all its blocks are installed |
| `Bio.BufferCache.Entry` | kernel/log.c:226-234 | a buffer is pinned exactly if the header still to be installed names its block |
| `Bio.CoherentStep` | kernel/bio.c:92-136 | a change of one buffer keeps the cache free of strays if and only if that buffer is none: valid, unlocked, outside the transaction and different from its disk block |
| `Bio.BufferCache.Unrefer` | kernel/bio.c:125-125 | one reference less |
| `Bio.BufferCache.Put` | kernel/bio.c:124-136 | a buffer nobody uses any more becomes the most recently released, all others keep their order |
| `Bio.BufferCache.MoveToFront` | kernel/bio.c:126-134 | the list stays a permutation of all buffers in the order of their last release |
| `Bio.InUse` | kernel/bio.c:75-88 | all buffers are in use if and only if the pinned ones and the others in use are NBUF |
| `BioUse.Bread` | kernel/bio.c:92-103 | panics exactly as bget does; otherwise it has the block's buffer, locked and valid, or waits for its lock; no stray arises, and a buffer outside the transaction equals its disk block |
| `BioUse.LockAndRead` | kernel/bio.c:96-102 | the same for a process that has its reference already |
| `BioUse.Brelse` | kernel/bio.c:117-136 | lock and reference go; a stray is left if and only if the buffer is not of the transaction and differs from its disk block |
| `BioUse.WriteTurn` | kernel/fs.c:543-550 | a turn of writei's loop: the block gets the bytes and is logged, or log_write panics exactly with a full header, or the copy fails after avail bytes and the buffer is released unlogged; then the cache stays free of strays if and only if the block was in the transaction already or those bytes were there before |
| `BioUse.CopyPart` | kernel/fs.c:545-548 | the failing turn: the bytes that came through are in the buffer, and nothing is logged |
| `BioUse.CopyAndLog` | kernel/fs.c:549-550 | the other turn |
| `BioUse.StrayBuffer` | kernel/fs.c:543-548 | the failing family: from a fresh cache, every write whose copy fails after bytes that differ from the disk leaves a buffer that is valid, unlocked, in no transaction, and different from its block |
| `BioUse.Join` | kernel/log.c:206-236 | a block read, changed, logged and released is in the header and pinned, and nobody else uses it |
| `BioUse.CommitFindsNoBuffer` | kernel/log.c:179-192 | a concrete family of cases: for any transaction and any blocks that readers hold, together NBUF, write_log's bread of a log block panics; with LOGBLOCKS equal to NBUF no reader is needed |
| `BioReads.PassesSame` | kernel/log.c:179-192 | while no block is unpinned, the turns of a commit change nothing about which breads return: others keep locks and references, and a buffer in use is never recycled |
| `BioReads.PassesLater` | kernel/log.c:66-84 | what returns at the start of a commit returns to its end |
| `LogHeader.FillHead` | kernel/log.c:107-112 | the header block holds the count and the block numbers, and its other bytes are as they were |
| `LogHeader.LoadHead` | kernel/log.c:90-96 | read_head gives back what write_head has stored, for every header |
| `BioCommit.CopyToLog` | kernel/log.c:185-190 | one block of the transaction goes from its buffer to its log block, and no other block of the disk changes; it returns exactly if nobody has locked the two buffers and the log block is cached or a buffer is unused |
| `BioCommit.WriteLog` | kernel/log.c:179-192 | so all of them, in order, with the exact condition |
| `BioCommit.WriteHead` | kernel/log.c:103-115 | the header block, and no other, is written, and holds the header; it returns exactly if nobody has locked the block and it is cached or a buffer is unused |
| `BioCommit.CopyHome` | kernel/log.c:77-80 | a home block gets its bytes and its buffer is unpinned while locked, so that it is no stray when released |
| `BioCommit.InstallOne` | kernel/log.c:75-82 | the next block of the transaction is at home and unpinned, with the exact condition; reading the home block never panics, for it is pinned |
| `BioCommit.InstallTrans` | kernel/log.c:66-84 | so all of them; it returns if all breads of the commit did so at its start |
| `BioCommit.CommitLogged` | kernel/log.c:197-203 | write_log, the header, install_trans and the empty header, through the cache; if the header on the disk was empty, every disk on the way recovers to the disk before or after |
| `BioCommit.Commit` | kernel/log.c:194-204 | goes through if and only if nobody has locked a block of the transaction or of the log that it needs, and each such log block is cached or a buffer is unused; then the blocks of the transaction have on disk what their buffers had, the header block is empty, only the log area has changed besides, nothing is pinned and the cache is free of strays; other processes may hold any buffers meanwhile. If the header on the disk was empty, recovery of the disk after any bwrite on the way, also of a commit that stops, gives the blocks from before or all those of the transaction |
| `LogDisk.CommitDisk` | kernel/log.c:194-204 | the log writes and the home writes together give the disk just that |
| `BioCommit.LogAndHead` | kernel/log.c:197-199 | the log blocks and then the header: up to its write every disk recovers to the one before, with it to the one after |
| `BioCommit.Finish` | kernel/log.c:201-202 | the empty header, when all is at home |
| `LogDisk.CopyingIsWhole` | kernel/log.c:179-192 | with an empty header and any number of blocks in the log, recovery gives the disk before |
| `LogDisk.InstallingIsWhole` | kernel/log.c:66-84 | with the header written and any number of blocks installed, recovery gives the disk after |
| `LogDisk.InstalledIsWhole` | kernel/log.c:194-204 | and so it does once the header is empty again |
| `FsImage.InstallKeepsOwned` | kernel/fs.c:405-444 | naming a newly allocated block in an empty slot keeps: marked blocks are those named by one slot of one inode |
| `FsImage.DropKeepsOwned` | kernel/fs.c:448-476 | clearing a slot and its block's bit keeps it, for a partly truncated inode too |
| `FsContent.WrittenIsSplice` | kernel/fs.c:528-562 | bytes written block by block over direct and indirect blocks replace one stretch of the file's byte sequence |
| `FsContent.PatchKeeps` | kernel/fs.c:545-549 | changing the bytes of a block disturbs no ownership |
| `Fs.FileSystem.constructor` | kernel/fs.c:41-48 | a file system starts on an image whose blocks have one owner each |
| `Fs.FileSystem.Claim` | kernel/fs.c:51-82 | the bit is set, the block cleared, and both logged |
| `Fs.FileSystem.Balloc` | kernel/fs.c:66-89 | the first clear bit is taken; 0 exactly if every bit is set |
| `Fs.FileSystem.Bfree` | kernel/fs.c:92-106 | panics exactly on a clear bit; otherwise clears that bit alone |
| `Fs.FileSystem.AllocateInto` | kernel/fs.c:405-444 | a slot gets a fresh block that no other slot names, or nothing changes |
| `Fs.FileSystem.LoadOrAllocate` | kernel/fs.c:411-441 | the block a slot names, allocated if there was none |
| `Fs.FileSystem.Bmap` | kernel/fs.c:405-444 | the block of a file's block number, on every path including running out of blocks half way; ownership is kept and no other slot changes |
| `Fs.FileSystem.FreeDirect` | kernel/fs.c:454-459 | a direct block is freed and forgotten, and bfree does not panic |
| `Fs.FileSystem.FreeEntry` | kernel/fs.c:464-467 | an entry of the indirect block is freed, and bfree does not panic |
| `Fs.FileSystem.FreeIndirect` | kernel/fs.c:461-472 | all entries and then the indirect block itself |
| `Fs.FileSystem.FreeDirects` | kernel/fs.c:454-459 | all direct blocks, each bitmap block that differs logged |
| `Fs.FileSystem.FreeBlocks` | kernel/fs.c:454-472 | all blocks of the inode, likewise |
| `Fs.FileSystem.Iupdate` | kernel/fs.c:226-242 | the disk has the inode as it is in memory, and the block that its 64 bytes lie in is logged |
| `Fs.FileSystem.Itrunc` | kernel/fs.c:448-476 | exactly the blocks named by the inode's slots become free; every other slot is as before; bfree never panics; the inode on the disk is the empty one, and every bitmap block and inode that differs has gone through the log |
| `Fs.FileSystem.Readi` | kernel/fs.c:494-519 | returns exactly the slice of the file's bytes, allocates nothing, and fails exactly when the copy to the destination does |
| `Fs.FileSystem.WriteBlock` | kernel/fs.c:545-552 | one block's part of the write |
| `Fs.FileSystem.WriteStep` | kernel/fs.c:540-553 | one pass of the loop, with the blocks it logs counted |
| `Fs.FileSystem.WriteLoop` | kernel/fs.c:538-553 | a prefix of the source is written, no more than can be copied; it stops short only if the disk is full or the bytes for the next block cannot be copied |
| `Fs.FileSystem.Writei` | kernel/fs.c:528-562 | the result replaces exactly bytes off to off+tot and extends the size; other files keep their bytes; everything changed was logged, the block that holds the inode last, and the inode on the disk is the one in memory; a write of at most one chunk logs within one operation's budget |
| `Fs.ChunkWithinBudget` | kernel/file.c:149-157 | a chunk logs at most MAXOPBLOCKS distinct blocks for any bitmap, counting the inode, the indirect block, data blocks and bitmap blocks, because an unaligned start lies in a mapped block |
| `File.OpenFile.constructor` | kernel/file.c:34-47 | an open file at offset 0 |
| `File.OpenFile.Chunk` | kernel/file.c:154-171 | one operation: a stretch of the source replaces the file's bytes at the offset; what the operation logs is recorded and within budget |
| `File.OpenFile.Turn` | kernel/file.c:156-171 | a turn of the loop: a chunk of at most three blocks, and on only if all of it was written |
| `File.OpenFile.Filewrite` | kernel/file.c:148-173 | the file's bytes from the offset on become the source's, chunk by chunk; the lists of its operations, one after the other, are exactly what was logged; -1 only for an offset past the end, a file too large, a full disk or a failing source |
| `File.FilewritesNeverPanic` | kernel/file.c:148-173 | in every run of the log whose operations log what filewrite operations on any number of files log, in any interleaving and across crashes, "too big a transaction" never fires |
| `LinkSteps.RaiseKeeps` | kernel/sysfile.c:145-166 | sys_link's count going up, or down again on failure, keeps: nlink is the number of names in linked directories plus links on their way |
| `LinkSteps.LinkKeeps` | kernel/sysfile.c:149-157 | making the name keeps it |
| `LinkSteps.FileUnlinkKeeps` | kernel/sysfile.c:222-233 | removing a name of a file keeps it, and the count was at least 1 |
| `LinkSteps.DirUnlinkKeeps` | kernel/sysfile.c:222-233 | removing an empty directory keeps it: its count was exactly 1, and its parent loses the link of its ".." |
| `LinkSteps.AdoptKeeps` | kernel/sysfile.c:276-289 | a new directory and its parent gain one link each |
| `LinkSteps.FreeKeeps` | kernel/fs.c:342-359 | an inode without links is named nowhere, so freeing it is safe |
| `LinkSteps.TwoLinks` | kernel/sysfile.c:225-228 | a directory above another has at least two links, so dp->nlink-- never unlinks it |
| `LinkSteps.OneName` | kernel/sysfile.c:173-186 | a directory without entries has one name only |
| `Links.FileTree.constructor` | mkfs/mkfs.c:117-128 | an empty root directory whose ".." is its one link |
| `Links.FileTree.DirLookup` | kernel/fs.c:574-598 | finds the first entry with the name, or there is none |
| `Links.FileTree.FindSlot` | kernel/fs.c:615-621 | the first empty slot, or the end |
| `Links.FileTree.DirLink` | kernel/fs.c:602-629 | the entry is added exactly if the name is absent and some entry is empty or there is room for one more, and nothing else changes |
| `Links.FileTree.IsDirEmpty` | kernel/sysfile.c:173-186 | true exactly if no entry but the first two is in use |
| `Links.FileTree.FindInode` | kernel/fs.c:199-220 | the first unused inode, 0 if there is none |
| `Links.FileTree.Hold` | kernel/fs.c:282-289 | one more reference |
| `Links.FileTree.Iput` | kernel/fs.c:337-363 | the last reference to an inode without links frees it; no orphan is left |
| `Links.FileTree.Drop` | kernel/fs.c:337-363 | the same step where link counts may already be wrong |
| `Links.FileTree.LinkStart` | kernel/sysfile.c:138-147 | refuses directories and gives up its reference; otherwise the link is on its way, and counts are right if and only if the count was below 32767, for it is a short |
| `Links.FileTree.LinkName` | kernel/sysfile.c:149-157 | the name is made exactly if it is absent and there is a place for it; link counts are right afterwards if and only if no name was made or the directory is itself linked |
| `Links.FileTree.LinkUndo` | kernel/sysfile.c:163-169 | the failure path restores the count and gives up the reference |
| `Links.FileTree.RemoveName` | kernel/sysfile.c:222-232 | entry and counts change together |
| `Links.FileTree.Unlink` | kernel/sysfile.c:188-243 | fails exactly for dots, absent names and directories in use; otherwise the name goes, its inode was no directory with names, and the inode goes with its last name and last user; the nlink < 1 panic is unreachable |
| `Links.FileTree.UnlinkFound` | kernel/sysfile.c:210-238 | the name that was found goes exactly if it is not that of a directory with names; the count is then at least 1, so that the panic on a lost link is unreachable |
| `Links.FileTree.DotEntries` | kernel/sysfile.c:276-280 | the two first entries of a new directory |
| `Links.FileTree.MakeInode` | kernel/sysfile.c:265-302 | a new inode with its name, or the inodes exactly as before on every failure path |
| `Links.FileTree.CreateName` | kernel/sysfile.c:265-302 | link counts are right afterwards if and only if nothing was made or the directory is itself linked |
| `Links.FileTree.OpenEntry` | kernel/sysfile.c:256-263 | a name that is there is the result exactly if a file is wanted and it names a file or a device; references are then one more for it and one less for the directory, and otherwise only that; ilock panics exactly if its inode has been freed, and then the name is ".." and the directory has no links; no orphan is left |
| `Links.FileTree.Create` | kernel/sysfile.c:245-302 | a name that is there: its first entry is opened exactly if a file is wanted and it is a file or a device. One that is not: a new inode with one link is made exactly if an inode is unused and there is a place for every entry, and otherwise nothing has changed. References are exact in all cases; ilock panics if and only if the name is ".." and that entry of the directory names an inode that has been freed; link counts are right afterwards if and only if no new name was made or the directory is itself linked, and then there are no orphans |
| `Links.CreateDead` | kernel/sysfile.c:282-289 | in a directory that is not linked, each kind of new inode breaks some count |
| `Links.RemovedDirectory` | kernel/sysfile.c:188-243 | from an empty disk, mkdir and rmdir reach a directory without links that a process still sits in |
| `Links.FileInRemovedDirectory` | kernel/sysfile.c:265-289 | from there, create makes a file with link count 1 that no linked directory names, and the counts are wrong |
| `Links.RemovedParent` | kernel/sysfile.c:188-243 | from an empty disk, calls that reach a removed directory which is still in use and whose parent is removed and freed |
| `Links.DotDotPanics` | kernel/sysfile.c:245-260 | from there, opening ".." panics in ilock: no type |
| `Links.ManyNames` | kernel/sysfile.c:120-157 | from an empty disk, calls that give a file 32767 names, one of them in the root; every directory keeps to 16386 entries of the 17152 it has room for |
| `Links.CountOverflows` | kernel/sysfile.c:138-147 | from there, one more sys_link makes the count -32768, and an unlink of the name in the root panics |
| `Links.FileTree.Reboot` | kernel/fs.c:373-393 | references do not survive; counts do |
| `Links.FileTree.Ireclaim` | kernel/fs.c:373-393 | afterwards no inode in use has no links, and linked inodes are untouched |
| `Volume.MountedDisk.constructor` | kernel/fs.c:41-48 | inodes and names with their blocks: only inodes in use have any |
| `Volume.MountedDisk.BlocksInUse` | kernel/fs.c:337-393 | every marked block is named by an inode in use |
| `Volume.MountedDisk.Iput` | kernel/fs.c:337-363 | the last reference to an inode without links frees the inode and exactly the blocks it had; otherwise no block changes; no orphan is left |
| `Volume.MountedDisk.Ireclaim` | kernel/fs.c:373-393 | afterwards every inode in use has a link, linked inodes are untouched, and the marked blocks are exactly those that linked inodes had |
| `VmSpace.OneOwner` | kernel/kalloc.c:46-82 | every page is on the free list, a page table, a mapped user page or in the kernel's hands: exactly one of these, and once |
| `VmSpace.TranslateIsLeaf` | kernel/vm.c:97-115 | the hardware's walk of the three tables gives exactly the finite map from virtual page to page and permissions |
| `VmTable.AllocKeepsInv` | kernel/kalloc.c:68-82 | taking a page off the free list keeps page ownership and all tables |
| `VmTable.ReleaseKeepsInv` | kernel/kalloc.c:46-63 | giving one back keeps them, even while a table entry still points to it |
| `VmTable.AddTableKeepsInv` | kernel/vm.c:108-111 | a page becomes an empty table |
| `VmTable.DropTableKeepsInv` | kernel/vm.c:262-278 | an empty table leaves its address space |
| `VmTable.AttachKeepsInv` | kernel/vm.c:163-167 | a page in hand becomes a user page |
| `VmTable.DetachKeepsInv` | kernel/vm.c:202-210 | a user page is in hand again |
| `VmTable.SetEntryKeepsInv` | kernel/vm.c:145-174 | writing the one outstanding table entry completes each of these |
| `VirtualMemory.Memory.constructor` | kernel/kalloc.c:26-31 | all pages free |
| `VirtualMemory.Memory.FreeRange` | kernel/kalloc.c:33-40 | each page of the range is freed once, and that many are free |
| `VirtualMemory.Memory.KAlloc` | kernel/kalloc.c:68-82 | 0 exactly if no page is free |
| `VirtualMemory.Memory.KFree` | kernel/kalloc.c:46-63 | a page in hand goes to the head of the free list |
| `VirtualMemory.Memory.LinkNew` | kernel/vm.c:108-111 | a new table below an empty entry |
| `VirtualMemory.Memory.Descend` | kernel/vm.c:103-113 | one level down, with a new table only if allowed and there is memory |
| `VirtualMemory.Memory.Walk` | kernel/vm.c:97-115 | 0 exactly if tables are missing and may not, or cannot, be made; new tables come from free pages and nothing mapped changes |
| `VirtualMemory.Memory.WalkAddr` | kernel/vm.c:120-138 | the page exactly if it is mapped for user code |
| `VirtualMemory.Memory.MapPage` | kernel/vm.c:145-174 | panics exactly if the page is mapped; fails exactly if there are fewer free pages than missing tables; otherwise one mapping more and nothing else |
| `VirtualMemory.Memory.MapZero` | kernel/vm.c:226-237 | a zeroed page is mapped, or returned; needs one page and the missing tables, exactly; panics exactly if the page is mapped and there is a page to be had |
| `VirtualMemory.Memory.UnmapPage` | kernel/vm.c:201-211 | one mapping less, its page free if asked; no effect where nothing is mapped |
| `VirtualMemory.Memory.UvmUnmap` | kernel/vm.c:192-212 | exactly the range is unmapped and its pages are free; all other pages keep owner and contents |
| `VirtualMemory.Memory.GrowRange` | kernel/vm.c:225-238 | the whole range is mapped to zeroed pages, exactly if it ends at or below the trapframe and as many pages are free as it needs; it panics exactly if it goes beyond and there are more than it needs below; otherwise no mapping has changed |
| `VirtualMemory.Memory.UvmAlloc` | kernel/vm.c:216-240 | all or nothing for every size, with the exact number of pages needed; panics exactly if the new size is beyond the trapframe and there are more pages than all below it needs |
| `VmChange.MissingIsNeed` | kernel/vm.c:216-240 | the tables that a page lacks and the page itself are what growing by it needs |
| `VmChange.NeedGrows` | kernel/vm.c:216-240 | each further page of a range needs at least one page more |
| `VmChange.NeedJoin` | kernel/vm.c:225-238 | growing in two stretches takes what growing at once does |
| `VirtualMemory.Memory.UvmDealloc` | kernel/vm.c:246-258 | the pages above the new size are unmapped and free |
| `VirtualMemory.Memory.FreeWalk` | kernel/vm.c:262-278 | frees every table below a table once, never meets a mapping, and touches nothing else |
| `VirtualMemory.Memory.UvmCreate` | kernel/vm.c:178-187 | an address space nobody had, with nothing mapped |
| `VirtualMemory.Memory.UvmFree` | kernel/vm.c:282-288 | everything the address space had is free and nothing else has changed owner or contents |
| `VirtualMemory.Memory.CopyPage` | kernel/vm.c:304-318 | the child gets its own copy of a page if the parent has it, or memory ran out; needs the page and its missing tables, exactly |
| `VirtualMemory.Memory.UvmCopy` | kernel/vm.c:296-324 | for every size: the child has every page of the parent below sz with the same bytes and permissions on pages that were free, exactly if sz is not beyond the trapframe and as many pages are free as the parent has there and the child's tables for them need; it panics exactly if sz is beyond and more are free than all below the trapframe needs; otherwise the child has no user page |
| `VirtualMemory.Memory.CopyTrapframe` | kernel/vm.c:304-318 | the turn at the trapframe, which the child has already: mappages panics exactly if a page is free |
| `VmChange.PageCopied` | kernel/vm.c:296-324 | the tables that a copied page lacks are those that no page copied before lies under |
| `VmChange.CopyNeedIsForkNeed` | kernel/proc.c:268-273 | for a new child that is a number of the parent's pages alone |
| `VirtualMemory.Memory.UvmClear` | kernel/vm.c:328-337 | only the user permission of one mapping goes |
| `VirtualMemory.Memory.VmFault` | kernel/vm.c:452-473 | for every size and address: maps a page exactly if the address is below sz and below MAXVA, not mapped, and memory allows; walk panics exactly if it is below sz and not below MAXVA; no process sees any byte change |
| `VirtualMemory.Memory.IsMapped` | kernel/vm.c:475-486 | whether the finite map has the page |
| `VirtualMemory.Memory.Reach` | kernel/vm.c:353-358 | the page a copy needs, faulted in if it is lazy; fails exactly if it is not the user's or memory lacks it or its tables |
| `VirtualMemory.Memory.Store` | kernel/vm.c:365-368 | bytes change in one page and nowhere else |
| `VirtualMemory.Memory.CopyOutPage` | kernel/vm.c:348-373 | one page of a copy; fails exactly if the page is not writable for user code, or is lazy and memory lacks it or its tables |
| `VirtualMemory.Memory.CopyOut` | kernel/vm.c:342-375 | succeeds exactly if every page can be written and the free pages cover the lazy ones and their missing tables; exactly the source's bytes are then in the process's memory across pages, and otherwise those up to the first page that cannot be had; other processes see no change |
| `VirtualMemory.Memory.CopyInPage` | kernel/vm.c:385-401 | one page of a copy, with the same exact condition |
| `VirtualMemory.Memory.CopyIn` | kernel/vm.c:380-403 | exactly the bytes of the process's memory, with zeros where it is lazy, or a prefix up to the first page that cannot be had; succeeds exactly if every page can be read and memory covers the lazy ones |
| `VmReach.ReachNeeds` | kernel/vm.c:348-373 | while a copy goes on, the next lazy page takes what the state before the copy says |
| `VmReach.ReachMore` | kernel/vm.c:348-373 | faulting in one page more keeps that account, whether it was mapped before or not |
| `VmReach.StopsIsUnfit` | kernel/vm.c:353-361 | a copy that stops at some page cannot be one that fits |
| `VmBytes.ExtendedSameMemory` | kernel/vm.c:216-240 | mapping zeroed pages, eagerly or on a fault, changes no byte that any process sees |
| `VmBytes.CopiedSameMemory` | kernel/vm.c:296-324 | after a fork the child sees the parent's memory, lazy pages included, and nobody else sees a change |
| `VmBytes.PagesApart` | kernel/vm.c:296-324 | no two user pages of any processes share a page |
| `VmBytes.ReadWritten` | kernel/vm.c:342-403 | what was copied out is read back, and all other bytes are as before |
| `VirtualMemory.Memory.ProcPagetable` | kernel/proc.c:176-205 | fails exactly with fewer than three free pages, and then every page is whose it was; the second mappages cannot fail; the trampoline is readable and executable and the trapframe readable and writable, neither for user code; the new space has the tables for its two mappings and no others |
| `VirtualMemory.Memory.ProcFreePagetable` | kernel/proc.c:209-216 | everything the process had is free, except its trapframe |
| `ProcMemory.OneSlot` | kernel/proc.c:110-172 | every page of the machine is free or in exactly one slot: as its trapframe, a page table or a user page |
| `ProcMemory.TrapframeMapped` | kernel/proc.c:194-200 | the trapframe's page of a process is mapped as such in its own address space and in no other |
| `ProcMemory.DuringExec` | kernel/exec.c:130-136 | when kexec commits, exactly the two address spaces of its process map it |
| `ProcMemory.LocalStep` | kernel/proc.c:110-172 | a step that touches only one process's pages keeps that for all processes |
| `ProcMemory.ProcTable.constructor` | kernel/proc.c:47-58 | no processes, all memory free |
| `ProcMemory.ProcTable.OneProcess` | kernel/proc.c:110-172 | every page of the machine is free, or exactly one process has it, as trapframe, page table or user page, or the kernel has taken it, once; pipes and exec's arguments included |
| `ProcMemory.ProcTable.KernelAlloc` | kernel/kalloc.c:68-82 | a page for the kernel's own use, 0 exactly if none is free; no process sees a change |
| `ProcMemory.ProcTable.KernelFree` | kernel/kalloc.c:46-63 | such a page is free again |
| `ProcMemory.ProcTable.Unused` | kernel/proc.c:115-122 | the first unused slot |
| `ProcMemory.ProcTable.AllocProc` | kernel/proc.c:110-150 | fails exactly if all slots are used or fewer than four pages are free, and then every page is where it was; otherwise a process with its own trapframe and address space, and no other process sees a byte change |
| `ProcMemory.ProcTable.AddSpace` | kernel/proc.c:136-142 | the address space of the new process, or its trapframe is free again |
| `ProcMemory.ProcTable.FreeProc` | kernel/proc.c:155-172 | exactly the pages the process had are free, also when it was only half made |
| `ProcMemory.ProcTable.Fork` | kernel/proc.c:263-280 | the child sees the parent's bytes on pages of its own, or there is no child and every page is where it was; succeeds exactly with a slot, a size not beyond the trapframe, and as many free pages as four, the pages the parent has, and the tables for them; panics exactly if the size is beyond and more are free than four and all below the trapframe needs |
| `ProcMemory.ProcTable.CopyParent` | kernel/proc.c:268-274 | its second half, for a child that has been allocated, with the same exact conditions |
| `ProcMemory.ProcTable.KExec` | kernel/exec.c:26-148 | for a process of the table: on success the finished image is its address space and replaces the old one, on failure nothing has changed; succeeds exactly if the file is right, the arguments fit and as many pages are free as the image, its stack and all its tables take; page ownership holds throughout the table |
| `ProcMemory.ProcTable.GrowProc` | kernel/proc.c:236-252 | growth is all or nothing and shrinking frees exactly the pages above, with page ownership kept for all processes; growth panics if and only if the new size is beyond the trapframe and there are more pages than all below it needs |
| `ProcMemory.ProcTable.Extend` | kernel/proc.c:243-246 | growth, with the exact number of pages |
| `ProcMemory.ProcTable.Retract` | kernel/proc.c:247-249 | shrinking; a size that would be negative leaves the old one |
| `ProcMemory.ProcTable.SbrkLazy` | kernel/sysproc.c:55-61 | only the size changes, to any size below 2^64, and what every process sees stays; what a size beyond the trapframe does is in Fork and Fault |
| `ProcMemory.ProcTable.Fault` | kernel/vm.c:452-473 | at any address and for any size: maps a page exactly if the address is below the size and MAXVA, not mapped, and memory allows; panics exactly if it is below the size and not below MAXVA; no process sees a byte change, and page ownership is kept for all processes |
| `ProcMemory.ProcTable.CopyOut` | kernel/vm.c:342-375 | the same for a process of the table, with page ownership kept for all |
| `ProcMemory.ProcTable.CopyIn` | kernel/vm.c:380-403 | the same for a process of the table, with page ownership kept for all |
| `ProcMemory.SbrkMeetsTrapframe` | kernel/sysproc.c:39-63 | from a fresh machine with six pages or more: a process raises its size lazily to one page below the trapframe, then asks for two at once, and mappages panics |
| `ProcMemory.ForkMeetsTrapframe` | kernel/sysproc.c:55-61 | from a fresh machine with nine pages or more: a process raises its size lazily to one page beyond the trapframe, forks, and mappages panics |
| `ProcMemory.FaultMeetsMaxva` | kernel/sysproc.c:55-61 | from a fresh machine with six pages or more: a process raises its size lazily beyond MAXVA, touches MAXVA, and walk panics |
| `Exec.Proc.constructor` | kernel/exec.c:36-36 | a process with an address space |
| `Exec.Proc.LoadSeg` | kernel/exec.c:150-173 | the segment's bytes are in memory at vaddr; fails exactly if the file is short; its panic is unreachable |
| `Exec.Proc.FlagsToPerm` | kernel/exec.c:13-21 | bit 0 of the flags is execution, bit 1 is writing |
| `Exec.Proc.Grow` | kernel/exec.c:71-73 | the new address space grows, or is as it was; fails exactly with fewer pages than all up to the new size needs |
| `Exec.Proc.LoadOne` | kernel/exec.c:59-76 | a header is accepted exactly if it is well formed and its pages are free, for all 64-bit addresses and sizes; the image then has its bytes, and the pages mapped for it the permissions of its flags |
| `Exec.Proc.LoadAll` | kernel/exec.c:58-76 | all headers, exactly if each is well formed and the pages of all are free: each byte of the image is that of the last segment covering it, or zero, and each page has the permissions of the segment it was mapped for |
| `Exec.Proc.AddStack` | kernel/exec.c:84-94 | a guard page user code cannot touch, and above it a stack that can be written and not executed; fails exactly with fewer pages than image and stack need |
| `Exec.Proc.Push` | kernel/exec.c:105-106 | copyout to the stack cannot fail |
| `Exec.Proc.PushString` | kernel/exec.c:101-107 | one string below the ones before, or it does not fit |
| `Exec.Proc.PushArgs` | kernel/exec.c:96-117 | succeeds exactly if there are fewer than MAXARG arguments and they fit with their pointers, and overruns ustack exactly if there are MAXARG and the strings fit; every string is in memory with its terminator, aligned to 16 bytes, below the one before |
| `Exec.Proc.PushTable` | kernel/exec.c:111-117 | the array of pointers, ended by 0, below the strings |
| `Exec.Proc.FillImage` | kernel/exec.c:58-117 | a finished image exactly if the headers are good, the arguments fit and there are pages for it; the overrun of ustack exactly if the arguments are MAXARG and their strings fit |
| `Exec.Proc.BuildImage` | kernel/exec.c:55-147 | a finished image that nobody else sees, or every page as it was, under the same exact conditions |
| `Exec.Proc.KExec` | kernel/exec.c:26-148 | succeeds exactly if the file is right, the arguments fit and as many pages are free as the image, its stack and all its tables take; failure leaves the process and every page as they were; success installs the image with its permissions, its arguments, their 64-bit addresses and the registers, and frees all the old image had; ustack is overrun exactly with MAXARG arguments whose strings fit |
| `ExecImage.ImageNeeds` | kernel/exec.c:58-94 | what headers and stack take together, page by page, is a number of the final size alone |
| `VmChange.NeedIsFreshNeed` | kernel/vm.c:225-238 | in a new address space a range from 0 needs its pages and one table for each first page under one, except under those that the trapframe has |
| `ExecImage.FewPages` | kernel/vm.c:225-238 | the pages of one address space, and the free ones, are each no more than the machine has |
| `ExecImage.SpDecreases` | kernel/exec.c:98-108 | argument strings lie below one another and are aligned |
| `ExecImage.GoneReady` | kernel/exec.c:130-136 | freeing the old image changes no byte and no permission of the new one |
| `HeapLayout.Release` | user/umalloc.c:24-44 | linking a block in and joining it with the neighbours it touches keeps: one ring in address order, blocks disjoint, no two neighbours touching, no unit lost |
| `HeapLayout.SearchTest` | user/umalloc.c:30-32 | the test of free's loop holds at the one right place and nowhere else |
| `HeapLayout.TakeWhole` | user/umalloc.c:76-77 | an exact fit leaves the ring |
| `HeapLayout.TakeTail` | user/umalloc.c:78-82 | a larger block gives up its tail and stays in place |
| `HeapLayout.Grow` | user/umalloc.c:46-61 | fresh memory adds its units, disjoint from all others |
| `HeapLayout.BlocksDisjoint` | user/umalloc.c:24-90 | no two blocks overlap, free or handed out |
| `HeapLayout.UnitsConserved` | user/umalloc.c:24-90 | free units plus units handed out are the units obtained from sbrk |
| `Umalloc.Allocator.constructor` | user/umalloc.c:21-22 | an empty heap |
| `Umalloc.Allocator.FindPlace` | user/umalloc.c:30-32 | terminates at the place in address order |
| `Umalloc.Allocator.Free` | user/umalloc.c:24-44 | the block's units are free, the invariant holds, other blocks handed out are untouched |
| `Umalloc.SbrkGives` | user/umalloc.c:46-55 | the byte count reaches sbrk as an int, so sbrk gives what is asked if and only if that is below 2 GB, and at most one unit otherwise |
| `Umalloc.Allocator.MoreCore` | user/umalloc.c:46-61 | 0 exactly if sbrk fails; otherwise the list gets a block of all units wanted, and the memory obtained changes by what sbrk does with the int it gets: it may grow by less, stay or shrink; the process dies exactly if the new header is in no page of its own |
| `Umalloc.Allocator.AddBlock` | user/umalloc.c:57-60 | a new block above all others goes on the list; what fits after it, when nothing did before, ends where it ends |
| `Umalloc.Allocator.AllocateNew` | user/umalloc.c:74-88 | after morecore the loop finds a block at the top |
| `Umalloc.Allocator.Take` | user/umalloc.c:75-85 | a block of exactly the units asked for, disjoint from all handed out before |
| `Umalloc.Allocator.Start` | user/umalloc.c:70-73 | the first call makes the empty ring |
| `Umalloc.Allocator.Scan` | user/umalloc.c:74-87 | goes round the ring at most once and finds a block exactly if one fits |
| `Umalloc.Allocator.Malloc` | user/umalloc.c:63-90 | for every 32-bit size: calls sbrk exactly if nothing fits, and at most once; 0 exactly if sbrk then fails; otherwise a fresh block of the fewest units that hold the bytes beside the header. The blocks stay disjoint and fill the memory obtained if and only if sbrk is not called, or fails, or the block is below 2 GB; if not, the new block reaches beyond the memory obtained |
| `Umalloc.BlocksOverlap` | user/umalloc.c:46-90 | the failing family: from an empty heap, a request of more than 2^32 - 16 bytes, and then any below 2 GB; the second block lies within the first |
| `ProcSafety.StepKeepsInv` | kernel/proc.c:256-608 | every step of kfork, kexit, reparent, kwait, sleep, wakeup and kkill keeps the invariant |
| `ProcSafety.RunKeepsInv` | kernel/proc.c:256-608 | so every state of every interleaving has it |
| `ProcSafety.NoLostWakeup` | kernel/proc.c:539-584 | whenever wait_lock is free, no process asleep in kwait, or on its way there with wait_lock dropped, has a zombie child |
| `ProcSafety.SelfChanIsWaiting` | kernel/proc.c:367-412 | only kwait sleeps on a process's own channel |
| `ProcSafety.SleeperHasChild` | kernel/proc.c:403-411 | a process asleep in kwait has a child |
| `ProcSafety.ParentsAreAlive` | kernel/proc.c:307-363 | every parent is alive: children are handed to initproc before their parent becomes a zombie |
| `ProcSafety.ReapedOnce` | kernel/proc.c:367-412 | no pid is returned by kwait twice |
| `ProcSafety.StatusDelivered` | kernel/proc.c:324-412 | in every run, each status that kwait returns is the one that the process with that pid has called kexit with |
| `ProcSafety.ExitsOnce` | kernel/proc.c:324-362 | no pid calls kexit twice |
| `ProcSafety.ReapedByParent` | kernel/proc.c:378-398 | what kwait reaps is a zombie that has left its stack, and the reaper is its current parent |
| `ProcSafety.MarkedWhileUnused` | kernel/proc.c:590-608 | in every run, an unused table entry is marked killed if and only if a kkill(0) has hit it since it was last freed |
| `ProcSafety.KilledAtBirth` | kernel/proc.c:258-303 | in every run, a child is born killed if and only if its entry was so hit before kfork took it |
| `ProcSafety.BornKilled` | kernel/proc.c:590-608 | a concrete run: after kkill(0), the next child is killed although nobody named its pid |
| `ProcSafety.KilledAsleep` | kernel/proc.c:404-410 | in every run, a process that sleeps in kwait, or is about to, is marked killed if and only if a kkill hit it between the test of killed and the taking of its lock in sleep |
| `ProcSafety.KilledSleeps` | kernel/proc.c:404-410 | a concrete run: the process then sleeps although it is killed |
| `Pipe.FullTest` | kernel/pipe.c:88-88 | the comparison of wrapping counters says exactly that the pipe is full, or empty |
| `Pipe.PipeBuffer.constructor` | kernel/pipe.c:22-56 | an empty pipe, open at both ends |
| `Pipe.PipeBuffer.Put` | kernel/pipe.c:92-97 | one byte goes in at the end |
| `Pipe.PipeBuffer.Write` | kernel/pipe.c:76-103 | a stretch of the source is appended; sleeps exactly on a full pipe with the reader there; fails exactly with the reader gone or the writer killed; from a state where all sleepers have a reason, they still have afterwards if and only if it was not found killed after putting 1 to PIPESIZE bytes into an empty pipe on which readers sleep |
| `Pipe.PipeBuffer.Take` | kernel/pipe.c:121-125 | the oldest byte comes out |
| `Pipe.PipeBuffer.CopyOut` | kernel/pipe.c:118-126 | the next bytes in order, as many as are asked for, fit and are there |
| `Pipe.PipeBuffer.Read` | kernel/pipe.c:105-130 | returns the next bytes in order; sleeps exactly on an empty pipe with a writer; a byte whose copy fails is gone and counted as lost; all bytes received so far are a prefix of those sent while none is lost; sleepers keep their reasons, and get them back exactly if the pipe was found or left empty |
| `Pipe.PipeBuffer.Close` | kernel/pipe.c:58-74 | wakes the other side, and frees the page at the second close and only then; afterwards all sleepers have a reason to sleep |
| `Pipe.PipeBuffer.Kill` | kernel/proc.c:590-608 | a killed sleeper wakes up |
| `Pipe.PipeBuffer.Full` | kernel/pipe.c:88-113 | the code's tests on the counters mean full and empty |
| `Pipe.KilledWriterMissesWakeup` | kernel/pipe.c:83-87 | a concrete case: a writer found killed after writing a byte leaves a reader asleep with a byte to read |
| `VirtioQueue.RingPush` | kernel/virtio_disk.c:271-277 | a ring never has more requests than places, so no entry is overwritten before it is taken, also when indices wrap |
| `VirtioQueue.RingPop` | kernel/virtio_disk.c:312-323 | entries leave the ring in order, each once |
| `VirtioSteps.SubmitKeepsInv` | kernel/virtio_disk.c:226-277 | requests in flight keep disjoint triples of descriptors that are not free, formatted as they should be |
| `VirtioSteps.TakeKeepsInv` | kernel/virtio_disk.c:271-281 | the entry the device takes is a request waiting to be taken |
| `VirtioSteps.ServeKeepsInv` | kernel/virtio_disk.c:238-265 | serving requests in any order keeps it, and the used ring has room |
| `VirtioSteps.NextDone` | kernel/virtio_disk.c:312-319 | what the interrupt handler finds is a request that is done, with status 0 and its own buffer |
| `VirtioSteps.SeeKeepsInv` | kernel/virtio_disk.c:312-324 | it clears that buffer's mark and no other |
| `VirtioSteps.FinishKeepsInv` | kernel/virtio_disk.c:288-289 | the request's descriptors are free again |
| `VirtioSteps.TriplesDisjoint` | kernel/virtio_disk.c:201-213 | descriptors of different requests are different and in use |
| `VirtioSteps.AllFreeWhenIdle` | kernel/virtio_disk.c:156-197 | all descriptors are free exactly if no request is in flight |
| `VirtioDisk.DiskDriver.constructor` | kernel/virtio_disk.c:63-153 | the driver's own state after initialisation |
| `VirtioDisk.DiskDriver.AllocDesc` | kernel/virtio_disk.c:156-166 | the lowest free descriptor, -1 exactly if none is free |
| `VirtioDisk.DiskDriver.FreeDesc` | kernel/virtio_disk.c:169-182 | one descriptor is free and blank; sleepers are woken |
| `VirtioDisk.DiskDriver.GiveBack` | kernel/virtio_disk.c:207-208 | the descriptors taken are free again, with no trace |
| `VirtioDisk.DiskDriver.Alloc3` | kernel/virtio_disk.c:201-213 | three distinct free descriptors, or none at all; fails exactly if fewer are free |
| `VirtioDisk.DiskDriver.Publish` | kernel/virtio_disk.c:238-277 | the request as the device will read it |
| `VirtioDisk.DiskDriver.Submit` | kernel/virtio_disk.c:215-286 | the request is on the ring and its buffer marked, or nothing has changed and the process sleeps while fewer than three descriptors are free |
| `VirtioDisk.DiskDriver.DeviceTake` | kernel/virtio_disk.c:271-281 | takes the next request exactly if there is one |
| `VirtioDisk.DiskDriver.DeviceServe` | kernel/virtio_disk.c:238-265 | the device follows the chain, moves one block between buffer and disk, and reports it |
| `VirtioDisk.DiskDriver.SeeOne` | kernel/virtio_disk.c:312-324 | one completion: its buffer's mark goes and its requester wakes |
| `VirtioDisk.HandledMore` | kernel/virtio_disk.c:312-324 | each completion turns off one more mark and wakes its sleeper |
| `VirtioDisk.DiskDriver.Interrupt` | kernel/virtio_disk.c:294-327 | afterwards nothing that is done is unseen; exactly the buffers of the requests that were done have lost their marks and woken their sleepers; its panic is unreachable |
| `VirtioDisk.DiskDriver.FreeChain` | kernel/virtio_disk.c:185-197 | exactly the three descriptors of the chain are free |
| `VirtioDisk.DiskDriver.Finish` | kernel/virtio_disk.c:283-289 | returns exactly when the device is done; then buffer and disk block are equal, and a write has put there what the buffer held when submitted |
| `Regex.MatchHere` | user/grep.c:85-96 | true exactly if a prefix of the text is in the pattern's language (all of it, before a final $) |
| `Regex.MatchStar` | user/grep.c:99-106 | the same for a starred character and what follows |
| `Regex.Match` | user/grep.c:72-82 | true exactly if some part of the text, respecting the anchors, is in the language of the pattern |
| `Regex.HereOne` | user/grep.c:92-94 | one character of the pattern against one of the text |
| `Regex.HereStar` | user/grep.c:99-106 | a star takes any number of characters |
| `Grep.NextNewline` | user/grep.c:22-22 | the next newline, unless a NUL comes first |
| `Grep.PrintLine` | user/grep.c:23-27 | the line is printed exactly if it matches |
| `Grep.PrintNext` | user/grep.c:22-28 | one complete line is taken off the input |
| `Grep.PrintLines` | user/grep.c:21-28 | all complete lines in the buffer |
| `Grep.Shift` | user/grep.c:29-33 | what is left moves to the front |
| `Grep.Grep` | user/grep.c:11-35 | for every way reads cut up the input, NULs and over-long lines included, the output is the same function of the input |
| `Grep.PrintsMatchingLines` | user/grep.c:11-35 | on terminated lines that fit the buffer, that is exactly the matching lines in order |
| `ShellGrammar.AcceptsGrammar` | user/sh.c:350-452 | the parse functions accept exactly the sentences of the grammar and return their derivation |
| `ShellGrammar.Unambiguous` | user/sh.c:350-452 | no sentence has two derivations |
| `ShellGrammar.LineSound` | user/sh.c:350-365 | what is parsed is a derivation of the tokens consumed |
| `ShellGrammar.LineComplete` | user/sh.c:350-365 | every derivation is found, whatever may follow it |
| `ShellLex.LexTokens` | user/sh.c:271-314 | tokens come in order and do not overlap, and words are whole: no white space or symbol in them, and one right after |
| `ShellLex.LexCovers` | user/sh.c:271-314 | every character that is not white space is in a token |
| `Shell.Parser.constructor` | user/sh.c:333-339 | the cursor at the start of a terminated string |
| `Shell.Parser.SkipWhite` | user/sh.c:276-278 | white space is no part of any token |
| `Shell.Parser.Scan` | user/sh.c:281-306 | passes exactly the token that starts here |
| `Shell.Parser.GetToken` | user/sh.c:271-314 | the first of the remaining tokens with its slice, or 0 at the end |
| `Shell.Parser.Peek` | user/sh.c:316-326 | whether the next token starts with one of the characters; nothing is consumed |
| `Shell.Parser.ParseRedirs` | user/sh.c:380-403 | redirections wrap the command, the first innermost, or a file is missing |
| `Shell.Parser.ParseSimple` | user/sh.c:432-451 | arguments and redirections in any order, fewer than MAXARGS arguments |
| `Shell.Parser.ParseBlock` | user/sh.c:405-419 | a line in parentheses and its redirections |
| `Shell.Parser.ParseExec` | user/sh.c:421-452 | a block or a simple command, as the grammar says |
| `Shell.Parser.ParsePipe` | user/sh.c:367-378 | a pipeline, grouped to the right |
| `Shell.Parser.ParseBacks` | user/sh.c:356-359 | one background command for each & |
| `Shell.Parser.ParseLine` | user/sh.c:350-365 | a line; terminates on every input |
| `Shell.Parser.NulTerminate` | user/sh.c:455-499 | a terminator at the end of each word of the tree, and nowhere else |
| `Shell.Parser.ParseCmd` | user/sh.c:333-348 | a tree exactly for the sentences of the grammar; its redirections, words and operators are those of the text, in order; each word of it then reads back as the slice of the input it was |
| `Shell.WordReadsBack` | user/sh.c:455-499 | no terminator lands inside another word |
| `ShellText.TreeSaysText` | user/sh.c:350-452 | the redirections of the tree are exactly those of the text, in order, each of the word after its operator: < for reading as descriptor 0, > for writing as 1, created and truncated, >> created only; and the words and operators of the tree, from left to right, are those of the text |
| `ShellText.LineSays` | user/sh.c:350-365 | likewise for every line of the grammar, within parentheses too |
| `ShellText.ItemsSay` | user/sh.c:383-402 | likewise for the arguments and redirections of one command, in any order |

## Left out

Simplifications of what is modelled:

- Torn block writes and disk errors: a block write is atomic and succeeds. The log header is modelled by its first
  n entries.
- Log.LogManager.ChangeBuffer: a changed buffer is logged before its operation ends; a copy from user memory that
  fails half way through a block, after which writei logs nothing for it, is taken as having copied nothing here and
  in `Fs`; what it does to the cache is `BioUse.WriteTurn`.
- Log.LogManager.CopyHome: writes to the disk and the cache's contents directly; the same copy through buffers, with
  those of the log area and the pins, is `BioCommit.InstallOne`.
- BioCommit.Commit: a bread that would wait for a lock ends the call, and other processes take no steps on the way.
- Bio.BufferCache.LogWrite: log_write outside an operation, and a device other than the log's, are preconditions.
- Fs.FileSystem.Readi: the destination is a number of bytes that can be copied; the source of writei likewise.
- Fs.FileSystem.constructor: bitmap, inodes and data blocks are separate fields; which block holds an inode is modelled,
  the bytes it has there are not. That every block below a file's size is mapped is assumed of the first image; mkfs may
  leave the root directory's size rounded up.
- Fs.FileSystem.Itrunc: the inode table (iget, ilock) is left out; reference counts are in `Links`.
- Links.FileTree.Iput: the in-memory inode is taken as valid, and contents are directory entries only; the blocks are
  in `Volume.MountedDisk.Iput`.
- Links.FileTree.CreateName: the count of the parent directory is not limited to 16 bits. It is at most one more than
  the entries, of which a directory file has room for 17152.
- Links.FileTree.Ireclaim: inodes and names only; the blocks are in `Volume.MountedDisk.Ireclaim`.
- Volume.MountedDisk.Iput: contents are the entries of `Links` and the bytes of `Fs` side by side; that the entries
  are encoded in the bytes is not modelled.
- Links.FileTree.Unlink: path lookup is a parameter, one device is assumed, and names are compared as they are cut
  to DIRSIZ bytes.
- VirtualMemory.Memory.MapPage: one page for each call, as all callers for user memory do; the kernel's own page
  table is left out. Entries are modelled by their decoded fields, addresses by page numbers.
- VirtualMemory.Memory.UvmUnmap: the variant that frees pages; the one that does not is
  `VirtualMemory.Memory.UnmapPage`.
- VirtualMemory.Memory.VmFault: the page table passed is the process's own.
- VirtualMemory.Memory.CopyOut: sz is at most TRAPFRAME, and likewise in `CopyIn` and `UvmFree`.
- VirtualMemory.Memory.CopyTrapframe: the bytes of a trapframe are not modelled.
- ProcMemory.ProcTable.FreeProc: the size is at most TRAPFRAME, and likewise in `KExec`, `GrowProc`, `CopyOut` and
  `CopyIn` of the table. For a size beyond it `Fork` and `Fault` say what happens, the other steps do not.
- VirtualMemory.Memory.ProcPagetable: does not ask whose page the trapframe is; that is `ProcMemory`.
- Exec.Proc.KExec: what the file holds is a parameter, what happens after ustack is overrun is not modelled, and the
  process's name is left out.
- ProcMemory.ProcTable.Fork: registers, open files and the parent link are left out; the table of states and parents
  is `ProcMachine`.
- ProcMemory.ProcTable.KernelAlloc: what the kernel does with such a page is not said here; the kernel's own page table
  and stacks are not modelled.
- Exec.Proc.LoadSeg: its loop counter is unbounded; its size parameter has 32 bits as in the code.
- Umalloc.Allocator.Malloc: addresses count 16-byte units, to which the break is aligned; the break is never below where
  this allocator has left it, and memory below it is not lazy. Sizes in headers are unbounded, but a machine has fewer
  than 2^32 units.
- Umalloc.Allocator.Free: a block that reaches beyond the memory obtained is not freed in the model.
- ProcSafety.NoLostWakeup: pids do not wrap, kfork's failure paths are left out, and a section under a process's
  lock is one step.
- Pipe.PipeBuffer.Close: an end is closed once and while no process uses it, as the reference counts of
  kernel/file.c see to.
- VirtioDisk.DiskDriver.Submit: memory fences are left out, and two requests for one block are not in flight at once,
  as the buffer cache sees to.
- VirtioDisk.DiskDriver.constructor: the device registers are left out.
- Shell.Parser.ParseSimple: the command that is filled in through its own pointer while redirections already
  surround it is a value here; `Shell.WithArgs` replaces its arguments.

Not modelled, as it would only add easy members or hardware detail: traps and system-call dispatch, the console,
the UART and interrupt controller, boot code, spinlock implementation, printf and the string library, namex and
path splitting, file descriptor tables, the scheduler's choice of process, runcmd and the other user programs,
copyinstr.

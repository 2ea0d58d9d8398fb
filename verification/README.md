# Verified models of a demand-paging xv6

This project models the hard parts of an xv6 kernel for x86 that was extended with demand paging,
an eviction list and a disk swap, and two of its user programs, in Dafny, and proves properties of
the models. `dafny verify dfyconfig.toml` checks everything. One module follows one component:

- `RedoLog`, `Log`, `GroupCommit`, `LogRefinement`: the redo log of log.c: its disk states as functions, the code as a class, the group-commit protocol under interleaving and crashes as a step machine, and that the class is the machine.
- `Inodes`, `FileContent`, `Space`, `Truncate`, `DiskLayout`, `FileSystem`: block allocator, inode block tree, file content and disk format of fs.c, with filewrite of file.c.
- `Writes`, `CrashSafety`, `FileCommit`: log_write calls as values, the file system on top of the log, first one operation per commit, then any number under group commit.
- `Names`, `Directory`: names, paths and directories of fs.c and string.c, on top of `FileSystem`.
- `Bcache`: the buffer cache of bio.c over the memory disk of memide.c.
- `FreeList`, `Umalloc`: the user-level allocator of umalloc.c, after section 8.7 of The C Programming Language, second edition.
- `EvictRing`, `Swap`: the eviction ring and the swap space of lru_swap.c.
- `PageTable`: two-level page tables of vm.c and the frame list of kalloc.c.
- `ProcTable`, `Sched`, `KernelCalls`: the process table loops of proc.c, the sleep, wakeup and scheduling protocol with sleeplock.c as client, and what its calls have done when they return.
- `Pipe`: pipe.c.
- `Regex`: the matcher of grep.c.
- `ShellGrammar`, `Shell`: the command parser of sh.c.
- `Common`, `Blocks`, `Ring`: shared: options, disk blocks, index-linked rings.

State the source updates in place is a class whose methods keep an invariant and are tied to
functions or relations on the old state; concurrency is a step machine whose invariant is proved
for all runs. Disk, sbrk, the process's liveness and the like enter as parameters.

Where the code does not do what one would expect, the model follows the code and the exact
condition is proved:

- log_write tests the fill level before it looks for an absorbed block, and mkfs makes the log one
  block smaller than LOGSIZE needs: a write within an operation's allowance can panic exactly if
  sb.nlog <= LOGSIZE (`GroupCommit.PanicIffSmallLog`), and beyond that size even a rewrite of a
  logged block can panic, but only once the operation has logged MAXOPBLOCKS blocks
  (`GroupCommit.RewriteCanPanic`). It tests without the lock, which is safe exactly if
  sb.nlog > LOGSIZE (`GroupCommit.Safety`, `GroupCommit.StaleGuard`).
- itrunc of a file spread over many bitmap blocks does not fit in a transaction
  (`CrashSafety.TruncTransaction`).
- dirlookup panics over a last entry that is not whole only for a name it has not found before
  (`Directory.Dirlookup`).
- malloc's unit count wraps exactly for nbytes + 7 >= 2^32 (`Umalloc.UnitsSuffice`).
- lru_free removes all frames of a process exactly if another process has one
  (`EvictRing.FreesAllIffOthers`); freeing the only frame leaves the head on it.
- The three swap regions overlap from slot 35 on, and a page is lost then (`Swap.CollideIff`,
  `Swap.ThirtySixPages`).
- swap_free of a list with exactly one entry leaves the list pointer on the freed slot.
- mappages with size 0 on a page boundary maps the whole address space (`PageTable.EmptyRange`).
- A killed writer returns from a full pipe without waking readers (`Pipe.StepKeepsIff`,
  `Pipe.KilledWriterStrandsReader`); without kills no reader is stranded (`Pipe.NoKillsNoStranded`).
- dirlink keeps only 16 bits of the inode number.
- The shell treats > and >> alike.

## Model

| member | source | states |
|---|---|---|
| `RedoLog.HeaderRoundTrip` | log.c:85-113 | what write_head puts in the header block, read_head reads back: same count, same block list, for every list of up to LOGSIZE blocks |
| `RedoLog.RecoveredIsClean` | log.c:115-122 | after recovery the on-disk log is empty |
| `RedoLog.RedoIgnoresTargets` | log.c:69-82 | replaying a log gives the same disk whatever the logged home blocks contained before, so a replay may be repeated over a half-done one |
| `RedoLog.RecoveryRestartable` | log.c:69-82 | a crash after any number of recovery's own writes leaves a disk whose recovery gives the same result |
| `RedoLog.CommitFinal` | log.c:177-202 | a commit that runs to its end leaves the home blocks as the transaction wanted them and an empty log |
| `RedoLog.CrashAtomicity` | log.c:69-202 | crash after any of the 2n+2 disk writes of a commit, then after any writes of any number of recoveries: the home blocks after recovery are all of the old ones before the header write and all of the new ones after it |
| `Log.Log.constructor` | log.c:53-66 | initlog leaves the recovered disk and an empty transaction |
| `Log.Log.WriteHead` | log.c:101-113 | the header block on disk becomes the encoding of the in-memory list, one disk write |
| `Log.Log.ReadHead` | log.c:85-96 | the in-memory list becomes the one encoded in the header block |
| `Log.Log.InstallTrans` | log.c:69-82 | goes through the prescribed sequence of disk states, one home block at a time, and unpins every buffer |
| `Log.Log.RecoverFromLog` | log.c:115-122 | the disk becomes the replayed one, and every disk state on the way recovers to that same disk |
| `Log.Log.WriteLog` | log.c:177-190 | goes through the prescribed sequence of disk states, one log slot at a time, leaving homes and pins alone |
| `Log.Log.CommitBlocks` | log.c:192-202 | the body of commit: log slots, header, homes, header, in this order and no other writes |
| `Log.Log.Commit` | log.c:192-202 | the homes become the cached view, nothing stays pinned, and every disk state recorded in between recovers to all of the old or all of the new image |
| `Log.Log.LogWrite` | log.c:213-233 | panics exactly when the log is full or no operation is outstanding; otherwise the block is listed once (absorption) and the cached view changes in that block only |
| `Log.Log.FindSlot` | log.c:224-227 | finds the slot of a block already in the transaction, or the first unused one |
| `Log.Log.TryBeginOp` | log.c:125-141 | one test of begin_op: admitted exactly when no commit runs and every admitted operation could still log MAXOPBLOCKS blocks |
| `Log.Log.EndOp` | log.c:145-174 | the last operation to end commits the whole group, the others commit nothing; all-or-nothing for every disk state on the way |
| `Log.CommitAllOrNothing` | log.c:192-202 | a recorded history that follows a commit's writes recovers to the old image up to write n and to the new one from there on |
| `Log.RecoveryAllTheSame` | log.c:115-122 | a recorded history of a recovery recovers to one and the same disk |
| `GroupCommit.AdmissionReserves` | log.c:132-136 | begin_op's test reserves room for everything the admitted operations may still log |
| `GroupCommit.LastEndCommits` | log.c:151-168 | the end of the last outstanding operation, and of no other, starts the commit, of exactly what the group's log_writes in order make of the disk |
| `GroupCommit.EndedAreCommitted` | log.c:145-174 | in every reachable state with no operation outstanding and no commit running, every operation that ended since the last crash is in a committed group |
| `GroupCommit.AlwaysSettled` | log.c:145-174 | in every such state the in-memory log is empty and no buffer is pinned |
| `GroupCommit.CommitReturns` | log.c:165-173 | a commit that has started can always go on to its end, by commit writes alone, and then all operations that had ended are committed |
| `GroupCommit.Safety` | log.c:125-233 | every run of any number of operations, commit writes, crashes and recoveries keeps the protocol invariant; in every reachable state a crash recovers to the initial disk with exactly the committed groups applied; no enabled step touches a missing block or buffer; if sb.nlog > LOGSIZE this holds even if the guard of log_write is stale or missing |
| `GroupCommit.CrashIsBoot` | log.c:53-66 | a crash can come in every reachable state, and is a power-on with the disk as it is |
| `GroupCommit.OperationsAreAtomic` | log.c:125-174 | all updates of an operation are in the one group it was committed with, and none is left over or in another group |
| `GroupCommit.Durability` | log.c:145-202 | a group once committed stays committed in every continuation, through crashes and recoveries |
| `GroupCommit.LogSpace` | log.c:132-136 | in every interleaving lh.n plus what outstanding operations may still log is at most LOGSIZE, and every used slot is in the log region |
| `GroupCommit.LargeLogNeverPanics` | log.c:218-219 | if sb.nlog > LOGSIZE, then in every state of every run no log_write, of a new block or of one logged before, panics for an operation that has logged fewer than MAXOPBLOCKS blocks |
| `GroupCommit.PanicIff` | log.c:218-219 | for every log size and every k up to MAXOPBLOCKS: some run makes log_write panic for an operation that has logged k blocks if and only if the log holds at least k and at most k + 20 blocks |
| `GroupCommit.PanicIffSmallLog` | log.c:218-219 | some run panics for an operation that has logged fewer than MAXOPBLOCKS blocks if and only if sb.nlog <= LOGSIZE, which is what mkfs sets up |
| `GroupCommit.RewriteCanPanic` | log.c:218-227 | if sb.nlog > LOGSIZE, an operation that has logged k blocks can panic on logging one of them again if and only if k is MAXOPBLOCKS |
| `GroupCommit.StaleGuard` | log.c:218-230 | if sb.nlog <= LOGSIZE, a run in which two operations within their allowances pass the unlocked guard for the last slot, so that the log's next entry lies behind the log region; Safety shows that this cannot happen if sb.nlog > LOGSIZE |
| `LogRefinement.Initlog` | log.c:53-66 | initlog is the machine's recovery, from its first to its last step |
| `LogRefinement.BeginOp` | log.c:125-141 | one test of begin_op succeeds exactly where the machine's Begin step is enabled, and is that step |
| `LogRefinement.LogWriteOp` | log.c:213-233 | log_write within the allowance panics exactly by the machine's guard, and otherwise is the machine's LogWrite step |
| `LogRefinement.EndOp` | log.c:145-174 | end_op is the machine's End step and, exactly for the last operation, the whole commit behind it; the disk states it goes through are those of the machine, write by write |
| `DiskLayout.SetBitAt` | fs.c:89-128 | setting or clearing one bit of a bitmap block's bytes changes that bit and no other |
| `DiskLayout.PutDinodeAt` | fs.c:253-269 | the inode iupdate stores in a block's bytes reads back as stored, and the other inodes of the block are unchanged |
| `DiskLayout.InodePlace` | fs.h:29-36 | inode i is the 64-byte record number i from block inodestart on, with the size in bytes 8 to 11 and the addresses behind it, little-endian |
| `DiskLayout.BitPlace` | fs.c:96-100 | the bit of block b is bit b % 8 of byte number b / 8 from block bmapstart on |
| `DiskLayout.BitChanged` | fs.c:89-128 | balloc's and bfree's change of a byte makes the disk represent the bitmap with that bit changed, everything else the same |
| `DiskLayout.InodeChanged` | fs.c:253-269 | iupdate's change makes the disk represent the changed inode, everything else the same |
| `CrashSafety.ReadBack` | fs.c:320-345 | decoding inodes, index blocks and data blocks from the bytes of the disk gives exactly the files of the state the disk represents |
| `CrashSafety.CrashLeaves` | log.c:69-202 | after a crash anywhere in the commit and any crashes during recovery the disk represents all of the old bitmap, inodes and data blocks or all of the new ones |
| `CrashSafety.TransactionIsAtomic` | log.c:125-202 | if an operation is committed alone, from any disk that shows what it found, then a reboot after any crash reads all files as before it or all files as after it, for every order in which its blocks were logged |
| `CrashSafety.CanCommit` | log.c:213-233 | an operation alone can be committed if and only if the blocks it logged fit in the log |
| `CrashSafety.WriteTransaction` | fs.c:514-544 | a write as one transaction: after any crash every file is as before, or this one is spliced and the others as before; it fails and panics exactly as writei; it can be committed exactly if it fits, and up to 1536 bytes stay within MAXOPBLOCKS blocks at every log_write |
| `CrashSafety.TruncTransaction` | fs.c:440-468 | a truncation as one transaction: after any crash all files as before, or this one empty and the others as before; it logs one block more than the file has bitmap blocks, so in a log of n blocks it passes the guard if and only if the file is spread over fewer than n bitmap blocks, and it stays within MAXOPBLOCKS on every disk of up to nine bitmap blocks |
| `CrashSafety.LinkTransaction` | fs.c:584-611 | a new directory entry as one transaction: after any crash all files as before, or the directory's map has the name in addition and all other files are as before; always within MAXOPBLOCKS blocks |
| `CrashSafety.FilewriteCrash` | file.c:135-152 | a crash in the commit of any chunk of a filewrite leaves the file with the bytes of exactly the chunks before it, or of one chunk more, and all other files as before the write |
| `FileCommit.FilesSurvive` | log.c:125-233 | file system operations run in transactions of which any number are outstanding and which commit in groups, with crashes and recoveries anywhere: in every reachable state a crash leaves exactly the files that the operations of the committed groups, in the order they ran, have made of the files at boot, on a disk that can be mounted again |
| `FileCommit.NothingLost` | log.c:145-202 | with no operation outstanding and no commit running, a crash leaves the files as they are now, with every operation since the last crash, in the order they ran |
| `FileCommit.CommittedStay` | log.c:125-233 | the operations that survive a crash now are a prefix of those that survive one at any later point of the run |
| `FileCommit.OperationsComplete` | log.c:213-221 | if sb.nlog > LOGSIZE, an operation of the file system within its allowance, in any state of any run, can log all its blocks, and the guard passes at each of its log_writes |
| `FileCommit.WriteInGroup` | file.c:140-145 | writei of up to 1536 bytes between begin_op and end_op, on a log of more than LOGSIZE blocks and whatever else is outstanding: if it succeeds, its log_writes are an event of the run, and the file system stays in the run's current state |
| `FileCommit.EventKeeps` | log.c:125-233 | each operation, commit write, crash and recovery write keeps what ties cache, disk and committed groups to the state of the file system |
| `FileSystem.FileSys.constructor` | fs.c:204-219 | the file system on any disk that represents a consistent state, such as recovery leaves, satisfies the invariant |
| `FileSystem.EmptyDisk` | fs.c:204-219 | a disk without files, with every block before the data blocks in use, is consistent |
| `FileSystem.FileSys.BeginOp` | log.c:125-141 | a transaction starts with the present disk as what a crash must restore |
| `Space.LacksNext` | fs.c:531-537 | each pass of writei's loop adds to the slots the range lacks exactly what bmap has to allocate in it |
| `Space.LacksSum` | file.c:135-152 | the blocks that consecutive writes lack add up to those of the whole range |
| `Space.LacksByCount` | fs.c:405-433 | for a file without holes the number of blocks a write needs is that of the file blocks it adds, and one for the indirect block if it is the first to go behind the direct ones |
| `FileSystem.FileSys.Balloc` | fs.c:89-111 | the lowest free block becomes used and zeroed, or every block is used; logs its bitmap block and the block |
| `FileSystem.FileSys.Bfree` | fs.c:114-128 | clears the bit, and fails exactly on a free block |
| `FileSystem.FileSys.Iupdate` | fs.c:253-269 | the disk inode becomes the in-memory one, others stay |
| `FileSystem.FileSys.BmapIndirect` | fs.c:419-430 | the entry of the indirect block exists afterwards, nothing else reachable moves, and the number of freshly logged bitmap and index blocks is bounded |
| `FileSystem.FileSys.Bmap` | fs.c:405-433 | returns the block of file block bn, allocating only where there was none; all other pointers, blocks and inodes keep their meaning; fails exactly beyond MAXFILE or if more blocks are missing than are free |
| `FileSystem.FileSys.Readi` | fs.c:485-509 | returns exactly the slice of the file clamped to its size, fails exactly for an offset beyond the size or a wrapping one, and never allocates or logs |
| `FileSystem.FileSys.Writei` | fs.c:514-544 | the file becomes the old bytes with the new ones spliced in at off, all other files are unchanged, the disk inode agrees with memory, the log_writes made give exactly the changed disk, and up to 1536 bytes log at most 10 blocks, with at most 9 logged at every log_write; fails exactly beyond the size or beyond MAXFILE blocks, and panics exactly if the range lacks more blocks, index block included, than are free |
| `FileSystem.FileSys.Itrunc` | fs.c:440-468 | the file is empty, every other file unchanged, exactly the blocks the inode owned become free, freeing a free block never happens, and exactly the bitmap blocks of the freed blocks and the inode's block are logged |
| `FileSystem.FileSys.Filewrite` | file.c:117-156 | the write is a chain of operations of at most 1536 bytes, each from where the last ended and within the allowance of 10 blocks, that adds up to one splice of the whole, or of the whole chunks that fit in the largest file; it panics exactly if those bytes lack more blocks than are free |
| `FileSystem.FileSys.WriteChunkAt` | file.c:135-151 | one transaction of filewrite takes the file from the splice of the chunks before it to that of one chunk more |
| `FileSystem.ChunkLogs` | file.c:126-152 | a chunk of at most 1536 bytes into a file without holes logs at most 9 distinct blocks before its inode block, for any superblock |
| `FileSystem.LogBoundStep` | fs.c:531-537 | each block of a write adds its data block, at most one index block and the bitmap blocks of what it allocated to the log |
| `FileSystem.FinishWrite` | fs.c:539-542 | the finished write, with the size set, is the splice of the old content, keeps ownership and leaves no hole |
| `Inodes.NoSharing` | fs.c:405-433 | a block is reachable along one path only, in one inode or two, and is marked used |
| `Inodes.DirectExtends` | fs.c:411-418 | installing a fresh block in an empty direct slot keeps all other pointers and the ownership of every block |
| `Inodes.IndirectExtends` | fs.c:419-430 | the same for an entry of the indirect block |
| `FileContent.WriteChunk` | fs.c:531-537 | one iteration of writei's loop, across the direct/indirect boundary, extends the written prefix by its bytes and disturbs no other byte |
| `FileContent.WriteDone` | fs.c:531-542 | after the loop the content is the splice and every block below the size is mapped |
| `FileContent.OtherFilesKept` | fs.c:514-544 | the write leaves every other inode's content and mapping alone |
| `Truncate.NextIsUsed` | fs.c:446-463 | the next block itrunc frees is still marked used, so bfree does not panic |
| `Truncate.EmptiedFreesOwn` | fs.c:440-468 | after truncation a block is used exactly if it was and the inode did not own it |
| `Truncate.FreedBitsAll` | fs.c:447-463 | the bitmap blocks of the slots gone through are in the end those of the inode's own blocks |
| `Truncate.OwnBitsBound` | fs.c:440-468 | on a disk of at most n bitmap blocks a file's blocks show in at most n of them |
| `Names.Strncmp` | string.c:58-66 | zero exactly if both names agree up to the first NUL or n bytes |
| `Names.Strncpy` | string.c:68-79 | the name padded with NULs to n bytes |
| `Names.UptoUnique` | string.c:58-79 | the name of a buffer is the only NUL-free prefix that is n long or ends at a NUL |
| `Names.PaddedName` | string.c:68-79 | a name written by strncpy compares equal to itself when read back |
| `Names.ComponentsSlash` | fs.c:613-651 | the components of two paths joined by a slash are those of the first, then those of the second |
| `Names.SingleComponent` | fs.c:613-651 | a non-empty path without slash is its only component |
| `Names.Skipelem` | fs.c:628-651 | null exactly if the path has no component; otherwise the buffer names the first component cut to DIRSIZ and the returned path, shorter and without leading slash, has exactly the others |
| `Directory.Dirlookup` | fs.c:557-581 | finds the name exactly if the directory's map has it, with the inode number mapped to and the offset of its entry; otherwise panics exactly if the last entry is not whole; changes nothing |
| `Directory.FindUnused` | fs.c:597-603 | the first unused entry, or the end of the directory |
| `Directory.Dirlink` | fs.c:584-611 | fails, with nothing changed, if and only if the name is in the map; otherwise it panics exactly for a last entry that is not whole, a directory without room or a place that lacks more blocks than are free, or the map gains the name with the 16-bit inode number, all other names and files are unchanged, and names stay unique |
| `Directory.MapToAbsent` | fs.c:566-578 | a name is not in the map exactly if no used entry has it |
| `Directory.DecodeEncoded` | fs.c:605-606 | a directory entry decodes to the name and the inode number modulo 65536 it was made from |
| `Directory.LinkedMap` | fs.c:597-607 | setting an unused or new entry to a fresh name adds that name and nothing else to the map |
| `Directory.Namex` | fs.c:657-690 | the result is what following the components through the directories' maps gives, from the root or the current directory, or for the parent variant the directory of the last component; it panics exactly if a name is missing from a directory whose last entry is not whole |
| `Directory.ParentThenLookup` | fs.c:657-703 | nameiparent followed by a lookup of the last name is namei |
| `Bcache.BufferCache.constructor` | bio.c:38-56 | binit makes one ring of all NBUF buffers |
| `Bcache.BufferCache.FindCached` | bio.c:68-76 | finds the buffer of a block if there is one |
| `Bcache.BufferCache.FindVictim` | bio.c:78-91 | finds, among the unreferenced clean buffers, the one released longest ago |
| `Bcache.BufferCache.Bget` | bio.c:59-93 | a hit gains one reference and a miss recycles the unreferenced clean buffer released longest ago; a referenced or dirty buffer keeps its block and contents; fails exactly if there is neither |
| `Bcache.BufferCache.Bread` | bio.c:96-106 | the reader gets a pinned block's cached contents and otherwise the disk's, whatever was cached or evicted; fails, with nothing changed, exactly if the block has no buffer and none is eligible |
| `Bcache.BufferCache.Bwrite` | bio.c:109-116 | the holder's contents are on the disk and the buffer is clean; panics exactly without the lock or outside the disk |
| `Bcache.BufferCache.Iderw` | memide.c:38-60 | writes a dirty buffer or fills an invalid one, panicking in exactly the four listed cases |
| `Bcache.BufferCache.Lock` | sleeplock.c:29-31 | the buffer belongs to the process; the invariant is kept |
| `Bcache.BufferCache.Modify` | log.c:185-185 | the holder may change the contents at will |
| `Bcache.BufferCache.Pin` | log.c:231-231 | log_write's dirty mark keeps the buffer from being recycled |
| `Bcache.BufferCache.Unlock` | bio.c:126-126 | releasing keeps coherence if the holder wrote or pinned what it changed |
| `Bcache.BufferCache.Deref` | bio.c:128-140 | one reference less; on the last one the buffer becomes the most recently released |
| `Bcache.MoveToFront` | bio.c:132-139 | unlinking a buffer and linking it behind the head keeps one ring of all buffers in release order |
| `Bcache.EveryBufferListed` | bio.c:38-56 | every buffer is in the ring |
| `Ring.UnlinkKeepsRing` | bio.c:132-133 | unlinking an element of a ring leaves the ring of the others |
| `Ring.LinkKeepsRing` | bio.c:134-137 | linking a new element behind another makes it its successor in the ring |
| `Umalloc.Allocator.constructor` | umalloc.c:21-22 | nothing is allocated yet |
| `Umalloc.Allocator.FindPlace` | umalloc.c:29-32 | free's circular loop ends at the block after which the freed one belongs by address, also past either end |
| `Umalloc.Allocator.Free` | umalloc.c:24-44 | the block is no longer live, and the free list stays one circular, address-ordered list of disjoint, never adjacent blocks; free plus live units still equal the units obtained from sbrk |
| `Umalloc.Allocator.Morecore` | umalloc.c:46-61 | grows the arena by max(nu, 4096) units that are all free, or nothing changes |
| `Umalloc.Allocator.SearchLap` | umalloc.c:74-86 | one lap: the first block behind freep that is large enough, or none is |
| `Umalloc.Allocator.Malloc` | umalloc.c:63-90 | a block disjoint from all live ones: the last units of the first block behind freep that is large enough; sbrk is called only if no free block was large enough, and after it one more lap finds one; null only if sbrk failed |
| `Umalloc.Allocator.Take` | umalloc.c:75-84 | an exact fit is unlinked, a larger block gives up its tail |
| `Umalloc.UnitsSuffice` | umalloc.c:69-69 | the units asked for hold nbytes if and only if nbytes + 7 < 2^32 |
| `Umalloc.PlaceExists` | umalloc.c:30-32 | every live block has a place in the list, so free's loop terminates |
| `FreeList.FreeCorrect` | umalloc.c:33-43 | inserting with coalescing on both sides keeps the heap invariant: order, disjointness, no adjacent free blocks, conservation |
| `FreeList.TakeWholeKeeps` | umalloc.c:76-77 | unlinking an exact fit keeps the heap invariant |
| `FreeList.TakeTailKeeps` | umalloc.c:78-82 | splitting off the tail keeps the heap invariant |
| `FreeList.GrantKeeps` | umalloc.c:57-59 | memory from sbrk enters as a live block of its own, keeping the invariant |
| `EvictRing.FrameList.constructor` | lru_swap.c:21-33 | all frames free, no ring |
| `EvictRing.FrameList.GetFreeFrame` | lru_swap.c:35-45 | the lowest free frame, or none is free |
| `EvictRing.FrameList.Insert` | lru_swap.c:47-84 | fails exactly when all frames are used; otherwise the page becomes the newest of the ring and the ring's members stay exactly the used frames |
| `EvictRing.FrameList.Delete` | lru_swap.c:128-153 | the oldest frame leaves the ring; an only frame stays its head with cleared links |
| `EvictRing.FrameList.ReleaseFrame` | lru_swap.c:172-176 | its bit is cleared and the members are the used frames again |
| `EvictRing.FrameList.FreeFrame` | lru_swap.c:86-126 | the oldest record of the page, and no other, is removed; nothing happens if there is none; an only frame loses its bit but stays the head |
| `EvictRing.FrameList.Free` | lru_swap.c:178-214 | terminates in one lap and leaves exactly the other processes' frames in order, except that it never removes the last frame of the ring |
| `EvictRing.FreesAllIffOthers` | lru_swap.c:178-214 | lru_free removes all frames of the process if and only if another process has a frame |
| `EvictRing.FrameList.GetLru` | lru_swap.c:637-667 | evicts only when all frames are used, exactly once and then the oldest; the new page is the newest; panics exactly if the swap-out fails |
| `EvictRing.FullIff` | lru_swap.c:35-45 | all frames are used exactly if the ring has 1000 members |
| `EvictRing.UnlinkKeeps` | lru_swap.c:119-120 | unlinking a frame of a larger ring leaves the ring of the others |
| `EvictRing.LinkKeeps` | lru_swap.c:75-80 | linking before the head appends to the ring |
| `Swap.SwapSpace.constructor` | lru_swap.c:27-30 | all slots free, all lists empty, nothing stored |
| `Swap.SwapSpace.GetFreeFrame` | lru_swap.c:231-242 | the lowest free slot, or none is free |
| `Swap.SwapSpace.WriteSwap` | fs.c:60-72 | exactly the eight blocks of the page are written; fails exactly beyond the disk |
| `Swap.SwapSpace.ReadSwap` | fs.c:41-58 | the eight blocks at the address; fails exactly beyond the disk |
| `Swap.SwapSpace.SwapOut` | lru_swap.c:248-375 | the page is appended to its process's list and stored; any other stored page changes exactly if it lies on the same disk blocks; with at most 35 live slots none does; the blocks of the file system are as they were, also on failure; lists stay acyclic, disjoint and exactly covered by the bitmap |
| `Swap.SwapSpace.SwapCheck` | lru_swap.c:525-559 | the region of the page's entry, or -1 exactly if the page is not stored |
| `Swap.SwapSpace.Find` | lru_swap.c:390-407 | the page's entry and its predecessor, or none |
| `Swap.SwapSpace.SwapIn` | lru_swap.c:381-520 | removes exactly the page's entry, frees its slot and returns the page at it; all other stored pages are unchanged; panics exactly for a page beyond the disk |
| `Swap.SwapSpace.PageFault` | demandpage.c:32-38 | a stored page comes back with exactly the contents stored for it and leaves the store with one live slot less; others are not found; slots below 35 stay below 35 |
| `Swap.SwapSpace.SwapFree` | lru_swap.c:564-600 | all slots of the process are free and its pages gone, slots below 35 stay below 35; with exactly one entry the list pointer stays on the freed slot |
| `Swap.AppendKeeps` | lru_swap.c:279-283 | appending a free slot keeps all lists chained, disjoint and covered |
| `Swap.RemoveKeeps` | lru_swap.c:409-423 | removing an entry anywhere keeps all lists chained, disjoint and covered |
| `Swap.AppendedContents` | lru_swap.c:279-285 | writing a page changes a stored page if and only if both occupy the same disk blocks |
| `Swap.BehindFileSystem` | param.h:13-17 | the swap space begins right behind the file system's FSSIZE blocks, and no page of any region reaches into them |
| `Swap.CollideIff` | param.h:13-18 | pages of two regions share a block if and only if they are the same page of the disk, at slot distances 250, 285 and 35 |
| `Swap.FewSlotsClear` | lru_swap.c:231-242 | while fewer than 35 slots are live, the lowest free slot collides with no stored page in any region |
| `Swap.RegionsMeet` | param.h:13-18 | 35 is the exact bound: stack slot 35 is heap slot 0, and below 35 no two regions meet |
| `Swap.ThirtySixPages` | lru_swap.c:231-375 | from an empty store, 35 heap pages and then one stack page: the first page comes back with the contents of the last |
| `PageTable.Vm.constructor` | kalloc.c:32-54 | the free list has every frame from the first behind the kernel, each once |
| `PageTable.Vm.Kfree` | kalloc.c:60-77 | the frame is at the front of the free list |
| `PageTable.Vm.Kalloc` | kalloc.c:103-119 | takes the front frame, or none exactly if the list is empty |
| `PageTable.Vm.WalkPgdir` | vm.c:35-55 | finds or builds the table of a page without changing the flat map; fails exactly if there is none and none may or can be allocated; the table frame comes from the free list |
| `PageTable.Vm.Mappages` | vm.c:60-78 | the flat map changes at exactly the pages of the range, counted round the 32-bit address space, each to the next frame; on failure at exactly a prefix of them, with no frame free; no other page of memory changes and no frame is lost |
| `PageTable.PlainRange` | vm.c:66-76 | for a range that does not wrap, the pages mapped are exactly those it touches |
| `PageTable.EmptyRange` | vm.c:66-76 | a range of no bytes maps one page, or, on a page boundary, the whole address space |
| `PageTable.SetEntry` | vm.c:71-71 | writing one table entry changes the flat map at exactly that page |
| `PageTable.NewTable` | vm.c:45-52 | building a missing table leaves the flat map alone |
| `PageTable.StructureSize` | vm.c:35-55 | a page table takes one frame for the directory and one for each table |
| `PageTable.Vm.Setupkvm` | vm.c:116-133 | physical memory is mapped from KERNBASE on, the kernel's text read-only, devices at their own addresses, nothing for the user and nothing else; fails exactly with fewer than 65 free frames, with every frame taken on the way free again; no page that was not free has changed |
| `PageTable.KernelLine` | vm.c:103-113 | each page has the entry of its own line of the kmap table |
| `PageTable.KernelIsMap` | vm.c:103-114 | the lines of the kmap table give exactly that map |
| `PageTable.Vm.Deallocuvm` | vm.c:254-278 | the jump over absent tables frees the same frames in the same order, and changes the same entries, as visiting every page that begins between newsz and oldsz; no page but the tables and the freed frames has changed |
| `PageTable.FreedSkip` | vm.c:265-267 | pages without a table contribute nothing, so they may be skipped |
| `PageTable.UnmapKeeps` | vm.c:268-275 | freeing a mapped page clears that page only, and its frame, not free before, is free once |
| `PageTable.Vm.Freevm` | vm.c:282-297 | every frame mapped below KERNBASE, every table and the directory are on the duplicate-free free list, in this order, with what was free before, and nothing else; no other page has changed |
| `ProcTable.Table.Wakeup1` | proc.c:482-490 | exactly the sleepers on the channel are runnable |
| `ProcTable.Table.Abandon` | proc.c:278-285 | all children of the process belong to init, which is awake if one of them is a zombie |
| `ProcTable.Table.Kill` | proc.c:503-521 | the first process with the pid is marked and, if asleep, made runnable; -1 exactly if there is none |
| `ProcTable.Table.WaitScan` | proc.c:303-326 | reaps the first zombie child, or there is none and havekids tells whether there are children |
| `ProcTable.Table.NextRunnable` | proc.c:360-362 | the next runnable process, or there is none from here on |
| `Sched.StepKeeps` | proc.c:250-499 | every step of every process and CPU keeps the scheduling invariant |
| `Sched.Safety` | proc.c:250-499 | the invariant holds in every state of every run, for any number of processes, CPUs and sleep locks |
| `Sched.RunningIffOnCpu` | proc.c:347-417 | whenever ptable.lock is free, a process is RUNNING exactly if a CPU has it as c->proc, and no two CPUs have the same |
| `Sched.NoLostWakeup` | sleeplock.c:22-42 | a process asleep on a sleep lock that is free has its wakeup still coming: the process that freed the lock holds the spin lock and has not called wakeup yet |
| `Sched.NoWaiterWithZombie` | proc.c:295-337 | no process asleep in wait has a zombie child |
| `Sched.RelWakeWakes` | proc.c:482-499 | after the wakeup nobody sleeps on the lock or is on the way to |
| `Sched.AbandonWaits` | proc.c:275-288 | handing children to init never leaves init asleep with a zombie child |
| `Sched.AloneInTable` | proc.c:396-405 | only one process at a time is between taking and handing over ptable.lock |
| `KernelCalls.SleepLocksExclude` | sleeplock.c:22-42 | in every run in which only a process inside releases, at most one process at a time has returned from acquiresleep(l) and not called releasesleep(l), and lk->locked is set while one has |
| `KernelCalls.LockedOnlyByOne` | sleeplock.c:22-42 | lk->locked is set only while a process is inside or about to clear it in releasesleep |
| `KernelCalls.CallsDoTheirWork` | proc.c:195-525 | when wait returns it has reaped a zombie child or found no child or itself killed, when kill returns its target is marked and awake, when fork returns it has made a runnable child of its own or left nothing half-made; exit does not return |
| `KernelCalls.SpinLocksMove` | proc.c:442-478 | in every reachable state the CPU that has ptable.lock can take a step, the holder of a sleep lock's spin lock is running, and it or the CPU that has ptable.lock can take a step, and any other running process can take one unless it waits for a taken spin lock |
| `KernelCalls.RunnableCanRun` | proc.c:348-381 | whenever ptable.lock is free, a CPU without a process can have any runnable process running three steps later |
| `KernelCalls.ChansStep` | proc.c:442-478 | every step keeps that p->chan is set, to what p waits for, exactly while p is in sleep() |
| `KernelCalls.DeadStep` | proc.c:250-291 | every step keeps that a process which is past exit's sched() is a zombie until it is reaped |
| `KernelCalls.EmbryosStep` | proc.c:76-247 | every step keeps that a process is an EMBRYO only while the one that forks it is at it |
| `Pipe.CountersTell` | pipe.c:85-114 | the wrapping counters tell full from empty and their wrapped difference is the number of bytes in between, past 2^32 as well |
| `Pipe.Buffer.constructor` | pipe.c:31-37 | an empty pipe |
| `Pipe.Buffer.Put` | pipe.c:84-94 | appends bytes in order until done or full |
| `Pipe.Buffer.Get` | pipe.c:113-117 | takes bytes in order until enough or empty |
| `Pipe.FifoStep` | pipe.c:78-121 | every critical section only appends to the bytes written and to the bytes read |
| `Pipe.WriterSends` | pipe.c:78-97 | from its call on, in every interleaving, pipewrite has sent exactly the bytes before the one it is at, however often it slept; when it returns, all of its buffer, or a prefix if it was killed or the read end is closed |
| `Pipe.OnlyWriter` | pipe.c:78-97 | while one process writes, what was written since its call is exactly that |
| `Pipe.AllSent` | pipe.c:78-97 | the bytes written are exactly what the writers sent |
| `Pipe.SentInOrder` | pipe.c:78-97 | each writer's bytes are among the bytes written in their order |
| `Pipe.AllTaken` | pipe.c:100-121 | the bytes read are exactly what the readers took |
| `Pipe.ReaderGets` | pipe.c:100-121 | whatever happens between its call and its return, however often it sleeps, piperead(n) takes bytes once: the next min(n, available) of the pipe, and none only if n is 0, the write end is closed or the process is killed |
| `Pipe.KilledNeverSleeps` | pipe.c:84-112 | in every run a killed process is not asleep in the pipe |
| `Pipe.ReadDelivers` | pipe.c:100-121 | piperead sleeps exactly at an empty pipe that may still be written, unless killed; otherwise it returns with exactly the next min(n, available) bytes |
| `Pipe.PutIsWrite` | pipe.c:84-94 | what the loop of pipewrite does to the buffer is what a Write step of the machine does |
| `Pipe.GetIsRead` | pipe.c:113-117 | what the loop of piperead does is what a Read step that does not sleep does |
| `Pipe.ReadsArePrefix` | pipe.c:78-121 | in every interleaving, kills included, the bytes read are a prefix of the bytes written, at most 512 behind |
| `Pipe.ReadsOnlyGrow` | pipe.c:100-121 | bytes once read are never taken back |
| `Pipe.StepKeepsIff` | pipe.c:85-92 | a step keeps the reasons for sleeping if and only if it is not that of a killed writer filling the pipe past a sleeping reader |
| `Pipe.SleepersHaveReason` | pipe.c:78-121 | as long as no killed writer strands a reader, a process asleep on nread implies an empty pipe and one on nwrite a full pipe, the other end open |
| `Pipe.NoKillsNoStranded` | pipe.c:78-121 | in every run without a kill, a process asleep on nread implies an empty pipe and one on nwrite a full pipe, the other end open |
| `Pipe.NeverStuck` | pipe.c:78-121 | without kills a process awake in a call can take its step, and a reader and a writer are never both asleep |
| `Pipe.KilledWriterStrandsReader` | pipe.c:85-89 | a run with one kill in which the writer returns without a wakeup and a reader sleeps on at a full pipe |
| `Regex.Match` | grep.c:72-82 | true exactly if the pattern, tied to the start by ^ or free, can be read off the text under the declarative meaning, for all patterns and texts |
| `Regex.MatchHere` | grep.c:84-96 | true exactly if the text starts with a reading of the pattern's items, or is one if they end with $ |
| `Regex.MatchStar` | grep.c:98-106 | true exactly if some number of repetitions is followed by a match of the rest |
| `Regex.HereStar` | grep.c:98-106 | a starred item reads some repetitions, then the rest |
| `Regex.HereOne` | grep.c:93-94 | a single item reads one fitting character, then the rest |
| `Regex.HereEnd` | grep.c:91-92 | $ at the end reads the empty text only |
| `ShellGrammar.ParsesIff` | sh.c:344-446 | the reference parser finds a tree for a whole token sequence if and only if the grammar has it |
| `ShellGrammar.Unambiguous` | sh.c:344-446 | a token sequence has at most one tree |
| `ShellGrammar.LineSound` | sh.c:344-359 | what parseline accepts is a line of the grammar, and the rest is untouched |
| `ShellGrammar.LineComplete` | sh.c:344-359 | every line of the grammar followed by ) or the end is accepted with its tree |
| `ShellGrammar.CommandComplete` | sh.c:399-446 | the same for commands and blocks |
| `ShellGrammar.LineWords` | sh.c:374-446 | every string of a tree is one of the word tokens of the line |
| `ShellGrammar.TokensWhole` | sh.c:295-300 | a word token covers a whole word: word characters only, and none behind it |
| `ShellGrammar.MostWords` | sh.c:427-441 | a command of words only is accepted if and only if it has at most nine, and then with all of them |
| `ShellGrammar.WrapInOrder` | sh.c:379-395 | redirections wrap the command in the order they are read, the last one outermost |
| `Shell.Parser.Gettoken` | sh.c:265-308 | returns the next token by the declarative definition and consumes exactly it |
| `Shell.Parser.Peek` | sh.c:310-320 | whether the next token starts with one of the symbols; consumes blanks only |
| `Shell.Parser.Parseredirs` | sh.c:374-397 | finds what the reference parser finds |
| `Shell.Parser.ParseArgs` | sh.c:431-444 | finds what the reference parser finds, at most nine words |
| `Shell.Parser.Parseexec` | sh.c:415-446 | finds what the reference parser finds |
| `Shell.Parser.Parseblock` | sh.c:399-413 | finds what the reference parser finds |
| `Shell.Parser.Parsepipe` | sh.c:361-372 | finds what the reference parser finds |
| `Shell.Parser.Parseline` | sh.c:344-359 | finds what the reference parser finds; the mutual recursion terminates because every cycle consumes a token |
| `Shell.Parser.Nulterminate` | sh.c:449-493 | a NUL is written behind exactly the strings of the tree |
| `Shell.Parser.Parsecmd` | sh.c:327-342 | returns the tree if and only if the tokens of the whole line have one, and then every argv and redirection string is the C string of its own token text |
| `Shell.WordsSurvive` | sh.c:449-493 | no terminator lands inside a word, because it is written on a character that ends one |

## Left out

- Shared swap lists (swap_fork and a count above 1): the source marks this path as wrong, and a shared list has no clean meaning; the model has count 1 throughout.
- Hardware and boot code, traps, system call dispatch, console, exec, printf, mkfs and the small user programs: no content beyond device effects or glue.
- ELF loading in demandpage.c: only the dispatch to the swap space is modelled.
- Link counts, inode allocation, inode reference counts and device inodes: easy members, and exact conservation of link counts does not hold.
- Type, device numbers and link count in the disk inode, and the superblock's own bytes: constant in the model.
- Frame conservation across swap-out: the code clears the present bit without returning the frame.
- copyuvm, allocuvm and copyout: easy clients of the page-table operations modelled.
- Liveness of scheduling: the scheduler gives no fairness guarantee; what is proved is safety.
- Log.Log.LogWrite: the test of the log's fill level and the update are one step, although the source makes the test before it takes log.lock.
- GroupCommit.Safety: an operation logs only blocks outside the log region; if sb.nlog <= LOGSIZE the guard of log_write and its update are one step, and StaleGuard shows why.
- Bcache.BufferCache.Bread: for a block whose buffer nobody holds at that moment; the waiting is the sleep lock's, see Sched.
- Bcache.BufferCache.Bget: a process does not ask for a block it already uses, which would deadlock on the buffer's sleep lock.
- CrashSafety.WriteTransaction: the transaction is alone in its commit; FileCommit has it among others.
- FileCommit.FilesSurvive: the log_writes of one file system operation are not interleaved with those of another; their transactions and commits are.
- FileSystem.FileSys.BeginOp: the admission test and the waiting are GroupCommit's.
- FileSystem.FileSys.Itrunc: the panic of a log_write that finds the log full is not a result of its own; TruncTransaction says when it comes.
- FileSystem.FileSys.Writei: an out-of-blocks panic is reported as such; the state it leaves is not described.
- Umalloc.Allocator.Malloc: addresses are unbounded, so a request of 2 GiB or more, which would make sbrk's argument negative, is taken as granted or refused like any other.
- Umalloc.Allocator.Morecore: sbrk's answer is a parameter at or above the current break.
- EvictRing.FrameList.GetLru: the list is used by one caller at a time; the source releases its lock between eviction and retry.
- EvictRing.FrameList.Free: once the only frame of the ring is freed the head pointer stays on it; what later calls do from there is not modelled.
- Swap.SwapSpace.SwapOut: a page already stored for the process is not swapped out again; the address-space update after the write and the lock swap.lk, which the source keeps held when no slot is free, are not modelled.
- Swap.SwapSpace.PageFault: without the call of get_lru, see EvictRing.
- Swap.SwapSpace.SwapFree: the branch for a forked process is left out; what happens after a single-entry list was freed is not modelled, since the list pointer is stale.
- PageTable.Vm.Deallocuvm: for sizes up to KERNBASE, which is all its callers pass; user frames are assumed unshared.
- PageTable.Vm.Kfree: a frame that is free already, which the source does not notice, is excluded.
- PageTable.Vm.Kalloc: without the call of get_lru, see EvictRing.
- Directory.Dirlookup: the panic for an inode that is not a directory is left to the caller, which passes the types to Namex.
- Pipe.SleepersHaveReason: a pipe end is closed only when no call on it is under way, as file reference counts ensure.
- KernelCalls.SleepLocksExclude: for runs in which releasesleep is called by a process that is inside, as every caller in the kernel does; releasesleep itself does not check it.
- KernelCalls.RunnableCanRun: that the scheduler's loop does get to a runnable process depends on fairness among CPUs and spin locks, which is not modelled.
- Sched.Safety: kalloc and copyuvm in fork are reduced to succeeding or failing; a new process starts in forkret.
- Shell.Parser.Parseexec: the source fills the execcmd while redircmds already point to it; the model puts the tree together at the end, so this aliasing is not captured.
- Shell.Parser.Parsecmd: running the command is not modelled.

# Verified models of the kernel and its user programs

Dafny models of an xv6 kernel for x86 with a multi-level queue scheduler, and of three of
its user-level programs, with proofs of what they are meant to guarantee. Every operation
that works in place is a method with the loops of the original, proved against a
specification; the theorems about whole runs are lemmas about that specification.

| files | what they model |
|---|---|
| `BlockStore`, `Recovery`, `Log`, `LogRuns`, `LogSpace`, `LogSafety`, `LogBuffers` | the write-ahead log: commit and recovery as sequences of single-block writes, runs of interleaved operations with crashes, the space the log needs, the size of the log area that makes it safe, and the buffers a commit needs |
| `BufferRing`, `BufferCache` | the buffer cache: the LRU ring of buffers and its refinement of a plain block store |
| `FsLayout`, `Bitmap`, `DiskInode`, `FsSteps`, `FileSystem`, `FileWrite` | bitmap, inodes and files, down to the bytes on disk: block ownership, files as byte sequences, and writes cut into transactions that fit the log |
| `FileOps`, `FileOpsSteps`, `FileOpsInv`, `FileRuns`, `DiskFormat` | file writes of many processes at once, block by block, on top of the log: crash consistency of the files, and where on the disk their bytes are |
| `PageFrames`, `PageBudget`, `PageSteps`, `Paging`, `AddressSpace`, `ForkMemory` | the page allocator, two-level page tables and address spaces on all out-of-memory paths, with the exact number of frames each operation takes |
| `ReadyQueue`, `Scheduler`, `SchedulerSteps`, `SchedulerRuns`, `SchedulerEffects`, `ProcTable` | the three scheduling queues, the process table's critical sections as steps, what each does to whom, choice and aging |
| `PipeRing`, `PipeRuns`, `PipeCalls` | pipes: the ring buffer with 32-bit counters, runs of readers, writers and closers with both locks, and what a whole call moves |
| `FreeList`, `Umalloc` | the storage allocator of section 8.7 of The C Programming Language, 2nd edition |
| `ShellGrammar`, `ShellDerivation`, `ShellLexer`, `ShellParser` | the shell's parser, and its grammar as a relation |
| `Grep` | the pattern matcher of chapter 9 of The Practice of Programming |
| `Basics` | notions that several parts share |

How the models are built:

- The disk is a sequence of blocks, and one block write is atomic. `Store` adds the pinned
  (logged, uncommitted) data of the buffer cache. A crash loses the pinned data and may
  come between any two writes, also during recovery.
- A critical section of `log.lock`, `ptable.lock` or a pipe's lock is one step of a state
  machine. `sleep` on a pipe is split into its three steps, since the order in which it
  takes and releases locks is what rules out lost wakeups. `log_write` makes its two tests
  of the log's size before it takes the lock; each test is a step of its own, so that what
  was tested may be out of date when the entry is appended.
- File writes hold the lock of their inode, and each step of a write changes and logs one
  block; the steps of different writes interleave, and share the bitmap.
- Memory of the storage allocator counts in header units; a 32-bit word of a page is kept
  as page number, lowest bit and remaining flag bits.
- `panic` is a result (`ok == false`, an error value) or is shown not to happen. `sbrk` is a
  parameter.
- Where a promise does not hold for all inputs, a lemma states exactly when it does:
  `LogSpace.LogSizeExact`, `LogSpace.PanicExactlyWhenFull` with `LogSpace.RelogPanics`,
  `LogSafety.LogSafeExact` with `LogSafety.StaleTestsOverflow`, `LogBuffers.NextBlockExact`,
  `LogBuffers.PanicByLogSize` and `LogBuffers.CachedLogSafeExact`, `BufferCache.CanBringExact`,
  `SchedulerSteps.SleepExact`, `SchedulerSteps.ExitExact` and `SchedulerSteps.ChangeExact`
  with `SchedulerRuns.LossRun`, `SchedulerSteps.DefaultPanicsExact`,
  `ReadyQueue.Queue.ShiftOut` with `SchedulerRuns.FullRun`, `SchedulerRuns.RRCoversExact` with `SchedulerRuns.RRIdles`,
  `SchedulerRuns.AgingExact`, `PipeRuns.LostWakeupExact` with `PipeRuns.LostWakeupRun`,
  `Umalloc.PayloadExact`, `Umalloc.SbrkExact`, `ShellLexer.TypeableExact`.

`dafny verify dfyconfig.toml` checks the project.

## Model

| member | source | states |
|---|---|---|
| Recovery.EncodeRoundTrip | code/log.c:86-113 | The header block that write_head composes has the number of entries and then their block numbers as its first words, keeps the others, and is read back by read_head as the same list. |
| Recovery.InstalledAt | code/log.c:70-82 | After the first k entries are installed, each block holds the log block of its last entry among them, and any other block is unchanged. |
| Recovery.RecoverAt | code/log.c:116-122 | Recovery gives every home block its logical content: the log block of its entry if it has one, else what it held. |
| Recovery.RecoverApplies | code/log.c:116-122 | The first k disk writes of recovery, applied in order, give exactly the intermediate state the crash lemmas speak of. |
| Recovery.CrashInRecovery | code/log.c:70-122 | A crash after any number of recovery's writes leaves a disk with a valid header from which recovery gives the same home blocks. |
| Recovery.CommitApplies | code/log.c:178-202 | The first k disk writes of a commit, applied in order, give exactly the intermediate state the crash lemmas speak of. |
| Recovery.HeaderCommits | code/log.c:98-113 | Once the header is written, recovery gives every home block its pinned content: the header write is the commit point. |
| Recovery.CrashInCommit | code/log.c:178-202 | Up to the header write the disk recovers to all old home blocks, from then on to all new ones. |
| Recovery.CrashesDoNotMatter | code/log.c:116-122 | Recovery interrupted any number of times after any numbers of writes still ends with the logical content of the disk it started from. |
| Recovery.CrashAtomicity | code/log.c:70-202 | A commit cut off after k writes, followed by any number of interrupted recoveries, leaves all home blocks old if the header write had not happened and all new if it had, with an empty log. |
| Recovery.CompleteCommit | code/log.c:193-202 | A commit that runs to the end has itself installed all new home blocks and emptied the log. |
| Log.PinKeepsListed | code/log.c:221-231 | log_write with absorption keeps the entries distinct home blocks, and exactly the pinned ones. |
| Log.Log.constructor | code/log.c:54-66 | initlog issues recovery's writes on whatever valid disk it finds and starts with an empty log and nothing pinned. |
| Log.Log.ReadHead | code/log.c:86-96 | The in-memory entries become those of the header block on disk. |
| Log.Log.WriteHead | code/log.c:102-113 | Exactly one write, of the header block that encodes the in-memory entries; the rest of the header block keeps its words. |
| Log.Log.WriteLog | code/log.c:178-190 | Exactly the writes that copy each entry's cached data to its log block, in order. |
| Log.Log.InstallTrans | code/log.c:70-82 | Exactly the writes that copy the log blocks to their homes, in order; the installed buffers are no longer pinned. |
| Log.Log.RecoverFromLog | code/log.c:116-122 | Issues exactly recovery's writes and leaves the disk of the specification with nothing pinned. |
| Log.Log.Commit | code/log.c:193-202 | Issues exactly the commit's write sequence and leaves its final disk, no entries and nothing pinned. |
| Log.Log.BeginOp | code/log.c:126-141 | An operation is admitted exactly when no commit runs and the log has room for all reservations and one more. |
| Log.Log.EndOp | code/log.c:146-174 | The last outstanding operation commits everything; others change only the count; the panic is exactly an overlap with a commit. |
| Log.Log.LogWrite | code/log.c:214-233 | Panics exactly on a full log or outside an operation; otherwise the block is pinned with its data and its entry is appended or absorbed. |
| LogRuns.QuietPrefixIsWhole | code/log.c:146-174 | A prefix of a history after which no operation is open contains whole operations only. |
| LogRuns.CommitOrder | code/log.c:178-202 | The writes of a commit one by one: the data of entry i to block i behind the header, then the header with the number and the block numbers of the entries, then the data of each entry to its home, and last the header with none. |
| LogRuns.CommitWriteAt | code/log.c:178-202 | Each write of a commit goes to the log area or puts the pinned content of one entry into its home. |
| LogRuns.NoOpDuringCommit | code/log.c:146-174 | With any operation open no commit is running, so the panic in end_op cannot happen, nor the one in log_write outside an operation, and log_write never meets a commit. |
| LogRuns.StepKeepsHistory | code/log.c:126-233 | Every step of every run, whatever the size of the log area and however stale the tests of log_write, keeps the history well formed: what is open is counted, and what is durable consists of whole operations. |
| LogRuns.CrashNow | code/log.c:116-202 | At any moment a crash with any number of interrupted recoveries gives the home blocks of the history up to the commit point. |
| LogRuns.StepKeepsInv | code/log.c:116-233 | Every step of every process that appends within the array of entries, each disk write of a commit that fits the log area, and every crash keep the log's global invariant. |
| LogRuns.RunKeepsDurable | code/log.c:146-202 | What was durable at one moment of any run, on any log area, is durable, in the same order, at every later moment, crashes included. |
| LogSpace.StepKeepsSpace | code/log.c:126-233 | Every step of a run whose operations stay within MAXOPBLOCKS keeps entries in use plus unspent reservations within LOGSIZE, without help from the tests of log_write. |
| LogSpace.EntriesFit | code/log.c:126-233 | In every such run the array of entries holds at most LOGSIZE entries, although the tests of log_write may be stale. |
| LogSpace.NewEntryFits | code/log.c:126-230 | In every such run a new entry always fits the array, and passes the tests of log_write if the log area has more than LOGSIZE blocks. |
| LogSpace.LogSizeExact | code/log.c:214-230 | A log area of more than LOGSIZE blocks is exactly what it takes: with fewer, some bounded run meets the panic on a new entry. |
| LogSpace.RelogPanics | code/log.c:218-226 | The guard stands before absorption: there is a bounded run after which logging an already logged block panics, however large the log area is. |
| LogSpace.PanicExactlyWhenFull | code/log.c:218-219 | In a bounded run on a large enough log area log_write panics exactly when the log holds LOGSIZE entries, and then every reservation is used up. |
| LogSafety.RunKeepsInv | code/log.c:116-233 | The log's global invariant holds at every moment of every run whose operations stay within MAXOPBLOCKS, if the log area has room for its commits. |
| LogSafety.GroupCommit | code/log.c:116-233 | At every moment of every such run a crash and any number of interrupted recoveries give the state of a prefix of the history that consists of whole operations and contains everything that was ever durable. |
| LogSafety.NothingBlocks | code/log.c:146-202 | A crash is possible at every moment of every such run, and the log's own state never keeps a started commit from going on; whether the buffer cache does is the subject of `LogBuffers`. |
| LogSafety.ReadsSeeLastLogged | code/log.c:204-233 | At every moment of every such run a block reads as the data last logged for it. |
| LogSafety.StaleTestsOverflow | code/log.c:178-233 | On a log area of 2 to LOGSIZE blocks there is a run, with operations within MAXOPBLOCKS, in which two operations pass the tests of log_write while there is room for one; the commit then overwrites the home block behind the area before its header, and no prefix of the history is recovered. |
| LogSafety.LogSafeExact | code/log.c:178-233 | For commits of fewer than cap entries, every moment of every run with operations within MAXOPBLOCKS is safe against crashes exactly if the log area has at least cap blocks, or a single one, on which log_write always panics. |
| LogBuffers.PinnedCount | code/log.c:70-82 | After any number of a commit's writes, as many blocks are pinned as there are entries not yet installed. |
| LogBuffers.StaleBound | code/log.c:126-233 | In every run at most three operations are open, and entries together with operations that have passed both tests are at most one more than the log area has blocks. |
| LogBuffers.NextBlockExact | code/log.c:178-190 | At every moment of every commit, with no buffer in use, the log block that the next write needs can be brought into the cache exactly when the log has fewer than NBUF entries or one of them has been installed. |
| LogBuffers.FullCommitReached | code/log.c:126-233 | On a log area of at least LOGSIZE - 1 blocks some run whose operations stay within MAXOPBLOCKS starts to commit LOGSIZE entries, by way of stale tests if need be. |
| LogBuffers.PanicByLogSize | code/log.c:126-233 | For every size of the log area some run whose operations stay within MAXOPBLOCKS panics: in log_write on a new entry exactly if the area has at most LOGSIZE blocks, in bget during a commit exactly if it has at least LOGSIZE - 1. |
| LogBuffers.CachedLogSafeExact | code/log.c:178-233 | With the buffer cache, every moment of every run with operations within MAXOPBLOCKS is safe against crashes exactly if the log area has at least LOGSIZE blocks or a single one; the area that mkfs lays out, of LOGSIZE blocks, is the smallest one, and relies on the panic of bget. |
| BufferRing.Unlink | code/bio.c:131-132 | Relinking a buffer's neighbours takes exactly that buffer out of the doubly linked ring. |
| BufferRing.Link | code/bio.c:133-136 | Linking a buffer behind the head puts it in front of the ring. |
| BufferRing.MoveToFront | code/bio.c:129-137 | The six assignments of brelse keep the ring doubly linked and move exactly that buffer to the front. |
| BufferCache.ReplaceBuf | code/bio.c:62-141 | A buffer may change its lock, count or data, if it still agrees with the block store, without harm to the representation. |
| BufferCache.RecycleBuf | code/bio.c:80-91 | Recycling a clean, unreferenced buffer for an uncached block keeps one buffer per block and every pinned block cached. |
| BufferCache.InvalidIsOnDisk | code/bio.c:97-106 | The block of an invalid buffer is not pinned, so reading the disk yields its current data. |
| BufferCache.Cache.constructor | code/bio.c:39-56 | binit links all buffers into one doubly linked ring, and the cache stands for the disk. |
| BufferCache.Cache.Lookup | code/bio.c:68-76 | The walk along next finds the buffer of the block exactly if there is one. |
| BufferCache.Cache.Victim | code/bio.c:81-91 | The walk along prev finds the least recently used recyclable buffer exactly if there is one. |
| BufferCache.Cache.Bget | code/bio.c:62-93 | The cached buffer gains a reference, or a clean one is recycled; the panic happens exactly when the block is not cached and no buffer is recyclable. |
| BufferCache.Cache.Iderw | code/memide.c:39-60 | Copies a dirty buffer to the disk or fills an invalid one from it; panics exactly in the four listed cases. |
| BufferCache.Cache.Fill | code/bio.c:97-106 | bread leaves in the buffer the data last written or logged for the block. |
| BufferCache.Cache.Bwrite | code/bio.c:110-116 | The data reaches the disk and the block is no longer pinned; it panics exactly without the lock. |
| BufferCache.Cache.Pin | code/log.c:227-231 | A logged buffer is pinned with its present data; the disk is unchanged. |
| BufferCache.Cache.Brelse | code/bio.c:121-141 | The last release moves the buffer to the front of the ring; all other buffers, the order and the block store stay. |
| BufferCache.FullLogStarvesCache | code/bio.c:80-92 | With NBUF pinned blocks no further block can be brought in. |
| BufferCache.RoomForOneMore | code/bio.c:80-92 | With fewer pinned blocks than buffers and no buffer in use, every block can be brought in. |
| BufferCache.CanBringExact | code/bio.c:62-93 | With no buffer in use, a block that is not pinned can be brought in exactly when fewer than NBUF blocks are pinned. |
| FsLayout.WordOfSet | code/fs.c:391-395 | Writing one word of an indirect block is read back as that word and leaves the other words. |
| Bitmap.BitIs | code/fs.c:65-67 | The bit of block b is the bit of value 2 to the power b % 8 in byte b / 8 of the bitmap. |
| Bitmap.FormatBitmap | code/mkfs.c:238-252 | The loop of mkfs gives the bitmap block whose first bits, byte by byte as numbers, are set. |
| Bitmap.LowestFree | code/mkfs.c:238-252 | On a bitmap as mkfs writes it, the lowest free block is the first that mkfs did not use. |
| Bitmap.SetShows | code/fs.c:65-68 | Setting a bit through its byte and mask sets the bit of that block in the bitmap and no other. |
| Bitmap.ClearShows | code/fs.c:88-92 | Clearing a bit through its byte and mask clears the bit of that block and no other. |
| DiskInode.InodeRoundTrip | code/fs.c:226-234 | An inode, written into its 64 bytes of an inode block, is read back as it was. |
| DiskInode.OtherInodes | code/fs.c:226-234 | Writing one inode of a block leaves the other seven as they are. |
| DiskInode.InodeBytes | code/fs.h:29-36 | Type, major, minor and nlink are the first four little-endian 16-bit numbers of the 64 bytes of an inode, followed by size and the thirteen addresses as 32-bit numbers. |
| FileSystem.FileSystem.Balloc | code/fs.c:57-78 | Finds the lowest free block by the bytes of the bitmap blocks, marks it used there and clears it; it panics exactly when every bit is set. On a bitmap that mkfs has written it returns the first block behind those in use. Like every operation of the file system, it keeps logged every bitmap and inode block whose bytes have changed since the transaction began. |
| FileSystem.FileSystem.Bfree | code/fs.c:82-95 | Clears exactly that bit, in the bytes of the bitmap block; it panics exactly if the block is free. |
| FileSystem.FileSystem.Bmap | code/fs.c:373-400 | The block of a file block is the mapped one, or a new one that was free; ownership of all blocks is kept, no other slot or byte changes, whatever changes on disk is logged, and it fails exactly beyond the maximum or on a full disk. |
| FileSystem.FileSystem.BmapIndirect | code/fs.c:384-397 | The same for the indirect case, which may allocate the indirect block first. |
| FileSystem.FileSystem.MapIn | code/fs.c:389-396 | The entry of the indirect block is the mapped block, or a new one is entered and the indirect block logged. |
| FileSystem.FileSystem.Begin | code/log.c:126-141 | A transaction begins with nothing logged; the bytes of the bitmap and inode blocks at that moment are what later changes are measured against. |
| FileSystem.FileSystem.Readi | code/fs.c:453-476 | For a device, what its driver returns, or -1 exactly without one; for a file, -1 exactly on a bad offset or 32-bit overflow, otherwise exactly the slice of the file; nothing changes. |
| FileSystem.FileSystem.ReadRange | code/fs.c:469-474 | The loop over blocks collects exactly the slice of the file and allocates nothing. |
| FileSystem.FileSystem.Itrunc | code/fs.c:408-435 | Frees exactly the blocks in the inode's slots, leaves it empty, keeps the file system consistent, logs whatever it changes on disk, and never meets "freeing free block". |
| FileSystem.FileSystem.FreeDirect | code/fs.c:414-419 | The first loop frees exactly the direct blocks, each of which is still in use. |
| FileSystem.FileSystem.FreeIndirect | code/fs.c:421-431 | The second part frees exactly the indirect entries and then the indirect block. |
| FileSystem.FileSystem.Writei | code/fs.c:482-511 | For a device, what its driver returns, or -1 exactly without one; for a file, -1 exactly on a bad offset or beyond the maximal size, otherwise the file is the old one with src spliced in, other files are unchanged, and the disk inode is up to date. |
| FileSystem.FileSystem.WriteRange | code/fs.c:495-509 | Every block that differs on disk afterwards is logged, and a write of at most three blocks' length logs at most ten blocks. |
| FileSystem.FileSystem.WriteBlock | code/fs.c:495-503 | One iteration puts the next bytes into one block, mapping it if need be, and accounts for the blocks it logs. |
| FileSystem.FileSystem.Iupdate | code/fs.c:221-236 | The inode on disk, in the bytes of its inode block, becomes the one in memory; the other inodes stay. |
| FsSteps.FreeStep | code/fs.c:408-435 | The next slot to be freed is empty or holds a block whose bit is still set, and freeing it frees exactly that slot's block. |
| FsSteps.TruncKeepsOwned | code/fs.c:408-435 | When all slots are freed and cleared, a bit is set exactly for metadata and for blocks in a slot, and no block is in two slots. |
| FsSteps.BmapKeepsBytes | code/fs.c:373-400 | Mapping a block changes no byte of any file, since new blocks are zero. |
| FsSteps.PutAt | code/fs.c:499-500 | Copying into one data block changes exactly those bytes of that file and no other byte of any file. |
| FsSteps.CountBound | code/fs.c:482-511 | A write of at most three blocks' length touches at most nine blocks before the inode, for every offset and bitmap layout. |
| FileWrite.SpliceTwice | code/file.c:134-152 | Two writes in a row splice like one write of both. |
| FileWrite.File.Write | code/file.c:118-156 | After k transactions exactly the first k times 1536 of the written bytes are spliced in; each transaction logs everything it changes on disk and at most MAXOPBLOCKS blocks; the number of transactions is the least possible, plus one without effect if not all bytes fit; all bytes are written unless the offset is beyond the end or the file would grow beyond its maximum. |
| FileWrite.File.Transaction | code/file.c:139-151 | One transaction writes its chunk entirely or not at all, and fits its reservation in the log. |
| FileWrite.MaxWriteIs | code/file.c:133 | The bound on a transaction, computed from MAXOPBLOCKS, is 1536 bytes. |
| FileOps.LogSetSize | code/file.c:126-151 | Whatever the other writes do, the blocks that a write of at most three blocks' length may log are at most ten. |
| FileOpsSteps.WriterFramed | code/fs.c:482-511 | A step of one write leaves every other write's account of its file, its block in hand and its logged blocks true, although they share the bitmap. |
| FileOpsSteps.AttachKeeps | code/fs.c:373-400 | Putting a new block into the file, or into its indirect block, keeps the bytes of the file, its blocks and the account of what the write logs. |
| FileOpsSteps.WriteSettles | code/fs.c:482-511 | A write that has copied all its bytes and updated the size leaves the file as it was with src spliced in. |
| FileOpsInv.OpStepKeepsInv | code/fs.c:373-511 | Every single-block step of any of the interleaved writes, from marking a free block in the bitmap on, keeps the invariant: no block in two slots or hands, files at rest hold the completed writes, and every write logs only blocks of its own ten. |
| FileOpsInv.QuietIsConsistent | code/fs.c:482-511 | When no operation is open, the file system is consistent, and each file holds the completed writes in the order in which they finished. |
| FileOpsInv.WriterGoesOn | code/fs.c:482-511 | As long as a block is free, a write can always take its next step. |
| FileRuns.WritesAreBounded | code/file.c:126-151 | In every history whose operations are interleaved file writes of at most 1536 bytes each, every operation logs at most MAXOPBLOCKS distinct blocks. |
| FileRuns.WritesFit | code/log.c:126-230 | In every run whose operations are such writes every new block that a write goes on to log fits the array of entries, and passes the tests of log_write if the log area has more than LOGSIZE blocks. |
| FileRuns.WordsAndBytes | code/log.c:86-96 | The words of a block, by which the log reads it, and its bytes, by which files do, are the same content. |
| FileRuns.StepShows | code/fs.c:482-511 | Logging the one block that a step changes, with its new bytes, keeps bitmap, inodes and data blocks on disk equal to what the steps have done. |
| FileRuns.CrashConsistency | code/log.c:116-233 | At every moment of every run whose operations are file writes, a crash and any number of interrupted recoveries leave a disk that decodes to a consistent file system, whose files hold exactly a prefix of the completed writes, each of them whole, and everything that was ever durable. |
| DiskFormat.BitOn | code/fs.h:44-48 | On a disk that decodes to a file system, the bit of block b is bit b % 8, from the lowest, of byte b % 4096 / 8 of block bmapstart + b / 4096. |
| DiskFormat.InodeOn | code/fs.h:29-42 | Inode n is at byte 64 * (n % 8) of block inodestart + n / 8, with its fields in the order of struct dinode. |
| DiskFormat.FileByteOn | code/fs.c:373-400 | Byte i of a file is byte i % 512 of the block that its inode on disk names for i / 512: the first twelve by its addresses, the others by the words of the block that the thirteenth names. |
| PageFrames.AddressParts | code/mmu.h:71-77 | Bits 22 to 31 of a virtual address select the entry of the directory, and bits 12 to 21 that of the page table. |
| PageFrames.UserPagesExclusive | code/vm.c:61-80 | Two user pages of any directories are the same frame only if they are the same page; none is on the free list. |
| PageFrames.PopKeepsInv | code/kalloc.c:83-95 | Taking the first page keeps the list threaded through exactly the free frames, and every frame in exactly one use. |
| PageFrames.PushKeepsInv | code/kalloc.c:60-77 | Freeing a page in hand, junk and link included, keeps the list and the uses of all frames. |
| PageFrames.TableKeepsInv | code/vm.c:46-53 | A zeroed page becomes a page table without any user page being lost or shared. |
| PageFrames.MapKeepsInv | code/vm.c:70-73 | Setting an absent entry to a page in hand gives that frame exactly this use. |
| PageFrames.UnmapKeepsInv | code/vm.c:268-275 | A present entry refers to a frame of its own; freeing it and clearing the entry keeps every frame in exactly one use. |
| PageBudget.ChargeAllIs | code/vm.c:36-80 | Mapping a range takes one frame for each page table that the range lacks, and then all its page tables are there. |
| PageBudget.GrowCost | code/vm.c:222-249 | Growing by a range takes a frame for each page and one for each page table that the range lacks. |
| PageSteps.Rollback | code/vm.c:232-247 | Growth within an empty range followed by unmapping of that range leaves every page of the directory mapped as before. |
| PageSteps.GrowsKeepsOthers | code/vm.c:36-80 | Growth of one directory changes no mapping of another. |
| PageSteps.DetachKeepsInv | code/vm.c:291-297 | A directory without user pages can hand over all its frames at once. |
| Paging.Memory.constructor | code/kalloc.c:32-37 | Before kinit1 no page is free. |
| Paging.Memory.Kalloc | code/kalloc.c:83-95 | Returns 0 exactly when the list is empty, else its first page, which no one else uses. |
| Paging.Memory.Kfree | code/kalloc.c:60-77 | Panics exactly outside the allocator's range; otherwise the page is filled with junk and is first on the list. |
| Paging.Memory.Freerange | code/kalloc.c:47-53 | Frees exactly the whole pages between the two addresses, each once. |
| Paging.Memory.Walkpgdir | code/vm.c:36-55 | Finds or builds the page table of a page, with the permissive directory entry, at the cost of one frame exactly if it was missing; no mapping of any directory changes; it fails exactly when there is none and none may be or can be allocated. |
| Paging.Memory.MapOne | code/vm.c:70-73 | Maps exactly one page; it reports a remap exactly if that page is mapped, and lack of memory only if its page table is missing and no frame is free; on failure the page stays in hand. |
| Paging.Memory.Mappages | code/vm.c:61-80 | Maps exactly the pages from that of va to that of the last byte, consecutively, with the missing page tables added; on failure nothing outside the range changes, and memory runs out only if the missing page tables are more than the free frames. |
| Paging.Memory.Deallocuvm | code/vm.c:256-279 | Unmaps and frees exactly the user pages between the two sizes; its panic cannot happen. |
| Paging.SkipTable | code/vm.c:265-267 | Skipping to the next page table where one is missing does the same as going page by page. |
| AddressSpace.Allocuvm | code/vm.c:222-249 | On success the pages between the sizes are new, zeroed and writable, and all others are mapped as before; otherwise all pages are mapped as before; memory runs out exactly when the free frames are fewer than the new pages and their missing page tables. |
| AddressSpace.Undo | code/vm.c:232-247 | Both error paths return every page taken from the free list except page tables, and no mapping has changed. |
| AddressSpace.Freevm | code/vm.c:284-298 | Frees exactly the frames of the directory, each once: user pages, page tables, and the directory itself. |
| ForkMemory.RangesDisjoint | code/vm.c:105-115 | The kernel's ranges do not overlap, so setting them up never remaps a page. |
| ForkMemory.KernelPteIs | code/vm.c:105-115 | The kernel half, page by page: memory from KERNBASE on one to one, with only the text from KERNLINK to data read-only, and the devices from DEVSPACE on at their own addresses; no page has PTE_U. |
| ForkMemory.KernelSeesMemory | code/vm.c:105-115 | Every address space maps physical page f at KERNBASE plus f, up to the end of memory. |
| ForkMemory.KernelCost | code/vm.c:105-115 | The kernel's ranges need 64 page tables, wherever the kernel's data begins, and none for user pages. |
| ForkMemory.Setupkvm | code/vm.c:119-136 | It succeeds exactly when at least 65 frames are free; then the new directory maps exactly the kernel's ranges, none of them for the user; otherwise every frame is used as before. |
| ForkMemory.Copyuvm | code/vm.c:316-345 | It succeeds exactly when the free frames suffice for the kernel half, the pages and a page table for each 1024 of them; then every page below sz has the parent's flags and content in a new frame; otherwise every frame is used as before; no page from KERNBASE on is for the user. |
| ForkMemory.Isolation | code/vm.c:316-345 | A store through one user page is seen through no other user page of any directory and changes no mapping. |
| ReadyQueue.Queue.ShiftOut | code/proc.c:297-321 | The swaps move the first entry with the pid past the end and keep the order of the others; if there is none they drop the last entry. Every access is within the array exactly if the queue is not full. |
| ReadyQueue.Queue.Cleanup | code/proc.c:323-354 | The queue loses exactly that entry; it panics exactly when empty. |
| Scheduler.RemovedIs | code/proc.c:297-354 | For an active process the search by pid finds its one entry, so removal takes it out and keeps the order of the rest. |
| Scheduler.LeaveKeepsInv | code/proc.c:323-354 | A process that leaves its queue and becomes inactive keeps all three queues exact. |
| Scheduler.JoinKeepsInv | code/proc.c:723-750 | A process that becomes active and is appended to its queue keeps all three queues exact. |
| SchedulerSteps.WakeKeepsInv | code/proc.c:723-750 | Waking any number of sleepers keeps the queue invariant. |
| SchedulerSteps.ExitKeepsInv | code/proc.c:377-400 | exit keeps the queue invariant, although it wakes others between leaving its queue and becoming a zombie. |
| SchedulerSteps.YieldKeepsInv | code/proc.c:619-654 | yield keeps the queue invariant and completes a pending queue change. |
| SchedulerSteps.SleepExact | code/proc.c:679-717 | sleep finds its queue and keeps the queue invariant exactly when no queue change of the process is pending. |
| SchedulerSteps.ExitExact | code/proc.c:356-403 | The same for exit. |
| SchedulerSteps.ChangeExact | code/proc.c:972-1031 | change_queue of an existing process keeps the queue invariant exactly when no change is pending and DEF is not given to a process in use. |
| SchedulerSteps.DefaultPanicsExact | code/proc.c:323-354 | After change_queue of a process in use, and once it has yielded if it was running or woken up if it slept, its next removal from its queue, by sleep, exit or aging, panics exactly if it was given DEF. |
| SchedulerSteps.CleanupLoses | code/proc.c:297-354 | With a change pending, the removal drops another process, which stays runnable or running, from its queue. |
| SchedulerSteps.KillKeepsInv | code/proc.c:763-799 | Killing a process, asleep or not, keeps the queue invariant. |
| SchedulerSteps.ChangeKeepsInv | code/proc.c:972-1031 | change_queue of an existing process without a pending change keeps the queue invariant, whatever state the process is in. |
| SchedulerSteps.AgeOneKeepsInv | code/proc.c:956-967 | Aging one process, with or without a move to RR, keeps the queue invariant. |
| SchedulerRuns.NoPanic | code/proc.c:486-535 | Queue entries are runnable or running, so both "No runnable process" panics are unreachable. |
| SchedulerRuns.RRCoversExact | code/proc.c:488-503 | The round-robin search looks at every position exactly when the 32-bit counter does not wrap around on the way or the length divides 2^32. |
| SchedulerRuns.RRPicksFirst | code/proc.c:486-510 | Under that condition the scheduler picks the first runnable process among the positions rr_counter, rr_counter + 1, ... modulo the length of the queue. |
| SchedulerRuns.RRIdles | code/proc.c:486-510 | Otherwise nothing is picked when only the process at the missed position is runnable. |
| SchedulerRuns.LCFSPicksLatest | code/proc.c:511-535 | With RR empty the scheduler picks the most recently enqueued runnable LCFS process. |
| SchedulerRuns.NothingElsePicked | code/proc.c:536-578 | With RR and LCFS empty nothing is picked: a BJF process runs only after it has been moved. |
| SchedulerRuns.StepKeepsInv | code/proc.c:105-1031 | Every critical section of the process table, a failed fork included, keeps the queue invariant, within the stated guards. |
| SchedulerRuns.QueueInvariant | code/proc.c:229-1031 | At every moment of every run a process is in exactly the queue its state and q_type call for, exactly once, and in no other. |
| SchedulerRuns.LossRun | code/proc.c:679-717 | There is a run after which a process has a queue change pending; if it then sleeps without yielding, a runnable process is in no queue. |
| SchedulerRuns.FullRun | code/proc.c:229-290 | There is a run after which the LCFS queue fills its array while one of its processes is running. |
| SchedulerRuns.AgingBound | code/proc.c:948-970 | An aging pass ages every process independently; after it no runnable process outside RR has waited longer than the bound. |
| SchedulerRuns.WaitingCountsTicks | code/proc.c:948-970 | While a process stays runnable and unmoved, its waiting time counts the timer ticks, or it has reached RR. |
| SchedulerRuns.BoundedWaiting | code/trap.c:51-58 | A process that stays runnable and unmoved for AGING_BOUND + 1 ticks of any run is in the RR queue. |
| SchedulerRuns.AgingExact | code/proc.c:956-967 | AGING_BOUND + 1 aging passes promote a runnable process exactly unless its waiting time is at 2^32 - 1. |
| SchedulerEffects.WakeupIs | code/proc.c:723-750 | Exactly the processes that sleep on the channel become runnable, nothing else of any process changes, and each queue is the old one followed by its woken processes. |
| SchedulerEffects.SleepersAre | code/proc.c:723-750 | The woken processes of a queue are exactly those that slept on the channel with that queue type, in table order. |
| SchedulerEffects.KillIs | code/proc.c:763-799 | Exactly the first process with the pid is marked; if it slept it becomes runnable and is the last of its queue. |
| SchedulerEffects.YieldIs | code/proc.c:619-654 | The process becomes runnable; the round-robin counter advances by one modulo 2^32 exactly for an RR process; a pending queue change puts it at the end of its queue. |
| SchedulerEffects.SleepIs | code/proc.c:679-705 | The channel is recorded, and the process leaves its queue, in which the others keep their order. |
| SchedulerEffects.ChangeIs | code/proc.c:972-1031 | Exactly that process gets the queue type, and is marked if it is running. |
| SchedulerEffects.ChangeMoves | code/proc.c:972-1031 | A process in a queue leaves it, the others in order; a runnable one is then the last of the new queue. |
| SchedulerEffects.ExitIs | code/proc.c:377-400 | The process is a zombie; woken are exactly those that sleep on the channel of its parent or, if it leaves a zombie child, on that of init; exactly its children pass to init. |
| SchedulerEffects.ForkedRunsNext | code/proc.c:229-290 | The new process is the last of the LCFS queue, so it is picked next unless the RR queue has processes. |
| SchedulerEffects.TickQueue | code/proc.c:948-970 | An aging pass appends to the RR queue exactly the runnable processes of other queues that have waited 2000 ticks, in table order. |
| SchedulerEffects.SleepStep | code/proc.c:679-799 | A step wakes a sleeping process exactly if it is a wakeup on its channel, a kill of its pid, or an exit that wakes its channel. |
| SchedulerEffects.SleepsUntilWoken | code/proc.c:679-799 | In every run a process that has gone to sleep stays asleep, on its channel and in no queue, until such a step. |
| SchedulerEffects.WokenRuns | code/proc.c:723-799 | After such a step it is runnable and in its queue. |
| ProcTable.QueueFits | code/proc.c:723-750 | A queue without repetitions has at most NPROC entries, so appending stays within its array. |
| ProcTable.ProcTable.Append | code/proc.c:729-747 | The entry goes behind the last one of the queue that the process names, within the array. |
| ProcTable.ProcTable.CleanupQueue | code/proc.c:323-354 | The swaps on the array of the process's queue take out its entry; it panics exactly on an empty queue or DEF. |
| ProcTable.ProcTable.ForkProc | code/proc.c:229-290 | The new process joins the LCFS queue, within its array, and the queue invariant is kept. |
| ProcTable.ProcTable.Wakeup1 | code/proc.c:723-750 | The loop makes exactly the sleepers on the channel runnable and appends them to their queues in table order, and every index into the three arrays is within bounds, also in the middle of exit. |
| ProcTable.ProcTable.Lookup | code/proc.c:976-982 | The search for a pid ends at its first entry, and behind the table exactly if no entry has it. |
| ProcTable.ProcTable.KillPid | code/proc.c:763-799 | Marks the first process with the pid as killed and wakes it if it sleeps; -1 exactly if there is none. |
| ProcTable.ProcTable.AgingMechanism | code/proc.c:948-970 | The loop over the table, with moves between the arrays, is one aging pass and keeps the queue invariant. |
| ProcTable.ProcTable.ChangeQueueOf | code/proc.c:972-1031 | The statements on the queue arrays do the step of the state machine within their bounds and keep the queue invariant. |
| ProcTable.ProcTable.YieldProc | code/proc.c:619-654 | The same for yield. |
| ProcTable.ProcTable.SleepProc | code/proc.c:679-705 | The same for sleep. |
| ProcTable.ProcTable.ExitProc | code/proc.c:377-400 | The same for exit. |
| ProcTable.ProcTable.SearchRR | code/proc.c:486-510 | The branch of the scheduler finds the process that the specification picks, without a panic. |
| ProcTable.ProcTable.SearchLCFS | code/proc.c:511-535 | The same for the LCFS branch. |
| ProcTable.ProcTable.Schedule | code/proc.c:472-591 | One pass of the scheduler runs exactly the picked process and keeps the queue invariant. |
| PipeRing.PutWindow | code/pipe.c:92 | A byte put into the ring is appended to its window, wherever the counters wrap around. |
| PipeRing.TakeWindow | code/pipe.c:114-116 | A byte taken is the first of the window. |
| PipeRing.Pipe.Fill | code/pipe.c:83-93 | Copies in bytes in order until all are in or the ring holds 512; the ring and the position are those of the step that the runs take. |
| PipeRing.Pipe.Copy | code/pipe.c:113-117 | Copies out the first min(n, available) bytes in order; the ring is that of the step that the runs take. |
| PipeRuns.StepKeepsFifo | code/pipe.c:60-121 | In every step, whoever is killed when, accepted bytes are the delivered ones and the window. |
| PipeRuns.StepKeepsInv | code/pipe.c:60-121 | Every step other than that of a killed writer with sleeping readers keeps the wakeup invariant. |
| PipeRuns.DeliveredInOrder | code/pipe.c:79-121 | In every run the bytes delivered are a prefix of the bytes accepted, and the rest is the window of at most 512 bytes. |
| PipeRuns.EndOfFile | code/pipe.c:101-121 | A read of n > 0 bytes returns nothing only when the writers have closed and everything is delivered. |
| PipeCalls.WriteIsWhole | code/pipe.c:79-98 | In every run, however often it sleeps, a call of pipewrite puts a prefix of its buffer into the pipe, in order; when it returns normally that is the whole buffer, and it gives up only on a full pipe, killed or without a reader. |
| PipeCalls.ReadIsWhole | code/pipe.c:101-121 | In every run a call of piperead that returns normally has taken min(n, available) bytes from the front of the pipe in one step, and none only when the write end is closed. |
| PipeCalls.WhoMovesBytes | code/pipe.c:60-121 | Bytes enter only by a writer's step and leave only by a reader's, and what has entered or left stays so. |
| PipeCalls.WhoCloses | code/pipe.c:60-75 | An end of the pipe is closed exactly by pipeclose of that end, for good. |
| PipeRuns.NoLostWakeup | code/pipe.c:60-121 | In every run without such a writer, whenever the lock is free a sleeping reader faces an empty open pipe and a sleeping writer a full open one. |
| PipeRuns.KilledWriterLosesWakeup | code/pipe.c:84-91 | A writer killed mid-write leaves a sleeping reader asleep on a full pipe. |
| PipeRuns.LostWakeupExact | code/pipe.c:84-91 | With the lock held, a process breaks the wakeup invariant exactly if it is such a writer. |
| PipeRuns.LostWakeupRun | code/pipe.c:79-98 | There is a run that ends with the lock free, a full pipe and a reader asleep. |
| FreeList.InsertedOrdered | code/umalloc.c:33-42 | Inserting a block with merging on both sides keeps the list in address order, with no two adjacent blocks unmerged. |
| FreeList.InsertedLinked | code/umalloc.c:33-43 | The header assignments of free link exactly the list with the block inserted and merged. |
| FreeList.InsertedUnits | code/umalloc.c:33-42 | Merging neither loses nor gains units. |
| FreeList.TakenLinked | code/umalloc.c:75-83 | The header assignments of malloc link exactly the list with the block taken out or its tail split off. |
| Umalloc.PayloadExact | code/umalloc.c:69 | The computed units have room for the payload exactly when nbytes is at most 2^32 - 8. |
| Umalloc.SbrkExact | code/umalloc.c:52-54 | The signed 32-bit argument of sbrk is the number of bytes wanted exactly when nbytes is at most 0x7ffffff0 or the computation of the units wraps around; otherwise it is not positive. |
| Umalloc.Search | code/umalloc.c:29-32 | The search of free terminates from any starting block and stops at the place in address order. |
| Umalloc.LinkIn | code/umalloc.c:33-42 | The assignments of free perform the insertion with merging. |
| Umalloc.FindFit | code/umalloc.c:73-88 | The circular search terminates; it finds the first block that is large enough after freep, and none exactly if there is none. |
| Umalloc.Take | code/umalloc.c:75-82 | Splits off the tail of a larger block or unlinks an exact fit. |
| Umalloc.FreeKeepsHeap | code/umalloc.c:25-44 | free keeps one ordered cycle of disjoint, merged blocks, and free plus live units equal the units obtained. |
| Umalloc.TakeKeepsHeap | code/umalloc.c:73-84 | malloc's taking keeps the same, and the new block overlaps no live block. |
| Umalloc.Morecore | code/umalloc.c:47-61 | New memory enters the list through free, after which the list has a block that is large enough. |
| Umalloc.Allocator.Free | code/umalloc.c:25-44 | The block's units return to the list, merged, at their place in address order; other live blocks are untouched. |
| Umalloc.Allocator.Malloc | code/umalloc.c:64-90 | Fails exactly when no block is large enough and sbrk fails; otherwise the result is a new live block disjoint from all live blocks, which are untouched, and memory is obtained exactly when no block fits; sbrk grants less than asked for exactly for the requests that `Umalloc.SbrkExact` names. |
| Umalloc.Allocator.Store | code/umalloc.c:64-90 | A program may overwrite the payload of its blocks without effect on the allocator. |
| ShellDerivation.SimpleParses | code/sh.c:416-446 | Redirections before, between and behind at most nine arguments, `>>` included, give the command with these arguments inside these redirections in order. |
| ShellDerivation.ParseExact | code/sh.c:328-446 | A token sequence is parsed to a tree exactly if the grammar, stated as a relation without the parser, derives the tree from it. |
| ShellGrammar.RoundTrip | code/sh.c:328-446 | On the level of tokens, printing any tree with at most nine arguments per command and parsing it gives the same tree. |
| ShellGrammar.LineWritable | code/sh.c:345-446 | Whatever is parsed has at most nine arguments per command, and its words are tokens of the line. |
| ShellLexer.LexExact | code/sh.c:266-308 | The tokens of a line are exactly those that it spells: their texts in order, each word and each `>>` as long as possible, with any white space around them. |
| ShellLexer.LexRender | code/sh.c:266-308 | Tokens written with spaces between them are read back as the same tokens. |
| ShellLexer.ParseTextExact | code/sh.c:266-446 | A line is parsed to a tree exactly if it spells tokens from which the grammar derives that tree. |
| ShellLexer.TextRoundTrip | code/sh.c:266-446 | Every writable command tree, typed as text without NUL, is parsed as that tree. |
| ShellLexer.TypeableExact | code/sh.c:266-446 | The trees that some line without NUL is parsed to are exactly the writable ones, whose words are not empty and hold no white space, symbol or NUL. |
| ShellParser.GetToken | code/sh.c:266-308 | Returns the next token of the line, with the exact span of a word, and moves past it; NUL exactly at the end. A line holds no NUL before its end, which parsecmd finds by strlen. |
| ShellParser.Peek | code/sh.c:311-320 | Skips white space only, and reports whether the next token starts with one of the characters. |
| ShellParser.ParseRedirs | code/sh.c:375-397 | Wraps the command in the redirections of the grammar, or reports the missing file. |
| ShellParser.ParseExecCmd | code/sh.c:416-446 | Terminates on every line, with the tree and position that the grammar gives, or its error. |
| ShellParser.ParseArgs | code/sh.c:427-442 | The same for the loop over arguments, with the limit on their number. |
| ShellParser.ParseBlockCmd | code/sh.c:400-413 | The same for a parenthesised line. |
| ShellParser.ParsePipeCmd | code/sh.c:362-372 | The same for pipelines. |
| ShellParser.ParseLineCmd | code/sh.c:345-359 | The same for lists and background jobs. |
| ShellParser.Nulterminate | code/sh.c:450-493 | Puts a NUL right after every word and never inside one. |
| ShellParser.ReadsTree | code/sh.c:450-493 | After that, every argument and file name is read as exactly its token. |
| ShellParser.ParseCmd | code/sh.c:328-342 | For every line, the command that runcmd sees in the buffer is the parsed tree, or the grammar's error is reported. |
| Grep.Match | code/grep.c:73-82 | True exactly if the pattern occurs in the text, at its beginning after '^', by the declarative meaning of patterns. |
| Grep.MatchHere | code/grep.c:85-96 | True exactly if the text can be cut into one fitting piece for each item of the pattern and a rest. |
| Grep.MatchStar | code/grep.c:99-106 | True exactly if some run of c, of any length including zero, leaves a text that matches the rest of the pattern. |

## Left out

- Umalloc.Allocator.Malloc: where sbrk succeeds without granting the units asked for, the accesses outside the heap that follow are not modelled.
- Umalloc.Allocator.constructor: assumes that the static header lies below the heap, as it does when the heap comes from sbrk.
- FileSystem.FileSystem.Writei: the driver functions of devices are parameters.
- FileWrite.File.Write: the file is not a device; for one, `filewrite` passes the bytes on to its driver.
- FileRuns.CrashConsistency: the operations are file writes; those of other system calls, on directories and on inodes, are not modelled.
- PageFrames.UserPagesExclusive: kernel mappings above KERNBASE share frames on purpose and own none.
- AddressSpace.Undo: page tables built before memory ran out stay in the directory, as in the code.
- SchedulerRuns.StepKeepsInv: holds within the guards under which the queues work. A pending queue change is completed by yield first: `SchedulerSteps.SleepExact`, `SchedulerSteps.ExitExact` and `SchedulerSteps.ChangeExact`. DEF is not given to a process in use: `SchedulerSteps.DefaultPanicsExact`. No queue is full: `ReadyQueue.Queue.ShiftOut` and `SchedulerRuns.FullRun`. change_queue gets an existing pid: with any other, it reads the entry behind the table (`ProcTable.ProcTable.Lookup`), and what is there is not modelled.
- SchedulerRuns.NothingElsePicked: BJF ranking is not modelled; that branch never dispatches a process.
- ShellParser.ParseExecCmd: nodes of the tree are values; the argument list that the code fills in place inside the redirection nodes is updated in the value.
- Directories, paths, inode allocation and reference counts, and the system calls above them.
- exec, copyout, the segment and trap code, and interrupts.
- Spin locks, memory ordering and lock order: a critical section is one step.
- The buffer lock's sleeping: `Acquire` starts where the lock is free.
- runcmd, the line buffering of grep, console output and the remaining user programs, which would add only plumbing.

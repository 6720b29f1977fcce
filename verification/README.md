# Models of xv6 and Linux 0.12 kernel algorithms in Dafny

The repository collects teaching kernels. This project models the parts of them
with the most intricate state, xv6 (`xv6-read/xv6`) and Linux 0.12
(`Linux-0.12/linux-0.12`), and proves what they are meant to guarantee. Loops and
in-place updates of the C code are loops and updates here; concurrent protocols are
state machines whose steps interleave freely; panics are results.

| files | what they model |
|---|---|
| `LogSpec`, `RedoLog`, `LogMachine` | the write-ahead redo log with crashes between any two block writes |
| `BufferCache`, `LogCache` | the pinned LRU buffer cache over a flat disk, and its limits |
| `FsSpec`, `FsLog`, `FileSystem`, `FsSession`, `FileWrite`, `FsTight` | bitmap, inodes, block maps, file contents, and the size of transactions |
| `FsHistory`, `FsCrash`, `FsFormat`, `FsMachine`, `FsCarried`, `FsDurable` | the file system on top of the log: processes, shared transactions, crashes and what they leave |
| `PagingSpec`, `PagingScan`, `PagingSweep`, `PagingSteps`, `PagingSupply`, `Paging`, `PagingRun`, `PagingWitness` | Linux 0.12 page tables, copy-on-write, sharing and swapping |
| `AllocatorSpec`, `Allocator` | the K&R allocator of `umalloc.c` |
| `SleepWakeup`, `SleepLock`, `WaitExit` | sleep/wakeup, sleep-locks, wait/exit |
| `PipeSpec`, `PipeMachine`, `PipeCalls` | pipes |
| `VmSpec`, `Vm` | xv6 page tables and page allocator |
| `ShellSpec`, `ShellPrint`, `ShellGrammar`, `Shell` | the shell's parser and its grammar |
| `MathLimbs`, `MathEmu` | 387 emulation: multiply and divide |

`dafny verify dfyconfig.toml` checks everything.

## Properties that do not hold, and when they do

- A crash is meant never to leave half an operation. That holds exactly when the log area
  has at least LOGSIZE + 1 blocks, or only a header, when nothing can be logged
  (`LogMachine.CrashSafeExactly`). The guard of `log_write`
  comes before the lock is taken, so two operations can both pass it; `mkfs.c:25` makes
  the area LOGSIZE blocks, header included, and `LogMachine.LogOverflows` is the run in
  which the transaction runs past its end.
- `log_write` is meant never to panic within the budgets. It does not exactly when the
  log area has at least LOGSIZE + 1 blocks (`LogMachine.NoPanicExactly`). The log's own breads
  never panic exactly when there are at least LOGSIZE + 1 buffers besides those readers hold
  (`LogCache.NeverStarvesExactly`); NBUF equals LOGSIZE, so one or the other panic can
  always be reached (`LogCache.EveryLogSizePanics`).
- `un_wp_page` and `try_to_share` call `get_free_page`, which may take out the very entry
  they work on; the page count is then wrong. `Paging.Mm.UnWpPage` and
  `Paging.Mm.TryToShare` give the exact condition, computed from the tables and the
  swap-out cursor before the call; a free page is sufficient. `PagingWitness.StoreLoses`
  and `PagingWitness.FaultLoses` are states where it fails.
- `swap_out` is meant to fail only when no page can go. `PagingSweep.SwapOutExactly` says
  which entries its turn misses, `PagingWitness.TurnMisses` is a state where it misses the
  only one.
- `put_page` only warns about a page that is not in hand; `Paging.Mm.PutPage` says exactly
  when the counts survive.
- `pipewrite` returns early when the writer is killed without waking the readers.
  `PipeMachine.LostExactly` and `PipeMachine.LostInRuns` say exactly when a wakeup is
  outstanding, `PipeMachine.EarlyReturn` which process is stranded, and
  `PipeMachine.WakeupLost` is such a run.
- `malloc` computes the unit count in 32 bits and passes the byte count as an int:
  `Allocator.UnitsSuffice` and `Allocator.Arena.Morecore` give the exact limits, and
  `Allocator.Arena.HalfOfMemory` is the smallest request past them.
- `fdiv` tests for inexact results but never sees one (`MathEmu.Fdiv`); its flag is right
  exactly when the division leaves no remainder and, if the exponent underflows, the
  dividend is zero (`MathEmu.PrecisionFlag`); it is wrong for 1.0 / 1.5
  (`MathEmu.OneByOneAndAHalf`) and for a small number by a huge one
  (`MathEmu.TinyByHuge`).

## Model

| member | source | states |
|---|---|---|
| LogSpec.HeaderRoundTrip | xv6-read/xv6/log.c:84-113 | Reading back a header that was written gives the same block list, and writing it touches no other block. |
| LogSpec.RecoveryPoint | xv6-read/xv6/log.c:68-82 | After k installs each home block holds the log copy of its last listing among the first k, or what it held before. |
| LogSpec.InstallAgain | xv6-read/xv6/log.c:68-82 | Installing a second time after any number of installs gives what installing once gives. |
| LogSpec.RecoveryRestart | xv6-read/xv6/log.c:115-122 | A recovery cut off after any of its block writes leaves a disk whose next full recovery ends exactly as the first would have: any number of crashes inside recovery change nothing. |
| LogSpec.BeforeHeader | xv6-read/xv6/log.c:176-197 | Up to the committing header write the header is still clear and every home block still old. |
| LogSpec.AfterHeader | xv6-read/xv6/log.c:197-200 | From that write to the last install the header names the transaction, the log area holds its blocks, and each home block is old or new. |
| LogSpec.CommitCrashAtomic | xv6-read/xv6/log.c:69-122 | A crash after any k of the 2n+2 block writes of commit() followed by a recovery leaves all home blocks old if the header write is not among the k, all new if it is. |
| LogSpec.CommitInstalls | xv6-read/xv6/log.c:192-202 | A commit that runs to its end leaves every home block new and the header clear. |
| LogSpec.InstallsAreRecovery | xv6-read/xv6/log.c:192-202 | The second half of a commit is, write for write, a recovery of the disk the header write left. |
| LogSpec.CommitStatesRecover | xv6-read/xv6/log.c:177-202 | Every disk state of a whole commit recovers to all old or all new, the switch being at the header write. |
| LogSpec.RecoveryDone | xv6-read/xv6/log.c:115-122 | A recovery ends at the recovered disk with a clear header, and every state on the way recovers to the same disk. |
| RedoLog.Log.WriteLog | xv6-read/xv6/log.c:176-190 | The copy loop leaves the disk and the sequence of disk states that the specification of a commit prescribes, home blocks untouched. |
| RedoLog.Log.WriteHead | xv6-read/xv6/log.c:98-113 | One atomic block write that replaces the header. |
| RedoLog.Log.ReadHead | xv6-read/xv6/log.c:84-96 | The list in memory becomes the list on disk. |
| RedoLog.Log.InstallTrans | xv6-read/xv6/log.c:68-82 | The install loop leaves, on disk and in the cache, what recovery prescribes, through exactly the prescribed disk states. |
| RedoLog.Log.Commit | xv6-read/xv6/log.c:192-202 | Every disk state passed through recovers to all old or all new home blocks; the switch is at block write number n; the end state has everything installed and an empty list. |
| RedoLog.Log.RecoverFromLog | xv6-read/xv6/log.c:115-122 | Ends at the recovered disk; every disk state on the way still recovers to the same disk. |
| RedoLog.Log.BeginOp | xv6-read/xv6/log.c:124-141 | One pass of the loop admits an operation exactly when no commit runs and lh.n + (outstanding + 1) * MAXOPBLOCKS <= LOGSIZE. |
| RedoLog.Log.LogWrite | xv6-read/xv6/log.c:204-233 | Panics exactly on the two guards; otherwise the block is listed once (absorbed if already there) and the cache holds the new contents. |
| RedoLog.Log.EndOp | xv6-read/xv6/log.c:143-174 | Panics exactly if a commit is running; the last operation out commits, so that the disk shows what the cache showed; the others leave the disk alone. |
| LogMachine.NextKeepsInv | xv6-read/xv6/log.c:125-233 | Every step (begin, the two guards of log_write, its append under the lock, end, each block write of commit and recovery, crash at any point) keeps the invariant that ties disk, log, cache and operations together, if the log area holds LOGSIZE blocks besides the header. |
| LogMachine.CrashSafety | xv6-read/xv6/log.c:125-233 | For every interleaving of any number of operations, other operations logging between the guard and the append of a log_write included, and every crash point: recovery gives the original image with exactly the writes covered by the last header write that reached the disk; each operation is in it whole or not at all, and only if it had reached end_op. |
| LogMachine.DurableGrows | xv6-read/xv6/log.c:192-202 | Along a run, crashes included, the durable writes only grow. |
| LogMachine.SpaceBound | xv6-read/xv6/log.c:125-141 | What begin_op reserves is enough: while an operation has used less than its budget there is room in the list. |
| LogMachine.RunSpace | xv6-read/xv6/log.c:125-141 | On every run lh.n plus the unused budgets of the outstanding operations never exceeds LOGSIZE, whatever happens between a guard and its append. |
| LogMachine.SpaceNoPanic | xv6-read/xv6/log.c:213-221 | With LOGSIZE + 1 blocks of log no run in which every log_write is made before the operation has listed MAXOPBLOCKS distinct blocks reaches a panic. |
| LogMachine.FillLog | xv6-read/xv6/log.c:125-141 | A run exists in which three operations within their budgets list any k blocks up to LOGSIZE or log.size - 1. |
| LogMachine.NoPanicExactly | xv6-read/xv6/log.c:218-221 | No run panics in log_write if and only if log.size >= LOGSIZE + 1; mkfs makes the area one block smaller, so there the guard is reached. |
| LogMachine.LogOverflows | xv6-read/xv6/log.c:213-233 | For a log area of LOGSIZE blocks or fewer there is a run within the budgets in which two operations pass the unlocked guard when one place is left: the transaction is longer than the area, its last copy lands on a home block before anything is committed, and a crash then leaves a half-done operation. |
| LogMachine.CrashSafeExactly | xv6-read/xv6/mkfs.c:25-25 | Crash safety holds on all runs if and only if the log area has at least LOGSIZE + 1 blocks (or only a header, when nothing can be logged); mkfs makes it LOGSIZE. |
| LogMachine.EleventhCallPanics | xv6-read/xv6/log.c:218-227 | Because the guard comes before absorption, an operation that calls log_write once more after its MAXOPBLOCKS-th distinct block can panic whatever the log size. |
| LogCache.LogRun | xv6-read/xv6/log.c:176-190 | The log machine with a buffer for every block it reads refines the log machine: each run with buffers is a run of the log. |
| LogCache.RunPins | xv6-read/xv6/bio.c:61-93 | On every run with buffers exactly the logged blocks not yet installed are pinned, each in one buffer, and every reference belongs to the log or to a reader. |
| LogCache.EnoughBuffers | xv6-read/xv6/bio.c:78-91 | With LOGSIZE + 1 buffers and one more for each that readers may hold, no bread of commit() or recovery panics, in any interleaving. |
| LogCache.FullCacheStarves | xv6-read/xv6/bio.c:92-92 | If a transaction and the readers can fill all buffers, there is a run from the initial state in which they do and the first bread of write_log panics. |
| LogCache.NeverStarvesExactly | xv6-read/xv6/param.h:10-12 | The breads of the log never panic if and only if there are at least LOGSIZE + 1 buffers besides those readers may hold. |
| LogCache.EveryLogSizePanics | xv6-read/xv6/param.h:10-12 | Since NBUF equals LOGSIZE, for every size of the log area operations within their budgets lead to a panic: in log_write, or in the first bread of write_log. |
| LogCache.GetIsTake | xv6-read/xv6/bio.c:58-93 | What bget does to the buffers of the cache is what the log machine takes it to do. |
| LogCache.RelseIsRelease | xv6-read/xv6/bio.c:118-141 | What brelse does to them is likewise the release of the log machine. |
| LogCache.MarkIsSetDirty | xv6-read/xv6/log.c:228-231 | What log_write and bwrite do to the dirty flag is what the log machine takes them to do. |
| LogCache.StarvedAlike | xv6-read/xv6/bio.c:92-92 | bget panics in the cache exactly when it does in the log machine. |
| BufferCache.FrontLinks | xv6-read/xv6/bio.c:121-141 | Relinking a buffer at the front keeps next and prev inverse around a ring that holds every linked buffer once. |
| BufferCache.DetachLinks | xv6-read/xv6/bio.c:121-141 | Unlinking the buffer at any position keeps next and prev inverse around the remaining ring. |
| BufferCache.FrontKeepsOrder | xv6-read/xv6/bio.c:120-141 | Moving a buffer to the front keeps the ring complete and ordered by time of release. |
| BufferCache.BCache.Init | xv6-read/xv6/bio.c:38-58 | The ring holds all n buffers, idle and invalid; the cache shows the disk. |
| BufferCache.BCache.Lookup | xv6-read/xv6/bio.c:66-76 | Finds the buffer that caches the block, or establishes that none does. |
| BufferCache.BCache.Victim | xv6-read/xv6/bio.c:78-91 | Of the unreferenced clean buffers the least recently released, or none exists. |
| BufferCache.BCache.BGet | xv6-read/xv6/bio.c:58-93 | Panics exactly when the block is not cached and no buffer is idle and clean; recycles only the least recently released idle clean buffer; the flat contents do not change. |
| BufferCache.BCache.Iderw | xv6-read/xv6/memide.c:36-60 | The exact transfer and flags in each case, and exactly when it panics. |
| BufferCache.BCache.BRead | xv6-read/xv6/bio.c:95-106 | Waits exactly if another process has the buffer locked, panics exactly if there is no buffer or the block is not on disk 1; otherwise returns the buffer locked with the latest logged or written contents of the block; a dirty buffer is neither evicted nor written home. |
| BufferCache.BCache.Lock | xv6-read/xv6/bio.c:97-105 | The rest of bread after the wait: the latest contents, the disk and the flat contents as before. |
| BufferCache.BCache.BWrite | xv6-read/xv6/bio.c:108-116 | Writes the block home exactly if the caller holds the lock; the flat contents do not change. |
| BufferCache.BCache.Modify | xv6-read/xv6/bio.c:7-20 | Changing the bytes of a held buffer changes the flat contents at that block only. |
| BufferCache.BCache.Pin | xv6-read/xv6/log.c:228-231 | Marking a held buffer dirty changes nothing that can be read. |
| BufferCache.BCache.BRelse | xv6-read/xv6/bio.c:118-141 | The reference is given up; a buffer nobody waits for becomes the most recently released one; the flat contents do not change. |
| BufferCache.BCache.Session | xv6-read/xv6/bio.c:38-141 | The cache refines a flat array of blocks: any script of bread, change, log_write, bwrite and brelse, with any number of buffers held at a time, sees and leaves what it would on the array, whatever is evicted on the way; it stops only at a bread that finds every buffer referenced or dirty. |
| FsSpec.BitmapMeaning | xv6-read/xv6/fs.c:50-96 | Under the ownership invariant a bitmap bit is set exactly for metadata blocks and blocks held by a slot, and no block is held by two slots. |
| FsSpec.SetU32Reads | xv6-read/xv6/fs.c:390-396 | Writing one entry of an indirect block changes that entry and no other. |
| FsSpec.OtherFiles | xv6-read/xv6/fs.c:373-401 | A change confined to one inode leaves every other file's map and bytes as they were. |
| FsSpec.WriteBlockByte | xv6-read/xv6/fs.c:499-505 | Overwriting part of one block of a file changes exactly those bytes of the file. |
| FsSpec.WritingStep | xv6-read/xv6/fs.c:499-505 | One round of the write loop extends the written range and keeps ownership, the block map and every other file. |
| FsSpec.WritingDone | xv6-read/xv6/fs.c:499-511 | When all rounds are done and the size is raised, the file is the old one with the range replaced and extended, without holes. |
| FsSpec.FreeNext | xv6-read/xv6/fs.c:408-436 | In the order itrunc frees them, the bit of each next block is still set. |
| FsSpec.TruncatedOwned | xv6-read/xv6/fs.c:408-436 | When all slots are freed exactly the inode's blocks have become free. |
| FsSpec.TruncatedGood | xv6-read/xv6/fs.c:403-436 | Truncating one file keeps the whole file system good and every other file as it was. |
| FsSpec.EmptyGood | xv6-read/xv6/mkfs.c:94-115 | A disk with empty inodes and only the metadata blocks marked is a good file system. |
| FsLog.LogsStep | xv6-read/xv6/fs.c:373-401 | The exact set of blocks logged grows per round by the data block and, if new, its bitmap block and the map block. |
| FsLog.LogsBound | xv6-read/xv6/fs.c:499-510 | The number of distinct blocks logged is at most the blocks touched plus the blocks added plus the cost of the indirect block. |
| FsLog.ChunkFits | xv6-read/xv6/file.c:127-136 | For every size, every offset up to it and every chunk of at most three blocks' bytes, the transaction asks for at most MAXOPBLOCKS blocks, inode included. |
| FsLog.ChunkTight | xv6-read/xv6/file.c:127-136 | A full unaligned chunk that crosses into the indirect range logs exactly ten blocks when the new blocks lie under four bitmap blocks. |
| FsTight.TightWrite | xv6-read/xv6/file.c:127-136 | So the bound is reached by a call: on a disk where four blocks are free, under four bitmap blocks, and all others are owned by files, writei of a full chunk succeeds and logs exactly MAXOPBLOCKS blocks. |
| FsTight.FullGood | xv6-read/xv6/mkfs.c:94-165 | That disk is a good file system. |
| FsLog.WriteFits | xv6-read/xv6/fs.c:499-510 | A write of any length asks for at most two blocks for each block it fills and four more; ten for a chunk of three blocks. |
| FsLog.LogSetWithin | xv6-read/xv6/fs.c:373-510 | What a write logs are inode blocks, bitmap blocks and data blocks. |
| FileSystem.FileSys.Format | xv6-read/xv6/mkfs.c:94-165 | A new file system, all inodes empty and all data blocks free, is good. |
| FileSystem.FileSys.Mount | xv6-read/xv6/fs.c:286-313 | A file system that is on disk already. |
| FileSystem.FileSys.Balloc | xv6-read/xv6/fs.c:54-78 | Takes and zeroes the first free block; fails exactly on a full disk. |
| FileSystem.FileSys.Bfree | xv6-read/xv6/fs.c:80-96 | Clears the bit; panics exactly if it was clear. |
| FileSystem.FileSys.Iupdate | xv6-read/xv6/fs.c:216-237 | The inode on disk becomes the one in memory. |
| FileSystem.FileSys.Iload | xv6-read/xv6/fs.c:286-313 | The inode in memory becomes the one on disk; panics exactly on a free inode. |
| FileSystem.FileSys.Bmap | xv6-read/xv6/fs.c:370-401 | An existing block is found without any change; a new one changes only this inode's map and keeps the ownership invariant; it takes one free block, or two with the first indirect entry, and panics exactly out of range or if these are not free; logs exactly the new block, its bitmap block and the map blocks. |
| FileSystem.FileSys.BmapFirst | xv6-read/xv6/fs.c:386-398 | The first indirect block: two blocks are taken and owned by the right slots. |
| FileSystem.FileSys.BmapIndirect | xv6-read/xv6/fs.c:386-398 | The same contract for blocks beyond the direct ones. |
| FileSystem.FileSys.Readi | xv6-read/xv6/fs.c:451-478 | Returns the bytes of the file from off on, clipped at its end; never allocates and changes nothing, although it goes through bmap. |
| FileSystem.FileSys.WritePiece | xv6-read/xv6/fs.c:499-505 | One round of the loop on the real state, through direct and indirect blocks and unaligned ends. |
| FileSystem.FileSys.WriteAll | xv6-read/xv6/fs.c:499-505 | The whole loop writes all bytes in place, or stops on a full disk. |
| FileSystem.FileSys.Writei | xv6-read/xv6/fs.c:480-512 | The byte sequence becomes the old one with [off, off+n) replaced and extended; every other file is unchanged; no holes; the inode on disk equals the one in memory although bmap never writes it back; every changed block is logged; the errors are exactly the guards, and it panics exactly if fewer blocks are free than the file grows by, indirect block included. |
| FileSystem.FileSys.Itrunc | xv6-read/xv6/fs.c:403-436 | Exactly the inode's blocks become free, the double-free panic is unreachable, the inode is empty in memory and on disk, the file system stays good and no other file changes; every changed block is logged, and only bitmap blocks and the inode's block. |
| FileSystem.FileSys.FreeDirect | xv6-read/xv6/fs.c:415-420 | The first loop frees exactly the direct blocks. |
| FileSystem.FileSys.FreeIndirect | xv6-read/xv6/fs.c:422-432 | The second part frees exactly the listed blocks and the indirect block itself. |
| FileWrite.WriteChunk | xv6-read/xv6/file.c:134-146 | One transaction asks the log for at most MAXOPBLOCKS blocks, carries out one operation on plain files and moves the offset by what it wrote. It is refused exactly if its bytes would leave a gap or go past the largest file, and panics exactly if too few blocks are free for it. |
| FileWrite.RestGoes | xv6-read/xv6/file.c:131-153 | After n bytes have gone in, the next n1 go in exactly if n + n1 bytes could from the outset, with the free blocks there were then. |
| FileWrite.WrittenTwice | xv6-read/xv6/file.c:131-153 | Two adjoining writes are one write of the joined bytes. |
| FileWrite.FileWrite | xv6-read/xv6/file.c:116-156 | From the state before the call: returns n exactly if the file is writable and n is zero, or it is no device, the offset is within it, all bytes are within the largest file and the free blocks cover what it must grow by. Otherwise the chunk it stops at is the first whose own range or blocks are not to be had, -1 or a panic accordingly, and the file holds the chunks before it; every transaction stays within MAXOPBLOCKS and carries out the next chunk as an operation of its own. |
| FileWrite.ChunksWrite | xv6-read/xv6/file.c:127-153 | On plain files k chunks in turn are one write of the bytes they hold. |
| FsSession.Perform | xv6-read/xv6/fs.c:403-512 | One operation (read, write, truncate) answers and acts as on plain byte sequences, logs every block it changes, only blocks of the file system and not more than its cost; it panics exactly on a free inode or if too few blocks are free for it. |
| FsSession.Session | xv6-read/xv6/fs.c:286-512 | So does any sequence of operations on any files, starting from any good file system: bitmap, inodes, block maps and data refine a map from files to byte sequences; it stops only where an operation panics. |
| FsSession.Stages | xv6-read/xv6/fs.c:286-512 | After t recorded operations the file system is good and its files are what t operations make of plain files. |
| FsCrash.ShowsOne | xv6-read/xv6/fs.h:28-48 | A disk in the on-disk format shows at most one bitmap, inode table and data. |
| FsCrash.UnloggedShows | xv6-read/xv6/fs.c:216-237 | A block an operation did not log shows the state after it as well as the one before. |
| FsCrash.TxShows | xv6-read/xv6/log.c:204-233 | The logged blocks of one operation turn a disk that shows the state before it into one that shows the state after it. |
| FsMachine.LogOf | xv6-read/xv6/log.c:125-233 | The file system on the log refines the log: every run of it is a run of the log. |
| FsMachine.StackStep | xv6-read/xv6/log.c:115-233 | Every step of any process, every crash included, keeps the invariant that the log has been given, and has not lost, exactly the writes of the operations done, in order. |
| FsMachine.KeptIs | xv6-read/xv6/log.c:143-174 | Durable writes that cut no operation in two are those of a number of first operations. |
| FsMachine.Whole | xv6-read/xv6/log.c:143-174 | What a crash would leave is such a number of operations, each whole and past its end_op. |
| FsMachine.JobsShow | xv6-read/xv6/log.c:68-82 | The writes of the operations turn the first disk into one that shows the image after them. |
| FsMachine.AnyCrash | xv6-read/xv6/log.c:115-202 | At every moment of every run a recovery would leave a disk that shows the image after the surviving operations; the files in it are what these make of plain files. |
| FsMachine.AllDurable | xv6-read/xv6/log.c:143-174 | When no operation is under way and no commit is running, all operations done survive. |
| FsMachine.StaysDurable | xv6-read/xv6/log.c:192-202 | What survives at one moment survives at every later one, however many crashes come between. |
| FsFormat.EncodeShows | xv6-read/xv6/fs.h:28-48 | Every file system state whose fields fit their on-disk widths has an encoding, block by block, that reads back as it. |
| FsFormat.WritesExist | xv6-read/xv6/log.c:204-233 | Every operation has block contents to log, one for each block it changes. |
| FsCarried.JobExists | xv6-read/xv6/log.c:204-233 | Every operation that a session has recorded and that fits the log has log_writes: the blocks it logged are home blocks, and what it leaves fits the on-disk format. |
| FsCarried.GoesOn | xv6-read/xv6/log.c:125-202 | The machine at rest carries out any recorded sequence of such operations, none of them waiting or panicking, and comes to rest with all of them durable. |
| FsCarried.Reboots | xv6-read/xv6/log.c:115-122 | From any moment the machine may crash, and its recovery completes: it comes to rest with exactly the surviving operations. |
| FsDurable.CrashedWrite | xv6-read/xv6/file.c:116-156 | A crash at any point of a write() and recovery: the file holds exactly the first chunks, as many as survive, and no other file has changed. |
| FsDurable.CrashedSession | xv6-read/xv6/log.c:115-202 | Any number of processes whose operations share transactions, any number of crashes and recoveries: at every moment a recovery leaves a good file system whose files are exactly what the surviving operations make of plain byte sequences, one after the other; all survive once nothing is under way, and what survives once survives for good. |
| FsDurable.LoggedSession | xv6-read/xv6/fs.c:286-512 | A session of operations that fit the log, on a machine at rest with the same image: the run of the machine goes on with exactly these operations and comes to rest with the image in memory; it stops early only at an operation that panics on the image reached. |
| FsDurable.LoggedWrite | xv6-read/xv6/file.c:116-156 | The same for one write() of any length, complete exactly if the file as it was takes all the bytes. |
| FsDurable.RestsAgain | xv6-read/xv6/log.c:115-122 | The machine rests at the start, and again after every crash and recovery, so sessions follow each other across crashes. |
| PagingSpec.CountFits | Linux-0.12/linux-0.12/mm/memory.c:47-47 | Under the invariant no mem_map byte of main memory exceeds 63, one for each user task, so the increments never wrap. |
| PagingSpec.BootInv | Linux-0.12/linux-0.12/boot/head.s:198-212 | After head.s and mem_init the invariant holds: kernel memory is mapped one to one outside the counts, pages below main memory are marked used, main memory is free. |
| PagingSpec.ChangedInv | Linux-0.12/linux-0.12/mm/memory.c:53-63 | Any change of one entry whose count, sharing and slot conditions fit keeps the invariant: count = entries + directory links + kernel holds, writable implies sole user, slots named once and marked used. |
| PagingSpec.DropInv | Linux-0.12/linux-0.12/mm/swap.c:117-120 | Dropping a clean entry and its reference keeps the paging invariant. |
| PagingSpec.SendOutInv | Linux-0.12/linux-0.12/mm/swap.c:105-115 | Sending the sole user of a dirty page to a fresh slot keeps the paging invariant. |
| PagingSpec.MapHeldInv | Linux-0.12/linux-0.12/mm/memory.c:184-195 | Putting a page the kernel holds into an empty or swapped entry keeps the paging invariant. |
| PagingSpec.SplitInv | Linux-0.12/linux-0.12/mm/memory.c:238-245 | Leaving a shared page for a copy keeps the paging invariant. |
| PagingSpec.ShareInv | Linux-0.12/linux-0.12/mm/memory.c:339-346 | Sharing a write-protected page with the same place of another address space keeps the paging invariant. |
| PagingSpec.LinkInv | Linux-0.12/linux-0.12/mm/memory.c:138-140 | A page the kernel holds becoming a page table keeps the paging invariant. |
| PagingSpec.UnlinkInv | Linux-0.12/linux-0.12/mm/memory.c:94-95 | Freeing an empty page table keeps the paging invariant. |
| PagingScan.CursorVictim | Linux-0.12/linux-0.12/mm/swap.c:128-166 | With no free page, an entry just after the cursor that can go is among those taken out. |
| PagingScan.OutShrinks | Linux-0.12/linux-0.12/mm/swap.c:95-121 | Taking an entry out removes that entry only, and whatever still exists shows what it showed. |
| PagingSweep.ScanFinds | Linux-0.12/linux-0.12/mm/swap.c:143-163 | The second loop of swap_out comes to every entry its counter reaches. |
| PagingSweep.ScanReaches | Linux-0.12/linux-0.12/mm/swap.c:143-163 | And it takes out no other: the exact cost of reaching an entry, absent tables included. |
| PagingSweep.SwapOutExactly | Linux-0.12/linux-0.12/mm/swap.c:128-166 | swap_out succeeds if and only if some entry can go that its turn does not miss: missed are the entries up to the cursor in the first table found when the cursor's own table has gone, and entry 0 under the cursor when no table lies before its own. |
| PagingSteps.CopyOutBreaks | Linux-0.12/linux-0.12/mm/memory.c:240-243 | If the entry was itself taken out while its copy was being made room for, the count ends wrong. |
| PagingSteps.CopyOutKeeps | Linux-0.12/linux-0.12/mm/memory.c:240-244 | Otherwise the invariant and everything user code sees are kept. |
| PagingSteps.CountBreaks | Linux-0.12/linux-0.12/mm/memory.c:339-345 | The same for try_to_share: a count raised without an entry. |
| PagingSteps.ForkedAt | Linux-0.12/linux-0.12/mm/memory.c:142-162 | An eager copy of n pages, page by page: each target page reads as its source, the rest is unchanged. |
| PagingSteps.ForkedDirsAt | Linux-0.12/linux-0.12/mm/memory.c:132-163 | The same over whole directory entries: the meaning of the eager copy that fork is compared with. |
| PagingSteps.StoreKeeps | Linux-0.12/linux-0.12/mm/memory.c:228-245 | A write through a writable user entry changes what that page shows and nothing else. |
| PagingSteps.PutKeeps | Linux-0.12/linux-0.12/mm/memory.c:174-226 | put_page keeps the invariant for a page in hand that replaces no page of main memory, and for a page already there that nobody shares. |
| PagingSteps.PutBreaks | Linux-0.12/linux-0.12/mm/memory.c:174-226 | In every other case it breaks it. |
| Paging.Mm.Boot | Linux-0.12/linux-0.12/boot/head.s:198-212 | The state after head.s and mem_init satisfies the invariant. |
| Paging.Mm.MemInit | Linux-0.12/linux-0.12/mm/memory.c:443-455 | Main memory is free, the rest of mem_map is marked used. |
| Paging.Mm.InitSwapping | Linux-0.12/linux-0.12/mm/swap.c:199-253 | Swapping is on exactly if there is a device of known size and at least 100 blocks, a page is to be had, the page read ends in the signature, and its bitmap is good: slot 0 and the slots past the device marked used, the bit behind the bitmap clear for a device that fills it, some slot free. |
| Paging.Mm.GetSwapPage | Linux-0.12/linux-0.12/mm/swap.c:46-56 | Takes the first free slot above 0, or returns 0 if there is none or no bitmap. |
| Paging.Mm.FreePage | Linux-0.12/linux-0.12/mm/memory.c:53-63 | Decrements the count; panics exactly on a nonexistent or free page. |
| Paging.Mm.TryToSwapOut | Linux-0.12/linux-0.12/mm/swap.c:95-121 | Succeeds exactly for clean counted pages and for unshared dirty ones when a slot is free, with the exact new state. |
| Paging.Mm.SwapOut | Linux-0.12/linux-0.12/mm/swap.c:128-166 | Takes out the first entry that can go in scan order from the static cursor, within the counter, and leaves the cursor there. |
| Paging.Mm.FindFree | Linux-0.12/linux-0.12/mm/swap.c:177-191 | The last free page, or none exists. |
| Paging.Mm.GetFreePage | Linux-0.12/linux-0.12/mm/swap.c:172-197 | A zeroed page in the caller's hand, exactly if a page is free or becomes free as swap_out takes out one entry after another; exactly those entries are taken out, and the tables and the cursor are then as computed from those before; the invariant holds; the loop terminates. |
| PagingSupply.SweptRoom | Linux-0.12/linux-0.12/mm/swap.c:172-197 | A page is to be had exactly if one is free after the swap-outs of the call; with none free at first something is taken out for it. |
| PagingSupply.FreeHad | Linux-0.12/linux-0.12/mm/swap.c:172-197 | With k pages free, k calls one after the other all get one. |
| Paging.Mm.SwapIn | Linux-0.12/linux-0.12/mm/swap.c:69-93 | Succeeds exactly for a swapped entry with swapping on and a page to be had: the page is back, dirty and writable, its slot free, and everything user code sees is unchanged except for entries taken out to make room. |
| Paging.Mm.UnWpPage | Linux-0.12/linux-0.12/mm/memory.c:228-245 | Succeeds exactly if the entry is the sole user of its page or a page is to be had; the invariant is then lost if and only if it is not the sole user and is among the entries get_free_page takes out; otherwise what user code sees is kept. |
| Paging.Mm.CopyShared | Linux-0.12/linux-0.12/mm/memory.c:238-245 | The copying half of the same. |
| Paging.Mm.PutPage | Linux-0.12/linux-0.12/mm/memory.c:174-226 | Any page goes to v, with a new table if needed; it fails exactly if there is no table and no page for one; the invariant survives exactly if the page was in hand and replaces no page of main memory, or was already there unshared, and then it appears at v with its contents; the warning is printed exactly for pages outside main memory or with another count than 1. |
| Paging.Mm.NewTable | Linux-0.12/linux-0.12/mm/memory.c:188-192 | A free page becomes the table, exactly if one is to be had; else nothing but evictions happened. |
| Paging.Mm.NewPage | Linux-0.12/linux-0.12/mm/memory.c:287-295 | A page with the given contents appears, or nothing is left behind: the kernel holds what it held. It appears exactly if one page, or two where the table is missing, can be had one after the other. |
| Paging.Mm.TryToShare | Linux-0.12/linux-0.12/mm/memory.c:305-347 | Not shared exactly if the page is absent, dirty or uncounted; panics exactly if the target is present; out of memory exactly if a table is needed and no page is to be had; when it shares, the invariant survives if and only if the target had a table or the shared entry is not among those taken out to make one. |
| Paging.Mm.FreeEntry | Linux-0.12/linux-0.12/mm/memory.c:84-93 | The entry is cleared and its page or slot released; free_page's panics are unreachable. |
| Paging.Mm.FreeTable | Linux-0.12/linux-0.12/mm/memory.c:83-95 | The same for a whole table and its page. |
| Paging.Mm.FreePageTables | Linux-0.12/linux-0.12/mm/memory.c:69-99 | Exactly the given range disappears, and exactly its swap slots become free; refused only for address 0. |
| Paging.Mm.CopyEntry | Linux-0.12/linux-0.12/mm/memory.c:143-161 | The new entry shows what the old one shows; swapped, shared and low pages; it fails exactly for a swapped entry with no page to be had, and leaves only evictions. Tables and cursor afterwards are computed from those before. |
| Paging.Mm.FetchEntry | Linux-0.12/linux-0.12/mm/memory.c:146-153 | The swapped case: the old entry gets its page back, the new one keeps the slot, which stays named once. |
| PagingSupply.EntryQuiet | Linux-0.12/linux-0.12/mm/memory.c:143-161 | One entry goes through with nothing taken out exactly if it is not swapped out or a page is free; a swapped one then uses one free page, others none. |
| Paging.Mm.CopyTable | Linux-0.12/linux-0.12/mm/memory.c:141-162 | The inner loop copies the first nr pages, exactly if the pages for its swapped entries can be had as it meets them; with no eviction the view is the eager copy. |
| PagingSupply.TableQuiet | Linux-0.12/linux-0.12/mm/memory.c:141-162 | The loop goes through with nothing taken out exactly if there is a free page for each entry that is swapped out. |
| Paging.Mm.CopyPageTables | Linux-0.12/linux-0.12/mm/memory.c:118-166 | Success, a table already there, or out of memory: which of them is computed from the tables and the cursor before the call. Success with no eviction: the view is the old one with every page of the range copied (160 pages per table from address 0). Out of memory only with no page free. On every path, partial failure included, the invariant holds and everything outside the target range is kept. |
| PagingSupply.CopyQuiet | Linux-0.12/linux-0.12/mm/memory.c:118-166 | A copy goes through with nothing taken out exactly if the free pages cover one page for each table and one for each swapped entry of the range; it uses exactly those. With fewer, something is taken out or it is out of memory. |
| PagingRun.Fork | Linux-0.12/linux-0.12/kernel/fork.c:39-61 | copy_mem: the eager copy, or, when memory runs out, everything as before (up to pages taken out). From the state before the call: it succeeds exactly if the pages it asks for, one for each new table and one for each entry that is swapped out when its turn comes, can be had one after the other with the swap-outs that get_free_page makes; and with nothing taken out exactly if as many are free. |
| PagingRun.WriteVerify | Linux-0.12/linux-0.12/mm/memory.c:274-285 | A protected page becomes the caller's own, exactly if it is not shared or a page is to be had; the counts are lost under the exact condition of un_wp_page. |
| PagingRun.Store | Linux-0.12/linux-0.12/mm/memory.c:254-285 | A user write with its faults comes through exactly if the page exists and, where it must be read back or copied, a page is to be had; it changes that page for that process only; the counts are lost under the exact condition of un_wp_page. |
| PagingRun.NoPage | Linux-0.12/linux-0.12/mm/memory.c:381-441 | A missing page gets its old contents from swap, zeroes, a shared page or the file contents, exactly if the pages for it can be had: one if there is no table, and one unless it is shared; the counts are lost exactly if the page shared is taken out to make a table. |
| PagingRun.Step | Linux-0.12/linux-0.12/mm/memory.c:53-441 | Any operation relates the machine before it to the machine after it: exactly when it comes through, that the counts survive except exactly when the tables and the cursor before it meet the condition, and that without swap-out it acts on memory contents as its eager version, or not at all if it fails. |
| PagingRun.CountsHold | Linux-0.12/linux-0.12/mm/memory.c:53-441 | Along every run of such steps the counts hold until the first operation that meets the condition, and are lost there. |
| PagingRun.ForkIsEager | Linux-0.12/linux-0.12/mm/memory.c:118-285 | Along every run without swap-out, memory is what it would be had every fork that came through copied every page. |
| PagingRun.Run | Linux-0.12/linux-0.12/mm/memory.c:118-441 | Any list of fork, exit, stores, faults and swap-outs makes such a run from the present machine to the one it leaves, complete unless an operation loses a count. |
| PagingRun.FromBoot | Linux-0.12/linux-0.12/init/main.c:149-153 | The same from power-on, whatever the swap device holds. |
| PagingWitness.StoreLoses | Linux-0.12/linux-0.12/mm/memory.c:238-245 | A full machine, built from the boot state, in which a store takes out the very entry it copies and loses a count. |
| PagingWitness.FaultLoses | Linux-0.12/linux-0.12/mm/memory.c:331-346 | A full machine in which a page fault takes out the very entry it shares and raises a count without an entry. |
| PagingWitness.TurnMisses | Linux-0.12/linux-0.12/mm/swap.c:143-163 | A full machine with one clean page under the cursor, which can go: get_free_page fails all the same. |
| AllocatorSpec.FreedValid | xv6-read/xv6/umalloc.c:24-44 | Giving back any live block keeps: one ascending ring with a single wrap, no two free blocks overlapping or touching, live blocks apart from everything, free + live units = units from sbrk. |
| AllocatorSpec.TakenValid | xv6-read/xv6/umalloc.c:76-77 | Handing out a block that fits exactly keeps the ring in order, all blocks apart and the unit total. |
| AllocatorSpec.CutValid | xv6-read/xv6/umalloc.c:78-82 | Cutting the tail end off a block keeps the ring in order, all blocks apart and the unit total. |
| AllocatorSpec.GrownValid | xv6-read/xv6/umalloc.c:54-58 | Memory obtained from sbrk joins the live blocks without touching any other. |
| Allocator.UnitsSuffice | xv6-read/xv6/umalloc.c:69-69 | The unit count covers the request if and only if nbytes + 7 does not wrap in 32 bits; then less than one unit is wasted. |
| Allocator.FindFits | xv6-read/xv6/umalloc.c:30-32 | Every live block has a place on the ring. |
| Allocator.Arena.FindPlace | xv6-read/xv6/umalloc.c:30-32 | The search ends, wherever it starts, at the block after which the freed one belongs. |
| Allocator.Arena.Merge | xv6-read/xv6/umalloc.c:33-43 | The two merging tests and the relinking give the prescribed ring. |
| Allocator.Arena.Free | xv6-read/xv6/umalloc.c:24-44 | Everything stays in order, no other live block is touched, and the freed block lies inside one free block next to the new freep. |
| Allocator.Arena.Sbrk | xv6-read/xv6/proc.c:155-175 | Growth by n, refusal, or what a zero or negative n does, with the exact result and new size in each case. |
| Allocator.Arena.Morecore | xv6-read/xv6/umalloc.c:46-61 | A ring block of at least n units next to freep, or nothing exactly if sbrk refuses; a header for memory that was not obtained exactly if n is 2^28 or more and sbrk does not turn down the negative size this comes to, which it does only if nothing would be left. |
| Allocator.Arena.Search | xv6-read/xv6/umalloc.c:74-89 | The search ends: one turn of the ring passes no block that fits, then at most one call of morecore, after which a block that fits is reached. |
| Allocator.Arena.TakeBlock | xv6-read/xv6/umalloc.c:75-84 | The block or its tail end becomes live with exactly the requested units. |
| Allocator.Arena.Malloc | xv6-read/xv6/umalloc.c:63-90 | A new live block of the requested units apart from all others; nothing exactly if no free block is large enough and sbrk refuses, or the request is of 2^28 units or more and sbrk turns it down; memory that is not there exactly for the other requests of 2^28 units or more. |
| Allocator.Arena.Serve | xv6-read/xv6/umalloc.c:24-90 | One request: a block of the size asked for more, exactly if a free block is large enough or the system gives memory; the block given back less; all others keep place and size. |
| Allocator.Arena.HalfOfMemory | xv6-read/xv6/umalloc.c:48-56 | malloc(0x7ffffff1), the smallest request of 2^28 units, always yields a header for memory that was not obtained. |
| Allocator.Arena.Session | xv6-read/xv6/umalloc.c:24-90 | Over any sequence of malloc and free of live blocks, up to a request of 2^28 units or more, every request is served, the whole invariant holds and no unit is lost. |
| SleepWakeup.NextInv | xv6-read/xv6/proc.c:417-474 | Every step of any process in sleep, wakeup, the scheduler or the critical sections keeps the invariant: who marks itself or sleeps on a true condition has a wakeup promised by a holder of the channel's lock. |
| SleepWakeup.NoLostWakeup | xv6-read/xv6/proc.c:417-474 | For any number of processes, locks and channels and any interleaving: a process asleep on a true condition with both locks free exists only if somebody dropped the lock owing the wakeup. |
| SleepWakeup.DisciplineSuffices | xv6-read/xv6/proc.c:425-437 | If every owed wakeup is made before the lock is dropped, nobody is ever stranded. |
| SleepWakeup.DisciplineNeeded | xv6-read/xv6/proc.c:467-474 | And it is needed: for every protocol and every change of the data that makes a condition true, there is a run from the initial state in which the lock is dropped owing the wakeup and a sleeper is stranded. |
| SleepLock.DoAllowed | xv6-read/xv6/sleeplock.c:22-42 | The code of acquiresleep and releasesleep follows the wakeup discipline in every reachable state. |
| SleepLock.MovedInv | xv6-read/xv6/sleeplock.c:22-42 | Every step keeps the invariant that the lock record tells who has the lock. |
| SleepLock.MutualExclusion | xv6-read/xv6/sleeplock.c:22-53 | In every run at most one process has a sleep-lock, and holdingsleep is true exactly for that process. |
| SleepLock.CallsHold | xv6-read/xv6/sleeplock.c:22-53 | In every run, outside its calls, a process has exactly the locks for which its acquiresleep has returned and no releasesleep since: these are the locks whose record names it. |
| SleepLock.NoStrandedWaiter | xv6-read/xv6/sleeplock.c:22-42 | Whenever the spinlock and the table lock are free, a process asleep on a sleep-lock waits for another process that has it. |
| WaitExit.Table.Wakeup1 | xv6-read/xv6/proc.c:454-465 | The runnable processes afterwards are those that were and the sleepers on the channel; nobody sleeps on it any more, and on every other channel the same processes sleep as before. |
| WaitExit.Table.PassChildren | xv6-read/xv6/proc.c:255-262 | All children go to init, which is woken exactly if one of them is a zombie. |
| WaitExit.Table.Exit | xv6-read/xv6/proc.c:227-268 | The whole new table; refused exactly for init. |
| WaitExit.Table.Wait | xv6-read/xv6/proc.c:270-312 | Reaps the first zombie child if there is one; returns without waiting exactly if there is no child or the caller is killed; otherwise sleeps on itself. |
| WaitExit.NextInv | xv6-read/xv6/proc.c:180-312 | Every step of fork (its unlocked parts included), exit, wait, kill, sleep, wakeup and the scheduler keeps the process-table invariant. |
| WaitExit.NoZombieMissed | xv6-read/xv6/proc.c:227-312 | In every state of every run a zombie has a living parent, and that parent is not asleep in wait(). |
| PipeSpec.Occupancy | xv6-read/xv6/pipe.c:85-85 | The full and empty tests on the 32-bit counters are right however often they have wrapped. |
| PipeSpec.WrapCell | xv6-read/xv6/pipe.c:93-93 | A wrapped counter names the same cell of the buffer. |
| PipeSpec.PutOk | xv6-read/xv6/pipe.c:93-93 | Storing a byte keeps the buffer equal to the bytes stored and not yet taken. |
| PipeSpec.GetOk | xv6-read/xv6/pipe.c:114-116 | What comes out is the oldest byte inside. |
| PipeBuffer.Buffer.CopyIn | xv6-read/xv6/pipe.c:84-94 | Stores the bytes in order until they run out or the buffer is full: one Put after the other. |
| PipeBuffer.Buffer.CopyOut | xv6-read/xv6/pipe.c:113-117 | Takes the oldest bytes in order, at most n, stopping only when the buffer is empty: one Get after the other. |
| PipeMachine.DoAllowed | xv6-read/xv6/pipe.c:59-121 | In every reachable state the next statement of pipewrite, piperead and pipeclose follows the sleep/wakeup protocol. |
| PipeMachine.MovedInv | xv6-read/xv6/pipe.c:59-121 | Every step of any number of readers, writers and closers keeps the pipe's invariant. |
| PipeMachine.ReadsAreAPrefix | xv6-read/xv6/pipe.c:59-121 | In every run the bytes read are a prefix of the bytes written, in order, at most PIPESIZE behind. |
| PipeCalls.WriteBurst | xv6-read/xv6/pipe.c:84-94 | While there is room, i statements of a writer in the machine do to the pipe what the copying loop does with the next i bytes of its argument. |
| PipeCalls.ReadBurst | xv6-read/xv6/pipe.c:113-117 | So for a reader and the copying loop of piperead. |
| PipeCalls.SleepsExactly | xv6-read/xv6/pipe.c:85-111 | A reader goes to sleep exactly at an empty pipe whose writer is there, a writer turns to it exactly at a full pipe whose reader is there, neither if killed; nobody goes to sleep otherwise. |
| PipeCalls.MineGoing | xv6-read/xv6/pipe.c:77-121 | Each statement of a call keeps this: what a write has stored so far followed by what it still has to store is its argument; what a read has taken stands together at the end of what was taken, and with what it may still take makes up n. A call that returns has finished as CallsFromStart says. |
| PipeCalls.Theirs | xv6-read/xv6/pipe.c:77-121 | No statement of another process disturbs that, whatever it stores, takes or closes. |
| PipeCalls.CallsFromStart | xv6-read/xv6/pipe.c:77-121 | In every run, for every call of every process: a write returns n only with all bytes of its argument stored in order, and -1 only with the first few stored, before a full pipe, killed or without readers; a read returns bytes that stand together in the stream, at most n, fewer only if the pipe ran empty, none (for n > 0) only if also nobody is there to write, and -1 only if killed before an empty pipe. |
| PipeCalls.CallsMerge | xv6-read/xv6/pipe.c:77-121 | In every run the stream is a merge of the writes: the bytes each process added are those of its calls, one after the other; so for the bytes taken and the reads. |
| PipeCalls.SoleHistory | xv6-read/xv6/pipe.c:77-121 | With one writer the stream is the bytes of its writes one after the other, with one reader what was taken is the bytes of its reads. |
| PipeCalls.EndToEnd | xv6-read/xv6/pipe.c:77-121 | From an empty pipe with one writer and one reader, in every run: what the reads returned, put together, is the beginning of what the writes stored, which is their arguments put together if none was cut short. |
| PipeMachine.LostExactly | xv6-read/xv6/pipe.c:84-96 | One step leaves a wakeup of the readers outstanding exactly if it is the early return of a writer that has stored bytes since it last woke them, or one was outstanding and the step is no scan of their channel; no other wakeup is ever lost. |
| PipeMachine.LostInRuns | xv6-read/xv6/pipe.c:84-96 | Over a whole run a wakeup is outstanding exactly if such a return was taken and nobody has scanned the channel since. |
| PipeMachine.SleepersWait | xv6-read/xv6/pipe.c:83-120 | Whenever the locks are free a sleeping writer faces a full pipe with the reader open, and a sleeping reader an empty pipe with the writer open, unless a writer has returned early with bytes stored since its last wakeup and nobody has woken the readers since. |
| PipeMachine.EarlyReturn | xv6-read/xv6/pipe.c:85-89 | A process is stranded by that return, before a full pipe, if and only if it is a reader asleep at that moment, and the writer then had stored bytes since it last woke the readers, or another had returned so before. |
| PipeMachine.WakeupLost | xv6-read/xv6/pipe.c:85-89 | A concrete run in which a killed writer strands a reader that way. |
| VmSpec.SetUserInv | xv6-read/xv6/vm.c:73-73 | Mapping a page in hand at a free user entry keeps the partition: every managed page has exactly one use, and tables, entries and free list agree with it. |
| VmSpec.UnmapInv | xv6-read/xv6/vm.c:269-276 | Clearing a user entry leaves its page in the kernel's hand and keeps the partition of pages. |
| VmSpec.SetTableInv | xv6-read/xv6/vm.c:45-52 | Adding a page table keeps the partition of pages. |
| VmSpec.UntableInv | xv6-read/xv6/vm.c:291-296 | Freeing a table without user pages keeps the partition of pages. |
| VmSpec.DropDirInv | xv6-read/xv6/vm.c:297-297 | Freeing an empty directory keeps the partition of pages. |
| VmSpec.KinitInv | xv6-read/xv6/kalloc.c:31-53 | After kinit every managed page is on the free list once and the partition holds. |
| Vm.Kernel.Kinit | xv6-read/xv6/kalloc.c:31-53 | The initial state satisfies the invariant, with all pages from..to free. |
| Vm.Kernel.Kalloc | xv6-read/xv6/kalloc.c:79-95 | A page off the free list, or none is left. |
| Vm.Kernel.Kfree | xv6-read/xv6/kalloc.c:54-77 | The page is free again and filled with junk; panics exactly outside the managed range. |
| Vm.Kernel.Walk | xv6-read/xv6/vm.c:32-55 | Finds or makes the table; fails exactly if it is absent and may not be made or no page is free; nothing else changes. |
| Vm.Kernel.MapOne | xv6-read/xv6/vm.c:57-80 | Maps one page; a present entry is a remap panic; out of memory exactly if the table is missing and no page is free; on failure only table pages were taken. |
| Vm.Kernel.MapRange | xv6-read/xv6/vm.c:57-80 | Maps a whole kernel range, every entry right, nothing outside it; out of memory only with fewer free pages than the range needs tables, and otherwise takes exactly those. |
| Vm.DrewMore | xv6-read/xv6/vm.c:57-80 | Costs add up: tables made by one step are not paid for again by the next. |
| Vm.SkipTable | xv6-read/xv6/vm.c:266-268 | Skipping to the next directory entry when a table is absent misses no page. |
| Vm.Kernel.Deallocuvm | xv6-read/xv6/vm.c:251-279 | Frees exactly the user pages of the range, as a page-by-page scan would. |
| Vm.Kernel.Freevm | xv6-read/xv6/vm.c:281-298 | Exactly the pages the directory owns become free; every other page keeps its use and contents. |
| Vm.Kernel.Setupkvm | xv6-read/xv6/vm.c:117-136 | A directory with every kernel range mapped in full and nothing else, or every page's use as before; it fails exactly with fewer free pages than the directory and the tables of the ranges take. |
| Vm.Restored | xv6-read/xv6/vm.c:131-133 | Freeing a directory that did not exist before restores the old use of every page. |
| Vm.Kernel.Allocuvm | xv6-read/xv6/vm.c:219-249 | Zeroed pages of its own for the whole range, or no user page has changed hands; it fails exactly beyond KERNBASE or with fewer free pages than the pages and their missing tables take. |
| Vm.Kernel.Copyuvm | xv6-read/xv6/vm.c:313-345 | Equal bytes and flags through pages of its own for every page below sz, nothing else in the user half, and the kernel's half with every range of kmap in full and nothing else; or every page's use as before. Out of memory exactly if the free pages do not cover the directory, the kernel's tables, the pages before the first one missing and their tables; else the panic exactly if one is missing. |
| Vm.CopyCost | xv6-read/xv6/vm.c:313-345 | What is left after the directory and the kernel's tables covers k pages and their tables exactly if the free pages at the outset covered everything: no user page shares a table with the kernel. |
| ShellSpec.TokenMoves | xv6-read/xv6/sh.c:265-308 | Every token but the end of the line advances the cursor, which is what makes the parser terminate on every input. |
| ShellPrint.WordToken | xv6-read/xv6/sh.c:295-307 | A legal word followed by a non-word character is one token, exactly that word. |
| ShellPrint.RedirsParse | xv6-read/xv6/sh.c:374-397 | Printed redirections are read back in order. |
| ShellPrint.ArgsParse | xv6-read/xv6/sh.c:429-445 | Printed words and redirections are read back as arguments and files. |
| ShellPrint.BlockParses | xv6-read/xv6/sh.c:399-413 | A parenthesised command with redirections is read back. |
| ShellPrint.LineParses | xv6-read/xv6/sh.c:344-372 | A printed tree, ended by a parenthesis or the end of the line, is read back by parseline. |
| ShellPrint.RoundTrip | xv6-read/xv6/sh.c:327-446 | For every tree of legal words (at most MAXARGS - 1 arguments) parsing the printed text gives that tree and uses up the line. |
| ShellGrammar.SpellsLexemes | xv6-read/xv6/sh.c:262-308 | The tokens that gettoken finds spell the line: white space between them, words and >> as long as can be. |
| ShellGrammar.SpellsOnly | xv6-read/xv6/sh.c:262-308 | And no other lexemes spell it. |
| ShellGrammar.ExecSound | xv6-read/xv6/sh.c:415-446 | What parseexec passes over is words and redirections in any order, or a block, with the tree it returns: words are arguments, each redirection wraps those before it. |
| ShellGrammar.BlockSound | xv6-read/xv6/sh.c:399-413 | What parseblock passes over is a line in parentheses with redirections behind it. |
| ShellGrammar.PipeSound | xv6-read/xv6/sh.c:361-372 | What parsepipe passes over is a pipeline, nested to the right. |
| ShellGrammar.LineSound | xv6-read/xv6/sh.c:344-359 | What parseline passes over is a list of pipelines, each with any number of &, nested to the right. |
| ShellGrammar.UnitComplete | xv6-read/xv6/sh.c:399-446 | Whatever the grammar derives as a command or a block, before a symbol that can follow it, parseexec passes over with that tree. |
| ShellGrammar.PipeComplete | xv6-read/xv6/sh.c:361-372 | So for parsepipe and pipelines of any length. |
| ShellGrammar.LineComplete | xv6-read/xv6/sh.c:344-359 | So for parseline and lists of any length. |
| ShellGrammar.ParserIsGrammar | xv6-read/xv6/sh.c:265-446 | A line parses to a tree if and only if it spells lexemes from which the grammar derives that tree. |
| ShellGrammar.OneTree | xv6-read/xv6/sh.c:265-446 | The grammar is unambiguous on what a line can spell. |
| Shell.Parser.SkipSpaces | xv6-read/xv6/sh.c:272-273 | The loop stops at the first position that is no white space. |
| Shell.Parser.NextToken | xv6-read/xv6/sh.c:265-308 | The token that ShellSpec.GetToken gives, cursor after it. |
| Shell.Parser.Sees | xv6-read/xv6/sh.c:310-320 | Looks ahead without consuming. |
| Shell.Parser.Redirections | xv6-read/xv6/sh.c:374-397 | The loop gives the redirections of the recursive parser, or the panic. |
| Shell.Parser.Arguments | xv6-read/xv6/sh.c:429-446 | The loop gives the simple command of the recursive parser, or the panic. |
| Shell.Parser.Command | xv6-read/xv6/sh.c:415-446 | parseexec over the buffer gives what the recursive parser gives. |
| Shell.Parser.Block | xv6-read/xv6/sh.c:399-413 | parseblock over the buffer gives what the recursive parser gives. |
| Shell.Parser.Pipeline | xv6-read/xv6/sh.c:361-372 | parsepipe over the buffer gives what the recursive parser gives, and what it has passed over is a pipeline of the grammar with the tree it returns, nested to the right. |
| Shell.Parser.CommandLine | xv6-read/xv6/sh.c:344-359 | parseline over the buffer gives what the recursive parser gives. |
| Shell.LineWords | xv6-read/xv6/sh.c:265-446 | Every word in a parsed command is a whole word of the line. |
| Shell.ParserImage | xv6-read/xv6/sh.c:327-446 | A tree is the meaning of some line the parser accepts if and only if all its words are legal and no command has MAXARGS or more of them. |
| Shell.ParsedLegal | xv6-read/xv6/sh.c:265-446 | Every line that parses gives such a tree. |
| Shell.NulTerminate | xv6-read/xv6/sh.c:448-493 | A NUL after every word of the command and nowhere else. |
| Shell.Terminated | xv6-read/xv6/sh.c:448-493 | No terminator lands inside another word: each pointer reads exactly its token. |
| Shell.Parser.ParseCommand | xv6-read/xv6/sh.c:327-342 | The one tree that the grammar derives from the line, or a panic exactly if it derives none; afterwards every argument and file name in the buffer reads as it was written. |
| MathLimbs.ShiftLeft | Linux-0.12/linux-0.12/kernel/math/mul.c:13-20 | Twice the number modulo 2^128, exactly twice when the top bit is clear. |
| MathLimbs.ShiftRight | Linux-0.12/linux-0.12/kernel/math/div.c:22-26 | Half the number. |
| MathLimbs.TrySub | Linux-0.12/linux-0.12/kernel/math/div.c:28-38 | The difference; no final borrow exactly if it is not negative. |
| MathLimbs.Mul64 | Linux-0.12/linux-0.12/kernel/math/mul.c:22-44 | The four limbs are the exact 128-bit product. |
| MathEmu.Normalise | Linux-0.12/linux-0.12/kernel/math/mul.c:64-67 | Shifts left until the top bit is set or the exponent is zero; nothing is lost. |
| MathEmu.Fmul | Linux-0.12/linux-0.12/kernel/math/mul.c:46-73 | The high half of the product shifted left s places, exponent lowered by s: truncation by less than one unit; underflow, overflow and zero exactly as coded. A stored result is negative exactly if one of the operands is. |
| MathEmu.Multiply | Linux-0.12/linux-0.12/kernel/math/mul.c:62-72 | The high half of the 128-bit product, shifted left until its top bit is set or the exponent is used up. |
| MathEmu.NormalProduct | Linux-0.12/linux-0.12/kernel/math/mul.c:64-67 | With both top bits set there is at most one shift. |
| MathEmu.DivRound | Linux-0.12/linux-0.12/kernel/math/div.c:48-59 | One round of trial subtraction keeps dividend = remainder + 2 * divisor * quotient and the remainder bound. |
| MathEmu.Div64 | Linux-0.12/linux-0.12/kernel/math/div.c:40-61 | After 64 rounds m1 * 2^64 = remainder + 2 m q with remainder < 2 m. |
| MathEmu.QuotientIs | Linux-0.12/linux-0.12/kernel/math/div.c:40-61 | That is q = floor(m1 * 2^63 / m). |
| MathEmu.Divide | Linux-0.12/linux-0.12/kernel/math/div.c:80-90 | The divisor scaled to its top bit, the exponent following, and the quotient of the mantissas. |
| MathEmu.Finish | Linux-0.12/linux-0.12/kernel/math/div.c:91-108 | Normalisation of the quotient and the flags. |
| MathEmu.Fdiv | Linux-0.12/linux-0.12/kernel/math/div.c:63-109 | The truncated quotient with its exponent and flags in every case; a stored result is negative exactly if one of the operands is; the inexact flag PE is never raised, because nothing is ever left in the low limbs. |
| MathEmu.ExactIs | Linux-0.12/linux-0.12/kernel/math/div.c:91-108 | The result is exact if and only if the quotient of the mantissas is. |
| MathEmu.PrecisionFlag | Linux-0.12/linux-0.12/kernel/math/div.c:63-109 | For every call that stores a result the flag tells the truth if and only if no rounding is needed: the division of the mantissas leaves no remainder, or, where the exponent underflows, the dividend is zero. |
| MathEmu.OneByOneAndAHalf | Linux-0.12/linux-0.12/kernel/math/div.c:63-109 | 1.0 / 1.5: the result is not exact and no flag is raised. |
| MathEmu.TinyByHuge | Linux-0.12/linux-0.12/kernel/math/div.c:73-79 | An exponent underflow: zero is stored, which is not the quotient, no remainder is left, and PE stays clear. |
| MathEmu.NormalQuotient | Linux-0.12/linux-0.12/kernel/math/div.c:91-97 | For operands with the top bit set less than two units in the last place are lost. |
| MathEmu.NormalScale | Linux-0.12/linux-0.12/kernel/math/div.c:86-89 | Such a divisor is not scaled. |

## Left out

- The ownership map, the victim sequence, the trace of disk states and the lists of free and live blocks are ghost state; the C code has no counterpart for them.
- In the file system operations bitmap blocks and inode blocks are typed values (one boolean per bit, one record per inode) with the block number they are logged under; `FsCrash` and `FsFormat` relate them to the words on disk. Indirect blocks are bytes throughout.
- File system operations on different inodes running at the same time: each inode operation is one sequential call, as the inode lock and the log make it appear.
- Directories, path lookup, link counts, inode allocation and the inode cache.
- Device drivers: writing to a device inode is a separate result; `memide.c` is the disk.
- FsDurable.CrashedSession: operations share transactions, but each does its work on the file system in one piece, between the log_writes of the others; that operations on different inodes which interleave inside their work are equivalent to some such order is not shown. At the level of blocks LogMachine.CrashSafety covers every interleaving.
- FsDurable.LoggedSession: operations that ask for more than MAXOPBLOCKS blocks of log (one `writei` of more than a chunk, a truncation on a disk with more than nine bitmap blocks) are left out; the kernel makes no such calls on a disk of FSSIZE blocks.
- LogCache.NeverStarvesExactly: the buffers that operations read are bounded by a number of readers; that a `bread` of a file system operation itself finds a buffer is not claimed.
- Liveness and fairness: nothing is said about when a waiting process runs.
- RedoLog.Log.BeginOp: one pass of the waiting loop; the waiting itself is the sleep/wakeup machine.
- Page contents across a clean page's swap-out: the copy made by `un_wp_page` is not marked dirty, so a page changed before the processor sets the dirty bit could be dropped; contents are proved only while nothing is swapped out.
- Paging.Mm.PutPage: for a page outside mem_map the code compares a byte it does not own with 1; the model warns in any case, as the code does for such a page.
- Paging.Mm.InitSwapping: the first page of the device arrives as a sequence of bits, and the bit behind the page read, which the code looks at for devices of 128 MB or more, as a parameter.
- Disk transfers in `swap_in`, `read_swap_page`, `write_swap_page` and `bread_page` put the process to sleep; the model treats them as instantaneous, so no other process runs inside a paging operation.
- Reading program files on a page fault: the contents of the page are a parameter.
- The TLB, segment bases and privilege checks of the processor.
- Allocator.Arena.Malloc: user programs that call sbrk themselves or write outside their blocks are not modelled; after a request of 2^28 units or more nothing is claimed.
- Allocator.Arena.Session: stops at such a request if its header describes memory the process does not have.
- WaitExit.Table.Wait: freeing the child's stack and page table is not part of the table.
- A pipe that both ends have closed is freed by the code; the model keeps it.
- Vm.Kernel.Allocuvm: the range must be unmapped when it is called, which is what the code's remap panic demands.
- Vm.Kernel.MapRange: addresses are whole pages; rounding of unaligned kernel ranges is left out, since every range of `kmap` is aligned.
- The file modes that `<`, `>` and `>>` stand for are reduced to input and output, since `>` and `>>` give the same node.
- Running commands (`runcmd`) and reading the line.
- The other 387 operations, the conversion routines and the flag word.
- x86 memory ordering, context switch code, interrupts and traps, boot code, consoles, assembly lessons.
- Small user programs, the Linux buffer cache and timers.

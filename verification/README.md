# The xv6 storage stack, scheduler, memory and shell, modelled and proved

This project models the hard parts of two variants of the xv6 teaching kernel and proves what they promise.
`xv6-l` is the variant with a multi-level feedback scheduler; `xv6-o` is the stock kernel. Files that are the
same in both are cited under `xv6-l`.

Every operation that the source performs by changing state is a method with loops over arrays, sequences and
class fields, proved against a specification; the laws are lemmas about those specifications, over every
input, every run or every reachable state.

| files | what they model |
|---|---|
| `Bytes`, `Disk` | blocks, little-endian words, a disk as a block array with atomic block writes |
| `RedoLog`, `GroupCommit`, `LogBudget`, `Log` | `log.c`: the redo log under crashes, group commit as a state machine, the reservation of log space, and the code itself over the buffer cache |
| `Common` | an optional value and other small things that several modules share |
| `CacheModel`, `BufferCache` | `bio.c` over the disk of `memide.c`: the cache as a machine, and the linked ring itself |
| `FsModel`, `FsData`, `FsRoom`, `Fs` | `fs.c` and `filewrite`: bitmap, inodes, direct and indirect blocks, files as byte sequences, and the blocks that a read or a write needs against those that are free |
| `Journal` | the file system over the log: what whole operations leave on the disk after a crash, and a crash during `filewrite` |
| `MkfsModel`, `MkfsFiles`, `Mkfs` | `mkfs.c` from beginning to end, and the image it leaves |
| `DirModel`, `Directory` | names and directories on top of that file system |
| `MlfqModel`, `Mlfq` | the feedback queues of `xv6-l/proc.c` and the timer branch of `trap.c` |
| `SleepLock`, `ExitWaitModel`, `ExitWait` | sleep locks as a program-counter machine; exit, wait, sleep, wakeup and kill |
| `AllocatorModel`, `Allocator` | `umalloc.c`, after section 8.7 of The C Programming Language, 2nd edition |
| `VmModel`, `Vm` | `kalloc.c` and `vm.c` on physical memory (two-level paging, section 4.3 of the Intel SDM volume 3A) |
| `PipeModel`, `Pipe` | `pipe.c` with its wrapping counters |
| `ShellModel`, `Shell` | the parser of `sh.c` |
| `ShellLexer`, `ShellGrammar`, `ShellRoundTrip` | tokens and how lines spell them, the command language as a grammar, and the parser against it |
| `Regex` | the matcher of `grep.c` |

Panics are values of a result type (`None`, `Panic`, `false`, `Remapped` and the like), and the contracts say when
they occur. A crash drops all memory between any two block writes. Spinlocks are atomic acquire and release steps;
what the source does without one is a step of its own. What sbrk answers is a parameter.

Where the code does not keep what its design suggests, the model follows the code:

* `log_write` tests for room in the log before it takes `log.lock`, so several operations can be past the test
  together. `LogBudget.BudgetIsEnoughExactly`: when operations keep to their budget, every append finds room, and with
  it all the guarantees of group commit, if and only if the on-disk log is longer than LOGSIZE. mkfs makes it LOGSIZE
  blocks long. `LogBudget.BudgetIsNotEnough` is what can happen then: two operations pass the test, the group has one
  block more than the log has slots, and its commit writes the last one over the home block after the log, where a
  crash leaves it although nothing was committed. `GroupCommit.OneAtATimeIsSafe`: with one operation past the test at
  a time, every append finds room, whatever the length of the log.
* `LogBudget.CheckPanics`: operations that keep to their budget can also reach the panic "too big a transaction",
  exactly when `log.lh.n` has reached LOGSIZE or the on-disk log less one. There are two ways there.
  `LogBudget.BudgetedRunPanics`: the on-disk log of mkfs is one block shorter than the reservation of `begin_op`
  needs. `LogBudget.AbsorbedWritePanics`: with any longer log too, because `log_write` tests for room before it looks
  whether the block is logged already.
* `Log.Log.Commit`: commit panics in `bget` if and only if the blocks of the group and the buffers that other
  processes are reading take up the whole cache. With mkfs's log the group has 29 blocks at most, and one reader is
  enough.
* `Fs.FileSystem.Writei`, `Readi` and `Directory.Dirlookup` fill holes and store no inode when they do, so an inode falls behind on
  disk exactly when a hole was a slot of its own. `Mkfs.RootFallsBehind` shows it for the root directory of an image
  that mkfs makes.
* `Vm.Machine.Copyuvm`: a copy that fails loses the page in hand exactly when it is the page table that cannot be
  had, which the number of free frames decides.
* `MlfqModel.RunnableIsQueued`: `kill` makes a sleeper RUNNABLE without queueing it; a RUNNABLE process is
  queued if and only if no sleeper was killed. `MlfqModel.SleeperKilled` is a run that kills one, from every empty
  table, and `MlfqModel.LostForever` shows that such a process never runs again.
* `AllocatorModel.EnoughSpace` and `GrowthAsked`: `malloc` returns enough space if and only if the request is at
  most 2^31 - 16 bytes; above that it asks sbrk to shrink, and above 2^32 - 8 it returns a block that is too small
  (`AllocatorModel.TooMuch` gives two such requests).
* `Mkfs.Image.FixRoot`: rounding the root directory's size up leaves a hole in it if and only if it was a whole
  number of blocks; `Mkfs.RootWithHole` builds such an image on mkfs's own layout. Reading a hole allocates a block
  (`Fs.FileSystem.Readi`), so a read, or a lookup, can panic for want of blocks.
* `MkfsFiles.RootIsDirectory`: mkfs does not look whether a name is there already; the root directory is one if
  and only if no name, without its leading underscore and cut to 14 bytes, is entered twice.
* `sh.c` opens `>>` exactly as it opens `>`, and a command has at most nine words: `parseexec` gives up when the
  tenth is recorded.

## Model

| member | source | states |
|---|---|---|
| RedoLog.HeaderRoundTrip | xv6-l/log.c:85-113 | what write_head stores in the header block is what read_head gets back, for every list of at most LOGSIZE blocks |
| RedoLog.RecoveryCrash | xv6-l/log.c:115-122 | recovery cut short after any of its block writes still recovers to the same disk |
| RedoLog.RepeatedCrashes | xv6-l/log.c:115-122 | any number of crashes inside recovery do not change what recovery finally gives |
| RedoLog.RecoveredIsClean | xv6-l/log.c:115-122 | after recovery the header lists nothing, and recovering again writes what is there |
| RedoLog.CommitPoint | xv6-l/log.c:98-113 | when write_head completes the whole group is committed, and no home block has changed yet |
| RedoLog.CommitTailIsRecovery | xv6-l/log.c:192-202 | what is left of a commit after its header write is exactly a recovery |
| RedoLog.CommitMeaning | xv6-l/log.c:176-202 | a commit cut after k writes recovers to the old home blocks up to the header write and to the new ones from it on |
| RedoLog.CommitClears | xv6-l/log.c:192-202 | a finished commit leaves a clear header |
| RedoLog.CrashAtomicity | xv6-l/log.c:68-122 | for every set of distinct logged blocks outside the log, every crash point in commit and any number of crashes in recovery, the home blocks end up all old or all new, all new from the first write_head on, and the log is empty |
| GroupCommit.StepInv | xv6-l/log.c:124-233 | every step of begin_op, log_write (the test, and the rest under log.lock), end_op, commit, crash and recovery keeps the invariant of the log protocol, if an append finds room |
| GroupCommit.RunInv | xv6-l/log.c:124-233 | so it holds in every reachable state of every interleaving of any number of operations in which appends find room |
| GroupCommit.StepCounted | xv6-l/log.c:124-233 | in every run, with room or without, outstanding counts the open operations and end_op never finds log.committing set |
| GroupCommit.OneAtATimeIsSafe | xv6-l/log.c:213-233 | as long as no two operations are past log_write's test together, every append finds room, for every log length and whatever the operations log |
| GroupCommit.EndOpInv | xv6-l/log.c:145-163 | end_op never finds log.committing set: that panic is unreachable |
| GroupCommit.GroupCommitAtomic | xv6-l/log.c:124-233 | in runs in which appends find room: wherever the run stops and however often recovery is cut short, the recovered disk is the effect of a prefix of the logged writes, and every operation is in that prefix completely or not at all |
| GroupCommit.DurableGrows | xv6-l/log.c:165-173 | committed groups are never lost or reordered |
| GroupCommit.QuiescentIsDurable | xv6-l/log.c:145-174 | in those runs outstanding counts the open operations, a commit runs only when there are none, and with none open and no commit running everything logged is durable |
| GroupCommit.HomeWriteIsLogged | xv6-l/log.c:69-82 | no home block is written before its group's header: the header on disk lists it and its log slot holds the contents |
| LogBudget.RunBudget | xv6-l/log.c:124-141 | in every run of operations that log at most MAXOPBLOCKS blocks each, in every interleaving, the blocks logged plus all unused budgets stay within LOGSIZE |
| LogBudget.CheckPanics | xv6-l/log.c:218-221 | in such a run log_write's test panics if and only if log.lh.n has reached LOGSIZE or the on-disk log less one, and with an on-disk log longer than LOGSIZE if and only if it is LOGSIZE |
| LogBudget.AppendFits | xv6-l/log.c:223-233 | what follows the test never leaves the array log.lh.block, whoever else is past the test |
| LogBudget.BudgetIsSafe | xv6-l/log.c:213-233 | with an on-disk log longer than LOGSIZE every append of a run within budget finds room, so all the guarantees of group commit hold |
| LogBudget.BudgetIsNotEnough | xv6-l/log.c:218-223 | with an on-disk log of LOGSIZE blocks or fewer, a run within budget in which two operations pass the test, the commit overwrites a home block, and a crash before the header write leaves it overwritten, for every such disk |
| LogBudget.BudgetIsEnoughExactly | xv6-l/log.c:124-233 | every run within budget is safe if and only if the on-disk log is longer than LOGSIZE |
| LogBudget.BudgetedRunPanics | xv6-l/log.c:218-219 | with nlog == LOGSIZE, a run within budget that panics, for every such disk |
| LogBudget.AbsorbedWritePanics | xv6-l/log.c:218-227 | with any nlog > LOGSIZE, a run within budget that panics when an operation logs again a block that it has logged already, for every such disk |
| CacheModel.NextInv | xv6-l/bio.c:61-141 | every step keeps: the ring is a permutation of all buffers, no block of a real device is cached twice, a valid clean unlocked buffer equals its disk block |
| CacheModel.NextView | xv6-l/bio.c:61-141 | hits, recycling, reads, pins, disk writes and releases change no block's contents; a holder's change sets its own |
| CacheModel.NeverRecycled | xv6-l/bio.c:78-91 | a buffer that is held, waited for, about to be let go or pinned keeps its block |
| CacheModel.PickFinds | xv6-l/bio.c:68-92 | bget finds a buffer for every pinned block, and for any block as long as pinned blocks and buffers that others hold are together fewer than NBUF |
| CacheModel.PickFails | xv6-l/bio.c:78-92 | with as many as NBUF it finds none for a block that is in none of them |
| CacheModel.CacheRefines | xv6-l/bio.c:61-141 | in every reachable state every block reads as the last change made to it: the cache refines a plain block array |
| CacheModel.ReadsLastChange | xv6-l/bio.c:95-106 | so a buffer that bread returns carries the last change to its block |
| CacheModel.UnpinnedIsOnDisk | xv6-l/bio.c:108-116 | with nothing locked, a block that is not pinned is on disk as it reads |
| CacheModel.RingByRecency | xv6-l/bio.c:128-137 | in every run the ring goes from the buffer whose last reference was dropped last to the one whose was dropped longest ago, with those never used behind them as binit put them |
| CacheModel.RecyclesOldest | xv6-l/bio.c:66-92 | in every run bget takes a buffer that has the block, else, of the buffers without references or unwritten changes, the one whose last reference was dropped longest ago; it finds none only when there is neither |
| BufferCache.BufferCache.constructor | xv6-l/bio.c:38-56 | binit links all NBUF buffers into one ring |
| BufferCache.BufferCache.FindCached | xv6-l/bio.c:68-76 | the walk along next finds the first buffer in the ring with the block |
| BufferCache.BufferCache.FindUnused | xv6-l/bio.c:78-92 | the walk along prev finds the last buffer of the ring that is neither held nor dirty |
| BufferCache.BufferCache.Bget | xv6-l/bio.c:61-93 | the buffer that CacheModel.RecyclesOldest describes, with one reference more if it has the block, else with the block, one reference, and no contents, and no other buffer changed; a panic exactly when no buffer can be recycled |
| BufferCache.BufferCache.Iderw | xv6-l/memide.c:39-60 | the disk transfer and each of its panics |
| BufferCache.BufferCache.Bread | xv6-l/bio.c:95-106 | the buffer that bget picks, locked, valid and with the block's current contents and one reference more; a panic exactly when bget picks none or the block is not on the disk; nothing is written |
| BufferCache.BufferCache.Bwrite | xv6-l/bio.c:108-116 | one disk write of the buffer's contents, which unpins the block, or the panic exactly when the buffer is not locked |
| BufferCache.BufferCache.Brelse | xv6-l/bio.c:118-141 | the buffer is unlocked and has one reference less; with none left it comes first in the ring and the buffers that were before it move one place back, else the ring stays; no other buffer changes; the panic exactly when the buffer is not locked |
| BufferCache.LinkFront | xv6-l/bio.c:134-137 | the four pointer writes insert a buffer at the front of the doubly linked ring |
| BufferCache.Unlink | xv6-l/bio.c:132-133 | the two pointer writes cut a buffer out of it |
| Log.Log.LogWrite | xv6-l/log.c:213-233 | absorption, the pin, and exactly when log_write panics; exactly the blocks of the group stay pinned |
| Log.Log.WriteHead | xv6-l/log.c:101-113 | one block write, of the header that lists lh; a panic exactly when bget finds no buffer for it, never with fewer than NBUF pins and buffers of readers |
| Log.Log.ReadHead | xv6-l/log.c:85-96 | at boot, lh becomes the list in the header block; a panic exactly when bget finds no buffer for it, never with fewer than NBUF pins |
| Log.Log.InstallTrans | xv6-l/log.c:69-82 | each log slot is written to its home block, in order, and its pin is dropped; it cannot fail in a commit when pins and readers leave a buffer over, nor with nothing pinned |
| Log.Log.WriteLog | xv6-l/log.c:177-190 | each logged block, as cached, is written to its slot, in order; it panics if and only if the blocks of the group and the buffers of the readers are NBUF or more, before any write |
| Log.Log.Commit | xv6-l/log.c:192-202 | while other processes read other blocks, it panics if and only if the blocks of the group and their buffers are NBUF or more, before any write; otherwise the block writes made are the model's commit, in order, no buffer stays pinned and the cache equals the disk |
| Log.Log.Recover | xv6-l/log.c:115-122 | with nothing pinned it never panics, the block writes made are the model's recovery, in order, and the disk is the recovered one |
| FsModel.PutInUseAt | xv6-l/fs.c:65-70 | changing one block's bit changes no other block's |
| FsModel.WriteInodeAt | xv6-l/fs.c:227-234 | what iupdate stores is read back, and no other inode is touched |
| FsModel.AttachInode | xv6-l/fs.c:379-390 | storing a fresh block in an empty direct or indirect slot keeps block ownership, that slot the owner |
| FsModel.AttachEntry | xv6-l/fs.c:391-395 | and so does storing one in an entry of the indirect block |
| FsData.OwnedExactlyOnce | xv6-l/fs.c:56-96 | a bitmap bit is set if and only if the block is metadata or sits in some address slot, and no block sits in two |
| FsData.FreePlusOwned | xv6-l/fs.c:56-96 | free and owned blocks together are always all the data blocks |
| FsData.ContentAfter | xv6-l/fs.c:482-512 | after a write, the file is its old bytes with [off, off + n) replaced and grown as needed, and every other file has its old bytes |
| FsData.OverwrittenTwice | xv6-l/fs.c:499-505 | writing two adjoining pieces is writing both at once |
| FsRoom.RoomIsFree | xv6-l/fs.c:56-78 | the free blocks are the data blocks less the owned ones |
| FsRoom.NeedSplit | xv6-l/fs.c:373-401 | two passes of bmap over a file, one after the other, need together the blocks that one pass over both ranges needs |
| FsRoom.NeedBelowSize | xv6-l/fs.c:373-401 | a pass below the size of a file without holes needs none |
| FsData.ChunkBudget | xv6-l/file.c:132-138 | a filewrite chunk logs at most 10 distinct blocks: 4 data, 4 bitmap, the indirect and the inode block; 11 if it begins inside a hole |
| FsData.TruncKeepsFiles | xv6-l/fs.c:408-436 | truncating one file leaves the bytes of every other |
| Fs.FileSystem.FindFree | xv6-l/fs.c:63-77 | the lowest block whose bit is clear, or that there is none |
| Fs.FileSystem.Balloc | xv6-l/fs.c:56-78 | that block marked and zeroed, and nothing else changed; the panic exactly when all are in use; every block that differs since the operation began is among those logged |
| Fs.FileSystem.Bfree | xv6-l/fs.c:81-96 | the bit cleared, or the panic exactly when it was clear |
| Fs.FileSystem.Iupdate | xv6-l/fs.c:221-237 | the on-disk inode becomes the in-memory one; no other inode, address or byte of data changes; every block changed is logged |
| Fs.FileSystem.Bmap | xv6-l/fs.c:373-401 | the block's address, allocating exactly what is missing of the block and the indirect block; a panic if and only if the number is out of range or fewer blocks are free than that; the ownership invariant holds, only this inode's empty slots fill, and every block changed is logged |
| Fs.FileSystem.Writei | xv6-l/fs.c:482-512 | the error cases; a panic if and only if the missing blocks of the range, with the indirect block, outnumber the free ones; otherwise exactly the bytes [off, off + n) of this file change and its size becomes the maximum; a file without holes stays without; a file that grew is on disk, and one that did not stays so if and only if the range had no empty slot of the inode itself; no other inode falls behind; every block changed is logged, at most 10 in a chunk, 11 if it begins inside a hole |
| Fs.FileSystem.Readi | xv6-l/fs.c:453-477 | the error cases; a panic if and only if the holes in the range, with the indirect block, outnumber the free blocks; otherwise exactly the bytes of the file that the request covers, every file as it was, the inode still on disk if and only if the range had no empty slot of the inode itself, and without holes nothing changed at all |
| FsRoom.BehindExactly | xv6-l/fs.c:373-401 | filling the missing blocks of a range leaves an inode as it is on disk if and only if none of them is a direct slot or the indirect block |
| FsRoom.TrackedConfined | xv6-l/log.c:204-212 | what an operation has changed is what its log_writes say, so every block that differs is logged |
| Fs.FileSystem.WriteThenRead | xv6-l/fs.c:453-512 | readi of the range that writei has written gives the bytes written, holes or not |
| Fs.FileSystem.Itrunc | xv6-l/fs.c:408-436 | exactly this inode's blocks are freed, "freeing free block" is never reached, no other file is touched, the inode on disk is up to date, and every block changed is logged |
| Fs.FileSystem.Filewrite | xv6-l/file.c:131-159 | all of src is written, or whole chunks of it and -1, exactly when the source's limits say so; a panic if and only if the bytes to be written need more blocks than are free; the blocks afterwards are those before with the log_writes of its operations applied in order, each operation with at most 10 distinct blocks (11 for the first if it begins inside a hole); after each operation the blocks alone are a sound file system with the file written as far as the chunks before |
| Journal.RecoveredIsOps | xv6-l/log.c:124-233 | when operations log one after the other, the recovered disk is the base disk after exactly the durable operations, each with all of its log_writes |
| Journal.RecoveredIsGood | xv6-l/log.c:124-233 | whatever holds of the base disk and is kept by every operation that ended holds of the recovered disk, for every crash and every crash of recovery |
| Journal.RecoveredIsConsistent | xv6-l/log.c:9-22 | so if every operation keeps the file system sound, with the inodes as they are on disk, the recovered disk is a sound file system |
| Journal.SameSystem | xv6-l/fs.h:8-20 | blocks of the log are not part of the file system: disks that differ there only have the same inodes and files |
| Journal.DurableIsPrefix | xv6-l/log.c:145-174 | before the first crash the durable operations are the first ones |
| Journal.CrashDuring | xv6-l/file.c:131-159 | at any point of any run of such operations, a crash leaves some first number of them, whole |
| Journal.FilewriteSurvives | xv6-l/file.c:131-159 | a crash at any point of filewrite, in every run of its operations and however often recovery is cut short, leaves a sound file system in which the file is written as far as some number of whole chunks and every other file is as it was |
| MkfsModel.NeedIsBlocks | xv6-l/mkfs.c:268-294 | what an append needs is the difference of the blocks that the two file sizes take, the indirect block included |
| Mkfs.Image.constructor | xv6-l/mkfs.c:108-115 | the zeroed image satisfies the building invariant |
| Mkfs.Image.Ialloc | xv6-l/mkfs.c:223-235 | the next inode, written, with no blocks, every file as it was; none exactly when all are taken |
| Mkfs.Image.Iappend | xv6-l/mkfs.c:255-297 | the file is its old bytes and then the data, with exactly the blocks its size takes, each owned once, and no other file changes; it fails if and only if the file would be too large or the image too small |
| Mkfs.Image.CopyFile | xv6-l/mkfs.c:152-153 | appending a file's bytes block by block is appending them all, and fails exactly when that would |
| Mkfs.Image.FixRoot | xv6-l/mkfs.c:158-163 | the root directory has no hole afterwards if and only if its size was not a multiple of the block size; no other file has one, and no byte changes |
| Mkfs.Image.Balloc | xv6-l/mkfs.c:237-251 | the finished image satisfies the file-system invariant that Fs starts from; the assertion fails if and only if the blocks used fill the bitmap block |
| Mkfs.Build | xv6-l/mkfs.c:94-168 | mkfs succeeds if and only if inodes, root directory, file sizes, blocks and bitmap block suffice; then the image satisfies the file-system invariant, every inode is on disk as it stands, every file holds its bytes and has no hole, the root directory holds its entries and then free ones, with a hole exactly when the entries fill whole blocks, and all blocks but those are free |
| Mkfs.RootWithHole | xv6-l/mkfs.c:158-163 | an image on mkfs's own layout whose root directory has a hole |
| Mkfs.RootFallsBehind | xv6-l/fs.c:453-477 | reading the root directory of that image leaves its inode on disk behind the one in memory |
| MkfsFiles.RootIsDirectory | xv6-l/mkfs.c:117-156 | the root directory of the image has no two live entries of one name if and only if no name is entered twice, and then binds exactly the files and the two dots, each to its inode |
| MkfsFiles.FileIsEntered | xv6-l/mkfs.c:138-150 | then file m is entered as inode m + 2 under its own name, less the underscore that it may begin with, and the directory has these names and the two dots and no others |
| Directory.Strncmp | xv6-l/string.c:58-66 | zero if and only if the two names are equal up to their first NUL or n bytes, that is, differ at no place among the first n before which both are equal and go on; else the difference of the bytes there |
| Directory.Strncpy | xv6-l/string.c:68-79 | the bytes of the name up to its end, then NULs up to n, and nothing beyond n written |
| DirModel.BindingsAre | xv6-l/fs.c:534-546 | with no two live entries of one name, a name is bound if and only if some live entry has it, and to that entry's number |
| DirModel.LinkAdds | xv6-l/fs.c:573-576 | setting a free entry to an unbound name adds that binding and no other |
| DirModel.UnlinkRemoves | xv6-l/sysfile.c:225-227 | zeroing an entry removes its binding and no other |
| Directory.Dirlookup | xv6-l/fs.c:525-549 | the first live entry of that name, or none, which agrees with the map if names are unique; a panic if and only if it is no directory, the holes up to that entry need more blocks than are free, or its end is no whole entry; no file changes, and its inode stays on disk if and only if no hole was a slot of its own |
| Directory.Dirlink | xv6-l/fs.c:552-579 | fails if and only if a live entry has the name; otherwise it sets exactly the first free entry or a new one, which with unique names adds exactly that binding, and changes no other file; a panic if and only if it is no directory or not of whole entries, there is no space at the end, or the holes and the new block need more blocks than are free |
| Directory.ClearEntry | xv6-l/sysfile.c:225-227 | the writei of unlink never panics, hole or not, clears exactly the entry, with unique names removes exactly its binding, and changes no other file |
| MlfqModel.DoInv | xv6-l/proc.c:71-87 | every step keeps: a queued process is RUNNABLE, in one queue once, at the level of its priority, with a full quantum |
| MlfqModel.RunInv | xv6-l/proc.c:71-87 | so in every run |
| MlfqModel.NothingStale | xv6-l/proc.c:448-452 | the scheduler's skip loop never fires |
| MlfqModel.DispatchIsFifo | xv6-l/proc.c:444-475 | the process dispatched is the front of the highest non-empty level, and nothing else changes |
| MlfqModel.RunnableIsQueued | xv6-l/proc.c:622-639 | in every run, all RUNNABLE processes are queued if and only if no sleeper was killed |
| MlfqModel.LostForever | xv6-l/proc.c:631-632 | a process that kill took out of its sleep stays RUNNABLE and unqueued for ever |
| MlfqModel.SleeperKilled | xv6-l/proc.c:622-639 | from every empty table, a run in which kill does that to a process |
| MlfqModel.BoundedWaiting | xv6-l/proc.c:428-480 | on one CPU with dispatches and yields only, a queued process is dispatched within (sum of priorities) + (number queued) dispatches |
| MlfqModel.QuantumExact | xv6-l/trap.c:106-115 | a process dispatched at priority k whose ticks come one after the other keeps the CPU for exactly 2^(NPROCQ-1-k) of them, the counter never wraps, and the last tick demotes it one level |
| MlfqModel.SliceInRun | xv6-l/trap.c:106-115 | in every run, with other CPUs' steps in between, a process that has run since its dispatch has the quantum of its priority less its ticks since then |
| MlfqModel.QuantumInRun | xv6-l/trap.c:106-115 | so its ticks take the CPU from it exactly when they are as many as the quantum, and put it at the back of the queue one level down |
| MlfqModel.DispatchedWithQuantum | xv6-l/proc.c:85 | every process is dispatched with its whole quantum |
| MlfqModel.WakeMeans | xv6-l/proc.c:591-607 | what the table is after wakeup1 has passed n processes, from the table before it: state, priority, slice and queues |
| MlfqModel.NoMissedWakeup | xv6-l/proc.c:552-607 | in every run a process is asleep if and only if it went to sleep, and since then nobody has woken its channel and nobody has killed it |
| Mlfq.ProcTable.Qpush | xv6-l/proc.c:71-87 | the pointer writes append the process to its level's chain: following next from head for count steps still visits distinct processes and ends at last |
| Mlfq.ProcTable.Start | xv6-l/proc.c:277-282 | the end of fork: the process becomes RUNNABLE and goes to the back of the queue of its priority, with a whole quantum, and no other changes |
| Mlfq.ProcTable.Yield | xv6-l/proc.c:511-526 | the process becomes RUNNABLE one priority lower, if there is one, and goes to the back of that queue with its whole quantum; no other changes |
| Mlfq.ProcTable.Tick | xv6-l/trap.c:106-115 | the timer branch, with the unsigned counter |
| Mlfq.ProcTable.Wakeup1 | xv6-l/proc.c:591-607 | said of the old table: exactly the processes asleep on the channel become RUNNABLE, one priority higher up to the highest, with a whole quantum; each queue is the old one and then those woken into it, in table order; all else is as before |
| Mlfq.ProcTable.SkipStale | xv6-l/proc.c:448-452 | the skip loop drops exactly the leading processes that are not RUNNABLE |
| Mlfq.ProcTable.Scheduler | xv6-l/proc.c:444-477 | the scan over the levels, on the linked queues, is the model's dispatch |
| SleepLock.StepInv | xv6-l/sleeplock.c:22-42 | every step of acquiresleep, sleep, releasesleep, wakeup and yield, under any interleaving, keeps the lock invariant |
| SleepLock.DisturbInv | xv6-l/sleeplock.c:22-42 | and so does a timer interrupt wherever no spinlock is held, a kill, and a sleep elsewhere |
| SleepLock.MutualExclusion | xv6-l/sleeplock.c:22-42 | in every reachable state at most one process holds the sleep lock, and lk->pid names it |
| SleepLock.NoLostWakeup | xv6-o/proc.c:418-475 | whenever the sleep lock's spinlock is free, a process asleep on it means that another process holds the sleep lock and has its wakeup still to do |
| ExitWaitModel.DoInv | xv6-o/proc.c:227-311 | every step keeps: parents are alive, free slots have none, a process asleep in wait has a live child and no zombie child |
| ExitWaitModel.NoZombieWaits | xv6-o/proc.c:272-312 | in every run, a process asleep in wait has no zombie child, its own or passed on to it, and has a live one |
| ExitWaitModel.ZombieHasParent | xv6-o/proc.c:250-266 | every zombie has a live parent that is not asleep in wait |
| ExitWaitModel.ReapedOnce | xv6-o/proc.c:283-299 | a slot's exits are its reapings, plus one while it holds a zombie: each zombie is reaped once |
| ExitWaitModel.ZombieChanges | xv6-o/proc.c:287-299 | a slot becomes a zombie only by its own exit and stops being one only by its current parent's wait |
| ExitWaitModel.KilledIsAwake | xv6-o/proc.c:304-311 | in every run no killed process is asleep in wait, and a killed process that calls wait does not go to sleep |
| ExitWait.ProcTable.Wakeup1 | xv6-o/proc.c:458-466 | the loop wakes exactly the sleepers on the channel |
| ExitWait.ProcTable.Exit | xv6-o/proc.c:227-266 | said of the old table: every child passes to init, the process becomes a zombie, and exactly those asleep on the parent, or on init if a zombie was passed on, become RUNNABLE; the panic exactly when init exits |
| ExitWait.ProcTable.Wait | xv6-o/proc.c:280-311 | said of the old table: the first zombie child is freed; without one it fails, changing nothing, exactly when there are no children or the process was killed, and otherwise the process sleeps on itself |
| AllocatorModel.EnoughSpace | xv6-l/umalloc.c:69 | the block holds the request, with less than a header to spare, if and only if the rounding did not wrap |
| AllocatorModel.GrowthAsked | xv6-l/umalloc.c:52-54 | sbrk is asked to grow, by exactly the units needed, if and only if the request is at most 2^31 - 16 or wraps |
| AllocatorModel.CycleAscends | xv6-l/umalloc.c:30-32 | following ptr from base visits free blocks in ascending order |
| AllocatorModel.CycleCloses | xv6-l/umalloc.c:30-32 | and is back at base after one step per free block |
| AllocatorModel.Visit | xv6-l/umalloc.c:30-32 | and visits every free block on the way |
| AllocatorModel.Disjoint | xv6-l/umalloc.c:24-90 | no two blocks, free or live, overlap |
| AllocatorModel.Conservation | xv6-l/umalloc.c:24-90 | free units plus live units are the units obtained from sbrk |
| AllocatorModel.FreeInv | xv6-l/umalloc.c:33-43 | inserting and merging both ways keeps the list sorted, disjoint and without touching blocks |
| Allocator.PayloadIsFree | xv6-l/umalloc.c:84 | whatever a program stores in its blocks, the heap stays valid |
| Allocator.Allocator.Store | xv6-l/umalloc.c:84 | a program storing past the header of a block it was given keeps the heap valid, with the same blocks |
| Allocator.Allocator.FindPlace | xv6-l/umalloc.c:30-32 | free's search ends, at the free block that precedes the one being freed |
| Allocator.Allocator.Free | xv6-l/umalloc.c:24-44 | the heap stays valid, exactly this block stops being live, its units join one free block, and no other live block's memory changes |
| Allocator.Allocator.Morecore | xv6-l/umalloc.c:46-61 | the region is added and free, in freep's block or the next; failure changes nothing |
| Allocator.Allocator.FindFit | xv6-l/umalloc.c:74-86 | malloc's walk ends, at a block that is large enough, or at freep when none is |
| Allocator.Allocator.Malloc | xv6-l/umalloc.c:63-90 | a new live block of the units asked for, disjoint from all others, with no other live memory changed; memory is asked for only when nothing fits, and null means that and that sbrk refused |
| VmModel.Isolation | xv6-o/vm.c:35-80 | no two user pages, of one address space or two, share a frame |
| VmModel.EntryLookup | xv6-o/vm.c:54-73 | writing a page's entry changes that page's mapping and no other, in any address space |
| VmModel.Conserved | xv6-o/vm.c:221-249 | the free frames and the page tables of a directory together are as many as before when no page of it stays |
| Vm.Machine.constructor | xv6-o/kalloc.c:46-53 | freerange puts every frame of the range on the free list once |
| Vm.Machine.Kalloc | xv6-o/kalloc.c:82-95 | the head of the free list, or none exactly when it is empty |
| Vm.Machine.Kfree | xv6-o/kalloc.c:59-77 | the frame is junked and free |
| Vm.Machine.Walkpgdir | xv6-o/vm.c:35-55 | the page table for the page; a new one changes no mapping; none exactly when it is missing and cannot be made |
| VmModel.NeedIs | xv6-o/vm.c:60-80 | mapping pages one after the other takes one frame for each page and one for each page table that is missing |
| Vm.Machine.Mappage | xv6-o/vm.c:60-80 | the page is mapped to the frame with the flags, and nothing else changes; it fails if and only if the page table is missing and no frame is free, and panics if and only if the page is mapped already |
| Vm.Machine.Allocuvm | xv6-o/vm.c:221-249 | up to the first page of [PGROUNDUP(oldsz), newsz) that is mapped, each page takes a frame and each missing page table one more: with frames enough, exactly the zeroed fresh pages are added and exactly those frames taken, or it panics at the page that is mapped; with fewer, the range is empty again, and if none of it was mapped every user map is as it was and every frame that was free is free or a page table made |
| Vm.Machine.Deallocuvm | xv6-o/vm.c:255-279 | exactly the pages of the range go and exactly their frames become free, whole missing page tables skipped or not |
| Vm.Machine.Freevm | xv6-o/vm.c:283-298 | every user page, page table and the directory becomes free, each once, and no other address space changes |
| Vm.Machine.Setupkvm | xv6-o/vm.c:105-137 | a fresh directory with no user page, where the page walk takes every page of kmap's four rows to its own place in the row, present and with exactly the row's permission, and no other page of the kernel half has a page table; it takes the directory and a frame for each of the 64 page tables, and fails if and only if fewer are free, giving everything back |
| Vm.Machine.KernelEverywhere | xv6-o/vm.c:103-116 | kmap's mappings are in every address space that setupkvm has made and freevm has not taken apart, whatever allocuvm, deallocuvm, copyuvm and freevm do to it and to others |
| VmModel.RowEntry | xv6-o/vm.c:110-115 | the page tables that the model fills, their entries and permissions are those of kmap's rows, wherever the linker puts the kernel's data |
| Vm.Machine.Copyuvm | xv6-o/vm.c:315-343 | with frames enough for the directory, the kernel's page tables, and the pages and page tables up to the first missing page, a copy with the same pages, equal contents and flags in frames of its own, and nothing else changed, or the panic at the missing page; with fewer it fails and leaves every address space and frame as it was, but for one page lost exactly when the frames left over are one more than a multiple of 1025 |
| PipeModel.Fifo | xv6-o/pipe.c:78-121 | over every interleaving of turns of any number of calls: at most PIPESIZE bytes held, the bytes read are the bytes accepted up to some point, and each call's bytes are accepted in order, all of them once it returns |
| PipeModel.EndOfFile | xv6-o/pipe.c:106-120 | in every run, a read of n > 0 bytes returns none if and only if the pipe is empty and the write end was closed before; with the pipe empty and the end open it sleeps, or fails when killed |
| PipeModel.EndsInRun | xv6-o/pipe.c:59-75 | in every run an end is open if and only if no step has closed it |
| PipeModel.BrokenPipe | xv6-o/pipe.c:83-91 | in every run, a write that finds no room for all its bytes fails if and only if the read end was closed before or the process was killed, and else sleeps |
| Pipe.Wrapped | xv6-o/pipe.c:85-93 | comparing and indexing with the wrapped 32-bit counters is comparing and indexing with the true ones |
| Pipe.Pipe.Pipewrite | xv6-o/pipe.c:78-98 | one turn of pipewrite on the ring: as many bytes as fit go in after those held; it returns when they were all, and else fails when the read end is closed or the process was killed |
| Pipe.Pipe.Piperead | xv6-o/pipe.c:100-121 | one turn of piperead on the ring: the first n bytes held, or as many as there are; it waits exactly when none are held and the write end is open |
| Pipe.Pipe.Pipeclose | xv6-o/pipe.c:59-75 | closes exactly the end asked for, keeps the bytes held, and frees the page exactly when both ends are closed |
| ShellRoundTrip.AcceptsExactly | xv6-l/sh.c:328-448 | the parser accepts a line if and only if it spells a sentence of the command language: simple commands with redirections before, between and after at most nine words, parentheses, and the operators by their precedences, with any white space that keeps the tokens apart; the tree it gives is that of every such sentence, with every word in it and the redirections around their command in the order written |
| ShellRoundTrip.SentenceParses | xv6-l/sh.c:346-448 | one half of it: every sentence, however it is spaced, is read as its own tree |
| ShellRoundTrip.ParsesAreSentences | xv6-l/sh.c:346-448 | the other half: a line that is accepted spells a sentence |
| ShellRoundTrip.RoundTrip | xv6-l/sh.c:328-448 | every command tree with non-empty words, fewer than MAXARGS to a command, has a sentence, and parsing it gives the tree back |
| ShellLexer.LexWrite | xv6-l/sh.c:265-308 | tokens written with white space that keeps them apart are read back by gettoken as they are, >> beside > included |
| ShellLexer.WriteLex | xv6-l/sh.c:265-308 | every line is its tokens with white space between them |
| ShellModel.LineSpans | xv6-l/sh.c:346-448 | every word that a successful parse records is a maximal word of the line |
| Shell.Parser.Gettoken | xv6-l/sh.c:265-308 | the loops compute the token and advance the cursor |
| Shell.Parser.Parseline | xv6-l/sh.c:346-361 | the parser, with its loops and cursor, gives the tree or the panic of the grammar |
| Shell.Parser.Parsepipe | xv6-l/sh.c:363-374 | likewise for pipelines |
| Shell.Parser.Parseredirs | xv6-l/sh.c:376-399 | likewise for redirections |
| Shell.Parser.Parseblock | xv6-l/sh.c:401-415 | likewise for parenthesised lines |
| Shell.Parser.Parseexec | xv6-l/sh.c:417-448 | the loop and cursor give what the grammar says of a simple command: its words as arguments, its redirections around it; the tenth word is a panic |
| Shell.Nulterminate | xv6-l/sh.c:451-495 | exactly the ends of the recorded words become NUL |
| Shell.TerminatorsOutside | xv6-l/sh.c:465-475 | no word's terminator lands inside a word |
| Shell.Parsecmd | xv6-l/sh.c:328-343 | accepts a line if and only if it spells a sentence, and gives the sentence's tree; then every recorded word is the C string at its start, exactly its characters of the line |
| Regex.Match | xv6-l/grep.c:72-82 | answers 1 if and only if some piece of the text, from its start under ^ and to its end under $, is a word of the pattern |
| Regex.ParseSpells | xv6-l/grep.c:86-95 | every pattern is read as items that spell it, with c* wherever a star follows a character and $ as the end exactly in the last place |
| Regex.ParseOnly | xv6-l/grep.c:86-95 | and as no other such items |
| Regex.MatchHere | xv6-l/grep.c:84-96 | likewise at one position |
| Regex.MatchStar | xv6-l/grep.c:98-106 | likewise for c* and the rest of the pattern |

## Left out

- Log.Log.Commit: the buffers that other processes hold, for reading and not for blocks of the log or the group, stay the same ones while commit runs; waiting for a buffer is modelled in SleepLock.
- GroupCommit.StepInv: a state in which log.lh.block or the slots of the log have been overrun is not followed further, but for the run of LogBudget.BudgetIsNotEnough.
- BufferCache.BufferCache.Bread: a block that no other process has locked; the interleaving of many holders is in CacheModel, and the waiting in SleepLock.
- Fs.FileSystem.Writei: the device branch calls a driver, which is not part of this model.
- Fs.FileSystem.Readi: a size of at most MAXFILE blocks, as every writei leaves it.
- Journal.RecoveredIsOps: the log_writes of different operations are not interleaved; with shared bitmap blocks, what an operation writes then depends on the others.
- Mkfs.Image.Iappend: where mkfs would write past the end of the image it stops; mkfs does not check that.
- Mkfs.Image.Ialloc: where mkfs would go past the last inode it stops; mkfs does not check that.
- Mkfs.Build: reading the files from the host, and the bytes of the superblock, are parameters.
- Directory.Dirlink: path walking (skipelem, namex) and the reference counts of iget and iput are left out as easy.
- Vm.Machine.Mappage: mappages for one page, as all its user-memory callers use it; the kernel's own mappings are in Setupkvm, a page table at a time.
- Vm.Machine.Setupkvm: called for a process; kvmalloc, before the free list is filled, is left out. The kernel's data begin at a whole page above its text and below PHYSTOP, as kernel.ld has it; the page tables are filled one after the other rather than row by row.
- Vm.Machine.Kfree: the free list is a sequence; in the source its links lie in the free pages.
- Shell.Parser.Parseexec: command nodes are values, put together when parseexec returns; in the source the exec node is filled in while redirections are already wrapped around it.
- Allocator.Allocator.Malloc: the walk of the source's single loop is the method FindFit, called again after memory was added; base lies below the heap and what sbrk grants lies above all memory so far.
- Wakeups of begin_op, of pipe readers and writers, and of a writer killed while the pipe is full are not modelled as runs of those callers; sleep locks, wait, and sleep and wakeup as such have their wakeups proved.
- Weak memory ordering: spinlocks are atomic steps.
- Boot, traps, devices, the console, exec, system call plumbing, user programs, the Lisp shell, shared memory pages and the memo file type.

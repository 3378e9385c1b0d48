# xv6: file system, processes, memory, shell and matcher, verified

A model in Dafny of the kernel and of three user programs in `Assignment1/xv6-public`: xv6 for the
x86 with the FCFS, MLQ and DMLQ schedulers. The parts that work by changing state are classes and
methods with the fields, loops and branches of the C code. Each is proved against functions of the old
state, and the promises of the code are proved about those functions. `dafny verify dfyconfig.toml`
checks everything.

| files | what they hold |
|---|---|
| `Common`, `Blocks` | options; a disk block as bytes and as 32-bit words |
| `CrashLog`, `Log`, `GroupCommit`, `Durability`, `Transaction` | the redo log: what a crash leaves, the code of log.c, concurrent operations, these with crashes, and what the log makes of the file system's changes |
| `BufRing`, `Bio` | the buffer cache: its doubly linked ring, and coherence with the disk |
| `Bitmap`, `BlockMap`, `Mapping`, `Fs`, `File`, `Tight` | block allocation and ownership, bmap, readi, writei, itrunc; fileread and filewrite; a write that needs all the log space it reserves |
| `LinkCount`, `Path`, `SysFile`, `Naming` | directories and link counts, path names, create, link, unlink, namex, and where paths lead afterwards |
| `FileTable`, `OpenInodes`, `Pipe` | open files, descriptors, the pipes and the inodes that they keep alive; the ring of bytes |
| `PQueue`, `MultiQueue`, `Ready` | the heap and the rings of the schedulers, and what makes them right for a process table |
| `ProcSteps`, `ProcHistory`, `ProcTable` | the process tree over every run; who was killed and where the ticks went, over every run; the code of proc.c and the timer's part of trap.c |
| `SleepLock` | sleep locks over sleep and wakeup, interleaved at every step |
| `PageMap`, `Tables`, `Break`, `Vm`, `UserBytes` | page tables, frames, who owns them and how many a call takes; what sbrk answers; the code of vm.c and kalloc.c |
| `Arena`, `Umalloc` | the free list of malloc and the memory that it tiles |
| `ShellGrammar`, `ShellPrint`, `ShellAccept`, `Shell` | the command language; every way to write a command, and that it parses; that nothing else parses; the parser that runs over a buffer |
| `Grep` | the regular-expression matcher |

Constants such as NPROC, NBUF, NFILE and the sizes of tables are symbolic. MAXOPBLOCKS, LOGSIZE, BSIZE,
PGSIZE, NDIRECT, PIPESIZE and the like have the values of the headers, since arithmetic depends on them.

What the proofs turned up, and when it happens:

- `log_write` can panic on an append although `begin_op` reserved the space, exactly if the log has no
  more than LOGSIZE blocks, which is what mkfs makes (`GroupCommit.AppendsAreSafeIff`). For a block that
  is listed already some run up to its first panic meets the test exactly if the log has two blocks or
  more (`GroupCommit.RewritesAreSafeIff`).
- `writei` writes the inode back only if the file grows. A write below size that fills a hole whose pointer
  is in the inode leaves that pointer in memory alone (`Fs.Fs.Writei`); `readi` of such a hole allocates a
  block and leaves its pointer there in the same way (`Fs.Fs.Readi`).
- `swapque` steps to index -1 exactly if the slot of the process is not below `end`; `chpr` meets this
  exactly when its process is queued where its ring has wrapped (`MultiQueue.MultiQueue.Swapque`,
  `MultiQueue.WrappedEntryFaults`, `ProcTable.ProcTable.Chpr`). For a pid that is not in the ring it drops
  the last process, or faults if `end` is 0; an empty ring then reads as full of its old entries.
- `chpr` checks neither argument: without the pid it goes on behind the table, and a queued process that gets
  a priority outside 1..3 has no ring (`ProcTable.ProcTable.Chpr`).
- `allocproc` does not reset `killed`, and `kill` looks at the pid alone: `kill(0)` marks a slot that is
  free, and the process that `fork` puts there is born killed. A process that has just been launched is
  killed exactly if a kill has hit it since it was allocated, or its slot was marked already
  (`ProcHistory.LaunchedKilledIff`, `ProcHistory.BornKilled`).
- `pipewrite` that fails on a full ring does not wake the readers. Readers that slept when it was called
  sleep on exactly if more than PIPESIZE bytes were still to be stored and the call then fails
  (`Pipe.Pipe.Pipewrite`).
- The units that `malloc` computes hold the bytes asked for exactly if the sum of the size and 7 fits in
  32 bits (`Umalloc.UnitsAreEnough`), and the block that it hands out lies in the memory of the process
  exactly if a free block was big enough or the core asked for is less than 2 GiB. From 2 GiB on the
  argument of `sbrk` is not positive as an int; `growproc` then maps nothing, perhaps takes pages away, and
  succeeds unless those are all. The old end of memory is taken for new units, or the store of their header
  traps (`Umalloc.Umalloc.Malloc`, `Umalloc.CoreIsMemory`, `Umalloc.TwoGigabytes`, `Vm.Vm.SysSbrk`).
- A chunk of `filewrite` can log one block more than MAXOPBLOCKS, but only if it starts inside a hole of the
  file (`File.ChunkFitsUnlessHole`, `Tight.FullChunk`); `writei` itself makes no holes.
- `fileread` is not part of an operation. It panics in `log_write` exactly if nobody else is inside one, the
  range read has a hole and a block is free (`File.File.Read`).
- `growproc` keeps size and mapped pages in agreement exactly unless all memory is given up: the 0 that
  `deallocuvm` then returns is taken for failure (`Vm.Vm.Growproc`).

## Model

| member | source | states |
|---|---|---|
| `CrashLog.CrashAtomicity` | Assignment1/xv6-public/log.c:68-202 | Stop commit after any k of its writes, then recovery any number of times after any of its writes: once a recovery completes, the home blocks are the old ones if k is at most n and all n new ones if not, and the log is empty. |
| `CrashLog.HistoryIsAtomic` | Assignment1/xv6-public/log.c:68-122 | Over any run of commits, crashes and recoveries, each cut short anywhere: recovery leads to exactly the transactions whose header write reached the disk, whole and in order, and a machine that is up shows them. |
| `CrashLog.BeforeCommitPoint` | Assignment1/xv6-public/log.c:176-190 | A crash before the header write recovers to the old home blocks. |
| `CrashLog.AfterCommitPoint` | Assignment1/xv6-public/log.c:193-202 | A crash from the header write on recovers to the new home blocks; the last write empties the log. |
| `CrashLog.RecoverPrefix` | Assignment1/xv6-public/log.c:68-122 | Recovery cut short after any of its writes still recovers to the same blocks. |
| `CrashLog.StagesOfCommit` | Assignment1/xv6-public/log.c:176-202 | The four stages of commit, each reading back what the one before left, make up one list of writes. |
| `CrashLog.CommitLeaves` | Assignment1/xv6-public/log.c:192-202 | A commit that runs to its end leaves the contents of the buffers in the blocks listed, all other home blocks as they were and an empty list. |
| `CrashLog.RecoveredIs` | Assignment1/xv6-public/log.c:68-122 | Recovery leaves in each block that the header lists what the log had for it, all other home blocks as they were and an empty list. |
| `Log.Log.Commit` | Assignment1/xv6-public/log.c:192-202 | Disk and order of writes are exactly those of the specification: each listed block has the contents of its buffer, every other home block is as it was, the list on disk is empty; lh and the pinned buffers are released. |
| `Log.Log.InstallTrans` | Assignment1/xv6-public/log.c:68-82 | Copies each log block to the home block that lh names, in order, and unpins the buffers. |
| `Log.Log.RecoverFromLog` | Assignment1/xv6-public/log.c:115-122 | The disk becomes the recovered one, through exactly the specified writes: each block that the header lists holds what the log had for it, every other home block what it held, and the list is empty. |
| `Log.Log.LogWrite` | Assignment1/xv6-public/log.c:213-233 | Panics exactly on its guards; else lh has the block once, appended if it was not there, and reading it gives the new data. |
| `Log.Log.TryBeginOp` | Assignment1/xv6-public/log.c:125-141 | Goes ahead exactly if no commit runs and lh.n + (outstanding + 1) * MAXOPBLOCKS is at most LOGSIZE. |
| `Log.Log.EndOp` | Assignment1/xv6-public/log.c:145-174 | The last operation to leave commits and empties lh; no other one touches the disk. |
| `GroupCommit.ReservationFits` | Assignment1/xv6-public/log.c:125-233 | Over every interleaving: lh.n and all that is still promised fit in LOGSIZE. |
| `GroupCommit.NextIsLegal` | Assignment1/xv6-public/log.c:125-174 | After any run an operation can begin exactly if no commit runs and lh.n + (outstanding + 1) * MAXOPBLOCKS is at most LOGSIZE; an active one can always end, and a commit that has begun can always finish. |
| `GroupCommit.RoomAgain` | Assignment1/xv6-public/log.c:125-174 | Nobody waits in begin_op for ever for want of room: once the active operations have ended, and the commit that the last of them starts, any operation begins. |
| `GroupCommit.CommitRunsAlone` | Assignment1/xv6-public/log.c:125-174 | While a commit runs no operation is active and nothing but its end can happen, so lh is frozen. |
| `GroupCommit.CommitsAreWholeOperations` | Assignment1/xv6-public/log.c:145-174 | Each commit holds all that its operations ever logged and nothing else, and no operation is in two commits. |
| `GroupCommit.EndedOperationsCommit` | Assignment1/xv6-public/log.c:145-174 | With nothing outstanding, every operation that logged something is in a commit. |
| `GroupCommit.LogWriteGuards` | Assignment1/xv6-public/log.c:213-233 | Exactly when a call of log_write panics, in any run. |
| `GroupCommit.AppendsAreSafeIff` | Assignment1/xv6-public/log.c:218-221 | No run that has not panicked before panics on an append if and only if the log has more than LOGSIZE blocks. |
| `GroupCommit.RewritesAreSafeIff` | Assignment1/xv6-public/log.c:218-221 | No run that has not panicked before panics on a block that is listed already if and only if the log has fewer than two blocks. |
| `Durability.WholeOperationsSurvive` | Assignment1/xv6-public/log.c:68-202 | Operations interleave, commits and recoveries are cut short anywhere: recovery leads to exactly the logged contents whose commit got to its header write, in order, and these are all that an operation ever logs or none of it. A machine that is up reads these and the writes since. |
| `Durability.EverIsLogged` | Assignment1/xv6-public/log.c:213-233 | Each log_write of a run adds its operation, block and contents to the record, and is what the buffer then holds; no other step does. |
| `Durability.EndedIsDurable` | Assignment1/xv6-public/log.c:145-174 | With nothing outstanding and no commit under way, all that an operation has logged survives any crash. |
| `Durability.DurableForever` | Assignment1/xv6-public/log.c:176-202 | What a commit has made durable no later crash, commit or recovery undoes. |
| `Durability.StepKeepsInv` | Assignment1/xv6-public/log.c:68-202 | Every step, with any crash in it, keeps the invariant: disk and log hold the durable writes, buffers the recent ones, and those of each operation are all in one of the two, or lost. |
| `BufRing.MoveFirstKeeps` | Assignment1/xv6-public/bio.c:126-138 | Moving a released buffer behind the head keeps one doubly linked cycle of all buffers, the others in order. |
| `Bio.Bcache.constructor` | Assignment1/xv6-public/bio.c:38-56 | binit leaves a ring of all buffers, coherent with the disk. |
| `Bio.Bcache.Bget` | Assignment1/xv6-public/bio.c:60-93 | The buffer that caches the block, or else the least recently used one that is free and clean; panic exactly if there is neither; no block is cached twice. |
| `Bio.Bcache.Iderw` | Assignment1/xv6-public/memide.c:38-60 | One transfer in the direction of the dirty flag, or which of the panics, in the order of the tests. |
| `Bio.Bcache.Bread` | Assignment1/xv6-public/bio.c:60-106 | A locked buffer with the contents that were last logged or written for the block; or, exactly while another process holds its buffer, one more reference and sleep; or the panic of bget. |
| `Bio.Bcache.Finish` | Assignment1/xv6-public/bio.c:96-106 | A sleeper that gets the lock has those contents too. |
| `Bio.Bcache.Bwrite` | Assignment1/xv6-public/bio.c:109-116 | The disk and the buffer have the new contents, and the buffer is clean. |
| `Bio.Bcache.Pin` | Assignment1/xv6-public/log.c:223-231 | A logged buffer is dirty, so that bget cannot recycle it, and its contents count as the contents of the block. |
| `Bio.Bcache.Brelse` | Assignment1/xv6-public/bio.c:118-141 | Coherence survives the release; the last release moves the buffer to the front and no other. |
| `BlockMap.EachBlockOnce` | Assignment1/xv6-public/fs.c:369-400 | No block number occurs twice over all direct slots, indirect pointers and indirect entries, and each that occurs is a data block in use. |
| `BlockMap.UsedIsNamed` | Assignment1/xv6-public/fs.c:53-95 | A set bit is that of a metadata block or of a block that some slot names. |
| `BlockMap.PointerOwned` | Assignment1/xv6-public/fs.c:372-384 | A free block taken by an empty pointer keeps the ownership of all blocks. |
| `BlockMap.EntryOwned` | Assignment1/xv6-public/fs.c:384-397 | A free block taken by an empty entry of an indirect block keeps the ownership of all blocks. |
| `BlockMap.TruncOwned` | Assignment1/xv6-public/fs.c:407-435 | An inode that gives up all its blocks leaves every other block owned as before and exactly its own blocks free. |
| `BlockMap.OthersKept` | Assignment1/xv6-public/fs.c:481-511 | A change that is confined to one inode leaves the bytes of every other file alone. |
| `BlockMap.BlockOfIs` | Assignment1/xv6-public/fs.c:369-400 | The first twelve blocks of a file are named in its inode, the others in the words of its indirect block. |
| `Bitmap.BitIs` | Assignment1/xv6-public/fs.c:64-68 | The bit of block b is bit b % 8 of byte b % BPB / 8 of bitmap block b / BPB. |
| `Transaction.BlocksAre` | Assignment1/xv6-public/fs.h:39-48 | Which block of the disk holds the bit of a block, and which an inode. |
| `Fs.Fs.Balloc` | Assignment1/xv6-public/fs.c:56-78 | The lowest free block, zeroed and marked; nothing else changes. Out of blocks exactly if none is free; if one is, a panic of log_write exactly outside every operation. |
| `Fs.Fs.Bfree` | Assignment1/xv6-public/fs.c:80-95 | Clears one bit; panics exactly if it is clear already. |
| `Fs.Fs.Bmap` | Assignment1/xv6-public/fs.c:369-400 | The number of file block bn; if there was none, a block that was free, now zeroed and owned by that slot. No other block of any file changes. Which of three panics ends it: exactly by the range of bn, the free blocks, those it has to allocate and the outstanding operations. |
| `Fs.Fs.Writei` | Assignment1/xv6-public/fs.c:478-511 | Refused exactly on its guards, out of blocks exactly if there are fewer free ones than the holes it fills; else the file is its old bytes with src laid over them at off and other files are as they were. A file without holes gets none, and at most LogBound blocks are logged. The inode on disk agrees exactly if the file grew or its own pointers were there. |
| `Fs.Fs.Readi` | Assignment1/xv6-public/fs.c:449-476 | Exactly the slice that is there, clipped at size. It allocates exactly if it reads a hole, and then no byte of any file changes; without holes nothing changes at all. It panics exactly if blocks run out, or if one is to be allocated and is free while no operation is outstanding. |
| `Fs.Fs.Iupdate` | Assignment1/xv6-public/fs.c:216-236 | The inode is on disk as it is in the cache, and its block is logged. |
| `Fs.Fs.Itrunc` | Assignment1/xv6-public/fs.c:402-435 | Exactly the blocks of the file become free, and "freeing free block" is not reached. |
| `Mapping.WriteStep` | Assignment1/xv6-public/fs.c:498-504 | One turn of the loop of writei: each byte of the file is that of src or what it was, and exactly the blocks gone through have come to exist. |
| `Mapping.AllFreed` | Assignment1/xv6-public/fs.c:414-434 | The three parts of itrunc together free every block of the inode. |
| `Mapping.BudgetBound` | Assignment1/xv6-public/file.c:126-136 | Data blocks, a bitmap block for each block allocated, the indirect block and the inode bound what one write logs. |
| `Mapping.CostWithoutHoles` | Assignment1/xv6-public/file.c:126-136 | For a file without holes this is at most LogBound, since a write that starts inside a block does not allocate that block. |
| `File.ChunkFits` | Assignment1/xv6-public/file.c:126-136 | LogBound of a chunk is at most MAXOPBLOCKS, wherever it starts. |
| `Tight.FullChunk` | Assignment1/xv6-public/file.c:126-136 | There is a volume on which a write of a full chunk logs exactly MAXOPBLOCKS blocks, one on which a write of BSIZE bytes more logs more, and one on which a full chunk that starts inside a hole logs one block more. |
| `File.ChunkFitsUnlessHole` | Assignment1/xv6-public/file.c:126-136 | In any file a chunk stays within MAXOPBLOCKS unless it starts inside a hole. |
| `File.File.Write` | Assignment1/xv6-public/file.c:115-156 | The file is overwritten by exactly as many bytes as the offset moves, in chunks of one transaction each; for a file without holes each logs at most MAXOPBLOCKS blocks and records every change. Unless blocks run out it succeeds exactly if the file is writable and all bytes fit; a write that does not fit has stored exactly the whole chunks that do. |
| `File.CrashedWrite` | Assignment1/xv6-public/file.c:115-156 | Stop the machine in any commit of a write and recovery any number of times: the file is the old one overwritten by the chunks before the crash or one more, and every other file is what it was. |
| `File.File.WriteChunk` | Assignment1/xv6-public/file.c:138-149 | One transaction of filewrite: the next part of the file is overwritten and every data, bitmap and inode block that differs from before is among those logged, which are at most MAXOPBLOCKS unless it starts inside a hole. |
| `Transaction.TransactionIsAtomic` | Assignment1/xv6-public/log.c:176-202 | For a transaction that logged all that it changed, whatever the layout inside a block: stop its commit anywhere and recovery any number of times, and what the disk holds after a recovery is the whole volume before it or the whole volume after it. |
| `Transaction.CrashedRun` | Assignment1/xv6-public/log.c:176-202 | The same for the last of any number of transactions: those before it are there in full. |
| `Transaction.SameImage` | Assignment1/xv6-public/fs.c:221-236 | A block that no change was logged for looks the same on disk: bitmap, inode or data. |
| `File.File.Read` | Assignment1/xv6-public/file.c:95-113 | The bytes at the offset, which moves past them; refused exactly if the file is not readable, the offset is past the end or the sum wraps, n taken without its sign. With no operation outstanding it panics in log_write exactly if the range has a hole and a block is free. |
| `LinkCount.LinkKeepsTree` | Assignment1/xv6-public/sysfile.c:118-165 | A new name for a file keeps nlink equal to the number of names in linked directories. |
| `LinkCount.UnlinkFileKeepsTree` | Assignment1/xv6-public/sysfile.c:184-233 | Taking one name of a file away keeps nlink equal to the number of names. |
| `LinkCount.EmptyHasOneLink` | Assignment1/xv6-public/sysfile.c:167-181 | An empty directory has exactly one link, its name in the parent that its ".." names. |
| `LinkCount.UnlinkDirKeepsTree` | Assignment1/xv6-public/sysfile.c:209-233 | Removing an empty directory, whose ".." then no longer counts, keeps the counts. |
| `LinkCount.CreateFileKeepsTree` | Assignment1/xv6-public/sysfile.c:241-283 | create of a file or device keeps every nlink equal to the number of names. |
| `LinkCount.CreateDirKeepsTree` | Assignment1/xv6-public/sysfile.c:270-276 | create of a directory, with its two dots, keeps the counts of the new directory, its parent and all others. |
| `LinkCount.FreeKeepsTree` | Assignment1/xv6-public/fs.c:331-352 | Freeing an inode that nothing names keeps every count and every directory. |
| `SysFile.SysFile.Create` | Assignment1/xv6-public/sysfile.c:241-283 | From the path on: in the directory that it leads to, a new inode under the last element, or the file that has the name already exactly if a file is asked for; else nothing has changed. Exactly one reference is taken, to the result. |
| `SysFile.SysFile.Link` | Assignment1/xv6-public/sysfile.c:118-165 | From both paths on: succeeds exactly for a non-directory that the first leads to, if the second leads to a directory that lacks its last element; on failure nothing has changed, and every reference is given back. |
| `SysFile.CountedWalks` | Assignment1/xv6-public/sysfile.c:131-145 | The walk of the new path, while the file counts one link too many, leads where it would in the tree before. |
| `SysFile.SysFile.Unlink` | Assignment1/xv6-public/sysfile.c:183-239 | From the path on: takes away the first entry with the last element, unless it is a dot or a directory that is not empty; the inode is freed exactly at no links and no references. |
| `Naming.CreatedPath` | Assignment1/xv6-public/sysfile.c:241-283 | After create of a name that was not there the same path leads to the new inode, of the kind asked for, and every path that led somewhere leads there still. |
| `Naming.LinkedPath` | Assignment1/xv6-public/sysfile.c:118-165 | After link both paths lead to the file, and every path that led somewhere leads there still. |
| `Naming.UnlinkedPath` | Assignment1/xv6-public/sysfile.c:183-239 | After unlink the path, which led to the inode, leads nowhere, and no path leads where it did not lead before; for directories without a name twice. |
| `Naming.UnlinkedIs` | Assignment1/xv6-public/sysfile.c:205-233 | What unlink changes: one name gone, one link less for the inode or, with its last link and no reference, a free inode; for a directory, which has to be empty, one link less for the parent; nothing else. |
| `Naming.CallsKeepDistinct` | Assignment1/xv6-public/fs.c:550-578 | No create, link or unlink gives a directory a name twice. |
| `Naming.MayStayIs` | Assignment1/xv6-public/sysfile.c:200-215 | What unlink refuses is a dot, a name that is not there or a directory with an entry in use. |
| `SysFile.SysFile.Iput` | Assignment1/xv6-public/fs.c:325-352 | Frees the inode exactly if it has no links and this is the last reference. |
| `SysFile.SysFile.Dirlookup` | Assignment1/xv6-public/fs.c:522-548 | The first entry with the name and one reference, or nothing. |
| `SysFile.SysFile.Dirlink` | Assignment1/xv6-public/fs.c:550-578 | Refused if the name is there, else put in the first free place. |
| `SysFile.SysFile.Namex` | Assignment1/xv6-public/fs.c:620-670 | From the root for a leading slash and else from the working directory, the inode that the walk reaches, or the parent and the last element; exactly one reference is taken, to the result, and nothing is freed. |
| `Path.SpelledElements` | Assignment1/xv6-public/fs.c:583-618 | However slashes are repeated, a path has the elements it was spelled from, cut to DIRSIZ. |
| `Path.EveryPath` | Assignment1/xv6-public/fs.c:583-618 | Every string is such a spelling of some elements. |
| `Path.ElementsJoin` | Assignment1/xv6-public/fs.c:583-618 | A slash between two paths, wherever it is put, joins their elements. |
| `Path.Skipelem` | Assignment1/xv6-public/fs.c:595-618 | The loops and the copy into name yield the first element and the rest. |
| `Path.ParentThenName` | Assignment1/xv6-public/fs.c:620-670 | nameiparent and one lookup give what namei gives. |
| `Path.RelativeIsAbsolute` | Assignment1/xv6-public/fs.c:628-631 | An absolute path leads to the same place from everywhere; if /q leads to the working directory, a relative path p leads where /q/p does, for namei and for nameiparent. |
| `Path.DotDotUndoes` | Assignment1/xv6-public/fs.c:645-651 | In a tree with right link counts a/x/../b leads where a/b does, if a/x is a directory. |
| `Path.DotStays` | Assignment1/xv6-public/fs.c:645-651 | a/./b leads where a/b does, and the parent of the root is the root. |
| `FileTable.PipesAreNamed` | Assignment1/xv6-public/file.c:55-80 | A pipe has its page, and each of its flags is set, exactly while some descriptor of some process names that end. |
| `FileTable.Ftable.Fileclose` | Assignment1/xv6-public/file.c:55-80 | The last reference closes the file: it closes that end of a pipe, whose page goes with the second end, or gives up the inode; any other reference changes the count alone. |
| `FileTable.Ftable.Dup` | Assignment1/xv6-public/sysfile.c:55-67 | The lowest free descriptor for the same file, with one reference more, or nothing changed; the panic of filedup is not reached. |
| `FileTable.Ftable.Close` | Assignment1/xv6-public/sysfile.c:93-104 | Exactly one descriptor and one reference go. |
| `FileTable.Ftable.MakePipe` | Assignment1/xv6-public/sysfile.c:422-444 | The two lowest free descriptors, one to read and one to write a new pipe, exactly if there is a page and there are two files and two descriptors free; else files, descriptors and pipes are as before. |
| `FileTable.Ftable.Pipealloc` | Assignment1/xv6-public/pipe.c:22-57 | Two new files and a pipe exactly if there is a page and two files are free, or all as before. |
| `FileTable.Ftable.Open` | Assignment1/xv6-public/sysfile.c:317-332 | A new file and the lowest free descriptor exactly if there is one of each, or all as before. |
| `FileTable.Ftable.ForkFiles` | Assignment1/xv6-public/proc.c:436-438 | The child has the descriptors of the parent, each counted. |
| `FileTable.Ftable.CloseFd` | Assignment1/xv6-public/proc.c:475-481 | One descriptor of an exiting process and its reference go, and the inode is given up exactly with the last; no panic of fileclose. |
| `OpenInodes.ReferredIsReached` | Assignment1/xv6-public/fs.c:119-152 | An inode has a reference exactly while some descriptor or working directory of some process names it or some call holds it. |
| `OpenInodes.OpenInodes.Iput` | Assignment1/xv6-public/fs.c:325-352 | The reference given up is the last exactly if no process has the inode open and no other call holds it. |
| `OpenInodes.OpenInodes.Open` | Assignment1/xv6-public/sysfile.c:317-332 | The reference of the lookup goes to the new file, or back. |
| `OpenInodes.OpenInodes.Close` | Assignment1/xv6-public/sysfile.c:93-104 | References and namers of every inode still agree. |
| `OpenInodes.OpenInodes.Fork` | Assignment1/xv6-public/proc.c:436-439 | The child names what the parent names, and references agree. |
| `OpenInodes.OpenInodes.Exit` | Assignment1/xv6-public/proc.c:475-487 | All descriptors and the working directory are given up, and references agree. |
| `OpenInodes.OpenInodes.Chdir` | Assignment1/xv6-public/sysfile.c:389-392 | The new directory takes the reference of the lookup, the old one is given back. |
| `Pipe.Pipe.Pipewrite` | Assignment1/xv6-public/pipe.c:78-98 | The bytes are stored in order; it sleeps or fails exactly on a full ring; exactly when it leaves readers asleep on a ring that has bytes. |
| `Pipe.Pipe.Piperead` | Assignment1/xv6-public/pipe.c:100-121 | The oldest bytes, exactly as many as asked for or as there are; 0 for n > 0 exactly if the pipe is drained and the writer has closed; writers are woken. |
| `Pipe.Pipe.Pipeclose` | Assignment1/xv6-public/pipe.c:59-75 | Freed exactly when both ends are closed, and then nobody sleeps on it. |
| `Pipe.CountersTell` | Assignment1/xv6-public/pipe.c:84-94 | The tests on the 32-bit counters are right however often they have wrapped. |
| `PQueue.PQueue.Insert` | Assignment1/xv6-public/proc.c:99-107 | The heap gains exactly the process; a full one drops it. |
| `PQueue.PQueue.Remove` | Assignment1/xv6-public/proc.c:109-121 | Takes an oldest process and leaves a heap of the others. |
| `PQueue.PQueue.ShiftUp` | Assignment1/xv6-public/proc.c:59-71 | Permutes a heap that is wrong at one place into a heap. |
| `PQueue.PQueue.ShiftDown` | Assignment1/xv6-public/proc.c:73-97 | Permutes a heap that is wrong at the top into a heap, swapping with the older child. |
| `PQueue.RootIsOldest` | Assignment1/xv6-public/proc.c:41-57 | The root of a heap is the oldest process in it. |
| `MultiQueue.MultiQueue.Enque` | Assignment1/xv6-public/proc.c:150-160 | The ring gains the process at its tail, unless it is full. |
| `MultiQueue.MultiQueue.Deque` | Assignment1/xv6-public/proc.c:162-177 | Takes the process that has waited longest. |
| `MultiQueue.MultiQueue.Swapque` | Assignment1/xv6-public/proc.c:200-227 | If the slot of the process is below end, it alone moves, to the tail of its new ring, and otherwise the shift faults. For a pid that is not there: a fault exactly if end is 0, else the last process is dropped, or an empty ring reads as full of its old entries. |
| `MultiQueue.WrappedEntryFaults` | Assignment1/xv6-public/proc.c:207-223 | A process queued where the ring has wrapped makes swapque fault. |
| `Ready.HeapHasRoom` | Assignment1/xv6-public/proc.c:99-107 | While the heap holds exactly the runnable processes, insert does not meet a full array. |
| `Ready.RingHasRoom` | Assignment1/xv6-public/proc.c:150-160 | While a ring holds exactly the runnable processes of its priority, enque does not meet a full ring. |
| `Ready.OnePlaceEach` | Assignment1/xv6-public/proc.c:150-177 | A runnable process is in one slot of the ring of its own priority, and no other process is queued. |
| `Ready.HeadIsNext` | Assignment1/xv6-public/proc.c:621-652 | The head of the first non-empty ring has waited longest at the best priority that anyone has. |
| `Ready.RingsMoved` | Assignment1/xv6-public/proc.c:888-913 | A move to another ring keeps everyone in the ring of his priority, in order. |
| `ProcTable.ProcTable.Schedule` | Assignment1/xv6-public/proc.c:560-659 | FCFS takes an oldest runnable process, MLQ and DMLQ the head of the ring of the best priority that anyone has, who has waited longest there; it runs, with its tick; nothing only if nobody is runnable. |
| `ProcTable.ProcTable.constructor` | Assignment1/xv6-public/proc.c:331-379 | userinit leaves a table with one runnable process, pid 1, no parent, MDPR under MLQ and DMLQ, and its ready queue holds it. |
| `ProcTable.ProcTable.AllocProc` | Assignment1/xv6-public/proc.c:281-309 | The first free slot with a new pid, the tick and times of 0, nothing else changed (not even killed); or nothing if the table is full. |
| `ProcTable.ProcTable.FinishFork` | Assignment1/xv6-public/proc.c:424-459 | The child is runnable, has the caller as parent and, but under FCFS, its priority, and is at the tail of that ring. |
| `ProcTable.ProcTable.Exit` | Assignment1/xv6-public/proc.c:462-506 | Slot by slot: the caller is a zombie, its children have init as parent, sleepers on the parent, and on init if a child is a zombie, are runnable (under DMLQ at HIPR), all else is as it was; whoever is woken is queued. |
| `ProcTable.ProcTable.WaitOnce` | Assignment1/xv6-public/proc.c:936-981 | The first zombie child in table order is reaped, exactly if there is one, with its statistics; it had exited and was never reaped before. Else the caller returns, or sleeps, and then has a child and is not killed. |
| `ProcTable.ProcTable.Wakeup1` | Assignment1/xv6-public/proc.c:767-791 | Every sleeper on the channel becomes runnable, under DMLQ at HIPR, and is queued once, behind those that were; every other slot is as it was. |
| `ProcTable.ProcTable.Kill` | Assignment1/xv6-public/proc.c:803-836 | The first slot with the pid is marked killed, and runnable if it was asleep, under DMLQ at HIPR; no other slot changes, and nothing does if nobody has the pid. |
| `ProcTable.ProcTable.Yield` | Assignment1/xv6-public/proc.c:688-705 | The process is runnable and at the tail of the ring of its priority. |
| `ProcTable.ProcTable.OnTimer` | Assignment1/xv6-public/trap.c:104-138 | Exactly a quantum of five ticks that has expired under MLQ or DMLQ yields, and under DMLQ it costs a level, down to the third; the process is at the tail of that ring. |
| `ProcTable.ProcTable.Tick` | Assignment1/xv6-public/trap.c:50-57 | ticks goes up, and every process is charged one tick for running, being ready or sleeping, or none. |
| `ProcTable.ProcTable.CommitExec` | Assignment1/xv6-public/exec.c:96-100 | Under DMLQ the process starts again at MDPR; else nothing changes. |
| `ProcTable.ProcTable.Chpr` | Assignment1/xv6-public/proc.c:888-913 | For every pid and priority: without the pid the scan ends behind the table; a queued process faults exactly if it is queued where its ring has wrapped, and has no ring exactly if the priority is none; else the first with the pid has its new priority and, if it was queued, is at the tail of its new ring, and the queues are right. |
| `ProcSteps.StepKeepsTree` | Assignment1/xv6-public/proc.c:281-836 | Each step of each scheduler keeps pids distinct, parents alive and waiting parents without zombie children. |
| `ProcSteps.ProcessTree` | Assignment1/xv6-public/proc.c:405-980 | At every point of every run: live pids are distinct, no parent is UNUSED or a ZOMBIE, nobody sleeps in wait with a zombie child, and each process is reaped once at most and only after its exit. |
| `ProcSteps.ExitReachesParent` | Assignment1/xv6-public/proc.c:488-505 | exit leaves a zombie whose parent is awake, and nobody whose parent it is. |
| `ProcSteps.ExitIsNoticed` | Assignment1/xv6-public/proc.c:488-550 | From exit on, at every point of the run, the process is a zombie whose parent is not asleep in wait, or it has been reaped. |
| `ProcHistory.KilledIff` | Assignment1/xv6-public/proc.c:803-966 | At every point of every run a slot is marked killed if and only if a kill has hit it and no wait has freed it since. |
| `ProcHistory.LaunchedKilledIff` | Assignment1/xv6-public/proc.c:281-459 | A process that has just been launched is killed exactly if a kill has hit it since it was allocated, or its slot was marked when it was. |
| `ProcHistory.BornKilled` | Assignment1/xv6-public/proc.c:803-836 | The input for the second: kill(0) marks a free slot, and the process that fork then puts there is killed though no kill had its pid. |
| `ProcHistory.TimesAreCharged` | Assignment1/xv6-public/proc.c:915-931 | What waitnstats reports: over every run each tick since the allocation that found the process running, ready or asleep is in that time and in no other, and timecreated is the tick of the allocation. |
| `ProcHistory.TicksAddUp` | Assignment1/xv6-public/proc.c:915-931 | No tick is lost: those since the allocation are the three times and the ticks spent as an embryo, as a zombie, or unused. |
| `ProcHistory.ScheduledIsLast` | Assignment1/xv6-public/proc.c:644-652 | timescheduled is the tick of the last dispatch, over every run. |
| `SleepLock.OneHolder` | Assignment1/xv6-public/sleeplock.c:22-42 | Over all interleavings at most one process holds a sleep lock. |
| `SleepLock.CallsKeepTheirWord` | Assignment1/xv6-public/sleeplock.c:22-42 | Over all interleavings a process whose last call was acquiresleep and that is back from it holds the lock, and one whose last call was releasesleep and that is back from it does not. |
| `SleepLock.AcquireFree` | Assignment1/xv6-public/sleeplock.c:22-32 | With nobody in its way acquiresleep of a free lock takes four steps, after which the caller has it and nothing else has changed. |
| `SleepLock.AcquireTaken` | Assignment1/xv6-public/sleeplock.c:25-28 | On a lock that is taken the caller is asleep on it five steps later, has given back lk->lk, and the scheduler has ptable.lock. |
| `SleepLock.ReleaseWakes` | Assignment1/xv6-public/sleeplock.c:34-42 | releasesleep gives up the lock and wakes exactly those asleep on it, with nobody in its way. |
| `SleepLock.NoLostWakeup` | Assignment1/xv6-public/sleeplock.c:22-42 | A process asleep on a free lock is one that the releaser, between clearing locked and the end of its wakeup, has yet to reach. |
| `SleepLock.HoldingIsExact` | Assignment1/xv6-public/sleeplock.c:44-53 | holdingsleep is true exactly for the holder, and a lock is locked exactly while it has one. |
| `SleepLock.SpinlocksAreOrdered` | Assignment1/xv6-public/proc.c:728-765 | acquire and release of the spinlocks never panic, and sched is entered with ptable.lock alone. |
| `SleepLock.StepKeepsInv` | Assignment1/xv6-public/proc.c:728-800 | Every step of any process or scheduler keeps the invariant: who owns each spinlock, who holds each sleep lock, and that whoever sleeps on a free lock will be reached by a wakeup under way. |
| `PageMap.FramesDistinct` | Assignment1/xv6-public/vm.c:221-249 | No two user pages, of one address space or of two, share a frame. |
| `PageMap.DropAdded` | Assignment1/xv6-public/vm.c:281-298 | Dropping an address space just added restores all others, and exactly its frames are free again. |
| `PageMap.CopyPages` | Assignment1/xv6-public/vm.c:323-340 | A copied page and its original have equal contents and flags and different frames. |
| `PageMap.CopiedIs` | Assignment1/xv6-public/vm.c:323-340 | All pages of a child have the contents and flags of the parent at the same address, on frames that nobody had, and there are no others. |
| `PageMap.AddedIs` | Assignment1/xv6-public/vm.c:313-345 | Meanwhile every other address space keeps its pages and their contents. |
| `Vm.KmapApart` | Assignment1/xv6-public/vm.c:104-116 | The entries of kmap do not overlap, so that setupkvm meets no remap. |
| `Vm.KernelHalf` | Assignment1/xv6-public/vm.c:104-136 | Which page of the kernel half the four entries map where and with which flags, page by page. |
| `Vm.Vm.Kalloc` | Assignment1/xv6-public/kalloc.c:79-95 | The first free frame, which nobody has. |
| `Vm.Vm.Kfree` | Assignment1/xv6-public/kalloc.c:55-77 | The frame is free, once; panics exactly on an address that is out of range. |
| `Vm.Vm.Freerange` | Assignment1/xv6-public/kalloc.c:46-53 | Exactly the whole pages between the two addresses become free. |
| `Vm.Vm.Kmemtop` | Assignment1/xv6-public/kalloc.c:97-113 | The free bytes. |
| `Vm.Vm.Walk` | Assignment1/xv6-public/vm.c:32-55 | The page table of the page, created exactly if asked for and missing: empty, and present, writable and for the user in the directory. |
| `Vm.Vm.Mappages` | Assignment1/xv6-public/vm.c:57-80 | The pages are mapped in order; it stops exactly at a page that is mapped or without memory, and takes a frame for each page table that was missing. |
| `Tables.TooFew` | Assignment1/xv6-public/vm.c:32-55 | A call that fails for want of a frame had fewer than all its pages and missing page tables take. |
| `Vm.Vm.Setupkvm` | Assignment1/xv6-public/vm.c:117-136 | A new address space: physical memory from KERNBASE on, with the kernel text and read-only data not writable and all else writable, the devices at the top where they are, nothing else, and an empty user half. It takes 65 frames; exactly if fewer are free, failure with every frame back. |
| `Vm.KernelTabsAre` | Assignment1/xv6-public/vm.c:104-116 | The entries of kmap together go through the 56 page tables of physical memory and the 8 of devices, wherever the data begin. |
| `Vm.Vm.Allocuvm` | Assignment1/xv6-public/vm.c:219-249 | Zeroed frames for the user to read and write, all different and not in use before, at every new page; or, exactly if fewer frames are free than the pages and the missing page tables, all user mappings as before and the frames back (new page tables stay). |
| `Vm.Vm.Deallocuvm` | Assignment1/xv6-public/vm.c:251-279 | Every page of the range is gone, exactly their frames are newly free and no other page changes; the skip over missing page tables misses none. |
| `Vm.Vm.Freevm` | Assignment1/xv6-public/vm.c:281-298 | The address space is gone, and exactly its directory, page tables and pages become free. |
| `Vm.Vm.Copyuvm` | Assignment1/xv6-public/vm.c:313-345 | A new address space with equal user pages on frames of its own, the same flags and the same kernel half as setupkvm makes; or, exactly if fewer frames are free than the pages and page tables of both halves, every frame back. |
| `Vm.Vm.Growproc` | Assignment1/xv6-public/proc.c:381-400 | Size and mapped pages agree afterwards if and only if not exactly all memory was given up; growing succeeds exactly below the kernel with enough free frames. |
| `Vm.Vm.SysSbrk` | Assignment1/xv6-public/sysproc.c:46-57 | The answer, the new size and which user pages are mapped, for every n as an int and every number of free frames. |
| `Break.OnlyGrowthMaps` | Assignment1/xv6-public/proc.c:381-400 | Only a positive argument of sbrk ever maps a page. |
| `Break.SbrkIs` | Assignment1/xv6-public/sysproc.c:46-57 | When sbrk answers, that its answer is the old end, what the new end is, and that exactly the pages that start below it are mapped, but none when all the memory is given up. |
| `Break.RoundUpIs` | Assignment1/xv6-public/mmu.h:90 | A page counts exactly if it starts below the size. |
| `Vm.Vm.Copyout` | Assignment1/xv6-public/vm.c:362-386 | For every va and length: the bytes are at va up to the first page that is not mapped for the user, which is in the kernel half at the latest, before addresses could wrap; no other byte of any address space changes. |
| `UserBytes.OutNext` | Assignment1/xv6-public/vm.c:372-384 | One turn of copyout: no other address space sees the store. |
| `UserBytes.BytesOut` | Assignment1/xv6-public/vm.c:362-386 | Each byte that copyout has stored is in the frame of its page, at its place there. |
| `Arena.LinkKeeps` | Assignment1/xv6-public/umalloc.c:29-33 | Linking a block in at its place keeps the list one address-ordered cycle and memory tiled. |
| `Arena.FreedKeeps` | Assignment1/xv6-public/umalloc.c:24-44 | After coalescing no two free blocks touch, and every unit has one owner. |
| `Arena.FreeBlocksApart` | Assignment1/xv6-public/umalloc.c:32-43 | No free block ends where another begins. |
| `Arena.HasFitIs` | Assignment1/xv6-public/umalloc.c:73-84 | The search of malloc has something to find exactly if some free block has the units. |
| `Arena.CoalescedIsFreed` | Assignment1/xv6-public/umalloc.c:32-43 | The stores of free amount to linking and merging. |
| `Arena.TakenWholeKeeps` | Assignment1/xv6-public/umalloc.c:75-77 | Handing out a free block whole keeps the list in order, nothing adjacent and memory tiled; it alone is newly allocated. |
| `Arena.TakenTailKeeps` | Assignment1/xv6-public/umalloc.c:78-82 | Cutting the tail off a free block keeps the list in order, nothing adjacent and memory tiled; the tail alone is newly allocated. |
| `Arena.GrownKeeps` | Assignment1/xv6-public/umalloc.c:47-61 | Memory from sbrk, entered as a block to be freed, keeps the list and the tiling. |
| `Arena.BlocksDoNotOverlap` | Assignment1/xv6-public/umalloc.c:21-44 | No two blocks, free or allocated, overlap. |
| `Umalloc.Umalloc.Free` | Assignment1/xv6-public/umalloc.c:24-44 | The search ends; the block is free, in a block that is large enough for it, and no other allocated block changes, although the addresses that it compares wrap. |
| `Umalloc.Umalloc.Morecore` | Assignment1/xv6-public/umalloc.c:46-61 | How it ends for every number of units: new memory free and in one piece, failure with nothing changed, units without memory behind them, or a stop at an address that is not mapped. |
| `Umalloc.CoreIsMemory` | Assignment1/xv6-public/umalloc.c:46-61 | There is memory behind the new units if and only if they are less than 2 GiB and sbrk grows the process; for more, no page is mapped. |
| `Umalloc.TwoGigabytes` | Assignment1/xv6-public/umalloc.c:46-61 | For 0x80000000 bytes sbrk changes nothing and answers with the end of memory, and units there are handed out, or the store of their header traps exactly if memory ends at a page. |
| `Umalloc.Umalloc.Malloc` | Assignment1/xv6-public/umalloc.c:63-90 | For every size: a block of exactly the units computed, disjoint from all others; sbrk is asked exactly if no free block fits, for the product in 32 bits read as an int. The block lies in the memory of the process if and only if one did or the core is less than 2 GiB. The search ends within one lap after new memory. |
| `Umalloc.UnitsAreEnough` | Assignment1/xv6-public/umalloc.c:69 | These units hold the bytes asked for exactly if the sum does not wrap in 32 bits; else there are none behind the header. |
| `ShellPrint.RoundTrip` | Assignment1/xv6-public/sh.c:265-446 | However a line is written (">" or ">>", any blanks between tokens, redirections before, among and after the words, parentheses that are not needed), it parses to the command that it stands for and all of the text is used. |
| `ShellPrint.EveryCommand` | Assignment1/xv6-public/sh.c:265-446 | Every command of at most nine proper words a piece can be written so that it parses back. |
| `ShellAccept.Language` | Assignment1/xv6-public/sh.c:265-446 | A text parses to a command if and only if it is a line that stands for it, written somehow: nothing else is accepted. |
| `ShellAccept.TooMany` | Assignment1/xv6-public/sh.c:437-438 | A tenth word panics with too many args. |
| `ShellAccept.ParenBehindWord` | Assignment1/xv6-public/sh.c:431-434 | A parenthesis behind a word panics with syntax. |
| `ShellAccept.Leftover` | Assignment1/xv6-public/sh.c:335-339 | A line with a closing parenthesis too many panics with syntax. |
| `ShellAccept.ParenMissing` | Assignment1/xv6-public/sh.c:407-408 | A parenthesis that is not closed panics. |
| `ShellAccept.FileMissing` | Assignment1/xv6-public/sh.c:381-382 | A redirection without a word behind it panics. |
| `ShellGrammar.Characters` | Assignment1/xv6-public/sh.c:262-263 | Which characters are blanks, signs and parts of words. |
| `Shell.Parser.Gettoken` | Assignment1/xv6-public/sh.c:265-308 | The cursor, the code and the slice are those of the first token, of which `ShellPrint.RoundTrip` and `ShellAccept.Language` tell what it is. |
| `Shell.Parser.Parseredirs` | Assignment1/xv6-public/sh.c:374-397 | Wraps the command in the redirections that the text begins with. |
| `Shell.Parser.Parseexec` | Assignment1/xv6-public/sh.c:415-446 | Words and redirections in any order, up to MAXARGS, agree with the grammar, panics included. |
| `Shell.Parser.Parseblock` | Assignment1/xv6-public/sh.c:399-413 | A block in parentheses and its redirections agree with the grammar, a missing parenthesis included. |
| `Shell.Parser.Parsepipe` | Assignment1/xv6-public/sh.c:361-372 | A pipeline agrees with the grammar: same command, same rest of the text, same panics. |
| `Shell.Parser.Parseline` | Assignment1/xv6-public/sh.c:344-359 | A line agrees with the grammar: same command, same rest of the text, same panics. The mutual recursion ends on every text. |
| `Shell.Parsecmd` | Assignment1/xv6-public/sh.c:327-342 | The command, read through its pointers in the buffer as nulterminate leaves it, is what the text parsed to; panics agree and then the buffer is as it was. |
| `Shell.Nulterminate` | Assignment1/xv6-public/sh.c:448-493 | Stores NULs exactly behind the words. |
| `Shell.WordsRead` | Assignment1/xv6-public/sh.c:448-493 | After nulterminate every argument and file name reads as exactly its token. |
| `Shell.EndsAreOutside` | Assignment1/xv6-public/sh.c:448-493 | No NUL is stored inside a word. |
| `Grep.Match` | Assignment1/xv6-public/grep.c:72-82 | 1 exactly if an instance of the expression is in the text, at its start for a leading ^. |
| `Grep.Matchhere` | Assignment1/xv6-public/grep.c:84-96 | 1 exactly if an instance begins the text; a final $ ends it there. Ends on all inputs. |
| `Grep.Matchstar` | Assignment1/xv6-public/grep.c:98-106 | 1 exactly if any number of instances of the character and then an instance of the rest begin the text. |
| `Grep.StarFirst` | Assignment1/xv6-public/grep.c:98-106 | What a starred item means: nothing, or one character, any if it is a dot, and the same again. |
| `Grep.ReadSpelled` | Assignment1/xv6-public/grep.c:84-96 | What is written as an expression, item by item with the anchor, is read as the same pattern. |
| `Grep.SpellRead` | Assignment1/xv6-public/grep.c:84-96 | Every expression is that of exactly the pattern that it is read as. |
| `Grep.WordFound` | Assignment1/xv6-public/grep.c:72-96 | An expression without stars and anchors is found exactly in the texts that it is a part of, a dot standing for every character. |
| `Grep.WordAtStart` | Assignment1/xv6-public/grep.c:72-96 | With ^ it is found exactly at the start. |
| `Grep.WordToEnd` | Assignment1/xv6-public/grep.c:84-96 | With $ behind it, it begins exactly the texts that agree with it to their end. |

## Left out

- Hardware, boot, drivers, console, exec, interrupts other than the timer: not modelled. Spinlocks, `swtch` and `xchg` are atomic steps.
- The DEFAULT scheduler, which runs each runnable process it meets in slot order and keeps no ready queue.
- `fmt/`, demo programs and kernel modules: printouts or programs without shared state.
- Liveness and fairness: the schedulers promise neither.
- Disk encodings: `struct dinode` and the super block are records, and a directory is a list of entries, not the bytes of its file. So the size of a directory and the blocks of its entries are not tied to `Fs`.
- Transaction.TransactionIsAtomic: the layout of inodes and bitmap inside a block is a parameter (`Transaction.Format`). Operations of several processes at once are in `Durability`, which has their logged contents but not which file they belong to.
- Log: `lh.block[0..n]` is a sequence, and in `Log` what the pinned buffers hold is a map from block to contents.
- Fs.Fs.Writei: T_DEV inodes, which go to the device's own functions, are not modelled.
- File.File.Read: inside an operation of another process, whether the log has room for blocks that nobody reserved is not modelled here; `Log.Log.LogWrite` has that panic.
- File.File.Write: no other process writes the file between two of its transactions. Pipes are in `Pipe`; device files are not modelled.
- The inode cache's slots (`iget` over NINODE entries) are not modelled: an inode has a reference count of its own.
- SysFile.SysFile.Create: each system call is one step, and the parent directory has links, since the code does not check that it has not been removed. There is one device.
- Naming.UnlinkedPath: is for trees in which no directory has a name twice, as all calls leave them; a volume made with a name twice in a directory is not covered.
- SysFile.SysFile.Link: the width of nlink (16 bits) is not modelled.
- SysFile.SysFile.Namex: the working directory has links; in a removed one ".." need not lead anywhere.
- Ready: equal creation times are served in any order under FCFS, as in the code.
- ProcTable.ProcTable.FinishFork: the assignment of the parent outside ptable.lock is part of this step. Pids do not overflow.
- ProcTable.ProcTable.Chpr: what lies behind the table or the rings is not modelled; such an access ends the call with its own result. It is for MLQ.
- ProcTable.ProcTable.Tick: the increment of ticks and the charges to the processes are one step.
- SleepLock: what the ready queues do is not part of it; a woken process is RUNNABLE and any RUNNABLE process may be chosen.
- FileTable and OpenInodes: each system call is one step, but for the references that a call holds meanwhile.
- Pipe: the wakeups of other processes by kill are a ghost step; the memory of a freed pipe is not modelled.
- Vm: kernel stacks, `inituvm`, `loaduvm`, `clearpteu` and the TLB. The flag bits of an entry are one number, and a frame is either a table or a page of bytes. `kfree` takes frames that are in use and named by no entry.
- Vm.Vm.Copyout: what happens after the null entry of a missing page table is not modelled; it is reported as `fault`.
- Umalloc.Umalloc.Malloc: addresses are counted in headers, and memory is what `sbrk` has left of the process; other callers of `sbrk` may only grow it by whole headers. Once a block without memory has been handed out nothing is promised of later calls; where its end wraps onto the list head (`Wrap`) the call stops there.
- Shell: the exec node that `parseexec` fills under its redirections is a value that is rebuilt (`Added`), so sharing is not modelled. `runcmd` and the prompt loop are not part of this model.
- Grep: the line-buffer loop, which discards text when a read leaves no newline.
- The C programs' panics for running out of blocks, inodes or buffers end the run; nothing is promised after them.

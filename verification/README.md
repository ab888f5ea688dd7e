# xv6, modelled and proved in Dafny

This project models the parts of xv6 whose correctness spans several functions, and proves
what each part is there to guarantee. Sizes (NBUF, LOGSIZE, MAXOPBLOCKS, NPROC, PIPESIZE,
the file-system geometry) are symbolic wherever a result does not depend on their values;
where it does, the relation between them is a hypothesis or one side of an if-and-only-if.

Code that updates structures in place is modelled by classes and loops, each proved against
a specification function or a stated property: the log, the buffer cache, the inode layer,
mkfs, pipes, sleep locks, the scans of the process table, malloc, page tables, directories
and the shell's parser. Protocols with many participants are step systems, and their results
hold over every run.

- **The log** (log.c): `LogSpec`, `Crash`, `LogRuns`, `LogTheorems`, `LogPanic`, `LogCode`.
  A disk is a sequence of blocks and a block write is atomic. `LogRuns` interleaves
  begin_op, the two halves of log_write, end_op, every single write of commit, crashes, and
  recoveries that crash and start again.
- **The buffer cache** (bio.c): `BufferCache`, `CachedLog` for the log on top of it, and
  `CacheRoom` for how many buffers the two need.
- **The inode layer** (fs.c, file.c, mkfs.c): `FileSpec`, `FileBytes`, `Files`, `FileCost`,
  `Mkfs` and `MkfsRun`. A file is a byte sequence; blocks, indirect blocks, the free map and the inode table
  implement it; `logged` collects what is given to log_write. `FileCrash`, `FileOps`,
  `FileRuns` and `FileProgress` put files on top of the log, `FileCode` ties the code to those
  runs, and `FileDisk` gives xv6's own encoding of bytes, bits and inodes.
- **sleep and wakeup** (proc.c, sleeplock.c, pipe.c, log.c): `Monitor` interleaves any number
  of processes at the granularity of lock operations. It is parametric in the code, given as
  the set of stretches that run under the condition lock. `SleepLocks`, `Pipes` and `LogCode`
  supply exactly the stretches their methods are proved to make.
- **Processes** (proc.c): `Procs`, `ProcRuns`, `ProcCode`, `ProcTree`, `ProcTheorems`,
  `ProcWakeups`, `ProcWaits`, `ProcBirths`, `ProcProgress`.
- **Directories and link counts** (sysfile.c, fs.c): `LinkSpec`, `Links`.
- **Page tables** (vm.c, kalloc.c): `VmSpec`, `Vm`.
- **User programs**: malloc (umalloc.c) in `HeapSpec` and `Heap`; the regular expressions of
  grep.c in `Grep`; the parser of sh.c in `ShellSpec`, `ShellText` and `Shell`.

## Findings

Properties that the code does not have, each with an input that shows it and the exact
condition under which it holds.

| property | witness | holds if and only if |
|---|---|---|
| every file-system operation is all or nothing across crashes | `LogPanic.ReachTorn`: two operations pass log_write's tests, which run before the lock is taken (log.c:218-223), and both append; write_log then overwrites the home block behind the log region before the header is written | `LogPanic.AllOrNothingIff`: the log region is larger than LOGSIZE, or only one operation can be open at a time, or the region has room for its header alone |
| a log_write within its reservation never panics with "too big a transaction" | `LogPanic.ShippedSizesFail`, with the shipped sizes (mkfs.c:25 makes the region LOGSIZE blocks long, header included) | `LogPanic.GuardSafeIff`: the log region is larger than LOGSIZE |
| a process asleep in piperead sleeps on an empty pipe | `Pipes.KilledWriterStrandsReader`: a killed writer fills the pipe and leaves without a wakeup (pipe.c:85-88) | `Pipes.ReaderSafeIff`: no writer is killed; `Pipes.WriteMindsIff` gives the condition on one call |
| after create or link, every link count equals the number of entries | `Links.MadeInUnlinked` and `Links.DirMadeInUnlinked`: a file, or a directory, made in a directory that is itself unlinked and still open (sysfile.c:248-281) | `Links.Tree.Create` and `Links.Tree.LinkEnd`: the parent is linked |
| mkfs leaves no hole below the size of the root directory | `Mkfs.RootHole`: a root directory that fills its blocks exactly (mkfs.c:158-163) | `Mkfs.Image.FixRoot`: the size is not a multiple of BSIZE |
| after growproc the pages mapped match the size | `Vm.ShrunkToNothing`, on any three frames behind the kernel: deallocuvm's result 0 is taken for a failure (proc.c:168-170) | `Vm.Vm.Growproc`: the process does not shrink from a positive size to exactly 0 |
| no process is born killed | `ProcBirths.KillZero`: kill compares pids and not states (proc.c:485-487), and an unused slot has pid 0, so after kill(0) the process that the next fork puts into that slot is killed from the start | `ProcBirths.NobodyBornKilledIff`: no kill is given the pid of a slot that holds no process yet; `ProcBirths.BornKilledIff` says of each birth in each run which kills did it |
| bget never panics with "no buffers" | `CacheRoom.ReadOneMore`: l blocks are logged, which keeps their buffers dirty, k others are held, and one more is read; with the shipped 30 buffers and a list of 29 blocks one held buffer is enough (param.h:11-12, bio.c:79-92) | `CacheRoom.ReadOneMore` and `CachedLog.LoggedCache.Bread`: NBUF is larger than the list and the number of referenced buffers together |
| malloc returns a block large enough for the bytes asked for | `Heap.LargeEnoughIff`: for 2^32 - 1 bytes the rounding wraps and one unit is returned | `Heap.LargeEnoughIff`: at most 2^32 - 8 bytes are asked for |

## Model

| member | source | states |
|---|---|---|
| `LogSpec.HeaderRoundTrip` | log.c:84-113 | read_head gives back the list that write_head wrote over any header block |
| `Crash.CommitIsAtomic` | log.c:176-202 | after every prefix of commit's writes the disk is recoverable; it means the state before the transaction up to the header write and the state after it from then on; after the last write the log is empty and the home blocks hold the new state |
| `Crash.CommitHeader` | log.c:98-113 | the on-disk header is empty, then the transaction, then empty again |
| `Crash.RecoveryIsAtomic` | log.c:68-122 | after every prefix of recovery's writes the disk means what it meant, so recovery can crash and restart; when it finishes, that meaning is in the home blocks and the log is empty |
| `Crash.NextIsAt` | log.c:176-202 | the write that the code makes next, computed from what the cache shows by then, is the write of the specification |
| `LogTheorems.RunKeepsInv` | log.c:124-233 | in every run, whatever the sizes: operations are counted, a commit has the log to itself, reservations hold, and the writes of an operation are wholly in the current transaction or wholly committed |
| `LogTheorems.AllOrNothing` | log.c:124-233 | with room in the log region, at every moment of every run a crash and recovery yields the initial state with whole operations applied in order, and no write of an operation still open |
| `LogTheorems.RecoveredContents` | log.c:115-174 | with room in the log region, the cache shows every write made since the crash, and with no operation open everything it shows is on disk |
| `LogTheorems.GroupCommit` | log.c:125-174 | in every run `committing` is set exactly during a commit, no operation is open then and none is admitted, and end_op never finds it set |
| `LogTheorems.WaitIsForSomeone` | log.c:128-140 | in every run a process that must wait in begin_op has a commit or an open operation to wait for |
| `LogTheorems.AdmitsIff` | log.c:124-141 | in every run, k more operations can begin one after the other if and only if no commit or recovery is under way and the list and outstanding + k reservations fit LOGSIZE |
| `LogTheorems.EverybodyGoesOn` | log.c:124-233 | in every run with room in the log region nobody is stuck: an open operation can end, passes the tests of log_write if and only if the list has room, and past them can append any block its reservation allows; a commit or recovery can make its next write or is done |
| `LogTheorems.CommittedStays` | log.c:143-174 | what has committed stays committed |
| `LogTheorems.ReservationHolds` | log.c:132-136 | in every run the list and the unused reservations together fit LOGSIZE; with a region larger than LOGSIZE a log_write with reservation left passes the tests |
| `LogTheorems.AppendFits` | log.c:218-230 | an append by an operation within its reservation fits the header and the log region |
| `LogPanic.GuardSafeIff` | log.c:218-219 | no reachable log_write with reservation left trips the guard if and only if the region is larger than LOGSIZE |
| `LogPanic.ReachTorn` | log.c:176-223 | whenever the log holds two operations and the region has between 2 and LOGSIZE blocks, some run leaves a disk that is not made of whole operations |
| `LogPanic.AllOrNothingIff` | log.c:124-233 | every reachable disk is made of whole operations if and only if the region is larger than LOGSIZE, or holds one operation, or has one block |
| `LogPanic.ShippedSizesFail` | mkfs.c:25 | the shipped sizes are on the failing side of both conditions |
| `LogCode.Log.constructor` | log.c:53-66 | an empty list over a given disk |
| `LogCode.Log.WriteLog` | log.c:176-190 | for any list whose log blocks are on the disk: one write per listed block, in order, each of what the cache shows by then, which is the first part of the writes of LogRuns; for a list that fits, log block i ends up with the i-th listed block; no other block changes |
| `LogCode.Log.InstallTrans` | log.c:68-82 | for any such list: one write per listed block, in order, each of what the log block holds by then; for a list that fits, the i-th listed block ends up with log block i; no other block changes |
| `LogCode.Log.ReadHead` | log.c:84-96 | the in-memory list becomes the on-disk one, word 0 its length and word i + 1 its i-th block |
| `LogCode.Log.WriteHead` | log.c:98-113 | one write, of the encoded header: the length, the block numbers, and the rest of the block as it was |
| `LogCode.Log.RecoverFromLog` | log.c:115-122 | exactly the writes of the specification; afterwards disk and cache hold what the disk meant |
| `LogCode.Log.Commit` | log.c:192-202 | for any such list, overrunning ones included: exactly the writes that the step system makes one by one; if the list fits the region and the cache differs from the disk on listed blocks only, these are the writes of the specification, and afterwards the home blocks hold what the cache showed and the log is empty |
| `LogCode.CommitIsSpec` | log.c:192-202 | after k writes of the code, disk, cache and record of writes are those of the specification |
| `LogCode.RecoverIsSpec` | log.c:68-122 | the same for recovery |
| `LogCode.Log.TryBeginOp` | log.c:124-141 | waits if and only if a commit is under way or the list and one more reservation than are outstanding exceed LOGSIZE; otherwise one more operation is outstanding; the stretch it makes under the lock; if it sleeps, then where the end of a commit and an end_op that leaves operations open wake it |
| `LogCode.Log.TryEndOp` | log.c:145-162 | when it panics, when it commits, and the stretch it makes under the lock |
| `LogCode.Log.FinishCommit` | log.c:164-172 | the stretch after commit |
| `LogCode.Log.LogTest` | log.c:218-221 | the guard of the step system; as long as the list stays as it is, it panics if and only if a block that is not listed would not fit the header or the region, or no operation is open |
| `LogCode.Log.LogAppend` | log.c:223-232 | the block goes to the end of the list unless it is there already, and the cache shows the new contents; nothing looks at the space left |
| `LogCode.BeginOpSleeps` | log.c:124-174 | in every run, whoever sleeps while log.lock is free, on whatever channel, sleeps because of a commit or because the list and one more reservation exceed LOGSIZE |
| `LogCode.StepIsCode` | log.c:124-233 | every step of the log's runs between crashes is, for the counters, one of those stretches as its callers use it, commit's unlocked change followed by one, or nothing |
| `LogCode.BeginOpSleepsForSomeone` | log.c:124-174 | in every run from an idle log, if one operation fits the log: whoever sleeps while log.lock is free, on whatever channel, sleeps during a commit or while an operation is open, and never are both the case |
| `BufferCache.Cache.constructor` | bio.c:38-56 | one cycle through head and all buffers, no buffer valid, and the disk's contents shown |
| `BufferCache.Cache.Bget` | bio.c:58-93 | the buffer of the block if there is one; otherwise, of the buffers neither referenced nor dirty, the one released longest ago is reassigned; a panic if and only if there is neither; no logical contents change and no referenced buffer changes its block |
| `BufferCache.LastIsOldest` | bio.c:79-91 | the last free buffer in the list is the one released longest ago: the list is always in the order of the last release |
| `BufferCache.Cache.BreadTail` | bio.c:95-106 | the buffer shows the latest logical contents of its block |
| `BufferCache.Cache.Bwrite` | bio.c:108-116 | the logical contents of the block reach the disk and no reader sees a change |
| `BufferCache.Cache.Modify` | fs.c:502 | a store into a held buffer changes exactly that block's logical contents |
| `BufferCache.Cache.Pin` | log.c:231 | B_DIRTY is set and no logical contents change |
| `BufferCache.Cache.ReleaseSleep` | bio.c:120-126 | a panic if and only if another process holds the lock; otherwise it is given up, and the cache is in order if and only if the buffer was logged, written out or unchanged |
| `BufferCache.Cache.Unref` | bio.c:128-139 | with the last reference the buffer moves to the front of the list as the latest released, and every other buffer keeps its place in line |
| `BufferCache.MoveOk` | bio.c:131-138 | the six pointer stores keep one cycle through all records |
| `BufferCache.UpdateLogical` | bio.c:58-116 | what the change of one record does to the block map that the cache stands for |
| `CachedLog.ReadyToCommit` | log.c:204-233 | with every dirty buffer on the list and nobody in the middle of a change, the cache differs from the disk on listed blocks only, which is what commit needs |
| `CachedLog.LoggedCache.Ready` | log.c:192-233 | so the log over the cache, with nobody in the middle of a change, meets the precondition of commit |
| `CachedLog.LoggedCache.Bread` | bio.c:95-106 | whatever other buffers are held: the latest contents of the block, in a buffer the caller holds; nothing shown changes and no other buffer changes its block, holder or references; no panic as long as there are more buffers than listed blocks and referenced buffers together |
| `CachedLog.LoggedCache.LogBlock` | log.c:204-233 | changing, logging and releasing a buffer changes that block's shown contents, puts it on the list, drops one reference and leaves the disk and every other buffer alone; with the last reference gone the buffer is the latest released |
| `CachedLog.LoggedCache.WriteBlock` | bio.c:108-141 | changing, writing and releasing a buffer changes that block both in the cache and on disk, leaves its buffer clean, drops one reference and leaves every other buffer alone; with the last reference gone the buffer is the latest released |
| `CachedLog.NoneFreeBound` | bio.c:79-92 | if every buffer is referenced or dirty, there are no more buffers than listed blocks and referenced buffers together |
| `CacheRoom.ReadOneMore` | bio.c:58-93 | for any sizes: l blocks read, logged and released, k more read and held, and one more read; bget panics on the way if and only if there are at most l + k buffers |
| `CacheRoom.Rounds` | bio.c:95-141 | any number of rounds of bread, bwrite and brelse from a cache with a free buffer: none panics, every block has on disk and in the cache what was written last, a buffer is still free and no reference is lost or left behind |
| `FileSpec.ClaimAddrInv` | fs.c:378-382 | giving a free block to an empty address keeps ownership exact and changes no file |
| `FileSpec.ClaimWordInv` | fs.c:385-397 | the same for a word of the indirect block |
| `FileSpec.PutBlockInv` | fs.c:498-504 | writing the block in one slot changes that block of that file and nothing else |
| `FileSpec.InodePlace` | fs.h:38-42 | inode i is in the block whose inodes are numbered from c * IPB to (c + 1) * IPB - 1, and no two inodes share a place |
| `FileSpec.BitPlace` | fs.h:44-48 | the same for the bit of a block in the bitmap |
| `FileSpec.WordBytes` | fs.c:385-397 | a word of an indirect block is its four bytes, the least significant first |
| `FileBytes.QuotIsQuotient` | fs.c:468-471 | the quotient that the byte positions are cut with is integer division |
| `FileBytes.WroteIsSplice` | fs.c:498-504 | the block-wise pieces add up to replacing [off, off + n) in the byte sequence |
| `Files.Fs.Balloc` | fs.c:55-78 | the first free block, marked and zeroed, with itself and the bitmap block that holds its bit logged; a panic if and only if no block is free |
| `Files.Fs.Bfree` | fs.c:80-96 | the bit is cleared and the bitmap block that holds it logged; a panic if and only if the block was free |
| `Files.Fs.Bmap` | fs.c:371-401 | the block of a file block, a direct address or a word of the indirect block, allocated if missing, indirect block included; no file's contents change, only the slots for that block are filled, and every change is logged |
| `Files.Fs.Readi` | fs.c:450-477 | the slice of the contents; without holes nothing is allocated or changed |
| `Files.Fs.Writei` | fs.c:479-512 | the contents with [off, off + n) replaced and the size max(size, off + n); no other file changes; no block moves; only blocks of the range are allocated; every block that changed is logged; the disk inode is current; q blocks' worth of bytes log at most 2q + 4 blocks; a panic means no block is free and one is missing |
| `Files.Fs.Iupdate` | fs.c:217-237 | the disk inode becomes the inode, and what is logged is the block of the inode region that holds inode i |
| `Files.Fs.Itrunc` | fs.c:403-436 | exactly the inode's blocks become free, bfree never panics, type and link count stay, no other file changes, what is logged is exactly the inode's block and the bitmap blocks of its bits, and a file system at rest is left at rest |
| `FileSpec.TruncCost` | fs.c:403-436 | itrunc logs at most one block more than there are bitmap blocks, and exactly one more than the bitmap blocks its bits lie in |
| `Files.Fs.SetNode` | sysfile.c:227-228 | type and link count of one inode change, in memory and on disk; no contents change, the inode's block is logged, and it is a transaction |
| `Files.Fs.WriteChunk` | file.c:134-146 | one transaction: at most MAXOPBLOCKS blocks, everything that changed is among them, no other file changes, and a file system at rest is left at rest |
| `Files.Fs.Filewrite` | file.c:115-156 | whatever the outcome the bytes up to the new offset are in the file and no other file has changed; it fails if and only if the write starts beyond the end or would pass the largest size; its chunks lead from the first state to the last, each a transaction of at most MAXOPBLOCKS blocks, and every chunk but the last is full |
| `Files.WriteCost` | file.c:127-137 | pieces, new blocks, the indirect block and the inode together are at most 2q + 4 |
| `FileCost.TenBlocks` | file.c:127-137 | with fs.h's sizes an unaligned chunk reaching the indirect block logs exactly 10 blocks |
| `FileSpec.TransactionTrans` | log.c:9-16 | transactions one after the other, joined by group commit, are a transaction of the union of what they logged |
| `FileCrash.CarriedIs` | log.c:204-233 | because every change is logged, a disk that takes over the logged blocks of a transaction and nothing else holds the new file system, whatever the encoding of bitmap and inodes |
| `FileCrash.CarriedIsWhole` | log.c:204-233 | and it is at rest if the old one was, and has whatever else the transaction keeps |
| `FileCrash.RunKeepsFiles` | log.c:124-233 | in every run with room in the log region: what is durable is a file system at rest, and an open group of operations has changed listed blocks only since one |
| `FileCrash.FilesSurviveCrashes` | log.c:115-202 | if the operations of each group together make a transaction, then at every moment of every run a crash and recovery leaves a disk on which each block is free or owned by exactly one slot of one inode, and which has whatever else the transactions keep of what was committed; while no operation is open the cache shows such a file system |
| `FileOps.Perform` | file.c:115-156 | a chunk of filewrite, itrunc, or an inode update does on all files what it means: one is spliced, emptied, or given a type, device numbers and a link count, and every other stays; it is a transaction; a chunk logs at most MAXOPBLOCKS blocks, itrunc at most one more than there are bitmap blocks, an inode update one |
| `FileOps.PerformsJoin` | log.c:9-16 | pieces one after the other, within one transaction, do what they do one after the other |
| `FileOps.Unlink` | sysfile.c:218-232 | sixteen bytes of the directory are zero and its other bytes as they were, the inode has a link less, and types, device numbers, link counts and contents are otherwise as they were; it is one transaction and logs at most seven blocks |
| `FileRuns.SerialGroups` | log.c:9-16 | if the operations of each group do not interleave their log_writes, though any number may be open at once, and some or all of them may log nothing, then each group is a transaction |
| `FileRuns.FilesAreOperations` | log.c:115-202 | in every run of such operations, each of them any list of pieces, with room in the log region, at every moment: after a crash and recovery type, link count and contents of all files are those found at boot with exactly the committed operations applied, each whole and in order, on a file system at rest; while no operation is open the cache shows that with the uncommitted ones applied as well |
| `FileProgress.OperationRuns` | log.c:124-233 | from every idle moment of such a run, and for every operation that logs at most MAXOPBLOCKS blocks, the run can go on with that operation from begin_op to end_op, and is still such a run |
| `FileProgress.ReadingRuns` | log.c:124-174 | so can it with an operation that logs nothing |
| `FileProgress.CommitEnds` | log.c:143-202 | from there the run can go on to the end of the commit, and the file system that the cache shows stays what it is |
| `FileCode.WrittenCarries` | fs.c:217-237 | whatever the code makes of the file system can be written block by block, with any encoding that can be read back |
| `FileCode.WrittenDone` | log.c:204-233 | a stretch of a run that logs the blocks that an operation's code has logged, as the code has made them, is that operation |
| `FileCode.RunOperation` | file.c:115-156 | from every idle moment, if the code of a piece succeeds, the run goes on with it over its commit to an idle moment in which the cache shows the file system that the code has made |
| `FileCode.RunUnlink` | sysfile.c:183-239 | the same of the file system that the cache shows in the idle moment after the commit, against the one it showed before |
| `FileDisk.BitBack` | fs.c:55-96 | a bit of the free map reads back as written: bit k % 8 of byte k / 8 |
| `FileDisk.NodeBack` | fs.h:28-36 | each of the eight inodes of a block reads back from the 64 bytes of its struct dinode, whatever the others are: type, device numbers, link count, size and addresses |
| `FileDisk.ShortsBack` | fs.h:28-36 | the type is the signed short at bytes 0 and 1 of a struct dinode, major and minor those at bytes 2 to 5, the link count the one at bytes 6 and 7 |
| `FileDisk.WritesBytes` | fs.h:28-36 | whatever is written is 512 numbers below 256 |
| `FileDisk.DiskEncodes` | fs.h:28-36 | xv6's own encoding is one that can be read back |
| `FileDisk.DiskValid` | mkfs.c:22-26 | mkfs's layout keeps log, inodes, bitmap and data apart, for any length of the log; it has room in the sense of the results above if and only if the log has one block or more than LOGSIZE |
| `Mkfs.Image.constructor` | mkfs.c:94-111 | a zeroed image satisfying the ownership invariant, with zeros behind the end of every file |
| `Mkfs.RegionsApart` | mkfs.c:22-26 | for any sizes, the blocks of all inodes lie behind the log and before the bitmap, and the bits of all blocks before the first data block |
| `Mkfs.ShippedIsLaid` | mkfs.c:22-26 | the layout of the shipped sizes is the one used in the concrete results |
| `Mkfs.Image.Ialloc` | mkfs.c:223-235 | the next inode number, whose inode gets its type and one link and nothing else; no contents change |
| `Mkfs.Image.Iappend` | mkfs.c:253-297 | the bytes are added at the end of the file, its size grows by their number, its type, device numbers and link count stay, what is behind its end stays zero, and no other file changes; how many blocks it takes; it fails only when the file would be too long or the image is full |
| `Mkfs.Image.FixRoot` | mkfs.c:158-163 | the rounded size and nothing else of any inode; the contents are as before and then zeros; a hole below the size if and only if the size was a multiple of BSIZE |
| `Mkfs.Image.Balloc` | mkfs.c:237-251 | the bitmap makes the finished image satisfy the ownership invariant; it can be written if and only if the blocks in use fit one bitmap block |
| `Mkfs.RootHole` | mkfs.c:158-163 | with the shipped sizes, a root directory of one full block ends up with a hole |
| `MkfsRun.Append` | mkfs.c:253-297 | on the files of an image, iappend adds the bytes to one and leaves its type and link count and every other file alone |
| `MkfsRun.Copy` | mkfs.c:150-153 | any number of appends to an inode: all the bytes in order, and type and link count as ialloc set them |
| `MkfsRun.DirentBack` | fs.h:50-57 | the inode number and the name, cut at DIRSIZ or filled up with zeros, read back from the sixteen bytes of a directory entry |
| `MkfsRun.LineAt` | mkfs.c:114-150 | the entries of the root directory, byte by byte: "." and ".." with number 1, then number 2 + k and the name of file k |
| `MkfsRun.Make` | mkfs.c:94-168 | for any files of the host: every block has one owner and the bitmap marks the blocks in use; the root directory is a directory with one link, its two own entries, one for each file in order, and zeros up to a block boundary; inode 2 + k is a file with one link and the bytes of file k; every other inode is free; it fails only if blocks, the one bitmap block or the largest file size do not suffice |
| `Monitor.NoLostWakeup` | proc.c:415-474 | if every stretch of code minds the sleepers on a channel, then in every interleaving, whenever the condition lock is free, whoever sleeps on it or is committed to sleeping waits for something that has not happened |
| `Monitor.SleepsWhereCoded` | proc.c:415-474 | in every run a process that sleeps, or is past giving up the lock, does so on a channel on which a stretch of the code sleeps |
| `Monitor.MutualExclusion` | proc.c:415-474 | in every run of any code at most one process is inside, and at most one holds ptable.lock |
| `Monitor.EverybodyGoesOn` | proc.c:415-474 | in every run a process can take its next step if and only if the locks it needs for it are free, and inside it can run any stretch that fits |
| `SleepLocks.SleepLock.TryAcquire` | sleeplock.c:22-32 | the lock is taken, and the process its holder, if and only if it was free; otherwise the channel slept on is one that releasesleep wakes; the stretch made under the spin lock |
| `SleepLocks.SleepLock.ReleaseSleep` | sleeplock.c:34-42 | the lock is free; the stretch made under the spin lock |
| `SleepLocks.SleeperImpliesLocked` | sleeplock.c:22-42 | in every run, whoever sleeps while the spin lock is free, on whatever channel, sleeps while the lock is held |
| `SleepLocks.SleepLock.HoldingSleep` | sleeplock.c:44-54 | true if and only if it was this process that took the lock and nobody has given it back since |
| `Pipes.ModIsRemainder` | pipe.c:93 | the index into the buffer is the remainder of the count |
| `Pipes.WrapKeepsIndexIff` | pipe.c:13-20 | indexing with wrapped counters is indexing with full counts if and only if the buffer size divides 2^32 |
| `Pipes.WrappedCounts` | pipe.c:85-106 | wrapped counters tell empty and full apart |
| `Pipes.Pipe.constructor` | pipe.c:22-46 | an empty pipe with both ends open |
| `Pipes.Pipe.Put` | pipe.c:93 | the byte is accepted last and the ring still holds all bytes in between |
| `Pipes.Pipe.Get` | pipe.c:113-117 | the next accepted byte is delivered |
| `Pipes.Pipe.WriteSegment` | pipe.c:77-98 | which bytes are accepted, when the writer returns, sleeps or fails, and the stretch made under the lock; if it sleeps, then where every read and the close of the read end wake it |
| `Pipes.Pipe.ReadSegment` | pipe.c:100-121 | which bytes are delivered, when the reader returns, sleeps or fails, and the stretch made under the lock; if it sleeps, then where every write by a writer that is not killed and the close of the write end wake it |
| `Pipes.Pipe.Close` | pipe.c:59-75 | which end closes, when the pipe is freed, and the stretch made under the lock |
| `Pipes.WriterSleepsOnFull` | pipe.c:59-121 | in every run, killed writers included, whoever sleeps while the lock is free, on any channel but the readers', sleeps on a full pipe with the read end open |
| `Pipes.ReaderSleepsOnEmpty` | pipe.c:59-121 | in every run without killed writers, whoever sleeps while the lock is free, on any channel but the writers', sleeps on an empty pipe with the write end open |
| `Pipes.WriteMindsIff` | pipe.c:77-98 | a stretch of pipewrite tells the readers of its bytes unless a killed writer with more than PIPESIZE bytes finds the pipe empty and both ends open |
| `Pipes.KilledWriterStrandsReader` | pipe.c:85-88 | a run that ends with the lock free, the pipe full and the reader asleep |
| `Pipes.ReaderSafeIff` | pipe.c:77-121 | sleeping readers are right in every run if and only if no writer is killed |
| `Procs.Table.Wakeup1` | proc.c:454-465 | every sleeper on the channel becomes runnable and nothing else about it changes; every other slot stays as it is |
| `Procs.Table.Exit` | proc.c:250-265 | field by field: the process is a zombie, its children are init's, exactly the sleepers on the parent, and on init if a child is a zombie, become runnable, and nothing else changes |
| `Procs.Table.WaitScan` | proc.c:278-305 | the first zombie child is cleared, mark of kill, stack and page table included, and its pid returned; otherwise nothing changes and it says whether there are children |
| `Procs.Table.KillScan` | proc.c:479-497 | the first slot with the pid, of whatever state, is marked killed and made runnable if it slept; -1 if and only if there is none |
| `Procs.Table.AllocScan` | proc.c:79-92 | the first unused slot becomes an embryo |
| `ProcCode.Kill` | proc.c:479-497 | the scan of kill takes the step Kill, of the one slot for which it is possible with that pid, or there is none |
| `ProcCode.Wait` | proc.c:278-311 | the scan of wait takes the step WaitReap, of the one slot for which it is possible, and returns its pid, or there is none; wait takes the step WaitSleep if and only if it is possible, and then the exit of any of its children makes it runnable |
| `ProcCode.Alloc` | proc.c:74-92 | the scan of allocproc takes the step AllocSlot, of the one slot for which it is possible, or there is none |
| `ProcCode.Exit` | proc.c:250-265 | exit takes the step ExitNow |
| `ProcCode.Wakeup` | proc.c:454-474 | wakeup takes the step WakeupAll |
| `ProcCode.Sleep` | proc.c:415-450 | sleep takes the step Sleep, and a wakeup on the same channel makes the process runnable |
| `ProcTheorems.StepKeepsInv` | proc.c:69-497 | every step of scheduler, yield, sleep, wakeup, kill, fork, exit and wait keeps the invariant |
| `ProcTheorems.RunningIffOnOneCpu` | proc.c:314-413 | in every run, whenever ptable.lock is free, a process is RUNNING if and only if it is the process of exactly one CPU |
| `ProcTheorems.TreeRootedAtInit` | proc.c:177-312 | in every run every process not yet reaped has a chain of live parents up to init, and only live processes have children |
| `ProcTheorems.NoSleeperHasZombie` | proc.c:224-312 | in every run nobody sleeps in wait with a zombie child |
| `ProcTheorems.FreedOnce` | proc.c:177-312 | in every run a kernel stack and a page table that were handed out are held by one slot or have been freed exactly once, never both |
| `ProcWakeups.WokenIff` | proc.c:415-497 | in every run a step makes a sleeper runnable if and only if it is a wakeup on its channel, a kill of it, or in wait the exit of a child, and for init the exit of a parent of zombies; otherwise it sleeps on where it was |
| `ProcWakeups.WaiterHasChild` | proc.c:268-312 | in every run whoever sleeps in wait has a child that is alive |
| `ProcWaits.WaiterIsOwed` | proc.c:268-312 | in every run, a process that went to sleep in wait and has not been scheduled since is runnable, or asleep with a child that is alive and none that is a zombie |
| `ProcWaits.ExitIsHeard` | proc.c:224-312 | in every run, the exit of a child of a process that went to sleep in wait and has not been scheduled since leaves that process runnable and the child its zombie |
| `ProcWakeups.LifeCycle` | proc.c:69-497 | in every run a step takes a slot only along an arrow of the life cycle, and changes its mark of kill only by kill and by the reaping of the slot |
| `ProcWakeups.ScanIsWake` | proc.c:454-465 | the scan of the process table and the scan in Monitor wake the same processes |
| `ProcWakeups.SleepIsSleep` | proc.c:415-449 | sleep in the process table is sleep in Monitor |
| `ProcWakeups.KillIsKill` | proc.c:479-497 | the kill of a sleeper in the process table is the one in Monitor |
| `ProcBirths.MarkedIff` | proc.c:479-497 | in every run a slot without a process is marked killed if and only if a kill hit it since boot or since its last process was reaped |
| `ProcBirths.BornKilledIff` | proc.c:177-497 | in every run a process that has just become runnable is killed if and only if a kill hit its slot while no process was in it |
| `ProcBirths.KillZero` | proc.c:177-497 | a run in which kill(0) hits an unused slot, no process having pid 0, and fork makes a process in that slot that is born killed |
| `ProcBirths.NobodyBornKilledIff` | proc.c:177-497 | nobody is born killed, in every run, if and only if kills never hit slots without a process |
| `ProcProgress.EverybodyGoesOn` | proc.c:177-413 | in every run nobody is stuck: with the lock free whoever runs can take it; a scheduler that holds it can run any runnable process; a process that holds it can yield, sleep and wake, and outside fork kill with a pid if and only if some slot has it, reap if and only if it has a zombie child, begin a fork if and only if a slot is unused, exit unless it is init, and sleep in wait if and only if it has children, none of them a zombie, and is not killed; a fork under way can succeed or fail at each stage |
| `LinkSpec.LinkInv` | sysfile.c:144-155 | entering a promised link keeps every count right |
| `LinkSpec.MadeInv` | sysfile.c:258-281 | making a directory, with "." and ".." and the parent's extra link, keeps every count right |
| `LinkSpec.MadeNowhere` | sysfile.c:258-281 | making a directory in an unlinked one makes the count wrong of the inode that ".." of the unlinked one names, whichever that is by now |
| `LinkSpec.UnlinkFileInv` | sysfile.c:218-232 | taking a file's entry and link away keeps every count right |
| `LinkSpec.RmdirInv` | sysfile.c:218-232 | taking an empty directory away keeps every count right |
| `LinkSpec.NoneNames` | sysfile.c:168-232 | an empty directory without its entry is named by no linked directory |
| `Links.Tree.constructor` | mkfs.c:117-128 | the root directory alone, with every link count equal to its number of entries and no link promised |
| `LinkSpec.SettledExact` | sysfile.c:117-164 | while no call of link is under way, right counts mean nlink equal to the number of entries naming the inode in linked directories |
| `Links.Tree.Dirlookup` | fs.c:523-549 | an entry with the name, or none if and only if the name is absent |
| `Links.Tree.Dirlink` | fs.c:551-579 | an entry in the first empty slot or at the end, if and only if the name is absent; every other entry stays |
| `Links.Tree.Isdirempty` | sysfile.c:167-181 | true if and only if there is nothing beyond "." and ".." |
| `Links.Tree.LinkBegin` | sysfile.c:117-142 | one link is promised, unless the inode is a directory |
| `Links.Tree.LinkEnd` | sysfile.c:144-164 | the entry is made or the link taken back, and the promise is settled; every count is right if and only if the parent is linked |
| `Links.Tree.MayUnlink` | sysfile.c:201-216 | refused if and only if the name is "." or "..", no entry has it, or the one that has names a directory with an entry in use; nlink < 1 is never found |
| `Links.Tree.Erase` | sysfile.c:218-232 | the entry is zeroed, the inode and, for a directory, its parent have a link less, nothing else changes, and every count is right |
| `Links.Tree.Unlink` | sysfile.c:183-239 | in any directory: when it succeeds, exactly what it changes, and that it keeps every count right and never finds nlink < 1 |
| `Links.Tree.Create` | sysfile.c:241-284 | the existing file, if a file is asked for and it is no directory or device; or the first free inode, as a file, device or directory, and exactly the entries that go with it, the name in the parent among them; no promise is left open; every count is right, and with no link under way every nlink is the number of entries, if and only if the parent is linked; a panic if and only if no inode is free |
| `Links.Tree.Iput` | fs.c:325-353 | one reference less; with the last one gone an inode without links is freed |
| `Links.MadeInUnlinked` | sysfile.c:241-284 | a file created in an unlinked directory has nlink 1 and no entry in a linked directory names it |
| `Links.DirMadeInUnlinked` | sysfile.c:241-284 | a directory created in an unlinked directory leaves a count wrong |
| `HeapSpec.InsertGapped` | umalloc.c:24-44 | freeing keeps the list in address order with no two free blocks touching |
| `HeapSpec.InsertUnits` | umalloc.c:24-44 | freeing adds exactly the units of the block |
| `HeapSpec.TakenUnits` | umalloc.c:74-84 | allocation takes exactly the units of the block |
| `HeapSpec.Disjoint` | umalloc.c:24-90 | allocated blocks overlap neither each other nor a free block |
| `HeapSpec.UnitsAddUp` | umalloc.c:24-90 | free and allocated sizes add up to the units obtained from sbrk |
| `Heap.Heap.constructor` | umalloc.c:21-22 | an empty heap |
| `Heap.Heap.FindPlace` | umalloc.c:30-32 | the loop ends at the last free block below the one being freed, across the wrap point |
| `Heap.Heap.Free` | umalloc.c:24-44 | the list with the block inserted and merged; every other allocated block stays; the next search starts at the block before |
| `Heap.Heap.Relink` | umalloc.c:33-43 | the header stores link exactly that list |
| `Heap.SysSbrk` | sysproc.c:45-57 | for any number of bytes: the old size or -1, when, and the new size, amounts that wrap and amounts that reach zero included |
| `Heap.Heap.Morecore` | umalloc.c:46-61 | at least 4096 units; it succeeds if and only if the new break stays below the limits, and the grant joins the free list |
| `Heap.Heap.Take` | umalloc.c:75-84 | the tail of the block is cut off or the whole block unlinked, and the block returned ends where the free one ended |
| `Heap.Heap.Pass` | umalloc.c:74-88 | going round from freep, the first block that fits: every block passed on the way is too small; none if and only if no block fits |
| `Heap.Heap.Malloc` | umalloc.c:63-90 | the end of the first block of the list, from freep on, that fits, if one does; otherwise after one grant, otherwise null; every other allocated block stays; large enough if and only if the rounding does not wrap |
| `Heap.LargeEnoughIff` | umalloc.c:69 | a block of the computed units has room for the bytes if and only if they are at most 2^32 - 8 |
| `Heap.AskIff` | umalloc.c:52-54 | sbrk is asked for a positive amount if and only if fewer than 2^28 units are wanted |
| `Grep.Match` | grep.c:72-82 | true if and only if some substring can be cut into pieces, one for each pattern item, with ^ and $ as anchors |
| `Grep.MatchHere` | grep.c:84-96 | the same from the beginning of the text |
| `Grep.MatchStar` | grep.c:98-106 | the same for c* and a rest, shortest first |
| `Grep.ParseWrite` | grep.c:84-96 | a pattern that can be written down is read as it was meant |
| `Grep.PlainIsSubstring` | grep.c:72-106 | a pattern without special characters matches exactly the texts that contain it |
| `Grep.PlainIsLine` | grep.c:72-106 | between ^ and $ it matches exactly itself |
| `Grep.DotsAreLength` | grep.c:72-106 | n dots match exactly the texts of at least n characters |
| `Grep.StarIsRun` | grep.c:72-106 | ^c*$ matches exactly the texts made of c, and every text if c is the dot |
| `VmSpec.SweptSkip` | vm.c:265-269 | skipping absent tables equals sweeping page by page |
| `VmSpec.OtherDirs` | vm.c:57-345 | what changes one address space leaves the mappings of every other alone |
| `VmSpec.Undone` | vm.c:233-246 | taking back what was added restores the mappings |
| `VmSpec.CameAndWent` | vm.c:281-298 | an address space made and freed again leaves every frame as it was |
| `VmSpec.KernelSeesAll` | vm.c:103-115 | kmap's lines lie in the kernel's half and do not overlap, and with them in place every frame below PHYSTOP is mapped at its kernel address, without PTE_W if and only if it holds the kernel's text |
| `VmSpec.DevicesAreThere` | vm.c:103-115 | addresses from DEVSPACE on are mapped to themselves, writable |
| `Vm.Vm.constructor` | kalloc.c:20-24 | no frame is free or in use; all lie behind the kernel and below PHYSTOP |
| `Vm.Vm.Freerange` | kalloc.c:46-53 | exactly the frames that lie wholly between the addresses become free, and no kfree panics |
| `Vm.Vm.Kinit` | kalloc.c:31-44 | for a kernel that ends in the first four megabytes, the free list holds exactly the frames between the kernel and PHYSTOP |
| `Vm.Vm.Kalloc` | kalloc.c:79-95 | the top of the free list, or none if and only if it is empty |
| `Vm.Vm.KfreeAddr` | kalloc.c:55-77 | a panic, with nothing done, if and only if the address is not that of a page of the kernel's range; otherwise the frame of that address is on top of the list, overwritten, and no other frame changes |
| `Vm.Vm.Kfree` | kalloc.c:55-77 | called with a frame of the allocator, as by every operation here, kfree passes its test |
| `Vm.Vm.Walk` | vm.c:32-55 | the table for the page, made if asked for; no mapping changes |
| `Vm.Vm.MapPages` | vm.c:57-80 | the range, of kernel or user pages, is mapped page by page to consecutive frames, or a first part of it when memory runs out; the frames of user pages keep their contents and belong to the pages |
| `Vm.Vm.Setupkvm` | vm.c:117-136 | every range of the kernel's table at its place, and no user page, or every frame as it was |
| `Vm.Vm.Allocuvm` | vm.c:219-249 | fresh frames for the new pages, writable by the user and with every byte 0, or the mappings as they were; it fails if and only if kalloc does or the size is too large, and then fewer than two frames for each page were free |
| `Vm.Vm.Deallocuvm` | vm.c:251-279 | exactly the pages that begin between the sizes are unmapped and exactly their frames freed |
| `Vm.Vm.Freevm` | vm.c:281-298 | the user frames, page tables and directory become free, and nothing else |
| `Vm.Vm.Copyuvm` | vm.c:313-345 | equal contents and flags in frames of its own, or every frame as it was |
| `Vm.CopiedPage` | vm.c:324-339 | in a copy, every page that begins below the size has the bytes and the flags of the original in a frame that was free, and no other page is mapped |
| `Vm.Vm.Growproc` | proc.c:156-175 | the new size or -1, when, and that the pages mapped match it if and only if the process does not shrink to nothing; pages below both sizes keep frame, flags and contents, every byte of the new ones is 0, and no other address space changes |
| `Vm.ShrunkToNothing` | proc.c:156-175 | on any three frames between the kernel and PHYSTOP: a process that gives all its memory back keeps its size and has no page |
| `ShellSpec.ParsesIff` | sh.c:344-446 | a token list is accepted with a tree if and only if it is a written form of the tree |
| `ShellSpec.LegalIff` | sh.c:344-446 | the trees that come out of the parser are exactly the legal ones |
| `ShellSpec.PrintParse` | sh.c:344-446 | printing a legal tree as tokens and parsing gives the tree |
| `ShellSpec.LineIsTree` | sh.c:344-446 | nothing typed is lost or moved: the tree of a line that parses, read from left to right, has the arguments and operators of the line in order and its redirections in order, < on descriptor 0 for reading, > and >> on 1 for writing |
| `ShellSpec.WordsKept` | sh.c:344-446 | every word of a line that parses is an argument or a file name of its tree |
| `ShellSpec.ErrorsMean` | sh.c:327-446 | an error names its cause: the line has a redirection without a file, a parenthesis after a word, a simple command of ten words, a parenthesis, or something left over |
| `ShellSpec.TooManyIff` | sh.c:415-446 | a simple command has too many arguments if and only if it has ten words, files of redirections not counted, before its end or the first thing wrong with it |
| `ShellText.LineMap` | sh.c:344-446 | the parser does not look into words |
| `ShellText.SpellsLex` | sh.c:262-320 | reading the tokens of a printed list gives the list |
| `ShellText.LexKeepsInk` | sh.c:262-308 | the tokens of a string, written without blanks, are the string without its blanks |
| `ShellText.TypedWord` | sh.c:262-308 | a word token is a longest run of characters that are neither blanks nor operators |
| `ShellText.RoundTrip` | sh.c:262-446 | for every legal tree with words that can be typed, parsing the printed line gives the tree |
| `ShellText.ReadsBack` | sh.c:448-493 | with a NUL at the end of every word and of the line, and nowhere else, every argument and file name reads back exactly |
| `Shell.GetToken` | sh.c:262-308 | the next token, its span and the index after it |
| `Shell.Peek` | sh.c:310-320 | whether the next token starts with one of the characters |
| `Shell.ParseRedirs` | sh.c:374-397 | the grammar's redirections, or a missing file name |
| `Shell.ParseExec` | sh.c:415-446 | the grammar's simple command or block, or its error |
| `Shell.ParseBlock` | sh.c:399-413 | the grammar's block and its redirections, or its error |
| `Shell.ParsePipe` | sh.c:361-372 | the grammar's pipeline, or its error |
| `Shell.ParseLine` | sh.c:344-359 | the grammar's line, or its error |
| `Shell.Nulterminate` | sh.c:448-493 | a NUL at the end of every argument and file name of the tree, and every other character as it was |
| `Shell.ParseCmd` | sh.c:327-342 | for every string, the tree the grammar gives it or its error; the tree read from left to right is the line, and afterwards every word of the line is in the tree and reads back from where it was typed |

## Left out

- Code and documentation differ in one place: sh.c opens `>` and `>>` with the same flags, and the model follows the code.
- Files.Fs.Filewrite: requires MAXOPBLOCKS >= 6, because with less a chunk holds no byte and the loop does not end; what other processes do between two chunks is not modelled.
- Files.Fs.Readi: reads and writes of devices end in the outcome Device, because the drivers are not part of this model.
- Heap.Heap.Malloc: addresses are counted in units of 8 bytes, so the break is a multiple of 8 and `base` lies below the heap, as in every program malloc is linked into; programs that write over headers are not modelled; after a request that makes sbrk shrink the process (Beyond) nothing more is stated.
- Links.Tree.Create: a call works under the locks of the inodes it changes and is one step; nlink is unbounded here and 16 bits wide in the source; writei inside dirlink does not run out of blocks; names are whole strings, where the source compares their first DIRSIZ characters; major and minor numbers are left out.
- Pipes.Pipe.Close: that nobody is asleep in piperead when the read end closes, because a reader's own file keeps it open, is an assumption of the runs.
- Vm.Vm.MapPages: requires the range to be unmapped, as mappages panics otherwise.
- Vm.Vm.Allocuvm: requires the new pages to be unmapped, as mappages panics otherwise.
- Vm.Vm.Copyuvm: requires the pages below the size to be mapped, as copyuvm panics otherwise.
- FileCrash.FilesSurviveCrashes: that the operations of one group together make a transaction is a hypothesis; `FileRuns.SerialGroups` proves it of operations whose log_writes do not interleave; interleavings under inode locks are not modelled.
- FileOps.Perform: a chunk goes to a file without holes; a write into a hole below the size leaves the disk inode behind, as Writei says.
- FileOps.Unlink: of a file; for a directory the parent's link goes as well, and the last reference adds itrunc.
- Monitor.NoLostWakeup: safety only; that a woken process runs again is fairness and is not stated.
- The free list of frames and the page tables are sequences and maps of frames instead of linked words in memory; the TLB, segments and cr3 are left out.
- The inode cache (iget, idup, ilock, reference counts), namex and path walking, and the table of open files.
- copyout, uva2ka, loaduvm, inituvm, exec and trap frames.
- MkfsRun.Make: requires an inode for every file, because mkfs does not check it and writes past the inode blocks, and a root directory whose entries do not make up the largest file exactly, because its size is then rounded up past it; names are as they stand after the leading underscore is skipped, and opening and reading the host's files is left out.
- The bytes of directory entries other than in mkfs and in unlink, and the superblock.
- Spin locks and memory ordering, interrupts, swtch itself, drivers, the boot loader, the console and printf.
- The reading loop of grep, which splits its input at newlines around match; runcmd of the shell, which is fork, exec, pipe and dup; and the other user programs, which are loops around single system calls.

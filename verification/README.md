# A verified model of the xv6 kernel's hard parts

This project models, in Dafny, the parts of this xv6 (RISC-V) fork whose correctness rests on more
than one function: the crash-safe log over the buffer cache, the file system's blocks, contents,
directories and link counts, sleep locks, the fork/exit/wait protocol, the accumulator-based priority
scheduler, the virtio disk driver, pipes, and three user programs: the storage allocator, the shell's
parser and grep.  `dafny verify dfyconfig.toml` checks all of it.

Concurrent protocols are transition systems over any number of processes, with one step per access
to shared state, and their results hold in every state of every run.  Code that changes things in
place is a class whose methods keep the source's loops and order of updates; each method is proved
against a function of the old state, and what the source promises is proved about that function.
Where the code does not do what is wanted of it, a lemma gives the case and another one says exactly
when it does.

| files | what they model |
|---|---|
| LogDisk, LogProtocol, LogReservation, LogSteps, LogCode | the log: on-disk format and recovery; all interleavings of operations, commits, evictions and crashes; the reservation made by begin_op; the code itself with every intermediate disk, each call shown to be a sequence of protocol steps |
| BufferCache | the buffer cache and its LRU list |
| FsLayout, FsSpec, FsBudget, FsCode | bitmap, block map, truncation, reading and writing, the blocks a transaction logs |
| Directory, DirectoryFile, Links | directory entries as a map, also in the directory's file; link counts over system calls |
| SleepLock, ExitWait, WaitProgress | sleep/wakeup under a sleep lock; fork, exit, reparent, wait, and that they get done |
| PriorityScheduler | find_minimum and schedulerPriority |
| VirtioSpec, Virtio | descriptors, chains and rings |
| Pipe, MallocSpec, Malloc, Grep | the pipe, the storage allocator and grep |
| ShellSpec, ShellGrammar, ShellLexemes, ShellPrint, Shell | the shell's parser as functions; its language and what it means; lexemes and white space; printing; the code |
| Basics | what several of these share |

What the source takes from outside is a parameter: whether a copy to or from user memory fails,
sbrk's answer, whether a directory entry can be written, which inode ialloc finds for create, how
read cuts its input, and the device, which takes and reports requests in any order.

Where comments and code disagree the code is followed.  kernel/proc.h:123 calls a priority a value
from 1 to 10, but allocproc sets 0 and nothing checks the range; kernel/param.h sizes the log to
LOGSIZE blocks and mkfs lays it out so, but log_write needs one more.

## Model

| member | source | states |
|---|---|---|
| LogDisk.RecoveredReplay | kernel/log.c:68-83 | a disk that differs from d only by having some entries already copied home recovers to the same home blocks: replay is idempotent |
| LogDisk.InstalledAt | kernel/log.c:68-83 | after k copies a home block holds the log block of the last entry among the first k that names it, and is untouched if none does |
| LogDisk.RecoveredAt | kernel/log.c:116-123 | recovery gives each home block its last logged copy, or leaves it |
| LogProtocol.StepKeeps | kernel/log.c:68-235 | every step of begin_op, log_write, end_op, commit, eviction, crash or recovery keeps the whole invariant: sizes and flags, cache against disk, log blocks phase by phase, no operation on both sides of the commit boundary, and the value of the flat array |
| LogProtocol.RunKeeps | kernel/log.c:68-235 | the invariant holds at the end of every run from power-on, with any number of processes and crashes |
| LogProtocol.CommitExcludesOperations | kernel/log.c:126-175 | in every run, committing implies outstanding == 0, end_op's panic is unreachable, and nothing enters the log or changes a buffer during a commit |
| LogProtocol.BeginExactly | kernel/log.c:126-142 | in every run begin_op lets a process in if and only if no commit runs and, counting the new operation, entries plus MAXOPBLOCKS for each operation in progress fit into LOGSIZE; the first operation of a group always gets in |
| LogProtocol.CrashAnywhere | kernel/log.c:116-123 | a crash is possible after any step, and leaves the disk and the committed prefix of the history and nothing else |
| LogProtocol.CrashAtomicity | kernel/log.c:116-203 | after any run one more crash and recovery yields exactly the committed prefix of all writes, the header is empty, and no operation has writes on both sides |
| LogProtocol.QuietMeansDurable | kernel/log.c:146-175 | when no operation is in progress and no commit runs, every write made so far is on disk in its home block |
| LogProtocol.CacheTransparency | kernel/bio.c:92-137 | outside recovery, a cached block and a block that would be read from disk hold the last value written: cache, log and disk refine a flat array |
| LogProtocol.CommittedGrows | kernel/log.c:193-203 | what was committed at some time in a run is a prefix of what is committed later |
| LogProtocol.WriteHeadKeeps | kernel/log.c:102-114 | the single write of the header is the commit point: the invariant moves from the old boundary to all writes |
| LogProtocol.InstallBlockKeeps | kernel/log.c:68-83 | each copy home keeps the invariant, so a crash between any two is covered |
| LogProtocol.ReplayBlockKeeps | kernel/log.c:68-83 | the same for the copies made by recovery |
| LogProtocol.CrashKeeps | kernel/log.c:116-123 | losing cache, pins, locks and operations at any moment keeps it |
| LogReservation.RunReserves | kernel/log.c:126-142 | if each operation adds at most MAXOPBLOCKS blocks, lh.n plus the unused budgets of the operations in progress never exceeds LOGSIZE, and lh.block has no duplicates |
| LogReservation.AppendNeverPanics | kernel/log.c:214-235 | then no log_write with budget left panics if the log has more than LOGSIZE blocks |
| LogReservation.AppendSafeExactly | mkfs/mkfs.c:25 | it is safe in all runs exactly if the log on disk has more than LOGSIZE blocks, which mkfs does not give it |
| LogReservation.FillLog | kernel/log.c:126-142 | an explicit run in which three operations within budget fill the log |
| LogReservation.AbsorbedWriteCanPanic | kernel/log.c:214-222 | even with a larger log, a log_write that would be absorbed panics in some run, because the size test comes first |
| LogReservation.LogWritePanicsExactly | kernel/log.c:214-222 | with a larger log and budgets kept, a log_write inside an operation, absorbed or not, panics in a state of a run if and only if all LOGSIZE entries are in use, and then every operation in progress has used its whole budget |
| LogSteps.EndSteps | kernel/log.c:146-175 | from every state of the invariant, end_op with the commit it may have to make, round by round, is a sequence of protocol steps, and its panic is out of reach |
| LogSteps.CommitSteps | kernel/log.c:193-203 | the rounds of write_log, the header write, the rounds of install_trans and the second header write are one protocol step each |
| LogSteps.RecoverSteps | kernel/log.c:116-123 | read_head, the rounds of install_trans and the header write of recovery are one protocol step each |
| LogSteps.LeadsReachable | kernel/log.c:54-235 | what steps lead to from a state of a run is a state of a run, so the theorems about runs hold of it |
| LogCode.Log.ReadHead | kernel/log.c:86-97 | the in-memory entries become those of the header block |
| LogCode.Log.WriteHead | kernel/log.c:102-114 | one block write puts count and entries over the header and keeps the rest of the block |
| LogCode.Log.InstallTrans | kernel/log.c:68-83 | every entry is copied home in order and unpinned unless recovering, and every disk on the way is a partly installed one |
| LogCode.Log.RecoverFromLog | kernel/log.c:116-123 | leaves the recovered disk and an empty header; every disk a crash inside could leave recovers to the same home blocks |
| LogCode.Log.WriteLog | kernel/log.c:178-191 | the current value of every entry is in its log slot; home blocks and header are untouched at every moment |
| LogCode.Log.Commit | kernel/log.c:193-203 | there is one block write such that a crash before it recovers to the old home blocks and from it on to all updates; afterwards disk, cache and view agree |
| LogCode.Log.Initlog | kernel/log.c:54-65 | leaves the recovered disk, by the protocol's recovery steps for exactly the entries of the header |
| LogCode.Log.TryBeginOp | kernel/log.c:126-142 | one pass succeeds if and only if the protocol lets an operation begin in this state, and then makes that step; otherwise nothing changes; the object stays in a state of a run |
| LogCode.Log.BreadLocked | kernel/bio.c:92-103 | returns the block's logical value, by the protocol's load and lock steps |
| LogCode.Log.Change | kernel/bio.c:8-14 | the protocol's step for a change to a held buffer |
| LogCode.Log.EndOp | kernel/log.c:146-175 | never panics; by the protocol's end step alone, or, for the last operation out and only for it, with the steps of the whole commit, after which the log is empty and all writes so far are committed and on disk |
| LogCode.Log.CrashBetweenCalls | kernel/log.c:116-203 | after any calls, a crash and a recovery lead to exactly the committed writes of the run, with no operation split |
| LogCode.Log.LogWrite | kernel/log.c:214-235 | panics exactly where the protocol says so, with nothing changed, and otherwise makes its step: absorbs a logged block, or appends and pins a new one |
| LogCode.Log.Append | kernel/log.c:225-233 | the search loop adds the block to the entries, and a pin, exactly if it is not there yet |
| LogCode.Log.Brelse | kernel/bio.c:116-137 | the protocol's release step |
| LogCode.Log.Recycle | kernel/bio.c:77-86 | a buffer that is neither pinned nor locked can be taken for another block, by the protocol's eviction step |
| LogCode.CrashesDuringRecovery | kernel/log.c:116-123 | any number of crashes inside recovery, then a complete one, leave what one undisturbed recovery leaves |
| LogCode.PartlyInstalledRecovers | kernel/log.c:68-83 | a disk with some entries installed recovers to the fully recovered home blocks |
| LogCode.CommitPoint | kernel/log.c:193-203 | with the header on disk and every value in its slot, recovery yields the new values |
| BufferCache.Cache.constructor | kernel/bio.c:36-53 | binit's insertions give a circular doubly linked list of all NBUF buffers, each exactly once |
| BufferCache.Cache.Bget | kernel/bio.c:58-89 | at most one buffer per (dev != 0, blockno); a buffer with references is never recycled; the one recycled is the least recently used free one; panic only if all are referenced |
| BufferCache.Cache.Bread | kernel/bio.c:92-103 | the buffer returned holds the last value written to the block |
| BufferCache.Cache.Store | kernel/bio.c:8-14 | changing a held buffer changes the flat array at its block and nowhere else |
| BufferCache.Cache.Bwrite | kernel/bio.c:106-112 | the disk catches up with the buffer, the flat array does not change |
| BufferCache.Cache.Brelse | kernel/bio.c:116-137 | drops a reference; the last one moves the buffer to the front of the list, order of the others kept |
| BufferCache.Cache.Bpin | kernel/bio.c:139-144 | one more reference, nothing else |
| BufferCache.Cache.Bunpin | kernel/bio.c:146-151 | one reference less, nothing else |
| BufferCache.UnlinkLinked | kernel/bio.c:126-129 | the two pointer writes of unlinking leave a ring without the buffer |
| BufferCache.PushLinked | kernel/bio.c:130-133 | the four pointer writes of insertion leave a ring with the buffer first |
| BufferCache.RecycleFaithful | kernel/bio.c:77-86 | giving an unreferenced buffer to an uncached block keeps uniqueness and faithfulness |
| FsLayout.SetBitAt | kernel/fs.c:65-88 | setting a bit by its byte and mask changes that bit only |
| FsLayout.ClearBitAt | kernel/fs.c:91-105 | clearing likewise |
| FsLayout.WordPut | kernel/fs.c:382-421 | a 32-bit word written to an indirect block is read back, other words stay |
| FsSpec.UsedExactlyOnce | kernel/fs.c:65-105 | a data block's bit is set exactly when a slot (direct, indirect pointer, indirect entry) names it, and then exactly one does |
| FsSpec.LinkKeeps | kernel/fs.c:382-421 | linking an allocated block into an empty slot restores exact ownership |
| FsSpec.FreeDirect | kernel/fs.c:425-453 | freeing a direct block and clearing its address keeps ownership, and the block was in use |
| FsSpec.FreeEntry | kernel/fs.c:425-453 | the same for an entry of the indirect block, whose word still names the freed block |
| FsSpec.FreePointer | kernel/fs.c:425-453 | the same for the indirect block itself |
| FsCode.FileSystem.constructor | kernel/fs.c:41-47 | a blank image satisfies the invariant |
| FsCode.FileSystem.Balloc | kernel/fs.c:65-88 | the lowest free block, marked, zeroed and logged, or 0 with nothing changed when all are in use |
| FsCode.FileSystem.Bfree | kernel/fs.c:91-105 | clears exactly the block's bit, and panics exactly if it was clear |
| FsCode.FileSystem.Bmap | kernel/fs.c:382-421 | the block of file block bn, allocated if need be; ownership is kept on every path, also when the disk fills up after the indirect block was allocated; a mapped block stays where it is |
| FsCode.FileSystem.Readi | kernel/fs.c:471-496 | returns bytes off..off+n of the content, cut at the size, 0 past the end or on 32-bit overflow, -1 at a failed copy; changes nothing |
| FsCode.FileSystem.Writei | kernel/fs.c:505-539 | returning r, it replaced exactly bytes off..off+r, set size to max(size, off+r), left no hole, changed no other file; -1 exactly for off past the end, 32-bit overflow or past MAXFILE; stops early only at a failed copy, or on a full disk where the next block of the file is not mapped, and passes no failed copy; every block it changed, the free-map block of every bit and the inode block of every inode it changed were passed to log_write |
| FsCode.FileSystem.WriteEntry | kernel/fs.c:602-603 | a directory entry is written as a whole or the directory keeps its bytes; it is written if and only if the arguments are in range, the copy succeeds and the block is mapped or can be allocated, so always inside the file |
| FsCode.FileSystem.WriteThenRead | kernel/fs.c:471-539 | a readi of what writei says it wrote returns those bytes |
| FsCode.FileSystem.Itrunc | kernel/fs.c:425-453 | gives back exactly the file's blocks, changes no other file, logs everything it changes, and never panics with "freeing free block" |
| FsCode.FileSystem.Ialloc | kernel/fs.c:198-219 | the lowest free inode, emptied and typed; 0 if there is none; contents unchanged, and the change logged |
| FsCode.FileSystem.Iput | kernel/fs.c:336-362 | the last reference to an inode without links frees its blocks and the inode, all of it logged; otherwise nothing changes |
| FsCode.FileSystem.Filewrite | kernel/file.c:134-181 | the bytes written are a prefix of the source; the result is n if that is all of it, else -1, as for a negative n and for a file not open for writing; it stops short only at a failed copy, at a block that cannot be allocated on a full disk, or where writei refuses the next chunk; every chunk logs at most MAXOPBLOCKS distinct blocks |
| FsCode.FileSystem.WriteChunk | kernel/file.c:155-174 | one transaction: what reaches the file, why it is not more, and that what is logged covers everything it changed |
| FsBudget.WithinBudget | kernel/file.c:155-174 | a chunk of at most three blocks logs at most MAXOPBLOCKS blocks at any offset, counting data, indirect, inode and bitmap blocks even when each allocation hits another bitmap block |
| FsBudget.AccountRound | kernel/fs.c:505-539 | one round of writei's loop in that account |
| Directory.SameName | kernel/fs.c:543-547 | strncmp over DIRSIZ bytes says equal exactly if the name cut to DIRSIZ is the name in the field |
| Directory.CopyName | kernel/string.c:70-81 | strncpy's field reads back as the name cut to DIRSIZ |
| Directory.EntryRead | kernel/fs.c:579-606 | an encoded entry reads back as its inode number and name |
| Directory.PutIsOverwrite | kernel/fs.c:602-603 | putting an entry is what such a write does to the bytes |
| Directory.AddEntry | kernel/fs.c:579-606 | writing an entry into an unused slot, or behind the last, adds exactly one name to the map |
| Directory.EraseEntry | kernel/sysfile.c:222-224 | zeroing an entry removes exactly its name |
| Directory.Dir.Dirlookup | kernel/fs.c:551-575 | returns what the map says for the name cut to DIRSIZ, or 0, and the entry it stands in |
| Directory.Dir.FindUnused | kernel/fs.c:592-598 | the first unused entry, or the next one |
| Directory.Dir.Dirlink | kernel/fs.c:579-606 | succeeds exactly if the name is new and the write succeeds, and then adds it to the map; otherwise changes nothing |
| Directory.Dir.MakeDots | kernel/sysfile.c:276-280 | create's two dirlink calls put "." and ".." into the first two entries |
| Directory.PlacedDotted | kernel/sysfile.c:282-283 | later dirlink calls leave them there |
| Directory.Dir.Erase | kernel/sysfile.c:222-224 | the name is gone from the map, all others stay |
| DirectoryFile.EraseEntryIn | kernel/sysfile.c:222-224 | zeroing an entry through writei removes its name from the directory's map, changes no other file, and the panic "unlink: writei" is not reached |
| DirectoryFile.AddEntryIn | kernel/fs.c:602-603 | writing an entry at the slot found adds its name to the map, or changes nothing; it cannot fail when the slot is inside the directory |
| Directory.Dir.IsDirEmpty | kernel/sysfile.c:173-186 | true exactly if the map has no names but "." and ".." |
| Links.Inodes.constructor | mkfs/mkfs.c:117-128 | a linked, empty root and all other inodes free meet the invariant |
| Links.Inodes.Link | kernel/sysfile.c:123-170 | succeeds exactly for a non-directory and a new name and rolls nlink back otherwise; keeps the invariant exactly if it fails or the directory is itself linked; the counts are right afterwards in any case, but for a name made in an unlinked directory they are wrong once that directory is freed |
| Links.Inodes.Create | kernel/sysfile.c:245-302 | for an existing name returns its inode exactly for T_FILE and a file or device; otherwise makes the new name or takes everything back; keeps the invariant exactly if no name was made in an unlinked directory, where mkdir breaks the counts at once and a file breaks them once the directory is freed |
| Links.Inodes.Unlink | kernel/sysfile.c:188-243 | removes the name and the link, and the parent's link for a directory, exactly if the name is there, is no dot and is no non-empty directory; "unlink: nlink < 1" is not reached, and DirectoryFile.EraseEntryIn shows the same of "unlink: writei" |
| Links.Inodes.Iput | kernel/fs.c:336-362 | the last reference to an unlinked inode frees it and keeps the counts |
| Links.AddFileOk | kernel/sysfile.c:123-170 | a new name for a file keeps the invariant if and only if the directory is linked; the counts stay right, but in an unlinked directory its last iput breaks them |
| Links.AddFolderOk | kernel/sysfile.c:245-302 | a new directory keeps the invariant, and the counts, if and only if the one it is made in is linked |
| Links.RemoveFileOk | kernel/sysfile.c:188-243 | unlinking a file keeps it |
| Links.RemoveFolderOk | kernel/sysfile.c:188-243 | unlinking an empty directory keeps it: its nlink was 1, its parent's at least 2 |
| Links.PutCounted | kernel/fs.c:336-362 | freeing an unlinked inode keeps the counts if and only if it is no directory with entries |
| Links.LostName | kernel/sysfile.c:245-302 | in a tree that meets the invariant, a file made in an unlinked directory keeps nlink 1 with no name left once the directory goes |
| Links.StepOk | kernel/sysfile.c:123-302 | one call keeps the invariant if and only if it makes no name in an unlinked directory; it keeps the counts unless it is a mkdir there, and any other such call breaks them when that directory is freed |
| Links.RunOk | kernel/sysfile.c:123-302 | in every run of such calls nlink is the number of entries naming the inode, without "." and with ".." only in linked directories |
| Links.RunOkExactly | kernel/sysfile.c:123-302 | in a run of any calls the invariant holds throughout if and only if no call makes a name in an unlinked directory |
| Links.Linked | kernel/sysfile.c:215-216 | whatever is named has a link |
| SleepLock.RunKeeps | kernel/sleeplock.c:21-41 | every interleaving of acquiresleep, releasesleep, sleep, wakeup, kill and the scheduler keeps the invariant on locks, owner, pid and wakeups |
| SleepLock.MutualExclusion | kernel/sleeplock.c:21-41 | at most one process is between setting and clearing locked, and locked says whether one is |
| SleepLock.NoLostWakeup | kernel/proc.c:705-755 | whenever the lock and its spinlock are free, no process is asleep on it or committed to sleeping on it |
| SleepLock.HoldingSleep | kernel/sleeplock.c:43-52 | holdingsleep's test is true exactly of the holder |
| SleepLock.NoDeadlock | kernel/proc.c:705-755 | while somebody is inside a call and nobody holds the lock, somebody inside gets on by a step of its own |
| SleepLock.WakesOnly | kernel/proc.c:740-755 | wakeup wakes processes asleep on the lock and no others |
| SleepLock.SleepsUntilWoken | kernel/proc.c:705-731 | a process asleep on the lock goes on only once it has been made runnable, and then runs with its own lock held |
| SleepLock.CallsEnd | kernel/sleeplock.c:21-41 | in every run, from any point inside acquiresleep or releasesleep, the caller has a bounded number of turns, given by Rank, before it is out or back from sleep; nobody else's step moves it |
| SleepLock.VisitWake | kernel/proc.c:735-755 | wakeup's scan leaves nobody it has passed committed to sleep |
| SleepLock.LocalWake | kernel/proc.c:705-731 | no step of sleep or of the lock loses a committed sleeper |
| ExitWait.RunKeeps | kernel/proc.c:311-480 | every interleaving of fork, exit, reparent, wait, sleep, wakeup and kill keeps the invariant |
| ExitWait.NoZombieForgotten | kernel/proc.c:384-422 | whenever wait_lock is free, no process asleep in wait, or on the way there, has a zombie child |
| ExitWait.ParentsLive | kernel/proc.c:367-379 | a parent is never an unused entry, an embryo or a zombie, so a zombie has no children |
| ExitWait.EveryoneHasAParent | kernel/proc.c:384-422 | every process but the first has a parent, another process, until it is reaped |
| ExitWait.ForkKeepsParent | kernel/proc.c:346-360 | when fork reads np->parent without wait_lock it is still the caller |
| ExitWait.ReapsOnlyTheDead | kernel/proc.c:426-480 | wait frees an entry only of its own child and after its thread has switched away for good |
| ExitWait.WaitGivesUp | kernel/proc.c:470-475 | wait gives up on its own only if the process is killed or has no children |
| ExitWait.WaitReturns | kernel/proc.c:426-480 | in every run wait returns only with a zombie child reaped and its entry free, at a child where a copy to the user fails, or, by itself, if the process is killed or has no children |
| ExitWait.LocalFamilies | kernel/proc.c:384-422 | steps on the own entry keep what parents and children know of each other |
| ExitWait.VisitFamilies | kernel/proc.c:367-379 | steps at another entry, with reparent, wakeup and freeproc among them, keep it too |
| WaitProgress.WaitSleeps | kernel/proc.c:470-478 | at the end of a scan wait returns if and only if the process is killed or has no children; otherwise it goes to sleep, and then no child is a zombie |
| WaitProgress.WaitReaps | kernel/proc.c:452-468 | a scan that comes to a zombie child whose status can be copied out frees its entry, every field of it cleared, and returns |
| WaitProgress.WaitFails | kernel/proc.c:452-462 | where the copy to the user fails, wait returns and leaves the child alone |
| WaitProgress.SleepsUntilWoken | kernel/proc.c:705-731 | a process asleep in wait goes on only once it has been made runnable, and then runs with its own lock held |
| WaitProgress.ForkEnds | kernel/proc.c:311-363 | an entry that a fork has taken becomes free again, blank and only because the memory could not be copied, or a runnable process with its lock free and the forker as parent |
| WaitProgress.ForkCopies | kernel/proc.c:311-332 | fork goes on exactly if the memory could be copied, and frees the entry otherwise |
| WaitProgress.WokenFor | kernel/proc.c:367-408 | a process asleep in wait is woken only by kill, by a child on its way out, or, as initproc, by a process handing its children over |
| WaitProgress.CallsEnd | kernel/proc.c:311-480 | in every run, from any point inside fork, exit or wait, the caller has a bounded number of turns, given by Rank, before it is out or back from sleep; nobody else's step moves it |
| WaitProgress.RunMore | kernel/proc.c:311-480 | in every run an entry's lock is held by its own process where the code takes it or by the process forking it, and a scan that has met a child has one |
| WaitProgress.NoDeadlock | kernel/proc.c:311-480 | as long as somebody is inside fork, exit or wait and not asleep there, somebody inside can make a step: wait_lock and the processes' locks are never all waited for |
| PriorityScheduler.Scheduler.FindMinimum | kernel/proc.c:549-566 | returns the scan's result, which the lemmas below characterise |
| PriorityScheduler.ScanRight | kernel/proc.c:549-566 | the scan returns the least accumulator of the runnable processes if and only if that is not -1 or the last runnable one has it |
| PriorityScheduler.MinusOneHides | kernel/proc.c:549-566 | an accumulator of -1 followed by one of 5 gives 5 |
| PriorityScheduler.Scheduler.Sweep | kernel/proc.c:568-609 | one pass: every slot it reports is charged exactly its priority, and nothing else changes |
| PriorityScheduler.PassIsRun | kernel/proc.c:568-609 | a pass is a run of as many visits as there are slots, and the slots it reports, in order, are exactly those dispatched in that run |
| PriorityScheduler.Charged | kernel/trap.c:80-90 | in every run a process's accumulator is what it was plus its priority times the quanta it has had |
| PriorityScheduler.ProportionalShare | kernel/proc.c:568-609 | in every run, however long, the quanta of two runnable processes, each times its priority, differ by no more than a constant fixed at the start |
| PriorityScheduler.ChosenIsLeast | kernel/proc.c:585-598 | a slot is dispatched exactly if it is runnable and has the least accumulator |
| PriorityScheduler.SpreadBounded | kernel/trap.c:82-100 | with priorities up to 10, accumulators of runnable processes never drift further apart than at first, or than 10 |
| PriorityScheduler.RoundDispatches | kernel/proc.c:568-609 | any NPROC consecutive visits dispatch somebody |
| PriorityScheduler.WaitBound | kernel/trap.c:176-183 | with priorities of at least 1, before p runs others get at most the sum over q != p of max(0, acc_p - acc_q + 1) quanta |
| PriorityScheduler.FairExactly | kernel/proc.c:568-609 | in every run that is long enough p is dispatched if and only if no process of priority 0 is below it |
| PriorityScheduler.Starves | kernel/proc.c:568-609 | if one is, p never runs |
| PriorityScheduler.Reached | kernel/proc.c:568-609 | if none is, p runs within a number of rounds that its lead determines |
| PriorityScheduler.DefaultPriorityStarves | kernel/proc.c:166-170 | the priority allocproc gives is enough to starve a neighbour |
| Virtio.Disk.constructor | kernel/virtio_disk.c:144-146 | all descriptors free, rings empty |
| Virtio.Disk.AllocDesc | kernel/virtio_disk.c:156-166 | the lowest free descriptor, taken, or -1 if none is free |
| Virtio.Disk.FreeDesc | kernel/virtio_disk.c:169-182 | frees and clears exactly this descriptor; its panics are excluded at every call |
| Virtio.Disk.FreeChain | kernel/virtio_disk.c:185-197 | ends, and frees exactly the three descriptors of the chain |
| Virtio.Disk.Alloc3 | kernel/virtio_disk.c:201-213 | three distinct free descriptors if and only if at least three are free, else a failure that leaves the free set as it was |
| Virtio.Disk.Submit | kernel/virtio_disk.c:215-281 | queues the request with its chain, buffer and ring entry if and only if three descriptors are free, and otherwise changes nothing |
| Virtio.Disk.DeviceTake | kernel/virtio_disk.c:271-277 | across 16-bit wrap the device finds the oldest untaken request with its chain as filled in |
| Virtio.Disk.DeviceReport | kernel/virtio_disk.c:311-327 | the report does not overwrite an unseen one |
| Virtio.Disk.See | kernel/virtio_disk.c:311-327 | one round clears the disk flag of the reported request's buffer, which was set, and of no other; the status panic is not reached |
| Virtio.Disk.Intr | kernel/virtio_disk.c:294-327 | while the device goes on taking and reporting requests between rounds, exactly the requests reported before or meanwhile become done, all of them, and the device's takes are the only other change |
| Virtio.Disk.Finish | kernel/virtio_disk.c:283-292 | a clear flag means the request is done; exactly its chain becomes free |
| VirtioSpec.Partition | kernel/virtio_disk.c:156-213 | a descriptor is free or in the chain of exactly one request |
| VirtioSpec.SubmitOk | kernel/virtio_disk.c:215-281 | the whole invariant after a submission |
| VirtioSpec.FinishOk | kernel/virtio_disk.c:283-292 | the whole invariant after a request is finished |
| VirtioSpec.RingPush | kernel/virtio_disk.c:271-277 | writing at idx % NUM with a 16-bit idx overwrites no unread entry |
| VirtioSpec.RingEmpty | kernel/virtio_disk.c:312-314 | the 16-bit indices are equal exactly if everything was read |
| VirtioSpec.RoomFor | kernel/virtio_disk.c:271-277 | a ring always has room for one more request |
| Pipe.Buffer.constructor | kernel/pipe.c:22-41 | an empty pipe with both ends open |
| Pipe.Buffer.WriteSegment | kernel/pipe.c:77-101 | between two sleeps exactly the next bytes of the caller are appended, up to the first place where the data ends, there is no reader, the caller is found killed, the pipe is full or a copy fails, and the outcome is the one for that place; nobody who could go on is left asleep, except a reader if the writer is found killed after appending something |
| Pipe.Buffer.CopyOut | kernel/pipe.c:120-126 | takes the next min(n, what is there) bytes in order, or up to and including the first whose copy fails, and returns those copied |
| Pipe.Buffer.ReadSegment | kernel/pipe.c:103-131 | on an empty pipe with a writer it sleeps, or returns -1 if killed; otherwise it gets the next bytes in order, min(n, what is there) of them, or up to a failed copy, whose byte is lost; waiting writers are woken |
| Pipe.KilledWriterForgets | kernel/pipe.c:77-101 | a writer killed between two bytes returns without waking a reader that sleeps on the first |
| Pipe.Buffer.Close | kernel/pipe.c:58-74 | those waiting at the other end are woken, and the page is freed once, when the second end closes |
| Pipe.Buffer.Count | kernel/pipe.c:13-20 | (nwrite - nread) mod 2^32 is the number of bytes in the pipe and at most PIPESIZE |
| Pipe.Buffer.Tests | kernel/pipe.c:88-113 | the wrapping comparisons for full and empty are exact |
| Pipe.Fifo | kernel/pipe.c:76-130 | in every interleaving of segments the bytes removed are a prefix of the bytes appended |
| Malloc.Allocator.constructor | user/umalloc.c:23-24 | no list yet, nothing handed out |
| Malloc.Allocator.FindPlace | user/umalloc.c:31-33 | the search of free ends at the block after which the address belongs |
| Malloc.Allocator.FreeBlock | user/umalloc.c:26-49 | the list stays circular, in address order and without touching blocks, and gains exactly the block's units |
| Malloc.Allocator.Free | user/umalloc.c:26-49 | the block leaves the live ones and its units join the free ones; all other blocks stay |
| Malloc.Allocator.Morecore | user/umalloc.c:51-66 | null and nothing changed without memory; otherwise the units join the heap and there is a block big enough |
| Malloc.Allocator.Search | user/umalloc.c:80-98 | once round the ring: ends, and finds a block of n units exactly if there is one |
| Malloc.Allocator.Alloc | user/umalloc.c:68-99 | for every 32-bit request: null exactly if no free block is big enough and sbrk fails; otherwise a block that was not live, of the size asked for, overlapping no live one; sbrk is used only when no block fits; the headers go on recording only memory that was obtained if and only if no memory had to be obtained or the request is at most 2^31 - 32 bytes |
| Malloc.ExactlyOneBlock | user/umalloc.c:26-99 | every unit ever obtained is in exactly one block, free or live |
| Malloc.SbrkAsked | user/umalloc.c:51-66 | the 32-bit argument of sbrk is the size of the block if and only if the request is at most 2^31 - 32 bytes |
| Malloc.LargestRequest | user/umalloc.c:68-74 | for the largest request 16 bytes are obtained and 2^28 + 1 units recorded |
| MallocSpec.FreedOk | user/umalloc.c:34-48 | inserting and merging both ways keeps order, gaps and exactly the units |
| MallocSpec.SplitOk | user/umalloc.c:86-91 | splitting off a tail takes exactly its units out of the list |
| MallocSpec.UnlinkOk | user/umalloc.c:84-85 | unlinking takes exactly the block's units out of the list |
| ShellSpec.GetToken | user/sh.c:282-326 | moves forward unless at the end, and a word token is a maximal run of word characters |
| ShellSpec.ParseArgs | user/sh.c:452-469 | ends with es - s decreasing and fewer than MAXARGS words, so argv stays in bounds |
| ShellSpec.ParseLine | user/sh.c:362-379 | ends, stays in the string, and every word of the result is one |
| ShellSpec.ParsePipe | user/sh.c:381-393 | the same for pipelines |
| ShellSpec.ParseExec | user/sh.c:438-470 | the same for simple commands |
| ShellSpec.ParseBlock | user/sh.c:422-436 | the same for parenthesised lines |
| ShellSpec.ParseRedirs | user/sh.c:395-420 | the same for redirections |
| ShellGrammar.AcceptsExactly | user/sh.c:344-470 | parsecmd accepts a line if and only if its lexemes are a sentence of the language (words and redirections in any order, blocks with redirections, pipelines, '&' and ';', fewer than MAXARGS words to a command), and then returns the sentence's meaning, the first redirection innermost |
| ShellGrammar.LineRead | user/sh.c:362-379 | the same for a line at any place of a string, up to the end or a closing parenthesis |
| ShellGrammar.ItemsRead | user/sh.c:452-469 | words with redirections between them are read as these words and these redirections in order |
| ShellGrammar.WrappedMeans | user/sh.c:395-420 | redirections nest around the command one by one, the first one innermost |
| ShellLexemes.CutExactly | user/sh.c:282-337 | a line has given lexemes if and only if it is their spellings with white space around them, any amount, and some where two would run together |
| ShellPrint.RoundTrip | user/sh.c:344-518 | for every command tree with at most MAXARGS - 1 valid words per command, parsing its fully parenthesised text gives the tree back |
| Shell.Parser.Gettoken | user/sh.c:282-326 | the loops compute the token |
| Shell.Parser.Peeks | user/sh.c:328-337 | skips white space and looks at one character |
| Shell.Parser.Redirs | user/sh.c:395-420 | the loop finds the redirections the grammar gives |
| Shell.Parser.ReadArgs | user/sh.c:452-469 | the loop fills the argument vector within its bounds as the grammar gives it |
| Shell.Parser.ReadExec | user/sh.c:438-470 | parses what the grammar says and leaves the cursor behind it |
| Shell.Parser.ReadBlock | user/sh.c:422-436 | likewise |
| Shell.Parser.ReadPipe | user/sh.c:381-393 | likewise |
| Shell.Parser.ReadLine | user/sh.c:362-379 | likewise |
| Shell.Parser.ReadCmd | user/sh.c:344-360 | the whole line or a panic |
| Shell.Nulterminate | user/sh.c:473-518 | writes a NUL at the end of every word and file name and nowhere else |
| Shell.StringsAreTokens | user/sh.c:473-518 | no write falls into a word, so each argv and file string is the token scanned |
| Shell.Parse | user/sh.c:344-360 | parsecmd on the line buffer: succeeds exactly on the sentences of the language, and the strings then found in the buffer are what the sentence means |
| Grep.MatchHere | user/grep.c:90-101 | true exactly if a word the pattern describes starts here |
| Grep.MatchStar | user/grep.c:104-112 | true exactly if some number of c's and then the rest start here |
| Grep.Match | user/grep.c:77-87 | agrees with the declarative meaning of literals, '.', 'c*', a leading '^' and a final '$' |
| Grep.ParseExactly | user/grep.c:90-101 | a pattern text is read as the one pattern that is written so |
| Grep.HereMany | user/grep.c:104-112 | c* as zero or more, unfolded one step |
| Grep.EatLines | user/grep.c:20-30 | the inner loop prints the matching lines of the buffer and stops at the unfinished one |
| Grep.Chunk | user/grep.c:17-35 | one round of the outer loop carries the unfinished line over |
| Grep.Grep | user/grep.c:10-37 | for NUL-free input, however read cuts it, prints exactly the matching newline-terminated lines before the first one longer than 1022 characters |
| Grep.LinesAppend | user/grep.c:10-37 | cutting into lines can go on with what was left |

## Left out

- Page tables and user copying: kernel/vm.c is not part of this model; copies succeed or fail by a parameter, as a whole.
- The CFS scheduler, the round-robin one and switching between them: their choices rest on no deep invariant.
- Device and machine code: UART, PLIC, traps, context switch assembly, memory fences; a context switch is one step.
- kernel/console.c, kernel/kalloc.c, kernel/spinlock.c, syscall dispatch, printf, exec and the other user programs: they would add easy members only.
- Path walking (namex, skipelem): system calls take the directory and the last name.
- Multi-processor scheduling and processes that block: the fairness results are for one CPU and a fixed set of CPU-bound processes, with non-negative accumulators.
- 16-bit wrap of nlink, of inode numbers above 65535, and the major and minor fields of devices.
- FsCode.FileSystem.Iput: itable reference counts and ip->valid are not modelled; whether an iput is the last one of a valid inode is a parameter, as in Links.Inodes.Iput.
- FsCode.FileSystem.Filewrite: pipes and devices, which filewrite passes on, are not part of it.
- Pipe.Buffer.WriteSegment: processes and their wake-ups are sets here; when a woken process runs again is not modelled.
- Links: directories are maps of names here; that dirlookup, dirlink and the zeroing in sys_unlink implement such maps is shown in Directory.
- FsCode.FileSystem.Readi: buffers are read directly; that bread returns the last value written is shown in BufferCache and LogProtocol.
- Virtio.Disk.Submit: filling in the descriptors and publishing the ring index is one step, since the device looks at neither before the index moves; the rings are fields of values, not memory shared with the device.
- Malloc.Allocator.Alloc: addresses are counted in header units, so sbrk's answers are taken to be congruent modulo 16, and an answer to lie past all memory recorded so far, which sbrk keeps only while no request above 2^31 - 32 bytes had to obtain memory.
- LogCode.Log.EndOp: the calls of this class run one at a time, and a bread that would wait for a locked buffer is excluded; other processes' steps during a commit are in LogProtocol.
- ExitWait.NoZombieForgotten: exit messages, files and the current directory of a process are not modelled.
- SleepLock.NoDeadlock: says that somebody can move, not that the scheduler lets them.
- Grep.Grep: a read error is not modelled; a read of zero bytes ends the loop, as the code has it.

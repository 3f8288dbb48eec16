# xv6: a verified model

This project models the parts of the xv6 kernel (x86) and of its user programs whose correctness is
least evident from reading them, and proves what they promise. Each part is modelled in the form the
code has: what the kernel updates in place is a class with methods, what several CPUs or processes do
at once is a state machine whose runs are quantified over, and what the shell and the pattern matcher
compute is functions and the loops that compute them.

- **Crash safety.** `LogSpec`, `Log` and `Transaction` are the redo log (log.c) over the buffer cache
  (`Bio`, bio.c). The ghost `history` of the cache is every disk that any sector write leaves behind;
  a crash is a point in it. The main results are `Transaction.Transact` and, for the file system over
  the log, `VolumeLog.CommitSeries` and `VolumeLog.WriteIsAtomic`.
- **Files.** `FsTypes`, `FsSpec` and `Fs` are blocks, bitmap and inodes (fs.c); `Bitmap` is the bits
  of a bitmap block in its bytes; `Mkfs` builds the
  first image (mkfs.c); `FileWrite` cuts long writes into transactions that fit in the log (file.c);
  `DirSpec`, `DirTree`, `DirEffects` and `Dirs` are directories and link counts (fs.c, sysfile.c).
- **Open files.** `FileSpec`, `FileCalls`, `FileEffects`, `FileRuns` and `FileTable` are descriptors and
  reference counts over runs of system calls (file.c, sysfile.c, proc.c, pipe.c).
- **Processes.** `SleepWakeup` is sleep, wakeup, sched and the spin locks as steps of many CPUs
  (proc.c, spinlock.c), `SleepRuns` what they mean for a process and a CPU over whole runs; `ProcTree`
  and `ProcRuns` are fork, exit, wait and kill over runs (proc.c).
- **Pipes and disk.** `PipeSpec` and `Pipe` (pipe.c), `IdeSpec` and `Ide` (ide.c, memide.c).
- **Memory.** `VmSpec`, `VmView`, `Vm`, `Uvm`, `FreeSpace` and `CopyVm` are physical pages and address
  spaces (kalloc.c, vm.c, proc.c); `FreeLists` and `Umalloc` are `malloc` and `free` (umalloc.c).
- **Programs.** `ShellSyntax`, `ShellTokens`, `ShellGrammar`, `Shell` and `ShellRoundTrip` are the shell's parser,
  `EditDistance` and `Suggest` its suggestions (sh.c); `Grep` is the matcher (grep.c).

A `panic` is an outcome of the model (`TooBig`, `OutOfBlocks`, `None`), or a precondition where every
caller is shown, or has, to avoid it. The clock, the device and other processes are parameters or steps
of the environment: the place `sbrk` gives, whether a page can be had, whether a process was killed.

`dafny verify dfyconfig.toml` checks everything.

## Model

| member | source | states |
|---|---|---|
| LogSpec.CrashInRecovery | log.c:115-122 | A crash after any sector write of recovery leaves a disk that recovers to the same home sectors. |
| LogSpec.RecoveryIsIdempotent | log.c:115-122 | However many recoveries are cut off, wherever, the first that completes leaves the home sectors that one undisturbed recovery would. |
| LogSpec.CrashAtomic | log.c:69-149 | From any disk of a safe history, after any cut-off recoveries, the home sectors are those of exactly one commit, the one the history records. |
| Log.RedoLog.WriteHead | log.c:101-113 | One sector write, of the header, which then holds n and the first n logged sectors and is otherwise as it was. |
| Log.FillHeader | log.c:105-110 | The header block holds n and the logged sectors in order; its other words stay. |
| Log.RedoLog.ReadHead | log.c:85-96 | The in-memory header becomes the one on the disk; no sector is written. |
| Log.RedoLog.InstallTrans | log.c:69-82 | The disk becomes the one after n installs; the history grows by the disk after each; no buffer stays pinned or held. |
| Log.RedoLog.RecoverFromLog | log.c:115-122 | All installs and then the erased header, in this order of sector writes. |
| Log.RedoLog.Boot | log.c:53-66 | From any disk with a legal header the log is idle, readers see what the disk recovers to, and every disk on the way is safe. |
| Log.Mount | log.c:53-66 | The same for a fresh cache over a disk that a crash left. |
| Log.RedoLog.BeginTrans | log.c:124-133 | The log is busy and nothing else has changed. |
| Log.RedoLog.LogWrite | log.c:159-181 | Its outcome is the panic that the two tests decide, or the block is pending, absorbed if its sector was, and pinned. Each new disk recovers to the home sectors from before. |
| Log.RedoLog.Update | log.c:151-181 | bread, modify, log_write, brelse: readers see exactly that sector changed, the home sectors on the disk do not, and each new disk recovers to them. |
| Log.RedoLog.ReadBlock | log.c:151-158 | A reader sees the pending block of a sector, else the disk's. |
| Log.RedoLog.CommitTrans | log.c:135-149 | What readers saw is now on the disk; nothing is pending or pinned; each new disk recovers to what readers saw. |
| Transaction.Transact | log.c:124-181 | begin, any updates, commit: the log overflows if and only if an update meets a full log, stated from the sectors updated. Else readers see all of them, and after a crash at any sector write and any cut-off recoveries the home sectors are those from before, up to one disk of the history, and those after all updates from there on. |
| Transaction.FewSectorsFit | log.c:164-165 | Any number of updates in any order fit if they are about fewer sectors than the log has room for. |
| Bio.BufferCache.constructor | bio.c:38-56 | The ring holds every buffer once; no sector is cached. |
| Bio.BufferCache.Bget | bio.c:61-93 | The cached buffer of the sector, or the least recently released one that is neither busy nor dirty; it waits exactly on a busy one and panics exactly if none can be recycled. One buffer per sector, what readers see does not change. |
| Bio.TakeKeepsView | bio.c:70-80 | Taking an idle cached buffer changes what no reader sees. |
| Bio.RecycleKeepsView | bio.c:82-91 | Recycling a clean idle buffer changes what no reader sees. |
| Bio.BufferCache.Bread | bio.c:96-105 | A busy, valid buffer with what every reader sees of the sector. |
| Bio.BufferCache.Bwrite | bio.c:108-115 | The sector holds the buffer's data, the history grows by that disk. |
| Bio.BufferCache.Brelse | bio.c:119-138 | The buffer is idle and first in the order of use, the others keep their order; the pointer ring holds that order. |
| Bio.BufferCache.Iderw | memide.c:36-58 | A dirty buffer goes to its sector, an invalid one is filled from it. |
| Bio.FreeBuffer | bio.c:82-92 | If fewer sectors than buffers are held or pinned, bget finds a buffer to recycle. |
| Fs.FileSystem.Balloc | fs.c:52-76 | The first free block, zeroed and marked; the panic exactly if none is free; which sectors are logged. |
| Bitmap.TakeBit | fs.c:62-73 | With the byte and the mask: the first clear bit among the first n is set and no other changes, or none of them is clear. |
| Bitmap.DropBit | fs.c:86-95 | With the byte and the mask: the panic exactly if the bit is clear; the bit is clear afterwards and no other changes. |
| Bitmap.DropThenTake | fs.c:52-95 | What bfree drops, balloc takes again if no lower bit is clear, and the block is as it was. |
| Bitmap.MarkUsed | mkfs.c:233-247 | Exactly the first `used` bits are set. |
| Fs.FileSystem.Bmap | fs.c:356-384 | The block of a file block, allocated if need be: no name or byte of any file changes otherwise, ownership stays exact, nothing is allocated for a block that exists, every changed sector is logged and which others may be; none only with every block in use. |
| Fs.FileSystem.Readi | fs.c:434-458 | The bytes of the file from off, up to its end; refused exactly if off is past the end or off + n wraps. Nothing changes. |
| Fs.FileSystem.Writei | fs.c:462-492 | The contents become the old ones with src spliced in at off; every other file keeps its inode, its block numbers and its bytes; the invariant of the volume is kept; every changed block, bitmap sector and inode sector is logged, and which others may be; refused exactly for a hole, a wrap or a file too large; out of blocks only with every block in use and a block of the range lacking. |
| Fs.FileSystem.Itrunc | fs.c:391-419 | Exactly the blocks of that inode become free, every other file stays, the invariant of the volume is kept; every changed bitmap sector and inode sector is logged, and which others may be. |
| FsTypes.NamedOnce | fs.c:356-384 | No block belongs to two places. |
| FileWrite.Filewrite | file.c:116-155 | The file is the old one with the first `done` bytes spliced in; all are written if and only if they fit in a file of maximal size and leave no hole; no other file changes; there is one transaction per chunk, which logs all it changes and at most seven sectors, and between any two the file holds whole chunks; stuck only with every block in use and a write past the end. |
| FileWrite.WriteLogsSeven | file.c:126-132 | What a chunk of the largest size may log, at any offset, is seven sectors. |
| FileWrite.ChunkFits | file.c:126-144 | Any series of updates within those sectors never meets a full log of more than eight sectors. |
| FileWrite.TruncatingClose | file.c:55-79 | The last close of an unlinked file frees exactly its blocks and its inode, leaves the other files alone and is one transaction, which logs all it changes and at most two sectors. |
| FileWrite.TruncLogsTwo | fs.c:391-419 | What truncating may log is two sectors. |
| Mkfs.Image.constructor | mkfs.c:86-105 | The empty image satisfies the kernel's volume invariant, with the bitmap it will get. |
| Mkfs.Image.Ialloc | mkfs.c:219-231 | The next inode, empty, with one link; the other files and the invariant are kept. |
| Mkfs.Image.TakeBlock | mkfs.c:267-287 | Handing out the next block keeps ownership exact and changes no byte of any file. |
| Mkfs.Image.Iappend | mkfs.c:251-298 | The contents become the old ones and then p; no block past the end is allocated; the other files and the invariant are kept; it fails only with every block handed out. |
| Mkfs.Image.Finish | mkfs.c:233-247 | The bitmap marks exactly metadata and owned blocks, which are the first ones: the kernel's invariant holds of the image, and every bit from the next free block on is clear, the log's included. |
| Mkfs.RoundedImage | mkfs.c:148-153 | Rounding the root directory's size up leaves a sound image if and only if the size was not a multiple of the block size. |
| Mkfs.RootRounding | mkfs.c:148-153 | The rounded directory has no hole exactly then. |
| Mkfs.RootFillsBlock | mkfs.c:148-153 | A sound image whose root directory fills one block, and which rounding makes unsound. |
| Mkfs.SectorsApart | mkfs.c:91-98 | Inode sectors, then bitmap sectors, all metadata and apart from one another. |
| Mkfs.BallocAtLog | fs.c:52-76 | On a sound volume whose files are all below the log, balloc returns the log's header if and only if every data block is owned, else a block below it. |
| VolumeLog.ImageDetermines | fs.h:4-9 | The sectors of a volume determine its inodes, its bits and its blocks. |
| VolumeLog.CommitVolume | log.c:124-181 | A transaction of the file system on the log: it fits, and a crash at any sector write, with any cut-off recoveries, leaves the volume as before or as after, with one point in the history in between. |
| VolumeLog.CommitSeries | file.c:134-151 | For a series of transactions each disk of the history recovers to the volume that one of them left, in their order. |
| VolumeLog.WriteIsAtomic | file.c:116-155 | Whenever the machine stops in a filewrite, the file holds the bytes of a whole number of chunks and its own for the rest, and every other file is as it was. |
| DirSpec.LookupIsMap | fs.c:505-529 | dirlookup is lookup in a map from stored names to inode numbers. |
| DirSpec.LinkIsMap | fs.c:532-559 | dirlink of a new name is the map's update; names stay distinct. |
| DirSpec.UnlinkIsMap | sysfile.c:274-280 | Clearing the slot removes exactly that name. |
| DirTree.CreateNeedsLinkedParent | sysfile.c:297-340 | create keeps the link counts equal to the names if and only if the parent directory is still linked. |
| DirTree.LinkNeedsLinkedParent | sysfile.c:178-223 | The same for link. |
| DirTree.UnlinkSound | sysfile.c:242-295 | unlink keeps the directories, their places, their depths and the counts, and its panic about the link count is not reached. |
| Dirs.NameCmp | fs.c:497-501 | Zero exactly for names that are stored alike. |
| Dirs.Tree.Dirlookup | fs.c:505-529 | The first slot in use under the name. |
| Dirs.Tree.Dirlink | fs.c:532-559 | Fails exactly for a name in use, else writes the first free slot or appends. |
| Dirs.Tree.IsDirEmpty | sysfile.c:226-239 | True exactly if no slot after the first two is in use. |
| Dirs.Tree.Create | sysfile.c:297-340 | In a linked directory. A name in use changes nothing and gives its inode if that and the request are files, else 0. A new name leads to the first inode not in use, which has the kind, one link and, as a directory, "." and ".."; every other name leads where it did, nothing else changes, and the tree stays sound. |
| Dirs.Tree.Link | sysfile.c:178-223 | Fails exactly for a directory or a name in use and changes nothing then; else the name leads to the inode, which has one link more, every other name leads where it did, and the tree stays sound. |
| Dirs.Tree.Unlink | sysfile.c:242-295 | Fails exactly for ".", "..", a missing name or a directory that is not empty; else the name leads nowhere, its inode has one link less, and so has the parent of a directory; every other name leads where it did, and the tree stays sound. |
| Dirs.Tree.Iput | fs.c:317-336 | An inode without links is freed, and no directory still names it. |
| Dirs.LinkCountsAreNames | sysfile.c:178-340 | In every run of create, link, unlink and the last iput in which new names go into linked directories: each link count is the number of names, and each directory starts with "." for itself and "..". |
| Dirs.CallsHaveTheirEffect | sysfile.c:178-340 | In every such run each create, link and unlink changes where exactly one name leads, the link counts that go with it, and nothing else. |
| Dirs.DirectoriesAreTree | sysfile.c:178-340 | In every such run, from each linked directory ".." leads up to the root through directories that name the one before, and each is named in one slot. |
| Dirs.UnlinkedParentHappens | sysfile.c:297-340 | A run in which a directory is unlinked while in use; create and link in it then break the counts. |
| FileRuns.RefIsDescriptors | file.c:25-79 | In every run of open, dup, close, pipe, fork and exit, the count of each file is the number of descriptors that name it. |
| FileRuns.PageFreedOnce | pipe.c:58-74 | In every run the page of a pipe has been freed, once, exactly when no descriptor names either end. |
| FileRuns.CallsHaveTheirEffect | sysfile.c:115-488 | In every run each dup, open, close and pipe does to the table what these rows say of the methods, exactly where it can, and else nothing; fork copies and exit clears one row; no call touches the descriptors of another process. |
| FileEffects.PipeDoes | sysfile.c:466-488 | pipe makes two descriptors and one pipe exactly if it can, and leaves nothing behind if not. |
| FileRuns.ForkCopies | proc.c:152-154 | The child's descriptors name the parent's files. |
| FileRuns.ExitEmpties | proc.c:175-181 | exit leaves no descriptor behind. |
| FileCalls.FailedOpen | sysfile.c:368-373 | A failed open leaves every count as it was. |
| FileTable.Files.FileAlloc | file.c:25-40 | The first file not in use, with one reference. |
| FileTable.Files.Close | file.c:55-79 | One reference less; the last one takes the file out of use and closes its end of a pipe. |
| FileTable.Files.FdAlloc | sysfile.c:101-113 | The first free descriptor of the process, or none. |
| FileTable.Files.SysDupFd | sysfile.c:115-127 | On success the first free descriptor names what fd names and that file has one more reference; no other descriptor or file changes. Else -1, nothing changes, and fd is not open or no descriptor is free. |
| FileTable.Files.SysCloseFd | sysfile.c:153-164 | Fails exactly if fd is not open, and changes nothing then; else exactly descriptor fd is free and its file has one reference less or is out of use, with its end of a pipe closed and the page freed if the other end was. |
| FileTable.Files.SysOpenInode | sysfile.c:368-382 | On success the first free descriptor names the first file not in use, which is the inode's with one reference; nothing else changes. Else -1, nothing changes, and no file or no descriptor is free. |
| FileTable.Files.SysPipeFds | sysfile.c:466-488 | Succeeds exactly if there is a page, two files and two descriptors: the lower descriptor is the read end and the other the write end of one new pipe, and nothing else changes. Else descriptors, files and pipes are as they were. |
| FileTable.Files.PipeAlloc | pipe.c:21-56 | On success two files that are the ends of a new pipe; on failure nothing is held. |
| FileTable.Files.ForkFds | proc.c:152-154 | Each descriptor of the child names what the parent's names; those of every other process stay. |
| FileTable.Files.ExitFds | proc.c:175-181 | The process has no descriptor left; those of every other process stay. |
| SleepWakeup.WakeupsAreNeverLost | proc.c:342-397 | In every run of any number of CPUs: if the condition of a channel became true after a sleeper checked it, no wakeup that began later has completed while it still sleeps. |
| SleepWakeup.InvStep | proc.c:257-397 | Every step of every CPU keeps the locking and sleeping discipline: which locks are held at each point of sleep, sched and the scheduler, ncli and interrupts, one CPU per lock and per process. |
| SleepWakeup.SchedPanics | proc.c:292-308 | Whenever sched is entered in any run, three of its four panics are not reached; "sched locks" is reached exactly if the caller held a further lock. |
| SleepWakeup.ExtraIsTheCallers | proc.c:342-375 | What counts as a further lock is what the CPU held at the call beside the lock of the call. |
| SleepWakeup.SchedLocksReached | proc.c:298-299 | A run that reaches "sched locks". |
| SleepWakeup.SwitchHandsOverTable | proc.c:257-308 | In every run a switch, to the scheduler or to a process, hands over ptable.lock as the only lock held. |
| SleepWakeup.MutualExclusion | spinlock.c:24-64 | In every run no lock is held by two CPUs and no process runs on two. |
| SleepRuns.LifeCycle | proc.c:186-397 | In every run, of every step and every process: the process goes from one state to another exactly by the step for it (alloc, fork, dispatch, yield, exit, sleep, the turn of a wakeup on its channel or a kill, reap) and by no other. |
| SleepRuns.ZombiesHaveExited | proc.c:186-203 | In every run a process is a zombie only after its own exit. |
| SleepRuns.NoExitNoZombie | proc.c:311-317 | While no process has exited there is no zombie: yield makes none. |
| SleepRuns.ExitIsFinal | proc.c:186-203 | A process that exits stays a zombie, and is not dispatched, until its slot is reaped. |
| SleepRuns.YielderIsRunnable | proc.c:311-317 | A process that yields stays runnable until it is dispatched. |
| SleepRuns.SleeperStaysAsleep | proc.c:342-397 | A process that goes to sleep on a channel sleeps on it until a kill of it or the turn of a wakeup on that channel at its slot. |
| SleepRuns.InterruptsComeBack | spinlock.c:96-116 | A CPU that holds no lock at two points of a run, and does not switch between them, has its interrupts at the second as at the first, however its locks were nested. |
| SleepRuns.SchedKeepsIntena | proc.c:292-308 | What sched saves of the interrupts is what the process finds at its next dispatch, on whichever CPU. |
| ProcTree.TreeIsSound | proc.c:128-247 | In every run: parents are alive, every zombie has one, a parent asleep in wait has no zombie child, pids in use are distinct and none is returned twice. |
| ProcTree.ZombieIsReapedOnce | proc.c:208-247 | A zombie stays until a wait returns its pid. |
| ProcTree.CleanStep | proc.c:34-57 | From clean free slots, a step leaves one marked killed if and only if it is a kill whose first slot with that pid is free, or a fork that fails after its embryo was killed. |
| ProcTree.CleanRun | proc.c:128-141 | Up to any point of any run the free slots have been clean exactly if no such step was taken. |
| ProcTree.FailedForkKeepsKill | proc.c:136-141 | A run in which a killed embryo's fork fails and the next process in that slot is killed from the start. |
| ProcTree.KillCleanness | proc.c:402-420 | The part about kill: it leaves the free slots clean exactly if the first slot with that pid is in use. |
| ProcTree.KillZeroHitsTheNextChild | proc.c:402-420 | With any number of slots beyond one, kill(0) at the start marks a free slot, and the process that gets it is killed from the start. |
| ProcTree.ProcTable.AllocProc | proc.c:34-50 | The first unused slot with a fresh pid, or none exactly if all are in use. |
| ProcTree.ProcTable.Exit | proc.c:186-202 | cur is a zombie, its children are init's, and exactly these are woken: a parent of cur that sleeps in wait, and init if it sleeps in wait and gets a zombie; pids, channels and kills stay. |
| ProcTree.ProcTable.Wait | proc.c:208-247 | Reaps the first zombie child, or fails exactly if there is no child or the caller is killed, else sleeps. |
| ProcTree.ProcTable.Kill | proc.c:402-420 | The first slot with the pid is killed and not asleep: runnable if it slept, else in the state it was in; every other slot is unchanged. Fails exactly if no slot has the pid. |
| ProcRuns.LifeCycle | proc.c:34-420 | Of every step and every process: it goes from one state to another exactly by the step for it (alloc, fork or its failure, schedule, yield, sleep, exit, reap, or the wakeup, exit or kill that wakes it) and by no other. |
| ProcRuns.KillHitsTheProcess | proc.c:402-420 | In every run a kill of a process in use marks exactly that process: runnable if it slept, else in its state; nothing else changes. |
| ProcRuns.KillOfNoOne | proc.c:402-420 | A kill of a pid that no slot has changes nothing. |
| ProcRuns.KilledStaysKilled | proc.c:402-420 | In every run a killed process stays killed until its slot is reaped. |
| PipeSpec.PipeIsFifo | pipe.c:77-120 | At every point of every run, with any readers and writers, the bytes read are the first of the bytes written, at most PIPESIZE are between, and a write that returned n sent its n bytes in order. |
| PipeSpec.EmptyReadMeansClosed | pipe.c:99-120 | A read of a positive length returns nothing exactly if the pipe is empty and its write end closed. |
| PipeSpec.ReadTakesAll | pipe.c:99-120 | In every run, with any readers and writers: a stretch of a read returns fewer than n bytes only if it leaves the pipe empty, fails exactly if it would wait and is killed, and else sleeps. |
| PipeSpec.WriteFillsPipe | pipe.c:77-97 | In every run a stretch of a write that has not put in all its bytes leaves the pipe full, and it ends exactly when all are in, the read end is closed or the caller is killed. |
| PipeSpec.RunInv | pipe.c:77-120 | In every run no writer sleeps while there is room or the read end is closed. |
| PipeSpec.ReadersWaitStep | pipe.c:77-120 | No reader sleeps beside bytes or a closed write end, except through one kind of step: a write that adds bytes, finds the pipe full and fails. |
| PipeSpec.ReadersWaitRun | pipe.c:77-120 | So it is in every run without such a step. |
| PipeSpec.KilledWriterStrandsReader | pipe.c:83-91 | A run with such a step: a killed writer leaves a reader asleep beside a full pipe. |
| Pipe.PipeBuffer.WriteStretch | pipe.c:77-97 | The ring buffer with its wrapping counters does what the queue does: the next bytes go behind the others; the call is done exactly if all n are in, and else the pipe is full and it fails if the read end is closed or the caller killed, or sleeps. It wakes the readers unless it fails. |
| Pipe.PipeBuffer.ReadStretch | pipe.c:99-120 | The same for reading: the call waits exactly if the pipe is empty with its write end open, and fails then if the caller is killed; else it returns the first bytes, at most n, and fewer than n only if it leaves the pipe empty. |
| Pipe.PipeBuffer.Close | pipe.c:58-74 | The page goes back exactly when both ends are closed. |
| IdeSpec.RefinesSync | ide.c:69-155 | In every run the queued driver refines the one that does each request at once: a request takes effect when the disk completes it, and no other step has an effect. |
| IdeSpec.ServedInOrder | ide.c:91-155 | Requests complete in the order made, and a call returns with its buffer valid, clean and equal to its sector. |
| IdeSpec.WriteReachesDisk | ide.c:125-155 | In every run a call with a dirty buffer returns with its data on the disk at its sector; one with a clean buffer returns what the sector holds. |
| IdeSpec.DiskChangesByRequests | ide.c:69-119 | In every run the disk changes only when the request at the head completes, and then exactly the sector of a dirty buffer. |
| Ide.Driver.Submit | ide.c:125-155 | The linked queue grows at its end; a step of the state machine. |
| Ide.Driver.Ideintr | ide.c:91-119 | The head leaves the queue and the next command starts; a step of the state machine. |
| Vm.Machine.Kalloc | kalloc.c:82-95 | The page at the head of the free list, or none exactly if it is empty. |
| Vm.Machine.Kfree | kalloc.c:59-77 | The page is free and every other page is what it was. |
| Vm.Machine.WalkPgdir | vm.c:45-65 | The table of a page, made of a free page if asked and there is one; no view of any address space changes. |
| Vm.Machine.MapUserPage | vm.c:70-90 | Exactly that page of that space is mapped, or nothing changes for lack of a page for the table. |
| Vm.Machine.DeallocUvm | vm.c:249-273 | Exactly the pages from the first table found on are gone and free; no other page or space changes. |
| Uvm.ShrinksCompletely | vm.c:249-273 | Nothing stays mapped in the range if and only if nothing was mapped where the skip over missing tables jumps. |
| Uvm.SkipIsSafe | vm.c:258-262 | It jumps over nothing if the range starts at a table's first page or the space is contiguous. |
| Uvm.SkipMissesPage | vm.c:258-262 | A space in which it jumps over a mapped page. |
| Uvm.AllocUvm | vm.c:220-243 | All pages in place exactly if there are enough for them and their tables; one short, with the last table lacking, success is reported with the last page missing; else every address space maps what it did. A page is lost exactly if it was the last one free when it was taken for a page whose table was lacking. |
| Uvm.LastTableLacks | vm.c:238-240 | A machine on which growing by one page reports success without the page, and growing by two fails and loses one. |
| Uvm.GrowProc | proc.c:107-123 | The pages fit the size afterwards if and only if the process does not shrink to nothing and the last table is not lacking; when the result is 0. |
| FreeSpace.FreeVm | vm.c:277-292 | Exactly the pages of that address space become free, every other space stays. |
| CopyVm.SetupKvm | vm.c:128-144 | A new space with the kernel's mappings in pages that were free, if and only if there are pages for the directory and the tables; with fewer, but some, all of them stay taken. |
| CopyVm.TablesAreEntries | vm.c:128-144 | The tables counted are one for each directory entry that the kernel's mappings cover. |
| CopyVm.SetupLeaks | vm.c:135-142 | A machine on which setupkvm leaks. |
| CopyVm.CopyUvm | vm.c:309-337 | Equal contents and flags in frames that were free, and no other space changes, if and only if there are pages for the directory, all tables and the user pages; else every space is as it was. When it leaks and when it loses a page, from the number of free pages. |
| CopyVm.CopyLoses | vm.c:325-336 | A machine on which copyuvm loses a page. |
| Umalloc.Heap.Malloc | umalloc.c:63-90 | A new block of the units asked for, apart from every other; 0 exactly if no free block is large enough and sbrk fails; free and allocated units always partition the memory from sbrk. |
| Umalloc.Heap.Release | umalloc.c:24-44 | The block's units are free, coalesced with both neighbours, and nothing else changes. |
| Umalloc.Heap.Morecore | umalloc.c:46-61 | The units from sbrk, at least 4096, are free and fit the request; or nothing changes. |
| Umalloc.UnitsHoldRequest | umalloc.c:69-69 | The units hold the request if and only if the 32-bit sum does not wrap. |
| ShellRoundTrip.ParseUndoesPrint | sh.c:359-478 | Every command tree, printed with any choice of ">" and ">>" for each output redirection, is parsed back to the same tree, with the same files, modes and descriptors. |
| ShellTokens.ParsedIsLegal | sh.c:359-478 | Every command that is parsed is the tree of a printed one: words that can be written, redirections of the syntax, at most nine arguments. |
| ShellGrammar.NothingIsLost | sh.c:359-478 | In every line that parses each word is in the command exactly once, each "|", ";", "&", "<", ">" and ">>" stands for one node of it, and there are as many "(" as ")". |
| ShellTokens.TokensReadBack | sh.c:481-525 | With every token terminated in place, each reads as exactly its word: no terminator falls inside a token. |
| ShellTokens.LineWhole | sh.c:297-478 | Every token of every parsed command is a whole word of the line. |
| Shell.NulTerminate | sh.c:481-525 | Exactly the ends of the command's tokens become NUL. |
| Shell.Parsecmd | sh.c:359-374 | The parse of the line, or the panic exactly where the grammar has none; each token of the buffer then reads as its word. |
| EditDistance.StringDistance | sh.c:753-787 | The length of a shortest script of insertions, deletions and replacements. |
| EditDistance.LowerBound | sh.c:765-782 | No script is shorter. |
| EditDistance.Attained | sh.c:765-782 | Some script has that length. |
| Suggest.Sort | sh.c:806-817 | A stable sort of the candidates by distance. |
| Suggest.FixCmd | sh.c:789-829 | The longest run of near candidates from the start of that order; all near ones are shown if and only if each comes before each that is not near. |
| Suggest.ShowsAllNear | sh.c:819-826 | That equivalence, for any such order. |
| Suggest.NearCommandMissed | sh.c:819-826 | A list in which a near command is not shown. |
| Grep.Match | grep.c:71-81 | True exactly if the pattern, read as a sequence of single and starred items with its two anchors, matches somewhere in the text. |
| Grep.MatchHere | grep.c:83-95 | True exactly if it matches at the start of the text. |
| Grep.MatchStar | grep.c:97-105 | True exactly if some number of repetitions, none included, works. |
| Grep.ParseUndoesShow | grep.c:83-105 | Every sequence of items that can be written is read back from its writing: which characters are starred, and whether a last "$" is the end. |
| Grep.ShowUndoesParse | grep.c:83-105 | Every pattern text is the writing of what it is read as. |

## Findings

Properties that the code does not have in general. The members named give an input or a run where
each fails, or the contract that says so for a whole class of inputs, and, for all inputs, the
condition under which it holds.

- `create` and `link` in a directory that was unlinked while in use break the link counts
  (`Dirs.UnlinkedParentHappens`); they keep them if and only if the directory is linked
  (`DirTree.CreateNeedsLinkedParent`, `DirTree.LinkNeedsLinkedParent`).
- `allocuvm` ignores the result of `mappages`: one page short of what growing takes, it reports success
  with the last page unmapped, and whether it succeeds or fails it loses a page that it took as the
  last free one and could not map (`Uvm.AllocUvm`, `Uvm.LastTableLacks`).
- `growproc` to size 0, from any other size, reports failure after the pages are gone (`Uvm.GrowProc`).
- `deallocuvm` skips a table's worth of pages from wherever it is, which can pass a mapped page
  (`Uvm.SkipMissesPage`, `Uvm.ShrinksCompletely`); from contiguous spaces it cannot (`Uvm.SkipIsSafe`).
- `setupkvm` does not give back its pages when it fails, and `copyuvm` loses the page it could not map
  (`CopyVm.SetupLeaks`, `CopyVm.CopyLoses`; exactly when, `CopyVm.SetupKvm`, `CopyVm.CopyUvm`).
- A writer that is killed on a full pipe fails before it wakes anyone, and a reader may sleep on beside
  the bytes (`PipeSpec.KilledWriterStrandsReader`, `PipeSpec.ReadersWaitStep`).
- A new process can be killed from the start: `kill(0)` marks a free slot, and a fork that fails leaves
  the kill of its embryo behind (`ProcTree.KillZeroHitsTheNextChild`, `ProcTree.FailedForkKeepsKill`).
  Those are the only steps that do (`ProcTree.CleanStep`, `ProcTree.CleanRun`).
- mkfs rounds the root directory's size up by a whole block where it is a multiple already, past the
  blocks that exist (`Mkfs.RootFillsBlock`, `Mkfs.RoundedImage`).
- The bitmap does not mark the log (`Mkfs.Image.Finish`), so once every data block is owned `balloc`
  hands out the log's header as data (`Mkfs.BallocAtLog`). The crash results here are about
  transactions that log home sectors below the log.
- `malloc` of a request near 2^32 gets too few units (`Umalloc.UnitsHoldRequest`).
- `fixcmd` stops at the first candidate that is not near and can miss near ones
  (`Suggest.NearCommandMissed`, `Suggest.ShowsAllNear`).
- `sched` panics with "sched locks" exactly if the caller held a further lock
  (`SleepWakeup.SchedLocksReached`, `SleepWakeup.SchedPanics`).

## Left out

- Log.RedoLog.BeginTrans: does not model the sleep until another transaction commits; the log is free on entry.
- Log.Mount: the log's size is given, not read from the superblock, and at most NBUF; the kernel does not check that, and with a larger log the cache could run out of buffers. NBUF and the default size are both 10.
- Bio.BufferCache.Bget: the sleep on a busy buffer is an outcome, not a wait; there is one device.
- Fs.FileSystem.Writei: says nothing of the files after the panic of balloc; devices are not modelled.
- Fs.FileSystem.Readi: the file is not a device.
- FileWrite.Filewrite: says nothing of the files after the panic of balloc.
- VolumeLog.CommitVolume: the updates are given, any that log the transaction's sectors and leave the final contents in each; the image has the fields of inodes and the bits one by one, not packed into bytes.
- Log.RedoLog.LogWrite: for a caller that holds no other buffer; bmap also holds the indirect block when balloc logs. For the sectors logged that makes no difference, for the number of buffers in use it does.
- Umalloc.Heap.Malloc: for requests that do not wrap; sbrk never gives memory below the break.
- Umalloc.Heap.Release: for blocks that malloc returned and that were not freed since, which is what free asks.
- Dirs.Tree.Create: for a linked directory; for others DirTree.CreateNeedsLinkedParent says what happens.
- Dirs.Tree.Link: for a linked directory, likewise.
- CopyVm.CopyUvm: for spaces whose pages below the size are present, else the code panics.
- Shell.Parsecmd: the line has a terminator; allocation of the command structures is not modelled.
- Suggest.FixCmd: the list of commands is given, not read from the directory.
- SleepWakeup.WakeupsAreNeverLost: does not say that a process that is made runnable is scheduled.
- FileRuns.RefIsDescriptors: each system call is one step; two processes do not interleave inside one.
- Path lookup (namex, skipelem) and the inode cache (iget, ilock): the directory and the inode are given.
- exec, the trap and interrupt entry code, the console, the keyboard, the timer and the multiprocessor boot.
- The system calls that only copy arguments, and stat, read and write on descriptors: they would add easy members.
- The shell's running of commands, history and colours, and the other user programs.
- Grep's reading of lines from a file, and printf.
- usertests and the other test programs.

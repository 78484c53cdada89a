# xv6 with containers: verified models

This project models the parts of xv6 (the variant with containers) whose
correctness is hard to see from the code, and proves what they are there for:

- **Crash-safe storage.** The redo log (`Log`, `LogDevice`, `LogMachine`, `LogRuns`,
  `LogBudget`) over a disk of atomic block writes (`Disk`), and the buffer cache
  (`BufferCache`).
- **The file system.** Bitmap, block maps, reading, writing and truncation
  (`FsBytes`, `FsVolume`, `FsContent`, `FsWrite`, `FsTruncate`, `FileSystem`), open
  files (`File`), the image mkfs lays out (`Mkfs`), the tight case of the write budget
  (`WriteBudget`), directories and paths (`Names`, `Paths`, `Directory`, `Namei`,
  `Creation`).
- **Containers.** The copy a container gets when it opens a file (`PrivateNames`,
  `FileCopy`, `Container`), and where that fails (`ContainerLimits`, `ContainerWitness`).
- **Memory.** The user-space allocator (`Umalloc`), page frames and page tables
  (`Frames`, `Vm`).
- **Processes.** Sleep and wakeup (`SleepWakeup`), sleep locks (`SleepLock`), the
  process table (`ProcTable`) and its runs (`ProcRuns`, `ProcKills`), pipes (`Pipe`).
- **User programs.** The shell's parser (`ShellSyntax`, `ShellGrammar`, `ShellParser`,
  `ShellPrint`, `ShellRoundTrip`) and grep's matcher (`Grep`).

Code that updates objects in place is a class whose methods are proved against a
value of the state: the log device against the list of block writes it makes, the
file system against `Volume`, the allocator against `Heap`, the kernel's memory
against `Machine`. Interleavings are state machines over any number of processes:
a run is a sequence of states joined by enabled steps, and the theorems hold at
every state of every run. A panic is an outcome (`Panic`) or a step that is not
enabled, and the theorems say exactly when one can occur.

`dafny verify dfyconfig.toml` checks the whole project.

## Model

| member | source | states |
|---|---|---|
| Log.CommitPrefix | log.c:177-202 | cut commit() after any number of its block writes: recovery would show the old home blocks up to and including the log writes, and all of the transaction from the header write on |
| Log.RecoveryIdempotent | log.c:69-122 | any number of recoveries that crash anywhere, then one that completes, brings home exactly what the first disk showed |
| Log.CrashAtomicity | log.c:69-202 | crash atomicity: a crash in commit(), crashed recoveries and a complete one leave the home blocks all old or all new, new exactly from the header write on |
| LogDevice.Device.WriteLog | log.c:177-190 | the cached blocks go to the log slots, in order and nowhere else |
| LogDevice.Device.WriteHead | log.c:101-113 | the header block lists exactly the blocks of the transaction |
| LogDevice.Device.ReadHead | log.c:85-96 | the list the header on disk holds |
| LogDevice.Device.InstallTrans | log.c:69-82 | the writes to the disk are the log slots copied home in order, and the cache agrees with the disk again |
| LogDevice.Device.Commit | log.c:192-202 | the disk receives exactly the writes `CommitWrites` that the crash theorems are about, and the log is empty |
| LogDevice.Device.RecoverFromLog | log.c:115-122 | the disk receives exactly `RecoverWrites` |
| LogDevice.Device.TryBegin | log.c:126-141 | one turn of begin_op() is the step `Begin` of the log machine: admitted exactly if no commit runs and the reservation fits |
| LogDevice.Device.LogTest | log.c:218-221 | log_write() before the lock is the step `Test` of the log machine; it panics exactly where the step is not enabled |
| LogDevice.Device.LogAppend | log.c:223-232 | log_write() under the lock is the step `Append`: recorded once, pinned, and no second test for room |
| LogDevice.Device.EndOp | log.c:145-174 | end_op() is the step `End` of the log machine; its panic is exactly that the step is not enabled |
| LogDevice.Device.EndCommit | log.c:165-173 | the commit of end_op() is a run of the machine: its disk writes one by one, then the end of the commit |
| LogRuns.CrashSafety | log.c:69-233 | at any state of any run in which the log has stayed in its region, a crash, crashed recoveries and a complete one bring back exactly the blocks of the committed operations, and no operation is split by the commit point |
| LogRuns.GroupCommit | log.c:126-174 | a commit runs only with no operation outstanding, so nobody is inside an operation then, and block[] has no duplicates |
| LogRuns.NoOversleep | log.c:126-174 | whoever sleeps in begin_op() sees a commit running or a log reserved full by somebody |
| LogRuns.IdleIsDurable | log.c:145-202 | when the log is idle, and has stayed in its region, every finished operation is durable |
| LogRuns.DurableForever | log.c:69-202 | what is durable stays so, in the same order, through later commits and crashes |
| LogRuns.ReadsSeeWrites | log.c:213-233 | outside recovery, as long as the log has stayed in its region, the home blocks in memory are the replay of all log_write() calls so far |
| LogBudget.RunReserved | log.c:126-141 | in every run whose operations keep to their reservation, blocks in the log plus unspent reservations of running operations stay within LOGSIZE |
| LogBudget.NeverPanicsIff | log.c:218-221 | "too big a transaction" is out of reach for operations within their reservation if and only if the log region has LOGSIZE + 1 blocks |
| LogBudget.ListFits | log.c:223-230 | in every such run block[] is never overrun, whatever the region |
| LogBudget.SafeIff | log.c:213-233 | for all runs that keep to their reservations: the log stays in its region, a crash loses nothing, and reads see every log_write(), each of them if and only if the region has LOGSIZE + 1 blocks (or only a header, where every log_write() panics) |
| LogBudget.Trespass | log.c:218-223 | on a region of 2 to LOGSIZE blocks, the run in which two log_write() calls pass the test for one slot and write_log() writes over the block behind the region |
| LogBudget.MkfsTrespass | mkfs.c:25 | on mkfs's own disk that block is the first inode block |
| LogBudget.ThriftySafe | log.c:213-233 | operations whose lists of log_write() calls are thrifty, as filewrite()'s are, make frugal runs and never panic on LOGSIZE + 1 blocks |
| LogBudget.MkfsRegionPanics | mkfs.c:25 | a log region of LOGSIZE blocks, as mkfs makes it, can panic |
| LogBudget.AbsorptionPanics | log.c:218-228 | on a region of any size some run panics on a log_write() by an operation within MAXOPBLOCKS blocks; with LOGSIZE + 1 blocks or more that block is in the log already |
| BufferCache.Cache.constructor | bio.c:38-56 | binit(): one cycle that holds every buffer once |
| BufferCache.Cache.Bget | bio.c:61-93 | the buffer of the block, else the idle buffer released longest ago; no logical content changes; it panics only if no buffer is idle |
| BufferCache.RecycleView | bio.c:81-91 | recycling an idle buffer changes the logical content of no block |
| BufferCache.Cache.Bread | bio.c:96-106 | the buffer has the logical content of the block: the cached copy if there is one, else the disk's (iderw of memide.c) |
| BufferCache.Cache.Bwrite | bio.c:109-116 | the disk has the new contents, and no other block's logical content changes |
| BufferCache.Cache.Pin | log.c:228-231 | a block recorded in the log stays in the cache as the logical content |
| BufferCache.Cache.Brelse | bio.c:120-141 | at the last reference the buffer comes to the front, so the list is in order of last release; no content changes |
| Umalloc.StopsAtGap | umalloc.c:30-32 | on an address-ordered cycle the exit test of free() holds exactly at the gap for the block |
| Umalloc.SearchStops | umalloc.c:30-32 | the search of free() stops wherever it starts |
| Umalloc.FreedTidy | umalloc.c:33-43 | joining on both sides keeps an address-ordered cycle, blocks that tile the memory and no two free blocks that abut |
| Umalloc.FreedUntouched | umalloc.c:33-43 | no unit of a live block is written, and no unit of memory is lost |
| Umalloc.FreedStores | umalloc.c:33-43 | the stores of free(), in program order, are that insertion and those joins |
| Umalloc.Allocator.constructor | umalloc.c:21-22 | a program that has not called malloc() yet |
| Umalloc.Allocator.Free | umalloc.c:24-44 | the block leaves the live ones, every other block keeps its units, and a free block of its size or more is there |
| Umalloc.SbrkPositive | umalloc.c:46-58 | sbrk() gets a positive number exactly for less than 2 GB of units |
| Umalloc.Allocator.Morecore | umalloc.c:46-61 | new memory goes to the free list as a block of at least the units asked for; nothing changes without a grant |
| Umalloc.UnitsSuffice | umalloc.c:69 | the units hold nbytes behind their header if and only if the 32-bit sum does not wrap |
| Umalloc.AllSmall | umalloc.c:74-89 | a search that is back at freep has seen every free block too small |
| Umalloc.Allocator.Malloc | umalloc.c:63-90 | it ends; NULL only if sbrk refuses; a block that holds nbytes, apart from every live block, if and only if the sum does not wrap and a free block fits or sbrk grants less than 2 GB |
| Umalloc.TwoGigabytes | umalloc.c:46-61 | a request of 2 GB: sbrk gets a negative number and malloc() does not get a block |
| Umalloc.LargestRequest | umalloc.c:69 | a request near 4 GB: the count of units wraps and the block has no room |
| Mkfs.EmptyConsistent | mkfs.c:89-100 | the empty image of every layout is consistent; the file system may start from it |
| Mkfs.Superblock | mkfs.c:22-26 | mkfs's own superblock is such a layout |
| FileSystem.Fs.constructor | fs.c:172-193 | the file system over a consistent image |
| FileSystem.Fs.Bzero | fs.c:41-50 | the block is zero and logged |
| FileSystem.Fs.Balloc | fs.c:55-78 | the first free block, marked and zeroed; it panics only on a full disk |
| FileSystem.Fs.Bfree | fs.c:81-96 | the bit is cleared; it panics exactly on a free block |
| FsVolume.NewAddrOwned | fs.c:374-383 | a free block stored in addrs[] keeps every block owned by exactly one place |
| FsVolume.NewEntryOwned | fs.c:386-399 | so does one stored in an indirect block |
| FileSystem.Fs.Bmap | fs.c:372-401 | the block of the file, mapped if it was not; every other place and every data block stay, and what changed was logged |
| FsWrite.WriteStep | fs.c:500-506 | one turn of writei() lays its bytes over the file and leaves every other file alone |
| FileSystem.Fs.WriteI | fs.c:484-513 | the file is the old one overlaid at off, no holes, all other files unchanged, at most Cost blocks logged, every changed block logged; -1 exactly behind the end, on a 32-bit wrap or past MAXFILE |
| FileSystem.Fs.ReadI | fs.c:455-478 | the slice of the file's bytes; -1 exactly for a start behind the end or a 32-bit wrap |
| FsTruncate.TruncatedOwned | fs.c:408-436 | freeing an inode's blocks keeps every other block owned by exactly one place |
| FileSystem.Fs.ITrunc | fs.c:408-436 | the bitmap loses exactly the inode's blocks, other files keep their bytes, and "freeing free block" is out of reach |
| FileSystem.Fs.IUpdate | fs.c:221-239 | the cached inode goes to its inode block, which is logged |
| FileSystem.Fs.IAlloc | fs.c:195-215 | the first free inode, empty, every one before it in use; it panics only if there is none |
| File.ChunkCost | file.c:127-139 | a chunk of filewrite() costs at most MAXOPBLOCKS blocks wherever it starts |
| WriteBudget.SpreadConsistent | fs.c:57-78 | an image of 50 bitmap blocks with one free block to each of 49 is consistent |
| WriteBudget.FillBudget | file.c:127-147 | the bound is tight: on that image an unaligned chunk of 1536 bytes logs exactly MAXOPBLOCKS distinct blocks |
| File.FileWrite | file.c:119-157 | the accepted bytes are laid over the file at the offset, which moves behind them; other files stay, and every log_write() of every transaction is made with a block of the reservation to spare |
| File.FileRead | file.c:98-115 | the bytes at the offset, which moves behind them |
| Names.Namecmp | string.c:58-66 | zero exactly for names that say the same in 14 bytes |
| Names.Strncpy | string.c:68-79 | the field says what the name says |
| Paths.Skipelem | fs.c:583-624 | the first non-empty component cut to 14 bytes, and a rest whose components are the others |
| Directory.LinkDir | fs.c:554-580 | an entry in an unused place adds one name to the map |
| Directory.UnlinkDir | sysfile.c:230-232 | clearing an entry takes one name out of the map |
| Directory.DirLookup | fs.c:525-551 | finds exactly the names of the map, with inode number and offset |
| Directory.DirLink | fs.c:553-580 | false exactly for a name that is there; else the first unused entry takes it, the directory grows only if none is unused, the map gains the name and no other file changes |
| Directory.ClearEntry | sysfile.c:230-232 | the map loses the name and no other file changes |
| Namei.Namex | fs.c:626-659 | follows exactly the components of the path, or all but the last |
| Creation.CreatedWalk | sysfile.c:253-298 | the path leads to the file that was made |
| Creation.Create | sysfile.c:253-298 | no parent: none; a file there: that one; another kind: none; else a new empty file, and all else as before; it panics only where it has to make one |
| PrivateNames.MyItoa | sysfile.c:422-444 | "$", the decimal digits and a NUL |
| PrivateNames.Strcat | sysfile.c:446-460 | a new string, one behind the other |
| PrivateNames.PrivateNameInjective | sysfile.c:422-460 | different paths or containers have different private names |
| PrivateNames.MyStrcmp | sysfile.c:461-474 | true exactly for strings of one length that agree behind the first character |
| PrivateNames.SimilarIff | sysfile.c:461-474 | that is string equality exactly for strings that do not differ in the first character alone |
| Container.Registered | sysfile.c:524-531 | the search in the container's files |
| FileCopy.CopyFile | sysfile.c:723-732 | the bytes of the original are laid over the private file and no other file changes; it panics only if there is a byte to copy |
| Container.OpenFile | sysfile.c:479-824 | the descriptor is on the inode of the private name; a first open is isolated from the original if and only if that name led nowhere or to another file that is not longer; a known name is opened as it is; -1, with nothing changed, exactly if the path looked up cannot be opened or the private file has no place |
| Container.Rights | sysfile.c:596-597 | the descriptor is readable and writable exactly as the bits of omode say |
| Container.LaterWrites | file.c:119-157 | writes through the descriptor change no other file |
| Container.OpenAndWrite | sysfile.c:479-824 | the whole guarantee: the original keeps its bytes through the open and all later writes |
| Container.OpenAndRead | sysfile.c:479-824 | an isolated first open with O_RDONLY or O_RDWR, then fileread(): the bytes of the original from its start |
| Container.OpenAndPut | sysfile.c:479-824 | a first open with O_WRONLY or O_RDWR, then filewrite() of bytes that fit in a file: all are accepted and are what the file starts with |
| ContainerLimits.SuffixCut | fs.c:613-618 | the suffix is cut off again exactly for names of 14 bytes or more |
| ContainerLimits.LongNameShared | sysfile.c:677-684 | such a path is its own private path on every image, so the file is never isolated |
| ContainerWitness.OpensOriginal | sysfile.c:677-684 | an open on a concrete image that gives the original itself |
| ContainerWitness.OpensLonger | sysfile.c:683-732 | an open on a concrete image that gives a longer file under the private name |
| ContainerWitness.Shadowed | sysfile.c:524-531 | an image, a path and a registered name such that a file that is there cannot be opened |
| Frames.Conserved | kalloc.c:58-95 | every frame is free or belongs to exactly one live directory |
| Frames.OneMapping | vm.c:61-80 | no frame is the page of two addresses, and none of them is free |
| Frames.ApartSees | vm.c:222-298 | work on one directory changes nothing another shows |
| Vm.Kernel.constructor | kalloc.c:31-53 | the whole pages between the two addresses are free, once |
| Vm.Kernel.FreeRange | kalloc.c:46-53 | exactly the whole pages of the range are freed |
| Vm.Kernel.Kalloc | kalloc.c:82-95 | the frame freed last; none exactly if the list is empty |
| Vm.Kernel.Kfree | kalloc.c:59-77 | the frame is free and full of junk |
| Vm.KernelMapOk | vm.c:103-115 | the kernel's own table of mappings is one that setupkvm() can map |
| Vm.KernelEntryPage | vm.c:103-115 | the entry setupkvm() gives a page is that of the one part of the table it is in, and none outside them |
| Vm.KernelMapMeans | vm.c:103-115 | the kernel's own table page by page: physical memory at KERNBASE, its text read-only, devices at DEVSPACE, nothing between |
| Vm.Kernel.Walk | vm.c:35-56 | the page table, made if asked for; it fails only without memory, and then nothing changed |
| Vm.Kernel.MapRange | vm.c:60-80 | maps the range; "remap" is out of reach and it fails only without memory |
| Vm.Kernel.SetupKvm | vm.c:118-136 | a new directory with every part of the kernel's map, nothing else above KERNBASE, and no user page; without memory the free frames are restored |
| Vm.Kernel.AllocUvm | vm.c:221-250 | the user pages grow to the new size, zeroed; without memory they are what they were and the answer is 0 |
| Vm.Kernel.DeallocUvm | vm.c:255-279 | exactly the pages from the new size on are gone: the jump over a missing table skips nothing |
| Vm.Kernel.FreeVm | vm.c:282-298 | every frame of the directory is free again |
| Vm.Kernel.CopyUvm | vm.c:315-345 | the child has the kernel mapped as setupkvm() does and the pages on frames of its own; the panics are out of reach; without memory the free frames are restored |
| Vm.RestoredFree | vm.c:315-345 | a failed copyuvm() or setupkvm() leaves exactly the free frames it found |
| Vm.GrownSize | vm.c:221-250 | after allocuvm() the user pages are exactly those below the new size |
| Vm.ClearedSize | vm.c:255-279 | after deallocuvm() they are exactly those below the smaller size |
| Vm.CopiedSame | vm.c:315-345 | child and parent show the same bytes and flags at every user address |
| SleepWakeup.NoLostWakeup | proc.c:505-561 | when lk is free nobody sleeps, or is on the way to, on a channel whose condition holds |
| SleepWakeup.MutualExclusion | proc.c:505-561 | lk and ptable.lock have one holder each |
| SleepLock.OneHolder | sleeplock.c:22-42 | at most one process has a sleep lock |
| SleepLock.SleeperImpliesLocked | sleeplock.c:22-42 | a sleeper implies a holder |
| ProcTable.Ptable.AllocProc | proc.c:110-128 | the first unused entry becomes an embryo; it fails only without one |
| ProcTable.Ptable.Wakeup1 | proc.c:544-552 | exactly the sleepers on the channel become runnable |
| ProcTable.Ptable.Exit | proc.c:287-304 | parent and, for inherited zombies, init are woken, the children pass to init, the entry is a zombie |
| ProcTable.Ptable.WaitPass | proc.c:310-348 | reaps a zombie child if there is one, gives up without children or when killed, else sleeps |
| ProcTable.Ptable.Kill | proc.c:566-585 | the first entry with the pid is marked killed, in use or not, and does not sleep any more; every other entry stays; false exactly if no entry has the pid |
| ProcRuns.ExitedAt | proc.c:287-304 | what exit() does to every entry |
| ProcRuns.NoDeadParent | proc.c:216-348 | in every run every parent is alive |
| ProcRuns.NoMissedZombie | proc.c:264-348 | nobody sleeps in wait() with a zombie child |
| ProcRuns.ReapedOnce | proc.c:309-348 | whoever is reaped has exited, and nobody is reaped twice |
| ProcKills.KillWakes | proc.c:566-585 | in every run, a kill() leaves its target killed and not asleep |
| ProcKills.NoKilledWaiter | proc.c:310-348 | in every run, nobody sleeps in wait() while marked killed |
| ProcKills.KilledIff | proc.c:110-348 | in every run an entry is marked killed exactly if a kill() has hit it since a wait() last gave it back |
| ProcKills.BornKilled | proc.c:110-128 | a process is born killed exactly if a kill() has hit its entry since then |
| ProcKills.KillUnused | proc.c:566-585 | kill() hits an entry not in use exactly for pid 0 or the pid of a failed fork() whose entry has not been taken since |
| ProcKills.KillZero | proc.c:571 | kill(0) and a fork(): the child is runnable and killed |
| ProcKills.KillStale | proc.c:230-235 | a failed fork(), a kill() of its pid and another fork(): the child is runnable and killed |
| Pipe.Pipe.Write | pipe.c:77-97 | the bytes taken follow all earlier ones, the count stays within 512 through counter wraps, and a wakeup is lost exactly if a killed writer has more than 512 bytes to write while a reader sleeps |
| Pipe.Pipe.Read | pipe.c:99-121 | the oldest bytes; none, for n > 0, only from a drained pipe whose write end is closed |
| Pipe.Pipe.Interrupt | proc.c:566-585 | a sleeper woken by kill() leaves, and no wakeup is lost for the others |
| Pipe.Pipe.Close | pipe.c:59-74 | whoever waits for the closed end is woken |
| Pipe.LostWakeup | pipe.c:84-90 | the run on which the wakeup is lost |
| Grep.ParseIff | grep.c:84-97 | how an expression is read: as the one list of items that writes it, each `*` belonging to the character before it |
| Grep.MatchHere | grep.c:86-97 | true exactly if the expression's language has a prefix of text |
| Grep.MatchStar | grep.c:100-106 | true exactly if some run of c and then the rest match |
| Grep.Match | grep.c:72-82 | true exactly if a part of text at an allowed place is in the language |
| Grep.MatchItems | grep.c:86-97 | for an expression written from items: true exactly if a prefix of text is in the language of those items |
| Grep.MatchAnywhere | grep.c:72-82 | the same for match(), at any place, or at the start after `^` |
| ShellParser.Parser.Peek | sh.c:310-320 | whether the next token starts with one of the characters |
| ShellParser.Parser.GetToken | sh.c:265-308 | the next token of the line and where it is |
| ShellParser.Parser.ParseRedirs | sh.c:374-397 | as the grammar says, with the same rest |
| ShellParser.Parser.ParseExec | sh.c:415-446 | as the grammar says, with the same rest |
| ShellParser.Parser.ParsePipe | sh.c:361-372 | as the grammar says, with the same rest |
| ShellParser.Parser.ParseLine | sh.c:344-359 | as the grammar says, with the same rest |
| ShellParser.Parser.ParseCmd | sh.c:327-342 | accepts exactly the lines of the grammar, with its tree |
| ShellParser.NulTerminate | sh.c:449-493 | a NUL behind every word and nothing else changed |
| ShellParser.WordsReadBack | sh.c:449-493 | no terminator falls inside another word |
| ShellParser.ParseBuffer | sh.c:327-342 | the grammar's tree, and every word reads back from the buffer |
| ShellGrammar.LexSpelled | sh.c:265-308 | tokens spelled with any gaps, none needed but between two words and between `>` and `>` or `>>`, are read as those tokens |
| ShellGrammar.LexSound | sh.c:265-308 | every text is such a spelling of its tokens |
| ShellGrammar.ReadSimple | sh.c:374-446 | words and `<`, `>`, `>>` targets in any order, with at most 9 words: the words in order, and the targets in order around them, the first innermost |
| ShellGrammar.ReadLine | sh.c:344-446 | the tokens of every form of a line are read as its tree |
| ShellGrammar.LineForm | sh.c:344-446 | what is accepted has a form, and its tree is the answer |
| ShellGrammar.CommandIff | sh.c:265-446 | a line is read as a tree exactly if it is a spelling of a form of that tree, in whatever spacing |
| ShellPrint.RoundTrip | sh.c:327-446 | every tree with at most 9 plain words to a command is read back from its printed line |
| ShellPrint.Given | sh.c:327-446 | the trees the shell can be given are exactly those |
| ShellRoundTrip.ParseSpelled | sh.c:265-493 | parsecmd() accepts a buffer exactly if it holds a spelling of a form, and runcmd() then sees the tree of that form, words and all |
| ShellRoundTrip.ParsePrinted | sh.c:265-493 | parsecmd() of the printed line gives the tree that runcmd() sees as the printed one |

## Findings

Properties the code fails, each with the input that shows it and the exact condition
under which the code meets it:

- **The log region of mkfs is one block short.** `LogBudget.NeverPanicsIff`: operations
  that keep to their reservation never reach "too big a transaction" if and only if the
  region has LOGSIZE + 1 blocks; `LogBudget.MkfsRegionPanics`: mkfs.c:25 gives it LOGSIZE.
- **log_write() tests for room before it takes the lock** (log.c:218, log.c:223). Two
  operations can pass the test for the last slot. `LogBudget.SafeIff`: crash safety holds
  for all runs within their reservations if and only if the region has LOGSIZE + 1 blocks;
  `LogBudget.Trespass` and `LogBudget.MkfsTrespass`: on mkfs's region write_log() then
  writes log data over the first inode block.
- **log_write() tests for room before it looks for the block.** `LogBudget.AbsorptionPanics`:
  on a region of any size an operation that has logged ten blocks, and logs one of them
  again, can panic in a full log (log.c:218 comes before log.c:223-226).
- **mystrcmp() ignores the first character.** `PrivateNames.SimilarIff` says when it is
  equality; `ContainerWitness.Shadowed` is a file that cannot be opened because of it.
- **Isolation of a container.** `Container.OpenFile` says when a first open is isolated;
  `ContainerLimits.LongNameShared` and `ContainerWitness.OpensOriginal`: never for names of
  14 bytes or more; `ContainerWitness.OpensLonger`: not where a longer file has the
  private name, whose tail stays.
- **malloc() of 2 GB and more.** `Umalloc.Allocator.Malloc` says when the block holds what
  was asked for; `Umalloc.TwoGigabytes` and `Umalloc.LargestRequest` are requests for which
  sbrk() gets a negative number and for which the number of units wraps.
- **A killed writer leaves readers asleep.** `Pipe.Pipe.Write` says exactly when a wakeup is
  lost; `Pipe.LostWakeup` is the run.
- **A process can be born killed, and kill() can succeed without a process.** kill() goes by
  the pid of any entry, and allocproc() does not clear killed. `ProcKills.BornKilled` and
  `ProcKills.KillUnused` say exactly when; `ProcKills.KillZero` (kill(0)) and
  `ProcKills.KillStale` (the pid of a fork() that failed) are the runs.

## Left out

- Hardware: ide.c, lapic, ioapic, uart, kbd, mp, trap, boot and assembly; the disk is an array of blocks written one at a time, without read errors.
- spinlock.c: acquire and release are atomic steps; memory ordering is not modelled.
- sys_send, sys_recv, queues.c and the wait queue in syscall.c: they change process states outside ptable.lock.
- sys_open with O_CREATE in a container, ls_called, the cid tags of files, process lists of containers, ps and the scheduler log.
- A process outside any container (cid -1): its sys_open is the plain one, `Container.OpenPath`.
- LogDevice.Device: its cache is a map that never evicts; that bread() gives the logical content through eviction is proved of `BufferCache.Cache`, and the two are not joined in one object.
- Log and BufferCache: a block is 128 words, as the log header reads it, where the file system's is 512 bytes; the two views of one block are not converted into each other.
- BufferCache.Cache: one process at a time; the sleep lock of a buffer and the spin lock of the cache are not modelled, refcnt is.
- FileSystem.Fs: one call at a time under the inode lock; inode blocks are a separate sequence, not bytes of the disk; nlink, major and minor are not modelled.
- FileSystem.Fs.WriteI: inodes of devices (T_DEV) go to their drivers and are excluded; so are they in ReadI, FileRead and FileWrite.
- The inode cache (iget, iput, ref counts), the tables of open files (filealloc, filedup, fileclose) and their limits.
- mkfs: the empty image is proved consistent; the files it copies in are not modelled.
- Creation.Create: files only, not directories and devices.
- Vm.Kernel: frames hold typed entries or bytes, no bit packing of page-table entries; segment registers, inituvm, loaduvm, clearpteu and copyout are not modelled.
- growproc to exactly 0, which reports failure after freeing pages.
- LogMachine: log_write() reads lh.n twice in its first test, which is one read here; behind block[LOGSIZE], and behind write_log() once the log has left its region, the model does not follow the code.
- Umalloc.Allocator.Malloc: promises nothing about the heap after `Wild`, where morecore() links a block that sbrk() has not granted.
- Umalloc.Allocator.Morecore: promises nothing about the heap after `Nothing`, for the same reason.
- Umalloc.Allocator: the static header `base` lies below all memory from sbrk(), which only grows.
- SleepWakeup.NoLostWakeup: only for code that makes a condition true under lk and wakes before releasing it, as the source's callers do; kill() wakes without the condition and is left to the caller's loop.
- ProcTable.Ptable: the wait() loop is one pass at a time, and the scheduler is the step that picks any runnable process.
- ShellParser.Parser: trees are values; the argv and eargv pointers are positions in the buffer, and `>>` is the same as `>`, as in sh.c.
- Grep.Match: the line buffering of grep(), and printing.
- The panics "bget: no buffers", "balloc: out of blocks" and "ialloc: no inodes" are allowed halts.

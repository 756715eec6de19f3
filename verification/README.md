# xv6 with swapping: a verified model

This project models the hard parts of an xv6 kernel for RISC-V that was extended with a swap
system, and of a few of its user programs, in Dafny 4.11, and proves properties that hold for every
input, every run or every interleaving. `dafny verify dfyconfig.toml` checks all of it.

Each part has a *model* (values, step functions, an invariant and the theorems) and, where the C code
works in place, a *code* module: a class whose methods have the loops and assignments of the source
and are proved against the functions of the model.

| part | modules |
|---|---|
| virtual memory with clock eviction, swap slots and page-in | `RiscV`, `SwapModel`, `SwapOps`, `UserMemory`, `Clock`, `Fork`, `Forecast`, `Teardown`, `FrameConservation`, `PagedRuns`, `PagedOutcomes`, `ForkSpoils`, `LruRing`, `Bitmap`, `SwapCode` |
| three-level page tables as a flat map | `Sv39Model`, `Sv39Code` |
| redo log, group commit and crash recovery | `LogModel`, `LogRuns`, `LogFs`, `LogFull`, `LogCode` |
| buffer cache | `BufModel`, `BufData`, `BufCode`, `DiskUse` |
| inode blocks, the block bitmap and the image mkfs builds | `FsModel`, `FsCode`, `Mkfs`, `MkfsMain` (and `Sets`) |
| sleep locks: sleep, wakeup and the hand-off of `p->lock` | `SleepLock`, `SleepLockCalls` |
| fork, exit, wait and kill | `ExitWait`, `ExitTree`, `ProcCalls`, `WaitCalls` (and `Counting`) |
| virtio descriptors and rings | `VirtioModel`, `VirtioCalls`, `VirtioCode` |
| the Kernighan and Ritchie allocator | `HeapModel`, `HeapCode` |
| the shell parser and grep's matcher | `ShellModel`, `ShellTrip`, `ShellGrammar`, `ShellCode`, `Grep` |

How things are modelled:

- Page-table words are numbers; a right shift divides and a mask takes a remainder. The code of the
  swap system stores and tests such words, which decode to the entries of its model. A page is 4096
  bytes.
- `swapout`, `swapin` and the rounds of `uvmalloc`, `uvmunmap` and `uvmcopy` are atomic steps. `kalloc`
  and its hidden evictions are part of them.
- A disk write of one block is atomic, and a crash may come between any two of them, also during
  recovery. Log blocks hold 256 words.
- Sleep locks are modelled one instruction at a time; in the exit/wait protocol, work done on another
  process under its `p->lock` is one step, enabled when that lock is free.
- In the buffer cache with contents, `bread` with the disk read it may cause is one step. Callers change a
  buffer only while they refer to it, and write it back, or keep it pinned, before the last reference goes.
- The virtio device is nondeterministic: it takes requests in ring order and completes them in any
  order, in between any two steps of the driver. It reports success, since the handler panics otherwise.
- Copies to and from user space in `readi` and `writei` succeed or fail block by block as an arbitrary
  function says; a copy that fails changes nothing.
- Addresses in the user heap are in units of a `Header`; `sbrk` fails or returns units above all it
  returned before, and sizes fit its signed argument.

Where the code does not do what one would expect, the model follows the code:

- `uvmcopy` looks the source frame up before it calls `kalloc`, which may evict that very page. The
  child then gets the fill pattern of `kalloc`. `Fork.ForkExact` says exactly when the copy is right, and
  `Forecast.ForkExactForetold` says it from a glance at the lists before the call: how many frames and
  slots are free, the ring with its access bits, and which tables exist. `Forecast.ForkSucceeds` and
  `Forecast.ForkWithRoom` count the memory needed. `ForkSpoils.ForkSpoilsAfterBoot` leads there from boot.
- `log_write` tests for room before it looks whether the block is logged already, so the
  operations of two processes can all keep to their budgets and one panic on a block it has logged,
  however large the log area is
  (`LogFull.WithinBudgetPanics`). With a log area of at most `LOGSIZE` blocks, as mkfs makes it, they can
  also panic on a new one (`LogFull.FreshAppendPanics`). `LogFull.RefusedExactly` is the test a caller
  could make.
- mkfs rounds the size of the root directory up even when it is a multiple of the block size, which
  leaves a hole (`Mkfs.RootRoundingHole`, `MkfsMain.Make`). `readi` allocates a block when it gets to a
  hole and one is free, so it needs a transaction; `fileread` opens none, and unless another operation is outstanding the
  read ends in the panic of `log_write` outside a transaction (`FsCode.Fs.ReadI`, `FsCode.Fs.FileRead`).
- `wait` tests `killed` and then calls `sleep`, which takes `p->lock`; a `kill` in between finds the process
  running, so nothing wakes it, and it sleeps until a child exits. `WaitCalls.SleepsThroughKill` says that this
  is the only way, and `WaitCalls.KillCanBeMissed` leads there.

## Model

| member | source | states |
|---|---|---|
| `RiscV.SwapOutWordDecodes` | kernel/vm.c:725-734 | the word swapout stores is not valid, is marked swapped, keeps R, W, X, U and the other flags but A, and yields the slot number back |
| `RiscV.SwapInWordDecodes` | kernel/vm.c:786-793 | the word swapin stores is valid, not marked swapped, keeps every other flag of the swapped entry and points at the new page |
| `RiscV.CoolWordDecodes` | kernel/vm.c:686-688 | clearing the access bit in the stored word clears that flag of the entry and nothing else |
| `RiscV.MapWordDecodes` | kernel/vm.c:255 | the word mappages stores points at the page and has exactly the flags asked for, and V |
| `RiscV.CopyWordDecodes` | kernel/vm.c:465-508 | whether the page is present or swapped, the word uvmcopy stores for the child keeps every flag of the parent entry but SWAPPED, is valid and points at the new page |
| `SwapCode.UserWordDecodes` | kernel/vm.c:370-371 | the word uvmalloc stores is a valid user-readable entry with the write and execute permission asked for and no other flag |
| `SwapModel.SwapOutEntryOk` | kernel/vm.c:700-745 | turning a listed page into a swapped one keeps the whole ownership invariant and changes nothing a user can read |
| `SwapModel.SwapInEntryOk` | kernel/vm.c:748-808 | turning a swapped page into a listed one keeps the invariant and changes nothing a user can read |
| `SwapModel.MapEntryInv` | kernel/vm.c:377-389 | mapping a held frame and listing it keeps the invariant |
| `SwapModel.UnmapListedInv` | kernel/vm.c:297-313 | dropping a present page keeps the invariant and leaves its frame in no list, for the caller to free |
| `SwapModel.UnmapSwappedInv` | kernel/vm.c:279-290 | dropping a swapped page and clearing its slot keeps the invariant, so slots in use and swapped entries still correspond |
| `SwapModel.AddTableInv` | kernel/vm.c:185-190 | a table page added by walk keeps the invariant |
| `PagedRuns.StorePage` | kernel/trap.c:75-88 | bytes stored at an offset of a present page appear there and nowhere else in any user memory |
| `PagedRuns.WritePage` | kernel/trap.c:75-88 | a store succeeds if and only if the user has the page, may write it, and it is in memory or kalloc has a frame to bring it into; then exactly its bytes change, and otherwise nothing does |
| `SwapModel.BootInv` | kernel/kalloc.c:32-46 | the state after boot satisfies the invariant |
| `SwapOps.Evict` | kernel/vm.c:716-737 | an eviction leaves user memory as it was and puts exactly the victim on the free list |
| `SwapOps.SwapOut` | kernel/vm.c:664-745 | swapout fails exactly when the ring is empty or no slot is free, and never changes user memory |
| `SwapOps.Kalloc` | kernel/kalloc.c:76-107 | kalloc fails exactly when the free list is empty and nothing can be evicted; evictions hidden in it change nothing a user can read |
| `SwapOps.KallocKeepsFrames` | kernel/kalloc.c:76-107 | no frame appears or disappears in kalloc |
| `SwapOps.SwapIn` | kernel/vm.c:748-808 | swapin is refused unless the page is swapped out and a frame can be had; user memory is the same either way |
| `SwapOps.Walk` | kernel/vm.c:175-193 | walk with alloc set adds table pages only, and no user can tell |
| `UserMemory.UvmAlloc` | kernel/vm.c:351-394 | uvmalloc adds zeroed pages for the whole range, or after a failure leaves user memory as before the call |
| `UserMemory.UvmUnmap` | kernel/vm.c:267-315 | uvmunmap removes exactly the named pages from user memory |
| `Clock.ScanStopsAtVictim` | kernel/vm.c:675-700 | the clock hand passes each page at most once, only rotates the ring, and stops at the first page whose access bit was clear, or where it began |
| `Clock.ScanEntry` | kernel/vm.c:686-693 | a listed page loses its access bit exactly when the hand passed it, and its entry is otherwise unchanged |
| `Fork.CopyDataIs` | kernel/vm.c:465-473 | the page uvmcopy copies is the source page, or a page of fives exactly when its own kalloc evicted the source |
| `Fork.UvmCopy` | kernel/vm.c:453-536 | on success the child has a copy of every parent page, spoiled exactly where recorded; on failure everything is undone |
| `Fork.SpoiledRounds` | kernel/vm.c:461-530 | uvmcopy succeeds exactly when each of its rounds does, and page v is spoiled exactly when the state its own round starts from has that page as the next victim and no free frame |
| `Fork.ForkExact` | kernel/vm.c:453-536 | fork copies memory exactly if and only if every page whose own round finds it at the clock hand, with no frame free, already holds nothing but fives |
| `Forecast.TakeLook` | kernel/kalloc.c:76-107 | whether kalloc succeeds, which page it evicts and how it leaves the ring are told by the number of free frames and slots, the ring and the access bits |
| `Forecast.CopyForetold` | kernel/vm.c:453-536 | whether uvmcopy succeeds and which pages it spoils are told before the call by those and the table pages that exist, with no page contents, frame or slot numbers |
| `Forecast.ForkExactForetold` | kernel/vm.c:453-536 | fork copies memory exactly if and only if every page foretold to be spoiled holds nothing but fives |
| `Forecast.ForkSucceeds` | kernel/vm.c:453-536 | fork succeeds if and only if the frames short of one per page and one per table page the child lacks are no more than the free slots and fewer than the pages on the ring and those to copy together |
| `Forecast.ForkWithRoom` | kernel/vm.c:453-536 | with a free frame for each page of the parent and each table page the child lacks, fork succeeds, evicts nothing it copies and copies memory exactly |
| `Forecast.GrowForetold` | kernel/vm.c:351-394 | uvmalloc succeeds if and only if the frames short of one per page and one per missing table page are no more than the free slots and fewer than the pages on the ring and those to add together |
| `Forecast.SwapInLook` | kernel/vm.c:748-808 | a page-in takes its frame as any kalloc does, gives its slot back and makes its page the last on the ring |
| `Forecast.ForkCopiesFives` | kernel/vm.c:465-473 | whenever no frame is free and the first page of the parent is the next victim, a fork that has memory enough gives the child a page of fives in its place, so the copy is not exact unless the page held fives |
| `ForkSpoils.ForkSpoilsAfterBoot` | kernel/proc.c:287-313 | on any machine with nineteen frames or more some run from boot, ending with a child as proc_pagetable makes it, leads to a fork that succeeds and gives the child fives for whatever the parent page holds |
| `PagedRuns.FrameOwnership` | kernel/vm.c:37-103 | each allocatable frame is exactly one of free, listed with a back-pointer to the one entry that maps it, a table, or held |
| `PagedRuns.SlotOwnership` | kernel/vm.c:37-62 | a bit of the slot bitmap is set exactly when one entry carries that slot |
| `PagedRuns.RunOwnership` | kernel/vm.c:37-103 | from boot, over every run of the paging operations, process exit among them, no frame appears or disappears, every frame has exactly one use and every slot in use exactly one entry |
| `Teardown.FreeWalk` | kernel/vm.c:419-435 | freewalk gives back each table page at or below its argument, once, and leaves every other table and all of user memory as they were |
| `Teardown.UvmFree` | kernel/vm.c:439-445 | uvmfree takes away all pages, slots and tables of the process and nothing of any other |
| `Teardown.NothingLeaks` | kernel/vm.c:439-445 | once no process is left and every frame lent out is back, every frame is free and no slot is taken |
| `PagedRuns.RunLeaksNothing` | kernel/vm.c:439-445 | a run from boot at whose end every process is gone and every frame lent out is returned leaves exactly the frames of boot on the free list, each once, and the swap area empty |
| `FrameConservation.UvmAllocFrames` | kernel/vm.c:351-394 | uvmalloc with its roll-back loses and invents no frame |
| `FrameConservation.UvmCopyFrames` | kernel/vm.c:453-536 | uvmcopy with its roll-back loses and invents no frame |
| `PagedRuns.StepRefines` | kernel/vm.c:267-808 | each operation does to user memory what it would do on a machine without swapping |
| `PagedRuns.RunRefines` | kernel/vm.c:267-808 | over any run of allocation, freeing, byte stores, forks, evictions, page-ins and process exits, contents and permissions of every user page are those of a flat memory |
| `PagedOutcomes.StepSucceeds` | kernel/vm.c:164-808 | each paging call succeeds if and only if the state before it says so: stores and faults by presence and permission and what kalloc has, uvmalloc and uvmcopy by counting frames, slots and missing table pages |
| `PagedOutcomes.RunSucceeds` | kernel/vm.c:164-808 | over any run the outcome of every call is that forecast from the state the run has reached, so contents and outcomes together are those of flat memory and the lists |
| `PagedOutcomes.StoresFailForMemory` | kernel/trap.c:80-87 | in any run a store to a page the program has and may write fails exactly when the page is out and kalloc has nothing |
| `PagedOutcomes.StepEffects` | kernel/proc.c:178-214 | kalloc lends one frame more and kfree takes it back, uvmcreate makes a page table that was not there, mapping the trampoline makes its tables, and uvmfree leaves no table of the process |
| `LruRing.LinkRemove` | kernel/vm.c:96-102 | the assignments of lru_remove close the ring around the page |
| `LruRing.Lru.Add` | kernel/vm.c:71-85 | lru_add appends the page to a well-linked ring |
| `LruRing.Lru.Remove` | kernel/vm.c:87-103 | lru_remove takes exactly the page out of a well-linked ring, and does nothing for a page not on it |
| `LruRing.Lru.Rotate` | kernel/vm.c:690-693 | moving the head on makes the old head the tail of the same ring |
| `Bitmap.BitOps` | kernel/vm.c:42-60 | setting or clearing one bit of a byte map changes that bit and no other |
| `SwapCode.Vm.constructor` | kernel/kalloc.c:32-46 | boot puts every frame of the range on the free list once |
| `SwapCode.Vm.SwapInit` | kernel/vm.c:652-662 | no slot is in use after swapinit |
| `SwapCode.Vm.AllocSwapSlot` | kernel/vm.c:37-52 | the lowest clear bit is set and returned, or -1 if there is none |
| `SwapCode.Vm.FreeSwapSlot` | kernel/vm.c:54-62 | exactly that bit is cleared |
| `SwapCode.Vm.SwapWrite` | kernel/fs.c:738-761 | the page goes to the four blocks of its slot and no other block changes |
| `SwapCode.Vm.SwapRead` | kernel/fs.c:712-736 | the frame receives the page that the four blocks of the slot hold |
| `SwapCode.Vm.ClockScan` | kernel/vm.c:675-698 | the loop of swapout ends with the ring rotated to the victim of the specification |
| `SwapCode.Vm.SwapOut` | kernel/vm.c:664-745 | the in-place code of swapout computes the specified state |
| `SwapCode.Vm.Kalloc` | kernel/kalloc.c:76-107 | the retry loop of kalloc ends and computes the specified state and frame |
| `SwapCode.Vm.Kfree` | kernel/kalloc.c:52-69 | the in-place code of kfree computes the specified state: the frame, filled with ones, first on the free list |
| `SwapCode.Vm.SwapIn` | kernel/vm.c:748-808 | the in-place code of swapin computes the specified state |
| `SwapCode.Vm.Walk` | kernel/vm.c:175-193 | the loop of walk computes the specified state |
| `SwapCode.Vm.UvmUnmap` | kernel/vm.c:267-315 | the loop of uvmunmap computes the specified state |
| `SwapCode.Vm.UvmDealloc` | kernel/vm.c:404-415 | uvmdealloc unmaps exactly the pages between the rounded sizes |
| `SwapCode.Vm.UvmAlloc` | kernel/vm.c:351-394 | the loop of uvmalloc with its roll-back computes the specified state and return value; it panics exactly when it gets to MAXVA and kalloc still has a frame |
| `SwapCode.Vm.UvmCopy` | kernel/vm.c:453-536 | the loop of uvmcopy with its roll-back computes the specified state and return value |
| `SwapCode.Vm.UvmCreate` | kernel/vm.c:322-331 | uvmcreate gives a zeroed root table in the frame kalloc found, or fails with it |
| `SwapCode.Vm.FreeWalk` | kernel/vm.c:419-435 | the loop over 512 entries with its recursion computes the specified state, table by table in index order |
| `SwapCode.Vm.UvmFree` | kernel/vm.c:439-445 | the in-place code of uvmfree computes the specified state: every page, slot and table of the process goes back |
| `LogModel.InstallAt` | kernel/log.c:68-83 | what replaying a log leaves in each block: the last logged copy, or the old contents |
| `LogModel.InstallTwice` | kernel/log.c:68-83 | replaying after part of a replay ends where one replay would |
| `LogModel.HeaderCommits` | kernel/log.c:193-203 | writing the header of a fully written log makes all logged values durable at once |
| `LogRuns.NextInv` | kernel/log.c:54-235 | begin_op, log_write, end_op, every disk write of commit and recovery, buffer reads, recycling of any buffer not pinned, also of one just installed, and a crash all keep the log invariant |
| `LogRuns.UpdateView` | kernel/log.c:205-235 | log_write changes what readers see in that block to the data written, whether the block is new to the log or absorbed, and in no other |
| `LogFs.StepShows` | kernel/log.c:54-235 | each step of the log does what a file system without log or cache does, whose saved state becomes the current one at the header write of a commit and replaces it at a crash |
| `LogFs.RunIsFs` | kernel/log.c:54-235 | every run from boot, crashes and recoveries included, is a run of that simple file system: readers see its blocks whenever the machine is up, and the disk always recovers to what it last saved |
| `LogFs.CommitSavesLatest` | kernel/log.c:178-203 | what a commit makes durable holds, in each block, the data of its last log_write since the commit before, and where there was none what that commit left |
| `LogRuns.DurableIsCommitted` | kernel/log.c:193-203 | at every instant a crash would bring back exactly the last committed file system |
| `LogRuns.CommitsAreAtomic` | kernel/log.c:193-203 | the committed file system changes only at the header write, to the view of a moment with no operation in progress |
| `LogRuns.CrashRecovers` | kernel/log.c:116-123 | after a crash at any instant and any number of crashes in recovery, the file system is the last committed one, whole |
| `LogRuns.CommitKeepsView` | kernel/log.c:178-203 | no write of a commit and no buffer read or recycling changes what readers see |
| `LogRuns.LoggedSetFrozen` | kernel/log.c:126-175 | a commit runs only with no operation outstanding, and the logged set cannot change under it |
| `LogRuns.LoggedStaysInCache` | kernel/log.c:214-235 | a logged, uncommitted block is neither recycled nor written home |
| `LogRuns.FreshAppendFits` | kernel/log.c:132-223 | an operation within its budget finds a free header entry, so the guard of log_write stops it exactly when lh.n is one less than the size of the log area |
| `LogFull.RefusedExactly` | kernel/log.c:220-228 | a log_write within budget, of a new block or of one logged already, panics exactly when the log has the lesser of LOGSIZE and size - 1 entries; with a new block that is size - 1, below LOGSIZE |
| `LogFull.WithinBudgetPanics` | kernel/log.c:220-228 | some run from boot in which every operation keeps to its budget reaches a panic of log_write if there are two processes or more, whatever the size of the log area, and for one process if and only if it has at most MAXOPBLOCKS + 1 blocks: the guard comes before absorption |
| `LogFull.FreshAppendPanics` | kernel/log.c:220-221 | such a run reaches the panic with a block not logged yet if and only if the log area, header included, has at most LOGSIZE blocks, as mkfs makes it, or at most MAXOPBLOCKS for one process |
| `LogCode.Log.WriteLog` | kernel/log.c:178-191 | every logged buffer is copied to the log while each disk state still recovers to the old file system |
| `LogCode.Log.FillHeader` | kernel/log.c:102-114 | the header block holds n and the first n block numbers |
| `LogCode.Log.WriteHeadCommit` | kernel/log.c:102-114 | the header write moves recovery from the old file system to the new one |
| `LogCode.Log.InstallTrans` | kernel/log.c:68-83 | each copy home leaves a disk that recovers to the same file system |
| `LogCode.Log.Commit` | kernel/log.c:193-203 | every disk state on the way recovers to the whole old or the whole new file system, the new one from the header write on |
| `LogCode.Log.RecoverFromLog` | kernel/log.c:116-123 | recovery ends with the committed file system on the home blocks and an empty log, and every disk state on the way recovers to it |
| `LogCode.Log.constructor` | kernel/log.c:54-65 | initlog on any disk left by a crash gives back the file system it recovers to |
| `LogCode.Log.BeginOp` | kernel/log.c:126-142 | an operation is admitted exactly when its full budget fits beside those of the others |
| `LogCode.Log.LogWrite` | kernel/log.c:214-235 | from the call on readers see the new contents of the block and the old of every other; the block is recorded, once however often it is written; the call panics exactly when the guard says the log is full |
| `LogCode.Log.EndOp` | kernel/log.c:146-175 | the last operation out commits everything logged since the last commit |
| `SleepLock.NextInv` | kernel/sleeplock.c:21-41 | every instruction-level step of acquiresleep, releasesleep, sleep, wakeup and the scheduler keeps the protocol invariant |
| `SleepLockCalls.FinishReleases` | kernel/sleeplock.c:33-41 | from a call of releasesleep until its next acquiresleep a process is in releasesleep or back from it, back after at most three steps per process and four more, and got past the clearing only through a state with the lock free and no pid |
| `SleepLockCalls.StartAcquires` | kernel/sleeplock.c:21-31 | from a call of acquiresleep until its releasesleep a process is in acquiresleep or back from it as the holder on record |
| `SleepLockCalls.FreeLockTaken` | kernel/sleeplock.c:24-30 | whoever gets the spin lock while the sleep lock is free is back with the lock in its name two steps later, whatever others do |
| `SleepLockCalls.TakenLockSleeps` | kernel/sleeplock.c:24-27 | whoever gets it while the sleep lock is taken is asleep on the lock and off the CPU five steps later |
| `SleepLockCalls.WokenTestsAgain` | kernel/proc.c:579-586 | a sleeper switched to is, three steps later, about to test the lock again under the spin lock |
| `SleepLock.NoLostWakeup` | kernel/proc.c:560-605 | whenever the sleep lock is unlocked and its spin lock free, no process is asleep on it or committed to sleeping on it |
| `SleepLock.MutualExclusion` | kernel/sleeplock.c:21-52 | at most one process holds the sleep lock, and holdingsleep is true for exactly that one |
| `SleepLock.NeverStuck` | kernel/proc.c:560-605 | while any process is using the lock some step other than a new call is possible |
| `ExitWait.NextInv` | kernel/proc.c:287-446 | every step of fork, exit, reparent, wait, sleep, wakeup, kill and the scheduler hand-off keeps the protocol invariant |
| `ExitWait.ZombieIsDead` | kernel/proc.c:417-432 | a zombie whose lock is free has left its stack for good and has an uncollected status |
| `ExitWait.NoLostExit` | kernel/proc.c:357-397 | with wait_lock free no process sleeps in wait while it has a ZOMBIE child |
| `ExitWait.ParentsAlive` | kernel/proc.c:341-352 | a parent pointer never leads to a free slot, one being made, or a ZOMBIE |
| `ExitWait.WaitGivesUp` | kernel/proc.c:436-440 | wait returns -1 without a failed copy only to a process that is killed or has no child |
| `ExitTree.NextTree` | kernel/proc.c:287-446 | every step keeps parents older than children and a child for every process that saw one in wait |
| `ExitTree.SleepersHaveLiveDescendants` | kernel/proc.c:401-446 | with wait_lock free every process asleep in wait has a line of descent to a process that is alive and not asleep in wait |
| `ExitTree.CollectedOnce` | kernel/proc.c:417-432 | each exit status is recorded once and collected at most once, by the parent, from a child that has switched off its stack |
| `ProcCalls.ExitStatus` | kernel/proc.c:358-396 | every recorded exit status is the one its own process passed to exit, earlier in the run |
| `ProcCalls.WaitStatus` | kernel/proc.c:401-432 | every status wait has handed to a parent is the one that child passed to exit |
| `ProcCalls.ExitEnds` | kernel/proc.c:357-397 | whoever calls exit is in exit until wait collects it, never back in user space, and off its stack after at most two steps per slot and six more |
| `ProcCalls.ExitOnce` | kernel/proc.c:357-397 | no process calls exit twice |
| `ProcCalls.NoOrphans` | kernel/proc.c:330-353 | from its launch until its slot is freed every process but init has a parent that is alive |
| `ProcCalls.LaunchedByParent` | kernel/proc.c:330-336 | a slot comes to life only by the last step of the fork that filled it, RUNNABLE and as the child of the process that forked |
| `WaitCalls.WaitReturns` | kernel/proc.c:401-446 | wait returns in three ways only: having collected a dead child, to a process that is killed or has no child, or with a status it could not copy out |
| `WaitCalls.WaitSleeps` | kernel/proc.c:401-446 | a wait that does not return is asleep after at most one step per slot and eight more |
| `WaitCalls.SleepsThroughKill` | kernel/proc.c:437-444 | a process asleep in wait has been killed if and only if the kill came after its test of killed and before sleep took its lock; every other kill is seen or wakes it |
| `WaitCalls.KillCanBeMissed` | kernel/proc.c:437-444 | a run in which a killed process sleeps in wait |
| `ExitTree.BooksStay` | kernel/proc.c:401-446 | over a run, recorded and collected statuses never change, and what is collected is what was recorded |
| `ExitTree.WaitLockMoves` | kernel/proc.c:357-446 | the holder of wait_lock can go on, or waits for the lock of a process that can go on without wait_lock |
| `HeapModel.ReleasedOk` | user/umalloc.c:33-43 | freeing a block keeps the list sorted, circular from base and fully coalesced, the partition of all units, and every other live block |
| `HeapModel.TakeWhole` | user/umalloc.c:76-77 | taking a whole free block keeps the invariant and makes exactly it live |
| `HeapModel.TakeTail` | user/umalloc.c:78-82 | taking the tail of a free block keeps the invariant and makes exactly the tail live |
| `HeapModel.GrownOk` | user/umalloc.c:54-58 | units from sbrk join the heap as one block and nothing else changes |
| `HeapModel.HeapIsCanonical` | user/umalloc.c:24-44 | two heaps over the same units with the same live blocks have the same free list, whatever calls led to them |
| `HeapModel.FreesCommute` | user/umalloc.c:24-44 | two frees give the same heap in either order |
| `HeapModel.FreeUndoesMalloc` | user/umalloc.c:24-90 | free after malloc gives back exactly the free list from before |
| `HeapCode.Heap.FindPlace` | user/umalloc.c:30-32 | the search ends, at the one place where the block belongs |
| `HeapCode.Heap.Free` | user/umalloc.c:24-44 | the rewired headers show the specified heap: the block is no longer live and nothing else changed |
| `HeapCode.Heap.Morecore` | user/umalloc.c:46-61 | null and no change if sbrk fails; otherwise the heap has exactly the new units and a free block large enough |
| `HeapCode.Heap.Carve` | user/umalloc.c:75-84 | the block returned has the size asked for and was not live |
| `HeapCode.Heap.Malloc` | user/umalloc.c:63-90 | the search ends and calls sbrk at most once; null exactly if no free block is large enough and sbrk fails; otherwise a fresh live block with room for the bytes asked for and less than a unit to spare, whose units meet no other block, live or free, and no other live block changed |
| `FsModel.WordRoundTrip` | kernel/fs.c:421-425 | a block number stored in an indirect block is read back, and no other entry changes |
| `FsModel.AttachedInv` | kernel/fs.c:402-428 | giving a fresh block to an empty slot keeps the one-owner-per-block invariant |
| `FsModel.AttachedBytes` | kernel/fs.c:395-434 | doing so changes no byte of any file |
| `FsModel.StoredBytes` | kernel/fs.c:534-539 | bytes written into a block of a file appear there and in no other file or place |
| `FsModel.DetachAddr` | kernel/fs.c:445-450 | giving back a direct block keeps the invariant |
| `FsModel.DetachTable` | kernel/fs.c:452-462 | giving back the indirect block after its entries keeps the invariant |
| `FsCode.Budget` | kernel/file.c:149-155 | a write of at most three blocks of bytes at any offset logs at most MAXOPBLOCKS distinct blocks, and at most seven with one bitmap block |
| `FsCode.WrittenContent` | kernel/fs.c:518-552 | in terms of byte sequences a write is a splice into one file and leaves every other file alone |
| `FsCode.Fs.FindFree` | kernel/fs.c:82-95 | the lowest block below the limit whose bit is clear |
| `FsCode.Fs.Balloc` | kernel/fs.c:68-99 | a zeroed block that no slot owned, the lowest such, or 0 with nothing changed exactly when there is none |
| `FsCode.Fs.Bfree` | kernel/fs.c:104-118 | exactly that bit is cleared |
| `FsCode.Fs.Bmap` | kernel/fs.c:395-434 | the block of the file at that index, allocated only where missing; no byte or size of any file changes and ownership holds even when an allocation fails midway |
| `FsCode.Fs.Itrunc` | kernel/fs.c:438-466 | exactly the blocks of the inode are given back, none of them free already, no other inode changes, and every bitmap and inode block that changes is logged |
| `FsCode.Fs.ReadI` | kernel/fs.c:484-509 | the bytes returned are the slice asked for, clipped to the size, unless a copy fails, for -1, or a hole is met with the disk full; log_write is called, and a transaction needed, exactly when the read gets to a hole and a block is free, and otherwise nothing changes; without holes the count is exact |
| `FsCode.Fs.FileRead` | kernel/file.c:120-125 | the count and the new offset are those of readi, -1 only for a failed copy; fileread opens no transaction, so with no other operation outstanding it ends in the panic of log_write outside one exactly when readi needs one; a file without holes never does |
| `FsCode.Fs.WriteI` | kernel/fs.c:518-552 | a result tot >= 0 splices the first tot bytes in at off and sets the size to the larger of the old size and off + tot; tot falls short only if a copy fails or the disk is full; -1 exactly for an offset past the end or a range past MAXFILE, with nothing changed; every block that changes, data, bitmap or inode, is logged |
| `FsCode.Fs.WriteChunk` | kernel/file.c:162-167 | one transaction of filewrite logs at most seven distinct blocks, and among them every block it changes |
| `FsCode.Fs.FileWrite` | kernel/file.c:148-175 | the bytes up to the new offset are spliced in; the result is n exactly if all n bytes are written, which fails only for an offset past the end, a file too large, a full disk or a failed copy; no chunk logs more than seven blocks |
| `Mkfs.Image.constructor` | mkfs/mkfs.c:88-111 | an empty image satisfies the block invariant |
| `Mkfs.Image.BlockFor` | mkfs/mkfs.c:270-285 | the block of the file at that index, taken from the first free blocks only where missing |
| `Mkfs.Image.IAppend` | mkfs/mkfs.c:254-296 | the bytes are appended to one file, every other file keeps its contents, and blocks are handed out in order without holes |
| `Mkfs.RootRoundingHole` | mkfs/mkfs.c:165-170 | rounding up the size of the root directory leaves a hole exactly when the size was a multiple of the block size |
| `Mkfs.WriteBitmap` | mkfs/mkfs.c:236-250 | the bits set are exactly those of the first blocks |
| `Mkfs.ImageMounts` | mkfs/mkfs.c:236-296 | the image satisfies the invariant the kernel keeps: below the limit a bit is set exactly for metadata and blocks one slot refers to |
| `MkfsMain.AppendNeeds` | mkfs/mkfs.c:267-285 | an append takes at most the blocks by which the file grows, an indirect block when it first passes the twelfth |
| `MkfsMain.Padded` | mkfs/mkfs.c:165-170 | a size rounded up shows zeros past the old end and changes no other file |
| `MkfsMain.Make` | mkfs/mkfs.c:68-175 | from an empty disk mkfs ends with an image that mounts: the root directory holds the entries in order and zeros up to its rounded size, each file its bytes, every other inode nothing; the root has a hole exactly when its entries come to a multiple of 64 |
| `MkfsMain.FullRootHole` | mkfs/mkfs.c:165-170 | with 64 entries the root fills one block, is rounded to two, and the second is a hole |
| `Sv39Model.IndicesDiffer` | kernel/riscv.h:383-392 | two addresses below MAXVA have the same three indices exactly when they are in the same page |
| `Sv39Model.SlotsDiffer` | kernel/vm.c:175-193 | entries of distinct pages or distinct page tables are distinct |
| `Sv39Model.StoreLook` | kernel/vm.c:255-255 | storing an entry changes the translation of that page in that page table and no other |
| `Sv39Model.AddTableLook` | kernel/vm.c:186-189 | creating an intermediate table changes no translation |
| `Sv39Model.PrunedWalk` | kernel/vm.c:419-435 | removing one page table leaves every other translation as it was |
| `Sv39Code.PageTables.UvmCreate` | kernel/vm.c:322-331 | an empty page table in a frame from the free list, or none exactly when memory is short |
| `Sv39Code.PageTables.Walk` | kernel/vm.c:175-193 | the loop finds the entry of the flat map or, without memory, none; no translation changes and no frame is lost between the tables and the free list |
| `Sv39Code.PageTables.MapPages` | kernel/vm.c:233-262 | exactly the named pages get the named frames and permissions; on failure a prefix of them, and memory is exhausted; no frame is lost |
| `Sv39Code.PageTables.UvmUnmap` | kernel/vm.c:267-315 | exactly the named pages lose their entries, which are returned in order |
| `Sv39Code.PageTables.FreeWalk` | kernel/vm.c:419-435 | on a leafless page table every table page under it is freed exactly once and no other table changes |
| `Sv39Code.PageTables.FreeRoot` | kernel/vm.c:439-445 | freeing a whole page table leaves the translations of all others as they were |
| `VirtioModel.NextInv` | kernel/virtio_disk.c:215-327 | every step of requests, interrupt handler and device keeps the ring invariant |
| `VirtioCalls.RequestMade` | kernel/virtio_disk.c:215-277 | every request under way was submitted by a call with its command and its buffer, and has not changed since |
| `VirtioCalls.ReturnsServed` | kernel/virtio_disk.c:215-292 | virtio_disk_rw returns only after the device has completed an order on its chain, and the order the device found there was the caller command, buffer and direction |
| `VirtioCalls.ServedOnce` | kernel/virtio_disk.c:215-292 | the device completes a request at most once |
| `VirtioModel.DescriptorsParted` | kernel/virtio_disk.c:156-213 | free descriptors and the three-element chains of the requests under way part the descriptors |
| `VirtioModel.DeviceSees` | kernel/virtio_disk.c:238-269 | as long as a request is under way its descriptors tell the device the command, buffer, direction and status byte that were asked for |
| `VirtioModel.UnreadStay` | kernel/virtio_disk.c:271-277 | no avail or used entry is overwritten before its reader has read it, across wrap-around of the 16-bit indices |
| `VirtioModel.HandlerClearsOne` | kernel/virtio_disk.c:312-324 | a turn of the handler clears the disk flag of exactly the buffer whose request completed, which was set, and does so once |
| `VirtioModel.FlagMeansPending` | kernel/virtio_disk.c:283-286 | the disk flag of a buffer is set exactly until its own completion has been seen |
| `VirtioModel.HandlerDrains` | kernel/virtio_disk.c:312-324 | the handler stops only when it has seen every completion |
| `VirtioCode.Virtio.constructor` | kernel/virtio_disk.c:111-147 | initialisation leaves zeroed rings and every descriptor free, a state from which all runs start |
| `VirtioCode.Virtio.AllocDesc` | kernel/virtio_disk.c:156-166 | the lowest free descriptor is taken, or -1 if there is none |
| `VirtioCode.Virtio.Alloc3Desc` | kernel/virtio_disk.c:201-213 | three descriptors are taken exactly if three are free; otherwise nothing changes |
| `VirtioCode.Virtio.FreeChain` | kernel/virtio_disk.c:185-197 | following the descriptors frees exactly the three of the request |
| `VirtioCode.Virtio.Start` | kernel/virtio_disk.c:226-277 | the request is formatted and published as specified, or nothing changes for lack of descriptors |
| `VirtioCode.Virtio.Complete` | kernel/virtio_disk.c:283-291 | a finished request gives back its chain as specified |
| `VirtioCode.DeviceSafe` | kernel/virtio_disk.c:303-310 | whatever the device does on its own keeps the invariant, leaves descriptors, flags and the place of the handler alone and only adds completions |
| `VirtioCode.Virtio.Intr` | kernel/virtio_disk.c:312-324 | with the device taking, completing and adding requests between any two tests of the loop, the handler computes the specified state and returns with no completion unseen |
| `VirtioCode.HandledFlags` | kernel/virtio_disk.c:312-324 | after the handler the buffers whose requests were done when it started are clear, no completion is left, and a flag is still set exactly if it was and the request of that buffer has not been seen |
| `BufModel.OneBufferPerBlock` | kernel/bio.c:58-89 | over every run at most one buffer that is referred to or holds data is for a given block |
| `BufModel.ListHoldsAll` | kernel/bio.c:36-53 | over every run the list holds each buffer exactly once |
| `BufModel.RecyclesOldest` | kernel/bio.c:75-88 | a block not cached gets the unreferenced buffer released longest ago; bget gives up exactly when all are referenced |
| `BufModel.FreedByRelease` | kernel/bio.c:116-151 | as bunpin is only called by a holder of another reference, a buffer falls free only by brelse, which makes it the youngest; nothing else changes its age |
| `BufModel.FindsCached` | kernel/bio.c:65-73 | a block that is cached is found |
| `DiskUse.FilesBelowSwap` | kernel/fs.c:76-84 | metadata, what balloc returns and every block number an inode names lie below the limit of the file system and of the swap area |
| `DiskUse.NoAliases` | kernel/fs.c:712-761 | over every run whose calls come from the file system and from swapread and swapwrite, no two buffers in use are for one disk sector |
| `BufCode.PutInFront` | kernel/bio.c:130-133 | linking a buffer in behind the head gives a well-linked list with it in front |
| `BufCode.TakeOut` | kernel/bio.c:128-129 | unlinking a buffer gives a well-linked list without it |
| `BufCode.Cache.constructor` | kernel/bio.c:36-53 | binit links all buffers, the last one in front |
| `BufCode.Cache.FindCached` | kernel/bio.c:66-73 | the forward scan ends at the first buffer that holds the block, or the head |
| `BufCode.Cache.FindFree` | kernel/bio.c:77-86 | the backward scan ends at the last unreferenced buffer, or the head |
| `BufCode.Cache.Bget` | kernel/bio.c:58-89 | the in-place code of bget computes the specified state and buffer |
| `BufCode.Cache.Bread` | kernel/bio.c:92-103 | the buffer returned is for the block and valid, and the disk is read exactly if no buffer held the block |
| `BufModel.GotIsValid` | kernel/bio.c:58-89 | the buffer bget returns holds data if and only if some buffer held that block: one recycled never passes its old data off as the new |
| `BufModel.RefsCounted` | kernel/bio.c:58-151 | over any run the count of a buffer is the number of references taken by bget and bpin and not given back by brelse and bunpin |
| `BufData.RunCoherent` | kernel/bio.c:3-16 | over any run of callers that write back or keep what they change, every buffer with data has its block as last changed, and every block without a buffer in use is on disk as last changed |
| `BufData.ReadsLatest` | kernel/bio.c:92-103 | whoever reads a block gets what was last put in it, by whatever process and whether or not it has been written to disk |
| `BufCode.Cache.Brelse` | kernel/bio.c:116-137 | the last release moves the buffer to the front of a well-linked list |
| `BufCode.Cache.Bpin` | kernel/bio.c:139-144 | one more reference, nothing else |
| `BufCode.Cache.Bunpin` | kernel/bio.c:146-151 | one reference less, and the list stays as it is |
| `ShellTrip.RoundTrip` | user/sh.c:328-447 | parsing the fully parenthesised print of any command tree with legal words and fewer than MAXARGS arguments gives that tree |
| `ShellTrip.LineTrip` | user/sh.c:345-414 | the same wherever the print stands in a line, before the end or a closing parenthesis |
| `ShellTrip.LineGood` | user/sh.c:345-447 | in whatever a line parses to, every word is a whole word of the line and no command has MAXARGS arguments |
| `ShellTrip.NormalForm` | user/sh.c:328-343 | every accepted line means the same as its fully parenthesised form |
| `ShellGrammar.AcceptsExactly` | user/sh.c:328-447 | the shell accepts a line if and only if its tokens are a sentence of its grammar: redirections before, between and after words, blocks, pipes, background and lists |
| `ShellGrammar.SentencesAccepted` | user/sh.c:328-447 | what is run is what the sentence means, with each redirection around the command in the order written |
| `ShellGrammar.Unambiguous` | user/sh.c:328-447 | no line means two things |
| `ShellGrammar.LexSpell` | user/sh.c:266-309 | gettoken reads back the tokens a line was spelled from, however they were spaced |
| `ShellGrammar.SpellingRoundTrip` | user/sh.c:266-447 | any sentence written with any spacing is read as what it means |
| `ShellCode.Parser.Token` | user/sh.c:266-309 | gettoken returns the specified token and moves the cursor past it and the white space after it |
| `ShellCode.Parser.Peeks` | user/sh.c:311-321 | peek skips white space and tells whether one of the characters is next |
| `ShellCode.Parser.RedirLoop` | user/sh.c:375-398 | the loop of parseredirs ends and collects the specified redirections |
| `ShellCode.Parser.ArgLoop` | user/sh.c:432-443 | the loop of parseexec ends and collects the specified words and redirections |
| `ShellCode.Parser.ParseLine` | user/sh.c:345-360 | parseline ends with the specified command or error |
| `ShellCode.Parser.ParsePipe` | user/sh.c:362-373 | parsepipe ends with the specified command or error |
| `ShellCode.Parser.ParseExec` | user/sh.c:416-447 | parseexec ends with the specified command or error |
| `ShellCode.Parser.ParseBlock` | user/sh.c:400-414 | parseblock ends with the specified command or error |
| `ShellCode.Parser.Parse` | user/sh.c:328-340 | parsecmd ends with the specified command, or an error for what is left over |
| `ShellCode.NulTerminate` | user/sh.c:450-494 | the buffer gets a NUL at the end of every word of the command and is otherwise unchanged |
| `ShellCode.StringsAreTokens` | user/sh.c:450-494 | after that every argument and file name read as a C string is the text of its token |
| `Grep.MatchHereIs` | user/grep.c:85-106 | matchhere says yes exactly when the text starts with a string of the language of the pattern |
| `Grep.MatchIs` | user/grep.c:72-82 | match says yes exactly when a string of that language occurs in the text, where the anchors allow |
| `Grep.Find` | user/grep.c:72-82 | the loop of match ends and agrees with the specification |
| `Grep.Here` | user/grep.c:85-96 | matchhere agrees with the specification |
| `Grep.Stars` | user/grep.c:99-106 | the loop of matchstar ends and agrees with the specification |

## Left out

- copyin, copyout, copyinstr and exec's segment loading: they do not page in swapped pages, so nothing like the refinement here holds for them
- the system calls that read and write swap slots directly: they bypass the slot allocator
- the first user page, the entries for trampoline and trapframe (their table pages are modelled), uvmclear, uvmunmap without freeing in the swap model, TLB flushing, traps and assembly
- interleavings inside swapout, swapin, uvmalloc, uvmunmap and uvmcopy: they are single steps of the model
- spin locks, push_off and pop_off as code: critical sections are steps
- time slices and yield in the exit/wait protocol, closing files and releasing the working directory in exit
- the free-list link kfree stores inside a free page, and the statistics counters
- the panic of bget for lack of buffers within the log model
- directories, path names, link counts, inode allocation and the inode cache
- the register handshake of device initialisation, memory barriers, interrupt acknowledgement and failing requests in the disk driver
- console, pipes, printf, the line loop of grep, running commands in the shell, and the other user programs
- ShellCode.NulTerminate: the tree is a value, so the pointer by which redirections share the record parseexec is still filling is not modelled; the words and redirections are collected and joined at the end
- SwapCode.Vm.Walk: table pages are named by process, level and index prefix; their contents and the refinement of the three-level structure are in Sv39Model
- Sv39Code.PageTables.UvmUnmap: what becomes of the frames and slots of the dropped entries is in the swap model
- Sv39Code.PageTables.UvmCreate: table pages come from a plain free list; that kalloc evicts when it is empty is in the swap model
- Sv39Code.PageTables.Walk: table pages come from a plain free list; that kalloc evicts when it is empty is in the swap model
- Sv39Code.PageTables.MapPages: table pages come from a plain free list; that kalloc evicts when it is empty is in the swap model
- FsCode.Fs.FileWrite: locking of the inode and the transaction bracket are not modelled beyond counting the blocks logged

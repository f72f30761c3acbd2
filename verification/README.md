# A teaching kernel, modelled and proved in Dafny

The kernel is a 32-bit x86 teaching system. This project models its stateful core, in the
form the C code has, and proves what that code is for. Each C module that changes state in
place is a Dafny class whose methods are proved against functions or relations on values;
the theorems are lemmas about those.

| files | what they model |
|---|---|
| `Machine`, `Bitmap` | 32-bit words, allocation bitmaps |
| `BankerSpec`, `BankerSafety`, `BankerLaws`, `Banker` | the banker's algorithm for any number of processes and resources |
| `ProcessSpec`, `ProcessFamily`, `ProcessLaws`, `SchedulerFairness`, `ProcessTable` | the process table and scheduler, for any table size |
| `FsLayout`, `FsVolume`, `FsAccount`, `FsLedger`, `FsStore`, `FsBlockStore` | SimpleFS blocks and inodes: RAM metadata, its disk images, the data area, the account of blocks |
| `FsEntries`, `FsTree`, `FsView`, `FsFiles`, `FsSimple` | SimpleFS directories, files, descriptors, mounting |
| `FsCosts`, `FsRuns`, `FsSession`, `FsBudget`, `FsDamage` | whole runs of its calls: what each costs in blocks, does and answers; what leaks; how much room is enough; real runs that do damage |
| `FsLaws`, `FsExact` | what a user of the file system can count on, in calls and replies; exactly which blocks are free |
| `PmmSpec`, `Pmm` | the physical page allocator and the boot memory map |
| `VmmSpec`, `Vmm` | two-level page tables over physical pages, with the owner of every page |
| `PagerSpec`, `PagerVictim`, `PagerSteps`, `Pager` | demand paging as a cache over flat memory |
| `PagerPlain`, `PagerRuns`, `PagerRecency` | whole runs of the pager against a machine without paging, true LRU, the harm of a failed page-in |
| `MemDemoSpec`, `MemDemo`, `SpacesSpec`, `SpacesRights`, `Spaces` | the other owner of user pages, and the life of an address space across all of these |
| `Boot` | the memory stack from the boot information on |
| `LifeSpec`, `LifeSteps`, `Life`, `LifeRuns` | process table, address spaces, pager and banker together, against a plain kernel in which every process has a private memory |
| `LifeLaws`, `LifeWaits`, `LifeAnswers` | what processes and their parents can count on, in calls and answers: what loads, waits, spawns and the other calls answer |
| `Console` | the history ring and viewport |
| `KernelIrq`, `KernelLoop` | keyboard ring, time slice counters, and the main loop as interruptible steps |

`dafny verify dfyconfig.toml` checks everything. Every lemma turns automatic induction off,
so each proof is the one written. `hide` keeps definitions a proof does not need out of it.

## How to read the main results

* **Banker.** A state is safe when a completing order exists (`Safe`). `StateIsSafe` decides
  that exactly; `SafeIffCompletable` shows that it is the same as being able to serve every
  process to the end with real calls.
* **Processes.** `Family` is the invariant on pids, parents, zombies and the running process.
* **SimpleFS.** `Sound` says that no block has two roles in any inode and every owned block is
  marked; `Tight` that every marked block is owned. `Bytes` is the content of an inode.
  `Rewritten` changes the content of one inode and no other. `Fs` is the file system as a
  tree of directories and byte sequences, `View` reads it off the disk model, and each call is
  proved equal to a function on it. `Account` counts the free blocks and those of each inode;
  whether a rewrite finds its blocks, and what it leaks when not, is a function of the account.
  A `Session` is tree, descriptors and account: `Serve` says what a call does to it and answers,
  and `RunScript` that a mounted volume does just that, call after call.
* **Memory.** Physical pages carry what they are used as. `owner` gives every allocated page
  one owner: a directory, a table, a pager frame or a demo slot; `Conserved` says that the
  pages free after boot are always the free and the owned ones, none lost and none twice.
  `Lookup` is the translation; `Remapped` changes one address and no other.
* **Paging.** `flat` is the flat memory the pager stands for, bytes per directory and page.
  `Faithful` says that each page holds its bytes, in its frame or in its swap slot, and that the
  resident slots are a bijection onto the present pages (`Tidy`). `FramesSuffice` is what an
  access needs to keep that. `Quiet` says that nothing was accessed since the last sample,
  and `uses` counts the use ticks given, which are in order until they wrap. `Stands` says
  that the pager holds what the plain machine of `PagerPlain` holds; `Start` reaches it.
* **The whole kernel.** `Plain` is a process table with a private memory, a map from addresses
  to pages, for every process; `Act` is a deed of the running process on it and `Step` a call
  of the kernel. `Life` ties the classes together, and `Life.RunScript` says that it cannot be
  told apart from `Run`. `LifeRuns` proves of `Run` what processes rely on. `Supplied` asks for a
  page to spare per deed that may need one, for page tables and directories.
* **Laws.** The functions that say what a call does (`Step`, `Serve`, `Act`, `Typed`, `Advanced`)
  are what the classes are proved equal to. `BankerLaws`, `ProcessLaws`, `FsLaws`, `LifeLaws`,
  `LifeWaits`, `LifeAnswers` and the lemmas beside `Typed` and `Advanced` say what those functions
  mean without them: what one call leaves is what a later call answers, byte for byte and
  number for number, and when each answer is given.
* **Console, loop.** `sheet` is an unbounded screen; `accepted`, `delivered`, `raised` and
  `taken` are histories.

## Where the code does less than one might expect

Each is modelled as the code has it, with the exact condition or a concrete case.

* Registering a pid again forgets what it held (kernel/banker.c:117-132):
  `RegisterSafeExactly`, `ReregisteringLosesResources`.
* A rewrite that runs out of blocks leaves the file empty, and loses the blocks that only the
  RAM copy of the indirect table named (fs/simplefs.c:645-655): `WriteInodeData`, `Abandon`. For
  a directory this loses its entries: `CreateKeepsTreeExactly`, `LosingEntriesHappens`.
* `rmdir .` is not refused in an empty directory below the root (fs/simplefs.c:1146-1170):
  `RemoveDirKeepsTreeExactly`, `RemovingDotHappens`. `mkdir` in a current directory that is
  gone fails, unless the new directory gets the inode of the one that is gone: then it is
  entered in itself: `MakeDir`, `MakeDirAnywhere`, `Revived`.
* A page-in that fails leaves a stale resident slot, and evicting that slot later writes page 0
  over a page's swap slot (mm/pager.c:254-279): `PageIn`, `StaleEvictionKeeps`, `LostPage`.
* A comment says that registering a page again only updates its flags (mm/pager.c:381). The
  code also rewrites its swap slot, which shows exactly when the page is not in memory; the
  flags of an existing mapping do not change: `RegisterPageData`.
* The memory demo's FREE and reset ask nobody whose a page is (kernel/memdemo.c:171-262):
  `DemoApply`, `DemoReset`. No process's other memory is touched.
* Rounding a range start past the last 32-bit page boundary wraps to 0 (mm/pmm.c:71-73):
  `RangeFreesExactly`, `LastPageWraps`.

## Model

| member | source | states |
|---|---|---|
| BankerModule.Banker.Init | kernel/banker.c:92-108 | from any earlier state: all slots free, available as given, every row zero |
| BankerModule.Banker.FindSlotByPid | kernel/banker.c:17-25 | the first used slot with the pid, or -1 when no used slot has it |
| BankerModule.Banker.FindFreeSlot | kernel/banker.c:27-35 | the first unused slot, or -1 when all are used |
| BankerModule.Banker.VectorLeq | kernel/banker.c:37-45 | true exactly when every component is at most its counterpart |
| BankerModule.Banker.StateIsSafe | kernel/banker.c:57-90 | the greedy test terminates without wrapping and answers 1 exactly when some ordering of all registered processes lets each need fit the work available at its turn |
| BankerModule.Banker.Pass | kernel/banker.c:66-87 | one pass either finishes further processes or proves that no unfinished one fits |
| BankerModule.Banker.RegisterProcess | kernel/banker.c:110-135 | status and new tables of a registration, not-ready and full table included; the pid then holds nothing and may ask for its maximum, the pool and every other row are as before |
| BankerModule.Banker.UnregisterProcess | kernel/banker.c:137-159 | the allocation returns to available, for every resource, and the pid has no row; an unknown pid changes nothing |
| BankerModule.Banker.Request | kernel/banker.c:161-198 | grants exactly when the request is within need and available and the state after it is safe; then every resource has fallen by what was asked for in the pool, risen by it in the pid's allocation and fallen by it in its need, and every other row is as before; a refused request changes nothing |
| BankerModule.RollbackRestores | kernel/banker.c:188-195 | taking a refused grant back restores the state exactly |
| BankerModule.Banker.Release | kernel/banker.c:200-223 | returns a vector within the allocation: pool and need rise by it, the allocation falls by it, every other row is as before; refuses any other without change |
| BankerSpec.StuckMeansUnsafe | kernel/banker.c:57-90 | when no unfinished process fits the work, no completing order exists at all: greedy choices never mislead |
| BankerSafety.RegisterSafeExactly | kernel/banker.c:117-132 | a registration leaves a safe state if and only if the rest of the table is safe without what the slot held and the maximum fits the total that remains |
| BankerSafety.ReleaseKeepsSafe | kernel/banker.c:200-223 | a release keeps safety |
| BankerSafety.UnregisterKeepsSafe | kernel/banker.c:137-159 | an unregistration keeps safety |
| BankerSafety.StepKeepsSafe | kernel/banker.c:110-223 | every admissible call keeps safety and the account of resources |
| BankerSafety.InitialIsSafe | kernel/banker.c:92-108 | the initial state is safe and accounts for exactly what it was given |
| BankerSafety.ReachableStatesAreSafe | kernel/banker.c:92-223 | every state reached by any run is safe and available plus allocations equals the initial vector, if each registered pid holds nothing and asks for at most that vector |
| BankerSafety.RunNeverExceedsInitial | kernel/banker.c:92-223 | for any run at all, no sum of available and allocations exceeds the initial one, so no 32-bit sum wraps |
| BankerSafety.ReregisteringLosesResources | kernel/banker.c:117-132 | a concrete safe state that registering a holder again makes unsafe, so the premise on registrations is needed |
| BankerSafety.GrantFirst | kernel/banker.c:57-90 | in a safe state the first process of a completing order can be granted its whole remaining need |
| BankerSafety.SafeHasSchedule | kernel/banker.c:161-223 | from every safe state some sequence of real request and unregister calls serves every process to the end |
| BankerSafety.SafeIffCompletable | kernel/banker.c:57-90 | a state is safe if and only if such a sequence of calls exists |
| BankerSafety.CompletedReturnsAll | kernel/banker.c:137-159 | once no process is registered, everything accounted for is available |
| BankerLaws.RequestMoves | kernel/banker.c:161-198 | a granted request moves exactly what was asked for, resource by resource, from the pool to the pid |
| BankerLaws.ReleaseMoves | kernel/banker.c:200-223 | an accepted release moves exactly that much back |
| BankerLaws.RegisterOpens | kernel/banker.c:110-135 | a registered pid holds nothing and may ask for its whole maximum |
| BankerLaws.UnregisterReturns | kernel/banker.c:137-159 | an unregistered pid is gone, and what it held is back in the pool |
| BankerLaws.RequestAnswersExactly | kernel/banker.c:161-198 | each answer of a request under exactly its condition: OK when moving that much over leaves some tables that are safe |
| BankerLaws.ReleaseAnswersExactly | kernel/banker.c:200-223 | a release is accepted exactly from a registered pid that holds that much |
| BankerLaws.RegisterAnswersExactly | kernel/banker.c:110-135 | a registration fails exactly for a new pid when every slot is used |
| BankerLaws.HoldsItsGrants | kernel/banker.c:92-223 | after any run a pid holds, by the calls and their answers alone, what it was granted less what it gave back since it was last registered |
| BankerLaws.GrantsNeverExceed | kernel/banker.c:92-223 | whatever the calls, by their answers no set of pids ever holds more of a resource than the banker was given |
| ProcessModule.ProcessTable.Init | kernel/process.c:781-796 | an empty table with next pid 1, which satisfies the family invariant |
| ProcessModule.ProcessTable.FindProcessByPid | kernel/process.c:78-86 | the used slot of a pid, or none |
| ProcessModule.ProcessTable.AllocateProcess | kernel/process.c:88-111 | the first free slot becomes READY with the next pid; nothing else changes |
| ProcessModule.ProcessTable.TakeSlot | kernel/process.c:141-166 | the checks of a spawn and the slot it fills, each refusal included |
| ProcessModule.ProcessTable.SpawnChild | kernel/process.c:141-201 | the table's part of a spawn, whatever becomes of its memory: result and table with each refusal, and the family invariant kept; the whole is `Life.SpawnChild` |
| ProcessModule.ProcessTable.SpawnBuiltinChildForCurrent | kernel/process.c:216-254 | the table's part of a spawn on behalf of the running process, refused without one; the whole is `Life.SpawnBuiltinChildForCurrent` |
| ProcessModule.ProcessTable.AdoptChildren | kernel/process.c:125-139 | exactly the children of the pid get parent 0 |
| ProcessModule.ProcessTable.ReleaseProcess | kernel/process.c:745-779 | the table's part: a process that is not running leaves the table and its children go to pid 0; the whole is `Life.End` |
| ProcessModule.ProcessTable.ProcessRun | kernel/process.c:712-743 | the table's part: runs a READY process through any sequence of spawns until it yields or exits; on exit it is a zombie without children; the whole is `Life.ProcessRun` |
| ProcessModule.ProcessTable.SelectNextReadyProcess | kernel/process.c:827-849 | the scanning loop computes the specified selection |
| ProcessModule.ProcessTable.ScheduleAuto | kernel/process.c:861-887 | runs the selected process and moves the cursor past it; 0 when nothing is READY |
| ProcessModule.ProcessTable.WaitChild | kernel/process.c:1002-1045 | each wait status under exactly its condition, and the pid and exit code of the first exited child |
| ProcessModule.ProcessTable.Kill | kernel/process.c:1047-1062 | status and table after a kill, the running process refused |
| ProcessModule.ProcessTable.ReapZombies | kernel/process.c:1072-1084 | one pass frees exactly the zombies with parent 0, counts them, and touches no other slot |
| ProcessModule.ProcessTable.SetPriority | kernel/process.c:970-984 | succeeds exactly for a priority in range and a live process |
| ProcessFamily.NoZombieHasChildren | kernel/process.c:731-739 | under the invariant no process has a zombie as parent |
| ProcessFamily.StepKeepsFamily | kernel/process.c:88-139 | every call keeps: unique pids, parents 0 or live with a smaller pid, RUNNING exactly the current pid |
| ProcessFamily.RunsKeepFamily | kernel/process.c:712-779 | the invariant holds after every run of calls |
| ProcessFamily.ReapedExactly | kernel/process.c:1072-1084 | the pass after n slots has freed exactly the orphaned zombies among them |
| ProcessFamily.ReapLeavesNoOrphanZombie | kernel/process.c:1072-1084 | after one pass no zombie has parent 0 |
| ProcessFamily.RemainingZombieIsCollectable | kernel/process.c:1002-1045 | the parent of any other zombie is alive and its wait collects exactly that zombie |
| SchedulerFairness.SelectedIsBest | kernel/process.c:827-849 | the selection is -1 exactly when nothing is READY, else it has the highest priority and is nearest to the cursor among its equals |
| SchedulerFairness.PassedOverComesNearer | kernel/process.c:861-887 | passing over a process that deserves to run strictly shortens its distance from the cursor |
| SchedulerFairness.BoundedWaiting | kernel/process.c:827-887 | a process that stays READY and unsurpassed in priority is picked within as many scheduling calls as the table has slots, whatever else happens |
| ProcessLaws.StepFate | kernel/process.c:712-779 | what any call may change about a process that lives on: its parent only to 0 when that has gone, its priority only by being set, its state and exit code only by running |
| ProcessLaws.RunFate | kernel/process.c:712-743 | a process that ran is READY after a yield and else a zombie with the code it returned; every other process keeps state, code and priority |
| FsLayout.TableRoundTrip | fs/simplefs.c:325-342 | an indirect table read back from its sector is the table written |
| FsLayout.TableOnDisk | fs/simplefs.c:325-342 | number k of a table takes bytes 4k to 4k + 3 of its sector, the lowest first |
| FsLayout.ConcatSlice | fs/simplefs.c:446-471 | a logical block of a file is that stretch of its content |
| FsLayout.ClearedCount | fs/simplefs.c:354-378 | clearing distinct marked blocks frees exactly that many |
| FsVolume.Freed | fs/simplefs.c:354-378 | freeing an inode empties it, gives back every block it owned, and disturbs no other inode |
| FsStore.LaidFully | fs/simplefs.c:559-644 | a completed layout holds exactly the data, shares no block with any other inode, and leaves every other content alone |
| FsStore.LaidShort | fs/simplefs.c:645-655 | a layout that ran out of blocks leaves a sound volume with the file empty, and says how many blocks it can still find |
| FsBlockStore.BlockStore.AllocateDataBlock | fs/simplefs.c:298-318 | first fit, zeroed, marked; fails exactly when no block is free |
| FsBlockStore.BlockStore.FreeInodeBlocks | fs/simplefs.c:354-378 | all blocks of the inode become free, its content is empty, no other inode changes |
| FsBlockStore.BlockStore.FileBlock | fs/simplefs.c:446-471 | the block behind a logical block, direct or through the indirect table, and the invalid block past both; within the file it is the block of its content |
| FsBlockStore.BlockStore.ReadInodeBytes | fs/simplefs.c:480-549 | returns exactly the bytes of the content from the offset, as many as asked for or left |
| FsBlockStore.BlockStore.PlaceBlock | fs/simplefs.c:586-632 | one more block in place, or every block of the volume taken |
| FsBlockStore.BlockStore.LayOut | fs/simplefs.c:575-632 | the blocks written concatenate to the data; it stops early only without free blocks |
| FsBlockStore.BlockStore.WriteInodeData | fs/simplefs.c:559-656 | succeeds exactly when free blocks plus the inode's own cover ceil(size/512), plus one beyond six; then its content is the data; otherwise the file is empty and exactly `Leak` blocks stay marked; the bitmap stays equal to the owned blocks if and only if the write succeeds or `Leak` is 0; all other contents unchanged, disk metadata equal to RAM |
| FsBlockStore.BlockStore.Abandon | fs/simplefs.c:645-655 | the rollback: exactly the blocks beyond what inode and on-disk table name are lost, and nothing else leaks |
| FsAccount.RewriteTotal | fs/simplefs.c:559-656 | in the account of blocks a rewrite that fits loses nothing; one that does not loses, of the blocks at hand, none of six, one of seven, and all but seven of more |
| FsLedger.TightIffAccounted | fs/simplefs.c:298-378 | the bitmap equals the owned blocks if and only if free blocks and the blocks of all inodes, summed up, are the whole volume |
| FsLedger.TightAfterRewrite | fs/simplefs.c:559-656 | a rewrite keeps that exactly when no block it had at hand is left neither free nor owned |
| FsBlockStore.BlockStore.AllocateInode | fs/simplefs.c:395-416 | the first free inode, empty; fails exactly when none is free |
| FsBlockStore.BlockStore.ReleaseInode | fs/simplefs.c:424-439 | frees inode and blocks, never the root; all others unchanged |
| FsBlockStore.BlockStore.ReadMetadata | fs/simplefs.c:254-291 | accepts exactly known boot and info blocks with an allocated root directory |
| FsBlockStore.BlockStore.FormatMetadata | fs/simplefs.c:892-930 | only the root is allocated, all data blocks are free, disk equals RAM |
| FsEntries.EntriesRoundTrip | fs/simplefs.c:659-687 | entries written as bytes and read back are the entries, names cut at their terminator |
| FsEntries.EntryOnDisk | fs/simplefs.c:659-687 | a directory entry takes 32 bytes: the inode, lowest byte first, then the name, padded with zeros |
| FsSimple.SimpleFs.ReadDirectoryEntries | fs/simplefs.c:659-680 | the entries of a directory |
| FsSimple.SimpleFs.WriteDirectoryEntries | fs/simplefs.c:683-687 | rewrites a directory; success exactly when it fits, all other inodes unchanged |
| FsSimple.SimpleFs.FindEntry | fs/simplefs.c:705-729 | the first entry with the name, or none |
| FsSimple.SimpleFs.AppendEntry | fs/simplefs.c:732-748 | one entry more at the end; a rewrite that does not fit empties the directory |
| FsSimple.SimpleFs.RemoveEntry | fs/simplefs.c:754-777 | the entry goes, later ones move up |
| FsSimple.SimpleFs.DirectoryIsEmpty | fs/simplefs.c:811-825 | true exactly for a directory with only the special entries left |
| FsSimple.SimpleFs.InodeIsOpen | fs/simplefs.c:381-389 | true exactly when a used descriptor names the inode |
| FsSimple.SimpleFs.Create | fs/simplefs.c:1062-1088 | the outcome, the whole new state and the exact account of blocks after a create, in any current directory |
| FsSimple.SimpleFs.MakeDir | fs/simplefs.c:1121-1143 | the same for a mkdir, with each of its two points of failure, and in a current directory that is gone |
| FsSimple.SimpleFs.Delete | fs/simplefs.c:1091-1118 | the same for a delete; an open file is refused |
| FsSimple.SimpleFs.RemoveDir | fs/simplefs.c:1146-1170 | the same for a rmdir |
| FsSimple.SimpleFs.ChangeDir | fs/simplefs.c:1173-1194 | the new current directory, or no change |
| FsSimple.SimpleFs.PathComponents | fs/simplefs.c:847-870 | in a tree the climb terminates and yields the path that leads to the directory |
| FsSimple.SimpleFs.FindNameForInode | fs/simplefs.c:792-808 | the name under which a directory first lists a child; none for a child it does not list or an inode that is no directory |
| FsSimple.SimpleFs.ReadFile | fs/simplefs.c:1197-1212 | the file's bytes up to the limit; fails exactly for names that are no regular file here |
| FsSimple.SimpleFs.WriteFile | fs/simplefs.c:1219-1240 | create if needed, then rewrite; success exactly when both fit |
| FsSimple.SimpleFs.AppendFile | fs/simplefs.c:1243-1267 | the new content is the old one followed by the data |
| FsSimple.SimpleFs.Open | fs/simplefs.c:1270-1295 | the first free descriptor, at offset 0, on a regular file of the current directory; -1 exactly for any other name or without a free descriptor |
| FsSimple.SimpleFs.Close | fs/simplefs.c:1298-1308 | frees a used descriptor, refuses any other |
| FsSimple.SimpleFs.ReadFd | fs/simplefs.c:1311-1330 | the slice at the offset, which moves by its length |
| FsSimple.SimpleFs.WriteFd | fs/simplefs.c:1336-1380 | the content becomes the splice at the offset, success exactly when it fits the size limit and the volume; open descriptors keep naming regular files |
| FsSimple.SimpleFs.Seek | fs/simplefs.c:1383-1402 | moves up to the end of the file and refuses beyond |
| FsSimple.SimpleFs.Format | fs/simplefs.c:892-942 | always succeeds: the empty tree, no open files, exact bitmap |
| FsSimple.SimpleFs.Init | fs/simplefs.c:873-884 | mounts exactly an acceptable disk and recovers the tree and contents on it |
| FsSimple.SimpleFs.RemountRecovers | fs/simplefs.c:254-291 | after every call the disk of a mounted file system is acceptable and holds the identical tree and contents |
| FsTree.FormattedIsTree | fs/simplefs.c:892-942 | a fresh volume is a tree |
| FsTree.NamedExactlyOnce | fs/simplefs.c:695-777 | each allocated inode but the root is named by exactly one ordinary entry |
| FsTree.CreateKeepsTreeExactly | fs/simplefs.c:1062-1088 | a create keeps the tree if and only if the directory it rewrites fits |
| FsTree.MakeDirKeepsTreeExactly | fs/simplefs.c:1121-1143 | a mkdir likewise |
| FsTree.DeleteKeepsTree | fs/simplefs.c:1091-1118 | a delete keeps the tree and succeeds exactly for a closed regular file |
| FsTree.RemoveDirKeepsTreeExactly | fs/simplefs.c:1146-1170 | a rmdir keeps the tree if and only if it is not `rmdir .` in an empty directory below the root |
| FsTree.ChangeDirKeepsTree | fs/simplefs.c:1173-1194 | the current directory stays live |
| FsTree.PathLeadsBack | fs/simplefs.c:847-870 | walking the printed components from the root leads back to the same directory |
| FsRuns.StepKeepsTreeExactly | fs/simplefs.c:873-1402 | every call, on directories, files, descriptors or the mount, keeps the tree if and only if it is not one of five named kinds, each recognisable before the call |
| FsRuns.RunsKeepTree | fs/simplefs.c:873-1402 | after every run without such a call the directories are a tree |
| FsRuns.StepKeepsHandles | fs/simplefs.c:1091-1117 | no call takes the file from under an open descriptor |
| FsRuns.RunsKeepHandles | fs/simplefs.c:1270-1402 | on every run, every open descriptor names an allocated regular file |
| FsSession.Do | fs/simplefs.c:873-1402 | each call on a mounted volume does to directories, contents, descriptors and blocks, and answers, exactly what the call on the abstract session does |
| FsSession.RunScript | fs/simplefs.c:873-1402 | any script of calls ends in exactly the session, and gives exactly the replies, of the run on the abstract session; that run says when a rewrite finds its blocks, from the account of blocks alone |
| FsSession.RunProvided | fs/simplefs.c:873-1402 | with as many blocks free as the script may ask for, and no `rmdir .` in an empty directory below the root, the directories are a tree at the end, every open descriptor names a file, and no block has leaked |
| FsSession.VolumeInOrder | fs/simplefs.c:298-378 | every mounted volume holds at least the blocks its contents need, which is all the run theorems ask |
| FsBudget.StepKeepsOrder | fs/simplefs.c:873-1402 | every call leaves each directory and file with at least the blocks its content needs |
| FsBudget.StepLosesExactly | fs/simplefs.c:559-656 | what a call other than a format loses of the volume's blocks, exactly: what its rewrite leaks when it runs out |
| FsBudget.RunsLoseExactly | fs/simplefs.c:559-656 | over any run without a format, free and owned blocks shrink by exactly the sum of what the calls lose |
| FsBudget.ProvidedStep | fs/simplefs.c:873-1402 | with its demand free, a call loses no entry and no block, and its demand is all it takes |
| FsBudget.ProvidedRun | fs/simplefs.c:873-1402 | with the demand of a whole run free, only `rmdir .` can break the tree, and no block is lost |
| FsDamage.RemovingDotHappens | fs/simplefs.c:1146-1170 | on a fresh volume `mkdir a`, `cd a`, `rmdir .` are each accepted and leave directories that are no tree |
| FsDamage.LosingEntriesHappens | fs/simplefs.c:1062-1087 | on a fresh volume 20 accepted calls fill volume and root; the next `create` fails, and loses every entry of the root and the tree |
| FsExact.StepKeepsExact | fs/simplefs.c:873-1402 | on a volume that was formatted each inode holds exactly the blocks its content needs, a free one none, and every call keeps that |
| FsExact.FreeBlocksExactly | fs/simplefs.c:873-1402 | after any run from a format on, the free blocks are all 2048 but those the contents need and those the calls have lost |
| FsLaws.TwoReplies | fs/simplefs.c:873-1402 | two calls of a script answer what the laws say of the first, and of the second after it |
| FsLaws.WriteIsRead | fs/simplefs.c:1197-1240 | a write that answers success is read back: as many of its bytes as asked for or there |
| FsLaws.WriteLeavesFiles | fs/simplefs.c:1219-1240 | it changes no other file |
| FsLaws.WriteLeavesNames | fs/simplefs.c:1219-1240 | every other name of the directory reads as before |
| FsLaws.WriteWorksExactly | fs/simplefs.c:1219-1240 | a file is rewritten exactly if the data has a legal size and finds its blocks, its old ones counted |
| FsLaws.NewWriteIsCreateAndWrite | fs/simplefs.c:1219-1240 | writing a new name does and answers what creating it and then writing it does |
| FsLaws.AppendIsRead | fs/simplefs.c:1243-1267 | after an append a full read answers the earlier full read followed by the data |
| FsLaws.AppendIsReadAndWrite | fs/simplefs.c:1243-1267 | appending does and answers what writing the earlier content and the data does |
| FsLaws.AppendLeavesFiles | fs/simplefs.c:1243-1267 | an append changes no other file |
| FsLaws.AppendLeavesNames | fs/simplefs.c:1243-1267 | every other name reads as before |
| FsLaws.OpenIsRead | fs/simplefs.c:1270-1330 | a descriptor just opened reads what the name reads, chunk after chunk |
| FsLaws.OpenWorksExactly | fs/simplefs.c:1270-1295 | opening fails exactly for what cannot be read, or with every descriptor in use |
| FsLaws.ClosedIsClosed | fs/simplefs.c:1298-1308 | a closed descriptor reads, writes, seeks and closes no more |
| FsLaws.WriteFdIsRead | fs/simplefs.c:1311-1402 | what is written through a descriptor is read there after seeking back |
| FsLaws.StandsBehind | fs/simplefs.c:1311-1402 | after a read or a write the descriptor stands right behind it |
| FsLaws.WriteFdLeavesPlaces | fs/simplefs.c:1336-1380 | elsewhere in the file everything reads as before |
| FsLaws.WriteFdLeavesFiles | fs/simplefs.c:1336-1380 | no other file, name or descriptor changes |
| FsLaws.WriteFdIsReadByName | fs/simplefs.c:1336-1380 | through the name one reads what was written through the descriptor |
| FsLaws.WriteFdWorksExactly | fs/simplefs.c:1336-1380 | a write through a descriptor works exactly if the file stays within the legal size and finds its blocks |
| FsLaws.SeekWorksExactly | fs/simplefs.c:1383-1402 | a seek works exactly up to the end of what can be read |
| FsLaws.CreatedIsEmpty | fs/simplefs.c:1062-1088 | what `create` makes reads as an empty file; every other name reads and leads as before |
| FsLaws.CreateWorksExactly | fs/simplefs.c:1062-1088 | a create works exactly for a legal new name, with an inode and an entry left, if the directory finds its blocks |
| FsLaws.DeletedIsGone | fs/simplefs.c:1091-1118 | what is deleted cannot be read; every other name leads where it led |
| FsLaws.DeleteWorksExactly | fs/simplefs.c:1091-1118 | a file is deleted exactly if no descriptor has it open |
| FsLaws.MadeIsEntered | fs/simplefs.c:1121-1194 | `mkdir` makes an empty directory that can be entered, and left by `..` to the same place |
| FsLaws.MadeLeavesNames | fs/simplefs.c:1121-1143 | every other name of the directory stays |
| FsLaws.MakeDirWorksExactly | fs/simplefs.c:1121-1143 | a mkdir works exactly for a legal new name with one block free for the directory, if there are blocks for the parent after it |
| FsLaws.MakeDirRevives | fs/simplefs.c:1121-1143 | in a removed current directory a mkdir works exactly when it gets the old inode, and makes a directory that `.`, `..` and its own new name all lead to |
| FsLaws.UpAndBack | fs/simplefs.c:1173-1194 | where a name leads, `..` leads back from |
| FsLaws.RemovedIsGone | fs/simplefs.c:1146-1170 | a directory removed by its name cannot be entered any more; other names stay |
| FsLaws.RemoveDirWorksExactly | fs/simplefs.c:1146-1170 | a directory is removed exactly if it can be entered, lists nothing of its own and is not the root |
| FsLaws.FormattedIsEmpty | fs/simplefs.c:892-942 | after a format nothing is left to read, open or enter |
| FsLaws.RemountReads | fs/simplefs.c:873-884 | mounting again keeps every file: from the root everything reads as before; descriptors are lost |
| FsLaws.LookingChangesNothing | fs/simplefs.c:1197-1402 | reading, seeking, opening, closing and refused calls change no file and no name |
| FsFiles.ChunksJoin | fs/simplefs.c:1311-1330 | reads through a descriptor in any chunks concatenate to one read of their total size |
| FsFiles.SpliceAtEnd | fs/simplefs.c:1336-1380 | a write at the end appends, a write over everything replaces |
| FsFiles.FilesDontShapeTrees | fs/simplefs.c:1219-1240 | rewriting a regular file keeps the tree |
| PmmModule.Pmm.ReservePage | mm/pmm.c:106-115 | marks the page and keeps the free count right |
| PmmModule.Pmm.ClearPage | mm/pmm.c:122-129 | clears the page and keeps the free count right |
| PmmModule.Pmm.ReserveRange | mm/pmm.c:137-155 | reserves every page the range touches |
| PmmModule.Pmm.FreeRange | mm/pmm.c:167-195 | frees the pages of the clipped and rounded range and no other |
| PmmModule.Pmm.FreeMemoryFromMap | mm/pmm.c:224-254 | frees what some entry of the map frees |
| PmmModule.Pmm.Init | mm/pmm.c:260-298 | a page is free exactly when it lies wholly inside one usable entry (or all memory, without a map), clipped to 1 MiB and total memory, and above the bitmap; kernel image and bitmap, which follows it at the next page, are never free, and less than a page above them is kept back |
| PmmModule.Pmm.AllocPage | mm/pmm.c:306-324 | the lowest free page, 0 exactly when there is none, never page 0 and never a page held |
| PmmModule.Pmm.FreePage | mm/pmm.c:333-347 | clears exactly the page of an aligned address above the reserved area; anything else is ignored |
| PmmSpec.RangeFreesExactly | mm/pmm.c:167-195 | the pages freed for a range are those wholly inside it, if and only if its clipped start is not past the last 32-bit page boundary |
| PmmSpec.LastPageWraps | mm/pmm.c:71-73 | a concrete range for which the rounding wraps and frees a page outside it |
| PmmSpec.MapFreesExactly | mm/pmm.c:224-254 | a page is freed by the map exactly when one usable entry wholly covers it |
| PmmSpec.OrderIsFree | mm/pmm.c:224-254 | the order of the entries does not matter |
| PmmSpec.TotalMemoryIs | mm/pmm.c:208-216 | the memory size is 1 MiB and the KiB the boot loader reports above it, if and only if that fits 32 bits, and else that modulo 2^32; 128 MiB when it reports none |
| PmmSpec.PromisedByBytes | mm/pmm.c:224-254 | a page counts as promised exactly when each of its bytes lies above 1 MiB, in memory, and in one available range of the map if there is one |
| VmmModule.Vmm.Init | mm/vmm.c:302-346 | succeeds exactly when pages are free for the directory and one table for every 4 MiB; then the kernel directory maps physical memory at the kernel base, kernel-only, and nothing else, and nothing but it and its tables is owned |
| VmmModule.Vmm.EnsureTable | mm/vmm.c:103-117 | a table behind the directory entry; no translation changes, and it fails exactly without table and free page |
| VmmModule.DirectMapReaches | mm/vmm.c:318-334 | under the map made at boot each byte of memory is found 3 GiB further up, writable and by the kernel only, and nothing else is mapped |
| VmmModule.Vmm.MapPage | mm/vmm.c:82-133 | afterwards the address translates to the frame with the flags asked for, every other address in every directory and all data unchanged; failure exactly on bad arguments or no page for a table |
| VmmModule.Vmm.UnmapPage | mm/vmm.c:143-171 | afterwards the address translates to nothing, all others unchanged |
| VmmModule.Vmm.GetMapping | mm/vmm.c:272-300 | frame plus offset, exactly for mapped addresses |
| VmmModule.Vmm.GetPageEntry | mm/vmm.c:210-231 | the table entry that translates the address |
| VmmModule.Vmm.ClearAccessed | mm/vmm.c:237-266 | only the accessed bit of the page's entry changes |
| VmmModule.Vmm.CreateAddressSpace | mm/vmm.c:348-377 | a new directory, empty below the kernel base, the kernel's above; existing translations unchanged |
| VmmModule.Vmm.DestroyAddressSpace | mm/vmm.c:379-400 | frees exactly the directory and its own tables; the kernel's and all other directories stay |
| VmmModule.Vmm.SwitchPageDirectory | mm/vmm.c:511-521 | only the current directory changes |
| VmmSpec.RightsAreThePages | mm/vmm.c:97-126 | the rights both levels grant together are exactly those of the page, as requested when mapping (Intel SDM Vol. 3A section 4.6) |
| VmmSpec.TableHome | mm/vmm.c:57-68 | two directories reach the same table only at the same index and only above the kernel base |
| VmmSpec.IndexesTell | mm/vmm.c:57-64 | the two indexes are those of 4 MiB and 4 KiB in the address and determine the page; index 768 is the kernel base |
| PagerModule.Pager.constructor | mm/pager.c:292-329 | an empty pager stands for empty flat memory |
| PagerModule.Pager.FindPage | mm/pager.c:89-104 | finds the page of an address exactly when it is registered |
| PagerModule.Pager.SamplePage | mm/pager.c:138-144 | an accessed page gets the next tick and its bit cleared, no other page changes |
| PagerModule.Pager.SampleUsage | mm/pager.c:355-363 | the pages accessed since the last look get ticks that follow the old one in the order of their slots, no other page changes, and every accessed bit ends clear; contents unchanged |
| PagerModule.Pager.ChooseClockVictim | mm/pager.c:158-187 | ends within two turns, and with all frames resident stops at the first unpinned unaccessed slot in rotation, else the first unpinned, else where it began |
| PagerModule.Pager.ChooseLruVictim | mm/pager.c:189-212 | an unpinned slot of least tick after sampling, the lowest such; 0 when all are pinned |
| PagerModule.Pager.ChooseVictim | mm/pager.c:214-220 | neither algorithm picks a pinned page while one is not, nor an accessed one while an unpinned one is unaccessed (LRU: until the tick wraps); without accesses since the last look LRU picks the least tick and changes nothing |
| PagerVictim.ClockChoosesWell | mm/pager.c:158-187 | the clock's choice is unpinned if any is, unaccessed if any unpinned one is, and the first such in rotation |
| PagerVictim.LeastIsUntouched | mm/pager.c:189-212 | while ticks do not wrap, the page of least tick was not accessed if some unpinned page was not; that ticks are in order is part of what every pager method keeps |
| PagerVictim.AccessKeepsOrder | mm/pager.c:130-144 | an access, with or without a page-in, and a sample keep the use ticks in the order of the last accesses |
| PagerVictim.LeastIsOldest | mm/pager.c:189-212 | then the slot of least tick holds the unpinned page whose last access is the oldest |
| PagerRecency.AccessAndSample | mm/pager.c:355-363 | a permitted access answers what the plain machine answers; with the sample after it the use ticks are in the order of the last accesses, this one the latest |
| PagerRecency.SampledRun | mm/pager.c:355-363 | so for any run of permitted accesses, each followed by a sample, with a frame for each: all are answered as by the plain machine, and the use ticks end in the order of the last accesses |
| PagerRecency.ChooseOldest | mm/pager.c:189-212 | with ticks in that order the LRU choice is the unpinned resident page whose last access is the oldest |
| PagerRecency.LruVictimAfter | mm/pager.c:189-212 | after any such run of permitted accesses the LRU choice is that page |
| PagerRecency.PageInAfter | mm/pager.c:245-290 | with all frames resident and not all pinned, that page is the one the next page-in swaps out; it fails exactly when no frame can be had, for which one free page is enough |
| PagerModule.Pager.Evict | mm/pager.c:222-243 | the page of a slot goes to swap and its frame back; a stale slot writes page 0 over its page's swap instead |
| PagerSpec.StaleEvictionKeeps | mm/pager.c:222-243 | evicting a page that is not in memory keeps its bytes if and only if they equal page 0 or the page is unused |
| PagerModule.Pager.PageIn | mm/pager.c:245-290 | fails exactly when frames run out, an evicted frame counted; the page swapped out is the one the clock rule picks, or the least tick; the hand moves past the slot filled; the resident slots stay a bijection exactly on success; from any state the pages keep their bytes if and only if the page swapped out was in memory, unused, or held page 0 already |
| PagerRecency.LostPage | mm/pager.c:254-279 | real calls, from any booted memory, that lose a page: seventeen faults without a free frame |
| PagerModule.Pager.HandlePageFault | mm/pager.c:483-502 | repairs exactly not-present faults on registered pages that are present or can come in; other faults change nothing; the resident slots stay a bijection unless a page cannot come in |
| PagerModule.Pager.RegisterPageData | mm/pager.c:369-414 | each refusal, exactly; the flat memory after success: the data byte for byte and zeros behind it, unless the page is in memory, whose content stays; a new page takes the first free entry |
| PagerModule.Pager.PinPage | mm/pager.c:424-437 | only the pin of that page changes |
| PagerModule.Pager.UnregisterPage | mm/pager.c:439-481 | the page leaves flat memory, exactly its frame is freed, everything else is unchanged |
| PagerModule.Pager.UserLoad | mm/pager.c:483-502 | a user load returns the byte of flat memory, whatever was evicted before; it works exactly when rights and frames allow; refused or not, all pages keep their bytes, and the resident slots stay a bijection exactly when frames suffice; the accessed bit of that page goes up |
| PagerModule.Pager.UserStore | mm/pager.c:483-502 | a user store changes that byte of flat memory and no other, exactly when rights and frames allow; refused it changes none |
| PagerPlain.AccessIsPlain | mm/pager.c:483-502 | with frames at hand an access works exactly when the plain machine permits it |
| PagerRuns.RunScript | mm/pager.c:222-502 | any script of register, pin, unregister, load, store, fault, sample, algorithm and directory switch answers what a machine without paging answers, and ends with every page holding that machine's bytes, refused accesses included |
| PagerRuns.NewPagerStands | mm/pager.c:292-329 | a new pager over memory without user mappings stands for the empty plain machine |
| MemDemoModule.MemDemo.FreeSlot | kernel/memdemo.c:107-118 | unmaps and frees exactly the slot's page |
| MemDemoModule.MemDemo.TakeSlot | kernel/memdemo.c:214-234 | maps a page of zeros, or takes nothing, exactly by the free pages; every other held slot keeps its bytes |
| MemDemoModule.MemDemo.ApplyOp | kernel/memdemo.c:202-268 | when each operation works, exactly; its result, by address, slots and event count; a slot newly taken holds zeros, every slot held before and after keeps its bytes; a call that returns 0 leaves all pages owned as before |
| MemDemoModule.MemDemo.ReleaseForDirectory | kernel/memdemo.c:304-310 | frees exactly the pages of that directory's slots |
| MemDemoModule.MemDemo.Reset | kernel/memdemo.c:171-200 | all slots clear, no events; exactly the pages of held slots become free and exactly their addresses are unmapped |
| SpacesModule.AddressSpaces.Spawn | kernel/process.c:163-200 | succeeds exactly with a fitting image, a free page and two free pager entries; takes one page, the directory; the code page holds the image byte for byte and zeros behind it, the stack page zeros, both pinned and swapped out; on any failure nothing is taken |
| SpacesModule.AddressSpaces.VmAllocPage | kernel/process.c:256-284 | registers one more zero page, once; fails exactly past the last page or, for a new page, without a free pager entry |
| SpacesModule.AddressSpaces.UserLoad | mm/pager.c:483-502 | a load of the running process works exactly when rights and frames allow and returns its flat byte; a refused one costs no process anything; the ownership invariant holds |
| SpacesModule.AddressSpaces.UserStore | mm/pager.c:483-502 | a store works exactly when rights and frames allow and changes one byte of one process only |
| SpacesModule.AddressSpaces.PageFault | mm/pager.c:483-502 | a fault of the running process is repaired exactly when it is a not-present one on a page that can come in |
| SpacesModule.AddressSpaces.DemoLoad | kernel/memdemo.c:214-234 | a load from a demo address works exactly when a slot of the process maps it, and returns that slot's byte |
| SpacesModule.AddressSpaces.DemoStore | kernel/memdemo.c:214-234 | a store to a demo address changes one byte of that slot and no other memory |
| SpacesModule.AddressSpaces.DemoApply | kernel/memdemo.c:202-268 | when demo calls work and what they do to the slots; a new slot holds zeros and the other held slots keep their bytes; flat memory and the ownership invariant are kept; FREE takes the slot of any process, as nobody checks whose it is |
| SpacesModule.AddressSpaces.DemoReset | kernel/memdemo.c:171-200 | gives back and unmaps exactly the demo pages held, of any process; the ownership invariant is kept |
| SpacesModule.AddressSpaces.AccessWorksByRule | kernel/process.c:171-194 | with a page to spare an access of a process works exactly on its registered pages, and a write not on its code page |
| SpacesModule.AddressSpaces.ReleaseSpace | kernel/process.c:745-766 | frees exactly the pages owned by that address space, and every other process keeps its bytes |
| SpacesModule.AddressSpaces.NothingLeaks | kernel/process.c:745-766 | after any calls: once no process and no demo page is left, exactly the pages free when the address spaces began are free, but for one page table if the kernel itself has used a demo page |
| SpacesSpec.ReleaseFreesOnlyThat | kernel/process.c:745-766 | afterwards that space owns nothing, every other owns what it did, and the free pages are the old ones and its own |
| SpacesSpec.LeavesGone | mm/vmm.c:379-400 | demo pages, pager frames, tables and directory together are all the space owned |
| SpacesSpec.Isolation | mm/vmm.c:366-373 | below the kernel base no physical page is reachable through two directories |
| SpacesSpec.MappedIsOwned | kernel/process.c:141-201 | a page mapped below the kernel base is a data page owned for that directory |
| BootModule.Start | kernel/kernel.c:29-41 | boot works exactly when the free pages cover the kernel directory and one table for every 4 MiB, and establishes every invariant of allocator, page tables, pager, demo and address spaces, with exactly the remaining pages free |
| BootModule.NewDirectory | mm/vmm.c:348-377 | a new directory beside the pager changes nothing the pager stands for |
| LifeModule.Life.Load | mm/pager.c:483-502 | a load of the running process, anywhere: the byte of its private memory, or refused exactly where it has none; with a page to spare |
| LifeModule.Life.Store | mm/pager.c:483-502 | a store of the running process changes that byte of its private memory, or is refused exactly where it has none or has its code |
| LifeModule.Life.VmAlloc | kernel/process.c:256-284 | the new page of zeros, once, exactly while pager entries are left; no other memory changes |
| LifeModule.Life.DemoCall | kernel/usermode.c:84-112 | demo calls and sampling change no private memory |
| LifeModule.Life.SpawnChild | kernel/process.c:141-201 | table, memory and result of a spawn, exactly: without a free page or two free pager entries a pid is used up and nothing else; a child starts with its image and a stack of zeros |
| LifeModule.Life.SpawnBuiltinChildForCurrent | kernel/process.c:216-254 | the same on behalf of the running process |
| LifeModule.Life.Perform | kernel/usermode.c:49-129 | each deed of the running process does to its private memory, and answers, exactly what the plain kernel says |
| LifeModule.Life.End | kernel/process.c:745-779 | a process that is not running is gone: its row, with its children going to pid 0, its claims with the banker, its memory, and exactly the pages of its address space |
| LifeModule.Life.Kill | kernel/process.c:1047-1062 | the status, and the end of the process exactly when it is not running; otherwise nothing changes |
| LifeModule.Life.WaitChild | kernel/process.c:1002-1045 | status, pid and exit code, and the end of the first exited child |
| LifeModule.Life.ReapZombies | kernel/process.c:1072-1084 | one pass ends the zombies of pid 0, with their memory |
| LifeModule.Life.ProcessRun | kernel/process.c:712-743 | switches to the process, lets it do any deeds, switches back: table, private memories and answers are those of the plain kernel |
| LifeModule.Life.ScheduleAuto | kernel/process.c:861-887 | the same for the process the scheduler selects, the cursor moved past it |
| LifeModule.Life.Do | kernel/process.c:141-1084 | every call on the kernel is one step of the plain kernel |
| LifeModule.Life.RunScript | kernel/process.c:141-1084 | any run of spawns, process runs, schedulings, waits, kills and reapings, with any loads, stores and system calls of the processes in between: replies, answers and final state are those of a kernel without paging in which every process has a memory of its own |
| LifeModule.Life.NothingLeaks | kernel/process.c:745-779 | at any point of any run: once no process is left, exactly the pages free when the kernel started are free |
| LifeModule.PowerOn | kernel/kernel.c:21-52 | from the boot information to that kernel without processes, exactly when pages for it are there, and how many are left |
| LifeRuns.StepOnTable | kernel/process.c:141-1084 | each step of the plain kernel is a step of the process table, so the family invariant and bounded waiting hold of it |
| LifeRuns.RunLeavesOthers | kernel/process.c:712-743 | whatever a process does while it runs, every other process keeps every byte of its memory |
| LifeRuns.StepKeepsOrder | kernel/process.c:141-1084 | a call changes the memory of no process that lives on but the one it runs; unused slots hold no memory |
| LifeRuns.StepIsOlder | kernel/process.c:88-111 | pids are never used again: whoever has an old pid had it before, in the same slot |
| LifeRuns.MemoryWaits | kernel/process.c:712-779 | over any run of calls, a process that is not run finds every byte of its memory as it left it |
| LifeRuns.SeesOnlyItself | kernel/process.c:712-743 | what a process loads depends on its own memory only: two kernels in which that is the same answer it alike |
| LifeLaws.ImageIsLoaded | kernel/process.c:141-201 | whatever happens in between, a new process loads its own image, byte for byte, and zeros behind it |
| LifeLaws.SpawnedImageIsLoaded | kernel/process.c:216-254 | so does the child of a process that spawns a built-in application |
| LifeLaws.StackStartsZero | kernel/process.c:141-201 | its stack page loads zeros until it stores there |
| LifeLaws.LoadAfterStore | mm/pager.c:483-502 | in one run a load answers the byte last stored at its address |
| LifeLaws.LastStoreIsLoaded | kernel/process.c:712-743 | and so it does in a later run, whatever other processes did in between |
| LifeLaws.StoreAnswers | kernel/process.c:171-194 | a store is answered exactly where a load is, but on the code page refused |
| LifeLaws.NewPageIsZero | kernel/process.c:256-284 | a page that `vm_alloc` has just made loads zeros until it is stored to |
| LifeLaws.ElsewhereIsRefused | kernel/process.c:141-284 | from start-up on, whatever ran: a load outside code, stack and the 24 allocatable pages is refused, and so is a store there or to the code |
| LifeWaits.ExitCodeIsCollected | kernel/process.c:1002-1045 | whatever happens between its exit and its wait, a process is collected with the code it exited with |
| LifeWaits.YieldedIsNotCollected | kernel/process.c:712-743 | a process that has only ever yielded is not collected |
| LifeWaits.LivesOn | kernel/process.c:712-1084 | a process lives until a kill, a wait or a reaping answers that it has ended |
| LifeWaits.WaitBeforeExit | kernel/process.c:1002-1045 | from birth until a process exits, its parent's wait for it answers NOT_EXITED |
| LifeWaits.WaitAfterExit | kernel/process.c:1002-1045 | once it has exited, its parent collects it, with its exit code, at any later time |
| LifeWaits.RunsWhileItYields | kernel/process.c:712-743 | a process that has only yielded since its birth, and was not ended, runs when asked to and answers each deed |
| LifeWaits.GoneIsGone | kernel/process.c:745-779 | a process that was killed or collected is never heard of again: it does not run, nobody finds it, it is no child and no parent |
| LifeWaits.PriorityIsLastSet | kernel/process.c:970-984 | a process has the priority it was born with, or the one last set |
| LifeWaits.ExecSucceedsExactly | kernel/process.c:141-201 | a spawn succeeds exactly for an image of at most one page, a priority from 0 to 10, a parent that lives or is 0, with a free slot and two pager entries |
| LifeAnswers.WaitAnswersExactly | kernel/process.c:1002-1045 | each answer of a wait under exactly its condition; what is collected is the exited child in the lowest slot |
| LifeAnswers.KillAnswersExactly | kernel/process.c:1047-1062 | between calls nobody runs, so a kill works exactly on the processes there are |
| LifeAnswers.SetAnswersExactly | kernel/process.c:970-984 | a priority from 0 to 10 can be set for exactly the processes that have not exited; refused it changes nothing |
| LifeAnswers.ReapAnswersExactly | kernel/process.c:1072-1084 | a reaping pass answers how many processes it has ended, exactly the exited ones of pid 0 |
| LifeAnswers.PidsCountUp | kernel/process.c:88-111 | the first process has pid 1, and one made right after another the next pid |
| LifeAnswers.VmAllocAnswersExactly | kernel/process.c:256-284 | `vm_alloc` answers the address of its page, the same one each time, exactly for the first 24 pages and while the page is there or one of the 128 pager entries is left |
| LifeAnswers.SpawnAnswersExactly | kernel/process.c:216-254 | a process spawns a known application exactly when a slot and two pager entries are left; the child gets the next pid, priority 5, and the spawning process as its parent |
| ConsoleModule.Console.Clear | console/console.c:118-126 | one blank row, shown |
| ConsoleModule.Console.Render | console/console.c:50-64 | each cell of the screen is the one of the unbounded rows from the viewport on, and blank below them |
| ConsoleModule.Console.AdvanceToNextLine | console/console.c:78-89 | a blank row is added; the ring holds the last 512 rows; the view moves only if its top row is dropped |
| ConsoleModule.Console.PutChar | console/console.c:140-170 | a glyph stands where the cursor was, a backspace blanks the place before it and moves back, a newline starts a blank row, and nothing else changes (`Printed`); the ring agrees with the unbounded sheet; at the bottom the view follows, scrolled back it stays and the screen is unchanged until its top row is dropped |
| ConsoleModule.Console.Write | console/console.c:172-176 | a text of glyphs stands in the places from the cursor on, one after the other in rows of 80, no other place changes, and the screen shows what the viewport reaches of it (`Stands`, `Seen`); a view at the bottom stays there |
| ConsoleModule.Console.ScrollUp | console/console.c:222-234 | moves up, at most to the oldest row kept |
| ConsoleModule.Console.ScrollDown | console/console.c:236-249 | moves down, at most to the bottom |
| ConsoleModule.Console.ScrollToBottom | console/console.c:251-258 | shows the bottom |
| ConsoleModule.Console.PutCharAt | console/console.c:91-106 | writes screen and sheet, the screen alone below the last row |
| ConsoleModule.WindowStays | console/console.c:140-170 | a window above the cursor's row shows the same after any further output |
| ConsoleModule.TypedIsPrinted | console/console.c:140-170 | the sheet after one character has exactly the change of cells and cursor that the character calls for |
| ConsoleModule.TextIsPlaced | console/console.c:172-176 | character k of a text of glyphs stands k places behind the cursor, counted in rows of 80 |
| ConsoleModule.PartsJoin | console/console.c:172-176 | printing a text in two parts prints the whole of it |
| KernelIrq.PushAppends | drivers/keyboard.c:49-58 | the ring accepts a key exactly while it holds fewer than 127, at the end of the queue |
| KernelIrq.Keyboard.Push | drivers/keyboard.c:49-58 | an accepted key joins the queue, a full ring drops it |
| KernelIrq.Keyboard.HasKey | drivers/keyboard.c:128-130 | true exactly when an accepted key was not read |
| KernelIrq.Keyboard.ReadKey | drivers/keyboard.c:132-140 | with interrupts landing between its steps, a read returns the first accepted key not read before |
| KernelIrq.Timer.IrqHandler | timer/timer.c:52-70 | an event is raised exactly when the slice runs out |
| KernelIrq.Timer.SetTimeslice | timer/timer.c:111-125 | a fresh slice of at least one tick, no events |
| KernelIrq.Timer.TakeScheduleEvent | timer/timer.c:131-146 | takes one event exactly when one is pending |
| KernelIrq.OneEventPerSlice | timer/timer.c:52-70 | from a fresh slice, n ticks raise one event for each whole slice passed |
| KernelLoop.StepHolds | kernel/kernel.c:50-78 | every step of the loop and every interrupt keeps the loop invariant |
| KernelLoop.LoopIsSafe | kernel/kernel.c:50-78 | on every interleaving: keys read are a FIFO prefix of keys accepted, events raised since the last reset are taken or pending, and the loop never sleeps on a queued key or pending event |
| KernelLoop.ShadowIsNeeded | kernel/kernel.c:72-77 | without the one-instruction STI shadow (Intel SDM Vol. 2, STI) every arrival between STI and HLT is slept on; with it the arrival wakes the loop |
| KernelLoop.KeysAreHandled | kernel/kernel.c:50-66 | on every run: the keys that get through while fewer than 127 wait are accepted, and the loop handles, in order, the keys it reads |
| KernelLoop.EventsAreScheduled | kernel/kernel.c:58-64 | on every run each event taken since the slice was last set is one visit to the scheduler or one preemption, but for one just taken on the way there |
| KernelLoop.LeftAloneItSleeps | kernel/kernel.c:50-78 | with no more interrupts the loop gets from anywhere to sleep, and has then handled every key and taken every pending event |

## Left out

- Drivers, interrupts, boot code, descriptor tables: port input and output (drivers/ata.c), scancode tables, interrupt entry and assembly are not modelled. Sector transfers succeed, so the error returns of disk reads and writes are not modelled.
- The walk over raw multiboot memory: the memory map is a sequence of entries; a malformed entry size is not modelled.
- Bits in words: page table entries, bitmaps and structures are records and sequences, not packed words; only the indirect table and directory entries are taken down to bytes. The bytes after the terminator of a stored name are zeros.
- Null pointers: an argument is always there.
- Counters that would have to wrap: pids, console rows and columns, pending events and ticks of the timer are unbounded. The use tick of the pager does wrap as in the code, and what is proved about its order says so.
- PmmModule.Pmm.Init: assumes at most 0xFFFFF000 bytes of memory and a kernel image that ends, with its bitmap, below that; beyond it rounding wraps, as `LastPageWraps` shows.
- VmmModule.Vmm.Init: assumes at most 1 GiB of memory, beyond which the direct map itself wraps round the address space.
- VmmModule.Vmm.MapPage: is asked to map above the kernel base only while the kernel directory is the only one, as the boot code does, because the upper tables are shared.
- The accessed and dirty bits of page directory entries, the TLB, and the statistic `mapped_pages`.
- PagerRuns.RunScript: a page registered again keeps the rights it has; whether its content is replaced is not the script's to know, so the run reports it. The directories of a script exist before it. Frames are provided for: one page for each resident slot not yet filled, and one for each access, in case its page table is missing.
- PagerModule.Pager.RegisterPageData: assumes a user address that nothing else has mapped; the callers in the repository use disjoint ranges. The not-ready pager, its statistics and the victim trace are not modelled.
- PagerModule.Pager.UserStore: once a failed page-in has cost the slots their bijection, it says that all pages keep their bytes if the eviction was harmless, not that they lose some if it was not, since the store may rewrite the very page that was harmed; `UserLoad` has both directions.
- MemDemoModule.MemDemo.ApplyOp: the text of events and their log file are not modelled, only how many there are.
- VmmModule.Vmm.DestroyAddressSpace: assumes the directory is not the current one, as the callers make sure.
- SpacesModule.AddressSpaces.ReleaseSpace: assumes the space is not the current one, as the callers make sure.
- ProcessModule.ProcessTable.SpawnChild: the table's part, for any outcome of the memory set-up; `Life.SpawnChild` has the memory, and says when there is enough. Register contexts and names are not modelled.
- ProcessModule.ProcessTable.SpawnBuiltinChildForCurrent: likewise; `Life.SpawnBuiltinChildForCurrent` has the memory. The image of a built-in application is any that fits one page.
- ProcessModule.ProcessTable.ReleaseProcess: the table's part; `Life.End` has the banker's and the memory's.
- ProcessModule.ProcessTable.ProcessRun: the table's part; `Life.ProcessRun` has the switch of page directories, which cannot fail there.
- LifeModule.Life.RunScript: what a process computes between its deeds is arbitrary. A refused access halts the real kernel; here the process may go on, which only adds runs. Demo pages are not private memory, and what they answer is stated by `AddressSpaces` only. `Supplied` does not credit pages that come back when a process ends. The commands of the banker between the calls are `Banker`'s.
- LifeRuns.SeesOnlyItself: is about loads and stores; whether `vm_alloc` or a spawn succeeds depends on how many pager entries others use, as in the code.
- FsSimple.SimpleFs.AppendFile: on an unmounted volume the code looks the name up before the write refuses; the model refuses at once.
- FsSimple.SimpleFs.Init: assumes that a disk it accepts is sound (`DiskSound`, which every call leaves behind); the code checks the constants and the root only, so a damaged disk that has them mounts as well, and what the calls then do is not modelled.
- FsSimple.SimpleFs.WriteFd: assumes that offset plus size does not wrap, and `FsSession.RunScript` that it does not for any write of the script.
- `link_count`: kept as a number on disk, without a meaning, as its own comment says.
- SimpleFS and console output functions, the shell, the fixed demo programs (`emit_*`, `build_*_image`), and the two demo address spaces of mm/vmm.c: display or fixed data, with only easy properties.
- Console rows printed before a redraw by `console_put_char_at` below the last row: they are on the screen only, as in the code, and the next redraw drops them.
- KernelLoop.LoopIsSafe: key handling and scheduling are steps without effect on the shared state, except that a new time slice may be set and that a process run by the scheduler or by a shell command may be preempted and take an event.

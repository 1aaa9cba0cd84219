# MyMisu OS: verified model of the kernel's state

This project models the parts of MyMisu OS whose correctness depends on whole runs, and proves what
those runs keep. `dafny verify dfyconfig.toml` checks everything.

Each component has two layers. A *model* gives the state as a value and each call as a function from
state to state; the main results are lemmas about these functions and about runs of them. A *class*
(`FileSystem.Ramdisk`, `Pmm.Allocator`, `Process.Kernel`, `ContextSwitch.Machine`,
`Keyboard.KeyboardBuffer`) holds the static tables of the C code and updates them in place, loop by
loop; the contract of each method says that its new state and its result are exactly what the model
function gives, so every lemma about the model is about the code of the class.

| component | modules |
|---|---|
| ramdisk filesystem | `Errno`, `CString`, `FsModel`, `FsInvariant`, `FsTree`, `FsRemoval`, `FsFiles`, `FsCalls`, `FsDescriptors`, `FsBoot`, `FileSystem`; on top of it `Listing`, `ListingOrder` (listing format and its parser) and `TreeWalk` |
| physical pages | `PmmModel`, `Pmm` |
| processes and timer | `ProcModel`, `ProcSafety`, `ProcCalls`, `BoundedWait`, `TimeSlice`, `Starvation`, `IdleSlot`, `SleepTicks`, `StackPages`, `Process` |
| stack switching | `ContextSwitch`, `TaskSwitching`; `Multitasking` joins it to the scheduler and the allocator |
| keyboard, numbers | `Keyboard`, `Decimal` |
| concrete runs that show the failures below | `FsInstances`, `SchedInstances` |
| shared | `Search` (first-match scans, pigeonhole) |

## Main results

- **Filesystem, every run** (`FsInvariant.EveryRun`): after `fs_init` and any sequence of calls with any
  outcome, the live nodes form a tree of directories rooted at slot 0, the current directory is a live
  directory, siblings have different non-empty names, and all storage bounds hold, stale descriptors
  included. The source stores parent indices only, so acyclicity is witnessed by a depth per slot.
- **Files are capped byte sequences** (`FsFiles`): writing `a` then `b` is writing `a + b` also across the
  limit; write, seek back and read returns the accepted bytes; interleaved appends lose and reorder nothing.
- **Descriptors** (`FsDescriptors.EveryRunOnFiles`): in every run from boot, all open descriptors are always on live
  files exactly when no call deletes or unlinks the file of an open one.
- **The listing and its parser** undo each other exactly when no listed name contains a newline.
- **Every call on contents and descriptors** (`FsCalls`) is pinned down by the state before it: result, errors, where
  the offset goes, which bytes change, and that nothing else does.
- **The tree walk** stops on every reachable table and prints every live node but the root exactly once, siblings in slot
  order and every directory's block directly behind its own line.
- **Page allocator**: bitmap and counter refine a set of pages; the result of `pmm_init` is given for every
  memory map, with the exact condition under which the counter is right.
- **Scheduler**: safety over every run; a READY process is dispatched within 150 ticks plus 150 for every
  current process that dies meanwhile, and a family of runs shows why deaths have to be counted.
- **Time slices** (`TimeSlice`): ten ticks to a pass, no more and no fewer, over every run; within a slice the current process
  keeps the processor and alone is charged.
- **Sleep** is exact to the tick, and ticks are conserved.
- **Multitasking is transparent** (`Multitasking.ResumesItself`): allocator, scheduler and stack switch together,
  from `pmm_init` on. In every run in which no process kills itself, a process that was switched away from goes on
  with exactly the registers, stack pointer and return address it had. That the stacks and the `saved_esp` fields
  never get in each other's way is proved from the allocator and the process table, not assumed. A task that
  returns from its entry goes on as PID 0, on its old page (`Multitasking.LeaverGoesOnAsKernel`).
- **Keyboard ring**: first in, first out under every interleaving with the consumer's two-step read.
- **Numbers**: `atoi` reads back what `print_int` and `pad_int` emit.

## Where the code falls short of what one would expect

The model follows the code. Each point is proved, with the condition under which the code does behave, and
with a concrete run in which it does not.

- Directories named `..` or `/` can be created but not entered (`FsTree.CdChildAndBack`;
  `FsInstances.DotDotIsNotEntered`).
- `fs_open` that fails for want of a descriptor leaves a new or an emptied file behind
  (`FsTree.FailedOpenChangesState`; `FsInstances.RefusedOpenCreates`).
- Delete and unlink do not look at the descriptor table, so a descriptor can end up on a free slot, on another file or
  on a directory (`FsDescriptors.StepOnFiles`, `FsRemoval.DescriptorRedirected`; `FsInstances.DescriptorOnDirectory`).
- A write of no bytes past the end moves the end (`FsFiles.EmptyWrite`; `FsInstances.EmptyWriteGrows`); a refused
  append to a full file moves the offset (`FsFiles.FailedWrite`; `FsInstances.RefusedAppendMoves`).
- The file browser misreads names that contain a newline (`Listing.ParseInvertsListing`; `FsInstances.NewlineMisread`),
  and `fs_list` drops entries that do not fit (`Listing.ListingComplete`; `FsInstances.CrowdDoesNotFit`).
- `pmm_alloc_page` returns 0 both for "nothing free" and for page 0 (`PmmModel.ZeroMeansFull`), so page 0 is
  lost once it has been freed (`PmmModel.PageZeroLost`).
- The used-page counter is wrong after start-up exactly when two available regions share a whole page, for maps of
  fewer than 131072 entries (`PmmModel.StartedExact`; `PmmModel.OverlapMiscounts`). `pmm_get_free_pages` reports fewer
  pages than are clear whenever the machine has less than 128 MB and any page is clear (`PmmModel.FreePagesBound`;
  `PmmModel.SmallMachineUnderreports`).
- Start-up cuts region addresses to 32 bits, so an available region at 4 GB or above frees pages of the low 128 MB that
  it does not contain (`PmmModel.ClearedInside`, `PmmModel.FreeIsMemory`; `PmmModel.HighRegionFreesLowPages`).
- Every death of the current process restarts the round-robin scan at slot 0, so others can starve
  (`Starvation.Starves`; `Starvation.TrapReachable`).
- The same deaths put slot 0, which never runs otherwise, into the round: its saved stack pointer is then that of
  the dead process (`IdleSlot.IdleStaysOut` says exactly when this happens, `IdleSlot.OrphanRunsAsKernel` that it is
  dispatched, `Multitasking.LeaverGoesOnAsKernel` with which context).
- `process_sleep(0)` at tick 0 never wakes (`SleepTicks.SleepZero`; `SchedInstances.SleepZeroNeverEnds`).
- A task that returns from its entry never gives its stack page back (`StackPages.ReturnLosesPage`,
  `StackPages.LostForever`; `SchedInstances.PageIsLost`).
- A process that kills itself frees the stack it goes on running on, and the next spawn is given it exactly when no
  lower page is free (`StackPages.SelfKillFreesStack`; `SchedInstances.StackGivenAway`).
- The comment at `src/process.c:100-111` lists the registers of the prepared stack in the opposite order of
  PUSHAD. All eight words are zero, so the code is right; the model follows the code and the PUSHAD order
  of section 4.3 of volume 2B of the Intel SDM.

## Modelling decisions

- C characters are Dafny `char`s; nothing depends on there being 256 of them. Buffers passed in are
  sequences or arrays; a pointer that may be null is a `CPtr`, a `CData` or an `array?`.
- `timer_get_ticks()` is a parameter of the filesystem calls. Ticks, PIDs and wake ticks do not wrap.
  The page counters and the bounds in `pmm_init` do wrap at 32 bits, as in C, and so does the sum in `fs_lseek`.
- A memory map is a sequence of entries; the address of `_kernel_end` is a parameter of `Init`.
- An event of the scheduler is one atomic step. For voluntary calls this is an assumption: they run with
  interrupts enabled. A run starts at `Booted`, where scheduling has just been switched on; `tick`,
  `slice` and the ticks already charged to the shell are arbitrary there
  (`ProcModel.TickBeforeScheduling` links such states).
- Memory in `ContextSwitch` is a map from addresses to words, accessed at one alignment per stack, and
  addresses do not wrap.
- `Decimal.AtoiOf` answers `Overflow` where the signed arithmetic of `atoi` would be undefined; `print_int`
  and `pad_int` exclude the least int, whose negation is undefined.
- The printed output of the tree walk is a sequence of (node, indentation) lines.

## Model

| member | source | states |
|---|---|---|
| CString.Strlen | src/string.c:3-7 | the length of the text before the first NUL |
| CString.Strcmp | src/string.c:9-12 | zero exactly for equal texts, otherwise the difference at the first position where the buffers differ |
| CString.Strncpy | src/string.c:28-33 | the text cut to n characters, NULs up to n, everything behind untouched |
| CString.Memcpy | src/string.c:47-52 | the target range holds the source bytes, all other bytes are kept |
| CString.MemcpyOut | src/string.c:47-52 | the same for a caller's buffer updated in place |
| FsModel.FreeNode | src/fs.c:35-39 | the lowest non-root slot that is not live, -1 exactly when there is none |
| FsModel.FindNode | src/fs.c:41-46 | the lowest live slot under the current directory with that name, never slot 0; -1 exactly when there is none |
| FsModel.FreeFd | src/fs.c:48-52 | the lowest descriptor not in use, -1 exactly when there is none |
| FsModel.NameBuf | src/fs.c:60-61 | the stored name is NUL-terminated in its 32 bytes and reads back as the name given |
| FsInvariant.CreateKeeps | src/fs.c:54-85 | creating a directory or a file keeps the tree, the names and the storage bounds, whatever its outcome |
| FsInvariant.FoundIsBelow | src/fs.c:41-46 | a lookup never finds the current directory itself, and a file it finds has no children |
| FsInvariant.RemovalKeeps | src/fs.c:134-143 | delete, unlink and rmdir keep the invariant: no parent and no current directory is ever removed |
| FsInvariant.CdKeeps | src/fs.c:145-157 | the current directory stays a live directory |
| FsInvariant.OpenKeeps | src/fs.c:183-208 | open keeps the invariant also when it creates or truncates and then fails |
| FsInvariant.BytesOnly | src/fs.c:218-262 | calls on descriptors and on contents do not change the shape of the tree, even through stale descriptors |
| FsInvariant.StepKeeps | src/fs.c:54-292 | every call keeps the invariant |
| FsInvariant.RunKeeps | src/fs.c:54-292 | every sequence of calls keeps the invariant |
| FsInvariant.BootOk | src/fs.c:12-33 | fs_init establishes it |
| FsInvariant.EveryRun | src/fs.c:12-292 | it holds after fs_init and any sequence of calls |
| FsTree.Chain | src/fs.c:145-150 | the parent chain of a live node is live throughout, as long as its depth, and ends in the root |
| FsTree.DepthBound | src/fs.c:8-10 | no parent chain has more than 63 steps |
| FsTree.CdUpReachesRoot | src/fs.c:145-150 | from anywhere, 63 or more times `cd ..` ends in the root and changes nothing else |
| FsTree.CdChildAndBack | src/fs.c:145-157 | `cd child` enters an existing directory exactly when it is not named `..` or `/`, and `cd ..` then restores the state |
| FsTree.LookupIsUnique | src/fs.c:41-46 | a name under a directory belongs to exactly one live node, the one find_node returns |
| FsTree.CreatedIsFound | src/fs.c:54-85 | the lookup finds the node just created, in a slot that was free; every other node and descriptor is unchanged |
| FsTree.CreateOutcome | src/fs.c:54-85 | each error of a creation with its exact condition, -ENOSPC exactly when all 63 non-root slots are live; a failure changes nothing |
| FsTree.OpenOutcome | src/fs.c:183-208 | when an open succeeds and which error it gives otherwise, by the state before the call; success gives the lowest free descriptor, onto the live file of that name, at offset 0, or with O_APPEND at its end |
| FsTree.OpenErrors | src/fs.c:183-208 | each error of an open with its exact condition; -EMFILE exactly when all descriptors are in use and the name is a file or can be created |
| FsTree.FailedOpenChangesState | src/fs.c:183-202 | every failed open, whatever its error, leaves the state alone unless all descriptors were in use and a file was created or a non-empty one emptied |
| FsRemoval.DeleteOutcome | src/fs.c:134-143 | delete succeeds exactly on a file or a childless directory, with exact conditions for its errors; it removes that node only, and the name is free afterwards |
| FsRemoval.DeleteIsUnlinkOrRmdir | src/fs.c:275-292 | delete is unlink on files and rmdir on directories, and each of those two refuses the other kind |
| FsRemoval.CreateThenDelete | src/fs.c:54-143 | deleting what was just created restores every live node, every descriptor and the current directory |
| FsRemoval.CdOutcome | src/fs.c:145-157 | where cd goes, when it fails, and that it changes nothing but the current directory |
| FsRemoval.UnlinkedStillReads | src/fs.c:275-281 | unlinking a file changes nothing that any descriptor reads |
| FsRemoval.DescriptorRedirected | src/fs.c:134-143 | after its file is removed by either call, a descriptor leads to the next file or directory created exactly when the slot was the lowest free one |
| FsDescriptors.NodeFate | src/fs.c:54-292 | no call changes which entry a live file is, and only its own deletion or unlinking ends it |
| FsDescriptors.FdFate | src/fs.c:183-262 | only close gives a descriptor up, only open takes one, and it takes it onto a live file |
| FsDescriptors.StepOnFiles | src/fs.c:54-292 | open descriptors stay on live files exactly when the call does not delete or unlink the file of one of them |
| FsDescriptors.RunOnFiles | src/fs.c:54-292 | over every run they always do exactly when no call of the run does that |
| FsDescriptors.EveryRunOnFiles | src/fs.c:12-292 | the same for every run from fs_init |
| FsDescriptors.DescriptorFollows | src/fs.c:183-262 | until its file is removed or it is closed, a descriptor stays on that very file through any run |
| FsFiles.StoredContents | src/fs.c:242-245 | a store replaces exactly the written range; only a gap behind the old end shows stale bytes |
| FsFiles.EmptyStore | src/fs.c:242-245 | a store of no bytes leaves the contents alone exactly when it is not past the end |
| FsFiles.EmptyWrite | src/fs.c:232-247 | an accepted write of no bytes returns 0 and leaves the file alone exactly when the descriptor appends or is not past the end, and otherwise moves the end to the offset |
| FsFiles.StoreTwice | src/fs.c:242-245 | two adjacent stores equal one store of the concatenation, terminator and size included |
| FsFiles.WriteTwice | src/fs.c:232-247 | writing a then b leaves the state that writing a + b leaves, for every descriptor, flag and size, also across the limit, and the counts add up |
| FsFiles.FailedWrite | src/fs.c:232-247 | each error of a write with its exact condition; a failed write changes the state exactly when it is an append to a full file with the offset elsewhere |
| FsFiles.WriteAccepted | src/fs.c:238-246 | the accepted prefix of the buffer stands at the old offset, or with O_APPEND at the old end, and the offset is behind it |
| FsFiles.WriteSeekRead | src/fs.c:218-262 | write, seek back, read returns exactly the accepted bytes and leaves the state of the write |
| FsFiles.WriteFileReadFile | src/fs.c:87-108 | what write_file stores, read_file returns, cut to 4095 bytes and to the caller's buffer |
| FsFiles.SeekExact | src/fs.c:249-262 | for every 32-bit offset the wrapping sum decides as the exact sum does: accepted exactly for results in 0..4095 |
| FsFiles.ReadOnce | src/fs.c:218-230 | a read hands over the next bytes of what remains and moves past them |
| FsFiles.ReadLoop | src/fs.c:218-230 | reads in any sizes hand over the remaining bytes in order, without loss or repetition |
| FsFiles.ReadLoopFinishes | src/fs.c:218-230 | with positive sizes the loop ends with everything up to the end of the file, and then reads 0 |
| FsFiles.AppendWrite | src/fs.c:232-247 | one write through any descriptor appends to the file, cut to 4095 bytes, or offers it nothing |
| FsFiles.AppendsInOrder | src/fs.c:232-247 | a file changed only through append descriptors ends as its old contents followed by all buffers in call order, cut to 4095 bytes, with any other calls in between |
| FsCalls.WriteOverwrites | src/fs.c:232-247 | without O_APPEND an accepted write replaces the bytes from the old offset on, up to 4095, moves the offset behind them, and changes no other byte, node or descriptor |
| FsCalls.WriteAppends | src/fs.c:232-247 | with O_APPEND it adds to the end, whatever the offset was |
| FsCalls.ReadOutcome | src/fs.c:218-230 | every error of a read with its exact condition; otherwise the bytes from the offset on, and only that offset moves |
| FsCalls.SeekOutcome | src/fs.c:249-262 | every error of a seek with its exact condition; otherwise only that offset moves, to the exact sum |
| FsCalls.CloseOutcome | src/fs.c:210-216 | close succeeds exactly on an open descriptor and gives up that one only |
| FsCalls.AfterClose | src/fs.c:210-262 | a closed descriptor is refused with -EBADF by read, write, seek and close |
| FsCalls.OpenReusesClosed | src/fs.c:183-216 | after a close no open is refused for want of descriptors, and it is given the closed one or a lower one |
| FsCalls.OpenLeaves | src/fs.c:183-208 | the whole state an open leaves: the file as it was, emptied with O_TRUNC, or new and empty; the descriptor at 0, or with O_APPEND at the end; nothing else changed |
| FsCalls.OpenThenWrite | src/fs.c:183-247 | opening without O_APPEND and writing replaces the first bytes of the file and keeps the others |
| FsCalls.OpenAppendTells | src/fs.c:183-262 | opening with O_APPEND and asking for the offset gives the size |
| FsCalls.OpenThenAppend | src/fs.c:183-247 | opening with O_APPEND and writing adds to the contents |
| FsCalls.WriteFileOutcome | src/fs.c:87-97 | write_file replaces the contents of every file, and refuses exactly missing names and directories |
| FsCalls.ReadFileOutcome | src/fs.c:99-108 | read_file gives the contents cut to the buffer, and refuses exactly missing names and directories |
| FsBoot.CallsFill | src/fs.c:22-32 | for any list of entries with different names, the creating and writing calls leave exactly these entries with their contents |
| FsBoot.BootedHolds | src/fs.c:12-33 | after fs_init the root holds exactly home, bin, etc, tmp, readme.txt, hostname and version, in this order, the files with their contents |
| FileSystem.Ramdisk.constructor | src/fs.c:12-33 | the blank tables with the root, then the ten calls that populate them |
| FileSystem.Ramdisk.FindFreeNode | src/fs.c:35-39 | the loop returns FsModel.FreeNode |
| FileSystem.Ramdisk.FindNodeByName | src/fs.c:41-46 | the loop over strcmp returns FsModel.FindNode |
| FileSystem.Ramdisk.FindFreeFd | src/fs.c:48-52 | the loop returns FsModel.FreeFd |
| FileSystem.Ramdisk.DirHasChild | src/fs.c:138-139 | true exactly when some live node has that parent |
| FileSystem.Ramdisk.CheckNew | src/fs.c:55-59 | the checks in source order give the slot or the error that FsTree.CreateOutcome characterises |
| FileSystem.Ramdisk.Mkdir | src/fs.c:54-68 | new state and result are FsModel.Create for a directory |
| FileSystem.Ramdisk.CreateFile | src/fs.c:70-85 | new state and result are FsModel.Create for a file |
| FileSystem.Ramdisk.WriteFile | src/fs.c:87-97 | new state and result are FsModel.WriteFile |
| FileSystem.Ramdisk.ReadFile | src/fs.c:99-108 | result and bytes are FsModel.ReadFile, a NUL follows them, the rest of the buffer and the state are kept |
| FileSystem.Ramdisk.Delete | src/fs.c:134-143 | new state and result are FsModel.Delete |
| FileSystem.Ramdisk.Unlink | src/fs.c:275-281 | new state and result are FsModel.Unlink |
| FileSystem.Ramdisk.Rmdir | src/fs.c:283-292 | new state and result are FsModel.Rmdir |
| FileSystem.Ramdisk.Cd | src/fs.c:145-157 | new state and result are FsModel.Cd |
| FileSystem.Ramdisk.Open | src/fs.c:183-208 | new state and result are FsModel.Open, null and empty names included |
| FileSystem.Ramdisk.OpenNode | src/fs.c:196-207 | truncation happens before the descriptor is looked for; append starts at the size |
| FileSystem.Ramdisk.Close | src/fs.c:210-216 | new state and result are FsModel.Close |
| FileSystem.Ramdisk.ReadFd | src/fs.c:218-230 | new state, result and bytes are FsModel.ReadFd; the rest of the buffer is kept |
| FileSystem.Ramdisk.WriteFd | src/fs.c:232-247 | new state and result are FsModel.WriteFd, all accesses in range also for stale descriptors |
| FileSystem.Ramdisk.PutBytes | src/fs.c:242-245 | copy, growth and terminator amount to FsModel.Stored on that node alone |
| FileSystem.Ramdisk.Lseek | src/fs.c:249-262 | new state and result are FsModel.Lseek |
| FileSystem.Ramdisk.List | src/fs.c:110-132 | the count equals the entries emitted; the buffer holds their text and a NUL and is otherwise untouched |
| FileSystem.Ramdisk.ListSlot | src/fs.c:115-128 | a slot is emitted exactly when it is a child and fits, as one entry at the offset |
| FileSystem.Ramdisk.EmitEntry | src/fs.c:119-126 | the single stores amount to writing the entry at the offset |
| FileSystem.Ramdisk.Browse | src/shell.c:447-450 | listing and parsing in a 2048-byte buffer recover the first 32 entries exactly when their names hold no newline |
| Listing.ListingComplete | src/fs.c:110-132 | the text always leaves room for the NUL; the count is the number of children exactly when all of them fit |
| Listing.ChildrenExact | src/fs.c:114-115 | the listed nodes are exactly the live nodes whose parent is the current directory |
| Listing.EntryText | src/fs.c:116-125 | the line of an entry: kind in four columns, two spaces, name, newline |
| ListingOrder.ListedSlots | src/fs.c:114-128 | for every buffer size, a child is listed exactly when its entry fits behind those listed before it, in slot order; later shorter ones still are |
| Listing.NoNewlineMeaning | src/shell.c:450 | the condition on names is that no listed name contains a newline |
| Listing.FirstsIsPrefix | src/shell.c:449-450 | the parser's 32 items belong to a prefix of the listing |
| Listing.ParseInvertsListing | src/shell.c:449-450 | the parser recovers kind and name of the first 32 entries exactly when none of those names contains a newline |
| Listing.ParseListing | src/shell.c:450 | the parser loop computes ParseFrom on every buffer, and Overrun where it would read past the end |
| Listing.ParseEntry | src/shell.c:450 | one round takes one item and stops behind its newline |
| Listing.NameEnds | src/shell.c:450 | a name is read up to the first newline or NUL, and at most 39 characters of it |
| Listing.ReadName | src/shell.c:450 | the name ends at a newline, a NUL or after 39 characters |
| TreeWalk.InvReady | src/shell.c:496-521 | every state the filesystem can reach can be walked |
| TreeWalk.TreePrint | src/shell.c:496-521 | the recursive loop stops and prints exactly the lines of Walk |
| TreeWalk.CmdTree | src/shell.c:523-540 | the walk from the root |
| TreeWalk.WalkCounts | src/shell.c:496-521 | below a directory, from a slot on, the line of a node is printed once or never, according to its ancestors |
| TreeWalk.WalkNested | src/shell.c:497-520 | every line deeper than the first level stands in the block directly behind its parent's line: all lines in between are indented at least as far |
| TreeWalk.WalkAscending | src/shell.c:497-520 | lines of nodes with the same parent come in slot order |
| TreeWalk.TreePrintsAll | src/shell.c:496-521 | every live node but the root is printed exactly once, in the block directly behind its parent's line, siblings in slot order, indented by the length of its parent chain; nothing else is printed |
| PmmModel.LowestFree | src/pmm.c:81-92 | the lowest page that is not used |
| PmmModel.AllocCounted | src/pmm.c:80-94 | alloc hands out the lowest free page, aligned and at least 1 MB, changes that page only, and returns 0 exactly when nothing is free |
| PmmModel.FreeCounted | src/pmm.c:96-102 | freeing above 1 MB keeps counter and set in step; a second free changes nothing |
| PmmModel.RunCounted | src/pmm.c:80-102 | over every sequence of calls that frees nothing below 1 MB the counter is the number of used pages |
| PmmModel.AllocThenFree | src/pmm.c:80-102 | alloc then free restores set and counter |
| PmmModel.ZeroMeansFull | src/pmm.c:80-94 | 0 means "nothing free" exactly as long as page 0 is used |
| PmmModel.PageZeroLost | src/pmm.c:80-102 | once page 0 is freed, the next alloc takes it and returns 0 |
| PmmModel.FreePagesBound | src/pmm.c:104-106 | the reported free pages are the clear bits less the pages by which total_pages falls short of 32768, or 0; they equal the clear bits exactly when total_pages is 32768 or nothing is free |
| PmmModel.WhollyInside | src/pmm.c:41-51 | the loop clears nothing for other memory, and exactly the pages that lie wholly in an available region whose two sums do not wrap |
| PmmModel.ClearsExact | src/pmm.c:40-58 | no page is cleared twice exactly when no two regions share a page |
| PmmModel.StartedExact | src/pmm.c:25-78 | for every memory map: which pages are free; the counter is right exactly when the repeated clears are a multiple of 2^32, which for fewer than 131072 entries means exactly when no two regions share a page |
| PmmModel.SaneMapExact | src/pmm.c:25-78 | when the available regions are disjoint and their sums do not wrap: a page is free exactly when it lies wholly in one of them, above page 255 and above the kernel; the counter is right |
| PmmModel.ClearedInside | src/pmm.c:42-47 | for every region, a cleared page lies wholly in it exactly when its address plus 4095 is below 2^32 |
| PmmModel.ClearsRightly | src/pmm.c:40-58 | every page is cleared for a region it lies in exactly when no region that covers a page starts high |
| PmmModel.FreeIsMemory | src/pmm.c:25-78 | every free page is available memory exactly when the pages that high regions free lie in other available regions |
| PmmModel.SmallMachineUnderreports | src/pmm.c:104-106 | with 64 MB the reported number of free pages is below the number of clear bits |
| PmmModel.HighRegionFreesLowPages | src/pmm.c:42-51 | an available region at 4 GB frees page 300 |
| PmmModel.OverlapMiscounts | src/pmm.c:49-55 | two regions that share the megabyte at 2 MB make the counter wrong |
| Pmm.MaskBits | src/pmm.c:13-15 | setting a bit sets that bit only |
| Pmm.UnmaskBits | src/pmm.c:17-19 | clearing a bit clears that bit only |
| Pmm.FullByte | src/pmm.c:82 | a byte is 0xFF exactly when its eight pages are used |
| Pmm.SameSet | src/pmm.c:9 | equal sets of pages come from equal bitmaps |
| Pmm.Allocator.SetBit | src/pmm.c:13-15 | the used set gains that page |
| Pmm.Allocator.ClearBit | src/pmm.c:17-19 | the used set loses that page |
| Pmm.Allocator.TestBit | src/pmm.c:21-23 | membership in the used set |
| Pmm.Allocator.AllocPage | src/pmm.c:80-94 | new state and address are PmmModel.Alloc |
| Pmm.Allocator.ClearBitOf | src/pmm.c:83-90 | the lowest clear bit of a byte |
| Pmm.Allocator.FreePage | src/pmm.c:96-102 | new state is PmmModel.Free for every address |
| Pmm.Allocator.GetFreePages | src/pmm.c:106 | the number PmmModel.FreePagesBound is about |
| Pmm.Allocator.Init | src/pmm.c:25-78 | new state is PmmModel.Started for every boot information and kernel end |
| Pmm.Allocator.WalkMap | src/pmm.c:40-58 | pages and counter after the walk are those of the whole map |
| Pmm.Allocator.ClearRegion | src/pmm.c:41-56 | the loop takes exactly the covered pages out and counts each of them |
| Pmm.Allocator.ReserveAll | src/pmm.c:61-77 | both loops together put back the first megabyte and the kernel; the counter follows the set |
| Pmm.Allocator.FillBitmap | src/pmm.c:27 | every page is used |
| ProcModel.FindSlot | src/process.c:48-52 | the lowest live slot with that PID, -1 exactly when there is none |
| ProcModel.FreeSlot | src/process.c:75-78 | the lowest slot not in use, -1 exactly when there is none |
| ProcModel.ScanFrom | src/process.c:180-188 | the first offset of the circular scan at which a READY slot stands |
| ProcModel.ScheduleFrame | src/process.c:174-208 | a pass changes nothing but the states of slots and the current PID |
| ProcModel.TickedFrame | src/process.c:152-168 | the clock part of a tick wakes exactly the sleepers that are due and touches charges otherwise |
| ProcModel.TickBeforeScheduling | src/timer.c:11-24 | before scheduling is switched on a tick only counts and charges the shell |
| ProcSafety.ScheduleTarget | src/process.c:177-191 | with another current PID than 1 the scan finds someone else; without a live current process it finds slot 1 |
| ProcSafety.ScheduleKeeps | src/process.c:174-208 | a pass restores the invariant from a state whose current process has just been suspended |
| ProcSafety.StepKeeps | src/process.c:12-226 | every event keeps distinct PIDs below next_pid, RUNNING only for slot 0 or the current one, and PID 1 RUNNING exactly when current, else READY |
| ProcSafety.RunKeeps | src/process.c:12-226 | every sequence of events keeps that |
| ProcSafety.EveryRun | src/process.c:12-226 | it holds in every run from the moment scheduling is switched on |
| ProcSafety.ScheduleSwitches | src/process.c:174-208 | schedule always switches when the current PID is not 1, and goes straight to PID 1 when the current process is gone |
| BoundedWait.PassShrinks | src/process.c:174-208 | one pass dispatches the waiting slot or brings the current slot strictly closer to it |
| BoundedWait.StepProgress | src/process.c:174-208 | no event takes a waiting slot further away, except a death of the current process, by at most 15 |
| BoundedWait.DispatchedByPasses | src/process.c:174-208 | as many passes as the cyclic distance, at most 15, plus 15 per death of a current process, dispatch the slot |
| BoundedWait.TicksBringPasses | src/timer.c:11-24 | every ten ticks bring at least one pass, under any mix of events |
| BoundedWait.DispatchedInTime | src/timer.c:11-24 | 150 ticks plus 150 per death of a current process dispatch a READY process that nobody kills |
| TimeSlice.TickExact | src/timer.c:11-24 | a tick makes a pass exactly when it is the tenth of its slice |
| TimeSlice.TickCharges | src/process.c:152-155 | a tick is charged to the current process and to nobody else |
| TimeSlice.TenTicksAPass | src/timer.c:13-19 | over every run, ticks are ten per pass of the timer plus what the slice counter holds |
| TimeSlice.SliceIsKept | src/timer.c:13-18 | up to the ninth tick of a slice nothing changes but the clock, the charge of the current process and sleepers that fall due |
| TimeSlice.SliceEnds | src/timer.c:18-23 | the tick that fills the slice makes exactly one pass and starts the slice again |
| Starvation.CycleRuns | src/process.c:174-208 | yield, kill, yield, spawn makes two passes without reaching slot 3 and recreates the situation |
| Starvation.Starves | src/process.c:177-178 | for every m there is a run of 2m passes that kills others only and never dispatches a READY slot |
| Starvation.TrapReachable | src/process.c:74-121 | two spawns after boot set that situation up |
| IdleSlot.PassAtZero | src/process.c:177-199 | a pass keeps slot 0 out of the round exactly when its caller is still in the table; once in, it stays in |
| IdleSlot.IdleStaysOut | src/process.c:177-195 | in every run slot 0 stays RUNNING and is never dispatched exactly as long as no pass is made for a process that is gone |
| IdleSlot.OrphanRunsAsKernel | src/process.c:177-207 | once in the round, slot 0 is dispatched within 16 passes, plus 15 per further death |
| SleepTicks.SleepsThrough | src/process.c:157-167 | a sleeper stays BLOCKED under any events until its tick comes |
| SleepTicks.SleepIsExact | src/process.c:210-222 | sleeping k >= 1 ticks from tick T is BLOCKED before T + k and READY, or dispatched again, at T + k |
| SleepTicks.SleepZero | src/process.c:160-163 | sleeping 0 ticks ends at the next tick, but never when it starts at tick 0 |
| SleepTicks.NobodyOversleeps | src/process.c:157-167 | after every tick no live BLOCKED slot has a wake tick that has passed |
| SleepTicks.TicksConserved | src/process.c:152-155 | elapsed ticks are those held by live slots, plus those charged to removed ones, plus those that found no live current process |
| StackPages.SpawnStack | src/process.c:74-121 | a spawn fails exactly when slots or pages are exhausted and then changes nothing; otherwise it takes one free page |
| StackPages.KillStack | src/process.c:123-134 | a kill succeeds exactly on a live PID above 1 and returns exactly that slot's page |
| ProcCalls.SpawnOutcome | src/process.c:74-121 | a spawn fills the lowest free slot with a READY process of the next PID, the given entry, the lowest free page and the prepared stack pointer, and touches no other slot |
| ProcCalls.KillOutcome | src/process.c:123-134 | a kill takes exactly that PID out of the table, and touches no other slot |
| ProcCalls.EntryFound | src/process.c:13-18 | whenever a spawned process runs, the wrapper finds the entry it was spawned with |
| StackPages.EveryRunOwned | src/process.c:74-134 | in every run the stacks are pairwise different, page-aligned, used pages |
| StackPages.StacksApart | src/process.c:113-117 | stacks of different slots do not overlap |
| StackPages.SpawnThenKill | src/process.c:74-134 | whatever happens in between, a kill gives back exactly the page the spawn took |
| StackPages.SelfKillFreesStack | src/process.c:123-134 | a process that kills itself frees the page it runs on, and the next spawn gets it exactly when no lower page is free |
| StackPages.ReturnLosesPage | src/process.c:19-23 | returning from the entry leaves the page used and owned by no live slot |
| StackPages.LostForever | src/process.c:19-23 | such a page stays lost in every run |
| Process.Kernel.constructor | src/process.c:27-46 | the table of a fresh boot, with both PIDs RUNNING |
| Process.Kernel.FindSlotByPid | src/process.c:48-52 | the loop returns ProcModel.FindSlot |
| Process.Kernel.CreateKernel | src/process.c:74-121 | new table, allocator and result are ProcModel.Spawn |
| Process.Kernel.Terminate | src/process.c:123-134 | new table, allocator and result are ProcModel.Kill |
| Process.Kernel.Account | src/process.c:152-168 | new table is ProcModel.ProcessTick |
| Process.Kernel.DoSchedule | src/process.c:174-208 | new state is ProcModel.Schedule |
| Process.Kernel.NextReady | src/process.c:180-188 | the circular loop finds the slot of ProcModel.ScanFrom |
| Process.Kernel.SleepFor | src/process.c:210-222 | new state is ProcModel.Sleep |
| Process.Kernel.TimerCallback | src/timer.c:11-24 | new state is ProcModel.Tick |
| Process.Kernel.EntryReturned | src/process.c:19-24 | new state is ProcModel.ReturnFromEntry |
| ContextSwitch.Machine.Pushad | src/context_switch.s:11 | eight pushes leave the PUSHAD frame, with the old stack pointer in its place |
| ContextSwitch.Machine.Popad | src/context_switch.s:15 | eight pops restore seven registers and skip the stack pointer |
| ContextSwitch.Machine.Switch | src/context_switch.s:10-16 | the six instructions have the effect of SwitchCpu and SwitchMem |
| ContextSwitch.Machine.SaveEsp | src/context_switch.s:12-13 | the stack pointer is stored where old_esp_ptr says |
| ContextSwitch.Machine.LoadAndReturn | src/context_switch.s:14-16 | the frame of the new stack is loaded and left |
| ContextSwitch.Machine.PrepareStack | src/process.c:113-117 | the loop leaves the prepared stack and the saved stack pointer |
| ContextSwitch.SwitchSaves | src/context_switch.s:10-16 | the old stack holds a frame of the caller's registers at its return address, *old_esp_ptr leads to it, nothing else changes |
| ContextSwitch.FrameWords | src/context_switch.s:11 | the nine words of the saved frame, in the order of PUSHAD |
| ContextSwitch.SwitchResumes | src/context_switch.s:10-16 | a switch to an intact frame continues with exactly the registers, stack pointer and address saved in it |
| ContextSwitch.FirstFrame | src/process.c:113-117 | the prepared stack is a frame with zeroed registers at the wrapper, its end the top of the stack |
| TaskSwitching.StepKeeps | src/context_switch.s:10-16 | computing, switching, starting, stopping and taking over a slot keep every suspended task's frame intact; a switch resumes the target's context |
| TaskSwitching.ContextWaits | src/context_switch.s:10-16 | over any run of the others a suspended task keeps its context |
| TaskSwitching.SavesAndResumes | src/context_switch.s:10-16 | a task switched back in after any run continues at its own return address with the registers and stack pointer of its call |
| TaskSwitching.StartsInWrapper | src/process.c:113-117 | the first switch into a started task enters the wrapper with zeroed registers and stack pointer at kstack + KSTACK_SIZE |
| Multitasking.NewStackApart | src/process.c:82-95 | the stack a spawn allocates lies apart from every live stack and from every saved_esp field, in every sound state |
| Multitasking.ActAllowed | src/process.c:174-208 | everything the scheduler does to the machine is safe for the suspended tasks |
| Multitasking.LeaverKeepsPage | src/process.c:19-24 | the page of a task that returns from its entry becomes the stack of slot 0, and no slot owns it |
| Multitasking.MoveKeeps | src/process.c:174-208 | every move, returns of tasks included, leads from a sound world to a sound one, and a switch resumes the context kept for its target |
| Multitasking.Dispatches | src/process.c:198-207 | a dispatch gives the processor to the PID that schedule chose, with that PID's context |
| Multitasking.ResumesItself | src/process.c:174-208 | a process switched away from and dispatched again after any run, with spawns, kills and returns of others, goes on at its return address with its registers and stack pointer |
| Multitasking.LeaverGoesOnAsKernel | src/process.c:19-24 | a task that returned from its entry goes on behind its own yield when PID 0 is dispatched next |
| Multitasking.StartsFresh | src/process.c:113-117 | the first dispatch of a spawned process enters the wrapper with zeroed registers at the top of the page its spawn took |
| Multitasking.CanCall | src/process.c:206-207 | with 44 bytes of stack the running task can always reach the call of context_switch, whatever its target, without touching others |
| Multitasking.ThereAndBack | src/process.c:174-208 | with the shell and one READY task there is a run from the shell to the task and back, so the hypotheses of ResumesItself can be met |
| Multitasking.BootWorld | src/kernel.c:27-95 | the state after pmm_init with a right counter, process_init and switching scheduling on is a sound world |
| FsInstances.BlankIsFresh | src/fs.c:12-21 | the tables before the calls that fs_init makes are a state from which the following runs start |
| FsInstances.DotDotIsNotEntered | src/fs.c:145-150 | `mkdir ..` then `cd ..` stays in the root |
| FsInstances.RefusedOpenCreates | src/fs.c:187-202 | with 16 descriptors open, an open with O_CREAT is refused with -EMFILE and leaves the new file |
| FsInstances.DescriptorOnDirectory | src/fs.c:275-281 | open, unlink, mkdir: the descriptor is on the directory |
| FsInstances.OpenForWriting | src/fs.c:183-208 | creating a file and opening it gives descriptor 0 onto the empty file in slot 1 |
| FsInstances.EmptyWriteGrows | src/fs.c:238-246 | seek to 5 in an empty file, write nothing: 5 bytes |
| FsInstances.RefusedAppendMoves | src/fs.c:238-239 | a refused append to a full file moves the offset from 0 to 4095 |
| FsInstances.NewlineMisread | src/shell.c:449-450 | a file whose name holds a newline is among the entries the file browser parses |
| FsInstances.CrowdDoesNotFit | src/fs.c:118 | with 54 files of 31-character names some are left out of 2048 bytes |
| SchedInstances.SleepZeroNeverEnds | src/process.c:160-163 | a spawned process that sleeps 0 ticks at tick 0 is BLOCKED for good |
| SchedInstances.PageIsLost | src/process.c:19-23 | a spawned process that returns leaves a page lost in every further run |
| SchedInstances.StackGivenAway | src/process.c:123-134 | a spawned process that kills itself has its stack handed to the next spawn |
| Keyboard.PushAppends | src/keyboard.c:29-35 | a push appends to the queue, and is dropped exactly when 255 characters are queued |
| Keyboard.ReleaseTakesOldest | src/keyboard.c:86-92 | the character handed over is the oldest one, whatever was pushed since it was read |
| Keyboard.FetchKeeps | src/keyboard.c:86-89 | reading the character takes nothing from the queue, and waits exactly while it is empty |
| Keyboard.Fifo | src/keyboard.c:29-92 | under every interleaving delivered followed by queued is accepted, in order |
| Keyboard.FifoFromStart | src/keyboard.c:29-92 | in particular from the empty ring, which never holds more than 255 |
| Keyboard.KeyboardBuffer.KbPush | src/keyboard.c:29-35 | new state is Push |
| Keyboard.KeyboardBuffer.HasChar | src/keyboard.c:82-84 | true exactly when the queue is not empty |
| Keyboard.KeyboardBuffer.GetCharFetch | src/keyboard.c:87-89 | the first of the queue |
| Keyboard.KeyboardBuffer.GetCharRelease | src/keyboard.c:90-91 | the queue loses exactly the character that was read |
| Decimal.PrintInt | src/kprintf.c:5-12 | the recursion emits a minus sign for negative values and the decimal digits |
| Decimal.Atoi | src/string.c:63-74 | the value of the text: spaces, a sign, digits, the rest ignored; Overflow where C leaves it undefined |
| Decimal.ReadDigits | src/string.c:69-72 | the digit loop gives the value of the leading digits, or stops where an int would overflow |
| Decimal.ValueOfDigits | src/string.c:69-72 | the digits of n, whatever non-digit follows, are worth n |
| Decimal.PrintThenAtoi | src/string.c:63-74 | atoi of what the printers emit is the value, for every int above the least one, whatever non-digit follows |
| Decimal.AtoiReads | src/string.c:63-74 | spaces, a sign and the digits of n read as n, negated for a minus sign only, and overflow exactly above the largest int |
| Decimal.AtoiOfNoDigits | src/string.c:63-74 | without digits behind spaces and sign the result is 0 |
| Decimal.NoLeadingZero | src/kprintf.c:10-11 | the printed digits begin with 0 exactly for 0 |
| Decimal.PadInt | src/shell.c:551-564 | the divide-and-reverse loop emits the same digits as print_int and then spaces up to the width |
| Decimal.FillDigits | src/shell.c:556 | the loop ends with all digits, last first; its bound of 15 is never reached |
| Decimal.ReversePrefix | src/shell.c:560 | the swaps reverse the prefix and keep the rest |

## Left out

- VGA terminal, colours, pager, menus, games, login, help and boot banner: user interface. The tree walk keeps which node is printed at which depth, not the text of its lines.
- Port I/O, interrupt controller, descriptor tables, real-time clock: hardware. Timer interrupts and key presses are events.
- Scancode translation in `keyboard_callback`: table lookups in front of `kb_push`.
- The wrappers of `src/syscall.c`: forwarding only; exits and kills are events of the scheduler model.
- `process_create`: makes a process without a stack that could never be switched to, and nothing in the shell calls it.
- Process names, priorities and creation ticks, and the kernel log: written, never used for a decision.
- `fs_stat`, `fs_getcwd`, `fs_pwd`, `fs_get_node` and the node counts: they only read one node or count, and would add easy members.
- `print_uint`, `print_hex` and the format loop of `kprintf`: easier than `print_int`.
- 32-bit wrap of ticks, PIDs and wake ticks: assumed not to happen.
- Interrupts inside `schedule` and `process_sleep` when called voluntarily: each event is atomic.
- What a process does after it has killed itself, beyond the events of the model: it runs on a page that may be handed out again, the context saved for it goes to slot 0, and its own return would write to a slot that may have been reused.
- EFLAGS: not saved by the code, so nothing is claimed about it.
- `saved_esp` in `Process.Kernel` is set by the spawn only; its later values live in the memory of `ContextSwitch`. `Multitasking` joins the two: it assumes that a running task writes neither to other stacks nor to the `saved_esp` fields, and that `schedule` passes the right two arguments on a stack with room for the frame.
- Multitasking.ResumesItself: runs in which a process kills itself are excluded, because the source then frees a stack that is still in use and may hand it out (`StackPages.SelfKillFreesStack`). For PID 0 itself, moves that give it the context of a task that returns count as disturbing it.
- Multitasking.StartsFresh: the same runs are excluded.
- Multitasking.LeaverGoesOnAsKernel: the same runs are excluded; a later return of another task replaces the context.
- A boot without a Multiboot loader, which skips `pmm_init`: the stack results assume the allocator state that `pmm_init` leaves for a sane memory map.
- The raw pointer walk over the memory map with entry sizes: the map is a sequence of entries.
- Names and buffers that are not NUL-terminated or too short: undefined in C, excluded by preconditions; so is `fs_read_file` with a buffer of length 0.

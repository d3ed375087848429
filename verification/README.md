# LobsterOS: a verified model

A Dafny 4.11 model of the parts of the LobsterOS kernel that carry an invariant, with proofs of
what they keep over every input and every run. `dafny verify dfyconfig.toml` checks all of it.

| file | what it models |
|---|---|
| `Paging.dfy` | physical memory as page tables, the hardware walk, the mapper's `map_to` |
| `MapToExact.dfy` | the answer of `map_to` and every entry it writes |
| `AddressSpace.dfy` | the invariant of a process address space beside the kernel's, and mappings made in it |
| `Descent.dfy` | what any mapping does to the tables it descends through |
| `Process.dfy` | `new_page_table`, `map_stack`, the mapping half of `spawn_from_file` |
| `Spawn.dfy` | `spawn_from_file` from end to end: tables, stack and the loader's mappings |
| `SpawnExamples.dfy` | memories in which it writes a kernel table |
| `Memory.dfy` | the two frame allocators and the hand-off between them |
| `BootHeap.dfy` | `init_heap` on the first allocator, and what the hand-off does to the heap |
| `FixedBlock.dfy` | the kernel heap as an accounting of blocks |
| `IntrusiveLists.dfy` | the same heap in memory: list heads and links inside the free blocks |
| `Executor.dfy` | the async executor, the scancode stream and the keyboard interrupt, interleaved |
| `ExecutorLoop.dfy` | `run_ready_tasks` as it runs: which tasks it polls, in what order, and how it stops |
| `ExecutorProgress.dfy` | what executor and keyboard get done: scancodes handed on, sleep and waking |
| `RoundRobin.dfy` | the scheduler's selection loop and the rotating queue it implements |
| `Scheduler.dfy` | the scheduler's operations, as functions and as a class |
| `SchedulerRuns.dfy` | what holds over whole runs of the scheduler |
| `SchedulerPromises.dfy` | what it promises a process: to be entered, its quantum, how it leaves |
| `Fat.dfy`, `FatDirectory.dfy` | cluster arithmetic, file contents, the recursive directory parser |
| `Utf8.dfy` | the check of file names |
| `FatEntry.dfy` | directory entries field by field |
| `FatTree.dfy` | a directory tree written to a disk, and what the parser makes of it |
| `FatVolume.dfy` | the boot sector, `init`, and reading a file by its entry |
| `Elf.dfy` | the ELF segment loader and when it completes |
| `ElfImage.dfy` | what is in memory when it has completed |
| `ElfExamples.dfy` | accepted files for which that is not what the ELF specification wants |
| `ElfLoader.dfy` | the loader's loops, on a page table and frames |
| `Vga.dfy` | the VGA text writer |

## Main results

- **Address spaces.** A process sees the kernel's translation everywhere outside 2 MiB..1 GiB, no
  sequence of mappings inside that window writes a table in use (`SpawnIsolation`), and earlier
  processes stay isolated (`SpawnKeepsOthers`). For a file the loader accepts this holds of the whole of
  `spawn_from_file`, and the process has its stack and its segments' pages, each in its own frame, and
  nothing else (`SpawnFromFile`). Two things the code does not see to are needed for this.
  The frame taken for `page_table_0_0` must be clean, because the code does not zero it:
  `StaleWindowEntry` gives the exact condition for one mapping, `StackSparesIff` for all of `map_stack`,
  and `StaleEntryExample` a memory in which the first stack mapping writes a kernel table. And the
  pages must be in the window, which the ELF loader does not check: `IsolatedSparesIff` gives the
  exact condition for any page and `OutsideWindowExample` one that writes a kernel
  table. `SpawnSparesIff` is the exact condition for both at once, over a whole run. Under all of this is the
  exact effect of one `map_to` on any tree of tables (`MapToIsExact`).
- **Boot.** The hand-off between the frame allocators issues one frame twice
  (`HandOffDistinctIff`), and that frame is the one behind the last page of the kernel heap
  (`HeapUses259Frames`, `BootAndAllocate`). So the frame allocators' contract, which the previous point relies on,
  does not hold for the first frame issued after boot; skipping one more frame restores it
  (`RepairedHandOff`).
- **Heap.** Over every run of paired calls, arbitrary client writes to live blocks and arbitrary fallback
  writes to ungranted space, the nine lists threaded through freed memory stay the stacks they should
  be, and every granted byte has exactly one owner (`RunKeeps`, `ByteHasOneOwner`, `ClientWrites`). Freeing
  a block makes it dead, on its list or back with the fallback, and undoes its allocation
  (`DeallocFrees`, `AllocThenFreeRoundTrip`, `FreeThenAllocRoundTrip`).
- **Executor and keyboard.** No wake-up is lost in any interleaving, and the processor halts only when
  nothing is runnable and every accepted scancode has been consumed (`NoLostWakeup`,
  `HaltOnlyWhenNothingToDo`). Conversely an idle machine does halt, a key gets it going again, and every
  scancode let in can be handed on (`IdleHalts`, `KeyEndsSleep`, `KeyIsHanded`). The loop polls the oldest
  queued live task each time, until the queue is empty (`RunReadyTasks`, `PollsOldestLive`, `LoopStops`).
- **Scheduler.** The cursor over the reaped deque is a rotating queue (`SelectOnRing`); a READY task waits
  at most 20 ticks per place in it (`BoundedWaiting`), so every process pushed is entered at its entry
  point (`PushedIsEntered`); contexts are resumed as saved (`ContextsAreLawful`). A blocked process never
  runs again (`ParkedForever`), ending the last process never returns (`NoRunnableNeverReturns`,
  `LeavingParks`), and a process ended from outside can run again if and only if it is the current one
  (`EndedRunsAgainIff`, `DoneUndoneIff`).
- **File system.** Take a directory tree, encode it field by field with its deleted and dot entries, and put
  the bytes on a disk in consecutive clusters: the parser returns exactly its files and subdirectories
  (`TreeIsParsed`), `init` does so from the boot sector on (`Init`), and a file's contents are read back
  from its entry (`FileIsRead`). The parser returns nothing but such trees (`ParsesIff`). It stops on a disk
  if and only if the disk holds a finite directory (`ParserStopsIff`), which the disk decides
  (`LayoutIsUnique`).
- **Loader.** The exact set of header lists the loader accepts, in 64-bit arithmetic and with the frames
  `map_to` takes for tables (`LoadAllIff`); for segments in address order this means every segment is
  smaller than a page (`AscendingCompletesIff`). What every mapped byte then reads (`FinalImage`), so
  that the image is the file (`LoadedImage`). Each new page has its own frame (`OwnFrames`). Three things
  the ELF specification wants are not so in general: a segment is loaded exactly under the condition
  of `LoadedIff`, which leaves out the last page of the address space (`LastPageExample`), it is zero
  beyond its file size exactly under that of `ZeroFilledIff` (`ZeroFillExamples` break it), and it is
  mapped whole exactly under that of `CoveredIff` (`UncoveredExample`).
- **Screen.** The buffer is always the last 25 rows of a tape that never scrolls (`WriteText`,
  `TextOnTape`, `MissedCells`).

## Reading the model

- Frames, addresses, pids and ids are unbounded naturals. Wrap-around is written out where the code
  depends on it: the scheduler's cursor and the loader's sizes and addresses (64 bits), the FAT
  arithmetic (16 and 32 bits). It wraps as in a build without overflow checks; `UnderflowsIff` says
  when the scheduler would fail with them. Pids and ids are not wrapped.
- `map_to`, the fallback heap, the queues and the waker belong to other crates. `map_to` is written out
  step by step as that crate documents it; the fallback heap is a contract (`MayGrant`) on the answers
  it may give; queues and waker are atomic operations of the state machine.
- A frame supply is the sequence of frames `allocate_frame` will return. What an operation finds in the
  processor's registers, in an unzeroed frame or in the answer of the fallback heap is a parameter.
- The scheduler's selection loop and the directory parser need not end. Their methods take a number of steps
  to watch, any number, and say what has happened by then; `NoRunnableNeverReturns`, `StepKeepsInv` and
  `ParserStopsIff` say when they never end.
- The comment in `end_current_task` expects to reach its `hlt_loop` when no process is left. The code
  does not; the model follows the code.

## Model

| member | source | states |
|---|---|---|
| Paging.WindowIs2MiBTo1GiB | src/process.rs:118-152 | the addresses below L4[0] -> L3[0] outside its first entry are exactly 2 MiB..1 GiB |
| Paging.UntouchedTree | src/process.rs:128-151 | if no table under a root is written, the tree of tables and every translation through that root stay as they were |
| Paging.SplitJoins | src/process.rs:118-152 | an address is its four indices and its offset, cut at bits 39, 30, 21 and 12 |
| Paging.LeafTranslates | src/process.rs:128-151 | the last entry of a walk sends a 4 KiB, 2 MiB or 1 GiB stretch of addresses to an aligned physical stretch of that size, byte for byte |
| MapToExact.MapToIsExact | src/process.rs:166-176 | for any page, tree of tables and supply of unused frames: which of the three errors `map_to` gives, or that it succeeds; then each table on the way leads to the next, writable, and for user code iff asked or already so; new tables are otherwise empty, every other entry is kept, and the page translates to the frame |
| AddressSpace.OutsideWindowIsKernel | src/process.rs:132-152 | a space that shares the kernel's subtrees by pointer translates every address outside the window as the kernel does |
| AddressSpace.WindowMapTo | src/process.rs:166-176 | a `map_to` of a window page, whatever its outcome, keeps kernel tables and sharing; it succeeds iff the page is unmapped and a level-1 table is at hand, and changes that page's translation only |
| AddressSpace.WindowMapToUser | src/process.rs:142-176 | a successful window mapping is writable and user-accessible at every level, although `page_table_0[0]` is created without the USER flag |
| AddressSpace.WindowRun | src/process.rs:158-178 | a whole run of window mappings keeps kernel tables, sharing and earlier mappings, and gives every page its own frame |
| Process.Machine.CopyUpper | src/process.rs:132-139 | the copy loop changes entries 1..512 of one table to those of another and nothing else |
| Process.Machine.ShareUpper | src/process.rs:116-139 | the first half: the level-4 table and `page_table_0` hold the kernel's entries but for entry 0, and nothing else is written |
| Process.Machine.NewPageTable | src/process.rs:111-156 | None iff two frames cannot be had; otherwise exactly the three tables are written as described; never a table in use |
| Process.Machine.MapStack | src/process.rs:158-178 | the stack loop is the run of mappings over pages 0x800000..=0x810000, stopping at the first failure |
| Process.StackIs68KiB | src/process.rs:158-178 | the stack's pages hold exactly the addresses 0x800000..0x811000 |
| Process.StackNeedsEighteenFrames | src/process.rs:158-178 | in a fresh space the stack mapping completes iff 18 frames are left |
| Process.BuiltIsIsolated | src/process.rs:111-156 | with truly unused frames and a clean window frame, `new_page_table` establishes the isolation invariant |
| Process.SpawnIsolation | src/process.rs:111-178 | after building the tables and mapping any window pages: no table in use is written, so every other address space translates as before; the kernel's translation outside the window; nothing but the pages asked for inside it, each with its own frame |
| Process.SpawnKeepsOthers | src/process.rs:111-178 | spawning another process keeps every earlier one isolated and its translations unchanged |
| Process.SpawnSparesIff | src/process.rs:58-108 | for any pages and any contents of the unzeroed frame, the tables in use are spared iff each descent of the run spares them |
| Descent.MapToSparesIff | src/process.rs:166-176 | a mapping of any page leaves a set of tables alone iff its descent writes no new entry into one of them and finds its flags already set where it passes through one |
| Descent.IsolatedSparesIff | src/elf.rs:160-169 | in a process address space a mapping leaves the kernel's tables alone iff the page is in the window, or the kernel has nothing or a huge page where the shared part begins, or the descent below that spares them |
| Descent.RunSparesIff | src/process.rs:158-178 | a run of mappings leaves a set of tables alone iff each of its descents does |
| SpawnExamples.OutsideWindowExample | src/elf.rs:160-169 | a kernel with a heap table, what `new_page_table` makes of it with clean frames, and one mapping outside the window writing that table |
| Process.StackSparesIff | src/process.rs:142-178 | on a space as `new_page_table` leaves it, `map_stack` spares the tables in use iff no frame is left, or slot 4 of the unzeroed frame does not lead to a table in use whose first entry is free |
| Spawn.PlanIsMapped | src/elf.rs:153-175 | the loader's account of pages, frames and supply is what `map_to` does over the plan's pages: every mapping succeeds, with those frames, leaving that supply |
| Spawn.SpawnFromFile | src/process.rs:58-108 | tables, stack and loader together, for headers in the window: no table in use is written, every other space translates as before, the kernel's translation outside the window, and inside it the stack and the segments' pages, each in its own frame, and nothing else |
| Process.StaleWindowEntry | src/process.rs:146-152 | whatever `page_table_0_0` held before, a window mapping spares the kernel's tables iff the stale entry it descends through does not lead to a kernel table with a free slot |
| SpawnExamples.StaleEntryExample | src/process.rs:142-152 | a memory that keeps all the allocators' promises, what `new_page_table` makes of it, and the first stack mapping writing a kernel table |
| FrameAllocators.UsableFramesExact | src/memory.rs:58-65 | over disjoint page-aligned regions the enumeration holds every usable frame exactly once |
| FrameAllocators.UsableFramesIncrease | src/memory.rs:58-65 | over a memory map in address order the enumeration increases |
| FrameAllocators.LinearFrameAllocator.AllocateFrame | src/memory.rs:112-117 | the counter is incremented first, so the k-th call returns usable frame k |
| FrameAllocators.BuddyAllocator.AllocateFrame | src/memory.rs:68-72 | the iterator's next frame, or nothing at its end |
| FrameAllocators.Boot | src/lib.rs:86-95 | k linear allocations issue frames 1..k, their successor issues frames k onward |
| FrameAllocators.HandOffOverlap | src/lib.rs:86-95 | a frame is issued by both allocators iff it is frame k, both were used and it exists |
| FrameAllocators.HandOffDistinctIff | src/lib.rs:86-95 | all issued frames are distinct iff the linear allocator was unused or exhausted or its successor is unused |
| FrameAllocators.RepairedHandOff | src/memory.rs:44-55 | skipping one frame more makes all frames of every boot distinct; frame 0 is issued only if the linear allocator is unused |
| BootHeap.InitHeap | src/allocator.rs:15-45 | the heap-mapping loop is the run of mappings over the 256 heap pages, and on success the allocator's count is exactly the frames taken |
| BootHeap.HeapUses259Frames | src/allocator.rs:15-45 | `init_heap` succeeds iff there are 260 usable frames, and uses 259: frames 2, 3 and 4 for its tables, frame 1 behind its first page and frame i + 4 behind page i |
| BootHeap.HeapNotContiguous | src/disk.rs:439-450 | over a memory map in address order the first two heap pages are never physically adjacent, which a transfer from one translated address across them takes for granted |
| BootHeap.BootAndAllocate | src/lib.rs:86-95 | heap, hand-off by the allocator's own count and one more allocation: it succeeds iff there are 260 usable frames, and the frame then issued backs the last heap page |
| FixedBlock.BlockIndexFrom | src/allocator/fixed_block.rs:89-92 | the first class that is large enough, or none if none is |
| FixedBlock.BlockSizesDouble | src/allocator/fixed_block.rs:6 | the classes are 8, 16, ... 2048, and a layout has one iff neither its size nor its alignment exceeds 2048 |
| FixedBlock.BackingFits | src/allocator/fixed_block.rs:35-40 | what the fallback is asked for suits the request: at least its size, and any address aligned for the class is aligned as asked |
| FixedBlock.AllocKeeps | src/allocator/fixed_block.rs:45-65 | `alloc` keeps the accounts exact whatever the fallback answers |
| FixedBlock.DeallocKeeps | src/allocator/fixed_block.rs:67-86 | `dealloc` keeps the accounts exact, and gives the fallback only what it granted, under the same layout |
| FixedBlock.AllocGives | src/allocator/fixed_block.rs:45-65 | null iff the fallback was asked and refused; otherwise aligned, large enough, inside the heap, new, and disjoint from all live and free blocks |
| FixedBlock.DeallocFrees | src/allocator/fixed_block.rs:67-86 | a freed block is not live and every other live block keeps its layout; up to 2048 it stays granted and is on a list, beyond that the fallback has it back, the lists are as before and it may be granted again |
| FixedBlock.AllocThenFreeRoundTrip | src/allocator/fixed_block.rs:45-86 | freeing a large block just taken from the fallback restores the heap |
| FixedBlock.FreeThenAllocRoundTrip | src/allocator/fixed_block.rs:45-86 | allocating in the class of a block just freed returns that block and restores the lists |
| FixedBlock.ByteHasOneOwner | src/allocator/fixed_block.rs:44-87 | every granted byte is in exactly one live block or exactly one block of exactly one list |
| FixedBlock.RunKeeps | src/allocator/fixed_block.rs:44-87 | over every run of paired calls the accounts stay exact and class blocks never return to the fallback |
| IntrusiveLists.ThreadedFrame | src/allocator/fixed_block.rs:8-15 | a list depends only on the first words of its own blocks |
| IntrusiveLists.FixedBlockAlloc.Alloc | src/allocator/fixed_block.rs:45-65 | popping through memory is popping the abstract stack; no word but the returned block's first changes, and that is cleared |
| IntrusiveLists.FixedBlockAlloc.Dealloc | src/allocator/fixed_block.rs:67-86 | writing a node into the freed block is pushing on the abstract stack; no other word changes, and the block is no longer live |
| IntrusiveLists.FixedBlockAlloc.ClientWrites | src/allocator/fixed_block.rs:44-87 | anything a client writes into a block it holds leaves all nine lists intact |
| IntrusiveLists.FixedBlockAlloc.FallbackWrites | src/allocator/fixed_block.rs:35-40 | anything the fallback writes outside its grants leaves all nine lists intact |
| IntrusiveLists.ClientMissesLists | src/allocator/fixed_block.rs:44-87 | a write inside a live block cannot reach a link of any list |
| Executor.StepKeepsInv | src/task/executor.rs:25-75 | every step of every interleaving keeps the joint invariant of executor, stream and interrupt |
| Executor.NoLostWakeup | src/task/keyboard.rs:15-73 | if the keyboard task is neither polled nor queued, the scancode queue is empty, or the interrupt is between push and wake with the waker in place, or holds the waker |
| Executor.HaltOnlyWhenNothingToDo | src/task/executor.rs:57-75 | the executor halts only when every live task is pending and unwoken and every accepted scancode has been consumed |
| Executor.ScancodesInOrder | src/task/keyboard.rs:15-73 | scancodes are consumed in arrival order, none lost or repeated; cached wakers belong to live tasks |
| Executor.CompletedNeverPolled | src/task/executor.rs:33-55 | a completed id stays completed and is never polled again, in any continuation |
| Executor.TasksConserved | src/task/executor.rs:25-55 | every id ever spawned is live or completed and not both; the queue holds at most 100 |
| ExecutorLoop.LoopStops | src/task/executor.rs:33-55 | the loop goes on until the queue is empty or the script of poll results is used up; it panics only at a full queue |
| ExecutorLoop.LoopIsFifo | src/task/executor.rs:38-55 | what is left in the queue is what arrived last, without a gap, and all of it unless a wake was refused |
| ExecutorLoop.PollsOldestLive | src/task/executor.rs:38-47 | the ids polled are, in order, the popped ones whose tasks have not finished by then |
| ExecutorLoop.LoopDoesScript | src/task/executor.rs:47-53 | the i-th poll makes the wakes of its script in order and ends Ready iff the script says so; a panic cuts this short |
| ExecutorLoop.LoopRemovesFinished | src/task/executor.rs:48-51 | the tasks left are those there were, without the ones whose poll ended Ready |
| ExecutorLoop.TaskExecutor.SpawnTask | src/task/executor.rs:25-31 | fails iff 100 ids are queued; otherwise the task is in the map and at the back of the queue, and this is the spawn step of the state machine |
| ExecutorLoop.TaskExecutor.WakeAll | src/task/executor.rs:82-92 | the queue is the old one followed by the wakes, or by the prefix of them that filled it, and then it panics; a run of wake steps |
| ExecutorLoop.TaskExecutor.PollTask | src/task/executor.rs:47-53 | a poll's wakes, and then task and waker removed iff it ended Ready |
| ExecutorLoop.TaskExecutor.RunReadyTasks | src/task/executor.rs:33-55 | for any script of poll results it ends as the account of the loop says, polls and pops included; this is a run of the state machine, and with an empty queue every live task is pending and unwoken |
| ExecutorProgress.KeyAccepted | src/task/keyboard.rs:15-25 | a scancode is let in iff the queue is set up and holds fewer than 100, and is dropped otherwise |
| ExecutorProgress.ScancodesAreHanded | src/task/keyboard.rs:55-74 | from every state of the invariant with room in the task queue some continuation hands the keyboard task everything accepted |
| ExecutorProgress.KeyIsHanded | src/task/keyboard.rs:15-74 | a scancode let in is handed to the keyboard task in some continuation, as the last of those accepted |
| ExecutorProgress.IdleHalts | src/task/executor.rs:57-75 | with nothing queued and no interrupt under way the executor halts in three steps and changes nothing else |
| ExecutorProgress.SleepsIff | src/task/executor.rs:68-73 | with interrupts off it halts iff the task queue is empty |
| ExecutorProgress.InterruptWakes | src/task/keyboard.rs:15-25 | with the waker in place the interrupt queues the scancode and the task |
| ExecutorProgress.KeyEndsSleep | src/task/keyboard.rs:15-74 | a key pressed in any reachable halted state wakes the keyboard task, which takes the scancode at its first pop |
| ExecutorProgress.BootComesToSleep | src/task/executor.rs:16-75 | from boot with the keyboard task alone the machine comes to sleep with that task's waker in place |
| RoundRobin.TurnRotates | src/threading/scheduler.rs:107-124 | one turn of the loop drops a DONE head of the visiting order, sends a WAITING head to the back, and otherwise stops at the head |
| RoundRobin.SelectOnRing | src/threading/scheduler.rs:102-125 | selection returns the first READY task in cyclic order, drops exactly the DONE tasks before it and keeps the rest in order |
| RoundRobin.SelectMembers | src/threading/scheduler.rs:102-125 | selection invents no task and drops only DONE ones |
| RoundRobin.SelectOutcome | src/threading/scheduler.rs:102-125 | with nothing RUNNING selection cannot panic, is endless iff nothing is READY, and keeps pid order |
| RoundRobin.NoRunnableNeverReturns | src/threading/scheduler.rs:102-125 | with no READY or RUNNING task no number of turns returns, even after the deque is empty |
| RoundRobin.RunnableReturns | src/threading/scheduler.rs:102-125 | otherwise the loop stops on the turn that visits the first runnable task |
| RoundRobin.UnderflowsIff | src/threading/scheduler.rs:107-124 | under checked arithmetic the decrement fails within n turns iff slot 0 holds a DONE task, the scan reaches it before a runnable one, and does so within n turns |
| Scheduler.SwapOutcome | src/threading/scheduler.rs:85-100 | a switch never panics, spins iff no task is READY, and otherwise leaves exactly the chosen task RUNNING under the cursor |
| Scheduler.TaskScheduler.TakeTurn | src/threading/scheduler.rs:107-124 | one turn with its wrapping index, as a turn of the loop's specification |
| Scheduler.TaskScheduler.GetNextTask | src/threading/scheduler.rs:102-125 | for any number of turns watched: if the loop has ended it computed the selection, and after as many turns as tasks it is still turning iff it never ends |
| Scheduler.TaskScheduler.EnableTicks | src/threading/scheduler.rs:56-58 | ticks count from now on; nothing else changes |
| Scheduler.TaskScheduler.SwapTasks | src/threading/scheduler.rs:85-100 | save, reset, select, mark and activate, as one step; or still selecting |
| Scheduler.TaskScheduler.Tick | src/threading/scheduler.rs:60-75 | a tick never panics, keeps the invariant if it returns, and fails to return exactly when the specification spins |
| Scheduler.TaskScheduler.BlockCurrent | src/threading/scheduler.rs:77-83 | blocking never panics, keeps the invariant if it returns, and fails to return exactly when the specification spins |
| Scheduler.TaskScheduler.PushTask | src/threading/scheduler.rs:130-141 | a new READY task at the back, with its entry point, no context and a pid larger than all before; the cursor stays |
| Scheduler.TaskScheduler.EndTask | src/threading/scheduler.rs:146-152 | marks the named task DONE, and reports whether there was one |
| Scheduler.TaskScheduler.EndCurrentTask | src/threading/scheduler.rs:157-165 | panics iff there is no current task; otherwise marks it DONE and switches, or never returns exactly when the specification spins |
| Scheduler.StepKeepsInv | src/threading/scheduler.rs:60-165 | in every reachable state pids increase along the deque and only the task under the cursor is RUNNING, so the panic in selection is never reached; a step fails to return iff it leaves nobody to run |
| SchedulerRuns.ParkedForever | src/threading/scheduler.rs:77-152 | a WAITING or DONE task off the cursor is never activated again in any run |
| SchedulerRuns.LeavingParks | src/threading/scheduler.rs:77-165 | blocking or ending the current task activates another task and parks it for good, or never returns |
| SchedulerRuns.EndTaskMarksOne | src/threading/scheduler.rs:146-152 | `end_task` marks exactly the task with the pid it names |
| SchedulerRuns.EndedRunsAgainIff | src/threading/scheduler.rs:60-152 | after `end_task` some run activates the task again iff it is the current one |
| SchedulerRuns.CurrentComesBack | src/threading/scheduler.rs:60-125 | from any state, enabling ticks and waiting activates the current task again, whatever it is marked |
| SchedulerRuns.DoneUndoneIff | src/threading/scheduler.rs:60-165 | an operation undoes a DONE mark iff the mark is on the current task and the operation is a preempting tick or `block_current` |
| SchedulerRuns.EndedCurrentRevives | src/threading/scheduler.rs:67-73 | the DONE mark on a current task is undone when its quantum ends |
| SchedulerRuns.ContextsAreLawful | src/process.rs:239-329 | from boot on, a pid is given out once, a process starts at most once and at the entry point it was pushed with, is saved only once started, and is otherwise resumed from the context of its latest deactivation |
| SchedulerPromises.BootOrder | src/threading/scheduler.rs:11-22 | before anything has run the selection starts at the front of the deque |
| SchedulerPromises.PushWaits | src/threading/scheduler.rs:130-141 | a pushed task waits at most as many places as there are tasks before it |
| SchedulerPromises.PushedIsEntered | src/threading/scheduler.rs:60-141 | in every run from boot that does not end it and has 20 enabled ticks for each task before it, itself and each task pushed after it, a pushed task is entered at the entry point it was pushed with |
| SchedulerPromises.DisabledTick | src/threading/scheduler.rs:60-66 | a tick before `enable` changes nothing |
| SchedulerPromises.QuantumIsTwenty | src/threading/scheduler.rs:60-75 | after a switch 19 enabled ticks only count, and the 20th saves the current task and activates one |
| SchedulerPromises.LeavingState | src/threading/scheduler.rs:77-165 | a task that blocks is kept as WAITING; one that ends is DONE, if it is still there |
| SchedulerPromises.PanicsIff | src/threading/scheduler.rs:60-165 | an operation panics iff it ends the current task where there is none, or pushes onto a deque of 2^64 - 2 tasks |
| SchedulerRuns.SwapAdvances | src/threading/scheduler.rs:85-125 | a switch activates a given READY task or brings it strictly closer to the front, reaping included |
| SchedulerRuns.WaitStep | src/threading/scheduler.rs:60-141 | each operation activates a waiting READY task or lowers its remaining ticks by one per enabled tick, a push adding at most one quantum |
| SchedulerRuns.BoundedWaiting | src/threading/scheduler.rs:60-141 | a READY task d places ahead runs within 20 * (d + 1 + pushes) enabled ticks |
| Fat.ClustersApart | src/fs.rs:125-136 | distinct clusters are disjoint sector ranges beyond the reserved sectors and the FATs |
| Fat.FirstSectorExact | src/fs.rs:125-136 | for clusters inside the volume the 32-bit arithmetic does not wrap |
| Fat.GetDataDefinedIff | src/fs.rs:137-144 | with 512-byte sectors `get_data` is defined iff the file takes at most 8192 sectors |
| Fat.GetDataReadsFile | src/fs.rs:120-145 | a file in consecutive clusters is read back as exactly its first file_size bytes |
| Fat.ReadByte | src/fs.rs:138-141 | byte i of a read is byte i % 512 of the sector i / 512 places on |
| Fat.RootDirSectorsIsCeiling | src/fs.rs:130-131 | a fixed root directory takes the fewest sectors that hold its entries, if the 16-bit sum does not wrap |
| Fat.DataBeginsAfterTables | src/fs.rs:125-136 | without one, cluster 2 begins exactly after the reserved sectors and the file allocation tables |
| Fat.FileByte | src/fs.rs:120-145 | byte i of a file, as a byte of a sector counted from the start of the disk |
| Utf8.Utf8Iff | src/fs.rs:106-114 | the name check accepts exactly the byte strings that are the UTF-8 form of some text |
| FatEntry.FieldsRoundTrip | src/fs.rs:60-118 | from an entry encoded field by field the reader gets back name, first cluster, size and the attributes it tests |
| FatEntry.EntryRoundTrip | src/fs.rs:88-103 | every 32 bytes are the encoding of some fields |
| FatTree.EncodedKind | src/fs.rs:204-231 | what the entry loop does with an entry, told from the fields it was written with |
| FatTree.TreeIsParsed | src/fs.rs:179-234 | on a disk that holds the encoding of a tree the parser returns exactly its files and subdirectories, with their fields and in their order, and panics iff a long name or a name that is no text is in it |
| FatTree.FinishedIsTree | src/fs.rs:179-234 | whenever the parser comes to its end the disk holds the encoding of a tree, and it has returned that tree |
| FatTree.ParsesIff | src/fs.rs:179-234 | the parser returns a list of trees iff they are the files and subdirectories of a tree the disk holds |
| FatVolume.BootRoundTrip | src/fs.rs:22-58 | the fields of a boot sector are read from where the format puts them |
| FatVolume.Init | src/fs.rs:148-170 | on a volume with such a boot sector whose root directory holds the encoding of a tree, that tree is read |
| FatVolume.FileIsRead | src/fs.rs:116-145 | a file whose contents lie in consecutive clusters is read back from its entry alone |
| FatDirectory.ParseDirectory | src/fs.rs:179-234 | on every disk the loops and the recursion compute the scan, for any number of steps watched |
| FatDirectory.LayoutStopsScan | src/fs.rs:179-234 | on a disk holding a finite directory the scan stops with exactly its visible entries in order, or panics exactly at a long or ill-formed name |
| FatDirectory.StoppedScanHasLayout | src/fs.rs:179-234 | wherever the scan stops, the disk holds a finite directory and that is what it has read |
| FatDirectory.ParserStopsIff | src/fs.rs:179-234 | on any disk the parser stops, with a tree or a panic, iff the disk holds a finite directory there |
| FatDirectory.LayoutIsUnique | src/fs.rs:179-234 | a disk holds at most one directory at a place |
| FatDirectory.NoLoopOnDisk | src/fs.rs:225-230 | no descendant of a finite directory lies at its ancestor's cluster, so a loop is not finite |
| Elf.MapSegmentIff | src/elf.rs:153-175 | the page loop completes iff the first page is recorded or can be mapped, tables included, and every later page it looks up was recorded before |
| Elf.CopySegmentIff | src/elf.rs:177-197 | the copy loop completes iff its copies, file_size + 1 bytes in all, stay inside mapped pages and the file, or `write_size` wraps to 0; and what memory then holds |
| Elf.VirtAddrExact | src/elf.rs:160-163 | an address is refused iff its top 17 bits are neither all equal nor 1; otherwise its low 48 bits are kept and the top ones made equal |
| Elf.FirstPageErrors | src/elf.rs:153-175 | which failure a segment's first page gives: no frame, a bad address, or a page already mapped |
| Elf.CopyErrors | src/elf.rs:177-197 | outside the first and last page, a copy leaves its bounds iff it does not fit page and file, and else faults iff the page is not mapped |
| Elf.LoadAllIff | src/elf.rs:141-198 | for all headers, the loader completes iff headers, pages, page tables, frames and file length satisfy an explicit condition |
| Elf.AscendingCompletesIff | src/elf.rs:141-198 | in address order, on unmapped canonical pages below the last, with frames, and with the copies of small segments in bounds, it completes iff every mem_size is below 0x1000; with a frame to spare, a larger segment fails at the second map of its first page |
| ElfImage.CompletedRegions | src/elf.rs:139-175 | on completion the recorded pages are exactly the segments' first pages, the new pages are distinct and backed as planned from the input, and `frames` lists those frames in order |
| ElfImage.OwnFrames | src/elf.rs:153-175 | if the allocator repeats no frame, no two new pages share one, and `frames` holds exactly the frames behind new pages |
| ElfImage.FinalImage | src/elf.rs:141-198 | after any accepted list of headers, every mapped byte reads what the last segment that writes it put there, and otherwise what its frame held |
| ElfImage.UnwrittenBytesStay | src/elf.rs:153-197 | a byte no segment writes is what it was, or in a page the loader mapped what the frame held |
| ElfImage.LoadedImage | src/elf.rs:141-198 | for accepted files with segments in address order and congruent offsets, file[offset + x] is at vaddr + x for every x below file_size, shared pages and extra bytes notwithstanding, unless `write_size` wraps |
| ElfImage.LastPageNotLoaded | src/elf.rs:177-197 | of any accepted list nothing is loaded into the last page of the address space: it reads what it did, or what its frame held |
| ElfImage.LoadedIff | src/elf.rs:141-198 | for accepted segments in address order with congruent offsets, unless file_size is 2^64 - 1: the mapped file part of a segment reads the file iff the segment is below the last page of the address space, or the file's bytes are there already |
| ElfExamples.LastPageExample | src/elf.rs:177-197 | an accepted segment in that page whose first byte is not the file's |
| ElfImage.ZeroFilledIff | src/elf.rs:177-197 | for accepted segments in address order with congruent offsets, unless `write_size` wraps: the mapped part of a segment beyond its file size is zero iff the extra byte copied is zero and the planned frames were zero behind it |
| ElfExamples.ZeroFillExamples | src/elf.rs:177-197 | it fails on the extra byte in zeroed frames, and on the frame's contents with a zero file |
| ElfImage.CoveredIff | src/elf.rs:151-175 | of an accepted list, a segment that ends inside the address space is mapped whole iff its addresses are canonical and it does not reach the page its loop leaves out, or that page is mapped anyway |
| ElfExamples.UncoveredExample | src/elf.rs:151-175 | an accepted segment that starts in the middle of a page and ends in an unmapped one |
| ElfLoader.ProcessImage.MapSegmentPages | src/elf.rs:153-175 | the page loop, on a page table and frames, computes the turns characterised by MapSegmentIff |
| ElfLoader.ProcessImage.CopyPage | src/elf.rs:180-196 | a write through one page changes what that page reads and no other |
| ElfLoader.ProcessImage.CopySegmentData | src/elf.rs:177-197 | the copy loop computes the turns characterised by CopySegmentIff |
| ElfLoader.ProcessImage.MapElfFile | src/elf.rs:129-201 | while the allocator keeps its contract, the nested loops over page table and frames compute the page-by-page account of LoadAll |
| Elf.FromSlice | src/elf.rs:102-123 | accepts exactly 64-byte little-endian x86-64 headers; an error names the first check that fails |
| Vga.WriteByteOnTape | src/display/vga_text.rs:111-129 | a byte advances the cursor as on an endless tape and changes the cell under it only |
| Vga.CursorFollows | src/display/vga_text.rs:132-140 | after any string the cursor is where wrapping at column 80 puts it |
| Vga.WrittenStays | src/display/vga_text.rs:111-165 | cells behind the cursor never change again on the tape, scrolling included |
| Vga.TextOnTape | src/display/vga_text.rs:132-140 | every byte of a string that is not a newline stands where wrapping at column 80 puts it, in the current colour: as itself from 0x20 to 0x7E, as a question mark otherwise |
| Vga.MissedCells | src/display/vga_text.rs:148-175 | a cell no byte lands on is as before, or in a row added by a scroll a space in the colour current at that scroll |
| Vga.Writer.SetColor | src/display/vga_text.rs:143-145 | only what is written from now on takes the new colour |
| Vga.Writer.ClearRow | src/display/vga_text.rs:167-175 | one row becomes blank in the current colour, the others stay |
| Vga.Writer.ScrollUp | src/display/vga_text.rs:157-162 | every row but the last takes the contents of the row below it |
| Vga.Writer.StartNewLine | src/display/vga_text.rs:148-165 | scrolling in place is moving a 25-row window down the tape by one blank row in the current colour |
| Vga.Writer.WriteOneByte | src/display/vga_text.rs:111-129 | the buffer stays the tape's last 25 rows and the cursor in bounds |
| Vga.Writer.WriteText | src/display/vga_text.rs:132-140 | for every string and every initial screen the buffer is the last 25 rows of the tape with the string written on it |

## Left out

- Access rights on the shared kernel pages, caching and dirty bits: the walk models presence, page size and
  addresses, and the flags of what `map_to` writes.
- The TLB, CR3 writes, interrupt flags and the assembly of `activate` and `deactivate`: only which context is
  saved or resumed is modelled, and `swap_tasks` is one step that ends at the activation.
- The spin locks, and `force_unlock` in `swap_tasks`.
- Overflow of the task queue: the machine has no step there, because the code panics.
- A keyboard task in `TaskExecutor`: the class runs tasks whose polls are opaque; the stream's steps are in the
  state machine only.
- The keyboard's shared statics as objects: because the interrupt can fall between any two of their operations, queue
  and waker are fields of the state machine's value, updated one atomic step at a time.
- Scheduler.TaskScheduler.PushTask: requires fewer than 2^64 - 2 tasks, which memory cannot hold.
- The loader's writes to read-only pages, and which of two errors a page under a huge page gives: such a page counts as
  mapped.
- ElfLoader.ProcessImage.MapElfFile: relies on frames that are distinct and unused, the contract of `allocate_frame`;
  what happens to the image after a hand-off that breaks it is not modelled.
- Decoding the ELF program header table from bytes, and reads beyond the end of the file.
- A boot sector with no bytes per sector or no sectors per cluster, with which the code divides by zero or asks for a
  transfer of no bytes.
- What `map_to` leaves behind in its tables when it fails, beyond `MapToSparesIff`.
- Where a disk transfer lands: `read_sectors` is a function from sectors to bytes, although its one descriptor takes
  the buffer for physically contiguous (`HeapNotContiguous`).
- FAT chains: the code assumes consecutive clusters, and so does the model; disk read errors are not modelled.
- AHCI, ACPI, PCI, GDT, IDT, system calls, serial output, colour packing and key decoding.

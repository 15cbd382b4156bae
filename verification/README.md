# A verified model of TXOS

TXOS is a small 32-bit kernel. This project models seven of its parts in Dafny and proves what
they promise, over every input and every run.

- **Address spaces** (`AddressSpaces`, `PageOps`, `PageLemmas`, `PageSteps`, `ForkSteps`, `UserSpace`, `FaultProofs`,
  `BrkProofs`, `ForkProofs`, `ExitProofs`, `CopyOnWrite`, `Memory`): frames with 8-bit reference counters, two-level page
  tables with write bits, a bitmap of mapped pages and a heap limit for each task. Sharing pages after fork and copying
  them on the first write is proved to be invisible: over every run it gives what copying every page at fork would give.
  Paging follows sections 4.3 and 4.7 of the Intel 64 and IA-32 Architectures Software Developer's Manual, volume 3A.
- **Buffer cache and inode table** (`CacheModel`, `CacheLayout`, `CacheProofs`, `CacheRuns`, `BufferCache`,
  `InodeModel`, `InodeProofs`, `InodeReferences`, `InodeCache`): hash chains, a free list in order of release, dirty and
  valid bits. The cache is proved to be a plain disk with stable handles, and in-memory inodes to pin their buffers.
- **Processes** (`TaskModel`, `TaskInv`, `TaskSteps`, `TaskSleep`, `TaskFamily`, `TaskRuns`, `TaskTheorems`,
  `TaskQueues`, `TaskExamples`, `Scheduler`): the process table, fork, exit and waitpid, the scheduler, blocking queues
  and sleeping. A step is what one task does up to a switch, or a clock interrupt.
- **Mutex and reentrant lock** (`MutexModel`, `MutexProofs`, `MutexQueues`, `MutexStarvation`, `MutexLock`): any number of
  threads, one statement at a time.
- **Elevator** (`ElevatorModel`, `ElevatorProofs`, `ElevatorSweeps`, `RequestQueue`): the request list of a block device.
- **Kernel heap** (`Bitmaps`, `HeapModel`, `HeapSteps`, `HeapTheorems`, `HeapUse`, `HeapOrder`, `KernelPages`,
  `KernelHeap`): arenas of equal blocks over a page bitmap.
- **Block map** (`BlockMapModel`, `BlockMapProofs`, `BlockMapTree`, `BlockMapTheorems`, `BlockMapFiles`, `FileSystem`):
  zone allocation and the tree of index blocks, proved to give files that are independent arrays of blocks.

In all of them a kernel list is a sequence of the places of its nodes, with the operations of `Lists`. That src/lib/list.c
does just these operations on its sentinels and links is proved by itself, pointer by pointer, in `LinkedList`.

Each part has the same shape. The state is a value, and each operation a function on it that follows the code branch by
branch; an `Option` result is `None` where an assertion of the kernel fails, it panics, or the comment says it sleeps. An
invariant is proved for every operation, then theorems about runs. Beside that stands a class with the kernel's own
fields, whose methods update them in place with the kernel's loops, each tied to its function.

## What the code does that its documentation does not say

- `task_search` (src/kernel/task.c:46-67) is meant to pick the best task by priority and by time since it last ran. It
  compares each task only with the one held so far, by either measure. `ChoiceIsBest` gives the exact condition under
  which it picks the best, `ChoiceCanBeOutdone` a run from start-up after which it picks a task that another beats
  in both.
- `task_sleep` (src/kernel/task.c:221-243) keeps the wake tick in the field of the time slice, and nothing resets it: a
  task that has slept has as many ticks as the clock had at its wake-up (`SleepIsExact`), and may run through that many
  interrupts (`SliceEnds`).
- `sys_fork` (src/kernel/task.c:406) sets the child's `jiffies`, where its comment speaks of the time slice; the child
  keeps the parent's remaining ticks. The model does what the code does.
- `balloc` (src/fs/fsmap.c:15-29) is meant to return 0 on a full disk. With fewer than eight zone maps it follows a null
  map instead; `BallocStep` says exactly when, and `FullDiskHalts` that every such disk gets there. Where it does return 0
  it has marked the first clear bit of every map, each beyond the last zone (`BallocFails`, `ClearIsBeyond`). It also gives
  the bits of a block where `bitmap_new` takes bytes; `PastTheMap` says exactly when that makes a difference.
- `get_pte` (src/kernel/memory.c:317-322) installs a frame as page table without clearing it. `NewTableInv` says exactly
  when that is harmless: when nothing in the frame reads as a present entry. Everything else is proved with an empty table.
- `kernel_vmap_init` (src/kernel/memory.c:294-298) rounds up to whole bytes, so the page bitmap may have bits for pages
  beyond the kernel's 16 MB; `KernelPages.VmapEnd` says exactly when it hands out none of them. The same bitmap covers the
  buffer area from 8 MB on and nothing marks its pages: `StepStaysBelow` says exactly when a heap page is clear of it, and
  `RunReachesBuffers` is a run that is not.
- `unlink_page` (src/kernel/memory.c:407-437) asks for the page table with `create`, so shrinking the heap can take frames
  and halt for want of one; `BrkStep` says exactly when, and `ShrinkCanHalt` is a run that gets there.
- `brelse` (src/kernel/buffer.c:196-199) pops the task that it wakes from its queue before `task_unblock`, whose
  `list_remove` asserts that the node is still linked: `WakeAfterPopFails`.
- `iget` (src/fs/inode.c:55-86) lets inode number 0 pass, and reads a block far behind the last inode for it;
  `InodeBlockLies` says that this is the only such number.
- The first byte of the user stack area is not part of it: the fault handler tests for an address above its bottom
  (src/kernel/interrupt.c:131), so a first touch of exactly that address panics: `StackBottom`.
- `next_request` (src/kernel/device.c:96-127) turns the direction at a list end even when nothing else is queued, so the
  first request after an idle time says nothing about the direction before it: `IdleTurns`.
- `mutex_release` (src/kernel/mutex.c:52-54) yields so that the thread it woke gets the mutex and does not starve. Yielding
  does not choose that thread: `CanStarve` is a run in which it is overtaken, and queued again, any number of times.
- `waitpid(-1)` stops at the first living child (src/kernel/task.c:487-505), so it can block while a child further up the
  table is dead. `WaitAnyTakesFirst` says exactly what it does, `WaitAnyCanMiss` is a run from start-up that
  gets it to block so.

## Model

| member | source | states |
|---|---|---|
| CopyOnWrite.CopyOnWriteIsDeepCopy | src/kernel/memory.c:440-498 | over every run of task creation, loads, stores, forks, brk calls and exits the kernel gives the results of a machine whose fork copies every page at once, and ends in a state that shows each task the same pages |
| CopyOnWrite.StepRefines | src/kernel/interrupt.c:101-137 | every single operation that the kernel completes is the operation of the copying machine, with the same result, and keeps the invariant |
| CopyOnWrite.Isolation | src/kernel/memory.c:479-493 | no run of other tasks changes a byte that a task reads, whatever pages they share |
| CopyOnWrite.FlattenAgrees | src/kernel/memory.c:440-459 | every state that satisfies the invariant stands for a state of the copying machine |
| CopyOnWrite.BootInv | src/kernel/memory.c:151-173 | the state after start-up satisfies the invariant and shows no user page |
| CopyOnWrite.EnterStep | src/kernel/task.c:271-281 | a task that enters user mode with an empty space keeps the invariant and changes nobody's pages |
| CopyOnWrite.FrameAccounting | src/kernel/memory.c:151-215 | in every state a run from start-up reaches a counter is the number of entries that name the frame and at most 64, a writable page has a frame of its own, free_pages counts the free frames, bitmap bits are set exactly for mapped pages, and these lie in heap or stack |
| AddressSpaces.CountBounded | src/kernel/memory.c:479-487 | a frame has at most one reference per task, so its 8-bit counter never passes the number of tasks |
| AddressSpaces.CountOne | src/kernel/interrupt.c:110-113 | a counter is 1 exactly when no other table entry names the frame, which is what makes it safe to write in place |
| AddressSpaces.CountZero | src/kernel/memory.c:176-188 | a frame with counter 0 is named by no page table and no directory |
| PageSteps.Translation | src/kernel/memory.c:307-325 | bits 22 to 31 of an address choose the page table, bits 12 to 21 the entry in it |
| PageOps.Lowest | src/kernel/memory.c:176-188 | the scan returns the first frame with counter 0, and none exactly when there is none |
| FaultProofs.LowestFree | src/kernel/memory.c:176-188 | free_pages is never negative and is 0 exactly when alloc_page finds no frame; the frame found is named by nothing |
| FaultProofs.AccessStep | src/kernel/interrupt.c:85-139 | a user access halts exactly when its address is in the kernel's area or outside heap and stack, or frames ran out; otherwise just the frames needed are taken, the page reads as before (or as the new frame's contents) and every other page of every task is unchanged |
| FaultProofs.StackBottom | src/kernel/interrupt.c:129-137 | a first touch of the lowest page of the stack halts at its first byte, and there only |
| FaultProofs.WriteFaultStep | src/kernel/interrupt.c:101-127 | the copy-on-write branch halts exactly when the frame is shared and no frame is free; a page of its own keeps its frame, a shared one gets the lowest free one; then the page is writable, reads the same, and the counters are exact |
| FaultProofs.LinkPageStep | src/kernel/memory.c:376-404 | link_page leaves a mapped page alone; otherwise it halts exactly when frames run out, and maps the one page, writable, to the lowest free frame; neither of its assertions about the bitmap fails |
| FaultProofs.StoreStep | src/kernel/interrupt.c:101-127 | a permitted store changes one byte of one page of one task |
| PageSteps.MapPageStep | src/kernel/memory.c:395-404 | mapping a fresh frame keeps counters, uniqueness of places and write bits right |
| PageSteps.UnmapPageStep | src/kernel/memory.c:407-437 | unmapping a page keeps counters, uniqueness of places and write bits right |
| PageSteps.CopyPageStep | src/kernel/interrupt.c:115-122 | copying a shared page and lowering the old counter without free_page still leaves counters and free_pages exact |
| PageSteps.NewTableCore | src/kernel/memory.c:307-325 | a fresh frame that reads as an empty page table keeps the books |
| PageSteps.NewTableInv | src/kernel/memory.c:317-322 | get_pte does not clear the frame: the invariant is kept exactly when nothing in it reads as a present entry |
| BrkProofs.UnlinkPageStep | src/kernel/memory.c:407-437 | unlink_page removes exactly that page; its assertions hold; it halts exactly when the page table is missing and no frame is free, and leaves that many frames free: one less for a new table, one more for a page that nobody shared |
| BrkProofs.UnlinkRangeStep | src/kernel/memory.c:549-577 | after the loop of a shrinking brk no page of the range is mapped and every other page of every task reads as before |
| BrkProofs.UnlinkRangeHalts | src/kernel/memory.c:560-566 | the loop halts exactly when, by some page of the range, more tables are missing than frames were free at first or came free on the way, all counted in the state before the call |
| BrkProofs.BrkStep | src/kernel/memory.c:549-577 | brk halts exactly for a limit outside the heap or when a shrink runs out of frames for page tables; it refuses, and changes nothing, exactly when the growth exceeds the free frames; otherwise it sets the limit and drops exactly the pages between the new limit and the old |
| CopyOnWrite.ShrinkCanHalt | src/kernel/memory.c:549-577 | a run from start-up reaches a state in which a legal shrink halts |
| ForkSteps.ForkRoom | src/kernel/memory.c:479-487 | the assertions on the counters in copy_pgdir never fail |
| ForkSteps.ForkTableCore | src/kernel/memory.c:473-492 | sharing one page table and copying it for the child keeps counters, free_pages and write bits right |
| ForkProofs.ForkDirEnough | src/kernel/memory.c:462-498 | copy_pgdir halts exactly when fewer frames are free than the parent has page tables left to copy |
| ForkProofs.ForkStep | src/kernel/memory.c:462-498 | fork halts exactly when the free frames do not cover the parent's page tables, and takes no other frame; the child reads what the parent reads and nobody's reads change |
| ExitProofs.DropPagesStep | src/kernel/memory.c:510-519 | freeing the pages of one table drops exactly those pages; free_page's assertions hold |
| ExitProofs.DropDirStep | src/kernel/memory.c:501-528 | free_pgdir drops every table of the task |
| ExitProofs.ExitStep | src/kernel/memory.c:501-528 | exit never halts, keeps the invariant, and leaves every other task's pages as they were |
| Memory.MemoryManager.constructor | src/kernel/memory.c:151-173 | memory_map_init and the pass of kernel_map_init leave the first 16 MB in use and free_pages right |
| Memory.MemoryManager.AllocPage | src/kernel/memory.c:176-188 | takes the lowest free frame and lowers free_pages; none exactly when none is free |
| Memory.MemoryManager.FreePage | src/kernel/memory.c:191-215 | lowers the counter and raises free_pages when it reaches 0; its assertions are preconditions |
| Memory.MemoryManager.GetPte | src/kernel/memory.c:307-325 | the table is there or a fresh frame becomes it |
| Memory.MemoryManager.LinkPage | src/kernel/memory.c:376-404 | is LinkPage on the state, and keeps the invariant if it does not halt |
| Memory.MemoryManager.UnlinkPage | src/kernel/memory.c:407-437 | is UnlinkPage on the state, and keeps the invariant if it does not halt |
| Memory.MemoryManager.UnlinkRange | src/kernel/memory.c:560-566 | the loop is UnlinkRange on the state |
| Memory.MemoryManager.Brk | src/kernel/memory.c:549-577 | sys_brk is Brk on the state; false when it refuses |
| Memory.MemoryManager.ShareEntries | src/kernel/memory.c:478-487 | the inner loop of copy_pgdir gives every present entry one more reference and takes its write bit |
| Memory.MemoryManager.CopyTable | src/kernel/memory.c:473-492 | one round of copy_pgdir is ForkTable on the state |
| Memory.MemoryManager.CopyPgdir | src/kernel/memory.c:462-498 | the outer loop of copy_pgdir is ForkDir on the state |
| Memory.MemoryManager.FreeTablePages | src/kernel/memory.c:510-519 | the inner loop of free_pgdir is DropPages on the state |
| Memory.MemoryManager.WriteFault | src/kernel/interrupt.c:101-127 | the copy-on-write branch is WriteFault on the state |
| Memory.MemoryManager.PageFault | src/kernel/interrupt.c:101-139 | the handler is PageFault on the state |
| Memory.MemoryManager.LoadByte | src/kernel/interrupt.c:101-139 | a user load, with the fault it may cause, is Step of the kernel machine |
| Memory.MemoryManager.StoreByte | src/kernel/interrupt.c:101-139 | a user store, with the fault it may cause, is Step of the kernel machine |
| Memory.MemoryManager.Fork | src/kernel/task.c:405-418 | the memory side of sys_fork is Fork on the state |
| Memory.MemoryManager.Exit | src/kernel/task.c:441-450 | the memory side of sys_exit is Exit on the state |
| CacheRuns.CacheIsDisk | src/kernel/buffer.c:95-200 | over every run of bread, edits, bwrite and brelse the cache gives the data of a plain disk; a handle stands for one block as long as it is held, and a block in use has one handle |
| CacheRuns.ReachableCaches | src/kernel/buffer.c:28-139 | in every state a run reaches there is one buffer per block, on the chain of its hash only; the free list is the unreferenced buffers; a dirty buffer is referenced |
| CacheRuns.StepRefines | src/kernel/buffer.c:142-200 | each call is the plain disk's step with the same data, and keeps the cache's invariant |
| CacheRuns.ReadHandles | src/kernel/buffer.c:119-157 | bread adds one reference to the buffer of the block and touches no other buffer in use |
| CacheLayout.RoomFor | src/kernel/buffer.c:71-92 | 3855 buffers fit |
| CacheLayout.HashSpreads | src/kernel/buffer.c:23-25 | a block of device 0 is on the chain of its number modulo 31, the block numbered like its device on chain 0, and no two of sixteen neighbours share a chain |
| CacheRuns.VictimIsOldest | src/kernel/buffer.c:95-116 | a buffer that is recycled is unreferenced, clean, and was released before every other unreferenced one |
| CacheRuns.RunKeepsOrder | src/kernel/buffer.c:175-188 | over every run the free list is in order of release |
| CacheRuns.EmptyInv | src/kernel/buffer.c:203-214 | the cache after buffer_init satisfies the invariant and shows the disk |
| CacheProofs.FindIs | src/kernel/buffer.c:44-58 | a chain lookup finds the one buffer of the block, if there is one |
| CacheProofs.GetblkTaken | src/kernel/buffer.c:119-139 | getblk keeps hash chains, free list and uniqueness of blocks right, its assertions about count and dirty hold, it makes a new buffer exactly when the block is not cached and one fits, and sleeps exactly when none fits and all are referenced |
| CacheProofs.BreadStep | src/kernel/buffer.c:142-157 | bread keeps the invariant and changes what is shown for no block |
| CacheProofs.BwriteStep | src/kernel/buffer.c:160-172 | bwrite keeps the invariant, changes what is shown for no block, and leaves the buffer clean |
| CacheProofs.WritesBack | src/kernel/buffer.c:160-191 | after bwrite the disk has the buffer's data and is else as before; after brelse so if that was the last reference |
| CacheProofs.BrelseStep | src/kernel/buffer.c:175-200 | brelse keeps the invariant and changes what is shown for no block |
| CacheProofs.EditStep | src/kernel/buffer.c:142-157 | editing a referenced buffer and marking it dirty changes what is shown for its own block only |
| CacheModel.Find | src/kernel/buffer.c:44-58 | the chain walk returns the first buffer with the device and block, none if there is none |
| BufferCache.AreasDisjoint | src/kernel/buffer.c:71-92 | headers growing up and data areas growing down never meet, and data areas never overlap |
| BufferCache.Buffers.constructor | src/kernel/buffer.c:203-214 | buffer_init leaves an empty cache |
| BufferCache.Buffers.HashInsert | src/kernel/buffer.c:28-33 | puts the buffer at the front of the chain of its hash |
| BufferCache.Buffers.HashRemove | src/kernel/buffer.c:36-41 | takes the buffer off the chain of its hash |
| BufferCache.Buffers.GetFromHashTable | src/kernel/buffer.c:44-68 | walks the chain and takes a hit off the free list |
| BufferCache.Buffers.GetNewBuffer | src/kernel/buffer.c:71-92 | moves the two pointers while one more header fits below the next data area |
| BufferCache.Buffers.GetFreeBuffer | src/kernel/buffer.c:95-116 | a new buffer, else the back of the free list off its chain; none where the caller would sleep |
| BufferCache.Buffers.Getblk | src/kernel/buffer.c:119-139 | is Getblk on the cache |
| BufferCache.Buffers.Bread | src/kernel/buffer.c:142-157 | is Bread on the cache |
| BufferCache.Buffers.Bwrite | src/kernel/buffer.c:160-172 | is Bwrite on the cache |
| BufferCache.Buffers.Brelse | src/kernel/buffer.c:175-200 | is Brelse on the cache |
| InodeProofs.InodesPinBuffers | src/fs/inode.c:55-107 | over any run of igets, iputs and other cache traffic there is one in-memory inode per (device, number), its count is the number of references, and its descriptor's buffer stays referenced |
| InodeProofs.StepKeeps | src/fs/inode.c:55-107 | each operation keeps the table's invariant and the reference counts, and meets no state that the code does not expect |
| InodeProofs.GetKeeps | src/fs/inode.c:55-86 | iget returns the one inode of (device, number) with one reference more, its buffer is that of the block with its descriptor, 32 to a block, and no block that the cache shows changes |
| InodeProofs.BlockOfInode | src/fs/inode.c:50-52 | every in-memory inode has the buffer of the block with its descriptor |
| InodeReferences.GetSucceeds | src/fs/inode.c:55-86 | iget gives an inode exactly for a mounted device, if the inode is in memory, or its number is in range, a slot is free and its block can be read |
| InodeReferences.GetPlaces | src/fs/inode.c:69-83 | a new inode takes the lowest free slot and goes to the back of its superblock's list; nothing else changes |
| InodeReferences.GetOthers | src/fs/inode.c:55-86 | iget takes no reference to a buffer but the inode's own |
| InodeReferences.PutOthers | src/fs/inode.c:89-107 | iput gives back no reference to a buffer but the inode's own, and that one with the last reference |
| InodeProofs.PutKeeps | src/fs/inode.c:89-107 | iput takes one reference, and with the last one the slot, the list entry and the buffer reference go |
| InodeProofs.FindInIs | src/fs/inode.c:34-47 | the list search finds an in-memory inode exactly when there is one with that device and number |
| InodeModel.InodeBlockLies | src/fs/inode.c:50-52 | the block that iget reads is one of the inodes' blocks exactly for the numbers from 1 on |
| InodeProofs.PinHolds | src/fs/inode.c:73-80 | an inode in memory has a reference, and its descriptor's buffer too |
| InodeCache.Inodes.constructor | src/fs/inode.c:110-116 | inode_init leaves every slot free |
| InodeCache.Inodes.FindInode | src/fs/inode.c:34-47 | walks the superblock's list to the first inode with the number |
| InodeCache.Inodes.GetFreeInode | src/fs/inode.c:16-24 | the first free slot; none, for the panic, exactly when all are used |
| InodeCache.Inodes.Iget | src/fs/inode.c:55-86 | is Iget on the table |
| InodeCache.Inodes.LoadInode | src/fs/inode.c:69-83 | a free slot takes the inode, its place in the list and its buffer |
| InodeCache.Inodes.Iput | src/fs/inode.c:89-107 | is the Put step on the table; fails exactly when the root's inode would be given up |
| InodeCache.Inodes.PutFreeInode | src/fs/inode.c:27-31 | frees any slot but the first |
| TaskRuns.StepKeeps | src/kernel/task.c:102-267 | every step keeps the process table, the queues and the scheduler states right, and fails exactly when a kernel task calls fork, exit or waitpid, fork finds the table full, or a sleep is for no time |
| TaskRuns.RunKeeps | src/kernel/task.c:391-528 | so does every run |
| TaskTheorems.SchedulerStates | src/kernel/task.c:102-218 | in every state a run from start-up reaches exactly the current task is running, a task is in one queue while it is blocked, sleeping or waiting and in none otherwise, and idle is ready or running |
| TaskTheorems.WaitersHaveChildren | src/kernel/task.c:507-512 | in every such state a task asleep in waitpid names a living child of its own |
| TaskRuns.StatusesAreDelivered | src/kernel/task.c:429-528 | over every run each status that waitpid returns is the one that a child of the caller, the one asked for, passed to exit, and none is returned twice |
| TaskRuns.MailStep | src/kernel/task.c:429-528 | one step of that: exit files the status under the pid, a successful waitpid takes it out |
| TaskRuns.SecondSearchReturns | src/kernel/task.c:484-528 | a waitpid for one child that was blocked returns that child and its status at its second search |
| TaskFamily.ExitWakes | src/kernel/task.c:461-467 | a parent waiting for the dying task becomes ready, and finds the zombie with its status |
| TaskFamily.ExitStep | src/kernel/task.c:429-467 | exit leaves no task waiting for a dead child, no child with a dead parent, and no cycle among parents |
| TaskFamily.DieIs | src/kernel/task.c:429-467 | what exit does to each task and queue: the caller is dead with its status, its children belong to its parent, a waiting parent is ready, others are as before |
| TaskFamily.ForkStep | src/kernel/task.c:391-427 | the lowest free slot gets a copy of the caller with its own pid, the caller as parent, ready; nothing else changes |
| TaskFamily.ForkFresh | src/kernel/task.c:33-44 | a pid handed out is nobody's parent and nobody waits for it |
| TaskFamily.FindChildIs | src/kernel/task.c:487-505 | the search finds the lowest matching child, and none exactly when there is none |
| TaskFamily.ReapStep | src/kernel/task.c:496-527 | reaping frees the slot, returns pid and status, changes nothing else, and keeps the invariant |
| TaskFamily.WaitStep | src/kernel/task.c:507-512 | blocking in waitpid names a living child of the caller in waitpid and puts the caller at the back of the blocked queue; nothing else changes |
| TaskFamily.ResumeReaps | src/kernel/task.c:484-512 | a task woken in a wait for one child has searched once and finds that child dead |
| TaskTheorems.ProcessTree | src/kernel/task.c:452-459 | in every reachable state following parents from any task ends at idle |
| TaskTheorems.SleepIsExact | src/kernel/task.c:221-267 | a task that sleeps ms milliseconds is asleep until clock interrupts, one every 10 milliseconds, have covered them, whatever else happens, and runnable after the next one; its time slice is then the number of that interrupt |
| TaskTheorems.OnlyClockWakes | src/kernel/task.c:206-218 | no system call of another task wakes a sleeper |
| TaskTheorems.ChoiceIsBest | src/kernel/task.c:49-74 | the search picks the ready task with most ticks and least jiffies exactly when one task has both |
| TaskExamples.ChoiceCanBeOutdone | src/kernel/task.c:46-67 | otherwise it can, after a run from start-up, pick a task that another beats in both, against its own comment |
| TaskTheorems.WaitAnyTakesFirst | src/kernel/task.c:487-512 | waitpid(-1), at the call and at each search after it was woken, returns a child exactly when the first child in the table is dead, and blocks exactly when that child lives |
| TaskExamples.WaitAnyCanMiss | src/kernel/task.c:487-512 | so it blocks, after a run from start-up, although a child is dead |
| TaskSteps.WakeAfterPopFails | src/kernel/buffer.c:196-199 | a task that brelse has popped from a queue cannot be unblocked: the assertion of list_remove fails |
| TaskTheorems.BootInv | src/kernel/task.c:360-369 | the state after task_init and the first switch satisfies the invariant |
| TaskSteps.SearchFinds | src/kernel/task.c:49-74 | the search returns a task in that state other than the current one, and none exactly when there is none |
| TaskSteps.SearchIs | src/kernel/task.c:49-74 | exactly what the search picks: from the first task in that state it climbs to the next one with more ticks or fewer jiffies, as long as there is one |
| TaskSteps.NextRunnable | src/kernel/task.c:68-74 | the next task is ready, and the fallback on idle happens only while idle runs and nothing is ready |
| TaskSteps.ScheduleStep | src/kernel/task.c:102-129 | after schedule exactly the chosen task is running, the one before is ready unless it blocked or died, a used-up time slice is refilled from the priority, and nothing else changes |
| TaskSteps.BlockStep | src/kernel/task.c:181-203 | blocking puts the task at the back of that queue and in no other; nothing else changes |
| TaskSteps.UnwaitStep | src/kernel/task.c:206-218 | unblocking takes the task out of its queue and makes it ready; nothing else changes |
| TaskSleep.SleepStep | src/kernel/task.c:221-243 | sleeping keeps the sleeping queue sorted by wake tick |
| TaskSleep.WakeupStep | src/kernel/task.c:246-267 | the walk with its early exit releases exactly the sleepers that are due |
| TaskSleep.TickStep | src/kernel/clock.c:46-73 | the clock interrupt never fails or counts a time slice below zero, wakes exactly the sleepers that are due, leaves the current task running while it has ticks left, and at the end of its slice refills it and switches to a task that is ready or was due |
| TaskQueues.SliceEnds | src/kernel/clock.c:66-72 | a task other than idle stays current through fewer clock interrupts than its time slice has ticks left, whatever it does |
| TaskQueues.QueuesAreInOrder | src/kernel/task.c:181-203 | over every run each blocking queue is in the order in which its tasks blocked |
| Scheduler.Tasks.constructor | src/kernel/task.c:360-369 | task_init: idle, init and test, and init running |
| Scheduler.Tasks.GetFreeTask | src/kernel/task.c:33-44 | the lowest free slot |
| Scheduler.Tasks.TaskSearch | src/kernel/task.c:49-74 | the scan is Search, with idle as fallback |
| Scheduler.Tasks.Schedule | src/kernel/task.c:102-129 | is Schedule on the state |
| Scheduler.Tasks.TaskBlock | src/kernel/task.c:181-203 | is Link on the state, and a switch if the task blocks itself |
| Scheduler.Tasks.TaskUnblock | src/kernel/task.c:206-218 | is Unblock on the state |
| Scheduler.Tasks.SleepPlace | src/kernel/task.c:221-236 | the place of the first sleeper that wakes no earlier |
| Scheduler.Tasks.TaskSleep | src/kernel/task.c:221-243 | is FallAsleep and a switch |
| Scheduler.Tasks.TaskWakeup | src/kernel/task.c:246-267 | is Wakeup on the state and keeps the invariant |
| Scheduler.Tasks.SysFork | src/kernel/task.c:391-427 | is Spawn on the state |
| Scheduler.Tasks.ReparentChildren | src/kernel/task.c:452-459 | the loop gives every child the dying task's parent |
| Scheduler.Tasks.SysExit | src/kernel/task.c:429-473 | is Die and a switch |
| Scheduler.Tasks.SearchChildren | src/kernel/task.c:484-528 | one search of the loop, with the block or the reaping that follows |
| Scheduler.Tasks.SysWaitpid | src/kernel/task.c:475-528 | is the Wait step |
| Scheduler.Tasks.ResumeWaitpid | src/kernel/task.c:484-528 | is the Resume step: the loop going on after the switch |
| Scheduler.Tasks.ClockHandler | src/kernel/clock.c:46-73 | is ClockTick on the state |
| MutexProofs.LockProtocol | src/kernel/mutex.c:69-102 | in every interleaving of any number of threads at most one owns the lock, the semaphore is 1 exactly when none does, holder and repeat are then clear, and repeat is the owner's nesting depth |
| MutexProofs.StepKeeps | src/kernel/mutex.c:13-102 | no assertion of the lock fails, whichever thread runs next |
| MutexProofs.NobodyStranded | src/kernel/mutex.c:44-55 | while a thread waits another one owns the mutex or has been woken to try for it, and can go on |
| MutexProofs.WaiterCanAcquire | src/kernel/mutex.c:13-59 | from every state, and for every waiter, some way of going on gives it the lock |
| MutexProofs.OwnerFinishes | src/kernel/mutex.c:86-102 | left to itself the owner gives the mutex back and wakes the first waiter |
| MutexStarvation.CanStarve | src/kernel/mutex.c:44-55 | whatever n is, some run has a woken thread overtaken n times by the one that gave the mutex back, and go to the back of the waiters each time |
| MutexProofs.AcquireStep | src/kernel/mutex.c:13-34 | one pass of the loop keeps the invariant |
| MutexQueues.FirstIsWokenFirst | src/kernel/mutex.c:13-59 | in every interleaving a thread that is woken blocked before every other one that is waiting |
| MutexQueues.DepthIsCount | src/kernel/mutex.c:69-102 | between calls a thread's depth is the number of its acquisitions less its releases; for the owner that is what repeat says |
| MutexProofs.ReleaseStep | src/kernel/mutex.c:37-59 | giving the mutex back keeps the invariant: a waiter left behind implies a woken thread |
| MutexLock.ReentrantLock.constructor | src/kernel/mutex.c:62-66 | mutexlock_init leaves the lock free |
| MutexLock.ReentrantLock.MutexAcquire | src/kernel/mutex.c:13-34 | is Acquire on the lock |
| MutexLock.ReentrantLock.MutexRelease | src/kernel/mutex.c:37-59 | is Release on the lock |
| MutexLock.ReentrantLock.Advance | src/kernel/mutex.c:69-102 | one statement of one thread is one step |
| ElevatorProofs.ServedOnce | src/kernel/device.c:147-186 | along every run a request is pending or has been executed, never both, and nothing is executed twice |
| ElevatorSweeps.EveryRequestIsExecuted | src/kernel/device.c:147-186 | once arrivals stop, a run that cannot go on has executed every request that was queued |
| ElevatorSweeps.RunsEnd | src/kernel/device.c:147-186 | every step of such a run takes one off what is left, so it comes to an end |
| ElevatorSweeps.CanGoOn | src/kernel/device.c:170-185 | while a request is queued the active one can begin or end |
| ElevatorSweeps.CanDrain | src/kernel/device.c:147-186 | from every state some run without arrivals empties the list |
| ElevatorProofs.RunKeeps | src/kernel/device.c:147-186 | in every interleaving the list is sorted, and exactly one request of a non-empty list is active |
| ElevatorProofs.OthersWait | src/kernel/device.c:170-185 | while one request is executed the tasks of all others are blocked |
| ElevatorProofs.SubmitStep | src/kernel/device.c:165-173 | a new request keeps the list sorted with exactly one active |
| ElevatorProofs.SubmitPlaces | src/kernel/device.c:149-173 | a new request has its sector and task, goes in front of the first one with a sector not smaller, and is active only if the list was empty |
| ElevatorProofs.FinishStep | src/kernel/device.c:175-185 | the end of a request removes it and makes the next one active |
| ElevatorProofs.NextIsNearest | src/kernel/device.c:96-127 | the next request is the nearest in the head's direction, and the direction turns only when nothing is left on that side |
| ElevatorProofs.ServedInSweeps | src/kernel/device.c:96-127 | with arrivals at any time the sectors served do not decrease while the direction is out and do not increase while it is in |
| ElevatorProofs.IdleTurns | src/kernel/device.c:96-127 | across an idle moment they may: each request that is alone turns the direction, wherever it lies |
| ElevatorSweeps.RunDrains | src/kernel/device.c:147-186 | without arrivals requests are served in the order of the drain, and all of them when the list is empty |
| ElevatorSweeps.DrainIsSweeps | src/kernel/device.c:96-127 | the drain is one sweep in the head's direction and one sweep back |
| ElevatorSweeps.DrainTravel | src/kernel/device.c:96-127 | how far the head travels for it: at most to the one end and then across to the other |
| RequestQueue.BlockDevice.constructor | src/kernel/device.c:189-203 | device_init leaves an empty list |
| RequestQueue.BlockDevice.SubmitRequest | src/kernel/device.c:165-173 | is Submit; goes on at once exactly if the list was empty |
| RequestQueue.BlockDevice.NextRequest | src/kernel/device.c:96-127 | turns the direction at a list end and returns the neighbour |
| RequestQueue.BlockDevice.FinishRequest | src/kernel/device.c:175-185 | is Finish on the device |
| RequestQueue.BlockDevice.InsertSorted | src/lib/list.c:118-133 | inserts before the first request with a sector not smaller |
| HeapTheorems.NothingLeaks | src/kernel/arena.c:122-153 | after any run, once every block has been given back, the heap holds no page, no free list has a node, and only pages of others are marked |
| HeapTheorems.LiveDisjoint | src/kernel/arena.c:49-119 | two blocks in use never share a byte |
| HeapTheorems.LiveInside | src/kernel/arena.c:49-119 | a block in use is as large as was asked for and lies in its arena behind the header |
| HeapTheorems.HeadersApart | src/kernel/arena.c:49-119 | a block in use never touches an arena header |
| HeapTheorems.FreeApart | src/kernel/arena.c:49-119 | a block in use never touches a free block |
| HeapTheorems.PageReturned | src/kernel/arena.c:137-152 | kfree gives the page back exactly when all its other blocks are free, and then no list has a node in it |
| HeapTheorems.FreeUndoesAlloc | src/kernel/arena.c:49-153 | kfree right after kmalloc restores pages, arenas and, up to order, the free lists |
| HeapTheorems.RunKeeps | src/kernel/arena.c:49-153 | every run of kmalloc, kfree and other users of kernel pages keeps the heap's books |
| HeapSteps.AllocStep | src/kernel/arena.c:49-119 | kmalloc fails exactly for want of pages; what it returns was nobody's, and the books stay right |
| HeapSteps.FreeStep | src/kernel/arena.c:122-153 | kfree of a block in use never fails an assertion and keeps the books |
| HeapSteps.BlockInPage | src/kernel/arena.c:33-46 | a block lies in its page behind the header, and masking its address gives the page back |
| HeapSteps.MaskIsPage | src/kernel/arena.c:44-46 | on 32-bit addresses the mask, bit by bit, leaves the start of the page |
| HeapSteps.BlocksApart | src/kernel/arena.c:33-41 | blocks of one page do not overlap |
| HeapSteps.FreeIdxFull | src/kernel/arena.c:137-138 | at most all blocks of a page are free, and if the count says so all of them are |
| HeapSteps.LargeStep | src/kernel/arena.c:55-70 | a large request takes a run of whole pages that nobody had |
| HeapSteps.NewArenaStep | src/kernel/arena.c:86-105 | a fresh page is cut into blocks that are all free |
| HeapUse.BlocksFillPage | src/kernel/arena.c:19-31 | block sizes double from 16, and a page holds as many blocks behind its header as fit |
| HeapUse.BlocksAreTight | src/kernel/arena.c:73-82 | a block is less than twice as large as was asked for |
| HeapUse.PagesAreTight | src/kernel/arena.c:55-58 | a large request takes no page more than it needs |
| HeapUse.PagesAreNeeded | src/kernel/arena.c:49-119 | m blocks of one size on an empty heap take the least number of pages that hold them, and fail exactly if the pages there are cannot |
| HeapOrder.LongestFree | src/kernel/arena.c:86-136 | over every run kmalloc hands out the block of its size that has been free the longest, and if none is free the lowest block of the lowest free page |
| HeapModel.DescFrom | src/kernel/arena.c:73-82 | the search returns the first descriptor whose blocks are large enough |
| KernelPages.VmapEnd | src/kernel/memory.c:294-298 | every page that the bitmap can hand out, after any run of the heap, is the kernel's exactly when the number of pages in it divides by eight |
| KernelPages.VmapEndOf | src/kernel/memory.c:151-173 | with the memory manager's start page that is when memory_map fills a multiple of eight pages |
| KernelPages.StepStaysBelow | src/kernel/memory.c:334-365 | a step of the heap keeps clear of the buffer area exactly when it asks for no page or a free run lies below that area |
| KernelPages.RunStaysBelow | src/kernel/memory.c:334-365 | a run in which that holds at every step keeps clear of the buffer area |
| KernelPages.RunReachesBuffers | src/kernel/memory.c:334-365 | once the pages below are taken the next page handed out is the first of the buffer area |
| KernelHeap.Kmem.constructor | src/kernel/arena.c:19-30 | arena_init over an empty page bitmap |
| KernelHeap.Kmem.ScanPages | src/kernel/memory.c:334-345 | marks the first run of free pages; none, for the panic, exactly when there is none |
| KernelHeap.Kmem.ResetPages | src/kernel/memory.c:348-357 | clears the marks; fails exactly when one was not set |
| KernelHeap.Kmem.CutPage | src/kernel/arena.c:96-104 | the loop puts every block of the page on the free list, in order |
| KernelHeap.Kmem.Kmalloc | src/kernel/arena.c:49-119 | is Alloc on the heap |
| KernelHeap.Kmem.RemoveBlocks | src/kernel/arena.c:140-146 | the loop takes every block of the page off the list; its assertions about membership hold |
| KernelHeap.Kmem.Kfree | src/kernel/arena.c:122-153 | is Free on the heap |
| Bitmaps.FirstFit | src/lib/bitmap.c:66-88 | the first place where n consecutive bits are clear, none exactly when there is none |
| Bitmaps.BitAlone | src/lib/bitmap.c:36-52 | setting or clearing a bit of a byte leaves the other bits alone |
| Bitmaps.BitIsDigit | src/lib/bitmap.c:21-33 | bit i is the digit of weight 1 << (i % 8) in byte i / 8 |
| Bitmaps.Bitmap.constructor | src/lib/bitmap.c:15-18 | bitmap_init clears every bit |
| Bitmaps.Bitmap.Contains | src/lib/bitmap.c:21-33 | reads the bit of the index |
| Bitmaps.Bitmap.Set | src/lib/bitmap.c:36-52 | changes that bit and no other |
| Bitmaps.Bitmap.FindRun | src/lib/bitmap.c:66-88 | counting clear bits finds the first run of n of them, and none exactly when there is none |
| Bitmaps.Bitmap.InsertBits | src/lib/bitmap.c:66-100 | finds the first run of n clear bits and sets exactly those; no change if there is none |
| BlockMapFiles.FilesAreIndependent | src/fs/fsmap.c:117-180 | over every run of mapping, writing and reading, each position of each file reads what was last written there, zeros if it was only mapped, and nothing if it was not mapped |
| BlockMapFiles.StepRefines | src/fs/fsmap.c:117-180 | each operation is the plain files' operation |
| BlockMapFiles.FormattedRefines | src/fs/fsmap.c:6-30 | a file system just made satisfies the invariant and shows no block |
| BlockMapTheorems.BmapCreates | src/fs/fsmap.c:117-180 | a creating bmap maps the position and no other; it fails exactly when fewer zones are free than it needs; a second call finds what the first mapped |
| BlockMapTheorems.BmapLooks | src/fs/fsmap.c:117-180 | without create, or where a block is mapped, bmap changes nothing and returns the block mapped there |
| BlockMapTheorems.Layout | src/fs/fsmap.c:128-172 | seven blocks are named in the inode itself, 512 in the block of its eighth zone, and 512 times 512 two blocks away from its ninth |
| BlockMapTheorems.Injective | src/fs/fsmap.c:117-180 | no block belongs to two positions of any files |
| BlockMapTheorems.PathsDiffer | src/fs/fsmap.c:128-172 | the division and remainder of the walk send different positions to different places |
| BlockMapTheorems.WalkCreates | src/fs/fsmap.c:156-179 | the loop reaches a block exactly when as many zones are free as are missing on the way |
| BlockMapTheorems.GivesUp | src/fs/fsmap.c:157-179 | after the break the second try of balloc is in vain |
| BlockMapTheorems.TriesTwice | src/fs/fsmap.c:157-179 | and leaves the maps as two calls of balloc in a row do |
| BlockMapTree.FillStep | src/fs/fsmap.c:157-161 | filling an empty index changes one place of the tree of blocks, with a zone that hung nowhere and reads as zero |
| BlockMapTree.SetVal | src/fs/fsmap.c:157-161 | writing one index changes what hangs there and nowhere else |
| BlockMapProofs.BallocStep | src/fs/fsmap.c:6-30 | balloc succeeds exactly while a zone is free; otherwise it returns 0 if all eight maps exist and follows a null pointer if not |
| BlockMapProofs.BallocFinds | src/fs/fsmap.c:6-30 | it hands out the lowest free zone |
| BlockMapProofs.BallocFails | src/fs/fsmap.c:6-30 | with no zone left it marks the first clear bit of every map and runs off the maps that exist unless there are eight |
| BlockMapProofs.ClearIsBeyond | src/fs/fsmap.c:15-26 | every such bit stands for a zone beyond the last |
| BlockMapProofs.BallocRunsOut | src/fs/fsmap.c:6-30 | with fewer than eight maps balloc works once for each free zone and then halts |
| BlockMapFiles.FullDiskHalts | src/fs/fsmap.c:6-30 | so it does on every disk just made with fewer than eight maps |
| BlockMapFiles.FormattedFree | src/fs/fsmap.c:13-26 | on a disk just made the zones to be had are those from the first data zone on that lie below nzones and have a bit |
| BlockMapProofs.PastTheMap | src/fs/fsmap.c:15-18 | the bitmap is given bits where it takes bytes: what lies behind the map makes no difference exactly while the map has a clear bit, or nothing behind it is clear |
| FileSystem.Volume.MarkFirstClear | src/fs/fsmap.c:17-20 | sets the first clear bit of one map |
| FileSystem.Volume.Balloc | src/fs/fsmap.c:6-30 | the loop is Balloc on the volume |
| FileSystem.Volume.FillIndex | src/fs/fsmap.c:157-161 | is Fill on the volume |
| FileSystem.Volume.Bmap | src/fs/fsmap.c:117-180 | the loop over the levels is Bmap on the volume |
| Lists.Place | src/lib/list.c:118-129 | the first position whose key is not smaller |
| Lists.InsertAscending | src/lib/list.c:118-133 | inserting there keeps a sorted list sorted |
| Lists.WithoutDrops | src/lib/list.c:31-40 | removing a node from a list without repetitions leaves it without that node and without repetitions |
| Lists.WithoutIsRemoveAt | src/lib/list.c:31-40 | the removal that the models speak of is the one that the linked list makes |
| LinkedList.List.constructor | src/lib/list.c:5-10 | list_init: two sentinels and nothing between |
| LinkedList.List.InsertBefore | src/lib/list.c:13-19 | the node is linked in before the anchor; all links agree |
| LinkedList.List.InsertAfter | src/lib/list.c:22-28 | the node is linked in after the anchor; all links agree |
| LinkedList.List.Remove | src/lib/list.c:31-40 | the node leaves the list with both links cleared |
| LinkedList.List.PushFront | src/lib/list.c:43-46 | the node becomes the first |
| LinkedList.List.PopFront | src/lib/list.c:49-56 | the first node leaves |
| LinkedList.List.PushBack | src/lib/list.c:59-62 | the node becomes the last |
| LinkedList.List.PopBack | src/lib/list.c:65-72 | the last node leaves |
| LinkedList.List.Size | src/lib/list.c:75-83 | the number of nodes |
| LinkedList.List.Contains | src/lib/list.c:86-95 | whether the node is in the list |
| LinkedList.List.Empty | src/lib/list.c:98-100 | whether there is none |
| LinkedList.List.Singular | src/lib/list.c:103-105 | whether there is exactly one |
| LinkedList.List.IsTail | src/lib/list.c:108-110 | whether the node is the last |
| LinkedList.List.IsHead | src/lib/list.c:113-115 | whether the node is the first |
| LinkedList.List.FirstNotSmaller | src/lib/list.c:118-129 | the walk to the anchor |
| LinkedList.List.InsertSort | src/lib/list.c:118-133 | the node goes before the first one with a key not smaller; a sorted list stays sorted |

## Left out

- CopyOnWrite: translation caches are taken as coherent, and only accesses from user mode are modelled; kernel writes
  through user pointers, such as the status of waitpid, are not.
- FaultProofs.AccessStep: a frame is not cleared when it is first mapped, so what a fresh page reads is an input.
- PageSteps.NewTableCore: a frame installed as a page table is taken to be empty; `NewTableInv` says what is lost if not.
- Memory.MemoryManager.GetPte: the new table is empty, as for NewTableCore.
- Memory.MemoryManager.Fork: the control block, the kernel stack and the kernel pages of page directory and bitmap are
  part of the process model or not modelled.
- CacheRuns.CacheIsDisk: each call runs to completion; a task that would sleep in get_free_buffer, or in the device, is
  not interleaved, because the code does not look at the hash table again after it.
- BufferCache.Buffers.Brelse: the cache has no wait list; what waking a task from it comes to is in `WakeAfterPopFails`.
- InodeCache.Inodes.Iget: access times, and which of the descriptors in its block is the inode's, are not modelled.
- TaskTheorems.SleepIsExact: counters are unbounded, so it speaks of runs in which the tick counter stays below 2^31.
- TaskRuns.StepKeeps: fork's want of kernel pages or heap blocks for the new task is no state of the process machine, so
  what it says of failures speaks of the others.
- TaskRuns.StatusesAreDelivered: interrupts of devices other than the clock are the unblocking they cause; the registers
  and stacks of a switch are a change of the current task.
- MutexProofs.LockProtocol: a counter of nested acquisitions that wraps is not modelled.
- ElevatorProofs.ServedOnce: a request's data transfer is one step; sector numbers are below 2^31, as the list compares
  them as signed integers.
- ElevatorProofs.ServedInSweeps: says nothing across a moment at which the list is empty; `IdleTurns` shows why.
- HeapTheorems.NothingLeaks: the contents of blocks, and sizes whose sum with the header wraps 32 bits, are not modelled;
  callers free only what they hold.
- BlockMapTheorems.BmapCreates: runs start from a disk whose free blocks read as zero and free no block, as the code relies
  on this for fresh index blocks.
- FileSystem.Volume.Balloc: a map block has 8192 bits; the memory behind it, into which the code's bitmap reaches when a
  map is full (`PastTheMap`), is not modelled.
- FileSystem.Volume.Bmap: blocks are read and written through the cache's view; the buffers that bmap reads and never
  releases are not counted.
- LinkedList.List.InsertBefore: the position of the anchor is a ghost argument; ASSERT_NODE_FREE and the membership
  assertions are preconditions.
- bfree, ialloc and ifree: not modelled; the last two are balloc again over other bitmaps.
- Boot and loader, segment and interrupt tables, interrupt stubs, port input and output, console, keyboard and clock chips
  are hardware layout and devices.
- Formatted printing, strings, the queue of characters, the calendar and the device table would add only easy members.

# A model of a small multicore kernel

The kernel runs on the four cores of a Raspberry Pi 3 (AArch64). This project models its five
connected parts and proves what they keep over whole runs:

- **Scheduler and process lifecycle.** `Scheduler` is a transition system over the cores: entering the
  kernel, taking `process_lock`, each critical section, releasing the lock and `swap` are separate
  steps, and steps of different cores interleave freely. `SchedulerInvariant` and `SchedulerRuns` carry
  the invariant over every run, `SchedulerTheorems` states the results, `SchedulerChildren` says which
  child a wait can find, and `SchedulerCalls` what one process does from a trap until it is back in user
  mode. `KernelLists` has the relinking list routines and critical sections over
  heap objects, and `KernelSteps` shows that they do what the transition system says. `SpinLock` takes
  `spin_lock` apart into its exclusive load and store, and `LockOrder` covers all five locks together.
- **Buddy allocator.** `Buddy` describes the free lists as functions, `BuddyRuns` whole runs of `kalloc`
  and `kfree`, and `BuddyMemory` the routines over intrusive circular lists.
- **Page tables.** `PageTables` has the address macros and descriptors (VMSAv8-64, section D8.3 of Arm DDI
  0487), `PageTree` the tables as trees and the hardware walk, `PageTeardown` the order in which a tree is
  freed, `PageMapping` the effect of the routines on trees, `KernelMemory` the routines themselves over
  one allocator and one memory. `ProcessSpaces` says which pages processes own and what fork, exec and
  reaping do to them, and `ProcessMemory` has the routines that do it.
- **Open files.** `FileTable` has the two levels of reference counts and their runs, `OpenFiles` the
  routines in place on the two tables.
- **FAT16 reader.** `Chains` has cluster chains and `read_raw_data`, `Fat16` the layout of the volume and
  `read_file`.

`World` puts scheduler, process memory and open files together, and `Kernel` carries its steps out in
place. `Bits`, `Seqs`, `Pages` and `Wrappers` are shared helpers. `dafny verify dfyconfig.toml` checks
everything.

## How the model reads the code

- `ASSERT` halts. A routine that can halt returns a value that says so, or its contract speaks of the
  calls that pass every assertion.
- Kernel code runs with interrupts masked, so one core is at one control point at a time. Memory is
  sequentially consistent, with the exclusive-monitor rule in `SpinLock`.
- Runs of the scheduler start after `init_process` has finished on every core; `Booted` is such a state.
- A page given to `kfree` loses its contents, because the allocator reuses its first words. A routine
  that verified therefore never reads a freed page.
- `open_file`, `close_file` and the file parts of `fork` and `wait` are atomic steps, since the code takes
  no lock for them.
- Pids, counts and addresses are unbounded integers, except where the source's width matters: the P2V and
  V2P macros wrap at 2^64 and the file reader's arithmetic at 2^32.

The code is modelled as written. It departs from its evident intent in these places:

- `buddy_free` drops a block whose buddy is not free, and puts a merged block on list i instead of i+1
  (src/memory.c:224-230). So `kfree` of a live page changes the length of no list
  (`BuddyMemory.Allocator.BuddyFree`), and a region with a good start satisfies only as many `kalloc` calls
  as it has pages, over its whole lifetime (`BuddyRuns.LifetimeBudget`). A process takes five pages, so the
  kernel can make at most a fifth as many processes (`World.ForksAreBounded`).
- `buddy_free` computes buddies from `start_addr` (src/memory.c:206-207), while `buddy_init` and the
  splitting use absolute alignment. Free blocks and live pages stay disjoint in every run, and the rings
  keep representing the lists, if and only if the region has a good start: it does not start at a multiple
  of 8 MB or is smaller than 8 MB (`BuddyRuns.SoundIffGoodStart`, `BuddyMemory.SafeIffGoodStart`). For every
  other region `BuddyRuns.BadStartIsUnsound` gives a failing run, and `BuddyMemory.BadStartLoops` shows what
  it does to the words: list 0 goes on starting with a page that was handed out. From the start address
  that the linker script leads to, an odd multiple of 2 MB, no merge happens above order 0.
- `find_least_busy_core` returns 0 (src/process.c:23), so `fork` puts the child on core 0 whichever core
  calls, and copies the current process of core 0. `wait` looks only at the kill list of its own core
  (src/process.c:395). Together they lose the children of every core but 0
  (`SchedulerChildren.LostChild`, with a reachable state in `SchedulerChildren.LostChildReachable`).
- `fork` halts with `process_lock` held when the process table is full or an allocation fails
  (src/process.c:118, 143, 467, 479). It also never ends when another core calls it while core 0 is idle:
  `copy_uvm` then follows the idle process's page map, which is a physical address (src/process.c:75, 461,
  476), and faults. The progress results name these exceptions.
- `remove_list_head` unlocks `list_lock` twice (src/lib.c:36-40). `LockOrder` shows that this is harmless
  after boot, because every list operation is inside `process_lock`.
- `read_file` compares a 32-bit sum with the file size (src/file.c:194). It does what it is for if and only
  if the sum of position and size does not wrap into the file (`Fat16.ReadIsIntended`); otherwise it may
  read behind the file or copy out of a cluster (`Fat16.ReadOverruns`).
- A read of no bytes at the end of a file that fills its last cluster fails the assertion at
  src/file.c:156; the reader's specifications have it as `Halted`.

## Model

| member | source | states |
|---|---|---|
| SchedulerTheorems.OnePlace | src/process.c:245-429 | in every reachable state of every interleaving a process entry appears exactly once over all cores (current, or on one list of its home core) or is unused; only a process inside exit is in two places; list membership and state field agree |
| SchedulerTheorems.IdleNeverListed | src/process.c:61-102 | an idle process is never on a list, runs exactly while current and is ready exactly while not |
| SchedulerTheorems.StateTellsPlace | src/process.c:245-388 | on its home core the state field of a process says exactly which list holds it or whether it is current |
| SchedulerTheorems.LockHandOff | src/process.c:290-337 | at most one core is between lock and unlock of process_lock, the lock word is set exactly then, and no core is in user mode or spinning with the lock held |
| SchedulerTheorems.SwapResumesAtUnlock | src/handler.s:149-234 | whatever swap resumes continues at an unlock (yield, sleep or pstart), an idle context is resumed only after a yield saved it, and the suspended process is another one and no longer running |
| SchedulerTheorems.ReapIsSafe | src/process.c:390-429 | the process that wait frees is killed, at home on that core, current on no core, under no core's stack pointer, not freed before, and its entry is zeroed |
| SchedulerTheorems.FreedOnceNeverRuns | src/process.c:375-429 | over every run no pid is freed twice and no core runs a process, or on the stack of a process, whose memory was freed |
| SchedulerTheorems.NoLostWakeUp | src/process.c:324-429 | if a process sleeps inside wait(pid) and no exit on its core is between its kill-list append and its wake_up, no process with that pid is on the kill list |
| SchedulerTheorems.WakesAll | src/process.c:339-352 | after a wake_up in any run every process that slept on its channel, on every core, is ready and on the ready list of its core, and no other process entry changed |
| SchedulerTheorems.SleepFiles | src/process.c:324-337 | after a sleep in any run the process is on the wait list of its core under its channel and another process is current |
| SchedulerTheorems.BoundedWaiting | src/process.c:245-288 | a process at index i of a ready list is picked by the (i+1)-th later pick of that core, whatever sleeps, wakes, forks and exits happen in between |
| SchedulerTheorems.HolderAdvances | src/process.c:290-429 | a core with the lock can step exactly when it is not halted in fork, because core 0 is idle, entries 1 to 29 of core 0 are all in use or an allocation fails; each of its steps brings it nearer to the unlock and no other core moves it |
| SchedulerTheorems.SpinnersWaitForAMover | src/liba.s:102-119 | whenever a core spins on process_lock another core holds it and can step, unless that core is halted in fork while core 0 is idle, by a full process table or by a failed allocation |
| SchedulerTheorems.HoldIsBounded | src/process.c:290-429 | while it holds process_lock a core passes at most three control points of the model (critical section, swap, unlock), so it takes at most two steps between them, however the others interleave; a whole critical section counts as one step |
| SchedulerRuns.ReachableInv | src/process.c:245-513 | the invariant of the scheduler holds in every state of every run |
| SchedulerRuns.BootedIsInitial | src/process.c:217-238 | the state that init_process leaves on four cores is a start of the runs considered |
| SchedulerRuns.BootedPids | src/process.c:217-238 | on core 0 test4 has pid 4 and init pid 5, test4 of core c has pid 5 + c, and the next pid is 9 |
| SchedulerChildren.QuietAlive | src/process.c:245-388 | a step that is neither a fork nor a reaping wait changes neither who is alive under which pid nor what was freed |
| SchedulerChildren.ForkAlive | src/process.c:448-513 | a fork fills exactly one unused entry of core 0, ready under the next pid with its context at pstart, and puts it at the end of core 0's ready list |
| SchedulerChildren.ReapAlive | src/process.c:390-429 | a reaping wait unmakes exactly one process, of its own core and of the pid it was given |
| SchedulerChildren.WaitLooksAtHome | src/process.c:390-429 | in every reachable state wait(pid) reaps exactly when a process with that pid is on the kill list of its own core |
| SchedulerChildren.OtherCoreNeverReaped | src/process.c:390-429 | once a process is at home on another core, no later wait for it ever reaps, over any run |
| SchedulerChildren.LostChild | src/process.c:448-513 | after a fork by a core, a wait of that core for the child reaps if and only if the core is 0, the child is killed and it was not freed yet, whatever the cores do in between; so every core but 0 loses its children |
| SchedulerChildren.LostChildReachable | src/process.c:448-513 | a run from the booted state, with core 0 running a user process when core 1 forks, to a state in which core 1 waits for its child on core 0 |
| SchedulerCalls.CallRuns | src/process.c:290-513 | over every run, from the trap that takes a process out of user mode the critical sections it runs are those of its call in their order (a tick: wake_up(-1), yield; exit: kill list, wake_up(-3), schedule; wait: look, sleep(-3), look again), and when it is back in user mode they are all of them; exit never returns, and wait(q) has itself freed q and the call nothing else |
| SchedulerCalls.WaitCollects | src/process.c:390-429 | a process that looks for q in wait(q) and is later in user mode has freed q in between, whatever woke it |
| SchedulerCalls.StandsStep | src/process.c:240-288 | a step moves the process that takes it to its next control point and no other process: a switch changes where no process continues |
| SpinLock.RunExclusion | src/liba.s:102-119 | in every run of exclusive loads and stores at most one core is inside, the word is 1 exactly while one is, and a successful exclusive store finds it 0 |
| SpinLock.StepInv | src/liba.s:102-119 | every access keeps the exclusion invariant, and a store succeeds only when no core is inside |
| SpinLock.CanEnter | src/liba.s:102-119 | from every reachable state a spinning core gets inside by its own load, test and store, after at most the unlock of the core inside |
| LockOrder.CodeBalanced | src/process.c:290-513 | every call takes process_lock, pid_lock and the leaf locks in strict order, list_lock only inside process_lock, none twice, and ends without any |
| LockOrder.CodeTakes | src/process.c:290-513 | every call takes each of the five locks exactly as often as its list operations, allocations and messages say |
| LockOrder.CodeAsScheduled | src/process.c:290-513 | every call takes process_lock once for each critical section that it has in the transition system |
| LockOrder.ScriptsAreCalls | src/process.c:290-513 | those sections are the ones of the calls of `SchedulerCalls`, call by call |
| LockOrder.ForkBalanced | src/process.c:104-147 | fork with any number of allocations keeps the order, with alloc_new_process nested under process_lock |
| LockOrder.BalancedRemoveHead | src/lib.c:24-42 | the second unlock of remove_list_head leaves the locks held unchanged |
| LockOrder.NoDeadlock | src/process.c:104-513 | in every reachable state with a core in lock code some core can move, no core waits for a lock it holds, and every lock has at most one holder, whose word is set |
| KernelLists.HeadList.Append | src/lib.c:10-22 | append_list_tail adds the item at the end of the sequence that the links represent |
| KernelLists.HeadList.RemoveHead | src/lib.c:24-42 | remove_list_head takes the first item, or returns NULL on an empty list |
| KernelLists.HeadList.Count | src/lib.c:46-56 | get_list_count returns the length of the represented sequence |
| KernelLists.HeadList.Remove | src/lib.c:58-82 | remove_list unlinks exactly the first process with that wait value and keeps the order of the others, also at the head and at the tail |
| KernelLists.ProcessControl.Wake | src/process.c:339-352 | one core's part of wake_up equals the filter specification |
| KernelLists.ProcessControl.MoveSleepers | src/process.c:339-352 | the loop terminates, the wait list loses exactly the sleepers of the channel, the ready list gains them at its end in their order, and only their state changes |
| KernelLists.WakeUp | src/process.c:339-352 | wake_up does this on every core and keeps every core's lists well linked |
| KernelLists.WakeAgrees | src/process.c:339-352 | the relinking wake_up and the one of the transition system move the same processes |
| KernelLists.ProcessControl.Schedule | src/process.c:245-288 | the head of the ready list, or the idle process, becomes current and running; nothing else changes |
| KernelLists.ProcessControl.Yield | src/process.c:290-322 | with an empty ready list nothing changes; otherwise the head becomes current and the old process goes to the tail unless its pid is below 4 |
| KernelLists.ProcessControl.Sleep | src/process.c:324-337 | the current process goes to the end of the wait list with state and channel set, the next one runs, and no pid and no other entry changes |
| KernelLists.ProcessControl.ListKilled | src/process.c:375-388 | exit appends the current process to the kill list and touches no other list |
| KernelLists.ProcessControl.Reap | src/process.c:390-429 | wait takes the first process killed under the pid off the list and zeroes its entry, or changes nothing |
| KernelSteps.Yield | src/process.c:290-322 | the relinking yield and the one of the transition system leave the same lists, current process and table entries |
| KernelSteps.Sleep | src/process.c:324-337 | the same for sleep |
| KernelSteps.ListKilled | src/process.c:375-388 | the same for the kill-list append of exit |
| KernelSteps.ExitSchedule | src/process.c:375-388 | the same for the last schedule of exit |
| KernelSteps.Reap | src/process.c:390-429 | the same for wait, which returns NULL exactly when the transition system frees nothing |
| KernelSteps.WakeAll | src/process.c:339-352 | the same for wake_up on all cores at once |
| Buddy.InitResult | src/memory.c:34-62 | buddy_init's blocks are aligned to their own size, cover each byte of the whole pages of the region once and nothing else, and no two absolute buddies below the top order are both free |
| Buddy.AllocLists | src/memory.c:180-198 | buddy_alloc takes the front of the smallest sufficient non-empty list, exactly the upper halves go to the lists in between, and NULL is returned if and only if every list of that order or above is empty |
| Buddy.AllocTiles | src/memory.c:180-198 | the returned block and the new free blocks cover exactly what was free, byte by byte and in pages |
| Buddy.AllocAligned | src/memory.c:180-198 | the returned block and all free blocks stay aligned to their size |
| Buddy.FreeKeepsLengths | src/memory.c:201-231 | on the lists as sequences the merging loop changes no length; they represent the rings when every pushed block is on no list, which holds for kfree of live pages from a good start |
| Buddy.RelBuddyValue | src/memory.c:205-207 | the xor with the block bit is plus or minus the block size, by the parity of the offset |
| BuddyRuns.BootInv | src/memory.c:611-616 | after init_memory the invariant of the allocator runs holds |
| BuddyRuns.FreeMerges | src/memory.c:201-231 | what kfree of a live page does to the lists: one order-0 block exchanged, at most one order-1 block moved to the front |
| BuddyRuns.GoodStartIsSound | src/memory.c:34-257 | in every legal run from such a region free blocks stay aligned, pairwise disjoint and disjoint from live pages, and kalloc never returns a live page |
| BuddyRuns.BadStartIsUnsound | src/memory.c:201-231 | for every other region a concrete legal run ends with a page on two free lists |
| BuddyRuns.SoundIffGoodStart | src/memory.c:34-257 | soundness over every legal run holds if and only if the start is not a multiple of 8 MB or the region is smaller than 8 MB |
| BuddyRuns.OddStartMergesOnce | src/memory.c:205-228 | from an odd multiple of 2 MB no kfree in any legal run merges above order 0 |
| BuddyRuns.LifetimeBudget | src/memory.c:201-257 | from a good start, after any legal run the free pages are the region's pages minus the successful kallocs, and kalloc fails exactly when all were granted |
| BuddyRuns.DistinctGrants | src/memory.c:252-257 | without kfree, k kallocs return the smaller of k and the number of pages, all distinct |
| BuddyRuns.AllocFresh | src/memory.c:252-257 | kalloc returns a page that is not live |
| BuddyMemory.Allocator.constructor | src/memory.c:38-40 | list_init leaves every circular list empty |
| BuddyMemory.Allocator.ListAdd | src/memory.c:21-26 | list_add puts the block in front of the represented list and keeps every ring closed both ways |
| BuddyMemory.Allocator.ListDel | src/memory.c:28-31 | list_del takes exactly that block out and keeps every ring closed |
| BuddyMemory.Allocator.LargestFit | src/memory.c:46-50 | the scan finds the largest order that fits and is aligned |
| BuddyMemory.Allocator.BuddyInit | src/memory.c:34-62 | the carving loop terminates with the lists of the specification |
| BuddyMemory.Allocator.BuddyAlloc | src/memory.c:180-198 | the relinking allocation returns the specified block and leaves the specified lists |
| BuddyMemory.Allocator.BuddyFree | src/memory.c:201-231 | the merging loop leaves the specified lists, each as long as before |
| BuddyMemory.Allocator.FindBlock | src/memory.c:209-218 | the walk of a ring terminates and finds a block exactly when it is listed |
| BuddyMemory.LegalFreeIsSafe | src/memory.c:201-231 | kfree of a live page never relinks a block that is already on a list |
| BuddyMemory.AddRingsIff | src/memory.c:21-26 | list_add makes a ring of the longer list if and only if the block was on no list |
| BuddyMemory.SafeIffGoodStart | src/memory.c:201-231 | every kfree of every legal run relinks only unlisted blocks if and only if the start is not a multiple of 8 MB or the region is smaller than 8 MB |
| BuddyMemory.BadStartLoops | src/memory.c:201-231 | in any other region, after the whole merging loop for a freed page list 0 starts with that page, and still does after the next kalloc has handed it out |
| PageTables.TableRoundTrip | include/memory.h:36-50 | a table entry made with V2P, attribute and type bits is a valid table descriptor that PDE_ADDR and P2V lead back from; its value is the physical address plus the attribute bits plus 2 |
| PageTables.BlockRoundTrip | include/memory.h:45-50 | a block entry is a valid block descriptor and both address masks give back its physical address; its value is that address plus the attribute bits |
| PageTree.LeafByPath | src/memory.c:310-351 | on well-formed tables the hardware walk reads the very entry that the routines' paths lead to |
| PageTree.IndexBits | src/memory.c:310-391 | the indices of the three levels are bits 47:39, 38:30 and 29:21 of the address |
| PageTree.IndicesIdentifyPage | src/memory.c:310-351 | two 48-bit addresses have equal indices at all three levels exactly when they are in the same 2 MB page |
| PageTree.AddedPaths | src/memory.c:310-351 | storing one entry adds exactly one path and changes no other |
| PageTree.MapSetsOnePage | src/memory.c:372-391 | a stored block changes the descriptor that the hardware reads for exactly its page |
| PageTree.TablesFrame | src/memory.c:310-351 | memories that agree on the tables under a root have the same paths and translations there |
| PageTeardown.FreedIsReached | src/memory.c:455-468 | free_table frees exactly the pages reached through the table |
| PageTeardown.FreedOnce | src/memory.c:455-468 | and none twice |
| PageTeardown.TreeListIsTree | src/memory.c:455-476 | free_table and the root's kfree free every page of the tree exactly once and nothing else |
| PageTeardown.ChildrenBeforeParents | src/memory.c:455-476 | every page is freed before the table that leads to it |
| PageTeardown.PageFreedPaths | src/memory.c:393-404 | free_page takes exactly the path of its page out of the tree |
| PageTeardown.PageFreedUnmaps | src/memory.c:393-404 | free_page unmaps exactly its 2 MB page and changes no other translation |
| PageTeardown.VmListIsTree | src/memory.c:469-476 | free_vm, with its initial free_page, frees exactly the pages of the space |
| PageTeardown.VmListOnce | src/memory.c:469-476 | free_vm frees no page twice |
| PageTeardown.VmListChildrenFirst | src/memory.c:469-476 | free_vm frees every page before the table that leads to it |
| PageMapping.GrownTree | src/memory.c:310-351 | adding tables keeps the tree exclusive and adds to it exactly the newly allocated pages |
| PageMapping.MappedTree | src/memory.c:372-391 | mapping adds to the tree exactly the block and the newly allocated tables |
| PageMapping.MapsTranslates | src/memory.c:372-391 | after map_page the page translates to pa and every other address as before |
| PageMapping.MapThenFreePage | src/memory.c:372-404 | free_page after a successful map_page restores every translation |
| KernelMemory.Machine.constructor | src/memory.c:611-616 | after init_memory nothing is allocated and the allocator's invariant holds |
| KernelMemory.Machine.Kalloc | src/memory.c:252-277 | a returned page was not allocated, is a cleared 2 MB page of kernel memory, and every other page is unchanged; NULL changes nothing; it fails exactly when no page is free, and otherwise takes one |
| KernelMemory.Machine.Kfree | src/memory.c:233-251 | exactly the given page leaves memory |
| KernelMemory.Machine.FindPgdEntry | src/memory.c:310-327 | the result is the level-1 table on the path of the address; when it is missing and asked for, a fresh cleared page is linked by a descriptor with the attribute bits, unless no page is free; no translation changes |
| KernelMemory.Machine.FindPudEntry | src/memory.c:329-351 | the same for the last-level table, also when only one of the two tables could be allocated: it fails exactly when fewer pages are free than tables are missing |
| KernelMemory.Machine.MapPage | src/memory.c:372-391 | it fails exactly when fewer pages are free than tables are missing; on success the hardware reads pa plus the attribute bits for exactly that 2 MB page and the old descriptor for every other; on failure no descriptor of a page changes; pages that are not tables of this root are unchanged and every new page is one of its tables |
| KernelMemory.Machine.FreePage | src/memory.c:393-404 | frees the mapped block and clears its entry, or changes nothing for an unmapped address |
| KernelMemory.Machine.FreeTable | src/memory.c:455-468 | the recursive loop terminates by level, frees the specified list in order, and reads no freed table |
| KernelMemory.Machine.FreeVm | src/memory.c:469-476 | frees the specified list in order; memory is the old one without the space |
| KernelMemory.Machine.CopyUvm | src/memory.c:519-536 | on success the destination gains a fresh page with the source page's bytes at 0x400000 and the tables to it, and every page outside the destination is unchanged; it succeeds exactly when one page more is free than tables are missing |
| KernelMemory.Machine.SetupUvm | src/memory.c:485-517 | on success the space gains a fresh page with the program; a failure after the first allocation frees the whole space, leaks nothing and frees nothing else; it succeeds exactly when the program was read and one page more is free than tables are missing |
| ProcessMemory.Processes.OwnedPages | src/process.c:104-147 | in every state of the process memory a page of a process is allocated, no byte of it is in a free block, and no other process owns it |
| ProcessMemory.Processes.AllocNewProcess | src/process.c:104-147 | memory is the old one with two cleared pages that were not allocated, taken by kallocs; the new stack and page map are apart from everything owned, the new space is empty and all others are untouched; it succeeds exactly when two pages are free |
| ProcessMemory.Processes.CreateUser | src/process.c:149-166 | it succeeds exactly when the program was read and five pages are free, and takes five; the new process maps exactly the 2 MB at 0x400000, as a block with the access flag, memory attribute 1 and user access, to a page with the program, and all others keep pages, contents and translations |
| ProcessMemory.Processes.Fork | src/process.c:448-476 | it succeeds exactly when five pages are free, and takes five; it has the effect from which `World` starts: the child maps exactly the 2 MB at 0x400000, as a block with the access flag, memory attribute 1 and user access, to a page not allocated before with the parent's bytes; every process, the parent included, keeps pages, contents and translations; all spaces stay disjoint |
| ProcessMemory.Processes.Exec | src/process.c:515-539 | the new image replaces the contents of the process's own user page; a missing file changes nothing and a failed read leaves the page cleared; the allocator, every translation and every other process are untouched |
| ProcessMemory.Processes.Reap | src/process.c:405-406 | kfree and free_vm have the effect from which `World` starts: the pages of the process are freed, each exactly once and nothing else, and all others are untouched |
| ProcessSpaces.AttachSound | src/memory.c:519-536 | giving one space its user page keeps all spaces well formed and pairwise disjoint |
| ProcessSpaces.ReapSound | src/process.c:405-406 | freeing one space keeps the others well formed, disjoint and unchanged |
| ProcessMemory.Processes.CreateAll | src/process.c:217-238 | creating several processes succeeds exactly when five pages are free for each, and leaves exactly those, all disjoint, each mapping its own program |
| ProcessSpaces.FivePages | src/process.c:104-147 | a process with its user page takes five pages that were not allocated before |
| ProcessSpaces.BirthsAreBounded | src/process.c:104-147 | five times the number of processes ever made is at most the number of pages of the region |
| KernelMemory.TakesOk | src/memory.c:252-277 | any number of kallocs in a row return distinct pages that were not allocated and keep the allocator's invariant over the grown set of allocated pages |
| KernelMemory.FreesOk | src/memory.c:233-251 | any number of kfrees of allocated pages in a row keep it over the remaining pages |
| ProcessSpaces.ForkKeeps | src/process.c:448-476 | from a sound state, kallocs whose pages become the stack, tables and copied page of a new process lead to a sound state: all spaces disjoint, all others untouched, the child a copy, at least five pages taken |
| ProcessSpaces.ReapKeeps | src/process.c:405-406 | from a sound state, the kfrees of wait and free_vm, in their order, lead to a sound state without exactly the pages of that process, all others untouched |
| ProcessSpaces.WriteKeeps | src/process.c:515-539 | a write to the program page of one process keeps the state sound, its pages and translations, and every other process |
| World.WorldReachable | src/process.c:390-513 | in every state of every run of scheduler, memory and files together the invariants of all three hold, exactly the live processes own memory, and unused entries have no open files; steps are given by their kallocs, kfrees, stores and file operations alone |
| World.RunningPages | src/process.c:375-429 | in every such state the process that a core runs, and the process whose stack it is on, own their pages, which are allocated, in no free block and owned by no other |
| World.ForksAreBounded | src/process.c:448-513 | over any run at most a fifth as many processes are made as the region has pages, whatever is reaped |
| World.ForkSourceIsCaller | src/process.c:459-461 | a fork copies core 0's current process, which is the caller if and only if the call is made on core 0; the caller owns memory, and the copied process does exactly when core 0 is not idle |
| World.ForkCopies | src/process.c:459-496 | the child of a fork has the program page contents and the file array of the process that core 0 ran |
| World.Isolation | src/process.c:390-513 | over any run, a process that takes no step of its own and is not reaped keeps its stack, page map, pages, their contents, its translations and its file array, whatever all other processes and cores do |
| World.PlacedForLife | src/process.c:390-539 | over any run, until it is reaped a process keeps its stack, page map, exactly its pages and all its translations, whatever it and the others do |
| World.FirstWorld | src/process.c:217-238 | the booted scheduler, any sound memory of the processes that init_process creates and any counted file tables without open files are a start of these runs |
| Kernel.Kernel.Step | src/process.c:290-513 | every enabled step of every core is carried out on the machine, the processes and the file tables, is a step of `World` and keeps the invariant; it fails exactly for a fork without five free pages |
| FileTable.RunCounted | src/file.c:205-282 | in every run of open, close, read, fork and reap each descriptor counts the slots that point to it and is free exactly when there are none, each control block counts the slots that reach it and repeats its directory entry while used; no null pointer is followed and put_fcb's assertion holds |
| FileTable.DoCounted | src/file.c:205-282 | every single operation keeps this and does not crash |
| FileTable.DoActsAs | src/file.c:188-282 | the two tables with their counts implement what processes see: open gives a file at position 0 that shares its position with no other number, close, fork and reap remove or copy file numbers, a read moves the position of exactly the numbers that share it, and no other number changes its file or position |
| FileTable.CloseResult | src/file.c:268-282 | close empties exactly that slot; the descriptor keeps its position, loses one count and, at zero, its control block; the control block loses one user; nothing else changes |
| FileTable.FcbCountIsSum | src/file.c:205-282 | the count of a control block is the sum of the counts of its descriptors |
| FileTable.RefLive | src/file.c:273-282 | a used file slot leads to a used descriptor and a used control block |
| FileTable.ForkCounted | src/process.c:486-496 | the copying loop of fork keeps the counts after the child's slots are filled one by one |
| FileTable.ReapCounted | src/process.c:408-419 | the releasing loop of wait keeps the counts |
| FileTable.ForkThenReap | src/process.c:408-496 | reaping a freshly forked child restores both tables and all slots exactly |
| FileTable.OpenResult | src/file.c:226-266 | open_file fails exactly when a file slot, a descriptor or the file is missing and then changes nothing; otherwise the lowest free number leads through a free descriptor at position 0 to the control block of the first matching directory entry, loaded from it, with one more user; its 8 name and 3 extension bytes are those asked for, and empty, deleted and long-name entries are never opened |
| FileTable.OpenThenClose | src/file.c:226-282 | closing the number that open returned restores all slots, counts and targets |
| OpenFiles.FileSystem.constructor | src/file.c:284-316 | both tables start zeroed and counted |
| OpenFiles.FileSystem.SearchFile | src/file.c:114-142 | finds the first usable directory entry of that name, or none |
| OpenFiles.FileSystem.OpenFile | src/file.c:226-266 | returns the lowest free file number with the first free descriptor, or -1 with nothing changed when slot, descriptor or file is missing |
| OpenFiles.FileSystem.CloseFile | src/file.c:268-282 | drops one reference at both levels, keeps the shared position and every other descriptor and control block, and frees the descriptor at zero; the assertion never fails |
| OpenFiles.FileSystem.ForkFiles | src/process.c:486-496 | the loop after the copy counts every copied slot once |
| OpenFiles.FileSystem.ReapFiles | src/process.c:408-421 | the loop releases every slot once and leaves an empty array |
| OpenFiles.FileSystem.ReadFile | src/file.c:188-203 | for every chain, broken or shorter than the file included, and every size: the result and the new position are those of the specification (refusal, halt, overrun or exactly the bytes), and no count changes; every byte of the result is the byte of the volume at which the FAT links from the first cluster and the FAT specification place it, when the root directory fills whole sectors |
| Chains.ChainIsShort | src/file.c:144-186 | a chain that stops never repeats a cluster, so it has at most 65525 clusters |
| Chains.ClusterSlice | src/file.c:144-186 | every part of a cluster is the slice of the concatenated chain at its place |
| Chains.ChainReadable | src/file.c:144-186 | with clusters of at most 64 KB a chain that stops can be read from any position with any size; no position in it reaches 2^32 |
| Chains.SkipClusters | src/file.c:154-157 | the skip loop gives the link at the position, and halts exactly when a link on the way is an end mark |
| Chains.ReadRawData | src/file.c:144-186 | the bytes are the slice of the concatenated clusters from the position, of length min(size, chain bytes - position); the call halts exactly when the position is behind the chain or bytes are wanted behind a link that is no cluster number, and copies out of a cluster exactly when a nonzero offset plus the size reaches 2^32 |
| Fat16.FatRoundTrip | src/file.c:18-29 | get_cluster_value reads back the 16-bit entry whose bytes were stored low byte first |
| Fat16.OffsetIsExact | src/file.c:31-46 | without overflow of the whole sum the 32-bit offset is exact |
| Fat16.OffsetIsSpecified | src/file.c:31-46 | the code finds a cluster at the sector of the FAT specification if and only if the root directory fills whole sectors |
| Fat16.ChainOnDisk | src/file.c:144-186 | byte q of a file is the byte of the volume at offset q modulo the cluster size in the cluster that q / cluster size links of the first FAT lead to |
| Fat16.ClustersDisjoint | src/file.c:31-46 | distinct clusters do not overlap, nor do they overlap the FATs or the root directory |
| Fat16.ReadsCompose | src/file.c:188-203 | two calls of read_file in a row give the bytes and position of one larger read when the sum of position and sizes fits 32 bits, and conversely up to the halting read of no bytes at the end |
| Fat16.ReadIsIntended | src/file.c:188-203 | read_file gives the bytes of the file or a refusal, as intended, if and only if the 32-bit sum of position and size does not wrap into the file |
| Fat16.ReadOverruns | src/file.c:162-165 | from position 1 of a one-byte file, a read of 2^32 - 1 bytes passes the size check and copies out of one cluster |

## Left out

- UART, timer, interrupt controller and exception dispatch: device input and output; a timer tick is a wake_up followed by a yield.
- Boot, cache, MMU and TLB code: hardware effects; the walk reads the tables as they are in memory.
- Weak memory ordering: steps are sequentially consistent.
- printk formatting, memset, memcpy and memcmp bodies: text output and whole-sequence operations; print_lock is kept in `LockOrder`.
- Keyboard buffer, system-call table, ps listing and process names: thin tables and easy members.
- split_path and get_file_size: `open_file` is given the padded name and extension, or nothing for a malformed path.
- Runs during boot: init_process appends to lists without process_lock, so the scheduler and lock-order results start after it.
- Code that is not compiled in or has no live caller: LinkListMode, the disabled branches, find_pmd_entry, free_pmd, free_pud and free_pgd.
- Trap frames, register contents and what the kernel writes to its stacks: a context is the point at which it continues.
- KernelMemory.Machine.CopyUvm: the copy is of a whole page, the only size that fork passes.
- KernelMemory.Machine.Kalloc: uses the list functions of `Buddy` in place of the relinking routines, which `BuddyMemory` proves equal to them.
- OpenFiles.FileSystem.ReadFile: not for a position behind a chain that ends with a link that is no cluster number, nor for a position other than 0 in a file without clusters, which no read leaves.
- BuddyRuns.LifetimeBudget: says nothing about regions with a bad start, because the relinked words do not represent lists there.
- KernelMemory.Machine.SetupUvm: opening and reading the program file is an argument, the bytes it puts into the page or nothing.
- SchedulerTheorems.HoldIsBounded: does not bound the work inside a critical section.
- ProcessMemory.Processes.Exec: looking up and reading the program file are arguments, as for setup_uvm.
- ProcessMemory.Processes.CreateUser: a false result stands for a failed assertion, after which the kernel does nothing more.
- Pid overflow: pid_num is unbounded here.

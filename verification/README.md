# A verified model of GnuOS

A Dafny 4.11 model of the parts of the GnuOS kernel (x86_64, C) whose correctness is hardest to see from the code: the
buddy page allocator, the four-level page tables and the kernel heap built on it, user-range validation, the scheduler,
the concurrent protocols (RCU, reader-writer lock, rendezvous), capability transfer over IPC queues, and the Multiboot2
information passed from the UEFI stub to the kernel. `dafny verify dfyconfig.toml` checks everything.

Each subsystem is modelled in three layers.

- **State and operations.** Code that updates tables in place has a specification state (a datatype) and one function per
  operation, with the source's branches, constants and error codes: `BuddyPool`, `PoolApi`, `VmOps`, `KernelHeap`,
  `Scheduling`, `Capabilities`, `BootInfo`. Protocols that interleave are step relations over shared state, one atomic
  operation or one locked section per step, for any number of threads: `RwLock`, `Rcu`, `Rendezvous`, `IpcQueues`.
- **Theorems** about those: what every operation keeps, exact effect of each call, and safety over whole runs.
- **Code.** Classes and methods with the source's arrays, links, rings, cursors and loops, each proved to change its
  state exactly as the specification function does: `PhysicalMemory`, `VirtualMemory`, `UserAccess`, `Ring`, `Scheduler`,
  `CapabilityStore`, `IpcQueues.MessageQueue`, `BootInfoCode`.

The main results, in order of depth:

1. The allocator's free blocks are always exactly the maximal aligned runs of free pages, so allocation of an order fails
   if and only if no aligned free run of that size exists, and allocate-then-free restores the free blocks.
2. Mapping and unmapping refine insertion and deletion on an abstract page map, whatever tables were created or 2 MiB
   entries split on the way, and over every run of allocator, mapping, heap and client operations the tables form a tree
   of frames disjoint from free, client and heap frames. The boot tables start such a run.
3. The kernel heap allocator is all-or-nothing, and fails only for the reasons listed; free pages drop by the new tables only.
4. RCU: no node a reader holds is freed, reallocated or rewritten; it is at least as new as what was published when the
   read section began; observed generations never decrease; no node leaks.
5. The scheduler is fair in every run without wakeups whose task creations are one step each: runnable tasks stay within
   one tick, the minimum never decreases, shares differ by at most two. With wakeups it is fair throughout if and only if
   no task becomes ready late, and the unconditional form is false: for every d a run exists that wakes a task d ticks
   behind (`SchedulerRuns.LateWakeup`), because a woken task keeps its old virtual runtime.
6. Rendezvous delivery; reader-writer exclusion without deadlock; capability confinement down to the creating call, with
   every copy traced to the send that named it; the Multiboot2 round trip, and what the parsers return over any bytes.

Four properties that one might expect are false of the code; each has a counterexample and an exact condition.

- `pmm_init` keeps the pool inside the given region except for a base in the last page of the address space
  (`PoolApi.InitRegion`, `PoolApi.InitWraps`): the round-up wraps to 0.
- Splitting a 2 MiB entry preserves every translation exactly when bits 12..20 of the entry are zero
  (`PageTables.SplitExact`, `PageTables.SplitMoves`). Bit 12 is the PAT bit of such an entry in section 4.5 of volume 3A
  of the Intel 64 and IA-32 Architectures Software Developer's Manual, and the code keeps it as an address bit.
- Fairness, as in 5 above.
- The Multiboot2 parsers return for every memory content except exactly when the walk meets, and goes on from, a tag whose
  size is above 2^32 - 8: rounding it up in 32 bits gives 0 (`BootRoundTrip.ParsersSpin`, `BootRoundTrip.HugeTagSpins`).

Where a comment in the source and the code differ the model follows the code. Two details it keeps: a channel identifier is
cut to 16 bits before it is compared, so 65536 names channel 0; and a rendezvous sender whose message has been received
goes on waiting while another sender's message is pending (`RendezvousOutcomes.WaitingExact`).

## Model

| member | source | states |
|---|---|---|
| Arith.NestedOrDisjoint | kernel/mm/pmm.c:26-29 | two naturally aligned power-of-two blocks are nested or disjoint |
| Arith.BuddyHalves | kernel/mm/pmm.c:153-184 | the buddy (start xor size) is aligned, is its own inverse, and with the block makes up the aligned block one order up |
| BuddyPool.FitOrder | kernel/mm/pmm.c:232-247 | the order chosen for the next seeded block is the largest that fits the remaining pages and the alignment |
| BuddySteps.FillWithFree | kernel/mm/pmm.c:113-118 | adding a free block whose buddy is not free into the hole of a partial partition keeps every structural clause: tiling, owners, lists, no free buddies, exact count |
| BuddySteps.OpenHole | kernel/mm/pmm.c:120-127 | taking a free block off its list turns exactly its pages into the hole of the partition |
| BuddyOps.SplitDownFills | kernel/mm/pmm.c:129-151 | splitting gives back every upper half as a free block, leaves the lowest block of the target order detached, and touches no other page |
| BuddyOps.MergeOnce | kernel/mm/pmm.c:157-180 | one round of coalescing merges the detached block with its free buddy into one detached block one order up |
| BuddyOps.MergeUpFrees | kernel/mm/pmm.c:153-184 | the coalescing loop ends in a whole valid partition in which exactly the detached pages became free |
| BuddyOps.FreeBlockFrees | kernel/mm/pmm.c:153-184 | freeing a detached block restores the full invariant, makes exactly its pages free, and leaves the class of every other page |
| BuddyOps.AllocFromTakes | kernel/mm/pmm.c:129-151 | taking a block of a higher order ends in a valid pool where exactly the 2^k pages returned changed from free to allocated |
| BuddyOps.NarrowIsolates | kernel/mm/pmm.c:186-230 | the halving loop of reserve_page isolates exactly the requested page and frees all other pages of the covering block |
| BuddyOps.ReservePageExact | kernel/mm/pmm.c:186-230 | a free page, and nothing else, becomes reserved; the result says whether the page ends up reserved; every other case leaves the state as it was |
| BuddyOps.RangeSeeds | kernel/mm/pmm.c:232-247 | seeding greedily from page 0 ends in a valid pool whose every page is free |
| BuddyOps.SeededPoolFree | kernel/mm/pmm.c:249-272 | for every base and size the seeded pool is valid, entirely free, and has the rounded base and clamped page count; how many pages that is, and that it is the most that fit, is stated by PoolApi.InitMaximal |
| BuddyTheorems.FreeBlocksAreMaximalRuns | kernel/mm/pmm.c:113-184 | in every valid pool a block is a free block if and only if it is a maximal aligned run of free pages |
| BuddyTheorems.FreePagesFixBlocks | kernel/mm/pmm.c:113-184 | two valid pools with the same free pages have the same free blocks |
| BuddyTheorems.AllocBlockExact | kernel/mm/pmm.c:129-151 | allocation of order k fails if and only if no aligned run of 2^k free pages exists; otherwise exactly one such run becomes allocated |
| BuddyTheorems.AllocTakesSmallest | kernel/mm/pmm.c:129-151 | the allocated block is the lowest part of a free block of the smallest order that has one large enough |
| PoolApi.InitReady | kernel/mm/pmm.c:249-279 | after initialisation the invariant holds and every page but page 0, which is reserved, is free |
| PoolApi.InitRegion | kernel/mm/pmm.c:249-265 | the pool lies inside the given region if and only if the base is not in the last page of the address space or the region wraps |
| PoolApi.InitMaximal | kernel/mm/pmm.c:249-265 | the pool starts at the first page boundary in the region and holds as many whole 4096-byte pages as fit, up to 65536: one more would not fit; a region that wraps gives an empty pool |
| PoolApi.InitWraps | kernel/mm/pmm.c:253-265 | counterexample family: a base in the last page gives the pool of the lowest 65536 pages |
| PoolApi.AllocPageExact | kernel/mm/pmm.c:281-289 | fails if and only if no page is free; otherwise returns the address of one free page of the pool, never page 0, which becomes allocated while every other page keeps its class |
| PoolApi.FreePageExact | kernel/mm/pmm.c:291-316 | exactly the allocated page with this address becomes free; foreign, unaligned, free or reserved addresses change nothing at all |
| PoolApi.AllocThenFree | kernel/mm/pmm.c:281-316 | allocating a page and freeing it restores the very same set of free blocks |
| PoolApi.BoundsAreOverlap | kernel/mm/pmm.c:318-352 | the saturated and clamped page bounds select exactly the pool pages that overlap the byte range |
| PoolApi.ReserveRangeExact | kernel/mm/pmm.c:318-360 | every free page that overlaps the range becomes reserved and every other page keeps its class, for all 64-bit bases and sizes |
| PoolApi.Conservation | kernel/mm/pmm.c:362-370 | free + allocated + reserved pages equal the total, and g_free_pages is exact |
| PoolApi.StepTracked | kernel/mm/pmm.c:281-360 | any call keeps the outstanding addresses equal to the allocated pages, and reserved pages reserved |
| PoolApi.RunTracked | kernel/mm/pmm.c:249-360 | over every run from initialisation the outstanding addresses are exactly the allocated pages, and a page once reserved stays reserved |
| PoolApi.RunConserves | kernel/mm/pmm.c:249-370 | over every run free + outstanding + reserved = total and g_free_pages is exact |
| FreeLists.PushLinked | kernel/mm/pmm.c:81-92 | pushing on the doubly linked list prepends to the listed sequence |
| FreeLists.RemoveLinked | kernel/mm/pmm.c:94-111 | unlinking any element removes exactly it, for first, middle and last positions |
| PhysicalMemory.Pmm.FreeListPush | kernel/mm/pmm.c:81-92 | heads, next and prev arrays updated in place represent the list with the block in front |
| PhysicalMemory.Pmm.FreeListRemove | kernel/mm/pmm.c:94-111 | the arrays represent the list without the block |
| PhysicalMemory.Pmm.AddFreeBlock | kernel/mm/pmm.c:113-118 | the in-place state equals the specification's |
| PhysicalMemory.Pmm.RemoveFreeBlock | kernel/mm/pmm.c:120-127 | the in-place state equals the specification's |
| PhysicalMemory.Pmm.AllocBlock | kernel/mm/pmm.c:129-151 | search and split loops on the arrays compute the specification's allocation |
| PhysicalMemory.Pmm.Coalesce | kernel/mm/pmm.c:153-181 | the merging loop on the arrays stops at a detached block that, once listed, gives the specification's result |
| PhysicalMemory.Pmm.FreeBlock | kernel/mm/pmm.c:153-184 | marking, merging and listing on the arrays compute the specification's free |
| PhysicalMemory.Pmm.ReservePage | kernel/mm/pmm.c:186-230 | the halving loop on the arrays computes the specification's reservation, with the same result code |
| PhysicalMemory.Pmm.AddFreeRange | kernel/mm/pmm.c:232-247 | the seeding loop on the arrays computes the specification's seeding |
| PhysicalMemory.Pmm.Init | kernel/mm/pmm.c:249-279 | reset and seeding give the specification's initial pool for every 64-bit base and size, which PoolApi.InitMaximal and PoolApi.InitReady fix outright |
| PhysicalMemory.Pmm.AllocPage | kernel/mm/pmm.c:281-289 | refines the specification's page allocation |
| PhysicalMemory.Pmm.FreePage | kernel/mm/pmm.c:291-316 | refines the specification's page free, including all rejected addresses |
| PhysicalMemory.Pmm.ReserveRange | kernel/mm/pmm.c:318-360 | refines the specification's range reservation |
| PageWords.EntryDecodes | kernel/mm/vmm.c:302-333 | the entry word composed by or-ing bits reads back as the same frame and permissions, with the 2 MiB bit clear |
| PageWords.TableEntryDecodes | kernel/mm/vmm.c:159-185 | a table entry reads back as present, not large, pointing at the table |
| PageTables.QueryReads | kernel/mm/vmm.c:403-449 | the abstract page map is what four nine-bit indices, present and size bits and the 4 KiB, 2 MiB or 1 GiB offset select, written out on the words of memory |
| PageTables.LinkEmptyWalks | kernel/mm/vmm.c:159-185 | linking a zeroed table where nothing was present changes no walk |
| PageTables.LinkTree | kernel/mm/vmm.c:120-185 | linking a frame that is no table yet keeps the tables a tree, each referenced by one entry, and adds exactly that table |
| PageTables.SplitMeans | kernel/mm/vmm.c:120-157 | for an aligned 2 MiB entry every address reads the same frame and flags through the split table |
| PageTables.SplitExact | kernel/mm/vmm.c:120-157 | splitting preserves the meaning of every address if and only if bits 12..20 of the entry are zero |
| PageTables.SplitMoves | kernel/mm/vmm.c:120-157 | counterexample: with any of those bits set, address 0 of the page already reads differently |
| PageTables.LeafWriteWalks | kernel/mm/vmm.c:302-355 | writing a last-level entry changes exactly the walks through it |
| VmProofs.NextTableQuiet | kernel/mm/vmm.c:159-185 | creating or following the next table changes no translation, keeps the joint invariant, and fails only without a free frame or at a large entry |
| VmProofs.NextTableRights | kernel/mm/vmm.c:159-185 | a table created on the way is entered as writable, executable and not user-accessible |
| VmProofs.SplitEntryQuiet | kernel/mm/vmm.c:120-157 | splitting in place changes no translation, keeps the joint invariant, and failing changes nothing |
| VmProofs.SplitRights | kernel/mm/vmm.c:120-157 | after a split the rights along the two levels combine to the rights the 2 MiB entry gave |
| VmProofs.WalkCreateQuiet | kernel/mm/vmm.c:187-257 | the creating walk returns the last-level table of the address or fails, in both cases with every translation unchanged |
| VmProofs.WalkExistingQuiet | kernel/mm/vmm.c:187-257 | the same for the walk that creates nothing but may split |
| VmProofs.MapExact | kernel/mm/vmm.c:302-333 | success maps exactly the page of the address, unmapped before, to the frame and flags; failure leaves every translation, and happens only for misaligned arguments, an existing mapping, missing root or exhausted pool |
| VmProofs.UnmapExact | kernel/mm/vmm.c:335-355 | success unmaps exactly the page of the address; failure leaves every translation and happens only when misaligned or not reachable |
| KernelHeap.MapRunPends | kernel/mm/vmm.c:477-489 | the mapping loop maps a prefix of the range to distinct fresh frames and changes no other translation |
| KernelHeap.RollbackRestores | kernel/mm/vmm.c:491-500 | the clean-up loop restores every translation and returns every data frame |
| KernelHeap.HeapAllOrNothing | kernel/mm/vmm.c:451-504 | either the whole range at the cursor is mapped and the cursor moves past it inside the window, or every translation and the cursor are as before and only new tables left the pool |
| KernelHeap.HeapPages | kernel/mm/vmm.c:451-504 | after success each page of the range translates to its own frame with the flags plus writable; frames are distinct, were free, are no tables; all other addresses read as before |
| HeapFailure.HeapFails | kernel/mm/vmm.c:451-504 | a request fails only if empty, without root, beyond the window, over a page already mapped, or with no more frames left than it asks for |
| VmRuns.OneUse | kernel/mm/vmm.c:127-185 | a frame is at most one of free, page table, client-owned, behind the heap |
| VmRuns.StepInv | kernel/mm/vmm.c:120-504 | every client, map, unmap, heap and reserve operation keeps the joint invariant of allocator and tables |
| VmRuns.RunInv | kernel/mm/vmm.c:120-504 | the joint invariant holds in every state of every run whose clients free and write only their own frames; heap ranges never overlap |
| VmRuns.TablesCost | kernel/mm/vmm.c:451-504 | the free count drops by exactly the new tables plus the frames held |
| VmRuns.BootSound | kernel/init/kmain.c:570-574 | pool initialisation, reservation of the kernel image holding the boot tables, and those tables give a state that satisfies the joint invariant |
| VmRuns.BootNodes | kernel/arch/x86_64/boot/entry.S:75-102 | a path from the root of the boot tables leads to a table exactly for the three tables laid out, and to which one |
| VmRuns.BootIdentity | kernel/arch/x86_64/boot/entry.S:75-102 | the boot tables map exactly the first GiB, each address to itself, present and writable |
| VmRuns.HeapAboveBoot | kernel/mm/vmm.c:259-294 | the heap window that vmm_init computes is 0x44200000 to 0x54200000, and the boot tables map nothing in it |
| VirtualMemory.Vmm.SplitLargePdEntry | kernel/mm/vmm.c:120-157 | the loop that fills the new table refines the specification's split |
| VirtualMemory.Vmm.GetOrCreateNextTable | kernel/mm/vmm.c:159-185 | refines the specification |
| VirtualMemory.Vmm.WalkToPt | kernel/mm/vmm.c:187-257 | refines the specification's creating and non-creating walks |
| VirtualMemory.Vmm.MapPage | kernel/mm/vmm.c:302-333 | refines the specification's map |
| VirtualMemory.Vmm.UnmapPage | kernel/mm/vmm.c:335-355 | refines the specification's unmap |
| VirtualMemory.Vmm.Translate | kernel/mm/vmm.c:357-401 | returns the frame address of the abstract page map, or nothing |
| VirtualMemory.Vmm.QueryMapping | kernel/mm/vmm.c:403-449 | returns frame address and permissions of the abstract page map, or nothing |
| VirtualMemory.Vmm.AllocKernelPages | kernel/mm/vmm.c:451-504 | the mapping and clean-up loops refine the specification, with its 64-bit overflow checks |
| UserAccess.ValidateRange | kernel/mm/uaccess.c:11-55 | accepts exactly the empty range and the ranges that start above 0, end within the user limit without wrapping, and whose every byte is mapped user-accessible (and writable for writes); the page loop ends |
| UserAccess.PageDecides | kernel/mm/uaccess.c:34-52 | checking one page at its base settles every byte of the range in that page |
| RwLock.StepInv | kernel/lib/rwlock.c:15-66 | every atomic operation of any thread keeps: counter = threads between increment and decrement, flag = owners, no reader with a writer |
| RwLock.Exclusion | kernel/lib/rwlock.c:15-66 | in every state of every run of fewer than 2^32 threads at most one writer is inside, no reader is inside with it, and the counter is exact |
| RwLock.AllOutMeansFree | kernel/lib/rwlock.c:5-66 | when all threads are outside the lock is in its initial state |
| RwLockProgress.StepExact | kernel/lib/rwlock.c:15-66 | a reader enters exactly when no thread holds the writer flag, a writer takes the flag exactly when no thread holds it and enters exactly when no reader is counted; no other operation waits |
| RwLockProgress.SomeoneAdvances | kernel/lib/rwlock.c:15-66 | unless all threads are outside, some thread has a step that lowers what is left to do |
| RwLockProgress.NeverStuck | kernel/lib/rwlock.c:5-66 | every run can be continued until all threads are outside and the lock is in its initial state: no deadlock |
| Rcu.ReaderInv | kernel/lib/rcu.c:24-37 | lock, dereference, look and unlock of any reader keep the invariant: exact count, one owner per node, linked callback list, held nodes guarded, generations ordered; which node a dereference returns is RcuOutcomes.ReaderExact |
| Rcu.UpdaterInv | kernel/init/kmain.c:174-202 | allocate, write, publish and call_rcu keep the invariant, including the linked callback list |
| Rcu.ReclaimerInv | kernel/lib/rcu.c:67-100 | pop, wait, reclaim and count keep the invariant |
| Rcu.ReclaimerHeld | kernel/lib/rcu.c:39-100 | waiting for a zero count lets no held node through to reclamation |
| Rcu.HeldIsStable | kernel/lib/rcu.c:24-100 | no step of any party frees, reallocates or rewrites a node some reader holds |
| Rcu.ReadSectionSafe | kernel/init/kmain.c:126-212 | over every run, from its dereference until it leaves, a reader's node stays allocated with the same generation and is not handed out again; the count is not zero, so the unlock's early return is never taken; such a run exists by RcuOutcomes.GracePeriod |
| Rcu.GenerationsGrow | kernel/init/kmain.c:152-202 | over every run the generations one reader looks at never decrease |
| Rcu.NothingLeaks | kernel/init/kmain.c:126-212 | every allocated node has exactly one owner; the reader count and the queued and completed counters are exact; at rest only the published node is in use |
| RcuOutcomes.ReaderExact | kernel/lib/rcu.c:24-37 | after the lock a dereference holds a node if and only if it is the published one; a look sees its generation; the unlock leaves in two steps |
| RcuOutcomes.CurrentGrows | kernel/init/kmain.c:185-195 | over every run the published generation never decreases |
| RcuOutcomes.HeldIsFresh | kernel/init/kmain.c:163-166 | over every run the node a reader holds is at least as new as the one published when its section began |
| RcuOutcomes.LookIsFresh | kernel/init/kmain.c:163-166 | a look during a section sees at least the generation published when the section began |
| RcuOutcomes.UpdaterExact | kernel/init/kmain.c:126-202 | an update is dropped exactly when all 32 nodes are in use and otherwise takes the first unused one, gives it a generation above the published one, publishes it and queues the node it replaced |
| RcuOutcomes.ReclaimerExact | kernel/lib/rcu.c:39-100 | callbacks are taken oldest first; a taken node is released exactly when every reader is outside; then it is unused and counted |
| RcuOutcomes.GracePeriod | kernel/init/kmain.c:126-212 | a run exists in which a reader holds the old node while a newer one is published, the old one is retired and the reclaimer waits for the reader |
| IpcArguments.ResolveSender | kernel/ipc/ipc.c:151-170 | a running task resolves to itself or is refused, exactly when it names another task; with none running the name given is taken |
| Rendezvous.DepositStep | kernel/ipc/ipc.c:514-559 | a deposit keeps the invariant of every channel and thread and only extends histories |
| Rendezvous.TakeStep | kernel/ipc/ipc.c:585-637 | a receive keeps the invariant of every channel and thread and only extends histories |
| Rendezvous.WakesExactly | kernel/ipc/ipc.c:561-583 | the waiting sender's test succeeds exactly when its own message was received and no other is pending; its channel is still valid; what the step then does is RendezvousOutcomes.WaitingExact |
| Rendezvous.Delivery | kernel/ipc/ipc.c:514-637 | over every run the receipts are the first deposits in order with identical bytes, and generation plus pending is the number of deposits |
| Rendezvous.SendMeansReceived | kernel/ipc/ipc.c:514-583 | a send that returns 0 made its own deposit and that deposit was received unchanged; runs in which one returns exist by RendezvousOutcomes.SendReturns |
| Rendezvous.ReceiveMeansSent | kernel/ipc/ipc.c:585-637 | a receive that returns 0 took exactly one deposit of its channel, unchanged |
| Rendezvous.HistoryGrows | kernel/ipc/ipc.c:514-637 | histories are only ever extended: nothing is lost, repeated or rewritten |
| Rendezvous.ShortReceive | kernel/ipc/ipc.c:607-614 | a receive with too small a buffer changes no channel, and the next receive with room for the message gets it |
| RendezvousOutcomes.SendBegins | kernel/ipc/ipc.c:514-527 | a send goes on with exactly the identifier, resolved sender and bytes given, or fails with -1 exactly for a bad payload or a sender other than the running task |
| RendezvousOutcomes.TryingExact | kernel/ipc/ipc.c:529-559 | -2 exactly for a channel not in service, held up exactly while a message is pending, otherwise the message becomes the next deposit and nothing else changes |
| RendezvousOutcomes.WaitingExact | kernel/ipc/ipc.c:561-583 | a waiting sender returns 0 exactly when nothing is pending and its own deposit has been received; otherwise nothing changes and it never fails |
| RendezvousOutcomes.ReceivingExact | kernel/ipc/ipc.c:585-637 | -2 exactly for a channel not in service, waits exactly while nothing is pending, -4 exactly when the message does not fit, otherwise returns the last deposit and records its receipt |
| RendezvousOutcomes.SendReturns | kernel/ipc/ipc.c:514-637 | for every sender and non-empty message a run exists in which it is sent, received whole, and the send returns |
| Ring.Queue.Enqueue | kernel/sched/sched.c:50-60 | appends to the queued sequence, or fails exactly when full |
| Ring.Queue.Dequeue | kernel/sched/sched.c:62-72 | removes and returns the oldest value, or fails exactly when empty |
| Scheduling.Best | kernel/sched/sched.c:148-179 | the scan returns a ready task that no ready task precedes by (vruntime, tid), or none when none is ready |
| SchedulerProofs.Room | kernel/sched/sched.c:50-60 | a task that is not ready always finds room in the ready queue |
| SchedulerProofs.BeginInv | kernel/sched/sched.c:339-368 | the first unused slot is taken, and none is found exactly when none is unused; the new task is blocked in no queue at the current minimum vruntime with the next identifier; nothing else changes; the invariant is kept |
| SchedulerProofs.StartInv | kernel/sched/sched.c:288-324 | at the start every slot is unused, every queue empty, all counters zero, and the invariant holds |
| SchedulerProofs.AbortUndoes | kernel/sched/sched.c:370-378 | giving up a creation makes its slot unused again and leaves every other task, every queue and every counter but the next identifier as before the creation |
| SchedulerProofs.AbortInv | kernel/sched/sched.c:370-378 | giving up a creation keeps the invariant and changes only that slot, to unused |
| SchedulerProofs.FinishInv | kernel/sched/sched.c:380-396 | a created task is always published to the end of the ready queue; nothing else changes |
| SchedulerProofs.WaitInv | kernel/sched/sched.c:434-471 | waiting succeeds exactly when a task is running, which becomes blocked at the end of that queue; otherwise nothing changes; the invariant is kept |
| SchedulerProofs.WakeInv | kernel/sched/sched.c:98-132 | waking readies exactly the oldest waiter, at the end of the ready queue, and requests a reschedule; it fails only on an empty queue and then changes nothing |
| SchedulerProofs.WakeAllExact | kernel/sched/sched.c:486-499 | waking all readies exactly that queue's tasks, in order, empties it and counts them; no other task, queue or counter changes |
| SchedulerProofs.PreemptInv | kernel/sched/sched.c:525-587 | preemption succeeds exactly when requested with a running task, which goes to the end of the ready queue; otherwise only the request is cleared |
| SchedulerProofs.YieldInv | kernel/sched/sched.c:632-665 | the running task goes to the end of the ready queue; without one nothing changes |
| SchedulerProofs.TimerExact | kernel/sched/sched.c:501-587 | the timer interrupt charges exactly the running task one tick of runtime and vruntime, moves the minimum to it and puts it at the end of the ready queue; nothing else changes but the counters |
| SchedulerProofs.KeptExact | kernel/sched/sched.c:185-216 | rebuilding the ready queue removes the chosen task and keeps the rest in order |
| SchedulerProofs.DispatchInv | kernel/sched/sched.c:589-630 | dispatch succeeds exactly when no table task runs and some task is ready; it runs the one with less vruntime than every other ready task, or as much and a smaller identifier, takes it out of the queue, counts a switch, and changes nothing else |
| SchedulerProofs.ExitInv | kernel/sched/sched.c:667-691 | exit succeeds exactly when a task runs, which becomes exited and is in no queue; no other task changes |
| SchedulerRuns.RunInv | kernel/sched/sched.c:288-691 | over every run: ready queue = ready tasks once each, at most one running task and it is current, each waiting task in exactly one wait queue |
| SchedulerRuns.StepFair | kernel/sched/sched.c:339-665 | a step from a fair state ends fair if and only if each task it makes ready is on time; the minimum never decreases |
| SchedulerRuns.FairRuns | kernel/sched/sched.c:288-665 | a run is fair throughout if and only if no task ever becomes ready late |
| SchedulerRuns.FairGap | kernel/sched/sched.c:148-179 | in a fair state two runnable tasks differ by at most one in vruntime |
| SchedulerRuns.EqualShares | kernel/sched/sched.c:501-630 | over any window of a prompt run in which two tasks stay runnable their ticks differ by at most two |
| SchedulerRuns.MinGrows | kernel/sched/sched.c:501-518 | g_cfs_min_vruntime never decreases over a prompt run |
| SchedulerRuns.PlainIsPrompt | kernel/sched/sched.c:339-396 | a call that is no wakeup, and publishes a task only right after its slot was reserved, makes no task ready late |
| SchedulerRuns.PlainRunsFair | kernel/sched/sched.c:148-219 | in every run of such calls runnable tasks differ by at most one in vruntime, g_cfs_min_vruntime never decreases, and ticks over a common window differ by at most two |
| SchedulerRuns.LateWakeup | kernel/sched/sched.c:98-132 | counterexample: for every d some run makes ready a task d ticks behind another ready task |
| SchedulerRuns.ExitedForever | kernel/sched/sched.c:134-146 | the slot of an exited task is never used again |
| Scheduler.TaskScheduler.constructor | kernel/sched/sched.c:288-324 | initialisation gives the specification's start state |
| Scheduler.TaskScheduler.CreateBegin | kernel/sched/sched.c:339-368 | the slot search and reservation refine the specification |
| Scheduler.TaskScheduler.CreateFinish | kernel/sched/sched.c:380-396 | publication, with its overflow branch, refines the specification |
| Scheduler.TaskScheduler.WaitOn | kernel/sched/sched.c:434-471 | refines the specification's wait |
| Scheduler.TaskScheduler.WakeOne | kernel/sched/sched.c:98-132 | the attempts loop, with stale entries and overflow, refines the specification |
| Scheduler.TaskScheduler.WakeAll | kernel/sched/sched.c:486-499 | the loop ends and refines the specification's wake-all |
| Scheduler.TaskScheduler.Tick | kernel/sched/sched.c:501-518 | refines the specification's tick |
| Scheduler.TaskScheduler.PreemptOnTick | kernel/sched/sched.c:525-587 | refines the specification's preemption |
| Scheduler.TaskScheduler.PickNextReady | kernel/sched/sched.c:148-219 | the scan and the drain-and-refill loops compute the least task and the queue without it |
| Scheduler.TaskScheduler.RunNext | kernel/sched/sched.c:589-630 | refines the specification's dispatch |
| Scheduler.TaskScheduler.Yield | kernel/sched/sched.c:632-665 | refines the specification's yield |
| Scheduler.TaskScheduler.Exit | kernel/sched/sched.c:667-691 | refines the specification's exit |
| Capabilities.ValidateTransfer | kernel/security/capability.c:105-134 | status 0 exactly when the owner holds the capability, it carries the transfer right and covers the rights asked for; each negative status names the first check that fails |
| Capabilities.CreateExact | kernel/security/capability.c:69-103 | -1 exactly without rights, -2 exactly on a full table, changing nothing; otherwise the first unused slot, and no other, holds the record asked for |
| Capabilities.CopyForOwnerExact | kernel/security/capability.c:136-195 | a copy succeeds exactly when the source may be passed on with these rights and a slot is unused: the target then owns the same object with exactly those rights in the first unused slot; a failed copy changes nothing |
| CapabilityStore.CapabilityTable.Create | kernel/security/capability.c:69-103 | the slot loop refines the specification and counts |
| CapabilityStore.CapabilityTable.ValidateTransfer | kernel/security/capability.c:105-134 | returns the specification's status codes in their order |
| CapabilityStore.CapabilityTable.CopyForOwner | kernel/security/capability.c:136-195 | refines the specification's copy and counts |
| IpcQueues.SendAccepted | kernel/ipc/ipc.c:172-201 | a send passes its checks exactly when the payload fits, the sender speaks for itself, and the capability is its own, transferable and covers the rights; what is then queued is exactly the identifier, sender, bytes and grant given; a refusal is -4 for the capability, else -1 |
| IpcQueues.CopyInv | kernel/ipc/ipc.c:495-512 | copying a received capability keeps the invariant and fails exactly when the table is full |
| IpcQueues.StepInv | kernel/ipc/ipc.c:172-512 | every section of every thread keeps the invariant, and no slot in use changes |
| IpcQueues.RootMade | kernel/security/capability.c:69-103 | over every run a capability without a parent was written, as it stands, by an earlier capability_create |
| IpcQueues.Rooted | kernel/security/capability.c:69-195 | over every run each capability descends from a root made by an earlier capability_create, names its object, and has rights within those that call gave |
| IpcQueues.Confinement | kernel/security/capability.c:69-195 | over every run a capability has the object of every capability it descends from and rights within theirs; only transferable ones have descendants |
| IpcQueues.SlotsKeep | kernel/security/capability.c:69-195 | over every run a slot in use never changes |
| IpcQueues.CopyFailsOnlyWhenFull | kernel/ipc/ipc.c:461-512 | receiving an accepted capability returns -5 exactly when all 128 slots are in use; otherwise the receiver owns a new copy of the sent object with the rights sent |
| IpcQueues.InOrder | kernel/ipc/ipc.c:172-299 | over every run the messages received followed by those queued are the messages sent |
| IpcOutcomes.EnqueueExact | kernel/ipc/ipc.c:202-235 | the checked message joins the end of its channel's queue, -2 exactly for a channel not in service, -3 exactly for a full one; failures change nothing |
| IpcOutcomes.ReceiveExact | kernel/ipc/ipc.c:237-299 | -1, -2, -3 and -4 each exactly in their case, changing nothing; otherwise exactly the oldest message is taken, and its capability copied exactly when there is one and it is wanted |
| IpcOutcomes.CopyingExact | kernel/ipc/ipc.c:495-512 | -5 exactly when all 128 slots are in use; otherwise the receiver owns, in the first unused slot, the sent object with the rights sent, and no other slot changes |
| IpcOutcomes.SentWasGiven | kernel/ipc/ipc.c:172-235 | over every run each message sent on a channel is what an earlier send naming that channel was given: bytes, grant and sender |
| IpcOutcomes.CopyWasSent | kernel/ipc/ipc.c:417-512 | over every run each copied capability was sent: the owner of its parent named that parent and exactly the copy's rights in an earlier send |
| IpcOutcomes.CapabilityPasses | kernel/ipc/ipc.c:417-512 | for every transferable capability, any of its rights and any receiver, a run exists in which the receiver ends up with exactly that copy |
| IpcQueues.MessageQueue.Send | kernel/ipc/ipc.c:210-235 | copies the bytes over the front of the tail slot and appends the message to the queue; returns -3 exactly when it holds 32, which changes nothing |
| IpcQueues.MessageQueue.Receive | kernel/ipc/ipc.c:268-299 | copies the oldest message to the front of the caller's buffer, touching no other byte of it, and removes exactly it; -3 exactly when empty and -4 exactly when it does not fit, leaving queue and buffer as they were |
| BootBytes.ReadsBack | boot/efi/x86_64/uefi_stub.c:475-521 | a little-endian field read from memory is the number stored |
| BootInfo.PickExact | kernel/arch/x86_64/boot/multiboot2.c:111-131 | the scan's best is the first available descriptor of largest length, or nothing when none has a positive length |
| BootInfoCode.Build | boot/efi/x86_64/uefi_stub.c:425-530 | reading the firmware's descriptors at its stride and writing fields in place at a cursor leaves exactly the tags and zeros, or returns 6, 7 or 8 without touching the buffer |
| BootInfoCode.FindLargestRegion | kernel/arch/x86_64/boot/multiboot2.c:65-134 | the cursor loop over arbitrary bytes computes the specification's walk |
| BootInfoCode.FindScreen | kernel/arch/x86_64/boot/multiboot2.c:136-209 | the cursor loop over arbitrary bytes computes the specification's walk |
| BootRoundTrip.RoundTrip | kernel/arch/x86_64/boot/multiboot2.c:65-209 | parsing what was built returns the identical framebuffer, or none, and the scan's best region, or failure, for every map and framebuffer that fits |
| BootRoundTrip.RegionFound | kernel/arch/x86_64/boot/multiboot2.c:65-134 | the region found is the first largest descriptor of EFI kind 1, 2, 3, 4 or 7, by pages times 4096 cut to 64 bits; none is found exactly when no such one has a length; the walk ends |
| BootLayout.FirmwareMapRead | boot/efi/include/uefi.h:86-93 | descriptors laid out as the UEFI specification says, at any stride, are read back in order |
| BootLayout.StatusExact | boot/efi/x86_64/uefi_stub.c:447-472 | 6 exactly without a map, 7 exactly for an empty one, 8 exactly when header, map, framebuffer and end tags do not fit the buffer or 32 bits |
| BootLayout.ImageLayout | boot/efi/x86_64/uefi_stub.c:470-530 | what is left in memory, read at the fixed offsets of the Multiboot2 specification: header, map tag, one entry for each descriptor with its type, framebuffer tag, end tag |
| BootWalks.ScanExact | kernel/arch/x86_64/boot/multiboot2.c:111-126 | over any bytes the entry scan ends with an available entry or what it began with, and no available entry is longer |
| BootWalks.FoundInBytes | kernel/arch/x86_64/boot/multiboot2.c:60-134 | over any bytes the region found is an available entry of a tag the walk passed and none of those is larger; it fails exactly without a header, at a malformed tag, or when no available entry has a length |
| BootWalks.ScreenInBytes | kernel/arch/x86_64/boot/multiboot2.c:136-209 | over any bytes a framebuffer is found if and only if the walk comes to a framebuffer tag long enough for its kind, and its fields are the ones there |
| BootRoundTrip.RegionWalkSpins | kernel/arch/x86_64/boot/multiboot2.c:85-128 | over any bytes the region walk never ends if and only if it meets a tag of size above 2^32 - 8 that it goes on from |
| BootRoundTrip.ScreenWalkSpins | kernel/arch/x86_64/boot/multiboot2.c:152-206 | the same for the framebuffer walk, which stops at the first framebuffer tag |
| BootRoundTrip.ParsersSpin | kernel/arch/x86_64/boot/multiboot2.c:60-209 | exactly when the two parsers fail to return, for any memory and address |
| BootRoundTrip.WalksEnd | kernel/arch/x86_64/boot/multiboot2.c:60-209 | a walk ends when the size fields of the tags it comes to, and of no other bytes, are at most 2^32 - 8 |
| BootRoundTrip.HugeTagSpins | kernel/arch/x86_64/boot/multiboot2.c:60-209 | counterexample family: such a tag wherever a walk comes to it, of any type but the end tag, makes it spin, unless it is refused (entries under 24 bytes) or is the framebuffer looked for |

## Left out

- Hardware plumbing: ports, PCI, interrupt controllers, timers, serial and screen output, panic, and the assembly context
  switch, which is an opaque hand-over between steps.
- TLB invalidation, the processor's combination of permissions across table levels, and weak memory ordering: the model
  is the software walk and sequentially consistent atomics. Physical frames are accessed by identity.
- Spinlocks and interrupt masking: a locked section is one step.
- Assumptions on the tables the kernel starts from, met by the boot tables: level-4 entries have bit 7 clear and 2 MiB
  entries are 2 MiB-aligned. Physical addresses are below 2^52.
- Wrap-around of 64-bit event counters (generations, ticks, published, queued and completed counts, task identifiers,
  vruntime) is not modelled; the reader counters of RCU and the reader-writer lock do wrap in the model.
- `vmm_init`: the operations use the heap window for slide 0, the only one the source sets; a slide other than 0 is not modelled.
- UserAccess.ValidateRange: the byte copies of uaccess_copy_from_user and uaccess_copy_to_user after it are not modelled.
- SchedulerRuns.FairRuns: task stacks, entry points and process identifiers are not part of a task record.
- Scheduler.TaskScheduler.WaitOn: wait queues are initialised once, before the run.
- BootInfoCode.Build: the memory map and the buffer are taken not to overlap, the two output pointers not to be null, and
  sizes are added without 64-bit wrap-around.
- BootInfoCode.FindLargestRegion: cursor and end are unbounded numbers; the source adds them in 64 bits, which differs only
  for boot information that ends less than 4 GiB below the top of the address space, or past it.
- BootInfoCode.FindScreen: cursor and end are unbounded numbers, as for the region.
- Liveness: beyond `RwLockProgress.NeverStuck`, no claim that a spinning writer, a waiting sender or a polling reclaimer
  eventually proceeds; that depends on the scheduling of threads.
- Channel names, capability_describe, the ACPI tag lookup, work queues, seccomp, shared memory, NUMA, printk, the dynamic
  loader and libc stubs: they would add only easy members.

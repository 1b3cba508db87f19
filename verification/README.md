# A verified model of the rumicos kernel core

rumicos is an x86_64 kernel. This project models the parts of it that decide who
owns memory and who may see which bytes, and proves what they promise:

- copy-on-write fork, its share-count table, and teardown of address spaces;
- the TLB shootdown broadcast and the active-CPU sets around CR3 loads;
- the lock-free structures: the multi-producer ring, the single-producer ring and
  the tagged stack;
- the pipe ring with its sleep and wake protocol, and the reference counts of pipe
  ends across descriptor tables;
- the buddy frame allocator, with its tracking bitmap and the insertion of memory
  regions around reserved ranges;
- the four-level page tables as a flat map, and the freeing of a table tree;
- the initial user stack of `execve` (System V AMD64 psABI, section 3.4.1) and the
  loading of ELF files (System V gABI, chapters 4 and 5);
- the newc archive printer and reader;
- the page cache over ramfs: concurrent fills and writeback.

## How it is built

Code that runs under a lock, or alone, is written in its own form: classes with the
fields that the kernel updates, methods with its loops, and contracts that say what
the new state is. Code that interleaves is a machine: a state, one step for each
atomic operation or locked section, an invariant that every step keeps, and theorems
about every state of every run (`IsRun`, `RunKeepsInv`) and about every call in it, from
its first step to its return and with its result (`CallReturns`, `PushReturns`).

Machine words are natural numbers with their wrap-around written out. `Bits` defines
the bitwise operators on naturals and relates them to remainder, quotient and sum.

What the components share is in `Common`. Joins between them are theorems too: the exec
stack is written through the page tables (`UserMemory`), and the tree walk of a teardown
is a run of the copy-on-write machine (`TeardownSteps`).

The allocator, the clock, the scheduler and interrupts appear as choices of steps:
which frame is handed out, which thread moves, when an IPI arrives.

## Where the code differs from what it is said to do

- `push` of the multi-producer ring can report a full ring when the ring is not full:
  a producer that loads `tail`, stalls while exactly 2^64 - N values are popped, and
  then loads `head`. `Mpsc.PushFailsOnlyWhenFullIff` is the exact condition and
  `Mpsc.PushCanFailOnEmptyRing` a run. First-in first-out order is not affected.
- Page-table entries are documented to hold 52-bit physical addresses; the frame mask
  has 36 bits, so an address survives if and only if it is aligned and below 2^48
  (`PageEntry.FrameRoundTripIff`).
- A full share-table bucket drops a claim, and the frame then counts as unshared. Fork
  and private mappings behave as copies if and only if the table tracks the frame or has room
  (`CowOverflow.ForkIsPrivateIff`, `CowOverflow.FileFaultIsPrivateIff`); there are runs in
  which a store reaches the other process or the file
  (`CowOverflow.ParentStoreReachesChild`, `CowOverflow.PrivateStoreReachesFile`).
- An exit frees the frames of MAP_SHARED pages although the page cache holds them: exactly
  these leaves break the counts (`CowMachine.TearPageKeepsInv`,
  `CowRefinement.TeardownNeedsPrivatePages`), and `CowOverflow.ExitLosesFilePage` is a run.
- `dup2` replaces a descriptor without the release hook, so the last close of a pipe
  end can leave the other side asleep (`PipeProtocol.StrandedIff`,
  `PipeProtocol.QuietCloseStrandsReader`).
- A pipe read or write of zero bytes takes "nothing transferred" for "empty" or "full" and
  goes to sleep. A thread can oversleep, and reader and writer can deadlock, if and only if
  a call is for zero bytes (`PipeProtocol.OversleepsIff`, `PipeProtocol.BothAsleepIff`).
- The page cache is documented to return no frame only if the bucket is full and the read
  fails; it does so exactly when the read fails (`PageCache.CallReturns`).
- Frame number 0 ends a free list. A usable memory-map entry that covers frame 0 makes the
  allocator lose the block at frame 0 and every block already listed under its order,
  while its counter still counts them (`BuddySpec.PushedIsFoundIff`,
  `BuddyAllocator.BuddyNode.Init`, `BuddyAllocator.LowMemoryIsLost`).
- The archive reader slices past the end of some archive of length n if and only if n is at
  least 113 and no multiple of four (`Cpio.WalkedInsideIff`).
- A program segment that shares a page with an earlier one replaces the whole page. The
  earlier bytes survive if and only if the later segment puts the same ones there
  (`Elf.RangeReadsIff`), which it does when both keep file and memory in step
  (`Elf.InStepAgrees`, `Elf.SharedPageOverwrites`).

## Model

| member | source | states |
|---|---|---|
| `CowSpec.NextBucket` | crates/proc/src/cow.rs:35-39 | frame 0 hashes to bucket 0, and from each frame to the next the bucket moves on by 158 or 159 of 256 |
| `CowSpec.NearFramesApart` | crates/proc/src/cow.rs:35-39 | two different frames fewer than 144 apart never share a bucket |
| `CowSpec.GapIsTight` | crates/proc/src/cow.rs:35-39 | two frames 144 apart that do |
| `CowSpec.RunIsRecorded` | crates/proc/src/cow.rs:30-59 | from an empty table, sharing any 4608 consecutive frames records every one of them |
| `CowSpec.ShareCounts` | crates/proc/src/cow.rs:41-59 | sharing raises the count by one if and only if the frame is tracked below the maximum or its bucket has room; otherwise the claim is dropped and nothing changes |
| `CowSpec.ReleaseCounts` | crates/proc/src/cow.rs:169-189 | a release lowers the count by one; the caller is told "sole" exactly when the count was 1 |
| `CowSpec.OnlyTheLastClaimantIsSole` | crates/proc/src/cow.rs:103-135 | of the n claimants of a frame, in any order, only the last is told "sole" |
| `CowSpec.ShareThenRelease` | crates/proc/src/cow.rs:41-59 | a share followed by a release restores the table |
| `CowTable.CowTable.Share` | crates/proc/src/cow.rs:41-59 | the bucket scan in place records exactly the specified share |
| `CowTable.CowTable.Refcount` | crates/proc/src/cow.rs:61-70 | reads the count, 1 for an untracked frame |
| `CowTable.CowTable.Resolve` | crates/proc/src/cow.rs:210-229 | the decision handed to the action and the table it leaves, decided in one critical section |
| `CowMachine.ForkMarkKeepsInv` | crates/proc/src/address_space.rs:622-687 | fork makes the parent entry read-only and CoW before it shares the frame; every claim stays counted |
| `CowMachine.ForkShareKeepsInv` | crates/proc/src/address_space.rs:622-687 | the share of fork counts the claim of the child that is under way, and keeps the invariant, if and only if the table has room |
| `CowMachine.ForkMapKeepsInv` | crates/proc/src/address_space.rs:622-687 | writing the child entry turns the pending claim into an entry claim |
| `CowMachine.ForkCopySharedKeepsInv` | crates/proc/src/address_space.rs:622-687 | a MAP_SHARED entry is copied to the child without a claim |
| `CowMachine.FileShareKeepsInv` | crates/proc/src/address_space.rs:534-550 | the share of a private file fault counts its claim on the cache frame, and keeps the invariant, if and only if the table has room |
| `CowMachine.FileMapKeepsInv` | crates/proc/src/address_space.rs:553-575 | the private file mapping gets the claim taken for it |
| `CowMachine.ReuseKeepsInv` | crates/proc/src/address_space.rs:690-737 | a sole claimant that write-faults reuses its frame, which then has exactly one claim |
| `CowMachine.CopyAwayKeepsInv` | crates/proc/src/address_space.rs:690-737 | any other claimant copies away and gives up its claim on the old frame |
| `CowMachine.UnmapReleaseKeepsInv` | crates/proc/src/address_space.rs:740-782 | munmap gives up the claim of the cleared entry and frees the frame only as the last claimant |
| `CowMachine.TearPageKeepsInv` | crates/proc/src/address_space.rs:920-967 | teardown of a leaf keeps the counts if and only if the leaf is not one of a MAP_SHARED mapping |
| `CowMachine.StepKeepsInv` | crates/proc/src/address_space.rs:448-967 | every safe step of every process (room for a share, no MAP_SHARED page in a teardown) keeps: share count = number of claims, and a writable private entry is the only claim on its frame |
| `CowRefinement.StepRefines` | crates/proc/src/address_space.rs:448-737 | every safe step does to the byte views of all processes and files what the eager-copy machine does |
| `CowRefinement.ForkIsEagerCopy` | crates/proc/src/address_space.rs:448-459 | in every run of safe steps, each process sees the bytes it would see if fork copied every page |
| `CowRefinement.ClaimsAreCountedIff` | crates/proc/src/cow.rs:103-135 | the count equals the claims (entries, claims under way, the page cache) in every state of a run if and only if every step was safe |
| `CowRefinement.WritableIsSole` | crates/proc/src/cow.rs:103-135 | in every run of safe steps a writable private entry names an uncached frame with one claim |
| `CowRefinement.FreeIsSafe` | crates/proc/src/address_space.rs:740-967 | a freed frame is in use; it is uncached and has just the claim that the step gives up, if and only if the step is safe |
| `CowRefinement.FreedOnce` | crates/proc/src/address_space.rs:740-967 | between two frees of a frame in a run of safe steps it was allocated again |
| `CowRefinement.TeardownNeedsPrivatePages` | crates/proc/src/address_space.rs:930-955 | teardown of a leaf changes no byte that processes and files hold, if and only if the leaf is not MAP_SHARED; else the page cache loses the frame |
| `CowOverflow.FileFaultIsPrivateIff` | crates/proc/src/address_space.rs:534-550 | after any run of safe steps, a private file fault and a store to the page agree with the eager machine if and only if the table tracks the frame or has room for it; else the store is in the file |
| `CowOverflow.ForkIsPrivateIff` | crates/proc/src/address_space.rs:622-687 | after any run of safe steps, the end of a fork and a store of the parent agree with the eager machine if and only if the table tracks the frame or has room for it; else the child sees the store |
| `CowOverflow.FillBucket` | crates/proc/src/cow.rs:30-59 | a reachable state with a full bucket: 32 private file pages whose frames hash alike |
| `CowOverflow.PrivateStoreReachesFile` | crates/proc/src/address_space.rs:534-550 | a reachable run in which a store to a private mapping changes the file |
| `CowOverflow.ParentStoreReachesChild` | crates/proc/src/address_space.rs:622-687 | a reachable run in which a store after fork changes the page of the other process |
| `CowOverflow.ExitLosesFilePage` | crates/proc/src/address_space.rs:920-967 | a reachable run in which an exit frees a frame that the page cache holds |
| `CowMachine.ForkDone` | crates/proc/src/address_space.rs:622-687 | when fork has copied everything, the table of the child is that of the parent, entry for entry |
| `CowPermissions.PermissionsAre` | crates/proc/src/address_space.rs:622-737 | in every run of safe steps a process can store to just the pages that the steps gave it to store to; fork keeps the bit of MAP_SHARED pages, and a copy-on-write fault keeps every bit |
| `CowPermissions.CowFaultResolves` | crates/proc/src/address_space.rs:690-737 | after a copy-on-write fault the page has the same bytes and can be written at once |
| `CowPermissions.ForkCopiesTable` | crates/proc/src/address_space.rs:622-687 | when fork returns, parent and child have equal tables in which every page that is not MAP_SHARED is read-only and CoW |
| `CpuMask.WithoutRemoves` | crates/proc/src/shootdown.rs:171-173 | clearing a bit removes that CPU and no other |
| `CpuMask.WithAdds` | crates/proc/src/shootdown.rs:102-105 | setting a bit adds that CPU and no other |
| `CpuMask.RemainingCountsTargets` | crates/proc/src/shootdown.rs:171-243 | the population count of the remote mask is the number of CPUs to wait for |
| `CpuMask.ActiveCpuMask.MarkActive` | crates/proc/src/shootdown.rs:102-105 | the mask gains the CPU |
| `CpuMask.ActiveCpuMask.MarkInactive` | crates/proc/src/shootdown.rs:108-111 | the mask loses the CPU |
| `Shootdown.MarkKeepsInv` | crates/proc/src/process.rs:419-436 | marking before the CR3 load keeps "loaded implies marked" |
| `Shootdown.LoadKeepsInv` | crates/proc/src/process.rs:419-436 | a CR3 load flushes the loaded PCID, so it brings in no stale translation |
| `Shootdown.UnmarkKeepsInv` | crates/proc/src/process.rs:419-436 | the old space is unmarked only after another one is loaded |
| `Shootdown.EditKeepsInv` | crates/proc/src/address_space.rs:553-575 | an edit makes older translations stale and starts the obligation of the initiator |
| `Shootdown.SnapshotKeepsInv` | crates/proc/src/shootdown.rs:120-122 | a CPU missed by the snapshot loads the space later and so without stale translations |
| `Shootdown.PostKeepsInv` | crates/proc/src/shootdown.rs:183-243 | the request is posted with remaining = number of targets, under the serialising lock |
| `Shootdown.FinishKeepsInv` | crates/proc/src/shootdown.rs:225-243 | remaining = 0 means that every target has invalidated |
| `Shootdown.InvalidateKeepsInv` | crates/proc/src/shootdown.rs:254-280 | the handler invalidates the page of the request in flight |
| `Shootdown.AckKeepsInv` | crates/proc/src/shootdown.rs:254-280 | an acknowledgement lowers remaining by one for a target that had not acknowledged |
| `Shootdown.StepKeepsInv` | crates/proc/src/shootdown.rs:183-280 | every step of every CPU keeps the protocol invariant |
| `Shootdown.ShootdownIsComplete` | crates/proc/src/shootdown.rs:183-243 | when the call has returned, no CPU with the space loaded holds a translation older than the edit, even if it switched in or out during the broadcast |
| `Shootdown.LoadedIsMarked` | crates/proc/src/process.rs:419-436 | in every run, a CPU with a space in CR3 is in its active set |
| `Shootdown.RequestsDoNotMix` | crates/proc/src/shootdown.rs:183-280 | an acknowledgement finds its own request with remaining = unacknowledged targets > 0, and a request is posted only when nothing of the earlier one is left |
| `ShootdownCalls.MarkedIffLoaded` | crates/proc/src/process.rs:419-436 | in every run, a CPU that is not switching is in the active set of a space if and only if it has the space loaded; a switching one also in those of the two spaces |
| `ShootdownCalls.SwitchReturns` | crates/proc/src/process.rs:419-436 | a switch that has returned has loaded and recorded the space and is in no other active set |
| `ShootdownCalls.ShootdownReturns` | crates/proc/src/shootdown.rs:183-243 | an edit and its shootdown end only when no CPU with the space loaded holds a translation from before the edit |
| `RingIndex.IndexIsMod` | crates/ipc/src/mpsc.rs:67-67 | masking with N - 1 is the position modulo N |
| `RingIndex.IndexApart` | crates/ipc/src/mpsc.rs:67-67 | positions less than N apart have different slots |
| `RingIndex.IndexOfWrapped` | crates/ipc/src/spsc.rs:56-57 | the slot does not depend on how often the position wrapped |
| `Mpsc.CasKeepsInv` | crates/ipc/src/mpsc.rs:60-78 | a successful exchange claims a ticket that nobody holds, in a slot that is free |
| `Mpsc.WriteSlotKeepsInv` | crates/ipc/src/mpsc.rs:66-68 | writing the claimed slot touches no other ticket |
| `Mpsc.StoreReadyKeepsInv` | crates/ipc/src/mpsc.rs:69-71 | the stamp publishes the value of its own ticket |
| `Mpsc.PopClearKeepsInv` | crates/ipc/src/mpsc.rs:91-92 | clearing the stamp frees the slot of the oldest ticket only |
| `Mpsc.PopAdvanceKeepsInv` | crates/ipc/src/mpsc.rs:93-94 | advancing head hands the slot back after the value was taken |
| `Mpsc.StepKeepsInv` | crates/ipc/src/mpsc.rs:52-95 | every atomic step of every producer and of the consumer keeps the ring invariant |
| `Mpsc.PopsInTicketOrder` | crates/ipc/src/mpsc.rs:52-95 | values are popped in ticket order, each exactly once, with at most N tickets outstanding |
| `Mpsc.SlotsAreExclusive` | crates/ipc/src/mpsc.rs:52-95 | no slot is owned by two producers, or by a producer and the consumer |
| `Mpsc.PopFailsIff` | crates/ipc/src/mpsc.rs:83-89 | pop returns nothing if and only if no ticket is outstanding or the oldest is still being written |
| `Mpsc.PushFailsIff` | crates/ipc/src/mpsc.rs:53-58 | push gives up if and only if the ring is full at its load of head, or exactly 2^64 - N pops passed since it loaded tail |
| `Mpsc.PushFailsOnlyWhenFullIff` | crates/ipc/src/mpsc.rs:53-58 | failing only when full holds if and only if the producer did not sleep through exactly 2^64 - N pops |
| `Mpsc.PushCanFailOnEmptyRing` | crates/ipc/src/mpsc.rs:53-58 | a reachable run in which a stalled producer is told that the empty ring is full |
| `Mpsc.PushReturns` | crates/ipc/src/mpsc.rs:52-80 | push returns success if and only if it got exactly one ticket for its value, which is then stamped in the ring; otherwise it returns the value, having claimed nothing, at a load that shows the ring full or comes exactly 2^64 - N pops late |
| `Mpsc.PopReturns` | crates/ipc/src/mpsc.rs:83-95 | pop returns the one value that it popped, or nothing, having popped nothing while no ticket was ready |
| `Spsc.StepKeepsInv` | crates/ipc/src/spsc.rs:49-74 | every step of producer and consumer keeps the ring invariant, with wrapping words |
| `Spsc.IsFifo` | crates/ipc/src/spsc.rs:49-74 | first in first out with at most N values, and the wrapped difference is the true occupancy |
| `Spsc.FailsIff` | crates/ipc/src/spsc.rs:49-68 | push fails exactly when full, pop exactly when empty, at their loads |
| `Spsc.PushReturns` | crates/ipc/src/spsc.rs:49-60 | push succeeds and has pushed its value once, or gives it back, has pushed nothing and saw the ring full |
| `Spsc.PopReturns` | crates/ipc/src/spsc.rs:62-74 | pop returns the one value that it popped, or nothing and saw the ring empty |
| `Spsc.SlotsAreExclusive` | crates/ipc/src/spsc.rs:55-71 | producer and consumer never touch the same slot |
| `TaggedStack.PackUnpack` | crates/memory/src/tagged_stack.rs:84-92 | pointer and tag survive packing |
| `TaggedStack.UnpackPack` | crates/memory/src/tagged_stack.rs:84-92 | a word is determined by its pointer and tag |
| `TaggedStack.PushCasRefines` | crates/memory/src/tagged_stack.rs:38-53 | the exchange of push puts its node on top of the abstract stack |
| `TaggedStack.PopCasRefines` | crates/memory/src/tagged_stack.rs:56-75 | the exchange of pop takes the top node although its link was read earlier, possibly before the node was popped, overwritten and pushed again |
| `TaggedStack.PopLoadRefines` | crates/memory/src/tagged_stack.rs:58-62 | pop returns null exactly when the stack is empty |
| `TaggedStack.StepRefines` | crates/memory/src/tagged_stack.rs:38-75 | every step is one operation of a last-in first-out stack, or none |
| `TaggedStack.Linearizable` | crates/memory/src/tagged_stack.rs:38-75 | the operations of every run of any number of threads, in their order, are those of a last-in first-out stack |
| `TaggedStack.CallsTakeEffectOnce` | crates/memory/src/tagged_stack.rs:38-75 | from its beginning to its return a push pushes its node exactly once, and a pop pops exactly the node that it returns, which the caller then owns |
| `TaggedStack.OneOwner` | crates/memory/src/tagged_stack.rs:31-38 | no node is owned by two threads or owned while it is the head |
| `PipeBuffer.PipeRing.ReadInto` | crates/fs/src/pipe.rs:119-128 | copies the oldest bytes out, drops exactly them, and leaves the rest of the destination alone |
| `PipeBuffer.PipeRing.WriteFrom` | crates/fs/src/pipe.rs:131-140 | appends as many bytes as fit |
| `PipeBuffer.WindowDrop` | crates/fs/src/pipe.rs:124-126 | advancing the read position drops the oldest bytes across the wrap |
| `PipeBuffer.WindowAppend` | crates/fs/src/pipe.rs:134-137 | storing at the write position appends a byte across the wrap |
| `PipeProtocol.ReadKeepsInv` | crates/fs/src/pipe.rs:270-293 | a read that frees a full ring owes the writer a bump and a wake |
| `PipeProtocol.WriteKeepsInv` | crates/fs/src/pipe.rs:342-364 | a write into an empty ring owes the reader a bump and a wake |
| `PipeProtocol.ReadReturns` | crates/fs/src/pipe.rs:258-321 | a read returns the number of bytes it received, the oldest in the ring, as many as there were and as it asked for; 0 only if it then found no writer |
| `PipeProtocol.WriteReturns` | crates/fs/src/pipe.rs:323-389 | a write returns the number of bytes it sent, as many as it has and as there was room for and never none, or EPIPE, having sent nothing and found no reader |
| `PipeProtocol.WordsTellApart` | crates/fs/src/pipe.rs:310-312 | at most three bumps lie between sample and check, so the 32-bit comparison is exact |
| `PipeProtocol.BlockKeepsInv` | crates/sched/src/block.rs:61-96 | the check under the queue lock leaves no sleeper without a wake on its way |
| `PipeProtocol.BumpPeerKeepsInv` | crates/fs/src/pipe.rs:286-290 | a bump of the peer counter is followed by its wake |
| `PipeProtocol.WakePeerKeepsInv` | crates/sched/src/block.rs:98-112 | a wake discharges the obligation |
| `PipeProtocol.CloseKeepsInv` | crates/fs/src/pipe.rs:393-431 | the last close of an end owes the other side a bump and a wake |
| `PipeProtocol.StepKeepsInv` | crates/fs/src/pipe.rs:258-431 | every step of reader, writer and closers keeps the protocol invariant |
| `PipeProtocol.NoLostWakeup` | crates/fs/src/pipe.rs:258-431 | a thread asleep with data (space) for it, or after a last close through the release hook, has a wake on its way |
| `PipeProtocol.BothAsleepIff` | crates/fs/src/pipe.rs:258-389 | reader and writer can both be asleep for good, in calls of r and w bytes, if and only if r or w is zero |
| `PipeProtocol.WrapCannotFool` | crates/sched/src/block.rs:61-96 | a thread goes to sleep if and only if its counter did not move since the sample, however often it wrapped |
| `PipeProtocol.BytesAreConserved` | crates/fs/src/pipe.rs:85-141 | bytes sent = bytes received followed by bytes buffered |
| `PipeProtocol.QuietCloseStrandsIff` | crates/proc/src/fd.rs:188-216 | a last close by dup2, which runs no release hook, strands the other thread if and only if that thread has committed to sleeping |
| `PipeProtocol.QuietCloseStrandsReader` | crates/proc/src/fd.rs:188-216 | a reachable run in which the reader sleeps for ever |
| `PipeProtocol.StrandedIff` | crates/proc/src/fd.rs:188-216 | in every run, a sleeper whose other end is closed has no wake on its way if and only if the last close ran no release hook and no wake of an earlier transfer is under way |
| `PipeProtocol.OversleepsIff` | crates/fs/src/pipe.rs:258-389 | for either side and every size n: a thread can sleep in a call of n bytes, with data or space for it and no wake on its way, if and only if n is zero |
| `PipeProtocol.ZeroSleeps` | crates/fs/src/pipe.rs:285-321 | reachable runs in which a read and a write of zero bytes sleep for no reason |
| `PipeProtocol.ZeroDeadlocks` | crates/fs/src/pipe.rs:352-389 | reachable runs in which both threads sleep for good, for all sizes of which one is zero |
| `PageEntry.FrameOfNewPage` | crates/paging/src/entry.rs:133-156 | the frame read back is the frame written, reduced to 36 bits of frame number |
| `PageEntry.FrameRoundTripIff` | crates/paging/src/address.rs:73-75 | the physical address survives if and only if it is page aligned and below 2^48 |
| `PageEntry.FlagsRoundTrip` | crates/paging/src/entry.rs:133-163 | the flags survive packing |
| `PageEntry.PresenceOfNewPage` | crates/paging/src/entry.rs:173-193 | presence and size bits of an entry are those of its flags |
| `PageEntry.WithHugeKeepsFlags` | crates/paging/src/entry.rs:84-86 | setting the size bit leaves the other flags |
| `PageEntry.Cr3RoundTrip` | crates/paging/src/entry.rs:222-229 | CR3 names the table, the low PCID bits and the no-flush bit |
| `PageEntry.PathsTellPages` | crates/paging/src/address.rs:153-172 | canonical addresses have the same four indices exactly when they lie in one page, the same first three exactly in one 2 MiB page |
| `PageTableSpec.NodesAreDistinct` | crates/paging/src/table.rs:299-337 | no table is reached along two paths |
| `PageTableSpec.LinkKeepsTree` | crates/paging/src/table.rs:308-334 | linking a fresh table keeps the tree |
| `PageTableSpec.LinkKeepsMappings` | crates/paging/src/table.rs:308-334 | a new empty table changes no translation |
| `PageTableSpec.WriteLeafMaps` | crates/paging/src/table.rs:273-294 | writing a leaf entry changes the mapping of exactly the addresses whose path passes it |
| `PageTableSpec.LeafDecidesWrites` | crates/paging/src/table.rs:308-334 | a page can be written if and only if its leaf entry says so: every table above it is writable |
| `PageTableBuilder.Builder.WalkToPd` | crates/paging/src/table.rs:299-337 | returns the page directory of the address, with every mapping unchanged |
| `PageTableBuilder.Builder.MapPage` | crates/paging/src/table.rs:244-277 | maps one page, with the flags asked for, and leaves every other canonical address alone |
| `PageTableBuilder.Builder.MapHuge2m` | crates/paging/src/table.rs:282-294 | maps one 2 MiB page, with the flags asked for and the size bit, replacing what was inside, and leaves every other canonical address alone |
| `PageTableBuilder.Builder.Translate` | crates/paging/src/table.rs:101-164 | the walk returns the mapped page plus the offset, or nothing |
| `PageTableBuilder.Builder.Apply` | crates/paging/src/table.rs:244-337 | any sequence of requests refines the flat map in which the last request that covers an address decides |
| `PageTableBuilder.TranslationIsLinearIff` | crates/paging/src/table.rs:158-163 | the translation is the requested address plus offset if and only if an entry can hold that address |
| `Teardown.FreeTable` | crates/proc/src/address_space.rs:920-967 | frees each table below and then the table itself, each once and none before what lies below it, and visits every page entry once |
| `Teardown.FreeUserHalf` | crates/proc/src/address_space.rs:902-917 | frees every table of the user half once, none before what lies below it, visits every user page once, leaves no user address mapped and the kernel half untouched |
| `Teardown.NodesAreBelow` | crates/proc/src/address_space.rs:920-967 | every table that a walk can reach is among those freed |
| `TeardownSteps.LeavesArePages` | crates/proc/src/address_space.rs:902-967 | the leaves that the tree walk visits hold each page of the process exactly once |
| `TeardownSteps.FreeUserMappings` | crates/proc/src/address_space.rs:306-312 | giving up the pages in the order of the tree walk is a run of teardown steps that leaves the process without a page, and keeps the counts if no page is MAP_SHARED |
| `BuddySpec.HeadRoundTrip` | crates/memory/src/buddy.rs:173-179 | frame number and low generation bits survive packing |
| `BuddySpec.PushKeepsInv` | crates/memory/src/buddy.rs:101-134 | pushing a block links it in front, and its pages become free |
| `BuddySpec.PopKeepsInv` | crates/memory/src/buddy.rs:137-171 | popping takes the first block; head and header pass the plausibility checks |
| `BuddySpec.BlocksTile` | crates/memory/src/buddy.rs:183-279 | a page is free exactly when it is in a listed block, and in no two |
| `BuddySpec.ChainIsUnique` | crates/memory/src/buddy.rs:137-171 | the head and the links in the frames determine the list |
| `BuddySpec.PushedIsFoundIff` | crates/memory/src/buddy.rs:101-143 | after a push, the list that the links spell is the block and the old list if and only if the block is not frame 0; after a push of frame 0 it is empty |
| `BuddySpec.PushZeroKeepsInv` | crates/memory/src/buddy.rs:101-134 | a push of frame 0 leaves sound lists that have lost the block and every block of its order |
| `BuddyAllocator.BuddyNode.Push` | crates/memory/src/buddy.rs:101-134 | the block is listed first and its pages are free; for frame 0 its pages and those of the list are lost |
| `BuddySpec.ClientWriteKeepsInv` | crates/memory/src/buddy.rs:72-77 | the owner of a handed-out page may overwrite it |
| `BuddyAllocator.BuddyNode.ClientWrite` | crates/memory/src/buddy.rs:72-77 | the node stays valid when a client writes to a page it was handed |
| `BuddyAllocator.BuddyNode.constructor` | crates/memory/src/buddy.rs:197-206 | an empty node |
| `BuddyAllocator.BuddyNode.Pop` | crates/memory/src/buddy.rs:137-171 | returns the first block, or nothing exactly when the list is empty |
| `BuddyAllocator.BuddyNode.Split` | crates/memory/src/buddy.rs:216-222 | each upper half is listed in front of its own order, from the top down, and no list changes otherwise |
| `BuddyAllocator.BuddyNode.PushHalf` | crates/memory/src/buddy.rs:216-222 | one turn of the split |
| `BuddyAllocator.BuddyNode.AllocOrder` | crates/memory/src/buddy.rs:208-229 | hands out an aligned block of free pages and nothing else, cut from the first block of the smallest order that has any, of which exactly the upper halves stay listed, one per order; fails exactly when no list from that order on has a block |
| `BuddyAllocator.BuddyNode.FreeOrder` | crates/memory/src/buddy.rs:235-279 | the block is listed first under its order, its pages become free and the counter counts them |
| `BuddyAllocator.BuddyNode.AddRegion` | crates/memory/src/buddy.rs:429-466 | the status of every page afterwards: the pages of the region are free, except that a region from frame 0 loses its first block and all blocks of that order; the lists are those of the greedy tiling |
| `BuddyAllocator.BuddyNode.PushRegion` | crates/memory/src/buddy.rs:429-466 | the loop of the insertion |
| `BuddyAllocator.TiledBlocks` | crates/memory/src/buddy.rs:429-466 | every block that the greedy tiling lists is the largest that fits at its page |
| `BuddyAllocator.LargestOrder` | crates/memory/src/buddy.rs:448-458 | the largest order that fits and is aligned |
| `BuddyRegions.FirstIsOverlap` | crates/memory/src/buddy.rs:469-496 | the overlap found belongs to a reserved range; none is found only if none intersects |
| `BuddyRegions.CutKeepsUsable` | crates/memory/src/buddy.rs:358-383 | cutting one overlap out loses no usable page and adds none |
| `BuddyAllocator.BuddyNode.AddRegionExcluding` | crates/memory/src/buddy.rs:345-393 | the pages that lie wholly in the region and intersect no non-empty reserved range are inserted, no other; pages are lost only if frame 0 is among them, and it is then; every block added is maximal: no larger aligned block of usable pages starts there |
| `BuddyAllocator.BuddyNode.Init` | crates/memory/src/buddy.rs:300-343 | the free pages are exactly those usable in some usable entry of the memory map, if and only if frame 0 is not usable; otherwise frame 0 is lost; every listed block is maximal in its entry |
| `BuddyAllocator.LowMemoryIsLost` | crates/memory/src/buddy.rs:300-343 | for every memory map entry from address 0 whose first page is not reserved: frame 0 is lost and the counter exceeds the free pages |
| `BuddyAllocator.BuddyNode.AllocFrameBelow4g` | crates/memory/src/buddy.rs:399-425 | hands out one low page and returns every page it rejected; fails only if 256 tries, or all the free pages, were high |
| `FrameAllocator.Frames.TrackAlloc` | crates/memory/src/lib.rs:43-61 | sets the bits of a block, none of which was set |
| `FrameAllocator.Frames.TrackFree` | crates/memory/src/lib.rs:63-76 | clears the bit of a page, which was set |
| `FrameAllocator.Frames.AllocOrder` | crates/memory/src/lib.rs:137-144 | the bitmap shows exactly the handed-out pages; the double-allocation check cannot fire |
| `FrameAllocator.Frames.AllocFrameBelow4g` | crates/memory/src/lib.rs:119-126 | the same for a page below 4 GiB |
| `FrameAllocator.Frames.FreeFrame` | crates/memory/src/lib.rs:132-135 | a page is freed alone, even out of a larger block; the bad-free check cannot fire |
| `UserMemory.AddressSpace.MapZeroPage` | crates/proc/src/address_space.rs:577-600 | the page tables map the page to the zeroed frame, and every other user address as before |
| `UserMemory.AddressSpace.WriteBytes` | crates/proc/src/exec.rs:344-360 | the copy through the page walk stores exactly the data at exactly the user range |
| `UserMemory.LeRoundTrip` | crates/proc/src/exec.rs:363-365 | little-endian words read back |
| `ExecStack.PackStrings` | crates/proc/src/exec.rs:392-401 | each string lies at its address with its terminator |
| `ExecStack.StringsApart` | crates/proc/src/exec.rs:392-401 | the strings do not overlap and lie between the packed end and the stack top |
| `ExecStack.PushBlock` | crates/proc/src/exec.rs:416-438 | the words from the stack pointer up are argc, argv, NULL, envp, NULL and AT_NULL |
| `ExecStack.BlockEndsAligned` | crates/proc/src/exec.rs:403-414 | the padding makes the final stack pointer a multiple of 16 |
| `ExecStack.SetupStack` | crates/proc/src/exec.rs:387-440 | for every accepted argv and envp the stack is laid out, aligned, inside the mapped 256 KiB, and nothing outside it is written |
| `ExecStack.MapUserStack` | crates/proc/src/address_space.rs:234-259 | the page tables map every page of the stack; fails only without frames for tables |
| `ExecStack.BuildStack` | crates/proc/src/exec.rs:136-151 | mapping and layout together on the page tables: the walk always finds its page |
| `ExecStack.ProgramReads` | crates/proc/src/exec.rs:367-386 | reading memory back gives argc, a pointer to each exact string, both NULLs and AT_NULL |
| `ExecStack.CStringIsUnique` | crates/proc/src/exec.rs:392-401 | a NUL-free string at an address is the only one there |
| `Cpio.FieldRoundTrip` | xtask/src/main.rs:190-193 | every 32-bit field reads back |
| `Cpio.ParseHex8` | crates/fs/src/cpio.rs:10-22 | reads eight digits of either case, and zero for anything else |
| `Cpio.Align4` | crates/fs/src/cpio.rs:24-27 | rounds up to a multiple of four |
| `Cpio.Writer.Pad4` | xtask/src/main.rs:194-198 | appends zeros up to a multiple of four |
| `Cpio.Writer.AddRecord` | xtask/src/main.rs:189-221 | appends exactly one encoded record |
| `Cpio.Writer.AddAll` | xtask/src/main.rs:154-178 | appends the records and the trailer |
| `Cpio.EncodeIsAligned` | xtask/src/main.rs:216-220 | every record starts at a multiple of four |
| `Cpio.HeaderReads` | crates/fs/src/cpio.rs:35-55 | a printed header parses to its fields |
| `Cpio.RecordReads` | crates/fs/src/cpio.rs:62-86 | a record printed at a multiple of four is read back with its name and data |
| `Cpio.Unpack` | crates/fs/src/cpio.rs:62-107 | the loop computes the specified walk |
| `Cpio.RoundTrip` | crates/fs/src/cpio.rs:62-107 | walking a printed archive yields exactly the printed records and stays inside it |
| `Cpio.PrintThenUnpack` | xtask/src/main.rs:154-221 | the written archive unpacks to the records |
| `Cpio.WalkedInsideIff` | crates/fs/src/cpio.rs:64-83 | every byte string of length n is walked without leaving it, if and only if n is a multiple of four or below 113 |
| `Cpio.WalkStaysInside` | crates/fs/src/cpio.rs:64-83 | from any position, an archive whose length is a multiple of four is not left |
| `Cpio.CutArchiveLeaves` | crates/fs/src/cpio.rs:64-83 | after any printed records, a record cut off before its padding makes the walk leave the archive if and only if its data length is no multiple of four |
| `PageCache.LookupKeepsInv` | crates/fs/src/pagecache.rs:84-92 | a hit returns the frame of the key |
| `PageCache.InsertKeepsInv` | crates/fs/src/pagecache.rs:238-265 | under the bucket lock another entry wins, else a free slot is taken |
| `PageCache.FreeKeepsInv` | crates/fs/src/pagecache.rs:233-253 | the freed frame is the own frame of the caller |
| `PageCache.StepKeepsInv` | crates/fs/src/pagecache.rs:215-266 | every step of every caller keeps the cache invariant |
| `PageCache.OneEntryPerKey` | crates/fs/src/pagecache.rs:215-266 | each key has at most one entry, in its hash bucket |
| `PageCache.SameFrameForAll` | crates/fs/src/pagecache.rs:215-266 | all callers whose frame the cache remembers get the same frame for a key, at whatever times |
| `PageCache.ForgottenIffFull` | crates/fs/src/pagecache.rs:244-265 | a frame is returned but not remembered if and only if its key has no entry and its bucket is full |
| `PageCache.FullBucketForgets` | crates/fs/src/pagecache.rs:20-32 | a reachable run in which a bucket fills and two callers get different frames for one page |
| `PageCache.LookupHitsIff` | crates/fs/src/pagecache.rs:84-92 | a lookup returns a frame if and only if the cache holds one for the key |
| `PageCache.CallReturns` | crates/fs/src/pagecache.rs:215-266 | a call takes one of four courses and returns nothing if and only if its read failed; otherwise the frame that the cache holds, or the one it allocated and read |
| `PageCache.NextVnodeBucket` | crates/fs/src/pagecache.rs:74-79 | from a vnode address to the next the bucket moves on by 158 or 159 of 256 |
| `PageCache.NextPageBucket` | crates/fs/src/pagecache.rs:74-79 | from a page to the next, at address 0, by 251 or 252 |
| `PageCache.PageFolds` | crates/fs/src/pagecache.rs:65-79 | page number and address go through one multiplication: the page only turns the address |
| `PageCache.FreedIsNotCached` | crates/fs/src/pagecache.rs:233-253 | a freed frame is in use and is not a cached frame |
| `PageCache.FreedOnce` | crates/fs/src/pagecache.rs:233-253 | between two frees of a frame it was allocated again |
| `Ramfs.File.Read` | crates/fs/src/ramfs.rs:149-176 | reads the bytes up to the end of the file and of its blocks |
| `Ramfs.File.Write` | crates/fs/src/ramfs.rs:178-224 | grows the file by zero blocks up to the limit, writes what fits, changes no other byte, and raises the size |
| `Writeback.FillPage` | crates/fs/src/pagecache.rs:107-117 | the page holds the bytes of the file and zeros after its end |
| `Writeback.Cache.WritebackVnode` | crates/fs/src/pagecache.rs:313-344 | flushes every dirty page of any file, up to its end and to the blocks a file can have, and clears its dirty bit; the size stays |
| `Writeback.WritebackIsExact` | crates/fs/src/pagecache.rs:282-311 | the file holds each dirty page up to its end and its last possible block, every other byte is as before, and no page of the file is dirty |
| `FdTable.FdTable.Alloc` | crates/proc/src/fd.rs:70-83 | the lowest free descriptor, or EMFILE exactly when there is none |
| `FdTable.FdTable.Close` | crates/proc/src/fd.rs:102-111 | clears an open descriptor, or EBADF |
| `FdTable.FdTable.Dup` | crates/proc/src/fd.rs:165-180 | duplicates to the lowest free descriptor; counts move with the slots |
| `FdTable.FdTable.Dup2` | crates/proc/src/fd.rs:197-217 | aliases a descriptor, in every case with the counts moving with the slots |
| `FdTable.FdTable.CloneForFork` | crates/proc/src/fd.rs:133-141 | a copy of the table, with one reference per slot |
| `FdTable.CountAfterUpdate` | crates/proc/src/fd.rs:165-217 | how one slot changes the number of slots that name a vnode |
| `FdRefs.PipeKeepsInv` | crates/fs/src/pipe.rs:438-505 | each new end has one slot and the count 1 |
| `FdRefs.CloseKeepsInv` | crates/fs/src/syscall.rs:172-201 | the cleared slot turns into a release under way |
| `FdRefs.ReleaseKeepsInv` | crates/fs/src/pipe.rs:393-431 | the release lowers a count that is not zero |
| `FdRefs.Dup2KeepsInv` | crates/proc/src/fd.rs:197-217 | the replaced descriptor gives its reference up before the new one is taken |
| `FdRefs.AcquireKeepsInv` | crates/proc/src/fd.rs:165-180 | the new slot counts once its reference is taken |
| `FdRefs.CloneSlotKeepsInv` | crates/proc/src/fd.rs:133-141 | each inherited slot takes one reference |
| `FdRefs.ForkEndKeepsInv` | crates/proc/src/fd.rs:133-141 | the child starts with a copy of the table |
| `FdRefs.ExitReleaseKeepsInv` | crates/proc/src/process.rs:249-273 | exit releases each open descriptor once |
| `FdRefs.StepKeepsInv` | crates/proc/src/fd.rs:70-217 | every step keeps: count = slots that name the end + releases under way |
| `FdCalls.CallReturns` | crates/proc/src/fd.rs:70-217 | when open, pipe, close, dup, dup2 or fork has returned, the table of the caller has changed as the call says and in no other way: new descriptors are the lowest free, the read end of a pipe first, and a child has a copy |
| `FdRefs.CountIsSlots` | crates/fs/src/pipe.rs:33-42 | with no call under way the count is the number of descriptors that name the end, over all tables |
| `FdRefs.ZeroIffNobodyHolds` | crates/fs/src/pipe.rs:33-42 | the count is zero if and only if no process holds the end |
| `FdRefs.NeverUnderflows` | crates/proc/src/fd.rs:116-132 | no count is taken below zero |
| `Elf.ParseElf` | crates/proc/src/elf.rs:80-179 | on a file that holds a given header and program headers: the error of the first check that fails, or the entry point and one segment per loadable header, in order |
| `Elf.UserPages.LoadElf` | crates/proc/src/exec.rs:122-139 | on a file that holds a given header and program headers: refuses with the error of the first check that fails and maps nothing, or maps each page as the last header that covers it says and leaves the others |
| `ElfFormat.PackedReads` | crates/proc/src/elf.rs:20-48 | a field of a packed record reads back at its place |
| `ElfFormat.ReadsPacked` | crates/proc/src/elf.rs:20-48 | bytes that read as the fields say are the packed record |
| `Elf.PhdrReads` | crates/proc/src/elf.rs:193-203 | 56 bytes laid out as type, flags, offset, vaddr, paddr, filesz, memsz, align are read as these fields |
| `Elf.HeaderReads` | crates/proc/src/elf.rs:181-191 | a file header laid out in its order is read as its fields |
| `Elf.HeaderErrorIs` | crates/proc/src/elf.rs:80-121 | the header is refused with the error of the first of the eight checks, stated on its fields, that it fails |
| `Elf.LoadErrorIs` | crates/proc/src/elf.rs:132-161 | a loadable header is refused with the error of the first check that it fails: alignment a power of two of at least a page, range in the user half, file part in memory part and in the file |
| `Elf.EveryFileIs` | crates/proc/src/elf.rs:80-203 | every byte string of 64 bytes or more holds some header and, if that passes, program headers |
| `Elf.RangeReadsIff` | crates/proc/src/address_space.rs:195-232 | an address of the range of a header reads as the header says if and only if the last header that covers its page puts that byte there |
| `Elf.InStepAgrees` | crates/proc/src/elf.rs:162-174 | headers that keep file and memory in step agree on the bytes of a shared page |
| `Elf.OutOfStepIsAccepted` | crates/proc/src/elf.rs:132-175 | such headers pass the checks |
| `Elf.SharedPageOverwrites` | crates/proc/src/address_space.rs:195-232 | two accepted headers that share a page out of step: the byte of the first is overwritten |
| `Elf.ScanPhdrs` | crates/proc/src/elf.rs:122-176 | the loop over the program headers collects the loadable segments or the first error; there is always room |
| `Elf.ScanAcceptsIff` | crates/proc/src/elf.rs:122-176 | the headers are accepted if and only if every loadable one passes its checks |
| `Elf.AcceptedSegment` | crates/proc/src/elf.rs:132-175 | an accepted segment comes from a loadable header and stays inside the file and the user half |
| `Elf.UserPages.MapSegment` | crates/proc/src/address_space.rs:195-232 | maps exactly the pages of the segment, all below the top of user memory, with the bytes of the file and zeros |
| `Elf.FillSegmentPage` | crates/proc/src/address_space.rs:201-221 | one page of the segment; the slice is inside the file |
| `Elf.LoadedRangeReads` | crates/proc/src/elf.rs:162-174 | the memory range of a header reads as its file bytes followed by zeros |
| `Elf.ParsedSegmentLoads` | crates/proc/src/elf.rs:80-179 | for every accepted file and every segment, loading it makes the range of its header read as the header says |

## Left out

- Weak memory ordering: atomic steps are sequentially consistent.
- Several threads in one address space (CLONE_VM) in the copy-on-write model: a process edits only its own page table.
- The order of freeing a frame and flushing remote TLBs: `unmap_pages` frees first, and the model of each ends where the other begins.
- Page protections other than the writable bit, and the protection that a mapping asked for: a private page can be stored to once fork or a file fault has made it CoW, as the code has it.
- Liveness of shootdown: the initiator waits without a timeout; only what holds on return is claimed. The initiator does not move to another CPU during the call, and address spaces are not torn down and their PCIDs not reused.
- Wakeups with several readers or several writers on one pipe, and "end of file means drained": the code does not promise them.
- Wait-queue internals, SpinLock, run queues, `wait4` and signals: a wait queue is the set of sleeping threads behind one lock.
- Buddy coalescing: the merge branch of `free_order` is unreachable.
- NUMA nodes other than node 0, and the generation field stored in free frames: nothing reads them.
- PageTableBuilder.Builder.MapPage: when no table frame is left the kernel stops; the contract says when that can happen and nothing about the tables left behind.
- ExecStack.MapUserStack: the same for the tables of the stack; `UserMemory.AddressSpace.MapZeroPage` and `ExecStack.BuildStack` pass it on.
- The boot mapping code, large pages of 1 GiB (the walker reads them, the builder never makes them) and the direct map.
- Mpsc.StepKeepsInv: positions stay below 2^64 - 1, which takes fewer than 2^64 - 1 successful pushes.
- TaggedStack.StepRefines: the 64-bit tag does not wrap.
- FdRefs.StepKeepsInv: a failed `pipe` call, which leaves its vnodes behind, and mapping of pipe descriptors are not modelled; increments of a count do not wrap.
- Cpio.RoundTrip: UTF-8 validity is a parameter, and the directory tree that the reader builds from the records is not modelled.
- Elf.UserPages.MapSegment: page protections from the segment flags, and the frames of pages that a later segment replaces.
- ExecStack.SetupStack: copying the strings out of the old address space; the contents are arbitrary bytes of at most 256 each.
- Writeback.Cache.WritebackVnode: the error return, since a ramfs write never fails, and writes that race with the flush.
- Ramfs directories, truncate, devfs, mounts, virtio, drivers, inline assembly and interrupts.

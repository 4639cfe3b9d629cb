# A verified model of the bangos kernel

Bangos is a small x86_64 kernel with its own user-space library. This project
models the parts of it that keep state under many hands, and proves what they
promise in every run or for every input:

- **Memory.** The frame allocator, the four-level page table with the split of
  2 MB pages, the kernel's own view of its tables through them, the ELF loader on
  top with the layout of its files, and the table of virtual memory areas (`Frames`,
  `PageTree`, `PoolView`, `Paging`, `ElfLoader`, `ElfImage`, `PoolShadow`, `Vmm`).
- **Processes and synchronisation.** The scheduler with its address-space
  switch, fork, clone, exit, kill, wait and futexes (`Processes`, and slot by slot
  `SlotEffects`), that switch on the real page tables (`AddressSwitch`), process ids
  (`ProcessIds`) and what
  becomes of forked children, of sleepers with a timer and of futex waiters over
  whole runs (`ForkRuns`, `SleepRuns`, `FutexRuns`); the user-space mutex (`Mutex`)
  and the bounded queue built from semaphores and that mutex (`BoundedQueue`, and its
  end in `QueueEnds`), as state machines over single atomic steps with any number of
  threads.
- **The ext2 file system.** Bitmaps and inode tables (`Ext2Volume`), files as
  trees of blocks (`Ext2Files`), whole reads and writes (`Ext2ReadWrite`),
  directories as chains of records and their layout (`Ext2Dir`, `Ext2Format`) and the
  creation of a file on a whole volume (`Ext2Create`).
- **The network.** The receive queue shared with a virtio device (`VirtioRx`), a TCP
  socket with its data path and its closing (`Tcp`), the Internet checksum
  (`Checksum`), and a segment's way through the frame and back (`Wire`).

`Arith`, `Bytes` and `Options` hold division lemmas, bytes with their bits and
little-endian words, and the option type.

Where the source changes a table or a buffer in place, the model is a class or a
method on arrays, with the loops of the source. Each such method is proved equal
to a function on values, or against a property stated outright, and the theorems
are lemmas about those functions. Machine widths are written out: 64-bit word
scans, 16-bit ring indices, 32-bit sequence and block numbers, the 32-bit sum of
the checksum, one-byte name lengths.

Some expectations turn out not to hold for every input. Each of these has a lemma
that says exactly when it holds, and where it helps a concrete input:

- The kernel reaches its tables and frames through the page tables, by pages with the
  same numbers, and user pages go into the same tables. A mapping leaves the kernel
  that view exactly when its page is outside 32 MB to 160 MB or gets its own frame
  (`Paging.AddressSpace.MapPage`, `PoolShadow.LoadKeepsPool`); a program with a segment
  at 32 MB loads without an error and is not there (`PoolShadow.LoadOverRoot`).
- `vma_create` keeps areas disjoint exactly when it changes nothing or no area touches
  the range (`Vmm.CreateDisjoint`, `Vmm.CreateOverlaps`).
- `vma_protect` is a pointwise update exactly when no area begins before the range
  and ends inside it and every piece that is cut off has a neighbour to join or a
  free slot to go to (`Vmm.ProtectIsUpdate`, `Vmm.ProtectMapsBeyond`).
- `vma_remove` is set subtraction exactly when the remainder of a split area has a
  slot to go to (`Vmm.RemoveIsSubtraction`, `Vmm.RemoveLosesRemainder`).
- `unmap_page` keeps the frame bitmap and the tables consistent exactly when the page
  did not map a table (`Paging.AddressSpace.UnmapPage`, `PoolShadow.UnmapRoot`).
- Bytes written to an ext2 file read back exactly when the offset is below 2^42
  (`Ext2ReadWrite.ReadsBack`); the rest of the file reads as before exactly when the
  end of the write is inside the file or does not wrap around 32 bits to below its
  size (`Ext2ReadWrite.RestReadsSame`, `Ext2ReadWrite.WriteAt4GEmpties`); and the inode
  on disk matches the one in memory after a write exactly when the file grew or no hole
  was filled (`Ext2ReadWrite.OpenFile.Write`, `Ext2ReadWrite.WriteBackwards`).
- `finddir` finds a name just created exactly when the first directory block had room
  and the name has 1 to 255 bytes (`Ext2Dir.CreateFinds`, `Ext2Create.CreateFindsFile`);
  a directory without a block gets one that is neither cleared nor filled
  (`Ext2Create.BlockNotCleared`), and on a full disk it is charged for one it did not get
  (`Ext2Create.FirstBlockCharged`). All blocks of a directory are searched exactly when its
  size is below 2^32 - 1023 (`Ext2Create.FindsEveryEntry`, `Ext2Create.CountWraps`).
- A fork leaves its caller its own pages exactly when it takes a slot other than the
  caller's, maps no stack, or maps the caller's own (`Processes.ForkAfterSelfKill`,
  `Processes.SelfKillReachable`).
- A futex waiter leaves its loop exactly when a wake finds it asleep; one that a child's
  end or the idle fallback to slot 0 has made ready stays in the loop for good
  (`FutexRuns.ReleasedExactly`, `FutexRuns.StrandedExactly`, `FutexRuns.LostForever`).
- A process that sleeps for `n` ticks returns after them exactly when nothing makes it
  ready before; otherwise it never does (`SleepRuns.WakesOnTime`,
  `SleepRuns.DisturbedOversleeps`, `SleepRuns.OversleepsForEver`).
- A futex is known by its virtual address alone. A wake of one reaches the group it is
  meant for exactly when the first slot that sleeps on that address is of that group;
  otherwise the group's own waiter is stranded (`FutexRuns.WakeReachesGroup`,
  `FutexRuns.WakeStolen`, `Mutex.StolenWakeStrands`).
- A 16-bit ring index names the right slot exactly when the queue size divides 65536
  (`VirtioRx.SlotsFollowCounts`).
- TCP acknowledges what it accepted exactly when the data fitted the ring, and a FIN
  exactly when it carries no data (`Tcp.AckCoversAccepted`, `Tcp.FinAcked`).
- The receiver takes the length of a segment from the frame, padding included: a payload
  is read exactly as it was sent exactly when it has six bytes or more
  (`Wire.PayloadArrives`). An empty acknowledgement is read as six zero bytes, and two
  connected sockets acknowledge each other's for ever (`Wire.EmptyAckIsData`,
  `Wire.AcksForEver`).
- The checksum is that of the true sum exactly when the carries lost out of 32 bits
  are a multiple of 65535 and what is left of a sum other than zero is not zero; it
  verifies itself at every length all the same (`Checksum.TrueSum`,
  `Checksum.SelfVerifies`).

`dafny verify dfyconfig.toml` checks the whole project.

## Model

| member | source | states |
|---|---|---|
| Frames.FrameAllocator.AllocPages | kernel/mm/memory.c:25-61 | NULL exactly when `count` is zero or no run of `count` free frames exists; otherwise the lowest such run, exactly its bits set, its bytes zeroed and nothing else touched, and the free total lower by `count` |
| Frames.FrameAllocator.SkipFullWords | kernel/mm/memory.c:29-36 | the 64-frame skip passes over no place where a run could start |
| Frames.FrameAllocator.ScanRun | kernel/mm/memory.c:38-46 | finds a run exactly when there is one; the jump past the first used frame passes over none |
| Frames.FrameAllocator.Take | kernel/mm/memory.c:48-55 | marks exactly the run and zeroes exactly its bytes |
| Frames.UsedFrameBlocksRuns | kernel/mm/memory.c:40-46 | a used frame rules out every run that starts at or before it and reaches it |
| Frames.FullWord | kernel/mm/memory.c:30-34 | an all-ones word rules out runs starting at any of its 64 frames |
| Frames.FrameAllocator.FreePage | kernel/mm/memory.c:63-70 | clears the bit of the frame that holds the address, and no other bit |
| Frames.FrameAllocator.GetFreeBytes | kernel/mm/memory.c:216-224 | the number of clear bits times the page size |
| Paging.AddressSpace.constructor | kernel/mm/memory.c:76-94 | the first 4 GB translate to themselves through huge pages, so the kernel sees its pool, and the used frames are exactly the tables, the first six |
| Paging.IdentityWalk | kernel/mm/memory.c:86-93 | the entries written for a gigabyte make every page in it translate to itself |
| PoolView.PoolSeenIs | kernel/mm/memory.c:102-143 | the pool is in the kernel's view exactly when every address in it, used as a pointer, means itself |
| PoolView.SeenEntries | kernel/mm/memory.c:109-143 | then a load from a table gives what the table holds |
| PoolView.OnePageSeen | kernel/mm/memory.c:142-143 | a new translation for one page keeps the view if and only if the page is none of the pool's or maps to itself |
| PageTree.WalkSame | kernel/mm/memory.c:159-177 | a walk depends only on the entries for that page in the tables that serve it |
| PageTree.FourLevels | kernel/mm/memory.c:103-142 | the page with indices a, b, c and d is ruled by entry d of the page table that the entries a, b and c lead to from the root, each 8 bytes |
| PageTree.HugeLevels | kernel/mm/memory.c:125-131 | under a 2 MB entry the page with last index d is page d of those 2 MB |
| PageTree.PageOfAddress | kernel/mm/memory.c:103-106 | which address has which indices |
| PageTree.TablesDistinct | kernel/mm/memory.c:102-142 | walks that meet in a table are at the same level and below the same upper indices |
| PageTree.WriteOffPath | kernel/mm/memory.c:142-143 | a table write changes the walk of no page that does not use that entry |
| PageTree.LinkKeepsTree | kernel/mm/memory.c:109-139 | hanging a fresh table into an empty or huge entry keeps the tree: every table in one place |
| PageTree.LinkKeepsTranslations | kernel/mm/memory.c:125-139 | a new table that says what the entry said, all 512 pages of a split 2 MB page included, changes no translation anywhere |
| Paging.AddressSpace.FillSplitTable | kernel/mm/memory.c:126-131 | the new page table covers the 512 pages of the huge page and no other frame changes |
| Paging.AddressSpace.NewTable | kernel/mm/memory.c:109-139 | takes one fresh frame exactly when one is free, hangs it in and keeps every translation |
| Paging.AddressSpace.EnsurePath | kernel/mm/memory.c:103-142 | reaches the page table of the page exactly when the free frames cover the missing levels, changing no translation |
| Paging.AddressSpace.SetLeaf | kernel/mm/memory.c:142-143 | the page's walk gives the new entry, every other page's walk is unchanged |
| Paging.AddressSpace.MapPage | kernel/mm/memory.c:102-150 | the page translates to exactly (phys, flags), every other page as before, tables stay distinct and allocated, data frames untouched; succeeds exactly when enough frames are free; with the pool in view before, it is in view after if and only if the page is outside the pool or gets its own frame |
| Paging.AddressSpace.MapUserPages | kernel/mm/memory.c:152-157 | every page of the run translates to its frame and no page outside it changes; the pool stays in view if and only if each page is outside it or gets its own frame |
| Paging.AddressSpace.GetPtePtr | kernel/mm/memory.c:159-177 | the table and index of the page's leaf entry, none when a level is missing or huge |
| Paging.AddressSpace.GetPhysMapping | kernel/mm/memory.c:204-210 | the translated address for pages with a leaf entry, zero otherwise |
| Paging.AddressSpace.UnmapPage | kernel/mm/memory.c:179-187 | the page is dropped, every other stays, exactly its frame is freed; the whole stays valid exactly when that frame was no table, and the pool in view exactly when the page was none of it |
| ElfLoader.PlaceSegment | kernel/loader/elf.c:50-67 | on success the frames hold the file bytes and zeros up to the memory size, and nothing else changed; fails exactly when there is no run or no page |
| ElfLoader.LoadSegment | kernel/loader/elf.c:50-70 | a loaded segment is mapped and held in frames of its own; on failure no room is left |
| ElfLoader.LoadedPersists | kernel/loader/elf.c:35-79 | loading further page-disjoint segments does not disturb a loaded one |
| ElfLoader.LoadedIsReadable | kernel/loader/elf.c:35-79 | a loaded segment reads, through the page-table walk, as file bytes then zeros |
| ElfLoader.LoadBinary | kernel/loader/elf.c:6-83 | on success every byte of every loadable segment reads through the walk as the file says, the entry point is the header's, the bounds are the least and greatest address, and the first eight segments are recorded with their frames; failure means a bad header or no frames left; the kernel keeps its view of the pool |
| ElfImage.ImageReads | kernel/loader/elf.c:13-33 | a header written field by field is accepted, and its entry point, count, place and size of program headers are read back |
| ElfImage.ProgramReads | kernel/loader/elf.c:35-43 | so is each program header written there: type, offset, address, file and memory size |
| ElfImage.PagesCover | kernel/loader/elf.c:50-52 | the pages of a segment are aligned, cover its bytes and no page more |
| PoolShadow.ClearOfPoolIs | kernel/loader/elf.c:50-52 | which segments are clear of the pool, as the addresses in the header say it |
| PoolShadow.LoadKeepsPool | kernel/loader/elf.c:50-70 | a loaded segment leaves the pool in view if and only if each of its pages is outside it or got its own frame |
| PoolShadow.MapFirstPage | kernel/mm/memory.c:102-150 | after the first page of a segment at 32 MB the kernel reads its top-level table in the segment: entry 0 is present and reads as zero |
| PoolShadow.MapSecondPage | kernel/mm/memory.c:102-150 | the next `map_page` stores a table's address into the segment and changes no translation |
| PoolShadow.LoadOverRoot | kernel/loader/elf.c:35-79 | so the load of that program ends without an error, its first byte is 7 and not 0, and its second page still shows the kernel's table |
| PoolShadow.UnmapRoot | kernel/mm/memory.c:179-187 | mapping a table's page to its own frame and unmapping it frees the table in use |
| Vmm.AreaTable.constructor | kernel/mm/vmm.c:7-17 | a table with no area in use |
| Vmm.AreaTable.Create | kernel/mm/vmm.c:19-54 | refuses an empty range, otherwise makes the table `Created` says and returns the slot |
| Vmm.CreateAdds | kernel/mm/vmm.c:19-54 | creating an area over free addresses, coalescing or not, adds exactly that range with those attributes and keeps areas disjoint |
| Vmm.CreateRefused | kernel/mm/vmm.c:19-54 | there is no slot exactly when all are used and no area of the same attributes holds the range or touches an end of it |
| Vmm.CreateInside | kernel/mm/vmm.c:26-29 | a range inside an area of the same attributes changes nothing, unless an earlier slot touches it |
| Vmm.CreateDisjoint | kernel/mm/vmm.c:19-54 | for any range, areas stay disjoint if and only if the slot holds the range already, there is no slot, or no area touches the range |
| Vmm.CreateOverlaps | kernel/mm/vmm.c:19-54 | a table and a call after which two areas overlap |
| Vmm.AreaTable.FindArea | kernel/mm/vmm.c:57-66 | a slot that covers the address with the attributes looked up, none when no area does |
| Vmm.AreaTable.Remove | kernel/mm/vmm.c:68-101 | runs the removal loop on the table, or reports an empty range |
| Vmm.RemoveIsSubtraction | kernel/mm/vmm.c:68-101 | removal over any number of areas is set subtraction with attributes kept outside, if and only if a split remainder has a slot |
| Vmm.RemainderLost | kernel/mm/vmm.c:92-97 | with no slot for it, the part of a split area beyond the range disappears |
| Vmm.RemoveLosesRemainder | kernel/mm/vmm.c:92-97 | a full table where that happens |
| Vmm.AreaTable.Protect | kernel/mm/vmm.c:103-149 | runs the protection loop on the table, or reports an empty range |
| Vmm.ProtectSlotEffect | kernel/mm/vmm.c:110-134 | one round repaints exactly the part of its area inside the range, although coalescing changes slots still to be visited |
| Vmm.ProtectIsUpdate | kernel/mm/vmm.c:103-149 | for every table with disjoint areas, protection is a pointwise update that keeps them disjoint, if and only if no area begins before the range and ends inside it and each cut has a neighbour to join or a free slot |
| Vmm.StraddlerSpoils | kernel/mm/vmm.c:123-126 | an area that begins before the range and ends inside it maps its old end address, or without a slot loses the start of the range, whatever the rest of the loop does |
| Vmm.RoomlessLoses | kernel/mm/vmm.c:110-134 | with a cut that has neither neighbour nor slot, an address that was mapped is mapped no more |
| Vmm.ProtectMapsBeyond | kernel/mm/vmm.c:123-126 | one area and one call where an unmapped address becomes mapped |
| Mutex.NextExclusive | userland/include/synch.h:62-81 | every step keeps: at most one owner or mid-unlock thread, and the word is zero exactly when there is none |
| Mutex.NextNotStranded | userland/include/synch.h:62-81 | every step keeps: a sleeper implies the word is 2, a pending wake or store, or a contender about to exchange |
| Mutex.AlwaysInv | userland/include/synch.h:58-81 | both hold in every interleaving of any number of threads |
| Mutex.NobodyStranded | userland/include/synch.h:62-81 | when every thread is asleep or out, every thread is out: no wake-up is lost |
| Mutex.StepSettles | userland/include/synch.h:62-81 | every step of a thread that wants the lock, holds it or leaves it brings the threads closer to rest, by a weight over all of them |
| Mutex.EveryCallServed | userland/include/synch.h:62-81 | so without new calls the threads make a bounded number of steps in any order, and when none can step any more all have had the lock and left it |
| Mutex.Uncontended | userland/include/synch.h:62-81 | without contention lock and unlock are one atomic operation each and no system call |
| Mutex.Contended | userland/include/synch.h:76-81 | with contention the word goes from 2 through 1 to 0 before the lowest sleeper is sent to its exchange |
| Mutex.Newcomer | userland/include/synch.h:62-74 | a newcomer to a held lock marks it as contended before it waits, and does not if it is marked |
| Mutex.StolenWakeStrands | userland/include/synch.h:72-81 | a wake that goes to another process strands the lock if and only if some thread sleeps |
| BoundedQueue.NextFed | userland/include/synch.h:96-114 | with sleepers on a semaphore its count never exceeds the wakes and awake waiters on their way |
| BoundedQueue.NextBalanced | userland/src/threads.c:53-85 | empty count, full count and operations in flight always add up to the queue size |
| BoundedQueue.OneHolder | userland/src/threads.c:53-85 | at most one thread is inside the queue's critical section |
| BoundedQueue.StoreHitsNoUnread | userland/src/threads.c:59-63 | a producer's store goes to a slot that holds no unread item |
| BoundedQueue.AlwaysInv | userland/src/threads.c:39-85 | the invariant holds in every interleaving of any number of producers and consumers |
| BoundedQueue.QueueIsFifo | userland/src/threads.c:39-85 | dequeued values are a prefix of enqueued values, in order, and the counts are conserved |
| BoundedQueue.NoDeadlock | userland/src/threads.c:136-147 | if as many items are to be consumed as produced, a state in which nobody can move has everybody done |
| QueueEnds.StepCounts | userland/src/threads.c:53-85 | whichever thread moves, the end comes closer, by a weight over all threads: no move is undone for ever |
| QueueEnds.EveryRunFinishes | userland/src/threads.c:136-147 | under every scheduler the threads make no more than a fixed number of moves, and when none can move all have returned, everything that was enqueued was dequeued in order, and the semaphores are as at the start |
| Processes.RemapAgrees | kernel/process/process.c:578-592 | after a remap the process's recorded pages translate to its own frames |
| Processes.SwitchAgrees | kernel/process/process.c:578-592 | so they do after every switch, although a switch inside a thread group skips the remap |
| Processes.TickKeepsInv | kernel/process/process.c:520-600 | a tick keeps the invariant: own pages for the current process, one running slot |
| SlotEffects.TickSelects | kernel/process/process.c:528-565 | a tick selects the nearest slot, in cyclic order with the current one last, that is ready, preempted or just woken; slot 0 when there is none |
| SlotEffects.TickStates | kernel/process/process.c:540-594 | the selected slot runs, the preempted one is ready, no other slot that is not asleep changes |
| Processes.ForkKeepsInv | kernel/process/process.c:135-205 | so does every fork that keeps the caller's stack, the one into the caller's own slot included; what the child gets is `ForkRuns.ForkedChildRuns` |
| Processes.CloneKeepsInv | kernel/process/process.c:207-287 | so does clone, with shared memory in every case |
| Processes.ExitKeepsInv | kernel/process/process.c:399-458 | so does exit |
| Processes.RunKeepsInv | kernel/process/process.c:135-600 | every allowed run keeps it, from any state that has it |
| Processes.AlwaysOwnPages | kernel/process/process.c:135-600 | in every allowed run of ticks, fork, clone, exit, kill, wait, futex, map and unmap steps the current process sees its own frames and only it is running |
| Processes.ForkAfterSelfKill | kernel/process/process.c:135-205 | after a fork a caller with a stack sees its own pages if and only if the new slot is not its own, or there is no new stack, or it is the same stack |
| Processes.SelfKillReachable | kernel/process/process.c:135-205 | boot, fork, tick, self-kill is an allowed run after which a fork breaks the guarantee |
| ForkRuns.ForkSpawns | kernel/process/process.c:135-205 | the new process is in the lowest free slot, ready, with a pid of its own, the caller as parent and no leftovers of the slot's last owner; no other slot changes |
| ForkRuns.CloneSpawns | kernel/process/process.c:207-287 | the same of a thread, in the caller's group |
| ForkRuns.CloneForks | kernel/process/process.c:209-211 | without shared memory a clone is a fork |
| ForkRuns.NoneSpawned | kernel/process/process.c:135-287 | with no free slot nothing changes |
| ForkRuns.ForkedChildRuns | kernel/process/process.c:135-600 | whenever a tick selects the child, after any allowed run in which it lives, every page of every segment of the caller has the frame it had for the caller at the fork, and the stack pages have the frames of the stack that was given |
| ForkRuns.ClonedThreadRuns | kernel/process/process.c:207-600 | the same of a thread, whose stack pages have the frames of the caller's stack |
| ForkRuns.SameWalksOfRun | kernel/mm/memory.c:159-177 | the same frames on the real page tables: the walks end at the same addresses |
| AddressSwitch.MapRunIs | kernel/mm/memory.c:152-157 | what `map_user_pages` does to the translations of the page tables is the update of the page map, all other pages included |
| AddressSwitch.RemapSpace | kernel/process/process.c:579-592 | the remapping loop on the real page tables maps every stretch in order, changes no other translation and leaves the pool in view |
| AddressSwitch.MapsAllIs | kernel/process/process.c:579-592 | which is the update of the page map by all of them |
| AddressSwitch.RemappedSees | kernel/process/process.c:579-592 | after it the walk of every page of every segment and of the stack ends at the process's own frame |
| AddressSwitch.RunFollows | kernel/process/process.c:135-600 | in every run the page map is what the page tables say, and the pool stays in view |
| AddressSwitch.AlwaysSeesOwn | kernel/process/process.c:135-600 | in every allowed run the page tables themselves give the current process its own frames |
| SleepRuns.FallsAsleep | kernel/syscall/syscall.c:596-598 | a sleeper starts with its ticks to go |
| SleepRuns.StillToGo | kernel/process/process.c:528-538 | over any run a process put to sleep for `n` ticks that nobody disturbs is asleep after fewer, with the rest to go |
| SleepRuns.WakesOnTime | kernel/process/process.c:528-538 | and it is ready or running after tick `n`, with its timer at zero, asleep just before |
| SleepRuns.DisturbedOversleeps | kernel/process/process.c:446-453 | whatever makes it ready before, the end of a child or the fall-back to slot 0, leaves it awake with ticks to go |
| SleepRuns.OversleepsForEver | kernel/syscall/syscall.c:596-600 | and then no tick counts for it any more: it stays in the loop of `nanosleep` for as long as it lives |
| SleepRuns.OversleptReachable | kernel/process/process.c:135-538 | boot, fork, sleep and the child's exit lead there |
| ProcessIds.PidsNeverShared | kernel/process/process.c:135-484 | in every run from boot, allowed or not, no two active slots share a pid |
| ProcessIds.ExitAlwaysMeetsWait | kernel/process/process.c:371-458 | so in every run an exit and the parent's wait meet |
| ProcessIds.KillAlwaysLoses | kernel/process/process.c:371-484 | and in every run a killed process cannot be waited for |
| ProcessIds.WaitAnyReaps | kernel/process/process.c:371-397 | a wait for any child frees the first slot that holds an ended child of the caller and changes nothing else, and nothing at all when there is none |
| ProcessIds.WaitForReaps | kernel/process/process.c:371-397 | a wait for a pid frees that process exactly when it has ended, and changes nothing else |
| FutexRuns.ReleasedExactly | kernel/process/process.c:486-514 | over any run a waiter stays in its loop if and only if no wake, by count or at an exit, ever finds it asleep among the first waiters |
| FutexRuns.StrandedExactly | kernel/process/process.c:445-514 | a sleeping waiter that no wake reaches is made ready all the same if and only if a child of it exits or is killed, or the tick falls back to slot 0 |
| FutexRuns.LostForever | kernel/process/process.c:486-514 | after that it stays in its loop for as long as it lives, whatever wakes follow |
| FutexRuns.WakeOneIs | kernel/process/process.c:500-514 | a wake of one changes the first slot that sleeps on the address and no other, whosever it is |
| FutexRuns.WakeReachesGroup | kernel/process/process.c:500-514 | it releases a sleeper of a thread group if and only if that first slot belongs to the group |
| FutexRuns.WakeStolen | kernel/process/process.c:486-514 | a run from boot in which a wake goes to another process and the group's own thread sleeps on |
| FutexRuns.LostWakeReachable | kernel/process/process.c:399-514 | boot, fork, futex wait and the child's exit lead there |
| Processes.ExitThenWait | kernel/process/process.c:371-458 | after an exit the parent is awake, its wait finds the child with the exit code and frees that slot only, and no active child of the exited process is left |
| Processes.KillThenWait | kernel/process/process.c:371-484 | a killed process cannot be waited for: its slot is given up at once |
| SlotEffects.ExitTouches | kernel/process/process.c:432-453 | an exit ends every active child with its code, and a slot that is no relative and no joiner stays as it is |
| SlotEffects.ExitStays | kernel/process/process.c:432-442 | the process that exits keeps its slot, as a zombie with its code, if and only if it is not its own parent |
| SlotEffects.ThreadExits | kernel/process/process.c:408-430 | a thread's exit gives up its slot with its code and wakes the first joiner, and nobody else |
| SlotEffects.KillTouches | kernel/process/process.c:460-484 | a kill ends that process with the signal as code, wakes its sleeping parent, and leaves every other slot |
| SlotEffects.KillMisses | kernel/process/process.c:483 | a kill of a pid nobody has does nothing |
| Processes.WakesFirstWaiters | kernel/process/process.c:500-514 | a wake readies the first `count` waiters in slot order and touches no other slot |
| SlotEffects.WaitSleeps | kernel/process/process.c:486-492 | a futex wait puts the caller to sleep on the address exactly when there is one and it holds the value, and touches no other slot |
| Processes.TickApproaches | kernel/process/process.c:549-565 | each tick brings the scan strictly closer to a ready process |
| Processes.SelectedWithinRound | kernel/process/process.c:520-600 | a process that stays ready is selected within a round of the table, whatever others do between ticks |
| Processes.ProcessTable.SchedulerTick | kernel/process/process.c:520-600 | the tick in place is the function `Tick` |
| Processes.ProcessTable.ForkProcess | kernel/process/process.c:135-205 | fork in place is `Fork`; -12 when the table is full, else the new pid |
| Processes.ProcessTable.CloneProcess | kernel/process/process.c:207-287 | clone in place is `Clone`; -12 when the table is full, else the new pid |
| Processes.ProcessTable.WakeFutex | kernel/process/process.c:500-514 | the wake in place is `FutexWake`, and the result is the number of waiters or `count`, the smaller |
| Processes.ProcessTable.WaitFutex | kernel/process/process.c:486-498 | sleeps on the address exactly when the word still has the value; -14 and -11 otherwise |
| Processes.ProcessTable.ExitProcess | kernel/process/process.c:399-458 | exit in place is `Exit` |
| Processes.ProcessTable.KillProcess | kernel/process/process.c:460-484 | kill in place is `Kill`; -3 when there is no such process |
| Processes.ProcessTable.WaitScan | kernel/process/process.c:371-397 | one scan of wait in place is `Wait`: the child's pid, -10 when there is none to wait for |
| Ext2Volume.AllocEffect | kernel/fs/ext2/ext2.c:61-115 | one allocation returns a number not in use, keeps free counts equal to the clear bits, and returns zero exactly when every group is full |
| Ext2Volume.ZeroMeansAllUsed | kernel/fs/ext2/ext2.c:61-115 | zero means that every number of the volume is marked |
| Ext2Volume.AllocLowest | kernel/fs/ext2/ext2.c:61-115 | the number returned is the lowest that is not in use |
| Ext2Volume.BlockBit | kernel/fs/ext2/ext2.c:72-83 | which bit of which bitmap block says that a block is in use |
| Ext2Volume.InodeBit | kernel/fs/ext2/ext2.c:99-110 | and an inode, counted from one |
| Ext2Volume.NeverTwice | kernel/fs/ext2/ext2.c:61-115 | in any run of block and inode allocations no number is returned twice, nor one in use at the start |
| Ext2Volume.InodesApart | kernel/fs/ext2/ext2.c:21-59 | different inodes occupy different bytes |
| Ext2Volume.InodeAt | kernel/fs/ext2/ext2.c:24-37 | with q inodes to the block, inode k q + r of a group is slot r of block k of its table |
| Ext2Volume.InodeRoundTrip | kernel/fs/ext2/ext2.c:21-59 | an inode written reads back and no other inode changes |
| Ext2Volume.Volume.AllocNumber | kernel/fs/ext2/ext2.c:61-115 | the allocators in place are the function `Alloc` |
| Ext2Volume.Volume.FindBit | kernel/fs/ext2/ext2.c:65-74 | the group and bit loops find the first free bit of the first group with one |
| Ext2Volume.Volume.LoadInode | kernel/fs/ext2/ext2.c:21-39 | reads the inode's bytes from its table, nothing when it has no place |
| Ext2Volume.Volume.StoreInode | kernel/fs/ext2/ext2.c:41-59 | writes the inode into its table and nothing else |
| Ext2Files.ReadStaysInside | kernel/fs/ext2/ext2.c:238-243 | a read stays inside the file exactly when offset plus size fits 64 bits |
| Ext2Files.BlockAtSame | kernel/fs/ext2/ext2.c:117-159 | block resolution reads nothing but the inode's own pointer blocks |
| Ext2Files.DirectBlock | kernel/fs/ext2/ext2.c:117-120 | file blocks 0 to 11 are the words at 40 to 84 of the inode |
| Ext2Files.IndirectBlock | kernel/fs/ext2/ext2.c:122-134 | file block 12 + j is word j of the block that the word at 88 names, zero when that is no block of the disk |
| Ext2Files.DoubleIndirectBlock | kernel/fs/ext2/ext2.c:136-156 | file block 268 + 256 j + k is word k of the block that word j of the block at 92 names |
| Ext2Files.NoBlock | kernel/fs/ext2/ext2.c:158-159 | there is none from 65804 on |
| Ext2Files.PlacesDiffer | kernel/fs/ext2/ext2.c:117-159 | two file blocks never share the place that names them |
| Ext2Files.ByteOfBlock | kernel/fs/ext2/ext2.c:244-266 | byte 1024 fb + r of a file is byte r of the disk block of file block fb, zero in a hole |
| Ext2Files.TakeForFile | kernel/fs/ext2/ext2.c:294-296 | a newly allocated block is a data block that no file owns, and taking it changes no file and no inode |
| Ext2Files.AdoptBlock | kernel/fs/ext2/ext2.c:294-297 | giving that block to a file keeps every block with one owner |
| Ext2Files.PrepareEffect | kernel/fs/ext2/ext2.c:293-301 | before the copy the buffer holds what the file reads there, zeros for a hole |
| Ext2Files.ChunkEffect | kernel/fs/ext2/ext2.c:292-304 | one chunk changes exactly its bytes: no other byte of this file, of another file, or of an inode |
| Ext2Files.SizeEffect | kernel/fs/ext2/ext2.c:313-317 | updating and storing the size changes no byte of any file, and the inode on disk is then the one in memory |
| Ext2ReadWrite.OpenFile.GetFileBlock | kernel/fs/ext2/ext2.c:117-159 | the block the tree of direct, indirect and double-indirect pointers has for that place |
| Ext2ReadWrite.OpenFile.Read | kernel/fs/ext2/ext2.c:233-272 | returns the file's bytes at the offset, zeros in holes, cut at the end of the file |
| Ext2ReadWrite.OpenFile.Write | kernel/fs/ext2/ext2.c:274-320 | writes a prefix of the data and nothing else, keeps ownership and counts, gives blocks to exactly the holes it meets and charges two sectors for each, sets the size; stops early only past the direct blocks or on a full disk; what it wrote reads back exactly when the offset is below 2^42; the rest reads as before exactly when the size does not wrap; the inode on disk is the one in memory exactly when the file grew or no hole was filled |
| Ext2ReadWrite.OpenFile.WriteChunks | kernel/fs/ext2/ext2.c:283-311 | the loop alone, with the blocks that replace the holes |
| Ext2ReadWrite.ReadsBack | kernel/fs/ext2/ext2.c:233-320 | what was written reads back if and only if the offset is below 2^42 |
| Ext2ReadWrite.RestReadsSame | kernel/fs/ext2/ext2.c:233-320 | every range below the old size outside the write, holes included, reads as before if and only if the write ends inside the file or its end modulo 2^32 is not below the old size; writes of no byte included |
| Ext2ReadWrite.WriteAt4GEmpties | kernel/fs/ext2/ext2.c:274-320 | a write at offset 2^32 stores nothing, sets the size to zero and leaves nothing to read |
| Ext2ReadWrite.WriteBackwards | kernel/fs/ext2/ext2.c:274-320 | an empty file written at 1024 and then at 0 has a block in memory that its inode on disk does not have, unless the disk is full |
| Ext2ReadWrite.OtherFilesReadSame | kernel/fs/ext2/ext2.c:233-320 | every other file reads as before |
| Ext2ReadWrite.PositionsFold | kernel/fs/ext2/ext2.c:284-286 | positions 2^42 apart are the same byte, because block numbers are cut to 32 bits |
| Ext2Dir.SplitEffect | kernel/fs/ext2/ext2.c:448-462 | a split leaves the cut record's entry, makes the new one, and changes no byte outside the old record |
| Ext2Dir.InsertEffect | kernel/fs/ext2/ext2.c:439-465 | record lengths tile the block again, and the entries are the old ones plus the new one after the split record |
| Ext2Dir.CreatedEntries | kernel/fs/ext2/ext2.c:439-465 | the same for the whole directory, in order |
| Ext2Dir.CreateFinds | kernel/fs/ext2/ext2.c:322-367 | a created name is found at its inode if and only if some record had room and the name has 1 to 255 bytes; every other name is found where it was |
| Ext2Dir.ZeroedBlock | kernel/fs/ext2/ext2.c:428-434 | a fresh, zeroed directory block has no record to split, so nothing is inserted |
| Ext2Format.PackedReads | kernel/fs/ext2/ext2.c:322-407 | records written field by field after the on-disk layout tile the block and are listed in order, those without an inode or a name left out |
| Ext2Format.InsertPacked | kernel/fs/ext2/ext2.c:439-465 | on such a block the insertion replaces the first record with room by that record, cut to its need, and the new one in the rest, byte for byte; without room nothing changes |
| Ext2Format.StaysAligned | kernel/fs/ext2/ext2.c:440-459 | record lengths stay multiples of four |
| Ext2Format.NeedsSome | kernel/fs/ext2/ext2.c:441 | a record needs its name and eight bytes, up to the next multiple of four |
| Ext2Dir.FindDir | kernel/fs/ext2/ext2.c:322-367 | the scan over blocks and records finds the first entry of that name whose inode can be read |
| Ext2Dir.ReadDir | kernel/fs/ext2/ext2.c:369-407 | returns the entry number `index` of all blocks in order, nothing past the last |
| Ext2Dir.AddEntry | kernel/fs/ext2/ext2.c:439-465 | the insertion loop in place is the function `Insert`, and tells whether a record had room |
| Ext2Create.NewInodeFields | kernel/fs/ext2/ext2.c:417-422 | the new inode is that of a regular file with the caller's permission bits, 644 for none, one link, no sectors, size zero and no block |
| Ext2Create.NewFileSectors | kernel/fs/ext2/ext2.c:293-298 | a file that was new has two sectors for each block after any writes |
| Ext2Create.FirstBlockCharged | kernel/fs/ext2/ext2.c:428-434 | a directory is charged rightly for its first block if and only if there was one to be had |
| Ext2Create.AddInodeEffect | kernel/fs/ext2/ext2.c:414-423 | no number exactly when every group is full; otherwise the number was free and is marked, its inode reads back, the file is open beside the others, and no other inode, block tree or byte of a file changed |
| Ext2Create.EnterBlock | kernel/fs/ext2/ext2.c:435-466 | with a directory block: that block holds the insertion, every other byte of every file and every inode are as before, every block still has one owner |
| Ext2Create.EnterFresh | kernel/fs/ext2/ext2.c:428-434 | without one: the directory gets a block if there is one, its inode is stored with size 1024, and nothing else changed |
| Ext2Create.BlockNotCleared | kernel/fs/ext2/ext2.c:428-434 | that block holds on disk whatever it held before |
| Ext2Create.CreateEffect | kernel/fs/ext2/ext2.c:409-469 | the whole of `create`: fails exactly when no inode is free and then changes nothing; otherwise a fresh, marked, empty file whose inode reads back, files intact, and nothing changed but that inode, the directory's inode and its first block |
| Ext2Create.CreateFindsFile | kernel/fs/ext2/ext2.c:322-469 | on the volume, with the directory's blocks through its block tree: the absent name is found at the new inode if and only if a record of the first block had room and it has 1 to 255 bytes, every other name as before |
| Ext2Create.CreateFile | kernel/fs/ext2/ext2.c:409-466 | `create` in place is the function `Create` |
| Ext2Create.FindName | kernel/fs/ext2/ext2.c:322-367 | the search in place, over the directory's blocks on the volume, gives the first entry of that name whose inode can be read |
| Ext2Create.FindsEveryEntry | kernel/fs/ext2/ext2.c:322-367 | in a directory below 2^32 - 1023 bytes every entry of every block below the size is found, if its inode can be read |
| Ext2Create.FoundIsEntry | kernel/fs/ext2/ext2.c:322-367 | and what is found is an entry of that name in such a block, or in block 0 |
| Ext2Create.CountWraps | kernel/fs/ext2/ext2.c:328-329 | from 2^32 - 1023 on the count of blocks wraps around and only block 0 is searched |
| VirtioRx.ArmedInv | kernel/drivers/virtio_net.c:173-183 | the queue as initialised satisfies the invariant |
| VirtioRx.StepKeepsInv | kernel/drivers/virtio_net.c:242-277 | every step of the driver or the device keeps it |
| VirtioRx.NonEmptyRings | kernel/drivers/virtio_net.c:247-249 | equal 16-bit indices mean an empty ring, however often they wrapped |
| VirtioRx.AlwaysInv | kernel/drivers/virtio_net.c:242-277 | it holds in every interleaving of driver and device steps |
| VirtioRx.OnePlace | kernel/drivers/virtio_net.c:173-183 | in every reachable state each buffer is available, held, used and unread, or in the driver's hand: exactly one, and once |
| VirtioRx.LiveSlotsIntact | kernel/drivers/virtio_net.c:265-271 | no step overwrites a ring slot or buffer that is still to be read |
| VirtioRx.DeliveredInOrder | kernel/drivers/virtio_net.c:251-263 | packets reach the caller in used-ring order; each is the bytes the device wrote from byte 10 on, without the virtio header, as many as there are or as the caller has room for |
| VirtioRx.SlotsFollowCounts | kernel/drivers/virtio_net.c:251-268 | a 16-bit index names the slot of the unbounded count if and only if the ring size divides 65536 |
| VirtioRx.PollIs | kernel/drivers/virtio_net.c:242-277 | the six steps of one undisturbed call amount to one packet delivered and its buffer recycled |
| VirtioRx.PollDelivers | kernel/drivers/virtio_net.c:251-263 | what the call hands out is, byte for byte, the packet of the oldest completion behind its header |
| VirtioRx.DeviceToCaller | kernel/drivers/virtio_net.c:242-277 | with nothing unread, what the device writes into a buffer and completes is what the next call hands out |
| VirtioRx.RxQueue.Poll | kernel/drivers/virtio_net.c:242-277 | the poll in place makes those steps and returns the bytes of the next packet behind its header, nothing when there is none |
| Tcp.SendSplits | kernel/net/tcp.c:144-164 | a send puts on the wire consecutive segments of at most 1460 bytes whose payloads are the data, or a prefix when the link fails, with nothing but empty acknowledgements between them whatever arrives meanwhile, and moves the sequence number by that much modulo 2^32; the result is the length exactly when all of it left, 0 for no data, -1 otherwise and without a connection |
| Tcp.SendIsRun | kernel/net/tcp.c:144-164 | a whole send with the segments that arrive between its own is a run of the single steps the next row speaks of |
| Tcp.SegmentLeaves | kernel/net/tcp.c:71-101 | a segment leaves exactly when it fits the buffer and the network takes it; otherwise nothing changes |
| Tcp.StreamConserved | kernel/net/tcp.c:190-289 | for any interleaving of arrivals, reads and sent segments, bytes read and bytes in the ring are the bytes accepted, in order, and every read returned as many bytes as it asked for or the ring held, the smaller |
| Tcp.AckCoversAccepted | kernel/net/tcp.c:270-281 | the acknowledgement counts the accepted bytes if and only if all data fitted |
| Tcp.DataAnswered | kernel/net/tcp.c:266-281 | data is answered by one segment, with the new acknowledgement, the window after it and no payload |
| Tcp.FinAcked | kernel/net/tcp.c:283-287 | a FIN is acknowledged if and only if it carries no data |
| Tcp.HandshakeConnects | kernel/net/tcp.c:258-264 | the reply to SYN and ACK leaves a connection with the whole ring on offer |
| Tcp.NothingDropped | kernel/net/tcp.c:190-281 | a peer that sends in order, once, within windows ever offered loses nothing, every read returns what it asked for or all there is, and the acknowledgement is its start plus all bytes received modulo 2^32 |
| Tcp.CloseInTurn | kernel/net/tcp.c:202-315 | two sockets in step, one closing and then the other, go through FIN_WAIT_1, CLOSE_WAIT, FIN_WAIT_2, LAST_ACK, TIME_WAIT and CLOSED, each acknowledging the other's FIN |
| Tcp.CloseAtOnce | kernel/net/tcp.c:202-298 | closing at the same time both end in TIME_WAIT with the FINs acknowledged |
| Tcp.CloseUnconnected | kernel/net/tcp.c:202-234 | a close without a connection sends nothing and closes |
| Tcp.ResetCloses | kernel/net/tcp.c:252-255 | a reset closes the socket in any state and changes nothing else |
| Tcp.Indifferent | kernel/net/tcp.c:257-319 | what a socket does not wait for in its state leaves it as it is, but for a reset |
| Tcp.RingPush | kernel/net/tcp.c:272-277 | storing at the tail appends to the ring's contents, also across the end of the buffer |
| Tcp.RingPop | kernel/net/tcp.c:193-196 | the byte at the head is the oldest, also across the end of the buffer |
| Tcp.Socket.SendSegment | kernel/net/tcp.c:71-101 | the segment sent carries the current numbers and window, and the sequence number advances |
| Tcp.Socket.StoreData | kernel/net/tcp.c:272-278 | the byte loop appends what fits |
| Tcp.Socket.ReceiveSegment | kernel/net/tcp.c:252-321 | the state machine in place is the function `Receive` |
| Tcp.Socket.ReceiveBytes | kernel/net/tcp.c:190-199 | returns the oldest bytes, as many as asked for or all there are, and leaves the rest |
| Tcp.Socket.SendBytes | kernel/net/tcp.c:144-164 | the loop in place, with the poll after each segment, is the function `Send` |
| Tcp.Socket.BeginClose | kernel/net/tcp.c:202-228 | close in place, up to its wait, is `StartClose` |
| Checksum.FoldIs | kernel/net/net.c:25-27 | folding ends, keeps the sum modulo 65535 and gives zero only for zero |
| Checksum.WordSumIs | kernel/net/net.c:16-23 | the sum is that of all 16-bit words, low byte first, a last odd byte being a word of its own |
| Checksum.OneByteDetected | kernel/net/net.c:12-30 | changing any one byte, at any place and of any length, changes the checksum |
| Checksum.SelfVerifies | kernel/net/net.c:12-30 | storing the checksum in a zeroed, even 16-bit field makes the checksum zero, for every length |
| Checksum.NoOverflow | kernel/net/net.c:12-30 | up to 65537 words the 32-bit sum does not overflow and the checksum is that of the true sum |
| Checksum.TrueSum | kernel/net/net.c:12-30 | in general it is so if and only if the carries lost are a multiple of 65535 and the 32-bit sum is zero only when the true sum is |
| Checksum.OverflowsAt65538 | kernel/net/net.c:12-30 | 65538 words of all ones overflow and get another checksum |
| Checksum.HeaderAccepted | kernel/net/ipv4.c:21-32 | every header that is sent passes the receiver's check |
| Checksum.SegmentVerifies | kernel/net/tcp.c:55-69 | a TCP segment with its checksum in place verifies under the same pseudo header, odd lengths included |
| Checksum.NetChecksum | kernel/net/net.c:12-30 | the two loops compute the specified checksum, the complement of the folded 32-bit total of all words, the odd one included |
| Checksum.AddWords | kernel/net/net.c:16-23 | the summing loop gives the sum of the words, the odd one included, modulo 2^32 |
| Checksum.FoldCarries | kernel/net/net.c:25-27 | the folding loop ends with the folded sum |
| Wire.FrameArrives | kernel/net/tcp.c:71-250 | what the receiver reads from the frame is source, ports, numbers and flags as sent, and the payload with the padding of a short frame behind it; the checksum verifies |
| Wire.PayloadArrives | kernel/net/ethernet.c:24-29 | so exactly the payload is read if and only if it has six bytes or more |
| Wire.EmptyAckIsData | kernel/net/tcp.c:266-281 | an acknowledgement without data puts six zero bytes into the ring of a connected socket |
| Wire.AcksForEver | kernel/net/tcp.c:266-281 | and is answered: two connected sockets exchange such acknowledgements for any number of turns, also once the rings are full |
| Wire.CarriedIs | kernel/net/ipv4.c:13-81 | an arrival in those turns is what comes out of the frame |
| Wire.FinOverran | kernel/net/tcp.c:283-287 | through the frame a FIN without data is acknowledged five bytes too far, and the connection goes to CLOSE_WAIT all the same |
| Wire.FlagBits | kernel/net/tcp.c:245 | each flag is its own bit of the byte, whatever the others are |
| Wire.TcpSumIs | kernel/net/tcp.c:55-69 | the checksum is that of addresses, protocol, length and every word of the segment, and zero above 2048 bytes |
| Wire.Addressed | kernel/net/ipv4.c:66-69 | a packet is read if and only if it is for this host or for all |
| Wire.DamagedHeader | kernel/net/ipv4.c:61-64 | a packet with one byte of its IP header changed, but for the first, is dropped |
| Wire.TooShort | kernel/net/ipv4.c:52-59 | nothing is read from a frame too short for its headers or with a header length that cannot be |

## Left out

- Hardware plumbing: port I/O, CR3 and TLB flushes, MSRs, FPU state, interrupt controllers, timers, PCI, ATA, UART and keyboard. The TLB is taken as always coherent and the disk as an array of blocks that can be read and written in range.
- The transmit side of the virtio driver: its time-out path returns while the device may still own the only buffer.
- The system-call dispatcher, ARP, UDP, ICMP, DNS, the mount and descriptor tables, tarfs and string helpers: many branches, easy properties.
- `process_execve`, boot, user-stack set-up, user programs other than the thread demo's queue.
- Time-outs measured with rdtsc: a poll ends whenever it does; `net_poll` inside the send and receive loops is the arrival of any segments between two steps.
- Frames.FrameAllocator.AllocPages: asks for no more frames than the pool has, because for a larger count the bound of the source's loop wraps around and the scan leaves the bitmap.
- The pages of the kernel's own image, bitmap and stacks: they are reached by address like the pool, and a mapping over them is not part of this model; nor is a page of the pool made read-only.
- Paging.AddressSpace.MapPage: asks for the pool in view, without which the kernel's pointers mean other frames (`PoolShadow` follows one such case); stops when no frame is left for a table; the source goes on with a table at physical address zero.
- Paging.AddressSpace.NewTable: stops when no frame is left, for the same reason.
- Paging.AddressSpace.EnsurePath: stops when no frame is left, for the same reason.
- Paging.AddressSpace.MapUserPages: asks that every page but the last leave the pool in view; returns at the first page that cannot be mapped; the source carries on with tables at physical address zero.
- Paging.AddressSpace.UnmapPage: one page; the loop `unmap_user_pages` and `modify_page_flags` are not modelled.
- ElfLoader.LoadBinary: assumes of a file with a good header what the source does not test: program headers and segments inside the file and the address space, page-disjoint, clear of the pool, with file size at most memory size.
- ElfLoader.LoadSegment: a mapping that fails for want of frames ends the load; the source does not notice it.
- Vmm.AreaTable.Protect: the area table only; the entry flags that `vma_protect` sets are not part of this model.
- Vmm.AreaTable.Remove: the area table only; the unmapping of pages by `vma_remove` is not part of this model.
- Processes.AlwaysOwnPages: a fork into the caller's own slot must keep its stack, `Processes.ForkAfterSelfKill` says when it does; the page table is the map from page to frame, tied to the real one by `AddressSwitch`; registers, kernel stacks, the bytes of a stack copied at a fork, the descriptor table and the stored exit status word are left out, and so is the wrap of process ids.
- Processes.ProcessTable.ExitProcess: a process other than pid 1, for which the machine halts; the cleared word at `clear_child_tid` is user memory and not modelled.
- Mutex.AlwaysInv: no other process sleeps on the same virtual address, `FutexRuns.WakeReachesGroup` says what happens then; futex waits and wakes are atomic on the kernel's side; a signal or a parent's wake-up in the middle of a futex wait is not part of these runs.
- Mutex.NobodyStranded: holds under the same hypothesis on other processes.
- BoundedQueue.NoDeadlock: holds under the same hypothesis, for the addresses of its semaphores and mutexes.
- QueueEnds.EveryRunFinishes: holds under the same hypothesis; a scheduler that lets no thread move at all is not excluded.
- Mutex.EveryCallServed: holds under the same hypothesis.
- BoundedQueue.QueueIsFifo: no other process sleeps on the addresses of its semaphores and mutexes; the printing inside the critical sections is left out.
- Ext2Volume.AllocEffect: 1024-byte blocks, bitmaps and inode tables that share no block; the copies of superblock and group descriptors in memory are the ones meant, since the source never writes them back.
- Ext2ReadWrite.OpenFile.Write: one open node for each file; the source gives two nodes for the same file separate copies of the inode.
- AddressSwitch.RemapSpace: asks that the records keep the pool in view; stops when no frame is left for a table, as `Paging.AddressSpace.MapPage` does.
- Processes.ProcessTable.WaitFutex: up to the idle loop; what can happen in the loop is the subject of `FutexRuns`.
- Processes.ProcessTable.WaitScan: one scan; the loop around it and the status word are left out.
- Ext2Dir.CreateFinds: takes the directory's blocks as given; on the volume it is `Ext2Create.CreateFindsFile`.
- Ext2Dir.FindDir: takes the blocks of the directory that can be read, in file order, as given; on the volume it is `Ext2Create.FindName`.
- Ext2Format.InsertPacked: names of at most 255 bytes and unused bytes that are zero; longer names and any bytes are the matter of `Ext2Dir.InsertEffect`.
- Ext2Dir.ReadDir: takes the blocks as given and does not cut names to the caller's buffer.
- Ext2Create.CreateEffect: asks that record lengths tile the directory's first block and that inode numbers fit 32 bits; the pool of 128 nodes that the handle comes from is not modelled.
- Ext2Create.CreateFindsFile: asks the same of the directory's first block.
- Ext2Create.CreateFile: asks the same of the directory's first block.
- Ext2Create.FindName: asks that records do not leave their block, which the source does not test.
- VirtioRx.AlwaysInv: the queue size is the one both sides use; when the device announces more than 256 entries the source caps its own size only.
- Tcp.SendSplits: the next hop is in the ARP cache; on a miss `arp_resolve` polls while the outgoing packet sits in the one transmit buffer, and a reply to what arrives then overwrites it.
- Tcp.Socket.BeginClose: up to the wait; the half second that `tcp_close` waits, after which the socket is closed in any case, is left out.
- Tcp.CloseInTurn: nothing is lost and no data is under way; segments reach the other side without the padding that `Wire` is about.
- Wire.FrameArrives: the limits of 2048 bytes of the IP and Ethernet buffers, which segments of at most 1460 bytes do not reach, the routing decision and the hardware addresses as `arp_resolve` finds them are left out.
- Tcp.NothingDropped: retransmission, reordering and urgent data do not exist in the source; arrivals are matched to their socket before.
- The memory order of the driver's and the threads' stores: each step is atomic and seen at once by all.

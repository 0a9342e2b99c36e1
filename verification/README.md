# Felix, modelled in Dafny

Felix is a small 32-bit operating system. This project models its most intricate pieces and proves
what they promise, over every input, every run or every interleaving.

| piece | files |
|---|---|
| pseudo-terminal line discipline | `Pty.dfy`, `PtyProofs.dfy`, `PtyWitnesses.dfy` |
| futex-based userspace mutex | `FutexMutex.dfy` |
| TLB shootdown with epochs | `TlbShootdown.dfy` |
| start of the application processors | `ApStartup.dfy` |
| per-CPU trace ring read without a lock | `TraceRing.dfy` |
| boot loader's ext2 file copy | `Ext2Loader.dfy`, `Ext2File.dfy` |
| userspace heap | `Alignment.dfy`, `UserHeap.dfy` |
| shell grammar and word expansion | `Shell.dfy`, `ShellProofs.dfy`, `ShellLayout.dfy` |
| terminal screen and reflow | `Reflow.dfy`, `ScreenModel.dfy`, `ScreenLaws.dfy`, `Screen.dfy`, `ScreenWitness.dfy` |
| kernel log and its file | `Klog.dfy` |
| pipes | `Pipes.dfy` |
| kill, stop and continue | `Signals.dfy`, `SignalLaws.dfy` |
| interrupt-masking guards | `InterruptGuard.dfy` |
| shared definitions | `Common.dfy` |

`dafny verify dfyconfig.toml` verifies everything.

Objects that the system updates in place are classes whose methods are proved against functions on
plain values, or state their property outright; concurrent protocols are transition systems, one step
for each atomic operation, and their theorems quantify over all finite runs. No proof relies on automatic
induction: every lemma switches it off and recurses where it needs to.

Assumptions, stated once: atomics are sequentially consistent; counters that would take years to wrap
(epochs, sequence numbers, line numbers, reference counts) do not; code that the kernel lock serialises
runs alone; the environment (clock, scheduler, disk, kernel answers) enters as parameters or as steps
that may happen at any time. Each file's head names what is particular to it.

Where the code does not keep what it or its comments suggest, the code is modelled as it is. A first lemma
gives the exact condition, a second one an input or a run from the start that breaks the promise:

- a terminal switched from raw to cooked mode delivers later lines only if its queue was empty
  (`SwitchKeepsLinesIffQueueEmpty`, `RawByteSpoilsLine`);
- an end-of-file typed on an empty line is overtaken by any line finished before the reader gets to it
  (`EofInOrderIffNoLaterLine`, `LineOvertakesEof`);
- a raw read does not wait for VMIN bytes (`RawReadReachesMinIffQueued`, `RawReadFallsShort`);
- a slave polled writable still blocks on a newline with one byte of room (`WritableSlaveBlocksIff`,
  `WritableSlaveBlocks`);
- a processor listed twice in the APIC table can run on a foreign stack (`EveryApRunsOnItsOwnStack`,
  `DuplicateIdTakesForeignStack`);
- the boot loader's walk goes astray exactly at holes (`WalkFollowsFileIffHoleFree`, `HoleMisleadsWalk`);
- the heap honours alignments up to a page and no further (`GrantIsAligned`,
  `LargeAlignmentIsNotHonoured`);
- the shell loses a U+001F typed without quotes or between double quotes (`PlainTextIsLiteralIff`,
  `MarkerIsLost`, `QuotedMarkerIsLost`);
- CSI 1 K and CSI 1 J with the cursor past the right edge erase a cell of the next row
  (`EraseLeftStaysInRowIff`, `EraseAboveStaysAboveIff`, `EraseTakesNeighbour`);
- a partial append makes the log flusher write lines twice, and the file is never right again
  (`ExactIffAllWhole`, `PartialAppendRepeats`).

Two comments disagree with the code they describe: the short log dump shows fifty lines, not eighty, and
the log ring has 8192 lines, not 4096. The model follows the code.

## Model

| member | source | states |
|---|---|---|
| FutexMutex.RunInv | lib/src/mutex.rs:33-101 | in every state of every run of any number of threads: at most one owner, the word is 0 exactly when there is none, and a thread sleeps only while the word is 2, an unlocker owes a wake or an awake thread is in the slow path |
| FutexMutex.StepKeepsOwnership | lib/src/mutex.rs:33-72 | each atomic operation of each thread keeps mutual exclusion and "word 0 iff no owner" |
| FutexMutex.StepKeepsWakeups | lib/src/mutex.rs:60-64 | each operation, including the kernel's compare-and-sleep and wake, keeps the no-lost-wakeup condition |
| FutexMutex.LockNeverGivesUp | lib/src/mutex.rs:33-64 | no step of any thread takes a `lock` caller anywhere but further inside or to the mutex, and to the mutex only by its own step on a word of 0 |
| FutexMutex.LockReturnsWithTheMutex | lib/src/mutex.rs:33-64 | over every run, a thread that was inside `lock` and is not any more has owned the mutex in between |
| FutexMutex.TryLockNeverBlocks | lib/src/mutex.rs:67-72 | a `try_lock` is over after one step of its own, with the mutex exactly if the word was 0 |
| FutexMutex.CallStarts | lib/src/mutex.rs:33-38 | a call changes nothing but where its thread stands |
| FutexMutex.OwnerKeeps | lib/src/mutex.rs:93-101 | only its own unlocking, which stores 0, takes the mutex from a thread |
| FutexMutex.SlowPathLooksFirst | lib/src/mutex.rs:38-64 | whoever fails the fast path or is woken reads the word before anything else |
| FutexMutex.UncontendedIsTwoSteps | lib/src/mutex.rs:67-101 | taking and leaving a free mutex is one atomic operation each, with no system call |
| FutexMutex.ContendedLockerSleeps | lib/src/mutex.rs:55-62 | a thread that finds the mutex taken marks the word and sleeps; one that finds it marked sleeps at once |
| FutexMutex.SlowPathAcquires | lib/src/mutex.rs:38-65 | while the lock is free, a thread in the slow path gets it by its own steps alone, and marks the word contended |
| FutexMutex.OwnerLeaves | lib/src/mutex.rs:93-101 | an owner can always leave, waking a sleeper if it found any, and only it becomes idle |
| FutexMutex.WakerLeaves | lib/src/mutex.rs:97-99 | a thread that has unlocked and owes a wake pays it and is out |
| FutexMutex.SomeoneAcquires | lib/src/mutex.rs:33-65 | while nobody holds the lock or owes a wake, some busy thread gets it by its own steps |
| FutexMutex.SomeoneGetsOut | lib/src/mutex.rs:33-101 | from every invariant state with a busy thread, a schedule without new callers or lucky wake-ups takes exactly one thread out |
| FutexMutex.EveryoneCanFinish | lib/src/mutex.rs:33-101 | no reachable state is a dead end: all threads inside can get through without outside help |
| FutexMutex.FreeLockHasNoStrandedSleeper | lib/src/mutex.rs:60-64 | when nobody owns the lock and nobody awake is in its slow path or owes a wake, nobody sleeps on it |
| Pty.Terminal.constructor | kernel/src/tty.rs:94-116 | a new terminal is empty, cooked and referenced once from each side |
| Pty.Terminal.QueueEcho | kernel/src/tty.rs:624-634 | echo goes to the master's queue as it is, as far as it fits |
| Pty.Terminal.CommitCanonical | kernel/src/tty.rs:643-656 | the edited line moves to the reader's queue as far as it fits, and becomes a record if anything of it did |
| Pty.Terminal.MasterInputByte | kernel/src/tty.rs:658-710 | one typed byte: signal characters, mapping, erase, kill, end-of-file, newline and data, with echo, equal the specification function |
| Pty.Terminal.EditLine | kernel/src/tty.rs:676-704 | the cooked branch of the same |
| Pty.Terminal.TryReadInner | kernel/src/tty.rs:422-473 | what a read attempt takes from which queue, and its end-of-file flag |
| Pty.Terminal.Read | kernel/src/tty.rs:532-622 | the outcome of a read for every side, mode, size, blocking flag, group and timer, and the state after it |
| Pty.Terminal.WriteFromMaster | kernel/src/tty.rs:730-752 | typed data is taken byte by byte until the terminal makes no progress |
| Pty.Terminal.WriteFromSlave | kernel/src/tty.rs:753-788 | output reaches the master post-processed and in order, never half a CR NL, as much as fits |
| PtyProofs.OutputProcessing | kernel/src/tty.rs:753-788 | a newline becomes carriage return and newline if both modes are on, and nothing else changes |
| Pty.Terminal.Write | kernel/src/tty.rs:712-789 | result and effect of a write on both sides |
| PtyProofs.WriteBlocksIff | kernel/src/tty.rs:712-789 | when a write waits, and how much the slave's side takes |
| PtyProofs.BackgroundIsTold | kernel/src/tty.rs:532-560 | who is told to be in the background |
| PtyProofs.FlushForgets | kernel/src/tty.rs:818-828 | whatever is read after a flush was queued after it; nothing half-edited or latched survives, output does |
| Pty.Terminal.Retune | kernel/src/tty.rs:830-860 | mode change, releasing a half-edited line when cooked mode ends |
| PtyProofs.RetuningReleases | kernel/src/tty.rs:830-860 | leaving cooked mode hands over the half-edited line and forgets line ends and a latched end-of-file; other changes touch the modes only |
| PtyProofs.CloseUndoesOpenIff | kernel/src/tty.rs:328-395 | closing a side undoes opening it if and only if the count had not saturated |
| Pty.Terminal.Close | kernel/src/tty.rs:340-395 | closing a side, hanging up, and exactly when the terminal is released |
| PtyProofs.ReachableInv | kernel/src/tty.rs:340-381 | after any sequence of typing, reads, writes, mode switches, flushes and closes: queues within 8192 bytes, records positive and covered by queued bytes, raw mode without record, half line or pending end-of-file |
| PtyProofs.StepInv | kernel/src/tty.rs:643-710 | every single event keeps that invariant |
| PtyProofs.CanonicalReadIsExact | kernel/src/tty.rs:422-458 | in every reachable cooked state with a line, a read gets exactly the smaller of buffer and first record |
| PtyProofs.SignalCharacters | kernel/src/tty.rs:658-675 | the interrupt, quit and suspend characters are their signals, empty the line and show themselves |
| PtyProofs.EditingCharacters | kernel/src/tty.rs:676-697 | the erase character drops the last byte of the line, the kill character all of it, the end-of-file character latches or releases, each with its echo |
| PtyProofs.OrdinaryCharacters | kernel/src/tty.rs:698-704 | any other byte joins the line while there is room, a carriage return as a newline if so set, and a newline ends the line |
| PtyProofs.RawCharacters | kernel/src/tty.rs:705-708 | in raw mode every byte but a signal character is queued while there is room |
| PtyProofs.CommitReleases | kernel/src/tty.rs:643-656 | releasing queues as much of the line as fits in 8192 bytes and records its length if anything did |
| PtyProofs.FreshCharacters | kernel/src/tty.rs:94-116 | the modes and characters of a new terminal |
| PtyProofs.FreshIsEmpty | kernel/src/tty.rs:94-116 | nothing queued, half-edited or latched, and each side open once |
| PtyProofs.CommitRefines | kernel/src/tty.rs:643-656 | committing equals finishing a line in the queue-of-lines view |
| PtyProofs.TypingRefines | kernel/src/tty.rs:658-710 | a typed byte does to the flat queue what it does to a queue of edited lines |
| PtyProofs.ReadRefines | kernel/src/tty.rs:422-458 | a read of any size takes a prefix of the oldest line and nothing of the next |
| PtyProofs.StepRefines | kernel/src/tty.rs:422-458 | every event on a cooked terminal appends the line it finishes or takes the chunk it hands over |
| PtyProofs.StepServes | kernel/src/tty.rs:422-828 | every event, a flush included, does to the flat queue, its record lengths and the half-edited line what it does to a queue of lines |
| PtyProofs.RunRefines | kernel/src/tty.rs:422-828 | over every run of a cooked terminal, with any amount of typing, overflow, flushes and hangups, the flat queue is the queue of lines |
| PtyProofs.ReaderSeesLines | kernel/src/tty.rs:422-458 | for every interleaving: lines arrive in order, no chunk crosses a line, each byte at most once, the rest is still queued |
| PtyProofs.FinishedLinesAreEditedLines | kernel/src/tty.rs:658-710 | as long as queue and half-edited line leave room whenever a byte is typed, the finished lines are exactly the edited lines of the typed bytes, however long the session |
| PtyProofs.SlaveInputIsFifo | kernel/src/tty.rs:422-473 | without a flush, through any changes of mode, bytes handed over plus queue equal old queue plus bytes queued |
| PtyProofs.RawWriteIsTransparent | kernel/src/tty.rs:705-708 | without signal characters a raw terminal takes the data in order, as much as there is room for |
| PtyProofs.PollAgreesWithRead | kernel/src/tty.rs:397-409 | in every reachable state poll and read agree on masters and cooked slaves, if and only if the slot is not released; on raw slaves up to the stated VMIN and VTIME case |
| PtyProofs.SwitchKeepsLinesIffQueueEmpty | kernel/src/tty.rs:830-860 | after a switch to cooked mode the next lines are read whole if and only if the queue was empty |
| PtyProofs.FinishesIff | kernel/src/tty.rs:643-704 | an event adds a record if and only if there is room and it is a newline, an end-of-file behind a half-edited line, or a hangup on one |
| PtyProofs.LaterLinesIffFinished | kernel/src/tty.rs:422-458 | while the reader works through the lines queued first, in reads of any size, the lines behind them become more if and only if some event finishes one |
| PtyProofs.EofInOrderIffNoLaterLine | kernel/src/tty.rs:428-437 | a latched end-of-file is read right behind the lines queued before it if and only if no event, until the reader has them, finishes a line |
| PtyProofs.RawReadReachesMinIffQueued | kernel/src/tty.rs:532-622 | a blocking raw read gets VMIN bytes if and only if they were queued before |
| PtyProofs.WritableSlaveBlocksIff | kernel/src/tty.rs:411-420 | a writable slave blocks exactly on a newline that expands to two bytes with one byte of room |
| PtyProofs.RawMasterIsWritableIff | kernel/src/tty.rs:411-420 | a raw terminal's master is polled writable if and only if it takes a byte |
| PtyWitnesses.RawByteSpoilsLine | kernel/src/tty.rs:830-860 | a fresh terminal, raw mode, one byte, cooked mode and a line: the read gets the byte and half the line |
| PtyWitnesses.LineOvertakesEof | kernel/src/tty.rs:428-437 | a fresh terminal, end-of-file, then a line: the line is read first |
| PtyWitnesses.RawReadFallsShort | kernel/src/tty.rs:532-622 | a fresh terminal, raw mode with VMIN 2, one byte: a blocking read of two returns one |
| PtyWitnesses.WritableSlaveBlocks | kernel/src/tty.rs:411-420 | a fresh terminal, 8191 bytes of output: polled writable, and a newline blocks |
| TlbShootdown.RunInv | kernel/src/smp.rs:879-986 | the shootdown invariant over every run of senders, handlers, switches, fills, mappings and late or lost IPIs |
| TlbShootdown.SenderStepInv | kernel/src/smp.rs:879-986 | every sender step keeps it |
| TlbShootdown.EnvironmentStepInv | kernel/src/smp.rs:698-700 | switches, fills, mappings and IPI delivery keep it |
| TlbShootdown.CpuChangeInv | kernel/src/smp.rs:1012-1034 | any change of one CPU keeps the invariant if it gains no stale entry, keeps its handler in order and has dropped the entry when it acknowledges |
| TlbShootdown.HandlerLoadInv | kernel/src/smp.rs:1013-1017 | the handler's loads, epoch first, keep it |
| TlbShootdown.HandlerFlushInv | kernel/src/smp.rs:1017-1021 | the flush and the acknowledgement keep it |
| TlbShootdown.TrueMeansClean | kernel/src/smp.rs:879-986 | whenever the call for `dir` and `addr` is about to return true, in any run, no other CPU on that directory holds the 4 KiB page `addr` lies in |
| TlbShootdown.CallStays | kernel/src/smp.rs:879-986 | the call under way stays the same until it returns |
| TlbShootdown.ScanFinds | kernel/src/smp.rs:885-900 | the scan finds exactly the other online CPUs on the directory, each once; without any the call may return true at once |
| TlbShootdown.ShootdownCanSucceed | kernel/src/smp.rs:902-963 | with targets that can take an interrupt, IPIs delivered and handlers run, the next polling pass returns true, one epoch on |
| TlbShootdown.SenderIsNeverStuck | kernel/src/smp.rs:879-986 | the sender can always go on or return, and while it polls it may time out |
| TlbShootdown.CallCanBegin | kernel/src/smp.rs:879-886 | a call can begin whenever none is under way and the page is unmapped |
| TlbShootdown.UnmappingIsNotEnough | kernel/src/smp.rs:879-986 | without a shootdown a run leaves another CPU with a page that is gone |
| TlbShootdown.CleanUntilRemapped | kernel/src/smp.rs:879-986 | it stays so until the page is mapped again |
| TlbShootdown.HandlerAcksNewest | kernel/src/smp.rs:1012-1034 | one complete handler run, by whichever IPI, acknowledges the newest transaction |
| ApStartup.RunInv | kernel/src/smp.rs:1151-1196 | the startup invariant over every run with distinct ids, SIPIs lost or late |
| ApStartup.LoopInv | kernel/src/smp.rs:1151-1196 | the boot processor's loop keeps it, timeouts included |
| ApStartup.SipiInv | kernel/src/smp.rs:1164-1179 | sending INIT and SIPIs keeps it |
| ApStartup.ReadParamInv | kernel/src/smp.rs:1158-1159 | a processor reading the shared block at any moment keeps it |
| ApStartup.EveryApRunsOnItsOwnStack | kernel/src/smp.rs:1151-1196 | every processor that ever runs uses the stack of its own slot, also after its timeout |
| ApStartup.StacksAreDisjoint | kernel/src/smp.rs:114-123 | running processors never share a byte of stack |
| ApStartup.StackIsInArea | kernel/src/smp.rs:113-123 | the processor of slot k runs on the k-th 16 KiB of the stack area |
| ApStartup.StartNext | kernel/src/smp.rs:1151-1196 | the next processor can always be brought up, with this exact state |
| ApStartup.SecondSipiRecovers | kernel/src/smp.rs:1164-1179 | a lost first SIPI is made up for by the second, which is sent only while nobody has answered |
| ApStartup.SipiLeaves | kernel/src/smp.rs:1164-1179 | a SIPI lost or delivered is no longer on its way, and no other is touched |
| ApStartup.DuplicateIdTakesForeignStack | kernel/src/smp.rs:450-455 | with an id listed twice some run puts that processor on a stack other than its own slot's |
| TraceRing.RunInv | kernel/src/observability.rs:119-142 | the ring's invariant over every interleaving of field stores and loads |
| TraceRing.NoTornEvent | kernel/src/observability.rs:234-260 | whatever a reader prints under a sequence number is the whole event written under it |
| TraceRing.NewestEventsAreInTheRing | kernel/src/observability.rs:119-142 | each of the newest 64 published events is in the ring in full |
| TraceRing.EventIsWritten | kernel/src/observability.rs:119-142 | a writer left alone puts its event, under the next number, into the entry of that number |
| TraceRing.EventIsRead | kernel/src/observability.rs:234-260 | a reader left alone prints every event that is in the ring |
| Ext2Loader.Loader.ReadExtentToHigh | bootloader/src/disk.rs:140-157 | an extent of any length lands whole at its target, leaving the pointer tables alone |
| Ext2Loader.Loader.ReadSectors | bootloader/src/disk.rs:126-138 | sectors bounced through the low buffer land at their target |
| Ext2Loader.Loader.ReadBlockLow | bootloader/src/ext2.rs:176-185 | a block is read low, except block 0, which fails |
| Ext2Loader.Loader.ReadBlockToHigh | bootloader/src/ext2.rs:187-195 | one block lands at its target |
| Ext2Loader.Loader.ReadBlockRunToHigh | bootloader/src/ext2.rs:197-214 | fast and legacy mode land the same bytes |
| Ext2Loader.Loader.RunLength | bootloader/src/ext2.rs:297-304 | the pointers grouped into one read are the longest run that counts up by one |
| Ext2Loader.GroupIsLongest | bootloader/src/ext2.rs:297-304 | consecutive pointers are read together, all of them |
| Ext2Loader.Loader.CopyNextRun | bootloader/src/ext2.rs:292-310 | one round appends the run's content and keeps the table it walks |
| Ext2Loader.Loader.CopyTable | bootloader/src/ext2.rs:316-334 | a table's blocks are copied up to its first zero or the run that reaches the size, and no others are read |
| Ext2Loader.Loader.CopyLeaf | bootloader/src/ext2.rs:358-369 | a second-level table's blocks are copied up to its first zero or the size while both tables stay intact |
| Ext2Loader.Loader.CopyDouble | bootloader/src/ext2.rs:338-371 | the double-indirect tree is copied in order |
| Ext2Loader.Loader.CopyFileBlocks | bootloader/src/ext2.rs:286-374 | the result is as much of the size as the visited blocks cover, and exactly their content lies at the destination; only blocks and tables that are read need be readable |
| Ext2Loader.StillWanted | bootloader/src/ext2.rs:292-310 | the loader's test in bytes holds exactly while blocks of the file are wanting |
| Ext2Loader.LandedKeepsTable | bootloader/src/ext2.rs:197-214 | no data read overwrites a pointer table |
| Ext2Loader.RunIsExtent | bootloader/src/ext2.rs:197-214 | consecutive blocks are one piece of the disk |
| Ext2Loader.LbaIsExact | bootloader/src/ext2.rs:168-170 | the 32-bit block-to-sector product is exact for readable blocks |
| Ext2Loader.LittleEndian | bootloader/src/ext2.rs:80-82 | a 32-bit number laid down least significant byte first is read back |
| Ext2File.BlockOnDisk | bootloader/src/ext2.rs:168-170 | where on the disk the bytes of a block are |
| Ext2File.EntryOnDisk | bootloader/src/ext2.rs:80-82 | an entry of a pointer table is the number whose four bytes are on the disk |
| Ext2File.WalkFollowsFileIffHoleFree | bootloader/src/ext2.rs:286-374 | the walk visits the file's blocks in their places if and only if the file has no hole |
| Ext2File.HoleMisleadsWalk | bootloader/src/ext2.rs:286-374 | on every volume a file of two blocks whose second is a hole leads the walk astray |
| Ext2File.VisitedSkipsZero | bootloader/src/ext2.rs:286-374 | the walk never reads a hole |
| Ext2File.TablesOnlyIfNeeded | bootloader/src/ext2.rs:316-371 | a pointer table is read only for blocks that are behind it |
| Ext2File.HoleFreeFileIsCopiedExactly | bootloader/src/ext2.rs:286-374 | for a file without holes the walk covers the size and every byte is the file's |
| Ext2File.LoadFile | bootloader/src/ext2.rs:286-374 | the size comes back and every byte of the file lies at the destination, in both modes |
| UserHeap.AdjustFits | lib/src/sys_alloc.rs:53-58 | the adjusted layout is the least multiple of its alignment that holds the request and a list node |
| UserHeap.WordStored | lib/src/sys_alloc.rs:85-93 | a node's words are read back from the memory bytes they were stored in |
| UserHeap.PushNode | lib/src/sys_alloc.rs:85-93 | two words stored into a block apart from the list make it the head of the list decoded from memory, and no other node is damaged |
| UserHeap.UnlinkNode | lib/src/sys_alloc.rs:102-107 | rewriting the predecessor, or the head, takes out exactly one node |
| UserHeap.WriteElsewhere | lib/src/sys_alloc.rs:113 | a write that misses the free blocks leaves the list intact |
| UserHeap.Heap.FreeListAdd | lib/src/sys_alloc.rs:85-93 | the block heads the list; null and too small ones are ignored |
| UserHeap.Heap.Unlink | lib/src/sys_alloc.rs:102-107 | the found node leaves the list, live blocks keep their bytes |
| UserHeap.Heap.FreeListTake | lib/src/sys_alloc.rs:95-120 | first fit: null iff nothing fits and then no change; else the first fitting block, split, zeroed, disjoint from all others, with all bytes accounted for |
| UserHeap.FirstFitIs | lib/src/sys_alloc.rs:95-120 | the block found is the first that is large enough and aligned, and nothing is found iff none is |
| UserHeap.LeftoverIs | lib/src/sys_alloc.rs:108-118 | what is left of a block is kept if it is more than 16 bytes, and given up otherwise |
| UserHeap.ListComesFirst | lib/src/sys_alloc.rs:125-136 | the kernel is asked if and only if no block of the list fits |
| UserHeap.FreedIsReused | lib/src/sys_alloc.rs:125-147 | a block returned is the next one handed out for the same layout, with the books as before |
| UserHeap.Heap.KernelMalloc | kernel/src/syscalls/handler.rs:558-664 | a fresh zeroed region above everything granted before, or null |
| UserHeap.Heap.TakeFor | lib/src/sys_alloc.rs:95-120 | the books after a take: which block, what goes back to the list and what is given up |
| UserHeap.Heap.GrantFor | lib/src/sys_alloc.rs:125-136 | the books after a grant: the list stays, the arena grows by the grant |
| UserHeap.Heap.Alloc | lib/src/sys_alloc.rs:125-136 | the result is large enough, zeroed, aligned up to a page and disjoint from every block; the free list, what is given up and the arena are exactly those of first fit, or of a grant when nothing fits |
| UserHeap.Heap.Dealloc | lib/src/sys_alloc.rs:138-147 | the block returns to the list; other owners keep their bytes |
| UserHeap.Heap.Store | lib/src/sys_alloc.rs:172 | bytes written inside an owned block disturb neither the list nor other blocks |
| UserHeap.Heap.Grow | lib/src/sys_alloc.rs:167-174 | growing moves the block with its bytes to an aligned one, with the books of an allocation and a release, or changes nothing |
| UserHeap.Heap.MoveInto | lib/src/sys_alloc.rs:172-173 | the bytes move to the new block, the old one is freed, all others keep theirs |
| UserHeap.Heap.Realloc | lib/src/sys_alloc.rs:149-175 | every case of realloc: contents kept up to the smaller size, alignment kept, other blocks untouched, exact books, failure changes nothing |
| UserHeap.GrantIsAligned | kernel/src/syscalls/handler.rs:560-588 | a grant has the requested alignment up to 4096, for every state of the arena |
| UserHeap.GrantIsNext | kernel/src/syscalls/handler.rs:560-588 | a grant is the first aligned place behind all others in the 128 MiB from 0x40000000 on, or fails |
| UserHeap.LargeAlignmentIsNotHonoured | kernel/src/syscalls/handler.rs:560-588 | a larger alignment is not honoured anywhere in the first page behind the arena's start |
| Shell.Tokenize | apps/shell/src/parser.rs:99-206 | the loop computes the tokens, or the first error, of the recursive lexer |
| Shell.TakeRedirect | apps/shell/src/parser.rs:163-193 | redirections with descriptor prefixes, appends and duplications |
| Shell.TakePlain | apps/shell/src/parser.rs:130-195 | one character outside quotes |
| Shell.FlushWord | apps/shell/src/parser.rs:75-80 | the pending word becomes a token |
| ShellLayout.LexedIffLaidOut | apps/shell/src/parser.rs:99-206 | a line is tokenized to a list of tokens if and only if it can be laid out from lexemes for them: words of bare, escaped and quoted pieces, operators, redirections with or without a descriptor, and gaps where they are needed |
| ShellLayout.LaidOutIsRead | apps/shell/src/parser.rs:99-206 | every laid-out line is read as its lexemes; `<` without a descriptor is 0, the others 1 |
| ShellLayout.OnlyLines | apps/shell/src/parser.rs:99-206 | whatever the tokenizer accepts, also in the middle of a word, can be laid out |
| ShellLayout.ReadPieces | apps/shell/src/parser.rs:107-139 | a word in any mixture of pieces adds its meaning to the pending word |
| ShellLayout.ReadLexeme | apps/shell/src/parser.rs:130-195 | a lexeme right behind a word ends the word first; a number is the descriptor |
| ShellLayout.TrailingBackslash | apps/shell/src/parser.rs:133-139 | a backslash at the end is an error |
| ShellLayout.BadDescriptor | apps/shell/src/parser.rs:82-97 | a descriptor above 255 is an error |
| ShellLayout.MissingTarget | apps/shell/src/parser.rs:172-184 | a duplication without a number is an error |
| ShellLayout.BadTarget | apps/shell/src/parser.rs:185-189 | a duplication to a number above 255 is an error |
| ShellLayout.UnclosedSingle | apps/shell/src/parser.rs:198-200 | an open single quote is an error |
| ShellLayout.UnclosedDouble | apps/shell/src/parser.rs:116-128 | an open double quote, or a backslash at the end of one, is an error |
| ShellLayout.WhiteSpaceIs | apps/shell/src/parser.rs:140-140 | the characters that separate words |
| Shell.ParseLine | apps/shell/src/parser.rs:235-318 | the loop computes the groups, or the first error, of the recursive parser |
| Shell.ParseOne | apps/shell/src/parser.rs:246-298 | one turn of the parsing loop |
| Shell.ExpandWord | apps/shell/src/main.rs:405-465 | the loop computes the recursive expansion |
| Shell.Variable | apps/shell/src/main.rs:431-462 | the name after a dollar sign and its value |
| ShellProofs.TokensRoundTrip | apps/shell/src/parser.rs:99-206 | every token sequence is read back from its printing, for all words and descriptors 0 to 255 |
| ShellProofs.ReadQuoted | apps/shell/src/parser.rs:116-128 | any word between double quotes is read back whole |
| ShellProofs.ReadRedirect | apps/shell/src/parser.rs:82-97 | a printed redirection is read back with its descriptor |
| ShellProofs.ReadDup | apps/shell/src/parser.rs:172-189 | a printed duplication is read back |
| ShellProofs.ParsePrinted | apps/shell/src/parser.rs:235-318 | parsing undoes printing on every well-formed list of command groups |
| ShellProofs.ParsedIffWellFormed | apps/shell/src/parser.rs:208-318 | a list of groups is the result of parsing some line if and only if it is well-formed |
| ShellProofs.LastTerminatorIsOptional | apps/shell/src/parser.rs:300-310 | the last group of a line needs no terminator and runs in the foreground |
| ShellProofs.DanglingIsError | apps/shell/src/parser.rs:310-318 | a line that ends in `&&` or `||` is an error |
| ShellProofs.MissingPieces | apps/shell/src/parser.rs:208-233 | an operator without a command, or behind redirections only, and a redirection without a path are errors |
| ShellProofs.UnfinishedEnd | apps/shell/src/parser.rs:300-310 | so is a line that ends in a pipe or in redirections without a command |
| ShellProofs.ExpandProtected | apps/shell/src/main.rs:416-424 | a protected text expands to itself, whatever the variables |
| ShellProofs.SingleQuotedIsLiteral | apps/shell/src/parser.rs:108-115 | single-quoted text reaches the command unchanged |
| ShellProofs.BackslashedIsLiteral | apps/shell/src/parser.rs:133-139 | any text with every character escaped reaches the command unchanged |
| ShellProofs.PlainTextIsLiteralIff | apps/shell/src/main.rs:416-429 | text with nothing to expand is kept if and only if it does not contain the marker character |
| ShellProofs.BracedVariable | apps/shell/src/main.rs:443-462 | a braced name stands for its value and expansion goes on behind the brace |
| ShellProofs.BareVariable | apps/shell/src/main.rs:452-462 | a bare name runs as far as it can and stands for its value |
| ShellProofs.StatusVariable | apps/shell/src/main.rs:431-442 | `$?` stands for the last status |
| ShellProofs.DollarIsLiteral | apps/shell/src/main.rs:431-462 | a dollar sign that no name, brace or question mark follows stands for itself |
| ShellProofs.UnclosedBrace | apps/shell/src/main.rs:443-462 | an open brace takes the rest for the name |
| ShellProofs.EmptyBraces | apps/shell/src/main.rs:443-462 | empty braces stand for a dollar sign |
| ShellProofs.NameCharIs | apps/shell/src/main.rs:452-455 | which characters make names |
| ShellProofs.OtherCharacters | apps/shell/src/main.rs:416-429 | other characters are kept, and a protected one loses its mark |
| ShellProofs.TildeIsHome | apps/shell/src/main.rs:405-415 | a tilde alone or before a slash is the home directory, the root if there is none; any other is kept |
| ShellProofs.MarkerIsLost | apps/shell/src/main.rs:417-424 | the marker typed alone expands to nothing |
| ShellProofs.QuotedMarkerIsLost | apps/shell/src/parser.rs:116-128 | the marker between double quotes is read as a word and expands to nothing |
| Reflow.TrimCells | apps/terminal/src/terminal.rs:570-576 | the loop cuts the row behind its last ink |
| Reflow.TrimKeeps | apps/terminal/src/terminal.rs:570-576 | cutting the trailing spaces keeps the words and the ink |
| Reflow.ChopWord | apps/terminal/src/terminal.rs:621-632 | the loop cuts a long word into full rows and a rest |
| Reflow.ChopKeeps | apps/terminal/src/terminal.rs:621-632 | those rows are the word's pieces of the row's width, and the rest is shorter than a row |
| Reflow.WrapWords | apps/terminal/src/terminal.rs:583-639 | the loop computes the recursive greedy wrap |
| Reflow.WrapRowsWraps | apps/terminal/src/terminal.rs:583-639 | that wrap is one: rows exactly as wide as asked, joined but for the last, whose words are the line's words; only a word longer than a row is cut |
| Reflow.WrapWord | apps/terminal/src/terminal.rs:617-635 | a word that fits what is left of the row stays in it; one longer than a row is cut |
| Reflow.WrapEarly | apps/terminal/src/terminal.rs:617-619 | a word that does not fit closes the row |
| Reflow.WrapSpaces | apps/terminal/src/terminal.rs:605-616 | spaces stay in the row if they fit, close it if not, and begin none |
| Reflow.WrappedInk | apps/terminal/src/terminal.rs:583-639 | wrapping keeps the sequence of non-space cells at every width |
| Reflow.JoinRows | apps/terminal/src/terminal.rs:188-204 | the loop computes the recursive join of soft rows |
| Reflow.LogicalJoins | apps/terminal/src/terminal.rs:188-204 | one logical line for each paragraph, with the words of its rows in order and no ink lost |
| Reflow.RewrapAll | apps/terminal/src/terminal.rs:206-209 | every logical line is wrapped, in order |
| Reflow.ReflowKeepsInk | apps/terminal/src/terminal.rs:188-209 | joining and wrapping at any width keeps the ink in order, in rows of that width, at least one of them |
| TerminalScreen.Screen.constructor | apps/terminal/src/terminal.rs:76-97 | a blank valid screen of at least one cell |
| ScreenLaws.BlankIs | apps/terminal/src/terminal.rs:76-97 | a new screen, cell by cell |
| ScreenModel.Index | apps/terminal/src/terminal.rs:144-146 | the product of row and width is where the row begins |
| TerminalScreen.Screen.ScrollUp | apps/terminal/src/terminal.rs:319-334 | the first row joins the scrollback, which is the newest 256 lines of what it was and that row; all that was ever shown reads on as before plus a blank row |
| ScreenModel.ScrolledIsFrugal | apps/terminal/src/terminal.rs:319-334 | a scroll loses at most the oldest line, and that only out of a full scrollback, which stays full |
| ScreenModel.ScrolledAll | apps/terminal/src/terminal.rs:319-334 | lost lines, scrollback and screen together grow by exactly a blank row |
| TerminalScreen.Screen.LineFeed | apps/terminal/src/terminal.rs:310-317 | the whole new screen; the ink stays, and only the oldest line of a full scrollback is lost |
| TerminalScreen.Screen.HardBreak | apps/terminal/src/terminal.rs:302-308 | the same, with the cursor at the start of a row not joined to the one before |
| TerminalScreen.Screen.WrapCurrentWord | apps/terminal/src/terminal.rs:268-300 | exactly what follows the row's last space moves to the next row; in appended text the ink keeps its order and nothing follows the cursor |
| TerminalScreen.Screen.Put | apps/terminal/src/terminal.rs:256-266 | where nothing follows the cursor the ink grows by exactly the character in its colours, through wraps and scrolls; at most the oldest line is lost |
| ScreenModel.TypedInk | apps/terminal/src/terminal.rs:256-300 | the same of the function on values |
| ScreenLaws.TypedOnCell | apps/terminal/src/terminal.rs:256-266 | a character is written on the cursor's cell and nowhere else |
| ScreenLaws.InkedIs | apps/terminal/src/terminal.rs:248-254 | in the current colours, exchanged if inverted |
| ScreenLaws.WordMovesDown | apps/terminal/src/terminal.rs:268-300 | the word that moves is all that follows the row's last space; a row without a space is cut |
| ScreenLaws.WrapJoinsRows | apps/terminal/src/terminal.rs:268-300 | the row it leaves is joined to the next, with blanks in its place, and the word begins the next row |
| TerminalScreen.Screen.Process | apps/terminal/src/terminal.rs:99-104 | all output, as the parser's calls: the whole new screen; lines are lost only out of a full scrollback; of printable text with tabs and line ends, what can be seen grows by exactly the text, short of exactly what left the scrollback |
| ScreenModel.OutputIsFrugal | apps/terminal/src/terminal.rs:681-776 | over any output, control sequences included: what leaves the scrollback is lost for good, at most a line for each call, and nothing while it has room for the output |
| ScreenModel.DispatchedKeepsHistory | apps/terminal/src/terminal.rs:718-776 | no control sequence touches scrollback or size |
| ScreenModel.TextAppendsInk | apps/terminal/src/terminal.rs:99-104 | all that was ever shown grows by exactly the text's ink and the cursor stays at its end |
| ScreenModel.TextStaysVisible | apps/terminal/src/terminal.rs:99-104 | scrollback and screen show what they showed followed by the text, less exactly the ink of the lines given up |
| TerminalScreen.Screen.Execute | apps/terminal/src/terminal.rs:686-716 | each control character's cursor and joins; the ink stays, and only the oldest line of a full scrollback is lost |
| ScreenLaws.ControlCharacters | apps/terminal/src/terminal.rs:686-716 | backspace, line ends and carriage return, and that no other character but the tab does anything |
| ScreenLaws.TabStops | apps/terminal/src/terminal.rs:694-704 | a tab goes to the next multiple of eight, at the right edge to the next row, joined to this one |
| ScreenLaws.FeedGoesDown | apps/terminal/src/terminal.rs:310-317 | a line feed goes one row down and scrolls only on the last row |
| ScreenLaws.ScrollMovesUp | apps/terminal/src/terminal.rs:319-334 | scrolling moves every row up by one and clears the last |
| ScreenLaws.ScrollKeepsFirstRow | apps/terminal/src/terminal.rs:319-334 | the row that leaves is the newest of the scrollback; cursor and colours stay |
| ScreenModel.SpacingStaysAtEnd | apps/terminal/src/terminal.rs:686-716 | tabs and line ends at the end of the text leave the cursor at its end |
| TerminalScreen.Screen.ClearRange | apps/terminal/src/terminal.rs:375-381 | exactly the cells of the range, cut at the end, become empty |
| TerminalScreen.Screen.ClearLogicalLine | apps/terminal/src/terminal.rs:385-402 | exactly the rows of the cursor's logical line are emptied and unjoined, and the cursor is at its start |
| TerminalScreen.Screen.SoftRowEnd | apps/terminal/src/terminal.rs:407-415 | the cursor boundary of a soft row |
| ScreenLaws.RowEndIs | apps/terminal/src/terminal.rs:407-415 | one place behind the last ink of the row, or the edge; the start of a blank row |
| TerminalScreen.Screen.MoveLeft | apps/terminal/src/terminal.rs:421-435 | terminates, and moves by exactly that many places within the logical line, stopping at its start |
| ScreenModel.MoveLeftIsExact | apps/terminal/src/terminal.rs:421-435 | the move stays in the logical line, changes nothing but the cursor, and leaves it on a cell |
| TerminalScreen.Screen.CsiDispatch | apps/terminal/src/terminal.rs:718-776 | every sequence's whole effect: cursor, erased cells, joins and colours, with the cursor on a cell of a valid screen |
| ScreenLaws.CursorSteps | apps/terminal/src/terminal.rs:723-734 | A goes up, B down and C right by the number given, 1 if none or 0, and not off the screen |
| ScreenLaws.CursorJumps | apps/terminal/src/terminal.rs:739-746 | H and f go to the row and column given, counted from one |
| ScreenLaws.CursorMovesLeft | apps/terminal/src/terminal.rs:735-738 | D goes left along the logical line, as far as its start |
| ScreenLaws.OtherSequences | apps/terminal/src/terminal.rs:718-776 | ignored and unknown sequences change no cell |
| ScreenLaws.StyleCodes | apps/terminal/src/terminal.rs:541-568 | what each code sets, and that no other code sets anything |
| ScreenLaws.StylesInOrder | apps/terminal/src/terminal.rs:541-568 | codes act from left to right, and none is a reset |
| ScreenLaws.ColoursAre | apps/terminal/src/terminal.rs:658-679 | the eight colours |
| ScreenLaws.BrightColours | apps/terminal/src/terminal.rs:658-679 | bright colours are lighter by 40 in each part, at most 255 |
| TerminalScreen.Screen.SetStyle | apps/terminal/src/terminal.rs:541-568 | the loop applies the codes one after the other |
| ScreenModel.StyleIsLocal | apps/terminal/src/terminal.rs:541-568 | styling changes only the colours of what is written next, and codes before a reset do not matter |
| TerminalScreen.Screen.Erase | apps/terminal/src/terminal.rs:746-769 | the erased cells of each J and K form, the logical line of a 2 K behind a carriage return included |
| ScreenLaws.ErasesExactly | apps/terminal/src/terminal.rs:746-769 | with the cursor on a cell, J and K empty exactly the cells from it on, up to it, or all |
| ScreenLaws.ErasesLogicalLine | apps/terminal/src/terminal.rs:385-402 | K 2 behind a carriage return empties the logical line cell by cell, takes its rows apart and goes to its start |
| TerminalScreen.Screen.LastContentRow | apps/terminal/src/terminal.rs:148-160 | everything below is blank, and the row is the cursor's or has ink |
| TerminalScreen.Screen.CollectPhysical | apps/terminal/src/terminal.rs:162-179 | the rows collected are scrollback and screen down to the last content, full rows joined |
| ScreenModel.PhysicalInk | apps/terminal/src/terminal.rs:162-179 | those rows carry exactly the ink that can be seen |
| ScreenLaws.RowsJoin | apps/terminal/src/terminal.rs:162-179 | which rows are joined for a resize: wrapped ones, and full ones but for the last |
| TerminalScreen.Screen.LayOut | apps/terminal/src/terminal.rs:222-232 | the shown rows fill the top of the new grid, the rest is blank |
| TerminalScreen.Screen.Resize | apps/terminal/src/terminal.rs:181-246 | the new screen is the newest rows of the reflowed text; what can be seen keeps its ink and order, short of exactly what was given up, and something is only if the scrollback ends up full |
| ScreenModel.ResizeKeepsInk | apps/terminal/src/terminal.rs:181-246 | the rows given up are exactly those by which the reflowed text exceeds 256 lines plus the screen, the oldest ones |
| ScreenModel.RefittedIsFrugal | apps/terminal/src/terminal.rs:181-246 | the same for any two sizes, equal ones included |
| ScreenModel.EraseLeftStaysInRowIff | apps/terminal/src/terminal.rs:764 | erasing up to the cursor stays in its row if and only if the cursor is on a cell, or the next row has nothing there to lose |
| ScreenModel.EraseAboveStaysAboveIff | apps/terminal/src/terminal.rs:751 | erasing from the start of the screen up to the cursor leaves the rows below alone under the same condition, and only then |
| ScreenWitness.EraseTakesNeighbour | apps/terminal/src/terminal.rs:746-769 | on a blank screen of two by two a few characters lead to CSI 1 K and CSI 1 J erasing a letter of the next row |
| Klog.LinesAreProper | kernel/src/print.rs:56-82 | lines are at most 150 ASCII bytes without a newline, and finished lines never change |
| Klog.LineIsLogged | kernel/src/print.rs:56-82 | a printable line that fits the width is logged verbatim by its newline |
| Klog.Ring.CommitLine | kernel/src/print.rs:84-96 | line s is at index s mod 8192, and the newest 8192 lines are all there |
| Klog.Ring.FeedChar | kernel/src/print.rs:56-82 | one character |
| Klog.Ring.WriteStr | kernel/src/print.rs:100-107 | a string is fed whole or, with the lock taken, dropped whole |
| Klog.Ring.ForEachLineLast | kernel/src/print.rs:136-159 | the newest lines, at most fifty, in order, then the line under way |
| Klog.Ring.SnapshotFrom | kernel/src/print.rs:169-199 | exactly the lines from the cursor or the oldest kept one to the end, in order |
| Klog.FlushSystemLog | kernel/src/main.rs:429-444 | one flush: the cursor passes only bytes that were all accepted |
| Klog.RunInv | kernel/src/main.rs:429-444 | over every run of commits and flushes, partial appends included: the lines appended whole are before the cursor, distinct and in order, and the file is at least as long |
| Klog.StepInv | kernel/src/main.rs:429-444 | after any event the file is exactly those lines if and only if it was before and the append took everything or nothing |
| Klog.ExactIffAllWhole | kernel/src/main.rs:429-444 | at the end of a run the file is exactly those lines if and only if every append of the run took everything or nothing |
| Klog.RunExtends | kernel/src/main.rs:429-444 | history, cursor, file and the set of lines written only grow |
| Klog.WrittenIffNeverOverrun | kernel/src/main.rs:429-444 | a line passed by the cursor was written if and only if at no moment of the run it was unflushed and already overwritten |
| Klog.PersistedExactlyOnce | kernel/src/main.rs:429-444 | over every run from the start: a line passed by the cursor was appended, once and in order, if and only if it was never overwritten before a flush, and the file is those lines if and only if every append took everything or nothing |
| Klog.SnapshotEmpty | kernel/src/main.rs:432-435 | nothing to append iff the flusher has caught up |
| Klog.PartialAppendRepeatsIff | kernel/src/main.rs:440-443 | after a partial append the next flush repeats; the file is as it should be iff the partial append took nothing |
| Klog.PartialAppendRepeats | kernel/src/main.rs:440-443 | from an empty log, a line, half an append and a whole one leave the half and the line in the file |
| Pipes.PopFront | kernel/src/pipe.rs:148-150 | the ring step takes the front of the queue |
| Pipes.PushBack | kernel/src/pipe.rs:183-185 | the ring step adds at the back and overwrites nothing queued |
| Pipes.PollIsExact | kernel/src/pipe.rs:108-125 | ready exactly when no non-empty transfer would block; zero results exactly at end-of-file and without readers |
| Pipes.InUseIs | kernel/src/pipe.rs:71-105 | a pipe exists as long as an end of it is open |
| Pipes.EndsAreCounted | kernel/src/pipe.rs:55-105 | opening and closing count the ends of their own kind, closing undoes opening, and closing the last end frees the pipe |
| Pipes.Table.Create | kernel/src/pipe.rs:40-53 | an empty pipe in a free slot, whatever it held; fails iff all are taken |
| Pipes.Table.AddReader | kernel/src/pipe.rs:55-61 | one more reader, if the pipe exists |
| Pipes.Table.AddWriter | kernel/src/pipe.rs:63-69 | one more writer, if the pipe exists |
| Pipes.Table.CloseReader | kernel/src/pipe.rs:71-105 | one reader less; the slot is free exactly when no end is left |
| Pipes.Table.CloseWriter | kernel/src/pipe.rs:85-105 | one writer less, likewise |
| Pipes.Table.PollReadable | kernel/src/pipe.rs:108-115 | readiness of the queue view |
| Pipes.Table.PollWritable | kernel/src/pipe.rs:118-125 | readiness of the queue view |
| Pipes.Table.TryRead | kernel/src/pipe.rs:131-160 | bytes from the front of that pipe's queue and of no other, with the exact outcome |
| Pipes.Table.TryWrite | kernel/src/pipe.rs:166-194 | the bytes that fit go to the back, with the exact outcome |
| Pipes.ReadsArePrefixOfWrites | kernel/src/pipe.rs:131-194 | over every run on one pipe the bytes read are a prefix of the bytes accepted, and the rest is what it holds |
| Signals.KilledForGood | kernel/src/signal.rs:170-213 | after a successful kill no sequence of signals, stops, continues, kills, group signals or wake-ups makes a thread of the process, the leader included, runnable or changes its exit status |
| Signals.InsertKeepsLed | kernel/src/multitasking/task.rs:812-859 | a task inserted with itself or a leader of the table as leader keeps every leader slot pointing to a task that names itself |
| Signals.RunKeepsLed | kernel/src/signal.rs:56-213 | every run of the operations keeps that |
| Signals.RunStaysDead | kernel/src/signal.rs:56-167 | a dead process stays dead over every run |
| Signals.GroupStaysDead | kernel/src/tty.rs:485-530 | signalling a group, one process after the other, revives nothing |
| Signals.ContinueStaysDead | kernel/src/signal.rs:126-167 | continuing revives nothing |
| Signals.KillKills | kernel/src/signal.rs:170-213 | all threads of the process are gone with the signal's exit status |
| Signals.StopStops | kernel/src/signal.rs:85-123 | after a stop every live thread of the process is stopped and the report is latched |
| Signals.StopThenContinue | kernel/src/signal.rs:126-167 | continuing undoes a stop for every live thread, and the parent still learns of both |
| Signals.LeaderIsAmongTheKilled | kernel/src/signal.rs:184-198 | in such a table a killed process has a leader in its own slot, which is one of the threads killed |
| SignalLaws.ProcessIsLeaders | kernel/src/signal.rs:56-62 | the process of a task is the one its leader slot names |
| SignalLaws.SendEffect | kernel/src/signal.rs:56-75 | when a signal can be sent, and that it is then pending at the leader, which wakes up if blocked, and nothing else changes |
| SignalLaws.StopEffect | kernel/src/signal.rs:85-123 | when a stop succeeds, and what becomes of every task of the table |
| SignalLaws.ContinueEffect | kernel/src/signal.rs:126-167 | when a continuation succeeds, and what becomes of every task |
| SignalLaws.KillEffect | kernel/src/signal.rs:170-213 | when a kill succeeds, and what becomes of every task |
| SignalLaws.Disposition | kernel/src/tty.rs:485-530 | what each signal number does to one process, by what it catches and ignores |
| SignalLaws.GroupIs | kernel/src/tty.rs:485-500 | a group's slots are those of its live leaders, each once |
| SignalLaws.GroupIsReached | kernel/src/tty.rs:485-530 | a signal to a group reaches every live process of it: killed by SIGKILL, and any queued signal pending |
| Signals.TaskTable.SendSignal | kernel/src/signal.rs:56-75 | queueing for the leader, waking it if blocked |
| Signals.TaskTable.StopTask | kernel/src/signal.rs:85-123 | every live thread stops, the parent is told, a pending SIGCONT goes |
| Signals.TaskTable.ContinueTask | kernel/src/signal.rs:126-167 | every live thread runs again, pending stop signals go |
| Signals.TaskTable.ForceKill | kernel/src/signal.rs:170-213 | every thread becomes a zombie, parent and joiners wake |
| Signals.TaskTable.SignalGroup | kernel/src/tty.rs:485-530 | the group's processes are signalled one after the other |
| Signals.TaskTable.Wake | kernel/src/multitasking/task.rs:1078-1104 | exactly the tasks blocked for that reason become runnable |
| InterruptGuard.StepInv | interrupt-sync/src/lib.rs:26-46 | every machine step of entering and leaving, and every interrupt and return, keeps the invariant |
| InterruptGuard.MaskedWhileHeld | interrupt-sync/src/lib.rs:26-46 | over every interleaving with interrupts, also between reading the flags and masking: masked while any guard is held, the original flag once none is |
| InterruptGuard.HandlerIsTransparent | interrupt-sync/src/lib.rs:26-46 | an interrupt that came in before the mask leaves the CPU exactly as it found it |
| InterruptGuard.EnterIsRun | interrupt-sync/src/lib.rs:26-37 | the four machine steps of entering end where the call as a whole does |
| InterruptGuard.LeaveIsRun | interrupt-sync/src/lib.rs:39-46 | the steps of leaving end where the call as a whole does |
| InterruptGuard.CallsAreAtomic | interrupt-sync/src/lib.rs:26-46 | with interrupts at any depth in between, a flow of code back with one guard more or less is in the state of one whole call |
| InterruptGuard.FailedTryLockRuns | interrupt-sync/src/lib.rs:77-86 | entering and leaving a guard is a run that ends where it began, at any nesting |
| InterruptGuard.FailedTryLockChangesNothing | interrupt-sync/src/lib.rs:77-86 | every run that ends with the same guards held, interrupts in between included, ends in the very state it began in |
| InterruptGuard.Guard.Enter | interrupt-sync/src/lib.rs:26-37 | the call in place, proved against the function that the machine steps are proved to compute |
| InterruptGuard.Guard.LeaveGuard | interrupt-sync/src/lib.rs:39-46 | the call in place, proved against the function that the machine steps are proved to compute |
| InterruptGuard.Guard.TryLock | interrupt-sync/src/lib.rs:77-86 | a taken lock keeps interrupts masked, a failed one changes nothing |

## Left out

- Weak memory: all atomics take effect in one order; the orderings named in the source are not examined.
- The PTY table, process groups and controlling terminals (kernel/src/tty.rs:118-326): one terminal is modelled; which group is signalled or in the background is a parameter.
- TlbShootdown: a context switch loads CR3 and publishes CURRENT_CR3 in one step, as the kernel lock makes it for shootdowns; the source does these as two stores.
- FutexMutex: sleepers that are stopped or killed by signals, and the kernel's wait queue beyond compare-and-sleep and wake-one.
- TraceRing: a writer interrupted by another writer of the same ring.
- Ext2Loader: failing BIOS reads (the loader halts), mounting, directory lookup, triple-indirect blocks, and reads past 4 GiB; a run that reaches beyond the end of the file is copied whole, so the destination must have room for it.
- Ext2File: what a file with holes ends up as at the destination; only that the walk then departs from the file.
- UserHeap.Heap.KernelMalloc: mapping of pages, the per-task table and zero-sized requests; the heap never asks for zero bytes.
- Shell.Tokenize: error messages are error values, and characters above Unicode's scalar range do not occur.
- Shell execution: redirection set-up, builtins, jobs and history.
- TerminalScreen.Screen.Process: the escape-sequence parser, an external library, is not part of this model: the calls it makes are the method's parameter. Nor is the drawing of pixels.
- Klog.Ring.WriteStr: the panic path's formatting; the lock is a flag that says whether try_lock got it.
- Signals: delivery to handlers on return to user mode, the deferred cleanup of descriptors and windows, reaping, reparenting, and the numeric form of the signal mask.
- InterruptGuard: the spinlock inside the guarded mutex; only whether it was free matters.
- Scheduler, paging, ELF loading, network, file systems other than the boot loader's copy, drivers and the window system: hardware plumbing or large parts with few laws of their own.
- Random seeding, dates, argument passing, the async runtime and the line editor: they would only add easy members.

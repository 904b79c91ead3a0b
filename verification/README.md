# A Dafny model of the hard parts of otsos2

otsos2 is a small x86-64 operating system with its own C libraries and Python build tools. This project
models its hardest components and proves what they are for. Code that works by changing things in place
is modelled by classes and methods over fields and arrays; each such method is tied to a function of the
old state, and the properties are proved about those functions, over all inputs and all runs.

| files | component | main results |
|---|---|---|
| Bits, Huffman, Deflate, DeflateRfc, DeflateSamples, Inflater, InflateRun | DEFLATE decoder | both entry points refine one pure decoder, which is that of RFC 1951 exactly where no dynamic block without a distance code or with more than 30 distance code lengths is met; canonical codes are prefix-free and decode uniquely; output is at most 1032 times the input |
| Checksums | CRC-32 and Adler-32 | the table-driven, the shifting and the deferred forms equal the bitwise and per-byte definitions |
| Scheduler, SchedulerSafety, SchedulerRuns, SchedulerEffects, SchedulerReap, Kernel, Lists, ThreadLists | SMP scheduler and thread lifetime | no thread on two CPUs on any run; reaping never touches a current thread; bounded waiting; when exit is complete and when reaping frees only the dead |
| ApcModel, ApcLists, ApcPool, ApcRuns | asynchronous procedure calls | one pool threaded by a free list and all queues; over every interleaving of locked regions: conservation, the interrupted frame restored, first in first out per kind |
| Selector, SelectorStandard, SelectorMatch | CSS selector matcher | the budgeted backtracking search is exact for the declarative meaning of combinators; where it is the standard's |
| Galois, SBox, SBoxField, Aes, Ige | AES and IGE | the table is the affine image of the field inverse; the inverse cipher undoes the cipher for every schedule; IGE round trip, in place and split |
| ChainMap, ChainFiles, ChainImage, ChainRuns | ChainFS | chains stay ascending, disjoint and exactly the used map entries; reads return the last write |
| BootRanges, BootAlloc, BootMem | boot memory ranges | reservation is set difference; when a block is right; blocks never overlap over any run |
| Bintime, TimeHands | timecounter | 64.64 arithmetic modulo 2^128; uptime does not depend on the tick schedule; error bound |
| Records, StringTables, KofoFormat, KofoLoad, KofoReloc, KofoImage | kernel object loader | layout and relocation touch only what they should |
| KofoPack, KofoWriter, KofoAgree, KofoRound | kernel object writer | packed files pass the loader, read back whole, and what was packed is in the image when loading ends |
| HivePaths, HiveNodes, HiveTree, HiveBuild, HiveFile, HiveDecode, HiveCheck, HiveWriter | hive compiler and kernel check | children are contiguous ranges; the bytes of the file decode to the source keys and nothing else; the kernel's check accepts what the compiler writes |

`dafny verify dfyconfig.toml` checks the whole project.

Where code and its own promises differ, the model follows the code:

- `huff_build` rejects a length table without any code, and `inflate_dynamic` more than 30 distance code lengths;
  section 3.2.7 of RFC 1951 allows the first for distances and up to 32 of the second.
  `DeflateRfc.AgreesIff` says on which streams that matters; `DeflateSamples.EmptyDistancesDiffer` and
  `DeflateSamples.WideDistancesDiffer` give one each.
  `huff_build` also accepts incomplete codes, and so does the reference decoder here.
- `process_exit` spares the thread recorded as the latest of the process instead of the caller.
  `SchedulerRuns.ExitIsCompleteIff` says exactly when that is harmless, and
  `SchedulerRuns.ExitCanLeaveThreadRunning` gives a reachable run in which it is not.
- `process_reap` tests that no CPU claims the threads it frees, not that they are dead.
  `SchedulerReap.ReapFreesOnlyDeadIff` says when that matters, and `SchedulerReap.ReapCanFreeRunnable` gives a run.
- Against W3C Selectors Level 3, the attribute test refuses an empty operand for the dash match (section 6.3), a form
  feed does not separate classes (section 6.4), and the root counts as a first child (section 6.6.5.6).
  `SelectorStandard.AttrAgreesIff` and `SelectorStandard.ClassAgreesIff` say when one test agrees,
  `SelectorStandard.HoldsAgreesIff` when a whole compound does, and `SelectorStandard.SearchIsStandard` lifts it to
  the search; `SelectorStandard.EmptyDashDiffers`, `SelectorStandard.FormFeedDiffers` and
  `SelectorStandard.RootIsNoFirstChild` give inputs.
- An overwrite in ChainFS frees the old chain before it looks for room.
  `ChainImage.Image.WriteFile` states when room is missing; the image is then inconsistent, and
  `ChainRuns.RunAll` ties a run that breaks off to such an overwrite.
- `bootmem_alloc` does not check its 64-bit sums: `BootAlloc.RightBlockIffNoWrap` and `BootAlloc.SizeCoveredIff`
  say exactly when a block is right, `BootAlloc.OverflowGrowsRange` and `BootAlloc.HugeSizeGetsNothing` give inputs.
- A reservation is not checked for wrapping either: `BootAlloc.CoversIffNoWrap` says when it covers the request, and
  `BootAlloc.LastPagesNotReserved` gives an input.
- A counter of 1 Hz gets the scale zero (`TimeHands.ScaleGoodIff`).

## Model

| member | source | states |
|---|---|---|
| `Huffman.CountLengths` | libc/LibArchive/src/inflate.c:222-228 | counts every code length; accepts exactly the tables whose lengths are all at most 15 |
| `Huffman.CheckKraft` | libc/LibArchive/src/inflate.c:233-240 | the running balance of `huff_build` is non-negative exactly when the code space the lengths use fits in 2^15 |
| `Huffman.SumOffsets` | libc/LibArchive/src/inflate.c:242-245 | the offset of each length is the number of symbols with shorter codes |
| `Huffman.PlaceSymbols` | libc/LibArchive/src/inflate.c:249-254 | every coded symbol lands in the slot given by its length and then by its number, inside the array |
| `Huffman.Build` | libc/LibArchive/src/inflate.c:215-256 | accepts exactly the length tables that are in range, not all zero, not over-subscribed and fit the array, and then produces the decoding table of those lengths |
| `Huffman.RoomForAll` | libc/LibArchive/src/inflate.c:242-254 | the placed symbols never need more slots than there are symbols, so the symbol index stays in the table |
| `Huffman.CodeFits` | libc/LibArchive/src/inflate.c:215-256 | the canonical code of a symbol (section 3.2.2 of RFC 1951) fits in its length |
| `Huffman.PrefixFree` | libc/LibArchive/src/inflate.c:215-256 | in every accepted table no code is a prefix of the code of another symbol |
| `Huffman.MatchUnique` | libc/LibArchive/src/inflate.c:259-281 | at most one symbol has its code at a given bit position |
| `Huffman.OwnCode` | libc/LibArchive/src/inflate.c:259-281 | wherever the code of a symbol stands in the input, decoding there yields that symbol |
| `Huffman.DecodeInvertsEncode` | libc/LibArchive/src/inflate.c:259-281 | decoding the concatenated codes of any message returns the message |
| `Huffman.WalkStep` | libc/LibArchive/src/inflate.c:266-278 | one pass of the decoding loop either hits the only symbol whose code has been read, at its slot in the table, or proves that no code of this length stands here |
| `InflateRun.HuffDecode` | libc/LibArchive/src/inflate.c:259-281 | the bit-by-bit decoder returns the symbol whose code stands at the position and consumes exactly that code; a negative result means there is none |
| `Deflate.LengthRange` | libc/LibArchive/src/inflate.c:425-432 | a match length is between 3 and 258 |
| `Deflate.DistanceRange` | libc/LibArchive/src/inflate.c:433-440 | a distance code reaches at most 32768 bytes back |
| `Deflate.RankInvertsOrder` | libc/LibArchive/src/inflate.c:343-345 | the order of the code length codes is a permutation, given with its inverse |
| `Deflate.FixedAcceptable` | libc/LibArchive/src/inflate.c:284-312 | the fixed codes of section 3.2.6 of RFC 1951 pass the table builder |
| `Deflate.StoredVerbatim` | libc/LibArchive/src/inflate.c:315-341 | the bytes of a stored block appear in the output as they stand in the input |
| `Deflate.BlocksGrow` | libc/LibArchive/src/inflate.c:443-524 | decoding only appends, and the output gained is at most 129 times the bits consumed |
| `Deflate.ExpansionBound` | libc/LibArchive/src/inflate.c:443-524 | for every input, valid or not, the output is at most 1032 times as long as the input |
| `DeflateRfc.AgreesIff` | libc/LibArchive/src/inflate.c:360-374 | on every stream: the program accepts exactly the streams section 3.2.7 of RFC 1951 accepts in which no dynamic block is met that has no distance code or announces more than 30 distance code lengths, with the same output; where none is met both agree on errors too |
| `DeflateSamples.EmptyDistancesDiffer` | libc/LibArchive/src/inflate.c:229-231 | a stream of 13 bytes with a block without a distance code that the standard decodes to the empty string and the program rejects |
| `DeflateSamples.WideDistancesDiffer` | libc/LibArchive/src/inflate.c:362-364 | a stream of 13 bytes that announces 31 distance code lengths, one of them in use, that the standard decodes to the empty string and the program rejects |
| `Inflater.BitReader.Refill` | libc/LibArchive/src/inflate.c:85-114 | makes n bits available whatever the chunks of the input, or notes the end exactly when fewer than n remain |
| `Inflater.BitReader.Get` | libc/LibArchive/src/inflate.c:117-129 | returns the next n bits, low bit first, and advances by n; end of input is noted exactly when they are not all there |
| `Inflater.BitReader.Align` | libc/LibArchive/src/inflate.c:132-139 | moves to the next byte boundary of the input |
| `Inflater.BitReader.GetByte` | libc/LibArchive/src/inflate.c:142-152 | returns the next eight bits as a byte exactly when they are there |
| `Inflater.Sink.Flush` | libc/LibArchive/src/inflate.c:155-171 | hands the unwritten stretch of the ring to the callback; afterwards everything produced has been written, unless the callback refuses this very call |
| `Inflater.Sink.PutByte` | libc/LibArchive/src/inflate.c:174-193 | appends one byte to the unbounded history, through the buffer or the ring |
| `Inflater.Sink.PutMatch` | libc/LibArchive/src/inflate.c:196-212 | copies from `dist` bytes back in the unbounded history, overlapping and across the wrap of the ring; refuses exactly the distances with no history |
| `InflateRun.Decoder.Stored` | libc/LibArchive/src/inflate.c:315-341 | a stored block agrees with the reference decoder, errors included |
| `InflateRun.Decoder.LoadFixed` | libc/LibArchive/src/inflate.c:284-312 | loads the fixed codes |
| `InflateRun.ReadClen` | libc/LibArchive/src/inflate.c:366-372 | reads the code length code lengths in their transmission order |
| `InflateRun.ReadRuns` | libc/LibArchive/src/inflate.c:379-410 | expands the run-length coded code lengths as the reference does, or fails where it fails |
| `InflateRun.Decoder.LoadDynamic` | libc/LibArchive/src/inflate.c:348-423 | a dynamic header is accepted exactly when the reference accepts it, and loads its two codes |
| `InflateRun.GetReference` | libc/LibArchive/src/inflate.c:463-478 | reads length and distance of a match as the reference does |
| `InflateRun.Decoder.Block` | libc/LibArchive/src/inflate.c:443-484 | decoding a compressed block agrees with the reference on output, position and error, for both kinds of sink |
| `InflateRun.Decoder.Run` | libc/LibArchive/src/inflate.c:487-524 | the block loop agrees with the reference decoder and ends with everything written, or with the I/O error when the last write is refused |
| `InflateRun.InflateBuffer` | libc/LibArchive/src/inflate.c:580-607 | decoding a buffer into a buffer yields exactly the result of the reference decoder, or the matching error; `DeflateRfc.AgreesIff` says where that decoder is the one of RFC 1951 |
| `InflateRun.InflateStream` | libc/LibArchive/src/inflate.c:549-577 | decoding any chunking through any ring of at least 32768 bytes writes exactly the output of the reference decoder; if the callback refuses its n-th call the run ends in the I/O error exactly when the output is long enough for that call, with exactly the rings before it written |
| `InflateRun.StreamMatchesBuffer` | libc/LibArchive/src/inflate.c:549-607 | for every chunking and every ring size the bytes written by the streaming decoder equal the output of the buffer decoder, for every buffer the output fits in |
| `Checksums.TableStep` | libc/LibArchive/src/inflate.c:784-803 | a table entry combined with the shifted rest is eight steps of the bitwise division |
| `Checksums.ByteStep` | libc/LibArchive/src/inflate.c:806-820 | one table look-up equals dividing the eight bits of a byte one at a time |
| `Checksums.Crc32.Prepare` | libc/LibArchive/src/inflate.c:784-803 | after the first use the table holds the bitwise remainders of all bytes |
| `Checksums.Crc32.Update` | libc/LibArchive/src/inflate.c:806-820 | the table-driven CRC equals bit-at-a-time polynomial division (section 8 of RFC 1952) for every byte string |
| `Checksums.Crc32.Whole` | libc/LibArchive/src/inflate.c:822-829 | the checksum of a message as section 8 of RFC 1952 defines it, bit by bit |
| `Checksums.BitwiseCrc` | src/kernel/drivers/fs/hivefs/hivefs.c:385-404 | the checksum of the kernel, eight shifts a byte without a table, is the same one |
| `Checksums.CrcComposes` | libc/LibArchive/src/inflate.c:806-829 | checksumming two pieces in a row is checksumming their concatenation |
| `Checksums.AdlerRun` | libc/LibArchive/src/inflate.c:846-849 | 5552 unreduced additions never overflow 32 bits and track the reduced sums |
| `Checksums.Adler32` | libc/LibArchive/src/inflate.c:832-856 | reducing every 5552 bytes gives the Adler-32 that reduces after each byte (section 9 of RFC 1950) |
| `Kernel.KernelState.LoadSnapshot` | src/kernel/scheduler.c:105-131 | counts, for every CPU, the live threads placed there |
| `SchedulerEffects.StrictAffinity` | src/kernel/scheduler.c:173-202 | under strict affinity a CPU takes a thread pinned elsewhere in one case only: its own thread is dead and no thread is eligible |
| `Kernel.KernelState.PickNextThread` | src/kernel/scheduler.c:253-277 | the eligible thread that comes first after the current one in cyclic order, or the current one when no thread is eligible |
| `Kernel.KernelState.PickAnyRunnableThread` | src/kernel/scheduler.c:280-304 | the same for the fallback scan, which ignores placement |
| `Kernel.KernelState.RetireDead` | src/kernel/scheduler.c:316-346 | from a safe state: exactly the dead threads that claim the CPU without being current there lose their claim; none is left, and the state stays safe |
| `Kernel.KernelState.SetCurrentThread` | src/kernel/thread.c:442-454 | the CPU runs the thread, the thread claims the CPU, and no other thread changes; if the thread was alive and unclaimed and only dead threads claimed the CPU the result is safe |
| `Kernel.KernelState.SwitchThread` | src/kernel/scheduler.c:463-508 | from a safe state: stays safe, runs another thread if there is one the CPU may take, always one that was runnable and unclaimed, keeps the current one only if there is none, and touches no other CPU and no third thread |
| `Kernel.KernelState.SchedulerSwitch` | src/kernel/scheduler.c:394-508 | a whole tick or yield from a safe state stays safe, leaves what every other CPU runs as it is, and changes its own thread only for one that was runnable and unclaimed; a tick over running kernel code changes nothing |
| `Kernel.KernelState.MarkThreads` | src/kernel/thread.c:732-756 | marks the threads of a process dead, all but one, and counts them as pending |
| `Kernel.KernelState.ProcessKill` | src/kernel/process.c:983-1048 | afterwards exactly the threads the process lists are dead, nothing else about any thread changed, and the process is reapable; safety is kept |
| `Kernel.KernelState.ProcessExit` | src/kernel/process.c:724-798 | afterwards the caller and the threads its process lists, all but the one recorded as latest, are dead and no other thread changed; safety is kept |
| `Kernel.KernelState.ThreadDestroy` | src/kernel/thread.c:580-616 | from a safe state: the slot is freed exactly when no CPU claims its thread; the thread of every CPU and all other slots are as before, and safety is kept |
| `Kernel.KernelState.ProcessReap` | src/kernel/process.c:808-874 | from a safe state: only slots of threads that claim no CPU are freed; the thread of every CPU and all other slots are as before, and safety is kept |
| `Kernel.KernelState.ReapProcess` | src/kernel/process.c:822-874 | from a safe state an exited process none of whose threads claims a CPU loses every one of them |
| `ThreadLists.PushFront` | src/kernel/thread.c:394-407 | linking in front keeps both directions of the list |
| `ThreadLists.Remove` | src/kernel/thread.c:410-433 | taking an element out re-links its neighbours and the head |
| `ThreadLists.Threads.Link` | src/kernel/thread.c:394-407 | the thread becomes the first of its process; all lists stay linked, disjoint and counted |
| `ThreadLists.Threads.Unlink` | src/kernel/thread.c:410-433 | exactly that thread leaves the list of its process |
| `ThreadLists.SchedulerLists` | src/kernel/thread.c:394-433 | starting and destroying a thread change the lists of the scheduler state as linking and unlinking change the linked lists |
| `SchedulerSafety.PickedIsFree` | src/kernel/scheduler.c:253-304 | a picked thread is used, runnable and claimed by no other CPU |
| `SchedulerRuns.StepSafe` | src/kernel/scheduler.c:253-508 | every step (tick, yield, sleep, wake, create, kill, exit, retire, reap) keeps the safety invariant |
| `SchedulerRuns.RunSafe` | src/kernel/scheduler.c:253-508 | every run of steps keeps it |
| `SchedulerRuns.NoThreadOnTwoCpus` | src/kernel/scheduler.c:394-508 | on every run from power-on no thread is current on two CPUs, `current` and `running_cpu` agree, and a thread that claims a CPU is current there or terminated |
| `SchedulerRuns.PickTakesLiveThread` | src/kernel/scheduler.c:394-508 | every step that changes the thread of a CPU (first pick, leaving a sleeper, preemption or yield) takes a used, runnable thread that no CPU claims; never a terminated one |
| `SchedulerEffects.BootEffect` | src/kernel/scheduler.c:403-423 | a CPU without a thread takes one exactly when some thread is eligible |
| `SchedulerEffects.SleepSwitchEffect` | src/kernel/scheduler.c:432-455 | a sleeping thread gives its CPU to another one or keeps it, and stays asleep |
| `SchedulerEffects.SwitchEffect` | src/kernel/scheduler.c:463-508 | a switch is safe and leaves a CPU with its old thread only if no other thread may be taken |
| `SchedulerRuns.RetireIsComplete` | src/kernel/scheduler.c:316-346 | retirement releases exactly the retirable claims; the pending counter never lets it be skipped |
| `SchedulerRuns.ReapSparesCurrent` | src/kernel/process.c:808-874 | neither reap nor destroy touches a thread that is current on any CPU |
| `SchedulerRuns.ReapFreesThreads` | src/kernel/process.c:808-874 | reaping an idle exited process frees every one of its threads |
| `SchedulerReap.ReapFreesIff` | src/kernel/process.c:808-874 | reaping frees a thread exactly when a process that waits to be reaped, with no thread on a CPU, lists it |
| `SchedulerReap.ReapFreesOnlyDeadIff` | src/kernel/process.c:826-844 | reaping frees dead threads only if and only if every thread such a process lists is dead: the code tests the CPU claim, not the state |
| `SchedulerReap.ReapCanFreeRunnable` | src/kernel/process.c:826-844 | a run from power-on after which reaping frees a thread that is still runnable |
| `SchedulerRuns.KillIsComplete` | src/kernel/process.c:983-1048 | a kill terminates exactly the threads of the process |
| `SchedulerRuns.ExitLeavesLatestAlive` | src/kernel/thread.c:732-756 | exit leaves a thread alive exactly when it is the one recorded as the process's latest and is not the caller |
| `SchedulerRuns.ExitIsCompleteIff` | src/kernel/process.c:724-798 | exit terminates every thread of the process if and only if the recorded latest thread is the caller, foreign or already dead |
| `SchedulerRuns.ExitCanLeaveThreadRunning` | src/kernel/process.c:724-798 | a reachable run in which exit on one CPU leaves a sibling running on another |
| `SchedulerRuns.PickGetsNearer` | src/kernel/scheduler.c:253-277 | a pick returns the waiting thread or one from which it is cyclically nearer |
| `SchedulerRuns.BoundedWaiting` | src/kernel/scheduler.c:253-277 | a thread that stays eligible and off-CPU is selected within MAX_THREADS picks, on every run |
| `Kernel.WholeSwitchEffect` | src/kernel/scheduler.c:394-508 | an uninterrupted tick or yield stays safe and moves at most its own CPU, to a thread that was runnable and unclaimed |
| `ApcPool.Pool.constructor` | src/kernel/apc.c:98-122 | the free list threads all 512 slots |
| `ApcPool.Pool.Alloc` | src/kernel/apc.c:125-137 | takes the first free slot; fails exactly when none is free |
| `ApcLists.TakeFreeGood` | src/kernel/apc.c:125-137 | taking a slot keeps free list and queues acyclic, disjoint and covering all slots |
| `ApcLists.GiveFreeGood` | src/kernel/apc.c:140-153 | so does giving a slot back |
| `ApcLists.AppendGood` | src/kernel/apc.c:156-175 | so does appending a slot to a thread's queue |
| `ApcLists.RemoveGood` | src/kernel/apc.c:371-397 | so does unlinking any slot of a queue |
| `ApcPool.Pool.QueueKernelCall` | src/kernel/apc.c:215-252 | queues a kernel call as the abstract queue does, refusals included |
| `ApcPool.Pool.QueueUserCall` | src/kernel/apc.c:255-295 | queues a user call as the abstract queue does, refusals included |
| `ApcModel.Enqueue` | src/kernel/apc.c:156-175 | a call is queued exactly when the pool has a slot and the thread has fewer than 16 calls |
| `ApcPool.Pool.HasPending` | src/kernel/apc.c:298-322 | true exactly when a pop would find a call |
| `ApcPool.Pool.PopSlot` | src/kernel/apc.c:371-397 | unlinks the first deliverable call and nothing else |
| `ApcModel.FirstDeliverable` | src/kernel/apc.c:178-197 | the first call of the queue that may be delivered in the context |
| `ApcModel.PopKernel` | src/kernel/apc.c:400-440 | popping call by call runs the deliverable kernel calls in queue order |
| `ApcPool.Pool.TakeCall` | src/kernel/apc.c:421-442 | one turn of the loop under its lock: takes the first deliverable call and frees its slot; a user call marks the thread |
| `ApcPool.Pool.FinishCall` | src/kernel/apc.c:452-495 | a user call that was taken is entered over a saved frame, or refused and counted |
| `ApcPool.Pool.DeliverCalls` | src/kernel/apc.c:400-495 | takes deliverable calls one locked turn at a time, whatever operations take place on the pool while each kernel call runs, then enters at most one user call; with nothing in between it runs all deliverable kernel calls in queue order |
| `ApcRuns.DeliveryIsRun` | src/kernel/apc.c:400-446 | a delivery, with what happens in its gaps, is a run of the operations the other results speak of |
| `ApcRuns.QuietDelivery` | src/kernel/apc.c:400-495 | an uninterrupted delivery is one round over the queue |
| `ApcPool.Pool.ReturnFromCall` | src/kernel/apc.c:498-545 | restores the saved frame when it is a user frame |
| `ApcPool.Pool.FlushThread` | src/kernel/apc.c:349-368 | frees all calls of a thread |
| `ApcPool.Pool.ChangeAlertable` | src/kernel/apc.c:325-346 | brackets an alertable wait |
| `ApcRuns.Conservation` | src/kernel/apc.c:215-446 | after every interleaving of locked regions, the turns of deliveries included: queued = delivered + pending + flushed, at most 512 pending, at most 16 per thread |
| `ApcRuns.FrameKept` | src/kernel/apc.c:400-545 | while a user call runs no operation of any interleaving overwrites the saved frame |
| `ApcRuns.InterruptedFrameRestored` | src/kernel/apc.c:498-545 | a user call taken, entered after any operations of other CPUs and left after any others, returns to every register of the interrupted frame |
| `ApcRuns.NoSecondUserCall` | src/kernel/apc.c:178-197 | no second user call is taken while one is outstanding |
| `ApcRuns.FifoPerKind` | src/kernel/apc.c:371-495 | calls of the same kind are delivered to a thread in the order they were queued, on every interleaving of locked regions that does not flush it |
| `SelectorMatch.FindWord` | libc/LibCSS/src/css_match.c:950-981 | finds a class exactly when it is one of the blank-separated words |
| `SelectorMatch.AttrMatch` | libc/LibCSS/src/css_match.c:985-1051 | decides the matcher's attribute test, which is that of section 6.3 of W3C Selectors Level 3, compared without case, if and only if it is not a dash match with an empty operand against an empty value or one that starts with a dash |
| `SelectorStandard.AttrAgreesIff` | libc/LibCSS/src/css_match.c:985-1051 | the attribute test agrees with the standard in all other cases and in no case of that kind |
| `SelectorStandard.EmptyDashDiffers` | libc/LibCSS/src/css_match.c:999-1008 | the input: an empty dash match that the standard selects and the matcher does not |
| `SelectorStandard.ClassAgreesIff` | libc/LibCSS/src/css_match.c:950-981 | the class test agrees with section 6.4 of Selectors Level 3 if and only if the name has no form feed and is either no word of the list or a word with an end or a blank other than a form feed on both sides, or the name has a form feed and the matcher does not find it |
| `SelectorStandard.FormFeedDiffers` | libc/LibCSS/src/css_match.c:950-981 | inputs both ways: a class the standard finds and the matcher does not, and one only the matcher finds |
| `SelectorStandard.HoldsAgreesIff` | libc/LibCSS/src/css_match.c:1054-1095 | for every compound and element: the matcher decides as the standard says if and only if no class, no empty dash match and no first-child test on a parentless element tips the result |
| `SelectorStandard.RootIsNoFirstChild` | libc/LibCSS/src/css_match.c:1085-1093 | the input: a first-child test that the matcher lets the root pass and the standard does not |
| `SelectorMatch.CompoundMatch` | libc/LibCSS/src/css_match.c:1054-1095 | a compound matches exactly when type, id, classes, attributes and the first-child test all hold, and decides as the standard says exactly when the compound does not differ there |
| `SelectorMatch.ChainStep` | libc/LibCSS/src/css_match.c:1108-1166 | the budgeted search is the unbudgeted one cut off at the budget, and spends one unit per compound test |
| `Selector.SearchSound` | libc/LibCSS/src/css_match.c:1108-1166 | a successful search yields an assignment of compounds to ancestors and siblings that obeys the combinators |
| `Selector.SearchComplete` | libc/LibCSS/src/css_match.c:1108-1166 | any such assignment makes the search succeed |
| `Selector.SearchExact` | libc/LibCSS/src/css_match.c:1108-1166 | the search succeeds exactly when compounds can be assigned to ancestors and siblings as the combinators demand (section 8 of W3C Selectors Level 3), each meeting the matcher's simple tests |
| `SelectorStandard.SearchIsStandard` | libc/LibCSS/src/css_match.c:1108-1166 | on a document with sibling links the search decides the standard's meaning, given only that every compound agrees on every element the selector can reach |
| `SelectorMatch.SelectorMatches` | libc/LibCSS/src/css_match.c:1169-1173 | success implies a match, failure with budget left implies none, and at most the budget of compound tests run |
| `SelectorMatch.HitsIffSelected` | libc/LibCSS/src/css_match.c:1169-1173 | a selector hits an element if and only if it selects it and the search stays in its budget |
| `SelectorMatch.BestSelector` | libc/LibCSS/src/css_match.c:1209-1227 | the first of the most specific selectors of a rule that match |
| `SelectorMatch.RuleCandidates` | libc/LibCSS/src/css_match.c:1202-1238 | lists the applicable rules in sheet order with the specificity of their best selector, as many as fit |
| `SelectorMatch.AppliesIffSelected` | libc/LibCSS/src/css_match.c:1202-1238 | a rule applies if and only if one of its selectors selects the element within the budget |
| `Galois.Gmul` | libc/LibCrypto/src/aes.c:141-155 | the shift-and-add loop is multiplication in GF(2^8) by repeated doubling (section 4.2.1 of FIPS 197) |
| `Galois.TimesDistributes` | libc/LibCrypto/src/aes.c:141-155 | that multiplication distributes over addition on both sides |
| `Galois.RowTimesColumn` | libc/LibCrypto/src/aes.c:227-240 | the coefficients of MixColumns and of its inverse multiply to the identity matrix |
| `Galois.ColumnInverse` | libc/LibCrypto/src/aes.c:275-297 | the inverse matrix recovers every column |
| `SBox.SubInverts` | libc/LibCrypto/src/aes.c:59-127 | the second substitution table inverts the first on all 256 bytes |
| `SBoxField.SubIsAffineInverse` | libc/LibCrypto/src/aes.c:59-92 | every entry of the table is the affine image of the inverse in GF(2^8), of zero for zero (section 5.1.1 of FIPS 197) |
| `Aes.ShiftRowsInverts` | libc/LibCrypto/src/aes.c:263-268 | the row shifts cancel |
| `Aes.MixColumnsInverts` | libc/LibCrypto/src/aes.c:275-297 | InvMixColumns undoes MixColumns on every state |
| `Aes.Substitute` | libc/LibCrypto/src/aes.c:217-219 | replaces every byte of the state by its table entry |
| `Aes.Shift` | libc/LibCrypto/src/aes.c:220-225 | row r moves left by r columns |
| `Aes.Mix` | libc/LibCrypto/src/aes.c:226-240 | multiplies every column by the matrix of section 5.1.3 of FIPS 197 |
| `Aes.InvShift` | libc/LibCrypto/src/aes.c:263-268 | row r moves right by r columns |
| `Aes.InvMix` | libc/LibCrypto/src/aes.c:275-297 | multiplies every column by the inverse matrix |
| `Aes.AddRoundKey` | libc/LibCrypto/src/aes.c:244-246 | adds a round key to the state |
| `Aes.EncryptBlock` | libc/LibCrypto/src/aes.c:206-249 | computes the cipher of section 5.1 of FIPS 197, also in place |
| `Aes.DecryptBlock` | libc/LibCrypto/src/aes.c:252-303 | computes the inverse cipher of section 5.3, also in place |
| `Aes.DecryptInverts` | libc/LibCrypto/src/aes.c:206-303 | for every schedule and every number of rounds the inverse cipher undoes the cipher |
| `Ige.XorInto` | libc/LibCrypto/src/aes.c:306-313 | xor of two blocks, also in place |
| `Ige.IgeEncrypt` | libc/LibCrypto/src/aes.c:335-371 | encrypts whole-block messages as IGE defines, in place or not, and leaves the chaining iv; refuses other lengths and changes nothing |
| `Ige.IgeDecrypt` | libc/LibCrypto/src/aes.c:374-410 | decrypts likewise |
| `Ige.RoundTrip` | libc/LibCrypto/src/aes.c:335-410 | decryption inverts encryption for every message of whole blocks and ends with the same iv |
| `Ige.SplitEncryption` | libc/LibCrypto/src/aes.c:335-371 | two calls in a row equal one call on the concatenation |
| `Ige.SplitDecryption` | libc/LibCrypto/src/aes.c:374-410 | the same for decryption |
| `ChainMap.LinkIsNotFree` | chainfs.py:171-189 | a link inside a chain is never the free marker, although block 0 exists |
| `ChainMap.NonFreeIffClaimed` | chainfs.py:171-189 | the non-zero map entries are exactly the blocks of live files |
| `ChainMap.ChainIsUnique` | chainfs.py:181-189 | a start block determines its chain |
| `ChainMap.ClearedCount` | chainfs.py:181-189 | freeing a chain makes as many blocks available as it had |
| `ChainImage.Image.FindFreeBlocks` | chainfs.py:171-179 | the lowest free blocks, or nothing when there are too few |
| `ChainImage.Image.FindFreeEntry` | chainfs.py:140-146 | the first unused file entry |
| `ChainImage.Image.FreeBlockChain` | chainfs.py:181-189 | frees exactly the blocks of the chain |
| `ChainImage.Image.FillChain` | chainfs.py:313-322 | links the blocks in order up to the end marker and writes the padded payload |
| `ChainImage.Image.WriteFile` | chainfs.py:292-334 | on success the image is consistent and stores exactly the new payload besides the other files; states when each failure occurs; an overwrite that finds no room leaves no consistent image |
| `ChainImage.Image.ReadFile` | chainfs.py:258-276 | returns the last payload written to the entry |
| `ChainImage.Image.DeleteFile` | chainfs.py:336-342 | removes exactly that file and keeps the image consistent |
| `ChainRuns.Perform` | chainfs.py:292-342 | a write or delete does to the stored files what it asks for, or is turned down exactly in the listed cases and changes nothing; it breaks off exactly when it is an overwrite that finds no room |
| `ChainRuns.RunAll` | chainfs.py:258-342 | over any sequence of writes and deletes the image stays consistent and stores exactly what the operations left, in order; a run that breaks off does so at an overwrite that finds no room in the image the operations before it left |
| `ChainRuns.LastWriteWins` | chainfs.py:258-342 | after a run a file holds what was last stored in it |
| `ChainFiles.RemoveKeeps` | chainfs.py:181-189 | freeing a file's chain keeps all other files |
| `ChainFiles.StoreKeeps` | chainfs.py:313-334 | linking a new ascending chain keeps consistency and all other files |
| `ChainFiles.FreedStartIsInconsistent` | chainfs.py:296-311 | a live entry whose chain was freed belongs to no consistent image |
| `ChainFiles.FormattedImage` | chainfs.py:390-450 | an image without files is consistent |
| `ChainImage.OverwriteCanFindNoRoom` | chainfs.py:296-311 | a consistent image on which an overwrite frees the old file and then finds no room |
| `BootMem.Table.AddFreeRange` | src/kernel/bootmem.c:44-56 | adds the whole pages of a stretch when there is a slot, and tracks the highest address |
| `BootMem.Table.ReserveRange` | src/kernel/bootmem.c:58-95 | the in-place loop computes the reservation on values |
| `BootMem.Table.ReservePhys` | src/kernel/bootmem.c:97-103 | reserves a stretch given by start and size |
| `BootMem.Table.Alloc` | src/kernel/bootmem.c:208-241 | first fit: takes the aligned block and the gap before it out of the range |
| `BootMem.Table.FreeBytes` | src/kernel/bootmem.c:243-250 | the sum of the range sizes modulo 2^64 |
| `BootRanges.ReserveIsDifference` | src/kernel/bootmem.c:58-95 | without a split on a full table the free addresses afterwards are exactly the set difference |
| `BootRanges.ReserveLosesTail` | src/kernel/bootmem.c:86-93 | a split on a full table keeps the low part and loses the high one, nothing else |
| `BootRanges.ReserveResult` | src/kernel/bootmem.c:58-95 | from any good table the result is good and is the set difference, or the difference with the tail of one range |
| `BootAlloc.FirstFit` | src/kernel/bootmem.c:219-224 | the first range whose aligned block fits |
| `BootAlloc.TakeResult` | src/kernel/bootmem.c:219-231 | where neither 64-bit sum wraps on the chosen range the block is aligned, inside its range, and gone from the free addresses; the table stays good |
| `BootAlloc.RightBlockIffNoWrap` | src/kernel/bootmem.c:219-227 | a found block is right (inside its range, of the full size, taken out of it) if and only if neither sum wraps on the chosen range |
| `BootAlloc.SizeCoveredIff` | src/kernel/bootmem.c:215 | the size rounded to pages covers the size asked for if and only if rounding does not wrap |
| `BootAlloc.HugeSizeGetsNothing` | src/kernel/bootmem.c:215 | the input: the largest size rounds to zero and a block of no bytes is handed out |
| `BootAlloc.StartSafe` | src/kernel/bootmem.c:176-199 | every good memory map is a start for such a run |
| `BootAlloc.RunSafe` | src/kernel/bootmem.c:58-241 | after any mix of reservations and allocations whose sums do not wrap on the chosen range, blocks are aligned and disjoint from each other, from what was reserved before them and from what is still free |
| `BootAlloc.CoversIffNoWrap` | src/kernel/bootmem.c:58-103 | a reservation of any size covers the request if and only if its end and one page more stay within 2^64 |
| `BootAlloc.LastPagesNotReserved` | src/kernel/bootmem.c:97-103 | the input: reserving the last two pages wraps and reserves nothing |
| `BootAlloc.OverflowGrowsRange` | src/kernel/bootmem.c:219-227 | an input on which the unchecked 64-bit sum makes a range grow |
| `Bintime.Time.AddDelta` | src/kernel/time.c:53-68 | adds delta times scale modulo 2^128 |
| `Bintime.Time.Add` | src/kernel/time.c:94-104 | adds modulo 2^128, also to itself |
| `Bintime.Time.Sub` | src/kernel/time.c:107-117 | subtracts modulo 2^128 |
| `Bintime.Time.AddNs` | src/kernel/time.c:120-135 | adds nanoseconds at the rounded-up scale |
| `Bintime.Time.SubNs` | src/kernel/time.c:138-155 | subtracts them |
| `Bintime.AddThenSub` | src/kernel/time.c:94-155 | subtracting what was added restores the time, whatever wrapped |
| `TimeHands.Clock.FromCounter` | src/kernel/time.c:71-91 | a reading is the offset plus the masked counts since, times the scale |
| `TimeHands.Clock.OnTick` | src/kernel/time.c:282-309 | a tick moves offset and count to the current reading |
| `TimeHands.Clock.Windup` | src/kernel/time.c:312-336 | switching counters carries the current reading over |
| `TimeHands.WindupIsContinuous` | src/kernel/time.c:312-336 | a switch neither loses nor gains time |
| `TimeHands.DeltaIsExact` | src/kernel/time.c:85-88 | two readings at most the mask apart differ by the true counts, however the counter wrapped |
| `TimeHands.ScheduleIndependent` | src/kernel/time.c:282-309 | for every schedule of ticks at most the mask apart the uptime is start plus counts times scale, so it does not depend on the schedule |
| `TimeHands.UptimeMonotone` | src/kernel/time.c:71-91 | of two readings of a clock the later is never the smaller, under any two schedules of ticks in between, until 128 bits overflow |
| `TimeHands.ScaleGoodIff` | src/kernel/time.c:332 | scale times frequency lies in [2^64, 2^64 + f - 1] if and only if the frequency is at least 2 |
| `TimeHands.UptimeError` | src/kernel/time.c:312-336 | after a switch to a counter of at least 2 Hz and any schedule of ticks the uptime gained never lags the true time and leads it by less than one unit per count |
| `KofoImage.Loader.Name` | src/kernel/kofo.c:215-228 | a name is found exactly when it is terminated inside the table |
| `KofoImage.Loader.PlaceSection` | src/kernel/kofo.c:351-377 | an accepted section gets the first multiple of its alignment from the current position on, ends within the size limit, and has its bytes in the file behind the header |
| `KofoImage.Loader.AssignBases` | src/kernel/kofo.c:350-377 | succeeds exactly when every section passes, and places them in order |
| `KofoImage.Loader.LayoutSections` | src/kernel/kofo.c:339-398 | lays out the module: bases, image size, and an image of file bytes over zeros |
| `KofoLoad.PlaceInOrder` | src/kernel/kofo.c:350-377 | placed sections are aligned and follow each other without overlap |
| `KofoLoad.LayoutFacts` | src/kernel/kofo.c:350-382 | after a successful layout the loaded sections lie in the image, disjoint, at multiples of their alignment |
| `KofoImage.Loader.KernelSymbolLookup` | src/kernel/kofo.c:401-418 | the first kernel symbol of that name |
| `KofoImage.Loader.ResolveSymbol` | src/kernel/kofo.c:421-452 | an address found is that of a stretch inside an allocated section of the image, or for an import the value of the first kernel symbol of that name |
| `KofoReloc.ResolveFinds` | src/kernel/kofo.c:421-452 | the same on every laid-out module; a symbol is reported missing exactly when it is an import with a name and the kernel has none of that name |
| `KofoImage.Loader.PatchReloc` | src/kernel/kofo.c:455-482 | stores the value of the relocation formula at its field, or reports what is out of range |
| `KofoImage.Loader.ApplyRelocs` | src/kernel/kofo.c:485-519 | applies the relocations in order and stops at the first failure |
| `KofoReloc.FieldInside` | src/kernel/kofo.c:496-506 | a field lies inside its own section |
| `KofoReloc.OutsideFieldsKept` | src/kernel/kofo.c:485-519 | a byte outside all fields keeps its value |
| `KofoReloc.FieldHolds` | src/kernel/kofo.c:455-519 | each field not overwritten later holds the value of its formula |
| `KofoImage.LayoutIsValid` | src/kernel/kofo.c:339-398 | a successful layout is what relocation relies on |
| `KofoImage.ByteOutsideFields` | src/kernel/kofo.c:339-519 | after loading, a byte outside all fields is its section's byte in the file, or zero |
| `StringTables.StringTable.Add` | tools/kofo_pack.py:147-160 | adds a name once; every name keeps its place and its terminator |
| `KofoPack.CollectStrings` | tools/kofo_pack.py:462-490 | every name of the input gets an offset |
| `KofoWriter.SegmentsApart` | tools/kofo_pack.py:505-535 | header, strings, tables and section data do not overlap in the file |
| `KofoWriter.PackKofo` | tools/kofo_pack.py:493-642 | produces the file of the plan, or nothing when a value does not fit its field |
| `Records.UnpackInverts` | tools/kofo_pack.py:68-73 | reading a packed record returns the values packed |
| `Records.SegmentReads` | tools/kofo_pack.py:535-642 | each segment of the buffer reads back as written |
| `KofoAgree.PackedFileValidates` | src/kernel/kofo.c:249-312 | every packed file with sections and symbols passes the header check of the loader, which finds the packed string table |
| `KofoRound.PackedModule` | src/kernel/kofo.c:249-312 | a packed file is accepted, and the sections, symbols and relocations the loader decodes from its bytes are those that were packed |
| `KofoRound.PackLoads` | src/kernel/kofo.c:339-398 | packing, accepting and laying out puts the bytes of every loaded section at its base, disjoint and aligned, over zeros |
| `KofoRound.PackLoadsToTheEnd` | src/kernel/kofo.c:339-519 | and after relocation, failed or not, every packed byte that no relocation stores over is still there; after success every field holds the value of the last packed relocation that stores there |
| `KofoAgree.SectionReadsBack` | tools/kofo_pack.py:567-580 | the loader reads back each section: fields, name and bytes |
| `KofoAgree.SymbolReadsBack` | tools/kofo_pack.py:582-593 | and each symbol with its name |
| `KofoAgree.ImportReadsBack` | tools/kofo_pack.py:595-605 | and each import with its name |
| `KofoAgree.RelocReadsBack` | tools/kofo_pack.py:607-618 | and each relocation, signed addend included |
| `KofoAgree.DriverReadsBack` | tools/kofo_pack.py:620-636 | and each driver with its names, missing ones included |
| `HivePaths.PrefixInterval` | tools/hivec.py:457 | strings with a common prefix form an interval of the lexicographic order |
| `HivePaths.ChildrenAreContiguous` | tools/hivec.py:457-466 | between two children of a node the order has only children of that node |
| `HiveNodes.AddParts` | tools/hivec.py:447-453 | adds a key and the keys above it; fails exactly on an empty part |
| `HiveTree.BuildNodes` | tools/hivec.py:444-460 | the nodes are the keys and the keys above them, with the keys' flags and values, sorted by depth and path |
| `HiveTree.ParentPrecedes` | tools/hivec.py:457-460 | every parent comes before its children |
| `HiveTree.ChildrenExact` | tools/hivec.py:482-486 | the children of a node are exactly the index range of its entry |
| `HiveTree.PathRecovered` | tools/hivec.py:463-466 | parent links and names determine every path |
| `HiveBuild.SortValuesFacts` | tools/hivec.py:488 | the sorted values are a permutation in order of their names |
| `HiveBuild.ItemsRange` | tools/hivec.py:487-493 | the values of a node are exactly one range of the value table |
| `HiveBuild.DataReadsBack` | tools/hivec.py:490-492 | the bytes of a value stand at its offset in the data |
| `HiveWriter.CollectChildren` | tools/hivec.py:482-486 | collects for each node the indices of its children |
| `HiveWriter.CollectValues` | tools/hivec.py:487-493 | collects the values of all nodes, their names and their data |
| `HiveWriter.BuildHive` | tools/hivec.py:469-550 | produces the hive file, or nothing for a bad path or a value that does not fit; its header carries the CRC-32 of what follows; the check of the kernel takes it if and only if every value has a known type; for distinct keys with names free of zero bytes a reader of the bytes alone finds every key with its path, flags and values, on every other node nothing, each path once, and child and value ranges that agree with the links |
| `HiveFile.NodeReadsBack` | tools/hivec.py:495-510 | each node entry reads back: parent, name, flags, child and value ranges |
| `HiveFile.ValueReadsBack` | tools/hivec.py:512-521 | each value entry reads back: node, name, type, flags and bytes |
| `HiveDecode.PathIs` | tools/hivec.py:495-510 | following the parent links and names in the bytes of the file spells every path |
| `HiveDecode.ValuesAre` | tools/hivec.py:487-521 | the value range of a node, read from the bytes, is its values in order of their names |
| `HiveDecode.ChildRangeIs` | tools/hivec.py:495-510 | the child range in the bytes of a node holds exactly the nodes whose bytes name it as parent |
| `HiveDecode.HiveDecodes` | tools/hivec.py:469-550 | every file of the compiler, read from its bytes alone, is the tree of the source keys and of the keys above them, and nothing else |
| `HiveCheck.ValidateHive` | src/kernel/drivers/fs/hivefs/hivefs.c:1387-1481 | the kernel takes a file exactly when header, nodes, values, names and data tile it, the checksum is right, and every entry refers to what is there |
| `HiveCheck.HeaderExact` | src/kernel/drivers/fs/hivefs/hivefs.c:1404-1431 | the header tests, with their sums in 32 bits, hold exactly when the parts follow each other without a gap and fill the file: no sum wraps |
| `HiveCheck.AcceptedReads` | src/kernel/drivers/fs/hivefs/hivefs.c:1467-1478 | every value of an accepted file can be read from its bytes |
| `HiveCheck.WrittenAccepted` | src/kernel/drivers/fs/hivefs/hivefs.c:1387-1481 | a file of the compiler passes the check of the kernel if and only if its value types are known |
| `HiveCheck.KnownAgree` | tools/hivec.py:444-460 | which is the case if and only if the types of the source keys are |

## Left out

- DEFLATE: the gzip and zlib wrappers, null-argument checks, and the widths of the 16-bit tables; the bit accumulator is a number, not a machine word, and the read and write callbacks are scripts of results.
- InflateRun.InflateStream: whether an error of the read callback and a corrupt stream are told apart once both occur.
- Scheduler: in the scheduler state the thread list of a process is a sequence, which the linked list of ThreadLists refines; each locked region is one step; entities, events, address spaces, FPU and trace calls are left out.
- Scheduler: sleeping and waking are steps that change a thread's state; the wait channels are not modelled.
- APC: what kernel routines do besides operations on the pool, waking of alertable threads, and the FPU image and segment base saved with the frame.
- CSS: parsing, numbers, colours, lengths, the sort of candidates and the application of declarations; nodes are numbered in document order and the node interface is a record.
- AES: key expansion, wiping of buffers and null-argument checks; every expanded schedule is covered.
- ChainFS: paths, names, directories, the byte layout of superblock, entries and map, and `format`; a payload is shorter than 2^32 bytes, the width of the size field.
- Boot memory: reading the multiboot structures, the lock and the callback; clearing low bits is subtraction of the remainder, which is the same for a power of two, the alignment the callers pass and `BootMem.Table.Alloc` demands.
- BootAlloc.RunSafe: the sums of the allocations of the run do not wrap on the ranges chosen; `BootAlloc.RightBlockIffNoWrap` shows that a block is wrong otherwise.
- Timecounter: calendars, conversion to timespec, sleepers and boot time; a counter mask has all its low bits set.
- KOFO: ELF parsing, allocation failure, calling entry points, drivers registration, and agreement with the ELF formula for relative relocations; a signed overflow in the relative formula is an out-of-range value. Alignment is relative to the image.
- KOFO and hive writers: names are their UTF-8 bytes; the second look-up of a name that is already known is not repeated in the model.
- Hive: lexing and parsing, packs of several hives, what the kernel does with a hive it has checked, and its null-argument tests; a file is shorter than 2^32 bytes, the width of the size the kernel passes.
- SHA, big numbers, RSA, DHCP, SSH, shell, file system drivers, user programs, C library and interface code: other parts of the repository, not part of this model.

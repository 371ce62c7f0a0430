# Open files, pipes and random bytes of HaoudOS

A Dafny model of three parts of the kernel, and proofs about it.

- **Open files.** Every process has a table of 32 nullable pointers to reference-counted file objects that
  descriptors and processes share. Modelled are `dup`, `dup2`, `close`, `fcntl`, `read`, `write`, `pipe`, the end
  of `open`, and the descriptor parts of `fork`, `exit` and process creation, together with the helpers of
  `core/fs/file.c`, `core/fs/pipe.c` and `core/fs/inode.c` that they use.
- **The urandom device.** One linear congruential step modulo 2^32 per byte, in a state word kept in the file.
- **Variadic arguments.** Slot sizes by masking, and a cursor over packed memory.

## Layout

| file | contents |
|---|---|
| `Modular.dfy` | 32-bit words, powers of two, congruence |
| `Generator.dfy` | the state update: Hull-Dobell theorem, low bits, closed form, two seeds |
| `ByteStream.dfy` | the bytes handed out: splitting, census, period |
| `VarArgs.dfy` | slot sizes, layout, round trip, and the cursor as a class that reads an argument list back |
| `OpenFiles.dfy` | the open-file layer as a state machine over values, one function per call |
| `Accounting.dfy` | the balance of reference counts, and what single statements do to it |
| `Release.dfy` | `unref_open_file` instruction by instruction, and its load from the object it has freed |
| `Safety.dfy` | for each call the condition under which it keeps the balance, in both directions; runs |
| `Descriptors.dfy` | aliasing, dup undone by close, exits of pipe, misleading answers |
| `Failures.dfy` | concrete runs from an empty kernel on which the conditions of the two files above fail |
| `World.dfy` | the layer without counts (descriptions live while something names them) and the refinement |
| `Histories.dfy` | what aliases deliver over whole runs: one stream, one set of flags, one queue |
| `Answers.dfy` | what single calls answer and change, with the numbers of the headers written out |
| `Writers.dfy` | the semaphore of a pipe: writes stay whole and answer their length, and sleeping writers keep their pipe |
| `PipeBuffer.dfy` | the pipe inode, its ring and its semaphore as a class over an array |
| `Runs.dfy` | lists of calls performed in place on the classes, with the theorems about whole runs |
| `Kernel.dfy` | file objects, tables and system calls as classes that update in place, proved to do what `OpenFiles.dfy` says |

`Kernel.dfy` and `PipeBuffer.dfy` have the form of the C code: fields, arrays, loops, statements in the same
order. Their methods are proved equal to the functions of `OpenFiles.dfy`, and the laws are proved about those
functions. A call ends in `Ret` (with its code), `Blocked` (the caller sleeps), `Panic`, or `Undefined` (it went
through a NULL pointer, a freed object or one whose fields were never set). One access to a freed object does not count
as `Undefined`: `unref_open_file` loads the inode of the file it has just freed. `kfree` leaves the bytes as they are
and nothing is allocated in between, so the model keeps the last fields of a freed object and reads them there;
`Release.ReadsFreedExactly` says when this happens. A writer that sleeps in `pipe_write` keeps the semaphore of the
pipe and goes on with its own event, `ResumeWrite`; all other calls that block have changed nothing and are made
again. A state is *balanced* when every file in use is claimed by exactly as many slots and lost references as its
count says, nothing else is claimed, and every pipe inode counts exactly its open read and write ends.

`kmalloc` may hand out any address that is not in use, also one that has been freed. The laws of `Histories.dfy` and
`Writers.dfy` follow one file or pipe through a run and ask that its own address is not handed out again meanwhile. Some
of them hold of unsafe runs, too; past a call that panics or ends in `Undefined` the states are the model's own, and
they say nothing about the code there.

`dafny verify dfyconfig.toml` checks everything.

## What the code does that it is not meant to do

Each point is a lemma: the exact condition under which the code behaves, for all inputs, and where it helps a
concrete run on which it does not.

- `unref_open_file` (core/fs/file.c:33-34) calls the inode's close_file, which frees the file, and then loads
  `f->inode` from it. Every release of a last reference therefore reads a freed object, and no other release does
  (`Release.ReadsFreedExactly` for all states, `Release.LastClaimReadsFreed` for balanced ones). The load finds the old
  bytes, because `kfree` (core/mm/heap.c:340-367) only marks the chunk and nothing is allocated in between.
- `found_free_process_fd` returns the positive `ERR_NOT_FOUND`, so on a full table `dup` and `pipe` answer 3, which
  looks like a descriptor, and `dup` keeps the reference it took (`Descriptors.DupAnswers`,
  `Failures.DupAnswersThreeTwice`). `open` ignores the failure and answers 0 (`Descriptors.OpenAnswers`,
  `Failures.OpenAnswersZeroTwice`). The comment above the function (core/fs/file.c:99-103) promises an error code; the
  model follows the code.
- `read` ignores what the read operation returns and answers with the length it was called with, unless the operation
  sets it. An operation that fails first is answered as if all bytes had been delivered: `ramdisk_read` of a directory
  does (core/fs/ramdisk/ramdisk.c:113-114), and so does `blockdev_read` without a device (core/dev/block/block.c:412-413;
  `Descriptors.ReadAnswers`, `Failures.RefusedReadAnswersLength`). A file without a read operation would be answered
  with the positive `ERR_NOT_IMPL`, which looks like 11 bytes; no file of this repository is one, since all its tables of
  operations have both read and write.
- `pipe` is all-or-nothing only on some of its exits (`Descriptors.PipeAllOrNothing`, `Descriptors.PipeResidue`). On the
  others it leaves a freed object in the table (`Failures.PipeLeavesFreedObject`) or unfilled ones
  (`Failures.PipeLeavesRawObjects`, `Failures.PipeWithoutSecondSlot`), or frees the file of descriptor 0
  (`Failures.PipeFreesOpenFile`).
- A pipe end is recognised by its flags when it is closed. `F_SETFD` that changes the write bit makes the inode's
  counters wrong, and the destructor panics (`Safety.FcntlKeepsBalance`, `Failures.FlippedPipePanics`).
- `exit` leaves the table as it was and `fork` does not write the child's entries where the parent has none, so a child
  can inherit descriptors of freed files (`Safety.ForkKeepsBalance`, `Failures.ForkInheritsFreedFile`).
- `fcntl` does not test the descriptor for NULL (`Failures.FcntlOfNothing`). Writing to a pipe without a read end panics
  (`Failures.BrokenPipePanics`), also when the last read end goes while the writer sleeps on a full pipe
  (`Failures.SleepingWriterPanics`).
- Counts are 32-bit and wrap: failing `dup` calls bring the count of an open file to 0, from where `close` panics, or to
  1, from where it frees a file that 31 descriptors still name (`Failures.CountWrapsToZero`,
  `Failures.CountWrapsToOne`). `Safety.ShortRunsAreSafe` bounds the runs on which this cannot happen.
- `va_size` returns 0 for the three largest sizes (`VarArgs.SlotSize`).

## Model

| member | source | states |
|---|---|---|
| Generator.ClosedForm | core/dev/char/urandom.c:21-25 | after n bytes the state is a^n s + c (1 + a + ... + a^(n-1)) modulo 2^32; `Generator.GeometricSumIsSum` shows that the second factor is this sum |
| Generator.PowerOfTwoSteps | core/dev/char/urandom.c:23 | for k up to 31, 2^k steps add exactly 2^k modulo 2^(k+1) |
| Generator.LowBitsReturn | core/dev/char/urandom.c:23 | the low j bits return to their value after exactly the multiples of 2^j steps, for every j up to 32 |
| Generator.StateReturns | core/dev/char/urandom.c:21-25 | the state returns to the seed exactly at the multiples of 2^32 steps |
| Generator.FullCycle | core/dev/char/urandom.c:21-25 | from every seed every word is reached at exactly one of the first 2^32 positions |
| Generator.OneCycle | core/dev/char/urandom.c:15-25 | the streams of any two seeds are one cycle, entered at different positions |
| Generator.SeedsAgree | core/dev/char/urandom.c:15-23 | two seeds agree on their low j bits at every step or at none |
| Generator.SeedsStayApart | core/dev/char/urandom.c:15-23 | different seeds never share a state at the same step, and their lowest differing bit never moves |
| ByteStream.StreamSplit | core/dev/char/urandom.c:21-25 | reading n and then m bytes gives the bytes and the state of reading n + m |
| ByteStream.CensusAnywhere | core/dev/char/urandom.c:21-24 | any 2^32 consecutive bytes hold 0 exactly 258 * 2^16 times, each of 1 to 254 exactly 257 * 2^16 times, and 255 never |
| ByteStream.HalfCycleDiffers | core/dev/char/urandom.c:23-24 | an odd multiple of 2^31 steps away the state differs by 2^31 and the byte by 127 or 128 modulo 255 |
| ByteStream.Periods | core/dev/char/urandom.c:23-24 | the byte stream repeats with step p, from any byte on, exactly when 2^32 divides p |
| VarArgs.SlotSize | include/lib/stdarg.h:24-25 | the mask form is the least multiple of 4 not below the size exactly when size + 3 does not overflow, and 0 otherwise |
| VarArgs.SlotsDisjoint | include/lib/stdarg.h:24-31 | slots start at the prefix sums, are aligned, hold their argument and do not overlap |
| VarArgs.PromotedRoundTrip | include/lib/stdarg.h:27-31 | reading a laid-out list with types of the same slots returns every value cut to the width read, in order, and ends at the end of the layout |
| VarArgs.RoundTrip | include/lib/stdarg.h:27-31 | with the caller's own types exactly the values passed come back |
| VarArgs.VaList.ReadAll | include/lib/stdarg.h:27-31 | starting the cursor behind the last named parameter and taking one argument of each size returns the values of the walk that the round trip is proved about, and leaves the cursor at its end |
| VarArgs.VaList.ReadBack | include/lib/stdarg.h:27-34 | start, take, end: a reader with the caller's types gets back exactly the values passed, and the cursor is NULL again |
| VarArgs.VaList.Next | include/lib/stdarg.h:30-31 | one step of the walk that the round trip is proved about |
| OpenFiles.FirstNull | core/syscall/sys_pipe.c:14-25 | the search both halves of pipe make: the least NULL slot, or -1 exactly when there is none |
| Accounting.UnrefKeepsBalance | core/syscall/sys_close.c:23 | a reference that is held can be dropped without panic, and the file goes with its last claim; the inode is released after the file is freed |
| Release.ProgramIsUnref | core/syscall/sys_close.c:23 | the accesses of the release in the order of the code, executed one by one, are the function the counting is proved about |
| Release.ReadsFreedExactly | core/syscall/sys_close.c:23 | for all states: the release loads from a freed object exactly when it drops the last reference; it is the load of the inode, the bytes are those of the file, and nothing is allocated on the way |
| Release.LastClaimReadsFreed | core/syscall/sys_dup2.c:29 | while the books balance: exactly when it drops the last claim |
| Safety.DupKeepsBalance | core/syscall/sys_dup.c:10-25 | dup keeps the balance, with the reference lost on a full table, exactly when the count can go up by one |
| Safety.Dup2KeepsBalance | core/syscall/sys_dup2.c:9-32 | dup2 completes and keeps the balance exactly when the count can go up by one; the release of the replaced file is the one of `Release.ReadsFreedExactly` |
| Safety.CloseKeepsBalance | core/syscall/sys_close.c:12-25 | close completes, without panic or NULL pointer, and keeps the balance; on a last claim it makes the load of `Release.LastClaimReadsFreed` |
| Safety.FcntlKeepsBalance | core/syscall/sys_fcntl.c:13-34 | fcntl completes and keeps the balance exactly when the descriptor is open and a pipe end keeps its write bit |
| Safety.ReadKeepsBalance | core/syscall/sys_read.c:14-27 | read completes and keeps the balance, whatever the operation of a file outside the model reports |
| Safety.WriteKeepsBalance | core/syscall/sys_write.c:15-30 | write completes or sleeps, and keeps the balance, exactly when a pipe whose semaphore it takes has a read end |
| Safety.ResumeKeepsBalance | core/syscall/sys_write.c:26 | a write that wakes up completes or sleeps again, and keeps the balance, exactly when its pipe has a read end or room for all that is left |
| Safety.PipeKeepsBalance | core/syscall/sys_pipe.c:14-57 | pipe keeps the balance exactly on its safe exits |
| Safety.PipeSuccess | core/syscall/sys_pipe.c:14-45 | on success two distinct descriptors that were free hold the two ends of one new inode, and nothing else changes |
| Safety.StepKeepsBalance | core/syscall/sys_dup2.c:9-32 | from a balanced state any call completes and leaves a balanced state if and only if its condition holds |
| Safety.RunKeepsBalance | core/syscall/sys_dup.c:20-25 | over every safe run, with whatever free addresses kmalloc hands out, new or used before: no panic, no NULL pointer, no access to an object not in use but the load of `Release.ReadsFreedExactly`, and at the end each count is the number of slots plus the references lost |
| Safety.ShortRunsAreSafe | core/syscall/sys_dup.c:20-23 | in fewer than 2^32 - 32 (processes + 1) calls no count can wrap |
| Safety.InUseIffReachable | core/syscall/sys_close.c:22-23 | without lost references a file is in use exactly when a descriptor leads to it |
| Safety.NothingLeaks | core/syscall/sys_close.c:22-23 | when nothing was lost and no descriptor is left, no file object and no pipe inode is left |
| Descriptors.Dup2Aliasing | core/syscall/sys_dup2.c:25-32 | dup2 never frees the duplicated file; onto an alias it changes nothing; another file is freed exactly when newfd was its only reference |
| Descriptors.DupCloseRestores | core/syscall/sys_dup.c:20-25 | a successful dup followed by close of its result restores the state exactly |
| Descriptors.NestRestores | core/syscall/sys_close.c:12-25 | so does any well-nested sequence of such pairs |
| Descriptors.DupAnswers | core/syscall/sys_dup.c:17-25 | a non-negative answer of dup is a new descriptor of the file exactly when the table has a free slot |
| Descriptors.ReadAnswers | core/syscall/sys_read.c:14-27 | a non-negative answer of read is the number of bytes delivered exactly when the file has a read operation that does not fail before it sets the length (or no byte was asked for); otherwise the answer is the length asked for, or ERR_NOT_IMPL, and nothing is delivered |
| Answers.WriteToPipe | core/syscall/sys_write.c:26-30 | a write waits and changes nothing while the semaphore is held; else it stores all and answers the number of its bytes if text and bytes come to at most 4095, or fills the page and sleeps with the rest |
| Answers.ResumePipe | core/syscall/sys_write.c:26-30 | a write that wakes up goes on with the rest, and answers what it has stored before and now together |
| Answers.ReadFromPipe | core/syscall/sys_read.c:25-27 | a read delivers what is asked for or what there is, and at the end of the pipe answers 0 |
| Answers.ReadFromRandom | core/dev/char/urandom.c:19-28 | byte i is the output of the state i + 1 steps on, and the state moves on by len steps |
| Answers.CloseEnd | core/syscall/sys_close.c:22-25 | the last reference to an end with odd flags takes exactly one off the writers, with even flags one off the readers, and the inode goes with its last reference |
| Answers.CloseShared | core/syscall/sys_close.c:22-25 | closing one of several references only lowers the count |
| Answers.DupTakesLeast | core/syscall/sys_dup.c:20-25 | dup answers the first free slot, points it to the file and counts one more |
| Answers.Dup2OntoAlias | core/syscall/sys_dup2.c:25-32 | onto another descriptor of the same file dup2 changes nothing, whatever the count, because it takes the reference first |
| Answers.Dup2OntoFree | core/syscall/sys_dup2.c:25-32 | onto a free descriptor it shares the file and counts one more |
| Answers.FcntlByNumber | core/syscall/sys_fcntl.c:17-32 | request 1 answers the flags and changes nothing, request 2 sets them and nothing else, any other answers -11 |
| Answers.SetFlagsKeepsBalance | core/syscall/sys_fcntl.c:23-25 | setting flags keeps the balance exactly when the file is no pipe end or its flags stay odd or even |
| Answers.UnusedDescriptor | core/syscall/sys_dup2.c:9-23 | a descriptor that is not open: dup and dup2 answer -10, or -4 out of range; close, read and write -4; nothing changes |
| Answers.FcntlOutOfRange | core/syscall/sys_fcntl.c:13-15 | fcntl answers -4 to every int that is no index of the table |
| Answers.MissingOperation | core/syscall/sys_write.c:23-28 | writing to a random file answers -17; a file without the operation answers -11 to write and 11 to read |
| Answers.NothingToGive | core/syscall/sys_pipe.c:14-21 | pipe answers 3 on a full table and -10 without memory; open answers -10 without memory |
| Descriptors.PipeAllOrNothing | core/syscall/sys_pipe.c:14-57 | pipe succeeds or changes nothing exactly on its safe exits |
| Descriptors.PipeResidue | core/syscall/sys_pipe.c:14-57 | the exact table and heap each failing exit leaves behind |
| Failures.DupAnswersThreeTwice | core/syscall/sys_dup.c:21-25 | after one open, the third and the 32nd dup both answer 3 |
| Failures.CountWrapsToZero | core/syscall/sys_dup.c:20-23 | after 2^32 - 1 dups of one file, close panics |
| Failures.CountWrapsToOne | core/syscall/sys_dup.c:20-23 | after 2^32 dups, close frees the file, and fcntl on another of its descriptors goes through the freed object |
| Failures.PipeWithoutSecondSlot | core/syscall/sys_pipe.c:23-25 | with one free slot pipe answers 3, and closing that slot goes through an object never filled in |
| Failures.PipeLeavesFreedObject | core/syscall/sys_pipe.c:47-52 | after a failing second allocation descriptor 0 leads to a freed object |
| Failures.PipeLeavesRawObjects | core/syscall/sys_pipe.c:34-35 | after a failing inode descriptor 1 leads to an object never filled in |
| Failures.PipeFreesOpenFile | core/syscall/sys_pipe.c:47-52 | after a failing first allocation the file that was open on descriptor 0 is freed |
| Failures.RefusedReadAnswersLength | core/syscall/sys_read.c:25-27 | reading 100 bytes from a file whose operation refuses answers 100 and delivers nothing |
| Failures.FcntlOfNothing | core/syscall/sys_fcntl.c:13-20 | F_GETFD on a descriptor that is not open goes through NULL |
| Failures.BrokenPipePanics | core/syscall/sys_write.c:26 | pipe, close of the read end, write: panic |
| Failures.SleepingWriterPanics | core/syscall/sys_write.c:26 | a writer sleeps on a full pipe, another process closes the last read end: the writer panics when it wakes up |
| Failures.FlippedPipePanics | core/syscall/sys_fcntl.c:23-25 | from a balanced state, a run of pipe, F_SETFD and two closes that panics in the destructor |
| World.StepRefines | core/syscall/sys_dup2.c:25-32 | a safe call answers like the world without counts and leaves the view of its next state |
| World.RunRefines | core/syscall/sys_dup2.c:25-32 | over every safe run, answers, bytes and final state are those of the world without counts |
| Histories.SharedStream | core/syscall/sys_read.c:14-27 | all bytes read from one random file, through any aliases and among any other calls, until its address is handed out again, are one contiguous piece of its stream |
| Histories.UnreadStays | core/syscall/sys_read.c:14-27 | calls that do not read the file leave its state alone |
| Histories.SharedCensus | core/dev/char/urandom.c:21-25 | 2^32 bytes that any number of aliases read together meet the exact census |
| Histories.FlagsCohere | core/syscall/sys_fcntl.c:17-26 | over any run the flags of a file are those last set through any of its descriptors |
| Histories.GetReturnsLastSet | core/syscall/sys_fcntl.c:19-25 | F_GETFD returns the value last given to F_SETFD on the same file, or the initial flags |
| Histories.PipeIsQueue | core/syscall/sys_read.c:25-27 | over any run what is read from a pipe is a prefix of what it held and was given, the rest is what it holds, and it never holds a whole page |
| Writers.WritesStayWhole | core/syscall/sys_write.c:26-30 | over any run the bytes that enter a pipe are the rest of the sleeping write and then the whole texts of the writes that take the semaphore, in that order, up to what the last still has to write |
| Writers.RestComesNext | core/syscall/sys_write.c:26-30 | while a write sleeps, no other byte enters its pipe before the ones it has left |
| Writers.TextsArriveWhole | core/syscall/sys_write.c:26-30 | from a new pipe, through any descriptors, the texts of the writes are read one after the other, none torn apart by another |
| Writers.SleepingWritesCount | core/syscall/sys_write.c:26-30 | over any run, what a sleeping write has stored and what it has left are together the bytes it was called with |
| Writers.WritesAnswerTheirLength | core/syscall/sys_write.c:26-30 | a write to a pipe that returns answers the number of bytes it was called with, however often it has slept |
| Writers.SleepersKeepTheirPipe | core/syscall/sys_write.c:26-30 | over every safe run whoever sleeps in a write runs, sleeps in no other, and keeps a descriptor of the pipe, which stays in use |
| Kernel.UrandomOpen | core/dev/char/urandom.c:13-17 | the seed is the clock word |
| Kernel.UrandomRead | core/dev/char/urandom.c:19-28 | the buffer receives the next len bytes of the stream, the rest of it is unchanged, and the state moves on by len |
| Kernel.Kernel.MakePipeEnd | core/syscall/sys_pipe.c:37-38 | fills in a file object as an end with count 1 |
| Kernel.Kernel.SysDup | core/syscall/sys_dup.c:4-26 | in place, table, counts and answer become those of the function `DupKeepsBalance`, `DupCloseRestores` and `RunRefines` are about, and pipes stay untouched |
| Kernel.Kernel.SysDup2 | core/syscall/sys_dup2.c:4-33 | in place, reference first and release second, the inode loaded after the file is freed: table, files, pipes and answer become those of the function `Dup2Aliasing` and `RunRefines` are about |
| Kernel.Kernel.SysClose | core/syscall/sys_close.c:5-26 | in place, slot first and release second, the inode loaded after the file is freed: table, files, pipes and answer become those of the function `CloseEnd`, `CloseKeepsBalance` and `RunRefines` are about |
| Kernel.Kernel.SysFcntl | core/syscall/sys_fcntl.c:8-35 | in place, only the flags of the shared file object change, as in the function `FcntlByNumber`, `FlagsCohere` and `FcntlKeepsBalance` are about |
| Kernel.Kernel.SysRead | core/syscall/sys_read.c:7-28 | the buffer receives exactly the bytes of the function `SharedStream`, `PipeIsQueue` and `ReadAnswers` are about, the rest of it stays, and file and ring move on accordingly |
| Kernel.Kernel.SysWrite | core/syscall/sys_write.c:8-31 | semaphore, ring and answer become those of the function `WriteToPipe`, `WritesAnswerTheirLength` and `WritesStayWhole` are about; a writer that finds the semaphore taken changes nothing, and a pipe without read end panics |
| Kernel.Kernel.ResumeWrite | core/syscall/sys_write.c:26-30 | the sleeping write goes on in place: ring, semaphore and the answer for the whole write become those of the function `ResumePipe`, `WritesAnswerTheirLength` and `WritesStayWhole` are about |
| Kernel.Kernel.SysPipe | core/syscall/sys_pipe.c:7-59 | in place, for every answer of the three allocations: objects, table, and the two descriptors stored become those of the function `PipeAllOrNothing`, `PipeResidue` and `PipeSuccess` are about; on every failing exit the caller's array is as it was |
| Runs.Perform | core/syscall/sys_close.c:5-26 | a list of any calls of any processes, safe whatever kmalloc answers, is performed in place from a balanced state: the run is safe and completes, the objects end as the state machine says, the counts are the slots plus the references lost, and each caller gets the outcome and in its memory exactly the bytes that the world without counts gives it, and no others |

## Helpers, open, fork and exit

The helpers behind the calls, and `open`, `fork` and `exit`, are modelled statement by statement, too:

- `Accounting.CloseEndKeepsPipe` (core/fs/file.c:32-35, core/fs/pipe.c:30-47): releasing the last reference to a pipe end takes one end off the inode, which goes with its last end, and the destructor does not panic.
- `Safety.OpenKeepsBalance` (core/syscall/sys_open.c:96-108): the end of open always keeps the balance; a full table loses one reference.
- `Safety.ForkKeepsBalance` (core/fs/file.c:137-149): fork keeps the balance exactly when no entry of an earlier process is left where the parent has none and no count wraps.
- `Safety.ExitKeepsBalance` (core/syscall/sys_exit.c:9-50): exit releases every file of the process and keeps the balance, exactly when the caller is not the system task, for which it panics.
- `Answers.OpenTakesLeast` (core/fs/file.c:83-97, 164-166): the first free slot leads to a file with one reference and the flags given.
- `Descriptors.OpenAnswers` (core/syscall/sys_open.c:97-108): the same for open, which answers 0 on a full table.
- `Failures.OpenAnswersZeroTwice` (core/syscall/sys_open.c:97-108): opening two files, the second with a full table, answers 0 twice.
- `Failures.ForkInheritsFreedFile` (core/fs/file.c:137-149): a run of open, exit and fork after which a child closes a descriptor of a freed file.
- `PipeBuffer.PipeInode.LeftIsRoom` (include/core/fs/pipe.h:24-26): the unsigned difference is 0 exactly when no byte fits, and offsets are equal exactly when the pipe is empty.
- `PipeBuffer.PipeInode.GetC` (core/fs/pipe.c:10-18): takes the first byte of the text off the ring.
- `PipeBuffer.PipeInode.PutC` (core/fs/pipe.c:20-28): appends a byte to the text in the ring.
- `PipeBuffer.PipeInode.CopyOut` (core/fs/pipe.c:186-193): moves the longest prefix that fits the buffer, and touches nothing behind it.
- `PipeBuffer.PipeInode.CopyIn` (core/fs/pipe.c:207-223): appends the longest prefix for which there is room.
- `PipeBuffer.PipeInode.Write` (core/fs/pipe.c:197-229): the semaphore, the test for a reader and the loop up to the first sleep, as in the function `Writers.StepWrites` is about.
- `PipeBuffer.PipeInode.GoOn` (core/fs/pipe.c:207-229): the loop from one sleep to the next, and the semaphore given back at its end.
- `Kernel.Kernel.FoundFreeProcessFd` (core/fs/file.c:104-117): the loop finds the least NULL slot, and answers ERR_NOT_FOUND when there is none.
- `Kernel.Kernel.GetOpenFile` (core/fs/file.c:70-77): the range check, then the slot, possibly NULL.
- `Kernel.Kernel.RegisterOpenFile` (core/fs/file.c:83-97): stores the file in the least free slot, or nothing.
- `Kernel.Kernel.UnrefOpenFile` (core/fs/file.c:19-36): the count goes down by one; at zero the file is closed and freed, and the inode is then loaded from the freed file and released, as in the function `UnrefKeepsBalance` is about.
- `Kernel.Kernel.PipeCloseFile` (core/fs/pipe.c:30-47): the flags choose the counter that goes down, and the file is freed, as in the function `CloseEndKeepsPipe` is about.
- `Kernel.Kernel.UnrefPipeInode` (core/fs/inode.c:18-44): the inode goes with its last reference, and the destructor panics while an end is still counted.
- `Kernel.Kernel.SysOpen` (core/syscall/sys_open.c:96-108): a new file object, with the clock as the state of a random file, in the least free slot or in none, as in the function `OpenAnswers` is about.
- `Kernel.Kernel.DuplicateFdStruct` (core/fs/file.c:137-149): the loop shares the parent's files with the child and leaves the child's other entries, as in the function `ForkKeepsBalance` is about.
- `Kernel.Kernel.SysExit` (core/syscall/sys_exit.c:9-50): the panic of the system task, else the loop over the files, as in the function `ExitKeepsBalance` is about.
- `Kernel.Kernel.ExitFiles` (core/syscall/sys_exit.c:45-50): the loop releases every file and leaves the table.
- `Kernel.Kernel.InitFdStruct` (core/fs/file.c:42-48): the loop empties the table.
- `Kernel.Boot` (core/process/process.c:16-17): the kernel starts in a balanced state with every table empty.

## Left out

- Kernel.Kernel.SysRead: a read that waits for text, and a write that waits for the semaphore, have changed nothing and are made again; the model also lets the process do something else instead, which the code does not.
- Kernel.Kernel.SysOpen: path lookup, creation, truncation and the inode counts they change are not modelled; for files other than urandom and pipes (`Foreign`) what their operations deliver and return is arbitrary, and a read of them that sleeps counts as one call at its end.
- Kernel.Kernel.DuplicateFdStruct: pids, memory, registers and the choice of the process slot are not modelled; any unused slot may be taken.
- Wait queues, wake-ups and the scheduler: sleeping is the outcome `Blocked`, and any process may go on next.
- Inode counts of other inodes than pipes: their other holders are lookups and working directories; of their release only the load of the inode is modelled.
- `get_pipe_inode` with a failing allocation of its semaphore or wait queues, which it does not notice: they always succeed here.
- Reuse of a freed file object as a pipe inode or the other way round, and of chunks split or merged: addresses of the two kinds are apart. `Kernel.dfy` makes a new object for every allocation.
- Process numbers: the system task, pid 0, is the process in slot 0, and the counter of pids does not wrap.
- The clock: the seed of a random file is an arbitrary word.
- `chardev_close_file` failing because the driver was removed: no driver is ever unregistered.
- `printk` and `debugk` output.
- `stat`, `fstat`, `seek`, `readdir`, `ioctl` and the other calls on descriptors: single dispatches that do not touch tables or counts.
- ext2, ramdisk, block devices, the terminal, paging, signals and `exec`.

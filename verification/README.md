# RTno proxy and vendored logging: verified models

Dafny models of the stateful and arithmetic cores of this repository, with proofs of what they keep.

**The RTno serial stack.** `Packet`, `Transport`, `Protocol` and `Payload` follow the frame
`0x0a 0x0a`, command, result, length, data, 8-bit sum from the bytes on the line up to typed port
data: a resynchronising decoder, a retry loop around a multi-packet profile exchange, and the
fixed-buffer payloads. `Exchanges` tells whole exchanges by their bytes: what is sent, how often, what
stays unread, and what a profile holds. `EtherTcp` is the unlocked 256-slot ring that feeds the stream
from a second thread, stepped one memory access at a time.

**The asynchronous log queue.** `CircularQueue` is the ring over an array, proved against a bounded
sequence. `BlockingQueue` interleaves any number of threads over lock-protected bodies, condition
variables, spurious wake-ups, timeouts and notifies that come after the unlock; `QueueHistory` shows
that every such run is a run of one bounded queue. `ThreadPool` puts workers, posters and the
destructor on top. `Backtracer` is the other client of the ring.

**File rotation and line formatting.** `FileNames` and `Rotation` follow the rotation loop over an
abstract file system in which renames may fail. `PatternSyntax`, `Padding`, `LogFields`,
`PatternFormatter` and `TimeCache` cover the pattern language, padded fields, and the time caches over
whole runs; `LineLayout`, `FieldLayout` and `SpelledPatterns` read their texts back.

**Formatting arithmetic.** `Calendar` is one proleptic Gregorian day count for `IsoWeek` and
`GmtOffset`. `ParseInt` and `FormatString` hold the run-time format-string parser and the compiled
form: every string that the parser accepts compiles to the same output, and what compiles is accepted
unless a closing brace stands alone. `Words`, `TextStyle` and `PackedArgs` are the packed words, as
natural numbers with shifts, bit tests and a binary or.

Where the code works in place, the model is a class or a loop, and each method is proved to compute a
specification function; the results in the table are about those functions, over all inputs, runs or
interleavings.

## Where the code falls short of its promise

These are proved, each with the exact condition under which the code is right:

- `EtherTcp`: even if a push only starts at a backlog of at most 254, `get_buffer_size` reports 256
  for an empty ring while the writer stands between the increment and the wrap of its index; a reader
  that uses it may run ahead of the writer (`EtherTcp.WindowIsReachable`,
  `EtherTcp.SizeLoadKeepsOrderIff`).
- `EtherTcp::read` delivers more bytes than asked for when bytes arrive between its two loads of the
  size (`EtherTcp.ReadOverrunIsReachable`, `EtherTcp.ReadDeliversAtMostSizeIff`).
- `FMT_COMPILE` accepts a single `}` in text, which the run-time parser rejects
  (`FormatString.UnmatchedCloseCompiles`, `FormatString.CompiledIsAcceptedIff`).
- `rotate_now` leaves the size counter stale, so that later files are rotated too early
  (`Rotation.RotatesEarlyIff`, `Rotation.StaleCounterRotatesEarly`); the size bound itself survives.
- Integers of more than ten digits in format strings are errors even if leading zeros keep them
  small, and a padding width in a pattern wraps at 2^64 (`ParseInt.ParseNonnegativeInt`,
  `PatternSyntax.WidthIsIdealIff`).
- Week dates and UTC offsets are wrong for some days before year 1 (`IsoWeek.WeekDateCorrectIff`,
  `GmtOffset.OffsetIsTrueDifferenceIff`).
- Messages of second 0 are formatted with an all-zero time until another second has been seen
  (`TimeCache.SecondZeroIff`), and a full date that was cached while times were not computed stays for
  the rest of its second (`TimeCache.DateIsDirectIff`).
- The default pattern leaves out the brackets of a missing logger name or source, which the pattern
  that its comment spells it out as does not (`SpelledPatterns.DefaultIsSpelledIff`).
- A padded `%c` is one character too narrow on the first nine days of a month
  (`FieldLayout.PaddedLongDateIff`), and `%I`, documented as 1 to 12, shows midnight as 0
  (`FieldLayout.TwelveHoursIff`).
- Payload names of 128 bytes or more would come back as negative lengths; the 64-byte buffers keep
  callers below that (`Payload.PayloadRoundTripIff`).

## Model

The main results come first, then what they rest on, module by module.

| member | source | states |
|---|---|---|
| `BlockingQueue.NoLostWakeup` | thirdparty/spdlog-1.15.3/include/spdlog/details/mpmc_blocking_q.h:31-90 | in every reachable state of any number of threads: if a consumer sleeps, the stored items are at most the pending notifies plus the consumers about to look, and dually for sleeping producers and free slots |
| `BlockingQueue.FifoConservation` | thirdparty/spdlog-1.15.3/include/spdlog/details/mpmc_blocking_q.h:31-90 | in every reachable state: accepted items are the removed ones (taken or overrun) followed by the stored ones, in order; the overrun and discard counters are exact |
| `QueueHistory.RunsLinearize` | thirdparty/spdlog-1.15.3/include/spdlog/details/mpmc_blocking_q.h:31-90 | every run, told by where each thread stands before and after it held the lock, is a run of one bounded queue used by a single thread: it stores, forces, refuses or gives out exactly what that queue would, and ends with the same items, accepted, removed and rejected |
| `QueueHistory.RejectedWhenFull` | thirdparty/spdlog-1.15.3/include/spdlog/details/mpmc_blocking_q.h:49-64 | over every run, the rejected items are those of the enqueue_if_have_room calls that got the lock with the queue full, in order |
| `QueueHistory.OnlyNowaitOverruns` | thirdparty/spdlog-1.15.3/include/spdlog/details/mpmc_blocking_q.h:33-64 | in a run without enqueue_nowait nothing is overrun: every removed item was taken, and the overrun counter is 0 |
| `BlockingQueue.DeadlockIffNoCapacity` | thirdparty/spdlog-1.15.3/include/spdlog/details/mpmc_blocking_q.h:26-90 | two or more threads can deadlock on the queue exactly when its capacity is 0 |
| `BlockingQueue.MaximalRunServesEverybody` | thirdparty/spdlog-1.15.3/include/spdlog/details/mpmc_blocking_q.h:31-90 | where the threads on their own stop, from any reachable state, no consumer sleeps beside an item, no producer beside room, and with capacity there is no deadlock |
| `ThreadPool.ShutdownDrains` | thirdparty/spdlog-1.15.3/include/spdlog/details/thread_pool-inl.h:44-55 | when all joins have returned, in any interleaving: the queue is empty, each worker took exactly one terminate message and it was its last, and every accepted message was handled exactly once or had been overrun |
| `ThreadPool.ShutdownNeverStuck` | thirdparty/spdlog-1.15.3/include/spdlog/details/thread_pool-inl.h:44-55 | with room for at least one message, some thread can always move until the last join |
| `ThreadPool.ShutdownTerminates` | thirdparty/spdlog-1.15.3/include/spdlog/details/thread_pool-inl.h:44-55 | from every reachable state in which destruction has begun, every run is bounded, but for two steps per spurious wake-up, and one that nothing else can prolong has joined every worker |
| `EtherTcp.PacedRunsDeliverInOrder` | src/hal/EtherTcp.cpp:10-33 | over every interleaving in which a push starts at a backlog of at most 254 and no size is loaded while the write index stands at 256 and the read index at 0, popped bytes are a prefix of pushed bytes and the size is the backlog |
| `EtherTcp.SizeLoadKeepsOrderIff` | src/hal/EtherTcp.cpp:107-120 | from any safe state, after a load of the size every paced continuation keeps popped bytes a prefix of pushed bytes exactly if the load was not between the writer's increment to 256 and its wrap with the reader at 0, or its result is not used |
| `EtherTcp.WindowIsReachable` | src/hal/EtherTcp.cpp:10-33 | the backlog limit alone does not suffice: between the increment and the wrap of the write index a drained reader is told 256 bytes are there, and starts to read them |
| `EtherTcp.ReadDeliversAtMostSizeIff` | src/hal/EtherTcp.cpp:107-120 | because the size is loaded twice, a finished read that found at most n bytes has delivered the backlog at the first load plus what was pushed between the loads, so at most n exactly if that fits |
| `EtherTcp.ReadOverrunIsReachable` | src/hal/EtherTcp.cpp:107-120 | a paced run in which a read of one byte delivers two |
| `Transport.StreamRoundTrip` | src/rtno2proxy/transport.cpp:50-156 | any sequence of frames, some with a corrupted byte, comes out as exactly those packets in order, with a checksum error for each corrupted one |
| `Transport.SentIsReceived` | src/rtno2proxy/transport.cpp:50-156 | what any number of sends put on the line is received as exactly those packets, in order, up to 252 data bytes each |
| `Transport.ResyncIff` | src/rtno2proxy/transport.cpp:82-106 | noise before a frame is skipped exactly if it holds no pair and does not end in a marker |
| `Transport.NextPacketConsumes` | src/rtno2proxy/transport.cpp:30-156 | whatever arrives, every byte is either consumed once or still unread |
| `Protocol.ProfileIsWhatArrived` | src/rtno2proxy/protocol.cpp:99-184 | a profile is returned exactly if, after one of the allowed requests and silence after all earlier ones, it arrives: its ports are those decoded since that request, in order, before a GET_PROFILE |
| `Exchanges.ProfileAsSent` | src/rtno2proxy/protocol.cpp:99-184 | if after the k-th request, all earlier ones having met with silence, ports and unknown packets arrive and then GET_PROFILE, the profile holds exactly the type codes and names of those ports, in order |
| `Exchanges.ProfileOverTheLine` | src/rtno2proxy/protocol.cpp:99-184 | the same byte for byte: one request is sent, the frames of the ports and of GET_PROFILE are read, and the bytes behind them stay |
| `Exchanges.CommandMeaning` | src/rtno2proxy/protocol.cpp:191-244 | activate, deactivate and execute put exactly k copies of the six request bytes on the line, where the k-th request is the first to be accepted or the last allowed; they report OK exactly if it was accepted, and leave unread what its reply left |
| `Exchanges.QueryMeaning` | src/rtno2proxy/protocol.cpp:57-96 | the same of get_state and get_ec_type, whose answer is the first data byte of that reply |
| `Protocol.LastAttemptDecides` | src/rtno2proxy/protocol.cpp:99-169 | the exchange has the outcome of its last attempt, the first that did not meet with silence or the last allowed, and leaves the device as that attempt did |
| `Protocol.CommandOkIff` | src/rtno2proxy/protocol.cpp:191-244 | activate, deactivate and execute report OK exactly when one of the allowed requests drew an accepted reply |
| `Payload.EndToEnd` | src/rtno2proxy/protocol.cpp:267-295 | within the 64-byte buffers the data bytes always survive, despite the signed and unsigned conversions |
| `Payload.IntoVecRoundTrip` | include/rtno2/protocol.h:19-35 | encoded values come back in order and a partial element at the end is dropped |
| `FormatString.CompilationPreservesMeaning` | thirdparty/spdlog-1.15.3/include/spdlog/fmt/bundled/compile.h:217-428 | every string the run-time parser accepts compiles, to a tree that writes the same, index state included |
| `FormatString.CompiledIsAcceptedIff` | thirdparty/spdlog-1.15.3/include/spdlog/fmt/bundled/compile.h:354-415 | what compiles is accepted at run time exactly if no closing brace outside the fields, whose extent the text shows, stands alone |
| `FormatString.PrintedFormatMeans` | thirdparty/spdlog-1.15.3/include/spdlog/fmt/bundled/base.h:898-1647 | every combination of text, escapes, automatic and manual fields, with or without specifications, once printed, is formatted as it reads, or rejected for mixed or missing indices |
| `ParseInt.ParseNonnegativeInt` | thirdparty/spdlog-1.15.3/include/spdlog/fmt/bundled/base.h:1295-1316 | the wrapping loop returns the value of the digit run whenever an int can hold it and the error value otherwise, except exactly on runs of more than ten digits with a small value, which it reports as errors |
| `IsoWeek.WeekDateCorrect` | thirdparty/spdlog-1.15.3/include/spdlog/fmt/bundled/chrono.h:1203-1220 | from year 1 on, week year, week and weekday denote exactly the day, week 1 being the one with the first Thursday (section 7.27.3.5 of ISO/IEC 9899:2011) |
| `IsoWeek.WeekDateCorrectIff` | thirdparty/spdlog-1.15.3/include/spdlog/fmt/bundled/chrono.h:1193-1220 | over all years, the days with a wrong week date are exactly those before year 1 that the fields show to be in a week 53 |
| `GmtOffset.OffsetIsTrueDifferenceIff` | thirdparty/spdlog-1.15.3/include/spdlog/details/os-inl.h:274-296 | for all broken-down times the computed offset is the true difference in seconds exactly when the rounding errors of both years cancel |
| `TextStyle.PackedRefinesUnpacked` | thirdparty/spdlog-1.15.3/include/spdlog/fmt/bundled/color.h:264-357 | for every expression over fg, bg, emphases and or: the packed computation fails exactly when the unpacked one does, and else packs the same style |
| `TextStyle.OrIsMerge` | thirdparty/spdlog-1.15.3/include/spdlog/fmt/bundled/color.h:293-298 | the packed or is the merge of the styles, and reports an error exactly when a terminal colour meets a set one |
| `PackedArgs.GetAgreesWithList` | thirdparty/spdlog-1.15.3/include/spdlog/fmt/bundled/base.h:2581-2628 | looking any index up in the packed or unpacked form, with or without named arguments, gives what the plain list holds there, and no read leaves the arrays |
| `CircularQueue.RunConserves` | thirdparty/spdlog-1.15.3/include/spdlog/details/circular_q.h:46-93 | over every run: pushed items are the removed ones followed by the stored ones, and pushes == pops + size + overruns |
| `Backtracer.DumpShowsLastMessages` | thirdparty/spdlog-1.15.3/include/spdlog/details/backtracer-inl.h:30-61 | after any sequence of enables, disables, pushes and dumps, the buffer holds exactly the last min(n, k) of the k messages pushed since it was last emptied, in order |
| `Rotation.RotationShifts` | thirdparty/spdlog-1.15.3/include/spdlog/sinks/rotating_file_sink-inl.h:138-166 | a successful rotation is the right shift of the files with gaps, the last slot keeping its file if nothing moves in, file 0 empty, other files untouched |
| `Rotation.RunConserves` | thirdparty/spdlog-1.15.3/include/spdlog/sinks/rotating_file_sink-inl.h:73-166 | over any run in which rotations work: everything forgotten so far, followed by what the files hold, oldest first, is what they held at first followed by all messages |
| `Rotation.SizeBoundOverRuns` | thirdparty/spdlog-1.15.3/include/spdlog/sinks/rotating_file_sink-inl.h:43-125 | in every run, also after rotate_now and a lowered limit, a written message leaves file 0 at most max(limit, message length) long |
| `Rotation.CounterExceedsBy` | thirdparty/spdlog-1.15.3/include/spdlog/sinks/rotating_file_sink-inl.h:73-125 | after any run, by how much the counter exceeds the file: the lengths that rotate_now rotated away since it was last exact |
| `FileNames.CalcFilenameInjective` | thirdparty/spdlog-1.15.3/include/spdlog/sinks/rotating_file_sink-inl.h:54-64 | no two indices share a file name |
| `LineLayout.DateReadsBack` | thirdparty/spdlog-1.15.3/include/spdlog/pattern_formatter-inl.h:844-876 | the date of the default line has 21 characters, and its digits denote, in their places, year, month, day, hour, minute and second |
| `LineLayout.TailReadsBack` | thirdparty/spdlog-1.15.3/include/spdlog/pattern_formatter-inl.h:878-924 | after the date come the milliseconds in three digits, the name if there is one, the level, the base name and line of a known source, and the message |
| `SpelledPatterns.DefaultIsSpelledIff` | thirdparty/spdlog-1.15.3/include/spdlog/pattern_formatter-inl.h:837-925 | the default pattern writes the same as the pattern its comment spells out exactly for messages with a logger name and a source |
| `TimeCache.RunIsDirectIff` | thirdparty/spdlog-1.15.3/include/spdlog/pattern_formatter-inl.h:844-1001 | after any run of any calls, while times are computed: the messages that follow are formatted as if recomputed each time exactly if those up to the first change of the second render the same with the time and date they are given |
| `TimeCache.SecondZeroIff` | thirdparty/spdlog-1.15.3/include/spdlog/pattern_formatter-inl.h:844-993 | with any pattern that shows the time, custom flags included: a run from the start is as if recomputed each time exactly if its leading messages of second 0 render the same with the all-zero time |
| `TimeCache.DateIsDirectIff` | thirdparty/spdlog-1.15.3/include/spdlog/pattern_formatter-inl.h:844-1001 | after any run of any calls, a message under the default pattern is as if recomputed exactly unless the series of its second began while the time was off, with another date left over |
| `TimeCache.WarmIsDirect` | thirdparty/spdlog-1.15.3/include/spdlog/pattern_formatter-inl.h:844-1001 | after any run, from the first message outside second 0 on, the formatter's output is as if recomputed each time, unless a full date is shown that goes on from before and is not the second's own |
| `Padding.ExactField` | thirdparty/spdlog-1.15.3/include/spdlog/pattern_formatter-inl.h:42-90 | with an exact size the field appends max(width, size) characters, or width when truncating, justified on its side, and leaves earlier text alone |
| `PatternSyntax.PrintedCompiles` | thirdparty/spdlog-1.15.3/include/spdlog/pattern_formatter-inl.h:1260-1339 | printing tokens and compiling them again gives the same tokens |
| `PatternSyntax.CompiledIsCanonical` | thirdparty/spdlog-1.15.3/include/spdlog/pattern_formatter-inl.h:1260-1339 | every pattern compiles to tokens of the form that can be printed, with widths of at most 64 |
| `CircularQueue.CircularQ.Disabled` | thirdparty/spdlog-1.15.3/include/spdlog/details/circular_q.h:26 | a default-constructed queue is disabled and empty |
| `CircularQueue.CircularQ.WithCapacity` | thirdparty/spdlog-1.15.3/include/spdlog/details/circular_q.h:28-31 | room for exactly the given number of items; asking for SIZE_MAX wraps to a disabled queue |
| `CircularQueue.CircularQ.Copy` | thirdparty/spdlog-1.15.3/include/spdlog/details/circular_q.h:33 | a copy means the same queue and shares no storage |
| `CircularQueue.CircularQ.MoveFrom` | thirdparty/spdlog-1.15.3/include/spdlog/details/circular_q.h:101-112 | the target takes over the other queue's meaning, the source becomes disabled |
| `CircularQueue.CircularQ.PushBack` | thirdparty/spdlog-1.15.3/include/spdlog/details/circular_q.h:46-57 | appends, dropping the oldest item and counting an overrun when full; ignored when disabled |
| `CircularQueue.CircularQ.Front` | thirdparty/spdlog-1.15.3/include/spdlog/details/circular_q.h:61-63 | the oldest item |
| `CircularQueue.CircularQ.Size` | thirdparty/spdlog-1.15.3/include/spdlog/details/circular_q.h:66-72 | the number of stored items, across the wrap-around |
| `CircularQueue.CircularQ.At` | thirdparty/spdlog-1.15.3/include/spdlog/details/circular_q.h:76-79 | the i-th oldest item |
| `CircularQueue.CircularQ.PopFront` | thirdparty/spdlog-1.15.3/include/spdlog/details/circular_q.h:83 | removes the oldest item and nothing else |
| `CircularQueue.CircularQ.Empty` | thirdparty/spdlog-1.15.3/include/spdlog/details/circular_q.h:85 | true exactly when no item is stored |
| `CircularQueue.CircularQ.Full` | thirdparty/spdlog-1.15.3/include/spdlog/details/circular_q.h:87-93 | true exactly when an enabled queue holds as many items as it has room for |
| `CircularQueue.CircularQ.ResetOverrunCounter` | thirdparty/spdlog-1.15.3/include/spdlog/details/circular_q.h:97 | only the counter changes |
| `CircularQueue.SlotsPush` | thirdparty/spdlog-1.15.3/include/spdlog/details/circular_q.h:46-57 | storing at the tail and advancing is an append of the stored sequence, or an append that loses the first item, whatever the positions of the indices |
| `CircularQueue.WrapIsModulo` | thirdparty/spdlog-1.15.3/include/spdlog/details/circular_q.h:50 | the index arithmetic used is the source's modulo |
| `CircularQueue.PushAllKeepsLast` | thirdparty/spdlog-1.15.3/include/spdlog/details/circular_q.h:46-57 | k pushes into a fresh queue of capacity n keep exactly the last min(n, k), in order, and count the rest as overruns |
| `Backtracer.BacktracerT.Enable` | thirdparty/spdlog-1.15.3/include/spdlog/details/backtracer-inl.h:30-34 | a new empty buffer of the given size replaces the old one |
| `Backtracer.BacktracerT.Disable` | thirdparty/spdlog-1.15.3/include/spdlog/details/backtracer-inl.h:36-39 | the messages stay |
| `Backtracer.BacktracerT.Copy` | thirdparty/spdlog-1.15.3/include/spdlog/details/backtracer-inl.h:11-15 | flag and messages are copied, storage is not shared |
| `Backtracer.BacktracerT.PushBack` | thirdparty/spdlog-1.15.3/include/spdlog/details/backtracer-inl.h:43-46 | a push into the bounded buffer, whether or not tracing is enabled |
| `Backtracer.BacktracerT.Empty` | thirdparty/spdlog-1.15.3/include/spdlog/details/backtracer-inl.h:48-51 | true exactly when nothing is buffered |
| `Backtracer.BacktracerT.ForeachPop` | thirdparty/spdlog-1.15.3/include/spdlog/details/backtracer-inl.h:54-61 | the callback sees every buffered message once, oldest first, and the buffer ends up empty |
| `BlockingQueue.MpmcQueue.constructor` | thirdparty/spdlog-1.15.3/include/spdlog/details/mpmc_blocking_q.h:26-27 | an empty queue with room for the given number of items, or, for SIZE_MAX, a disabled one |
| `BlockingQueue.MpmcQueue.EnqueueLocked` | thirdparty/spdlog-1.15.3/include/spdlog/details/mpmc_blocking_q.h:33-57 | pushes exactly if there is room |
| `BlockingQueue.MpmcQueue.RunLocked` | thirdparty/spdlog-1.15.3/include/spdlog/details/mpmc_blocking_q.h:31-90 | the body of every call, on the real queue, is the locked step of the interleaving: same queue, same result, same place to go on |
| `BlockingQueue.MpmcQueue.EnqueueNowaitLocked` | thirdparty/spdlog-1.15.3/include/spdlog/details/mpmc_blocking_q.h:43-45 | always pushes, overrunning the oldest item if need be |
| `BlockingQueue.MpmcQueue.DequeueLocked` | thirdparty/spdlog-1.15.3/include/spdlog/details/mpmc_blocking_q.h:84-88 | takes the oldest item exactly if there is one |
| `BlockingQueue.MpmcQueue.CountDiscard` | thirdparty/spdlog-1.15.3/include/spdlog/details/mpmc_blocking_q.h:62 | the discard counter goes up by one |
| `BlockingQueue.NextInv` | thirdparty/spdlog-1.15.3/include/spdlog/details/mpmc_blocking_q.h:31-90 | every step of any thread keeps the invariant: items conserved, sleeping consumers and producers covered |
| `BlockingQueue.QuiescentSleepersMustSleep` | thirdparty/spdlog-1.15.3/include/spdlog/details/mpmc_blocking_q.h:31-90 | when all activity is over, a sleeping consumer means an empty queue and a sleeping producer a full one |
| `BlockingQueue.InternalRunsAreBounded` | thirdparty/spdlog-1.15.3/include/spdlog/details/mpmc_blocking_q.h:31-90 | from every reachable state, the threads on their own stop after a bounded number of steps under every schedule |
| `QueueHistory.RejectionStep` | thirdparty/spdlog-1.15.3/include/spdlog/details/mpmc_blocking_q.h:49-64 | a step rejects an item exactly if it is an enqueue_if_have_room that got the lock with the queue full, and then nothing stored, accepted or removed changes |
| `QueueHistory.CallsConserveItems` | thirdparty/spdlog-1.15.3/include/spdlog/details/mpmc_blocking_q.h:33-64 | over every run, each item that a call brought in is still in its caller's hands, or was accepted once, or was rejected once |
| `QueueHistory.ConsumersConserved` | thirdparty/spdlog-1.15.3/include/spdlog/details/mpmc_blocking_q.h:66-90 | over every run, each dequeue or dequeue_for still waits, or took exactly one item, or gave up after its deadline with the queue empty |
| `ThreadPool.NextInv` | thirdparty/spdlog-1.15.3/include/spdlog/details/thread_pool-inl.h:44-123 | every step of workers, posters and destructor keeps the invariant that ties terminate messages, handled messages and thread positions together |
| `ThreadPool.RemovedPartition` | thirdparty/spdlog-1.15.3/include/spdlog/details/thread_pool-inl.h:99-123 | each removed message went to exactly one place: one worker, or an overrun |
| `ThreadPool.AllExited` | thirdparty/spdlog-1.15.3/include/spdlog/details/thread_pool-inl.h:91-123 | all workers can only have exited if every terminate message is posted and taken and nothing is left |
| `ThreadPool.NoCapacityNeverShutsDown` | thirdparty/spdlog-1.15.3/include/spdlog/details/thread_pool-inl.h:44-55 | without any room no run ever joins a worker |
| `EtherTcp.RxRing.GetBufferSize` | src/hal/EtherTcp.cpp:27-33 | the number of unread bytes, as far as the indices tell |
| `EtherTcp.RxRing.Push` | src/hal/EtherTcp.cpp:10-16 | appends a byte; the 256th makes the ring look empty |
| `EtherTcp.RxRing.Pop` | src/hal/EtherTcp.cpp:18-25 | takes the oldest unread byte |
| `EtherTcp.RxRing.Read` | src/hal/EtherTcp.cpp:107-120 | with the socket thread quiet: the oldest bytes, as many as there are up to the given size |
| `EtherTcp.SizeExactIff` | src/hal/EtherTcp.cpp:27-33 | in every intermediate state of the two threads, exactly when the reported size is the true backlog |
| `EtherTcp.WindowLoadMisleads` | src/hal/EtherTcp.cpp:107-120 | a reader that loads the size in that window and goes on at once gives back a byte that was never sent |
| `EtherTcp.OverfilledLooksEmpty` | src/hal/EtherTcp.cpp:10-33 | at a backlog of 255 one more push makes 256 unread bytes invisible |
| `EtherTcp.OverfillIsReachable` | src/hal/EtherTcp.cpp:10-33 | a paced run reaches a backlog of 255, where one more push makes all bytes invisible |
| `EtherTcp.ReadOfPlentyDelivers` | src/hal/EtherTcp.cpp:107-120 | a finished read that found more than n bytes has delivered n |
| `Calendar.NewYearClosed` | thirdparty/spdlog-1.15.3/include/spdlog/details/os-inl.h:284-291 | the closed form of the day count equals the sum of the year lengths, for all years |
| `Calendar.YearUnique` | thirdparty/spdlog-1.15.3/include/spdlog/fmt/bundled/chrono.h:1193-1220 | years partition the days |
| `GmtOffset.OffsetIsTrueDifference` | thirdparty/spdlog-1.15.3/include/spdlog/details/os-inl.h:248-305 | from year 1 on the offset is the true difference, in seconds and in truncated minutes |
| `GmtOffset.CodeLeapYearsError` | thirdparty/spdlog-1.15.3/include/spdlog/details/os-inl.h:284-291 | the code's leap year count is short by one exactly in the years that OffByOne describes |
| `GmtOffset.OffsetFailsBeforeYearOne` | thirdparty/spdlog-1.15.3/include/spdlog/details/os-inl.h:274-296 | two adjacent days around the start of year -99 for which the offset is wrong |
| `IsoWeek.YearWeeksCorrect` | thirdparty/spdlog-1.15.3/include/spdlog/fmt/bundled/chrono.h:1193-1202 | from year 1 on the number of weeks is the number of Thursdays |
| `IsoWeek.WeekDateUnique` | thirdparty/spdlog-1.15.3/include/spdlog/fmt/bundled/chrono.h:1203-1220 | a day has at most one week date |
| `IsoWeek.IsLongIff` | thirdparty/spdlog-1.15.3/include/spdlog/fmt/bundled/chrono.h:1193-1202 | the test on the fields says of this year and the one before whether it has 53 weeks |
| `IsoWeek.OldLongWeekExists` | thirdparty/spdlog-1.15.3/include/spdlog/fmt/bundled/chrono.h:1193-1202 | 31 December of year -2 gets a wrong week date |
| `ParseInt.NoLeadingZeroIsIdeal` | thirdparty/spdlog-1.15.3/include/spdlog/fmt/bundled/base.h:1295-1316 | without a leading zero the result is the value whenever an int can hold it |
| `ParseInt.ElevenDigitZeroFails` | thirdparty/spdlog-1.15.3/include/spdlog/fmt/bundled/base.h:1295-1316 | eleven zeros are reported as an error |
| `FormatString.ArgIdIff` | thirdparty/spdlog-1.15.3/include/spdlog/fmt/bundled/base.h:1331-1357 | an index parses exactly if it is a number without leading zeros before a closing brace or a colon, to its value, or to INT_MAX if that is too large |
| `FormatString.ArgIdPrinted` | thirdparty/spdlog-1.15.3/include/spdlog/fmt/bundled/base.h:1331-1357 | a printed index is read back |
| `FormatString.ParseContext.NextArgId` | thirdparty/spdlog-1.15.3/include/spdlog/fmt/bundled/base.h:898-903 | counts up, unless manual indexing has begun |
| `FormatString.ParseContext.CheckArgId` | thirdparty/spdlog-1.15.3/include/spdlog/fmt/bundled/base.h:908-917 | switches to manual indexing, unless automatic indexing has begun |
| `FormatString.ParseFormatString` | thirdparty/spdlog-1.15.3/include/spdlog/fmt/bundled/base.h:1629-1647 | the loop writes exactly the replay of its events, or stops with the first error |
| `FormatString.ParseText` | thirdparty/spdlog-1.15.3/include/spdlog/fmt/bundled/compile.h:239-245 | the end of the maximal run of characters that are not braces |
| `FormatString.UnmatchedCloseCompiles` | thirdparty/spdlog-1.15.3/include/spdlog/fmt/bundled/compile.h:403-406 | a lone closing brace before other text compiles and is rejected at run time |
| `PackedArgs.TypeOfEncoded` | thirdparty/spdlog-1.15.3/include/spdlog/fmt/bundled/base.h:2317-2325 | shifting and masking the descriptor yields the type of the argument, and none behind the last |
| `PackedArgs.PackedDescriptor` | thirdparty/spdlog-1.15.3/include/spdlog/fmt/bundled/base.h:2597-2602 | up to 15 types and the named flag do not reach the unpacked bit |
| `PackedArgs.UnpackedDescriptor` | thirdparty/spdlog-1.15.3/include/spdlog/fmt/bundled/base.h:2603-2615 | the flags of an unpacked descriptor stay clear of its count |
| `TextStyle.ColorsOverflowIff` | thirdparty/spdlog-1.15.3/include/spdlog/fmt/bundled/color.h:264-298 | the sum of two colour words overflows its field exactly when the colours must not be combined |
| `TextStyle.PackRoundTrip` | thirdparty/spdlog-1.15.3/include/spdlog/fmt/bundled/color.h:313-333 | the getters return what was packed and both overflow bits are clear |
| `TextStyle.OverflowOfFields` | thirdparty/spdlog-1.15.3/include/spdlog/fmt/bundled/color.h:210-232 | bits 26 and 53 of a sum are set exactly by a carry out of the foreground or background |
| `Packet.PacketT.constructor` | include/rtno2/packet.h:53-62 | the buffer holds header and data |
| `Packet.PacketT.Assign` | include/rtno2/packet.h:38-40 | a packet is copied into a buffer of its own |
| `Packet.PacketT.GetPacketLength` | include/rtno2/packet.h:47 | the length that is sent, modulo 256 |
| `Packet.PacketT.GetSum` | include/rtno2/packet.h:50 | the total of the bytes that are sent, modulo 256 |
| `Packet.ShortBody` | include/rtno2/packet.h:43-49 | up to 252 data bytes the length does not wrap and everything is sent |
| `Packet.SumDetectsChange` | include/rtno2/packet.h:50 | a single changed byte changes the sum |
| `Packet.SumIsTotal` | include/rtno2/packet.h:50 | the sum is the unbounded total of the bytes, from zero on, modulo 256 |
| `Packet.FrameBytes` | src/rtno2proxy/transport.cpp:61-80 | up to 252 data bytes a frame is 0x0a, 0x0a, command, result, length, data, and the sum of all of these but the marker modulo 256 |
| `Transport.Transport.Read` | src/rtno2proxy/transport.cpp:30-48 | with a deadline: delivers exactly the requested bytes or times out and takes none |
| `Transport.Transport.ReadForever` | src/rtno2proxy/transport.cpp:30-48 | without one: returns exactly if enough bytes ever arrive, and then with the first of them |
| `Transport.Transport.Write` | src/rtno2proxy/transport.cpp:50-59 | appends all bytes in order |
| `Transport.Transport.Send` | src/rtno2proxy/transport.cpp:61-80 | writes the frame of the packet: byte by byte 0x0a, 0x0a, command, result, length, data and their sum without the marker, up to 252 data bytes |
| `Transport.Transport.IsNew` | src/rtno2proxy/transport.cpp:82-106 | the loop is the two-state scan |
| `Transport.Transport.Receive` | src/rtno2proxy/transport.cpp:108-156 | decodes one packet or reports where it timed out or that the sum is wrong |
| `Transport.ScanStopsAfterFirstPair` | src/rtno2proxy/transport.cpp:82-106 | the scan stops exactly behind the first adjacent marker pair |
| `Transport.ScanWithoutPairExpires` | src/rtno2proxy/transport.cpp:82-106 | without a pair it consumes everything and times out |
| `Transport.DecodeCorrupted` | src/rtno2proxy/transport.cpp:108-156 | one wrong command, result, data or sum byte yields a checksum error and leaves the rest of the stream alone |
| `Transport.FrameRoundTripIff` | src/rtno2proxy/transport.cpp:61-156 | a single frame is decoded to its packet exactly up to 252 data bytes |
| `Transport.CutFrameTimesOut` | src/rtno2proxy/transport.cpp:82-156 | a frame that is cut off times out with the code of the part that is missing, whose bytes stay unread |
| `Protocol.ProtocolT.SendRequest` | src/rtno2proxy/protocol.cpp:99-109 | a request without data is framed and sent |
| `Protocol.ProtocolT.GetProfile` | src/rtno2proxy/protocol.cpp:99-169 | the nested loops compute the profile exchange, and terminate on every input |
| `Protocol.ProtocolT.WaitAndReceiveCommand` | src/rtno2proxy/protocol.cpp:26-54 | the reply to a command, the result code of an error packet, or an error |
| `Protocol.ProtocolT.Command` | src/rtno2proxy/protocol.cpp:191-244 | the retry loop of activate, deactivate and execute |
| `Protocol.ProtocolT.Activate` | src/rtno2proxy/protocol.cpp:191-209 | the retry loop with ACTIVATE requests |
| `Protocol.ProtocolT.Deactivate` | src/rtno2proxy/protocol.cpp:211-226 | the retry loop with DEACTIVATE requests |
| `Protocol.ProtocolT.Execute` | src/rtno2proxy/protocol.cpp:228-244 | the retry loop with EXECUTE requests |
| `Protocol.ProtocolT.Query` | src/rtno2proxy/protocol.cpp:57-96 | the retry loop of get_state and get_ec_type |
| `Protocol.ProtocolT.GetState` | src/rtno2proxy/protocol.cpp:57-77 | the retry loop with GET_STATE requests |
| `Protocol.ProtocolT.GetEcType` | src/rtno2proxy/protocol.cpp:79-96 | the retry loop with GET_CONTEXT_TYPE requests |
| `Protocol.CollectMeaning` | src/rtno2proxy/protocol.cpp:108-166 | an attempt is decided by the first decoded packet that stops it, and its profile by the ports before that |
| `Protocol.SomeAttemptDecides` | src/rtno2proxy/protocol.cpp:99-169 | there is such an attempt; by its start exactly as many requests are sent, and nothing was read but a prefix of what arrives |
| `Protocol.RetriesIffSilence` | src/rtno2proxy/protocol.cpp:108-166 | an attempt is repeated exactly if nothing decoded ends it and then a wait runs out |
| `Protocol.SilenceTimesOut` | src/rtno2proxy/protocol.cpp:99-169 | a silent device draws retry_count requests and a timeout |
| `Protocol.ReplyIsOkIff` | src/rtno2proxy/protocol.cpp:26-54 | a reply counts as OK exactly if it decodes and is to the command, or is an error packet that says OK |
| `Protocol.QueryIsFirstAccepted` | src/rtno2proxy/protocol.cpp:57-96 | get_state and get_ec_type return the first data byte of the first accepted reply |
| `Protocol.QueryWithoutReply` | src/rtno2proxy/protocol.cpp:57-96 | get_state and get_ec_type report an error if none of the allowed requests drew an accepted reply |
| `Exchanges.CommandsOnTheLine` | src/rtno2proxy/protocol.cpp:57-244 | the six requests as they are on the line, byte for byte |
| `Exchanges.CommandAnswered` | src/rtno2proxy/protocol.cpp:191-244 | an intact answer to the first request is enough: six bytes are sent, one frame is read, the rest stays |
| `Exchanges.ReplyOnTheLine` | src/rtno2proxy/protocol.cpp:26-54 | a whole frame is the answer if it is to the command, and else the result code of an error packet, or an error; the bytes behind it stay |
| `Exchanges.BadPortIsOutOfContract` | src/rtno2proxy/protocol.cpp:179-184 | a port packet without data, or with more than the 64 bytes of the name buffer, is beyond what the code provides for |
| `Exchanges.CollectReceives` | src/rtno2proxy/protocol.cpp:108-166 | an attempt receives exactly the packets up to the one that ends it, or up to the first that does not decode |
| `Payload.FillSendBuffer` | src/rtno2proxy/protocol.cpp:247-255 | the 64-byte buffer starts with both lengths, the name and the data |
| `Payload.SendInportData` | src/rtno2proxy/protocol.cpp:247-265 | one SEND_DATA request is sent, byte for byte both lengths, the name and the data in their frame, and the reply's result returned |
| `Payload.ReceiveOutportData` | src/rtno2proxy/protocol.cpp:267-295 | one RECEIVE_DATA request is sent, byte for byte, and the reply decoded |
| `Payload.SendOutcomeOnTheLine` | src/rtno2proxy/protocol.cpp:258-265 | the reply's result field, whatever it says, or an error if the frame is not a SEND_DATA |
| `Payload.NeverMoreThanMax` | src/rtno2proxy/protocol.cpp:280-295 | no more bytes are copied than the caller has room for, and none exactly if more are announced |
| `Payload.PayloadRoundTripIff` | src/rtno2proxy/protocol.cpp:247-295 | a framed payload yields the same data bytes exactly if the name is shorter than 128 bytes |
| `Payload.IntoVec` | include/rtno2/protocol.h:25-35 | one value per whole element, each read at its own offset |
| `FileNames.SplitByExtension` | thirdparty/spdlog-1.15.3/include/spdlog/details/file_helper-inl.h:132-150 | both parts make up the name; there is an extension exactly if a dot starts one, and then it begins at that dot |
| `FileNames.DecimalValue` | thirdparty/spdlog-1.15.3/include/spdlog/sinks/rotating_file_sink-inl.h:54-64 | the index is printed so that it can be read back |
| `FileNames.CalcFilenameIs` | thirdparty/spdlog-1.15.3/include/spdlog/sinks/rotating_file_sink-inl.h:52-64 | index 0 is the name itself; any other goes, in decimal and after a dot, before the extension or to the end |
| `FileNames.CalcFilenameExample` | thirdparty/spdlog-1.15.3/include/spdlog/sinks/rotating_file_sink-inl.h:52-64 | logs/mylog.txt with index 3 is logs/mylog.3.txt |
| `Rotation.RotatingFileSink.Open` | thirdparty/spdlog-1.15.3/include/spdlog/sinks/rotating_file_sink-inl.h:26-49 | bad limits and a failed first rotation throw; otherwise the sink has the given limits and goes on where the file ends, which it creates if need be, touching no other |
| `Rotation.OpenedRotated` | thirdparty/spdlog-1.15.3/include/spdlog/sinks/rotating_file_sink-inl.h:26-49 | a sink that rotates when it is opened has moved the old log to slot 1 and every other file one slot up, and starts with an empty file and an empty counter |
| `Rotation.RotatingFileSink.RotateFiles` | thirdparty/spdlog-1.15.3/include/spdlog/sinks/rotating_file_sink-inl.h:138-166 | the loop of renames, each tried twice, then a fresh file 0 |
| `Rotation.RotatingFileSink.Log` | thirdparty/spdlog-1.15.3/include/spdlog/sinks/rotating_file_sink-inl.h:108-125 | rotates first if the estimate exceeds the limit and the file is not empty |
| `Rotation.RotatingFileSink.ChangeMaxSize` | thirdparty/spdlog-1.15.3/include/spdlog/sinks/rotating_file_sink-inl.h:78-84 | zero is refused and changes nothing; otherwise only the limit changes |
| `Rotation.RotatingFileSink.ChangeMaxFiles` | thirdparty/spdlog-1.15.3/include/spdlog/sinks/rotating_file_sink-inl.h:93-99 | more than 200000 is refused and changes nothing; otherwise only the number changes |
| `Rotation.RotationFails` | thirdparty/spdlog-1.15.3/include/spdlog/sinks/rotating_file_sink-inl.h:138-176 | a rotation that fails stops at some slot: those above have moved up, its own file is gone, those below are untouched, but file 0 and the counter are emptied |
| `Rotation.RotationConserves` | thirdparty/spdlog-1.15.3/include/spdlog/sinks/rotating_file_sink-inl.h:138-166 | read oldest first, a rotation forgets at most the text of the last slot |
| `Rotation.LogConserves` | thirdparty/spdlog-1.15.3/include/spdlog/sinks/rotating_file_sink-inl.h:108-125 | logging appends the message to that history, short of what a rotation forgets |
| `Rotation.OpKeepsBounds` | thirdparty/spdlog-1.15.3/include/spdlog/sinks/rotating_file_sink-inl.h:73-125 | every operation keeps the counter at or above the length of file 0; a failed one has left the files alone or file 0 empty |
| `Rotation.RotationWorksIff` | thirdparty/spdlog-1.15.3/include/spdlog/sinks/rotating_file_sink-inl.h:138-176 | a rotation succeeds exactly if, of as many renames as there are files to move, none fails twice |
| `Rotation.RotatesEarlyIff` | thirdparty/spdlog-1.15.3/include/spdlog/sinks/rotating_file_sink-inl.h:108-125 | after any run, a message rotates a file that had room for it exactly if that excess takes the room |
| `Rotation.CounterStaysExactIff` | thirdparty/spdlog-1.15.3/include/spdlog/sinks/rotating_file_sink-inl.h:73-125 | an exact counter stays exact under every operation but a rotate_now that works on a file that is not empty |
| `Rotation.StaleCounterRotatesEarly` | thirdparty/spdlog-1.15.3/include/spdlog/sinks/rotating_file_sink-inl.h:73-125 | rotate_now leaves the counter stale, and a later message then rotates although the file had room |
| `Padding.ScopedPadder.constructor` | thirdparty/spdlog-1.15.3/include/spdlog/pattern_formatter-inl.h:44-62 | the spaces that belong before the field are written, the rest is remembered |
| `Padding.ScopedPadder.Destroy` | thirdparty/spdlog-1.15.3/include/spdlog/pattern_formatter-inl.h:68-78 | pads to the right, or cuts the buffer when truncating, never below empty |
| `Padding.WriteField` | thirdparty/spdlog-1.15.3/include/spdlog/pattern_formatter-inl.h:109-112 | the padder around an appended body |
| `Padding.FieldLengthIff` | thirdparty/spdlog-1.15.3/include/spdlog/pattern_formatter-inl.h:42-90 | exactly which wrong sizes still give a field of the right length |
| `PatternSyntax.HandlePadspec` | thirdparty/spdlog-1.15.3/include/spdlog/pattern_formatter-inl.h:1260-1303 | side, width and truncation mark, and where the specification ends |
| `PatternSyntax.ReadWidth` | thirdparty/spdlog-1.15.3/include/spdlog/pattern_formatter-inl.h:1285-1289 | the digit loop computes the value modulo 2^64 |
| `PatternSyntax.WidthIsIdealIff` | thirdparty/spdlog-1.15.3/include/spdlog/pattern_formatter-inl.h:1285-1302 | the width is the number asked for, at most 64, except exactly where 64-bit wrapping brings it below 64 |
| `PatternSyntax.ShortWidthIsIdeal` | thirdparty/spdlog-1.15.3/include/spdlog/pattern_formatter-inl.h:1285-1302 | nineteen digits cannot wrap |
| `PatternSyntax.WideSpecFails` | thirdparty/spdlog-1.15.3/include/spdlog/pattern_formatter-inl.h:1285-1302 | a width of 2^64 + 1 is taken for 1 |
| `PatternSyntax.CompilePattern` | thirdparty/spdlog-1.15.3/include/spdlog/pattern_formatter-inl.h:1305-1339 | the loop splits a pattern into texts and flags |
| `PatternFormatter.FlagFormatter.Format` | thirdparty/spdlog-1.15.3/include/spdlog/pattern_formatter-inl.h:844-876 | the date text is recomputed exactly if the second changed or nothing is cached |
| `PatternFormatter.PatternFormatter.constructor` | thirdparty/spdlog-1.15.3/include/spdlog/pattern_formatter-inl.h:938-949 | all-zero time, empty caches, and the time needed exactly if a flag shows it |
| `PatternFormatter.PatternFormatter.Default` | thirdparty/spdlog-1.15.3/include/spdlog/pattern_formatter-inl.h:952-961 | one full formatter with an empty cache, all-zero time, and the time needed |
| `PatternFormatter.InitialDefault` | thirdparty/spdlog-1.15.3/include/spdlog/pattern_formatter-inl.h:938-961 | the pattern %+ gives the state of the constructor without a pattern |
| `PatternFormatter.PatternFormatter.SetPattern` | thirdparty/spdlog-1.15.3/include/spdlog/pattern_formatter-inl.h:995-999 | new formatters with empty caches; the cached time stays |
| `PatternFormatter.PatternFormatter.HandleFlag` | thirdparty/spdlog-1.15.3/include/spdlog/pattern_formatter-inl.h:1010-1254 | a flag becomes its formatters, custom ones first, an unknown one its text, with the special cases for a truncation mark |
| `PatternFormatter.PatternFormatter.AddFlag` | thirdparty/spdlog-1.15.3/include/spdlog/pattern_formatter.h:84-88 | a custom flag is known from the next compilation on |
| `PatternFormatter.PatternFormatter.NeedLocaltime` | thirdparty/spdlog-1.15.3/include/spdlog/pattern_formatter-inl.h:1001 | only the flag changes |
| `PatternFormatter.PatternFormatter.Format` | thirdparty/spdlog-1.15.3/include/spdlog/pattern_formatter-inl.h:978-993 | refreshes the time if the second changed, runs every formatter in order and appends the line end |
| `TimeCache.DateFitsIff` | thirdparty/spdlog-1.15.3/include/spdlog/pattern_formatter-inl.h:844-1001 | the date that the next message is given is its own exactly unless its series began while the time was off, with another |
| `TimeCache.CachesAreTransparent` | thirdparty/spdlog-1.15.3/include/spdlog/pattern_formatter-inl.h:844-1001 | in every run of any calls, the caches of all formatters refine one shared history: the time last computed, and the date that the current series of messages began with |
| `TimeCache.SwitchedOffDateStays` | thirdparty/spdlog-1.15.3/include/spdlog/pattern_formatter-inl.h:844-1001 | the output of a run with a wrong date: the time is switched off and on again within one second |
| `TimeCache.DefaultPatternIff` | thirdparty/spdlog-1.15.3/include/spdlog/pattern_formatter-inl.h:844-993 | with the default pattern a whole run is as if recomputed each time exactly if it is empty or does not start in second 0 |
| `LineLayout.BasenameIs` | thirdparty/spdlog-1.15.3/include/spdlog/pattern_formatter-inl.h:702-716 | the base name is what follows the last slash |
| `FieldLayout.NumbersReadBack` | thirdparty/spdlog-1.15.3/include/spdlog/pattern_formatter-inl.h:248-379 | the digits of the fields for year, month, day, hour, minute and second denote these |
| `FieldLayout.MessageReadsBack` | thirdparty/spdlog-1.15.3/include/spdlog/pattern_formatter-inl.h:103-439 | name, level and message are shown as they are; the milliseconds and the seconds since the epoch read back |
| `FieldLayout.SourceReadsBack` | thirdparty/spdlog-1.15.3/include/spdlog/pattern_formatter-inl.h:644-751 | a source is shown whole or in part, its line reads back, and an unknown one is not shown at all |
| `FieldLayout.LongDateIs` | thirdparty/spdlog-1.15.3/include/spdlog/pattern_formatter-inl.h:219-246 | the long date is weekday, month, day, clock and year, as their own fields show them but for the day, which is not padded |
| `FieldLayout.TwelveHoursIff` | thirdparty/spdlog-1.15.3/include/spdlog/pattern_formatter-inl.h:337-350 | the hour of a twelve-hour clock is shown as 1 to 12 exactly outside the hour of midnight, which is shown as 0 |
| `FieldLayout.CompoundFields` | thirdparty/spdlog-1.15.3/include/spdlog/pattern_formatter-inl.h:262-508 | the short date, the clock fields and the twelve-hour clock are made of the single fields |
| `FieldLayout.ShortNames` | thirdparty/spdlog-1.15.3/include/spdlog/pattern_formatter-inl.h:151-217 | the short names of days and months are the first three letters of the long ones |
| `FieldLayout.ClockSizeIff` | thirdparty/spdlog-1.15.3/include/spdlog/pattern_formatter-inl.h:153-508 | a time field has the size it declares, except the long date on a day of one digit and a two-digit year before 1900 with a sign and two digits |
| `FieldLayout.PaddedLongDateIff` | thirdparty/spdlog-1.15.3/include/spdlog/pattern_formatter-inl.h:219-246 | a padded long date has the right width exactly from the tenth of the month on, or where the width does not matter |
| `FieldLayout.FieldIsPadded` | thirdparty/spdlog-1.15.3/include/spdlog/pattern_formatter-inl.h:42-112 | a field that declares its size is written as it is, or justified or cut as its padding says, behind what was there before |
| `FieldLayout.ShowsTimeIff` | thirdparty/spdlog-1.15.3/include/spdlog/pattern_formatter-inl.h:1022-1160 | the flags whose text depends on the broken-down time are exactly the ones that ask for it, the full line and the time zone apart |
| `FieldLayout.TimelessIsDirect` | thirdparty/spdlog-1.15.3/include/spdlog/pattern_formatter-inl.h:978-993 | a pattern that asks for no time needs none: whatever the caches hold, its output is as if the time were computed |
| `SpelledPatterns.WovenPatternMeans` | thirdparty/spdlog-1.15.3/include/spdlog/pattern_formatter-inl.h:978-1339 | a pattern of texts and unpadded flags, once printed, compiled and run, writes each text and then the field its flag stands for |
| `SpelledPatterns.PercentAndColours` | thirdparty/spdlog-1.15.3/include/spdlog/pattern_formatter-inl.h:1167-1202 | a doubled percent sign is one, and the colour flags write nothing |
| `SpelledPatterns.CustomFlagFirst` | thirdparty/spdlog-1.15.3/include/spdlog/pattern_formatter-inl.h:1010-1019 | a flag of the user's own comes before the built-in one of that letter, and is handed its padding |
| `SpelledPatterns.TruncationMarkIsFlag` | thirdparty/spdlog-1.15.3/include/spdlog/pattern_formatter-inl.h:1234-1254 | a truncation mark before a letter that is no flag is taken for the function name, padded and not cut, and the letter stays |
| `SpelledPatterns.UnknownFlag` | thirdparty/spdlog-1.15.3/include/spdlog/pattern_formatter-inl.h:1234-1241 | a flag that stands for nothing appears as it is |

## Left out

- Sockets, termios, Windows COM code and the serial port classes: replaced by a device whose arrivals between deadlines are arbitrary.
- Transport.Transport.IsNew: it and `Receive` wait with deadlines; one without a deadline that gets its bytes is one whose deadline was late enough.
- The memory model of C++: the interleavings are sequentially consistent.
- BlockingQueue.NoLostWakeup: the threads run on a queue that was built with room for fewer than SIZE_MAX items; one built for SIZE_MAX comes out disabled.
- Protocol.ProtocolT.Query: a reply whose data is empty, and an error packet that carries the result OK, have an outcome of their own, because the code then reads a value that is not there.
- Payload.FillSendBuffer: names and data that overflow the 64-byte buffer are excluded.
- Packet.PacketT.Assign: assigning a packet to itself is excluded, because the code frees the buffer it then copies from.
- EtherTcp.RxRing.Read: for one thread at a time; what two threads do is stated on the step machine.
- Padding.WriteField: widths of more than 64, which the padding specification cannot produce, are excluded, because the padder has only 64 spaces.
- Padding.FieldLengthIff: a declared size so large that truncation reaches past the start of the buffer is excluded.
- PackedArgs.GetAgreesWithList: negative indices and counts of 2^31 or more are excluded.
- TimeCache.RunIsDirectIff: messages before the epoch are excluded.
- Rotation.RunConserves: runs in which a rename fails twice, or that change the number of files, are excluded; what one failed rotation leaves is in `Rotation.RotationFails`.
- PatternFormatter.PatternFormatter.HandleFlag: a custom flag formatter is a function of the buffer, the message and the time, without state of its own.
- The overrun and discard counters do not wrap at 64 bits.
- The MinGW variant of the queue, and exceptions thrown by callbacks on the worker threads.
- Failed or partial log writes, directory creation, other processes that touch the files, and folder separators of other systems.
- SpelledPatterns.WovenPatternMeans: the texts of the thread, process, fraction, function and time-zone flags are parameters.
- LineLayout.DateReadsBack: years outside of 1000 to 9999 are excluded, whose digits are not four.
- The state of the elapsed-time flags (u, i, o, O) and of the time-zone flag (z), the colour range of a message, and the mapped diagnostic context.
- Named arguments, widths and precisions taken from arguments, locales and wide characters in format strings; how an argument is written is a parameter, and so is how far its specification reaches.
- Integer overflow of the calendar computations for years near the limits of int, and the time-zone database.
- The command-line front end, the conversions of codes to strings, and the removal of profiles.

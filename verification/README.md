# Benchmark bookkeeping of pipebench, callbench, hackbench and pipe-latency

Four small Linux benchmark tools, modelled without their processes, threads, pipes and clocks.
What is left is their sequential logic. Each part is written as pure functions over integers and
option lists, or as small methods with loop invariants. C's integer semantics are written out:
unsigned arithmetic wraps modulo 2^32 or 2^64, a value stored in an `int` keeps its low 32 bits
as a two's-complement number, and `/` and `%` truncate toward zero.

- **pipebench** (`pipebench/pipebench.c`):
  - `unitify`: scales a 64-bit count to one of the seven prefixes `"" k M G T P E`, working in
    hundredths.
  - `time_diff`: subtracts two `timeval`s with a microsecond borrow and splits the difference
    into hours, minutes, seconds and centiseconds.
  - The `getopt` switch of `main`, as a fold over the options.
  - The `datalen`/`last_datalen`/`speed` counters of the copy loop.
- **callbench** (`callbench/callbench.c`):
  - `ts_to_ns` and the `-1` sentinel of `default_arg`.
  - `run_bench_ns`. The two clock readings around each loop become an entry of a rounds × loops
    matrix of elapsed times, so the function is a minimum over rows, a truncating division by
    the call count, and a minimum over rounds.
  - The `-m` mode fold of `parse_args`.
  - The sections `main` prints.
- **hackbench** (`hackbench/hackbench.c`):
  - The child table that `group` and `main` fill, slot by slot.
  - The number of packets each receiver waits for, against what the senders write.
  - The partial `read`/`write` loops. The bytes each call moves come from an oracle.
  - The readiness barrier of `main`.
  - `reap_workers`.
  - The `getopt_long` fold.
- **pipe-latency** (`pipe-latency/pipe-latency.c`):
  - The hand-written `parse_options`.
  - The wiring of the two pipes between the two workers.
  - The reads and writes each `worker_thread` issues.

The shared modules are:

- `CInt`: `unsigned` wrap-around and C division.
- `Atoi`: `atoi` as a sign-and-digits decimal parse, following section 7.22.1.2 of ISO/IEC 9899:2011.
- `Folds`: the last, first or any occurrence of an option in a list.

## Model

| member | source | states |
|---|---|---|
| CInt.CDiv | pipebench/pipebench.c:143-147 | C's `/` truncates toward zero. For a positive divisor the quotient brackets the dividend from below when it is non-negative and from above when it is negative. |
| CInt.Int32 | pipebench/pipebench.c:271-274 | Conversion to a 32-bit `int` reduces modulo 2^32 into -2^31 .. 2^31 - 1, and leaves a value that already fits unchanged. |
| CInt.CDivNegativeDivisor | callbench/callbench.c:163 | Dividing by a negative number, as `best_ns2 /= calls` does after `-c -2`, gives the negated quotient by the number's magnitude, so the result still truncates toward zero. |
| CInt.CRem | pipebench/pipebench.c:145-146 | C's `%` is the remainder that goes with the truncating quotient. It is smaller than the divisor in magnitude and is zero or has the dividend's sign. |
| Atoi.AtoiReadsDecimal | pipe-latency/pipe-latency.c:61 | `atoi` reads back any integer written in decimal and stops at the first non-digit, so "100k" reads as 100. |
| Atoi.AtoiWithoutDigits | pipe-latency/pipe-latency.c:61 | A string with no digit after the blanks and the optional sign reads as 0. |
| PipebenchUnits.Unitify | pipebench/pipebench.c:77-117 | Without units the raw count is kept. With units the prefix index is always inside the seven-entry table. For the bases that cannot wrap, the hundredths never overstate the input and are less than one unit below it. An input of at most `nunit` is kept unscaled as 100·input. A scaled value lies in 100..100·nunit. |
| PipebenchUnits.ProgramBasesAreWrapFree | pipebench/pipebench.c:302-308 | The two bases the program passes, 1000 and 1024, are ones for which no multiplication of `unitify` wraps 64 bits. |
| PipebenchUnits.ScaleLoop | pipebench/pipebench.c:102-105 | The scaling loop ends for every base of at least 2. The value only shrinks and the prefix only grows. |
| PipebenchUnits.ScaleDown | pipebench/pipebench.c:102-105 | The `while (in > 100*nunit)` loop stops at no more than 100 units of the reached prefix, never raises the value and never lowers the prefix. When `100*nunit` does not wrap, hundredths that represented the input before the loop still represent it after, within one unit below and never above. |
| PipebenchUnits.ClampPrefix | pipebench/pipebench.c:109-112 | After the clamp the prefix is inside the table. A prefix that was already inside is left alone together with its value. A prefix past the table becomes the last entry, `E`, and the value is multiplied by the base modulo 2^64 once for every prefix given up. |
| PipebenchUnits.WrapFreeScaling | pipebench/pipebench.c:97-112 | For a wrap-free base the first step and the scaling loop never overstate the input. The loop stops at no more than 100 units with a prefix inside the table, so the clamp never fires. |
| PipebenchUnits.FirstStepScales | pipebench/pipebench.c:97-101 | The optional first division and the ×100 step give hundredths that represent the input without wrapping. |
| PipebenchUnits.ScaleLoopKeepsScaling | pipebench/pipebench.c:102-105 | Every turn of the scaling loop keeps the hundredths within one unit below the input and never above it. The loop ends at no more than 100·nunit. |
| PipebenchUnits.PrefixFits | pipebench/pipebench.c:109-113 | For a wrap-free base, a representation with at least 100 hundredths can only use a prefix inside the table, so `units[e]` is in bounds. |
| PipebenchTime.Borrow | pipebench/pipebench.c:136-141 | The borrow preserves the difference in microseconds and gives a normalised result for normalised inputs. |
| PipebenchTime.TimeDiff | pipebench/pipebench.c:132-150 | Hours, minutes and seconds recombine to the whole seconds of the difference. Minutes and seconds are within ±59 and share the difference's sign. For normalised inputs the centiseconds are 0..99 and truncate the microseconds. |
| PipebenchTime.TimeDiffShowsElapsed | pipebench/pipebench.c:136-147 | The printed fields, read back as microseconds, are never above the true elapsed time and less than 10 000 µs below it. |
| PipebenchOptions.ParseFromIsExpected | pipebench/pipebench.c:196-239 | The `getopt` loop equals a per-option description. The first `-h` returns 0 and the first unknown option returns 1. Otherwise: the last `-s`/`-S` names the status file and only `-S` appends; `-q`/`-Q` set quiet; `-Q`, `-o` and `-r` clear the summary; `-r` clears the fancy line; `-I` selects 1000; `-u` turns units off; the last `-b` sets the buffer size. |
| PipebenchOptions.LastStatusOptionWins | pipebench/pipebench.c:221-228 | Of `-S a -s b` and `-s a -S b` the later option wins, and only a final `-S` appends. |
| PipebenchMeter.FreadCount | pipebench/pipebench.c:271-281 | The `size_t` count `fread` returns is kept in `int n`. A count up to INT_MAX is unchanged, and a larger one below 2^32 becomes that count minus 2^32, a negative number. A count that narrows to -1 is taken for a failed read: the `continue` makes that turn add nothing and skip the check for a second change. |
| PipebenchMeter.RunTracksTotals | pipebench/pipebench.c:271-314 | After any sequence of reads, whatever their `int n`: `datalen` is the sum of what the turns added modulo 2^64, `last_datalen` is that sum at the last second change, and `speed` is what was added between the last two second changes. A turn whose `n` is -1 adds nothing and is not checked for a second change. |
| PipebenchMeter.FeedTracks | pipebench/pipebench.c:271-314 | One turn of the copy loop keeps the counters equal to those sums, including a turn that is skipped or adds a negative `n`. |
| PipebenchMeter.QuietFeedTracks | pipebench/pipebench.c:274-281 | A turn that is skipped, or has no second change, moves `datalen` by what it adds, modulo 2^64, and leaves the other counters alone. |
| PipebenchMeter.TickFeedTracks | pipebench/pipebench.c:281-314 | A turn with a second change keeps the counters equal to the sums: `last_datalen` and `speed` now refer to the change this turn makes, and the previous change becomes the one before it. |
| PipebenchMeter.TickFeedCounters | pipebench/pipebench.c:312-314 | At a second change, `datalen` and `last_datalen` both become the running sum modulo 2^64. `speed` becomes what was added since the previous change, also modulo 2^64, and this holds for negative additions too. |
| PipebenchMeter.RunWithoutWrap | pipebench/pipebench.c:271-314 | When every read fits an `int` and fewer than 2^64 bytes pass, nothing wraps. `datalen` is the number of bytes read, `last_datalen` never exceeds it, and `speed` is exactly the bytes read between the two last second changes. |
| PipebenchMeter.SkippedReadIsLost | pipebench/pipebench.c:271-279 | A read of 2^32 - 1 bytes, possible with `-b -1`, narrows to -1 and is taken for an error. It leaves every counter as it was. |
| PipebenchMeter.LargeReadCountsBackwards | pipebench/pipebench.c:271-281 | A first read of 3000000000 bytes, possible with `-b -1294967296`, is added as -1294967296, leaving `datalen` at 2^64 - 1294967296. |
| CallbenchTiming.TsToNs | callbench/callbench.c:55-57 | For a normalised timespec the nanosecond count divides back into its seconds and nanoseconds. |
| CallbenchTiming.FromNsTsToNs | callbench/callbench.c:55-57 | Converting a normalised timespec to nanoseconds and back gives it back. |
| CallbenchTiming.TsToNsFromNs | callbench/callbench.c:55-57 | Every nanosecond count is the conversion of a normalised timespec, so differences of conversions are exact gaps. |
| CallbenchTiming.TsToNsMonotone | callbench/callbench.c:155-157 | On normalised timespecs the conversion is strictly monotone in (seconds, nanoseconds) order. In both directions, `elapsed_ns` is positive exactly when the second reading is later. |
| CallbenchTiming.DefaultArgSettles | callbench/callbench.c:186-188 | With a default other than -1 the result is never the sentinel, and defaulting again changes nothing. |
| CallbenchTiming.Better | callbench/callbench.c:158-160 | The kept time is no more than either candidate and is one of them. |
| CallbenchTiming.RunBenchNs | callbench/callbench.c:139-175 | With no rounds the result is LONG_MAX. Otherwise it is the best per-call time over the rounds and never more than any round's best divided by `calls`. |
| CallbenchTiming.BestOfRound | callbench/callbench.c:144-161 | The inner loop leaves a value that is at most LONG_MAX and at most every elapsed time of the round. It is one of those times unless it is still the LONG_MAX it started from. |
| CallbenchTiming.RowBestIsMinimum | callbench/callbench.c:146-161 | A round's best is one of its elapsed times and no elapsed time is smaller. |
| CallbenchTiming.MatrixBestIsMinimum | callbench/callbench.c:143-167 | The smallest elapsed time of the whole benchmark is one of them and no other is smaller. |
| CallbenchTiming.BenchBestIsQuotientOfMinimum | callbench/callbench.c:143-174 | With at least one round and loop and a positive call count, the result is the smallest elapsed time of all divided by `calls`. |
| CallbenchOptions.ModeFlags | callbench/callbench.c:306-320 | `-m` is accepted exactly for "time", "file" and "all". They select (true, false), (false, true) and (true, true). |
| CallbenchOptions.ParseFromIsExpected | callbench/callbench.c:295-332 | `parse_args` equals a per-option description. `-h`, an unknown option or an invalid mode anywhere exits with status 1. Otherwise the last valid `-m` decides both flags and the last `-c`, `-l` and `-r` set the counts. |
| CallbenchOptions.Plan | callbench/callbench.c:353-363 | The time section appears iff `do_time`, the separating newline iff both flags are set, and the file section iff `do_file`, in that order. Nothing else is printed: each entry is one of those three, and there is one entry per condition that holds. Each section uses its own defaults for -1: 100000/32/5 for time, 100/128/5 for files. |
| CallbenchOptions.NoOptionsRunsEverything | callbench/callbench.c:344-363 | Without options both benchmarks run with their defaults, separated by a newline. |
| CallbenchOptions.ZeroCallsReachDivision | callbench/callbench.c:321-323 | `-c 0` passes `parse_args`, and both sections then run rounds with zero calls, which reach `best_ns2 /= calls`. |
| HackbenchLayout.PacketsAsWrittenFallsShort | hackbench/hackbench.c:213 | With 20 descriptors and `-l 300000000` the `unsigned int` product gives 1705032704 packets, while the corrected count is 6000000000. |
| HackbenchLayout.Group | hackbench/hackbench.c:199-245 | The `num_fds` receivers come first, each waiting for `num_fds * loops` packets computed in `unsigned int`. Then come the `num_fds` senders, all sharing one list of every receiver's pipe. The result is `num_fds * 2` in `unsigned int`. Without wrap-around the group fills exactly the slots `tab_offset .. tab_offset + 2·num_fds - 1`, in order. |
| HackbenchLayout.SpawnAll | hackbench/hackbench.c:314-319 | `total_children` ends equal to the printed task count and to the `calloc` size. When the number of children fits an `unsigned int`, they occupy exactly slots 0 .. total - 1, so every slot is inside the table. |
| HackbenchLayout.AddGroup | hackbench/hackbench.c:316-319 | One turn of the group loop adds `2·num_fds` children and advances the total modulo 2^32. If no wrap occurs, the numbering continues without gaps. |
| HackbenchLayout.TotalIsTaskCount | hackbench/hackbench.c:298-304 | The printed task count `num_groups * (num_fds * 2)` and the `calloc` element count `num_fds * 2 * num_groups` are the same `unsigned int`. |
| HackbenchLayout.MessagesPerReceiver | hackbench/hackbench.c:125-134 | In a group whose slots do not wrap, the senders write exactly `num_fds · loops` messages to each receiver's pipe. |
| HackbenchLayout.ReceiversGetWhatSendersWrite | hackbench/hackbench.c:206-235 | In a group whose slots do not wrap, each receiver waits for the number of messages written to its pipe reduced modulo 2^32. That is never more than the messages written, and equals them exactly when `num_fds · loops` fits an `unsigned int`. |
| HackbenchLayout.CorrectedReceiversGetAll | hackbench/hackbench.c:213 | With the count computed as `unsigned long`, every receiver waits for exactly the messages written to its pipe, for all `unsigned int` descriptor and loop counts. |
| HackbenchLayout.SendersWrite | hackbench/hackbench.c:125-134 | `n` senders that each write once per round to every listed pipe deliver `n * loops` messages to a pipe listed once. |
| HackbenchLayout.SlotsDistinct | hackbench/hackbench.c:206-223 | Without wrap-around, each receiver's pipe appears exactly once in the senders' list. |
| HackbenchLayout.AwaitReady | hackbench/hackbench.c:328-331 | The barrier opens exactly when at least `total_children` readiness bytes were written, having read `total_children` of them. |
| HackbenchLayout.StartUp | hackbench/hackbench.c:314-337 | Every child writes one readiness byte and `main` reads `total_children` of them, then writes exactly one wake byte. All bytes are read exactly when the count does not wrap. |
| HackbenchTransfer.AsInt | hackbench/hackbench.c:128 | `(int)datasize` is the size itself up to INT_MAX and negative above it. |
| HackbenchTransfer.Transfer | hackbench/hackbench.c:127-132 | `done` stays within 0..datasize. A completed transfer moved exactly `datasize` bytes, or nothing when the size exceeds INT_MAX. A failed one stops at the first call that returned a negative value. If every call moves at least one byte, the transfer completes in at most `datasize` calls. |
| HackbenchTransfer.ReapWorkers | hackbench/hackbench.c:177-196 | With `dokill`, SIGTERM goes to every child in table order. In process mode the result counts children that did not exit normally up to the first ECHILD. In thread mode it counts failed joins. It never exceeds `totchld`. |
| HackbenchTransfer.AbnormalSnoc | hackbench/hackbench.c:187-191 | One more reaped child adds one to the count exactly when it did not exit normally. |
| HackbenchTransfer.AbnormalStopsAt | hackbench/hackbench.c:189-190 | Nothing `wait` reports after the first ECHILD is counted. |
| HackbenchTransfer.FailedJoinsSnoc | hackbench/hackbench.c:192-193 | One more join adds one to the count exactly when it failed. |
| HackbenchTransfer.NoFailuresMeansAllWell | hackbench/hackbench.c:177-196 | In both directions, the count is 0 exactly when every child reaped before the first ECHILD exited normally, and in thread mode exactly when every join succeeded. |
| HackbenchOptions.ParseFromIsExpected | hackbench/hackbench.c:266-296 | The `getopt_long` loop equals a per-option description. `-h` or an unknown option anywhere exits, and no exit has a status other than 1. Otherwise `-p` and `-F` switch their flags on, the last `-s`, `-l`, `-g` and `-f` set the counts as `unsigned int`, and the last of `-T`/`-P` decides `process_mode`. |
| HackbenchOptions.NoOptionsKeepsDefaults | hackbench/hackbench.c:33-39 | Without options: sockets, 100-byte messages, 100 loops, 10 groups of 20 descriptors, processes, no FIFO scheduling. |
| HackbenchOptions.LastModeOptionWins | hackbench/hackbench.c:290-291 | `-T -P` runs processes and `-P -T` runs threads. |
| HackbenchOptions.HelpExitsWithOne | hackbench/hackbench.c:293 | `-h` anywhere, even after valid options, ends in `print_usage`'s `exit(1)`. |
| PipeLatency.NoArgumentsKeepsDefaults | pipe-latency/pipe-latency.c:46-48 | Without arguments: 1000000 loops between two processes. |
| PipeLatency.ParseFromAppend | pipe-latency/pipe-latency.c:57-74 | Parsing is a left fold over whole options. After a prefix that parses, the rest continues from that prefix's settings. |
| PipeLatency.LoopTakesValue | pipe-latency/pipe-latency.c:59-61 | `-l`/`--loop` with a value sets `loops` to its `atoi` and consumes both arguments. |
| PipeLatency.LastLoopWins | pipe-latency/pipe-latency.c:58-61 | After any options that parse, a final `-l value` decides `loops` and leaves `threaded` alone. |
| PipeLatency.TrailingLoopFails | pipe-latency/pipe-latency.c:62-66 | `-l`/`--loop` as the last argument exits with status 1 after the missing-value error. |
| PipeLatency.UnknownArgumentFails | pipe-latency/pipe-latency.c:69-72 | Any other argument exits with status 1, whatever follows it. |
| PipeLatency.ThreadedSticks | pipe-latency/pipe-latency.c:67-68 | `-T`/`--threaded` switches to threads and leaves `loops` alone. |
| PipeLatency.ValueIsNeverAnOption | pipe-latency/pipe-latency.c:59-61 | The value after `-l` is consumed whatever it looks like, so `-l -T` gives 0 loops and no threads. |
| PipeLatency.Wire | pipe-latency/pipe-latency.c:120-129 | Thread 0 reads pipe 1 and writes pipe 2, and thread 1 the reverse. Each reads the pipe the other writes, and neither reads a pipe it writes. |
| PipeLatency.WorkerOps | pipe-latency/pipe-latency.c:83-105 | A worker issues `loops` rounds of one read and one write of `sizeof(int)` bytes. Thread 0 reads first and thread 1 writes first, always on its own read and write ends. |
| PipeLatency.AlternatingHalfReads | pipe-latency/pipe-latency.c:88-102 | Operations alternating between reads and writes are exactly half reads. |
| PipeLatency.WorkerCounts | pipe-latency/pipe-latency.c:88-102 | Each worker performs exactly `loops` reads and `loops` writes. None are performed when `loops` is not positive. |

## Left out

- Processes, threads, pipes, socket pairs, `poll`, signals, `setjmp`/`longjmp`, `sched_setscheduler`, and the real `read`/`write`/`fread`/`fwrite` are concurrency and operating-system I/O. Their results appear as inputs instead: chunk sizes, byte-count oracles, `wait`/`pthread_join` results and readiness bytes.
- Clocks and sleeps (`gettimeofday`, `clock_gettime`, `nanosleep`, `ctime`) are inputs: `timeval`/`timespec` values, or the matrix of elapsed times.
- Floating point and output formatting are left out. This covers `unitify`'s `in/100.0` and `%7.*f`, pipebench's summary rate, and hackbench's and pipe-latency's elapsed-time reports. The model keeps the integer hundredths and fields that are printed.
- PipebenchUnits.Unitify: the exact representation properties are stated only for bases for which no multiplication wraps 64 bits. For any other base only the table bound and the 64-bit range are stated. The only bases the program uses, 1000 and 1024, are of the first kind.
- PipebenchTime.TimeDiff: the `(int)` casts of the printed fields are not modelled. They only matter for differences of more than 2^31 hours.
- PipebenchMeter.Feed: a turn with `n == -1` is modelled as the `continue` without `-e`, as a turn that adds 0 and sees no second change. With `-e` the program returns 1 instead, an I/O error path that is not modelled. The `fread` count itself is an input, and `FreadCount` narrows it to `int` as the loop does.
- The pipebench status-file `fopen` failure, the `malloc`-halving retry loop and the `errout` early returns are I/O error paths and are left out.
- Atoi.Atoi: the value is the exact one. The C function's behaviour is undefined when the value does not fit an `int`, and that case is not modelled.
- CallbenchTiming.TsToNs: the 64-bit `long` overflow of `tv_sec * NS_PER_SEC` is not modelled. It needs a single reading whose `tv_sec` is about 292 years past the clock's origin, because each reading is converted on its own before the subtraction.
- CallbenchTiming.RunBenchNs: when a round runs it requires `calls != 0`, because the division by zero in C has no defined result. CallbenchOptions.ZeroCallsReachDivision shows that `-c 0` reaches that division.
- The callbench microbenchmark bodies and the platform `#if` selection are bare system calls with no logic.
- HackbenchTransfer.Transfer: a call that keeps returning 0 makes the C loop spin forever. The model makes at most `budget` calls and then reports `Unfinished`.
- HackbenchTransfer.ReapWorkers: a `wait` that fails with an error other than ECHILD is not modelled. Its `status` would be stale.
- HackbenchLayout.SpawnAll: the slot layout is stated only when the number of children fits an `unsigned int`. For larger counts only the lengths and the wrapped totals are stated.
- HackbenchLayout.Group: the exact slot range is stated only when `tab_offset + 2·num_fds` does not wrap. The slots are still given modulo 2^32 in every case.
- The `malloc`/`calloc` failure panics, `fdpair` failures and the handles `create_worker` returns are left out. A child is identified by its slot.
- PipeLatency.WorkerOps: every operation moves exactly `sizeof(int)` bytes, taken as 4. A short transfer stops the program in `BUG_ON`, which is not modelled as an outcome.
- The usage texts and every `printf` are left out. An exit is modelled by its status, plus whether pipe-latency printed the missing-value error.
- The `syscall` and `brk` programs are kernel and allocator probes with no logic of their own.

## Findings

| source | as written | input that shows it | evidently intended | confidence | as-written member | corrected member |
|---|---|---|---|---|---|---|
| hackbench/hackbench.c:213 | `ctx->num_packets = num_fds * loops` is computed in `unsigned int` and wraps modulo 2^32 | `-l 300000000` with the default 20 descriptors: each receiver expects 1705032704 packets, but its 20 senders write 6000000000 messages to it | each receiver reads one message from every sender of its group in every round, `num_fds · loops` in all | not executed | HackbenchLayout.ReceiversGetWhatSendersWrite | HackbenchLayout.CorrectedReceiversGetAll |

`HackbenchLayout.Group` follows the code: its receivers wait for `HackbenchLayout.PacketsAsWritten`, the wrapped product.
`HackbenchLayout.ReceiversGetWhatSendersWrite` proves that this count falls short of the messages written exactly when the product exceeds 2^32 - 1.
`HackbenchLayout.PacketsAsWrittenFallsShort` gives the concrete input.
`HackbenchLayout.PacketsCorrected` computes the count as `unsigned long`.
`HackbenchLayout.CorrectedReceiversGetAll` proves that receivers given that count read every message.

/**
 * pipe-latency's bookkeeping: `parse_options`, which walks argv by hand,
 * the table that wires two pipes between the two workers, and the reads
 * and writes each `worker_thread` performs. The pipes, the fork or the
 * threads and the clock are left out; a worker is the list of operations
 * it issues, each of which must move exactly `sizeof(int)` bytes or the
 * program stops in `BUG_ON`.
 */
module PipeLatency {

  import Atoi

  const LOOPS_DEFAULT: int := 1000000

  /** `sizeof(int)` on the platforms the benchmark targets. */
  const INT_SIZE: nat := 4

  datatype Config = Config(loops: int, threaded: bool)

  /**
   * The end of `parse_options`: either the settings, or `exit(1)` after the
   * usage text, preceded by an error line when `-l` had no value.
   */
  datatype Parsed = Run(config: Config) | Exit(status: int, missingValue: bool)

  const Defaults := Config(LOOPS_DEFAULT, false)

  /** How the `strcmp` chain classifies one argument. */
  datatype ArgKind = LoopFlag | ThreadedFlag | Other

  function Classify(arg: string): (k: ArgKind)
    ensures k == LoopFlag <==> arg == "-l" || arg == "--loop"
    ensures k == ThreadedFlag <==> arg == "-T" || arg == "--threaded"
  {
    if arg == "-l" || arg == "--loop" then LoopFlag
    else if arg == "-T" || arg == "--threaded" then ThreadedFlag
    else Other
  }

  /**
   * The `for (i = 1; i < argc; i++)` loop from some argument on: -l/--loop
   * takes the next argument as its value whatever it looks like, and
   * -T/--threaded takes none.
   */
  function ParseFrom(args: seq<string>, c: Config): Parsed
    decreases |args|
  {
    if |args| == 0 then Run(c)
    else match Classify(args[0])
      case LoopFlag =>
        if 1 < |args| then ParseFrom(args[2..], c.(loops := Atoi.Atoi(args[1])))
        else Exit(1, true)
      case ThreadedFlag => ParseFrom(args[1..], c.(threaded := true))
      case Other => Exit(1, false)
  }

  /** `parse_options(argc, argv)`: `argv[0]` is the program name and is skipped. */
  function ParseOptions(argv: seq<string>): Parsed {
    if |argv| == 0 then Run(Defaults) else ParseFrom(argv[1..], Defaults)
  }

  /** With no arguments, one million loops between two processes. */
  lemma NoArgumentsKeepsDefaults(prog: string)
    ensures ParseOptions([prog]) == Run(Config(1000000, false))
  {
  }

  /**
   * Parsing is a left fold over whole options: once a prefix parses, the
   * rest continues from the settings the prefix produced.
   */
  lemma {:induction false} ParseFromAppend(a: seq<string>, b: seq<string>, c: Config)
    requires ParseFrom(a, c).Run?
    ensures ParseFrom(a + b, c) == ParseFrom(b, ParseFrom(a, c).config)
    decreases |a|
  {
    if |a| > 0 {
      match Classify(a[0])
      case LoopFlag =>
        assert (a + b)[2..] == a[2..] + b;
        ParseFromAppend(a[2..], b, c.(loops := Atoi.Atoi(a[1])));
      case ThreadedFlag =>
        assert (a + b)[1..] == a[1..] + b;
        ParseFromAppend(a[1..], b, c.(threaded := true));
      case Other =>
    } else {
      assert a + b == b;
    }
  }

  /** A -l or --loop with a value sets `loops` to its `atoi` and uses up both arguments. */
  lemma LoopTakesValue(flag: string, value: string, rest: seq<string>, c: Config)
    requires flag == "-l" || flag == "--loop"
    ensures ParseFrom([flag, value] + rest, c) == ParseFrom(rest, c.(loops := Atoi.Atoi(value)))
  {
    assert ([flag, value] + rest)[2..] == rest;
  }

  /** After any options that parse, a final -l or --loop with its value decides `loops`. */
  lemma LastLoopWins(before: seq<string>, flag: string, value: string)
    requires flag == "-l" || flag == "--loop"
    requires ParseFrom(before, Defaults).Run?
    ensures var r := ParseFrom(before + [flag, value], Defaults);
            r.Run? && r.config.loops == Atoi.Atoi(value)
            && r.config.threaded == ParseFrom(before, Defaults).config.threaded
  {
    ParseFromAppend(before, [flag, value], Defaults);
    LoopTakesValue(flag, value, [], ParseFrom(before, Defaults).config);
  }

  /** A -l or --loop with nothing after it exits with status 1 and the missing-value error. */
  lemma TrailingLoopFails(before: seq<string>, flag: string)
    requires flag == "-l" || flag == "--loop"
    requires ParseFrom(before, Defaults).Run?
    ensures ParseFrom(before + [flag], Defaults) == Exit(1, true)
  {
    ParseFromAppend(before, [flag], Defaults);
  }

  /** An argument that is neither option, wherever the options before it leave off, exits with status 1. */
  lemma UnknownArgumentFails(before: seq<string>, arg: string, after: seq<string>)
    requires Classify(arg) == Other
    requires ParseFrom(before, Defaults).Run?
    ensures ParseFrom(before + [arg] + after, Defaults) == Exit(1, false)
  {
    assert before + [arg] + after == before + ([arg] + after);
    ParseFromAppend(before, [arg] + after, Defaults);
  }

  /** -T or --threaded switches to threads and leaves `loops` alone, wherever it appears. */
  lemma ThreadedSticks(before: seq<string>, flag: string)
    requires flag == "-T" || flag == "--threaded"
    requires ParseFrom(before, Defaults).Run?
    ensures ParseFrom(before + [flag], Defaults) == Run(ParseFrom(before, Defaults).config.(threaded := true))
  {
    ParseFromAppend(before, [flag], Defaults);
  }

  /** The value after -l is never read as an option: `-l -T` gives 0 loops, not threads. */
  lemma ValueIsNeverAnOption(prog: string)
    ensures ParseOptions([prog, "-l", "-T"]) == Run(Config(0, false))
  {
    var args := ["-l", "-T"];
    assert [prog, "-l", "-T"][1..] == args;
    assert Atoi.Atoi("-T") == 0 by {
      var v := "-T";
      assert !Atoi.IsSpace(v[0]);
      assert Atoi.SkipSpace(v) == v;
      assert v[1..] == "T" && !Atoi.IsDigit(v[1..][0]);
      Atoi.AtoiWithoutDigits(v);
    }
    assert Classify(args[0]) == LoopFlag;
    assert args[2..] == [];
  }

  /** One end of one of the two pipes: `pipe_1[0]` is `End(1, true)`. */
  datatype End = End(pipe: nat, readSide: bool)

  /** The `nr`, `pipe_read` and `pipe_write` of a `struct thread_data`. */
  datatype ThreadData = ThreadData(nr: nat, pipeRead: End, pipeWrite: End)

  /**
   * The wiring loop of `main` for its two threads: thread 0 reads pipe 1 and
   * writes pipe 2, thread 1 writes pipe 1 and reads pipe 2. Each reads from
   * the read side of the pipe the other writes into, and no thread reads a
   * pipe it writes.
   */
  method Wire() returns (threads: seq<ThreadData>)
    ensures |threads| == 2
    ensures forall t :: 0 <= t < 2 ==> threads[t].nr == t
    ensures threads[0].pipeRead == End(1, true) && threads[0].pipeWrite == End(2, false)
    ensures threads[1].pipeRead == End(2, true) && threads[1].pipeWrite == End(1, false)
    ensures forall t :: 0 <= t < 2 ==> threads[t].pipeRead.readSide && !threads[t].pipeWrite.readSide
    ensures forall t :: 0 <= t < 2 ==> threads[t].pipeRead.pipe == threads[1 - t].pipeWrite.pipe
    ensures forall t :: 0 <= t < 2 ==> threads[t].pipeRead.pipe != threads[t].pipeWrite.pipe
  {
    var nrThreads := 2;
    threads := [];
    var t := 0;
    while t < nrThreads
      invariant 0 <= t <= nrThreads && |threads| == t
      invariant forall u :: 0 <= u < t ==> threads[u].nr == u
      invariant t > 0 ==> threads[0] == ThreadData(0, End(1, true), End(2, false))
      invariant t > 1 ==> threads[1] == ThreadData(1, End(2, true), End(1, false))
    {
      if t == 0 {
        threads := threads + [ThreadData(t, End(1, true), End(2, false))];
      } else {
        threads := threads + [ThreadData(t, End(2, true), End(1, false))];
      }
      t := t + 1;
    }
  }

  /** One system call of a worker, with the number of bytes it must move. */
  datatype Op = Read(from: End, bytes: nat) | Write(to: End, bytes: nat)

  /** The number of times `for (int i = 0; i < loops; i++)` runs. */
  function Trips(loops: int): nat {
    if loops < 0 then 0 else loops
  }

  /**
   * `worker_thread(td)`: `loops` rounds of one read from `pipe_read` and one
   * write to `pipe_write`, each of `sizeof(int)` bytes; thread 0 reads
   * first and every other thread writes first.
   */
  method WorkerOps(td: ThreadData, loops: int) returns (ops: seq<Op>)
    ensures |ops| == 2 * Trips(loops)
    ensures forall k :: 0 <= k < |ops| ==> ops[k].bytes == INT_SIZE
    ensures forall k :: 0 <= k < |ops| ==> (ops[k].Read? <==> (k % 2 == 0) == (td.nr == 0))
    ensures forall k :: 0 <= k < |ops| ==> (ops[k].Read? ==> ops[k].from == td.pipeRead)
    ensures forall k :: 0 <= k < |ops| ==> (ops[k].Write? ==> ops[k].to == td.pipeWrite)
  {
    ops := [];
    var i := 0;
    while i < loops
      invariant 0 <= i && (loops >= 0 ==> i <= loops) && (loops < 0 ==> i == 0)
      invariant |ops| == 2 * i
      invariant forall k :: 0 <= k < |ops| ==> ops[k].bytes == INT_SIZE
      invariant forall k :: 0 <= k < |ops| ==> (ops[k].Read? <==> (k % 2 == 0) == (td.nr == 0))
      invariant forall k :: 0 <= k < |ops| ==> (ops[k].Read? ==> ops[k].from == td.pipeRead)
      invariant forall k :: 0 <= k < |ops| ==> (ops[k].Write? ==> ops[k].to == td.pipeWrite)
    {
      if td.nr == 0 {
        ops := ops + [Read(td.pipeRead, INT_SIZE), Write(td.pipeWrite, INT_SIZE)];
      } else {
        ops := ops + [Write(td.pipeWrite, INT_SIZE), Read(td.pipeRead, INT_SIZE)];
      }
      i := i + 1;
    }
  }

  /** The reads among `ops`. */
  function Reads(ops: seq<Op>): nat {
    if |ops| == 0 then 0 else Reads(ops[..|ops| - 1]) + (if ops[|ops| - 1].Read? then 1 else 0)
  }

  /**
   * Operations that alternate between reads and writes, as a worker's do,
   * are half reads and half writes: every worker performs exactly `loops`
   * reads and `loops` writes.
   */
  lemma {:induction false} AlternatingHalfReads(ops: seq<Op>, readsFirst: bool)
    requires |ops| % 2 == 0
    requires forall k :: 0 <= k < |ops| ==> (ops[k].Read? <==> (k % 2 == 0) == readsFirst)
    ensures 2 * Reads(ops) == |ops|
    decreases |ops|
  {
    if |ops| > 0 {
      var init := ops[..|ops| - 2];
      assert ops[..|ops| - 1][..|ops| - 2] == init;
      AlternatingHalfReads(init, readsFirst);
    }
  }

  /** Each worker issues `loops` reads and `loops` writes, `sizeof(int)` bytes apiece. */
  method WorkerCounts(td: ThreadData, loops: int) returns (readCount: nat, writeCount: nat)
    ensures readCount == Trips(loops) && writeCount == Trips(loops)
  {
    var ops := WorkerOps(td, loops);
    AlternatingHalfReads(ops, td.nr == 0);
    readCount := Reads(ops);
    writeCount := |ops| - readCount;
  }
}

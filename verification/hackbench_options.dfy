/**
 * hackbench's command line: the `getopt_long` loop of `main` with the
 * option string "ps:l:g:f:TPFh", as a fold over the options getopt has
 * already split out. -h prints the usage and exits with status 1, and so
 * does anything getopt does not recognise.
 */
module HackbenchOptions {

  import opened CInt
  import opened Folds
  import Atoi

  /**
   * One option: -p/--pipe, -s/--datasize n, -l/--loops n, -g/--groups n,
   * -f/--fds n, -T/--threads, -P/--processes, -F/--fifo, -h/--help, and
   * getopt's '?' as `Unknown`.
   */
  datatype Opt =
    | Pipe | DataSize(arg: string) | Loops(arg: string) | Groups(arg: string) | Fds(arg: string)
    | Threads | Processes | Fifo | Help | Unknown

  /** The file-scope settings the options change. */
  datatype Config = Config(
    usePipes: bool,
    datasize: nat,
    loops: nat,
    numGroups: nat,
    numFds: nat,
    processMode: bool,
    useFifo: bool)

  datatype Parsed = Run(config: Config) | Exit(status: int)

  /** The initialisers of the file-scope variables. */
  const Defaults := Config(
    usePipes := false, datasize := 100, loops := 100, numGroups := 10,
    numFds := 20, processMode := true, useFifo := false)

  /** One case of the switch; the counts go through `atoi` into an `unsigned int`. */
  function Apply(c: Config, o: Opt): Parsed {
    match o
    case Pipe => Run(c.(usePipes := true))
    case DataSize(arg) => Run(c.(datasize := Wrap32(Atoi.Atoi(arg))))
    case Loops(arg) => Run(c.(loops := Wrap32(Atoi.Atoi(arg))))
    case Groups(arg) => Run(c.(numGroups := Wrap32(Atoi.Atoi(arg))))
    case Fds(arg) => Run(c.(numFds := Wrap32(Atoi.Atoi(arg))))
    case Threads => Run(c.(processMode := false))
    case Processes => Run(c.(processMode := true))
    case Fifo => Run(c.(useFifo := true))
    case Help => Exit(1)
    case Unknown => Exit(1)
  }

  /** The `while (1)` loop: options left to right until one exits. */
  function ParseFrom(c: Config, opts: seq<Opt>): Parsed
    decreases |opts|
  {
    if |opts| == 0 then Run(c)
    else match Apply(c, opts[0])
      case Run(c') => ParseFrom(c', opts[1..])
      case Exit(status) => Exit(status)
  }

  function Parse(opts: seq<Opt>): Parsed {
    ParseFrom(Defaults, opts)
  }

  predicate Stops(o: Opt) { o.Help? || o.Unknown? }
  predicate IsPipe(o: Opt) { o.Pipe? }
  predicate IsFifo(o: Opt) { o.Fifo? }
  predicate IsDataSize(o: Opt) { o.DataSize? }
  predicate IsLoops(o: Opt) { o.Loops? }
  predicate IsGroups(o: Opt) { o.Groups? }
  predicate IsFds(o: Opt) { o.Fds? }
  predicate ChoosesMode(o: Opt) { o.Threads? || o.Processes? }

  /** The count the last option of a kind sets, as an `unsigned int`; `p` picks options that carry one. */
  function LastCount(opts: seq<Opt>, p: Opt -> bool, otherwise: nat): nat
    requires forall o :: p(o) ==> o.DataSize? || o.Loops? || o.Groups? || o.Fds?
  {
    match LastWhere(opts, p)
    case Some(o) => Wrap32(Atoi.Atoi(o.arg))
    case None => otherwise
  }

  /**
   * The settings the loop ends with when nothing exits, stated per option:
   * -p and -F switch their flag on for good, the last -s, -l, -g and -f set
   * the counts, and the last of -T and -P decides the mode.
   */
  function Settings(c: Config, opts: seq<Opt>): Config {
    Config(
      usePipes := c.usePipes || AnyWhere(opts, IsPipe),
      datasize := LastCount(opts, IsDataSize, c.datasize),
      loops := LastCount(opts, IsLoops, c.loops),
      numGroups := LastCount(opts, IsGroups, c.numGroups),
      numFds := LastCount(opts, IsFds, c.numFds),
      processMode := match LastWhere(opts, ChoosesMode)
                     case Some(o) => o.Processes?
                     case None => c.processMode,
      useFifo := c.useFifo || AnyWhere(opts, IsFifo))
  }

  function Expected(c: Config, opts: seq<Opt>): Parsed {
    if AnyWhere(opts, Stops) then Exit(1) else Run(Settings(c, opts))
  }

  /**
   * The getopt loop computes `Expected`: -h or an unknown option anywhere
   * exits with status 1; otherwise each setting is decided by the options of
   * its own kind alone, the last of -T/-P choosing between threads and
   * processes. No option makes the loop exit with a status other than 1.
   */
  lemma {:induction false} ParseFromIsExpected(c: Config, opts: seq<Opt>)
    ensures ParseFrom(c, opts) == Expected(c, opts)
    ensures ParseFrom(c, opts).Exit? ==> ParseFrom(c, opts).status == 1
    decreases |opts|
  {
    if |opts| > 0 {
      var o, rest := opts[0], opts[1..];
      assert opts == [o] + rest;
      AnyWhereCons(o, rest, Stops);
      if !Stops(o) {
        ParseFromIsExpected(Apply(c, o).config, rest);
        SettingsStep(c, o, rest);
      }
    }
  }

  /** An option that does not exit moves the settings the way `Settings` counts it. */
  lemma SettingsStep(c: Config, o: Opt, rest: seq<Opt>)
    requires !Stops(o)
    ensures Apply(c, o).Run?
    ensures Settings(c, [o] + rest) == Settings(Apply(c, o).config, rest)
  {
    var c' := Apply(c, o).config;
    ApplyByField(c, o);
    FlagStep(c, o, rest);
    CountStep(o, rest, IsDataSize, c.datasize, c'.datasize);
    CountStep(o, rest, IsLoops, c.loops, c'.loops);
    CountStep(o, rest, IsGroups, c.numGroups, c'.numGroups);
    CountStep(o, rest, IsFds, c.numFds, c'.numFds);
  }

  /** The effect of one option that does not exit, field by field. */
  lemma ApplyByField(c: Config, o: Opt)
    requires !Stops(o)
    ensures Apply(c, o).Run?
    ensures var c' := Apply(c, o).config;
            && c'.usePipes == (c.usePipes || IsPipe(o))
            && c'.datasize == (if IsDataSize(o) then Wrap32(Atoi.Atoi(o.arg)) else c.datasize)
            && c'.loops == (if IsLoops(o) then Wrap32(Atoi.Atoi(o.arg)) else c.loops)
            && c'.numGroups == (if IsGroups(o) then Wrap32(Atoi.Atoi(o.arg)) else c.numGroups)
            && c'.numFds == (if IsFds(o) then Wrap32(Atoi.Atoi(o.arg)) else c.numFds)
            && c'.processMode == (if ChoosesMode(o) then o.Processes? else c.processMode)
            && c'.useFifo == (c.useFifo || IsFifo(o))
  {
  }

  lemma FlagStep(c: Config, o: Opt, rest: seq<Opt>)
    requires !Stops(o)
    ensures Apply(c, o).Run?
    ensures var c', s := Apply(c, o).config, Settings(c, [o] + rest);
            && s.usePipes == (c'.usePipes || AnyWhere(rest, IsPipe))
            && s.useFifo == (c'.useFifo || AnyWhere(rest, IsFifo))
            && s.processMode == (match LastWhere(rest, ChoosesMode)
                                 case Some(o') => o'.Processes?
                                 case None => c'.processMode)
  {
    AnyWhereCons(o, rest, IsPipe);
    AnyWhereCons(o, rest, IsFifo);
    LastWhereCons(o, rest, ChoosesMode);
  }

  lemma CountStep(o: Opt, rest: seq<Opt>, p: Opt -> bool, before: nat, after: nat)
    requires forall o :: p(o) ==> o.DataSize? || o.Loops? || o.Groups? || o.Fds?
    requires p(o) ==> after == Wrap32(Atoi.Atoi(o.arg))
    requires !p(o) ==> after == before
    ensures LastCount([o] + rest, p, before) == LastCount(rest, p, after)
  {
    LastWhereCons(o, rest, p);
  }

  /** Without options: sockets, 100-byte messages, 100 loops, 10 groups of 20 fds, processes, no FIFO scheduling. */
  lemma NoOptionsKeepsDefaults()
    ensures Parse([]) == Run(Config(false, 100, 100, 10, 20, true, false))
  {
  }

  /** `-T -P` runs processes and `-P -T` threads: the later option wins. */
  lemma LastModeOptionWins()
    ensures Parse([Threads, Processes]) == Run(Defaults)
    ensures Parse([Processes, Threads]) == Run(Defaults.(processMode := false))
  {
    var a, b := [Threads, Processes], [Processes, Threads];
    assert a[1..] == [Processes] && a[1..][1..] == [];
    assert b[1..] == [Threads] && b[1..][1..] == [];
  }

  /** -h exits with status 1 even after valid options, unlike pipebench's -h. */
  lemma HelpExitsWithOne(before: seq<Opt>, after: seq<Opt>)
    ensures Parse(before + [Help] + after).Exit?
    ensures Parse(before + [Help] + after).status == 1
  {
    var opts := before + [Help] + after;
    ParseFromIsExpected(Defaults, opts);
    assert opts[|before|] == Help;
  }
}

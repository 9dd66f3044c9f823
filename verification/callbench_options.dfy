/**
 * callbench's command line and what `main` runs with it: `parse_args` as a
 * fold over the options `getopt_long` has split out, and the sections that
 * `main`, `bench_time` and `bench_file` print, each with the `-1` sentinels
 * replaced by its own defaults.
 */
module CallbenchOptions {

  import opened Folds
  import Atoi
  import opened CallbenchTiming

  /**
   * One option: -h/--help, getopt's '?', -m/--mode name, -c/--calls n,
   * -l/--loops n, -r/--rounds n.
   */
  datatype Opt = Help | Unknown | Mode(name: string) | Calls(arg: string) | Loops(arg: string) | Rounds(arg: string)

  datatype Config = Config(doTime: bool, doFile: bool, calls: int, loops: int, rounds: int)

  /** The settings `main` benchmarks with, or `print_help`'s `exit(1)`. */
  datatype Parsed = Run(config: Config) | Exit(status: int)

  /** `main`'s initial values: both benchmarks, every count left to its default. */
  const Defaults := Config(true, true, -1, -1, -1)

  /**
   * The `strcmp` chain of the -m case: (do_time, do_file) for a known mode
   * name. "time" and "all" select the time benchmark, "file" and "all" the
   * file one, and any other name is rejected.
   */
  function ModeFlags(name: string): (flags: Option<(bool, bool)>)
    ensures flags.Some? <==> name == "time" || name == "file" || name == "all"
    ensures flags.Some? ==> flags.value == (name != "file", name != "time")
  {
    if name == "time" then Some((true, false))
    else if name == "file" then Some((false, true))
    else if name == "all" then Some((true, true))
    else None
  }

  /** One case of the switch in `parse_args`. */
  function Apply(c: Config, o: Opt): Parsed {
    match o
    case Help => Exit(1)
    case Unknown => Exit(1)
    case Mode(name) =>
      (match ModeFlags(name)
       case Some(flags) => Run(c.(doTime := flags.0, doFile := flags.1))
       case None => Exit(1))
    case Calls(arg) => Run(c.(calls := Atoi.Atoi(arg)))
    case Loops(arg) => Run(c.(loops := Atoi.Atoi(arg)))
    case Rounds(arg) => Run(c.(rounds := Atoi.Atoi(arg)))
  }

  /** The `while (1)` loop of `parse_args`, left to right until `print_help` exits. */
  function ParseFrom(c: Config, opts: seq<Opt>): Parsed
    decreases |opts|
  {
    if |opts| == 0 then Run(c)
    else match Apply(c, opts[0])
      case Run(c') => ParseFrom(c', opts[1..])
      case Exit(status) => Exit(status)
  }

  function Parse(opts: seq<Opt>): Parsed {
    ParseFrom(Defaults, opts)
  }

  predicate Stops(o: Opt) { o.Help? || o.Unknown? || (o.Mode? && ModeFlags(o.name).None?) }
  predicate IsValidMode(o: Opt) { o.Mode? && ModeFlags(o.name).Some? }
  predicate IsCalls(o: Opt) { o.Calls? }
  predicate IsLoops(o: Opt) { o.Loops? }
  predicate IsRounds(o: Opt) { o.Rounds? }

  /** The count an option sets, the last one of its kind winning. */
  function LastCount(opts: seq<Opt>, p: Opt -> bool, otherwise: int): int
    requires forall o :: p(o) ==> !o.Help? && !o.Unknown? && !o.Mode?
  {
    match LastWhere(opts, p)
    case Some(o) => Atoi.Atoi(o.arg)
    case None => otherwise
  }

  /** The flags the last valid -m selects, or `otherwise` without one. */
  function LastMode(opts: seq<Opt>, otherwise: (bool, bool)): (bool, bool) {
    match LastWhere(opts, IsValidMode)
    case Some(o) => ModeFlags(o.name).value
    case None => otherwise
  }

  /**
   * The settings the loop ends with when nothing stops it, stated per option:
   * the last valid -m decides both flags, and the last -c, -l and -r set the counts.
   */
  function Settings(c: Config, opts: seq<Opt>): Config {
    var flags := LastMode(opts, (c.doTime, c.doFile));
    Config(
      doTime := flags.0,
      doFile := flags.1,
      calls := LastCount(opts, IsCalls, c.calls),
      loops := LastCount(opts, IsLoops, c.loops),
      rounds := LastCount(opts, IsRounds, c.rounds))
  }

  function Expected(c: Config, opts: seq<Opt>): Parsed {
    if AnyWhere(opts, Stops) then Exit(1) else Run(Settings(c, opts))
  }

  /**
   * `parse_args` computes `Expected`: -h, an unknown option or an invalid
   * mode anywhere exits with status 1; otherwise "time" gives (true, false),
   * "file" (false, true) and "all" (true, true) for the last -m, and the last
   * -c, -l and -r give the counts.
   */
  lemma {:induction false} ParseFromIsExpected(c: Config, opts: seq<Opt>)
    ensures ParseFrom(c, opts) == Expected(c, opts)
    decreases |opts|
  {
    if |opts| > 0 {
      var o, rest := opts[0], opts[1..];
      assert opts == [o] + rest;
      AnyWhereCons(o, rest, Stops);
      if !Stops(o) {
        ParseFromIsExpected(Apply(c, o).config, rest);
        SettingsStep(c, o, rest);
      }
    }
  }

  /** An option that does not stop the loop moves the settings the way `Settings` counts it. */
  lemma SettingsStep(c: Config, o: Opt, rest: seq<Opt>)
    requires !Stops(o)
    ensures Apply(c, o).Run?
    ensures Settings(c, [o] + rest) == Settings(Apply(c, o).config, rest)
  {
    var c' := Apply(c, o).config;
    ModeStep(c, o, rest);
    CountStep(o, rest, IsCalls, c.calls, c'.calls);
    CountStep(o, rest, IsLoops, c.loops, c'.loops);
    CountStep(o, rest, IsRounds, c.rounds, c'.rounds);
  }

  lemma ModeStep(c: Config, o: Opt, rest: seq<Opt>)
    requires !Stops(o)
    ensures Apply(c, o).Run?
    ensures var c' := Apply(c, o).config;
            LastMode([o] + rest, (c.doTime, c.doFile)) == LastMode(rest, (c'.doTime, c'.doFile))
  {
    LastWhereCons(o, rest, IsValidMode);
  }

  lemma CountStep(o: Opt, rest: seq<Opt>, p: Opt -> bool, before: int, after: int)
    requires forall o :: p(o) ==> !o.Help? && !o.Unknown? && !o.Mode?
    requires p(o) ==> after == Atoi.Atoi(o.arg)
    requires !p(o) ==> after == before
    ensures LastCount([o] + rest, p, before) == LastCount(rest, p, after)
  {
    LastWhereCons(o, rest, p);
  }

  /** What `main` prints, in order. */
  datatype Section =
    | TimeSection(calls: int, loops: int, rounds: int)
    | Separator
    | FileSection(calls: int, loops: int, rounds: int)

  /**
   * The sections `main` runs: `bench_time` when `do_time`, the newline when
   * both, `bench_file` when `do_file`, in that order, each replacing -1 by
   * its own default (100000/32/5 calls/loops/rounds for time, 100/128/5 for
   * files), and nothing else.
   */
  function Plan(c: Config): (p: seq<Section>)
    ensures (TimeSection(DefaultArg(c.calls, 100000), DefaultArg(c.loops, 32), DefaultArg(c.rounds, 5)) in p) == c.doTime
    ensures (Separator in p) == (c.doTime && c.doFile)
    ensures (FileSection(DefaultArg(c.calls, 100), DefaultArg(c.loops, 128), DefaultArg(c.rounds, 5)) in p) == c.doFile
    ensures forall i, j :: 0 <= i < j < |p| ==> Rank(p[i]) < Rank(p[j])
    ensures forall s :: s in p ==>
              || (c.doTime && s == TimeSection(DefaultArg(c.calls, 100000), DefaultArg(c.loops, 32), DefaultArg(c.rounds, 5)))
              || (c.doTime && c.doFile && s == Separator)
              || (c.doFile && s == FileSection(DefaultArg(c.calls, 100), DefaultArg(c.loops, 128), DefaultArg(c.rounds, 5)))
    ensures |p| == (if c.doTime then 1 else 0) + (if c.doTime && c.doFile then 1 else 0) + (if c.doFile then 1 else 0)
  {
    (if c.doTime then [TimeSection(DefaultArg(c.calls, 100000), DefaultArg(c.loops, 32), DefaultArg(c.rounds, 5))] else [])
    + (if c.doTime && c.doFile then [Separator] else [])
    + (if c.doFile then [FileSection(DefaultArg(c.calls, 100), DefaultArg(c.loops, 128), DefaultArg(c.rounds, 5))] else [])
  }

  /** The position of a kind of section in the output. */
  function Rank(s: Section): nat {
    match s
    case TimeSection(_, _, _) => 0
    case Separator => 1
    case FileSection(_, _, _) => 2
  }

  /** Without options, both benchmarks run with their own defaults. */
  lemma NoOptionsRunsEverything()
    ensures Parse([]) == Run(Defaults)
    ensures Plan(Defaults) == [TimeSection(100000, 32, 5), Separator, FileSection(100, 128, 5)]
  {
  }

  /**
   * `-c 0` gets through `parse_args` and both sections then run five rounds
   * with zero calls per loop, so `best_ns2 /= calls` divides by zero:
   * `RunBenchNs` cannot be called with these arguments.
   */
  lemma ZeroCallsReachDivision()
    ensures Parse([Calls("0")]) == Run(Defaults.(calls := 0))
    ensures Plan(Defaults.(calls := 0)) == [TimeSection(0, 32, 5), Separator, FileSection(0, 128, 5)]
  {
    var c := Defaults.(calls := 0);
    assert c.doTime && c.doFile;
    assert Parse([Calls("0")]) == Run(c) by {
      Atoi.AtoiReadsDecimal(0, "");
      assert Atoi.IntToString(0) + "" == "0";
    }
  }
}

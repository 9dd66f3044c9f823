/**
 * pipebench's command line: the `getopt(argc, argv, "ehqQb:ros:S:Iu")` loop
 * of `main`, as a fold over the options getopt has already split out. Any
 * letter outside the option string is what getopt reports as '?', which
 * the switch's `default` branch turns into usage and exit status 1.
 */
module PipebenchOptions {

  import opened CInt
  import opened Folds
  import Atoi

  /**
   * One option as getopt delivers it, by letter: -e, -h, -q, -Q, -b size,
   * -r, -o, -s file, -S file, -I, -u; `Unknown` is getopt's '?'.
   */
  datatype Opt =
    | ErrOut | Help | Quiet | QuietNoSummary | BufSize(arg: string) | Raw
    | NoSummary | Status(file: string) | StatusAppend(file: string) | Si
    | NoUnits | Unknown

  datatype Config = Config(
    errout: bool,
    quiet: bool,
    summary: bool,
    fancy: bool,
    bufsize: nat,
    statusFile: Option<string>,
    append: bool,
    unit: nat,
    dounit: bool)

  /** Either the settings the transfer loop runs with, or the status `main` returns early. */
  datatype Parsed = Run(config: Config) | Exit(status: int)

  /** The initial values of `main`'s locals. */
  const Defaults := Config(
    errout := false, quiet := false, summary := true, fancy := true,
    bufsize := 819200, statusFile := None, append := false,
    unit := 1024, dounit := true)

  /** The options the switch handles without returning. */
  predicate Continues(o: Opt) {
    !o.Help? && !o.Unknown?
  }

  /** One case of the switch. */
  function Apply(c: Config, o: Opt): Parsed {
    match o
    case ErrOut => Run(c.(errout := true))
    case Quiet => Run(c.(quiet := true))
    case QuietNoSummary => Run(c.(quiet := true, summary := false))
    case NoSummary => Run(c.(summary := false))
    case BufSize(arg) => Run(c.(bufsize := Wrap32(Atoi.Atoi(arg))))
    case Help => Exit(0)
    case Raw => Run(c.(fancy := false, summary := false))
    case Status(file) => Run(c.(statusFile := Some(file), append := false))
    case StatusAppend(file) => Run(c.(statusFile := Some(file), append := true))
    case Si => Run(c.(unit := 1000))
    case NoUnits => Run(c.(dounit := false))
    case Unknown => Exit(1)
  }

  /** The getopt loop: options are applied left to right until one returns. */
  function ParseFrom(c: Config, opts: seq<Opt>): Parsed
    decreases |opts|
  {
    if |opts| == 0 then Run(c)
    else match Apply(c, opts[0])
      case Run(c') => ParseFrom(c', opts[1..])
      case Exit(status) => Exit(status)
  }

  function Parse(opts: seq<Opt>): Parsed {
    ParseFrom(Defaults, opts)
  }

  predicate IsErrOut(o: Opt) { o.ErrOut? }
  predicate SetsQuiet(o: Opt) { o.Quiet? || o.QuietNoSummary? }
  predicate ClearsSummary(o: Opt) { o.QuietNoSummary? || o.NoSummary? || o.Raw? }
  predicate IsRaw(o: Opt) { o.Raw? }
  predicate IsBufSize(o: Opt) { o.BufSize? }
  predicate IsStatus(o: Opt) { o.Status? || o.StatusAppend? }
  predicate IsSi(o: Opt) { o.Si? }
  predicate IsNoUnits(o: Opt) { o.NoUnits? }
  predicate Stops(o: Opt) { !Continues(o) }

  /**
   * The settings the loop ends with when no option stops it, stated option by
   * option rather than step by step, starting from the settings `c`.
   */
  function Settings(c: Config, opts: seq<Opt>): Config {
    Config(
      errout := c.errout || AnyWhere(opts, IsErrOut),
      quiet := c.quiet || AnyWhere(opts, SetsQuiet),
      summary := c.summary && !AnyWhere(opts, ClearsSummary),
      fancy := c.fancy && !AnyWhere(opts, IsRaw),
      bufsize := match LastWhere(opts, IsBufSize)
                 case Some(o) => Wrap32(Atoi.Atoi(o.arg))
                 case None => c.bufsize,
      statusFile := match LastWhere(opts, IsStatus)
                    case Some(o) => Some(o.file)
                    case None => c.statusFile,
      append := match LastWhere(opts, IsStatus)
                case Some(o) => o.StatusAppend?
                case None => c.append,
      unit := if AnyWhere(opts, IsSi) then 1000 else c.unit,
      dounit := c.dounit && !AnyWhere(opts, IsNoUnits))
  }

  /** The outcome of the loop: the first stopping option decides the status, otherwise `Settings`. */
  function Expected(c: Config, opts: seq<Opt>): Parsed {
    match FirstWhere(opts, Stops)
    case Some(o) => Exit(if o.Help? then 0 else 1)
    case None => Run(Settings(c, opts))
  }

  /**
   * The getopt loop computes `Expected`: the last of -s/-S names the status
   * file and -S alone appends; -q and -Q set quiet; -Q, -o and -r clear the
   * summary; -r clears the fancy status line; -I selects 1000; -u turns units
   * off; the last -b sets the buffer size; the first -h returns 0 and the
   * first unknown option returns 1, whatever follows.
   */
  lemma {:induction false} ParseFromIsExpected(c: Config, opts: seq<Opt>)
    ensures ParseFrom(c, opts) == Expected(c, opts)
    decreases |opts|
  {
    if |opts| > 0 {
      var o, rest := opts[0], opts[1..];
      assert opts == [o] + rest;
      if Continues(o) {
        var c' := Apply(c, o).config;
        ParseFromIsExpected(c', rest);
        assert FirstWhere(opts, Stops) == FirstWhere(rest, Stops);
        SettingsStep(c, o, rest);
      }
    }
  }

  /** Applying one option that does not stop the loop, then the rest, gives the settings of the whole list. */
  lemma SettingsStep(c: Config, o: Opt, rest: seq<Opt>)
    requires Continues(o)
    ensures Settings(c, [o] + rest) == Settings(Apply(c, o).config, rest)
  {
    FlagsStep(c, o, rest);
    ChoicesStep(c, o, rest);
  }

  /** The switches set anywhere in the list move with one option. */
  lemma FlagsStep(c: Config, o: Opt, rest: seq<Opt>)
    requires Continues(o)
    ensures Apply(c, o).Run?
    ensures var s, s' := Settings(c, [o] + rest), Settings(Apply(c, o).config, rest);
            s.errout == s'.errout && s.quiet == s'.quiet && s.summary == s'.summary
            && s.fancy == s'.fancy && s.unit == s'.unit && s.dounit == s'.dounit
  {
    ApplyByField(c, o);
    AnyWhereCons(o, rest, IsErrOut);
    AnyWhereCons(o, rest, SetsQuiet);
    AnyWhereCons(o, rest, ClearsSummary);
    AnyWhereCons(o, rest, IsRaw);
    AnyWhereCons(o, rest, IsSi);
    AnyWhereCons(o, rest, IsNoUnits);
  }

  /** The settings the last option of their kind decides move with one option. */
  lemma ChoicesStep(c: Config, o: Opt, rest: seq<Opt>)
    requires Continues(o)
    ensures Apply(c, o).Run?
    ensures var s, s' := Settings(c, [o] + rest), Settings(Apply(c, o).config, rest);
            s.bufsize == s'.bufsize && s.statusFile == s'.statusFile && s.append == s'.append
  {
    ApplyByField(c, o);
    LastWhereCons(o, rest, IsBufSize);
    LastWhereCons(o, rest, IsStatus);
  }

  /** The effect of one option that does not stop the loop, field by field. */
  lemma ApplyByField(c: Config, o: Opt)
    requires Continues(o)
    ensures Apply(c, o).Run?
    ensures var c' := Apply(c, o).config;
            && c'.errout == (c.errout || IsErrOut(o))
            && c'.quiet == (c.quiet || SetsQuiet(o))
            && c'.summary == (c.summary && !ClearsSummary(o))
            && c'.fancy == (c.fancy && !IsRaw(o))
            && c'.bufsize == (if IsBufSize(o) then Wrap32(Atoi.Atoi(o.arg)) else c.bufsize)
            && c'.statusFile == (if IsStatus(o) then Some(o.file) else c.statusFile)
            && c'.append == (if IsStatus(o) then o.StatusAppend? else c.append)
            && c'.unit == (if IsSi(o) then 1000 else c.unit)
            && c'.dounit == (c.dounit && !IsNoUnits(o))
  {
  }

  /** Separate -s and -S options: the later one wins, and only -S appends. */
  lemma LastStatusOptionWins(file1: string, file2: string)
    ensures Parse([StatusAppend(file1), Status(file2)]) ==
            Run(Defaults.(statusFile := Some(file2), append := false))
    ensures Parse([Status(file1), StatusAppend(file2)]) ==
            Run(Defaults.(statusFile := Some(file2), append := true))
  {
    var a := [StatusAppend(file1), Status(file2)];
    var b := [Status(file1), StatusAppend(file2)];
    assert a[1..] == [Status(file2)] && a[1..][1..] == [];
    assert b[1..] == [StatusAppend(file2)] && b[1..][1..] == [];
    var ca := Defaults.(statusFile := Some(file1), append := true);
    var cb := Defaults.(statusFile := Some(file1), append := false);
    assert ParseFrom(Defaults, a) == ParseFrom(ca, a[1..]);
    assert ParseFrom(ca, a[1..]) == ParseFrom(ca.(statusFile := Some(file2), append := false), []);
    assert ParseFrom(Defaults, b) == ParseFrom(cb, b[1..]);
    assert ParseFrom(cb, b[1..]) == ParseFrom(cb.(statusFile := Some(file2), append := true), []);
  }
}

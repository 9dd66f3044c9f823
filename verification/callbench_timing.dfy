/**
 * callbench's timing arithmetic: `ts_to_ns`, the `-1` sentinel of
 * `default_arg`, and `run_bench_ns` once the clock is taken out of it. The
 * two `clock_gettime` readings around each loop of calls become one entry of
 * a rounds × loops matrix of elapsed nanoseconds, so `run_bench_ns` is a
 * minimum over each row, a truncating division by the number of calls, and a
 * minimum over the rounds.
 */
module CallbenchTiming {

  import opened CInt

  const NS_PER_SEC: int := 1000000000

  datatype TimeSpec = TimeSpec(sec: int, nsec: int)

  /** What `clock_gettime` returns: nanoseconds below one second. */
  predicate Normalised(ts: TimeSpec) {
    0 <= ts.nsec < NS_PER_SEC
  }

  /** `ts_to_ns(ts)`: the instant in nanoseconds. */
  function TsToNs(ts: TimeSpec): (ns: int)
    ensures Normalised(ts) ==> ns / NS_PER_SEC == ts.sec && ns % NS_PER_SEC == ts.nsec
  {
    var ns := ts.nsec + ts.sec * NS_PER_SEC;
    if Normalised(ts) then
      DivUnique(ns, NS_PER_SEC, ts.sec, ts.nsec);
      ns
    else ns
  }

  /** The normalised timespec of an instant given in nanoseconds. */
  function FromNs(ns: int): (ts: TimeSpec)
    ensures Normalised(ts)
  {
    TimeSpec(ns / NS_PER_SEC, ns % NS_PER_SEC)
  }

  /** Converting to nanoseconds and back gives the normalised timespec back. */
  lemma FromNsTsToNs(ts: TimeSpec)
    requires Normalised(ts)
    ensures FromNs(TsToNs(ts)) == ts
  {
  }

  /** Every nanosecond count is the conversion of exactly one normalised timespec. */
  lemma TsToNsFromNs(ns: int)
    ensures TsToNs(FromNs(ns)) == ns
  {
  }

  /** Seconds first, then nanoseconds: the order of instants on normalised timespecs. */
  predicate Before(a: TimeSpec, b: TimeSpec) {
    a.sec < b.sec || (a.sec == b.sec && a.nsec < b.nsec)
  }

  /**
   * On normalised timespecs the conversion is strictly monotone, so an
   * elapsed time `ts_to_ns(after) - ts_to_ns(before)` is positive exactly when
   * `after` is the later reading.
   */
  lemma TsToNsMonotone(a: TimeSpec, b: TimeSpec)
    requires Normalised(a) && Normalised(b)
    ensures Before(a, b) <==> TsToNs(a) < TsToNs(b)
  {
    if a.sec < b.sec {
      MulLe(a.sec + 1, b.sec, NS_PER_SEC);
    } else if b.sec < a.sec {
      MulLe(b.sec + 1, a.sec, NS_PER_SEC);
    }
  }

  /** `default_arg(arg, def)`: the sentinel -1 stands for the default. */
  function DefaultArg(arg: int, def: int): (r: int)
    ensures arg == -1 ==> r == def
    ensures arg != -1 ==> r == arg
  {
    if arg == -1 then def else arg
  }

  /** With a real default, the result is never the sentinel, and defaulting twice changes nothing. */
  lemma DefaultArgSettles(arg: int, def: int)
    requires def != -1
    ensures DefaultArg(arg, def) != -1
    ensures DefaultArg(DefaultArg(arg, def), def) == DefaultArg(arg, def)
  {
  }

  /** The smaller of `best` and a new time, keeping `best` on a tie, as `if (elapsed < best)` does. */
  function Better(best: int, elapsed: int): (r: int)
    ensures r <= best && r <= elapsed && (r == best || r == elapsed)
  {
    if elapsed < best then elapsed else best
  }

  /** `best_ns2` after the loops of one round: the minimum of the row, starting from LONG_MAX. */
  function RowBest(row: seq<int>): int {
    if |row| == 0 then LONG_MAX else Better(RowBest(row[..|row| - 1]), row[|row| - 1])
  }

  /** `best_ns1` after the rounds of `times`: the minimum of the rounds' per-call times. */
  function BenchBest(times: seq<seq<int>>, calls: int): int
    requires calls != 0
  {
    if |times| == 0 then LONG_MAX
    else Better(BenchBest(times[..|times| - 1], calls), CDiv(RowBest(times[|times| - 1]), calls))
  }

  /** The number of times a `for (i = 0; i < n; i++)` loop runs. */
  function Trips(n: int): nat {
    if n < 0 then 0 else n
  }

  /**
   * `run_bench_ns(inner_call, calls, loops, rounds)` with `times[r][l]` the
   * nanoseconds loop `l` of round `r` took. The result is LONG_MAX when no
   * round runs, and never more than a round's best time per call. A round
   * divides by `calls`, so it needs `calls != 0`.
   */
  method RunBenchNs(times: seq<seq<int>>, calls: int, loops: int, rounds: int) returns (best: int)
    requires rounds > 0 ==> calls != 0
    requires |times| == Trips(rounds)
    requires forall r :: 0 <= r < |times| ==> |times[r]| == Trips(loops)
    ensures rounds <= 0 ==> best == LONG_MAX
    ensures rounds > 0 ==> best == BenchBest(times, calls)
    ensures forall r :: 0 <= r < |times| ==> best <= CDiv(RowBest(times[r]), calls)
  {
    best := LONG_MAX;
    var round := 0;
    while round < rounds
      invariant 0 <= round <= Trips(rounds)
      invariant round == 0 ==> best == LONG_MAX
      invariant rounds > 0 ==> best == BenchBest(times[..round], calls)
      invariant forall r :: 0 <= r < round ==> best <= CDiv(RowBest(times[r]), calls)
    {
      var roundBest := BestOfRound(times[round], loops);
      roundBest := CDiv(roundBest, calls);
      assert times[..round + 1][..round] == times[..round];
      best := Better(best, roundBest);
      round := round + 1;
    }
    assert times[..round] == times;
  }

  /**
   * The inner loop of a round: the smallest elapsed time, starting from
   * LONG_MAX. The result is no more than any time of the round and is one of
   * them, unless every time (or the round itself) is missing or above
   * LONG_MAX.
   */
  method BestOfRound(row: seq<int>, loops: int) returns (best: int)
    requires |row| == Trips(loops)
    ensures best == RowBest(row)
    ensures best <= LONG_MAX && forall l :: 0 <= l < |row| ==> best <= row[l]
    ensures best == LONG_MAX || exists l :: 0 <= l < |row| && best == row[l]
  {
    best := LONG_MAX;
    var loop := 0;
    while loop < loops
      invariant 0 <= loop <= |row|
      invariant best == RowBest(row[..loop])
      invariant best <= LONG_MAX && forall l :: 0 <= l < loop ==> best <= row[l]
      invariant best == LONG_MAX || exists l :: 0 <= l < loop && best == row[l]
    {
      assert row[..loop + 1][..loop] == row[..loop];
      best := Better(best, row[loop]);
      loop := loop + 1;
    }
    assert row[..loop] == row;
  }

  /** A row's best is one of its entries and no entry is smaller (entries fit a `long`). */
  lemma {:induction false} RowBestIsMinimum(row: seq<int>)
    requires |row| > 0
    requires forall l :: 0 <= l < |row| ==> row[l] <= LONG_MAX
    ensures exists l :: 0 <= l < |row| && RowBest(row) == row[l]
    ensures forall l :: 0 <= l < |row| ==> RowBest(row) <= row[l]
  {
    var init := row[..|row| - 1];
    if |init| == 0 {
      assert RowBest(row) == row[0];
    } else {
      RowBestIsMinimum(init);
      var l :| 0 <= l < |init| && RowBest(init) == init[l];
      if RowBest(row) == RowBest(init) {
        assert RowBest(row) == row[l];
      }
    }
  }

  /** The minimum entry of a matrix whose rows are all non-empty. */
  function MatrixBest(times: seq<seq<int>>): int {
    if |times| == 0 then LONG_MAX else Better(MatrixBest(times[..|times| - 1]), RowBest(times[|times| - 1]))
  }

  /**
   * With at least one round, at least one loop and a positive call count,
   * `run_bench_ns` returns the smallest elapsed time of all divided by the
   * number of calls: the minimum of the per-round quotients is the quotient
   * of the minimum, because truncating division by a positive number is
   * monotone.
   */
  lemma {:induction false} BenchBestIsQuotientOfMinimum(times: seq<seq<int>>, calls: int)
    requires |times| > 0 && calls > 0
    requires forall r :: 0 <= r < |times| ==> |times[r]| > 0
    requires forall r, l :: 0 <= r < |times| && 0 <= l < |times[r]| ==> times[r][l] <= LONG_MAX
    ensures BenchBest(times, calls) == CDiv(MatrixBest(times), calls)
  {
    var init, last := times[..|times| - 1], times[|times| - 1];
    RowBestIsMinimum(last);
    var l :| 0 <= l < |last| && RowBest(last) == last[l];
    if |init| == 0 {
      QuotientStaysBelow(RowBest(last), calls);
    } else {
      BenchBestIsQuotientOfMinimum(init, calls);
      QuotientOfBetter(MatrixBest(init), RowBest(last), calls);
    }
  }

  /** A per-call time is never above LONG_MAX when the time is not. */
  lemma QuotientStaysBelow(a: int, calls: int)
    requires a <= LONG_MAX && calls > 0
    ensures CDiv(a, calls) <= LONG_MAX
  {
    CDivMonotone(a, LONG_MAX, calls);
    CDivNonNegative(LONG_MAX, calls);
    DivFacts(LONG_MAX, calls);
    MulLe(1, calls, LONG_MAX / calls);
  }

  /** Dividing the smaller of two times gives the smaller of the quotients. */
  lemma QuotientOfBetter(a: int, b: int, calls: int)
    requires calls > 0
    ensures CDiv(Better(a, b), calls) == Better(CDiv(a, calls), CDiv(b, calls))
  {
    if a <= b {
      CDivMonotone(a, b, calls);
    } else {
      CDivMonotone(b, a, calls);
    }
  }

  /** The minimum of a matrix is one of its entries, and no entry is smaller. */
  lemma {:induction false} MatrixBestIsMinimum(times: seq<seq<int>>)
    requires |times| > 0
    requires forall r :: 0 <= r < |times| ==> |times[r]| > 0
    requires forall r, l :: 0 <= r < |times| && 0 <= l < |times[r]| ==> times[r][l] <= LONG_MAX
    ensures exists r, l :: 0 <= r < |times| && 0 <= l < |times[r]| && MatrixBest(times) == times[r][l]
    ensures forall r, l :: 0 <= r < |times| && 0 <= l < |times[r]| ==> MatrixBest(times) <= times[r][l]
  {
    var init, last := times[..|times| - 1], times[|times| - 1];
    RowBestIsMinimum(last);
    var l :| 0 <= l < |last| && RowBest(last) == last[l];
    if |init| == 0 {
      assert MatrixBest(times) == times[0][l];
    } else {
      MatrixBestIsMinimum(init);
      var r', l' :| 0 <= r' < |init| && 0 <= l' < |init[r']| && MatrixBest(init) == init[r'][l'];
      assert init[r'] == times[r'];
      if MatrixBest(times) == MatrixBest(init) {
        assert MatrixBest(times) == times[r'][l'];
      } else {
        assert MatrixBest(times) == times[|times| - 1][l];
      }
      forall r, l'' | 0 <= r < |times| && 0 <= l'' < |times[r]|
        ensures MatrixBest(times) <= times[r][l'']
      {
        if r < |init| {
          assert init[r] == times[r];
        }
      }
    }
  }
}

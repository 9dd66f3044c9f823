/**
 * pipebench's `time_diff`: the difference of two `struct timeval`s with a
 * microsecond borrow, split into hours, minutes, seconds and hundredths of a
 * second for the "%.2dh%.2dm%.2d.%.2ds" status field. The divisions are C's,
 * truncating toward zero, so a negative difference (the clock stepped back)
 * is modelled too.
 */
module PipebenchTime {

  import opened CInt

  const USEC_PER_SEC: int := 1000000

  datatype TimeVal = TimeVal(sec: int, usec: int)

  /** What `gettimeofday` returns: a microsecond field below one second. */
  predicate Normalised(t: TimeVal) {
    0 <= t.usec < USEC_PER_SEC
  }

  /** The instant a `timeval` denotes, in microseconds. */
  function Micros(t: TimeVal): int {
    t.sec * USEC_PER_SEC + t.usec
  }

  /** The fields `time_diff` prints. */
  datatype Clock = Clock(hours: int, minutes: int, seconds: int, centis: int)

  /** The subtraction with borrow that starts `time_diff`. */
  function Borrow(start: TimeVal, end: TimeVal): (d: TimeVal)
    ensures Micros(d) == Micros(end) - Micros(start)
    ensures Normalised(start) && Normalised(end) ==> Normalised(d)
  {
    var usec := end.usec - start.usec;
    var sec := end.sec - start.sec;
    if usec < 0 then TimeVal(sec - 1, usec + USEC_PER_SEC) else TimeVal(sec, usec)
  }

  /**
   * `time_diff(start, end, buf, max)` before formatting. The fields always
   * recombine to the whole seconds of the difference; for a non-negative
   * difference minutes and seconds are in 0..59, and for normalised inputs
   * the hundredths are in 0..99 and truncate the microseconds.
   */
  function TimeDiff(start: TimeVal, end: TimeVal): (c: Clock)
    ensures var d := Borrow(start, end);
            && c.hours * 3600 + c.minutes * 60 + c.seconds == d.sec
            && -60 < c.minutes < 60 && -60 < c.seconds < 60
            && (0 <= d.sec ==> 0 <= c.hours && 0 <= c.minutes && 0 <= c.seconds)
            && (d.sec < 0 ==> c.hours <= 0 && c.minutes <= 0 && c.seconds <= 0)
    ensures Normalised(start) && Normalised(end) ==>
              var d := Borrow(start, end);
              0 <= c.centis < 100 && c.centis * 10000 <= d.usec < c.centis * 10000 + 10000
  {
    var d := Borrow(start, end);
    var minutesTotal := CDiv(d.sec, 60);
    CDivCDiv(d.sec, 60, 60);
    var c := Clock(CDiv(d.sec, 3600), CRem(minutesTotal, 60), CRem(d.sec, 60), CDiv(d.usec, 10000));
    assert c.minutes == minutesTotal - c.hours * 60;
    assert 0 <= d.sec ==> 0 <= minutesTotal;
    assert d.sec < 0 ==> minutesTotal <= 0;
    c
  }

  /**
   * What the status line shows is the elapsed time truncated to the
   * centisecond: for normalised inputs the printed fields, read back as
   * microseconds, are within 10 000 µs below the true difference.
   */
  lemma TimeDiffShowsElapsed(start: TimeVal, end: TimeVal)
    requires Normalised(start) && Normalised(end)
    ensures var c := TimeDiff(start, end);
            var shown := (c.hours * 3600 + c.minutes * 60 + c.seconds) * USEC_PER_SEC + c.centis * 10000;
            shown <= Micros(end) - Micros(start) < shown + 10000
  {
    var d := Borrow(start, end);
    var c := TimeDiff(start, end);
    assert (c.hours * 3600 + c.minutes * 60 + c.seconds) * USEC_PER_SEC == d.sec * USEC_PER_SEC;
  }
}

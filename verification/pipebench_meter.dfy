/**
 * pipebench's byte accounting in the copy loop of `main`: every chunk read
 * is added to the 64-bit `datalen`, and whenever the wall-clock second has
 * changed since the last tick, `speed` becomes the bytes read since the
 * previous tick and `last_datalen` catches up with `datalen`. Reading,
 * writing and the clock are left to the caller: a run is the sequence of
 * counts `fread` returned, each marked with whether the second changed
 * after it. The count goes through an `int n` on its way to `datalen`, so a
 * read of more than INT_MAX bytes is added as a negative number, and one
 * that narrows to -1 is taken for an error and skipped.
 */
module PipebenchMeter {

  import opened CInt

  /**
   * One turn of the copy loop as the loop sees it: what it adds to
   * `datalen` (the `int n`), and whether it finds that a new second began.
   */
  datatype Chunk = Chunk(n: int, tick: bool)

  /** The three `u_int64_t` counters of the loop. */
  datatype Meter = Meter(datalen: nat, lastDatalen: nat, speed: nat)

  const Start := Meter(0, 0, 0)

  /**
   * `if (-1 == (n = fread(buffer, 1, bufsize, stdin)))`: the `size_t` count
   * stored in an `int`. A count that fits an `int` is kept; a larger one
   * (the buffer is an `unsigned int` of up to 2^32 - 1 bytes) becomes
   * negative; one that narrows to -1 is taken for a failed read, and the
   * `continue` skips both the addition and the check of the second.
   */
  function FreadCount(bytes: nat, tick: bool): (c: Chunk)
    ensures Wrap32(bytes) == U32 - 1 ==> c == Chunk(0, false)
    ensures bytes <= INT_MAX ==> c == Chunk(bytes, tick)
    ensures INT_MAX < bytes < U32 - 1 ==> c == Chunk(bytes - U32, tick) && c.n < 0
  {
    var n := Int32(bytes);
    if n == -1 then Chunk(0, false) else Chunk(n, tick)
  }

  /**
   * One turn of the loop: `datalen += n` converts the `int` to `u_int64_t`,
   * and the second check uses C's unsigned 64-bit subtraction.
   */
  function Feed(m: Meter, c: Chunk): Meter {
    var datalen := Wrap64(m.datalen + c.n);
    if c.tick then Meter(datalen, datalen, Wrap64(datalen - m.lastDatalen))
    else m.(datalen := datalen)
  }

  /** The counters after the loop has consumed `chunks`. */
  function Run(chunks: seq<Chunk>): Meter {
    if |chunks| == 0 then Start
    else Feed(Run(chunks[..|chunks| - 1]), chunks[|chunks| - 1])
  }

  /** The sum of what the turns of `chunks` add, exactly. */
  function Total(chunks: seq<Chunk>): int {
    if |chunks| == 0 then 0
    else Total(chunks[..|chunks| - 1]) + chunks[|chunks| - 1].n
  }

  /** The length of the run up to and including its last turn that ticked; 0 when none did. */
  function TickEnd(chunks: seq<Chunk>): (k: nat)
    ensures k <= |chunks|
    ensures k > 0 ==> chunks[k - 1].tick
    ensures forall i :: k <= i < |chunks| ==> !chunks[i].tick
  {
    if |chunks| == 0 then 0
    else if chunks[|chunks| - 1].tick then |chunks|
    else TickEnd(chunks[..|chunks| - 1])
  }

  /** The length of the run up to the tick before the last one; 0 when there is none. */
  function PrevTickEnd(chunks: seq<Chunk>): (k: nat)
    ensures k <= TickEnd(chunks)
    ensures TickEnd(chunks) > 0 ==> k < TickEnd(chunks)
  {
    var t := TickEnd(chunks);
    if t == 0 then 0 else TickEnd(chunks[..t - 1])
  }

  /**
   * What the counters hold after any run: `datalen` is the total of what the
   * turns added modulo 2^64, `last_datalen` that total at the last tick, and
   * `speed` what was added between the two last ticks, all modulo 2^64.
   */
  lemma {:induction false} RunTracksTotals(chunks: seq<Chunk>)
    ensures Tracks(chunks, Run(chunks))
  {
    if |chunks| > 0 {
      var init := chunks[..|chunks| - 1];
      RunTracksTotals(init);
      FeedTracks(init, Run(init), chunks[|chunks| - 1]);
      assert init + [chunks[|chunks| - 1]] == chunks;
    }
  }

  /** The counters `m` agree with the totals of `chunks` as `RunTracksTotals` states. */
  predicate Tracks(chunks: seq<Chunk>, m: Meter) {
    && m.datalen == Wrap64(Total(chunks))
    && m.lastDatalen == Wrap64(Total(chunks[..TickEnd(chunks)]))
    && m.speed == if TickEnd(chunks) == 0 then 0
                  else Wrap64(Total(chunks[..TickEnd(chunks)]) - Total(chunks[..PrevTickEnd(chunks)]))
  }

  /** One turn of the loop keeps `Tracks`. */
  lemma FeedTracks(init: seq<Chunk>, m: Meter, c: Chunk)
    requires Tracks(init, m)
    ensures Tracks(init + [c], Feed(m, c))
  {
    var chunks := init + [c];
    assert chunks[..|chunks| - 1] == init;
    assert Total(chunks) == Total(init) + c.n;
    WrapAdd(Total(init), c.n);
    if c.tick {
      TickFeedTracks(init, m, c);
    } else {
      QuietFeedTracks(init, m, c);
    }
  }

  /** A turn that does not tick, skipped or not, moves `datalen` by what it adds and nothing else. */
  lemma QuietFeedTracks(init: seq<Chunk>, m: Meter, c: Chunk)
    requires Tracks(init, m) && !c.tick
    requires Wrap64(m.datalen + c.n) == Wrap64(Total(init + [c]))
    ensures Feed(m, c) == m.(datalen := Wrap64(m.datalen + c.n))
    ensures Tracks(init + [c], Feed(m, c))
  {
    var chunks := init + [c];
    assert chunks[..|chunks| - 1] == init;
    {
      assert TickEnd(chunks) == TickEnd(init);
      assert chunks[..TickEnd(chunks)] == init[..TickEnd(init)];
      if TickEnd(init) > 0 {
        assert chunks[..TickEnd(init) - 1] == init[..TickEnd(init) - 1];
        assert PrevTickEnd(chunks) == PrevTickEnd(init);
        assert chunks[..PrevTickEnd(chunks)] == init[..PrevTickEnd(init)];
      }
    }
  }

  /** A turn that ticks keeps `Tracks`: both counters it resets now refer to the tick it makes. */
  lemma TickFeedTracks(init: seq<Chunk>, m: Meter, c: Chunk)
    requires Tracks(init, m) && c.tick
    requires Wrap64(m.datalen + c.n) == Wrap64(Total(init + [c]))
    ensures Tracks(init + [c], Feed(m, c))
  {
    var chunks := init + [c];
    assert chunks[..|chunks| - 1] == init;
    assert TickEnd(chunks) == |chunks|;
    assert chunks[..TickEnd(chunks)] == chunks;
    var t := TickEnd(init);
    assert PrevTickEnd(chunks) == t;
    assert chunks[..t] == init[..t];
    var a: int, b: int := Total(chunks), Total(init[..t]);
    var d := Wrap64(a);
    assert m.lastDatalen == Wrap64(b);
    assert Feed(m, c) == Meter(d, d, Wrap64(d - Wrap64(b)));
    WrapSub(a, b);
    assert Feed(m, c).speed == Wrap64(a - b);
  }

  /** At a tick, `speed` becomes what was added since the previous tick and `last_datalen` catches up with `datalen`. */
  lemma TickFeedCounters(init: seq<Chunk>, m: Meter, c: Chunk)
    requires Tracks(init, m) && c.tick
    requires Wrap64(m.datalen + c.n) == Wrap64(Total(init + [c]))
    ensures Feed(m, c).lastDatalen == Feed(m, c).datalen == Wrap64(Total(init + [c]))
    ensures Feed(m, c).speed == Wrap64(Total(init + [c]) - Total(init[..TickEnd(init)]))
  {
    TickCounters(m, c, Total(init + [c]), Total(init[..TickEnd(init)]));
  }

  /** The counters after a ticking turn, given the totals `a` now and `b` at the previous tick. */
  lemma TickCounters(m: Meter, c: Chunk, a: int, b: int)
    requires c.tick && m.lastDatalen == Wrap64(b)
    requires Wrap64(m.datalen + c.n) == Wrap64(a)
    ensures Feed(m, c) == Meter(Wrap64(a), Wrap64(a), Wrap64(a - b))
  {
    WrapSub(a, b);
  }

  /** The bytes of a concatenation are the sum of the bytes of its parts. */
  lemma {:induction false} TotalAppend(a: seq<Chunk>, b: seq<Chunk>)
    ensures Total(a + b) == Total(a) + Total(b)
    decreases |b|
  {
    if |b| == 0 {
      assert a + b == a;
    } else {
      assert (a + b)[..|a + b| - 1] == a + b[..|b| - 1];
      TotalAppend(a, b[..|b| - 1]);
    }
  }

  /** Every read of the run fitted its `int`, as it does with the default and any positive `-b`. */
  predicate Fits(chunks: seq<Chunk>) {
    forall i :: 0 <= i < |chunks| ==> chunks[i].n >= 0
  }

  /** Reads that fit an `int` are added whole, so their total is never negative. */
  lemma {:induction false} FitsTotal(chunks: seq<Chunk>)
    requires Fits(chunks)
    ensures Total(chunks) >= 0
  {
    if |chunks| > 0 {
      FitsTotal(chunks[..|chunks| - 1]);
    }
  }

  /** The total of reads that fit an `int` only grows along the run. */
  lemma FitsPrefix(chunks: seq<Chunk>, i: nat)
    requires Fits(chunks) && i <= |chunks|
    ensures Total(chunks[..i]) <= Total(chunks)
  {
    assert chunks == chunks[..i] + chunks[i..];
    TotalAppend(chunks[..i], chunks[i..]);
    FitsTotal(chunks[i..]);
  }

  /**
   * While every read fits an `int` and fewer than 2^64 bytes have passed,
   * nothing wraps: `datalen` is the number of bytes read, `last_datalen`
   * never exceeds it, and `speed` is exactly the bytes read after the
   * previous tick up to and including the last one.
   */
  lemma RunWithoutWrap(chunks: seq<Chunk>)
    requires Fits(chunks) && Total(chunks) < U64
    ensures Run(chunks).datalen == Total(chunks)
    ensures Run(chunks).lastDatalen == Total(chunks[..TickEnd(chunks)]) <= Run(chunks).datalen
    ensures Run(chunks).speed == Total(chunks[PrevTickEnd(chunks)..TickEnd(chunks)])
  {
    RunTracksTotals(chunks);
    TracksWithoutWrap(chunks, Run(chunks));
  }

  /** Counters that track a run of reads that fit an `int` and total less than 2^64 hold the exact sums. */
  lemma TracksWithoutWrap(chunks: seq<Chunk>, m: Meter)
    requires Fits(chunks) && Total(chunks) < U64 && Tracks(chunks, m)
    ensures m.datalen == Total(chunks)
    ensures m.lastDatalen == Total(chunks[..TickEnd(chunks)]) <= m.datalen
    ensures m.speed == Total(chunks[PrevTickEnd(chunks)..TickEnd(chunks)])
  {
    var t, p := TickEnd(chunks), PrevTickEnd(chunks);
    var upToPrev, between := chunks[..p], chunks[p..t];
    FitsTotal(chunks);
    FitsPrefix(chunks, t);
    assert chunks[..t] == upToPrev + between;
    TotalAppend(upToPrev, between);
    assert Fits(upToPrev) && Fits(between);
    FitsTotal(upToPrev);
    FitsTotal(between);
    var all, atTick, atPrev := Total(chunks), Total(chunks[..t]), Total(upToPrev);
    assert 0 <= atPrev <= atTick <= all < U64;
    if t > 0 {
      assert m.speed == Wrap64(atTick - atPrev);
    }
  }

  /**
   * A read of 2^32 - 1 bytes (possible with `-b -1`) narrows to -1 and is
   * taken for an error: it is neither counted nor checked for a new second,
   * whatever came before.
   */
  lemma SkippedReadIsLost(chunks: seq<Chunk>, tick: bool)
    ensures FreadCount(U32 - 1, tick) == Chunk(0, false)
    ensures Run(chunks + [FreadCount(U32 - 1, tick)]) == Run(chunks)
  {
    var c := FreadCount(U32 - 1, tick);
    assert (chunks + [c])[..|chunks|] == chunks;
    if |chunks| > 0 {
      assert Run(chunks).datalen < U64;
    }
  }

  /**
   * A read of more than INT_MAX bytes (possible with a negative `-b`, such as
   * `-b -1294967296`, which makes the buffer 3000000000 bytes) is added as a
   * negative number: a first read of 3000000000 bytes leaves `datalen` at
   * 2^64 - 1294967296.
   */
  lemma LargeReadCountsBackwards()
    ensures Run([FreadCount(3000000000, false)]).datalen == U64 - 1294967296
  {
    var chunks := [FreadCount(3000000000, false)];
    assert chunks[..0] == [];
    assert chunks[0] == Chunk(-1294967296, false);
  }
}

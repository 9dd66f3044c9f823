/**
 * pipebench's `unitify`: a 64-bit byte count (or byte rate) scaled to a
 * decimal or binary prefix and kept in hundredths of that prefix's unit.
 * Every multiplication is the C one on `u_int64_t` / `unsigned long`, so it
 * is written out modulo 2^64; the properties that need exact arithmetic are
 * stated for the bases that cannot wrap (`NoWrap`), which include the only
 * two bases the program uses, 1000 and 1024.
 */
module PipebenchUnits {

  import opened CInt

  /** The prefix table: entry `e` names the unit nunit^e. */
  const Prefixes: seq<string> := ["", "k", "M", "G", "T", "P", "E"]

  /** What `unitify` formats: the raw count, or hundredths of a prefixed unit. */
  datatype Shown =
    | Plain(value: nat)
    | Scaled(hundredths: nat, prefix: nat)

  /**
   * The bases for which no step of `unitify` wraps: the largest unscaled
   * hundredths value fits in 64 bits, and seven prefixes reach past 2^64.
   */
  predicate NoWrap(nunit: nat) {
    100 * nunit * nunit < U64 && U64 <= Pow(nunit, |Prefixes|)
  }

  /**
   * `hundredths` of the unit nunit^e show `x` rounded down: never more than
   * `x`, and less than one whole unit below it.
   */
  predicate Represents(x: nat, nunit: nat, hundredths: nat, e: nat) {
    hundredths * Pow(nunit, e) <= 100 * x < (hundredths + 100) * Pow(nunit, e)
  }

  /** What holds of the working value `v` and prefix `e` between the steps of `unitify`. */
  predicate Scaling(x: nat, nunit: nat, v: nat, e: nat) {
    && Represents(x, nunit, v, e)
    && (e == 0 ==> v == 100 * x)
    && (e > 0 ==> 100 <= v && nunit < x)
  }

  /** The two bases the program passes are wrap-free. */
  lemma ProgramBasesAreWrapFree()
    ensures NoWrap(1000) && NoWrap(1024)
  {
    assert |Prefixes| == 7;
  }

  /** The scaling loop: divide by the base while more than 100 units remain. */
  function ScaleLoop(v: nat, e: nat, nunit: nat, limit: nat): (r: (nat, nat))
    requires 2 <= nunit
    ensures r.0 <= v && e <= r.1
    decreases v
  {
    if v > limit then
      ShrinkByDivision(v, nunit);
      ScaleLoop(v / nunit, e + 1, nunit, limit)
    else (v, e)
  }

  lemma ShrinkByDivision(v: nat, n: nat)
    requires 0 < v && 2 <= n
    ensures v / n < v
  {
    DivFacts(v, n);
    MulLe(2, n, v / n);
  }

  /** The table-size clamp: step back one prefix, multiplying by the base modulo 2^64. */
  function ClampLoop(v: nat, e: nat, nunit: nat): (r: (nat, nat))
    decreases e
  {
    if e != 0 && e >= |Prefixes| then ClampLoop(Wrap64(v * nunit), e - 1, nunit) else (v, e)
  }

  /**
   * `unitify(_in, buf, max, nunit, dounit)` without the final conversion to
   * `double` and the formatting: the prefix index and the hundredths value.
   */
  method Unitify(input: nat, nunit: nat, dounit: bool) returns (shown: Shown)
    requires input < U64 && 2 <= nunit < U64
    ensures shown.Scaled? == dounit
    ensures !dounit ==> shown == Plain(input)
    ensures shown.Scaled? ==> shown.prefix < |Prefixes| && shown.hundredths < U64
    ensures shown.Scaled? && NoWrap(nunit) ==> Represents(input, nunit, shown.hundredths, shown.prefix)
    ensures shown.Scaled? && NoWrap(nunit) ==> (shown.prefix == 0 <==> input <= nunit)
    ensures shown.Scaled? && NoWrap(nunit) && shown.prefix == 0 ==> shown.hundredths == 100 * input
    ensures shown.Scaled? && NoWrap(nunit) && shown.prefix > 0 ==> 100 <= shown.hundredths <= 100 * nunit
  {
    if !dounit {
      return Plain(input);
    }
    var first := FirstStep(input, nunit);
    var v, e := ScaleDown(first.0, first.1, nunit, input);
    v, e := ClampPrefix(v, e, nunit);
    shown := Scaled(v, e);
    if NoWrap(nunit) {
      WrapFreeScaling(input, nunit);
    }
  }

  /** The first division (for inputs above nunit^2) and the ×100 step. */
  function FirstStep(x: nat, nunit: nat): (r: (nat, nat))
    requires 2 <= nunit
    ensures r.0 < U64
  {
    var divided := if x > Wrap64(nunit * nunit) then (x / nunit, 1) else (x, 0);
    (Wrap64(divided.0 * 100), divided.1)
  }

  /**
   * The scaling loop: divide by the base while more than 100 units remain.
   * It stops at no more than 100 units (`100*nunit` as a 64-bit product) and
   * only ever gives up value for larger prefixes; when that product does not
   * wrap, hundredths `v0` of prefix `e0` that represent an input `x` still
   * represent it afterwards.
   */
  method ScaleDown(v0: nat, e0: nat, nunit: nat, ghost x: nat) returns (v: nat, e: nat)
    requires 2 <= nunit && v0 < U64
    ensures (v, e) == ScaleLoop(v0, e0, nunit, Wrap64(100 * nunit))
    ensures v < U64 && v <= v0 && e0 <= e
    ensures v <= Wrap64(100 * nunit)
    ensures 100 * nunit < U64 && Scaling(x, nunit, v0, e0) ==> Scaling(x, nunit, v, e) && v <= 100 * nunit
  {
    v, e := v0, e0;
    var limit := Wrap64(100 * nunit);
    while v > limit
      invariant v <= v0 && e0 <= e
      invariant ScaleLoop(v, e, nunit, limit) == ScaleLoop(v0, e0, nunit, limit)
      decreases v
    {
      ShrinkByDivision(v, nunit);
      e := e + 1;
      v := v / nunit;
    }
    if 100 * nunit < U64 && Scaling(x, nunit, v0, e0) {
      ScaleLoopKeepsScaling(x, nunit, v0, e0);
    }
  }

  /**
   * The clamp that keeps the prefix inside the table, multiplying back by the
   * base (modulo 2^64) for every prefix it gives up: a prefix past the table
   * becomes its last entry, with the value multiplied by the base once per
   * step back.
   */
  method ClampPrefix(v0: nat, e0: nat, nunit: nat) returns (v: nat, e: nat)
    requires v0 < U64
    ensures v < U64 && e < |Prefixes| && e <= e0
    ensures e0 < |Prefixes| ==> v == v0 && e == e0
    ensures e0 >= |Prefixes| ==> e == |Prefixes| - 1 && v == Wrap64(v0 * Pow(nunit, e0 - e))
  {
    v, e := v0, e0;
    while e != 0 && e >= |Prefixes|
      invariant v < U64 && e <= e0
      invariant e0 < |Prefixes| ==> v == v0 && e == e0
      invariant e0 >= |Prefixes| ==> e >= |Prefixes| - 1 && v == Wrap64(v0 * Pow(nunit, e0 - e))
      decreases e
    {
      ClampStep(v0, nunit, e0 - e);
      e := e - 1;
      v := Wrap64(v * nunit);
    }
  }

  /** One more step back multiplies the wrapped value by the base once more. */
  lemma ClampStep(v0: nat, nunit: nat, k: nat)
    ensures Wrap64(Wrap64(v0 * Pow(nunit, k)) * nunit) == Wrap64(v0 * Pow(nunit, k + 1))
  {
    Wrap64Mul(nunit, v0 * Pow(nunit, k));
    assert Wrap64(v0 * Pow(nunit, k)) * nunit == nunit * Wrap64(v0 * Pow(nunit, k));
    assert nunit * (v0 * Pow(nunit, k)) == v0 * (nunit * Pow(nunit, k));
  }

  /**
   * For a wrap-free base, the first step and the scaling loop keep `Scaling`,
   * and the loop stops at no more than 100 units with a prefix inside the
   * table, so the clamp has nothing to do.
   */
  lemma WrapFreeScaling(x: nat, nunit: nat)
    requires x < U64 && 2 <= nunit && NoWrap(nunit)
    ensures var first := FirstStep(x, nunit);
            var r := ScaleLoop(first.0, first.1, nunit, Wrap64(100 * nunit));
            Scaling(x, nunit, r.0, r.1) && r.0 <= 100 * nunit && r.1 < |Prefixes|
  {
    FirstStepScales(x, nunit);
    var first := FirstStep(x, nunit);
    ScaleLoopKeepsScaling(x, nunit, first.0, first.1);
    var r := ScaleLoop(first.0, first.1, nunit, 100 * nunit);
    WrapFreeBaseIsLarge(nunit);
    PrefixFits(x, nunit, r.0, r.1);
  }

  /** The scaling loop keeps `Scaling` and stops at no more than 100 units. */
  lemma {:induction false} ScaleLoopKeepsScaling(x: nat, nunit: nat, v: nat, e: nat)
    requires 2 <= nunit && Scaling(x, nunit, v, e) && 100 * nunit < U64
    ensures var r := ScaleLoop(v, e, nunit, 100 * nunit);
            Scaling(x, nunit, r.0, r.1) && r.0 <= 100 * nunit
    decreases v
  {
    if v > 100 * nunit {
      DivideStep(x, nunit, v, e);
      ShrinkByDivision(v, nunit);
      ScaleLoopKeepsScaling(x, nunit, v / nunit, e + 1);
    }
  }

  /** A wrap-free base is at least 100 (otherwise seven prefixes stay below 2^64). */
  lemma WrapFreeBaseIsLarge(nunit: nat)
    requires NoWrap(nunit)
    ensures 100 <= nunit
  {
    if nunit < 100 {
      assert |Prefixes| == 7;
      PowBaseMonotone(nunit, 99, |Prefixes|);
    }
  }

  /** The first division and the ×100 step establish `Scaling` without wrapping. */
  lemma FirstStepScales(x: nat, nunit: nat)
    requires x < U64 && 2 <= nunit && NoWrap(nunit)
    ensures 100 * nunit < U64
    ensures var first := FirstStep(x, nunit); Scaling(x, nunit, first.0, first.1)
  {
    WrapFreeBounds(nunit);
    if x > nunit * nunit {
      FirstDivision(x, nunit);
      FirstStepDivides(x, nunit);
    } else {
      SmallInputKeptWhole(x, nunit);
    }
  }

  /** Above nunit^2, the first step divides once and multiplies by 100 without wrapping. */
  lemma FirstStepDivides(x: nat, nunit: nat)
    requires 2 <= nunit && nunit * nunit < U64 && nunit * nunit < x
    requires 100 * (x / nunit) < U64
    ensures FirstStep(x, nunit) == (100 * (x / nunit), 1)
  {
    var q := x / nunit;
    assert Wrap64(nunit * nunit) == nunit * nunit;
    assert q * 100 == 100 * q;
  }

  /** Up to nunit^2, the first step keeps the whole input, in hundredths. */
  lemma SmallInputKeptWhole(x: nat, nunit: nat)
    requires 2 <= nunit && nunit * nunit < U64 && 100 * (nunit * nunit) < U64 && x <= nunit * nunit
    ensures FirstStep(x, nunit) == (100 * x, 0) && Scaling(x, nunit, 100 * x, 0)
  {
    MulLe(x, nunit * nunit, 100);
    assert Pow(nunit, 0) == 1;
  }

  lemma WrapFreeBounds(nunit: nat)
    requires NoWrap(nunit)
    ensures 100 <= nunit && nunit * nunit < U64 && 100 * nunit < U64
    ensures Wrap64(nunit * nunit) == nunit * nunit
  {
    WrapFreeBaseIsLarge(nunit);
    MulLe(1, 100 * nunit, nunit);
    MulLe(1, 100, nunit * nunit);
  }

  /** An input above nunit^2 is divided once before the ×100 step. */
  lemma FirstDivision(x: nat, nunit: nat)
    requires x < U64 && 100 <= nunit && nunit * nunit < x
    ensures 100 * (x / nunit) < U64 && Scaling(x, nunit, 100 * (x / nunit), 1)
  {
    DivFacts(x, nunit);
    DivMonotoneDivisor(x, 100, nunit);
    DivFacts(x, 100);
    FirstDivisionArith(x, nunit, x / nunit);
    assert Pow(nunit, 1) == nunit;
  }

  lemma FirstDivisionArith(x: nat, n: nat, q: nat)
    requires 100 <= n && n * n < x && q * n <= x < q * n + n && 100 * q <= x
    ensures 100 * q * n <= 100 * x < (100 * q + 100) * n
    ensures 100 <= 100 * q && n < x
  {
    if q < n {
      MulLe(q + 1, n, n);
    }
    MulLe(q * n, x, 100);
    MulLe(x, q * n + n - 1, 100);
  }

  lemma DivMonotoneDivisor(x: nat, d1: nat, d2: nat)
    requires 0 < d1 <= d2
    ensures x / d2 <= x / d1
  {
    DivFacts(x, d1);
    DivFacts(x, d2);
    if x / d2 > x / d1 {
      MulLe(x / d1 + 1, x / d2, d1);
      MulLe(d1, d2, x / d2);
    }
  }

  /** One turn of the scaling loop keeps `Scaling`. */
  lemma DivideStep(x: nat, nunit: nat, v: nat, e: nat)
    requires 2 <= nunit && Scaling(x, nunit, v, e) && v > 100 * nunit
    ensures Scaling(x, nunit, v / nunit, e + 1)
  {
    DivFacts(v, nunit);
    DivideStepArith(v, nunit, v / nunit, Pow(nunit, e));
    assert Pow(nunit, e + 1) == nunit * Pow(nunit, e);
  }

  lemma DivideStepArith(v: nat, n: nat, q: nat, p: nat)
    requires 2 <= n && q * n <= v < q * n + n && v > 100 * n
    ensures q * (n * p) <= v * p
    ensures (v + 100) * p <= (q + 100) * (n * p)
    ensures 100 <= q
  {
    MulLe(q * n, v, p);
    assert v + 100 <= (q + 100) * n;
    MulLe(v + 100, (q + 100) * n, p);
    if q < 100 {
      MulLe(q + 1, 100, n);
    }
  }

  /** For a wrap-free base the prefix chosen by the scaling loop is inside the table. */
  lemma PrefixFits(x: nat, nunit: nat, v: nat, e: nat)
    requires x < U64 && 2 <= nunit && NoWrap(nunit) && Scaling(x, nunit, v, e)
    ensures e < |Prefixes|
  {
    if e >= |Prefixes| {
      MulLe(100, v, Pow(nunit, e));
      assert Pow(nunit, e) <= x;
      if e > |Prefixes| {
        PowStrictlyIncreasing(nunit, |Prefixes|, e);
      }
    }
  }
}

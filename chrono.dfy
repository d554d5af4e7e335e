/**
 * Conversion between a system-clock time point and a POSIX `timespec`.
 *
 * A time point is its tick count since the epoch; the clock's tick is
 * `1 / ticksPerSecond` seconds (for the common standard libraries that is a
 * nanosecond or a microsecond).  `std::chrono::duration_cast` truncates
 * toward zero and `%` on durations takes the sign of the dividend, so both are
 * written with the C-style helpers of CInt.
 */
module Chrono {
  import opened CInt

  const NanosPerSecond: int := 1_000_000_000

  datatype Timespec = Timespec(tvSec: int, tvNsec: int)

  /**
   * `to_timespec`: whole seconds since the epoch, and the sub-second rest in
   * nanoseconds.  Together they give the time point's offset from the epoch
   * in nanoseconds (truncated toward zero, as `duration_cast<nanoseconds>`
   * would give it); before the epoch both parts are non-positive.
   */
  function ToTimespec(ticks: int, ticksPerSecond: int): (ts: Timespec)
    requires ticksPerSecond > 0
    ensures ts.tvSec * NanosPerSecond + ts.tvNsec == TruncDiv(ticks * NanosPerSecond, ticksPerSecond)
    ensures 0 <= ticks ==> 0 <= ts.tvSec * ticksPerSecond <= ticks < ts.tvSec * ticksPerSecond + ticksPerSecond
    ensures ticks < 0 ==> ts.tvSec * ticksPerSecond - ticksPerSecond < ticks <= ts.tvSec * ticksPerSecond
    ensures 0 <= ticks ==> 0 <= ts.tvNsec < NanosPerSecond
    ensures ticks < 0 ==> ts.tvSec <= 0 && -NanosPerSecond < ts.tvNsec <= 0
  {
    var secs := TruncDiv(ticks, ticksPerSecond);
    var rest := TruncRem(ticks, ticksPerSecond);
    var nsc := TruncDiv(rest * NanosPerSecond, ticksPerSecond);
    SplitTruncDiv(secs, rest, NanosPerSecond, ticksPerSecond);
    RestBounds(rest, ticksPerSecond);
    NonPositiveQuotient(ticks, ticksPerSecond);
    Timespec(secs, nsc)
  }

  /**
   * `to_time_point`: `seconds(tv_sec) + nanoseconds(tv_nsec)` as a nanosecond
   * count, cast to the clock's tick.  The cast multiplies by the reduced ratio
   * ticksPerSecond / 10^9 and truncates, which is the truncated quotient below.
   */
  function ToTimePoint(ts: Timespec, ticksPerSecond: int): (ticks: int)
    requires ticksPerSecond > 0
    ensures 0 <= ts.tvSec * NanosPerSecond + ts.tvNsec ==> 0 <= ticks
    ensures ts.tvSec * NanosPerSecond + ts.tvNsec <= 0 ==> ticks <= 0
  {
    TruncDiv((ts.tvSec * NanosPerSecond + ts.tvNsec) * ticksPerSecond, NanosPerSecond)
  }

  /** Before the epoch the whole seconds are not positive. */
  lemma NonPositiveQuotient(a: int, b: int)
    requires b > 0
    ensures a < 0 ==> TruncDiv(a, b) <= 0
  {
    if a < 0 {
      MulMonotone(TruncDiv(a, b), 0, b);
    }
  }

  /**
   * Scaling a tick count split as secs * n + rest (both parts of one sign) by g
   * and dividing by n again splits the same way: the whole part scales exactly.
   */
  lemma SplitTruncDiv(secs: int, rest: int, g: int, n: int)
    requires n > 0 && g > 0
    requires (secs >= 0 && rest >= 0) || (secs <= 0 && rest <= 0)
    ensures TruncDiv((secs * n + rest) * g, n) == secs * g + TruncDiv(rest * g, n)
  {
    var q := TruncDiv(rest * g, n);
    var r := rest * g - q * n;
    assert (secs * n + rest) * g == (secs * g + q) * n + r by {
      assert (secs * n + rest) * g == secs * g * n + rest * g;
    }
    if rest >= 0 {
      assert rest * g >= 0;
    } else {
      assert rest * g < 0;
    }
    if secs >= 0 && rest >= 0 {
      assert secs * n * g >= 0;
      assert (secs * n + rest) * g >= 0;
    } else {
      assert secs * n * g <= 0;
      assert (secs * n + rest) * g == secs * n * g + rest * g;
      if (secs * n + rest) * g >= 0 {
        assert rest * g == 0 && r == 0;
      }
    }
    TruncDivUnique((secs * n + rest) * g, n, secs * g + q, r);
  }

  /** The nanosecond part of a remainder of one second lies strictly inside one second. */
  lemma RestBounds(rest: int, n: int)
    requires n > 0 && -n < rest < n
    ensures 0 <= rest ==> 0 <= TruncDiv(rest * NanosPerSecond, n) < NanosPerSecond
    ensures rest <= 0 ==> -NanosPerSecond < TruncDiv(rest * NanosPerSecond, n) <= 0
  {
    var g := NanosPerSecond;
    var q := TruncDiv(rest * g, n);
    MulMonotone(rest, n, g);
    MulMonotone(-n, rest, g);
    assert rest * g == g * rest && n * g == g * n;
    MulMonotone(q, g, n);
    MulMonotone(-g, q, n);
    MulMonotone(0, rest, g);
    MulMonotone(rest, 0, g);
  }

  /**
   * Round trip: converting to a timespec and back gives the same time point
   * whenever a nanosecond is a whole number of ticks, i.e. ticksPerSecond
   * divides 10^9 (nanosecond and microsecond clocks among them).
   */
  lemma {:induction false} RoundTrip(ticks: int, ticksPerSecond: int)
    requires ticksPerSecond > 0 && NanosPerSecond % ticksPerSecond == 0
    ensures ToTimePoint(ToTimespec(ticks, ticksPerSecond), ticksPerSecond) == ticks
  {
    var n := ticksPerSecond;
    var k := NanosPerSecond / n;
    assert k * n == NanosPerSecond;
    var ts := ToTimespec(ticks, n);
    assert ts.tvSec * NanosPerSecond + ts.tvNsec == ticks * k by {
      assert ticks * NanosPerSecond == (ticks * k) * n;
      TruncDivExact(ticks * k, n);
    }
    assert (ticks * k) * n == ticks * NanosPerSecond;
    TruncDivExact(ticks, NanosPerSecond);
  }

  /**
   * Without that divisibility the round trip can lose a tick: with three ticks
   * to the second, one tick after the epoch is 333333333 ns, which converts
   * back to tick 0.
   */
  lemma RoundTripLosesTickWhenTickIsNotWholeNanoseconds()
    ensures ToTimespec(1, 3) == Timespec(0, 333_333_333)
    ensures ToTimePoint(ToTimespec(1, 3), 3) == 0
  {
  }
}

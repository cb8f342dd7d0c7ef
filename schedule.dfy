/**
 * The wake-up arithmetic of the background rotation cycle: the cycle
 * sleeps until the next instant that is a whole multiple of the
 * rotation interval, counted in nanoseconds since the Unix epoch.
 */
module Schedule {
  import opened Base

  const NanosPerSecond: int := 1_000_000_000

  /** Go's integer division, which truncates toward zero. */
  function QuoTrunc(a: int, b: int): (q: int)
    requires b != 0
    ensures a >= 0 && b > 0 ==> q == a / b
  {
    var q := (if a < 0 then -a else a) / (if b < 0 then -b else b);
    if (a < 0) != (b < 0) then -q else q
  }

  /** `next := (now/ns)*ns + ns` */
  function WakeAfter(now: int, ns: int): int
    requires ns != 0
  {
    QuoTrunc(now, ns) * ns + ns
  }

  predicate AlignedTo(t: int, ns: int)
    requires ns > 0
  {
    t % ns == 0
  }

  lemma MultipleIsAligned(q: int, ns: int)
    requires ns > 0
    ensures AlignedTo(q * ns, ns) && (q * ns) / ns == q
  {
  }

  lemma MulMonotone(j: int, k: int, ns: int)
    requires ns > 0 && j <= k
    ensures j * ns <= k * ns
  {
    assert k * ns - j * ns == (k - j) * ns;
  }

  /**
   * For a clock at or after the epoch, the wake instant is the least
   * multiple of the interval strictly after `now`, so it is at most one
   * interval away.
   */
  lemma WakeIsNextBoundary(now: int, ns: int)
    requires now >= 0 && ns > 0
    ensures AlignedTo(WakeAfter(now, ns), ns)
    ensures now < WakeAfter(now, ns) <= now + ns
    ensures forall t :: AlignedTo(t, ns) && now < t ==> WakeAfter(now, ns) <= t
  {
    var q := now / ns;
    var next := WakeAfter(now, ns);
    assert next == (q + 1) * ns;
    MultipleIsAligned(q + 1, ns);
    assert q * ns <= now < q * ns + ns;
    forall t | AlignedTo(t, ns) && now < t
      ensures next <= t
    {
      var k := t / ns;
      assert t == k * ns;
      if q + 1 <= k {
        MulMonotone(q + 1, k, ns);
      } else {
        MulMonotone(k, q, ns);
      }
    }
  }

  /** Two's-complement wrap-around of Go's int64 arithmetic. */
  function Wrap64(x: int): (r: int)
    ensures IsInt64(r)
  {
    (x - MinInt64) % 0x1_0000_0000_0000_0000 + MinInt64
  }

  /** `ns := lf.seconds * 1e9` as Go evaluates it, in int64. */
  function IntervalNanosInt64(seconds: int): int {
    Wrap64(seconds * NanosPerSecond)
  }

  /** The interval the cycle evidently means: the exact number of nanoseconds. */
  function IntervalNanos(seconds: int): (ns: int)
    ensures seconds > 0 ==> ns > 0
  {
    seconds * NanosPerSecond
  }

  /**
   * A legal int64 interval of 2^55 seconds makes the int64 product wrap
   * to exactly zero, and `now/ns` then divides by zero.
   */
  lemma IntervalWrapsToZero()
    ensures IsInt64(0x80_0000_0000_0000) && 0x80_0000_0000_0000 > 0
    ensures IntervalNanosInt64(0x80_0000_0000_0000) == 0
  {
  }

  /** The two agree for every interval up to about 292 years. */
  lemma IntervalNanosAgrees(seconds: int)
    requires 0 < seconds <= MaxInt64 / NanosPerSecond
    ensures IntervalNanosInt64(seconds) == IntervalNanos(seconds)
  {
  }
}

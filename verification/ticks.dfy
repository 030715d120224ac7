/** The tick counter shared by both programs: how a counter value is shown and
    where a tick falls on a nanosecond time line. */
module Ticks {
  import opened Uint64

  const NanosPerSecond: int := 1_000_000_000

  /** The value printed for counter `t`: `(t % 10) + 1`. */
  function Display(t: u64): (v: int)
    ensures 1 <= v <= 10
  {
    t % 10 + 1
  }

  /** `start + std::chrono::seconds(t)`, in nanoseconds. */
  function Instant(start: int, t: int): (i: int)
  {
    start + t * NanosPerSecond
  }

  /** Away from the wrap, the display after an increment is the next value of
      the cycle 1, 2, ..., 10, 1: nothing skipped, nothing repeated. */
  lemma DisplayCycles(t: u64)
    requires t < Max
    ensures Display(Inc(t)) == Display(t) % 10 + 1
    ensures Display(Inc(t)) != Display(t)
  {
  }

  /** At the 64-bit wrap the cycle breaks: 2^64 is not a multiple of 10, so
      the value after 6 is 1. */
  lemma DisplayAtWrap()
    ensures Display(Max) == 6
    ensures Display(Inc(Max)) == 1
  {
  }
}

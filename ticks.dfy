/**
 * MicroPython's millisecond clock on the RP2040 ports: `ticks_ms()` counts
 * modulo `2^30`, and `ticks_diff(a, b)` is the signed difference `a - b`
 * wrapped into `[-2^29, 2^29)`.
 */
module Ticks {
  const TicksPeriod := 0x4000_0000
  const TicksHalf := 0x2000_0000

  /** `((a - b + TICKS_PERIOD / 2) & TICKS_MAX) - TICKS_PERIOD / 2`. */
  function TicksDiff(a: int, b: int): (d: int)
    ensures -TicksHalf <= d < TicksHalf
    ensures (a - d) % TicksPeriod == b % TicksPeriod
  {
    (a - b + TicksHalf) % TicksPeriod - TicksHalf
  }

  /** Two readings less than half a period apart are told apart by their plain difference. */
  lemma TicksDiffPlain(a: int, b: int)
    requires -TicksHalf <= a - b < TicksHalf
    ensures TicksDiff(a, b) == a - b
  {
    assert 0 <= a - b + TicksHalf < TicksPeriod;
  }
}

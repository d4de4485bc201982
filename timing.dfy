/**
 * Cycle-counter arithmetic and the WS2812 pulse-width thresholds.
 *
 * The ESP8266 exposes a free-running 32-bit cycle counter (CCOUNT). The
 * transmitter measures every delay as an unsigned 32-bit difference of two
 * readings, and derives its three delays (in cycles) from the CPU clock in
 * MHz with truncating integer division.
 */
module Timing {

  /** The counter wraps around after this many cycles. */
  const CounterModulus: int := 0x1_0000_0000

  /** A `uint32_t`. */
  type UInt32 = x: int | 0 <= x < 0x1_0000_0000

  /** `a - b` on `uint32_t`: subtraction that wraps around modulo 2^32. */
  function Sub32(a: UInt32, b: UInt32): (r: UInt32)
    ensures (b + r) % CounterModulus == a
  {
    if a >= b then a - b else a - b + CounterModulus
  }

  /**
   * The wrap-around difference of two counter readings is the true number of
   * cycles between them, provided fewer than 2^32 cycles passed: the readings
   * may lie on either side of one counter overflow.
   */
  lemma ElapsedAcrossWrap(earlier: int, later: int)
    requires earlier <= later < earlier + CounterModulus
    ensures Sub32(later % CounterModulus, earlier % CounterModulus) == later - earlier
  {
    var qe, re := earlier / CounterModulus, earlier % CounterModulus;
    var ql, rl := later / CounterModulus, later % CounterModulus;
    assert earlier == qe * CounterModulus + re;
    assert later == ql * CounterModulus + rl;
    if ql == qe {
      assert rl >= re;
    } else {
      assert ql - qe >= 1;
      assert (ql - qe) * CounterModulus < 2 * CounterModulus;
      assert ql == qe + 1;
    }
  }

  /**
   * The same fact for two readings `start` and `c` taken at true times
   * `earlier` and `later`.
   */
  lemma ElapsedBetweenReadings(earlier: int, later: int, start: UInt32, c: UInt32)
    requires earlier <= later < earlier + CounterModulus
    requires start == earlier % CounterModulus && c == later % CounterModulus
    ensures Sub32(c, start) == later - earlier
  {
    ElapsedAcrossWrap(earlier, later);
  }

  /**
   * Going back `Sub32(c, start)` cycles from a reading `c` reaches a time at
   * which the counter read `start`.
   */
  lemma ReadingOrigin(later: int, start: UInt32, c: UInt32)
    requires c == later % CounterModulus
    ensures (later - Sub32(c, start)) % CounterModulus == start
  {
    var q := later / CounterModulus;
    assert later == q * CounterModulus + c;
    if c >= start {
      assert later - Sub32(c, start) == q * CounterModulus + start;
    } else {
      assert later - Sub32(c, start) == (q - 1) * CounterModulus + start;
    }
  }

  /** The three delays of one bit, in cycles. */
  datatype Thresholds = Thresholds(
    t0h: nat,   // high time of a 0 bit (about 0.30 us)
    t1h: nat,   // high time of a 1 bit (about 0.60 us)
    ttot: nat   // least time from one rising edge to the next (1.25 us)
  )

  /**
   * The delays for a CPU clock of `cpuFreqMHz` MHz, computed as in the
   * source: 1000 * f divided by 3333, 1666 and 800. All operands are
   * non-negative, so C's truncating division and Dafny's agree.
   */
  function ThresholdsFor(cpuFreqMHz: nat): Thresholds
  {
    Thresholds(1000 * cpuFreqMHz / 3333, 1000 * cpuFreqMHz / 1666, 1000 * cpuFreqMHz / 800)
  }

  /** The high time the transmitter waits for a bit of value `bit`. */
  function HighTime(th: Thresholds, bit: bool): nat
  {
    if bit then th.t1h else th.t0h
  }

  /**
   * The delays are ordered for every clock of at least 2 MHz: a 1 bit stays
   * high at least twice as long as a 0 bit, and the bit period is at least
   * twice the long high time. (At 1 MHz both high times truncate to 0.)
   */
  lemma ThresholdsOrdered(cpuFreqMHz: nat)
    requires 2 <= cpuFreqMHz
    ensures var th := ThresholdsFor(cpuFreqMHz);
      th.t0h < th.t1h < th.ttot &&
      2 * th.t0h <= th.t1h && 2 * th.t1h <= th.ttot
  {
    var x := 1000 * cpuFreqMHz;
    var th := ThresholdsFor(cpuFreqMHz);
    assert 3333 * th.t0h <= x;
    assert x < 1666 * (th.t1h + 1) && 1666 * th.t1h <= x;
    assert x < 800 * (th.ttot + 1);
    assert 3332 * th.t0h < 1666 * (th.t1h + 1);
    assert 2 * th.t0h < th.t1h + 1;
    assert 1600 * th.t1h < 800 * (th.ttot + 1);
    assert 2 * th.t1h < th.ttot + 1;
    assert x >= 2000;
  }

  /**
   * The bit period never exceeds 1.25 us and falls short of it by less than
   * one cycle; it is exactly 1.25 us (ttot * 800 == 1000 * f) precisely when
   * the clock in MHz is a multiple of 4.
   */
  lemma PeriodIsNominal(cpuFreqMHz: nat)
    ensures var ttot := ThresholdsFor(cpuFreqMHz).ttot;
      ttot * 800 <= 1000 * cpuFreqMHz < (ttot + 1) * 800 &&
      (ttot * 800 == 1000 * cpuFreqMHz <==> cpuFreqMHz % 4 == 0)
  {
    var ttot := ThresholdsFor(cpuFreqMHz).ttot;
    var q, r := cpuFreqMHz / 4, cpuFreqMHz % 4;
    assert cpuFreqMHz == 4 * q + r;
    assert 1000 * cpuFreqMHz == 800 * (5 * q) + 1000 * r;
    if r == 0 {
      assert ttot == 5 * q;
    } else {
      assert 1000 * cpuFreqMHz == 800 * (5 * q + r) + 200 * r;
      assert ttot == 5 * q + r;
    }
  }

  /** The two clocks the ESP8266 runs at: 80 MHz and 160 MHz. */
  lemma SupportedClockRates()
    ensures ThresholdsFor(80) == Thresholds(24, 48, 100)
    ensures ThresholdsFor(160) == Thresholds(48, 96, 200)
  {
  }

  /**
   * For any 8-bit clock value the delays are at most ttot, which stays far
   * below the counter's range.
   */
  lemma ThresholdsBounded(cpuFreqMHz: nat)
    requires cpuFreqMHz < 256
    ensures var th := ThresholdsFor(cpuFreqMHz);
      th.t0h <= th.t1h <= th.ttot < 0x8_0000
  {
    var x := 1000 * cpuFreqMHz;
    var th := ThresholdsFor(cpuFreqMHz);
    assert 1666 * th.t0h <= 3333 * th.t0h <= x < 1666 * (th.t1h + 1);
    assert 800 * th.t1h <= 1666 * th.t1h <= x < 800 * (th.ttot + 1);
  }
}

/**
 * The WS2812 bit-stream transmitter `ws2812_write` and its one caller in the
 * application, `update_leds`.
 *
 * The transmitter walks a buffer of GRB bytes and sends each bit, most
 * significant first, as one pulse on a GPIO pin: it waits until `ttot` cycles
 * have passed since the previous rising edge, drives the pin high, waits
 * `t1h` cycles for a 1 bit or `t0h` cycles for a 0 bit, and drives it low.
 * Every wait compares an unsigned 32-bit difference of CCOUNT readings.
 */
module Ws2812 {
  import opened Timing
  import opened BitOrder
  import opened Esp8266

  /** One pulse on the line: true cycle times of its rising and falling edges. */
  datatype Pulse = Pulse(rise: nat, fall: nat)

  /** The register writes that produce `pulses`: a W1TS then a W1TC per pulse. */
  function Writes(pinMask: bv32, pulses: seq<Pulse>): (ws: seq<GpioWrite>)
    ensures |ws| == 2 * |pulses|
  {
    if pulses == [] then []
    else
      var last := pulses[|pulses| - 1];
      Writes(pinMask, pulses[..|pulses| - 1]) + [OutW1ts(pinMask, last.rise), OutW1tc(pinMask, last.fall)]
  }

  /**
   * The writes strictly alternate: write 2i sets the pin mask high at the
   * rise of pulse i, write 2i+1 clears it at the fall of pulse i.
   */
  lemma {:induction false} WritesAlternate(pinMask: bv32, pulses: seq<Pulse>, i: nat)
    requires i < |pulses|
    ensures Writes(pinMask, pulses)[2 * i] == OutW1ts(pinMask, pulses[i].rise)
    ensures Writes(pinMask, pulses)[2 * i + 1] == OutW1tc(pinMask, pulses[i].fall)
  {
    var n := |pulses|;
    if i < n - 1 {
      WritesAlternate(pinMask, pulses[..n - 1], i);
      assert Writes(pinMask, pulses)[2 * i] == Writes(pinMask, pulses[..n - 1])[2 * i];
      assert Writes(pinMask, pulses)[2 * i + 1] == Writes(pinMask, pulses[..n - 1])[2 * i + 1];
    }
  }

  /** After a non-empty pulse train the pin is low, whatever its level before. */
  lemma {:induction false} PinLeftLow(pin: nat, pulses: seq<Pulse>, level: bool)
    requires pin < 32
    ensures LevelAfter(Writes(PinBit(pin), pulses), pin, level) == (pulses == [] && level)
  {
    if pulses != [] {
      var n := |pulses|;
      var ws := Writes(PinBit(pin), pulses);
      var last := pulses[n - 1];
      assert ws[..|ws| - 1] == Writes(PinBit(pin), pulses[..n - 1]) + [OutW1ts(PinBit(pin), last.rise)];
      assert PinBit(pin) & PinBit(pin) != 0;
    }
  }

  /** Two distinct pins have disjoint register bits. */
  lemma PinBitsDisjoint(pin: nat, other: nat)
    requires pin < 32 && other < 32 && pin != other
    ensures PinBit(pin) & PinBit(other) == 0
  {
  }

  /** A pulse train on `pin` leaves every other pin at the level it had. */
  lemma {:induction false} OtherPinsUntouched(pin: nat, other: nat, pulses: seq<Pulse>, level: bool)
    requires pin < 32 && other < 32 && pin != other
    ensures LevelAfter(Writes(PinBit(pin), pulses), other, level) == level
  {
    if pulses != [] {
      var n := |pulses|;
      var ws := Writes(PinBit(pin), pulses);
      var last := pulses[n - 1];
      assert ws[..|ws| - 1] == Writes(PinBit(pin), pulses[..n - 1]) + [OutW1ts(PinBit(pin), last.rise)];
      assert (ws[..|ws| - 1])[..|ws| - 2] == Writes(PinBit(pin), pulses[..n - 1]);
      OtherPinsUntouched(pin, other, pulses[..n - 1], level);
      PinBitsDisjoint(pin, other);
    }
  }

  /**
   * Pulse i carries bit i of `bits` with the timing the transmitter
   * guarantees:
   *  - pulse i stays high at least the threshold of bit i and at most
   *    `maxTick` cycles longer (the wait stops at the first reading past it);
   *  - each rising edge after the first comes at least `ttot` cycles after
   *    the previous one, and after the previous falling edge; it comes at
   *    most `ttot + 2 * maxTick` cycles after the previous one (the wait
   *    overshoots by less than one step, and starts at most one step late);
   *  - the first rising edge comes at a CCOUNT reading of at least `ttot`,
   *    because the wait before it measures from `start_time = 0`.
   */
  ghost predicate PulseTimed(pulses: seq<Pulse>, bits: seq<bool>, i: nat, th: Thresholds, maxTick: nat)
    requires i < |pulses| && i < |bits|
  {
    var p := pulses[i];
    HighTime(th, bits[i]) <= p.fall - p.rise <= HighTime(th, bits[i]) + maxTick &&
    (i == 0 ==> p.rise % CounterModulus >= th.ttot) &&
    (i > 0 ==> pulses[i - 1].fall <= p.rise &&
               pulses[i - 1].rise + th.ttot <= p.rise <= pulses[i - 1].rise + th.ttot + 2 * maxTick)
  }

  /** The first `n` pulses carry the first `n` bits with that timing. */
  ghost predicate TimedUpTo(pulses: seq<Pulse>, bits: seq<bool>, n: nat, th: Thresholds, maxTick: nat)
  {
    n <= |pulses| && n <= |bits| &&
    forall i | 0 <= i < n :: PulseTimed(pulses, bits, i, th, maxTick)
  }

  /** `pulses` carry exactly `bits`, with the transmitter's timing. */
  ghost predicate Timed(pulses: seq<Pulse>, bits: seq<bool>, th: Thresholds, maxTick: nat)
  {
    |pulses| == |bits| && TimedUpTo(pulses, bits, |pulses|, th, maxTick)
  }

  /** Whether the first `n` pulses are timed depends on nothing after them. */
  lemma TimedUpToExtend(pulses: seq<Pulse>, more: seq<Pulse>, bits: seq<bool>, n: nat,
                        th: Thresholds, maxTick: nat)
    requires TimedUpTo(pulses, bits, n, th, maxTick)
    ensures TimedUpTo(pulses + more, bits, n, th, maxTick)
  {
    forall i | 0 <= i < n
      ensures PulseTimed(pulses + more, bits, i, th, maxTick)
    {
      assert PulseTimed(pulses, bits, i, th, maxTick);
      assert (pulses + more)[i] == pulses[i];
      assert i > 0 ==> (pulses + more)[i - 1] == pulses[i - 1];
    }
  }

  /**
   * While `mask` is at bit `j` of `pixel`, the `p`-th byte sent, the test
   * `pixel & mask` reads bit `n` of the stream.
   */
  lemma BitSelect(sent: seq<bv8>, bits: seq<bool>, p: nat, j: nat, pixel: bv8, mask: bv8, n: nat)
    requires bits == BitStream(sent) && 1 <= p <= |sent| && j < 8 && mask == Mask(j) && pixel == sent[p - 1]
    requires n == 8 * (p - 1) + j
    ensures n < |bits| && (pixel & mask != 0) == bits[n]
  {
    BitStreamAt(sent, p - 1, j);
    MaskSelectsBit(pixel, mask, j);
  }

  /** Appending a pulse to a train appends its two writes. */
  lemma WritesSnoc(pinMask: bv32, pulses: seq<Pulse>, p: Pulse)
    ensures Writes(pinMask, pulses + [p]) == Writes(pinMask, pulses) + [OutW1ts(pinMask, p.rise), OutW1tc(pinMask, p.fall)]
  {
    assert (pulses + [p])[..|pulses|] == pulses;
  }

  /** A timed train extended by a pulse timed for the next bit is timed for one more bit. */
  lemma TimedSnoc(pulses: seq<Pulse>, bits: seq<bool>, th: Thresholds, maxTick: nat, p: Pulse)
    requires |pulses| < |bits| && TimedUpTo(pulses, bits, |pulses|, th, maxTick)
    requires HighTime(th, bits[|pulses|]) <= p.fall - p.rise <= HighTime(th, bits[|pulses|]) + maxTick
    requires pulses == [] ==> p.rise % CounterModulus >= th.ttot
    requires pulses != [] ==>
      pulses[|pulses| - 1].fall <= p.rise &&
      pulses[|pulses| - 1].rise + th.ttot <= p.rise <= pulses[|pulses| - 1].rise + th.ttot + 2 * maxTick
    ensures TimedUpTo(pulses + [p], bits, |pulses| + 1, th, maxTick)
  {
    TimedUpToExtend(pulses, [p], bits, |pulses|, th, maxTick);
  }

  /** The bytes `ws2812_write(pin, pixels, length)` sends: at least one. */
  function SentBytes(pixels: seq<bv8>, length: nat): (sent: seq<bv8>)
    requires 1 <= |pixels| && length <= |pixels|
    ensures |sent| == if length == 0 then 1 else length
  {
    pixels[..if length == 0 then 1 else length]
  }

  /**
   * The busy wait of the transmitter: reads CCOUNT until its wrap-around
   * distance from `startTime` reaches `threshold`, and returns that reading.
   *
   * `origin` is the true time whose counter value is `startTime` and from
   * which the returned reading lies less than one counter period on: then
   * the wrap-around distance is the true number of cycles since `origin`.
   * When the caller knows that time (`anchored`, it is `since`) the wait
   * measures from it; otherwise (the first bit, `start_time == 0`) the
   * origin is the last counter overflow before the first reading.
   */
  method SpinUntil(hw: Esp8266, startTime: UInt32, threshold: nat, ghost anchored: bool, ghost since: int)
    returns (c: UInt32, ghost origin: int)
    requires hw.Valid()
    requires threshold + hw.maxTick < CounterModulus
    requires anchored ==>
      startTime == since % CounterModulus && since <= hw.now && hw.now + hw.maxTick < since + CounterModulus
    modifies hw`now
    ensures old(hw.now) < hw.now && c == hw.now % CounterModulus
    ensures origin % CounterModulus == startTime && (anchored ==> origin == since)
    ensures !anchored ==> origin <= old(hw.now) + hw.maxTick
    ensures hw.now - origin == Sub32(c, startTime) >= threshold
    ensures hw.now <= old(hw.now) + hw.maxTick || hw.now < origin + threshold + hw.maxTick
  {
    c := hw.GetCycleCount();
    if anchored {
      origin := since;
      ElapsedBetweenReadings(since, hw.now, startTime, c);
    } else {
      origin := hw.now - Sub32(c, startTime);
      ReadingOrigin(hw.now, startTime, c);
    }
    while Sub32(c, startTime) < threshold
      invariant old(hw.now) < hw.now && c == hw.now % CounterModulus
      invariant origin % CounterModulus == startTime && hw.now - origin == Sub32(c, startTime)
      invariant hw.now <= old(hw.now) + hw.maxTick || hw.now < origin + threshold + hw.maxTick
      decreases origin + threshold - hw.now
    {
      c := hw.GetCycleCount();
      ElapsedBetweenReadings(origin, hw.now, startTime, c);
    }
  }

  /**
   * The timing part of one pass of the transmit loop: wait until `ttot`
   * cycles have passed since `startTime`, set the pin high, wait `t` cycles,
   * set it low. Returns the reading taken at the rising edge (the next
   * `start_time`) and the pulse produced.
   *
   * Unless this is the `first` pulse, `startTime` is the reading at the
   * previous rising edge `prevRise`, and the pin has been high or low since
   * then for at most `ttot + maxTick` cycles.
   */
  method SendPulse(hw: Esp8266, pinMask: bv32, startTime: UInt32, t: nat, ttot: nat,
                   ghost first: bool, ghost prevRise: int)
    returns (riseTime: UInt32, ghost pulse: Pulse)
    requires hw.Valid()
    requires t <= ttot < 0x8_0000
    requires first ==> startTime == 0
    requires !first ==>
      startTime == prevRise % CounterModulus && prevRise <= hw.now <= prevRise + ttot + hw.maxTick
    modifies hw`now, hw`gpioWrites
    ensures hw.gpioWrites == old(hw.gpioWrites) + [OutW1ts(pinMask, pulse.rise), OutW1tc(pinMask, pulse.fall)]
    ensures riseTime == pulse.rise % CounterModulus
    ensures old(hw.now) < pulse.rise && hw.now == pulse.fall
    ensures t <= pulse.fall - pulse.rise <= t + hw.maxTick
    ensures first ==> pulse.rise % CounterModulus >= ttot && pulse.rise <= old(hw.now) + ttot + 2 * hw.maxTick
    ensures !first ==> prevRise + ttot <= pulse.rise <= prevRise + ttot + 2 * hw.maxTick
  {
    // Wait until a whole bit period has passed since the previous rising edge.
    var c;
    ghost var origin;
    c, origin := SpinUntil(hw, startTime, ttot, !first, prevRise);
    hw.WriteOutW1ts(pinMask);
    ghost var rise := hw.now;
    riseTime := c;
    // Hold the line high for the high time `t`.
    c, origin := SpinUntil(hw, riseTime, t, true, rise);
    hw.WriteOutW1tc(pinMask);
    pulse := Pulse(rise, hw.now);
  }

  /**
   * Where the transmitter stands after the pulses `pulses`, with `startTime`
   * the value of its `start_time` variable: before the first pulse
   * `start_time` is 0 and no time has passed since `since`; after a pulse
   * the line is low since that pulse's falling edge (now), `start_time` is
   * the reading at its rising edge, no more than `ttot + maxTick` cycles
   * have passed since that edge, and the first pulse rose after `since` by
   * at most one bit period and two counter steps.
   */
  ghost predicate Resumable(pulses: seq<Pulse>, startTime: UInt32, now: nat, since: nat, ttot: nat, maxTick: nat)
  {
    if pulses == [] then startTime == 0 && now == since
    else
      var last := pulses[|pulses| - 1];
      since < pulses[0].rise <= since + ttot + 2 * maxTick &&
      startTime == last.rise % CounterModulus && last.fall == now &&
      last.rise <= now <= last.rise + ttot + maxTick
  }

  /**
   * One pass of the transmit loop for the next bit of `bits`: `t` is that
   * bit's high time, the pulses so far carry the bits before it, and the
   * writes since `base` are theirs. The pulse sent extends the train by one
   * correctly timed pulse, and its two writes extend the trace.
   */
  method SendBit(hw: Esp8266, pinMask: bv32, startTime: UInt32, t: nat, ttot: nat,
                 ghost th: Thresholds, ghost bits: seq<bool>, ghost pulses: seq<Pulse>, ghost base: seq<GpioWrite>,
                 ghost since: nat)
    returns (riseTime: UInt32, ghost pulse: Pulse)
    requires hw.Valid()
    requires th.ttot == ttot < 0x8_0000
    requires |pulses| < |bits| && t == HighTime(th, bits[|pulses|]) <= ttot
    requires TimedUpTo(pulses, bits, |pulses|, th, hw.maxTick)
    requires hw.gpioWrites == base + Writes(pinMask, pulses)
    requires Resumable(pulses, startTime, hw.now, since, ttot, hw.maxTick)
    modifies hw`now, hw`gpioWrites
    ensures TimedUpTo(pulses + [pulse], bits, |pulses| + 1, th, hw.maxTick)
    ensures hw.gpioWrites == base + Writes(pinMask, pulses + [pulse])
    ensures Resumable(pulses + [pulse], riseTime, hw.now, since, ttot, hw.maxTick)
  {
    ghost var first := pulses == [];
    ghost var prevRise := if first then 0 else pulses[|pulses| - 1].rise;
    riseTime, pulse := SendPulse(hw, pinMask, startTime, t, ttot, first, prevRise);
    TimedSnoc(pulses, bits, th, hw.maxTick, pulse);
    WritesSnoc(pinMask, pulses, pulse);
    assert (pulses + [pulse])[0] == if first then pulse else pulses[0];
  }

  /**
   * "Next bit/byte": `mask >>= 1`; when that leaves 0, either `p` has reached
   * `end` (`last`: the loop breaks) or the next byte is loaded into `pixel`
   * and `mask` starts again at 0x80. `j` is the bit position of `mask`, and
   * `sent` the bytes the loop sends.
   */
  method NextBit(pixels: array<bv8>, p: nat, end: nat, pixel: bv8, mask: bv8,
                 ghost sent: seq<bv8>, ghost j: nat)
    returns (p': nat, pixel': bv8, mask': bv8, last: bool, ghost j': nat)
    requires |sent| == (if end == 0 then 1 else end) && |sent| <= pixels.Length && sent == pixels[..|sent|]
    requires 1 <= p <= |sent| && j < 8 && mask == Mask(j) && pixel == sent[p - 1]
    ensures last <==> j == 7 && p == |sent|
    ensures !last ==>
      1 <= p' <= |sent| && j' < 8 && mask' == Mask(j') && pixel' == sent[p' - 1] &&
      8 * (p' - 1) + j' == 8 * (p - 1) + j + 1
  {
    p', pixel', j' := p, pixel, j;
    MaskShift(j);
    mask' := mask >> 1;
    last := false;
    if mask' == 0 {
      if p >= end {
        last := true;
        return;
      }
      pixel' := pixels[p];
      p' := p + 1;
      mask' := 0x80;
      j' := 0;
    } else {
      j' := j + 1;
    }
  }

  /**
   * `ws2812_write`. The returned ghost `pulses` are the pulses put on the
   * line; the contract says they are exactly the register writes performed,
   * on the pin's bit only, and that they carry the bits of the sent bytes
   * MSB first with the required timing.
   *
   * `pixels` must hold at least one byte even when `length` is 0, because the
   * first byte is read before any length test; with `length == 0` that byte
   * is sent.
   */
  method Ws2812Write(hw: Esp8266, pin: nat, pixels: array<bv8>, length: nat)
    returns (ghost pulses: seq<Pulse>)
    requires hw.Valid()
    requires pin < 32
    requires 1 <= pixels.Length && length <= pixels.Length
    modifies hw
    ensures hw.gpioWrites == old(hw.gpioWrites) + Writes(PinBit(pin), pulses)
    ensures Timed(pulses, BitStream(SentBytes(pixels[..], length)), ThresholdsFor(hw.cpuFreqMHz), hw.maxTick)
    ensures |pulses| == 8 * (if length == 0 then 1 else length)
    ensures pulses != [] && hw.now == pulses[|pulses| - 1].fall
    ensures old(hw.now) < pulses[0].rise <= old(hw.now) + ThresholdsFor(hw.cpuFreqMHz).ttot + 2 * hw.maxTick
    ensures !hw.interruptsMasked
  {
    var pinMask: bv32 := PinBit(pin);
    var p := 0;
    var end := length;
    var pixel := pixels[p];
    p := p + 1;
    var mask: bv8 := 0x80;
    var startTime: UInt32 := 0;
    var th := ThresholdsFor(hw.cpuFreqMHz);
    var t0h, t1h, ttot := th.t0h, th.t1h, th.ttot;
    ThresholdsBounded(hw.cpuFreqMHz);

    hw.IntrLock();

    ghost var sent := SentBytes(pixels[..], length);
    ghost var bits := BitStream(sent);
    ghost var j := 0;     // position of `mask` within `pixel`, 0 = MSB
    ghost var start := hw.now;
    ghost var base := hw.gpioWrites;
    pulses := [];

    while true
      invariant 1 <= p <= |sent|
      invariant j < 8 && mask == Mask(j) && pixel == sent[p - 1]
      invariant |pulses| == 8 * (p - 1) + j
      invariant hw.gpioWrites == base + Writes(pinMask, pulses)
      invariant TimedUpTo(pulses, bits, |pulses|, th, hw.maxTick)
      invariant Resumable(pulses, startTime, hw.now, start, ttot, hw.maxTick)
      invariant hw.interruptsMasked
      decreases 8 * |sent| - |pulses|
    {
      BitSelect(sent, bits, p, j, pixel, mask, |pulses|);
      var t := if pixel & mask != 0 then t1h else t0h;
      ghost var pulse;
      startTime, pulse := SendBit(hw, pinMask, startTime, t, ttot, th, bits, pulses, base, start);
      pulses := pulses + [pulse];

      var last;
      p, pixel, mask, last, j := NextBit(pixels, p, end, pixel, mask, sent, j);
      if last {
        break;
      }
    }

    hw.IntrUnlock();
  }

  /**
   * Corrected `ws2812_write`: returns at once when `length` is 0, so that an
   * empty buffer sends nothing and is never read; otherwise it behaves as
   * `ws2812_write`.
   */
  method Ws2812WriteChecked(hw: Esp8266, pin: nat, pixels: array<bv8>, length: nat)
    returns (ghost pulses: seq<Pulse>)
    requires hw.Valid()
    requires pin < 32
    requires length <= pixels.Length
    modifies hw
    ensures hw.gpioWrites == old(hw.gpioWrites) + Writes(PinBit(pin), pulses)
    ensures Timed(pulses, BitStream(pixels[..length]), ThresholdsFor(hw.cpuFreqMHz), hw.maxTick)
    ensures length == 0 ==> pulses == [] && hw.now == old(hw.now)
    ensures pulses != [] ==> hw.now == pulses[|pulses| - 1].fall
    ensures pulses != [] ==>
      old(hw.now) < pulses[0].rise <= old(hw.now) + ThresholdsFor(hw.cpuFreqMHz).ttot + 2 * hw.maxTick
    ensures hw.interruptsMasked == (length == 0 && old(hw.interruptsMasked))
  {
    if length == 0 {
      pulses := [];
      return;
    }
    pulses := Ws2812Write(hw, pin, pixels, length);
  }

  /**
   * As written, `ws2812_write` with `length == 0` still sends the first byte
   * of the buffer: eight pulses, one per bit of `pixels[0]`.
   */
  lemma ZeroLengthSendsFirstByte(pixels: seq<bv8>)
    requires 1 <= |pixels|
    ensures BitStream(SentBytes(pixels, 0)) == ByteBits(pixels[0])
    ensures |BitStream(SentBytes(pixels, 0))| == 8 != 8 * 0
  {
    assert SentBytes(pixels, 0) == [pixels[0]];
    assert BitStream([pixels[0]]) == ByteBits(pixels[0]) + BitStream([]);
  }

  /**
   * Between two rising edges `k - i` pulses apart lie at least `ttot` and at
   * most `ttot + 2 * maxTick` cycles per pulse.
   */
  lemma {:induction false} RisingEdgesSpaced(pulses: seq<Pulse>, bits: seq<bool>, th: Thresholds, maxTick: nat,
                                             i: nat, k: nat)
    requires Timed(pulses, bits, th, maxTick)
    requires i <= k < |pulses|
    ensures pulses[i].rise + (k - i) * th.ttot <= pulses[k].rise
    ensures pulses[k].rise <= pulses[i].rise + (k - i) * (th.ttot + 2 * maxTick)
    ensures i < k ==> pulses[i].fall <= pulses[k].rise
  {
    if i < k {
      RisingEdgesSpaced(pulses, bits, th, maxTick, i, k - 1);
      assert PulseTimed(pulses, bits, k, th, maxTick);
      var m := k - 1 - i;
      assert (m + 1) * th.ttot == m * th.ttot + th.ttot;
      assert (m + 1) * (th.ttot + 2 * maxTick) == m * (th.ttot + 2 * maxTick) + (th.ttot + 2 * maxTick);
    }
  }

  /**
   * A train whose high times are at most `ttot`, and whose first pulse rose
   * at most one bit period and two counter steps after `start`, ends within
   * one such period per pulse, plus one, of `start`. With the contract of
   * `Ws2812Write` (`start` the time of the call), a call returns within
   * `(8 * length + 1) * (ttot + 2 * maxTick)` cycles: time proportional to
   * the number of bits.
   */
  lemma TrainDuration(pulses: seq<Pulse>, bits: seq<bool>, th: Thresholds, maxTick: nat, start: int)
    requires Timed(pulses, bits, th, maxTick) && pulses != []
    requires th.t0h <= th.ttot && th.t1h <= th.ttot
    requires pulses[0].rise <= start + th.ttot + 2 * maxTick
    ensures pulses[|pulses| - 1].fall <= start + (|pulses| + 1) * (th.ttot + 2 * maxTick)
  {
    var n := |pulses|;
    var period := th.ttot + 2 * maxTick;
    RisingEdgesSpaced(pulses, bits, th, maxTick, 0, n - 1);
    assert PulseTimed(pulses, bits, n - 1, th, maxTick);
    assert pulses[n - 1].fall <= pulses[0].rise + (n - 1) * period + period;
    assert (n + 1) * period == (n - 1) * period + period + period;
  }

  /**
   * The line is low between two pulses for at least the bit period minus the
   * high time actually spent: `ttot` less the earlier bit's threshold and one
   * counter step.
   */
  lemma LowTimeBound(pulses: seq<Pulse>, bits: seq<bool>, th: Thresholds, maxTick: nat, i: nat)
    requires Timed(pulses, bits, th, maxTick)
    requires i + 1 < |pulses|
    ensures pulses[i + 1].rise - pulses[i].fall >= th.ttot - HighTime(th, bits[i]) - maxTick
  {
    assert PulseTimed(pulses, bits, i, th, maxTick);
    assert PulseTimed(pulses, bits, i + 1, th, maxTick);
  }

  /**
   * How a WS2812 reads the line: a pulse that stays high for at least `t1h`
   * cycles is a 1, a shorter one a 0.
   */
  function ReceivedBits(pulses: seq<Pulse>, t1h: nat): (bits: seq<bool>)
    ensures |bits| == |pulses|
  {
    seq(|pulses|, i requires 0 <= i < |pulses| => pulses[i].fall - pulses[i].rise >= t1h)
  }

  /**
   * When a 0 bit's high time plus one counter step stays below a 1 bit's
   * high time, the pulses decode to exactly the bits sent.
   */
  lemma ReceiverRecoversBits(pulses: seq<Pulse>, bits: seq<bool>, th: Thresholds, maxTick: nat)
    requires Timed(pulses, bits, th, maxTick)
    requires th.t0h + maxTick < th.t1h
    ensures ReceivedBits(pulses, th.t1h) == bits
  {
    var received := ReceivedBits(pulses, th.t1h);
    forall i | 0 <= i < |pulses|
      ensures received[i] == bits[i]
    {
      assert PulseTimed(pulses, bits, i, th, maxTick);
    }
  }

  /**
   * Under the same condition, regrouping the decoded bits into bytes gives
   * back the buffer sent.
   */
  lemma ReceiverRecoversPixels(pulses: seq<Pulse>, sent: seq<bv8>, th: Thresholds, maxTick: nat)
    requires Timed(pulses, BitStream(sent), th, maxTick)
    requires th.t0h + maxTick < th.t1h
    ensures |ReceivedBits(pulses, th.t1h)| % 8 == 0
    ensures Unpack(ReceivedBits(pulses, th.t1h)) == sent
  {
    ReceiverRecoversBits(pulses, BitStream(sent), th, maxTick);
    UnpackBitStream(sent);
  }

  /** The GPIO pin the LED strip is wired to. */
  const LedPin: nat := 2

  /**
   * The buffer `update_leds` sends, three bytes per LED in green, red, blue
   * order.
   */
  const LedColors: seq<bv8> :=
    [0, 0, 0, 32, 0, 0, 0, 32, 0, 0, 0, 32, 32, 32, 0, 32, 0, 32, 0, 32, 32]

  /** A colour as red, green and blue intensities. */
  datatype Rgb = Rgb(red: bv8, green: bv8, blue: bv8)

  /** The colour of LED `k` in a GRB buffer. */
  function LedColor(grb: seq<bv8>, k: nat): Rgb
    requires 3 * k + 3 <= |grb|
  {
    Rgb(grb[3 * k + 1], grb[3 * k], grb[3 * k + 2])
  }

  /**
   * Read as GRB, the buffer sets the seven LEDs to off, green, red, blue,
   * yellow, cyan and magenta, each at intensity 32.
   */
  lemma LedColorsAreGrb()
    ensures |LedColors| == 21
    ensures LedColor(LedColors, 0) == Rgb(0, 0, 0)
    ensures LedColor(LedColors, 1) == Rgb(0, 32, 0)
    ensures LedColor(LedColors, 2) == Rgb(32, 0, 0)
    ensures LedColor(LedColors, 3) == Rgb(0, 0, 32)
    ensures LedColor(LedColors, 4) == Rgb(32, 32, 0)
    ensures LedColor(LedColors, 5) == Rgb(0, 32, 32)
    ensures LedColor(LedColors, 6) == Rgb(32, 0, 32)
  {
  }

  /**
   * `update_leds`: sends `LedColors` on GPIO 2. That is 168 pulses on pin 2
   * alone, carrying the colours' bits MSB first with the transmitter's timing.
   */
  method UpdateLeds(hw: Esp8266) returns (ghost pulses: seq<Pulse>)
    requires hw.Valid()
    modifies hw
    ensures hw.gpioWrites == old(hw.gpioWrites) + Writes(PinBit(LedPin), pulses)
    ensures |pulses| == 168
    ensures Timed(pulses, BitStream(LedColors), ThresholdsFor(hw.cpuFreqMHz), hw.maxTick)
    ensures !hw.interruptsMasked
  {
    var colors := new bv8[|LedColors|](i requires 0 <= i < |LedColors| => LedColors[i]);
    assert colors[..] == LedColors;
    pulses := Ws2812Write(hw, LedPin, colors, |LedColors|);
    assert SentBytes(colors[..], |LedColors|) == LedColors;
  }
}

# WS2812 transmitter for the ESP8266, modelled in Dafny

This project models `ws2812_write` from `user/user_main.c`. It is the
bit-banged driver that sends a buffer of GRB bytes to a WS2812 LED strip on one
GPIO pin of an ESP8266. The driver works as follows:

- It walks the buffer byte by byte and each byte most-significant bit first,
  with a byte pointer `p` and a bit cursor `mask`.
- For every bit it first waits until `ttot` cycles have passed since the
  previous rising edge. Then it drives the pin high through `GPIO_OUT_W1TS`,
  waits `t1h` cycles (for a 1) or `t0h` cycles (for a 0), and drives the pin
  low through `GPIO_OUT_W1TC`.
- Each wait compares an unsigned 32-bit difference of two readings of the
  free-running cycle counter CCOUNT.
- The three delays come from the CPU clock in MHz by integer division.
- Interrupts are masked for the whole transmission.

The model has four modules:

- `Timing` (`timing.dfy`) covers 32-bit wrap-around subtraction and why it
  measures true elapsed time across one counter overflow. It also covers the
  threshold arithmetic and its properties at 80 and 160 MHz.
- `BitOrder` (`bit_order.dfy`) covers the order of bits on the wire: the
  `mask` cursor, the bit stream of a buffer, and a reference decoder that
  regroups a bit stream into bytes.
- `Esp8266` (`esp8266.dfy`) is a class for the hardware the driver touches:
  - true time `now` in cycles (CCOUNT is `now` modulo 2^32);
  - the CPU clock;
  - the log of GPIO set/clear register writes, each stamped with the time it
    happened;
  - the interrupt mask.

  Reading CCOUNT advances time by an unknown amount between 1 and `maxTick`
  cycles.
- `Ws2812` (`ws2812.dfy`) contains the transmitter itself as an imperative
  method. The waits are loops over counter readings. The transmit loop keeps
  the source's variables `p`, `end`, `pixel`, `mask` and `start_time`. The
  module also holds the pulse-train specification the method is proved
  against, the lemmas about that specification (timing, alternation, pin
  level, decodability), a corrected variant for zero-length buffers, and
  `update_leds` as a concrete use.

`Ws2812Write` returns a ghost sequence of pulses, each given by the true times
of its rising and falling edge. Its contract states:

- the register writes it performs are exactly one W1TS at each rise and one
  W1TC at each fall, on `1 << pin` only;
- the pulses carry the bits of the sent bytes MSB first, one per pulse;
- each pulse is high for the bit's threshold plus less than one counter step;
- consecutive rising edges are at least `ttot` and at most `ttot + 2 * maxTick`
  cycles apart;
- interrupts are unmasked on return.

The buffer is an `array<bv8>` that no method may modify, so it is only read.

## Model

| member | source | states |
|---|---|---|
| Timing.Sub32 | user/user_main.c:114 | `c - start_time` on `uint32_t`: the result is the 32-bit value that, added to `start_time` modulo 2^32, gives `c` |
| Timing.ElapsedAcrossWrap | user/user_main.c:114-118 | when fewer than 2^32 cycles pass between two times, the wrap-around difference of their counter values is the true number of cycles between them, even across an overflow |
| Timing.ElapsedBetweenReadings | user/user_main.c:114-118 | the same for two CCOUNT readings taken at known true times |
| Timing.ReadingOrigin | user/user_main.c:114 | going back `c - start_time` cycles from a reading `c` reaches a time at which the counter read `start_time` |
| Timing.ThresholdsOrdered | user/user_main.c:104-106 | for every clock of at least 2 MHz: `t0h < t1h < ttot`, `2*t0h <= t1h` and `2*t1h <= ttot` |
| Timing.PeriodIsNominal | user/user_main.c:106 | `ttot*800 <= 1000*f < (ttot+1)*800`, with equality (`ttot` exactly 1.25 us) if and only if `f` is a multiple of 4 |
| Timing.SupportedClockRates | user/user_main.c:104-106 | the delays are 24/48/100 cycles at 80 MHz and 48/96/200 at 160 MHz |
| Timing.ThresholdsBounded | user/user_main.c:104-106 | for any 8-bit clock value, `t0h <= t1h <= ttot < 2^19`, far below the counter's range |
| BitOrder.MaskShift | user/user_main.c:121 | `mask >>= 1` moves the cursor from bit j to bit j+1 and gives 0 exactly after bit 7; the cursor is never 0 before that |
| BitOrder.MaskValues | user/user_main.c:102 | the cursor takes the values 0x80, 0x40, ..., 0x01 |
| BitOrder.BitAtIsBinaryDigit | user/user_main.c:112 | while `mask` is `0x80 >> j`, `pixel & mask` is non-zero exactly when binary digit 7-j of `pixel` is 1, i.e. when `pixel / 2^(7-j)` is odd |
| BitOrder.ByteBitsAreMsbFirst | user/user_main.c:112-127 | the eight bits of a byte in the order sent, read most-significant first, denote the byte's value |
| BitOrder.BitStream | user/user_main.c:110-129 | the bit stream of a buffer has 8 bits per byte |
| BitOrder.BitStreamAt | user/user_main.c:121-127 | bit 8k+j of the stream is bit j of byte k, counted from the MSB: bytes in buffer order, each MSB first |
| BitOrder.PackByteBits | user/user_main.c:112-127 | sending a byte packed from eight bits sends exactly those eight bits |
| BitOrder.BytePacks | user/user_main.c:112-127 | packing the eight bits sent for a byte gives the byte back |
| BitOrder.UnpackBitStream | user/user_main.c:110-129 | regrouping the stream of a buffer into bytes gives back the buffer, so the stream determines the buffer |
| BitOrder.BitStreamUnpack | user/user_main.c:110-129 | every whole-byte bit stream is the stream of the bytes it regroups into |
| Esp8266.Esp8266.GetCycleCount | user/user_main.c:68-73 | a CCOUNT reading returns true time modulo 2^32, after time has advanced by 1 to `maxTick` cycles |
| Esp8266.Esp8266.WriteOutW1ts | user/user_main.c:115 | appends a set write of the mask, stamped with the current time, to the write log |
| Esp8266.Esp8266.WriteOutW1tc | user/user_main.c:119 | appends a clear write of the mask, stamped with the current time, to the write log |
| Esp8266.Esp8266.IntrLock | user/user_main.c:108 | interrupts are masked afterwards |
| Esp8266.Esp8266.IntrUnlock | user/user_main.c:131 | interrupts are unmasked afterwards |
| Ws2812.Writes | user/user_main.c:114-119 | a pulse train corresponds to exactly two register writes per pulse |
| Ws2812.WritesAlternate | user/user_main.c:114-119 | the writes strictly alternate: write 2i sets the pin at pulse i's rise, write 2i+1 clears it at pulse i's fall |
| Ws2812.PinLeftLow | user/user_main.c:119-124 | after a non-empty train the pin is low, whatever its level before |
| Ws2812.PinBitsDisjoint | user/user_main.c:98 | `1 << pin` and `1 << other` share no bit for distinct pins |
| Ws2812.OtherPinsUntouched | user/user_main.c:98 | a train on one pin leaves every other pin at its previous level |
| Ws2812.BitSelect | user/user_main.c:112 | while the cursor is at bit j of the p-th byte sent, `pixel & mask` reads bit 8(p-1)+j of the stream |
| Ws2812.SentBytes | user/user_main.c:99-101 | the call sends `length` bytes, or one byte when `length` is 0 |
| Ws2812.SpinUntil | user/user_main.c:114 | the busy-wait returns the first reading whose wrap-around distance from `start_time` reaches the threshold; that distance is the true time elapsed since the moment `start_time` was read, and the wait overshoots by less than one counter step |
| Ws2812.SendPulse | user/user_main.c:114-119 | one pulse: the rise comes at least `ttot` (and at most `ttot + 2*maxTick`) cycles after the previous rise. For the first pulse, the rise comes at a counter value of at least `ttot`. The pin stays high between `t` and `t + maxTick` cycles. The new `start_time` is the reading at the rise. Exactly the two writes are appended |
| Ws2812.SendBit | user/user_main.c:112-119 | one pass extends a correctly timed train for the next bit by one pulse, and the write log by that pulse's two writes |
| Ws2812.NextBit | user/user_main.c:121-127 | the cursor step: the loop ends exactly after bit 7 of the last byte sent; otherwise it moves to the next bit position, loading the next byte after bit 7 |
| Ws2812.Ws2812Write | user/user_main.c:93-132 | the transmitter: `8*max(length,1)` pulses on pin `1 << pin` only, carrying `pixels[0..max(length,1))` MSB first; write log = alternating set/clear writes of those pulses; each pulse timed as in `SendPulse`; first rise within `ttot + 2*maxTick` of the call; returns at the last fall with interrupts unmasked |
| Ws2812.Ws2812WriteChecked | user/user_main.c:93-132 | corrected transmitter: sends `pixels[0..length)` exactly. A zero-length call writes nothing and takes no time. Otherwise it behaves as `Ws2812Write` |
| Ws2812.ZeroLengthSendsFirstByte | user/user_main.c:100-124 | as written, `length == 0` sends the eight bits of `pixels[0]` rather than nothing |
| Ws2812.RisingEdgesSpaced | user/user_main.c:114-117 | rising edges k-i pulses apart are between `(k-i)*ttot` and `(k-i)*(ttot+2*maxTick)` cycles apart, and each pulse ends before any later one rises |
| Ws2812.TrainDuration | user/user_main.c:110-129 | a train that starts within one period of a time `start` ends within `(n+1)*(ttot+2*maxTick)` cycles of it, so a call takes time proportional to the number of bits |
| Ws2812.LowTimeBound | user/user_main.c:114-119 | between two pulses the line is low for at least `ttot` minus the earlier bit's high time minus one counter step |
| Ws2812.ReceiverRecoversBits | user/user_main.c:112-119 | if `t0h + maxTick < t1h`, classifying each pulse as 1 when high for at least `t1h` cycles recovers exactly the bits sent |
| Ws2812.ReceiverRecoversPixels | user/user_main.c:93-132 | under the same condition, regrouping the classified bits gives back exactly the bytes sent |
| Ws2812.LedColorsAreGrb | user/user_main.c:134-143 | read as GRB, the 21-byte buffer sets seven LEDs to off, green, red, blue, yellow, cyan, magenta at intensity 32 |
| Ws2812.UpdateLeds | user/user_main.c:141-146 | `update_leds` sends 168 pulses on GPIO 2 only, carrying the colour buffer MSB first with the transmitter's timing, and leaves interrupts unmasked |

## Left out

- UART setup, debug printing, project-info reporting, pin-mux and GPIO-enable
  configuration, boot sequencing and SDK callbacks are not part of this
  model. They configure the chip and log; they do not transmit.
- The inline `rsr ccount` instruction is modelled by its effect:
  `GetCycleCount` returns true time modulo 2^32.
- The cycles spent by the instructions between two readings are not
  modelled. Each reading instead advances time by an unknown 1 to `maxTick`
  cycles, and register writes take no time.
- The model assumes `maxTick` is at most 2^30. Real gaps between readings
  are a few dozen cycles, and the wrap-around argument needs every wait to
  stay well below 2^32 cycles.
- `system_get_cpu_freq()` is the constant field `cpuFreqMHz`, below 256
  because it is a `uint8`.
- Nanosecond pulse widths, datasheet tolerances, the latch/reset gap between
  frames and settle delays are physical facts, not code behaviour. The model
  states all timing in cycles.
- `ets_intr_lock` / `ets_intr_unlock` are modelled as a flag. What masking
  prevents (interrupts stretching a wait) is not modelled; the bound of
  `maxTick` cycles per reading stands in for it.
- Ws2812Write: requires `pixels.Length >= 1`, because the first byte is read
  before any length test. Reading an empty buffer is undefined behaviour in
  C.
- Ws2812Write: requires `pin < 32`, because `1 << pin` is undefined in C for
  larger pins and the registers are 32 bits wide.
- Ws2812Write: the pulses it returns are a ghost observation of the line,
  not a value of the source. The body of the transmit loop is split into
  calls of `SendBit`, `SendPulse`, `SpinUntil` and `NextBit`, with the same
  statements in the same order.
- Ws2812Write: the bound on the duration of a call is not part of its
  contract. It follows from that contract by `TrainDuration`.
- Ws2812Write: the first wait measures from `start_time = 0`, that is,
  until the raw counter reads at least `ttot`. The model says nothing about
  the gap between the last pulse of one call and the first of the next.
- Ws2812Write: a buffer of zero bytes evidently should send nothing, but
  the code sends `pixels[0]` anyway, and so does the model; see Findings.

## Findings

| source | as written | input that shows it | evidently intended | confidence | as-written member | corrected member |
|---|---|---|---|---|---|---|
| user/user_main.c:100-124 | the first byte is read and sent before any length test, and the end test runs only after a whole byte, so `length == 0` still sends eight pulses (and reads past an empty buffer) | `length = 0` with `pixels = [0x20]`: eight pulses go out, the third of them a long one | a zero-length call returns without reading the buffer or touching the pin | medium, not executed | Ws2812.ZeroLengthSendsFirstByte | Ws2812.Ws2812WriteChecked |

/**
 * The parts of the ESP8266 the transmitter touches: the free-running cycle
 * counter CCOUNT, the GPIO output set/clear registers, the interrupt mask and
 * the CPU clock setting.
 *
 * Time is modelled by `now`, the true number of cycles since reset; software
 * sees only its low 32 bits through CCOUNT. Between two readings of CCOUNT
 * the counter advances by at least one and at most `maxTick` cycles (an
 * unknown amount, chosen afresh at each reading). Register writes are
 * instantaneous and are logged with the true time at which they happen.
 */
module Esp8266 {
  import opened Timing

  /** One write to a GPIO output register, stamped with the true cycle time. */
  datatype GpioWrite =
    | OutW1ts(mask: bv32, at: nat)   // GPIO_OUT_W1TS: drives the pins of `mask` high
    | OutW1tc(mask: bv32, at: nat)   // GPIO_OUT_W1TC: drives the pins of `mask` low

  /** The register bit of GPIO pin `pin`: `1 << pin`. */
  function PinBit(pin: nat): bv32
    requires pin < 32
  {
    1 << pin
  }

  /** The level of pin `pin` once `w` has been written, if it was `level` before. */
  function ApplyWrite(w: GpioWrite, pin: nat, level: bool): bool
    requires pin < 32
  {
    if w.mask & PinBit(pin) == 0 then level else w.OutW1ts?
  }

  /** The level of pin `pin` after the writes `ws`, starting from `level`. */
  function LevelAfter(ws: seq<GpioWrite>, pin: nat, level: bool): bool
    requires pin < 32
  {
    if ws == [] then level
    else ApplyWrite(ws[|ws| - 1], pin, LevelAfter(ws[..|ws| - 1], pin, level))
  }

  /** A quarter of the counter's range: the model's bound on `maxTick`. */
  const MaxTickLimit: nat := 0x4000_0000

  class Esp8266 {
    /** True cycles since reset; CCOUNT holds this modulo 2^32. */
    var now: nat
    /** The most cycles that pass between two consecutive readings of CCOUNT. */
    const maxTick: nat
    /** What `system_get_cpu_freq()` returns: the CPU clock in MHz (a `uint8`). */
    const cpuFreqMHz: nat
    /** Every write to GPIO_OUT_W1TS / GPIO_OUT_W1TC so far, oldest first. */
    var gpioWrites: seq<GpioWrite>
    /** Whether `ets_intr_lock` is in force. */
    var interruptsMasked: bool

    ghost predicate Valid()
    {
      1 <= maxTick <= MaxTickLimit && cpuFreqMHz < 256
    }

    constructor (cpuFreqMHz: nat, maxTick: nat, now: nat)
      requires 1 <= maxTick <= MaxTickLimit && cpuFreqMHz < 256
      ensures Valid()
      ensures this.cpuFreqMHz == cpuFreqMHz && this.maxTick == maxTick && this.now == now
      ensures gpioWrites == [] && !interruptsMasked
    {
      this.cpuFreqMHz := cpuFreqMHz;
      this.maxTick := maxTick;
      this.now := now;
      gpioWrites := [];
      interruptsMasked := false;
    }

    /** `_getCycleCount()`: reads CCOUNT (`rsr ccount`). */
    method GetCycleCount() returns (c: UInt32)
      requires Valid()
      modifies this`now
      ensures old(now) < now <= old(now) + maxTick
      ensures c == now % CounterModulus
    {
      var d :| 1 <= d <= maxTick;
      now := now + d;
      c := now % CounterModulus;
    }

    /** `GPIO_REG_WRITE(GPIO_OUT_W1TS_ADDRESS, mask)`. */
    method WriteOutW1ts(mask: bv32)
      modifies this`gpioWrites
      ensures gpioWrites == old(gpioWrites) + [OutW1ts(mask, now)]
    {
      gpioWrites := gpioWrites + [OutW1ts(mask, now)];
    }

    /** `GPIO_REG_WRITE(GPIO_OUT_W1TC_ADDRESS, mask)`. */
    method WriteOutW1tc(mask: bv32)
      modifies this`gpioWrites
      ensures gpioWrites == old(gpioWrites) + [OutW1tc(mask, now)]
    {
      gpioWrites := gpioWrites + [OutW1tc(mask, now)];
    }

    /** `ets_intr_lock()`. */
    method IntrLock()
      modifies this`interruptsMasked
      ensures interruptsMasked
    {
      interruptsMasked := true;
    }

    /** `ets_intr_unlock()`. */
    method IntrUnlock()
      modifies this`interruptsMasked
      ensures !interruptsMasked
    {
      interruptsMasked := false;
    }
  }
}

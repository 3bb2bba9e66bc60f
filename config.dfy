/** Build-time configuration of the LPTIM1 low-power timer that drives the
    scheduler tick, and the unsigned 32-bit arithmetic the C code does with it. */
module LptimConfig {

  const Uint32Modulus: int := 0x1_0000_0000

  /** C's `uint32_t` (and `TickType_t` on this port). */
  type uint32 = x: int | 0 <= x < Uint32Modulus

  /** LPTIM1 is clocked from the 32.768 kHz LSE crystal. */
  const InputFrequencyHz: uint32 := 32768
  /** The prescaler the code uses (the doc comment above the routines speaks
      of 1024; the macro says 32). */
  const Prescaler: uint32 := 32
  /** Counts per second, `InputFrequencyHz / Prescaler` (see
      `ConfigDerivation`). */
  const CounterFrequencyHz: uint32 := 1024
  /** Timer counts per millisecond, `CounterFrequencyHz / 1000` under C's
      unsigned division (see `ConfigDerivation`). */
  const TicksPerMs: uint32 := 1
  /** One scheduler tick period, in milliseconds. */
  const TickIntervalMs: uint32 := 1
  /** The LPTIM counter, compare and autoreload registers are 16 bits wide. */
  const MaxPeriod: uint32 := 0xFFFF

  /** Unsigned 32-bit multiplication, wrapping like C's `*` on `uint32_t`. */
  function Mul32(a: uint32, b: uint32): uint32 {
    (a * b) % Uint32Modulus
  }

  /** Unsigned 32-bit subtraction, wrapping like C's `-` on `uint32_t`
      (Dafny's `%` is Euclidean, so the result is never negative). */
  function Sub32(a: uint32, b: uint32): uint32 {
    (a - b) % Uint32Modulus
  }

  /** The derived constants are the macros' unsigned divisions: the counter
      runs at 1024 Hz, and the integer division by 1000 leaves exactly one
      timer count per millisecond (the fractional 0.024 is truncated away). */
  lemma ConfigDerivation()
    ensures CounterFrequencyHz == InputFrequencyHz / Prescaler
    ensures TicksPerMs == CounterFrequencyHz / 1000
    ensures TicksPerMs * 1000 < CounterFrequencyHz < (TicksPerMs + 1) * 1000
  {
  }

  /** Timer counts for one tick period: `TICKS_PER_MS * TICK_INTERVAL_MS`. */
  function OneTickCounts(): (r: uint32)
    ensures r == 1
    ensures 0 < r <= MaxPeriod
  {
    Mul32(TicksPerMs, TickIntervalMs)
  }

  /** Timer counts for `ticks` tick periods: `TICKS_PER_MS * ticks` in 32-bit
      arithmetic. With one count per millisecond the conversion is the
      identity: the product never wraps, and a count of ticks that survived
      the clamp fits the 16-bit compare register. */
  function IdleCounts(ticks: uint32): (r: uint32)
    ensures r == ticks
    ensures ticks <= MaxPeriod ==> r <= MaxPeriod
  {
    Mul32(TicksPerMs, ticks)
  }
}

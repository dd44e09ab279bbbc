/**
 * The tick gate of the control loop. The millisecond clock is a 32-bit
 * unsigned counter that wraps; the elapsed time is taken by unsigned
 * subtraction, which is arithmetic modulo 2^32.
 */
module Tick {

  const Modulus: int := 0x1_0000_0000

  newtype u32 = x: int | 0 <= x < 0x1_0000_0000

  /** Milliseconds between two control cycles. */
  const ReadInterval: u32 := 2000

  /** `now - last` in unsigned 32-bit arithmetic: the forward distance from `last` to `now` round the clock. */
  function Elapsed(now: u32, last: u32): (d: u32)
    ensures (last as int + d as int) % Modulus == now as int
  {
    var d := (now as int - last as int) % Modulus;
    assert d == if now >= last then now as int - last as int else now as int - last as int + Modulus;
    d as u32
  }

  /** The gate of the control loop: a cycle is due once the interval has passed. */
  predicate Due(now: u32, last: u32) {
    Elapsed(now, last) >= ReadInterval
  }

  /** The clock reading `delay` milliseconds after it read `last`. */
  function Later(last: u32, delay: nat): u32 {
    ((last as int + delay) % Modulus) as u32
  }

  /** Across a wrap of the counter, the elapsed time is still the true delay (below 2^32 ms). */
  lemma ElapsedIsDelay(last: u32, delay: nat)
    requires delay < Modulus
    ensures Elapsed(Later(last, delay), last) as int == delay
  {
    var now := Later(last, delay);
    if last as int + delay < Modulus {
      assert now as int == last as int + delay;
    } else {
      assert now as int == last as int + delay - Modulus;
    }
  }

  /** A cycle is due exactly when at least the interval has truly passed. */
  lemma DueIffIntervalPassed(last: u32, delay: nat)
    requires delay < Modulus
    ensures Due(Later(last, delay), last) <==> delay >= ReadInterval as int
  {
    ElapsedIsDelay(last, delay);
  }
}

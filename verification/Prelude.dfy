/** Shared vocabulary: optional values, machine integers, and the clock. */
module Wrappers {
  datatype Option<+T> = None | Some(value: T)

  datatype Result<+T, +E> = Ok(value: T) | Err(error: E)
}

module MachineInts {
  const TWO_32: nat := 0x1_0000_0000

  /** Rust's `u32`. */
  type u32 = n: nat | n < 0x1_0000_0000

  /** `u32::saturating_add(1)`. */
  function SaturatingInc(n: u32): u32 {
    if n == TWO_32 - 1 then n else n + 1
  }
}

/** Monotonic clock readings, in seconds. */
module Clock {
  type Instant = real

  /** `Instant::duration_since` saturates at zero when the argument lies in the future. */
  function Elapsed(now: Instant, earlier: Instant): (d: real)
    ensures d >= 0.0
  {
    if now >= earlier then now - earlier else 0.0
  }

  function Millis(ms: nat): real {
    ms as real / 1000.0
  }
}

/** Fixed-width integers and the ticks of simulation time. */
module Machine {

  const UINT32: nat := 0x1_0000_0000
  const UINT64: int := 0x1_0000_0000_0000_0000
  const INT64_LIMIT: int := 0x8000_0000_0000_0000

  // simulation time counts picoseconds
  const TICKS_PER_US: int := 1_000_000
  const TICKS_PER_MS: int := 1_000_000_000
  const TICKS_PER_S: int := 1_000_000_000_000

  /** C++ integer division: rounds towards zero. */
  function Truncate(a: int, b: int): int
    requires b > 0
  {
    if a >= 0 then a / b else -(-a / b)
  }

  /** The signed value that a 64-bit unsigned value converts to. */
  function ToSigned(x: int): int {
    if x < INT64_LIMIT then x else x - UINT64
  }
}

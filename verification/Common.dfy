/** Machine integers and the result type shared by every component. */
module Common {

  const TWO32: int := 0x1_0000_0000
  const TWO63: int := 0x8000_0000_0000_0000
  const TWO64: int := 0x1_0000_0000_0000_0000

  /** Go's byte, uint64 and int64, and len(x) of a Go slice or string, which never exceeds MaxInt64. */
  type byte = x: int | 0 <= x < 256
  type uint64 = x: int | 0 <= x < 0x1_0000_0000_0000_0000
  type int64 = x: int | -0x8000_0000_0000_0000 <= x < 0x8000_0000_0000_0000
  type int32 = x: int | -0x8000_0000 <= x < 0x8000_0000

  datatype Option<+T> = None | Some(value: T)

  datatype Result<+T, +E> = Ok(value: T) | Err(error: E)

  /** The conversion int64(x) of an unsigned value already reduced modulo 2^64. */
  function ToInt64(x: uint64): int64 {
    if x < TWO63 then x else x - TWO64
  }

  /** The conversion int32(x): keep the low 32 bits, read them as two's complement. */
  function ToInt32(x: nat): int32 {
    var low := x % TWO32;
    if low < 0x8000_0000 then low else low - TWO32
  }

  /** The conversion uint64(h) of a signed value: sign extension. */
  function FromInt32(h: int32): uint64 {
    if h >= 0 then h else h + TWO64
  }
}

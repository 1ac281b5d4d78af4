/** The machine types of the Go code, with wrap-around written out, and the two wrappers for absence and failure. */
module GoTypes {

  const TWO_63: int := 0x8000_0000_0000_0000
  const TWO_64: int := 0x1_0000_0000_0000_0000

  type byte = x: int | 0 <= x < 0x100
  type uint32 = x: int | 0 <= x < 0x1_0000_0000
  type uint64 = x: int | 0 <= x < TWO_64
  type int64 = x: int | -TWO_63 <= x < TWO_63

  /** Bytes of a Go string or slice. */
  type Bytes = seq<byte>

  const MAX_UINT64: uint64 := TWO_64 - 1

  /** Go's uint64 arithmetic: the exact result reduced modulo 2^64. */
  function WrapUint64(x: int): uint64 {
    x % TWO_64
  }

  /** The conversion int64(x) of a uint64. */
  function ToInt64(x: uint64): int64 {
    if x < TWO_63 then x else x - TWO_64
  }

  /** The conversion uint64(x) of an int64. */
  function ToUint64(x: int64): uint64 {
    if 0 <= x then x else x + TWO_64
  }

  /** Go's int64 arithmetic: two's complement wrap-around. */
  function WrapInt64(x: int): int64 {
    ToInt64(WrapUint64(x))
  }

  /** Where the machine types wrap. */
  lemma WrapPoints()
    ensures WrapUint64(18446744073709551616) == 0 && WrapUint64(-1) == 18446744073709551615 == MAX_UINT64
    ensures WrapInt64(9223372036854775808) == -9223372036854775808
    ensures ToInt64(18446744073709551615) == -1 && ToUint64(-1) == 18446744073709551615
  {
  }

  function Max(x: uint64, y: uint64): (m: uint64)
    ensures m >= x && m >= y && (m == x || m == y)
  {
    if x < y then y else x
  }

  function Min(x: uint64, y: uint64): (m: uint64)
    ensures m <= x && m <= y && (m == x || m == y)
  {
    if x < y then x else y
  }

  datatype Option<+T> = None | Some(value: T)

  datatype Result<+T, +E> = Ok(value: T) | Err(error: E)
}

/**
 * Small shared vocabulary: optional values, pass/fail outcomes for the
 * source's thrown exceptions, and the machine-integer ranges the source's
 * C++ types impose.
 */
module Common {

  datatype Option<+T> = None | Some(value: T)

  /** An operation that either completes or throws an error of kind E. */
  datatype Outcome<+E> = Pass | Fail(error: E)

  const TWO_TO_31: int := 0x8000_0000
  const TWO_TO_32: int := 0x1_0000_0000
  const TWO_TO_63: int := 0x8000_0000_0000_0000
  const TWO_TO_64: int := 0x1_0000_0000_0000_0000

  /** C++ `int` (32-bit, two's complement). */
  type Int32 = x: int | -TWO_TO_31 <= x < TWO_TO_31
  /** C++ `short` (16-bit). */
  type Int16 = x: int | -0x8000 <= x < 0x8000
  /** C++ `size_t` and `uint64_t`. */
  type Uint64 = x: int | 0 <= x < TWO_TO_64

  /** Conversion of any integer to a 32-bit `int` (wraps modulo 2^32). */
  function ToInt32(x: int): (r: Int32)
    ensures -TWO_TO_31 <= x < TWO_TO_31 ==> r == x
  {
    var m := x % TWO_TO_32;
    if m < TWO_TO_31 then m else m - TWO_TO_32
  }

  /** Conversion of any integer to `uint64_t` / `size_t` (wraps modulo 2^64). */
  function ToUint64(x: int): (r: Uint64)
    ensures (r - x) % TWO_TO_64 == 0
    ensures 0 <= x < TWO_TO_64 ==> r == x
  {
    x % TWO_TO_64
  }

  /** Conversion of a `size_t` to `int64_t` (two's complement reinterpretation). */
  function ToInt64(x: Uint64): (r: int)
    ensures -TWO_TO_63 <= r < TWO_TO_63
    ensures (r - x) % TWO_TO_64 == 0
    ensures x < TWO_TO_63 ==> r == x
  {
    if x < TWO_TO_63 then x else x - TWO_TO_64
  }
}

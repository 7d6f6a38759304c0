/** Values shared by the modules: options, machine integers and instants. */
module Wrappers {

  datatype Option<+T> = None | Some(value: T)

  const TWO_63: int := 0x8000_0000_0000_0000
  const TWO_64: int := 0x1_0000_0000_0000_0000

  const MIN_INT64: int := -TWO_63
  const MAX_INT64: int := TWO_63 - 1

  type Int64 = x: int | MIN_INT64 <= x <= MAX_INT64

  // The zero time, in nanoseconds since 1970.
  const ZERO_TIME: int := -62135596800_000_000_000

  // The value of x once truncated to a signed 64-bit word.
  function Wrap(x: int): Int64 {
    var m := x % TWO_64;
    if m >= TWO_63 then m - TWO_64 else m
  }

  function Pow2(n: nat): (r: nat)
    ensures r > 0
  {
    if n == 0 then 1 else 2 * Pow2(n - 1)
  }

  lemma Scale(a: int, b: int, c: nat)
    requires a <= b
    ensures a * c <= b * c
  {
  }
}

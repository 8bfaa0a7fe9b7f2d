/** Go's 32-bit signed integers, as far as the elevator needs them: the current
    floor is stored as an `int32`, and two comparisons convert a Go `int` to
    `int32` first. */
module Int32 {

  const MinInt32: int := -0x8000_0000
  const MaxInt32: int := 0x7FFF_FFFF
  const Modulus: int := 0x1_0000_0000

  /** Go's conversion `int32(x)`: keep the low 32 bits of `x` and read them as
      a two's-complement number. */
  function ToInt32(x: int): (r: int)
    ensures MinInt32 <= r <= MaxInt32
    ensures (x - r) % Modulus == 0
    ensures MinInt32 <= x <= MaxInt32 ==> r == x
    ensures 0 <= x ==> r <= x
  {
    var low := x % Modulus;
    assert x == Modulus * (x / Modulus) + low;
    assert 0 <= x ==> x / Modulus >= 0;
    if low > MaxInt32 then low - Modulus else low
  }
}

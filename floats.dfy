/**
 * The `float` values stored in map grids and reflection tables, taken as
 * exact reals or NaN (rounding to single precision is not modelled), and
 * the conversions between them and 32-bit integers.
 */
module Floats {

  /** A `float`: an exact real number, or NaN (which the source uses for "undefined"). */
  datatype Float = Num(value: real) | NaN

  const IntMin: int := -0x8000_0000
  const IntMax: int := 0x7FFF_FFFF

  predicate IsInt32(x: int) {
    IntMin <= x <= IntMax
  }

  /** Rounding toward zero, the rounding of a C cast from floating point to integer. */
  function Trunc(x: real): (r: int)
    ensures 0.0 <= x ==> 0 <= r && r as real <= x < r as real + 1.0
    ensures x < 0.0 ==> r <= 0 && r as real - 1.0 < x <= r as real
  {
    if 0.0 <= x then x.Floor else -((-x).Floor)
  }

  /**
   * `(int) f`. C leaves NaN and values outside the `int` range undefined;
   * the x86-64 conversion instruction returns INT_MIN for them, as here.
   */
  function ToInt(f: Float): (r: int)
    ensures IsInt32(r)
    ensures f.Num? && IsInt32(Trunc(f.value)) ==> r == Trunc(f.value)
    ensures f.Num? && !IsInt32(Trunc(f.value)) ==> r == IntMin
    ensures f.NaN? ==> r == IntMin
  {
    match f
    case NaN => IntMin
    case Num(x) => if IsInt32(Trunc(x)) then Trunc(x) else IntMin
  }

  /** `(float) n`, exact for the grid-sized integers the source converts. */
  function FromInt(n: int): Float {
    Num(n as real)
  }

  /** An integer written as a float reads back unchanged. */
  lemma ToIntFromInt(n: int)
    requires IsInt32(n)
    ensures ToInt(FromInt(n)) == n
  {
    assert Trunc(n as real) == n;
  }
}

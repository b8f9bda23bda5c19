/**
 * The pieces of C integer semantics the volume code relies on: the `INT_MAX`
 * sentinel, division and remainder that truncate toward zero (Dafny's own `/`
 * and `%` are Euclidean), and Blender's `clamp_i`.
 */
module CInt {

  /** `INT_MAX` for a 32-bit `int`. */
  const INT_MAX: int := 0x7fff_ffff

  function Abs(x: int): nat
  {
    if x < 0 then -x else x
  }

  /** C's `a / b`: the quotient truncated toward zero. */
  function CDiv(a: int, b: int): int
    requires b != 0
  {
    if a >= 0 then a / b else -((-a) / b)
  }

  /**
   * C's `a % b`. The C standard defines it by `(a / b) * b + a % b == a` with
   * a truncating `/`, so the remainder takes the sign of the dividend.
   */
  function CRem(a: int, b: int): (r: int)
    requires b != 0
    ensures a == CDiv(a, b) * b + r
    ensures Abs(r) < Abs(b)
    ensures a >= 0 ==> r >= 0
    ensures a <= 0 ==> r <= 0
  {
    if a >= 0 then a % b else -((-a) % b)
  }

  /** Blender's `clamp_i(value, min, max)`, which is `min_ii(max_ii(value, min), max)`. */
  function ClampI(value: int, lo: int, hi: int): (r: int)
    ensures lo <= hi ==> lo <= r <= hi
    ensures lo <= value <= hi ==> r == value
    ensures value < lo && lo <= hi ==> r == lo
    ensures hi < value ==> r == hi
  {
    var atLeast := if value > lo then value else lo;
    if atLeast < hi then atLeast else hi
  }

  /**
   * Euclidean division is unique: a remainder in `[0, d)` that differs from
   * `x` by a multiple of `d` is `x % d`.
   */
  lemma {:induction false} EuclideanUnique(x: int, d: int, q: int, y: int)
    requires d > 0
    requires 0 <= y < d
    requires x == q * d + y
    ensures x % d == y
  {
    var q' := x / d;
    assert (q - q') * d == x % d - y;
    if q - q' >= 1 {
      assert false;
    } else if q - q' <= -1 {
      assert false;
    }
  }

}

/** The platform semantics the firmware relies on: logic levels, bytes read
    from the serial port, Arduino's `constrain` macro and the remainder that
    C++ computes for `%` on `int`. */
module Arduino {

  /** A digital pin level, as digitalRead returns it and digitalWrite takes it. */
  datatype Level = LOW | HIGH

  /** One byte taken from the serial receive buffer. */
  type Byte = b: int | 0 <= b < 256

  function Abs(x: int): (r: nat)
    ensures r == x || r == -x
  {
    if x < 0 then -x else x
  }

  /** Arduino's `constrain(x, lo, hi)`: saturates `x` into the range
      `[lo, hi]` and leaves a value already inside it alone. */
  function Constrain(x: int, lo: int, hi: int): (r: int)
    ensures lo <= hi ==> lo <= r <= hi
    ensures lo <= x <= hi ==> r == x
    ensures x <= lo <= hi ==> r == lo
    ensures lo <= hi <= x ==> r == hi
  {
    if x < lo then lo else if x > hi then hi else x
  }

  /** The C++ quotient `a / b` on `int`, truncated toward zero. */
  function CppQuot(a: int, b: int): int
    requires b > 0
  {
    if a >= 0 then a / b else -((-a) / b)
  }

  /** The C++ remainder `a % b` on `int`. Since the quotient is truncated
      toward zero, a non-zero remainder has the sign of the dividend: `-1 % 3`
      is `-1`, where Dafny's own `%` gives `2`. The firmware only divides by
      the positive constant 3, so the divisor is taken positive. */
  function CppRem(a: int, b: int): (r: int)
    requires b > 0
    ensures Abs(r) < b
    ensures a >= 0 ==> r >= 0
    ensures a <= 0 ==> r <= 0
  {
    if a >= 0 then a % b else -((-a) % b)
  }

  /** The quotient and the remainder recompose the dividend, as C++ requires
      of `/` and `%` on `int`. */
  lemma CppDivision(a: int, b: int)
    requires b > 0
    ensures a == CppQuot(a, b) * b + CppRem(a, b)
  {
  }
}

/**
 * The few pieces of Kotlin arithmetic the clock relies on, written out with
 * Dafny's unbounded `int` and exact `real`: `Float.toInt()` and `Int./`
 * truncate toward zero, `Float.%` keeps the sign of the dividend, and
 * `coerceIn` clamps into a closed interval.
 */
module KotlinNumerics {

  /** `Float.toInt()`: drops the fractional part, rounding toward zero. */
  function TruncToInt(x: real): (n: int)
    ensures x >= 0.0 ==> 0 <= n && n as real <= x < n as real + 1.0
    ensures x < 0.0 ==> n <= 0 && n as real - 1.0 < x <= n as real
  {
    if x >= 0.0 then x.Floor else -((-x).Floor)
  }

  /** `Int./` by a positive divisor: the quotient rounded toward zero. */
  function TruncDiv(a: int, d: int): (q: int)
    requires d > 0
    ensures a >= 0 ==> 0 <= q && d * q <= a < d * q + d
    ensures a < 0 ==> q <= 0 && d * q - d < a <= d * q
  {
    if a >= 0 then
      DivisionBounds(a, d);
      a / d
    else
      DivisionBounds(-a, d);
      NegateProduct(d, (-a) / d);
      -((-a) / d)
  }

  /** Euclidean division of a non-negative number: the quotient's multiple
      is at most the dividend and less than one divisor below it. */
  lemma DivisionBounds(n: int, d: int)
    requires n >= 0 && d > 0
    ensures 0 <= n / d && d * (n / d) <= n < d * (n / d) + d
  {
    assert n == d * (n / d) + n % d;
  }

  lemma NegateProduct(d: int, q: int)
    ensures d * -q == -(d * q)
  {
  }

  /** `x % 30f`: what is left after removing a whole number of 30s, with
      the sign of the dividend. The clocks only ever take the remainder by
      30, the width of an hour in degrees. */
  function FloatRem30(x: real): (r: real)
    ensures x >= 0.0 ==> 0.0 <= r < 30.0
    ensures x < 0.0 ==> -30.0 < r <= 0.0
    ensures r == x - 30.0 * TruncToInt(x / 30.0) as real
  {
    x - 30.0 * TruncToInt(x / 30.0) as real
  }

  /** `coerceIn(lo, hi)`; Kotlin throws when `lo > hi`, so callers must not ask for that. */
  function CoerceIn(x: real, lo: real, hi: real): (r: real)
    requires lo <= hi
    ensures lo <= r <= hi
    ensures x <= lo ==> r == lo
    ensures x >= hi ==> r == hi
    ensures lo <= x <= hi ==> r == x
  {
    if x < lo then lo else if x > hi then hi else x
  }

  lemma ScaleMonotone(d: real, a: real, b: real)
    ensures d >= 0.0 && a <= b ==> d * a <= d * b
  {
    assert d * b - d * a == d * (b - a);
  }

  lemma ScaleLt(d: real, a: real, b: real)
    requires d > 0.0 && a < b
    ensures d * a < d * b
  {
    assert d * b - d * a == d * (b - a);
  }

  lemma DivideMonotone(a: real, b: real, d: real)
    requires d > 0.0 && a <= b
    ensures a / d <= b / d
  {
    var x, y := a / d, b / d;
    assert a == d * x && b == d * y;
    if x > y { ScaleLt(d, y, x); }
  }

  /** Truncating a non-negative real and then dividing the integer by 30
      gives the same bucket as flooring the exact quotient: the intermediate
      truncation loses nothing. */
  lemma TruncThenDiv30IsFloor(x: real)
    requires x >= 0.0
    ensures TruncDiv(TruncToInt(x), 30) == (x / 30.0).Floor
  {
    var n := TruncToInt(x);
    var q := TruncDiv(n, 30);
    assert 30 * q <= n < 30 * q + 30;
    assert (30 * q) as real <= x < (30 * q + 30) as real;
  }
}

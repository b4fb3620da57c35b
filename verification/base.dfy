/** Small shared helpers: an optional value, integer min/max and Python's int() on reals. */
module Base {

  /** A value that may be absent. */
  datatype Option<+T> = None | Some(value: T)

  function Min(a: int, b: int): int {
    if a <= b then a else b
  }

  function Max(a: int, b: int): int {
    if a >= b then a else b
  }

  /** Python's `int(x)` on a float: truncation toward zero. */
  function Trunc(x: real): (r: int)
    ensures 0.0 <= x ==> 0 <= r && r as real <= x < r as real + 1.0
    ensures x < 0.0 ==> r <= 0 && r as real - 1.0 < x <= r as real
  {
    if x >= 0.0 then x.Floor else -((-x).Floor)
  }

  /** Dividing a multiple of `n` by `n` gives back the factor. */
  lemma Cancel(s: real, n: real, x: real)
    requires n > 0.0 && s == n * x
    ensures s / n == x
  {
  }
}

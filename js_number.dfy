/** The two JavaScript integer operations the interval formatters use. Dafny's `/` and `%`
    are Euclidean; JavaScript's `Math.floor(a / b)` rounds down and its `%` truncates
    toward zero, so the remainder takes the sign of the dividend. */
module JsNumber {

  /** `Math.floor(a / b)` for a positive divisor: the largest q with q * b <= a. */
  function FloorDiv(a: int, b: int): (q: int)
    requires b > 0
    ensures q * b <= a < q * b + b
  {
    // For a positive divisor, Euclidean division and floor division agree.
    a / b
  }

  /** The quotient of `a / b` truncated toward zero (what `Math.trunc(a / b)` gives). */
  function TruncDiv(a: int, b: int): int
    requires b > 0
  {
    if a >= 0 then a / b else -((-a) / b)
  }

  /** `a % b` for a positive divisor: truncated remainder, with the sign of `a`, so that
      `a == TruncDiv(a, b) * b + r`. */
  function Rem(a: int, b: int): (r: int)
    requires b > 0
    ensures a >= 0 ==> 0 <= r < b
    ensures a < 0 ==> -b < r <= 0
    ensures a == TruncDiv(a, b) * b + r
  {
    if a >= 0 then a % b else -((-a) % b)
  }

}

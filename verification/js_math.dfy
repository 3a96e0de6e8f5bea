/** Integer operations written the way the game's JavaScript evaluates them:
    `%` truncates toward zero (so a negative dividend gives a non-positive
    remainder), while `Math.floor(a / n)` rounds toward negative infinity. */
module JsMath {

  function Max(a: int, b: int): (r: int)
    ensures r >= a && r >= b
    ensures r == a || r == b
  {
    if a >= b then a else b
  }

  function Min(a: int, b: int): (r: int)
    ensures r <= a && r <= b
    ensures r == a || r == b
  {
    if a <= b then a else b
  }

  function Abs(a: int): (r: int)
    ensures r >= 0
    ensures r == a || r == -a
  {
    if a < 0 then -a else a
  }

  /** The quotient of JavaScript's `%`: division truncated toward zero. */
  function TruncDiv(a: int, n: int): int
    requires n > 0
  {
    if a >= 0 then a / n else -((-a) / n)
  }

  /** JavaScript's `a % n` for a positive divisor: the sign follows the
      dividend (and `-0` compares equal to `0`). */
  function Rem(a: int, n: int): (r: int)
    requires n > 0
    ensures a >= 0 ==> 0 <= r < n
    ensures a <= 0 ==> -n < r <= 0
    ensures a == n * TruncDiv(a, n) + r
  {
    if a >= 0 then a % n else -((-a) % n)
  }

  /** `Math.floor(a / n)` for a positive divisor. */
  function FloorDiv(a: int, n: int): (r: int)
    requires n > 0
    ensures n * r <= a < n * r + n
  {
    a / n
  }
}

/**
 * The JavaScript numeric built-ins the games use, restricted to integers.
 * Dafny's `/` and `%` are Euclidean; JavaScript's `%` truncates, so it is
 * written out here.
 */
module JsMath {

  /** `Math.abs`. */
  function Abs(n: int): (r: nat)
    ensures r == n || r == -n
  {
    if n < 0 then -n else n
  }

  /** `Math.sign`: the unit step from 0 towards `n`. */
  function Sign(n: int): (r: int)
    ensures -1 <= r <= 1
    ensures r * n == Abs(n)
    ensures r == 0 <==> n == 0
  {
    if n > 0 then 1 else if n < 0 then -1 else 0
  }

  /**
   * JavaScript's `a % n` for a positive `n`: the remainder has the magnitude
   * of `|a|` modulo `n` and takes the sign of `a`.
   */
  function Rem(a: int, n: int): (r: int)
    requires n > 0
    ensures 0 <= a ==> 0 <= r < n && r == a % n
    ensures a <= 0 ==> -n < r <= 0
    ensures Abs(r) == Abs(a) % n
  {
    if a >= 0 then a % n else -((-a) % n)
  }
}

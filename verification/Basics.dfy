/** Small definitions shared by the other modules. */
module Basics {

  datatype Option<+T> = None | Some(value: T)

  function Max(a: nat, b: nat): (m: nat)
    ensures m >= a && m >= b && (m == a || m == b)
  {
    if a < b then b else a
  }

  /** Two to the power n. */
  function Pow2(n: nat): (p: nat)
    ensures p >= 1 && p >= n + 1
  {
    if n == 0 then 1 else 2 * Pow2(n - 1)
  }
}

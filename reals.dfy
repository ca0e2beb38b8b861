/** Real arithmetic shared by the reference definitions. */
module Reals {
  /** Division made total: a zero divisor gives 0.0. */
  function Ratio(x: real, y: real): (r: real)
    ensures y != 0.0 ==> r * y == x
    ensures y == 0.0 ==> r == 0.0
  {
    if y == 0.0 then 0.0 else x / y
  }
}

/** Python's `abs` and two-argument `max` on the floats the scores are computed in, here
    modelled by `real`. */
module Reals {

  /** `abs(x)` */
  function Abs(x: real): real
  {
    if x < 0.0 then -x else x
  }

  /** `max(a, b)`: the first argument on a tie, as Python returns it. */
  function Max(a: real, b: real): real
  {
    if a >= b then a else b
  }

}

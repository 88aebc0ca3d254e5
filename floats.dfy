/**
 * The two kinds of `float` result the distance functions produce in this
 * model: an ordinary value, or the NaN that a 0/0 or an empty group gives.
 * Infinities, rounding and signed zeros are not modelled.
 */
module Floats {

  datatype Num = Value(v: real) | NaN

  /**
   * `x < y` on floats: false as soon as either side is NaN.
   */
  predicate Less(x: Num, y: Num) {
    x.Value? && y.Value? && x.v < y.v
  }

  /**
   * Math.Min and Math.Max of .NET propagate NaN: a binary operation lifted
   * to floats is NaN when either argument is.
   */
  function Lift(f: (real, real) -> real, x: Num, y: Num): (r: Num)
    ensures r.NaN? <==> x.NaN? || y.NaN?
    ensures r.Value? ==> r.v == f(x.v, y.v)
  {
    if x.NaN? || y.NaN? then NaN else Value(f(x.v, y.v))
  }
}

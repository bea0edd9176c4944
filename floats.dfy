/** A 64-bit float as far as the adapter looks at it: finite or one of the three special values. */
module Floats {
  datatype Float64 = Finite(x: real) | NaN | PosInf | NegInf {
    /** Neither NaN nor an infinity. */
    predicate IsFinite() { Finite? }
  }
}

/**
 Floating-point numbers up to rounding: the reals with the three special values, ordered as
 Python compares them (a comparison with NaN is false).
 */
module Floats {
  datatype Float = NaN | NegInf | Finite(v: real) | PosInf

  /** A uniform draw of a generator. */
  type Unit = u: real | 0.0 <= u < 1.0

  predicate Ge(a: Float, b: Float) {
    match (a, b)
    case (NaN, _) => false
    case (_, NaN) => false
    case (PosInf, _) => true
    case (_, NegInf) => true
    case (Finite(x), Finite(y)) => x >= y
    case _ => false
  }

  predicate Gt(a: Float, b: Float) {
    Ge(a, b) && a != b
  }
}

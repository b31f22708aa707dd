/** Floats as reals with the two infinities, without rounding or NaN. */
module Floats {
  datatype Ext = NegInf | Fin(x: real) | PosInf

  predicate Less(a: Ext, b: Ext) {
    match (a, b)
    case (Fin(x), Fin(y)) => x < y
    case (NegInf, NegInf) => false
    case (NegInf, _) => true
    case (_, PosInf) => !a.PosInf?
    case _ => false
  }

  predicate AtMost(a: Ext, b: Ext) { !Less(b, a) }

  /** The quotient of a positive number x; by zero it is infinite. */
  function Quotient(x: real, y: real): Ext {
    if y == 0.0 then PosInf else Fin(x / y)
  }

  /** The product with a positive factor. */
  function Times(a: Ext, f: real): Ext {
    if a.Fin? then Fin(a.x * f) else a
  }
}

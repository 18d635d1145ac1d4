/** Double precision values with exact finite arithmetic: infinities and NaN behave as in
    IEEE 754, rounding and the sign of zero are not modelled. */
module Floats {
  datatype Float = Num(value: real) | PosInf | NegInf | NaN

  function Neg(a: Float): Float {
    match a
    case Num(x) => Num(-x)
    case PosInf => NegInf
    case NegInf => PosInf
    case NaN => NaN
  }

  function Plus(a: Float, b: Float): Float {
    match (a, b)
    case (Num(x), Num(y)) => Num(x + y)
    case (NaN, _) => NaN
    case (_, NaN) => NaN
    case (Num(_), _) => b
    case (_, Num(_)) => a
    case (PosInf, PosInf) => PosInf
    case (NegInf, NegInf) => NegInf
    case (_, _) => NaN
  }

  function Minus(a: Float, b: Float): Float {
    Plus(a, Neg(b))
  }

  function Quotient(a: Float, b: Float): Float {
    match (a, b)
    case (NaN, _) => NaN
    case (_, NaN) => NaN
    case (Num(x), Num(y)) =>
      if y != 0.0 then Num(x / y) else if x > 0.0 then PosInf else if x < 0.0 then NegInf else NaN
    case (Num(_), _) => Num(0.0)
    case (_, Num(y)) => if y >= 0.0 then a else Neg(a)
    case (_, _) => NaN
  }

  predicate Greater(a: Float, b: Float) {
    match (a, b)
    case (Num(x), Num(y)) => x > y
    case (PosInf, Num(_)) => true
    case (PosInf, NegInf) => true
    case (Num(_), NegInf) => true
    case (_, _) => false
  }
}

/** Extended reals with NaN: a double without rounding. Comparisons are IEEE's (false on
    NaN), and the two selectors keep their first argument when the comparison is false. */
module ExtReal {

  datatype XR = NaN | NegInf | Fin(r: real) | PosInf

  const ZERO: XR := Fin(0.0)

  predicate Lt(x: XR, y: XR) {
    match (x, y)
    case (NaN, _) => false
    case (_, NaN) => false
    case (Fin(a), Fin(b)) => a < b
    case (NegInf, _) => y != NegInf
    case (_, PosInf) => x != PosInf
    case (_, _) => false
  }

  predicate Le(x: XR, y: XR) {
    !x.NaN? && !y.NaN? && !Lt(y, x)
  }

  /** std::min: the second argument only when it is strictly smaller. */
  function StdMin(x: XR, y: XR): XR {
    if Lt(y, x) then y else x
  }

  /** std::max: the second argument only when it is strictly larger. */
  function StdMax(x: XR, y: XR): XR {
    if Lt(x, y) then y else x
  }

  function Min4(a: XR, b: XR, c: XR, d: XR): XR {
    StdMin(StdMin(a, b), StdMin(c, d))
  }

  function Max4(a: XR, b: XR, c: XR, d: XR): XR {
    StdMax(StdMax(a, b), StdMax(c, d))
  }

  function Neg(x: XR): XR {
    match x
    case NaN => NaN
    case NegInf => PosInf
    case PosInf => NegInf
    case Fin(a) => Fin(-a)
  }

  function Abs(x: XR): XR {
    match x
    case NaN => NaN
    case NegInf => PosInf
    case PosInf => PosInf
    case Fin(a) => Fin(if a < 0.0 then -a else a)
  }

  function Sign(x: XR): int {
    match x
    case NaN => 0
    case NegInf => -1
    case PosInf => 1
    case Fin(a) => if a < 0.0 then -1 else if a > 0.0 then 1 else 0
  }

  /** The infinity with the sign of a product or quotient; NaN when a sign is missing. */
  function Infinity(sx: int, sy: int): XR {
    if sx == 0 || sy == 0 then NaN else if sx == sy then PosInf else NegInf
  }

  function Add(x: XR, y: XR): XR {
    match (x, y)
    case (Fin(a), Fin(b)) => Fin(a + b)
    case (NaN, _) => NaN
    case (_, NaN) => NaN
    case (Fin(_), _) => y
    case (_, Fin(_)) => x
    case (_, _) => if x == y then x else NaN
  }

  function Sub(x: XR, y: XR): XR {
    Add(x, Neg(y))
  }

  function Prod(x: real, y: real): real { x * y }

  function Quot(x: real, y: real): real
    requires y != 0.0
  {
    x / y
  }

  /** Zero times an infinity is NaN. */
  function Mul(x: XR, y: XR): XR {
    match (x, y)
    case (Fin(a), Fin(b)) => Fin(Prod(a, b))
    case (NaN, _) => NaN
    case (_, NaN) => NaN
    case (_, _) => Infinity(Sign(x), Sign(y))
  }

  /** An infinity over an infinity is NaN, and so is anything over zero (never asked for). */
  function Div(x: XR, y: XR): XR {
    match (x, y)
    case (NaN, _) => NaN
    case (_, NaN) => NaN
    case (Fin(a), Fin(b)) => if b == 0.0 then NaN else Fin(Quot(a, b))
    case (Fin(_), _) => ZERO
    case (_, Fin(b)) => Infinity(Sign(x), Sign(y))
    case (_, _) => NaN
  }

  lemma LeTrans(x: XR, y: XR, z: XR)
    requires Le(x, y) && Le(y, z)
    ensures Le(x, z)
  {
  }

  lemma ScaleUp(q: real, y: real)
    requires q > 1.0 && y > 0.0
    ensures q * y > y
  {
  }

  lemma ScaleDown(q: real, y: real)
    requires q < 0.0 && y > 0.0
    ensures q * y < 0.0
  {
  }
}

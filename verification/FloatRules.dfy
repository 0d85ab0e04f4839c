/** Arithmetic and comparison of floats with infinities and NaN; finite results are exact. */
module FloatRules {
  import opened Words
  import opened SoftmaxLaws

  predicate Greater(a: Score, b: Score)
  {
    match a
    case Fin(x) => b.NegInf? || (b.Fin? && x > b.v)
    case PosInf => b.NegInf? || b.Fin?
    case _ => false
  }

  predicate Below(a: Score, bound: real) { a.NegInf? || (a.Fin? && a.v < bound) }

  function Negated(a: Score): Score
  {
    match a
    case NegInf => PosInf
    case Fin(x) => Fin(-x)
    case PosInf => NegInf
    case NaN => NaN
  }

  function Plus(a: Score, b: Score): Score
  {
    if a.NaN? || b.NaN? || (a.PosInf? && b.NegInf?) || (a.NegInf? && b.PosInf?) then NaN
    else if a.Fin? && b.Fin? then Fin(a.v + b.v)
    else if a.Fin? then b
    else a
  }

  function Minus(a: Score, b: Score): Score { Plus(a, Negated(b)) }

  function Product(a: Score, b: Score): Score
  {
    if a.NaN? || b.NaN? then NaN
    else if a.Fin? && b.Fin? then Fin(Times(a.v, b.v))
    else if IsZero(a) || IsZero(b) then NaN
    else if Negative(a) == Negative(b) then PosInf
    else NegInf
  }

  predicate IsZero(a: Score) { a == Fin(0.0) }

  predicate Negative(a: Score) { Below(a, 0.0) }

  function Inverse(x: real): real { if x == 0.0 then 0.0 else 1.0 / x }

  function Reciprocal(a: Score): Score
  {
    match a
    case Fin(x) => if x == 0.0 then PosInf else Fin(Inverse(x))
    case NaN => NaN
    case _ => Fin(0.0)
  }

  function ExpOf(exp: real -> real, a: Score): Score
  {
    match a
    case NegInf => Fin(0.0)
    case Fin(x) => Fin(exp(x))
    case PosInf => PosInf
    case NaN => NaN
  }

  /** The optional scaling of a score; a scale of zero means none. */
  function Applied(x: Score, scale: real): Score
  {
    if scale != 0.0 then Product(x, Fin(scale)) else x
  }
}

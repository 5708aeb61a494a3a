/** JavaScript numbers as the timeline and heat-map arithmetic sees them:
    exact reals, plus the two infinities and NaN that an unguarded division by
    zero produces. Rounding and the sign of zero are not represented. */
module JsNumber {
  import opened Wrappers

  datatype Num = Fin(v: real) | PosInf | NegInf | NaN

  /** Truncation toward zero: the quotient JavaScript's `%` is built on, and
      Python's `int()` of a float. */
  function Trunc(x: real): (i: int)
    ensures x >= 0.0 ==> i == x.Floor
  {
    if x >= 0.0 then x.Floor else -((-x).Floor)
  }

  function Neg(a: Num): Num
  {
    match a
    case Fin(x) => Fin(-x)
    case PosInf => NegInf
    case NegInf => PosInf
    case NaN => NaN
  }

  /** `a + b`: infinities of opposite sign cancel to NaN. */
  function Add(a: Num, b: Num): (r: Num)
    ensures a.Fin? && b.Fin? ==> r == Fin(a.v + b.v)
  {
    if a.NaN? || b.NaN? then NaN
    else if (a.PosInf? && b.NegInf?) || (a.NegInf? && b.PosInf?) then NaN
    else if a.PosInf? || b.PosInf? then PosInf
    else if a.NegInf? || b.NegInf? then NegInf
    else Fin(a.v + b.v)
  }

  function Sub(a: Num, b: Num): (r: Num)
    ensures a.Fin? && b.Fin? ==> r == Fin(a.v - b.v)
  {
    Add(a, Neg(b))
  }

  function Sign(a: Num): int
  {
    match a
    case Fin(x) => if x > 0.0 then 1 else if x < 0.0 then -1 else 0
    case PosInf => 1
    case NegInf => -1
    case NaN => 0
  }

  function InfOfSign(s: int): Num
    requires s != 0
  {
    if s > 0 then PosInf else NegInf
  }

  /** `a * b`: an infinity times zero is NaN. */
  function Mul(a: Num, b: Num): (r: Num)
    ensures a.Fin? && b.Fin? ==> r == Fin(a.v * b.v)
  {
    if a.NaN? || b.NaN? then NaN
    else if a.Fin? && b.Fin? then Fin(a.v * b.v)
    else if Sign(a) == 0 || Sign(b) == 0 then NaN
    else InfOfSign(Sign(a) * Sign(b))
  }

  /** `a / b`: a non-zero number over zero is an infinity of its sign, 0/0 is NaN. */
  function Div(a: Num, b: Num): (r: Num)
    ensures a.Fin? && b.Fin? && b.v != 0.0 ==> r == Fin(a.v / b.v)
    ensures a.Fin? && b.Fin? && b.v == 0.0 ==> r == (if a.v == 0.0 then NaN else InfOfSign(Sign(a)))
  {
    if a.NaN? || b.NaN? then NaN
    else if a.Fin? && b.Fin? then
      if b.v != 0.0 then Fin(a.v / b.v)
      else if a.v == 0.0 then NaN
      else InfOfSign(Sign(a))
    else if !a.Fin? && !b.Fin? then NaN
    else if b.Fin? then (if b.v == 0.0 then a else InfOfSign(Sign(a) * Sign(b)))
    else Fin(0.0)
  }

  /** The order of the extended reals, for values that are not NaN. */
  predicate Le(a: Num, b: Num)
    requires !a.NaN? && !b.NaN?
  {
    a.NegInf? || b.PosInf? || (a.Fin? && b.Fin? && a.v <= b.v)
  }

  /** `Math.min(a, b)`: NaN if either is NaN. */
  function Min(a: Num, b: Num): (r: Num)
    ensures r.NaN? <==> a.NaN? || b.NaN?
    ensures !r.NaN? ==> Le(r, a) && Le(r, b) && (r == a || r == b)
  {
    if a.NaN? || b.NaN? then NaN else if Le(a, b) then a else b
  }

  /** `Math.max(a, b)`: NaN if either is NaN. */
  function Max(a: Num, b: Num): (r: Num)
    ensures r.NaN? <==> a.NaN? || b.NaN?
    ensures !r.NaN? ==> Le(a, r) && Le(b, r) && (r == a || r == b)
  {
    if a.NaN? || b.NaN? then NaN else if Le(a, b) then b else a
  }

  /** `(a / b) * 100` for finite operands. */
  function Percent(a: real, b: real): (r: Num)
    ensures b != 0.0 ==> r == Fin(a / b * 100.0)
    ensures b == 0.0 ==> (r.NaN? <==> a == 0.0) && (a > 0.0 ==> r.PosInf?) && (a < 0.0 ==> r.NegInf?)
  {
    Mul(Div(Fin(a), Fin(b)), Fin(100.0))
  }

  /** `Math.min(100, Math.max(0, p))`: every number except NaN lands in [0, 100]. */
  function ClampPercent(p: Num): (r: Num)
    ensures p.NaN? ==> r.NaN?
    ensures !p.NaN? ==> r.Fin? && 0.0 <= r.v <= 100.0
    ensures p.Fin? && 0.0 <= p.v <= 100.0 ==> r == p
  {
    Min(Fin(100.0), Max(Fin(0.0), p))
  }

  /** A number that may be `undefined` is truthy when present and non-zero
      (NaN, which is also falsy, is represented as absent). */
  predicate Truthy(a: Option<real>)
  {
    a.Some? && a.value != 0.0
  }

  /** `a || b` for a number `a` that may be `undefined`. */
  function Or(a: Option<real>, b: real): (r: real)
    ensures Truthy(a) ==> r == a.value
    ensures !Truthy(a) ==> r == b
  {
    if Truthy(a) then a.value else b
  }
}

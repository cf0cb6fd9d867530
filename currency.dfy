/**
 * currency.py: the `Currency` amount, an immutable value object. Its forward
 * operators read the other operand through `get_value`, so they never decline:
 * the Currency class survives every `+`, `-`, `*`, `/` and `**` it starts.
 */
module Currency {
  import opened Util

  /**
   * `Currency(value)`: an existing Currency is returned unchanged, a number is
   * stored as a float, and `float()` of a Percent raises TypeError.
   */
  function New(value: Scalar): (r: Result<Scalar>)
    ensures r.Ok? <==> !value.Pct?
    ensures r.Ok? ==> r.value.Cur? && r.value.x == value.x
    ensures r.Err? ==> r.error == TypeError
  {
    match value
    case Cur(_) => Ok(value)
    case Num(n) => Ok(Cur(n))
    case Pct(_) => Err(TypeError)
  }

  /**
   * The forward operators `__add__`, `__sub__`, `__mul__`, `__truediv__` and
   * `__pow__` of a Currency with magnitude `c`.
   */
  function Forward(op: Op, c: real, other: Obj): (r: Reply)
    requires op == OpPow ==> other.Plain? && IsWhole(other.s.x)
    ensures !r.Declined?
    ensures r.Done? ==> r.s.Cur? && GetValue(other).Ok? && Computes(op, c, GetValue(other).value, r.s.x)
    ensures r.Raised? <==> GetValue(other).Err? || (op == OpDiv && GetValue(other) == Ok(0.0))
    ensures r.Raised? ==> r.e == (if GetValue(other).Err? then AttributeError else ZeroDivisionError)
  {
    if op == OpPow then
      Done(Cur(Power(c, Whole(other.s.x))))
    else
      match GetValue(other)
      case Err(e) => Raised(e)
      case Ok(g) =>
        if op == OpAdd then Done(Cur(c + g))
        else if op == OpSub then Done(Cur(c - g))
        else if op == OpMul then Done(Cur(c * g))
        else if g == 0.0 then Raised(ZeroDivisionError)
        else Done(Cur(c / g))
  }

  /**
   * The reflected operators `__radd__`, `__rsub__`, `__rmul__`, `__rtruediv__`
   * and `__rpow__`, reached when the left operand `other` (a number, or a
   * Percent that declined) did not handle the operation itself.
   */
  function Reflected(op: Op, c: real, other: Scalar): (r: Reply)
    requires op == OpPow ==> IsWhole(c)
    ensures !r.Declined?
    ensures r.Raised? <==> (op == OpSub && other.Pct?) || (op == OpDiv && c == 0.0)
    ensures r.Done? ==> Computes(op, other.x, c, r.s.x)
    ensures r.Done? && (op == OpAdd || op == OpSub || op == OpMul) ==> r.s.Cur?
    ensures r.Done? && op == OpDiv ==> r.s.Num?
    ensures r.Done? && op == OpPow ==> TagOf(r.s) == TagOf(other)
  {
    match op
    case OpAdd => Done(Cur(c + other.x))
    case OpSub =>
      // `Currency(other - self.value)`: a Percent operand gives a Percent,
      // and `float()` of a Percent raises
      if other.Pct? then Raised(TypeError) else Done(Cur(other.x - c))
    case OpMul => Done(Cur(c * other.x))
    case OpDiv => if c == 0.0 then Raised(ZeroDivisionError) else Done(Num(other.x / c))
    case OpPow =>
      // `other ** self.value` is the other operand's own power
      Done(Tagged(TagOf(other), Power(other.x, Whole(c))))
  }

  /** `mul`: the explicit product of two amounts is an amount. */
  function Mul(c: real, d: real): (r: Scalar)
    ensures r.Cur? && r.x == c * d
  {
    Cur(c * d)
  }

  /** `div`: the explicit ratio of two amounts is a plain float. */
  function Div(c: real, d: real): (r: Result<Scalar>)
    ensures r.Ok? <==> d != 0.0
    ensures r.Ok? ==> r.value.Num? && r.value.x * d == c
    ensures r.Err? ==> r.error == ZeroDivisionError
  {
    if d == 0.0 then Err(ZeroDivisionError) else Ok(Num(c / d))
  }

  /** `__neg__`. */
  function Neg(c: real): (r: Scalar)
    ensures r.Cur? && r.x + c == 0.0
  {
    Cur(-c)
  }

  /**
   * `__repr__`: `-$` and then the digits of the absolute value when the value
   * is negative, `$` and the digits otherwise. `digits` is the two-decimal
   * rendering of the absolute value, which the model leaves opaque.
   */
  function Repr(c: real, digits: string): (r: string)
    ensures |r| == |digits| + (if c < 0.0 then 2 else 1)
    ensures r[0] == '-' <==> c < 0.0
    ensures r[|r| - |digits| - 1] == '$'
    ensures r[|r| - |digits|..] == digits
  {
    if c < 0.0 then "-$" + digits else "$" + digits
  }
}

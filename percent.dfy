/**
 * percent.py: the `Percent` rate, an immutable value object. Every method
 * returns a fresh Percent or a float; a method that does not accept its
 * operand returns `NotImplemented`, modelled as `Declined`.
 */
module Percent {
  import opened Util

  /**
   * `Percent(value)`: an existing Percent is returned unchanged, a number is
   * stored as a float, and `float()` of a Currency raises TypeError.
   */
  function New(value: Scalar): (r: Result<Scalar>)
    ensures r.Ok? <==> !value.Cur?
    ensures r.Ok? ==> r.value.Pct? && r.value.x == value.x
    ensures r.Err? ==> r.error == TypeError
  {
    match value
    case Pct(_) => Ok(value)
    case Num(n) => Ok(Pct(n))
    case Cur(_) => Err(TypeError)
  }

  /** `isinstance(other, self.__class__ | number)`. */
  predicate PercentOrNumber(other: Obj) {
    other.Plain? && !other.s.Cur?
  }

  /**
   * The forward operators `__add__`, `__sub__`, `__mul__`, `__truediv__` and
   * `__pow__` of a Percent with magnitude `p`.
   */
  function Forward(op: Op, p: real, other: Obj): (r: Reply)
    requires op == OpPow ==> other.Plain? && IsWhole(other.s.x)
    ensures r.Declined? <==>
      ((op == OpAdd || op == OpSub) && !PercentOrNumber(other)) ||
      (op == OpMul && !(other.Plain? && other.s.Num?))
    ensures r.Done? ==> r.s.Pct? && other.Plain? && Computes(op, p, other.s.x, r.s.x)
    ensures r.Raised? ==> op == OpDiv
    ensures op == OpDiv && other.Plain? ==> (r.Raised? <==> other.s.x == 0.0)
    ensures op == OpDiv && other.Plain? && other.s.x == 0.0 ==> r == Raised(ZeroDivisionError)
    ensures op == OpDiv && other.Boxed? ==>
      r == Raised(if other.v.data.x == 0.0 then ZeroDivisionError else TypeError)
    ensures op == OpDiv && other.Foreign? ==> r == Raised(TypeError)
  {
    match op
    case OpAdd =>
      if PercentOrNumber(other) then Done(Pct(p + other.s.x)) else Declined
    case OpSub =>
      if PercentOrNumber(other) then Done(Pct(p - other.s.x)) else Declined
    case OpMul =>
      // only an operand whose class is exactly int or float is accepted
      if other.Plain? && other.s.Num? then Done(Pct(p * other.s.x)) else Declined
    case OpDiv =>
      // `self.value / other` is Python's own `/`: a number divides directly, a
      // Percent or Currency answers through its `__rtruediv__` with a float, and
      // a Value answers with a Value, which `float()` then refuses
      (match other
       case Plain(s) => if s.x == 0.0 then Raised(ZeroDivisionError) else Done(Pct(p / s.x))
       case Boxed(v) => if v.data.x == 0.0 then Raised(ZeroDivisionError) else Raised(TypeError)
       case Foreign => Raised(TypeError))
    case OpPow =>
      Done(Pct(Power(p, Whole(other.s.x))))
  }

  /**
   * The reflected operators `__radd__`, `__rsub__`, `__rmul__`, `__rtruediv__`
   * and `__rpow__`, reached when a plain number `n` is the left operand.
   */
  function Reflected(op: Op, p: real, n: real): (r: Reply)
    requires op == OpPow ==> IsWhole(p)
    ensures !r.Declined?
    ensures r.Raised? <==> op == OpDiv && p == 0.0
    ensures r.Done? ==> Computes(op, n, p, r.s.x)
    ensures r.Done? && (op == OpAdd || op == OpSub || op == OpMul) ==> r.s.Pct?
    ensures r.Done? && (op == OpDiv || op == OpPow) ==> r.s.Num?
  {
    match op
    case OpAdd => Done(Pct(p + n))
    case OpSub => Done(Pct(n - p))
    case OpMul => Done(Pct(p * n))
    case OpDiv => if p == 0.0 then Raised(ZeroDivisionError) else Done(Num(n / p))
    case OpPow => Done(Num(Power(n, Whole(p))))
  }

  /** `mul`: the explicit product of two rates is a rate. */
  function Mul(p: real, q: real): (r: Scalar)
    ensures r.Pct? && r.x == p * q
  {
    Pct(p * q)
  }

  /** `div`: the explicit ratio of two rates is a plain float. */
  function Div(p: real, q: real): (r: Result<Scalar>)
    ensures r.Ok? <==> q != 0.0
    ensures r.Ok? ==> r.value.Num? && r.value.x * q == p
    ensures r.Err? ==> r.error == ZeroDivisionError
  {
    if q == 0.0 then Err(ZeroDivisionError) else Ok(Num(p / q))
  }

  /** `__neg__`. */
  function Neg(p: real): (r: Scalar)
    ensures r.Pct? && r.x + p == 0.0
  {
    Pct(-p)
  }

  /** `copy`: a new Percent with an equal value. */
  function Copy(p: real): (r: Scalar)
    ensures r == Pct(p)
  {
    Pct(p)
  }
}

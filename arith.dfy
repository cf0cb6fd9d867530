/**
 * Python's raw arithmetic operators applied to two scalars: the left
 * operand's forward method is asked first; if it declines and the operands
 * are of different classes, the right operand's reflected method is asked;
 * if that is not possible either, TypeError is raised.
 *
 * The contract of `Binary` is the class table that this dispatch produces:
 * `+`, `-` and `*` let Currency dominate Percent and Percent dominate a plain
 * number, while `/` and `**` keep the left operand's class.
 */
module Arith {
  import opened Util
  import Percent
  import Currency

  /** The builtin int/float operators: they accept only plain numbers. */
  function NumberForward(op: Op, n: real, other: Obj): (r: Reply)
    requires op == OpPow ==> other.Plain? && IsWhole(other.s.x)
  {
    if other.Plain? && other.s.Num? then
      match Apply(op, n, other.s.x)
      case Ok(v) => Done(Num(v))
      case Err(e) => Raised(e)
    else Declined
  }

  /** The left operand's forward method. */
  function Forward(op: Op, a: Scalar, other: Obj): Reply
    requires op == OpPow ==> other.Plain? && IsWhole(other.s.x)
  {
    match a
    case Num(n) => NumberForward(op, n, other)
    case Pct(p) => Percent.Forward(op, p, other)
    case Cur(c) => Currency.Forward(op, c, other)
  }

  function Settle(r: Reply): Result<Scalar>
    requires !r.Declined?
  {
    if r.Done? then Ok(r.s) else Err(r.e)
  }

  /** `a op b` for two scalars. */
  function Binary(op: Op, a: Scalar, b: Scalar): (r: Result<Scalar>)
    requires op == OpPow ==> IsWhole(b.x)
    ensures r.Err? <==> (op == OpSub && a.Pct? && b.Cur?) || (op == OpMul && a.Pct? && b.Pct?)
                        || (op == OpDiv && b.x == 0.0)
    ensures r.Err? ==> r.error == if op == OpDiv then ZeroDivisionError else TypeError
    ensures r.Ok? && (op == OpAdd || op == OpSub || op == OpMul) ==> TagOf(r.value) == Dominant(TagOf(a), TagOf(b))
    ensures r.Ok? && (op == OpDiv || op == OpPow) ==> TagOf(r.value) == TagOf(a)
    ensures r.Ok? ==> Computes(op, a.x, b.x, r.value.x)
  {
    var forward := Forward(op, a, Plain(b));
    if !forward.Declined? then Settle(forward)
    else if TagOf(a) == TagOf(b) then Err(TypeError)  // same class: no reflected call
    else
      match b
      case Num(_) => Err(TypeError)
      case Pct(q) => Settle(Percent.Reflected(op, q, a.x))
      case Cur(d) => Settle(Currency.Reflected(op, d, a))
  }

  /** Unary `-a`. */
  function Negate(a: Scalar): (r: Scalar)
    ensures TagOf(r) == TagOf(a) && r.x == -a.x
  {
    match a
    case Num(n) => Num(-n)
    case Pct(p) => Percent.Neg(p)
    case Cur(c) => Currency.Neg(c)
  }

  /** Raw `+` is symmetric: the class it gives does not depend on operand order. */
  lemma AddCommutes(a: Scalar, b: Scalar)
    ensures Binary(OpAdd, a, b) == Binary(OpAdd, b, a)
  {
  }

  /**
   * `Percent + Currency` is a Currency: Percent's `__add__` declines a
   * Currency and Currency's `__radd__` answers.
   */
  lemma PercentPlusCurrency(p: real, c: real)
    ensures Binary(OpAdd, Pct(p), Cur(c)) == Ok(Cur(p + c))
  {
  }

  /**
   * Raw `-` is not raw `+` of the negation: `Percent - Currency` raises while
   * `Percent + (-Currency)` is a Currency.
   */
  lemma SubIsNotAddOfNegation(p: real, c: real)
    ensures Binary(OpSub, Pct(p), Cur(c)).Err?
    ensures Binary(OpAdd, Pct(p), Negate(Cur(c))) == Ok(Cur(p - c))
  {
  }
}

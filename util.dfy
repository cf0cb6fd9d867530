/**
 * The scalar model every other module builds on: the three kinds of scalar the
 * library computes with (a plain int/float, a `Currency` amount, a `Percent`
 * rate), the exceptions its operations raise, the outcome of one Python
 * operator method, and util.py's magnitude extraction `get_value`.
 *
 * Magnitudes are Dafny reals: the model does not distinguish int from float
 * and has no rounding, NaN or infinity.
 */
module Util {

  /** Why a ValueError was raised: the message the source attaches to it. */
  datatype Reason =
    | EmptyMean          // mean of an empty Span
    | EmptyPopulation    // population variance of an empty Span
    | TooFewPoints       // sample variance of fewer than two points
    | NoColumns          // a Table without columns
    | NoNonEmptyColumns  // a Table whose columns are all empty
    | UnequalColumns     // a Table whose columns differ in length
    | HeaderMismatch     // header labels and columns differ in number

  /** The Python exceptions the modelled code can raise. */
  datatype Error = TypeError | AttributeError | ZeroDivisionError | ValueError(reason: Reason)

  datatype Result<T> = Ok(value: T) | Err(error: Error)

  /** A scalar: a plain number, a `Currency` amount or a `Percent` rate. */
  datatype Scalar = Num(x: real) | Cur(x: real) | Pct(x: real)

  /** The class of a scalar, ordered by how strongly Python's raw `+` keeps it. */
  datatype Tag = NumberTag | PercentTag | CurrencyTag

  function TagOf(s: Scalar): Tag {
    match s
    case Num(_) => NumberTag
    case Pct(_) => PercentTag
    case Cur(_) => CurrencyTag
  }

  /** The scalar of class `t` with magnitude `x`. */
  function Tagged(t: Tag, x: real): (s: Scalar)
    ensures TagOf(s) == t && s.x == x
  {
    match t
    case NumberTag => Num(x)
    case PercentTag => Pct(x)
    case CurrencyTag => Cur(x)
  }

  function Rank(t: Tag): nat {
    match t
    case NumberTag => 0
    case PercentTag => 1
    case CurrencyTag => 2
  }

  /**
   * The class of the result of Python's raw `+` (and `-`, `*`) on two scalars:
   * Currency dominates Percent, which dominates a plain number.
   */
  function Dominant(a: Tag, b: Tag): Tag {
    if Rank(a) >= Rank(b) then a else b
  }

  /**
   * The class of the result of `add_values` and `Value.__add__`: the left
   * operand's, unless the left operand is a plain number.
   */
  function LeftTag(a: Tag, b: Tag): Tag {
    if a == NumberTag then b else a
  }

  /** value.py's `Value`: a box holding one scalar datum. */
  datatype Value = Value(data: Scalar)

  /**
   * Any Python object an operator method or `get_value` may receive: a scalar,
   * a `Value` box, or another object the library passes (a `Span`, a string),
   * which has no `value` or `data` attribute and no reflected operators.
   */
  datatype Obj = Plain(s: Scalar) | Boxed(v: Value) | Foreign

  /**
   * util.py `get_value`: a number is its own magnitude, a Currency or Percent
   * yields its `value` field, and any other object is asked for `data.value`,
   * which only a `Value` holding a Currency or Percent has.
   */
  function GetValue(o: Obj): (r: Result<real>)
    ensures r.Ok? <==> o.Plain? || (o.Boxed? && !o.v.data.Num?)
    ensures r.Ok? && o.Plain? ==> r.value == o.s.x
    ensures r.Ok? && o.Boxed? ==> r.value == o.v.data.x
    ensures r.Err? ==> r.error == AttributeError
  {
    match o
    case Plain(s) => Ok(s.x)
    case Boxed(v) => if v.data.Num? then Err(AttributeError) else Ok(v.data.x)
    case Foreign => Err(AttributeError)
  }

  /** What one Python operator method does: return a result, decline (`NotImplemented`), or raise. */
  datatype Reply = Done(s: Scalar) | Declined | Raised(e: Error)

  /** The binary arithmetic operators the library defines. */
  datatype Op = OpAdd | OpSub | OpMul | OpDiv | OpPow

  /** `b ** n` for a natural exponent. */
  function Power(b: real, n: nat): real {
    if n == 0 then 1.0 else b * Power(b, n - 1)
  }

  /** Exponents the model covers: non-negative whole numbers. */
  predicate IsWhole(r: real) {
    r >= 0.0 && r.Floor as real == r
  }

  function Whole(r: real): nat
    requires IsWhole(r)
  {
    r.Floor
  }

  /** Python's arithmetic on two magnitudes; division by zero raises. */
  function Apply(op: Op, a: real, b: real): (r: Result<real>)
    requires op == OpPow ==> IsWhole(b)
    ensures r.Err? <==> op == OpDiv && b == 0.0
    ensures r.Err? ==> r.error == ZeroDivisionError
    ensures r.Ok? && op == OpDiv ==> r.value * b == a
  {
    match op
    case OpAdd => Ok(a + b)
    case OpSub => Ok(a - b)
    case OpMul => Ok(a * b)
    case OpDiv => if b == 0.0 then Err(ZeroDivisionError) else Ok(a / b)
    case OpPow => Ok(Power(a, Whole(b)))
  }

  /** `a op b` evaluates, without raising, to `v`. */
  predicate Computes(op: Op, a: real, b: real, v: real)
    requires op == OpPow ==> IsWhole(b)
  {
    var r := Apply(op, a, b);
    r.Ok? && r.value == v
  }
}

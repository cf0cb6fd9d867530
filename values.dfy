/**
 * value.py: `Value`, a box around one scalar datum. Every operator unwraps
 * its operands, computes a new datum with the scalars' own operators and
 * wraps the result in a new Value.
 *
 * Addition is left-biased for a mixed Currency/Percent pair, unlike the raw
 * `+` of `Arith.Binary`, where Currency always wins.
 */
module Values {
  import opened Util
  import Arith
  import Percent
  import Currency

  /** The scalar an operand contributes: a Value's datum, or the scalar itself. */
  function Datum(o: Obj): Scalar
    requires !o.Foreign?
  {
    if o.Boxed? then o.v.data else o.s
  }

  /** `Value(data)`: a Value argument is unwrapped, so a Value never holds a Value. */
  function New(data: Obj): (v: Value)
    requires !data.Foreign?
    ensures v.data == Datum(data)
    ensures data.Boxed? ==> v == data.v
  {
    match data
    case Boxed(w) => Value(w.data)
    case Plain(s) => Value(s)
  }

  /** `copy`: a number is rewrapped, a Percent copied, and a Currency has no `copy`. */
  function Copy(v: Value): (r: Result<Value>)
    ensures r.Ok? <==> !v.data.Cur?
    ensures r.Ok? ==> r.value == v
    ensures r.Err? ==> r.error == AttributeError
  {
    match v.data
    case Num(_) => Ok(Value(v.data))
    case Pct(p) => Ok(Value(Percent.Copy(p)))
    case Cur(_) => Err(AttributeError)
  }

  /** `__neg__`. */
  function Neg(v: Value): (r: Value)
    ensures TagOf(r.data) == TagOf(v.data) && r.data.x == -v.data.x
  {
    Value(Arith.Negate(v.data))
  }

  /** `__add__`: a Currency/Percent pair keeps the left class; anything else is the raw `+`. */
  function Add(v: Value, other: Obj): (r: Value)
    requires !other.Foreign?
    ensures TagOf(r.data) == LeftTag(TagOf(v.data), TagOf(Datum(other)))
    ensures r.data.x == v.data.x + Datum(other).x
  {
    var a := v.data;
    var b := Datum(other);
    if a.Cur? && b.Pct? then Value(Cur(a.x + b.x))
    else if a.Pct? && b.Cur? then Value(Pct(a.x + b.x))
    else Value(Arith.Binary(OpAdd, a, b).value)
  }

  /**
   * `__radd__`: `v + other`, so the Value's class counts as the left one.
   * Python reaches it from `other + v` only for a number or Percent `other`;
   * a Currency answers itself (`CurrencyLeftOfValue`).
   */
  function RAdd(v: Value, other: Obj): (r: Value)
    requires !other.Foreign?
    ensures TagOf(r.data) == LeftTag(TagOf(v.data), TagOf(Datum(other)))
    ensures r.data.x == Datum(other).x + v.data.x
  {
    Add(v, other)
  }

  /** Unary `-` of an operand: a Value's own `__neg__`, or the scalar's. */
  function NegObj(o: Obj): (r: Obj)
    requires !o.Foreign?
    ensures !r.Foreign? && TagOf(Datum(r)) == TagOf(Datum(o)) && Datum(r).x == -Datum(o).x
  {
    match o
    case Boxed(w) => Boxed(Neg(w))
    case Plain(s) => Plain(Arith.Negate(s))
  }

  /** `__sub__`: `v - other` is `v + (-other)`. */
  function Sub(v: Value, other: Obj): (r: Value)
    requires !other.Foreign?
    ensures TagOf(r.data) == LeftTag(TagOf(v.data), TagOf(Datum(other)))
    ensures r.data.x == v.data.x - Datum(other).x
  {
    Add(v, NegObj(other))
  }

  /** `__rsub__`: `(-v) + other`, reached from `other - v` for a number or Percent `other`. */
  function RSub(v: Value, other: Obj): (r: Value)
    requires !other.Foreign?
    ensures TagOf(r.data) == LeftTag(TagOf(v.data), TagOf(Datum(other)))
    ensures r.data.x == Datum(other).x - v.data.x
  {
    Add(Neg(v), other)
  }

  /** `__mul__` (and `__rmul__`): the datum times the other operand's magnitude. */
  function Mul(v: Value, other: Obj): (r: Result<Value>)
    ensures r.Ok? <==> Util.GetValue(other).Ok?
    ensures r.Ok? ==> TagOf(r.value.data) == TagOf(v.data)
    ensures r.Ok? ==> r.value.data.x == v.data.x * Util.GetValue(other).value
    ensures r.Err? ==> r.error == AttributeError
  {
    match Util.GetValue(other)
    case Err(e) => Err(e)
    case Ok(g) => Ok(Value(Arith.Binary(OpMul, v.data, Num(g)).value))
  }

  /** `__truediv__`: the datum divided by the other operand's magnitude. */
  function TrueDiv(v: Value, other: Obj): (r: Result<Value>)
    ensures r.Ok? <==> Util.GetValue(other).Ok? && Util.GetValue(other).value != 0.0
    ensures r.Ok? ==> TagOf(r.value.data) == TagOf(v.data)
    ensures r.Ok? ==> r.value.data.x * Util.GetValue(other).value == v.data.x
    ensures r.Err? && Util.GetValue(other).Ok? ==> r.error == ZeroDivisionError
    ensures Util.GetValue(other).Err? ==> r == Err(AttributeError)
  {
    match Util.GetValue(other)
    case Err(e) => Err(e)
    case Ok(g) =>
      match Arith.Binary(OpDiv, v.data, Num(g))
      case Err(e) => Err(e)
      case Ok(q) => Ok(Value(q))
  }

  /** `__rtruediv__`: a magnitude divided by a Value is a Value holding a plain float. */
  function RTrueDiv(v: Value, other: Obj): (r: Result<Value>)
    ensures r.Ok? <==> Util.GetValue(other).Ok? && v.data.x != 0.0
    ensures r.Ok? ==> r.value.data.Num?
    ensures r.Ok? ==> r.value.data.x * v.data.x == Util.GetValue(other).value
    ensures r.Err? && Util.GetValue(other).Ok? ==> r.error == ZeroDivisionError
    ensures Util.GetValue(other).Err? ==> r == Err(AttributeError)
  {
    match Util.GetValue(other)
    case Err(e) => Err(e)
    case Ok(g) =>
      match Arith.Binary(OpDiv, Num(g), v.data)
      case Err(e) => Err(e)
      case Ok(q) => Ok(Value(q))
  }

  /** `__pow__`: the datum raised to the other operand's magnitude. */
  function Pow(v: Value, other: Obj): (r: Result<Value>)
    requires Util.GetValue(other).Ok? ==> IsWhole(Util.GetValue(other).value)
    ensures r.Ok? <==> Util.GetValue(other).Ok?
    ensures r.Ok? ==> TagOf(r.value.data) == TagOf(v.data)
    ensures r.Ok? ==> r.value.data.x == Power(v.data.x, Whole(Util.GetValue(other).value))
    ensures Util.GetValue(other).Err? ==> r == Err(AttributeError)
  {
    match Util.GetValue(other)
    case Err(e) => Err(e)
    case Ok(g) => Ok(Value(Arith.Binary(OpPow, v.data, Num(g)).value))
  }

  /** `__rpow__`: a magnitude raised to a Value is a Value holding a plain float. */
  function RPow(v: Value, other: Obj): (r: Result<Value>)
    requires IsWhole(v.data.x)
    ensures r.Ok? <==> Util.GetValue(other).Ok?
    ensures r.Ok? ==> r.value.data.Num?
    ensures r.Ok? ==> r.value.data.x == Power(Util.GetValue(other).value, Whole(v.data.x))
    ensures Util.GetValue(other).Err? ==> r == Err(AttributeError)
  {
    match Util.GetValue(other)
    case Err(e) => Err(e)
    case Ok(g) => Ok(Value(Arith.Binary(OpPow, Num(g), v.data).value))
  }

  /**
   * `get_value`: the wrapped magnitude. Unlike util.py's `get_value` applied
   * to the box, it also answers for a Value holding a plain number.
   */
  function GetValue(v: Value): (r: real)
    ensures Util.GetValue(Boxed(v)).Ok? ==> Util.GetValue(Boxed(v)).value == r
    ensures Util.GetValue(Plain(v.data)) == Ok(r)
  {
    Util.GetValue(Plain(v.data)).value
  }

  /**
   * The two addition rules differ: `Value.__add__` keeps a left Percent
   * against a Currency, where the raw `+` gives a Currency.
   */
  lemma AddIsNotRawAdd(p: real, c: real)
    ensures Add(Value(Pct(p)), Plain(Cur(c))) == Value(Pct(p + c))
    ensures Arith.Binary(OpAdd, Pct(p), Cur(c)) == Ok(Cur(p + c))
  {
  }

  /**
   * `Value.__sub__` succeeds where the raw `-` raises: a Value holding a
   * Percent minus a Currency is a Percent.
   */
  lemma SubIsNotRawSub(p: real, c: real)
    ensures Sub(Value(Pct(p)), Plain(Cur(c))) == Value(Pct(p - c))
    ensures Arith.Binary(OpSub, Pct(p), Cur(c)) == Err(TypeError)
  {
  }

  /**
   * With a Currency on the left, `c + v` and `c - v` never reach the Value's
   * reflected methods: `Currency.__add__` reads the Value through `get_value`
   * and returns a bare Currency, or raises for a Value holding a number.
   */
  lemma CurrencyLeftOfValue(c: real, v: Value)
    ensures v.data.Num? ==> Currency.Forward(OpAdd, c, Boxed(v)) == Raised(AttributeError)
    ensures v.data.Num? ==> Currency.Forward(OpSub, c, Boxed(v)) == Raised(AttributeError)
    ensures !v.data.Num? ==> Currency.Forward(OpAdd, c, Boxed(v)) == Done(Cur(c + v.data.x))
    ensures !v.data.Num? ==> Currency.Forward(OpSub, c, Boxed(v)) == Done(Cur(c - v.data.x))
  {
  }
}

/**
 * span.py: `Span`, an ordered list of scalars with broadcast arithmetic,
 * statistics, class conversions and a boxed text rendering.
 *
 * A Span is never changed after construction: every operator builds a new
 * one. Two addition rules meet here. Elementwise addition uses `add_values`,
 * which keeps the left operand's class; `sum` uses Python's builtin `sum`,
 * a fold of the raw `+`, where Currency dominates.
 */
module Spans {
  import opened Util
  import opened Text
  import Arith
  import Currency
  import Percent

  datatype Span = Span(values: seq<Scalar>)

  /** The right operand of a Span's `+` and `-`: another Span or a scalar. */
  datatype Operand = OfSpan(span: Span) | OfScalar(scalar: Scalar)

  /**
   * `Span(values)`: the items are copied into the list, then each is checked;
   * an item that is not an int, float, Currency or Percent raises TypeError.
   */
  method Create(items: seq<Obj>) returns (r: Result<Span>)
    ensures r.Ok? <==> forall i :: 0 <= i < |items| ==> items[i].Plain?
    ensures r.Ok? ==> |r.value.values| == |items|
    ensures r.Ok? ==> forall i :: 0 <= i < |items| ==> r.value.values[i] == items[i].s
    ensures r.Err? ==> r.error == TypeError
  {
    var copied := items;
    for i := 0 to |copied|
      invariant forall j :: 0 <= j < i ==> copied[j].Plain?
    {
      if !copied[i].Plain? {
        return Err(TypeError);
      }
    }
    return Ok(Span(seq(|copied|, j requires 0 <= j < |copied| => copied[j].s)));
  }

  /**
   * `add_values`: a Currency/Percent pair keeps the left class; anything
   * else is the raw `+`.
   */
  function AddValues(a: Scalar, b: Scalar): (r: Scalar)
    ensures TagOf(r) == LeftTag(TagOf(a), TagOf(b))
    ensures r.x == a.x + b.x
  {
    if a.Cur? && b.Pct? then Cur(a.x + b.x)
    else if a.Pct? && b.Cur? then Pct(a.x + b.x)
    else Arith.Binary(OpAdd, a, b).value
  }

  /** Position `i` of `zip_longest(..., fillvalue=0)`: the element, or the int 0 past the end. */
  function At(vs: seq<Scalar>, i: nat): Scalar {
    if i < |vs| then vs[i] else Num(0.0)
  }

  /**
   * `__add__`: with a Span, positions are paired up to the longer length and
   * the shorter side is filled with 0; with a scalar, it is added to each
   * element, the element being the left operand.
   */
  function Add(s: Span, other: Operand): (r: Span)
    ensures other.OfSpan? ==> |r.values| == Max(|s.values|, |other.span.values|)
    ensures other.OfScalar? ==> |r.values| == |s.values|
    ensures forall i :: 0 <= i < |r.values| ==>
      var b := if other.OfSpan? then At(other.span.values, i) else other.scalar;
      TagOf(r.values[i]) == LeftTag(TagOf(At(s.values, i)), TagOf(b)) &&
      r.values[i].x == At(s.values, i).x + b.x
  {
    match other
    case OfSpan(t) =>
      Span(seq(Max(|s.values|, |t.values|), i requires 0 <= i => AddValues(At(s.values, i), At(t.values, i))))
    case OfScalar(x) =>
      Span(seq(|s.values|, i requires 0 <= i < |s.values| => AddValues(s.values[i], x)))
  }

  /** A scalar with the same class and magnitude is the same scalar. */
  lemma SameScalar(a: Scalar, b: Scalar)
    requires TagOf(a) == TagOf(b) && a.x == b.x
    ensures a == b
  {
  }

  /** Past the end of the shorter Span, a sum holds the longer Span's element unchanged. */
  lemma AddPastShorter(s: Span, t: Span)
    ensures forall i :: |t.values| <= i < |s.values| ==> Add(s, OfSpan(t)).values[i] == s.values[i]
    ensures forall i :: |s.values| <= i < |t.values| ==> Add(s, OfSpan(t)).values[i] == t.values[i]
  {
    var r := Add(s, OfSpan(t));
    forall i | |t.values| <= i < |s.values|
      ensures r.values[i] == s.values[i]
    {
      SameScalar(r.values[i], s.values[i]);
    }
    forall i | |s.values| <= i < |t.values|
      ensures r.values[i] == t.values[i]
    {
      SameScalar(r.values[i], t.values[i]);
    }
  }

  /**
   * `__radd__`: `s + x`, each element staying the left operand; Python
   * reaches it from `x + s` only for a number or Percent `x`.
   */
  function RAdd(s: Span, x: Scalar): (r: Span)
    ensures |r.values| == |s.values|
    ensures forall i :: 0 <= i < |r.values| ==>
      TagOf(r.values[i]) == LeftTag(TagOf(s.values[i]), TagOf(x)) && r.values[i].x == x.x + s.values[i].x
  {
    Add(s, OfScalar(x))
  }

  /** `__neg__`: each element negated, keeping its class. */
  function Neg(s: Span): (r: Span)
    ensures |r.values| == |s.values|
    ensures forall i :: 0 <= i < |r.values| ==>
      TagOf(r.values[i]) == TagOf(s.values[i]) && r.values[i].x == -s.values[i].x
  {
    Span(seq(|s.values|, i requires 0 <= i < |s.values| => Arith.Negate(s.values[i])))
  }

  function NegOperand(o: Operand): Operand {
    match o
    case OfSpan(t) => OfSpan(Neg(t))
    case OfScalar(x) => OfScalar(Arith.Negate(x))
  }

  /** `__sub__`: `s - other` is `s + (-other)`, so differences follow `add_values`' class rule. */
  function Sub(s: Span, other: Operand): (r: Span)
    ensures other.OfSpan? ==> |r.values| == Max(|s.values|, |other.span.values|)
    ensures other.OfScalar? ==> |r.values| == |s.values|
    ensures forall i :: 0 <= i < |r.values| ==>
      var b := if other.OfSpan? then At(other.span.values, i) else other.scalar;
      TagOf(r.values[i]) == LeftTag(TagOf(At(s.values, i)), TagOf(b)) &&
      r.values[i].x == At(s.values, i).x - b.x
  {
    var negated := NegOperand(other);
    assert other.OfSpan? ==> forall i :: 0 <= i ==>
      TagOf(At(negated.span.values, i)) == TagOf(At(other.span.values, i)) &&
      At(negated.span.values, i).x == -At(other.span.values, i).x;
    Add(s, negated)
  }

  /** `__rsub__`: `(-s) + x`, reached from `x - s` for a number or Percent `x`. */
  function RSub(s: Span, x: Scalar): (r: Span)
    ensures |r.values| == |s.values|
    ensures forall i :: 0 <= i < |r.values| ==>
      TagOf(r.values[i]) == LeftTag(TagOf(s.values[i]), TagOf(x)) && r.values[i].x == x.x - s.values[i].x
  {
    Add(Neg(s), OfScalar(x))
  }

  /**
   * `__mul__` (and `__rmul__`): each element times the operand's magnitude.
   * The magnitude is read once per element, so an empty Span never reads it.
   */
  function Mul(s: Span, other: Obj): (r: Result<Span>)
    ensures r.Ok? <==> |s.values| == 0 || GetValue(other).Ok?
    ensures r.Err? ==> r.error == AttributeError
    ensures r.Ok? ==> |r.value.values| == |s.values|
    ensures r.Ok? ==> forall i :: 0 <= i < |s.values| ==>
      TagOf(r.value.values[i]) == TagOf(s.values[i]) &&
      r.value.values[i].x == s.values[i].x * GetValue(other).value
  {
    if |s.values| == 0 then Ok(Span([]))
    else
      match GetValue(other)
      case Err(e) => Err(e)
      case Ok(g) =>
        Ok(Span(seq(|s.values|, i requires 0 <= i < |s.values| => Arith.Binary(OpMul, s.values[i], Num(g)).value)))
  }

  /** `__truediv__`: each element divided by the operand's magnitude. */
  function Div(s: Span, other: Obj): (r: Result<Span>)
    ensures r.Ok? <==> |s.values| == 0 || (GetValue(other).Ok? && GetValue(other).value != 0.0)
    ensures r.Err? ==> r.error == if GetValue(other).Ok? then ZeroDivisionError else AttributeError
    ensures r.Ok? ==> |r.value.values| == |s.values|
    ensures r.Ok? ==> forall i :: 0 <= i < |s.values| ==>
      TagOf(r.value.values[i]) == TagOf(s.values[i]) &&
      r.value.values[i].x * GetValue(other).value == s.values[i].x
  {
    if |s.values| == 0 then Ok(Span([]))
    else
      match GetValue(other)
      case Err(e) => Err(e)
      case Ok(g) =>
        if g == 0.0 then Err(ZeroDivisionError)
        else Ok(Span(seq(|s.values|, i requires 0 <= i < |s.values| => Arith.Binary(OpDiv, s.values[i], Num(g)).value)))
  }

  /** `__pow__`: each element raised to the operand's magnitude. */
  function Pow(s: Span, other: Obj): (r: Result<Span>)
    requires GetValue(other).Ok? ==> IsWhole(GetValue(other).value)
    ensures r.Ok? <==> |s.values| == 0 || GetValue(other).Ok?
    ensures r.Ok? ==> |r.value.values| == |s.values|
    ensures r.Ok? ==> forall i :: 0 <= i < |s.values| ==>
      TagOf(r.value.values[i]) == TagOf(s.values[i]) &&
      r.value.values[i].x == Power(s.values[i].x, Whole(GetValue(other).value))
    ensures r.Err? ==> r.error == AttributeError
  {
    if |s.values| == 0 then Ok(Span([]))
    else
      match GetValue(other)
      case Err(e) => Err(e)
      case Ok(g) =>
        Ok(Span(seq(|s.values|, i requires 0 <= i < |s.values| => Arith.Binary(OpPow, s.values[i], Num(g)).value)))
  }

  // ----- statistics -----

  /** The magnitudes of a list of scalars, in order. */
  function Mags(vs: seq<Scalar>): (xs: seq<real>)
    ensures |xs| == |vs| && forall i :: 0 <= i < |vs| ==> xs[i] == vs[i].x
  {
    seq(|vs|, i requires 0 <= i < |vs| => vs[i].x)
  }

  /** The sum of a list of reals. */
  function Sum(xs: seq<real>): real {
    if |xs| == 0 then 0.0 else xs[0] + Sum(xs[1..])
  }

  lemma {:induction false} SumSnoc(xs: seq<real>)
    requires |xs| > 0
    ensures Sum(xs) == Sum(xs[..|xs| - 1]) + xs[|xs| - 1]
  {
    if |xs| > 1 {
      SumSnoc(xs[1..]);
      assert xs[1..][..|xs| - 2] == xs[..|xs| - 1][1..];
    }
  }

  /** The class of a sum: Currency if any element is one, else Percent if any is, else a number. */
  function SumTag(vs: seq<Scalar>): Tag {
    if exists i :: 0 <= i < |vs| && TagOf(vs[i]) == CurrencyTag then CurrencyTag
    else if exists i :: 0 <= i < |vs| && TagOf(vs[i]) == PercentTag then PercentTag
    else NumberTag
  }

  lemma SumTagSnoc(vs: seq<Scalar>)
    requires |vs| > 0
    ensures SumTag(vs) == Dominant(SumTag(vs[..|vs| - 1]), TagOf(vs[|vs| - 1]))
  {
    var init := vs[..|vs| - 1];
    assert forall i :: 0 <= i < |init| ==> init[i] == vs[i];
    if exists i :: 0 <= i < |vs| && TagOf(vs[i]) == CurrencyTag {
      var i :| 0 <= i < |vs| && TagOf(vs[i]) == CurrencyTag;
      if i < |init| {
        assert TagOf(init[i]) == CurrencyTag;
      }
    } else if exists i :: 0 <= i < |vs| && TagOf(vs[i]) == PercentTag {
      var i :| 0 <= i < |vs| && TagOf(vs[i]) == PercentTag;
      if i < |init| {
        assert TagOf(init[i]) == PercentTag;
      }
    }
  }

  /** Builtin `sum`: `((0 + v0) + v1) + ...` with the raw `+`. */
  function SumOf(vs: seq<Scalar>): (r: Scalar)
    ensures TagOf(r) == SumTag(vs)
    ensures r.x == Sum(Mags(vs))
  {
    if |vs| == 0 then Num(0.0)
    else
      var init := vs[..|vs| - 1];
      SumTagSnoc(vs);
      SumSnoc(Mags(vs));
      assert Mags(init) == Mags(vs)[..|vs| - 1];
      Arith.Binary(OpAdd, SumOf(init), vs[|vs| - 1]).value
  }

  /** `sum`. */
  function SpanSum(s: Span): (r: Scalar)
    ensures |s.values| == 0 ==> r == Num(0.0)
    ensures TagOf(r) == SumTag(s.values) && r.x == Sum(Mags(s.values))
  {
    SumOf(s.values)
  }

  // Reference definitions of the statistics, on the magnitudes alone.

  /** The number of reals in a list, as a real. */
  function Len(xs: seq<real>): real {
    |xs| as real
  }

  /** The arithmetic mean of a non-empty list of reals. */
  function Average(xs: seq<real>): real
    requires |xs| > 0
  {
    Sum(xs) / Len(xs)
  }

  function Square(d: real): real {
    d * d
  }

  /** The squares of the deviations of a list of reals from `m`. */
  function Squares(xs: seq<real>, m: real): seq<real> {
    if |xs| == 0 then [] else [Square(xs[0] - m)] + Squares(xs[1..], m)
  }

  lemma {:induction false} SquaresAt(xs: seq<real>, m: real)
    ensures |Squares(xs, m)| == |xs|
    ensures forall i :: 0 <= i < |xs| ==> Squares(xs, m)[i] == Square(xs[i] - m)
  {
    if |xs| > 0 {
      SquaresAt(xs[1..], m);
    }
  }

  /** The sum of the squared deviations of a non-empty list of reals from its mean. */
  function Dispersion(xs: seq<real>): real
    requires |xs| > 0
  {
    Sum(Squares(xs, Average(xs)))
  }

  /** The population variance: the dispersion divided by the count. */
  function PopulationVariance(xs: seq<real>): real
    requires |xs| > 0
  {
    Dispersion(xs) / Len(xs)
  }

  /** The sample variance: the dispersion divided by one less than the count. */
  function SampleVariance(xs: seq<real>): real
    requires |xs| >= 2
  {
    Dispersion(xs) / (Len(xs) - 1.0)
  }

  /** `mean`: the sum divided by the length; an empty Span raises ValueError. */
  function Mean(s: Span): (r: Result<Scalar>)
    ensures r.Ok? <==> |s.values| > 0
    ensures r.Err? ==> r.error == ValueError(EmptyMean)
    ensures r.Ok? ==> TagOf(r.value) == SumTag(s.values)
    ensures r.Ok? ==> r.value.x == Average(Mags(s.values))
  {
    if |s.values| == 0 then Err(ValueError(EmptyMean))
    else Arith.Binary(OpDiv, SumOf(s.values), Num(|s.values| as real))
  }

  lemma SquareIsPower(d: real)
    ensures Power(d, 2) == Square(d)
  {
    assert Power(d, 1) == d;
  }

  /** `(val - mean)**2` for one element, with the raw `-` and `**`. */
  function Deviation(v: Scalar, m: real): (r: Scalar)
    ensures TagOf(r) == TagOf(v) && r.x == Square(v.x - m)
  {
    assert IsWhole(2.0) && Whole(2.0) == 2;
    var d := Arith.Binary(OpSub, v, Num(m)).value;
    SquareIsPower(d.x);
    Arith.Binary(OpPow, d, Num(2.0)).value
  }

  /** The squared deviation of each element from `m`, in order. */
  function Deviations(vs: seq<Scalar>, m: real): (r: seq<Scalar>)
    ensures |r| == |vs|
    ensures forall i :: 0 <= i < |vs| ==> TagOf(r[i]) == TagOf(vs[i])
    ensures Mags(r) == Squares(Mags(vs), m)
  {
    var r := seq(|vs|, i requires 0 <= i < |vs| => Deviation(vs[i], m));
    SquaresAt(Mags(vs), m);
    assert Mags(r) == Squares(Mags(vs), m);
    r
  }

  lemma SumTagOfSameTags(a: seq<Scalar>, b: seq<Scalar>)
    requires |a| == |b| && forall i :: 0 <= i < |a| ==> TagOf(a[i]) == TagOf(b[i])
    ensures SumTag(a) == SumTag(b)
  {
  }

  /** `sum((val - mean)**2 for val in self)`, the numerator of both variances. */
  function DeviationSum(s: Span): (r: Scalar)
    requires |s.values| > 0
    ensures TagOf(r) == SumTag(s.values) && r.x == Dispersion(Mags(s.values))
  {
    var mean := Mean(s).value.x;
    var devs := Deviations(s.values, mean);
    SumTagOfSameTags(devs, s.values);
    SumOf(devs)
  }

  /**
   * `var_p`: the sum of squared deviations from the mean divided by the
   * length; an empty Span raises ValueError.
   */
  function VarP(s: Span): (r: Result<Scalar>)
    ensures r.Ok? <==> |s.values| > 0
    ensures r.Err? ==> r.error == ValueError(EmptyPopulation)
    ensures r.Ok? ==> TagOf(r.value) == SumTag(s.values)
    ensures r.Ok? ==> r.value.x == PopulationVariance(Mags(s.values))
  {
    if |s.values| == 0 then Err(ValueError(EmptyPopulation))
    else
      Arith.Binary(OpDiv, DeviationSum(s), Num(|s.values| as real))
  }

  /**
   * `var_s`: the sum of squared deviations from the mean divided by one less
   * than the length; fewer than two elements raise ValueError.
   */
  function VarS(s: Span): (r: Result<Scalar>)
    ensures r.Ok? <==> |s.values| >= 2
    ensures r.Err? ==> r.error == ValueError(TooFewPoints)
    ensures r.Ok? ==> TagOf(r.value) == SumTag(s.values)
    ensures r.Ok? ==> r.value.x == SampleVariance(Mags(s.values))
  {
    if |s.values| < 2 then Err(ValueError(TooFewPoints))
    else
      Arith.Binary(OpDiv, DeviationSum(s), Num(|s.values| as real - 1.0))
  }

  /** Division by a positive real undoes multiplication and keeps the sign. */
  lemma DivisionFacts(a: real, b: real)
    requires b > 0.0
    ensures (a / b) * b == a
    ensures a >= 0.0 ==> a / b >= 0.0
  {
  }

  lemma {:induction false} SquaresNonNegative(xs: seq<real>, m: real)
    ensures Sum(Squares(xs, m)) >= 0.0
  {
    if |xs| > 0 {
      SquaresNonNegative(xs[1..], m);
      assert Square(xs[0] - m) >= 0.0;
    }
  }

  /** A non-negative real divided by the larger of two positive reals is the smaller quotient. */
  lemma DivideByLarger(d: real, a: real, b: real)
    requires d >= 0.0 && 0.0 < a <= b
    ensures 0.0 <= d / b <= d / a
  {
    DivisionFacts(d, a);
    DivisionFacts(d, b);
    assert d / b * b == d / a * a;
  }

  /**
   * Both variances are non-negative, and the sample variance, dividing the
   * same sum by one less, is at least the population variance.
   */
  lemma VarianceBounds(xs: seq<real>)
    requires |xs| >= 2
    ensures 0.0 <= PopulationVariance(xs) <= SampleVariance(xs)
  {
    SquaresNonNegative(xs, Average(xs));
    DivideByLarger(Dispersion(xs), Len(xs) - 1.0, Len(xs));
  }

  // ----- class conversions -----

  /** `iter_number`: the magnitudes, in order. */
  function IterNumber(s: Span): (r: seq<real>)
    ensures |r| == |s.values| && forall i :: 0 <= i < |r| ==> r[i] == s.values[i].x
  {
    seq(|s.values|, i requires 0 <= i < |s.values| => GetValue(Plain(s.values[i])).value)
  }

  /** `iter_currency`: each magnitude as a Currency, in order. */
  function IterCurrency(s: Span): (r: seq<Scalar>)
    ensures |r| == |s.values| && forall i :: 0 <= i < |r| ==> r[i].Cur? && r[i].x == s.values[i].x
  {
    seq(|s.values|, i requires 0 <= i < |s.values| => Currency.New(Num(GetValue(Plain(s.values[i])).value)).value)
  }

  /** `iter_percent`: each magnitude as a Percent, in order. */
  function IterPercent(s: Span): (r: seq<Scalar>)
    ensures |r| == |s.values| && forall i :: 0 <= i < |r| ==> r[i].Pct? && r[i].x == s.values[i].x
  {
    seq(|s.values|, i requires 0 <= i < |s.values| => Percent.New(Num(GetValue(Plain(s.values[i])).value)).value)
  }

  /** `as_number`: a Span of the magnitudes as plain numbers. */
  function AsNumber(s: Span): (r: Span)
    ensures |r.values| == |s.values|
    ensures forall i :: 0 <= i < |r.values| ==> r.values[i] == Num(s.values[i].x)
  {
    var magnitudes := IterNumber(s);
    Span(seq(|magnitudes|, i requires 0 <= i < |magnitudes| => Num(magnitudes[i])))
  }

  /** `as_currency`. */
  function AsCurrency(s: Span): (r: Span)
    ensures |r.values| == |s.values|
    ensures forall i :: 0 <= i < |r.values| ==> r.values[i] == Cur(s.values[i].x)
  {
    Span(IterCurrency(s))
  }

  /** `as_percent`. */
  function AsPercent(s: Span): (r: Span)
    ensures |r.values| == |s.values|
    ensures forall i :: 0 <= i < |r.values| ==> r.values[i] == Pct(s.values[i].x)
  {
    Span(IterPercent(s))
  }

  /**
   * A conversion changes only classes: converting to Currency or Percent and
   * back to numbers gives the original magnitudes, in the original order.
   */
  lemma ConversionRoundTrip(s: Span)
    ensures AsNumber(AsCurrency(s)) == AsNumber(s)
    ensures AsNumber(AsPercent(s)) == AsNumber(s)
    ensures IterNumber(AsCurrency(s)) == IterNumber(s) == IterNumber(AsPercent(s))
  {
  }

  // ----- rendering -----

  /** A horizontal border of a box whose elements are `w` wide. */
  function Rule(left: char, right: char, w: nat): (r: string)
    ensures |r| == w + 4
  {
    [left] + Repeat('\U{2500}', w + 2) + [right]
  }

  /** An element line: the element's text right-justified to `w` between two bars. */
  function Cell(str: string, w: nat): (r: string)
    ensures |str| <= w ==> |r| == w + 4
    ensures |str| <= w ==> r[w + 2 - |str|..w + 2] == str
    ensures forall i :: 2 <= i < w + 2 - |str| ==> r[i] == ' '
  {
    var field := RJust(str, w);
    var r := "\U{2502} " + field + " \U{2502}";
    assert forall i :: 2 <= i < 2 + |field| ==> r[i] == field[i - 2];
    if |str| <= w then
      assert r[w + 2 - |str|..w + 2] == field[|field| - |str|..];
      r
    else r
  }

  /** The fixed box of an empty Span. */
  const EmptyBox: seq<string> := [
    "\U{250C}\U{2500}\U{2500}\U{2500}\U{2500}\U{2500}\U{2500}\U{2500}\U{2510}",
    "\U{2502} Empty \U{2502}",
    "\U{2514}\U{2500}\U{2500}\U{2500}\U{2500}\U{2500}\U{2500}\U{2500}\U{2518}"
  ]

  /** The element lines of a box whose elements are `w` wide. */
  function Cells(strs: seq<string>, w: nat): (cells: seq<string>)
    ensures |cells| == |strs| && forall j :: 0 <= j < |strs| ==> cells[j] == Cell(strs[j], w)
  {
    seq(|strs|, j requires 0 <= j < |strs| => Cell(strs[j], w))
  }

  lemma CellsWidth(strs: seq<string>, w: nat)
    requires forall j :: 0 <= j < |strs| ==> |strs[j]| <= w
    ensures forall j :: 0 <= j < |strs| ==> |Cells(strs, w)[j]| == w + 4
  {
    forall j | 0 <= j < |strs|
      ensures |Cells(strs, w)[j]| == w + 4
    {
      assert Cells(strs, w)[j] == Cell(strs[j], w);
    }
  }

  /**
   * The lines of the box of a Span whose elements read `strs`: a top border,
   * each element's line followed by a delimiter, or the bottom border after
   * the last, all as wide as the longest element text.
   */
  function BoxLines(strs: seq<string>): seq<string> {
    if |strs| == 0 then EmptyBox
    else
      var w := MaxLen(strs);
      Frame(Rule('\U{250C}', '\U{2510}', w), Cells(strs, w), Rule('\U{251C}', '\U{2524}', w),
            Rule('\U{2514}', '\U{2518}', w), |strs|)
  }

  /** `__repr__`, given the text of each element. */
  method Render(strs: seq<string>) returns (s: string)
    ensures s == Unlines(BoxLines(strs))
  {
    if |strs| == 0 {
      EmptyBoxText();
      return EmptyBox[0] + "\n" + EmptyBox[1] + "\n" + EmptyBox[2];
    }
    var maxLen := MaxLen(strs);
    ghost var top, cells := Rule('\U{250C}', '\U{2510}', maxLen), Cells(strs, maxLen);
    ghost var rule, bottom := Rule('\U{251C}', '\U{2524}', maxLen), Rule('\U{2514}', '\U{2518}', maxLen);
    var delimiter := Rule('\U{251C}', '\U{2524}', maxLen) + "\n";
    s := Rule('\U{250C}', '\U{2510}', maxLen) + "\n";
    for i := 0 to |strs|
      invariant i < |strs| ==> s == Unlines(Frame(top, cells, rule, bottom, i)) + "\n"
      invariant i == |strs| ==> s == Unlines(Frame(top, cells, rule, bottom, i))
    {
      FrameTextStep(s, top, cells, rule, bottom, i);
      s := s + Cell(strs[i], maxLen) + "\n";
      if i < |strs| - 1 {
        s := s + delimiter;
      } else {
        s := s + Rule('\U{2514}', '\U{2518}', maxLen);
      }
    }
  }

  /** An empty Span's box is three lines of width nine. */
  lemma EmptyBoxShape()
    ensures |BoxLines([])| == 3 && forall k :: 0 <= k < 3 ==> |BoxLines([])[k]| == 9
    ensures BoxLines([])[1] == "\U{2502} Empty \U{2502}"
  {
  }

  /** The text of the empty box: its three lines joined by newlines. */
  lemma EmptyBoxText()
    ensures Unlines(EmptyBox) == EmptyBox[0] + "\n" + EmptyBox[1] + "\n" + EmptyBox[2]
  {
    UnlinesSnoc(EmptyBox[..1], EmptyBox[1]);
    UnlinesSnoc(EmptyBox[..2], EmptyBox[2]);
    assert EmptyBox[..1] + [EmptyBox[1]] == EmptyBox[..2];
    assert EmptyBox[..2] + [EmptyBox[2]] == EmptyBox;
  }

  lemma BoxHeightAndCells(strs: seq<string>)
    requires |strs| > 0
    ensures |BoxLines(strs)| == 2 * |strs| + 1
    ensures forall j :: 0 <= j < |strs| ==> BoxLines(strs)[2 * j + 1] == Cell(strs[j], MaxLen(strs))
  {
    var w := MaxLen(strs);
    FrameShape(Rule('\U{250C}', '\U{2510}', w), Cells(strs, w), Rule('\U{251C}', '\U{2524}', w),
               Rule('\U{2514}', '\U{2518}', w), |strs|);
  }

  lemma BoxWidth(strs: seq<string>)
    requires |strs| > 0
    ensures forall k :: 0 <= k < |BoxLines(strs)| ==> |BoxLines(strs)[k]| == MaxLen(strs) + 4
  {
    var w := MaxLen(strs);
    CellsWidth(strs, w);
    FrameWidth(Rule('\U{250C}', '\U{2510}', w), Cells(strs, w), Rule('\U{251C}', '\U{2524}', w),
               Rule('\U{2514}', '\U{2518}', w), w + 4);
  }

  /**
   * The box of a non-empty Span has 2n+1 lines, all as wide as the longest
   * element text plus four, with element `j` right-justified to that width
   * on line 2j+1.
   */
  lemma BoxShape(strs: seq<string>)
    requires |strs| > 0
    ensures |BoxLines(strs)| == 2 * |strs| + 1
    ensures forall k :: 0 <= k < |BoxLines(strs)| ==> |BoxLines(strs)[k]| == MaxLen(strs) + 4
    ensures forall j :: 0 <= j < |strs| ==> BoxLines(strs)[2 * j + 1] == Cell(strs[j], MaxLen(strs))
  {
    BoxHeightAndCells(strs);
    BoxWidth(strs);
  }

  /**
   * Python's `x op s` for a scalar `x` and a Span `s`, with `op` one of `+`,
   * `-`, `*`: the scalar's own method is asked first. A number or a Percent
   * declines a Span, so the Span's reflected method answers; a Currency reads
   * the Span through `get_value`, which raises AttributeError.
   */
  function ScalarWithSpan(op: Op, x: Scalar, s: Span): (r: Result<Span>)
    requires op == OpAdd || op == OpSub || op == OpMul
    ensures r.Ok? <==> !x.Cur?
    ensures r.Err? ==> r.error == AttributeError
    ensures r.Ok? && op == OpAdd ==> r.value == RAdd(s, x)
    ensures r.Ok? && op == OpSub ==> r.value == RSub(s, x)
    ensures r.Ok? && op == OpMul ==> Mul(s, Plain(x)) == r
  {
    var forward := Arith.Forward(op, x, Foreign);
    if forward.Raised? then Err(forward.e)
    else if op == OpAdd then Ok(RAdd(s, x))
    else if op == OpSub then Ok(RSub(s, x))
    else Mul(s, Plain(x))
  }

  /**
   * `Currency(1) + Span([1])` raises AttributeError, while the reflected
   * addition it was meant to reach gives `Span([Currency(2)])`.
   */
  lemma CurrencyPlusSpanRaises()
    ensures ScalarWithSpan(OpAdd, Cur(1.0), Span([Num(1.0)])) == Err(AttributeError)
    ensures RAdd(Span([Num(1.0)]), Cur(1.0)) == Span([Cur(2.0)])
  {
    var r := RAdd(Span([Num(1.0)]), Cur(1.0));
    SameScalar(r.values[0], Cur(2.0));
  }
}

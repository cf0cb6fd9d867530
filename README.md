# excelpy in Dafny

A model of the core of excelpy, a small spreadsheet-style library of typed
numbers. Every scalar is a plain number, a `Currency` amount or a `Percent`
rate, and each arithmetic operator fixes which of the three classes its
result carries. Around the scalars sit `Value` (a box holding one scalar),
`Span` (an ordered column of scalars with broadcasting arithmetic,
summary statistics and a box-drawn text rendering) and `Table` (labelled
columns of equal length rendered as a grid). `main.py` adds compounding
helpers for periodic rates.

Modules, one per source file where the source has one:

| module | file | models |
|---|---|---|
| `Util` | util.dfy | scalars, classes (`Tag`), errors, `get_value`, whole powers |
| `Percent` | percent.dfy | percent.py |
| `Currency` | currency.dfy | currency.py |
| `Arith` | arith.dfy | Python's raw binary operators on two scalars: the left operand's method, then the right operand's reflected method |
| `Values` | values.dfy | value.py |
| `Text` | text.dfy | `str.rjust`, `str.center`, `str.join`, line joining, and two generic line layouts (a framed list and stacked rows) |
| `Spans` | spans.dfy | span.py |
| `Tables` | tables.dfy | table.py |
| `Compounding` | compounding.dfy | main.py |

Two addition rules coexist and both are kept. The raw `+` of two scalars
(`Arith.Binary`) lets Currency dominate Percent and Percent dominate a
plain number, whatever the order, because `Percent.__add__` declines a
Currency and `Currency.__radd__` answers. `add_values` and `Value.__add__`
are left-biased for a Currency/Percent pair (`Util.LeftTag`). The builtin
`sum` of a Span uses the raw rule, so its class is Currency if any element
is a Currency, else Percent if any is a Percent, else a plain number.

`add_values` and `Value.__add__` are not symmetric: `Percent + Currency`
is a Percent there and a Currency under the raw `+`.

`Span.__init__` and the two `__repr__` methods build their result step by
step, so they are methods with loops (`Spans.Create`, `Spans.Render`,
`Tables.Render`) proved against layout functions (`Spans.BoxLines`,
`Tables.TableLines`); everything else is immutable and is modelled with
datatypes and functions. A Span is never mutated after construction, so
it is a datatype.

## Model

| member | source | states |
|---|---|---|
| Util.GetValue | util.py:15-21 | a number is its own magnitude; a Currency or Percent yields its `value`; a Value holding a Currency or Percent yields the inner magnitude; a Value holding a plain number, and any other object the library passes (a Span, a string), raises AttributeError |
| Percent.New | percent.py:6-14 | an existing Percent is kept, a number becomes a Percent of the same magnitude, a Currency raises TypeError from `float()` |
| Percent.Forward | percent.py:16-53 | `+`/`-` decline anything but a Percent or number, `*` declines anything whose class is not exactly int or float; an accepted operation gives a Percent computing the operator on the magnitudes; `/` raises exactly for a zero divisor (or a non-float quotient) |
| Percent.Reflected | percent.py:21-56 | never declines; `n + p`, `n - p`, `n * p` are Percents of `p + n`, `n - p`, `p * n`; `n / p` and `n ** p` are plain floats; `/` raises exactly when `p` is zero |
| Percent.Mul | percent.py:40-41 | the explicit product of two rates is a Percent of the product |
| Percent.Div | percent.py:49-50 | the explicit ratio is a plain float `q` with `q * b == a`, raising ZeroDivisionError exactly for a zero divisor |
| Percent.Neg | percent.py:58-59 | a Percent whose magnitude is the negation |
| Percent.Copy | percent.py:67-68 | a Percent with an equal value |
| Currency.New | currency.py:7-15 | an existing Currency is kept, a number becomes a Currency of the same magnitude, a Percent raises TypeError from `float()` |
| Currency.Forward | currency.py:17-48 | never declines: a Currency computing the operator on its value and `get_value(other)`; raises exactly when `get_value` fails or a division is by zero |
| Currency.Reflected | currency.py:20-51 | `x + c`, `x - c`, `x * c` are Currencies and `x / c` a plain float, computing the operator; `Percent - Currency` raises TypeError and `/` raises for a zero Currency; `x ** c` keeps `x`'s class |
| Currency.Mul | currency.py:35-36 | the explicit product of two amounts is a Currency of the product |
| Currency.Div | currency.py:44-45 | the explicit ratio is a plain float `q` with `q * d == c`, raising ZeroDivisionError exactly for a zero divisor |
| Currency.Neg | currency.py:53-54 | a Currency whose magnitude is the negation |
| Currency.Repr | currency.py:56-60 | the text starts with `-` exactly when the value is negative, then `$`, then the digits of the absolute value |
| Arith.Binary | currency.py:17-51 | raw `a op b`: raises exactly for `Percent - Currency`, `Percent * Percent` (TypeError) and a zero divisor (ZeroDivisionError); `+`, `-`, `*` give the dominant class, `/` and `**` the left operand's class; the magnitude is the operator applied to the magnitudes |
| Arith.Negate | currency.py:53-54 | unary minus keeps the class and negates the magnitude |
| Arith.AddCommutes | currency.py:20-21 | raw `+` gives the same result in either operand order |
| Arith.PercentPlusCurrency | percent.py:16-19 | `Percent + Currency` is a Currency of the sum |
| Arith.SubIsNotAddOfNegation | currency.py:26-27 | `Percent - Currency` raises while `Percent + (-Currency)` is a Currency |
| Values.New | value.py:11-15 | the new Value holds the argument's datum, so a Value never nests; wrapping a Value gives an equal Value |
| Values.Copy | value.py:17-21 | a Value holding a number or Percent copies to an equal Value; holding a Currency raises AttributeError |
| Values.Neg | value.py:23-24 | keeps the class and negates the magnitude |
| Values.Add | value.py:26-38 | the class is the left one unless the left datum is a plain number; the magnitude is the sum |
| Values.RAdd | value.py:40-41 | `Value.__radd__(other)`, reached from `other + v` for a number or Percent `other`, has the Value's class unless it holds a number, and the sum as magnitude |
| Values.NegObj | value.py:43-44 | negating the other operand keeps its class and negates its magnitude |
| Values.Sub | value.py:43-44 | `v - other` is left-biased like `+` with the difference as magnitude |
| Values.RSub | value.py:46-47 | `Value.__rsub__(other)`, reached from `other - v` for a number or Percent `other`, has the Value's class unless it holds a number, and `other - v` as magnitude |
| Values.Mul | value.py:49-53 | keeps the class and multiplies by `get_value(other)`; raises exactly when `get_value` does |
| Values.TrueDiv | value.py:55-56 | keeps the class and divides by `get_value(other)`; AttributeError when `get_value` fails, ZeroDivisionError for a zero divisor |
| Values.RTrueDiv | value.py:58-59 | `Value.__rtruediv__(other)`, reached from `n / v` for a plain number `n`, is a Value holding a plain float; AttributeError when `get_value(other)` fails, ZeroDivisionError for a zero datum |
| Values.Pow | value.py:61-62 | keeps the class and raises the magnitude to `get_value(other)`; AttributeError exactly when `get_value` fails |
| Values.RPow | value.py:64-65 | `Value.__rpow__(other)`, reached from `n ** v` for a plain number `n`, is a Value holding a plain float; AttributeError exactly when `get_value(other)` fails |
| Values.GetValue | value.py:73-74 | the wrapped magnitude, agreeing with util.py's `get_value` wherever that answers |
| Values.AddIsNotRawAdd | value.py:32-38 | `Value(Percent) + Currency` is a Percent while the raw `+` gives a Currency |
| Values.SubIsNotRawSub | value.py:43-44 | `Value(Percent) - Currency` is a Percent while the raw `-` raises |
| Values.CurrencyLeftOfValue | currency.py:17-24 | `Currency + Value` and `Currency - Value` are a bare Currency of the sum or difference of magnitudes for a Value holding a Currency or Percent, and raise AttributeError for a Value holding a number |
| Spans.Create | span.py:37-41 | succeeds exactly when every item is a number, Currency or Percent, keeping them in order; otherwise TypeError |
| Spans.AddValues | span.py:27-33 | left-biased class, magnitude the sum |
| Spans.Add | span.py:43-51 | Span + Span has the longer length and combines position `i` of both, missing positions read as 0; Span + scalar keeps the length; every element is left-biased with the summed magnitude |
| Spans.AddPastShorter | span.py:45-48 | past the end of the shorter Span the longer one's element is kept unchanged |
| Spans.RAdd | span.py:53-54 | `Span.__radd__(x)`, reached from `x + s` for a number or Percent `x`, keeps the length and adds `x` to each element with the element's class leading |
| Spans.Neg | span.py:56-57 | same length, each element negated with its class kept |
| Spans.Sub | span.py:59-60 | `s - other` is `s + (-other)`: lengths as for `+`, left-biased classes, magnitudes the differences |
| Spans.RSub | span.py:62-63 | `Span.__rsub__(x)`, reached from `x - s` for a number or Percent `x`, is `(-s) + x`: same length, magnitudes `x - s[i]` |
| Spans.Mul | span.py:65-69 | every element times `get_value(other)`, classes and length kept; an empty Span never calls `get_value`; otherwise AttributeError when it fails |
| Spans.Div | span.py:71-72 | every element divided by `get_value(other)`; ZeroDivisionError for a zero divisor on a non-empty Span |
| Spans.Pow | span.py:74-75 | every element raised to `get_value(other)`, classes and length kept; AttributeError exactly when `get_value` fails on a non-empty Span |
| Spans.SumOf | span.py:106-107 | the builtin `sum` folds the raw `+` from 0: its class is Currency if any element is one, else Percent if any element is one, else a number; its magnitude is the sum of magnitudes |
| Spans.SpanSum | span.py:106-107 | an empty Span sums to the number 0; otherwise as `SumOf` |
| Spans.Mean | span.py:109-112 | ValueError exactly for an empty Span; otherwise the sum's class and the average magnitude |
| Spans.Deviation | span.py:121 | `(val - mean)**2` keeps the element's class and squares the deviation |
| Spans.Deviations | span.py:121 | one squared deviation per element, classes kept |
| Spans.DeviationSum | span.py:120-121 | the sum of squared deviations has the Span's sum class and the dispersion `Σ(x - mean)²` as magnitude |
| Spans.VarP | span.py:114-121 | ValueError exactly for an empty Span; otherwise `Σ(x - mean)² / n` with the sum's class |
| Spans.VarS | span.py:123-130 | ValueError exactly for fewer than two elements; otherwise `Σ(x - mean)² / (n - 1)` with the sum's class |
| Spans.SquaresNonNegative | span.py:121 | a sum of squared deviations is never negative |
| Spans.VarianceBounds | span.py:114-130 | for two or more points, `0 <= var_p <= var_s` |
| Spans.IterNumber | span.py:146-147 | the magnitudes in order |
| Spans.IterCurrency | span.py:140-141 | Currencies of the magnitudes in order |
| Spans.IterPercent | span.py:143-144 | Percents of the magnitudes in order |
| Spans.AsNumber | span.py:155-156 | same length and magnitudes, every element a number |
| Spans.AsCurrency | span.py:149-150 | same length and magnitudes, every element a Currency |
| Spans.AsPercent | span.py:152-153 | same length and magnitudes, every element a Percent |
| Spans.ConversionRoundTrip | span.py:140-156 | converting to Currency or Percent and back to numbers returns the original magnitudes |
| Spans.Rule | span.py:84-85 | a border is as wide as an element line |
| Spans.Cell | span.py:87 | an element line is `w + 4` wide with the element's text right-justified, spaces before it |
| Spans.CellsWidth | span.py:86-87 | every element line is `w + 4` wide |
| Spans.Render | span.py:77-92 | the loop writes exactly the text of `BoxLines`: the fixed box when empty, else top border, element lines separated by delimiters, bottom border |
| Spans.EmptyBoxShape | span.py:78-81 | the empty box is three lines of width 9 with `│ Empty │` in the middle |
| Spans.EmptyBoxText | span.py:79-81 | the empty box text is its three lines joined by newlines |
| Spans.BoxHeightAndCells | span.py:82-92 | a Span of `n > 0` elements renders as `2n + 1` lines, element `j` on line `2j + 1` |
| Spans.BoxWidth | span.py:83-92 | every line is the longest element text plus 4 wide |
| Spans.BoxShape | span.py:77-92 | `2n + 1` lines, all of width longest text + 4, element `j` right-justified on line `2j + 1` |
| Spans.ScalarWithSpan | currency.py:17-18 | `x op span` for a scalar left operand: raises AttributeError exactly for a Currency; otherwise equals the Span's reflected method |
| Spans.CurrencyPlusSpanRaises | span.py:53-54 | `Currency(1) + Span([1])` raises although `Span.__radd__` would give `Span([Currency(2)])` |
| Text.RJust | span.py:87 | the text padded on the left with spaces to `max(len, w)` |
| Text.Center | table.py:72-75 | the text with spaces on both sides to `max(len, w)`, the left margin as `str.center` computes it |
| Tables.MaxCount | table.py:30 | the largest column length, reached by some column |
| Tables.SingleLength | table.py:32-33 | the set of column lengths has one element exactly when all columns have the same length |
| Tables.Validate | table.py:27-37 | succeeds exactly for a well-shaped table; otherwise the first failing rule's ValueError: no columns, no non-empty column, unequal lengths, label count |
| Tables.New | table.py:14-17 | stores the columns and labels and fails exactly as `Validate` does |
| Tables.FromPairs | table.py:19-25 | label `i` heads column `i` in pair order; never fails on the label count; succeeds exactly for non-empty equal-length columns |
| Tables.Widths | table.py:55-58 | each column width is at least its label and every cell text, and equals one of them |
| Tables.LabelFields | table.py:72-75 | label `c` centred in width `c` |
| Tables.RowFields | table.py:80-83 | cell `c` of row `k` right-justified to width `c` |
| Tables.RowLines | table.py:78-84 | one line per row, in row order |
| Tables.HeaderText | table.py:59-77 | the text written before the loop is the top border, header row and header delimiter |
| Tables.RowText | table.py:78-85 | one loop step appends a row delimiter (not before the first row) and the row |
| Tables.ValidGrid | table.py:52-54 | validated columns give a rectangular grid of cell texts |
| Tables.Render | table.py:40-87 | raises the validation error, else writes exactly the text of `TableLines` |
| Tables.BorderWidth | table.py:59-70 | every border is `Σ widths + 3k + 1` wide for `k` columns |
| Tables.RowLineWidth | table.py:76 | a row of fields that fill their widths is `Σ widths + 3k + 1` wide |
| Tables.FieldsFit | table.py:72-84 | labels and cells fill exactly their column's width, each cell text ending its field |
| Tables.LinesShape | table.py:59-85 | top border, header row, header delimiter, then row `k` on line `3 + 2k` and row delimiters between rows |
| Tables.TableShape | table.py:59-86 | `r > 0` rows render as `2r + 3` lines ending with the bottom border |
| Tables.TableWidth | table.py:59-86 | every line is `Σ widths + 3k + 1` wide |
| Compounding.MulI | main.py:8-9 | the chained rate is `i + j + i·j`; chaining with 0 keeps `i`; it is -1 exactly when either rate is -1 |
| Compounding.FV | main.py:20-21 | zero periods return `pv`; the future value is zero exactly when `pv` is zero or the rate is -1 over at least one period |
| Compounding.DivI | main.py:12-13 | the quotient rate `q` satisfies `(q + 1)(j + 1) == i + 1`; ZeroDivisionError exactly for `j == -1` |
| Compounding.PV | main.py:16-17 | the present value times the growth factor is the future value; ZeroDivisionError exactly when `i == -1` and `n > 0` |
| Compounding.MulIZero | main.py:8-9 | chaining with the rate 0 changes nothing |
| Compounding.MulICommutes | main.py:8-9 | `mul_i` is symmetric |
| Compounding.MulIAssociates | main.py:8-9 | `mul_i` is associative |
| Compounding.DivIMulI | main.py:8-13 | `div_i(mul_i(i, j), j) == i` for `j != -1` |
| Compounding.MulIDivI | main.py:8-13 | `mul_i(div_i(i, j), j) == i` for `j != -1` |
| Compounding.DivISelf | main.py:12-13 | `div_i(i, i) == 0` for `i != -1` |
| Compounding.NoPeriods | main.py:16-21 | over zero periods `FV` and `PV` return the amount |
| Compounding.PVofFV | main.py:16-21 | `PV(i, n, FV(i, n, pv)) == pv` for `i != -1` |
| Compounding.FVofPV | main.py:16-21 | `FV(i, n, PV(i, n, fv)) == fv` for `i != -1` |
| Compounding.FVSplit | main.py:20-21 | growing over `m` and then `n` periods is growing over `m + n` |
| Compounding.FVMulI | main.py:8-21 | growing at `mul_i(i, j)` is growing at `j` and then at `i` |

## Left out

- Magnitudes are Dafny reals: IEEE-754 rounding, NaN, infinities and the int/float distinction are not modelled, except for the exact-class test of `Percent.__mul__`.
- Number-to-text formatting (`str()` of numbers, `:.2f`, `:.2%`) is not modelled: element and cell texts are inputs of `Spans.Render` and `Tables.Render`, and the digits of `Currency.Repr` are an input. `Percent.__repr__` is not modelled.
- `stdev_p` and `stdev_s` (square roots) are not modelled.
- `NPER` and `RATE` (logarithms and exponentials) and `pper` (printing) are not modelled.
- Percent.Forward: `**` is modelled for whole, non-negative exponents only, because fractional powers are floating-point numerics; the same restriction applies to Percent.Reflected, Currency.Forward, Currency.Reflected, Arith.Binary, Values.Pow, Values.RPow and Spans.Pow.
- Compounding.PV: the number of periods is a natural number, not an arbitrary float; the same holds for `FV`.
- Python's operator dispatch is encoded as its outcome (`Reply`: done, declined or raised); object identity from `__new__` returning its argument is modelled as value equality.
- Spans.Add: operands other than a Span or a scalar (a Value, a string) are not modelled; neither are Span arithmetic operands that are Values.
- `Obj.Foreign` stands for an object with no `value` or `data` attribute and no reflected operators; other user objects are not modelled.
- Values.Add: an operand that is neither a scalar nor a Value is not modelled.
- Spans.Create: the argument is a finite sequence rather than an arbitrary iterable.
- `__str__`, `__iter__`, `__len__` and `len` are trivial delegations and are not modelled separately.
- The demonstration blocks under `if __name__ == "__main__"` are not modelled.
- Spans.VarP: the result is stated as `Σ(x - mean)² / n`; the equivalent closed form `Σx²/n - mean²` is not stated.

## Findings

| source | as written | input that shows it | evidently intended | confidence | as-written member | corrected member |
|---|---|---|---|---|---|---|
| currency.py:17-18 | `Currency.__add__` (and `__sub__`, `__mul__`) calls `get_value` on a Span, which raises AttributeError instead of returning `NotImplemented`, so `Span.__radd__` (span.py:53-54) is never reached | `Currency(1) + Span([1])` | the reflected Span operation, giving `Span([Currency(2)])` as for a number or Percent left operand | not executed | Spans.ScalarWithSpan, Spans.CurrencyPlusSpanRaises | Spans.RAdd |

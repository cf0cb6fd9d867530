/**
 * main.py: compounding of periodic rates on plain numbers. A rate `i`
 * grows an amount by the factor `1 + i` per period; `mul_i` chains two
 * rates, `div_i` undoes one, `FV` and `PV` move an amount forwards and
 * backwards over a whole number of periods.
 */
module Compounding {
  import opened Util

  /** `mul_i`: the single rate equivalent to a period at `i` followed by one at `j`. */
  function MulI(i: real, j: real): (r: real)
    ensures r == i + j + i * j
    ensures j == 0.0 ==> r == i
    ensures r == -1.0 <==> i == -1.0 || j == -1.0
  {
    ProductZero(i + 1.0, j + 1.0);
    (i + 1.0) * (j + 1.0) - 1.0
  }

  /** A product of two reals is zero exactly when a factor is. */
  lemma ProductZero(a: real, b: real)
    ensures a * b == 0.0 <==> a == 0.0 || b == 0.0
  {
    if a != 0.0 && b != 0.0 {
      assert (a * b) / b == a;
    }
  }

  /**
   * `div_i`: the rate that, chained with `j`, gives `i`; a rate of -1
   * makes the divisor zero and raises.
   */
  function DivI(i: real, j: real): (r: Result<real>)
    ensures r.Err? <==> j == -1.0
    ensures r.Err? ==> r.error == ZeroDivisionError
    ensures r.Ok? ==> (r.value + 1.0) * (j + 1.0) == i + 1.0
  {
    if j + 1.0 == 0.0 then Err(ZeroDivisionError)
    else Ok((i + 1.0) / (j + 1.0) - 1.0)
  }

  /** `FV`: the value of `pv` after `n` periods at rate `i`. */
  function FV(i: real, n: nat, pv: real): (r: real)
    ensures n == 0 ==> r == pv
    ensures r == 0.0 <==> pv == 0.0 || (i == -1.0 && n > 0)
  {
    PowerZero(1.0 + i, n);
    pv * Power(1.0 + i, n)
  }

  /**
   * `PV`: the amount that grows to `fv` after `n` periods at rate `i`; the
   * growth factor is zero, and the division raises, exactly when the rate
   * is -1 and at least one period passes.
   */
  function PV(i: real, n: nat, fv: real): (r: Result<real>)
    ensures r.Err? <==> i == -1.0 && n > 0
    ensures r.Err? ==> r.error == ZeroDivisionError
    ensures r.Ok? ==> r.value * Power(1.0 + i, n) == fv
  {
    PowerZero(1.0 + i, n);
    var growth := Power(1.0 + i, n);
    if growth == 0.0 then Err(ZeroDivisionError) else Ok(fv / growth)
  }

  /** A power is zero exactly when the base is zero and the exponent positive. */
  lemma {:induction false} PowerZero(b: real, n: nat)
    ensures Power(b, n) == 0.0 <==> b == 0.0 && n > 0
  {
    if n > 0 {
      PowerZero(b, n - 1);
      var rest := Power(b, n - 1);
      assert Power(b, n) == b * rest;
      if b != 0.0 && rest != 0.0 {
        assert b * rest != 0.0;
      }
    }
  }

  /** Exponents add: growing over `m` and then `n` periods is growing over `m + n`. */
  lemma {:induction false} PowerAdd(b: real, m: nat, n: nat)
    ensures Power(b, m + n) == Power(b, m) * Power(b, n)
  {
    if m > 0 {
      PowerAdd(b, m - 1, n);
      var x, y := Power(b, m - 1), Power(b, n);
      assert Power(b, m + n) == b * (x * y);
      assert b * (x * y) == (b * x) * y;
    }
  }

  /** A power of a product is the product of the powers. */
  lemma {:induction false} PowerProduct(a: real, b: real, n: nat)
    ensures Power(a * b, n) == Power(a, n) * Power(b, n)
  {
    if n > 0 {
      PowerProduct(a, b, n - 1);
      var x, y := Power(a, n - 1), Power(b, n - 1);
      assert Power(a * b, n) == (a * b) * (x * y);
      assert (a * b) * (x * y) == (a * x) * (b * y);
    }
  }

  /** Dividing a product by a non-zero factor leaves the other factor. */
  lemma CancelFactor(a: real, b: real)
    requires b != 0.0
    ensures (a * b) / b == a
  {
    var q := (a * b) / b;
    assert q * b == a * b;
    assert (q - a) * b == 0.0;
  }

  /** Chaining with a zero rate changes nothing. */
  lemma MulIZero(i: real)
    ensures MulI(i, 0.0) == i && MulI(0.0, i) == i
  {
  }

  /** The order of two chained periods does not matter. */
  lemma MulICommutes(i: real, j: real)
    ensures MulI(i, j) == MulI(j, i)
  {
  }

  /** Chaining three periods groups either way. */
  lemma MulIAssociates(i: real, j: real, k: real)
    ensures MulI(MulI(i, j), k) == MulI(i, MulI(j, k))
  {
    var a, b, c := i + 1.0, j + 1.0, k + 1.0;
    assert MulI(MulI(i, j), k) == (a * b) * c - 1.0;
    assert MulI(i, MulI(j, k)) == a * (b * c) - 1.0;
  }

  /** `div_i` undoes `mul_i`: dividing `mul_i(i, j)` by `j` gives back `i` whenever `j` is not -1. */
  lemma DivIMulI(i: real, j: real)
    requires j != -1.0
    ensures DivI(MulI(i, j), j) == Ok(i)
  {
    var a, b := i + 1.0, j + 1.0;
    assert MulI(i, j) + 1.0 == a * b;
    CancelFactor(a, b);
  }

  /** `mul_i` undoes `div_i`: chaining the quotient of `i` by `j` with `j` gives back `i`. */
  lemma MulIDivI(i: real, j: real)
    requires j != -1.0
    ensures DivI(i, j).Ok? && MulI(DivI(i, j).value, j) == i
  {
  }

  /** A rate divided by itself is zero whenever it is not -1. */
  lemma DivISelf(i: real)
    requires i != -1.0
    ensures DivI(i, i) == Ok(0.0)
  {
  }

  /** Over zero periods both directions leave the amount unchanged. */
  lemma NoPeriods(i: real, amount: real)
    ensures FV(i, 0, amount) == amount
    ensures PV(i, 0, amount) == Ok(amount)
  {
  }

  /** Discounting a future value back over the same periods returns the present value. */
  lemma PVofFV(i: real, n: nat, pv: real)
    requires i != -1.0
    ensures PV(i, n, FV(i, n, pv)) == Ok(pv)
  {
    PowerZero(1.0 + i, n);
    var g := Power(1.0 + i, n);
    assert FV(i, n, pv) == pv * g;
    assert PV(i, n, pv * g) == Ok((pv * g) / g);
    CancelFactor(pv, g);
  }

  /** Growing a discounted amount over the same periods returns the future value. */
  lemma FVofPV(i: real, n: nat, fv: real)
    requires i != -1.0
    ensures PV(i, n, fv).Ok? && FV(i, n, PV(i, n, fv).value) == fv
  {
    var r := PV(i, n, fv);
    assert r.value * Power(1.0 + i, n) == fv;
  }

  /** Growing over `m` periods and then `n` more is growing over `m + n`. */
  lemma FVSplit(i: real, m: nat, n: nat, pv: real)
    ensures FV(i, n, FV(i, m, pv)) == FV(i, m + n, pv)
  {
    PowerAdd(1.0 + i, m, n);
    var x, y := Power(1.0 + i, m), Power(1.0 + i, n);
    assert (pv * x) * y == pv * (x * y);
  }

  /** Growing at the chained rate `mul_i(i, j)` is growing at `j` and then at `i`, period for period. */
  lemma FVMulI(i: real, j: real, n: nat, pv: real)
    ensures FV(MulI(i, j), n, pv) == FV(i, n, FV(j, n, pv))
  {
    var a, c := 1.0 + i, 1.0 + j;
    var chained := 1.0 + MulI(i, j);
    assert chained == a * c;
    PowerProduct(a, c, n);
    var x, y := Power(a, n), Power(c, n);
    assert Power(chained, n) == x * y;
    assert pv * (x * y) == (pv * y) * x;
  }
}

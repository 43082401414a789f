/**
 The Decimal arithmetic the surface-rate calculator performs, as exact reals
 plus the two infinities. Python's Decimal raises InvalidOperation for
 0 * Infinity under the default context, so the product is partial.
 */
module Decimals {
  import opened Results

  /** A Decimal value: finite, or one of the two signed infinities. */
  datatype Dec = Fin(v: real) | PosInf | NegInf

  /** decimal.InvalidOperation, raised by a product of zero and an infinity. */
  datatype CalcError = InvalidOperation

  predicate IsInfinite(x: Dec)
  {
    !x.Fin?
  }

  predicate IsZero(x: Dec)
  {
    x == Fin(0.0)
  }

  /** -1, 0 or 1. */
  function Sign(x: Dec): int
  {
    match x
    case Fin(v) => if v > 0.0 then 1 else if v < 0.0 then -1 else 0
    case PosInf => 1
    case NegInf => -1
  }

  /**
   `safe_divide`: `n / d`, or `Decimal('Infinity')` when `d == 0`.
   Dividing a finite numerator by an infinite denominator gives zero.
   */
  function SafeDivide(n: real, d: Dec): (r: Dec)
    ensures r == PosInf <==> IsZero(d)
    ensures IsInfinite(r) <==> IsZero(d)
    ensures IsInfinite(d) ==> IsZero(r)
    ensures d.Fin? && !IsZero(d) ==> r.Fin? && r.v * d.v == n
  {
    match d
    case Fin(x) => if x == 0.0 then PosInf else Fin(n / x)
    case _ => Fin(0.0)
  }

  /** Decimal multiplication. */
  function Mul(x: Dec, y: Dec): (r: Result<Dec, CalcError>)
    ensures r.Err? <==> (IsZero(x) && IsInfinite(y)) || (IsInfinite(x) && IsZero(y))
    ensures r.Ok? ==> Sign(r.value) == Sign(x) * Sign(y)
    ensures r.Ok? ==> (IsInfinite(r.value) <==> IsInfinite(x) || IsInfinite(y))
    ensures r.Ok? && r.value.Fin? ==> r.value.v == x.v * y.v
    ensures r.Ok? ==> (IsZero(r.value) <==> IsZero(x) || IsZero(y))
  {
    if x.Fin? && y.Fin? then
      ProductSign(x.v, y.v);
      Ok(Fin(x.v * y.v))
    else if Sign(x) == 0 || Sign(y) == 0 then Err(InvalidOperation)
    else if Sign(x) * Sign(y) > 0 then Ok(PosInf)
    else Ok(NegInf)
  }

  lemma ProductSign(a: real, b: real)
    ensures Sign(Fin(a * b)) == Sign(Fin(a)) * Sign(Fin(b))
  {
    if a > 0.0 && b > 0.0 {
      assert a * b > 0.0;
    } else if a > 0.0 && b < 0.0 {
      assert a * b < 0.0;
    } else if a < 0.0 && b > 0.0 {
      assert a * b < 0.0;
    } else if a < 0.0 && b < 0.0 {
      assert a * b > 0.0;
    }
  }

  /** `x - Decimal('1')`; an infinity absorbs the one. */
  function MinusOne(x: Dec): Dec
  {
    match x
    case Fin(v) => Fin(v - 1.0)
    case _ => x
  }

  /** The loop `for swap_rate in rates: amount *= swap_rate * keep`, with `keep` the `1 - fee` of the source. */
  function Compound(amount: Dec, rates: seq<Dec>, keep: real): Result<Dec, CalcError>
    decreases |rates|
  {
    if |rates| == 0 then Ok(amount)
    else
      var factor := Mul(rates[0], Fin(keep));
      if factor.Err? then Err(factor.error)
      else
        var next := Mul(amount, factor.value);
        if next.Err? then Err(next.error)
        else Compound(next.value, rates[1..], keep)
  }

  /**
   `arbitrage_rate`: the amount left after three fee-charged swaps starting
   from one unit, divided by that one unit, minus one.
   */
  function ArbitrageRate(r1: Dec, r2: Dec, r3: Dec, fee: real): Result<Dec, CalcError>
  {
    var final := Compound(Fin(1.0), [r1, r2, r3], 1.0 - fee);
    if final.Err? then Err(final.error)
    else Ok(MinusOne(final.value))  // dividing by the starting amount of one changes nothing
  }

  /** What three swaps keep of an amount when each keeps the fraction `x`. */
  function Cube(x: real): real
  {
    x * x * x
  }

  /** One step of the fold written out. */
  lemma CompoundStep(amount: Dec, rates: seq<Dec>, keep: real)
    requires |rates| > 0
    ensures Compound(amount, rates, keep) ==
      (var factor := Mul(rates[0], Fin(keep));
       if factor.Err? then Err(factor.error)
       else
         var next := Mul(amount, factor.value);
         if next.Err? then Err(next.error) else Compound(next.value, rates[1..], keep))
  {
  }

  /** One finite step of the fold: the amount is multiplied by the fee-reduced rate. */
  lemma CompoundFiniteStep(amount: Dec, r: real, rest: seq<Dec>, k: real) returns (next: Dec)
    requires amount.Fin?
    ensures next.Fin? && next.v == amount.v * (r * k)
    ensures Compound(amount, [Fin(r)] + rest, k) == Compound(next, rest, k)
  {
    var factor := Mul(Fin(r), Fin(k));
    next := Mul(amount, factor.value).value;
    CompoundStep(amount, [Fin(r)] + rest, k);
    assert ([Fin(r)] + rest)[1..] == rest;
  }

  lemma CompoundFinite(r1: real, r2: real, r3: real, k: real)
    ensures Compound(Fin(1.0), [Fin(r1), Fin(r2), Fin(r3)], k) == Ok(Fin(r1 * r2 * r3 * Cube(k)))
  {
    assert [Fin(r1), Fin(r2), Fin(r3)] == [Fin(r1)] + [Fin(r2), Fin(r3)];
    var x1 := CompoundFiniteStep(Fin(1.0), r1, [Fin(r2), Fin(r3)], k);
    assert [Fin(r2), Fin(r3)] == [Fin(r2)] + [Fin(r3)];
    var x2 := CompoundFiniteStep(x1, r2, [Fin(r3)], k);
    assert [Fin(r3)] == [Fin(r3)] + [];
    var x3 := CompoundFiniteStep(x2, r3, [], k);
    assert Compound(x3, [], k) == Ok(x3);
    assert x1.v == r1 * k;
    assert x2.v == (r1 * r2) * (k * k);
    assert x3.v == ((r1 * r2) * (k * k)) * (r3 * k);
    assert ((r1 * r2) * (k * k)) * (r3 * k) == (r1 * r2 * r3) * Cube(k);
    assert x3 == Fin(r1 * r2 * r3 * Cube(k));
  }

  /** With finite rates the result is the product of the fee-reduced rates, minus one. */
  lemma ArbitrageRateFinite(r1: real, r2: real, r3: real, fee: real)
    ensures ArbitrageRate(Fin(r1), Fin(r2), Fin(r3), fee).Ok?
    ensures ArbitrageRate(Fin(r1), Fin(r2), Fin(r3), fee).value.Fin?
    ensures ArbitrageRate(Fin(r1), Fin(r2), Fin(r3), fee).value.v
            == r1 * r2 * r3 * Cube(1.0 - fee) - 1.0
  {
    var k := 1.0 - fee;
    CompoundFinite(r1, r2, r3, k);
    FiniteFold(r1, r2, r3, fee, k, r1 * r2 * r3 * Cube(k));
  }

  /** A finite fold gives a finite rate, one less than what is left. */
  lemma FiniteFold(r1: real, r2: real, r3: real, fee: real, k: real, left: real)
    requires k == 1.0 - fee && Compound(Fin(1.0), [Fin(r1), Fin(r2), Fin(r3)], k) == Ok(Fin(left))
    ensures ArbitrageRate(Fin(r1), Fin(r2), Fin(r3), fee) == Ok(Fin(left - 1.0))
  {
  }

  /** With no fee the rate is the plain product of the three swap rates, minus one. */
  lemma ZeroFeeIdentity(r1: real, r2: real, r3: real)
    ensures ArbitrageRate(Fin(r1), Fin(r2), Fin(r3), 0.0).Ok?
    ensures ArbitrageRate(Fin(r1), Fin(r2), Fin(r3), 0.0).value == Fin(r1 * r2 * r3 - 1.0)
  {
    ArbitrageRateFinite(r1, r2, r3, 0.0);
  }

  lemma CubeStrictlyIncreasing(a: real, b: real)
    requires 0.0 < a < b
    ensures Cube(a) < Cube(b)
  {
    assert a * a < b * b by {
      assert a * a < a * b;
      assert a * b < b * b;
    }
    assert a * a * a < a * a * b;
    assert a * a * b < b * b * b;
  }

  /**
   For positive finite rates and fees in [0, 1), a higher fee gives a
   strictly lower arbitrage rate.
   */
  lemma FeeStrictlyDecreasing(r1: real, r2: real, r3: real, f: real, g: real)
    requires r1 > 0.0 && r2 > 0.0 && r3 > 0.0
    requires 0.0 <= f < g < 1.0
    ensures ArbitrageRate(Fin(r1), Fin(r2), Fin(r3), f).Ok? && ArbitrageRate(Fin(r1), Fin(r2), Fin(r3), f).value.Fin?
    ensures ArbitrageRate(Fin(r1), Fin(r2), Fin(r3), g).Ok? && ArbitrageRate(Fin(r1), Fin(r2), Fin(r3), g).value.Fin?
    ensures ArbitrageRate(Fin(r1), Fin(r2), Fin(r3), g).value.v
          < ArbitrageRate(Fin(r1), Fin(r2), Fin(r3), f).value.v
  {
    ArbitrageRateFinite(r1, r2, r3, f);
    ArbitrageRateFinite(r1, r2, r3, g);
    var p := r1 * r2 * r3;
    assert p > 0.0 by {
      assert r1 * r2 > 0.0;
    }
    CubeStrictlyIncreasing(1.0 - g, 1.0 - f);
    assert p * Cube(1.0 - g) < p * Cube(1.0 - f);
  }

  /** Some rate of the list is infinite. */
  predicate HasInfinite(rates: seq<Dec>)
  {
    exists i :: 0 <= i < |rates| && IsInfinite(rates[i])
  }

  /** Some step of the fold multiplies by zero: a zero rate, or any rate when nothing is kept. */
  predicate HasZeroFactor(rates: seq<Dec>, keep: real)
  {
    exists i :: 0 <= i < |rates| && (IsZero(rates[i]) || keep == 0.0)
  }

  lemma HeadAndTail(rates: seq<Dec>, keep: real)
    requires |rates| > 0
    ensures HasInfinite(rates) <==> IsInfinite(rates[0]) || HasInfinite(rates[1..])
    ensures HasZeroFactor(rates, keep) <==> IsZero(rates[0]) || keep == 0.0 || HasZeroFactor(rates[1..], keep)
  {
    if HasInfinite(rates) && !IsInfinite(rates[0]) {
      var i :| 0 <= i < |rates| && IsInfinite(rates[i]);
      assert rates[1..][i - 1] == rates[i];
    }
    if HasZeroFactor(rates, keep) && !IsZero(rates[0]) && keep != 0.0 {
      var i :| 0 <= i < |rates| && (IsZero(rates[i]) || keep == 0.0);
      assert rates[1..][i - 1] == rates[i];
    }
    if HasInfinite(rates[1..]) {
      var i :| 0 <= i < |rates[1..]| && IsInfinite(rates[1..][i]);
      assert rates[i + 1] == rates[1..][i];
    }
    if HasZeroFactor(rates[1..], keep) {
      var i :| 0 <= i < |rates[1..]| && (IsZero(rates[1..][i]) || keep == 0.0);
      assert rates[i + 1] == rates[1..][i];
    }
  }

  /**
   The fold raises exactly when an infinity and a zero both enter the
   product; otherwise the result is infinite exactly when an infinity
   entered, and zero exactly when a zero did.
   */
  lemma {:induction false} CompoundFailsIff(amount: Dec, rates: seq<Dec>, keep: real)
    ensures Compound(amount, rates, keep).Err?
            <==> (IsInfinite(amount) || HasInfinite(rates)) && (IsZero(amount) || HasZeroFactor(rates, keep))
    ensures Compound(amount, rates, keep).Ok? ==>
              && (IsInfinite(Compound(amount, rates, keep).value) <==> IsInfinite(amount) || HasInfinite(rates))
              && (IsZero(Compound(amount, rates, keep).value) <==> IsZero(amount) || HasZeroFactor(rates, keep))
    decreases |rates|
  {
    if |rates| > 0 {
      CompoundStep(amount, rates, keep);
      HeadAndTail(rates, keep);
      var factor := Mul(rates[0], Fin(keep));
      if factor.Ok? {
        var next := Mul(amount, factor.value);
        if next.Ok? {
          CompoundFailsIff(next.value, rates[1..], keep);
        }
      }
    }
  }

  lemma ThreeRates(r1: Dec, r2: Dec, r3: Dec, keep: real)
    ensures HasInfinite([r1, r2, r3]) <==> IsInfinite(r1) || IsInfinite(r2) || IsInfinite(r3)
    ensures HasZeroFactor([r1, r2, r3], keep) <==> keep == 0.0 || IsZero(r1) || IsZero(r2) || IsZero(r3)
  {
    var rs := [r1, r2, r3];
    HeadAndTail(rs, keep);
    assert rs[1..] == [r2, r3];
    HeadAndTail([r2, r3], keep);
    assert [r2, r3][1..] == [r3];
    HeadAndTail([r3], keep);
    assert [r3][1..] == [];
  }

  /**
   The calculation raises exactly when some rate is infinite and some
   fee-reduced rate is zero: an infinity and a zero then meet in the product.
   */
  lemma ArbitrageRateFailsIff(r1: Dec, r2: Dec, r3: Dec, fee: real)
    ensures ArbitrageRate(r1, r2, r3, fee).Err?
        <==> (IsInfinite(r1) || IsInfinite(r2) || IsInfinite(r3))
             && (fee == 1.0 || IsZero(r1) || IsZero(r2) || IsZero(r3))
    ensures ArbitrageRate(r1, r2, r3, fee).Ok? ==>
              (IsInfinite(ArbitrageRate(r1, r2, r3, fee).value) <==> IsInfinite(r1) || IsInfinite(r2) || IsInfinite(r3))
  {
    CompoundFailsIff(Fin(1.0), [r1, r2, r3], 1.0 - fee);
    ThreeRates(r1, r2, r3, 1.0 - fee);
  }
}

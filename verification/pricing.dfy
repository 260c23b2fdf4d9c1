/**
 * `ImageGenerator.calculate_price`, `smart_round_price` and `round_to_nearest`: the sale price
 * is the price formula applied to the scraped price, rounded up to a multiple that depends on
 * the formula and on the size of the price. Prices are exact reals here, not binary floats.
 */
module Pricing {
  import opened Wrappers
  import opened Text
  import opened RealArith

  /** `math.ceil`: the least integer at or above `x`. */
  function Ceil(x: real): (c: int)
    ensures c as real - 1.0 < x <= c as real
  {
    -((-x).Floor)
  }

  /** `r` is a whole number of `m`s. */
  predicate IsMultipleOf(r: real, m: int)
    requires m != 0
  {
    (r / m as real).Floor as real == r / m as real
  }

  /**
   * `round_to_nearest(number, multiple, round_up=True)`: a multiple of 0 leaves the number
   * alone; otherwise the result is a multiple of `multiple` at most one step away from
   * `number`, on the side `ceil` moves it to (up for a positive multiple, down for a negative
   * one).
   */
  function RoundToNearest(number: real, multiple: int): (r: real)
    ensures multiple == 0 ==> r == number
    ensures multiple > 0 ==> number <= r < number + multiple as real
    ensures multiple < 0 ==> number + multiple as real < r <= number
    ensures multiple != 0 ==> IsMultipleOf(r, multiple)
  {
    if multiple == 0 then number
    else
      var c := Ceil(number / multiple as real);
      CeilTimesMultiple(number, multiple, c);
      c as real * multiple as real
  }

  lemma CeilTimesMultiple(number: real, multiple: int, c: int)
    requires multiple != 0 && c == Ceil(number / multiple as real)
    ensures multiple > 0 ==> number <= c as real * multiple as real < number + multiple as real
    ensures multiple < 0 ==> number + multiple as real < c as real * multiple as real <= number
    ensures IsMultipleOf(c as real * multiple as real, multiple)
  {
    var m := multiple as real;
    var q := number / m;
    var cr := c as real;
    assert q * m == number;
    WholeTimes(c, multiple);
    if multiple > 0 {
      CeilAbove(number, m, cr, q);
      CeilBelow(number, m, cr, q);
    } else {
      assert q * -m == -number;
      CeilAbove(-number, -m, cr, q);
      CeilBelow(-number, -m, cr, q);
      assert cr * -m == -(cr * m);
    }
  }

  lemma WholeTimes(c: int, multiple: int)
    requires multiple != 0
    ensures IsMultipleOf(c as real * multiple as real, multiple)
  {
    QuotientOfProduct(c as real, multiple as real);
    assert (c as real).Floor == c;
  }

  /** `q * m` is `number`, and `q` rounded up is `c`: then `c * m` is at least `number` ... */
  lemma CeilAbove(number: real, m: real, c: real, q: real)
    requires m > 0.0 && q <= c && q * m == number
    ensures number <= c * m
  {
    MulMono(q, c, m);
  }

  /** ... and less than one `m` above it. */
  lemma CeilBelow(number: real, m: real, c: real, q: real)
    requires m > 0.0 && c - 1.0 < q && q * m == number
    ensures c * m < number + m
  {
    MulStrict(c - 1.0, q, m);
    assert (c - 1.0) * m < q * m;
    assert (c - 1.0) * m < number;
    assert (c - 1.0) * m == c * m - m;
    assert c * m - m < number;
  }

  /**
   * Rounding up to a positive multiple gives the least multiple at or above the number:
   * no multiple `k * multiple` that is at least `number` lies below it.
   */
  lemma RoundUpIsLeastMultiple(number: real, multiple: int, k: int)
    requires multiple > 0 && number <= k as real * multiple as real
    ensures RoundToNearest(number, multiple) <= k as real * multiple as real
  {
    var m := multiple as real;
    var q := number / m;
    var c := Ceil(q);
    assert q * m == number;
    if k as real < q {
      MulStrict(k as real, q, m);
      assert false;
    }
    assert c <= k;
    MulMono(c as real, k as real, m);
  }

  /** A number that is already a multiple of a positive `multiple` is returned unchanged. */
  lemma RoundUpKeepsMultiples(multiple: int, k: int)
    requires multiple > 0
    ensures RoundToNearest(k as real * multiple as real, multiple) == k as real * multiple as real
  {
    RoundUpIsLeastMultiple(k as real * multiple as real, multiple, k);
  }

  /** Rounding up to a fixed positive multiple never reverses the order of two numbers. */
  lemma RoundUpMonotone(a: real, b: real, multiple: int)
    requires multiple > 0 && a <= b
    ensures RoundToNearest(a, multiple) <= RoundToNearest(b, multiple)
  {
    var rb := RoundToNearest(b, multiple);
    var k := (rb / multiple as real).Floor;
    assert rb / multiple as real == k as real;
    assert rb == k as real * multiple as real;
    RoundUpIsLeastMultiple(a, multiple, k);
  }

  /** `any(trigger in formula for trigger in ['1.55', '0.55', '55%'])`: a 55 % surcharge. */
  predicate Is55Percent(formula: string) {
    Contains(formula, "1.55") || Contains(formula, "0.55") || Contains(formula, "55%")
  }

  /** The multiple `smart_round_price` rounds to. */
  function RoundingMultiple(price: real, formula: string): (m: int)
    ensures m == 100 || m == 500 || m == 1000
  {
    if Is55Percent(formula) then 500
    else if price > 50000.0 then 1000
    else if price > 10000.0 then 500
    else 100
  }

  /**
   * `smart_round_price`: the price rounded up to its tier's multiple. The result is never
   * below the price, exceeds it by less than one multiple, and is always a whole number of
   * hundreds.
   */
  function SmartRoundPrice(price: real, formula: string): (r: real)
    ensures price <= r < price + RoundingMultiple(price, formula) as real
    ensures IsMultipleOf(r, RoundingMultiple(price, formula))
    ensures IsMultipleOf(r, 100)
  {
    var m := RoundingMultiple(price, formula);
    var r := RoundToNearest(price, m);
    HundredsDivide(r, m);
    r
  }

  /** A whole number of 100s, 500s or 1000s is a whole number of 100s. */
  lemma HundredsDivide(r: real, m: int)
    requires m == 100 || m == 500 || m == 1000
    requires IsMultipleOf(r, m)
    ensures IsMultipleOf(r, 100)
  {
    var k := (r / m as real).Floor;
    var f := m / 100;
    assert r / m as real == k as real;
    assert r == k as real * m as real;
    assert m as real == f as real * 100.0;
    assert r / 100.0 == (k * f) as real;
  }

  /**
   * The tiers: a 55 % formula always rounds to 500; otherwise prices above 50000 round to
   * 1000, above 10000 to 500, and the rest to 100 (both thresholds strict).
   */
  lemma TierSelection(price: real, formula: string)
    ensures Is55Percent(formula) ==> RoundingMultiple(price, formula) == 500
    ensures !Is55Percent(formula) ==>
      (RoundingMultiple(price, formula) == 1000 <==> price > 50000.0) &&
      (RoundingMultiple(price, formula) == 100 <==> price <= 10000.0)
  {
  }

  /** For a fixed formula, a higher price never gets a lower rounded price. */
  lemma SmartRoundMonotone(a: real, b: real, formula: string)
    requires a <= b
    ensures SmartRoundPrice(a, formula) <= SmartRoundPrice(b, formula)
  {
    var ma, mb := RoundingMultiple(a, formula), RoundingMultiple(b, formula);
    if ma == mb {
      RoundUpMonotone(a, b, ma);
    } else if a <= 10000.0 {
      RoundUpIsLeastMultiple(a, ma, 100);
    } else {
      RoundUpIsLeastMultiple(a, ma, 100);
    }
  }

  const FallbackFormula := "x * 1.3"

  lemma FallbackIsNot55Percent()
    ensures !Is55Percent(FallbackFormula)
  {
    var s := FallbackFormula;
    NotContainsFirstChar(s, "1.55");
    NotContainsFirstChar(s, "0.55");
    NotContainsFirstChar(s, "55%");
  }

  /** `p` is not in `s` when no position that leaves room for `p` holds its first character. */
  lemma {:induction false} NotContainsFirstChar(s: string, p: string)
    requires p != []
    requires forall i :: 0 <= i && i + |p| <= |s| ==> s[i] != p[0]
    ensures !Contains(s, p)
    decreases |s|
  {
    if |s| > 0 {
      if |p| <= |s| {
        assert s[..|p|][0] == s[0];
      }
      NotContainsFirstChar(s[1..], p);
    }
  }

  /**
   * `calculate_price`. The formula is evaluated outside the model: `evaluated` is its value,
   * or `None` when evaluating it (or rounding its value) raised. On success the value is
   * rounded by `smart_round_price` under the user's formula; on failure the result is
   * `original * 1.3` rounded under the formula "x * 1.3", which is never the 55 % tier.
   */
  function CalculatePrice(original: real, formula: string, evaluated: Option<real>): (r: real)
    ensures evaluated.Some? ==>
      evaluated.value <= r < evaluated.value + RoundingMultiple(evaluated.value, formula) as real
    ensures evaluated.Some? ==> IsMultipleOf(r, RoundingMultiple(evaluated.value, formula))
    ensures evaluated.Some? ==> r == SmartRoundPrice(evaluated.value, formula)
    ensures evaluated.None? ==> r == SmartRoundPrice(original * 1.3, FallbackFormula)
    ensures evaluated.None? ==> original * 1.3 <= r < original * 1.3 + 1000.0
    ensures evaluated.None? && original * 1.3 <= 50000.0 ==> IsMultipleOf(r, if original * 1.3 > 10000.0 then 500 else 100)
    ensures IsMultipleOf(r, 100)
  {
    match evaluated
    case Some(v) => SmartRoundPrice(v, formula)
    case None =>
      FallbackIsNot55Percent();
      SmartRoundPrice(original * 1.3, FallbackFormula)
  }

  lemma MidPriceExample()
    ensures SmartRoundPrice(12345.0, "x") == 12500.0
  {
    assert !Is55Percent("x");
    assert Ceil(12345.0 / 500.0) == 25;
  }

  lemma HighPriceExamples()
    ensures SmartRoundPrice(60000.0, "x") == 60000.0
    ensures SmartRoundPrice(60001.0, "x") == 61000.0
  {
    assert !Is55Percent("x");
    assert Ceil(60000.0 / 1000.0) == 60;
    assert Ceil(60001.0 / 1000.0) == 61;
  }

  /** The thresholds are strict: exactly 50000 stays in the 500 tier, exactly 10000 in the 100 tier. */
  lemma ThresholdExamples()
    ensures RoundingMultiple(50000.0, "x") == 500 && SmartRoundPrice(50000.0, "x") == 50000.0
    ensures RoundingMultiple(10000.0, "x") == 100 && SmartRoundPrice(10000.0, "x") == 10000.0
  {
    assert !Is55Percent("x");
    assert Ceil(50000.0 / 500.0) == 100;
    assert Ceil(10000.0 / 100.0) == 100;
  }

  /** A 55 % formula takes precedence over the price tiers. */
  lemma SurchargeExample()
    ensures SmartRoundPrice(60001.0, "x * 1.55") == 60500.0
  {
    var f := "x * 1.55";
    assert f[4..][..4] == "1.55";
    assert Contains(f[4..], "1.55");
    assert Contains(f, "1.55");
    assert Ceil(60001.0 / 500.0) == 121;
  }
}

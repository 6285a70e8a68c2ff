/** `standardNormalCDF`, `normalCDF` and `calculateNormalDistribution` of
    services/StatService.ts.  The cumulative distribution is the polynomial
    approximation of Abramowitz and Stegun (formula 26.2.17), written out
    over the injected `sqrt` and `exp` (lawful ones, so that the square
    root of 2 pi is not zero); its accuracy is not modelled, only
    its structure: the reflection for negative arguments, the complement
    and the range check. */
module Normal {
  import opened Wrappers
  import opened Numerics
  import opened Errors

  const PI: real := 3.141592653589793

  // The coefficients of the approximation.
  const P: real := 0.2316419
  const B1: real := 0.319381530
  const B2: real := -0.356563782
  const B3: real := 1.781477937
  const B4: real := -1.821255978
  const B5: real := 1.330274429

  const COEFFICIENTS: seq<real> := [B1, B2, B3, B4, B5]

  /** cs[0] t^k + cs[1] t^(k+1) + ...: with the coefficients above and
      k = 1, the polynomial b1 t + b2 t^2 + b3 t^3 + b4 t^4 + b5 t^5. */
  function PowerSum(cs: seq<real>, t: real, k: nat): real {
    if cs == [] then 0.0 else cs[0] * Pow(t, k) + PowerSum(cs[1..], t, k + 1)
  }

  /** The approximation of P(Z <= |x|) before the reflection. */
  function UpperCdf(x: real, m: Math): real
    requires Lawful(m)
  {
    SqrtPositive(m, 2.0 * PI);
    var t := 1.0 / (1.0 + P * Abs(x));
    var pdf := (1.0 / m.sqrt(2.0 * PI)) * m.exp(-0.5 * x * x);
    1.0 - pdf * PowerSum(COEFFICIENTS, t, 1)
  }

  /** `standardNormalCDF(x)`: negative arguments are reflected. */
  function StandardNormalCdf(x: real, m: Math): real
    requires Lawful(m)
  {
    if x < 0.0 then 1.0 - UpperCdf(x, m) else UpperCdf(x, m)
  }

  /** `normalCDF(x, mean, stdDev)`: NaN unless the deviation is positive. */
  function NormalCdf(x: real, mean: real, stdDev: real, m: Math): Option<real>
    requires Lawful(m)
  {
    if stdDev <= 0.0 then None else Some(StandardNormalCdf((x - mean) / stdDev, m))
  }

  /** The approximation depends on |x| only. */
  lemma UpperCdfEven(x: real, m: Math)
    requires Lawful(m)
    ensures UpperCdf(-x, m) == UpperCdf(x, m)
  {
    assert Abs(-x) == Abs(x);
    assert -0.5 * (-x) * (-x) == -0.5 * x * x;
  }

  /** The reflection makes the distribution symmetric away from 0:
      Phi(-z) = 1 - Phi(z).  (At z = 0 both sides use the unreflected
      polynomial, whose value there is only approximately 1/2.) */
  lemma StandardNormalMirror(z: real, m: Math)
    requires Lawful(m) && z != 0.0
    ensures StandardNormalCdf(-z, m) == 1.0 - StandardNormalCdf(z, m)
  {
    UpperCdfEven(z, m);
  }

  lemma QuotientNegates(d: real, s: real)
    requires s != 0.0
    ensures (-d) / s == -(d / s)
  {
  }

  /** Points placed symmetrically about the mean have cumulative
      probabilities adding to 1. */
  lemma NormalCdfMirror(mean: real, stdDev: real, d: real, m: Math)
    requires Lawful(m) && 0.0 < stdDev && d != 0.0
    ensures NormalCdf(mean - d, mean, stdDev, m).Some? && NormalCdf(mean + d, mean, stdDev, m).Some?
    ensures NormalCdf(mean - d, mean, stdDev, m).value + NormalCdf(mean + d, mean, stdDev, m).value == 1.0
  {
    assert (mean - d) - mean == -d;
    assert (mean + d) - mean == d;
    QuotientNegates(d, stdDev);
    assert d / stdDev != 0.0;
    StandardNormalMirror(d / stdDev, m);
  }

  /** `NormalResultsContent` without the PDF grid; an absent optional field
      is `None`, and a present one holds a number that may be NaN (or, for
      the z-score, a division by zero). */
  datatype NormalResult = NormalResult(
    probabilityLessThanX1: Option<Option<real>>,
    probabilityGreaterThanX1: Option<Option<real>>,
    probabilityBetweenX1X2: Option<Option<real>>,
    zScoreX1: Option<Option<real>>)

  /** `calculateNormalDistribution`: the queries about x1, and about
      [x1, x2] when x2 is also given, which throws for x1 > x2. */
  function NormalOf(mean: real, stdDev: real, x1: Option<real>, x2: Option<real>, m: Math): Result<NormalResult, Error>
    requires Lawful(m)
  {
    if x1.None? then Ok(NormalResult(None, None, None, None))
    else
      var less := NormalCdf(x1.value, mean, stdDev, m);
      var z := Divide(x1.value - mean, stdDev);
      if x2.None? then Ok(NormalResult(Some(less), Some(Complement(less)), None, Some(z)))
      else if x1.value > x2.value then Err(RangeBoundsReversed)
      else
        var between := Minus(NormalCdf(x2.value, mean, stdDev, m), less);
        Ok(NormalResult(Some(less), Some(Complement(less)), Some(between), Some(z)))
  }

  /** The computation throws exactly when both points are given in the
      wrong order. */
  lemma NormalFailsExactlyWhenReversed(mean: real, stdDev: real, x1: Option<real>, x2: Option<real>, m: Math)
    requires Lawful(m)
    ensures NormalOf(mean, stdDev, x1, x2, m).Err? <==> x1.Some? && x2.Some? && x1.value > x2.value
    ensures NormalOf(mean, stdDev, x1, x2, m).Err? ==> NormalOf(mean, stdDev, x1, x2, m).error == RangeBoundsReversed
  {
  }

  /** Given x1, P(X > x1) is the complement of P(X <= x1); both are NaN
      exactly when the deviation is not positive, and the range probability
      is reported exactly when x2 is given too; without x1 nothing is
      reported. */
  lemma NormalQueries(mean: real, stdDev: real, x1: Option<real>, x2: Option<real>, m: Math)
    requires Lawful(m) && NormalOf(mean, stdDev, x1, x2, m).Ok?
    ensures var r := NormalOf(mean, stdDev, x1, x2, m).value;
      && (r.probabilityLessThanX1.Some? <==> x1.Some?)
      && (r.probabilityGreaterThanX1.Some? <==> x1.Some?)
      && (r.zScoreX1.Some? <==> x1.Some?)
      && (r.probabilityBetweenX1X2.Some? <==> x1.Some? && x2.Some?)
      && (x1.Some? ==>
            && (r.probabilityLessThanX1.value.None? <==> stdDev <= 0.0)
            && (r.probabilityGreaterThanX1.value.None? <==> stdDev <= 0.0)
            && (r.probabilityBetweenX1X2.Some? ==> (r.probabilityBetweenX1X2.value.None? <==> stdDev <= 0.0))
            && (r.zScoreX1.value.None? <==> stdDev == 0.0)
            && (0.0 < stdDev ==>
                  r.probabilityLessThanX1.value.value + r.probabilityGreaterThanX1.value.value == 1.0))
  {
  }
}

/** `calculateExponentialDistribution` of services/StatService.ts: the
    moments of the waiting time at rate lambda and, for a query point
    x >= 0, the density and the two tails. */
module Exponential {
  import opened Wrappers
  import opened Numerics
  import opened Errors

  /** `ExponentialResultsContent` without the PDF grid. */
  datatype ExponentialResult = ExponentialResult(
    mean: real,
    variance: real,
    stdDev: real,
    fx: Option<real>,
    probLessThanOrEqualX: Option<real>,
    probGreaterThanX: Option<real>)

  /** The query is answered only for a given x >= 0. */
  predicate Asked(x: Option<real>) {
    x.Some? && x.value >= 0.0
  }

  function ExponentialOf(lambda: real, x: Option<real>, m: Math): Result<ExponentialResult, Error> {
    if lambda <= 0.0 then Err(NonPositiveRate)
    else
      var tail := if Asked(x) then Some(m.exp(-lambda * x.value)) else None;
      Ok(ExponentialResult(
        1.0 / lambda,
        1.0 / (lambda * lambda),
        1.0 / lambda,
        if Asked(x) then Some(lambda * tail.value) else None,
        if Asked(x) then Some(1.0 - tail.value) else None,
        tail))
  }

  lemma ExponentialFailsExactlyWhenRateNotPositive(lambda: real, x: Option<real>, m: Math)
    ensures ExponentialOf(lambda, x, m).Err? <==> lambda <= 0.0
    ensures ExponentialOf(lambda, x, m).Err? ==> ExponentialOf(lambda, x, m).error == NonPositiveRate
  {
  }

  lemma Reciprocal(lambda: real)
    requires 0.0 < lambda
    ensures (1.0 / lambda) * lambda == 1.0
    ensures 1.0 / (lambda * lambda) == (1.0 / lambda) * (1.0 / lambda)
  {
  }

  /** The mean is the reciprocal of the rate, the standard deviation equals
      the mean and the variance is its square. */
  lemma ExponentialMoments(lambda: real, x: Option<real>, m: Math)
    requires ExponentialOf(lambda, x, m).Ok?
    ensures var r := ExponentialOf(lambda, x, m).value;
      && 0.0 < r.mean && r.mean * lambda == 1.0
      && r.stdDev == r.mean && r.variance == r.stdDev * r.stdDev
  {
    Reciprocal(lambda);
  }

  /** For x >= 0 the two tails add up to 1, the density is the rate times
      the upper tail, and (for a lawful exp) the upper tail lies in (0, 1]
      and the lower one in [0, 1); otherwise nothing is reported. */
  lemma ExponentialTails(lambda: real, x: Option<real>, m: Math)
    requires ExponentialOf(lambda, x, m).Ok?
    ensures var r := ExponentialOf(lambda, x, m).value;
      && (r.fx.Some? <==> Asked(x))
      && (r.probLessThanOrEqualX.Some? <==> Asked(x))
      && (r.probGreaterThanX.Some? <==> Asked(x))
      && (Asked(x) ==>
            && r.probLessThanOrEqualX.value + r.probGreaterThanX.value == 1.0
            && r.fx.value == lambda * r.probGreaterThanX.value
            && (Lawful(m) ==>
                  && 0.0 < r.probGreaterThanX.value <= 1.0
                  && 0.0 <= r.probLessThanOrEqualX.value < 1.0
                  && 0.0 < r.fx.value <= lambda))
  {
    if Asked(x) && Lawful(m) {
      var y := -lambda * x.value;
      assert lambda * x.value >= 0.0;
      assert y <= 0.0;
      assert 0.0 < m.exp(y) <= 1.0;
      assert lambda * m.exp(y) <= lambda * 1.0;
    }
  }
}

/** `calculateSamplingDistributionMeans`,
    `calculateSamplingDistributionProportions` and
    `calculateConfidenceIntervalMeanSigmaKnown` of services/StatService.ts:
    standard errors, the gates that decide whether a normal approximation
    is reported, and the z-interval for a mean with known sigma. */
module Sampling {
  import opened Wrappers
  import opened Numerics
  import opened Errors
  import Normal

  /** The central limit theorem is taken to apply from 30 observations. */
  const TLC_MIN_SAMPLE: int := 30
  /** Both np and n(1 - p) must reach 10 for the normal approximation. */
  const NORMAL_APPROXIMATION_MIN: real := 10.0

  // ----- sampling distribution of the mean -----

  /** `SamplingMeansResultsContent` without the PDF grid. */
  datatype MeansResult = MeansResult(
    distMean: real,
    stdError: real,
    sampleSize: int,
    populationMean: real,
    populationStdDev: real,
    sampleMeanXBar: Option<real>,
    zScore: Option<real>,
    probLessThanXBar: Option<real>,
    probGreaterThanXBar: Option<real>,
    isTLCApplied: bool)

  function MeansOf(mu: real, sigma: real, n: int, xBar: Option<real>, m: Math): Result<MeansResult, Error>
    requires Lawful(m)
  {
    if sigma <= 0.0 then Err(NonPositiveSigma)
    else if n <= 0 then Err(NonPositiveSampleSize)
    else
      SqrtPositive(m, n as real);
      var se := sigma / m.sqrt(n as real);
      var asked := xBar.Some? && se > 0.0;
      var less := if asked then Normal.NormalCdf(xBar.value, mu, se, m) else None;
      Ok(MeansResult(
        mu, se, n, mu, sigma, xBar,
        if asked then Some((xBar.value - mu) / se) else None,
        less,
        Complement(less),
        n >= TLC_MIN_SAMPLE))
  }

  lemma MeansFailures(mu: real, sigma: real, n: int, xBar: Option<real>, m: Math)
    requires Lawful(m)
    ensures MeansOf(mu, sigma, n, xBar, m).Err? <==> sigma <= 0.0 || n <= 0
    ensures sigma <= 0.0 ==> MeansOf(mu, sigma, n, xBar, m) == Err(NonPositiveSigma)
    ensures 0.0 < sigma && n <= 0 ==> MeansOf(mu, sigma, n, xBar, m) == Err(NonPositiveSampleSize)
  {
  }

  lemma QuotientSquare(sigma: real, s: real, n: real)
    requires 0.0 < s && s * s == n
    ensures (sigma / s) * (sigma / s) * n == sigma * sigma
  {
    var q := sigma / s;
    assert q * s == sigma;
    calc {
      q * q * n;
      q * q * (s * s);
      (q * s) * (q * s);
    }
  }

  /** The distribution is centred on mu with standard error sigma/sqrt(n),
      so SE^2 n = sigma^2, and the central limit flag is n >= 30. */
  lemma MeansStandardError(mu: real, sigma: real, n: int, xBar: Option<real>, m: Math)
    requires Lawful(m) && MeansOf(mu, sigma, n, xBar, m).Ok?
    ensures var r := MeansOf(mu, sigma, n, xBar, m).value;
      && r.distMean == mu && 0.0 < r.stdError
      && r.stdError * r.stdError * n as real == sigma * sigma
      && (r.isTLCApplied <==> n >= 30)
  {
    SqrtPositive(m, n as real);
    var s := m.sqrt(n as real);
    QuotientSquare(sigma, s, n as real);
    assert 0.0 < sigma / s;
  }

  /** Given a sample mean, the z-score and the two complementary
      probabilities are reported, P(Xbar <= xbar) + P(Xbar > xbar) = 1;
      without one, none of them is. */
  lemma MeansQuery(mu: real, sigma: real, n: int, xBar: Option<real>, m: Math)
    requires Lawful(m) && MeansOf(mu, sigma, n, xBar, m).Ok?
    ensures var r := MeansOf(mu, sigma, n, xBar, m).value;
      && (r.zScore.Some? <==> xBar.Some?)
      && (r.probLessThanXBar.Some? <==> xBar.Some?)
      && (r.probGreaterThanXBar.Some? <==> xBar.Some?)
      && (xBar.Some? ==>
            && r.zScore.value * r.stdError == xBar.value - mu
            && r.probLessThanXBar.value + r.probGreaterThanXBar.value == 1.0)
  {
    SqrtPositive(m, n as real);
    var se := sigma / m.sqrt(n as real);
    assert 0.0 < se;
    if xBar.Some? {
      QuotientTimesDivisor(xBar.value - mu, se);
    }
  }

  lemma QuotientTimesDivisor(a: real, b: real)
    requires b != 0.0
    ensures (a / b) * b == a
  {
  }

  // ----- sampling distribution of the proportion -----

  /** `SamplingProportionsResultsContent` without the PDF grid. */
  datatype ProportionsResult = ProportionsResult(
    distMean: real,
    stdError: real,
    sampleSize: int,
    populationProportion: real,
    sampleProportionPHat: Option<real>,
    zScore: Option<real>,
    probLessThanPHat: Option<real>,
    probGreaterThanPHat: Option<real>,
    meetsNormalApproximation: bool,
    npValue: real,
    n1pValue: real)

  function ProportionsOf(p: real, n: int, pHat: Option<real>, m: Math): Result<ProportionsResult, Error>
    requires Lawful(m)
  {
    if p < 0.0 || p > 1.0 then Err(ProportionOutOfRange)
    else if n <= 0 then Err(NonPositiveSampleSize)
    else if p == 0.0 || p == 1.0 then Err(ProportionDegenerate)
    else
      var se := m.sqrt(p * (1.0 - p) / n as real);
      var np := n as real * p;
      var n1p := n as real * (1.0 - p);
      var meets := np >= NORMAL_APPROXIMATION_MIN && n1p >= NORMAL_APPROXIMATION_MIN;
      var asked := pHat.Some? && meets && se > 0.0;
      var less := if asked then Normal.NormalCdf(pHat.value, p, se, m) else None;
      Ok(ProportionsResult(
        p, se, n, p, pHat,
        if asked then Some((pHat.value - p) / se) else None,
        less,
        Complement(less),
        meets, np, n1p))
  }

  /** The checks throw in the source's order: p outside [0, 1], then n <= 0,
      then p = 0 or p = 1; so exactly p in (0, 1) with n > 0 succeeds. */
  lemma ProportionsFailures(p: real, n: int, pHat: Option<real>, m: Math)
    requires Lawful(m)
    ensures ProportionsOf(p, n, pHat, m).Ok? <==> 0.0 < p < 1.0 && 0 < n
    ensures (p < 0.0 || p > 1.0) ==> ProportionsOf(p, n, pHat, m) == Err(ProportionOutOfRange)
    ensures 0.0 <= p <= 1.0 && n <= 0 ==> ProportionsOf(p, n, pHat, m) == Err(NonPositiveSampleSize)
    ensures 0 < n && (p == 0.0 || p == 1.0) ==> ProportionsOf(p, n, pHat, m) == Err(ProportionDegenerate)
  {
  }

  lemma PositiveProductQuotient(p: real, n: real)
    requires 0.0 < p < 1.0 && 0.0 < n
    ensures 0.0 < p * (1.0 - p) / n
  {
    assert 0.0 < p * (1.0 - p);
  }

  /** The standard error is positive; np + n(1 - p) = n, so meeting the
      approximation test needs n >= 20; and the z-score and probabilities
      are reported exactly when p-hat is given and the test is met, the
      probabilities then adding up to 1. */
  lemma ProportionsGate(p: real, n: int, pHat: Option<real>, m: Math)
    requires Lawful(m) && ProportionsOf(p, n, pHat, m).Ok?
    ensures var r := ProportionsOf(p, n, pHat, m).value;
      && 0.0 < r.stdError
      && r.stdError * r.stdError == p * (1.0 - p) / n as real
      && r.npValue + r.n1pValue == n as real
      && (r.meetsNormalApproximation <==> r.npValue >= 10.0 && r.n1pValue >= 10.0)
      && (r.meetsNormalApproximation ==> n >= 20)
      && (r.zScore.Some? <==> pHat.Some? && r.meetsNormalApproximation)
      && (r.probLessThanPHat.Some? <==> pHat.Some? && r.meetsNormalApproximation)
      && (r.probGreaterThanPHat.Some? <==> pHat.Some? && r.meetsNormalApproximation)
      && (r.probLessThanPHat.Some? ==> r.probLessThanPHat.value + r.probGreaterThanPHat.value == 1.0)
  {
    PositiveProductQuotient(p, n as real);
    SqrtPositive(m, p * (1.0 - p) / n as real);
    assert n as real * p + n as real * (1.0 - p) == n as real;
  }

  // ----- confidence interval for a mean, sigma known -----

  /** The critical z of each supported confidence level. */
  function ZCritical(level: real): Option<real> {
    if level == 90.0 then Some(1.645)
    else if level == 95.0 then Some(1.960)
    else if level == 98.0 then Some(2.326)
    else if level == 99.0 then Some(2.576)
    else None
  }

  /** A higher confidence level has a larger critical value. */
  lemma ZCriticalIncreasing(level1: real, level2: real)
    requires ZCritical(level1).Some? && ZCritical(level2).Some? && level1 < level2
    ensures 0.0 < ZCritical(level1).value < ZCritical(level2).value
  {
  }

  /** `ConfidenceIntervalMeanSigmaKnownResultContent` without the
      interpretation sentence. */
  datatype ConfidenceInterval = ConfidenceInterval(
    sampleMean: real,
    populationSigma: real,
    sampleSize: int,
    confidenceLevel: real,
    zCritical: real,
    standardError: real,
    marginOfError: real,
    lowerBound: real,
    upperBound: real)

  function ConfidenceIntervalOf(xBar: real, sigma: real, n: int, level: real, m: Math): Result<ConfidenceInterval, Error>
    requires Lawful(m)
  {
    if sigma <= 0.0 then Err(NonPositiveSigma)
    else if n <= 0 then Err(NonPositiveSampleSize)
    else if ZCritical(level).None? then Err(UnsupportedConfidenceLevel)
    else
      SqrtPositive(m, n as real);
      var z := ZCritical(level).value;
      var se := sigma / m.sqrt(n as real);
      var margin := z * se;
      Ok(ConfidenceInterval(xBar, sigma, n, level, z, se, margin, xBar - margin, xBar + margin))
  }

  lemma ConfidenceIntervalFailures(xBar: real, sigma: real, n: int, level: real, m: Math)
    requires Lawful(m)
    ensures ConfidenceIntervalOf(xBar, sigma, n, level, m).Ok?
        <==> 0.0 < sigma && 0 < n && level in {90.0, 95.0, 98.0, 99.0}
    ensures sigma <= 0.0 ==> ConfidenceIntervalOf(xBar, sigma, n, level, m) == Err(NonPositiveSigma)
    ensures 0.0 < sigma && n <= 0 ==> ConfidenceIntervalOf(xBar, sigma, n, level, m) == Err(NonPositiveSampleSize)
    ensures 0.0 < sigma && 0 < n && level !in {90.0, 95.0, 98.0, 99.0} ==>
      ConfidenceIntervalOf(xBar, sigma, n, level, m) == Err(UnsupportedConfidenceLevel)
  {
  }

  /** The interval is centred on the sample mean, with half-width
      z sigma / sqrt(n) > 0, so its lower bound is below its upper bound. */
  lemma ConfidenceIntervalCentred(xBar: real, sigma: real, n: int, level: real, m: Math)
    requires Lawful(m) && ConfidenceIntervalOf(xBar, sigma, n, level, m).Ok?
    ensures var r := ConfidenceIntervalOf(xBar, sigma, n, level, m).value;
      && r.zCritical == ZCritical(level).value
      && 0.0 < r.standardError && r.standardError * r.standardError * n as real == sigma * sigma
      && 0.0 < r.marginOfError && r.marginOfError == r.zCritical * r.standardError
      && r.lowerBound < xBar < r.upperBound
      && (r.lowerBound + r.upperBound) / 2.0 == xBar
      && r.upperBound - r.lowerBound == 2.0 * r.marginOfError
  {
    SqrtPositive(m, n as real);
    var s := m.sqrt(n as real);
    QuotientSquare(sigma, s, n as real);
    var se := sigma / s;
    assert 0.0 < se;
    var z := ZCritical(level).value;
    assert 0.0 < z;
    assert 0.0 < z * se;
  }
}

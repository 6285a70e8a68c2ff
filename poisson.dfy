/** `poissonPMF` and `calculatePoissonDistribution` of
    services/StatService.ts: the probability of k events at rate lambda, a
    chart of the first probabilities and, for a query point k, the exact
    probability and the two clamped tails. */
module Poisson {
  import opened Wrappers
  import opened Numerics
  import opened Charts
  import Combinatorics

  /** `POISSON_PMF_POINTS_COUNT_MAX` of constants.ts. */
  const POISSON_PMF_POINTS_COUNT_MAX: nat := 40
  /** The chart's "..." marker is considered only below this many points. */
  const MARKER_MAX_K: int := 30
  const MARKER_THRESHOLD: real := 0.000001

  /** `poissonPMF(k, lambda)`: NaN for a negative rate or count, otherwise
      lambda^k e^-lambda / k!, which is 0 once k! overflows to Infinity
      (k > 170).  The source's guards for a zero denominator cannot fire,
      since the factorial is at least 1 or Infinity. */
  function Pmf(k: int, lambda: real, m: Math): Option<real> {
    if lambda < 0.0 || k < 0 then None
    else
      var numerator := Pow(lambda, k) * m.exp(-lambda);
      var denominator := Combinatorics.FactorialOf(k);
      if denominator.Finite? then Some(numerator / denominator.value) else Some(0.0)
  }

  /** With a non-negative rate every probability is a non-negative number. */
  lemma PmfNonNegative(k: int, lambda: real, m: Math)
    requires Lawful(m) && 0.0 <= lambda && 0 <= k
    ensures Pmf(k, lambda, m).Some? && 0.0 <= Pmf(k, lambda, m).value
  {
    PowNonNegative(lambda, k);
    var numerator := Pow(lambda, k) * m.exp(-lambda);
    assert 0.0 <= numerator;
    var denominator := Combinatorics.FactorialOf(k);
    if denominator.Finite? {
      QuotientNonNegative(numerator, denominator.value);
    }
  }

  /** The running total `0 + pmf(0) + ... + pmf(hi - 1)`. */
  function Cumulative(hi: nat, lambda: real, m: Math): Option<real> {
    if hi == 0 then Some(0.0) else Plus(Cumulative(hi - 1, lambda, m), Pmf(hi - 1, lambda, m))
  }

  /** The chart's last k: ceil(lambda + 5 sqrt(lambda)) kept within
      0..39; NaN for a negative rate, whose square root is NaN. */
  function ChartTop(lambda: real, m: Math): Option<nat> {
    if lambda < 0.0 then None
    else
      var top := Ceil(lambda + 5.0 * m.sqrt(lambda));
      var top' := if top < POISSON_PMF_POINTS_COUNT_MAX - 1 then top else POISSON_PMF_POINTS_COUNT_MAX - 1;
      Some(if top' < 0 then 0 else top')
  }

  /** The "..." marker is pushed when the chart stops short of a rate above
      it and the next probability is not negligible. */
  predicate MarkerWanted(top: nat, lambda: real, m: Math) {
    && top < MARKER_MAX_K
    && lambda > top as real
    && Pmf(top + 1, lambda, m).Some?
    && Pmf(top + 1, lambda, m).value > MARKER_THRESHOLD
  }

  function ChartOf(lambda: real, m: Math): seq<ProbabilityPoint> {
    match ChartTop(lambda, m)
    case None => []
    case Some(top) =>
      seq(top + 1, i requires 0 <= i <= top => ProbabilityPoint(At(i as real), Pmf(i, lambda, m)))
      + (if MarkerWanted(top, lambda, m) then [ProbabilityPoint(Ellipsis, Some(0.0))] else [])
  }

  /** `PoissonResultsContent`; an absent optional field is `None`, and a
      present one holds a number that may be NaN. */
  datatype PoissonResult = PoissonResult(
    mean: real,
    variance: real,
    stdDev: Option<real>,
    pmfData: seq<ProbabilityPoint>,
    exactProbability: Option<Option<real>>,
    lessThanOrEqualProbability: Option<Option<real>>,
    greaterThanProbability: Option<Option<real>>)

  /** The query is answered only for a given whole k >= 0. */
  predicate Asked(k: Option<real>) {
    k.Some? && k.value >= 0.0 && IsInteger(k.value)
  }

  /** `Math.min(1, x)` and `Math.max(0, x)` on numbers that may be NaN. */
  function AtMostOne(a: Option<real>): Option<real> {
    if a.Some? then Some(Min(1.0, a.value)) else None
  }

  function AtLeastZero(a: Option<real>): Option<real> {
    if a.Some? then Some(Max(0.0, a.value)) else None
  }

  function PoissonOf(lambda: real, k: Option<real>, m: Math): PoissonResult {
    var le := if Asked(k) then AtMostOne(Cumulative(Floor(k.value) + 1, lambda, m)) else None;
    PoissonResult(
      lambda,
      lambda,
      SqrtOf(m, lambda),
      ChartOf(lambda, m),
      if Asked(k) then Some(Pmf(Floor(k.value), lambda, m)) else None,
      if Asked(k) then Some(le) else None,
      if Asked(k) then Some(AtLeastZero(Complement(le))) else None)
  }

  method CalculatePoissonDistribution(lambda: real, k: Option<real>, m: Math) returns (r: PoissonResult)
    ensures r == PoissonOf(lambda, k, m)
  {
    var stdDev := SqrtOf(m, lambda);
    var pmfData := ChartPoints(lambda, m);
    var exact: Option<Option<real>> := None;
    var lessOrEqual: Option<Option<real>> := None;
    var greater: Option<Option<real>> := None;
    if k.Some? && k.value >= 0.0 && IsInteger(k.value) {
      var kk := Floor(k.value);
      exact := Some(Pmf(kk, lambda, m));
      var total := RunningTotal(kk + 1, lambda, m);
      var le := AtMostOne(total);
      lessOrEqual := Some(le);
      greater := Some(AtLeastZero(Complement(le)));
    }
    r := PoissonResult(lambda, lambda, stdDev, pmfData, exact, lessOrEqual, greater);
  }

  /** The chart loop: one point per k from 0 to the top, then the marker
      when it is wanted. */
  method ChartPoints(lambda: real, m: Math) returns (pmfData: seq<ProbabilityPoint>)
    ensures pmfData == ChartOf(lambda, m)
  {
    pmfData := [];
    var top := ChartTop(lambda, m);
    if top.Some? {
      for i := 0 to top.value + 1
        invariant |pmfData| == i
        invariant forall j :: 0 <= j < i ==> pmfData[j] == ProbabilityPoint(At(j as real), Pmf(j, lambda, m))
      {
        pmfData := pmfData + [ProbabilityPoint(At(i as real), Pmf(i, lambda, m))];
      }
      if top.value < MARKER_MAX_K && lambda > top.value as real {
        var lastProb := Pmf(top.value + 1, lambda, m);
        if lastProb.Some? && lastProb.value > MARKER_THRESHOLD {
          pmfData := pmfData + [ProbabilityPoint(Ellipsis, Some(0.0))];
        }
      }
    }
  }

  /** The summing loop: the probabilities of 0 to n - 1 added in order. */
  method RunningTotal(n: nat, lambda: real, m: Math) returns (total: Option<real>)
    ensures total == Cumulative(n, lambda, m)
  {
    total := Some(0.0);
    for i := 0 to n
      invariant total == Cumulative(i, lambda, m)
    {
      total := Plus(total, Pmf(i, lambda, m));
    }
  }

  lemma {:induction false} CumulativeNonNegative(hi: nat, lambda: real, m: Math)
    requires Lawful(m) && 0.0 <= lambda
    ensures Cumulative(hi, lambda, m).Some? && 0.0 <= Cumulative(hi, lambda, m).value
  {
    if hi > 0 {
      CumulativeNonNegative(hi - 1, lambda, m);
      PmfNonNegative(hi - 1, lambda, m);
    }
  }

  /** With a non-negative rate the clamped tails are probabilities adding
      to 1; with a negative rate every reported number is NaN. */
  lemma QueryTails(lambda: real, k: Option<real>, m: Math)
    requires Lawful(m) && Asked(k)
    ensures var r := PoissonOf(lambda, k, m);
      && r.exactProbability.Some? && r.lessThanOrEqualProbability.Some? && r.greaterThanProbability.Some?
      && (lambda < 0.0 <==> r.exactProbability.value.None?)
      && (lambda < 0.0 <==> r.lessThanOrEqualProbability.value.None?)
      && (lambda < 0.0 <==> r.greaterThanProbability.value.None?)
      && (0.0 <= lambda ==>
            var le := r.lessThanOrEqualProbability.value.value;
            var gt := r.greaterThanProbability.value.value;
            && 0.0 <= r.exactProbability.value.value
            && 0.0 <= le <= 1.0 && 0.0 <= gt <= 1.0 && le + gt == 1.0)
  {
    if 0.0 <= lambda {
      CumulativeNonNegative(Floor(k.value) + 1, lambda, m);
      PmfNonNegative(Floor(k.value), lambda, m);
    }
  }

  lemma {:induction false} CumulativeNaN(hi: nat, lambda: real, m: Math)
    requires lambda < 0.0 && 0 < hi
    ensures Cumulative(hi, lambda, m).None?
  {
    if hi > 1 {
      CumulativeNaN(hi - 1, lambda, m);
    }
  }

  /** Without a whole k >= 0 nothing is reported. */
  lemma QueryPresence(lambda: real, k: Option<real>, m: Math)
    ensures var r := PoissonOf(lambda, k, m);
      && (r.exactProbability.Some? <==> Asked(k))
      && (r.lessThanOrEqualProbability.Some? <==> Asked(k))
      && (r.greaterThanProbability.Some? <==> Asked(k))
      && (Asked(k) && lambda < 0.0 ==>
            r.exactProbability.value.None? && r.lessThanOrEqualProbability.value.None?
            && r.greaterThanProbability.value.None?)
  {
    if Asked(k) && lambda < 0.0 {
      CumulativeNaN(Floor(k.value) + 1, lambda, m);
    }
  }

  lemma CeilAtLeast(x: real, y: real)
    requires y <= x
    ensures y <= Ceil(x) as real
  {
  }

  /** The chart has one point per k = 0..top, where top <= 39 covers the
      rate whenever top < 30, so the "..." marker is never pushed; a
      negative rate gives an empty chart. */
  lemma ChartShape(lambda: real, m: Math)
    requires Lawful(m)
    ensures var c := PoissonOf(lambda, None, m).pmfData;
      && (lambda < 0.0 ==> c == [])
      && (0.0 <= lambda ==>
            var top := ChartTop(lambda, m).value;
            && top < POISSON_PMF_POINTS_COUNT_MAX
            && !MarkerWanted(top, lambda, m)
            && |c| == top + 1
            && forall i :: 0 <= i <= top ==> c[i] == ProbabilityPoint(At(i as real), Pmf(i, lambda, m)))
  {
    if 0.0 <= lambda {
      assert 0.0 <= m.sqrt(lambda);
      CeilAtLeast(lambda + 5.0 * m.sqrt(lambda), lambda);
    }
  }
}

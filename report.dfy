/** `calculateDescriptiveStats` of services/StatService.ts: the summary of a
    sample, with the optional worked steps and the histogram. */
module DescriptiveReport {
  import opened Wrappers
  import opened Numerics
  import opened Errors
  import opened Charts
  import opened Descriptive
  import Modes
  import Histogram

  const MEAN_EQUATION: string := "Σx / N"
  const VARIANCE_EQUATION: string := "Σ(x - x̄)² / (N - 1)"
  const STD_DEV_EQUATION: string := "√s²"

  datatype MeanSteps = MeanSteps(sum: real, count: nat, equation: string)

  datatype MedianSteps = MedianSteps(
    sortedData: seq<real>,
    count: nat,
    isEven: bool,
    middleIndices: Option<(real, real)>,
    middleValue: Option<real>,
    calculatedMedian: Option<real>)

  datatype VarianceItem = VarianceItem(x: real, deviation: real, squaredDeviation: real)

  datatype VarianceSteps = VarianceSteps(
    mean: real,
    items: seq<VarianceItem>,
    sumSquaredDeviations: real,
    count: nat,
    equation: string)

  datatype StdDevSteps = StdDevSteps(variance: real, equation: string)

  /** `DescriptiveStatsResultsContent`.  `variance` and `stdDev` are NaN
      (`None`) below two values; every other number is defined once the
      sample is not empty. */
  datatype Report = Report(
    count: nat,
    mean: real,
    median: real,
    mode: seq<real>,
    variance: Option<real>,
    stdDev: Option<real>,
    min: real,
    max: real,
    range: real,
    sum: real,
    q1: real,
    q3: real,
    iqr: real,
    histogramData: seq<ChartPoint>,
    meanSteps: Option<MeanSteps>,
    medianSteps: Option<MedianSteps>,
    varianceSteps: Option<VarianceSteps>,
    stdDevSteps: Option<StdDevSteps>)

  function MedianStepsOf(sorted: seq<real>): MedianSteps
    requires |sorted| >= 1
  {
    var n := |sorted|;
    if n % 2 == 0 then
      var a, b := sorted[n / 2 - 1], sorted[n / 2];
      MedianSteps(sorted, n, true, Some((a, b)), None, Some((a + b) / 2.0))
    else
      MedianSteps(sorted, n, false, None, Some(sorted[n / 2]), None)
  }

  function VarianceItems(data: seq<real>, mean: real): (r: seq<VarianceItem>)
    ensures |r| == |data|
    ensures forall i :: 0 <= i < |r| ==>
      r[i].x == data[i] && r[i].deviation == data[i] - mean && r[i].squaredDeviation == r[i].deviation * r[i].deviation
  {
    seq(|data|, i requires 0 <= i < |data| => VarianceItem(data[i], data[i] - mean, (data[i] - mean) * (data[i] - mean)))
  }

  function SquaredColumn(items: seq<VarianceItem>): (r: seq<real>)
    ensures |r| == |items| && forall i :: 0 <= i < |r| ==> r[i] == items[i].squaredDeviation
  {
    seq(|items|, i requires 0 <= i < |items| => items[i].squaredDeviation)
  }

  /** The least and the greatest value: the ends of the ascending copy. */
  function Least(numbers: seq<real>): real
    requires |numbers| > 0
  {
    SortAscending(numbers)[0]
  }

  function Greatest(numbers: seq<real>): real
    requires |numbers| > 0
  {
    SortAscending(numbers)[|numbers| - 1]
  }

  /** The report of a non-empty sample, given its modes and its histogram
      (the two parts the source computes with loops). */
  function Summarise(numbers: seq<real>, includeSteps: bool, m: Math, modes: seq<real>, histogramData: seq<ChartPoint>): Report
    requires |numbers| > 0
  {
    var count := |numbers|;
    var sum := Sum(numbers);
    var mean := sum / count as real;
    var variance := Variance(numbers, mean);
    var lo, hi := Least(numbers), Greatest(numbers);
    var q1 := Percentile(numbers, 25.0).value;
    var q3 := Percentile(numbers, 75.0).value;
    var withVariance := includeSteps && count >= 2;
    var items := VarianceItems(numbers, mean);
    Report(
      count, mean, Median(numbers).value, modes, variance, StdDev(m, variance),
      lo, hi, hi - lo, sum, q1, q3, q3 - q1, histogramData,
      if includeSteps then Some(MeanSteps(sum, count, MEAN_EQUATION)) else None,
      if includeSteps then Some(MedianStepsOf(SortAscending(numbers))) else None,
      if withVariance then Some(VarianceSteps(mean, items, Sum(SquaredColumn(items)), count, VARIANCE_EQUATION)) else None,
      if withVariance then Some(StdDevSteps(variance.value, STD_DEV_EQUATION)) else None)
  }

  /** What `calculateDescriptiveStats(numbers, includeSteps)` returns or
      throws. */
  function DescriptiveStats(numbers: seq<real>, includeSteps: bool, m: Math): Result<Report, Error> {
    if |numbers| == 0 then Err(EmptyDescriptiveData)
    else
      SortAscendingEnds(numbers);
      Ok(Summarise(numbers, includeSteps, m, Modes.ModeOf(numbers),
        Histogram.HistogramOf(numbers, Least(numbers), Greatest(numbers))))
  }

  /** The source's function, with the mode and the histogram computed by
      their loops. */
  method CalculateDescriptiveStats(numbers: seq<real>, includeSteps: bool, m: Math) returns (r: Result<Report, Error>)
    ensures r == DescriptiveStats(numbers, includeSteps, m)
  {
    if |numbers| == 0 {
      return Err(EmptyDescriptiveData);
    }
    var modeVal := Modes.Mode(numbers);
    SortAscendingEnds(numbers);
    var histogramData := Histogram.Histogram(numbers, Least(numbers), Greatest(numbers));
    r := Ok(Summarise(numbers, includeSteps, m, modeVal, histogramData));
  }

  /** The only failure is an empty sample. */
  lemma FailsExactlyWhenEmpty(numbers: seq<real>, includeSteps: bool, m: Math)
    ensures DescriptiveStats(numbers, includeSteps, m).Err? <==> |numbers| == 0
    ensures DescriptiveStats(numbers, includeSteps, m).Err? ==> DescriptiveStats(numbers, includeSteps, m).error == EmptyDescriptiveData
  {
  }

  lemma {:induction false} SumBetween(s: seq<real>, lo: real, hi: real)
    requires forall x :: x in s ==> lo <= x <= hi
    ensures |s| as real * lo <= Sum(s) <= |s| as real * hi
  {
    if s != [] {
      var p := s[..|s| - 1];
      assert forall x :: x in p ==> x in s;
      SumBetween(p, lo, hi);
      assert s[|s| - 1] in s;
      var k := |p| as real;
      assert |s| as real == k + 1.0;
      assert (k + 1.0) * lo == k * lo + lo;
      assert (k + 1.0) * hi == k * hi + hi;
      assert Sum(s) == Sum(p) + s[|s| - 1];
    }
  }

  /** Where each figure of the summary comes from. */
  lemma Shape(numbers: seq<real>, includeSteps: bool, m: Math)
    requires |numbers| > 0
    ensures var r := DescriptiveStats(numbers, includeSteps, m).value;
      var s := SortAscending(numbers);
      && r.count == |numbers| && r.sum == Sum(numbers) && r.mean == r.sum / r.count as real
      && r.min == s[0] && r.max == s[|s| - 1] && r.range == r.max - r.min
      && r.q1 == Percentile(numbers, 25.0).value && r.median == Median(numbers).value
      && r.q3 == Percentile(numbers, 75.0).value && r.iqr == r.q3 - r.q1
      && r.variance == Variance(numbers, r.mean) && r.stdDev == StdDev(m, r.variance)
  {
  }

  /** The summary is consistent: min and max are values of the sample
      bounding every value, and min <= Q1 <= median <= Q3 <= max, so range
      and IQR are not negative. */
  lemma ReportIsOrdered(numbers: seq<real>, includeSteps: bool, m: Math)
    requires |numbers| > 0
    ensures var r := DescriptiveStats(numbers, includeSteps, m).value;
      && r.min in numbers && r.max in numbers
      && (forall x :: x in numbers ==> r.min <= x <= r.max)
      && r.min <= r.q1 <= r.median <= r.q3 <= r.max
      && 0.0 <= r.range && 0.0 <= r.iqr
  {
    Shape(numbers, includeSteps, m);
    SortAscendingEnds(numbers);
    QuartilesOrdered(numbers);
  }

  lemma QuartilesOrdered(numbers: seq<real>)
    requires |numbers| > 0
    ensures var s := SortAscending(numbers);
      s[0] <= Percentile(numbers, 25.0).value <= Median(numbers).value
      <= Percentile(numbers, 75.0).value <= s[|s| - 1]
  {
    PercentileMonotone(numbers, 25.0, 50.0);
    PercentileMonotone(numbers, 50.0, 75.0);
    PercentileWithinRange(numbers, 25.0);
    PercentileWithinRange(numbers, 75.0);
    PercentileFiftyIsMedian(numbers);
  }

  /** The mean lies between the least and the greatest value. */
  lemma MeanWithinRange(numbers: seq<real>, includeSteps: bool, m: Math)
    requires |numbers| > 0
    ensures var r := DescriptiveStats(numbers, includeSteps, m).value;
      r.min <= r.mean <= r.max
  {
    var s := SortAscending(numbers);
    SortAscendingEnds(numbers);
    MeanOfBounded(numbers, s[0], s[|s| - 1]);
    Shape(numbers, includeSteps, m);
  }

  lemma MeanOfBounded(s: seq<real>, lo: real, hi: real)
    requires |s| > 0 && forall x :: x in s ==> lo <= x <= hi
    ensures lo <= Sum(s) / |s| as real <= hi
  {
    SumBetween(s, lo, hi);
    MeanBetween(Sum(s), |s| as real, lo, hi);
  }

  lemma MeanBetween(sum: real, n: real, lo: real, hi: real)
    requires 0.0 < n && n * lo <= sum <= n * hi
    ensures lo <= sum / n <= hi
  {
    var q := sum / n;
    assert q * n == sum;
    assert (q - lo) * n == sum - lo * n;
    assert (hi - q) * n == hi * n - sum;
  }

  lemma StdDevIsRoot(m: Math, variance: Option<real>)
    requires Lawful(m) && (variance.Some? ==> 0.0 <= variance.value)
    ensures StdDev(m, variance).Some? == variance.Some?
    ensures variance.Some? ==>
      0.0 <= StdDev(m, variance).value && StdDev(m, variance).value * StdDev(m, variance).value == variance.value
  {
  }

  /** Variance and standard deviation are defined from two values on; the
      variance is not negative and, for a lawful square root, the standard
      deviation is its non-negative square root. */
  lemma SpreadIsDefined(numbers: seq<real>, includeSteps: bool, m: Math, modes: seq<real>, histogramData: seq<ChartPoint>)
    requires |numbers| > 0 && Lawful(m)
    ensures var r := Summarise(numbers, includeSteps, m, modes, histogramData);
      && (r.variance.Some? <==> |numbers| >= 2)
      && r.stdDev.Some? == r.variance.Some?
      && (r.variance.Some? ==>
            0.0 <= r.variance.value && 0.0 <= r.stdDev.value && r.stdDev.value * r.stdDev.value == r.variance.value)
  {
    var r := Summarise(numbers, includeSteps, m, modes, histogramData);
    VarianceNonNegative(numbers, r.mean);
    StdDevIsRoot(m, r.variance);
  }

  /** The worked steps are present exactly when asked for, the variance
      and standard-deviation steps only from two values on. */
  lemma StepsPresence(numbers: seq<real>, includeSteps: bool, m: Math)
    requires |numbers| > 0
    ensures var r := DescriptiveStats(numbers, includeSteps, m).value;
      && (r.meanSteps.Some? <==> includeSteps)
      && (r.medianSteps.Some? <==> includeSteps)
      && (r.varianceSteps.Some? <==> includeSteps && |numbers| >= 2)
      && (r.stdDevSteps.Some? <==> r.varianceSteps.Some?)
  {
  }

  /** The mean steps give the mean back as sum over count. */
  lemma MeanStepsReproduceMean(numbers: seq<real>, m: Math)
    requires |numbers| > 0
    ensures var r := DescriptiveStats(numbers, true, m).value;
      r.meanSteps.value.sum / r.meanSteps.value.count as real == r.mean
  {
  }

  /** The median steps name the parity of the count and give the median
      back: the middle value for an odd count, the average of the two
      middle values for an even one. */
  lemma MedianStepsReproduceMedian(numbers: seq<real>, m: Math)
    requires |numbers| > 0
    ensures var r := DescriptiveStats(numbers, true, m).value;
      var ms := r.medianSteps.value;
      && ms.count == r.count && ms.isEven == (ms.count % 2 == 0)
      && ms.sortedData == SortAscending(numbers)
      && (if ms.isEven then ms.calculatedMedian == Some(r.median) && ms.middleValue.None?
          else ms.middleValue == Some(r.median) && ms.calculatedMedian.None?)
  {
  }

  lemma SquaredColumnOfItems(data: seq<real>, mean: real)
    ensures SquaredColumn(VarianceItems(data, mean)) == SquaredDeviations(data, mean)
  {
  }

  /** The variance steps are taken about the mean of the summary over all
      N values, and list one row per value (`VarianceItems`: the value,
      its deviation from the mean and the square of that deviation). */
  lemma VarianceStepsListDeviations(numbers: seq<real>, m: Math)
    requires |numbers| >= 2
    ensures var r := DescriptiveStats(numbers, true, m).value;
      && r.mean == Sum(numbers) / |numbers| as real
      && r.varianceSteps.value.mean == r.mean
      && r.varianceSteps.value.count == r.count == |numbers|
      && r.varianceSteps.value.items == VarianceItems(numbers, r.mean)
  {
  }

  /** The variance steps give the variance back as the sum of squares over
      N - 1; the standard-deviation steps carry the same variance. */
  lemma VarianceStepsReproduceVariance(numbers: seq<real>, m: Math, modes: seq<real>, histogramData: seq<ChartPoint>)
    requires |numbers| >= 2
    ensures var r := Summarise(numbers, true, m, modes, histogramData);
      var vs := r.varianceSteps.value;
      && Some(vs.sumSquaredDeviations / (vs.count - 1) as real) == r.variance
      && Some(r.stdDevSteps.value.variance) == r.variance
  {
    SquaredColumnOfItems(numbers, Sum(numbers) / |numbers| as real);
  }

  /** The histogram's bars add up to the count. */
  lemma HistogramCountsSample(numbers: seq<real>, includeSteps: bool, m: Math)
    requires |numbers| > 0
    ensures var r := DescriptiveStats(numbers, includeSteps, m).value;
      Histogram.Total(r.histogramData) == r.count as real
  {
    SortAscendingEnds(numbers);
    var s := SortAscending(numbers);
    Histogram.HistogramTotal(Histogram.AsWritten, numbers, s[0], s[|numbers| - 1]);
  }
}

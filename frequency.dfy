/** `calculateFrequencyDistribution` of services/StatService.ts: a table of
    classes of equal whole-number width starting at the least value (the
    number of classes chosen by Sturges' rule), each with its class mark and
    its absolute, relative and accumulated frequency. */
module Frequency {
  import opened Wrappers
  import opened Numerics
  import opened Errors
  import Descriptive

  /** The `intervalLabel` of a class: the single value of a sample without
      spread, "lo - <hi" for every class but the last and "lo - hi" for the
      last one, which is closed at the greatest value. */
  datatype Interval =
    | Single(v: real)
    | HalfOpen(lo: real, hi: real)
    | Closed(lo: real, hi: real)

  datatype FrequencyClass = FrequencyClass(
    interval: Interval,
    classMark: real,
    absoluteFrequency: nat,
    relativeFrequency: real,
    accumulatedFrequency: nat)

  /** A point of `combinedChartData`: the bar and the polygon share the
      absolute frequency. */
  datatype CombinedPoint = CombinedPoint(name: real, value: nat, polygonValue: nat, interval: Interval)

  datatype FrequencyTable = FrequencyTable(
    vMin: real,
    vMax: real,
    range: real,
    n: nat,
    numClasses: nat,
    classWidth: real,
    classes: seq<FrequencyClass>,
    combinedChartData: seq<CombinedPoint>)

  /** How many values lie in [lo, hi) (a `filter(...).length`). */
  function CountIn(d: seq<real>, lo: real, hi: real): (r: nat)
    ensures r <= |d|
  {
    if d == [] then 0
    else CountIn(d[..|d| - 1], lo, hi) + (if lo <= d[|d| - 1] < hi then 1 else 0)
  }

  /** How many values lie in [lo, hi]. */
  function CountClosed(d: seq<real>, lo: real, hi: real): (r: nat)
    ensures r <= |d|
  {
    if d == [] then 0
    else CountClosed(d[..|d| - 1], lo, hi) + (if lo <= d[|d| - 1] <= hi then 1 else 0)
  }

  /** How many values lie below t. */
  function CountBelow(d: seq<real>, t: real): (r: nat)
    ensures r <= |d|
  {
    if d == [] then 0
    else CountBelow(d[..|d| - 1], t) + (if d[|d| - 1] < t then 1 else 0)
  }

  lemma {:induction false} CountInSplit(d: seq<real>, lo: real, hi: real)
    requires lo <= hi
    ensures CountBelow(d, lo) + CountIn(d, lo, hi) == CountBelow(d, hi)
  {
    if d != [] {
      CountInSplit(d[..|d| - 1], lo, hi);
    }
  }

  lemma {:induction false} CountClosedTop(d: seq<real>, lo: real, hi: real)
    requires forall i :: 0 <= i < |d| ==> d[i] <= hi
    ensures CountBelow(d, lo) + CountClosed(d, lo, hi) == |d|
  {
    if d != [] {
      CountClosedTop(d[..|d| - 1], lo, hi);
    }
  }

  lemma {:induction false} CountBelowLeast(d: seq<real>, t: real)
    requires forall i :: 0 <= i < |d| ==> t <= d[i]
    ensures CountBelow(d, t) == 0
  {
    if d != [] {
      CountBelowLeast(d[..|d| - 1], t);
    }
  }

  /** Sturges' rule `Math.max(1, Math.round(1 + 3.322 * Math.log10(n)))`. */
  function SturgesClasses(n: nat, m: Math): (k: int)
    ensures 1 <= k
  {
    var k := Round(1.0 + 3.322 * m.log10(n as real));
    if k < 1 then 1 else k
  }

  /** The class width: the range over the class count, then raised through
      the source's chain of cases and finally to at least 1. */
  function ClassWidth(range: real, k: int): real
    requires 0.0 < range && 1 <= k
  {
    var w := range / k as real;
    var w' := if w == 0.0 && range > 0.0 then range
              else if w < 0.1 && range > 0.0 then Max(0.1, Ceil(range / k as real) as real)
              else Ceil(w) as real;
    Max(1.0, w')
  }

  /** Every case of the chain lands on the same value: the range over the
      class count rounded up, which is a whole number of at least 1. */
  lemma ClassWidthIsCeiling(range: real, k: int)
    requires 0.0 < range && 1 <= k
    ensures ClassWidth(range, k) == Ceil(range / k as real) as real
    ensures 1 <= Ceil(range / k as real)
  {
    assert 0.0 < range / k as real;
  }

  /** `Math.max(1, Math.ceil(range / width))`. */
  function ClassCount(range: real, w: real): (nc: nat)
    requires 0.0 < w
    ensures 1 <= nc
  {
    var c := Ceil(range / w);
    if c < 1 then 1 else c
  }

  function Lower(vMin: real, w: real, i: nat): real {
    vMin + i as real * w
  }

  lemma LowerStep(vMin: real, w: real, i: nat)
    requires 0.0 < w
    ensures Lower(vMin, w, i) + w == Lower(vMin, w, i + 1)
    ensures Lower(vMin, w, i) < Lower(vMin, w, i + 1)
  {
  }

  /** The absolute frequency of class i: the values in [lower, next lower),
      or in [lower, vMax] for the last class. */
  function AbsoluteFrequency(s: seq<real>, vMin: real, vMax: real, w: real, nc: nat, i: nat): nat {
    if i == nc - 1 then CountClosed(s, Lower(vMin, w, i), vMax)
    else CountIn(s, Lower(vMin, w, i), Lower(vMin, w, i + 1))
  }

  /** The running total after the first i classes. */
  function Accumulated(s: seq<real>, vMin: real, vMax: real, w: real, nc: nat, i: nat): nat {
    if i == 0 then 0
    else Accumulated(s, vMin, vMax, w, nc, i - 1) + AbsoluteFrequency(s, vMin, vMax, w, nc, i - 1)
  }

  function ClassOf(s: seq<real>, vMin: real, vMax: real, w: real, nc: nat, i: nat): FrequencyClass
    requires 0 < |s|
  {
    var lower := Lower(vMin, w, i);
    var upper := if i == nc - 1 then vMax else Lower(vMin, w, i + 1);
    var abs := AbsoluteFrequency(s, vMin, vMax, w, nc, i);
    FrequencyClass(
      if i == nc - 1 then Closed(lower, vMax) else HalfOpen(lower, upper),
      (lower + upper) / 2.0,
      abs,
      abs as real / |s| as real,
      Accumulated(s, vMin, vMax, w, nc, i + 1))
  }

  function ClassesOf(s: seq<real>, vMin: real, vMax: real, w: real, nc: nat): seq<FrequencyClass>
    requires 0 < |s|
  {
    seq(nc, i requires 0 <= i < nc => ClassOf(s, vMin, vMax, w, nc, i))
  }

  function PointOf(c: FrequencyClass): CombinedPoint {
    CombinedPoint(c.classMark, c.absoluteFrequency, c.absoluteFrequency, c.interval)
  }

  function PointsOf(classes: seq<FrequencyClass>): (r: seq<CombinedPoint>)
    ensures |r| == |classes|
  {
    seq(|classes|, i requires 0 <= i < |classes| => PointOf(classes[i]))
  }

  /** The table of a sample with spread, from its ascending copy. */
  function SpreadTable(s: seq<real>, m: Math): FrequencyTable
    requires 0 < |s| && s[0] < s[|s| - 1]
  {
    var vMin := s[0];
    var vMax := s[|s| - 1];
    var range := vMax - vMin;
    var k := SturgesClasses(|s|, m);
    ClassWidthIsCeiling(range, k);
    var w := ClassWidth(range, k);
    var nc := ClassCount(range, w);
    var classes := ClassesOf(s, vMin, vMax, w, nc);
    FrequencyTable(vMin, vMax, range, |s|, nc, w, classes, PointsOf(classes))
  }

  /** The whole result of `calculateFrequencyDistribution`. */
  function FrequencyOf(numbers: seq<real>, m: Math): Result<FrequencyTable, Error> {
    if |numbers| == 0 then Err(EmptyFrequencyData)
    else
      var s := Descriptive.SortAscending(numbers);
      var n := |s|;
      var vMin := s[0];
      if s[n - 1] - vMin == 0.0 then
        Ok(FrequencyTable(vMin, vMin, 0.0, n, 1, 0.0,
          [FrequencyClass(Single(vMin), vMin, n, 1.0, n)],
          [CombinedPoint(vMin, n, n, Single(vMin))]))
      else
        Ok(SpreadTable(s, m))
  }

  /** The class loop of the source, accumulating as it goes. */
  method ClassLoop(s: seq<real>, vMin: real, vMax: real, w: real, nc: nat)
    returns (classes: seq<FrequencyClass>, chart: seq<CombinedPoint>)
    requires 0 < |s|
    ensures classes == ClassesOf(s, vMin, vMax, w, nc)
    ensures chart == PointsOf(classes)
  {
    var n := |s|;
    classes := [];
    chart := [];
    var accumulated: nat := 0;
    for i := 0 to nc
      invariant |classes| == |chart| == i
      invariant forall j :: 0 <= j < i ==> classes[j] == ClassOf(s, vMin, vMax, w, nc, j)
      invariant forall j :: 0 <= j < i ==> chart[j] == PointOf(classes[j])
      invariant accumulated == Accumulated(s, vMin, vMax, w, nc, i)
    {
      var lower := vMin + i as real * w;
      var upper := if i == nc - 1 then vMax else vMin + (i + 1) as real * w;
      var classMark := (lower + upper) / 2.0;
      var interval := if i == nc - 1 then Closed(lower, vMax) else HalfOpen(lower, upper);
      var abs: nat;
      if i == nc - 1 {
        abs := CountClosed(s, lower, vMax);
      } else {
        abs := CountIn(s, lower, vMin + (i + 1) as real * w);
      }
      var relative := abs as real / n as real;
      accumulated := accumulated + abs;
      var c := FrequencyClass(interval, classMark, abs, relative, accumulated);
      assert c == ClassOf(s, vMin, vMax, w, nc, i);
      classes := classes + [c];
      chart := chart + [CombinedPoint(classMark, abs, abs, interval)];
    }
  }

  method CalculateFrequencyDistribution(numbers: seq<real>, m: Math) returns (r: Result<FrequencyTable, Error>)
    ensures r == FrequencyOf(numbers, m)
  {
    var n := |numbers|;
    if n == 0 {
      return Err(EmptyFrequencyData);
    }
    var s := Descriptive.SortAscending(numbers);
    var vMin := s[0];
    var vMax := s[n - 1];
    var range := vMax - vMin;
    if range == 0.0 {
      return Ok(FrequencyTable(vMin, vMax, range, n, 1, 0.0,
        [FrequencyClass(Single(vMin), vMin, n, 1.0, n)],
        [CombinedPoint(vMin, n, n, Single(vMin))]));
    }
    var k := SturgesClasses(n, m);
    ClassWidthIsCeiling(range, k);
    var w := ClassWidth(range, k);
    var nc := ClassCount(range, w);
    var classes, chart := ClassLoop(s, vMin, vMax, w, nc);
    r := Ok(FrequencyTable(vMin, vMax, range, n, nc, w, classes, chart));
  }

  lemma FrequencyFailsExactlyWhenEmpty(numbers: seq<real>, m: Math)
    ensures FrequencyOf(numbers, m).Err? <==> |numbers| == 0
    ensures FrequencyOf(numbers, m).Err? ==> FrequencyOf(numbers, m).error == EmptyFrequencyData
  {
  }

  /** A sample without spread has a single class holding every value. */
  lemma SingleClassWithoutSpread(numbers: seq<real>, m: Math)
    requires 0 < |numbers|
    requires forall i :: 0 <= i < |numbers| ==> numbers[i] == numbers[0]
    ensures FrequencyOf(numbers, m).Ok?
    ensures FrequencyOf(numbers, m).value.numClasses == 1
    ensures FrequencyOf(numbers, m).value.classes
         == [FrequencyClass(Single(numbers[0]), numbers[0], |numbers|, 1.0, |numbers|)]
  {
    var s := Descriptive.SortAscending(numbers);
    Descriptive.SortAscendingEnds(numbers);
    assert s[0] in numbers && s[|s| - 1] in numbers;
  }

  lemma LastLowerBelowTop(range: real, w: real)
    requires 0.0 < range && 0.0 < w
    ensures (ClassCount(range, w) - 1) as real * w < range
  {
    var q := range / w;
    assert 0.0 < q;
    var c := ClassCount(range, w);
    assert (c - 1) as real < q;
    assert q * w == range;
    MulLess((c - 1) as real, q, w);
  }

  lemma MulLess(a: real, b: real, w: real)
    requires a < b && 0.0 < w
    ensures a * w < b * w
  {
  }

  /** The accumulated count before class i is the number of values below
      its lower bound. */
  lemma {:induction false} AccumulatedIsCountBelow(s: seq<real>, vMin: real, vMax: real, w: real, nc: nat, i: nat)
    requires 0.0 < w && 1 <= nc && i < nc
    requires forall j :: 0 <= j < |s| ==> vMin <= s[j]
    ensures Accumulated(s, vMin, vMax, w, nc, i) == CountBelow(s, Lower(vMin, w, i))
  {
    if i == 0 {
      CountBelowLeast(s, vMin);
    } else {
      AccumulatedIsCountBelow(s, vMin, vMax, w, nc, i - 1);
      LowerStep(vMin, w, i - 1);
      CountInSplit(s, Lower(vMin, w, i - 1), Lower(vMin, w, i));
    }
  }

  /** Every value is counted in exactly one class: the accumulated
      frequency of the last class is the sample size. */
  lemma AccumulatedReachesTotal(s: seq<real>, vMin: real, vMax: real, w: real, nc: nat)
    requires 0.0 < w && 1 <= nc
    requires forall j :: 0 <= j < |s| ==> vMin <= s[j] <= vMax
    ensures Accumulated(s, vMin, vMax, w, nc, nc) == |s|
  {
    AccumulatedIsCountBelow(s, vMin, vMax, w, nc, nc - 1);
    CountClosedTop(s, Lower(vMin, w, nc - 1), vMax);
  }

  lemma {:induction false} AccumulatedMonotone(s: seq<real>, vMin: real, vMax: real, w: real, nc: nat, i: nat, j: nat)
    requires i <= j
    ensures Accumulated(s, vMin, vMax, w, nc, i) <= Accumulated(s, vMin, vMax, w, nc, j)
    decreases j
  {
    if i < j {
      AccumulatedMonotone(s, vMin, vMax, w, nc, i, j - 1);
    }
  }

  /** The classes of width w from vMin: the first opens at vMin, adjacent
      classes share their bound, the last one is closed at vMax, and each
      class mark lies inside its class. */
  lemma ClassesLayout(s: seq<real>, vMin: real, vMax: real, w: real, nc: nat)
    requires 0 < |s| && 0.0 < w && 1 <= nc && Lower(vMin, w, nc - 1) <= vMax
    ensures var classes := ClassesOf(s, vMin, vMax, w, nc);
      && classes[0].interval.lo == vMin
      && classes[nc - 1].interval == Closed(Lower(vMin, w, nc - 1), vMax)
      && (forall i :: 0 <= i < nc - 1 ==>
            classes[i].interval == HalfOpen(classes[i].interval.lo, classes[i + 1].interval.lo)
            && classes[i].interval.lo + w == classes[i + 1].interval.lo)
      && (forall i :: 0 <= i < nc ==>
            classes[i].interval.lo <= classes[i].classMark <= classes[i].interval.hi)
  {
    var classes := ClassesOf(s, vMin, vMax, w, nc);
    forall i | 0 <= i < nc - 1
      ensures classes[i].interval == HalfOpen(classes[i].interval.lo, classes[i + 1].interval.lo)
      ensures classes[i].interval.lo + w == classes[i + 1].interval.lo
      ensures classes[i].interval.lo <= classes[i].classMark <= classes[i].interval.hi
    {
      LowerStep(vMin, w, i);
      assert classes[i] == ClassOf(s, vMin, vMax, w, nc, i);
      assert classes[i + 1] == ClassOf(s, vMin, vMax, w, nc, i + 1);
    }
  }

  /** Within a table with spread the classes have a whole-number width of
      at least 1, the least value opens the first class, adjacent classes
      share their bound, the last class is closed at the greatest value,
      which it does not start beyond, and each class mark lies inside its
      class. */
  lemma SpreadLayout(s: seq<real>, m: Math)
    requires 0 < |s| && s[0] < s[|s| - 1]
    ensures var t := SpreadTable(s, m);
      && 1.0 <= t.classWidth && IsInteger(t.classWidth)
      && 1 <= t.numClasses == |t.classes| == |t.combinedChartData|
      && t.classes[0].interval.lo == t.vMin
      && t.classes[t.numClasses - 1].interval == Closed(t.classes[t.numClasses - 1].interval.lo, t.vMax)
      && t.classes[t.numClasses - 1].interval.lo <= t.vMax
      && (forall i :: 0 <= i < t.numClasses - 1 ==>
            t.classes[i].interval == HalfOpen(t.classes[i].interval.lo, t.classes[i + 1].interval.lo)
            && t.classes[i].interval.lo + t.classWidth == t.classes[i + 1].interval.lo)
      && (forall i :: 0 <= i < t.numClasses ==>
            t.classes[i].interval.lo <= t.classes[i].classMark <= t.classes[i].interval.hi)
  {
    var range := s[|s| - 1] - s[0];
    var k := SturgesClasses(|s|, m);
    ClassWidthIsCeiling(range, k);
    var w := ClassWidth(range, k);
    LastLowerBelowTop(range, w);
    var nc := ClassCount(range, w);
    ClassesLayout(s, s[0], s[|s| - 1], w, nc);
  }

  /** Every value is counted in exactly one class: accumulated frequencies
      never decrease and the last one is the sample size; the chart's bar
      and polygon both carry each class's absolute frequency. */
  lemma SpreadCounts(s: seq<real>, m: Math)
    requires 0 < |s| && s[0] < s[|s| - 1]
    requires forall j :: 0 <= j < |s| ==> s[0] <= s[j] <= s[|s| - 1]
    ensures var t := SpreadTable(s, m);
      && t.classes[|t.classes| - 1].accumulatedFrequency == t.n == |s|
      && (forall i, j :: 0 <= i <= j < |t.classes| ==>
            t.classes[i].accumulatedFrequency <= t.classes[j].accumulatedFrequency)
      && (forall i :: 0 <= i < |t.classes| ==>
            t.combinedChartData[i].value == t.combinedChartData[i].polygonValue == t.classes[i].absoluteFrequency)
  {
    var vMin := s[0];
    var vMax := s[|s| - 1];
    var range := vMax - vMin;
    var k := SturgesClasses(|s|, m);
    ClassWidthIsCeiling(range, k);
    var w := ClassWidth(range, k);
    var nc := ClassCount(range, w);
    AccumulatedReachesTotal(s, vMin, vMax, w, nc);
    forall i, j | 1 <= i <= j <= nc
      ensures Accumulated(s, vMin, vMax, w, nc, i) <= Accumulated(s, vMin, vMax, w, nc, j)
    {
      AccumulatedMonotone(s, vMin, vMax, w, nc, i, j);
    }
  }

  /** The table of a sample with spread is the table of its ascending copy,
      whose ends are the least and the greatest value. */
  lemma FrequencyOfSpread(numbers: seq<real>, m: Math)
    requires FrequencyOf(numbers, m).Ok? && FrequencyOf(numbers, m).value.range != 0.0
    ensures var s := Descriptive.SortAscending(numbers);
      && 0 < |s| && s[0] < s[|s| - 1]
      && (forall j :: 0 <= j < |s| ==> s[0] <= s[j] <= s[|s| - 1])
      && FrequencyOf(numbers, m).value == SpreadTable(s, m)
      && (forall x :: x in numbers ==> s[0] <= x <= s[|s| - 1])
  {
    var s := Descriptive.SortAscending(numbers);
    Descriptive.SortAscendingEnds(numbers);
    forall j | 0 <= j < |s|
      ensures s[0] <= s[j] <= s[|s| - 1]
    {
    }
  }

  lemma SplitQuotient(a: real, b: real, n: real)
    requires 0.0 < n
    ensures a / n + b / n == (a + b) / n
  {
  }

  function RelativeFrequencies(classes: seq<FrequencyClass>): (r: seq<real>)
    ensures |r| == |classes|
  {
    seq(|classes|, i requires 0 <= i < |classes| => classes[i].relativeFrequency)
  }

  lemma {:induction false} RelativePrefix(s: seq<real>, vMin: real, vMax: real, w: real, nc: nat, i: nat)
    requires 0 < |s| && i <= nc
    ensures Sum(RelativeFrequencies(ClassesOf(s, vMin, vMax, w, nc))[..i])
         == Accumulated(s, vMin, vMax, w, nc, i) as real / |s| as real
  {
    var rel := RelativeFrequencies(ClassesOf(s, vMin, vMax, w, nc));
    if i == 0 {
      assert rel[..0] == [];
    } else {
      RelativePrefix(s, vMin, vMax, w, nc, i - 1);
      SumPrefixStep(rel, i - 1);
      SplitQuotient(Accumulated(s, vMin, vMax, w, nc, i - 1) as real,
        AbsoluteFrequency(s, vMin, vMax, w, nc, i - 1) as real, |s| as real);
    }
  }

  /** The relative frequencies of a table add up to 1. */
  lemma RelativeFrequenciesSumToOne(numbers: seq<real>, m: Math)
    requires FrequencyOf(numbers, m).Ok?
    ensures Sum(RelativeFrequencies(FrequencyOf(numbers, m).value.classes)) == 1.0
  {
    var t := FrequencyOf(numbers, m).value;
    if t.range == 0.0 {
      var rel := RelativeFrequencies(t.classes);
      assert rel == [1.0];
      assert rel[..0] == [];
    } else {
      FrequencyOfSpread(numbers, m);
      var s := Descriptive.SortAscending(numbers);
      SpreadRelative(s, m);
    }
  }

  lemma SpreadRelative(s: seq<real>, m: Math)
    requires 0 < |s| && s[0] < s[|s| - 1]
    requires forall j :: 0 <= j < |s| ==> s[0] <= s[j] <= s[|s| - 1]
    ensures Sum(RelativeFrequencies(SpreadTable(s, m).classes)) == 1.0
  {
    var vMin := s[0];
    var vMax := s[|s| - 1];
    var range := vMax - vMin;
    var k := SturgesClasses(|s|, m);
    ClassWidthIsCeiling(range, k);
    var w := ClassWidth(range, k);
    var nc := ClassCount(range, w);
    AccumulatedReachesTotal(s, vMin, vMax, w, nc);
    RelativePrefix(s, vMin, vMax, w, nc, nc);
    var rel := RelativeFrequencies(ClassesOf(s, vMin, vMax, w, nc));
    assert rel[..nc] == rel;
    SelfQuotient(|s| as real);
  }

  lemma SelfQuotient(x: real)
    requires x != 0.0
    ensures x / x == 1.0
  {
  }
}

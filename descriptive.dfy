/** The order statistics of services/StatService.ts: `mean`, `median`,
    `variance`, `stdDev` and `percentile`, all computed on a sorted copy
    (`[...data].sort((a, b) => a - b)`) where the source sorts. */
module Descriptive {
  import opened Wrappers
  import opened Numerics
  import Sorting

  predicate Leq(a: real, b: real) { a <= b }

  /** `[...data].sort((a, b) => a - b)`: an ascending permutation. */
  function SortAscending(data: seq<real>): (r: seq<real>)
    ensures |r| == |data| && multiset(r) == multiset(data)
    ensures forall i, j :: 0 <= i <= j < |r| ==> r[i] <= r[j]
  {
    assert Sorting.TotalPreorder(Leq);
    Sorting.SortSorted(data, Leq);
    Sorting.Sort(data, Leq)
  }

  /** The first element of the ascending copy is the least value of the
      data and the last one the greatest. */
  lemma SortAscendingEnds(data: seq<real>)
    requires |data| > 0
    ensures SortAscending(data)[0] in data
    ensures SortAscending(data)[|data| - 1] in data
    ensures forall x :: x in data ==> SortAscending(data)[0] <= x <= SortAscending(data)[|data| - 1]
  {
    var s := SortAscending(data);
    assert s[0] in multiset(s) && s[|s| - 1] in multiset(s);
    forall x | x in data
      ensures s[0] <= x <= s[|s| - 1]
    {
      assert x in multiset(data);
      var k :| 0 <= k < |s| && s[k] == x;
    }
  }

  /** `mean`: NaN for no data, otherwise the sum over the count. */
  function Mean(data: seq<real>): Option<real> {
    if |data| == 0 then None else Some(Sum(data) / |data| as real)
  }

  /** `median`: the middle element of the ascending copy for an odd count,
      the average of the two middle elements for an even count. */
  function Median(data: seq<real>): Option<real> {
    if |data| == 0 then None
    else
      var s := SortAscending(data);
      var mid := |s| / 2;
      if |s| % 2 != 0 then Some(s[mid]) else Some((s[mid - 1] + s[mid]) / 2.0)
  }

  function SquaredDeviations(data: seq<real>, center: real): (r: seq<real>)
    ensures |r| == |data|
    ensures forall i :: 0 <= i < |r| ==> r[i] == (data[i] - center) * (data[i] - center)
  {
    seq(|data|, i requires 0 <= i < |data| => (data[i] - center) * (data[i] - center))
  }

  /** `variance`: the sample variance (denominator N - 1), NaN below two
      values. */
  function Variance(data: seq<real>, center: real): Option<real> {
    if |data| < 2 then None
    else Some(Sum(SquaredDeviations(data, center)) / (|data| - 1) as real)
  }

  lemma VarianceNonNegative(data: seq<real>, center: real)
    ensures Variance(data, center).Some? <==> |data| >= 2
    ensures Variance(data, center).Some? ==> 0.0 <= Variance(data, center).value
  {
    var sq := SquaredDeviations(data, center);
    forall i | 0 <= i < |sq|
      ensures 0.0 <= sq[i]
    {
      var d := data[i] - center;
      assert sq[i] == d * d;
    }
    SumNonNegative(sq);
  }

  /** `stdDev`: `Math.sqrt` of the variance; NaN stays NaN. */
  function StdDev(m: Math, variance: Option<real>): Option<real> {
    match variance
    case None => None
    case Some(v) => if v < 0.0 then None else Some(m.sqrt(v))
  }

  lemma ScaleWithin(f: real, x: real)
    requires 0.0 <= f <= 1.0 && 0.0 <= x
    ensures 0.0 <= f * x <= x
  {
  }

  lemma ProductNonNegative(a: real, b: real)
    requires 0.0 <= a && 0.0 <= b
    ensures 0.0 <= a * b
  {
  }

  /** The fractional index p/100 * (N - 1) at which `percentile` reads. */
  function Rank(p: real, n: nat): (r: real)
    requires 0.0 <= p <= 100.0 && 1 <= n
    ensures 0.0 <= r <= (n - 1) as real
  {
    var f, x := p / 100.0, (n - 1) as real;
    ScaleWithin(f, x);
    f * x
  }

  lemma RankMonotone(p1: real, p2: real, n: nat)
    requires 0.0 <= p1 <= p2 <= 100.0 && 1 <= n
    ensures Rank(p1, n) <= Rank(p2, n)
  {
    ProductNonNegative(p2 / 100.0 - p1 / 100.0, (n - 1) as real);
    assert (p2 / 100.0) * (n - 1) as real - (p1 / 100.0) * (n - 1) as real
        == (p2 / 100.0 - p1 / 100.0) * (n - 1) as real;
  }

  /** The linear interpolation of `percentile` at a fractional index of an
      ascending sequence: the element itself at a whole index, otherwise
      a point between the elements at the floor and the ceiling. */
  function Interpolate(s: seq<real>, index: real): real
    requires 0.0 <= index <= (|s| - 1) as real
  {
    if IsInteger(index) then s[Floor(index)]
    else
      var lower := Floor(index);
      var upper := Ceil(index);
      s[lower] + (index - lower as real) * (s[upper] - s[lower])
  }

  /** `percentile(data, p)`: NaN for no data or p outside [0, 100];
      otherwise the interpolated value at index p/100 * (N - 1) of the
      ascending copy.  The source's two further guards (`lower === upper`
      and an undefined neighbour) cannot fire once the index is not a
      whole number and lies within [0, N - 1], so they are not written. */
  function Percentile(data: seq<real>, p: real): Option<real> {
    if |data| == 0 || p < 0.0 || p > 100.0 then None
    else Some(Interpolate(SortAscending(data), Rank(p, |data|)))
  }

  /** An interpolated value lies between its two neighbours. */
  lemma InterpolateBracket(s: seq<real>, index: real)
    requires 0.0 <= index <= (|s| - 1) as real
    requires forall i, j :: 0 <= i <= j < |s| ==> s[i] <= s[j]
    ensures s[Floor(index)] <= Interpolate(s, index) <= s[Ceil(index)]
  {
    if !IsInteger(index) {
      var lower, upper := Floor(index), Ceil(index);
      var f := index - lower as real;
      var d := s[upper] - s[lower];
      assert Interpolate(s, index) == s[lower] + f * d;
      assert 0.0 <= f <= 1.0;
      assert 0.0 <= d;
      ScaleWithin(f, d);
    }
  }

  /** Interpolation is monotone in the index. */
  lemma InterpolateMonotone(s: seq<real>, i1: real, i2: real)
    requires 0.0 <= i1 <= i2 <= (|s| - 1) as real
    requires forall i, j :: 0 <= i <= j < |s| ==> s[i] <= s[j]
    ensures Interpolate(s, i1) <= Interpolate(s, i2)
  {
    InterpolateBracket(s, i1);
    InterpolateBracket(s, i2);
    if Floor(i1) == Floor(i2) && !IsInteger(i1) && !IsInteger(i2) {
      var lower, upper := Floor(i1), Ceil(i1);
      assert Ceil(i2) == upper;
      var d := s[upper] - s[lower];
      var f1, f2 := i1 - lower as real, i2 - lower as real;
      assert Interpolate(s, i1) == s[lower] + f1 * d;
      assert Interpolate(s, i2) == s[lower] + f2 * d;
      ProductNonNegative(f2 - f1, d);
      assert f2 * d - f1 * d == (f2 - f1) * d;
    } else {
      assert Ceil(i1) <= Floor(i2);
    }
  }

  /** The percentile grows with p, so for p1 <= p2 the p1-th percentile is
      at most the p2-th; in particular min <= Q1 <= median <= Q3 <= max. */
  lemma PercentileMonotone(data: seq<real>, p1: real, p2: real)
    requires |data| > 0 && 0.0 <= p1 <= p2 <= 100.0
    ensures Percentile(data, p1).Some? && Percentile(data, p2).Some?
    ensures Percentile(data, p1).value <= Percentile(data, p2).value
  {
    RankMonotone(p1, p2, |data|);
    InterpolateMonotone(SortAscending(data), Rank(p1, |data|), Rank(p2, |data|));
  }

  /** Every percentile lies between the least and the greatest value. */
  lemma PercentileWithinRange(data: seq<real>, p: real)
    requires |data| > 0 && 0.0 <= p <= 100.0
    ensures Percentile(data, p).Some?
    ensures SortAscending(data)[0] <= Percentile(data, p).value <= SortAscending(data)[|data| - 1]
  {
    var s := SortAscending(data);
    PercentileMonotone(data, 0.0, p);
    PercentileMonotone(data, p, 100.0);
    assert Rank(0.0, |data|) == 0.0;
    assert Interpolate(s, 0.0) == s[0];
    assert Rank(100.0, |data|) == (|data| - 1) as real;
    assert Interpolate(s, (|data| - 1) as real) == s[|data| - 1];
  }

  /** At the middle rank of an odd count the index is the whole middle position. */
  lemma MiddleRankOdd(s: seq<real>)
    requires |s| % 2 == 1
    ensures Interpolate(s, Rank(50.0, |s|)) == s[|s| / 2]
  {
    var index := Rank(50.0, |s|);
    assert index == ((|s| - 1) / 2) as real;
    assert Floor(index) == |s| / 2;
  }

  /** At the middle rank of an even count the index falls halfway between
      the two middle positions, so interpolation averages them. */
  lemma MiddleRankEven(s: seq<real>)
    requires |s| % 2 == 0 && |s| > 0
    ensures Interpolate(s, Rank(50.0, |s|)) == (s[|s| / 2 - 1] + s[|s| / 2]) / 2.0
  {
    var m := |s| / 2;
    var index := Rank(50.0, |s|);
    assert index == m as real - 0.5;
    assert Floor(index) == m - 1;
    assert Ceil(index) == m;
    assert index - (m - 1) as real == 0.5;
  }

  /** The 50th percentile is the median, as the formula table of the
      calculator states ("Mediana (Q2) = Percentil 50"). */
  lemma PercentileFiftyIsMedian(data: seq<real>)
    ensures Percentile(data, 50.0) == Median(data)
  {
    if |data| > 0 {
      var s := SortAscending(data);
      if |s| % 2 == 1 {
        MiddleRankOdd(s);
      } else {
        MiddleRankEven(s);
      }
    }
  }
}

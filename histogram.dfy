/** The histogram of `calculateDescriptiveStats` in services/StatService.ts:
    at most ten equal buckets of width at least 0.1 starting at the least
    value, counted in a fixed-size array. */
module Histogram {
  import opened Numerics
  import opened Charts

  const HISTOGRAM_BUCKET_COUNT: nat := 10
  const MIN_BUCKET_SIZE: real := 0.1

  /** Where the buckets start, how wide they are and how many there are. */
  datatype Layout = Layout(lo: real, size: real, count: nat)

  function Start(g: Layout, b: nat): real {
    g.lo + b as real * g.size
  }

  /** `Math.min(HISTOGRAM_BUCKET_COUNT, count)` buckets of width
      `Math.max(0.1, range / numBuckets)`: together they cover [lo, hi]. */
  function LayoutFor(lo: real, hi: real, n: nat): (g: Layout)
    requires lo < hi && 1 <= n
    ensures g.lo == lo && 1 <= g.count <= HISTOGRAM_BUCKET_COUNT && g.count <= n
    ensures MIN_BUCKET_SIZE <= g.size && hi - lo <= g.count as real * g.size
  {
    var nb := if HISTOGRAM_BUCKET_COUNT <= n then HISTOGRAM_BUCKET_COUNT else n;
    var size := Max(MIN_BUCKET_SIZE, (hi - lo) / nb as real);
    CoverRange(hi - lo, nb as real, size);
    Layout(lo, size, nb)
  }

  lemma CoverRange(range: real, n: real, size: real)
    requires 0.0 < n && range / n <= size
    ensures range <= n * size
  {
    assert n * (range / n) == range;
  }

  function Clamp(b: int, count: nat): (r: nat)
    requires 1 <= count
    ensures r < count
    ensures 0 <= b < count ==> r == b
  {
    if b < 0 then 0 else if b > count - 1 then count - 1 else b
  }

  /** The bucket index as the source computes it: the floor of the offset
      over the width, except that the greatest value is forced into the last
      bucket, then clamped into range. */
  function SourceBucket(g: Layout, hi: real, x: real): (r: nat)
    requires 1 <= g.count && 0.0 < g.size
    ensures r < g.count
  {
    var b := if x == hi then g.count - 1 else Floor((x - g.lo) / g.size);
    Clamp(b, g.count)
  }

  /** The bucket whose interval holds the value: the floor of the offset
      over the width, clamped into range (the clamp only matters for the
      greatest value when it sits exactly on the last bucket's end). */
  function Bucket(g: Layout, x: real): (r: nat)
    requires 1 <= g.count && 0.0 < g.size
    ensures r < g.count
  {
    Clamp(Floor((x - g.lo) / g.size), g.count)
  }

  lemma DivBounds(q: real, s: real, k: int)
    requires 0.0 < s && k as real <= q / s < k as real + 1.0
    ensures (k as real) * s <= q && q < (k as real) * s + s
  {
    var f, kk := q / s, k as real;
    assert q == f * s;
    MulLess(f, kk + 1.0, s);
    assert (kk + 1.0) * s == kk * s + s;
    assert f * s < kk * s + s;
    MulLessEq(kk, f, s);
    assert q < kk * s + s;
    assert kk * s + s == (k as real) * s + s;
  }

  lemma MulLess(a: real, b: real, s: real)
    requires a < b && 0.0 < s
    ensures a * s < b * s
  {
    assert b * s - a * s == (b - a) * s;
  }

  lemma MulLessEq(a: real, b: real, s: real)
    requires a <= b && 0.0 < s
    ensures a * s <= b * s
  {
    assert b * s - a * s == (b - a) * s;
  }

  /** Every value of [lo, hi] falls in the bucket whose interval holds it:
      at or after the bucket's start, and before its end, or at the end of
      the last bucket. */
  lemma BucketHoldsValue(g: Layout, hi: real, x: real)
    requires 1 <= g.count && 0.0 < g.size && hi - g.lo <= g.count as real * g.size
    requires g.lo <= x <= hi
    ensures Start(g, Bucket(g, x)) <= x
    ensures x < Start(g, Bucket(g, x) + 1) || (Bucket(g, x) == g.count - 1 && x <= Start(g, g.count))
  {
    var q, s := x - g.lo, g.size;
    var k := Floor(q / s);
    QuotientNonNegative(q, s);
    DivBounds(q, s, k);
    var b := Bucket(g, x);
    if k < g.count {
      assert b == k;
      NextStart(g, b);
    } else {
      assert b == g.count - 1;
      MulLessEq(b as real, k as real, s);
    }
  }

  lemma NextStart(g: Layout, b: nat)
    ensures Start(g, b + 1) == Start(g, b) + g.size
  {
    assert (b + 1) as real * g.size == b as real * g.size + g.size;
  }

  /** A concrete case of the source's rule going wrong: for the data
      [0, 0.05] the width is raised to 0.1, so the two buckets are
      [0, 0.1] and [0.1, 0.2]; the greatest value 0.05 is forced into the
      second one although it lies in the first. */
  lemma SourceBucketMisplacesMaximum()
    ensures var g := LayoutFor(0.0, 0.05, 2);
      && g == Layout(0.0, 0.1, 2)
      && SourceBucket(g, 0.05, 0.05) == 1
      && 0.05 < Start(g, 1)
      && Bucket(g, 0.05) == 0
  {
    var g := LayoutFor(0.0, 0.05, 2);
    assert g.size == 0.1;
    assert Floor(0.05 / 0.1) == 0;
  }

  /** The rule that picks a value's bucket: the source's, which forces the
      greatest value into the last bucket, or the corrected one. */
  datatype Rule = AsWritten | Corrected

  function BucketBy(rule: Rule, g: Layout, hi: real, x: real): (r: nat)
    requires 1 <= g.count && 0.0 < g.size
    ensures r < g.count
  {
    match rule
    case AsWritten => SourceBucket(g, hi, x)
    case Corrected => Bucket(g, x)
  }

  /** `buckets[bucketIndex]++` for every value: the tallies after a prefix
      of the data, `hi` being the greatest value. */
  function Tally(rule: Rule, g: Layout, hi: real, data: seq<real>): (t: seq<nat>)
    requires 1 <= g.count && 0.0 < g.size
    ensures |t| == g.count
  {
    if data == [] then seq(g.count, _ => 0)
    else
      var t := Tally(rule, g, hi, data[..|data| - 1]);
      var b := BucketBy(rule, g, hi, data[|data| - 1]);
      t[b := t[b] + 1]
  }

  lemma {:induction false} SumNatIncrement(s: seq<nat>, i: nat)
    requires i < |s|
    ensures SumNat(s[i := s[i] + 1]) == SumNat(s) + 1
  {
    var u := s[i := s[i] + 1];
    assert u[..|u| - 1] == if i < |s| - 1 then s[..|s| - 1][i := s[i] + 1] else s[..|s| - 1];
    if i < |s| - 1 {
      SumNatIncrement(s[..|s| - 1], i);
    }
  }

  lemma {:induction false} SumNatZeros(n: nat)
    ensures SumNat(seq(n, _ => 0)) == 0
  {
    if n > 0 {
      assert seq(n, _ => 0)[..n - 1] == seq(n - 1, _ => 0);
      SumNatZeros(n - 1);
    }
  }

  /** The buckets count every value exactly once, under either rule. */
  lemma {:induction false} TallyCountsEveryValue(rule: Rule, g: Layout, hi: real, data: seq<real>)
    requires 1 <= g.count && 0.0 < g.size
    ensures SumNat(Tally(rule, g, hi, data)) == |data|
  {
    if data == [] {
      SumNatZeros(g.count);
    } else {
      TallyCountsEveryValue(rule, g, hi, data[..|data| - 1]);
      SumNatIncrement(Tally(rule, g, hi, data[..|data| - 1]), BucketBy(rule, g, hi, data[|data| - 1]));
    }
  }

  /** The chart points: one `start-end` label per bucket with its tally. */
  function Points(g: Layout, t: seq<nat>): (r: seq<ChartPoint>)
    requires |t| == g.count
    ensures |r| == g.count
    ensures forall b :: 0 <= b < |r| ==> r[b] == ChartPoint(Between(Start(g, b), Start(g, b) + g.size), t[b] as real)
  {
    seq(g.count, b requires 0 <= b < g.count => ChartPoint(Between(Start(g, b), Start(g, b) + g.size), t[b] as real))
  }

  /** A histogram of the data, whose least and greatest values are `lo` and
      `hi`: buckets when they differ, a single point holding the count when
      they are equal. */
  function HistogramBy(rule: Rule, data: seq<real>, lo: real, hi: real): seq<ChartPoint>
    requires |data| >= 1 && lo <= hi
  {
    if lo == hi then [ChartPoint(At(lo), |data| as real)]
    else
      var g := LayoutFor(lo, hi, |data|);
      Points(g, Tally(rule, g, hi, data))
  }

  /** The histogram the source draws, the greatest value forced into the
      last bucket. */
  function HistogramOf(data: seq<real>, lo: real, hi: real): seq<ChartPoint>
    requires |data| >= 1 && lo <= hi
  {
    HistogramBy(AsWritten, data, lo, hi)
  }

  /** The histogram with every value in the bucket whose interval holds it. */
  function CorrectedHistogramOf(data: seq<real>, lo: real, hi: real): seq<ChartPoint>
    requires |data| >= 1 && lo <= hi
  {
    HistogramBy(Corrected, data, lo, hi)
  }

  /** The whole histograms of the data [0, 0.05]: the source draws one
      value in each bucket, the corrected rule draws both in the first. */
  lemma SourceHistogramMisplacesMaximum()
    ensures var h := HistogramOf([0.0, 0.05], 0.0, 0.05);
      |h| == 2 && h[0].value == 1.0 && h[1].value == 1.0
    ensures var h := CorrectedHistogramOf([0.0, 0.05], 0.0, 0.05);
      |h| == 2 && h[0].value == 2.0 && h[1].value == 0.0
  {
    var data := [0.0, 0.05];
    var g := LayoutFor(0.0, 0.05, 2);
    assert g == Layout(0.0, 0.1, 2);
    assert Floor(0.0 / 0.1) == 0 && Floor(0.05 / 0.1) == 0;
    assert data[..1] == [0.0] && data[..1][..0] == [];
    assert Tally(AsWritten, g, 0.05, data) == [1, 1];
    assert Tally(Corrected, g, 0.05, data) == [2, 0];
  }

  /** The sum of the bar heights. */
  function Total(points: seq<ChartPoint>): real {
    if points == [] then 0.0 else Total(points[..|points| - 1]) + points[|points| - 1].value
  }

  lemma {:induction false} TotalOfPoints(g: Layout, t: seq<nat>, k: nat)
    requires |t| == g.count && k <= g.count
    ensures Total(Points(g, t)[..k]) == SumNat(t[..k]) as real
  {
    if k > 0 {
      assert Points(g, t)[..k][..k - 1] == Points(g, t)[..k - 1];
      assert t[..k][..k - 1] == t[..k - 1];
      TotalOfPoints(g, t, k - 1);
    }
  }

  /** The bars of the histogram add up to the number of values, under either
      rule. */
  lemma HistogramTotal(rule: Rule, data: seq<real>, lo: real, hi: real)
    requires |data| >= 1 && lo <= hi
    ensures Total(HistogramBy(rule, data, lo, hi)) == |data| as real
  {
    if lo != hi {
      var g := LayoutFor(lo, hi, |data|);
      var t := Tally(rule, g, hi, data);
      TallyCountsEveryValue(rule, g, hi, data);
      TotalOfPoints(g, t, g.count);
      assert Points(g, t)[..g.count] == Points(g, t);
      assert t[..g.count] == t;
    } else {
      assert [ChartPoint(At(lo), |data| as real)][..0] == [];
    }
  }

  /** The counting loop of the source over a fixed-size array of tallies,
      `hi` being the greatest value. */
  method CountBuckets(g: Layout, hi: real, data: seq<real>) returns (buckets: array<nat>)
    requires 1 <= g.count && 0.0 < g.size
    ensures fresh(buckets)
    ensures buckets[..] == Tally(AsWritten, g, hi, data)
  {
    buckets := new nat[g.count](_ => 0);
    assert buckets[..] == Tally(AsWritten, g, hi, data[..0]);
    for i := 0 to |data|
      invariant buckets[..] == Tally(AsWritten, g, hi, data[..i])
    {
      assert data[..i + 1][..i] == data[..i];
      var index := Floor((data[i] - g.lo) / g.size);
      if data[i] == hi {
        index := g.count - 1;
      }
      var b := Clamp(index, g.count);
      assert b == BucketBy(AsWritten, g, hi, data[i]);
      buckets[b] := buckets[b] + 1;
    }
    assert data[..|data|] == data;
  }

  /** The histogram of the source: the counting loop, then one labelled
      point per bucket. */
  method Histogram(data: seq<real>, lo: real, hi: real) returns (points: seq<ChartPoint>)
    requires |data| >= 1 && lo <= hi
    ensures points == HistogramOf(data, lo, hi)
  {
    if lo == hi {
      return [ChartPoint(At(lo), |data| as real)];
    }
    var g := LayoutFor(lo, hi, |data|);
    var buckets := CountBuckets(g, hi, data);
    points := LabelBuckets(g, buckets);
  }

  /** The labelling loop of the source: one point per bucket, its interval
      and its count. */
  method LabelBuckets(g: Layout, buckets: array<nat>) returns (points: seq<ChartPoint>)
    requires buckets.Length == g.count
    ensures points == Points(g, buckets[..])
  {
    ghost var all := Points(g, buckets[..]);
    points := [];
    for b := 0 to g.count
      invariant points == all[..b]
    {
      var bucketStart := g.lo + b as real * g.size;
      var point := ChartPoint(Between(bucketStart, bucketStart + g.size), buckets[b] as real);
      assert buckets[..][b] == buckets[b] && Start(g, b) == bucketStart;
      assert all[b] == point;
      assert all[..b + 1] == all[..b] + [point];
      points := points + [point];
    }
    assert all[..g.count] == all;
  }
}

/** `binomialPMF` and `calculateBinomialDistribution` of
    services/StatService.ts: the probability of k successes in n trials, a
    chart of the first probabilities and, for a query point x, the exact and
    the two cumulative probabilities. */
module Binomial {
  import opened Wrappers
  import opened Numerics
  import opened Charts
  import Combinatorics

  /** The chart shows k = 0..50 at most, and marks a cut-off up to n = 1000. */
  const CHART_MAX_K: nat := 50
  const CHART_MARKER_LIMIT: nat := 1000

  // ----- the binomial theorem, the reference for the cumulative sums -----

  /** C(n, k) p^k q^(n-k). */
  function Term(n: nat, k: nat, p: real, q: real): real
    requires k <= n
  {
    Combinatorics.Choose(n, k) as real * Pow(p, k) * Pow(q, n - k)
  }

  /** The sum of Term(n, k) over k < j. */
  function TermSum(n: nat, j: nat, p: real, q: real): real
    requires j <= n + 1
  {
    if j == 0 then 0.0 else TermSum(n, j - 1, p, q) + Term(n, j - 1, p, q)
  }

  lemma TermArith(c1: real, c2: real, p: real, q: real, pk: real, qk: real)
    ensures (c1 + c2) * (p * pk) * (q * qk) == p * (c1 * pk * (q * qk)) + q * (c2 * (p * pk) * qk)
  {
  }

  /** Pascal's rule carried to the terms. */
  lemma TermStep(n: nat, k: nat, p: real, q: real)
    requires 1 <= k <= n
    ensures Term(n + 1, k, p, q) == p * Term(n, k - 1, p, q) + q * Term(n, k, p, q)
  {
    var c1 := Combinatorics.Choose(n, k - 1) as real;
    var c2 := Combinatorics.Choose(n, k) as real;
    assert Combinatorics.Choose(n + 1, k) as real == c1 + c2;
    assert Pow(p, k) == p * Pow(p, k - 1);
    assert Pow(q, n + 1 - k) == q * Pow(q, n - k);
    TermArith(c1, c2, p, q, Pow(p, k - 1), Pow(q, n - k));
  }

  /** The sum of t(n, k) over k < j, for any table of terms t. */
  function RowSum(t: (nat, nat) -> real, n: nat, j: nat): real {
    if j == 0 then 0.0 else RowSum(t, n, j - 1) + t(n, j - 1)
  }

  /** Pascal's rule for the k-th term of row n + 1 of a table. */
  predicate PascalAt(t: (nat, nat) -> real, n: nat, k: nat, p: real, q: real)
    requires 1 <= k
  {
    t(n + 1, k) == p * t(n, k - 1) + q * t(n, k)
  }

  /** Row n + 1 of the table is built from row n as (p + q) times it is:
      the first term by q, the last by p, the others by Pascal's rule. */
  predicate PascalRow(t: (nat, nat) -> real, n: nat, p: real, q: real) {
    && t(n + 1, 0) == q * t(n, 0)
    && t(n + 1, n + 1) == p * t(n, n)
    && forall k :: 1 <= k <= n ==> PascalAt(t, n, k, p, q)
  }

  /** Pascal's rule on the terms of a table carries over to its row sums. */
  lemma {:induction false} RowSumStep(t: (nat, nat) -> real, n: nat, j: nat, p: real, q: real)
    requires 1 <= j <= n + 1
    requires PascalRow(t, n, p, q)
    ensures RowSum(t, n + 1, j) == p * RowSum(t, n, j - 1) + q * RowSum(t, n, j)
  {
    if j > 1 {
      RowSumStep(t, n, j - 1, p, q);
      assert PascalAt(t, n, j - 1, p, q);
      Regroup(RowSum(t, n + 1, j), RowSum(t, n + 1, j - 1), t(n + 1, j - 1),
              RowSum(t, n, j - 2), t(n, j - 2), RowSum(t, n, j - 1), t(n, j - 1),
              RowSum(t, n, j - 1), RowSum(t, n, j), p, q);
    }
  }

  /** Two sums, each split into a p-part and a q-part, regrouped. */
  lemma Regroup(total: real, a: real, b: real, s1: real, t1: real, s2: real, t2: real, x: real, y: real, p: real, q: real)
    requires total == a + b && a == p * s1 + q * s2 && b == p * t1 + q * t2
    requires x == s1 + t1 && y == s2 + t2
    ensures total == p * x + q * y
  {
  }

  lemma Factor(total: real, s: real, power: real, p: real, q: real)
    requires total == p * s + q * s && s == power
    ensures total == (p + q) * power
  {
  }

  /** A table whose row 0 is the single term 1 and whose every row is built
      from the one before by Pascal's rule has (p + q)^n as its n-th row sum. */
  lemma {:induction false} RowSumIsPower(t: (nat, nat) -> real, n: nat, p: real, q: real)
    requires t(0, 0) == 1.0
    requires forall m: nat :: m < n ==> PascalRow(t, m, p, q)
    ensures RowSum(t, n, n + 1) == Pow(p + q, n)
  {
    if n > 0 {
      RowSumIsPower(t, n - 1, p, q);
      assert PascalRow(t, n - 1, p, q);
      RowSumStep(t, n - 1, n, p, q);
      var s := RowSum(t, n - 1, n);
      Regroup(RowSum(t, n, n + 1), RowSum(t, n, n), t(n, n),
              RowSum(t, n - 1, n - 1), t(n - 1, n - 1), s, 0.0, s, s, p, q);
      Factor(RowSum(t, n, n + 1), s, Pow(p + q, n - 1), p, q);
    }
  }

  /** The binomial terms as a table. */
  function Terms(p: real, q: real): (nat, nat) -> real {
    (n: nat, k: nat) => if k <= n then Term(n, k, p, q) else 0.0
  }

  lemma {:induction false} TermSumIsRowSum(n: nat, j: nat, p: real, q: real)
    requires j <= n + 1
    ensures TermSum(n, j, p, q) == RowSum(Terms(p, q), n, j)
  {
    if j > 0 {
      TermSumIsRowSum(n, j - 1, p, q);
    }
  }

  /** The first term of a row is q times the first of the row before. */
  lemma TermFirst(n: nat, p: real, q: real)
    ensures Term(n + 1, 0, p, q) == q * Term(n, 0, p, q)
  {
    var qn := Pow(q, n);
    assert Term(n, 0, p, q) == qn by {
      assert Combinatorics.Choose(n, 0) == 1;
    }
    assert Term(n + 1, 0, p, q) == q * qn by {
      assert Combinatorics.Choose(n + 1, 0) == 1;
    }
  }

  /** The last term of a row is p times the last of the row before. */
  lemma TermLast(n: nat, p: real, q: real)
    ensures Term(n + 1, n + 1, p, q) == p * Term(n, n, p, q)
  {
    var pn := Pow(p, n);
    assert Term(n, n, p, q) == pn by {
      assert Combinatorics.Choose(n, n) == 1;
    }
    assert Term(n + 1, n + 1, p, q) == p * pn by {
      assert Combinatorics.Choose(n + 1, n + 1) == 1;
    }
  }

  /** The binomial terms obey Pascal's rule, the first and last included. */
  lemma {:induction false} TermsArePascal(n: nat, p: real, q: real)
    ensures PascalRow(Terms(p, q), n, p, q)
  {
    TermFirst(n, p, q);
    TermLast(n, p, q);
    forall k | 1 <= k <= n
      ensures PascalAt(Terms(p, q), n, k, p, q)
    {
      TermStep(n, k, p, q);
    }
  }

  /** The terms of (p + q)^n add up to (p + q)^n. */
  lemma BinomialTheorem(n: nat, p: real, q: real)
    ensures TermSum(n, n + 1, p, q) == Pow(p + q, n)
  {
    forall m: nat | m < n
      ensures PascalRow(Terms(p, q), m, p, q)
    {
      TermsArePascal(m, p, q);
    }
    RowSumIsPower(Terms(p, q), n, p, q);
    TermSumIsRowSum(n, n + 1, p, q);
  }

  lemma {:induction false} PowOne(n: nat)
    ensures Pow(1.0, n) == 1.0
  {
    if n > 0 {
      PowOne(n - 1);
    }
  }

  lemma TermNonNegative(n: nat, k: nat, p: real)
    requires k <= n && 0.0 <= p <= 1.0
    ensures 0.0 <= Term(n, k, p, 1.0 - p)
  {
    PowNonNegative(p, k);
    PowNonNegative(1.0 - p, n - k);
    var c := Combinatorics.Choose(n, k) as real;
    assert 0.0 <= c * Pow(p, k);
  }

  lemma {:induction false} TermSumMonotone(n: nat, i: nat, j: nat, p: real)
    requires i <= j <= n + 1 && 0.0 <= p <= 1.0
    ensures TermSum(n, i, p, 1.0 - p) <= TermSum(n, j, p, 1.0 - p)
    decreases j
  {
    if i < j {
      TermSumMonotone(n, i, j - 1, p);
      TermNonNegative(n, j - 1, p);
    }
  }

  // ----- the service -----

  /** `binomialPMF(k, n, p)`: NaN when p is not a probability. */
  function Pmf(k: nat, n: nat, p: real, m: Math): Option<real>
    requires k <= n
  {
    if p < 0.0 || p > 1.0 then None
    else Some(Combinatorics.CombinationsOf(n, k, m) * Pow(p, k) * Pow(1.0 - p, n - k))
  }

  /** The running total `0 + pmf(lo) + ... + pmf(hi - 1)` of the source's
      cumulative loops. */
  function Cumulative(lo: nat, hi: nat, n: nat, p: real, m: Math): Option<real>
    requires lo <= hi <= n + 1
    decreases hi
  {
    if hi == lo then Some(0.0) else Plus(Cumulative(lo, hi - 1, n, p, m), Pmf(hi - 1, n, p, m))
  }

  /** `BinomialResultsContent`; an absent optional field is `None`, and a
      present one holds a number that may be NaN. */
  datatype BinomialResult = BinomialResult(
    mean: real,
    variance: real,
    stdDev: Option<real>,
    pmfData: seq<ProbabilityPoint>,
    exactProbability: Option<Option<real>>,
    lessThanOrEqualProbability: Option<Option<real>>,
    greaterThanOrEqualProbability: Option<Option<real>>)

  function ChartTop(n: nat): nat {
    if n < CHART_MAX_K then n else CHART_MAX_K
  }

  function ChartOf(n: nat, p: real, m: Math): seq<ProbabilityPoint> {
    var top := ChartTop(n);
    seq(top + 1, k requires 0 <= k <= top => ProbabilityPoint(At(k as real), Pmf(k, n, p, m)))
    + (if n > top && n <= CHART_MARKER_LIMIT then [ProbabilityPoint(Truncated(n), Some(0.0))] else [])
  }

  /** The query is answered only for a given x with 0 <= x <= n. */
  predicate Asked(n: nat, x: Option<int>) {
    x.Some? && 0 <= x.value <= n
  }

  function BinomialOf(n: nat, p: real, x: Option<int>, m: Math): BinomialResult {
    var variance := n as real * p * (1.0 - p);
    BinomialResult(
      n as real * p,
      variance,
      SqrtOf(m, variance),
      ChartOf(n, p, m),
      if Asked(n, x) then Some(Pmf(x.value, n, p, m)) else None,
      if Asked(n, x) then Some(Cumulative(0, x.value + 1, n, p, m)) else None,
      if Asked(n, x) then Some(Cumulative(x.value, n + 1, n, p, m)) else None)
  }

  /** The running total from lo up to hi, as the source's loops add it. */
  method SumPmf(lo: nat, hi: nat, n: nat, p: real, m: Math) returns (total: Option<real>)
    requires lo <= hi <= n + 1
    ensures total == Cumulative(lo, hi, n, p, m)
  {
    total := Some(0.0);
    for k := lo to hi
      invariant total == Cumulative(lo, k, n, p, m)
    {
      total := Plus(total, Pmf(k, n, p, m));
    }
  }

  /** The chart loop: a point per k up to the cut-off, then the marker. */
  method ChartPoints(n: nat, p: real, m: Math) returns (pmfData: seq<ProbabilityPoint>)
    ensures pmfData == ChartOf(n, p, m)
  {
    pmfData := [];
    var top := if n < CHART_MAX_K then n else CHART_MAX_K;
    for k := 0 to top + 1
      invariant |pmfData| == k
      invariant forall j :: 0 <= j < k ==> pmfData[j] == ProbabilityPoint(At(j as real), Pmf(j, n, p, m))
    {
      pmfData := pmfData + [ProbabilityPoint(At(k as real), Pmf(k, n, p, m))];
    }
    if n > top && n <= CHART_MARKER_LIMIT {
      pmfData := pmfData + [ProbabilityPoint(Truncated(n), Some(0.0))];
    }
  }

  method CalculateBinomialDistribution(n: nat, p: real, x: Option<int>, m: Math) returns (r: BinomialResult)
    ensures r == BinomialOf(n, p, x, m)
  {
    var mean := n as real * p;
    var variance := n as real * p * (1.0 - p);
    var stdDev := SqrtOf(m, variance);
    var pmfData := ChartPoints(n, p, m);
    var exact: Option<Option<real>> := None;
    var lessOrEqual: Option<Option<real>> := None;
    var greaterOrEqual: Option<Option<real>> := None;
    if x.Some? && 0 <= x.value <= n {
      exact := Some(Pmf(x.value, n, p, m));
      var le := SumPmf(0, x.value + 1, n, p, m);
      var ge := SumPmf(x.value, n + 1, n, p, m);
      lessOrEqual, greaterOrEqual := Some(le), Some(ge);
    }
    r := BinomialResult(mean, variance, stdDev, pmfData, exact, lessOrEqual, greaterOrEqual);
  }

  // ----- what the result means -----

  /** For n <= 30 the pmf is the binomial term, NaN exactly when p is not a
      probability. */
  lemma PmfIsBinomialTerm(k: nat, n: nat, p: real, m: Math)
    requires k <= n <= Combinatorics.EXACT_COMBINATIONS_LIMIT
    ensures Pmf(k, n, p, m).None? <==> p < 0.0 || p > 1.0
    ensures Pmf(k, n, p, m).Some? ==>
      Pmf(k, n, p, m).value == Term(n, k, p, 1.0 - p) && 0.0 <= Pmf(k, n, p, m).value
  {
    if 0.0 <= p <= 1.0 {
      PmfTerm(k, n, p, m);
      TermNonNegative(n, k, p);
    } else {
      assert Pmf(k, n, p, m) == None;
    }
  }

  lemma PmfTerm(k: nat, n: nat, p: real, m: Math)
    requires k <= n <= Combinatorics.EXACT_COMBINATIONS_LIMIT && 0.0 <= p <= 1.0
    ensures Pmf(k, n, p, m) == Some(Term(n, k, p, 1.0 - p))
  {
    PmfValue(k, n, p, m);
    Combinatorics.CombinationsIsChoose(n, k, m);
    var c, a, b := Combinatorics.Choose(n, k) as real, Pow(p, k), Pow(1.0 - p, n - k);
    assert Combinatorics.CombinationsOf(n, k, m) == c;
    assert Pmf(k, n, p, m).value == c * a * b;
    assert Term(n, k, p, 1.0 - p) == c * a * b;
  }

  lemma PmfValue(k: nat, n: nat, p: real, m: Math)
    requires k <= n && 0.0 <= p <= 1.0
    ensures Pmf(k, n, p, m).Some?
    ensures Pmf(k, n, p, m).value == Combinatorics.CombinationsOf(n, k, m) * Pow(p, k) * Pow(1.0 - p, n - k)
  {
  }

  /** A non-empty running total is NaN exactly when p is not a probability,
      and otherwise (for n <= 30) the sum of the terms from lo to hi - 1. */
  lemma {:induction false} CumulativeIsTermSum(lo: nat, hi: nat, n: nat, p: real, m: Math)
    requires lo < hi <= n + 1 && n <= Combinatorics.EXACT_COMBINATIONS_LIMIT
    ensures Cumulative(lo, hi, n, p, m).None? <==> p < 0.0 || p > 1.0
    ensures Cumulative(lo, hi, n, p, m).Some? ==>
      Cumulative(lo, hi, n, p, m).value == TermSum(n, hi, p, 1.0 - p) - TermSum(n, lo, p, 1.0 - p)
    decreases hi
  {
    PmfIsBinomialTerm(hi - 1, n, p, m);
    if hi - 1 > lo {
      CumulativeIsTermSum(lo, hi - 1, n, p, m);
    }
  }

  /** For n <= 30 and a probability p, the query's two tails are
      probabilities that overlap exactly in P(X = x): P(X <= x) + P(X >= x)
      = 1 + P(X = x). */
  lemma QueryTailsAddUp(n: nat, p: real, x: int, m: Math)
    requires n <= Combinatorics.EXACT_COMBINATIONS_LIMIT && 0.0 <= p <= 1.0 && 0 <= x <= n
    ensures var r := BinomialOf(n, p, Some(x), m);
      && r.exactProbability == Some(Some(Term(n, x, p, 1.0 - p)))
      && r.lessThanOrEqualProbability.Some? && r.lessThanOrEqualProbability.value.Some?
      && r.greaterThanOrEqualProbability.Some? && r.greaterThanOrEqualProbability.value.Some?
      && r.lessThanOrEqualProbability.value.value + r.greaterThanOrEqualProbability.value.value
         == 1.0 + r.exactProbability.value.value
      && 0.0 <= r.lessThanOrEqualProbability.value.value <= 1.0
      && 0.0 <= r.greaterThanOrEqualProbability.value.value <= 1.0
  {
    PmfIsBinomialTerm(x, n, p, m);
    CumulativeIsTermSum(0, x + 1, n, p, m);
    CumulativeIsTermSum(x, n + 1, n, p, m);
    BinomialTheorem(n, p, 1.0 - p);
    PowOne(n);
    assert p + (1.0 - p) == 1.0;
    assert TermSum(n, 0, p, 1.0 - p) == 0.0;
    assert TermSum(n, x + 1, p, 1.0 - p) == TermSum(n, x, p, 1.0 - p) + Term(n, x, p, 1.0 - p);
    TermSumMonotone(n, 0, x, p);
    TermSumMonotone(n, x + 1, n + 1, p);
    TermNonNegative(n, x, p);
  }

  /** Without a query point in 0..n no probability is reported; with one,
      each is NaN exactly when p is not a probability. */
  lemma QueryPresence(n: nat, p: real, x: Option<int>, m: Math)
    ensures var r := BinomialOf(n, p, x, m);
      && (r.exactProbability.Some? <==> Asked(n, x))
      && (r.lessThanOrEqualProbability.Some? <==> Asked(n, x))
      && (r.greaterThanOrEqualProbability.Some? <==> Asked(n, x))
      && (Asked(n, x) ==>
            && (r.exactProbability.value.None? <==> p < 0.0 || p > 1.0)
            && (r.lessThanOrEqualProbability.value.None? <==> p < 0.0 || p > 1.0)
            && (r.greaterThanOrEqualProbability.value.None? <==> p < 0.0 || p > 1.0))
  {
    if Asked(n, x) {
      CumulativeNaN(0, x.value + 1, n, p, m);
      CumulativeNaN(x.value, n + 1, n, p, m);
    }
  }

  /** For every n, a non-empty running total is NaN exactly when p is not a
      probability. */
  lemma {:induction false} CumulativeNaN(lo: nat, hi: nat, n: nat, p: real, m: Math)
    requires lo < hi <= n + 1
    ensures Cumulative(lo, hi, n, p, m).None? <==> p < 0.0 || p > 1.0
    decreases hi
  {
    if hi - 1 > lo {
      CumulativeNaN(lo, hi - 1, n, p, m);
    }
  }

  /** The chart has a point per k = 0..min(n, 50) carrying pmf(k), followed
      by a single zero-valued "...n" marker exactly when 50 < n <= 1000. */
  lemma ChartShape(n: nat, p: real, m: Math)
    ensures var c := BinomialOf(n, p, None, m).pmfData;
      var top := if n < CHART_MAX_K then n else CHART_MAX_K;
      && |c| == top + 1 + (if CHART_MAX_K < n <= CHART_MARKER_LIMIT then 1 else 0)
      && (forall k :: 0 <= k <= top ==> c[k] == ProbabilityPoint(At(k as real), Pmf(k, n, p, m)))
      && (CHART_MAX_K < n <= CHART_MARKER_LIMIT ==> c[top + 1] == ProbabilityPoint(Truncated(n), Some(0.0)))
  {
  }

  /** For a probability p the variance is non-negative and the standard
      deviation is its square root. */
  lemma SpreadOfValidP(n: nat, p: real, x: Option<int>, m: Math)
    requires 0.0 <= p <= 1.0 && Lawful(m)
    ensures var r := BinomialOf(n, p, x, m);
      && r.mean == n as real * p && 0.0 <= r.mean <= n as real
      && 0.0 <= r.variance && r.stdDev.Some?
      && 0.0 <= r.stdDev.value && r.stdDev.value * r.stdDev.value == r.variance
  {
    var q := 1.0 - p;
    assert 0.0 <= n as real * p;
    assert n as real * p <= n as real * 1.0;
    assert 0.0 <= (n as real * p) * q;
  }
}

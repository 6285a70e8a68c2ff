/** `calculateDiscreteRVAnalysis` and `calculateBayesTheorem` of
    services/StatService.ts. */
module Analysis {
  import opened Wrappers
  import opened Numerics
  import opened Errors

  // ----- discrete random variable -----

  /** One row `{ x, p }` of the distribution table. */
  datatype Outcome = Outcome(x: real, p: real)

  /** `DiscreteRVResultsContent`. */
  datatype DiscreteRVResult = DiscreteRVResult(
    mean: real,
    variance: real,
    stdDev: Option<real>,
    summaryTable: seq<Outcome>)

  /** The probabilities may differ from 1 by this much. */
  const SUM_TOLERANCE: real := 0.000000001

  /** sum p, left to right. */
  function ProbabilitySum(rows: seq<Outcome>): real {
    if rows == [] then 0.0 else ProbabilitySum(rows[..|rows| - 1]) + rows[|rows| - 1].p
  }

  /** E(X) = sum x p. */
  function Expectation(rows: seq<Outcome>): real {
    if rows == [] then 0.0
    else Expectation(rows[..|rows| - 1]) + rows[|rows| - 1].x * rows[|rows| - 1].p
  }

  /** sum (x - e)^2 p. */
  function SpreadAbout(rows: seq<Outcome>, e: real): real {
    if rows == [] then 0.0
    else SpreadAbout(rows[..|rows| - 1], e) + Pow(rows[|rows| - 1].x - e, 2) * rows[|rows| - 1].p
  }

  predicate SomeNegative(rows: seq<Outcome>) {
    exists i :: 0 <= i < |rows| && rows[i].p < 0.0
  }

  function DiscreteRVOf(rows: seq<Outcome>, m: Math): Result<DiscreteRVResult, Error> {
    if |rows| == 0 then Err(NoRandomVariableData)
    else if Abs(ProbabilitySum(rows) - 1.0) > SUM_TOLERANCE then Err(ProbabilitySumNotOne(ProbabilitySum(rows)))
    else if SomeNegative(rows) then Err(NegativeProbability)
    else
      var e := Expectation(rows);
      var v := SpreadAbout(rows, e);
      Ok(DiscreteRVResult(e, v, SqrtOf(m, v), rows))
  }

  lemma PrefixStep(rows: seq<Outcome>, i: nat)
    requires i < |rows|
    ensures rows[..i + 1][..i] == rows[..i] && rows[..i + 1][i] == rows[i]
  {
  }

  /** The loop adding up the probabilities. */
  method SumProbabilities(rows: seq<Outcome>) returns (sum: real)
    ensures sum == ProbabilitySum(rows)
  {
    sum := 0.0;
    for i := 0 to |rows|
      invariant sum == ProbabilitySum(rows[..i])
    {
      PrefixStep(rows, i);
      sum := sum + rows[i].p;
    }
    assert rows[..|rows|] == rows;
  }

  /** The `some(p < 0)` scan. */
  method HasNegative(rows: seq<Outcome>) returns (negative: bool)
    ensures negative <==> SomeNegative(rows)
  {
    negative := false;
    for i := 0 to |rows|
      invariant negative <==> SomeNegative(rows[..i])
    {
      PrefixStep(rows, i);
      negative := negative || rows[i].p < 0.0;
    }
    assert rows[..|rows|] == rows;
  }

  /** The accumulator loop for E(X). */
  method Expect(rows: seq<Outcome>) returns (expected: real)
    ensures expected == Expectation(rows)
  {
    expected := 0.0;
    for i := 0 to |rows|
      invariant expected == Expectation(rows[..i])
    {
      PrefixStep(rows, i);
      expected := expected + rows[i].x * rows[i].p;
    }
    assert rows[..|rows|] == rows;
  }

  /** The accumulator loop for Var(X) about a given mean. */
  method Spread(rows: seq<Outcome>, expected: real) returns (variance: real)
    ensures variance == SpreadAbout(rows, expected)
  {
    variance := 0.0;
    for i := 0 to |rows|
      invariant variance == SpreadAbout(rows[..i], expected)
    {
      PrefixStep(rows, i);
      variance := variance + Pow(rows[i].x - expected, 2) * rows[i].p;
    }
    assert rows[..|rows|] == rows;
  }

  /** The checks and the accumulator loops of the source. */
  method CalculateDiscreteRVAnalysis(rows: seq<Outcome>, m: Math) returns (r: Result<DiscreteRVResult, Error>)
    ensures r == DiscreteRVOf(rows, m)
  {
    if |rows| == 0 {
      return Err(NoRandomVariableData);
    }
    var sum := SumProbabilities(rows);
    if Abs(sum - 1.0) > SUM_TOLERANCE {
      return Err(ProbabilitySumNotOne(sum));
    }
    var negative := HasNegative(rows);
    if negative {
      return Err(NegativeProbability);
    }
    var expected := Expect(rows);
    var variance := Spread(rows, expected);
    r := Ok(DiscreteRVResult(expected, variance, SqrtOf(m, variance), rows));
  }

  /** The checks fail in the source's order: no rows, then a sum further
      than 1e-9 from 1 (reporting the sum), then a negative probability. */
  lemma DiscreteRVFailures(rows: seq<Outcome>, m: Math)
    ensures DiscreteRVOf(rows, m).Ok? <==>
      |rows| > 0 && Abs(ProbabilitySum(rows) - 1.0) <= SUM_TOLERANCE && !SomeNegative(rows)
    ensures |rows| == 0 ==> DiscreteRVOf(rows, m) == Err(NoRandomVariableData)
    ensures |rows| > 0 && Abs(ProbabilitySum(rows) - 1.0) > SUM_TOLERANCE ==>
      DiscreteRVOf(rows, m) == Err(ProbabilitySumNotOne(ProbabilitySum(rows)))
  {
  }

  lemma {:induction false} SpreadNonNegative(rows: seq<Outcome>, e: real)
    requires forall i :: 0 <= i < |rows| ==> 0.0 <= rows[i].p
    ensures 0.0 <= SpreadAbout(rows, e)
  {
    if rows != [] {
      var last := rows[|rows| - 1];
      SpreadNonNegative(rows[..|rows| - 1], e);
      var d := last.x - e;
      assert Pow(d, 1) == d;
      assert Pow(d, 2) == d * d;
      assert 0.0 <= d * d;
      assert 0.0 <= Pow(d, 2) * last.p;
    }
  }

  /** An accepted table has a non-negative variance whose square root is the
      standard deviation, and is returned unchanged as the summary. */
  lemma DiscreteRVMoments(rows: seq<Outcome>, m: Math)
    requires Lawful(m) && DiscreteRVOf(rows, m).Ok?
    ensures var r := DiscreteRVOf(rows, m).value;
      && r.mean == Expectation(rows)
      && r.variance == SpreadAbout(rows, r.mean)
      && 0.0 <= r.variance
      && r.stdDev.Some? && 0.0 <= r.stdDev.value && r.stdDev.value * r.stdDev.value == r.variance
      && r.summaryTable == rows
  {
    SpreadNonNegative(rows, Expectation(rows));
  }

  lemma {:induction false} ExpectationOfConstant(rows: seq<Outcome>, c: real)
    requires forall i :: 0 <= i < |rows| ==> rows[i].x == c
    ensures Expectation(rows) == c * ProbabilitySum(rows)
  {
    if rows != [] {
      ExpectationOfConstant(rows[..|rows| - 1], c);
    }
  }

  lemma {:induction false} SpreadOfConstant(rows: seq<Outcome>, c: real)
    requires forall i :: 0 <= i < |rows| ==> rows[i].x == c
    ensures SpreadAbout(rows, c) == 0.0
  {
    if rows != [] {
      SpreadOfConstant(rows[..|rows| - 1], c);
    }
  }

  /** A variable that always takes the same value c, with probabilities
      adding to exactly 1, has mean c and variance 0. */
  lemma DegenerateVariable(rows: seq<Outcome>, c: real, m: Math)
    requires |rows| > 0 && ProbabilitySum(rows) == 1.0 && !SomeNegative(rows)
    requires forall i :: 0 <= i < |rows| ==> rows[i].x == c
    ensures DiscreteRVOf(rows, m).Ok?
    ensures DiscreteRVOf(rows, m).value.mean == c && DiscreteRVOf(rows, m).value.variance == 0.0
  {
    ExpectationOfConstant(rows, c);
    SpreadOfConstant(rows, c);
  }

  // ----- Bayes' theorem -----

  /** `BayesTheoremResultsContent`; P(A|B) may be NaN. */
  datatype BayesResult = BayesResult(
    probA: real,
    probBGivenA: real,
    probBGivenNotA: real,
    probNotA: real,
    probB: real,
    probAGivenB: Option<real>)

  predicate IsProbability(x: real) {
    0.0 <= x <= 1.0
  }

  function BayesOf(probA: real, probBGivenA: real, probBGivenNotA: real): Result<BayesResult, Error> {
    if !IsProbability(probA) then Err(PriorOutOfRange)
    else if !IsProbability(probBGivenA) then Err(LikelihoodOutOfRange)
    else if !IsProbability(probBGivenNotA) then Err(FalseAlarmOutOfRange)
    else
      var probNotA := 1.0 - probA;
      var probB := probBGivenA * probA + probBGivenNotA * probNotA;
      var numerator := probBGivenA * probA;
      var posterior :=
        if probB == 0.0 && numerator == 0.0 then Some(0.0)
        else if probB == 0.0 then None
        else Some(numerator / probB);
      Ok(BayesResult(probA, probBGivenA, probBGivenNotA, probNotA, probB, posterior))
  }

  lemma BayesFailures(probA: real, probBGivenA: real, probBGivenNotA: real)
    ensures BayesOf(probA, probBGivenA, probBGivenNotA).Ok? <==>
      IsProbability(probA) && IsProbability(probBGivenA) && IsProbability(probBGivenNotA)
    ensures !IsProbability(probA) ==> BayesOf(probA, probBGivenA, probBGivenNotA) == Err(PriorOutOfRange)
    ensures IsProbability(probA) && !IsProbability(probBGivenA) ==>
      BayesOf(probA, probBGivenA, probBGivenNotA) == Err(LikelihoodOutOfRange)
    ensures IsProbability(probA) && IsProbability(probBGivenA) && !IsProbability(probBGivenNotA) ==>
      BayesOf(probA, probBGivenA, probBGivenNotA) == Err(FalseAlarmOutOfRange)
  {
  }

  lemma ProductOfProbabilities(a: real, b: real)
    requires IsProbability(a) && IsProbability(b)
    ensures IsProbability(a * b) && a * b <= b
  {
    assert a * b <= 1.0 * b;
  }

  lemma QuotientWithin(num: real, den: real)
    requires 0.0 <= num <= den && 0.0 < den
    ensures 0.0 <= num / den <= 1.0 && num / den * den == num
  {
    var q := num / den;
    assert q * den == num;
  }

  /** The total probability l a + f (1 - a) of three probabilities is a
      probability no smaller than its first term. */
  lemma TotalProbability(a: real, l: real, f: real)
    requires IsProbability(a) && IsProbability(l) && IsProbability(f)
    ensures IsProbability(l * a) && 0.0 <= f * (1.0 - a)
    ensures IsProbability(l * a + f * (1.0 - a))
  {
    ProductOfProbabilities(l, a);
    ProductOfProbabilities(f, 1.0 - a);
    assert l * a <= 1.0 * a;
    assert f * (1.0 - a) <= 1.0 * (1.0 - a);
  }

  /** On accepted inputs P(not A) = 1 - P(A) and P(B) is the total
      probability, itself a probability; P(A|B) is never NaN: when
      P(B) = 0 the numerator P(B|A) P(A) is 0 as well and P(A|B) = 0, and
      otherwise P(A|B) P(B) = P(B|A) P(A) with P(A|B) a probability. */
  lemma BayesPosterior(probA: real, probBGivenA: real, probBGivenNotA: real)
    requires BayesOf(probA, probBGivenA, probBGivenNotA).Ok?
    ensures var r := BayesOf(probA, probBGivenA, probBGivenNotA).value;
      && r.probNotA == 1.0 - probA
      && r.probB == probBGivenA * probA + probBGivenNotA * r.probNotA
      && IsProbability(r.probB)
      && r.probAGivenB.Some?
      && IsProbability(r.probAGivenB.value)
      && (r.probB == 0.0 ==> r.probAGivenB.value == 0.0)
      && (r.probB != 0.0 ==> r.probAGivenB.value * r.probB == probBGivenA * probA)
  {
    TotalProbability(probA, probBGivenA, probBGivenNotA);
    var num := probBGivenA * probA;
    var total := num + probBGivenNotA * (1.0 - probA);
    if total != 0.0 {
      QuotientWithin(num, total);
    }
  }
}

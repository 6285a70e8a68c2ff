/** `performCalculation` of App.tsx: the form fields of the selected mode
    are read, checked in the order the source checks them, and handed to
    the statistics service; the outcome is either a result or the message
    of the first failed check, never both. */
module App {
  import opened Wrappers
  import opened Numerics
  import opened Errors
  import Text
  import Sorting
  import DescriptiveReport
  import Frequency
  import Binomial
  import Normal
  import SetOperations
  import Combinatorics
  import Poisson
  import Exponential
  import Sampling
  import Simulator
  import Analysis
  import RandomVariableTable

  /** What a calculation takes from outside: `parseFloat` and `parseInt`
      (`None` for NaN), `Math`, the successive values of `Math.random()`,
      and the order `localeCompare` sorts by. */
  datatype Env = Env(
    parseFloat: string -> Option<real>,
    parseInt: string -> Option<int>,
    m: Math,
    draws: nat -> real,
    localeLeq: (string, string) -> bool)

  /** `s.trim() === ''`. */
  predicate IsBlank(s: string) {
    Text.Trim(s) == []
  }

  /** An optional field: `undefined` (outer `None`) when blank, else the
      parsed value, which may be NaN (inner `None`). */
  function Optional<T>(s: string, parse: string -> Option<T>): Option<Option<T>> {
    if IsBlank(s) then None else Some(parse(s))
  }

  /** The value handed to the service once NaN has been ruled out. */
  function Given<T>(v: Option<Option<T>>): Option<T> {
    if v.Some? then v.value else None
  }

  // ----- parseNumbers and parseSetElements -----

  /** `parseFloat` of each trimmed piece, the NaNs dropped, in order. */
  function ParsedPieces(pieces: seq<string>, parseFloat: string -> Option<real>): (r: seq<real>)
    ensures |r| <= |pieces|
    ensures forall x :: x in r <==> exists t :: t in pieces && parseFloat(Text.Trim(t)) == Some(x)
  {
    if pieces == [] then []
    else
      var head := parseFloat(Text.Trim(pieces[0]));
      var rest := ParsedPieces(pieces[1..], parseFloat);
      assert forall t :: t in pieces <==> t == pieces[0] || t in pieces[1..];
      (if head.Some? then [head.value] else []) + rest
  }

  /** `parseNumbers`: the numbers among the comma-separated pieces. */
  function ParseNumbers(input: string, parseFloat: string -> Option<real>): seq<real> {
    if input == [] then [] else ParsedPieces(Text.Split(input, ','), parseFloat)
  }

  /** `parseSetElements`: the trimmed, non-empty comma-separated pieces. */
  function ParseSetElements(input: string): seq<string> {
    if input == [] then [] else Text.CommaTokens(input)
  }

  /** When every piece reads as a number, nothing is dropped and the i-th
      number is the i-th piece's. */
  lemma {:induction false} AllPiecesParse(pieces: seq<string>, parseFloat: string -> Option<real>)
    requires forall i :: 0 <= i < |pieces| ==> parseFloat(Text.Trim(pieces[i])).Some?
    ensures |ParsedPieces(pieces, parseFloat)| == |pieces|
    ensures forall i :: 0 <= i < |pieces| ==>
      ParsedPieces(pieces, parseFloat)[i] == parseFloat(Text.Trim(pieces[i])).value
  {
    if pieces != [] {
      AllPiecesParse(pieces[1..], parseFloat);
      var r := ParsedPieces(pieces, parseFloat);
      assert r == [parseFloat(Text.Trim(pieces[0])).value] + ParsedPieces(pieces[1..], parseFloat);
      forall i | 0 < i < |pieces|
        ensures r[i] == parseFloat(Text.Trim(pieces[i])).value
      {
        assert pieces[1..][i - 1] == pieces[i];
      }
    }
  }

  lemma JoinStartsWithHead(ts: seq<string>, sep: string)
    requires |ts| >= 1
    ensures |Text.Join(ts, sep)| >= |ts[0]|
  {
  }

  /** The text a data table writes ("t1, t2, ..., tn") parses back to the
      numbers of its tokens, in order. */
  lemma ParseJoinedNumbers(ts: seq<string>, parseFloat: string -> Option<real>)
    requires |ts| >= 1
    requires forall i :: 0 <= i < |ts| ==> Text.IsToken(ts[i]) && parseFloat(ts[i]).Some?
    ensures var r := ParseNumbers(Text.Join(ts, ", "), parseFloat);
      |r| == |ts| && forall i :: 0 <= i < |ts| ==> r[i] == parseFloat(ts[i]).value
  {
    var spaced := [ts[0]] + Text.Spaced(ts[1..]);
    Text.JoinAsSpaced(ts);
    Text.SpacedHasNoComma(ts);
    Text.SplitJoin(spaced, ',');
    Text.TrimAllSpaced(ts);
    JoinStartsWithHead(ts, ", ");
    var pieces := Text.Split(Text.Join(ts, ", "), ',');
    assert pieces == spaced;
    forall i | 0 <= i < |pieces|
      ensures Text.Trim(pieces[i]) == ts[i]
    {
      assert Text.TrimAll(spaced)[i] == ts[i];
    }
    AllPiecesParse(pieces, parseFloat);
  }

  lemma {:induction false} TrimAllOfTrimmed(ts: seq<string>)
    requires forall i :: 0 <= i < |ts| ==> Text.IsToken(ts[i])
    ensures Text.TrimAll(ts) == ts
  {
    forall i | 0 <= i < |ts|
      ensures Text.TrimAll(ts)[i] == ts[i]
    {
      Text.TrimOfTrimmed(ts[i]);
    }
  }

  /** The set elements are tokens, and the service keeps each once, in
      the order of first appearance. */
  lemma SetElementsAreTokens(input: string)
    ensures ParseSetElements(input) == Text.CommaTokens(input)
    ensures forall i :: 0 <= i < |ParseSetElements(input)| ==> Text.IsToken(ParseSetElements(input)[i])
    ensures SetOperations.ParseElements(ParseSetElements(input)) == SetOperations.Dedupe(ParseSetElements(input))
  {
    var ts := ParseSetElements(input);
    if input == [] {
      assert Text.Split(input, ',') == [[]];
      assert Text.TrimAll([[]]) == [[]];
      assert Text.NonEmpty([[]]) == [];
    }
    Text.CommaTokensAreTokens(input);
    TrimAllOfTrimmed(ts);
    Text.NonEmptyKeepsAll(ts);
  }

  // ----- the modes -----

  datatype CombinatoricsOperation = Combinations | Permutations

  /** The form fields of each mode, as typed. */
  datatype Request =
    | DescriptiveForm(data: string, showSteps: bool)
    | FrequencyForm(data: string)
    | BinomialForm(trials: string, successProbability: string, successes: string)
    | NormalForm(mean: string, stdDev: string, x1: string, x2: string)
    | SetForm(setA: string, setB: string, operation: SetOperations.SetOperation)
    | CombinatoricsForm(total: string, chosen: string, combinatoricsOp: CombinatoricsOperation)
    | BasicProbabilityForm(favorable: string, possible: string)
    | ConditionalProbabilityForm(intersection: string, conditioning: string)
    | PoissonForm(rate: string, occurrences: string)
    | ExponentialForm(rate: string, point: string)
    | MeansForm(populationMean: string, populationSigma: string, sampleSize: string, sampleMean: string)
    | ProportionsForm(populationProportion: string, sampleSize: string, sampleProportion: string)
    | ConfidenceIntervalForm(sampleMean: string, populationSigma: string, sampleSize: string, confidenceLevel: string)
    | SimulatorForm(distribution: Simulator.Distribution, points: string,
                    uniformMin: string, uniformMax: string, binomialTrials: string, binomialProbability: string)
    | DiscreteRVForm(rows: seq<RandomVariableTable.DiscreteRVEntry>)
    | BayesForm(probA: string, probBGivenA: string, probBGivenNotA: string)

  /** `CalculationResults`, one constructor per mode. */
  datatype Calculation =
    | DescriptiveResults(report: DescriptiveReport.Report)
    | FrequencyResults(table: Frequency.FrequencyTable)
    | BinomialResults(binomial: Binomial.BinomialResult)
    | NormalResults(normal: Normal.NormalResult)
    | SetResults(sets: SetOperations.SetReport)
    | CombinationsResults(n: int, r: int, combinations: real)
    | PermutationsResults(n: int, r: int, permutations: Combinatorics.Extended)
    | BasicProbabilityResults(favorable: int, possible: int, probability: Option<real>)
    | ConditionalProbabilityResults(probIntersection: real, probB: real, probability: Option<real>)
    | PoissonResults(poisson: Poisson.PoissonResult)
    | ExponentialResults(exponential: Exponential.ExponentialResult)
    | MeansResults(means: Sampling.MeansResult)
    | ProportionsResults(proportions: Sampling.ProportionsResult)
    | ConfidenceIntervalResults(interval: Sampling.ConfidenceInterval)
    | SimulatorResults(simulation: Simulator.Simulation, summaryStats: DescriptiveReport.Report)
    | DiscreteRVResults(analysis: Analysis.DiscreteRVResult)
    | BayesResults(bayes: Analysis.BayesResult)

  function DescriptiveMode(data: string, showSteps: bool, env: Env): Result<Calculation, Error> {
    var numbers := ParseNumbers(data, env.parseFloat);
    if numbers == [] && !IsBlank(data) then Err(InvalidDataInput)
    else
      var report :- DescriptiveReport.DescriptiveStats(numbers, showSteps, env.m);
      Ok(DescriptiveResults(report))
  }

  function FrequencyMode(data: string, env: Env): Result<Calculation, Error> {
    var numbers := ParseNumbers(data, env.parseFloat);
    if numbers == [] && !IsBlank(data) then Err(InvalidFrequencyInput)
    else
      var table :- Frequency.FrequencyOf(numbers, env.m);
      Ok(FrequencyResults(table))
  }

  function BinomialMode(trials: string, successProbability: string, successes: string, env: Env): Result<Calculation, Error> {
    var n := env.parseInt(trials);
    var p := env.parseFloat(successProbability);
    var x := Optional(successes, env.parseInt);
    if n.None? || n.value < 0 then Err(InvalidTrials)
    else if p.None? || p.value < 0.0 || p.value > 1.0 then Err(InvalidSuccessProbability)
    else if x.Some? && (x.value.None? || x.value.value < 0 || x.value.value > n.value) then Err(InvalidSuccesses)
    else Ok(BinomialResults(Binomial.BinomialOf(n.value, p.value, Given(x), env.m)))
  }

  function NormalMode(mean: string, stdDev: string, x1: string, x2: string, env: Env): Result<Calculation, Error>
    requires Lawful(env.m)
  {
    NormalChecks(env.parseFloat(mean), env.parseFloat(stdDev),
                 Optional(x1, env.parseFloat), Optional(x2, env.parseFloat), env.m)
  }

  /** The normal-mode checks on the parsed fields, in the order the form makes them. */
  function NormalChecks(mu: Option<real>, sigma: Option<real>, a: Option<Option<real>>, b: Option<Option<real>>,
                        m: Math): Result<Calculation, Error>
    requires Lawful(m)
  {
    if mu.None? then Err(InvalidMean)
    else if sigma.None? || sigma.value <= 0.0 then Err(InvalidStdDev)
    else if a.Some? && a.value.None? then Err(InvalidX1)
    else if b.Some? && b.value.None? then Err(InvalidX2)
    else if a.Some? && b.Some? && a.value.value > b.value.value then Err(X1AboveX2)
    else NormalService(mu.value, sigma.value, Given(a), Given(b), m)
  }

  /** The service step of the normal mode: it throws only for reversed
      bounds, which the checks before it have ruled out. */
  function NormalService(mu: real, sigma: real, x1: Option<real>, x2: Option<real>, m: Math): (r: Result<Calculation, Error>)
    requires Lawful(m)
    ensures r.Err? <==> x1.Some? && x2.Some? && x1.value > x2.value
    ensures r.Err? ==> r.error == RangeBoundsReversed
    ensures r.Ok? ==> r == Ok(NormalResults(Normal.NormalOf(mu, sigma, x1, x2, m).value))
  {
    Normal.NormalFailsExactlyWhenReversed(mu, sigma, x1, x2, m);
    var q :- Normal.NormalOf(mu, sigma, x1, x2, m);
    Ok(NormalResults(q))
  }

  function SetMode(setA: string, setB: string, operation: SetOperations.SetOperation, env: Env): Result<Calculation, Error> {
    var a := ParseSetElements(setA);
    var b := ParseSetElements(setB);
    if a == [] && !IsBlank(setA) then Err(InvalidSetAInput)
    else if b == [] && !IsBlank(setB) then Err(InvalidSetBInput)
    else SetService(a, b, operation, env)
  }

  /** The service step of the set mode: it throws only for an operation
      outside the enumeration. */
  function SetService(a: seq<string>, b: seq<string>, operation: SetOperations.SetOperation, env: Env): (r: Result<Calculation, Error>)
    ensures r.Err? <==> operation.Other?
    ensures r.Err? ==> r.error == UnknownSetOperation
  {
    SetOperations.SetOperationFailures(a, b, operation, env.parseFloat, env.localeLeq);
    var report :- SetOperations.SetOperationOf(a, b, operation, env.parseFloat, env.localeLeq);
    Ok(SetResults(report))
  }

  function CombinatoricsMode(total: string, chosen: string, op: CombinatoricsOperation, env: Env): Result<Calculation, Error> {
    var n := env.parseInt(total);
    var r := env.parseInt(chosen);
    if n.None? || n.value < 0 then Err(InvalidTotal)
    else if r.None? || r.value < 0 then Err(InvalidChosen)
    else if r.value > n.value && op == Combinations then Err(ChosenAboveTotal)
    else if r.value > n.value && op == Permutations then Err(PermutedAboveTotal)
    else if op == Combinations then
      Ok(CombinationsResults(n.value, r.value, Combinatorics.CombinationsOf(n.value, r.value, env.m)))
    else
      Ok(PermutationsResults(n.value, r.value, Combinatorics.PermutationsOf(n.value, r.value)))
  }

  function BasicProbabilityMode(favorable: string, possible: string, env: Env): Result<Calculation, Error> {
    var f := env.parseInt(favorable);
    var p := env.parseInt(possible);
    if f.None? || f.value < 0 then Err(InvalidFavorable)
    else if p.None? || p.value <= 0 then Err(InvalidPossible)
    else if f.value > p.value then Err(FavorableAbovePossible)
    else Ok(BasicProbabilityResults(f.value, p.value, Combinatorics.BasicProbability(f.value as real, p.value as real)))
  }

  function ConditionalProbabilityMode(intersection: string, conditioning: string, env: Env): Result<Calculation, Error> {
    var both := env.parseFloat(intersection);
    var pB := env.parseFloat(conditioning);
    if both.None? || both.value < 0.0 || both.value > 1.0 then Err(InvalidIntersection)
    else if pB.None? || pB.value <= 0.0 || pB.value > 1.0 then Err(InvalidConditioning)
    else if both.value > pB.value then Err(IntersectionAboveConditioning)
    else Ok(ConditionalProbabilityResults(both.value, pB.value, Combinatorics.ConditionalProbability(both.value, pB.value)))
  }

  /** The source's `Number.isInteger` check cannot fail on the result of
      `parseInt`, so it is not written. */
  function PoissonMode(rate: string, occurrences: string, env: Env): Result<Calculation, Error> {
    var lambda := env.parseFloat(rate);
    var k := Optional(occurrences, env.parseInt);
    if lambda.None? || lambda.value <= 0.0 then Err(InvalidRate)
    else if k.Some? && (k.value.None? || k.value.value < 0) then Err(InvalidOccurrences)
    else
      var given := if k.Some? then Some(k.value.value as real) else None;
      Ok(PoissonResults(Poisson.PoissonOf(lambda.value, given, env.m)))
  }

  function ExponentialMode(rate: string, point: string, env: Env): Result<Calculation, Error> {
    var lambda := env.parseFloat(rate);
    var x := Optional(point, env.parseFloat);
    if lambda.None? || lambda.value <= 0.0 then Err(InvalidRate)
    else if x.Some? && (x.value.None? || x.value.value < 0.0) then Err(InvalidQueryPoint)
    else
      var r :- Exponential.ExponentialOf(lambda.value, Given(x), env.m);
      Ok(ExponentialResults(r))
  }

  function MeansMode(populationMean: string, populationSigma: string, sampleSize: string, sampleMean: string, env: Env): Result<Calculation, Error>
    requires Lawful(env.m)
  {
    var mu := env.parseFloat(populationMean);
    var sigma := env.parseFloat(populationSigma);
    var n := env.parseInt(sampleSize);
    var xBar := Optional(sampleMean, env.parseFloat);
    if mu.None? then Err(InvalidPopulationMean)
    else if sigma.None? || sigma.value <= 0.0 then Err(InvalidPopulationSigma)
    else if n.None? || n.value <= 0 then Err(InvalidSampleSize)
    else if xBar.Some? && xBar.value.None? then Err(InvalidSampleMean)
    else
      var r :- Sampling.MeansOf(mu.value, sigma.value, n.value, Given(xBar), env.m);
      Ok(MeansResults(r))
  }

  function ProportionsMode(populationProportion: string, sampleSize: string, sampleProportion: string, env: Env): Result<Calculation, Error>
    requires Lawful(env.m)
  {
    var p := env.parseFloat(populationProportion);
    var n := env.parseInt(sampleSize);
    var pHat := Optional(sampleProportion, env.parseFloat);
    if p.None? || p.value < 0.0 || p.value > 1.0 then Err(InvalidPopulationProportion)
    else if p.value == 0.0 || p.value == 1.0 then Err(DegeneratePopulationProportion)
    else if n.None? || n.value <= 0 then Err(InvalidSampleSize)
    else if pHat.Some? && (pHat.value.None? || pHat.value.value < 0.0 || pHat.value.value > 1.0) then Err(InvalidSampleProportion)
    else
      var r :- Sampling.ProportionsOf(p.value, n.value, Given(pHat), env.m);
      Ok(ProportionsResults(r))
  }

  /** The confidence levels the form accepts. */
  predicate SupportedLevel(level: int) {
    level == 90 || level == 95 || level == 98 || level == 99
  }

  function ConfidenceIntervalMode(sampleMean: string, populationSigma: string, sampleSize: string, confidenceLevel: string, env: Env): Result<Calculation, Error>
    requires Lawful(env.m)
  {
    var xBar := env.parseFloat(sampleMean);
    var sigma := env.parseFloat(populationSigma);
    var n := env.parseInt(sampleSize);
    var level := env.parseInt(confidenceLevel);
    if xBar.None? then Err(InvalidSampleMean)
    else if sigma.None? || sigma.value <= 0.0 then Err(InvalidPopulationSigma)
    else if n.None? || n.value <= 0 then Err(InvalidSampleSize)
    else if level.None? || !SupportedLevel(level.value) then Err(InvalidConfidenceLevel)
    else
      var r :- Sampling.ConfidenceIntervalOf(xBar.value, sigma.value, n.value, level.value as real, env.m);
      Ok(ConfidenceIntervalResults(r))
  }

  /** The largest number of points the simulator accepts. */
  const MAX_SIMULATED_POINTS: int := 10000

  /** The parameters of the chosen distribution, checked. */
  function SimulatorInputOf(distribution: Simulator.Distribution, count: int, uniformMin: string, uniformMax: string,
                            binomialTrials: string, binomialProbability: string, env: Env): Result<Simulator.SimulatorInput, Error>
  {
    match distribution
    case Uniform =>
      var lo := env.parseFloat(uniformMin);
      var hi := env.parseFloat(uniformMax);
      if lo.None? || hi.None? then Err(InvalidUniformBounds)
      else if lo.value > hi.value then Err(UniformBoundsReversed)
      else Ok(Simulator.SimulatorInput(distribution, count, Some(lo.value), Some(hi.value), None, None))
    case Binomial =>
      var n := env.parseInt(binomialTrials);
      var p := env.parseFloat(binomialProbability);
      if n.None? || n.value <= 0 then Err(InvalidSimulatorTrials)
      else if p.None? || p.value < 0.0 || p.value > 1.0 then Err(InvalidSimulatorProbability)
      else Ok(Simulator.SimulatorInput(distribution, count, None, None, Some(n.value as real), Some(p.value)))
  }

  function SimulatorMode(distribution: Simulator.Distribution, points: string, uniformMin: string, uniformMax: string,
                         binomialTrials: string, binomialProbability: string, env: Env): Result<Calculation, Error>
  {
    var count := env.parseInt(points);
    if count.None? || count.value <= 0 || count.value > MAX_SIMULATED_POINTS then Err(InvalidPointCount)
    else
      var input :- SimulatorInputOf(distribution, count.value, uniformMin, uniformMax, binomialTrials, binomialProbability, env);
      var simulation :- Simulator.SimulationOf(input, env.draws);
      var summary :- DescriptiveReport.DescriptiveStats(simulation.generatedData, false, env.m);
      Ok(SimulatorResults(simulation, summary))
  }

  /** A row of the random-variable table as the calculation reads it:
      kept when x and p are numbers and p is not negative. */
  function OutcomeOf(row: RandomVariableTable.DiscreteRVEntry, parseFloat: string -> Option<real>): seq<Analysis.Outcome> {
    var x := parseFloat(row.x);
    var p := parseFloat(row.p);
    if x.Some? && p.Some? && p.value >= 0.0 then [Analysis.Outcome(x.value, p.value)] else []
  }

  /** The rows kept, in order. */
  function ValidOutcomes(rows: seq<RandomVariableTable.DiscreteRVEntry>, parseFloat: string -> Option<real>): (r: seq<Analysis.Outcome>)
    ensures |r| <= |rows|
    ensures forall i :: 0 <= i < |r| ==> 0.0 <= r[i].p
  {
    if rows == [] then []
    else ValidOutcomes(rows[..|rows| - 1], parseFloat) + OutcomeOf(rows[|rows| - 1], parseFloat)
  }

  /** The calculation's own check of the sum uses the same 1e-9 as the
      service. */
  function DiscreteRVMode(rows: seq<RandomVariableTable.DiscreteRVEntry>, env: Env): Result<Calculation, Error> {
    var outcomes := ValidOutcomes(rows, env.parseFloat);
    if outcomes == [] then Err(NoValidRandomVariableRows)
    else if Abs(Analysis.ProbabilitySum(outcomes) - 1.0) > Analysis.SUM_TOLERANCE then
      Err(RandomVariableSumNotOne(Analysis.ProbabilitySum(outcomes)))
    else
      var r :- Analysis.DiscreteRVOf(outcomes, env.m);
      Ok(DiscreteRVResults(r))
  }

  function BayesMode(probA: string, probBGivenA: string, probBGivenNotA: string, env: Env): Result<Calculation, Error> {
    var a := env.parseFloat(probA);
    var l := env.parseFloat(probBGivenA);
    var f := env.parseFloat(probBGivenNotA);
    if a.None? || !Analysis.IsProbability(a.value) then Err(InvalidPrior)
    else if l.None? || !Analysis.IsProbability(l.value) then Err(InvalidLikelihood)
    else if f.None? || !Analysis.IsProbability(f.value) then Err(InvalidFalseAlarm)
    else
      var r :- Analysis.BayesOf(a.value, l.value, f.value);
      Ok(BayesResults(r))
  }

  /** The `switch` of `performCalculation`. */
  function Calculate(request: Request, env: Env): Result<Calculation, Error>
    requires Lawful(env.m)
  {
    match request
    case DescriptiveForm(data, showSteps) => DescriptiveMode(data, showSteps, env)
    case FrequencyForm(data) => FrequencyMode(data, env)
    case BinomialForm(n, p, x) => BinomialMode(n, p, x, env)
    case NormalForm(mean, stdDev, x1, x2) => NormalMode(mean, stdDev, x1, x2, env)
    case SetForm(a, b, op) => SetMode(a, b, op, env)
    case CombinatoricsForm(n, r, op) => CombinatoricsMode(n, r, op, env)
    case BasicProbabilityForm(f, p) => BasicProbabilityMode(f, p, env)
    case ConditionalProbabilityForm(both, pB) => ConditionalProbabilityMode(both, pB, env)
    case PoissonForm(rate, k) => PoissonMode(rate, k, env)
    case ExponentialForm(rate, x) => ExponentialMode(rate, x, env)
    case MeansForm(mu, sigma, n, xBar) => MeansMode(mu, sigma, n, xBar, env)
    case ProportionsForm(p, n, pHat) => ProportionsMode(p, n, pHat, env)
    case ConfidenceIntervalForm(xBar, sigma, n, level) => ConfidenceIntervalMode(xBar, sigma, n, level, env)
    case SimulatorForm(d, points, lo, hi, n, p) => SimulatorMode(d, points, lo, hi, n, p, env)
    case DiscreteRVForm(rows) => DiscreteRVMode(rows, env)
    case BayesForm(a, l, f) => BayesMode(a, l, f, env)
  }

  // ----- what the checks guarantee -----

  /** The data modes accept exactly the inputs holding a number; a blank
      input gets past the check and the service's "no data" error is the
      one shown. */
  lemma DescriptiveModeOutcome(data: string, showSteps: bool, env: Env)
    ensures var numbers := ParseNumbers(data, env.parseFloat);
      var r := DescriptiveMode(data, showSteps, env);
      && (r.Ok? <==> numbers != [])
      && (numbers == [] ==> r == Err(if IsBlank(data) then EmptyDescriptiveData else InvalidDataInput))
      && (r.Ok? ==> r.value.report.count == |numbers| && r.value.report.mean == Sum(numbers) / |numbers| as real)
  {
    var numbers := ParseNumbers(data, env.parseFloat);
    DescriptiveReport.FailsExactlyWhenEmpty(numbers, showSteps, env.m);
    if numbers != [] {
      DescriptiveReport.Shape(numbers, showSteps, env.m);
    }
  }

  lemma FrequencyModeOutcome(data: string, env: Env)
    ensures var numbers := ParseNumbers(data, env.parseFloat);
      var r := FrequencyMode(data, env);
      && (r.Ok? <==> numbers != [])
      && (numbers == [] ==> r == Err(if IsBlank(data) then EmptyFrequencyData else InvalidFrequencyInput))
      && (r.Ok? ==> r.value.table.n == |numbers|)
  {
    var numbers := ParseNumbers(data, env.parseFloat);
    Frequency.FrequencyFailsExactlyWhenEmpty(numbers, env.m);
  }

  /** Once the checks pass, the binomial query is answered exactly when
      x was given, and its probabilities are numbers. */
  lemma BinomialModeOutcome(trials: string, successProbability: string, successes: string, env: Env)
    ensures var r := BinomialMode(trials, successProbability, successes, env); r.Err? ==> !ThrownByService(r.error)
    ensures var n := env.parseInt(trials);
      var p := env.parseFloat(successProbability);
      var x := Optional(successes, env.parseInt);
      var r := BinomialMode(trials, successProbability, successes, env);
      && (r.Ok? <==> n.Some? && 0 <= n.value && p.Some? && 0.0 <= p.value <= 1.0
                     && (x.Some? ==> x.value.Some? && 0 <= x.value.value <= n.value))
      && (r.Ok? ==> (Binomial.Asked(n.value, Given(x)) <==> !IsBlank(successes)))
      && (r.Ok? && !IsBlank(successes) ==>
            && r.value.binomial.exactProbability.value.Some?
            && r.value.binomial.lessThanOrEqualProbability.value.Some?
            && r.value.binomial.greaterThanOrEqualProbability.value.Some?)
  {
    var n := env.parseInt(trials);
    var p := env.parseFloat(successProbability);
    var x := Optional(successes, env.parseInt);
    var r := BinomialMode(trials, successProbability, successes, env);
    if r.Ok? {
      assert r == Ok(BinomialResults(Binomial.BinomialOf(n.value, p.value, Given(x), env.m)));
      Binomial.QueryPresence(n.value, p.value, Given(x), env.m);
    }
  }

  /** The checks rule out the service's own error (x1 > x2). */
  lemma NormalModeOutcome(mean: string, stdDev: string, x1: string, x2: string, env: Env)
    requires Lawful(env.m)
    ensures var r := NormalMode(mean, stdDev, x1, x2, env);
      r.Err? ==> !ThrownByService(r.error)
  {
    NormalChecksOutcome(env.parseFloat(mean), env.parseFloat(stdDev),
                        Optional(x1, env.parseFloat), Optional(x2, env.parseFloat), env.m);
  }

  lemma NormalChecksOutcome(mu: Option<real>, sigma: Option<real>, a: Option<Option<real>>, b: Option<Option<real>>,
                            m: Math)
    requires Lawful(m)
    ensures var r := NormalChecks(mu, sigma, a, b, m);
      r.Err? ==> !ThrownByService(r.error)
  {
    if mu.None? {
      assert !ThrownByService(InvalidMean);
    } else if sigma.None? || sigma.value <= 0.0 {
      assert !ThrownByService(InvalidStdDev);
    } else if a.Some? && a.value.None? {
      assert !ThrownByService(InvalidX1);
    } else if b.Some? && b.value.None? {
      assert !ThrownByService(InvalidX2);
    } else if a.Some? && b.Some? && a.value.value > b.value.value {
      assert !ThrownByService(X1AboveX2);
    } else {
      assert NormalChecks(mu, sigma, a, b, m) == NormalService(mu.value, sigma.value, Given(a), Given(b), m);
    }
  }

  /** A positive deviation makes every reported probability a number; the
      probabilities for x1 are reported exactly when x1 is given, the range
      probability exactly when x2 is given too. */
  lemma NormalModeQueries(mean: string, stdDev: string, x1: string, x2: string, env: Env)
    requires Lawful(env.m)
    ensures var r := NormalMode(mean, stdDev, x1, x2, env);
      r.Ok? ==>
        var q := r.value.normal;
        && (q.probabilityLessThanX1.Some? <==> !IsBlank(x1))
        && (q.probabilityBetweenX1X2.Some? <==> !IsBlank(x1) && !IsBlank(x2))
        && (!IsBlank(x1) ==>
              && q.probabilityLessThanX1.value.Some? && q.probabilityGreaterThanX1.value.Some?
              && q.zScoreX1.value.Some?
              && q.probabilityLessThanX1.value.value + q.probabilityGreaterThanX1.value.value == 1.0)
        && (!IsBlank(x1) && !IsBlank(x2) ==> q.probabilityBetweenX1X2.value.Some?)
  {
    var mu := env.parseFloat(mean);
    var sigma := env.parseFloat(stdDev);
    var a := Optional(x1, env.parseFloat);
    var b := Optional(x2, env.parseFloat);
    var r := NormalMode(mean, stdDev, x1, x2, env);
    if r.Ok? {
      assert r == NormalService(mu.value, sigma.value, Given(a), Given(b), env.m);
      assert Given(a).Some? <==> !IsBlank(x1);
      assert Given(b).Some? <==> !IsBlank(x2);
      Normal.NormalQueries(mu.value, sigma.value, Given(a), Given(b), env.m);
    }
  }

  /** A set input with nothing but commas and blanks in it is refused,
      and the service's only error is for an operation the form does not
      offer. */
  lemma SetModeAccepts(setA: string, setB: string, operation: SetOperations.SetOperation, env: Env)
    ensures var r := SetMode(setA, setB, operation, env);
      && (r.Err? && ThrownByService(r.error) ==> operation.Other?)
      && (r.Ok? <==> (ParseSetElements(setA) != [] || IsBlank(setA))
                     && (ParseSetElements(setB) != [] || IsBlank(setB)) && !operation.Other?)
  {
  }

  /** The set shown for an input holds each of its elements once, sorted,
      and nothing else. */
  lemma ShownSet(input: string, env: Env)
    requires Sorting.TotalPreorder(env.localeLeq)
    ensures var shown := SetOperations.SortElements(SetOperations.ParseElements(ParseSetElements(input)), env.parseFloat, env.localeLeq);
      && SetOperations.Distinct(shown)
      && (forall t :: t in shown <==> t in ParseSetElements(input))
  {
    var a := ParseSetElements(input);
    SetElementsAreTokens(input);
    var da := SetOperations.ParseElements(a);
    SetOperations.ParseElementsMembers(a);
    SetOperations.SortElementsOrder(da, env.parseFloat, env.localeLeq);
    var shown := SetOperations.SortElements(da, env.parseFloat, env.localeLeq);
    assert multiset(shown) == multiset(da);
    forall t
      ensures t in shown <==> t in a
    {
      assert t in shown <==> t in multiset(shown);
      assert t in da <==> t in multiset(da);
    }
  }

  /** The sets shown hold every element of their input once, sorted, and
      nothing else; each count is the size of its set. */
  lemma SetModeShowsSets(setA: string, setB: string, operation: SetOperations.SetOperation, env: Env)
    requires Sorting.TotalPreorder(env.localeLeq)
    requires SetMode(setA, setB, operation, env).Ok?
    ensures var sets := SetMode(setA, setB, operation, env).value.sets;
      && SetOperations.Distinct(sets.setA) && SetOperations.Distinct(sets.setB)
      && (forall t :: t in sets.setA <==> t in ParseSetElements(setA))
      && (forall t :: t in sets.setB <==> t in ParseSetElements(setB))
      && sets.countA == |sets.setA| && sets.countB == |sets.setB|
  {
    var a := ParseSetElements(setA);
    var b := ParseSetElements(setB);
    assert SetMode(setA, setB, operation, env) == SetService(a, b, operation, env);
    var report := SetOperations.SetOperationOf(a, b, operation, env.parseFloat, env.localeLeq);
    assert SetMode(setA, setB, operation, env).value.sets == report.value;
    ShownSet(setA, env);
    ShownSet(setB, env);
    SetOperations.SetReportCounts(a, b, operation, env.parseFloat, env.localeLeq);
  }

  /** Accepted counts satisfy 0 <= r <= n, so the service computes the
      textbook counts: C(n, r) exactly up to n = 30, and n!/(n-r)! up to
      n = 170. */
  lemma CombinatoricsModeOutcome(total: string, chosen: string, op: CombinatoricsOperation, env: Env)
    ensures var r := CombinatoricsMode(total, chosen, op, env); r.Err? ==> !ThrownByService(r.error)
    ensures var r := CombinatoricsMode(total, chosen, op, env);
      && (r.Ok? ==> 0 <= r.value.r <= r.value.n)
      && (r.Ok? && op == Combinations && r.value.n <= Combinatorics.EXACT_COMBINATIONS_LIMIT ==>
            r.value.combinations == Combinatorics.Choose(r.value.n, r.value.r) as real)
      && (r.Ok? && op == Permutations && r.value.n <= Combinatorics.FACTORIAL_LIMIT ==>
            r.value.permutations == Combinatorics.Extended.Finite(Combinatorics.FallingFact(r.value.n, r.value.r) as real))
      && (r.Ok? <==> env.parseInt(total).Some? && env.parseInt(chosen).Some?
                     && 0 <= env.parseInt(chosen).value <= env.parseInt(total).value)
  {
    var r := CombinatoricsMode(total, chosen, op, env);
    if r.Ok? {
      if op == Combinations && r.value.n <= Combinatorics.EXACT_COMBINATIONS_LIMIT {
        Combinatorics.CombinationsIsChoose(r.value.n, r.value.r, env.m);
      }
      if op == Permutations {
        Combinatorics.PermutationsCount(r.value.n, r.value.r);
      }
    }
  }

  /** An accepted favorable/possible pair gives a probability in [0, 1]
      that times the possible cases is the favorable ones. */
  lemma BasicProbabilityModeOutcome(favorable: string, possible: string, env: Env)
    ensures var r := BasicProbabilityMode(favorable, possible, env); r.Err? ==> !ThrownByService(r.error)
    ensures var r := BasicProbabilityMode(favorable, possible, env);
      r.Ok? ==>
        && r.value.probability.Some?
        && 0.0 <= r.value.probability.value <= 1.0
        && r.value.probability.value * r.value.possible as real == r.value.favorable as real
  {
    var r := BasicProbabilityMode(favorable, possible, env);
    if r.Ok? {
      var f := r.value.favorable as real;
      var p := r.value.possible as real;
      Combinatorics.ProbabilityQuotients(f, p);
      Analysis.QuotientWithin(f, p);
    }
  }

  /** P(A | B) of accepted inputs is a probability, and P(A | B) P(B) is
      P(A and B). */
  lemma ConditionalProbabilityModeOutcome(intersection: string, conditioning: string, env: Env)
    ensures var r := ConditionalProbabilityMode(intersection, conditioning, env); r.Err? ==> !ThrownByService(r.error)
    ensures var r := ConditionalProbabilityMode(intersection, conditioning, env);
      r.Ok? ==>
        && r.value.probability.Some?
        && 0.0 <= r.value.probability.value <= 1.0
        && r.value.probability.value * r.value.probB == r.value.probIntersection
  {
    var r := ConditionalProbabilityMode(intersection, conditioning, env);
    if r.Ok? {
      Combinatorics.ProbabilityQuotients(r.value.probIntersection, r.value.probB);
      Analysis.QuotientWithin(r.value.probIntersection, r.value.probB);
    }
  }

  /** Once the checks pass, the Poisson query is answered exactly when k
      was given. */
  lemma PoissonModeOutcome(rate: string, occurrences: string, env: Env)
    ensures var r := PoissonMode(rate, occurrences, env); r.Err? ==> !ThrownByService(r.error)
    ensures var r := PoissonMode(rate, occurrences, env);
      && (r.Ok? <==> env.parseFloat(rate).Some? && 0.0 < env.parseFloat(rate).value
                     && (!IsBlank(occurrences) ==> env.parseInt(occurrences).Some? && 0 <= env.parseInt(occurrences).value))
      && (r.Ok? ==>
            && r.value.poisson.mean == r.value.poisson.variance == env.parseFloat(rate).value
            && (r.value.poisson.exactProbability.Some? <==> !IsBlank(occurrences)))
  {
    var lambda := env.parseFloat(rate);
    var k := Optional(occurrences, env.parseInt);
    if lambda.None? || lambda.value <= 0.0 {
      assert PoissonMode(rate, occurrences, env) == Err(InvalidRate);
      assert !ThrownByService(InvalidRate);
    } else if k.Some? && (k.value.None? || k.value.value < 0) {
      assert PoissonMode(rate, occurrences, env) == Err(InvalidOccurrences);
      assert !ThrownByService(InvalidOccurrences);
    } else {
      var given := if k.Some? then Some(k.value.value as real) else None;
      assert PoissonMode(rate, occurrences, env) == Ok(PoissonResults(Poisson.PoissonOf(lambda.value, given, env.m)));
      assert Poisson.Asked(given) <==> k.Some?;
      Poisson.QueryPresence(lambda.value, given, env.m);
    }
  }

  /** The checks rule out the service's error (lambda <= 0), and the query
      is answered exactly when x was given. */
  lemma ExponentialModeOutcome(rate: string, point: string, env: Env)
    ensures var r := ExponentialMode(rate, point, env);
      && (r.Err? ==> !ThrownByService(r.error))
      && (r.Ok? ==> (r.value.exponential.fx.Some? <==> !IsBlank(point)))
  {
    var lambda := env.parseFloat(rate);
    var x := Optional(point, env.parseFloat);
    if lambda.None? || lambda.value <= 0.0 {
      assert ExponentialMode(rate, point, env) == Err(InvalidRate);
      assert !ThrownByService(InvalidRate);
    } else if x.Some? && (x.value.None? || x.value.value < 0.0) {
      assert ExponentialMode(rate, point, env) == Err(InvalidQueryPoint);
      assert !ThrownByService(InvalidQueryPoint);
    } else {
      var e := Exponential.ExponentialOf(lambda.value, Given(x), env.m);
      assert e.Ok?;
      assert ExponentialMode(rate, point, env) == Ok(ExponentialResults(e.value));
      assert Exponential.Asked(Given(x)) <==> x.Some?;
    }
  }

  /** The checks rule out the service's errors (sigma <= 0, n <= 0); the
      z-score is reported exactly when the sample mean was given. */
  lemma MeansModeOutcome(populationMean: string, populationSigma: string, sampleSize: string, sampleMean: string, env: Env)
    requires Lawful(env.m)
    ensures var r := MeansMode(populationMean, populationSigma, sampleSize, sampleMean, env);
      && (r.Err? ==> !ThrownByService(r.error))
      && (r.Ok? ==>
            && (r.value.means.zScore.Some? <==> !IsBlank(sampleMean))
            && (!IsBlank(sampleMean) ==>
                  r.value.means.probLessThanXBar.value + r.value.means.probGreaterThanXBar.value == 1.0))
  {
    var mu := env.parseFloat(populationMean);
    var sigma := env.parseFloat(populationSigma);
    var n := env.parseInt(sampleSize);
    var xBar := Optional(sampleMean, env.parseFloat);
    if mu.Some? && sigma.Some? && sigma.value > 0.0 && n.Some? && n.value > 0 && (xBar.Some? ==> xBar.value.Some?) {
      Sampling.MeansFailures(mu.value, sigma.value, n.value, Given(xBar), env.m);
      Sampling.MeansQuery(mu.value, sigma.value, n.value, Given(xBar), env.m);
    }
  }

  /** The checks rule out every error of the service. */
  lemma ProportionsModeOutcome(populationProportion: string, sampleSize: string, sampleProportion: string, env: Env)
    requires Lawful(env.m)
    ensures var r := ProportionsMode(populationProportion, sampleSize, sampleProportion, env);
      && (r.Err? ==> !ThrownByService(r.error))
      && (r.Ok? <==> env.parseFloat(populationProportion).Some? && 0.0 < env.parseFloat(populationProportion).value < 1.0
                     && env.parseInt(sampleSize).Some? && 0 < env.parseInt(sampleSize).value
                     && (!IsBlank(sampleProportion) ==>
                           env.parseFloat(sampleProportion).Some? && 0.0 <= env.parseFloat(sampleProportion).value <= 1.0))
  {
    var p := env.parseFloat(populationProportion);
    var n := env.parseInt(sampleSize);
    if p.Some? && n.Some? {
      Sampling.ProportionsFailures(p.value, n.value, Given(Optional(sampleProportion, env.parseFloat)), env.m);
    }
  }

  /** The checks rule out every error of the service, and the interval
      reported is centred on the sample mean with positive width. */
  lemma ConfidenceIntervalModeOutcome(sampleMean: string, populationSigma: string, sampleSize: string, confidenceLevel: string, env: Env)
    requires Lawful(env.m)
    ensures var r := ConfidenceIntervalMode(sampleMean, populationSigma, sampleSize, confidenceLevel, env);
      && (r.Err? ==> !ThrownByService(r.error))
      && (r.Ok? ==>
            && r.value.interval.lowerBound < r.value.interval.sampleMean < r.value.interval.upperBound
            && r.value.interval.sampleMean == env.parseFloat(sampleMean).value)
  {
    var xBar := env.parseFloat(sampleMean);
    var sigma := env.parseFloat(populationSigma);
    var n := env.parseInt(sampleSize);
    var level := env.parseInt(confidenceLevel);
    if xBar.Some? && sigma.Some? && sigma.value > 0.0 && n.Some? && n.value > 0 && level.Some? && SupportedLevel(level.value) {
      Sampling.ConfidenceIntervalFailures(xBar.value, sigma.value, n.value, level.value as real, env.m);
      Sampling.ConfidenceIntervalCentred(xBar.value, sigma.value, n.value, level.value as real, env.m);
    }
  }

  /** Checked parameters always simulate: the service's own errors
      cannot occur, and it returns the requested number of values. */
  lemma CheckedInputSimulates(distribution: Simulator.Distribution, count: int, uniformMin: string, uniformMax: string,
                              binomialTrials: string, binomialProbability: string, env: Env)
    requires 0 < count
    requires SimulatorInputOf(distribution, count, uniformMin, uniformMax, binomialTrials, binomialProbability, env).Ok?
    ensures var input := SimulatorInputOf(distribution, count, uniformMin, uniformMax, binomialTrials, binomialProbability, env).value;
      var sim := Simulator.SimulationOf(input, env.draws);
      && input.nPoints == count && input.distributionType == distribution
      && sim.Ok? && |sim.value.generatedData| == count
  {
    var input := SimulatorInputOf(distribution, count, uniformMin, uniformMax, binomialTrials, binomialProbability, env).value;
    Simulator.SimulationFailures(input, env.draws);
    if distribution == Simulator.Binomial {
      assert IsInteger(Simulator.Default(input.binomialN, 10.0));
    }
    Simulator.SimulationLength(input, env.draws);
  }

  /** A checked uniform sample lies in [min, max]. */
  lemma UniformSampleWithin(count: int, uniformMin: string, uniformMax: string,
                            binomialTrials: string, binomialProbability: string, env: Env)
    requires Simulator.IsRandomStream(env.draws) && 0 < count
    requires SimulatorInputOf(Simulator.Uniform, count, uniformMin, uniformMax, binomialTrials, binomialProbability, env).Ok?
    ensures var input := SimulatorInputOf(Simulator.Uniform, count, uniformMin, uniformMax, binomialTrials, binomialProbability, env).value;
      var sim := Simulator.SimulationOf(input, env.draws);
      sim.Ok? && forall i :: 0 <= i < |sim.value.generatedData| ==>
        env.parseFloat(uniformMin).value <= sim.value.generatedData[i] <= env.parseFloat(uniformMax).value
  {
    var input := SimulatorInputOf(Simulator.Uniform, count, uniformMin, uniformMax, binomialTrials, binomialProbability, env).value;
    CheckedInputSimulates(Simulator.Uniform, count, uniformMin, uniformMax, binomialTrials, binomialProbability, env);
    Simulator.UniformWithinBounds(input, env.draws);
    var lo := env.parseFloat(uniformMin).value;
    var hi := env.parseFloat(uniformMax).value;
    assert Simulator.Default(input.uniformMin, 0.0) == lo && Simulator.Default(input.uniformMax, 1.0) == hi;
    var data := Simulator.SimulationOf(input, env.draws).value.generatedData;
    forall i | 0 <= i < |data|
      ensures lo <= data[i] <= hi
    {
      if lo == hi {
        assert data[i] == lo;
      }
    }
  }

  /** The checks rule out every error of the simulator and of the summary
      computed on its output: the sample has the requested size, the
      summary counts it, and a uniform sample lies in [min, max]. */
  lemma SimulatorModeOutcome(distribution: Simulator.Distribution, points: string, uniformMin: string, uniformMax: string,
                             binomialTrials: string, binomialProbability: string, env: Env)
    requires Simulator.IsRandomStream(env.draws)
    ensures var r := SimulatorMode(distribution, points, uniformMin, uniformMax, binomialTrials, binomialProbability, env);
      && (r.Err? ==> !ThrownByService(r.error))
      && (r.Ok? ==>
            var data := r.value.simulation.generatedData;
            && 0 < |data| == env.parseInt(points).value <= MAX_SIMULATED_POINTS
            && r.value.summaryStats.count == |data|
            && (distribution == Simulator.Uniform ==>
                  forall i :: 0 <= i < |data| ==>
                    env.parseFloat(uniformMin).value <= data[i] <= env.parseFloat(uniformMax).value))
  {
    var r := SimulatorMode(distribution, points, uniformMin, uniformMax, binomialTrials, binomialProbability, env);
    var count := env.parseInt(points);
    if count.Some? && 0 < count.value <= MAX_SIMULATED_POINTS {
      var checked := SimulatorInputOf(distribution, count.value, uniformMin, uniformMax, binomialTrials, binomialProbability, env);
      if checked.Ok? {
        var input := checked.value;
        CheckedInputSimulates(distribution, count.value, uniformMin, uniformMax, binomialTrials, binomialProbability, env);
        var sim := Simulator.SimulationOf(input, env.draws).value;
        var data := sim.generatedData;
        DescriptiveReport.FailsExactlyWhenEmpty(data, false, env.m);
        var summary := DescriptiveReport.DescriptiveStats(data, false, env.m).value;
        DescriptiveReport.Shape(data, false, env.m);
        assert r == Ok(SimulatorResults(sim, summary));
        if distribution == Simulator.Uniform {
          UniformSampleWithin(count.value, uniformMin, uniformMax, binomialTrials, binomialProbability, env);
        }
      } else {
        assert r == Err(checked.error);
      }
    }
  }

  lemma ProbabilitySumSnoc(rows: seq<Analysis.Outcome>, extra: seq<Analysis.Outcome>)
    requires |extra| <= 1
    ensures Analysis.ProbabilitySum(rows + extra) ==
      Analysis.ProbabilitySum(rows) + (if extra == [] then 0.0 else extra[0].p)
  {
    if extra != [] {
      assert (rows + extra)[..|rows + extra| - 1] == rows;
    } else {
      assert rows + extra == rows;
    }
  }

  /** The checks rule out every error of the service: rows with a negative
      p never reach it, and it sees a sum already known to be 1. */
  lemma DiscreteRVModeOutcome(rows: seq<RandomVariableTable.DiscreteRVEntry>, env: Env)
    requires Lawful(env.m)
    ensures var r := DiscreteRVMode(rows, env);
      var outcomes := ValidOutcomes(rows, env.parseFloat);
      && (r.Err? ==> !ThrownByService(r.error))
      && (r.Ok? <==> outcomes != [] && Abs(Analysis.ProbabilitySum(outcomes) - 1.0) <= Analysis.SUM_TOLERANCE)
  {
    var outcomes := ValidOutcomes(rows, env.parseFloat);
    if outcomes != [] && Abs(Analysis.ProbabilitySum(outcomes) - 1.0) <= Analysis.SUM_TOLERANCE {
      DiscreteRVServiceAccepts(rows, env);
    } else {
      DiscreteRVModeRefuses(rows, env);
    }
  }

  /** No kept rows, or a sum further than 1e-9 from 1: the calculation's
      own errors. */
  lemma DiscreteRVModeRefuses(rows: seq<RandomVariableTable.DiscreteRVEntry>, env: Env)
    requires var outcomes := ValidOutcomes(rows, env.parseFloat);
      outcomes == [] || Abs(Analysis.ProbabilitySum(outcomes) - 1.0) > Analysis.SUM_TOLERANCE
    ensures DiscreteRVMode(rows, env).Err? && !ThrownByService(DiscreteRVMode(rows, env).error)
  {
    var outcomes := ValidOutcomes(rows, env.parseFloat);
    if outcomes == [] {
      assert !ThrownByService(NoValidRandomVariableRows);
    } else {
      assert !ThrownByService(RandomVariableSumNotOne(Analysis.ProbabilitySum(outcomes)));
    }
  }

  /** Kept rows whose sum is within 1e-9 of 1 pass the service's checks. */
  lemma DiscreteRVServiceAccepts(rows: seq<RandomVariableTable.DiscreteRVEntry>, env: Env)
    requires var outcomes := ValidOutcomes(rows, env.parseFloat);
      outcomes != [] && Abs(Analysis.ProbabilitySum(outcomes) - 1.0) <= Analysis.SUM_TOLERANCE
    ensures DiscreteRVMode(rows, env).Ok?
  {
    var outcomes := ValidOutcomes(rows, env.parseFloat);
    assert !Analysis.SomeNegative(outcomes);
    Analysis.DiscreteRVFailures(outcomes, env.m);
  }

  /** An accepted table is summarised over the rows kept, with a
      non-negative variance and its square root. */
  lemma DiscreteRVModeResult(rows: seq<RandomVariableTable.DiscreteRVEntry>, env: Env)
    requires Lawful(env.m)
    ensures var r := DiscreteRVMode(rows, env);
      r.Ok? ==>
        && r.value.analysis.summaryTable == ValidOutcomes(rows, env.parseFloat)
        && 0.0 <= r.value.analysis.variance
        && r.value.analysis.stdDev.Some?
  {
    var outcomes := ValidOutcomes(rows, env.parseFloat);
    var r := DiscreteRVMode(rows, env);
    if r.Ok? {
      assert outcomes != [] && Abs(Analysis.ProbabilitySum(outcomes) - 1.0) <= Analysis.SUM_TOLERANCE;
      DiscreteRVServiceAccepts(rows, env);
      var service := Analysis.DiscreteRVOf(outcomes, env.m);
      assert r == Ok(DiscreteRVResults(service.value));
      Analysis.DiscreteRVMoments(outcomes, env.m);
    }
  }

  /** The checks rule out every error of the service, and the posterior
      reported is a probability. */
  lemma BayesModeOutcome(probA: string, probBGivenA: string, probBGivenNotA: string, env: Env)
    ensures var r := BayesMode(probA, probBGivenA, probBGivenNotA, env);
      && (r.Err? ==> !ThrownByService(r.error))
      && (r.Ok? ==>
            && r.value.bayes.probAGivenB.Some?
            && Analysis.IsProbability(r.value.bayes.probAGivenB.value)
            && Analysis.IsProbability(r.value.bayes.probB))
  {
    var a := env.parseFloat(probA);
    var l := env.parseFloat(probBGivenA);
    var f := env.parseFloat(probBGivenNotA);
    if a.Some? && l.Some? && f.Some? {
      Analysis.BayesFailures(a.value, l.value, f.value);
      if BayesMode(probA, probBGivenA, probBGivenNotA, env).Ok? {
        Analysis.BayesPosterior(a.value, l.value, f.value);
      }
    }
  }

  /** A service error shown for a request is "no data" for a blank data
      field, or an operation the set form does not offer. */
  predicate ServiceErrorExplained(request: Request, r: Result<Calculation, Error>) {
    r.Err? && ThrownByService(r.error) ==>
      || (request.DescriptiveForm? && IsBlank(request.data) && r.error == EmptyDescriptiveData)
      || (request.FrequencyForm? && IsBlank(request.data) && r.error == EmptyFrequencyData)
      || (request.SetForm? && request.operation.Other?)
  }

  // One lemma per form: each unfolds `Calculate` once and calls the
  // form's own outcome lemma.

  lemma ServiceErrorsOfDescriptive(request: Request, env: Env)
    requires Lawful(env.m)
    requires request.DescriptiveForm?
    ensures ServiceErrorExplained(request, Calculate(request, env))
  {
    var DescriptiveForm(data, showSteps) := request;
    assert Calculate(request, env) == DescriptiveMode(data, showSteps, env);
    DescriptiveModeOutcome(data, showSteps, env);
  }

  lemma ServiceErrorsOfFrequency(request: Request, env: Env)
    requires Lawful(env.m)
    requires request.FrequencyForm?
    ensures ServiceErrorExplained(request, Calculate(request, env))
  {
    var FrequencyForm(data) := request;
    assert Calculate(request, env) == FrequencyMode(data, env);
    FrequencyModeOutcome(data, env);
  }

  lemma ServiceErrorsOfBinomial(request: Request, env: Env)
    requires Lawful(env.m)
    requires request.BinomialForm?
    ensures ServiceErrorExplained(request, Calculate(request, env))
  {
    var BinomialForm(n, p, x) := request;
    assert Calculate(request, env) == BinomialMode(n, p, x, env);
    BinomialModeOutcome(n, p, x, env);
  }

  lemma ServiceErrorsOfNormal(request: Request, env: Env)
    requires Lawful(env.m)
    requires request.NormalForm?
    ensures ServiceErrorExplained(request, Calculate(request, env))
  {
    var NormalForm(mean, stdDev, x1, x2) := request;
    assert Calculate(request, env) == NormalMode(mean, stdDev, x1, x2, env);
    NormalModeOutcome(mean, stdDev, x1, x2, env);
  }

  lemma ServiceErrorsOfSet(request: Request, env: Env)
    requires Lawful(env.m)
    requires request.SetForm?
    ensures ServiceErrorExplained(request, Calculate(request, env))
  {
    var SetForm(a, b, op) := request;
    assert Calculate(request, env) == SetMode(a, b, op, env);
    SetModeAccepts(a, b, op, env);
  }

  lemma ServiceErrorsOfCombinatorics(request: Request, env: Env)
    requires Lawful(env.m)
    requires request.CombinatoricsForm?
    ensures ServiceErrorExplained(request, Calculate(request, env))
  {
    var CombinatoricsForm(n, k, op) := request;
    assert Calculate(request, env) == CombinatoricsMode(n, k, op, env);
    CombinatoricsModeOutcome(n, k, op, env);
  }

  lemma ServiceErrorsOfBasicProbability(request: Request, env: Env)
    requires Lawful(env.m)
    requires request.BasicProbabilityForm?
    ensures ServiceErrorExplained(request, Calculate(request, env))
  {
    var BasicProbabilityForm(f, p) := request;
    assert Calculate(request, env) == BasicProbabilityMode(f, p, env);
    BasicProbabilityModeOutcome(f, p, env);
  }

  lemma ServiceErrorsOfConditionalProbability(request: Request, env: Env)
    requires Lawful(env.m)
    requires request.ConditionalProbabilityForm?
    ensures ServiceErrorExplained(request, Calculate(request, env))
  {
    var ConditionalProbabilityForm(both, pB) := request;
    assert Calculate(request, env) == ConditionalProbabilityMode(both, pB, env);
    ConditionalProbabilityModeOutcome(both, pB, env);
  }

  lemma ServiceErrorsOfPoisson(request: Request, env: Env)
    requires Lawful(env.m)
    requires request.PoissonForm?
    ensures ServiceErrorExplained(request, Calculate(request, env))
  {
    var PoissonForm(rate, k) := request;
    assert Calculate(request, env) == PoissonMode(rate, k, env);
    PoissonModeOutcome(rate, k, env);
  }

  lemma ServiceErrorsOfExponential(request: Request, env: Env)
    requires Lawful(env.m)
    requires request.ExponentialForm?
    ensures ServiceErrorExplained(request, Calculate(request, env))
  {
    var ExponentialForm(rate, x) := request;
    assert Calculate(request, env) == ExponentialMode(rate, x, env);
    ExponentialModeOutcome(rate, x, env);
  }

  lemma ServiceErrorsOfMeans(request: Request, env: Env)
    requires Lawful(env.m)
    requires request.MeansForm?
    ensures ServiceErrorExplained(request, Calculate(request, env))
  {
    var MeansForm(mu, sigma, n, xBar) := request;
    assert Calculate(request, env) == MeansMode(mu, sigma, n, xBar, env);
    MeansModeOutcome(mu, sigma, n, xBar, env);
  }

  lemma ServiceErrorsOfProportions(request: Request, env: Env)
    requires Lawful(env.m)
    requires request.ProportionsForm?
    ensures ServiceErrorExplained(request, Calculate(request, env))
  {
    var ProportionsForm(p, n, pHat) := request;
    assert Calculate(request, env) == ProportionsMode(p, n, pHat, env);
    ProportionsModeOutcome(p, n, pHat, env);
  }

  lemma ServiceErrorsOfConfidenceInterval(request: Request, env: Env)
    requires Lawful(env.m)
    requires request.ConfidenceIntervalForm?
    ensures ServiceErrorExplained(request, Calculate(request, env))
  {
    var ConfidenceIntervalForm(xBar, sigma, n, level) := request;
    assert Calculate(request, env) == ConfidenceIntervalMode(xBar, sigma, n, level, env);
    ConfidenceIntervalModeOutcome(xBar, sigma, n, level, env);
  }

  lemma ServiceErrorsOfSimulator(request: Request, env: Env)
    requires Lawful(env.m) && Simulator.IsRandomStream(env.draws)
    requires request.SimulatorForm?
    ensures ServiceErrorExplained(request, Calculate(request, env))
  {
    var SimulatorForm(d, points, lo, hi, n, p) := request;
    assert Calculate(request, env) == SimulatorMode(d, points, lo, hi, n, p, env);
    SimulatorModeOutcome(d, points, lo, hi, n, p, env);
  }

  lemma ServiceErrorsOfDiscreteRV(request: Request, env: Env)
    requires Lawful(env.m)
    requires request.DiscreteRVForm?
    ensures ServiceErrorExplained(request, Calculate(request, env))
  {
    var DiscreteRVForm(rows) := request;
    assert Calculate(request, env) == DiscreteRVMode(rows, env);
    DiscreteRVModeOutcome(rows, env);
  }

  lemma ServiceErrorsOfBayes(request: Request, env: Env)
    requires Lawful(env.m)
    requires request.BayesForm?
    ensures ServiceErrorExplained(request, Calculate(request, env))
  {
    var BayesForm(a, l, f) := request;
    assert Calculate(request, env) == BayesMode(a, l, f, env);
    BayesModeOutcome(a, l, f, env);
  }

  /** The only service errors a user can see: "no data" for a blank data
      field, and an operation the set form does not offer. */
  lemma ServiceErrorsReachable(request: Request, env: Env)
    requires Lawful(env.m) && Simulator.IsRandomStream(env.draws)
    ensures var r := Calculate(request, env);
      r.Err? && ThrownByService(r.error) ==>
        || (request.DescriptiveForm? && IsBlank(request.data) && r.error == EmptyDescriptiveData)
        || (request.FrequencyForm? && IsBlank(request.data) && r.error == EmptyFrequencyData)
        || (request.SetForm? && request.operation.Other?)
  {
    match request
    case DescriptiveForm(_, _) => ServiceErrorsOfDescriptive(request, env);
    case FrequencyForm(_) => ServiceErrorsOfFrequency(request, env);
    case BinomialForm(_, _, _) => ServiceErrorsOfBinomial(request, env);
    case NormalForm(_, _, _, _) => ServiceErrorsOfNormal(request, env);
    case SetForm(_, _, _) => ServiceErrorsOfSet(request, env);
    case CombinatoricsForm(_, _, _) => ServiceErrorsOfCombinatorics(request, env);
    case BasicProbabilityForm(_, _) => ServiceErrorsOfBasicProbability(request, env);
    case ConditionalProbabilityForm(_, _) => ServiceErrorsOfConditionalProbability(request, env);
    case PoissonForm(_, _) => ServiceErrorsOfPoisson(request, env);
    case ExponentialForm(_, _) => ServiceErrorsOfExponential(request, env);
    case MeansForm(_, _, _, _) => ServiceErrorsOfMeans(request, env);
    case ProportionsForm(_, _, _) => ServiceErrorsOfProportions(request, env);
    case ConfidenceIntervalForm(_, _, _, _) => ServiceErrorsOfConfidenceInterval(request, env);
    case SimulatorForm(_, _, _, _, _, _) => ServiceErrorsOfSimulator(request, env);
    case DiscreteRVForm(_) => ServiceErrorsOfDiscreteRV(request, env);
    case BayesForm(_, _, _) => ServiceErrorsOfBayes(request, env);
  }

  // ----- the table's live indicator against the calculation -----

  /** When every x in the table is a number, the indicator of the table
      and the calculation add up the same probabilities. */
  lemma {:induction false} IndicatorSumIsCalculationSum(rows: seq<RandomVariableTable.DiscreteRVEntry>, parseFloat: string -> Option<real>)
    requires forall i :: 0 <= i < |rows| ==> parseFloat(rows[i].x).Some?
    ensures Analysis.ProbabilitySum(ValidOutcomes(rows, parseFloat)) == RandomVariableTable.ProbabilitySum(rows, parseFloat)
  {
    if rows != [] {
      var init := rows[..|rows| - 1];
      IndicatorSumIsCalculationSum(init, parseFloat);
      ProbabilitySumSnoc(ValidOutcomes(init, parseFloat), OutcomeOf(rows[|rows| - 1], parseFloat));
    }
  }

  /** With every x a number, a sum the indicator shows as valid and not 0
      passes the calculation's check, and a warning shown means the
      calculation will refuse the table.  A table whose sum is 0 shows no
      warning, yet the calculation refuses it. */
  lemma IndicatorAgreesWithCalculation(rows: seq<RandomVariableTable.DiscreteRVEntry>, env: Env)
    requires Lawful(env.m)
    requires forall i :: 0 <= i < |rows| ==> env.parseFloat(rows[i].x).Some?
    ensures var sum := RandomVariableTable.ProbabilitySum(rows, env.parseFloat);
      && (RandomVariableTable.SumValid(sum) && sum != 0.0 ==> DiscreteRVMode(rows, env).Ok?)
      && (RandomVariableTable.ShowsWarning(sum) ==> DiscreteRVMode(rows, env).Err?)
      && (sum == 0.0 ==> DiscreteRVMode(rows, env).Err?)
  {
    var outcomes := ValidOutcomes(rows, env.parseFloat);
    IndicatorSumIsCalculationSum(rows, env.parseFloat);
    if outcomes == [] {
      assert Analysis.ProbabilitySum(outcomes) == 0.0;
    }
    DiscreteRVModeOutcome(rows, env);
  }

  // ----- the component state -----

  /** The part of the application state a calculation writes. */
  class Calculator {
    var results: Option<Calculation>
    var error: Option<Error>
    var isLoading: bool

    constructor()
      ensures results == None && error == None && !isLoading
    {
      results := None;
      error := None;
      isLoading := false;
    }

    /** `performCalculation`: clear the previous outcome, compute, then
        show either the results or the error, and stop loading. */
    method PerformCalculation(request: Request, env: Env)
      requires Lawful(env.m)
      modifies this
      ensures Calculate(request, env).Ok? ==> results == Some(Calculate(request, env).value) && error == None
      ensures Calculate(request, env).Err? ==> results == None && error == Some(Calculate(request, env).error)
      ensures results.Some? != error.Some?
      ensures !isLoading
    {
      isLoading := true;
      results := None;
      error := None;
      var outcome := Calculate(request, env);
      if outcome.Ok? {
        results := Some(outcome.value);
        error := None;
      } else {
        error := Some(outcome.error);
      }
      isLoading := false;
    }
  }
}

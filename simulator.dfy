/** `generateRandomData` of services/StatService.ts for the uniform and the
    binomial distributions.  `Math.random()` is the stream `draws`: the
    k-th call returns `draws(k)`. */
module Simulator {
  import opened Wrappers
  import opened Numerics
  import opened Errors

  datatype Distribution = Uniform | Binomial

  /** `DataSimulatorInput`; absent optional fields are `None`. */
  datatype SimulatorInput = SimulatorInput(
    distributionType: Distribution,
    nPoints: int,
    uniformMin: Option<real>,
    uniformMax: Option<real>,
    binomialN: Option<real>,
    binomialP: Option<real>)

  datatype Simulation = Simulation(generatedData: seq<real>, parameters: SimulatorInput)

  /** What `Math.random()` promises. */
  ghost predicate IsRandomStream(draws: nat -> real) {
    forall k: nat :: 0.0 <= draws(k) < 1.0
  }

  function Default(v: Option<real>, d: real): real {
    if v.Some? then v.value else d
  }

  /** The uniform sample: no draw at all when min = max, else the i-th draw
      scaled to [min, max). */
  function UniformData(count: nat, lo: real, hi: real, draws: nat -> real): (r: seq<real>)
    ensures |r| == count
  {
    if count == 0 then []
    else UniformData(count - 1, lo, hi, draws) + [UniformValue(count - 1, lo, hi, draws)]
  }

  function UniformValue(i: nat, lo: real, hi: real, draws: nat -> real): real {
    if lo == hi then lo else Scale(draws(i), lo, hi - lo)
  }

  /** `Math.random() * (max - min) + min`, with w = max - min. */
  function Scale(u: real, lo: real, w: real): real {
    u * w + lo
  }

  lemma {:induction false} UniformDataAt(count: nat, lo: real, hi: real, draws: nat -> real)
    ensures |UniformData(count, lo, hi, draws)| == count
    ensures forall k :: 0 <= k < count ==> UniformData(count, lo, hi, draws)[k] == UniformValue(k, lo, hi, draws)
  {
    if count > 0 {
      UniformDataAt(count - 1, lo, hi, draws);
    }
  }

  /** The number of draws among the `n` starting at `start` that fall
      below `p`. */
  function Successes(draws: nat -> real, start: nat, n: nat, p: real): nat {
    if n == 0 then 0
    else Successes(draws, start, n - 1, p) + (if draws(start + n - 1) < p then 1 else 0)
  }

  /** The binomial sample: point i spends draws i n .. i n + n - 1. */
  function BinomialData(count: nat, n: nat, p: real, draws: nat -> real): seq<real> {
    seq(count, i requires 0 <= i < count => Successes(draws, i * n, n, p) as real)
  }

  function SimulationOf(input: SimulatorInput, draws: nat -> real): Result<Simulation, Error> {
    if input.nPoints <= 0 then Ok(Simulation([], input))
    else match input.distributionType
      case Uniform =>
        var lo := Default(input.uniformMin, 0.0);
        var hi := Default(input.uniformMax, 1.0);
        if lo > hi then Err(UniformMinAboveMax)
        else Ok(Simulation(UniformData(input.nPoints, lo, hi, draws), input))
      case Binomial =>
        var n := Default(input.binomialN, 10.0);
        var p := Default(input.binomialP, 0.5);
        if n <= 0.0 || !IsInteger(n) then Err(InvalidTrialCount)
        else if p < 0.0 || p > 1.0 then Err(SuccessProbabilityOutOfRange)
        else Ok(Simulation(BinomialData(input.nPoints, n.Floor, p, draws), input))
  }

  lemma BinomialStep(i: nat, n: nat, p: real, draws: nat -> real)
    ensures BinomialData(i + 1, n, p, draws) ==
      BinomialData(i, n, p, draws) + [Successes(draws, i * n, n, p) as real]
  {
    var longer := BinomialData(i + 1, n, p, draws);
    var shorter := BinomialData(i, n, p, draws);
    assert forall k :: 0 <= k < i ==> longer[k] == shorter[k];
  }

  /** The uniform push loop: one draw per point unless min = max. */
  method UniformLoop(count: nat, lo: real, hi: real, draws: nat -> real) returns (generatedData: seq<real>)
    ensures generatedData == UniformData(count, lo, hi, draws)
  {
    generatedData := [];
    var cursor: nat := 0;
    for i := 0 to count
      invariant generatedData == UniformData(i, lo, hi, draws)
      invariant cursor == if lo == hi then 0 else i
    {
      assert UniformData(i + 1, lo, hi, draws) == UniformData(i, lo, hi, draws) + [UniformValue(i, lo, hi, draws)];
      if lo == hi {
        generatedData := generatedData + [lo];
      } else {
        generatedData := generatedData + [Scale(draws(cursor), lo, hi - lo)];
        cursor := cursor + 1;
      }
    }
  }

  /** The binomial push loop: n draws per point, each compared with p. */
  method BinomialLoop(count: nat, n: nat, p: real, draws: nat -> real) returns (generatedData: seq<real>)
    ensures generatedData == BinomialData(count, n, p, draws)
  {
    generatedData := [];
    var cursor: nat := 0;
    for i := 0 to count
      invariant generatedData == BinomialData(i, n, p, draws)
      invariant cursor == i * n
    {
      var successes: nat := 0;
      for j := 0 to n
        invariant successes == Successes(draws, i * n, j, p)
        invariant cursor == i * n + j
      {
        if draws(cursor) < p {
          successes := successes + 1;
        }
        cursor := cursor + 1;
      }
      BinomialStep(i, n, p, draws);
      generatedData := generatedData + [successes as real];
      assert cursor == (i + 1) * n;
    }
  }

  /** The source's function: the early return, the checks, then the loop
      for the chosen distribution. */
  method GenerateRandomData(input: SimulatorInput, draws: nat -> real) returns (r: Result<Simulation, Error>)
    ensures r == SimulationOf(input, draws)
  {
    if input.nPoints <= 0 {
      return Ok(Simulation([], input));
    }
    var generatedData: seq<real>;
    match input.distributionType {
      case Uniform =>
        var lo := Default(input.uniformMin, 0.0);
        var hi := Default(input.uniformMax, 1.0);
        if lo > hi {
          return Err(UniformMinAboveMax);
        }
        generatedData := UniformLoop(input.nPoints, lo, hi, draws);
      case Binomial =>
        var n := Default(input.binomialN, 10.0);
        var p := Default(input.binomialP, 0.5);
        if n <= 0.0 || !IsInteger(n) {
          return Err(InvalidTrialCount);
        }
        if p < 0.0 || p > 1.0 {
          return Err(SuccessProbabilityOutOfRange);
        }
        generatedData := BinomialLoop(input.nPoints, n.Floor, p, draws);
    }
    r := Ok(Simulation(generatedData, input));
  }

  /** A non-positive point count returns an empty sample before any check;
      otherwise the uniform simulation fails exactly when min > max and the
      binomial one when n is not a positive integer or, after that, when p
      is outside [0, 1]. */
  lemma SimulationFailures(input: SimulatorInput, draws: nat -> real)
    ensures input.nPoints <= 0 ==> SimulationOf(input, draws) == Ok(Simulation([], input))
    ensures input.nPoints > 0 && input.distributionType == Uniform ==>
      (SimulationOf(input, draws) == Err(UniformMinAboveMax) <==>
       Default(input.uniformMin, 0.0) > Default(input.uniformMax, 1.0))
    ensures input.nPoints > 0 && input.distributionType == Binomial ==>
      var n := Default(input.binomialN, 10.0);
      var p := Default(input.binomialP, 0.5);
      && (SimulationOf(input, draws) == Err(InvalidTrialCount) <==> n <= 0.0 || !IsInteger(n))
      && (SimulationOf(input, draws) == Err(SuccessProbabilityOutOfRange) <==>
          0.0 < n && IsInteger(n) && (p < 0.0 || p > 1.0))
    ensures SimulationOf(input, draws).Ok? ==> SimulationOf(input, draws).value.parameters == input
  {
  }

  /** An accepted simulation holds exactly nPoints values. */
  lemma SimulationLength(input: SimulatorInput, draws: nat -> real)
    requires SimulationOf(input, draws).Ok?
    ensures |SimulationOf(input, draws).value.generatedData| == if input.nPoints <= 0 then 0 else input.nPoints
  {
    if input.nPoints > 0 && input.distributionType == Uniform {
      UniformDataAt(input.nPoints, Default(input.uniformMin, 0.0), Default(input.uniformMax, 1.0), draws);
    }
  }

  lemma MulLess(a: real, b: real, w: real)
    requires a < b && 0.0 < w
    ensures a * w < b * w
  {
  }

  lemma NonNegativeProduct(a: real, b: real)
    requires 0.0 <= a && 0.0 <= b
    ensures 0.0 <= a * b
  {
  }

  /** A draw in [0, 1) scaled by a positive width w and shifted by lo
      lands in [lo, lo + w). */
  lemma ScaledDraw(u: real, lo: real, w: real)
    requires 0.0 <= u < 1.0 && 0.0 < w
    ensures lo <= Scale(u, lo, w) < lo + w
  {
    MulLess(u, 1.0, w);
    NonNegativeProduct(u, w);
  }

  lemma UniformDataWithin(count: nat, lo: real, hi: real, draws: nat -> real)
    requires IsRandomStream(draws) && lo <= hi
    ensures forall k :: 0 <= k < count ==>
      if lo == hi then UniformData(count, lo, hi, draws)[k] == lo
      else lo <= UniformData(count, lo, hi, draws)[k] < hi
  {
    UniformDataAt(count, lo, hi, draws);
    if lo != hi {
      forall k | 0 <= k < count
        ensures lo <= UniformValue(k, lo, hi, draws) < hi
      {
        ScaledDraw(draws(k), lo, hi - lo);
      }
    }
  }

  /** Every uniform value lies in [min, max), or equals min when the two
      bounds coincide. */
  lemma UniformWithinBounds(input: SimulatorInput, draws: nat -> real)
    requires IsRandomStream(draws)
    requires input.distributionType == Uniform && SimulationOf(input, draws).Ok?
    ensures var lo := Default(input.uniformMin, 0.0);
      var hi := Default(input.uniformMax, 1.0);
      var data := SimulationOf(input, draws).value.generatedData;
      forall i :: 0 <= i < |data| ==>
        (if lo == hi then data[i] == lo else lo <= data[i] < hi)
  {
    if input.nPoints > 0 {
      UniformDataAt(input.nPoints, Default(input.uniformMin, 0.0), Default(input.uniformMax, 1.0), draws);
      UniformDataWithin(input.nPoints, Default(input.uniformMin, 0.0), Default(input.uniformMax, 1.0), draws);
    }
  }

  lemma {:induction false} SuccessesAtMost(draws: nat -> real, start: nat, n: nat, p: real)
    ensures Successes(draws, start, n, p) <= n
  {
    if n > 0 {
      SuccessesAtMost(draws, start, n - 1, p);
    }
  }

  lemma {:induction false} SuccessesCertain(draws: nat -> real, start: nat, n: nat)
    requires IsRandomStream(draws)
    ensures Successes(draws, start, n, 0.0) == 0
    ensures Successes(draws, start, n, 1.0) == n
  {
    if n > 0 {
      SuccessesCertain(draws, start, n - 1);
      assert 0.0 <= draws(start + n - 1) < 1.0;
    }
  }

  /** Every binomial value is a whole number of successes between 0 and n;
      with p = 0 it is always 0 and with p = 1 always n. */
  lemma BinomialCounts(input: SimulatorInput, draws: nat -> real)
    requires IsRandomStream(draws)
    requires input.distributionType == Binomial && input.nPoints > 0 && SimulationOf(input, draws).Ok?
    ensures var n := Default(input.binomialN, 10.0);
      var p := Default(input.binomialP, 0.5);
      var data := SimulationOf(input, draws).value.generatedData;
      forall i :: 0 <= i < |data| ==>
        && IsInteger(data[i]) && 0.0 <= data[i] <= n
        && (p == 0.0 ==> data[i] == 0.0)
        && (p == 1.0 ==> data[i] == n)
  {
    var n := Default(input.binomialN, 10.0);
    var data := SimulationOf(input, draws).value.generatedData;
    forall i | 0 <= i < |data|
      ensures 0.0 <= data[i] <= n
    {
      SuccessesAtMost(draws, i * n.Floor, n.Floor, Default(input.binomialP, 0.5));
    }
    forall i | 0 <= i < |data|
      ensures Default(input.binomialP, 0.5) == 0.0 ==> data[i] == 0.0
      ensures Default(input.binomialP, 0.5) == 1.0 ==> data[i] == n
    {
      SuccessesCertain(draws, i * n.Floor, n.Floor);
    }
  }
}

/** The errors the modelled code throws, one constructor per failed check
    (checks with the same meaning in different modes share one).  The
    wording of the messages is not modelled; the one number a message
    reports (the probability sum of a discrete random variable) is kept. */
module Errors {

  datatype Error =
      // services/StatService.ts
    | EmptyDescriptiveData
    | EmptyFrequencyData
    | RangeBoundsReversed             // x1 > x2 in the normal distribution
    | UnknownSetOperation
    | NonPositiveRate                 // exponential lambda <= 0
    | NonPositiveSigma
    | NonPositiveSampleSize
    | ProportionOutOfRange
    | ProportionDegenerate            // p = 0 or p = 1
    | UnsupportedConfidenceLevel
    | UniformMinAboveMax
    | InvalidTrialCount
    | SuccessProbabilityOutOfRange
    | NoRandomVariableData
    | ProbabilitySumNotOne(sum: real)
    | NegativeProbability
    | PriorOutOfRange                 // P(A)
    | LikelihoodOutOfRange            // P(B|A)
    | FalseAlarmOutOfRange            // P(B|not A)
      // App.tsx (input guards of performCalculation)
    | InvalidDataInput
    | InvalidFrequencyInput
    | InvalidSetAInput
    | InvalidSetBInput
    | InvalidTrials
    | InvalidSuccessProbability
    | InvalidSuccesses
    | InvalidMean
    | InvalidStdDev
    | InvalidX1
    | InvalidX2
    | X1AboveX2
    | InvalidTotal
    | InvalidChosen
    | ChosenAboveTotal                // combinations
    | PermutedAboveTotal              // permutations
    | InvalidFavorable
    | InvalidPossible
    | FavorableAbovePossible
    | InvalidIntersection
    | InvalidConditioning
    | IntersectionAboveConditioning
    | InvalidRate
    | InvalidOccurrences
    | InvalidQueryPoint
    | InvalidPopulationMean
    | InvalidPopulationSigma
    | InvalidSampleSize
    | InvalidSampleMean
    | InvalidPopulationProportion
    | DegeneratePopulationProportion
    | InvalidSampleProportion
    | InvalidConfidenceLevel
    | InvalidPointCount
    | InvalidUniformBounds
    | UniformBoundsReversed
    | InvalidSimulatorTrials
    | InvalidSimulatorProbability
    | NoValidRandomVariableRows
    | RandomVariableSumNotOne(sum: real)
    | InvalidPrior
    | InvalidLikelihood
    | InvalidFalseAlarm

  /** The errors `services/StatService.ts` throws, as opposed to the ones
      the input checks of App.tsx throw before calling it. */
  predicate ThrownByService(e: Error) {
    || e.EmptyDescriptiveData? || e.EmptyFrequencyData? || e.RangeBoundsReversed?
    || e.UnknownSetOperation? || e.NonPositiveRate? || e.NonPositiveSigma?
    || e.NonPositiveSampleSize? || e.ProportionOutOfRange? || e.ProportionDegenerate?
    || e.UnsupportedConfidenceLevel? || e.UniformMinAboveMax? || e.InvalidTrialCount?
    || e.SuccessProbabilityOutOfRange? || e.NoRandomVariableData? || e.ProbabilitySumNotOne?
    || e.NegativeProbability? || e.PriorOutOfRange? || e.LikelihoodOutOfRange?
    || e.FalseAlarmOutOfRange?
  }
}

# Calculadora Estadística — a Dafny model of the calculation core

Calculadora Estadística is a browser calculator for introductory statistics.
The user picks a mode, fills in a form, and presses "calculate". In `App.tsx`,
`performCalculation` reads the form fields of the selected mode and checks
them. It then hands them to `StatService`, which computes one of sixteen
kinds of result:

- descriptive statistics with optional worked steps and a histogram;
- a frequency table;
- binomial, normal, Poisson and exponential distributions;
- set operations;
- combinations and permutations;
- basic and conditional probability;
- sampling distributions of a mean and of a proportion;
- a confidence interval for a mean;
- simulated data;
- the moments of a discrete random variable;
- Bayes' theorem.

The outcome is either a result or the message of the first failed check,
never both. Data can also be typed into two editable tables:

- the one-column table of `components/TableInput.tsx`, whose rows are
  written back to the form as a comma-separated string;
- the value/probability table of `components/DiscreteRVInput.tsx`, which
  shows whether the probabilities add up to 1.

This project models that core in Dafny:

- Numbers are mathematical reals.
- A NaN the source would produce is `None`.
- A thrown error is `Err` of one `Errors.Error` constructor per throw site.
- The transcendental functions of `Math` (`sqrt`, `exp`, `log`, `log10`)
  are an injected oracle `Numerics.Math`. Where results depend on it, they
  are proved under the few laws `Numerics.Lawful` names: a square root
  squares back, `exp` is positive, and `exp` is at most 1 on non-positive
  arguments.
- `parseFloat`, `parseInt` and `localeCompare` are parameters.
- `Math.random()` is a stream of draws in [0, 1).
- `crypto.randomUUID()` is a counter of fresh ids.

Code that loops or updates state is written as Dafny methods and classes:

- the histogram's counting array, with the source's bucket rule (the corrected rule of the Findings is a separate definition, `CorrectedHistogramOf`);
- the dictionary loop of `mode`;
- the class loop of the frequency table;
- the factorial and combination loops;
- the accumulators of the binomial, Poisson and discrete-variable analyses;
- the simulator's push loops;
- the two React components, as classes whose fields are the component state.

Each method is proved equal to a specification function, and the
properties the source promises are lemmas about those functions.

## Model

| member | source | states |
|---|---|---|
| Descriptive.SortAscending | services/StatService.ts:30 | the ascending copy is a permutation of the data, ordered |
| Descriptive.SortAscendingEnds | services/StatService.ts:83-85 | the first and last elements of the ascending copy belong to the data and bound every datum |
| Descriptive.VarianceNonNegative | services/StatService.ts:49-52 | the sample variance is defined exactly from two data on, and is then non-negative |
| Descriptive.Rank | services/StatService.ts:61 | the fractional index p/100·(N−1) lies within [0, N−1] |
| Descriptive.RankMonotone | services/StatService.ts:61 | a larger percentage never gives a smaller index |
| Descriptive.InterpolateBracket | services/StatService.ts:62-69 | the interpolated value lies between the elements at the floor and the ceiling of the index |
| Descriptive.InterpolateMonotone | services/StatService.ts:62-69 | on ascending data, interpolation is monotone in the index |
| Descriptive.PercentileMonotone | services/StatService.ts:58-70 | a larger percentage never gives a smaller percentile |
| Descriptive.PercentileWithinRange | services/StatService.ts:58-70 | every percentile in [0, 100] lies between the least and the greatest value |
| Descriptive.MiddleRankOdd | services/StatService.ts:32 | for an odd count, index 50 % falls on the middle element |
| Descriptive.MiddleRankEven | services/StatService.ts:32 | for an even count, index 50 % gives the average of the two middle elements |
| Descriptive.PercentileFiftyIsMedian | services/StatService.ts:28-33 | the 50th percentile equals the median, empty data included |
| DescriptiveReport.VarianceItems | services/StatService.ts:113-116 | one worked-step row per datum, with its deviation from the mean and the square of it |
| DescriptiveReport.CalculateDescriptiveStats | services/StatService.ts:72-161 | the method computes exactly the specified report, its histogram counted with the source's rule (the maximum forced into the last bucket) |
| DescriptiveReport.FailsExactlyWhenEmpty | services/StatService.ts:73-75 | the summary throws exactly for empty data |
| DescriptiveReport.Shape | services/StatService.ts:76-89 | count, sum, mean, min, max, range, quartiles, median, IQR, variance and standard deviation are the defined statistics of the data |
| DescriptiveReport.ReportIsOrdered | services/StatService.ts:84-89 | min and max are data that bound all data; min ≤ Q1 ≤ median ≤ Q3 ≤ max; range and IQR are non-negative |
| DescriptiveReport.QuartilesOrdered | services/StatService.ts:87-88 | the quartiles and the median are ordered within the data's range |
| DescriptiveReport.MeanWithinRange | services/StatService.ts:77-78 | the mean lies between the least and the greatest value |
| DescriptiveReport.StdDevIsRoot | services/StatService.ts:54-56 | the standard deviation is present with the variance and is its non-negative square root |
| DescriptiveReport.SpreadIsDefined | services/StatService.ts:81-82 | variance and standard deviation are defined exactly from two data on; then the latter squares to the former |
| DescriptiveReport.StepsPresence | services/StatService.ts:96-127 | the worked steps appear only when asked for; variance steps also need two data |
| DescriptiveReport.MeanStepsReproduceMean | services/StatService.ts:97 | the mean steps' sum over count is the reported mean |
| DescriptiveReport.MedianStepsReproduceMedian | services/StatService.ts:99-110 | the median steps hold the sorted data and parity, and the middle value or average they show is the reported median |
| DescriptiveReport.SquaredColumnOfItems | services/StatService.ts:113-117 | the squared-deviation column of the steps is the list of squared deviations |
| DescriptiveReport.VarianceStepsListDeviations | services/StatService.ts:112-124 | the variance steps use the reported mean and list every datum's deviation |
| DescriptiveReport.VarianceStepsReproduceVariance | services/StatService.ts:117-125 | the steps' sum of squares over N−1 is the reported variance, which the standard-deviation step shows |
| DescriptiveReport.HistogramCountsSample | services/StatService.ts:130-153 | the bars of the report's histogram, counted with the source's rule, add up to the number of data |
| Modes.Tally | services/StatService.ts:37-44 | the dictionary loop counts every value, has a key exactly for each value present, and ends with the largest count |
| Modes.Mode | services/StatService.ts:35-47 | the method returns exactly the specified modes |
| Modes.MaxFreqIsLargestCount | services/StatService.ts:38-44 | the running maximum bounds every count and, for non-empty data, is attained by a datum |
| Modes.DistinctSizeIff | services/StatService.ts:45 | the set of values has the data's size exactly when no value repeats |
| Modes.DistinctDataHasMaxFreqOne | services/StatService.ts:45 | data without repetitions have largest count 1 |
| Modes.NoDuplicatesMultiset | services/StatService.ts:45 | no repetition means every multiplicity is at most 1 |
| Modes.ModeEmptyIff | services/StatService.ts:35-47 | there is no mode exactly for empty data or for more than one datum all different |
| Modes.ModeMembers | services/StatService.ts:46 | otherwise the modes are exactly the data of largest count, in ascending order without repetition |
| Histogram.LayoutFor | services/StatService.ts:132-133 | min(10, N) buckets of width at least 0.1 that cover the range |
| Histogram.Clamp | services/StatService.ts:139 | the clamped index is a valid bucket and leaves a valid one unchanged |
| Histogram.SourceBucketMisplacesMaximum | services/StatService.ts:136-141 | the source's rule puts the maximum of [0, 0.05] into a bucket that starts above it (see Findings) |
| Histogram.BucketHoldsValue | services/StatService.ts:137-139 | the corrected bucket of a value starts at or below it and ends above it, the last one closed |
| Histogram.TallyCountsEveryValue | services/StatService.ts:136-141 | under the source's rule, as under the corrected one, every datum is counted in exactly one bucket: the counts add up to N |
| Histogram.Points | services/StatService.ts:143-150 | one bar per bucket, spanning [start, start + width), valued by the count |
| Histogram.HistogramTotal | services/StatService.ts:130-153 | the bars of the source's histogram, and of the corrected one, add up to the number of data, single-valued data included |
| Histogram.CountBuckets | services/StatService.ts:134-141 | the array filled in place holds the counts of the source's rule: floor of offset over width, the maximum forced into the last bucket, then clamped |
| Histogram.Histogram | services/StatService.ts:130-153 | the method builds exactly the bars of the source's rule; their total is N by HistogramTotal |
| Histogram.SourceHistogramMisplacesMaximum | services/StatService.ts:130-153 | for the data [0, 0.05] the source draws the bars [1, 1], the corrected rule [2, 0] (see Findings) |
| Histogram.LabelBuckets | services/StatService.ts:143-150 | the labelling loop gives one bar per bucket, its interval and its count, in bucket order |
| Frequency.CountInSplit | services/StatService.ts:355-357 | the data below a bound plus those in [bound, next) are the data below next |
| Frequency.CountClosedTop | services/StatService.ts:355 | the closed last class takes everything left up to the maximum |
| Frequency.SturgesClasses | services/StatService.ts:333-334 | Sturges' rounded class count is at least 1 |
| Frequency.ClassWidthIsCeiling | services/StatService.ts:336-340 | the width rule, all three branches and the floor of 1, amounts to the ceiling of range/classes, a whole number ≥ 1 |
| Frequency.ClassCount | services/StatService.ts:342-343 | the recomputed class count is at least 1 |
| Frequency.LowerStep | services/StatService.ts:348-349 | each class starts one width after the previous one |
| Frequency.ClassLoop | services/StatService.ts:345-371 | the loop builds exactly the specified classes and chart points |
| Frequency.CalculateFrequencyDistribution | services/StatService.ts:306-378 | the method computes exactly the specified table |
| Frequency.FrequencyFailsExactlyWhenEmpty | services/StatService.ts:308-310 | the table throws exactly for empty data |
| Frequency.SingleClassWithoutSpread | services/StatService.ts:322-330 | data without spread give one class holding everything, relative frequency 1 |
| Frequency.AccumulatedIsCountBelow | services/StatService.ts:345-361 | the accumulated frequency before class i is the number of data below its lower bound |
| Frequency.AccumulatedReachesTotal | services/StatService.ts:361 | after the last class the accumulated frequency is N |
| Frequency.AccumulatedMonotone | services/StatService.ts:361 | accumulated frequencies never decrease |
| Frequency.ClassesLayout | services/StatService.ts:347-351 | classes start at vMin, are adjacent and half-open with a closed last class ending at vMax, and each class mark lies in its class |
| Frequency.SpreadLayout | services/StatService.ts:332-371 | for data with spread: whole width ≥ 1, one class and one chart point per class, laid out as above |
| Frequency.SpreadCounts | services/StatService.ts:353-370 | the last accumulated frequency is N, accumulation is monotone, and bar and polygon both show the absolute frequency |
| Frequency.FrequencyOfSpread | services/StatService.ts:312-315 | a non-zero range means the sorted data have spread and the table is the spread table |
| Frequency.RelativeFrequenciesSumToOne | services/StatService.ts:360 | the relative frequencies of every table add up to 1 |
| Frequency.SpreadRelative | services/StatService.ts:360 | the same for the spread branch |
| Combinatorics.ChooseFactorial | services/StatService.ts:172-194 | the Pascal-rule coefficient satisfies C(n,k)·k!·(n−k)! = n! |
| Combinatorics.ChooseSymmetric | services/StatService.ts:175 | C(n,k) = C(n,n−k), which justifies the source's k ← n−k |
| Combinatorics.ChooseStep | services/StatService.ts:190-192 | C(n,i)·i = C(n,i−1)·(n−i+1), the multiplicative step |
| Combinatorics.FallingFactorial | services/StatService.ts:462-477 | the falling factorial is n!/(n−r)! and equals C(n,r)·r! |
| Combinatorics.FactorialOf | services/StatService.ts:163-170 | factorial is finite exactly on 0..170 and then at least 1 |
| Combinatorics.Factorial | services/StatService.ts:163-170 | the loop computes the specified factorial |
| Combinatorics.LogFactorial | services/StatService.ts:178-184 | the loop sums the logarithms 1..num |
| Combinatorics.Combinations | services/StatService.ts:172-194 | the method computes the specified value, on both the exact and the logarithmic path |
| Combinatorics.MultiplicativeChoose | services/StatService.ts:189-193 | the multiplicative loop yields exactly C(n,k) |
| Combinatorics.CombinationsIsChoose | services/StatService.ts:172-194 | for n ≤ 30, combinations is C(n,k) inside 0..n and 0 outside |
| Combinatorics.Permutations | services/StatService.ts:462-477 | the method computes the specified value |
| Combinatorics.PermutationsCount | services/StatService.ts:462-477 | permutations are 0 outside 0..n, n!/(n−r)! when finite, and Infinity exactly when the factorials overflow |
| Combinatorics.ProbabilityQuotients | services/StatService.ts:479-487 | both probability quotients are NaN exactly for a zero denominator; a part of a whole gives a value in [0, 1] |
| Binomial.TermStep | services/StatService.ts:196-199 | binomial terms obey Pascal's rule in n |
| Binomial.RowSumIsPower | services/StatService.ts:224-230 | a row of any Pascal-like table sums to (p+q)^n |
| Binomial.BinomialTheorem | services/StatService.ts:224-230 | the terms C(n,k)p^k q^(n−k), k = 0..n, sum to (p+q)^n |
| Binomial.TermSumMonotone | services/StatService.ts:224-230 | with q = 1−p, partial sums of terms grow with their length |
| Binomial.SumPmf | services/StatService.ts:223-230 | the accumulation loop computes the specified sum of PMF values |
| Binomial.ChartPoints | services/StatService.ts:207-214 | the chart loop builds exactly the specified points |
| Binomial.CalculateBinomialDistribution | services/StatService.ts:201-237 | the method computes exactly the specified result |
| Binomial.PmfIsBinomialTerm | services/StatService.ts:196-199 | the PMF is NaN exactly for p outside [0, 1]; otherwise it is the binomial term, non-negative |
| Binomial.PmfValue | services/StatService.ts:196-199 | for valid p the PMF is combinations · p^k · (1−p)^(n−k) |
| Binomial.PmfTerm | services/StatService.ts:196-199 | for n <= 30 and valid p the PMF is exactly the binomial term C(n,k) p^k (1−p)^(n−k) |
| Binomial.CumulativeIsTermSum | services/StatService.ts:224-230 | a sum of PMF values is NaN exactly for invalid p, else a difference of partial term sums |
| Binomial.QueryTailsAddUp | services/StatService.ts:221-231 | for a valid query, P(X≤x) + P(X≥x) = 1 + P(X=x), each tail in [0, 1] |
| Binomial.QueryPresence | services/StatService.ts:217-231 | for every n, the three probabilities are present exactly for 0 ≤ x ≤ n, and NaN exactly for invalid p |
| Binomial.CumulativeNaN | services/StatService.ts:222-229 | for every n, a non-empty running total is NaN exactly when p is outside [0, 1] |
| Binomial.ChartShape | services/StatService.ts:207-214 | the chart has a point for each k ≤ min(n, 50), plus a "...n" marker for 50 < n ≤ 1000 |
| Binomial.SpreadOfValidP | services/StatService.ts:203-205 | for p in [0, 1] the mean is n·p in [0, n], and the standard deviation is a square root of the non-negative variance |
| Normal.UpperCdfEven | services/StatService.ts:253-256 | the uncorrected tail formula is symmetric in x |
| Normal.StandardNormalMirror | services/StatService.ts:258-261 | Φ(−z) = 1 − Φ(z) for z ≠ 0 |
| Normal.NormalCdfMirror | services/StatService.ts:264-268 | points mirrored about the mean have CDF values adding up to 1 |
| Normal.NormalFailsExactlyWhenReversed | services/StatService.ts:293-294 | the computation throws exactly when both points are given and x1 > x2 |
| Normal.NormalQueries | services/StatService.ts:283-298 | which queries are present; NaN exactly for σ ≤ 0 (z-score for σ = 0); P(X<x1) + P(X>x1) = 1 |
| SetOperations.Dedupe | services/StatService.ts:381-383 | building a Set keeps every element once |
| SetOperations.Keep | services/StatService.ts:389-395 | filtering by membership keeps exactly the elements in (or not in) the other set |
| SetOperations.ParseElementsMembers | services/StatService.ts:381-383 | parsed elements are distinct: the non-empty trimmed inputs |
| SetOperations.UnionAppends | services/StatService.ts:385-387 | the union is A followed by the elements of B not in A |
| SetOperations.DifferenceIsFilter | services/StatService.ts:389-395 | difference and intersection are order-preserving filters of A |
| SetOperations.ResultSetMembers | services/StatService.ts:385-440 | every known operation gives a duplicate-free set with exactly its mathematical members; an unknown one gives none |
| SetOperations.SortElementsOrder | services/StatService.ts:403-412 | the sort is a permutation putting numbers first, ascending, then the rest in locale order |
| SetOperations.NumericFirstPreorder | services/StatService.ts:403-412 | the comparator is a total preorder whenever locale order is |
| SetOperations.Decomposition | services/StatService.ts:441-452 | A splits into A∖B and A∩B, B into B∖A and A∩B, all three disjoint |
| SetOperations.UnionSize | services/StatService.ts:385-387 | \|A∪B\| + \|A∩B\| = \|A\| + \|B\| |
| SetOperations.SymmetricDifferenceSize | services/StatService.ts:397-399 | the symmetric difference is A∖B followed by B∖A |
| SetOperations.SetReportCounts | services/StatService.ts:441-459 | each count is its list's size; \|A\| = only-A + both, \|B\| = only-B + both |
| SetOperations.SetReportDisjoint | services/StatService.ts:441-452 | only-in-A, only-in-B and intersection are pairwise disjoint |
| SetOperations.SetReportOperationCounts | services/StatService.ts:414-459 | union count + intersection count = \|A\| + \|B\|; symmetric-difference count = only-A + only-B |
| SetOperations.SetOperationFailures | services/StatService.ts:436-438 | the operation throws exactly for an unknown operation type |
| Sorting.Sort | services/StatService.ts:403-412 | the insertion sort is a permutation of its input |
| Sorting.SortSorted | services/StatService.ts:403-412 | under a total preorder the insertion sort's output is sorted |
| Poisson.PmfNonNegative | services/StatService.ts:489-496 | for λ ≥ 0 and a count k ≥ 0 the PMF is a number ≥ 0 |
| Poisson.CumulativeNonNegative | services/StatService.ts:527-530 | for λ ≥ 0 the summed PMF is a number ≥ 0 |
| Poisson.CumulativeNaN | services/StatService.ts:489-530 | for λ < 0 the summed PMF is NaN |
| Poisson.CalculatePoissonDistribution | services/StatService.ts:498-542 | the method computes exactly the specified result |
| Poisson.ChartPoints | services/StatService.ts:505-518 | the chart loop gives the PMF of 0 to the top, then the marker exactly when it is wanted |
| Poisson.RunningTotal | services/StatService.ts:527-530 | the summing loop yields the PMF of 0 to n − 1 added in order (n is k + 1), NaN as soon as one is NaN |
| Poisson.QueryTails | services/StatService.ts:524-535 | for a whole k ≥ 0, NaN exactly for λ < 0; otherwise the clamped tails lie in [0, 1] and add up to 1 |
| Poisson.QueryPresence | services/StatService.ts:520-535 | the three probabilities are present exactly for a whole k ≥ 0 |
| Poisson.ChartShape | services/StatService.ts:505-518 | for λ ≥ 0 the chart has one PMF point for each i ≤ its bound, below 40 points and without a marker; for λ < 0 it is empty |
| Exponential.ExponentialFailsExactlyWhenRateNotPositive | services/StatService.ts:547 | the computation throws exactly for λ ≤ 0 |
| Exponential.ExponentialMoments | services/StatService.ts:549-551 | mean = standard deviation = 1/λ and variance = its square |
| Exponential.ExponentialTails | services/StatService.ts:563-571 | queries are present exactly for x ≥ 0; the tails add up to 1; f(x) = λ·P(X>x); under lawful `exp`, P(X>x) ∈ (0, 1] and f(x) ∈ (0, λ] |
| Sampling.MeansFailures | services/StatService.ts:589-590 | the mean's sampling distribution throws exactly for σ ≤ 0 or n ≤ 0, σ checked first |
| Sampling.MeansStandardError | services/StatService.ts:591-598 | the distribution is centred at μ; SE² · n = σ²; the CLT flag means n ≥ 30 |
| Sampling.MeansQuery | services/StatService.ts:609-614 | the queries are present exactly when x̄ is given; z·SE = x̄ − μ; the two tails add up to 1 |
| Sampling.ProportionsFailures | services/StatService.ts:633-635 | throws exactly unless 0 < p < 1 and n > 0, with the source's order of checks |
| Sampling.ProportionsGate | services/StatService.ts:636-672 | SE² = p(1−p)/n; np + n(1−p) = n; the approximation needs both ≥ 10 (so n ≥ 20) and gates the queries; the tails add up to 1 |
| Sampling.ZCriticalIncreasing | services/StatService.ts:695-702 | a higher supported confidence level has a larger positive critical value |
| Sampling.ConfidenceIntervalFailures | services/StatService.ts:692-701 | throws exactly unless σ > 0, n > 0 and the level is 90, 95, 98 or 99 |
| Sampling.ConfidenceIntervalCentred | services/StatService.ts:703-723 | the interval is x̄ ± z·σ/√n: centred on x̄, strictly containing it, 2·margin wide |
| Simulator.UniformData | services/StatService.ts:740-747 | a uniform sample has the requested length |
| Simulator.UniformDataAt | services/StatService.ts:740-747 | the i-th value is min + draw·(max − min), or min when min = max |
| Simulator.BinomialStep | services/StatService.ts:770-779 | the i-th binomial value counts successes among draws i·n … i·n+n−1 |
| Simulator.UniformLoop | services/StatService.ts:740-747 | the loop builds exactly the specified uniform sample |
| Simulator.BinomialLoop | services/StatService.ts:770-779 | the nested loops build exactly the specified binomial sample |
| Simulator.GenerateRandomData | services/StatService.ts:725-802 | the method computes exactly the specified simulation |
| Simulator.SimulationFailures | services/StatService.ts:729-769 | no points gives an empty sample; otherwise it throws exactly on min > max, on a non-positive or fractional trial count, or on p outside [0, 1] |
| Simulator.SimulationLength | services/StatService.ts:740-770 | a successful simulation has max(nPoints, 0) values |
| Simulator.UniformWithinBounds | services/StatService.ts:740-747 | every uniform value lies in [min, max), or is min when min = max |
| Simulator.SuccessesAtMost | services/StatService.ts:772-776 | successes never exceed the trials |
| Simulator.SuccessesCertain | services/StatService.ts:773 | p = 0 gives no success and p = 1 gives n |
| Simulator.BinomialCounts | services/StatService.ts:766-779 | every binomial value is a whole number in [0, n], 0 for p = 0 and n for p = 1 |
| Analysis.SumProbabilities | services/StatService.ts:809 | the loop computes the specified sum of probabilities |
| Analysis.HasNegative | services/StatService.ts:814 | the loop finds a negative probability exactly when there is one |
| Analysis.Expect | services/StatService.ts:819-822 | the loop computes E(X) = Σ x·p |
| Analysis.Spread | services/StatService.ts:824-827 | the loop computes Σ (x−E)²·p |
| Analysis.CalculateDiscreteRVAnalysis | services/StatService.ts:804-836 | the method computes exactly the specified result |
| Analysis.DiscreteRVFailures | services/StatService.ts:805-816 | succeeds exactly for non-empty rows with Σp within 1e-9 of 1 and no negative p; the first two failures are told apart |
| Analysis.SpreadNonNegative | services/StatService.ts:824-827 | with non-negative probabilities the variance is non-negative |
| Analysis.DiscreteRVMoments | services/StatService.ts:819-835 | the result holds E(X), the variance about it (≥ 0), its square root and the table |
| Analysis.ExpectationOfConstant | services/StatService.ts:819-822 | a constant variable has expectation c·Σp |
| Analysis.SpreadOfConstant | services/StatService.ts:824-827 | a constant variable has no spread about itself |
| Analysis.DegenerateVariable | services/StatService.ts:804-836 | a valid table with a single value c gives mean c and variance 0 |
| Analysis.BayesFailures | services/StatService.ts:841-843 | succeeds exactly when all three inputs are probabilities; the first bad one names the error |
| Analysis.TotalProbability | services/StatService.ts:845-846 | P(B) = P(B\|A)P(A) + P(B\|¬A)(1−P(A)) is a probability |
| Analysis.BayesPosterior | services/StatService.ts:844-864 | P(¬A) = 1 − P(A); P(B) is the total probability; the posterior is a probability with P(A\|B)·P(B) = P(B\|A)·P(A), and 0 when P(B) = 0 |
| App.ParsedPieces | App.tsx:354-356 | the numbers kept are exactly those of the trimmed pieces that parse |
| App.AllPiecesParse | App.tsx:354-356 | when every piece parses, one number per piece, in order |
| App.ParseJoinedNumbers | App.tsx:352-357 | numbers joined with ", " parse back to themselves |
| App.SetElementsAreTokens | App.tsx:359-362 | set elements are the non-empty trimmed tokens; a Set of them only removes repetitions |
| App.NormalService | App.tsx:384-395 | the service call fails exactly on reversed points, and otherwise returns the normal result |
| App.SetService | App.tsx:420-426 | the service call fails exactly for an unknown operation |
| App.ValidOutcomes | App.tsx:573-592 | the rows passed on have non-negative probabilities and are no more than the table's rows |
| App.DescriptiveModeOutcome | App.tsx:366-369 | succeeds exactly when some number parses; otherwise empty-data or invalid-input by blankness; the report counts the parsed numbers |
| App.FrequencyModeOutcome | App.tsx:370-374 | the same for the frequency table |
| App.BinomialModeOutcome | App.tsx:375-383 | succeeds exactly for n ≥ 0, p ∈ [0, 1] and an optional 0 ≤ x ≤ n; the queries follow the x field and, for every n, are numbers; the service never throws |
| App.NormalModeOutcome | App.tsx:384-395 | the only errors are the form's own checks |
| App.NormalChecksOutcome | App.tsx:384-395 | the form's checks (mean, σ, x1, x2, x1 ≤ x2) leave no service error |
| App.NormalModeQueries | App.tsx:384-395 | the queries follow the x1 and x2 fields, are numbers, and the two tails add up to 1 |
| App.SetModeAccepts | App.tsx:420-426 | fails exactly when a non-blank field has no element or the operation is unknown, the latter being the only service error |
| App.ShownSet | App.tsx:420-426 | a shown set is duplicate-free with exactly the typed elements |
| App.SetModeShowsSets | App.tsx:420-426 | both shown sets are duplicate-free, hold exactly the typed elements and are counted by size |
| App.CombinatoricsModeOutcome | App.tsx:430-442 | succeeds exactly for whole 0 ≤ r ≤ n; the result is C(n,r) or n!/(n−r)! where exact |
| App.BasicProbabilityModeOutcome | App.tsx:443-450 | an accepted pair gives a probability in [0, 1] times possible = favorable |
| App.ConditionalProbabilityModeOutcome | App.tsx:451-459 | an accepted pair gives P(A\|B) ∈ [0, 1] with P(A\|B)·P(B) = P(A∩B) |
| App.PoissonModeOutcome | App.tsx:462-468 | succeeds exactly for λ > 0 and an optional whole k ≥ 0; mean = variance = λ; the query follows the k field |
| App.ExponentialModeOutcome | App.tsx:469-475 | the service never throws; the query follows the x field |
| App.MeansModeOutcome | App.tsx:478-487 | the service never throws; the query follows the x̄ field, with tails adding up to 1 |
| App.ProportionsModeOutcome | App.tsx:488-497 | succeeds exactly for 0 < p < 1, n > 0 and an optional p̂ ∈ [0, 1]; the service never throws |
| App.ConfidenceIntervalModeOutcome | App.tsx:500-529 | the service never throws; the interval strictly contains the typed mean |
| App.CheckedInputSimulates | App.tsx:530-572 | an accepted simulator form never makes the simulation fail and yields the requested number of points |
| App.UniformSampleWithin | App.tsx:530-572 | an accepted uniform form yields values within [min, max] |
| App.SimulatorModeOutcome | App.tsx:530-572 | the service never throws; 0 < count ≤ 10000 values, summarised by count; uniform values within the typed bounds |
| App.ProbabilitySumSnoc | App.tsx:573-592 | appending one outcome adds its probability to the sum |
| App.DiscreteRVModeOutcome | App.tsx:573-592 | succeeds exactly when the valid rows are non-empty and sum to 1 within 1e-9; the service never throws |
| App.DiscreteRVModeRefuses | App.tsx:573-592 | no valid row, or a sum off 1, is refused by the form's own checks |
| App.DiscreteRVServiceAccepts | App.tsx:573-592 | valid rows summing to 1 are accepted |
| App.DiscreteRVModeResult | App.tsx:573-592 | the analysis is over the valid rows, with non-negative variance and a standard deviation |
| App.BayesModeOutcome | App.tsx:593-605 | the service never throws; posterior and P(B) are probabilities |
| App.ServiceErrorsOfDescriptive | App.tsx:366-369 | a service error in this mode is one the form's checks let through (blank data) |
| App.ServiceErrorsOfFrequency | App.tsx:370-374 | likewise (blank data) |
| App.ServiceErrorsOfBinomial | App.tsx:375-383 | this mode never reaches a service error |
| App.ServiceErrorsOfNormal | App.tsx:384-395 | this mode never reaches a service error |
| App.ServiceErrorsOfSet | App.tsx:420-426 | the only service error is the unknown operation |
| App.ServiceErrorsOfCombinatorics | App.tsx:430-442 | this mode never reaches a service error |
| App.ServiceErrorsOfBasicProbability | App.tsx:443-450 | this mode never reaches a service error |
| App.ServiceErrorsOfConditionalProbability | App.tsx:451-459 | this mode never reaches a service error |
| App.ServiceErrorsOfPoisson | App.tsx:462-468 | this mode never reaches a service error |
| App.ServiceErrorsOfExponential | App.tsx:469-475 | this mode never reaches a service error |
| App.ServiceErrorsOfMeans | App.tsx:478-487 | this mode never reaches a service error |
| App.ServiceErrorsOfProportions | App.tsx:488-497 | this mode never reaches a service error |
| App.ServiceErrorsOfConfidenceInterval | App.tsx:500-529 | this mode never reaches a service error |
| App.ServiceErrorsOfSimulator | App.tsx:530-572 | this mode never reaches a service error |
| App.ServiceErrorsOfDiscreteRV | App.tsx:573-592 | this mode never reaches a service error |
| App.ServiceErrorsOfBayes | App.tsx:593-605 | this mode never reaches a service error |
| App.ServiceErrorsReachable | App.tsx:364-608 | over all modes, a service error reaches the user only for blank descriptive or frequency data or an unknown set operation |
| App.IndicatorSumIsCalculationSum | App.tsx:573-592 | when every value parses, the table's sum indicator is the sum the calculation checks |
| App.IndicatorAgreesWithCalculation | App.tsx:573-592 | a green non-zero indicator means the calculation accepts; a warning or a zero sum means it refuses |
| App.Calculator.constructor | App.tsx:329-331 | no result, no error, not loading |
| App.Calculator.PerformCalculation | App.tsx:329-616 | afterwards: the result on success or the message on failure, never both, loading cleared |
| DataTable.Blanks | components/TableInput.tsx:24-32 | count blank rows with consecutive fresh ids |
| DataTable.Labelled | components/TableInput.tsx:21 | one row per token, in order, with consecutive fresh ids |
| DataTable.Without | components/TableInput.tsx:71 | removal keeps exactly the rows with another id |
| DataTable.Edited | components/TableInput.tsx:83-85 | an edit keeps the number of rows |
| DataTable.IndexOf | components/TableInput.tsx:93 | −1 exactly when no row has the id; otherwise the first row that has it |
| DataTable.ParseDataString | components/TableInput.tsx:15-34 | the method builds exactly the specified rows, at least five with distinct ids, and consumes one id per row |
| DataTable.LayOut | components/TableInput.tsx:21-32 | the loop lays the tokens out, then blank rows up to five |
| DataTable.PadRows | components/TableInput.tsx:72-77 | the loop pads to five rows with fresh ids |
| DataTable.Table.constructor | components/TableInput.tsx:44 | the table starts from the parsed value with valid ids |
| DataTable.Table.ValueChanged | components/TableInput.tsx:52-57 | a value equal to the table's own text changes nothing; another value rebuilds the table |
| DataTable.Table.AddRow | components/TableInput.tsx:59-68 | one blank row with a fresh id is appended; the text sent is unchanged |
| DataTable.Table.RemoveRow | components/TableInput.tsx:70-80 | the row is removed, the table padded to five, the id gone; the text sent is that of the remaining rows |
| DataTable.Table.CellValueChange | components/TableInput.tsx:82-88 | the matching row gets the new value; the table's text is sent |
| DataTable.Table.InputKeyDown | components/TableInput.tsx:90-114 | Enter on a row moves focus to the next row, or appends a blank row and focuses it on the last row; other keys and unknown rows change nothing |
| DataTable.ParsedShape | components/TableInput.tsx:15-34 | max(5, tokens) rows: the tokens in order then blanks, ids consecutive and unique |
| DataTable.CellsAppend | components/TableInput.tsx:36-41 | the cells of joined tables are the joined cells |
| DataTable.BlanksWriteNothing | components/TableInput.tsx:36-41 | blank rows add nothing to the text |
| DataTable.AppendBlanksKeepsIds | components/TableInput.tsx:72-77 | padding with fresh ids keeps ids unique and below the counter |
| DataTable.WithoutKeepsIds | components/TableInput.tsx:71 | removal keeps ids unique and below any bound |
| DataTable.RemovedIdIsGone | components/TableInput.tsx:70-77 | after removal and padding no row has the removed id |
| DataTable.RemoveAbsentChangesNothing | components/TableInput.tsx:70-77 | removing an absent id from a full table changes nothing |
| DataTable.EditedKeepsIds | components/TableInput.tsx:83-85 | an edit changes only the matching row's value and keeps ids |
| DataTable.IndexOfHolder | components/TableInput.tsx:93 | with unique ids, a row is found at its own position |
| DataTable.ParsedCells | components/TableInput.tsx:15-41 | the non-empty cells of a parsed table are the comma tokens of the text |
| DataTable.SerializedParsed | components/TableInput.tsx:15-41 | serialising a parsed text gives its tokens joined by ", " |
| DataTable.SerializedTokens | components/TableInput.tsx:36-41 | splitting the serialised text gives back the non-empty cells |
| DataTable.RebuiltTableWritesSameText | components/TableInput.tsx:15-57 | parsing the table's own text rebuilds the same cells and the same text, so the sync effect is idempotent |
| DataTable.SerializedNumbers | components/TableInput.tsx:36-41 | the calculator reads one number per non-empty cell, in order |
| DataTable.SerializedSetElements | components/TableInput.tsx:36-41 | the set elements read from the text are the non-empty cells |
| RandomVariableTable.Blanks | components/DiscreteRVInput.tsx:20 | count blank rows with consecutive fresh ids |
| RandomVariableTable.EnsureMinRows | components/DiscreteRVInput.tsx:17-23 | the loop pads to three rows, one fresh id per added row |
| RandomVariableTable.PaddedShape | components/DiscreteRVInput.tsx:17-23 | max(3, n) rows: the given rows unchanged, then blank rows with fresh ids |
| RandomVariableTable.Without | components/DiscreteRVInput.tsx:41 | removal keeps exactly the rows with another id |
| RandomVariableTable.Table.constructor | components/DiscreteRVInput.tsx:25 | the table starts as the padded rows |
| RandomVariableTable.Table.Sync | components/DiscreteRVInput.tsx:27-30 | new rows from outside replace the table, padded |
| RandomVariableTable.Table.AddRow | components/DiscreteRVInput.tsx:32-38 | one blank row with an unused id is appended and sent |
| RandomVariableTable.Table.RemoveRow | components/DiscreteRVInput.tsx:40-45 | the row is removed and the table padded; the id is gone |
| RandomVariableTable.Table.InputChange | components/DiscreteRVInput.tsx:47-53 | the named field of the matching row takes the value |
| RandomVariableTable.EditedChangesOneField | components/DiscreteRVInput.tsx:47-53 | only the named field of the matching row changes; ids stay |
| RandomVariableTable.ProbabilitySumNonNegative | components/DiscreteRVInput.tsx:55-60 | the indicator's sum is never negative |
| RandomVariableTable.BlankTableIsValid | components/DiscreteRVInput.tsx:55-62 | a table without probabilities sums to 0 and shows no warning |
| RandomVariableTable.WarningMeaning | components/DiscreteRVInput.tsx:62-141 | the warning shows exactly for a positive sum at least 1e-9 away from 1 |
| Text.TrimStart | App.tsx:355 | the result starts with no whitespace and is a suffix of the input |
| Text.TrimEnd | App.tsx:355 | the result ends with no whitespace and is a prefix of the input |
| Text.Trim | App.tsx:355-361 | the trimmed string has no whitespace at either end |
| Text.TrimOfTrimmed | App.tsx:355-361 | trimming is idempotent |
| Text.Split | App.tsx:354 | splitting gives at least one piece, none containing the separator |
| Text.SplitJoin | App.tsx:354 | splitting a joined list of separator-free pieces gives them back |
| Text.NonEmpty | App.tsx:361 | the filter keeps exactly the non-empty strings |
| Text.CommaTokensAreTokens | App.tsx:361 | every comma token is trimmed, non-empty and comma-free |
| Text.CommaTokensOfJoin | components/TableInput.tsx:36-41 | tokens joined with ", " split back into themselves |
| Numerics.Floor | services/StatService.ts:65 | the floor is the integer at or below x, within 1 |
| Numerics.Ceil | services/StatService.ts:66 | the ceiling is the integer at or above x, within 1 |
| Numerics.Round | services/StatService.ts:186 | rounding is within one half |
| Numerics.Fact | services/StatService.ts:163-170 | the factorial is at least 1 |

## Left out

- The statistical-concepts and AI-assistant modes of `App.tsx`, and the AI interpretation of results, are left out: they are calls to a language-model service over the network.
- Throws for sub-modes that are not implemented, and the `default` branch of `performCalculation`, are left out. The model's request type has one form per implemented mode.
- Error messages are not modelled word for word: each throw site is an `Errors.Error` constructor. The discrete-variable message carries its probability sum.
- The PDF grids of the normal, exponential and sampling distributions are left out (`normalPDF` included). They are charts of the oracle's `exp`, with no checks.
- The simulator's normal (Box-Muller) and Poisson (Knuth) branches, and their form fields, are not part of this model. The uniform and binomial branches are modelled.
- Chart labels are not rendered: `toFixed`, template strings and interval labels are kept as the numbers they show.
- Focus moves are modelled only as the id of the row that gets focus. `setTimeout`, `document.getElementById` and `preventDefault` are left out.
- DataTable.Table.AddRow does not return a focus target; the row it would focus is the new row, whose id is the old counter.
- `crypto.randomUUID()` is a counter. That fresh ids are unique is assumed, not proved of random UUIDs.
- Numbers are exact reals: floating-point rounding, overflow to Infinity (except the factorial limit of 170) and `-0` are not modelled.
- Combinatorics.Combinations: for n > 30 the value goes through the oracle's `log` and `exp`, so it is related to C(n, k) only for n ≤ 30.
- Normal.StandardNormalMirror: the accuracy of the Abramowitz–Stegun approximation is not stated; only its reflection and complement structure are.
- DataTable.RebuiltTableWritesSameText: cells containing a comma are excluded; such a cell is split in two when the text is read back.
- Descriptive.Percentile: the source's guards `lower === upper` and the undefined neighbour cannot fire for an index that is not a whole number within [0, N−1], so they are not written.
- App.PoissonModeOutcome: the form's `Number.isInteger` check on k always passes, because k comes from `parseInt`. It is not written.
- RandomVariableTable.WarningMeaning: the indicator accepts a sum within 1e-9 of 1 strictly (`< 1e-9`), while the calculation in `App.tsx` refuses only beyond it (`> 1e-9`). At exactly 1e-9 the two disagree; App.IndicatorAgreesWithCalculation is stated for the cases where they agree.
- Modes.Tally: the keys are kept in first-insertion order, while a JavaScript object lists integer-like keys such as "3" and "10" in ascending order. The modes are sorted afterwards, so the result is the same.
- JavaScript's sort is taken to be stable, as ECMAScript 2019 requires. The stable order of a total preorder is unique, so the insertion sort gives the same result.

## Findings

| source | as written | input that shows it | evidently intended | confidence | as-written member | corrected member |
|---|---|---|---|---|---|---|
| services/StatService.ts:136-141 | the maximum is forced into the last bucket | data [0, 0.05]: 2 buckets of the minimum width 0.1 cover [0, 0.2), the maximum 0.05 belongs to bucket 0 [0, 0.1) but is counted in bucket 1 [0.1, 0.2) | every value counted in the bucket whose interval contains it | not executed | Histogram.SourceBucketMisplacesMaximum | Histogram.BucketHoldsValue |

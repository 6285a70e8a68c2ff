/** The `ChartDataPoint` record of types.ts, as far as the model needs it. */
module Charts {
  import opened Wrappers

  /** The `name` of a chart point: a number, an interval written
      "lo-hi", the truncation marker `...n` of the binomial chart, or the
      bare `...` of the Poisson chart. */
  datatype Label = At(x: real) | Between(lo: real, hi: real) | Truncated(n: int) | Ellipsis

  datatype ChartPoint = ChartPoint(name: Label, value: real)

  /** A point of a probability chart, whose value may be NaN. */
  datatype ProbabilityPoint = ProbabilityPoint(name: Label, value: Option<real>)
}

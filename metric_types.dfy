/** The kinds of metric and the dynamically typed value a metric reports
    (metrics.go). */
module MetricTypes {
  import opened Int64

  /** Go's `type MetricType int`: any integer, not only the two named ones. */
  newtype MetricType = int64

  /** The named kinds start at 1, so the zero MetricType names no kind. */
  const TypeCounter: MetricType := 1
  const TypeGauge: MetricType := 2

  /** The human-readable name of a metric type; total over all values. */
  function String(t: MetricType): (s: string)
    ensures s == "counter" <==> t == TypeCounter
    ensures s == "gauge" <==> t == TypeGauge
    ensures s == "unknown" <==> t != TypeCounter && t != TypeGauge
  {
    if t == TypeCounter then "counter"
    else if t == TypeGauge then "gauge"
    else "unknown"
  }

  /** A float64 held as its IEEE 754 binary64 bit pattern, which is how the
      atomic float cell stores it. No floating-point arithmetic is modelled. */
  datatype Float64 = Float64(bits: bv64)

  /** Positive zero, the initial value of a gauge. */
  const PositiveZero: Float64 := Float64(0)

  /** The `interface{}` returned by `Metric.Value`: an int64 for a counter,
      a float64 for a gauge. */
  datatype MetricValue = IntVal(i: int64) | FloatVal(f: Float64)
}

/** A settable float64 gauge (gauge.go), kept only as far as the registry
    needs it: a fixed name and kind, and a value that Set stores and Load
    returns. Floating-point arithmetic is not modelled. */
module Gauges {
  import opened MetricTypes

  class Gauge {
    /** Set once at construction. */
    const name: string
    var value: Float64

    /** NewGauge: the value starts at positive zero. */
    constructor (name: string)
      ensures this.name == name && Load() == PositiveZero
    {
      this.name := name;
      value := PositiveZero;
    }

    function Type(): (t: MetricType)
      ensures t == TypeGauge && String(t) == "gauge"
    {
      TypeGauge
    }

    function Load(): Float64
      reads this
    {
      value
    }

    /** The same quantity as Load, tagged as a float64. */
    function Value(): (v: MetricValue)
      reads this
      ensures v.FloatVal? && v.f == Load()
    {
      FloatVal(value)
    }

    method Set(v: Float64)
      modifies this
      ensures Load() == v
    {
      value := v;
    }
  }
}

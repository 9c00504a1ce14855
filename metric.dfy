/** The Metric interface (metrics.go): the capability set {Name, Type, Value}
    that the registry relies on, over its two implementations. */
module Metrics {
  import opened MetricTypes
  import opened Counters
  import opened Gauges

  /** A non-nil Metric interface value: a reference to a counter or a gauge. */
  datatype Metric = CounterMetric(counter: Counter) | GaugeMetric(gauge: Gauge) {
    /** The name fixed at construction; it does not depend on the heap. */
    function Name(): string {
      match this
      case CounterMetric(c) => c.name
      case GaugeMetric(g) => g.name
    }

    /** Each implementation reports one fixed, named kind. */
    function Type(): (t: MetricType)
      ensures CounterMetric? ==> t == TypeCounter
      ensures GaugeMetric? ==> t == TypeGauge
      ensures String(t) != "unknown"
    {
      match this
      case CounterMetric(c) => c.Type()
      case GaugeMetric(g) => g.Type()
    }

    /** The object whose state Value reads. */
    function Obj(): object {
      match this
      case CounterMetric(c) => c
      case GaugeMetric(g) => g
    }

    /** The current value; its dynamic type follows the metric's kind. */
    function Value(): (v: MetricValue)
      reads Obj()
      ensures v.IntVal? <==> Type() == TypeCounter
      ensures CounterMetric? ==> v == IntVal(counter.Load())
      ensures GaugeMetric? ==> v == FloatVal(gauge.Load())
    {
      match this
      case CounterMetric(c) => c.Value()
      case GaugeMetric(g) => g.Value()
    }
  }
}

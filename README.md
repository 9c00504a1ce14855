# Metrics registry — a Dafny model

This project models the core of a small in-process metrics library written in
Go (`phase1/01-metrics-system`): monotonic int64 **counters**, settable float64
**gauges**, the **Metric** interface they share (`Name`, `Type`, `Value`), the
`MetricType` enum with its `String` method, and the **Registry**, a name-keyed
table of metrics that rejects nil metrics, empty names and duplicate names,
removes by name, and produces snapshots of every metric's current value.

Layout: a module for each of counter.go, gauge.go and registry.go, with
errors.go folded into the registry's module. metrics.go is split in two:
`MetricTypes` holds the enum and the value type, and `Metrics` holds the
interface. The split is needed because `Counters` imports `MetricTypes`, and
`Metrics` imports `Counters`. Two small helper modules, `Int64` and `Options`,
match no source file:

- `int64.dfy` (`Int64`): Go's `int64` as a newtype, and `Wrap`, the
  two's-complement wrap-around of the atomic add.
- `metric_types.dfy` (`MetricTypes`): `MetricType`, its constants and
  `String`; `MetricValue`, the tagged form of Go's `interface{}` value
  (`IntVal` for a counter, `FloatVal` for a gauge).
- `counter.dfy` (`Counters`): the `Counter` class, the functions `Incremented`
  and `Added` that specify its two mutators, and lemmas about sequences of
  calls (`Run`): exact totals, monotonicity, "n Incs add n".
- `gauge.dfy` (`Gauges`): the `Gauge` class, kept to its name, kind, `Set`
  and `Load`.
- `metric.dfy` (`Metrics`): the `Metric` interface as a datatype over the two
  implementations.
- `registry.dfy` (`Registries`): the error kinds, the pure specifications
  `Registered`/`Unregistered` of the two mutators on the entry map, lemmas
  about them, and the `Registry` class.
- `option.dfy` (`Options`): an `Option` datatype for Go's nil and `(v, ok)`.

Modelling choices:

- Locks and atomics are gone: every call is one sequential step.
- Go's interface has no closed set of implementations, but this model has
  one: `Metric = CounterMetric(Counter) | GaugeMetric(Gauge)`. A nil interface
  value passed to `Register` is `None`. Stored entries are non-nil by typing.
- A metric's name is a `const` field. It is set by the constructor and
  never changed afterwards. So `Metric.Name()` reads no heap state, and the
  registry invariant "every key is its metric's name" (`WellKeyed`) cannot be
  broken by updating a counter.
- `Registry.initialized` stands for "the Go map is non-nil". `Valid()` says
  that an unallocated registry has no entries. `Len`, `Get`, `Snapshot` and
  `Unregister` each take an explicit branch for that case, as the Go code
  does. `Register` allocates the map lazily, after the nil and empty-name
  checks and before the duplicate check.
- The zero-value `Counter` is the one constructed with the empty name: both
  have an empty name and value 0.
- `MetricType` is Go's `int`, taken as 64 bits wide.
- A snapshot is a Dafny `map` value. A later call that changes a counter or
  the registry therefore cannot change it. `SnapshotIsolationScenario` shows
  that a fresh snapshot does see such changes.

## Model

| member | source | states |
|---|---|---|
| `Int64.Wrap` | phase1/01-metrics-system/counter.go:9 | the atomic int64 add leaves the exact sum when it is in range, and otherwise a value congruent to it modulo 2^64 |
| `MetricTypes.String` | phase1/01-metrics-system/metrics.go:32-41 | "counter" exactly for TypeCounter, "gauge" exactly for TypeGauge, "unknown" exactly for every other value (999 included), so String is total |
| `Counters.Incremented` | phase1/01-metrics-system/counter.go:41-43 | Inc adds exactly 1 below the int64 maximum, and wraps to the minimum at it |
| `Counters.Added` | phase1/01-metrics-system/counter.go:45-53 | a negative delta is clamped to 0 and leaves the value unchanged; a non-negative delta is added exactly when no overflow occurs, and modulo 2^64 otherwise |
| `Counters.Counter.constructor` | phase1/01-metrics-system/counter.go:17-22 | NewCounter keeps any name, the empty one included, and starts at Load() = 0 |
| `Counters.Counter.Type` | phase1/01-metrics-system/counter.go:29-31 | a counter always reports TypeCounter, whose String is "counter" |
| `Counters.Counter.Value` | phase1/01-metrics-system/counter.go:35-37 | Value is the int64 that Load returns (counter.go:57-59), tagged as an integer |
| `Counters.Counter.Inc` | phase1/01-metrics-system/counter.go:41-43 | the new Load() is Incremented(old Load()); the name is a const, so it cannot change |
| `Counters.Counter.Add` | phase1/01-metrics-system/counter.go:48-53 | the new Load() is Added(old Load(), delta), with the delta clamped first; the name cannot change |
| `Counters.RunAddsTotal` | phase1/01-metrics-system/counter.go:41-53 | without overflow, any sequence of Inc/Add calls raises the value by exactly 1 per Inc plus every non-negative delta |
| `Counters.TotalAppend` | phase1/01-metrics-system/counter.go:41-53 | the amount added by two consecutive call sequences is the sum of the two amounts |
| `Counters.RunMonotone` | phase1/01-metrics-system/counter.go:5-6 | without overflow, the value never decreases along a sequence of Inc/Add calls: each prefix loads at most what any longer prefix loads, and at least the start value |
| `Counters.TotalIncs` | phase1/01-metrics-system/counter.go:41-43 | n Incs amount to n |
| `Counters.IncsAddN` | phase1/01-metrics-system/metrics_test.go:74-83 | n successive Incs raise the value by exactly n when that does not overflow (the sequential counterpart of the concurrent test at metrics_test.go:140-162) |
| `Counters.RunSnoc` | phase1/01-metrics-system/counter.go:41-53 | applying one more Inc or Add after a call sequence is one more step from the value that sequence left |
| `Counters.IncRepeatedly` | phase1/01-metrics-system/metrics_test.go:74-83 | calling Inc n times on a counter leaves it at the value of the pure call sequence of n Incs, so it is n higher when that does not overflow |
| `Counters.RequestsExample` | phase1/01-metrics-system/example_test.go:13-25 | a new counter after Inc, Inc, Add(5) loads 7 |
| `Gauges.Gauge.constructor` | phase1/01-metrics-system/gauge.go:17-22 | NewGauge keeps its name and starts at positive zero |
| `Gauges.Gauge.Type` | phase1/01-metrics-system/gauge.go:29-31 | a gauge always reports TypeGauge, whose String is "gauge" |
| `Gauges.Gauge.Value` | phase1/01-metrics-system/gauge.go:35-37 | Value is the float64 that Load returns, tagged as a float |
| `Gauges.Gauge.Set` | phase1/01-metrics-system/gauge.go:41-43 | after Set(v), Load() returns v |
| `Metrics.Metric.Type` | phase1/01-metrics-system/metrics.go:7-17 | each implementation reports its own fixed kind, and that kind is never "unknown" |
| `Metrics.Metric.Value` | phase1/01-metrics-system/metrics.go:14-16 | the dynamic type of the value follows the kind (an integer exactly for counters), and equals that implementation's Load() |
| `Registries.Registered` | phase1/01-metrics-system/registry.go:29-53 | Register's checks run in order nil, empty name, duplicate; it succeeds exactly for a non-nil metric with a non-empty, absent name; a failure leaves the entries unchanged, so a duplicate keeps the first metric; a success adds exactly that name, raises the count by 1, maps the name to that same metric, leaves all other entries alone, and preserves the key/name invariant |
| `Registries.Unregistered` | phase1/01-metrics-system/registry.go:57-71 | Unregister succeeds exactly when the name is present; an absent name gives MetricNotFound and changes nothing; a present one is removed and nothing else, the count drops by 1, and the key/name invariant is kept |
| `Registries.RegisterUnregister` | phase1/01-metrics-system/registry.go:51 | a successful Register followed by Unregister of the same name restores the original entries |
| `Registries.RegisterAllExtends` | phase1/01-metrics-system/registry.go:47-51 | a sequence of Register calls never removes or overwrites an existing entry |
| `Registries.RegisterAllKeys` | phase1/01-metrics-system/registry.go:47-51 | registering metrics with fresh, distinct, non-empty names adds exactly their names to the key set |
| `Registries.RegisterAllSize` | phase1/01-metrics-system/registry.go:47-51 | registering N such metrics raises the count by exactly N |
| `Registries.RegisterAllFinds` | phase1/01-metrics-system/registry.go:47-51 | after registering such metrics, each name maps to its own metric |
| `Registries.Registry.Zero` | phase1/01-metrics-system/registry.go:8-13 | the zero-value registry is valid, unallocated and empty |
| `Registries.Registry.constructor` | phase1/01-metrics-system/registry.go:17-24 | NewRegistry with any capacity gives an allocated, empty registry |
| `Registries.Registry.Register` | phase1/01-metrics-system/registry.go:29-53 | outcome and new entries are those of Registered; the map becomes allocated exactly on success if it was not before; the registry invariant is kept |
| `Registries.Registry.Unregister` | phase1/01-metrics-system/registry.go:57-71 | outcome and new entries are those of Unregistered, the never-allocated case included; the registry invariant is kept |
| `Registries.Registry.Get` | phase1/01-metrics-system/registry.go:75-85 | Get finds something exactly when the name is registered, and then it is the stored metric, whose name is the one asked for |
| `Registries.Registry.Snapshot` | phase1/01-metrics-system/registry.go:90-105 | the snapshot's keys are exactly the registered names, and each value is that metric's current Value(); an unallocated registry gives an empty map |
| `Registries.Registry.Len` | phase1/01-metrics-system/registry.go:108-117 | Len is the number of registered names, 0 for an unallocated registry |
| `Registries.Registry.Clear` | phase1/01-metrics-system/registry.go:120-127 | afterwards there are no entries, so Len is 0 and Get finds nothing; allocation is unchanged |
| `Registries.ZeroValueScenario` | phase1/01-metrics-system/metrics_test.go:310-321 | a zero-value registry accepts a Register with no initialisation step, then holds exactly one metric, found again by its name |
| `Registries.SnapshotIsolationScenario` | phase1/01-metrics-system/metrics_test.go:573-607 | a snapshot keeps the value read when it was taken (100); a fresh snapshot after Add(50) shows 150; after Unregister a fresh snapshot is empty |

## Left out

- Locks (`sync.RWMutex`) and atomic cells: every call is one sequential step. The concurrent tests have only the sequential "n Incs add n" lemma as a counterpart. Snapshot's relaxed cross-metric consistency cannot arise in a sequential model.
- Gauge Inc, Dec and Add (gauge.go:47-62): these are float64 arithmetic, which is not modelled. A gauge value is an uninterpreted IEEE 754 bit pattern that only Set and Load touch.
- Error message text and `%w` wrapping: errors are the kinds `NilMetric`, `InvalidName`, `DuplicateMetric` and `MetricNotFound`. The three sentinel values of errors.go map onto the last three. The nil-metric error is not a sentinel in the source either.
- Capacity hints (registry.go:18-22, 44, 99) only pre-size Go maps and are not observable. Likewise, the fresh map that Clear allocates is just an empty map here.
- Go map iteration order in Snapshot: the model picks names in an arbitrary order, and the result is a map either way.
- A typed nil pointer wrapped in a non-nil interface: in Go it passes the nil check and then panics in `Name()`. The model has no such value.
- The in-package tests write to the name field of a zero Counter (metrics_test.go:45-46) and of a zero Gauge (metrics_test.go:167-168). No non-test code in the package writes a name after construction, so the model makes both names constants.
- Counters.RunMonotone: monotonicity is proved only when the whole call sequence does not overflow int64. With overflow, the source's atomic add wraps to a negative value, which `Added` and `Incremented` state explicitly.
- Names (`Counter.Name`, `Gauge.Name`, `Metric.Name`) are plain reads of the constant name field and carry no contract of their own.
- `Counters.Counter.Load` and `Gauges.Gauge.Load` (counter.go:55-59, gauge.go:64-68) are plain reads of the value field and carry no contract of their own. Every other counter and gauge contract is stated in terms of them.
- Metric implementations other than Counter and Gauge: the model's `Metric` is closed over those two, and both have constant names. A third-party Go `Metric` whose `Name()` changes over time would break the key/name invariant (`WellKeyed`), and the model cannot express one.

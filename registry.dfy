/** The name-keyed registry of metrics (registry.go) and its error kinds
    (errors.go). */
module Registries {
  import opened Int64
  import opened Options
  import opened MetricTypes
  import opened Counters
  import opened Gauges
  import opened Metrics

  /** The failures Register and Unregister report. NilMetric is a plain
      error value; the other three are the package's sentinel errors. */
  datatype MetricError = NilMetric | InvalidName | DuplicateMetric | MetricNotFound

  /** Go's `error` result: nil on success. */
  datatype Outcome = Pass | Fail(error: MetricError)

  type Entries = map<string, Metric>

  /** Every stored name is the name of the metric stored under it. */
  ghost predicate WellKeyed(e: Entries) {
    forall name | name in e :: e[name].Name() == name
  }

  /** The outcome of Register and the entries it leaves. The checks run in
      order: nil metric, empty name, duplicate name. A failure changes
      nothing; a success adds exactly the one entry. */
  function Registered(e: Entries, metric: Option<Metric>): (r: (Outcome, Entries))
    ensures metric.None? ==> r.0 == Fail(NilMetric)
    ensures metric.Some? && metric.value.Name() == "" ==> r.0 == Fail(InvalidName)
    ensures metric.Some? && metric.value.Name() != "" && metric.value.Name() in e ==>
              r.0 == Fail(DuplicateMetric)
    ensures r.0 == Pass <==>
              metric.Some? && metric.value.Name() != "" && metric.value.Name() !in e
    ensures r.0 != Pass ==> r.1 == e
    ensures r.0 == Pass ==>
              && r.1.Keys == e.Keys + {metric.value.Name()}
              && |r.1| == |e| + 1
              && r.1[metric.value.Name()] == metric.value
              && (forall name | name in e :: r.1[name] == e[name])
    ensures WellKeyed(e) ==> WellKeyed(r.1)
  {
    if metric.None? then (Fail(NilMetric), e)
    else
      var name := metric.value.Name();
      if name == "" then (Fail(InvalidName), e)
      else if name in e then (Fail(DuplicateMetric), e)
      else (Pass, e[name := metric.value])
  }

  /** The outcome of Unregister and the entries it leaves: an absent name is
      an error and changes nothing; a present one is removed and no other. */
  function Unregistered(e: Entries, name: string): (r: (Outcome, Entries))
    ensures r.0 == Pass <==> name in e
    ensures r.0 != Pass ==> r.0 == Fail(MetricNotFound) && r.1 == e
    ensures r.0 == Pass ==>
              && r.1.Keys == e.Keys - {name}
              && |r.1| == |e| - 1
              && (forall k | k in r.1 :: r.1[k] == e[k])
    ensures WellKeyed(e) ==> WellKeyed(r.1)
  {
    if name !in e then (Fail(MetricNotFound), e)
    else (Pass, e - {name})
  }

  /** Registering a metric and then unregistering its name gives back the
      original entries. */
  lemma RegisterUnregister(e: Entries, m: Metric)
    requires Registered(e, Some(m)).0 == Pass
    ensures Unregistered(Registered(e, Some(m)).1, m.Name()) == (Pass, e)
  {
    var after := Registered(e, Some(m)).1;
    assert after - {m.Name()} == e;
  }

  /** Registering each metric of `ms` in turn; the outcomes are dropped. */
  function RegisterAll(e: Entries, ms: seq<Metric>): Entries
    decreases |ms|
  {
    if ms == [] then e else RegisterAll(Registered(e, Some(ms[0])).1, ms[1..])
  }

  /** `ms` have non-empty, pairwise distinct names, none of them in `e`. */
  ghost predicate FreshNames(e: Entries, ms: seq<Metric>) {
    && (forall i | 0 <= i < |ms| :: ms[i].Name() != "" && ms[i].Name() !in e)
    && (forall i, j | 0 <= i < j < |ms| :: ms[i].Name() != ms[j].Name())
  }

  function Names(ms: seq<Metric>): set<string>
    decreases |ms|
  {
    if ms == [] then {} else {ms[0].Name()} + Names(ms[1..])
  }

  /** What stays fresh after registering the first metric of `ms`. */
  lemma FreshNamesTail(e: Entries, ms: seq<Metric>)
    requires FreshNames(e, ms) && ms != []
    ensures FreshNames(Registered(e, Some(ms[0])).1, ms[1..])
  {
  }

  /** Registration never overwrites or removes an existing entry. */
  lemma {:induction false} RegisterAllExtends(e: Entries, ms: seq<Metric>)
    ensures forall k | k in e :: k in RegisterAll(e, ms) && RegisterAll(e, ms)[k] == e[k]
    decreases |ms|
  {
    if ms != [] {
      RegisterAllExtends(Registered(e, Some(ms[0])).1, ms[1..]);
    }
  }

  /** Registering N metrics with fresh, distinct names adds exactly their
      names to the keys. */
  lemma {:induction false} RegisterAllKeys(e: Entries, ms: seq<Metric>)
    requires FreshNames(e, ms)
    ensures RegisterAll(e, ms).Keys == e.Keys + Names(ms)
    decreases |ms|
  {
    if ms != [] {
      var e' := Registered(e, Some(ms[0])).1;
      assert e'.Keys == e.Keys + {ms[0].Name()};
      FreshNamesTail(e, ms);
      RegisterAllKeys(e', ms[1..]);
    }
  }

  /** Registering N metrics with fresh, distinct names adds N entries. */
  lemma {:induction false} RegisterAllSize(e: Entries, ms: seq<Metric>)
    requires FreshNames(e, ms)
    ensures |RegisterAll(e, ms)| == |e| + |ms|
    decreases |ms|
  {
    if ms != [] {
      var e' := Registered(e, Some(ms[0])).1;
      assert RegisterAll(e, ms) == RegisterAll(e', ms[1..]);
      assert |e'| == |e| + 1;
      FreshNamesTail(e, ms);
      RegisterAllSize(e', ms[1..]);
    }
  }

  /** After registering metrics with fresh, distinct names, each name maps to
      its own metric. */
  lemma {:induction false} RegisterAllFinds(e: Entries, ms: seq<Metric>, i: nat)
    requires FreshNames(e, ms) && i < |ms|
    ensures ms[i].Name() in RegisterAll(e, ms) && RegisterAll(e, ms)[ms[i].Name()] == ms[i]
    decreases |ms|
  {
    var e' := Registered(e, Some(ms[0])).1;
    FreshNamesTail(e, ms);
    if i == 0 {
      RegisterAllExtends(e', ms[1..]);
    } else {
      assert ms[1..][i - 1] == ms[i];
      RegisterAllFinds(e', ms[1..], i - 1);
    }
  }

  class Registry {
    /** Whether the internal map has been allocated; false in the zero value. */
    var initialized: bool
    var metrics: Entries

    /** An unallocated registry is empty, and every key names its metric. */
    ghost predicate Valid()
      reads this
    {
      && (!initialized ==> metrics == map[])
      && WellKeyed(metrics)
    }

    /** The zero-value Registry, usable without construction. */
    constructor Zero()
      ensures Valid() && !initialized && metrics == map[]
    {
      initialized := false;
      metrics := map[];
    }

    /** NewRegistry: the capacity hint only pre-sizes the map and is not
        observable, so every capacity gives an empty, initialized registry. */
    constructor (capacity: int)
      ensures Valid() && initialized && metrics == map[]
    {
      initialized := true;
      metrics := map[];
    }

    /** Adds `metric` under its name, allocating the map on first use. */
    method Register(metric: Option<Metric>) returns (err: Outcome)
      requires Valid()
      modifies this
      ensures Valid()
      ensures (err, metrics) == Registered(old(metrics), metric)
      ensures initialized == (old(initialized) || err == Pass)
    {
      if metric.None? {
        return Fail(NilMetric);
      }
      var m := metric.value;
      var name := m.Name();
      if name == "" {
        return Fail(InvalidName);
      }
      if !initialized {
        initialized := true;
        metrics := map[];
      }
      if name in metrics {
        return Fail(DuplicateMetric);
      }
      metrics := metrics[name := m];
      return Pass;
    }

    /** Removes the metric registered under `name`. */
    method Unregister(name: string) returns (err: Outcome)
      requires Valid()
      modifies this
      ensures Valid()
      ensures (err, metrics) == Unregistered(old(metrics), name)
      ensures initialized == old(initialized)
    {
      if !initialized {
        return Fail(MetricNotFound);
      }
      if name !in metrics {
        return Fail(MetricNotFound);
      }
      metrics := metrics - {name};
      return Pass;
    }

    /** Looks a metric up by name; an unallocated registry finds nothing. */
    function Get(name: string): (r: Option<Metric>)
      reads this
      requires Valid()
      ensures r.Some? <==> name in metrics
      ensures r.Some? ==> r.value == metrics[name] && r.value.Name() == name
    {
      if !initialized then None
      else if name in metrics then Some(metrics[name])
      else None
    }

    /** Copies every registered metric's current value into a new map. */
    method Snapshot() returns (snapshot: map<string, MetricValue>)
      requires Valid()
      ensures snapshot.Keys == metrics.Keys
      ensures forall name | name in snapshot :: snapshot[name] == metrics[name].Value()
    {
      if !initialized {
        return map[];
      }
      snapshot := map[];
      var pending := metrics.Keys;
      while pending != {}
        invariant pending <= metrics.Keys
        invariant snapshot.Keys == metrics.Keys - pending
        invariant forall name | name in snapshot :: snapshot[name] == metrics[name].Value()
        decreases pending
      {
        var name :| name in pending;
        snapshot := snapshot[name := metrics[name].Value()];
        pending := pending - {name};
      }
    }

    /** The number of registered metrics; 0 for an unallocated registry. */
    function Len(): (n: nat)
      reads this
      requires Valid()
      ensures n == |metrics.Keys|
    {
      if !initialized then 0 else |metrics|
    }

    /** Removes every entry; the metrics themselves are untouched. */
    method Clear()
      requires Valid()
      modifies this
      ensures Valid()
      ensures metrics == map[] && initialized == old(initialized)
    {
      if initialized {
        metrics := map[];
      }
    }
  }

  /** A counter registered into a zero-value registry is found again by name
      and the registry then holds exactly one metric. */
  method ZeroValueScenario() returns (err: Outcome, n: nat, found: Option<Metric>)
    ensures err == Pass && n == 1 && found.Some? && found.value.Name() == "test"
  {
    var r := new Registry.Zero();
    var c := new Counter("test");
    err := r.Register(Some(CounterMetric(c)));
    n := r.Len();
    found := r.Get("test");
  }

  /** A snapshot keeps the values read when it was taken: a later Add on the
      counter shows only in a fresh snapshot, and after Unregister a fresh
      snapshot is empty. */
  method SnapshotIsolationScenario()
    returns (first: map<string, MetricValue>, second: map<string, MetricValue>, third: map<string, MetricValue>)
    ensures first == map["test" := IntVal(100)]
    ensures second == map["test" := IntVal(150)]
    ensures third == map[]
  {
    var r := new Registry(0);
    var c := new Counter("test");
    c.Add(100);
    var err := r.Register(Some(CounterMetric(c)));
    first := r.Snapshot();
    c.Add(50);
    second := r.Snapshot();
    err := r.Unregister("test");
    third := r.Snapshot();
  }
}

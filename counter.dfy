/** A monotonically increasing int64 counter (counter.go). */
module Counters {
  import opened Int64
  import opened MetricTypes

  /** The value an atomic add of 1 leaves behind: one more, or wrapped round
      to the least int64 when the counter was at the greatest. */
  function Incremented(v: int64): (r: int64)
    ensures v as int < MAX ==> r as int == v as int + 1
    ensures v as int == MAX ==> r as int == MIN
  {
    Wrap(v as int + 1)
  }

  /** The value `Add(delta)` leaves behind: a negative delta is clamped to 0,
      so the value is unchanged; otherwise delta is added, wrapping on overflow. */
  function Added(v: int64, delta: int64): (r: int64)
    ensures delta < 0 ==> r == v
    ensures 0 <= delta && v as int + delta as int <= MAX ==> r as int == v as int + delta as int
    ensures 0 <= delta ==> (v as int + delta as int - r as int) % MODULUS == 0
  {
    var d := if delta < 0 then 0 else delta;
    Wrap(v as int + d as int)
  }

  class Counter {
    /** Set once at construction; never changed by Inc or Add. */
    const name: string
    var value: int64

    /** NewCounter: any name, the empty one included; the value starts at 0.
        Go's zero-value Counter is the one constructed with the empty name. */
    constructor (name: string)
      ensures this.name == name && Load() == 0
    {
      this.name := name;
      value := 0;
    }

    function Type(): (t: MetricType)
      ensures t == TypeCounter && String(t) == "counter"
    {
      TypeCounter
    }

    function Load(): int64
      reads this
    {
      value
    }

    /** The same quantity as Load, tagged as an int64. */
    function Value(): (v: MetricValue)
      reads this
      ensures v.IntVal? && v.i == Load()
    {
      IntVal(value)
    }

    method Inc()
      modifies this
      ensures Load() == Incremented(old(Load()))
    {
      value := Wrap(value as int + 1);
    }

    method Add(delta: int64)
      modifies this
      ensures Load() == Added(old(Load()), delta)
    {
      var d := delta;
      if d < 0 {
        d := 0;
      }
      value := Wrap(value as int + d as int);
    }
  }

  /** One mutating call on a counter, for reasoning about sequences of calls. */
  datatype CounterOp = IncOp | AddOp(delta: int64)

  function Step(v: int64, op: CounterOp): int64 {
    match op
    case IncOp => Incremented(v)
    case AddOp(d) => Added(v, d)
  }

  /** The value after applying `ops` in order, starting from `v`. */
  function Run(v: int64, ops: seq<CounterOp>): int64
    decreases |ops|
  {
    if ops == [] then v else Run(Step(v, ops[0]), ops[1..])
  }

  /** How much one call adds when nothing overflows. */
  function Amount(op: CounterOp): nat {
    match op
    case IncOp => 1
    case AddOp(d) => if d < 0 then 0 else d as int
  }

  /** How much a sequence of calls adds when nothing overflows. */
  function Total(ops: seq<CounterOp>): nat
    decreases |ops|
  {
    if ops == [] then 0 else Amount(ops[0]) + Total(ops[1..])
  }

  /** n successive Inc calls. */
  function Incs(n: nat): (ops: seq<CounterOp>)
    ensures |ops| == n
    ensures forall k | 0 <= k < n :: ops[k] == IncOp
  {
    if n == 0 then [] else [IncOp] + Incs(n - 1)
  }

  /** Without overflow, a sequence of calls adds exactly its Total. */
  lemma {:induction false} RunAddsTotal(v: int64, ops: seq<CounterOp>)
    requires v as int + Total(ops) <= MAX
    ensures Run(v, ops) as int == v as int + Total(ops)
    decreases |ops|
  {
    if ops != [] {
      var w := Step(v, ops[0]);
      assert w as int == v as int + Amount(ops[0]);
      RunAddsTotal(w, ops[1..]);
    }
  }

  lemma {:induction false} TotalAppend(a: seq<CounterOp>, b: seq<CounterOp>)
    ensures Total(a + b) == Total(a) + Total(b)
    decreases |a|
  {
    if a != [] {
      assert (a + b)[1..] == a[1..] + b;
      TotalAppend(a[1..], b);
    } else {
      assert a + b == b;
    }
  }

  /** Monotonicity: without overflow, the value after any prefix of a call
      sequence is at most the value after any longer prefix. */
  lemma RunMonotone(v: int64, ops: seq<CounterOp>, i: nat, j: nat)
    requires i <= j <= |ops|
    requires v as int + Total(ops) <= MAX
    ensures v <= Run(v, ops[..i]) <= Run(v, ops[..j])
  {
    assert ops[..j] == ops[..i] + ops[i..j];
    assert ops == ops[..j] + ops[j..];
    TotalAppend(ops[..i], ops[i..j]);
    TotalAppend(ops[..j], ops[j..]);
    RunAddsTotal(v, ops[..i]);
    RunAddsTotal(v, ops[..j]);
  }

  lemma {:induction false} TotalIncs(n: nat)
    ensures Total(Incs(n)) == n
  {
    if n > 0 {
      assert Incs(n)[1..] == Incs(n - 1);
      TotalIncs(n - 1);
    }
  }

  /** n successive Incs raise the value by exactly n, absent overflow. */
  lemma IncsAddN(v: int64, n: nat)
    requires v as int + n <= MAX
    ensures Run(v, Incs(n)) as int == v as int + n
  {
    TotalIncs(n);
    RunAddsTotal(v, Incs(n));
  }

  /** Calls Inc on `c` n times, one call after another. */
  method IncRepeatedly(c: Counter, n: nat)
    modifies c
    ensures c.Load() == Run(old(c.Load()), Incs(n))
    ensures old(c.Load()) as int + n <= MAX ==> c.Load() as int == old(c.Load()) as int + n
  {
    ghost var v0 := c.Load();
    var i := 0;
    while i < n
      invariant 0 <= i <= n
      invariant c.Load() == Run(v0, Incs(i))
    {
      RunSnoc(v0, Incs(i), IncOp);
      assert Incs(i) + [IncOp] == Incs(i + 1);
      c.Inc();
      i := i + 1;
    }
    if v0 as int + n <= MAX {
      IncsAddN(v0, n);
    }
  }

  /** Applying one more call after a sequence is one more Step. */
  lemma {:induction false} RunSnoc(v: int64, ops: seq<CounterOp>, op: CounterOp)
    ensures Run(v, ops + [op]) == Step(Run(v, ops), op)
    decreases |ops|
  {
    if ops == [] {
      assert ops + [op] == [op];
    } else {
      assert (ops + [op])[1..] == ops[1..] + [op];
      RunSnoc(Step(v, ops[0]), ops[1..], op);
    }
  }

  /** The documented example: Inc, Inc, Add(5) on a new counter loads 7. */
  method RequestsExample() returns (n: int64)
    ensures n == 7
  {
    var c := new Counter("requests");
    c.Inc();
    c.Inc();
    c.Add(5);
    n := c.Load();
  }
}

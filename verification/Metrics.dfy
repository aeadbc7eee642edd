/** Values shared by the whole system: Go's int64 and float64, metrics, and their validation
    (internal/model/metrics.go, validateMetric of internal/repository/memory.go). */
module Metrics {

  datatype Option<+T> = None | Some(value: T)

  datatype Result<+T, +E> = Ok(value: T) | Err(error: E)

  const TWO_63: int := 0x8000_0000_0000_0000
  const TWO_64: int := 0x1_0000_0000_0000_0000

  type int64 = x: int | -0x8000_0000_0000_0000 <= x < 0x8000_0000_0000_0000

  /** What an int64 register holds after an operation whose exact result is x. */
  function Wrap(x: int): (w: int64)
    ensures -TWO_63 <= x < TWO_63 ==> w == x
    ensures (x - w) % TWO_64 == 0
  {
    (x + TWO_63) % TWO_64 - TWO_63
  }

  /** Wrapping at every addition is the same as wrapping once at the end. */
  lemma WrapOnce(x: int, y: int)
    ensures Wrap(Wrap(x) + y) == Wrap(x + y)
  {
    var a := x + TWO_63;
    assert Wrap(x) + y + TWO_63 == a % TWO_64 + y;
    assert a == TWO_64 * (a / TWO_64) + a % TWO_64;
    ModShift(a % TWO_64 + y, a / TWO_64);
  }

  lemma ModShift(r: int, q: int)
    ensures (r + TWO_64 * q) % TWO_64 == r % TWO_64
  {
    var d := r / TWO_64;
    assert r + TWO_64 * q == TWO_64 * (d + q) + r % TWO_64;
  }

  /** A float64: the model never rounds, but a gauge may hold a value JSON cannot carry. */
  datatype Float64 = Finite(r: real) | PosInf | NegInf | NaN

  const COUNTER := "counter"
  const GAUGE := "gauge"

  /** A metric as a value; None stands for a nil pointer. */
  datatype Metric = Metric(id: string, mtype: string, delta: Option<int64>, value: Option<Float64>, hash: string)

  datatype MetricKey = MetricKey(id: string, mtype: string)

  function Key(m: Metric): MetricKey {
    MetricKey(m.id, m.mtype)
  }

  datatype MetricError = MissingId | CounterWithoutDelta | GaugeWithoutValue | UnsupportedType

  function Validate(m: Metric): Option<MetricError> {
    if m.id == "" then Some(MissingId)
    else if m.mtype == COUNTER then if m.delta.None? then Some(CounterWithoutDelta) else None
    else if m.mtype == GAUGE then if m.value.None? then Some(GaugeWithoutValue) else None
    else Some(UnsupportedType)
  }

  predicate IsValid(m: Metric) {
    Validate(m).None?
  }

  /** What the API demands of a metric, in its own words. */
  lemma ValidExactly(m: Metric)
    ensures IsValid(m) <==> m.id != "" && ((m.mtype == "counter" && m.delta.Some?) || (m.mtype == "gauge" && m.value.Some?))
    ensures m.id == "" ==> Validate(m) == Some(MissingId)
    ensures m.id != "" && m.mtype != "counter" && m.mtype != "gauge" ==> Validate(m) == Some(UnsupportedType)
  {
    assert "counter"[0] != "gauge"[0];
  }

  predicate AllValid(ms: seq<Metric>) {
    forall i :: 0 <= i < |ms| ==> IsValid(ms[i])
  }
}

/** The meaning of a metric store, without an index, pointers or locks: a list of metrics with
    distinct keys, searched by a linear scan. */
module StoreSpec {
  import opened Metrics

  function Find(s: seq<Metric>, k: MetricKey): (r: Option<nat>)
    ensures r.Some? ==> r.value < |s| && Key(s[r.value]) == k
    ensures r.Some? ==> forall j :: 0 <= j < r.value ==> Key(s[j]) != k
    ensures r.None? ==> forall j :: 0 <= j < |s| ==> Key(s[j]) != k
  {
    if s == [] then None
    else if Key(s[0]) == k then Some(0)
    else match Find(s[1..], k)
      case None => None
      case Some(i) => Some(i + 1)
  }

  ghost predicate UniqueKeys(s: seq<Metric>) {
    forall i, j :: 0 <= i < j < |s| ==> Key(s[i]) != Key(s[j])
  }

  lemma FindUnique(s: seq<Metric>, i: nat)
    requires UniqueKeys(s) && i < |s|
    ensures Find(s, Key(s[i])) == Some(i)
  {
    var r := Find(s, Key(s[i]));
    assert r.Some?;
    assert r.value == i;
  }

  function Lookup(s: seq<Metric>, k: MetricKey): Option<Metric> {
    match Find(s, k)
    case None => None
    case Some(i) => Some(s[i])
  }

  /** An existing entry after another metric with its key is saved: counters accumulate with
      int64 wrap-around, gauges are replaced, and nothing else changes. */
  function Merge(entry: Metric, m: Metric): Metric {
    if m.mtype == COUNTER && m.delta.Some? then
      entry.(delta := Some(if entry.delta.None? then m.delta.value else Wrap(entry.delta.value + m.delta.value)))
    else if m.mtype == GAUGE && m.value.Some? then
      entry.(value := m.value)
    else entry
  }

  function Save(s: seq<Metric>, m: Metric): seq<Metric> {
    match Find(s, Key(m))
    case Some(i) => s[i := Merge(s[i], m)]
    case None => s + [m]
  }

  function SaveAll(s: seq<Metric>, ms: seq<Metric>): seq<Metric>
    decreases |ms|
  {
    if ms == [] then s else Save(SaveAll(s, ms[..|ms| - 1]), ms[|ms| - 1])
  }

  lemma SaveLookup(s: seq<Metric>, m: Metric, k: MetricKey)
    requires UniqueKeys(s)
    ensures UniqueKeys(Save(s, m))
    ensures Lookup(Save(s, m), k) ==
            if k != Key(m) then Lookup(s, k)
            else match Lookup(s, k) case None => Some(m) case Some(e) => Some(Merge(e, m))
  {
    var t := Save(s, m);
    match Find(s, k) {
      case Some(i) => FindUnique(t, i);
      case None =>
        if k == Key(m) { FindUnique(t, |s|); }
    }
  }

  /** A position, once assigned to a key, is never reassigned. */
  ghost predicate KeysExtend(s: seq<Metric>, t: seq<Metric>) {
    |s| <= |t| && forall i :: 0 <= i < |s| ==> Key(s[i]) == Key(t[i])
  }

  lemma {:induction false} SaveAllKeepsPositions(s: seq<Metric>, ms: seq<Metric>)
    requires UniqueKeys(s)
    ensures UniqueKeys(SaveAll(s, ms))
    ensures KeysExtend(s, SaveAll(s, ms))
    decreases |ms|
  {
    if ms != [] {
      SaveAllKeepsPositions(s, ms[..|ms| - 1]);
      SaveLookup(SaveAll(s, ms[..|ms| - 1]), ms[|ms| - 1], Key(ms[|ms| - 1]));
    }
  }

  lemma {:induction false} SaveAllConcat(s: seq<Metric>, a: seq<Metric>, b: seq<Metric>)
    ensures SaveAll(s, a + b) == SaveAll(SaveAll(s, a), b)
    decreases |b|
  {
    if b == [] {
      assert a + b == a;
    } else {
      SaveAllConcat(s, a, b[..|b| - 1]);
      assert (a + b)[..|a + b| - 1] == a + b[..|b| - 1];
    }
  }

  lemma {:induction false} SaveAllKeepsValid(s: seq<Metric>, ms: seq<Metric>)
    requires AllValid(s) && AllValid(ms)
    ensures AllValid(SaveAll(s, ms))
    decreases |ms|
  {
    if ms != [] {
      SaveAllKeepsValid(s, ms[..|ms| - 1]);
    }
  }

  /** Element j of a batch answer is the entry of the j-th key once j + 1 elements are saved,
      also when a key repeats inside the batch. */
  ghost predicate Answers(s: seq<Metric>, ms: seq<Metric>, out: seq<Metric>) {
    && |out| <= |ms|
    && forall j :: 0 <= j < |out| ==> Lookup(SaveAll(s, ms[..j + 1]), Key(ms[j])) == Some(out[j])
  }

  lemma AnswersNothing(s: seq<Metric>, ms: seq<Metric>)
    ensures SaveAll(s, ms[..0]) == s && Answers(s, ms, [])
  {
  }

  lemma AnswersStep(s: seq<Metric>, ms: seq<Metric>, out: seq<Metric>, next: Metric)
    requires Answers(s, ms, out) && |out| < |ms|
    requires Lookup(Save(SaveAll(s, ms[..|out|]), ms[|out|]), Key(ms[|out|])) == Some(next)
    ensures Answers(s, ms, out + [next])
    ensures SaveAll(s, ms[..|out| + 1]) == Save(SaveAll(s, ms[..|out|]), ms[|out|])
  {
    assert ms[..|out| + 1][..|out|] == ms[..|out|];
    forall j | 0 <= j <= |out|
      ensures Lookup(SaveAll(s, ms[..j + 1]), Key(ms[j])) == Some((out + [next])[j])
    {
      assert j < |out| ==> (out + [next])[j] == out[j];
    }
  }

  // ---- What a key holds after a whole history ----

  /** The exact, unbounded sum of the deltas saved under a key. */
  function DeltaSum(ms: seq<Metric>, k: MetricKey): int
    decreases |ms|
  {
    if ms == [] then 0
    else
      var m := ms[|ms| - 1];
      DeltaSum(ms[..|ms| - 1], k) + if Key(m) == k && m.delta.Some? then m.delta.value else 0
  }

  function LastValue(ms: seq<Metric>, k: MetricKey): Option<Float64>
    decreases |ms|
  {
    if ms == [] then None
    else if Key(ms[|ms| - 1]) == k && ms[|ms| - 1].value.Some? then ms[|ms| - 1].value
    else LastValue(ms[..|ms| - 1], k)
  }

  ghost predicate Mentions(ms: seq<Metric>, k: MetricKey) {
    exists i :: 0 <= i < |ms| && Key(ms[i]) == k
  }

  /** After any history of valid saves, a key is present exactly when it was saved; a counter
      holds the int64 wrap of the exact sum of its deltas, a gauge its last value. */
  lemma {:induction false} HistoryMeaning(ms: seq<Metric>, k: MetricKey)
    requires AllValid(ms)
    ensures UniqueKeys(SaveAll([], ms))
    ensures Lookup(SaveAll([], ms), k).Some? <==> Mentions(ms, k)
    ensures Mentions(ms, k) && k.mtype == COUNTER ==>
              Lookup(SaveAll([], ms), k).value.delta == Some(Wrap(DeltaSum(ms, k)))
    ensures Mentions(ms, k) && k.mtype == GAUGE ==>
              LastValue(ms, k).Some? && Lookup(SaveAll([], ms), k).value.value == LastValue(ms, k)
    decreases |ms|
  {
    if ms != [] {
      var front, m := ms[..|ms| - 1], ms[|ms| - 1];
      HistoryMeaning(front, k);
      SaveLookup(SaveAll([], front), m, k);
      MentionsLast(ms, k);
      if Key(m) == k {
        if Mentions(front, k) && k.mtype == COUNTER {
          CounterStep(Lookup(SaveAll([], front), k).value, m, DeltaSum(front, k));
        } else if !Mentions(front, k) {
          NoMentionNoSum(front, k);
        }
      }
    }
  }

  lemma CounterStep(entry: Metric, m: Metric, sum: int)
    requires IsValid(m) && m.mtype == COUNTER && entry.delta == Some(Wrap(sum))
    ensures Merge(entry, m).delta == Some(Wrap(sum + m.delta.value))
  {
    WrapOnce(sum, m.delta.value);
  }

  lemma MentionsLast(ms: seq<Metric>, k: MetricKey)
    requires ms != []
    ensures Mentions(ms, k) <==> Mentions(ms[..|ms| - 1], k) || Key(ms[|ms| - 1]) == k
  {
    var front := ms[..|ms| - 1];
    if Mentions(front, k) {
      var i :| 0 <= i < |front| && Key(front[i]) == k;
      assert Key(ms[i]) == k;
    }
    if Mentions(ms, k) && Key(ms[|ms| - 1]) != k {
      var i :| 0 <= i < |ms| && Key(ms[i]) == k;
      assert Key(front[i]) == k;
    }
  }

  lemma {:induction false} NoMentionNoSum(ms: seq<Metric>, k: MetricKey)
    requires !Mentions(ms, k)
    ensures DeltaSum(ms, k) == 0
    decreases |ms|
  {
    if ms != [] {
      var front := ms[..|ms| - 1];
      assert forall i :: 0 <= i < |front| ==> Key(front[i]) == Key(ms[i]);
      NoMentionNoSum(front, k);
    }
  }

  lemma {:induction false} DeltaSumConcat(a: seq<Metric>, b: seq<Metric>, k: MetricKey)
    ensures DeltaSum(a + b, k) == DeltaSum(a, k) + DeltaSum(b, k)
    decreases |b|
  {
    if b == [] {
      assert a + b == a;
    } else {
      assert (a + b)[..|a + b| - 1] == a + b[..|b| - 1];
      DeltaSumConcat(a, b[..|b| - 1], k);
    }
  }

  lemma MentionsConcat(a: seq<Metric>, b: seq<Metric>, k: MetricKey)
    requires Mentions(a, k) || Mentions(b, k)
    ensures Mentions(a + b, k)
  {
    if Mentions(a, k) {
      var i :| 0 <= i < |a| && Key(a[i]) == k;
      assert Key((a + b)[i]) == k;
    } else {
      var i :| 0 <= i < |b| && Key(b[i]) == k;
      assert Key((a + b)[|a| + i]) == k;
    }
  }

  // ---- Commands, as callers issue them ----

  /** A context is live, done before the call, or becomes done while waiting for the lock. */
  datatype Ctx = Live | DoneOnEntry | DoneAtLock

  datatype StoreError = ContextDone | Rejected(reason: MetricError)

  datatype Command = SaveOne(ctx: Ctx, metric: Metric) | SaveBatch(ctx: Ctx, metrics: seq<Metric>)

  function Elements(c: Command): seq<Metric> {
    match c case SaveOne(_, m) => [m] case SaveBatch(_, ms) => ms
  }

  function FirstInvalid(ms: seq<Metric>): (r: Option<MetricError>)
    ensures r.None? <==> AllValid(ms)
  {
    if ms == [] then None
    else if Validate(ms[0]).Some? then Validate(ms[0])
    else
      assert AllValid(ms) <==> AllValid(ms[1..]) by {
        assert ms == [ms[0]] + ms[1..];
      }
      FirstInvalid(ms[1..])
  }

  /** The error a command ends with: the context is looked at first and last, and the elements
      are validated in order in between. */
  function Failure(ctx: Ctx, ms: seq<Metric>): Option<StoreError> {
    if ctx == DoneOnEntry then Some(ContextDone)
    else match FirstInvalid(ms)
      case Some(e) => Some(Rejected(e))
      case None => if ctx == DoneAtLock then Some(ContextDone) else None
  }

  function Apply(s: seq<Metric>, c: Command): seq<Metric> {
    if Failure(c.ctx, Elements(c)).Some? then s else SaveAll(s, Elements(c))
  }

  function Run(s: seq<Metric>, cs: seq<Command>): seq<Metric>
    decreases |cs|
  {
    if cs == [] then s else Apply(Run(s, cs[..|cs| - 1]), cs[|cs| - 1])
  }

  /** The elements of the commands that did not fail, in order. */
  function Accepted(cs: seq<Command>): seq<Metric>
    decreases |cs|
  {
    if cs == [] then []
    else
      var c := cs[|cs| - 1];
      Accepted(cs[..|cs| - 1]) + if Failure(c.ctx, Elements(c)).Some? then [] else Elements(c)
  }

  /** A whole history of commands leaves what saving the accepted elements one by one leaves:
      a batch counts completely or not at all. */
  lemma {:induction false} RunSavesAccepted(cs: seq<Command>)
    ensures AllValid(Accepted(cs))
    ensures Run([], cs) == SaveAll([], Accepted(cs))
    decreases |cs|
  {
    if cs != [] {
      var front, c := cs[..|cs| - 1], cs[|cs| - 1];
      RunSavesAccepted(front);
      assert Accepted(front) + [] == Accepted(front);
      if Failure(c.ctx, Elements(c)).None? {
        SaveAllConcat([], Accepted(front), Elements(c));
      }
    }
  }
}

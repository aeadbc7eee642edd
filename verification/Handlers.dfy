/** UpdateMetrics and UpdateMetricsByJSON of internal/handler/server/handler.go with
    internal/service/service.go: a handler first looks its metric up and then, in a second call to
    the store, updates or creates it. Any number of them run at once on the memory store. */
module Handlers {
  import opened Metrics
  import opened StoreSpec

  /** A request that has passed the checks of the handler. */
  datatype Request = Request(id: string, mtype: string, delta: int64, value: Float64)

  predicate WellFormed(r: Request) {
    r.id != "" && (r.mtype == COUNTER || r.mtype == GAUGE)
  }

  datatype Stage = Parsed | Looked(existing: Option<Metric>) | Done(answer: Metric)

  datatype Handler = Handler(request: Request, stage: Stage)

  /** saved is the history of saves. */
  datatype State = State(store: seq<Metric>, handlers: seq<Handler>, saved: seq<Metric>)

  datatype Step = Arrive(request: Request) | Look(h: nat) | Write(h: nat)

  /** Service.UpdateMetrics goes by the metric that was found. */
  function UpdateBuilds(existing: Metric, delta: int64, value: Float64): Metric {
    if existing.mtype == COUNTER then Metric(existing.id, existing.mtype, Some(delta), None, "")
    else if existing.mtype == GAUGE then Metric(existing.id, existing.mtype, None, Some(value), "")
    else Metric(existing.id, existing.mtype, None, None, "")
  }

  /** Service.CreateMetrics goes by the request. */
  function CreateBuilds(name: string, mtype: string, delta: int64, value: Float64): Metric {
    if mtype == COUNTER then Metric(name, mtype, Some(delta), None, "")
    else if mtype == GAUGE then Metric(name, mtype, None, Some(value), "")
    else Metric(name, mtype, None, None, "")
  }

  function Builds(r: Request, existing: Option<Metric>): Metric {
    if existing.Some? then UpdateBuilds(existing.value, r.delta, r.value)
    else CreateBuilds(r.id, r.mtype, r.delta, r.value)
  }

  predicate CanStep(s: State, e: Step) {
    match e
    case Arrive(r) => WellFormed(r)
    case Look(h) => h < |s.handlers| && s.handlers[h].stage.Parsed?
    case Write(h) => h < |s.handlers| && s.handlers[h].stage.Looked?
  }

  /** The one who found a metric answers with what was found, not with what the save made of it. */
  function After(s: State, e: Step): State
    requires CanStep(s, e)
  {
    match e
    case Arrive(r) => s.(handlers := s.handlers + [Handler(r, Parsed)])
    case Look(h) =>
      var r := s.handlers[h].request;
      s.(handlers := s.handlers[h := Handler(r, Looked(Lookup(s.store, MetricKey(r.id, r.mtype))))])
    case Write(h) =>
      var r, existing := s.handlers[h].request, s.handlers[h].stage.existing;
      var m := Builds(r, existing);
      var store := Apply(s.store, SaveOne(Live, m));
      var found := Lookup(store, Key(m));
      var answer := if existing.Some? then existing.value else if found.Some? then found.value else m;
      State(store, s.handlers[h := Handler(r, Done(answer))], s.saved + if IsValid(m) then [m] else [])
  }

  /** What the finished requests add up to under a key. */
  function DoneSum(hs: seq<Handler>, k: MetricKey): int
    decreases |hs|
  {
    if hs == [] then 0
    else
      var h := hs[|hs| - 1];
      DoneSum(hs[..|hs| - 1], k) +
      if h.stage.Done? && k == MetricKey(h.request.id, h.request.mtype) && k.mtype == COUNTER then h.request.delta else 0
  }

  ghost predicate Fits(h: Handler) {
    && WellFormed(h.request)
    && (h.stage.Looked? && h.stage.existing.Some? ==> Key(h.stage.existing.value) == MetricKey(h.request.id, h.request.mtype))
  }

  ghost predicate Inv(s: State, before: seq<Metric>) {
    && AllValid(s.saved) && s.store == SaveAll(before, s.saved)
    && (forall i :: 0 <= i < |s.handlers| ==> Fits(s.handlers[i]))
    && (forall i :: 0 <= i < |s.handlers| && s.handlers[i].stage.Done? ==> Mentions(s.saved, RequestKey(s.handlers[i].request)))
    && (forall k: MetricKey :: k.mtype == COUNTER ==> DeltaSum(s.saved, k) == DoneSum(s.handlers, k))
  }

  function RequestKey(r: Request): MetricKey {
    MetricKey(r.id, r.mtype)
  }

  /** Whatever was found, and however stale it is, the same metric is saved. */
  lemma BothBranchesSaveTheSame(h: Handler)
    requires Fits(h) && h.stage.Looked?
    ensures var m := Builds(h.request, h.stage.existing);
            m == Builds(h.request, None) && IsValid(m) && Key(m) == RequestKey(h.request)
  {
  }

  lemma {:induction false} DoneSumUpdate(hs: seq<Handler>, i: nat, h: Handler, k: MetricKey)
    requires i < |hs| && !hs[i].stage.Done? && h.request == hs[i].request
    ensures DoneSum(hs[i := h], k) ==
            DoneSum(hs, k) + if h.stage.Done? && k == RequestKey(h.request) && k.mtype == COUNTER then h.request.delta else 0
    decreases |hs|
  {
    var n := |hs| - 1;
    if i < n {
      assert hs[i := h][..n] == hs[..n][i := h];
      DoneSumUpdate(hs[..n], i, h, k);
    } else {
      assert hs[i := h][..n] == hs[..n];
    }
  }

  lemma SaveOneIs(s: seq<Metric>, saved: seq<Metric>, before: seq<Metric>, m: Metric)
    requires s == SaveAll(before, saved) && IsValid(m)
    ensures Apply(s, SaveOne(Live, m)) == SaveAll(before, saved + [m])
  {
    assert (saved + [m])[..|saved|] == saved && [m][..0] == [];
    assert FirstInvalid([m]).None? by { assert [m][1..] == []; }
    assert SaveAll(s, [m]) == Save(s, m);
  }

  lemma HistoryStep(saved: seq<Metric>, m: Metric, k: MetricKey)
    ensures DeltaSum(saved + [m], k) == DeltaSum(saved, k) + if Key(m) == k && m.delta.Some? then m.delta.value else 0
    ensures Mentions(saved + [m], k) <==> Mentions(saved, k) || Key(m) == k
  {
    assert (saved + [m])[..|saved|] == saved;
    MentionsLast(saved + [m], k);
  }

  lemma StepKeepsInv(s: State, e: Step, before: seq<Metric>)
    requires Inv(s, before) && CanStep(s, e)
    ensures Inv(After(s, e), before)
  {
    hide SaveAll, Apply, Builds, Mentions, DeltaSum, DoneSum, Lookup, IsValid, WellFormed;
    match e {
      case Arrive(r) =>
        assert Fits(Handler(r, Parsed));
        forall k
          ensures DoneSum(s.handlers + [Handler(r, Parsed)], k) == DoneSum(s.handlers, k)
        {
          DoneSumArrive(s.handlers, Handler(r, Parsed), k);
        }
      case Look(h) => LookKeepsInv(s, h, before);
      case Write(h) => WriteKeepsInv(s, h, before);
    }
  }

  lemma DoneSumArrive(hs: seq<Handler>, h: Handler, k: MetricKey)
    requires !h.stage.Done?
    ensures DoneSum(hs + [h], k) == DoneSum(hs, k)
  {
    assert (hs + [h])[..|hs|] == hs;
  }

  lemma LookKeepsInv(s: State, h: nat, before: seq<Metric>)
    requires Inv(s, before) && CanStep(s, Look(h))
    ensures Inv(After(s, Look(h)), before)
  {
    hide SaveAll, Apply, Builds, Mentions, DeltaSum, DoneSum, WellFormed;
    var t := After(s, Look(h));
    assert Fits(t.handlers[h]);
    forall k: MetricKey | k.mtype == COUNTER
      ensures DeltaSum(t.saved, k) == DoneSum(t.handlers, k)
    {
      DoneSumUpdate(s.handlers, h, t.handlers[h], k);
    }
  }

  lemma WriteKeepsInv(s: State, h: nat, before: seq<Metric>)
    requires Inv(s, before) && CanStep(s, Write(h))
    ensures Inv(After(s, Write(h)), before)
  {
    var t := After(s, Write(h));
    var m := Builds(s.handlers[h].request, s.handlers[h].stage.existing);
    BothBranchesSaveTheSame(s.handlers[h]);
    SaveOneIs(s.store, s.saved, before, m);
    assert m.delta == if m.mtype == COUNTER then Some(s.handlers[h].request.delta) else None;
    hide SaveAll, Apply, Builds, Mentions, DeltaSum, DoneSum, Lookup, WellFormed, IsValid;
    assert t.saved == s.saved + [m];
    forall k: MetricKey
      ensures k.mtype == COUNTER ==> DeltaSum(t.saved, k) == DoneSum(t.handlers, k)
      ensures Mentions(t.saved, k) <==> Mentions(s.saved, k) || Key(m) == k
    {
      HistoryStep(s.saved, m, k);
      DoneSumUpdate(s.handlers, h, t.handlers[h], k);
    }
    assert Fits(t.handlers[h]);
  }

  ghost predicate IsRun(s: State, steps: seq<Step>)
    decreases |steps|
  {
    steps == [] || (CanStep(s, steps[0]) && IsRun(After(s, steps[0]), steps[1..]))
  }

  ghost function AfterAll(s: State, steps: seq<Step>): State
    requires IsRun(s, steps)
    decreases |steps|
  {
    if steps == [] then s else AfterAll(After(s, steps[0]), steps[1..])
  }

  lemma {:induction false} RunKeepsInv(s: State, steps: seq<Step>, before: seq<Metric>)
    requires Inv(s, before) && IsRun(s, steps)
    ensures Inv(AfterAll(s, steps), before)
    decreases |steps|
  {
    hide Inv, CanStep, After;
    if steps != [] {
      StepKeepsInv(s, steps[0], before);
      RunKeepsInv(After(s, steps[0]), steps[1..], before);
    }
  }

  /** No counter update is lost, however lookups and saves interleave: on a store built by the
      valid saves `before`, a counter that some finished request names holds its old sum and the
      deltas of all finished requests under it, wrapped once. */
  lemma NoUpdateIsLost(before: seq<Metric>, steps: seq<Step>, h: nat)
    requires AllValid(before) && IsRun(State(SaveAll([], before), [], []), steps)
    requires var t := AfterAll(State(SaveAll([], before), [], []), steps);
             h < |t.handlers| && t.handlers[h].stage.Done? && t.handlers[h].request.mtype == COUNTER
    ensures var t := AfterAll(State(SaveAll([], before), [], []), steps);
            var k := RequestKey(t.handlers[h].request);
            var entry := Lookup(t.store, k);
            entry.Some? && entry.value.delta == Some(Wrap(DeltaSum(before, k) + DoneSum(t.handlers, k)))
  {
    hide SaveAll, Mentions, LastValue, Lookup, AfterAll, IsRun, Wrap, DeltaSum, DoneSum;
    var start := State(SaveAll([], before), [], []);
    assert Inv(start, SaveAll([], before)) by { NothingYet(SaveAll([], before)); }
    RunKeepsInv(start, steps, SaveAll([], before));
    var t := AfterAll(start, steps);
    var k := RequestKey(t.handlers[h].request);
    SaveAllConcat([], before, t.saved);
    DeltaSumConcat(before, t.saved, k);
    MentionsConcat(before, t.saved, k);
    HistoryMeaning(before + t.saved, k);
  }

  // ---- Every run is the writes one after the other ----

  /** The metric a request asks for. */
  function Asked(r: Request): Metric {
    if r.mtype == "counter" then Metric(r.id, "counter", Some(r.delta), None, "")
    else Metric(r.id, "gauge", None, Some(r.value), "")
  }

  ghost function WrittenBy(s: State, e: Step): seq<Metric>
    requires CanStep(s, e)
  {
    match e case Write(h) => [Asked(s.handlers[h].request)] case _ => []
  }

  /** The requests written in a run, in the order of their writes. */
  ghost function Written(s: State, steps: seq<Step>): seq<Metric>
    requires IsRun(s, steps)
    decreases |steps|
  {
    if steps == [] then [] else WrittenBy(s, steps[0]) + Written(After(s, steps[0]), steps[1..])
  }

  function Requests(hs: seq<Handler>): (r: seq<Request>)
    ensures |r| == |hs|
  {
    seq(|hs|, i requires 0 <= i < |hs| => hs[i].request)
  }

  /** The requests that came in during a run. */
  function Arrived(steps: seq<Step>): seq<Request> {
    if steps == [] then [] else Arrival(steps[0]) + Arrived(steps[1..])
  }

  function Arrival(e: Step): seq<Request> {
    match e case Arrive(r) => [r] case _ => []
  }

  lemma OneArrival(s: State, e: Step)
    requires CanStep(s, e)
    ensures Requests(After(s, e).handlers) == Requests(s.handlers) + Arrival(e)
  {
    hide Apply, Lookup, Builds;
  }

  /** Every request that comes in has a handler, and keeps it. */
  lemma {:induction false} ArrivalsAreKept(s: State, steps: seq<Step>)
    requires IsRun(s, steps)
    ensures Requests(AfterAll(s, steps).handlers) == Requests(s.handlers) + Arrived(steps)
    decreases |steps|
  {
    hide CanStep, After, Requests, Arrival;
    if steps == [] {
      assert Requests(s.handlers) + [] == Requests(s.handlers);
    } else {
      OneArrival(s, steps[0]);
      ArrivalsAreKept(After(s, steps[0]), steps[1..]);
      assert (Requests(s.handlers) + Arrival(steps[0])) + Arrived(steps[1..]) == Requests(s.handlers) + Arrived(steps);
    }
  }

  lemma WriteSavesWhatIsAsked(s: State, e: Step)
    requires CanStep(s, e) && forall i :: 0 <= i < |s.handlers| ==> Fits(s.handlers[i])
    ensures After(s, e).saved == s.saved + WrittenBy(s, e)
  {
    hide Apply, Lookup;
    assert s.saved + [] == s.saved;
    if e.Write? { assert Fits(s.handlers[e.h]); }
  }

  lemma {:induction false} SavedIsWritten(s: State, steps: seq<Step>, before: seq<Metric>)
    requires Inv(s, before) && IsRun(s, steps)
    ensures AfterAll(s, steps).saved == s.saved + Written(s, steps)
    decreases |steps|
  {
    hide CanStep, After, WrittenBy, SaveAll, Mentions, DeltaSum, DoneSum, AllValid;
    if steps == [] {
      assert s.saved + [] == s.saved;
    } else {
      WriteSavesWhatIsAsked(s, steps[0]);
      StepKeepsInv(s, steps[0], before);
      SavedIsWritten(After(s, steps[0]), steps[1..], before);
      var first := WrittenBy(s, steps[0]);
      assert (s.saved + first) + Written(After(s, steps[0]), steps[1..]) == s.saved + (first + Written(After(s, steps[0]), steps[1..]));
    }
  }

  /** However lookups and writes interleave, the store ends as if the requests had been saved one by
      one, in the order of their writes, whatever their lookups found: so a counter gains every
      delta, and a gauge has the value written last. */
  lemma RunIsItsWrites(before: seq<Metric>, steps: seq<Step>, k: MetricKey)
    requires AllValid(before) && IsRun(State(SaveAll([], before), [], []), steps)
    ensures var start := State(SaveAll([], before), [], []);
            && AfterAll(start, steps).store == SaveAll([], before + Written(start, steps))
            && (Mentions(Written(start, steps), k) && k.mtype == GAUGE ==>
                  var entry := Lookup(AfterAll(start, steps).store, k);
                  entry.Some? && entry.value.value == LastValue(Written(start, steps), k))
  {
    hide SaveAll, Mentions, LastValue, Lookup, AfterAll, IsRun, Wrap, DeltaSum, DoneSum, Asked;
    var start := State(SaveAll([], before), [], []);
    assert Inv(start, SaveAll([], before)) by { NothingYet(SaveAll([], before)); }
    RunKeepsInv(start, steps, SaveAll([], before));
    SavedIsWritten(start, steps, SaveAll([], before));
    var ms := Written(start, steps);
    assert [] + ms == ms;
    SaveAllConcat([], before, ms);
    HistoryMeaning(before + ms, k);
    if Mentions(ms, k) && k.mtype == GAUGE {
      MentionsConcat(before, ms, k);
      LastOfBoth(before, ms, k);
    }
  }

  lemma {:induction false} LastOfBoth(a: seq<Metric>, b: seq<Metric>, k: MetricKey)
    requires AllValid(b) && Mentions(b, k) && k.mtype == GAUGE
    ensures LastValue(a + b, k) == LastValue(b, k)
    decreases |b|
  {
    var n := |b| - 1;
    assert (a + b)[..|a + b| - 1] == a + b[..n];
    assert (a + b)[|a + b| - 1] == b[n] && IsValid(b[n]);
    assert "counter"[0] != "gauge"[0];
    MentionsLast(b, k);
    if Key(b[n]) != k { LastOfBoth(a, b[..n], k); }
  }

  /** A handler answers with what its lookup found, or else with what its own write left. */
  lemma AnswersExactly(s: State, before: seq<Metric>, h: nat)
    requires Inv(s, before) && CanStep(s, Write(h))
    ensures var t, found := After(s, Write(h)), s.handlers[h].stage.existing;
            && t.handlers[h].stage.Done?
            && (if found.Some? then t.handlers[h].stage.answer == found.value
                else Lookup(t.store, RequestKey(s.handlers[h].request)) == Some(t.handlers[h].stage.answer))
  {
    hide SaveAll, Mentions, DeltaSum, DoneSum;
    var m := Builds(s.handlers[h].request, s.handlers[h].stage.existing);
    BothBranchesSaveTheSame(s.handlers[h]);
    SavedIsThere(s.store, m);
  }

  /** A lookup finds the entry of the key if there is one, and changes nothing. */
  lemma LooksUpExactly(s: State, h: nat)
    requires CanStep(s, Look(h))
    ensures var t, key := After(s, Look(h)), RequestKey(s.handlers[h].request);
            && t.store == s.store && t.saved == s.saved && t.handlers[h].stage.Looked?
            && match t.handlers[h].stage.existing
               case None => forall m :: m in s.store ==> Key(m) != key
               case Some(m) => m in s.store && Key(m) == key
  {
  }

  lemma SavedIsThere(s: seq<Metric>, m: Metric)
    requires IsValid(m)
    ensures Lookup(Apply(s, SaveOne(Live, m)), Key(m)).Some?
  {
    assert SaveAll(s, []) == s;
    assert [m][..0] == [];
    assert FirstInvalid([m]).None? by { assert [m][1..] == []; }
    var t := Save(s, m);
    assert SaveAll(s, [m]) == t;
    var i := if Find(s, Key(m)).Some? then Find(s, Key(m)).value else |s|;
    assert i < |t| && Key(t[i]) == Key(m);
  }

  lemma NothingYet(before: seq<Metric>)
    ensures Inv(State(before, [], []), before)
  {
  }
}

/** What the server's PollCount counter adds up to, over whole runs of the agent. */
module AgentAccounting {
  import opened Metrics
  import opened StoreSpec
  import opened Agent
  import opened AgentSafety

  /** The revisions the server applied, in order, acknowledged or not. */
  function AppliedRevs(ds: seq<Delivery>): seq<nat>
    decreases |ds|
  {
    if ds == [] then []
    else AppliedRevs(ds[..|ds| - 1]) + if ds[|ds| - 1].applied then [ds[|ds| - 1].rev] else []
  }

  function Sum(rs: seq<nat>): nat
    decreases |rs|
  {
    if rs == [] then 0 else Sum(rs[..|rs| - 1]) + rs[|rs| - 1]
  }

  /** Each finished send counts its revision once per copy the server applied. */
  function Total(sends: seq<Send>): nat
    decreases |sends|
  {
    if sends == [] then 0
    else Total(sends[..|sends| - 1]) + sends[|sends| - 1].copies * sends[|sends| - 1].rev
  }

  lemma SumAppend(rs: seq<nat>, r: nat)
    ensures Sum(rs + [r]) == Sum(rs) + r
  {
    assert (rs + [r])[..|rs|] == rs;
  }

  lemma TotalAppend(sends: seq<Send>, x: Send)
    ensures Total(sends + [x]) == Total(sends) + x.copies * x.rev
  {
    assert (sends + [x])[..|sends|] == sends;
  }

  lemma AppliedAppend(ds: seq<Delivery>, d: Delivery)
    ensures Sum(AppliedRevs(ds + [d])) == Sum(AppliedRevs(ds)) + if d.applied then d.rev else 0
  {
    assert (ds + [d])[..|ds|] == ds;
    if d.applied { SumAppend(AppliedRevs(ds), d.rev); }
    assert AppliedRevs(ds) + [] == AppliedRevs(ds);
  }

  /** Copies applied by a send that is still retrying. */
  function InFlight(s: State): nat {
    if s.holder.Some? && Exists(s, s.holder.value) && PcOf(s, s.holder.value).Sending?
    then PcOf(s, s.holder.value).copies * PcOf(s, s.holder.value).rev else 0
  }

  /** A successful send was applied between one and four times, a failed one at most four times;
      nothing else reaches the server. */
  ghost predicate Accounted(s: State) {
    && (forall k :: 0 <= k < |s.sends| ==>
          s.sends[k].copies <= RETRIES + 1 && (s.sends[k].ok ==> s.sends[k].copies >= 1))
    && Sum(AppliedRevs(s.deliveries)) == Total(s.sends) + InFlight(s)
  }

  lemma StepKeepsAccounts(s: State, e: Step)
    requires ShapeOk(s) && MutexOk(s) && SendersOk(s) && Accounted(s) && CanStep(s, e)
    ensures Accounted(After(s, e))
  {
    if e.Attempt? { AttemptKeepsAccounts(s, e); } else { QuietStepKeepsAccounts(s, e); }
  }

  lemma QuietStepKeepsAccounts(s: State, e: Step)
    requires ShapeOk(s) && MutexOk(s) && Accounted(s) && CanStep(s, e) && !e.Attempt?
    ensures Accounted(After(s, e))
  {
    hide Sum, Total, AppliedRevs;
    assert InFlight(After(s, e)) == InFlight(s);
  }

  lemma AttemptKeepsAccounts(s: State, e: Step)
    requires MutexOk(s) && SendersOk(s) && Accounted(s) && CanStep(s, e) && e.Attempt?
    ensures Accounted(After(s, e))
  {
    hide Sum, Total, AppliedRevs, CanStep, After, MutexOk, SendersOk, InFlight, SenderOk, Contents;
    var pc := PcOfSender(s, e);
    AttemptCounts(s, e, pc);
    var copies := pc.copies + if e.applied then 1 else 0;
    AppliedAppend(s.deliveries, Delivery(pc.rev, Contents(pc.snapshot, s.shared.arrays), e.reply, e.applied));
    assert copies * pc.rev == pc.copies * pc.rev + if e.applied then pc.rev else 0;
    TotalAppend(s.sends, Send(pc.rev, true, copies));
    TotalAppend(s.sends, Send(pc.rev, false, copies));
  }

  ghost function PcOfSender(s: State, e: Step): (pc: Pc)
    requires CanStep(s, e) && e.Attempt?
    ensures pc == PcOf(s, e.who) && pc.Sending? && ValidSlice(pc.snapshot.cpu, s.shared.arrays)
  {
    PcOf(s, e.who)
  }

  lemma AttemptCounts(s: State, e: Step, pc: Pc)
    requires MutexOk(s) && SendersOk(s) && CanStep(s, e) && e.Attempt? && pc == PcOfSender(s, e)
    ensures var t, copies := After(s, e), pc.copies + if e.applied then 1 else 0;
            && pc.copies <= pc.attempt <= RETRIES && InFlight(s) == pc.copies * pc.rev
            && t.deliveries == s.deliveries + [Delivery(pc.rev, Contents(pc.snapshot, s.shared.arrays), e.reply, e.applied)]
            && ((t.sends == s.sends && InFlight(t) == copies * pc.rev) ||
                (t.sends == s.sends + [Send(pc.rev, e.reply.Success?, copies)] && InFlight(t) == 0))
            && (e.reply.Success? ==> e.applied)
  {
    hide Contents, SnapshotOk;
    assert SenderOk(s, pc) && s.holder == Some(e.who);
  }

  lemma {:induction false} RunAccounts(s: State, es: seq<Step>)
    requires Inv(s) && Accounted(s) && IsRun(s, es) && |End(s, es).history| <= TWO_63
    ensures Inv(End(s, es)) && Accounted(End(s, es))
    decreases |es|
  {
    if es != [] {
      StepKeepsAccounts(s, es[0]);
      hide CanStep, After, Accounted, ShapeOk, MutexOk, SendersOk, PoolOk, PhaseOk, DataOk, FlushOk, DeliveriesOk, AckedOk, ReportsOk;
      HistoryGrows(After(s, es[0]), es[1..]);
      StepKeepsInv(s, es[0]);
      RunAccounts(After(s, es[0]), es[1..]);
    }
  }

  // ---- A network that never loses an acknowledgement ----

  ghost predicate NothingLost(ds: seq<Delivery>) {
    forall k :: 0 <= k < |ds| ==> (ds[k].applied <==> ds[k].reply.Success?)
  }

  lemma {:induction false} NothingLostApplied(ds: seq<Delivery>)
    requires NothingLost(ds)
    ensures AppliedRevs(ds) == AckedRevs(ds)
    decreases |ds|
  {
    if ds != [] {
      assert forall k :: 0 <= k < |ds| - 1 ==> ds[..|ds| - 1][k] == ds[k];
      NothingLostApplied(ds[..|ds| - 1]);
    }
  }

  lemma {:induction false} IncreasingAtLeast(rs: seq<nat>)
    requires Increasing(rs)
    ensures |rs| > 0 ==> rs[|rs| - 1] >= |rs|
    ensures 2 * Sum(rs) >= |rs| * (|rs| + 1)
    decreases |rs|
  {
    if rs != [] {
      var front := rs[..|rs| - 1];
      assert Increasing(front);
      IncreasingAtLeast(front);
      var n := |front|;
      assert (n + 1) * (n + 2) == n * (n + 1) + 2 * (n + 1);
    }
  }

  // ---- The server ----

  const POLL_COUNT := MetricKey("PollCount", COUNTER)

  /** One request as the server stores it: gauges in any order, and one counter. */
  ghost predicate IsRequest(batch: seq<Metric>, payload: Snapshot) {
    && AllValid(batch)
    && DeltaSum(batch, POLL_COUNT) == payload.pollCount
    && Mentions(batch, POLL_COUNT)
  }

  /** The request built from a snapshot is a Go map walked in arbitrary order: the counter stands
      somewhere among gauges. */
  lemma RequestWithGauges(a: seq<Metric>, b: seq<Metric>, payload: Snapshot)
    requires AllValid(a) && AllValid(b)
    requires forall i :: 0 <= i < |a| ==> a[i].mtype == GAUGE
    requires forall i :: 0 <= i < |b| ==> b[i].mtype == GAUGE
    ensures IsRequest(a + [Metric("PollCount", COUNTER, Some(payload.pollCount), None, "")] + b, payload)
  {
    var m := Metric("PollCount", COUNTER, Some(payload.pollCount), None, "");
    assert (a + [m] + b)[|a|] == m;
    NoCounterNoSum(a);
    NoCounterNoSum(b);
    DeltaSumConcat(a, [m], POLL_COUNT);
    DeltaSumConcat(a + [m], b, POLL_COUNT);
    assert [m][..0] == [];
  }

  lemma NoCounterNoSum(ms: seq<Metric>)
    requires forall i :: 0 <= i < |ms| ==> ms[i].mtype == GAUGE
    ensures DeltaSum(ms, POLL_COUNT) == 0
  {
    assert COUNTER != GAUGE by { assert COUNTER[0] != GAUGE[0]; }
    NoMentionNoSum(ms, POLL_COUNT);
  }

  function Flatten(batches: seq<seq<Metric>>): seq<Metric>
    decreases |batches|
  {
    if batches == [] then [] else Flatten(batches[..|batches| - 1]) + batches[|batches| - 1]
  }

  /** The server has received exactly the applied deliveries. */
  ghost predicate Received(batches: seq<seq<Metric>>, ds: seq<Delivery>)
    decreases |ds|
  {
    if ds == [] then batches == []
    else if !ds[|ds| - 1].applied then Received(batches, ds[..|ds| - 1])
    else batches != [] && IsRequest(batches[|batches| - 1], ds[|ds| - 1].payload)
         && Received(batches[..|batches| - 1], ds[..|ds| - 1])
  }

  lemma {:induction false} ReceivedSum(batches: seq<seq<Metric>>, ds: seq<Delivery>)
    requires Received(batches, ds)
    requires forall k :: 0 <= k < |ds| ==> ds[k].payload.pollCount == ds[k].rev
    ensures AllValid(Flatten(batches))
    ensures DeltaSum(Flatten(batches), POLL_COUNT) == Sum(AppliedRevs(ds))
    decreases |ds|
  {
    if ds != [] {
      var front := ds[..|ds| - 1];
      assert forall k :: 0 <= k < |front| ==> front[k] == ds[k];
      assert ds == front + [ds[|ds| - 1]];
      AppliedAppend(front, ds[|ds| - 1]);
      if ds[|ds| - 1].applied {
        var bfront := batches[..|batches| - 1];
        ReceivedSum(bfront, front);
        DeltaSumConcat(Flatten(bfront), batches[|batches| - 1], POLL_COUNT);
      } else {
        ReceivedSum(batches, front);
      }
    }
  }

  /** End to end: on a server whose store was built by valid saves `before`, after the applied
      requests of any run of an agent the counter holds, with int64 wrap-around, its old sum plus
      one revision per copy; with no lost acknowledgement that is one strictly increasing
      series, so k successes add at least k(k+1)/2. */
  lemma ServerCounter(rateLimit: nat, es: seq<Step>, before: seq<Metric>, batches: seq<seq<Metric>>)
    requires IsRun(Initial(rateLimit), es) && |End(Initial(rateLimit), es).history| <= TWO_63
    requires AllValid(before) && (Mentions(before, POLL_COUNT) || batches != [])
    requires Received(batches, End(Initial(rateLimit), es).deliveries)
    ensures var s := End(Initial(rateLimit), es);
            var gained := Total(s.sends) + InFlight(s);
            && Lookup(SaveAll([], before + Flatten(batches)), POLL_COUNT).Some?
            && Lookup(SaveAll([], before + Flatten(batches)), POLL_COUNT).value.delta
               == Some(Wrap(DeltaSum(before, POLL_COUNT) + gained))
            && (forall k :: 0 <= k < |s.sends| ==> s.sends[k].copies <= 4 && (s.sends[k].ok ==> 1 <= s.sends[k].copies))
            && (NothingLost(s.deliveries) ==>
                  && gained == Sum(AckedRevs(s.deliveries))
                  && 2 * gained >= |AckedRevs(s.deliveries)| * (|AckedRevs(s.deliveries)| + 1))
  {
    hide *;
    InitialInv(rateLimit);
    InitialAccounted(rateLimit);
    RunAccounts(Initial(rateLimit), es);
    CounterAtEnd(End(Initial(rateLimit), es), before, batches);
  }

  lemma InitialAccounted(rateLimit: nat)
    ensures Accounted(Initial(rateLimit)) && |Initial(rateLimit).history| == 1
  {
  }

  lemma CounterAtEnd(s: State, before: seq<Metric>, batches: seq<seq<Metric>>)
    requires Inv(s) && Accounted(s) && AllValid(before) && Received(batches, s.deliveries)
    requires Mentions(before, POLL_COUNT) || batches != []
    ensures var gained := Total(s.sends) + InFlight(s);
            && Lookup(SaveAll([], before + Flatten(batches)), POLL_COUNT).Some?
            && Lookup(SaveAll([], before + Flatten(batches)), POLL_COUNT).value.delta
               == Some(Wrap(DeltaSum(before, POLL_COUNT) + gained))
            && (forall k :: 0 <= k < |s.sends| ==> s.sends[k].copies <= 4 && (s.sends[k].ok ==> 1 <= s.sends[k].copies))
            && (NothingLost(s.deliveries) ==>
                  && gained == Sum(AckedRevs(s.deliveries))
                  && 2 * gained >= |AckedRevs(s.deliveries)| * (|AckedRevs(s.deliveries)| + 1))
  {
    hide *;
    PartsOfInv(s);
    CounterAfter(s, before, batches);
    if NothingLost(s.deliveries) {
      NothingLostApplied(s.deliveries);
      IncreasingAtLeast(AckedRevs(s.deliveries));
    }
  }

  lemma PartsOfInv(s: State)
    requires Inv(s) && Accounted(s)
    ensures DataOk(s) && DeliveriesOk(s) && Increasing(AckedRevs(s.deliveries))
    ensures Sum(AppliedRevs(s.deliveries)) == Total(s.sends) + InFlight(s)
    ensures forall k :: 0 <= k < |s.sends| ==> s.sends[k].copies <= 4 && (s.sends[k].ok ==> 1 <= s.sends[k].copies)
  {
  }

  lemma CountsAreRevisions(s: State)
    requires DataOk(s) && DeliveriesOk(s)
    ensures forall k :: 0 <= k < |s.deliveries| ==> s.deliveries[k].payload.pollCount == s.deliveries[k].rev
  {
  }

  lemma CounterAfter(s: State, before: seq<Metric>, batches: seq<seq<Metric>>)
    requires DataOk(s) && DeliveriesOk(s) && AllValid(before) && Received(batches, s.deliveries)
    requires Mentions(before, POLL_COUNT) || batches != []
    ensures var r := Lookup(SaveAll([], before + Flatten(batches)), POLL_COUNT);
            r.Some? && r.value.delta == Some(Wrap(DeltaSum(before, POLL_COUNT) + Sum(AppliedRevs(s.deliveries))))
  {
    hide DataOk, DeliveriesOk, SaveAll, Lookup, Wrap, DeltaSum, Mentions, Flatten, Sum, AppliedRevs, Received, AllValid;
    CountsAreRevisions(s);
    ReceivedSum(batches, s.deliveries);
    if batches != [] { ReceivedMentions(batches, s.deliveries); }
    CounterOf(before, Flatten(batches));
  }

  lemma {:induction false} ReceivedMentions(batches: seq<seq<Metric>>, ds: seq<Delivery>)
    requires Received(batches, ds) && batches != []
    ensures Mentions(Flatten(batches), POLL_COUNT)
    decreases |ds|
  {
    if ds[|ds| - 1].applied {
      var front, last := Flatten(batches[..|batches| - 1]), batches[|batches| - 1];
      var i :| 0 <= i < |last| && Key(last[i]) == POLL_COUNT;
      assert Key((front + last)[|front| + i]) == POLL_COUNT;
    } else {
      ReceivedMentions(batches, ds[..|ds| - 1]);
    }
  }

  lemma CounterOf(before: seq<Metric>, more: seq<Metric>)
    requires AllValid(before) && AllValid(more)
    requires Mentions(before, POLL_COUNT) || Mentions(more, POLL_COUNT)
    ensures var r := Lookup(SaveAll([], before + more), POLL_COUNT);
            r.Some? && r.value.delta == Some(Wrap(DeltaSum(before, POLL_COUNT) + DeltaSum(more, POLL_COUNT)))
  {
    var all := before + more;
    MentionsConcat(before, more, POLL_COUNT);
    assert AllValid(all);
    hide SaveAll, Lookup, Wrap, DeltaSum, Mentions, AllValid;
    DeltaSumConcat(before, more, POLL_COUNT);
    HistoryMeaning(all, POLL_COUNT);
  }
}

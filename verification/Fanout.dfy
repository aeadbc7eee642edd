/** internal/audit/audit.go: Manager.Publish, which hands every observer to one of at most four
    goroutines and collects their errors, for any number of observers and any schedule. */
module Fanout {
  import opened Metrics
  import opened WorkerPool

  /** What one observer's Notify returned; None is nil. */
  datatype Report = Report(observer: nat, error: Option<string>)

  datatype Phase = Handing | Waiting | Returned(errors: seq<string>)

  /** The jobs channel with its goroutines, how many observers are handed out, and errCh. */
  datatype State = State(n: nat, pool: Pool<nat>, next: nat, errCh: seq<Report>, phase: Phase)

  datatype Step =
    | Hand
    | CloseJobs
    | Receive(w: nat)
    | Notify(w: nat, result: Option<string>)
    | Leave(w: nat)
    | Join

  function Min(a: nat, b: nat): nat {
    if a < b then a else b
  }

  function Initial(n: nat): State {
    State(n, Started(n, Min(n, 4)), 0, [], Handing)
  }

  function NonNil(rs: seq<Report>): seq<string>
    decreases |rs|
  {
    if rs == [] then []
    else NonNil(rs[..|rs| - 1]) + if rs[|rs| - 1].error.Some? then [rs[|rs| - 1].error.value] else []
  }

  function Observers(rs: seq<Report>): (r: seq<nat>)
    ensures |r| == |rs|
  {
    seq(|rs|, k requires 0 <= k < |rs| => rs[k].observer)
  }

  /** Sends need room in the channel; wg.Wait needs every goroutine to have ended. */
  predicate CanStep(s: State, e: Step) {
    match e
    case Hand => s.phase.Handing? && s.next < s.n && Enabled(s.pool, AddTask(s.next))
    case CloseJobs => s.phase.Handing? && s.next == s.n && Enabled(s.pool, Close)
    case Receive(w) => Enabled(s.pool, Take(w))
    case Notify(w, _) => Enabled(s.pool, Finish(w)) && |s.errCh| < s.n
    case Leave(w) => Enabled(s.pool, Exit(w))
    case Join => s.phase.Waiting? && forall w :: 0 <= w < |s.pool.workers| ==> s.pool.workers[w].Exited?
  }

  function After(s: State, e: Step): State
    requires CanStep(s, e)
  {
    match e
    case Hand => s.(pool := Next(s.pool, AddTask(s.next)), next := s.next + 1)
    case CloseJobs => s.(pool := Next(s.pool, Close), phase := Waiting)
    case Receive(w) => s.(pool := Next(s.pool, Take(w)))
    case Notify(w, result) =>
      s.(pool := Next(s.pool, Finish(w)), errCh := s.errCh + [Report(s.pool.workers[w].task, result)])
    case Leave(w) => s.(pool := Next(s.pool, Exit(w)))
    case Join => s.(phase := Returned(NonNil(s.errCh)))
  }

  function Numbers(n: nat): (r: seq<nat>)
    ensures |r| == n
  {
    seq(n, k => k)
  }

  ghost predicate Inv(s: State) {
    && PoolInv(s.pool) && s.pool.capacity == s.n && |s.pool.workers| == Min(s.n, 4)
    && s.next <= s.n && s.pool.accepted == Numbers(s.next)
    && Observers(s.errCh) == s.pool.finished
    && (s.phase.Handing? <==> !s.pool.closed)
    && (!s.phase.Handing? ==> s.next == s.n)
    && (s.phase.Returned? ==> AllExited(s.pool) && s.phase.errors == NonNil(s.errCh))
  }

  lemma InitialInv(n: nat)
    ensures Inv(Initial(n))
  {
    RunningSize(Initial(n).pool.workers);
    hide Running;
    assert Initial(n).pool.accepted == Initial(n).pool.started + Initial(n).pool.queue;
  }

  lemma StepKeepsInv(s: State, e: Step)
    requires Inv(s) && CanStep(s, e)
    ensures Inv(After(s, e))
  {
    hide PoolInv;
    match e {
      case Hand => PoolStepKeepsInv(s.pool, AddTask(s.next));
      case CloseJobs => PoolStepKeepsInv(s.pool, Close);
      case Receive(w) => PoolStepKeepsInv(s.pool, Take(w));
      case Notify(w, _) => PoolStepKeepsInv(s.pool, Finish(w));
      case Leave(w) => PoolStepKeepsInv(s.pool, Exit(w));
      case Join =>
    }
  }

  lemma {:induction false} BusyIsRunning<T>(ws: seq<Worker<T>>, w: nat)
    requires w < |ws| && ws[w].Busy?
    ensures |Running(ws)| >= 1
  {
    if w > 0 { BusyIsRunning(ws[1..], w - 1); }
  }

  /** No send ever blocks: there is room for every job and for every report. */
  lemma NoSendBlocks(s: State)
    requires Inv(s)
    ensures s.phase.Handing? && s.next < s.n ==> CanStep(s, Hand)
    ensures forall w, result :: 0 <= w < |s.pool.workers| && s.pool.workers[w].Busy? ==> CanStep(s, Notify(w, result))
  {
    hide PoolInv, Counted, Running;
    InvMeans(s.pool);
    Sizes(s.pool);
    assert |s.pool.accepted| == s.next && |s.errCh| == |s.pool.finished|;
    forall w, result: Option<string> | 0 <= w < |s.pool.workers| && s.pool.workers[w].Busy?
      ensures CanStep(s, Notify(w, result))
    {
      BusyIsRunning(s.pool.workers, w);
    }
  }

  lemma Sizes<T(!new)>(p: Pool<T>)
    requires PoolInv(p)
    ensures |p.finished| + |Running(p.workers)| + |p.queue| == |p.accepted|
  {
    InvMeans(p);
    assert |multiset(p.accepted)| == |p.accepted| && |multiset(p.finished)| == |p.finished|;
  }

  // ---- Whole runs ----

  ghost predicate IsRun(s: State, es: seq<Step>)
    decreases |es|
  {
    es == [] || (CanStep(s, es[0]) && IsRun(After(s, es[0]), es[1..]))
  }

  ghost function End(s: State, es: seq<Step>): State
    requires IsRun(s, es)
    decreases |es|
  {
    if es == [] then s else End(After(s, es[0]), es[1..])
  }

  lemma {:induction false} RunKeeps(s: State, es: seq<Step>)
    requires Inv(s) && IsRun(s, es)
    ensures Inv(End(s, es)) && End(s, es).n == s.n
    decreases |es|
  {
    if es != [] {
      StepKeepsInv(s, es[0]);
      RunKeeps(After(s, es[0]), es[1..]);
    }
  }

  /** At most four observers are being notified at once; there is a goroutine for each if they are
      fewer. */
  lemma AtMostFourAtOnce(n: nat, es: seq<Step>)
    requires IsRun(Initial(n), es)
    ensures var ws := End(Initial(n), es).pool.workers;
            |Running(ws)| <= |ws| && |ws| == if n < 4 then n else 4
  {
    InitialInv(n);
    RunKeeps(Initial(n), es);
    RunningSize(End(Initial(n), es).pool.workers);
  }

  /** What the calls of Notify in a run returned, each with the observer its goroutine had taken. */
  ghost function Notified(s: State, es: seq<Step>): seq<Report>
    requires IsRun(s, es)
    decreases |es|
  {
    if es == [] then []
    else
      var rest := Notified(After(s, es[0]), es[1..]);
      match es[0] case Notify(w, result) => [Report(s.pool.workers[w].task, result)] + rest case _ => rest
  }

  /** The errors among them. */
  function Failures(es: seq<Step>): seq<string> {
    if es == [] then []
    else (match es[0] case Notify(_, Some(error)) => [error] case _ => []) + Failures(es[1..])
  }

  lemma {:induction false} ReportsAreResults(s: State, es: seq<Step>)
    requires IsRun(s, es)
    ensures End(s, es).errCh == s.errCh + Notified(s, es)
    decreases |es|
  {
    hide CanStep, Enabled, Next;
    if es == [] {
      assert s.errCh + [] == s.errCh;
    } else {
      ReportsAreResults(After(s, es[0]), es[1..]);
      OneResult(s, es[0]);
      hide After;
      if es[0].Notify? {
        var r := [Report(s.pool.workers[es[0].w].task, es[0].result)];
        assert (s.errCh + r) + Notified(After(s, es[0]), es[1..]) == s.errCh + Notified(s, es);
      }
    }
  }

  lemma OneResult(s: State, e: Step)
    requires CanStep(s, e)
    ensures e.Notify? ==> e.w < |s.pool.workers| && s.pool.workers[e.w].Busy?
    ensures After(s, e).errCh == s.errCh + if e.Notify? then [Report(s.pool.workers[e.w].task, e.result)] else []
  {
    assert s.errCh + [] == s.errCh;
  }

  lemma {:induction false} FailuresAreErrors(s: State, es: seq<Step>)
    requires IsRun(s, es)
    ensures NonNil(Notified(s, es)) == Failures(es)
    decreases |es|
  {
    hide CanStep, After;
    if es != [] {
      OneResult(s, es[0]);
      FailuresAreErrors(After(s, es[0]), es[1..]);
      if es[0].Notify? {
        var r := Report(s.pool.workers[es[0].w].task, es[0].result);
        NonNilFirst(r, Notified(After(s, es[0]), es[1..]));
      }
    }
  }

  lemma {:induction false} NonNilFirst(r: Report, rs: seq<Report>)
    ensures NonNil([r] + rs) == (if r.error.Some? then [r.error.value] else []) + NonNil(rs)
    decreases |rs|
  {
    if rs == [] {
      assert [r] + rs == [r] && [r][..0] == [];
    } else {
      assert ([r] + rs)[..|rs|] == [r] + rs[..|rs| - 1];
      NonNilFirst(r, rs[..|rs| - 1]);
    }
  }

  /** When Publish returns, every one of the n observers has been notified exactly once, by the
      goroutine that had taken it, and the joined errors are those the calls of Notify returned, each
      as often as it was returned. */
  lemma PublishNotifiesEachOnce(n: nat, es: seq<Step>)
    requires IsRun(Initial(n), es) && End(Initial(n), es).phase.Returned?
    ensures multiset(Observers(Notified(Initial(n), es))) == multiset(Numbers(n))
    ensures multiset(End(Initial(n), es).phase.errors) == multiset(Failures(es))
  {
    InitialInv(n);
    RunKeeps(Initial(n), es);
    var s := End(Initial(n), es);
    AllNotified(s);
    ReportsAreResults(Initial(n), es);
    FailuresAreErrors(Initial(n), es);
    assert [] + Notified(Initial(n), es) == Notified(Initial(n), es);
  }

  lemma AllNotified(s: State)
    requires Inv(s) && s.phase.Returned?
    ensures multiset(Observers(s.errCh)) == multiset(Numbers(s.n))
  {
    if s.n > 0 {
      InvMeans(s.pool);
    } else {
      Sizes(s.pool);
      assert s.pool.finished == [] == s.pool.accepted;
    }
  }

  // ---- Publish ends ----

  function Remaining(s: State): nat {
    4 * (if s.next < s.n then s.n - s.next else 0) + Measure(s.pool) +
    match s.phase case Handing => 2 case Waiting => 1 case Returned(_) => 0
  }

  lemma StepEndsSooner(s: State, e: Step)
    requires Inv(s) && CanStep(s, e)
    ensures Remaining(After(s, e)) < Remaining(s)
  {
    hide PoolInv;
    match e {
      case Receive(w) => WeightUpdate(s.pool.workers, w, Busy(s.pool.queue[0]));
      case Notify(w, _) => WeightUpdate(s.pool.workers, w, Idle);
      case Leave(w) => WeightUpdate(s.pool.workers, w, Exited);
      case _ =>
    }
  }

  /** Publish is never stuck, so with the measure it always returns. */
  lemma SomeStepExists(s: State) returns (e: Step)
    requires Inv(s) && !s.phase.Returned?
    ensures CanStep(s, e)
  {
    NoSendBlocks(s);
    if s.phase.Handing? {
      e := if s.next < s.n then Hand else CloseJobs;
    } else if AllExited(s.pool) {
      e := Join;
    } else {
      var w :| 0 <= w < |s.pool.workers| && !s.pool.workers[w].Exited?;
      e := if s.pool.workers[w].Busy? then Notify(w, None) else if s.pool.queue != [] then Receive(w) else Leave(w);
    }
  }
}

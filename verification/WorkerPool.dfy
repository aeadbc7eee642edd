/** internal/workerpool/workerpool.go: a bounded channel drained by a fixed number of goroutines,
    as a step relation over every schedule. */
module WorkerPool {

  datatype Worker<T> = Idle | Busy(task: T) | Exited

  /** The pool, with the tasks accepted, started and finished so far in order. */
  datatype Pool<T> = Pool(capacity: nat, queue: seq<T>, closed: bool, workers: seq<Worker<T>>,
                          accepted: seq<T>, started: seq<T>, finished: seq<T>)

  datatype Event<T> = AddTask(task: T) | Take(w: nat) | Finish(w: nat) | Exit(w: nat) | Close

  /** A channel of this capacity with this many goroutines started; NewPool and Start use the
      same number for both. */
  function Started<T>(capacity: nat, workers: nat): Pool<T> {
    Pool(capacity, [], false, seq(workers, _ => Idle), [], [], [])
  }

  /** When a step can happen. A send blocks while the channel is full; a receive blocks while it
      is empty and open, and ends the goroutine when it is empty and closed. */
  predicate Enabled<T>(p: Pool<T>, e: Event<T>) {
    match e
    case AddTask(_) => !p.closed && |p.queue| < p.capacity
    case Take(w) => w < |p.workers| && p.workers[w].Idle? && p.queue != []
    case Finish(w) => w < |p.workers| && p.workers[w].Busy?
    case Exit(w) => w < |p.workers| && p.workers[w].Idle? && p.queue == [] && p.closed
    case Close => !p.closed
  }

  function Next<T>(p: Pool<T>, e: Event<T>): Pool<T>
    requires Enabled(p, e)
  {
    match e
    case AddTask(t) => p.(queue := p.queue + [t], accepted := p.accepted + [t])
    case Take(w) =>
      p.(queue := p.queue[1..], workers := p.workers[w := Busy(p.queue[0])], started := p.started + [p.queue[0]])
    case Finish(w) =>
      p.(workers := p.workers[w := Idle], finished := p.finished + [p.workers[w].task])
    case Exit(w) => p.(workers := p.workers[w := Exited])
    case Close => p.(closed := true)
  }

  function Alone<T>(w: Worker<T>): multiset<T> {
    if w.Busy? then multiset{w.task} else multiset{}
  }

  function Running<T>(ws: seq<Worker<T>>): multiset<T> {
    if ws == [] then multiset{} else Alone(ws[0]) + Running(ws[1..])
  }

  lemma {:induction false} RunningUpdate<T(!new)>(ws: seq<Worker<T>>, w: nat, x: Worker<T>)
    requires w < |ws|
    ensures forall t :: Running(ws[w := x])[t] + Alone(ws[w])[t] == Running(ws)[t] + Alone(x)[t]
  {
    var ws' := ws[w := x];
    if w == 0 {
      assert ws'[1..] == ws[1..];
    } else {
      assert ws'[1..] == ws[1..][w - 1 := x];
      RunningUpdate(ws[1..], w - 1, x);
      assert Running(ws') == Alone(ws[0]) + Running(ws[1..][w - 1 := x]);
      assert Running(ws) == Alone(ws[0]) + Running(ws[1..]);
    }
  }

  lemma {:induction false} RunningSize<T>(ws: seq<Worker<T>>)
    ensures |Running(ws)| <= |ws|
    ensures (forall w :: 0 <= w < |ws| ==> !ws[w].Busy?) ==> Running(ws) == multiset{}
  {
    if ws != [] { RunningSize(ws[1..]); }
  }

  /** Every started task is finished or still running, as often as it was started. */
  ghost predicate Counted<T(!new)>(p: Pool<T>) {
    forall t :: multiset(p.started)[t] == multiset(p.finished)[t] + Running(p.workers)[t]
  }

  ghost predicate PoolInv<T(!new)>(p: Pool<T>) {
    && |p.queue| <= p.capacity
    && p.accepted == p.started + p.queue
    && Counted(p)
    && ((exists w :: 0 <= w < |p.workers| && p.workers[w].Exited?) ==> p.closed && p.queue == [])
  }

  lemma CountAppend<T(!new)>(ts: seq<T>, t: T)
    ensures forall u :: multiset(ts + [t])[u] == multiset(ts)[u] + multiset{t}[u]
  {
  }

  lemma PoolStepKeepsInv<T(!new)>(p: Pool<T>, e: Event<T>)
    requires PoolInv(p) && Enabled(p, e)
    ensures PoolInv(Next(p, e))
    ensures Next(p, e).capacity == p.capacity && |Next(p, e).workers| == |p.workers|
    ensures p.closed ==> Next(p, e).closed && Next(p, e).accepted == p.accepted
  {
    StepKeepsCounts(p, e);
    hide Counted;
    var q := Next(p, e);
    match e {
      case AddTask(t) => assert q.accepted == q.started + q.queue;
      case Take(w) => assert q.accepted == q.started + q.queue;
      case _ =>
    }
  }

  lemma StepKeepsCounts<T(!new)>(p: Pool<T>, e: Event<T>)
    requires Enabled(p, e)
    requires Counted(p)
    ensures Counted(Next(p, e))
  {
    hide Running, Counted;
    var q := Next(p, e);
    match e {
      case Take(w) => StartCounted(p, q, w, p.queue[0]);
      case Finish(w) => FinishCounted(p, q, w, p.workers[w].task);
      case Exit(w) => ExitCounted(p, q, w);
      case AddTask(_) => SameCounted(p, q);
      case Close => SameCounted(p, q);
    }
  }

  lemma SameCounted<T(!new)>(p: Pool<T>, q: Pool<T>)
    requires Counted(p) && q.workers == p.workers && q.started == p.started && q.finished == p.finished
    ensures Counted(q)
  {
  }

  lemma StartCounted<T(!new)>(p: Pool<T>, q: Pool<T>, w: nat, t: T)
    requires Counted(p) && w < |p.workers| && p.workers[w].Idle?
    requires q.workers == p.workers[w := Busy(t)] && q.started == p.started + [t] && q.finished == p.finished
    ensures Counted(q)
  {
    hide Running;
    RunningUpdate(p.workers, w, Busy(t));
    CountAppend(p.started, t);
  }

  lemma FinishCounted<T(!new)>(p: Pool<T>, q: Pool<T>, w: nat, t: T)
    requires Counted(p) && w < |p.workers| && p.workers[w] == Busy(t)
    requires q.workers == p.workers[w := Idle] && q.started == p.started && q.finished == p.finished + [t]
    ensures Counted(q)
  {
    hide Running;
    RunningUpdate(p.workers, w, Idle);
    CountAppend(p.finished, t);
  }

  lemma ExitCounted<T(!new)>(p: Pool<T>, q: Pool<T>, w: nat)
    requires Counted(p) && w < |p.workers| && p.workers[w].Idle?
    requires q.workers == p.workers[w := Exited] && q.started == p.started && q.finished == p.finished
    ensures Counted(q)
  {
    hide Running;
    RunningUpdate(p.workers, w, Exited);
  }

  // ---- Whole runs ----

  ghost predicate IsSchedule<T>(p: Pool<T>, es: seq<Event<T>>)
    decreases |es|
  {
    es == [] || (Enabled(p, es[0]) && IsSchedule(Next(p, es[0]), es[1..]))
  }

  ghost function PoolAfter<T>(p: Pool<T>, es: seq<Event<T>>): Pool<T>
    requires IsSchedule(p, es)
    decreases |es|
  {
    if es == [] then p else PoolAfter(Next(p, es[0]), es[1..])
  }

  lemma {:induction false} RunKeepsInv<T(!new)>(p: Pool<T>, es: seq<Event<T>>)
    requires PoolInv(p) && IsSchedule(p, es)
    ensures var q := PoolAfter(p, es);
            PoolInv(q) && q.capacity == p.capacity && |q.workers| == |p.workers|
    decreases |es|
  {
    if es != [] {
      PoolStepKeepsInv(p, es[0]);
      RunKeepsInv(Next(p, es[0]), es[1..]);
    }
  }

  /** What Wait waits for. */
  ghost predicate AllExited<T>(p: Pool<T>) {
    forall w :: 0 <= w < |p.workers| ==> p.workers[w].Exited?
  }

  /** Over every schedule of a pool with n workers: no more than n tasks run at once or are
      queued, tasks start in the order in which they were accepted, and no task is started or
      finished twice. Once all workers have exited, every accepted task ran to its end. */
  lemma PoolRuns<T(!new)>(n: nat, es: seq<Event<T>>)
    requires n > 0 && IsSchedule(Started<T>(n, n), es)
    ensures var q := PoolAfter(Started<T>(n, n), es);
            && |Running(q.workers)| <= n && |q.queue| <= n
            && q.started <= q.accepted
            && multiset(q.finished) + Running(q.workers) + multiset(q.queue) == multiset(q.accepted)
            && (AllExited(q) ==> q.started == q.accepted && multiset(q.finished) == multiset(q.accepted))
  {
    var p := Started<T>(n, n);
    RunningSize(p.workers);
    RunKeepsInv(p, es);
    InvMeans(PoolAfter(p, es));
  }

  lemma InvMeans<T(!new)>(q: Pool<T>)
    requires PoolInv(q)
    ensures |Running(q.workers)| <= |q.workers| && |q.queue| <= q.capacity
    ensures q.started <= q.accepted
    ensures multiset(q.finished) + Running(q.workers) + multiset(q.queue) == multiset(q.accepted)
    ensures |q.workers| > 0 && AllExited(q) ==>
              q.started == q.accepted && multiset(q.finished) == multiset(q.accepted)
  {
    RunningSize(q.workers);
    CountedMeans(q);
    hide Counted, Running;
    assert q.started <= q.accepted;
    assert multiset(q.accepted) == multiset(q.started) + multiset(q.queue);
    if |q.workers| > 0 && AllExited(q) {
      assert q.workers[0].Exited?;
      assert q.started + [] == q.started;
      assert q.accepted == q.started;
      assert Running(q.workers) == multiset{};
    }
  }

  lemma CountedMeans<T(!new)>(q: Pool<T>)
    requires Counted(q)
    ensures multiset(q.started) == multiset(q.finished) + Running(q.workers)
  {
  }

  // ---- Termination after Close ----

  function Weight<T>(ws: seq<Worker<T>>): nat {
    if ws == [] then 0
    else (match ws[0] case Idle => 1 case Busy(_) => 2 case Exited => 0) + Weight(ws[1..])
  }

  function Measure<T>(p: Pool<T>): nat {
    2 * |p.queue| + Weight(p.workers)
  }

  lemma {:induction false} WeightUpdate<T>(ws: seq<Worker<T>>, w: nat, x: Worker<T>)
    requires w < |ws|
    ensures Weight(ws[w := x]) + Weight([ws[w]]) == Weight(ws) + Weight([x])
  {
    if w == 0 {
      assert ws[0 := x][1..] == ws[1..];
    } else {
      assert ws[w := x][1..] == ws[1..][w - 1 := x];
      WeightUpdate(ws[1..], w - 1, x);
    }
  }

  /** After Close every step brings the end nearer. */
  lemma StepDecreases<T>(p: Pool<T>, e: Event<T>)
    requires p.closed && Enabled(p, e)
    ensures Measure(Next(p, e)) < Measure(p)
  {
    match e {
      case Take(w) => WeightUpdate(p.workers, w, Busy(p.queue[0]));
      case Finish(w) => WeightUpdate(p.workers, w, Idle);
      case Exit(w) => WeightUpdate(p.workers, w, Exited);
      case _ =>
    }
  }

  /** After Close some worker can always move until all have exited, so with the measure every
      fair schedule lets Wait return. */
  lemma StepExists<T>(p: Pool<T>) returns (e: Event<T>)
    requires p.closed && !AllExited(p)
    ensures Enabled(p, e)
  {
    var w :| 0 <= w < |p.workers| && !p.workers[w].Exited?;
    e := if p.workers[w].Busy? then Finish(w) else if p.queue != [] then Take(w) else Exit(w);
  }
}

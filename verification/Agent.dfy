/** internal/agent/agent.go and grpc.go: collectors and senders that share one SafeMetrics on the
    worker pool, for any schedule and any behaviour of the network. */
module Agent {
  import opened Metrics
  import opened WorkerPool

  // ---- SafeMetrics ----

  /** What one poll reads; a failed memory or CPU reading is None. */
  datatype Reading = Reading(memStats: int, random: Float64, memory: Option<(int, int)>, cpu: Option<seq<Float64>>)

  /** A Go slice of CPU figures: nil, or the first len elements of a backing array. */
  datatype Slice = NilSlice | Slice(backing: nat, len: nat)

  datatype AgentMetrics = AgentMetrics(pollCount: int64, memStats: int, random: Float64, total: int, free: int, cpu: Slice)

  /** The fields of SafeMetrics, and the backing arrays allocated so far. */
  datatype SafeMetrics = SafeMetrics(data: AgentMetrics, revision: nat, sentRevision: nat, arrays: seq<seq<Float64>>)

  /** A snapshot with its CPU figures read out. */
  datatype Snapshot = Snapshot(pollCount: int64, memStats: int, random: Float64, total: int, free: int, cpu: seq<Float64>)

  predicate ValidSlice(s: Slice, arrays: seq<seq<Float64>>) {
    s.Slice? ==> s.backing < |arrays| && s.len <= |arrays[s.backing]|
  }

  function ReadSlice(s: Slice, arrays: seq<seq<Float64>>): seq<Float64>
    requires ValidSlice(s, arrays)
  {
    if s.NilSlice? then [] else arrays[s.backing][..s.len]
  }

  function Contents(d: AgentMetrics, arrays: seq<seq<Float64>>): Snapshot
    requires ValidSlice(d.cpu, arrays)
  {
    Snapshot(d.pollCount, d.memStats, d.random, d.total, d.free, ReadSlice(d.cpu, arrays))
  }

  datatype Appended = Appended(slice: Slice, arrays: seq<seq<Float64>>)

  /** append(s[:0], xs...): overwrites the backing array when it is long enough, else moves to a
      new one with some spare room. */
  function AppendFromStart(s: Slice, xs: seq<Float64>, spare: seq<Float64>, arrays: seq<seq<Float64>>): (r: Appended)
    requires ValidSlice(s, arrays)
    ensures ValidSlice(r.slice, r.arrays) && ReadSlice(r.slice, r.arrays) == xs
    ensures |arrays| <= |r.arrays|
    ensures forall a :: 0 <= a < |arrays| && !(s.Slice? && s.backing == a) ==> r.arrays[a] == arrays[a]
    ensures r.slice.Slice? ==> r.slice.backing == |arrays| || (s.Slice? && r.slice.backing == s.backing)
    ensures s.Slice? ==> (r.slice.Slice? && r.slice.backing == s.backing <==> |xs| <= |arrays[s.backing]|)
  {
    if s.NilSlice? && xs == [] then Appended(NilSlice, arrays)
    else if s.Slice? && |xs| <= |arrays[s.backing]| then
      Appended(Slice(s.backing, |xs|), arrays[s.backing := xs + arrays[s.backing][|xs|..]])
    else
      assert (xs + spare)[..|xs|] == xs;
      Appended(Slice(|arrays|, |xs|), arrays + [xs + spare])
  }

  /** One poll. PollCount is an int64 and revision a uint64; both wrap. */
  function Collect(m: SafeMetrics, r: Reading, spare: seq<Float64>): SafeMetrics
    requires ValidSlice(m.data.cpu, m.arrays)
  {
    var d := m.data.(memStats := r.memStats, pollCount := Wrap(m.data.pollCount + 1), random := r.random,
                     total := if r.memory.Some? then r.memory.value.0 else m.data.total,
                     free := if r.memory.Some? then r.memory.value.1 else m.data.free);
    var revision := (m.revision + 1) % TWO_64;
    if r.cpu.None? then m.(data := d, revision := revision)
    else
      var a := AppendFromStart(m.data.cpu, r.cpu.value, spare, m.arrays);
      m.(data := d.(cpu := a.slice), revision := revision, arrays := a.arrays)
  }

  /** What one poll makes of the figures collected before it. */
  function Polled(s: Snapshot, r: Reading): Snapshot {
    Snapshot(Wrap(s.pollCount + 1), r.memStats, r.random,
             if r.memory.Some? then r.memory.value.0 else s.total,
             if r.memory.Some? then r.memory.value.1 else s.free,
             if r.cpu.Some? then r.cpu.value else s.cpu)
  }

  // ---- One task ----

  datatype Task = CollectTask | SendTask

  /** Where a sender stands: the send mutex is held from Locked to Unlocking. */
  datatype Pc =
    | Fresh
    | Locked
    | Snapped(snapshot: AgentMetrics, rev: nat)
    | Sending(snapshot: AgentMetrics, rev: nat, attempt: nat, copies: nat)
    | Acked(rev: nat, copies: nat)
    | Unlocking(ok: bool)
    | Ended(ok: bool)

  predicate Critical(pc: Pc) {
    !pc.Fresh? && !pc.Ended?
  }

  datatype Reply = Success | Retriable | Fatal

  const RETRIES := 3

  // ---- The agent ----

  datatype Who = Main | Worker(w: nat)

  datatype Phase = Loop | Adding(task: Task) | Waiting | Flushing | Returned(ok: bool)

  /** One delivery attempt: its revision and payload, the reply, and whether the server applied it. */
  datatype Delivery = Delivery(rev: nat, payload: Snapshot, reply: Reply, applied: bool)

  /** One finished send: its revision, result, and how often the server applied it. */
  datatype Send = Send(rev: nat, ok: bool, copies: nat)

  /** What a send returned, and the attempts made from locking the send mutex to unlocking it. */
  datatype Report = Report(who: Who, ok: bool, attempts: seq<Delivery>)

  datatype State = State(pool: Pool<Task>, pcs: seq<Pc>, phase: Phase, mainPc: Pc, shared: SafeMetrics,
                         holder: Option<Who>, history: seq<Snapshot>, deliveries: seq<Delivery>, sends: seq<Send>,
                         locked: nat, reports: seq<Report>)

  datatype Step =
    | Tick(task: Task)
    | Enqueue
    | Cancel
    | WaitDone
    | Return
    | TakeTask(w: nat)
    | FinishTask(w: nat)
    | ExitWorker(w: nat)
    | DoCollect(w: nat, reading: Reading, spare: seq<Float64>)
    | Acquire(who: Who)
    | TakeSnapshot(who: Who, spare: seq<Float64>)
    | Check(who: Who)
    | Attempt(who: Who, reply: Reply, applied: bool)
    | MarkSent(who: Who)
    | Release(who: Who)

  const NO_DATA := AgentMetrics(0, 0, Finite(0.0), 0, 0, NilSlice)

  function Initial(rateLimit: nat): State {
    State(Started(rateLimit, rateLimit), seq(rateLimit, _ => Fresh), Loop, Fresh, SafeMetrics(NO_DATA, 0, 0, []),
          None, [Contents(NO_DATA, [])], [], [], 0, [])
  }

  predicate Exists(s: State, who: Who) {
    who.Main? || who.w < |s.pcs|
  }

  function PcOf(s: State, who: Who): Pc
    requires Exists(s, who)
  {
    if who.Main? then s.mainPc else s.pcs[who.w]
  }

  function SetPc(s: State, who: Who, pc: Pc): State
    requires Exists(s, who)
  {
    if who.Main? then s.(mainPc := pc) else s.(pcs := s.pcs[who.w := pc])
  }

  /** who is executing a send: the main goroutine while flushing, a worker in a send task. */
  predicate InSend(s: State, who: Who) {
    && Exists(s, who)
    && if who.Main? then s.phase.Flushing?
       else who.w < |s.pool.workers| && s.pool.workers[who.w] == Busy(SendTask)
  }

  function Latest(history: seq<Snapshot>): Snapshot {
    if history == [] then Contents(NO_DATA, []) else history[|history| - 1]
  }

  predicate CanStep(s: State, e: Step) {
    match e
    case Tick(_) => s.phase.Loop?
    case Enqueue => s.phase.Adding? && Enabled(s.pool, AddTask(s.phase.task))
    case Cancel => s.phase.Loop? && Enabled(s.pool, Close)
    case WaitDone => s.phase.Waiting? && forall w :: 0 <= w < |s.pool.workers| ==> s.pool.workers[w].Exited?
    case Return => s.phase.Flushing? && s.mainPc.Ended?
    case TakeTask(w) => w < |s.pcs| && Enabled(s.pool, Take(w))
    case FinishTask(w) => w < |s.pcs| && Enabled(s.pool, Finish(w)) && s.pcs[w].Ended?
    case ExitWorker(w) => w < |s.pcs| && Enabled(s.pool, Exit(w))
    case DoCollect(w, _, _) =>
      && w < |s.pcs| && w < |s.pool.workers| && s.pool.workers[w] == Busy(CollectTask) && s.pcs[w].Fresh?
      && ValidSlice(s.shared.data.cpu, s.shared.arrays)
    case Acquire(who) => InSend(s, who) && PcOf(s, who).Fresh? && s.holder.None?
    case TakeSnapshot(who, _) => InSend(s, who) && PcOf(s, who).Locked? && ValidSlice(s.shared.data.cpu, s.shared.arrays)
    case Check(who) => InSend(s, who) && PcOf(s, who).Snapped?
    case Attempt(who, reply, applied) =>
      && InSend(s, who) && PcOf(s, who).Sending? && (reply.Success? ==> applied)
      && ValidSlice(PcOf(s, who).snapshot.cpu, s.shared.arrays)
    case MarkSent(who) => InSend(s, who) && PcOf(s, who).Acked?
    case Release(who) => InSend(s, who) && PcOf(s, who).Unlocking? && s.locked <= |s.deliveries|
  }

  /** One delivery attempt of the retry loop; the payload is read when the request is built. */
  function AfterAttempt(s: State, who: Who, reply: Reply, applied: bool): State
    requires CanStep(s, Attempt(who, reply, applied))
  {
    var pc := PcOf(s, who);
    var d := Delivery(pc.rev, Contents(pc.snapshot, s.shared.arrays), reply, applied);
    var s' := s.(deliveries := s.deliveries + [d]);
    var copies := pc.copies + if applied then 1 else 0;
    if reply.Success? then SetPc(s', who, Acked(pc.rev, copies)).(sends := s.sends + [Send(pc.rev, true, copies)])
    else if reply.Fatal? || pc.attempt == RETRIES then
      SetPc(s', who, Unlocking(false)).(sends := s.sends + [Send(pc.rev, false, copies)])
    else SetPc(s', who, Sending(pc.snapshot, pc.rev, pc.attempt + 1, copies))
  }

  function After(s: State, e: Step): State
    requires CanStep(s, e)
  {
    match e
    case Tick(task) => s.(phase := Adding(task))
    case Enqueue => s.(phase := Loop, pool := Next(s.pool, AddTask(s.phase.task)))
    case Cancel => s.(phase := Waiting, pool := Next(s.pool, Close))
    case WaitDone => s.(phase := Flushing)
    case Return => s.(phase := Returned(s.mainPc.ok))
    case TakeTask(w) => s.(pool := Next(s.pool, Take(w)), pcs := s.pcs[w := Fresh])
    case FinishTask(w) => s.(pool := Next(s.pool, Finish(w)), pcs := s.pcs[w := Fresh])
    case ExitWorker(w) => s.(pool := Next(s.pool, Exit(w)))
    case DoCollect(w, reading, spare) =>
      var m := Collect(s.shared, reading, spare);
      s.(shared := m, pcs := s.pcs[w := Ended(true)],
         history := s.history + [Polled(Latest(s.history), reading)])
    case Acquire(who) => SetPc(s, who, Locked).(holder := Some(who), locked := |s.deliveries|)
    case TakeSnapshot(who, spare) =>
      var a := AppendFromStart(NilSlice, ReadSlice(s.shared.data.cpu, s.shared.arrays), spare, s.shared.arrays);
      SetPc(s, who, Snapped(s.shared.data.(cpu := a.slice), s.shared.revision)).(shared := s.shared.(arrays := a.arrays))
    case Check(who) =>
      var pc := PcOf(s, who);
      SetPc(s, who, if pc.rev > s.shared.sentRevision then Sending(pc.snapshot, pc.rev, 0, 0) else Unlocking(true))
    case Attempt(who, reply, applied) => AfterAttempt(s, who, reply, applied)
    case MarkSent(who) =>
      var rev := PcOf(s, who).rev;
      SetPc(s, who, Unlocking(true)).(shared :=
        if rev > s.shared.sentRevision then s.shared.(sentRevision := rev) else s.shared)
    case Release(who) =>
      var ok := PcOf(s, who).ok;
      SetPc(s, who, Ended(ok)).(holder := None, reports := s.reports + [Report(who, ok, s.deliveries[s.locked..])])
  }
}

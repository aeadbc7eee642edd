/** What every run of the agent keeps: mutual exclusion of senders, exact payloads, increasing
    revisions, and a final flush that misses nothing. */
module AgentSafety {
  import opened Metrics
  import opened WorkerPool
  import opened Agent

  // ---- The invariant, part by part ----

  ghost predicate PoolOk(s: State) {
    |s.pcs| == |s.pool.workers| == s.pool.capacity && PoolInv(s.pool)
  }

  ghost predicate PhaseOk(s: State) {
    && (s.phase.Loop? || s.phase.Adding? <==> !s.pool.closed)
    && (s.phase.Flushing? || s.phase.Returned? ==> AllExited(s.pool))
  }

  /** Only a worker with a task, and main while flushing, is inside one. */
  ghost predicate ShapeOk(s: State) {
    && |s.pcs| == |s.pool.workers|
    && (forall w :: 0 <= w < |s.pcs| ==>
          && (!s.pool.workers[w].Busy? ==> s.pcs[w].Fresh?)
          && (s.pool.workers[w] == Busy(CollectTask) ==> s.pcs[w].Fresh? || s.pcs[w].Ended?))
    && (!(s.phase.Flushing? || s.phase.Returned?) ==> s.mainPc.Fresh?)
    && (s.phase.Returned? ==> s.mainPc.Ended?)
  }

  /** The send mutex excludes: whoever is inside a send is the holder. */
  ghost predicate MutexOk(s: State) {
    && (s.holder.Some? ==> Exists(s, s.holder.value) && Critical(PcOf(s, s.holder.value)))
    && (forall who :: Exists(s, who) && Critical(PcOf(s, who)) ==> s.holder == Some(who))
  }

  /** The shared figures are those of the last poll, counted exactly. */
  ghost predicate DataOk(s: State) {
    && s.history != [] && s.shared.revision == |s.history| - 1
    && s.shared.sentRevision <= s.shared.revision
    && ValidSlice(s.shared.data.cpu, s.shared.arrays)
    && Contents(s.shared.data, s.shared.arrays) == Latest(s.history)
    && (forall r :: 0 <= r < |s.history| ==> s.history[r].pollCount == r)
  }

  /** A snapshot keeps the figures of its revision: its CPU array is not the one polls write to. */
  ghost predicate SnapshotOk(s: State, snap: AgentMetrics, rev: nat) {
    && rev < |s.history|
    && ValidSlice(snap.cpu, s.shared.arrays)
    && Contents(snap, s.shared.arrays) == s.history[rev]
    && (snap.cpu.Slice? && s.shared.data.cpu.Slice? ==> snap.cpu.backing != s.shared.data.cpu.backing)
  }

  ghost predicate SenderOk(s: State, pc: Pc) {
    match pc
    case Snapped(snap, rev) => SnapshotOk(s, snap, rev)
    case Sending(snap, rev, attempt, copies) =>
      SnapshotOk(s, snap, rev) && rev > s.shared.sentRevision && attempt <= RETRIES && copies <= attempt
    case Acked(rev, copies) => s.shared.sentRevision < rev < |s.history| && 1 <= copies <= RETRIES + 1
    case _ => true
  }

  ghost predicate SendersOk(s: State) {
    forall who :: Exists(s, who) ==> SenderOk(s, PcOf(s, who))
  }

  /** The flush sends the last revision. */
  ghost predicate FlushOk(s: State) {
    s.phase.Flushing? || s.phase.Returned? ==>
      match s.mainPc
      case Snapped(_, rev) => rev == s.shared.revision
      case Sending(_, rev, _, _) => rev == s.shared.revision
      case Acked(rev, _) => rev == s.shared.revision
      case Unlocking(ok) => ok <==> s.shared.sentRevision == s.shared.revision
      case Ended(ok) => (ok <==> s.shared.sentRevision == s.shared.revision) && (s.phase.Returned? ==> s.phase.ok == ok)
      case _ => true
  }

  /** Everything delivered, acknowledged or not, is exactly what was collected. */
  ghost predicate DeliveriesOk(s: State) {
    forall k :: 0 <= k < |s.deliveries| ==>
      && s.deliveries[k].rev < |s.history|
      && s.deliveries[k].payload == s.history[s.deliveries[k].rev]
      && (s.deliveries[k].reply.Success? ==> s.deliveries[k].applied)
  }

  /** The revisions acknowledged, in order. */
  function AckedRevs(ds: seq<Delivery>): seq<nat>
    decreases |ds|
  {
    if ds == [] then []
    else AckedRevs(ds[..|ds| - 1]) + if ds[|ds| - 1].reply.Success? then [ds[|ds| - 1].rev] else []
  }

  ghost predicate Increasing(rs: seq<nat>) {
    && (forall k :: 0 <= k < |rs| ==> rs[k] > 0)
    && (forall j, k :: 0 <= j < k < |rs| ==> rs[j] < rs[k])
  }

  function LastOf(rs: seq<nat>): nat {
    if rs == [] then 0 else rs[|rs| - 1]
  }

  /** The last revision acknowledged is marked as sent, or its sender is about to mark it. */
  ghost predicate AckedOk(s: State) {
    Increasing(AckedRevs(s.deliveries)) && LastOf(AckedRevs(s.deliveries)) == Settled(s)
  }

  function Settled(s: State): nat {
    if s.holder.Some? && Exists(s, s.holder.value) && PcOf(s, s.holder.value).Acked?
    then PcOf(s, s.holder.value).rev else s.shared.sentRevision
  }

  /** All that a send tried: again only after a reply worth a retry, at most four times, and it
      succeeds exactly when the last attempt did or none was made. */
  ghost predicate Told(ok: bool, ds: seq<Delivery>) {
    && |ds| <= RETRIES + 1
    && (forall k :: 0 <= k < |ds| - 1 ==> ds[k].reply.Retriable?)
    && (ok <==> ds == [] || ds[|ds| - 1].reply.Success?)
    && (!ok ==> ds[|ds| - 1].reply.Fatal? || |ds| == RETRIES + 1)
  }

  /** What the holder of the send mutex has tried so far. */
  ghost predicate TriedOk(pc: Pc, ds: seq<Delivery>) {
    match pc
    case Locked => ds == []
    case Snapped(_, _) => ds == []
    case Sending(_, _, attempt, _) => |ds| == attempt <= RETRIES && forall k :: 0 <= k < |ds| ==> ds[k].reply.Retriable?
    case Acked(_, _) => ds != [] && Told(true, ds)
    case Unlocking(ok) => Told(ok, ds)
    case _ => true
  }

  ghost predicate ReportsOk(s: State) {
    && s.locked <= |s.deliveries|
    && (forall who :: Exists(s, who) && Critical(PcOf(s, who)) ==> TriedOk(PcOf(s, who), s.deliveries[s.locked..]))
    && (forall k :: 0 <= k < |s.reports| ==> Told(s.reports[k].ok, s.reports[k].attempts))
    && ((s.phase.Flushing? || s.phase.Returned?) && s.mainPc.Ended? ==>
          s.reports != [] && Last(s.reports).who == Main && Last(s.reports).ok == s.mainPc.ok)
  }

  function Last(rs: seq<Report>): Report
    requires rs != []
  {
    rs[|rs| - 1]
  }

  ghost predicate Inv(s: State) {
    && PoolOk(s) && PhaseOk(s) && ShapeOk(s) && MutexOk(s)
    && DataOk(s) && SendersOk(s) && FlushOk(s) && DeliveriesOk(s) && AckedOk(s) && ReportsOk(s)
  }

  // ---- Every step keeps it ----

  lemma StepKeepsPool(s: State, e: Step)
    requires PoolOk(s) && CanStep(s, e)
    ensures PoolOk(After(s, e))
  {
    hide PoolInv;
    match e {
      case Enqueue => PoolStepKeepsInv(s.pool, AddTask(s.phase.task));
      case Cancel => PoolStepKeepsInv(s.pool, Close);
      case TakeTask(w) => PoolStepKeepsInv(s.pool, Take(w));
      case FinishTask(w) => PoolStepKeepsInv(s.pool, Finish(w));
      case ExitWorker(w) => PoolStepKeepsInv(s.pool, WorkerPool.Exit(w));
      case _ =>
    }
  }

  lemma StepKeepsPhase(s: State, e: Step)
    requires PoolOk(s) && PhaseOk(s) && CanStep(s, e)
    ensures PhaseOk(After(s, e))
  {
    hide PoolInv, Collect, AppendFromStart, Contents, ReadSlice, ValidSlice, Latest, Polled;
  }

  lemma StepKeepsShape(s: State, e: Step)
    requires PoolOk(s) && ShapeOk(s) && CanStep(s, e)
    ensures ShapeOk(After(s, e))
  {
    hide PoolInv, Collect, AppendFromStart, Contents, ReadSlice, ValidSlice, Latest, Polled;
  }

  lemma StepKeepsMutex(s: State, e: Step)
    requires ShapeOk(s) && MutexOk(s) && CanStep(s, e)
    ensures MutexOk(After(s, e))
  {
    if After(s, e).holder.Some? { HolderIsCritical(s, e); }
    forall who | Exists(After(s, e), who) && Critical(PcOf(After(s, e), who))
      ensures After(s, e).holder == Some(who)
    {
      CriticalIsHolder(s, e, who);
    }
    hide CanStep, After, ShapeOk;
  }

  lemma HolderIsCritical(s: State, e: Step)
    requires ShapeOk(s) && MutexOk(s) && CanStep(s, e) && After(s, e).holder.Some?
    ensures Exists(After(s, e), After(s, e).holder.value)
    ensures Critical(PcOf(After(s, e), After(s, e).holder.value))
  {
    HolderMoves(s, e);
    hide CanStep, After, ShapeOk;
    var who := After(s, e).holder.value;
    if Moves(e, who) { OwnMoveIsCritical(s, e, who); } else { OthersAreQuiet(s, e, who); }
  }

  lemma HolderMoves(s: State, e: Step)
    requires CanStep(s, e) && After(s, e).holder.Some?
    ensures var who := After(s, e).holder.value;
            && (Exists(s, who) ==> Exists(After(s, e), who))
            && (s.holder == Some(who) || Moves(e, who)) && !e.Release?
  {
    hide Collect, AppendFromStart, Contents, ReadSlice, ValidSlice, Latest, Polled, Next, Enabled;
  }

  lemma OwnMoveIsCritical(s: State, e: Step, who: Who)
    requires CanStep(s, e) && Moves(e, who) && !e.Release?
    ensures Exists(After(s, e), who) && Critical(PcOf(After(s, e), who))
  {
    hide Collect, AppendFromStart, Contents, ReadSlice, ValidSlice, Latest, Polled, Next, Enabled;
  }

  lemma CriticalIsHolder(s: State, e: Step, who: Who)
    requires ShapeOk(s) && MutexOk(s) && CanStep(s, e) && Exists(After(s, e), who) && Critical(PcOf(After(s, e), who))
    ensures After(s, e).holder == Some(who)
  {
    hide Collect, AppendFromStart, Contents, ReadSlice, ValidSlice, Latest, Polled, Next;
  }

  lemma StepKeepsData(s: State, e: Step)
    requires DataOk(s) && SendersOk(s) && CanStep(s, e) && |After(s, e).history| <= TWO_63
    ensures DataOk(After(s, e))
  {
    hide CanStep, After, DataOk, SendersOk;
    match e {
      case DoCollect(_, _, _) => CollectKeepsData(s, e);
      case TakeSnapshot(_, _) => SnapshotKeepsData(s, e);
      case _ => QuietStepKeepsData(s, e);
    }
  }

  lemma CollectKeepsData(s: State, e: Step)
    requires DataOk(s) && CanStep(s, e) && |After(s, e).history| <= TWO_63 && e.DoCollect?
    ensures DataOk(After(s, e))
  {
    hide Next, Enabled;
  }

  lemma SnapshotKeepsData(s: State, e: Step)
    requires DataOk(s) && CanStep(s, e) && e.TakeSnapshot?
    ensures DataOk(After(s, e))
  {
    hide Next, Enabled, Collect;
  }

  lemma QuietStepKeepsData(s: State, e: Step)
    requires DataOk(s) && SendersOk(s) && CanStep(s, e) && !e.DoCollect? && !e.TakeSnapshot?
    ensures DataOk(After(s, e))
  {
    hide Next, Enabled, SnapshotOk, Collect, AppendFromStart, Contents, ReadSlice, ValidSlice;
  }

  /** Backing arrays other than the one polls write to never change. */
  lemma StepKeepsSnapshots(s: State, e: Step, snap: AgentMetrics, rev: nat)
    requires DataOk(s) && CanStep(s, e) && SnapshotOk(s, snap, rev)
    ensures SnapshotOk(After(s, e), snap, rev)
  {
    hide Next, Enabled, InSend;
  }

  /** At most one goroutine is in a send, so only its own steps change sentRevision. */
  lemma StepKeepsSenders(s: State, e: Step)
    requires ShapeOk(s) && MutexOk(s) && DataOk(s) && SendersOk(s) && CanStep(s, e)
    ensures SendersOk(After(s, e))
  {
    var t := After(s, e);
    forall who | Exists(t, who)
      ensures SenderOk(t, PcOf(t, who))
    {
      OneSenderStep(s, e, who);
    }
  }

  lemma OneSenderStep(s: State, e: Step, who: Who)
    requires ShapeOk(s) && MutexOk(s) && DataOk(s) && SendersOk(s) && CanStep(s, e)
    requires Exists(After(s, e), who)
    ensures SenderOk(After(s, e), PcOf(After(s, e), who))
  {
    assert Exists(s, who) && SenderOk(s, PcOf(s, who));
    if Moves(e, who) { OwnStep(s, e, who); } else { OthersStep(s, e, who); }
  }

  /** e is a step of who inside a send. */
  predicate Moves(e: Step, who: Who) {
    match e
    case Acquire(me) => me == who
    case TakeSnapshot(me, _) => me == who
    case Check(me) => me == who
    case Attempt(me, _, _) => me == who
    case MarkSent(me) => me == who
    case Release(me) => me == who
    case _ => false
  }

  lemma OwnStep(s: State, e: Step, who: Who)
    requires DataOk(s) && Exists(s, who) && SenderOk(s, PcOf(s, who)) && CanStep(s, e) && Moves(e, who)
    ensures SenderOk(After(s, e), PcOf(After(s, e), who))
  {
    match PcOf(s, who) {
      case Snapped(snap, rev) => StepKeepsSnapshots(s, e, snap, rev);
      case Sending(snap, rev, _, _) => StepKeepsSnapshots(s, e, snap, rev);
      case _ =>
    }
  }

  lemma OthersStep(s: State, e: Step, who: Who)
    requires ShapeOk(s) && MutexOk(s) && DataOk(s) && Exists(s, who) && SenderOk(s, PcOf(s, who))
    requires CanStep(s, e) && !Moves(e, who) && Exists(After(s, e), who)
    ensures SenderOk(After(s, e), PcOf(After(s, e), who))
  {
    hide CanStep, After, ShapeOk, MutexOk, DataOk, SnapshotOk;
    OthersAreQuiet(s, e, who);
    match PcOf(s, who) {
      case Snapped(snap, rev) => StepKeepsSnapshots(s, e, snap, rev);
      case Sending(snap, rev, _, _) => StepKeepsSnapshots(s, e, snap, rev);
      case _ =>
    }
  }

  lemma OthersAreQuiet(s: State, e: Step, who: Who)
    requires ShapeOk(s) && MutexOk(s) && Exists(s, who) && CanStep(s, e) && !Moves(e, who) && Exists(After(s, e), who)
    ensures |s.history| <= |After(s, e).history|
    ensures Critical(PcOf(s, who)) ==>
              PcOf(After(s, e), who) == PcOf(s, who) && After(s, e).shared.sentRevision == s.shared.sentRevision
    ensures !Critical(PcOf(s, who)) ==> !Critical(PcOf(After(s, e), who))
  {
    hide AppendFromStart, Contents, ReadSlice, ValidSlice, Polled, Latest, Next;
  }

  lemma StepKeepsFlush(s: State, e: Step)
    requires PhaseOk(s) && ShapeOk(s) && MutexOk(s) && DataOk(s) && SendersOk(s) && FlushOk(s) && CanStep(s, e)
    ensures FlushOk(After(s, e))
  {
    hide Contents, ReadSlice, ValidSlice, Latest, Polled, AppendFromStart;
  }

  /** What an attempt adds to the deliveries: the snapshot of a revision not sent before. */
  lemma AttemptEffect(s: State, e: Step) returns (d: Delivery)
    requires DataOk(s) && MutexOk(s) && SendersOk(s) && CanStep(s, e) && e.Attempt?
    ensures After(s, e).deliveries == s.deliveries + [d] && After(s, e).history == s.history
    ensures d.rev < |s.history| && d.payload == s.history[d.rev] && (d.reply.Success? ==> d.applied)
    ensures Settled(s) < d.rev && Settled(After(s, e)) == if d.reply.Success? then d.rev else Settled(s)
  {
    hide Contents, ReadSlice, ValidSlice, Next, Enabled;
    var pc := PcOf(s, e.who);
    assert SenderOk(s, pc) && s.holder == Some(e.who);
    d := Delivery(pc.rev, Contents(pc.snapshot, s.shared.arrays), e.reply, e.applied);
  }

  lemma QuietOnDeliveries(s: State, e: Step)
    requires CanStep(s, e) && !e.Attempt?
    ensures After(s, e).deliveries == s.deliveries && s.history <= After(s, e).history
  {
    hide Contents, ReadSlice, ValidSlice, Collect, AppendFromStart, Next, Enabled, InSend, Polled, Latest;
  }

  lemma QuietOnAcks(s: State, e: Step)
    requires ShapeOk(s) && MutexOk(s) && SendersOk(s) && CanStep(s, e) && !e.Attempt?
    ensures Settled(After(s, e)) == Settled(s)
  {
    hide Contents, ReadSlice, ValidSlice, AppendFromStart, SnapshotOk, Next, Polled, Latest;
    if e.MarkSent? { assert SenderOk(s, PcOf(s, e.who)); }
  }

  lemma StepKeepsDeliveries(s: State, e: Step)
    requires DataOk(s) && MutexOk(s) && SendersOk(s) && DeliveriesOk(s) && CanStep(s, e)
    ensures DeliveriesOk(After(s, e))
  {
    hide CanStep, After, DataOk, MutexOk, SendersOk, Settled;
    if e.Attempt? { var d := AttemptEffect(s, e); } else { QuietOnDeliveries(s, e); }
  }

  lemma StepKeepsAcked(s: State, e: Step)
    requires ShapeOk(s) && MutexOk(s) && DataOk(s) && SendersOk(s) && AckedOk(s) && CanStep(s, e)
    ensures AckedOk(After(s, e))
  {
    hide CanStep, After, ShapeOk, MutexOk, DataOk, SendersOk, Settled, Increasing, AckedRevs, LastOf;
    if e.Attempt? {
      var d := AttemptEffect(s, e);
      AckedAppend(s.deliveries, d);
      if d.reply.Success? { IncreasingAppend(AckedRevs(s.deliveries), d.rev); }
    } else {
      QuietOnDeliveries(s, e);
      QuietOnAcks(s, e);
    }
  }

  lemma AckedAppend(ds: seq<Delivery>, d: Delivery)
    ensures AckedRevs(ds + [d]) == if d.reply.Success? then AckedRevs(ds) + [d.rev] else AckedRevs(ds)
  {
    assert (ds + [d])[..|ds|] == ds;
    assert AckedRevs(ds) + [] == AckedRevs(ds);
  }

  lemma IncreasingAppend(rs: seq<nat>, r: nat)
    requires Increasing(rs) && LastOf(rs) < r
    ensures Increasing(rs + [r]) && LastOf(rs + [r]) == r
  {
  }

  lemma TriedMore(ds: seq<Delivery>, from: nat, d: Delivery)
    requires from <= |ds|
    ensures (ds + [d])[from..] == ds[from..] + [d]
  {
  }

  lemma AttemptTold(s: State, e: Step)
    requires MutexOk(s) && ReportsOk(s) && CanStep(s, e) && e.Attempt?
    ensures var t := After(s, e);
            && t.locked == s.locked <= |t.deliveries| && Exists(t, e.who)
            && (Critical(PcOf(t, e.who)) ==> TriedOk(PcOf(t, e.who), t.deliveries[t.locked..]))
  {
    hide Contents, ReadSlice, ValidSlice;
    var pc := PcOf(s, e.who);
    assert TriedOk(pc, s.deliveries[s.locked..]);
    TriedMore(s.deliveries, s.locked, Delivery(pc.rev, Contents(pc.snapshot, s.shared.arrays), e.reply, e.applied));
  }

  /** The mover's own record, for the steps of a send that try nothing. */
  lemma MoveTold(s: State, e: Step, who: Who)
    requires MutexOk(s) && ReportsOk(s) && CanStep(s, e) && Moves(e, who) && !e.Attempt?
    ensures var t := After(s, e);
            && t.locked <= |t.deliveries| && Exists(t, who)
            && (Critical(PcOf(t, who)) ==> TriedOk(PcOf(t, who), t.deliveries[t.locked..]))
            && (e.Release? ==> Told(PcOf(s, who).ok, s.deliveries[s.locked..]))
  {
    hide Contents, ReadSlice, ValidSlice, AppendFromStart;
    if Critical(PcOf(s, who)) { assert TriedOk(PcOf(s, who), s.deliveries[s.locked..]); }
    if e.Acquire? { assert s.deliveries[|s.deliveries|..] == []; }
  }

  lemma OthersTold(s: State, e: Step, who: Who)
    requires ShapeOk(s) && MutexOk(s) && CanStep(s, e) && !Moves(e, who) && Exists(After(s, e), who)
    requires Critical(PcOf(After(s, e), who))
    ensures var t := After(s, e);
            && Exists(s, who) && PcOf(t, who) == PcOf(s, who) && Critical(PcOf(s, who))
            && t.locked == s.locked && t.deliveries == s.deliveries
  {
    hide Contents, ReadSlice, ValidSlice, AppendFromStart, Collect, Next, Polled, Latest;
    assert Exists(s, who);
  }

  lemma QuietOnReports(s: State, e: Step)
    requires CanStep(s, e)
    ensures var t := After(s, e);
            && (!e.Acquire? && !e.Attempt? ==> t.locked == s.locked && t.deliveries == s.deliveries)
            && t.reports == s.reports + if e.Release? then [Report(e.who, PcOf(s, e.who).ok, s.deliveries[s.locked..])] else []
  {
    hide Contents, ReadSlice, ValidSlice, AppendFromStart, Collect, Next, Enabled, Polled, Latest, InSend;
    assert s.reports + [] == s.reports;
  }

  /** In the final send main is alone, and its report is the last. */
  lemma MainReportsLast(s: State, e: Step)
    requires PhaseOk(s) && ShapeOk(s) && ReportsOk(s) && CanStep(s, e)
    ensures var t := After(s, e);
            (t.phase.Flushing? || t.phase.Returned?) && t.mainPc.Ended? ==>
              t.reports != [] && Last(t.reports).who == Main && Last(t.reports).ok == t.mainPc.ok
  {
    hide Contents, ReadSlice, ValidSlice, AppendFromStart, Collect, Next, Enabled, Polled, Latest, Told, TriedOk;
    match e {
      case WaitDone =>
      case Return =>
      case Release(_) =>
      case DoCollect(_, _, _) =>
      case Acquire(_) =>
      case TakeSnapshot(_, _) =>
      case Check(_) =>
      case Attempt(_, _, _) =>
      case MarkSent(_) =>
      case _ =>
    }
  }

  lemma StepKeepsReports(s: State, e: Step)
    requires PhaseOk(s) && ShapeOk(s) && MutexOk(s) && ReportsOk(s) && CanStep(s, e)
    ensures ReportsOk(After(s, e))
  {
    hide CanStep, After, PhaseOk, ShapeOk, TriedOk, Told, MutexOk;
    var t := After(s, e);
    if e.Release? { MoveTold(s, e, e.who); }
    if e.Attempt? { AttemptTold(s, e); }
    if e.Acquire? { MoveTold(s, e, e.who); }
    QuietOnReports(s, e);
    MainReportsLast(s, e);
    forall who | Exists(t, who) && Critical(PcOf(t, who))
      ensures t.locked <= |t.deliveries| && TriedOk(PcOf(t, who), t.deliveries[t.locked..])
    {
      if !Moves(e, who) { OthersTold(s, e, who); }
      else if e.Attempt? { AttemptTold(s, e); }
      else { MoveTold(s, e, who); }
    }
  }

  lemma StepKeepsInv(s: State, e: Step)
    requires Inv(s) && CanStep(s, e) && |After(s, e).history| <= TWO_63
    ensures Inv(After(s, e))
  {
    hide PoolOk, PhaseOk, ShapeOk, MutexOk, DataOk, SendersOk, FlushOk, DeliveriesOk, AckedOk, ReportsOk, CanStep, After;
    StepKeepsPool(s, e);
    StepKeepsPhase(s, e);
    StepKeepsShape(s, e);
    StepKeepsMutex(s, e);
    StepKeepsData(s, e);
    StepKeepsSenders(s, e);
    StepKeepsFlush(s, e);
    StepKeepsDeliveries(s, e);
    StepKeepsAcked(s, e);
    StepKeepsReports(s, e);
  }

  // ---- Whole runs ----

  ghost predicate IsRun(s: State, es: seq<Step>)
    decreases |es|
  {
    es == [] || (CanStep(s, es[0]) && IsRun(After(s, es[0]), es[1..]))
  }

  ghost function End(s: State, es: seq<Step>): State
    requires IsRun(s, es)
    decreases |es|
  {
    if es == [] then s else End(After(s, es[0]), es[1..])
  }

  lemma InitialPool(rateLimit: nat)
    ensures PoolOk(Initial(rateLimit))
  {
    hide Running;
    var s := Initial(rateLimit);
    RunningSize(s.pool.workers);
    assert s.pool.accepted == s.pool.started + s.pool.queue;
  }

  lemma InitialSend(rateLimit: nat)
    ensures var s := Initial(rateLimit); ShapeOk(s) && MutexOk(s) && SendersOk(s) && FlushOk(s) && ReportsOk(s)
  {
    hide PoolInv, SnapshotOk, TriedOk, Told, Contents;
  }

  lemma InitialInv(rateLimit: nat)
    ensures Inv(Initial(rateLimit))
  {
    hide PoolOk, PoolInv, ShapeOk, MutexOk, SendersOk, FlushOk, ReportsOk;
    InitialPool(rateLimit);
    InitialSend(rateLimit);
    assert Contents(NO_DATA, []) == Latest(Initial(rateLimit).history);
  }

  lemma {:induction false} HistoryGrows(s: State, es: seq<Step>)
    requires IsRun(s, es)
    ensures |s.history| <= |End(s, es).history|
    decreases |es|
  {
    if es != [] {
      HistoryStep(s, es[0]);
      hide CanStep, After;
      HistoryGrows(After(s, es[0]), es[1..]);
    }
  }

  lemma HistoryStep(s: State, e: Step)
    requires CanStep(s, e)
    ensures |s.history| <= |After(s, e).history|
  {
  }

  lemma {:induction false} RunKeeps(s: State, es: seq<Step>)
    requires Inv(s) && IsRun(s, es) && |End(s, es).history| <= TWO_63
    ensures Inv(End(s, es))
    decreases |es|
  {
    if es != [] {
      hide Inv, CanStep, After;
      HistoryGrows(After(s, es[0]), es[1..]);
      StepKeepsInv(s, es[0]);
      RunKeeps(After(s, es[0]), es[1..]);
    }
  }

  /** For every number of workers, schedule and network behaviour: at most one send at a time,
      sentRevision never ahead of revision, acknowledged sends in strictly increasing revision
      order, and every payload exactly what was collected as of its revision, PollCount included.
      The one limit is on the polls: counting stays exact for the first 2^63 - 1 of them. */
  lemma RevisionProtocol(rateLimit: nat, es: seq<Step>)
    requires IsRun(Initial(rateLimit), es) && |End(Initial(rateLimit), es).history| <= TWO_63
    ensures var s := End(Initial(rateLimit), es);
            && s.shared.sentRevision <= s.shared.revision == |s.history| - 1
            && (forall a, b :: Exists(s, a) && Exists(s, b) && Critical(PcOf(s, a)) && Critical(PcOf(s, b)) ==> a == b)
            && Increasing(AckedRevs(s.deliveries))
            && (forall k :: 0 <= k < |s.deliveries| ==>
                  && s.deliveries[k].rev < |s.history|
                  && s.deliveries[k].payload == s.history[s.deliveries[k].rev]
                  && s.deliveries[k].payload.pollCount == s.deliveries[k].rev)
  {
    InitialInv(rateLimit);
    RunKeeps(Initial(rateLimit), es);
  }

  lemma {:induction false} LastAcked(ds: seq<Delivery>)
    requires AckedRevs(ds) != []
    ensures exists k :: 0 <= k < |ds| && ds[k].reply.Success? && ds[k].rev == LastOf(AckedRevs(ds))
    decreases |ds|
  {
    var front := ds[..|ds| - 1];
    if ds[|ds| - 1].reply.Success? {
      assert ds[|ds| - 1].rev == LastOf(AckedRevs(ds));
    } else {
      assert AckedRevs(ds) == AckedRevs(front);
      LastAcked(front);
      var k :| 0 <= k < |front| && front[k].reply.Success? && front[k].rev == LastOf(AckedRevs(front));
      assert ds[k] == front[k];
    }
  }

  /** The tasks the tickers asked for during a run. */
  function Ticked(es: seq<Step>): seq<Task> {
    if es == [] then [] else TickOf(es[0]) + Ticked(es[1..])
  }

  function TickOf(e: Step): seq<Task> {
    match e case Tick(task) => [task] case _ => []
  }

  /** The tasks accepted so far, and the one main waits to hand over. */
  function Asked(s: State): seq<Task> {
    s.pool.accepted + match s.phase case Adding(task) => [task] case _ => []
  }

  lemma StepAsks(s: State, e: Step)
    requires CanStep(s, e)
    ensures Asked(After(s, e)) == Asked(s) + TickOf(e)
  {
    hide Contents, ReadSlice, ValidSlice, Collect, AppendFromStart, Polled, Latest, InSend;
    match e {
      case Tick(_) =>
      case Enqueue =>
      case Cancel =>
      case WaitDone =>
      case Return =>
      case TakeTask(_) =>
      case FinishTask(_) =>
      case ExitWorker(_) =>
      case DoCollect(_, _, _) =>
      case Attempt(_, _, _) =>
      case _ =>
    }
  }

  /** Every tick is one task, in order: none is dropped, and none is added twice. */
  lemma {:induction false} TicksAreTasks(s: State, es: seq<Step>)
    requires IsRun(s, es)
    ensures Asked(End(s, es)) == Asked(s) + Ticked(es)
    decreases |es|
  {
    hide CanStep, After, Asked, TickOf;
    if es == [] {
      assert Asked(s) + [] == Asked(s);
    } else {
      StepAsks(s, es[0]);
      TicksAreTasks(After(s, es[0]), es[1..]);
      assert (Asked(s) + TickOf(es[0])) + Ticked(es[1..]) == Asked(s) + Ticked(es);
    }
  }

  ghost predicate Acknowledged(s: State, rev: nat) {
    exists k :: 0 <= k < |s.deliveries| && s.deliveries[k].reply.Success? && s.deliveries[k].rev == rev
  }

  /** When RunAgent, once its pool has started, returns: every task it ever accepted has finished,
      and nothing runs or can run any more. It returns nil exactly when the server has acknowledged
      what was collected last, or nothing was collected; if not, the final send gave up after a
      fatal reply or its fourth attempt. Every send of the run was reported for what its attempts
      were. */
  lemma ShutdownIsComplete(rateLimit: nat, es: seq<Step>)
    requires IsRun(Initial(rateLimit), es) && |End(Initial(rateLimit), es).history| <= TWO_63
    requires End(Initial(rateLimit), es).phase.Returned?
    ensures var s := End(Initial(rateLimit), es);
            && AllExited(s.pool) && s.pool.queue == []
            && multiset(s.pool.finished) == multiset(s.pool.accepted)
            && (forall e :: !CanStep(s, e))
            && (s.phase.ok <==> s.shared.sentRevision == s.shared.revision)
            && (s.phase.ok <==> s.shared.revision == 0 || Acknowledged(s, s.shared.revision))
            && (s.phase.ok && s.shared.revision > 0 ==>
                  exists k :: 0 <= k < |s.deliveries| && s.deliveries[k].reply.Success? && s.deliveries[k].payload == Latest(s.history))
            && (forall k :: 0 <= k < |s.reports| ==> Told(s.reports[k].ok, s.reports[k].attempts))
            && s.reports != [] && Last(s.reports).who == Main && Last(s.reports).ok == s.phase.ok
  {
    InitialInv(rateLimit);
    RunKeeps(Initial(rateLimit), es);
    AtReturn(End(Initial(rateLimit), es));
  }

  lemma AtReturn(s: State)
    requires Inv(s) && s.phase.Returned?
    ensures AllExited(s.pool) && s.pool.queue == [] && multiset(s.pool.finished) == multiset(s.pool.accepted)
    ensures forall e :: !CanStep(s, e)
    ensures s.phase.ok <==> s.shared.sentRevision == s.shared.revision
    ensures s.phase.ok <==> s.shared.revision == 0 || Acknowledged(s, s.shared.revision)
    ensures s.phase.ok && s.shared.revision > 0 ==>
              exists k :: 0 <= k < |s.deliveries| && s.deliveries[k].reply.Success? && s.deliveries[k].payload == Latest(s.history)
    ensures s.reports != [] && Last(s.reports).who == Main && Last(s.reports).ok == s.phase.ok
  {
    ReturnPool(s);
    hide PoolOk, Told, TriedOk;
    assert s.holder.None?;
    assert LastOf(AckedRevs(s.deliveries)) == s.shared.sentRevision;
    if AckedRevs(s.deliveries) != [] { LastAcked(s.deliveries); }
    forall k | 0 <= k < |s.deliveries| && s.deliveries[k].reply.Success?
      ensures s.deliveries[k].rev <= s.shared.sentRevision
    {
      AckedIn(s.deliveries, k);
    }
  }

  lemma {:induction false} AckedIn(ds: seq<Delivery>, k: nat)
    requires k < |ds| && ds[k].reply.Success?
    ensures ds[k].rev in AckedRevs(ds)
    decreases |ds|
  {
    if k < |ds| - 1 {
      assert ds[..|ds| - 1][k] == ds[k];
      AckedIn(ds[..|ds| - 1], k);
    }
  }

  lemma ReturnPool(s: State)
    requires PoolOk(s) && AllExited(s.pool)
    ensures s.pool.queue == [] && multiset(s.pool.finished) == multiset(s.pool.accepted)
  {
    InvMeans(s.pool);
    if |s.pool.workers| > 0 {
      assert s.pool.workers[0].Exited?;
    } else {
      assert s.pool.queue == [];
      assert s.pool.accepted == s.pool.started + [] == s.pool.started;
      assert Running(s.pool.workers) == multiset{};
    }
  }

  // ---- After cancellation the agent comes to an end ----

  function Left(pc: Pc): nat {
    match pc
    case Fresh => 20
    case Locked => 19
    case Snapped(_, _) => 18
    case Sending(_, _, attempt, _) => if attempt < 10 then 17 - attempt else 7
    case Acked(_, _) => 3
    case Unlocking(_) => 2
    case Ended(_) => 1
  }

  function WorkLeft(w: WorkerPool.Worker<Task>, pc: Pc): nat {
    match w case Idle => 1 case Busy(_) => 1 + Left(pc) case Exited => 0
  }

  function WorkersLeft(ws: seq<WorkerPool.Worker<Task>>, pcs: seq<Pc>): nat
    requires |ws| == |pcs|
    decreases |ws|
  {
    if ws == [] then 0 else WorkLeft(ws[0], pcs[0]) + WorkersLeft(ws[1..], pcs[1..])
  }

  lemma {:induction false} WorkersLeftUpdate(ws: seq<WorkerPool.Worker<Task>>, pcs: seq<Pc>, w: nat, x: WorkerPool.Worker<Task>, pc: Pc)
    requires |ws| == |pcs| && w < |ws|
    ensures WorkersLeft(ws[w := x], pcs[w := pc]) + WorkLeft(ws[w], pcs[w]) == WorkersLeft(ws, pcs) + WorkLeft(x, pc)
    decreases |ws|
  {
    var ws', pcs' := ws[w := x], pcs[w := pc];
    if w == 0 {
      assert ws'[1..] == ws[1..] && pcs'[1..] == pcs[1..];
    } else {
      assert ws'[1..] == ws[1..][w - 1 := x] && pcs'[1..] == pcs[1..][w - 1 := pc];
      WorkersLeftUpdate(ws[1..], pcs[1..], w - 1, x, pc);
    }
  }

  function Remaining(s: State): nat
    requires |s.pcs| == |s.pool.workers|
  {
    22 * |s.pool.queue| + WorkersLeft(s.pool.workers, s.pcs) +
    match s.phase case Waiting => 40 case Flushing => 2 + Left(s.mainPc) case _ => 0
  }

  /** Once main has left its loop, every step brings RunAgent's return nearer. */
  lemma StepBringsReturnNearer(s: State, e: Step)
    requires Inv(s) && CanStep(s, e) && (s.phase.Waiting? || s.phase.Flushing? || s.phase.Returned?)
    ensures |After(s, e).pcs| == |After(s, e).pool.workers| && Remaining(After(s, e)) < Remaining(s)
  {
    hide WorkersLeft, PoolInv, PhaseOk, DataOk, DeliveriesOk, AckedOk, FlushOk, MutexOk, SendersOk;
    match e {
      case TakeTask(w) => WorkersLeftUpdate(s.pool.workers, s.pcs, w, Busy(s.pool.queue[0]), Fresh);
      case FinishTask(w) => WorkersLeftUpdate(s.pool.workers, s.pcs, w, Idle, Fresh);
      case ExitWorker(w) =>
        WorkersLeftUpdate(s.pool.workers, s.pcs, w, Exited, s.pcs[w]);
        assert s.pcs[w := s.pcs[w]] == s.pcs;
      case DoCollect(w, _, _) => WorkerMoves(s, After(s, e), w);
      case Acquire(who) => SendStepNearer(s, e, who);
      case TakeSnapshot(who, _) => SendStepNearer(s, e, who);
      case Check(who) => SendStepNearer(s, e, who);
      case Attempt(who, _, _) => SendStepNearer(s, e, who);
      case MarkSent(who) => SendStepNearer(s, e, who);
      case Release(who) => SendStepNearer(s, e, who);
      case _ =>
    }
  }

  lemma SendStepNearer(s: State, e: Step, who: Who)
    requires ShapeOk(s) && SendersOk(s) && CanStep(s, e) && Moves(e, who)
    ensures |After(s, e).pcs| == |After(s, e).pool.workers| && Remaining(After(s, e)) < Remaining(s)
  {
    assert SenderOk(s, PcOf(s, who));
    SendMovesOnlyItself(s, e, who);
    hide WorkersLeft, CanStep, After, ShapeOk, SendersOk, SenderOk;
    if who.Worker? { WorkerMoves(s, After(s, e), who.w); }
  }

  lemma SendMovesOnlyItself(s: State, e: Step, who: Who)
    requires CanStep(s, e) && Moves(e, who) && Exists(s, who) && SenderOk(s, PcOf(s, who))
    ensures InSend(s, who)
    ensures After(s, e).pool == s.pool && After(s, e).phase == s.phase
    ensures Exists(After(s, e), who) && Left(PcOf(After(s, e), who)) < Left(PcOf(s, who))
    ensures After(s, e).pcs == if who.Main? then s.pcs else s.pcs[who.w := PcOf(After(s, e), who)]
    ensures who.Worker? ==> After(s, e).mainPc == s.mainPc
  {
    hide AppendFromStart, Contents, ReadSlice, ValidSlice, SnapshotOk;
  }

  lemma WorkerMoves(s: State, t: State, w: nat)
    requires |s.pcs| == |s.pool.workers| && w < |s.pcs| && s.pool.workers[w].Busy?
    requires t.pool.workers == s.pool.workers && |t.pcs| == |s.pcs| && t.pcs == s.pcs[w := t.pcs[w]]
    ensures WorkersLeft(t.pool.workers, t.pcs) + Left(s.pcs[w]) == WorkersLeft(s.pool.workers, s.pcs) + Left(t.pcs[w])
  {
    WorkersLeftUpdate(s.pool.workers, s.pcs, w, s.pool.workers[w], t.pcs[w]);
    assert s.pool.workers[w := s.pool.workers[w]] == s.pool.workers;
  }

  lemma HolderInSend(s: State)
    requires ShapeOk(s) && MutexOk(s) && s.holder.Some?
    ensures InSend(s, s.holder.value) && Critical(PcOf(s, s.holder.value))
  {
    if s.holder.value.Worker? {
      var w := s.holder.value.w;
      assert Critical(s.pcs[w]) && s.pool.workers[w].Busy?;
      match s.pool.workers[w].task { case CollectTask => case SendTask => }
    }
  }

  /** The agent is never stuck before it returns: a held send mutex is always on its way back, and
      a full queue is always being drained. */
  lemma SomeStepExists(s: State) returns (e: Step)
    requires Inv(s) && !s.phase.Returned? && |s.pcs| > 0
    ensures CanStep(s, e)
    ensures !s.phase.Loop? ==> !e.Tick? && !e.Cancel?
  {
    assert !s.pool.closed ==> !s.pool.workers[0].Exited?;
    hide PoolInv, DeliveriesOk, AckedOk, FlushOk, DataOk, SendersOk;
    match s.phase {
      case Loop => e := Tick(CollectTask);
      case Adding(task) =>
        if Enabled(s.pool, AddTask(task)) { e := Enqueue; } else { e := WorkerStep(s, 0); }
      case Waiting =>
        if w :| 0 <= w < |s.pcs| && !s.pool.workers[w].Exited? { e := WorkerStep(s, w); } else { e := WaitDone; }
      case Flushing =>
        if s.mainPc.Ended? { e := Return; }
        else if s.mainPc.Fresh? && s.holder.Some? { HolderInSend(s); e := SendStep(s, s.holder.value); }
        else { e := SendStep(s, Main); }
    }
  }

  lemma SendStep(s: State, who: Who) returns (e: Step)
    requires DataOk(s) && SendersOk(s) && InSend(s, who) && !PcOf(s, who).Ended? && s.locked <= |s.deliveries|
    requires PcOf(s, who).Fresh? ==> s.holder.None?
    ensures CanStep(s, e) && Moves(e, who)
  {
    assert SenderOk(s, PcOf(s, who));
    match PcOf(s, who) {
      case Fresh => e := Acquire(who);
      case Locked => e := TakeSnapshot(who, []);
      case Snapped(_, _) => e := Check(who);
      case Sending(_, _, _, _) => e := Attempt(who, Success, true);
      case Acked(_, _) => e := MarkSent(who);
      case Unlocking(_) => e := Release(who);
    }
  }

  lemma WorkerStep(s: State, w: nat) returns (e: Step)
    requires Inv(s) && w < |s.pcs| && !s.pool.workers[w].Exited?
    requires s.phase.Waiting? || (s.phase.Adding? && s.pool.queue != [])
    ensures CanStep(s, e) && !e.Tick? && !e.Cancel?
  {
    hide PoolInv, DeliveriesOk, AckedOk, FlushOk, SendersOk;
    match s.pool.workers[w] {
      case Idle => e := if s.pool.queue != [] then TakeTask(w) else ExitWorker(w);
      case Busy(CollectTask) =>
        e := if s.pcs[w].Ended? then FinishTask(w) else DoCollect(w, Reading(0, Finite(0.0), None, None), []);
      case Busy(SendTask) =>
        if s.pcs[w].Ended? {
          e := FinishTask(w);
        } else if s.pcs[w].Fresh? && s.holder.Some? {
          HolderInSend(s);
          e := SendStep(s, s.holder.value);
        } else {
          e := SendStep(s, Worker(w));
        }
    }
  }
}

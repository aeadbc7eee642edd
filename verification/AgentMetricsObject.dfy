/** internal/agent/agent.go: SafeMetrics as the object it is, with the CPU figures in a shared
    array that each poll overwrites, and the sending loop. */
module AgentMetricsObject {
  import opened Metrics
  import opened Agent

  // ---- Request errors ----

  /** errors.As sees through wrapping; a url.Error is judged by what it wraps. */
  datatype SendError =
    | StatusError(code: int)
    | UrlError(inner: SendError)
    | NetError
    | Wrapped(inner: SendError)
    | OtherError

  function FindStatus(e: SendError): Option<int> {
    match e
    case StatusError(code) => Some(code)
    case UrlError(inner) => FindStatus(inner)
    case Wrapped(inner) => FindStatus(inner)
    case _ => None
  }

  /** url.Error itself has the methods of net.Error. */
  predicate IsNetError(e: SendError) {
    match e
    case UrlError(_) => true
    case Wrapped(inner) => IsNetError(inner)
    case NetError => true
    case _ => false
  }

  function StripUrl(e: SendError): SendError {
    match e
    case UrlError(inner) => inner
    case Wrapped(inner) => if HasUrl(inner) then StripUrl(inner) else e
    case _ => e
  }

  predicate HasUrl(e: SendError) {
    match e case UrlError(_) => true case Wrapped(inner) => HasUrl(inner) case _ => false
  }

  predicate IsRetriableRequestError(e: SendError) {
    var status := FindStatus(e);
    if status.Some? then status.value == 429 || status.value >= 500 else IsNetError(StripUrl(e))
  }

  /** What is inside all wrapping. */
  function Core(e: SendError): SendError {
    match e case UrlError(inner) => Core(inner) case Wrapped(inner) => Core(inner) case _ => e
  }

  function UrlErrors(e: SendError): nat {
    match e case UrlError(inner) => 1 + UrlErrors(inner) case Wrapped(inner) => UrlErrors(inner) case _ => 0
  }

  lemma {:induction false} LayersMean(e: SendError)
    ensures FindStatus(e) == if Core(e).StatusError? then Some(Core(e).code) else None
    ensures IsNetError(e) <==> Core(e).NetError? || UrlErrors(e) >= 1
    ensures HasUrl(e) <==> UrlErrors(e) >= 1
    ensures Core(StripUrl(e)) == Core(e) && UrlErrors(StripUrl(e)) == if UrlErrors(e) == 0 then 0 else UrlErrors(e) - 1
  {
    match e {
      case UrlError(inner) => LayersMean(inner);
      case Wrapped(inner) => LayersMean(inner);
      case _ =>
    }
  }

  /** A send is worth another try exactly when the server asked for it (429, or a status from 500),
      or when what failed below the url.Error is the network. */
  lemma RetriableExactly(e: SendError)
    ensures IsRetriableRequestError(e) <==>
              match Core(e)
              case StatusError(code) => code == 429 || code >= 500
              case NetError => true
              case _ => UrlErrors(e) >= 2
  {
    LayersMean(e);
    LayersMean(StripUrl(e));
  }

  /** What attempt number k of a call would meet: None is a 2xx answer. */
  type Network = nat -> Option<SendError>

  /** The retry loop stops at the first success, at the first error not worth retrying, or after
      the fourth attempt. */
  ghost predicate StopsAfter(net: Network, attempts: nat) {
    && 1 <= attempts <= RETRIES + 1
    && (forall k :: 0 <= k < attempts - 1 ==> net(k).Some? && IsRetriableRequestError(net(k).value))
    && (attempts == RETRIES + 1 || net(attempts - 1).None? || !IsRetriableRequestError(net(attempts - 1).value))
  }

  method SendAllMetricsWithRetry(net: Network) returns (error: Option<SendError>, attempts: nat)
    ensures attempts <= 4 && StopsAfter(net, attempts) && error == net(attempts - 1)
  {
    attempts := 0;
    while true
      invariant attempts <= RETRIES
      invariant forall k :: 0 <= k < attempts ==> net(k).Some? && IsRetriableRequestError(net(k).value)
      decreases RETRIES - attempts
    {
      error := net(attempts);
      attempts := attempts + 1;
      if error.None? {
        return;
      }
      if !IsRetriableRequestError(error.value) || attempts == RETRIES + 1 {
        return;
      }
    }
  }

  /** An AgentMetrics value handed out: a struct with a slice. */
  datatype Copied = Copied(pollCount: int64, memStats: int, random: Float64, total: int, free: int, cpu: array<Float64>) {
    function View(): Snapshot
      reads cpu
    {
      Snapshot(pollCount, memStats, random, total, free, cpu[..])
    }
  }

  class SharedMetrics {
    var pollCount: int64
    var memStats: int
    var random: Float64
    var total: int
    var free: int
    var cpu: array<Float64>
    var cpuLen: nat
    var revision: nat
    var sentRevision: nat

    ghost predicate Valid()
      reads this
    {
      cpuLen <= cpu.Length && revision < TWO_64
    }

    ghost function View(): Snapshot
      requires Valid()
      reads this, cpu
    {
      Snapshot(pollCount, memStats, random, total, free, cpu[..cpuLen])
    }

    constructor ()
      ensures Valid() && View() == Contents(NO_DATA, []) && revision == sentRevision == 0
    {
      pollCount, memStats, random, total, free := 0, 0, Finite(0.0), 0, 0;
      cpu := new Float64[0];
      cpuLen, revision, sentRevision := 0, 0, 0;
    }

    /** Overwrites the figures in place; the CPU array is replaced only when it is too short. */
    method Collect(r: Reading)
      requires Valid()
      modifies this, cpu
      ensures Valid() && View() == Polled(old(View()), r)
      ensures revision == (old(revision) + 1) % TWO_64 && sentRevision == old(sentRevision)
      ensures cpu == old(cpu) || fresh(cpu)
    {
      memStats := r.memStats;
      pollCount := Wrap(pollCount + 1);
      random := r.random;
      revision := (revision + 1) % TWO_64;
      if r.memory.Some? {
        total, free := r.memory.value.0, r.memory.value.1;
      }
      if r.cpu.Some? {
        StoreCpu(r.cpu.value);
      }
    }

    method StoreCpu(xs: seq<Float64>)
      requires Valid()
      modifies this`cpu, this`cpuLen, cpu
      ensures Valid() && cpu[..cpuLen] == xs
      ensures cpu == old(cpu) || fresh(cpu)
    {
      if cpu.Length < |xs| {
        cpu := new Float64[2 * |xs|];
      }
      for k := 0 to |xs|
        invariant cpu.Length >= |xs| && cpu[..k] == xs[..k] && (cpu == old(cpu) || fresh(cpu))
      {
        cpu[k] := xs[k];
      }
      cpuLen := |xs|;
    }

    /** The copy has an array of its own, so later polls do not change it. */
    method SnapshotWithRevision() returns (copy: Copied, rev: nat)
      requires Valid()
      ensures fresh(copy.cpu) && copy.View() == View()
      ensures rev == revision
    {
      var figures := new Float64[cpuLen];
      for k := 0 to cpuLen
        invariant figures[..k] == cpu[..k]
      {
        figures[k] := cpu[k];
      }
      assert figures[..] == figures[..cpuLen];
      copy := Copied(pollCount, memStats, random, total, free, figures);
      rev := revision;
    }

    method MarkSent(rev: nat)
      modifies this`sentRevision
      ensures sentRevision == if rev > old(sentRevision) then rev else old(sentRevision)
    {
      if rev > sentRevision { sentRevision := rev; }
    }

    /** sendUnsentMetrics without interference: nothing goes out when nothing is new; otherwise the
        current figures do, and they count as sent exactly when an attempt succeeded. */
    method SendUnsentMetrics(net: Network) returns (sent: bool, error: Option<SendError>, payload: Option<Snapshot>)
      requires Valid()
      modifies this`sentRevision
      ensures Valid() && View() == old(View()) && revision == old(revision)
      ensures payload.Some? <==> revision > old(sentRevision)
      ensures payload.Some? ==> payload.value == View()
      ensures sent ==> sentRevision == revision && error.None?
      ensures !sent ==> sentRevision == old(sentRevision)
      ensures payload.Some? ==> exists attempts :: attempts > 0 && StopsAfter(net, attempts) && error == net(attempts - 1) && (sent <==> error.None?)
      ensures payload.None? ==> !sent && error.None?
    {
      var snapshot, rev := SnapshotWithRevision();
      if rev <= sentRevision {
        return false, None, None;
      }
      payload := Some(Snapshot(snapshot.pollCount, snapshot.memStats, snapshot.random, snapshot.total, snapshot.free, snapshot.cpu[..]));
      var attempts;
      error, attempts := SendAllMetricsWithRetry(net);
      if error.Some? {
        return false, error, payload;
      }
      MarkSent(rev);
      sent := true;
    }
  }
}

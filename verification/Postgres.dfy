/** internal/repository/postgres.go: the second store, a keyed table reached through transactions
    that are retried. The database is the table of migrations/000001_create_tables.up.sql, and a
    statement means what its ON CONFLICT clause says. */
module Postgres {
  import opened Metrics
  import opened StoreSpec

  /** The two nullable columns a save can set; None is NULL. */
  datatype Row = Row(delta: Option<int64>, value: Option<Float64>)

  type Table = map<MetricKey, Row>

  /** A Go error tree: a server error with its SQLSTATE, any other error, one that wraps another,
      or what errors.Join builds. */
  datatype GoError = PgError(code: string) | Other(text: string) | Wrapped(cause: GoError) | Joined(causes: seq<GoError>)

  /** errors.As: the first server error met before the errors it wraps, in order. */
  function FirstPgCode(e: GoError): Option<string> {
    match e
    case PgError(code) => Some(code)
    case Other(_) => None
    case Wrapped(cause) => FirstPgCode(cause)
    case Joined(causes) => FirstPgCodeIn(causes)
  }

  function FirstPgCodeIn(es: seq<GoError>): Option<string> {
    if es == [] then None
    else match FirstPgCode(es[0])
      case Some(code) => Some(code)
      case None => FirstPgCodeIn(es[1..])
  }

  /** All server errors in a tree, in the order in which errors.As visits them. */
  function PgCodes(e: GoError): seq<string> {
    match e
    case PgError(code) => [code]
    case Other(_) => []
    case Wrapped(cause) => PgCodes(cause)
    case Joined(causes) => PgCodesIn(causes)
  }

  function PgCodesIn(es: seq<GoError>): seq<string> {
    if es == [] then [] else PgCodes(es[0]) + PgCodesIn(es[1..])
  }

  lemma {:induction false} FirstIsFirst(e: GoError)
    ensures FirstPgCode(e) == if PgCodes(e) == [] then None else Some(PgCodes(e)[0])
    decreases e, 0
  {
    match e {
      case Wrapped(cause) => FirstIsFirst(cause);
      case Joined(causes) => FirstInIsFirst(causes);
      case _ =>
    }
  }

  lemma {:induction false} FirstInIsFirst(es: seq<GoError>)
    ensures FirstPgCodeIn(es) == if PgCodesIn(es) == [] then None else Some(PgCodesIn(es)[0])
    decreases es, 1
  {
    if es != [] {
      FirstIsFirst(es[0]);
      FirstInIsFirst(es[1..]);
    }
  }

  /** A connection exception: class 08 of the SQLSTATE codes. */
  predicate ConnectionError(e: GoError) {
    var codes := PgCodes(e);
    codes != [] && |codes[0]| >= 2 && codes[0][0] == '0' && codes[0][1] == '8'
  }

  lemma RetriableExactly(e: GoError)
    ensures IsRetriablePostgresError(e) <==> ConnectionError(e)
  {
    FirstIsFirst(e);
    if PgCodes(e) != [] { PrefixIs(PgCodes(e)[0]); }
  }

  lemma PrefixIs(code: string)
    ensures "08" <= code <==> |code| >= 2 && code[0] == '0' && code[1] == '8'
  {
    if |code| >= 2 && code[0] == '0' && code[1] == '8' { assert code[..2] == "08"; }
    if "08" <= code { assert code[0] == "08"[0] && code[1] == "08"[1]; }
  }

  predicate IsRetriablePostgresError(e: GoError) {
    match FirstPgCode(e)
    case Some(code) => "08" <= code
    case None => false
  }

  // ---- One statement ----

  /** Why a TEXT column of an index does not take a string: U+0000 or bytes that are not UTF-8, or an
      index entry that would be too long. */
  datatype Refusal = NotText | TooLong

  /** What the id column says to a string. */
  type Column = string -> Option<Refusal>

  function Refused(refusal: Refusal): GoError {
    PgError(match refusal case NotText => "22021" case TooLong => "54000")
  }

  /** BIGINT addition: NULL absorbs, and a sum that does not fit is an error, never a wrap. */
  function AddBigint(a: Option<int64>, b: Option<int64>): Result<Option<int64>, GoError> {
    if a.None? || b.None? then Ok(None)
    else if -TWO_63 <= a.value + b.value < TWO_63 then Ok(Some(a.value + b.value))
    else Err(PgError("22003"))
  }

  function Upsert(column: Column, t: Table, m: Metric): Result<Table, GoError> {
    var k := Key(m);
    if m.mtype != COUNTER && m.mtype != GAUGE then Err(Other("unsupported metric type"))
    else if column(m.id).Some? then Err(Refused(column(m.id).value))
    else if m.mtype == COUNTER then
      if k !in t then Ok(t[k := Row(m.delta, None)])
      else match AddBigint(t[k].delta, m.delta)
        case Err(e) => Err(e)
        case Ok(delta) => Ok(t[k := t[k].(delta := delta)])
    else
      Ok(t[k := if k in t then t[k].(value := m.value) else Row(None, m.value)])
  }

  /** RETURNING id, mtype, delta, value: the hash is not part of it. */
  function AsMetric(t: Table, k: MetricKey): Metric
    requires k in t
  {
    Metric(k.id, k.mtype, t[k].delta, t[k].value, "")
  }

  /** All statements of a batch, when none fails. */
  function UpsertAll(column: Column, t: Table, ms: seq<Metric>): Option<Table>
    decreases |ms|
  {
    if ms == [] then Some(t)
    else match UpsertAll(column, t, ms[..|ms| - 1])
      case None => None
      case Some(t') => match Upsert(column, t', ms[|ms| - 1])
        case Err(_) => None
        case Ok(t'') => Some(t'')
  }

  // ---- One attempt at a transaction ----

  /** What may go wrong besides the statements themselves: begin, the connection at one row,
      rollback, and commit, which may have been applied although it is reported failed. */
  datatype Faults = Faults(begin: Option<GoError>, row: Option<(nat, GoError)>, rollback: Option<GoError>,
                           commit: Option<GoError>, applied: bool)

  datatype Outcome = Outcome(table: Table, answer: Result<seq<Metric>, GoError>)

  function Rows(column: Column, t: Table, ms: seq<Metric>, f: Faults): Result<(Table, seq<Metric>), GoError>
    decreases |ms|
  {
    if ms == [] then Ok((t, []))
    else
      var n := |ms| - 1;
      match Rows(column, t, ms[..n], f)
      case Err(e) => Err(e)
      case Ok((t', saved)) => OneRow(column, t', saved, ms[n], n, f)
  }

  function OneRow(column: Column, t: Table, saved: seq<Metric>, m: Metric, n: nat,
                  f: Faults): Result<(Table, seq<Metric>), GoError> {
    if f.row.Some? && f.row.value.0 == n then Err(f.row.value.1)
    else match Upsert(column, t, m)
      case Err(e) => Err(e)
      case Ok(t') => Ok((t', saved + [AsMetric(t', Key(m))]))
  }

  function Attempt(column: Column, t: Table, ms: seq<Metric>, f: Faults): Outcome {
    if f.begin.Some? then Outcome(t, Err(f.begin.value))
    else match Rows(column, t, ms, f)
      case Err(e) => Outcome(t, Err(Joined(if f.rollback.Some? then [e, f.rollback.value] else [e])))
      case Ok((t', saved)) =>
        if f.commit.Some? then Outcome(if f.applied then t' else t, Err(f.commit.value))
        else Outcome(t', Ok(saved))
  }

  /** The attempt was applied but reported as failed. */
  predicate Ambiguous(column: Column, t: Table, ms: seq<Metric>, f: Faults) {
    f.begin.None? && Rows(column, t, ms, f).Ok? && f.commit.Some? && f.applied
  }

  // ---- The retry loop ----

  const RETRIES := 3

  /** Attempts follow one another while the error says the connection is at fault. */
  function Attempts(column: Column, t: Table, ms: seq<Metric>, fs: seq<Faults>): Outcome
    requires fs != []
    decreases |fs|
  {
    var o := Attempt(column, t, ms, fs[0]);
    if o.answer.Err? && IsRetriablePostgresError(o.answer.error) && |fs| > 1
    then Attempts(column, o.table, ms, fs[1..]) else o
  }

  /** Attempt k, if all before it were made whatever they returned. */
  function Chain(column: Column, t: Table, ms: seq<Metric>, fs: seq<Faults>, k: nat): Outcome
    requires k < |fs|
    decreases k
  {
    Attempt(column, if k == 0 then t else Chain(column, t, ms, fs, k - 1).table, ms, fs[k])
  }

  /** Nothing is to be gained from another attempt. */
  predicate Settled(o: Outcome) {
    o.answer.Ok? || !ConnectionError(o.answer.error)
  }

  /** Attempt n is the first that settles it, or the last allowed. */
  ghost predicate Decides(column: Column, t: Table, ms: seq<Metric>, fs: seq<Faults>, n: nat) {
    && n < |fs|
    && (forall k :: 0 <= k < n ==> !Settled(Chain(column, t, ms, fs, k)))
    && (n + 1 < |fs| ==> Settled(Chain(column, t, ms, fs, n)))
  }

  lemma {:induction false} ChainShift(column: Column, t: Table, ms: seq<Metric>, fs: seq<Faults>, k: nat)
    requires k + 1 < |fs|
    ensures Chain(column, t, ms, fs, k + 1) == Chain(column, Chain(column, t, ms, fs, 0).table, ms, fs[1..], k)
    decreases k
  {
    hide Attempt;
    if k > 0 { ChainShift(column, t, ms, fs, k - 1); }
  }

  /** The retried call is the first attempt that succeeds or fails with anything but a connection
      error, or the last one allowed. */
  lemma {:induction false} AttemptsExactly(column: Column, t: Table, ms: seq<Metric>, fs: seq<Faults>) returns (n: nat)
    requires fs != []
    ensures Decides(column, t, ms, fs, n) && Attempts(column, t, ms, fs) == Chain(column, t, ms, fs, n)
    decreases |fs|
  {
    hide Attempt, IsRetriablePostgresError, ConnectionError;
    var o := Attempt(column, t, ms, fs[0]);
    assert o == Chain(column, t, ms, fs, 0);
    if o.answer.Err? { RetriableExactly(o.answer.error); }
    if !Settled(o) && |fs| > 1 {
      var m := AttemptsExactly(column, o.table, ms, fs[1..]);
      n := m + 1;
      ChainShift(column, t, ms, fs, m);
      forall k | 0 <= k < n
        ensures !Settled(Chain(column, t, ms, fs, k))
      {
        if k > 0 { ChainShift(column, t, ms, fs, k - 1); }
      }
    } else {
      n := 0;
    }
  }

  lemma DecidesOnce(column: Column, t: Table, ms: seq<Metric>, fs: seq<Faults>, n: nat, m: nat)
    requires Decides(column, t, ms, fs, n) && Decides(column, t, ms, fs, m)
    ensures n == m
  {
  }

  /** A call rides out connection errors at begin, as long as one of its attempts meets none. */
  lemma RidesOutConnectionErrors(column: Column, t: Table, ms: seq<Metric>, fs: seq<Faults>, good: nat)
    requires good < |fs| && Attempt(column, t, ms, fs[good]).answer.Ok?
    requires forall k :: 0 <= k < good ==> fs[k].begin.Some? && ConnectionError(fs[k].begin.value)
    ensures Attempts(column, t, ms, fs) == Attempt(column, t, ms, fs[good])
  {
    hide ConnectionError, Rows;
    ChainOfFailures(column, t, ms, fs, good);
    var n := AttemptsExactly(column, t, ms, fs);
    forall k | 0 <= k < good
      ensures !Settled(Chain(column, t, ms, fs, k))
    {
      ChainOfFailures(column, t, ms, fs, k);
    }
    assert Decides(column, t, ms, fs, good);
    DecidesOnce(column, t, ms, fs, n, good);
  }

  lemma {:induction false} ChainOfFailures(column: Column, t: Table, ms: seq<Metric>, fs: seq<Faults>, k: nat)
    requires k < |fs| && forall j :: 0 <= j < k ==> fs[j].begin.Some?
    ensures Chain(column, t, ms, fs, k) == Attempt(column, t, ms, fs[k])
    decreases k
  {
    if k > 0 { ChainOfFailures(column, t, ms, fs, k - 1); }
  }

  /** How many of the attempts made were ambiguous. */
  function Ambiguities(column: Column, t: Table, ms: seq<Metric>, fs: seq<Faults>): (n: nat)
    requires fs != []
    ensures n <= |fs|
    ensures Attempts(column, t, ms, fs).answer.Ok? ==> n < |fs|
    decreases |fs|
  {
    var o := Attempt(column, t, ms, fs[0]);
    (if Ambiguous(column, t, ms, fs[0]) then 1 else 0) +
    if o.answer.Err? && IsRetriablePostgresError(o.answer.error) && |fs| > 1
    then Ambiguities(column, o.table, ms, fs[1..]) else 0
  }

  /** The whole batch, k times over. */
  function Copies(column: Column, t: Table, ms: seq<Metric>, k: nat): Option<Table>
    decreases k
  {
    if k == 0 then Some(t)
    else match UpsertAll(column, t, ms)
      case None => None
      case Some(t') => Copies(column, t', ms, k - 1)
  }

  /** SaveMetricsBatch: validation first, then the attempts. */
  function BatchOutcome(column: Column, t: Table, ms: seq<Metric>, fs: seq<Faults>): Outcome
    requires fs != []
  {
    if !AllValid(ms) then Outcome(t, Err(Other("invalid metric"))) else Attempts(column, t, ms, fs)
  }

  class PostgresStorage {
    const column: Column
    var table: Table

    constructor (column: Column, t: Table)
      ensures this.column == column && table == t
    {
      this.column := column;
      table := t;
    }

    method SaveMetricsBatch(ms: seq<Metric>, faults: seq<Faults>) returns (r: Result<seq<Metric>, GoError>)
      requires |faults| == RETRIES + 1
      modifies this
      ensures Outcome(table, r) == BatchOutcome(column, old(table), ms, faults)
      ensures !AllValid(ms) ==> r.Err? && table == old(table)
      ensures AllValid(ms) ==>
                exists n :: Decides(column, old(table), ms, faults, n) && Outcome(table, r) == Chain(column, old(table), ms, faults, n)
    {
      for i := 0 to |ms|
        invariant AllValid(ms[..i])
      {
        var invalid := Validate(ms[i]);
        assert ms[..i + 1][i] == ms[i];
        if invalid.Some? {
          return Err(Other("invalid metric"));
        }
        assert ms[..i + 1] == ms[..i] + [ms[i]];
      }
      assert ms[..|ms|] == ms;
      ghost var made;
      r, made := WithRetryValue(ms, faults);
    }

    method WithRetryValue(ms: seq<Metric>, faults: seq<Faults>) returns (r: Result<seq<Metric>, GoError>, ghost made: nat)
      requires |faults| == RETRIES + 1
      modifies this
      ensures Outcome(table, r) == Attempts(column, old(table), ms, faults)
      ensures 1 <= made <= 4 && Decides(column, old(table), ms, faults, made - 1)
      ensures Outcome(table, r) == Chain(column, old(table), ms, faults, made - 1)
    {
      hide Attempt, IsRetriablePostgresError, ConnectionError;
      var attempt := 0;
      made := 0;
      while attempt <= RETRIES
        invariant attempt <= RETRIES && made == attempt
        invariant Attempts(column, table, ms, faults[attempt..]) == Attempts(column, old(table), ms, faults)
        invariant table == if attempt == 0 then old(table) else Chain(column, old(table), ms, faults, attempt - 1).table
        invariant forall k :: 0 <= k < attempt ==> !Settled(Chain(column, old(table), ms, faults, k))
      {
        assert faults[attempt..][1..] == faults[attempt + 1..];
        r := RunTransaction(ms, faults[attempt]);
        made := made + 1;
        if r.Ok? {
          return;
        }
        RetriableExactly(r.error);
        if !IsRetriablePostgresError(r.error) || attempt == RETRIES {
          return;
        }
        attempt := attempt + 1;
      }
      assert false;
    }

    method RunTransaction(ms: seq<Metric>, f: Faults) returns (r: Result<seq<Metric>, GoError>)
      modifies this
      ensures Outcome(table, r) == Attempt(column, old(table), ms, f)
    {
      hide OneRow, Upsert, AsMetric;
      if f.begin.Some? {
        return Err(f.begin.value);
      }
      var tx, saved := table, [];
      for i := 0 to |ms|
        invariant Rows(column, table, ms[..i], f) == Ok((tx, saved))
        invariant table == old(table)
      {
        assert ms[..i + 1][..i] == ms[..i];
        var one := OneRow(column, tx, saved, ms[i], i, f);
        if one.Err? {
          RowsFail(column, table, ms, f, i + 1);
          return Err(Joined(if f.rollback.Some? then [one.error, f.rollback.value] else [one.error]));
        }
        tx, saved := one.value.0, one.value.1;
      }
      assert ms[..|ms|] == ms;
      if f.commit.None? || f.applied {
        table := tx;
      }
      r := if f.commit.Some? then Err(f.commit.value) else Ok(saved);
    }
  }

  /** The statement that fails first decides the error of the whole. */
  lemma {:induction false} RowsFail(column: Column, t: Table, ms: seq<Metric>, f: Faults, n: nat)
    requires n <= |ms| && Rows(column, t, ms[..n], f).Err?
    ensures Rows(column, t, ms, f) == Rows(column, t, ms[..n], f)
    decreases |ms|
  {
    hide OneRow;
    if n == |ms| {
      assert ms[..n] == ms;
    } else {
      assert ms[..|ms| - 1][..n] == ms[..n];
      RowsFail(column, t, ms[..|ms| - 1], f, n);
    }
  }

  // ---- What a retried batch has done ----

  lemma {:induction false} RowsAreUpserts(column: Column, t: Table, ms: seq<Metric>, f: Faults)
    requires Rows(column, t, ms, f).Ok?
    ensures UpsertAll(column, t, ms) == Some(Rows(column, t, ms, f).value.0)
    decreases |ms|
  {
    hide Upsert, AsMetric;
    if ms != [] {
      RowsAreUpserts(column, t, ms[..|ms| - 1], f);
    }
  }

  /** The rows go through exactly when every statement does and the connection does not break in one
      of them; a break there is the error, if no statement failed before. */
  lemma {:induction false} RowsExactly(column: Column, t: Table, ms: seq<Metric>, f: Faults)
    ensures Rows(column, t, ms, f).Ok? <==> UpsertAll(column, t, ms).Some? && !(f.row.Some? && f.row.value.0 < |ms|)
    ensures f.row.Some? && f.row.value.0 < |ms| && UpsertAll(column, t, ms[..f.row.value.0]).Some? ==>
              Rows(column, t, ms, f) == Err(f.row.value.1)
    decreases |ms|
  {
    hide Upsert, AsMetric;
    if ms != [] {
      var n := |ms| - 1;
      RowsExactly(column, t, ms[..n], f);
      if Rows(column, t, ms[..n], f).Ok? { RowsAreUpserts(column, t, ms[..n], f); }
      if f.row.Some? && f.row.value.0 < n { assert ms[..n][..f.row.value.0] == ms[..f.row.value.0]; }
    }
  }

  /** Element i of an answer is the row of its key after i + 1 elements, also when keys repeat. */
  ghost predicate RunningRows(column: Column, t: Table, ms: seq<Metric>, out: seq<Metric>) {
    && |out| == |ms|
    && forall i :: 0 <= i < |ms| ==> RunningRow(column, t, ms, i, out[i])
  }

  ghost predicate RunningRow(column: Column, t: Table, ms: seq<Metric>, i: nat, row: Metric)
    requires i < |ms|
  {
    var now := UpsertAll(column, t, ms[..i + 1]);
    now.Some? && Key(ms[i]) in now.value && row == AsMetric(now.value, Key(ms[i]))
  }

  lemma {:induction false} RowsAnswer(column: Column, t: Table, ms: seq<Metric>, f: Faults)
    requires Rows(column, t, ms, f).Ok?
    ensures RunningRows(column, t, ms, Rows(column, t, ms, f).value.1)
    decreases |ms|
  {
    hide AsMetric;
    if ms != [] {
      var n := |ms| - 1;
      RowsAnswer(column, t, ms[..n], f);
      RowsAreUpserts(column, t, ms, f);
      assert ms[..n + 1] == ms;
      forall i | 0 <= i < n
        ensures RunningRow(column, t, ms, i, Rows(column, t, ms, f).value.1[i])
      {
        assert ms[..n][..i + 1] == ms[..i + 1];
        assert RunningRow(column, t, ms[..n], i, Rows(column, t, ms[..n], f).value.1[i]);
      }
    }
  }

  /** The answer of a success is that of its last copy. */
  lemma {:induction false} SuccessAnswersLastCopy(column: Column, t: Table, ms: seq<Metric>, fs: seq<Faults>)
    requires fs != [] && Attempts(column, t, ms, fs).answer.Ok?
    ensures var before := Copies(column, t, ms, Ambiguities(column, t, ms, fs));
            before.Some? && RunningRows(column, before.value, ms, Attempts(column, t, ms, fs).answer.value)
    decreases |fs|
  {
    hide UpsertAll, Rows, RunningRows;
    var f := fs[0];
    var o := Attempt(column, t, ms, f);
    if f.begin.None? && Rows(column, t, ms, f).Ok? {
      RowsAreUpserts(column, t, ms, f);
      RowsAnswer(column, t, ms, f);
    }
    if o.answer.Err? {
      SuccessAnswersLastCopy(column, o.table, ms, fs[1..]);
    }
  }

  /** For every pattern of failures, the batch has been applied a whole number of times, never in
      part: after a success once more than there were ambiguous commits, between one and four
      times; after a failure exactly as often as there were. */
  lemma {:induction false} RetriedBatchIsWhole(column: Column, t: Table, ms: seq<Metric>, fs: seq<Faults>)
    requires fs != []
    ensures var k := Ambiguities(column, t, ms, fs) + if Attempts(column, t, ms, fs).answer.Ok? then 1 else 0;
            k <= |fs| && Copies(column, t, ms, k) == Some(Attempts(column, t, ms, fs).table)
    decreases |fs|
  {
    hide UpsertAll, Rows;
    var f := fs[0];
    var o := Attempt(column, t, ms, f);
    if f.begin.None? && Rows(column, t, ms, f).Ok? {
      RowsAreUpserts(column, t, ms, f);
    }
    if o.answer.Err? && IsRetriablePostgresError(o.answer.error) && |fs| > 1 {
      RetriedBatchIsWhole(column, o.table, ms, fs[1..]);
    }
  }

  /** An error a row carries decides on the retry, whatever the rollback says. */
  lemma RowErrorDecides(e: GoError, rollback: Option<GoError>)
    requires FirstPgCode(e).Some?
    ensures IsRetriablePostgresError(Joined(if rollback.Some? then [e, rollback.value] else [e])) <==>
            IsRetriablePostgresError(e)
  {
    var es := if rollback.Some? then [e, rollback.value] else [e];
    assert FirstPgCodeIn(es) == FirstPgCode(es[0]);
  }

  // ---- What a table holds after a batch, and after copies of it ----

  lemma UpsertEffect(column: Column, t: Table, m: Metric, k: MetricKey)
    requires IsValid(m) && Upsert(column, t, m).Ok?
    ensures var u := Upsert(column, t, m).value;
            && (k in u <==> k in t || k == Key(m))
            && (k in t && k != Key(m) ==> u[k] == t[k])
            && (k == Key(m) && k in t ==>
                  u[k] == if k.mtype == GAUGE then t[k].(value := m.value)
                          else if t[k].delta.None? then t[k]
                          else t[k].(delta := Some(t[k].delta.value + m.delta.value)))
            && (k == Key(m) && k !in t ==> u[k] == if k.mtype == GAUGE then Row(None, m.value) else Row(m.delta, None))
  {
  }

  /** What a batch, or copies of it, makes of a row: a counter gains the sum (NULL stays NULL), a
      gauge takes the last value, and the other column stays. */
  ghost predicate RowGains(t: Table, ms: seq<Metric>, k: MetricKey, sum: int, row: Row) {
    if k.mtype == GAUGE then
      row == (if k in t then t[k] else Row(None, None)).(value := LastValue(ms, k)) && row.value.Some?
    else
      && row.value == (if k in t then t[k].value else None)
      && if k in t && t[k].delta.None? then row.delta.None?
         else row.delta.Some? && row.delta.value == Base(t, k) + sum
  }

  function Base(t: Table, k: MetricKey): int {
    if k in t && t[k].delta.Some? then t[k].delta.value else 0
  }

  lemma {:induction false} BatchMeaning(column: Column, t: Table, ms: seq<Metric>, k: MetricKey)
    requires AllValid(ms) && UpsertAll(column, t, ms).Some?
    ensures var u := UpsertAll(column, t, ms).value;
            && (k in u <==> k in t || Mentions(ms, k))
            && (k in t && !Mentions(ms, k) ==> u[k] == t[k])
            && (Mentions(ms, k) ==> RowGains(t, ms, k, DeltaSum(ms, k), u[k]))
    decreases |ms|
  {
    if ms != [] {
      var front, m := ms[..|ms| - 1], ms[|ms| - 1];
      BatchMeaning(column, t, front, k);
      UpsertEffect(column, UpsertAll(column, t, front).value, m, k);
      MentionsLast(ms, k);
      if !Mentions(front, k) { NoMentionNoSum(front, k); }
    }
  }

  /** After k copies, gauges are as after one, and counters have gained k times the batch sum. */
  lemma {:induction false} CopiesMeaning(column: Column, t: Table, ms: seq<Metric>, n: nat, k: MetricKey)
    requires AllValid(ms) && n >= 1 && Copies(column, t, ms, n).Some?
    ensures var u := Copies(column, t, ms, n).value;
            && (k in u <==> k in t || Mentions(ms, k))
            && (k in t && !Mentions(ms, k) ==> u[k] == t[k])
            && (Mentions(ms, k) ==> RowGains(t, ms, k, n * DeltaSum(ms, k), u[k]))
    decreases n
  {
    hide UpsertAll, Mentions, DeltaSum, LastValue;
    BatchMeaning(column, t, ms, k);
    if n > 1 {
      CopiesMeaning(column, UpsertAll(column, t, ms).value, ms, n - 1, k);
      assert n * DeltaSum(ms, k) == DeltaSum(ms, k) + (n - 1) * DeltaSum(ms, k);
    }
  }

  lemma MentionedAreTyped(ms: seq<Metric>, k: MetricKey)
    requires AllValid(ms) && Mentions(ms, k)
    ensures k.mtype == COUNTER || k.mtype == GAUGE
  {
  }
}

/** The memory store and the Postgres store side by side: where they agree, and where they part. */
module TwoStores {
  import opened Metrics
  import opened StoreSpec
  import opened Postgres

  /** Adding element i takes the counter of its key out of BIGINT. */
  ghost predicate Overflows(t: Table, ms: seq<Metric>, i: nat)
    requires i < |ms|
  {
    var k := Key(ms[i]);
    && k.mtype == COUNTER && (k in t ==> t[k].delta.Some?)
    && !(-TWO_63 <= Base(t, k) + DeltaSum(ms[..i + 1], k) < TWO_63)
  }

  ghost predicate SomeOverflow(t: Table, ms: seq<Metric>) {
    exists i :: 0 <= i < |ms| && Overflows(t, ms, i)
  }

  /** The id column does not take the id of some metric. */
  predicate SomeRefused(column: Column, ms: seq<Metric>) {
    exists i :: 0 <= i < |ms| && column(ms[i].id).Some?
  }

  /** On valid metrics the statements of a batch fail exactly when the id of one is refused, or some
      running counter sum does not fit in 64 bits, even if a later delta would bring it back. */
  lemma {:induction false} FailsExactly(column: Column, t: Table, ms: seq<Metric>)
    requires AllValid(ms)
    ensures UpsertAll(column, t, ms).None? <==> SomeOverflow(t, ms) || SomeRefused(column, ms)
    decreases |ms|
  {
    if ms != [] {
      var n := |ms| - 1;
      FailsExactly(column, t, ms[..n]);
      OverflowLast(t, ms);
      assert SomeRefused(column, ms) <==> SomeRefused(column, ms[..n]) || column(ms[n].id).Some?;
      if UpsertAll(column, t, ms[..n]).Some? {
        LastStatement(column, t, ms);
      }
    }
  }

  lemma OverflowLast(t: Table, ms: seq<Metric>)
    requires ms != []
    ensures SomeOverflow(t, ms) <==> SomeOverflow(t, ms[..|ms| - 1]) || Overflows(t, ms, |ms| - 1)
  {
    hide Base, DeltaSum;
    var n := |ms| - 1;
    forall i | 0 <= i < n
      ensures Overflows(t, ms[..n], i) <==> Overflows(t, ms, i)
    {
      assert ms[..n][..i + 1] == ms[..i + 1];
    }
    if SomeOverflow(t, ms[..n]) {
      var i :| 0 <= i < n && Overflows(t, ms[..n], i);
      assert Overflows(t, ms, i);
    }
  }

  lemma LastStatement(column: Column, t: Table, ms: seq<Metric>)
    requires AllValid(ms) && ms != [] && UpsertAll(column, t, ms[..|ms| - 1]).Some?
    ensures UpsertAll(column, t, ms).None? <==> Overflows(t, ms, |ms| - 1) || column(ms[|ms| - 1].id).Some?
  {
    var front, m := ms[..|ms| - 1], ms[|ms| - 1];
    var k := Key(m);
    BatchMeaning(column, t, front, k);
    assert ms[..|ms|] == ms;
    if !Mentions(front, k) { NoMentionNoSum(front, k); }
    hide LastValue, Mentions;
  }

  // ---- Whole histories, when no connection fails ----

  /** A done context is all that can go wrong: begin reports it. */
  function CleanFaults(ctx: Ctx): seq<Faults> {
    var begin := if ctx == Live then None else Some(Other("context done"));
    seq(RETRIES + 1, _ => Faults(begin, None, None, None, false))
  }

  /** Every command is one call of SaveMetricsBatch. The history ends, with None, when the database
      refuses a command that the memory store takes. */
  function PostgresRun(column: Column, t: Table, cs: seq<Command>): Option<Table>
    decreases |cs|
  {
    if cs == [] then Some(t)
    else
      var c := cs[|cs| - 1];
      match PostgresRun(column, t, cs[..|cs| - 1])
      case None => None
      case Some(t') =>
        var o := BatchOutcome(column, t', Elements(c), CleanFaults(c.ctx));
        if Failure(c.ctx, Elements(c)).None? && o.answer.Err? then None else Some(o.table)
  }

  predicate FromStatement(e: GoError) {
    e == PgError("22003") || e == Refused(NotText) || e == Refused(TooLong) || e.Other?
  }

  lemma {:induction false} CleanRows(column: Column, t: Table, ms: seq<Metric>, f: Faults)
    requires f.row.None?
    ensures Rows(column, t, ms, f).Ok? <==> UpsertAll(column, t, ms).Some?
    ensures Rows(column, t, ms, f).Ok? ==> UpsertAll(column, t, ms) == Some(Rows(column, t, ms, f).value.0)
    ensures Rows(column, t, ms, f).Err? ==> FromStatement(Rows(column, t, ms, f).error)
    decreases |ms|
  {
    hide AsMetric;
    if ms != [] { CleanRows(column, t, ms[..|ms| - 1], f); }
  }

  /** A call without faults is the batch, or the failure of a statement, which is not retried and
      changes nothing. */
  lemma CleanAttempt(column: Column, t: Table, ms: seq<Metric>)
    ensures var o := Attempts(column, t, ms, CleanFaults(Live));
            && (o.answer.Ok? <==> UpsertAll(column, t, ms).Some?)
            && o.table == if UpsertAll(column, t, ms).Some? then UpsertAll(column, t, ms).value else t
  {
    hide Rows, UpsertAll;
    var f := CleanFaults(Live)[0];
    CleanRows(column, t, ms, f);
    NotRetried(column, t, ms, f);
  }

  lemma NotRetried(column: Column, t: Table, ms: seq<Metric>, f: Faults)
    requires f.begin.None? && f.rollback.None? && f.commit.None?
    requires Rows(column, t, ms, f).Err? ==> FromStatement(Rows(column, t, ms, f).error)
    ensures var o := Attempt(column, t, ms, f); o.answer.Err? ==> !IsRetriablePostgresError(o.answer.error)
  {
    hide Rows;
    if Rows(column, t, ms, f).Err? {
      var e := Rows(column, t, ms, f).error;
      assert FirstPgCodeIn([e]) == FirstPgCode(e) by { assert FirstPgCodeIn([e][1..]) == None; }
      assert !("08" <= "22003") && !("08" <= "22021") && !("08" <= "54000") by {
        assert "22003"[0] != "08"[0] && "22021"[0] != "08"[0] && "54000"[0] != "08"[0];
      }
    }
  }

  /** One command is one batch of statements, or no change. */
  lemma CommandStep(column: Column, t: Table, c: Command)
    ensures var o, ms := BatchOutcome(column, t, Elements(c), CleanFaults(c.ctx)), Elements(c);
            if Failure(c.ctx, ms).Some? then o.table == t && o.answer.Err?
            else && (o.answer.Ok? <==> UpsertAll(column, t, ms).Some?)
                 && (UpsertAll(column, t, ms).Some? ==> o.table == UpsertAll(column, t, ms).value)
  {
    hide UpsertAll, Rows, FirstInvalid;
    if c.ctx == Live { CleanAttempt(column, t, Elements(c)); }
  }

  lemma {:induction false} UpsertAllConcat(column: Column, t: Table, a: seq<Metric>, b: seq<Metric>)
    ensures UpsertAll(column, t, a + b) ==
            match UpsertAll(column, t, a) case None => None case Some(t') => UpsertAll(column, t', b)
    decreases |b|
  {
    hide Upsert;
    if b == [] {
      assert a + b == a;
    } else {
      UpsertAllConcat(column, t, a, b[..|b| - 1]);
      assert (a + b)[..|a + b| - 1] == a + b[..|b| - 1];
    }
  }

  lemma {:induction false} PostgresRunSavesAccepted(column: Column, t: Table, cs: seq<Command>)
    ensures PostgresRun(column, t, cs) == UpsertAll(column, t, Accepted(cs))
    decreases |cs|
  {
    hide Upsert, BatchOutcome, UpsertAll, Failure;
    if cs == [] {
      assert UpsertAll(column, t, []) == Some(t) by { NoStatements(column, t); }
    } else {
      var front, c := cs[..|cs| - 1], cs[|cs| - 1];
      PostgresRunSavesAccepted(column, t, front);
      if PostgresRun(column, t, front).Some? { CommandStep(column, PostgresRun(column, t, front).value, c); }
      assert Accepted(front) + [] == Accepted(front);
      UpsertAllConcat(column, t, Accepted(front), Elements(c));
    }
  }

  lemma NoStatements(column: Column, t: Table)
    ensures UpsertAll(column, t, []) == Some(t)
  {
  }

  /** Every call of SaveMetricsBatch succeeds wherever the memory store succeeds, exactly when the
      id column takes every id and no running counter sum leaves 64 bits. */
  lemma RunFailsExactly(column: Column, t: Table, cs: seq<Command>)
    ensures PostgresRun(column, t, cs).None? <==> SomeOverflow(t, Accepted(cs)) || SomeRefused(column, Accepted(cs))
  {
    hide UpsertAll, PostgresRun, Accepted, SomeOverflow, SomeRefused;
    RunSavesAccepted(cs);
    PostgresRunSavesAccepted(column, t, cs);
    FailsExactly(column, t, Accepted(cs));
  }

  /** For every history in which no id is refused and no running counter sum leaves 64 bits, both
      stores have the same keys, and every key has the same number in the field its type says. */
  lemma StoresAgree(column: Column, cs: seq<Command>, k: MetricKey)
    requires !SomeOverflow(map[], Accepted(cs)) && !SomeRefused(column, Accepted(cs))
    ensures PostgresRun(column, map[], cs).Some?
    ensures var t, memory := PostgresRun(column, map[], cs).value, Lookup(Run([], cs), k);
            && (k in t <==> memory.Some?)
            && (k in t && k.mtype == COUNTER ==> t[k].delta == memory.value.delta)
            && (k in t && k.mtype == GAUGE ==> t[k].value == memory.value.value)
            && (k in t ==> k.mtype == COUNTER || k.mtype == GAUGE)
  {
    hide SaveAll, UpsertAll, DeltaSum, LastValue, Accepted, Mentions, PostgresRun, Run, SomeOverflow, SomeRefused;
    var ms := Accepted(cs);
    RunSavesAccepted(cs);
    PostgresRunSavesAccepted(column, map[], cs);
    RunFailsExactly(column, map[], cs);
    HistoryMeaning(ms, k);
    BatchMeaning(column, map[], ms, k);
    if Mentions(ms, k) { MentionedAreTyped(ms, k); }
  }

  // ---- What the stores do not share ----

  /** Neither a hash nor a number of the other type. */
  predicate Plain(m: Metric) {
    m.hash == "" && (if m.mtype == COUNTER then m.value.None? else m.delta.None?)
  }

  lemma FindFront(ms: seq<Metric>, k: MetricKey)
    requires ms != []
    ensures Find(ms, k) == if Find(ms[..|ms| - 1], k).Some? then Find(ms[..|ms| - 1], k)
                           else if Key(ms[|ms| - 1]) == k then Some(|ms| - 1) else None
  {
    hide Find;
    var front := ms[..|ms| - 1];
    assert forall j :: 0 <= j < |front| ==> Key(front[j]) == Key(ms[j]);
  }

  /** The memory store keeps, of the first metric saved under a key, what belongs to no counter or
      gauge. */
  lemma {:induction false} FirstSaveStays(ms: seq<Metric>, k: MetricKey)
    requires AllValid(ms)
    ensures Find(ms, k).Some? <==> Lookup(SaveAll([], ms), k).Some?
    ensures Find(ms, k).Some? ==>
              var first, e := ms[Find(ms, k).value], Lookup(SaveAll([], ms), k).value;
              && Key(e) == k && e.hash == first.hash
              && (k.mtype == COUNTER ==> e.value == first.value) && (k.mtype == GAUGE ==> e.delta == first.delta)
    decreases |ms|
  {
    hide Find, Lookup;
    if ms == [] {
      NothingFound(k);
    } else {
      var front, m := ms[..|ms| - 1], ms[|ms| - 1];
      FirstSaveStays(front, k);
      FindFront(ms, k);
      SaveAllKeepsPositions([], front);
      SaveLookup(SaveAll([], front), m, k);
      assert COUNTER != GAUGE by { assert COUNTER[0] != GAUGE[0]; }
    }
  }

  lemma NothingFound(k: MetricKey)
    ensures Find([], k).None? && Lookup([], k).None?
  {
  }

  /** The stores return the same metric for a key, whole, if and only if the first metric saved under
      it had neither a hash nor a number of the other type. */
  lemma ForeignFieldsPart(column: Column, cs: seq<Command>, k: MetricKey)
    requires !SomeOverflow(map[], Accepted(cs)) && !SomeRefused(column, Accepted(cs)) && Find(Accepted(cs), k).Some?
    ensures PostgresRun(column, map[], cs).Some? && k in PostgresRun(column, map[], cs).value
    ensures Lookup(Run([], cs), k).Some?
    ensures AsMetric(PostgresRun(column, map[], cs).value, k) == Lookup(Run([], cs), k).value
            <==> Plain(Accepted(cs)[Find(Accepted(cs), k).value])
  {
    hide SaveAll, UpsertAll, DeltaSum, LastValue, Accepted, PostgresRun, Run, SomeOverflow, Find, Lookup;
    var ms := Accepted(cs);
    RunSavesAccepted(cs);
    PostgresRunSavesAccepted(column, map[], cs);
    StoresAgree(column, cs, k);
    FirstSaveStays(ms, k);
    BatchMeaning(column, map[], ms, k);
    FoundIsMentioned(ms, k);
  }

  lemma FoundIsMentioned(ms: seq<Metric>, k: MetricKey)
    requires Find(ms, k).Some?
    ensures Mentions(ms, k) && Key(ms[Find(ms, k).value]) == k
  {
  }

  function MaxAndOne(): seq<Metric> {
    [Metric("c", COUNTER, Some(TWO_63 - 1), None, ""), Metric("c", COUNTER, Some(1), None, "")]
  }

  /** Past 64 bits they part: the memory store wraps round, Postgres refuses and keeps the old row. */
  lemma OverflowParts(column: Column)
    requires column("c").None?
    ensures UpsertAll(column, map[], MaxAndOne()).None?
    ensures SaveAll([], MaxAndOne()) == [Metric("c", COUNTER, Some(-TWO_63), None, "")]
  {
    var ms := MaxAndOne();
    assert ms[..1] == [ms[0]] && ms[..1][..0] == [];
    assert SaveAll([], ms[..1]) == [ms[0]];
    assert SaveAll([], ms) == Save([ms[0]], ms[1]);
    assert Find([ms[0]], Key(ms[1])) == Some(0);
    assert UpsertAll(column, map[], ms[..1]) == Some(map[Key(ms[0]) := Row(ms[0].delta, None)]);
  }
}

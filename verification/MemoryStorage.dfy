/** internal/repository/memory.go: the in-memory store, with the slice, the index and the heap
    cells its pointers lead to. */
module MemoryStorage {
  import opened Metrics
  import opened StoreSpec

  class Int64Cell {
    var v: int64
    constructor (v: int64)
      ensures this.v == v
    { this.v := v; }
  }

  class Float64Cell {
    var v: Float64
    constructor (v: Float64)
      ensures this.v == v
    { this.v := v; }
  }

  /** models.Metrics as Go lays it out: the struct is a value, its two numbers are pointers. */
  datatype Record = Record(id: string, mtype: string, delta: Int64Cell?, value: Float64Cell?, hash: string)

  function RecordKey(m: Record): MetricKey {
    MetricKey(m.id, m.mtype)
  }

  /** Every cell m points to is in cells. */
  ghost predicate Within(m: Record, cells: set<object>) {
    CellsOf(m) <= cells
  }

  /** No cell m points to is in cells. */
  ghost predicate Outside(m: Record, cells: set<object>) {
    (m.delta != null ==> m.delta !in cells) && (m.value != null ==> m.value !in cells)
  }

  /** Every cell m points to belongs to position i. */
  ghost predicate OwnedBy(m: Record, i: nat, owner: map<object, nat>) {
    && (m.delta != null ==> m.delta in owner && owner[m.delta] == i)
    && (m.value != null ==> m.value in owner && owner[m.value] == i)
  }

  ghost function CellsOf(m: Record): set<object> {
    (if m.delta == null then {} else {m.delta}) + (if m.value == null then {} else {m.value})
  }

  ghost function Assign(owner: map<object, nat>, m: Record, i: nat): (r: map<object, nat>)
    ensures r.Keys == owner.Keys + CellsOf(m)
    ensures forall c :: c in owner && c !in CellsOf(m) ==> r[c] == owner[c]
    ensures OwnedBy(m, i, r)
  {
    var o := if m.delta == null then owner else owner[m.delta as object := i];
    if m.value == null then o else o[m.value as object := i]
  }

  function View(m: Record): Metric
    reads CellsOf(m)
  {
    Metric(m.id, m.mtype,
           if m.delta == null then None else Some(m.delta.v),
           if m.value == null then None else Some(m.value.v),
           m.hash)
  }

  ghost predicate Owns(ms: seq<Record>, owner: map<object, nat>)
    ensures Owns(ms, owner) ==> AllWithin(ms, owner.Keys)
  {
    forall i :: 0 <= i < |ms| ==> OwnedBy(ms[i], i, owner)
  }

  ghost predicate AllWithin(ms: seq<Record>, cells: set<object>) {
    forall i :: 0 <= i < |ms| ==> Within(ms[i], cells)
  }

  ghost function Views(ms: seq<Record>, cells: set<object>): (r: seq<Metric>)
    requires AllWithin(ms, cells)
    reads cells
    ensures |r| == |ms| && forall i :: 0 <= i < |ms| ==> r[i] == View(ms[i])
  {
    seq(|ms|, i requires 0 <= i < |ms| reads cells => assert Within(ms[i], cells); View(ms[i]))
  }

  /** The index is a bijection between the keys present and the positions. */
  ghost predicate Indexes(ms: seq<Record>, index: map<MetricKey, nat>) {
    && (forall i :: 0 <= i < |ms| ==> RecordKey(ms[i]) in index && index[RecordKey(ms[i])] == i)
    && (forall k :: k in index ==> index[k] < |ms| && RecordKey(ms[index[k]]) == k)
  }

  lemma IndexesUpdate(ms: seq<Record>, index: map<MetricKey, nat>, i: nat, m: Record)
    requires Indexes(ms, index) && i < |ms| && RecordKey(m) == RecordKey(ms[i])
    ensures Indexes(ms[i := m], index)
  {
  }

  lemma IndexesAppend(ms: seq<Record>, index: map<MetricKey, nat>, m: Record)
    requires Indexes(ms, index) && RecordKey(m) !in index
    ensures Indexes(ms + [m], index[RecordKey(m) := |ms|])
  {
  }

  lemma OwnsNothing()
    ensures Owns([], map[]) && Views([], {}) == []
  {
  }

  lemma OwnsUpdate(ms: seq<Record>, i: nat, m: Record, owner: map<object, nat>)
    requires Owns(ms, owner) && i < |ms|
    requires m.delta == ms[i].delta || m.delta == null || m.delta !in owner
    requires m.value == ms[i].value || m.value == null || m.value !in owner
    ensures Owns(ms[i := m], Assign(owner, m, i))
    ensures Views(ms[i := m], owner.Keys + CellsOf(m)) == Views(ms, owner.Keys)[i := View(m)]
  {
    var ms' := ms[i := m];
    forall j | 0 <= j < |ms'|
      ensures OwnedBy(ms'[j], j, Assign(owner, m, i))
    {
      assert OwnedBy(ms[j], j, owner);
    }
  }

  lemma OwnsAppend(ms: seq<Record>, m: Record, owner: map<object, nat>)
    requires Owns(ms, owner) && Outside(m, owner.Keys)
    ensures Owns(ms + [m], Assign(owner, m, |ms|))
    ensures Views(ms + [m], owner.Keys + CellsOf(m)) == Views(ms, owner.Keys) + [View(m)]
  {
    var ms' := ms + [m];
    forall j | 0 <= j < |ms'|
      ensures OwnedBy(ms'[j], j, Assign(owner, m, |ms|))
    {
      assert j < |ms| ==> OwnedBy(ms[j], j, owner);
    }
  }

  method CloneMetric(m: Record) returns (r: Record)
    ensures View(r) == View(m)
    ensures r.delta != null ==> fresh(r.delta)
    ensures r.value != null ==> fresh(r.value)
  {
    r := m;
    if m.delta != null {
      var delta := new Int64Cell(m.delta.v);
      r := r.(delta := delta);
    }
    if m.value != null {
      var value := new Float64Cell(m.value.v);
      r := r.(value := value);
    }
  }

  class Store {
    var metrics: seq<Record>
    var index: map<MetricKey, nat>

    /** The cells the store has allocated and may write through, each with the one position it
        serves: two entries never share a cell. */
    ghost var owner: map<object, nat>

    /** The index is exact, and every cell is the store's own and belongs to one record. */
    ghost predicate Valid()
      reads this
    {
      && Indexes(metrics, index)
      && Owns(metrics, owner)
      && this !in owner
    }

    ghost function Contents(): (s: seq<Metric>)
      requires Valid()
      reads this, owner.Keys
    {
      Views(metrics, owner.Keys)
    }

    constructor ()
      ensures Valid() && Contents() == [] && owner == map[]
    {
      metrics := [];
      index := map[];
      owner := map[];
    }

    /** The hash lookup finds what the linear scan finds. */
    lemma IndexIsScan(k: MetricKey)
      requires Valid()
      ensures UniqueKeys(Contents())
      ensures Find(Contents(), k) == if k in index then Some(index[k]) else None
    {
      var s := Contents();
      assert forall i :: 0 <= i < |s| ==> Key(s[i]) == RecordKey(metrics[i]);
      if k in index {
        assert Key(s[index[k]]) == k;
        FindUnique(s, index[k]);
      }
    }

    method GetMetricsByID(id: string, mtype: string) returns (r: Option<Record>)
      requires Valid()
      ensures r.Some? ==> r.value.delta != null ==> fresh(r.value.delta)
      ensures r.Some? ==> r.value.value != null ==> fresh(r.value.value)
      ensures r.Some? ==> Lookup(Contents(), MetricKey(id, mtype)) == Some(View(r.value))
      ensures r.None? ==> Lookup(Contents(), MetricKey(id, mtype)) == None
    {
      IndexIsScan(MetricKey(id, mtype));
      if MetricKey(id, mtype) !in index {
        return None;
      }
      var copy := CloneMetric(metrics[index[MetricKey(id, mtype)]]);
      r := Some(copy);
    }

    method GetAllMetrics() returns (r: seq<Record>, ghost cells: map<object, nat>)
      requires Valid()
      ensures fresh(cells.Keys) && Owns(r, cells)
      ensures Views(r, cells.Keys) == Contents()
    {
      hide Indexes;
      r, cells := [], map[];
      for i := 0 to |metrics|
        invariant fresh(cells.Keys) && |r| == i && Owns(r, cells)
        invariant Views(r, cells.Keys) == Contents()[..i]
      {
        var copy := CloneMetric(metrics[i]);
        OwnsAppend(r, copy, cells);
        cells := Assign(cells, copy, i);
        r := r + [copy];
      }
    }

    /** The body of every save, under the write lock. The caller's cells are only read; the store's
        own counter cells are updated in place; the answer is a copy. */
    method SaveMetricsLocked(m: Record) returns (r: Record)
      requires Valid() && Outside(m, owner.Keys)
      modifies this, owner.Keys
      ensures Valid() && fresh(owner.Keys - old(owner.Keys))
      ensures Contents() == Save(old(Contents()), old(View(m)))
      ensures r.delta != null ==> fresh(r.delta)
      ensures r.value != null ==> fresh(r.value)
      ensures Outside(r, owner.Keys)
      ensures Lookup(Contents(), RecordKey(m)) == Some(View(r))
    {
      hide Owns, OwnedBy, AllWithin, UniqueKeys;
      IndexIsScan(RecordKey(m));
      if RecordKey(m) in index {
        UpdateInPlace(index[RecordKey(m)], m);
      } else {
        Append(m);
      }
      IndexIsScan(RecordKey(m));
      r := CloneMetric(metrics[index[RecordKey(m)]]);
    }

    lemma CellsAreOwned(i: nat)
      requires Valid() && i < |metrics|
      ensures CellsOf(metrics[i]) <= owner.Keys && |Contents()| == |metrics|
    {
      assert OwnedBy(metrics[i], i, owner);
    }

    method UpdateInPlace(i: nat, m: Record)
      requires Valid() && i < |metrics| && RecordKey(metrics[i]) == RecordKey(m) && Outside(m, owner.Keys)
      modifies this`metrics, this`owner, owner.Keys
      ensures Valid() && fresh(owner.Keys - old(owner.Keys))
      ensures Contents() == old(Contents())[i := Merge(old(Contents())[i], old(View(m)))]
    {
      hide Valid, Contents;
      CellsAreOwned(i);
      if m.mtype == COUNTER && m.delta != null {
        AddDelta(i, m.delta.v);
      } else if m.mtype == GAUGE && m.value != null {
        SetValue(i, m.value.v);
      }
    }

    /** A counter without a number gets a cell; otherwise += goes through the stored pointer. */
    method AddDelta(i: nat, d: int64)
      requires Valid() && i < |metrics|
      modifies this`metrics, this`owner, metrics[i].delta
      ensures Valid() && fresh(owner.Keys - old(owner.Keys)) && index == old(index)
      ensures Contents() == var e := old(Contents())[i];
              old(Contents())[i := e.(delta := Some(if e.delta.None? then d else Wrap(e.delta.value + d)))]
    {
      if metrics[i].delta == null {
        var deltaCopy := new Int64Cell(d);
        SwapCells(i, metrics[i].(delta := deltaCopy));
      } else {
        AddThroughPointer(i, d);
      }
    }

    method AddThroughPointer(i: nat, d: int64)
      requires Valid() && i < |metrics| && metrics[i].delta != null
      modifies metrics[i].delta
      ensures Valid()
      ensures Contents() == var e := old(Contents())[i];
              old(Contents())[i := e.(delta := Some(Wrap(e.delta.value + d)))]
    {
      hide Indexes;
      metrics[i].delta.v := Wrap(metrics[i].delta.v + d);
      forall j | 0 <= j < |metrics| && j != i
        ensures View(metrics[j]) == old(View(metrics[j]))
      {
        assert OwnedBy(metrics[i], i, owner) && OwnedBy(metrics[j], j, owner);
      }
    }

    method SetValue(i: nat, v: Float64)
      requires Valid() && i < |metrics|
      modifies this`metrics, this`owner
      ensures Valid() && fresh(owner.Keys - old(owner.Keys)) && index == old(index)
      ensures Contents() == old(Contents())[i := old(Contents())[i].(value := Some(v))]
    {
      var valueCopy := new Float64Cell(v);
      SwapCells(i, metrics[i].(value := valueCopy));
    }

    method SwapCells(i: nat, m: Record)
      requires Valid() && i < |metrics| && RecordKey(metrics[i]) == RecordKey(m)
      requires m.delta == metrics[i].delta || m.delta == null || m.delta !in owner
      requires m.value == metrics[i].value || m.value == null || m.value !in owner
      requires this !in CellsOf(m)
      modifies this`metrics, this`owner
      ensures Valid() && owner.Keys == old(owner.Keys) + CellsOf(m)
      ensures metrics == old(metrics)[i := m]
      ensures Contents() == old(Contents())[i := View(m)]
    {
      hide Indexes, Owns, OwnedBy, AllWithin;
      OwnsUpdate(metrics, i, m, owner);
      IndexesUpdate(metrics, index, i, m);
      owner := Assign(owner, m, i);
      metrics := metrics[i := m];
    }

    method Append(m: Record)
      requires Valid() && RecordKey(m) !in index
      modifies this
      ensures Valid() && fresh(owner.Keys - old(owner.Keys))
      ensures RecordKey(m) in index
      ensures Contents() == old(Contents()) + [old(View(m))]
    {
      var own := CloneMetric(m);
      AppendOwn(own);
    }

    method AppendOwn(own: Record)
      requires Valid() && RecordKey(own) !in index && Outside(own, owner.Keys)
      modifies this
      ensures Valid() && owner.Keys == old(owner.Keys) + CellsOf(own)
      ensures RecordKey(own) in index
      ensures Contents() == old(Contents()) + [View(own)]
    {
      hide Owns, OwnedBy, AllWithin, Indexes, Views, View;
      OwnsAppend(metrics, own, owner);
      IndexesAppend(metrics, index, own);
      owner := Assign(owner, own, |metrics|);
      metrics := metrics + [own];
      index := index[RecordKey(own) := |metrics| - 1];
    }

    method SaveMetrics(ctx: Ctx, m: Record) returns (r: Result<Record, StoreError>)
      requires Valid() && Outside(m, owner.Keys)
      modifies this, owner.Keys
      ensures Valid() && fresh(owner.Keys - old(owner.Keys))
      ensures Contents() == Apply(old(Contents()), SaveOne(ctx, old(View(m))))
      ensures r.Err? ==> Failure(ctx, [old(View(m))]) == Some(r.error)
      ensures r.Ok? ==> Failure(ctx, [old(View(m))]).None? && Lookup(Contents(), RecordKey(m)) == Some(View(r.value))
      ensures r.Ok? ==> r.value.delta != null ==> fresh(r.value.delta)
      ensures r.Ok? ==> r.value.value != null ==> fresh(r.value.value)
      ensures r.Ok? ==> Outside(r.value, owner.Keys)
    {
      assert View(m) == [View(m)][0];
      if ctx == DoneOnEntry {
        return Err(ContextDone);
      }
      var invalid := Validate(View(m));
      if invalid.Some? {
        return Err(Rejected(invalid.value));
      }
      if ctx == DoneAtLock {
        return Err(ContextDone);
      }
      assert SaveAll(Contents(), [View(m)]) == Save(Contents(), View(m)) by {
        assert [View(m)][..0] == [];
      }
      var saved := SaveMetricsLocked(m);
      r := Ok(saved);
    }

    /** The cells of a batch are in `cells`, none of them the store's; those of the answer are the
        keys of `answer`, all of them new and each serving one record. */
    method SaveMetricsBatch(ctx: Ctx, ms: seq<Record>, ghost cells: set<object>)
      returns (r: Result<seq<Record>, StoreError>, ghost answer: map<object, nat>)
      requires Valid() && AllWithin(ms, cells) && cells !! owner.Keys && this !in cells
      modifies this, owner.Keys
      ensures Valid() && fresh(owner.Keys - old(owner.Keys))
      ensures Contents() == Apply(old(Contents()), SaveBatch(ctx, old(Views(ms, cells))))
      ensures r.Err? ==> Failure(ctx, old(Views(ms, cells))) == Some(r.error)
      ensures r.Ok? ==> Failure(ctx, old(Views(ms, cells))).None? && |r.value| == |ms|
      ensures fresh(answer.Keys) && answer.Keys !! owner.Keys && (r.Ok? ==> Owns(r.value, answer))
      ensures r.Ok? ==> Answers(old(Contents()), old(Views(ms, cells)), Views(r.value, answer.Keys))
    {
      answer := map[];
      if ctx == DoneOnEntry {
        return Err(ContextDone), answer;
      }
      var invalid := ValidateAll(ms, cells);
      if invalid.Some? {
        return Err(Rejected(invalid.value)), answer;
      }
      if ctx == DoneAtLock {
        return Err(ContextDone), answer;
      }
      var saved;
      saved, answer := SaveEach(ms, cells);
      r := Ok(saved);
    }

    method ValidateAll(ms: seq<Record>, ghost cells: set<object>) returns (r: Option<MetricError>)
      requires AllWithin(ms, cells)
      ensures r == FirstInvalid(Views(ms, cells))
    {
      ghost var vs := Views(ms, cells);
      for i := 0 to |ms|
        invariant FirstInvalid(vs) == FirstInvalid(vs[i..])
      {
        var invalid := Validate(View(ms[i]));
        assert vs[i..][1..] == vs[i + 1..];
        if invalid.Some? {
          return invalid;
        }
      }
      return None;
    }

    method SaveEach(ms: seq<Record>, ghost cells: set<object>) returns (saved: seq<Record>, ghost answer: map<object, nat>)
      requires Valid() && AllWithin(ms, cells) && cells !! owner.Keys && this !in cells
      modifies this, owner.Keys
      ensures Valid() && fresh(owner.Keys - old(owner.Keys))
      ensures Contents() == SaveAll(old(Contents()), old(Views(ms, cells)))
      ensures fresh(answer.Keys) && answer.Keys !! owner.Keys && |saved| == |ms| && Owns(saved, answer)
      ensures Answers(old(Contents()), old(Views(ms, cells)), Views(saved, answer.Keys))
    {
      hide Valid, Contents, Views, Answers, SaveAll, Save, Lookup, AllWithin, Owns;
      saved, answer := [], map[];
      ghost var before, vs := Contents(), Views(ms, cells);
      OwnsNothing();
      AnswersNothing(before, vs);
      for i := 0 to |ms|
        invariant Valid() && fresh(owner.Keys - old(owner.Keys)) && cells !! owner.Keys
        invariant Views(ms, cells) == vs
        invariant Contents() == SaveAll(before, vs[..i])
        invariant fresh(answer.Keys) && answer.Keys !! owner.Keys && |saved| == i && Owns(saved, answer)
        invariant Answers(before, vs, Views(saved, answer.Keys))
      {
        ghost var out := Views(saved, answer.Keys);
        saved, answer := SaveAndCollect(ms, i, cells, saved, answer);
        AnswersStep(before, vs, out, Views(saved, answer.Keys)[i]);
      }
      assert vs[..|ms|] == vs;
    }

    method SaveAndCollect(ms: seq<Record>, i: nat, ghost cells: set<object>, saved: seq<Record>, ghost answer: map<object, nat>)
      returns (saved': seq<Record>, ghost answer': map<object, nat>)
      requires Valid() && i < |ms| && AllWithin(ms, cells) && cells !! owner.Keys && this !in cells
      requires Owns(saved, answer) && answer.Keys !! owner.Keys && this !in answer
      modifies this, owner.Keys
      ensures Valid() && fresh(owner.Keys - old(owner.Keys)) && cells !! owner.Keys
      ensures Views(ms, cells) == old(Views(ms, cells))
      ensures Contents() == Save(old(Contents()), Views(ms, cells)[i])
      ensures Owns(saved', answer') && answer'.Keys !! owner.Keys && fresh(answer'.Keys - answer.Keys)
      ensures |saved'| == |saved| + 1
      ensures Lookup(Contents(), Key(Views(ms, cells)[i])) == Some(Views(saved', answer'.Keys)[|saved|])
      ensures Views(saved', answer'.Keys) == old(Views(saved, answer.Keys)) + [Views(saved', answer'.Keys)[|saved|]]
    {
      hide Indexes, Owns, Save, Lookup;
      ghost var out := Views(saved, answer.Keys);
      assert Within(ms[i], cells);
      var one := SaveMetricsLocked(ms[i]);
      assert Views(saved, answer.Keys) == out;
      OwnsAppend(saved, one, answer);
      answer' := Assign(answer, one, |saved|);
      saved' := saved + [one];
    }
  }
}

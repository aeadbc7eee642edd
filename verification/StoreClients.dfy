/** Every caller of the in-memory store at once: a client that may keep any cell it ever passed in or
    got back, write to it at any time, and issue any commands. Seen through its cells the real
    heap behaves like a world without pointers, in which every metric is copied. */
module StoreClients {
  import opened Metrics
  import opened StoreSpec
  import opened MemoryStorage

  /** A metric a client builds; its numbers name cells the client knows, or are nil. */
  datatype Arg = Arg(id: string, mtype: string, delta: Option<nat>, value: Option<nat>, hash: string)

  datatype Action =
    | NewDelta(d: int64)
    | NewValue(v: Float64)
    | WriteDelta(cell: nat, d: int64)
    | WriteValue(cell: nat, v: Float64)
    | Save(ctx: Ctx, arg: Arg)
    | SaveMany(ctx: Ctx, args: seq<Arg>)
    | Get(key: MetricKey)
    | GetAll

  /** The world without pointers: the store's metrics, and the number in each cell the client knows. */
  datatype World = World(store: seq<Metric>, deltas: seq<int64>, values: seq<Float64>)

  function ToMetric(w: World, a: Arg): Metric {
    Metric(a.id, a.mtype,
           if a.delta.Some? && a.delta.value < |w.deltas| then Some(w.deltas[a.delta.value]) else None,
           if a.value.Some? && a.value.value < |w.values| then Some(w.values[a.value.value]) else None,
           a.hash)
  }

  function ToMetrics(w: World, args: seq<Arg>): (r: seq<Metric>) {
    seq(|args|, i requires 0 <= i < |args| => ToMetric(w, args[i]))
  }

  /** The client keeps the cells of an answer. */
  function Receive(w: World, m: Metric): World {
    w.(deltas := if m.delta.Some? then w.deltas + [m.delta.value] else w.deltas,
       values := if m.value.Some? then w.values + [m.value.value] else w.values)
  }

  function ReceiveAll(w: World, ms: seq<Metric>): World
    decreases |ms|
  {
    if ms == [] then w else Receive(ReceiveAll(w, ms[..|ms| - 1]), ms[|ms| - 1])
  }

  function BatchAnswer(s: seq<Metric>, ms: seq<Metric>): (r: seq<Metric>)
    ensures |r| == |ms|
  {
    seq(|ms|, i requires 0 <= i < |ms| =>
      match Lookup(SaveAll(s, ms[..i + 1]), Key(ms[i])) case Some(m) => m case None => ms[i])
  }

  lemma AnswersAreBatchAnswer(s: seq<Metric>, ms: seq<Metric>, out: seq<Metric>)
    requires Answers(s, ms, out) && |out| == |ms|
    ensures out == BatchAnswer(s, ms)
  {
    forall i | 0 <= i < |ms|
      ensures out[i] == BatchAnswer(s, ms)[i]
    {
      assert Lookup(SaveAll(s, ms[..i + 1]), Key(ms[i])) == Some(out[i]);
    }
  }

  lemma SingleAnswer(s: seq<Metric>, m: Metric, saved: Metric)
    requires IsValid(m) && Lookup(Apply(s, SaveOne(Live, m)), Key(m)) == Some(saved)
    ensures BatchAnswer(s, [m]) == [saved]
    ensures forall w :: ReceiveAll(w, [saved]) == Receive(w, saved)
  {
    assert [m][..1] == [m] && AllValid([m]);
    forall w
      ensures ReceiveAll(w, [saved]) == Receive(w, saved)
    {
      assert [saved][..0] == [];
    }
  }

  function StepCommand(w: World, c: Command, answer: seq<Metric>): World {
    if Failure(c.ctx, Elements(c)).Some? then w
    else ReceiveAll(w.(store := Apply(w.store, c)), answer)
  }

  function Step(w: World, a: Action): World {
    match a
    case NewDelta(d) => w.(deltas := w.deltas + [d])
    case NewValue(v) => w.(values := w.values + [v])
    case WriteDelta(c, d) => if c < |w.deltas| then w.(deltas := w.deltas[c := d]) else w
    case WriteValue(c, v) => if c < |w.values| then w.(values := w.values[c := v]) else w
    case Save(ctx, arg) =>
      var m := ToMetric(w, arg);
      StepCommand(w, SaveOne(ctx, m), BatchAnswer(w.store, [m]))
    case SaveMany(ctx, args) =>
      var ms := ToMetrics(w, args);
      StepCommand(w, SaveBatch(ctx, ms), BatchAnswer(w.store, ms))
    case Get(k) => (match Lookup(w.store, k) case None => w case Some(m) => Receive(w, m))
    case GetAll => ReceiveAll(w, w.store)
  }

  function RunActions(w: World, actions: seq<Action>): World
    decreases |actions|
  {
    if actions == [] then w else Step(RunActions(w, actions[..|actions| - 1]), actions[|actions| - 1])
  }

  /** The commands among a list of actions, with the numbers their cells held at the time. */
  function Commands(actions: seq<Action>): seq<Command>
    decreases |actions|
  {
    if actions == [] then []
    else
      var front, a := actions[..|actions| - 1], actions[|actions| - 1];
      var w := RunActions(World([], [], []), front);
      Commands(front) +
      match a
      case Save(ctx, arg) => [SaveOne(ctx, ToMetric(w, arg))]
      case SaveMany(ctx, args) => [SaveBatch(ctx, ToMetrics(w, args))]
      case _ => []
  }

  /** Only commands change the store: writes to cells, reads and answers do not. */
  lemma {:induction false} OnlyCommandsMatter(actions: seq<Action>)
    ensures RunActions(World([], [], []), actions).store == Run([], Commands(actions))
    decreases |actions|
  {
    if actions != [] {
      var front, a := actions[..|actions| - 1], actions[|actions| - 1];
      OnlyCommandsMatter(front);
      var w := RunActions(World([], [], []), front);
      match a {
        case Save(ctx, arg) =>
          var m := ToMetric(w, arg);
          ReceiveKeepsStore(w.(store := Apply(w.store, SaveOne(ctx, m))), BatchAnswer(w.store, [m]));
          assert Commands(actions)[..|Commands(front)|] == Commands(front);
        case SaveMany(ctx, args) =>
          var ms := ToMetrics(w, args);
          ReceiveKeepsStore(w.(store := Apply(w.store, SaveBatch(ctx, ms))), BatchAnswer(w.store, ms));
          assert Commands(actions)[..|Commands(front)|] == Commands(front);
        case GetAll =>
          ReceiveKeepsStore(w, w.store);
          assert Commands(actions) == Commands(front);
        case _ =>
          assert Commands(actions) == Commands(front);
      }
    }
  }

  lemma {:induction false} ReceiveKeepsStore(w: World, ms: seq<Metric>)
    ensures ReceiveAll(w, ms).store == w.store
    decreases |ms|
  {
    if ms != [] { ReceiveKeepsStore(w, ms[..|ms| - 1]); }
  }

  class Client {
    const store: Store
    var deltas: seq<Int64Cell>
    var values: seq<Float64Cell>

    /** Each known cell with its place in the lists. */
    ghost var place: map<object, nat>

    ghost predicate Placed()
      reads this
    {
      && (forall i :: 0 <= i < |deltas| ==> deltas[i] in place && place[deltas[i]] == i)
      && (forall i :: 0 <= i < |values| ==> values[i] in place && place[values[i]] == i)
    }

    /** No cell the client knows is a cell of the store. */
    ghost predicate Valid()
      reads this, store
    {
      && store.Valid() && Placed()
      && place.Keys !! store.owner.Keys
      && this !in place && store !in place && this !in store.owner
    }

    ghost function Deltas(): (r: seq<int64>)
      requires Placed()
      reads this, place.Keys
      ensures |r| == |deltas| && forall i :: 0 <= i < |r| ==> r[i] == deltas[i].v
    {
      seq(|deltas|, i requires 0 <= i < |deltas| && deltas[i] in place reads this, place.Keys => deltas[i].v)
    }

    ghost function Values(): (r: seq<Float64>)
      requires Placed()
      reads this, place.Keys
      ensures |r| == |values| && forall i :: 0 <= i < |r| ==> r[i] == values[i].v
    {
      seq(|values|, i requires 0 <= i < |values| && values[i] in place reads this, place.Keys => values[i].v)
    }

    ghost function TheWorld(): World
      requires Valid()
      reads this, store, store.owner.Keys, place.Keys
    {
      World(store.Contents(), Deltas(), Values())
    }

    constructor ()
      ensures Valid() && TheWorld() == World([], [], []) && fresh(store) && place == map[] && store.owner == map[]
    {
      store := new Store();
      deltas, values, place := [], [], map[];
    }

    method KeepDelta(c: Int64Cell)
      requires Valid() && c !in place && c !in store.owner
      modifies this
      ensures Valid() && place.Keys == old(place.Keys) + {c}
      ensures TheWorld() == old(TheWorld()).(deltas := old(Deltas()) + [c.v])
    {
      place := place[c as object := |deltas|];
      deltas := deltas + [c];
      assert Deltas() == old(Deltas()) + [c.v];
    }

    method KeepValue(c: Float64Cell)
      requires Valid() && c !in place && c !in store.owner
      modifies this
      ensures Valid() && place.Keys == old(place.Keys) + {c}
      ensures TheWorld() == old(TheWorld()).(values := old(Values()) + [c.v])
    {
      place := place[c as object := |values|];
      values := values + [c];
      assert Values() == old(Values()) + [c.v];
    }

    method KeepRecord(r: Record)
      requires Valid() && Outside(r, place.Keys) && Outside(r, store.owner.Keys)
      modifies this
      ensures Valid() && place.Keys == old(place.Keys) + CellsOf(r)
      ensures TheWorld() == Receive(old(TheWorld()), View(r))
    {
      if r.delta != null { KeepDelta(r.delta); }
      if r.value != null { KeepValue(r.value); }
    }

    method KeepRecords(rs: seq<Record>, ghost cells: map<object, nat>)
      requires Valid() && Owns(rs, cells) && cells.Keys !! place.Keys && cells.Keys !! store.owner.Keys && this !in cells && store !in cells
      modifies this
      ensures Valid() && place.Keys <= old(place.Keys) + cells.Keys
      ensures TheWorld() == ReceiveAll(old(TheWorld()), Views(rs, cells.Keys))
    {
      hide Placed, AllWithin, Receive;
      ghost var w, vs := TheWorld(), Views(rs, cells.Keys);
      for k := 0 to |rs|
        invariant Valid() && place.Keys <= old(place.Keys) + cells.Keys
        invariant forall c :: c in place && c in cells ==> cells[c] < k
        invariant TheWorld() == ReceiveAll(w, vs[..k])
      {
        assert vs[..k + 1][..k] == vs[..k];
        assert OwnedBy(rs[k], k, cells);
        KeepRecord(rs[k]);
      }
      assert vs[..|rs|] == vs;
    }

    method Build(a: Arg) returns (m: Record)
      requires Valid()
      ensures Within(m, place.Keys) && View(m) == ToMetric(TheWorld(), a)
    {
      var delta: Int64Cell? := null;
      if a.delta.Some? && a.delta.value < |deltas| { delta := deltas[a.delta.value]; }
      var value: Float64Cell? := null;
      if a.value.Some? && a.value.value < |values| { value := values[a.value.value]; }
      m := Record(a.id, a.mtype, delta, value, a.hash);
    }

    method BuildAll(args: seq<Arg>) returns (ms: seq<Record>)
      requires Valid()
      ensures AllWithin(ms, place.Keys) && Views(ms, place.Keys) == ToMetrics(TheWorld(), args)
    {
      ms := [];
      for i := 0 to |args|
        invariant |ms| == i && AllWithin(ms, place.Keys)
        invariant forall j :: 0 <= j < i ==> View(ms[j]) == ToMetric(TheWorld(), args[j])
      {
        var m := Build(args[i]);
        ms := ms + [m];
      }
    }

    method DoSave(ctx: Ctx, arg: Arg)
      requires Valid()
      modifies this, store, store.owner.Keys
      ensures Valid() && fresh(place.Keys - old(place.Keys)) && fresh(store.owner.Keys - old(store.owner.Keys))
      ensures TheWorld() == Step(old(TheWorld()), Save(ctx, arg))
    {
      hide Placed, Lookup, ReceiveAll, Receive, BatchAnswer;
      ghost var w := TheWorld();
      var m := Build(arg);
      ghost var v := View(m);
      ghost var ds, vs := Deltas(), Values();
      var r := store.SaveMetrics(ctx, m);
      assert Deltas() == ds && Values() == vs;
      if r.Ok? {
        SingleAnswer(w.store, v, View(r.value));
        KeepRecord(r.value);
      }
    }

    method DoSaveMany(ctx: Ctx, args: seq<Arg>)
      requires Valid()
      modifies this, store, store.owner.Keys
      ensures Valid() && fresh(place.Keys - old(place.Keys)) && fresh(store.owner.Keys - old(store.owner.Keys))
      ensures TheWorld() == Step(old(TheWorld()), SaveMany(ctx, args))
    {
      hide Placed, Lookup, ReceiveAll, Receive, BatchAnswer, Answers, Owns, AllWithin, SaveAll, UniqueKeys, FirstInvalid;
      ghost var w := TheWorld();
      var ms := BuildAll(args);
      ghost var sent := Views(ms, place.Keys);
      ghost var ds, vs := Deltas(), Values();
      var r, answer := store.SaveMetricsBatch(ctx, ms, place.Keys);
      assert Deltas() == ds && Values() == vs;
      if r.Ok? {
        AnswersAreBatchAnswer(w.store, sent, Views(r.value, answer.Keys));
        KeepRecords(r.value, answer);
      }
    }

    method DoGet(k: MetricKey)
      requires Valid()
      modifies this
      ensures Valid() && fresh(place.Keys - old(place.Keys))
      ensures TheWorld() == Step(old(TheWorld()), Get(k))
    {
      hide Placed, Receive, Lookup;
      var r := store.GetMetricsByID(k.id, k.mtype);
      if r.Some? { KeepRecord(r.value); }
    }

    method DoGetAll()
      requires Valid()
      modifies this
      ensures Valid() && fresh(place.Keys - old(place.Keys))
      ensures TheWorld() == Step(old(TheWorld()), GetAll)
    {
      hide Placed, Owns, AllWithin, ReceiveAll;
      var rs, cells := store.GetAllMetrics();
      KeepRecords(rs, cells);
    }

    method DoLocal(a: Action)
      requires Valid() && (a.NewDelta? || a.NewValue? || a.WriteDelta? || a.WriteValue?)
      modifies this, place.Keys
      ensures Valid() && fresh(place.Keys - old(place.Keys)) && store.owner == old(store.owner)
      ensures TheWorld() == Step(old(TheWorld()), a)
    {
      match a {
        case NewDelta(d) =>
          var c := new Int64Cell(d);
          KeepDelta(c);
        case NewValue(v) =>
          var c := new Float64Cell(v);
          KeepValue(c);
        case WriteDelta(c, d) =>
          if c < |deltas| {
            deltas[c].v := d;
            assert Deltas() == old(Deltas())[c := d] && Values() == old(Values());
          }
        case WriteValue(c, v) =>
          if c < |values| {
            values[c].v := v;
            assert Values() == old(Values())[c := v] && Deltas() == old(Deltas());
          }
      }
    }

    /** Whatever a client does through the pointers it holds, store and client together end in
        the world without pointers: no write of the client reaches the store, and no later save
        changes an earlier answer. */
    method RunSession(actions: seq<Action>)
      requires Valid()
      modifies this, store, store.owner.Keys, place.Keys
      ensures Valid()
      ensures TheWorld() == RunActions(old(TheWorld()), actions)
    {
      hide Valid, TheWorld, Step;
      ghost var w := TheWorld();
      for i := 0 to |actions|
        invariant Valid()
        invariant fresh(place.Keys - old(place.Keys)) && fresh(store.owner.Keys - old(store.owner.Keys))
        invariant TheWorld() == RunActions(w, actions[..i])
      {
        assert actions[..i + 1][..i] == actions[..i];
        match actions[i] {
          case Save(ctx, arg) => DoSave(ctx, arg);
          case SaveMany(ctx, args) => DoSaveMany(ctx, args);
          case Get(k) => DoGet(k);
          case GetAll => DoGetAll();
          case _ => DoLocal(actions[i]);
        }
      }
      assert actions[..|actions|] == actions;
    }
  }
}

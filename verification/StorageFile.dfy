/** internal/server/file_converter/file_converter.go and the restore loop of
    internal/server/server.go: the storage file, step by step. */
module StorageFile {
  import opened Metrics
  import opened StoreSpec
  import opened MemoryStorage
  import opened SnapshotCodec

  /** Which system call fails, if any. */
  datatype Faults = Faults(create: bool, write: bool, sync: bool, close: bool, rename: bool)

  /** The file is as before, or it holds the whole new document. */
  ghost predicate OldOrNew(before: map<string, Content>, now: map<string, Content>, name: string, doc: Option<Document>) {
    || ((name in now <==> name in before) && (name in before ==> now[name] == before[name]))
    || (doc.Some? && name in now && now[name] == Whole(doc.value))
  }

  lemma OtherFile(before: map<string, Content>, temp: string, c: Content, name: string, doc: Option<Document>)
    requires temp !in before && temp != name
    ensures OldOrNew(before, before[temp := c], name, doc)
    ensures before[temp := c] - {temp} == before
  {
  }

  lemma Replaced(before: map<string, Content>, name: string, doc: Option<Document>)
    requires doc.Some?
    ensures OldOrNew(before, before[name := Whole(doc.value)], name, doc)
  {
  }

  class Disk {
    var files: map<string, Content>

    /** Every state the disk has been in since the trace was cleared: where a crash could leave it. */
    ghost var trace: seq<map<string, Content>>

    method Put(name: string, content: Content)
      modifies this
      ensures files == old(files)[name := content] && trace == old(trace) + [files]
    {
      files := files[name := content];
      trace := trace + [files];
    }

    method Rename(from: string, to: string)
      requires from in files && from != to
      modifies this
      ensures files == (old(files) - {from})[to := old(files)[from]] && trace == old(trace) + [files]
    {
      files := (files - {from})[to := files[from]];
      trace := trace + [files];
    }

    method Remove(name: string)
      modifies this
      ensures files == old(files) - {name} && trace == old(trace) + [files]
    {
      files := files - {name};
      trace := trace + [files];
    }

    /** WriteEvent: the list goes into a temporary file, which is renamed over the target and, when
        anything fails, removed. Whenever the process stops in between, the target is the previous
        file or the complete new one. */
    method WriteEvent(filename: string, scrub: Scrub, metricsList: seq<Metric>, temp: string, faults: Faults) returns (ok: bool)
      requires temp !in files && temp != filename
      modifies this
      ensures ok <==> faults == Faults(false, false, false, false, false) && Encode(scrub, metricsList).Some?
      ensures files == if ok then old(files)[filename := Whole(Encode(scrub, metricsList).value)] else old(files)
      ensures old(trace) <= trace
      ensures forall now :: now in trace[|old(trace)|..] ==> OldOrNew(old(files), now, filename, Encode(scrub, metricsList))
    {
      if faults.create {
        return false;
      }
      ghost var before := files;
      Put(temp, Empty);
      ok := FillAndRename(filename, scrub, metricsList, temp, faults, before);
      Remove(temp);
      if !ok {
        assert files == before;
      }
    }

    /** The encoder builds the whole text before it writes; then sync, close and rename. */
    method FillAndRename(filename: string, scrub: Scrub, metricsList: seq<Metric>, temp: string, faults: Faults,
                         ghost before: map<string, Content>)
      returns (ok: bool)
      requires temp !in before && temp != filename && files == before[temp := Empty]
      modifies this
      ensures ok <==> !faults.write && !faults.sync && !faults.close && !faults.rename && Encode(scrub, metricsList).Some?
      ensures ok ==> files == before[filename := Whole(Encode(scrub, metricsList).value)]
      ensures !ok ==> files - {temp} == before
      ensures old(trace) <= trace
      ensures forall now :: now in trace[|old(trace)|..] ==> OldOrNew(before, now, filename, Encode(scrub, metricsList))
    {
      hide Encode, OldOrNew;
      var doc := Encode(scrub, metricsList);
      OtherFile(before, temp, Empty, filename, doc);
      if doc.None? {
        return false;
      }
      Put(temp, Garbled);
      OtherFile(before, temp, Garbled, filename, doc);
      assert files == before[temp := Garbled];
      if faults.write {
        return false;
      }
      Put(temp, Whole(doc.value));
      OtherFile(before, temp, Whole(doc.value), filename, doc);
      assert files == before[temp := Whole(doc.value)];
      if faults.sync || faults.close || faults.rename {
        return false;
      }
      Rename(temp, filename);
      assert files == before[filename := Whole(doc.value)];
      Replaced(before, filename, doc);
      ok := true;
    }

    /** NewConsumer opens the file, creating a missing one; ReadMetricsList takes an empty file, or
        one that holds null, for an empty list, and fails on a text or a field it cannot read. */
    method ReadMetricsList(filename: string, opens: bool) returns (r: Result<seq<Metric>, ()>)
      modifies this
      ensures !opens ==> r.Err? && files == old(files)
      ensures opens ==> files == if filename in old(files) then old(files) else old(files)[filename := Empty]
      ensures opens ==>
                r == match Listed(files[filename]) case None => Err(()) case Some(list) => Ok(list)
      ensures opens && files[filename].Garbled? ==> r.Err?
    {
      if !opens {
        return Err(());
      }
      if filename !in files {
        Put(filename, Empty);
      }
      match files[filename] {
        case Empty => r := Ok([]);
        case Garbled => r := Err(());
        case Null => r := Ok([]);
        case Whole(doc) =>
          var list := Decode(doc);
          r := if list.Some? then Ok(list.value) else Err(());
      }
    }
  }

  /** The cells the decoder allocates for one metric. */
  method Allocate(m: Metric) returns (r: Record)
    ensures View(r) == m
    ensures r.delta != null ==> fresh(r.delta)
    ensures r.value != null ==> fresh(r.value)
  {
    var delta: Int64Cell? := null;
    if m.delta.Some? { delta := new Int64Cell(m.delta.value); }
    var value: Float64Cell? := null;
    if m.value.Some? { value := new Float64Cell(m.value.value); }
    r := Record(m.id, m.mtype, delta, value, m.hash);
  }

  method RestoreOne(store: Store, value: Metric) returns (error: Option<MetricError>)
    requires store.Valid()
    modifies store, store.owner.Keys
    ensures store.Valid() && fresh(store.owner.Keys - old(store.owner.Keys))
    ensures error == Validate(value)
    ensures store.Contents() == if error.None? then Save(old(store.Contents()), value) else old(store.Contents())
  {
    hide Store.Valid, Store.Contents, Save, Validate, Apply, Failure;
    var m := Allocate(value);
    assert Outside(m, store.owner.Keys);
    RestoreStep(store.Contents(), value);
    var r := store.SaveMetrics(Live, m);
    error := if r.Err? then Some(r.error.reason) else None;
  }

  /** The restore loop stops at the first metric the store rejects; the ones before it stay. */
  method Restore(store: Store, list: seq<Metric>) returns (error: Option<MetricError>, ghost done: nat)
    requires store.Valid()
    modifies store, store.owner.Keys
    ensures store.Valid() && done <= |list|
    ensures store.Contents() == SaveAll(old(store.Contents()), list[..done])
    ensures AllValid(list[..done])
    ensures error == if done == |list| then None else Validate(list[done])
    ensures error.None? <==> done == |list|
  {
    hide Store.Valid, Store.Contents, Save, Validate;
    ghost var before := store.Contents();
    for i := 0 to |list|
      invariant store.Valid() && fresh(store.owner.Keys - old(store.owner.Keys))
      invariant store.Contents() == SaveAll(before, list[..i])
      invariant AllValid(list[..i])
    {
      assert list[..i + 1][..i] == list[..i];
      error := RestoreOne(store, list[i]);
      if error.Some? {
        return error, i;
      }
    }
    return None, |list|;
  }

  lemma RestoreStep(s: seq<Metric>, m: Metric)
    ensures Failure(Live, [m]) == match Validate(m) case None => None case Some(e) => Some(Rejected(e))
    ensures Apply(s, SaveOne(Live, m)) == if IsValid(m) then Save(s, m) else s
  {
    assert [m][..0] == [];
    assert SaveAll(s, [m]) == Save(s, m);
    assert FirstInvalid([m]) == Validate(m) by { assert [m][1..] == []; }
  }

  /** Write a store with finite gauges, read the file into a fresh one: there is no error, and list
      and index are the same, exactly when all text is clean. */
  method SaveAndRestore(disk: Disk, filename: string, temp: string, scrub: Scrub, from: Store)
    returns (copy: Store, error: Option<MetricError>)
    requires from.Valid() && disk !in from.owner && temp !in disk.files && temp != filename
    requires AllValid(from.Contents()) && AllStorable(from.Contents())
    modifies disk
    ensures copy.Valid() && from.Valid() && from.Contents() == old(from.Contents())
    ensures error.None? && copy.Contents() == from.Contents() && copy.index == from.index
            <==> AllClean(scrub, from.Contents())
  {
    hide Store.Valid, Store.Contents, AllValid, UniqueKeys, SaveAll, Encode, Decode, Owns, AllClean, AllStorable, Validate;
    ghost var s := from.Contents();
    assert UniqueKeys(s) by { from.IndexIsScan(MetricKey("", "")); }
    var list, cells := from.GetAllMetrics();
    var values := Read(list, cells);
    ListRoundTrip(scrub, s);
    var ok := disk.WriteEvent(filename, scrub, values, temp, Faults(false, false, false, false, false));
    var back := disk.ReadMetricsList(filename, true);
    copy := new Store();
    ghost var done;
    error, done := Restore(copy, back.value);
    SnapshotRoundTrip(scrub, s);
    assert back.value[..|back.value|] == back.value;
    if AllClean(scrub, s) { ValidAt(s, done); }
    if copy.Contents() == s { SameListSameIndex(from, copy); }
  }

  lemma ValidAt(s: seq<Metric>, i: nat)
    requires AllValid(s)
    ensures i < |s| ==> Validate(s[i]).None?
  {
  }

  /** Go hands the encoder the copies; their numbers are read through the pointers. */
  method Read(list: seq<Record>, ghost cells: map<object, nat>) returns (r: seq<Metric>)
    requires Owns(list, cells)
    ensures r == Views(list, cells.Keys)
  {
    r := [];
    for i := 0 to |list|
      invariant r == Views(list, cells.Keys)[..i]
    {
      r := r + [View(list[i])];
    }
  }

  lemma SameListSameIndex(a: Store, b: Store)
    requires a.Valid() && b.Valid() && a.Contents() == b.Contents()
    ensures a.index == b.index
  {
    hide Store.Valid, Store.Contents, UniqueKeys;
    forall k
      ensures k in a.index <==> k in b.index
      ensures k in a.index ==> a.index[k] == b.index[k]
    {
      a.IndexIsScan(k);
      b.IndexIsScan(k);
    }
  }
}

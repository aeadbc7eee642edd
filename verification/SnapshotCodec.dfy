/** The JSON form of a metric list (internal/model/metrics.go) as the storage file holds it. JSON
    text itself is abstract: an object is a map of named values. */
module SnapshotCodec {
  import opened Metrics
  import opened StoreSpec

  /** A number is written as an integer of 64 bits, or otherwise. */
  datatype Json = JNull | JString(s: string) | JInteger(i: int64) | JNumber(r: real) | JOther

  type JsonObject = map<string, Json>

  type Document = seq<JsonObject>

  /** What a file holds: nothing, an unfinished or foreign text, the word null, or one JSON document. */
  datatype Content = Empty | Garbled | Null | Whole(doc: Document)

  /** What the encoder does to a string: bytes that are not UTF-8 are replaced. */
  type Scrub = string -> string

  /** Nil pointers and the empty hash are left out; a pointer to zero is not. Only finite numbers
      can be encoded. */
  function EncodeMetric(scrub: Scrub, m: Metric): Option<JsonObject> {
    if m.value.Some? && !m.value.value.Finite? then None
    else
      var o: JsonObject := map["id" := JString(scrub(m.id)), "type" := JString(scrub(m.mtype))];
      var o1 := if m.delta.Some? then o["delta" := JInteger(m.delta.value)] else o;
      var o2 := if m.value.Some? then o1["value" := JNumber(m.value.value.r)] else o1;
      Some(if m.hash != "" then o2["hash" := JString(scrub(m.hash))] else o2)
  }

  /** A missing or null field leaves the zero value; one of the wrong type is an error, None. */
  function StringField(o: JsonObject, name: string): Option<string> {
    if name !in o || o[name].JNull? then Some("")
    else if o[name].JString? then Some(o[name].s)
    else None
  }

  function DeltaField(o: JsonObject): Option<Option<int64>> {
    if "delta" !in o || o["delta"].JNull? then Some(None)
    else if o["delta"].JInteger? then Some(Some(o["delta"].i))
    else None
  }

  function ValueField(o: JsonObject): Option<Option<Float64>> {
    if "value" !in o || o["value"].JNull? then Some(None)
    else match o["value"]
      case JNumber(r) => Some(Some(Finite(r)))
      case JInteger(i) => Some(Some(Finite(i as real)))
      case _ => None
  }

  function DecodeMetric(o: JsonObject): Option<Metric> {
    var id, mtype, delta, value, hash :=
      StringField(o, "id"), StringField(o, "type"), DeltaField(o), ValueField(o), StringField(o, "hash");
    if id.None? || mtype.None? || delta.None? || value.None? || hash.None? then None
    else Some(Metric(id.value, mtype.value, delta.value, value.value, hash.value))
  }

  function Encode(scrub: Scrub, ms: seq<Metric>): Option<Document>
    decreases |ms|
  {
    if ms == [] then Some([])
    else
      var front, last := Encode(scrub, ms[..|ms| - 1]), EncodeMetric(scrub, ms[|ms| - 1]);
      if front.None? || last.None? then None else Some(front.value + [last.value])
  }

  function Decode(d: Document): (r: Option<seq<Metric>>)
    ensures r.Some? ==> |r.value| == |d|
    decreases |d|
  {
    if d == [] then Some([])
    else
      var front, last := Decode(d[..|d| - 1]), DecodeMetric(d[|d| - 1]);
      if front.None? || last.None? then None else Some(front.value + [last.value])
  }

  /** The list a file is read as: no text and the word null are the empty list. */
  function Listed(c: Content): Option<seq<Metric>> {
    match c case Empty => Some([]) case Garbled => None case Null => Some([]) case Whole(doc) => Decode(doc)
  }

  /** A field holds a value of another type than Go's. */
  predicate WrongField(o: JsonObject, name: string) {
    name in o && !o[name].JNull? &&
    if name == "delta" then !o[name].JInteger?
    else if name == "value" then !o[name].JInteger? && !o[name].JNumber?
    else !o[name].JString?
  }

  predicate Malformed(o: JsonObject) {
    exists i :: 0 <= i < 5 && WrongField(o, ["id", "type", "delta", "value", "hash"][i])
  }

  /** A document is refused exactly when a field of one of its metrics has the wrong type, and
      otherwise a missing field or a null is the zero value. */
  lemma {:induction false} DecodeFailsExactly(d: Document)
    ensures Decode(d).None? <==> exists i :: 0 <= i < |d| && Malformed(d[i])
    decreases |d|
  {
    hide DecodeMetric, Malformed;
    if d != [] {
      var front := d[..|d| - 1];
      DecodeFailsExactly(front);
      MalformedExactly(d[|d| - 1]);
      assert forall i :: 0 <= i < |front| ==> front[i] == d[i];
      if i :| 0 <= i < |d| && Malformed(d[i]) { assert i == |d| - 1 || front[i] == d[i]; }
    }
  }

  lemma MalformedExactly(o: JsonObject)
    ensures DecodeMetric(o).None? <==> Malformed(o)
    ensures DecodeMetric(map[]) == Some(Metric("", "", None, None, ""))
  {
    var names := ["id", "type", "delta", "value", "hash"];
    assert names[0] == "id" && names[1] == "type" && names[2] == "delta" && names[3] == "value" && names[4] == "hash";
    assert |"id"| == 2 && |"type"| == 4 && |"delta"| == 5 && |"value"| == 5 && |"hash"| == 4;
    assert "delta"[0] != "value"[0];
    assert Malformed(o) <==>
             WrongField(o, "id") || WrongField(o, "type") || WrongField(o, "delta") || WrongField(o, "value") || WrongField(o, "hash")
    by {
      if WrongField(o, "id") { assert WrongField(o, names[0]); }
      if WrongField(o, "type") { assert WrongField(o, names[1]); }
      if WrongField(o, "delta") { assert WrongField(o, names[2]); }
      if WrongField(o, "value") { assert WrongField(o, names[3]); }
      if WrongField(o, "hash") { assert WrongField(o, names[4]); }
    }
  }

  /** What is written: id and type always, a number only if there is one, a hash only if it is not
      empty, and nothing else. */
  lemma EncodedExactly(scrub: Scrub, m: Metric)
    ensures EncodeMetric(scrub, m).None? <==> m.value.Some? && !m.value.value.Finite?
    ensures EncodeMetric(scrub, m).Some? ==>
              forall name :: name in EncodeMetric(scrub, m).value <==>
                name == "id" || name == "type" || (name == "delta" && m.delta.Some?)
                || (name == "value" && m.value.Some?) || (name == "hash" && m.hash != "")
  {
    assert |"id"| == 2 && |"type"| == 4 && |"delta"| == 5;
  }

  /** What is read: every field that is there, a number without a fraction as a number too. */
  lemma DecodedExactly(o: JsonObject)
    requires DecodeMetric(o).Some?
    ensures var m := DecodeMetric(o).value;
            && ("id" in o && o["id"].JString? ==> m.id == o["id"].s)
            && ("type" in o && o["type"].JString? ==> m.mtype == o["type"].s)
            && ("hash" in o && o["hash"].JString? ==> m.hash == o["hash"].s)
            && m.delta == (if "delta" in o && o["delta"].JInteger? then Some(o["delta"].i) else None)
            && m.value == (if "value" in o && o["value"].JNumber? then Some(Finite(o["value"].r))
                           else if "value" in o && o["value"].JInteger? then Some(Finite(o["value"].i as real))
                           else None)
  {
  }

  predicate Storable(m: Metric) {
    m.value.Some? ==> m.value.value.Finite?
  }

  /** The encoder leaves the strings it writes for m as they are. */
  predicate CleanText(scrub: Scrub, m: Metric) {
    scrub(m.id) == m.id && scrub(m.mtype) == m.mtype && (m.hash == "" || scrub(m.hash) == m.hash)
  }

  predicate AllClean(scrub: Scrub, ms: seq<Metric>) {
    forall i :: 0 <= i < |ms| ==> CleanText(scrub, ms[i])
  }

  predicate AllStorable(ms: seq<Metric>) {
    forall i :: 0 <= i < |ms| ==> Storable(ms[i])
  }

  /** What comes back has the same numbers, and the strings the encoder wrote. */
  function Scrubbed(scrub: Scrub, m: Metric): Metric {
    Metric(scrub(m.id), scrub(m.mtype), m.delta, m.value, if m.hash == "" then "" else scrub(m.hash))
  }

  /** Encoding and decoding gives back the metric exactly when its text is clean; nil pointers and
      pointers to zero always survive. */
  lemma MetricRoundTrip(scrub: Scrub, m: Metric)
    requires Storable(m)
    ensures EncodeMetric(scrub, m).Some? && DecodeMetric(EncodeMetric(scrub, m).value) == Some(Scrubbed(scrub, m))
    ensures DecodeMetric(EncodeMetric(scrub, m).value) == Some(m) <==> CleanText(scrub, m)
  {
    DistinctNames();
  }

  lemma DistinctNames()
    ensures "id" != "type" && "id" != "delta" && "id" != "value" && "id" != "hash"
    ensures "type" != "delta" && "type" != "value" && "type" != "hash"
    ensures "delta" != "value" && "delta" != "hash" && "value" != "hash"
  {
    assert "type"[0] != "hash"[0] && "delta"[0] != "value"[0];
  }

  /** Encoding fails exactly when some gauge holds NaN or an infinity. */
  lemma {:induction false} EncodeFailsExactly(scrub: Scrub, ms: seq<Metric>)
    ensures Encode(scrub, ms).Some? <==> AllStorable(ms)
    decreases |ms|
  {
    if ms != [] {
      var front := ms[..|ms| - 1];
      EncodeFailsExactly(scrub, front);
      assert forall i :: 0 <= i < |front| ==> front[i] == ms[i];
    }
  }

  /** The same for lists. */
  lemma {:induction false} ListRoundTrip(scrub: Scrub, ms: seq<Metric>)
    requires AllStorable(ms)
    ensures Encode(scrub, ms).Some? && Decode(Encode(scrub, ms).value).Some?
    ensures |Decode(Encode(scrub, ms).value).value| == |ms|
    ensures Decode(Encode(scrub, ms).value).value == ms <==> AllClean(scrub, ms)
    decreases |ms|
  {
    hide EncodeMetric, DecodeMetric, CleanText, Storable, AllClean, AllStorable, Decode;
    if ms == [] {
      NothingListed(scrub);
    } else {
      var front, last := ms[..|ms| - 1], ms[|ms| - 1];
      AllFront(scrub, ms);
      ListRoundTrip(scrub, front);
      MetricRoundTrip(scrub, last);
      DecodeMore(Encode(scrub, front).value, EncodeMetric(scrub, last).value);
      SameFront(ms, Decode(Encode(scrub, front).value).value, DecodeMetric(EncodeMetric(scrub, last).value).value);
    }
  }

  lemma NothingListed(scrub: Scrub)
    ensures Decode([]) == Some([]) && AllClean(scrub, [])
  {
  }

  lemma AllFront(scrub: Scrub, ms: seq<Metric>)
    requires ms != [] && AllStorable(ms)
    ensures AllStorable(ms[..|ms| - 1]) && Storable(ms[|ms| - 1])
    ensures AllClean(scrub, ms) <==> AllClean(scrub, ms[..|ms| - 1]) && CleanText(scrub, ms[|ms| - 1])
  {
    hide Storable, CleanText;
    assert forall i :: 0 <= i < |ms| - 1 ==> ms[..|ms| - 1][i] == ms[i];
  }

  lemma DecodeMore(d: Document, o: JsonObject)
    requires Decode(d).Some? && DecodeMetric(o).Some?
    ensures Decode(d + [o]) == Some(Decode(d).value + [DecodeMetric(o).value])
  {
    hide DecodeMetric;
    assert (d + [o])[..|d|] == d;
  }

  lemma SameFront(ms: seq<Metric>, front: seq<Metric>, last: Metric)
    requires |front| + 1 == |ms|
    ensures front + [last] == ms <==> front == ms[..|ms| - 1] && last == ms[|ms| - 1]
  {
    assert ms == ms[..|ms| - 1] + [ms[|ms| - 1]];
    if front + [last] == ms { assert front == (front + [last])[..|front|] && last == (front + [last])[|front|]; }
  }

  /** Saving the metrics of a store one by one into an empty one appends them in order. */
  lemma {:induction false} ReplayRebuilds(s: seq<Metric>)
    requires UniqueKeys(s)
    ensures SaveAll([], s) == s
    decreases |s|
  {
    hide Find, UniqueKeys, Merge;
    if s != [] {
      var front, last := s[..|s| - 1], s[|s| - 1];
      FrontUnique(s);
      ReplayRebuilds(front);
      assert s == front + [last];
    }
  }

  lemma FrontUnique(s: seq<Metric>)
    requires UniqueKeys(s) && s != []
    ensures UniqueKeys(s[..|s| - 1]) && Find(s[..|s| - 1], Key(s[|s| - 1])).None?
  {
    hide Find;
    var front := s[..|s| - 1];
    assert forall j :: 0 <= j < |front| ==> front[j] == s[j];
  }

  /** Saving a list one by one never gives more metrics than the list has, and as many only when
      it gives the list itself. */
  lemma {:induction false} SaveAllGrowth(s: seq<Metric>, ms: seq<Metric>)
    ensures |SaveAll(s, ms)| <= |s| + |ms|
    ensures |SaveAll(s, ms)| == |s| + |ms| ==> SaveAll(s, ms) == s + ms
    decreases |ms|
  {
    if ms != [] {
      SaveAllGrowth(s, ms[..|ms| - 1]);
      assert ms == ms[..|ms| - 1] + [ms[|ms| - 1]];
    }
  }

  /** Snapshot and restore of a store with finite gauges: what is read back rebuilds the same
      ordered list exactly when all text is clean. */
  lemma SnapshotRoundTrip(scrub: Scrub, s: seq<Metric>)
    requires UniqueKeys(s) && AllStorable(s)
    ensures Encode(scrub, s).Some? && Decode(Encode(scrub, s).value).Some?
    ensures SaveAll([], Decode(Encode(scrub, s).value).value) == s <==> AllClean(scrub, s)
  {
    hide SaveAll, Encode, Decode, AllClean, UniqueKeys;
    ListRoundTrip(scrub, s);
    var list := Decode(Encode(scrub, s).value).value;
    SaveAllGrowth([], list);
    ReplayRebuilds(s);
    assert [] + list == list;
  }

  /** For every store that any history of commands can reach, whose gauges are finite: it is restored
      as it was, and no metric of it is rejected, exactly when all text is clean. */
  lemma RestoreRebuilds(scrub: Scrub, cs: seq<Command>)
    requires AllStorable(Run([], cs))
    ensures var s := Run([], cs);
            && Encode(scrub, s).Some? && Decode(Encode(scrub, s).value).Some?
            && var list := Decode(Encode(scrub, s).value).value;
               (AllValid(list) && SaveAll([], list) == s <==> AllClean(scrub, s))
  {
    hide SaveAll, Encode, Decode, AllClean, UniqueKeys, AllValid, Run, Accepted, AllStorable;
    var s := Run([], cs);
    RunSavesAccepted(cs);
    SaveAllKeepsPositions([], Accepted(cs));
    SaveAllKeepsValid([], Accepted(cs));
    ListRoundTrip(scrub, s);
    SnapshotRoundTrip(scrub, s);
  }

  /** The restored metric has another key exactly when the encoder altered its id or its type. */
  lemma DirtyTextIsLost(scrub: Scrub, m: Metric)
    requires Storable(m)
    ensures EncodeMetric(scrub, m).Some? && DecodeMetric(EncodeMetric(scrub, m).value).Some?
    ensures Key(DecodeMetric(EncodeMetric(scrub, m).value).value) != Key(m) <==>
            scrub(m.id) != m.id || scrub(m.mtype) != m.mtype
  {
    MetricRoundTrip(scrub, m);
  }
}

/** A whole run of the server over the memory store: request handlers, the goroutine that saves the
    store to a file (internal/server/server.go) and the final select and shutdown of RunServer
    (cmd/server/main.go), interleaved in any order. */
module ServerLifecycle {
  import opened Metrics
  import opened StoreSpec
  import opened SnapshotCodec

  datatype Transport = Http | Grpc

  /** A handler is received, makes its one save (at a position of the history), and answers. */
  datatype Progress = Received | Saved(at: nat) | Answered(at: nat)

  datatype Handler = Handler(transport: Transport, command: Command, progress: Progress)

  /** The saving goroutine. Every save reads the store (then at some point of the history), and
      writes; the last one is the one made after the cancellation. */
  datatype Saver =
    | Idle
    | Reading(last: bool)
    | Writing(list: seq<Metric>, at: nat, last: bool)
    | Closing
    | Closed

  /** What RunServer does next once its select has chosen a branch. */
  datatype Stage = ShutHttp | DrainHttp | ShutGrpc | DrainGrpc | Cancel | Receive

  /** The errors collected so far are joined in the end: no error means nil. Only the branch that
      was woken by the storage itself does not flush. */
  datatype Main =
    | Serving
    | Leaving(stage: Stage, flush: bool, errors: seq<string>)
    | Returned(flush: bool, errors: seq<string>)

  datatype State = State(
    original: Option<Content>, restored: seq<Metric>, ticking: bool,
    store: seq<Metric>, commands: seq<Command>, handlers: seq<Handler>, httpOpen: bool, grpcOpen: bool,
    saver: Saver, buffer: seq<string>, cancelled: bool,
    file: Option<Content>, image: Option<nat>, failed: Option<string>,
    main: Main)

  datatype Step =
    | Accept(transport: Transport, command: Command)
    | Save(h: nat)
    | Answer(h: nat)
    | Tick
    | NoticeCancel
    | ReadStore
    | Commit
    | FailSave(cause: string)
    | CloseChannel
    | ServerFails(error: Option<string>)
    | StorageReports
    | ContextDone
    | CloseHttp
    | HttpDrained(error: Option<string>)
    | CloseGrpc
    | GrpcDrained
    | CancelStorage
    | ReceiveStorage

  function Joined(errors: seq<string>, error: Option<string>): seq<string> {
    if error.None? then errors else errors + [error.value]
  }

  // ---- Start: the restore ----

  function FileList(file: Option<Content>): Option<seq<Metric>> {
    match file
    case None => Some([])
    case Some(content) => Listed(content)
  }

  /** The elements before the first one the store rejects. */
  function ValidPrefix(ms: seq<Metric>): (r: seq<Metric>)
    ensures r <= ms && AllValid(r)
    ensures r == ms <==> FirstInvalid(ms).None?
  {
    if ms == [] || !IsValid(ms[0]) then []
    else
      var rest := ValidPrefix(ms[1..]);
      assert ms == [ms[0]] + ms[1..];
      [ms[0]] + rest
  }

  /** Whether the server restores at all, and whether the file can then be opened. */
  datatype Restore = NoRestore | CannotOpen | FromFile

  function RestoreError(file: Option<Content>, restore: Restore): Option<string> {
    match restore
    case NoRestore => None
    case CannotOpen => Some("can't open file")
    case FromFile =>
      match FileList(file)
      case None => Some("decoder error")
      case Some(list) => if FirstInvalid(list).Some? then Some("restore metric") else None
  }

  /** A restore fails exactly when the file cannot be opened, is no JSON, has a field of the wrong
      type, or holds a metric that no save would take. */
  lemma RestoreFailsExactly(file: Option<Content>, restore: Restore)
    ensures RestoreError(file, restore).Some? <==>
              || restore.CannotOpen?
              || (restore.FromFile? && file == Some(Garbled))
              || (restore.FromFile? && file.Some? && file.value.Whole? &&
                  ((exists i :: 0 <= i < |file.value.doc| && Malformed(file.value.doc[i])) ||
                   (exists i :: 0 <= i < |file.value.doc| && DecodeMetric(file.value.doc[i]).Some? &&
                                !IsValid(DecodeMetric(file.value.doc[i]).value))))
  {
    hide Malformed, DecodeMetric, IsValid;
    if restore.FromFile? && file.Some? && file.value.Whole? {
      DecodeFailsExactly(file.value.doc);
      DecodedOneByOne(file.value.doc);
      if Decode(file.value.doc).Some? { RejectedIs(Decode(file.value.doc).value); }
    }
    RejectedIs([]);
  }

  lemma {:induction false} DecodedOneByOne(d: Document)
    ensures Decode(d).Some? ==> forall i :: 0 <= i < |d| ==> DecodeMetric(d[i]) == Some(Decode(d).value[i])
    decreases |d|
  {
    hide DecodeMetric;
    if d != [] {
      DecodedOneByOne(d[..|d| - 1]);
      assert forall i :: 0 <= i < |d| - 1 ==> d[..|d| - 1][i] == d[i];
    }
  }

  lemma RejectedIs(ms: seq<Metric>)
    ensures FirstInvalid(ms).Some? <==> exists i :: 0 <= i < |ms| && !IsValid(ms[i])
  {
  }

  function RestoredStore(file: Option<Content>, restore: Restore): seq<Metric> {
    if !restore.FromFile? || FileList(file).None? then [] else SaveAll([], ValidPrefix(FileList(file).value))
  }

  /** A failed restore leaves its error in the channel, closed, and no goroutine behind it. */
  function Initial(file: Option<Content>, restore: Restore, ticking: bool, grpc: bool): State {
    var failed := RestoreError(file, restore);
    var present := if restore.FromFile? && file.None? then Some(Empty) else file;
    var store := RestoredStore(file, restore);
    State(present, store, ticking, store, [], [], true, grpc,
          if failed.Some? then Closed else Idle,
          if failed.Some? then [failed.value] else [], false,
          present, None, failed, Serving)
  }

  // ---- Steps ----

  predicate Open(s: State, t: Transport) {
    if t.Http? then s.httpOpen else s.grpcOpen
  }

  predicate Drained(s: State, t: Transport) {
    forall h :: 0 <= h < |s.handlers| && s.handlers[h].transport == t ==> s.handlers[h].progress.Answered?
  }

  /** The channel has room for one error; receiving needs an error in it or the channel closed. */
  predicate CanStep(scrub: Scrub, s: State, e: Step) {
    match e
    case Accept(t, _) => Open(s, t)
    case Save(h) => h < |s.handlers| && s.handlers[h].progress.Received?
    case Answer(h) => h < |s.handlers| && s.handlers[h].progress.Saved?
    case Tick => s.saver.Idle? && s.ticking
    case NoticeCancel => s.saver.Idle? && s.cancelled
    case ReadStore => s.saver.Reading?
    case Commit => s.saver.Writing? && Encode(scrub, s.saver.list).Some?
    case FailSave(_) => s.saver.Writing? && |s.buffer| < 1
    case CloseChannel => s.saver.Closing?
    case ServerFails(_) => s.main.Serving?
    case StorageReports => s.main.Serving? && (s.buffer != [] || s.saver.Closed?)
    case ContextDone => s.main.Serving?
    case CloseHttp => s.main.Leaving? && s.main.stage.ShutHttp?
    case HttpDrained(_) => s.main.Leaving? && s.main.stage.DrainHttp? && Drained(s, Http)
    case CloseGrpc => s.main.Leaving? && s.main.stage.ShutGrpc?
    case GrpcDrained => s.main.Leaving? && s.main.stage.DrainGrpc? && Drained(s, Grpc)
    case CancelStorage => s.main.Leaving? && s.main.stage.Cancel?
    case ReceiveStorage => s.main.Leaving? && s.main.stage.Receive? && (s.buffer != [] || s.saver.Closed?)
  }

  /** Receiving takes the buffered error, and nil from a closed and empty channel. */
  function FromChannel(s: State): Option<string> {
    if s.buffer == [] then None else Some(s.buffer[0])
  }

  function Taken(s: State): State {
    s.(buffer := if s.buffer == [] then [] else s.buffer[1..])
  }

  function Advance(s: State, stage: Stage): State
    requires s.main.Leaving?
  {
    s.(main := s.main.(stage := stage))
  }

  function After(scrub: Scrub, s: State, e: Step): State
    requires CanStep(scrub, s, e)
  {
    match e
    case Accept(t, c) => s.(handlers := s.handlers + [Handler(t, c, Received)])
    case Save(h) =>
      var c := s.handlers[h].command;
      s.(store := Apply(s.store, c), commands := s.commands + [c],
         handlers := s.handlers[h := s.handlers[h].(progress := Saved(|s.commands|))])
    case Answer(h) =>
      s.(handlers := s.handlers[h := s.handlers[h].(progress := Answered(s.handlers[h].progress.at))])
    case Tick => s.(saver := Reading(false))
    case NoticeCancel => s.(saver := Reading(true))
    case ReadStore => s.(saver := Writing(s.store, |s.commands|, s.saver.last))
    case Commit =>
      s.(file := Some(Whole(Encode(scrub, s.saver.list).value)), image := Some(s.saver.at),
         saver := if s.saver.last then Closing else Idle)
    case FailSave(error) => s.(buffer := s.buffer + [error], failed := Some(error), saver := Closing)
    case CloseChannel => s.(saver := Closed)
    case ServerFails(error) => s.(main := Leaving(ShutHttp, true, Joined([], error)))
    case StorageReports => Taken(s).(main := Leaving(ShutHttp, false, Joined([], FromChannel(s))))
    case ContextDone => s.(main := Leaving(ShutHttp, true, []))
    case CloseHttp => Advance(s, DrainHttp).(httpOpen := false)
    case HttpDrained(error) =>
      s.(main := s.main.(stage := ShutGrpc, errors := Joined(s.main.errors, error)))
    case CloseGrpc => Advance(s, DrainGrpc).(grpcOpen := false)
    case GrpcDrained => if s.main.flush then Advance(s, Cancel) else s.(main := Returned(false, s.main.errors))
    case CancelStorage => Advance(s, Receive).(cancelled := true)
    case ReceiveStorage => Taken(s).(main := Returned(true, Joined(s.main.errors, FromChannel(s))))
  }

  // ---- The invariant ----

  /** The store is the replay of the history, and a handler past its save is in the history. */
  ghost predicate InvHistory(s: State) {
    && AllValid(s.restored) && UniqueKeys(s.restored)
    && s.store == Run(s.restored, s.commands)
    && forall h :: 0 <= h < |s.handlers| ==> InHistory(s.handlers[h], s.commands)
  }

  ghost predicate InHistory(h: Handler, commands: seq<Command>) {
    !h.progress.Received? ==> h.progress.at < |commands| && commands[h.progress.at] == h.command
  }

  lemma HistoryGrows(h: Handler, commands: seq<Command>, c: Command)
    ensures InHistory(h, commands) ==> InHistory(h, commands + [c])
    ensures h.command == c ==> InHistory(h.(progress := Saved(|commands|)), commands + [c])
  {
  }

  lemma RunOneMore(s: seq<Metric>, cs: seq<Command>, c: Command)
    ensures Run(s, cs + [c]) == Apply(Run(s, cs), c)
  {
    assert (cs + [c])[..|cs|] == cs;
  }

  /** The store as it was at a point of the history. */
  function StoreAt(s: State, k: nat): seq<Metric>
    requires k <= |s.commands|
  {
    Run(s.restored, s.commands[..k])
  }

  /** The file holds the complete encoding of the list. */
  ghost predicate IsImage(scrub: Scrub, file: Option<Content>, list: seq<Metric>) {
    Encode(scrub, list).Some? && file == Some(Whole(Encode(scrub, list).value))
  }

  /** The file is the original one or the image of the store at a past point; a save under way
      holds the store at a point not before that one. */
  ghost predicate InvFile(scrub: Scrub, s: State) {
    && (s.image.None? ==> s.file == s.original)
    && (s.image.Some? ==>
          && s.image.value <= |s.commands| && IsImage(scrub, s.file, StoreAt(s, s.image.value)))
    && (s.saver.Writing? ==>
          && s.saver.at <= |s.commands| && s.saver.list == StoreAt(s, s.saver.at)
          && (s.image.Some? ==> s.image.value <= s.saver.at))
  }

  /** An error of the storage is in the channel, or RunServer already holds it. */
  ghost predicate InvChannel(s: State) {
    && |s.buffer| <= 1
    && (s.failed.Some? ==> s.saver.Closing? || s.saver.Closed?)
    && (s.failed.None? ==> s.buffer == [] && (!s.main.Serving? ==> s.main.flush) && (s.main.Returned? ==> s.saver.Closed?))
    && (s.failed.Some? && s.buffer != [] ==>
          s.buffer == [s.failed.value] && !s.main.Returned? && (s.main.Leaving? ==> s.main.flush))
    && (s.failed.Some? && s.buffer == [] ==>
          !s.main.Serving? && (s.main.Returned? || !s.main.flush) && s.failed.value in s.main.errors)
  }

  predicate HttpShut(m: Main) {
    m.Returned? || (m.Leaving? && !m.stage.ShutHttp?)
  }

  predicate HttpDone(m: Main) {
    HttpShut(m) && (m.Leaving? ==> !m.stage.DrainHttp?)
  }

  predicate GrpcShut(m: Main) {
    HttpDone(m) && (m.Leaving? ==> !m.stage.ShutGrpc?)
  }

  predicate GrpcDone(m: Main) {
    GrpcShut(m) && (m.Leaving? ==> !m.stage.DrainGrpc?)
  }

  ghost predicate InvMain(s: State) {
    && (HttpShut(s.main) ==> !s.httpOpen)
    && (HttpDone(s.main) ==> Drained(s, Http))
    && (GrpcShut(s.main) ==> !s.grpcOpen)
    && (GrpcDone(s.main) ==> Drained(s, Grpc))
    && (s.cancelled <==> !s.main.Serving? && s.main.flush && (s.main.Returned? || s.main.stage.Receive?))
    && (s.main.Leaving? && (s.main.stage.Cancel? || s.main.stage.Receive?) ==> s.main.flush)
  }

  /** The last save starts after the cancellation, and it writes the final store. */
  ghost predicate InvFlush(s: State) {
    && (s.saver.Reading? && s.saver.last ==> s.cancelled)
    && (s.saver.Writing? && s.saver.last ==> s.cancelled && s.saver.at == |s.commands|)
    && ((s.saver.Closing? || s.saver.Closed?) && s.failed.None? ==> s.cancelled && s.image == Some(|s.commands|))
  }

  ghost predicate Inv(scrub: Scrub, s: State) {
    InvHistory(s) && InvFile(scrub, s) && InvChannel(s) && InvMain(s) && InvFlush(s)
  }

  lemma InitialInv(scrub: Scrub, file: Option<Content>, restore: Restore, ticking: bool, grpc: bool)
    ensures Inv(scrub, Initial(file, restore, ticking, grpc))
  {
    hide SaveAll, Decode, FirstInvalid, ValidPrefix;
    if FileList(file).Some? {
      var prefix := ValidPrefix(FileList(file).value);
      SaveAllKeepsValid([], prefix);
      SaveAllKeepsPositions([], prefix);
    }
  }

  /** Once the storage is cancelled no request is open, so the history has ended. */
  lemma CancelledIsQuiet(scrub: Scrub, s: State, e: Step)
    requires InvMain(s) && CanStep(scrub, s, e) && GrpcDone(s.main)
    ensures !e.Accept? && !e.Save? && !e.Answer?
  {
    hide Encode;
  }

  lemma StillReceived(h: Handler, commands: seq<Command>)
    requires h.progress.Received?
    ensures InHistory(h, commands)
  {
  }

  lemma StillSaved(h: Handler, commands: seq<Command>)
    requires h.progress.Saved?
    ensures InHistory(h.(progress := Answered(h.progress.at)), commands) <==> InHistory(h, commands)
  {
  }

  lemma StepKeepsHistory(scrub: Scrub, s: State, e: Step)
    requires InvHistory(s) && CanStep(scrub, s, e)
    ensures InvHistory(After(scrub, s, e))
    ensures s.commands <= After(scrub, s, e).commands
    ensures s.restored == After(scrub, s, e).restored && s.original == After(scrub, s, e).original
  {
    hide Encode, Apply, AllValid, UniqueKeys, Run, InHistory, Drained;
    match e {
      case Save(h) =>
        var c := s.handlers[h].command;
        RunOneMore(s.restored, s.commands, c);
        forall j | 0 <= j < |s.handlers|
          ensures InHistory(After(scrub, s, e).handlers[j], s.commands + [c])
        {
          HistoryGrows(s.handlers[j], s.commands, c);
        }
      case Accept(t, c) => StillReceived(Handler(t, c, Received), s.commands);
      case Answer(h) => StillSaved(s.handlers[h], s.commands);
      case _ =>
    }
  }

  lemma PastStays(s: State, t: State)
    requires InvHistory(s) && s.commands <= t.commands && t.restored == s.restored
    ensures forall k :: 0 <= k <= |s.commands| ==> StoreAt(s, k) == StoreAt(t, k)
    ensures StoreAt(s, |s.commands|) == s.store
  {
    hide Run;
    assert s.commands[..|s.commands|] == s.commands;
    forall k | 0 <= k <= |s.commands|
      ensures t.commands[..k] == s.commands[..k]
    {
    }
  }

  lemma FileEffect(scrub: Scrub, s: State, e: Step)
    requires CanStep(scrub, s, e)
    ensures var t := After(scrub, s, e);
            if e.Commit? then
              s.saver.Writing? && IsImage(scrub, t.file, s.saver.list) && t.image == Some(s.saver.at) && !t.saver.Writing?
            else
              && t.file == s.file && t.image == s.image
              && (t.saver.Writing? ==>
                    t.saver == s.saver || (t.saver.list == s.store && t.saver.at == |s.commands|))
  {
    hide Encode, Apply, Drained;
  }

  lemma StepKeepsFile(scrub: Scrub, s: State, e: Step)
    requires InvHistory(s) && InvFile(scrub, s) && CanStep(scrub, s, e)
    ensures InvFile(scrub, After(scrub, s, e))
    ensures s.image.Some? ==> After(scrub, s, e).image.Some? && s.image.value <= After(scrub, s, e).image.value
  {
    hide CanStep, After, InvHistory, StoreAt, IsImage;
    StepKeepsHistory(scrub, s, e);
    PastStays(s, After(scrub, s, e));
    FileEffect(scrub, s, e);
  }

  lemma StepKeepsChannel(scrub: Scrub, s: State, e: Step)
    requires InvChannel(s) && InvMain(s) && InvFlush(s) && CanStep(scrub, s, e)
    ensures InvChannel(After(scrub, s, e))
  {
    hide Encode, Apply, Drained;
  }

  lemma StepKeepsMain(scrub: Scrub, s: State, e: Step)
    requires InvMain(s) && CanStep(scrub, s, e)
    ensures InvMain(After(scrub, s, e))
  {
    hide Encode, Apply;
    if GrpcDone(s.main) {
      CancelledIsQuiet(scrub, s, e);
    }
  }

  lemma StepKeepsFlush(scrub: Scrub, s: State, e: Step)
    requires InvChannel(s) && InvMain(s) && InvFlush(s) && CanStep(scrub, s, e)
    ensures InvFlush(After(scrub, s, e))
  {
    if GrpcDone(s.main) {
      CancelledIsQuiet(scrub, s, e);
    }
    hide Encode, Apply, Drained;
  }

  lemma StepKeepsInv(scrub: Scrub, s: State, e: Step)
    requires Inv(scrub, s) && CanStep(scrub, s, e)
    ensures Inv(scrub, After(scrub, s, e))
  {
    hide InvHistory, InvFile, InvChannel, InvMain, InvFlush;
    StepKeepsHistory(scrub, s, e);
    StepKeepsFile(scrub, s, e);
    StepKeepsChannel(scrub, s, e);
    StepKeepsMain(scrub, s, e);
    StepKeepsFlush(scrub, s, e);
  }

  // ---- Runs ----

  ghost predicate IsRun(scrub: Scrub, s: State, steps: seq<Step>)
    decreases |steps|
  {
    steps == [] || (CanStep(scrub, s, steps[0]) && IsRun(scrub, After(scrub, s, steps[0]), steps[1..]))
  }

  ghost function AfterAll(scrub: Scrub, s: State, steps: seq<Step>): State
    requires IsRun(scrub, s, steps)
    decreases |steps|
  {
    if steps == [] then s else AfterAll(scrub, After(scrub, s, steps[0]), steps[1..])
  }

  /** What holds between an earlier and a later state of one run: the history and the acknowledged
      point of the file only grow, a storage error stays, and a closed server stays closed. */
  ghost predicate Later(s: State, t: State) {
    && s.commands <= t.commands && s.restored == t.restored && s.original == t.original
    && (s.image.Some? ==> t.image.Some? && s.image.value <= t.image.value)
    && (s.failed.Some? ==> t.failed == s.failed)
    && (s.main.Returned? ==> t.main == s.main && t.store == s.store && t.commands == s.commands && t.handlers == s.handlers)
    && (s.main.Returned? && s.main.errors == [] ==> t.file == s.file)
  }

  lemma StepIsLater(scrub: Scrub, s: State, e: Step)
    requires Inv(scrub, s) && CanStep(scrub, s, e)
    ensures Later(s, After(scrub, s, e))
  {
    hide InvHistory, InvFile;
    StepKeepsHistory(scrub, s, e);
    StepKeepsFile(scrub, s, e);
    if s.main.Returned? {
      CancelledIsQuiet(scrub, s, e);
    }
    hide Encode, Apply, Drained;
  }

  lemma {:induction false} RunKeepsInv(scrub: Scrub, s: State, steps: seq<Step>)
    requires Inv(scrub, s) && IsRun(scrub, s, steps)
    ensures Inv(scrub, AfterAll(scrub, s, steps)) && Later(s, AfterAll(scrub, s, steps))
    decreases |steps|
  {
    hide Inv, CanStep, After;
    if steps != [] {
      StepKeepsInv(scrub, s, steps[0]);
      StepIsLater(scrub, s, steps[0]);
      RunKeepsInv(scrub, After(scrub, s, steps[0]), steps[1..]);
    }
  }

  ghost predicate Reachable(scrub: Scrub, file: Option<Content>, restore: Restore, s: State) {
    exists ticking, grpc, steps ::
      IsRun(scrub, Initial(file, restore, ticking, grpc), steps) && AfterAll(scrub, Initial(file, restore, ticking, grpc), steps) == s
  }

  lemma ReachableInv(scrub: Scrub, file: Option<Content>, restore: Restore, s: State)
    requires Reachable(scrub, file, restore, s)
    ensures Inv(scrub, s)
    ensures s.restored == RestoredStore(file, restore)
    ensures RestoreError(file, restore).Some? ==> s.failed == RestoreError(file, restore)
    ensures s.original == if restore.FromFile? && file.None? then Some(Empty) else file
  {
    hide Inv, RestoredStore, RestoreError;
    var ticking, grpc, steps :|
      IsRun(scrub, Initial(file, restore, ticking, grpc), steps) && AfterAll(scrub, Initial(file, restore, ticking, grpc), steps) == s;
    InitialInv(scrub, file, restore, ticking, grpc);
    RunKeepsInv(scrub, Initial(file, restore, ticking, grpc), steps);
  }

  /** Durability: when RunServer returns nil, the file holds the final store, which is the replay
      of the whole history; every request was answered, its command is in that history, and no
      further step changes the store or the file. */
  lemma NilMeansDurable(scrub: Scrub, file: Option<Content>, restore: Restore, s: State)
    requires Reachable(scrub, file, restore, s) && s.main.Returned? && s.main.errors == []
    ensures RestoreError(file, restore).None?
    ensures s.store == Run(RestoredStore(file, restore), s.commands)
    ensures IsImage(scrub, s.file, s.store)
    ensures forall h :: 0 <= h < |s.handlers| ==>
              && s.handlers[h].progress.Answered?
              && s.handlers[h].progress.at < |s.commands|
              && s.commands[s.handlers[h].progress.at] == s.handlers[h].command
    ensures forall steps :: IsRun(scrub, s, steps) ==>
              AfterAll(scrub, s, steps).store == s.store && AfterAll(scrub, s, steps).file == s.file
  {
    hide Encode, Apply, SaveAll;
    ReachableInv(scrub, file, restore, s);
    assert s.commands[..|s.commands|] == s.commands;
    forall h | 0 <= h < |s.handlers|
      ensures s.handlers[h].progress.Answered?
    {
      assert s.handlers[h].transport.Http? || s.handlers[h].transport.Grpc?;
    }
    forall steps | IsRun(scrub, s, steps)
      ensures Later(s, AfterAll(scrub, s, steps))
    {
      RunKeepsInv(scrub, s, steps);
    }
  }

  /** A storage error, of the restore or of any save, is among the errors returned, whichever
      branch of the select won. */
  lemma NoStorageErrorIsLost(scrub: Scrub, file: Option<Content>, restore: Restore, s: State)
    requires Reachable(scrub, file, restore, s) && s.main.Returned?
    ensures s.failed.Some? ==> s.failed.value in s.main.errors
    ensures RestoreError(file, restore).Some? ==> RestoreError(file, restore).value in s.main.errors
    ensures !s.main.flush ==> s.failed.Some?
  {
    hide InvHistory, InvFile, InvMain;
    ReachableInv(scrub, file, restore, s);
  }

  // ---- Every request is kept ----

  datatype Incoming = Incoming(transport: Transport, command: Command)

  function Requests(hs: seq<Handler>): (r: seq<Incoming>)
    ensures |r| == |hs|
  {
    seq(|hs|, i requires 0 <= i < |hs| => Incoming(hs[i].transport, hs[i].command))
  }

  /** The requests that came in during a run. */
  function Arrived(steps: seq<Step>): seq<Incoming> {
    if steps == [] then [] else Arrival(steps[0]) + Arrived(steps[1..])
  }

  function Arrival(e: Step): seq<Incoming> {
    match e case Accept(t, c) => [Incoming(t, c)] case _ => []
  }

  lemma OneArrival(scrub: Scrub, s: State, e: Step)
    requires CanStep(scrub, s, e)
    ensures Requests(After(scrub, s, e).handlers) == Requests(s.handlers) + Arrival(e)
  {
    hide Encode, Apply, Drained;
    match e {
      case Accept(_, _) =>
      case Save(_) =>
      case Answer(_) =>
      case _ => assert Requests(s.handlers) + [] == Requests(s.handlers);
    }
  }

  /** Every request that is accepted has a handler, and keeps it: with NilMeansDurable, its command is
      in the history and in the file when RunServer returns nil. */
  lemma {:induction false} ArrivalsAreKept(scrub: Scrub, s: State, steps: seq<Step>)
    requires IsRun(scrub, s, steps)
    ensures Requests(AfterAll(scrub, s, steps).handlers) == Requests(s.handlers) + Arrived(steps)
    decreases |steps|
  {
    hide CanStep, After, Requests, Arrival;
    if steps == [] {
      assert Requests(s.handlers) + [] == Requests(s.handlers);
    } else {
      OneArrival(scrub, s, steps[0]);
      ArrivalsAreKept(scrub, After(scrub, s, steps[0]), steps[1..]);
      assert (Requests(s.handlers) + Arrival(steps[0])) + Arrived(steps[1..]) == Requests(s.handlers) + Arrived(steps);
    }
  }

  lemma StillServes(scrub: Scrub, s: State, e: Step)
    requires CanStep(scrub, s, e) && After(scrub, s, e).main.Serving?
    ensures s.main.Serving? && After(scrub, s, e).httpOpen == s.httpOpen && After(scrub, s, e).grpcOpen == s.grpcOpen
  {
    hide Encode, Apply, Drained, Taken, FromChannel, Joined;
    match e {
      case Accept(_, _) =>
      case Save(_) =>
      case Answer(_) =>
      case Tick =>
      case NoticeCancel =>
      case ReadStore =>
      case Commit =>
      case FailSave(_) =>
      case CloseChannel =>
      case _ =>
    }
  }

  lemma {:induction false} StaysOpen(scrub: Scrub, s: State, steps: seq<Step>)
    requires IsRun(scrub, s, steps)
    ensures var t := AfterAll(scrub, s, steps);
            t.main.Serving? ==> s.main.Serving? && t.httpOpen == s.httpOpen && t.grpcOpen == s.grpcOpen
    decreases |steps|
  {
    hide CanStep, After;
    if steps != [] {
      StaysOpen(scrub, After(scrub, s, steps[0]), steps[1..]);
      if AfterAll(scrub, s, steps).main.Serving? { StillServes(scrub, s, steps[0]); }
    }
  }

  /** Until its select has chosen a branch, the server takes requests: over HTTP always, and over gRPC
      exactly if that was configured. */
  lemma ServesUntilItLeaves(scrub: Scrub, file: Option<Content>, restore: Restore, ticking: bool, grpc: bool,
                            steps: seq<Step>, c: Command)
    requires IsRun(scrub, Initial(file, restore, ticking, grpc), steps)
    requires AfterAll(scrub, Initial(file, restore, ticking, grpc), steps).main.Serving?
    ensures var s := AfterAll(scrub, Initial(file, restore, ticking, grpc), steps);
            CanStep(scrub, s, Accept(Http, c)) && (CanStep(scrub, s, Accept(Grpc, c)) <==> grpc)
  {
    hide Decode, SaveAll, IsRun, AfterAll;
    StaysOpen(scrub, Initial(file, restore, ticking, grpc), steps);
  }

  /** While the server serves, an error of the storage is always there for the select to receive. */
  lemma StorageErrorWakes(scrub: Scrub, s: State)
    requires Inv(scrub, s) && s.main.Serving? && s.failed.Some?
    ensures CanStep(scrub, s, StorageReports)
    ensures After(scrub, s, StorageReports).main == Leaving(ShutHttp, false, [s.failed.value])
  {
    hide InvHistory, InvFile, Encode, Apply;
    assert s.buffer == [s.failed.value];
  }

  // ---- Exactly which errors are returned ----

  /** The error a step brings about, outside the restore. */
  function Brings(e: Step): Option<string> {
    match e
    case ServerFails(error) => error
    case HttpDrained(error) => error
    case FailSave(cause) => Some(cause)
    case _ => None
  }

  function AllBrought(steps: seq<Step>): seq<string> {
    if steps == [] then [] else Brought(Brings(steps[0])) + AllBrought(steps[1..])
  }

  function Brought(error: Option<string>): seq<string> {
    match error case None => [] case Some(e) => [e]
  }

  function Held(m: Main): seq<string> {
    match m case Serving => [] case Leaving(_, _, errors) => errors case Returned(_, errors) => errors
  }

  /** The errors RunServer holds, and the one that is still on its way to it. */
  function Known(s: State): multiset<string> {
    multiset(Held(s.main)) + multiset(s.buffer)
  }

  predicate Receives(e: Step) {
    e.StorageReports? || e.ReceiveStorage?
  }

  /** An error goes into the channel, or to RunServer, which also takes what is in the channel. */
  lemma ErrorsMove(scrub: Scrub, s: State, e: Step)
    requires CanStep(scrub, s, e) && (Receives(e) || e.FailSave? || e.ServerFails? || e.HttpDrained?)
    ensures var t := After(scrub, s, e);
            && t.buffer == (if Receives(e) then Taken(s).buffer else if e.FailSave? then Joined(s.buffer, Brings(e)) else s.buffer)
            && Held(t.main) == (if Receives(e) then Joined(Held(s.main), FromChannel(s))
                                else if e.FailSave? then Held(s.main) else Joined(Held(s.main), Brings(e)))
            && (Receives(e) ==> Brings(e).None?)
  {
    hide Encode, Apply, Drained, FromChannel;
  }

  lemma QuietOnErrors(scrub: Scrub, s: State, e: Step)
    requires CanStep(scrub, s, e) && !Receives(e) && !e.FailSave? && !e.ServerFails? && !e.HttpDrained?
    ensures var t := After(scrub, s, e); t.buffer == s.buffer && Held(t.main) == Held(s.main) && Brings(e).None?
  {
    hide Encode, Apply, Drained;
    match e {
      case Accept(_, _) =>
      case Save(_) =>
      case Answer(_) =>
      case ContextDone =>
      case CloseHttp =>
      case CloseGrpc =>
      case GrpcDrained =>
      case CancelStorage =>
      case _ =>
    }
  }

  lemma JoinedIs(errors: seq<string>, error: Option<string>)
    ensures multiset(Joined(errors, error)) == multiset(errors) + multiset(Brought(error))
  {
  }

  lemma TakenIs(s: State)
    requires |s.buffer| <= 1
    ensures Brought(FromChannel(s)) == s.buffer && Taken(s).buffer == []
  {
  }

  lemma StepBrings(scrub: Scrub, s: State, e: Step)
    requires InvChannel(s) && CanStep(scrub, s, e)
    ensures Known(After(scrub, s, e)) == Known(s) + multiset(Brought(Brings(e)))
  {
    hide CanStep, After, Held, Brings, Brought, Joined, Receives, Taken, FromChannel;
    if Receives(e) || e.FailSave? || e.ServerFails? || e.HttpDrained? {
      ErrorsMove(scrub, s, e);
    } else {
      QuietOnErrors(scrub, s, e);
    }
    JoinedIs(Held(s.main), Brings(e));
    JoinedIs(s.buffer, Brings(e));
    JoinedIs(Held(s.main), FromChannel(s));
    TakenIs(s);
    assert Brought(None) == [] by { BroughtNothing(); }
  }

  lemma BroughtNothing()
    ensures Brought(None) == []
  {
  }

  lemma {:induction false} RunBrings(scrub: Scrub, s: State, steps: seq<Step>)
    requires Inv(scrub, s) && IsRun(scrub, s, steps)
    ensures Known(AfterAll(scrub, s, steps)) == Known(s) + multiset(AllBrought(steps))
    decreases |steps|
  {
    hide CanStep, After, InvHistory, InvFile, InvChannel, InvMain, InvFlush, Known, Brings, Brought;
    if steps != [] {
      StepBrings(scrub, s, steps[0]);
      StepKeepsInv(scrub, s, steps[0]);
      RunBrings(scrub, After(scrub, s, steps[0]), steps[1..]);
      var first := Brought(Brings(steps[0]));
      assert multiset(first + AllBrought(steps[1..])) == multiset(first) + multiset(AllBrought(steps[1..]));
    }
  }

  /** RunServer returns exactly the errors there were, each as often as it came about: that of the
      restore, of a server, of the drain, of a save. So it returns nil if and only if there was none,
      and then the file holds the final store. */
  lemma ReturnsExactlyTheErrors(scrub: Scrub, file: Option<Content>, restore: Restore, ticking: bool, grpc: bool,
                                steps: seq<Step>)
    requires IsRun(scrub, Initial(file, restore, ticking, grpc), steps)
    requires AfterAll(scrub, Initial(file, restore, ticking, grpc), steps).main.Returned?
    ensures var s, failed := AfterAll(scrub, Initial(file, restore, ticking, grpc), steps), RestoreError(file, restore);
            && multiset(s.main.errors) ==
               multiset(AllBrought(steps)) + (if failed.Some? then multiset{failed.value} else multiset{})
            && (s.main.errors == [] <==> failed.None? && AllBrought(steps) == [])
            && (failed.None? && AllBrought(steps) == [] ==> IsImage(scrub, s.file, s.store))
  {
    hide InvHistory, InvFile, AllBrought, CanStep, After, Encode, Apply, SaveAll, RestoreError, RestoredStore, IsImage;
    var init := Initial(file, restore, ticking, grpc);
    InitialInv(scrub, file, restore, ticking, grpc);
    RunBrings(scrub, init, steps);
    RunKeepsInv(scrub, init, steps);
    var s := AfterAll(scrub, init, steps);
    assert s.buffer == [];
    assert multiset(s.main.errors) == Known(s);
    SameSize(s.main.errors, AllBrought(steps), RestoreError(file, restore));
    assert Reachable(scrub, file, restore, s);
    if s.main.errors == [] { NilMeansDurable(scrub, file, restore, s); }
  }

  lemma SameSize(errors: seq<string>, brought: seq<string>, failed: Option<string>)
    requires multiset(errors) == multiset(brought) + (if failed.Some? then multiset{failed.value} else multiset{})
    ensures errors == [] <==> failed.None? && brought == []
  {
    assert |multiset(errors)| == |errors| && |multiset(brought)| == |brought|;
  }

  /** In any state of any run, the file is the one the server started with (if it had to restore and
      there was none, an empty one) or the image of the store at a point of the history; later states never go back to an earlier point. */
  lemma FileIsAlwaysAPastStore(scrub: Scrub, file: Option<Content>, restore: Restore, s: State, steps: seq<Step>)
    requires Reachable(scrub, file, restore, s) && IsRun(scrub, s, steps)
    ensures s.image.None? ==> s.file == file || (file.None? && restore.FromFile? && s.file == Some(Empty))
    ensures s.image.Some? ==>
              s.image.value <= |s.commands| && IsImage(scrub, s.file, StoreAt(s, s.image.value))
    ensures var t := AfterAll(scrub, s, steps);
            s.image.Some? ==> t.image.Some? && s.image.value <= t.image.value && s.commands <= t.commands
  {
    hide InvHistory, InvMain, InvFlush, InvChannel, Encode, Run;
    ReachableInv(scrub, file, restore, s);
    RunKeepsInv(scrub, s, steps);
  }

  /** Whenever the server dies after a save, a restart that can open the file brings back, without
      an error, exactly the store as it was at the point of the last completed save, if and only if
      all text in it is clean. */
  lemma RestartResumesTheLastSave(scrub: Scrub, file: Option<Content>, restore: Restore, s: State, ticking: bool, grpc: bool)
    requires Reachable(scrub, file, restore, s) && s.image.Some?
    requires s.image.value <= |s.commands|
    ensures var t := Initial(s.file, FromFile, ticking, grpc);
            (t.store == StoreAt(s, s.image.value) && t.failed.None?) <==> AllClean(scrub, StoreAt(s, s.image.value))
  {
    hide Run, InvMain, InvFlush, InvChannel, AllValid, UniqueKeys, AllClean, IsImage, Initial;
    ReachableInv(scrub, file, restore, s);
    RunKeepsShape(s.restored, s.commands[..s.image.value]);
    ImageRestores(scrub, s.file, StoreAt(s, s.image.value), ticking, grpc);
  }

  /** A server that stopped without an error and is started again has lost nothing at all, if and
      only if all text in its store is clean. */
  lemma StopAndStart(scrub: Scrub, file: Option<Content>, restore: Restore, s: State, ticking: bool, grpc: bool)
    requires Reachable(scrub, file, restore, s) && s.main.Returned? && s.main.errors == []
    ensures var t := Initial(s.file, FromFile, ticking, grpc);
            (t.store == Run(RestoredStore(file, restore), s.commands) && t.failed.None?) <==> AllClean(scrub, s.store)
  {
    hide Run, InvMain, InvFile, InvFlush, InvChannel, AllValid, UniqueKeys, AllClean, IsImage, Initial, RestoredStore;
    ReachableInv(scrub, file, restore, s);
    NilMeansDurable(scrub, file, restore, s);
    RunKeepsShape(s.restored, s.commands);
    ImageRestores(scrub, s.file, s.store, ticking, grpc);
  }

  lemma ImageRestores(scrub: Scrub, file: Option<Content>, past: seq<Metric>, ticking: bool, grpc: bool)
    requires IsImage(scrub, file, past) && AllValid(past) && UniqueKeys(past)
    ensures var t := Initial(file, FromFile, ticking, grpc);
            (t.store == past && t.failed.None?) <==> AllClean(scrub, past)
  {
    hide Encode, Decode, SaveAll, AllValid, UniqueKeys, AllClean, AllStorable;
    EncodeFailsExactly(scrub, past);
    ListRoundTrip(scrub, past);
    SnapshotRoundTrip(scrub, past);
  }

  lemma {:induction false} RunKeepsShape(s: seq<Metric>, cs: seq<Command>)
    requires AllValid(s) && UniqueKeys(s)
    ensures AllValid(Run(s, cs)) && UniqueKeys(Run(s, cs))
    decreases |cs|
  {
    hide AllValid, UniqueKeys, SaveAll;
    if cs != [] {
      var front, c := cs[..|cs| - 1], cs[|cs| - 1];
      RunKeepsShape(s, front);
      if Failure(c.ctx, Elements(c)).None? {
        SaveAllKeepsValid(Run(s, front), Elements(c));
        SaveAllKeepsPositions(Run(s, front), Elements(c));
      }
    }
  }

  // ---- The shutdown ends ----

  /** Only new requests and ticks come from outside. */
  predicate FromOutside(e: Step) {
    e.Accept? || e.Tick?
  }

  function HandlerWork(hs: seq<Handler>): nat {
    if hs == [] then 0
    else (if hs[0].progress.Received? then 2 else if hs[0].progress.Saved? then 1 else 0) + HandlerWork(hs[1..])
  }

  function SaverWork(saver: Saver): nat {
    match saver
    case Reading(last) => if last then 3 else 6
    case Writing(_, _, last) => if last then 2 else 5
    case Idle => 4
    case Closing => 1
    case Closed => 0
  }

  function MainWork(m: Main): nat {
    match m
    case Serving => 7
    case Leaving(stage, _, _) =>
      (match stage
       case ShutHttp => 6 case DrainHttp => 5 case ShutGrpc => 4 case DrainGrpc => 3 case Cancel => 2 case Receive => 1)
    case Returned(_, _) => 0
  }

  function Work(s: State): nat {
    HandlerWork(s.handlers) + SaverWork(s.saver) + MainWork(s.main)
  }

  lemma {:induction false} HandlerWorkAt(hs: seq<Handler>, h: nat, p: Progress)
    requires h < |hs|
    requires (hs[h].progress.Received? && p.Saved?) || (hs[h].progress.Saved? && p.Answered?)
    ensures HandlerWork(hs[h := hs[h].(progress := p)]) == HandlerWork(hs) - 1
  {
    var hs' := hs[h := hs[h].(progress := p)];
    if h > 0 {
      assert hs'[1..] == hs[1..][h - 1 := hs[h].(progress := p)];
      HandlerWorkAt(hs[1..], h - 1, p);
    } else {
      assert hs'[1..] == hs[1..];
    }
  }

  /** Every step of the server's own does some of a finite amount of work. */
  lemma OwnStepsEnd(scrub: Scrub, s: State, e: Step)
    requires CanStep(scrub, s, e) && !FromOutside(e)
    ensures Work(After(scrub, s, e)) < Work(s)
  {
    hide Encode, Apply, HandlerWork, Drained;
    if e.Save? { HandlerWorkAt(s.handlers, e.h, Saved(|s.commands|)); }
    if e.Answer? { HandlerWorkAt(s.handlers, e.h, Answered(s.handlers[e.h].progress.at)); }
  }

  /** Until RunServer has returned, a server that is leaving always has a step of its own: no
      wait, no send and no receive is stuck, and no step has to fail but the save of a list that
      cannot be encoded. */
  lemma LeavingIsNeverStuck(scrub: Scrub, s: State)
    requires Inv(scrub, s) && s.main.Leaving?
    ensures exists e :: && !FromOutside(e) && CanStep(scrub, s, e)
                        && (e.FailSave? ==> Encode(scrub, s.saver.list).None?)
                        && (e.HttpDrained? ==> e.error.None?)
  {
    hide InvHistory, InvFile, InvFlush, Encode;
    var h := match s.main.stage
      case DrainHttp => Unanswered(s, Http)
      case DrainGrpc => Unanswered(s, Grpc)
      case _ => None;
    var e :=
      if h.Some? then if s.handlers[h.value].progress.Received? then Save(h.value) else Answer(h.value)
      else match s.main.stage
        case ShutHttp => CloseHttp
        case DrainHttp => HttpDrained(None)
        case ShutGrpc => CloseGrpc
        case DrainGrpc => GrpcDrained
        case Cancel => CancelStorage
        case Receive =>
          if s.saver.Idle? then NoticeCancel
          else if s.saver.Reading? then ReadStore
          else if s.saver.Writing? then if Encode(scrub, s.saver.list).Some? then Commit else FailSave("encoder error")
          else if s.saver.Closing? then CloseChannel
          else ReceiveStorage;
    assert CanStep(scrub, s, e);
  }

  ghost function Unanswered(s: State, t: Transport): (r: Option<nat>)
    ensures r.None? ==> Drained(s, t)
    ensures r.Some? ==> r.value < |s.handlers| && s.handlers[r.value].transport == t && !s.handlers[r.value].progress.Answered?
  {
    if Drained(s, t) then None
    else
      var h :| 0 <= h < |s.handlers| && s.handlers[h].transport == t && !s.handlers[h].progress.Answered?;
      Some(h)
  }
}

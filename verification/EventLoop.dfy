/** The main loop of the language server (language_server/src/main_loop.rs, global_state.rs,
    inner/db.rs, subscriptions.rs): three queues around a database of files. */
module EventLoop {
  import opened Wrappers

  type Path = string
  type Text = string

  datatype FileSystemEvent = AddFile(path: Path, text: Text) | ChangeFile(path: Path, text: Text) | RemoveFile(path: Path)

  datatype Config = Config(dialect: string, sender: string, stdlibFolder: Option<Path>, modulesFolders: seq<Path>)

  datatype Database = Database(config: Config, availableFiles: map<Path, Text>)

  datatype FileDiagnostic = FileDiagnostic(fpath: Path, diagnostic: Option<string>)

  /** What the compiler finds in a file, given all others; it may be about another file. */
  type Checker = (Database, Path, Text) -> Option<FileDiagnostic>

  datatype ResponseEvent = Respond(response: string) | Diagnostics(batch: seq<FileDiagnostic>)

  /** A job of the worker: a copy of the database and the files to check, in some order. */
  datatype Task = Task(db: Database, files: seq<Path>)

  datatype Outgoing = Reply(response: string) | Publish(fpath: Path, diagnostics: seq<string>) | ConfigRequest(id: nat)

  /** Notifications of the client; a URI that is no file path is `None`. */
  datatype Notification =
    | DidOpen(uri: Option<Path>, text: Text)
    | DidChange(uri: Option<Path>, changes: seq<Text>)
    | DidClose(uri: Option<Path>)
    | DidChangeConfiguration
    | DidChangeWatchedFiles(uris: seq<Option<Path>>)
    | OtherNotification

  /** The answer to a configuration request; with new settings come the files of their folders. */
  datatype ConfigReply = Failed | Empty | NoSettings | Settings(config: Config, found: seq<FileSystemEvent>)

  datatype Message = Request | Notify(notification: Notification) | Response(id: nat, reply: ConfigReply)

  datatype State = Snapshot(
    db: Database, openedFiles: set<Path>, nextRequestId: nat, configurationRequestId: Option<nat>,
    fsEvents: seq<FileSystemEvent>, pool: seq<Task>, responses: seq<ResponseEvent>, sent: seq<Outgoing>, failed: bool)

  // ----- The database -----

  function FileChanged(files: map<Path, Text>, e: FileSystemEvent): map<Path, Text> {
    if e.RemoveFile? then files - {e.path} else files[e.path := e.text]
  }

  function FilesChanged(files: map<Path, Text>, es: seq<FileSystemEvent>): map<Path, Text> {
    if es == [] then files else FileChanged(FilesChanged(files, es[..|es| - 1]), es[|es| - 1])
  }

  function Updated(db: Database, es: seq<FileSystemEvent>): Database {
    db.(availableFiles := FilesChanged(db.availableFiles, es))
  }

  predicate IsModulePath(config: Config, path: Path) {
    exists i :: 0 <= i < |config.modulesFolders| && config.modulesFolders[i] <= path
  }

  function ModuleFiles(db: Database): map<Path, Text> {
    map f | f in db.availableFiles && IsModulePath(db.config, f) :: db.availableFiles[f]
  }

  function FilesToCheck(db: Database, openedFiles: set<Path>): set<Path> {
    openedFiles + ModuleFiles(db).Keys
  }

  /** The order in which a set is gone through is open. */
  ghost predicate Enumerates(files: seq<Path>, paths: set<Path>) {
    (forall i, j :: 0 <= i < j < |files| ==> files[i] != files[j])
    && (forall p :: p in files <==> p in paths)
  }

  // ----- The steps -----

  /** The paths of watched files, up to the first URI that is no file path. */
  function Watched(uris: seq<Option<Path>>): seq<Path> {
    if uris == [] || uris[0].None? then [] else [uris[0].value] + Watched(uris[1..])
  }

  function Removals(paths: seq<Path>): seq<FileSystemEvent> {
    seq(|paths|, i requires 0 <= i < |paths| => RemoveFile(paths[i]))
  }

  ghost function PathSet(paths: seq<Path>): set<Path> {
    set p | p in paths
  }

  ghost function WithoutFiles(s: State, paths: seq<Path>): State {
    s.(fsEvents := s.fsEvents + Removals(paths), openedFiles := s.openedFiles - PathSet(paths))
  }

  lemma WithoutOneMore(s: State, paths: seq<Path>, path: Path)
    ensures var s' := WithoutFiles(s, paths);
            WithoutFiles(s, paths + [path]) ==
            s'.(fsEvents := s'.fsEvents + [RemoveFile(path)], openedFiles := s'.openedFiles - {path})
  {
  }

  lemma NothingWatched(uris: seq<Option<Path>>)
    ensures uris[0..] == uris && Watched([]) == []
    ensures forall s :: WithoutFiles(s, []) == s
    ensures [] + Watched(uris) == Watched(uris)
  {
  }

  lemma {:induction false} WatchedNext(uris: seq<Option<Path>>, i: nat, paths: seq<Path>)
    requires i < |uris| && Watched(uris) == paths + Watched(uris[i..])
    ensures uris[i].None? ==> Watched(uris) == paths
    ensures uris[i].Some? ==> Watched(uris) == paths + [uris[i].value] + Watched(uris[i + 1..])
  {
  }

  ghost function Notified(s: State, n: Notification): State {
    match n
    case DidOpen(uri, text) =>
      if uri.None? then s.(failed := true)
      else s.(fsEvents := s.fsEvents + [AddFile(uri.value, text)], openedFiles := s.openedFiles + {uri.value})
    case DidChange(uri, changes) =>
      if uri.None? || changes == [] then s.(failed := true)
      else s.(fsEvents := s.fsEvents + [ChangeFile(uri.value, changes[|changes| - 1])], openedFiles := s.openedFiles + {uri.value})
    case DidClose(uri) =>
      if uri.None? then s.(failed := true) else s.(openedFiles := s.openedFiles - {uri.value})
    case DidChangeConfiguration =>
      var id := s.nextRequestId + 1;
      s.(nextRequestId := id, sent := s.sent + [ConfigRequest(id)], configurationRequestId := Some(id))
    case DidChangeWatchedFiles(uris) =>
      WithoutFiles(s, Watched(uris)).(failed := |Watched(uris)| < |uris|)
    case OtherNotification => s
  }

  ghost function Received(s: State, m: Message): State {
    match m
    case Request => s
    case Notify(n) => Notified(s, n)
    case Response(id, reply) =>
      if s.configurationRequestId != Some(id) then s
      else
        var s' := s.(configurationRequestId := None);
        if reply.Settings? then s'.(db := Updated(Database(reply.config, map[]), reply.found)) else s'
  }

  ghost function Handled(s: State, e: FileSystemEvent, files: seq<Path>): State {
    var db := Updated(s.db, [e]);
    s.(db := db, pool := s.pool + [Task(db, files)])
  }

  /** What the worker finds for one file: the old diagnostics are cleared, then at most one
      is set. */
  function FileBatch(check: Checker, db: Database, fpath: Path): seq<FileDiagnostic> {
    [FileDiagnostic(fpath, None)] +
    if fpath !in db.availableFiles then []
    else
      match check(db, fpath, db.availableFiles[fpath])
      case None => []
      case Some(d) => [d]
  }

  function Batch(check: Checker, db: Database, files: seq<Path>): seq<FileDiagnostic> {
    if files == [] then [] else Batch(check, db, files[..|files| - 1]) + FileBatch(check, db, files[|files| - 1])
  }

  function Publication(d: FileDiagnostic): Outgoing {
    Publish(d.fpath, if d.diagnostic.Some? then [d.diagnostic.value] else [])
  }

  function Publications(batch: seq<FileDiagnostic>): seq<Outgoing> {
    seq(|batch|, i requires 0 <= i < |batch| => Publication(batch[i]))
  }

  ghost function Sending(r: ResponseEvent): seq<Outgoing> {
    match r
    case Respond(response) => [Reply(response)]
    case Diagnostics(batch) => Publications(batch)
  }

  /** One step: the main loop takes a message or an event, or the worker does its next task. */
  datatype Step = LspTurn(message: Message) | FsTurn(files: seq<Path>) | ResponseTurn | Worker

  ghost predicate Enabled(s: State, step: Step) {
    !s.failed &&
    match step
    case LspTurn(_) => true
    case FsTurn(files) => s.fsEvents != [] && Enumerates(files, FilesToCheck(Updated(s.db, [s.fsEvents[0]]), s.openedFiles))
    case ResponseTurn => s.responses != []
    case Worker => s.pool != []
  }

  ghost function After(check: Checker, s: State, step: Step): State
    requires Enabled(s, step)
  {
    match step
    case LspTurn(m) => Received(s, m)
    case FsTurn(files) => Handled(s.(fsEvents := s.fsEvents[1..]), s.fsEvents[0], files)
    case ResponseTurn => s.(responses := s.responses[1..], sent := s.sent + Sending(s.responses[0]))
    case Worker => s.(pool := s.pool[1..], responses := s.responses + [Diagnostics(Batch(check, s.pool[0].db, s.pool[0].files))])
  }

  // ----- The program -----

  /** What a change replaces: the settings, if they changed, and then files in order. */
  datatype AnalysisChange = AnalysisChange(configChanged: Option<Config>, trackedFilesChanged: seq<FileSystemEvent>)

  class GlobalState {
    var db: Database

    constructor (config: Config, initialFsEvents: seq<FileSystemEvent>)
      ensures db == Updated(Database(config, map[]), initialFsEvents)
    {
      db := Database(config, map[]);
      new;
      UpdateFromEvents(initialFsEvents);
    }

    /** Collects the changes of the events and applies them in order. */
    method UpdateFromEvents(fsEvents: seq<FileSystemEvent>)
      modifies this
      ensures db == Updated(old(db), fsEvents)
    {
      var change: seq<FileSystemEvent> := [];
      for i := 0 to |fsEvents|
        invariant change == fsEvents[..i]
      {
        change := change + [fsEvents[i]];
      }
      assert change == fsEvents;
      ApplyChange(AnalysisChange(None, change));
    }

    method ApplyChange(change: AnalysisChange)
      modifies this
      ensures db.config == (if change.configChanged.Some? then change.configChanged.value else old(db).config)
      ensures db.availableFiles == FilesChanged(old(db).availableFiles, change.trackedFilesChanged)
    {
      if change.configChanged.Some? {
        db := db.(config := change.configChanged.value);
      }
      var changes := change.trackedFilesChanged;
      ghost var changed := db;
      assert changes[..0] == [];
      for i := 0 to |changes|
        invariant db == Updated(changed, changes[..i])
      {
        assert changes[..i + 1][..i] == changes[..i];
        var e := changes[i];
        if e.RemoveFile? {
          db := db.(availableFiles := db.availableFiles - {e.path});
        } else {
          db := db.(availableFiles := db.availableFiles[e.path := e.text]);
        }
      }
      assert changes[..|changes|] == changes;
    }
  }

  /** The diagnostics of the files, one after the other. */
  method ComputeFileDiagnostics(check: Checker, db: Database, files: seq<Path>) returns (diagnostics: seq<FileDiagnostic>)
    ensures diagnostics == Batch(check, db, files)
  {
    diagnostics := [];
    assert files[..0] == [];
    for i := 0 to |files|
      invariant diagnostics == Batch(check, db, files[..i])
    {
      assert files[..i + 1][..i] == files[..i];
      var fpath := files[i];
      diagnostics := diagnostics + FileBatch(check, db, fpath);
    }
    assert files[..|files|] == files;
  }

  class MainLoop {
    const check: Checker
    var globalState: GlobalState
    var openedFiles: set<Path>
    var nextRequestId: nat
    var configurationRequestId: Option<nat>
    var fsEvents: seq<FileSystemEvent>
    var pool: seq<Task>
    var responses: seq<ResponseEvent>
    var sent: seq<Outgoing>
    var failed: bool

    ghost function Now(): State
      reads this, globalState
    {
      Snapshot(globalState.db, openedFiles, nextRequestId, configurationRequestId, fsEvents, pool, responses, sent, failed)
    }

    constructor (check: Checker, config: Config)
      ensures this.check == check && fresh(globalState)
      ensures Now() == Start(config)
    {
      this.check := check;
      globalState := new GlobalState(config, []);
      openedFiles := {};
      nextRequestId := 0;
      configurationRequestId := None;
      fsEvents, pool, responses, sent := [], [], [], [];
      failed := false;
    }

    method OnNotification(n: Notification)
      requires !failed
      modifies this
      ensures globalState == old(globalState) && Now() == Notified(old(Now()), n)
    {
      match n {
        case DidOpen(uri, text) =>
          if uri.None? {
            failed := true;
            return;
          }
          fsEvents := fsEvents + [AddFile(uri.value, text)];
          openedFiles := openedFiles + {uri.value};
        case DidChange(uri, changes) =>
          if uri.None? || changes == [] {
            failed := true;
            return;
          }
          fsEvents := fsEvents + [ChangeFile(uri.value, changes[|changes| - 1])];
          openedFiles := openedFiles + {uri.value};
        case DidClose(uri) =>
          if uri.None? {
            failed := true;
            return;
          }
          openedFiles := openedFiles - {uri.value};
        case DidChangeConfiguration =>
          nextRequestId := nextRequestId + 1;
          sent := sent + [ConfigRequest(nextRequestId)];
          configurationRequestId := Some(nextRequestId);
        case DidChangeWatchedFiles(uris) =>
          OnWatchedFiles(uris);
        case OtherNotification =>
      }
    }

    // Removals go out one by one; an invalid URI ends the loop but not what was sent.
    method OnWatchedFiles(uris: seq<Option<Path>>)
      requires !failed
      modifies this
      ensures globalState == old(globalState) && Now() == Notified(old(Now()), DidChangeWatchedFiles(uris))
    {
      hide Watched, Removals, PathSet;
      ghost var before, paths: seq<Path> := Now(), [];
      NothingWatched(uris);
      for i := 0 to |uris|
        invariant |paths| == i && Watched(uris) == paths + Watched(uris[i..])
        invariant globalState == old(globalState) && Now() == WithoutFiles(before, paths)
      {
        WatchedNext(uris, i, paths);
        if uris[i].None? {
          failed := true;
          return;
        }
        var fpath := uris[i].value;
        WithoutOneMore(before, paths, fpath);
        openedFiles := openedFiles - {fpath};
        fsEvents := fsEvents + [RemoveFile(fpath)];
        paths := paths + [fpath];
      }
      NothingWatched([]);
      assert uris[|uris|..] == [] && paths + [] == paths;
    }

    method OnMessage(m: Message)
      requires !failed
      modifies this
      ensures globalState == old(globalState) || fresh(globalState)
      ensures Now() == Received(old(Now()), m)
    {
      if m.Notify? {
        OnNotification(m.notification);
      } else if m.Response? && configurationRequestId == Some(m.id) {
        configurationRequestId := None;
        if m.reply.Settings? {
          globalState := new GlobalState(m.reply.config, m.reply.found);
        }
      }
    }

    /** A file event is taken: the database is updated, and a task queued for the worker. */
    method OnFileSystem() returns (ghost files: seq<Path>)
      requires !failed && fsEvents != []
      modifies this, globalState
      ensures globalState == old(globalState)
      ensures Enabled(old(Now()), FsTurn(files)) && Now() == After(check, old(Now()), FsTurn(files))
    {
      var e := fsEvents[0];
      fsEvents := fsEvents[1..];
      globalState.UpdateFromEvents([e]);
      var order := InSomeOrder(FilesToCheck(globalState.db, openedFiles));
      files := order;
      pool := pool + [Task(globalState.db, order)];
    }

    /** A response is taken: its diagnostics are published in order. */
    method OnTask()
      requires !failed && responses != []
      modifies this
      ensures globalState == old(globalState)
      ensures Now() == After(check, old(Now()), ResponseTurn)
    {
      var task := responses[0];
      responses := responses[1..];
      if task.Respond? {
        sent := sent + [Reply(task.response)];
        return;
      }
      ghost var before := sent;
      for i := 0 to |task.batch|
        invariant sent == before + Publications(task.batch[..i]) && globalState == old(globalState)
        invariant Now() == old(Now()).(responses := old(responses)[1..], sent := sent)
      {
        assert task.batch[..i + 1] == task.batch[..i] + [task.batch[i]];
        assert Publications(task.batch[..i + 1]) == Publications(task.batch[..i]) + [Publication(task.batch[i])];
        sent := sent + [Publication(task.batch[i])];
      }
      assert task.batch[..|task.batch|] == task.batch;
    }

    /** The one worker of the pool does its next task. */
    method Work()
      requires !failed && pool != []
      modifies this
      ensures globalState == old(globalState)
      ensures Now() == After(check, old(Now()), Worker)
    {
      var task := pool[0];
      pool := pool[1..];
      var diagnostics := ComputeFileDiagnostics(check, task.db, task.files);
      responses := responses + [Diagnostics(diagnostics)];
    }
  }

  ghost function Start(config: Config): State {
    Snapshot(Database(config, map[]), {}, 0, None, [], [], [], [], false)
  }

  method InSomeOrder(paths: set<Path>) returns (files: seq<Path>)
    ensures Enumerates(files, paths)
  {
    files := [];
    var rest := paths;
    while rest != {}
      invariant rest <= paths && Enumerates(files, paths - rest)
      decreases rest
    {
      var p :| p in rest;
      files := files + [p];
      rest := rest - {p};
    }
  }
}

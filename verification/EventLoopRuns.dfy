/** What holds in every run of the main loop. */
module EventLoopRuns {
  import opened Wrappers
  import opened EventLoop

  /** What happened in a run so far. */
  datatype History = History(
    fsSent: seq<FileSystemEvent>,      // all file events that were sent
    fsHandled: seq<FileSystemEvent>,   // those that were taken from the queue
    base: Database,                    // the database at the start or as of the last reset
    sinceReset: seq<FileSystemEvent>,  // the events that were handled since then
    tasks: seq<Task>,                  // all tasks that were queued for the worker
    openedAtTask: set<Path>,           // the files that were open when the last of them was queued
    resetSinceTask: bool,              // whether the settings were replaced after that
    delivered: seq<seq<FileDiagnostic>>, // the batches that were published
    accepted: seq<nat>)                // the configuration requests whose responses were accepted

  ghost predicate IsReset(s: State, m: Message) {
    m.Response? && s.configurationRequestId == Some(m.id) && m.reply.Settings?
  }

  ghost function Noted(check: Checker, s: State, h: History, step: Step): History
    requires Enabled(s, step)
  {
    var s' := After(check, s, step);
    match step
    case LspTurn(m) =>
      ReceivedAppends(s, m);
      var sent := h.fsSent + s'.fsEvents[|s.fsEvents|..];
      var accepted := if m.Response? && s.configurationRequestId == Some(m.id) then h.accepted + [m.id] else h.accepted;
      if IsReset(s, m) then h.(fsSent := sent, base := s'.db, sinceReset := [], resetSinceTask := true, accepted := accepted)
      else h.(fsSent := sent, accepted := accepted)
    case FsTurn(files) =>
      h.(fsHandled := h.fsHandled + [s.fsEvents[0]], sinceReset := h.sinceReset + [s.fsEvents[0]],
         tasks := h.tasks + [Task(s'.db, files)], openedAtTask := s.openedFiles, resetSinceTask := false)
    case ResponseTurn =>
      if s.responses[0].Diagnostics? then h.(delivered := h.delivered + [s.responses[0].batch]) else h
    case Worker => h
  }

  ghost predicate Possible(check: Checker, config: Config, steps: seq<Step>)
    decreases |steps|, 0
  {
    steps == []
    || (Possible(check, config, steps[..|steps| - 1])
        && Enabled(RunOf(check, config, steps[..|steps| - 1]).0, steps[|steps| - 1]))
  }

  /** The state and the history after the steps. */
  ghost function RunOf(check: Checker, config: Config, steps: seq<Step>): (State, History)
    requires Possible(check, config, steps)
    decreases |steps|, 1
  {
    if steps == [] then (Start(config), History([], [], Start(config).db, [], [], {}, false, [], []))
    else
      var (s, h) := RunOf(check, config, steps[..|steps| - 1]);
      (After(check, s, steps[|steps| - 1]), Noted(check, s, h, steps[|steps| - 1]))
  }

  // ----- File events -----

  /** No event is lost, doubled or overtaken, and the database is the fold of those handled
      since the last reset, which are the last of all. */
  ghost predicate FilesAgree(s: State, h: History) {
    h.fsSent == h.fsHandled + s.fsEvents
    && |h.sinceReset| <= |h.fsHandled| && h.fsHandled[|h.fsHandled| - |h.sinceReset|..] == h.sinceReset
    && s.db == Updated(h.base, h.sinceReset)
  }

  lemma UpdatedSnoc(db: Database, es: seq<FileSystemEvent>, e: FileSystemEvent)
    ensures Updated(db, es + [e]) == Updated(Updated(db, es), [e])
  {
    assert (es + [e])[..|es|] == es;
    var files := FilesChanged(db.availableFiles, es);
    assert [e][..0] == [] && FilesChanged(files, []) == files;
    assert FilesChanged(files, [e]) == FileChanged(files, e);
  }

  lemma ReceivedAppends(s: State, m: Message)
    ensures s.fsEvents <= Received(s, m).fsEvents
    ensures Received(s, m).pool == s.pool && Received(s, m).responses == s.responses
    ensures !IsReset(s, m) ==> Received(s, m).db == s.db
    ensures Received(s, m).sent == s.sent || (Received(s, m).sent == s.sent + [ConfigRequest(s.nextRequestId + 1)])
  {
  }

  lemma StepKeepsFiles(check: Checker, s: State, h: History, step: Step)
    requires Enabled(s, step) && FilesAgree(s, h)
    ensures FilesAgree(After(check, s, step), Noted(check, s, h, step))
  {
    hide Updated, Enumerates, FilesToCheck, Received, Batch, Sending;
    if step.LspTurn? {
      MessageKeepsFiles(check, s, h, step.message);
    } else if step.FsTurn? {
      FileTurnKeepsFiles(check, s, h, step.files);
    }
  }

  lemma FileTurnKeepsFiles(check: Checker, s: State, h: History, files: seq<Path>)
    requires Enabled(s, FsTurn(files)) && FilesAgree(s, h)
    ensures FilesAgree(After(check, s, FsTurn(files)), Noted(check, s, h, FsTurn(files)))
  {
    hide Updated, Enumerates, FilesToCheck;
    assert s.fsEvents == [s.fsEvents[0]] + s.fsEvents[1..];
    UpdatedSnoc(h.base, h.sinceReset, s.fsEvents[0]);
  }

  lemma MessageKeepsFiles(check: Checker, s: State, h: History, m: Message)
    requires !s.failed && FilesAgree(s, h)
    ensures FilesAgree(Received(s, m), Noted(check, s, h, LspTurn(m)))
  {
    hide FilesChanged;
    ReceivedAppends(s, m);
    NothingChanged(Received(s, m).db);
    hide Received, Updated;
    var s' := Received(s, m);
    assert s'.fsEvents == s.fsEvents + s'.fsEvents[|s.fsEvents|..];
    assert h.fsHandled + s.fsEvents + s'.fsEvents[|s.fsEvents|..] == h.fsHandled + s'.fsEvents;
    assert h.fsHandled[|h.fsHandled|..] == [];
  }

  lemma NothingChanged(db: Database)
    ensures Updated(db, []) == db
  {
  }

  // ----- Batches -----

  /** Batches are computed and published in the order of their tasks, each exactly once. */
  ghost predicate BatchesAgree(check: Checker, s: State, h: History) {
    var d, r := |h.delivered|, |s.responses|;
    |h.tasks| == d + r + |s.pool| && s.pool == h.tasks[d + r..]
    && (forall i :: 0 <= i < d ==> h.delivered[i] == Batch(check, h.tasks[i].db, h.tasks[i].files))
    && (forall i :: 0 <= i < r ==> s.responses[i] == Diagnostics(Batch(check, h.tasks[d + i].db, h.tasks[d + i].files)))
  }

  lemma StepKeepsBatches(check: Checker, s: State, h: History, step: Step)
    requires Enabled(s, step) && BatchesAgree(check, s, h)
    ensures BatchesAgree(check, After(check, s, step), Noted(check, s, h, step))
  {
    hide Batch, Enumerates, FilesToCheck, Updated;
    if step.LspTurn? {
      ReceivedAppends(s, step.message);
      hide Received;
    } else if step.ResponseTurn? {
      DeliveryKeepsBatches(check, s, h);
    } else if step.Worker? {
      WorkKeepsBatches(check, s, h);
    }
  }

  lemma OneDelivered(check: Checker, s: State, h: History)
    requires Enabled(s, ResponseTurn) && s.responses[0].Diagnostics?
    ensures var s', h' := After(check, s, ResponseTurn), Noted(check, s, h, ResponseTurn);
            s'.responses == s.responses[1..] && s'.pool == s.pool
            && h'.tasks == h.tasks && h'.delivered == h.delivered + [s.responses[0].batch]
  {
  }

  lemma DeliveryKeepsBatches(check: Checker, s: State, h: History)
    requires Enabled(s, ResponseTurn) && BatchesAgree(check, s, h)
    ensures BatchesAgree(check, After(check, s, ResponseTurn), Noted(check, s, h, ResponseTurn))
  {
    hide Batch, After, Noted;
    assert s.responses[0] == Diagnostics(Batch(check, h.tasks[|h.delivered|].db, h.tasks[|h.delivered|].files));
    OneDelivered(check, s, h);
    var s', h' := After(check, s, ResponseTurn), Noted(check, s, h, ResponseTurn);
    forall i | 0 <= i < |s'.responses|
      ensures s'.responses[i] == Diagnostics(Batch(check, h.tasks[|h'.delivered| + i].db, h.tasks[|h'.delivered| + i].files))
    {
      assert s'.responses[i] == s.responses[i + 1];
    }
  }

  lemma WorkKeepsBatches(check: Checker, s: State, h: History)
    requires Enabled(s, Worker) && BatchesAgree(check, s, h)
    ensures BatchesAgree(check, After(check, s, Worker), Noted(check, s, h, Worker))
  {
    hide Batch;
    assert s.pool[0] == h.tasks[|h.delivered| + |s.responses|];
  }

  /** The last task looks at the current database, unless the settings were replaced since;
      it covers the module files and every open file for which no event is waiting. */
  ghost predicate LastTaskIsCurrent(s: State, h: History) {
    (h.tasks == [] ==> h.openedAtTask == {})
    && (h.tasks != [] ==>
          var last := h.tasks[|h.tasks| - 1];
          Enumerates(last.files, FilesToCheck(last.db, h.openedAtTask)) && (!h.resetSinceTask ==> last.db == s.db))
    && forall p :: p in s.openedFiles ==> p in h.openedAtTask || Awaited(s.fsEvents, p)
  }

  ghost predicate Awaited(es: seq<FileSystemEvent>, p: Path) {
    exists i :: 0 <= i < |es| && es[i].path == p
  }

  lemma StepKeepsLastTask(check: Checker, s: State, h: History, step: Step)
    requires Enabled(s, step) && LastTaskIsCurrent(s, h)
    ensures LastTaskIsCurrent(After(check, s, step), Noted(check, s, h, step))
  {
    hide Enumerates, FilesToCheck, Awaited, Updated;
    if step.LspTurn? {
      ReceivedAppends(s, step.message);
      forall p | p in Received(s, step.message).openedFiles
        ensures p in h.openedAtTask || Awaited(Received(s, step.message).fsEvents, p)
      {
        OpenedIsAwaited(s, h, step.message, p);
      }
    }
  }

  lemma OpenedIsAwaited(s: State, h: History, m: Message, p: Path)
    requires p in s.openedFiles ==> p in h.openedAtTask || Awaited(s.fsEvents, p)
    requires p in Received(s, m).openedFiles
    ensures p in h.openedAtTask || Awaited(Received(s, m).fsEvents, p)
  {
    ReceivedAppends(s, m);
    var es := Received(s, m).fsEvents;
    if p in s.openedFiles {
      if Awaited(s.fsEvents, p) {
        var i :| 0 <= i < |s.fsEvents| && s.fsEvents[i].path == p;
        assert es[i].path == p;
      }
    } else {
      assert es[|es| - 1].path == p;
    }
  }

  // ----- What the client sees -----

  /** The diagnostics that were last published for a path. */
  ghost function View(sent: seq<Outgoing>, p: Path): Option<seq<string>> {
    if sent == [] then None
    else
      var last := sent[|sent| - 1];
      if last.Publish? && last.fpath == p then Some(last.diagnostics) else View(sent[..|sent| - 1], p)
  }

  lemma {:induction false} ViewConcat(a: seq<Outgoing>, b: seq<Outgoing>, p: Path)
    ensures View(a + b, p) == if View(b, p).Some? then View(b, p) else View(a, p)
    decreases |b|
  {
    if b == [] {
      assert a + b == a;
    } else {
      var n := |b| - 1;
      assert (a + b)[..|a + b| - 1] == a + b[..n];
      ViewConcat(a, b[..n], p);
    }
  }

  /** Everything published comes from the delivered batches. */
  ghost function Delivered(batches: seq<seq<FileDiagnostic>>): seq<Outgoing> {
    if batches == [] then [] else Delivered(batches[..|batches| - 1]) + Publications(batches[|batches| - 1])
  }

  ghost predicate ViewsAgree(s: State, h: History) {
    forall p :: View(s.sent, p) == View(Delivered(h.delivered), p)
  }

  lemma StepKeepsViews(check: Checker, s: State, h: History, step: Step)
    requires Enabled(s, step) && ViewsAgree(s, h)
    ensures ViewsAgree(After(check, s, step), Noted(check, s, h, step))
  {
    hide View, Batch;
    var s', h' := After(check, s, step), Noted(check, s, h, step);
    forall p ensures View(s'.sent, p) == View(Delivered(h'.delivered), p) {
      if step.LspTurn? {
        ReceivedAppends(s, step.message);
        ViewConcat(s.sent, [ConfigRequest(s.nextRequestId + 1)], p);
        OtherMessage(ConfigRequest(s.nextRequestId + 1), p);
      } else if step.ResponseTurn? {
        ViewConcat(s.sent, Sending(s.responses[0]), p);
        if s.responses[0].Diagnostics? {
          assert h'.delivered[..|h.delivered|] == h.delivered;
          ViewConcat(Delivered(h.delivered), Publications(s.responses[0].batch), p);
        } else {
          OtherMessage(Reply(s.responses[0].response), p);
        }
      }
    }
  }

  lemma {:induction false} OtherMessage(m: Outgoing, p: Path)
    requires !m.Publish?
    ensures View([m], p).None?
  {
  }

  // ----- Configuration requests -----

  ghost predicate Below(ids: seq<nat>, bound: nat) {
    forall i :: 0 <= i < |ids| ==> ids[i] < bound
  }

  ghost function RequestIds(sent: seq<Outgoing>): seq<nat> {
    if sent == [] then []
    else
      var last := sent[|sent| - 1];
      RequestIds(sent[..|sent| - 1]) + if last.ConfigRequest? then [last.id] else []
  }

  /** Requests are numbered 1, 2, ...; only the response to the latest is accepted, and once:
      the accepted numbers increase. */
  ghost predicate RequestsAgree(s: State, h: History) {
    RequestIds(s.sent) == seq(s.nextRequestId, (i: nat) => i + 1)
    && (s.configurationRequestId.Some? ==>
          s.configurationRequestId.value == s.nextRequestId && Below(h.accepted, s.nextRequestId))
    && Below(h.accepted, s.nextRequestId + 1)
    && forall i, j :: 0 <= i < j < |h.accepted| ==> h.accepted[i] < h.accepted[j]
  }

  lemma {:induction false} IdsConcat(a: seq<Outgoing>, b: seq<Outgoing>)
    ensures RequestIds(a + b) == RequestIds(a) + RequestIds(b)
    decreases |b|
  {
    if b == [] {
      assert a + b == a;
    } else {
      var n := |b| - 1;
      assert (a + b)[..|a + b| - 1] == a + b[..n];
      IdsConcat(a, b[..n]);
    }
  }

  lemma {:induction false} NoIds(b: seq<Outgoing>)
    requires forall i :: 0 <= i < |b| ==> !b[i].ConfigRequest?
    ensures RequestIds(b) == []
    decreases |b|
  {
    if b != [] {
      NoIds(b[..|b| - 1]);
    }
  }

  lemma StepKeepsRequests(check: Checker, s: State, h: History, step: Step)
    requires Enabled(s, step) && RequestsAgree(s, h)
    ensures RequestsAgree(After(check, s, step), Noted(check, s, h, step))
  {
    hide RequestIds, Batch;
    if step.LspTurn? {
      if step.message == Notify(DidChangeConfiguration) {
        var id := s.nextRequestId + 1;
        IdsConcat(s.sent, [ConfigRequest(id)]);
        OneId(id);
        assert seq(id, (i: nat) => i + 1) == seq(s.nextRequestId, (i: nat) => i + 1) + [id];
      }
    } else if step.ResponseTurn? {
      IdsConcat(s.sent, Sending(s.responses[0]));
      NoIds(Sending(s.responses[0]));
    }
  }

  lemma OneId(id: nat)
    ensures RequestIds([ConfigRequest(id)]) == [id]
  {
  }

  // ----- Every run -----

  ghost predicate Invariant(check: Checker, s: State, h: History) {
    FilesAgree(s, h) && BatchesAgree(check, s, h) && LastTaskIsCurrent(s, h) && ViewsAgree(s, h) && RequestsAgree(s, h)
  }

  /** In every run: file events are handled in the order in which they were sent and the files
      are their fold since the last reset; batches are published in the order of their tasks;
      the client sees what was published last; requests are accepted at most once. */
  lemma {:induction false} EveryRun(check: Checker, config: Config, steps: seq<Step>)
    requires Possible(check, config, steps)
    ensures var (s, h) := RunOf(check, config, steps); Invariant(check, s, h)
    decreases |steps|
  {
    hide FilesAgree, BatchesAgree, LastTaskIsCurrent, ViewsAgree, RequestsAgree, After, Noted;
    if steps == [] {
      StartAgrees(check, config);
    } else {
      EveryRun(check, config, steps[..|steps| - 1]);
      var (s, h) := RunOf(check, config, steps[..|steps| - 1]);
      var step := steps[|steps| - 1];
      StepKeepsFiles(check, s, h, step);
      StepKeepsBatches(check, s, h, step);
      StepKeepsLastTask(check, s, h, step);
      StepKeepsViews(check, s, h, step);
      StepKeepsRequests(check, s, h, step);
    }
  }

  lemma StartAgrees(check: Checker, config: Config)
    ensures Invariant(check, Start(config), History([], [], Start(config).db, [], [], {}, false, [], []))
  {
  }

  // ----- One batch -----

  lemma PublicationsConcat(a: seq<FileDiagnostic>, b: seq<FileDiagnostic>)
    ensures Publications(a + b) == Publications(a) + Publications(b)
  {
  }

  ghost predicate Reports(check: Checker, db: Database, f: Path, p: Path) {
    f in db.availableFiles && check(db, f, db.availableFiles[f]).Some? && check(db, f, db.availableFiles[f]).value.fpath == p
  }

  /** What the check of one file publishes for a path. */
  ghost function FileView(check: Checker, db: Database, f: Path, p: Path): Option<seq<string>> {
    if Reports(check, db, f, p) then
      var d := check(db, f, db.availableFiles[f]).value.diagnostic;
      Some(if d.Some? then [d.value] else [])
    else if f == p then Some([])
    else None
  }

  lemma OneFile(check: Checker, db: Database, f: Path, p: Path)
    ensures View(Publications(FileBatch(check, db, f)), p) == FileView(check, db, f, p)
  {
    var clear := FileDiagnostic(f, None);
    OneEntry(clear, p);
    if f in db.availableFiles && check(db, f, db.availableFiles[f]).Some? {
      var d := check(db, f, db.availableFiles[f]).value;
      OneEntry(d, p);
      PublicationsConcat([clear], [d]);
      ViewConcat(Publications([clear]), Publications([d]), p);
    }
  }

  lemma OneEntry(d: FileDiagnostic, p: Path)
    ensures View(Publications([d]), p) ==
            if d.fpath == p then Some(if d.diagnostic.Some? then [d.diagnostic.value] else []) else None
  {
  }

  lemma BatchSnoc(check: Checker, db: Database, files: seq<Path>, p: Path)
    requires files != []
    ensures var n := |files| - 1;
            View(Publications(Batch(check, db, files)), p) ==
            if FileView(check, db, files[n], p).Some? then FileView(check, db, files[n], p)
            else View(Publications(Batch(check, db, files[..n])), p)
  {
    hide View;
    var n := |files| - 1;
    PublicationsConcat(Batch(check, db, files[..n]), FileBatch(check, db, files[n]));
    ViewConcat(Publications(Batch(check, db, files[..n])), Publications(FileBatch(check, db, files[n])), p);
    OneFile(check, db, files[n], p);
  }

  /** A batch leaves for a path what the last file leaves that is the path or reports on it. */
  lemma {:induction false} LastReportWins(check: Checker, db: Database, files: seq<Path>, p: Path, k: nat)
    requires k < |files| && FileView(check, db, files[k], p).Some?
    requires forall j :: k < j < |files| ==> FileView(check, db, files[j], p).None?
    ensures View(Publications(Batch(check, db, files)), p) == FileView(check, db, files[k], p)
    decreases |files|
  {
    BatchSnoc(check, db, files, p);
    if k < |files| - 1 {
      LastReportWins(check, db, files[..|files| - 1], p, k);
    }
  }

  /** A batch mentions a path if, and only if, one of its files is the path or reports on it. */
  lemma {:induction false} BatchMentions(check: Checker, db: Database, files: seq<Path>, p: Path)
    ensures View(Publications(Batch(check, db, files)), p).Some? <==> Concerned(check, db, files, p)
    decreases |files|
  {
    if files != [] {
      var n := |files| - 1;
      BatchSnoc(check, db, files, p);
      BatchMentions(check, db, files[..n], p);
      assert forall f :: f in files <==> f in files[..n] || f == files[n];
    } else {
      assert Publications([]) == [];
    }
  }

  ghost predicate Concerned(check: Checker, db: Database, files: seq<Path>, p: Path) {
    exists f :: f in files && FileView(check, db, f, p).Some?
  }

  /** When every file is reported on by its own check only, the batch shows the result of
      each. */
  lemma {:induction false} OwnReports(check: Checker, db: Database, files: seq<Path>, k: nat)
    requires k < |files| && forall i, j :: 0 <= i < j < |files| ==> files[i] != files[j]
    requires forall f, p :: f in files && Reports(check, db, f, p) ==> f == p
    ensures View(Publications(Batch(check, db, files)), files[k]) == FileView(check, db, files[k], files[k])
  {
    forall j | k < j < |files| ensures FileView(check, db, files[j], files[k]).None? {
      assert files[j] in files;
    }
    LastReportWins(check, db, files, files[k], k);
  }

  // ----- The order of a batch -----

  /** Every order of the files leaves the same for the path. */
  ghost predicate OrderIsFree(check: Checker, db: Database, paths: set<Path>, p: Path) {
    forall a, b :: Enumerates(a, paths) && Enumerates(b, paths) ==>
      View(Publications(Batch(check, db, a)), p) == View(Publications(Batch(check, db, b)), p)
  }

  /** All files that concern the path say the same about it. */
  ghost predicate SayTheSame(check: Checker, db: Database, paths: set<Path>, p: Path) {
    forall f, g :: f in paths && g in paths && FileView(check, db, f, p).Some? && FileView(check, db, g, p).Some? ==>
      FileView(check, db, f, p) == FileView(check, db, g, p)
  }

  lemma {:induction false} AgreedView(check: Checker, db: Database, files: seq<Path>, paths: set<Path>, p: Path, f: Path)
    requires SayTheSame(check, db, paths, p) && (forall g :: g in files ==> g in paths)
    requires f in paths && FileView(check, db, f, p).Some?
    ensures View(Publications(Batch(check, db, files)), p).Some? ==>
              View(Publications(Batch(check, db, files)), p) == FileView(check, db, f, p)
    decreases |files|
  {
    if files != [] {
      BatchSnoc(check, db, files, p);
      AgreedView(check, db, files[..|files| - 1], paths, p, f);
    } else {
      assert Publications([]) == [];
    }
  }

  /** What a batch leaves for a path does not depend on the order of the files if, and only
      if, all files that concern the path say the same about it. */
  lemma OrderMattersExactly(check: Checker, db: Database, paths: set<Path>, p: Path)
    ensures OrderIsFree(check, db, paths, p) <==> SayTheSame(check, db, paths, p)
  {
    hide View, Batch, Publications, FileView;
    if SayTheSame(check, db, paths, p) {
      forall a, b | Enumerates(a, paths) && Enumerates(b, paths)
        ensures View(Publications(Batch(check, db, a)), p) == View(Publications(Batch(check, db, b)), p)
      {
        BatchMentions(check, db, a, p);
        BatchMentions(check, db, b, p);
        if Concerned(check, db, a, p) {
          var f :| f in a && FileView(check, db, f, p).Some?;
          AgreedView(check, db, a, paths, p, f);
          AgreedView(check, db, b, paths, p, f);
        }
      }
    }
    if OrderIsFree(check, db, paths, p) {
      forall f, g | f in paths && g in paths && FileView(check, db, f, p).Some? && FileView(check, db, g, p).Some?
        ensures FileView(check, db, f, p) == FileView(check, db, g, p)
      {
        var a := WithLast(paths, f);
        var b := WithLast(paths, g);
        LastReportWins(check, db, a, p, |a| - 1);
        LastReportWins(check, db, b, p, |b| - 1);
      }
    }
  }

  lemma WithLast(paths: set<Path>, f: Path) returns (files: seq<Path>)
    requires f in paths
    ensures Enumerates(files, paths) && files != [] && files[|files| - 1] == f
  {
    var rest := InOrder(paths - {f});
    files := rest + [f];
    assert forall i :: 0 <= i < |rest| ==> files[i] in rest;
  }

  lemma {:induction false} InOrder(paths: set<Path>) returns (files: seq<Path>)
    ensures Enumerates(files, paths)
    decreases paths
  {
    if paths == {} {
      files := [];
    } else {
      var p :| p in paths;
      var rest := InOrder(paths - {p});
      files := rest + [p];
      assert forall i :: 0 <= i < |rest| ==> files[i] in rest;
    }
  }

  /** Two orders that differ: the report of `a` on `b` is cleared when `b` comes later, and
      stays when it comes earlier. */
  lemma {:induction false} OrderMatters(check: Checker, db: Database, a: Path, b: Path, e: string)
    requires a != b && a in db.availableFiles && b in db.availableFiles
    requires check(db, a, db.availableFiles[a]) == Some(FileDiagnostic(b, Some(e)))
    requires check(db, b, db.availableFiles[b]) == None
    ensures View(Publications(Batch(check, db, [a, b])), b) == Some([])
    ensures View(Publications(Batch(check, db, [b, a])), b) == Some([e])
  {
    LastReportWins(check, db, [a, b], b, 1);
    LastReportWins(check, db, [b, a], b, 1);
  }

  // ----- What the client sees in a run -----

  lemma {:induction false} DeliveredShows(batches: seq<seq<FileDiagnostic>>, p: Path, k: nat)
    requires k < |batches| && View(Publications(batches[k]), p).Some?
    requires forall j :: k < j < |batches| ==> View(Publications(batches[j]), p).None?
    ensures View(Delivered(batches), p) == View(Publications(batches[k]), p)
    decreases |batches|
  {
    hide View, Publications;
    var n := |batches| - 1;
    ViewConcat(Delivered(batches[..n]), Publications(batches[n]), p);
    if k < n {
      DeliveredShows(batches[..n], p, k);
    }
  }

  lemma {:induction false} DeliveredNothing(batches: seq<seq<FileDiagnostic>>, p: Path)
    requires forall j :: 0 <= j < |batches| ==> View(Publications(batches[j]), p).None?
    ensures View(Delivered(batches), p).None?
    decreases |batches|
  {
    if batches != [] {
      var n := |batches| - 1;
      ViewConcat(Delivered(batches[..n]), Publications(batches[n]), p);
      DeliveredNothing(batches[..n], p);
    }
  }

  /** The files of the task concern the path. */
  ghost predicate TaskConcerns(check: Checker, task: Task, p: Path) {
    Concerned(check, task.db, task.files, p)
  }

  ghost predicate LastConcerned(check: Checker, tasks: seq<Task>, p: Path, k: nat) {
    k < |tasks| && TaskConcerns(check, tasks[k], p)
    && forall j :: k < j < |tasks| ==> !TaskConcerns(check, tasks[j], p)
  }

  ghost predicate NoneConcerned(check: Checker, tasks: seq<Task>, p: Path) {
    forall j :: 0 <= j < |tasks| ==> !TaskConcerns(check, tasks[j], p)
  }

  /** In every run the entry of a path is renewed exactly by the tasks that concern it: the
      client sees what the last delivered one of them left, and nothing before there is one. */
  lemma EntriesAreRenewed(check: Checker, config: Config, steps: seq<Step>, p: Path)
    requires Possible(check, config, steps)
    ensures var (s, h) := RunOf(check, config, steps);
            |h.delivered| <= |h.tasks|
            && (forall k: nat :: LastConcerned(check, h.tasks[..|h.delivered|], p, k) ==>
                  View(s.sent, p) == View(Publications(Batch(check, h.tasks[k].db, h.tasks[k].files)), p))
            && (NoneConcerned(check, h.tasks[..|h.delivered|], p) ==> View(s.sent, p).None?)
  {
    hide RunOf, View, Batch, Publications, Delivered, FilesAgree, LastTaskIsCurrent, RequestsAgree, Concerned;
    EveryRun(check, config, steps);
    var (s, h) := RunOf(check, config, steps);
    var done := h.tasks[..|h.delivered|];
    forall k | 0 <= k < |h.delivered|
      ensures View(Publications(h.delivered[k]), p).Some? <==> TaskConcerns(check, h.tasks[k], p)
    {
      BatchMentions(check, h.tasks[k].db, h.tasks[k].files, p);
    }
    forall k: nat | LastConcerned(check, done, p, k)
      ensures View(s.sent, p) == View(Publications(Batch(check, h.tasks[k].db, h.tasks[k].files)), p)
    {
      forall j | k < j < |h.delivered| ensures View(Publications(h.delivered[j]), p).None? {
        assert !TaskConcerns(check, done[j], p);
      }
      DeliveredShows(h.delivered, p, k);
    }
    if NoneConcerned(check, done, p) {
      forall j | 0 <= j < |h.delivered| ensures View(Publications(h.delivered[j]), p).None? {
        assert !TaskConcerns(check, done[j], p);
      }
      DeliveredNothing(h.delivered, p);
    }
  }

  /** All queues are empty after at least one task, and the settings are still those it saw. */
  ghost predicate Quiet(s: State, h: History) {
    s.fsEvents == [] && s.pool == [] && s.responses == [] && h.tasks != [] && !h.resetSinceTask
  }

  ghost function LastFiles(h: History): seq<Path> {
    if h.tasks == [] then [] else h.tasks[|h.tasks| - 1].files
  }

  /** In a quiet run the last batch was computed from the current database. If it mentions a
      path, the client sees what it left; otherwise the entry is as it was before it. */
  lemma QuietClient(check: Checker, config: Config, steps: seq<Step>, p: Path)
    requires Possible(check, config, steps)
    requires var (s, h) := RunOf(check, config, steps); Quiet(s, h)
    ensures var (s, h) := RunOf(check, config, steps);
            var last, n := Publications(Batch(check, s.db, LastFiles(h))), |h.tasks| - 1;
            h.fsHandled == h.fsSent && |h.delivered| == |h.tasks|
            && View(s.sent, p) == if View(last, p).Some? then View(last, p) else View(Delivered(h.delivered[..n]), p)
  {
    hide RunOf, View, Batch, Publications;
    EveryRun(check, config, steps);
    var (s, h) := RunOf(check, config, steps);
    var n := |h.delivered| - 1;
    ViewConcat(Delivered(h.delivered[..n]), Publications(h.delivered[n]), p);
  }

  /** In a quiet run the client sees, for every path that the last batch mentions, the last
      entry for it in the batch that is computed from the current database. */
  lemma QuietClientIsCurrent(check: Checker, config: Config, steps: seq<Step>, p: Path)
    requires Possible(check, config, steps)
    requires var (s, h) := RunOf(check, config, steps);
             Quiet(s, h) && View(Publications(Batch(check, s.db, LastFiles(h))), p).Some?
    ensures var (s, h) := RunOf(check, config, steps);
            h.fsHandled == h.fsSent && View(s.sent, p) == View(Publications(Batch(check, s.db, LastFiles(h))), p)
  {
    hide RunOf, View, Batch, Publications;
    QuietClient(check, config, steps, p);
  }

  /** A file of the database is a module file if its path starts with a module folder. */
  ghost predicate UnderFolder(config: Config, p: Path) {
    exists i :: 0 <= i < |config.modulesFolders| && StartsWith(p, config.modulesFolders[i])
  }

  ghost predicate StartsWith(p: Path, folder: Path) {
    |folder| <= |p| && p[..|folder|] == folder
  }

  lemma CheckedFiles(db: Database, open: set<Path>, p: Path)
    ensures p in FilesToCheck(db, open) <==> p in open || (p in db.availableFiles && UnderFolder(db.config, p))
  {
    if UnderFolder(db.config, p) {
      var i :| 0 <= i < |db.config.modulesFolders| && StartsWith(p, db.config.modulesFolders[i]);
      assert db.config.modulesFolders[i] <= p;
    }
    if IsModulePath(db.config, p) {
      var i :| 0 <= i < |db.config.modulesFolders| && db.config.modulesFolders[i] <= p;
      assert StartsWith(p, db.config.modulesFolders[i]);
    }
  }

  /** These paths are, among others, all open files and all files under a module folder. */
  lemma QuietBatchCovers(check: Checker, config: Config, steps: seq<Step>)
    requires Possible(check, config, steps)
    requires var (s, h) := RunOf(check, config, steps); Quiet(s, h)
    ensures var (s, h) := RunOf(check, config, steps);
            Enumerates(LastFiles(h), FilesToCheck(s.db, h.openedAtTask)) && s.openedFiles <= h.openedAtTask
            && (forall p :: p in s.openedFiles || (p in s.db.availableFiles && UnderFolder(s.db.config, p)) ==> p in LastFiles(h))
            && forall p :: p in LastFiles(h) ==> View(Publications(Batch(check, s.db, LastFiles(h))), p).Some?
  {
    hide RunOf, View, Batch, Publications, FilesToCheck, UnderFolder;
    EveryRun(check, config, steps);
    var (s, h) := RunOf(check, config, steps);
    forall p | p in s.openedFiles ensures p in h.openedAtTask {
      assert !Awaited(s.fsEvents, p);
    }
    forall p | p in s.openedFiles || (p in s.db.availableFiles && UnderFolder(s.db.config, p)) ensures p in LastFiles(h) {
      CheckedFiles(s.db, h.openedAtTask, p);
    }
    forall p | p in LastFiles(h) ensures View(Publications(Batch(check, s.db, LastFiles(h))), p).Some? {
      assert FileView(check, s.db, p, p).Some?;
      BatchMentions(check, s.db, LastFiles(h), p);
    }
  }

  /** In a quiet run in which every file is reported on by its own check only, the client sees
      for every file of the last batch exactly what its check finds in the current database. */
  lemma QuietClientSeesOwnReports(check: Checker, config: Config, steps: seq<Step>, p: Path)
    requires Possible(check, config, steps)
    requires var (s, h) := RunOf(check, config, steps);
             Quiet(s, h) && p in LastFiles(h) && forall f, q :: f in LastFiles(h) && Reports(check, s.db, f, q) ==> f == q
    ensures var (s, h) := RunOf(check, config, steps); View(s.sent, p) == FileView(check, s.db, p, p)
  {
    hide RunOf, View, Batch, Publications, FilesToCheck, FileView;
    QuietBatchCovers(check, config, steps);
    QuietClientIsCurrent(check, config, steps, p);
    var (s, h) := RunOf(check, config, steps);
    var k :| 0 <= k < |LastFiles(h)| && LastFiles(h)[k] == p;
    OwnReports(check, s.db, LastFiles(h), k);
  }

  // ----- A file that is gone -----

  /** Open a file, check it, let a watched-files event remove it, and let all queues drain. */
  ghost function RemovalRun(a: Path, text: Text): seq<Step> {
    [LspTurn(Notify(DidOpen(Some(a), text))), FsTurn([a]), Worker, ResponseTurn,
     LspTurn(Notify(DidChangeWatchedFiles([Some(a)]))), FsTurn([]), Worker, ResponseTurn]
  }

  lemma RunSnoc(check: Checker, config: Config, steps: seq<Step>, step: Step)
    requires Possible(check, config, steps) && Enabled(RunOf(check, config, steps).0, step)
    ensures Possible(check, config, steps + [step])
    ensures RunOf(check, config, steps + [step]).0 == After(check, RunOf(check, config, steps).0, step)
  {
  }

  lemma Drain(check: Checker, config: Config, steps: seq<Step>, e: FileSystemEvent, files: seq<Path>)
    requires Possible(check, config, steps)
    requires var s := RunOf(check, config, steps).0;
             !s.failed && s.fsEvents == [e] && s.pool == [] && s.responses == []
             && Enumerates(files, FilesToCheck(Updated(s.db, [e]), s.openedFiles))
    ensures Possible(check, config, steps + [FsTurn(files)] + [Worker] + [ResponseTurn])
    ensures var s := RunOf(check, config, steps).0;
            var db := Updated(s.db, [e]);
            RunOf(check, config, steps + [FsTurn(files)] + [Worker] + [ResponseTurn]).0 ==
            s.(db := db, fsEvents := [], sent := s.sent + Publications(Batch(check, db, files)))
  {
    hide RunOf, Possible, Batch, Enumerates, FilesToCheck, Updated;
    RunSnoc(check, config, steps, FsTurn(files));
    RunSnoc(check, config, steps + [FsTurn(files)], Worker);
    RunSnoc(check, config, steps + [FsTurn(files)] + [Worker], ResponseTurn);
  }

  /** In a quiet run a path that was neither open nor a module file at the last task keeps the
      entry from before if, and only if, no file of the last batch reports on it; otherwise it
      shows a report from the current database. */
  lemma RemovedPathKeepsEntry(check: Checker, config: Config, steps: seq<Step>, p: Path)
    requires Possible(check, config, steps)
    requires var (s, h) := RunOf(check, config, steps); Quiet(s, h) && p !in FilesToCheck(s.db, h.openedAtTask)
    ensures var (s, h) := RunOf(check, config, steps);
            var last := Publications(Batch(check, s.db, LastFiles(h)));
            (View(last, p).None? <==> forall f :: f in LastFiles(h) ==> !Reports(check, s.db, f, p))
            && |h.delivered| == |h.tasks|
            && View(s.sent, p) == if View(last, p).None? then View(Delivered(h.delivered[..|h.tasks| - 1]), p) else View(last, p)
  {
    hide RunOf, View, Batch, Publications, FilesToCheck;
    QuietBatchCovers(check, config, steps);
    QuietClient(check, config, steps, p);
    var (s, h) := RunOf(check, config, steps);
    BatchMentions(check, s.db, LastFiles(h), p);
    assert forall f :: f in LastFiles(h) ==> f != p;
  }

  /** Such a run: a file that is closed and removed keeps what was found before. */
  lemma RemovedFileIsNotCleared(check: Checker, config: Config, a: Path, text: Text, e: string)
    requires config.modulesFolders == []
    requires check(Database(config, map[a := text]), a, text) == Some(FileDiagnostic(a, Some(e)))
    ensures Possible(check, config, RemovalRun(a, text))
    ensures var s := RunOf(check, config, RemovalRun(a, text)).0;
            s.fsEvents == [] && s.pool == [] && s.responses == [] && !s.failed
            && a !in s.db.availableFiles && a !in s.openedFiles && View(s.sent, a) == Some([e])
  {
    hide RunOf, Possible, View, Batch;
    var db, close := Database(config, map[a := text]), Notify(DidChangeWatchedFiles([Some(a)]));
    OpenAndCheck(check, config, a, text);
    var steps := OpenedRun(a, text);
    RunSnoc(check, config, steps, LspTurn(close));
    var s := RunOf(check, config, steps).0;
    CloseFile(s, a);
    OneChange(db, RemoveFile(a));
    NoModules(Updated(db, [RemoveFile(a)]), {});
    Drain(check, config, steps + [LspTurn(close)], RemoveFile(a), []);
    assert steps + [LspTurn(close)] + [FsTurn([])] + [Worker] + [ResponseTurn] == RemovalRun(a, text);
    LastReportWins(check, db, [a], a, 0);
    NothingToCheck(check, Updated(db, [RemoveFile(a)]), s.sent);
  }

  ghost function OpenedRun(a: Path, text: Text): seq<Step> {
    [LspTurn(Notify(DidOpen(Some(a), text)))] + [FsTurn([a])] + [Worker] + [ResponseTurn]
  }

  lemma OpenAndCheck(check: Checker, config: Config, a: Path, text: Text)
    requires config.modulesFolders == []
    ensures Possible(check, config, OpenedRun(a, text))
    ensures var db := Database(config, map[a := text]);
            RunOf(check, config, OpenedRun(a, text)).0 ==
            Start(config).(db := db, openedFiles := {a}, sent := Publications(Batch(check, db, [a])))
  {
    var open, db := Notify(DidOpen(Some(a), text)), Database(config, map[a := text]);
    assert RunOf(check, config, []).0 == Start(config);
    hide RunOf, Batch;
    RunSnoc(check, config, [], LspTurn(open));
    assert [] + [LspTurn(open)] == [LspTurn(open)];
    OneChange(Start(config).db, AddFile(a, text));
    assert map[][a := text] == map[a := text];
    NoModules(db, {a});
    Drain(check, config, [LspTurn(open)], AddFile(a, text), [a]);
  }

  lemma CloseFile(s: State, a: Path)
    requires s.openedFiles == {a} && s.fsEvents == []
    ensures Received(s, Notify(DidChangeWatchedFiles([Some(a)]))) ==
            s.(fsEvents := [RemoveFile(a)], openedFiles := {}, failed := false)
  {
    assert Watched([Some(a)]) == [a];
    assert Removals([a]) == [RemoveFile(a)] && PathSet([a]) == {a};
  }

  lemma NothingToCheck(check: Checker, db: Database, sent: seq<Outgoing>)
    ensures sent + Publications(Batch(check, db, [])) == sent
  {
  }

  lemma OneChange(db: Database, e: FileSystemEvent)
    ensures Updated(db, [e]) == db.(availableFiles := FileChanged(db.availableFiles, e))
  {
    assert [e][..0] == [] && FilesChanged(db.availableFiles, []) == db.availableFiles;
    assert FilesChanged(db.availableFiles, [e]) == FileChanged(db.availableFiles, e);
  }

  lemma NoModules(db: Database, files: set<Path>)
    requires db.config.modulesFolders == []
    ensures FilesToCheck(db, files) == files
  {
  }
}

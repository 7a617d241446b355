/** What the database of the language server holds: the texts that the client sent last. */
module OpenFiles {
  import opened Wrappers
  import opened EventLoop
  import opened EventLoopRuns

  // ----- The fold of the events -----

  /** Event `k` is the last one on the path. */
  ghost predicate LastOn(es: seq<FileSystemEvent>, p: Path, k: nat) {
    k < |es| && es[k].path == p && forall j :: k < j < |es| ==> es[j].path != p
  }

  ghost predicate NoneOn(es: seq<FileSystemEvent>, p: Path) {
    forall j :: 0 <= j < |es| ==> es[j].path != p
  }

  /** After any events a path without one is as it was; any other is there if and only if the
      last event on it is no removal, and then with the text of that event. */
  lemma {:induction false} LastEventDecides(files: map<Path, Text>, es: seq<FileSystemEvent>, p: Path)
    ensures var after := FilesChanged(files, es);
            (NoneOn(es, p) ==> (p in after <==> p in files) && (p in files ==> after[p] == files[p]))
            && forall k: nat :: LastOn(es, p, k) ==>
                 (p in after <==> !es[k].RemoveFile?) && (!es[k].RemoveFile? ==> after[p] == es[k].text)
    decreases |es|
  {
    hide NoneOn, LastOn;
    if es == [] {
      NothingOn(p);
    } else {
      LastEventDecides(files, es[..|es| - 1], p);
      OnSnoc(es, p);
    }
  }

  lemma NothingOn(p: Path)
    ensures forall k: nat :: !LastOn([], p, k)
  {
  }

  lemma OnSnoc(es: seq<FileSystemEvent>, p: Path)
    requires es != []
    ensures var front, last := es[..|es| - 1], es[|es| - 1];
            (NoneOn(es, p) <==> NoneOn(front, p) && last.path != p)
            && forall k: nat :: LastOn(es, p, k) <==>
                 if last.path == p then k == |es| - 1 else k < |front| && es[k] == front[k] && LastOn(front, p, k)
  {
    assert forall j :: 0 <= j < |es| - 1 ==> es[..|es| - 1][j] == es[j];
  }

  // ----- What the client sent -----

  /** The text that a step sends for a file: the whole of an opened file, or the last of the
      changes. */
  ghost function SentText(step: Step, p: Path): Option<Text> {
    if !step.LspTurn? || !step.message.Notify? then None
    else
      match step.message.notification
      case DidOpen(uri, text) => if uri == Some(p) then Some(text) else None
      case DidChange(uri, changes) => if uri == Some(p) && changes != [] then Some(changes[|changes| - 1]) else None
      case _ => None
  }

  /** The text that was sent last. */
  ghost function LastText(steps: seq<Step>, p: Path): Option<Text> {
    if steps == [] then None
    else if SentText(steps[|steps| - 1], p).Some? then SentText(steps[|steps| - 1], p)
    else LastText(steps[..|steps| - 1], p)
  }

  /** The settings were replaced after that. */
  ghost predicate ResetSinceText(check: Checker, config: Config, steps: seq<Step>, p: Path)
    requires Possible(check, config, steps)
    decreases |steps|
  {
    steps != [] && SentText(steps[|steps| - 1], p).None?
    && var before := steps[..|steps| - 1];
       (steps[|steps| - 1].LspTurn? && IsReset(RunOf(check, config, before).0, steps[|steps| - 1].message))
       || ResetSinceText(check, config, before, p)
  }

  // ----- Every run -----

  /** The last event on the path since the reset, handled or waiting, brings the text. */
  ghost predicate Brings(es: seq<FileSystemEvent>, p: Path, text: Text) {
    exists k: nat :: LastOn(es, p, k) && !es[k].RemoveFile? && es[k].text == text
  }

  ghost predicate TextIsUnderWay(s: State, h: History, p: Path, text: Option<Text>) {
    text.Some? && Brings(h.sinceReset + s.fsEvents, p, text.value)
  }

  lemma BroughtLast(es: seq<FileSystemEvent>, e: FileSystemEvent)
    requires !e.RemoveFile?
    ensures Brings(es + [e], e.path, e.text)
  {
    assert LastOn(es + [e], e.path, |es|);
  }

  lemma StillBrings(es: seq<FileSystemEvent>, more: seq<FileSystemEvent>, p: Path, text: Text)
    requires Brings(es, p, text) && NoneOn(more, p)
    ensures Brings(es + more, p, text)
  {
    var k: nat :| LastOn(es, p, k) && !es[k].RemoveFile? && es[k].text == text;
    assert LastOn(es + more, p, k);
  }

  lemma {:induction false} OpenTextIsUnderWay(check: Checker, config: Config, steps: seq<Step>, p: Path)
    requires Possible(check, config, steps) && !ResetSinceText(check, config, steps, p)
    requires p in RunOf(check, config, steps).0.openedFiles
    ensures var (s, h) := RunOf(check, config, steps); TextIsUnderWay(s, h, p, LastText(steps, p))
    decreases |steps|
  {
    hide TextIsUnderWay, After, Noted, SentText;
    if steps == [] {
      NothingOpen(config);
    } else {
      var before, step := steps[..|steps| - 1], steps[|steps| - 1];
      var (s, h) := RunOf(check, config, before);
      if SentText(step, p).Some? {
        TextIsSent(check, s, h, step, p);
      } else {
        StaysOpen(check, s, step, p);
        OpenTextIsUnderWay(check, config, before, p);
        StaysUnderWay(check, s, h, step, p, LastText(before, p));
      }
    }
  }

  lemma NothingOpen(config: Config)
    ensures Start(config).openedFiles == {}
  {
  }

  lemma TextIsSent(check: Checker, s: State, h: History, step: Step, p: Path)
    requires Enabled(s, step) && SentText(step, p).Some?
    ensures TextIsUnderWay(After(check, s, step), Noted(check, s, h, step), p, SentText(step, p))
  {
    hide Updated;
    var s', n := After(check, s, step), step.message.notification;
    var e := if n.DidOpen? then AddFile(p, n.text) else ChangeFile(p, n.changes[|n.changes| - 1]);
    assert s'.fsEvents == s.fsEvents + [e];
    assert h.sinceReset + (s.fsEvents + [e]) == h.sinceReset + s.fsEvents + [e];
    BroughtLast(h.sinceReset + s.fsEvents, e);
  }

  lemma StaysOpen(check: Checker, s: State, step: Step, p: Path)
    requires Enabled(s, step) && SentText(step, p).None? && p in After(check, s, step).openedFiles
    ensures p in s.openedFiles
  {
    hide Updated, Batch, Sending;
  }

  lemma StaysUnderWay(check: Checker, s: State, h: History, step: Step, p: Path, text: Option<Text>)
    requires Enabled(s, step) && SentText(step, p).None? && p in After(check, s, step).openedFiles
    requires !(step.LspTurn? && IsReset(s, step.message)) && TextIsUnderWay(s, h, p, text)
    ensures TextIsUnderWay(After(check, s, step), Noted(check, s, h, step), p, text)
  {
    hide Updated, Batch, Sending, Brings, FilesToCheck;
    if step.LspTurn? {
      var more := OthersAppended(s, step.message, p);
      StillBrings(h.sinceReset + s.fsEvents, more, p, text.value);
      assert h.sinceReset + (s.fsEvents + more) == h.sinceReset + s.fsEvents + more;
    } else if step.FsTurn? {
      assert h.sinceReset + [s.fsEvents[0]] + s.fsEvents[1..] == h.sinceReset + s.fsEvents;
    }
  }

  lemma OthersAppended(s: State, m: Message, p: Path) returns (more: seq<FileSystemEvent>)
    requires SentText(LspTurn(m), p).None? && p in Received(s, m).openedFiles
    ensures Received(s, m).fsEvents == s.fsEvents + more && NoneOn(more, p)
  {
    hide Updated;
    ReceivedAppends(s, m);
    more := Received(s, m).fsEvents[|s.fsEvents|..];
    if m.Notify? && m.notification.DidChangeWatchedFiles? {
      var paths := Watched(m.notification.uris);
      assert p !in PathSet(paths);
      assert more == Removals(paths);
    }
  }

  // ----- Which files are open -----

  ghost predicate Closes(step: Step, p: Path) {
    step.LspTurn? && step.message.Notify?
    && match step.message.notification
       case DidClose(uri) => uri == Some(p)
       case DidChangeWatchedFiles(uris) => exists i :: 0 <= i < |uris| && uris[i] == Some(p) && forall j :: 0 <= j < i ==> uris[j].Some?
       case _ => false
  }

  /** The last step about the file opens or changes it. */
  ghost predicate OpensLast(steps: seq<Step>, p: Path) {
    steps != []
    && (SentText(steps[|steps| - 1], p).Some? || (!Closes(steps[|steps| - 1], p) && OpensLast(steps[..|steps| - 1], p)))
  }

  lemma {:induction false} WatchedAt(uris: seq<Option<Path>>, p: Path)
    ensures p in Watched(uris) <==> exists i :: 0 <= i < |uris| && uris[i] == Some(p) && forall j :: 0 <= j < i ==> uris[j].Some?
  {
    if uris != [] && uris[0].Some? {
      WatchedAt(uris[1..], p);
      if p in Watched(uris[1..]) {
        var i :| 0 <= i < |uris[1..]| && uris[1..][i] == Some(p) && forall j :: 0 <= j < i ==> uris[1..][j].Some?;
        assert forall j :: 0 < j < i + 1 ==> uris[j] == uris[1..][j - 1];
        assert uris[i + 1] == Some(p);
      }
      if i :| 0 <= i < |uris| && uris[i] == Some(p) && forall j :: 0 <= j < i ==> uris[j].Some? {
        if i > 0 {
          assert uris[1..][i - 1] == Some(p) && forall j :: 0 <= j < i - 1 ==> uris[1..][j] == uris[j + 1];
        } else {
          assert Watched(uris)[0] == p;
        }
      }
    }
  }

  lemma StepOpens(check: Checker, s: State, step: Step, p: Path)
    requires Enabled(s, step)
    ensures p in After(check, s, step).openedFiles <==> SentText(step, p).Some? || (!Closes(step, p) && p in s.openedFiles)
  {
    hide Updated, Batch, Sending, Watched, Enumerates;
    if step.LspTurn? && step.message.Notify? && step.message.notification.DidChangeWatchedFiles? {
      WatchedAt(step.message.notification.uris, p);
    }
  }

  /** In every run a file is open if and only if the last step about it opened or changed it:
      none closed it since, and none reported it as a watched file. */
  lemma {:induction false} OpenFilesExactly(check: Checker, config: Config, steps: seq<Step>, p: Path)
    requires Possible(check, config, steps)
    ensures p in RunOf(check, config, steps).0.openedFiles <==> OpensLast(steps, p)
    decreases |steps|
  {
    hide After, Noted, SentText, Closes, Enabled;
    if steps == [] {
      NothingOpen(config);
    } else {
      var before, step := steps[..|steps| - 1], steps[|steps| - 1];
      OpenFilesExactly(check, config, before, p);
      StepOpens(check, RunOf(check, config, before).0, step, p);
    }
  }

  // ----- The settings -----

  /** The settings that were accepted last, and the files that came with them. */
  ghost function LastSettings(check: Checker, config: Config, steps: seq<Step>): (Config, seq<FileSystemEvent>)
    requires Possible(check, config, steps)
    decreases |steps|
  {
    if steps == [] then (config, [])
    else
      var before, step := steps[..|steps| - 1], steps[|steps| - 1];
      if step.LspTurn? && IsReset(RunOf(check, config, before).0, step.message)
      then (step.message.reply.config, step.message.reply.found)
      else LastSettings(check, config, before)
  }

  /** In every run the database has these settings, and its files are those that came with
      them and the events that were handled since. */
  lemma {:induction false} SettingsAreCurrent(check: Checker, config: Config, steps: seq<Step>)
    requires Possible(check, config, steps)
    ensures var (s, h) := RunOf(check, config, steps);
            var (settings, found) := LastSettings(check, config, steps);
            s.db.config == settings && h.base == Database(settings, FilesChanged(map[], found))
            && s.db.availableFiles == FilesChanged(FilesChanged(map[], found), h.sinceReset)
    decreases |steps|
  {
    hide FilesChanged, BatchesAgree, LastTaskIsCurrent, ViewsAgree, RequestsAgree, After, Noted, Enabled;
    EveryRun(check, config, steps);
    if steps == [] {
      NoEvents();
    } else {
      var before, step := steps[..|steps| - 1], steps[|steps| - 1];
      SettingsAreCurrent(check, config, before);
      var (s, h) := RunOf(check, config, before);
      BaseIsKept(check, s, h, step);
    }
  }

  lemma NoEvents()
    ensures FilesChanged(map[], []) == map[]
  {
  }

  lemma BaseIsKept(check: Checker, s: State, h: History, step: Step)
    requires Enabled(s, step)
    ensures var h' := Noted(check, s, h, step);
            if step.LspTurn? && IsReset(s, step.message)
            then h'.base == Database(step.message.reply.config, FilesChanged(map[], step.message.reply.found))
            else h'.base == h.base
  {
    hide FilesChanged, Batch, Sending;
  }

  /** In every run, once no event is waiting, an open file has in the database the text that
      the client sent last, unless the settings were replaced after that. */
  lemma OpenFileIsCurrent(check: Checker, config: Config, steps: seq<Step>, p: Path)
    requires Possible(check, config, steps) && !ResetSinceText(check, config, steps, p)
    requires var s := RunOf(check, config, steps).0; p in s.openedFiles && s.fsEvents == []
    ensures var s := RunOf(check, config, steps).0;
            p in s.db.availableFiles && Some(s.db.availableFiles[p]) == LastText(steps, p)
  {
    hide RunOf, FilesChanged, LastText, BatchesAgree, LastTaskIsCurrent, ViewsAgree, RequestsAgree;
    EveryRun(check, config, steps);
    OpenTextIsUnderWay(check, config, steps, p);
    var (s, h) := RunOf(check, config, steps);
    assert h.sinceReset + [] == h.sinceReset;
    LastEventDecides(h.base.availableFiles, h.sinceReset, p);
  }

  /** New settings do forget it: here a file is opened and checked, the settings are replaced
      by ones whose folders hold no files, and the file is open but not in the database. */
  lemma SettingsForgetOpenFile(check: Checker, config: Config, config': Config, a: Path, text: Text)
    requires config.modulesFolders == []
    ensures var steps := OpenedRun(a, text) + [LspTurn(Notify(DidChangeConfiguration))] + [LspTurn(Response(1, Settings(config', [])))];
            Possible(check, config, steps)
            && var s := RunOf(check, config, steps).0;
               s.fsEvents == [] && !s.failed && a in s.openedFiles && a !in s.db.availableFiles
  {
    hide RunOf, Possible, Batch;
    OpenAndCheck(check, config, a, text);
    var steps, change := OpenedRun(a, text), LspTurn(Notify(DidChangeConfiguration));
    RunSnoc(check, config, steps, change);
    RunSnoc(check, config, steps + [change], LspTurn(Response(1, Settings(config', []))));
  }
}
